/** What a package-source record holds under which key, and when there is one, said of the source's own JSON. */
module RecordContent {
  import opened Options
  import opened Text
  import opened Sorting
  import opened JsonValue
  import opened PackageSource
  import opened RecordIdentity
  import JsonText

  // ---- How a field is carried over ----

  /** Absent, or a value that JavaScript takes for false. */
  ghost predicate Falsy(o: Option<Json>) {
    o.None? || o.value in {Null, Bool(false), Num(Int(0)), Num(NegZero), Num(NaN), String([])}
  }

  ghost predicate Copied(from: Json, to: Json, key: Str) {
    Get(from, key).Some? && Get(to, key) == Get(from, key)
  }

  ghost predicate CopiedUnlessFalsy(from: Json, to: Json, key: Str) {
    Get(to, key) == if Falsy(Get(from, key)) then None else Get(from, key)
  }

  ghost predicate CopiedOrEmpty(from: Json, to: Json, key: Str) {
    Get(to, key) == if Get(from, key) in {None, Some(Null)} then Some(Obj([])) else Get(from, key)
  }

  /** The same strings, in collation order. */
  ghost predicate IsSortedCopy(lt: (Str, Str) -> bool, xs: seq<Json>, ys: seq<Json>) {
    && multiset(ys) == multiset(xs) && (forall y :: y in ys ==> y.String?)
    && forall i, j :: 0 <= i < j < |ys| ==> !lt(ys[j].s, ys[i].s)
  }

  ghost predicate CopiedSorted(lt: (Str, Str) -> bool, from: Json, to: Json, key: Str) {
    && Get(from, key).Some? && Get(from, key).value.Arr? && Get(to, key).Some? && Get(to, key).value.Arr?
    && IsSortedCopy(lt, Get(from, key).value.items, Get(to, key).value.items)
  }

  ghost predicate OnlyKeys(v: Json, keys: set<Str>) {
    v.Obj? && KeySet(v.members) <= keys
  }

  /** A package of the record, from its catalog entry. */
  ghost predicate IsPackageOf(p: Platform, entry: Json, item: Json) {
    && Copied(entry, item, Lit("name")) && Copied(entry, item, Lit("version")) && Copied(entry, item, Lit("ecosystem"))
    && Copied(entry, item, Lit("owner")) && Copied(entry, item, Lit("maturity"))
    && Copied(entry, item, Lit("compatibility"))
    && CopiedSorted(p.lt, entry, item, Lit("checks")) && CopiedSorted(p.lt, entry, item, Lit("expectedConsumers"))
    && CopiedUnlessFalsy(entry, item, Lit("architectureException"))
    && CopiedUnlessFalsy(entry, item, Lit("retirementDate"))
    && CopiedOrEmpty(entry, item, Lit("extensions"))
  }

  const PACKAGE_KEYS: set<Str> := {
    Lit("name"), Lit("version"), Lit("ecosystem"), Lit("owner"), Lit("maturity"), Lit("compatibility"), Lit("checks"),
    Lit("expectedConsumers"), Lit("architectureException"), Lit("retirementDate"), Lit("extensions")}

  /** A descriptor of the record's evidence, from the given one. */
  ghost predicate IsDescriptorOf(given: Json, item: Json) {
    && Get(given, Lit("status")) == Some(String(Lit("verified"))) && Copied(given, item, Lit("status"))
    && Copied(given, item, Lit("digest"))
    && CopiedUnlessFalsy(given, item, Lit("uri")) && CopiedUnlessFalsy(given, item, Lit("mediaType"))
    && CopiedOrEmpty(given, item, Lit("extensions"))
  }

  const DESCRIPTOR_KEYS: set<Str> := {Lit("status"), Lit("digest"), Lit("uri"), Lit("mediaType"), Lit("extensions")}

  const KINDS: set<Str> := {Lit("registry"), Lit("artifact"), Lit("sbom"), Lit("attestation"), Lit("canary")}

  // ---- Looking up ----

  lemma {:induction false} GetHeld(ms: seq<Member>, m: Member)
    requires DistinctKeys(ms) && m in ms
    ensures Get(Obj(ms), m.key) == Some(m.value)
  {
    LookupIsThe(ms, m.key, m.value);
  }

  lemma {:induction false} GetMissing(ms: seq<Member>, key: Str)
    requires forall m :: m in ms ==> m.key != key
    ensures Get(Obj(ms), key) == None
  {
  }

  lemma {:induction false} FalsyIff(o: Option<Json>)
    ensures IfTruthy(o) == if Falsy(o) then None else o
    ensures Falsy(o) <==> IfTruthy(o).None?
  {
  }

  // ---- A package ----

  /** The eight members that every package has, and what follows. */
  lemma {:induction false} PackageMembers(k: Package)
    ensures var ms := PackageJson(k).members;
      && Member(K_NAME, String(k.name)) in ms && Member(K_VERSION, String(k.version)) in ms
      && Member(K_ECOSYSTEM, String(k.ecosystem)) in ms && Member(K_OWNER, String(k.owner)) in ms
      && Member(K_MATURITY, String(k.maturity)) in ms && Member(K_COMPATIBILITY, k.compatibility) in ms
      && Member(K_CHECKS, Strings(k.checks)) in ms && Member(K_EXPECTED_CONSUMERS, Strings(k.consumers)) in ms
      && Member(K_EXTENSIONS, k.extensions) in ms
    ensures k.exception.Some? ==> Member(K_ARCHITECTURE_EXCEPTION, k.exception.value) in PackageJson(k).members
    ensures k.retirement.Some? ==> Member(K_RETIREMENT_DATE, k.retirement.value) in PackageJson(k).members
  {
    hide Lit, Strings;
    var ms := PackageJson(k).members;
    assert ms[0] in ms && ms[1] in ms && ms[2] in ms && ms[3] in ms && ms[4] in ms && ms[5] in ms && ms[6] in ms;
    assert ms[7] in ms && ms[8] in ms && ms[|ms| - 1] in ms;
    if k.retirement.Some? {
      assert ms[|ms| - 2] in ms;
    }
  }

  lemma {:induction false} PackageMembersAre(k: Package, m: Member)
    requires m in PackageJson(k).members
    ensures m.key in PACKAGE_KEYS
    ensures m.key == K_ARCHITECTURE_EXCEPTION ==> k.exception.Some?
    ensures m.key == K_RETIREMENT_DATE ==> k.retirement.Some?
  {
    KeyShapes();
    hide Lit, Strings;
  }

  lemma {:induction false} PackageJsonHolds(k: Package)
    ensures var j := PackageJson(k);
      && Get(j, K_NAME) == Some(String(k.name)) && Get(j, K_VERSION) == Some(String(k.version))
      && Get(j, K_ECOSYSTEM) == Some(String(k.ecosystem)) && Get(j, K_OWNER) == Some(String(k.owner))
      && Get(j, K_MATURITY) == Some(String(k.maturity)) && Get(j, K_COMPATIBILITY) == Some(k.compatibility)
      && Get(j, K_CHECKS) == Some(Strings(k.checks)) && Get(j, K_EXPECTED_CONSUMERS) == Some(Strings(k.consumers))
      && Get(j, K_ARCHITECTURE_EXCEPTION) == k.exception && Get(j, K_RETIREMENT_DATE) == k.retirement
      && Get(j, K_EXTENSIONS) == Some(k.extensions)
    ensures OnlyKeys(PackageJson(k), PACKAGE_KEYS)
  {
    hide Lit, Strings, PackageJson, Get, PACKAGE_KEYS;
    PackageMembers(k);
    PackageField(k, K_NAME, String(k.name));
    PackageField(k, K_VERSION, String(k.version));
    PackageField(k, K_ECOSYSTEM, String(k.ecosystem));
    PackageField(k, K_OWNER, String(k.owner));
    PackageField(k, K_MATURITY, String(k.maturity));
    PackageField(k, K_COMPATIBILITY, k.compatibility);
    PackageField(k, K_CHECKS, Strings(k.checks));
    PackageField(k, K_EXPECTED_CONSUMERS, Strings(k.consumers));
    PackageField(k, K_EXTENSIONS, k.extensions);
    if k.exception.Some? { PackageField(k, K_ARCHITECTURE_EXCEPTION, k.exception.value); }
    if k.retirement.Some? { PackageField(k, K_RETIREMENT_DATE, k.retirement.value); }
    PackageMissing(k);
    PackageOnlyKeys(k);
  }

  lemma {:induction false} PackageField(k: Package, key: Str, value: Json)
    requires Member(key, value) in PackageJson(k).members
    ensures Get(PackageJson(k), key) == Some(value)
  {
    hide Lit, Strings;
    PackageKeysDistinct(k);
    GetHeld(PackageJson(k).members, Member(key, value));
  }

  lemma {:induction false} PackageMissing(k: Package)
    ensures k.exception.None? ==> Get(PackageJson(k), K_ARCHITECTURE_EXCEPTION) == None
    ensures k.retirement.None? ==> Get(PackageJson(k), K_RETIREMENT_DATE) == None
  {
    forall m | m in PackageJson(k).members
      ensures m.key == K_ARCHITECTURE_EXCEPTION ==> k.exception.Some?
      ensures m.key == K_RETIREMENT_DATE ==> k.retirement.Some?
    {
      PackageMembersAre(k, m);
    }
    hide Lit, Strings;
  }

  lemma {:induction false} PackageOnlyKeys(k: Package)
    ensures OnlyKeys(PackageJson(k), PACKAGE_KEYS)
  {
    forall m | m in PackageJson(k).members ensures m.key in PACKAGE_KEYS {
      PackageMembersAre(k, m);
    }
    hide Lit, Strings, PACKAGE_KEYS;
  }

  /** The JSON of a selected package is what its entry says. */
  lemma {:induction false} MetadataIsPackageOf(p: Platform, entry: Json)
    requires StrictWeakOrder(p.lt) && PackageMetadata(p, ReadPackage(entry)).Some?
    ensures IsPackageOf(p, entry, PackageJson(PackageMetadata(p, ReadPackage(entry)).value))
  {
    hide Get, PackageJson, IsDate, IsEcosystem, IsMaturity, IsStable, IsDeprecated, Falsy, SortedUniqueStrings,
      IsSortedCopy, Lit, OnlyKeys;
    var k := PackageMetadata(p, ReadPackage(entry)).value;
    PackageJsonHolds(k);
    MetadataReads(p, entry);
    SortedCopies(p, Get(entry, K_CHECKS));
    SortedCopies(p, Get(entry, K_EXPECTED_CONSUMERS));
  }

  /** What is read from an accepted entry. */
  lemma {:induction false} MetadataReads(p: Platform, entry: Json)
    requires PackageMetadata(p, ReadPackage(entry)).Some?
    ensures var k := PackageMetadata(p, ReadPackage(entry)).value;
      && Get(entry, K_NAME) == Some(String(k.name)) && Get(entry, K_VERSION) == Some(String(k.version))
      && Get(entry, K_ECOSYSTEM) == Some(String(k.ecosystem)) && Get(entry, K_OWNER) == Some(String(k.owner))
      && Get(entry, K_MATURITY) == Some(String(k.maturity)) && Get(entry, K_COMPATIBILITY) == Some(k.compatibility)
      && SortedUniqueStrings(Get(entry, K_CHECKS), true, p.lt) == Some(k.checks)
      && SortedUniqueStrings(Get(entry, K_EXPECTED_CONSUMERS), true, p.lt) == Some(k.consumers)
      && CopiedUnlessFalsy(entry, PackageJson(k), K_ARCHITECTURE_EXCEPTION)
      && CopiedUnlessFalsy(entry, PackageJson(k), K_RETIREMENT_DATE)
      && CopiedOrEmpty(entry, PackageJson(k), K_EXTENSIONS)
  {
    hide Get, PackageJson, IsDate, IsEcosystem, IsMaturity, IsStable, IsDeprecated, Falsy, IfTruthy,
      SortedUniqueStrings, Lit, OnlyKeys;
    PackageJsonHolds(PackageMetadata(p, ReadPackage(entry)).value);
    FalsyIff(Get(entry, K_ARCHITECTURE_EXCEPTION));
    FalsyIff(Get(entry, K_RETIREMENT_DATE));
  }

  lemma {:induction false} SortedCopies(p: Platform, o: Option<Json>)
    requires StrictWeakOrder(p.lt)
    ensures SortedUniqueStrings(o, true, p.lt).Some? ==>
      && o.Some? && o.value.Arr?
      && IsSortedCopy(p.lt, o.value.items, Strings(SortedUniqueStrings(o, true, p.lt).value).items)
  {
    if SortedUniqueStrings(o, true, p.lt).Some? {
      var xs := o.value.items;
      var ss := Texts(xs);
      SortPermutes(ss, p.lt);
      SortSorts(ss, p.lt);
      MapPermutes(Sort(ss, p.lt), ss, (t: Str) => String(t));
      assert MapSeq(ss, (t: Str) => String(t)) == xs;
      assert MapSeq(Sort(ss, p.lt), (t: Str) => String(t)) == Strings(Sort(ss, p.lt)).items;
    }
  }

  // ---- A descriptor ----

  lemma {:induction false} EvidenceMembersAre(e: Evidence, m: Member)
    requires m in EvidenceJson(e).members
    ensures m.key in DESCRIPTOR_KEYS
    ensures m.key == K_URI ==> e.uri.Some?
    ensures m.key == K_MEDIA_TYPE ==> e.mediaType.Some?
  {
    KeyShapes();
    hide Lit;
  }

  lemma {:induction false} EvidenceJsonHolds(e: Evidence)
    ensures var j := EvidenceJson(e);
      && Get(j, K_STATUS) == Some(String(Lit("verified"))) && Get(j, K_DIGEST) == Some(e.digest)
      && Get(j, K_URI) == e.uri && Get(j, K_MEDIA_TYPE) == e.mediaType && Get(j, K_EXTENSIONS) == Some(e.extensions)
    ensures OnlyKeys(EvidenceJson(e), DESCRIPTOR_KEYS)
  {
    var ms := EvidenceJson(e).members;
    EvidenceKeysDistinct(e);
    forall m | m in ms
      ensures m.key in DESCRIPTOR_KEYS
      ensures m.key == K_URI ==> e.uri.Some?
      ensures m.key == K_MEDIA_TYPE ==> e.mediaType.Some?
    {
      EvidenceMembersAre(e, m);
    }
    assert ms[0] in ms && ms[1] in ms && ms[2] in ms && ms[|ms| - 1] in ms && ms[|ms| - 2] in ms;
    GetHeld(ms, ms[0]);
    GetHeld(ms, ms[1]);
    GetHeld(ms, ms[|ms| - 1]);
    if e.uri.Some? { GetHeld(ms, ms[2]); } else { GetMissing(ms, K_URI); }
    if e.mediaType.Some? { GetHeld(ms, ms[|ms| - 2]); } else { GetMissing(ms, K_MEDIA_TYPE); }
    hide Lit, Get, DESCRIPTOR_KEYS, DistinctKeys;
  }

  lemma {:induction false} NormalizedIsDescriptorOf(p: Platform, given: Json)
    requires OneEvidence(p, Some(given)).Some?
    ensures IsDescriptorOf(given, EvidenceJson(OneEvidence(p, Some(given)).value))
  {
    hide Get, EvidenceJson, LowerHex, IfTruthy, Falsy, Lit, ToText, OnlyKeys;
    EvidenceJsonHolds(OneEvidence(p, Some(given)).value);
    FalsyIff(Get(given, K_URI));
    FalsyIff(Get(given, K_MEDIA_TYPE));
    DigestGiven(p, given);
  }

  lemma {:induction false} DigestGiven(p: Platform, given: Json)
    requires OneEvidence(p, Some(given)).Some?
    ensures Get(given, K_DIGEST).Some?
  {
  }

  // ---- The record ----

  /** The member of each item under a key. */
  function Column(items: seq<Json>, key: Str): seq<Json> {
    seq(|items|, i requires 0 <= i < |items| => if Get(items[i], key).Some? then Get(items[i], key).value else Null)
  }

  ghost predicate IsFromCatalog(p: Platform, catalog: Json, item: Json) {
    && Get(catalog, Lit("packages")).Some? && Get(catalog, Lit("packages")).value.Arr?
    && OnlyKeys(item, PACKAGE_KEYS)
    && exists entry :: entry in Get(catalog, Lit("packages")).value.items && IsPackageOf(p, entry, item)
  }

  /** The packages are the requested ones, in collation order, each from the catalog. */
  ghost predicate PackagesHold(p: Platform, s: Source, packages: Json) {
    && packages.Arr? && s.names.Arr? && IsSortedCopy(p.lt, s.names.items, Column(packages.items, Lit("name")))
    && forall item :: item in packages.items ==> IsFromCatalog(p, s.catalog, item)
  }

  ghost predicate EvidenceHolds(s: Source, evidence: Json) {
    && OnlyKeys(evidence, KINDS)
    && forall kind :: kind in KINDS ==>
      && Get(s.evidence, kind).Some? && Get(evidence, kind).Some?
      && IsDescriptorOf(Get(s.evidence, kind).value, Get(evidence, kind).value)
      && OnlyKeys(Get(evidence, kind).value, DESCRIPTOR_KEYS)
  }

  lemma {:induction false} PackagesAreHeld(p: Platform, s: Source)
    requires StrictWeakOrder(p.lt) && SelectedPackages(p, s.catalog, s.names).Some?
    ensures PackagesHold(p, s, PackagesJson(SelectedPackages(p, s.catalog, s.names).value))
  {
    hide Get, PackageMetadata, ReadPackage, PackageJson, SelectFrom, Lit, OnlyKeys, IsPackageOf, StrictWeakOrder;
    var pkgs := Get(s.catalog, K_PACKAGES).value.items;
    var ks := SelectFrom(p, pkgs, s.names).value;
    SelectionIsExact(p, pkgs, s.names);
    var items := PackagesJson(ks).items;
    forall item | item in items ensures IsFromCatalog(p, s.catalog, item) {
      var j :| 0 <= j < |items| && items[j] == item;
      var k := ks[j];
      assert k in ks;
      var i :| 0 <= i < |pkgs| && PackageMetadata(p, ReadPackage(pkgs[i])) == Some(k);
      MetadataIsPackageOf(p, pkgs[i]);
      PackageJsonHolds(k);
      assert pkgs[i] in pkgs;
    }
    NamesAreHeld(ks);
    SelectedNames(p, pkgs, s.names);
  }

  lemma {:induction false} NamesAreHeld(ks: seq<Package>)
    ensures Column(PackagesJson(ks).items, K_NAME) == Strings(NamesOf(ks)).items
  {
    hide Get, PackageJson, Lit, OnlyKeys;
    forall i | 0 <= i < |ks| ensures Get(PackageJson(ks[i]), K_NAME) == Some(String(ks[i].name)) {
      PackageJsonHolds(ks[i]);
    }
  }

  lemma {:induction false} SelectedNames(p: Platform, pkgs: seq<Json>, names: Json)
    requires StrictWeakOrder(p.lt) && SelectFrom(p, pkgs, names).Some?
    ensures names.Arr? && IsSortedCopy(p.lt, names.items, Strings(NamesOf(SelectFrom(p, pkgs, names).value)).items)
  {
    hide SelectFrom, IsSortedCopy, StrictWeakOrder;
    SelectionIsExact(p, pkgs, names);
    assert SortedUniqueStrings(Some(names), true, p.lt) == Some(Sort(Texts(names.items), p.lt));
    SortedCopies(p, Some(names));
  }

  lemma {:induction false} EvidenceMembers(p: Platform, evidence: Json, names: seq<Str>)
    requires EvidenceFor(p, evidence, names).Some?
    ensures var ms := EvidenceFor(p, evidence, names).value;
      |ms| == |names| && forall i :: 0 <= i < |ms| ==>
        && OneEvidence(p, Get(evidence, names[i])).Some?
        && ms[i] == Member(names[i], EvidenceJson(OneEvidence(p, Get(evidence, names[i])).value))
  {
    hide OneEvidence, EvidenceJson, Get;
    if names != [] {
      EvidenceMembers(p, evidence, names[1..]);
      assert forall i :: 0 < i < |names| ==> names[i] == names[1..][i - 1];
    }
  }

  lemma {:induction false} KindsAre()
    ensures forall kind :: kind in KINDS <==> kind in EVIDENCE_NAMES
  {
    hide Lit;
    var e := EVIDENCE_NAMES;
    assert e[0] in e && e[1] in e && e[2] in e && e[3] in e && e[4] in e;
  }

  lemma {:induction false} EvidenceIsHeld(p: Platform, s: Source)
    requires NormalizedEvidence(p, s.evidence).Some?
    ensures EvidenceHolds(s, NormalizedEvidence(p, s.evidence).value)
  {
    KindsAre();
    EvidenceNamesDistinct();
    hide EvidenceFor, OneEvidence, EvidenceJson, Get, Lit, EVIDENCE_NAMES, KINDS, DESCRIPTOR_KEYS, IsDescriptorOf;
    var ms := NormalizedEvidence(p, s.evidence).value.members;
    EvidenceMembers(p, s.evidence, EVIDENCE_NAMES);
    assert DistinctKeys(ms);
    forall kind | kind in KINDS
      ensures Get(s.evidence, kind).Some? && Get(Obj(ms), kind).Some?
      ensures IsDescriptorOf(Get(s.evidence, kind).value, Get(Obj(ms), kind).value)
      ensures OnlyKeys(Get(Obj(ms), kind).value, DESCRIPTOR_KEYS)
    {
      var i :| 0 <= i < |EVIDENCE_NAMES| && EVIDENCE_NAMES[i] == kind;
      GetHeld(ms, ms[i]);
      GivenDescriptor(p, Get(s.evidence, kind));
      NormalizedIsDescriptorOf(p, Get(s.evidence, kind).value);
      EvidenceJsonHolds(OneEvidence(p, Get(s.evidence, kind)).value);
    }
  }

  lemma {:induction false} GivenDescriptor(p: Platform, d: Option<Json>)
    requires OneEvidence(p, d).Some?
    ensures d.Some?
  {
  }

  // ---- The hashed objects ----

  /** Every member of the object hashed into `recordId`, from the source. */
  ghost predicate IdentityHolds(p: Platform, s: Source, c: Content, identity: Json) {
    && Get(s.catalog, Lit("publishedAt")).Some? && Get(s.catalog, Lit("publishedAt")).value.String?
    && p.instant(Get(s.catalog, Lit("publishedAt")).value.s).Some? && p.instant(s.occurredAt).Some?
    && Get(identity, Lit("schemaVersion")) == Some(String(Lit("cloudingenium.package-source/v2")))
    && Copied(s.catalog, identity, Lit("producer"))
    && Get(identity, Lit("occurredAt")) == Some(String(p.instant(s.occurredAt).value.text))
    && Get(identity, Lit("publishedAt")) ==
      Some(String(p.instant(Get(s.catalog, Lit("publishedAt")).value.s).value.text))
    && Get(identity, Lit("repository")) == Some(String(s.repository))
    && Get(identity, Lit("commit")) == Some(String(s.commit)) && Get(identity, Lit("path")) == Some(String(s.path))
    && Get(identity, Lit("workflowRunId")) == Some(String(s.runId))
    && Get(identity, Lit("sourceBlobSha")) == Some(String(s.blob))
    && Get(identity, Lit("contentDigest")) == Some(String(s.contentDigest))
    && Get(identity, Lit("packages")) == Some(c.packages) && Get(identity, Lit("releaseEvidence")) == Some(c.evidence)
    && identity.Obj? && |identity.members| == 12
  }

  /** Every member of the object hashed into `digest.value`. */
  ghost predicate PayloadHolds(p: Platform, s: Source, c: Content, payload: Json) {
    && Get(s.catalog, Lit("publishedAt")).Some? && Get(s.catalog, Lit("publishedAt")).value.String?
    && p.instant(Get(s.catalog, Lit("publishedAt")).value.s).Some?
    && Get(payload, Lit("publishedAt")) ==
      Some(String(p.instant(Get(s.catalog, Lit("publishedAt")).value.s).value.text))
    && Get(payload, Lit("sourceBlobSha")) == Some(String(s.blob))
    && Get(payload, Lit("digestAlgorithm")) == Some(String(Lit("sha256")))
    && Get(payload, Lit("contentDigest")) == Some(String(s.contentDigest))
    && Get(payload, Lit("releaseEvidence")) == Some(c.evidence) && Get(payload, Lit("packages")) == Some(c.packages)
    && payload.Obj? && |payload.members| == 6
  }

  lemma {:induction false} IdentityGets(c: Content, i: nat)
    requires i < |IdentityJson(c).members|
    ensures Get(IdentityJson(c), IdentityJson(c).members[i].key) == Some(IdentityJson(c).members[i].value)
  {
    hide Lit;
    IdentityKeysDistinct(c);
    GetHeld(IdentityJson(c).members, IdentityJson(c).members[i]);
  }

  lemma {:induction false} PayloadGets(c: Content, i: nat)
    requires i < |PayloadJson(c).members|
    ensures Get(PayloadJson(c), PayloadJson(c).members[i].key) == Some(PayloadJson(c).members[i].value)
  {
    hide Lit;
    PayloadKeysDistinct(c);
    GetHeld(PayloadJson(c).members, PayloadJson(c).members[i]);
  }

  lemma {:induction false} IdentityIsHeld(p: Platform, s: Source, c: Content)
    requires CreateRecord(p, s) == Some(c)
    ensures IdentityHolds(p, s, c, IdentityJson(c))
  {
    hide Lit, Get, SelectedPackages, NormalizedEvidence, LowerHex, SafeSourcePath;
    IdentityGets(c, 0);
    IdentityGets(c, 1);
    IdentityGets(c, 2);
    IdentityGets(c, 3);
    IdentityGets(c, 4);
    IdentityGets(c, 5);
    IdentityGets(c, 6);
    IdentityGets(c, 7);
    IdentityGets(c, 8);
    IdentityGets(c, 9);
    IdentityGets(c, 10);
    IdentityGets(c, 11);
  }

  lemma {:induction false} PayloadIsHeld(p: Platform, s: Source, c: Content)
    requires CreateRecord(p, s) == Some(c)
    ensures PayloadHolds(p, s, c, PayloadJson(c))
  {
    hide Lit, Get, SelectedPackages, NormalizedEvidence, LowerHex, SafeSourcePath;
    PayloadGets(c, 0);
    PayloadGets(c, 1);
    PayloadGets(c, 2);
    PayloadGets(c, 3);
    PayloadGets(c, 4);
    PayloadGets(c, 5);
  }

  /** Main result: what a created record holds, all of it read from the source's own JSON. */
  lemma {:induction false} RecordHolds(p: Platform, s: Source, c: Content)
    requires StrictWeakOrder(p.lt) && CreateRecord(p, s) == Some(c)
    ensures PackagesHold(p, s, c.packages) && EvidenceHolds(s, c.evidence)
    ensures IdentityHolds(p, s, c, IdentityJson(c)) && PayloadHolds(p, s, c, PayloadJson(c))
  {
    hide Get, SelectedPackages, NormalizedEvidence, LowerHex, SafeSourcePath, PackagesHold, EvidenceHolds, PackagesJson,
      IdentityHolds, PayloadHolds, Lit, IdentityJson, PayloadJson;
    PackagesAreHeld(p, s);
    EvidenceIsHeld(p, s);
    IdentityIsHeld(p, s, c);
    PayloadIsHeld(p, s, c);
  }

  // ---- Coercions ----

  /** `String(v)`: the elements of an array with commas between them, null elements as nothing. */
  lemma {:induction false} CoercedTexts(xs: seq<Json>, ms: seq<Member>)
    ensures ToText(Null) == Lit("null") && ToText(Bool(true)) == Lit("true") && ToText(Bool(false)) == Lit("false")
    ensures ToText(Num(NaN)) == Lit("NaN") && ToText(Num(Infinity(false))) == Lit("Infinity")
    ensures ToText(Num(Infinity(true))) == Lit("-Infinity") && ToText(Obj(ms)) == Lit("[object Object]")
    ensures ToText(Arr(xs)) == Join(ElementTexts(xs), JsonText.COMMA)
  {
    assert Lit("null") == JsonText.NULL_TEXT && Lit("true") == JsonText.TRUE_TEXT
      && Lit("false") == JsonText.FALSE_TEXT;
    JoinTextsIs(xs);
  }

  function ElementTexts(xs: seq<Json>): seq<Str> {
    seq(|xs|, i requires 0 <= i < |xs| => if xs[i].Null? then [] else ToText(xs[i]))
  }

  lemma {:induction false} JoinTextsIs(xs: seq<Json>)
    ensures JoinTexts(xs) == Join(ElementTexts(xs), JsonText.COMMA)
  {
    hide ToText;
    if xs != [] {
      JoinTextsIs(xs[1..]);
      assert ElementTexts(xs)[1..] == ElementTexts(xs[1..]);
    }
  }

  // ---- When there is a record ----

  ghost predicate IsText(o: Option<Json>) {
    o.Some? && o.value.String? && o.value.s != []
  }

  ghost predicate IsTextList(o: Option<Json>) {
    o.Some? && o.value.Arr? && NoDuplicates(o.value.items) && forall x :: x in o.value.items ==> IsText(Some(x))
  }

  ghost predicate IsOneOf(o: Option<Json>, words: set<Str>) {
    o.Some? && o.value.String? && o.value.s in words
  }

  /** Four digits, a hyphen, two digits, a hyphen and two digits. */
  ghost predicate DateShape(s: Str) {
    |s| == 10 && s[4] == s[7] == 0x2D && Spelled(s[..4] + s[5..7] + s[8..], 8, DIGITS)
  }

  ghost predicate AcceptableEntry(entry: Json) {
    && IsText(Get(entry, Lit("name"))) && IsText(Get(entry, Lit("version"))) && IsText(Get(entry, Lit("owner")))
    && IsOneOf(Get(entry, Lit("ecosystem")), {Lit("npm"), Lit("nuget"), Lit("python")})
    && IsOneOf(Get(entry, Lit("maturity")), {Lit("stable"), Lit("incubating"), Lit("deprecated")})
    && Get(entry, Lit("compatibility")).Some? && Get(entry, Lit("compatibility")).value.Obj?
    && IsTextList(Get(entry, Lit("checks"))) && IsTextList(Get(entry, Lit("expectedConsumers")))
    && (Get(entry, Lit("maturity")).value.s == Lit("stable") ==>
          || |Get(entry, Lit("expectedConsumers")).value.items| >= 2
          || !Falsy(Get(entry, Lit("architectureException"))))
    && (Get(entry, Lit("maturity")).value.s == Lit("deprecated") ==>
          && !Falsy(Get(entry, Lit("retirementDate")))
          && DateShape(ToText(Get(entry, Lit("retirementDate")).value)))
  }

  ghost predicate AcceptableDescriptor(p: Platform, d: Option<Json>) {
    && d.Some? && Get(d.value, Lit("status")) == Some(String(Lit("verified")))
    && Get(d.value, Lit("digest")).Some? && !Get(d.value, Lit("digest")).value.Null?
    && Spelled(ToText(Get(d.value, Lit("digest")).value), 64, HEX_DIGITS)
    && (Get(d.value, Lit("uri")).Some? ==>
          Get(d.value, Lit("uri")).value.String? && p.canParseUrl(Get(d.value, Lit("uri")).value.s))
    && (Get(d.value, Lit("mediaType")).Some? ==> IsText(Get(d.value, Lit("mediaType"))))
  }

  ghost predicate AcceptableProvenance(s: Source) {
    && IsText(Get(s.catalog, Lit("producer")))
    && s.repository == Lit("CloudIngenium/") + Get(s.catalog, Lit("producer")).value.s
    && Spelled(s.commit, 40, HEX_DIGITS) && Spelled(s.blob, 40, HEX_DIGITS)
    && Spelled(s.contentDigest, 64, HEX_DIGITS)
    && |s.runId| > 0 && Spelled(s.runId, |s.runId|, DIGITS)
    && [] !in Split(s.path, SLASH) && [DOT] !in Split(s.path, SLASH) && [DOT, DOT] !in Split(s.path, SLASH)
  }

  /** The record does not predate the publication. */
  ghost predicate AcceptableTimes(p: Platform, s: Source) {
    && Get(s.catalog, Lit("publishedAt")).Some? && Get(s.catalog, Lit("publishedAt")).value.String?
    && p.instant(Get(s.catalog, Lit("publishedAt")).value.s).Some? && p.instant(s.occurredAt).Some?
    && p.instant(Get(s.catalog, Lit("publishedAt")).value.s).value.millis <= p.instant(s.occurredAt).value.millis
  }

  /** Every entry is acceptable, no two share a name, and every requested name is that of an entry. */
  ghost predicate AcceptablePackages(catalog: Json, names: Json) {
    && Get(catalog, Lit("packages")).Some? && Get(catalog, Lit("packages")).value.Arr?
    && var entries := Get(catalog, Lit("packages")).value.items;
      && entries != [] && (forall entry :: entry in entries ==> AcceptableEntry(entry))
      && NoDuplicates(Column(entries, Lit("name")))
      && IsTextList(Some(names)) && names.items != []
      && forall name :: name in names.items ==> name in Column(entries, Lit("name"))
  }

  ghost predicate AcceptableEvidence(p: Platform, evidence: Json) {
    OnlyKeys(evidence, KINDS) && forall kind :: kind in KINDS ==> AcceptableDescriptor(p, Get(evidence, kind))
  }

  lemma {:induction false} TextListIff(o: Option<Json>, allowEmpty: bool, lt: (Str, Str) -> bool)
    ensures SortedUniqueStrings(o, allowEmpty, lt).Some? <==> IsTextList(o) && (allowEmpty || o.value.items != [])
    ensures SortedUniqueStrings(o, allowEmpty, lt).Some? ==>
      |SortedUniqueStrings(o, allowEmpty, lt).value| == |o.value.items|
  {
    if o.Some? && o.value.Arr? && AllTexts(o.value.items) {
      var xs := o.value.items;
      assert forall i :: 0 <= i < |xs| ==> xs[i] in xs && xs[i] == String(Texts(xs)[i]);
      assert NoDuplicates(xs) <==> NoDuplicates(Texts(xs));
      SortPermutes(Texts(xs), lt);
      assert |multiset(Sort(Texts(xs), lt))| == |multiset(Texts(xs))|;
    }
  }

  lemma {:induction false} DateShapeIff(s: Str)
    ensures IsDate(s) <==> DateShape(s)
  {
    DigitsSpelled();
    hide Lit;
    if |s| == 10 {
      var t := s[..4] + s[5..7] + s[8..];
      assert t == [s[0], s[1], s[2], s[3], s[5], s[6], s[8], s[9]];
      if DateShape(s) {
        assert forall i :: 0 <= i < 8 ==> t[i] in t;
        assert IsDigit(t[0]) && IsDigit(t[1]) && IsDigit(t[2]) && IsDigit(t[3]);
        assert IsDigit(t[4]) && IsDigit(t[5]) && IsDigit(t[6]) && IsDigit(t[7]);
      }
    }
  }

  lemma {:induction false} EntryIff(p: Platform, entry: Json)
    ensures PackageMetadata(p, ReadPackage(entry)).Some? <==> AcceptableEntry(entry)
  {
    hide Get, SortedUniqueStrings, Lit, IsTextList, IsDate, DateShape, Falsy, IfTruthy, ToText;
    TextListIff(Get(entry, K_CHECKS), true, p.lt);
    TextListIff(Get(entry, K_EXPECTED_CONSUMERS), true, p.lt);
    FalsyIff(Get(entry, K_ARCHITECTURE_EXCEPTION));
    RetirementIff(Get(entry, K_RETIREMENT_DATE));
    WordsIff(Get(entry, K_ECOSYSTEM), Get(entry, K_MATURITY));
  }

  lemma {:induction false} RetirementIff(o: Option<Json>)
    ensures IsDate(TextOrEmpty(IfTruthy(o))) <==> !Falsy(o) && DateShape(ToText(o.value))
  {
    FalsyIff(o);
    hide ToText, Truthy;
    if !Falsy(o) {
      DateShapeIff(ToText(o.value));
    }
  }

  lemma {:induction false} WordsIff(ecosystem: Option<Json>, maturity: Option<Json>)
    ensures NonEmptyString(ecosystem) && IsEcosystem(ecosystem.value.s) <==>
      IsOneOf(ecosystem, {Lit("npm"), Lit("nuget"), Lit("python")})
    ensures NonEmptyString(maturity) && IsMaturity(maturity.value.s) <==>
      IsOneOf(maturity, {Lit("stable"), Lit("incubating"), Lit("deprecated")})
  {
    assert |Lit("npm")| == 3 && |Lit("nuget")| == 5 && |Lit("python")| == 6;
    assert |Lit("stable")| == 6 && |Lit("incubating")| == 10 && |Lit("deprecated")| == 10;
    hide Lit;
  }

  lemma {:induction false} DescriptorIff(p: Platform, d: Option<Json>)
    ensures OneEvidence(p, d).Some? <==> AcceptableDescriptor(p, d)
  {
    DigitsSpelled();
    hide Get, Lit, ToText;
    if d.Some? {
      assert Get(d.value, K_STATUS).Some? ==> d.value.Obj? by { OnlyObjectsHold(d.value, K_STATUS); }
      assert TextOrEmpty(Get(d.value, K_DIGEST)) == [] ==> !LowerHex(TextOrEmpty(Get(d.value, K_DIGEST)), 64);
    }
  }

  lemma {:induction false} OnlyObjectsHold(v: Json, key: Str)
    ensures Get(v, key).Some? ==> v.Obj?
  {
  }

  lemma {:induction false} EvidenceForIff(p: Platform, evidence: Json, names: seq<Str>)
    ensures EvidenceFor(p, evidence, names).Some? <==>
      forall kind :: kind in names ==> AcceptableDescriptor(p, Get(evidence, kind))
  {
    hide OneEvidence, AcceptableDescriptor, Get, EvidenceJson;
    if names != [] {
      DescriptorIff(p, Get(evidence, names[0]));
      EvidenceForIff(p, evidence, names[1..]);
      assert forall kind :: kind in names <==> kind == names[0] || kind in names[1..];
    }
  }

  lemma {:induction false} EvidenceIff(p: Platform, evidence: Json)
    ensures NormalizedEvidence(p, evidence).Some? <==> AcceptableEvidence(p, evidence)
  {
    KindsAre();
    hide AcceptableDescriptor, Get, Lit, EVIDENCE_NAMES, KINDS, EvidenceFor;
    EvidenceForIff(p, evidence, EVIDENCE_NAMES);
    if evidence.Obj? {
      assert forall i :: 0 <= i < |evidence.members| ==> evidence.members[i] in evidence.members;
      assert KeySet(evidence.members) <= KINDS <==> forall m :: m in evidence.members ==> m.key in EVIDENCE_NAMES by {
        if KeySet(evidence.members) <= KINDS {
          forall m | m in evidence.members ensures m.key in EVIDENCE_NAMES {
            assert m.key in KeySet(evidence.members);
          }
        }
      }
    }
  }

  lemma {:induction false} SelectIff(p: Platform, pkgs: seq<Json>, names: Json)
    ensures SelectFrom(p, pkgs, names).Some? <==>
      && (forall entry :: entry in pkgs ==> AcceptableEntry(entry)) && NoDuplicates(Column(pkgs, Lit("name")))
      && IsTextList(Some(names)) && names.items != []
      && forall name :: name in names.items ==> name in Column(pkgs, Lit("name"))
  {
    hide PackageMetadata, ReadPackage, AcceptableEntry, Lit, SortedUniqueStrings, IsTextList;
    AllMetadataIs(p, pkgs);
    forall i | 0 <= i < |pkgs| ensures MetadataOf(p)(pkgs[i]).Some? <==> AcceptableEntry(pkgs[i]) {
      EntryIff(p, pkgs[i]);
    }
    TextListIff(Some(names), false, p.lt);
    if AllMetadata(p, pkgs).Some? {
      var ks := AllMetadata(p, pkgs).value;
      ColumnIs(p, pkgs, ks);
      assert DistinctNames(ks) <==> NoDuplicates(Column(pkgs, K_NAME)) by {
        NamesDistinctIff(ks);
      }
      if SortedUniqueStrings(Some(names), false, p.lt).Some? {
        KnownIff(p, ks, Column(pkgs, K_NAME), names);
      }
    } else {
      var i :| 0 <= i < |pkgs| && MetadataOf(p)(pkgs[i]).None?;
      assert pkgs[i] in pkgs;
    }
  }

  lemma {:induction false} ColumnIs(p: Platform, pkgs: seq<Json>, ks: seq<Package>)
    requires AllMetadata(p, pkgs) == Some(ks)
    ensures Column(pkgs, K_NAME) == Strings(NamesOf(ks)).items
  {
    hide PackageMetadata, ReadPackage, Lit, Get;
    AllMetadataIs(p, pkgs);
    forall i | 0 <= i < |pkgs| ensures Get(pkgs[i], K_NAME) == Some(String(ks[i].name)) {
      MetadataReads(p, pkgs[i]);
    }
  }

  lemma {:induction false} NamesDistinctIff(ks: seq<Package>)
    ensures DistinctNames(ks) <==> NoDuplicates(Strings(NamesOf(ks)).items)
  {
    var column := Strings(NamesOf(ks)).items;
    assert forall i :: 0 <= i < |ks| ==> column[i] == String(ks[i].name);
  }

  lemma {:induction false} KnownIff(p: Platform, ks: seq<Package>, column: seq<Json>, names: Json)
    requires SortedUniqueStrings(Some(names), false, p.lt).Some? && column == Strings(NamesOf(ks)).items
    ensures (forall n :: n in SortedUniqueStrings(Some(names), false, p.lt).value ==> NameKnown(ks, n)) <==>
      forall name :: name in names.items ==> name in column
  {
    var xs := names.items;
    var ss := Texts(xs);
    SortPermutes(ss, p.lt);
    assert forall n :: n in Sort(ss, p.lt) <==> n in multiset(ss);
    forall n ensures NameKnown(ks, n) <==> String(n) in column {
      if NameKnown(ks, n) {
        var k :| k in ks && k.name == n;
        var i :| 0 <= i < |ks| && ks[i] == k;
        assert column[i] == String(n);
      }
      if String(n) in column {
        var i :| 0 <= i < |column| && column[i] == String(n);
        assert ks[i] in ks;
      }
    }
    forall n ensures n in ss <==> String(n) in xs {
      if n in ss {
        var i :| 0 <= i < |ss| && ss[i] == n;
        assert xs[i] in xs;
      }
      if String(n) in xs {
        var i :| 0 <= i < |xs| && xs[i] == String(n);
        assert ss[i] == n;
      }
    }
    assert forall name :: name in xs ==> name.String?;
    if forall n :: n in Sort(ss, p.lt) ==> NameKnown(ks, n) {
      forall name | name in xs ensures name in column {
        assert name.s in ss;
      }
    }
  }

  /** Exactly when there is a record. */
  lemma {:induction false} RecordExistsIff(p: Platform, s: Source)
    ensures CreateRecord(p, s).Some? <==>
      && AcceptableProvenance(s) && AcceptableTimes(p, s) && AcceptablePackages(s.catalog, s.names)
      && AcceptableEvidence(p, s.evidence)
  {
    ProvenanceIff(s);
    hide Get, SelectFrom, NormalizedEvidence, LowerHex, SafeSourcePath, PackagesJson, Lit, AcceptableProvenance,
      AcceptableEvidence, ValidProvenance, IsTextList, AcceptableEntry;
    if AcceptableProvenance(s) {
      assert Get(s.catalog, K_PRODUCER).Some? by { ProducerGiven(s); }
    }
    var pkgs := Get(s.catalog, K_PACKAGES);
    if pkgs.Some? && pkgs.value.Arr? {
      SelectIff(p, pkgs.value.items, s.names);
    }
    EvidenceIff(p, s.evidence);
  }

  lemma {:induction false} ProducerGiven(s: Source)
    requires AcceptableProvenance(s)
    ensures Get(s.catalog, K_PRODUCER).Some?
  {
  }

  lemma {:induction false} ProvenanceIff(s: Source)
    ensures ValidProvenance(s, Get(s.catalog, K_PRODUCER)) <==> AcceptableProvenance(s)
  {
    DigitsSpelled();
    hide Get, Lit, Split;
    OnlyObjectsHold(s.catalog, K_PRODUCER);
  }
}
