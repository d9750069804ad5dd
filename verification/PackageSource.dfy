/** package-source-v2/index.mjs: the identity and the payload of a package-source record. */
module PackageSource {
  import opened Options
  import opened Text
  import opened Sorting
  import opened JsonValue
  import JsonText

  datatype Instant = Instant(text: Str, millis: int)

  /** What the record takes from its platform: collation, date parsing and URL parsing. */
  datatype Platform = Platform(
    lt: (Str, Str) -> bool,             // left.localeCompare(right, "en") < 0
    instant: Str -> Option<Instant>,    // normalizeIso
    canParseUrl: Str -> bool)

  // ---- Property names ----

  const K_NAME: Str := Lit("name")
  const K_VERSION: Str := Lit("version")
  const K_ECOSYSTEM: Str := Lit("ecosystem")
  const K_OWNER: Str := Lit("owner")
  const K_MATURITY: Str := Lit("maturity")
  const K_COMPATIBILITY: Str := Lit("compatibility")
  const K_CHECKS: Str := Lit("checks")
  const K_EXPECTED_CONSUMERS: Str := Lit("expectedConsumers")
  const K_ARCHITECTURE_EXCEPTION: Str := Lit("architectureException")
  const K_RETIREMENT_DATE: Str := Lit("retirementDate")
  const K_EXTENSIONS: Str := Lit("extensions")
  const K_STATUS: Str := Lit("status")
  const K_DIGEST: Str := Lit("digest")
  const K_URI: Str := Lit("uri")
  const K_MEDIA_TYPE: Str := Lit("mediaType")
  const K_SCHEMA_VERSION: Str := Lit("schemaVersion")
  const K_PRODUCER: Str := Lit("producer")
  const K_OCCURRED_AT: Str := Lit("occurredAt")
  const K_PUBLISHED_AT: Str := Lit("publishedAt")
  const K_REPOSITORY: Str := Lit("repository")
  const K_COMMIT: Str := Lit("commit")
  const K_PATH: Str := Lit("path")
  const K_WORKFLOW_RUN_ID: Str := Lit("workflowRunId")
  const K_SOURCE_BLOB_SHA: Str := Lit("sourceBlobSha")
  const K_CONTENT_DIGEST: Str := Lit("contentDigest")
  const K_PACKAGES: Str := Lit("packages")
  const K_RELEASE_EVIDENCE: Str := Lit("releaseEvidence")
  const K_DIGEST_ALGORITHM: Str := Lit("digestAlgorithm")

  // ---- JavaScript coercions ----

  predicate Truthy(v: Json) {
    match v
    case Null => false
    case Bool(b) => b
    case Num(n) => n != Int(0) && !n.NegZero? && !n.NaN?
    case String(s) => s != []
    case _ => true
  }

  /** `String(v)`, which a regular expression tests. */
  function ToText(v: Json): Str {
    match v
    case Null => JsonText.NULL_TEXT
    case Bool(b) => if b then JsonText.TRUE_TEXT else JsonText.FALSE_TEXT
    case Num(NaN) => Lit("NaN")
    case Num(Infinity(negative)) => Lit(if negative then "-Infinity" else "Infinity")
    case Num(n) => JsonText.NumberText(n)
    case String(s) => s
    case Arr(xs) => JoinTexts(xs)
    case Obj(_) => Lit("[object Object]")
  }

  function JoinTexts(xs: seq<Json>): Str {
    if xs == [] then []
    else (if xs[0].Null? then [] else ToText(xs[0])) + (if |xs| == 1 then [] else [JsonText.COMMA] + JoinTexts(xs[1..]))
  }

  function TextOrEmpty(o: Option<Json>): Str {
    if o.None? || o.value.Null? then [] else ToText(o.value)
  }

  predicate IsDate(s: Str) {
    |s| == 10 && forall i :: 0 <= i < 10 ==> if i == 4 || i == 7 then s[i] == 0x2D else IsDigit(s[i])
  }

  predicate NonEmptyString(o: Option<Json>) {
    o.Some? && o.value.String? && o.value.s != []
  }

  function OrEmptyObject(o: Option<Json>): Json {
    if o.None? || o.value.Null? then Obj([]) else o.value
  }

  function IfTruthy(o: Option<Json>): Option<Json> {
    if o.Some? && Truthy(o.value) then o else None
  }

  // ---- sortedUniqueStrings ----

  function Texts(xs: seq<Json>): seq<Str>
    requires forall x :: x in xs ==> x.String?
  {
    seq(|xs|, i requires 0 <= i < |xs| => xs[i].s)
  }

  predicate AllTexts(xs: seq<Json>) {
    forall x :: x in xs ==> x.String? && x.s != []
  }

  function SortedUniqueStrings(o: Option<Json>, allowEmpty: bool, lt: (Str, Str) -> bool): Option<seq<Str>> {
    if !(o.Some? && o.value.Arr?) || (!allowEmpty && o.value.items == []) || !AllTexts(o.value.items) then None
    else if !NoDuplicates(Texts(o.value.items)) then None
    else Some(Sort(Texts(o.value.items), lt))
  }

  // ---- packageMetadata ----

  datatype PackageFields = PackageFields(
    name: Option<Json>, version: Option<Json>, ecosystem: Option<Json>, owner: Option<Json>, maturity: Option<Json>,
    compatibility: Option<Json>, checks: Option<Json>, consumers: Option<Json>, exception: Option<Json>,
    retirement: Option<Json>, extensions: Option<Json>)

  datatype Package = Package(
    name: Str, version: Str, ecosystem: Str, owner: Str, maturity: Str, compatibility: Json, checks: seq<Str>,
    consumers: seq<Str>, exception: Option<Json>, retirement: Option<Json>, extensions: Json)

  function ReadPackage(pkg: Json): PackageFields {
    PackageFields(
      Get(pkg, K_NAME), Get(pkg, K_VERSION), Get(pkg, K_ECOSYSTEM), Get(pkg, K_OWNER),
      Get(pkg, K_MATURITY), Get(pkg, K_COMPATIBILITY), Get(pkg, K_CHECKS),
      Get(pkg, K_EXPECTED_CONSUMERS), Get(pkg, K_ARCHITECTURE_EXCEPTION), Get(pkg, K_RETIREMENT_DATE),
      Get(pkg, K_EXTENSIONS))
  }

  predicate IsEcosystem(s: Str) {
    s == Lit("npm") || s == Lit("nuget") || s == Lit("python")
  }

  predicate IsStable(s: Str) { s == Lit("stable") }
  predicate IsDeprecated(s: Str) { s == Lit("deprecated") }

  predicate IsMaturity(s: Str) {
    IsStable(s) || s == Lit("incubating") || IsDeprecated(s)
  }

  function PackageMetadata(p: Platform, f: PackageFields): Option<Package> {
    var checks := SortedUniqueStrings(f.checks, true, p.lt);
    var consumers := SortedUniqueStrings(f.consumers, true, p.lt);
    if !NonEmptyString(f.name) || !NonEmptyString(f.version) || !NonEmptyString(f.owner) then None
    else if !NonEmptyString(f.ecosystem) || !IsEcosystem(f.ecosystem.value.s) then None
    else if !NonEmptyString(f.maturity) || !IsMaturity(f.maturity.value.s) then None
    else if !(f.compatibility.Some? && f.compatibility.value.Obj?) || checks.None? || consumers.None? then None
    else if IsStable(f.maturity.value.s) && |consumers.value| < 2 && IfTruthy(f.exception).None? then None
    else if IsDeprecated(f.maturity.value.s) && !IsDate(TextOrEmpty(IfTruthy(f.retirement))) then None
    else Some(Package(
      f.name.value.s, f.version.value.s, f.ecosystem.value.s, f.owner.value.s, f.maturity.value.s,
      f.compatibility.value, checks.value, consumers.value, IfTruthy(f.exception), IfTruthy(f.retirement),
      OrEmptyObject(f.extensions)))
  }

  function Strings(ss: seq<Str>): Json {
    Arr(seq(|ss|, i requires 0 <= i < |ss| => String(ss[i])))
  }

  function OptionalMember(key: Str, o: Option<Json>): seq<Member> {
    if o.None? then [] else [Member(key, o.value)]
  }

  function PackageJson(k: Package): Json {
    Obj([Member(K_NAME, String(k.name)), Member(K_VERSION, String(k.version)),
         Member(K_ECOSYSTEM, String(k.ecosystem)), Member(K_OWNER, String(k.owner)),
         Member(K_MATURITY, String(k.maturity)), Member(K_COMPATIBILITY, k.compatibility),
         Member(K_CHECKS, Strings(k.checks)), Member(K_EXPECTED_CONSUMERS, Strings(k.consumers))]
        + OptionalMember(K_ARCHITECTURE_EXCEPTION, k.exception)
        + OptionalMember(K_RETIREMENT_DATE, k.retirement)
        + [Member(K_EXTENSIONS, k.extensions)])
  }

  // ---- selectedPackages ----

  function AllMetadata(p: Platform, pkgs: seq<Json>): Option<seq<Package>> {
    if pkgs == [] then Some([])
    else
      var first := PackageMetadata(p, ReadPackage(pkgs[0]));
      var rest := AllMetadata(p, pkgs[1..]);
      if first.None? || rest.None? then None else Some([first.value] + rest.value)
  }

  predicate DistinctNames(ks: seq<Package>) {
    forall i, j :: 0 <= i < j < |ks| ==> ks[i].name != ks[j].name
  }

  predicate NameKnown(ks: seq<Package>, name: Str) {
    exists k :: k in ks && k.name == name
  }

  /** The package of a name; the name is in the list. */
  function Named(ks: seq<Package>, name: Str): (k: Package)
    requires NameKnown(ks, name)
    ensures k in ks && k.name == name
  {
    if ks[0].name == name then ks[0]
    else
      assert forall k :: k in ks <==> k == ks[0] || k in ks[1..];
      Named(ks[1..], name)
  }

  function NameLess(p: Platform): (Package, Package) -> bool {
    (a: Package, b: Package) => p.lt(a.name, b.name)
  }

  function PickAll(ks: seq<Package>, names: seq<Str>): seq<Package>
    requires forall n :: n in names ==> NameKnown(ks, n)
  {
    seq(|names|, i requires 0 <= i < |names| => Named(ks, names[i]))
  }

  function SelectedPackages(p: Platform, catalog: Json, names: Json): Option<seq<Package>> {
    var pkgs := Get(catalog, K_PACKAGES);
    if !(pkgs.Some? && pkgs.value.Arr? && pkgs.value.items != []) then None
    else SelectFrom(p, pkgs.value.items, names)
  }

  function SelectFrom(p: Platform, pkgs: seq<Json>, names: Json): Option<seq<Package>> {
    var ks := AllMetadata(p, pkgs);
    var selected := SortedUniqueStrings(Some(names), false, p.lt);
    if ks.None? || !DistinctNames(ks.value) || selected.None? then None
    else if exists n :: n in selected.value && !NameKnown(ks.value, n) then None
    else Some(Sort(PickAll(ks.value, selected.value), NameLess(p)))
  }

  /** The loop that fills the `Map`; a repeated name stops it. */
  method BuildTable(ks: seq<Package>) returns (table: Option<map<Str, Package>>)
    ensures table.Some? <==> DistinctNames(ks)
    ensures table.Some? ==> forall n :: n in table.value <==> NameKnown(ks, n)
    ensures table.Some? ==> forall n :: n in table.value ==> table.value[n] == Named(ks, n)
  {
    var found: map<Str, Package> := map[];
    for i := 0 to |ks|
      invariant forall j, l :: 0 <= j < l < i ==> ks[j].name != ks[l].name
      invariant forall n :: n in found ==> exists j :: 0 <= j < i && ks[j].name == n
      invariant forall j :: 0 <= j < i ==> ks[j].name in found && found[ks[j].name] == ks[j]
    {
      if ks[i].name in found {
        return None;
      }
      found := found[ks[i].name := ks[i]];
    }
    return Some(found);
  }

  /** `selectedPackages` as the source runs it: fill the table, then look every selected name up. */
  method SelectWithTable(p: Platform, pkgs: seq<Json>, names: Json) returns (r: Option<seq<Package>>)
    ensures r == SelectFrom(p, pkgs, names)
  {
    hide AllMetadata, SortedUniqueStrings, Sort, Named, NameKnown, NameLess;
    var ks := AllMetadata(p, pkgs);
    if ks.None? {
      return None;
    }
    var table := BuildTable(ks.value);
    var selected := SortedUniqueStrings(Some(names), false, p.lt);
    if table.None? || selected.None? || exists n :: n in selected.value && n !in table.value {
      return None;
    }
    var found, all := table.value, selected.value;
    var picked := seq(|all|, i requires 0 <= i < |all| && all[i] in found => found[all[i]]);
    assert picked == PickAll(ks.value, all);
    r := Some(Sort(picked, NameLess(p)));
  }

  // ---- normalizedEvidence ----

  datatype EvidenceFields = EvidenceFields(
    status: Option<Json>, digest: Option<Json>, uri: Option<Json>, mediaType: Option<Json>, extensions: Option<Json>)

  datatype Evidence = Evidence(digest: Json, uri: Option<Json>, mediaType: Option<Json>, extensions: Json)

  const EVIDENCE_NAMES: seq<Str> := [Lit("registry"), Lit("artifact"), Lit("sbom"), Lit("attestation"), Lit("canary")]

  function ReadEvidence(d: Json): EvidenceFields {
    EvidenceFields(Get(d, K_STATUS), Get(d, K_DIGEST), Get(d, K_URI), Get(d, K_MEDIA_TYPE), Get(d, K_EXTENSIONS))
  }

  function NormalizeEvidence(p: Platform, f: EvidenceFields): Option<Evidence> {
    if f.status != Some(String(Lit("verified"))) || !LowerHex(TextOrEmpty(f.digest), 64) then None
    else if f.uri.Some? && !(f.uri.value.String? && p.canParseUrl(f.uri.value.s)) then None
    else if f.mediaType.Some? && !NonEmptyString(f.mediaType) then None
    else Some(Evidence(f.digest.value, IfTruthy(f.uri), IfTruthy(f.mediaType), OrEmptyObject(f.extensions)))
  }

  function EvidenceJson(e: Evidence): Json {
    Obj([Member(K_STATUS, String(Lit("verified"))), Member(K_DIGEST, e.digest)]
        + OptionalMember(K_URI, e.uri) + OptionalMember(K_MEDIA_TYPE, e.mediaType)
        + [Member(K_EXTENSIONS, e.extensions)])
  }

  function OneEvidence(p: Platform, d: Option<Json>): Option<Evidence> {
    if d.Some? && d.value.Obj? then NormalizeEvidence(p, ReadEvidence(d.value)) else None
  }

  function EvidenceFor(p: Platform, evidence: Json, names: seq<Str>): Option<seq<Member>> {
    if names == [] then Some([])
    else
      var first := OneEvidence(p, Get(evidence, names[0]));
      var rest := EvidenceFor(p, evidence, names[1..]);
      if first.None? || rest.None? then None else Some([Member(names[0], EvidenceJson(first.value))] + rest.value)
  }

  function NormalizedEvidence(p: Platform, evidence: Json): Option<Json> {
    if !evidence.Obj? || exists m :: m in evidence.members && m.key !in EVIDENCE_NAMES then None
    else
      var ms := EvidenceFor(p, evidence, EVIDENCE_NAMES);
      if ms.None? then None else Some(Obj(ms.value))
  }

  // ---- createPackageSourceV2 ----

  /** The inputs; catalog, names and evidence are parsed JSON. */
  datatype Source = Source(
    catalog: Json, names: Json, evidence: Json, repository: Str, commit: Str, path: Str, blob: Str, runId: Str,
    contentDigest: Str, occurredAt: Str)

  /** What the identity and the payload are built from. */
  datatype Content = Content(
    producer: Str, occurredAt: Str, publishedAt: Str, repository: Str, commit: Str, path: Str, runId: Str, blob: Str,
    contentDigest: Str, packages: Json, evidence: Json)

  predicate SafeSourcePath(path: Str) {
    forall s :: s in Split(path, SLASH) ==> s != [] && s != [DOT] && s != [DOT, DOT]
  }

  predicate ValidProvenance(s: Source, producer: Option<Json>) {
    && s.catalog.Obj? && NonEmptyString(producer)
    && s.repository == Lit("CloudIngenium/") + producer.value.s
    && LowerHex(s.commit, 40) && LowerHex(s.blob, 40) && LowerHex(s.contentDigest, 64)
    && s.runId != [] && (forall u :: u in s.runId ==> IsDigit(u))
    && SafeSourcePath(s.path)
  }

  function CreateRecord(p: Platform, s: Source): Option<Content> {
    var producer, published := Get(s.catalog, K_PRODUCER), Get(s.catalog, K_PUBLISHED_AT);
    if !ValidProvenance(s, producer) then None
    else if !(published.Some? && published.value.String?) then None
    else
      var publishedAt, occurredAt := p.instant(published.value.s), p.instant(s.occurredAt);
      if publishedAt.None? || occurredAt.None? || occurredAt.value.millis < publishedAt.value.millis then None
      else
        var packages, evidence := SelectedPackages(p, s.catalog, s.names), NormalizedEvidence(p, s.evidence);
        if packages.None? || evidence.None? then None
        else Some(Content(
          producer.value.s, occurredAt.value.text, publishedAt.value.text, s.repository, s.commit, s.path, s.runId,
          s.blob, s.contentDigest, PackagesJson(packages.value), evidence.value))
  }

  function PackagesJson(ks: seq<Package>): Json {
    Arr(seq(|ks|, i requires 0 <= i < |ks| => PackageJson(ks[i])))
  }

  /** The object whose canonical text is hashed into `recordId`. */
  function IdentityJson(c: Content): Json {
    Obj([Member(K_SCHEMA_VERSION, String(Lit("cloudingenium.package-source/v2"))),
         Member(K_PRODUCER, String(c.producer)), Member(K_OCCURRED_AT, String(c.occurredAt)),
         Member(K_PUBLISHED_AT, String(c.publishedAt)), Member(K_REPOSITORY, String(c.repository)),
         Member(K_COMMIT, String(c.commit)), Member(K_PATH, String(c.path)),
         Member(K_WORKFLOW_RUN_ID, String(c.runId)), Member(K_SOURCE_BLOB_SHA, String(c.blob)),
         Member(K_CONTENT_DIGEST, String(c.contentDigest)), Member(K_PACKAGES, c.packages),
         Member(K_RELEASE_EVIDENCE, c.evidence)])
  }

  /** The object whose canonical text is hashed into `digest.value`. */
  function PayloadJson(c: Content): Json {
    Obj([Member(K_PUBLISHED_AT, String(c.publishedAt)), Member(K_SOURCE_BLOB_SHA, String(c.blob)),
         Member(K_DIGEST_ALGORITHM, String(Lit("sha256"))), Member(K_CONTENT_DIGEST, String(c.contentDigest)),
         Member(K_RELEASE_EVIDENCE, c.evidence), Member(K_PACKAGES, c.packages)])
  }
}
