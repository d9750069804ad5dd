/** What the identity and the payload of a package-source record depend on. */
module RecordIdentity {
  import opened Options
  import opened Text
  import opened Sorting
  import opened JsonValue
  import opened Canonical
  import opened CanonicalText
  import opened PackageSource

  /** Equal once sorted: for JavaScript values the same as `Reordered`, and easier to compute with. */
  ghost predicate Rearranged(a: Json, b: Json) {
    SortValue(a) == SortValue(b)
  }

  lemma {:induction false} RearrangedIff(a: Json, b: Json)
    requires Legal(a) && Legal(b)
    ensures Rearranged(a, b) <==> Reordered(a, b)
  {
    SortValueIffReordered(a, b);
  }

  type Relation = (Json, Json) -> bool

  ghost predicate RelatedOpt(same: Relation, a: Option<Json>, b: Option<Json>) {
    a.Some? == b.Some? && (a.Some? ==> same(a.value, b.value))
  }

  ghost predicate RearrangedOpt(a: Option<Json>, b: Option<Json>) {
    RelatedOpt(Rearranged, a, b)
  }

  // ---- Rearranging is a congruence ----

  lemma {:induction false} RearrangedObject(xs: seq<Member>, ys: seq<Member>)
    requires |xs| == |ys|
    requires forall i :: 0 <= i < |xs| ==> xs[i].key == ys[i].key && Rearranged(xs[i].value, ys[i].value)
    ensures Rearranged(Obj(xs), Obj(ys))
  {
    assert seq(|xs|, i requires 0 <= i < |xs| => Member(xs[i].key, SortValue(xs[i].value)))
        == seq(|ys|, i requires 0 <= i < |ys| => Member(ys[i].key, SortValue(ys[i].value)));
  }

  lemma {:induction false} RearrangedArray(xs: seq<Json>, ys: seq<Json>)
    requires |xs| == |ys| && forall i :: 0 <= i < |xs| ==> Rearranged(xs[i], ys[i])
    ensures Rearranged(Arr(xs), Arr(ys))
  {
    assert SortItems(xs) == SortItems(ys);
  }

  lemma {:induction false} LookupMapped(ms: seq<Member>, key: Str, f: Json -> Json)
    ensures Lookup(MapValues(ms, f), key).Some? == Lookup(ms, key).Some?
    ensures Lookup(ms, key).Some? ==> Lookup(MapValues(ms, f), key).value == f(Lookup(ms, key).value)
  {
    if ms != [] {
      LookupMapped(ms[1..], key, f);
      assert MapValues(ms, f)[1..] == MapValues(ms[1..], f);
    }
  }

  lemma {:induction false} LookupPermuted(xs: seq<Member>, ys: seq<Member>, key: Str)
    requires DistinctKeys(xs) && DistinctKeys(ys) && multiset(xs) == multiset(ys)
    ensures Lookup(xs, key) == Lookup(ys, key)
  {
    forall m ensures m in xs <==> m in ys {
      assert (m in xs <==> m in multiset(xs)) && (m in ys <==> m in multiset(ys));
    }
    if Lookup(xs, key).Some? {
      LookupIsThe(ys, key, Lookup(xs, key).value);
    }
  }

  /** Looking a key up commutes with sorting. */
  lemma {:induction false} GetSorted(v: Json, key: Str)
    requires Legal(v) && v.Obj?
    ensures Get(SortValue(v), key).Some? == Get(v, key).Some?
    ensures Get(v, key).Some? ==> Get(SortValue(v), key).value == SortValue(Get(v, key).value)
  {
    hide Lookup;
    SortedMembersOf(v.members);
    DistinctSorted(v.members);
    var s := FromEntries(Sort(v.members, KeyLess));
    LookupPermuted(v.members, s, key);
    LookupMapped(s, key, SortValue);
  }

  lemma {:induction false} GetRearranged(a: Json, b: Json, key: Str)
    requires Legal(a) && Legal(b) && Rearranged(a, b)
    ensures RearrangedOpt(Get(a, key), Get(b, key)) && a.Obj? == b.Obj?
  {
    if a.Obj? && b.Obj? {
      GetSorted(a, key);
      GetSorted(b, key);
    }
  }

  lemma {:induction false} GetLegal(v: Json, key: Str)
    requires Legal(v)
    ensures Get(v, key).Some? ==> Legal(Get(v, key).value)
  {
    if Get(v, key).Some? {
      var i :| 0 <= i < |v.members| && v.members[i] == Member(key, Get(v, key).value);
    }
  }

  lemma {:induction false} TextRearranged(a: Json, b: Json)
    requires Rearranged(a, b)
    ensures ToText(a) == ToText(b) && Truthy(a) == Truthy(b) && a.Null? == b.Null?
    decreases a
  {
    if a.Arr? {
      TextsRearranged(a.items, b.items);
    }
  }

  lemma {:induction false} TextsRearranged(xs: seq<Json>, ys: seq<Json>)
    requires SortItems(xs) == SortItems(ys)
    ensures JoinTexts(xs) == JoinTexts(ys)
    decreases xs
  {
    assert |SortItems(xs)| == |SortItems(ys)|;
    if xs != [] {
      assert SortItems(xs)[0] == SortItems(ys)[0];
      TextRearranged(xs[0], ys[0]);
      assert SortItems(xs)[1..] == SortItems(xs[1..]) && SortItems(ys)[1..] == SortItems(ys[1..]);
      TextsRearranged(xs[1..], ys[1..]);
    }
  }

  lemma {:induction false} OptRearranged(a: Option<Json>, b: Option<Json>)
    requires RearrangedOpt(a, b)
    ensures RearrangedOpt(IfTruthy(a), IfTruthy(b)) && TextOrEmpty(a) == TextOrEmpty(b)
    ensures Rearranged(OrEmptyObject(a), OrEmptyObject(b)) && NonEmptyString(a) == NonEmptyString(b)
    ensures a.Some? ==> a.value.Obj? == b.value.Obj?
    ensures a.Some? && a.value.String? ==> a == b
    ensures b.Some? && b.value.String? ==> a == b
  {
    if a.Some? {
      TextRearranged(a.value, b.value);
    }
  }

  // ---- sortedUniqueStrings ----

  /** The two hold the same strings, possibly in another order. */
  ghost predicate Permuted(a: Option<Json>, b: Option<Json>) {
    || a == b
    || (a.Some? && b.Some? && a.value.Arr? && b.value.Arr? && multiset(a.value.items) == multiset(b.value.items))
  }

  /** Collation tells the strings of the list apart. */
  ghost predicate Collated(lt: (Str, Str) -> bool, o: Option<Json>) {
    o.Some? && o.value.Arr? && AllTexts(o.value.items) ==> Separates(lt, Texts(o.value.items))
  }

  function TextOf(v: Json): Str {
    if v.String? then v.s else []
  }

  lemma {:induction false} TextsPermute(xs: seq<Json>, ys: seq<Json>)
    requires multiset(xs) == multiset(ys)
    ensures AllTexts(xs) == AllTexts(ys) && (xs == [] <==> ys == [])
    ensures AllTexts(xs) ==> multiset(Texts(xs)) == multiset(Texts(ys))
  {
    assert |multiset(xs)| == |xs| && |multiset(ys)| == |ys|;
    assert forall x :: (x in xs <==> x in multiset(xs)) && (x in ys <==> x in multiset(ys));
    if AllTexts(xs) {
      MapPermutes(xs, ys, TextOf);
      assert Texts(xs) == MapSeq(xs, TextOf) && Texts(ys) == MapSeq(ys, TextOf);
    }
  }

  lemma {:induction false} SortedUniquePermuted(
    a: Option<Json>, b: Option<Json>, allowEmpty: bool, lt: (Str, Str) -> bool)
    requires StrictWeakOrder(lt) && Permuted(a, b) && Collated(lt, a)
    ensures SortedUniqueStrings(a, allowEmpty, lt) == SortedUniqueStrings(b, allowEmpty, lt)
  {
    if a != b {
      TextsPermute(a.value.items, b.value.items);
      if AllTexts(a.value.items) {
        var x, y := Texts(a.value.items), Texts(b.value.items);
        if NoDuplicates(x) { NoDuplicatesPermute(x, y); }
        if NoDuplicates(y) { NoDuplicatesPermute(y, x); }
        SortForgetsOrder(x, y, lt);
      }
    }
  }

  /** The exact condition: the list of a set of strings does not depend on their order if and only if
      collation tells them apart. */
  lemma {:induction false} SortedUniqueIff(ss: seq<Str>, allowEmpty: bool, lt: (Str, Str) -> bool)
    requires StrictWeakOrder(lt)
    requires SortedUniqueStrings(Some(Strings(ss)), allowEmpty, lt).Some?
    ensures Separates(lt, ss) <==>
      forall ts: seq<Str> :: multiset(ts) == multiset(ss) ==>
        SortedUniqueStrings(Some(Strings(ts)), allowEmpty, lt) == SortedUniqueStrings(Some(Strings(ss)), allowEmpty, lt)
  {
    assert Texts(Strings(ss).items) == ss;
    ForgetsOrderIff(ss, lt);
    forall ts: seq<Str> | multiset(ts) == multiset(ss)
      ensures SortedUniqueStrings(Some(Strings(ts)), allowEmpty, lt) == Some(Sort(ts, lt))
    {
      NoDuplicatesPermute(ss, ts);
      MapPermutes(ss, ts, (s: Str) => String(s));
      assert MapSeq(ss, (s: Str) => String(s)) == Strings(ss).items
        && MapSeq(ts, (s: Str) => String(s)) == Strings(ts).items;
      TextsPermute(Strings(ss).items, Strings(ts).items);
      assert Texts(Strings(ts).items) == ts;
    }
  }

  // ---- packageMetadata ----

  /** The fields are the same, and checks and expected consumers are permutations. */
  ghost predicate FieldsAgree(same: Relation, f: PackageFields, g: PackageFields) {
    && RelatedOpt(same, f.name, g.name) && RelatedOpt(same, f.version, g.version)
    && RelatedOpt(same, f.ecosystem, g.ecosystem)
    && RelatedOpt(same, f.owner, g.owner) && RelatedOpt(same, f.maturity, g.maturity)
    && RelatedOpt(same, f.compatibility, g.compatibility) && RelatedOpt(same, f.exception, g.exception)
    && RelatedOpt(same, f.retirement, g.retirement) && RelatedOpt(same, f.extensions, g.extensions)
    && Permuted(f.checks, g.checks) && Permuted(f.consumers, g.consumers)
  }

  ghost predicate FieldsCollated(p: Platform, f: PackageFields) {
    Collated(p.lt, f.checks) && Collated(p.lt, f.consumers)
  }

  /** Two catalog entries with the same fields up to check order and consumer order. */
  ghost predicate PackagesAgree(same: Relation, a: Json, b: Json) {
    FieldsAgree(same, ReadPackage(a), ReadPackage(b))
  }

  /** The same package, with `compatibility`, `extensions` and the like rearranged. */
  ghost predicate Alike(k: Package, l: Package) {
    && k.name == l.name && k.version == l.version && k.ecosystem == l.ecosystem && k.owner == l.owner
    && k.maturity == l.maturity && k.checks == l.checks && k.consumers == l.consumers
    && Rearranged(k.compatibility, l.compatibility) && RearrangedOpt(k.exception, l.exception)
    && RearrangedOpt(k.retirement, l.retirement) && Rearranged(k.extensions, l.extensions)
  }

  ghost predicate AlikeOpt(a: Option<Package>, b: Option<Package>) {
    a.Some? == b.Some? && (a.Some? ==> Alike(a.value, b.value))
  }

  lemma {:induction false} MetadataAlike(p: Platform, f: PackageFields, g: PackageFields)
    requires StrictWeakOrder(p.lt) && FieldsAgree(Rearranged, f, g) && FieldsCollated(p, f)
    ensures AlikeOpt(PackageMetadata(p, f), PackageMetadata(p, g))
  {
    hide SortedUniqueStrings, IsEcosystem, IsMaturity, IsStable, IsDeprecated, IsDate, TextOrEmpty, IfTruthy,
      OrEmptyObject, Truthy;
    hide Rearranged, Permuted, Collated, Lit;
    OptRearranged(f.name, g.name);
    OptRearranged(f.version, g.version);
    OptRearranged(f.ecosystem, g.ecosystem);
    OptRearranged(f.owner, g.owner);
    OptRearranged(f.maturity, g.maturity);
    OptRearranged(f.compatibility, g.compatibility);
    OptRearranged(f.exception, g.exception);
    OptRearranged(f.retirement, g.retirement);
    OptRearranged(IfTruthy(f.retirement), IfTruthy(g.retirement));
    OptRearranged(f.extensions, g.extensions);
    SortedUniquePermuted(f.checks, g.checks, true, p.lt);
    SortedUniquePermuted(f.consumers, g.consumers, true, p.lt);
  }

  lemma {:induction false} PackageJsonAlike(k: Package, l: Package)
    requires Alike(k, l)
    ensures Rearranged(PackageJson(k), PackageJson(l))
  {
    hide SortValue;
    RearrangedObject(PackageJson(k).members, PackageJson(l).members);
  }

  lemma {:induction false} PackagesJsonAlike(ks: seq<Package>, ls: seq<Package>)
    requires |ks| == |ls| && forall i :: 0 <= i < |ks| ==> Alike(ks[i], ls[i])
    ensures Rearranged(PackagesJson(ks), PackagesJson(ls))
  {
    forall i | 0 <= i < |ks| ensures Rearranged(PackageJson(ks[i]), PackageJson(ls[i])) {
      PackageJsonAlike(ks[i], ls[i]);
    }
    RearrangedArray(PackagesJson(ks).items, PackagesJson(ls).items);
  }

  // ---- selectedPackages ----

  function MetadataOf(p: Platform): Json -> Option<Package> {
    (pkg: Json) => PackageMetadata(p, ReadPackage(pkg))
  }

  /** All packages are valid exactly when each is, and then the list holds their metadata. */
  lemma {:induction false} AllMetadataIs(p: Platform, pkgs: seq<Json>)
    ensures AllMetadata(p, pkgs).Some? <==> forall i :: 0 <= i < |pkgs| ==> MetadataOf(p)(pkgs[i]).Some?
    ensures AllMetadata(p, pkgs).Some? ==>
      |AllMetadata(p, pkgs).value| == |pkgs| &&
      forall i :: 0 <= i < |pkgs| ==> Some(AllMetadata(p, pkgs).value[i]) == MetadataOf(p)(pkgs[i])
  {
    hide PackageMetadata, ReadPackage;
    if pkgs != [] {
      AllMetadataIs(p, pkgs[1..]);
      var all := AllMetadata(p, pkgs);
      assert forall i :: 1 <= i < |pkgs| ==> pkgs[i] == pkgs[1..][i - 1];
      if AllMetadata(p, pkgs[1..]).None? {
        var i :| 0 <= i < |pkgs[1..]| && MetadataOf(p)(pkgs[1..][i]).None?;
        assert MetadataOf(p)(pkgs[i + 1]).None?;
      } else {
        assert MetadataOf(p)(pkgs[0]) == PackageMetadata(p, ReadPackage(pkgs[0]));
      }
    }
  }

  ghost predicate AllAlike(ks: seq<Package>, ls: seq<Package>) {
    |ks| == |ls| && forall i :: 0 <= i < |ks| ==> Alike(ks[i], ls[i])
  }

  lemma {:induction false} AllMetadataAlike(p: Platform, xs: seq<Json>, ys: seq<Json>)
    requires StrictWeakOrder(p.lt) && |xs| == |ys|
    requires forall i :: 0 <= i < |xs| ==>
      PackagesAgree(Rearranged, xs[i], ys[i]) && FieldsCollated(p, ReadPackage(xs[i]))
    ensures AllMetadata(p, xs).Some? == AllMetadata(p, ys).Some?
    ensures AllMetadata(p, xs).Some? ==> AllAlike(AllMetadata(p, xs).value, AllMetadata(p, ys).value)
  {
    hide PackageMetadata, ReadPackage, AllMetadata;
    AllMetadataIs(p, xs);
    AllMetadataIs(p, ys);
    forall i | 0 <= i < |xs| ensures AlikeOpt(MetadataOf(p)(xs[i]), MetadataOf(p)(ys[i])) {
      MetadataAlike(p, ReadPackage(xs[i]), ReadPackage(ys[i]));
    }
  }

  function Unwrap(o: Option<Package>): Package {
    if o.Some? then o.value else Package([], [], [], [], [], Null, [], [], None, None, Null)
  }

  lemma {:induction false} AllMetadataPermuted(p: Platform, xs: seq<Json>, ys: seq<Json>)
    requires multiset(xs) == multiset(ys)
    ensures AllMetadata(p, xs).Some? == AllMetadata(p, ys).Some?
    ensures AllMetadata(p, xs).Some? ==> multiset(AllMetadata(p, xs).value) == multiset(AllMetadata(p, ys).value)
  {
    hide PackageMetadata, ReadPackage, AllMetadata;
    AllMetadataIs(p, xs);
    AllMetadataIs(p, ys);
    forall x ensures x in xs <==> x in ys {
      assert (x in xs <==> x in multiset(xs)) && (x in ys <==> x in multiset(ys));
    }
    assert forall i :: 0 <= i < |xs| ==> xs[i] in ys;
    assert forall i :: 0 <= i < |ys| ==> ys[i] in xs;
    if AllMetadata(p, xs).Some? {
      var f := (x: Json) => Unwrap(MetadataOf(p)(x));
      MapPermutes(xs, ys, f);
      assert AllMetadata(p, xs).value == MapSeq(xs, f) && AllMetadata(p, ys).value == MapSeq(ys, f);
    }
  }

  lemma {:induction false} NamedAlike(ks: seq<Package>, ls: seq<Package>, name: Str)
    requires AllAlike(ks, ls)
    ensures NameKnown(ks, name) == NameKnown(ls, name)
    ensures NameKnown(ks, name) ==> Alike(Named(ks, name), Named(ls, name))
  {
    hide Rearranged, RearrangedOpt;
    if ks != [] {
      NamedAlike(ks[1..], ls[1..], name);
      assert ks == [ks[0]] + ks[1..] && ls == [ls[0]] + ls[1..];
      assert NameKnown(ks, name) <==> ks[0].name == name || NameKnown(ks[1..], name);
      assert NameKnown(ls, name) <==> ls[0].name == name || NameKnown(ls[1..], name);
    }
  }

  lemma {:induction false} NamedPermuted(ks: seq<Package>, ls: seq<Package>, name: Str)
    requires multiset(ks) == multiset(ls) && DistinctNames(ks)
    ensures DistinctNames(ls) && NameKnown(ks, name) == NameKnown(ls, name)
    ensures NameKnown(ks, name) ==> Named(ks, name) == Named(ls, name)
  {
    hide Named;
    forall k ensures k in ks <==> k in ls {
      assert (k in ks <==> k in multiset(ks)) && (k in ls <==> k in multiset(ls));
    }
    NoDuplicatesPermute(ks, ls);
    forall i, j | 0 <= i < j < |ls| ensures ls[i].name != ls[j].name {
      assert ls[i] in ks && ls[j] in ks && ls[i] != ls[j];
    }
  }

  /** Collated names come out sorted, so sorting the picked packages by name moves none of them. */
  lemma {:induction false} PickedStaySorted(p: Platform, ks: seq<Package>, names: seq<Str>)
    requires StrictWeakOrder(p.lt) && Sorted(names, p.lt) && forall n :: n in names ==> NameKnown(ks, n)
    ensures Sort(PickAll(ks, names), NameLess(p)) == PickAll(ks, names)
  {
    hide Named, NameKnown;
    SortKeepsSorted(PickAll(ks, names), NameLess(p));
  }

  /** `selectedPackages` in three steps: sort the names, pick, leave the picked packages where they are. */
  lemma {:induction false} SelectedAre(p: Platform, ks: seq<Package>, names: Json)
    requires StrictWeakOrder(p.lt)
    ensures var selected := SortedUniqueStrings(Some(names), false, p.lt);
      selected.Some? && (forall n :: n in selected.value ==> NameKnown(ks, n)) ==>
        Sort(PickAll(ks, selected.value), NameLess(p)) == PickAll(ks, selected.value)
  {
    hide Named, NameKnown;
    var selected := SortedUniqueStrings(Some(names), false, p.lt);
    if selected.Some? && forall n :: n in selected.value ==> NameKnown(ks, n) {
      SortSorts(Texts(names.items), p.lt);
      PickedStaySorted(p, ks, selected.value);
    }
  }

  ghost predicate SelectionAlike(a: Option<seq<Package>>, b: Option<seq<Package>>) {
    a.Some? == b.Some? && (a.Some? ==> AllAlike(a.value, b.value))
  }

  lemma {:induction false} SelectAlike(p: Platform, xs: seq<Json>, ys: seq<Json>, names: Json)
    requires StrictWeakOrder(p.lt) && |xs| == |ys|
    requires forall i :: 0 <= i < |xs| ==>
      PackagesAgree(Rearranged, xs[i], ys[i]) && FieldsCollated(p, ReadPackage(xs[i]))
    ensures SelectionAlike(SelectFrom(p, xs, names), SelectFrom(p, ys, names))
  {
    hide AllMetadata, SortedUniqueStrings, Sort, Named, NameKnown, PackagesAgree, FieldsCollated;
    AllMetadataAlike(p, xs, ys);
    if AllMetadata(p, xs).Some? {
      var ks, ls := AllMetadata(p, xs).value, AllMetadata(p, ys).value;
      forall n { NamedAlike(ks, ls, n); }
      SelectedAre(p, ks, names);
      SelectedAre(p, ls, names);
    }
  }

  lemma {:induction false} SelectPermuted(p: Platform, xs: seq<Json>, ys: seq<Json>, names: Json)
    requires StrictWeakOrder(p.lt) && multiset(xs) == multiset(ys)
    ensures SelectFrom(p, xs, names) == SelectFrom(p, ys, names)
  {
    hide AllMetadata, SortedUniqueStrings, Sort, Named, NameKnown;
    AllMetadataPermuted(p, xs, ys);
    if AllMetadata(p, xs).Some? {
      var ks, ls := AllMetadata(p, xs).value, AllMetadata(p, ys).value;
      if DistinctNames(ks) {
        forall n { NamedPermuted(ks, ls, n); }
        var selected := SortedUniqueStrings(Some(names), false, p.lt);
        NamedPermuted(ks, ls, []);
        if selected.Some? {
          if forall n :: n in selected.value ==> NameKnown(ks, n) {
            assert PickAll(ks, selected.value) == PickAll(ls, selected.value);
          } else {
            var n :| n in selected.value && !NameKnown(ks, n);
            assert !NameKnown(ls, n);
          }
        }
      } else if DistinctNames(ls) {
        NamedPermuted(ls, ks, []);
      }
    }
  }

  // ---- normalizedEvidence ----

  lemma {:induction false} DigestPresent(p: Platform, f: EvidenceFields)
    ensures NormalizeEvidence(p, f).Some? ==> f.digest.Some?
  {
  }

  ghost predicate EvidencesAlike(e: Evidence, d: Evidence) {
    && Rearranged(e.digest, d.digest) && RearrangedOpt(e.uri, d.uri)
    && RearrangedOpt(e.mediaType, d.mediaType) && Rearranged(e.extensions, d.extensions)
  }

  lemma {:induction false} EvidenceJsonAlike(e: Evidence, d: Evidence)
    requires EvidencesAlike(e, d)
    ensures Rearranged(EvidenceJson(e), EvidenceJson(d))
  {
    RearrangedSelf(String(Lit("verified")));
    hide SortValue, Lit, Rearranged;
    RearrangedObject(EvidenceJson(e).members, EvidenceJson(d).members);
  }

  lemma {:induction false} EvidenceFieldsAlike(p: Platform, a: Json, b: Json)
    requires Legal(a) && Legal(b) && Rearranged(a, b) && a.Obj?
    ensures NormalizeEvidence(p, ReadEvidence(a)).Some? == NormalizeEvidence(p, ReadEvidence(b)).Some?
    ensures NormalizeEvidence(p, ReadEvidence(a)).Some? ==>
      EvidencesAlike(NormalizeEvidence(p, ReadEvidence(a)).value, NormalizeEvidence(p, ReadEvidence(b)).value)
  {
    hide SortValue, Truthy, ToText, LowerHex, Get, Rearranged, TextOrEmpty, IfTruthy, OrEmptyObject, Lit, Legal;
    var f, g := ReadEvidence(a), ReadEvidence(b);
    GetRearranged(a, b, K_STATUS);
    GetRearranged(a, b, K_DIGEST);
    GetRearranged(a, b, K_URI);
    GetRearranged(a, b, K_MEDIA_TYPE);
    GetRearranged(a, b, K_EXTENSIONS);
    OptRearranged(f.status, g.status);
    OptRearranged(f.digest, g.digest);
    OptRearranged(f.uri, g.uri);
    OptRearranged(f.mediaType, g.mediaType);
    OptRearranged(f.extensions, g.extensions);
    DigestPresent(p, f);
  }

  lemma {:induction false} EvidenceAlike(p: Platform, a: Json, b: Json)
    requires Legal(a) && Legal(b) && Rearranged(a, b) && a.Obj?
    ensures NormalizeEvidence(p, ReadEvidence(a)).Some? == NormalizeEvidence(p, ReadEvidence(b)).Some?
    ensures NormalizeEvidence(p, ReadEvidence(a)).Some? ==>
      Rearranged(EvidenceJson(NormalizeEvidence(p, ReadEvidence(a)).value),
        EvidenceJson(NormalizeEvidence(p, ReadEvidence(b)).value))
  {
    hide NormalizeEvidence, ReadEvidence, EvidencesAlike, EvidenceJson, Rearranged, Legal;
    EvidenceFieldsAlike(p, a, b);
    if NormalizeEvidence(p, ReadEvidence(a)).Some? {
      EvidenceJsonAlike(NormalizeEvidence(p, ReadEvidence(a)).value, NormalizeEvidence(p, ReadEvidence(b)).value);
    }
  }

  ghost predicate MembersRearranged(xs: seq<Member>, ys: seq<Member>) {
    |xs| == |ys| && forall i :: 0 <= i < |xs| ==> xs[i].key == ys[i].key && Rearranged(xs[i].value, ys[i].value)
  }

  lemma {:induction false} OneEvidenceAlike(p: Platform, x: Option<Json>, y: Option<Json>)
    requires RearrangedOpt(x, y) && (x.Some? ==> Legal(x.value) && Legal(y.value))
    ensures OneEvidence(p, x).Some? == OneEvidence(p, y).Some?
    ensures OneEvidence(p, x).Some? ==>
      Rearranged(EvidenceJson(OneEvidence(p, x).value), EvidenceJson(OneEvidence(p, y).value))
  {
    hide NormalizeEvidence, ReadEvidence, EvidenceJson, Rearranged, Legal;
    if x.Some? {
      RearrangedKind(x.value, y.value);
      if x.value.Obj? {
        EvidenceAlike(p, x.value, y.value);
      }
    }
  }

  lemma {:induction false} EvidenceForAlike(p: Platform, a: Json, b: Json, names: seq<Str>)
    requires Legal(a) && Legal(b) && Rearranged(a, b)
    ensures EvidenceFor(p, a, names).Some? == EvidenceFor(p, b, names).Some?
    ensures EvidenceFor(p, a, names).Some? ==>
      MembersRearranged(EvidenceFor(p, a, names).value, EvidenceFor(p, b, names).value)
  {
    hide OneEvidence, EvidenceJson, Get, Rearranged, Legal;
    if names != [] {
      EvidenceForAlike(p, a, b, names[1..]);
      GetRearranged(a, b, names[0]);
      GetLegal(a, names[0]);
      GetLegal(b, names[0]);
      OneEvidenceAlike(p, Get(a, names[0]), Get(b, names[0]));
    }
  }

  lemma {:induction false} RearrangedSelf(v: Json)
    ensures Rearranged(v, v)
  {
  }

  lemma {:induction false} RearrangedKind(a: Json, b: Json)
    requires Rearranged(a, b)
    ensures a.Obj? == b.Obj? && a.Arr? == b.Arr? && (a.String? || b.String? ==> a == b)
  {
  }

  lemma {:induction false} KeysRearranged(a: Json, b: Json)
    requires Legal(a) && Legal(b) && Rearranged(a, b) && a.Obj?
    ensures b.Obj? && forall m :: m in a.members ==> exists n :: n in b.members && n.key == m.key
  {
    RearrangedKind(a, b);
    forall m | m in a.members ensures exists n :: n in b.members && n.key == m.key {
      GetRearranged(a, b, m.key);
    }
  }

  lemma {:induction false} NormalizedEvidenceAlike(p: Platform, a: Json, b: Json)
    requires Legal(a) && Legal(b) && Rearranged(a, b)
    ensures RearrangedOpt(NormalizedEvidence(p, a), NormalizedEvidence(p, b))
  {
    hide EvidenceFor, SortValue, EVIDENCE_NAMES;
    RearrangedKind(a, b);
    if a.Obj? {
      KeysRearranged(a, b);
      KeysRearranged(b, a);
      EvidenceForAlike(p, a, b, EVIDENCE_NAMES);
      if EvidenceFor(p, a, EVIDENCE_NAMES).Some? {
        RearrangedObject(EvidenceFor(p, a, EVIDENCE_NAMES).value, EvidenceFor(p, b, EVIDENCE_NAMES).value);
      }
    }
  }

  // ---- The record ----

  /** The catalogs list the same packages, in any order. */
  ghost predicate CatalogsAgree(same: Relation, a: Json, b: Json) {
    && a.Obj? && b.Obj?
    && RelatedOpt(same, Get(a, K_PRODUCER), Get(b, K_PRODUCER))
    && RelatedOpt(same, Get(a, K_PUBLISHED_AT), Get(b, K_PUBLISHED_AT))
    && PackageListsAgree(same, Get(a, K_PACKAGES), Get(b, K_PACKAGES))
  }

  ghost predicate PackageListsAgree(same: Relation, a: Option<Json>, b: Option<Json>) {
    && a.Some? && b.Some? && a.value.Arr? && b.value.Arr?
    && exists mid: seq<Json> :: PointwiseAgree(same, a.value.items, mid) && multiset(mid) == multiset(b.value.items)
  }

  ghost predicate PointwiseAgree(same: Relation, xs: seq<Json>, ys: seq<Json>) {
    |xs| == |ys| && forall i :: 0 <= i < |xs| ==> PackagesAgree(same, xs[i], ys[i])
  }

  /** Two sources that differ only in orders the record must not depend on: of members at any depth of a field, of
      packages, names, checks and consumers. Catalogs and evidence are JavaScript values. */
  ghost predicate SourcesAgree(s: Source, t: Source) {
    && Legal(s.catalog) && Legal(t.catalog) && CatalogsAgree(Reordered, s.catalog, t.catalog)
    && Permuted(Some(s.names), Some(t.names))
    && Legal(s.evidence) && Legal(t.evidence) && Reordered(s.evidence, t.evidence)
    && s.repository == t.repository && s.commit == t.commit && s.path == t.path && s.blob == t.blob
    && s.runId == t.runId
    && s.contentDigest == t.contentDigest && s.occurredAt == t.occurredAt
  }

  lemma {:induction false} FieldRearranged(a: Json, b: Json, key: Str)
    requires Legal(a) && Legal(b) && RelatedOpt(Reordered, Get(a, key), Get(b, key))
    ensures RelatedOpt(Rearranged, Get(a, key), Get(b, key))
  {
    hide Legal, Reordered, Rearranged, Get;
    GetLegal(a, key);
    GetLegal(b, key);
    if Get(a, key).Some? {
      RearrangedIff(Get(a, key).value, Get(b, key).value);
    }
  }

  lemma {:induction false} PackageRearranged(a: Json, b: Json)
    requires Legal(a) && Legal(b) && PackagesAgree(Reordered, a, b)
    ensures PackagesAgree(Rearranged, a, b)
  {
    hide Legal, RelatedOpt, Get, Permuted, Lit;
    FieldRearranged(a, b, K_NAME);
    FieldRearranged(a, b, K_VERSION);
    FieldRearranged(a, b, K_ECOSYSTEM);
    FieldRearranged(a, b, K_OWNER);
    FieldRearranged(a, b, K_MATURITY);
    FieldRearranged(a, b, K_COMPATIBILITY);
    FieldRearranged(a, b, K_ARCHITECTURE_EXCEPTION);
    FieldRearranged(a, b, K_RETIREMENT_DATE);
    FieldRearranged(a, b, K_EXTENSIONS);
  }

  lemma {:induction false} CatalogRearranged(a: Json, b: Json)
    requires Legal(a) && Legal(b) && CatalogsAgree(Reordered, a, b)
    ensures CatalogsAgree(Rearranged, a, b)
  {
    hide PackagesAgree, RelatedOpt, Get;
    FieldRearranged(a, b, K_PRODUCER);
    FieldRearranged(a, b, K_PUBLISHED_AT);
    GetLegal(a, K_PACKAGES);
    GetLegal(b, K_PACKAGES);
    var xs, ys := Get(a, K_PACKAGES).value.items, Get(b, K_PACKAGES).value.items;
    var mid: seq<Json> :| PointwiseAgree(Reordered, xs, mid) && multiset(mid) == multiset(ys);
    forall i | 0 <= i < |xs| ensures PackagesAgree(Rearranged, xs[i], mid[i]) {
      assert mid[i] in multiset(ys);
      var j :| 0 <= j < |ys| && ys[j] == mid[i];
      PackageRearranged(xs[i], mid[i]);
    }
    assert PointwiseAgree(Rearranged, xs, mid);
  }

  /** Collation tells the names, the checks and the consumers of `s` apart. */
  ghost predicate SourceCollated(p: Platform, s: Source) {
    && Collated(p.lt, Some(s.names))
    && (Get(s.catalog, K_PACKAGES).Some? && Get(s.catalog, K_PACKAGES).value.Arr? ==>
          forall x :: x in Get(s.catalog, K_PACKAGES).value.items ==> FieldsCollated(p, ReadPackage(x)))
  }

  ghost predicate ContentsAlike(same: Relation, c: Content, d: Content) {
    c.(packages := Null, evidence := Null) == d.(packages := Null, evidence := Null)
    && same(c.packages, d.packages) && same(c.evidence, d.evidence)
  }

  lemma {:induction false} SelectNamesPermuted(p: Platform, pkgs: seq<Json>, names: Json, others: Json)
    requires StrictWeakOrder(p.lt) && Permuted(Some(names), Some(others)) && Collated(p.lt, Some(names))
    ensures SelectFrom(p, pkgs, names) == SelectFrom(p, pkgs, others)
  {
    SortedUniquePermuted(Some(names), Some(others), false, p.lt);
  }

  lemma {:induction false} SelectedPackagesAlike(p: Platform, s: Source, t: Source)
    requires StrictWeakOrder(p.lt) && CatalogsAgree(Rearranged, s.catalog, t.catalog)
      && Permuted(Some(s.names), Some(t.names))
    requires SourceCollated(p, s)
    ensures SelectionAlike(SelectedPackages(p, s.catalog, s.names), SelectedPackages(p, t.catalog, t.names))
  {
    hide SelectFrom, PackagesAgree, FieldsCollated, ReadPackage, Alike, Get, Collated;
    var xs, ys := Get(s.catalog, K_PACKAGES).value.items, Get(t.catalog, K_PACKAGES).value.items;
    var mid: seq<Json> :| PointwiseAgree(Rearranged, xs, mid) && multiset(mid) == multiset(ys);
    assert |multiset(mid)| == |mid| && |multiset(ys)| == |ys|;
    SelectAlike(p, xs, mid, s.names);
    SelectPermuted(p, mid, ys, s.names);
    SelectNamesPermuted(p, ys, s.names, t.names);
  }

  /** One descriptor of the normalised evidence: verified, with a SHA-256 digest. */
  ghost predicate Verified(descriptor: Json) {
    Get(descriptor, K_STATUS) == Some(String(Lit("verified"))) && LowerHex(TextOrEmpty(Get(descriptor, K_DIGEST)), 64)
  }

  lemma {:induction false} OneEvidenceVerified(p: Platform, d: Option<Json>)
    requires OneEvidence(p, d).Some?
    ensures Verified(EvidenceJson(OneEvidence(p, d).value))
  {
    var f := ReadEvidence(d.value);
    hide LowerHex, ToText, Lit, Truthy;
    var e := OneEvidence(p, d).value;
    assert f.digest == Some(e.digest) by { DigestPresent(p, f); }
    var ms := EvidenceJson(e).members;
    assert ms[0] == Member(K_STATUS, String(Lit("verified"))) && ms[1] == Member(K_DIGEST, e.digest);
    StatusIsNotDigest();
    assert Lookup(ms, K_STATUS) == Some(ms[0].value);
    assert ms[1..][0] == ms[1] && Lookup(ms[1..], K_DIGEST) == Some(ms[1].value);
  }

  lemma {:induction false} StatusIsNotDigest()
    ensures K_STATUS != K_DIGEST
  {
    assert K_STATUS[0] != K_DIGEST[0];
  }

  lemma {:induction false} EvidenceForVerified(p: Platform, evidence: Json, names: seq<Str>)
    requires EvidenceFor(p, evidence, names).Some?
    ensures var ms := EvidenceFor(p, evidence, names).value;
      |ms| == |names| && forall i :: 0 <= i < |ms| ==> ms[i].key == names[i] && Verified(ms[i].value)
  {
    hide OneEvidence, EvidenceJson, Verified;
    if names != [] {
      OneEvidenceVerified(p, Get(evidence, names[0]));
      EvidenceForVerified(p, evidence, names[1..]);
    }
  }

  /** Normalised evidence has exactly the five kinds, in their fixed order, each verified. */
  lemma {:induction false} EvidenceIsComplete(p: Platform, evidence: Json)
    requires NormalizedEvidence(p, evidence).Some?
    ensures var ms := NormalizedEvidence(p, evidence).value.members;
      |ms| == 5 && forall i :: 0 <= i < 5 ==> ms[i].key == EVIDENCE_NAMES[i] && Verified(ms[i].value)
  {
    hide EvidenceFor, Verified, Lit;
    EvidenceForVerified(p, evidence, EVIDENCE_NAMES);
  }

  function NamesOf(ks: seq<Package>): seq<Str> {
    seq(|ks|, i requires 0 <= i < |ks| => ks[i].name)
  }

  /** The selection holds each requested package exactly once, in collation order, with the catalog's metadata. */
  lemma {:induction false} SelectionIsExact(p: Platform, pkgs: seq<Json>, names: Json)
    requires StrictWeakOrder(p.lt) && SelectFrom(p, pkgs, names).Some?
    ensures var ks := SelectFrom(p, pkgs, names).value;
      && names.Arr? && AllTexts(names.items) && NoDuplicates(Texts(names.items))
      && NamesOf(ks) == Sort(Texts(names.items), p.lt)
      && forall k :: k in ks ==> exists i :: 0 <= i < |pkgs| && PackageMetadata(p, ReadPackage(pkgs[i])) == Some(k)
  {
    hide PackageMetadata, ReadPackage;
    SelectedAre(p, AllMetadata(p, pkgs).value, names);
    var all := AllMetadata(p, pkgs).value;
    var sorted := Sort(Texts(names.items), p.lt);
    var ks := SelectFrom(p, pkgs, names).value;
    assert ks == PickAll(all, sorted);
    assert NamesOf(ks) == sorted;
    AllMetadataIs(p, pkgs);
    forall k | k in ks ensures exists i :: 0 <= i < |pkgs| && PackageMetadata(p, ReadPackage(pkgs[i])) == Some(k) {
      var j :| 0 <= j < |ks| && ks[j] == k;
      assert k in all;
      var i :| 0 <= i < |all| && all[i] == k;
    }
  }

  lemma {:induction false} RecordRearranged(p: Platform, s: Source, t: Source)
    requires StrictWeakOrder(p.lt) && SourcesAgree(s, t) && SourceCollated(p, s)
    ensures CreateRecord(p, s).Some? == CreateRecord(p, t).Some?
    ensures CreateRecord(p, s).Some? ==> ContentsAlike(Rearranged, CreateRecord(p, s).value, CreateRecord(p, t).value)
  {
    hide SelectedPackages, NormalizedEvidence, SafeSourcePath, LowerHex, Get, SortValue, PackageJson, Legal, Reordered;
    CatalogRearranged(s.catalog, t.catalog);
    RearrangedIff(s.evidence, t.evidence);
    OptRearranged(Get(s.catalog, K_PRODUCER), Get(t.catalog, K_PRODUCER));
    OptRearranged(Get(s.catalog, K_PUBLISHED_AT), Get(t.catalog, K_PUBLISHED_AT));
    SelectedPackagesAlike(p, s, t);
    NormalizedEvidenceAlike(p, s.evidence, t.evidence);
    var a, b := SelectedPackages(p, s.catalog, s.names), SelectedPackages(p, t.catalog, t.names);
    if a.Some? {
      PackagesJsonAlike(a.value, b.value);
    }
  }

  lemma {:induction false} ContentTextsAlike(c: Content, d: Content)
    requires ContentsAlike(Rearranged, c, d)
    ensures Rearranged(IdentityJson(c), IdentityJson(d)) && Rearranged(PayloadJson(c), PayloadJson(d))
  {
    hide SortValue;
    RearrangedObject(IdentityJson(c).members, IdentityJson(d).members);
    RearrangedObject(PayloadJson(c).members, PayloadJson(d).members);
  }

  ghost predicate FiniteMembers(ms: seq<Member>) {
    forall m :: m in ms ==> AllFinite(m.value)
  }

  lemma {:induction false} FiniteObject(ms: seq<Member>)
    ensures AllFinite(Obj(ms)) <==> FiniteMembers(ms)
  {
    if AllFinite(Obj(ms)) {
      forall m | m in ms ensures AllFinite(m.value) {
        var i :| 0 <= i < |ms| && ms[i] == m;
      }
    }
  }

  lemma {:induction false} FinitePermuted(xs: seq<Member>, ys: seq<Member>)
    requires multiset(xs) == multiset(ys)
    ensures FiniteMembers(xs) <==> FiniteMembers(ys)
  {
    hide AllFinite;
    assert forall m :: (m in xs <==> m in multiset(xs)) && (m in ys <==> m in multiset(ys));
  }

  lemma {:induction false} FiniteSorted(v: Json)
    requires Legal(v)
    ensures AllFinite(SortValue(v)) == AllFinite(v)
  {
    match v
    case Arr(xs) =>
      forall i | 0 <= i < |xs| ensures AllFinite(SortItems(xs)[i]) == AllFinite(xs[i]) { FiniteSorted(xs[i]); }
      assert SortValue(v) == Arr(SortItems(xs));
    case Obj(ms) =>
      forall i | 0 <= i < |ms| { FiniteSorted(ms[i].value); }
      FiniteSortedObject(ms);
    case _ =>
  }

  lemma {:induction false} FiniteSortedObject(ms: seq<Member>)
    requires DistinctKeys(ms) && forall i :: 0 <= i < |ms| ==>
      AllFinite(SortValue(ms[i].value)) == AllFinite(ms[i].value)
    ensures AllFinite(SortValue(Obj(ms))) == AllFinite(Obj(ms))
  {
    hide AllFinite, SortValue;
    var mapped := MapValues(ms, SortValue);
    SortedMembersOf(ms);
    CanonicalObjectMaps(ms, SortValue);
    assert DistinctKeys(mapped);
    DistinctSorted(mapped);
    FinitePermuted(FromEntries(Sort(mapped, KeyLess)), mapped);
    FiniteObject(FromEntries(Sort(mapped, KeyLess)));
    FiniteObject(ms);
    forall i | 0 <= i < |ms| ensures AllFinite(mapped[i].value) == AllFinite(ms[i].value) {}
    if FiniteMembers(mapped) {
      forall m | m in ms ensures AllFinite(m.value) {
        var i :| 0 <= i < |ms| && ms[i] == m;
        assert mapped[i] in mapped;
      }
    }
    if FiniteMembers(ms) {
      forall m | m in mapped ensures AllFinite(m.value) {
        var i :| 0 <= i < |mapped| && mapped[i] == m;
        assert ms[i] in ms;
      }
    }
  }

  lemma {:induction false} RearrangedText(a: Json, b: Json)
    requires Legal(a) && Legal(b) && Rearranged(a, b)
    ensures CanonicalJson(a) == CanonicalJson(b) && Same(a, b)
  {
    hide AllFinite, SortValue, CanonTree, Printed, Same, Legal, CanonicalValue, CanonicalJson;
    FiniteSorted(a);
    FiniteSorted(b);
    PrintedSortValue(a);
    PrintedSortValue(b);
    CanonTreeIffSame(a, b);
    CanonicalJsonIff(a, b);
    CanonicalJsonIff(b, a);
  }

  // ---- Everything written is a JavaScript value ----

  /** Enough of each property name to tell it from the others and from an array index. */
  lemma {:induction false} KeyShapes()
    ensures |K_NAME| == 4 && |K_VERSION| == 7 && |K_ECOSYSTEM| == 9 && |K_OWNER| == 5 && |K_MATURITY| == 8
    ensures |K_COMPATIBILITY| == 13 && |K_CHECKS| == 6 && |K_EXPECTED_CONSUMERS| == 17
      && |K_ARCHITECTURE_EXCEPTION| == 21
    ensures |K_RETIREMENT_DATE| == 14 && |K_EXTENSIONS| == 10 && |K_URI| == 3 && |K_MEDIA_TYPE| == 9
    ensures |K_STATUS| == |K_DIGEST| == 6 && K_STATUS[0] != K_DIGEST[0]
    ensures |K_SCHEMA_VERSION| == |K_WORKFLOW_RUN_ID| == |K_SOURCE_BLOB_SHA| == |K_CONTENT_DIGEST| == 13
    ensures |K_PRODUCER| == |K_PACKAGES| == 8 && |K_OCCURRED_AT| == |K_REPOSITORY| == 10 && |K_PUBLISHED_AT| == 11
    ensures |K_COMMIT| == 6 && |K_PATH| == 4 && |K_RELEASE_EVIDENCE| == 15 && |K_DIGEST_ALGORITHM| == 15
    ensures K_SCHEMA_VERSION[1] == 0x63 && K_WORKFLOW_RUN_ID[0] == 0x77 && K_SOURCE_BLOB_SHA[0] == 0x73
      && K_SOURCE_BLOB_SHA[1] == 0x6F
    ensures K_CONTENT_DIGEST[0] == 0x63 && K_SCHEMA_VERSION[0] == 0x73
    ensures K_PRODUCER[1] != K_PACKAGES[1] && K_OCCURRED_AT[0] != K_REPOSITORY[0]
      && K_RELEASE_EVIDENCE[0] != K_DIGEST_ALGORITHM[0]
  {
  }

  predicate PlainKey(key: Str) {
    key != [] && !IsDigit(key[0])
  }

  lemma {:induction false} LegalObject(ms: seq<Member>)
    requires DistinctKeys(ms) && forall i :: 0 <= i < |ms| ==> PlainKey(ms[i].key) && Legal(ms[i].value)
    ensures Legal(Obj(ms))
  {
    forall i | 0 <= i < |ms| ensures !IsArrayIndex(ms[i].key) {
      assert ms[i].key[0] in ms[i].key;
    }
  }

  lemma {:induction false} PackageKeysPlain()
    ensures PlainKey(K_NAME) && PlainKey(K_VERSION) && PlainKey(K_ECOSYSTEM) && PlainKey(K_OWNER)
      && PlainKey(K_MATURITY)
    ensures PlainKey(K_COMPATIBILITY) && PlainKey(K_CHECKS) && PlainKey(K_EXPECTED_CONSUMERS)
    ensures PlainKey(K_ARCHITECTURE_EXCEPTION) && PlainKey(K_RETIREMENT_DATE) && PlainKey(K_EXTENSIONS)
    ensures PlainKey(K_STATUS) && PlainKey(K_DIGEST) && PlainKey(K_URI) && PlainKey(K_MEDIA_TYPE)
  {
  }

  lemma {:induction false} RecordKeysPlain()
    ensures PlainKey(K_SCHEMA_VERSION) && PlainKey(K_PRODUCER) && PlainKey(K_OCCURRED_AT) && PlainKey(K_PUBLISHED_AT)
    ensures PlainKey(K_REPOSITORY) && PlainKey(K_COMMIT) && PlainKey(K_PATH) && PlainKey(K_WORKFLOW_RUN_ID)
    ensures PlainKey(K_SOURCE_BLOB_SHA) && PlainKey(K_CONTENT_DIGEST) && PlainKey(K_PACKAGES)
    ensures PlainKey(K_RELEASE_EVIDENCE) && PlainKey(K_DIGEST_ALGORITHM)
  {
  }

  lemma {:induction false} IdentityKeysDistinct(c: Content)
    ensures DistinctKeys(IdentityJson(c).members)
  {
    KeyShapes();
    hide Lit;
  }

  lemma {:induction false} PayloadKeysDistinct(c: Content)
    ensures DistinctKeys(PayloadJson(c).members)
  {
    KeyShapes();
    hide Lit;
  }

  lemma {:induction false} ContentLegal(c: Content)
    requires Legal(c.packages) && Legal(c.evidence)
    ensures Legal(IdentityJson(c)) && Legal(PayloadJson(c))
  {
    IdentityKeysDistinct(c);
    PayloadKeysDistinct(c);
    RecordKeysPlain();
    hide Lit, PlainKey, DistinctKeys, Sorted, OwnBefore;
    LegalObject(IdentityJson(c).members);
    LegalObject(PayloadJson(c).members);
  }

  lemma {:induction false} GetFieldLegal(o: Option<Json>, v: Json, key: Str)
    requires Legal(v) && o == Get(v, key)
    ensures o.Some? ==> Legal(o.value)
    ensures IfTruthy(o).Some? ==> Legal(IfTruthy(o).value)
    ensures Legal(OrEmptyObject(o))
  {
    GetLegal(v, key);
  }

  ghost predicate LegalPackage(k: Package) {
    && Legal(k.compatibility) && Legal(k.extensions)
    && (k.exception.Some? ==> Legal(k.exception.value)) && (k.retirement.Some? ==> Legal(k.retirement.value))
  }

  lemma {:induction false} MetadataLegal(p: Platform, pkg: Json)
    requires Legal(pkg) && PackageMetadata(p, ReadPackage(pkg)).Some?
    ensures LegalPackage(PackageMetadata(p, ReadPackage(pkg)).value)
  {
    hide Legal, Get, SortedUniqueStrings, IfTruthy, OrEmptyObject, IsEcosystem, IsMaturity, IsStable, IsDeprecated,
      IsDate;
    var f := ReadPackage(pkg);
    GetFieldLegal(f.compatibility, pkg, K_COMPATIBILITY);
    GetFieldLegal(f.exception, pkg, K_ARCHITECTURE_EXCEPTION);
    GetFieldLegal(f.retirement, pkg, K_RETIREMENT_DATE);
    GetFieldLegal(f.extensions, pkg, K_EXTENSIONS);
  }

  lemma {:induction false} PackageKeysDistinct(k: Package)
    ensures DistinctKeys(PackageJson(k).members)
  {
    KeyShapes();
    hide Lit;
  }

  lemma {:induction false} PackageJsonLegal(k: Package)
    requires LegalPackage(k)
    ensures Legal(PackageJson(k))
  {
    PackageKeysDistinct(k);
    PackageKeysPlain();
    hide Lit, PlainKey, DistinctKeys, Sorted, OwnBefore;
    LegalObject(PackageJson(k).members);
  }

  lemma {:induction false} SelectedLegal(p: Platform, pkgs: seq<Json>, names: Json)
    requires (forall i :: 0 <= i < |pkgs| ==> Legal(pkgs[i])) && SelectFrom(p, pkgs, names).Some?
    ensures Legal(PackagesJson(SelectFrom(p, pkgs, names).value))
  {
    hide Legal, Sort, SortedUniqueStrings, PackageMetadata, ReadPackage, LegalPackage, AllMetadata, PackageJson;
    AllMetadataIs(p, pkgs);
    var ks := AllMetadata(p, pkgs).value;
    forall k | k in ks ensures LegalPackage(k) {
      var i :| 0 <= i < |ks| && ks[i] == k;
      assert Some(ks[i]) == MetadataOf(p)(pkgs[i]);
      MetadataLegal(p, pkgs[i]);
    }
    var selected := SortedUniqueStrings(Some(names), false, p.lt).value;
    var picked := PickAll(ks, selected);
    SortPermutes(picked, NameLess(p));
    forall k | k in Sort(picked, NameLess(p)) ensures LegalPackage(k) {
      assert k in picked;
    }
    PackageListLegal(Sort(picked, NameLess(p)));
  }

  lemma {:induction false} PackageListLegal(ks: seq<Package>)
    requires forall k :: k in ks ==> LegalPackage(k)
    ensures Legal(PackagesJson(ks))
  {
    hide PackageJson, LegalPackage;
    forall i | 0 <= i < |ks| ensures Legal(PackageJson(ks[i])) {
      PackageJsonLegal(ks[i]);
    }
  }

  ghost predicate LegalEvidence(e: Evidence) {
    && Legal(e.digest) && Legal(e.extensions)
    && (e.uri.Some? ==> Legal(e.uri.value)) && (e.mediaType.Some? ==> Legal(e.mediaType.value))
  }

  lemma {:induction false} EvidenceLegal(p: Platform, d: Json)
    requires Legal(d) && NormalizeEvidence(p, ReadEvidence(d)).Some?
    ensures LegalEvidence(NormalizeEvidence(p, ReadEvidence(d)).value)
  {
    hide Legal, Get, IfTruthy, OrEmptyObject, ToText;
    var f := ReadEvidence(d);
    GetFieldLegal(f.digest, d, K_DIGEST);
    GetFieldLegal(f.uri, d, K_URI);
    GetFieldLegal(f.mediaType, d, K_MEDIA_TYPE);
    GetFieldLegal(f.extensions, d, K_EXTENSIONS);
  }

  lemma {:induction false} EvidenceJsonLegal(e: Evidence)
    requires LegalEvidence(e)
    ensures Legal(EvidenceJson(e))
  {
    EvidenceKeysDistinct(e);
    PackageKeysPlain();
    hide Lit, PlainKey, DistinctKeys, Sorted, OwnBefore;
    LegalObject(EvidenceJson(e).members);
  }

  lemma {:induction false} EvidenceKeysDistinct(e: Evidence)
    ensures DistinctKeys(EvidenceJson(e).members)
  {
    KeyShapes();
    hide Lit;
  }

  lemma {:induction false} EvidenceForLegal(p: Platform, evidence: Json, names: seq<Str>)
    requires Legal(evidence) && EvidenceFor(p, evidence, names).Some?
    ensures |EvidenceFor(p, evidence, names).value| == |names|
    ensures forall i :: 0 <= i < |names| ==>
      EvidenceFor(p, evidence, names).value[i].key == names[i] && Legal(EvidenceFor(p, evidence, names).value[i].value)
  {
    hide NormalizeEvidence, ReadEvidence, EvidenceJson, Legal, Get;
    if names != [] {
      EvidenceForLegal(p, evidence, names[1..]);
      GetLegal(evidence, names[0]);
      EvidenceLegal(p, Get(evidence, names[0]).value);
      EvidenceJsonLegal(NormalizeEvidence(p, ReadEvidence(Get(evidence, names[0]).value)).value);
    }
  }

  lemma {:induction false} EvidenceNamesDistinct()
    ensures NoDuplicates(EVIDENCE_NAMES) && forall i :: 0 <= i < |EVIDENCE_NAMES| ==> PlainKey(EVIDENCE_NAMES[i])
  {
    assert EVIDENCE_NAMES[0][0] == 0x72 && EVIDENCE_NAMES[1][0] == 0x61;
  }

  lemma {:induction false} NormalizedEvidenceLegal(p: Platform, evidence: Json)
    requires Legal(evidence) && NormalizedEvidence(p, evidence).Some?
    ensures Legal(NormalizedEvidence(p, evidence).value)
  {
    hide EvidenceFor, EVIDENCE_NAMES, Legal, PlainKey;
    EvidenceForLegal(p, evidence, EVIDENCE_NAMES);
    EvidenceNamesDistinct();
    LegalObject(EvidenceFor(p, evidence, EVIDENCE_NAMES).value);
  }

  lemma {:induction false} RecordLegal(p: Platform, s: Source)
    requires Legal(s.catalog) && Legal(s.evidence) && CreateRecord(p, s).Some?
    ensures Legal(CreateRecord(p, s).value.packages) && Legal(CreateRecord(p, s).value.evidence)
  {
    hide SelectFrom, NormalizedEvidence, PackagesJson, Get, LowerHex, SafeSourcePath;
    GetLegal(s.catalog, K_PACKAGES);
    SelectedLegal(p, Get(s.catalog, K_PACKAGES).value.items, s.names);
    NormalizedEvidenceLegal(p, s.evidence);
  }

  /** Main result: a record is created from both sources or from neither, and the two records differ only in
      the order of members. */
  lemma {:induction false} RecordForgetsOrder(p: Platform, s: Source, t: Source)
    requires StrictWeakOrder(p.lt) && SourcesAgree(s, t) && SourceCollated(p, s)
    ensures CreateRecord(p, s).Some? == CreateRecord(p, t).Some?
    ensures CreateRecord(p, s).Some? ==> ContentsAlike(Reordered, CreateRecord(p, s).value, CreateRecord(p, t).value)
  {
    hide CreateRecord, Legal, Rearranged, Reordered, CatalogsAgree;
    RecordRearranged(p, s, t);
    if CreateRecord(p, s).Some? {
      var c, d := CreateRecord(p, s).value, CreateRecord(p, t).value;
      RecordLegal(p, s);
      RecordLegal(p, t);
      RearrangedIff(c.packages, d.packages);
      RearrangedIff(c.evidence, d.evidence);
    }
  }

  /** Order in the source changes neither the preimage of `recordId` nor the preimage of the digest. */
  lemma {:induction false} PreimagesForgetOrder(p: Platform, s: Source, t: Source)
    requires StrictWeakOrder(p.lt) && SourcesAgree(s, t) && SourceCollated(p, s)
    requires CreateRecord(p, s).Some?
    ensures CreateRecord(p, t).Some?
    ensures CanonicalJson(IdentityJson(CreateRecord(p, s).value)) ==
      CanonicalJson(IdentityJson(CreateRecord(p, t).value))
    ensures CanonicalJson(PayloadJson(CreateRecord(p, s).value)) == CanonicalJson(PayloadJson(CreateRecord(p, t).value))
  {
    hide CreateRecord, IdentityJson, PayloadJson, ContentsAlike, Legal, CatalogsAgree;
    RecordRearranged(p, s, t);
    var c, d := CreateRecord(p, s).value, CreateRecord(p, t).value;
    RecordLegal(p, s);
    RecordLegal(p, t);
    ContentTextsAlike(c, d);
    ContentLegal(c);
    ContentLegal(d);
    RearrangedText(IdentityJson(c), IdentityJson(d));
    RearrangedText(PayloadJson(c), PayloadJson(d));
  }

  // ---- The identity determines the payload ----

  lemma {:induction false} CanonicalMember(xs: seq<Member>, ys: seq<Member>, i: nat, j: nat)
    requires Legal(Obj(xs)) && Legal(Obj(ys)) && CanonTree(Obj(xs)) == CanonTree(Obj(ys))
    requires i < |xs| && j < |ys| && xs[i].key == ys[j].key
    ensures CanonTree(xs[i].value) == CanonTree(ys[j].value)
  {
    assert DistinctKeys(xs) && DistinctKeys(ys);
    hide CanonTree, Legal;
    CanonMembersFacts(xs);
    CanonMembersFacts(ys);
    var cx, cy := CanonMembers(xs), CanonMembers(ys);
    assert multiset(cx) == multiset(cy);
    assert cx[i] in multiset(cy);
    assert cx[i] in cy;
    var k :| 0 <= k < |cy| && cy[k] == cx[i];
    assert ys[k].key == ys[j].key;
  }

  /** Records with equal identity preimages have equal payload preimages. */
  lemma {:induction false} IdentityDeterminesPayload(c: Content, d: Content)
    requires Legal(c.packages) && Legal(c.evidence) && Legal(d.packages) && Legal(d.evidence)
    requires CanonicalJson(IdentityJson(c)).Some? && CanonicalJson(IdentityJson(c)) == CanonicalJson(IdentityJson(d))
    ensures c.(packages := Null, evidence := Null) == d.(packages := Null, evidence := Null)
    ensures Same(c.packages, d.packages) && Same(c.evidence, d.evidence)
    ensures CanonicalJson(PayloadJson(c)).Some? && CanonicalJson(PayloadJson(c)) == CanonicalJson(PayloadJson(d))
  {
    ContentLegal(c);
    ContentLegal(d);
    CanonicalJsonIff(IdentityJson(c), IdentityJson(d));
    CanonicalJsonIff(IdentityJson(d), IdentityJson(c));
    CanonTreeIffSame(IdentityJson(c), IdentityJson(d));
    IdentityFieldsAgree(c, d);
    CanonTreeIffSame(c.packages, d.packages);
    CanonTreeIffSame(c.evidence, d.evidence);
    FiniteParts(c);
    FiniteParts(d);
    CanonicalJsonIff(PayloadJson(c), PayloadJson(d));
    CanonicalJsonIff(PayloadJson(d), PayloadJson(c));
    PayloadTree(c, d);
    CanonTreeIffSame(PayloadJson(c), PayloadJson(d));
  }

  lemma {:induction false} IdentityFieldsAgree(c: Content, d: Content)
    requires Legal(IdentityJson(c)) && Legal(IdentityJson(d))
      && CanonTree(IdentityJson(c)) == CanonTree(IdentityJson(d))
    ensures c.(packages := Null, evidence := Null) == d.(packages := Null, evidence := Null)
    ensures CanonTree(c.packages) == CanonTree(d.packages) && CanonTree(c.evidence) == CanonTree(d.evidence)
  {
    var xs, ys := IdentityJson(c).members, IdentityJson(d).members;
    forall i: nat | i < 12
      ensures CanonTree(xs[i].value) == CanonTree(ys[i].value)
      ensures 1 <= i < 10 ==> xs[i].value == ys[i].value
    {
      IdentityFieldAgrees(c, d, i);
    }
    hide Lit, Legal, CanonTree;
    assert xs[1].value == ys[1].value && xs[2].value == ys[2].value && xs[3].value == ys[3].value;
    assert xs[4].value == ys[4].value && xs[5].value == ys[5].value && xs[6].value == ys[6].value;
    assert xs[7].value == ys[7].value && xs[8].value == ys[8].value && xs[9].value == ys[9].value;
    assert CanonTree(xs[10].value) == CanonTree(ys[10].value) && CanonTree(xs[11].value) == CanonTree(ys[11].value);
  }

  lemma {:induction false} IdentityFieldAgrees(c: Content, d: Content, i: nat)
    requires Legal(IdentityJson(c)) && Legal(IdentityJson(d))
      && CanonTree(IdentityJson(c)) == CanonTree(IdentityJson(d))
    requires i < 12
    ensures CanonTree(IdentityJson(c).members[i].value) == CanonTree(IdentityJson(d).members[i].value)
    ensures 1 <= i < 10 ==> IdentityJson(c).members[i].value == IdentityJson(d).members[i].value
  {
    hide Lit, Legal;
    var xs, ys := IdentityJson(c).members, IdentityJson(d).members;
    CanonicalMember(xs, ys, i, i);
  }

  lemma {:induction false} FiniteParts(c: Content)
    ensures AllFinite(IdentityJson(c)) <==> AllFinite(c.packages) && AllFinite(c.evidence)
    ensures AllFinite(PayloadJson(c)) <==> AllFinite(c.packages) && AllFinite(c.evidence)
  {
    hide Lit;
    var xs, ys := IdentityJson(c).members, PayloadJson(c).members;
    assert xs[10].value == c.packages && xs[11].value == c.evidence && ys[5].value == c.packages
      && ys[4].value == c.evidence;
  }

  lemma {:induction false} PayloadTree(c: Content, d: Content)
    requires c.(packages := Null, evidence := Null) == d.(packages := Null, evidence := Null)
    requires CanonTree(c.packages) == CanonTree(d.packages) && CanonTree(c.evidence) == CanonTree(d.evidence)
    ensures CanonTree(PayloadJson(c)) == CanonTree(PayloadJson(d))
  {
    hide Lit;
    assert CanonMembers(PayloadJson(c).members) == CanonMembers(PayloadJson(d).members);
  }
}
