/** The canonicalisers of lib/contract.mjs and package-source-v2/index.mjs as tree transforms. */
module Canonical {
  import opened Options
  import opened Text
  import opened Sorting
  import opened JsonValue

  /** `sortValue`: members by key, at every depth. */
  function SortValue(v: Json): Json {
    match v
    case Arr(xs) => Arr(seq(|xs|, i requires 0 <= i < |xs| => SortValue(xs[i])))
    case Obj(ms) =>
      Obj(FromEntries(Sort(seq(|ms|, i requires 0 <= i < |ms| => Member(ms[i].key, SortValue(ms[i].value))), KeyLess)))
    case _ => v
  }

  /** `canonicalValue`: the same, but -0 becomes 0 and a non-finite number is refused. */
  function CanonicalValue(v: Json): Option<Json> {
    match v
    case Num(NegZero) => Some(Num(Int(0)))
    case Num(NaN) => None
    case Num(Infinity(_)) => None
    case Arr(xs) =>
      var ys := seq(|xs|, i requires 0 <= i < |xs| => CanonicalValue(xs[i]));
      if exists i :: 0 <= i < |ys| && ys[i].None? then None
      else Some(Arr(seq(|ys|, i requires 0 <= i < |ys| => ys[i].value)))
    case Obj(ms) =>
      var ys := seq(|ms|, i requires 0 <= i < |ms| => CanonicalValue(ms[i].value));
      if exists i :: 0 <= i < |ys| && ys[i].None? then None
      else Some(Obj(FromEntries(Sort(seq(|ms|, i requires 0 <= i < |ms| => Member(ms[i].key, ys[i].value)), KeyLess))))
    case _ => Some(v)
  }

  ghost predicate AllFinite(v: Json) {
    match v
    case Num(n) => !n.NaN? && !n.Infinity?
    case Arr(xs) => forall i :: 0 <= i < |xs| ==> AllFinite(xs[i])
    case Obj(ms) => forall i :: 0 <= i < |ms| ==> AllFinite(ms[i].value)
    case _ => true
  }

  /** `v` with every leaf as `JSON.stringify` prints it. */
  function Printed(v: Json): Json {
    match v
    case Arr(xs) => Arr(seq(|xs|, i requires 0 <= i < |xs| => Printed(xs[i])))
    case Obj(ms) => Obj(seq(|ms|, i requires 0 <= i < |ms| => Member(ms[i].key, Printed(ms[i].value))))
    case _ => Leaf(v)
  }

  /** The canonical form: sorted and printed leaves in one pass. */
  function CanonTree(v: Json): Json {
    match v
    case Arr(xs) => Arr(seq(|xs|, i requires 0 <= i < |xs| => CanonTree(xs[i])))
    case Obj(ms) => Obj(FromEntries(Sort(CanonMembers(ms), KeyLess)))
    case _ => Leaf(v)
  }

  function CanonMembers(ms: seq<Member>): seq<Member> {
    seq(|ms|, i requires 0 <= i < |ms| => Member(ms[i].key, CanonTree(ms[i].value)))
  }

  // ---- Sorting commutes with a change of values ----

  function MapValues(ms: seq<Member>, f: Json -> Json): seq<Member> {
    seq(|ms|, i requires 0 <= i < |ms| => Member(ms[i].key, f(ms[i].value)))
  }

  ghost predicate KeysOnly(lt: (Member, Member) -> bool) {
    forall a: Member, b: Member, x: Json, y: Json :: lt(Member(a.key, x), Member(b.key, y)) == lt(a, b)
  }

  lemma {:induction false} MapValuesCons(m: Member, ms: seq<Member>, f: Json -> Json)
    ensures MapValues([m] + ms, f) == [Member(m.key, f(m.value))] + MapValues(ms, f)
  {
  }

  lemma {:induction false} KeysDecide(a: Member, b: Member, f: Json -> Json, lt: (Member, Member) -> bool)
    requires KeysOnly(lt)
    ensures lt(Member(a.key, f(a.value)), Member(b.key, f(b.value))) == lt(a, b)
  {
  }

  lemma {:induction false} InsertMapValues(m: Member, ms: seq<Member>, f: Json -> Json, lt: (Member, Member) -> bool)
    requires KeysOnly(lt)
    ensures Insert(Member(m.key, f(m.value)), MapValues(ms, f), lt) == MapValues(Insert(m, ms, lt), f)
  {
    hide MapValues, KeysOnly;
    if ms == [] {
      MapValuesCons(m, [], f);
      assert MapValues([], f) == [] by { NothingMapped(f); }
      assert [m] + [] == [m];
    } else {
      MapValuesCons(m, ms, f);
      MapValuesCons(ms[0], ms[1..], f);
      assert ms == [ms[0]] + ms[1..];
      KeysDecide(ms[0], m, f, lt);
      if lt(ms[0], m) {
        InsertMapValues(m, ms[1..], f, lt);
        MapValuesCons(ms[0], Insert(m, ms[1..], lt), f);
      }
    }
  }

  lemma {:induction false} NothingMapped(f: Json -> Json)
    ensures MapValues([], f) == []
  {
  }

  lemma {:induction false} SortMapValues(ms: seq<Member>, f: Json -> Json, lt: (Member, Member) -> bool)
    requires KeysOnly(lt)
    ensures Sort(MapValues(ms, f), lt) == MapValues(Sort(ms, lt), f)
  {
    if ms != [] {
      SortMapValues(ms[1..], f, lt);
      assert MapValues(ms, f)[1..] == MapValues(ms[1..], f);
      InsertMapValues(ms[0], Sort(ms[1..], lt), f, lt);
    }
  }

  lemma {:induction false} DistinctSorted(ms: seq<Member>)
    requires DistinctKeys(ms)
    ensures DistinctKeys(Sort(ms, KeyLess)) && multiset(Sort(ms, KeyLess)) == multiset(ms)
    ensures DistinctKeys(FromEntries(Sort(ms, KeyLess))) && multiset(FromEntries(Sort(ms, KeyLess))) == multiset(ms)
    ensures Sorted(FromEntries(Sort(ms, KeyLess)), OwnBefore)
  {
    SortPermutes(ms, KeyLess);
    DistinctKeysPermute(ms, Sort(ms, KeyLess));
    FromEntriesPermutes(Sort(ms, KeyLess));
  }

  /** Sorting the members and building the object commutes with a change of values. */
  lemma {:induction false} CanonicalObjectMaps(ms: seq<Member>, f: Json -> Json)
    requires DistinctKeys(ms)
    ensures FromEntries(Sort(MapValues(ms, f), KeyLess)) == MapValues(FromEntries(Sort(ms, KeyLess)), f)
  {
    DistinctSorted(ms);
    SortMapValues(ms, f, KeyLess);
    var s := Sort(ms, KeyLess);
    FromEntriesPermutes(s);
    FromEntriesPermutes(MapValues(s, f));
    SortMapValues(s, f, OwnBefore);
  }

  // ---- The three transforms agree ----

  lemma {:induction false} PrintedSortValue(v: Json)
    requires Legal(v)
    ensures Printed(SortValue(v)) == CanonTree(v)
  {
    match v
    case Arr(xs) =>
      forall i | 0 <= i < |xs| { PrintedSortValue(xs[i]); }
    case Obj(ms) =>
      forall i | 0 <= i < |ms| { PrintedSortValue(ms[i].value); }
      var sorted := seq(|ms|, i requires 0 <= i < |ms| => Member(ms[i].key, SortValue(ms[i].value)));
      assert DistinctKeys(sorted);
      CanonicalObjectMaps(sorted, Printed);
      assert MapValues(sorted, Printed) == CanonMembers(ms);
      assert Printed(SortValue(v)) == Obj(MapValues(FromEntries(Sort(sorted, KeyLess)), Printed));
    case _ =>
  }

  /** `canonicalValue` succeeds exactly on finite numbers, and then returns the canonical form. */
  lemma {:induction false} CanonicalValueIs(v: Json)
    ensures CanonicalValue(v) == if AllFinite(v) then Some(CanonTree(v)) else None
  {
    match v
    case Arr(xs) =>
      forall i | 0 <= i < |xs| { CanonicalValueIs(xs[i]); }
      var ys := seq(|xs|, i requires 0 <= i < |xs| => CanonicalValue(xs[i]));
      if AllFinite(v) {
        assert forall i :: 0 <= i < |ys| ==> ys[i] == Some(CanonTree(xs[i]));
        assert seq(|ys|, i requires 0 <= i < |ys| => ys[i].value) == CanonTree(v).items;
      } else {
        var i :| 0 <= i < |xs| && !AllFinite(xs[i]);
        assert ys[i].None?;
      }
    case Obj(ms) =>
      forall i | 0 <= i < |ms| { CanonicalValueIs(ms[i].value); }
      var ys := seq(|ms|, i requires 0 <= i < |ms| => CanonicalValue(ms[i].value));
      if AllFinite(v) {
        assert forall i :: 0 <= i < |ys| ==> ys[i] == Some(CanonTree(ms[i].value));
        assert seq(|ms|, i requires 0 <= i < |ms| => Member(ms[i].key, ys[i].value)) == CanonMembers(ms);
      } else {
        var i :| 0 <= i < |ms| && !AllFinite(ms[i].value);
        assert ys[i].None?;
      }
    case _ =>
  }

  // ---- The canonical form is exactly the class of `Same` ----

  lemma {:induction false} CanonMembersFacts(ms: seq<Member>)
    requires DistinctKeys(ms)
    ensures DistinctKeys(CanonMembers(ms)) && NoDuplicates(CanonMembers(ms))
    ensures multiset(CanonTree(Obj(ms)).members) == multiset(CanonMembers(ms))
    ensures DistinctKeys(CanonTree(Obj(ms)).members) && Sorted(CanonTree(Obj(ms)).members, OwnBefore)
  {
    var cs := CanonMembers(ms);
    forall i, j | 0 <= i < j < |cs| ensures cs[i].key != cs[j].key && cs[i] != cs[j] {
      assert ms[i].key != ms[j].key;
    }
    DistinctSorted(cs);
  }

  /** Objects with the same members in any order have one canonical member list. */
  lemma {:induction false} CanonicalObjectForgetsOrder(xs: seq<Member>, ys: seq<Member>)
    requires DistinctKeys(xs) && DistinctKeys(ys)
    ensures FromEntries(Sort(xs, KeyLess)) == FromEntries(Sort(ys, KeyLess)) <==> multiset(xs) == multiset(ys)
  {
    DistinctSorted(xs);
    DistinctSorted(ys);
    if multiset(xs) == multiset(ys) {
      MemberOrders();
      forall a, b | a in xs && b in xs && a != b ensures KeyLess(a, b) || KeyLess(b, a) {
        var i :| 0 <= i < |xs| && xs[i] == a;
        var j :| 0 <= j < |xs| && xs[j] == b;
      }
      SortForgetsOrder(xs, ys, KeyLess);
    }
  }

  lemma {:induction false} CanonTreeIffSame(a: Json, b: Json)
    requires Legal(a) && Legal(b)
    ensures CanonTree(a) == CanonTree(b) <==> Same(a, b)
    decreases a
  {
    match (a, b)
    case (Arr(xs), Arr(ys)) =>
      forall i | 0 <= i < |xs| && i < |ys| { CanonTreeIffSame(xs[i], ys[i]); }
      if CanonTree(a) == CanonTree(b) {
        assert |xs| == |CanonTree(a).items| == |ys|;
        forall i | 0 <= i < |xs| ensures Same(xs[i], ys[i]) {
          assert CanonTree(a).items[i] == CanonTree(b).items[i];
        }
      }
    case (Obj(xs), Obj(ys)) =>
      forall i, j | 0 <= i < |xs| && 0 <= j < |ys| { CanonTreeIffSame(xs[i].value, ys[j].value); }
      ObjectsSame(xs, ys);
      CanonMembersFacts(xs);
      CanonMembersFacts(ys);
      CanonicalObjectForgetsOrder(CanonMembers(xs), CanonMembers(ys));
    case _ =>
  }

  /** On these members the canonical form decides agreement. */
  ghost predicate Decided(xs: seq<Member>, ys: seq<Member>) {
    forall i, j :: 0 <= i < |xs| && 0 <= j < |ys| ==>
      (CanonTree(xs[i].value) == CanonTree(ys[j].value) <==> Same(xs[i].value, ys[j].value))
  }

  lemma {:induction false} HasMatchIff(xs: seq<Member>, ys: seq<Member>, i: nat)
    requires Decided(xs, ys) && i < |xs|
    ensures HasMatch(xs[i], ys) <==> CanonMembers(xs)[i] in CanonMembers(ys)
  {
    var x, cy := xs[i], CanonMembers(ys);
    if HasMatch(x, ys) {
      var j :| 0 <= j < |ys| && x.key == ys[j].key && Same(x.value, ys[j].value);
      assert cy[j] == CanonMembers(xs)[i];
    }
    if CanonMembers(xs)[i] in cy {
      var j :| 0 <= j < |cy| && cy[j] == CanonMembers(xs)[i];
      assert x.key == ys[j].key && Same(x.value, ys[j].value);
    }
  }

  lemma {:induction false} IsMatchedIff(xs: seq<Member>, ys: seq<Member>, j: nat)
    requires Decided(xs, ys) && j < |ys|
    ensures IsMatched(xs, ys[j]) <==> CanonMembers(ys)[j] in CanonMembers(xs)
  {
    var y, cx := ys[j], CanonMembers(xs);
    if IsMatched(xs, y) {
      var i :| 0 <= i < |xs| && xs[i].key == y.key && Same(xs[i].value, y.value);
      assert cx[i] == CanonMembers(ys)[j];
    }
    if CanonMembers(ys)[j] in cx {
      var i :| 0 <= i < |cx| && cx[i] == CanonMembers(ys)[j];
      assert xs[i].key == y.key && Same(xs[i].value, y.value);
    }
  }

  ghost predicate Includes(cx: seq<Member>, cy: seq<Member>) {
    forall i :: 0 <= i < |cx| ==> cx[i] in cy
  }

  lemma {:induction false} MatchesAreIncluded(xs: seq<Member>, ys: seq<Member>)
    requires Decided(xs, ys)
    ensures AllHaveMatches(xs, ys) <==> Includes(CanonMembers(xs), CanonMembers(ys))
    ensures AllAreMatched(xs, ys) <==> Includes(CanonMembers(ys), CanonMembers(xs))
  {
    forall i | 0 <= i < |xs| ensures HasMatch(xs[i], ys) <==> CanonMembers(xs)[i] in CanonMembers(ys) {
      HasMatchIff(xs, ys, i);
    }
    forall j | 0 <= j < |ys| ensures IsMatched(xs, ys[j]) <==> CanonMembers(ys)[j] in CanonMembers(xs) {
      IsMatchedIff(xs, ys, j);
    }
  }

  lemma {:induction false} IncludesIff(cx: seq<Member>, cy: seq<Member>)
    requires NoDuplicates(cx) && NoDuplicates(cy)
    ensures Includes(cx, cy) && Includes(cy, cx) <==> multiset(cx) == multiset(cy)
  {
    PermutationIff(cx, cy);
  }

  lemma {:induction false} ObjectsSame(xs: seq<Member>, ys: seq<Member>)
    requires DistinctKeys(xs) && DistinctKeys(ys) && Decided(xs, ys)
    ensures Same(Obj(xs), Obj(ys)) <==> multiset(CanonMembers(xs)) == multiset(CanonMembers(ys))
  {
    CanonMembersFacts(xs);
    CanonMembersFacts(ys);
    MatchesAreIncluded(xs, ys);
    IncludesIff(CanonMembers(xs), CanonMembers(ys));
  }

  // ---- Facts the texts rely on ----

  lemma {:induction false} CanonTreeLegal(v: Json)
    requires Legal(v)
    ensures Legal(CanonTree(v)) && AllFinite(CanonTree(v)) && Printed(CanonTree(v)) == CanonTree(v)
  {
    match v
    case Arr(xs) =>
      forall i | 0 <= i < |xs| { CanonTreeLegal(xs[i]); }
    case Obj(ms) =>
      CanonMembersFacts(ms);
      var c := CanonTree(v).members;
      forall i | 0 <= i < |c|
        ensures Legal(c[i].value) && AllFinite(c[i].value) && Printed(c[i].value) == c[i].value
      {
        assert c[i] in multiset(c);
        assert c[i] in CanonMembers(ms);
        var j :| 0 <= j < |ms| && CanonMembers(ms)[j] == c[i];
        CanonTreeLegal(ms[j].value);
      }
    case _ =>
  }

  lemma {:induction false} SortValueLegal(v: Json)
    requires Legal(v)
    ensures Legal(SortValue(v))
  {
    match v
    case Arr(xs) =>
      forall i | 0 <= i < |xs| { SortValueLegal(xs[i]); }
    case Obj(ms) =>
      var sorted := seq(|ms|, i requires 0 <= i < |ms| => Member(ms[i].key, SortValue(ms[i].value)));
      assert DistinctKeys(sorted);
      DistinctSorted(sorted);
      var r := SortValue(v).members;
      forall i | 0 <= i < |r| ensures Legal(r[i].value) {
        assert r[i] in multiset(r);
        assert r[i] in sorted;
        var j :| 0 <= j < |ms| && sorted[j] == r[i];
        SortValueLegal(ms[j].value);
      }
    case _ =>
  }

  /** A sorted tree stays as it is, and sorting only moves members. */
  lemma {:induction false} SortValueIdempotent(v: Json)
    requires Legal(v)
    ensures SortValue(SortValue(v)) == SortValue(v)
  {
    match v
    case Arr(xs) =>
      forall i | 0 <= i < |xs| { SortValueIdempotent(xs[i]); }
    case Obj(ms) =>
      var sorted := seq(|ms|, i requires 0 <= i < |ms| => Member(ms[i].key, SortValue(ms[i].value)));
      assert DistinctKeys(sorted);
      DistinctSorted(sorted);
      var r := SortValue(v).members;
      var again := seq(|r|, i requires 0 <= i < |r| => Member(r[i].key, SortValue(r[i].value)));
      forall i | 0 <= i < |r| ensures again[i] == r[i] {
        assert r[i] in multiset(r);
        assert r[i] in sorted;
        var j :| 0 <= j < |ms| && sorted[j] == r[i];
        SortValueIdempotent(ms[j].value);
      }
      assert again == r;
      CanonicalObjectForgetsOrder(r, sorted);
    case _ =>
  }

  /** The canonical form differs from its input by nothing but member order. */
  lemma {:induction false} CanonTreeSame(v: Json)
    requires Legal(v)
    ensures Same(v, CanonTree(v)) && CanonTree(CanonTree(v)) == CanonTree(v)
  {
    CanonTreeLegal(v);
    CanonTreeIdempotent(v);
    CanonTreeIffSame(v, CanonTree(v));
  }

  lemma {:induction false} CanonTreeIdempotent(v: Json)
    requires Legal(v)
    ensures CanonTree(CanonTree(v)) == CanonTree(v)
  {
    match v
    case Arr(xs) =>
      forall i | 0 <= i < |xs| { CanonTreeIdempotent(xs[i]); }
    case Obj(ms) =>
      CanonMembersFacts(ms);
      var c := CanonTree(v).members;
      forall i | 0 <= i < |c| ensures CanonMembers(c)[i] == c[i] {
        assert c[i] in multiset(c);
        assert c[i] in CanonMembers(ms);
        var j :| 0 <= j < |ms| && CanonMembers(ms)[j] == c[i];
        CanonTreeIdempotent(ms[j].value);
      }
      assert CanonMembers(c) == c;
      CanonicalObjectForgetsOrder(c, CanonMembers(ms));
    case _ =>
  }

  // ---- Sorted trees are equal exactly for reordered values ----

  function SortedMembers(ms: seq<Member>): seq<Member> {
    seq(|ms|, i requires 0 <= i < |ms| => Member(ms[i].key, SortValue(ms[i].value)))
  }

  /** On these members equality of sorted trees decides reordering. */
  ghost predicate SortDecides(xs: seq<Member>, ys: seq<Member>) {
    forall i, j :: 0 <= i < |xs| && 0 <= j < |ys| ==>
      (SortValue(xs[i].value) == SortValue(ys[j].value) <==> Reordered(xs[i].value, ys[j].value))
  }

  lemma {:induction false} KeyAt(ms: seq<Member>, key: Str) returns (i: nat)
    requires key in KeySet(ms)
    ensures i < |ms| && ms[i].key == key
  {
    i :| 0 <= i < |ms| && ms[i].key == key;
  }

  /** The sorted members of `xs` are among those of `ys`. */
  ghost predicate SortedInto(xs: seq<Member>, ys: seq<Member>) {
    forall i :: 0 <= i < |xs| ==> SortedMembers(xs)[i] in SortedMembers(ys)
  }

  lemma {:induction false} ReorderedIntoSorted(xs: seq<Member>, ys: seq<Member>)
    requires SortDecides(xs, ys) && Reordered(Obj(xs), Obj(ys))
    ensures SortedInto(xs, ys)
  {
    hide SortValue;
    forall i | 0 <= i < |xs| ensures SortedMembers(xs)[i] in SortedMembers(ys) {
      assert xs[i].key in KeySet(xs);
      var j := KeyAt(ys, xs[i].key);
      assert Reordered(xs[i].value, ys[j].value);
      assert SortedMembers(ys)[j] == SortedMembers(xs)[i];
    }
  }

  lemma {:induction false} ReorderedFromSorted(xs: seq<Member>, ys: seq<Member>)
    requires SortDecides(xs, ys) && Reordered(Obj(xs), Obj(ys))
    ensures SortedInto(ys, xs)
  {
    hide SortValue;
    forall j | 0 <= j < |ys| ensures SortedMembers(ys)[j] in SortedMembers(xs) {
      assert ys[j].key in KeySet(ys);
      var i := KeyAt(xs, ys[j].key);
      assert Reordered(xs[i].value, ys[j].value);
      assert SortedMembers(xs)[i] == SortedMembers(ys)[j];
    }
  }

  lemma {:induction false} SortedKeys(xs: seq<Member>, ys: seq<Member>)
    requires SortedInto(xs, ys)
    ensures KeySet(xs) <= KeySet(ys)
  {
    hide SortValue;
    forall key | key in KeySet(xs) ensures key in KeySet(ys) {
      var i := KeyAt(xs, key);
      var m := SortedMembers(xs)[i];
      var j :| 0 <= j < |ys| && SortedMembers(ys)[j] == m;
      assert ys[j].key == key;
    }
  }

  lemma {:induction false} SortedIntoReordered(xs: seq<Member>, ys: seq<Member>)
    requires DistinctKeys(ys) && SortDecides(xs, ys) && SortedInto(xs, ys) && SortedInto(ys, xs)
    ensures Reordered(Obj(xs), Obj(ys))
  {
    hide SortValue;
    SortedKeys(xs, ys);
    SortedKeys(ys, xs);
    forall i, j | 0 <= i < |xs| && 0 <= j < |ys| && xs[i].key == ys[j].key ensures Reordered(xs[i].value, ys[j].value) {
      var m := SortedMembers(xs)[i];
      var k :| 0 <= k < |ys| && SortedMembers(ys)[k] == m;
      assert ys[k].key == ys[j].key && k == j;
    }
  }

  lemma {:induction false} SortedMembersDistinct(ms: seq<Member>)
    requires DistinctKeys(ms)
    ensures DistinctKeys(SortedMembers(ms)) && NoDuplicates(SortedMembers(ms))
  {
    hide SortValue;
  }

  lemma {:induction false} SortedObject(ms: seq<Member>)
    ensures SortValue(Obj(ms)) == Obj(FromEntries(Sort(SortedMembers(ms), KeyLess)))
  {
    hide FromEntries, Sort;
  }

  lemma {:induction false} SortedIntoIff(xs: seq<Member>, ys: seq<Member>)
    requires DistinctKeys(xs) && DistinctKeys(ys)
    ensures multiset(SortedMembers(xs)) == multiset(SortedMembers(ys)) <==> SortedInto(xs, ys) && SortedInto(ys, xs)
  {
    hide SortValue, DistinctKeys;
    SortedMembersDistinct(xs);
    SortedMembersDistinct(ys);
    PermutationIff(SortedMembers(xs), SortedMembers(ys));
  }

  lemma {:induction false} SortedObjectsReordered(xs: seq<Member>, ys: seq<Member>)
    requires DistinctKeys(xs) && DistinctKeys(ys) && SortDecides(xs, ys)
    ensures SortValue(Obj(xs)) == SortValue(Obj(ys)) <==> Reordered(Obj(xs), Obj(ys))
  {
    hide SortValue, Reordered, SortedMembers, SortedInto, SortDecides, DistinctKeys, NoDuplicates, FromEntries, Sort;
    SortedObject(xs);
    SortedObject(ys);
    SortedMembersDistinct(xs);
    SortedMembersDistinct(ys);
    CanonicalObjectForgetsOrder(SortedMembers(xs), SortedMembers(ys));
    SortedIntoIff(xs, ys);
    if Reordered(Obj(xs), Obj(ys)) {
      ReorderedIntoSorted(xs, ys);
      ReorderedFromSorted(xs, ys);
    }
    if SortedInto(xs, ys) && SortedInto(ys, xs) {
      SortedIntoReordered(xs, ys);
    }
  }

  /** `sortValue` maps two values to one tree exactly when they differ in nothing but the order of members. */
  lemma {:induction false} SortValueIffReordered(a: Json, b: Json)
    requires Legal(a) && Legal(b)
    ensures SortValue(a) == SortValue(b) <==> Reordered(a, b)
    decreases a
  {
    match (a, b)
    case (Arr(xs), Arr(ys)) =>
      forall i | 0 <= i < |xs| && i < |ys| { SortValueIffReordered(xs[i], ys[i]); }
      if SortValue(a) == SortValue(b) {
        assert |xs| == |SortValue(a).items| == |ys|;
        forall i | 0 <= i < |xs| ensures Reordered(xs[i], ys[i]) {
          assert SortValue(a).items[i] == SortValue(b).items[i];
        }
      }
    case (Obj(xs), Obj(ys)) =>
      forall i, j | 0 <= i < |xs| && 0 <= j < |ys| { SortValueIffReordered(xs[i].value, ys[j].value); }
      SortedObjectsReordered(xs, ys);
    case _ =>
  }
}
