/** JSON values as JavaScript holds them: objects list their members in own-property order. */
module JsonValue {
  import opened Options
  import opened Text
  import opened Sorting

  /** A double. `Int` is an integer that prints without an exponent; `Frac` is any other finite number except
      -0, named by its `Number::toString` text (section 6.1.6.1.20 of ECMA-262), which is unique to it. */
  datatype Number = Int(value: int) | Frac(text: Str) | NegZero | NaN | Infinity(negative: bool)

  datatype Json =
    | Null
    | Bool(b: bool)
    | Num(n: Number)
    | String(s: Str)
    | Arr(items: seq<Json>)
    | Obj(members: seq<Member>)

  datatype Member = Member(key: Str, value: Json)

  const INT_LIMIT := 1_000_000_000_000_000_000_000

  // ---- Own-property order (section 10.1.11 of ECMA-262) ----

  function NatOf(digits: Str): nat
    requires forall u :: u in digits ==> IsDigit(u)
  {
    if digits == [] then 0
    else
      var last: int := digits[|digits| - 1];
      assert IsDigit(digits[|digits| - 1]);
      NatOf(digits[..|digits| - 1]) * 10 + (last - 0x30)
  }

  predicate PlainDigits(s: Str) {
    s != [] && (forall u :: u in s ==> IsDigit(u)) && (|s| == 1 || s[0] != 0x30)
  }

  predicate IsArrayIndex(key: Str) {
    PlainDigits(key) && NatOf(key) < 0xFFFF_FFFF
  }

  /** Array indices come first, ascending; all other keys keep the order they were created in. */
  predicate OwnBefore(a: Member, b: Member) {
    IsArrayIndex(a.key) && (IsArrayIndex(b.key) ==> NatOf(a.key) < NatOf(b.key))
  }

  predicate KeyLess(a: Member, b: Member) {
    StrLess(a.key, b.key)
  }

  lemma {:induction false} MemberOrders()
    ensures StrictWeakOrder(OwnBefore) && StrictWeakOrder(KeyLess)
    ensures forall a: Member, b: Member :: a.key != b.key ==> KeyLess(a, b) || KeyLess(b, a)
  {
    StrLessIsTotal();
  }

  ghost predicate DistinctKeys(ms: seq<Member>) {
    forall i, j :: 0 <= i < j < |ms| ==> ms[i].key != ms[j].key
  }

  /** One `CreateDataProperty`: a key already there keeps its place and takes the new value. */
  function Put(ms: seq<Member>, m: Member): seq<Member> {
    if ms == [] then [m]
    else if ms[0].key == m.key then [m] + ms[1..]
    else [ms[0]] + Put(ms[1..], m)
  }

  function PutAll(acc: seq<Member>, ms: seq<Member>): seq<Member>
    decreases |ms|
  {
    if ms == [] then acc else PutAll(Put(acc, ms[0]), ms[1..])
  }

  /** `Object.fromEntries`, and the object `JSON.parse` builds. */
  function FromEntries(ms: seq<Member>): seq<Member> {
    Sort(PutAll([], ms), OwnBefore)
  }

  lemma {:induction false} PutNew(ms: seq<Member>, m: Member)
    requires forall x :: x in ms ==> x.key != m.key
    ensures Put(ms, m) == ms + [m]
  {
    if ms != [] {
      PutNew(ms[1..], m);
      assert ms == [ms[0]] + ms[1..];
    }
  }

  lemma {:induction false} PutAllNew(acc: seq<Member>, ms: seq<Member>)
    requires DistinctKeys(acc + ms)
    ensures PutAll(acc, ms) == acc + ms
    decreases |ms|
  {
    if ms != [] {
      assert (acc + ms)[|acc|] == ms[0];
      forall x | x in acc ensures x.key != ms[0].key {
        var i :| 0 <= i < |acc| && acc[i] == x;
        assert (acc + ms)[i] == x;
      }
      PutNew(acc, ms[0]);
      assert acc + [ms[0]] + ms[1..] == acc + ms;
      PutAllNew(acc + [ms[0]], ms[1..]);
    }
  }

  lemma {:induction false} DistinctKeysPermute(xs: seq<Member>, ys: seq<Member>)
    requires DistinctKeys(xs) && multiset(xs) == multiset(ys)
    ensures DistinctKeys(ys)
  {
    NoDuplicatesPermute(xs, ys);
    forall i, j | 0 <= i < j < |ys| ensures ys[i].key != ys[j].key {
      assert ys[i] in multiset(ys) && ys[j] in multiset(ys);
      assert ys[i] in xs && ys[j] in xs;
      var k :| 0 <= k < |xs| && xs[k] == ys[i];
      var l :| 0 <= l < |xs| && xs[l] == ys[j];
    }
  }

  /** With distinct keys, building the object only moves members. */
  lemma {:induction false} FromEntriesPermutes(ms: seq<Member>)
    requires DistinctKeys(ms)
    ensures multiset(FromEntries(ms)) == multiset(ms) && FromEntries(ms) == Sort(ms, OwnBefore)
    ensures DistinctKeys(FromEntries(ms)) && Sorted(FromEntries(ms), OwnBefore)
  {
    assert [] + ms == ms;
    PutAllNew([], ms);
    MemberOrders();
    SortPermutes(ms, OwnBefore);
    SortSorts(ms, OwnBefore);
    DistinctKeysPermute(ms, FromEntries(ms));
  }

  // ---- Which trees are JavaScript values ----

  predicate AllDigits(s: Str) {
    s != [] && forall u :: u in s ==> IsDigit(u)
  }

  function Unsigned(t: Str): Str {
    if t != [] && t[0] == 0x2D then t[1..] else t
  }

  predicate NumberUnit(u: CodeUnit) {
    IsDigit(u) || u == 0x2D || u == 0x2B || u == DOT || u == 0x65 || u == 0x45
  }

  /** A number with a fraction or an exponent, in the grammar of section 6 of RFC 8259. */
  predicate FracText(t: Str) {
    var body := Unsigned(t);
    && (forall u :: u in t ==> NumberUnit(u)) && body != [] && IsDigit(body[0])
    && (DOT in body || 0x65 in body) && FracGrammar(body)
  }

  predicate FracGrammar(body: Str) {
    var mantissaExp := Split(body, 0x65);
    var intFrac := Split(mantissaExp[0], DOT);
    && |mantissaExp| <= 2 && |intFrac| <= 2
    && PlainDigits(intFrac[0]) && (|intFrac| == 2 ==> AllDigits(intFrac[1]))
    && (|mantissaExp| == 2 ==>
          && mantissaExp[1] != [] && (mantissaExp[1][0] == 0x2B || mantissaExp[1][0] == 0x2D)
          && AllDigits(mantissaExp[1][1..]))
  }

  predicate LegalNumber(n: Number) {
    match n
    case Int(v) => -INT_LIMIT < v < INT_LIMIT
    case Frac(t) => FracText(t)
    case _ => true
  }

  /** Every value JavaScript can hold: distinct keys in own-property order at every depth. */
  ghost predicate Legal(v: Json) {
    match v
    case Num(n) => LegalNumber(n)
    case Arr(xs) => forall i :: 0 <= i < |xs| ==> Legal(xs[i])
    case Obj(ms) =>
      DistinctKeys(ms) && Sorted(ms, OwnBefore) && forall i :: 0 <= i < |ms| ==> Legal(ms[i].value)
    case _ => true
  }

  /** What `JSON.stringify` keeps of a leaf: -0 prints as 0 and a non-finite number as null. */
  function Leaf(v: Json): Json {
    match v
    case Num(NegZero) => Num(Int(0))
    case Num(NaN) => Null
    case Num(Infinity(_)) => Null
    case _ => v
  }

  /** Agreement up to the order of members at every depth (and up to `Leaf`): the reference the canonical
      texts are measured against. */
  ghost predicate Same(a: Json, b: Json)
    decreases a
  {
    match (a, b)
    case (Arr(xs), Arr(ys)) => |xs| == |ys| && forall i :: 0 <= i < |xs| ==> Same(xs[i], ys[i])
    case (Obj(xs), Obj(ys)) => AllHaveMatches(xs, ys) && AllAreMatched(xs, ys)
    case (Arr(_), _) => false
    case (Obj(_), _) => false
    case _ => Leaf(a) == Leaf(b)
  }

  ghost predicate AllHaveMatches(xs: seq<Member>, ys: seq<Member>)
    decreases xs, 1
  {
    forall i :: 0 <= i < |xs| ==> HasMatch(xs[i], ys)
  }

  ghost predicate AllAreMatched(xs: seq<Member>, ys: seq<Member>)
    decreases xs, 1
  {
    forall j :: 0 <= j < |ys| ==> IsMatched(xs, ys[j])
  }

  /** `ys` has a member with the key of `x` and a value that agrees with it. */
  ghost predicate HasMatch(x: Member, ys: seq<Member>)
    decreases x
  {
    exists j :: 0 <= j < |ys| && x.key == ys[j].key && Same(x.value, ys[j].value)
  }

  ghost predicate IsMatched(xs: seq<Member>, y: Member)
    decreases xs, 0
  {
    exists i :: 0 <= i < |xs| && xs[i].key == y.key && Same(xs[i].value, y.value)
  }

  function KeySet(ms: seq<Member>): set<Str> {
    set i | 0 <= i < |ms| :: ms[i].key
  }

  /** The same value with the members of its objects in another order, at any depth: equal leaves, arrays item by item,
      and objects with the same keys and reordered values under each of them. */
  ghost predicate Reordered(a: Json, b: Json)
    decreases a
  {
    match (a, b)
    case (Arr(xs), Arr(ys)) => |xs| == |ys| && forall i :: 0 <= i < |xs| ==> Reordered(xs[i], ys[i])
    case (Obj(xs), Obj(ys)) =>
      KeySet(xs) == KeySet(ys)
      && forall i, j :: 0 <= i < |xs| && 0 <= j < |ys| && xs[i].key == ys[j].key ==> Reordered(xs[i].value, ys[j].value)
    case _ => a == b
  }

  // ---- Reading properties ----

  /** `v.key` for a key that no prototype defines; `None` is `undefined`. */
  function Get(v: Json, key: Str): Option<Json> {
    if v.Obj? then Lookup(v.members, key) else None
  }

  function Lookup(ms: seq<Member>, key: Str): (r: Option<Json>)
    ensures r.Some? <==> exists m :: m in ms && m.key == key
    ensures r.Some? ==> Member(key, r.value) in ms
  {
    if ms == [] then None
    else if ms[0].key == key then
      assert ms[0] in ms;
      Some(ms[0].value)
    else
      assert forall m :: m in ms <==> m == ms[0] || m in ms[1..];
      Lookup(ms[1..], key)
  }

  lemma {:induction false} LookupIsThe(ms: seq<Member>, key: Str, value: Json)
    requires DistinctKeys(ms) && Member(key, value) in ms
    ensures Lookup(ms, key) == Some(value)
  {
    var r := Lookup(ms, key);
    var i :| 0 <= i < |ms| && ms[i] == Member(key, value);
    var j :| 0 <= j < |ms| && ms[j] == Member(key, r.value);
  }
}
