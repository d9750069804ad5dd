/** In which order canonical JSON lists the members of an object, said of the keys' texts. */
module CanonicalOrder {
  import opened Text
  import opened Sorting
  import opened JsonValue
  import opened Canonical
  import opened CanonicalText
  import JsonText

  /** An array index (section 6.1.7 of ECMA-262): the decimal text of an integer below 2^32 - 1. */
  ghost predicate IsIndex(key: Str, n: nat) {
    n < 4_294_967_295 && key == JsonText.Digits(n)
  }

  /** Array indices come first, ascending; then the other keys by code unit at their first difference. */
  ghost predicate KeyBefore(a: Str, b: Str) {
    || (exists m :: IsIndex(a, m) && forall n :: IsIndex(b, n) ==> m < n)
    || ((forall m :: !IsIndex(a, m)) && (forall n :: !IsIndex(b, n)) && FirstDiffers(a, b))
  }

  ghost predicate Ascending(ms: seq<Member>) {
    forall i, j :: 0 <= i < j < |ms| ==> KeyBefore(ms[i].key, ms[j].key)
  }

  /** At every depth. */
  ghost predicate AllAscending(v: Json) {
    match v
    case Arr(xs) => forall i :: 0 <= i < |xs| ==> AllAscending(xs[i])
    case Obj(ms) => Ascending(ms) && forall i :: 0 <= i < |ms| ==> AllAscending(ms[i].value)
    case _ => true
  }

  // ---- Array indices ----

  lemma {:induction false} NatOfPositive(s: Str)
    requires s != [] && (forall u :: u in s ==> IsDigit(u)) && s[0] != 0x30
    ensures NatOf(s) >= 1
    decreases |s|
  {
    assert s[0] in s;
    if |s| > 1 {
      var front := s[..|s| - 1];
      assert front[0] == s[0];
      NatOfPositive(front);
      assert s[|s| - 1] in s;
    }
  }

  /** Plain digits are the decimal text of their number. */
  lemma {:induction false} DigitsOfNat(s: Str)
    requires PlainDigits(s)
    ensures JsonText.Digits(NatOf(s)) == s
    decreases |s|
  {
    var front, last := s[..|s| - 1], s[|s| - 1];
    assert last in s && s[0] in s;
    assert s == front + [last];
    if front == [] {
      assert NatOf(front) == 0;
    } else {
      assert front[0] == s[0];
      NatOfPositive(front);
      DigitsOfNat(front);
    }
  }

  lemma {:induction false} ArrayIndexIff(key: Str)
    ensures IsArrayIndex(key) <==> exists n :: IsIndex(key, n)
    ensures IsArrayIndex(key) ==> forall n :: IsIndex(key, n) <==> n == NatOf(key)
  {
    if IsArrayIndex(key) {
      DigitsOfNat(key);
      assert IsIndex(key, NatOf(key));
    }
    forall n | IsIndex(key, n) ensures IsArrayIndex(key) && n == NatOf(key) {
      JsonText.DigitsRoundTrip(n);
    }
  }

  // ---- Objects ----

  lemma {:induction false} IndexOfAt<T(!new)>(xs: seq<T>, i: nat)
    requires NoDuplicates(xs) && i < |xs|
    ensures IndexOf(xs, xs[i]) == i
  {
  }

  /** Two members of the built object, in the order they come out. */
  lemma {:induction false} BuiltOrder(ms: seq<Member>, i: nat, j: nat)
    requires DistinctKeys(ms) && i < j < |FromEntries(Sort(ms, KeyLess))|
    ensures KeyBefore(FromEntries(Sort(ms, KeyLess))[i].key, FromEntries(Sort(ms, KeyLess))[j].key)
  {
    var s, out := Sort(ms, KeyLess), FromEntries(Sort(ms, KeyLess));
    DistinctSorted(ms);
    MemberOrders();
    SortSorts(ms, KeyLess);
    FromEntriesPermutes(s);
    var a, b := out[i], out[j];
    assert a.key != b.key && !OwnBefore(b, a);
    ArrayIndexIff(a.key);
    ArrayIndexIff(b.key);
    hide IsIndex, IsArrayIndex, Sort, FromEntries, KeyLess;
    if IsArrayIndex(a.key) && IsArrayIndex(b.key) {
      DifferentIndices(a.key, b.key);
    } else if !IsArrayIndex(a.key) {
      EqualKeepOrder(s, OwnBefore, i, j);
      LaterIsGreater(s, a, b);
    }
  }

  lemma {:induction false} DifferentIndices(a: Str, b: Str)
    requires IsArrayIndex(a) && IsArrayIndex(b) && a != b
    ensures NatOf(a) != NatOf(b)
  {
    DigitsOfNat(a);
    DigitsOfNat(b);
  }

  /** Elements that compare as equal stay in the order they came in. */
  lemma {:induction false} EqualKeepOrder<T(!new)>(s: seq<T>, lt: (T, T) -> bool, i: nat, j: nat)
    requires StrictWeakOrder(lt) && NoDuplicates(s) && i < j < |Sort(s, lt)|
    requires !lt(Sort(s, lt)[i], Sort(s, lt)[j]) && !lt(Sort(s, lt)[j], Sort(s, lt)[i])
    ensures Sort(s, lt)[i] in s && Sort(s, lt)[j] in s && IndexOf(s, Sort(s, lt)[i]) < IndexOf(s, Sort(s, lt)[j])
  {
    var out := Sort(s, lt);
    hide Sort, StrictWeakOrder;
    SortPermutes(s, lt);
    NoDuplicatesPermute(s, out);
    assert out[i] in multiset(out) && out[j] in multiset(out);
    IndexOfAt(out, i);
    IndexOfAt(out, j);
    if IndexOf(s, out[j]) < IndexOf(s, out[i]) {
      SortIsStable(s, lt, out[j], out[i]);
    }
  }

  lemma {:induction false} LaterIsGreater(s: seq<Member>, a: Member, b: Member)
    requires Sorted(s, KeyLess) && a in s && b in s && IndexOf(s, a) < IndexOf(s, b) && a.key != b.key
    ensures FirstDiffers(a.key, b.key)
  {
    assert !KeyLess(s[IndexOf(s, b)], s[IndexOf(s, a)]);
    MemberOrders();
    assert KeyLess(a, b);
    StrLessIff(a.key, b.key);
  }

  lemma {:induction false} BuiltAscending(ms: seq<Member>)
    requires DistinctKeys(ms)
    ensures Ascending(FromEntries(Sort(ms, KeyLess)))
    ensures forall m :: m in FromEntries(Sort(ms, KeyLess)) ==> m in ms
  {
    DistinctSorted(ms);
    var out := FromEntries(Sort(ms, KeyLess));
    forall i, j | 0 <= i < j < |out| ensures KeyBefore(out[i].key, out[j].key) {
      BuiltOrder(ms, i, j);
    }
    forall m | m in out ensures m in ms {
      assert m in multiset(out);
    }
  }

  /** Main result: in every object of a sorted value and of a canonical tree, at every depth, array indices come first
      in ascending order, and the other keys follow by code unit. */
  lemma {:induction false} SortedIsAscending(v: Json)
    requires Legal(v)
    ensures AllAscending(SortValue(v)) && AllAscending(CanonTree(v))
  {
    hide KeyBefore, FromEntries, Sort, KeyLess;
    match v
    case Arr(xs) =>
      forall i | 0 <= i < |xs| ensures AllAscending(SortValue(xs[i])) && AllAscending(CanonTree(xs[i])) {
        SortedIsAscending(xs[i]);
      }
    case Obj(ms) =>
      forall i | 0 <= i < |ms| ensures AllAscending(SortValue(ms[i].value)) && AllAscending(CanonTree(ms[i].value)) {
        SortedIsAscending(ms[i].value);
      }
      SortedMembersDistinct(ms);
      SortedObject(ms);
      CanonMembersFacts(ms);
      MembersAscending(ms, SortedMembers(ms), SortValue(v).members);
      MembersAscending(ms, CanonMembers(ms), CanonTree(v).members);
    case _ =>
  }

  lemma {:induction false} MembersAscending(ms: seq<Member>, mapped: seq<Member>, out: seq<Member>)
    requires DistinctKeys(mapped) && out == FromEntries(Sort(mapped, KeyLess))
    requires forall m :: m in mapped ==> AllAscending(m.value)
    ensures AllAscending(Obj(out))
  {
    hide FromEntries, Sort, KeyLess, Ascending;
    BuiltAscending(mapped);
    forall i | 0 <= i < |out| ensures AllAscending(out[i].value) {
      assert out[i] in out;
    }
  }

  // ---- One text, letter by letter ----

  const A: Member := Member([0x61], Arr([Num(Int(-12))]))
  const B: Member := Member([0x62], String([0x22, 0x01]))

  lemma {:induction false} SortedPair()
    ensures SortValue(Obj([B, A])) == Obj([A, B])
  {
    assert SortItems(A.value.items) == A.value.items;
    assert SortValue(A.value) == A.value && SortValue(B.value) == B.value;
    assert SortedMembers([B, A]) == [B, A];
    SortedObject([B, A]);
    assert [B, A][1..] == [A] && [A][1..] == [];
    assert KeyLess(A, B) && !KeyLess(B, A);
    assert Sort([A], KeyLess) == [A];
    assert Insert(B, [], KeyLess) == [B] && [A] + [B] == [A, B];
    assert Sort([B, A], KeyLess) == Insert(B, [A], KeyLess) == [A, B];
    assert !IsArrayIndex(A.key) && !IsArrayIndex(B.key) by { assert A.key[0] in A.key && B.key[0] in B.key; }
    assert PutAll([], [A, B]) == [A, B] by { PutAllNew([], [A, B]); assert [] + [A, B] == [A, B]; }
    assert Sort([A, B], OwnBefore) == [A, B] by { SortKeepsSorted([A, B], OwnBefore); }
  }

  const KEY_A: Str := [0x22, 0x61, 0x22, 0x3A, 0x20]
  const KEY_B: Str := [0x22, 0x62, 0x22, 0x3A, 0x20]
  const TEXT_A: Str := [0x5B, LF, 0x20, 0x20, 0x20, 0x20, 0x2D, 0x31, 0x32, LF, 0x20, 0x20, 0x5D]
  const TEXT_B: Str := [0x22, 0x5C, 0x22, 0x5C, 0x75, 0x30, 0x30, 0x30, 0x31, 0x22]
  const GAP: Str := [0x20, 0x20]

  lemma {:induction false} KeyText(key: CodeUnit, k: Str)
    requires key == 0x61 || key == 0x62
    ensures JsonText.QuoteOn([key], k) == [0x22, key, 0x22] + k
  {
    var s: Str := [key];
    assert s[1..] == [] && JsonText.ShortEscape(key).None?;
    assert JsonText.BodyOn([], k) == [0x22] + k;
    assert JsonText.BodyOn(s, k) == [key] + ([0x22] + k);
  }

  lemma {:induction false} ArrayText(k: Str)
    ensures JsonText.PrintOn(A.value, GAP, GAP, k) == TEXT_A + k
  {
    var xs: seq<Json> := [Num(Int(-12))];
    assert JsonText.Digits(12) == JsonText.Digits(1) + [0x32] && JsonText.Digits(1) == [0x31];
    var rest := [LF] + (GAP + ([0x5D] + k));
    assert JsonText.PrintItemsOn(xs, GAP, GAP + GAP, rest) == [0x2D, 0x31, 0x32] + rest;
  }

  lemma {:induction false} SecondText(k: Str)
    ensures JsonText.PrintMembersOn([B], GAP, GAP, k) == KEY_B + (TEXT_B + k)
  {
    var s: Str := [0x22, 0x01];
    var rest: Str := [0x01];
    assert s[1..] == rest && rest[1..] == [];
    assert JsonText.BodyOn([], k) == [0x22] + k;
    assert JsonText.BodyOn(rest, k) == [0x5C, 0x75, 0x30, 0x30, 0x30, 0x31] + ([0x22] + k);
    assert JsonText.BodyOn(s, k) == [0x5C, 0x22] + JsonText.BodyOn(rest, k);
    assert JsonText.QuoteOn(s, k) == TEXT_B + k;
    hide JsonText.QuoteOn, TEXT_B;
    KeyText(0x62, [0x3A] + [0x20] + (TEXT_B + k));
  }

  lemma {:induction false} FirstText(k: Str)
    ensures JsonText.PrintMembersOn([A, B], GAP, GAP, k) ==
      KEY_A + (TEXT_A + ([0x2C, LF] + GAP + JsonText.PrintMembersOn([B], GAP, GAP, k)))
  {
    assert A.key == [0x61] && [A, B][1..] == [B];
    var tail := JsonText.PrintMembersOn([B], GAP, GAP, k);
    var after := [0x2C] + ([LF] + (GAP + tail));
    assert after == [0x2C, LF] + GAP + tail;
    ArrayText(after);
    hide JsonText.QuoteOn, JsonText.PrintOn, TEXT_A;
    KeyText(0x61, [0x3A] + [0x20] + (TEXT_A + after));
    assert JsonText.PrintMembersOn([A, B], GAP, GAP, k) ==
      JsonText.QuoteOn([0x61], [0x3A] + [0x20] + JsonText.PrintOn(A.value, GAP, GAP, after));
  }

  lemma {:induction false} PairText()
    ensures var k: Str := [LF] + ([] + ([0x7D] + [LF]));
      JsonText.PrintOn(Obj([A, B]), GAP, [], [LF]) ==
        [0x7B] + ([LF] + (GAP + JsonText.PrintMembersOn([A, B], GAP, GAP, k)))
  {
    hide JsonText.PrintMembersOn, A, B;
    assert [] + GAP == GAP;
  }

  /** `{"b":"\"\u0001","a":[-12]}` */
  lemma {:induction false} StableTextOfPair()
    ensures StableStringify(Obj([B, A])) ==
      [0x7B] + ([LF] + (GAP + (KEY_A + (TEXT_A + ([0x2C, LF] + GAP + (KEY_B + (TEXT_B + [LF, 0x7D, LF])))))))
  {
    var k: Str := [LF] + ([] + ([0x7D] + [LF]));
    hide JsonText.PrintMembersOn, JsonText.PrintOn, SortValue, A, B, KEY_A, KEY_B, TEXT_A, TEXT_B;
    SortedPair();
    PairText();
    FirstText(k);
    SecondText(k);
    assert k == [LF, 0x7D, LF];
  }
}
