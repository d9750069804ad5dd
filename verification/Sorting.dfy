/** The stable sort of `Array.prototype.sort` with a comparison, and when its result does not depend on the
    order of its input. */
module Sorting {

  /** `lt` is a strict weak order: a comparator may call two different elements equal. */
  ghost predicate StrictWeakOrder<T(!new)>(lt: (T, T) -> bool) {
    && (forall x :: !lt(x, x))
    && (forall x, y, z :: lt(x, y) && lt(y, z) ==> lt(x, z))
    && (forall x, y, z :: lt(x, z) ==> lt(x, y) || lt(y, z))
  }

  /** No two different elements of `xs` compare as equal. */
  ghost predicate Separates<T(!new)>(lt: (T, T) -> bool, xs: seq<T>) {
    forall x, y :: x in xs && y in xs && x != y ==> lt(x, y) || lt(y, x)
  }

  ghost predicate Sorted<T(!new)>(xs: seq<T>, lt: (T, T) -> bool) {
    forall i, j :: 0 <= i < j < |xs| ==> !lt(xs[j], xs[i])
  }

  predicate NoDuplicates<T(==)>(xs: seq<T>) {
    forall i, j :: 0 <= i < j < |xs| ==> xs[i] != xs[j]
  }

  /** Puts `x`, which came before every element of `xs`, in front of the first element not below it. */
  function Insert<T>(x: T, xs: seq<T>, lt: (T, T) -> bool): seq<T> {
    if xs == [] || !lt(xs[0], x) then [x] + xs else [xs[0]] + Insert(x, xs[1..], lt)
  }

  function Sort<T>(xs: seq<T>, lt: (T, T) -> bool): seq<T> {
    if xs == [] then [] else Insert(xs[0], Sort(xs[1..], lt), lt)
  }

  lemma {:induction false} InsertPermutes<T(!new)>(x: T, xs: seq<T>, lt: (T, T) -> bool)
    ensures multiset(Insert(x, xs, lt)) == multiset{x} + multiset(xs)
  {
    if xs == [] || !lt(xs[0], x) {
    } else {
      InsertPermutes(x, xs[1..], lt);
      assert xs == [xs[0]] + xs[1..];
    }
  }

  lemma {:induction false} SortPermutes<T(!new)>(xs: seq<T>, lt: (T, T) -> bool)
    ensures multiset(Sort(xs, lt)) == multiset(xs)
    ensures |Sort(xs, lt)| == |xs|
    ensures forall x :: x in Sort(xs, lt) <==> x in xs
  {
    if xs != [] {
      SortPermutes(xs[1..], lt);
      InsertPermutes(xs[0], Sort(xs[1..], lt), lt);
      assert xs == [xs[0]] + xs[1..];
    }
    assert |multiset(Sort(xs, lt))| == |multiset(xs)|;
    forall x ensures x in Sort(xs, lt) <==> x in xs {
      assert x in Sort(xs, lt) <==> x in multiset(Sort(xs, lt));
      assert x in xs <==> x in multiset(xs);
    }
  }

  lemma {:induction false} InsertSorts<T(!new)>(x: T, xs: seq<T>, lt: (T, T) -> bool)
    requires StrictWeakOrder(lt) && Sorted(xs, lt)
    ensures Sorted(Insert(x, xs, lt), lt)
  {
    if xs == [] || !lt(xs[0], x) {
      var r := [x] + xs;
      forall i, j | 0 <= i < j < |r| ensures !lt(r[j], r[i]) {
        if i == 0 && j > 1 {
          assert !lt(xs[j - 1], xs[0]);
        }
      }
    } else {
      InsertSorts(x, xs[1..], lt);
      InsertPermutes(x, xs[1..], lt);
      var t := Insert(x, xs[1..], lt);
      forall i, j | 0 <= i < j < |t| + 1 ensures !lt(([xs[0]] + t)[j], ([xs[0]] + t)[i]) {
        if i == 0 {
          assert t[j - 1] in multiset(t);
          assert t[j - 1] == x || t[j - 1] in xs[1..];
        }
      }
    }
  }

  lemma {:induction false} SortSorts<T(!new)>(xs: seq<T>, lt: (T, T) -> bool)
    requires StrictWeakOrder(lt)
    ensures Sorted(Sort(xs, lt), lt)
  {
    if xs != [] {
      SortSorts(xs[1..], lt);
      InsertSorts(xs[0], Sort(xs[1..], lt), lt);
    }
  }

  lemma {:induction false} SortedHeadsAgree<T(!new)>(a: seq<T>, b: seq<T>, lt: (T, T) -> bool)
    requires a != [] && b != [] && a[0] in b && b[0] in a
    requires Sorted(a, lt) && Sorted(b, lt) && Separates(lt, a)
    ensures a[0] == b[0]
  {
    var i :| 0 <= i < |b| && b[i] == a[0];
    var j :| 0 <= j < |a| && a[j] == b[0];
    assert i > 0 ==> !lt(b[i], b[0]);
    assert j > 0 ==> !lt(a[j], a[0]);
  }

  lemma {:induction false} DropCommonHead<T(!new)>(a: seq<T>, b: seq<T>)
    requires multiset(a) == multiset(b) && a != [] && b != [] && a[0] == b[0]
    ensures multiset(a[1..]) == multiset(b[1..])
  {
    assert a == [a[0]] + a[1..] && b == [b[0]] + b[1..];
    assert multiset(a[1..]) == multiset(a) - multiset{a[0]};
  }

  lemma {:induction false} SortedIsUnique<T(!new)>(a: seq<T>, b: seq<T>, lt: (T, T) -> bool)
    requires Sorted(a, lt) && Sorted(b, lt) && multiset(a) == multiset(b) && Separates(lt, a)
    ensures a == b
  {
    assert |multiset(a)| == |a| && |multiset(b)| == |b|;
    if a != [] {
      assert a[0] in multiset(b) && b[0] in multiset(a);
      SortedHeadsAgree(a, b, lt);
      DropCommonHead(a, b);
      SortedIsUnique(a[1..], b[1..], lt);
      assert a == [a[0]] + a[1..] && b == [b[0]] + b[1..];
    }
  }

  /** Where the comparison separates the elements, sorting forgets the order they came in. */
  lemma {:induction false} SortForgetsOrder<T(!new)>(xs: seq<T>, ys: seq<T>, lt: (T, T) -> bool)
    requires StrictWeakOrder(lt) && multiset(xs) == multiset(ys) && Separates(lt, xs)
    ensures Sort(xs, lt) == Sort(ys, lt)
  {
    SortPermutes(xs, lt);
    SortPermutes(ys, lt);
    SortSorts(xs, lt);
    SortSorts(ys, lt);
    SortedIsUnique(Sort(xs, lt), Sort(ys, lt), lt);
  }

  /** Position of the first `x`. */
  function IndexOf<T(==)>(xs: seq<T>, x: T): (i: nat)
    requires x in xs
    ensures i < |xs| && xs[i] == x
  {
    if xs[0] == x then 0 else 1 + IndexOf(xs[1..], x)
  }

  lemma {:induction false} InsertKeepsPlaces<T(!new)>(x: T, xs: seq<T>, lt: (T, T) -> bool, p: T, q: T)
    requires StrictWeakOrder(lt) && x !in xs && NoDuplicates(xs)
    requires q in xs && !lt(p, q) && !lt(q, p)
    requires p == x || (p in xs && IndexOf(xs, p) < IndexOf(xs, q))
    ensures p in Insert(x, xs, lt) && q in Insert(x, xs, lt)
    ensures IndexOf(Insert(x, xs, lt), p) < IndexOf(Insert(x, xs, lt), q)
  {
    InsertPermutes(x, xs, lt);
    var r := Insert(x, xs, lt);
    assert p in multiset(r) && q in multiset(r);
    if xs == [] || !lt(xs[0], x) {
    } else {
      assert xs[0] != q || p != x;
      if xs[0] == p {
      } else {
        InsertKeepsPlaces(x, xs[1..], lt, p, q);
        assert r == [xs[0]] + Insert(x, xs[1..], lt);
        assert r[1..] == Insert(x, xs[1..], lt);
      }
    }
  }

  /** Stability: elements that compare as equal keep their input order. */
  lemma {:induction false} SortIsStable<T(!new)>(xs: seq<T>, lt: (T, T) -> bool, p: T, q: T)
    requires StrictWeakOrder(lt) && NoDuplicates(xs) && p != q && !lt(p, q) && !lt(q, p)
    requires p in xs && q in xs && IndexOf(xs, p) < IndexOf(xs, q)
    ensures p in Sort(xs, lt) && q in Sort(xs, lt)
    ensures IndexOf(Sort(xs, lt), p) < IndexOf(Sort(xs, lt), q)
  {
    var t := Sort(xs[1..], lt);
    SortPermutes(xs[1..], lt);
    NoDuplicatesPermute(xs[1..], t);
    assert xs[0] !in xs[1..];
    if xs[0] != p {
      SortIsStable(xs[1..], lt, p, q);
    }
    InsertKeepsPlaces(xs[0], t, lt, p, q);
  }

  lemma {:induction false} NoDuplicatesPermute<T(!new)>(xs: seq<T>, ys: seq<T>)
    requires NoDuplicates(xs) && multiset(xs) == multiset(ys)
    ensures NoDuplicates(ys)
  {
    if i, j :| 0 <= i < j < |ys| && ys[i] == ys[j] {
      var x := ys[i];
      assert ys == ys[..i] + [x] + ys[i + 1..j] + [x] + ys[j + 1..];
      assert multiset(ys)[x] >= 2;
      OnlyOnce(xs, x);
    }
  }

  lemma {:induction false} OnlyOnce<T(!new)>(xs: seq<T>, x: T)
    requires NoDuplicates(xs)
    ensures multiset(xs)[x] <= 1
  {
    if xs != [] {
      OnlyOnce(xs[1..], x);
      assert xs == [xs[0]] + xs[1..];
      if xs[0] == x {
        assert x !in xs[1..];
        assert multiset(xs[1..])[x] == 0;
      }
    }
  }

  function Reversed<T>(xs: seq<T>): seq<T> {
    seq(|xs|, i requires 0 <= i < |xs| => xs[|xs| - 1 - i])
  }

  lemma {:induction false} ReversedConcat<T(!new)>(xs: seq<T>, ys: seq<T>)
    ensures Reversed(xs + ys) == Reversed(ys) + Reversed(xs)
  {
  }

  lemma {:induction false} ReversedPermutes<T(!new)>(xs: seq<T>)
    ensures multiset(Reversed(xs)) == multiset(xs)
  {
    if xs != [] {
      ReversedPermutes(xs[1..]);
      assert xs == [xs[0]] + xs[1..];
      assert Reversed(xs) == Reversed(xs[1..]) + [xs[0]];
    }
  }

  lemma {:induction false} ReversedPlaces<T(!new)>(xs: seq<T>, p: T, q: T)
    requires NoDuplicates(xs) && p in xs && q in xs && IndexOf(xs, p) < IndexOf(xs, q)
    ensures p in Reversed(xs) && q in Reversed(xs) && IndexOf(Reversed(xs), q) < IndexOf(Reversed(xs), p)
  {
    var ys, i, j := Reversed(xs), IndexOf(xs, p), IndexOf(xs, q);
    assert ys[|xs| - 1 - j] == q && ys[|xs| - 1 - i] == p;
    assert NoDuplicates(ys);
  }

  /** Elements that compare as equal come out in the other order from the reversed list. */
  lemma {:induction false} ReversalShows<T(!new)>(xs: seq<T>, lt: (T, T) -> bool)
    requires StrictWeakOrder(lt) && NoDuplicates(xs) && !Separates(lt, xs)
    ensures Sort(Reversed(xs), lt) != Sort(xs, lt)
  {
    hide Reversed;
    var p, q :| p in xs && q in xs && p != q && !lt(p, q) && !lt(q, p);
    if IndexOf(xs, q) < IndexOf(xs, p) {
      p, q := q, p;
    }
    ReversedPermutes(xs);
    NoDuplicatesPermute(xs, Reversed(xs));
    ReversedPlaces(xs, p, q);
    SortIsStable(xs, lt, p, q);
    SortIsStable(Reversed(xs), lt, q, p);
  }

  ghost predicate ForgetsOrder<T(!new)>(xs: seq<T>, lt: (T, T) -> bool) {
    forall ys: seq<T> :: multiset(ys) == multiset(xs) ==> Sort(ys, lt) == Sort(xs, lt)
  }

  /** The exact condition: a stable sort of distinct elements forgets their order if and only if the
      comparison separates them. */
  lemma {:induction false} ForgetsOrderIff<T(!new)>(xs: seq<T>, lt: (T, T) -> bool)
    requires StrictWeakOrder(lt) && NoDuplicates(xs)
    ensures ForgetsOrder(xs, lt) <==> Separates(lt, xs)
  {
    if Separates(lt, xs) {
      forall ys: seq<T> | multiset(ys) == multiset(xs) ensures Sort(ys, lt) == Sort(xs, lt) {
        SortForgetsOrder(xs, ys, lt);
      }
    } else {
      ReversedPermutes(xs);
      ReversalShows(xs, lt);
    }
  }

  /** A list already in order is left alone. */
  lemma {:induction false} SortKeepsSorted<T(!new)>(xs: seq<T>, lt: (T, T) -> bool)
    requires Sorted(xs, lt)
    ensures Sort(xs, lt) == xs
  {
    if xs != [] {
      SortKeepsSorted(xs[1..], lt);
      assert xs == [xs[0]] + xs[1..];
    }
  }

  /** Duplicate-free lists are permutations of each other exactly when each holds the other's elements. */
  lemma {:induction false} PermutationIff<T(!new)>(xs: seq<T>, ys: seq<T>)
    requires NoDuplicates(xs) && NoDuplicates(ys)
    ensures multiset(xs) == multiset(ys) <==>
      (forall i :: 0 <= i < |xs| ==> xs[i] in ys) && (forall j :: 0 <= j < |ys| ==> ys[j] in xs)
  {
    if multiset(xs) == multiset(ys) {
      forall i | 0 <= i < |xs| ensures xs[i] in ys { assert xs[i] in multiset(ys); }
      forall j | 0 <= j < |ys| ensures ys[j] in xs { assert ys[j] in multiset(xs); }
    } else {
      var x :| multiset(xs)[x] != multiset(ys)[x];
      OnlyOnce(xs, x);
      OnlyOnce(ys, x);
      assert x in xs <==> x in multiset(xs);
      assert x in ys <==> x in multiset(ys);
    }
  }

  function MapSeq<T, U>(xs: seq<T>, f: T -> U): seq<U> {
    seq(|xs|, i requires 0 <= i < |xs| => f(xs[i]))
  }

  lemma {:induction false} MapConcat<T(!new), U(!new)>(xs: seq<T>, ys: seq<T>, f: T -> U)
    ensures MapSeq(xs + ys, f) == MapSeq(xs, f) + MapSeq(ys, f)
  {
  }

  lemma {:induction false} MapRemoved<T(!new), U(!new)>(xs: seq<T>, j: nat, f: T -> U)
    requires j < |xs|
    ensures multiset(MapSeq(xs, f)) == multiset(MapSeq(xs[..j] + xs[j + 1..], f)) + multiset{f(xs[j])}
    ensures multiset(xs) == multiset(xs[..j] + xs[j + 1..]) + multiset{xs[j]}
  {
    assert xs == xs[..j] + ([xs[j]] + xs[j + 1..]);
    MapConcat(xs[..j], [xs[j]] + xs[j + 1..], f);
    MapConcat([xs[j]], xs[j + 1..], f);
    MapConcat(xs[..j], xs[j + 1..], f);
    assert MapSeq([xs[j]], f) == [f(xs[j])];
  }

  lemma {:induction false} MapPermutes<T(!new), U(!new)>(xs: seq<T>, ys: seq<T>, f: T -> U)
    requires multiset(xs) == multiset(ys)
    ensures multiset(MapSeq(xs, f)) == multiset(MapSeq(ys, f))
  {
    assert |multiset(xs)| == |xs| && |multiset(ys)| == |ys|;
    if xs == [] {
      assert ys == [];
    } else {
      assert xs[0] in multiset(ys);
      var j :| 0 <= j < |ys| && ys[j] == xs[0];
      MapRemoved(xs, 0, f);
      MapRemoved(ys, j, f);
      assert multiset(xs[..0] + xs[1..]) == multiset(xs) - multiset{xs[0]};
      assert multiset(ys[..j] + ys[j + 1..]) == multiset(ys) - multiset{xs[0]};
      MapPermutes(xs[..0] + xs[1..], ys[..j] + ys[j + 1..], f);
    }
  }

  function Elements<T>(xs: seq<T>): set<T> {
    set x | x in xs
  }

  lemma {:induction false} DistinctCount<T(!new)>(xs: seq<T>)
    requires NoDuplicates(xs)
    ensures |Elements(xs)| == |xs|
  {
    if xs != [] {
      DistinctCount(xs[1..]);
      assert xs == [xs[0]] + xs[1..];
      assert Elements(xs) == {xs[0]} + Elements(xs[1..]);
    }
  }

  lemma {:induction false} ElementsBound<T(!new)>(xs: seq<T>)
    ensures |Elements(xs)| <= |xs|
  {
    if xs != [] {
      ElementsBound(xs[1..]);
      assert xs == [xs[0]] + xs[1..];
      assert Elements(xs) == {xs[0]} + Elements(xs[1..]);
    }
  }

  /** A list is as long as its set exactly when nothing repeats. */
  lemma {:induction false} DistinctCountIff<T(!new)>(xs: seq<T>)
    ensures |Elements(xs)| == |xs| <==> NoDuplicates(xs)
  {
    if NoDuplicates(xs) {
      DistinctCount(xs);
    } else {
      var i, j :| 0 <= i < j < |xs| && xs[i] == xs[j];
      var rest := xs[..j] + xs[j + 1..];
      assert xs == xs[..j] + [xs[j]] + xs[j + 1..];
      assert xs[..j][i] == xs[j];
      assert Elements(xs) == Elements(rest);
      ElementsBound(rest);
    }
  }

  /** Pigeonhole: a duplicate-free list inside one of the same length holds all of its elements. */
  lemma {:induction false} SameLengthCovers<T(!new)>(xs: seq<T>, ys: seq<T>)
    requires NoDuplicates(xs) && NoDuplicates(ys) && |xs| == |ys|
    requires forall x :: x in xs ==> x in ys
    ensures forall y :: y in ys ==> y in xs
  {
    DistinctCount(xs);
    DistinctCount(ys);
    if y :| y in ys && y !in xs {
      SubsetSize(Elements(xs) + {y}, Elements(ys));
    }
  }

  lemma {:induction false} SubsetSize<T(!new)>(a: set<T>, b: set<T>)
    requires a <= b
    ensures |a| <= |b|
  {
    assert |b| == |a| + |b - a| by { assert b == a + (b - a); }
  }
}
