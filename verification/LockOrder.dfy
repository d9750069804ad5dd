/** When the lock-file walk succeeds in every enumeration order, and that what it finds does not depend on it. */
module LockOrder {
  import opened Sorting
  import opened Text
  import opened LockWalk

  // ---- The same tree, enumerated differently ----

  function Names(es: seq<Entry>): set<Str> {
    set i | 0 <= i < |es| :: es[i].name
  }

  ghost predicate SameTree(a: Listing, b: Listing)
    decreases a, 1
  {
    match a
    case Missing => b.Missing?
    case Unreadable => b.Unreadable?
    case Entries(xs) =>
      && b.Entries? && Names(xs) == Names(b.entries)
      && forall i, j :: 0 <= i < |xs| && 0 <= j < |b.entries| && xs[i].name == b.entries[j].name ==>
        SameNode(xs[i].node, b.entries[j].node)
  }

  ghost predicate SameNode(x: Node, y: Node)
    decreases x, 0
  {
    if x.Directory? && y.Directory? then SameTree(x.listing, y.listing) else x == y
  }

  lemma {:induction false} TwinOf(xs: seq<Entry>, ys: seq<Entry>, i: nat) returns (j: nat)
    requires i < |xs| && Names(xs) == Names(ys)
    ensures j < |ys| && ys[j].name == xs[i].name
  {
    assert xs[i].name in Names(ys);
    j :| 0 <= j < |ys| && ys[j].name == xs[i].name;
  }

  lemma {:induction false} SameTreeReflexive(l: Listing)
    requires Valid(l)
    ensures SameTree(l, l)
    decreases l
  {
    hide Names;
    if l.Entries? {
      forall i | 0 <= i < |l.entries| ensures SameNode(l.entries[i].node, l.entries[i].node) {
        if l.entries[i].node.Directory? {
          SameTreeReflexive(l.entries[i].node.listing);
        }
      }
    }
  }

  lemma {:induction false} SameFiles(a: Listing, b: Listing, path: Path)
    requires SameTree(a, b) && FileAt(a, path)
    ensures FileAt(b, path)
    decreases path
  {
    hide Names;
    var i :| 0 <= i < |a.entries| && IsStep(a.entries[i], path);
    var j := TwinOf(a.entries, b.entries, i);
    var x, y := a.entries[i].node, b.entries[j].node;
    assert SameNode(x, y);
    if |path| > 1 {
      SameFiles(x.listing, y.listing, path[1..]);
    }
    assert IsStep(b.entries[j], path);
  }

  lemma {:induction false} SameTreeSymmetric(a: Listing, b: Listing)
    requires SameTree(a, b)
    ensures SameTree(b, a)
    decreases a
  {
    hide Names;
    if a.Entries? {
      forall i, j | 0 <= i < |a.entries| && 0 <= j < |b.entries| && b.entries[j].name == a.entries[i].name
        ensures SameNode(b.entries[j].node, a.entries[i].node)
      {
        assert SameNode(a.entries[i].node, b.entries[j].node);
        if a.entries[i].node.Directory? && b.entries[j].node.Directory? {
          SameTreeSymmetric(a.entries[i].node.listing, b.entries[j].node.listing);
        }
      }
    }
  }

  /** Both enumerations hold the same lock files. */
  lemma {:induction false} SameLocks(base: Path, a: Listing, b: Listing)
    requires SameTree(a, b) && Valid(a) && Valid(b)
    ensures multiset(Locks(base, a)) == multiset(Locks(base, b))
  {
    hide Valid, SameTree, FileAt, Locks;
    LocksDistinct(base, a);
    LocksDistinct(base, b);
    PermutationIff(Locks(base, a), Locks(base, b));
    SameTreeSymmetric(a, b);
    forall p ensures p in Locks(base, a) <==> p in Locks(base, b) {
      LocksIff(base, a, p);
      LocksIff(base, b, p);
      if p in Locks(base, a) {
        SameFiles(a, b, p[|base|..]);
      }
      if p in Locks(base, b) {
        SameFiles(b, a, p[|base|..]);
      }
    }
  }

  lemma {:induction false} SameReadable(a: Listing, b: Listing)
    requires SameTree(a, b) && Readable(a)
    ensures Readable(b)
    decreases a
  {
    hide Names;
    if b.Entries? {
      forall j | 0 <= j < |b.entries| && b.entries[j].node.Directory? && b.entries[j].name !in EXCLUDED
        ensures Readable(b.entries[j].node.listing)
      {
        var i := TwinOf(b.entries, a.entries, j);
        assert SameNode(a.entries[i].node, b.entries[j].node);
        SameReadable(a.entries[i].node.listing, b.entries[j].node.listing);
      }
    }
  }

  // ---- How full the list can be when a directory is entered ----

  /** Lock files below a directory. */
  function Count(l: Listing): nat {
    |Locks([], l)|
  }

  function CountOf(es: seq<Entry>): nat {
    |LocksOf([], es)|
  }

  function CountEntry(e: Entry): nat {
    |EntryLocks([], e)|
  }

  lemma {:induction false} CountAnywhere(base: Path, l: Listing)
    ensures |Locks(base, l)| == Count(l)
    decreases l
  {
    if l.Entries? {
      CountOfAnywhere(base, l.entries);
    }
  }

  lemma {:induction false} CountOfAnywhere(base: Path, es: seq<Entry>)
    ensures |LocksOf(base, es)| == CountOf(es)
    decreases es
  {
    if es != [] {
      CountEntryAnywhere(base, es[0]);
      CountOfAnywhere(base, es[1..]);
    }
  }

  lemma {:induction false} CountEntryAnywhere(base: Path, e: Entry)
    ensures |EntryLocks(base, e)| == CountEntry(e)
    decreases e
  {
    if e.node.Directory? {
      CountAnywhere(base + [e.name], e.node.listing);
      CountAnywhere([] + [e.name], e.node.listing);
    }
  }

  lemma {:induction false} CountConcat(xs: seq<Entry>, ys: seq<Entry>)
    ensures CountOf(xs + ys) == CountOf(xs) + CountOf(ys)
  {
    if xs == [] {
      assert xs + ys == ys;
    } else {
      assert (xs + ys)[1..] == xs[1..] + ys;
      CountConcat(xs[1..], ys);
    }
  }

  predicate Entered(e: Entry) {
    e.node.Directory? && e.name !in EXCLUDED
  }

  /** Every directory the walk enters holds at least `n` lock files at or below it. */
  ghost predicate Heavy(l: Listing, n: int)
    decreases l
  {
    Count(l) >= n && (l.Entries? ==> forall i :: 0 <= i < |l.entries| && Entered(l.entries[i]) ==>
      Heavy(l.entries[i].node.listing, n))
  }

  lemma {:induction false} HeavyMonotone(l: Listing, n: int, m: int)
    requires Heavy(l, n) && m <= n
    ensures Heavy(l, m)
    decreases l
  {
    if l.Entries? {
      forall i | 0 <= i < |l.entries| && Entered(l.entries[i]) ensures Heavy(l.entries[i].node.listing, m) {
        HeavyMonotone(l.entries[i].node.listing, n, m);
      }
    }
  }

  lemma {:induction false} SameHeavy(a: Listing, b: Listing, n: int)
    requires SameTree(a, b) && Valid(a) && Valid(b) && Heavy(a, n)
    ensures Heavy(b, n)
    decreases a
  {
    hide Locks, Names;
    SameLocks([], a, b);
    assert |multiset(Locks([], a))| == |multiset(Locks([], b))|;
    if b.Entries? {
      forall j | 0 <= j < |b.entries| && Entered(b.entries[j]) ensures Heavy(b.entries[j].node.listing, n) {
        var i := TwinOf(b.entries, a.entries, j);
        assert SameNode(a.entries[i].node, b.entries[j].node);
        SameHeavy(a.entries[i].node.listing, b.entries[j].node.listing, n);
      }
    }
  }

  /** With room for everything but the smallest directory, the walk never hits the cap. */
  lemma {:induction false} RoomSuffices(base: Path, l: Listing, result: seq<Path>)
    requires Readable(l) && Heavy(l, |result| + Count(l) - MAX_LOCK_FILES)
    ensures Collect(base, l, result).Ok?
    decreases l
  {
    hide Locks, LocksOf, Count;
    if l.Entries? {
      assert Count(l) == CountOf(l.entries) by { CountIsOf(l); }
      RoomSufficesOf(base, l.entries, result);
    }
  }

  lemma {:induction false} CountIsOf(l: Listing)
    requires l.Entries?
    ensures Count(l) == CountOf(l.entries)
  {
  }

  lemma {:induction false} RoomSufficesOf(base: Path, es: seq<Entry>, result: seq<Path>)
    requires forall i :: 0 <= i < |es| ==> EntryReadable(es[i])
    requires forall i :: 0 <= i < |es| && Entered(es[i]) ==>
      Heavy(es[i].node.listing, |result| + CountOf(es) - MAX_LOCK_FILES)
    ensures CollectEntries(base, es, result).Ok?
    decreases es
  {
    hide Heavy, CountEntry, CountOf, Collect;
    if es != [] {
      var e := es[0];
      CountStep(es);
      CollectedEntry(base, e, result);
      if Entered(e) {
        assert Readable(e.node.listing) by { assert EntryReadable(es[0]); }
        CountEntered(e);
        HeavyMonotone(
          e.node.listing, |result| + CountOf(es) - MAX_LOCK_FILES, |result| + CountEntry(e) - MAX_LOCK_FILES);
        RoomSuffices(base + [e.name], e.node.listing, result);
      }
      var first := CollectEntry(base, e, result);
      assert first.Ok? && |first.value| == |result| + CountEntry(e);
      assert forall i :: 0 < i < |es| ==> es[i] == es[1..][i - 1];
      RoomSufficesOf(base, es[1..], first.value);
    }
  }

  lemma {:induction false} CountStep(es: seq<Entry>)
    requires es != []
    ensures CountOf(es) == CountEntry(es[0]) + CountOf(es[1..])
  {
  }

  lemma {:induction false} CountEntered(e: Entry)
    requires Entered(e)
    ensures CountEntry(e) == Count(e.node.listing)
  {
    CountAnywhere([] + [e.name], e.node.listing);
  }

  lemma {:induction false} CollectedEntry(base: Path, e: Entry, result: seq<Path>)
    ensures CollectEntry(base, e, result).Ok? ==> |CollectEntry(base, e, result).value| == |result| + CountEntry(e)
  {
    hide Locks;
    if Entered(e) {
      CollectsLocks(base + [e.name], e.node.listing, result);
      CountAnywhere(base + [e.name], e.node.listing);
      CountEntered(e);
    }
  }

  /** Otherwise some order enters a light directory after everything else. */
  lemma {:induction false} Delayed(base: Path, l: Listing, n: int) returns (b: Listing)
    requires Valid(l) && !Heavy(l, n)
    ensures SameTree(l, b) && Valid(b)
    ensures forall r :: Collect(base, b, r).Ok? ==> |r| + Count(l) - MAX_LOCK_FILES < n
    decreases l
  {
    hide Count, Collect, SameTree, Valid;
    if Count(l) < n {
      b := l;
      SameTreeReflexive(l);
      forall r | Collect(base, b, r).Ok? ensures |r| <= MAX_LOCK_FILES {
        EntryTest(base, b, r);
      }
    } else {
      var es := l.entries;
      var i :| 0 <= i < |es| && Entered(es[i]) && !Heavy(es[i].node.listing, n);
      ValidChild(l, i);
      var inner := Delayed(base + [es[i].name], es[i].node.listing, n);
      var last := Entry(es[i].name, Directory(inner));
      var front := es[..i] + es[i + 1..];
      b := Entries(front + [last]);
      SameDelayed(es, i, last);
      forall r | Collect(base, b, r).Ok? ensures |r| + Count(l) - MAX_LOCK_FILES < n {
        DelayedCost(base, es, i, last, r);
        var c := CollectEntries(base, front, r).value;
        assert Collect(base + [last.name], inner, c).Ok?;
      }
    }
  }

  lemma {:induction false} ValidChild(l: Listing, i: nat)
    requires l.Entries? && Valid(l) && i < |l.entries| && l.entries[i].node.Directory?
    ensures Valid(l.entries[i].node.listing)
  {
  }

  lemma {:induction false} EntryTest(base: Path, l: Listing, r: seq<Path>)
    requires Collect(base, l, r).Ok?
    ensures |r| <= MAX_LOCK_FILES
  {
  }

  lemma {:induction false} SameDelayed(es: seq<Entry>, i: nat, last: Entry)
    requires i < |es| && Valid(Entries(es)) && Entered(es[i]) && Entered(last) && last.name == es[i].name
    requires SameTree(es[i].node.listing, last.node.listing) && Valid(last.node.listing)
    ensures SameTree(Entries(es), Entries(es[..i] + es[i + 1..] + [last]))
    ensures Valid(Entries(es[..i] + es[i + 1..] + [last]))
  {
    var bs := es[..i] + es[i + 1..] + [last];
    DelayedPlaces(es, i, last);
    hide SameTree, Valid;
    assert Names(es) == Names(bs) by { DelayedNames(es, i, last); }
    SameTreeReflexive(Entries(es));
    assert SameTree(Entries(es), Entries(bs)) by { DelayedNodes(es, i, last); }
    assert Valid(Entries(bs)) by { DelayedValid(es, i, last); }
  }

  /** Where the entries go: `es` without the `i`th, then `last`. */
  lemma {:induction false} DelayedPlaces(es: seq<Entry>, i: nat, last: Entry)
    requires i < |es|
    ensures var bs := es[..i] + es[i + 1..] + [last];
      |bs| == |es| && bs[|es| - 1] == last && forall j :: 0 <= j < |es| - 1 ==> bs[j] == es[if j < i then j else j + 1]
  {
  }

  lemma {:induction false} DelayedNames(es: seq<Entry>, i: nat, last: Entry)
    requires i < |es| && last.name == es[i].name
    ensures Names(es) == Names(es[..i] + es[i + 1..] + [last])
  {
    var bs := es[..i] + es[i + 1..] + [last];
    forall n ensures n in Names(es) <==> n in Names(bs) {
      if n in Names(es) {
        var k :| 0 <= k < |es| && es[k].name == n;
        assert bs[if k < i then k else if k == i then |es| - 1 else k - 1].name == n;
      }
      if n in Names(bs) {
        var j :| 0 <= j < |bs| && bs[j].name == n;
        assert bs[j] == if j == |es| - 1 then last else es[if j < i then j else j + 1];
      }
    }
  }

  lemma {:induction false} DelayedNodes(es: seq<Entry>, i: nat, last: Entry)
    requires i < |es| && Valid(Entries(es)) && Entered(es[i]) && Entered(last) && last.name == es[i].name
    requires SameTree(es[i].node.listing, last.node.listing) && SameTree(Entries(es), Entries(es))
    requires Names(es) == Names(es[..i] + es[i + 1..] + [last])
    ensures SameTree(Entries(es), Entries(es[..i] + es[i + 1..] + [last]))
  {
    hide Names;
    var bs := es[..i] + es[i + 1..] + [last];
    forall k, j | 0 <= k < |es| && 0 <= j < |bs| && es[k].name == bs[j].name
      ensures SameNode(es[k].node, bs[j].node)
    {
      DelayedPlaces(es, i, last);
      var m := if j == |es| - 1 then i else if j < i then j else j + 1;
      assert es[k].name == es[m].name && k == m;
      if j < |es| - 1 {
        assert SameNode(es[k].node, es[m].node);
      }
    }
  }

  lemma {:induction false} DelayedValid(es: seq<Entry>, i: nat, last: Entry)
    requires i < |es| && Valid(Entries(es)) && Entered(last) && last.name == es[i].name && Valid(last.node.listing)
    ensures Valid(Entries(es[..i] + es[i + 1..] + [last]))
  {
    var bs := es[..i] + es[i + 1..] + [last];
    DelayedPlaces(es, i, last);
    forall j, k | 0 <= j < k < |bs| ensures bs[j].name != bs[k].name {
      assert bs[j] == es[if j < i then j else j + 1];
      assert k < |es| - 1 ==> bs[k] == es[if k < i then k else k + 1];
    }
    forall j | 0 <= j < |bs| && bs[j].node.Directory? ensures Valid(bs[j].node.listing) {
      assert bs[j] == if j == |es| - 1 then last else es[if j < i then j else j + 1];
    }
  }

  lemma {:induction false} DelayedCost(base: Path, es: seq<Entry>, i: nat, last: Entry, r: seq<Path>)
    requires i < |es| && Entered(es[i]) && Entered(last) && last.name == es[i].name
    requires Collect(base, Entries(es[..i] + es[i + 1..] + [last]), r).Ok?
    ensures var c := CollectEntries(base, es[..i] + es[i + 1..], r);
      && c.Ok? && Collect(base + [last.name], last.node.listing, c.value).Ok?
      && |c.value| + Count(es[i].node.listing) == |r| + Count(Entries(es))
  {
    hide CollectEntries, LocksOf, CollectEntry;
    var front := es[..i] + es[i + 1..];
    assert Collect(base, Entries(front + [last]), r) == CollectEntries(base, front + [last], r);
    CollectConcat(base, front, [last], r);
    var c := CollectEntries(base, front, r);
    SingleEntry(base, last, c.value);
    CollectsLocksOf(base, front, r);
    CountOfAnywhere(base, front);
    CountIsOf(Entries(es));
    assert es == es[..i] + ([es[i]] + es[i + 1..]);
    CountConcat(es[..i], [es[i]] + es[i + 1..]);
    CountConcat([es[i]], es[i + 1..]);
    CountConcat(es[..i], es[i + 1..]);
    CountStep([es[i]]);
    assert CountOf([es[i]][1..]) == 0 by { EmptyCount(); assert [es[i]][1..] == []; }
    CountEntered(es[i]);
  }

  lemma {:induction false} EmptyCount()
    ensures CountOf([]) == 0
  {
  }

  lemma {:induction false} SingleEntry(base: Path, e: Entry, r: seq<Path>)
    requires Entered(e)
    ensures CollectEntries(base, [e], r) == Collect(base + [e.name], e.node.listing, r)
  {
    hide Collect;
    var es := [e];
    assert es[0] == e && es[1..] == [];
    var first := CollectEntry(base, e, r);
    if first.Ok? {
      assert CollectEntries(base, es[1..], first.value) == first;
    }
  }

  ghost predicate SucceedsInEveryOrder(base: Path, l: Listing) {
    forall b :: SameTree(l, b) && Valid(b) ==> Collect(base, b, []).Ok?
  }

  /** The exact condition: the walk succeeds however the tree is enumerated exactly when every directory it enters is
      readable and holds all but at most 1024 of the lock files. So up to 1024 files always do. */
  lemma {:induction false} SucceedsInEveryOrderIff(base: Path, l: Listing)
    requires Valid(l)
    ensures SucceedsInEveryOrder(base, l) <==> Readable(l) && Heavy(l, Count(l) - MAX_LOCK_FILES)
  {
    hide Collect, Readable, Heavy, SameTree, Valid;
    if Readable(l) && Heavy(l, Count(l) - MAX_LOCK_FILES) {
      forall b | SameTree(l, b) && Valid(b) ensures Collect(base, b, []).Ok? {
        SameReadable(l, b);
        SameHeavy(l, b, Count(l) - MAX_LOCK_FILES);
        SameLocks([], l, b);
        assert |multiset(Locks([], l))| == |multiset(Locks([], b))|;
        RoomSuffices(base, b, []);
      }
    }
    if SucceedsInEveryOrder(base, l) {
      SameTreeReflexive(l);
      CollectsLocks(base, l, []);
      if !Heavy(l, Count(l) - MAX_LOCK_FILES) {
        var b := Delayed(base, l, Count(l) - MAX_LOCK_FILES);
        assert false;
      }
    }
  }

  lemma {:induction false} HeavyNothing(l: Listing, n: int)
    requires n <= 0
    ensures Heavy(l, n)
    decreases l
  {
    if l.Entries? {
      forall i | 0 <= i < |l.entries| && Entered(l.entries[i]) ensures Heavy(l.entries[i].node.listing, n) {
        HeavyNothing(l.entries[i].node.listing, n);
      }
    }
  }

  lemma {:induction false} UpToTheCapAlwaysSucceeds(base: Path, l: Listing)
    requires Valid(l) && Readable(l) && Count(l) <= MAX_LOCK_FILES
    ensures SucceedsInEveryOrder(base, l)
  {
    HeavyNothing(l, Count(l) - MAX_LOCK_FILES);
    SucceedsInEveryOrderIff(base, l);
  }

  /** Two successful walks of one tree sort to the same list, whatever the order of `localeCompare`, provided it tells
      the collected paths apart. */
  lemma {:induction false} SortedListForgetsEnumeration(
    base: Path, a: Listing, b: Listing, locale: (Path, Path) -> bool)
    requires SameTree(a, b) && Valid(a) && Valid(b) && StrictWeakOrder(locale)
    requires Collect(base, a, []).Ok? && Collect(base, b, []).Ok?
    requires Separates(locale, Collect(base, a, []).value)
    ensures Sort(Collect(base, a, []).value, locale) == Sort(Collect(base, b, []).value, locale)
  {
    hide Collect, Locks;
    CollectsLocks(base, a, []);
    CollectsLocks(base, b, []);
    assert [] + Locks(base, a) == Locks(base, a) && [] + Locks(base, b) == Locks(base, b);
    SameLocks(base, a, b);
    SortForgetsOrder(Locks(base, a), Locks(base, b), locale);
  }

  // ---- The tree enumerated backwards ----

  /** The same tree with every directory listed in the opposite order. */
  function Mirror(l: Listing): Listing
    decreases l
  {
    if !l.Entries? then l
    else
      var es := l.entries;
      Entries(seq(|es|, i requires 0 <= i < |es| => MirrorEntry(es[|es| - 1 - i])))
  }

  function MirrorEntry(e: Entry): Entry
    decreases e
  {
    if e.node.Directory? then Entry(e.name, Directory(Mirror(e.node.listing))) else e
  }

  lemma {:induction false} MirrorSame(l: Listing)
    requires Valid(l)
    ensures SameTree(l, Mirror(l))
    decreases l
  {
    hide Names;
    if l.Entries? {
      var es, ms := l.entries, Mirror(l).entries;
      MirrorNames(l);
      forall i, j | 0 <= i < |es| && 0 <= j < |ms| && es[i].name == ms[j].name
        ensures SameNode(es[i].node, ms[j].node)
      {
        MirrorPlace(l, |es| - 1 - j);
        assert es[i].name == es[|es| - 1 - j].name && i == |es| - 1 - j;
        if es[i].node.Directory? {
          MirrorSame(es[i].node.listing);
        }
      }
    }
  }

  lemma {:induction false} MirrorNames(l: Listing)
    requires l.Entries?
    ensures Names(l.entries) == Names(Mirror(l).entries)
  {
    var es, ms := l.entries, Mirror(l).entries;
    forall n ensures n in Names(es) <==> n in Names(ms) {
      if n in Names(es) {
        var i :| 0 <= i < |es| && es[i].name == n;
        MirrorPlace(l, i);
      }
      if n in Names(ms) {
        var j :| 0 <= j < |ms| && ms[j].name == n;
        MirrorPlace(l, |es| - 1 - j);
      }
    }
  }

  lemma {:induction false} MirrorPlace(l: Listing, i: nat)
    requires l.Entries? && i < |l.entries|
    ensures var j := |l.entries| - 1 - i;
      Mirror(l).entries[j] == MirrorEntry(l.entries[i]) && Mirror(l).entries[j].name == l.entries[i].name
  {
  }

  lemma {:induction false} MirrorValid(l: Listing)
    requires Valid(l)
    ensures Valid(Mirror(l))
    decreases l
  {
    if l.Entries? {
      var ms := Mirror(l).entries;
      forall j, k | 0 <= j < k < |ms| ensures ms[j].name != ms[k].name {
        MirrorPlace(l, |ms| - 1 - j);
        MirrorPlace(l, |ms| - 1 - k);
      }
      forall j | 0 <= j < |ms| && ms[j].node.Directory? ensures Valid(ms[j].node.listing) {
        MirrorPlace(l, |ms| - 1 - j);
        MirrorValid(l.entries[|ms| - 1 - j].node.listing);
      }
    }
  }

  lemma {:induction false} MirrorLocks(base: Path, l: Listing)
    ensures Locks(base, Mirror(l)) == Reversed(Locks(base, l))
    decreases l
  {
    if l.Entries? {
      var es, ms := l.entries, Mirror(l).entries;
      forall i | 0 <= i < |es| ensures EntryLocks(base, MirrorEntry(es[i])) == Reversed(EntryLocks(base, es[i])) {
        if es[i].node.Directory? {
          MirrorLocks(base + [es[i].name], es[i].node.listing);
        }
      }
      LocksReversed(base, es, ms);
    }
  }

  lemma {:induction false} LocksReversed(base: Path, es: seq<Entry>, ms: seq<Entry>)
    requires |ms| == |es|
    requires forall i :: 0 <= i < |es| ==> EntryLocks(base, ms[|es| - 1 - i]) == Reversed(EntryLocks(base, es[i]))
    ensures LocksOf(base, ms) == Reversed(LocksOf(base, es))
  {
    hide EntryLocks, Reversed;
    if es == [] {
      assert Reversed<Path>([]) == [] by { EmptyReversed(); }
    } else {
      var n := |es| - 1;
      LocksReversed(base, es[1..], ms[..n]);
      LocksConcat(base, ms[..n], [ms[n]]);
      assert ms == ms[..n] + [ms[n]];
      assert LocksOf(base, [ms[n]]) == EntryLocks(base, ms[n]) by { LocksOfOne(base, ms[n]); }
      ReversedConcat(EntryLocks(base, es[0]), LocksOf(base, es[1..]));
    }
  }

  lemma {:induction false} EmptyReversed()
    ensures Reversed<Path>([]) == []
  {
  }

  lemma {:induction false} LocksOfOne(base: Path, e: Entry)
    ensures LocksOf(base, [e]) == EntryLocks(base, e)
  {
    assert [e][1..] == [];
  }

  lemma {:induction false} LocksConcat(base: Path, xs: seq<Entry>, ys: seq<Entry>)
    ensures LocksOf(base, xs + ys) == LocksOf(base, xs) + LocksOf(base, ys)
  {
    hide EntryLocks;
    if xs == [] {
      assert xs + ys == ys;
    } else {
      assert (xs + ys)[1..] == xs[1..] + ys;
      LocksConcat(base, xs[1..], ys);
    }
  }

  /** The sorted list of every successful walk of a tree is one and the same. */
  ghost predicate OneSortedList(base: Path, l: Listing, locale: (Path, Path) -> bool) {
    forall b :: SameTree(l, b) && Valid(b) && Collect(base, b, []).Ok? ==>
      Sort(Collect(base, b, []).value, locale) == Sort(Locks(base, l), locale)
  }

  /** The exact condition: where every order succeeds, they all sort to one list if and only if `localeCompare` tells
      the collected paths apart. */
  lemma {:induction false} OneSortedListIff(base: Path, l: Listing, locale: (Path, Path) -> bool)
    requires Valid(l) && StrictWeakOrder(locale) && SucceedsInEveryOrder(base, l)
    ensures OneSortedList(base, l, locale) <==> Separates(locale, Locks(base, l))
  {
    hide Collect, Locks, SameTree, Valid, Mirror, Reversed, Separates, StrictWeakOrder;
    SameTreeReflexive(l);
    CollectsLocks(base, l, []);
    assert [] + Locks(base, l) == Locks(base, l);
    if Separates(locale, Locks(base, l)) {
      forall b | SameTree(l, b) && Valid(b) && Collect(base, b, []).Ok?
        ensures Sort(Collect(base, b, []).value, locale) == Sort(Locks(base, l), locale)
      {
        SortedListForgetsEnumeration(base, l, b, locale);
      }
    } else {
      MirrorSame(l);
      MirrorValid(l);
      MirrorLocks(base, l);
      CollectsLocks(base, Mirror(l), []);
      assert [] + Locks(base, Mirror(l)) == Locks(base, Mirror(l));
      LocksDistinct(base, l);
      ReversalShows(Locks(base, l), locale);
    }
  }
}
