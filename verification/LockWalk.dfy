/** The lock-file walk of setup-dotnet-nuget/cache-evidence.mjs: what it collects and how many files it can hold. */
module LockWalk {
  import opened Options
  import opened Sorting
  import opened Text

  type Path = seq<Str>

  datatype Node = Directory(listing: Listing) | File | Other

  /** What `readdir` yields, in the order it happens to list: the entries, ENOENT, or another error. */
  datatype Listing = Entries(entries: seq<Entry>) | Missing | Unreadable

  datatype Entry = Entry(name: Str, node: Node)

  datatype Failure = TooManyLockFiles | ReadFailed

  const MAX_LOCK_FILES: nat := 1024
  const LOCK_NAME: Str := Lit("packages.lock.json")
  const EXCLUDED: set<Str> := {Lit(".git"), Lit("bin"), Lit("node_modules"), Lit("obj")}

  /** Names in one directory are distinct, at every depth. */
  ghost predicate Valid(l: Listing) {
    l.Entries? ==>
      && (forall i, j :: 0 <= i < j < |l.entries| ==> l.entries[i].name != l.entries[j].name)
      && forall i :: 0 <= i < |l.entries| && l.entries[i].node.Directory? ==> Valid(l.entries[i].node.listing)
  }

  // ---- The walk as a function ----

  function Collect(current: Path, l: Listing, result: seq<Path>): Result<seq<Path>, Failure>
    decreases l
  {
    if |result| > MAX_LOCK_FILES then Err(TooManyLockFiles)
    else match l
      case Missing => Ok(result)
      case Unreadable => Err(ReadFailed)
      case Entries(es) => CollectEntries(current, es, result)
  }

  function CollectEntries(current: Path, es: seq<Entry>, result: seq<Path>): Result<seq<Path>, Failure>
    decreases es
  {
    if es == [] then Ok(result)
    else
      var first := CollectEntry(current, es[0], result);
      if first.Err? then first else CollectEntries(current, es[1..], first.value)
  }

  function CollectEntry(current: Path, e: Entry, result: seq<Path>): Result<seq<Path>, Failure>
    decreases e
  {
    if e.node.Directory? && e.name in EXCLUDED then Ok(result)
    else if e.node.Directory? then Collect(current + [e.name], e.node.listing, result)
    else if e.node.File? && e.name == LOCK_NAME then Ok(result + [current + [e.name]])
    else Ok(result)
  }

  // ---- The walk as the source runs it ----

  class Collector {
    var result: seq<Path>

    constructor ()
      ensures result == []
    {
      result := [];
    }

    /** `collectLockFiles`, pushing into the shared `result`. */
    method CollectLockFiles(current: Path, listing: Listing) returns (failure: Option<Failure>)
      modifies this
      ensures var r := Collect(current, listing, old(result));
        if r.Ok? then failure == None && result == r.value else failure == Some(r.error)
      decreases listing
    {
      if |result| > MAX_LOCK_FILES {
        return Some(TooManyLockFiles);
      }
      match listing {
        case Missing => return None;
        case Unreadable => return Some(ReadFailed);
        case Entries(_) =>
      }
      var entries := listing.entries;
      ghost var r := CollectEntries(current, entries, result);
      var i := 0;
      assert entries[0..] == entries;
      while i < |entries|
        invariant 0 <= i <= |entries|
        invariant r == CollectEntries(current, entries[i..], result)
      {
        var entry := entries[i];
        assert entries[i..][0] == entry && entries[i..][1..] == entries[i + 1..];
        i := i + 1;
        if entry.node.Directory? && entry.name in EXCLUDED {
          continue;
        }
        var entryPath := current + [entry.name];
        if entry.node.Directory? {
          var inner := CollectLockFiles(entryPath, entry.node.listing);
          if inner.Some? {
            return inner;
          }
        } else if entry.node.File? && entry.name == LOCK_NAME {
          result := result + [entryPath];
        }
      }
      return None;
    }
  }

  // ---- What it collects ----

  /** Every lock file below `base`, whatever their number. */
  function Locks(base: Path, l: Listing): seq<Path>
    decreases l
  {
    if l.Entries? then LocksOf(base, l.entries) else []
  }

  function LocksOf(base: Path, es: seq<Entry>): seq<Path>
    decreases es
  {
    if es == [] then [] else EntryLocks(base, es[0]) + LocksOf(base, es[1..])
  }

  function EntryLocks(base: Path, e: Entry): seq<Path>
    decreases e
  {
    if e.node.Directory? then (if e.name in EXCLUDED then [] else Locks(base + [e.name], e.node.listing))
    else if e.node.File? && e.name == LOCK_NAME then [base + [e.name]]
    else []
  }

  /** No directory the walk enters is unreadable. */
  ghost predicate Readable(l: Listing) {
    match l
    case Missing => true
    case Unreadable => false
    case Entries(es) =>
      forall i :: 0 <= i < |es| && es[i].node.Directory? && es[i].name !in EXCLUDED ==> Readable(es[i].node.listing)
  }

  ghost predicate EntryReadable(e: Entry) {
    e.node.Directory? && e.name !in EXCLUDED ==> Readable(e.node.listing)
  }

  lemma {:induction false} CollectsLocks(base: Path, l: Listing, result: seq<Path>)
    ensures Collect(base, l, result).Ok? ==> Readable(l) && Collect(base, l, result).value == result + Locks(base, l)
    ensures Readable(l) && |result| + |Locks(base, l)| <= MAX_LOCK_FILES ==> Collect(base, l, result).Ok?
    decreases l
  {
    if l.Entries? {
      CollectsLocksOf(base, l.entries, result);
      assert Readable(l) <==> forall i :: 0 <= i < |l.entries| ==> EntryReadable(l.entries[i]);
    }
  }

  lemma {:induction false} CollectsLocksOf(base: Path, es: seq<Entry>, result: seq<Path>)
    ensures CollectEntries(base, es, result).Ok? ==>
      && (forall i :: 0 <= i < |es| ==> EntryReadable(es[i]))
      && CollectEntries(base, es, result).value == result + LocksOf(base, es)
    ensures (forall i :: 0 <= i < |es| ==> EntryReadable(es[i])) && |result| + |LocksOf(base, es)| <= MAX_LOCK_FILES
      ==> CollectEntries(base, es, result).Ok?
    decreases es
  {
    hide Readable;
    if es != [] {
      var e := es[0];
      if e.node.Directory? && e.name !in EXCLUDED {
        CollectsLocks(base + [e.name], e.node.listing, result);
      }
      var first := CollectEntry(base, e, result);
      if first.Ok? {
        assert first.value == result + EntryLocks(base, e);
        CollectsLocksOf(base, es[1..], first.value);
        assert forall i :: 0 < i < |es| ==> es[i] == es[1..][i - 1];
        assert result + EntryLocks(base, e) + LocksOf(base, es[1..]) == result + LocksOf(base, es);
      }
    }
  }

  /** The regular file at `path` below `l`. */
  ghost predicate FileAt(l: Listing, path: Path)
    decreases path
  {
    && l.Entries? && path != []
    && exists i :: 0 <= i < |l.entries| && IsStep(l.entries[i], path)
  }

  ghost predicate IsStep(e: Entry, path: Path)
    requires path != []
    decreases path, 0
  {
    e.name == path[0] && if |path| == 1 then e.node.File? else e.node.Directory? && FileAt(e.node.listing, path[1..])
  }

  predicate IsExcludedName(name: Str) {
    name in {Lit(".git"), Lit("bin"), Lit("node_modules"), Lit("obj")}
  }

  /** A lock file no ancestor of which, from the walked root down, has an excluded name. */
  ghost predicate LockAt(l: Listing, path: Path) {
    && FileAt(l, path) && path[|path| - 1] == Lit("packages.lock.json")
    && forall k :: 0 <= k < |path| - 1 ==> !IsExcludedName(path[k])
  }

  ghost predicate LockStep(e: Entry, path: Path) {
    && path != [] && IsStep(e, path) && path[|path| - 1] == Lit("packages.lock.json")
    && forall k :: 0 <= k < |path| - 1 ==> !IsExcludedName(path[k])
  }

  lemma {:induction false} LockAtIff(l: Listing, path: Path)
    requires l.Entries?
    ensures LockAt(l, path) <==> exists i :: 0 <= i < |l.entries| && LockStep(l.entries[i], path)
  {
    if LockAt(l, path) {
      var i :| 0 <= i < |l.entries| && IsStep(l.entries[i], path);
      assert LockStep(l.entries[i], path);
    }
  }

  /** The collected paths are exactly the lock files outside excluded directories. */
  lemma {:induction false} LocksIff(base: Path, l: Listing, p: Path)
    ensures p in Locks(base, l) <==> base <= p && LockAt(l, p[|base|..])
    decreases l
  {
    hide LockAt;
    if l.Entries? {
      LocksOfIff(base, l.entries, p);
      if base <= p {
        LockAtIff(l, p[|base|..]);
      }
    } else if base <= p && LockAt(l, p[|base|..]) {
      NoLockHere(l, p[|base|..]);
    }
  }

  lemma {:induction false} NoLockHere(l: Listing, path: Path)
    requires !l.Entries?
    ensures !LockAt(l, path)
  {
  }

  lemma {:induction false} LocksOfIff(base: Path, es: seq<Entry>, p: Path)
    ensures p in LocksOf(base, es) <==> base <= p && exists i :: 0 <= i < |es| && LockStep(es[i], p[|base|..])
    decreases es
  {
    hide LockStep, EntryLocks;
    if es != [] {
      EntryLocksIff(base, es[0], p);
      LocksOfIff(base, es[1..], p);
      assert forall i :: 0 < i < |es| ==> es[i] == es[1..][i - 1];
      if base <= p && exists i :: 0 <= i < |es[1..]| && LockStep(es[1..][i], p[|base|..]) {
        var i :| 0 <= i < |es[1..]| && LockStep(es[1..][i], p[|base|..]);
        assert LockStep(es[i + 1], p[|base|..]);
      }
    }
  }

  lemma {:induction false} EntryLocksIff(base: Path, e: Entry, p: Path)
    ensures p in EntryLocks(base, e) <==> base <= p && LockStep(e, p[|base|..])
    decreases e
  {
    hide Locks;
    if e.node.Directory? && e.name !in EXCLUDED {
      LocksIff(base + [e.name], e.node.listing, p);
    }
    if base <= p && |p| > |base| {
      var rel := p[|base|..];
      assert p == base + rel && rel[1..] == p[|base| + 1..];
      assert rel == [rel[0]] + rel[1..];
      assert base + [e.name] <= p <==> e.name == rel[0];
      if |rel| > 1 && rel[0] == e.name && e.node.Directory? {
        assert rel[|rel| - 1] == rel[1..][|rel| - 2];
        assert (forall k :: 0 <= k < |rel| - 1 ==> !IsExcludedName(rel[k])) <==>
          !IsExcludedName(rel[0]) && forall k :: 0 <= k < |rel[1..]| - 1 ==> !IsExcludedName(rel[1..][k]) by {
          assert forall k :: 0 < k < |rel| ==> rel[k] == rel[1..][k - 1];
        }
      }
      assert |rel| == 1 ==> p == base + [rel[0]];
    }
    if base + [e.name] <= p {
      assert p[..|base|] == (base + [e.name])[..|base|] == base;
    }
  }

  lemma {:induction false} LocksDistinct(base: Path, l: Listing)
    requires Valid(l)
    ensures NoDuplicates(Locks(base, l))
    decreases l
  {
    if l.Entries? {
      LocksOfDistinct(base, l.entries);
    }
  }

  lemma {:induction false} LocksOfDistinct(base: Path, es: seq<Entry>)
    requires Valid(Entries(es))
    ensures NoDuplicates(LocksOf(base, es))
    decreases es
  {
    hide LockStep, Valid;
    if es != [] {
      ValidStep(es);
      var a, b := EntryLocks(base, es[0]), LocksOf(base, es[1..]);
      LocksOfDistinct(base, es[1..]);
      if es[0].node.Directory? && es[0].name !in EXCLUDED {
        LocksDistinct(base + [es[0].name], es[0].node.listing);
      }
      forall x, y | x in a && y in b ensures x != y {
        EntryLocksIff(base, es[0], x);
        LocksOfIff(base, es[1..], y);
        var i :| 0 <= i < |es[1..]| && LockStep(es[1..][i], y[|base|..]);
        StepName(es[0], x[|base|..]);
        StepName(es[1..][i], y[|base|..]);
        assert es[1..][i] == es[i + 1];
      }
      var c: seq<Path> := a + b;
      forall i, j | 0 <= i < j < |c| ensures c[i] != c[j] {
        if i < |a| && j >= |a| {
          assert a[i] in a && b[j - |a|] in b;
        }
      }
    }
  }

  lemma {:induction false} StepName(e: Entry, path: Path)
    requires LockStep(e, path)
    ensures path != [] && path[0] == e.name
  {
  }

  lemma {:induction false} ValidStep(es: seq<Entry>)
    requires es != [] && Valid(Entries(es))
    ensures Valid(Entries(es[1..])) && (es[0].node.Directory? ==> Valid(es[0].node.listing))
    ensures forall i :: 0 <= i < |es[1..]| ==> es[1..][i].name != es[0].name
  {
    assert forall i :: 0 <= i < |es[1..]| ==> es[1..][i] == es[i + 1];
  }

  // ---- How many it can hold ----

  /** Levels of directories the walk can enter. */
  function Levels(l: Listing): nat
    decreases l
  {
    if l.Entries? then 1 + LevelsOf(l.entries) else 0
  }

  function LevelsOf(es: seq<Entry>): nat
    decreases es
  {
    if es == [] then 0
    else
      Max(if es[0].node.Directory? && es[0].name !in EXCLUDED then Levels(es[0].node.listing) else 0, LevelsOf(es[1..]))
  }

  predicate IsLock(e: Entry) {
    e.node.File? && e.name == LOCK_NAME
  }

  predicate HoldsLock(es: seq<Entry>) {
    exists i :: 0 <= i < |es| && IsLock(es[i])
  }

  function Max(a: nat, b: nat): nat {
    if a > b then a else b
  }

  /** The cap is tested only on entering a directory, so every level can add one file after the last check of it. */
  lemma {:induction false} CollectBound(base: Path, l: Listing, result: seq<Path>)
    requires Valid(l)
    ensures Collect(base, l, result).Ok? ==> |Collect(base, l, result).value| <= MAX_LOCK_FILES + Levels(l)
    decreases l
  {
    if l.Entries? && |result| <= MAX_LOCK_FILES {
      CollectEntriesBound(base, l.entries, result);
    }
  }

  lemma {:induction false} CollectEntriesBound(base: Path, es: seq<Entry>, result: seq<Path>)
    requires Valid(Entries(es))
    ensures var r := CollectEntries(base, es, result);
      r.Ok? ==> |r.value| <= Max(|result|, MAX_LOCK_FILES + LevelsOf(es)) + (if HoldsLock(es) then 1 else 0)
    decreases es
  {
    hide Valid;
    if es != [] {
      ValidStep(es);
      var first := CollectEntry(base, es[0], result);
      if es[0].node.Directory? && es[0].name !in EXCLUDED {
        CollectBound(base + [es[0].name], es[0].node.listing, result);
      }
      if first.Ok? {
        CollectEntriesBound(base, es[1..], first.value);
        assert forall i :: 0 < i < |es| ==> es[i] == es[1..][i - 1];
        if IsLock(es[0]) {
          assert !HoldsLock(es[1..]);
        }
        if HoldsLock(es[1..]) {
          var i :| 0 <= i < |es[1..]| && IsLock(es[1..][i]);
          assert IsLock(es[i + 1]);
        }
      }
    }
  }

  // ---- The bound is reached, and success can depend on the enumeration order ----

  const LOCK: Entry := Entry(LOCK_NAME, File)

  function Small(i: nat): Entry
    requires i < 2000
  {
    Entry([(0x100 + i) as CodeUnit], Directory(Entries([LOCK])))
  }

  /** `n` directories holding one lock file each. */
  function Wide(n: nat): seq<Entry>
    requires n <= 2000
  {
    seq(n, i requires 0 <= i < n => Small(i))
  }

  lemma {:induction false} SmallIsEntered(i: nat)
    requires i < 2000
    ensures Small(i).name !in EXCLUDED && Small(i).name != LOCK_NAME
  {
    assert |Small(i).name| == 1;
  }

  lemma {:induction false} WideOutcome(base: Path, k: nat, result: seq<Path>)
    requires k <= 1025
    ensures CollectEntries(base, Wide(1025)[k..], result).Ok? <==> k == 1025 || |result| <= k
    ensures CollectEntries(base, Wide(1025)[k..], result).Ok? ==>
      |CollectEntries(base, Wide(1025)[k..], result).value| == |result| + (1025 - k)
    decreases 1025 - k
  {
    var es := Wide(1025)[k..];
    if k < 1025 {
      assert es[0] == Small(k) && es[1..] == Wide(1025)[k + 1..];
      SmallIsEntered(k);
      var first := CollectEntry(base, es[0], result);
      if |result| <= MAX_LOCK_FILES {
        SmallCollects(base, k, result);
        WideOutcome(base, k + 1, first.value);
      }
    }
  }

  lemma {:induction false} JustLock(base: Path, result: seq<Path>)
    ensures CollectEntries(base, [LOCK], result) == Ok(result + [base + [LOCK_NAME]])
  {
    var es := [LOCK];
    assert es[1..] == [] && CollectEntry(base, es[0], result) == Ok(result + [base + [LOCK_NAME]]);
  }

  lemma {:induction false} SmallCollects(base: Path, k: nat, result: seq<Path>)
    requires k < 2000 && |result| <= MAX_LOCK_FILES
    ensures var r := CollectEntry(base, Small(k), result); r.Ok? && |r.value| == |result| + 1
  {
    SmallIsEntered(k);
    JustLock(base + [Small(k).name], result);
  }

  lemma {:induction false} CollectConcat(base: Path, a: seq<Entry>, b: seq<Entry>, result: seq<Path>)
    ensures CollectEntries(base, a + b, result) ==
      var r := CollectEntries(base, a, result); if r.Err? then r else CollectEntries(base, b, r.value)
    decreases |a|
  {
    hide CollectEntry;
    if a == [] {
      assert a + b == b;
    } else {
      assert (a + b)[1..] == a[1..] + b;
      var first := CollectEntry(base, a[0], result);
      if first.Ok? {
        CollectConcat(base, a[1..], b, first.value);
      }
    }
  }

  /** 1025 one-file directories and then a lock file, below `d` directories that list their own lock file last. */
  function Tall(d: nat): Listing {
    if d == 0 then Entries(Wide(1025) + [LOCK]) else Entries([Entry([0x6E], Directory(Tall(d - 1))), LOCK])
  }

  lemma {:induction false} WideLevels(k: nat)
    requires k <= 1025
    ensures LevelsOf(Wide(1025)[k..] + [LOCK]) == if k < 1025 then 1 else 0
    decreases 1025 - k
  {
    var es := Wide(1025)[k..] + [LOCK];
    if k < 1025 {
      assert es[0] == Small(k) && es[1..] == Wide(1025)[k + 1..] + [LOCK];
      WideLevels(k + 1);
      SmallIsEntered(k);
      LockLevels();
    } else {
      assert es == [LOCK];
      LockLevels();
    }
  }

  lemma {:induction false} LockLevels()
    ensures LevelsOf([LOCK]) == 0 && Levels(Entries([LOCK])) == 1
  {
    assert [LOCK][1..] == [];
  }

  lemma {:induction false} WideIsValid()
    ensures Valid(Entries(Wide(1025) + [LOCK])) && Valid(Entries([LOCK] + Wide(1025)))
  {
    forall i | 0 <= i < 1025 ensures Wide(1025)[i].name != LOCK_NAME && Valid(Wide(1025)[i].node.listing) {
      SmallIsEntered(i);
      assert Wide(1025)[i] == Small(i);
    }
  }

  /** For every number of levels from two up, some tree makes the walk succeed with exactly 1024 plus that many
      files. */
  lemma {:induction false} BoundIsReached(base: Path, d: nat)
    ensures Valid(Tall(d)) && Levels(Tall(d)) == d + 2
    ensures var r := Collect(base, Tall(d), []); r.Ok? && |r.value| == MAX_LOCK_FILES + Levels(Tall(d))
    decreases d
  {
    if d == 0 {
      WideReaches(base);
    } else {
      BoundIsReached(base + [[0x6E]], d - 1);
      TallStep(base, d);
    }
  }

  lemma {:induction false} WideReaches(base: Path)
    ensures Valid(Tall(0)) && Levels(Tall(0)) == 2
    ensures var r := Collect(base, Tall(0), []); r.Ok? && |r.value| == MAX_LOCK_FILES + 2
  {
    hide CollectEntry, LevelsOf, Valid, LOCK, LOCK_NAME, EXCLUDED;
    WideIsValid();
    assert Wide(1025)[0..] == Wide(1025);
    WideLevels(0);
    WideOutcome(base, 0, []);
    CollectConcat(base, Wide(1025), [LOCK], []);
    JustLock(base, CollectEntries(base, Wide(1025), []).value);
  }

  lemma {:induction false} TallStep(base: Path, d: nat)
    requires d > 0
    requires Valid(Tall(d - 1)) && Levels(Tall(d - 1)) == d + 1
    requires var r := Collect(base + [[0x6E]], Tall(d - 1), []); r.Ok? && |r.value| == MAX_LOCK_FILES + d + 1
    ensures Valid(Tall(d)) && Levels(Tall(d)) == d + 2
    ensures var r := Collect(base, Tall(d), []); r.Ok? && |r.value| == MAX_LOCK_FILES + d + 2
  {
    hide Collect, LevelsOf;
    var e := Entry([0x6E], Directory(Tall(d - 1)));
    var es, last := [e, LOCK], [LOCK];
    NIsEntered();
    LockLevels();
    assert es[0] == e && es[1..] == last;
    assert Tall(d) == Entries(es);
    var inner := CollectEntry(base, e, []);
    assert inner == Collect(base + [[0x6E]], Tall(d - 1), []);
    JustLock(base, inner.value);
    assert CollectEntries(base, es, []) == CollectEntries(base, last, inner.value);
    assert Collect(base, Entries(es), []) == CollectEntries(base, es, []) by {
      CollectRoom(base, es);
    }
    LevelsStep(es);
  }

  lemma {:induction false} NIsEntered()
    ensures [0x6E] !in EXCLUDED && [0x6E] != LOCK_NAME
  {
    var n: Str := [0x6E];
    assert |n| == 1;
  }

  lemma {:induction false} CollectRoom(base: Path, es: seq<Entry>)
    ensures Collect(base, Entries(es), []) == CollectEntries(base, es, [])
  {
  }

  lemma {:induction false} LevelsStep(es: seq<Entry>)
    requires es != [] && es[0].node.Directory? && es[0].name !in EXCLUDED
    ensures Levels(Entries(es)) == 1 + Max(Levels(es[0].node.listing), LevelsOf(es[1..]))
  {
  }

  /** The same directory enumerated in two orders: one walk succeeds, the other reports too many files. */
  lemma {:induction false} SuccessDependsOnOrder(base: Path)
    ensures Valid(Entries(Wide(1025) + [LOCK])) && multiset(Wide(1025) + [LOCK]) == multiset([LOCK] + Wide(1025))
    ensures Collect(base, Entries(Wide(1025) + [LOCK]), []).Ok?
    ensures Collect(base, Entries([LOCK] + Wide(1025)), []) == Err(TooManyLockFiles)
  {
    hide CollectEntry, CollectEntries, Valid, LOCK, LOCK_NAME, Wide;
    WideIsValid();
    WideReaches(base);
    LockFirstFails(base);
  }

  lemma {:induction false} LockFirstFails(base: Path)
    ensures Collect(base, Entries([LOCK] + Wide(1025)), []) == Err(TooManyLockFiles)
  {
    hide CollectEntry, CollectEntries, LOCK, LOCK_NAME, Wide;
    var result: seq<Path> := [base + [LOCK_NAME]];
    CollectConcat(base, [LOCK], Wide(1025), []);
    JustLock(base, []);
    assert [] + result == result;
    CollectRoom(base, [LOCK] + Wide(1025));
    assert Wide(1025)[0..] == Wide(1025);
    WideOutcome(base, 0, result);
    NeverUnreadable(base, 0, result);
    var r := CollectEntries(base, Wide(1025), result);
    assert r.error == ReadFailed || r.error == TooManyLockFiles;
  }

  lemma {:induction false} NeverUnreadable(base: Path, k: nat, result: seq<Path>)
    requires k <= 1025
    ensures CollectEntries(base, Wide(1025)[k..], result) != Err(ReadFailed)
    decreases 1025 - k
  {
    var es := Wide(1025)[k..];
    if k < 1025 {
      assert es[0] == Small(k) && es[1..] == Wide(1025)[k + 1..];
      SmallIsEntered(k);
      var first := CollectEntry(base, es[0], result);
      if |result| <= MAX_LOCK_FILES {
        SmallCollects(base, k, result);
        NeverUnreadable(base, k + 1, first.value);
      }
    }
  }
}
