/** Which trees share the digest of setup-dotnet-nuget/cache-evidence.mjs with a tree that holds other lock files. */
module LockAmbiguity {
  import opened Options
  import opened Sorting
  import opened Text
  import opened Utf8
  import opened Utf16
  import opened LockWalk
  import opened LockOrder
  import opened LockEvidence

  // ---- Trees that a file system can hold ----

  /** The name of a directory entry. */
  predicate IsEntryName(s: Str) {
    IsName(s) && s != [] && s != [DOT] && s != [DOT, DOT]
  }

  ghost predicate RealNames(l: Listing) {
    l.Entries? ==> forall i :: 0 <= i < |l.entries| ==>
      IsEntryName(l.entries[i].name) && (l.entries[i].node.Directory? ==> RealNames(l.entries[i].node.listing))
  }

  ghost predicate IsTree(l: Listing) {
    Valid(l) && RealNames(l)
  }

  /** A path that the walk collects, from where it starts. */
  ghost predicate IsLockRoute(route: Path) {
    && route != [] && route[|route| - 1] == LOCK_NAME && (forall s :: s in route ==> IsEntryName(s))
    && forall k :: 0 <= k < |route| - 1 ==> route[k] !in EXCLUDED
  }

  ghost predicate IsLockPath(base: Path, p: Path) {
    base <= p && IsLockRoute(p[|base|..])
  }

  /** Neither is below the other, so that both can be regular files. */
  predicate Apart(p: Path, q: Path) {
    !(p <= q) && !(q <= p)
  }

  lemma {:induction false} FileNames(l: Listing, path: Path)
    requires RealNames(l) && FileAt(l, path)
    ensures path != [] && forall s :: s in path ==> IsEntryName(s)
    decreases path
  {
    hide IsEntryName;
    var i :| 0 <= i < |l.entries| && IsStep(l.entries[i], path);
    if |path| > 1 {
      FileNames(l.entries[i].node.listing, path[1..]);
    }
    assert path == [path[0]] + path[1..];
  }

  lemma {:induction false} FilesApart(l: Listing, p: Path, q: Path)
    requires Valid(l) && FileAt(l, p) && FileAt(l, q) && p <= q
    ensures p == q
    decreases p
  {
    var i :| 0 <= i < |l.entries| && IsStep(l.entries[i], p);
    var j :| 0 <= j < |l.entries| && IsStep(l.entries[j], q);
    assert p[0] == q[0] && i == j;
    if |p| > 1 {
      assert p[1..] <= q[1..];
      FilesApart(l.entries[i].node.listing, p[1..], q[1..]);
      assert p == [p[0]] + p[1..] && q == [q[0]] + q[1..];
    }
  }

  /** The collected paths of a tree are lock paths, no two of them one below the other. */
  lemma {:induction false} CollectedPaths(base: Path, l: Listing, p: Path)
    requires IsTree(l) && p in Locks(base, l)
    ensures IsLockPath(base, p)
    ensures forall q :: q in Locks(base, l) && q != p ==> Apart(p, q)
  {
    hide Locks, FileAt, Valid, RealNames, IsEntryName;
    LocksIff(base, l, p);
    FileNames(l, p[|base|..]);
    forall q | q in Locks(base, l) && q != p ensures Apart(p, q) {
      LocksIff(base, l, q);
      assert p == base + p[|base|..] && q == base + q[|base|..];
      if p <= q {
        assert p[|base|..] <= q[|base|..];
        FilesApart(l, p[|base|..], q[|base|..]);
      }
      if q <= p {
        assert q[|base|..] <= p[|base|..];
        FilesApart(l, q[|base|..], p[|base|..]);
      }
    }
  }

  // ---- Trees that hold one or two given lock files ----

  function ChainEntry(route: Path): Entry
    requires route != []
    decreases |route|, 0
  {
    Entry(route[0], if |route| == 1 then File else Directory(Chain(route[1..])))
  }

  /** The tree with one file. */
  function Chain(route: Path): Listing
    requires route != []
    decreases |route|, 1
  {
    Entries([ChainEntry(route)])
  }

  /** The tree with two files. */
  function Pair(p: Path, q: Path): Listing
    requires Apart(p, q)
    decreases |p|
  {
    if p[0] == q[0] then
      assert p == [p[0]] + p[1..] && q == [q[0]] + q[1..];
      Entries([Entry(p[0], Directory(Pair(p[1..], q[1..])))])
    else Entries([ChainEntry(p), ChainEntry(q)])
  }

  lemma {:induction false} RestOfRoute(route: Path)
    requires IsLockRoute(route) && |route| > 1
    ensures IsLockRoute(route[1..]) && route[0] !in EXCLUDED && IsEntryName(route[0])
  {
    hide IsEntryName;
    var rest := route[1..];
    assert rest[|rest| - 1] == route[|route| - 1];
    assert forall k :: 0 <= k < |rest| - 1 ==> rest[k] == route[k + 1];
  }

  lemma {:induction false} ChainHolds(base: Path, route: Path)
    requires IsLockRoute(route)
    ensures IsTree(Chain(route)) && Readable(Chain(route))
    ensures EntryLocks(base, ChainEntry(route)) == [base + route]
    ensures Locks(base, Chain(route)) == [base + route]
    decreases |route|
  {
    hide IsEntryName;
    var e := ChainEntry(route);
    assert route == [route[0]] + route[1..];
    if |route| > 1 {
      RestOfRoute(route);
      ChainHolds(base + [route[0]], route[1..]);
      assert base + [route[0]] + route[1..] == base + route;
      assert EntryLocks(base, e) == Locks(base + [route[0]], Chain(route[1..]));
    } else {
      assert base + [e.name] == base + route;
    }
    LocksOfOne(base, e);
  }

  lemma {:induction false} PairHolds(base: Path, p: Path, q: Path)
    requires IsLockRoute(p) && IsLockRoute(q) && Apart(p, q)
    ensures IsTree(Pair(p, q)) && Readable(Pair(p, q))
    ensures Locks(base, Pair(p, q)) == [base + p, base + q]
    decreases |p|
  {
    hide IsEntryName, IsLockRoute;
    assert p == [p[0]] + p[1..] && q == [q[0]] + q[1..];
    if p[0] == q[0] {
      RestOfRoute(p);
      RestOfRoute(q);
      PairHolds(base + [p[0]], p[1..], q[1..]);
      var e := Entry(p[0], Directory(Pair(p[1..], q[1..])));
      assert base + [p[0]] + p[1..] == base + p && base + [p[0]] + q[1..] == base + q;
      LocksOfOne(base, e);
    } else {
      ChainHolds(base, p);
      ChainHolds(base, q);
      var x, y := ChainEntry(p), ChainEntry(q);
      LocksOfOne(base, x);
      LocksOfOne(base, y);
      LocksConcat(base, [x], [y]);
      assert [x] + [y] == [x, y];
    }
  }

  // ---- Fields of a preimage ----

  /** `base` is a path of names. */
  predicate BaseNames(base: Path) {
    forall s :: s in base ==> IsName(s)
  }

  lemma {:induction false} LockPathIs(base: Path, p: Path)
    requires BaseNames(base) && IsLockPath(base, p)
    ensures IsPath(p) && p == base + p[|base|..]
  {
    forall s | s in p ensures IsName(s) {
      assert s in base || s in p[|base|..];
    }
  }

  /** The frame of `x`, a content that begins with `u`, and later a path `y`, a content that ends with `w`. */
  function Layout(x: Bytes, u: Bytes, y: Bytes, w: Bytes): Bytes {
    x + [0] + u + [0] + y + [0] + w + [0]
  }

  lemma {:induction false} FieldsOfText(x: Bytes, u: Bytes, y: Bytes, w: Bytes)
    requires 0 !in x && 0 !in y
    ensures Split(Layout(x, u, y, w), 0) == [x] + Split(u, 0) + [y] + Split(w, 0) + [[]]
  {
    var none: Bytes := [];
    assert Split(none, 0) == [[]];
    hide Split;
    assert Layout(x, u, y, w) == (x + [0] + u + [0] + y + [0] + w) + [0] + none;
    SplitConcat(x + [0] + u + [0] + y + [0] + w, none, 0);
    SplitConcat(x + [0] + u + [0] + y, w, 0);
    SplitConcat(x + [0] + u, y, 0);
    SplitConcat(x, u, 0);
    SplitPart(x, [], 0);
    SplitPart(y, [], 0);
  }

  /** A text that ends in NUL, cut at its first field and at a later one. */
  lemma {:induction false} CutAt(body: Bytes, k: nat) returns (u: Bytes, w: Bytes)
    requires 2 <= k < |Split(body + [0], 0)| - 2
    ensures var fields := Split(body + [0], 0); body + [0] == Layout(fields[0], u, fields[k], w)
  {
    var none: Bytes := [];
    assert Split(none, 0) == [[]];
    hide Split, Join;
    SplitConcat(body, none, 0);
    assert body + [0] + none == body + [0];
    var f := Split(body, 0);
    JoinSplit(body, 0);
    u, w := Join(f[1..k], 0), Join(f[k + 1..], 0);
    JoinCut(f, k);
  }

  lemma {:induction false} JoinCut(f: seq<Bytes>, k: nat)
    requires 2 <= k < |f| - 1
    ensures Join(f, 0) + [0] == Layout(f[0], Join(f[1..k], 0), f[k], Join(f[k + 1..], 0))
  {
    hide Join;
    var tail := [f[k]] + f[k + 1..];
    assert f == [f[0]] + (f[1..k] + tail);
    JoinConcat([f[0]], f[1..k] + tail, 0);
    JoinConcat(f[1..k], tail, 0);
    JoinConcat([f[k]], f[k + 1..], 0);
    JoinOne(f[0]);
    JoinOne(f[k]);
  }

  lemma {:induction false} JoinOne(x: Bytes)
    ensures Join([x], 0) == x
  {
  }

  /** `first` and `field` spell two lock files that one tree can hold and one walk can return in this order. */
  ghost predicate NamesLock(base: Path, locale: (Path, Path) -> bool, first: Bytes, field: Bytes) {
    exists p, q :: IsPair(base, locale, p, q) && PathBytes(p) == first && PathBytes(q) == field
  }

  ghost predicate IsPair(base: Path, locale: (Path, Path) -> bool, p: Path, q: Path) {
    IsLockPath(base, p) && IsLockPath(base, q) && Apart(p, q) && !locale(q, p)
  }

  /** Some field of the preimage, after the first two and before the last two, is such a lock file beside the first. */
  ghost predicate HoldsLock(base: Path, locale: (Path, Path) -> bool, preimage: Bytes) {
    var fields := Split(preimage, 0);
    exists k :: 2 <= k < |fields| - 2 && NamesLock(base, locale, fields[0], fields[k])
  }

  lemma {:induction false} TextHoldsLock(base: Path, locale: (Path, Path) -> bool, p: Path, q: Path, u: Bytes, w: Bytes)
    requires BaseNames(base) && IsPair(base, locale, p, q)
    ensures HoldsLock(base, locale, Layout(PathBytes(p), u, PathBytes(q), w))
  {
    hide PathBytes, Split, IsPath;
    LockPathIs(base, p);
    LockPathIs(base, q);
    PathBytesInjective(p, q);
    PathBytesInjective(q, p);
    FieldsOfText(PathBytes(p), u, PathBytes(q), w);
    var fields := Split(Layout(PathBytes(p), u, PathBytes(q), w), 0);
    var k := 1 + |Split(u, 0)|;
    assert fields[0] == PathBytes(p) && fields[k] == PathBytes(q);
    assert |Split(w, 0)| >= 1;
    assert NamesLock(base, locale, fields[0], fields[k]);
  }

  // ---- Runs over the small trees ----

  lemma {:induction false} EvidenceOf(base: Path, m: Listing, locale: (Path, Path) -> bool, read: Path -> Bytes)
    requires Readable(m) && |Locks(base, m)| <= 2 && Sorted(Locks(base, m), locale)
    ensures Evidence(base, m, locale, read) == Ok(Preimage(LockFiles(Locks(base, m), read)))
  {
    hide Collect, Locks, Preimage, Sorted;
    CollectsLocks(base, m, []);
    assert [] + Locks(base, m) == Locks(base, m);
    SortKeepsSorted(Locks(base, m), locale);
  }

  lemma {:induction false} FrameOfOne(p: Path, read: Path -> Bytes)
    ensures Preimage(LockFiles([p], read)) == PathBytes(p) + [0] + read(p) + [0]
  {
    hide PathBytes;
    var content := FirstPath(LockFiles([p], read));
  }

  lemma {:induction false} FrameOfTwo(p: Path, q: Path, read: Path -> Bytes)
    ensures Preimage(LockFiles([p, q], read)) == Layout(PathBytes(p), read(p), PathBytes(q), read(q))
  {
    hide PathBytes;
    var files := LockFiles([p, q], read);
    var f, g := LockFile(PathBytes(p), read(p)), LockFile(PathBytes(q), read(q));
    assert files == [f, g] && files[1..] == [g] && [g][1..] == [];
    assert Frame([g]) == FrameOne(g) + [];
  }

  lemma {:induction false} OneFileRun(base: Path, p: Path, locale: (Path, Path) -> bool, read: Path -> Bytes)
    requires IsLockPath(base, p)
    ensures var m := Chain(p[|base|..]);
      && IsTree(m) && Locks(base, m) == [p]
      && Evidence(base, m, locale, read) == Ok(PathBytes(p) + [0] + read(p) + [0])
  {
    hide Locks, Evidence, Preimage, PathBytes, IsTree;
    ChainHolds(base, p[|base|..]);
    assert base + p[|base|..] == p;
    EvidenceOf(base, Chain(p[|base|..]), locale, read);
    FrameOfOne(p, read);
  }

  lemma {:induction false} TwoFileRun(base: Path, p: Path, q: Path, locale: (Path, Path) -> bool, read: Path -> Bytes)
    requires IsPair(base, locale, p, q)
    ensures base <= p && base <= q && Apart(p[|base|..], q[|base|..])
    ensures var m := Pair(p[|base|..], q[|base|..]);
      && IsTree(m) && Locks(base, m) == [p, q]
      && Evidence(base, m, locale, read) == Ok(Layout(PathBytes(p), read(p), PathBytes(q), read(q)))
  {
    hide Locks, Evidence, Preimage, PathBytes, IsTree;
    var x, y := p[|base|..], q[|base|..];
    assert p == base + x && q == base + y;
    assert Apart(x, y);
    PairHolds(base, x, y);
    EvidenceOf(base, Pair(x, y), locale, read);
    FrameOfTwo(p, q, read);
  }

  // ---- Which trees are ambiguous ----

  /** The same lock files with the same contents. */
  ghost predicate SameLockFiles(base: Path, l: Listing, m: Listing, read: Path -> Bytes, other: Path -> Bytes) {
    && (forall p :: p in Locks(base, l) <==> p in Locks(base, m))
    && forall p :: p in Locks(base, l) ==> read(p) == other(p)
  }

  /** Another tree, with other lock files or other contents, hashes the same bytes. */
  ghost predicate Ambiguous(base: Path, l: Listing, locale: (Path, Path) -> bool, read: Path -> Bytes) {
    exists m, other: Path -> Bytes ::
      IsTree(m) && Evidence(base, m, locale, other) == Evidence(base, l, locale, read)
        && !SameLockFiles(base, l, m, read, other)
  }

  lemma {:induction false} LastIsNul(files: seq<LockFile>)
    requires files != []
    ensures Frame(files) != [] && Frame(files)[|Frame(files)| - 1] == 0
  {
    if |files| > 1 {
      LastIsNul(files[1..]);
    } else {
      assert Frame(files) == FrameOne(files[0]) + [];
    }
  }

  lemma {:induction false} FrontOf(bs: Bytes) returns (body: Bytes)
    requires bs != [] && bs[|bs| - 1] == 0
    ensures bs == body + [0]
  {
    body := bs[..|bs| - 1];
  }

  /** What is hashed for one file or more: the first path, and what one file in its place would have to hold. */
  lemma {:induction false} FirstPath(files: seq<LockFile>) returns (content: Bytes)
    requires files != []
    ensures Preimage(files) == files[0].path + [0] + content + [0]
    ensures |files| == 1 ==> content == files[0].content
  {
    var f := files[0];
    assert Frame(files) == FrameOne(f) + Frame(files[1..]);
    if |files| == 1 {
      content := f.content;
      assert files[1..] == [] && FrameOne(f) + [] == FrameOne(f);
    } else {
      LastIsNul(files[1..]);
      var rest := FrontOf(Frame(files[1..]));
      content := f.content + [0] + rest;
      assert FrameOne(f) + (rest + [0]) == f.path + [0] + (f.content + [0] + rest) + [0];
    }
  }

  lemma {:induction false} SecondPath(files: seq<LockFile>) returns (w: Bytes)
    requires |files| >= 2
    ensures Preimage(files) == Layout(files[0].path, files[0].content, files[1].path, w)
  {
    w := FirstPath(files[1..]);
    var f, g := files[0], files[1];
    assert FrameOne(f) + (g.path + [0] + w + [0]) == Layout(f.path, f.content, g.path, w);
  }

  /** Equal texts of the form path NUL rest have equal paths and rests. */
  lemma {:induction false} FirstField(p: Bytes, x: Bytes, q: Bytes, y: Bytes)
    requires 0 !in p && 0 !in q && p + [0] + x == q + [0] + y
    ensures p == q && x == y
  {
    SplitPart(p, x, 0);
    SplitPart(q, y, 0);
    assert Split(p + [0] + x, 0)[0] == p && Split(q + [0] + y, 0)[0] == q;
    assert (p + [0] + x)[|p| + 1..] == x && (q + [0] + y)[|q| + 1..] == y;
  }

  /** The sorted lock files of a tree. */
  function Listed(base: Path, l: Listing, locale: (Path, Path) -> bool): seq<Path> {
    Sort(Locks(base, l), locale)
  }

  lemma {:induction false} ListedIs(base: Path, l: Listing, locale: (Path, Path) -> bool)
    requires IsTree(l) && BaseNames(base) && StrictWeakOrder(locale)
    ensures forall p :: p in Listed(base, l, locale) <==> p in Locks(base, l)
    ensures forall p :: p in Locks(base, l) ==> IsPath(p) && IsLockPath(base, p)
    ensures forall i, j :: 0 <= i < j < |Listed(base, l, locale)| ==>
      IsPair(base, locale, Listed(base, l, locale)[i], Listed(base, l, locale)[j])
  {
    hide Locks, Valid, RealNames, IsPath, IsLockPath, Apart, BaseNames;
    var found, xs := Locks(base, l), Listed(base, l, locale);
    SortPermutes(found, locale);
    SortSorts(found, locale);
    LocksDistinct(base, l);
    NoDuplicatesPermute(found, xs);
    assert forall p :: (p in found <==> p in multiset(found)) && (p in xs <==> p in multiset(xs));
    forall p | p in found ensures IsPath(p) && IsLockPath(base, p) {
      CollectedPaths(base, l, p);
      LockPathIs(base, p);
    }
    forall i, j | 0 <= i < j < |xs| ensures IsPair(base, locale, xs[i], xs[j]) {
      assert xs[i] in found && xs[j] in found;
      CollectedPaths(base, l, xs[i]);
    }
  }

  lemma {:induction false} PairDiffers(base: Path, locale: (Path, Path) -> bool, p: Path, q: Path)
    requires IsPair(base, locale, p, q)
    ensures p != q
  {
  }

  lemma {:induction false} ListedEvidence(base: Path, l: Listing, locale: (Path, Path) -> bool, read: Path -> Bytes)
    requires Evidence(base, l, locale, read).Ok?
    ensures Evidence(base, l, locale, read).value == Preimage(LockFiles(Listed(base, l, locale), read))
  {
    hide Preimage, Locks;
    EvidenceIs(base, l, locale, read);
  }

  /** Two files or more: the second is such a field. */
  lemma {:induction false} TwoFilesHoldLock(base: Path, l: Listing, locale: (Path, Path) -> bool, read: Path -> Bytes)
    requires IsTree(l) && BaseNames(base) && StrictWeakOrder(locale) && |Listed(base, l, locale)| >= 2
    ensures HoldsLock(base, locale, Preimage(LockFiles(Listed(base, l, locale), read)))
  {
    hide Listed, IsTree, Preimage, HoldsLock, PathBytes, BaseNames, StrictWeakOrder, IsPair;
    var xs := Listed(base, l, locale);
    ListedIs(base, l, locale);
    var w := SecondPath(LockFiles(xs, read));
    TextHoldsLock(base, locale, xs[0], xs[1], read(xs[0]), w);
  }

  /** Two files or more: one file whose content holds the rest hashes the same. */
  lemma {:induction false} Merged(base: Path, l: Listing, locale: (Path, Path) -> bool, read: Path -> Bytes)
    requires IsTree(l) && BaseNames(base) && StrictWeakOrder(locale) && Evidence(base, l, locale, read).Ok?
    requires |Listed(base, l, locale)| >= 2
    ensures Ambiguous(base, l, locale, read)
  {
    hide Listed, IsTree, Preimage, PathBytes, BaseNames, StrictWeakOrder, IsPair, Evidence, Locks;
    var xs := Listed(base, l, locale);
    ListedIs(base, l, locale);
    PairDiffers(base, locale, xs[0], xs[1]);
    ListedEvidence(base, l, locale, read);
    var content := FirstPath(LockFiles(xs, read));
    var other: Path -> Bytes := _ => content;
    OneFileRun(base, xs[0], locale, other);
    assert xs[0] in xs && xs[1] in xs;
    var m := Chain(xs[0][|base|..]);
    assert xs[1] !in Locks(base, m);
    assert !SameLockFiles(base, l, m, read, other);
    assert Evidence(base, m, locale, other) == Evidence(base, l, locale, read);
  }

  lemma {:induction false} HeldLock(
    base: Path, locale: (Path, Path) -> bool, body: Bytes) returns (p: Path, q: Path, u: Bytes, w: Bytes)
    requires HoldsLock(base, locale, body + [0])
    ensures IsPair(base, locale, p, q) && body + [0] == Layout(PathBytes(p), u, PathBytes(q), w)
  {
    hide PathBytes, Split, IsPair;
    var fields := Split(body + [0], 0);
    var k :| 2 <= k < |fields| - 2 && NamesLock(base, locale, fields[0], fields[k]);
    p, q :| IsPair(base, locale, p, q) && PathBytes(p) == fields[0] && PathBytes(q) == fields[k];
    u, w := CutAt(body, k);
  }

  /** One file whose content holds such a field: two files hash the same. */
  lemma {:induction false} Spoofed(base: Path, l: Listing, locale: (Path, Path) -> bool, read: Path -> Bytes)
    requires IsTree(l) && BaseNames(base) && StrictWeakOrder(locale) && Evidence(base, l, locale, read).Ok?
    requires |Listed(base, l, locale)| == 1 && HoldsLock(base, locale, Evidence(base, l, locale, read).value)
    ensures Ambiguous(base, l, locale, read)
  {
    hide Listed, IsTree, Preimage, PathBytes, BaseNames, StrictWeakOrder, Evidence, Locks, IsPath, IsLockPath, Split,
      Apart;
    var xs := Listed(base, l, locale);
    ListedIs(base, l, locale);
    ListedEvidence(base, l, locale, read);
    var content := FirstPath(LockFiles(xs, read));
    var body := PathBytes(xs[0]) + [0] + content;
    var p, q, u, w := HeldLock(base, locale, body);
    assert xs[0] in xs;
    SameFirst(base, xs[0], p, content, u + [0] + PathBytes(q) + [0] + w);
    var other: Path -> Bytes := r => if r == p then u else w;
    PairDiffers(base, locale, p, q);
    TwoFileRun(base, p, q, locale, other);
    var m := Pair(p[|base|..], q[|base|..]);
    assert q in Locks(base, m) && q !in Locks(base, l);
    assert !SameLockFiles(base, l, m, read, other);
    assert Evidence(base, m, locale, other) == Evidence(base, l, locale, read);
  }

  /** The first path can be read off a preimage, and then what follows it. */
  lemma {:induction false} SameFirst(base: Path, p: Path, q: Path, x: Bytes, y: Bytes)
    requires BaseNames(base) && IsLockPath(base, p) && IsLockPath(base, q)
    requires PathBytes(p) + [0] + x + [0] == PathBytes(q) + [0] + y + [0]
    ensures p == q && x == y
  {
    hide PathBytes, IsPath;
    LockPathIs(base, p);
    LockPathIs(base, q);
    PathBytesInjective(p, q);
    PathBytesInjective(q, p);
    assert PathBytes(p) + [0] + x + [0] == PathBytes(p) + [0] + (x + [0]);
    assert PathBytes(q) + [0] + y + [0] == PathBytes(q) + [0] + (y + [0]);
    FirstField(PathBytes(p), x + [0], PathBytes(q), y + [0]);
    assert x == (x + [0])[..|x|] && y == (y + [0])[..|y|];
  }

  /** Trees with one file each are told apart. */
  lemma {:induction false} SinglesDiffer(
    base: Path, l: Listing, m: Listing, locale: (Path, Path) -> bool, read: Path -> Bytes, other: Path -> Bytes)
    requires IsTree(l) && IsTree(m) && BaseNames(base) && StrictWeakOrder(locale)
    requires |Listed(base, l, locale)| == |Listed(base, m, locale)| == 1
    requires Preimage(LockFiles(Listed(base, l, locale), read)) == Preimage(LockFiles(Listed(base, m, locale), other))
    ensures SameLockFiles(base, l, m, read, other)
  {
    hide Listed, IsTree, Preimage, PathBytes, BaseNames, StrictWeakOrder, Locks, IsPath, IsLockPath;
    var xs, ys := Listed(base, l, locale), Listed(base, m, locale);
    ListedIs(base, l, locale);
    ListedIs(base, m, locale);
    var x := FirstPath(LockFiles(xs, read));
    var y := FirstPath(LockFiles(ys, other));
    assert xs[0] in xs && ys[0] in ys;
    SameFirst(base, xs[0], ys[0], x, y);
  }

  lemma {:induction false} SentinelHoldsNone(base: Path, locale: (Path, Path) -> bool)
    ensures !HoldsLock(base, locale, SENTINEL)
  {
    hide SENTINEL;
    SentinelIsFree();
    SplitPart(SENTINEL, [], 0);
  }

  lemma {:induction false} AmbiguousHolds(
    base: Path, l: Listing, m: Listing, locale: (Path, Path) -> bool, read: Path -> Bytes, other: Path -> Bytes)
    requires IsTree(l) && IsTree(m) && BaseNames(base) && StrictWeakOrder(locale)
    requires Evidence(base, l, locale, read).Ok? && Evidence(base, m, locale, other) == Evidence(base, l, locale, read)
    requires !SameLockFiles(base, l, m, read, other)
    ensures HoldsLock(base, locale, Evidence(base, l, locale, read).value)
  {
    var xs, ys := Listed(base, l, locale), Listed(base, m, locale);
    ListedEvidence(base, l, locale, read);
    ListedEvidence(base, m, locale, other);
    hide IsTree, Preimage, BaseNames, StrictWeakOrder, Locks, Evidence, HoldsLock, SENTINEL, Sort;
    NeverTheSentinel(LockFiles(xs, read));
    NeverTheSentinel(LockFiles(ys, other));
    if |xs| >= 2 {
      TwoFilesHoldLock(base, l, locale, read);
    } else if |ys| >= 2 {
      TwoFilesHoldLock(base, m, locale, other);
    } else if |xs| == 1 && |ys| == 1 {
      SinglesDiffer(base, l, m, locale, read, other);
    }
  }

  /** The exact condition: another tree hashes the same bytes if and only if some NUL-delimited field of the preimage,
      after the first two and before the last two, spells a lock file that can stand beside the first one and does not
      collate before it. Two files or more always have it; one file has it when its content holds such a path between
      NUL bytes. */
  lemma {:induction false} AmbiguousIff(base: Path, l: Listing, locale: (Path, Path) -> bool, read: Path -> Bytes)
    requires IsTree(l) && BaseNames(base) && StrictWeakOrder(locale) && Evidence(base, l, locale, read).Ok?
    ensures Ambiguous(base, l, locale, read) <==> HoldsLock(base, locale, Evidence(base, l, locale, read).value)
    ensures |Locks(base, l)| >= 2 ==> Ambiguous(base, l, locale, read)
  {
    var xs := Listed(base, l, locale);
    assert |xs| == |Locks(base, l)| by {
      SortPermutes(Locks(base, l), locale);
      assert |multiset(xs)| == |xs| && |multiset(Locks(base, l))| == |Locks(base, l)|;
    }
    EvidenceIs(base, l, locale, read);
    assert Evidence(base, l, locale, read).value == Preimage(LockFiles(xs, read));
    hide IsTree, Preimage, BaseNames, StrictWeakOrder, Locks, Evidence, HoldsLock, SENTINEL, Sort, Listed,
      SameLockFiles;
    if Ambiguous(base, l, locale, read) {
      var m, other: Path -> Bytes :|
        IsTree(m) && Evidence(base, m, locale, other) == Evidence(base, l, locale, read)
        && !SameLockFiles(base, l, m, read, other);
      AmbiguousHolds(base, l, m, locale, read, other);
    }
    if |xs| >= 2 {
      Merged(base, l, locale, read);
    } else if |xs| == 1 {
      if HoldsLock(base, locale, Evidence(base, l, locale, read).value) {
        Spoofed(base, l, locale, read);
      }
    } else {
      NeverTheSentinel(LockFiles(xs, read));
      SentinelHoldsNone(base, locale);
    }
  }

  /** Some field of a content, after the first and before the last, spells a lock file beside `p`. */
  ghost predicate ContentHoldsLock(base: Path, locale: (Path, Path) -> bool, p: Path, content: Bytes) {
    var fields := Split(content, 0);
    exists k :: 0 < k < |fields| - 1 && NamesLock(base, locale, PathBytes(p), fields[k])
  }

  lemma {:induction false} OuterFields(x: Bytes, content: Bytes)
    requires 0 !in x
    ensures Split(x + [0] + content + [0], 0) == [x] + Split(content, 0) + [[]]
  {
    var none: Bytes := [];
    assert Split(none, 0) == [[]];
    hide Split;
    SplitConcat(x + [0] + content, none, 0);
    assert x + [0] + content + [0] + none == x + [0] + content + [0];
    SplitPart(x, content, 0);
  }

  lemma {:induction false} OneFileFields(base: Path, locale: (Path, Path) -> bool, p: Path, content: Bytes)
    requires 0 !in PathBytes(p)
    ensures HoldsLock(base, locale, PathBytes(p) + [0] + content + [0]) <==> ContentHoldsLock(base, locale, p, content)
  {
    hide Split, PathBytes, NamesLock;
    OuterFields(PathBytes(p), content);
    var fields, inner := [PathBytes(p)] + Split(content, 0) + [[]], Split(content, 0);
    assert forall k :: 0 <= k < |inner| ==> inner[k] == fields[k + 1];
    if k :| 2 <= k < |fields| - 2 && NamesLock(base, locale, fields[0], fields[k]) {
      assert NamesLock(base, locale, PathBytes(p), inner[k - 1]);
    }
    if k :| 0 < k < |inner| - 1 && NamesLock(base, locale, PathBytes(p), inner[k]) {
      assert NamesLock(base, locale, fields[0], fields[k + 1]);
    }
  }

  /** A tree with one lock file: ambiguous if and only if the file names, between NUL bytes, a lock file that can stand
      beside it and does not collate before it. */
  lemma {:induction false} OneFileAmbiguousIff(
    base: Path, l: Listing, locale: (Path, Path) -> bool, read: Path -> Bytes, p: Path)
    requires IsTree(l) && BaseNames(base) && StrictWeakOrder(locale) && Evidence(base, l, locale, read).Ok?
    requires Locks(base, l) == [p]
    ensures Ambiguous(base, l, locale, read) <==> ContentHoldsLock(base, locale, p, read(p))
  {
    hide IsTree, Preimage, PathBytes, BaseNames, StrictWeakOrder, Evidence, IsPath, IsLockPath, Split, HoldsLock, Locks;
    AmbiguousIff(base, l, locale, read);
    ListedIs(base, l, locale);
    assert p in Locks(base, l);
    PathBytesInjective(p, p);
    EvidenceIs(base, l, locale, read);
    SortKeepsSorted([p], locale);
    FrameOfOne(p, read);
    OneFileFields(base, locale, p, read(p));
  }

  // ---- A pair of trees ----

  const A: Str := [0x61]
  const B: Str := [0x62]

  /** `a/packages.lock.json`, alone and beside `b/packages.lock.json`. */
  const ONE_FILE: Listing := Entries([Entry(A, Directory(Entries([LOCK])))])
  const TWO_FILES: Listing := Entries([Entry(A, Directory(Entries([LOCK]))), Entry(B, Directory(Entries([LOCK])))])
  const PATH_A: Path := [A, LOCK_NAME]
  const PATH_B: Path := [B, LOCK_NAME]

  /** Two trees of which one evidence is made: one file that holds the path of the other between NUL bytes, and two
      empty files. */
  lemma {:induction false} TwoTreesOneEvidence(locale: (Path, Path) -> bool, one: Path -> Bytes, two: Path -> Bytes)
    requires !locale(PATH_B, PATH_A)
    requires one(PATH_A) == [0] + PathBytes(PATH_B) + [0] && two(PATH_A) == [] && two(PATH_B) == []
    ensures IsTree(ONE_FILE) && Locks([], ONE_FILE) == [PATH_A]
    ensures IsTree(TWO_FILES) && Locks([], TWO_FILES) == [PATH_A, PATH_B]
    ensures Evidence([], ONE_FILE, locale, one).Ok?
    ensures Evidence([], ONE_FILE, locale, one) == Evidence([], TWO_FILES, locale, two)
  {
    SmallTrees();
    hide Evidence, Locks, IsTree, PathBytes, PATH_A, PATH_B, ONE_FILE, TWO_FILES, IsLockRoute;
    OneFileRun([], PATH_A, locale, one);
    TwoFileRun([], PATH_A, PATH_B, locale, two);
    assert PathBytes(PATH_A) + [0] + ([0] + PathBytes(PATH_B) + [0]) + [0] ==
      Layout(PathBytes(PATH_A), [], PathBytes(PATH_B), []);
  }

  lemma {:induction false} SmallTrees()
    ensures IsLockPath([], PATH_A) && IsLockPath([], PATH_B) && PATH_A[0..] == PATH_A && PATH_B[0..] == PATH_B
    ensures Apart(PATH_A, PATH_B) && Chain(PATH_A) == ONE_FILE && Pair(PATH_A, PATH_B) == TWO_FILES
  {
    hide LOCK_NAME, IsName, Chain, ChainEntry;
    LockName();
    ChainEntryIs(A);
    ChainEntryIs(B);
    assert PATH_A[0] == A && PATH_B[0] == B;
  }

  lemma {:induction false} AsciiIsWellFormed(s: Str)
    requires forall u :: u in s ==> u < 0x80
    ensures WellFormed(s)
  {
    if s != [] {
      assert s[0] in s && forall u :: u in s[1..] ==> u in s;
      AsciiIsWellFormed(s[1..]);
    }
  }

  lemma {:induction false} LockName()
    ensures IsEntryName(LOCK_NAME) && IsEntryName(A) && IsEntryName(B) && A !in EXCLUDED && B !in EXCLUDED
  {
    hide WellFormed;
    AsciiIsWellFormed(LOCK_NAME);
    AsciiIsWellFormed(A);
    AsciiIsWellFormed(B);
    assert |LOCK_NAME| == 18;
  }

  lemma {:induction false} ChainEntryIs(name: Str)
    ensures ChainEntry([name, LOCK_NAME]) == Entry(name, Directory(Entries([LOCK])))
    ensures Chain([name, LOCK_NAME]) == Entries([Entry(name, Directory(Entries([LOCK])))])
  {
    hide LOCK_NAME;
    var last := [LOCK_NAME];
    assert [name, LOCK_NAME][1..] == last;
    assert ChainEntry(last) == LOCK;
    assert Chain(last) == Entries([LOCK]);
  }
}
