/** What the release walk lists: a reference listing of the tree, and the walk's agreement with it. */
module ReleaseListing {
  import opened Chunks
  import opened Options
  import opened Sorting
  import opened Text
  import opened Utf16
  import opened ReleaseWalk

  /** What is found at a path that is not a directory, or a directory that cannot be listed. */
  datatype Leaf = Leaf(path: Path, node: Node)

  /** `n` is the node at `path` below `tree`. */
  ghost predicate NodeAt(tree: Node, path: Path, n: Node)
    decreases path
  {
    if path == [] then n == tree
    else tree.Directory? && exists i ::
      0 <= i < |tree.entries| && tree.entries[i].name == path[0] && NodeAt(tree.entries[i].node, path[1..], n)
  }

  /** Every leaf below a directory that is not excluded, in the order of the walk. */
  function ListDirectory(s: Settings, base: Path, n: Node): seq<Leaf>
    requires n.Directory?
    decreases n, 1
  {
    SortedEntries(n.entries);
    ListEntries(s, base, n, Sort(n.entries, NameLess))
  }

  function ListNode(s: Settings, base: Path, n: Node): seq<Leaf>
    decreases n, 2
  {
    if Report(base) in s.excluded then []
    else if n.Directory? then ListDirectory(s, base, n)
    else [Leaf(base, n)]
  }

  function ListEntries(s: Settings, base: Path, holder: Node, es: seq<Entry>): seq<Leaf>
    requires forall e :: e in es ==> e.node < holder
    decreases holder, 0, |es|
  {
    if es == [] then []
    else
      assert es[0] in es;
      ListNode(s, base + [es[0].name], es[0].node) + ListEntries(s, base, holder, es[1..])
  }

  // ---- The walk handles the listing leaf by leaf ----

  function Process(s: Settings, leaves: seq<Leaf>, p: Progress): Result<Progress, Failure> {
    if leaves == [] then Ok(p)
    else
      var first := WalkLeaf(s, leaves[0].path, leaves[0].node, p);
      if first.Err? then first else Process(s, leaves[1..], first.value)
  }

  lemma {:induction false} ProcessConcat(s: Settings, a: seq<Leaf>, b: seq<Leaf>, p: Progress)
    ensures Process(s, a + b, p) == var r := Process(s, a, p); if r.Err? then r else Process(s, b, r.value)
    decreases |a|
  {
    hide WalkLeaf;
    if a == [] {
      assert a + b == b;
    } else {
      assert (a + b)[1..] == a[1..] + b;
      var first := WalkLeaf(s, a[0].path, a[0].node, p);
      if first.Ok? {
        ProcessConcat(s, a[1..], b, first.value);
      }
    }
  }

  lemma {:induction false} WalkIsProcess(s: Settings, base: Path, n: Node, p: Progress)
    ensures WalkNode(s, base, n, p) == Process(s, ListNode(s, base, n), p)
    decreases n, 2
  {
    hide WalkLeaf, Report;
    if Report(base) !in s.excluded {
      if n.Directory? {
        WalkDirectoryIsProcess(s, base, n, p);
      } else {
        var leaves := [Leaf(base, n)];
        assert leaves[1..] == [];
      }
    }
  }

  lemma {:induction false} WalkDirectoryIsProcess(s: Settings, base: Path, n: Node, p: Progress)
    requires n.Directory?
    ensures WalkDirectory(s, base, n, p) == Process(s, ListDirectory(s, base, n), p)
    decreases n, 1
  {
    SortedEntries(n.entries);
    WalkEntriesIsProcess(s, base, n, Sort(n.entries, NameLess), p);
  }

  lemma {:induction false} WalkEntriesIsProcess(s: Settings, base: Path, holder: Node, es: seq<Entry>, p: Progress)
    requires forall e :: e in es ==> e.node < holder
    ensures WalkEntries(s, base, holder, es, p) == Process(s, ListEntries(s, base, holder, es), p)
    decreases holder, 0, |es|
  {
    hide WalkNode, ListNode;
    if es != [] {
      assert es[0] in es;
      var segments := base + [es[0].name];
      WalkIsProcess(s, segments, es[0].node, p);
      var first := WalkNode(s, segments, es[0].node, p);
      if first.Ok? {
        WalkEntriesIsProcess(s, base, holder, es[1..], first.value);
      }
      ProcessConcat(s, ListNode(s, segments, es[0].node), ListEntries(s, base, holder, es[1..]), p);
    }
  }

  // ---- The listing is in path order ----

  predicate PathLess(a: Path, b: Path) {
    LexLess(a, b, StrLess)
  }

  predicate LeafLess(a: Leaf, b: Leaf) {
    PathLess(a.path, b.path)
  }

  ghost predicate Below(base: Path, leaves: seq<Leaf>) {
    forall l :: l in leaves ==> base <= l.path
  }

  ghost predicate Increasing(leaves: seq<Leaf>) {
    forall i, j :: 0 <= i < j < |leaves| ==> LeafLess(leaves[i], leaves[j])
  }

  lemma {:induction false} LexPrefix(p: Path, a: Path, b: Path)
    ensures PathLess(p + a, p + b) == PathLess(a, b)
  {
    if p == [] {
      assert p + a == a && p + b == b;
    } else {
      LexPrefix(p[1..], a, b);
      assert (p + a)[1..] == p[1..] + a && (p + b)[1..] == p[1..] + b;
      StrLessIsTotal();
    }
  }

  /** Paths below different siblings are ordered like the siblings' names. */
  lemma {:induction false} SiblingsOrder(base: Path, a: Str, b: Str, x: Path, y: Path)
    requires StrLess(a, b) && base + [a] <= x && base + [b] <= y
    ensures PathLess(x, y)
  {
    var u, v := x[|base|..], y[|base|..];
    assert x == base + u && y == base + v && u[0] == a && v[0] == b;
    LexPrefix(base, u, v);
  }

  lemma {:induction false} ListNodeBelow(s: Settings, base: Path, n: Node)
    ensures Below(base, ListNode(s, base, n))
    decreases n, 2
  {
    hide Report;
    if Report(base) !in s.excluded && n.Directory? {
      SortedEntries(n.entries);
      ListEntriesBelow(s, base, n, Sort(n.entries, NameLess));
    }
  }

  /** Each leaf lies below the entry it came from. */
  lemma {:induction false} ListEntriesBelow(s: Settings, base: Path, holder: Node, es: seq<Entry>)
    requires forall e :: e in es ==> e.node < holder
    ensures Below(base, ListEntries(s, base, holder, es))
    ensures forall l :: l in ListEntries(s, base, holder, es) ==> exists e :: e in es && base + [e.name] <= l.path
    decreases holder, 0, |es|
  {
    hide ListNode;
    if es != [] {
      assert es[0] in es;
      ListNodeBelow(s, base + [es[0].name], es[0].node);
      ListEntriesBelow(s, base, holder, es[1..]);
      forall l | l in ListEntries(s, base, holder, es)
        ensures base <= l.path && exists e :: e in es && base + [e.name] <= l.path
      {
        if l in ListNode(s, base + [es[0].name], es[0].node) {
          assert base + [es[0].name] <= l.path;
          assert base == (base + [es[0].name])[..|base|];
        } else {
          var e :| e in es[1..] && base + [e.name] <= l.path;
          assert e in es;
        }
      }
    }
  }

  lemma {:induction false} ListNodeIncreasing(s: Settings, base: Path, n: Node)
    requires ValidNode(n)
    ensures Increasing(ListNode(s, base, n))
    decreases n, 2
  {
    hide Report;
    if Report(base) !in s.excluded && n.Directory? {
      ListDirectoryIncreasing(s, base, n);
    }
  }

  lemma {:induction false} ListDirectoryIncreasing(s: Settings, base: Path, n: Node)
    requires n.Directory? && ValidNode(n)
    ensures Increasing(ListDirectory(s, base, n))
    decreases n, 1
  {
    SortedEntries(n.entries);
    NamesSorted(n);
    ListEntriesIncreasing(s, base, n, Sort(n.entries, NameLess));
  }

  lemma {:induction false} NameLessIsWeak()
    ensures StrictWeakOrder(NameLess)
  {
    StrLessIsTotal();
  }

  ghost predicate NamesIncrease(es: seq<Entry>) {
    forall i, j :: 0 <= i < j < |es| ==> StrLess(es[i].name, es[j].name)
  }

  /** Distinct names sort strictly. */
  lemma {:induction false} NamesSorted(n: Node)
    requires n.Directory? && ValidNode(n)
    ensures NamesIncrease(Sort(n.entries, NameLess))
    ensures forall e :: e in Sort(n.entries, NameLess) ==> ValidNode(e.node)
  {
    var es := Sort(n.entries, NameLess);
    NameLessIsWeak();
    SortSorts(n.entries, NameLess);
    SortPermutes(n.entries, NameLess);
    assert NoDuplicates(n.entries);
    NoDuplicatesPermute(n.entries, es);
    forall i, j | 0 <= i < j < |es| ensures StrLess(es[i].name, es[j].name) {
      assert es[i] in n.entries && es[j] in n.entries && !NameLess(es[j], es[i]);
      StrLessIsTotal();
    }
    forall e | e in es ensures ValidNode(e.node) {
      assert e in n.entries;
    }
  }

  lemma {:induction false} ListEntriesIncreasing(s: Settings, base: Path, holder: Node, es: seq<Entry>)
    requires forall e :: e in es ==> e.node < holder && ValidNode(e.node)
    requires NamesIncrease(es)
    ensures Increasing(ListEntries(s, base, holder, es))
    decreases holder, 0, |es|
  {
    hide ListNode, ValidNode, PathLess;
    if es != [] {
      assert es[0] in es;
      var segments := base + [es[0].name];
      var a, b := ListNode(s, segments, es[0].node), ListEntries(s, base, holder, es[1..]);
      ListNodeIncreasing(s, segments, es[0].node);
      ListNodeBelow(s, segments, es[0].node);
      ListEntriesIncreasing(s, base, holder, es[1..]);
      ListEntriesBelow(s, base, holder, es[1..]);
      forall i, j | 0 <= i < j < |a + b| ensures LeafLess((a + b)[i], (a + b)[j]) {
        if i < |a| && j >= |a| {
          var x, y := a[i], b[j - |a|];
          assert x in a && y in b;
          var e :| e in es[1..] && base + [e.name] <= y.path;
          var k :| 0 <= k < |es[1..]| && es[1..][k] == e;
          assert StrLess(es[0].name, es[k + 1].name);
          SiblingsOrder(base, es[0].name, e.name, x.path, y.path);
        }
      }
    }
  }

  // ---- The listing holds exactly the leaves of the tree that no exclusion covers ----

  /** No path from length `from` up to the whole of `q` is excluded. */
  predicate Clear(s: Settings, q: Path, from: nat) {
    forall k :: from <= k <= |q| ==> Report(q[..k]) !in s.excluded
  }

  lemma {:induction false} ListedNodeIff(s: Settings, base: Path, n: Node, leaf: Leaf)
    ensures leaf in ListNode(s, base, n) <==>
      base <= leaf.path && NodeAt(n, leaf.path[|base|..], leaf.node) && !leaf.node.Directory?
        && Clear(s, leaf.path, |base|)
    decreases n, 2
  {
    hide Report, ListDirectory;
    var q := leaf.path;
    if base <= q {
      assert q[..|base|] == base;
    }
    if Report(base) in s.excluded {
      assert base <= q ==> !Clear(s, q, |base|);
    } else if n.Directory? {
      ListedDirectoryIff(s, base, n, leaf);
      if base <= q {
        if |q| == |base| {
          assert q[|base|..] == [];
        } else {
          assert Clear(s, q, |base|) <==> Clear(s, q, |base| + 1);
        }
      }
    } else if base <= q {
      assert NodeAt(n, q[|base|..], leaf.node) <==> q[|base|..] == [] && leaf.node == n;
      assert q[|base|..] == [] ==> q == base && forall k :: |base| <= k <= |q| ==> q[..k] == base;
    }
  }

  lemma {:induction false} ListedDirectoryIff(s: Settings, base: Path, n: Node, leaf: Leaf)
    requires n.Directory?
    ensures leaf in ListDirectory(s, base, n) <==>
      base < leaf.path && NodeAt(n, leaf.path[|base|..], leaf.node) && !leaf.node.Directory?
        && Clear(s, leaf.path, |base| + 1)
    decreases n, 1
  {
    hide Report, Clear, NodeAt, ListEntries, ListedFrom;
    var es := Sort(n.entries, NameLess);
    SortedEntries(n.entries);
    SortPermutes(n.entries, NameLess);
    ListedEntriesIff(s, base, n, es, leaf);
    if leaf in ListDirectory(s, base, n) {
      var e :| e in es && ListedFrom(s, base, e, leaf);
      FromEntry(s, base, n, e, leaf);
    }
    if base < leaf.path && NodeAt(n, leaf.path[|base|..], leaf.node) && !leaf.node.Directory?
      && Clear(s, leaf.path, |base| + 1)
    {
      var e := ToEntry(s, base, n, leaf);
      assert e in es;
    }
  }

  ghost predicate ListedFrom(s: Settings, base: Path, e: Entry, leaf: Leaf) {
    && base + [e.name] <= leaf.path && NodeAt(e.node, leaf.path[|base| + 1..], leaf.node)
    && !leaf.node.Directory? && Clear(s, leaf.path, |base| + 1)
  }

  lemma {:induction false} FromEntry(s: Settings, base: Path, n: Node, e: Entry, leaf: Leaf)
    requires n.Directory? && e in n.entries && ListedFrom(s, base, e, leaf)
    ensures base < leaf.path && NodeAt(n, leaf.path[|base|..], leaf.node)
    ensures !leaf.node.Directory? && Clear(s, leaf.path, |base| + 1)
  {
    hide Clear;
    var q := leaf.path;
    assert q[..|base|] == (base + [e.name])[..|base|] == base;
    var rest := q[|base|..];
    assert rest[0] == q[|base|] == (base + [e.name])[|base|] && rest[1..] == q[|base| + 1..];
    var i :| 0 <= i < |n.entries| && n.entries[i] == e;
  }

  lemma {:induction false} ToEntry(s: Settings, base: Path, n: Node, leaf: Leaf) returns (e: Entry)
    requires n.Directory? && base < leaf.path && NodeAt(n, leaf.path[|base|..], leaf.node)
    requires !leaf.node.Directory? && Clear(s, leaf.path, |base| + 1)
    ensures e in n.entries && ListedFrom(s, base, e, leaf)
  {
    hide Clear;
    var rest := leaf.path[|base|..];
    assert leaf.path == base + rest && rest[1..] == leaf.path[|base| + 1..];
    var i :| 0 <= i < |n.entries| && n.entries[i].name == rest[0] && NodeAt(n.entries[i].node, rest[1..], leaf.node);
    e := n.entries[i];
  }

  lemma {:induction false} ListedEntriesIff(s: Settings, base: Path, holder: Node, es: seq<Entry>, leaf: Leaf)
    requires forall e :: e in es ==> e.node < holder
    ensures leaf in ListEntries(s, base, holder, es) <==> exists e :: e in es && ListedFrom(s, base, e, leaf)
    decreases holder, 0, |es|
  {
    hide ListNode, NodeAt, Clear;
    if es != [] {
      assert es[0] in es && es == [es[0]] + es[1..];
      ListedNodeIff(s, base + [es[0].name], es[0].node, leaf);
      ListedEntriesIff(s, base, holder, es[1..], leaf);
      assert ListedFrom(s, base, es[0], leaf) <==> leaf in ListNode(s, base + [es[0].name], es[0].node);
      if e :| e in es && ListedFrom(s, base, e, leaf) {
        assert e == es[0] || e in es[1..];
      }
    }
  }

  // ---- When the walk succeeds, and with what ----

  function Portables(s: Settings, leaves: seq<Leaf>): seq<Str> {
    seq(|leaves|, i requires 0 <= i < |leaves| => s.lower(Report(leaves[i].path)))
  }

  /** A readable regular file whose reported path is admissible. */
  predicate Admissible(l: Leaf) {
    && l.node.File? && l.node.readable && |ToBytes(Report(l.path))| <= 512
    && forall u :: u in Report(l.path) ==> u >= ' ' as int && u != 0x7F
  }

  lemma {:induction false} AdmissibleIff(l: Leaf)
    ensures Admissible(l) <==>
      l.node.File? && l.node.readable && Utf8Length(Report(l.path)) <= 512 && !HasControl(Report(l.path))
  {
    hide Report, ToBytes, Utf8Length;
    BytesCounted(Report(l.path));
  }

  function Records(s: Settings, leaves: seq<Leaf>): seq<FileRecord>
    requires forall l :: l in leaves ==> l.node.File?
  {
    seq(|leaves|, i requires 0 <= i < |leaves| => RecordOf(s, leaves[i].path, leaves[i].node.content))
  }

  ghost predicate AllAdmissible(leaves: seq<Leaf>) {
    forall l :: l in leaves ==> Admissible(l)
  }

  ghost predicate AllNew(s: Settings, leaves: seq<Leaf>, seen: set<Str>) {
    NoDuplicates(Portables(s, leaves)) && forall i :: 0 <= i < |leaves| ==> Portables(s, leaves)[i] !in seen
  }

  lemma {:induction false} AllNewStep(s: Settings, leaves: seq<Leaf>, seen: set<Str>)
    requires leaves != []
    ensures AllNew(s, leaves, seen) <==>
      s.lower(Report(leaves[0].path)) !in seen && AllNew(s, leaves[1..], seen + {s.lower(Report(leaves[0].path))})
  {
    hide Report;
    var a, b := Portables(s, leaves), Portables(s, leaves[1..]);
    assert a == [a[0]] + b;
    if AllNew(s, leaves[1..], seen + {a[0]}) && a[0] !in seen {
      forall i, j | 0 <= i < j < |a| ensures a[i] != a[j] {
        assert a[j] == b[j - 1];
        if i > 0 { assert a[i] == b[i - 1]; }
      }
      forall i | 0 <= i < |a| ensures a[i] !in seen {
        if i > 0 { assert a[i] == b[i - 1]; }
      }
    }
    if AllNew(s, leaves, seen) {
      forall i, j | 0 <= i < j < |b| ensures b[i] != b[j] { assert b[i] == a[i + 1] && b[j] == a[j + 1]; }
      forall i | 0 <= i < |b| ensures b[i] !in seen + {a[0]} { assert b[i] == a[i + 1]; }
    }
  }

  lemma {:induction false} ProcessIff(s: Settings, leaves: seq<Leaf>, p: Progress)
    ensures Process(s, leaves, p).Ok? <==>
      AllAdmissible(leaves) && AllNew(s, leaves, p.seen) && (leaves != [] ==> |p.files| + |leaves| <= s.maximum)
    ensures Process(s, leaves, p).Ok? ==> Process(s, leaves, p).value.files == p.files + Records(s, leaves)
    decreases |leaves|
  {
    hide Report, HasControl, Utf8Length, ToBytes, AllNew, RecordOf;
    if leaves != [] {
      var l := leaves[0];
      AdmissibleIff(l);
      var first := WalkLeaf(s, l.path, l.node, p);
      AllNewStep(s, leaves, p.seen);
      assert leaves == [l] + leaves[1..];
      assert AllAdmissible(leaves) <==> Admissible(l) && AllAdmissible(leaves[1..]);
      if first.Ok? {
        ProcessIff(s, leaves[1..], first.value);
        if Process(s, leaves, p).Ok? {
          assert Records(s, leaves) == [RecordOf(s, l.path, l.node.content)] + Records(s, leaves[1..]);
        }
      }
    } else {
      AllNewNothing(s, p.seen);
    }
  }

  lemma {:induction false} AllNewNothing(s: Settings, seen: set<Str>)
    ensures AllNew(s, [], seen)
  {
  }

  /** The walk of the release root. */
  function Walk(s: Settings, root: Node): Result<Progress, Failure>
    requires root.Directory?
  {
    WalkDirectory(s, [], root, Progress([], {}))
  }

  /** The leaf belongs to the release: it is in the tree and neither it nor a directory above it is excluded. */
  ghost predicate Released(s: Settings, root: Node, l: Leaf) {
    l.path != [] && NodeAt(root, l.path, l.node) && !l.node.Directory? && Clear(s, l.path, 1)
  }

  /** Main result: the listed leaves are exactly the released ones, once each and in increasing path order; the walk
      succeeds exactly when all are admissible files with pairwise distinct lower-case paths and not too many, and
      then records precisely them. */
  lemma {:induction false} WalkIsExact(s: Settings, root: Node)
    requires root.Directory? && ValidNode(root)
    ensures var leaves := ListDirectory(s, [], root);
      && Increasing(leaves) && NoDuplicates(leaves)
      && (forall l :: l in leaves <==> Released(s, root, l))
      && (Walk(s, root).Ok? <==>
            AllAdmissible(leaves) && NoDuplicates(Portables(s, leaves)) && (leaves != [] ==> |leaves| <= s.maximum))
      && (Walk(s, root).Ok? ==> AllAdmissible(leaves) && Walk(s, root).value.files == Records(s, leaves))
  {
    hide Report, WalkDirectory, Process, Released, Utf8Length, HasControl, RecordOf;
    var leaves := ListDirectory(s, [], root);
    ListDirectoryIncreasing(s, [], root);
    IncreasingIsDistinct(leaves);
    forall l ensures l in leaves <==> Released(s, root, l) {
      ReleasedIff(s, root, l);
    }
    WalkDirectoryIsProcess(s, [], root, Progress([], {}));
    ProcessIff(s, leaves, Progress([], {}));
    if AllAdmissible(leaves) {
      assert [] + Records(s, leaves) == Records(s, leaves);
    }
  }

  lemma {:induction false} ReleasedIff(s: Settings, root: Node, l: Leaf)
    requires root.Directory?
    ensures l in ListDirectory(s, [], root) <==> Released(s, root, l)
  {
    ListedDirectoryIff(s, [], root, l);
    assert l.path[0..] == l.path;
  }

  lemma {:induction false} IncreasingIsDistinct(leaves: seq<Leaf>)
    requires Increasing(leaves)
    ensures NoDuplicates(leaves)
  {
    StrLessIsTotal();
    forall i, j | 0 <= i < j < |leaves| ensures leaves[i] != leaves[j] {
      LexLessAt(leaves[i].path, leaves[i].path, leaves[i].path, StrLess);
      assert LeafLess(leaves[i], leaves[j]);
    }
  }

  lemma {:induction false} IncreasingIsUnique(xs: seq<Leaf>, ys: seq<Leaf>)
    requires Increasing(xs) && Increasing(ys) && forall l :: l in xs <==> l in ys
    ensures xs == ys
  {
    IncreasingIsDistinct(xs);
    IncreasingIsDistinct(ys);
    PermutationIff(xs, ys);
    StrLessIsTotal();
    LexLessIsTotal(StrLess);
    assert Sorted(xs, LeafLess) && Sorted(ys, LeafLess) && Separates(LeafLess, xs) by {
      forall i, j | 0 <= i < j < |xs| ensures !LeafLess(xs[j], xs[i]) {
        LexLessAt(xs[i].path, xs[j].path, xs[i].path, StrLess);
        assert LeafLess(xs[i], xs[j]);
      }
      forall i, j | 0 <= i < j < |ys| ensures !LeafLess(ys[j], ys[i]) {
        LexLessAt(ys[i].path, ys[j].path, ys[i].path, StrLess);
        assert LeafLess(ys[i], ys[j]);
      }
      forall a, b | a in xs && b in xs && a != b ensures LeafLess(a, b) || LeafLess(b, a) {
        var i :| 0 <= i < |xs| && xs[i] == a;
        var j :| 0 <= j < |xs| && xs[j] == b;
        assert i < j ==> LeafLess(xs[i], xs[j]);
        assert j < i ==> LeafLess(xs[j], xs[i]);
      }
    }
    SortedIsUnique(xs, ys, LeafLess);
  }

  /** Two trees with the same leaves at the same paths, however their directories enumerate them. */
  ghost predicate SameLeaves(a: Node, b: Node) {
    forall q: Path, n: Node :: !n.Directory? ==> (NodeAt(a, q, n) <==> NodeAt(b, q, n))
  }

  /** Neither success nor failure nor the list depends on enumeration order. */
  lemma {:induction false} WalkForgetsEnumeration(s: Settings, a: Node, b: Node)
    requires a.Directory? && b.Directory? && ValidNode(a) && ValidNode(b) && SameLeaves(a, b)
    ensures Walk(s, a) == Walk(s, b)
  {
    hide Report, WalkDirectory, Process, NodeAt, Clear;
    var xs, ys := ListDirectory(s, [], a), ListDirectory(s, [], b);
    ListDirectoryIncreasing(s, [], a);
    ListDirectoryIncreasing(s, [], b);
    forall l ensures l in xs <==> l in ys {
      ReleasedIff(s, a, l);
      ReleasedIff(s, b, l);
    }
    IncreasingIsUnique(xs, ys);
    WalkDirectoryIsProcess(s, [], a, Progress([], {}));
    WalkDirectoryIsProcess(s, [], b, Progress([], {}));
  }

  // ---- What the manifest reports about the list ----

  ghost predicate PosixNames(q: Path) {
    forall name :: name in q ==> SLASH !in name && BACKSLASH !in name
  }

  lemma {:induction false} JoinHolds(q: Path, u: CodeUnit)
    requires forall name :: name in q ==> u !in name
    requires u != SLASH
    ensures u !in Join(q, SLASH)
  {
    if |q| >= 1 {
      assert q[0] in q;
      if |q| > 1 {
        JoinHolds(q[1..], u);
      }
    }
  }

  /** The reported path spells the walked segments, so nothing is lost in the manifest. */
  lemma {:induction false} ReportedPathSplits(q: Path)
    requires q != [] && PosixNames(q)
    ensures Split(Report(q), SLASH) == q
  {
    JoinHolds(q, BACKSLASH);
    ReplaceAbsent(Join(q, SLASH), BACKSLASH, [SLASH]);
    SplitJoin(q, SLASH);
  }

  /** The manifest's order is not that of the path texts: `a/b` is listed before `a.txt`. */
  lemma {:induction false} SegmentOrderIsNotTextOrder()
    ensures var x, y := [Lit("a"), Lit("b")], [Lit("a.txt")];
      PathLess(x, y) && StrLess(Report(y), Report(x))
  {
    var x, y := [Lit("a"), Lit("b")], [Lit("a.txt")];
    assert Lit("a.txt")[1..][0] == DOT;
    assert Join(x, SLASH) == [0x61, SLASH, 0x62] && Join(y, SLASH) == Lit("a.txt");
    JoinHolds(x, BACKSLASH);
    JoinHolds(y, BACKSLASH);
    ReplaceAbsent(Join(x, SLASH), BACKSLASH, [SLASH]);
    ReplaceAbsent(Join(y, SLASH), BACKSLASH, [SLASH]);
    assert Report(y)[1..][0] == DOT && Report(x)[1..][0] == SLASH;
  }

  function ContentBytes(leaves: seq<Leaf>): nat
    requires forall l :: l in leaves ==> l.node.File?
  {
    if leaves == [] then 0
    else |Flatten(leaves[0].node.content)| + ContentBytes(leaves[1..])
  }

  /** `file_count` and `total_bytes` of the manifest. */
  method CountFiles(
    s: Settings, files: seq<FileRecord>, ghost leaves: seq<Leaf>) returns (fileCount: nat, totalBytes: nat)
    requires (forall l :: l in leaves ==> l.node.File?) && files == Records(s, leaves)
    ensures fileCount == |leaves| && totalBytes == ContentBytes(leaves)
  {
    fileCount, totalBytes := |files|, 0;
    assert leaves[0..] == leaves;
    for i := 0 to |files|
      invariant ContentBytes(leaves) == totalBytes + ContentBytes(leaves[i..])
    {
      assert leaves[i] in leaves && leaves[i..][1..] == leaves[i + 1..];
      totalBytes := totalBytes + files[i].bytes;
    }
    assert leaves[|files|..] == [];
  }
}
