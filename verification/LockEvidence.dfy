/** The digest preimage of setup-dotnet-nuget/cache-evidence.mjs: its framing and what it identifies. */
module LockEvidence {
  import opened Options
  import opened Sorting
  import opened Text
  import opened Utf8
  import opened Utf16
  import opened LockWalk
  import opened LockOrder

  datatype LockFile = LockFile(path: Bytes, content: Bytes)

  const SENTINEL: Bytes := ToBytes(Lit("packages-lock-unavailable"))

  function FrameOne(f: LockFile): Bytes {
    f.path + [0] + f.content + [0]
  }

  function Frame(files: seq<LockFile>): Bytes {
    if files == [] then [] else FrameOne(files[0]) + Frame(files[1..])
  }

  /** What is hashed for a list of lock files. */
  function Preimage(files: seq<LockFile>): Bytes {
    if files == [] then SENTINEL else Frame(files)
  }

  // ---- Decoding ----

  ghost predicate PathsFree(files: seq<LockFile>) {
    forall f :: f in files ==> 0 !in f.path
  }

  ghost predicate ContentsFree(files: seq<LockFile>) {
    forall f :: f in files ==> 0 !in f.content
  }

  /** The fields of a framed list, between the NULs, and the empty rest. */
  function Fields(files: seq<LockFile>): seq<Bytes> {
    if files == [] then [[]] else [files[0].path, files[0].content] + Fields(files[1..])
  }

  lemma {:induction false} SplitFrameOne(f: LockFile, rest: Bytes)
    requires 0 !in f.path && 0 !in f.content
    ensures Split(FrameOne(f) + rest, 0) == [f.path, f.content] + Split(rest, 0)
  {
    hide Split;
    SplitPart(f.content, rest, 0);
    SplitPart(f.path, f.content + [0] + rest, 0);
    assert FrameOne(f) + rest == f.path + [0] + (f.content + [0] + rest);
    assert [f.path] + ([f.content] + Split(rest, 0)) == [f.path, f.content] + Split(rest, 0);
  }

  lemma {:induction false} SplitFrame(files: seq<LockFile>)
    requires PathsFree(files) && ContentsFree(files)
    ensures Split(Frame(files), 0) == Fields(files)
  {
    if files != [] {
      assert files[0] in files && forall g :: g in files[1..] ==> g in files;
      hide Split;
      SplitFrame(files[1..]);
      SplitFrameOne(files[0], Frame(files[1..]));
    }
  }

  lemma {:induction false} FieldsInjective(a: seq<LockFile>, b: seq<LockFile>)
    requires Fields(a) == Fields(b)
    ensures a == b
  {
    if a == [] || b == [] {
      assert a != [] ==> |Fields(a)| >= 2;
      assert b != [] ==> |Fields(b)| >= 2;
    } else {
      var x, y := Fields(a), Fields(b);
      assert x[0] == a[0].path && x[1] == a[0].content && x[2..] == Fields(a[1..]);
      assert y[0] == b[0].path && y[1] == b[0].content && y[2..] == Fields(b[1..]);
      FieldsInjective(a[1..], b[1..]);
      assert a == [a[0]] + a[1..] && b == [b[0]] + b[1..];
    }
  }

  lemma {:induction false} SentinelIsFree()
    ensures 0 !in SENTINEL && SENTINEL != []
  {
    var s := Lit("packages-lock-unavailable");
    assert forall u :: u in s ==> u != 0;
    NulFree(s);
    assert |s| == 25;
    assert |Scalars(s)| >= 1;
  }

  /** The framing is uniquely decodable: NUL-free lists with one preimage are one list, and no list of lock files is
      confused with the absence of any. */
  lemma {:induction false} PreimageInjective(a: seq<LockFile>, b: seq<LockFile>)
    requires PathsFree(a) && ContentsFree(a) && PathsFree(b) && ContentsFree(b)
    requires Preimage(a) == Preimage(b)
    ensures a == b
  {
    hide SENTINEL;
    SentinelIsFree();
    if a == [] || b == [] {
      if a != [] { FrameHoldsNul(a); }
      if b != [] { FrameHoldsNul(b); }
    } else {
      SplitFrame(a);
      SplitFrame(b);
      FieldsInjective(a, b);
    }
  }

  lemma {:induction false} FrameHoldsNul(files: seq<LockFile>)
    requires files != []
    ensures 0 in Frame(files)
  {
    var f := files[0];
    assert FrameOne(f)[|f.path|] == 0;
    assert Frame(files)[|f.path|] == 0;
  }

  /** No list at all, whatever its files hold, shares the preimage of the empty one. */
  lemma {:induction false} NeverTheSentinel(files: seq<LockFile>)
    ensures Preimage(files) == SENTINEL <==> files == []
  {
    hide SENTINEL;
    SentinelIsFree();
    if files != [] {
      FrameHoldsNul(files);
    }
  }

  // ---- From the tree to the preimage ----

  /** `path.relative(workspace, lockFile)` with `/` separators, as UTF-8. */
  function PathBytes(p: Path): Bytes {
    ToBytes(Join(p, SLASH))
  }

  function LockFiles(paths: seq<Path>, read: Path -> Bytes): seq<LockFile> {
    seq(|paths|, i requires 0 <= i < |paths| => LockFile(PathBytes(paths[i]), read(paths[i])))
  }

  /** The digest loop: `read` yields the bytes of a collected file, or nothing when reading fails. */
  method DigestLockFiles(paths: seq<Path>, read: Path -> Option<Bytes>) returns (digested: Option<Bytes>)
    ensures digested.None? <==> exists p :: p in paths && read(p).None?
    ensures digested.Some? ==>
      digested.value == Preimage(LockFiles(paths, p => if read(p).Some? then read(p).value else []))
  {
    if |paths| == 0 {
      return Some(SENTINEL);
    }
    ghost var files := LockFiles(paths, p => if read(p).Some? then read(p).value else []);
    var bytes: Bytes := [];
    for i := 0 to |paths|
      invariant forall j :: 0 <= j < i ==> read(paths[j]).Some?
      invariant bytes == Frame(files[..i])
    {
      var content := read(paths[i]);
      if content.None? {
        assert paths[i] in paths;
        return None;
      }
      bytes := bytes + PathBytes(paths[i]) + [0];
      bytes := bytes + content.value + [0];
      FrameAppend(files[..i], files[i]);
      assert files[..i + 1] == files[..i] + [files[i]];
    }
    assert files[..|paths|] == files;
    return Some(bytes);
  }

  lemma {:induction false} FrameAppend(files: seq<LockFile>, f: LockFile)
    ensures Frame(files + [f]) == Frame(files) + f.path + [0] + f.content + [0]
  {
    if files == [] {
      assert files + [f] == [f] && [f][1..] == [];
    } else {
      assert (files + [f])[1..] == files[1..] + [f];
      FrameAppend(files[1..], f);
    }
  }

  /** A directory entry's name: no NUL, no `/`, and valid UTF-16. */
  predicate IsName(s: Str) {
    NUL !in s && SLASH !in s && WellFormed(s)
  }

  ghost predicate IsPath(p: Path) {
    p != [] && forall s :: s in p ==> IsName(s)
  }

  lemma {:induction false} WellFormedConcat(s: Str, t: Str)
    requires WellFormed(s) && WellFormed(t)
    ensures WellFormed(s + t)
    decreases |s|
  {
    hide IsHigh, IsLow;
    if s == [] {
      assert s + t == t;
    } else if |s| >= 2 && IsHigh(s[0]) && IsLow(s[1]) {
      WellFormedConcat(s[2..], t);
      assert (s + t)[2..] == s[2..] + t && (s + t)[0] == s[0] && (s + t)[1] == s[1];
    } else {
      WellFormedConcat(s[1..], t);
      assert (s + t)[1..] == s[1..] + t && (s + t)[0] == s[0];
    }
  }

  lemma {:induction false} JoinIsText(p: Path)
    requires IsPath(p)
    ensures NUL !in Join(p, SLASH) && WellFormed(Join(p, SLASH))
  {
    assert p[0] in p;
    if |p| > 1 {
      assert forall s :: s in p[1..] ==> s in p;
      JoinIsText(p[1..]);
      var slash: Str := [SLASH];
      WellFormedConcat(slash, Join(p[1..], SLASH));
      WellFormedConcat(p[0], slash + Join(p[1..], SLASH));
      assert p[0] + [SLASH] + Join(p[1..], SLASH) == p[0] + (slash + Join(p[1..], SLASH));
    }
  }

  lemma {:induction false} PathBytesInjective(p: Path, q: Path)
    requires IsPath(p) && IsPath(q)
    ensures 0 !in PathBytes(p)
    ensures PathBytes(p) == PathBytes(q) ==> p == q
  {
    JoinIsText(p);
    JoinIsText(q);
    NulFree(Join(p, SLASH));
    if PathBytes(p) == PathBytes(q) {
      ToBytesInjective(Join(p, SLASH), Join(q, SLASH));
      SplitJoin(p, SLASH);
      SplitJoin(q, SLASH);
    }
  }

  /** The preimage of one run: walk, sort, read. */
  function Evidence(base: Path, l: Listing, locale: (Path, Path) -> bool, read: Path -> Bytes): Result<Bytes, Failure> {
    var found := Collect(base, l, []);
    if found.Err? then Err(found.error) else Ok(Preimage(LockFiles(Sort(found.value, locale), read)))
  }

  /** `resolveNugetCacheEvidence` up to the hash: the preimage and the number of lock files. */
  method ResolveLockEvidence(base: Path, l: Listing, locale: (Path, Path) -> bool, read: Path -> Option<Bytes>)
    returns (evidence: Result<(Bytes, nat), Failure>)
    ensures var found := Collect(base, l, []);
      if found.Err? then evidence == Err(found.error)
      else if exists p :: p in found.value && read(p).None? then evidence == Err(ReadFailed)
      else
        && evidence.Ok? && evidence.value.1 == |found.value|
        && Ok(evidence.value.0) == Evidence(base, l, locale, p => if read(p).Some? then read(p).value else [])
  {
    var collector := new Collector();
    var failure := collector.CollectLockFiles(base, l);
    if failure.Some? {
      return Err(failure.value);
    }
    var lockFiles := Sort(collector.result, locale);
    SortPermutes(collector.result, locale);
    var digested := DigestLockFiles(lockFiles, read);
    if digested.None? {
      return Err(ReadFailed);
    }
    return Ok((digested.value, |lockFiles|));
  }

  /** Main result, one direction: two successful runs over one tree hash the same bytes, in whatever order its
      directories are enumerated. */
  lemma {:induction false} EvidenceForgetsEnumeration(
    base: Path, a: Listing, b: Listing, locale: (Path, Path) -> bool, read: Path -> Bytes)
    requires SameTree(a, b) && Valid(a) && Valid(b) && StrictWeakOrder(locale)
    requires Evidence(base, a, locale, read).Ok? && Evidence(base, b, locale, read).Ok?
    requires Separates(locale, Locks(base, a))
    ensures Evidence(base, a, locale, read) == Evidence(base, b, locale, read)
  {
    hide Collect, Locks, SameTree;
    CollectsLocks(base, a, []);
    assert [] + Locks(base, a) == Locks(base, a);
    SortedListForgetsEnumeration(base, a, b, locale);
  }

  /** Lock files at well-formed paths, with contents that hold no NUL. */
  ghost predicate Plain(paths: seq<Path>, read: Path -> Bytes) {
    forall p :: p in paths ==> IsPath(p) && 0 !in read(p)
  }

  /** Equal preimages mean the same sorted paths with the same contents. */
  lemma {:induction false} SortedListIdentified(
    xs: seq<Path>, ys: seq<Path>, readA: Path -> Bytes, readB: Path -> Bytes)
    requires Plain(xs, readA) && Plain(ys, readB)
    requires Preimage(LockFiles(xs, readA)) == Preimage(LockFiles(ys, readB))
    ensures xs == ys && forall i :: 0 <= i < |xs| ==> readA(xs[i]) == readB(xs[i])
  {
    hide Preimage, IsPath, PathBytes;
    var fs, gs := LockFiles(xs, readA), LockFiles(ys, readB);
    FilesAreFree(xs, readA);
    FilesAreFree(ys, readB);
    PreimageInjective(fs, gs);
    assert |xs| == |fs| && |ys| == |gs|;
    forall i | 0 <= i < |xs| ensures xs[i] == ys[i] && readA(xs[i]) == readB(xs[i]) {
      assert fs[i] == gs[i] && xs[i] in xs && ys[i] in ys;
      PathBytesInjective(xs[i], ys[i]);
    }
  }

  /** What a successful run hashes: the framed list of the sorted lock files. */
  lemma {:induction false} EvidenceIs(base: Path, l: Listing, locale: (Path, Path) -> bool, read: Path -> Bytes)
    requires Evidence(base, l, locale, read).Ok?
    ensures Collect(base, l, []) == Ok(Locks(base, l))
    ensures Evidence(base, l, locale, read).value == Preimage(LockFiles(Sort(Locks(base, l), locale), read))
    ensures forall p :: p in Sort(Locks(base, l), locale) <==> p in Locks(base, l)
  {
    hide Collect, Locks, Preimage;
    CollectsLocks(base, l, []);
    assert [] + Locks(base, l) == Locks(base, l);
    SortPermutes(Locks(base, l), locale);
  }

  /** The other direction: equal preimages mean the same lock files with the same contents. */
  lemma {:induction false} EvidenceIdentifiesLocks(
    base: Path, a: Listing, b: Listing, locale: (Path, Path) -> bool, readA: Path -> Bytes, readB: Path -> Bytes)
    requires Evidence(base, a, locale, readA).Ok?
      && Evidence(base, a, locale, readA) == Evidence(base, b, locale, readB)
    requires Plain(Locks(base, a), readA) && Plain(Locks(base, b), readB)
    ensures forall p :: p in Locks(base, a) <==> p in Locks(base, b)
    ensures forall p :: p in Locks(base, a) ==> readA(p) == readB(p)
  {
    hide Collect, Locks, Preimage, IsPath, Evidence;
    EvidenceIs(base, a, locale, readA);
    EvidenceIs(base, b, locale, readB);
    var xs, ys := Sort(Locks(base, a), locale), Sort(Locks(base, b), locale);
    SortedListIdentified(xs, ys, readA, readB);
    forall p | p in Locks(base, a) ensures readA(p) == readB(p) {
      var i :| 0 <= i < |xs| && xs[i] == p;
    }
  }

  /** Every enumeration of the tree hashes the same bytes. */
  ghost predicate OneEvidence(base: Path, l: Listing, locale: (Path, Path) -> bool, read: Path -> Bytes) {
    forall b :: SameTree(l, b) && Valid(b) ==> Evidence(base, b, locale, read) == Evidence(base, l, locale, read)
  }

  /** The exact condition: where the walk succeeds in every order, every order hashes the same bytes if and only if
      `localeCompare` tells the lock files apart. */
  lemma {:induction false} OneEvidenceIff(base: Path, l: Listing, locale: (Path, Path) -> bool, read: Path -> Bytes)
    requires Valid(l) && StrictWeakOrder(locale) && SucceedsInEveryOrder(base, l)
    requires Plain(Locks(base, l), read)
    ensures OneEvidence(base, l, locale, read) <==> Separates(locale, Locks(base, l))
  {
    hide Collect, Locks, SameTree, Valid, Mirror, Separates, StrictWeakOrder, Preimage, IsPath, LockFiles;
    SameTreeReflexive(l);
    forall b | SameTree(l, b) && Valid(b) ensures Evidence(base, b, locale, read).Ok? {
      assert Collect(base, b, []).Ok?;
    }
    if Separates(locale, Locks(base, l)) {
      forall b | SameTree(l, b) && Valid(b) ensures Evidence(base, b, locale, read) == Evidence(base, l, locale, read) {
        EvidenceForgetsEnumeration(base, l, b, locale, read);
      }
    } else {
      MirrorSame(l);
      MirrorValid(l);
      MirrorTellsApart(base, l, locale, read);
    }
  }

  /** Backwards, lock files that compare as equal are framed in the other order. */
  lemma {:induction false} MirrorTellsApart(base: Path, l: Listing, locale: (Path, Path) -> bool, read: Path -> Bytes)
    requires Valid(l) && StrictWeakOrder(locale) && Plain(Locks(base, l), read) && !Separates(locale, Locks(base, l))
    requires Evidence(base, l, locale, read).Ok? && Evidence(base, Mirror(l), locale, read).Ok?
    ensures Evidence(base, l, locale, read) != Evidence(base, Mirror(l), locale, read)
  {
    hide Collect, Locks, Valid, Mirror, Separates, StrictWeakOrder, Preimage, IsPath, Evidence, LockFiles, Reversed;
    var xs := Locks(base, l);
    EvidenceIs(base, l, locale, read);
    EvidenceIs(base, Mirror(l), locale, read);
    MirrorLocks(base, l);
    ReversedPermutes(xs);
    assert forall p :: p in Reversed(xs) ==> p in multiset(xs);
    LocksDistinct(base, l);
    ReversalShows(xs, locale);
    if Evidence(base, l, locale, read) == Evidence(base, Mirror(l), locale, read) {
      SortedListIdentified(Sort(xs, locale), Sort(Reversed(xs), locale), read, read);
    }
  }

  lemma {:induction false} FilesAreFree(paths: seq<Path>, read: Path -> Bytes)
    requires forall p :: p in paths ==> IsPath(p) && 0 !in read(p)
    ensures PathsFree(LockFiles(paths, read)) && ContentsFree(LockFiles(paths, read))
  {
    hide IsPath, PathBytes;
    var files := LockFiles(paths, read);
    forall f | f in files ensures 0 !in f.path && 0 !in f.content {
      var i :| 0 <= i < |files| && files[i] == f;
      assert paths[i] in paths;
      PathBytesInjective(paths[i], paths[i]);
    }
  }
}
