/** The install directory of wrangler-pinned/wrangler-pinned.mjs: how it is resolved, checked and cleared. */
module InstallTarget {
  import opened Options
  import opened Text
  import opened Paths

  type Path = seq<Str>

  /** The file system as `existsSync` and `realpathSync.native` answer for normalised absolute paths. */
  datatype FileSystem = FileSystem(present: Path -> bool, realPath: Path -> Path)

  ghost predicate RealPathsAreNormal(fs: FileSystem) {
    forall p :: fs.present(p) ==> Names(fs.realPath(p))
  }

  // ---- resolveReal ----

  /** The real path of the deepest existing ancestor with the missing remainder re-joined. */
  function RealOf(fs: FileSystem, p: Path): Path {
    if fs.present(p) then fs.realPath(p)
    else if p == [] then []
    else RealOf(fs, p[..|p| - 1]) + [p[|p| - 1]]
  }

  /** `resolveReal`: the loop over `current` and `missing`. */
  method ResolveReal(fs: FileSystem, p: Path) returns (r: Path)
    ensures r == RealOf(fs, p)
  {
    var current, missing := p, [];
    while !fs.present(current) && current != []
      invariant current + missing == p
      invariant RealOf(fs, p) == RealOf(fs, current) + missing
      decreases |current|
    {
      missing := [current[|current| - 1]] + missing;
      current := current[..|current| - 1];
    }
    r := (if fs.present(current) then fs.realPath(current) else current) + missing;
  }

  /** How many leading segments of `p` exist, counting the root as existing. */
  ghost predicate DeepestExisting(fs: FileSystem, p: Path, n: nat) {
    && n <= |p| && (n > 0 ==> fs.present(p[..n]))
    && forall k :: n < k <= |p| ==> !fs.present(p[..k])
  }

  /** It is the deepest existing ancestor that is made real, and nothing of the remainder is lost. */
  lemma {:induction false} RealOfIsDeepest(fs: FileSystem, p: Path) returns (n: nat)
    ensures DeepestExisting(fs, p, n)
    ensures RealOf(fs, p) == (if fs.present(p[..n]) then fs.realPath(p[..n]) else []) + p[n..]
    decreases |p|
  {
    assert p[..|p|] == p;
    if fs.present(p) || p == [] {
      n := |p|;
      assert p[n..] == [];
    } else {
      var parent := p[..|p| - 1];
      n := RealOfIsDeepest(fs, parent);
      assert forall k :: 0 <= k <= |parent| ==> parent[..k] == p[..k];
      assert p[n..] == parent[n..] + [p[|p| - 1]];
      forall k | n < k <= |p| ensures !fs.present(p[..k]) {
        if k < |p| { assert p[..k] == parent[..k]; }
      }
    }
  }

  lemma {:induction false} RealOfNames(fs: FileSystem, p: Path)
    requires RealPathsAreNormal(fs) && Names(p)
    ensures Names(RealOf(fs, p))
    decreases |p|
  {
    if !fs.present(p) && p != [] {
      assert forall s :: s in p[..|p| - 1] ==> s in p;
      RealOfNames(fs, p[..|p| - 1]);
      assert p[|p| - 1] in p;
    }
  }

  // ---- isInside ----

  /** `isInside`, on the text that `path.relative` returns. */
  predicate IsInside(child: Path, parent: Path) {
    var rel := Relative(parent, child);
    rel != [] && !IsAbsolute(rel) && rel != PARENT && !(PARENT + [SLASH] <= rel)
  }

  /** `p` is `a` or lies below it. */
  predicate AtOrBelow(p: Path, a: Path) {
    a <= p
  }

  /** No path at all lies at or below both. */
  ghost predicate Disjoint(a: Path, b: Path) {
    forall p: Path :: !(AtOrBelow(p, a) && AtOrBelow(p, b))
  }

  /** `a` is a proper ancestor of `b`. */
  predicate Above(a: Path, b: Path) {
    a < b
  }

  lemma {:induction false} JoinFirst(segments: seq<Str>)
    requires segments != [] && Free(segments, SLASH) && segments[0] != []
    ensures var text := Join(segments, SLASH);
      && text != [] && !IsAbsolute(text)
      && (text == PARENT || PARENT + [SLASH] <= text <==> segments[0] == PARENT)
  {
    var first, text := segments[0], Join(segments, SLASH);
    assert first in segments && first[0] in first;
    assert first <= text && (|text| > |first| ==> text[|first|] == SLASH);
    assert forall i :: 0 <= i < |first| ==> first[i] in first;
    assert |segments| > 1 ==> text == first + [SLASH] + Join(segments[1..], SLASH);
    if first == PARENT && |segments| > 1 {
      assert text == first + [SLASH] + Join(segments[1..], SLASH);
      assert (PARENT + [SLASH]) == text[..3];
    }
    assert |first| == 2 && |text| >= 2 ==> text[..2] == first;
    assert |text| >= 3 && PARENT + [SLASH] <= text ==> text[..2] == PARENT && text[2] == SLASH;
  }

  /** Main result: the string tests decide ancestry exactly, whatever the names look like (`..x` included). */
  lemma {:induction false} IsInsideIff(child: Path, parent: Path)
    requires Names(child) && Names(parent)
    ensures IsInside(child, parent) <==> Above(parent, child)
  {
    var n := CommonPrefix(parent, child);
    var ups, rest := Repeat(PARENT, |parent| - n), child[n..];
    var segments := ups + rest;
    assert parent <= child <==> n == |parent| by {
      if n == |parent| { assert parent[..n] == parent; }
    }
    forall s | s in segments ensures SLASH !in s && s != [] {
      if s in rest { assert s in child; } else { assert s == PARENT; }
    }
    if segments == [] {
      assert n == |parent| && n == |child| && child[..n] == child && parent[..n] == parent;
      assert Join(segments, SLASH) == [];
    } else {
      JoinFirst(segments);
      if n < |parent| {
        assert segments[0] == PARENT;
      } else {
        assert segments[0] in child && IsName(child[n]);
        assert |child| > |parent|;
      }
    }
  }

  /** Hence `isInside` is a strict partial order on normalised paths. */
  lemma {:induction false} IsInsideIsStrictOrder(a: Path, b: Path, c: Path)
    requires Names(a) && Names(b) && Names(c)
    ensures !IsInside(a, a)
    ensures IsInside(a, b) ==> !IsInside(b, a)
    ensures IsInside(a, b) && IsInside(b, c) ==> IsInside(a, c)
  {
    IsInsideIff(a, a);
    IsInsideIff(a, b);
    IsInsideIff(b, a);
    IsInsideIff(b, c);
    IsInsideIff(a, c);
  }

  // ---- resolveTarget ----

  const DEFAULT_DIR: Str := Lit("d1-wrangler")

  /** The empty string stands for an unset variable. */
  datatype Settings = Settings(cwd: Str, runnerTemp: Str, workspace: Str, dir: Str)

  predicate HasControl(s: Str) {
    NUL in s || CR in s || LF in s
  }

  /** A segment that Win32 would shorten: it ends in a dot or a space and is neither `.` nor `..`. */
  predicate HasTrailingDot(s: Str) {
    exists part :: part in Split(ReplaceUnit(s, BACKSLASH, [SLASH]), SLASH) && part != [DOT] && part != PARENT
      && part != [] && (part[|part| - 1] == DOT || part[|part| - 1] == SPACE)
  }

  /** `path.resolve` of the requested directory, taken below `temp` unless it is absolute. */
  function Requested(s: Settings, temp: Path): Path {
    var input := if s.dir == [] then DEFAULT_DIR else s.dir;
    if IsAbsolute(input) then Resolve(s.cwd, [input])
    else Reduce([], Split(AbsoluteText(temp) + [SLASH] + input, SLASH), false)
  }

  function WorkspacePath(fs: FileSystem, s: Settings): Path {
    RealOf(fs, Resolve(s.cwd, [s.workspace]))
  }

  /** `resolveTarget`; `None` is a refusal. */
  function TargetOf(fs: FileSystem, s: Settings): Option<Path> {
    var input := if s.dir == [] then DEFAULT_DIR else s.dir;
    var runnerTemp := Resolve(s.cwd, [s.runnerTemp]);
    if !IsAbsolute(s.runnerTemp) || !fs.present(runnerTemp) || s.workspace == [] then None
    else if HasControl(input) || HasTrailingDot(input) then None
    else
      var temp := fs.realPath(runnerTemp);
      var target, ws := RealOf(fs, Requested(s, temp)), WorkspacePath(fs, s);
      if !IsInside(target, temp) then None
      else if target == ws || IsInside(target, ws) || IsInside(ws, target) then None
      else Some(target)
  }

  function TempPath(fs: FileSystem, s: Settings): Path {
    fs.realPath(Resolve(s.cwd, [s.runnerTemp]))
  }

  /** Main result: a returned target is strictly below the real RUNNER_TEMP, and no path at all lies at or below
      both the target and the workspace. */
  lemma {:induction false} TargetIsDisjointFromWorkspace(fs: FileSystem, s: Settings)
    requires RealPathsAreNormal(fs) && TargetOf(fs, s).Some?
    ensures var target, ws := TargetOf(fs, s).value, WorkspacePath(fs, s);
      Above(TempPath(fs, s), target) && Disjoint(target, ws)
  {
    hide Split, Join, Relative, HasTrailingDot, DEFAULT_DIR, Reduce;
    var temp := TempPath(fs, s);
    var target, ws := TargetOf(fs, s).value, WorkspacePath(fs, s);
    TargetNames(fs, s);
    IsInsideIff(target, temp);
    IsInsideIff(target, ws);
    IsInsideIff(ws, target);
    DisjointIff(target, ws);
  }

  /** Two paths with a common descendant are equal or one lies above the other. */
  lemma {:induction false} CommonDescendant(a: Path, b: Path, p: Path)
    requires a <= p && b <= p
    ensures a == b || Above(a, b) || Above(b, a)
  {
    if |a| <= |b| {
      assert a == p[..|a|] && b == p[..|b|];
      assert a == b[..|a|];
    } else {
      assert b == a[..|b|];
    }
  }

  lemma {:induction false} DisjointIff(a: Path, b: Path)
    ensures Disjoint(a, b) <==> !(a == b || Above(a, b) || Above(b, a))
  {
    if Disjoint(a, b) {
      assert !(AtOrBelow(a, a) && AtOrBelow(a, b)) && !(AtOrBelow(b, a) && AtOrBelow(b, b));
    } else {
      var p :| AtOrBelow(p, a) && AtOrBelow(p, b);
      CommonDescendant(a, b, p);
    }
  }

  lemma {:induction false} TargetNames(fs: FileSystem, s: Settings)
    requires RealPathsAreNormal(fs) && fs.present(Resolve(s.cwd, [s.runnerTemp]))
    ensures Names(TempPath(fs, s)) && Names(WorkspacePath(fs, s)) && Names(RealOf(fs, Requested(s, TempPath(fs, s))))
  {
    hide Split, Reduce, DEFAULT_DIR;
    var temp := TempPath(fs, s);
    var input := if s.dir == [] then DEFAULT_DIR else s.dir;
    ResolveNames(s.cwd, [s.workspace]);
    RealOfNames(fs, Resolve(s.cwd, [s.workspace]));
    ResolveNames(s.cwd, [input]);
    JoinSplit(AbsoluteText(temp) + [SLASH] + input, SLASH);
    ReduceNames([], Split(AbsoluteText(temp) + [SLASH] + input, SLASH));
    RealOfNames(fs, Requested(s, temp));
  }

  /** The refusal is exact: among admissible settings the target is refused exactly when it is not strictly below
      RUNNER_TEMP or shares a path with the workspace. */
  lemma {:induction false} TargetIff(fs: FileSystem, s: Settings)
    requires RealPathsAreNormal(fs)
    requires IsAbsolute(s.runnerTemp) && fs.present(Resolve(s.cwd, [s.runnerTemp])) && s.workspace != []
    requires var input := if s.dir == [] then DEFAULT_DIR else s.dir; !HasControl(input) && !HasTrailingDot(input)
    ensures var target, ws := RealOf(fs, Requested(s, TempPath(fs, s))), WorkspacePath(fs, s);
      TargetOf(fs, s) == if Above(TempPath(fs, s), target) && Disjoint(target, ws) then Some(target) else None
  {
    hide Split, Join, Relative, HasTrailingDot, DEFAULT_DIR, Reduce;
    var target, ws := RealOf(fs, Requested(s, TempPath(fs, s))), WorkspacePath(fs, s);
    TargetNames(fs, s);
    IsInsideIff(target, TempPath(fs, s));
    IsInsideIff(target, ws);
    IsInsideIff(ws, target);
    DisjointIff(target, ws);
  }

  /** The requested directory, or `d1-wrangler`. */
  function Dir(s: Settings): Str {
    if s.dir == [] then Lit("d1-wrangler") else s.dir
  }

  /** The absolute path of the requested directory, or its path below `temp`. */
  function RequestedFrom(s: Settings, temp: Path): Path {
    if IsAbsolute(Dir(s)) then Resolve(s.cwd, [Dir(s)])
    else Reduce([], Split(AbsoluteText(temp) + Lit("/") + Dir(s), SLASH), false)
  }

  /** A directory name that no platform reads in another way: no NUL or line break, and no segment but `.` and `..` that
      ends in a dot or a space. */
  ghost predicate PortableDir(dir: Str, slashed: Str) {
    && IsSlashed(dir, slashed) && (forall u :: u in dir ==> u !in Lit("\r\n") && u != 0)
    && forall part :: part in Split(slashed, SLASH) && part != [] && part != Lit(".") && part != Lit("..") ==>
      part[|part| - 1] !in Lit(". ")
  }

  lemma {:induction false} PortableIff(dir: Str)
    ensures !HasControl(dir) && !HasTrailingDot(dir) <==> exists slashed :: PortableDir(dir, slashed)
  {
    assert Lit("\r\n") == [CR, LF] && Lit(".") == [DOT] && Lit("..") == PARENT && Lit(". ") == [DOT, SPACE];
    hide Split, Lit, ReplaceUnit;
    var slashed := ReplaceUnit(dir, BACKSLASH, [SLASH]);
    SlashedIs(dir);
    forall other | IsSlashed(dir, other) ensures other == slashed {
      SlashedOnly(dir, slashed, other);
    }
    assert !HasControl(dir) && !HasTrailingDot(dir) ==> PortableDir(dir, slashed);
  }

  lemma {:induction false} RequestedIs(s: Settings, temp: Path)
    ensures Requested(s, temp) == RequestedFrom(s, temp)
  {
    assert Lit("/") == [SLASH] && Lit("d1-wrangler") == DEFAULT_DIR;
    hide Lit, Split, Reduce;
  }

  /** Exactly when there is a target, and which: the real path of the requested directory, of settings that are complete
      and portable, strictly below RUNNER_TEMP and sharing no path with the workspace. */
  lemma {:induction false} TargetExistsIff(fs: FileSystem, s: Settings)
    requires RealPathsAreNormal(fs)
    ensures var target, ws := RealOf(fs, RequestedFrom(s, TempPath(fs, s))), WorkspacePath(fs, s);
      TargetOf(fs, s) ==
        if IsAbsolute(s.runnerTemp) && fs.present(Resolve(s.cwd, [s.runnerTemp])) && s.workspace != []
          && (exists slashed :: PortableDir(Dir(s), slashed)) && Above(TempPath(fs, s), target) && Disjoint(target, ws)
        then Some(target) else None
  {
    hide Split, Join, Relative, HasTrailingDot, HasControl, Reduce, PortableDir, Requested, RequestedFrom, Disjoint,
      Resolve, RealOf;
    assert Lit("d1-wrangler") == DEFAULT_DIR;
    RequestedIs(s, TempPath(fs, s));
    PortableIff(Dir(s));
    if IsAbsolute(s.runnerTemp) && fs.present(Resolve(s.cwd, [s.runnerTemp])) && s.workspace != []
      && !HasControl(Dir(s)) && !HasTrailingDot(Dir(s))
    {
      TargetIff(fs, s);
    }
  }

  // ---- Clearing the directory ----

  /** A disk as the entries below its root. */
  class Disk {
    var entries: map<Path, Str>

    /** `rmSync(target, { recursive: true, force: true })`. */
    method RemoveTree(target: Path)
      modifies this
      ensures entries == map p | p in old(entries) && !AtOrBelow(p, target) :: old(entries)[p]
    {
      entries := map p | p in entries && !AtOrBelow(p, target) :: entries[p];
    }

    /** The start of `run`: resolve the target and clear it. A refused target deletes nothing. The workspace and
        everything outside the target keep their entries, and so does RUNNER_TEMP itself. */
    method ClearTarget(fs: FileSystem, s: Settings) returns (target: Option<Path>)
      requires RealPathsAreNormal(fs)
      modifies this
      ensures target == TargetOf(fs, s)
      ensures target.None? ==> entries == old(entries)
      ensures target.Some? ==>
        forall p :: p in entries <==> p in old(entries) && !AtOrBelow(p, target.value)
      ensures forall p :: p in entries ==> p in old(entries) && entries[p] == old(entries)[p]
      ensures forall p :: p in old(entries) && AtOrBelow(p, WorkspacePath(fs, s)) ==> p in entries
      ensures TempPath(fs, s) in old(entries) ==> TempPath(fs, s) in entries
    {
      hide TargetOf, WorkspacePath, TempPath;
      target := TargetOf(fs, s);
      if target.Some? {
        TargetIsDisjointFromWorkspace(fs, s);
        ghost var ws := WorkspacePath(fs, s);
        forall p | AtOrBelow(p, ws) ensures !AtOrBelow(p, target.value) {
          assert !(AtOrBelow(p, target.value) && AtOrBelow(p, ws));
        }
        RemoveTree(target.value);
      }
    }
  }
}
