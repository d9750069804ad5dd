/** POSIX paths as `node:path` computes them: normalisation, resolution and relative paths. */
module Paths {
  import opened Text

  const PARENT: Str := [DOT, DOT]

  /** One name on a normalised absolute path. */
  predicate IsName(s: Str) {
    s != [] && s != [DOT] && s != PARENT && SLASH !in s
  }

  ghost predicate Names(segments: seq<Str>) {
    forall s :: s in segments ==> IsName(s)
  }

  /** The segment stack of `normalizeString`: `above` keeps leading `..` segments. */
  function Reduce(acc: seq<Str>, segments: seq<Str>, above: bool): seq<Str>
    decreases |segments|
  {
    if segments == [] then acc
    else
      var s := segments[0];
      var next :=
        if s == [] || s == [DOT] then acc
        else if s != PARENT then acc + [s]
        else if acc != [] && acc[|acc| - 1] != PARENT then acc[..|acc| - 1]
        else if above then acc + [PARENT]
        else acc;
      Reduce(next, segments[1..], above)
  }

  predicate IsAbsolute(path: Str) {
    path != [] && path[0] == SLASH
  }

  /** `path.posix.normalize`. */
  function Normalize(path: Str): Str {
    if path == [] then [DOT]
    else
      var absolute, trailing := IsAbsolute(path), path[|path| - 1] == SLASH;
      var body := Join(Reduce([], Split(path, SLASH), !absolute), SLASH);
      if body == [] then (if absolute then [SLASH] else if trailing then [DOT, SLASH] else [DOT])
      else (if absolute then [SLASH] else []) + body + (if trailing then [SLASH] else [])
  }

  /** The text of a normalised absolute path. */
  function AbsoluteText(segments: seq<Str>): Str {
    [SLASH] + Join(segments, SLASH)
  }

  /** The text `path.resolve` normalises: arguments joined from the right until one is absolute. */
  function Gather(cwd: Str, args: seq<Str>, tail: Str): Str
    decreases |args|
  {
    if args == [] then cwd + [SLASH] + tail
    else
      var last, rest := args[|args| - 1], args[..|args| - 1];
      if last == [] then Gather(cwd, rest, tail)
      else if IsAbsolute(last) then last + [SLASH] + tail
      else Gather(cwd, rest, last + [SLASH] + tail)
  }

  /** `path.resolve(...args)` in the absolute directory `cwd`, as segments. */
  function Resolve(cwd: Str, args: seq<Str>): seq<Str> {
    Reduce([], Split(Gather(cwd, args, []), SLASH), false)
  }

  function CommonPrefix(a: seq<Str>, b: seq<Str>): (n: nat)
    ensures n <= |a| && n <= |b| && a[..n] == b[..n]
    ensures n < |a| && n < |b| ==> a[n] != b[n]
  {
    if a != [] && b != [] && a[0] == b[0] then
      var n := CommonPrefix(a[1..], b[1..]);
      assert a[..n + 1] == [a[0]] + a[1..][..n] && b[..n + 1] == [b[0]] + b[1..][..n];
      n + 1
    else 0
  }

  function Repeat(s: Str, n: nat): seq<Str> {
    seq(n, _ => s)
  }

  /** `path.relative(from, to)` of two normalised absolute paths. */
  function Relative(from: seq<Str>, to: seq<Str>): Str {
    var n := CommonPrefix(from, to);
    Join(Repeat(PARENT, |from| - n) + to[n..], SLASH)
  }

  // ---- Facts ----

  lemma {:induction false} SplitNothing()
    ensures Split<CodeUnit>([], SLASH) == [[]]
  {
  }

  lemma {:induction false} ReduceConcat(acc: seq<Str>, a: seq<Str>, b: seq<Str>, above: bool)
    ensures Reduce(acc, a + b, above) == Reduce(Reduce(acc, a, above), b, above)
    decreases |a|
  {
    if a == [] {
      assert a + b == b;
    } else {
      assert (a + b)[1..] == a[1..] + b;
      var s := a[0];
      var next :=
        if s == [] || s == [DOT] then acc
        else if s != PARENT then acc + [s]
        else if acc != [] && acc[|acc| - 1] != PARENT then acc[..|acc| - 1]
        else if above then acc + [PARENT]
        else acc;
      ReduceConcat(next, a[1..], b, above);
    }
  }

  /** The segments that survive where there is no `..`. */
  function Kept(segments: seq<Str>): seq<Str> {
    if segments == [] then []
    else (if segments[0] == [] || segments[0] == [DOT] then [] else [segments[0]]) + Kept(segments[1..])
  }

  lemma {:induction false} ReduceKept(acc: seq<Str>, segments: seq<Str>, above: bool)
    requires PARENT !in segments
    ensures Reduce(acc, segments, above) == acc + Kept(segments)
    decreases |segments|
  {
    if segments != [] {
      assert segments[0] in segments && PARENT !in segments[1..];
      var next := if segments[0] == [] || segments[0] == [DOT] then acc else acc + [segments[0]];
      ReduceKept(next, segments[1..], above);
    }
  }

  lemma {:induction false} KeptNames(segments: seq<Str>)
    requires PARENT !in segments && Free(segments, SLASH)
    ensures Names(Kept(segments))
  {
    if segments != [] {
      assert segments[0] in segments && forall s :: s in segments[1..] ==> s in segments;
      KeptNames(segments[1..]);
    }
  }

  lemma {:induction false} KeptAll(segments: seq<Str>)
    requires Names(segments)
    ensures Kept(segments) == segments
  {
    if segments != [] {
      assert IsName(segments[0]) && forall s :: s in segments[1..] ==> s in segments;
      KeptAll(segments[1..]);
    }
  }

  /** Without `above` the stack holds names only. */
  lemma {:induction false} ReduceNames(acc: seq<Str>, segments: seq<Str>)
    requires Names(acc) && Free(segments, SLASH)
    ensures Names(Reduce(acc, segments, false))
    decreases |segments|
  {
    if segments != [] {
      var s := segments[0];
      assert s in segments && forall t :: t in segments[1..] ==> t in segments;
      var next :=
        if s == [] || s == [DOT] then acc
        else if s != PARENT then acc + [s]
        else if acc != [] && acc[|acc| - 1] != PARENT then acc[..|acc| - 1]
        else acc;
      assert Names(next);
      ReduceNames(next, segments[1..]);
    }
  }

  lemma {:induction false} ResolveNames(cwd: Str, args: seq<Str>)
    ensures Names(Resolve(cwd, args))
  {
    JoinSplit(Gather(cwd, args, []), SLASH);
    ReduceNames([], Split(Gather(cwd, args, []), SLASH));
  }

  lemma {:induction false} NamesJoin(segments: seq<Str>)
    requires Names(segments) && segments != []
    ensures Split(Join(segments, SLASH), SLASH) == segments && Join(segments, SLASH) != []
    ensures segments[0] != [] && Join(segments, SLASH)[0] == segments[0][0]
  {
    assert IsName(segments[0]) by { assert segments[0] in segments; }
    SplitJoin(segments, SLASH);
  }

  /** Resolving an absolute root and then plain segments appends the names among them. */
  lemma {:induction false} GatherSegments(cwd: Str, root: seq<Str>, segments: seq<Str>, tail: Str)
    requires Names(root) && PARENT !in segments && Free(segments, SLASH) && PARENT !in Split(tail, SLASH)
    ensures Reduce([], Split(Gather(cwd, [AbsoluteText(root)] + segments, tail), SLASH), false)
      == root + Kept(segments) + Kept(Split(tail, SLASH))
    decreases |segments|
  {
    hide Split, Reduce;
    var args := [AbsoluteText(root)] + segments;
    if segments == [] {
      assert args == [AbsoluteText(root)] && args[|args| - 1] == AbsoluteText(root);
      SplitConcat(AbsoluteText(root), tail, SLASH);
      AbsoluteSplit(root);
      ReduceConcat([], Split(AbsoluteText(root), SLASH), Split(tail, SLASH), false);
      ReduceKept(root, Split(tail, SLASH), false);
    } else {
      var last, rest := segments[|segments| - 1], segments[..|segments| - 1];
      assert last in segments && args[|args| - 1] == last && args[..|args| - 1] == [AbsoluteText(root)] + rest;
      assert segments == rest + [last] && SLASH !in last;
      KeptConcat(rest, [last]);
      if last == [] {
        GatherSegments(cwd, root, rest, tail);
      } else {
        assert !IsAbsolute(last) by { assert last[0] in last; }
        SplitPart(last, tail, SLASH);
        KeptConcat([last], Split(tail, SLASH));
        GatherSegments(cwd, root, rest, last + [SLASH] + tail);
      }
    }
  }

  lemma {:induction false} KeptConcat(a: seq<Str>, b: seq<Str>)
    ensures Kept(a + b) == Kept(a) + Kept(b)
  {
    if a == [] {
      assert a + b == b;
    } else {
      assert (a + b)[1..] == a[1..] + b;
      KeptConcat(a[1..], b);
    }
  }

  lemma {:induction false} AbsoluteSplit(root: seq<Str>)
    requires Names(root)
    ensures Reduce([], Split(AbsoluteText(root), SLASH), false) == root
  {
    var body := Join(root, SLASH);
    assert [] + [SLASH] + body == AbsoluteText(root);
    SplitConcat([], body, SLASH);
    var none: Str := [];
    assert Split(none, SLASH) == [[]];
    if root == [] {
      assert Split(AbsoluteText(root), SLASH) == [[], []];
      var empties: seq<Str> := [[], []];
      ReduceKept([], empties, false);
      assert empties[1..] == [[]] && empties[1..][1..] == [];
      assert Kept(empties) == [];
    } else {
      NamesJoin(root);
      assert Split(AbsoluteText(root), SLASH) == [[]] + root;
      assert PARENT !in [[]] + root;
      ReduceKept([], [[]] + root, false);
      KeptAll(root);
      KeptConcat([[]], root);
    }
  }

  /** A text of names starts with `..` exactly when its first name does. */
  lemma {:induction false} JoinStartsWithDots(segments: seq<Str>)
    requires Names(segments) && segments != []
    ensures PARENT <= Join(segments, SLASH) <==> PARENT <= segments[0]
    ensures !IsAbsolute(Join(segments, SLASH))
  {
    assert IsName(segments[0]) by { assert segments[0] in segments; }
    assert segments[0][0] in segments[0];
    var text := Join(segments, SLASH);
    if |segments[0]| == 1 {
      assert segments[0] == [segments[0][0]];
    }
    if |segments| > 1 {
      assert text == segments[0] + [SLASH] + Join(segments[1..], SLASH);
      assert text[0] == segments[0][0];
      assert |segments[0]| >= 2 ==> text[1] == segments[0][1];
    }
  }
}
