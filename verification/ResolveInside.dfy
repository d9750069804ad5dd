/** `assertSafeRelativePath` and `resolveInside` of lib/contract.mjs. */
module ResolveInside {
  import opened Options
  import opened Text
  import opened Paths

  predicate DriveLetter(value: Str) {
    |value| >= 2 && IsLetter(value[0]) && value[1] == COLON
  }

  /** `path.win32.isAbsolute`. */
  predicate Win32Absolute(value: Str) {
    || (value != [] && (value[0] == SLASH || value[0] == BACKSLASH))
    || (|value| >= 3 && DriveLetter(value) && (value[2] == SLASH || value[2] == BACKSLASH))
  }

  function Slashed(value: Str): Str {
    ReplaceUnit(value, BACKSLASH, [SLASH])
  }

  /** `assertSafeRelativePath`; `None` is a thrown error. */
  function SafeRelativePath(value: Str): Option<Str> {
    var input := Slashed(value);
    if Trim(value) == [] || NUL in value then None
    else if IsAbsolute(input) || Win32Absolute(value) || DriveLetter(value) || PARENT in Split(input, SLASH) then None
    else
      var normalized := Normalize(input);
      if normalized == [DOT] || PARENT + [SLASH] <= normalized then None else Some(normalized)
  }

  /** `resolveInside`, as the segments of the path it returns. */
  function Resolved(cwd: Str, root: Str, relativePath: Str): Option<seq<Str>> {
    var safe := SafeRelativePath(relativePath);
    if safe.None? then None
    else
      var absoluteRoot := Resolve(cwd, [root]);
      var resolved := Resolve(cwd, [AbsoluteText(absoluteRoot)] + Split(safe.value, SLASH));
      var relative := Relative(absoluteRoot, resolved);
      if PARENT <= relative || IsAbsolute(relative) then None else Some(resolved)
  }

  /** The names a relative input consists of. */
  function NamesOf(value: Str): seq<Str> {
    Kept(Split(Slashed(value), SLASH))
  }

  lemma {:induction false} CommonPrefixOfExtension(a: seq<Str>, b: seq<Str>)
    ensures CommonPrefix(a, a + b) == |a|
  {
    var n := CommonPrefix(a, a + b);
  }

  lemma {:induction false} RelativeOfExtension(a: seq<Str>, b: seq<Str>)
    ensures Relative(a, a + b) == Join(b, SLASH)
  {
    CommonPrefixOfExtension(a, b);
    assert Repeat(PARENT, 0) + (a + b)[|a|..] == b;
  }

  lemma {:induction false} SlashedNonEmpty(value: Str)
    requires Trim(value) != []
    ensures Slashed(value) != []
  {
    assert value != [];
  }

  /** Names joined again, or a dot for none. */
  function Body(names: seq<Str>): Str {
    if names == [] then [DOT] else Join(names, SLASH)
  }

  lemma {:induction false} BodySplits(names: seq<Str>, trailing: bool)
    requires Names(names)
    ensures var text := Body(names) + (if trailing then [SLASH] else []);
      PARENT !in Split(text, SLASH) && Free(Split(text, SLASH), SLASH) && Kept(Split(text, SLASH)) == names
  {
    hide Split, Join;
    var body := Body(names);
    assert Split(body, SLASH) == if names == [] then [[DOT]] else names by {
      if names == [] { SplitPart([DOT], [], SLASH); } else { NamesJoin(names); }
    }
    assert PARENT !in names;
    KeptAll(names);
    assert Kept([[DOT]]) == [] && Kept([[]]) == [];
    JoinSplit(body, SLASH);
    if trailing {
      SplitConcat(body, [], SLASH);
      SplitNothing();
      assert body + [SLASH] + [] == body + [SLASH];
      KeptConcat(Split(body, SLASH), [[]]);
    } else {
      assert body + [] == body;
    }
  }

  /** The normal form of an input without `..`. */
  lemma {:induction false} NormalizedNames(input: Str)
    requires input != [] && !IsAbsolute(input) && PARENT !in Split(input, SLASH)
    ensures var names, trailing := Kept(Split(input, SLASH)), input[|input| - 1] == SLASH;
      Names(names) && Normalize(input) == Body(names) + (if trailing then [SLASH] else [])
  {
    hide Split, Join;
    JoinSplit(input, SLASH);
    ReduceKept([], Split(input, SLASH), true);
    KeptNames(Split(input, SLASH));
    var names := Kept(Split(input, SLASH));
    JoinNothing();
    if names != [] {
      NamesJoin(names);
    }
    var none: Str := [];
    assert none + Join(names, SLASH) == Join(names, SLASH) && Body(names) + none == Body(names);
    assert [] + names == names;
  }

  lemma {:induction false} JoinNothing()
    ensures Join<CodeUnit>([], SLASH) == []
  {
  }

  /** Exactly which inputs are safe relative paths. The final `../` test never fires. */
  lemma {:induction false} SafeRelativePathIff(value: Str)
    ensures SafeRelativePath(value).Some? <==>
      && Trim(value) != [] && NUL !in value && !IsAbsolute(Slashed(value)) && !Win32Absolute(value)
      && !DriveLetter(value)
      && PARENT !in Split(Slashed(value), SLASH)
      && (NamesOf(value) == [] ==> Slashed(value)[|Slashed(value)| - 1] == SLASH)
    ensures SafeRelativePath(value).Some? ==>
      && Names(NamesOf(value)) && Kept(Split(SafeRelativePath(value).value, SLASH)) == NamesOf(value)
      && PARENT !in Split(SafeRelativePath(value).value, SLASH)
      && Free(Split(SafeRelativePath(value).value, SLASH), SLASH)
  {
    hide Split, Join, Trim, Normalize, ReplaceUnit, Kept;
    var input := Slashed(value);
    if Trim(value) != [] && !IsAbsolute(input) && PARENT !in Split(input, SLASH) {
      SlashedNonEmpty(value) by { TrimNothing(); }
      NormalizedNames(input);
      var names := NamesOf(value);
      BodySplits(names, input[|input| - 1] == SLASH);
      if names == [] {
        assert !(PARENT + [SLASH] <= Normalize(input));
      } else {
        NamesJoin(names);
        NotParentFirst(names, if input[|input| - 1] == SLASH then [SLASH] else []);
      }
    }
  }

  /** Something is left after trimming, nothing is absolute or has a drive letter, no segment is `..`, and the text
      names something or ends in a slash. */
  ghost predicate SafeText(value: Str, slashed: Str) {
    && IsSlashed(value, slashed) && (exists u :: u in value && !IsSpace(u)) && NUL !in value
    && slashed[0] != '/' as int && !(|value| >= 2 && IsLetter(value[0]) && value[1] == ':' as int)
    && Lit("..") !in Split(slashed, SLASH)
    && ((exists s :: s in Split(slashed, SLASH) && s != [] && s != Lit(".")) || slashed[|slashed| - 1] == '/' as int)
  }

  /** The same, said of the input's text. */
  lemma {:induction false} SafeTextIff(value: Str)
    ensures SafeRelativePath(value).Some? <==> exists slashed :: SafeText(value, slashed)
  {
    hide Split, Trim, SafeRelativePath, ReplaceUnit, IsSpace;
    var slashed := Slashed(value);
    SlashedIs(value);
    SafeRelativePathIff(value);
    BlankIff(value);
    KeptNothing(Split(slashed, SLASH));
    assert Lit("..") == PARENT && Lit(".") == [DOT];
    hide Lit, Kept;
    forall other | IsSlashed(value, other) ensures other == slashed {
      SlashedOnly(value, slashed, other);
    }
    assert SafeRelativePath(value).Some? ==> SafeText(value, slashed);
  }

  lemma {:induction false} BlankIff(s: Str)
    ensures Trim(s) == [] <==> forall u :: u in s ==> IsSpace(u)
  {
    hide IsSpace;
    if s != [] {
      if IsSpace(s[0]) {
        BlankIff(s[1..]);
        assert s == [s[0]] + s[1..];
      } else {
        assert s[0] in s;
        EndKeeps(s);
      }
    }
  }

  lemma {:induction false} EndKeeps(s: Str)
    requires s != [] && !IsSpace(s[0])
    ensures TrimEnd(s) != []
  {
    if IsSpace(s[|s| - 1]) {
      EndKeeps(s[..|s| - 1]);
    }
  }

  lemma {:induction false} KeptNothing(parts: seq<Str>)
    ensures Kept(parts) == [] <==> forall s :: s in parts ==> s == [] || s == [DOT]
  {
    if parts != [] {
      KeptNothing(parts[1..]);
      assert parts[0] in parts && forall s :: s in parts <==> s == parts[0] || s in parts[1..];
    }
  }

  lemma {:induction false} TrimNothing()
    ensures Trim([]) == []
  {
  }

  lemma {:induction false} NotParentFirst(names: seq<Str>, end: Str)
    requires Names(names) && names != [] && (end == [] || end == [SLASH])
    ensures !(PARENT + [SLASH] <= Join(names, SLASH) + end) && Join(names, SLASH) + end != [DOT]
  {
    var first := names[0];
    assert IsName(first) by { assert first in names; }
    var text := Join(names, SLASH) + end;
    assert first <= text && (|text| > |first| ==> text[|first|] == SLASH) by {
      if |names| > 1 {
        assert Join(names, SLASH) == first + [SLASH] + Join(names[1..], SLASH);
      }
    }
    assert |first| == 1 ==> first == [first[0]];
    assert |first| == 2 ==> first == [first[0], first[1]];
    assert |first| >= 3 ==> first[2] in first;
    assert |text| >= 3 ==> !(text[0] == DOT && text[1] == DOT && text[2] == SLASH);
  }

  /** Main result: among safe relative inputs exactly those whose first name starts with `..` are rejected, and
      otherwise the result is the root followed by the input's names, none of them empty, `.` or `..`. */
  lemma {:induction false} ResolvedIs(cwd: Str, root: Str, relativePath: Str)
    ensures var r, names := Resolve(cwd, [root]), NamesOf(relativePath);
      && Names(r)
      && (SafeRelativePath(relativePath).Some? ==> Names(names))
      && Resolved(cwd, root, relativePath) ==
           if SafeRelativePath(relativePath).None? || (names != [] && PARENT <= names[0]) then None else Some(r + names)
  {
    hide Split, Join, SafeRelativePath, Resolve, NamesOf;
    var r := Resolve(cwd, [root]);
    ResolveNames(cwd, [root]);
    if SafeRelativePath(relativePath).Some? {
      var safe, names := SafeRelativePath(relativePath).value, NamesOf(relativePath);
      SafeRelativePathIff(relativePath);
      ResolveSegments(cwd, r, Split(safe, SLASH));
      RelativeOfExtension(r, names);
      if names == [] {
        JoinNothing();
      } else {
        JoinStartsWithDots(names);
      }
    }
  }

  lemma {:induction false} ResolveSegments(cwd: Str, root: seq<Str>, segments: seq<Str>)
    requires Names(root) && PARENT !in segments && Free(segments, SLASH)
    ensures Resolve(cwd, [AbsoluteText(root)] + segments) == root + Kept(segments)
  {
    SplitNothing();
    assert PARENT !in Split<CodeUnit>([], SLASH);
    GatherSegments(cwd, root, segments, []);
    assert Kept([[]]) == [];
    assert root + Kept(segments) + [] == root + Kept(segments);
  }

  /** The result never leaves the root, and is the root itself only for dots and slashes ending in a slash. */
  lemma {:induction false} ResolvedStaysInside(cwd: Str, root: Str, relativePath: Str)
    requires Resolved(cwd, root, relativePath).Some?
    ensures var r, p := Resolve(cwd, [root]), Resolved(cwd, root, relativePath).value;
      && r <= p && Names(p)
      && (p == r <==> NamesOf(relativePath) == [])
      && (p == r ==> Slashed(relativePath)[|Slashed(relativePath)| - 1] == SLASH)
  {
    hide Split, Join, SafeRelativePath, Resolve, NamesOf;
    ResolvedIs(cwd, root, relativePath);
    SafeRelativePathIff(relativePath);
    var r, names := Resolve(cwd, [root]), NamesOf(relativePath);
    assert |r + names| == |r| + |names|;
    assert Names(r + names);
  }
}
