/** detect-ci-scope/detect-ci-scope.mjs: from a list of changed paths to the scope of a CI run. */
module CiScope {
  import opened Options
  import opened Sorting
  import opened Text

  const MAX_PATHS := 10_000
  const PARENT: Str := [DOT, DOT]
  const HERE: Str := [DOT, SLASH]
  const STAR_STAR: Str := [SLASH, 0x2A, 0x2A]

  // ---- Lines ----

  function DropCr(s: Str): Str {
    if s != [] && s[|s| - 1] == CR then s[..|s| - 1] else s
  }

  /** `text.split(/\r?\n/)`: every part but the last loses the carriage return before its line feed. */
  function SplitLines(text: Str): seq<Str> {
    var parts := Split(text, LF);
    seq(|parts|, i requires 0 <= i < |parts| => if i < |parts| - 1 then DropCr(parts[i]) else parts[i])
  }

  function TrimAll(parts: seq<Str>): seq<Str> {
    seq(|parts|, i requires 0 <= i < |parts| => Trim(parts[i]))
  }

  function NonEmpty(parts: seq<Str>): seq<Str> {
    if parts == [] then [] else (if parts[0] == [] then [] else [parts[0]]) + NonEmpty(parts[1..])
  }

  function Lines(text: Str): seq<Str> {
    NonEmpty(TrimAll(SplitLines(text)))
  }

  // ---- Paths and rules; a throw is `None` ----

  function StripSlashes(s: Str): Str {
    if s != [] && s[0] == SLASH then StripSlashes(s[1..]) else s
  }

  /** `.replace(/^\.\/+/, "")` */
  function StripHere(s: Str): Str {
    if HERE <= s then StripSlashes(s[2..]) else s
  }

  predicate SafePath(path: Str) {
    path != [] && path[0] != SLASH && NUL !in path && PARENT !in Split(path, SLASH)
  }

  function NormalizePath(value: Str): Option<Str> {
    var path := StripHere(ReplaceUnit(value, BACKSLASH, [SLASH]));
    if SafePath(path) then Some(path) else None
  }

  predicate EndsWith(s: Str, end: Str) {
    |end| <= |s| && s[|s| - |end|..] == end
  }

  /** `pathMatches` for a rule that is already normalised. */
  predicate Matches(path: Str, rule: Str) {
    if EndsWith(rule, STAR_STAR) then rule[..|rule| - 2] <= path
    else if EndsWith(rule, [SLASH]) then rule <= path
    else path == rule
  }

  function PathMatches(path: Str, rule: Str): Option<bool> {
    var normalized := NormalizePath(rule);
    if normalized.None? then None else Some(Matches(path, normalized.value))
  }

  /** `rules.some((rule) => pathMatches(path, rule))`, which stops at the first match. */
  function SomeRule(path: Str, rules: seq<Str>): Option<bool> {
    if rules == [] then Some(false)
    else
      var m := PathMatches(path, rules[0]);
      if m != Some(false) then m else SomeRule(path, rules[1..])
  }

  function AnyPath(paths: seq<Str>, rules: seq<Str>): Option<bool> {
    if paths == [] then Some(false)
    else
      var m := SomeRule(paths[0], rules);
      if m != Some(false) then m else AnyPath(paths[1..], rules)
  }

  /** The paths no rule ignores. */
  function RuntimePaths(paths: seq<Str>, ignored: seq<Str>): Option<seq<Str>> {
    if paths == [] then Some([])
    else
      var m, rest := SomeRule(paths[0], ignored), RuntimePaths(paths[1..], ignored);
      if m.None? || rest.None? then None else Some((if m.value then [] else [paths[0]]) + rest.value)
  }

  function TrimSlashes(s: Str): Str {
    if s != [] && s[|s| - 1] == SLASH then TrimSlashes(s[..|s| - 1]) else s
  }

  // ---- Sets as sorted lists ----

  /** `[...new Set(xs)]` */
  function Unique(xs: seq<Str>): seq<Str> {
    if xs == [] then []
    else
      var rest := Unique(xs[..|xs| - 1]);
      if xs[|xs| - 1] in rest then rest else rest + [xs[|xs| - 1]]
  }

  function SortedSet(xs: seq<Str>): seq<Str> {
    Sort(Unique(xs), StrLess)
  }

  // ---- Components ----

  /** The first segment below the prefix. */
  function ComponentOf(path: Str, prefix: Str): Option<Str> {
    if !(prefix <= path) then None
    else
      var name := Split(path[|prefix|..], SLASH)[0];
      if name == [] then None else Some(name)
  }

  function ComponentList(paths: seq<Str>, prefix: Str): seq<Str> {
    if paths == [] then []
    else
      var first := ComponentOf(paths[0], prefix);
      (if first.Some? then [first.value] else []) + ComponentList(paths[1..], prefix)
  }

  /** `componentNames`, given the outcome of normalising a root that is not empty. */
  function ComponentNames(paths: seq<Str>, root: Str): Option<seq<Str>> {
    if root == [] then Some([])
    else
      var normalized := NormalizePath(root);
      if normalized.None? then None else Some(SortedSet(ComponentList(paths, TrimSlashes(normalized.value) + [SLASH])))
  }

  // ---- The decision ----

  datatype Config = Config(root: Str, triggers: seq<Str>, ignored: seq<Str>, lower: Str -> Str)

  datatype Reason = MissingDiffBase | DiffFailed | EmptyDiff | DiffTooLarge | FullTrigger | IgnoredOnly | Scoped

  datatype Scope = Scope(paths: seq<Str>, components: seq<Str>, docsOnly: bool, full: bool, reason: Reason)

  datatype Failure = UnsafePath

  function Fallback(reason: Reason): Scope {
    Scope([], [], false, true, reason)
  }

  predicate IsDoc(path: Str, lower: Str -> Str) {
    || Lit("docs/") <= path || Lit("runbooks/") <= path || Lit(".claude-plans/") <= path
    || (SLASH !in path && EndsWith(lower(path), Lit(".md")))
  }

  predicate DocsOnly(paths: seq<Str>, lower: Str -> Str) {
    paths != [] && forall p :: p in paths ==> IsDoc(p, lower)
  }

  /** Everything after the sorted set of normalised lines. */
  function Decide(config: Config, paths: seq<Str>): Result<Scope, Failure> {
    if paths == [] then Ok(Fallback(EmptyDiff))
    else if |paths| > MAX_PATHS then Ok(Fallback(DiffTooLarge))
    else
      var full := AnyPath(paths, config.triggers);
      if full.None? then Err(UnsafePath)
      else
        var runtime := RuntimePaths(paths, config.ignored);
        if runtime.None? then Err(UnsafePath)
        else
          var components := ComponentNames(runtime.value, config.root);
          if components.None? then Err(UnsafePath)
          else Ok(Scope(paths, components.value, DocsOnly(paths, config.lower), full.value,
                        if full.value then FullTrigger else if runtime.value == [] then IgnoredOnly else Scoped))
  }

  predicate IsSha(s: Str) {
    |s| == 40 && forall u :: u in s ==> IsHex(u)
  }

  function NormalizeAll(lines: seq<Str>): Option<seq<Str>> {
    if lines == [] then Some([])
    else
      var first, rest := NormalizePath(lines[0]), NormalizeAll(lines[1..]);
      if first.None? || rest.None? then None else Some([first.value] + rest.value)
  }

  /** The part of `detectCiScope` after the text of changed paths is known. */
  function DetectText(config: Config, raw: Str): Result<Scope, Failure> {
    var normalized := NormalizeAll(Lines(raw));
    if normalized.None? then Err(UnsafePath) else Decide(config, SortedSet(normalized.value))
  }

  /** `detectCiScope`; `git` is the output of `git diff`, or nothing when it throws. */
  function Detect(config: Config, changedFiles: Str, base: Str, head: Str, git: Option<Str>): Result<Scope, Failure> {
    if changedFiles != [] then DetectText(config, changedFiles)
    else if !IsSha(base) || !IsSha(head) then Ok(Fallback(MissingDiffBase))
    else if git.None? then Ok(Fallback(DiffFailed))
    else DetectText(config, git.value)
  }

  // ---- Lines ignore carriage returns ----

  lemma {:induction false} TrimEndSpace(s: Str, u: CodeUnit)
    requires IsSpace(u)
    ensures Trim(s + [u]) == Trim(s)
  {
    var t := TrimStart(s);
    TrimStartAppend(s, u);
    if TrimStart(s + [u]) != [] {
      assert (t + [u])[..|t|] == t;
    }
  }

  lemma {:induction false} TrimStartAppend(s: Str, u: CodeUnit)
    requires IsSpace(u)
    ensures TrimStart(s + [u]) == if TrimStart(s) == [] then [] else TrimStart(s) + [u]
  {
    if s == [] {
      assert s + [u] == [u];
    } else {
      assert (s + [u])[1..] == s[1..] + [u];
      if IsSpace(s[0]) {
        TrimStartAppend(s[1..], u);
      }
    }
  }

  /** A file with CRLF line ends lists the same lines as the same file with LF. */
  lemma {:induction false} LinesIgnoreCr(text: Str)
    ensures Lines(text) == NonEmpty(TrimAll(Split(text, LF)))
  {
    var parts := Split(text, LF);
    forall i | 0 <= i < |parts| ensures Trim(SplitLines(text)[i]) == Trim(parts[i]) {
      var p := parts[i];
      if p != [] && p[|p| - 1] == CR {
        TrimEndSpace(p[..|p| - 1], CR);
        assert p == p[..|p| - 1] + [CR];
      }
    }
    assert TrimAll(SplitLines(text)) == TrimAll(parts);
  }

  // ---- normalizePath ----

  lemma {:induction false} StripSlashesSuffix(s: Str)
    ensures |StripSlashes(s)| <= |s| && forall u :: u in StripSlashes(s) ==> u in s
  {
    if s != [] && s[0] == SLASH {
      StripSlashesSuffix(s[1..]);
    }
  }

  lemma {:induction false} NormalizedIs(value: Str)
    ensures NormalizePath(value).Some? ==>
      SafePath(NormalizePath(value).value) && BACKSLASH !in NormalizePath(value).value
  {
    ReplacedHasNo(value, BACKSLASH, [SLASH]);
    var s := ReplaceUnit(value, BACKSLASH, [SLASH]);
    if HERE <= s {
      StripSlashesSuffix(s[2..]);
      assert forall u :: u in s[2..] ==> u in s;
    }
  }

  /** `normalizePath` is not idempotent: it strips one leading `./`, so it repeats exactly when that uncovers no
      other. */
  lemma {:induction false} NormalizeIsStableIff(value: Str)
    requires NormalizePath(value).Some?
    ensures var path := NormalizePath(value).value; NormalizePath(path) == Some(path) <==> !(HERE <= path)
  {
    var path := NormalizePath(value).value;
    NormalizedIs(value);
    ReplaceAbsent(path, BACKSLASH, [SLASH]);
    if HERE <= path {
      StripSlashesSuffix(path[2..]);
    }
  }

  /** `././a` needs two passes. */
  lemma {:induction false} NormalizeTwice()
    ensures var a: Str := [0x61];
      NormalizePath(HERE + (HERE + a)) == Some(HERE + a) && NormalizePath(HERE + a) == Some(a)
  {
    hide Split, StripSlashes, ReplaceUnit;
    var a: Str := [0x61];
    var b := HERE + a;
    ReplaceAbsent(b, BACKSLASH, [SLASH]);
    ReplaceAbsent(HERE + b, BACKSLASH, [SLASH]);
    StripsNothing(a);
    StripsNothing(b);
    assert b[2..] == a && (HERE + b)[2..] == b;
    SplitPart([DOT], a, SLASH);
    SplitPart(a, [], SLASH);
    assert b == [DOT] + [SLASH] + a;
    assert Split(b, SLASH) == [[DOT], a] && Split(a, SLASH) == [a];
  }

  lemma {:induction false} StripsNothing(s: Str)
    requires s != [] && s[0] != SLASH
    ensures StripSlashes(s) == s
  {
  }

  // ---- The result depends only on the set of normalised lines ----

  lemma {:induction false} UniqueIs(xs: seq<Str>)
    ensures NoDuplicates(Unique(xs)) && forall x :: x in Unique(xs) <==> x in xs
  {
    if xs != [] {
      UniqueIs(xs[..|xs| - 1]);
      assert xs == xs[..|xs| - 1] + [xs[|xs| - 1]];
    }
  }

  /** The sorted set of a list is strictly increasing and holds the list's elements. */
  lemma {:induction false} SortedSetIs(xs: seq<Str>)
    ensures forall x :: x in SortedSet(xs) <==> x in xs
    ensures forall i, j :: 0 <= i < j < |SortedSet(xs)| ==> StrLess(SortedSet(xs)[i], SortedSet(xs)[j])
    ensures NoDuplicates(SortedSet(xs))
  {
    var u := Unique(xs);
    UniqueIs(xs);
    StrLessIsTotal();
    SortPermutes(u, StrLess);
    SortSorts(u, StrLess);
    NoDuplicatesPermute(u, SortedSet(xs));
  }

  lemma {:induction false} SortedSetForgets(xs: seq<Str>, ys: seq<Str>)
    requires forall x :: x in xs <==> x in ys
    ensures SortedSet(xs) == SortedSet(ys)
  {
    UniqueIs(xs);
    UniqueIs(ys);
    PermutationIff(Unique(xs), Unique(ys));
    StrLessIsTotal();
    SortForgetsOrder(Unique(xs), Unique(ys), StrLess);
  }

  /** The normalised lines of a text; a text with an unsafe line has none. */
  function PathsOf(raw: Str): Option<seq<Str>> {
    NormalizeAll(Lines(raw))
  }

  /** `t` is `s` without the white space around it. */
  ghost predicate IsTrim(s: Str, t: Str) {
    exists i, j :: IsTrimAt(s, t, i, j)
  }

  ghost predicate IsTrimAt(s: Str, t: Str, i: nat, j: nat) {
    && i <= j <= |s| && t == s[i..j] && (forall k :: 0 <= k < i || j <= k < |s| ==> IsSpace(s[k]))
    && (t != [] ==> !IsSpace(t[0]) && !IsSpace(t[|t| - 1]))
  }

  lemma {:induction false} TrimStartIs(s: Str) returns (i: nat)
    ensures i <= |s| && TrimStart(s) == s[i..] && (forall k :: 0 <= k < i ==> IsSpace(s[k]))
    ensures i < |s| ==> !IsSpace(s[i])
  {
    i := 0;
    if s != [] && IsSpace(s[0]) {
      i := TrimStartIs(s[1..]);
      i := i + 1;
    }
  }

  lemma {:induction false} TrimEndIs(s: Str) returns (j: nat)
    ensures j <= |s| && TrimEnd(s) == s[..j] && (forall k :: j <= k < |s| ==> IsSpace(s[k]))
    ensures j > 0 ==> !IsSpace(s[j - 1])
  {
    j := |s|;
    if s != [] && IsSpace(s[|s| - 1]) {
      j := TrimEndIs(s[..|s| - 1]);
    }
  }

  lemma {:induction false} TrimIs(s: Str)
    ensures IsTrim(s, Trim(s))
  {
    hide IsSpace;
    var i := TrimStartIs(s);
    var rest := s[i..];
    var j := TrimEndIs(rest);
    assert rest[..j] == s[i..i + j];
    forall k | i + j <= k < |s| ensures IsSpace(s[k]) {
      assert s[k] == rest[k - i];
    }
    assert IsTrimAt(s, Trim(s), i, i + j);
  }

  /** There is one such text. */
  lemma {:induction false} TrimIff(s: Str, t: Str)
    ensures IsTrim(s, t) <==> t == Trim(s)
  {
    hide IsSpace, Trim;
    TrimIs(s);
    var u := Trim(s);
    if IsTrim(s, t) {
      var i, j :| IsTrimAt(s, t, i, j);
      var k, l :| IsTrimAt(s, u, k, l);
      Outside(s, t, i, j, u, k, l);
      Outside(s, u, k, l, t, i, j);
    }
  }

  lemma {:induction false} Outside(s: Str, t: Str, i: nat, j: nat, u: Str, k: nat, l: nat)
    requires IsTrimAt(s, t, i, j) && IsTrimAt(s, u, k, l)
    ensures t != [] ==> k <= i && j <= l
  {
    hide IsSpace;
    if t != [] {
      assert s[i] == t[0] && s[j - 1] == t[|t| - 1];
    }
  }

  /** The lines of a text are the trimmed parts between line feeds that are not empty. */
  lemma {:induction false} LinesAre(text: Str, line: Str)
    ensures line in Lines(text) <==> line != [] && exists part :: part in Split(text, LF) && IsTrim(part, line)
  {
    hide Split, Trim, IsTrim;
    forall part ensures IsTrim(part, line) <==> line == Trim(part) {
      TrimIff(part, line);
    }
    LinesIgnoreCr(text);
    var parts := Split(text, LF);
    KeptIff(TrimAll(parts), line);
    if part :| part in parts && line == Trim(part) {
      var i :| 0 <= i < |parts| && parts[i] == part;
      assert TrimAll(parts)[i] == line;
    }
    if line in TrimAll(parts) {
      var i :| 0 <= i < |parts| && TrimAll(parts)[i] == line;
      assert parts[i] in parts;
    }
  }

  lemma {:induction false} KeptIff(parts: seq<Str>, line: Str)
    ensures line in NonEmpty(parts) <==> line != [] && line in parts
  {
    if parts != [] {
      KeptIff(parts[1..], line);
      assert line in parts <==> line == parts[0] || line in parts[1..];
    }
  }

  /** The paths of a text are what its lines normalise to; there are none when a line normalises to nothing. */
  lemma {:induction false} PathsAre(raw: Str)
    ensures PathsOf(raw).Some? <==> forall line :: line in Lines(raw) ==> exists path :: NormalizesTo(line, path)
    ensures PathsOf(raw).Some? ==>
      forall path :: path in PathsOf(raw).value <==> exists line :: line in Lines(raw) && NormalizesTo(line, path)
  {
    hide Lines, NormalizePath, NormalizesTo;
    var lines := Lines(raw);
    NormalizeAllIff(lines);
    forall line, path ensures NormalizePath(line) == Some(path) <==> NormalizesTo(line, path) {
      NormalizeIff(line, path);
    }
    forall line | NormalizePath(line).Some? ensures NormalizesTo(line, NormalizePath(line).value) {}
    if PathsOf(raw).Some? {
      var paths := PathsOf(raw).value;
      forall path ensures path in paths <==> exists line :: line in lines && NormalizesTo(line, path) {
        if path in paths {
          var i :| 0 <= i < |paths| && paths[i] == path;
          assert lines[i] in lines;
        }
        if line :| line in lines && NormalizesTo(line, path) {
          var i :| 0 <= i < |lines| && lines[i] == line;
          assert paths[i] == path;
        }
      }
    }
  }

  /** Order, repetition, blank lines and surrounding space of the changed paths do not matter. */
  lemma {:induction false} ScopeDependsOnSet(config: Config, a: Str, b: Str)
    requires PathsOf(a).Some? && PathsOf(b).Some?
    requires forall p :: p in PathsOf(a).value <==> p in PathsOf(b).value
    ensures DetectText(config, a) == DetectText(config, b)
  {
    hide Lines, Decide;
    SortedSetForgets(PathsOf(a).value, PathsOf(b).value);
  }

  // ---- What the scope says about the set ----

  /** The rule names a directory `d`, as `d/` or as `d/` and two stars. */
  ghost predicate NamesTree(rule: Str, d: Str) {
    rule == d + Lit("/**") || rule == d + Lit("/")
  }

  /** What a normalised rule matches: a rule for a directory everything below it, any other rule the path it spells. */
  ghost predicate Covers(rule: Str, path: Str) {
    || (exists d :: NamesTree(rule, d) && d + Lit("/") <= path)
    || ((forall d :: !NamesTree(rule, d)) && path == rule)
  }

  /** Some rule, in its normalised form, covers the path. */
  ghost predicate MatchedBy(path: Str, rules: seq<Str>) {
    exists i :: 0 <= i < |rules| && CoveredBy(path, rules[i])
  }

  ghost predicate CoveredBy(path: Str, rule: Str) {
    exists normalized :: NormalizesTo(rule, normalized) && Covers(normalized, path)
  }

  /** What `normalizePath` returns: backslashes become slashes, one leading `./` goes with the slashes behind it, and
      the rest is not empty, not absolute, and holds neither NUL nor a parent segment. */
  ghost predicate NormalizesTo(value: Str, path: Str) {
    exists slashed :: IsSlashed(value, slashed) && IsStripped(slashed, path)
      && path != [] && path[0] != SLASH && NUL !in path && Lit("..") !in Split(path, SLASH)
  }

  ghost predicate IsStripped(s: Str, path: Str) {
    if !(Lit("./") <= s) then path == s
    else exists k :: 2 <= k <= |s| && IsStrippedAt(s, path, k)
  }

  predicate IsStrippedAt(s: Str, path: Str, k: nat) {
    2 <= k <= |s| && path == s[k..] && (forall i :: 2 <= i < k ==> s[i] == SLASH) && (path == [] || path[0] != SLASH)
  }

  lemma {:induction false} StripSlashesIs(s: Str) returns (k: nat)
    ensures k <= |s| && StripSlashes(s) == s[k..] && (forall i :: 0 <= i < k ==> s[i] == SLASH)
    ensures k < |s| ==> s[k] != SLASH
  {
    k := 0;
    if s != [] && s[0] == SLASH {
      k := StripSlashesIs(s[1..]);
      k := k + 1;
    }
  }

  lemma {:induction false} NotBefore(s: Str, path: Str, k: nat, m: nat)
    requires IsStrippedAt(s, path, k) && m <= |s| && forall i :: 2 <= i < m ==> s[i] == SLASH
    ensures m <= k
  {
    if k < |s| {
      assert path[0] == s[k];
    }
  }

  lemma {:induction false} StripHereIs(s: Str, path: Str)
    ensures StripHere(s) == path <==> IsStripped(s, path)
  {
    assert Lit("./") == HERE;
    if HERE <= s {
      var n := StripSlashesIs(s[2..]);
      assert s[2..][n..] == s[n + 2..];
      assert forall i :: 2 <= i < n + 2 ==> s[i] == s[2..][i - 2];
      assert IsStrippedAt(s, StripHere(s), n + 2);
      forall k: nat | IsStrippedAt(s, path, k) ensures k == n + 2 {
        NotBefore(s, path, k, n + 2);
        NotBefore(s, StripHere(s), n + 2, k);
      }
    }
  }

  lemma {:induction false} NormalizeIff(value: Str, path: Str)
    ensures NormalizePath(value) == Some(path) <==> NormalizesTo(value, path)
  {
    var slashed := ReplaceUnit(value, BACKSLASH, [SLASH]);
    SlashedIs(value);
    StripHereIs(slashed, path);
    assert Lit("..") == PARENT;
    hide Split, StripHere, IsStripped, ReplaceUnit, Lit;
    if NormalizesTo(value, path) {
      var other :| IsSlashed(value, other) && IsStripped(other, path)
        && path != [] && path[0] != SLASH && NUL !in path && Lit("..") !in Split(path, SLASH);
      SlashedOnly(value, slashed, other);
    }
  }

  lemma {:induction false} MatchesIff(path: Str, rule: Str)
    ensures Matches(path, rule) <==> Covers(rule, path)
  {
    assert Lit("/**") == STAR_STAR && Lit("/") == [SLASH];
    hide Lit;
    if EndsWith(rule, STAR_STAR) {
      var d := rule[..|rule| - 3];
      assert rule == d + STAR_STAR && rule[..|rule| - 2] == d + [SLASH];
      assert NamesTree(rule, d);
    } else if EndsWith(rule, [SLASH]) {
      var d := rule[..|rule| - 1];
      assert rule == d + [SLASH];
      assert NamesTree(rule, d);
    }
    forall d | NamesTree(rule, d) ensures EndsWith(rule, STAR_STAR) || EndsWith(rule, [SLASH]) {}
    forall d | NamesTree(rule, d) ensures d + [SLASH] <= path <==> Matches(path, rule) {
      NamedTree(rule, d, path);
    }
  }

  lemma {:induction false} LastOfEnd(s: Str, end: Str)
    requires s != [] && end != []
    ensures EndsWith(s, end) ==> s[|s| - 1] == end[|end| - 1]
  {
    assert EndsWith(s, end) ==> s[|s| - |end|..][|end| - 1] == s[|s| - 1];
  }

  lemma {:induction false} NamedTree(rule: Str, d: Str, path: Str)
    requires rule == d + STAR_STAR || rule == d + [SLASH]
    ensures d + [SLASH] <= path <==> Matches(path, rule)
  {
    if rule == d + STAR_STAR {
      assert rule[..|rule| - 2] == d + [SLASH];
    } else {
      assert rule[|rule| - 1] == SLASH && STAR_STAR[2] != SLASH;
      LastOfEnd(rule, STAR_STAR);
    }
  }

  lemma {:induction false} PathMatchesIff(path: Str, rule: Str)
    ensures PathMatches(path, rule) == Some(true) <==> CoveredBy(path, rule)
  {
    hide NormalizePath, Matches, Covers, NormalizesTo;
    if NormalizePath(rule).Some? {
      NormalizeIff(rule, NormalizePath(rule).value);
      MatchesIff(path, NormalizePath(rule).value);
    }
    forall normalized | NormalizesTo(rule, normalized) ensures NormalizePath(rule) == Some(normalized) {
      NormalizeIff(rule, normalized);
    }
  }

  /** A path below a documentation directory, or a Markdown file at the root. */
  ghost predicate DocPath(path: Str, lower: Str -> Str) {
    || (exists d :: d in {Lit("docs"), Lit("runbooks"), Lit(".claude-plans")} && d + Lit("/") <= path)
    || (SLASH !in path && exists stem :: lower(path) == stem + Lit(".md"))
  }

  lemma {:induction false} DocIff(path: Str, lower: Str -> Str)
    ensures IsDoc(path, lower) <==> DocPath(path, lower)
  {
    assert Lit("docs/") == Lit("docs") + Lit("/") && Lit("runbooks/") == Lit("runbooks") + Lit("/");
    assert Lit(".claude-plans/") == Lit(".claude-plans") + Lit("/");
    hide Lit;
    var name, end := lower(path), Lit(".md");
    if EndsWith(name, end) {
      assert name == name[..|name| - |end|] + end;
    }
    forall stem | name == stem + end ensures EndsWith(name, end) {}
  }

  /** `root` without the slashes it ends in. */
  ghost predicate IsTrimmed(root: Str, trimmed: Str) {
    && trimmed <= root && (forall i :: |trimmed| <= i < |root| ==> root[i] == SLASH)
    && (trimmed == [] || trimmed[|trimmed| - 1] != SLASH)
  }

  lemma {:induction false} TrimmedIff(root: Str, trimmed: Str)
    ensures TrimSlashes(root) == trimmed <==> IsTrimmed(root, trimmed)
  {
    if root != [] && root[|root| - 1] == SLASH {
      var front := root[..|root| - 1];
      TrimmedIff(front, trimmed);
      assert root == front + [SLASH];
      if IsTrimmed(root, trimmed) {
        assert |trimmed| < |root|;
        assert trimmed == root[..|trimmed|] == front[..|trimmed|];
      }
    } else if IsTrimmed(root, trimmed) {
      assert |trimmed| == |root|;
    }
  }

  lemma {:induction false} SomeRuleIs(path: Str, rules: seq<Str>)
    ensures SomeRule(path, rules).Some? ==> (SomeRule(path, rules).value <==> MatchedBy(path, rules))
  {
    hide PathMatches, CoveredBy;
    if rules != [] {
      PathMatchesIff(path, rules[0]);
      SomeRuleIs(path, rules[1..]);
      assert forall i :: 0 < i < |rules| ==> rules[i] == rules[1..][i - 1];
      if MatchedBy(path, rules[1..]) {
        var i :| 0 <= i < |rules[1..]| && CoveredBy(path, rules[1..][i]);
        assert CoveredBy(path, rules[i + 1]);
      }
    }
  }

  lemma {:induction false} AnyPathIs(paths: seq<Str>, rules: seq<Str>)
    ensures AnyPath(paths, rules).Some? ==>
      (AnyPath(paths, rules).value <==> exists p :: p in paths && MatchedBy(p, rules))
  {
    hide SomeRule, MatchedBy;
    if paths != [] {
      SomeRuleIs(paths[0], rules);
      AnyPathIs(paths[1..], rules);
      assert forall p :: p in paths <==> p == paths[0] || p in paths[1..];
    }
  }

  lemma {:induction false} RuntimePathsAre(paths: seq<Str>, ignored: seq<Str>)
    ensures RuntimePaths(paths, ignored).Some? ==>
      forall p :: p in RuntimePaths(paths, ignored).value <==> p in paths && !MatchedBy(p, ignored)
  {
    hide SomeRule, MatchedBy;
    if paths != [] {
      SomeRuleIs(paths[0], ignored);
      RuntimePathsAre(paths[1..], ignored);
      assert forall p :: p in paths <==> p == paths[0] || p in paths[1..];
    }
  }

  lemma {:induction false} ComponentListIs(paths: seq<Str>, prefix: Str)
    ensures forall n :: n in ComponentList(paths, prefix) <==>
      exists p :: p in paths && ComponentOf(p, prefix) == Some(n)
  {
    hide ComponentOf;
    if paths != [] {
      ComponentListIs(paths[1..], prefix);
      assert forall p :: p in paths <==> p == paths[0] || p in paths[1..];
    }
  }

  /** A name is a component of a path set: the first segment, below the root, of a path no rule ignores. */
  ghost predicate IsComponent(config: Config, paths: seq<Str>, name: Str) {
    && config.root != []
    && exists root, trimmed, p ::
      && NormalizesTo(config.root, root) && IsTrimmed(root, trimmed)
      && p in paths && !MatchedBy(p, config.ignored) && IsFirstBelow(p, trimmed, name)
  }

  /** `path` is `root`, a slash, `name`, and nothing or another slash and more. */
  predicate IsFirstBelow(path: Str, root: Str, name: Str) {
    && name != [] && SLASH !in name && root + [SLASH] + name <= path
    && (path == root + [SLASH] + name || path[|root| + 1 + |name|] == SLASH)
  }

  lemma {:induction false} FirstPart(s: Str, name: Str)
    ensures Split(s, SLASH)[0] == name <==> SLASH !in name && name <= s && (s == name || s[|name|] == SLASH)
  {
    JoinSplit(s, SLASH);
    var parts := Split(s, SLASH);
    assert parts[0] in parts;
    assert |parts| > 1 ==> s == parts[0] + [SLASH] + Join(parts[1..], SLASH);
    if SLASH !in name && name <= s && s != name && s[|name|] == SLASH {
      assert s == name + [SLASH] + s[|name| + 1..];
      SplitPart(name, s[|name| + 1..], SLASH);
    }
    if SLASH !in name && s == name {
      SplitPart(name, [], SLASH);
    }
  }

  lemma {:induction false} ComponentOfIs(path: Str, root: Str, name: Str)
    ensures ComponentOf(path, root + [SLASH]) == Some(name) <==> IsFirstBelow(path, root, name)
  {
    hide Split;
    var prefix := root + [SLASH];
    if prefix <= path {
      var rest := path[|prefix|..];
      FirstPart(rest, name);
      assert path == prefix + rest;
      assert prefix + name <= path <==> name <= rest;
      assert path == prefix + name <==> rest == name;
    }
  }

  lemma {:induction false} ComponentsAre(config: Config, paths: seq<Str>, runtime: seq<Str>, name: Str)
    requires RuntimePaths(paths, config.ignored) == Some(runtime) && ComponentNames(runtime, config.root).Some?
    ensures name in ComponentNames(runtime, config.root).value <==> IsComponent(config, paths, name)
  {
    hide MatchedBy, RuntimePaths, NormalizePath, ComponentOf, IsFirstBelow, NormalizesTo, IsTrimmed, TrimSlashes;
    RuntimePathsAre(paths, config.ignored);
    if config.root != [] {
      var normalized := NormalizePath(config.root).value;
      var root := TrimSlashes(normalized);
      ComponentListIs(runtime, root + [SLASH]);
      SortedSetIs(ComponentList(runtime, root + [SLASH]));
      forall p { ComponentOfIs(p, root, name); }
      RootIs(config, paths, normalized, root, name);
    }
  }

  /** The root has one normalised and trimmed form. */
  lemma {:induction false} RootIs(config: Config, paths: seq<Str>, normalized: Str, root: Str, name: Str)
    requires config.root != [] && NormalizePath(config.root) == Some(normalized) && root == TrimSlashes(normalized)
    ensures IsComponent(config, paths, name) <==>
      exists p :: p in paths && !MatchedBy(p, config.ignored) && IsFirstBelow(p, root, name)
  {
    hide MatchedBy, NormalizePath, IsFirstBelow, NormalizesTo, IsTrimmed, TrimSlashes;
    NormalizeIff(config.root, normalized);
    TrimmedIff(normalized, root);
    forall other, trimmed | NormalizesTo(config.root, other) && IsTrimmed(other, trimmed) ensures trimmed == root {
      NormalizeIff(config.root, other);
      TrimmedIff(other, trimmed);
    }
  }

  /** Main result: what a scope that is not a fallback says about the set of normalised paths. */
  lemma {:induction false} ScopeIs(config: Config, raw: Str, scope: Scope)
    requires DetectText(config, raw) == Ok(scope) && PathsOf(raw).value != [] && scope.reason != DiffTooLarge
    ensures forall p :: p in scope.paths <==> p in PathsOf(raw).value
    ensures forall i, j :: 0 <= i < j < |scope.paths| ==> StrLess(scope.paths[i], scope.paths[j])
    ensures scope.full <==> exists p :: p in PathsOf(raw).value && MatchedBy(p, config.triggers)
    ensures scope.docsOnly <==> forall p :: p in PathsOf(raw).value ==> DocPath(p, config.lower)
    ensures forall n :: n in scope.components <==> IsComponent(config, PathsOf(raw).value, n)
    ensures scope.reason == FullTrigger <==> scope.full
    ensures scope.reason == IgnoredOnly <==>
      !scope.full && forall p :: p in PathsOf(raw).value ==> MatchedBy(p, config.ignored)
    ensures |scope.paths| <= 10_000
  {
    hide Lines, NormalizeAll, MatchedBy, IsDoc, AnyPath, RuntimePaths, ComponentNames, SortedSet;
    var all := PathsOf(raw).value;
    var paths := SortedSet(all);
    SortedSetIs(all);
    assert all[0] in paths;
    AnyPathIs(paths, config.triggers);
    var runtime := RuntimePaths(paths, config.ignored).value;
    RuntimePathsAre(paths, config.ignored);
    assert runtime == [] <==> forall p :: p in paths ==> MatchedBy(p, config.ignored) by {
      if runtime != [] { assert runtime[0] in runtime; }
    }
    forall p {
      DocIff(p, config.lower);
    }
    forall n ensures n in scope.components <==> IsComponent(config, all, n) {
      ComponentsAre(config, paths, runtime, n);
    }
  }

  /** One text's paths are among another's. */
  ghost predicate Within(a: Str, b: Str) {
    PathsOf(a).Some? && PathsOf(b).Some? && forall p :: p in PathsOf(a).value ==> p in PathsOf(b).value
  }

  lemma {:induction false} WideText(config: Config, raw: Str, scope: Scope)
    requires DetectText(config, raw) == Ok(scope)
    ensures PathsOf(raw).Some?
    ensures scope.reason == DiffTooLarge <==> |SortedSet(PathsOf(raw).value)| > 10_000
    ensures scope.reason == DiffTooLarge ==> scope == Fallback(DiffTooLarge)
    ensures PathsOf(raw).value == [] ==> scope == Fallback(EmptyDiff)
  {
    hide Lines, NormalizeAll, AnyPath, RuntimePaths, ComponentNames;
    assert Unique([]) == [] && Sort([], StrLess) == [];
  }

  /** The scope never narrows as changes grow: from a non-empty set, adding paths keeps `full`, also past the limit, and
      within the limit it only adds components and only revokes `docsOnly`. */
  lemma {:induction false} ScopeGrows(config: Config, a: Str, b: Str, x: Scope, y: Scope)
    requires Within(a, b) && PathsOf(a).value != []
    requires DetectText(config, a) == Ok(x) && DetectText(config, b) == Ok(y)
    ensures x.full ==> y.full
    ensures y.reason != DiffTooLarge ==>
      (forall n :: n in x.components ==> n in y.components) && (y.docsOnly ==> x.docsOnly)
  {
    hide DetectText, MatchedBy, IsDoc, PathsOf, IsFirstBelow;
    WideText(config, a, x);
    WideText(config, b, y);
    var first := PathsOf(a).value[0];
    assert first in PathsOf(a).value && first in PathsOf(b).value;
    if y.reason != DiffTooLarge {
      LargerSet(a, b);
      ScopeIs(config, a, x);
      ScopeIs(config, b, y);
    }
  }

  /** A part of a small set is small. */
  lemma {:induction false} LargerSet(a: Str, b: Str)
    requires Within(a, b)
    ensures |SortedSet(PathsOf(a).value)| <= |SortedSet(PathsOf(b).value)|
  {
    hide SortedSet, PathsOf;
    var xs, ys := SortedSet(PathsOf(a).value), SortedSet(PathsOf(b).value);
    SortedSetIs(PathsOf(a).value);
    SortedSetIs(PathsOf(b).value);
    DistinctCount(xs);
    DistinctCount(ys);
    SubsetSize(Elements(xs), Elements(ys));
  }

  /** The empty set is a fallback, and so a full scope. */
  lemma {:induction false} EmptyDiffIsFull(config: Config, raw: Str)
    requires PathsOf(raw) == Some([])
    ensures DetectText(config, raw) == Ok(Fallback(EmptyDiff))
  {
    assert Unique([]) == [] && Sort([], StrLess) == [];
  }

  // ---- Only unsafe texts are refused ----

  ghost predicate SafeRules(rules: seq<Str>) {
    forall r :: r in rules ==> NormalizePath(r).Some?
  }

  lemma {:induction false} SafeRulesDecide(path: Str, rules: seq<Str>)
    requires SafeRules(rules)
    ensures SomeRule(path, rules).Some?
  {
    hide NormalizePath;
    if rules != [] {
      assert rules[0] in rules;
      SafeRulesDecide(path, rules[1..]);
    }
  }

  lemma {:induction false} SafeRulesSearch(paths: seq<Str>, rules: seq<Str>)
    requires SafeRules(rules)
    ensures AnyPath(paths, rules).Some? && RuntimePaths(paths, rules).Some?
  {
    hide SomeRule;
    if paths != [] {
      SafeRulesDecide(paths[0], rules);
      SafeRulesSearch(paths[1..], rules);
    }
  }

  /** With safe rules and a safe root, a text of changed paths is refused exactly when one of its lines is unsafe. */
  lemma {:induction false} RefusedIff(config: Config, raw: Str)
    requires SafeRules(config.triggers) && SafeRules(config.ignored)
    requires config.root == [] || NormalizePath(config.root).Some?
    ensures DetectText(config, raw).Ok? <==> forall line :: line in Lines(raw) ==> NormalizePath(line).Some?
  {
    hide Lines, SafeRules, NormalizePath, SortedSet, AnyPath, RuntimePaths;
    NormalizeAllIff(Lines(raw));
    if PathsOf(raw).Some? {
      var paths := SortedSet(PathsOf(raw).value);
      SafeRulesSearch(paths, config.triggers);
      SafeRulesSearch(paths, config.ignored);
    }
  }

  lemma {:induction false} NormalizeAllIff(lines: seq<Str>)
    ensures NormalizeAll(lines).Some? <==> forall line :: line in lines ==> NormalizePath(line).Some?
    ensures NormalizeAll(lines).Some? ==>
      |NormalizeAll(lines).value| == |lines| && forall i :: 0 <= i < |lines| ==>
        NormalizePath(lines[i]) == Some(NormalizeAll(lines).value[i])
  {
    hide NormalizePath;
    if lines != [] {
      NormalizeAllIff(lines[1..]);
      assert forall line :: line in lines <==> line == lines[0] || line in lines[1..];
      assert forall i :: 0 < i < |lines| ==> lines[i] == lines[1..][i - 1];
    }
  }

  // ---- When a run may be narrowed ----

  /** The text of changed paths is known: given, or read from a diff between two object ids. */
  predicate TextKnown(changedFiles: Str, base: Str, head: Str, git: Option<Str>) {
    changedFiles != [] || (ObjectIdText(base) && ObjectIdText(head) && git.Some?)
  }

  /** Why a run is full for want of paths. */
  lemma {:induction false} FallbackIff(config: Config, changedFiles: Str, base: Str, head: Str, git: Option<Str>)
    requires Detect(config, changedFiles, base, head, git).Ok?
    ensures var scope := Detect(config, changedFiles, base, head, git).value; var raw := TextOf(changedFiles, git);
      && (scope.reason == MissingDiffBase <==> changedFiles == [] && !(ObjectIdText(base) && ObjectIdText(head)))
      && (scope.reason == DiffFailed <==> changedFiles == [] && ObjectIdText(base) && ObjectIdText(head) && git.None?)
      && (scope.reason == EmptyDiff <==> TextKnown(changedFiles, base, head, git) && PathsOf(raw) == Some([]))
      && (scope.reason == DiffTooLarge <==>
            && TextKnown(changedFiles, base, head, git) && PathsOf(raw).Some?
            && |SortedSet(PathsOf(raw).value)| > 10_000)
      && (scope.reason in {MissingDiffBase, DiffFailed, EmptyDiff, DiffTooLarge} ==>
            scope.paths == [] && scope.components == [] && !scope.docsOnly && scope.full)
  {
    hide PathsOf, SortedSet, Lines, NormalizeAll, AnyPath, RuntimePaths, ComponentNames;
    var scope, raw := Detect(config, changedFiles, base, head, git).value, TextOf(changedFiles, git);
    if TextKnown(changedFiles, base, head, git) {
      assert DetectText(config, raw) == Ok(scope);
      assert PathsOf(raw) == NormalizeAll(Lines(raw)) by { PathsOfIs(raw); }
      NothingIff(PathsOf(raw).value);
    }
  }

  lemma {:induction false} PathsOfIs(raw: Str)
    ensures PathsOf(raw) == NormalizeAll(Lines(raw))
  {
  }

  lemma {:induction false} NothingIff(xs: seq<Str>)
    ensures SortedSet(xs) == [] <==> xs == []
  {
    hide SortedSet;
    SortedSetIs(xs);
    if xs != [] {
      assert xs[0] in SortedSet(xs);
    }
    if SortedSet(xs) != [] {
      assert SortedSet(xs)[0] in xs;
    }
  }

  function TextOf(changedFiles: Str, git: Option<Str>): Str {
    if changedFiles != [] || git.None? then changedFiles else git.value
  }

  /** A run is narrowed exactly when the changed paths are known, there is at least one, they are within the limit, and
      no trigger matches any of them. Everything else is a full run. */
  lemma {:induction false} NarrowedIff(config: Config, changedFiles: Str, base: Str, head: Str, git: Option<Str>)
    requires Detect(config, changedFiles, base, head, git).Ok?
    ensures !Detect(config, changedFiles, base, head, git).value.full <==>
      && TextKnown(changedFiles, base, head, git)
      && var paths := PathsOf(TextOf(changedFiles, git));
        && paths.Some? && paths.value != [] && |SortedSet(paths.value)| <= 10_000
        && forall p :: p in paths.value ==> !MatchedBy(p, config.triggers)
  {
    hide DetectText, PathsOf, MatchedBy, SortedSet, IsFirstBelow, IsDoc;
    if TextKnown(changedFiles, base, head, git) {
      var raw := TextOf(changedFiles, git);
      var scope := DetectText(config, raw).value;
      assert Detect(config, changedFiles, base, head, git) == Ok(scope);
      WideText(config, raw, scope);
      if PathsOf(raw).value != [] && scope.reason != DiffTooLarge {
        ScopeIs(config, raw, scope);
      }
    }
  }

  /** From the empty set `full` is lost to every larger set that is within the limit and that no trigger matches, and to
      no other. */
  lemma {:induction false} EmptyLosesFullIff(config: Config, empty: Str, raw: Str, x: Scope, y: Scope)
    requires PathsOf(empty) == Some([]) && empty != [] && raw != []
    requires DetectText(config, empty) == Ok(x) && DetectText(config, raw) == Ok(y)
    ensures Within(empty, raw)
    ensures x.full && !y.full <==>
      var paths := PathsOf(raw).value;
        paths != [] && |SortedSet(paths)| <= 10_000 && forall p :: p in paths ==> !MatchedBy(p, config.triggers)
  {
    hide DetectText, PathsOf, MatchedBy, SortedSet, Fallback;
    EmptyDiffIsFull(config, empty);
    WideText(config, raw, y);
    NarrowedIff(config, raw, [], [], None);
    FallbackIsFull(EmptyDiff);
  }

  lemma {:induction false} FallbackIsFull(reason: Reason)
    ensures Fallback(reason).full
  {
  }

  /** One blank line and one path are such sets when there are no triggers. */
  lemma {:induction false} FullIsLost(config: Config)
    requires config.triggers == [] && config.ignored == [] && config.root == []
    ensures var blank: Str, a: Str := [LF], [0x61];
      DetectText(config, blank).Ok? && DetectText(config, blank).value.full
      && DetectText(config, a).Ok? && !DetectText(config, a).value.full
  {
    var blank: Str, a: Str := [LF], [0x61];
    BlankAndOne();
    EmptyDiffIsFull(config, blank);
    hide Lines, SortedSet, NormalizePath, MatchedBy, PathsOf;
    RefusedIff(config, a);
    var y := DetectText(config, a).value;
    SortedSetIs([a]);
    assert |SortedSet([a])| <= MAX_PATHS by { OneElement(SortedSet([a]), a); }
    assert forall p :: !MatchedBy(p, config.triggers) by { NoRules(); }
    EmptyLosesFullIff(config, blank, a, Fallback(EmptyDiff), y);
  }

  lemma {:induction false} NoRules()
    ensures forall p :: !MatchedBy(p, [])
  {
  }

  lemma {:induction false} OneElement(xs: seq<Str>, a: Str)
    requires NoDuplicates(xs) && forall x :: x in xs ==> x == a
    ensures |xs| <= 1
  {
    DistinctCount(xs);
    assert Elements(xs) <= {a};
    SubsetSize(Elements(xs), {a});
  }

  lemma {:induction false} BlankAndOne()
    ensures var blank: Str, a: Str := [LF], [0x61];
      PathsOf(blank) == Some([]) && Lines(a) == [a] && NormalizePath(a) == Some(a) && PathsOf(a) == Some([a])
  {
    hide Lines, NormalizePath;
    BlankLines();
    OneLine();
    var a: Str := [0x61];
    assert [a][1..] == [];
    assert NormalizeAll([a]) == Some([a] + []) && [a] + [] == [a];
  }

  lemma {:induction false} BlankLines()
    ensures var blank: Str := [LF]; Lines(blank) == []
  {
    var blank: Str := [LF];
    var none: Str := [];
    hide SplitLines, Lines;
    assert Lines(blank) == NonEmpty(TrimAll(Split(blank, LF))) by { LinesIgnoreCr(blank); }
    assert Split(blank, LF) == [none, none] by {
      SplitPart(none, none, LF);
      assert none + [LF] + none == blank;
    }
    assert TrimAll([none, none]) == [none, none];
    assert [none, none][1..] == [none] && [none][1..] == [];
    assert NonEmpty([none]) == [];
  }

  lemma {:induction false} OneLine()
    ensures var a: Str := [0x61]; Lines(a) == [a] && NormalizePath(a) == Some(a)
  {
    var a: Str := [0x61];
    hide SplitLines, Lines, Split;
    SplitPart(a, [], LF);
    assert Lines(a) == NonEmpty(TrimAll([a])) by { LinesIgnoreCr(a); }
    assert Trim(a) == a by { assert TrimStart(a) == a; }
    assert TrimAll([a]) == [a] && [a][1..] == [];
    SplitPart(a, [], SLASH);
    ReplaceAbsent(a, BACKSLASH, [SLASH]);
  }
}
