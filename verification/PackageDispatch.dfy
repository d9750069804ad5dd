/** The package branch of `prequeueInput` in ci-admission/index.mjs: what an accepted API path and an accepted
    version table bind. */
module PackageDispatch {
  import opened Text
  import opened Sorting

  function Prefix(producer: Str): Str {
    Lit("/repos/CloudIngenium/") + producer + Lit("/contents/")
  }

  function Query(commit: Str): Str {
    Lit("ref=") + commit
  }

  predicate DotOrEmpty(segment: Str) {
    segment == [] || segment == [DOT] || segment == [DOT, DOT]
  }

  /** `text.slice(n)`. */
  function Slice(text: Str, n: nat): Str {
    if n <= |text| then text[n..] else []
  }

  /** The check of `source-api-path` and `record-api-path`. */
  predicate AcceptsPath(path: Str, producer: Str, commit: Str) {
    var parts := Split(path, QUESTION);
    var relative := Slice(parts[0], |Prefix(producer)|);
    && Prefix(producer) <= path && relative != []
    && (forall s :: s in Split(relative, SLASH) ==> !DotOrEmpty(s))
    && |parts| == 2 && parts[1] == Query(commit)
  }

  /** Path segments below the repository root. */
  ghost predicate GoodSegments(segments: seq<Str>) {
    segments != [] && forall s :: s in segments ==> !DotOrEmpty(s) && SLASH !in s && QUESTION !in s
  }

  /** The path of these segments at this commit. */
  function PrintPath(producer: Str, segments: seq<Str>, commit: Str): Str {
    Lit("/repos/CloudIngenium/") + producer + Lit("/contents/") + Join(segments, SLASH) + Lit("?ref=") + commit
  }

  lemma {:induction false} PrintPathIs(producer: Str, segments: seq<Str>, commit: Str)
    ensures PrintPath(producer, segments, commit) ==
      (Prefix(producer) + Join(segments, SLASH)) + [QUESTION] + Query(commit)
  {
    assert Lit("?ref=") == [QUESTION] + Lit("ref=");
    hide Lit, Join;
  }

  lemma {:induction false} JoinAvoids(parts: seq<Str>, sep: CodeUnit, c: CodeUnit)
    requires c != sep
    ensures c in Join(parts, sep) <==> exists p :: p in parts && c in p
  {
    if |parts| > 1 {
      JoinAvoids(parts[1..], sep, c);
      assert parts == [parts[0]] + parts[1..];
      assert Join(parts, sep) == parts[0] + [sep] + Join(parts[1..], sep);
      if p :| p in parts && c in p {
        assert p == parts[0] || p in parts[1..];
      }
    } else if |parts| == 1 {
      assert parts[0] in parts;
    }
  }

  /** The segments an accepted path names. */
  function SegmentsOf(path: Str, producer: Str): seq<Str> {
    Split(Slice(Split(path, QUESTION)[0], |Prefix(producer)|), SLASH)
  }

  lemma {:induction false} PrefixPlain(producer: Str, commit: Str)
    requires QUESTION !in producer && QUESTION !in commit
    ensures QUESTION !in Prefix(producer) && QUESTION !in Query(commit)
  {
  }

  /** What is accepted prints as prefix, segments and query. */
  lemma {:induction false} AcceptedPathPrints(path: Str, producer: Str, commit: Str)
    requires QUESTION !in producer && QUESTION !in commit && AcceptsPath(path, producer, commit)
    ensures GoodSegments(SegmentsOf(path, producer)) && path == PrintPath(producer, SegmentsOf(path, producer), commit)
  {
    PrefixPlain(producer, commit);
    PrintPathIs(producer, SegmentsOf(path, producer), commit);
    hide Prefix, Query, PrintPath;
    var prefix := Prefix(producer);
    var parts := Split(path, QUESTION);
    JoinSplit(path, QUESTION);
    assert parts[1..] == [parts[1]];
    assert path == parts[0] + [QUESTION] + parts[1];
    assert path[|parts[0]|] == QUESTION;
    assert |prefix| <= |parts[0]|;
    assert parts[0] in parts;
    var relative := parts[0][|prefix|..];
    var segments := Split(relative, SLASH);
    JoinSplit(relative, SLASH);
    JoinAvoids(segments, SLASH, QUESTION);
    assert parts[0] == prefix + relative;
  }

  /** What prints that way is accepted, and its segments are the ones read back. */
  lemma {:induction false} PrintedPathIsAccepted(producer: Str, segments: seq<Str>, commit: Str)
    requires QUESTION !in producer && QUESTION !in commit && GoodSegments(segments)
    ensures AcceptsPath(PrintPath(producer, segments, commit), producer, commit)
    ensures SegmentsOf(PrintPath(producer, segments, commit), producer) == segments
  {
    PrefixPlain(producer, commit);
    PrintPathIs(producer, segments, commit);
    hide Prefix, Query, PrintPath;
    var prefix, relative := Prefix(producer), Join(segments, SLASH);
    var path := PrintPath(producer, segments, commit);
    JoinAvoids(segments, SLASH, QUESTION);
    SplitPart(prefix + relative, Query(commit), QUESTION);
    SplitPart(Query(commit), [], QUESTION);
    assert path == (prefix + relative) + [QUESTION] + Query(commit);
    assert (prefix + relative)[|prefix|..] == relative;
    SplitJoin(segments, SLASH);
    assert relative != [] by {
      assert segments[0] in segments && Split<CodeUnit>([], SLASH) == [[]];
    }
  }

  /** Main result: accepted exactly when it binds the producer, safe segments and the commit; the segments are
      then unique. */
  lemma {:induction false} PathAcceptedIff(path: Str, producer: Str, commit: Str)
    requires QUESTION !in producer && QUESTION !in commit
    ensures AcceptsPath(path, producer, commit) <==>
      exists segments: seq<Str> :: GoodSegments(segments) && path == PrintPath(producer, segments, commit)
    ensures forall segments: seq<Str> :: GoodSegments(segments) && path == PrintPath(producer, segments, commit) ==>
      segments == SegmentsOf(path, producer)
  {
    if AcceptsPath(path, producer, commit) {
      AcceptedPathPrints(path, producer, commit);
    }
    forall segments: seq<Str> | GoodSegments(segments) && path == PrintPath(producer, segments, commit)
      ensures AcceptsPath(path, producer, commit) && segments == SegmentsOf(path, producer)
    {
      PrintedPathIsAccepted(producer, segments, commit);
    }
  }

  /** One path cannot be accepted for two commits. */
  lemma {:induction false} PathBindsCommit(path: Str, producer: Str, commit: Str, other: Str)
    requires AcceptsPath(path, producer, commit) && AcceptsPath(path, producer, other)
    ensures commit == other
  {
    assert Query(commit)[|Lit("ref=")|..] == commit && Query(other)[|Lit("ref=")|..] == other;
  }

  // ---- package-versions-json ----

  /** The two size checks and the membership check of the version table's keys. */
  predicate VersionsMatch(packages: seq<Str>, keys: seq<Str>) {
    && |Elements(packages)| == |packages| && |keys| == |Elements(packages)|
    && forall k :: k in keys ==> k in packages
  }

  /** The checks force the keys of the table to be exactly the packages: a permutation of the list. */
  lemma {:induction false} VersionsMatchIff(packages: seq<Str>, keys: seq<Str>)
    requires NoDuplicates(keys)
    ensures VersionsMatch(packages, keys) <==> NoDuplicates(packages) && multiset(keys) == multiset(packages)
  {
    DistinctCountIff(packages);
    if NoDuplicates(packages) {
      PermutationIff(keys, packages);
      if VersionsMatch(packages, keys) {
        SameLengthCovers(keys, packages);
        assert forall j :: 0 <= j < |packages| ==> packages[j] in keys;
      }
      if multiset(keys) == multiset(packages) {
        assert |multiset(keys)| == |keys| && |multiset(packages)| == |packages|;
        forall k | k in keys ensures k in packages {
          var i :| 0 <= i < |keys| && keys[i] == k;
        }
      }
    }
  }
}
