/** Whole runs of the telemetry writer of lib/telemetry-fallback.mjs. */
module TelemetryRuns {
  import opened Options
  import opened Sorting
  import opened Text
  import opened TelemetryWriter

  function After(s: State, calls: seq<Call>): State
    decreases |calls|
  {
    if calls == [] then s else After(Step(s, calls[0]).0, calls[1..])
  }

  function Results(s: State, calls: seq<Call>): (rs: seq<Result<Target, Failure>>)
    ensures |rs| == |calls|
    decreases |calls|
  {
    if calls == [] then [] else [Step(s, calls[0]).1] + Results(Step(s, calls[0]).0, calls[1..])
  }

  // ---- One warning for each redirected directory, whatever fails ----

  function WarnedDirectories(s: State): seq<Dir> {
    seq(|s.warnings|, i requires 0 <= i < |s.warnings| => s.warnings[i].directory)
  }

  ghost predicate Noted(s: State) {
    && NoDuplicates(WarnedDirectories(s))
    && (forall i :: 0 <= i < |s.warnings| ==>
          s.warnings[i].directory in s.redirects && s.redirects[s.warnings[i].directory] == s.warnings[i].fallback)
    && forall d :: d in s.redirects ==> exists i :: 0 <= i < |s.warnings| && s.warnings[i].directory == d
  }

  lemma {:induction false} StepNotes(s: State, c: Call)
    requires Noted(s)
    ensures Noted(Step(s, c).0)
  {
    var t := Step(s, c).0;
    var files, error, again, failed, retried := StepIs(s, c);
    hide Step, Written;
    if retried && failed.None? {
      var n := |s.warnings|;
      assert forall i :: 0 <= i < n ==> t.warnings[i] == s.warnings[i];
      assert WarnedDirectories(t) == WarnedDirectories(s) + [c.target.directory];
      assert c.target.directory !in WarnedDirectories(s);
      forall d | d in t.redirects ensures exists i :: 0 <= i < |t.warnings| && t.warnings[i].directory == d {
        if d == c.target.directory {
          assert t.warnings[n].directory == d;
        } else {
          var i :| 0 <= i < n && s.warnings[i].directory == d;
          assert t.warnings[i].directory == d;
        }
      }
    } else {
      assert t.redirects == s.redirects && t.warnings == s.warnings;
      assert WarnedDirectories(t) == WarnedDirectories(s);
    }
  }

  /** Over every run from a fresh writer, whatever fails: each redirected directory is warned about exactly once, with
      the fallback in use, and nothing else is. */
  lemma {:induction false} WarnedOnce(s: State, calls: seq<Call>)
    requires Noted(s)
    ensures Noted(After(s, calls)) && |After(s, calls).warnings| == |After(s, calls).redirects.Keys|
    decreases |calls|
  {
    if calls == [] {
      DistinctCount(WarnedDirectories(s));
      assert Elements(WarnedDirectories(s)) == s.redirects.Keys by {
        forall d | d in s.redirects ensures d in WarnedDirectories(s) {
          var i :| 0 <= i < |s.warnings| && s.warnings[i].directory == d;
          assert WarnedDirectories(s)[i] == d;
        }
        forall d | d in WarnedDirectories(s) ensures d in s.redirects {
          var i :| 0 <= i < |s.warnings| && WarnedDirectories(s)[i] == d;
        }
      }
    } else {
      StepNotes(s, calls[0]);
      WarnedOnce(Step(s, calls[0]).0, calls[1..]);
    }
  }

  // ---- Where the files of one directory land ----

  /** The writer before the `k`th call. */
  function Before(s: State, calls: seq<Call>, k: nat): State
    requires k <= |calls|
    decreases k
  {
    if k == 0 then s else Before(Step(s, calls[0]).0, calls[1..], k - 1)
  }

  lemma {:induction false} BeforeNext(s: State, calls: seq<Call>, k: nat)
    requires k < |calls|
    ensures Before(s, calls, k + 1) == Step(Before(s, calls, k), calls[k]).0
    ensures Results(s, calls)[k] == Step(Before(s, calls, k), calls[k]).1
    decreases k
  {
    hide Step;
    if k > 0 {
      BeforeNext(Step(s, calls[0]).0, calls[1..], k - 1);
    }
  }

  /** The first write of a call. */
  function FirstWrite(s: State, c: Call): (Files, Option<Error>) {
    Written(s.files, c.target, c.op, c.first)
  }

  /** The call redirects `d`: its write there is refused for permission and its retry succeeds. */
  predicate Redirects(s: State, c: Call, d: Dir) {
    && c.target.directory == d && d !in s.redirects && FirstWrite(s, c).1 == Some(Permission) && c.mkdtemp.Ok?
    && Written(FirstWrite(s, c).0, Target(c.mkdtemp.value, c.target.name), c.op, c.second).1.None?
  }

  /** And the fallback is another directory. */
  predicate RedirectsAway(s: State, c: Call, d: Dir) {
    Redirects(s, c, d) && c.mkdtemp.value != d
  }

  function Home(s: State, d: Dir): Dir {
    if d in s.redirects then s.redirects[d] else d
  }

  lemma {:induction false} StepMoves(s: State, c: Call, d: Dir)
    ensures var (t, r) := Step(s, c);
      && (d in s.redirects ==> d in t.redirects && t.redirects[d] == s.redirects[d])
      && (d !in s.redirects ==> (d in t.redirects <==> Redirects(s, c, d)))
      && (Redirects(s, c, d) ==> t.redirects[d] == c.mkdtemp.value)
      && (r.Ok? && c.target.directory == d ==> r.value.directory == Home(t, d))
      && (r.Ok? && c.target.directory == d && d !in t.redirects ==> FirstWrite(s, c).1.None?)
  {
    hide Written;
  }

  lemma {:induction false} RedirectStays(s: State, calls: seq<Call>, i: nat, j: nat, d: Dir)
    requires i <= j <= |calls| && d in Before(s, calls, i).redirects
    ensures d in Before(s, calls, j).redirects && Before(s, calls, j).redirects[d] == Before(s, calls, i).redirects[d]
    decreases j
  {
    hide Step;
    if i < j {
      RedirectStays(s, calls, i, j - 1, d);
      BeforeNext(s, calls, j - 1);
      StepMoves(Before(s, calls, j - 1), calls[j - 1], d);
    }
  }

  /** Some call from the `i`th up to the `j`th redirects `d` away from itself. */
  ghost predicate RedirectedAway(s: State, calls: seq<Call>, i: nat, j: nat, d: Dir)
    requires j <= |calls|
  {
    exists k :: i <= k < j && RedirectsAway(Before(s, calls, k), calls[k], d)
  }

  lemma {:induction false} HomeMovesIff(s: State, calls: seq<Call>, i: nat, j: nat, d: Dir)
    requires i <= j <= |calls|
    ensures Home(Before(s, calls, i), d) != Home(Before(s, calls, j), d) <==> RedirectedAway(s, calls, i, j, d)
    ensures RedirectedAway(s, calls, i, j, d) ==> d !in Before(s, calls, i).redirects
    decreases j - i
  {
    hide Step, Before, Redirects;
    if i < j {
      BeforeNext(s, calls, i);
      StepMoves(Before(s, calls, i), calls[i], d);
      HomeMovesIff(s, calls, i + 1, j, d);
      if Redirects(Before(s, calls, i), calls[i], d) {
        RedirectStays(s, calls, i + 1, j, d);
        assert !RedirectedAway(s, calls, i + 1, j, d);
        WasNotRedirected(Before(s, calls, i), calls[i], d);
      }
      assert RedirectedAway(s, calls, i, j, d) <==>
        RedirectedAway(s, calls, i + 1, j, d) || RedirectsAway(Before(s, calls, i), calls[i], d) by {
        hide Home, RedirectsAway;
      }
    }
  }

  lemma {:induction false} WasNotRedirected(s: State, c: Call, d: Dir)
    requires Redirects(s, c, d)
    ensures d !in s.redirects
  {
  }

  /** The exact condition, over every run and whatever fails: of two successful calls on one directory the later lands
      elsewhere exactly when a call after the first, up to the second, was refused there for permission and succeeded in
      a fallback that is another directory. The first then landed in place. */
  lemma {:induction false} DirectorySplitsIff(s: State, calls: seq<Call>, i: nat, j: nat)
    requires i < j < |calls| && calls[i].target.directory == calls[j].target.directory
    requires Results(s, calls)[i].Ok? && Results(s, calls)[j].Ok?
    ensures var d := calls[i].target.directory;
      && (Results(s, calls)[i].value.directory != Results(s, calls)[j].value.directory <==>
        RedirectedAway(s, calls, i + 1, j + 1, d))
      && (RedirectedAway(s, calls, i + 1, j + 1, d) ==> Results(s, calls)[i].value.directory == d)
  {
    hide Step, Before, Redirects, Results;
    var d := calls[i].target.directory;
    BeforeNext(s, calls, i);
    BeforeNext(s, calls, j);
    StepMoves(Before(s, calls, i), calls[i], d);
    StepMoves(Before(s, calls, j), calls[j], d);
    HomeMovesIff(s, calls, i + 1, j + 1, d);
  }

  /** The permission of `d` does not change: every write tried in it is refused for permission, or none is. */
  ghost predicate FixedPermission(s: State, calls: seq<Call>, d: Dir, denied: bool) {
    forall k :: 0 <= k < |calls| && calls[k].target.directory == d && d !in Before(s, calls, k).redirects ==>
      (FirstWrite(Before(s, calls, k), calls[k]).1 == Some(Permission) <==> denied)
  }

  /** While a directory's permission stays fixed, all its files land in one directory. */
  lemma {:induction false} DirectoryNeverSplits(s: State, calls: seq<Call>, i: nat, j: nat, denied: bool)
    requires i < j < |calls| && calls[i].target.directory == calls[j].target.directory
    requires FixedPermission(s, calls, calls[i].target.directory, denied)
    requires Results(s, calls)[i].Ok? && Results(s, calls)[j].Ok?
    ensures Results(s, calls)[i].value.directory == Results(s, calls)[j].value.directory
  {
    hide Step, Before, FirstWrite, Results;
    var d := calls[i].target.directory;
    DirectorySplitsIff(s, calls, i, j);
    HomeMovesIff(s, calls, i + 1, j + 1, d);
    if RedirectedAway(s, calls, i + 1, j + 1, d) {
      var k :| i + 1 <= k < j + 1 && RedirectsAway(Before(s, calls, k), calls[k], d);
      BeforeNext(s, calls, i);
      StepMoves(Before(s, calls, i), calls[i], d);
      assert false;
    }
  }

  const WORKS: Attempt := Attempt(None, None, None, 0, None, true)
  const REFUSED: Attempt := Attempt(Some(Permission), None, None, 0, None, true)

  /** Permissions that change do split a directory: its first file lands in it and the next one elsewhere. */
  lemma {:induction false} SplitWhenPermissionChanges(
    s: State, d: Dir, elsewhere: Dir, x: Str, y: Str, op: Op, later: Op)
    requires d !in s.redirects && elsewhere != d
    ensures var a, b :=
      Call(Target(d, x), op, WORKS, Ok(elsewhere), WORKS), Call(Target(d, y), later, REFUSED, Ok(elsewhere), WORKS);
      var rs := Results(s, [a, b]);
      rs[0] == Ok(Target(d, x)) && rs[1] == Ok(Target(elsewhere, y))
  {
    var a, b := Call(Target(d, x), op, WORKS, Ok(elsewhere), WORKS),
      Call(Target(d, y), later, REFUSED, Ok(elsewhere), WORKS);
    assert [a, b][1..] == [b] && [b][0] == b;
  }

  // ---- Runs under fixed permissions ----

  /** `denied` says which directories refuse the job's writes; `owned` holds the configured directories, none of which
      `mkdtemp` invents. */
  datatype Env = Env(denied: Dir -> bool, owned: set<Dir>)

  /** The environment behaves: a write is refused for permission exactly in a denied directory, and `mkdtemp` makes a
      new, empty directory the job can write to. Any other error may strike any write. */
  ghost predicate Fair(env: Env, s: State, c: Call) {
    var w := Written(s.files, Place(s, c.target), c.op, c.first);
    && c.target.directory in env.owned
    && (w.1 == Some(Permission) <==> env.denied(Place(s, c.target).directory))
    && (c.mkdtemp.Ok? ==>
          && c.mkdtemp.value !in env.owned && !env.denied(c.mkdtemp.value) && c.mkdtemp.value !in s.redirects.Values
          && (forall p :: p in s.files ==> p.directory != c.mkdtemp.value)
          && Written(w.0, Target(c.mkdtemp.value, c.target.name), c.op, c.second).1 != Some(Permission))
  }

  ghost predicate FairRun(env: Env, s: State, calls: seq<Call>)
    decreases |calls|
  {
    calls != [] ==> Fair(env, s, calls[0]) && FairRun(env, Step(s, calls[0]).0, calls[1..])
  }

  /** Only denied directories are redirected, each to a writable directory of its own. */
  ghost predicate Sound(env: Env, s: State) {
    && (forall d :: d in s.redirects ==>
          d in env.owned && env.denied(d) && s.redirects[d] !in env.owned && !env.denied(s.redirects[d]))
    && forall d, e :: d in s.redirects && e in s.redirects && d != e ==> s.redirects[d] != s.redirects[e]
  }

  lemma {:induction false} StepSound(env: Env, s: State, c: Call)
    requires Sound(env, s) && Fair(env, s, c)
    ensures Sound(env, Step(s, c).0)
  {
    var files, error, again, failed, retried := StepIs(s, c);
    hide Step, Written;
    if retried && failed.None? {
      var t := Step(s, c).0;
      forall d, e | d in t.redirects && e in t.redirects && d != e ensures t.redirects[d] != t.redirects[e] {
        assert d in s.redirects ==> s.redirects[d] in s.redirects.Values;
        assert e in s.redirects ==> s.redirects[e] in s.redirects.Values;
      }
    }
  }

  /** A directory's files have a place that later calls do not move. */
  predicate Settled(env: Env, s: State, d: Dir) {
    d in s.redirects || !env.denied(d)
  }

  lemma {:induction false} StepSettles(env: Env, s: State, c: Call, t: Target)
    requires Sound(env, s) && Fair(env, s, c)
    ensures Settled(env, s, t.directory) ==>
      Settled(env, Step(s, c).0, t.directory) && Place(Step(s, c).0, t) == Place(s, t)
    ensures Step(s, c).1.Ok? ==>
      Settled(env, Step(s, c).0, c.target.directory) && Step(s, c).1.value == Place(Step(s, c).0, c.target)
  {
    var files, error, again, failed, retried := StepIs(s, c);
    hide Step, Written;
  }

  /** A fair run keeps the permission of every directory fixed. */
  lemma {:induction false} FairIsFixed(env: Env, s: State, calls: seq<Call>, d: Dir)
    requires FairRun(env, s, calls)
    ensures FixedPermission(s, calls, d, env.denied(d))
  {
    hide Step, Written;
    forall k | 0 <= k < |calls| ensures Fair(env, Before(s, calls, k), calls[k]) {
      FairAt(env, s, calls, k);
    }
  }

  lemma {:induction false} FairAt(env: Env, s: State, calls: seq<Call>, k: nat)
    requires FairRun(env, s, calls) && k < |calls|
    ensures Fair(env, Before(s, calls, k), calls[k])
    decreases k
  {
    hide Step, Fair;
    if k > 0 {
      FairAt(env, Step(s, calls[0]).0, calls[1..], k - 1);
    }
  }

  // ---- Each file reads as if it were written alone ----

  /** What has landed for a configured path. */
  function Landed(env: Env, s: State, t: Target): Option<Str> {
    if Settled(env, s, t.directory) then Lookup(s.files, Place(s, t)) else None
  }

  function Applied(before: Option<Str>, op: Op): Option<Str> {
    match op
    case Atomic(value) => Some(value)
    case Append(value) => Some((if before.Some? then before.value else []) + value)
  }

  /** The successful calls on `t`, one after the other, starting from `before`. */
  function Folded(before: Option<Str>, s: State, calls: seq<Call>, t: Target): Option<Str>
    decreases |calls|
  {
    if calls == [] then before
    else
      var now := if calls[0].target == t && Step(s, calls[0]).1.Ok? then Applied(before, calls[0].op) else before;
      Folded(now, Step(s, calls[0]).0, calls[1..], t)
  }

  /** Two configured files never share a place. */
  lemma {:induction false} PlacesApart(env: Env, s: State, t: Target, u: Target)
    requires Sound(env, s) && t.directory in env.owned && u.directory in env.owned && t != u
    ensures Place(s, t) != Place(s, u)
    ensures Temporary(u).name != t.name ==> Place(s, t) != Temporary(Place(s, u))
  {
  }

  /** A call on another file leaves this one alone. */
  lemma {:induction false} StepElsewhere(env: Env, s: State, c: Call, t: Target)
    requires Sound(env, s) && Fair(env, s, c) && t.directory in env.owned
    requires c.target != t && Temporary(c.target).name != t.name
    ensures Landed(env, Step(s, c).0, t) == Landed(env, s, t)
  {
    var files, error, again, failed, retried := StepIs(s, c);
    StepSettles(env, s, c, t);
    hide Step, Written;
    PlacesApart(env, s, t, c.target);
    WrittenIs(s.files, Place(s, c.target), c.op, c.first, files, error);
    assert Lookup(files, Place(s, t)) == Lookup(s.files, Place(s, t));
    if retried {
      var made := Target(c.mkdtemp.value, c.target.name);
      WrittenIs(files, made, c.op, c.second, again, failed);
      assert t.directory in s.redirects ==> s.redirects[t.directory] in s.redirects.Values;
      assert Place(s, t).directory != c.mkdtemp.value;
      assert Lookup(again, Place(s, t)) == Lookup(files, Place(s, t));
      if failed.None? && t.directory == c.target.directory {
        var p := Target(c.mkdtemp.value, t.name);
        FreshIsEmpty(env, s, c, files, error, p);
        assert Lookup(again, p) == Lookup(files, p) == None;
      }
    }
  }

  lemma {:induction false} FreshIsEmpty(env: Env, s: State, c: Call, files: Files, error: Option<Error>, p: Target)
    requires Fair(env, s, c) && c.target.directory !in s.redirects && c.mkdtemp.Ok? && p.directory == c.mkdtemp.value
    requires (files, error) == Written(s.files, c.target, c.op, c.first)
    ensures Lookup(files, p) == None
  {
    WrittenIs(s.files, c.target, c.op, c.first, files, error);
    hide Written;
  }

  /** A call on this file applies its operation when it succeeds; a failed atomic write does not. */
  lemma {:induction false} StepHere(env: Env, s: State, c: Call)
    requires Sound(env, s) && Fair(env, s, c)
    ensures Step(s, c).1.Ok? ==> Landed(env, Step(s, c).0, c.target) == Applied(Landed(env, s, c.target), c.op)
    ensures Step(s, c).1.Err? && c.op.Atomic? ==> Landed(env, Step(s, c).0, c.target) == Landed(env, s, c.target)
  {
    var files, error, again, failed, retried := StepIs(s, c);
    hide Step, Written;
    WrittenIs(s.files, Place(s, c.target), c.op, c.first, files, error);
    if retried {
      var made := Target(c.mkdtemp.value, c.target.name);
      WrittenIs(files, made, c.op, c.second, again, failed);
      FreshIsEmpty(env, s, c, files, error, made);
    }
  }

  /** No append to `t` fails; a failed one may have written a part of its line. */
  ghost predicate AppendsSucceed(s: State, calls: seq<Call>, t: Target) {
    forall i :: 0 <= i < |calls| && calls[i].target == t && calls[i].op.Append? ==> Results(s, calls)[i].Ok?
  }

  /** Over every run under fixed permissions: a file ends up holding exactly its own successful writes, in order,
      whatever the other calls do and whether or not its directory was redirected on the way. */
  lemma {:induction false} RunKeepsEveryWrite(env: Env, s: State, calls: seq<Call>, t: Target)
    requires Sound(env, s) && FairRun(env, s, calls) && t.directory in env.owned
    requires forall c :: c in calls ==> Temporary(c.target).name != t.name
    requires AppendsSucceed(s, calls, t)
    ensures Landed(env, After(s, calls), t) == Folded(Landed(env, s, t), s, calls, t)
    decreases |calls|
  {
    hide Step, Fair, Landed, Temporary;
    if calls != [] {
      var c := calls[0];
      var next := Step(s, c).0;
      assert c in calls && forall d :: d in calls[1..] ==> d in calls;
      StepSound(env, s, c);
      if c.target == t {
        assert c.op.Append? ==> Results(s, calls)[0].Ok?;
        StepHere(env, s, c);
      } else {
        StepElsewhere(env, s, c, t);
      }
      assert AppendsSucceed(next, calls[1..], t) by {
        assert forall i :: 0 <= i < |calls[1..]| ==>
          calls[1..][i] == calls[i + 1] && Results(next, calls[1..])[i] == Results(s, calls)[i + 1];
      }
      RunKeepsEveryWrite(env, next, calls[1..], t);
    }
  }
}
