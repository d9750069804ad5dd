/** The fail-open telemetry writer of lib/telemetry-fallback.mjs: one call over a file system that can fail at any
    step. */
module TelemetryWriter {
  import opened Options
  import opened Text

  type Dir = seq<Str>

  /** A file path, as its `dirname` and `basename`. */
  datatype Target = Target(directory: Dir, name: Str)

  type Files = map<Target, Str>

  datatype Error = Permission | Other

  datatype Op = Atomic(value: Str) | Append(value: Str)

  /** How the steps of one write fare. A failed `writeFile` may leave `left` in the temporary file; a failed
      `appendFile` may have appended the first `appended` code units. */
  datatype Attempt = Attempt(
    mkdir: Option<Error>, write: Option<Error>, left: Option<Str>, appended: nat, rename: Option<Error>, unlinks: bool)

  /** One call of a writer: `first` is its first write, `second` the one after `mkdtemp`. */
  datatype Call = Call(target: Target, op: Op, first: Attempt, mkdtemp: Result<Dir, Error>, second: Attempt)

  datatype Warning = Warning(directory: Dir, fallback: Dir)

  datatype Failure = Failed(error: Error) | NoFallback(error: Error, reason: Error)

  datatype State = State(files: Files, redirects: map<Dir, Dir>, warnings: seq<Warning>)

  /** `.<pid>.tmp` for the one process that owns the writer. */
  const TMP_SUFFIX: Str := Lit(".1.tmp")

  function Temporary(t: Target): Target {
    Target(t.directory, t.name + TMP_SUFFIX)
  }

  function Lookup(files: Files, t: Target): Option<Str> {
    if t in files then Some(files[t]) else None
  }

  function Content(files: Files, t: Target): Str {
    if t in files then files[t] else []
  }

  // ---- One write as a function ----

  function AtomicWritten(files: Files, t: Target, value: Str, a: Attempt): (Files, Option<Error>) {
    if a.mkdir.Some? then (files, a.mkdir)
    else if a.write.Some? then
      (if a.unlinks then files - {Temporary(t)}
       else if a.left.Some? then files[Temporary(t) := a.left.value]
       else files, a.write)
    else if a.rename.Some? then (if a.unlinks then files - {Temporary(t)} else files[Temporary(t) := value], a.rename)
    else ((files - {Temporary(t)})[t := value], None)
  }

  function Appended(files: Files, t: Target, value: Str, a: Attempt): (Files, Option<Error>) {
    if a.mkdir.Some? then (files, a.mkdir)
    else if a.write.Some? then
      (if 0 < a.appended <= |value| then files[t := Content(files, t) + value[..a.appended]] else files, a.write)
    else (files[t := Content(files, t) + value], None)
  }

  function Written(files: Files, t: Target, op: Op, a: Attempt): (Files, Option<Error>) {
    match op
    case Atomic(value) => AtomicWritten(files, t, value, a)
    case Append(value) => Appended(files, t, value, a)
  }

  /** One call of `atomicWrite` or `append`. */
  function Step(s: State, c: Call): (State, Result<Target, Failure>) {
    var directory := c.target.directory;
    if directory in s.redirects then
      var fallback := Target(s.redirects[directory], c.target.name);
      var (files, error) := Written(s.files, fallback, c.op, c.first);
      (s.(files := files), if error.Some? then Err(Failed(error.value)) else Ok(fallback))
    else
      var (files, error) := Written(s.files, c.target, c.op, c.first);
      if error.None? then (s.(files := files), Ok(c.target))
      else if error.value != Permission then (s.(files := files), Err(Failed(error.value)))
      else if c.mkdtemp.Err? then (s.(files := files), Err(NoFallback(error.value, c.mkdtemp.error)))
      else
        var fallback := Target(c.mkdtemp.value, c.target.name);
        var (again, failed) := Written(files, fallback, c.op, c.second);
        if failed.Some? then (s.(files := again), Err(Failed(failed.value)))
        else
          var warnings := s.warnings + [Warning(directory, c.mkdtemp.value)];
          (State(again, s.redirects[directory := c.mkdtemp.value], warnings), Ok(fallback))
  }

  // ---- The writer as the source runs it ----

  class Disk {
    var files: Files

    constructor ()
      ensures files == map[]
    {
      files := map[];
    }

    /** `atomicWriteFile` */
    method AtomicWriteFile(t: Target, value: Str, a: Attempt) returns (error: Option<Error>)
      modifies this
      ensures (files, error) == AtomicWritten(old(files), t, value, a)
    {
      if a.mkdir.Some? {
        return a.mkdir;
      }
      var temporaryPath := Temporary(t);
      if a.write.Some? {
        if a.left.Some? {
          files := files[temporaryPath := a.left.value];
        }
        error := a.write;
      } else {
        files := files[temporaryPath := value];
        error := a.rename;
      }
      if error.Some? {
        if a.unlinks {
          files := files - {temporaryPath};
          assert files == old(files) - {temporaryPath};
        }
      } else {
        assert temporaryPath != t by { assert |temporaryPath.name| > |t.name|; }
        files := (files - {temporaryPath})[t := value];
        assert files == (old(files) - {temporaryPath})[t := value];
      }
    }

    /** `appendLine` */
    method AppendLine(t: Target, value: Str, a: Attempt) returns (error: Option<Error>)
      modifies this
      ensures (files, error) == Appended(old(files), t, value, a)
    {
      if a.mkdir.Some? {
        return a.mkdir;
      }
      if a.write.Some? {
        if 0 < a.appended <= |value| {
          files := files[t := Content(files, t) + value[..a.appended]];
        }
        return a.write;
      }
      files := files[t := Content(files, t) + value];
      return None;
    }

    method Write(t: Target, op: Op, a: Attempt) returns (error: Option<Error>)
      modifies this
      ensures (files, error) == Written(old(files), t, op, a)
    {
      match op {
        case Atomic(value) => error := AtomicWriteFile(t, value, a);
        case Append(value) => error := AppendLine(t, value, a);
      }
    }
  }

  class Writer {
    const disk: Disk
    var redirects: map<Dir, Dir>
    var warnings: seq<Warning>

    constructor (disk: Disk)
      ensures this.disk == disk && redirects == map[] && warnings == []
    {
      this.disk := disk;
      redirects, warnings := map[], [];
    }

    function Now(): State
      reads this, disk
    {
      State(disk.files, redirects, warnings)
    }

    /** `withFallback` */
    method WithFallback(c: Call) returns (result: Result<Target, Failure>)
      modifies this, disk
      ensures (Now(), result) == Step(old(Now()), c)
    {
      var directory := c.target.directory;
      if directory in redirects {
        var fallbackPath := Target(redirects[directory], c.target.name);
        var refused := disk.Write(fallbackPath, c.op, c.first);
        if refused.Some? {
          return Err(Failed(refused.value));
        }
        return Ok(fallbackPath);
      }
      var error := disk.Write(c.target, c.op, c.first);
      if error.None? {
        return Ok(c.target);
      }
      if error.value != Permission {
        return Err(Failed(error.value));
      }
      if c.mkdtemp.Err? {
        return Err(NoFallback(error.value, c.mkdtemp.error));
      }
      var fallbackPath := Target(c.mkdtemp.value, c.target.name);
      var again := disk.Write(fallbackPath, c.op, c.second);
      if again.Some? {
        return Err(Failed(again.value));
      }
      redirects := redirects[directory := c.mkdtemp.value];
      warnings := warnings + [Warning(directory, c.mkdtemp.value)];
      return Ok(fallbackPath);
    }
  }

  // ---- What every call guarantees, whatever fails ----

  lemma {:induction false} TemporaryDiffers(t: Target)
    ensures Temporary(t) != t
  {
    assert |Temporary(t).name| == |t.name| + 6;
  }

  /** What one write does to each path: only the target and its temporary file are touched, an atomic write changes its
      target only by replacing it whole on success, and an append only extends it. */
  lemma {:induction false} WrittenIs(files: Files, t: Target, op: Op, a: Attempt, after: Files, error: Option<Error>)
    requires (after, error) == Written(files, t, op, a)
    ensures error.None? && op.Atomic? ==> t in after && after[t] == op.value
    ensures error.None? && op.Append? ==> t in after && after[t] == Content(files, t) + op.value
    ensures error.Some? && op.Atomic? ==> Lookup(after, t) == Lookup(files, t)
    ensures op.Append? ==> Content(files, t) <= Content(after, t)
    ensures forall p :: p != t && (op.Atomic? ==> p != Temporary(t)) ==> Lookup(after, p) == Lookup(files, p)
  {
    TemporaryDiffers(t);
  }

  /** Where the first write of a call goes. */
  function Place(s: State, t: Target): Target {
    if t.directory in s.redirects then Target(s.redirects[t.directory], t.name) else t
  }

  /** A call as its one or two writes. */
  lemma {:induction false} StepIs(s: State, c: Call)
    returns (files: Files, error: Option<Error>, again: Files, failed: Option<Error>, retried: bool)
    ensures (files, error) == Written(s.files, Place(s, c.target), c.op, c.first)
    ensures retried <==> c.target.directory !in s.redirects && error == Some(Permission) && c.mkdtemp.Ok?
    ensures retried ==> (again, failed) == Written(files, Target(c.mkdtemp.value, c.target.name), c.op, c.second)
    ensures !retried ==> Step(s, c).0 == s.(files := files)
    ensures !retried ==> (Step(s, c).1.Ok? <==> error.None?) && (error.None? ==> Step(s, c).1 == Ok(Place(s, c.target)))
    ensures retried ==> Step(s, c).0.files == again
    ensures retried && failed.None? ==>
      && Step(s, c).0.redirects == s.redirects[c.target.directory := c.mkdtemp.value]
      && Step(s, c).0.warnings == s.warnings + [Warning(c.target.directory, c.mkdtemp.value)]
      && Step(s, c).1 == Ok(Target(c.mkdtemp.value, c.target.name))
    ensures retried && failed.Some? ==>
      Step(s, c).0.redirects == s.redirects && Step(s, c).0.warnings == s.warnings && Step(s, c).1.Err?
  {
    hide Written;
    var w := Written(s.files, Place(s, c.target), c.op, c.first);
    files, error := w.0, w.1;
    retried := c.target.directory !in s.redirects && error == Some(Permission) && c.mkdtemp.Ok?;
    if retried {
      var x := Written(files, Target(c.mkdtemp.value, c.target.name), c.op, c.second);
      again, failed := x.0, x.1;
    } else {
      again, failed := files, error;
    }
  }

  /** A successful call returns a path with the base name it was given, and that path holds what was written: the value,
      or for an append what it held before the call and then the value. Only when `mkdtemp` returns the very directory
      that refused the write can a piece of the refused line stand between the two. */
  lemma {:induction false} SuccessHolds(s: State, c: Call, after: State, path: Target)
    requires Step(s, c) == (after, Ok(path))
    ensures path.name == c.target.name && path in after.files
    ensures c.op.Atomic? ==> after.files[path] == c.op.value
    ensures c.op.Append? && c.mkdtemp != Ok(c.target.directory) ==>
      after.files[path] == Content(s.files, path) + c.op.value
    ensures c.op.Append? ==> exists piece: Str :: after.files[path] == Content(s.files, path) + piece + c.op.value
  {
    var files, error, again, failed, retried := StepIs(s, c);
    hide Step, Written;
    WrittenIs(s.files, Place(s, c.target), c.op, c.first, files, error);
    if retried {
      WrittenIs(files, path, c.op, c.second, again, failed);
      if c.op.Append? {
        assert path != c.target ==> Lookup(files, path) == Lookup(s.files, path);
        assert Content(files, path) == Content(s.files, path) + Content(files, path)[|Content(s.files, path)|..];
      }
    } else if c.op.Append? {
      assert after.files[path] == Content(s.files, path) + [] + c.op.value;
    }
  }

  predicate IsTemporary(p: Target) {
    |p.name| >= 4 && p.name[|p.name| - 4..] == Lit(".tmp")
  }

  lemma {:induction false} TemporaryIs(t: Target)
    ensures IsTemporary(Temporary(t))
  {
    assert Temporary(t).name == t.name + Lit(".1") + Lit(".tmp");
  }

  /** A failed call leaves the writer's own state alone, so a fallback that cannot be written is not remembered; a
      failed atomic write changes no file but temporary ones, and none of the target's base name. */
  lemma {:induction false} FailureIsClean(s: State, c: Call, after: State, failure: Failure, p: Target)
    requires Step(s, c) == (after, Err(failure))
    ensures after.redirects == s.redirects && after.warnings == s.warnings
    ensures c.op.Atomic? && (!IsTemporary(p) || p.name == c.target.name) ==>
      Lookup(after.files, p) == Lookup(s.files, p)
  {
    var files, error, again, failed, retried := StepIs(s, c);
    hide Step, Written, IsTemporary;
    var t := Place(s, c.target);
    WrittenIs(s.files, t, c.op, c.first, files, error);
    TemporaryIs(t);
    TemporaryDiffers(t);
    if retried {
      var u := Target(c.mkdtemp.value, c.target.name);
      WrittenIs(files, u, c.op, c.second, again, failed);
      TemporaryIs(u);
      TemporaryDiffers(u);
    }
    assert |t.name| != |Temporary(t).name|;
  }
}
