/** The walk of release-manifest/release-manifest.mjs: which files it lists, in which order, and when it fails. */
module ReleaseWalk {
  import opened Chunks
  import opened Options
  import opened Sorting
  import opened Text
  import opened Utf8

  type Path = seq<Str>

  /** A directory tree as `lstat` sees it. A file that is not readable fails after the given chunks; `entries` is the
      order in which `readdir` happens to list them, an `Unreadable` directory cannot be listed, and `lstat` fails on
      `Lost`. */
  datatype Node =
    | File(content: seq<Bytes>, readable: bool)
    | Directory(entries: seq<Entry>)
    | Unreadable
    | SymbolicLink
    | Special
    | Lost

  datatype Entry = Entry(name: Str, node: Node)

  datatype FileRecord = FileRecord(path: Str, sha256: Str, bytes: nat)

  datatype Failure = ContainsLink | Unsupported | PathTooLong | ControlCharacter | Collision | TooManyFiles | ReadFailed

  /** `lower` is `toLowerCase` and `hash` is SHA-256. */
  datatype Settings = Settings(excluded: set<Str>, maximum: nat, lower: Str -> Str, hash: Bytes -> Str)

  /** The shared accumulators. */
  datatype Progress = Progress(files: seq<FileRecord>, seen: set<Str>)

  ghost predicate ValidNode(n: Node) {
    n.Directory? ==>
      && (forall i, j :: 0 <= i < j < |n.entries| ==> n.entries[i].name != n.entries[j].name)
      && forall i :: 0 <= i < |n.entries| ==> ValidNode(n.entries[i].node)
  }

  predicate NameLess(a: Entry, b: Entry) {
    StrLess(a.name, b.name)
  }

  /** `path.relative(root, absolute).replaceAll("\\", "/")`. */
  function Report(segments: Path): Str {
    ReplaceUnit(Join(segments, SLASH), BACKSLASH, [SLASH])
  }

  predicate HasControl(s: Str) {
    exists u :: u in s && (u <= 0x1F || u == 0x7F)
  }

  /** `hashFile`: hash the stream and count its bytes, unless reading fails. */
  method HashFile(s: Settings, content: seq<Bytes>, readable: bool) returns (hashed: Option<(Str, nat)>)
    ensures hashed == if readable then Some((s.hash(Flatten(content)), |Flatten(content)|)) else None
  {
    var read: Bytes := [];
    var bytes := 0;
    for i := 0 to |content|
      invariant read == Flatten(content[..i]) && bytes == |read|
    {
      FlattenAppend(content[..i], content[i]);
      assert content[..i + 1] == content[..i] + [content[i]];
      read := read + content[i];
      bytes := bytes + |content[i]|;
    }
    assert content[..|content|] == content;
    return if readable then Some((s.hash(read), bytes)) else None;
  }

  function RecordOf(s: Settings, segments: Path, content: seq<Bytes>): FileRecord {
    FileRecord(Report(segments), s.hash(Flatten(content)), |Flatten(content)|)
  }

  // ---- The walk as a function ----

  /** A leaf that is not excluded. */
  function WalkLeaf(s: Settings, segments: Path, n: Node, p: Progress): Result<Progress, Failure> {
    var relative := Report(segments);
    match n
    case SymbolicLink => Err(ContainsLink)
    case File(content, readable) =>
      if Utf8Length(relative) > 512 then Err(PathTooLong)
      else if HasControl(relative) then Err(ControlCharacter)
      else if s.lower(relative) in p.seen then Err(Collision)
      else if !readable then Err(ReadFailed)
      else if |p.files| + 1 > s.maximum then Err(TooManyFiles)
      else Ok(Progress(p.files + [RecordOf(s, segments, content)], p.seen + {s.lower(relative)}))
    case Unreadable => Err(ReadFailed)
    case Lost => Err(ReadFailed)
    case _ => Err(Unsupported)
  }

  function WalkNode(s: Settings, segments: Path, n: Node, p: Progress): Result<Progress, Failure>
    decreases n, 2
  {
    if Report(segments) in s.excluded then Ok(p)
    else if n.Directory? then WalkDirectory(s, segments, n, p)
    else WalkLeaf(s, segments, n, p)
  }

  /** One call of `walkFiles`. */
  function WalkDirectory(s: Settings, current: Path, n: Node, p: Progress): Result<Progress, Failure>
    requires n.Directory?
    decreases n, 1
  {
    SortedEntries(n.entries);
    WalkEntries(s, current, n, Sort(n.entries, NameLess), p)
  }

  function WalkEntries(s: Settings, prefix: Path, holder: Node, es: seq<Entry>, p: Progress): Result<Progress, Failure>
    requires forall e :: e in es ==> e.node < holder
    decreases holder, 0, |es|
  {
    if es == [] then Ok(p)
    else
      assert es[0] in es;
      var first := WalkNode(s, prefix + [es[0].name], es[0].node, p);
      if first.Err? then first else WalkEntries(s, prefix, holder, es[1..], first.value)
  }

  lemma {:induction false} SortedEntries(es: seq<Entry>)
    ensures forall e :: e in Sort(es, NameLess) ==> e in es && e.node < Directory(es)
  {
    SortPermutes(es, NameLess);
    forall e | e in es ensures e.node < Directory(es) {
      var i :| 0 <= i < |es| && es[i] == e;
    }
  }

  // ---- The walk as the source runs it ----

  class Walker {
    var files: seq<FileRecord>
    var seen: set<Str>

    constructor ()
      ensures files == [] && seen == {}
    {
      files, seen := [], {};
    }

    /** `walkFiles`: sorts the entries of one directory and pushes into the shared list. */
    method WalkFiles(s: Settings, current: Path, directory: Node) returns (failure: Option<Failure>)
      requires directory.Directory? || directory.Unreadable?
      modifies this
      ensures
        if directory.Unreadable? then failure == Some(ReadFailed)
        else
          var r := WalkDirectory(s, current, directory, Progress(old(files), old(seen)));
          if r.Ok? then failure == None && Progress(files, seen) == r.value else failure == Some(r.error)
      decreases directory
    {
      if directory.Unreadable? {
        return Some(ReadFailed);
      }
      SortedEntries(directory.entries);
      var entries := Sort(directory.entries, NameLess);
      ghost var r := WalkEntries(s, current, directory, entries, Progress(files, seen));
      var i := 0;
      assert entries[0..] == entries;
      while i < |entries|
        invariant 0 <= i <= |entries|
        invariant forall e :: e in entries[i..] ==> e.node < directory
        invariant r == WalkEntries(s, current, directory, entries[i..], Progress(files, seen))
      {
        var entry := entries[i];
        assert entry in entries && entries[i..][0] == entry && entries[i..][1..] == entries[i + 1..];
        i := i + 1;
        var absolute := current + [entry.name];
        var relative := Report(absolute);
        if relative in s.excluded {
          continue;
        }
        if entry.node.Lost? {
          return Some(ReadFailed);
        }
        if entry.node.SymbolicLink? {
          return Some(ContainsLink);
        }
        if entry.node.Directory? || entry.node.Unreadable? {
          var inner := WalkFiles(s, absolute, entry.node);
          if inner.Some? {
            return inner;
          }
          continue;
        }
        if !entry.node.File? {
          return Some(Unsupported);
        }
        if Utf8Length(relative) > 512 {
          return Some(PathTooLong);
        }
        if HasControl(relative) {
          return Some(ControlCharacter);
        }
        var portable := s.lower(relative);
        if portable in seen {
          return Some(Collision);
        }
        seen := seen + {portable};
        var hashed := HashFile(s, entry.node.content, entry.node.readable);
        if hashed.None? {
          return Some(ReadFailed);
        }
        files := files + [FileRecord(relative, hashed.value.0, hashed.value.1)];
        if |files| > s.maximum {
          return Some(TooManyFiles);
        }
      }
      assert entries[|entries|..] == [];
      return None;
    }
  }
}
