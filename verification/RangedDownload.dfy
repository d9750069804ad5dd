/** download-ranged-artifact/download-ranged-artifact.mjs: the byte ranges and the reassembly of the archive. */
module RangedDownload {
  import opened Utf8
  import opened Chunks
  import opened Options

  datatype Range = Range(index: nat, start: nat, end: nat) {
    function Length(): int {
      end - start + 1
    }
  }

  function CeilDiv(total: nat, count: nat): nat
    requires count > 0
  {
    (total + count - 1) / count
  }

  function Min(a: int, b: int): int {
    if a < b then a else b
  }

  // ---- buildRanges ----

  function RangesFrom(total: nat, count: nat, size: nat, index: nat): seq<Range>
    requires total > 0 && size > 0
    decreases if index < count then count - index else 0
  {
    if index >= count || index * size >= total then []
    else
      var start := index * size;
      [Range(index, start, Min(total - 1, start + size - 1))] + RangesFrom(total, count, size, index + 1)
  }

  lemma {:induction false} ChunkSize(total: nat, count: nat)
    requires total > 0 && count > 0
    ensures CeilDiv(total, count) > 0 && total <= count * CeilDiv(total, count) < total + count
  {
    var size := CeilDiv(total, count);
    var rem := (total + count - 1) % count;
    assert total + count - 1 == count * size + rem;
    assert count * size > 0;
  }

  /** The counting loop that pushes one range after another. */
  method BuildRanges(total: nat, count: nat) returns (ranges: seq<Range>)
    requires total > 0 && count > 0
    ensures CeilDiv(total, count) > 0 && ranges == RangesFrom(total, count, CeilDiv(total, count), 0)
  {
    ChunkSize(total, count);
    var size := CeilDiv(total, count);
    ranges := [];
    var index := 0;
    while index < count && index * size < total
      invariant 0 <= index <= count
      invariant ranges + RangesFrom(total, count, size, index) == RangesFrom(total, count, size, 0)
      decreases count - index
    {
      var start := index * size;
      ranges := ranges + [Range(index, start, Min(total - 1, start + size - 1))];
      index := index + 1;
    }
  }

  /** The ranges lie end to end from `from` to the last byte, each holding at least one byte. */
  ghost predicate Tiles(ranges: seq<Range>, from: nat, total: nat, index: nat)
    decreases |ranges|
  {
    if ranges == [] then from == total
    else
      && ranges[0].index == index && ranges[0].start == from && from <= ranges[0].end < total
      && Tiles(ranges[1..], ranges[0].end + 1, total, index + 1)
  }

  lemma {:induction false} RangesTile(total: nat, count: nat, size: nat, index: nat)
    requires total > 0 && size > 0 && total <= count * size && index * size < total
    ensures var r := RangesFrom(total, count, size, index);
      r != [] && Tiles(r, index * size, total, index) && index + |r| <= count
    decreases total - index * size
  {
    MulStep(index, size);
    assert index < count by {
      if index >= count { MulMonotone(count, index, size); }
    }
    var next := (index + 1) * size;
    var r := RangesFrom(total, count, size, index);
    assert r[1..] == RangesFrom(total, count, size, index + 1);
    if next < total {
      RangesTile(total, count, size, index + 1);
    } else {
      assert r[1..] == [];
    }
  }

  lemma {:induction false} MulStep(a: nat, b: nat)
    ensures (a + 1) * b == a * b + b
  {
  }

  lemma {:induction false} MulMonotone(a: nat, b: nat, c: nat)
    requires a <= b
    ensures a * c <= b * c
  {
  }

  /** Main result on the partition: for every size and count the ranges are non-empty, adjacent and disjoint, cover
      exactly the bytes of the archive, and number at least one and at most the count. */
  lemma {:induction false} RangesPartition(total: nat, count: nat)
    requires total > 0 && count > 0
    ensures CeilDiv(total, count) > 0
    ensures var r := RangesFrom(total, count, CeilDiv(total, count), 0); 1 <= |r| <= count && Tiles(r, 0, total, 0)
  {
    ChunkSize(total, count);
    RangesTile(total, count, CeilDiv(total, count), 0);
  }

  /** Every byte lies in exactly one range. */
  lemma {:induction false} EveryByteOnce(ranges: seq<Range>, from: nat, total: nat, index: nat, byte: nat)
    requires Tiles(ranges, from, total, index) && from <= byte < total
    ensures exists i :: 0 <= i < |ranges| && ranges[i].start <= byte <= ranges[i].end
    ensures forall i, j :: 0 <= i < |ranges| && 0 <= j < |ranges| ==>
      ranges[i].start <= byte <= ranges[i].end ==> ranges[j].start <= byte <= ranges[j].end ==> i == j
    ensures forall i :: 0 <= i < |ranges| ==> ranges[i].start >= from
    decreases |ranges|
  {
    assert ranges != [];
    var rest, next := ranges[1..], ranges[0].end + 1;
    if byte < next {
      assert ranges[0].start <= byte <= ranges[0].end;
      StartsAfter(rest, next, total, index + 1);
      assert forall i :: 1 <= i < |ranges| ==> ranges[i] == rest[i - 1];
    } else {
      EveryByteOnce(rest, next, total, index + 1, byte);
      var k :| 0 <= k < |rest| && rest[k].start <= byte <= rest[k].end;
      assert ranges[k + 1] == rest[k];
      assert forall i :: 1 <= i < |ranges| ==> ranges[i] == rest[i - 1];
    }
  }

  lemma {:induction false} StartsAfter(ranges: seq<Range>, from: nat, total: nat, index: nat)
    requires Tiles(ranges, from, total, index)
    ensures forall i :: 0 <= i < |ranges| ==> ranges[i].start >= from
    decreases |ranges|
  {
    if ranges != [] {
      StartsAfter(ranges[1..], ranges[0].end + 1, total, index + 1);
      assert forall i :: 1 <= i < |ranges| ==> ranges[i] == ranges[1..][i - 1];
    }
  }

  // ---- Fetching and assembling ----

  /** One reply to a range request; `broken` says that the connection ends in an error after the
      chunks. A fetch that throws has no body. */
  datatype Reply = Reply(status: int, hasBody: bool, chunks: seq<Bytes>, broken: bool)

  predicate Answers(reply: Reply) {
    reply.status == 206 && reply.hasBody
  }

  /** `writeResponseBody` accepts the reply for a range. */
  predicate Accepted(range: Range, reply: Reply) {
    Answers(reply) && !reply.broken && |Flatten(reply.chunks)| == range.Length()
  }

  /** Only partial content that arrives whole, with the length asked for, is accepted. */
  lemma {:induction false} AcceptedIff(range: Range, reply: Reply)
    ensures Accepted(range, reply) <==>
      reply.status == 206 && reply.hasBody && !reply.broken && |Flatten(reply.chunks)| == range.end + 1 - range.start
  {
  }

  ghost predicate AllAccepted(ranges: seq<Range>, replies: seq<Reply>)
    requires |ranges| == |replies|
  {
    forall i :: 0 <= i < |ranges| ==> Accepted(ranges[i], replies[i])
  }

  function Bodies(replies: seq<Reply>): Bytes {
    if replies == [] then [] else Flatten(replies[0].chunks) + Bodies(replies[1..])
  }

  lemma {:induction false} BodiesAppend(replies: seq<Reply>, reply: Reply)
    ensures Bodies(replies + [reply]) == Bodies(replies) + Flatten(reply.chunks)
  {
    if replies == [] {
      assert replies + [reply] == [reply] && Bodies([reply]) == Flatten(reply.chunks) + Bodies([]);
    } else {
      BodiesAppend(replies[1..], reply);
      assert (replies + [reply])[1..] == replies[1..] + [reply];
    }
  }

  // ---- The part requests, interleaved ----

  /** How far one part request is: no reply yet, so many chunks written, or settled. */
  datatype Progress = Waiting | Open(written: nat) | Settled(ok: bool)

  /** One step of a part request, from one await to the next: the reply, one chunk, or the check of the length. Without
      the directory no file can be opened, an open one is unlinked, and its size cannot be read. */
  function Next(p: Progress, range: Range, reply: Reply, present: bool): Progress {
    match p
    case Waiting => if Answers(reply) && present then Open(0) else Settled(false)
    case Open(n) => if n < |reply.chunks| then Open(n + 1) else Settled(present && Accepted(range, reply))
    case Settled(_) => p
  }

  /** What the file of a part holds. */
  ghost predicate Holds(p: Progress, range: Range, reply: Reply, part: Option<Bytes>) {
    match p
    case Waiting => part == None
    case Open(n) => Answers(reply) && n <= |reply.chunks| && part == Some(Flatten(reply.chunks[..n]))
    case Settled(ok) =>
      if ok then Accepted(range, reply) && part == Some(Flatten(reply.chunks)) else !Accepted(range, reply)
  }

  /** The steps a request can still take. */
  function StepsLeft(p: Progress, reply: Reply): int {
    match p
    case Waiting => |reply.chunks| + 2
    case Open(n) => |reply.chunks| - n + 1
    case Settled(_) => 0
  }

  /** The schedule lets every request take the steps it needs to settle. */
  ghost predicate Enough(schedule: seq<nat>, replies: seq<Reply>) {
    forall i: nat :: i < |replies| ==> multiset(schedule)[i] >= |replies[i].chunks| + 2
  }

  /** After `taken` steps the request is settled or has that many fewer to take. */
  ghost predicate OnTime(p: Progress, reply: Reply, taken: nat) {
    p.Settled? || StepsLeft(p, reply) + taken == |reply.chunks| + 2
  }

  ghost predicate AllOnTime(progress: seq<Progress>, replies: seq<Reply>, taken: seq<nat>)
    requires |progress| == |replies|
  {
    forall i :: 0 <= i < |replies| ==> OnTime(progress[i], replies[i], multiset(taken)[i])
  }

  lemma {:induction false} OneStep(progress: seq<Progress>, replies: seq<Reply>, taken: seq<nat>, i: nat, range: Range)
    requires |progress| == |replies| && i < |replies| && AllOnTime(progress, replies, taken)
    ensures AllOnTime(progress[i := Next(progress[i], range, replies[i], true)], replies, taken + [i])
  {
    forall j | 0 <= j < |replies| && j != i ensures multiset(taken + [i])[j] == multiset(taken)[j] {}
    assert OnTime(progress[i], replies[i], multiset(taken)[i]);
  }

  lemma {:induction false} StepsAtStart(progress: seq<Progress>, replies: seq<Reply>)
    requires |progress| == |replies| && forall i :: 0 <= i < |progress| ==> progress[i] == Waiting
    ensures AllOnTime(progress, replies, [])
  {
  }

  lemma {:induction false} SettledInTime(schedule: seq<nat>, progress: seq<Progress>, replies: seq<Reply>)
    requires |progress| == |replies| && Enough(schedule, replies) && AllOnTime(progress, replies, schedule)
    requires forall i :: 0 <= i < |replies| && progress[i].Open? ==> progress[i].written <= |replies[i].chunks|
    ensures AllSettled(progress)
  {
    forall i | 0 <= i < |progress| ensures progress[i].Settled? {
      assert OnTime(progress[i], replies[i], multiset(schedule)[i]);
    }
  }

  predicate Indexed(ranges: seq<Range>) {
    forall i :: 0 <= i < |ranges| ==> ranges[i].index == i
  }

  predicate AllSettled(progress: seq<Progress>) {
    forall i :: 0 <= i < |progress| ==> progress[i].Settled?
  }

  predicate Schedules(schedule: seq<nat>, n: nat) {
    forall m :: 0 <= m < |schedule| ==> schedule[m] < n
  }

  datatype Outcome = Pending | Failed | Archive(bytes: Bytes)

  const STREAM_CHUNK := 64 * 1024

  /** The temporary directory with its part files by range index and the archive once it is created, and the part
      requests that write into it. */
  class TempDirectory {
    const ranges: seq<Range>
    const replies: seq<Reply>
    var progress: seq<Progress>
    var parts: map<nat, Bytes>
    var archive: Option<Bytes>
    var present: bool

    function Part(i: nat): Option<Bytes>
      reads `parts
    {
      if i in parts then Some(parts[i]) else None
    }

    ghost predicate Valid()
      reads this
    {
      && |ranges| == |replies| == |progress| && Indexed(ranges)
      && (if present
          then forall i :: 0 <= i < |progress| ==> Holds(progress[i], ranges[i], replies[i], Part(i))
          else parts == map[] && archive == None)
    }

    constructor (ranges: seq<Range>, replies: seq<Reply>)
      requires |ranges| == |replies| && Indexed(ranges)
      ensures Valid() && present && archive == None && this.ranges == ranges && this.replies == replies
      ensures forall i :: 0 <= i < |ranges| ==> progress[i] == Waiting
    {
      this.ranges, this.replies := ranges, replies;
      progress := seq(|ranges|, _ => Waiting);
      parts, archive, present := map[], None, true;
    }

    /** One step of request `i`. Every other request and its file stay as they are. */
    method Advance(i: nat)
      requires Valid() && i < |ranges|
      modifies `progress, `parts
      ensures Valid()
      ensures progress == old(progress)[i := Next(old(progress[i]), ranges[i], replies[i], present)]
      ensures parts - {i} == old(parts) - {i}
    {
      var reply := replies[i];
      match progress[i] {
        case Waiting =>
          if !Answers(reply) || !present || i in parts {
            progress := progress[i := Settled(false)];
          } else {
            parts := parts[i := []];
            progress := progress[i := Open(0)];
          }
        case Open(n) =>
          if n < |reply.chunks| {
            if present {
              FlattenAppend(reply.chunks[..n], reply.chunks[n]);
              assert reply.chunks[..n + 1] == reply.chunks[..n] + [reply.chunks[n]];
              parts := parts[i := parts[i] + reply.chunks[n]];
            }
            progress := progress[i := Open(n + 1)];
          } else {
            assert present ==> reply.chunks[..n] == reply.chunks;
            progress := progress[i := Settled(present && !reply.broken && |parts[i]| == ranges[i].Length())];
          }
        case Settled(_) =>
      }
    }

    lemma {:induction false} SettledHold()
      requires Valid() && present && AllSettled(progress) && forall i :: 0 <= i < |ranges| ==>
        progress[i] != Settled(false)
      ensures AllAccepted(ranges, replies) && forall i :: 0 <= i < |ranges| ==>
        Part(i) == Some(Flatten(replies[i].chunks))
    {
      forall i | 0 <= i < |ranges|
        ensures Accepted(ranges[i], replies[i]) && Part(i) == Some(Flatten(replies[i].chunks))
      {
        assert progress[i] == Settled(true);
      }
    }

    lemma {:induction false} FailedHolds(i: nat)
      requires Valid() && present && i < |ranges| && progress[i] == Settled(false)
      ensures !AllAccepted(ranges, replies)
    {
    }

    lemma {:induction false} OpenInside()
      requires Valid() && present
      ensures |ranges| == |replies| == |progress|
      ensures forall i :: 0 <= i < |replies| && progress[i].Open? ==> progress[i].written <= |replies[i].chunks|
    {
      forall i | 0 <= i < |replies| && progress[i].Open? ensures progress[i].written <= |replies[i].chunks| {
        assert Holds(progress[i], ranges[i], replies[i], Part(i));
      }
    }

    lemma {:induction false} Sizes()
      requires Valid()
      ensures |ranges| == |replies| == |progress| && Indexed(ranges)
    {
    }

    /** `Promise.all` over the part requests, which advance in any interleaving: it is fulfilled when all have
        succeeded, rejected as soon as one fails, and undecided when the schedule ends before. */
    method FetchParts(schedule: seq<nat>) returns (r: Option<bool>)
      requires Valid() && present && Schedules(schedule, |ranges|)
      requires forall i :: 0 <= i < |ranges| ==> progress[i] == Waiting
      modifies `progress, `parts
      ensures Valid()
      ensures r == Some(true) ==> AllAccepted(ranges, replies) && forall i :: 0 <= i < |ranges| ==>
        Part(i) == Some(Flatten(replies[i].chunks))
      ensures r == Some(false) ==> !AllAccepted(ranges, replies)
      ensures r == None ==> !Enough(schedule, replies)
    {
      hide Valid, Holds, Next, AllOnTime, Enough, AllSettled, AllAccepted;
      Sizes();
      StepsAtStart(progress, replies);
      assert schedule[..0] == [];
      for m := 0 to |schedule|
        invariant Valid() && |progress| == |ranges| == |replies|
        invariant forall i :: 0 <= i < |ranges| ==> progress[i] != Settled(false)
        invariant AllOnTime(progress, replies, schedule[..m])
      {
        if AllSettled(progress) {
          SettledHold();
          return Some(true);
        }
        var i := schedule[m];
        OneStep(progress, replies, schedule[..m], i, ranges[i]);
        assert schedule[..m + 1] == schedule[..m] + [i];
        Advance(i);
        if progress[i] == Settled(false) {
          FailedHolds(i);
          return Some(false);
        }
      }
      assert schedule[..|schedule|] == schedule;
      if AllSettled(progress) {
        SettledHold();
        return Some(true);
      }
      if Enough(schedule, replies) {
        OpenInside();
        SettledInTime(schedule, progress, replies);
      }
      return None;
    }

    /** Requests still in flight go on. Once the directory is removed none of them brings anything back. */
    method Drain(steps: seq<nat>)
      requires Valid() && Schedules(steps, |ranges|)
      modifies `progress, `parts
      ensures Valid() && (!present ==> parts == map[] && archive == None)
    {
      for m := 0 to |steps|
        invariant Valid()
      {
        Advance(steps[m]);
      }
    }

    method Remove()
      requires |ranges| == |replies| == |progress| && Indexed(ranges)
      modifies this
      ensures Valid() && !present && parts == map[] && archive == None && progress == old(progress)
    {
      parts, archive, present := map[], None, false;
    }

    /** `appendBinary`: copy a part to the end of the archive, one stream chunk at a time. */
    method AppendBinary(part: Bytes)
      requires archive.Some?
      modifies `archive
      ensures archive == Some(old(archive).value + part)
    {
      ghost var before := archive.value;
      assert before + part[..0] == before;
      var offset := 0;
      while offset < |part|
        invariant 0 <= offset <= |part|
        invariant archive == Some(before + part[..offset])
      {
        var next := Min(offset + STREAM_CHUNK, |part|);
        archive := Some(archive.value + part[offset..next]);
        assert before + part[..next] == before + part[..offset] + part[offset..next];
        offset := next;
      }
      assert part[..|part|] == part;
    }

    /** The loop over the parts in index order. */
    method Assemble()
      requires |ranges| == |replies|
      requires forall i :: 0 <= i < |ranges| ==> Part(i) == Some(Flatten(replies[i].chunks))
      modifies `archive
      ensures archive == Some(Bodies(replies))
    {
      archive := Some([]);
      for i := 0 to |ranges|
        invariant archive == Some(Bodies(replies[..i]))
      {
        BodiesAppend(replies[..i], replies[i]);
        assert replies[..i + 1] == replies[..i] + [replies[i]];
        assert Part(i).Some?;
        AppendBinary(parts[i]);
      }
      assert replies[..|ranges|] == replies;
    }

    /** The parts and the assembly of `downloadArtifact`; `digest` is the hash of a file. `meanwhile` is what requests
        in flight do between a rejection and the removal of the directory. */
    method Download<D(==)>(schedule: seq<nat>, meanwhile: seq<nat>, digest: Bytes -> D, expected: D)
      returns (r: Outcome)
      requires Valid() && present && Schedules(schedule, |ranges|) && Schedules(meanwhile, |ranges|)
      requires forall i :: 0 <= i < |ranges| ==> progress[i] == Waiting
      modifies this
      ensures r.Archive? ==>
        && AllAccepted(ranges, replies) && r.bytes == Bodies(replies) && digest(r.bytes) == expected
        && archive == Some(r.bytes) && parts == map[]
      ensures r.Failed? ==>
        !(AllAccepted(ranges, replies) && digest(Bodies(replies)) == expected) && Valid() && !present
      ensures r.Pending? ==> !Enough(schedule, replies)
    {
      hide Valid, Holds, Enough, AllAccepted;
      assert |ranges| == |replies| by { Sizes(); }
      var fetched := FetchParts(schedule);
      Sizes();
      if fetched == None {
        return Pending;
      }
      if !fetched.value {
        Drain(meanwhile);
        Sizes();
      } else {
        Assemble();
        if digest(archive.value) == expected {
          parts := map[];
          return Archive(archive.value);
        }
      }
      Remove();
      return Failed;
    }
  }

  /** The server answered every range with the bytes asked for. */
  ghost predicate ServesRanges(archive: Bytes, ranges: seq<Range>, replies: seq<Reply>)
    requires |ranges| == |replies|
  {
    forall i :: 0 <= i < |ranges| ==>
      && replies[i].status == 206 && replies[i].hasBody && !replies[i].broken
      && ranges[i].start <= ranges[i].end < |archive|
      && Flatten(replies[i].chunks) == archive[ranges[i].start..ranges[i].end + 1]
  }

  /** Main result: then the parts joined in index order, which `Download` yields for every interleaving, are
      the archive byte for byte. */
  lemma {:induction false} Reassembles(archive: Bytes, ranges: seq<Range>, replies: seq<Reply>, from: nat, index: nat)
    requires |ranges| == |replies| && from <= |archive|
    requires Tiles(ranges, from, |archive|, index) && ServesRanges(archive, ranges, replies)
    ensures AllAccepted(ranges, replies) && Bodies(replies) == archive[from..]
    ensures forall i :: 0 <= i < |ranges| ==> ranges[i].index == index + i
    decreases |ranges|
  {
    if ranges != [] {
      var next := ranges[0].end + 1;
      forall i | 0 <= i < |ranges[1..]| ensures
        replies[1..][i] == replies[i + 1] && ranges[1..][i] == ranges[i + 1] {}
      Reassembles(archive, ranges[1..], replies[1..], next, index + 1);
      assert archive[from..] == archive[from..next] + archive[next..];
      forall i | 0 <= i < |ranges| ensures Accepted(ranges[i], replies[i]) && ranges[i].index == index + i {
        if i > 0 { assert ranges[i] == ranges[1..][i - 1] && replies[i] == replies[1..][i - 1]; }
      }
    }
  }

  /** End to end: ranges, requests in any interleaving that lets them settle, assembly. */
  method DownloadServed<D(==)>(archive: Bytes, count: nat, replies: seq<Reply>, schedule: seq<nat>, digest: Bytes -> D)
    returns (r: Outcome)
    requires |archive| > 0 && count > 0 && CeilDiv(|archive|, count) > 0
    requires var ranges := RangesFrom(|archive|, count, CeilDiv(|archive|, count), 0);
      |ranges| == |replies| && Schedules(schedule, |ranges|) && ServesRanges(archive, ranges, replies)
    requires Enough(schedule, replies)
    ensures r == Archive(archive)
  {
    var ranges := BuildRanges(|archive|, count);
    RangesPartition(|archive|, count);
    Reassembles(archive, ranges, replies, 0, 0);
    var dir := new TempDirectory(ranges, replies);
    r := dir.Download(schedule, [], digest, digest(archive));
  }
}
