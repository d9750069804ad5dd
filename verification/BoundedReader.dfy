/** `readBoundedJson` of ci-admission/index.mjs: a bounded stream reader that may be aborted at any await. */
module BoundedReader {
  import opened Chunks
  import opened Options
  import opened Utf8

  const MAX_RESPONSE_BYTES := 32 * 1024

  /** What one `readChunk` settles with. An abort that was signalled before the call sends no read. */
  datatype Event = Chunk(bytes: Bytes) | Done | ReadError | Aborted(beforeRead: bool)

  datatype Outcome<+J> = Parsed(json: J) | TooLarge | InvalidJson | ReadFailed | TimedOut

  /** `boundedJson`; `parse` is `JSON.parse`. */
  function BoundedJson<J>(text: seq<nat>, parse: seq<nat> -> Option<J>): Outcome<J> {
    if ByteLength(text) > MAX_RESPONSE_BYTES then TooLarge
    else if parse(text).None? then InvalidJson
    else Parsed(parse(text).value)
  }

  /** The reference: take the whole body at once. */
  function ReadWhole<J>(body: Bytes, parse: seq<nat> -> Option<J>): Outcome<J> {
    if |body| > MAX_RESPONSE_BYTES then TooLarge else BoundedJson(TextDecode(body), parse)
  }

  /** The reader's outcome after `seen` bytes. A stream that never settles is ended by the request timer. */
  function ReadFrom<J>(events: seq<Event>, seen: Bytes, parse: seq<nat> -> Option<J>): Outcome<J>
    decreases |events|
  {
    if events == [] then TimedOut
    else
      match events[0]
      case Chunk(b) => if |seen| + |b| > MAX_RESPONSE_BYTES then TooLarge else ReadFrom(events[1..], seen + b, parse)
      case Done => BoundedJson(TextDecode(seen), parse)
      case ReadError => ReadFailed
      case Aborted(_) => TimedOut
  }

  /** The reads issued after `seen` bytes, the one a silent stream never settles included. */
  function ReadsFrom(events: seq<Event>, seen: nat): nat {
    if events == [] then 1
    else
      match events[0]
      case Chunk(b) => 1 + if seen + |b| > MAX_RESPONSE_BYTES then 0 else ReadsFrom(events[1..], seen + |b|)
      case Aborted(beforeRead) => if beforeRead then 0 else 1
      case _ => 1
  }

  class Reader {
    var chunks: seq<Bytes>
    var size: nat
    var cancelled: bool
    var readCount: nat   // calls of reader.read()
    var cancels: nat     // calls of reader.cancel()
    var releases: nat    // calls of reader.releaseLock()

    constructor ()
      ensures chunks == [] && size == 0 && !cancelled && readCount == 0 && cancels == 0 && releases == 0
    {
      chunks, size, cancelled, readCount, cancels, releases := [], 0, false, 0, 0, 0;
    }

    method Cancel()
      modifies `cancelled, `cancels
      ensures cancelled && cancels == if old(cancelled) then old(cancels) else old(cancels) + 1
    {
      if !cancelled {
        cancelled := true;
        cancels := cancels + 1;
      }
    }

    /** One outcome for every stream and every abort. Each error cancels the stream once, success never does,
        and the lock is released once. No read follows the one that passed the limit. */
    method Read<J>(events: seq<Event>, parse: seq<nat> -> Option<J>) returns (r: Outcome<J>)
      requires chunks == [] && size == 0 && !cancelled && readCount == 0 && cancels == 0 && releases == 0
      modifies this
      ensures r == ReadFrom(events, [], parse)
      ensures cancels == (if r.Parsed? then 0 else 1) && cancelled == !r.Parsed? && releases == 1
      ensures readCount == ReadsFrom(events, 0)
      ensures readCount <= |events| + 1
      ensures readCount >= 1 ==>
        AllChunks(events[..readCount - 1]) && |Bodies(events[..readCount - 1])| <= 32_768
    {
      hide BoundedJson, TextDecode, Bodies, AllChunks;
      ReadsBound(events, 0);
      r := TimedOut;
      var i := 0;
      var open := true;
      while open
        invariant 0 <= i <= |events|
        invariant open ==> readCount == i && |Flatten(chunks)| == size <= MAX_RESPONSE_BYTES
        invariant open ==> r == TimedOut
        invariant open ==> ReadFrom(events, [], parse) == ReadFrom(events[i..], Flatten(chunks), parse)
        invariant !open ==> r == ReadFrom(events, [], parse)
        invariant open ==> ReadsFrom(events, 0) == i + ReadsFrom(events[i..], size)
        invariant !open ==> readCount == ReadsFrom(events, 0)
        invariant !cancelled && cancels == 0 && releases == 0
        decreases open, |events| - i
      {
        if i == |events| {
          readCount := readCount + 1;
          open := false;
        } else {
          var event := events[i];
          if event != Aborted(true) {
            readCount := readCount + 1;
          }
          match event {
            case Chunk(b) =>
              size := size + |b|;
              if size > MAX_RESPONSE_BYTES {
                r, open := TooLarge, false;
              } else {
                FlattenAppend(chunks, b);
                if |b| > 0 {
                  chunks := chunks + [b];
                } else {
                  assert b == [] && Flatten(chunks) + b == Flatten(chunks);
                }
              }
            case Done =>
              r, open := BoundedJson(TextDecode(Flatten(chunks)), parse), false;
            case ReadError =>
              r, open := ReadFailed, false;
            case Aborted(_) =>
              open := false;
          }
          i := i + 1;
        }
      }
      if !r.Parsed? {
        Cancel();
      }
      releases := releases + 1;
    }
  }

  predicate AllChunks(events: seq<Event>) {
    forall e :: e in events ==> e.Chunk?
  }

  /** The bytes delivered by a run of chunks. */
  function Bodies(events: seq<Event>): Bytes
    requires AllChunks(events)
  {
    if events == [] then [] else events[0].bytes + Bodies(events[1..])
  }

  /** Every read but the last delivered a chunk, and together they stayed within the limit. */
  lemma {:induction false} ReadsBound(events: seq<Event>, seen: nat)
    requires seen <= 32_768
    ensures var n := ReadsFrom(events, seen);
      n <= |events| + 1
        && (n >= 1 ==> AllChunks(events[..n - 1]) && seen + |Bodies(events[..n - 1])| <= 32_768)
  {
    var n := ReadsFrom(events, seen);
    if n >= 2 {
      var b, rest := events[0].bytes, events[1..];
      ReadsBound(rest, seen + |b|);
      assert events[..n - 1] == [events[0]] + rest[..n - 2];
      assert events[..n - 1][1..] == rest[..n - 2];
    }
  }

  /** Main result: a stream that is not cut short is read as its bytes alone, so chunk boundaries never show. */
  lemma {:induction false} ReaderRefinesWhole<J>(
    events: seq<Event>, seen: Bytes, later: seq<Event>, parse: seq<nat> -> Option<J>)
    requires AllChunks(events) && |seen| <= 32_768
    ensures ReadFrom(events + [Done] + later, seen, parse) == ReadWhole(seen + Bodies(events), parse)
  {
    var all := events + [Done] + later;
    if events == [] {
      assert all[0] == Done && seen + Bodies(events) == seen;
    } else {
      assert all[0] == events[0] && all[1..] == events[1..] + [Done] + later;
      var b := events[0].bytes;
      assert seen + Bodies(events) == seen + b + Bodies(events[1..]);
      if |seen| + |b| <= MAX_RESPONSE_BYTES {
        ReaderRefinesWhole(events[1..], seen + b, later, parse);
      }
    }
  }

  /** Wherever the abort comes, it is what the caller sees, unless the limit was passed first. */
  lemma {:induction false} AbortIsSeen<J>(
    events: seq<Event>, seen: Bytes, beforeRead: bool, later: seq<Event>, parse: seq<nat> -> Option<J>)
    requires AllChunks(events) && |seen| <= 32_768
    ensures ReadFrom(events + [Aborted(beforeRead)] + later, seen, parse) ==
      if |seen + Bodies(events)| > 32_768 then TooLarge else TimedOut
  {
    var all := events + [Aborted(beforeRead)] + later;
    if events == [] {
      assert all[0] == Aborted(beforeRead) && seen + Bodies(events) == seen;
    } else {
      assert all[0] == events[0] && all[1..] == events[1..] + [Aborted(beforeRead)] + later;
      var b := events[0].bytes;
      assert seen + Bodies(events) == seen + b + Bodies(events[1..]);
      if |seen| + |b| <= MAX_RESPONSE_BYTES {
        AbortIsSeen(events[1..], seen + b, beforeRead, later, parse);
      }
    }
  }

  /** On valid UTF-8 the second size check never fires: only the bytes decide. */
  lemma {:induction false} SecondCheckNeverFires<J>(text: seq<nat>, parse: seq<nat> -> Option<J>)
    requires AllScalars(text)
    ensures ReadWhole(Encode(text), parse).TooLarge? <==> |Encode(text)| > 32_768
  {
    DecodeRoundTrip(text);
  }

  lemma {:induction false} BadBytes(n: nat)
    ensures Decode(seq(n, _ => 0xFF)) == seq(n, _ => REPLACEMENT)
    ensures ByteLength(seq(n, _ => REPLACEMENT)) == 3 * n
  {
    if n > 0 {
      BadBytes(n - 1);
      assert seq<Byte>(n, _ => 0xFF)[1..] == seq<Byte>(n - 1, _ => 0xFF);
      assert seq<nat>(n, _ => REPLACEMENT)[1..] == seq<nat>(n - 1, _ => REPLACEMENT);
      assert seq<nat>(n, _ => REPLACEMENT) == [REPLACEMENT] + seq<nat>(n - 1, _ => REPLACEMENT);
    }
  }

  /** On invalid UTF-8 it does fire: a body within the limit decodes to a text three times its size. */
  lemma {:induction false} SecondCheckCanFire<J>(parse: seq<nat> -> Option<J>)
    ensures |seq<Byte>(32_768, _ => 0xFF)| <= 32_768
    ensures ReadWhole(seq(32_768, _ => 0xFF), parse).TooLarge?
  {
    BadBytes(MAX_RESPONSE_BYTES);
  }
}
