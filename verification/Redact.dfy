/** `redactBounded` of lib/contract.mjs as the source runs it, and as a function. */
module Redact {
  import opened Options
  import opened Text
  import opened Utf8
  import opened Utf16
  import opened JsonValue

  // ---- Keys ----

  const SECRET_NAMES: set<Str> := {
    Lit("apikey"), Lit("api_key"), Lit("api-key"), Lit("authorization"), Lit("cookie"), Lit("credential"),
    Lit("password"), Lit("privatekey"), Lit("private_key"), Lit("private-key"), Lit("secret"), Lit("token")
  }

  /** `SECRET_KEY.test(key)` */
  predicate IsSecret(key: Str) {
    LowerAscii(key) in SECRET_NAMES
  }

  predicate KeyUnit(u: CodeUnit) {
    IsLetter(u) || IsDigit(u) || u == 0x5F || u == DOT || u == 0x2D
  }

  /** `^[A-Za-z][A-Za-z0-9_.-]{0,63}$` */
  predicate IsKey(key: Str) {
    1 <= |key| <= 64 && IsLetter(key[0]) && forall u :: u in key ==> KeyUnit(u)
  }

  // ---- Strings ----

  const REDACTED: Str := Lit("[REDACTED]")

  datatype Scrubbed = Scrubbed(text: Str, count: nat)

  /** `scrub` applies the four secret-value patterns and counts their matches. */
  datatype Limits = Limits(maxDepth: nat, maxKeys: nat, maxStringBytes: nat, scalarOnly: bool, scrub: Str -> Scrubbed)

  /** The string cut to its first `limit` bytes and decoded again. */
  function Truncate(s: Str, limit: nat): Str {
    var bytes := ToBytes(s);
    if |bytes| > limit then
      DecodeScalars(bytes[..limit]);
      Units(Decode(bytes[..limit]))
    else s
  }

  function Clean(o: Limits, s: Str): Str {
    Truncate(o.scrub(s).text, o.maxStringBytes)
  }

  // ---- The decoder yields code points ----

  /** Whatever the continuation bytes are, the character read is a code point. */
  predicate Scalar1(point: nat, lo: int, hi: int) {
    point * 64 + (lo - 0x80) >= 0 && point * 64 + (hi - 0x80) < 0x11_0000
    && (point * 64 + (hi - 0x80) < 0xD800 || point * 64 + (lo - 0x80) >= 0xE000)
  }

  predicate Sound(need: nat, point: nat, lo: int, hi: int) {
    0x80 <= lo <= hi <= 0xBF &&
    if need == 1 then Scalar1(point, lo, hi)
    else if need == 2 then
      point * 64 + (hi - 0x80) < 0x4400 && (point * 64 + (hi - 0x80) < 0x360 || point * 64 + (lo - 0x80) >= 0x380)
    else need == 3 && point * 64 + (lo - 0x80) >= 0x10 && point * 64 + (hi - 0x80) < 0x110
  }

  lemma {:induction false} DecodeScalars(bs: Bytes)
    ensures AllScalars(Decode(bs))
    decreases |bs|, 0
  {
    if bs != [] {
      var b := bs[0];
      if b < 0x80 {
        DecodeScalars(bs[1..]);
      } else if 0xC2 <= b <= 0xDF {
        ContinueScalars(bs[1..], 1, b - 0xC0, 0x80, 0xBF);
      } else if 0xE0 <= b <= 0xEF {
        ContinueScalars(bs[1..], 2, b - 0xE0, if b == 0xE0 then 0xA0 else 0x80, if b == 0xED then 0x9F else 0xBF);
      } else if 0xF0 <= b <= 0xF4 {
        ContinueScalars(bs[1..], 3, b - 0xF0, if b == 0xF0 then 0x90 else 0x80, if b == 0xF4 then 0x8F else 0xBF);
      } else {
        DecodeScalars(bs[1..]);
      }
    }
  }

  lemma {:induction false} ContinueScalars(bs: Bytes, need: nat, point: nat, lo: int, hi: int)
    requires need > 0 && Sound(need, point, lo, hi)
    ensures AllScalars(Continue(bs, need, point, lo, hi))
    decreases |bs|, 1
  {
    if bs != [] {
      if !(lo <= bs[0] <= hi) {
        DecodeScalars(bs);
      } else {
        var next := point * 64 + (bs[0] - 0x80);
        if need == 1 {
          DecodeScalars(bs[1..]);
        } else {
          ContinueScalars(bs[1..], need - 1, next, 0x80, 0xBF);
        }
      }
    }
  }

  // ---- visit, as a function ----

  datatype Failure = NotScalar | TooDeep | ArrayTooLong | TooManyKeys | InvalidKey

  datatype Counts = Counts(redacted: nat, visited: nat)

  datatype Visited<T> = Visited(out: T, counts: Counts)

  function Visit(o: Limits, input: Json, depth: nat, key: Str, c: Counts): Result<Visited<Json>, Failure>
    decreases input
  {
    if IsSecret(key) then Ok(Visited(String(REDACTED), c.(redacted := c.redacted + 1)))
    else match input
      case Null => Ok(Visited(input, c))
      case Bool(_) => Ok(Visited(input, c))
      case Num(_) => Ok(Visited(input, c))
      case String(s) => Ok(Visited(String(Clean(o, s)), c.(redacted := c.redacted + o.scrub(s).count)))
      case Arr(xs) =>
        if o.scalarOnly then Err(NotScalar)
        else if depth >= o.maxDepth then Err(TooDeep)
        else if |xs| > o.maxKeys then Err(ArrayTooLong)
        else
          var r := VisitItems(o, xs, depth + 1, c);
          if r.Err? then Err(r.error) else Ok(Visited(Arr(r.value.out), r.value.counts))
      case Obj(ms) =>
        if o.scalarOnly then Err(NotScalar)
        else if depth >= o.maxDepth then Err(TooDeep)
        else
          var r := VisitMembers(o, ms, depth + 1, c);
          if r.Err? then Err(r.error) else Ok(Visited(Obj(r.value.out), r.value.counts))
  }

  function VisitItems(o: Limits, xs: seq<Json>, depth: nat, c: Counts): Result<Visited<seq<Json>>, Failure>
    decreases xs
  {
    if xs == [] then Ok(Visited([], c))
    else
      var first := Visit(o, xs[0], depth, [], c);
      if first.Err? then Err(first.error)
      else
        var rest := VisitItems(o, xs[1..], depth, first.value.counts);
        if rest.Err? then rest else Ok(Visited([first.value.out] + rest.value.out, rest.value.counts))
  }

  function VisitMembers(o: Limits, ms: seq<Member>, depth: nat, c: Counts): Result<Visited<seq<Member>>, Failure>
    decreases ms
  {
    if ms == [] then Ok(Visited([], c))
    else if c.visited + 1 > o.maxKeys then Err(TooManyKeys)
    else if !IsKey(ms[0].key) then Err(InvalidKey)
    else
      var first := Visit(o, ms[0].value, depth, ms[0].key, c.(visited := c.visited + 1));
      if first.Err? then Err(first.error)
      else
        var rest := VisitMembers(o, ms[1..], depth, first.value.counts);
        if rest.Err? then rest
        else Ok(Visited([Member(ms[0].key, first.value.out)] + rest.value.out, rest.value.counts))
  }

  // ---- visit, as the source runs it ----

  class Redactor {
    var redactedFields: nat
    var visitedKeys: nat

    constructor ()
      ensures redactedFields == 0 && visitedKeys == 0
    {
      redactedFields, visitedKeys := 0, 0;
    }

    function Counted(): Counts
      reads this
    {
      Counts(redactedFields, visitedKeys)
    }

    /** `visit` */
    method VisitValue(o: Limits, input: Json, depth: nat, key: Str) returns (r: Result<Json, Failure>)
      modifies this
      ensures var v := Visit(o, input, depth, key, old(Counted()));
        if v.Ok? then r == Ok(v.value.out) && Counted() == v.value.counts else r == Err(v.error)
      decreases input, 1
    {
      if IsSecret(key) {
        redactedFields := redactedFields + 1;
        return Ok(String(REDACTED));
      }
      match input {
        case String(s) =>
          var scrubbed := o.scrub(s);
          redactedFields := redactedFields + scrubbed.count;
          return Ok(String(Truncate(scrubbed.text, o.maxStringBytes)));
        case Arr(xs) =>
          if o.scalarOnly {
            return Err(NotScalar);
          }
          if depth >= o.maxDepth {
            return Err(TooDeep);
          }
          if |xs| > o.maxKeys {
            return Err(ArrayTooLong);
          }
          r := VisitArray(o, input, depth);
        case Obj(_) =>
          if o.scalarOnly {
            return Err(NotScalar);
          }
          if depth >= o.maxDepth {
            return Err(TooDeep);
          }
          r := VisitObject(o, input, depth);
        case _ =>
          return Ok(input);
      }
    }

    /** `input.map((entry) => visit(entry, depth + 1))` */
    method VisitArray(o: Limits, input: Json, depth: nat) returns (r: Result<Json, Failure>)
      requires input.Arr?
      modifies this
      ensures var v := VisitItems(o, input.items, depth + 1, old(Counted()));
        if v.Ok? then r == Ok(Arr(v.value.out)) && Counted() == v.value.counts else r == Err(v.error)
      decreases input, 0
    {
      var xs := input.items;
      var output: seq<Json> := [];
      var i := 0;
      ghost var all := VisitItems(o, xs, depth + 1, Counted());
      assert xs[0..] == xs;
      assert all.Ok? ==> [] + all.value.out == all.value.out;
      while i < |xs|
        invariant 0 <= i <= |xs|
        invariant all == var rest := VisitItems(o, xs[i..], depth + 1, Counted());
          if rest.Err? then rest else Ok(Visited(output + rest.value.out, rest.value.counts))
      {
        assert xs[i..][0] == xs[i] && xs[i..][1..] == xs[i + 1..] && xs[i] in input.items;
        var entry := VisitValue(o, xs[i], depth + 1, []);
        if entry.Err? {
          return Err(entry.error);
        }
        ghost var rest := VisitItems(o, xs[i + 1..], depth + 1, Counted());
        assert rest.Ok? ==> output + ([entry.value] + rest.value.out) == output + [entry.value] + rest.value.out;
        output := output + [entry.value];
        i := i + 1;
      }
      assert output + [] == output;
      return Ok(Arr(output));
    }

    /** The loop over `Object.entries(input)`. */
    method VisitObject(o: Limits, input: Json, depth: nat) returns (r: Result<Json, Failure>)
      requires input.Obj?
      modifies this
      ensures var v := VisitMembers(o, input.members, depth + 1, old(Counted()));
        if v.Ok? then r == Ok(Obj(v.value.out)) && Counted() == v.value.counts else r == Err(v.error)
      decreases input, 0
    {
      var ms := input.members;
      var output: seq<Member> := [];
      var i := 0;
      ghost var all := VisitMembers(o, ms, depth + 1, Counted());
      assert ms[0..] == ms;
      assert all.Ok? ==> [] + all.value.out == all.value.out;
      while i < |ms|
        invariant 0 <= i <= |ms|
        invariant all == var rest := VisitMembers(o, ms[i..], depth + 1, Counted());
          if rest.Err? then rest else Ok(Visited(output + rest.value.out, rest.value.counts))
      {
        assert ms[i..][0] == ms[i] && ms[i..][1..] == ms[i + 1..] && ms[i] in input.members;
        visitedKeys := visitedKeys + 1;
        if visitedKeys > o.maxKeys {
          return Err(TooManyKeys);
        }
        if !IsKey(ms[i].key) {
          return Err(InvalidKey);
        }
        var child := VisitValue(o, ms[i].value, depth + 1, ms[i].key);
        if child.Err? {
          return Err(child.error);
        }
        ghost var rest := VisitMembers(o, ms[i + 1..], depth + 1, Counted());
        ghost var m := Member(ms[i].key, child.value);
        assert rest.Ok? ==> output + ([m] + rest.value.out) == output + [m] + rest.value.out;
        output := output + [Member(ms[i].key, child.value)];
        i := i + 1;
      }
      assert output + [] == output;
      return Ok(Obj(output));
    }
  }

  /** `redactBounded` */
  method RedactBounded(o: Limits, value: Json) returns (r: Result<(Json, nat), Failure>)
    ensures var v := Visit(o, value, 0, [], Counts(0, 0));
      if v.Ok? then r == Ok((v.value.out, v.value.counts.redacted)) else r == Err(v.error)
  {
    var redactor := new Redactor();
    var visited := redactor.VisitValue(o, value, 0, []);
    if visited.Err? {
      return Err(visited.error);
    }
    return Ok((visited.value, redactor.redactedFields));
  }
}
