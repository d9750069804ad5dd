/** What `redactBounded` of lib/contract.mjs guarantees, and exactly when it succeeds. */
module RedactBounds {
  import opened Text
  import opened Utf8
  import opened Utf16
  import opened JsonValue
  import opened Redact

  // ---- Keys, by their text ----

  const SECRET_WORDS: set<string> := {
    "apikey", "api_key", "api-key", "authorization", "cookie", "credential", "password", "privatekey", "private_key",
    "private-key", "secret", "token"}

  const PLACEHOLDER: Str := Lit("[REDACTED]")

  /** One of the twelve words, in any case. */
  predicate SecretKey(key: Str) {
    exists word :: word in SECRET_WORDS && AnyCase(key, word)
  }

  /** A letter, and at most 63 letters, digits, underscores, dots and hyphens. */
  predicate PlainKey(key: Str) {
    && 1 <= |key| <= 64 && (Between(key[0], 'A', 'Z') || Between(key[0], 'a', 'z'))
    && forall u :: u in key ==> Alphanumeric(u) || u == '_' as int || u == '.' as int || u == '-' as int
  }

  lemma {:induction false} WordsAreLower()
    ensures forall word, i :: word in SECRET_WORDS && 0 <= i < |word| ==> word[i] < '\U{80}' && !('A' <= word[i] <= 'Z')
  {
  }

  lemma {:induction false} WordsAreNames()
    ensures SECRET_NAMES == set word | word in SECRET_WORDS :: Lit(word)
  {
    hide Lit;
  }

  lemma {:induction false} SecretIff(key: Str)
    ensures IsSecret(key) <==> SecretKey(key)
  {
    hide LowerAscii, AnyCase, Lit, SECRET_WORDS, SECRET_NAMES;
    WordsAreLower();
    WordsAreNames();
    forall word | word in SECRET_WORDS ensures LowerAscii(key) == Lit(word) <==> AnyCase(key, word) {
      AnyCaseIff(key, word);
    }
  }

  lemma {:induction false} KeyIff(key: Str)
    ensures IsKey(key) <==> PlainKey(key)
  {
  }

  // ---- Exactly when it succeeds ----

  /** Members outside redacted values. */
  function Members(key: Str, v: Json): nat
    decreases v
  {
    if SecretKey(key) then 0
    else match v
      case Arr(xs) => MembersOfItems(xs)
      case Obj(ms) => MembersOf(ms)
      case _ => 0
  }

  function MembersOfItems(xs: seq<Json>): nat
    decreases xs
  {
    if xs == [] then 0 else Members([], xs[0]) + MembersOfItems(xs[1..])
  }

  function MembersOf(ms: seq<Member>): nat
    decreases ms
  {
    if ms == [] then 0 else 1 + Members(ms[0].key, ms[0].value) + MembersOf(ms[1..])
  }

  /** Outside redacted values: keys are valid, arrays short, containers allowed and nested at most `room` deep. */
  ghost predicate Fits(o: Limits, key: Str, v: Json, room: int)
    decreases v
  {
    SecretKey(key) || match v
      case Arr(xs) =>
        !o.scalarOnly && room > 0 && |xs| <= o.maxKeys && forall i :: 0 <= i < |xs| ==> Fits(o, [], xs[i], room - 1)
      case Obj(ms) => !o.scalarOnly && room > 0 && forall i :: 0 <= i < |ms| ==> FitsMember(o, ms[i], room - 1)
      case _ => true
  }

  ghost predicate FitsMember(o: Limits, m: Member, room: int)
    decreases m
  {
    PlainKey(m.key) && Fits(o, m.key, m.value, room)
  }

  /** The visit succeeds exactly when the value fits and its members do not run out of keys; then it counts them. */
  lemma {:induction false} VisitOkIff(o: Limits, v: Json, depth: nat, key: Str, c: Counts)
    ensures Visit(o, v, depth, key, c).Ok? <==>
      Fits(o, key, v, o.maxDepth - depth) && (Members(key, v) > 0 ==> c.visited + Members(key, v) <= o.maxKeys)
    ensures Visit(o, v, depth, key, c).Ok? ==>
      Visit(o, v, depth, key, c).value.counts.visited == c.visited + Members(key, v)
    decreases v
  {
    hide IsSecret, SecretKey, IsKey, PlainKey, Clean, VisitItems, VisitMembers, FitsMember, MembersOf, MembersOfItems;
    SecretIff(key);
    match v
    case Arr(xs) => VisitItemsOkIff(o, xs, depth + 1, c);
    case Obj(ms) => VisitMembersOkIff(o, ms, depth + 1, c);
    case _ =>
  }

  lemma {:induction false} VisitItemsOkIff(o: Limits, xs: seq<Json>, depth: nat, c: Counts)
    ensures VisitItems(o, xs, depth, c).Ok? <==>
      && (forall i :: 0 <= i < |xs| ==> Fits(o, [], xs[i], o.maxDepth - depth))
      && (MembersOfItems(xs) > 0 ==> c.visited + MembersOfItems(xs) <= o.maxKeys)
    ensures VisitItems(o, xs, depth, c).Ok? ==>
      VisitItems(o, xs, depth, c).value.counts.visited == c.visited + MembersOfItems(xs)
    decreases xs
  {
    hide Visit, Fits, Members;
    if xs != [] {
      VisitOkIff(o, xs[0], depth, [], c);
      var first := Visit(o, xs[0], depth, [], c);
      assert forall i :: 0 < i < |xs| ==> xs[i] == xs[1..][i - 1];
      if first.Ok? {
        VisitItemsOkIff(o, xs[1..], depth, first.value.counts);
      }
    }
  }

  lemma {:induction false} VisitMembersOkIff(o: Limits, ms: seq<Member>, depth: nat, c: Counts)
    ensures VisitMembers(o, ms, depth, c).Ok? <==>
      && (forall i :: 0 <= i < |ms| ==> FitsMember(o, ms[i], o.maxDepth - depth))
      && (MembersOf(ms) > 0 ==> c.visited + MembersOf(ms) <= o.maxKeys)
    ensures VisitMembers(o, ms, depth, c).Ok? ==>
      VisitMembers(o, ms, depth, c).value.counts.visited == c.visited + MembersOf(ms)
    decreases ms
  {
    hide Visit, Fits, Members, IsKey, PlainKey;
    if ms != [] {
      KeyIff(ms[0].key);
      var next := c.(visited := c.visited + 1);
      VisitOkIff(o, ms[0].value, depth, ms[0].key, next);
      var first := Visit(o, ms[0].value, depth, ms[0].key, next);
      assert forall i :: 0 < i < |ms| ==> ms[i] == ms[1..][i - 1];
      if first.Ok? {
        VisitMembersOkIff(o, ms[1..], depth, first.value.counts);
      }
    }
  }

  // ---- What comes out ----

  /** The output has the input's shape and keys; a value under a secret key is replaced, a string is cleaned and every
      other leaf is kept. */
  ghost predicate Redaction(o: Limits, key: Str, v: Json, out: Json)
    decreases v
  {
    if SecretKey(key) then out == String(PLACEHOLDER)
    else match v
      case String(s) => out == String(Clean(o, s))
      case Arr(xs) =>
        out.Arr? && |out.items| == |xs| && forall i :: 0 <= i < |xs| ==> Redaction(o, [], xs[i], out.items[i])
      case Obj(ms) =>
        out.Obj? && |out.members| == |ms| && forall i :: 0 <= i < |ms| ==> RedactionMember(o, ms[i], out.members[i])
      case _ => out == v
  }

  ghost predicate RedactionMember(o: Limits, m: Member, n: Member)
    decreases m
  {
    n.key == m.key && Redaction(o, m.key, m.value, n.value)
  }

  /** Replacements a value calls for: its secret members and the matches in its other strings. */
  function Replacements(o: Limits, key: Str, v: Json): nat
    decreases v
  {
    if SecretKey(key) then 1
    else match v
      case String(s) => o.scrub(s).count
      case Arr(xs) => ReplacementsOfItems(o, xs)
      case Obj(ms) => ReplacementsOf(o, ms)
      case _ => 0
  }

  function ReplacementsOfItems(o: Limits, xs: seq<Json>): nat
    decreases xs
  {
    if xs == [] then 0 else Replacements(o, [], xs[0]) + ReplacementsOfItems(o, xs[1..])
  }

  function ReplacementsOf(o: Limits, ms: seq<Member>): nat
    decreases ms
  {
    if ms == [] then 0 else Replacements(o, ms[0].key, ms[0].value) + ReplacementsOf(o, ms[1..])
  }

  lemma {:induction false} VisitIs(o: Limits, v: Json, depth: nat, key: Str, c: Counts)
    requires Visit(o, v, depth, key, c).Ok?
    ensures var r := Visit(o, v, depth, key, c).value;
      Redaction(o, key, v, r.out) && r.counts.redacted == c.redacted + Replacements(o, key, v)
    decreases v
  {
    hide IsSecret, SecretKey, IsKey, PlainKey, Clean, VisitItems, VisitMembers, RedactionMember, ReplacementsOf,
      ReplacementsOfItems;
    SecretIff(key);
    match v
    case Arr(xs) => if !SecretKey(key) { VisitItemsIs(o, xs, depth + 1, c); }
    case Obj(ms) => if !SecretKey(key) { VisitMembersIs(o, ms, depth + 1, c); }
    case _ =>
  }

  lemma {:induction false} VisitItemsIs(o: Limits, xs: seq<Json>, depth: nat, c: Counts)
    requires VisitItems(o, xs, depth, c).Ok?
    ensures var r := VisitItems(o, xs, depth, c).value;
      && |r.out| == |xs| && (forall i :: 0 <= i < |xs| ==> Redaction(o, [], xs[i], r.out[i]))
      && r.counts.redacted == c.redacted + ReplacementsOfItems(o, xs)
    decreases xs
  {
    hide Visit, Redaction, Replacements;
    if xs != [] {
      var first := Visit(o, xs[0], depth, [], c);
      VisitIs(o, xs[0], depth, [], c);
      VisitItemsIs(o, xs[1..], depth, first.value.counts);
      assert forall i :: 0 < i < |xs| ==> xs[i] == xs[1..][i - 1];
    }
  }

  lemma {:induction false} VisitMembersIs(o: Limits, ms: seq<Member>, depth: nat, c: Counts)
    requires VisitMembers(o, ms, depth, c).Ok?
    ensures var r := VisitMembers(o, ms, depth, c).value;
      && |r.out| == |ms| && (forall i :: 0 <= i < |ms| ==> RedactionMember(o, ms[i], r.out[i]))
      && r.counts.redacted == c.redacted + ReplacementsOf(o, ms)
    decreases ms
  {
    hide Visit, Redaction, Replacements, IsKey;
    if ms != [] {
      var next := c.(visited := c.visited + 1);
      var first := Visit(o, ms[0].value, depth, ms[0].key, next);
      VisitIs(o, ms[0].value, depth, ms[0].key, next);
      VisitMembersIs(o, ms[1..], depth, first.value.counts);
      assert forall i :: 0 < i < |ms| ==> ms[i] == ms[1..][i - 1];
    }
  }

  // ---- Bounds on the output alone ----

  /** Every value under a secret key is the placeholder. */
  ghost predicate NoSecret(key: Str, out: Json)
    decreases out
  {
    if SecretKey(key) then out == String(PLACEHOLDER)
    else match out
      case Arr(xs) => forall i :: 0 <= i < |xs| ==> NoSecret([], xs[i])
      case Obj(ms) => forall i :: 0 <= i < |ms| ==> NoSecretMember(ms[i])
      case _ => true
  }

  ghost predicate NoSecretMember(m: Member)
    decreases m
  {
    NoSecret(m.key, m.value)
  }

  function Nesting(v: Json): nat
    decreases v
  {
    match v
    case Arr(xs) => 1 + NestingOfItems(xs)
    case Obj(ms) => 1 + NestingOf(ms)
    case _ => 0
  }

  function NestingOfItems(xs: seq<Json>): nat
    decreases xs
  {
    if xs == [] then 0 else Larger(Nesting(xs[0]), NestingOfItems(xs[1..]))
  }

  function NestingOf(ms: seq<Member>): nat
    decreases ms
  {
    if ms == [] then 0 else Larger(Nesting(ms[0].value), NestingOf(ms[1..]))
  }

  function Larger(a: nat, b: nat): nat {
    if a > b then a else b
  }

  /** All members of a value, at every depth. */
  function AllMembers(v: Json): nat
    decreases v
  {
    match v
    case Arr(xs) => AllMembersOfItems(xs)
    case Obj(ms) => AllMembersOf(ms)
    case _ => 0
  }

  function AllMembersOfItems(xs: seq<Json>): nat
    decreases xs
  {
    if xs == [] then 0 else AllMembers(xs[0]) + AllMembersOfItems(xs[1..])
  }

  function AllMembersOf(ms: seq<Member>): nat
    decreases ms
  {
    if ms == [] then 0 else 1 + AllMembers(ms[0].value) + AllMembersOf(ms[1..])
  }

  /** No array is longer than `length`, and every string but a placeholder under a secret key takes at most `bytes`
      bytes. */
  ghost predicate Bounded(key: Str, out: Json, length: nat, bytes: nat)
    decreases out
  {
    match out
    case String(s) => (SecretKey(key) && s == PLACEHOLDER) || |ToBytes(s)| <= bytes
    case Arr(xs) => |xs| <= length && forall i :: 0 <= i < |xs| ==> Bounded([], xs[i], length, bytes)
    case Obj(ms) => forall i :: 0 <= i < |ms| ==> BoundedMember(ms[i], length, bytes)
    case _ => true
  }

  ghost predicate BoundedMember(m: Member, length: nat, bytes: nat)
    decreases m
  {
    Bounded(m.key, m.value, length, bytes)
  }

  // ---- Cutting UTF-8 ----

  /** A character cut short reads as one U+FFFD. */
  lemma {:induction false} CutCharacter(u: nat, n: nat)
    requires IsScalar(u) && 0 < n < Width(u)
    ensures Decode(EncodeOne(u)[..n]) == [REPLACEMENT]
  {
    hide Continue;
    var bs := EncodeOne(u)[..n];
    SixBits(u);
    if n == 1 {
      assert bs[1..] == [];
      assert forall need: nat, point: nat, lo: int, hi: int :: need > 0 && 0x80 <= lo && hi <= 0xBF ==>
        Continue([], need, point, lo, hi) == [REPLACEMENT] by { NothingLeft(); }
    } else if n == 2 {
      assert bs[1..] == [bs[1]];
      CutAfterTwo(u);
    } else {
      assert bs[1..] == [bs[1], bs[2]];
      CutAfterThree(u);
    }
  }

  lemma {:induction false} NothingLeft()
    ensures forall need: nat, point: nat, lo: int, hi: int :: need > 0 && 0x80 <= lo && hi <= 0xBF ==>
      Continue([], need, point, lo, hi) == [REPLACEMENT]
  {
  }

  lemma {:induction false} CutAfterTwo(u: nat)
    requires IsScalar(u) && 3 <= Width(u)
    ensures Decode(EncodeOne(u)[..2]) == [REPLACEMENT]
  {
    hide Continue;
    SixBits(u);
    var bs := EncodeOne(u)[..2];
    var need: nat := Width(u) - 1;
    var d := bs[1] - 0x80;
    var b := if need == 2 then u / 4096 else u / 262144;
    assert bs[1..] == [0x80 + d] + [];
    NothingLeft();
    if need == 2 {
      ContinueOne(d, [], need, b, if b == 0 then 0xA0 else 0x80, if b == 0xD then 0x9F else 0xBF);
    } else {
      ContinueOne(d, [], need, b, if b == 0 then 0x90 else 0x80, if b == 4 then 0x8F else 0xBF);
    }
  }

  lemma {:induction false} CutAfterThree(u: nat)
    requires IsScalar(u) && 4 <= Width(u)
    ensures Decode(EncodeOne(u)[..3]) == [REPLACEMENT]
  {
    hide Continue;
    SixBits(u);
    var bs := EncodeOne(u)[..3];
    var d, e := bs[1] - 0x80, bs[2] - 0x80;
    var b := u / 262144;
    assert bs[1..] == [0x80 + d] + [0x80 + e];
    assert [0x80 + e] == [0x80 + e] + [];
    NothingLeft();
    ContinueOne(d, [0x80 + e], 3, b, if b == 0 then 0x90 else 0x80, if b == 4 then 0x8F else 0xBF);
    ContinueOne(e, [], 2, b * 64 + d, 0x80, 0xBF);
  }

  /** Bytes of the leading characters that fit in `n` bytes. */
  function Whole(us: seq<nat>, n: nat): (w: nat)
    ensures w <= n
  {
    if us == [] || Width(us[0]) > n then 0 else Width(us[0]) + Whole(us[1..], n - Width(us[0]))
  }

  /** Cutting an encoded text at any byte keeps the characters that fit and turns a cut one into U+FFFD. */
  lemma {:induction false} CutText(us: seq<nat>, n: nat) returns (k: nat)
    requires AllScalars(us) && n < ByteLength(us)
    ensures k < |us| && ByteLength(us[..k]) == Whole(us, n)
    ensures Decode(Encode(us)[..n]) == us[..k] + (if Whole(us, n) == n then [] else [REPLACEMENT])
  {
    hide Decode, EncodeOne, Width;
    var w, rest := EncodeOne(us[0]), Encode(us[1..]);
    assert us[0] in us;
    WidthIsPositive(us[0]);
    if n == 0 {
      k := 0;
      assert Encode(us)[..n] == [] && Decode([]) == [] by { DecodeNothing(); }
    } else if n < |w| {
      k := 0;
      assert Encode(us)[..n] == w[..n];
      CutCharacter(us[0], n);
    } else {
      assert Encode(us)[..n] == w + rest[..n - |w|];
      k := CutText(us[1..], n - |w|);
      DecodeOne(us[0], rest[..n - |w|]);
      assert us[..k + 1] == [us[0]] + us[1..][..k];
      k := k + 1;
    }
  }

  lemma {:induction false} WidthIsPositive(u: nat)
    ensures 1 <= Width(u) <= 4
  {
  }

  lemma {:induction false} DecodeNothing()
    ensures Decode([]) == []
  {
  }

  lemma {:induction false} ByteLengthConcat(us: seq<nat>, vs: seq<nat>)
    ensures ByteLength(us + vs) == ByteLength(us) + ByteLength(vs)
  {
    hide Width;
    if us == [] {
      assert us + vs == vs;
    } else {
      assert (us + vs)[1..] == us[1..] + vs;
      ByteLengthConcat(us[1..], vs);
    }
  }

  /** A short string is kept. A longer one keeps the characters that fit, and if those do not fill the limit the cut
      character adds the three bytes of U+FFFD: at most two bytes more than the limit in all. */
  lemma {:induction false} TruncateBound(s: Str, limit: nat)
    ensures |ToBytes(s)| <= limit ==> Truncate(s, limit) == s
    ensures |ToBytes(s)| > limit ==>
      && Scalars(Truncate(s, limit)) == Decode(ToBytes(s)[..limit])
      && |ToBytes(Truncate(s, limit))| ==
        Whole(Scalars(s), limit) + (if Whole(Scalars(s), limit) == limit then 0 else 3)
    ensures |ToBytes(Truncate(s, limit))| <= limit + 2
  {
    hide Decode, Encode, Scalars, Units, ByteLength, Whole;
    if |ToBytes(s)| > limit {
      var us := Scalars(s);
      var k := CutText(us, limit);
      var cut := Decode(Encode(us)[..limit]);
      DecodeScalars(Encode(us)[..limit]);
      ScalarsOfUnits(cut);
      ByteLengthConcat(us[..k], [REPLACEMENT]);
      assert ByteLength([REPLACEMENT]) == 3 by { ReplacementWidth(); }
      assert us[..k] + [] == us[..k];
    }
  }

  /** The exact condition: a truncated string exceeds the limit if and only if it was cut, and the characters that fit
      leave one or two bytes of the limit unused. */
  lemma {:induction false} TruncateExceedsIff(s: Str, limit: nat)
    ensures |ToBytes(Truncate(s, limit))| > limit <==>
      |ToBytes(s)| > limit && 0 < limit - Whole(Scalars(s), limit) < 3
  {
    hide Truncate, Whole, Decode;
    TruncateBound(s, limit);
  }

  /** The two extra bytes are reached: two thirds of a three-byte character are cut off. */
  lemma {:induction false} TruncateBoundIsReached()
    ensures var s: Str := [0x20AC]; |ToBytes(Truncate(s, 1))| == 1 + 2
  {
    var s: Str := [0x20AC];
    assert s[1..] == [] && Scalars(s) == [0x20AC];
    var us: seq<nat> := [0x20AC];
    assert us[1..] == [] && ByteLength(us) == 3 && Whole(us, 1) == 0;
    hide Truncate, Decode;
    TruncateBound(s, 1);
  }

  lemma {:induction false} ReplacementWidth()
    ensures ByteLength([REPLACEMENT]) == 3
  {
    var r := [REPLACEMENT];
    assert r[1..] == [];
  }

  // ---- All bounds at once ----

  lemma {:induction false} OutputBounds(o: Limits, key: Str, v: Json, out: Json, room: int)
    requires Redaction(o, key, v, out) && Fits(o, key, v, room) && room >= 0
    ensures NoSecret(key, out) && Nesting(out) <= room
    ensures AllMembers(out) == Members(key, v)
    ensures Bounded(key, out, o.maxKeys, o.maxStringBytes + 2)
    decreases v
  {
    hide SecretKey, IsKey, PlainKey, Truncate, ToBytes, PLACEHOLDER;
    if !SecretKey(key) {
      match v
      case String(s) => TruncateBound(o.scrub(s).text, o.maxStringBytes);
      case Arr(xs) => ItemsBounds(o, xs, out.items, room - 1);
      case Obj(ms) => MembersBounds(o, ms, out.members, room - 1);
      case _ =>
    }
  }

  lemma {:induction false} ItemsBounds(o: Limits, xs: seq<Json>, ys: seq<Json>, room: int)
    requires |xs| == |ys| && room >= 0
    requires forall i :: 0 <= i < |xs| ==> Redaction(o, [], xs[i], ys[i]) && Fits(o, [], xs[i], room)
    ensures forall i :: 0 <= i < |ys| ==> NoSecret([], ys[i]) && Bounded([], ys[i], o.maxKeys, o.maxStringBytes + 2)
    ensures NestingOfItems(ys) <= room && AllMembersOfItems(ys) == MembersOfItems(xs)
    decreases xs
  {
    hide Redaction, Fits, NoSecret, Bounded, Nesting, AllMembers, Members;
    if xs != [] {
      OutputBounds(o, [], xs[0], ys[0], room);
      assert forall i :: 0 < i < |xs| ==> xs[i] == xs[1..][i - 1] && ys[i] == ys[1..][i - 1];
      ItemsBounds(o, xs[1..], ys[1..], room);
    }
  }

  lemma {:induction false} MembersBounds(o: Limits, ms: seq<Member>, ns: seq<Member>, room: int)
    requires |ms| == |ns| && room >= 0
    requires forall i :: 0 <= i < |ms| ==> RedactionMember(o, ms[i], ns[i]) && FitsMember(o, ms[i], room)
    ensures forall i :: 0 <= i < |ns| ==> NoSecretMember(ns[i]) && BoundedMember(ns[i], o.maxKeys, o.maxStringBytes + 2)
    ensures NestingOf(ns) <= room && AllMembersOf(ns) == MembersOf(ms)
    decreases ms
  {
    hide Redaction, Fits, NoSecret, Bounded, Nesting, AllMembers, Members, IsKey, PlainKey;
    if ms != [] {
      assert RedactionMember(o, ms[0], ns[0]) && FitsMember(o, ms[0], room);
      OutputBounds(o, ms[0].key, ms[0].value, ns[0].value, room);
      assert forall i :: 0 < i < |ms| ==> ms[i] == ms[1..][i - 1] && ns[i] == ns[1..][i - 1];
      MembersBounds(o, ms[1..], ns[1..], room);
    }
  }

  /** Main result: redaction succeeds exactly when the value fits its limits, and then keeps all of them at once. */
  lemma {:induction false} RedactionIsBounded(o: Limits, v: Json)
    ensures var r := Visit(o, v, 0, [], Counts(0, 0));
      && (r.Ok? <==> Fits(o, [], v, o.maxDepth) && Members([], v) <= o.maxKeys)
      && (r.Ok? ==>
            && Redaction(o, [], v, r.value.out) && NoSecret([], r.value.out)
            && AllMembers(r.value.out) <= o.maxKeys && Nesting(r.value.out) <= o.maxDepth
            && Bounded([], r.value.out, o.maxKeys, o.maxStringBytes + 2)
            && r.value.counts.redacted == Replacements(o, [], v))
  {
    hide Visit, Fits, Members, Redaction, NoSecret, Bounded;
    VisitOkIff(o, v, 0, [], Counts(0, 0));
    var r := Visit(o, v, 0, [], Counts(0, 0));
    if r.Ok? {
      VisitIs(o, v, 0, [], Counts(0, 0));
      OutputBounds(o, [], v, r.value.out, o.maxDepth);
    }
  }
}
