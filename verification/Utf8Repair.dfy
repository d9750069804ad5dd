/** What the replacing UTF-8 decoder does with bytes that no text encodes to: one U+FFFD for each longest beginning of a
    character (section 3.9 of the Unicode Standard), and one for each byte that begins none. */
module Utf8Repair {
  import opened Utf8

  /** The first bytes of some character, all of them included. */
  ghost predicate Begins(bs: Bytes) {
    exists u, n: nat :: IsScalar(u) && n <= Width(u) && bs == EncodeOne(u)[..n]
  }

  lemma {:induction false} BeginsWith(u: nat, n: nat)
    requires IsScalar(u) && n <= Width(u)
    ensures Begins(EncodeOne(u)[..n])
  {
  }

  // ---- A byte that begins no character ----

  /** A character with the given first byte. */
  function FirstWith(b: Byte): nat
    requires b < 0x80 || 0xC2 <= b <= 0xF4
  {
    if b < 0x80 then b
    else if b <= 0xDF then (b - 0xC0) * 64
    else if b == 0xE0 then 0x800
    else if b <= 0xEF then (b - 0xE0) * 4096
    else if b == 0xF0 then 0x1_0000
    else (b - 0xF0) * 262144
  }

  lemma {:induction false} FirstIs(b: Byte)
    requires b < 0x80 || 0xC2 <= b <= 0xF4
    ensures IsScalar(FirstWith(b)) && EncodeOne(FirstWith(b))[..1] == [b]
  {
    assert EncodeOne(FirstWith(b))[0] == b;
  }

  lemma {:induction false} StrayByte(b: Byte, rest: Bytes)
    requires !Begins([b])
    ensures Decode([b] + rest) == [0xFFFD] + Decode(rest)
  {
    if b < 0x80 || 0xC2 <= b <= 0xF4 {
      FirstIs(b);
      BeginsWith(FirstWith(b), 1);
      assert false;
    }
    assert ([b] + rest)[1..] == rest;
  }

  // ---- A character that is cut short ----

  /** The bytes that may follow the first byte of a character of more than one byte. */
  function Low(b: Byte): int {
    if b == 0xE0 then 0xA0 else if b == 0xF0 then 0x90 else 0x80
  }

  function High(b: Byte): int {
    if b == 0xED then 0x9F else if b == 0xF4 then 0x8F else 0xBF
  }

  lemma {:induction false} DivMod(q: nat, r: nat)
    requires r < 64
    ensures (q * 64 + r) / 64 == q && (q * 64 + r) % 64 == r
  {
  }

  lemma {:induction false} Two(a: nat, x: nat)
    requires 2 <= a < 32 && x < 64
    ensures EncodeOne(a * 64 + x) == [0xC0 + a, 0x80 + x] && Width(a * 64 + x) == 2
  {
    DivMod(a, x);
  }

  lemma {:induction false} Three(a: nat, x: nat, y: nat)
    requires a < 16 && x < 64 && y < 64 && 32 <= a * 64 + x && !(864 <= a * 64 + x < 896)
    ensures var u := (a * 64 + x) * 64 + y;
      IsScalar(u) && Width(u) == 3 && EncodeOne(u) == [0xE0 + a, 0x80 + x, 0x80 + y]
  {
    var u := (a * 64 + x) * 64 + y;
    DivMod(a * 64 + x, y);
    DivMod(a, x);
    assert u / 4096 == a by { assert u == a * 4096 + (x * 64 + y) && x * 64 + y < 4096; }
  }

  lemma {:induction false} Four(a: nat, x: nat, y: nat, z: nat)
    requires x < 64 && y < 64 && z < 64 && 16 <= a * 64 + x < 272
    ensures var u := ((a * 64 + x) * 64 + y) * 64 + z;
      IsScalar(u) && Width(u) == 4 && EncodeOne(u) == [0xF0 + a, 0x80 + x, 0x80 + y, 0x80 + z]
  {
    var u := ((a * 64 + x) * 64 + y) * 64 + z;
    DivMod((a * 64 + x) * 64 + y, z);
    DivMod(a * 64 + x, y);
    DivMod(a, x);
    assert u / 4096 == a * 64 + x by {
      assert u == (a * 64 + x) * 4096 + (y * 64 + z) && y * 64 + z < 4096;
    }
    assert u / 262144 == a by {
      assert u == a * 262144 + (x * 4096 + y * 64 + z) && x * 4096 + y * 64 + z < 262144;
    }
  }

  /** Any byte in range after the first one begins a character. */
  lemma {:induction false} SecondIs(b: Byte, c: Byte) returns (u: nat)
    requires 0xC2 <= b <= 0xF4 && Low(b) <= c <= High(b)
    ensures IsScalar(u) && Width(u) >= 2 && EncodeOne(u)[..2] == [b, c]
  {
    hide EncodeOne, Width, IsScalar;
    if b <= 0xDF {
      u := (b - 0xC0) * 64 + (c - 0x80);
      Two(b - 0xC0, c - 0x80);
      assert IsScalar(u) by { SmallIsScalar(u); }
    } else if b <= 0xEF {
      u := ((b - 0xE0) * 64 + (c - 0x80)) * 64 + 0;
      Three(b - 0xE0, c - 0x80, 0);
    } else {
      u := (((b - 0xF0) * 64 + (c - 0x80)) * 64 + 0) * 64 + 0;
      Four(b - 0xF0, c - 0x80, 0, 0);
    }
  }

  lemma {:induction false} SmallIsScalar(u: nat)
    ensures u < 0x800 ==> IsScalar(u)
  {
  }

  /** The bytes of a character of three or four bytes. */
  lemma {:induction false} BytesOf(u: nat) returns (a: nat, x: nat, y: nat, z: nat)
    requires IsScalar(u) && Width(u) >= 3
    ensures x < 64 && y < 64 && z < 64
    ensures Width(u) == 3 ==>
      && a < 16 && 32 <= a * 64 + x && !(864 <= a * 64 + x < 896)
      && EncodeOne(u) == [0xE0 + a, 0x80 + x, 0x80 + y]
    ensures Width(u) == 4 ==>
      16 <= a * 64 + x < 272 && EncodeOne(u) == [0xF0 + a, 0x80 + x, 0x80 + y, 0x80 + z]
  {
    SixBits(u);
    if Width(u) == 3 {
      a, x, y, z := u / 4096, u / 64 % 64, u % 64, 0;
    } else {
      a, x, y, z := u / 262144, u / 4096 % 64, u / 64 % 64, u % 64;
    }
  }

  /** Any continuation byte after the first two or three of a longer character begins a character. */
  lemma {:induction false} LaterIs(u: nat, n: nat, c: Byte) returns (v: nat)
    requires IsScalar(u) && 2 <= n < Width(u) && 0x80 <= c <= 0xBF
    ensures IsScalar(v) && n + 1 <= Width(v) && EncodeOne(v)[..n + 1] == EncodeOne(u)[..n] + [c]
  {
    hide EncodeOne, IsScalar;
    var a, x, y, z := BytesOf(u);
    var d := c - 0x80;
    if Width(u) == 3 {
      v := (a * 64 + x) * 64 + d;
      Three(a, x, d);
    } else if n == 2 {
      v := ((a * 64 + x) * 64 + d) * 64 + 0;
      Four(a, x, d, 0);
    } else {
      v := ((a * 64 + x) * 64 + y) * 64 + d;
      Four(a, x, y, d);
    }
  }

  /** The bytes `bs` cannot go on with the first byte of `rest`. */
  ghost predicate Stops(bs: Bytes, rest: Bytes) {
    rest == [] || !Begins(bs + [rest[0]])
  }

  lemma {:induction false} StopsAfterOne(u: nat, rest: Bytes)
    requires IsScalar(u) && Width(u) > 1 && Stops(EncodeOne(u)[..1], rest)
    ensures var b := EncodeOne(u)[0]; 0xC2 <= b <= 0xF4 && (rest == [] || !(Low(b) <= rest[0] <= High(b)))
  {
    var b := EncodeOne(u)[0];
    LeadRange(u);
    forall c: Byte | Low(b) <= c <= High(b) ensures Begins(EncodeOne(u)[..1] + [c]) {
      var v := SecondIs(b, c);
      BeginsWith(v, 2);
      assert EncodeOne(u)[..1] + [c] == [b, c];
    }
  }

  lemma {:induction false} LeadRange(u: nat)
    requires IsScalar(u) && Width(u) > 1
    ensures var b := EncodeOne(u)[0];
      0xC2 <= b <= 0xF4 && (Width(u) == 2 <==> b <= 0xDF) && (Width(u) == 3 <==> 0xE0 <= b <= 0xEF)
  {
  }

  lemma {:induction false} StopsLater(u: nat, n: nat, rest: Bytes)
    requires IsScalar(u) && 2 <= n < Width(u) && Stops(EncodeOne(u)[..n], rest)
    ensures rest == [] || !(0x80 <= rest[0] <= 0xBF)
  {
    forall c: Byte | 0x80 <= c <= 0xBF ensures Begins(EncodeOne(u)[..n] + [c]) {
      var v := LaterIs(u, n, c);
      BeginsWith(v, n + 1);
    }
  }

  lemma {:induction false} ContinueStops(rest: Bytes, need: nat, point: nat, lo: int, hi: int)
    requires need > 0 && 0x80 <= lo && hi <= 0xBF && (rest == [] || !(lo <= rest[0] <= hi))
    ensures Continue(rest, need, point, lo, hi) == [0xFFFD] + Decode(rest)
  {
  }

  /** A character cut short, before a byte that cannot be its next one, reads as one U+FFFD. */
  lemma {:induction false} CutShort(u: nat, n: nat, rest: Bytes)
    requires IsScalar(u) && 0 < n < Width(u) && Stops(EncodeOne(u)[..n], rest)
    ensures Decode(EncodeOne(u)[..n] + rest) == [0xFFFD] + Decode(rest)
  {
    var bs := EncodeOne(u)[..n] + rest;
    LeadRange(u);
    if n == 1 {
      StopsAfterOne(u, rest);
      assert bs == [EncodeOne(u)[0]] + rest && bs[1..] == rest;
      FirstStops(EncodeOne(u)[0], rest);
    } else {
      StopsLater(u, n, rest);
      LaterStops(u, n, rest);
    }
  }

  lemma {:induction false} FirstStops(b: Byte, rest: Bytes)
    requires 0xC2 <= b <= 0xF4 && (rest == [] || !(Low(b) <= rest[0] <= High(b)))
    ensures Decode([b] + rest) == [0xFFFD] + Decode(rest)
  {
    hide Continue;
    assert ([b] + rest)[1..] == rest;
    if b <= 0xDF {
      ContinueStops(rest, 1, b - 0xC0, Low(b), High(b));
    } else if b <= 0xEF {
      ContinueStops(rest, 2, b - 0xE0, Low(b), High(b));
    } else {
      ContinueStops(rest, 3, b - 0xF0, Low(b), High(b));
    }
  }

  lemma {:induction false} LaterStops(u: nat, n: nat, rest: Bytes)
    requires IsScalar(u) && 2 <= n < Width(u) && (rest == [] || !(0x80 <= rest[0] <= 0xBF))
    ensures Decode(EncodeOne(u)[..n] + rest) == [0xFFFD] + Decode(rest)
  {
    hide Continue, EncodeOne;
    var a, x, y, z := BytesOf(u);
    var bs := EncodeOne(u)[..n] + rest;
    if Width(u) == 3 {
      assert bs[1..] == [0x80 + x] + rest;
      ContinueOne(x, rest, 2, a, if a == 0 then 0xA0 else 0x80, if a == 0xD then 0x9F else 0xBF);
      ContinueStops(rest, 1, a * 64 + x, 0x80, 0xBF);
    } else {
      var lo, hi := if a == 0 then 0x90 else 0x80, if a == 4 then 0x8F else 0xBF;
      if n == 2 {
        assert bs[1..] == [0x80 + x] + rest;
        ContinueOne(x, rest, 3, a, lo, hi);
        ContinueStops(rest, 2, a * 64 + x, 0x80, 0xBF);
      } else {
        assert bs[1..] == [0x80 + x] + ([0x80 + y] + rest);
        ContinueOne(x, [0x80 + y] + rest, 3, a, lo, hi);
        ContinueOne(y, rest, 2, a * 64 + x, 0x80, 0xBF);
        ContinueStops(rest, 1, (a * 64 + x) * 64 + y, 0x80, 0xBF);
      }
    }
  }

  /** One leading byte order mark is dropped. */
  lemma {:induction false} MarkIsDropped(us: seq<nat>)
    requires AllScalars(us)
    ensures TextDecode([0xEF, 0xBB, 0xBF] + Encode(us)) == us
    ensures us == [] || us[0] != 0xFEFF ==> TextDecode(Encode(us)) == us
  {
    hide Continue;
    assert EncodeOne(0xFEFF) == [0xEF, 0xBB, 0xBF];
    DecodeOne(0xFEFF, Encode(us));
    DecodeRoundTrip(us);
  }
}
