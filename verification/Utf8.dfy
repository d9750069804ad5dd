/** UTF-8 (section 3 of RFC 3629) and the replacing decoder that `TextDecoder` and `Buffer.toString` share. */
module Utf8 {

  type Byte = b: int | 0 <= b < 0x100
  type Bytes = seq<Byte>

  const REPLACEMENT: nat := 0xFFFD
  const BYTE_ORDER_MARK: nat := 0xFEFF

  predicate IsScalar(u: nat) {
    u < 0x11_0000 && !(0xD800 <= u < 0xE000)
  }

  predicate AllScalars(us: seq<nat>) {
    forall u :: u in us ==> IsScalar(u)
  }

  /** Bytes needed for one code point. */
  function Width(u: nat): nat {
    if u < 0x80 then 1 else if u < 0x800 then 2 else if u < 0x1_0000 then 3 else 4
  }

  /** `Buffer.byteLength` of a text. */
  function ByteLength(us: seq<nat>): nat {
    if us == [] then 0 else Width(us[0]) + ByteLength(us[1..])
  }

  function EncodeOne(u: nat): (bs: Bytes)
    requires IsScalar(u)
    ensures |bs| == Width(u)
  {
    if u < 0x80 then [u]
    else if u < 0x800 then [0xC0 + u / 64, 0x80 + u % 64]
    else if u < 0x1_0000 then [0xE0 + u / 4096, 0x80 + u / 64 % 64, 0x80 + u % 64]
    else [0xF0 + u / 262144, 0x80 + u / 4096 % 64, 0x80 + u / 64 % 64, 0x80 + u % 64]
  }

  function Encode(us: seq<nat>): (bs: Bytes)
    requires AllScalars(us)
    ensures |bs| == ByteLength(us)
  {
    if us == [] then [] else EncodeOne(us[0]) + Encode(us[1..])
  }

  /** Decodes from the start of a character. */
  function Decode(bs: Bytes): seq<nat>
    decreases |bs|, 0
  {
    if bs == [] then []
    else
      var b := bs[0];
      if b < 0x80 then [b] + Decode(bs[1..])
      else if 0xC2 <= b <= 0xDF then Continue(bs[1..], 1, b - 0xC0, 0x80, 0xBF)
      else if 0xE0 <= b <= 0xEF then
        Continue(bs[1..], 2, b - 0xE0, if b == 0xE0 then 0xA0 else 0x80, if b == 0xED then 0x9F else 0xBF)
      else if 0xF0 <= b <= 0xF4 then
        Continue(bs[1..], 3, b - 0xF0, if b == 0xF0 then 0x90 else 0x80, if b == 0xF4 then 0x8F else 0xBF)
      else [REPLACEMENT] + Decode(bs[1..])
  }

  /** Decodes inside a character that still needs `need` bytes, the next of them from `lo` to `hi`. A byte out
      of range ends the character and is read again; a missing byte ends the text. */
  function Continue(bs: Bytes, need: nat, point: nat, lo: int, hi: int): seq<nat>
    requires need > 0 && 0x80 <= lo && hi <= 0xBF
    decreases |bs|, 1
  {
    if bs == [] then [REPLACEMENT]
    else if !(lo <= bs[0] <= hi) then [REPLACEMENT] + Decode(bs)
    else
      var next := point * 64 + (bs[0] - 0x80);
      if need == 1 then [next] + Decode(bs[1..]) else Continue(bs[1..], need - 1, next, 0x80, 0xBF)
  }

  /** `new TextDecoder().decode`: also drops a leading byte order mark. */
  function TextDecode(bs: Bytes): seq<nat> {
    var us := Decode(bs);
    if us != [] && us[0] == BYTE_ORDER_MARK then us[1..] else us
  }

  /** One continuation byte carrying the six bits `d`. */
  lemma {:induction false} ContinueOne(d: nat, rest: Bytes, need: nat, point: nat, lo: int, hi: int)
    requires need > 0 && d < 64 && 0x80 <= lo <= 0x80 + d <= hi <= 0xBF
    ensures Continue([0x80 + d] + rest, need, point, lo, hi) ==
      if need == 1 then [point * 64 + d] + Decode(rest) else Continue(rest, need - 1, point * 64 + d, 0x80, 0xBF)
  {
    assert ([0x80 + d] + rest)[1..] == rest;
  }

  lemma {:induction false} SixBits(u: nat)
    ensures u == u / 64 * 64 + u % 64 && u / 64 == u / 4096 * 64 + u / 64 % 64
    ensures u / 4096 == u / 262144 * 64 + u / 4096 % 64
  {
  }

  lemma {:induction false} DecodeOne(u: nat, rest: Bytes)
    requires IsScalar(u)
    ensures Decode(EncodeOne(u) + rest) == [u] + Decode(rest)
  {
    hide Continue;
    SixBits(u);
    var bs := EncodeOne(u) + rest;
    var last := [0x80 + u % 64] + rest;
    var middle := [0x80 + u / 64 % 64] + last;
    if u < 0x80 {
      assert bs[1..] == rest;
    } else if u < 0x800 {
      assert bs[1..] == last;
      ContinueOne(u % 64, rest, 1, u / 64, 0x80, 0xBF);
    } else if u < 0x1_0000 {
      assert bs[1..] == middle;
      var b := u / 4096;
      ContinueOne(u / 64 % 64, last, 2, b, if b == 0 then 0xA0 else 0x80, if b == 0xD then 0x9F else 0xBF);
      ContinueOne(u % 64, rest, 1, u / 64, 0x80, 0xBF);
    } else {
      assert bs[1..] == [0x80 + u / 4096 % 64] + middle;
      var b := u / 262144;
      ContinueOne(u / 4096 % 64, middle, 3, b, if b == 0 then 0x90 else 0x80, if b == 4 then 0x8F else 0xBF);
      ContinueOne(u / 64 % 64, last, 2, u / 4096, 0x80, 0xBF);
      ContinueOne(u % 64, rest, 1, u / 64, 0x80, 0xBF);
    }
  }

  lemma {:induction false} DecodeEncoded(us: seq<nat>, rest: Bytes)
    requires AllScalars(us)
    ensures Decode(Encode(us) + rest) == us + Decode(rest)
  {
    hide Decode, EncodeOne, Width;
    if us == [] {
      assert Encode(us) + rest == rest;
    } else {
      DecodeEncoded(us[1..], rest);
      DecodeOne(us[0], Encode(us[1..]) + rest);
      assert Encode(us) + rest == EncodeOne(us[0]) + (Encode(us[1..]) + rest);
    }
  }

  /** Valid UTF-8 is decoded to the text it encodes. */
  lemma {:induction false} DecodeRoundTrip(us: seq<nat>)
    requires AllScalars(us)
    ensures Decode(Encode(us)) == us
  {
    DecodeEncoded(us, []);
    assert Encode(us) + [] == Encode(us);
  }
}
