/** `Buffer.from(text, "utf8")` and `buffer.toString("utf8")`: UTF-16 strings to UTF-8 bytes and back. */
module Utf16 {
  import opened Text
  import opened Utf8

  /** The code points of a string; a lone surrogate becomes U+FFFD. */
  function Scalars(s: Str): (us: seq<nat>)
    ensures AllScalars(us)
  {
    if s == [] then []
    else if |s| >= 2 && IsHigh(s[0]) && IsLow(s[1]) then
      [0x1_0000 + (s[0] - 0xD800) * 0x400 + (s[1] - 0xDC00)] + Scalars(s[2..])
    else [if IsHigh(s[0]) || IsLow(s[0]) then REPLACEMENT else s[0]] + Scalars(s[1..])
  }

  function UnitsOf(u: nat): (s: Str)
    requires IsScalar(u)
    ensures 1 <= |s| <= 2
  {
    if u < 0x1_0000 then [u] else [0xD800 + (u - 0x1_0000) / 0x400, 0xDC00 + (u - 0x1_0000) % 0x400]
  }

  /** The string holding given code points. */
  function Units(us: seq<nat>): Str
    requires AllScalars(us)
  {
    if us == [] then [] else UnitsOf(us[0]) + Units(us[1..])
  }

  /** Every surrogate belongs to a pair. */
  predicate WellFormed(s: Str) {
    s == [] ||
    if |s| >= 2 && IsHigh(s[0]) && IsLow(s[1]) then WellFormed(s[2..])
    else !IsHigh(s[0]) && !IsLow(s[0]) && WellFormed(s[1..])
  }

  function ToBytes(s: Str): Bytes {
    Encode(Scalars(s))
  }

  lemma {:induction false} ScalarsOfUnits(us: seq<nat>)
    requires AllScalars(us)
    ensures Scalars(Units(us)) == us && WellFormed(Units(us))
  {
    if us != [] {
      ScalarsOfUnits(us[1..]);
      assert us[0] in us && us == [us[0]] + us[1..];
      var s, rest := Units(us), Units(us[1..]);
      if us[0] < 0x1_0000 {
        assert s == [us[0]] + rest && s[1..] == rest;
        assert !IsHigh(s[0]) && !IsLow(s[0]);
      } else {
        var v := us[0] - 0x1_0000;
        assert s == [0xD800 + v / 0x400, 0xDC00 + v % 0x400] + rest && s[2..] == rest;
        assert v / 0x400 * 0x400 + v % 0x400 == v;
      }
    }
  }

  /** A string is recovered from its code points exactly when it is well formed. */
  lemma {:induction false} UnitsOfScalars(s: Str)
    ensures Units(Scalars(s)) == s <==> WellFormed(s)
    decreases |s|
  {
    hide Units;
    if WellFormed(s) {
      UnitsOfWellFormed(s);
    } else {
      ScalarsOfUnits(Scalars(s));
    }
  }

  lemma {:induction false} UnitsOfWellFormed(s: Str)
    requires WellFormed(s)
    ensures Units(Scalars(s)) == s
    decreases |s|
  {
    if s != [] {
      if |s| >= 2 && IsHigh(s[0]) && IsLow(s[1]) {
        UnitsOfWellFormed(s[2..]);
        assert s == [s[0], s[1]] + s[2..];
        var v := (s[0] as int - 0xD800) * 0x400 + (s[1] as int - 0xDC00);
        assert v / 0x400 == s[0] - 0xD800 && v % 0x400 == s[1] - 0xDC00;
        assert Scalars(s)[1..] == Scalars(s[2..]);
      } else {
        UnitsOfWellFormed(s[1..]);
        assert s == [s[0]] + s[1..];
        assert Scalars(s)[1..] == Scalars(s[1..]);
      }
    }
  }

  /** `Buffer.byteLength` counts the bytes of the buffer. */
  lemma {:induction false} BytesCounted(s: Str)
    ensures |ToBytes(s)| == Utf8Length(s)
    decreases |s|
  {
    if s != [] {
      if |s| >= 2 && IsHigh(s[0]) && IsLow(s[1]) {
        BytesCounted(s[2..]);
        assert Scalars(s)[1..] == Scalars(s[2..]);
      } else {
        BytesCounted(s[1..]);
        assert Scalars(s)[1..] == Scalars(s[1..]);
      }
    }
  }

  /** Well-formed texts have different bytes. */
  lemma {:induction false} ToBytesInjective(s: Str, t: Str)
    requires WellFormed(s) && WellFormed(t) && ToBytes(s) == ToBytes(t)
    ensures s == t
  {
    DecodeRoundTrip(Scalars(s));
    DecodeRoundTrip(Scalars(t));
    UnitsOfWellFormed(s);
    UnitsOfWellFormed(t);
  }

  lemma {:induction false} NulFree(s: Str)
    ensures NUL in s <==> 0 in ToBytes(s)
    decreases |s|
  {
    if s != [] {
      if |s| >= 2 && IsHigh(s[0]) && IsLow(s[1]) {
        NulFree(s[2..]);
        assert s == [s[0], s[1]] + s[2..];
        assert Scalars(s)[1..] == Scalars(s[2..]);
      } else {
        NulFree(s[1..]);
        assert s == [s[0]] + s[1..];
        assert Scalars(s)[1..] == Scalars(s[1..]);
      }
      var u := Scalars(s)[0];
      assert ToBytes(s) == EncodeOne(u) + Encode(Scalars(s)[1..]);
      assert 0 in EncodeOne(u) <==> u == 0 by {
        if u == 0 { assert EncodeOne(u)[0] == 0; }
      }
    }
  }
}
