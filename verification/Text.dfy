/** JavaScript strings as sequences of UTF-16 code units, their `<` order, and splitting at a separator. */
module Text {
  import opened Sorting

  type CodeUnit = u: int | 0 <= u < 0x1_0000
  type Str = seq<CodeUnit>

  const NUL: CodeUnit := 0x00
  const LF: CodeUnit := 0x0A
  const CR: CodeUnit := 0x0D
  const SPACE: CodeUnit := 0x20
  const PERCENT: CodeUnit := 0x25
  const DOT: CodeUnit := 0x2E
  const SLASH: CodeUnit := 0x2F
  const COLON: CodeUnit := 0x3A
  const QUESTION: CodeUnit := 0x3F
  const BACKSLASH: CodeUnit := 0x5C

  /** An ASCII literal; any other character is written as `?`. */
  function Lit(s: string): Str {
    seq(|s|, i requires 0 <= i < |s| => if s[i] < '\U{80}' then s[i] as int else QUESTION)
  }

  predicate UnitLess(a: CodeUnit, b: CodeUnit) {
    a < b
  }

  /** Lexicographic order; a proper prefix comes first. */
  predicate LexLess<T(==)>(a: seq<T>, b: seq<T>, lt: (T, T) -> bool) {
    b != [] && (a == [] || lt(a[0], b[0]) || (a[0] == b[0] && LexLess(a[1..], b[1..], lt)))
  }

  /** The order of `<` on strings and of `sort()` without a comparator: by code unit. */
  predicate StrLess(a: Str, b: Str) {
    LexLess(a, b, UnitLess)
  }

  ghost predicate StrictTotalOrder<T(!new)>(lt: (T, T) -> bool) {
    StrictWeakOrder(lt) && forall x, y :: x != y ==> lt(x, y) || lt(y, x)
  }

  lemma {:induction false} LexLessAt<T(!new)>(a: seq<T>, b: seq<T>, c: seq<T>, lt: (T, T) -> bool)
    requires StrictTotalOrder(lt)
    ensures !LexLess(a, a, lt)
    ensures LexLess(a, b, lt) && LexLess(b, c, lt) ==> LexLess(a, c, lt)
    ensures LexLess(a, c, lt) ==> LexLess(a, b, lt) || LexLess(b, c, lt)
    ensures a != b ==> LexLess(a, b, lt) || LexLess(b, a, lt)
    decreases |a| + |b| + |c|
  {
    if a != [] {
      LexLessAt(a[1..], if b == [] then [] else b[1..], if c == [] then [] else c[1..], lt);
      if b != [] && a[0] == b[0] {
        assert a == [a[0]] + a[1..] && b == [b[0]] + b[1..];
      }
    }
  }

  lemma {:induction false} LexLessIsTotal<T(!new)>(lt: (T, T) -> bool)
    requires StrictTotalOrder(lt)
    ensures StrictTotalOrder((a: seq<T>, b: seq<T>) => LexLess(a, b, lt))
  {
    forall a: seq<T>, b: seq<T>, c: seq<T> {
      LexLessAt(a, b, c, lt);
    }
  }

  /** At the first place where the texts differ, `a` has ended or has the smaller code unit. */
  ghost predicate FirstDiffers(a: Str, b: Str) {
    exists k :: DiffersAt(a, b, k)
  }

  predicate DiffersAt(a: Str, b: Str, k: nat) {
    k <= |a| && k < |b| && a[..k] == b[..k] && (k == |a| || a[k] < b[k])
  }

  lemma {:induction false} DiffersLater(a: Str, b: Str)
    ensures forall k :: k > 0 && DiffersAt(a, b, k) ==> a != [] && b != [] && a[0] == b[0]
  {
    forall k: nat | k > 0 && DiffersAt(a, b, k) ensures a[0] == b[0] {
      assert a[..k][0] == a[0] && b[..k][0] == b[0];
    }
  }

  lemma {:induction false} StrLessIff(a: Str, b: Str)
    ensures StrLess(a, b) <==> FirstDiffers(a, b)
  {
    if a != [] && b != [] && a[0] == b[0] {
      StrLessIff(a[1..], b[1..]);
      assert a == [a[0]] + a[1..] && b == [b[0]] + b[1..];
      if k: nat :| DiffersAt(a[1..], b[1..], k) {
        assert a[..k + 1] == [a[0]] + a[1..][..k] && b[..k + 1] == [b[0]] + b[1..][..k];
        assert DiffersAt(a, b, k + 1);
      }
      if k: nat :| DiffersAt(a, b, k) {
        assert a[1..][..k - 1] == a[1..k] == a[..k][1..] && b[1..][..k - 1] == b[1..k] == b[..k][1..];
        assert DiffersAt(a[1..], b[1..], k - 1);
      }
    } else {
      assert StrLess(a, b) ==> DiffersAt(a, b, 0);
      DiffersLater(a, b);
    }
  }

  lemma {:induction false} StrLessIsTotal()
    ensures StrictTotalOrder(StrLess)
    ensures forall a, b :: StrLess(a, b) <==> FirstDiffers(a, b)
  {
    forall a, b ensures StrLess(a, b) <==> FirstDiffers(a, b) {
      StrLessIff(a, b);
    }
    forall a: Str, b: Str, c: Str
      ensures !StrLess(a, a)
      ensures StrLess(a, b) && StrLess(b, c) ==> StrLess(a, c)
      ensures StrLess(a, c) ==> StrLess(a, b) || StrLess(b, c)
      ensures a != b ==> StrLess(a, b) || StrLess(b, a)
    {
      LexLessAt(a, b, c, UnitLess);
    }
  }

  /** `s.split(sep)` for a one-unit separator. */
  function Split<T(==)>(s: seq<T>, sep: T): (parts: seq<seq<T>>)
    ensures |parts| >= 1
  {
    if s == [] then [[]]
    else
      var rest := Split(s[1..], sep);
      if s[0] == sep then [[]] + rest else [[s[0]] + rest[0]] + rest[1..]
  }

  function Join<T>(parts: seq<seq<T>>, sep: T): seq<T> {
    if |parts| == 0 then []
    else if |parts| == 1 then parts[0]
    else parts[0] + [sep] + Join(parts[1..], sep)
  }

  ghost predicate Free<T(!new)>(parts: seq<seq<T>>, sep: T) {
    forall p :: p in parts ==> sep !in p
  }

  lemma {:induction false} JoinSplit<T(!new)>(s: seq<T>, sep: T)
    ensures Join(Split(s, sep), sep) == s
    ensures Free(Split(s, sep), sep)
  {
    if s != [] {
      var rest := Split(s[1..], sep);
      JoinSplit(s[1..], sep);
      var r := Split(s, sep);
      if s[0] == sep {
        assert r[1..] == rest;
        forall p | p in r ensures sep !in p { assert p == [] || p in rest; }
      } else {
        assert r[1..] == rest[1..];
        forall p | p in r ensures sep !in p { assert p == [s[0]] + rest[0] || p in rest; }
      }
    }
  }

  lemma {:induction false} SplitPart<T(!new)>(part: seq<T>, s: seq<T>, sep: T)
    requires sep !in part
    ensures Split(part, sep) == [part]
    ensures Split(part + [sep] + s, sep) == [part] + Split(s, sep)
  {
    if part == [] {
      assert part + [sep] + s == [sep] + s;
    } else {
      SplitPart(part[1..], s, sep);
      assert (part + [sep] + s)[1..] == part[1..] + [sep] + s;
      assert part == [part[0]] + part[1..];
    }
  }

  lemma {:induction false} SplitJoin<T(!new)>(parts: seq<seq<T>>, sep: T)
    requires |parts| >= 1 && Free(parts, sep)
    ensures Split(Join(parts, sep), sep) == parts
  {
    assert parts[0] in parts;
    if |parts| == 1 {
      SplitPart(parts[0], [], sep);
    } else {
      assert forall p :: p in parts[1..] ==> p in parts;
      SplitJoin(parts[1..], sep);
      SplitPart(parts[0], Join(parts[1..], sep), sep);
    }
  }

  lemma {:induction false} JoinConcat<T(!new)>(x: seq<seq<T>>, y: seq<seq<T>>, sep: T)
    requires x != [] && y != []
    ensures Join(x + y, sep) == Join(x, sep) + [sep] + Join(y, sep)
  {
    if |x| > 1 {
      JoinConcat(x[1..], y, sep);
      assert (x + y)[1..] == x[1..] + y;
      assert x[0] + [sep] + (Join(x[1..], sep) + [sep] + Join(y, sep)) == Join(x, sep) + [sep] + Join(y, sep);
    } else {
      assert (x + y)[1..] == y;
    }
  }

  lemma {:induction false} SplitConcat<T(!new)>(a: seq<T>, b: seq<T>, sep: T)
    ensures Split(a + [sep] + b, sep) == Split(a, sep) + Split(b, sep)
  {
    var x, y := Split(a, sep), Split(b, sep);
    hide Split, Join;
    JoinSplit(a, sep);
    JoinSplit(b, sep);
    JoinConcat(x, y, sep);
    SplitJoin(x + y, sep);
  }

  /** Replaces every occurrence of one code unit: `s.replaceAll(c, image)`. */
  function ReplaceUnit(s: Str, c: CodeUnit, image: Str): Str {
    if s == [] then [] else (if s[0] == c then image else [s[0]]) + ReplaceUnit(s[1..], c, image)
  }

  lemma {:induction false} ReplaceAbsent(s: Str, c: CodeUnit, image: Str)
    requires c !in s
    ensures ReplaceUnit(s, c, image) == s
  {
    if s != [] {
      ReplaceAbsent(s[1..], c, image);
      assert s == [s[0]] + s[1..];
    }
  }

  lemma {:induction false} ReplacedHasNo(s: Str, c: CodeUnit, image: Str)
    requires c !in image
    ensures c !in ReplaceUnit(s, c, image)
  {
    if s != [] {
      ReplacedHasNo(s[1..], c, image);
    }
  }

  lemma {:induction false} ReplaceConcat(a: Str, b: Str, c: CodeUnit, image: Str)
    ensures ReplaceUnit(a + b, c, image) == ReplaceUnit(a, c, image) + ReplaceUnit(b, c, image)
  {
    if a == [] {
      assert a + b == b;
    } else {
      ReplaceConcat(a[1..], b, c, image);
      assert (a + b)[1..] == a[1..] + b;
      var head, x, y := if a[0] == c then image else [a[0]], ReplaceUnit(a[1..], c, image), ReplaceUnit(b, c, image);
      assert head + (x + y) == (head + x) + y;
    }
  }

  /** `value` with every backslash a slash. */
  ghost predicate IsSlashed(value: Str, slashed: Str) {
    |slashed| == |value| && forall i :: 0 <= i < |value| ==>
      slashed[i] == if value[i] == BACKSLASH then SLASH else value[i]
  }

  lemma {:induction false} SlashedIs(value: Str)
    ensures IsSlashed(value, ReplaceUnit(value, BACKSLASH, [SLASH]))
  {
    if value != [] {
      SlashedIs(value[1..]);
    }
  }

  lemma {:induction false} SlashedOnly(value: Str, a: Str, b: Str)
    requires IsSlashed(value, a) && IsSlashed(value, b)
    ensures a == b
  {
  }

  /** White space and line terminators removed by `trim` (sections 12.2 and 12.3 of ECMA-262). */
  predicate IsSpace(u: CodeUnit) {
    || 0x09 <= u <= 0x0D || u == 0x20 || u == 0xA0 || u == 0x1680 || 0x2000 <= u <= 0x200A
    || u == 0x2028 || u == 0x2029 || u == 0x202F || u == 0x205F || u == 0x3000 || u == 0xFEFF
  }

  lemma {:induction false} SpacesAre()
    ensures forall u :: IsSpace(u) <==> u in {
      0x09, 0x0A, 0x0B, 0x0C, 0x0D, 0x20, 0xA0, 0x1680, 0x2000, 0x2001, 0x2002, 0x2003, 0x2004, 0x2005, 0x2006, 0x2007,
      0x2008, 0x2009, 0x200A, 0x2028, 0x2029, 0x202F, 0x205F, 0x3000, 0xFEFF}
  {
  }

  function TrimStart(s: Str): (r: Str)
    ensures |r| <= |s|
  {
    if s != [] && IsSpace(s[0]) then TrimStart(s[1..]) else s
  }

  function TrimEnd(s: Str): (r: Str)
    ensures |r| <= |s|
  {
    if s != [] && IsSpace(s[|s| - 1]) then TrimEnd(s[..|s| - 1]) else s
  }

  function Trim(s: Str): Str {
    TrimEnd(TrimStart(s))
  }

  predicate IsDigit(u: CodeUnit) {
    0x30 <= u <= 0x39
  }

  predicate IsLowerHex(u: CodeUnit) {
    IsDigit(u) || 0x61 <= u <= 0x66
  }

  predicate IsHex(u: CodeUnit) {
    IsLowerHex(u) || 0x41 <= u <= 0x46
  }

  /** `n` lower-case hexadecimal digits. */
  predicate LowerHex(s: Str, n: nat) {
    |s| == n && forall u :: u in s ==> IsLowerHex(u)
  }

  /** Folds the ASCII letters, the only ones the folded texts are compared to. */
  function LowerAscii(s: Str): Str {
    seq(|s|, i requires 0 <= i < |s| => if 0x41 <= s[i] <= 0x5A then s[i] + 0x20 else s[i])
  }

  predicate IsLetter(u: CodeUnit) {
    0x41 <= u <= 0x5A || 0x61 <= u <= 0x7A
  }

  predicate Between(u: CodeUnit, lo: char, hi: char) {
    lo as int <= u <= hi as int
  }

  predicate Alphanumeric(u: CodeUnit) {
    Between(u, 'A', 'Z') || Between(u, 'a', 'z') || Between(u, '0', '9')
  }

  /** A hexadecimal digit of either case. */
  predicate HexUnit(u: CodeUnit) {
    Between(u, '0', '9') || Between(u, 'a', 'f') || Between(u, 'A', 'F')
  }

  /** The id of a Git object: forty hexadecimal digits. */
  predicate ObjectIdText(s: Str) {
    |s| == 40 && forall u :: u in s ==> HexUnit(u)
  }

  /** `raw` spells the word, each of its letters in lower or upper case. */
  predicate AnyCase(raw: Str, word: string) {
    |raw| == |word| && forall i :: 0 <= i < |raw| ==>
      raw[i] == word[i] as int || ('a' <= word[i] <= 'z' && raw[i] == word[i] as int - 0x20)
  }

  lemma {:induction false} AnyCaseIff(raw: Str, word: string)
    requires forall i :: 0 <= i < |word| ==> word[i] < '\U{80}' && !('A' <= word[i] <= 'Z')
    ensures LowerAscii(raw) == Lit(word) <==> AnyCase(raw, word)
  {
    var low, w := LowerAscii(raw), Lit(word);
    assert forall i :: 0 <= i < |word| ==> w[i] == word[i] as int && !(0x41 <= w[i] <= 0x5A);
    if low == w {
      forall i | 0 <= i < |raw|
        ensures raw[i] == word[i] as int || ('a' <= word[i] <= 'z' && raw[i] == word[i] as int - 0x20)
      {
        assert low[i] == w[i];
      }
    }
    if AnyCase(raw, word) {
      forall i | 0 <= i < |raw| ensures low[i] == w[i] {}
    }
  }

  const DIGITS: Str := Lit("0123456789")
  const HEX_DIGITS: Str := Lit("0123456789abcdef")

  /** `n` of the given units. */
  predicate Spelled(s: Str, n: nat, units: Str) {
    |s| == n && forall u :: u in s ==> u in units
  }

  lemma {:induction false} DigitsSpelled()
    ensures forall u :: IsDigit(u) <==> u in DIGITS
    ensures forall u :: IsLowerHex(u) <==> u in HEX_DIGITS
  {
    var d, h := DIGITS, HEX_DIGITS;
    assert forall i :: 0 <= i < 10 ==> d[i] == h[i] == 0x30 + i;
    assert forall i :: 10 <= i < 16 ==> h[i] == 0x61 + (i - 10);
    forall u: CodeUnit | IsDigit(u) ensures u in d && u in h {
      assert d[u - 0x30] == u && h[u - 0x30] == u;
    }
    forall u: CodeUnit | 0x61 <= u <= 0x66 ensures u in h {
      assert h[u - 0x61 + 10] == u;
    }
  }

  predicate IsHigh(u: CodeUnit) {
    0xD800 <= u < 0xDC00
  }

  predicate IsLow(u: CodeUnit) {
    0xDC00 <= u < 0xE000
  }

  /** `Buffer.byteLength(s, "utf8")`: a surrogate pair takes four bytes, a lone surrogate the three of U+FFFD. */
  function Utf8Length(s: Str): nat {
    if s == [] then 0
    else if |s| >= 2 && IsHigh(s[0]) && IsLow(s[1]) then 4 + Utf8Length(s[2..])
    else (if s[0] < 0x80 then 1 else if s[0] < 0x800 then 2 else 3) + Utf8Length(s[1..])
  }
}
