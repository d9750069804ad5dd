/** `JSON.stringify` (section 25.5.2 of ECMA-262) and `JSON.parse` on the texts it writes. Each printer takes
    the text `k` that follows. */
module JsonText {
  import opened Options
  import opened Text
  import opened Sorting
  import opened JsonValue
  import opened Canonical

  const QUOTE: CodeUnit := 0x22
  const COMMA: CodeUnit := 0x2C
  const OPEN_ARRAY: CodeUnit := 0x5B
  const CLOSE_ARRAY: CodeUnit := 0x5D
  const OPEN_OBJECT: CodeUnit := 0x7B
  const CLOSE_OBJECT: CodeUnit := 0x7D
  const LOWER_U: CodeUnit := 0x75
  const MINUS: CodeUnit := 0x2D
  const NULL_TEXT: Str := [0x6E, 0x75, 0x6C, 0x6C]
  const TRUE_TEXT: Str := [0x74, 0x72, 0x75, 0x65]
  const FALSE_TEXT: Str := [0x66, 0x61, 0x6C, 0x73, 0x65]

  // ---- Numbers ----

  function Digits(n: nat): Str {
    if n < 10 then [n + 0x30] else Digits(n / 10) + [n % 10 + 0x30]
  }

  function NumberText(n: Number): Str {
    match n
    case Int(v) => if v < 0 then [MINUS] + Digits(-v) else Digits(v)
    case Frac(t) => t
    case NegZero => [0x30]
    case _ => NULL_TEXT
  }

  function NumberOf(t: Str): Option<Number> {
    if t == [MINUS, 0x30] then Some(NegZero)
    else if PlainDigits(t) then Some(Int(NatOf(t)))
    else if t != [] && t[0] == MINUS && PlainDigits(t[1..]) then Some(Int(0 - NatOf(t[1..])))
    else if FracText(t) then Some(Frac(t))
    else None
  }

  lemma {:induction false} DigitsRoundTrip(n: nat)
    ensures PlainDigits(Digits(n)) && NatOf(Digits(n)) == n
    ensures n > 0 ==> Digits(n)[0] != 0x30
  {
    if n >= 10 {
      DigitsRoundTrip(n / 10);
      var d := Digits(n);
      assert d[..|d| - 1] == Digits(n / 10);
      assert d[0] == Digits(n / 10)[0];
    }
  }

  lemma {:induction false} FracRoundTrip(t: Str)
    requires FracText(t)
    ensures t != [] && NumberOf(t) == Some(Frac(t)) && (IsDigit(t[0]) || t[0] == MINUS)
  {
    assert !PlainDigits(Unsigned(t));
    assert !PlainDigits(t) by {
      if t[0] == MINUS { assert t[0] in t && !IsDigit(t[0]); }
    }
    assert PlainDigits([0x30]) by { assert NatOf([0x30]) == 0; }
  }

  lemma {:induction false} PlainDigitsAreUnits(t: Str)
    requires PlainDigits(t)
    ensures t != [] && IsDigit(t[0]) && NumberOf(t) == Some(Int(NatOf(t))) && forall u :: u in t ==> NumberUnit(u)
  {
    hide NatOf, FracText;
    assert t[0] in t;
  }

  lemma {:induction false} NegativeDigitsAreUnits(t: Str)
    requires PlainDigits(t) && t[0] != 0x30
    ensures NumberOf([MINUS] + t) == Some(Int(0 - NatOf(t))) && forall u :: u in [MINUS] + t ==> NumberUnit(u)
  {
    hide NatOf, FracText;
    var m := [MINUS] + t;
    assert m[1..] == t && m[0] in m && !IsDigit(m[0]);
    assert m[1] == t[0];
    forall u | u in m ensures NumberUnit(u) {
      assert u == MINUS || u in t;
    }
  }

  lemma {:induction false} IntRoundTrip(v: int)
    ensures var t := NumberText(Int(v));
      && t != [] && (forall u :: u in t ==> NumberUnit(u)) && (IsDigit(t[0]) || t[0] == MINUS)
      && NumberOf(t) == Some(Int(v))
  {
    hide FracText, NatOf, Digits, NumberOf, PlainDigits;
    if v < 0 {
      DigitsRoundTrip(-v);
      NegativeDigitsAreUnits(Digits(-v));
    } else {
      DigitsRoundTrip(v);
      PlainDigitsAreUnits(Digits(v));
    }
  }

  lemma {:induction false} NumberRoundTrip(n: Number)
    requires LegalNumber(n) && !n.NaN? && !n.Infinity?
    ensures NumberText(n) != [] && forall u :: u in NumberText(n) ==> NumberUnit(u)
    ensures IsDigit(NumberText(n)[0]) || NumberText(n)[0] == MINUS
    ensures NumberOf(NumberText(n)).Some? && Num(NumberOf(NumberText(n)).value) == Leaf(Num(n))
  {
    hide Digits, NumberOf, NatOf, FracGrammar;
    match n
    case Int(v) => IntRoundTrip(v);
    case Frac(t) => FracRoundTrip(t);
    case NegZero => ZeroRoundTrip();
    case _ =>
  }

  lemma {:induction false} ZeroRoundTrip()
    ensures NumberOf([0x30]) == Some(Int(0))
  {
    assert NatOf([0x30]) == 0;
  }

  // ---- Strings ----

  function HexUnit(d: nat): CodeUnit
    requires d < 16
  {
    if d < 10 then d + 0x30 else d - 10 + 0x61
  }

  function HexValue(u: CodeUnit): Option<nat> {
    if IsDigit(u) then Some(u - 0x30)
    else if 0x61 <= u <= 0x66 then Some(u - 0x61 + 10)
    else if 0x41 <= u <= 0x46 then Some(u - 0x41 + 10)
    else None
  }

  function ShortEscape(u: CodeUnit): Option<CodeUnit> {
    if u == 0x08 then Some(0x62) else if u == 0x09 then Some(0x74) else if u == LF then Some(0x6E)
    else if u == 0x0C then Some(0x66) else if u == CR then Some(0x72)
    else if u == QUOTE then Some(QUOTE) else if u == BACKSLASH then Some(BACKSLASH) else None
  }

  function Unescape(u: CodeUnit): Option<CodeUnit> {
    if u == 0x62 then Some(0x08) else if u == 0x74 then Some(0x09) else if u == 0x6E then Some(LF)
    else if u == 0x66 then Some(0x0C) else if u == 0x72 then Some(CR)
    else if u == QUOTE then Some(QUOTE) else if u == BACKSLASH then Some(BACKSLASH)
    else if u == SLASH then Some(SLASH) else None
  }

  /** A unit that `QuoteJSONString` writes as `\uXXXX`: a control without a short escape, or a lone surrogate. */
  function EscapeOn(u: CodeUnit, k: Str): Str {
    [BACKSLASH, LOWER_U, HexUnit(u / 4096), HexUnit(u / 256 % 16), HexUnit(u / 16 % 16), HexUnit(u % 16)] + k
  }

  function BodyOn(s: Str, k: Str): Str {
    if s == [] then [QUOTE] + k
    else if |s| >= 2 && IsHigh(s[0]) && IsLow(s[1]) then [s[0], s[1]] + BodyOn(s[2..], k)
    else if ShortEscape(s[0]).Some? then [BACKSLASH, ShortEscape(s[0]).value] + BodyOn(s[1..], k)
    else if s[0] < 0x20 || IsHigh(s[0]) || IsLow(s[0]) then EscapeOn(s[0], BodyOn(s[1..], k))
    else [s[0]] + BodyOn(s[1..], k)
  }

  function QuoteOn(s: Str, k: Str): Str {
    [QUOTE] + BodyOn(s, k)
  }

  /** Reads a string body up to its closing quote (section 7 of RFC 8259). */
  function ParseBody(t: Str): (r: Option<(Str, Str)>)
    ensures r.Some? ==> |r.value.1| < |t|
  {
    if t == [] then None
    else if t[0] == QUOTE then Some(([], t[1..]))
    else if t[0] < 0x20 then None
    else if t[0] != BACKSLASH then PrependUnit(t[0], ParseBody(t[1..]))
    else if |t| >= 2 && Unescape(t[1]).Some? then PrependUnit(Unescape(t[1]).value, ParseBody(t[2..]))
    else if |t| >= 6 && t[1] == LOWER_U && HexValue(t[2]).Some? && HexValue(t[3]).Some? && HexValue(t[4]).Some?
      && HexValue(t[5]).Some? then
      var u := HexValue(t[2]).value * 4096 + HexValue(t[3]).value * 256 + HexValue(t[4]).value * 16
        + HexValue(t[5]).value;
      if u < 0x1_0000 then PrependUnit(u, ParseBody(t[6..])) else None
    else None
  }

  function PrependUnit(u: CodeUnit, r: Option<(Str, Str)>): (p: Option<(Str, Str)>)
    ensures p.Some? ==> r.Some? && p.value.1 == r.value.1
  {
    if r.None? then None else Some(([u] + r.value.0, r.value.1))
  }

  lemma {:induction false} HexRoundTrip(u: CodeUnit)
    ensures u / 4096 * 4096 + u / 256 % 16 * 256 + u / 16 % 16 * 16 + u % 16 == u
  {
    var a: int, b: int := u / 16, u / 256;
    assert b == a / 16 && u / 4096 == b / 16;
    assert u == 16 * a + u % 16 && a == 16 * b + a % 16 && b == 16 * (b / 16) + b % 16;
  }

  lemma {:induction false} DigitRoundTrip(d: nat)
    requires d < 16
    ensures HexValue(HexUnit(d)) == Some(d)
  {
  }

  lemma {:induction false} EscapeRoundTrip(u: CodeUnit, k: Str)
    ensures ParseBody(EscapeOn(u, k)) == PrependUnit(u, ParseBody(k))
  {
    HexRoundTrip(u);
    var t := EscapeOn(u, k);
    assert t[6..] == k && Unescape(t[1]).None?;
    DigitRoundTrip(u / 4096);
    DigitRoundTrip(u / 256 % 16);
    DigitRoundTrip(u / 16 % 16);
    DigitRoundTrip(u % 16);
    hide HexUnit, HexValue, PrependUnit;
  }

  lemma {:induction false} PlainRoundTrip(u: CodeUnit, k: Str)
    requires u >= 0x20 && u != QUOTE && u != BACKSLASH
    ensures ParseBody([u] + k) == PrependUnit(u, ParseBody(k))
  {
    assert ([u] + k)[1..] == k;
  }

  lemma {:induction false} ShortRoundTrip(u: CodeUnit, k: Str)
    requires ShortEscape(u).Some?
    ensures ParseBody([BACKSLASH, ShortEscape(u).value] + k) == PrependUnit(u, ParseBody(k))
  {
    assert ([BACKSLASH, ShortEscape(u).value] + k)[2..] == k;
  }

  lemma {:induction false} BodyEnd(k: Str)
    ensures ParseBody(BodyOn([], k)) == Some(([], k))
  {
    assert ([QUOTE] + k)[1..] == k;
  }

  lemma {:induction false} BodyRoundTrip(s: Str, k: Str)
    ensures ParseBody(BodyOn(s, k)) == Some((s, k))
    decreases |s|
  {
    hide ParseBody, BodyOn;
    if s == [] {
      BodyEnd(k);
    } else {
      BodyStep(s, k);
      if |s| >= 2 && IsHigh(s[0]) && IsLow(s[1]) {
        BodyRoundTrip(s[2..], k);
        assert s == [s[0]] + ([s[1]] + s[2..]);
      } else {
        BodyRoundTrip(s[1..], k);
        assert s == [s[0]] + s[1..];
      }
    }
  }

  /** One printed unit, or surrogate pair, is read back. */
  lemma {:induction false} BodyStep(s: Str, k: Str)
    requires s != []
    ensures ParseBody(BodyOn(s, k)) ==
      if |s| >= 2 && IsHigh(s[0]) && IsLow(s[1]) then PrependUnit(s[0], PrependUnit(s[1], ParseBody(BodyOn(s[2..], k))))
      else PrependUnit(s[0], ParseBody(BodyOn(s[1..], k)))
  {
    hide ParseBody, EscapeOn;
    if |s| >= 2 && IsHigh(s[0]) && IsLow(s[1]) {
      var r := BodyOn(s[2..], k);
      PlainRoundTrip(s[1], r);
      PlainRoundTrip(s[0], [s[1]] + r);
      assert [s[0], s[1]] + r == [s[0]] + ([s[1]] + r);
    } else {
      var r := BodyOn(s[1..], k);
      if ShortEscape(s[0]).Some? {
        ShortRoundTrip(s[0], r);
      } else if s[0] < 0x20 || IsHigh(s[0]) || IsLow(s[0]) {
        EscapeRoundTrip(s[0], r);
      } else {
        PlainRoundTrip(s[0], r);
      }
    }
  }

  // ---- Values ----

  /** The line break `JSON.stringify` puts around members when its gap is not empty. */
  function BreakOn(gap: Str, indent: Str, k: Str): Str {
    if gap == [] then k else [LF] + (indent + k)
  }

  function PrintOn(v: Json, gap: Str, indent: Str, k: Str): Str
    decreases v
  {
    match v
    case Null => NULL_TEXT + k
    case Bool(b) => (if b then TRUE_TEXT else FALSE_TEXT) + k
    case Num(n) => NumberText(n) + k
    case String(s) => QuoteOn(s, k)
    case Arr(xs) =>
      if xs == [] then [OPEN_ARRAY, CLOSE_ARRAY] + k
      else
        var items := PrintItemsOn(xs, gap, indent + gap, BreakOn(gap, indent, [CLOSE_ARRAY] + k));
        [OPEN_ARRAY] + BreakOn(gap, indent + gap, items)
    case Obj(ms) =>
      if ms == [] then [OPEN_OBJECT, CLOSE_OBJECT] + k
      else
        var members := PrintMembersOn(ms, gap, indent + gap, BreakOn(gap, indent, [CLOSE_OBJECT] + k));
        [OPEN_OBJECT] + BreakOn(gap, indent + gap, members)
  }

  function PrintItemsOn(xs: seq<Json>, gap: Str, indent: Str, k: Str): Str
    requires xs != []
    decreases xs
  {
    PrintOn(xs[0], gap, indent,
            if |xs| == 1 then k else [COMMA] + BreakOn(gap, indent, PrintItemsOn(xs[1..], gap, indent, k)))
  }

  function PrintMembersOn(ms: seq<Member>, gap: Str, indent: Str, k: Str): Str
    requires ms != []
    decreases ms
  {
    QuoteOn(ms[0].key,
      [COLON] + (if gap == [] then [] else [SPACE]) +
      PrintOn(ms[0].value, gap, indent,
              if |ms| == 1 then k else [COMMA] + BreakOn(gap, indent, PrintMembersOn(ms[1..], gap, indent, k))))
  }

  /** `JSON.stringify(v)`. */
  function Compact(v: Json): Str {
    PrintOn(v, [], [], [])
  }

  const TWO_SPACES: Str := [SPACE, SPACE]

  // ---- Reading back ----

  predicate JsonSpace(u: CodeUnit) {
    u == SPACE || u == 0x09 || u == LF || u == CR
  }

  function SkipSpace(t: Str): (r: Str)
    ensures |r| <= |t| && (r != [] ==> !JsonSpace(r[0]))
  {
    if t != [] && JsonSpace(t[0]) then SkipSpace(t[1..]) else t
  }

  function TakeNumber(t: Str): (r: Str)
    ensures |r| <= |t|
  {
    if t != [] && NumberUnit(t[0]) then [t[0]] + TakeNumber(t[1..]) else []
  }

  function ParseWord(t: Str, word: Str, v: Json): Option<(Json, Str)> {
    if word <= t then Some((v, t[|word|..])) else None
  }

  function ParseValue(text: Str): (r: Option<(Json, Str)>)
    ensures r.Some? ==> |r.value.1| < |text|
    decreases |text|, 1
  {
    var t := SkipSpace(text);
    if t == [] then None
    else if t[0] == NULL_TEXT[0] then ParseWord(t, NULL_TEXT, Null)
    else if t[0] == TRUE_TEXT[0] then ParseWord(t, TRUE_TEXT, Bool(true))
    else if t[0] == FALSE_TEXT[0] then ParseWord(t, FALSE_TEXT, Bool(false))
    else if t[0] == QUOTE then
      var r := ParseBody(t[1..]);
      if r.None? then None else Some((String(r.value.0), r.value.1))
    else if t[0] == OPEN_ARRAY then
      var u := SkipSpace(t[1..]);
      if u != [] && u[0] == CLOSE_ARRAY then Some((Arr([]), u[1..]))
      else
        var r := ParseItems(t[1..]);
        if r.None? then None else Some((Arr(r.value.0), r.value.1))
    else if t[0] == OPEN_OBJECT then
      var u := SkipSpace(t[1..]);
      if u != [] && u[0] == CLOSE_OBJECT then Some((Obj([]), u[1..]))
      else
        var r := ParseMembers(t[1..]);
        if r.None? then None else Some((Obj(FromEntries(r.value.0)), r.value.1))
    else
      var token := TakeNumber(t);
      var n := NumberOf(token);
      if token == [] || n.None? then None else Some((Num(n.value), t[|token|..]))
  }

  function ParseItems(text: Str): (r: Option<(seq<Json>, Str)>)
    ensures r.Some? ==> |r.value.1| < |text|
    decreases |text|, 2
  {
    var first := ParseValue(text);
    if first.None? then None
    else
      var t := SkipSpace(first.value.1);
      if t != [] && t[0] == CLOSE_ARRAY then Some(([first.value.0], t[1..]))
      else if t != [] && t[0] == COMMA then
        var rest := ParseItems(t[1..]);
        if rest.None? then None else Some(([first.value.0] + rest.value.0, rest.value.1))
      else None
  }

  function ParseMembers(text: Str): (r: Option<(seq<Member>, Str)>)
    ensures r.Some? ==> |r.value.1| < |text|
    decreases |text|, 2
  {
    var start := SkipSpace(text);
    if start == [] || start[0] != QUOTE then None
    else
      var key := ParseBody(start[1..]);
      if key.None? then None
      else
        var colon := SkipSpace(key.value.1);
        if colon == [] || colon[0] != COLON then None
        else
          var value := ParseValue(colon[1..]);
          if value.None? then None
          else
            var m := Member(key.value.0, value.value.0);
            var t := SkipSpace(value.value.1);
            if t != [] && t[0] == CLOSE_OBJECT then Some(([m], t[1..]))
            else if t != [] && t[0] == COMMA then
              var rest := ParseMembers(t[1..]);
              if rest.None? then None else Some(([m] + rest.value.0, rest.value.1))
            else None
  }

  /** `JSON.parse`; `None` is a `SyntaxError`. */
  function Parse(text: Str): Option<Json> {
    var r := ParseValue(text);
    if r.Some? && SkipSpace(r.value.1) == [] then Some(r.value.0) else None
  }

  // ---- The round trip ----

  predicate Blank(s: Str) {
    forall u :: u in s ==> JsonSpace(u)
  }

  /** No number runs on into `k`. */
  predicate Delimited(k: Str) {
    k == [] || !NumberUnit(k[0])
  }

  lemma {:induction false} SkipBlank(blank: Str, t: Str)
    requires Blank(blank)
    ensures SkipSpace(blank + t) == SkipSpace(t)
  {
    if blank == [] {
      assert blank + t == t;
    } else {
      assert (blank + t)[1..] == blank[1..] + t;
      SkipBlank(blank[1..], t);
    }
  }

  lemma {:induction false} SkipBreak(gap: Str, indent: Str, k: Str)
    requires Blank(indent)
    ensures SkipSpace(BreakOn(gap, indent, k)) == SkipSpace(k)
    ensures Delimited(k) ==> Delimited(BreakOn(gap, indent, k))
  {
    if gap != [] {
      assert ([LF] + (indent + k))[1..] == indent + k;
      SkipBlank(indent, k);
    }
  }

  lemma {:induction false} TakeNumberExact(token: Str, k: Str)
    requires (forall u :: u in token ==> NumberUnit(u)) && Delimited(k)
    ensures TakeNumber(token + k) == token
  {
    if token == [] {
      assert token + k == k;
    } else {
      assert (token + k)[1..] == token[1..] + k;
      TakeNumberExact(token[1..], k);
      assert token == [token[0]] + token[1..];
    }
  }

  /** Parsing ignores leading space. */
  lemma {:induction false} ParseSkips(a: Str, b: Str)
    requires SkipSpace(a) == SkipSpace(b)
    ensures ParseValue(a) == ParseValue(b)
  {
  }

  /** The first unit of a printed value. */
  predicate StartsValue(u: CodeUnit) {
    u == QUOTE || u == OPEN_ARRAY || u == OPEN_OBJECT || u == MINUS || IsDigit(u) || u == 0x6E || u == 0x74 || u == 0x66
  }

  lemma {:induction false} PrintStarts(v: Json, gap: Str, indent: Str, k: Str)
    requires Legal(v)
    ensures PrintOn(v, gap, indent, k) != [] && StartsValue(PrintOn(v, gap, indent, k)[0])
    ensures SkipSpace(PrintOn(v, gap, indent, k)) == PrintOn(v, gap, indent, k)
  {
    if v.Num? && !v.n.NaN? && !v.n.Infinity? {
      NumberRoundTrip(v.n);
    }
  }

  lemma {:induction false} LiteralRoundTrip(v: Json, k: Str)
    requires v.Null? || v.Bool? || (v.Num? && (v.n.NaN? || v.n.Infinity?))
    ensures ParseValue(PrintOn(v, [], [], k)) == Some((Printed(v), k))
  {
    var word := if !v.Bool? then NULL_TEXT else if v.b then TRUE_TEXT else FALSE_TEXT;
    assert PrintOn(v, [], [], k)[|word|..] == k;
  }

  lemma {:induction false} NumberValueRoundTrip(n: Number, k: Str)
    requires LegalNumber(n) && !n.NaN? && !n.Infinity? && Delimited(k)
    ensures ParseValue(NumberText(n) + k) == Some((Leaf(Num(n)), k))
  {
    NumberRoundTrip(n);
    var token := NumberText(n);
    var t := token + k;
    assert t[0] == token[0] && !JsonSpace(t[0]);
    TakeNumberExact(token, k);
    assert t[|token|..] == k;
  }

  lemma {:induction false} StringRoundTrip(s: Str, k: Str)
    ensures ParseValue(QuoteOn(s, k)) == Some((String(s), k))
  {
    var t := QuoteOn(s, k);
    assert t[1..] == BodyOn(s, k);
    BodyRoundTrip(s, k);
  }

  lemma {:induction false} ParseOpenArray(body: Str)
    ensures ParseValue([OPEN_ARRAY] + body) ==
      var u := SkipSpace(body);
      if u != [] && u[0] == CLOSE_ARRAY then Some((Arr([]), u[1..]))
      else
        var r := ParseItems(body);
        if r.None? then None else Some((Arr(r.value.0), r.value.1))
  {
    assert ([OPEN_ARRAY] + body)[1..] == body;
  }

  lemma {:induction false} ParseOpenObject(body: Str)
    ensures ParseValue([OPEN_OBJECT] + body) ==
      var u := SkipSpace(body);
      if u != [] && u[0] == CLOSE_OBJECT then Some((Obj([]), u[1..]))
      else
        var r := ParseMembers(body);
        if r.None? then None else Some((Obj(FromEntries(r.value.0)), r.value.1))
  {
    assert ([OPEN_OBJECT] + body)[1..] == body;
  }

  function PrintedItems(xs: seq<Json>): seq<Json> {
    seq(|xs|, i requires 0 <= i < |xs| => Printed(xs[i]))
  }

  function PrintedMembers(ms: seq<Member>): seq<Member> {
    seq(|ms|, i requires 0 <= i < |ms| => Member(ms[i].key, Printed(ms[i].value)))
  }

  lemma {:induction false} ItemsSkip(a: Str, b: Str)
    requires SkipSpace(a) == SkipSpace(b)
    ensures ParseItems(a) == ParseItems(b) && ParseMembers(a) == ParseMembers(b)
  {
    ParseSkips(a, b);
  }

  /** What an object or array is closed with. */
  lemma {:induction false} CloseSkips(gap: Str, indent: Str, close: CodeUnit, k: Str)
    requires Blank(indent) && (close == CLOSE_ARRAY || close == CLOSE_OBJECT)
    ensures SkipSpace(BreakOn(gap, indent, [close] + k)) == [close] + k
    ensures Delimited(BreakOn(gap, indent, [close] + k))
  {
    SkipBreak(gap, indent, [close] + k);
    assert SkipSpace([close] + k) == [close] + k;
  }

  /** `JSON.parse` recovers every printed value, whatever the gap, and stops where the value stops. */
  lemma {:induction false} PrintRoundTrip(v: Json, gap: Str, indent: Str, k: Str)
    requires Legal(v) && Blank(gap) && Blank(indent) && Delimited(k)
    ensures ParseValue(PrintOn(v, gap, indent, k)) == Some((Printed(v), k))
    decreases v
  {
    match v
    case Null => LiteralRoundTrip(v, k);
    case Bool(_) => LiteralRoundTrip(v, k);
    case Num(n) =>
      if n.NaN? || n.Infinity? {
        LiteralRoundTrip(v, k);
      } else {
        NumberValueRoundTrip(n, k);
      }
    case String(s) => StringRoundTrip(s, k);
    case Arr(xs) => ArrayRoundTrip(xs, gap, indent, k);
    case Obj(ms) => ObjectRoundTrip(ms, gap, indent, k);
  }

  lemma {:induction false} ArrayRoundTrip(xs: seq<Json>, gap: Str, indent: Str, k: Str)
    requires Legal(Arr(xs)) && Blank(gap) && Blank(indent) && Delimited(k)
    ensures ParseValue(PrintOn(Arr(xs), gap, indent, k)) == Some((Arr(PrintedItems(xs)), k))
    decreases xs, 1
  {
    hide ParseValue, ParseItems, Printed, BreakOn;
    if xs == [] {
      ParseOpenArray([CLOSE_ARRAY] + k);
      assert ([CLOSE_ARRAY] + k)[1..] == k && PrintedItems(xs) == [];
      assert [OPEN_ARRAY] + ([CLOSE_ARRAY] + k) == PrintOn(Arr(xs), gap, indent, k);
    } else {
      var tail := BreakOn(gap, indent, [CLOSE_ARRAY] + k);
      var items := PrintItemsOn(xs, gap, indent + gap, tail);
      CloseSkips(gap, indent, CLOSE_ARRAY, k);
      ItemsRoundTrip(xs, gap, indent + gap, tail, k);
      SkipBreak(gap, indent + gap, items);
      PrintStarts(xs[0], gap, indent + gap,
                  if |xs| == 1 then tail
                  else [COMMA] + BreakOn(gap, indent + gap, PrintItemsOn(xs[1..], gap, indent + gap, tail)));
      ItemsSkip(BreakOn(gap, indent + gap, items), items);
      ParseOpenArray(BreakOn(gap, indent + gap, items));
    }
  }

  lemma {:induction false} ItemsStep(text: Str, v: Json, next: Str)
    requires ParseValue(text) == Some((v, next))
    ensures forall k: Str :: SkipSpace(next) == [CLOSE_ARRAY] + k ==> ParseItems(text) == Some(([v], k))
    ensures forall after: Str :: next == [COMMA] + after ==>
      ParseItems(text) ==
        var rest := ParseItems(after);
        if rest.None? then None else Some(([v] + rest.value.0, rest.value.1))
  {
    forall k: Str | SkipSpace(next) == [CLOSE_ARRAY] + k ensures ParseItems(text) == Some(([v], k)) {
      assert ([CLOSE_ARRAY] + k)[1..] == k;
    }
    if next != [] {
      assert next == [next[0]] + next[1..];
      assert next[0] == COMMA ==> SkipSpace(next) == next;
    }
    forall after: Str | next == [COMMA] + after ensures next[1..] == after {
    }
  }

  lemma {:induction false} ItemsUnfold(xs: seq<Json>, gap: Str, indent: Str, tail: Str)
    requires xs != []
    ensures PrintItemsOn(xs, gap, indent, tail) == PrintOn(xs[0], gap, indent,
      if |xs| == 1 then tail else [COMMA] + BreakOn(gap, indent, PrintItemsOn(xs[1..], gap, indent, tail)))
  {
  }

  lemma {:induction false} ItemsRoundTrip(xs: seq<Json>, gap: Str, indent: Str, tail: Str, k: Str)
    requires xs != [] && Legal(Arr(xs)) && Blank(gap) && Blank(indent)
    requires Delimited(tail) && SkipSpace(tail) == [CLOSE_ARRAY] + k
    ensures ParseItems(PrintItemsOn(xs, gap, indent, tail)) == Some((PrintedItems(xs), k))
    decreases xs, 0
  {
    hide ParseValue, ParseItems, PrintOn, Printed, PrintItemsOn;
    ItemsUnfold(xs, gap, indent, tail);
    if |xs| == 1 {
      PrintRoundTrip(xs[0], gap, indent, tail);
      ItemsStep(PrintItemsOn(xs, gap, indent, tail), Printed(xs[0]), tail);
      assert PrintedItems(xs) == [Printed(xs[0])];
    } else {
      var rest := PrintItemsOn(xs[1..], gap, indent, tail);
      var next := [COMMA] + BreakOn(gap, indent, rest);
      PrintRoundTrip(xs[0], gap, indent, next);
      ItemsRoundTrip(xs[1..], gap, indent, tail, k);
      SkipBreak(gap, indent, rest);
      ItemsSkip(BreakOn(gap, indent, rest), rest);
      ItemsStep(PrintItemsOn(xs, gap, indent, tail), Printed(xs[0]), next);
      assert PrintedItems(xs) == [Printed(xs[0])] + PrintedItems(xs[1..]);
    }
  }

  lemma {:induction false} ObjectRoundTrip(ms: seq<Member>, gap: Str, indent: Str, k: Str)
    requires Legal(Obj(ms)) && Blank(gap) && Blank(indent) && Delimited(k)
    ensures ParseValue(PrintOn(Obj(ms), gap, indent, k)) == Some((Obj(PrintedMembers(ms)), k))
    decreases ms, 1
  {
    hide ParseValue, ParseMembers, Printed, ParseBody, BodyOn;
    if ms == [] {
      ParseOpenObject([CLOSE_OBJECT] + k);
      assert ([CLOSE_OBJECT] + k)[1..] == k && PrintedMembers(ms) == [];
      assert [OPEN_OBJECT] + ([CLOSE_OBJECT] + k) == PrintOn(Obj(ms), gap, indent, k);
    } else {
      var tail := BreakOn(gap, indent, [CLOSE_OBJECT] + k);
      var members := PrintMembersOn(ms, gap, indent + gap, tail);
      CloseSkips(gap, indent, CLOSE_OBJECT, k);
      MembersRoundTrip(ms, gap, indent + gap, tail, k);
      SkipBreak(gap, indent + gap, members);
      assert members[0] == QUOTE && SkipSpace(members) == members;
      ItemsSkip(BreakOn(gap, indent + gap, members), members);
      ParseOpenObject(BreakOn(gap, indent + gap, members));
      PrintedMembersAreInOrder(ms);
    }
  }

  lemma {:induction false} PrintedMembersAreInOrder(ms: seq<Member>)
    requires DistinctKeys(ms) && Sorted(ms, OwnBefore)
    ensures FromEntries(PrintedMembers(ms)) == PrintedMembers(ms)
  {
    var ps := PrintedMembers(ms);
    assert DistinctKeys(ps);
    assert Sorted(ps, OwnBefore) by {
      forall i, j | 0 <= i < j < |ps| ensures !OwnBefore(ps[j], ps[i]) { assert !OwnBefore(ms[j], ms[i]); }
    }
    FromEntriesPermutes(ps);
    SortKeepsSorted(ps, OwnBefore);
  }

  function AfterKey(m: Member, gap: Str, indent: Str, next: Str): Str {
    [COLON] + (if gap == [] then [] else [SPACE]) + PrintOn(m.value, gap, indent, next)
  }

  lemma {:induction false} MemberHeadRoundTrip(m: Member, gap: Str, indent: Str, next: Str)
    requires Legal(m.value) && Blank(gap) && Blank(indent) && Delimited(next)
    ensures ParseBody(QuoteOn(m.key, AfterKey(m, gap, indent, next))[1..]) ==
      Some((m.key, AfterKey(m, gap, indent, next)))
    ensures AfterKey(m, gap, indent, next) != [] && AfterKey(m, gap, indent, next)[0] == COLON
    ensures ParseValue(AfterKey(m, gap, indent, next)[1..]) == Some((Printed(m.value), next))
    decreases m, 0
  {
    hide ParseBody, BodyOn, PrintOn, Printed, ParseValue, FromEntries;
    var after := AfterKey(m, gap, indent, next);
    BodyRoundTrip(m.key, after);
    assert QuoteOn(m.key, after)[1..] == BodyOn(m.key, after);
    var value := PrintOn(m.value, gap, indent, next);
    PrintRoundTrip(m.value, gap, indent, next);
    var space := if gap == [] then [] else [SPACE];
    assert after[1..] == space + value;
    SkipBlank(space, value);
    ParseSkips(space + value, value);
  }

  lemma {:induction false} MembersStep(text: Str, key: Str, after: Str, v: Json, next: Str)
    requires text != [] && text[0] == QUOTE && ParseBody(text[1..]) == Some((key, after))
    requires after != [] && after[0] == COLON && ParseValue(after[1..]) == Some((v, next))
    ensures forall k: Str :: SkipSpace(next) == [CLOSE_OBJECT] + k ==> ParseMembers(text) == Some(([Member(key, v)], k))
    ensures next != [] && next[0] == COMMA ==>
      ParseMembers(text) ==
        var rest := ParseMembers(next[1..]);
        if rest.None? then None else Some(([Member(key, v)] + rest.value.0, rest.value.1))
  {
    assert SkipSpace(text) == text && SkipSpace(after) == after;
    forall k: Str | SkipSpace(next) == [CLOSE_OBJECT] + k ensures ParseMembers(text) == Some(([Member(key, v)], k)) {
      assert ([CLOSE_OBJECT] + k)[1..] == k;
    }
    assert next != [] && next[0] == COMMA ==> SkipSpace(next) == next;
  }

  lemma {:induction false} MembersUnfold(ms: seq<Member>, gap: Str, indent: Str, tail: Str)
    requires ms != []
    ensures PrintMembersOn(ms, gap, indent, tail) ==
      QuoteOn(ms[0].key, AfterKey(ms[0], gap, indent,
        if |ms| == 1 then tail else [COMMA] + BreakOn(gap, indent, PrintMembersOn(ms[1..], gap, indent, tail))))
  {
  }

  lemma {:induction false} PrintedMembersStep(ms: seq<Member>)
    requires ms != []
    ensures PrintedMembers(ms) == [Member(ms[0].key, Printed(ms[0].value))] + PrintedMembers(ms[1..])
  {
  }

  /** A comma and a break lead to the rest of the members. */
  lemma {:induction false} NextMembers(gap: Str, indent: Str, rest: Str, next: Str)
    requires Blank(indent) && next == [COMMA] + BreakOn(gap, indent, rest)
    ensures Delimited(next) && next != [] && next[0] == COMMA && ParseMembers(next[1..]) == ParseMembers(rest)
  {
    hide ParseMembers;
    SkipBreak(gap, indent, rest);
    ItemsSkip(BreakOn(gap, indent, rest), rest);
    assert next[1..] == BreakOn(gap, indent, rest);
  }

  lemma {:induction false} MembersRoundTrip(ms: seq<Member>, gap: Str, indent: Str, tail: Str, k: Str)
    requires ms != [] && (forall i :: 0 <= i < |ms| ==> Legal(ms[i].value)) && Blank(gap) && Blank(indent)
    requires Delimited(tail) && SkipSpace(tail) == [CLOSE_OBJECT] + k
    ensures ParseMembers(PrintMembersOn(ms, gap, indent, tail)) == Some((PrintedMembers(ms), k))
    decreases ms, 0
  {
    hide ParseValue, ParseMembers, PrintOn, Printed, ParseBody, BodyOn, AfterKey, PrintMembersOn, PrintedMembers;
    hide BreakOn, SkipSpace, Delimited, Legal, QuoteOn;
    var text, m := PrintMembersOn(ms, gap, indent, tail), ms[0];
    MembersUnfold(ms, gap, indent, tail);
    PrintedMembersStep(ms);
    if |ms| == 1 {
      MemberParses(text, m, gap, indent, tail);
      NoMembers();
      assert ms[1..] == [];
      assert PrintedMembers(ms) == [Member(m.key, Printed(m.value))];
    } else {
      var rest := PrintMembersOn(ms[1..], gap, indent, tail);
      var next := [COMMA] + BreakOn(gap, indent, rest);
      NextMembers(gap, indent, rest, next);
      MembersRoundTrip(ms[1..], gap, indent, tail, k);
      MemberParses(text, m, gap, indent, next);
    }
  }

  lemma {:induction false} NoMembers()
    ensures PrintedMembers([]) == []
  {
  }

  /** The first printed member is parsed, and then what follows it. */
  lemma {:induction false} MemberParses(text: Str, m: Member, gap: Str, indent: Str, next: Str)
    requires Legal(m.value) && Blank(gap) && Blank(indent) && Delimited(next)
    requires text == QuoteOn(m.key, AfterKey(m, gap, indent, next))
    ensures forall k: Str :: SkipSpace(next) == [CLOSE_OBJECT] + k ==>
      ParseMembers(text) == Some(([Member(m.key, Printed(m.value))], k))
    ensures next != [] && next[0] == COMMA ==>
      ParseMembers(text) ==
        var rest := ParseMembers(next[1..]);
        if rest.None? then None else Some(([Member(m.key, Printed(m.value))] + rest.value.0, rest.value.1))
    decreases m, 1
  {
    MemberHeadRoundTrip(m, gap, indent, next);
    hide ParseValue, ParseMembers, PrintOn, Printed, ParseBody, BodyOn, AfterKey;
    MembersStep(text, m.key, AfterKey(m, gap, indent, next), Printed(m.value), next);
  }

  // ---- What follows a printed value ----

  lemma {:induction false} BodyAppend(s: Str, k: Str, end: Str)
    ensures BodyOn(s, k) + end == BodyOn(s, k + end)
    decreases |s|
  {
    hide ShortEscape;
    if s == [] {
      assert [QUOTE] + k + end == [QUOTE] + (k + end);
    } else if |s| >= 2 && IsHigh(s[0]) && IsLow(s[1]) {
      BodyAppend(s[2..], k, end);
      Associate([s[0], s[1]], BodyOn(s[2..], k), end);
    } else {
      BodyAppend(s[1..], k, end);
      var rest := BodyOn(s[1..], k);
      if ShortEscape(s[0]).Some? {
        Associate([BACKSLASH, ShortEscape(s[0]).value], rest, end);
      } else if s[0] < 0x20 || IsHigh(s[0]) || IsLow(s[0]) {
        Associate(EscapeOn(s[0], []), rest, end);
        assert EscapeOn(s[0], rest) == EscapeOn(s[0], []) + rest;
        assert EscapeOn(s[0], rest + end) == EscapeOn(s[0], []) + (rest + end);
      } else {
        Associate([s[0]], rest, end);
      }
    }
  }

  lemma {:induction false} Associate(a: Str, b: Str, c: Str)
    ensures a + b + c == a + (b + c)
  {
  }

  lemma {:induction false} BreakAppend(gap: Str, indent: Str, k: Str, end: Str)
    ensures BreakOn(gap, indent, k) + end == BreakOn(gap, indent, k + end)
  {
    Associate(indent, k, end);
    Associate([LF], indent + k, end);
  }

  lemma {:induction false} PrintAppend(v: Json, gap: Str, indent: Str, k: Str, end: Str)
    ensures PrintOn(v, gap, indent, k) + end == PrintOn(v, gap, indent, k + end)
    decreases v
  {
    hide BodyOn, BreakOn, PrintItemsOn, PrintMembersOn;
    match v
    case String(s) =>
      BodyAppend(s, k, end);
      Associate([QUOTE], BodyOn(s, k), end);
    case Arr(xs) =>
      if xs == [] {
        Associate([OPEN_ARRAY, CLOSE_ARRAY], k, end);
      } else {
        var last := BreakOn(gap, indent, [CLOSE_ARRAY] + k);
        var items := PrintItemsOn(xs, gap, indent + gap, last);
        Associate([CLOSE_ARRAY], k, end);
        BreakAppend(gap, indent, [CLOSE_ARRAY] + k, end);
        ItemsAppend(xs, gap, indent + gap, last, end);
        BreakAppend(gap, indent + gap, items, end);
        Associate([OPEN_ARRAY], BreakOn(gap, indent + gap, items), end);
      }
    case Obj(ms) =>
      if ms == [] {
        Associate([OPEN_OBJECT, CLOSE_OBJECT], k, end);
      } else {
        var last := BreakOn(gap, indent, [CLOSE_OBJECT] + k);
        var members := PrintMembersOn(ms, gap, indent + gap, last);
        Associate([CLOSE_OBJECT], k, end);
        BreakAppend(gap, indent, [CLOSE_OBJECT] + k, end);
        MembersAppend(ms, gap, indent + gap, last, end);
        BreakAppend(gap, indent + gap, members, end);
        Associate([OPEN_OBJECT], BreakOn(gap, indent + gap, members), end);
      }
    case Null => Associate(NULL_TEXT, k, end);
    case Bool(b) => Associate(if b then TRUE_TEXT else FALSE_TEXT, k, end);
    case Num(n) => Associate(NumberText(n), k, end);
  }

  lemma {:induction false} ItemsAppend(xs: seq<Json>, gap: Str, indent: Str, k: Str, end: Str)
    requires xs != []
    ensures PrintItemsOn(xs, gap, indent, k) + end == PrintItemsOn(xs, gap, indent, k + end)
    decreases xs
  {
    hide BreakOn, PrintOn;
    if |xs| == 1 {
      PrintAppend(xs[0], gap, indent, k, end);
    } else {
      var rest := PrintItemsOn(xs[1..], gap, indent, k);
      ItemsAppend(xs[1..], gap, indent, k, end);
      BreakAppend(gap, indent, rest, end);
      Associate([COMMA], BreakOn(gap, indent, rest), end);
      PrintAppend(xs[0], gap, indent, [COMMA] + BreakOn(gap, indent, rest), end);
    }
  }

  lemma {:induction false} MembersAppend(ms: seq<Member>, gap: Str, indent: Str, k: Str, end: Str)
    requires ms != []
    ensures PrintMembersOn(ms, gap, indent, k) + end == PrintMembersOn(ms, gap, indent, k + end)
    decreases ms
  {
    hide BreakOn, PrintOn;
    if |ms| == 1 {
      MemberAppend(ms[0], gap, indent, k, end);
    } else {
      var rest := PrintMembersOn(ms[1..], gap, indent, k);
      MembersAppend(ms[1..], gap, indent, k, end);
      BreakAppend(gap, indent, rest, end);
      Associate([COMMA], BreakOn(gap, indent, rest), end);
      MemberAppend(ms[0], gap, indent, [COMMA] + BreakOn(gap, indent, rest), end);
    }
  }

  lemma {:induction false} MemberAppend(m: Member, gap: Str, indent: Str, k: Str, end: Str)
    ensures QuoteOn(m.key, AfterKey(m, gap, indent, k)) + end == QuoteOn(m.key, AfterKey(m, gap, indent, k + end))
    decreases m
  {
    hide BodyOn, PrintOn;
    PrintAppend(m.value, gap, indent, k, end);
    var colon := [COLON] + (if gap == [] then [] else [SPACE]);
    Associate(colon, PrintOn(m.value, gap, indent, k), end);
    BodyAppend(m.key, AfterKey(m, gap, indent, k), end);
    Associate([QUOTE], BodyOn(m.key, AfterKey(m, gap, indent, k)), end);
  }
}
