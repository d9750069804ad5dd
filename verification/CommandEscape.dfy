/** Workflow-command escaping: `commandValue` in ci-admission/index.mjs and `escapeCommandData` in
    lib/telemetry-fallback.mjs. */
module CommandEscape {
  import opened Text

  const ZERO: CodeUnit := 0x30
  const TWO: CodeUnit := 0x32
  const FIVE: CodeUnit := 0x35
  const LETTER_A: CodeUnit := 0x41
  const LETTER_D: CodeUnit := 0x44

  /** Three replacement passes, in the source's order. */
  function Escape(message: Str): Str {
    var percent := ReplaceUnit(message, PERCENT, [PERCENT, TWO, FIVE]);
    ReplaceUnit(ReplaceUnit(percent, CR, [PERCENT, ZERO, LETTER_D]), LF, [PERCENT, ZERO, LETTER_A])
  }

  /** What one unit is written as. */
  function Image(u: CodeUnit): Str {
    if u == '%' as int then Lit("%25")
    else if u == '\r' as int then Lit("%0D")
    else if u == '\n' as int then Lit("%0A")
    else [u]
  }

  lemma {:induction false} Images()
    ensures Lit("%25") == [PERCENT, TWO, FIVE] && Lit("%0D") == [PERCENT, ZERO, LETTER_D]
    ensures Lit("%0A") == [PERCENT, ZERO, LETTER_A]
  {
  }

  /** One pass from left to right. */
  function EscapeOnce(message: Str): Str {
    if message == [] then [] else Image(message[0]) + EscapeOnce(message[1..])
  }

  /** Reads an escaped message back; a stray percent sign stands for itself. */
  function Unescape(text: Str): Str {
    if text == [] then []
    else if Lit("%25") <= text then [PERCENT] + Unescape(text[3..])
    else if Lit("%0D") <= text then [CR] + Unescape(text[3..])
    else if Lit("%0A") <= text then [LF] + Unescape(text[3..])
    else [text[0]] + Unescape(text[1..])
  }

  /** The later passes never touch what an earlier pass wrote, so the three passes are one. */
  lemma {:induction false} EscapeIsOnePass(message: Str)
    ensures Escape(message) == EscapeOnce(message)
  {
    if message != [] {
      Images();
      EscapeIsOnePass(message[1..]);
      var u := message[0];
      var first := if u == PERCENT then [PERCENT, TWO, FIVE] else [u];
      var rest := ReplaceUnit(message[1..], PERCENT, [PERCENT, TWO, FIVE]);
      ReplaceConcat(first, rest, CR, [PERCENT, ZERO, LETTER_D]);
      if u == CR {
        assert ReplaceUnit([CR], CR, [PERCENT, ZERO, LETTER_D]) ==
          [PERCENT, ZERO, LETTER_D] + ReplaceUnit([], CR, [PERCENT, ZERO, LETTER_D]);
      } else {
        ReplaceAbsent(first, CR, [PERCENT, ZERO, LETTER_D]);
      }
      var second := if u == CR then [PERCENT, ZERO, LETTER_D] else first;
      ReplaceConcat(second, ReplaceUnit(rest, CR, [PERCENT, ZERO, LETTER_D]), LF, [PERCENT, ZERO, LETTER_A]);
      if u == LF {
        assert ReplaceUnit([LF], LF, [PERCENT, ZERO, LETTER_A]) ==
          [PERCENT, ZERO, LETTER_A] + ReplaceUnit([], LF, [PERCENT, ZERO, LETTER_A]);
      } else {
        ReplaceAbsent(second, LF, [PERCENT, ZERO, LETTER_A]);
      }
    }
  }

  lemma {:induction false} UnescapeImage(u: CodeUnit, rest: Str)
    ensures Unescape(Image(u) + rest) == [u] + Unescape(rest)
    ensures CR !in Image(u) && LF !in Image(u)
  {
    Images();
    hide Lit;
    var text := Image(u) + rest;
    if u == PERCENT || u == CR || u == LF {
      assert text[..3] == Image(u) && text[3..] == rest;
    } else {
      assert text[0] == u && text[1..] == rest;
      assert |text| >= 3 ==> text[..3][0] == u;
    }
  }

  lemma {:induction false} OnePassProperties(message: Str)
    ensures CR !in EscapeOnce(message) && LF !in EscapeOnce(message)
    ensures Unescape(EscapeOnce(message)) == message
  {
    hide Unescape, Image;
    if message == [] {
      assert Unescape([]) == [] by { UnescapeNothing(); }
    } else {
      OnePassProperties(message[1..]);
      UnescapeImage(message[0], EscapeOnce(message[1..]));
      assert message == [message[0]] + message[1..];
    }
  }

  lemma {:induction false} UnescapeNothing()
    ensures Unescape([]) == []
  {
  }

  /** An escaped message is one line, and the message can be read back from it. */
  lemma {:induction false} EscapeIsInvertible(message: Str)
    ensures CR !in Escape(message) && LF !in Escape(message) && Unescape(Escape(message)) == message
  {
    EscapeIsOnePass(message);
    OnePassProperties(message);
  }

  /** `::name::message` and a line feed. */
  function Command(name: Str, message: Str): Str {
    [COLON, COLON] + name + [COLON, COLON] + Escape(message) + [LF]
  }

  /** Different messages never render as the same command. */
  lemma {:induction false} CommandIsInjective(name: Str, a: Str, b: Str)
    ensures Command(name, a) == Command(name, b) <==> a == b
  {
    if Command(name, a) == Command(name, b) {
      var head := [COLON, COLON] + name + [COLON, COLON];
      var x, y := Command(name, a), Command(name, b);
      assert x[|head|..|x| - 1] == Escape(a) && y[|head|..|y| - 1] == Escape(b);
      EscapeIsInvertible(a);
      EscapeIsInvertible(b);
    }
  }
}
