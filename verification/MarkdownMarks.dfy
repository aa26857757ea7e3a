/** What markers and styles mean: which markers are text, and how a span of each kind looks. */
module MarkdownMarks {
  import opened Text
  import opened Seqs
  import opened Ansi
  import opened Paint
  import opened InlineMarkdown
  import opened MarkdownLines

  // ----- Markers that are text -----

  /** Nothing in `s` means anything in this mode; inside code stars do not. */
  predicate Meaningless(s: seq<Byte>, m: Mode) {
    forall i :: 0 <= i < |s| ==> s[i] != 0x5C && s[i] != 0x60 && (m.code || s[i] != 0x2A)
  }

  /** Such text is taken as it is. */
  lemma {:induction false} ParseRun(a: seq<Byte>, rest: seq<Byte>, m: Mode, buf: seq<Byte>)
    requires Meaningless(a, m)
    ensures Parse(a + rest, m, buf) == Parse(rest, m, buf + a)
  {
    if a == [] {
      assert a + rest == rest && buf + a == buf;
    } else {
      assert (a + rest)[1..] == a[1..] + rest && buf + [a[0]] + a[1..] == buf + a;
      ParseRun(a[1..], rest, m, buf + [a[0]]);
    }
  }

  lemma ParseLast(a: seq<Byte>, m: Mode, buf: seq<Byte>)
    requires Meaningless(a, m) && buf + a != []
    ensures Parse(a, m, buf) == [Span(buf + a, m)]
  {
    ParseRun(a, [], m, buf);
    ConcatEmpty(a);
  }

  lemma NoClosing(s: seq<Byte>, marker: seq<Byte>)
    requires marker != [] && marker[0] !in s
    ensures !HasClosing(s, marker)
  {
    forall i: nat | i < |s| ensures !At(s, i, marker) {
      if i + |marker| <= |s| {
        assert s[i..i + |marker|][0] == s[i];
      }
    }
  }

  /** A marker with nothing to close it is text: a star, two stars, a backtick. */
  lemma UnclosedIsText(a: seq<Byte>, marker: seq<Byte>, b: seq<Byte>)
    requires marker == [0x2A] || marker == [0x2A, 0x2A] || marker == [0x60]
    requires Meaningless(a, PLAIN) && Meaningless(b, PLAIN)
    ensures Parse(a + (marker + b), PLAIN, []) == [Span(a + marker + b, PLAIN)]
  {
    ParseRun(a, marker + b, PLAIN, []);
    assert [] + a == a && (marker + b)[|marker|..] == b;
    assert marker[0] !in b;
    NoClosing(b, marker);
    ParseLast(b, PLAIN, a + marker);
  }

  /** A backslash makes a character of whatever follows it, and is one at the end. */
  lemma EscapedIsText(a: seq<Byte>, c: Byte, b: seq<Byte>)
    requires Meaningless(a, PLAIN) && Meaningless(b, PLAIN)
    ensures Parse(a + ([0x5C, c] + b), PLAIN, []) == [Span(a + [c] + b, PLAIN)]
    ensures Parse(a + [0x5C], PLAIN, []) == [Span(a + [0x5C], PLAIN)]
  {
    ParseRun(a, [0x5C, c] + b, PLAIN, []);
    ParseRun(a, [0x5C], PLAIN, []);
    assert [] + a == a && ([0x5C, c] + b)[2..] == b && [0x5C][1..] == [];
    ParseLast(b, PLAIN, a + [c]);
  }

  lemma OpensCode(rest: seq<Byte>, n: nat)
    requires n < |rest| && rest[n] == 0x60
    ensures Parse([0x60] + rest, PLAIN, []) == Parse(rest, Mode(false, false, true), [])
  {
    assert ([0x60] + rest)[1..] == rest && rest[n..n + 1] == [0x60];
    assert At(rest, n, [0x60]);
    assert [] + Parse(rest, Mode(false, false, true), []) == Parse(rest, Mode(false, false, true), []);
  }

  lemma ClosesCode(a: seq<Byte>)
    requires a != []
    ensures Parse([0x60], Mode(false, false, true), a) == [Span(a, Mode(false, false, true))]
  {
    assert [0x60][1..] == [] && Parse([], PLAIN, []) == [];
  }

  /** Between backticks stars are text. */
  lemma CodeIsVerbatim(a: seq<Byte>)
    requires a != [] && forall i :: 0 <= i < |a| ==> a[i] != 0x5C && a[i] != 0x60
    ensures Parse([0x60] + (a + [0x60]), PLAIN, []) == [Span(a, Mode(false, false, true))]
  {
    var code, rest := Mode(false, false, true), a + [0x60];
    OpensCode(rest, |a|);
    ParseRun(a, [0x60], code, []);
    assert [] + a == a;
    ClosesCode(a);
  }

  // ----- How a span looks -----

  /** What the codes in force make of a character; `colour` is the code of its colour. */
  datatype Look = Look(bold: bool, italic: bool, colour: seq<Byte>)

  const UNSTYLED := Look(false, false, [])

  /** Code 1 makes bold, code 3 italic, and any other here is a colour (section 8.3.117 of ECMA-48). */
  function With(look: Look, code: seq<Byte>): Look {
    if code == [0x1B, 0x5B, 0x31, 0x6D] then look.(bold := true)
    else if code == [0x1B, 0x5B, 0x33, 0x6D] then look.(italic := true)
    else look.(colour := code)
  }

  function LookOf(pen: Pen, look: Look): Look
    decreases |pen|
  {
    if pen == [] || pen[0] != 0x1B then look
    else
      var n := EscapeLength(pen);
      LookOf(pen[n..], With(look, pen[..n]))
  }

  ghost predicate TurnsBefore(code: Pen, look: Look, look': Look, rest: Pen) {
    LookOf(code + rest, look) == LookOf(rest, look')
  }

  /** The code turns one look into the other, whatever follows it. */
  ghost predicate Turns(code: Pen, look: Look, look': Look) {
    forall rest :: TurnsBefore(code, look, look', rest)
  }

  lemma TurnsEmpty(look: Look)
    ensures Turns([], look, look)
  {
    forall rest: Pen ensures TurnsBefore([], look, look, rest) {
      assert [] + rest == rest;
    }
  }

  lemma TurnsSgr(body: seq<Byte>, look: Look)
    requires NoFinal(body)
    ensures Turns(Sgr(body), look, With(look, Sgr(body)))
  {
    SgrEnds(body);
    var code := Sgr(body);
    forall rest ensures TurnsBefore(code, look, With(look, code), rest) {
      assert EscapeLength(code + rest) == |code| && (code + rest)[..|code|] == code && (code + rest)[|code|..] == rest;
    }
  }

  lemma TurnsConcat(a: Pen, b: Pen, l0: Look, l1: Look, l2: Look)
    requires Turns(a, l0, l1) && Turns(b, l1, l2)
    ensures Turns(a + b, l0, l2)
  {
    forall rest ensures TurnsBefore(a + b, l0, l2, rest) {
      ConcatAssociates(a, b, rest);
      assert TurnsBefore(a, l0, l1, b + rest) && TurnsBefore(b, l1, l2, rest);
    }
  }

  lemma TurnedInto(code: Pen, look: Look, look': Look)
    requires Turns(code, look, look')
    ensures LookOf(code, look) == look'
  {
    assert TurnsBefore(code, look, look', []);
    ConcatEmpty(code);
  }

  lemma TurnsItalic(b: bool, look: Look)
    ensures Turns(If(b, ITALIC), look, look.(italic := look.italic || b))
  {
    TurnsEmpty(look);
    TurnsSgr([0x33], look);
    assert ITALIC == [0x1B, 0x5B, 0x33, 0x6D];
  }

  lemma TurnsBold(b: bool, look: Look)
    ensures Turns(If(b, BOLD), look, look.(bold := look.bold || b))
  {
    TurnsEmpty(look);
    TurnsSgr([0x31], look);
    assert BOLD == [0x1B, 0x5B, 0x31, 0x6D];
  }

  /** The look in a colour, if there is one. */
  function Coloured(look: Look, c: Option<Rgb>): Look {
    if c.None? then look else look.(colour := Sgr(FgBody(c.value)))
  }

  lemma TurnsColour(c: Option<Rgb>, look: Look)
    ensures Turns(Fg(c), look, Coloured(look, c))
  {
    if c.None? {
      TurnsEmpty(look);
    } else {
      TurnsSgr(FgBody(c.value), look);
      assert |Sgr(FgBody(c.value))| > 4;
    }
  }

  lemma TurnsBase(style: Style)
    ensures Turns(Base(style), UNSTYLED, Coloured(Look(style.baseBold, style.baseItalic, []), style.baseFG))
  {
    var l1, l2 := Look(false, style.baseItalic, []), Look(style.baseBold, style.baseItalic, []);
    var i, b := If(style.baseItalic, ITALIC), If(style.baseBold, BOLD);
    TurnsItalic(style.baseItalic, UNSTYLED);
    TurnsBold(style.baseBold, l1);
    TurnsColour(style.baseFG, l2);
    TurnsConcat(i, b, UNSTYLED, l1, l2);
    TurnsConcat(i + b, Fg(style.baseFG), UNSTYLED, l2, Coloured(l2, style.baseFG));
  }

  /** What code and bold text add to a look. */
  function Coded(style: Style, m: Mode, look: Look): Look {
    if m.code then Coloured(look, style.codeFG) else look
  }

  function Bolded(style: Style, m: Mode, look: Look): Look {
    if m.bold then Coloured(look.(bold := true), style.boldFG) else look
  }

  lemma TurnsCoded(style: Style, m: Mode, look: Look)
    ensures Turns(If(m.code, Fg(style.codeFG)), look, Coded(style, m, look))
  {
    TurnsEmpty(look);
    TurnsColour(style.codeFG, look);
  }

  lemma TurnsBolded(style: Style, m: Mode, look: Look)
    ensures Turns(If(m.bold, BOLD + Fg(style.boldFG)), look, Bolded(style, m, look))
  {
    if m.bold {
      TurnsBold(true, look);
      TurnsColour(style.boldFG, look.(bold := true));
      TurnsConcat(BOLD, Fg(style.boldFG), look, look.(bold := true), Bolded(style, m, look));
    } else {
      TurnsEmpty(look);
    }
  }

  /** The colour of a span: that of bold text, else that of code, else that of the text around. */
  function ColourOf(style: Style, m: Mode): Option<Rgb> {
    if m.bold && style.boldFG.Some? then style.boldFG
    else if m.code && style.codeFG.Some? then style.codeFG
    else style.baseFG
  }

  lemma TurnsStyle(style: Style, m: Mode)
    ensures var l0 := Coloured(Look(style.baseBold, style.baseItalic, []), style.baseFG);
            var l2 := Bolded(style, m, Coded(style, m, l0));
            Turns(StyleFor(style, m), UNSTYLED, l2.(italic := l2.italic || m.italic))
  {
    var l0 := Coloured(Look(style.baseBold, style.baseItalic, []), style.baseFG);
    var l1 := Coded(style, m, l0);
    var l2 := Bolded(style, m, l1);
    var c, b, i := If(m.code, Fg(style.codeFG)), If(m.bold, BOLD + Fg(style.boldFG)), If(m.italic, ITALIC);
    TurnsBase(style);
    TurnsCoded(style, m, l0);
    TurnsBolded(style, m, l1);
    TurnsItalic(m.italic, l2);
    TurnsConcat(Base(style), c, UNSTYLED, l0, l1);
    TurnsConcat(Base(style) + c, b, UNSTYLED, l1, l2);
    TurnsConcat(Base(style) + c + b, i, UNSTYLED, l2, l2.(italic := l2.italic || m.italic));
  }

  /** A span is bold or italic if it or the text around it is, and has its own colour if there is one. */
  lemma SpanLooks(style: Style, m: Mode)
    ensures LookOf(StyleFor(style, m), UNSTYLED) ==
            Coloured(Look(style.baseBold || m.bold, style.baseItalic || m.italic, []), ColourOf(style, m))
  {
    var l0 := Coloured(Look(style.baseBold, style.baseItalic, []), style.baseFG);
    var l2 := Bolded(style, m, Coded(style, m, l0));
    TurnsStyle(style, m);
    TurnedInto(StyleFor(style, m), UNSTYLED, l2.(italic := l2.italic || m.italic));
  }

  /** The code of a colour names red, green and blue in this order. */
  lemma ColourCode(c: Rgb)
    ensures Sgr(FgBody(c)) ==
            [0x1B, 0x5B, 0x33, 0x38, 0x3B, 0x32] + Param(c.r, []) + Param(c.g, []) + Param(c.b, []) + [0x6D]
    ensures Param(c.r, []) == [0x3B] + Itoa(c.r)
  {
    var r, g, b: seq<Byte> := [0x3B] + Itoa(c.r), [0x3B] + Itoa(c.g), [0x3B] + Itoa(c.b);
    ConcatEmpty(r);
    ConcatEmpty(g);
    ConcatEmpty(b);
    var head: seq<Byte> := [0x33, 0x38, 0x3B, 0x32];
    ConcatAssociates(r, g, b);
    ConcatAssociates(head, r + g, b);
    ConcatAssociates(head, r, g);
    FlatCode(head, r, g, b);
  }

  lemma FlatCode(head: seq<Byte>, r: seq<Byte>, g: seq<Byte>, b: seq<Byte>)
    ensures Sgr(head + r + g + b) == [0x1B, 0x5B] + head + r + g + b + [0x6D]
  {
    var start: seq<Byte> := [0x1B, 0x5B];
    ConcatAssociates(start, head + r + g, b);
    ConcatAssociates(start, head + r, g);
    ConcatAssociates(start, head, r);
  }

  /** The number that decimal digits spell. */
  function NumberOf(s: seq<Byte>): int {
    if s == [] then 0 else NumberOf(s[..|s|-1]) * 10 + (s[|s|-1] as int - 0x30)
  }

  /** Numbers are written in decimal digits without leading zeros. */
  lemma {:induction false} DigitsSpell(n: nat)
    ensures var s := Digits(n);
            && s != [] && NumberOf(s) == n && (forall i :: 0 <= i < |s| ==> 0x30 <= s[i] <= 0x39)
            && (s[0] == 0x30 ==> n == 0) && (n == 0 ==> s == [0x30])
  {
    if n >= 10 {
      DigitsSpell(n / 10);
      assert Digits(n)[..|Digits(n)|-1] == Digits(n / 10);
    } else {
      assert Digits(n)[..0] == [];
    }
  }
}
