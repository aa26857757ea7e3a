/** The inline markdown parser: `**bold**`, `*italic*`, `` `code` `` and backslash escapes. */
module InlineMarkdown {
  import opened Text
  import opened Seqs

  const TICK: Byte := 0x60
  const STAR: Byte := 0x2A

  datatype Mode = Mode(bold: bool, italic: bool, code: bool)

  const PLAIN := Mode(false, false, false)

  datatype Span = Span(text: seq<Byte>, mode: Mode)

  predicate At(s: seq<Byte>, i: nat, marker: seq<Byte>) {
    i + |marker| <= |s| && s[i..i + |marker|] == marker
  }

  /** `hasClosing` */
  predicate HasClosing(remaining: seq<Byte>, marker: seq<Byte>) {
    marker != [] && exists i: nat :: i < |remaining| && At(remaining, i, marker)
  }

  /** What is read next: text, or a marker that ends the span and changes the mode. */
  datatype Next = Take(size: nat, text: seq<Byte>) | Toggle(size: nat, mode: Mode)

  function Ahead(s: seq<Byte>, m: Mode): (k: Next)
    requires s != []
    ensures 1 <= k.size <= |s|
  {
    if s[0] == BACKSLASH && |s| > 1 then Take(2, [s[1]])
    else if s[0] == TICK && (m.code || HasClosing(s[1..], [TICK])) then Toggle(1, m.(code := !m.code))
    else if s[0] == STAR && !m.code then
      if |s| > 1 && s[1] == STAR then
        if m.bold || HasClosing(s[2..], [STAR, STAR]) then Toggle(2, m.(bold := !m.bold)) else Take(2, [STAR, STAR])
      else if m.italic || HasClosing(s[1..], [STAR]) then Toggle(1, m.(italic := !m.italic))
      else Take(1, [STAR])
    else Take(1, [s[0]])
  }

  function Cut(buf: seq<Byte>, m: Mode): seq<Span> {
    if buf == [] then [] else [Span(buf, m)]
  }

  function Parse(s: seq<Byte>, m: Mode, buf: seq<Byte>): seq<Span> {
    if s == [] then Cut(buf, m)
    else
      var k := Ahead(s, m);
      if k.Take? then Parse(s[k.size..], m, buf + k.text) else Cut(buf, m) + Parse(s[k.size..], k.mode, [])
  }

  // ----- The parser -----

  /** What has been cut and what is still to come make up the whole. */
  ghost predicate Parsed(all: seq<Span>, spans: seq<Span>, rest: seq<Byte>, m: Mode, buf: seq<Byte>) {
    spans + Parse(rest, m, buf) == all
  }

  lemma ParsedToggles(all: seq<Span>, spans: seq<Span>, rest: seq<Byte>, m: Mode, buf: seq<Byte>)
    requires rest != [] && Parsed(all, spans, rest, m, buf) && Ahead(rest, m).Toggle?
    ensures var k := Ahead(rest, m); Parsed(all, spans + Cut(buf, m), rest[k.size..], k.mode, [])
  {
    var k := Ahead(rest, m);
    ConcatAssociates(spans, Cut(buf, m), Parse(rest[k.size..], k.mode, []));
  }

  /** One round of the loop below. */
  method ParseRound(ghost all: seq<Span>, spans0: seq<Span>, rest: seq<Byte>, m: Mode, buf0: seq<Byte>)
    returns (spans: seq<Span>, size: nat, m': Mode, buf: seq<Byte>)
    requires rest != [] && Parsed(all, spans0, rest, m, buf0)
    ensures 1 <= size <= |rest| && Parsed(all, spans, rest[size..], m', buf)
  {
    spans, m' := spans0, m;
    var ch := rest[0];
    ghost var k := Ahead(rest, m);
    if ch == BACKSLASH && |rest| > 1 {
      return spans0, 2, m, buf0 + [rest[1]];
    }
    if ch == TICK && (m.code || HasClosing(rest[1..], [TICK])) {
      ParsedToggles(all, spans0, rest, m, buf0);
      return spans0 + Cut(buf0, m), 1, m.(code := !m.code), [];
    }
    if !m.code && ch == STAR {
      if |rest| > 1 && rest[1] == STAR {
        if m.bold || HasClosing(rest[2..], [STAR, STAR]) {
          ParsedToggles(all, spans0, rest, m, buf0);
          return spans0 + Cut(buf0, m), 2, m.(bold := !m.bold), [];
        }
        return spans0, 2, m, buf0 + [STAR, STAR];
      }
      if m.italic || HasClosing(rest[1..], [STAR]) {
        ParsedToggles(all, spans0, rest, m, buf0);
        return spans0 + Cut(buf0, m), 1, m.(italic := !m.italic), [];
      }
    }
    return spans0, 1, m, buf0 + [ch];
  }

  /** `ParseInline` */
  method ParseInline(input: seq<Byte>) returns (spans: seq<Span>)
    ensures spans == Parse(input, PLAIN, [])
  {
    ghost var all := Parse(input, PLAIN, []);
    var m, buf: seq<Byte>, rest := PLAIN, [], input;
    spans := [];
    while rest != []
      invariant Parsed(all, spans, rest, m, buf)
      decreases |rest|
    {
      var size;
      spans, size, m, buf := ParseRound(all, spans, rest, m, buf);
      rest := rest[size..];
    }
    spans := spans + Cut(buf, m);
  }

  // ----- Only markers are dropped -----

  predicate Marker(b: Byte) {
    b == BACKSLASH || b == TICK || b == STAR
  }

  /** The bytes that are no markers. */
  function Unmarked(s: seq<Byte>): seq<Byte> {
    if s == [] then [] else (if Marker(s[0]) then [] else [s[0]]) + Unmarked(s[1..])
  }

  lemma {:induction false} UnmarkedConcat(a: seq<Byte>, b: seq<Byte>)
    ensures Unmarked(a + b) == Unmarked(a) + Unmarked(b)
  {
    if a == [] {
      assert a + b == b;
    } else {
      assert (a + b)[1..] == a[1..] + b;
      UnmarkedConcat(a[1..], b);
    }
  }

  /** All the text of the spans, in order. */
  function TextOf(spans: seq<Span>): seq<Byte> {
    if spans == [] then [] else spans[0].text + TextOf(spans[1..])
  }

  lemma TextOfCut(buf: seq<Byte>, m: Mode, more: seq<Span>)
    ensures TextOf(Cut(buf, m) + more) == buf + TextOf(more)
  {
    if buf == [] {
      assert Cut(buf, m) + more == more;
    } else {
      assert (Cut(buf, m) + more)[1..] == more;
    }
  }

  lemma UnmarkedTwo(a: Byte, b: Byte)
    ensures Unmarked([a, b]) == (if Marker(a) then [] else [a]) + if Marker(b) then [] else [b]
  {
    assert [a, b][1..] == [b] && [b][1..] == [];
    assert Unmarked([b]) == (if Marker(b) then [] else [b]) + Unmarked([]);
  }

  lemma AheadKeeps(s: seq<Byte>, m: Mode)
    requires s != []
    ensures var k := Ahead(s, m); Unmarked(s[..k.size]) == if k.Take? then Unmarked(k.text) else []
  {
    var k := Ahead(s, m);
    if k.size == 1 {
      assert s[..1] == [s[0]] && [s[0]][1..] == [];
    } else {
      assert s[..2] == [s[0], s[1]] && [s[1]][1..] == [];
      UnmarkedTwo(s[0], s[1]);
      UnmarkedTwo(STAR, STAR);
    }
  }

  /** The parser drops no byte that is no marker; no span is empty. */
  lemma {:induction false} ParseKeepsText(s: seq<Byte>, m: Mode, buf: seq<Byte>)
    ensures Unmarked(TextOf(Parse(s, m, buf))) == Unmarked(buf) + Unmarked(s)
    ensures forall i :: 0 <= i < |Parse(s, m, buf)| ==> Parse(s, m, buf)[i].text != []
    decreases |s|
  {
    if s == [] {
      TextOfCut(buf, m, []);
      assert Cut(buf, m) + [] == Cut(buf, m);
      assert buf + [] == buf;
      assert Unmarked(buf) + [] == Unmarked(buf);
    } else {
      var k := Ahead(s, m);
      var rest := s[k.size..];
      AheadKeeps(s, m);
      assert s == s[..k.size] + rest;
      UnmarkedConcat(s[..k.size], rest);
      if k.Take? {
        ParseKeepsText(rest, m, buf + k.text);
        UnmarkedConcat(buf, k.text);
        ConcatAssociates(Unmarked(buf), Unmarked(k.text), Unmarked(rest));
      } else {
        ParseKeepsText(rest, k.mode, []);
        TextOfCut(buf, m, Parse(rest, k.mode, []));
        UnmarkedConcat(buf, TextOf(Parse(rest, k.mode, [])));
        assert [] + Unmarked(rest) == Unmarked(rest);
      }
    }
  }

  lemma {:induction false} BufferComesFirst(s: seq<Byte>, m: Mode, buf: seq<Byte>)
    ensures TextOf(Parse(s, m, buf)) == buf + TextOf(Parse(s, m, []))
    decreases |s|
  {
    TextOfCut(buf, m, []);
    ConcatEmpty(Cut(buf, m));
    ConcatEmpty(buf);
    if s != [] {
      var k := Ahead(s, m);
      var rest := s[k.size..];
      if k.Take? {
        BufferComesFirst(rest, m, buf + k.text);
        BufferComesFirst(rest, m, [] + k.text);
        assert [] + k.text == k.text;
        ConcatAssociates(buf, k.text, TextOf(Parse(rest, m, [])));
      } else {
        TextOfCut(buf, m, Parse(rest, k.mode, []));
        TextOfCut([], m, Parse(rest, k.mode, []));
        assert [] + TextOf(Parse(rest, k.mode, [])) == TextOf(Parse(rest, k.mode, []));
      }
    }
  }

  lemma AheadAddsNothing(s: seq<Byte>, m: Mode)
    requires s != [] && Ahead(s, m).Take?
    ensures var k := Ahead(s, m); Subsequence(k.text, s[..k.size])
  {
    var k := Ahead(s, m);
    if k.size == 1 {
      assert k.text == s[..1] && s[..1][1..] == [] && k.text[1..] == [];
    } else {
      var head := s[..2];
      assert head[1..] == [s[1]] && head[1..][1..] == [];
      assert k.text == [s[1]] || k.text == head;
      assert [s[1]][1..] == [];
      assert Subsequence([s[1]], head[1..]);
    }
  }

  /** The text of the spans is the input with bytes left out: the parser adds none, and keeps their order. */
  lemma {:induction false} ParseAddsNothing(s: seq<Byte>, m: Mode)
    ensures Subsequence(TextOf(Parse(s, m, [])), s)
    decreases |s|
  {
    if s != [] {
      var k := Ahead(s, m);
      var rest := s[k.size..];
      assert s == s[..k.size] + rest;
      if k.Take? {
        ParseAddsNothing(rest, m);
        BufferComesFirst(rest, m, [] + k.text);
        assert [] + k.text == k.text;
        AheadAddsNothing(s, m);
        SubsequenceConcat(k.text, s[..k.size], TextOf(Parse(rest, m, [])), rest);
      } else {
        ParseAddsNothing(rest, k.mode);
        TextOfCut([], m, Parse(rest, k.mode, []));
        assert [] + TextOf(Parse(rest, k.mode, [])) == TextOf(Parse(rest, k.mode, []));
        SubsequenceBehind(TextOf(Parse(rest, k.mode, [])), s[..k.size], rest);
      }
    }
  }

  // ----- Writing spans down and reading them back -----

  function Escape(text: seq<Byte>): (s: seq<Byte>)
    ensures text != [] ==> s != [] && s[0] != STAR && s[0] != TICK
  {
    if text == [] then []
    else (if Marker(text[0]) then [BACKSLASH, text[0]] else [text[0]]) + Escape(text[1..])
  }

  function If(b: bool, s: seq<Byte>): seq<Byte> {
    if b then s else []
  }

  function Opening(m: Mode): seq<Byte> {
    If(m.bold, [STAR, STAR]) + If(m.italic, [STAR]) + If(m.code, [TICK])
  }

  function Closing(m: Mode): seq<Byte> {
    If(m.code, [TICK]) + If(m.bold, [STAR, STAR]) + If(m.italic, [STAR])
  }

  /** The span in markdown, in front of more. */
  function Written(spans: seq<Span>): seq<Byte> {
    if spans == [] then []
    else Opening(spans[0].mode) + (Escape(spans[0].text) + (Closing(spans[0].mode) + Written(spans[1..])))
  }

  /** Two spans that stay apart when one is written after the other. */
  predicate Apart(a: Span, b: Span) {
    && (a.mode == PLAIN ==> b.mode != PLAIN)
    && (a.mode.italic ==> !b.mode.bold && !b.mode.italic)
  }

  predicate Writable(spans: seq<Span>) {
    && (forall i :: 0 <= i < |spans| ==> spans[i].text != [])
    && (forall i :: 0 < i < |spans| ==> Apart(spans[i - 1], spans[i]))
  }

  lemma EscapedByte(b: Byte, more: seq<Byte>, m: Mode, buf: seq<Byte>)
    ensures Parse((if Marker(b) then [BACKSLASH, b] else [b]) + more, m, buf) == Parse(more, m, buf + [b])
  {
    if Marker(b) {
      assert ([BACKSLASH, b] + more)[2..] == more;
    } else {
      assert ([b] + more)[1..] == more;
    }
  }

  lemma {:induction false} ParseEscaped(text: seq<Byte>, rest: seq<Byte>, m: Mode, buf: seq<Byte>)
    ensures Parse(Escape(text) + rest, m, buf) == Parse(rest, m, buf + text)
  {
    if text == [] {
      assert Escape(text) + rest == rest && buf + text == buf;
    } else {
      var b := text[0];
      ConcatAssociates(if Marker(b) then [BACKSLASH, b] else [b], Escape(text[1..]), rest);
      EscapedByte(b, Escape(text[1..]) + rest, m, buf);
      ParseEscaped(text[1..], rest, m, buf + [b]);
      assert buf + [b] + text[1..] == buf + text;
    }
  }

  lemma ParseMarker(s: seq<Byte>, marker: seq<Byte>, m: Mode, buf: seq<Byte>, m': Mode)
    requires marker != [] && Ahead(marker + s, m) == Toggle(|marker|, m')
    ensures Parse(marker + s, m, buf) == Cut(buf, m) + Parse(s, m', [])
  {
    assert (marker + s)[|marker|..] == s;
  }

  lemma Split(a: seq<Byte>, b: seq<Byte>, c: seq<Byte>, d: seq<Byte>)
    ensures a + b + c + d == a + (b + (c + d))
  {}

  lemma ClosingHere(marker: seq<Byte>, s: seq<Byte>)
    requires marker != []
    ensures HasClosing(marker + s, marker)
  {
    assert At(marker + s, 0, marker);
  }

  lemma ClosingBehind(a: seq<Byte>, s: seq<Byte>, marker: seq<Byte>)
    requires HasClosing(s, marker)
    ensures HasClosing(a + s, marker)
  {
    var i: nat :| i < |s| && At(s, i, marker);
    assert (a + s)[|a| + i..|a| + i + |marker|] == s[i..i + |marker|];
    assert At(a + s, |a| + i, marker);
  }

  /** The rest of a span once its opening is read, in front of more. */
  function Body(text: seq<Byte>, m: Mode, more: seq<Byte>): seq<Byte> {
    Escape(text) + (Closing(m) + more)
  }

  /** Every marker the span opens with has one that closes it. */
  lemma BodyCloses(text: seq<Byte>, m: Mode, more: seq<Byte>)
    ensures var b := Body(text, m, more);
      && (m.code ==> HasClosing(b, [TICK]))
      && (m.bold ==> HasClosing(b, [STAR, STAR]))
      && (m.italic ==> HasClosing(b, [STAR]))
  {
    var i := If(m.italic, [STAR]) + more;
    var b := If(m.bold, [STAR, STAR]) + i;
    var c := If(m.code, [TICK]) + b;
    Split(If(m.code, [TICK]), If(m.bold, [STAR, STAR]), If(m.italic, [STAR]), more);
    if m.code {
      ClosingHere([TICK], b);
      ClosingBehind(Escape(text), c, [TICK]);
    }
    if m.bold {
      ClosingHere([STAR, STAR], i);
      ClosingBehind(If(m.code, [TICK]), b, [STAR, STAR]);
      ClosingBehind(Escape(text), c, [STAR, STAR]);
    }
    if m.italic {
      ClosingHere([STAR], more);
      ClosingBehind(If(m.bold, [STAR, STAR]), i, [STAR]);
      ClosingBehind(If(m.code, [TICK]), b, [STAR]);
      ClosingBehind(Escape(text), c, [STAR]);
    }
  }

  lemma CodeOpens(text: seq<Byte>, m: Mode, more: seq<Byte>)
    requires m.code
    ensures Ahead([TICK] + Body(text, m, more), m.(code := false)) == Toggle(1, m)
  {
    var b := Body(text, m, more);
    assert ([TICK] + b)[1..] == b;
    BodyCloses(text, m, more);
  }

  lemma ItalicOpens(text: seq<Byte>, m: Mode, more: seq<Byte>)
    requires m.italic && text != []
    ensures Ahead([STAR] + (If(m.code, [TICK]) + Body(text, m, more)), Mode(m.bold, false, false))
         == Toggle(1, Mode(m.bold, true, false))
  {
    var c := If(m.code, [TICK]) + Body(text, m, more);
    assert ([STAR] + c)[1..] == c && c[0] != STAR;
    BodyCloses(text, m, more);
    ClosingBehind(If(m.code, [TICK]), Body(text, m, more), [STAR]);
  }

  lemma BoldOpens(text: seq<Byte>, m: Mode, more: seq<Byte>)
    requires m.bold
    ensures Ahead([STAR, STAR] + (If(m.italic, [STAR]) + (If(m.code, [TICK]) + Body(text, m, more))), PLAIN)
         == Toggle(2, Mode(true, false, false))
  {
    var c := If(m.code, [TICK]) + Body(text, m, more);
    var i := If(m.italic, [STAR]) + c;
    assert ([STAR, STAR] + i)[2..] == i;
    BodyCloses(text, m, more);
    ClosingBehind(If(m.code, [TICK]), Body(text, m, more), [STAR, STAR]);
    ClosingBehind(If(m.italic, [STAR]), c, [STAR, STAR]);
  }

  /** Where the parser is: what is left to read, the mode, and the text of the span so far. */
  datatype Place = Place(s: seq<Byte>, m: Mode, buf: seq<Byte>)

  function ParseAt(p: Place): seq<Span> {
    Parse(p.s, p.m, p.buf)
  }

  /** Past a marker that may be there. */
  function Past(b: bool, p: Place, s: seq<Byte>, m: Mode): Place {
    if b then Place(s, m, []) else Place(s, p.m, p.buf)
  }

  /** What a marker that may be there gives out. */
  function Out(b: bool, p: Place): seq<Span> {
    if b then Cut(p.buf, p.m) else []
  }

  lemma MarkerPassed(b: bool, marker: seq<Byte>, p: Place, s: seq<Byte>, m: Mode)
    requires p.s == If(b, marker) + s && (b ==> marker != [] && Ahead(p.s, p.m) == Toggle(|marker|, m))
    ensures Leads(p, Out(b, p), Past(b, p, s, m))
  {
    if b {
      ParseMarker(s, marker, p.m, p.buf, m);
    } else {
      assert p.s == s;
    }
  }

  /** One place leads to another, with the given spans on the way. */
  ghost predicate Leads(p: Place, out: seq<Span>, q: Place) {
    ParseAt(p) == out + ParseAt(q)
  }

  lemma LeadsOn(p: Place, o: seq<Span>, q: Place, o': seq<Span>, r: Place)
    requires Leads(p, o, q) && Leads(q, o', r)
    ensures Leads(p, o + o', r)
  {
    ConcatAssociates(o, o', ParseAt(r));
  }

  /** The opening's markers, one by one. */
  lemma MarkersOpen(text: seq<Byte>, m: Mode, b: seq<Byte>, c: seq<Byte>, i: seq<Byte>, more: seq<Byte>,
                    p0: Place, p1: Place, p2: Place, p3: Place)
    requires b == Body(text, m, more) && c == If(m.code, [TICK]) + b && i == If(m.italic, [STAR]) + c && text != []
    requires p0.s == If(m.bold, [STAR, STAR]) + i && p0.m == PLAIN
    requires p1 == Past(m.bold, p0, i, Mode(true, false, false))
    requires p2 == Past(m.italic, p1, c, Mode(m.bold, true, false)) && p3 == Past(m.code, p2, b, m)
    ensures Leads(p0, Out(m.bold, p0), p1) && Leads(p1, Out(m.italic, p1), p2) && Leads(p2, Out(m.code, p2), p3)
  {
    if m.bold { BoldOpens(text, m, more); }
    MarkerPassed(m.bold, [STAR, STAR], p0, i, Mode(true, false, false));
    if m.italic { ItalicOpens(text, m, more); }
    MarkerPassed(m.italic, [STAR], p1, c, Mode(m.bold, true, false));
    if m.code { CodeOpens(text, m, more); }
    MarkerPassed(m.code, [TICK], p2, b, m);
  }

  /** The opening ends what came before it and sets the mode. */
  lemma SpanOpens(text: seq<Byte>, m: Mode, more: seq<Byte>, buf: seq<Byte>)
    requires text != [] && m != PLAIN
    ensures Leads(Place(Opening(m) + Body(text, m, more), PLAIN, buf), Cut(buf, PLAIN),
                  Place(Body(text, m, more), m, []))
  {
    var b := Body(text, m, more);
    var c := If(m.code, [TICK]) + b;
    var i := If(m.italic, [STAR]) + c;
    Split(If(m.bold, [STAR, STAR]), If(m.italic, [STAR]), If(m.code, [TICK]), b);
    var p0 := Place(Opening(m) + b, PLAIN, buf);
    var p1 := Past(m.bold, p0, i, Mode(true, false, false));
    var p2 := Past(m.italic, p1, c, Mode(m.bold, true, false));
    var p3 := Past(m.code, p2, b, m);
    MarkersOpen(text, m, b, c, i, more, p0, p1, p2, p3);
    LeadsOn(p0, Out(m.bold, p0), p1, Out(m.italic, p1), p2);
    LeadsOn(p0, Out(m.bold, p0) + Out(m.italic, p1), p2, Out(m.code, p2), p3);
    assert Out(m.bold, p0) + Out(m.italic, p1) + Out(m.code, p2) == Cut(buf, PLAIN);
  }

  lemma CodeCloses(m: Mode, s: seq<Byte>)
    requires m.code
    ensures Ahead([TICK] + s, m) == Toggle(1, m.(code := false))
  {}

  lemma BoldCloses(m: Mode, s: seq<Byte>)
    requires m.bold && !m.code
    ensures Ahead([STAR, STAR] + s, m) == Toggle(2, m.(bold := false))
  {}

  lemma ItalicCloses(m: Mode, s: seq<Byte>)
    requires m.italic && !m.code && (s != [] ==> s[0] != STAR)
    ensures Ahead([STAR] + s, m) == Toggle(1, m.(italic := false))
  {}

  /** The closing's markers, one by one. */
  lemma MarkersClose(m: Mode, more: seq<Byte>, i: seq<Byte>, b: seq<Byte>, p0: Place, p1: Place, p2: Place, p3: Place)
    requires (m.italic && more != [] ==> more[0] != STAR) && i == If(m.italic, [STAR]) + more
    requires b == If(m.bold, [STAR, STAR]) + i && p0.s == If(m.code, [TICK]) + b && p0.m == m
    requires p1 == Past(m.code, p0, b, Mode(m.bold, m.italic, false))
    requires p2 == Past(m.bold, p1, i, Mode(false, m.italic, false)) && p3 == Past(m.italic, p2, more, PLAIN)
    ensures Leads(p0, Out(m.code, p0), p1) && Leads(p1, Out(m.bold, p1), p2) && Leads(p2, Out(m.italic, p2), p3)
  {
    if m.code { CodeCloses(m, b); }
    MarkerPassed(m.code, [TICK], p0, b, Mode(m.bold, m.italic, false));
    if m.bold { BoldCloses(p1.m, i); }
    MarkerPassed(m.bold, [STAR, STAR], p1, i, Mode(false, m.italic, false));
    if m.italic { ItalicCloses(p2.m, more); }
    MarkerPassed(m.italic, [STAR], p2, more, PLAIN);
  }

  /** The closing ends the span and leaves plain text. */
  lemma SpanCloses(m: Mode, more: seq<Byte>, text: seq<Byte>)
    requires text != [] && m != PLAIN && (m.italic && more != [] ==> more[0] != STAR)
    ensures Leads(Place(Closing(m) + more, m, text), [Span(text, m)], Place(more, PLAIN, []))
  {
    var i := If(m.italic, [STAR]) + more;
    var b := If(m.bold, [STAR, STAR]) + i;
    Split(If(m.code, [TICK]), If(m.bold, [STAR, STAR]), If(m.italic, [STAR]), more);
    var p0 := Place(Closing(m) + more, m, text);
    var p1 := Past(m.code, p0, b, Mode(m.bold, m.italic, false));
    var p2 := Past(m.bold, p1, i, Mode(false, m.italic, false));
    var p3 := Past(m.italic, p2, more, PLAIN);
    MarkersClose(m, more, i, b, p0, p1, p2, p3);
    LeadsOn(p0, Out(m.code, p0), p1, Out(m.bold, p1), p2);
    LeadsOn(p0, Out(m.code, p0) + Out(m.bold, p1), p2, Out(m.italic, p2), p3);
    assert Out(m.code, p0) + Out(m.bold, p1) + Out(m.italic, p2) == [Span(text, m)];
  }

  lemma WritableTail(spans: seq<Span>)
    requires spans != [] && Writable(spans)
    ensures Writable(spans[1..]) && (|spans| > 1 ==> Apart(spans[0], spans[1]))
  {
    forall i | 0 < i < |spans| - 1 ensures Apart(spans[1..][i - 1], spans[1..][i]) {
      assert Apart(spans[i + 1 - 1], spans[i + 1]);
    }
    if |spans| > 1 {
      assert Apart(spans[1 - 1], spans[1]);
    }
  }

  lemma SpanCut(w: seq<Byte>, text: seq<Byte>, q: Place)
    requires text != [] && Leads(Place(w, PLAIN, text), Cut(text, PLAIN), q) && Leads(Place(w, PLAIN, []), [], q)
    ensures Leads(Place(w, PLAIN, text), [Span(text, PLAIN)], Place(w, PLAIN, []))
  {
    assert [] + ParseAt(q) == ParseAt(q);
  }

  /** After plain text, what follows ends the span. */
  lemma PlainEnds(text: seq<Byte>, spans: seq<Span>)
    requires text != [] && Writable(spans) && (spans != [] ==> spans[0].mode != PLAIN)
    ensures Leads(Place(Written(spans), PLAIN, text), [Span(text, PLAIN)], Place(Written(spans), PLAIN, []))
  {
    if spans != [] {
      var first, more := spans[0], Written(spans[1..]);
      SpanOpens(first.text, first.mode, more, text);
      SpanOpens(first.text, first.mode, more, []);
      SpanCut(Written(spans), text, Place(Body(first.text, first.mode, more), first.mode, []));
    }
  }

  lemma WrittenHead(spans: seq<Span>)
    requires Writable(spans) && spans != [] && !spans[0].mode.bold && !spans[0].mode.italic
    ensures Written(spans) != [] && Written(spans)[0] != STAR
  {}

  lemma EscapedLeads(text: seq<Byte>, m: Mode, more: seq<Byte>)
    ensures Leads(Place(Escape(text) + more, m, []), [], Place(more, m, text))
  {
    ParseEscaped(text, more, m, []);
    assert [] + text == text;
  }

  /** A span that is not plain, read as a whole. */
  lemma SpanRead(text: seq<Byte>, m: Mode, more: seq<Byte>)
    requires text != [] && m != PLAIN && (m.italic && more != [] ==> more[0] != STAR)
    ensures Leads(Place(Opening(m) + Body(text, m, more), PLAIN, []), [Span(text, m)], Place(more, PLAIN, []))
  {
    var p, q := Place(Opening(m) + Body(text, m, more), PLAIN, []), Place(Body(text, m, more), m, []);
    var r := Place(Closing(m) + more, m, text);
    SpanOpens(text, m, more, []);
    EscapedLeads(text, m, Closing(m) + more);
    SpanCloses(m, more, text);
    LeadsOn(p, [], q, [], r);
    LeadsOn(p, [] + [], r, [Span(text, m)], Place(more, PLAIN, []));
    assert [] + [] + [Span(text, m)] == [Span(text, m)];
  }

  lemma PlainRead(text: seq<Byte>, tail: seq<Span>)
    requires text != [] && Writable(tail) && (tail != [] ==> tail[0].mode != PLAIN)
    ensures Leads(Place(Escape(text) + Written(tail), PLAIN, []), [Span(text, PLAIN)], Place(Written(tail), PLAIN, []))
  {
    EscapedLeads(text, PLAIN, Written(tail));
    PlainEnds(text, tail);
    LeadsOn(Place(Escape(text) + Written(tail), PLAIN, []), [], Place(Written(tail), PLAIN, text),
            [Span(text, PLAIN)], Place(Written(tail), PLAIN, []));
    assert [] + [Span(text, PLAIN)] == [Span(text, PLAIN)];
  }

  lemma PlainParts(text: seq<Byte>, more: seq<Byte>)
    ensures Opening(PLAIN) + Body(text, PLAIN, more) == Escape(text) + more
  {
    assert Opening(PLAIN) == [] && Closing(PLAIN) == [];
    assert [] + more == more && [] + (Escape(text) + more) == Escape(text) + more;
  }

  lemma OneRead(first: Span, tail: seq<Span>, w: seq<Byte>)
    requires first.text != [] && Writable(tail) && (tail != [] ==> Apart(first, tail[0]))
    requires w == Opening(first.mode) + Body(first.text, first.mode, Written(tail))
    ensures Leads(Place(w, PLAIN, []), [first], Place(Written(tail), PLAIN, []))
  {
    if first.mode == PLAIN {
      PlainParts(first.text, Written(tail));
      PlainRead(first.text, tail);
    } else {
      if first.mode.italic && tail != [] {
        WrittenHead(tail);
      }
      SpanRead(first.text, first.mode, Written(tail));
    }
  }

  lemma FirstRead(spans: seq<Span>)
    requires Writable(spans) && spans != []
    ensures Leads(Place(Written(spans), PLAIN, []), [spans[0]], Place(Written(spans[1..]), PLAIN, []))
  {
    WritableTail(spans);
    OneRead(spans[0], spans[1..], Written(spans));
  }

  /** Reading markdown gives back the spans it was written from. */
  lemma {:induction false} ParseWritten(spans: seq<Span>)
    requires Writable(spans)
    ensures ParseAt(Place(Written(spans), PLAIN, [])) == spans
  {
    if spans != [] {
      WritableTail(spans);
      FirstRead(spans);
      ParseWritten(spans[1..]);
    }
  }
}
