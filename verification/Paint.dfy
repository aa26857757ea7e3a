/** Select Graphic Rendition codes: the style in which a terminal shows each character of a text. */
module Paint {
  import opened Text
  import opened Seqs
  import opened Utf8
  import opened Ansi

  /** The codes in force since the last reset. */
  type Pen = seq<Byte>

  datatype Cell = Cell(rune: Rune, pen: Pen)

  type Ink = seq<Cell>

  /** A control sequence that ends in `m`. */
  function Sgr(body: seq<Byte>): seq<Byte> {
    [ESC, CSI] + body + [0x6D]
  }

  const RESET: seq<Byte> := Sgr([0x30])
  const BOLD: seq<Byte> := Sgr([0x31])
  const ITALIC: seq<Byte> := Sgr([0x33])

  predicate NoFinal(s: seq<Byte>) {
    forall i :: 0 <= i < |s| ==> !Final(s[i])
  }

  lemma {:induction false} CsiOver(body: seq<Byte>, last: Byte, t: seq<Byte>)
    requires NoFinal(body) && Final(last)
    ensures CsiLength(body + [last] + t) == |body| + 1
  {
    var s := body + [last] + t;
    if body != [] {
      assert s[1..] == body[1..] + [last] + t;
      CsiOver(body[1..], last, t);
    }
  }

  lemma SgrEnds(body: seq<Byte>)
    requires NoFinal(body)
    ensures Ends(Sgr(body))
  {
    forall t ensures EscapeLength(Sgr(body) + t) == |Sgr(body)| {
      var s := Sgr(body) + t;
      assert s[2..] == body + [0x6D] + t;
      CsiOver(body, 0x6D, t);
    }
  }

  /** What a terminal shows of `s`, each character with the pen it is written in. */
  function Painted(s: seq<Byte>, pen: Pen): Ink
    decreases |s|
  {
    if s == [] then []
    else if s[0] == ESC then
      var n := EscapeLength(s);
      Painted(s[n..], if s[..n] == RESET then [] else pen + s[..n])
    else [Cell(Decode(s).rune, pen)] + Painted(s[Decode(s).size..], pen)
  }

  function RunesOf(ink: Ink): seq<Rune> {
    seq(|ink|, i requires 0 <= i < |ink| => ink[i].rune)
  }

  /** The pen aside, it is what is visible. */
  lemma {:induction false} PaintedRunes(s: seq<Byte>, pen: Pen)
    ensures RunesOf(Painted(s, pen)) == Visible(s)
    decreases |s|
  {
    if s == [] {
    } else if s[0] == ESC {
      var n := EscapeLength(s);
      PaintedRunes(s[n..], if s[..n] == RESET then [] else pen + s[..n]);
      assert [] + Visible(s[n..]) == Visible(s[n..]);
    } else {
      PaintedRunes(s[Decode(s).size..], pen);
    }
  }

  /** The given characters, all in the same pen. */
  function Inked(rs: seq<Rune>, pen: Pen): (ink: Ink)
    ensures |ink| == |rs|
  {
    seq(|rs|, i requires 0 <= i < |rs| => Cell(rs[i], pen))
  }

  // ----- Codes that change the pen -----

  ghost predicate AddsTo(code: seq<Byte>, s: seq<Byte>, pen: Pen) {
    Painted(code + s, pen) == Painted(s, pen + code)
  }

  /** Codes that show nothing and are added to the pen. */
  ghost predicate Marks(code: seq<Byte>) {
    && Whole(code) && Visible(code) == []
    && (forall s, pen :: AddsTo(code, s, pen))
  }

  lemma MarksEmpty()
    ensures Marks([])
  {
    WholeEmpty();
    forall s: seq<Byte>, pen: Pen ensures AddsTo([], s, pen) {
      assert [] + s == s;
      ConcatEmpty(pen);
    }
  }

  lemma MarksSgr(body: seq<Byte>)
    requires NoFinal(body) && body != [0x30]
    ensures Marks(Sgr(body))
  {
    var code := Sgr(body);
    SgrEnds(body);
    WholeEscape(code);
    assert code[2..|code| - 1] == body && RESET[2..|RESET| - 1] == [0x30];
    forall s, pen ensures AddsTo(code, s, pen) {
      assert (code + s)[..|code|] == code && (code + s)[|code|..] == s;
    }
  }

  lemma MarksConcat(a: seq<Byte>, b: seq<Byte>)
    requires Marks(a) && Marks(b)
    ensures Marks(a + b)
  {
    WholeConcat(a, b);
    forall s, pen ensures AddsTo(a + b, s, pen) {
      ConcatAssociates(a, b, s);
      ConcatAssociates(pen, a, b);
      assert AddsTo(a, b + s, pen) && AddsTo(b, s, pen + a);
    }
  }

  // ----- Writing a line from its start -----

  ghost predicate PaintsBefore(b: seq<Byte>, ink: Ink, pen: Pen, s: seq<Byte>) {
    Painted(b + s, []) == ink + Painted(s, pen)
  }

  /** Written after a reset, `b` shows `ink` and leaves the pen at `pen`. */
  ghost predicate Paints(b: seq<Byte>, ink: Ink, pen: Pen) {
    Whole(b) && forall s :: PaintsBefore(b, ink, pen, s)
  }

  lemma PaintsNothing()
    ensures Paints([], [], [])
  {
    WholeEmpty();
    forall s: seq<Byte> ensures PaintsBefore([], [], [], s) {
      assert [] + s == s;
      assert [] + Painted(s, []) == Painted(s, []);
    }
  }

  lemma PaintsShows(b: seq<Byte>, ink: Ink, pen: Pen)
    requires Paints(b, ink, pen)
    ensures Painted(b, []) == ink && Visible(b) == RunesOf(ink)
  {
    assert PaintsBefore(b, ink, pen, []);
    ConcatEmpty(b);
    ConcatEmpty(ink);
    PaintedRunes(b, []);
  }

  lemma ResetClears(s: seq<Byte>, pen: Pen)
    ensures Painted(RESET + s, pen) == Painted(s, [])
  {
    SgrEnds([0x30]);
    assert (RESET + s)[..|RESET|] == RESET && (RESET + s)[|RESET|..] == s;
  }

  lemma PaintsReset(b: seq<Byte>, ink: Ink, pen: Pen)
    requires Paints(b, ink, pen)
    ensures Paints(b + RESET, ink, [])
  {
    SgrEnds([0x30]);
    WholeEscape(RESET);
    WholeConcat(b, RESET);
    forall s ensures PaintsBefore(b + RESET, ink, [], s) {
      ConcatAssociates(b, RESET, s);
      assert PaintsBefore(b, ink, pen, RESET + s);
      ResetClears(s, pen);
    }
  }

  lemma PaintsMark(b: seq<Byte>, ink: Ink, pen: Pen, code: seq<Byte>)
    requires Paints(b, ink, pen) && Marks(code)
    ensures Paints(b + code, ink, pen + code)
  {
    WholeConcat(b, code);
    forall s ensures PaintsBefore(b + code, ink, pen + code, s) {
      ConcatAssociates(b, code, s);
      assert PaintsBefore(b, ink, pen, code + s) && AddsTo(code, s, pen);
    }
  }

  predicate NoEscape(rs: seq<Rune>) {
    forall i :: 0 <= i < |rs| ==> rs[i] != ESC
  }

  lemma RunePaints(r: Rune, s: seq<Byte>, pen: Pen)
    requires r != ESC
    ensures Painted(Encode(r) + s, pen) == [Cell(r, pen)] + Painted(s, pen)
  {
    DecodeEncode(r, s);
    assert (Encode(r) + s)[|Encode(r)|..] == s;
  }

  lemma {:induction false} TextPaints(rs: seq<Rune>, s: seq<Byte>, pen: Pen)
    requires NoEscape(rs)
    ensures Painted(EncodeAll(rs) + s, pen) == Inked(rs, pen) + Painted(s, pen)
  {
    if rs == [] {
      assert EncodeAll(rs) + s == s;
      assert Inked(rs, pen) + Painted(s, pen) == Painted(s, pen);
    } else {
      TextPaints(rs[1..], s, pen);
      ConcatAssociates(Encode(rs[0]), EncodeAll(rs[1..]), s);
      RunePaints(rs[0], EncodeAll(rs[1..]) + s, pen);
      assert Inked(rs, pen) == [Cell(rs[0], pen)] + Inked(rs[1..], pen);
      ConcatAssociates([Cell(rs[0], pen)], Inked(rs[1..], pen), Painted(s, pen));
    }
  }

  lemma PaintsText(b: seq<Byte>, ink: Ink, pen: Pen, rs: seq<Rune>)
    requires Paints(b, ink, pen) && NoEscape(rs)
    ensures Paints(b + EncodeAll(rs), ink + Inked(rs, pen), pen)
  {
    WholeText(rs);
    WholeConcat(b, EncodeAll(rs));
    forall s ensures PaintsBefore(b + EncodeAll(rs), ink + Inked(rs, pen), pen, s) {
      ConcatAssociates(b, EncodeAll(rs), s);
      assert PaintsBefore(b, ink, pen, EncodeAll(rs) + s);
      TextPaints(rs, s, pen);
      ConcatAssociates(ink, Inked(rs, pen), Painted(s, pen));
    }
  }
}
