/**
  A terminal text piece by piece: characters, escape sequences that have an end, and bytes that are part of no
  character.  For such a text, and in front of any other, this says what is shown, kept and cut of it.
 */
module Pieces {
  import opened Text
  import opened Seqs
  import opened Utf8
  import opened Ansi

  datatype Piece = Char(rune: Rune) | Escape(bytes: seq<Byte>) | Stray(byte: Byte)

  /** A control sequence: ESC, `[`, parameters and the first byte from `@` to `~`. */
  predicate ControlSequence(p: seq<Byte>) {
    && |p| >= 3 && p[0] == 0x1B && p[1] == 0x5B
    && 0x40 <= p[|p|-1] <= 0x7E && forall i :: 2 <= i < |p|-1 ==> !(0x40 <= p[i] <= 0x7E)
  }

  /** BEL or ESC backslash at `i`. */
  predicate Terminator(p: seq<Byte>, i: nat) {
    i < |p| && (p[i] == 0x07 || (i + 1 < |p| && p[i] == 0x1B && p[i + 1] == 0x5C))
  }

  /** An operating system command: ESC, `]`, a text and the first terminator. */
  predicate SystemCommand(p: seq<Byte>) {
    && |p| >= 3 && p[0] == 0x1B && p[1] == 0x5D
    && exists n :: 2 <= n < |p| && Terminator(p, n) && |p| == n + (if p[n] == 0x07 then 1 else 2)
         && forall i :: 2 <= i < n ==> !Terminator(p, i)
  }

  predicate ShortEscape(p: seq<Byte>) {
    |p| == 2 && p[0] == 0x1B && p[1] != 0x5B && p[1] != 0x5D
  }

  predicate Proper(p: Piece) {
    match p
    case Char(r) => r != 0x1B
    case Escape(bytes) => ControlSequence(bytes) || SystemCommand(bytes) || ShortEscape(bytes)
    case Stray(b) => 0x80 <= b <= 0xC1 || b >= 0xF5
  }

  function BytesOf(p: Piece): seq<Byte> {
    match p
    case Char(r) => Encode(r)
    case Escape(bytes) => bytes
    case Stray(b) => [b]
  }

  function Bytes(ps: seq<Piece>): seq<Byte> {
    if ps == [] then [] else BytesOf(ps[0]) + Bytes(ps[1..])
  }

  // ----- Escape sequences end where they should -----

  lemma {:induction false} CsiLengthIs(s: seq<Byte>, n: nat)
    requires n < |s| && 0x40 <= s[n] <= 0x7E && forall i :: 0 <= i < n ==> !(0x40 <= s[i] <= 0x7E)
    ensures CsiLength(s) == n + 1
  {
    if n > 0 {
      CsiLengthIs(s[1..], n - 1);
    }
  }

  lemma {:induction false} OscLengthIs(s: seq<Byte>, n: nat)
    requires Terminator(s, n) && forall i :: 0 <= i < n ==> !Terminator(s, i)
    ensures OscLength(s) == n + if s[n] == 0x07 then 1 else 2
  {
    if n > 0 {
      assert !Terminator(s, 0);
      assert forall i :: 0 <= i < |s| - 1 ==> (Terminator(s[1..], i) <==> Terminator(s, i + 1));
      OscLengthIs(s[1..], n - 1);
    }
  }

  lemma ControlSequenceEnds(p: seq<Byte>, t: seq<Byte>)
    requires ControlSequence(p)
    ensures EscapeLength(p + t) == |p|
  {
    CsiLengthIs((p + t)[2..], |p| - 3);
  }

  lemma TerminatorLater(p: seq<Byte>, t: seq<Byte>, i: nat, n: nat)
    requires Terminator(p, n) && |p| == n + (if p[n] == 0x07 then 1 else 2) && 2 <= i <= n
    ensures Terminator((p + t)[2..], i - 2) <==> Terminator(p, i)
  {
    var s := (p + t)[2..];
    assert s[i - 2] == p[i];
    if i + 1 < |p| {
      assert s[i - 1] == p[i + 1];
    }
  }

  lemma SystemCommandEnds(p: seq<Byte>, t: seq<Byte>)
    requires SystemCommand(p)
    ensures EscapeLength(p + t) == |p|
  {
    var n :| 2 <= n < |p| && Terminator(p, n) && |p| == n + (if p[n] == 0x07 then 1 else 2)
      && forall i :: 2 <= i < n ==> !Terminator(p, i);
    var s := (p + t)[2..];
    TerminatorLater(p, t, n, n);
    forall i | 0 <= i < n - 2 ensures !Terminator(s, i) {
      TerminatorLater(p, t, i + 2, n);
    }
    OscLengthIs(s, n - 2);
  }

  lemma EscapePieceEnds(bytes: seq<Byte>)
    requires Proper(Escape(bytes))
    ensures Ends(bytes)
  {
    forall t: seq<Byte> ensures EscapeLength(bytes + t) == |bytes| {
      if ControlSequence(bytes) {
        ControlSequenceEnds(bytes, t);
      } else if SystemCommand(bytes) {
        SystemCommandEnds(bytes, t);
      }
    }
  }

  // ----- What is shown -----

  function ShownOf(p: Piece): seq<Rune> {
    match p
    case Char(r) => [r]
    case Escape(_) => []
    case Stray(_) => [0xFFFD]
  }

  function Shown(ps: seq<Piece>): seq<Rune> {
    if ps == [] then [] else ShownOf(ps[0]) + Shown(ps[1..])
  }

  lemma VisiblePiece(p: Piece, s: seq<Byte>)
    requires Proper(p)
    ensures Visible(BytesOf(p) + s) == ShownOf(p) + Visible(s)
  {
    match p
    case Char(r) => VisibleAfterRune(r, s);
    case Escape(bytes) =>
      EscapePieceEnds(bytes);
      VisibleAfterEscape(bytes, s);
      assert [] + Visible(s) == Visible(s);
    case Stray(b) =>
      assert ([b] + s)[1..] == s;
  }

  /** Of a text in pieces, the characters are shown, stray bytes as U+FFFD, and escape sequences not at all. */
  lemma {:induction false} VisibleOfPieces(ps: seq<Piece>, s: seq<Byte>)
    requires forall p :: p in ps ==> Proper(p)
    ensures Visible(Bytes(ps) + s) == Shown(ps) + Visible(s)
  {
    if ps == [] {
      assert [] + s == s && [] + Visible(s) == Visible(s);
    } else {
      ConcatAssociates(BytesOf(ps[0]), Bytes(ps[1..]), s);
      VisiblePiece(ps[0], Bytes(ps[1..]) + s);
      VisibleOfPieces(ps[1..], s);
      ConcatAssociates(ShownOf(ps[0]), Shown(ps[1..]), Visible(s));
    }
  }

  // ----- What sanitizing keeps -----

  /** A tab becomes four spaces; other control characters, stray bytes and escape sequences go. */
  function CleanedOf(p: Piece): seq<Rune> {
    match p
    case Char(r) =>
      if r == 0x09 then [0x20, 0x20, 0x20, 0x20] else if r < 0x20 || r == 0x7F then [] else [r]
    case Escape(_) => []
    case Stray(_) => []
  }

  function Cleaned(ps: seq<Piece>): seq<Rune> {
    if ps == [] then [] else CleanedOf(ps[0]) + Cleaned(ps[1..])
  }

  lemma SanitizedEscape(p: seq<Byte>, s: seq<Byte>)
    requires Ends(p)
    ensures Sanitized(p + s) == Sanitized(s)
  {
    assert (p + s)[|p|..] == s;
    assert [] + Sanitized(s) == Sanitized(s);
  }

  lemma SanitizedChar(r: Rune, s: seq<Byte>)
    requires r != 0x1B
    ensures Sanitized(Encode(r) + s) == CleanedOf(Char(r)) + Sanitized(s)
  {
    DecodeEncode(r, s);
    assert (Encode(r) + s)[|Encode(r)|..] == s;
    assert r == RUNE_ERROR ==> |Encode(r)| == 3;
  }

  /** A byte at which no character begins goes, whatever follows it. */
  lemma SanitizedInvalid(s: seq<Byte>)
    requires s != [] && s[0] >= 0x80 && forall r: Rune :: !(Encode(r) <= s)
    ensures Sanitized(s) == Sanitized(s[1..])
  {
    DecodeFailsIff(s);
    assert [] + Sanitized(s[1..]) == Sanitized(s[1..]);
  }

  lemma SanitizedPiece(p: Piece, s: seq<Byte>)
    requires Proper(p)
    ensures Sanitized(BytesOf(p) + s) == CleanedOf(p) + Sanitized(s)
  {
    match p
    case Char(r) => SanitizedChar(r, s);
    case Escape(bytes) =>
      EscapePieceEnds(bytes);
      SanitizedEscape(bytes, s);
      assert [] + Sanitized(s) == Sanitized(s);
    case Stray(b) =>
      assert ([b] + s)[1..] == s;
  }

  /** Sanitizing keeps of a text in pieces what it keeps of each, in order, and goes on with what follows. */
  lemma {:induction false} SanitizedOfPieces(ps: seq<Piece>, s: seq<Byte>)
    requires forall p :: p in ps ==> Proper(p)
    ensures Sanitized(Bytes(ps) + s) == Cleaned(ps) + Sanitized(s)
  {
    if ps == [] {
      assert [] + s == s && [] + Sanitized(s) == Sanitized(s);
    } else {
      ConcatAssociates(BytesOf(ps[0]), Bytes(ps[1..]), s);
      SanitizedPiece(ps[0], Bytes(ps[1..]) + s);
      SanitizedOfPieces(ps[1..], s);
      ConcatAssociates(CleanedOf(ps[0]), Cleaned(ps[1..]), Sanitized(s));
    }
  }

  // ----- What a cut keeps -----

  /** The pieces up to the first character beyond the width, with U+FFFD for stray bytes. */
  function CutTo(ps: seq<Piece>, width: nat): seq<Piece> {
    if ps == [] then []
    else if ps[0].Escape? then [ps[0]] + CutTo(ps[1..], width)
    else if width == 0 then []
    else [if ps[0].Stray? then Char(0xFFFD) else ps[0]] + CutTo(ps[1..], width - 1)
  }

  lemma TrimEscape(p: seq<Byte>, s: seq<Byte>, width: nat)
    requires Ends(p)
    ensures Trim(p + s, width) == p + Trim(s, width)
  {
    assert EscapeLength(p + s) == |p| && (p + s)[..|p|] == p && (p + s)[|p|..] == s;
  }

  lemma TrimChar(p: Piece, s: seq<Byte>, width: nat)
    requires Proper(p) && !p.Escape?
    ensures Trim(BytesOf(p) + s, width) ==
            if width == 0 then [] else Encode(if p.Char? then p.rune else 0xFFFD) + Trim(s, width - 1)
  {
    if p.Char? {
      DecodeEncode(p.rune, s);
      assert (Encode(p.rune) + s)[|Encode(p.rune)|..] == s;
    } else {
      assert ([p.byte] + s)[1..] == s;
    }
  }

  lemma BytesCons(p: Piece, ps: seq<Piece>)
    ensures Bytes([p] + ps) == BytesOf(p) + Bytes(ps)
  {
    assert ([p] + ps)[1..] == ps;
  }

  /** Cutting to a width keeps the first characters with every escape sequence before, between and behind them. */
  lemma {:induction false} TrimOfPieces(ps: seq<Piece>, width: nat)
    requires forall p :: p in ps ==> Proper(p)
    ensures Trim(Bytes(ps), width) == Bytes(CutTo(ps, width))
  {
    if ps != [] {
      var more := ps[1..];
      if ps[0].Escape? {
        EscapePieceEnds(ps[0].bytes);
        TrimEscape(ps[0].bytes, Bytes(more), width);
        TrimOfPieces(more, width);
        BytesCons(ps[0], CutTo(more, width));
      } else {
        TrimChar(ps[0], Bytes(more), width);
        if width > 0 {
          TrimOfPieces(more, width - 1);
          BytesCons(if ps[0].Stray? then Char(0xFFFD) else ps[0], CutTo(more, width - 1));
        }
      }
    }
  }
}
