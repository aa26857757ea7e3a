/**
  Text with escape sequences on the terminal: what is visible of it, cutting it to a width, and removing
  escapes and control characters.  Texts are bytes, valid UTF-8 or not.
 */
module Ansi {
  import opened Text
  import opened Seqs
  import opened Utf8

  const ESC: Byte := 0x1B
  const BEL: Byte := 0x07
  const CSI: Byte := 0x5B
  const OSC: Byte := 0x5D

  /** The final byte of a control sequence (section 5.4 of ECMA-48). */
  predicate Final(b: Byte) {
    0x40 <= b <= 0x7E
  }

  /** The length of a control sequence's parameters and final byte, or of all that is left. */
  function CsiLength(s: seq<Byte>): (n: nat)
    ensures n <= |s|
  {
    if s == [] then 0 else if Final(s[0]) then 1 else 1 + CsiLength(s[1..])
  }

  /** The length of an operating system command up to BEL or ESC backslash, or of all that is left. */
  function OscLength(s: seq<Byte>): (n: nat)
    ensures n <= |s|
  {
    if s == [] then 0
    else if s[0] == BEL then 1
    else if s[0] == ESC && |s| >= 2 && s[1] == BACKSLASH then 2
    else 1 + OscLength(s[1..])
  }

  /** The length of the escape sequence at the head of `s`. */
  function EscapeLength(s: seq<Byte>): (n: nat)
    requires s != [] && s[0] == ESC
    ensures 1 <= n <= |s|
  {
    if |s| == 1 then 1
    else if s[1] == CSI then 2 + CsiLength(s[2..])
    else if s[1] == OSC then 2 + OscLength(s[2..])
    else 2
  }

  /** The length of what is at the head of `s`: an escape sequence or one character. */
  function HeadLength(s: seq<Byte>): (n: nat)
    requires s != []
    ensures 1 <= n <= |s|
  {
    if s[0] == ESC then EscapeLength(s) else Decode(s).size
  }

  /** The characters a terminal shows, an invalid byte as U+FFFD. */
  function Visible(s: seq<Byte>): seq<Rune> {
    if s == [] then []
    else (if s[0] == ESC then [] else [Decode(s).rune]) + Visible(s[HeadLength(s)..])
  }

  /** `trimANSIToWidth` for a width that is not negative: escapes are kept up to the first character cut. */
  function Trim(s: seq<Byte>, width: nat): seq<Byte> {
    if s == [] then []
    else if s[0] == ESC then s[..EscapeLength(s)] + Trim(s[EscapeLength(s)..], width)
    else if width == 0 then []
    else Encode(Decode(s).rune) + Trim(s[HeadLength(s)..], width - 1)
  }

  // ----- Escape sequences that have an end -----

  /** Whatever follows it, the escape sequence `p` ends where it does. */
  ghost predicate Ends(p: seq<Byte>) {
    p != [] && p[0] == ESC && forall t :: EscapeLength(p + t) == |p|
  }

  lemma {:induction false} CsiEnds(s: seq<Byte>, t: seq<Byte>)
    requires CsiLength(s) > 0 && Final(s[CsiLength(s) - 1])
    ensures CsiLength(s[..CsiLength(s)] + t) == CsiLength(s)
  {
    var p := s[..CsiLength(s)] + t;
    if !Final(s[0]) {
      assert s[1..][..CsiLength(s[1..])] + t == p[1..];
      CsiEnds(s[1..], t);
    }
  }

  lemma {:induction false} CsiLast(s: seq<Byte>)
    requires CsiLength(s) < |s|
    ensures CsiLength(s) > 0 && Final(s[CsiLength(s) - 1])
  {
    if !Final(s[0]) {
      CsiLast(s[1..]);
    }
  }

  lemma {:induction false} OscEnds(s: seq<Byte>, t: seq<Byte>)
    requires OscLength(s) < |s|
    ensures OscLength(s[..OscLength(s)] + t) == OscLength(s)
  {
    var n := OscLength(s);
    var p := s[..n] + t;
    if s[0] != BEL && !(s[0] == ESC && |s| >= 2 && s[1] == BACKSLASH) {
      assert s[1..][..OscLength(s[1..])] + t == p[1..];
      OscEnds(s[1..], t);
      if n == 1 {
        assert OscLength(s[1..]) == 0;
      }
    }
  }

  lemma EscapeEnds(s: seq<Byte>, t: seq<Byte>)
    requires s != [] && s[0] == ESC && EscapeLength(s) < |s|
    ensures EscapeLength(s[..EscapeLength(s)] + t) == EscapeLength(s)
  {
    var n := EscapeLength(s);
    var p := s[..n] + t;
    if s[1] == CSI {
      CsiLast(s[2..]);
      CsiEnds(s[2..], t);
      assert p[2..] == s[2..][..n - 2] + t;
    } else if s[1] == OSC {
      OscEnds(s[2..], t);
      assert p[2..] == s[2..][..n - 2] + t;
    }
  }

  /** An escape sequence with something behind it has an end of its own. */
  lemma FollowedEnds(s: seq<Byte>)
    requires s != [] && s[0] == ESC && EscapeLength(s) < |s|
    ensures Ends(s[..EscapeLength(s)])
  {
    forall t ensures EscapeLength(s[..EscapeLength(s)] + t) == EscapeLength(s) {
      EscapeEnds(s, t);
    }
  }

  // ----- Trimming -----

  lemma VisibleAfterEscape(p: seq<Byte>, s: seq<Byte>)
    requires Ends(p)
    ensures Visible(p + s) == Visible(s)
  {
    assert (p + s)[|p|..] == s;
  }

  lemma VisibleAfterRune(r: Rune, s: seq<Byte>)
    requires r != ESC
    ensures Visible(Encode(r) + s) == [r] + Visible(s)
  {
    DecodeEncode(r, s);
    var n := |Encode(r)|;
    assert (Encode(r) + s)[n..] == s;
  }

  lemma DecodedNotEscape(s: seq<Byte>)
    requires s != [] && s[0] != ESC
    ensures Decode(s).rune != ESC
  {
    if Decode(s).size > 1 {
      EncodeDecode(s);
    }
  }

  function Upto<T>(s: seq<T>, n: nat): seq<T> {
    if |s| <= n then s else s[..n]
  }

  lemma TrimOverEscape(s: seq<Byte>, rest: seq<Byte>)
    requires s != [] && s[0] == ESC && (EscapeLength(s) == |s| ==> rest == [])
    ensures Visible(s[..EscapeLength(s)] + rest) == Visible(rest)
  {
    var n := EscapeLength(s);
    if n < |s| {
      FollowedEnds(s);
      VisibleAfterEscape(s[..n], rest);
    } else {
      assert s[..n] + rest == s && s[n..] == [];
    }
  }

  lemma TrimOverRune(s: seq<Byte>, rest: seq<Byte>)
    requires s != [] && s[0] != ESC
    ensures Visible(Encode(Decode(s).rune) + rest) == [Decode(s).rune] + Visible(rest)
  {
    DecodedNotEscape(s);
    VisibleAfterRune(Decode(s).rune, rest);
  }

  lemma TrimStepEscape(s: seq<Byte>, width: nat)
    requires s != [] && s[0] == ESC
    requires Visible(Trim(s[HeadLength(s)..], width)) == Upto(Visible(s[HeadLength(s)..]), width)
    ensures Visible(Trim(s, width)) == Upto(Visible(s), width)
  {
    var more := s[HeadLength(s)..];
    TrimOverEscape(s, Trim(more, width));
    assert [] + Visible(more) == Visible(more);
  }

  lemma UptoCons(r: Rune, rs: seq<Rune>, n: nat)
    requires n > 0
    ensures [r] + Upto(rs, n - 1) == Upto([r] + rs, n)
  {}

  lemma TrimStepRune(s: seq<Byte>, width: nat)
    requires s != [] && s[0] != ESC && width > 0
    requires Visible(Trim(s[HeadLength(s)..], width - 1)) == Upto(Visible(s[HeadLength(s)..]), width - 1)
    ensures Visible(Trim(s, width)) == Upto(Visible(s), width)
  {
    var more := s[HeadLength(s)..];
    TrimOverRune(s, Trim(more, width - 1));
    UptoCons(Decode(s).rune, Visible(more), width);
  }

  lemma TrimStepNone(s: seq<Byte>, width: nat)
    requires s == [] || (s[0] != ESC && width == 0)
    ensures Visible(Trim(s, width)) == Upto(Visible(s), width)
  {
    assert Trim(s, width) == [] && Upto(Visible(s), width) == [];
  }

  /** Cutting keeps exactly the first `width` visible characters, escapes unterminated or not. */
  lemma {:induction false} TrimKeepsVisible(s: seq<Byte>, width: nat)
    ensures Visible(Trim(s, width)) == Upto(Visible(s), width)
    decreases |s|
  {
    if s == [] || (s[0] != ESC && width == 0) {
      TrimStepNone(s, width);
    } else if s[0] == ESC {
      TrimKeepsVisible(s[HeadLength(s)..], width);
      TrimStepEscape(s, width);
    } else {
      TrimKeepsVisible(s[HeadLength(s)..], width - 1);
      TrimStepRune(s, width);
    }
  }

  // ----- Texts that can be strung together -----

  /** What follows `a` does not change how it shows. */
  ghost predicate ShowsBefore(a: seq<Byte>, s: seq<Byte>) {
    Visible(a + s) == Visible(a) + Visible(s)
  }

  /** A cut behind `a` leaves it alone. */
  ghost predicate CutBehind(a: seq<Byte>, s: seq<Byte>, w: nat) {
    w >= |Visible(a)| ==> Trim(a + s, w) == a + Trim(s, w - |Visible(a)|)
  }

  ghost predicate Whole(a: seq<Byte>) {
    && (forall s :: ShowsBefore(a, s))
    && (forall s, w: nat :: CutBehind(a, s, w))
  }

  lemma WholeEmpty()
    ensures Whole([])
  {
    forall s: seq<Byte> ensures ShowsBefore([], s) {
      assert [] + s == s;
    }
    forall s: seq<Byte>, w: nat ensures CutBehind([], s, w) {
      assert [] + s == s;
    }
  }

  lemma VisibleEscape(p: seq<Byte>)
    requires Ends(p)
    ensures Visible(p) == []
  {
    assert p + [] == p;
    VisibleAfterEscape(p, []);
  }

  lemma WholeEscape(p: seq<Byte>)
    requires Ends(p)
    ensures Whole(p) && Visible(p) == []
  {
    VisibleEscape(p);
    forall s ensures ShowsBefore(p, s) {
      VisibleAfterEscape(p, s);
    }
    forall s, w: nat ensures CutBehind(p, s, w) {
      assert EscapeLength(p + s) == |p| && (p + s)[..|p|] == p && (p + s)[|p|..] == s;
    }
  }

  lemma WholeRune(r: Rune)
    requires r != ESC
    ensures Whole(Encode(r)) && Visible(Encode(r)) == [r]
  {
    VisibleAfterRune(r, []);
    assert Encode(r) + [] == Encode(r);
    forall s ensures ShowsBefore(Encode(r), s) {
      VisibleAfterRune(r, s);
    }
    forall s, w: nat ensures CutBehind(Encode(r), s, w) {
      DecodeEncode(r, s);
      assert (Encode(r) + s)[|Encode(r)|..] == s;
    }
  }

  lemma ShowsBeforeConcat(a: seq<Byte>, b: seq<Byte>, s: seq<Byte>)
    requires ShowsBefore(a, b) && ShowsBefore(a, b + s) && ShowsBefore(b, s)
    ensures ShowsBefore(a + b, s)
  {
    ConcatAssociates(a, b, s);
    ConcatAssociates(Visible(a), Visible(b), Visible(s));
  }

  lemma CutBehindConcat(a: seq<Byte>, b: seq<Byte>, s: seq<Byte>, w: nat)
    requires ShowsBefore(a, b) && CutBehind(a, b + s, w) && forall w: nat :: CutBehind(b, s, w)
    ensures CutBehind(a + b, s, w)
  {
    ConcatAssociates(a, b, s);
    if w >= |Visible(a + b)| {
      var v: nat := w - |Visible(a)|;
      assert CutBehind(b, s, v);
      ConcatAssociates(a, b, Trim(s, v - |Visible(b)|));
    }
  }

  lemma WholeConcat(a: seq<Byte>, b: seq<Byte>)
    requires Whole(a) && Whole(b)
    ensures Whole(a + b) && Visible(a + b) == Visible(a) + Visible(b)
  {
    assert ShowsBefore(a, b);
    forall s ensures ShowsBefore(a + b, s) {
      assert ShowsBefore(a, b + s);
      ShowsBeforeConcat(a, b, s);
    }
    forall s, w: nat ensures CutBehind(a + b, s, w) {
      assert CutBehind(a, b + s, w);
      CutBehindConcat(a, b, s, w);
    }
  }

  lemma {:induction false} WholeText(rs: seq<Rune>)
    requires forall i :: 0 <= i < |rs| ==> rs[i] != ESC
    ensures Whole(EncodeAll(rs)) && Visible(EncodeAll(rs)) == rs
  {
    if rs == [] {
      WholeEmpty();
    } else {
      WholeRune(rs[0]);
      WholeText(rs[1..]);
      WholeConcat(Encode(rs[0]), EncodeAll(rs[1..]));
    }
  }

  /** A cut that is wide enough cuts nothing. */
  lemma TrimOfWhole(a: seq<Byte>, w: nat)
    requires Whole(a) && |Visible(a)| <= w
    ensures Trim(a, w) == a
  {
    assert a + [] == a;
    assert CutBehind(a, [], w);
    ConcatEmpty(a);
  }

  /** A cut that cuts leaves no escape sequence open. */
  lemma {:induction false} TrimmedIsWhole(s: seq<Byte>, w: nat)
    requires |Visible(s)| > w
    ensures Whole(Trim(s, w))
    decreases |s|
  {
    if s[0] == ESC {
      var n := EscapeLength(s);
      assert [] + Visible(s[n..]) == Visible(s[n..]);
      FollowedEnds(s);
      WholeEscape(s[..n]);
      TrimmedIsWhole(s[n..], w);
      WholeConcat(s[..n], Trim(s[n..], w));
    } else if w == 0 {
      WholeEmpty();
    } else {
      var n := HeadLength(s);
      DecodedNotEscape(s);
      WholeRune(Decode(s).rune);
      TrimmedIsWhole(s[n..], w - 1);
      WholeConcat(Encode(Decode(s).rune), Trim(s[n..], w - 1));
    }
  }

  // ----- Sanitizing -----

  predicate Printable(r: Rune) {
    r >= 0x20 && r != 0x7F
  }

  predicate AllPrintable(rs: seq<Rune>) {
    forall i :: 0 <= i < |rs| ==> Printable(rs[i])
  }

  /** What sanitizing leaves of one character: a tab becomes four spaces, an invalid byte nothing. */
  function Kept(d: Decoded): (rs: seq<Rune>)
    ensures AllPrintable(rs)
  {
    if d.rune == RUNE_ERROR && d.size == 1 then []
    else if d.rune == 0x09 then [0x20, 0x20, 0x20, 0x20]
    else if !Printable(d.rune) then []
    else [d.rune]
  }

  function Sanitized(s: seq<Byte>): (rs: seq<Rune>)
    ensures AllPrintable(rs)
  {
    if s == [] then []
    else (if s[0] == ESC then [] else Kept(Decode(s))) + Sanitized(s[HeadLength(s)..])
  }

  function Sanitize(s: seq<Byte>): seq<Byte> {
    EncodeAll(Sanitized(s))
  }

  lemma SanitizedAfterRune(r: Rune, s: seq<Byte>)
    requires Printable(r)
    ensures Sanitized(Encode(r) + s) == [r] + Sanitized(s)
  {
    DecodeEncode(r, s);
    assert (Encode(r) + s)[|Encode(r)|..] == s;
    assert r == RUNE_ERROR ==> |Encode(r)| == 3;
  }

  /** Printable text is left as it is. */
  lemma {:induction false} SanitizedOfPrintable(rs: seq<Rune>)
    requires AllPrintable(rs)
    ensures Sanitized(EncodeAll(rs)) == rs
  {
    if rs != [] {
      SanitizedAfterRune(rs[0], EncodeAll(rs[1..]));
      SanitizedOfPrintable(rs[1..]);
    }
  }

  lemma {:induction false} VisibleOfPrintable(rs: seq<Rune>)
    requires AllPrintable(rs)
    ensures Visible(EncodeAll(rs)) == rs
  {
    if rs != [] {
      VisibleAfterRune(rs[0], EncodeAll(rs[1..]));
      VisibleOfPrintable(rs[1..]);
    }
  }

  lemma SanitizeIsIdempotent(s: seq<Byte>)
    ensures Sanitize(Sanitize(s)) == Sanitize(s)
  {
    SanitizedOfPrintable(Sanitized(s));
  }

  /** Sanitized text shows every one of its code points, and nothing else. */
  lemma SanitizedIsVisible(s: seq<Byte>)
    ensures Visible(Sanitize(s)) == Runes(Sanitize(s)) == Sanitized(s)
  {
    VisibleOfPrintable(Sanitized(s));
    RunesOfEncoded(Sanitized(s));
  }

  // ----- The code -----

  /** `skipCSI` */
  method SkipCSI(text: seq<Byte>, start: nat) returns (i: nat)
    requires start <= |text|
    ensures i == start + CsiLength(text[start..])
    ensures start <= i <= |text| && forall k :: start <= k < i - 1 ==> !(0x40 <= text[k] <= 0x7E)
    ensures i < |text| ==> start < i && 0x40 <= text[i - 1] <= 0x7E
  {
    i := start;
    while i < |text|
      invariant start <= i <= |text|
      invariant start + CsiLength(text[start..]) == i + CsiLength(text[i..])
      invariant forall k :: start <= k < i ==> !(0x40 <= text[k] <= 0x7E)
    {
      assert text[i..][1..] == text[i + 1..];
      if Final(text[i]) { return i + 1; }
      i := i + 1;
    }
  }

  /** `skipOSC` */
  method SkipOSC(text: seq<Byte>, start: nat) returns (i: nat)
    requires start <= |text|
    ensures i == start + OscLength(text[start..])
    ensures start <= i <= |text| && forall k :: start <= k < i - 1 ==> text[k] != 0x07
    ensures forall k :: start <= k < i - 2 ==> !(text[k] == 0x1B && text[k + 1] == 0x5C)
    ensures i < |text| ==>
      start < i && (text[i - 1] == 0x07 || (start < i - 1 && text[i - 2] == 0x1B && text[i - 1] == 0x5C))
  {
    i := start;
    while i < |text|
      invariant start <= i <= |text|
      invariant start + OscLength(text[start..]) == i + OscLength(text[i..])
      invariant forall k :: start <= k < i ==>
        text[k] != 0x07 && !(text[k] == 0x1B && k + 1 < |text| && text[k + 1] == 0x5C)
    {
      assert text[i..][1..] == text[i + 1..];
      if text[i] == BEL { return i + 1; }
      if text[i] == ESC {
        if i + 1 < |text| && text[i + 1] == BACKSLASH { return i + 2; }
      }
      i := i + 1;
    }
  }

  /** `skipEscape`, called with the position after the escape character. */
  method SkipEscape(text: seq<Byte>, i: nat) returns (j: nat)
    requires 0 < i <= |text| && text[i - 1] == ESC
    ensures j == i - 1 + EscapeLength(text[i - 1..])
    ensures i == |text| ==> j == i
    ensures i < |text| && text[i] != 0x5B && text[i] != 0x5D ==> j == i + 1
  {
    if i >= |text| { return i; }
    assert text[i - 1..][2..] == text[i + 1..];
    if text[i] == CSI {
      j := SkipCSI(text, i + 1);
    } else if text[i] == OSC {
      j := SkipOSC(text, i + 1);
    } else {
      j := i + 1;
    }
  }

  /** The end of the character or escape sequence at position `i`. */
  method HeadEnd(text: seq<Byte>, i: nat) returns (j: nat)
    requires i < |text|
    ensures i < j <= |text| && j == i + HeadLength(text[i..])
  {
    if text[i] == ESC {
      j := SkipEscape(text, i + 1);
    } else {
      j := i + Decode(text[i..]).size;
    }
  }

  /** `visibleWidth` */
  method VisibleWidth(text: seq<Byte>) returns (width: nat)
    ensures width == |Visible(text)|
  {
    width := 0;
    var i := 0;
    ghost var rest := text;
    while i < |text|
      invariant i <= |text| && rest == text[i..] && |Visible(text)| == width + |Visible(rest)|
    {
      var escape := text[i] == ESC;
      i := HeadEnd(text, i);
      rest := rest[HeadLength(rest)..];
      if escape { continue; }
      width := width + 1;
    }
  }

  /** One round of `trimANSIToWidth`: what it writes for the escape sequence or character at `i`. */
  method TrimRound(text: seq<Byte>, i: nat, room: nat) returns (piece: seq<Byte>, j: nat, left: nat)
    requires i < |text| && (text[i] == ESC || room > 0)
    ensures i < j <= |text| && left <= room
    ensures Trim(text[i..], room) == piece + Trim(text[j..], left)
  {
    ghost var s := text[i..];
    j := HeadEnd(text, i);
    assert s[HeadLength(s)..] == text[j..];
    if text[i] == ESC {
      assert s[..HeadLength(s)] == text[i..j];
      piece, left := text[i..j], room;
    } else {
      piece, left := Encode(Decode(text[i..]).rune), room - 1;
    }
  }

  lemma TrimIsDone(s: seq<Byte>, width: nat)
    requires s == [] || (s[0] != ESC && width == 0)
    ensures Trim(s, width) == []
  {}

  /** `trimANSIToWidth` */
  method TrimANSIToWidth(text: seq<Byte>, width: int) returns (out: seq<Byte>)
    ensures out == if width <= 0 then [] else Trim(text, width)
  {
    out := [];
    if width <= 0 { return; }
    var room: nat, i := width, 0;
    ghost var todo, whole := Trim(text, width), Trim(text, width);
    assert text[0..] == text && [] + whole == whole;
    while i < |text| && (text[i] == ESC || room > 0)
      invariant i <= |text| && todo == Trim(text[i..], room) && whole == out + todo
      decreases |text| - i
    {
      var piece;
      piece, i, room := TrimRound(text, i, room);
      ghost var todo' := Trim(text[i..], room);
      ConcatAssociates(out, piece, todo');
      out, todo := out + piece, todo';
    }
    TrimIsDone(text[i..], room);
    assert out + [] == out;
  }

  lemma SanitizedGrows(out: seq<Byte>, s: seq<Byte>)
    requires s != []
    ensures var kept, more := if s[0] == ESC then [] else Kept(Decode(s)), s[HeadLength(s)..];
            out + EncodeAll(Sanitized(s)) == out + EncodeAll(kept) + EncodeAll(Sanitized(more))
  {
    var kept, more := if s[0] == ESC then [] else Kept(Decode(s)), s[HeadLength(s)..];
    assert Sanitized(s) == kept + Sanitized(more);
    EncodeAllConcat(kept, Sanitized(more));
    ConcatAssociates(out, EncodeAll(kept), EncodeAll(Sanitized(more)));
  }

  /** `sanitizeOutputLine` */
  method SanitizeOutputLine(text: seq<Byte>) returns (out: seq<Byte>)
    ensures out == Sanitize(text)
  {
    out := [];
    var i := 0;
    ghost var rest, whole := text, EncodeAll(Sanitized(text));
    assert [] + whole == whole;
    while i < |text|
      invariant i <= |text| && rest == text[i..] && whole == out + EncodeAll(Sanitized(rest))
    {
      SanitizedGrows(out, rest);
      if text[i] == ESC {
        assert out + EncodeAll([]) == out;
      } else {
        out := out + EncodeAll(Kept(Decode(text[i..])));
      }
      i := HeadEnd(text, i);
      rest := rest[HeadLength(rest)..];
    }
    assert Sanitized(rest) == [] && out + [] == out;
  }
}
