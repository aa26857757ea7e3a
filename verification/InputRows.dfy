/** The rows and columns of the prompt in numbers. */
module InputRows {
  import opened Text
  import opened Seqs
  import opened Utf8
  import opened Ansi
  import opened Filling
  import opened Wrap
  import opened InputLayout

  /** A newline ends the rows of what stands before it. */
  lemma {:induction false} RowsAtNewline(a: Line, b: Line, width: nat)
    requires width > 0
    ensures Rows(a + [NEWLINE] + b, width) == Rows(a, width) + Rows(b, width)
  {
    if b == [] {
      assert a + [NEWLINE] + b == a + [NEWLINE];
      RowsNewline(a, width);
      RowsOfNothing(width);
    } else {
      var front, c := b[..|b|-1], b[|b|-1];
      assert b == front + [c] && a + [NEWLINE] + b == a + [NEWLINE] + front + [c];
      RowsAtNewline(a, front, width);
      if c == NEWLINE {
        RowsNewline(a + [NEWLINE] + front, width);
        RowsNewline(front, width);
        ConcatAssociates(Rows(a, width), Rows(front, width), [[]]);
      } else {
        RowsExtended(a + [NEWLINE] + front, c, width);
        RowsExtended(front, c, width);
        ExtendedBehind(Rows(a, width), Rows(front, width), c, width);
      }
    }
  }

  lemma {:induction false} OneLineSplit(s: Line)
    requires OneLine(s)
    ensures SplitLines(s) == [s]
  {
    if s != [] {
      OneLineSplit(s[..|s|-1]);
      assert s == s[..|s|-1] + [s[|s|-1]];
    }
  }

  lemma OneLineRows(s: Line, width: nat)
    requires width > 0 && OneLine(s)
    ensures Rows(s, width) == Pieces(s, width)
  {
    OneLineSplit(s);
    var none: seq<Line> := [];
    AllPiecesSnoc(none, s, width);
    assert none + [s] == [s] && AllPieces(none, width) + Pieces(s, width) == Pieces(s, width);
  }

  /** A line without newlines takes as many rows as it needs, and one if it is empty. */
  lemma RowsOfLine(s: Line, width: nat)
    requires width > 0 && OneLine(s)
    ensures Rows(s, width) == Pieces(s, width)
    ensures var n := |Rows(s, width)|;
      if s == [] then n == 1 else n > 0 && (n - 1) * width < |s| <= n * width
    ensures forall i :: 0 <= i < |Rows(s, width)| - 1 ==> |Rows(s, width)[i]| == width
  {
    OneLineRows(s, width);
    PiecesAreFull(s, width);
    if s != [] {
      PiecesNeeded(s, width);
    }
  }

  lemma {:induction false} LastPieceLength(word: Line, width: nat)
    requires width > 0 && word != []
    ensures var ps := Pieces(word, width); ps != [] && |ps[|ps|-1]| == (|word| - 1) % width + 1
    decreases |word|
  {
    if |word| > width {
      LastPieceLength(word[width..], width);
      ModOfRest(|word| - 1, width);
    } else {
      ModIs(|word| - 1, 0, |word| - 1, width);
    }
  }

  /** The cursor is as far behind the prefix as its line, up to it, is into its last row. */
  lemma CursorColumn(prefix: seq<Byte>, input: seq<Byte>, cursor: int, width: int)
    ensures var line, a := LineBefore(input, cursor), Columns(prefix, input, width);
      FreeColumn(prefix, input, cursor, width) ==
      Indent(prefix, input, width) + 1 + if line == [] then 0 else (|line| - 1) % a + 1
  {
    var text := Runes(input);
    var s, a := text[..Clamp(cursor, |text|)], Columns(prefix, input, width);
    var line := LineBefore(input, cursor);
    LastRow(s, a);
    if line != [] {
      LastPieceLength(line, a);
    }
  }

  lemma {:induction false} ShortLinesStay(ls: seq<Line>, width: nat)
    requires width > 0 && Within(ls, width)
    ensures AllPieces(ls, width) == ls
  {
    if ls != [] {
      ShortLinesStay(ls[..|ls|-1], width);
    }
  }

  lemma {:induction false} SplitWithin(s: Line)
    ensures Within(SplitLines(s), |s|)
  {
    if s != [] {
      SplitWithin(s[..|s|-1]);
    }
  }

  /** Without a width no line is broken. */
  lemma UnbrokenWithoutWidth(prefix: seq<Byte>, input: seq<Byte>, width: int)
    requires width <= 0
    ensures Rows(Runes(input), Columns(prefix, input, width)) == SplitLines(Runes(input))
  {
    var text := Runes(input);
    SplitWithin(text);
    assert Columns(prefix, input, width) > |text|;
    ShortLinesStay(SplitLines(text), Columns(prefix, input, width));
  }

  /** The prefix is shown as it is while it fits the terminal, and as much of it as fits otherwise. */
  lemma PrefixShown(prefix: seq<Byte>, width: nat)
    ensures Visible(UsedPrefix(prefix, width)) == Upto(Visible(prefix), width)
    ensures |Visible(prefix)| <= width ==> UsedPrefix(prefix, width) == prefix
  {
    TrimKeepsVisible(prefix, width);
  }
}
