/** The prompt's input on terminal rows, and where the cursor stands. */
module InputLayout {
  import opened Text
  import opened Seqs
  import opened Utf8
  import opened Ansi
  import opened Paint
  import opened Filling
  import opened Wrap

  const NEWLINE: Rune := 0x0A

  // ----- Lines of the input -----

  /** The text between newlines; there is always a last line, if only an empty one. */
  function SplitLines(s: Line): (ls: seq<Line>)
    ensures ls != []
  {
    if s == [] then [[]]
    else
      var ls, c := SplitLines(s[..|s|-1]), s[|s|-1];
      if c == NEWLINE then ls + [[]] else ls[..|ls|-1] + [ls[|ls|-1] + [c]]
  }

  lemma SplitSnoc(s: Line, c: Rune)
    ensures SplitLines(s + [c]) ==
            var ls := SplitLines(s);
            if c == NEWLINE then ls + [[]] else ls[..|ls|-1] + [ls[|ls|-1] + [c]]
  {
    assert (s + [c])[..|s|] == s;
  }

  function JoinLines(ls: seq<Line>): Line
    requires ls != []
  {
    if |ls| == 1 then ls[0] else JoinLines(ls[..|ls|-1]) + [NEWLINE] + ls[|ls|-1]
  }

  lemma JoinGrows(ls: seq<Line>, c: Rune)
    requires ls != []
    ensures JoinLines(ls[..|ls|-1] + [ls[|ls|-1] + [c]]) == JoinLines(ls) + [c]
  {
    var front, line := ls[..|ls|-1], ls[|ls|-1];
    assert (front + [line + [c]])[..|front|] == front;
    if |ls| > 1 {
      ConcatAssociates(JoinLines(front) + [NEWLINE], line, [c]);
    }
  }

  lemma JoinSnoc(ls: seq<Line>, line: Line)
    requires ls != []
    ensures JoinLines(ls + [line]) == JoinLines(ls) + [NEWLINE] + line
  {
    assert (ls + [line])[..|ls|] == ls;
  }

  /** The lines joined with newlines are the text. */
  lemma {:induction false} JoinUndoesSplit(s: Line)
    ensures JoinLines(SplitLines(s)) == s
  {
    if s != [] {
      var front, c := s[..|s|-1], s[|s|-1];
      JoinUndoesSplit(front);
      assert s == front + [c];
      if c == NEWLINE {
        JoinSnoc(SplitLines(front), []);
        ConcatEmpty(front + [NEWLINE]);
      } else {
        JoinGrows(SplitLines(front), c);
      }
    }
  }

  predicate OneLine(s: Line) {
    NEWLINE !in s
  }

  /** No line has a newline left in it. */
  lemma {:induction false} SplitAtNewlines(s: Line)
    ensures forall i :: 0 <= i < |SplitLines(s)| ==> OneLine(SplitLines(s)[i])
  {
    if s != [] {
      var front, c := s[..|s|-1], s[|s|-1];
      var ls := SplitLines(front);
      SplitAtNewlines(front);
      if c != NEWLINE {
        assert OneLine(ls[|ls|-1]) && OneLine(ls[|ls|-1] + [c]);
      }
    }
  }

  // ----- Rows -----

  /** The rows of the text: each of its lines in pieces of the given width. */
  function Rows(s: Line, width: nat): seq<Line>
    requires width > 0
  {
    AllPieces(SplitLines(s), width)
  }

  lemma {:induction false} PiecesEnd(word: Line, width: nat)
    requires width > 0
    ensures var ps := Pieces(word, width); ps != [] && |ps[|ps|-1]| <= width
    decreases |word|
  {
    if |word| > width {
      PiecesEnd(word[width..], width);
    }
  }

  /** A row is added to its end, or to the rows when it is full. */
  function Extended(rows: seq<Line>, c: Rune, width: nat): seq<Line>
    requires rows != []
  {
    var last := rows[|rows|-1];
    if |last| < width then rows[..|rows|-1] + [last + [c]] else rows + [[c]]
  }

  lemma ExtendedBehind(rows: seq<Line>, more: seq<Line>, c: Rune, width: nat)
    requires more != []
    ensures Extended(rows + more, c, width) == rows + Extended(more, c, width)
  {
    assert (rows + more)[..|rows + more| - 1] == rows + more[..|more| - 1];
  }

  lemma {:induction false} PiecesExtended(word: Line, c: Rune, width: nat)
    requires width > 0
    ensures Pieces(word, width) != [] && Pieces(word + [c], width) == Extended(Pieces(word, width), c, width)
    decreases |word|
  {
    if |word| > width {
      PiecesExtended(word[width..], c, width);
      ExtendedBehind([word[..width]], Pieces(word[width..], width), c, width);
      assert (word + [c])[..width] == word[..width] && (word + [c])[width..] == word[width..] + [c];
    } else if |word| == width {
      assert (word + [c])[..width] == word && (word + [c])[width..] == [c];
    } else {
      assert [word][..0] == [];
    }
  }

  lemma RowsNewline(s: Line, width: nat)
    requires width > 0
    ensures Rows(s + [NEWLINE], width) == Rows(s, width) + [[]]
  {
    SplitSnoc(s, NEWLINE);
    AllPiecesSnoc(SplitLines(s), [], width);
  }

  lemma RowsExtended(s: Line, c: Rune, width: nat)
    requires width > 0 && c != NEWLINE
    ensures Rows(s, width) != [] && Rows(s + [c], width) == Extended(Rows(s, width), c, width)
  {
    var ls := SplitLines(s);
    var front, line := ls[..|ls|-1], ls[|ls|-1];
    SplitSnoc(s, c);
    assert ls == front + [line];
    AllPiecesSnoc(front, line, width);
    AllPiecesSnoc(front, line + [c], width);
    PiecesExtended(line, c, width);
    ExtendedBehind(AllPieces(front, width), Pieces(line, width), c, width);
  }

  // ----- The rows of a part of the text -----

  /** Where the rows `before` end on those of a longer text: on a row that is there, behind their own characters. */
  predicate EndsOn(before: seq<Line>, rows: seq<Line>) {
    && 0 < |before| <= |rows|
    && rows[..|before|-1] == before[..|before|-1]
    && before[|before|-1] <= rows[|before|-1]
  }

  lemma EndsOnExtended(before: seq<Line>, rows: seq<Line>, c: Rune, width: nat)
    requires EndsOn(before, rows)
    ensures EndsOn(before, Extended(rows, c, width)) && EndsOn(before, rows + [[]])
  {
    var more := Extended(rows, c, width);
    assert rows[..|before|-1] == more[..|before|-1];
    assert rows[|before|-1] <= more[|before|-1];
  }

  /** What stands before a place in the input stands before that place on the rows. */
  lemma {:induction false} RowsOfPrefix(s: Line, n: nat, width: nat)
    requires n <= |s| && width > 0
    ensures EndsOn(Rows(s[..n], width), Rows(s, width))
    decreases |s|
  {
    if n == |s| {
      assert s[..n] == s;
      RowsNotEmpty(s, width);
    } else {
      var front, c := s[..|s|-1], s[|s|-1];
      assert s == front + [c] && front[..n] == s[..n];
      RowsOfPrefix(front, n, width);
      EndsOnExtended(Rows(s[..n], width), Rows(front, width), c, width);
      if c == NEWLINE {
        RowsNewline(front, width);
      } else {
        RowsExtended(front, c, width);
      }
    }
  }

  lemma RowsNotEmpty(s: Line, width: nat)
    requires width > 0
    ensures Rows(s, width) != []
  {
    var ls := SplitLines(s);
    PiecesEnd(ls[|ls|-1], width);
  }

  // ----- Nothing is lost, and what fits -----

  function Unbroken(s: Line): Line {
    if s == [] then [] else Unbroken(s[..|s|-1]) + if s[|s|-1] == NEWLINE then [] else [s[|s|-1]]
  }

  lemma {:induction false} SplitKeeps(s: Line)
    ensures Flatten(SplitLines(s)) == Unbroken(s)
  {
    if s != [] {
      var front, c := s[..|s|-1], s[|s|-1];
      var ls := SplitLines(front);
      SplitKeeps(front);
      if c == NEWLINE {
        FlattenSnoc(ls, []);
      } else {
        FlattenSnoc(ls[..|ls|-1], ls[|ls|-1] + [c]);
        ConcatAssociates(Flatten(ls[..|ls|-1]), ls[|ls|-1], [c]);
      }
    } else {
      assert SplitLines(s)[..0] == [];
    }
  }

  /** The rows hold the input, newlines aside. */
  lemma RowsKeep(s: Line, width: nat)
    requires width > 0
    ensures Flatten(Rows(s, width)) == Unbroken(s)
  {
    AllPiecesAreWords(SplitLines(s), width);
    SplitKeeps(s);
  }

  predicate Within(rows: seq<Line>, width: nat) {
    forall i :: 0 <= i < |rows| ==> |rows[i]| <= width
  }

  lemma {:induction false} PiecesWithin(word: Line, width: nat)
    requires width > 0
    ensures Within(Pieces(word, width), width)
    decreases |word|
  {
    if |word| > width {
      PiecesWithin(word[width..], width);
    }
  }

  lemma {:induction false} AllPiecesWithin(words: seq<Line>, width: nat)
    requires width > 0
    ensures Within(AllPieces(words, width), width)
  {
    if words != [] {
      AllPiecesWithin(words[..|words|-1], width);
      PiecesWithin(words[|words|-1], width);
    }
  }

  lemma {:induction false} EmptyRows(rows: seq<Line>)
    ensures Within(rows, 0) <==> Flatten(rows) == []
  {
    if rows != [] {
      EmptyRows(rows[..|rows|-1]);
      assert rows == rows[..|rows|-1] + [rows[|rows|-1]];
    }
  }

  /** The width left for the input, at least one column. */
  function Available(width: nat, prefix: nat): nat {
    if width > prefix then width - prefix else 1
  }

  /** Behind a prefix all rows fit the terminal exactly when it leaves a column, or there is nothing to show. */
  lemma RowsFitIff(s: Line, width: nat, prefix: nat)
    requires prefix <= width
    ensures Within(Rows(s, Available(width, prefix)), width - prefix) <==> prefix < width || Unbroken(s) == []
  {
    var a := Available(width, prefix);
    AllPiecesWithin(SplitLines(s), a);
    RowsKeep(s, a);
    EmptyRows(Rows(s, a));
  }

  // ----- Drawing -----

  function Spaces(n: nat): seq<Byte> {
    seq(n, _ => 0x20)
  }

  /** What stands in front of a row: the prefix on the first, as many spaces on the others. */
  function Head(prefix: seq<Byte>, width: nat, row: nat): seq<Byte> {
    if row > 0 then Spaces(width) else prefix
  }

  predicate Drawn(lines: seq<seq<Byte>>, rows: seq<Line>, prefix: seq<Byte>, width: nat) {
    |lines| == |rows| && forall i :: 0 <= i < |lines| ==> lines[i] == Head(prefix, width, i) + EncodeAll(rows[i])
  }

  /** The rows drawn and the row being filled are those of the text read so far. */
  ghost predicate Laying(lines: seq<seq<Byte>>, rows: seq<Line>, row: Line, prefix: seq<Byte>, indent: nat,
                         read: Line, width: nat)
    requires width > 0
  {
    Drawn(lines, rows, prefix, indent) && rows + [row] == Rows(read, width)
  }

  /** The closure `flushLine` */
  method FlushRow(lines: seq<seq<Byte>>, ghost rows: seq<Line>, lineRunes: Line, prefix: seq<Byte>, indent: nat)
    returns (lines': seq<seq<Byte>>)
    requires Drawn(lines, rows, prefix, indent)
    ensures Drawn(lines', rows + [lineRunes], prefix, indent)
  {
    var prefixStr := prefix;
    if |lines| > 0 { prefixStr := Spaces(indent); }
    lines' := lines + [prefixStr + EncodeAll(lineRunes)];
  }

  lemma LastOf(rows: seq<Line>, row: Line, c: Rune, width: nat)
    ensures Extended(rows + [row], c, width) == if |row| < width then rows + [row + [c]] else rows + [row] + [[c]]
  {
    assert (rows + [row])[..|rows|] == rows;
  }

  /** The round for the next code point. */
  method LayRune(lines: seq<seq<Byte>>, ghost rows: seq<Line>, lineRunes: Line, prefix: seq<Byte>, indent: nat,
                 ghost read: Line, r: Rune, width: nat)
    returns (lines': seq<seq<Byte>>, ghost rows': seq<Line>, lineRunes': Line)
    requires width > 0 && Laying(lines, rows, lineRunes, prefix, indent, read, width)
    ensures Laying(lines', rows', lineRunes', prefix, indent, read + [r], width)
  {
    lines', rows', lineRunes' := lines, rows, lineRunes;
    if r == NEWLINE {
      RowsNewline(read, width);
      lines' := FlushRow(lines, rows, lineRunes, prefix, indent);
      return lines', rows + [lineRunes], [];
    }
    RowsExtended(read, r, width);
    LastOf(rows, lineRunes, r, width);
    if |lineRunes| >= width {
      lines' := FlushRow(lines, rows, lineRunes, prefix, indent);
      rows', lineRunes' := rows + [lineRunes], [];
      assert [] + [r] == [r];
    }
    lineRunes' := lineRunes' + [r];
  }

  // ----- The cursor -----

  function Clamp(cursor: int, n: nat): (c: nat)
    ensures c <= n
  {
    if cursor < 0 then 0 else if cursor > n then n else cursor
  }

  /** Where the cursor stands, before it is kept on the terminal: behind the text before it. */
  ghost predicate CursorAt(row: int, col: int, before: Line, indent: nat, width: nat)
    requires width > 0
  {
    var rows := Rows(before, width);
    rows != [] && row == |rows| && col == indent + |rows[|rows|-1]| + 1
  }

  /** Line and column of the place the text read so far has come to. */
  lemma CursorHere(lines: seq<seq<Byte>>, rows: seq<Line>, row: Line, prefix: seq<Byte>, indent: nat, read: Line,
                   width: nat)
    requires width > 0 && Laying(lines, rows, row, prefix, indent, read, width)
    ensures CursorAt(|lines| + 1, indent + |row| + 1, read, indent, width)
  {
    assert Rows(read, width)[|rows|] == row;
  }

  lemma NothingLaid(prefix: seq<Byte>, indent: nat, width: nat)
    requires width > 0
    ensures Laying([], [], [], prefix, indent, [], width)
  {
    var ls := SplitLines([]);
    assert ls == [[]] && ls[..0] == [];
    assert AllPieces(ls, width) == AllPieces(ls[..0], width) + Pieces(ls[0], width);
  }

  /** The loop over the input. */
  method LayInput(runes: Line, cursor: nat, prefix: seq<Byte>, indent: nat, width: nat)
    returns (lines: seq<seq<Byte>>, cursorRow: int, cursorCol: int)
    requires width > 0 && cursor <= |runes|
    ensures Drawn(lines, Rows(runes, width), prefix, indent)
    ensures CursorAt(cursorRow, cursorCol, runes[..cursor], indent, width)
  {
    lines, cursorRow, cursorCol := [], 1, indent + 1;
    var lineRunes: Line, cursorSet := [], false;
    ghost var rows: seq<Line> := [];
    NothingLaid(prefix, indent, width);
    for i := 0 to |runes|
      invariant Laying(lines, rows, lineRunes, prefix, indent, runes[..i], width)
      invariant cursorSet == (cursor < i)
      invariant cursorSet ==> CursorAt(cursorRow, cursorCol, runes[..cursor], indent, width)
    {
      if !cursorSet && i == cursor {
        CursorHere(lines, rows, lineRunes, prefix, indent, runes[..i], width);
        cursorRow, cursorCol, cursorSet := |lines| + 1, indent + |lineRunes| + 1, true;
      }
      assert runes[..i + 1] == runes[..i] + [runes[i]];
      lines, rows, lineRunes := LayRune(lines, rows, lineRunes, prefix, indent, runes[..i], runes[i], width);
    }
    assert runes[..|runes|] == runes;
    if !cursorSet && cursor == |runes| {
      CursorHere(lines, rows, lineRunes, prefix, indent, runes, width);
      cursorRow, cursorCol := |lines| + 1, indent + |lineRunes| + 1;
    }
    lines := FlushRow(lines, rows, lineRunes, prefix, indent);
  }

  /** The width that is used: without one, all of the input fits. */
  function UsedWidth(prefix: seq<Byte>, input: seq<Byte>, width: int): (w: nat)
    ensures w > 0
  {
    if width <= 0 then |Visible(prefix)| + |Runes(input)| + 1 else width
  }

  /** The prefix that is shown. */
  function UsedPrefix(prefix: seq<Byte>, width: nat): (p: seq<Byte>)
    ensures |Visible(p)| == if |Visible(prefix)| > width then width else |Visible(prefix)|
  {
    TrimKeepsVisible(prefix, width);
    if |Visible(prefix)| > width then Trim(prefix, width) else prefix
  }

  /** The caller gave no width, or a prefix that leaves a column of it. */
  predicate Roomy(prefix: seq<Byte>, width: int) {
    width <= 0 || |Visible(prefix)| < width
  }

  /** The columns the prefix takes, and those left for the input. */
  function Indent(prefix: seq<Byte>, input: seq<Byte>, width: int): (n: nat)
    ensures n <= UsedWidth(prefix, input, width)
    ensures n < UsedWidth(prefix, input, width) <==> Roomy(prefix, width)
  {
    |Visible(UsedPrefix(prefix, UsedWidth(prefix, input, width)))|
  }

  function Columns(prefix: seq<Byte>, input: seq<Byte>, width: int): (a: nat)
    ensures a > 0
  {
    Available(UsedWidth(prefix, input, width), Indent(prefix, input, width))
  }

  /** The column of the cursor before it is kept on the terminal. */
  function FreeColumn(prefix: seq<Byte>, input: seq<Byte>, cursor: int, width: int): int {
    var text := Runes(input);
    var before := Rows(text[..Clamp(cursor, |text|)], Columns(prefix, input, width));
    Indent(prefix, input, width) + (if before == [] then 0 else |before[|before|-1]|) + 1
  }

  /** The first part of `renderInputLines`: the width and prefix that are used. */
  method Measure(prefix: seq<Byte>, input: seq<Byte>, width: int)
    returns (w: nat, prefixVisible: seq<Byte>, prefixWidth: nat)
    ensures w == UsedWidth(prefix, input, width) && prefixVisible == UsedPrefix(prefix, w)
    ensures prefixWidth == |Visible(prefixVisible)|
  {
    prefixWidth := VisibleWidth(prefix);
    w := if width <= 0 then prefixWidth + |Runes(input)| + 1 else width;
    prefixVisible := prefix;
    if prefixWidth > w {
      prefixVisible := TrimANSIToWidth(prefix, w);
      prefixWidth := VisibleWidth(prefixVisible);
    }
  }

  lemma CursorRows(text: Line, width: nat)
    requires width > 0
    ensures |Rows(text[..0], width)| == 1 && text[..|text|] == text
  {
    assert text[..0] == [];
    RowsOfNothing(width);
  }

  lemma RowsOfNothing(width: nat)
    requires width > 0
    ensures Rows([], width) == [[]]
  {
    var none: seq<Line> := [];
    AllPiecesSnoc(none, [], width);
    assert none + [[]] == [[]] && SplitLines([]) == [[]];
  }

  /** `renderInputLines` */
  method RenderInputLines(prefix: seq<Byte>, input: seq<Byte>, cursor: int, width: int)
    returns (lines: seq<seq<Byte>>, cursorRow: int, cursorCol: int)
    ensures var w, text := UsedWidth(prefix, input, width), Runes(input);
      var a, col := Columns(prefix, input, width), FreeColumn(prefix, input, cursor, width);
      && Drawn(lines, Rows(text, a), UsedPrefix(prefix, w), Indent(prefix, input, width))
      && cursorRow == |Rows(text[..Clamp(cursor, |text|)], a)| > 0
      && cursorCol == if col > w then w else col
    ensures var p, indent := UsedPrefix(prefix, UsedWidth(prefix, input, width)), Indent(prefix, input, width);
      var text, a := Runes(input), Columns(prefix, input, width);
      && |lines| == |Rows(text, a)|
      && (forall i :: 0 <= i < |lines| ==>
            lines[i] == (if i == 0 then p else seq(indent, _ => 0x20)) + EncodeAll(Rows(text, a)[i]))
      && (0 <= cursor <= |text| ==> cursorRow == |Rows(text[..cursor], a)|)
      && (cursor < 0 ==> cursorRow == 1) && (cursor > |text| ==> cursorRow == |Rows(text, a)|)
  {
    var inputRunes := Runes(input);
    var at := cursor;
    if at < 0 { at := 0; }
    if at > |inputRunes| { at := |inputRunes|; }
    var w, prefixVisible, prefixWidth := Measure(prefix, input, width);
    var available := w - prefixWidth;
    if available < 1 { available := 1; }
    lines, cursorRow, cursorCol := LayInput(inputRunes, at, prefixVisible, prefixWidth, available);
    CursorRows(inputRunes, available);
    if cursorCol < 1 { cursorCol := 1; }
    if cursorCol > w { cursorCol := w; }
  }

  // ----- What the reader sees -----

  /** The cursor is on a row that is there, on the terminal, and the rows up to it hold the input before it. */
  lemma CursorOnInput(s: Line, n: nat, width: nat)
    requires width > 0 && n <= |s|
    ensures var before, rows := Rows(s[..n], width), Rows(s, width);
      var k := |before| - 1;
      && 0 <= k < |rows| && |before[k]| <= |rows[k]|
      && Flatten(rows[..k] + [rows[k][..|before[k]|]]) == Unbroken(s[..n])
  {
    var before, rows := Rows(s[..n], width), Rows(s, width);
    RowsOfPrefix(s, n, width);
    RowsKeep(s[..n], width);
    var k := |before| - 1;
    assert before[k] == rows[k][..|before[k]|];
    assert before == before[..k] + [before[k]];
  }

  lemma {:induction false} SpacesWhole(n: nat)
    ensures Whole(Spaces(n)) && |Visible(Spaces(n))| == n
  {
    if n == 0 {
      WholeEmpty();
      assert Spaces(0) == [];
    } else {
      SpacesWhole(n - 1);
      WholeRune(SPACE);
      WholeConcat([SPACE], Spaces(n - 1));
      assert Spaces(n) == [SPACE] + Spaces(n - 1);
    }
  }

  /** A row takes as many columns as its prefix or indentation and its text. */
  lemma RowWidth(prefix: seq<Byte>, i: nat, text: Line)
    requires Whole(prefix) && NoEscape(text)
    ensures |Visible(Head(prefix, |Visible(prefix)|, i) + EncodeAll(text))| == |Visible(prefix)| + |text|
  {
    var head := Head(prefix, |Visible(prefix)|, i);
    SpacesWhole(|Visible(prefix)|);
    WholeText(text);
    WholeConcat(head, EncodeAll(text));
  }

  lemma {:induction false} FlattenHas(rows: seq<Line>, i: nat, r: Rune)
    requires i < |rows| && r in rows[i]
    ensures r in Flatten(rows)
  {
    if i < |rows| - 1 {
      FlattenHas(rows[..|rows|-1], i, r);
    }
  }

  lemma {:induction false} UnbrokenHas(s: Line, r: Rune)
    requires r in Unbroken(s)
    ensures r in s
  {
    if r != s[|s|-1] {
      UnbrokenHas(s[..|s|-1], r);
    }
  }

  lemma RowsNoEscape(s: Line, width: nat, i: nat)
    requires width > 0 && NoEscape(s) && i < |Rows(s, width)|
    ensures NoEscape(Rows(s, width)[i])
  {
    var row := Rows(s, width)[i];
    RowsKeep(s, width);
    forall j | 0 <= j < |row| ensures row[j] != ESC {
      FlattenHas(Rows(s, width), i, row[j]);
      UnbrokenHas(s, row[j]);
    }
  }

  predicate AllFit(lines: seq<seq<Byte>>, width: nat) {
    forall i :: 0 <= i < |lines| ==> |Visible(lines[i])| <= width
  }

  /** The line is as wide as the row behind its prefix. */
  ghost predicate WideAs(line: seq<Byte>, row: Line, indent: nat) {
    |Visible(line)| == indent + |row|
  }

  lemma FitIffWithin(lines: seq<seq<Byte>>, rows: seq<Line>, indent: nat, width: nat)
    requires |lines| == |rows| && indent <= width && forall i :: 0 <= i < |lines| ==> WideAs(lines[i], rows[i], indent)
    ensures AllFit(lines, width) <==> Within(rows, width - indent)
  {
    if !Within(rows, width - indent) {
      var i :| 0 <= i < |rows| && |rows[i]| > width - indent;
      assert WideAs(lines[i], rows[i], indent);
    }
  }

  lemma DrawnWidth(line: seq<Byte>, s: Line, prefix: seq<Byte>, a: nat, i: nat)
    requires Whole(prefix) && NoEscape(s) && a > 0 && i < |Rows(s, a)|
    requires line == Head(prefix, |Visible(prefix)|, i) + EncodeAll(Rows(s, a)[i])
    ensures WideAs(line, Rows(s, a)[i], |Visible(prefix)|)
  {
    RowsNoEscape(s, a, i);
    RowWidth(prefix, i, Rows(s, a)[i]);
  }

  lemma DrawnWidths(lines: seq<seq<Byte>>, s: Line, prefix: seq<Byte>, a: nat, rows: seq<Line>, indent: nat)
    requires Whole(prefix) && NoEscape(s) && a > 0 && rows == Rows(s, a) && indent == |Visible(prefix)|
    requires Drawn(lines, rows, prefix, indent)
    ensures forall i :: 0 <= i < |lines| ==> WideAs(lines[i], rows[i], indent)
  {
    forall i | 0 <= i < |lines| ensures WideAs(lines[i], rows[i], indent) {
      DrawnWidth(lines[i], s, prefix, a, i);
    }
  }

  // ----- When the input fits -----

  /**
    Counting a column for each code point, as the code does, every row fits exactly when the prefix leaves a
    column or the input has nothing to show.
   */
  lemma InputFitsIff(prefix: seq<Byte>, input: seq<Byte>, width: int)
    ensures var w, indent := UsedWidth(prefix, input, width), Indent(prefix, input, width);
      Within(Rows(Runes(input), Columns(prefix, input, width)), w - indent) <==>
      Roomy(prefix, width) || Unbroken(Runes(input)) == []
  {
    RowsFitIff(Runes(input), UsedWidth(prefix, input, width), Indent(prefix, input, width));
  }

  lemma ShownIsWhole(prefix: seq<Byte>, w: nat)
    requires Whole(prefix) || |Visible(prefix)| > w
    ensures Whole(UsedPrefix(prefix, w))
  {
    if |Visible(prefix)| > w {
      TrimmedIsWhole(prefix, w);
    }
  }

  /** What a terminal shows of every line drawn fits it under the same condition. */
  lemma DrawnFitsIff(lines: seq<seq<Byte>>, prefix: seq<Byte>, input: seq<Byte>, width: int)
    requires Whole(prefix) || |Visible(prefix)| > UsedWidth(prefix, input, width)
    requires NoEscape(Runes(input))
    requires var w := UsedWidth(prefix, input, width);
      Drawn(lines, Rows(Runes(input), Columns(prefix, input, width)), UsedPrefix(prefix, w),
            Indent(prefix, input, width))
    ensures AllFit(lines, UsedWidth(prefix, input, width)) <==> Roomy(prefix, width) || Unbroken(Runes(input)) == []
  {
    var w := UsedWidth(prefix, input, width);
    ShownIsWhole(prefix, w);
    var a, indent := Columns(prefix, input, width), Indent(prefix, input, width);
    DrawnWidths(lines, Runes(input), UsedPrefix(prefix, w), a, Rows(Runes(input), a), indent);
    FitIffWithin(lines, Rows(Runes(input), a), indent, w);
    InputFitsIff(prefix, input, width);
  }

  /** A prefix as wide as the terminal, and one character behind it. */
  lemma RowTooWide()
    ensures var prefix: seq<Byte>, input: seq<Byte> := [0x3E], [0x61];
      && Rows(Runes(input), Columns(prefix, input, 1)) == [[0x61]]
      && UsedWidth(prefix, input, 1) == Indent(prefix, input, 1) == 1
      && !Within(Rows(Runes(input), Columns(prefix, input, 1)), 0)
  {
    var prefix: seq<Byte>, input: seq<Byte> := [0x3E], [0x61];
    assert prefix[1..] == [] && input[1..] == [];
    assert Visible(prefix) == [0x3E] && Runes(input) == [0x61];
    RowsOfOne(0x61, 1);
  }

  lemma RowsOfOne(r: Rune, width: nat)
    requires r != NEWLINE && width > 0
    ensures Rows([r], width) == [[r]]
  {
    NothingLaid([], 0, width);
    assert [] + [[]] == Rows([], width);
    RowsExtended([], r, width);
    assert [] + [r] == [r];
    LastOf([], [], r, width);
  }

  // ----- When the cursor's column is cut -----

  lemma ModOfRest(n: nat, width: nat)
    requires n >= width > 0
    ensures (n - width) % width == n % width
  {
    var q, r := n / width, n % width;
    assert n == q * width + r;
    assert n - width == (q - 1) * width + r;
    ModIs(n - width, q - 1, r, width);
  }

  lemma ModIs(n: nat, q: int, r: nat, width: nat)
    requires r < width && n == q * width + r
    ensures n % width == r
  {
    var d := n / width - q;
    assert n == n / width * width + n % width;
    assert d * width == n / width * width - q * width;
    Multiple(d, width);
  }

  lemma Multiple(d: int, width: int)
    requires width >= 0
    ensures (d > 0 ==> d * width >= width) && (d < 0 ==> d * width <= -width)
  {
    if d > 0 {
      assert (d - 1) * width >= 0;
    } else if d < 0 {
      assert (-d - 1) * width >= 0;
    }
  }

  lemma {:induction false} LastPieceFull(word: Line, width: nat)
    requires width > 0
    ensures var ps := Pieces(word, width); ps != [] && (|ps[|ps|-1]| == width <==> word != [] && |word| % width == 0)
    decreases |word|
  {
    if |word| > width {
      LastPieceFull(word[width..], width);
      ModOfRest(|word|, width);
    } else if |word| == width {
      ModOfRest(width, width);
    }
  }

  /** The line the cursor is on, up to the cursor. */
  function LineBefore(input: seq<Byte>, cursor: int): Line {
    var text := Runes(input);
    var ls := SplitLines(text[..Clamp(cursor, |text|)]);
    ls[|ls|-1]
  }

  lemma LastRow(s: Line, width: nat)
    requires width > 0
    ensures var rows, ls := Rows(s, width), SplitLines(s);
      var ps := Pieces(ls[|ls|-1], width);
      rows != [] && ps != [] && rows[|rows|-1] == ps[|ps|-1]
  {
    var ls := SplitLines(s);
    PiecesEnd(ls[|ls|-1], width);
  }

  /**
    The cursor is not shown behind the text before it exactly when the prefix leaves no column, or that text
    ends a full row: its last line is not empty and fills whole rows.
   */
  lemma ColumnCutIff(prefix: seq<Byte>, input: seq<Byte>, cursor: int, width: int)
    ensures var line := LineBefore(input, cursor);
      FreeColumn(prefix, input, cursor, width) > UsedWidth(prefix, input, width) <==>
      !Roomy(prefix, width) || (line != [] && |line| % Columns(prefix, input, width) == 0)
  {
    var text := Runes(input);
    var s, a := text[..Clamp(cursor, |text|)], Columns(prefix, input, width);
    LastRow(s, a);
    LastPieceFull(LineBefore(input, cursor), a);
    AllPiecesWithin(SplitLines(s), a);
  }

  /** A prefix of one column and two characters fill three columns: the cursor stands on the second. */
  lemma CursorOnFullRow()
    ensures var prefix: seq<Byte>, input: seq<Byte> := [0x3E], [0x61, 0x62];
      FreeColumn(prefix, input, 2, 3) > UsedWidth(prefix, input, 3) == 3
  {
    var prefix: seq<Byte>, input: seq<Byte> := [0x3E], [0x61, 0x62];
    assert prefix[1..] == [] && input[1..] == [0x62] && input[1..][1..] == [];
    assert Visible(prefix) == [0x3E] && Runes(input[1..]) == [0x62] && Runes(input) == [0x61, 0x62];
    assert Runes(input)[..2] == [0x61] + [0x62];
    RowsOfOne(0x61, 2);
    RowsExtended([0x61], 0x62, 2);
    assert [[0x61]][..0] == [];
  }
}
