/** Markdown wrapped onto terminal lines: which characters stand where, and in which style. */
module MarkdownLines {
  import opened Text
  import opened Seqs
  import opened Utf8
  import opened Ansi
  import opened Paint
  import opened Filling
  import opened Wrap
  import opened InlineMarkdown

  // ----- Styles -----

  datatype Rgb = Rgb(r: int, g: int, b: int)

  datatype Style = Style(
    baseItalic: bool, baseBold: bool, baseFG: Option<Rgb>, boldFG: Option<Rgb>, codeFG: Option<Rgb>)

  function Digits(n: nat): (s: seq<Byte>)
    ensures NoFinal(s)
  {
    (if n < 10 then [] else Digits(n / 10)) + [0x30 + n % 10]
  }

  /** `strconv.Itoa` */
  function Itoa(n: int): (s: seq<Byte>)
    ensures NoFinal(s)
  {
    if n < 0 then [0x2D] + Digits(-n) else Digits(n)
  }

  /** One more parameter, after a semicolon, in front of others. */
  function Param(n: int, more: seq<Byte>): (s: seq<Byte>)
    requires NoFinal(more)
    ensures NoFinal(s)
  {
    [0x3B] + Itoa(n) + more
  }

  /** The parameters `38;2;r;g;b`. */
  function FgBody(c: Rgb): (s: seq<Byte>)
    ensures NoFinal(s) && |s| > 1
  {
    [0x33, 0x38, 0x3B, 0x32] + Param(c.r, Param(c.g, Param(c.b, [])))
  }

  /** `ansiFgRGB`, when there is a colour. */
  function Fg(c: Option<Rgb>): seq<Byte> {
    if c.None? then [] else Sgr(FgBody(c.value))
  }

  /** The style of the text around the spans. */
  function Base(style: Style): seq<Byte> {
    If(style.baseItalic, ITALIC) + If(style.baseBold, BOLD) + Fg(style.baseFG)
  }

  /** The closure `styleForSpan` */
  function StyleFor(style: Style, m: Mode): Pen {
    Base(style) + If(m.code, Fg(style.codeFG)) + If(m.bold, BOLD + Fg(style.boldFG)) + If(m.italic, ITALIC)
  }

  lemma MarksFg(c: Option<Rgb>)
    ensures Marks(Fg(c))
  {
    if c.None? {
      MarksEmpty();
    } else {
      MarksSgr(FgBody(c.value));
    }
  }

  lemma MarksIf(b: bool, code: seq<Byte>)
    requires Marks(code)
    ensures Marks(If(b, code))
  {
    MarksEmpty();
  }

  lemma MarksBase(style: Style)
    ensures Marks(Base(style))
  {
    MarksSgr([0x33]);
    MarksSgr([0x31]);
    MarksFg(style.baseFG);
    MarksIf(style.baseItalic, ITALIC);
    MarksIf(style.baseBold, BOLD);
    MarksConcat(If(style.baseItalic, ITALIC), If(style.baseBold, BOLD));
    MarksConcat(If(style.baseItalic, ITALIC) + If(style.baseBold, BOLD), Fg(style.baseFG));
  }

  /** Every span's style shows nothing and adds its codes, none of them a reset, to the pen. */
  lemma StyleMarks(style: Style, m: Mode)
    ensures Marks(StyleFor(style, m))
  {
    MarksBase(style);
    MarksSgr([0x33]);
    MarksSgr([0x31]);
    MarksFg(style.codeFG);
    MarksFg(style.boldFG);
    MarksConcat(BOLD, Fg(style.boldFG));
    MarksIf(m.code, Fg(style.codeFG));
    MarksIf(m.bold, BOLD + Fg(style.boldFG));
    MarksIf(m.italic, ITALIC);
    MarksConcat(Base(style), If(m.code, Fg(style.codeFG)));
    MarksConcat(Base(style) + If(m.code, Fg(style.codeFG)), If(m.bold, BOLD + Fg(style.boldFG)));
    MarksConcat(Base(style) + If(m.code, Fg(style.codeFG)) + If(m.bold, BOLD + Fg(style.boldFG)), If(m.italic, ITALIC));
  }

  // ----- Tokens -----

  predicate MarkdownToken(t: Token) {
    if t.space then t.text == [SPACE] else NoSpace(t.text) && t.text != []
  }

  predicate MarkdownTokens(ts: seq<Token>) {
    forall i :: 0 <= i < |ts| ==> MarkdownToken(ts[i])
  }

  /** What `tokenizeMarkdown` has made of the text read so far. */
  ghost predicate Tokenized(read: Line, ts: seq<Token>, buf: Line) {
    && MarkdownTokens(ts) && NoSpace(buf) && (buf == [] <==> AtGap(read))
    && Words(read) == TokenWords(ts) + if buf == [] then [] else [buf]
  }

  lemma WordContinued(read: Line, words: seq<Line>, buf: Line, r: Rune)
    requires Words(read) == words + [buf] && !AtGap(read) && !IsSpace(r)
    ensures Words(read + [r]) == words + [buf + [r]]
  {
    WordsSnoc(read, r);
    assert (words + [buf])[..|words|] == words;
  }

  lemma WordTaken(read: Line, ts: seq<Token>, buf: Line, r: Rune)
    requires Tokenized(read, ts, buf) && !IsSpace(r)
    ensures Tokenized(read + [r], ts, buf + [r])
  {
    if buf == [] {
      WordsSnoc(read, r);
      ConcatEmpty(TokenWords(ts));
      assert buf + [r] == [r];
    } else {
      WordContinued(read, TokenWords(ts), buf, r);
    }
  }

  lemma BufferTaken(read: Line, ts: seq<Token>, buf: Line)
    requires Tokenized(read, ts, buf)
    ensures MarkdownTokens(Flushed(ts, buf, false)) && TokenWords(Flushed(ts, buf, false)) == Words(read)
  {
    TokenWordsSnoc(ts, Token(buf, false));
    ConcatEmpty(TokenWords(ts));
  }

  lemma SpaceTaken(read: Line, ts: seq<Token>, buf: Line, r: Rune)
    requires Tokenized(read, ts, buf) && IsSpace(r)
    ensures Tokenized(read + [r], Flushed(ts, buf, false) + [Token([SPACE], true)], [])
  {
    BufferTaken(read, ts, buf);
    WordsSnoc(read, r);
    TokenWordsSnoc(Flushed(ts, buf, false), Token([SPACE], true));
    ConcatEmpty(Words(read));
  }

  lemma SpaceGathered(ts: seq<Token>, buf: Line)
    ensures Gathered(Flushed(ts, buf, false) + [Token([SPACE], true)], []) == Gathered(ts, buf) + [SPACE]
  {
    GatheredFlushed(ts, buf, false);
    TokensTextSnoc(Flushed(ts, buf, false), Token([SPACE], true));
    ConcatEmpty(TokensText(Flushed(ts, buf, false) + [Token([SPACE], true)]));
  }

  /** One round of `tokenizeMarkdown`. */
  method TakeRune(text: Line, n: nat, ts: seq<Token>, buf: Line) returns (ts': seq<Token>, buf': Line)
    requires n < |text| && Tokenized(text[..n], ts, buf) && Gathered(ts, buf) == Spaced(text[..n])
    ensures Tokenized(text[..n + 1], ts', buf') && Gathered(ts', buf') == Spaced(text[..n + 1])
  {
    assert text[..n + 1] == text[..n] + [text[n]];
    SpacedSnoc(text[..n], text[n]);
    if IsSpace(text[n]) {
      SpaceGathered(ts, buf);
      SpaceTaken(text[..n], ts, buf, text[n]);
      return Flushed(ts, buf, false) + [Token([SPACE], true)], [];
    }
    WordTaken(text[..n], ts, buf, text[n]);
    ConcatAssociates(TokensText(ts), buf, [text[n]]);
    return ts, buf + [text[n]];
  }

  /** `tokenizeMarkdown`: the words of the text, and one space for each white space character. */
  method TokenizeMarkdown(text: Line) returns (tokens: seq<Token>)
    ensures MarkdownTokens(tokens) && TokenWords(tokens) == Words(text) && TokensText(tokens) == Spaced(text)
  {
    tokens := [];
    var buf: Line := [];
    for i := 0 to |text|
      invariant Tokenized(text[..i], tokens, buf) && Gathered(tokens, buf) == Spaced(text[..i])
    {
      tokens, buf := TakeRune(text, i, tokens, buf);
    }
    assert text[..|text|] == text;
    BufferTaken(text, tokens, buf);
    GatheredFlushed(tokens, buf, false);
    tokens := Flushed(tokens, buf, false);
  }

  lemma TokensNoEscape(ts: seq<Token>, text: Line, i: nat)
    requires TokensText(ts) == Spaced(text) && i < |ts| && NoEscape(text)
    ensures NoEscape(ts[i].text)
  {
    forall j | 0 <= j < |ts[i].text| ensures ts[i].text[j] != ESC {
      TokenRunes(ts, text, i, j);
    }
  }

  // ----- Rows -----

  /** A row is what a line is made of: pieces of words, and spaces. */
  type Row = seq<Ink>

  /** A space on its own. */
  predicate Gap(piece: Ink) {
    |piece| == 1 && piece[0].rune == SPACE
  }

  /** A piece of a word. */
  predicate Solidly(piece: Ink) {
    piece != [] && forall i :: 0 <= i < |piece| ==> !IsSpace(piece[i].rune)
  }

  predicate Tidy(row: Row) {
    forall i :: 0 <= i < |row| ==> Gap(row[i]) || Solidly(row[i])
  }

  /** The pieces that are no spaces. */
  function WordsIn(row: Row): Row {
    if row == [] then [] else WordsIn(row[..|row|-1]) + if Gap(row[|row|-1]) then [] else [row[|row|-1]]
  }

  lemma WordsInSnoc(row: Row, piece: Ink)
    ensures WordsIn(row + [piece]) == WordsIn(row) + if Gap(piece) then [] else [piece]
  {
    assert (row + [piece])[..|row|] == row;
  }

  function WordsInAll(rows: seq<Row>): Row {
    if rows == [] then [] else WordsInAll(rows[..|rows|-1]) + WordsIn(rows[|rows|-1])
  }

  lemma WordsInAllSnoc(rows: seq<Row>, row: Row)
    ensures WordsInAll(rows + [row]) == WordsInAll(rows) + WordsIn(row)
  {
    assert (rows + [row])[..|rows|] == rows;
  }

  /** The rows, the row being filled and the pieces still to place make up the target. */
  ghost predicate Placed(target: Row, rows: seq<Row>, row: Row, left: Row) {
    WordsInAll(rows) + WordsIn(row) + left == target
  }

  lemma RowFinished(target: Row, rows: seq<Row>, row: Row, left: Row)
    requires Placed(target, rows, row, left)
    ensures Placed(target, rows + [row], [], left)
  {
    WordsInAllSnoc(rows, row);
    ConcatEmpty(WordsInAll(rows) + WordsIn(row));
  }

  lemma GapPlaced(target: Row, rows: seq<Row>, row: Row, piece: Ink, left: Row)
    requires Placed(target, rows, row, left) && Gap(piece)
    ensures Placed(target, rows, row + [piece], left)
  {
    WordsInSnoc(row, piece);
    ConcatEmpty(WordsIn(row));
  }

  lemma PiecePlaced(target: Row, rows: seq<Row>, row: Row, piece: Ink, left: Row)
    requires Placed(target, rows, row, [piece] + left) && !Gap(piece)
    ensures Placed(target, rows, row + [piece], left)
  {
    WordsInSnoc(row, piece);
    ConcatAssociates(WordsInAll(rows), WordsIn(row), [piece]);
    ConcatAssociates(WordsInAll(rows) + WordsIn(row), [piece], left);
  }

  // ----- The line being written -----

  /** The variables the closures of `renderMarkdownLines` share. */
  datatype Page = Page(lines: seq<seq<Byte>>, b: seq<Byte>, visible: nat, style: Pen, suppress: bool)

  /** The line shows the row, no wider than it may be, and leaves no style behind. */
  ghost predicate ShownAs(line: seq<Byte>, row: Row, width: nat) {
    Paints(line, Flatten(row), []) && |Flatten(row)| <= width && Tidy(row)
  }

  /** The builder holds the row being filled. */
  ghost predicate Open(p: Page, row: Row, width: nat) {
    && Paints(p.b, Flatten(row), p.style) && p.visible == |Flatten(row)| <= width && Tidy(row)
    && (p.b == [] <==> row == []) && (p.b == [] ==> p.style == [])
  }

  ghost predicate Shown(lines: seq<seq<Byte>>, rows: seq<Row>, width: nat) {
    |lines| == |rows| && forall i :: 0 <= i < |lines| ==> ShownAs(lines[i], rows[i], width)
  }

  /** The closure `applyStyle`, on a builder that holds the given ink. */
  method ApplyStyle(b0: seq<Byte>, ghost ink: Ink, current: Pen, style: Pen) returns (b: seq<Byte>)
    requires Paints(b0, ink, current) && Marks(style) && (b0 == [] ==> current == [])
    ensures Paints(b, ink, style)
  {
    b := b0;
    if style == current && |b| > 0 { return; }
    if style == [] && |b| == 0 { return; }
    PaintsReset(b, ink, current);
    b := b + RESET;
    if style != [] {
      PaintsMark(b, ink, [], style);
      assert [] + style == style;
      b := b + style;
    }
  }

  /** `applyStyle` and then the text: one more piece on the row. */
  method WriteText(p: Page, ghost row: Row, text: Line, style: Pen, width: nat) returns (p': Page)
    requires Open(p, row, width) && Marks(style) && NoEscape(text) && text != [] && p.visible + |text| <= width
    requires Gap(Inked(text, style)) || Solidly(Inked(text, style))
    ensures Open(p', row + [Inked(text, style)], width) && p'.lines == p.lines && p'.suppress == p.suppress
    ensures p'.visible == p.visible + |text|
  {
    var b := ApplyStyle(p.b, Flatten(row), p.style, style);
    PaintsText(b, Flatten(row), style, text);
    FlattenSnoc(row, Inked(text, style));
    p' := p.(b := b + EncodeAll(text), visible := p.visible + |text|, style := style);
    assert EncodeAll(text) != [];
  }

  /** The closure `flushLine` */
  method FlushLine(p: Page, ghost rows: seq<Row>, ghost row: Row, wrapped: bool, width: nat)
    returns (p': Page, ghost rows': seq<Row>)
    requires Shown(p.lines, rows, width) && Open(p, row, width)
    ensures Shown(p'.lines, rows', width) && Open(p', [], width) && p'.visible == 0
    ensures rows' == if row == [] then rows else rows + [row]
    ensures p'.suppress == if row == [] then p.suppress else wrapped
  {
    if |p.b| == 0 { return p, rows; }
    var ink := Flatten(row);
    PaintsReset(p.b, ink, p.style);
    PaintsShows(p.b + RESET, ink, []);
    TrimOfWhole(p.b + RESET, width);
    var line := TrimANSIToWidth(p.b + RESET, width);
    PaintsReset(p.b + RESET, ink, []);
    PaintsNothing();
    p' := Page(p.lines + [line + RESET], [], 0, [], wrapped);
    rows' := rows + [row];
  }

  // ----- Placing words and spaces -----

  function RowText(row: Row): Line {
    RunesOf(Flatten(row))
  }

  function RowTexts(rows: seq<Row>): (ls: seq<Line>)
    ensures |ls| == |rows|
  {
    seq(|rows|, i requires 0 <= i < |rows| => RowText(rows[i]))
  }

  /** The rows, the row being filled, and the text they hold. */
  datatype Board = Board(rows: seq<Row>, row: Row, fill: Fill) {

    function Write(piece: Ink): Board {
      this.(row := row + [piece])
    }

    function Finish(): Board {
      Board(rows + [row], [], fill.Finish(RowText(row)))
    }

    function Skip(spaces: Line): Board {
      this.(fill := fill.Skip(spaces))
    }
  }

  /** The board holds the text read so far, and with the pieces left it has the words of the target. */
  ghost predicate Good(target: Row, left: Row, read: Line, g: Board, suppress: bool, width: nat) {
    && Placed(target, g.rows, g.row, left) && g.fill.lines == RowTexts(g.rows)
    && Holds(read, g.fill, RowText(g.row), suppress, width)
  }

  /** The same at the start of a row that is there because the next piece did not fit on the one before. */
  ghost predicate GoodStart(target: Row, left: Row, read: Line, g: Board, next: nat, width: nat) {
    && g.row == [] && Placed(target, g.rows, [], left) && g.fill.lines == RowTexts(g.rows)
    && Ready(read, g.fill, next, width)
  }

  lemma RowTextOne(row: Row, text: Line, pen: Pen)
    ensures RowText(row + [Inked(text, pen)]) == RowText(row) + text
  {
    FlattenSnoc(row, Inked(text, pen));
  }

  lemma RowTextsSnoc(rows: seq<Row>, row: Row)
    ensures RowTexts(rows + [row]) == RowTexts(rows) + [RowText(row)]
  {}

  lemma GapSkipped(target: Row, read: Line, g: Board, width: nat)
    requires Good(target, [], read, g, true, width) && g.row == []
    ensures Good(target, [], read + [SPACE], g.Skip([SPACE]), true, width)
  {
    HoldsSkipped(read, g.fill, true, [SPACE], width);
  }

  lemma GapWraps(target: Row, read: Line, g: Board, suppress: bool, width: nat)
    requires Good(target, [], read, g, suppress, width) && RowText(g.row) != [] && |RowText(g.row)| + 1 > width
    ensures Good(target, [], read + [SPACE], g.Finish().Skip([SPACE]), true, width)
  {
    RowFinished(target, g.rows, g.row, []);
    RowTextsSnoc(g.rows, g.row);
    HoldsWrapped(read, g.fill, RowText(g.row), suppress, [SPACE], width);
  }

  lemma GapWritten(target: Row, read: Line, g: Board, suppress: bool, pen: Pen, width: nat)
    requires Good(target, [], read, g, suppress, width) && (RowText(g.row) == [] ==> !suppress)
    ensures Good(target, [], read + [SPACE], g.Write(Inked([SPACE], pen)), false, width)
  {
    GapPlaced(target, g.rows, g.row, Inked([SPACE], pen), []);
    RowTextOne(g.row, [SPACE], pen);
    HoldsMore(read, g.fill, RowText(g.row), suppress, [SPACE], false, width);
  }

  lemma RowEnds(target: Row, left: Row, read: Line, g: Board, suppress: bool, next: nat, width: nat)
    requires Good(target, left, read, g, suppress, width) && RowText(g.row) != [] && |RowText(g.row)| + next > width
    ensures GoodStart(target, left, read, g.Finish(), next, width)
  {
    RowFinished(target, g.rows, g.row, left);
    RowTextsSnoc(g.rows, g.row);
    ReadyAfter(read, g.fill, RowText(g.row), suppress, next, width);
  }

  lemma RowStarts(target: Row, left: Row, read: Line, g: Board, suppress: bool, next: nat, width: nat)
    requires Good(target, left, read, g, suppress, width) && g.row == [] && next > 0
    ensures GoodStart(target, left, read, g, next, width)
  {
    ReadyNow(read, g.fill, suppress, next, width);
  }

  lemma RowWaits(target: Row, left: Row, read: Line, g: Board, width: nat)
    requires GoodStart(target, left, read, g, 1, width) && g.rows != []
    ensures Good(target, left, read, g, true, width)
  {
    ReadyHolds(read, g.fill, width);
  }

  lemma PieceStarts(target: Row, left: Row, read: Line, g: Board, word: Line, pen: Pen, suppress: bool, width: nat)
    requires GoodStart(target, [Inked(word, pen)] + left, read, g, |word|, width) && NoSpace(word) && word != []
    ensures Good(target, left, read + word, g.Write(Inked(word, pen)), suppress, width)
  {
    InkedSolid(word, pen);
    PiecePlaced(target, g.rows, g.row, Inked(word, pen), left);
    RowTextOne(g.row, word, pen);
    assert RowText([]) + word == word;
    HoldsStarted(read, g.fill, word, suppress, width);
  }

  lemma PieceFollows(target: Row, read: Line, g: Board, suppress: bool, word: Line, pen: Pen, width: nat)
    requires Good(target, [Inked(word, pen)], read, g, suppress, width)
    requires NoSpace(word) && word != [] && RowText(g.row) != []
    ensures Good(target, [], read + word, g.Write(Inked(word, pen)), false, width)
  {
    InkedSolid(word, pen);
    ConcatEmpty([Inked(word, pen)]);
    PiecePlaced(target, g.rows, g.row, Inked(word, pen), []);
    RowTextOne(g.row, word, pen);
    HoldsMore(read, g.fill, RowText(g.row), suppress, word, false, width);
  }

  lemma InkedSolid(text: Line, pen: Pen)
    requires NoSpace(text) && text != []
    ensures Solidly(Inked(text, pen)) && !Gap(Inked(text, pen))
  {
    assert Inked(text, pen)[0].rune == text[0];
  }

  lemma InkedTail(text: Line, pen: Pen, n: nat)
    requires n <= |text|
    ensures Inked(text, pen)[..n] == Inked(text[..n], pen) && Inked(text, pen)[n..] == Inked(text[n..], pen)
  {}

  // ----- The rounds of the loop -----

  /** The page shows the board. */
  ghost predicate Shows(p: Page, g: Board, width: nat) {
    Shown(p.lines, g.rows, width) && Open(p, g.row, width)
  }

  /** The round for a space. */
  method PutGap(p: Page, ghost target: Row, ghost read: Line, ghost g: Board, style: Pen, width: nat)
    returns (p': Page, ghost g': Board)
    requires width > 0 && Shows(p, g, width) && Good(target, [], read, g, p.suppress, width) && Marks(style)
    ensures Shows(p', g', width) && Good(target, [], read + [SPACE], g', p'.suppress, width)
  {
    if p.visible == 0 && p.suppress {
      GapSkipped(target, read, g, width);
      return p, g.Skip([SPACE]);
    }
    if p.visible + 1 > width {
      GapWraps(target, read, g, p.suppress, width);
      ghost var rows;
      p', rows := FlushLine(p, g.rows, g.row, true, width);
      g' := g.Finish().Skip([SPACE]);
      return;
    }
    GapWritten(target, read, g, p.suppress, style, width);
    p' := WriteText(p, g.row, [SPACE], style, width);
    p', g' := p'.(suppress := false), g.Write(Inked([SPACE], style));
  }

  lemma PieceTaken(rest: Line, style: Pen, width: nat, end: nat)
    requires width > 0 && rest != [] && end == NextPiece(rest, width)
    ensures PiecesLeft(Inked(rest, style), width)
         == [Inked(rest[..end], style)] + PiecesLeft(Inked(rest[end..], style), width)
  {
    InkedTail(rest, style, end);
    if |rest| >= width {
      LeftFull(Inked(rest, style), width);
    } else {
      assert Inked(rest[..end], style) == Inked(rest, style);
    }
  }

  /** One round of the loop below, and what it leaves when the piece does not fill the row. */
  method WritePiece(p: Page, ghost target: Row, ghost left: Row, ghost read: Line, ghost g: Board, piece: Line,
                    style: Pen,
                    width: nat)
    returns (p': Page, ghost g': Board)
    requires width > 0 && Shows(p, g, width) && p.visible == 0 && Marks(style)
    requires piece != [] && NoSpace(piece) && NoEscape(piece) && |piece| <= width
    requires GoodStart(target, [Inked(piece, style)] + left, read, g, |piece|, width)
    ensures Shows(p', g', width) && g'.row != [] && RowText(g'.row) == piece
    ensures Good(target, left, read + piece, g', p'.suppress, width) && p'.visible == |piece|
  {
    PieceStarts(target, left, read, g, piece, style, p.suppress, width);
    InkedSolid(piece, style);
    RowTextOne(g.row, piece, style);
    assert RowText([]) + piece == piece;
    p' := WriteText(p, g.row, piece, style, width);
    g' := g.Write(Inked(piece, style));
  }

  /** The flush of a row that is full, or on which the next word has no room. */
  method EndRow(p: Page, ghost target: Row, ghost left: Row, ghost read: Line, ghost g: Board, ghost next: nat,
                width: nat)
    returns (p': Page, ghost g': Board)
    requires width > 0 && Shows(p, g, width) && Good(target, left, read, g, p.suppress, width)
    requires RowText(g.row) != [] && |RowText(g.row)| + next > width
    ensures Shows(p', g', width) && p'.visible == 0 && p'.suppress && g'.rows != []
    ensures GoodStart(target, left, read, g', next, width)
  {
    RowEnds(target, left, read, g, p.suppress, next, width);
    ghost var rows;
    p', rows := FlushLine(p, g.rows, g.row, true, width);
    g' := g.Finish();
  }

  /** The flush of a row that a piece has filled, `rest` being what is left of the word. */
  method EndFull(p: Page, ghost target: Row, ghost left: Row, ghost read: Line, ghost g: Board, ghost rest: Line,
                 width: nat)
    returns (p': Page, ghost g': Board)
    requires width > 0 && Shows(p, g, width) && Good(target, left, read, g, p.suppress, width)
    requires |RowText(g.row)| >= width
    ensures Shows(p', g', width) && p'.visible == 0
    ensures rest != [] ==> GoodStart(target, left, read, g', NextPiece(rest, width), width)
    ensures rest == [] ==> Good(target, left, read, g', p'.suppress, width)
  {
    p', g' := EndRow(p, target, left, read, g, if rest == [] then 1 else NextPiece(rest, width), width);
    if rest == [] {
      RowWaits(target, left, read, g', width);
    }
  }

  /** The next piece of a word, and what is left of it. */
  lemma TakesPiece(target: Row, read: Line, g: Board, rest: Line, piece: Line, rest': Line, style: Pen, width: nat)
    requires width > 0 && rest != [] && NoSpace(rest) && NoEscape(rest)
    requires piece == rest[..NextPiece(rest, width)] && rest' == rest[NextPiece(rest, width)..]
    requires GoodStart(target, PiecesLeft(Inked(rest, style), width), read, g, NextPiece(rest, width), width)
    ensures piece != [] && NoSpace(piece) && NoEscape(piece) && |piece| <= width
    ensures NoSpace(rest') && NoEscape(rest') && |rest'| < |rest| && read + piece + rest' == read + rest
    ensures rest' != [] ==> |piece| == width
    ensures GoodStart(target, [Inked(piece, style)] + PiecesLeft(Inked(rest', style), width), read, g, |piece|, width)
  {
    PieceTaken(rest, style, width, NextPiece(rest, width));
    SplitAt(read, rest, NextPiece(rest, width));
  }

  /** One round of the loop below: a piece on a line of its own, flushed if the line is full. */
  method BreakInk(p: Page, ghost target: Row, ghost read: Line, ghost g: Board, rest: Line, style: Pen, width: nat)
    returns (p': Page, ghost g': Board, rest': Line, ghost read': Line)
    requires width > 0 && Shows(p, g, width) && p.visible == 0
    requires Marks(style) && rest != [] && NoSpace(rest) && NoEscape(rest)
    requires GoodStart(target, PiecesLeft(Inked(rest, style), width), read, g, NextPiece(rest, width), width)
    ensures Shows(p', g', width) && |rest'| < |rest| && NoSpace(rest')
    ensures NoEscape(rest') && read' + rest' == read + rest
    ensures rest' != [] ==>
      && p'.visible == 0
      && GoodStart(target, PiecesLeft(Inked(rest', style), width), read', g', NextPiece(rest', width), width)
    ensures rest' == [] ==> Good(target, [], read', g', p'.suppress, width)
  {
    var end := if |rest| < width then |rest| else width;
    var piece := rest[..end];
    rest' := rest[end..];
    ghost var left := PiecesLeft(Inked(rest', style), width);
    TakesPiece(target, read, g, rest, piece, rest', style, width);
    read' := read + piece;
    p', g' := WritePiece(p, target, left, read, g, piece, style, width);
    if p'.visible >= width {
      p', g' := EndFull(p', target, left, read', g', rest', width);
    }
  }

  /** The loop that spreads a word longer than a line over several. */
  method BreakWordInk(p: Page, ghost target: Row, ghost read: Line, ghost g: Board, word: Line, style: Pen, width: nat)
    returns (p': Page, ghost g': Board)
    requires width > 0 && Shows(p, g, width) && p.visible == 0 && Marks(style)
    requires |word| > width && NoSpace(word) && NoEscape(word)
    requires GoodStart(target, Pieces(Inked(word, style), width), read, g, width, width)
    ensures Shows(p', g', width) && Good(target, [], read + word, g', p'.suppress, width)
  {
    p', g' := p, g;
    var rest := word;
    ghost var sofar := read;
    while rest != []
      invariant Shows(p', g', width) && NoSpace(rest) && NoEscape(rest) && sofar + rest == read + word
      invariant rest != [] ==>
        && p'.visible == 0
        && GoodStart(target, PiecesLeft(Inked(rest, style), width), sofar, g', NextPiece(rest, width), width)
      invariant rest == [] ==> Good(target, [], sofar, g', p'.suppress, width)
      decreases |rest|
    {
      p', g', rest, sofar := BreakInk(p', target, sofar, g', rest, style, width);
    }
    ConcatEmpty(sofar);
  }

  /** The row so far is flushed if the next piece has no room behind it. */
  method MakeRoom(p: Page, ghost target: Row, ghost left: Row, ghost read: Line, ghost g: Board, ghost next: nat,
                  width: nat)
    returns (p': Page, ghost g': Board)
    requires width > 0 && Shows(p, g, width) && Good(target, left, read, g, p.suppress, width)
    requires next > 0 && (p.visible > 0 ==> p.visible + next > width)
    ensures Shows(p', g', width) && p'.visible == 0 && GoodStart(target, left, read, g', next, width)
  {
    if p.visible > 0 {
      p', g' := EndRow(p, target, left, read, g, next, width);
    } else {
      RowStarts(target, left, read, g, p.suppress, next, width);
      p', g' := p, g;
    }
  }

  /** The round for a word. */
  method PutInk(p: Page, ghost target: Row, ghost read: Line, ghost g: Board, word: Line, style: Pen, width: nat)
    returns (p': Page, ghost g': Board)
    requires width > 0 && Shows(p, g, width) && Marks(style) && word != [] && NoSpace(word) && NoEscape(word)
    requires Good(target, Pieces(Inked(word, style), width), read, g, p.suppress, width)
    ensures Shows(p', g', width) && Good(target, [], read + word, g', p'.suppress, width)
  {
    ghost var left := Pieces(Inked(word, style), width);
    if |word| > width {
      p', g' := MakeRoom(p, target, left, read, g, width, width);
      p', g' := BreakWordInk(p', target, read, g', word, style, width);
    } else if p.visible == 0 || p.visible + |word| > width {
      ConcatEmpty([Inked(word, style)]);
      p', g' := MakeRoom(p, target, left, read, g, |word|, width);
      p', g' := WritePiece(p', target, [], read, g', word, style, width);
      p' := p'.(suppress := false);
    } else {
      PieceFollows(target, read, g, p.suppress, word, style, width);
      InkedSolid(word, style);
      p' := WriteText(p, g.row, word, style, width);
      p', g' := p'.(suppress := false), g.Write(Inked(word, style));
    }
  }

  // ----- Spans -----

  function InkedAll(words: seq<Line>, pen: Pen): (row: Row)
    ensures |row| == |words|
  {
    seq(|words|, i requires 0 <= i < |words| => Inked(words[i], pen))
  }

  /** The words of one span, in its style. */
  function WordsOf(span: Span, style: Style): Row {
    InkedAll(Words(Runes(span.text)), StyleFor(style, span.mode))
  }

  /** The words of the spans, each in its span's style. */
  function SpanWords(spans: seq<Span>, style: Style): Row {
    if spans == [] then []
    else SpanWords(spans[..|spans|-1], style) + WordsOf(spans[|spans|-1], style)
  }

  /** The text of the spans, with a space for each white space character. */
  function SpansText(spans: seq<Span>): Line {
    if spans == [] then [] else SpansText(spans[..|spans|-1]) + Spaced(Runes(spans[|spans|-1].text))
  }

  lemma WordNext(words: Row, word: Ink, read: Line, g: Board, suppress: bool, width: nat)
    requires width > 0 && Good(AllPieces(words, width), [], read, g, suppress, width)
    ensures Good(AllPieces(words + [word], width), Pieces(word, width), read, g, suppress, width)
  {
    AllPiecesSnoc(words, word, width);
    ConcatEmpty(WordsInAll(g.rows) + WordsIn(g.row));
  }

  lemma InkedAllSnoc(before: Row, words: seq<Line>, word: Line, pen: Pen)
    ensures before + InkedAll(words + [word], pen) == before + InkedAll(words, pen) + [Inked(word, pen)]
  {}

  /** The given words and text are on the page, up to the row being filled. */
  ghost predicate On(p: Page, words: Row, read: Line, g: Board, width: nat)
    requires width > 0
  {
    Shows(p, g, width) && Good(AllPieces(words, width), [], read, g, p.suppress, width)
  }

  /** One token. */
  method PutMarkdownToken(p: Page, ghost words: Row, ghost read: Line, ghost g: Board, token: Token, style: Pen,
                          width: nat)
    returns (p': Page, ghost g': Board)
    requires width > 0 && On(p, words, read, g, width) && Marks(style) && MarkdownToken(token) && NoEscape(token.text)
    ensures On(p', if token.space then words else words + [Inked(token.text, style)], read + token.text, g', width)
  {
    if token.space {
      p', g' := PutGap(p, AllPieces(words, width), read, g, style, width);
    } else {
      ghost var more := words + [Inked(token.text, style)];
      WordNext(words, Inked(token.text, style), read, g, p.suppress, width);
      p', g' := PutInk(p, AllPieces(more, width), read, g, token.text, style, width);
    }
  }

  /** The words of the first `n` tokens, in the given style, after others. */
  function WordsUpTo(before: Row, tokens: seq<Token>, n: nat, style: Pen): Row
    requires n <= |tokens|
  {
    before + InkedAll(TokenWords(tokens[..n]), style)
  }

  function TextUpTo(before: Line, tokens: seq<Token>, n: nat): Line
    requires n <= |tokens|
  {
    before + TokensText(tokens[..n])
  }

  lemma NextWord(before: Row, tokens: seq<Token>, n: nat, style: Pen)
    requires n < |tokens|
    ensures WordsUpTo(before, tokens, n + 1, style)
         == WordsUpTo(before, tokens, n, style) + if tokens[n].space then [] else [Inked(tokens[n].text, style)]
  {
    assert tokens[..n + 1] == tokens[..n] + [tokens[n]];
    TokenWordsSnoc(tokens[..n], tokens[n]);
    ConcatEmpty(TokenWords(tokens[..n]));
    InkedAllSnoc(before, TokenWords(tokens[..n]), tokens[n].text, style);
  }

  lemma NextText(before: Line, tokens: seq<Token>, n: nat)
    requires n < |tokens|
    ensures TextUpTo(before, tokens, n + 1) == TextUpTo(before, tokens, n) + tokens[n].text
  {
    assert tokens[..n + 1] == tokens[..n] + [tokens[n]];
    TokensTextSnoc(tokens[..n], tokens[n]);
    ConcatAssociates(before, TokensText(tokens[..n]), tokens[n].text);
  }

  /** The round for the token at `n`. */
  method PutNextToken(p: Page, ghost words: Row, ghost read: Line, ghost g: Board, tokens: seq<Token>, n: nat,
                      style: Pen, width: nat)
    returns (p': Page, ghost g': Board)
    requires width > 0 && n < |tokens| && Marks(style) && MarkdownToken(tokens[n]) && NoEscape(tokens[n].text)
    requires On(p, WordsUpTo(words, tokens, n, style), TextUpTo(read, tokens, n), g, width)
    ensures On(p', WordsUpTo(words, tokens, n + 1, style), TextUpTo(read, tokens, n + 1), g', width)
  {
    NextWord(words, tokens, n, style);
    NextText(read, tokens, n);
    ConcatEmpty(WordsUpTo(words, tokens, n, style));
    p', g' := PutMarkdownToken(p, WordsUpTo(words, tokens, n, style), TextUpTo(read, tokens, n), g, tokens[n], style,
                               width);
  }

  /** The loop over a span's tokens. */
  method PutSpan(p: Page, ghost words: Row, ghost read: Line, ghost g: Board, text: Line, style: Pen, width: nat)
    returns (p': Page, ghost g': Board)
    requires width > 0 && On(p, words, read, g, width) && Marks(style) && NoEscape(text)
    ensures On(p', words + InkedAll(Words(text), style), read + Spaced(text), g', width)
  {
    var tokens := TokenizeMarkdown(text);
    p', g' := p, g;
    assert WordsUpTo(words, tokens, 0, style) == words && TextUpTo(read, tokens, 0) == read;
    for n := 0 to |tokens|
      invariant On(p', WordsUpTo(words, tokens, n, style), TextUpTo(read, tokens, n), g', width)
    {
      TokensNoEscape(tokens, text, n);
      p', g' := PutNextToken(p', words, read, g', tokens, n, style, width);
    }
    assert tokens[..|tokens|] == tokens;
  }

  ghost predicate Escapeless(spans: seq<Span>) {
    forall i :: 0 <= i < |spans| ==> NoEscape(Runes(spans[i].text))
  }

  lemma NextSpan(spans: seq<Span>, n: nat, style: Style)
    requires n < |spans|
    ensures SpanWords(spans[..n + 1], style) == SpanWords(spans[..n], style) + WordsOf(spans[n], style)
    ensures SpansText(spans[..n + 1]) == SpansText(spans[..n]) + Spaced(Runes(spans[n].text))
  {
    assert spans[..n + 1][..n] == spans[..n];
  }

  /** The round for the span at `n`. */
  method PutNextSpan(p: Page, ghost g: Board, spans: seq<Span>, n: nat, style: Style, width: nat)
    returns (p': Page, ghost g': Board)
    requires width > 0 && n < |spans| && NoEscape(Runes(spans[n].text))
    requires On(p, SpanWords(spans[..n], style), SpansText(spans[..n]), g, width)
    ensures On(p', SpanWords(spans[..n + 1], style), SpansText(spans[..n + 1]), g', width)
  {
    var span := spans[n];
    NextSpan(spans, n, style);
    ghost var words, read := SpanWords(spans[..n], style), SpansText(spans[..n]);
    if |span.text| == 0 {
      assert words + WordsOf(span, style) == words && read + Spaced(Runes(span.text)) == read;
      return p, g;
    }
    StyleMarks(style, span.mode);
    p', g' := PutSpan(p, words, read, g, Runes(span.text), StyleFor(style, span.mode), width);
  }

  /** The flush at the end. */
  method PutEnd(p: Page, ghost words: Row, ghost read: Line, ghost g: Board, width: nat)
    returns (p': Page, ghost rows: seq<Row>, ghost f: Fill)
    requires width > 0 && On(p, words, read, g, width)
    ensures Shown(p'.lines, rows, width) && WordsInAll(rows) == AllPieces(words, width)
    ensures f.Ok(width) && f.Text() == read && f.lines == RowTexts(rows)
  {
    p', rows := FlushLine(p, g.rows, g.row, false, width);
    if g.row == [] {
      f := g.fill;
      ConcatEmpty(f.Text());
    } else {
      RowFinished(AllPieces(words, width), g.rows, g.row, []);
      RowTextsSnoc(g.rows, g.row);
      f := g.fill.Finish(RowText(g.row));
      FinishIsOk(g.fill, RowText(g.row), width);
      FinishText(g.fill, RowText(g.row));
    }
    ConcatEmpty(WordsInAll(rows));
  }

  lemma NothingOn(p: Page, width: nat)
    requires p == Page([], [], 0, [], false) && width > 0
    ensures On(p, [], [], Board([], [], Fill([], [], [])), width)
  {
    PaintsNothing();
    HoldsNothing(width);
  }

  /** The loop over the spans, and the last line. */
  method PutSpans(spans: seq<Span>, width: nat, style: Style)
    returns (lines: seq<seq<Byte>>, ghost rows: seq<Row>, ghost f: Fill)
    requires width > 0 && Escapeless(spans)
    ensures Shown(lines, rows, width) && WordsInAll(rows) == AllPieces(SpanWords(spans, style), width)
    ensures f.Ok(width) && f.Text() == SpansText(spans) && f.lines == RowTexts(rows)
  {
    var p := Page([], [], 0, [], false);
    ghost var g := Board([], [], Fill([], [], []));
    NothingOn(p, width);
    for n := 0 to |spans|
      invariant On(p, SpanWords(spans[..n], style), SpansText(spans[..n]), g, width)
    {
      p, g := PutNextSpan(p, g, spans, n, style, width);
    }
    assert spans[..|spans|] == spans;
    p, rows, f := PutEnd(p, SpanWords(spans, style), SpansText(spans), g, width);
    lines := p.lines;
  }

  // ----- Sanitized text has no escapes -----

  lemma {:induction false} EncodedNoEscape(rs: seq<Rune>)
    requires NoEscape(rs)
    ensures ESC !in EncodeAll(rs)
  {
    if rs != [] {
      EncodedNoEscape(rs[1..]);
      EncodedHigh(rs[0]);
    }
  }

  lemma EncodedHigh(r: Rune)
    ensures r >= 0x80 ==> forall b :: b in Encode(r) ==> b >= 0x80
  {
    assert forall i :: 0 <= i < |Encode(r)| && r >= 0x80 ==> Encode(r)[i] >= 0x80;
  }

  lemma {:induction false} UnmarkedEscape(s: seq<Byte>)
    ensures ESC in Unmarked(s) <==> ESC in s
  {
    if s != [] {
      UnmarkedEscape(s[1..]);
      assert s == [s[0]] + s[1..];
    }
  }

  lemma {:induction false} TextHolds(spans: seq<Span>, i: nat)
    requires i < |spans| && ESC !in TextOf(spans)
    ensures ESC !in spans[i].text
  {
    if i > 0 {
      TextHolds(spans[1..], i - 1);
    }
  }

  lemma {:induction false} RunesNoEscape(s: seq<Byte>)
    requires ESC !in s
    ensures NoEscape(Runes(s))
    decreases |s|
  {
    if s != [] {
      DecodedNotEscape(s);
      RunesNoEscape(s[Decode(s).size..]);
    }
  }

  /** What the parser makes of text without escapes has none. */
  lemma SpansEscapeless(text: seq<Byte>)
    requires ESC !in text
    ensures Escapeless(Parse(text, PLAIN, []))
  {
    var spans := Parse(text, PLAIN, []);
    ParseKeepsText(text, PLAIN, []);
    assert [] + Unmarked(text) == Unmarked(text);
    UnmarkedEscape(text);
    UnmarkedEscape(TextOf(spans));
    forall i | 0 <= i < |spans| ensures NoEscape(Runes(spans[i].text)) {
      TextHolds(spans, i);
      RunesNoEscape(spans[i].text);
    }
  }

  // ----- The whole function -----

  /** The spans that are rendered. */
  function SpansOf(text: seq<Byte>): seq<Span> {
    Parse(Sanitize(text), PLAIN, [])
  }

  /**
    `renderMarkdownLines`: each line shows its row, the rows hold the words of the spans in their styles, cut
    only where they do not fit, the lines hold the text but for the gaps between them, none of them ends early,
    and no style outlives its line.
   */
  method RenderMarkdownLines(text: seq<Byte>, width: int, style: Style)
    returns (lines: seq<seq<Byte>>, ghost rows: seq<Row>, ghost f: Fill)
    ensures width <= 0 ==> lines == [[]]
    ensures width > 0 ==> lines != [] && Shown(lines, rows, width)
    ensures width > 0 ==> WordsInAll(rows) == AllPieces(SpanWords(SpansOf(text), style), width)
    ensures width > 0 ==> FilledBy(SpansText(SpansOf(text)), RowTexts(rows), f, width)
  {
    lines, rows, f := [[]], [[]], Fill([], [], []);
    if width <= 0 { return; }
    PaintsNothing();
    assert rows[..0] == [] && RowTexts(rows) == [[]];
    var sanitized := SanitizeOutputLine(text);
    EncodedNoEscape(Sanitized(text));
    SpansEscapeless(sanitized);
    var spans := ParseInline(sanitized);
    if |spans| == 0 { return; }
    var put;
    ghost var putRows;
    put, putRows, f := PutSpans(spans, width, style);
    if |put| == 0 { return; }
    lines, rows := put, putRows;
  }

  // ----- What the lines show -----

  /** No line is wider than the terminal. */
  lemma LinesFit(lines: seq<seq<Byte>>, rows: seq<Row>, width: nat, i: nat)
    requires Shown(lines, rows, width) && i < |lines|
    ensures |Visible(lines[i])| <= width && Painted(lines[i], []) == Flatten(rows[i])
  {
    assert ShownAs(lines[i], rows[i], width);
    PaintsShows(lines[i], Flatten(rows[i]), []);
  }

  /** The cells that are not white space. */
  function SolidInk(ink: Ink): Ink {
    if ink == [] then []
    else SolidInk(ink[..|ink|-1]) + if IsSpace(ink[|ink|-1].rune) then [] else [ink[|ink|-1]]
  }

  lemma {:induction false} SolidInkConcat(a: Ink, b: Ink)
    ensures SolidInk(a + b) == SolidInk(a) + SolidInk(b)
  {
    if b == [] {
      assert a + b == a;
    } else {
      assert (a + b)[..|a + b| - 1] == a + b[..|b| - 1];
      SolidInkConcat(a, b[..|b| - 1]);
    }
  }

  lemma {:induction false} SolidPiece(piece: Ink)
    requires piece == [] || Solidly(piece)
    ensures SolidInk(piece) == piece
  {
    if piece != [] {
      var front, last := piece[..|piece| - 1], piece[|piece| - 1];
      assert piece == front + [last] && !IsSpace(last.rune);
      SolidPiece(front);
    }
  }

  lemma {:induction false} RowIsSolid(row: Row)
    requires Tidy(row)
    ensures SolidInk(Flatten(row)) == Flatten(WordsIn(row))
  {
    if row != [] {
      var front, piece := row[..|row| - 1], row[|row| - 1];
      RowIsSolid(front);
      SolidInkConcat(Flatten(front), piece);
      if Gap(piece) {
        assert piece[..0] == [] && SolidInk(piece) == [];
        ConcatEmpty(WordsIn(front));
        ConcatEmpty(Flatten(WordsIn(front)));
      } else {
        SolidPiece(piece);
        FlattenSnoc(WordsIn(front), piece);
      }
    }
  }

  /** Everything the lines show, one after the other. */
  function AllShown(lines: seq<seq<Byte>>): Ink {
    if lines == [] then [] else AllShown(lines[..|lines|-1]) + Painted(lines[|lines|-1], [])
  }

  lemma {:induction false} LinesAreSolid(lines: seq<seq<Byte>>, rows: seq<Row>, width: nat)
    requires Shown(lines, rows, width)
    ensures SolidInk(AllShown(lines)) == Flatten(WordsInAll(rows))
  {
    if lines != [] {
      var n := |lines| - 1;
      LinesAreSolid(lines[..n], rows[..n], width);
      LinesFit(lines, rows, width, n);
      RowIsSolid(rows[n]);
      SolidInkConcat(AllShown(lines[..n]), Painted(lines[n], []));
      FlattenConcat(WordsInAll(rows[..n]), WordsIn(rows[n]));
    }
  }

  /** The characters of the spans that are not white space, each in its span's style. */
  function SpanInk(spans: seq<Span>, style: Style): Ink {
    if spans == [] then []
    else
      var span := spans[|spans|-1];
      SpanInk(spans[..|spans|-1], style) + Inked(Solid(Runes(span.text)), StyleFor(style, span.mode))
  }

  lemma {:induction false} InkedAllFlat(words: seq<Line>, pen: Pen)
    ensures Flatten(InkedAll(words, pen)) == Inked(Flatten(words), pen)
  {
    if words != [] {
      var n := |words| - 1;
      assert InkedAll(words, pen)[..n] == InkedAll(words[..n], pen);
      InkedAllFlat(words[..n], pen);
      assert Inked(Flatten(words[..n]) + words[n], pen) == Inked(Flatten(words[..n]), pen) + Inked(words[n], pen);
    }
  }

  lemma {:induction false} SpanWordsFlat(spans: seq<Span>, style: Style)
    ensures Flatten(SpanWords(spans, style)) == SpanInk(spans, style)
  {
    if spans != [] {
      var n := |spans| - 1;
      SpanWordsFlat(spans[..n], style);
      FlattenConcat(SpanWords(spans[..n], style), WordsOf(spans[n], style));
      InkedAllFlat(Words(Runes(spans[n].text)), StyleFor(style, spans[n].mode));
      WordsAreSolid(Runes(spans[n].text));
    }
  }

  /** Every character of every span that is not white space is shown once, in order, in the style of its span. */
  lemma MarkdownConserves(lines: seq<seq<Byte>>, rows: seq<Row>, spans: seq<Span>, style: Style, width: nat)
    requires width > 0 && Shown(lines, rows, width) && WordsInAll(rows) == AllPieces(SpanWords(spans, style), width)
    ensures SolidInk(AllShown(lines)) == SpanInk(spans, style)
  {
    LinesAreSolid(lines, rows, width);
    AllPiecesAreWords(SpanWords(spans, style), width);
    SpanWordsFlat(spans, style);
  }
}
