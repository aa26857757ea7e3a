/** Word wrap of plain output lines. */
module Wrap {
  import opened Text
  import opened Seqs
  import opened Utf8
  import opened Ansi
  import opened Filling

  // ----- Words -----

  /** The next character starts a new word. */
  predicate AtGap(s: Line) {
    s == [] || IsSpace(s[|s|-1])
  }

  /** The maximal runs of characters that are not white space. */
  function Words(s: Line): (ws: seq<Line>)
    ensures !AtGap(s) ==> ws != []
  {
    if s == [] then []
    else
      var front, c := s[..|s|-1], s[|s|-1];
      var ws := Words(front);
      if IsSpace(c) then ws
      else if AtGap(front) then ws + [[c]]
      else ws[..|ws|-1] + [ws[|ws|-1] + [c]]
  }

  lemma WordsSnoc(s: Line, c: Rune)
    ensures Words(s + [c]) ==
            if IsSpace(c) then Words(s)
            else if AtGap(s) then Words(s) + [[c]]
            else Words(s)[..|Words(s)|-1] + [Words(s)[|Words(s)|-1] + [c]]
  {
    assert (s + [c])[..|s|] == s;
  }

  lemma {:induction false} WordsOfSpaces(s: Line, spaces: Line)
    requires AllSpace(spaces)
    ensures Words(s + spaces) == Words(s)
  {
    if spaces == [] {
      assert s + spaces == s;
    } else {
      var n := |spaces| - 1;
      assert spaces == spaces[..n] + [spaces[n]];
      WordsOfSpaces(s, spaces[..n]);
      WordsSnoc(s + spaces[..n], spaces[n]);
      ConcatAssociates(s, spaces[..n], [spaces[n]]);
    }
  }

  lemma WordGrows(s: Line, word: Line, c: Rune)
    requires word != [] && NoSpace(word) && !IsSpace(c) && Words(s + word) == Words(s) + [word]
    ensures Words(s + word + [c]) == Words(s) + [word + [c]]
  {
    assert (s + word)[|s + word| - 1] == word[|word| - 1];
    WordsSnoc(s + word, c);
    assert (Words(s) + [word])[..|Words(s)|] == Words(s);
  }

  lemma {:induction false} WordsOfWord(s: Line, word: Line)
    requires AtGap(s) && NoSpace(word) && word != []
    ensures Words(s + word) == Words(s) + [word]
  {
    var n := |word| - 1;
    var front, c := word[..n], word[n];
    assert word == front + [c];
    if n == 0 {
      WordsSnoc(s, c);
      assert word == [c];
    } else {
      WordsOfWord(s, front);
      WordGrows(s, front, c);
      ConcatAssociates(s, front, [c]);
    }
  }

  /** The characters that are not white space. */
  function Solid(s: Line): Line {
    if s == [] then [] else Solid(s[..|s|-1]) + if IsSpace(s[|s|-1]) then [] else [s[|s|-1]]
  }

  lemma {:induction false} WordsAreSolid(s: Line)
    ensures Flatten(Words(s)) == Solid(s)
  {
    if s != [] {
      var front, c := s[..|s|-1], s[|s|-1];
      WordsAreSolid(front);
      var ws := Words(front);
      if !IsSpace(c) {
        if AtGap(front) {
          FlattenSnoc(ws, [c]);
        } else {
          FlattenSnoc(ws[..|ws|-1], ws[|ws|-1] + [c]);
        }
      }
    }
  }

  /** The pieces of a word on lines of the given width: the word itself if it fits. */
  function Pieces<T>(word: seq<T>, width: nat): seq<seq<T>>
    requires width > 0
  {
    if |word| <= width then [word] else [word[..width]] + Pieces(word[width..], width)
  }

  function AllPieces<T>(words: seq<seq<T>>, width: nat): seq<seq<T>>
    requires width > 0
  {
    if words == [] then [] else AllPieces(words[..|words|-1], width) + Pieces(words[|words|-1], width)
  }

  lemma {:induction false} PiecesAreWord<T>(word: seq<T>, width: nat)
    requires width > 0
    ensures Flatten(Pieces(word, width)) == word
  {
    if |word| <= width {
      assert [word][..0] == [];
    } else {
      PiecesAreWord(word[width..], width);
      FlattenConcat([word[..width]], Pieces(word[width..], width));
      assert [word[..width]][..0] == [];
    }
  }

  /** A word is cut into as many full pieces as there are, and what is left of it. */
  lemma {:induction false} PiecesAreFull<T>(word: seq<T>, width: nat)
    requires width > 0
    ensures var ps := Pieces(word, width);
            && ps != [] && |ps[|ps|-1]| <= width && (word != [] ==> ps[|ps|-1] != [])
            && (forall i :: 0 <= i < |ps| - 1 ==> |ps[i]| == width)
  {
    if |word| > width {
      PiecesAreFull(word[width..], width);
      var ps, rest := Pieces(word, width), Pieces(word[width..], width);
      assert forall i :: 0 < i < |ps| ==> ps[i] == rest[i - 1];
    }
  }

  lemma TimesNext(n: nat, width: nat)
    ensures (n + 1) * width == n * width + width
  {}

  /** There are as many pieces as the word needs lines. */
  lemma {:induction false} PiecesNeeded<T>(word: seq<T>, width: nat)
    requires width > 0 && word != []
    ensures var n := |Pieces(word, width)|; n > 0 && (n - 1) * width < |word| <= n * width
  {
    if |word| > width {
      var rest := word[width..];
      var n := |Pieces(rest, width)|;
      PiecesNeeded(rest, width);
      TimesNext(n - 1, width);
      TimesNext(n, width);
    }
  }

  lemma {:induction false} AllPiecesAreWords<T>(words: seq<seq<T>>, width: nat)
    requires width > 0
    ensures Flatten(AllPieces(words, width)) == Flatten(words)
  {
    if words != [] {
      var n := |words| - 1;
      AllPiecesAreWords(words[..n], width);
      PiecesAreWord(words[n], width);
      FlattenConcat(AllPieces(words[..n], width), Pieces(words[n], width));
    }
  }

  // ----- Tokens -----

  /** A run of white space, all of it turned into spaces, or a word. */
  datatype Token = Token(text: Line, space: bool)

  predicate TokenOk(t: Token) {
    t.text != [] && if t.space then AllSpace(t.text) else NoSpace(t.text)
  }

  /** No two words and no two runs of spaces follow each other. */
  predicate Alternating(ts: seq<Token>) {
    && (forall i :: 0 <= i < |ts| ==> TokenOk(ts[i]))
    && (forall i :: 0 < i < |ts| ==> ts[i].space != ts[i - 1].space)
  }

  function TokenWords(ts: seq<Token>): seq<Line> {
    if ts == [] then []
    else
      var t := ts[|ts|-1];
      TokenWords(ts[..|ts|-1]) + if t.space then [] else [t.text]
  }

  function TokensText(ts: seq<Token>): Line {
    if ts == [] then [] else TokensText(ts[..|ts|-1]) + ts[|ts|-1].text
  }

  lemma TokensTextSnoc(ts: seq<Token>, t: Token)
    ensures TokensText(ts + [t]) == TokensText(ts) + t.text
  {
    assert (ts + [t])[..|ts|] == ts;
  }

  /** The text with every white space character turned into a space. */
  function Spaced(s: Line): (r: Line)
    ensures |r| == |s|
  {
    seq(|s|, i requires 0 <= i < |s| => Blanked(s[i]))
  }

  function Blanked(r: Rune): Rune {
    if IsSpace(r) then SPACE else r
  }

  /** The token that is being collected, when there is one, closes the list. */
  function Flushed(ts: seq<Token>, buf: Line, space: bool): seq<Token> {
    if buf == [] then ts else ts + [Token(buf, space)]
  }

  lemma TokenWordsSnoc(ts: seq<Token>, t: Token)
    ensures TokenWords(ts + [t]) == TokenWords(ts) + if t.space then [] else [t.text]
  {
    assert (ts + [t])[..|ts|] == ts;
  }

  /** What `tokenizeText` has collected of the text read so far. */
  ghost predicate Collected(read: Line, ts: seq<Token>, buf: Line, space: bool) {
    && Alternating(Flushed(ts, buf, space))
    && (buf == [] ==> ts == [] && !space)
    && (read == [] <==> buf == []) && (read != [] ==> space == IsSpace(read[|read|-1]))
    && TokenWords(Flushed(ts, buf, space)) == Words(read)
  }

  lemma SpacedSnoc(s: Line, r: Rune)
    ensures Spaced(s + [r]) == Spaced(s) + [Blanked(r)]
  {}

  /** The text of the tokens, the one being collected included. */
  function Gathered(ts: seq<Token>, buf: Line): Line {
    TokensText(ts) + buf
  }

  lemma GatheredFlushed(ts: seq<Token>, buf: Line, space: bool)
    ensures TokensText(Flushed(ts, buf, space)) == Gathered(ts, buf)
  {
    TokensTextSnoc(ts, Token(buf, space));
    ConcatEmpty(TokensText(ts));
  }

  lemma AlternatingGrows(ts: seq<Token>, buf: Line, space: bool, c: Rune)
    requires Alternating(Flushed(ts, buf, space)) && IsSpace(c) == space && (buf == [] ==> ts == [])
    ensures Alternating(Flushed(ts, buf + [c], space))
  {
    if buf != [] {
      var a, b := Flushed(ts, buf, space), Flushed(ts, buf + [c], space);
      assert a[|ts|] == Token(buf, space) && b[|ts|] == Token(buf + [c], space);
      forall i | 0 < i < |b| ensures b[i].space != b[i - 1].space {
        assert b[i].space == a[i].space && b[i - 1].space == a[i - 1].space;
      }
      forall i | 0 <= i < |b| ensures TokenOk(b[i]) {
        assert TokenOk(a[i]);
      }
    }
  }

  lemma CollectSame(read: Line, ts: seq<Token>, buf: Line, space: bool, r: Rune, c: Rune)
    requires Collected(read, ts, buf, space) && IsSpace(r) == IsSpace(c) == space && (!space ==> c == r)
    ensures Collected(read + [r], ts, buf + [c], space)
  {
    AlternatingGrows(ts, buf, space, c);
    WordsSnoc(read, r);
    TokenWordsSnoc(ts, Token(buf, space));
    TokenWordsSnoc(ts, Token(buf + [c], space));
    if !space && buf != [] {
      var words := TokenWords(ts);
      assert (words + [buf])[..|words|] == words;
    }
  }

  lemma AlternatingNext(ts: seq<Token>, t: Token)
    requires Alternating(ts) && TokenOk(t) && (ts != [] ==> ts[|ts|-1].space != t.space)
    ensures Alternating(ts + [t])
  {}

  lemma CollectOther(read: Line, ts: seq<Token>, buf: Line, space: bool, r: Rune, c: Rune)
    requires Collected(read, ts, buf, space) && IsSpace(r) == IsSpace(c) != space && (space ==> c == r)
    ensures Collected(read + [r], Flushed(ts, buf, space), [c], !space)
  {
    AlternatingNext(Flushed(ts, buf, space), Token([c], !space));
    WordsSnoc(read, r);
    TokenWordsSnoc(Flushed(ts, buf, space), Token([c], !space));
  }

  /** One round of `tokenizeText`. */
  method Collect(text: Line, n: nat, ts: seq<Token>, buf: Line, inSpace: bool)
    returns (ts': seq<Token>, buf': Line, inSpace': bool)
    requires n < |text|
    requires Collected(text[..n], ts, buf, inSpace) && Gathered(ts, buf) == Spaced(text[..n])
    ensures Collected(text[..n + 1], ts', buf', inSpace') && Gathered(ts', buf') == Spaced(text[..n + 1])
  {
    var r := text[n];
    var c := Blanked(r);
    assert text[..n + 1] == text[..n] + [r];
    SpacedSnoc(text[..n], r);
    if IsSpace(r) == inSpace {
      CollectSame(text[..n], ts, buf, inSpace, r, c);
      ConcatAssociates(TokensText(ts), buf, [c]);
      return ts, buf + [c], inSpace;
    }
    CollectOther(text[..n], ts, buf, inSpace, r, c);
    GatheredFlushed(ts, buf, inSpace);
    return Flushed(ts, buf, inSpace), [c], !inSpace;
  }

  /** `tokenizeText`: the words of the text, and spaces between them. */
  method TokenizeText(text: Line) returns (tokens: seq<Token>)
    ensures Alternating(tokens) && TokenWords(tokens) == Words(text) && TokensText(tokens) == Spaced(text)
  {
    tokens := [];
    var buf: Line, inSpace := [], false;
    for i := 0 to |text|
      invariant Collected(text[..i], tokens, buf, inSpace) && Gathered(tokens, buf) == Spaced(text[..i])
    {
      tokens, buf, inSpace := Collect(text, i, tokens, buf, inSpace);
    }
    assert text[..|text|] == text;
    GatheredFlushed(tokens, buf, inSpace);
    tokens := Flushed(tokens, buf, inSpace);
  }

  lemma {:induction false} TokensHold(ts: seq<Token>, i: nat, r: Rune)
    requires i < |ts| && r in ts[i].text
    ensures r in TokensText(ts)
  {
    if i < |ts| - 1 {
      TokensHold(ts[..|ts|-1], i, r);
    }
  }

  /** Every character of a token is one of the text, or a space. */
  lemma TokenRunes(ts: seq<Token>, text: Line, i: nat, j: nat)
    requires TokensText(ts) == Spaced(text) && i < |ts| && j < |ts[i].text|
    ensures ts[i].text[j] == SPACE || ts[i].text[j] in text
  {
    TokensHold(ts, i, ts[i].text[j]);
    var k :| 0 <= k < |text| && Spaced(text)[k] == ts[i].text[j];
    assert Spaced(text)[k] == Blanked(text[k]);
  }

  lemma TokensPrintable(ts: seq<Token>, text: Line, i: nat)
    requires TokensText(ts) == Spaced(text) && i < |ts| && AllPrintable(text)
    ensures AllPrintable(ts[i].text)
  {
    forall j | 0 <= j < |ts[i].text| ensures Printable(ts[i].text[j]) {
      TokenRunes(ts, text, i, j);
    }
  }

  // ----- Lines -----

  function AllWords(lines: seq<Line>): seq<Line> {
    if lines == [] then [] else AllWords(lines[..|lines|-1]) + Words(lines[|lines|-1])
  }

  lemma AllWordsSnoc(lines: seq<Line>, line: Line)
    ensures AllWords(lines + [line]) == AllWords(lines) + Words(line)
  {
    assert (lines + [line])[..|lines|] == lines;
  }

  lemma AllPiecesSnoc<T>(words: seq<seq<T>>, word: seq<T>, width: nat)
    requires width > 0
    ensures AllPieces(words + [word], width) == AllPieces(words, width) + Pieces(word, width)
  {
    assert (words + [word])[..|words|] == words;
  }

  predicate Narrow(lines: seq<Line>, width: nat) {
    forall i :: 0 <= i < |lines| ==> 0 < |lines[i]| <= width && AllPrintable(lines[i])
  }

  /** The finished lines and the one being filled hold the given words, cut only where they do not fit. */
  ghost predicate Laid(words: seq<Line>, lines: seq<Line>, b: Line, width: nat)
    requires width > 0
  {
    && Narrow(lines, width) && |b| <= width && AllPrintable(b)
    && AllWords(lines) + Words(b) == AllPieces(words, width)
  }

  lemma FlushLays(words: seq<Line>, lines: seq<Line>, b: Line, width: nat)
    requires width > 0 && Laid(words, lines, b, width) && b != []
    ensures Laid(words, lines + [b], [], width)
  {
    AllWordsSnoc(lines, b);
  }

  lemma SpaceLays(words: seq<Line>, lines: seq<Line>, b: Line, spaces: Line, width: nat)
    requires width > 0 && Laid(words, lines, b, width) && AllSpace(spaces)
    requires AllPrintable(spaces) && |b| + |spaces| <= width
    ensures Laid(words, lines, b + spaces, width)
  {
    WordsOfSpaces(b, spaces);
  }

  lemma WordLays(words: seq<Line>, lines: seq<Line>, b: Line, word: Line, width: nat)
    requires width > 0 && Laid(words, lines, b, width) && AtGap(b)
    requires word != [] && NoSpace(word) && AllPrintable(word) && |b| + |word| <= width
    ensures Laid(words + [word], lines, b + word, width)
  {
    WordsOfWord(b, word);
    AllPiecesSnoc(words, word, width);
    ConcatAssociates(AllWords(lines), Words(b), [word]);
  }

  /** `trimToWidth` */
  method TrimToWidth(value: Line, width: int) returns (out: Line)
    ensures out <= value && |out| <= |value|
    ensures width <= 0 ==> out == []
    ensures width > 0 ==> |out| <= width && (out == value <==> |value| <= width) && (out != value ==> |out| == width)
  {
    if width <= 0 { return []; }
    if |value| <= width { return value; }
    return value[..width];
  }

  /** The pieces of what is left of a word. */
  function PiecesLeft<T>(rest: seq<T>, width: nat): seq<seq<T>>
    requires width > 0
  {
    if rest == [] then [] else Pieces(rest, width)
  }

  lemma LeftFull<T>(rest: seq<T>, width: nat)
    requires width > 0 && |rest| >= width
    ensures PiecesLeft(rest, width) == [rest[..width]] + PiecesLeft(rest[width..], width)
  {
    if |rest| == width {
      assert rest[..width] == rest;
    }
  }

  lemma OneWord(piece: Line)
    requires NoSpace(piece) && piece != []
    ensures Words(piece) == [piece]
  {
    WordsOfWord([], piece);
    assert [] + piece == piece;
  }

  /** The lines so far and the pieces left make up the target. */
  ghost predicate Breaking(target: seq<Line>, lines: seq<Line>, b: Line, left: seq<Line>, width: nat) {
    Narrow(lines, width) && |b| <= width && AllPrintable(b) && AllWords(lines) + Words(b) + left == target
  }

  /** A full piece becomes a line of its own. */
  lemma BreakFull(target: seq<Line>, lines: seq<Line>, piece: Line, left: seq<Line>, width: nat)
    requires Breaking(target, lines, [], [piece] + left, width)
    requires NoSpace(piece) && AllPrintable(piece) && 0 < |piece| <= width
    ensures Breaking(target, lines + [piece], [], left, width)
  {
    AllWordsSnoc(lines, piece);
    OneWord(piece);
    ConcatEmpty(AllWords(lines));
    ConcatEmpty(AllWords(lines) + [piece]);
    ConcatAssociates(AllWords(lines), [piece], left);
  }

  /** The last piece, when it is shorter, starts the next line. */
  lemma BreakRest(target: seq<Line>, lines: seq<Line>, piece: Line, width: nat)
    requires Breaking(target, lines, [], [piece], width) && NoSpace(piece)
    requires AllPrintable(piece) && 0 < |piece| <= width
    ensures Breaking(target, lines, piece, [], width)
  {
    OneWord(piece);
    ConcatEmpty(AllWords(lines));
    ConcatEmpty(AllWords(lines) + [piece]);
  }

  /** The columns the next piece of what is left takes. */
  function NextPiece(rest: Line, width: nat): nat {
    if |rest| < width then |rest| else width
  }

  lemma HeadBreaks(target: seq<Line>, lines: seq<Line>, rest: Line, width: nat)
    requires width > 0 && |rest| >= width && NoSpace(rest) && AllPrintable(rest)
    requires Breaking(target, lines, [], PiecesLeft(rest, width), width)
    ensures Breaking(target, lines + [rest[..width]], [], PiecesLeft(rest[width..], width), width)
  {
    LeftFull(rest, width);
    BreakFull(target, lines, rest[..width], PiecesLeft(rest[width..], width), width);
  }

  lemma SplitAt(read: Line, rest: Line, n: nat)
    requires n <= |rest|
    ensures read + rest[..n] + rest[n..] == read + rest
  {}

  lemma FullPiece(read: Line, f: Fill, piece: Line, rest: Line, width: nat)
    requires Ready(read, f, width, width) && NoSpace(piece) && |piece| == width > 0
    ensures rest != [] ==> Ready(read + piece, f.Finish(piece), NextPiece(rest, width), width)
    ensures rest == [] ==> Holds(read + piece, f.Finish(piece), [], true, width)
  {
    ReadyFull(read, f, piece, if rest == [] then 1 else NextPiece(rest, width), width);
    if rest == [] {
      ReadyHolds(read + piece, f.Finish(piece), width);
    }
  }

  /** One round of the loop below: a piece of full width is flushed, a shorter one stays. */
  method BreakRound(ghost target: seq<Line>, ghost read: Line, ghost f: Fill, lines0: seq<Line>, rest0: Line,
                    width: nat)
    returns (lines: seq<Line>, b: Line, rest: Line, ghost read': Line, ghost f': Fill)
    requires width > 0 && rest0 != [] && NoSpace(rest0) && AllPrintable(rest0)
    requires Breaking(target, lines0, [], PiecesLeft(rest0, width), width)
    requires f.lines == lines0 && Ready(read, f, NextPiece(rest0, width), width)
    ensures NoSpace(rest) && AllPrintable(rest) && |rest| < |rest0| && read' + rest == read + rest0
    ensures Breaking(target, lines, b, PiecesLeft(rest, width), width) && f'.lines == lines
    ensures rest != [] ==> b == [] && Ready(read', f', NextPiece(rest, width), width)
    ensures rest == [] ==> Holds(read', f', b, true, width)
  {
    if |rest0| >= width {
      var piece := rest0[..width];
      HeadBreaks(target, lines0, rest0, width);
      FullPiece(read, f, piece, rest0[width..], width);
      SplitAt(read, rest0, width);
      var line := TrimToWidth(piece, width);
      lines, b, rest := lines0 + [line], [], rest0[width..];
      read', f' := read + piece, f.Finish(piece);
    } else {
      BreakRest(target, lines0, rest0, width);
      HoldsStarted(read, f, rest0, true, width);
      lines, b, rest := lines0, rest0, [];
      read', f' := read + rest0, f;
    }
  }

  /** The loop that spreads a word longer than a line over several. */
  method BreakWord(ghost words: seq<Line>, ghost read: Line, ghost f: Fill, lines0: seq<Line>, word: Line, width: nat)
    returns (lines: seq<Line>, b: Line, ghost f': Fill)
    requires width > 0 && |word| > width && NoSpace(word) && AllPrintable(word) && Laid(words, lines0, [], width)
    requires f.lines == lines0 && Ready(read, f, width, width)
    ensures Laid(words + [word], lines, b, width) && f'.lines == lines && Holds(read + word, f', b, true, width)
  {
    AllPiecesSnoc(words, word, width);
    ghost var target := AllPieces(words + [word], width);
    lines, b, f' := lines0, [], f;
    var rest := word;
    ghost var sofar := read;
    while rest != []
      invariant NoSpace(rest) && AllPrintable(rest) && Breaking(target, lines, b, PiecesLeft(rest, width), width)
      invariant f'.lines == lines && sofar + rest == read + word
      invariant rest != [] ==> b == [] && Ready(sofar, f', NextPiece(rest, width), width)
      invariant rest == [] ==> Holds(sofar, f', b, true, width)
      decreases |rest|
    {
      lines, b, rest, sofar, f' := BreakRound(target, sofar, f', lines, rest, width);
    }
    ConcatEmpty(AllWords(lines) + Words(b));
    ConcatEmpty(sofar);
  }

  /** The closure `flush`: the line being filled, which fits, joins the finished ones. */
  method Flush(ghost words: seq<Line>, lines0: seq<Line>, b: Line, suppress0: bool, wrapped: bool, width: nat)
    returns (lines: seq<Line>, suppress: bool)
    requires width > 0 && Laid(words, lines0, b, width)
    ensures Laid(words, lines, [], width) && lines == (if b == [] then lines0 else lines0 + [b])
    ensures suppress == if b == [] then suppress0 else wrapped
  {
    if |b| == 0 { return lines0, suppress0; }
    FlushLays(words, lines0, b, width);
    var line := TrimToWidth(b, width);
    return lines0 + [line], wrapped;
  }

  /** The wrapping loop's round for a run of spaces. */
  method PutSpace(ghost words: seq<Line>, ghost read: Line, ghost f: Fill, lines0: seq<Line>, b0: Line, suppress0: bool,
                  spaces: Line, width: nat)
    returns (lines: seq<Line>, b: Line, suppress: bool, ghost f': Fill)
    requires width > 0 && Laid(words, lines0, b0, width) && AllSpace(spaces) && AllPrintable(spaces) && spaces != []
    requires f.lines == lines0 && Holds(read, f, b0, suppress0, width)
    ensures Laid(words, lines, b, width) && AtGap(b) && f'.lines == lines
    ensures Holds(read + spaces, f', b, suppress, width)
  {
    lines, b, suppress := lines0, b0, suppress0;
    if |b| == 0 && suppress {
      HoldsSkipped(read, f, suppress, spaces, width);
      f' := f.Skip(spaces);
      return;
    }
    if |b| + |spaces| > width {
      lines, suppress := Flush(words, lines, b, suppress, true, width);
      if b == [] {
        HoldsSkipped(read, f, suppress, spaces, width);
        f' := f.Skip(spaces);
      } else {
        HoldsWrapped(read, f, b, suppress0, spaces, width);
        f' := f.Finish(b).Skip(spaces);
      }
      b := [];
      return;
    }
    SpaceLays(words, lines, b, spaces, width);
    HoldsMore(read, f, b, suppress, spaces, suppress, width);
    b, f' := b + spaces, f;
  }

  /** A word that does not fit behind what is there starts a line. */
  method StartLine(ghost words: seq<Line>, ghost read: Line, ghost f: Fill, lines0: seq<Line>, b: Line, suppress0: bool,
                   ghost next: nat, width: nat)
    returns (lines: seq<Line>, suppress: bool, ghost f': Fill)
    requires width > 0 && Laid(words, lines0, b, width) && f.lines == lines0 && Holds(read, f, b, suppress0, width)
    requires next > 0 && (b != [] ==> |b| + next > width)
    ensures Laid(words, lines, [], width) && f'.lines == lines && Ready(read, f', next, width)
  {
    lines, suppress := Flush(words, lines0, b, suppress0, true, width);
    if b == [] {
      ReadyNow(read, f, suppress0, next, width);
      f' := f;
    } else {
      ReadyAfter(read, f, b, suppress0, next, width);
      f' := f.Finish(b);
    }
  }

  /** The wrapping loop's round for a word. */
  method PutWord(ghost words: seq<Line>, ghost read: Line, ghost f: Fill, lines0: seq<Line>, b0: Line, suppress0: bool,
                 word: Line, width: nat)
    returns (lines: seq<Line>, b: Line, suppress: bool, ghost f': Fill)
    requires width > 0 && Laid(words, lines0, b0, width) && AtGap(b0)
    requires NoSpace(word) && AllPrintable(word) && word != []
    requires f.lines == lines0 && Holds(read, f, b0, suppress0, width)
    ensures Laid(words + [word], lines, b, width) && f'.lines == lines && Holds(read + word, f', b, suppress, width)
  {
    if |word| > width {
      lines, suppress, f' := StartLine(words, read, f, lines0, b0, suppress0, width, width);
      lines, b, f' := BreakWord(words, read, f', lines, word, width);
      suppress := true;
    } else if |b0| == 0 || |b0| + |word| > width {
      lines, suppress, f' := StartLine(words, read, f, lines0, b0, suppress0, |word|, width);
      WordLays(words, lines, [], word, width);
      HoldsStarted(read, f', word, false, width);
      assert [] + word == word;
      b, suppress := word, false;
    } else {
      WordLays(words, lines0, b0, word, width);
      HoldsMore(read, f, b0, suppress0, word, false, width);
      lines, b, suppress, f' := lines0, b0 + word, false, f;
    }
  }

  /** The round for the token at `n`. */
  method PutToken(ghost f: Fill, lines0: seq<Line>, b0: Line, suppress0: bool, tokens: seq<Token>, n: nat, width: nat)
    returns (lines: seq<Line>, b: Line, suppress: bool, ghost f': Fill)
    requires width > 0 && n < |tokens| && Alternating(tokens) && AllPrintable(tokens[n].text)
    requires n == 0 || tokens[n - 1].space ==> AtGap(b0)
    requires Laid(TokenWords(tokens[..n]), lines0, b0, width)
    requires f.lines == lines0 && Holds(TokensText(tokens[..n]), f, b0, suppress0, width)
    ensures Laid(TokenWords(tokens[..n + 1]), lines, b, width) && (tokens[n].space ==> AtGap(b))
    ensures f'.lines == lines && Holds(TokensText(tokens[..n + 1]), f', b, suppress, width)
  {
    var token := tokens[n];
    ghost var words, read := TokenWords(tokens[..n]), TokensText(tokens[..n]);
    assert TokenOk(token) && tokens[..n + 1] == tokens[..n] + [token];
    TokenWordsSnoc(tokens[..n], token);
    TokensTextSnoc(tokens[..n], token);
    if token.space {
      ConcatEmpty(words);
      lines, b, suppress, f' := PutSpace(words, read, f, lines0, b0, suppress0, token.text, width);
    } else {
      lines, b, suppress, f' := PutWord(words, read, f, lines0, b0, suppress0, token.text, width);
    }
  }

  /** The lines hold the text but for the gaps between them, and none of them ends early. */
  ghost predicate FilledBy(text: Line, lines: seq<Line>, f: Fill, width: nat) {
    f.Ok(width) && f.Text() == text && lines == if f.lines == [] then [[]] else f.lines
  }

  /** The flush at the end. */
  method PutLast(ghost words: seq<Line>, ghost read: Line, ghost f: Fill, lines0: seq<Line>, b: Line,
                 suppress: bool, width: nat)
    returns (lines: seq<Line>, ghost f': Fill)
    requires width > 0 && Laid(words, lines0, b, width) && f.lines == lines0 && Holds(read, f, b, suppress, width)
    ensures AllWords(lines) == AllPieces(words, width) && FilledBy(read, lines, f', width)
    ensures lines == [[]] || (lines != [] && Narrow(lines, width))
  {
    var ended;
    lines, ended := Flush(words, lines0, b, suppress, false, width);
    if b == [] {
      f' := f;
      ConcatEmpty(f.Text());
    } else {
      f' := f.Finish(b);
      FinishIsOk(f, b, width);
      FinishText(f, b);
    }
    ConcatEmpty(AllWords(lines));
    if |lines| == 0 {
      lines := [[]];
      assert lines[..0] == [] && Words([]) == [];
    }
  }

  /** `wrapPlainLines` on the code points of sanitized text that is not empty. */
  method WrapRunes(text: Line, width: nat) returns (lines: seq<Line>, ghost f: Fill)
    requires width > 0 && AllPrintable(text)
    ensures AllWords(lines) == AllPieces(Words(text), width)
    ensures FilledBy(Spaced(text), lines, f, width)
    ensures lines == [[]] || (lines != [] && Narrow(lines, width))
  {
    var tokens := TokenizeText(text);
    lines := [];
    var b: Line, suppress := [], false;
    f := Fill([], [], []);
    HoldsNothing(width);
    assert tokens[..0] == [];
    for n := 0 to |tokens|
      invariant Laid(TokenWords(tokens[..n]), lines, b, width) && (n == 0 || tokens[n - 1].space ==> AtGap(b))
      invariant f.lines == lines && Holds(TokensText(tokens[..n]), f, b, suppress, width)
    {
      TokensPrintable(tokens, text, n);
      lines, b, suppress, f := PutToken(f, lines, b, suppress, tokens, n, width);
    }
    assert tokens[..|tokens|] == tokens;
    lines, f := PutLast(Words(text), Spaced(text), f, lines, b, suppress, width);
  }

  /** `wrapPlainLines`: what it returns as code points, encoded. */
  method WrapPlainLines(text: seq<Byte>, width: int)
    returns (lines: seq<seq<Byte>>, ghost shown: seq<Line>, ghost f: Fill)
    ensures |lines| == |shown| > 0 && forall i :: 0 <= i < |lines| ==> lines[i] == EncodeAll(shown[i])
    ensures width <= 0 ==> lines == [[]]
    ensures width > 0 ==> AllWords(shown) == AllPieces(Words(Sanitized(text)), width)
    ensures width > 0 ==> FilledBy(Spaced(Sanitized(text)), shown, f, width)
    ensures width > 0 ==> forall i :: 0 <= i < |shown| ==> |shown[i]| <= width && Visible(lines[i]) == shown[i]
  {
    lines, shown, f := [[]], [[]], Fill([], [], []);
    assert EncodeAll([]) == [] && Visible([]) == [];
    if width <= 0 { return; }
    var sanitized := SanitizeOutputLine(text);
    SanitizedIsVisible(text);
    if sanitized == [] {
      assert Sanitized(text) == [] && shown[..0] == [];
      return;
    }
    var wrapped;
    wrapped, f := WrapRunes(Runes(sanitized), width);
    shown := wrapped;
    lines := EncodeLines(wrapped);
    forall i | 0 <= i < |shown| ensures |shown[i]| <= width && Visible(lines[i]) == shown[i] {
      VisibleOfPrintable(shown[i]);
    }
  }

  function EncodeLines(lines: seq<Line>): (out: seq<seq<Byte>>)
    ensures |out| == |lines| && forall i :: 0 <= i < |lines| ==> out[i] == EncodeAll(lines[i])
  {
    seq(|lines|, i requires 0 <= i < |lines| => EncodeAll(lines[i]))
  }

  // ----- What the layout means -----

  /** Words cut only where they must be: every word that fits a line is there as it was. */
  lemma {:induction false} FittingWordsKept<T>(words: seq<seq<T>>, width: nat, word: seq<T>)
    requires width > 0 && word in words && |word| <= width
    ensures word in AllPieces(words, width)
  {
    var n := |words| - 1;
    if word == words[n] {
      assert Pieces(word, width) == [word];
    } else {
      FittingWordsKept(words[..n], width, word);
    }
  }

  lemma {:induction false} AllWordsAreSolid(lines: seq<Line>)
    ensures Flatten(AllWords(lines)) == Solid(Flatten(lines))
  {
    if lines != [] {
      var n := |lines| - 1;
      AllWordsAreSolid(lines[..n]);
      FlattenConcat(AllWords(lines[..n]), Words(lines[n]));
      WordsAreSolid(lines[n]);
      SolidConcat(Flatten(lines[..n]), lines[n]);
    }
  }

  lemma {:induction false} SolidConcat(a: Line, b: Line)
    ensures Solid(a + b) == Solid(a) + Solid(b)
  {
    if b == [] {
      assert a + b == a;
    } else {
      var n := |b| - 1;
      assert (a + b)[..|a + b| - 1] == a + b[..n];
      SolidConcat(a, b[..n]);
    }
  }

  /** Lines with the right words hold exactly the characters of the text that are not white space, in order. */
  lemma WrapConserves(text: Line, lines: seq<Line>, width: nat)
    requires width > 0 && AllWords(lines) == AllPieces(Words(text), width)
    ensures Solid(Flatten(lines)) == Solid(text)
  {
    AllWordsAreSolid(lines);
    AllPiecesAreWords(Words(text), width);
    WordsAreSolid(text);
  }

  lemma {:induction false} WovenHolds(lines: seq<Line>, gaps: seq<Line>, i: nat, r: Rune)
    requires |lines| == |gaps| && i < |lines| && r in lines[i]
    ensures r in Woven(lines, gaps)
  {
    var n := |lines| - 1;
    if i < n {
      WovenHolds(lines[..n], gaps[..n], i, r);
    }
  }

  /** All the white space there is on the lines is spaces, whatever it was in the text. */
  lemma OnlySpacesShown(text: Line, lines: seq<Line>, f: Fill, width: nat, i: nat, j: nat)
    requires FilledBy(Spaced(text), lines, f, width) && i < |lines| && j < |lines[i]|
    ensures lines[i][j] == 0x20 || !IsSpace(lines[i][j])
  {
    WovenHolds(f.lines, f.gaps, i, lines[i][j]);
    assert lines[i][j] in Spaced(text);
    var k :| 0 <= k < |text| && Spaced(text)[k] == lines[i][j];
    assert Spaced(text)[k] == Blanked(text[k]);
  }
}
