/** Filling lines with text: only white space goes missing, only at a line's end, and no line ends early. */
module Filling {
  import opened Text
  import opened Seqs

  type Line = seq<Rune>

  const SPACE: Rune := 0x20

  predicate AllSpace(s: Line) {
    forall i :: 0 <= i < |s| ==> IsSpace(s[i])
  }

  predicate NoSpace(s: Line) {
    forall i :: 0 <= i < |s| ==> !IsSpace(s[i])
  }

  /** The lines, each with the gap behind it. */
  function Woven(lines: seq<Line>, gaps: seq<Line>): Line
    requires |lines| == |gaps|
  {
    if lines == [] then []
    else
      var n := |lines| - 1;
      Woven(lines[..n], gaps[..n]) + (lines[n] + gaps[n])
  }

  /** What the next line starts with had no room behind the gap. */
  ghost predicate Tight(line: Line, gap: Line, next: Line, width: nat) {
    exists n: nat :: n <= |next| && Refused(line, gap, next[..n], width)
  }

  predicate Refused(line: Line, gap: Line, start: Line, width: nat) {
    start != [] && NoSpace(start) && |line| + |gap| + |start| > width
  }

  lemma TightNow(line: Line, gap: Line, word: Line, width: nat)
    requires Refused(line, gap, word, width)
    ensures Tight(line, gap, word, width)
  {
    assert word[..|word|] == word;
  }

  lemma TightGrows(line: Line, gap: Line, next: Line, more: Line, width: nat)
    requires Tight(line, gap, next, width)
    ensures Tight(line, gap, next + more, width)
  {
    var n: nat :| n <= |next| && Refused(line, gap, next[..n], width);
    assert (next + more)[..n] == next[..n];
  }

  /** Finished lines, the gaps behind them, and a gap at the start when it is wider than a line. */
  datatype Fill = Fill(lead: Line, lines: seq<Line>, gaps: seq<Line>) {

    /** The text that was read for these lines. */
    function Text(): Line
      requires |lines| == |gaps|
    {
      lead + Woven(lines, gaps)
    }

    ghost predicate Ok(width: nat) {
      && |lines| == |gaps| && AllSpace(lead) && (lead != [] ==> |lead| > width)
      && (forall i :: 0 <= i < |gaps| ==> AllSpace(gaps[i]))
      && (forall i :: 0 < i < |lines| ==> Tight(lines[i - 1], gaps[i - 1], lines[i], width))
    }

    /** The columns the last line and the gap behind it take. */
    function Taken(): nat
      requires |lines| == |gaps| && lines != []
    {
      |lines[|lines|-1]| + |gaps[|lines|-1]|
    }

    /** The line being filled is there because of what it starts with; if it is empty, nothing will fit before it. */
    ghost predicate Before(b: Line, width: nat)
      requires |lines| == |gaps|
    {
      lines != [] ==>
        if b == [] then Taken() >= width else Tight(lines[|lines|-1], gaps[|lines|-1], b, width)
    }

    /** One more line. */
    function Finish(b: Line): Fill {
      Fill(lead, lines + [b], gaps + [[]])
    }

    /** More white space goes missing. */
    function Skip(spaces: Line): Fill {
      if gaps == [] then this.(lead := lead + spaces)
      else this.(gaps := gaps[..|gaps|-1] + [gaps[|gaps|-1] + spaces])
    }
  }

  lemma FinishIsOk(f: Fill, b: Line, width: nat)
    requires f.Ok(width) && f.Before(b, width) && b != []
    ensures f.Finish(b).Ok(width) && f.Finish(b).Taken() == |b|
  {
    var g := f.Finish(b);
    forall i | 0 < i < |g.lines| ensures Tight(g.lines[i - 1], g.gaps[i - 1], g.lines[i], width) {
      if i < |f.lines| {
        assert Tight(f.lines[i - 1], f.gaps[i - 1], f.lines[i], width);
      }
    }
  }

  lemma FinishText(f: Fill, b: Line)
    requires |f.lines| == |f.gaps|
    ensures f.Finish(b).Text() == f.Text() + b
  {
    var lines, gaps := f.lines + [b], f.gaps + [[]];
    assert lines[..|f.lines|] == f.lines && gaps[..|f.lines|] == f.gaps;
    ConcatEmpty(b);
    ConcatAssociates(f.lead, Woven(f.lines, f.gaps), b);
  }

  lemma SkipText(f: Fill, spaces: Line)
    requires |f.lines| == |f.gaps|
    ensures f.Skip(spaces).Text() == f.Text() + spaces
  {
    var n := |f.lines| - 1;
    if n >= 0 {
      assert f.Skip(spaces).gaps[..n] == f.gaps[..n];
      ConcatAssociates(f.lines[n], f.gaps[n], spaces);
      ConcatAssociates(Woven(f.lines[..n], f.gaps[..n]), f.lines[n] + f.gaps[n], spaces);
      ConcatAssociates(f.lead, Woven(f.lines, f.gaps), spaces);
    } else {
      ConcatEmpty(f.lead);
      ConcatEmpty(f.lead + spaces);
    }
  }

  lemma SkipIsOk(f: Fill, spaces: Line, width: nat)
    requires f.Ok(width) && AllSpace(spaces) && (f.lines == [] ==> |spaces| > width)
    ensures f.Skip(spaces).Ok(width)
    ensures f.lines != [] ==> f.Skip(spaces).Taken() == f.Taken() + |spaces|
  {
    var g := f.Skip(spaces);
    forall i | 0 < i < |g.lines| ensures Tight(g.lines[i - 1], g.gaps[i - 1], g.lines[i], width) {
      assert Tight(f.lines[i - 1], f.gaps[i - 1], f.lines[i], width);
      assert g.gaps[i - 1] == f.gaps[i - 1];
    }
  }

  // ----- The line being filled -----

  /** The finished lines and the one being filled hold the text read so far. */
  ghost predicate Holds(read: Line, f: Fill, b: Line, suppress: bool, width: nat) {
    && f.Ok(width) && f.Before(b, width) && f.Text() + b == read
    && (b == [] ==> (suppress <==> f.lines != []))
  }

  lemma HoldsNothing(width: nat)
    ensures Holds([], Fill([], [], []), [], false, width)
  {}

  /** White space between two lines is not shown. */
  lemma HoldsSkipped(read: Line, f: Fill, suppress: bool, spaces: Line, width: nat)
    requires Holds(read, f, [], suppress, width) && AllSpace(spaces) && (f.lines == [] ==> |spaces| > width)
    ensures Holds(read + spaces, f.Skip(spaces), [], suppress, width)
  {
    SkipIsOk(f, spaces, width);
    SkipText(f, spaces);
    ConcatEmpty(f.Text());
    ConcatEmpty(f.Skip(spaces).Text());
  }

  /** The line ends because the white space that follows has no room. */
  lemma HoldsWrapped(read: Line, f: Fill, b: Line, suppress: bool, spaces: Line, width: nat)
    requires Holds(read, f, b, suppress, width) && b != [] && AllSpace(spaces) && |b| + |spaces| > width
    ensures Holds(read + spaces, f.Finish(b).Skip(spaces), [], true, width)
  {
    FinishIsOk(f, b, width);
    FinishText(f, b);
    SkipIsOk(f.Finish(b), spaces, width);
    SkipText(f.Finish(b), spaces);
    ConcatEmpty(f.Finish(b).Skip(spaces).Text());
  }

  lemma BeforeGrows(f: Fill, b: Line, more: Line, width: nat)
    requires |f.lines| == |f.gaps| && f.Before(b, width) && (b != [] || f.lines == [])
    ensures f.Before(b + more, width)
  {
    if f.lines != [] {
      TightGrows(f.lines[|f.lines|-1], f.gaps[|f.lines|-1], b, more, width);
    }
  }

  /** More of the text on the same line. */
  lemma HoldsMore(read: Line, f: Fill, b: Line, suppress: bool, more: Line, suppress': bool, width: nat)
    requires Holds(read, f, b, suppress, width) && more != [] && (b != [] || f.lines == [])
    ensures Holds(read + more, f, b + more, suppress', width)
  {
    BeforeGrows(f, b, more, width);
    ConcatAssociates(f.Text(), b, more);
  }

  /** Finished lines that hold the text read so far, and leave no room for what comes next. */
  ghost predicate Ready(read: Line, f: Fill, next: nat, width: nat) {
    f.Ok(width) && f.Text() == read && (f.lines != [] ==> f.Taken() + next > width)
  }

  lemma ReadyAfter(read: Line, f: Fill, b: Line, suppress: bool, next: nat, width: nat)
    requires Holds(read, f, b, suppress, width) && b != [] && |b| + next > width
    ensures Ready(read, f.Finish(b), next, width)
  {
    FinishIsOk(f, b, width);
    FinishText(f, b);
  }

  lemma ReadyNow(read: Line, f: Fill, suppress: bool, next: nat, width: nat)
    requires Holds(read, f, [], suppress, width) && next > 0
    ensures Ready(read, f, next, width)
  {
    ConcatEmpty(f.Text());
  }

  /** A word, or a piece of one, starts a line. */
  lemma HoldsStarted(read: Line, f: Fill, word: Line, suppress: bool, width: nat)
    requires Ready(read, f, |word|, width) && word != [] && NoSpace(word)
    ensures Holds(read + word, f, word, suppress, width)
  {
    if f.lines != [] {
      TightNow(f.lines[|f.lines|-1], f.gaps[|f.lines|-1], word, width);
    }
  }

  /** A piece of full width is a line of its own. */
  lemma ReadyFull(read: Line, f: Fill, piece: Line, next: nat, width: nat)
    requires Ready(read, f, |piece|, width) && piece != [] && NoSpace(piece) && |piece| == width && next > 0
    ensures Ready(read + piece, f.Finish(piece), next, width)
  {
    HoldsStarted(read, f, piece, true, width);
    ReadyAfter(read + piece, f, piece, true, next, width);
  }

  lemma ReadyHolds(read: Line, f: Fill, width: nat)
    requires f.lines != [] && Ready(read, f, 1, width)
    ensures Holds(read, f, [], true, width)
  {
    ConcatEmpty(f.Text());
  }

  /** Every line but the first starts with a word. */
  lemma LaterLinesStartWithWord(f: Fill, width: nat, i: nat)
    requires f.Ok(width) && 0 < i < |f.lines|
    ensures f.lines[i] != [] && !IsSpace(f.lines[i][0])
  {
    var line := f.lines[i];
    assert Tight(f.lines[i - 1], f.gaps[i - 1], line, width);
    var n: nat :| n <= |line| && Refused(f.lines[i - 1], f.gaps[i - 1], line[..n], width);
    assert line[..n][0] == line[0];
  }
}
