/** The scrollback buffer of a tab: its last lines and how far the view is scrolled up. */
module ScrollBuffer {
  import opened Seqs

  const DEFAULT_MAX_LINES := 5000

  datatype Buf = Buf(lines: seq<string>, offset: int, max: int) {

    function Bound(): (n: nat)
      ensures n > 0
    {
      if max <= 0 then DEFAULT_MAX_LINES else max
    }

    predicate Wf() {
      0 <= offset <= |lines| <= Bound()
    }

    function Append(more: seq<string>): Buf {
      if more == [] then this
      else
        var all := lines + more;
        var up := if offset > 0 then offset + |more| else offset;
        if |all| > Bound() then Buf(Last(all, Bound()), Clamp(up, Bound()), max) else Buf(all, up, max)
    }

    function Scroll(delta: int, limit: int): Buf {
      this.(offset := Clamp(offset + delta, MaxScroll(|lines|, limit)))
    }

    /** The number of lines a view of height `limit` shows. */
    function Height(limit: int): nat {
      if limit <= 0 || limit > |lines| then |lines| else limit
    }

    /** `Snapshot` also pulls the offset back to what the viewport allows. */
    function Settle(limit: int): Buf {
      var most := MaxScroll(|lines|, Height(limit));
      if offset > most then this.(offset := most) else this
    }

    function View(limit: int): BufView
      requires Wf()
    {
      var at := Settle(limit).offset;
      var end := |lines| - at;
      BufView(lines[end - Height(limit)..end], |lines|, at, at == 0)
    }

    function Export(): Persisted {
      Persisted(lines, Clamp(offset, |lines|))
    }
  }

  datatype BufView = BufView(lines: seq<string>, total: nat, offset: int, atBottom: bool)

  datatype Persisted = Persisted(lines: seq<string>, offset: int)

  function New(maxLines: int): Buf {
    Buf([], 0, if maxLines > 0 then maxLines else DEFAULT_MAX_LINES)
  }

  function MaxScroll(total: int, limit: int): int {
    if total <= 0 || limit <= 0 || total <= limit then 0 else total - limit
  }

  function Clamp(x: int, hi: int): int {
    if x < 0 then 0 else if x > hi then hi else x
  }

  function Restore(p: Persisted, maxLines: int): Buf {
    var b := New(maxLines);
    var lines := Last(p.lines, b.Bound());
    Buf(lines, Clamp(p.offset, |lines|), b.max)
  }

  lemma RestoreExport(b: Buf)
    requires b.Wf() && b.max > 0
    ensures Restore(b.Export(), b.max) == b
  {}

  /** A restored buffer holds the last lines saved, at the offset saved as far as that is one. */
  lemma RestoredIs(p: Persisted, maxLines: int)
    ensures var b := Restore(p, maxLines);
            && |b.lines| == (if |p.lines| > b.Bound() then b.Bound() else |p.lines|)
            && b.lines == p.lines[|p.lines| - |b.lines|..]
            && (maxLines > 0 ==> b.Bound() == maxLines) && (maxLines <= 0 ==> b.Bound() == 5000)
            && (0 <= p.offset <= |b.lines| ==> b.offset == p.offset)
            && (p.offset < 0 ==> b.offset == 0) && (p.offset > |b.lines| ==> b.offset == |b.lines|)
  {}

  lemma OperationsKeepWf(b: Buf, lines: seq<string>, delta: int, limit: int)
    requires b.Wf()
    ensures b.Append(lines).Wf() && b.Scroll(delta, limit).Wf() && b.Settle(limit).Wf()
    ensures b.Append(lines).max == b.max
  {}

  /**
    A scroll moves the offset by as much as it is told, and stops at the bottom and where the oldest line is the
    first shown; a view that holds all lines, or has no height, does not scroll.
   */
  lemma ScrollMoves(b: Buf, delta: int, limit: int)
    ensures var b', most := b.Scroll(delta, limit), if 0 < limit < |b.lines| then |b.lines| - limit else 0;
            && b'.lines == b.lines && b'.max == b.max
            && (0 <= b.offset + delta <= most ==> b'.offset == b.offset + delta)
            && (b.offset + delta < 0 ==> b'.offset == 0)
            && (b.offset + delta > most ==> b'.offset == most)
  {}

  /** A view shows as many lines as it is high, all of them if it is higher or has no height. */
  lemma ViewIsAsHigh(b: Buf, limit: int)
    requires b.Wf()
    ensures var v := b.View(limit);
            && |v.lines| == (if 0 < limit < |b.lines| then limit else |b.lines|)
            && v.total == |b.lines| && (v.atBottom <==> v.offset == 0)
            && 0 <= v.offset <= b.offset && v.offset + |v.lines| <= |b.lines|
            && (b.offset + |v.lines| <= |b.lines| ==> v.offset == b.offset)
            && v.lines == b.lines[|b.lines| - v.offset - |v.lines|..|b.lines| - v.offset]
  {}

  // ----- Whole runs of one buffer -----

  datatype Op = AppendOp(lines: seq<string>) | ScrollOp(delta: int, limit: int) | ViewOp(limit: int) | ResetOp

  function Step(b: Buf, op: Op): Buf {
    match op
    case AppendOp(lines) => b.Append(lines)
    case ScrollOp(delta, limit) => b.Scroll(delta, limit)
    case ViewOp(limit) => b.Settle(limit)
    case ResetOp => b.(offset := 0)
  }

  function Exec(b: Buf, ops: seq<Op>): Buf {
    if ops == [] then b else Step(Exec(b, ops[..|ops|-1]), ops[|ops|-1])
  }

  /** Every line the run appended. */
  function Appended(ops: seq<Op>): seq<string> {
    if ops == [] then []
    else
      var last := ops[|ops|-1];
      Appended(ops[..|ops|-1]) + if last.AppendOp? then last.lines else []
  }

  lemma {:induction false} StaysLastLines(b: Buf, before: seq<string>, ops: seq<Op>)
    requires b.Wf() && b.lines == Last(before, b.Bound())
    ensures var b' := Exec(b, ops);
            b'.max == b.max && b'.Wf() && b'.lines == Last(before + Appended(ops), b.Bound())
  {
    if ops == [] {
      ConcatEmpty(before);
    } else {
      var front, last := ops[..|ops|-1], ops[|ops|-1];
      StaysLastLines(b, before, front);
      if last.AppendOp? {
        LastOfAppend(before + Appended(front), last.lines, b.Bound());
        ConcatAssociates(before, Appended(front), last.lines);
      } else {
        ConcatEmpty(Appended(front));
      }
    }
  }

  /**
    New or restored, whatever is appended, scrolled and viewed, the buffer holds the last of the lines saved
    and appended, and a legal offset.
   */
  lemma HoldsLastLines(maxLines: int, p: Persisted, ops: seq<Op>)
    ensures var b := Exec(New(maxLines), ops);
            b.max == New(maxLines).max && b.Wf() && b.lines == Last(Appended(ops), b.Bound())
    ensures var b := Exec(Restore(p, maxLines), ops);
            b.max == New(maxLines).max && b.Wf() && b.lines == Last(p.lines + Appended(ops), b.Bound())
  {
    StaysLastLines(New(maxLines), [], ops);
    assert [] + Appended(ops) == Appended(ops);
    StaysLastLines(Restore(p, maxLines), p.lines, ops);
  }

  /** A view at an offset its height allows. */
  lemma ViewAt(b: Buf, limit: int)
    requires b.Wf() && b.offset <= MaxScroll(|b.lines|, b.Height(limit))
    ensures var end := |b.lines| - b.offset;
            b.Height(limit) <= end && b.View(limit).lines == b.lines[end - b.Height(limit)..end]
  {}

  /** Appending without dropping moves the offset, and nothing else of the view. */
  lemma AppendFits(b: Buf, lines: seq<string>, limit: int)
    requires b.Wf() && 0 < b.offset <= MaxScroll(|b.lines|, b.Height(limit))
    requires |b.lines| + |lines| <= b.Bound()
    ensures b.Append(lines).Wf() && b.Append(lines).View(limit).lines == b.View(limit).lines
  {
    var b', h := b.Append(lines), b.Height(limit);
    assert b'.lines == b.lines + lines && b'.offset == b.offset + |lines| && b'.Height(limit) == h;
    ViewAt(b, limit);
    ViewAt(b', limit);
    var end := |b.lines| - b.offset;
    assert (b.lines + lines)[end - h..end] == b.lines[end - h..end];
  }

  /** With lines dropped, it is the same lines or, if some of these went, the oldest left. */
  lemma AppendDrops(b: Buf, lines: seq<string>, limit: int)
    requires b.Wf() && 0 < b.offset <= MaxScroll(|b.lines|, b.Height(limit))
    requires |b.lines| + |lines| > b.Bound()
    ensures var h, d := b.Height(limit), |b.lines| + |lines| - b.Bound();
            var shown := |b.lines| - b.offset - h;
            && b.Append(lines).Wf()
            && b.Append(lines).View(limit).lines ==
                 if d <= shown then (b.lines + lines)[shown..shown + h] else (b.lines + lines)[d..d + h]
  {
    var b', h, d := b.Append(lines), b.Height(limit), |b.lines| + |lines| - b.Bound();
    var shown := |b.lines| - b.offset - h;
    assert b'.lines == (b.lines + lines)[d..] && b'.Height(limit) == h;
    if d <= shown {
      ViewAt(b', limit);
      assert b'.lines[shown - d..shown - d + h] == (b.lines + lines)[shown..shown + h];
    } else {
      assert b'.View(limit).lines == b'.lines[..h];
    }
  }

  /**
    Scrolled up, the view is anchored to its lines: after an append it shows the same ones, or, when some
    of them were dropped, the oldest lines left.
   */
  lemma AppendKeepsView(b: Buf, lines: seq<string>, limit: int)
    requires b.Wf() && 0 < b.offset <= MaxScroll(|b.lines|, b.Height(limit))
    ensures var h := b.Height(limit);
            var shown := |b.lines| - b.offset - h;
            var dropped := if |b.lines| + |lines| > b.Bound() then |b.lines| + |lines| - b.Bound() else 0;
            && b.View(limit).lines == b.lines[shown..shown + h]
            && b.Append(lines).Wf()
            && b.Append(lines).View(limit).lines ==
                 (if dropped <= shown then b.View(limit).lines else (b.lines + lines)[dropped..dropped + h])
  {
    ViewAt(b, limit);
    if |b.lines| + |lines| <= b.Bound() {
      AppendFits(b, lines, limit);
    } else {
      AppendDrops(b, lines, limit);
      var h := b.Height(limit);
      var shown := |b.lines| - b.offset - h;
      assert (b.lines + lines)[shown..shown + h] == b.lines[shown..shown + h];
    }
  }

  /** At the bottom, the view follows the newest lines. */
  lemma BottomFollows(b: Buf, lines: seq<string>, limit: int)
    requires b.Wf() && b.offset == 0
    ensures b.Append(lines).Wf()
    ensures b.Append(lines).View(limit) ==
            var b' := b.Append(lines);
            BufView(Last(b'.lines, b'.Height(limit)), |b'.lines|, 0, true)
  {
    var b' := b.Append(lines);
    assert b'.lines[|b'.lines| - b'.Height(limit)..] == Last(b'.lines, b'.Height(limit));
  }

  // ----- The buffer object -----

  class Buffer {
    var lines: seq<string>
    var scrollOffset: int
    var maxLines: int

    ghost function Value(): Buf
      reads this
    {
      Buf(lines, scrollOffset, maxLines)
    }

    constructor (maxLines: int)
      ensures Value() == New(maxLines)
    {
      lines, scrollOffset := [], 0;
      this.maxLines := if maxLines > 0 then maxLines else DEFAULT_MAX_LINES;
    }

    constructor FromPersisted(state: Persisted, maxLines: int)
      ensures Value() == Restore(state, maxLines)
    {
      var most := if maxLines > 0 then maxLines else DEFAULT_MAX_LINES;
      var kept := state.lines;
      if |kept| > most {
        kept := kept[|kept| - most..];
      }
      var offset := state.offset;
      if offset < 0 { offset := 0; }
      if offset > |kept| { offset := |kept|; }
      lines, scrollOffset, this.maxLines := kept, offset, most;
    }

    method Append(more: seq<string>)
      modifies this
      ensures Value() == old(Value()).Append(more)
    {
      if |more| == 0 { return; }
      lines := lines + more;
      if scrollOffset > 0 {
        scrollOffset := scrollOffset + |more|;
      }
      var most := maxLines;
      if most <= 0 { most := DEFAULT_MAX_LINES; }
      if most > 0 && |lines| > most {
        var trim := |lines| - most;
        lines := lines[trim..];
        if scrollOffset > |lines| { scrollOffset := |lines|; }
        if scrollOffset < 0 { scrollOffset := 0; }
      }
    }

    method Scroll(delta: int, limit: int)
      modifies this`scrollOffset
      ensures Value() == old(Value()).Scroll(delta, limit)
    {
      var most := MaxScroll(|lines|, limit);
      var offset := scrollOffset + delta;
      scrollOffset := if offset < 0 then 0 else if offset > most then most else offset;
    }

    method Snapshot(limit: int) returns (view: BufView)
      requires Value().Wf()
      modifies this`scrollOffset
      ensures Value() == old(Value()).Settle(limit) && view == old(Value()).View(limit)
    {
      var total := |lines|;
      var height := limit;
      if height <= 0 || height > total { height := total; }
      var most := MaxScroll(total, height);
      if scrollOffset > most { scrollOffset := most; }
      var end := total - scrollOffset;
      if end < 0 { end := 0; }
      var start := end - height;
      if start < 0 { start := 0; }
      view := BufView(lines[start..end], total, scrollOffset, scrollOffset == 0);
    }
  }
}
