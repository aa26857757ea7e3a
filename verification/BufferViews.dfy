/**
  `Snapshot` as the service calls it: without its lock, so that appends, scrolls and other snapshots may
  come between the call's reads, and between its comparison of the offset and the write that follows.
 */
module BufferViews {
  import opened Seqs
  import opened ScrollBuffer

  /** Where a call is, with what it has read so far: `total` lines, and the `height` of its view. */
  datatype Viewer =
    | Compare(total: nat, height: nat)
    | Write(total: nat, height: nat)
    | Place(total: nat, height: nat)
    | Copy(total: nat, height: nat, at: nat)
    | Report(total: nat, lines: seq<string>)
    | Flag(total: nat, lines: seq<string>, offset: nat)
    | Done(view: BufView)
  {
    predicate Measuring() {
      Compare? || Write? || Place? || Copy?
    }

    /** What keeps the call's copy within a buffer of `n` lines. */
    predicate Ok(n: nat) {
      Measuring() ==> height <= total <= n
    }
  }

  function Begin(b: Buf, limit: int): Viewer {
    Compare(|b.lines|, b.Height(limit))
  }

  function WindowEnd(total: nat, at: nat): nat {
    if at > total then 0 else total - at
  }

  function WindowStart(total: nat, height: nat, at: nat): nat {
    var end := WindowEnd(total, at);
    if height > end then 0 else end - height
  }

  /** What the next step of the call reads. */
  function Next(b: Buf, v: Viewer): Viewer
    requires b.Wf() && v.Ok(|b.lines|)
  {
    match v
    case Compare(total, height) =>
      if b.offset > MaxScroll(total, height) then Write(total, height) else Place(total, height)
    case Write(total, height) => Place(total, height)
    case Place(total, height) => Copy(total, height, b.offset)
    case Copy(total, height, at) => Report(total, b.lines[WindowStart(total, height, at)..WindowEnd(total, at)])
    case Report(total, lines) => Flag(total, lines, b.offset)
    case Flag(total, lines, offset) => Done(BufView(lines, total, offset, b.offset == 0))
    case Done(_) => v
  }

  /** What it leaves of the buffer. */
  function Touch(b: Buf, v: Viewer): Buf {
    if v.Write? then b.(offset := MaxScroll(v.total, v.height)) else b
  }

  lemma TouchKeepsWf(b: Buf, v: Viewer)
    requires b.Wf() && v.Ok(|b.lines|)
    ensures Touch(b, v).Wf() && Touch(b, v).lines == b.lines && Touch(b, v).max == b.max
    ensures Next(b, v).Ok(|b.lines|)
  {}

  /** With nothing between its steps the call is the snapshot of one moment. */
  lemma UndisturbedIsSnapshot(b: Buf, limit: int)
    requires b.Wf()
    ensures var c := Begin(b, limit);
            var b1, v1 := Touch(b, c), Next(b, c);
            if v1.Write? then
              && Touch(b1, v1) == b.Settle(limit)
              && Finished(Touch(b1, v1), Next(b1, v1)) == Done(b.View(limit))
            else b1 == b.Settle(limit) && Finished(b1, v1) == Done(b.View(limit))
  {
    var c := Begin(b, limit);
    SettleIs(b, limit);
    if b.offset > MaxScroll(|b.lines|, b.Height(limit)) {
      FinishedIs(b.Settle(limit), b, limit);
    } else {
      FinishedIs(b, b, limit);
    }
  }

  lemma SettleIs(b: Buf, limit: int)
    requires b.Wf()
    ensures var most := MaxScroll(|b.lines|, b.Height(limit));
            && b.Settle(limit) == (if b.offset > most then b.(offset := most) else b)
            && b.Settle(limit).Wf() && b.Settle(limit).offset + b.Height(limit) <= |b.lines|
  {}

  /** The offset being in place, the reads give the snapshot. */
  lemma FinishedIs(s: Buf, b: Buf, limit: int)
    requires b.Wf() && s == b.Settle(limit) && s.Wf() && s.offset + b.Height(limit) <= |b.lines|
    ensures Finished(s, Place(|b.lines|, b.Height(limit))) == Done(b.View(limit))
  {}

  /** The four reads left once the offset is in place, all of the same buffer. */
  function Finished(b: Buf, v: Viewer): Viewer
    requires b.Wf() && v.Ok(|b.lines|) && v.Place?
  {
    Next(b, Next(b, Next(b, Next(b, v))))
  }

  /** A late write is the clamp it was meant to be exactly when the offset has not gone below it meanwhile. */
  lemma LateWriteClampsIff(b: Buf, v: Viewer)
    requires b.Wf() && v.Write? && v.Ok(|b.lines|)
    ensures Touch(b, v).offset == Clamp(b.offset, MaxScroll(v.total, v.height)) <==>
            b.offset >= MaxScroll(v.total, v.height)
  {}

  /** A scroll to the bottom between the comparison and the write is undone. */
  lemma ScrollUndone()
    ensures var b := Buf(["a", "b"], 2, 10);
            var v := Next(b, Begin(b, 1));
            v.Write? && b.Scroll(-2, 1).offset == 0 && Touch(b.Scroll(-2, 1), v).offset == 1
  {}

  // ----- What a copy shows -----

  /** How many of the lines of `b`, with `more` behind them, are dropped. */
  function Dropped(b: Buf, more: seq<string>): nat {
    if |b.lines| + |more| > b.Bound() then |b.lines| + |more| - b.Bound() else 0
  }

  /** Of `b` and `more` the lines at offset `at` of `b`, moved on by as many as are dropped. */
  function Shifted(b: Buf, more: seq<string>, limit: int, at: nat): seq<string>
    requires b.Wf()
  {
    var total, height, d := |b.lines|, b.Height(limit), Dropped(b, more);
    (b.lines + more)[d + WindowStart(total, height, at)..d + WindowEnd(total, at)]
  }

  /** A call that began on `b` and read the offset `at` copies from `now`, after `more` was appended. */
  lemma CopyShows(b: Buf, more: seq<string>, now: Buf, limit: int, at: nat)
    requires b.Wf() && now.Wf() && now.Bound() == b.Bound() && now.lines == Last(b.lines + more, b.Bound())
    ensures |b.lines| <= |now.lines|
    ensures Next(now, Copy(|b.lines|, b.Height(limit), at)) == Report(|b.lines|, Shifted(b, more, limit, at))
  {
    var d, all := Dropped(b, more), b.lines + more;
    var start, end := WindowStart(|b.lines|, b.Height(limit), at), WindowEnd(|b.lines|, at);
    assert now.lines == all[d..];
    assert now.lines[start..end] == all[d + start..d + end];
  }

  lemma SameWindowIff(log: seq<string>, i: nat, j: nat, h: nat)
    requires Distinct(log) && i + h <= |log| && j + h <= |log|
    ensures log[i..i + h] == log[j..j + h] <==> h == 0 || i == j
  {
    if h > 0 && i != j {
      assert log[i..i + h][0] == log[i] && log[j..j + h][0] == log[j];
    }
  }

  lemma WindowsAgreeIff(log: seq<string>, shifted: seq<string>, shown: seq<string>,
                        d: nat, total: nat, at: nat, off: nat, h: nat)
    requires Distinct(log) && off + h <= total && d + total <= |log|
    requires shown == log[total - off - h..total - off]
    requires at + h <= total ==> shifted == log[d + total - at - h..d + total - at]
    requires at + h > total ==> |shifted| == WindowEnd(total, at)
    ensures shifted == shown <==> (h == 0 && shifted == []) || (at + h <= total && at == off + d)
  {
    if at + h <= total {
      SameWindowIff(log, d + total - at - h, total - off - h, h);
    }
  }

  /** What a copy shows, in numbers. */
  lemma ShiftedIs(b: Buf, more: seq<string>, limit: int, at: nat)
    requires b.Wf()
    ensures var total, h, d := |b.lines|, b.Height(limit), Dropped(b, more);
            && d + total <= |b.lines + more|
            && (at + h <= total ==> Shifted(b, more, limit, at) == (b.lines + more)[d + total - at - h..d + total - at])
            && (at + h > total ==> |Shifted(b, more, limit, at)| == WindowEnd(total, at))
  {}

  /** What a snapshot shows, in numbers. */
  lemma ViewIs(b: Buf, more: seq<string>, limit: int)
    requires b.Wf()
    ensures var total, h, off := |b.lines|, b.Height(limit), b.Settle(limit).offset;
            && 0 <= off && off + h <= total && (h == 0 <==> b.lines == [])
            && b.View(limit).lines == (b.lines + more)[total - off - h..total - off]
  {
    var total, h, off := |b.lines|, b.Height(limit), b.Settle(limit).offset;
    assert b.lines[total - off - h..total - off] == (b.lines + more)[total - off - h..total - off];
  }

  /**
    The copy is what a snapshot would have shown when the call began if and only if the offset it read leaves
    room for the view and had grown, up to its reading, by as much as lines were dropped, up to the copy.
   */
  lemma UntornIff(b: Buf, more: seq<string>, limit: int, at: nat)
    requires b.Wf() && Distinct(b.lines + more)
    ensures Shifted(b, more, limit, at) == b.View(limit).lines <==>
            || b.lines == []
            || (at + b.Height(limit) <= |b.lines| && at == b.Settle(limit).offset + Dropped(b, more))
  {
    ShiftedIs(b, more, limit, at);
    ViewIs(b, more, limit);
    WindowsAgreeIff(b.lines + more, Shifted(b, more, limit, at), b.View(limit).lines,
                    Dropped(b, more), |b.lines|, at, b.Settle(limit).offset, b.Height(limit));
  }

  /** A line arrives after the call has counted: it shows a line that no snapshot before or after would. */
  lemma AnchoredViewTorn()
    ensures var b := Buf(["a", "b", "c"], 1, 10);
            var now := b.Append(["d"]);
            && Next(b, Begin(b, 1)) == Place(3, 1) && Next(now, Next(now, Place(3, 1))) == Report(3, ["a"])
            && b.View(1).lines == ["b"] == now.View(1).lines
  {}
}
