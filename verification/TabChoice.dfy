/** Which window of tabs a bar shows, told in the widths of the tabs, the gaps and the indicators. */
module TabChoice {
  import opened TabWindow

  function Total(widths: seq<real>): real {
    if widths == [] then 0.0 else Total(widths[..|widths|-1]) + widths[|widths|-1]
  }

  /** Tabs `i` up to `j` with the gaps between them. */
  function Taken(b: Bar, i: nat, j: nat): real
    requires i < j <= |b.widths|
  {
    Total(b.widths[i..j]) + b.gap * (j - i - 1) as real
  }

  /** They fit beside the indicators of the sides on which tabs are left out, or into one pixel or column. */
  predicate Holds(b: Bar, i: nat, j: nat)
    requires i < j <= |b.widths|
  {
    || Taken(b, i, j) + (if i > 0 then b.left else 0.0) + (if j < |b.widths| then b.right else 0.0) <= b.width
    || Taken(b, i, j) <= 1.0
  }

  lemma {:induction false} SpanIsTaken(b: Bar, i: nat, j: nat)
    requires i < j <= |b.widths|
    ensures b.Span(i, j) == Taken(b, i, j)
    decreases j
  {
    assert b.widths[i..j][..j - i - 1] == b.widths[i..j - 1];
    if i < j - 1 {
      SpanIsTaken(b, i, j - 1);
      assert b.gap * (j - i - 1) as real == b.gap * (j - i - 2) as real + b.gap;
    } else {
      assert b.Span(i, i) == 0.0 && b.Span(i, j) == b.widths[i];
      assert b.widths[i..j] == [b.widths[i]] && [b.widths[i]][..0] == [];
      assert Total([b.widths[i]]) == b.widths[i] && b.gap * 0.0 == 0.0;
    }
  }

  lemma FitsIffHolds(b: Bar, i: nat, j: nat)
    requires i < j <= |b.widths|
    ensures b.Fits(i, j) <==> Holds(b, i, j)
  {
    SpanIsTaken(b, i, j);
  }

  /** When all tabs fit, all are shown. */
  lemma AllShown(b: Bar, active: nat, start: nat)
    requires active < |b.widths| && start < |b.widths| && Taken(b, 0, |b.widths|) <= b.width
    ensures b.Choose(active, start) == Window(0, |b.widths|, false, false)
  {
    SpanIsTaken(b, 0, |b.widths|);
  }

  /** The widest window from `i`: a single tab or one that fits, and none longer does. */
  ghost predicate WidestFrom(b: Bar, i: nat, e: nat) {
    && i < e <= |b.widths| && (e == i + 1 || Holds(b, i, e))
    && forall k :: e < k <= |b.widths| ==> !Holds(b, i, k)
  }

  ghost predicate WidestUpTo(b: Bar, s: nat, j: nat) {
    && s < j <= |b.widths| && (s == j - 1 || Holds(b, s, j))
    && forall k :: 0 <= k < s ==> !Holds(b, k, j)
  }

  lemma FromIsWidest(b: Bar, i: nat)
    requires i < |b.widths|
    ensures WidestFrom(b, i, b.LastEnd(i, |b.widths|))
    ensures forall e :: WidestFrom(b, i, e) ==> e == b.LastEnd(i, |b.widths|)
  {
    forall j | i < j <= |b.widths| ensures b.Fits(i, j) <==> Holds(b, i, j) {
      FitsIffHolds(b, i, j);
    }
    forall e | WidestFrom(b, i, e) ensures e == b.LastEnd(i, |b.widths|) {
      LastEndIs(b, i, e);
    }
  }

  lemma UpToIsWidest(b: Bar, i: nat)
    requires i < |b.widths|
    ensures WidestUpTo(b, b.FirstStart(0, i + 1), i + 1)
  {
    var j := i + 1;
    forall s | 0 <= s < j ensures b.Fits(s, j) <==> Holds(b, s, j) {
      FitsIffHolds(b, s, j);
    }
  }

  /**
    When not all tabs fit, the window stays where it starts as long as the widest window from there shows the
    active tab; an active tab to the left becomes the first shown, one to the right the last, and as many are
    shown beside it as fit.
   */
  lemma ChosenIsWidest(b: Bar, active: nat, start: nat, e: nat)
    requires active < |b.widths| && start < |b.widths| && Taken(b, 0, |b.widths|) > b.width && WidestFrom(b, start, e)
    ensures var n, w := |b.widths|, b.Choose(active, start);
            && (start <= active < e ==> w == Window(start, e, start > 0, e < n))
            && (active < start ==>
                  w.start == active && 0 <= w.end && WidestFrom(b, active, w.end)
                  && w.leftHidden == (active > 0) && w.rightHidden == (w.end < n))
            && (e <= active ==>
                  w.end == active + 1 && 0 <= w.start && WidestUpTo(b, w.start, active + 1)
                  && w.leftHidden == (w.start > 0) && w.rightHidden == (active + 1 < n))
  {
    SpanIsTaken(b, 0, |b.widths|);
    FromIsWidest(b, start);
    FromIsWidest(b, active);
    UpToIsWidest(b, active);
  }

  /** A start out of range is brought to the tab nearest to it. */
  lemma StartIsNearest(start: int, n: nat, m: nat)
    requires m < n
    ensures ClampStart(start, n) < n
    ensures (if start < ClampStart(start, n) then ClampStart(start, n) - start else start - ClampStart(start, n))
            <= (if start < m then m - start else start - m)
  {}

  /** A bar narrower than one is taken as one wide, and a negative gap as none; nothing else is changed. */
  lemma ArgumentsBroughtIn(b: Bar)
    ensures var c := Normalized(b);
            && c.width >= 1.0 && c.gap >= 0.0 && (b.width >= 1.0 && b.gap >= 0.0 ==> c == b)
            && (c.width == b.width || c.width == 1.0 > b.width) && (c.gap == b.gap || c.gap == 0.0 > b.gap)
            && c.widths == b.widths && c.left == b.left && c.right == b.right
  {}
}
