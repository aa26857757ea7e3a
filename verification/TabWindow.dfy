/**
  The window of tabs shown when a tab bar is too narrow: the terminal's and the browser's.

  The browser measures in fractional pixels, so widths are real; the terminal's bar is the instance with
  whole widths, indicators one column wide and no gap.
 */
module TabWindow {

  /** The tabs' widths, the gap between two of them, the bar's width and its indicators' widths. */
  datatype Bar = Bar(widths: seq<real>, gap: real, width: real, left: real, right: real) {
    predicate Ok() {
      && (forall i :: 0 <= i < |widths| ==> widths[i] >= 0.0)
      && gap >= 0.0 && left >= 0.0 && right >= 0.0
    }

    /** The width tabs `i` up to `j` take. */
    function Span(i: nat, j: nat): real
      requires i <= j <= |widths|
    {
      if i == j then 0.0 else Span(i, j - 1) + widths[j - 1] + if i < j - 1 then gap else 0.0
    }

    /** The room left for tabs beside the indicators, never less than one. */
    function Room(leftHidden: bool, rightHidden: bool): real {
      var room := width - (if leftHidden then left else 0.0) - if rightHidden then right else 0.0;
      if room < 1.0 then 1.0 else room
    }

    /** Tabs `i` up to `j` fit beside the indicators that this very window needs. */
    predicate Fits(i: nat, j: nat)
      requires i <= j <= |widths|
    {
      Span(i, j) <= Room(i > 0, j < |widths|)
    }

    /** The last end, from `j` down, with which a window starting at `i` fits; one tab is shown anyway. */
    function LastEnd(i: nat, j: nat): (e: nat)
      requires i < j <= |widths|
      ensures i < e <= j
      ensures e > i + 1 ==> Fits(i, e)
      ensures forall k :: e < k <= j ==> !Fits(i, k)
      decreases j
    {
      if j == i + 1 || Fits(i, j) then j else LastEnd(i, j - 1)
    }

    /** The first start, from `i` up, with which a window ending at `j` fits. */
    function FirstStart(i: nat, j: nat): (s: nat)
      requires i < j <= |widths|
      ensures i <= s < j
      ensures s < j - 1 ==> Fits(s, j)
      ensures forall k :: i <= k < s ==> !Fits(k, j)
      decreases j - i
    {
      if i == j - 1 || Fits(i, j) then i else FirstStart(i + 1, j)
    }

    /** The widest window that starts at tab `i`. */
    function From(i: nat): Window
      requires i < |widths|
    {
      var e := LastEnd(i, |widths|);
      Window(i, e, i > 0, e < |widths|)
    }

    /** The widest window that ends just after tab `i`. */
    function UpTo(i: nat): Window
      requires i < |widths|
    {
      var s := FirstStart(0, i + 1);
      Window(s, i + 1, s > 0, i + 1 < |widths|)
    }

    /** The window to show: all tabs if they fit, else the current one, moved only if it loses the active tab. */
    function Choose(active: nat, start: nat): Window
      requires active < |widths| && start < |widths|
    {
      if Span(0, |widths|) <= width then Window(0, |widths|, false, false)
      else if active < start then From(active)
      else if active >= From(start).end then UpTo(active)
      else From(start)
    }
  }

  datatype Window = Window(start: int, end: int, leftHidden: bool, rightHidden: bool)

  lemma {:induction false} SpanGrows(b: Bar, i: nat, j: nat, k: nat)
    requires b.Ok() && i <= j <= k <= |b.widths|
    ensures b.Span(i, j) <= b.Span(i, k)
    decreases k
  {
    if j < k {
      SpanGrows(b, i, j, k - 1);
    }
  }

  /** Adding a tab on the left adds its width and a gap. */
  lemma {:induction false} SpanLeft(b: Bar, i: nat, j: nat)
    requires i < j <= |b.widths|
    ensures b.Span(i, j) == b.widths[i] + b.Span(i + 1, j) + if i < j - 1 then b.gap else 0.0
    decreases j
  {
    if i + 1 < j {
      SpanLeft(b, i, j - 1);
    }
  }

  /** Whatever is chosen shows the active tab and flags exactly the sides on which tabs are hidden. */
  lemma ChosenShowsActive(b: Bar, active: nat, start: nat)
    requires b.Ok() && active < |b.widths| && start < |b.widths|
    ensures var w := b.Choose(active, start);
            && 0 <= w.start <= active < w.end <= |b.widths|
            && w.leftHidden == (w.start > 0) && w.rightHidden == (w.end < |b.widths|)
  {}

  // ----- The code's three rounds -----

  /** The last end a window from `i` reaches with the given room, found from `j` down. */
  function FitEnd(b: Bar, i: nat, j: nat, room: real): (e: nat)
    requires i < j <= |b.widths|
    ensures i < e <= j
    ensures e > i + 1 ==> b.Span(i, e) <= room
    ensures forall k :: e < k <= j ==> b.Span(i, k) > room
    decreases j
  {
    if j == i + 1 || b.Span(i, j) <= room then j else FitEnd(b, i, j - 1, room)
  }

  function FitStart(b: Bar, i: nat, j: nat, room: real): (s: nat)
    requires i < j <= |b.widths|
    ensures i <= s < j
    ensures s < j - 1 ==> b.Span(s, j) <= room
    ensures forall k :: i <= k < s ==> b.Span(k, j) > room
    decreases j - i
  {
    if i == j - 1 || b.Span(i, j) <= room then i else FitStart(b, i + 1, j, room)
  }

  lemma LastEndIs(b: Bar, i: nat, e: nat)
    requires i < e <= |b.widths| && (e > i + 1 ==> b.Fits(i, e))
    requires forall k :: e < k <= |b.widths| ==> !b.Fits(i, k)
    ensures e == b.LastEnd(i, |b.widths|)
  {}

  lemma FirstStartIs(b: Bar, s: nat, j: nat)
    requires s < j <= |b.widths| && (s < j - 1 ==> b.Fits(s, j))
    requires forall k :: 0 <= k < s ==> !b.Fits(k, j)
    ensures s == b.FirstStart(0, j)
  {}

  /** Fitting with the right indicator off, and then with what that shows, is already final. */
  lemma ForwardSettles(b: Bar, i: nat)
    requires b.Ok() && i < |b.widths|
    ensures var n := |b.widths|;
            var e1 := FitEnd(b, i, n, b.Room(i > 0, false));
            var e2 := FitEnd(b, i, n, b.Room(i > 0, e1 < n));
            && e2 == b.LastEnd(i, n)
            && FitEnd(b, i, n, b.Room(i > 0, e2 < n)) == e2
  {
    var n := |b.widths|;
    var e1 := FitEnd(b, i, n, b.Room(i > 0, false));
    var e2 := FitEnd(b, i, n, b.Room(i > 0, e1 < n));
    if e1 < n {
      assert b.Span(i, n) > b.Room(i > 0, false) >= b.Room(i > 0, true);
    }
    forall k | e2 < k <= n ensures !b.Fits(i, k) {
      assert b.Span(i, k) > b.Room(i > 0, e1 < n);
    }
    LastEndIs(b, i, e2);
  }

  lemma BackwardSettles(b: Bar, j: nat)
    requires b.Ok() && 0 < j <= |b.widths|
    ensures var hidden := j < |b.widths|;
            var s1 := FitStart(b, 0, j, b.Room(false, hidden));
            var s2 := FitStart(b, 0, j, b.Room(s1 > 0, hidden));
            && s2 == b.FirstStart(0, j)
            && FitStart(b, 0, j, b.Room(s2 > 0, hidden)) == s2
  {
    var hidden := j < |b.widths|;
    var s1 := FitStart(b, 0, j, b.Room(false, hidden));
    var s2 := FitStart(b, 0, j, b.Room(s1 > 0, hidden));
    if s1 > 0 {
      assert b.Span(0, j) > b.Room(false, hidden) >= b.Room(true, hidden);
    }
    forall k | 0 <= k < s2 ensures !b.Fits(k, j) {
      assert b.Span(k, j) > b.Room(s1 > 0, hidden);
    }
    FirstStartIs(b, s2, j);
  }

  /** What is known after `i` rounds: the end fits its own indicators from the second on. */
  ghost predicate ForwardRounds(b: Bar, start: nat, i: int, end: int, rightHidden: bool)
    requires start < |b.widths|
  {
    var n := |b.widths|;
    && (if i == 0 then !rightHidden else rightHidden == (end < n))
    && (i == 1 ==> end == FitEnd(b, start, n, b.Room(start > 0, false)))
    && (i >= 2 ==> end == b.LastEnd(start, n))
  }

  lemma ForwardNext(b: Bar, start: nat, i: int, end: int, rightHidden: bool)
    requires b.Ok() && start < |b.widths| && i >= 0 && ForwardRounds(b, start, i, end, rightHidden)
    ensures var end' := FitEnd(b, start, |b.widths|, b.Room(start > 0, rightHidden));
            ForwardRounds(b, start, i + 1, end', end' < |b.widths|)
  {
    ForwardSettles(b, start);
  }

  ghost predicate BackwardRounds(b: Bar, end: nat, i: int, start: int, leftHidden: bool)
    requires 0 < end <= |b.widths|
  {
    && (if i == 0 then !leftHidden else leftHidden == (start > 0))
    && (i == 1 ==> start == FitStart(b, 0, end, b.Room(false, end < |b.widths|)))
    && (i >= 2 ==> start == b.FirstStart(0, end))
  }

  lemma BackwardNext(b: Bar, end: nat, i: int, start: int, leftHidden: bool)
    requires b.Ok() && 0 < end <= |b.widths| && i >= 0 && BackwardRounds(b, end, i, start, leftHidden)
    ensures var start' := FitStart(b, 0, end, b.Room(leftHidden, end < |b.widths|));
            BackwardRounds(b, end, i + 1, start', start' > 0)
  {
    BackwardSettles(b, end);
  }

  /** Where `fitForward` ends for any arguments: a start before the first tab is the first, and room at least one. */
  function EndFor(b: Bar, start: int, avail: real): nat {
    var n := |b.widths|;
    if n == 0 || start >= n then n
    else FitEnd(b, if start < 0 then 0 else start, n, if avail < 1.0 then 1.0 else avail)
  }

  /** Where `fitBackward` starts for any arguments. */
  function StartFor(b: Bar, end: int, avail: real): nat {
    var n := |b.widths|;
    if n == 0 || end < 1 then 0
    else FitStart(b, 0, if end > n then n else end, if avail < 1.0 then 1.0 else avail)
  }

  /** The furthest end: a start beyond the tabs has all of them behind it. */
  ghost predicate EndsAt(b: Bar, start0: int, avail0: real, end: nat) {
    var n, start, avail := |b.widths|, if start0 < 0 then 0 else start0, if avail0 < 1.0 then 1.0 else avail0;
    if start >= n then end == n
    else
      && start < end <= n && (end > start + 1 ==> b.Span(start, end) <= avail)
      && forall k :: end < k <= n ==> b.Span(start, k) > avail
  }

  /** The furthest start: an end before the tabs has none before it. */
  ghost predicate StartsAt(b: Bar, end0: int, avail0: real, start: nat) {
    var n, avail := |b.widths|, if avail0 < 1.0 then 1.0 else avail0;
    var end := if end0 > n then n else end0;
    if end < 1 then start == 0
    else
      && start < end && (start < end - 1 ==> b.Span(start, end) <= avail)
      && forall k :: 0 <= k < start ==> b.Span(k, end) > avail
  }

  function NormalActive(active: int, n: nat): nat
    requires n > 0
  {
    if active < 0 || active >= n then 0 else active
  }

  function ClampStart(start: int, n: nat): nat
    requires n > 0
  {
    if start < 0 then 0 else if start >= n then n - 1 else start
  }

  const EMPTY := Window(0, 0, false, false)

  // ----- The browser's code -----

  // The source's checks for an empty window after the loops of both fits can never hold: when no tab was
  // taken the loop has returned, and there is at least one tab to look at.

  /** `fitForward` of the browser. */
  method FitForward(b: Bar, start0: int, avail0: real) returns (end: nat)
    requires b.Ok()
    ensures end == EndFor(b, start0, avail0) && EndsAt(b, start0, avail0, end)
  {
    var n, start, avail := |b.widths|, start0, avail0;
    if n == 0 { return 0; }
    if start < 0 { start := 0; }
    if start >= n { return n; }
    if avail < 1.0 { avail := 1.0; }
    var sum := 0.0;
    end := start;
    var i := start;
    while i < n
      invariant start <= i <= n && end == i && sum == b.Span(start, i) && sum <= avail
    {
      var add := b.widths[i];
      if i > start { add := add + b.gap; }
      if sum + add > avail {
        NothingFurther(b, start, i, avail);
        return if i == start then start + 1 else end;
      }
      sum := sum + add;
      end := i + 1;
      i := i + 1;
    }
  }

  /** Once tab `i` does not fit behind those from `start`, no longer window fits. */
  lemma NothingFurther(b: Bar, start: nat, i: nat, avail: real)
    requires b.Ok() && start <= i < |b.widths| && b.Span(start, i) <= avail < b.Span(start, i + 1)
    ensures FitEnd(b, start, |b.widths|, avail) == if i == start then start + 1 else i
  {
    forall k | i < k <= |b.widths| ensures b.Span(start, k) > avail {
      SpanGrows(b, start, i + 1, k);
    }
  }

  /** `fitBackward` of the browser. */
  method FitBackward(b: Bar, end0: int, avail0: real) returns (start: nat)
    requires b.Ok()
    ensures start == StartFor(b, end0, avail0) && StartsAt(b, end0, avail0, start)
  {
    var n, end, avail := |b.widths|, end0, avail0;
    if n == 0 { return 0; }
    if end < 1 { return 0; }
    if end > n { end := n; }
    if avail < 1.0 { avail := 1.0; }
    var sum := 0.0;
    start := end;
    var i := end;
    while i > 0
      invariant 0 <= i <= end && start == i && sum == b.Span(i, end) && sum <= avail
    {
      var add := b.widths[i - 1];
      if i - 1 < end - 1 { add := add + b.gap; }
      SpanLeft(b, i - 1, end);
      if sum + add > avail {
        NothingBefore(b, i, end, avail);
        return if i == end then end - 1 else start;
      }
      sum := sum + add;
      start := i - 1;
      i := i - 1;
    }
  }

  lemma {:induction false} SpanShrinks(b: Bar, h: nat, i: nat, j: nat)
    requires b.Ok() && h <= i <= j <= |b.widths|
    ensures b.Span(i, j) <= b.Span(h, j)
    decreases i - h
  {
    if h < i {
      SpanLeft(b, h, j);
      SpanShrinks(b, h + 1, i, j);
    }
  }

  lemma NothingBefore(b: Bar, i: nat, end: nat, avail: real)
    requires b.Ok() && 0 < i <= end <= |b.widths| && b.Span(i, end) <= avail < b.Span(i - 1, end)
    ensures FitStart(b, 0, end, avail) == if i == end then end - 1 else i
  {
    forall k | 0 <= k < i ensures b.Span(k, end) > avail {
      SpanShrinks(b, k, i - 1, end);
    }
  }

  method RoomFor(b: Bar, leftHidden: bool, rightHidden: bool) returns (avail: real)
    ensures avail == b.Room(leftHidden, rightHidden)
  {
    avail := b.width;
    if leftHidden { avail := avail - b.left; }
    if rightHidden { avail := avail - b.right; }
    if avail < 1.0 { avail := 1.0; }
  }

  /** One round of `windowFromStart`. */
  method ForwardRound(b: Bar, start: nat, rightHidden: bool) returns (end: nat)
    requires b.Ok() && start < |b.widths|
    ensures end == FitEnd(b, start, |b.widths|, b.Room(start > 0, rightHidden))
  {
    var avail := RoomFor(b, start > 0, rightHidden);
    end := FitForward(b, start, avail);
  }

  /** One round of `windowActiveRight`. */
  method BackwardRound(b: Bar, end: nat, leftHidden: bool) returns (start: nat)
    requires b.Ok() && 0 < end <= |b.widths|
    ensures start == FitStart(b, 0, end, b.Room(leftHidden, end < |b.widths|))
  {
    var avail := RoomFor(b, leftHidden, end < |b.widths|);
    start := FitBackward(b, end, avail);
  }

  /** `windowFromStart` */
  method WindowFromStart(b: Bar, start0: int) returns (w: Window)
    requires b.Ok()
    ensures w == if b.widths == [] then EMPTY else b.From(ClampStart(start0, |b.widths|))
  {
    var n := |b.widths|;
    if n == 0 { return EMPTY; }
    var start := ClampStart(start0, n);
    var leftHidden, rightHidden, end := start > 0, false, start + 1;
    for i := 0 to 3
      invariant leftHidden == (start > 0) && ForwardRounds(b, start, i, end, rightHidden)
    {
      ForwardNext(b, start, i, end, rightHidden);
      end := ForwardRound(b, start, rightHidden);
      rightHidden := end < n;
      leftHidden := start > 0;
    }
    w := Window(start, end, leftHidden, rightHidden);
  }

  /** `windowActiveLeft`: the same rounds from the active tab on. */
  method WindowActiveLeft(b: Bar, active: int) returns (w: Window)
    requires b.Ok()
    ensures w == if b.widths == [] then EMPTY else b.From(NormalActive(active, |b.widths|))
  {
    if |b.widths| == 0 { return EMPTY; }
    w := WindowFromStart(b, NormalActive(active, |b.widths|));
  }

  /** `windowActiveRight` */
  method WindowActiveRight(b: Bar, active0: int) returns (w: Window)
    requires b.Ok()
    ensures w == if b.widths == [] then EMPTY else b.UpTo(NormalActive(active0, |b.widths|))
  {
    var n := |b.widths|;
    if n == 0 { return EMPTY; }
    var end := NormalActive(active0, n) + 1;
    var leftHidden, rightHidden, start := false, end < n, end - 1;
    for i := 0 to 3
      invariant rightHidden == (end < n) && 0 <= start && BackwardRounds(b, end, i, start, leftHidden)
    {
      BackwardNext(b, end, i, start, leftHidden);
      start := BackwardRound(b, end, leftHidden);
      leftHidden := start > 0;
      rightHidden := end < n;
    }
    w := Window(start, end, leftHidden, rightHidden);
  }

  /** What `resolveWindow` makes of its arguments before it lays anything out. */
  function Normalized(b: Bar): Bar {
    b.(width := if b.width < 1.0 then 1.0 else b.width, gap := if b.gap < 0.0 then 0.0 else b.gap)
  }

  /** `resolveWindow` */
  method ResolveWindow(b0: Bar, activeIndex: int, start0: int) returns (w: Window)
    requires Normalized(b0).Ok()
    ensures b0.widths == [] ==> w == EMPTY
    ensures var n := |b0.widths|;
            n > 0 ==> w == Normalized(b0).Choose(NormalActive(activeIndex, n), ClampStart(start0, n))
    ensures var n := |b0.widths|;
            n > 0 ==> w.start <= (if 0 <= activeIndex < n then activeIndex else 0) < w.end <= n
  {
    var n := |b0.widths|;
    if n == 0 { return EMPTY; }
    var b := Normalized(b0);
    var active, start := NormalActive(activeIndex, n), ClampStart(start0, n);
    ChosenShowsActive(b, active, start);
    var total := 0.0;
    ghost var ungapped := b.(gap := 0.0);
    for i := 0 to n
      invariant total == ungapped.Span(0, i)
    {
      total := total + b.widths[i];
    }
    TotalWithGaps(b, n);
    if n > 1 { total := total + b.gap * (n - 1) as real; }
    if total <= b.width { return Window(0, n, false, false); }
    w := WindowFromStart(b, start);
    if active < w.start {
      w := WindowActiveLeft(b, active);
    } else if active >= w.end {
      w := WindowActiveRight(b, active);
    }
  }

  lemma {:induction false} TotalWithGaps(b: Bar, j: nat)
    requires 0 < j <= |b.widths|
    ensures b.Span(0, j) == b.(gap := 0.0).Span(0, j) + b.gap * (j - 1) as real
    decreases j
  {
    if j > 1 {
      TotalWithGaps(b, j - 1);
      assert b.gap * (j - 1) as real == b.gap * (j - 2) as real + b.gap;
    }
  }

  // ----- The terminal's code -----

  function Reals(widths: seq<nat>): (r: seq<real>)
    ensures |r| == |widths| && forall i :: 0 <= i < |r| ==> r[i] == widths[i] as real
  {
    seq(|widths|, i requires 0 <= i < |widths| => widths[i] as real)
  }

  /** The terminal's bar: columns, indicators of one, no gap. */
  function TerminalBar(widths: seq<nat>, width: int): (b: Bar)
    ensures b.Ok() && |b.widths| == |widths|
  {
    Bar(Reals(widths), 0.0, width as real, 1.0, 1.0)
  }

  /** `fitForward` of the terminal. */
  method TerminalFitForward(widths: seq<nat>, ghost width: int, start0: int, avail0: int) returns (end: nat)
    ensures end == EndFor(TerminalBar(widths, width), start0, avail0 as real)
    ensures EndsAt(TerminalBar(widths, width), start0, avail0 as real, end)
  {
    ghost var b := TerminalBar(widths, width);
    var start, avail := start0, avail0;
    if |widths| == 0 { return 0; }
    if start < 0 { start := 0; }
    if start >= |widths| { return |widths|; }
    if avail < 1 { avail := 1; }
    var sum := 0;
    end := start;
    for i := start to |widths|
      invariant end == i && sum as real == b.Span(start, i) && sum <= avail
    {
      if sum + widths[i] > avail {
        NothingFurther(b, start, i, avail as real);
        if i == start { return start + 1; }
        break;
      }
      sum := sum + widths[i];
      end := i + 1;
    }
  }

  /** `fitBackward` of the terminal. */
  method TerminalFitBackward(widths: seq<nat>, ghost width: int, end0: int, avail0: int) returns (start: nat)
    ensures start == StartFor(TerminalBar(widths, width), end0, avail0 as real)
    ensures StartsAt(TerminalBar(widths, width), end0, avail0 as real, start)
  {
    ghost var b := TerminalBar(widths, width);
    var end, avail := end0, avail0;
    if |widths| == 0 { return 0; }
    if end < 1 { return 0; }
    if end > |widths| { end := |widths|; }
    if avail < 1 { avail := 1; }
    var sum := 0;
    start := end;
    for i := end downto 0
      invariant start == i && sum as real == b.Span(i, end) && sum <= avail
    {
      SpanLeft(b, i, end);
      if sum + widths[i] > avail {
        NothingBefore(b, i + 1, end, avail as real);
        if i == end - 1 { return end - 1; }
        break;
      }
      sum := sum + widths[i];
      start := i;
    }
  }

  method TerminalRoom(widths: seq<nat>, width: int, leftHidden: bool, rightHidden: bool) returns (avail: int)
    ensures avail >= 1 && avail as real == TerminalBar(widths, width).Room(leftHidden, rightHidden)
  {
    avail := width;
    if leftHidden { avail := avail - 1; }
    if rightHidden { avail := avail - 1; }
    if avail < 1 { avail := 1; }
  }

  /** One round of `tabWindowFromStart`. */
  method TerminalForwardRound(widths: seq<nat>, width: int, start: nat, rightHidden: bool) returns (end: nat)
    requires start < |widths|
    ensures var b := TerminalBar(widths, width);
            end == FitEnd(b, start, |widths|, b.Room(start > 0, rightHidden))
  {
    var avail := TerminalRoom(widths, width, start > 0, rightHidden);
    end := TerminalFitForward(widths, width, start, avail);
  }

  /** One round of `tabWindowActiveRight`. */
  method TerminalBackwardRound(widths: seq<nat>, width: int, end: nat, leftHidden: bool) returns (start: nat)
    requires 0 < end <= |widths|
    ensures var b := TerminalBar(widths, width);
            start == FitStart(b, 0, end, b.Room(leftHidden, end < |widths|))
  {
    var avail := TerminalRoom(widths, width, leftHidden, end < |widths|);
    start := TerminalFitBackward(widths, width, end, avail);
  }

  /** `tabWindowFromStart`; `tabWindowActiveLeft` is the same with the active tab as start. */
  method TabWindowFromStart(widths: seq<nat>, start0: int, width: int) returns (w: Window)
    ensures w == if widths == [] then EMPTY else TerminalBar(widths, width).From(ClampStart(start0, |widths|))
  {
    var n := |widths|;
    if n == 0 { return EMPTY; }
    var start := start0;
    if start < 0 { start := 0; }
    if start >= n { start := n - 1; }
    ghost var b := TerminalBar(widths, width);
    var leftHidden, rightHidden, end := start > 0, false, start + 1;
    for i := 0 to 3
      invariant leftHidden == (start > 0) && ForwardRounds(b, start, i, end, rightHidden)
    {
      ForwardNext(b, start, i, end, rightHidden);
      end := TerminalForwardRound(widths, width, start, rightHidden);
      rightHidden := end < n;
      leftHidden := start > 0;
    }
    w := Window(start, end, leftHidden, rightHidden);
  }

  /** `tabWindowActiveRight` */
  method TabWindowActiveRight(widths: seq<nat>, active0: int, width: int) returns (w: Window)
    ensures w == if widths == [] then EMPTY else TerminalBar(widths, width).UpTo(ClampStart(active0, |widths|))
  {
    var n := |widths|;
    if n == 0 { return EMPTY; }
    var active := active0;
    if active < 0 { active := 0; }
    if active >= n { active := n - 1; }
    var end := active + 1;
    ghost var b := TerminalBar(widths, width);
    var leftHidden, rightHidden, start := false, end < n, end - 1;
    for i := 0 to 3
      invariant rightHidden == (end < n) && 0 <= start && BackwardRounds(b, end, i, start, leftHidden)
    {
      BackwardNext(b, end, i, start, leftHidden);
      start := TerminalBackwardRound(widths, width, end, leftHidden);
      leftHidden := start > 0;
      rightHidden := end < n;
    }
    w := Window(start, end, leftHidden, rightHidden);
  }

  /** The choice of window in `renderTabBar`, for the given label widths. */
  method TerminalWindow(widths: seq<nat>, active: nat, windowStart: int, width0: int) returns (w: Window)
    requires active < |widths|
    ensures var width := if width0 <= 0 then 80 else width0;
            w == TerminalBar(widths, width).Choose(active, ClampStart(windowStart, |widths|))
    ensures 0 <= w.start <= active < w.end <= |widths|
  {
    var width := if width0 <= 0 then 80 else width0;
    ChosenShowsActive(TerminalBar(widths, width), active, ClampStart(windowStart, |widths|));
    var total := 0;
    for i := 0 to |widths|
      invariant total as real == TerminalBar(widths, width).Span(0, i)
    {
      total := total + widths[i];
    }
    if total <= width { return Window(0, |widths|, false, false); }
    w := TabWindowFromStart(widths, windowStart, width);
    if active < w.start {
      w := TabWindowFromStart(widths, active, width);
    } else if active >= w.end {
      w := TabWindowActiveRight(widths, active, width);
    }
  }

  /** On the terminal's bar the browser's code chooses the terminal's window. */
  method SameWindow(widths: seq<nat>, active: nat, start: int, width: int) returns (terminal: Window, browser: Window)
    requires active < |widths| && width >= 1
    ensures terminal == browser
  {
    terminal := TerminalWindow(widths, active, start, width);
    browser := ResolveWindow(TerminalBar(widths, width), active, start);
  }

  /** Terminal labels are two columns or more; for them, fitting is fitting into the bar as it is. */
  lemma TerminalFitsExactly(widths: seq<nat>, width: int, i: nat, j: nat)
    requires i < j <= |widths| && widths[j - 1] >= 2
    ensures var b := TerminalBar(widths, width);
            b.Fits(i, j) <==>
            b.Span(i, j) + (if i > 0 then 1.0 else 0.0) + (if j < |widths| then 1.0 else 0.0) <= width as real
  {
    var b := TerminalBar(widths, width);
    SpanGrows(b, i, i, j - 1);
    assert b.Span(i, j) >= b.widths[j - 1];
  }
}
