/**
  Calls of the tab service that are not one lock section: a prompt checks its tab and installs its run later,
  a stop reads the run under the lock and its cancel function after it, and a view is taken without the lock.
 */
module TabCalls {
  import opened Text
  import opened Seqs
  import opened TabService
  import opened TabLaws

  /** No run was installed on `r`, and its run `h` did not finish. */
  ghost predicate Untouched(log: seq<Event>, r: nat, h: nat) {
    forall j :: 0 <= j < |log| ==> log[j] != Finished(r, h) && !(log[j].Installed? && log[j].ref == r)
  }

  lemma UntouchedSnoc(log: seq<Event>, e: Event, r: nat, h: nat)
    ensures Untouched(log + [e], r, h) <==>
            Untouched(log, r, h) && e != Finished(r, h) && !(e.Installed? && e.ref == r)
  {
    var log' := log + [e];
    assert log'[|log|] == e;
    assert forall j :: 0 <= j < |log| ==> log'[j] == log[j];
  }

  /** A tab's run after `steps`: one installed meanwhile and ongoing, or the one it had, left alone. */
  lemma {:induction false} RunAfter(s: State, cfg: Config, steps: seq<Step>, r: nat, h: nat)
    requires s.Wf() && r < |s.objs|
    ensures r < |Exec(s, cfg, steps).objs|
    ensures Exec(s, cfg, steps).objs[r].run == Some(h) <==>
            || Ongoing(Log(s, cfg, steps), r, h)
            || (s.objs[r].run == Some(h) && Untouched(Log(s, cfg, steps), r, h))
  {
    if steps != [] {
      var front, last := steps[..|steps|-1], steps[|steps|-1];
      var t := Exec(s, cfg, front);
      RunAfter(s, cfg, front, r, h);
      ObjsGrow(t, cfg, last);
      RunStep(t, cfg, last, r, h);
      OngoingSnoc(Log(s, cfg, front), EventOf(t, last), r, h);
      UntouchedSnoc(Log(s, cfg, front), EventOf(t, last), r, h);
    }
  }

  // ----- Prompts -----

  /**
    A prompt that found its tab idle in `s` installs its run after `steps`.  It replaces another run exactly
    when one was installed on the tab in between that has not finished.
   */
  lemma ReplacesRunIff(s: State, cfg: Config, steps: seq<Step>, id: string)
    requires s.Wf() && Bounded(s, cfg) && CheckPrompt(s, id).Proceed?
    ensures var r := CheckPrompt(s, id).ref;
            && r < |Exec(s, cfg, steps).objs|
            && (Exec(s, cfg, steps).objs[r].run.Some? <==> exists h: nat :: Ongoing(Log(s, cfg, steps), r, h))
  {
    var r := s.tabs[id];
    assert TabOk(s.objs[r], cfg);
    forall h: nat
      ensures r < |Exec(s, cfg, steps).objs|
      ensures Exec(s, cfg, steps).objs[r].run == Some(h) <==> Ongoing(Log(s, cfg, steps), r, h)
    {
      RunAfter(s, cfg, steps, r, h);
    }
    RunAfter(s, cfg, steps, r, 0);
    var run := Exec(s, cfg, steps).objs[r].run;
    if run.Some? {
      assert Ongoing(Log(s, cfg, steps), r, run.value);
    }
  }

  lemma ExecOne(s: State, cfg: Config, step: Step)
    requires s.Wf()
    ensures Exec(s, cfg, [step]) == Apply(s, cfg, step)
  {
    assert [step][..0] == [];
  }

  /** A service with one tab, idle. */
  function OneTab(cfg: Config): State {
    Created(Init(cfg), cfg, "t", "t", "r")
  }

  /** Two prompts find the tab idle; the run of the second replaces that of the first. */
  lemma TwoRunsOnOneTab(cfg: Config)
    ensures CheckPrompt(OneTab(cfg), "t") == Proceed(0)
    ensures var t := Exec(OneTab(cfg), cfg, [Install(0, 1)]);
            && |t.objs| == 1 && t.objs[0].run == Some(1)
            && ApplyInstall(t, 0, 2).objs[0].run == Some(2)
  {
    ExecOne(OneTab(cfg), cfg, Install(0, 1));
  }

  // ----- Stops -----

  lemma {:induction false} HandleOnce(s: State, cfg: Config, steps: seq<Step>, r: nat, h: nat)
    requires s.Wf() && h in s.handles
    ensures h in Exec(s, cfg, steps).handles && Installed(r, h) !in Log(s, cfg, steps)
  {
    if steps != [] {
      HandleOnce(s, cfg, steps[..|steps|-1], r, h);
      HandlesGrow(Exec(s, cfg, steps[..|steps|-1]), cfg, steps[|steps|-1]);
    }
  }

  lemma HandlesGrow(s: State, cfg: Config, step: Step)
    requires s.Wf()
    ensures s.handles <= Apply(s, cfg, step).handles
  {}

  /**
    A stop finds the run of tab `r` in `s`, and after `steps` reads its cancel function.  They belong together
    exactly when no run was installed on the tab in between and its own has not finished; where there was no
    run, exactly when none installed in between is ongoing.
   */
  lemma StopPairsIff(s: State, cfg: Config, steps: seq<Step>, r: nat)
    requires Normal(cfg) && s.Wf() && Bounded(s, cfg) && r < |s.objs|
    ensures r < |Exec(s, cfg, steps).objs|
    ensures Exec(s, cfg, steps).objs[r].cancel == s.objs[r].run <==>
            match s.objs[r].run
            case Some(h) => Untouched(Log(s, cfg, steps), r, h)
            case None => forall h: nat :: !Ongoing(Log(s, cfg, steps), r, h)
  {
    var log := Log(s, cfg, steps);
    StaysBounded(s, cfg, steps);
    RunAfter(s, cfg, steps, r, 0);
    var t := Exec(s, cfg, steps).objs[r];
    assert TabOk(t, cfg);
    match s.objs[r].run {
      case Some(h) =>
        RunAfter(s, cfg, steps, r, h);
        HandleOnce(s, cfg, steps, r, h);
        assert !Ongoing(log, r, h);
      case None =>
        forall h: nat ensures t.run == Some(h) <==> Ongoing(log, r, h) {
          RunAfter(s, cfg, steps, r, h);
        }
        if t.run.Some? {
          assert Ongoing(log, r, t.run.value);
        }
    }
  }

  /** The run ends and another begins before the cancel function is read: the stop cancels that other run. */
  lemma StopCancelsNextRun(cfg: Config)
    ensures var s := ApplyInstall(OneTab(cfg), 0, 1);
            var t := Exec(s, cfg, [OnTab("t", Finish(1)), Install(0, 2)]);
            && |s.objs| == 1 && s.objs[0].run == Some(1)
            && |t.objs| == 1 && t.objs[0].cancel == Some(2)
  {
    var s, a, b := ApplyInstall(OneTab(cfg), 0, 1), OnTab("t", Finish(1)), Install(0, 2);
    ExecOne(s, cfg, a);
    assert [a, b][..1] == [a];
  }

  // ----- Views -----

  /** The lines `step` appends to the buffer `of`. */
  function OutputOf(s: State, step: Step, of: Option<nat>): seq<string>
    requires s.Wf()
  {
    match step
    case SystemOutput(lines) => if of == None then lines else []
    case OnTab(id, Output(lines)) => if id in s.tabs && of == Some(s.tabs[id]) then lines else []
    case _ => []
  }

  function Outputs(s: State, cfg: Config, steps: seq<Step>, of: Option<nat>): seq<string>
    requires s.Wf()
  {
    if steps == [] then []
    else
      var front := steps[..|steps|-1];
      Outputs(s, cfg, front, of) + OutputOf(Exec(s, cfg, front), steps[|steps|-1], of)
  }

  /** `b` is what `was` has become with `more` appended, wherever it was scrolled to. */
  predicate Follows(was: SB.Buf, more: seq<string>, b: SB.Buf) {
    b.Wf() && b.max == was.max && b.lines == Last(was.lines + more, was.Bound())
  }

  lemma BufferIsWf(s: State, cfg: Config, of: Option<nat>)
    requires Bounded(s, cfg) && HasBuffer(s, of)
    ensures BufferOf(s, of).Wf()
  {
    assert of.Some? ==> TabOk(s.objs[of.value], cfg);
  }

  lemma UpdateBuffer(t: Tab, op: Op)
    requires t.buffer.Wf()
    ensures Update(t, op).buffer.lines == Last(t.buffer.lines + (if op.Output? then op.lines else []), t.buffer.Bound())
    ensures Update(t, op).buffer.max == t.buffer.max
  {
    ConcatEmpty(t.buffer.lines);
  }

  lemma BufferStep(s: State, cfg: Config, step: Step, of: Option<nat>)
    requires Normal(cfg) && s.Wf() && Bounded(s, cfg) && HasBuffer(s, of)
    ensures HasBuffer(Apply(s, cfg, step), of)
    ensures Follows(BufferOf(s, of), OutputOf(s, step, of), BufferOf(Apply(s, cfg, step), of))
  {
    ObjsGrow(s, cfg, step);
    StepKeepsBounded(s, cfg, step);
    BufferIsWf(s, cfg, of);
    BufferIsWf(Apply(s, cfg, step), cfg, of);
    ConcatEmpty(BufferOf(s, of).lines);
    if step.OnTab? && step.id in s.tabs && of == Some(s.tabs[step.id]) {
      UpdateBuffer(s.At(step.id), step.op);
    }
  }

  lemma {:induction false} BufferAfter(s: State, cfg: Config, steps: seq<Step>, of: Option<nat>)
    requires Normal(cfg) && s.Wf() && Bounded(s, cfg) && HasBuffer(s, of)
    ensures HasBuffer(Exec(s, cfg, steps), of)
    ensures Follows(BufferOf(s, of), Outputs(s, cfg, steps, of), BufferOf(Exec(s, cfg, steps), of))
  {
    var b := BufferOf(s, of);
    if steps == [] {
      ConcatEmpty(b.lines);
      assert of.Some? ==> TabOk(s.objs[of.value], cfg);
    } else {
      var front, last := steps[..|steps|-1], steps[|steps|-1];
      var t := Exec(s, cfg, front);
      BufferAfter(s, cfg, front, of);
      StaysBounded(s, cfg, front);
      BufferStep(t, cfg, last, of);
      FollowsOn(b, Outputs(s, cfg, front, of), BufferOf(t, of),
                OutputOf(t, last, of), BufferOf(Exec(s, cfg, steps), of));
    }
  }

  lemma FollowsOn(was: SB.Buf, more: seq<string>, b: SB.Buf, again: seq<string>, b': SB.Buf)
    requires Follows(was, more, b) && Follows(b, again, b')
    ensures Follows(was, more + again, b')
  {
    LastOfAppend(was.lines + more, again, was.Bound());
    ConcatAssociates(was.lines, more, again);
  }

  /** View `v` is still the one that counted `total` lines and shows `height` of them, as long as it measures. */
  predicate StillLooks(s: State, v: nat, of: Option<nat>, total: nat, height: nat) {
    && v < |s.views| && s.views[v].of == of
    && (s.views[v].viewer.Measuring() ==> s.views[v].viewer.total == total && s.views[v].viewer.height == height)
  }

  lemma ViewStep(s: State, cfg: Config, step: Step, v: nat)
    requires s.Wf() && v < |s.views|
    ensures v < |Apply(s, cfg, step).views| && Apply(s, cfg, step).views[v].of == s.views[v].of
    ensures step != Peek(v) ==> Apply(s, cfg, step).views[v] == s.views[v]
  {}

  lemma {:induction false} KeepsLooking(
    s: State, cfg: Config, steps: seq<Step>, v: nat, of: Option<nat>, total: nat, height: nat)
    requires s.Wf() && StillLooks(s, v, of, total, height)
    ensures StillLooks(Exec(s, cfg, steps), v, of, total, height)
  {
    if steps != [] {
      KeepsLooking(s, cfg, steps[..|steps|-1], v, of, total, height);
      ViewStep(Exec(s, cfg, steps[..|steps|-1]), cfg, steps[|steps|-1], v);
    }
  }

  /** View `v` is about to make the copy `c`, or is past it. */
  predicate AtCopy(s: State, v: nat, c: SV.Viewer) {
    v < |s.views| && (s.views[v].viewer == c || !s.views[v].viewer.Measuring())
  }

  lemma {:induction false} StaysAtCopy(s: State, cfg: Config, steps: seq<Step>, v: nat, c: SV.Viewer)
    requires s.Wf() && c.Copy? && AtCopy(s, v, c)
    ensures AtCopy(Exec(s, cfg, steps), v, c)
  {
    if steps != [] {
      StaysAtCopy(s, cfg, steps[..|steps|-1], v, c);
      ViewStep(Exec(s, cfg, steps[..|steps|-1]), cfg, steps[|steps|-1], v);
    }
  }

  /** A whole view: after its beginning come the steps `a`, then it reads the offset; after `b` it copies. */
  datatype WholeView = WholeView(of: Option<nat>, limit: int, a: seq<Step>, b: seq<Step>)

  function Placing(s: State, cfg: Config, l: WholeView): (t: State)
    requires s.Wf()
    ensures t.Wf()
  {
    Exec(ApplyLook(s, l.of, l.limit), cfg, l.a)
  }

  function Copying(s: State, cfg: Config, l: WholeView): (t: State)
    requires s.Wf()
    ensures t.Wf()
  {
    Exec(ApplyPeek(Placing(s, cfg, l), |s.views|), cfg, l.b)
  }

  /** The lines that arrive between its beginning and its copy. */
  function Meanwhile(s: State, cfg: Config, l: WholeView): seq<string>
    requires s.Wf()
  {
    Outputs(ApplyLook(s, l.of, l.limit), cfg, l.a, l.of)
    + Outputs(ApplyPeek(Placing(s, cfg, l), |s.views|), cfg, l.b, l.of)
  }

  ghost predicate Looks(s: State, cfg: Config, l: WholeView)
    requires s.Wf()
  {
    && HasBuffer(s, l.of)
    && var v := |s.views|;
    && v < |Placing(s, cfg, l).views| && Placing(s, cfg, l).views[v].viewer.Place?
    && v < |Copying(s, cfg, l).views| && Copying(s, cfg, l).views[v].viewer.Copy?
  }

  lemma Places(s: State, cfg: Config, l: WholeView)
    requires Normal(cfg) && s.Wf() && Bounded(s, cfg) && Looks(s, cfg, l)
    ensures var b, v, t := BufferOf(s, l.of), |s.views|, Placing(s, cfg, l);
            && Bounded(t, cfg) && HasBuffer(t, l.of)
            && t.views[v] == Looking(l.of, SV.Place(|b.lines|, b.Height(l.limit)))
            && Follows(b, Outputs(ApplyLook(s, l.of, l.limit), cfg, l.a, l.of), BufferOf(t, l.of))
  {
    var s1, b, v := ApplyLook(s, l.of, l.limit), BufferOf(s, l.of), |s.views|;
    LookKeepsBounded(s, cfg, l.of, l.limit);
    StaysBounded(s1, cfg, l.a);
    KeepsLooking(s1, cfg, l.a, v, l.of, |b.lines|, b.Height(l.limit));
    BufferAfter(s1, cfg, l.a, l.of);
  }

  lemma Copies(s: State, cfg: Config, l: WholeView)
    requires Normal(cfg) && s.Wf() && Bounded(s, cfg) && Looks(s, cfg, l)
    ensures var b, v, p, t := BufferOf(s, l.of), |s.views|, Placing(s, cfg, l), Copying(s, cfg, l);
            && Bounded(t, cfg) && HasBuffer(p, l.of) && HasBuffer(t, l.of) && BufferOf(p, l.of).offset >= 0
            && t.views[v] == Looking(l.of, SV.Copy(|b.lines|, b.Height(l.limit), BufferOf(p, l.of).offset))
            && Follows(b, Meanwhile(s, cfg, l), BufferOf(t, l.of))
  {
    var b, v, p := BufferOf(s, l.of), |s.views|, Placing(s, cfg, l);
    Places(s, cfg, l);
    var c := SV.Copy(|b.lines|, b.Height(l.limit), BufferOf(p, l.of).offset);
    var s2 := ApplyPeek(p, v);
    assert ViewOk(p, p.views[v]);
    assert s2.views[v] == Looking(l.of, c) && BufferOf(s2, l.of) == BufferOf(p, l.of);
    PeekKeepsBounded(p, cfg, v);
    StaysBounded(s2, cfg, l.b);
    StaysAtCopy(s2, cfg, l.b, v, c);
    KeepsLooking(s2, cfg, l.b, v, l.of, |b.lines|, b.Height(l.limit));
    BufferAfter(s2, cfg, l.b, l.of);
    FollowsOn(b, Outputs(ApplyLook(s, l.of, l.limit), cfg, l.a, l.of), BufferOf(p, l.of),
              Outputs(s2, cfg, l.b, l.of), BufferOf(Copying(s, cfg, l), l.of));
  }

  /**
    Of all the lines there were up to its copy, a view shows those at the offset it read, counted from the
    number of lines it found at first, moved on by as many as were dropped since.
   */
  lemma ViewShows(s: State, cfg: Config, l: WholeView)
    requires Normal(cfg) && s.Wf() && Bounded(s, cfg) && Looks(s, cfg, l)
    ensures BufferOf(s, l.of).Wf() && HasBuffer(Placing(s, cfg, l), l.of)
    ensures var b, at, v := BufferOf(s, l.of), BufferOf(Placing(s, cfg, l), l.of).offset, |s.views|;
            && at >= 0
            && ApplyPeek(Copying(s, cfg, l), v).views[v] ==
               Looking(l.of, SV.Report(|b.lines|, SV.Shifted(b, Meanwhile(s, cfg, l), l.limit, at)))
  {
    var b, t := BufferOf(s, l.of), Copying(s, cfg, l);
    BufferIsWf(s, cfg, l.of);
    Copies(s, cfg, l);
    assert ViewOk(t, t.views[|s.views|]);
    SV.CopyShows(b, Meanwhile(s, cfg, l), BufferOf(t, l.of), l.limit, BufferOf(Placing(s, cfg, l), l.of).offset);
  }

  /**
    With lines that differ, that is what a snapshot would have shown at its beginning if and only if the offset
    it read leaves room for its height and had grown by as much as lines were dropped up to the copy.
   */
  lemma ViewUntornIff(s: State, cfg: Config, l: WholeView)
    requires Normal(cfg) && s.Wf() && Bounded(s, cfg) && Looks(s, cfg, l)
    requires Distinct(BufferOf(s, l.of).lines + Meanwhile(s, cfg, l))
    ensures BufferOf(s, l.of).Wf() && HasBuffer(Placing(s, cfg, l), l.of)
    ensures var b, at, v := BufferOf(s, l.of), BufferOf(Placing(s, cfg, l), l.of).offset, |s.views|;
            ApplyPeek(Copying(s, cfg, l), v).views[v].viewer == SV.Report(|b.lines|, b.View(l.limit).lines) <==>
            || b.lines == []
            || (&& at + b.Height(l.limit) <= |b.lines|
                && at == b.Settle(l.limit).offset + SV.Dropped(b, Meanwhile(s, cfg, l)))
  {
    ViewShows(s, cfg, l);
    var b, at := BufferOf(s, l.of), BufferOf(Placing(s, cfg, l), l.of).offset;
    SV.UntornIff(b, Meanwhile(s, cfg, l), l.limit, at);
  }
}
