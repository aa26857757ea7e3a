/** What every run of the runner provider keeps: reference counts, tab sets, starts and stops. */
module ProviderLaws {
  import opened Text
  import opened ProviderSpec

  lemma {:induction false} RunKeepsInv(s: State, steps: seq<Step>)
    requires Inv(s)
    ensures Inv(Exec(s, steps))
  {
    if steps != [] {
      RunKeepsInv(s, steps[..|steps|-1]);
      StepKeepsInv(Exec(s, steps[..|steps|-1]), steps[|steps|-1]);
    }
  }

  lemma ExecSnoc(s: State, steps: seq<Step>, step: Step)
    requires s.Wf()
    ensures Exec(s, steps + [step]) == Apply(Exec(s, steps), step)
  {
    assert (steps + [step])[..|steps|] == steps;
  }

  lemma {:induction false} ExecConcat(s: State, a: seq<Step>, b: seq<Step>)
    requires s.Wf()
    ensures Exec(s, a + b) == Exec(Exec(s, a), b)
  {
    if b == [] {
      assert a + b == a;
    } else {
      var b' := b[..|b|-1];
      assert (a + b)[..|a + b|-1] == a + b';
      ExecConcat(s, a, b');
    }
  }

  // ----- Reference counts -----

  /** Every reachable table counts at most the runs still outstanding on each entry. */
  lemma RunningNeverExceedsOpen(scope: Scope, steps: seq<Step>, k: Key)
    requires k in Exec(Init(scope), steps).table
    ensures var s := Exec(Init(scope), steps);
            s.At(k).running <= |OpenOn(s, s.table[k])|
  {
    RunKeepsInv(Init(scope), steps);
  }

  /** After the first `n` steps `k` has the entry it has in `s`. */
  ghost predicate KeptAt(s: State, steps: seq<Step>, n: nat, k: Key)
    requires s.Wf() && k in s.table && n <= |steps|
  {
    var t := Exec(s, steps[..n]);
    k in t.table && t.table[k] == s.table[k]
  }

  /** `k` keeps the entry it has in `s` throughout `steps`. */
  ghost predicate Keeps(s: State, steps: seq<Step>, k: Key)
    requires s.Wf() && k in s.table
  {
    forall n: nat :: n <= |steps| ==> KeptAt(s, steps, n, k)
  }

  lemma KeptAtEnd(s: State, steps: seq<Step>, k: Key)
    requires s.Wf() && k in s.table && Keeps(s, steps, k)
    ensures k in Exec(s, steps).table && Exec(s, steps).table[k] == s.table[k]
  {
    assert steps[..|steps|] == steps;
    assert KeptAt(s, steps, |steps|, k);
  }

  lemma KeptInFront(s: State, steps: seq<Step>, m: nat, k: Key)
    requires s.Wf() && k in s.table && Keeps(s, steps, k) && m <= |steps|
    ensures Keeps(s, steps[..m], k)
  {
    forall n: nat | n <= m ensures KeptAt(s, steps[..m], n, k) {
      assert steps[..m][..n] == steps[..n];
      assert KeptAt(s, steps, n, k);
    }
  }

  /** The count of `k` is right, and no run of an earlier entry can still be released against it. */
  ghost predicate Exact(s: State, k: Key)
    requires s.Wf()
  {
    k in s.table && ForeignTo(s, k) == {} && s.At(k).running == |OpenOn(s, s.table[k])|
  }

  lemma ExactStart(s: State, k: Key, now: int, k': Key)
    requires Inv(s) && Exact(s, k')
    ensures Exact(ApplyStartRun(s, k, now), k')
  {
    OpenOnStart(s, k, now, s.table[k']);
    assert ForeignTo(ApplyStartRun(s, k, now), k') == {};
  }

  lemma ExactRelease(s: State, i: nat, now: int, k: Key)
    requires Inv(s) && Exact(s, k)
    ensures Exact(ApplyRelease(s, i, now), k)
  {
    OpenOnRelease(s, i, now, s.table[k]);
    assert ForeignTo(ApplyRelease(s, i, now), k) == {};
    if i < |s.runs| && !s.runs[i].released && s.runs[i].key == k {
      assert i !in ForeignTo(s, k);
    }
  }

  /** A step that is neither a start nor a release leaves runs and counts alone. */
  lemma OtherStep(s: State, step: Step, k: Key)
    requires s.Wf() && !step.StartRun? && !step.Release? && k in s.table
    requires k in Apply(s, step).table && Apply(s, step).table[k] == s.table[k]
    ensures Apply(s, step).runs == s.runs && Apply(s, step).At(k).running == s.At(k).running
  {}

  lemma ExactStep(s: State, step: Step, k: Key)
    requires Inv(s) && Exact(s, k)
    requires k in Apply(s, step).table && Apply(s, step).table[k] == s.table[k]
    ensures Exact(Apply(s, step), k)
  {
    if step.StartRun? {
      ExactStart(s, step.key, step.now, k);
    } else if step.Release? {
      ExactRelease(s, step.run, step.now, k);
    } else {
      OtherStep(s, step, k);
      OpenOnSame(s, Apply(s, step), s.table[k]);
      assert ForeignTo(Apply(s, step), k) == ForeignTo(s, k);
    }
  }

  lemma {:induction false} ExactKept(s: State, steps: seq<Step>, k: Key)
    requires Inv(s) && Exact(s, k) && Keeps(s, steps, k)
    ensures Exact(Exec(s, steps), k)
  {
    if steps == [] {
    } else {
      var front := steps[..|steps|-1];
      KeptInFront(s, steps, |front|, k);
      ExactKept(s, front, k);
      RunKeepsInv(s, front);
      KeptAtEnd(s, front, k);
      KeptAtEnd(s, steps, k);
      ExactStep(Exec(s, front), steps[|front|], k);
    }
  }

  /** An entry created while no run of its key is outstanding starts out exact. */
  lemma NewEntryExact(s: State, user: string, tab: string)
    requires Inv(s)
    requires var k := KeyFor(s.scope, user, tab);
             && k !in s.table && !Blank(user) && !Blank(tab)
             && forall i :: 0 <= i < |s.runs| && s.runs[i].key == k ==> s.runs[i].released
    ensures Exact(Apply(s, Lookup(user, tab)), KeyFor(s.scope, user, tab))
  {
    var k := KeyFor(s.scope, user, tab);
    var s' := Apply(s, Lookup(user, tab));
    assert ForeignTo(s', k) == {};
    assert OpenOn(s', s'.table[k]) == {};
  }

  /** The sweep takes no runner down under an outstanding run, now or later in the life of this entry. */
  ghost predicate SweepSafe(s: State, k: Key)
    requires s.Wf() && k in s.table
  {
    forall steps: seq<Step>, now: int, idle: int :: Keeps(s, steps, k) ==>
      var t := Exec(s, steps);
      OpenOn(t, s.table[k]) != {} ==> k in Apply(t, Sweep(now, idle)).table
  }

  /** The count equals the number of outstanding runs, now and as long as this entry lives. */
  ghost predicate CountsForever(s: State, k: Key)
    requires s.Wf() && k in s.table
  {
    forall steps: seq<Step> :: Keeps(s, steps, k) ==>
      var t := Exec(s, steps);
      k in t.table && t.At(k).running == |OpenOn(t, s.table[k])|
  }

  lemma ExecOne(s: State, step: Step)
    requires s.Wf()
    ensures Exec(s, [step]) == Apply(s, step)
  {
    assert [step][..0] == [];
  }

  lemma KeptAtOne(s: State, step: Step, n: nat, k: Key)
    requires s.Wf() && k in s.table && n <= 1
    requires k in Apply(s, step).table && Apply(s, step).table[k] == s.table[k]
    ensures KeptAt(s, [step], n, k)
  {
    if n == 0 {
      assert [step][..n] == [];
    } else {
      ExecOne(s, step);
      assert [step][..n] == [step];
    }
  }

  lemma KeepsOne(s: State, step: Step, k: Key)
    requires s.Wf() && k in s.table
    requires k in Apply(s, step).table && Apply(s, step).table[k] == s.table[k]
    ensures Keeps(s, [step], k) && Exec(s, [step]) == Apply(s, step)
  {
    ExecOne(s, step);
    forall n: nat | n <= |[step]| ensures KeptAt(s, [step], n, k) {
      KeptAtOne(s, step, n, k);
    }
  }

  lemma KeptAtConcat(s: State, a: seq<Step>, b: seq<Step>, n: nat, k: Key)
    requires s.Wf() && k in s.table && n <= |b| && k in Exec(s, a).table && Exec(s, a).table[k] == s.table[k]
    requires KeptAt(Exec(s, a), b, n, k)
    ensures KeptAt(s, a + b, |a| + n, k)
  {
    assert (a + b)[..|a| + n] == a + b[..n];
    ExecConcat(s, a, b[..n]);
  }

  lemma KeepsConcat(s: State, a: seq<Step>, b: seq<Step>, k: Key)
    requires s.Wf() && k in s.table
    requires Keeps(s, a, k) && k in Exec(s, a).table && Keeps(Exec(s, a), b, k)
    ensures Keeps(s, a + b, k)
    ensures Exec(s, a + b) == Exec(Exec(s, a), b)
  {
    ExecConcat(s, a, b);
    assert a[..|a|] == a && KeptAt(s, a, |a|, k);
    forall n: nat | n <= |a + b| ensures KeptAt(s, a + b, n, k) {
      if n <= |a| {
        assert (a + b)[..n] == a[..n];
        assert KeptAt(s, a, n, k);
      } else {
        assert KeptAt(Exec(s, a), b, n - |a|, k);
        KeptAtConcat(s, a, b, n - |a|, k);
      }
    }
  }

  /** While the count is too low, releasing runs brings it to zero with a run still outstanding. */
  lemma {:induction false} Drain(s: State, k: Key) returns (steps: seq<Step>)
    requires Inv(s) && k in s.table && s.At(k).running < |OpenOn(s, s.table[k])|
    ensures Keeps(s, steps, k)
    ensures var t := Exec(s, steps);
            k in t.table && t.At(k).running == 0 && OpenOn(t, s.table[k]) != {}
    decreases s.At(k).running
  {
    var r := s.table[k];
    if s.At(k).running == 0 {
      steps := [];
    } else {
      var i :| i in OpenOn(s, r);
      var step := Release(i, 0);
      var t := Apply(s, step);
      assert s.runs[i].key == k;
      OpenOnRelease(s, i, 0, r);
      KeepsOne(s, step, k);
      StepKeepsInv(s, step);
      var more := Drain(t, k);
      KeepsConcat(s, [step], more, k);
      steps := [step] + more;
    }
  }

  /** A count that can be wrong becomes too low. */
  lemma Undercount(s: State, k: Key) returns (steps: seq<Step>)
    requires Inv(s) && k in s.table && !Exact(s, k)
    ensures Keeps(s, steps, k)
    ensures var t := Exec(s, steps);
            Inv(t) && k in t.table && t.At(k).running < |OpenOn(t, s.table[k])|
  {
    var r := s.table[k];
    if s.At(k).running != |OpenOn(s, r)| {
      steps := [];
    } else {
      var f :| f in ForeignTo(s, k);
      var start, release := StartRun(k, 0), Release(f, 0);
      var t := Apply(s, start);
      OpenOnStart(s, k, 0, r);
      assert t.runs[f] == s.runs[f];
      OpenOnRelease(t, f, 0, r);
      assert f !in OpenOn(t, r);
      KeepsOne(s, start, k);
      KeepsOne(t, release, k);
      KeepsConcat(s, [start], [release], k);
      StepKeepsInv(s, start);
      StepKeepsInv(t, release);
      steps := [start] + [release];
    }
  }

  /** A runner whose count is zero is swept once it has finished starting and time has passed. */
  lemma SweptWhenIdle(s: State, k: Key) returns (steps: seq<Step>, now: int)
    requires Inv(s) && k in s.table && s.At(k).running == 0
    ensures Keeps(s, steps, k)
    ensures var t := Exec(s, steps);
            OpenOn(t, s.table[k]) == OpenOn(s, s.table[k]) && k !in Apply(t, Sweep(now, 1)).table
  {
    var r := s.table[k];
    steps := [];
    if s.At(k).phase == Starting {
      var step := Finish(r, true, 0);
      KeepsOne(s, step, k);
      steps := [step];
    }
    var t := Exec(s, steps);
    OpenOnSame(s, t, r);
    now := if t.At(k).lastUsed.Never? then 0 else t.At(k).lastUsed.time + 1;
  }

  lemma ExactIsSweepSafe(s: State, k: Key)
    requires Inv(s) && Exact(s, k)
    ensures SweepSafe(s, k)
  {
    forall steps: seq<Step>, now: int, idle: int | Keeps(s, steps, k)
      ensures OpenOn(Exec(s, steps), s.table[k]) != {} ==> k in Apply(Exec(s, steps), Sweep(now, idle)).table
    {
      KeptAtEnd(s, steps, k);
      ExactKept(s, steps, k);
    }
  }

  /** Where the count cannot be trusted, some continuation sweeps the runner under an outstanding run. */
  lemma InexactIsSwept(s: State, k: Key) returns (steps: seq<Step>, now: int)
    requires Inv(s) && k in s.table && !Exact(s, k)
    ensures Keeps(s, steps, k) && OpenOn(Exec(s, steps), s.table[k]) != {}
    ensures k !in Apply(Exec(s, steps), Sweep(now, 1)).table
  {
    var low := Undercount(s, k);
    KeptAtEnd(s, low, k);
    var drain := Drain(Exec(s, low), k);
    KeepsConcat(s, low, drain, k);
    RunKeepsInv(s, low + drain);
    KeptAtEnd(s, low + drain, k);
    var wait;
    wait, now := SweptWhenIdle(Exec(s, low + drain), k);
    KeepsConcat(s, low + drain, wait, k);
    steps := low + drain + wait;
  }

  /** The idle sweep spares every busy runner exactly when the count can be trusted. */
  lemma SweepSafeIffExact(s: State, k: Key)
    requires Inv(s) && k in s.table
    ensures SweepSafe(s, k) <==> Exact(s, k)
  {
    if Exact(s, k) {
      ExactIsSweepSafe(s, k);
    } else {
      var steps, now := InexactIsSwept(s, k);
    }
  }

  lemma CountsForeverIffExact(s: State, k: Key)
    requires Inv(s) && k in s.table
    ensures CountsForever(s, k) <==> Exact(s, k)
  {
    if Exact(s, k) {
      forall steps: seq<Step> | Keeps(s, steps, k)
        ensures k in Exec(s, steps).table
        ensures Exec(s, steps).At(k).running == |OpenOn(Exec(s, steps), s.table[k])|
      {
        KeptAtEnd(s, steps, k);
        ExactKept(s, steps, k);
      }
    } else {
      var low := Undercount(s, k);
      assert Keeps(s, low, k);
    }
  }

  lemma SweepSparesCounted(s: State, k: Key, now: int, idle: int)
    requires s.Wf() && k in s.table && s.At(k).running > 0
    ensures k in Apply(s, Sweep(now, idle)).table
  {
    assert k !in Victims(s, now, idle);
  }

  lemma SurvivesWhileExact(s: State, after: seq<Step>, k: Key, now: int, idle: int)
    requires Inv(s) && Exact(s, k) && Keeps(s, after, k)
    ensures var t := Exec(s, after);
            && k in t.table && t.At(k).running == |OpenOn(t, s.table[k])|
            && (OpenOn(t, s.table[k]) != {} ==> k in Apply(t, Sweep(now, idle)).table)
  {
    ExactKept(s, after, k);
    var t := Exec(s, after);
    KeptAtEnd(s, after, k);
    if OpenOn(t, s.table[k]) != {} {
      SweepSparesCounted(t, k, now, idle);
    }
  }

  /**
    An entry created while none of its key's runs was outstanding counts exactly the runs outstanding on
    it for as long as it lives, and the idle sweep never takes it down under one of them.
   */
  lemma BusyRunnerSurvivesSweep(
    scope: Scope, before: seq<Step>, user: string, tab: string, after: seq<Step>, now: int, idle: int)
    requires var s := Exec(Init(scope), before);
             var k := KeyFor(s.scope, user, tab);
             && k !in s.table && !Blank(user) && !Blank(tab)
             && (forall i :: 0 <= i < |s.runs| && s.runs[i].key == k ==> s.runs[i].released)
             && Keeps(Apply(s, Lookup(user, tab)), after, k)
    ensures var s := Apply(Exec(Init(scope), before), Lookup(user, tab));
            var k, t := KeyFor(s.scope, user, tab), Exec(s, after);
            && k in t.table && t.At(k).running == |OpenOn(t, s.table[k])|
            && (OpenOn(t, s.table[k]) != {} ==> k in Apply(t, Sweep(now, idle)).table)
  {
    RunKeepsInv(Init(scope), before);
    var s := Exec(Init(scope), before);
    NewEntryExact(s, user, tab);
    StepKeepsInv(s, Lookup(user, tab));
    SurvivesWhileExact(Apply(s, Lookup(user, tab)), after, KeyFor(s.scope, user, tab), now, idle);
  }

  lemma ScopeStep(s: State, step: Step)
    requires s.Wf()
    ensures Apply(s, step).scope == s.scope
  {}

  lemma {:induction false} ScopeFixed(scope: Scope, steps: seq<Step>)
    ensures Exec(Init(scope), steps).scope == scope
  {
    if steps != [] {
      ScopeFixed(scope, steps[..|steps|-1]);
      ScopeStep(Exec(Init(scope), steps[..|steps|-1]), steps[|steps|-1]);
    }
  }

  /** A runner closed and restarted under an outstanding run. */
  function StaleTrace(): seq<Step> {
    var k := Key("u", "");
    [Lookup("u", "t"), Finish(0, true, 0), StartRun(k, 0), CloseTab("u", "t")] +
    [Lookup("u", "t"), Finish(1, true, 0), StartRun(k, 0), Release(0, 0)]
  }

  lemma ExecTwo(s: State, a: Step, b: Step)
    requires s.Wf()
    ensures Exec(s, [a, b]) == Apply(Apply(s, a), b)
  {
    ExecOne(s, a);
    assert [a, b][..1] == [a];
  }

  lemma ExecHalves(s: State, a: Step, b: Step, c: Step, d: Step)
    requires s.Wf()
    ensures Exec(s, [a, b, c, d]) == Exec(Exec(s, [a, b]), [c, d])
  {
    ExecConcat(s, [a, b], [c, d]);
    assert [a, b, c, d] == [a, b] + [c, d];
  }

  lemma ExecFour(s: State, a: Step, b: Step, c: Step, d: Step)
    requires s.Wf()
    ensures Exec(s, [a, b, c, d]) == Apply(Apply(Apply(Apply(s, a), b), c), d)
  {
    ExecTwo(s, a, b);
    ExecTwo(Exec(s, [a, b]), c, d);
    ExecHalves(s, a, b, c, d);
  }

  /** Starting a runner for tab "t" of user "u" and a run on it. */
  lemma StartAndRun(s: State) returns (t: State)
    requires s.Wf() && s.scope == UserScope && Key("u", "") !in s.table
    ensures t == Apply(Apply(Apply(s, Lookup("u", "t")), Finish(|s.entries|, true, 0)), StartRun(Key("u", ""), 0))
    ensures t == State(UserScope, s.table[Key("u", "") := |s.entries|],
                       s.entries + [Entry(Key("u", ""), Ready, 1, At(0), {"t"}, false)],
                       s.runs + [Run(Key("u", ""), Some(|s.entries|), false)], s.stopping)
  {
    var k, n := Key("u", ""), |s.entries|;
    assert !Blank("u") && !Blank("t") by { assert "u"[0] == 'u' && "t"[0] == 't'; }
    assert {} + {"t"} == {"t"};
    var s1 := ApplyLookup(s, "u", "t");
    assert s1.entries == s.entries + [Entry(k, Starting, 0, Never, {"t"}, false)];
    var s2 := ApplyFinish(s1, n, true, 0);
    assert s2.entries == s.entries + [Entry(k, Ready, 0, At(0), {"t"}, false)];
    t := ApplyStartRun(s2, k, 0);
  }

  lemma CloseOnly(s: State) returns (t: State)
    requires s.Wf() && s.scope == UserScope && s.table == map[Key("u", "") := 0]
    requires s.entries != [] && s.entries[0].tabs == {"t"}
    ensures t == Apply(s, CloseTab("u", "t"))
    ensures t.scope == UserScope && t.table == map[] && |t.entries| == |s.entries| && t.runs == s.runs
  {
    assert !Blank("u") && !Blank("t") by { assert "u"[0] == 'u' && "t"[0] == 't'; }
    t := ApplyCloseTab(s, "u", "t");
    assert s.At(Key("u", "")).tabs - {"t"} == {};
    assert s.table - {Key("u", "")} == map[];
  }

  lemma StaleFirstHalf() returns (s: State)
    ensures s == Exec(Init(UserScope), StaleTrace()[..4])
    ensures s.scope == UserScope && s.table == map[] && |s.entries| == 1
    ensures s.runs == [Run(Key("u", ""), Some(0), false)]
  {
    var a := StaleTrace();
    assert a[..4] == [a[0], a[1], a[2], a[3]];
    ExecFour(Init(UserScope), a[0], a[1], a[2], a[3]);
    var t := StartAndRun(Init(UserScope));
    s := CloseOnly(t);
  }

  lemma StaleSecondHalf(s: State) returns (t: State)
    requires s.scope == UserScope && s.table == map[] && |s.entries| == 1
    requires s.runs == [Run(Key("u", ""), Some(0), false)]
    ensures t == Exec(s, StaleTrace()[4..])
    ensures t.table == map[Key("u", "") := 1] && |t.entries| == 2
    ensures t.entries[1] == Entry(Key("u", ""), Ready, 0, At(0), {"t"}, false)
    ensures t.runs == [Run(Key("u", ""), Some(0), true), Run(Key("u", ""), Some(1), false)]
  {
    var a := StaleTrace();
    assert a[4..] == [a[4], a[5], a[6], a[7]];
    ExecFour(s, a[4], a[5], a[6], a[7]);
    var u := StartAndRun(s);
    t := ApplyRelease(u, 0, 0);
  }

  /**
    That every outstanding run was started on the current entry does not make the count right: an earlier
    release of an older run may have been taken from it, and the sweep then stops a busy runner.
   */
  lemma StaleReleaseStopsBusyRunner()
    ensures var s, k := Exec(Init(UserScope), StaleTrace()), Key("u", "");
            && k in s.table && ForeignTo(s, k) == {}
            && OpenOn(s, s.table[k]) == {1} && s.At(k).running == 0
            && k !in Apply(s, Sweep(1, 1)).table
  {
    var a := StaleTrace();
    var s := StaleFirstHalf();
    var t := StaleSecondHalf(s);
    assert a == a[..4] + a[4..];
    ExecConcat(Init(UserScope), a[..4], a[4..]);
    assert 1 in OpenOn(t, 1);
    assert Key("u", "") in Victims(t, 1, 1);
  }

  // ----- Tab sets -----

  /** `step` puts `tab` into the set of entry `r`. */
  ghost predicate Registers(s: State, step: Step, r: nat, tab: string)
    requires s.Wf()
  {
    && (step.Lookup? || step.Relock?) && step.tab == tab && !Blank(step.user) && !Blank(tab)
    && var k := KeyFor(s.scope, step.user, tab);
       if step.Lookup? then k !in s.table && r == |s.entries|
       else k in s.table && s.table[k] == r && s.At(k).phase != Failed
  }

  /** `step` closes `tab` while `r` is the entry of its key. */
  ghost predicate Closes(s: State, step: Step, r: nat, tab: string)
    requires s.Wf()
  {
    && step.CloseTab? && step.tab == tab && !Blank(step.user) && !Blank(tab)
    && var k := KeyFor(s.scope, step.user, tab); k in s.table && s.table[k] == r
  }

  /** `step i` of the run registers `tab` on `r`. */
  ghost predicate RegistersAt(scope: Scope, steps: seq<Step>, i: nat, r: nat, tab: string)
    requires i < |steps|
  {
    Registers(Exec(Init(scope), steps[..i]), steps[i], r, tab)
  }

  ghost predicate ClosesAt(scope: Scope, steps: seq<Step>, i: nat, r: nat, tab: string)
    requires i < |steps|
  {
    Closes(Exec(Init(scope), steps[..i]), steps[i], r, tab)
  }

  ghost predicate RegisteredSince(scope: Scope, steps: seq<Step>, r: nat, tab: string) {
    exists i :: 0 <= i < |steps| && RegistersAt(scope, steps, i, r, tab)
      && forall j :: i < j < |steps| ==> !ClosesAt(scope, steps, j, r, tab)
  }

  lemma AtPrefix(scope: Scope, front: seq<Step>, last: Step, i: nat, r: nat, tab: string)
    requires i < |front|
    ensures RegistersAt(scope, front + [last], i, r, tab) <==> RegistersAt(scope, front, i, r, tab)
    ensures ClosesAt(scope, front + [last], i, r, tab) <==> ClosesAt(scope, front, i, r, tab)
  {
    assert (front + [last])[..i] == front[..i];
  }

  lemma AtLast(scope: Scope, front: seq<Step>, last: Step, r: nat, tab: string)
    ensures RegistersAt(scope, front + [last], |front|, r, tab) <==> Registers(Exec(Init(scope), front), last, r, tab)
    ensures ClosesAt(scope, front + [last], |front|, r, tab) <==> Closes(Exec(Init(scope), front), last, r, tab)
  {
    assert (front + [last])[..|front|] == front;
  }

  lemma RegisteredSnoc(scope: Scope, front: seq<Step>, last: Step, r: nat, tab: string)
    ensures RegisteredSince(scope, front + [last], r, tab) <==>
            || RegistersAt(scope, front + [last], |front|, r, tab)
            || (RegisteredSince(scope, front, r, tab) && !ClosesAt(scope, front + [last], |front|, r, tab))
  {
    var steps := front + [last];
    forall i | 0 <= i < |front|
      ensures RegistersAt(scope, steps, i, r, tab) <==> RegistersAt(scope, front, i, r, tab)
      ensures ClosesAt(scope, steps, i, r, tab) <==> ClosesAt(scope, front, i, r, tab)
    {
      AtPrefix(scope, front, last, i, r, tab);
    }
  }

  /** In user scope an entry's tab set is the tabs registered on it and not closed since. */
  lemma {:induction false} TabSetIsRegistered(steps: seq<Step>, r: nat, tab: string)
    requires r < |Exec(Init(UserScope), steps).entries|
    ensures tab in Exec(Init(UserScope), steps).entries[r].tabs <==> RegisteredSince(UserScope, steps, r, tab)
  {
    var front, last := steps[..|steps|-1], steps[|steps|-1];
    assert steps == front + [last];
    var s := Exec(Init(UserScope), front);
    ScopeFixed(UserScope, front);
    RegisteredSnoc(UserScope, front, last, r, tab);
    AtLast(UserScope, front, last, r, tab);
    if r < |s.entries| {
      TabSetIsRegistered(front, r, tab);
    } else {
      NotRegistered(front, r, tab);
    }
    TabSetStep(s, last, r, tab);
  }

  /** `step` changes entry `r`'s tab set as it registers and closes `tab`. */
  ghost predicate TracksTab(s: State, step: Step, r: nat, tab: string)
    requires s.Wf() && r < |Apply(s, step).entries|
  {
    tab in Apply(s, step).entries[r].tabs <==>
    Registers(s, step, r, tab) || (r < |s.entries| && tab in s.entries[r].tabs && !Closes(s, step, r, tab))
  }

  lemma LookupTracks(s: State, user: string, tab': string, r: nat, tab: string)
    requires s.Wf() && s.scope == UserScope && r < |ApplyLookup(s, user, tab').entries|
    ensures TracksTab(s, Lookup(user, tab'), r, tab)
  {
    assert !Blank(tab') ==> tab' != "";
  }

  lemma RelockTracks(s: State, user: string, tab': string, now: int, r: nat, tab: string)
    requires s.Wf() && s.scope == UserScope && r < |s.entries|
    ensures TracksTab(s, Relock(user, tab', now), r, tab)
  {
    assert !Blank(tab') ==> tab' != "";
  }

  lemma CloseTabTracks(s: State, user: string, tab': string, r: nat, tab: string)
    requires s.Wf() && s.scope == UserScope && r < |s.entries|
    ensures TracksTab(s, CloseTab(user, tab'), r, tab)
  {}

  lemma TabSetStep(s: State, step: Step, r: nat, tab: string)
    requires s.Wf() && s.scope == UserScope && r < |Apply(s, step).entries|
    ensures TracksTab(s, step, r, tab)
  {
    match step
    case Lookup(user, tab') => LookupTracks(s, user, tab', r, tab);
    case Relock(user, tab', now) => RelockTracks(s, user, tab', now, r, tab);
    case CloseTab(user, tab') => CloseTabTracks(s, user, tab', r, tab);
    case _ =>
  }

  /** A tab is registered only on an entry that is there afterwards. */
  lemma RegistersInside(s: State, step: Step, r: nat, tab: string)
    requires s.Wf()
    ensures |s.entries| <= |Apply(s, step).entries|
    ensures Registers(s, step, r, tab) ==> r < |Apply(s, step).entries|
  {}

  lemma NotRegisteredStep(front: seq<Step>, last: Step, r: nat, tab: string)
    requires !Registers(Exec(Init(UserScope), front), last, r, tab) && !RegisteredSince(UserScope, front, r, tab)
    ensures !RegisteredSince(UserScope, front + [last], r, tab)
  {
    RegisteredSnoc(UserScope, front, last, r, tab);
    AtLast(UserScope, front, last, r, tab);
  }

  lemma {:induction false} NotRegistered(steps: seq<Step>, r: nat, tab: string)
    requires r >= |Exec(Init(UserScope), steps).entries|
    ensures !RegisteredSince(UserScope, steps, r, tab)
  {
    if steps != [] {
      var front, last := steps[..|steps|-1], steps[|steps|-1];
      assert steps == front + [last];
      RegistersInside(Exec(Init(UserScope), front), last, r, tab);
      NotRegistered(front, r, tab);
      NotRegisteredStep(front, last, r, tab);
    }
  }

  /** In user scope closing a tab takes the runner down exactly when no other tab holds it. */
  lemma CloseTabTakesDownLast(steps: seq<Step>, user: string, tab: string)
    requires !Blank(user) && !Blank(tab)
    requires Key(user, "") in Exec(Init(UserScope), steps).table
    ensures var s, k := Exec(Init(UserScope), steps), Key(user, "");
            k !in Apply(s, CloseTab(user, tab)).table <==>
            forall other :: RegisteredSince(UserScope, steps, s.table[k], other) ==> other == tab
  {
    var s, k := Exec(Init(UserScope), steps), Key(user, "");
    ScopeFixed(UserScope, steps);
    forall other ensures other in s.At(k).tabs <==> RegisteredSince(UserScope, steps, s.table[k], other) {
      TabSetIsRegistered(steps, s.table[k], other);
    }
    if k in Apply(s, CloseTab(user, tab)).table {
      var other :| other in s.At(k).tabs - {tab};
      assert RegisteredSince(UserScope, steps, s.table[k], other);
    } else {
      assert s.At(k).tabs - {tab} == {};
      forall other | RegisteredSince(UserScope, steps, s.table[k], other) ensures other == tab {
        assert other in s.At(k).tabs;
        assert other !in s.At(k).tabs - {tab};
      }
    }
  }

  /** In user scope every runner in the table is held by some tab. */
  lemma EveryRunnerHeld(steps: seq<Step>, k: Key)
    requires k in Exec(Init(UserScope), steps).table
    ensures exists tab :: RegisteredSince(UserScope, steps, Exec(Init(UserScope), steps).table[k], tab)
  {
    var s := Exec(Init(UserScope), steps);
    RunKeepsInv(Init(UserScope), steps);
    ScopeFixed(UserScope, steps);
    var tab :| tab in s.At(k).tabs;
    TabSetIsRegistered(steps, s.table[k], tab);
  }

  // ----- Starts, removals and stops -----

  /** `step` makes the provider call `startRunner` for `k`. */
  predicate StartsRunner(s: State, step: Step, k: Key) {
    && step.Lookup? && !Blank(step.user) && !Blank(step.tab)
    && KeyFor(s.scope, step.user, step.tab) == k && k !in s.table
  }

  predicate Removes(s: State, step: Step, k: Key)
    requires s.Wf()
  {
    k in s.table && k !in Apply(s, step).table
  }

  function Starts(scope: Scope, steps: seq<Step>, k: Key): nat {
    if steps == [] then 0
    else
      var front := steps[..|steps|-1];
      Starts(scope, front, k) + if StartsRunner(Exec(Init(scope), front), steps[|steps|-1], k) then 1 else 0
  }

  function Removals(scope: Scope, steps: seq<Step>, k: Key): nat {
    if steps == [] then 0
    else
      var front := steps[..|steps|-1];
      Removals(scope, front, k) + if Removes(Exec(Init(scope), front), steps[|steps|-1], k) then 1 else 0
  }

  lemma OnlyStartsInsert(s: State, step: Step, k: Key)
    requires s.Wf() && k !in s.table
    ensures k in Apply(s, step).table <==> StartsRunner(s, step, k)
  {}

  /** A key's runner is started once per removal, and once more while it has an entry. */
  lemma {:induction false} StartsFollowRemovals(scope: Scope, steps: seq<Step>, k: Key)
    ensures Starts(scope, steps, k) ==
            Removals(scope, steps, k) + if k in Exec(Init(scope), steps).table then 1 else 0
  {
    if steps != [] {
      StartsFollowRemovals(scope, steps[..|steps|-1], k);
      var s := Exec(Init(scope), steps[..|steps|-1]);
      if k !in s.table {
        OnlyStartsInsert(s, steps[|steps|-1], k);
      }
    }
  }

  predicate InTable(s: State, r: nat) {
    r < |s.entries| && s.entries[r].key in s.table && s.table[s.entries[r].key] == r
  }

  /** A container is running that no table entry and no pending stop leads to. */
  predicate Orphan(s: State, r: nat) {
    r < |s.entries| && s.entries[r].phase == Ready && !s.entries[r].stopped && !InTable(s, r) && r !in s.stopping
  }

  /** In `steps`, `stopRunner` was called on `r` while its container was still being started. */
  predicate StoppedTooSoon(scope: Scope, steps: seq<Step>, r: nat) {
    steps != [] &&
    var front := steps[..|steps|-1];
    StoppedTooSoon(scope, front, r) || StopsTooSoon(Exec(Init(scope), front), steps[|steps|-1], r)
  }

  /** Where entry `r` is, whether its container was stopped, and whether its stop came too soon. */
  predicate Life(s: State, r: nat, tooSoon: bool) {
    if r >= |s.entries| then !tooSoon
    else if InTable(s, r) || r in s.stopping then !s.entries[r].stopped && !tooSoon
    else if tooSoon then !s.entries[r].stopped
    else s.entries[r].phase == Failed || s.entries[r].stopped
  }

  predicate StopsTooSoon(s: State, step: Step, r: nat) {
    step == Stop(r) && r in s.stopping && r < |s.entries| && s.entries[r].phase == Starting
  }

  lemma TakeOutLife(s: State, keys: set<Key>, r: nat, tooSoon: bool)
    requires s.Wf() && StoppingGone(s) && Life(s, r, tooSoon)
    ensures Life(TakeOut(s, keys), r, tooSoon)
  {
    if InTable(s, r) && s.entries[r].key in keys {
      assert r in TakeOut(s, keys).stopping;
    }
  }

  lemma CloseTabLife(s: State, user: string, tab: string, r: nat, tooSoon: bool)
    requires s.Wf() && StoppingGone(s) && Life(s, r, tooSoon)
    ensures Life(ApplyCloseTab(s, user, tab), r, tooSoon)
  {
    var k := KeyFor(s.scope, user, tab);
    if !Blank(user) && !Blank(tab) && k in s.table {
      TakeOutLife(s, {k}, r, tooSoon);
    }
  }

  lemma StopLife(s: State, x: nat, r: nat, tooSoon: bool)
    requires s.Wf() && StoppingGone(s) && Life(s, r, tooSoon)
    ensures Life(ApplyStop(s, x), r, tooSoon || StopsTooSoon(s, Stop(x), r))
  {}

  lemma LookupLife(s: State, user: string, tab: string, r: nat, tooSoon: bool)
    requires s.Wf() && StoppingGone(s) && Life(s, r, tooSoon)
    ensures Life(ApplyLookup(s, user, tab), r, tooSoon)
  {}

  lemma RelockLife(s: State, user: string, tab: string, now: int, r: nat, tooSoon: bool)
    requires s.Wf() && StoppingGone(s) && Life(s, r, tooSoon)
    ensures Life(ApplyRelock(s, user, tab, now), r, tooSoon)
  {}

  lemma RunLife(s: State, k: Key, i: nat, now: int, r: nat, tooSoon: bool)
    requires s.Wf() && StoppingGone(s) && Life(s, r, tooSoon)
    ensures Life(ApplyStartRun(s, k, now), r, tooSoon)
    ensures Life(ApplyRelease(s, i, now), r, tooSoon)
  {}

  lemma FinishLife(s: State, x: nat, ok: bool, now: int, r: nat, tooSoon: bool)
    requires s.Wf() && StoppingGone(s) && Life(s, r, tooSoon)
    ensures Life(ApplyFinish(s, x, ok, now), r, tooSoon)
  {}

  lemma LifeStep(s: State, step: Step, r: nat, tooSoon: bool)
    requires s.Wf() && StoppingGone(s) && Life(s, r, tooSoon)
    ensures Life(Apply(s, step), r, tooSoon || StopsTooSoon(s, step, r))
  {
    match step
    case CloseTab(user, tab) => CloseTabLife(s, user, tab, r, tooSoon);
    case CloseEntry(k) => TakeOutLife(s, {k}, r, tooSoon);
    case CloseAll => TakeOutLife(s, s.table.Keys, r, tooSoon);
    case Sweep(now, idle) => TakeOutLife(s, Victims(s, now, idle), r, tooSoon);
    case Stop(x) => StopLife(s, x, r, tooSoon);
    case Lookup(user, tab) => LookupLife(s, user, tab, r, tooSoon);
    case Relock(user, tab, now) => RelockLife(s, user, tab, now, r, tooSoon);
    case Finish(x, ok, now) => FinishLife(s, x, ok, now, r, tooSoon);
    case StartRun(k, now) => RunLife(s, k, 0, now, r, tooSoon);
    case Release(i, now) => RunLife(s, Key("", ""), i, now, r, tooSoon);
  }

  lemma {:induction false} EntryLife(scope: Scope, steps: seq<Step>, r: nat)
    ensures Life(Exec(Init(scope), steps), r, StoppedTooSoon(scope, steps, r))
  {
    if steps != [] {
      var front := steps[..|steps|-1];
      EntryLife(scope, front, r);
      RunKeepsInv(Init(scope), front);
      LifeStep(Exec(Init(scope), front), steps[|steps|-1], r, StoppedTooSoon(scope, front, r));
    }
  }

  /** A container is lost exactly when its entry was stopped before its start had finished. */
  lemma OrphanIffStoppedTooSoon(scope: Scope, steps: seq<Step>, r: nat)
    requires var s := Exec(Init(scope), steps); r < |s.entries| && s.entries[r].phase == Ready
    ensures Orphan(Exec(Init(scope), steps), r) <==> StoppedTooSoon(scope, steps, r)
  {
    EntryLife(scope, steps, r);
  }

  lemma ClosedAtOnce() returns (s: State)
    ensures s == Exec(Init(UserScope), [Lookup("u", "t"), CloseTab("u", "t")])
    ensures s.table == map[] && s.stopping == {0}
    ensures |s.entries| == 1 && s.entries[0].phase == Starting && !s.entries[0].stopped
  {
    assert !Blank("u") && !Blank("t") by { assert "u"[0] == 'u' && "t"[0] == 't'; }
    ExecTwo(Init(UserScope), Lookup("u", "t"), CloseTab("u", "t"));
    var s1 := ApplyLookup(Init(UserScope), "u", "t");
    assert {} + {"t"} == {"t"} && {"t"} - {"t"} == {};
    assert s1.At(Key("u", "")).tabs == {"t"};
    s := ApplyCloseTab(s1, "u", "t");
  }

  /** A tab closed while its runner is still starting. */
  lemma ClosedWhileStarting()
    ensures Orphan(Exec(Init(UserScope), [Lookup("u", "t"), CloseTab("u", "t"), Stop(0), Finish(0, true, 0)]), 0)
  {
    var s := ClosedAtOnce();
    ExecHalves(Init(UserScope), Lookup("u", "t"), CloseTab("u", "t"), Stop(0), Finish(0, true, 0));
    ExecTwo(s, Stop(0), Finish(0, true, 0));
  }
}
