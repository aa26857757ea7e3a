/**
  The two routines that stop a tab's processes: TERM to all, a pause, KILL to what is left, then cancels.

  Completion is what a probe sees: `done(h, k)` says whether handle `h` is found done by the `k`-th probe.
  A handle without a completion channel is never found done.
 */
module StopProtocol {
  import opened Text

  datatype Signal = TERM | KILL

  datatype Action = Send(handle: nat, signal: Signal) | Sleep | CancelRun | CancelCommand(index: nat)

  datatype Command = Command(handle: Option<nat>, cancellable: bool)

  type Probes = (nat, nat) -> bool

  /** A completion channel, once closed, stays closed. */
  ghost predicate Monotone(done: Probes) {
    forall h: nat, k: nat, l: nat :: k <= l && done(h, k) ==> done(h, l)
  }

  /** The handles to stop, the run first. */
  function Targets(run: Option<nat>, commands: seq<Command>): seq<nat> {
    if commands == [] then (if run.Some? then [run.value] else [])
    else
      var last := commands[|commands|-1].handle;
      Targets(run, commands[..|commands|-1]) + if last.Some? then [last.value] else []
  }

  function Terms(hs: seq<nat>): (acts: seq<Action>)
    ensures |acts| == |hs| && forall i :: 0 <= i < |hs| ==> acts[i] == Send(hs[i], TERM)
  {
    seq(|hs|, i requires 0 <= i < |hs| => Send(hs[i], TERM))
  }

  /** The number of probes the scan for a live handle makes: it stops at the first one. */
  function ScanLength(hs: seq<nat>, done: Probes): nat {
    if hs == [] then 0
    else if AnyLive(hs[..|hs|-1], done) then ScanLength(hs[..|hs|-1], done)
    else |hs|
  }

  /** Some handle is found alive when they are probed one after the other. */
  predicate AnyLive(hs: seq<nat>, done: Probes) {
    hs != [] && (AnyLive(hs[..|hs|-1], done) || !done(hs[|hs|-1], |hs|-1))
  }

  /** KILL for each handle not found done by its own probe, the probes starting at `from`. */
  function Kills(hs: seq<nat>, done: Probes, from: nat): seq<Action> {
    if hs == [] then []
    else
      var n := |hs| - 1;
      Kills(hs[..n], done, from) + if done(hs[n], from + n) then [] else [Send(hs[n], KILL)]
  }

  function Cancels(runCancel: bool, commands: seq<Command>): seq<Action> {
    if commands == [] then (if runCancel then [CancelRun] else [])
    else
      var n := |commands| - 1;
      Cancels(runCancel, commands[..n]) + if commands[n].cancellable then [CancelCommand(n)] else []
  }

  /** The kill checks are made only if the scan found a handle alive. */
  function KillsAfterScan(hs: seq<nat>, done: Probes): seq<Action> {
    if AnyLive(hs, done) then Kills(hs, done, ScanLength(hs, done)) else []
  }

  /** What a stop sends. */
  function Stop(run: Option<nat>, runCancel: bool, commands: seq<Command>, done: Probes): seq<Action> {
    var hs := Targets(run, commands);
    Terms(hs) + [Sleep] + KillsAfterScan(hs, done) + Cancels(runCancel, commands)
  }

  /** When the scan found every handle done, no kill check would have found one alive. */
  lemma {:induction false} NoneSpared(hs: seq<nat>, done: Probes, from: nat)
    requires Monotone(done) && !AnyLive(hs, done)
    ensures Kills(hs, done, from) == []
  {
    if hs != [] {
      NoneSpared(hs[..|hs|-1], done, from);
      assert done(hs[|hs|-1], |hs|-1);
    }
  }

  /** `h` is alive at its own kill check. */
  ghost predicate AliveAtCheck(hs: seq<nat>, done: Probes, from: nat, h: nat) {
    exists i :: 0 <= i < |hs| && hs[i] == h && !done(h, from + i)
  }

  lemma {:induction false} KillsAre(hs: seq<nat>, done: Probes, from: nat, act: Action)
    ensures act in Kills(hs, done, from) <==>
            act.Send? && act.signal == KILL && AliveAtCheck(hs, done, from, act.handle)
  {
    if hs != [] {
      var n := |hs| - 1;
      KillsAre(hs[..n], done, from, act);
      if act.Send? {
        AliveSnoc(hs, done, from, act.handle);
      }
    }
  }

  lemma AliveSnoc(hs: seq<nat>, done: Probes, from: nat, h: nat)
    requires hs != []
    ensures var n := |hs| - 1;
            AliveAtCheck(hs, done, from, h) <==>
            AliveAtCheck(hs[..n], done, from, h) || (hs[n] == h && !done(h, from + n))
  {
    var n := |hs| - 1;
    if i :| 0 <= i < n && hs[..n][i] == h && !done(h, from + i) {
      assert hs[i] == h;
    }
    if i :| 0 <= i < n && hs[i] == h && !done(h, from + i) {
      assert hs[..n][i] == h;
    }
  }

  lemma {:induction false} CancelsAre(runCancel: bool, commands: seq<Command>, act: Action)
    ensures act in Cancels(runCancel, commands) <==>
            || (act == CancelRun && runCancel)
            || (act.CancelCommand? && act.index < |commands| && commands[act.index].cancellable)
  {
    if commands != [] {
      CancelsAre(runCancel, commands[..|commands|-1], act);
    }
  }

  /** Rank of an action: signals to end, the pause, kills, cancels. */
  function Rank(act: Action): nat {
    match act
    case Send(_, TERM) => 0
    case Sleep => 1
    case Send(_, KILL) => 2
    case _ => 3
  }

  ghost predicate Ranked(acts: seq<Action>, lo: nat, hi: nat) {
    && (forall i :: 0 <= i < |acts| ==> lo <= Rank(acts[i]) <= hi)
    && (forall i, j :: 0 <= i < j < |acts| ==> Rank(acts[i]) <= Rank(acts[j]))
  }

  lemma RankedConcat(a: seq<Action>, b: seq<Action>, lo: nat, mid: nat, hi: nat)
    requires Ranked(a, lo, mid) && Ranked(b, mid, hi) && lo <= mid <= hi
    ensures Ranked(a + b, lo, hi)
  {}

  lemma TermsRanked(hs: seq<nat>)
    ensures Ranked(Terms(hs), 0, 0) && Ranked(Terms(hs), 0, 1)
  {}

  lemma KillsRanked(hs: seq<nat>, done: Probes)
    ensures Ranked(KillsAfterScan(hs, done), 1, 2)
  {
    var kills := KillsAfterScan(hs, done);
    forall i | 0 <= i < |kills| ensures Rank(kills[i]) == 2 {
      KillsAre(hs, done, ScanLength(hs, done), kills[i]);
    }
  }

  lemma CancelsRanked(runCancel: bool, commands: seq<Command>)
    ensures Ranked(Cancels(runCancel, commands), 2, 3)
  {
    var cancels := Cancels(runCancel, commands);
    forall i | 0 <= i < |cancels| ensures Rank(cancels[i]) == 3 {
      CancelsAre(runCancel, commands, cancels[i]);
    }
  }

  /** TERM to all, then the pause, then the kills, then the cancels. */
  lemma StopInOrder(run: Option<nat>, runCancel: bool, commands: seq<Command>, done: Probes)
    ensures Ranked(Stop(run, runCancel, commands, done), 0, 3)
  {
    var hs := Targets(run, commands);
    var kills, cancels := KillsAfterScan(hs, done), Cancels(runCancel, commands);
    KillsRanked(hs, done);
    CancelsRanked(runCancel, commands);
    TermsRanked(hs);
    assert Ranked([Sleep], 1, 1);
    RankedConcat(Terms(hs), [Sleep], 0, 1, 1);
    RankedConcat(Terms(hs) + [Sleep], kills, 0, 1, 2);
    RankedConcat(Terms(hs) + [Sleep] + kills, cancels, 0, 2, 3);
  }

  lemma InParts(act: Action, a: seq<Action>, b: seq<Action>, c: seq<Action>)
    requires act != Sleep
    ensures act in a + [Sleep] + b + c <==> act in a || act in b || act in c
  {}

  lemma TermsAre(hs: seq<nat>, h: nat, s: Signal)
    ensures Send(h, s) in Terms(hs) <==> s == TERM && h in hs
  {
    if h in hs {
      var i :| 0 <= i < |hs| && hs[i] == h;
      assert Terms(hs)[i] == Send(h, TERM);
    }
  }

  /** Every handle is sent TERM, and KILL goes to exactly the handles alive at their own kill check. */
  lemma StopSignals(run: Option<nat>, runCancel: bool, commands: seq<Command>, done: Probes, h: nat, s: Signal)
    requires Monotone(done)
    ensures var hs := Targets(run, commands);
            Send(h, s) in Stop(run, runCancel, commands, done) <==>
            h in hs && (s == TERM || AliveAtCheck(hs, done, ScanLength(hs, done), h))
  {
    var hs := Targets(run, commands);
    InParts(Send(h, s), Terms(hs), KillsAfterScan(hs, done), Cancels(runCancel, commands));
    TermsAre(hs, h, s);
    KillsAre(hs, done, ScanLength(hs, done), Send(h, s));
    CancelsAre(runCancel, commands, Send(h, s));
    if !AnyLive(hs, done) {
      NoneSpared(hs, done, ScanLength(hs, done));
    }
  }

  lemma TargetsSnoc(run: Option<nat>, commands: seq<Command>, n: nat)
    requires n < |commands|
    ensures Targets(run, commands[..n + 1])
         == Targets(run, commands[..n]) + if commands[n].handle.Some? then [commands[n].handle.value] else []
  {
    assert commands[..n + 1][..n] == commands[..n];
  }

  lemma KillsSnoc(hs: seq<nat>, h: nat, done: Probes, from: nat)
    ensures Kills(hs + [h], done, from) == Kills(hs, done, from) + if done(h, from + |hs|) then [] else [Send(h, KILL)]
  {
    assert (hs + [h])[..|hs|] == hs;
  }

  // ----- Who is sent what, by run and commands -----

  /** How many handles there are before command `n`: the run's, if there is one, and the commands' before it. */
  function Place(run: Option<nat>, commands: seq<Command>, n: nat): nat
    requires n <= |commands|
  {
    if n == 0 then (if run.Some? then 1 else 0)
    else Place(run, commands, n - 1) + if commands[n - 1].handle.Some? then 1 else 0
  }

  lemma {:induction false} TargetsHold(run: Option<nat>, commands: seq<Command>)
    ensures |Targets(run, commands)| == Place(run, commands, |commands|)
    ensures run.Some? ==> Targets(run, commands) != [] && Targets(run, commands)[0] == run.value
    ensures forall i :: 0 <= i < |commands| && commands[i].handle.Some? ==>
              && Place(run, commands, i) < |Targets(run, commands)|
              && Targets(run, commands)[Place(run, commands, i)] == commands[i].handle.value
  {
    if commands != [] {
      var front := commands[..|commands|-1];
      TargetsHold(run, front);
      forall i | 0 <= i <= |front| ensures Place(run, front, i) == Place(run, commands, i) {
        PlaceInFront(run, commands, |front|, i);
      }
    }
  }

  lemma {:induction false} PlaceInFront(run: Option<nat>, commands: seq<Command>, m: nat, i: nat)
    requires i <= m <= |commands|
    ensures Place(run, commands[..m], i) == Place(run, commands, i)
    decreases i
  {
    if i > 0 {
      PlaceInFront(run, commands, m, i - 1);
    }
  }

  /** The run, if there is one, and then every command that has a handle is sent one TERM, in this order. */
  lemma TermsInOrder(run: Option<nat>, runCancel: bool, commands: seq<Command>, done: Probes)
    ensures var acts, n := Stop(run, runCancel, commands, done), Place(run, commands, |commands|);
            && n < |acts| && acts[n] == Sleep
            && (run.Some? ==> acts[0] == Send(run.value, TERM))
            && (forall i :: 0 <= i < |commands| && commands[i].handle.Some? ==>
                  && Place(run, commands, i) < n
                  && acts[Place(run, commands, i)] == Send(commands[i].handle.value, TERM))
  {
    TargetsHold(run, commands);
  }

  predicate Stopped(run: Option<nat>, commands: seq<Command>, h: nat) {
    run == Some(h) || exists i :: 0 <= i < |commands| && commands[i].handle == Some(h)
  }

  lemma {:induction false} TargetsAre(run: Option<nat>, commands: seq<Command>, h: nat)
    ensures h in Targets(run, commands) <==> Stopped(run, commands, h)
  {
    if commands != [] {
      var front, last := commands[..|commands|-1], commands[|commands|-1];
      TargetsAre(run, front, h);
      if Stopped(run, front, h) && run != Some(h) {
        var i :| 0 <= i < |front| && front[i].handle == Some(h);
        assert commands[i].handle == Some(h);
      }
      if last.handle == Some(h) {
        assert commands[|front|].handle == Some(h);
      }
    }
  }

  /** A handle is sent TERM exactly when it is the run's or a command's. */
  lemma TermSentIff(run: Option<nat>, runCancel: bool, commands: seq<Command>, done: Probes, h: nat)
    ensures Send(h, TERM) in Stop(run, runCancel, commands, done) <==>
            run == Some(h) || exists i :: 0 <= i < |commands| && commands[i].handle == Some(h)
  {
    var hs := Targets(run, commands);
    InParts(Send(h, TERM), Terms(hs), KillsAfterScan(hs, done), Cancels(runCancel, commands));
    TermsAre(hs, h, TERM);
    KillsAre(hs, done, ScanLength(hs, done), Send(h, TERM));
    CancelsAre(runCancel, commands, Send(h, TERM));
    TargetsAre(run, commands, h);
  }

  /** Handle `h` is at place `p`. */
  predicate IsAt(run: Option<nat>, commands: seq<Command>, h: nat, p: nat) {
    || (p == 0 && run == Some(h))
    || exists i :: 0 <= i < |commands| && commands[i].handle == Some(h) && Place(run, commands, i) == p
  }

  lemma {:induction false} TargetAt(run: Option<nat>, commands: seq<Command>, h: nat, p: nat)
    ensures p < |Targets(run, commands)| && Targets(run, commands)[p] == h <==> IsAt(run, commands, h, p)
  {
    TargetsHold(run, commands);
    if commands != [] {
      var front, last := commands[..|commands|-1], commands[|commands|-1];
      TargetAt(run, front, h, p);
      TargetsHold(run, front);
      forall i | 0 <= i <= |front| ensures Place(run, front, i) == Place(run, commands, i) {
        PlaceInFront(run, commands, |front|, i);
      }
      if IsAt(run, front, h, p) && !(p == 0 && run == Some(h)) {
        var i :| 0 <= i < |front| && front[i].handle == Some(h) && Place(run, front, i) == p;
        assert commands[i].handle == Some(h) && Place(run, commands, i) == p;
      }
      if last.handle == Some(h) && p == Place(run, commands, |front|) {
        assert commands[|front|].handle == Some(h);
      }
    }
  }

  /** Some handle is found alive by the scan, which probes them in order. */
  ghost predicate FoundAlive(run: Option<nat>, commands: seq<Command>, done: Probes) {
    exists h: nat, p: nat :: IsAt(run, commands, h, p) && !done(h, p)
  }

  lemma {:induction false} AnyLiveAt(hs: seq<nat>, done: Probes)
    ensures AnyLive(hs, done) <==> exists p :: 0 <= p < |hs| && !done(hs[p], p)
  {
    if hs != [] {
      var front := hs[..|hs|-1];
      AnyLiveAt(front, done);
      if p :| 0 <= p < |front| && !done(front[p], p) {
        assert !done(hs[p], p);
      }
      if p :| 0 <= p < |hs| && !done(hs[p], p) {
        assert p < |front| ==> !done(front[p], p);
      }
    }
  }

  /** The scan finds something to kill exactly when some handle is alive at its probe. */
  lemma FoundAliveIff(run: Option<nat>, commands: seq<Command>, done: Probes)
    ensures AnyLive(Targets(run, commands), done) <==> FoundAlive(run, commands, done)
  {
    var hs := Targets(run, commands);
    AnyLiveAt(hs, done);
    if p :| 0 <= p < |hs| && !done(hs[p], p) {
      TargetAt(run, commands, hs[p], p);
      assert IsAt(run, commands, hs[p], p);
    }
    if h: nat, p: nat :| IsAt(run, commands, h, p) && !done(h, p) {
      TargetAt(run, commands, h, p);
    }
  }

  /** The scan's probe `last` is the first that finds a handle alive, and so the last it makes. */
  ghost predicate ScanEnds(run: Option<nat>, commands: seq<Command>, done: Probes, last: nat) {
    && (exists h: nat :: IsAt(run, commands, h, last) && !done(h, last))
    && forall h: nat, p: nat :: p < last && IsAt(run, commands, h, p) ==> done(h, p)
  }

  lemma {:induction false} ScanLengthIs(hs: seq<nat>, done: Probes, n: nat)
    requires 0 < n <= |hs| && !done(hs[n - 1], n - 1) && forall p :: 0 <= p < n - 1 ==> done(hs[p], p)
    ensures AnyLive(hs, done) && ScanLength(hs, done) == n
  {
    var front := hs[..|hs|-1];
    if n < |hs| {
      ScanLengthIs(front, done, n);
    } else {
      AnyLiveAt(front, done);
    }
  }

  lemma ScanEndsAt(run: Option<nat>, commands: seq<Command>, done: Probes, last: nat)
    requires ScanEnds(run, commands, done, last)
    ensures AnyLive(Targets(run, commands), done) && ScanLength(Targets(run, commands), done) == last + 1
  {
    var hs := Targets(run, commands);
    var g: nat :| IsAt(run, commands, g, last) && !done(g, last);
    TargetAt(run, commands, g, last);
    forall p | 0 <= p < last ensures done(hs[p], p) {
      TargetAt(run, commands, hs[p], p);
      assert IsAt(run, commands, hs[p], p);
    }
    ScanLengthIs(hs, done, last + 1);
  }

  lemma AliveAtPlace(run: Option<nat>, commands: seq<Command>, done: Probes, n: nat, h: nat)
    ensures AliveAtCheck(Targets(run, commands), done, n, h) <==>
            exists p: nat :: IsAt(run, commands, h, p) && !done(h, n + p)
  {
    var hs := Targets(run, commands);
    if p: nat :| IsAt(run, commands, h, p) && !done(h, n + p) {
      TargetAt(run, commands, h, p);
      assert hs[p] == h;
    }
    if p :| 0 <= p < |hs| && hs[p] == h && !done(h, n + p) {
      TargetAt(run, commands, h, p);
      assert IsAt(run, commands, h, p);
    }
  }

  /**
    When the scan ends with probe `last`, KILL is sent to exactly the handles alive at their own check: the one at
    place `p` is checked by probe `last + 1 + p`.
   */
  lemma KillSentIff(run: Option<nat>, runCancel: bool, commands: seq<Command>, done: Probes, last: nat, h: nat)
    requires ScanEnds(run, commands, done, last)
    ensures Send(h, KILL) in Stop(run, runCancel, commands, done) <==>
            exists p: nat :: IsAt(run, commands, h, p) && !done(h, last + 1 + p)
  {
    var hs, n := Targets(run, commands), last + 1;
    ScanEndsAt(run, commands, done, last);
    InParts(Send(h, KILL), Terms(hs), KillsAfterScan(hs, done), Cancels(runCancel, commands));
    TermsAre(hs, h, KILL);
    KillsAre(hs, done, n, Send(h, KILL));
    CancelsAre(runCancel, commands, Send(h, KILL));
    AliveAtPlace(run, commands, done, n, h);
  }

  /** When it finds none alive, nothing is killed. */
  lemma NoKill(run: Option<nat>, runCancel: bool, commands: seq<Command>, done: Probes, h: nat)
    requires !FoundAlive(run, commands, done)
    ensures Send(h, KILL) !in Stop(run, runCancel, commands, done)
  {
    var hs := Targets(run, commands);
    FoundAliveIff(run, commands, done);
    InParts(Send(h, KILL), Terms(hs), [], Cancels(runCancel, commands));
    TermsAre(hs, h, KILL);
    CancelsAre(runCancel, commands, Send(h, KILL));
  }

  /** A handle that never ends is sent TERM and KILL; the run's is such a handle, whatever the commands. */
  lemma NeverDoneIsKilled(run: Option<nat>, runCancel: bool, commands: seq<Command>, done: Probes, h: nat)
    requires Monotone(done) && (forall k: nat :: !done(h, k))
    requires run == Some(h) || exists i :: 0 <= i < |commands| && commands[i].handle == Some(h)
    ensures Send(h, TERM) in Stop(run, runCancel, commands, done)
    ensures Send(h, KILL) in Stop(run, runCancel, commands, done)
  {
    TermSentIff(run, runCancel, commands, done, h);
    TargetsAre(run, commands, h);
    StopSignals(run, runCancel, commands, done, h, KILL);
  }

  // ----- How often -----

  function Count(acts: seq<Action>, act: Action): nat {
    if acts == [] then 0 else Count(acts[..|acts|-1], act) + if acts[|acts|-1] == act then 1 else 0
  }

  lemma {:induction false} CountConcat(a: seq<Action>, b: seq<Action>, act: Action)
    ensures Count(a + b, act) == Count(a, act) + Count(b, act)
  {
    if b == [] {
      assert a + b == a;
    } else {
      assert (a + b)[..|a + b|-1] == a + b[..|b|-1];
      CountConcat(a, b[..|b|-1], act);
    }
  }

  lemma {:induction false} CountNone(acts: seq<Action>, act: Action)
    requires act !in acts
    ensures Count(acts, act) == 0
  {
    if acts != [] {
      CountNone(acts[..|acts|-1], act);
    }
  }

  /** The number of places of `h`, those before command `n`, at which its kill check finds it alive. */
  function Alive(run: Option<nat>, commands: seq<Command>, done: Probes, from: nat, h: nat, n: nat): nat
    requires n <= |commands|
  {
    if n == 0 then (if run == Some(h) && !done(h, from) then 1 else 0)
    else
      Alive(run, commands, done, from, h, n - 1)
      + if commands[n - 1].handle == Some(h) && !done(h, from + Place(run, commands, n - 1)) then 1 else 0
  }

  lemma CountKill(hs: seq<nat>, g: nat, done: Probes, from: nat, h: nat)
    ensures Count(Kills(hs + [g], done, from), Send(h, KILL)) ==
            Count(Kills(hs, done, from), Send(h, KILL)) + if g == h && !done(g, from + |hs|) then 1 else 0
  {
    KillsSnoc(hs, g, done, from);
    var more: seq<Action> := if done(g, from + |hs|) then [] else [Send(g, KILL)];
    CountConcat(Kills(hs, done, from), more, Send(h, KILL));
    assert more != [] ==> more[..0] == [];
  }

  /** The number of places of `h` among the first `n` of `hs` at which its kill check finds it alive. */
  function LiveAmong(hs: seq<nat>, done: Probes, from: nat, h: nat, n: nat): nat
    requires n <= |hs|
  {
    if n == 0 then 0
    else LiveAmong(hs, done, from, h, n - 1) + if hs[n - 1] == h && !done(h, from + n - 1) then 1 else 0
  }

  lemma {:induction false} LiveInFront(hs: seq<nat>, g: nat, done: Probes, from: nat, h: nat, n: nat)
    requires n <= |hs|
    ensures LiveAmong(hs + [g], done, from, h, n) == LiveAmong(hs, done, from, h, n)
  {
    if n > 0 {
      LiveInFront(hs, g, done, from, h, n - 1);
    }
  }

  lemma {:induction false} KillsAreLive(hs: seq<nat>, done: Probes, from: nat, h: nat)
    ensures Count(Kills(hs, done, from), Send(h, KILL)) == LiveAmong(hs, done, from, h, |hs|)
  {
    if hs != [] {
      var front, g := hs[..|hs|-1], hs[|hs|-1];
      KillsAreLive(front, done, from, h);
      assert hs == front + [g];
      CountKill(front, g, done, from, h);
      LiveInFront(front, g, done, from, h, |front|);
    }
  }

  lemma {:induction false} TargetsLive(
    run: Option<nat>, commands: seq<Command>, hs: seq<nat>, done: Probes, from: nat, h: nat, n: nat)
    requires n <= |commands| && hs == Targets(run, commands) && Place(run, commands, n) <= |hs|
    ensures LiveAmong(hs, done, from, h, Place(run, commands, n)) == Alive(run, commands, done, from, h, n)
  {
    TargetsHold(run, commands);
    if n > 0 {
      TargetsLive(run, commands, hs, done, from, h, n - 1);
    }
  }

  /** Each of these checks sends one KILL, and nothing else does. */
  lemma KillsCounted(run: Option<nat>, runCancel: bool, commands: seq<Command>, done: Probes, last: nat, h: nat)
    requires ScanEnds(run, commands, done, last)
    ensures Count(Stop(run, runCancel, commands, done), Send(h, KILL)) ==
            Alive(run, commands, done, last + 1, h, |commands|)
  {
    var hs, k, n := Targets(run, commands), Send(h, KILL), last + 1;
    ScanEndsAt(run, commands, done, last);
    KillsAreLive(hs, done, n, h);
    TargetsHold(run, commands);
    TargetsLive(run, commands, hs, done, n, h, |commands|);
    TermsAre(hs, h, KILL);
    CancelsAre(runCancel, commands, k);
    CountNone(Terms(hs) + [Sleep], k);
    CountNone(Cancels(runCancel, commands), k);
    CountConcat(Terms(hs) + [Sleep], Kills(hs, done, n), k);
    CountConcat(Terms(hs) + [Sleep] + Kills(hs, done, n), Cancels(runCancel, commands), k);
  }

  /** How many of the first `n` of `hs` are found alive by their kill checks. */
  function LiveTo(hs: seq<nat>, done: Probes, from: nat, n: nat): nat
    requires n <= |hs|
  {
    if n == 0 then 0 else LiveTo(hs, done, from, n - 1) + if done(hs[n - 1], from + n - 1) then 0 else 1
  }

  lemma {:induction false} LiveToInFront(hs: seq<nat>, g: nat, done: Probes, from: nat, n: nat)
    requires n <= |hs|
    ensures LiveTo(hs + [g], done, from, n) == LiveTo(hs, done, from, n)
  {
    if n > 0 {
      LiveToInFront(hs, g, done, from, n - 1);
    }
  }

  lemma {:induction false} KillAt(hs: seq<nat>, done: Probes, from: nat, p: nat)
    requires p < |hs|
    ensures |Kills(hs, done, from)| == LiveTo(hs, done, from, |hs|)
    ensures !done(hs[p], from + p) ==>
              && LiveTo(hs, done, from, p) < |Kills(hs, done, from)|
              && Kills(hs, done, from)[LiveTo(hs, done, from, p)] == Send(hs[p], KILL)
  {
    var front, g := hs[..|hs|-1], hs[|hs|-1];
    assert hs == front + [g];
    KillsSnoc(front, g, done, from);
    LiveToInFront(front, g, done, from, |front|);
    LiveToInFront(front, g, done, from, p);
    if front != [] {
      KillAt(front, done, from, if p < |front| then p else 0);
    }
  }

  /** How many handles before command `n`, the run's included, are found alive by their kill checks. */
  function AliveBefore(run: Option<nat>, commands: seq<Command>, done: Probes, from: nat, n: nat): nat
    requires n <= |commands|
  {
    if n == 0 then (if run.Some? && !done(run.value, from) then 1 else 0)
    else
      var g := commands[n - 1].handle;
      AliveBefore(run, commands, done, from, n - 1)
      + if g.Some? && !done(g.value, from + Place(run, commands, n - 1)) then 1 else 0
  }

  lemma {:induction false} TargetsLiveTo(
    run: Option<nat>, commands: seq<Command>, hs: seq<nat>, done: Probes, from: nat, n: nat)
    requires n <= |commands| && hs == Targets(run, commands) && Place(run, commands, n) <= |hs|
    ensures LiveTo(hs, done, from, Place(run, commands, n)) == AliveBefore(run, commands, done, from, n)
  {
    TargetsHold(run, commands);
    if n > 0 {
      TargetsLiveTo(run, commands, hs, done, from, n - 1);
    }
  }

  lemma KillPart(terms: seq<Action>, kills: seq<Action>, cancels: seq<Action>, k: nat)
    requires k < |kills|
    ensures (terms + [Sleep] + kills + cancels)[|terms| + 1 + k] == kills[k]
  {}

  predicate SentAt(acts: seq<Action>, k: nat, act: Action) {
    k < |acts| && acts[k] == act
  }

  /** A handle alive at its kill check is sent KILL behind those alive before it. */
  lemma KilledInTurn(hs: seq<nat>, done: Probes, cancels: seq<Action>, n: nat, p: nat)
    requires p < |hs| && !done(hs[p], n + p)
    ensures SentAt(Terms(hs) + [Sleep] + Kills(hs, done, n) + cancels,
                   |hs| + 1 + LiveTo(hs, done, n, p), Send(hs[p], KILL))
  {
    KillAt(hs, done, n, p);
    KillPart(Terms(hs), Kills(hs, done, n), cancels, LiveTo(hs, done, n, p));
  }

  lemma StopWithKills(run: Option<nat>, runCancel: bool, commands: seq<Command>, done: Probes, last: nat)
    requires ScanEnds(run, commands, done, last)
    ensures var hs := Targets(run, commands);
            Stop(run, runCancel, commands, done) ==
            Terms(hs) + [Sleep] + Kills(hs, done, last + 1) + Cancels(runCancel, commands)
  {
    ScanEndsAt(run, commands, done, last);
  }

  /** The first KILL after the pause goes to the run, if it is still alive. */
  lemma RunKilledFirst(run: Option<nat>, runCancel: bool, commands: seq<Command>, done: Probes, last: nat)
    requires ScanEnds(run, commands, done, last) && run.Some? && !done(run.value, last + 1)
    ensures SentAt(Stop(run, runCancel, commands, done), Place(run, commands, |commands|) + 1, Send(run.value, KILL))
  {
    TargetsHold(run, commands);
    StopWithKills(run, runCancel, commands, done, last);
    KilledInTurn(Targets(run, commands), done, Cancels(runCancel, commands), last + 1, 0);
  }

  lemma TargetOf(run: Option<nat>, commands: seq<Command>, i: nat)
    requires i < |commands| && commands[i].handle.Some?
    ensures var hs, p := Targets(run, commands), Place(run, commands, i);
            |hs| == Place(run, commands, |commands|) && p < |hs| && hs[p] == commands[i].handle.value
  {
    TargetsHold(run, commands);
  }

  lemma CommandKilled(run: Option<nat>, commands: seq<Command>, done: Probes, cancels: seq<Action>,
                      acts: seq<Action>, n: nat, i: nat)
    requires acts == Terms(Targets(run, commands)) + [Sleep] + Kills(Targets(run, commands), done, n) + cancels
    requires i < |commands| && commands[i].handle.Some?
    requires !done(commands[i].handle.value, n + Place(run, commands, i))
    ensures SentAt(acts, Place(run, commands, |commands|) + 1 + AliveBefore(run, commands, done, n, i),
                   Send(commands[i].handle.value, KILL))
  {
    TargetOf(run, commands, i);
    TargetsLiveTo(run, commands, Targets(run, commands), done, n, i);
    KilledInTurn(Targets(run, commands), done, cancels, n, Place(run, commands, i));
  }

  /** The KILLs for the commands follow in order. */
  lemma KillsInOrder(run: Option<nat>, runCancel: bool, commands: seq<Command>, done: Probes, last: nat, i: nat)
    requires ScanEnds(run, commands, done, last) && i < |commands| && commands[i].handle.Some?
    requires !done(commands[i].handle.value, last + 1 + Place(run, commands, i))
    ensures SentAt(Stop(run, runCancel, commands, done),
                   Place(run, commands, |commands|) + 1 + AliveBefore(run, commands, done, last + 1, i),
                   Send(commands[i].handle.value, KILL))
  {
    var acts := Stop(run, runCancel, commands, done);
    StopWithKills(run, runCancel, commands, done, last);
    CommandKilled(run, commands, done, Cancels(runCancel, commands), acts, last + 1, i);
  }

  /** The run's cancel function is called first, then each command's once, in order. */
  lemma {:induction false} CancelsInOrder(runCancel: bool, commands: seq<Command>)
    ensures var acts := Cancels(runCancel, commands);
            && (runCancel ==> acts != [] && acts[0] == CancelRun)
            && (forall j :: 0 < j < |acts| ==> acts[j].CancelCommand?)
            && (forall i, j :: 0 <= i < j < |acts| && acts[i].CancelCommand? ==> acts[i].index < acts[j].index)
  {
    if commands != [] {
      var n := |commands| - 1;
      var front := Cancels(runCancel, commands[..n]);
      CancelsInOrder(runCancel, commands[..n]);
      forall i | 0 <= i < |front| ensures front[i].CancelCommand? ==> front[i].index < n {
        CancelsAre(runCancel, commands[..n], front[i]);
      }
      if commands[n].cancellable && front != [] {
        assert forall i :: 0 <= i < |front| ==> front[i] in front;
      }
    }
  }

  lemma AnyLiveSnoc(hs: seq<nat>, h: nat, done: Probes)
    ensures AnyLive(hs + [h], done) <==> AnyLive(hs, done) || !done(h, |hs|)
    ensures ScanLength(hs + [h], done) == if AnyLive(hs, done) then ScanLength(hs, done) else |hs| + 1
  {
    var hs' := hs + [h];
    assert hs'[..|hs|] == hs;
  }

  /** What the scan knows after probing the given handles. */
  ghost predicate Scanned(hs: seq<nat>, done: Probes, kill: bool, probes: nat) {
    kill == AnyLive(hs, done) && probes == ScanLength(hs, done) && (!kill ==> probes == |hs|)
  }

  /** The scan's round for one handle. */
  method Probe(ghost hs: seq<nat>, h: nat, done: Probes, kill: bool, probes: nat) returns (kill': bool, probes': nat)
    requires Scanned(hs, done, kill, probes)
    ensures Scanned(hs + [h], done, kill', probes')
  {
    AnyLiveSnoc(hs, h, done);
    if kill { return kill, probes; }
    return !done(h, probes), probes + 1;
  }

  /** The scan that decides whether anything has to be killed; `probes` counts its completion checks. */
  method ShouldKill(run: Option<nat>, commands: seq<Command>, done: Probes) returns (kill: bool, probes: nat)
    ensures kill == AnyLive(Targets(run, commands), done)
    ensures probes == ScanLength(Targets(run, commands), done)
    ensures kill <==> FoundAlive(run, commands, done)
  {
    FoundAliveIff(run, commands, done);
    kill, probes := false, 0;
    assert Targets(run, []) == if run.Some? then [run.value] else [];
    if run.Some? {
      kill, probes := Probe([], run.value, done, kill, probes);
      assert [] + [run.value] == [run.value];
    }
    assert commands[..0] == [];
    for n := 0 to |commands|
      invariant Scanned(Targets(run, commands[..n]), done, kill, probes)
    {
      TargetsSnoc(run, commands, n);
      if commands[n].handle.Some? {
        kill, probes := Probe(Targets(run, commands[..n]), commands[n].handle.value, done, kill, probes);
      } else {
        assert Targets(run, commands[..n]) + [] == Targets(run, commands[..n]);
      }
    }
    assert commands[..|commands|] == commands;
  }

  method SendTerms(run: Option<nat>, commands: seq<Command>) returns (acts: seq<Action>)
    ensures acts == Terms(Targets(run, commands))
  {
    acts := [];
    if run.Some? {
      acts := [Send(run.value, TERM)];
    }
    assert commands[..0] == [];
    for n := 0 to |commands|
      invariant acts == Terms(Targets(run, commands[..n]))
    {
      assert commands[..n+1][..n] == commands[..n];
      if commands[n].handle.None? { continue; }
      acts := acts + [Send(commands[n].handle.value, TERM)];
    }
    assert commands[..|commands|] == commands;
  }

  /** One kill check; `made` counts those before it. */
  method KillCheck(ghost hs: seq<nat>, h: nat, done: Probes, from: nat, made: nat, acts0: seq<Action>)
    returns (acts: seq<Action>)
    requires made == |hs| && acts0 == Kills(hs, done, from)
    ensures acts == Kills(hs + [h], done, from)
  {
    KillsSnoc(hs, h, done, from);
    acts := acts0;
    if !done(h, from + made) {
      acts := acts + [Send(h, KILL)];
    }
  }

  /** What has been sent for the given handles, after as many kill checks. */
  ghost predicate Checked(hs: seq<nat>, done: Probes, from: nat, kill: bool, made: nat, acts: seq<Action>) {
    if kill then made == |hs| && acts == Kills(hs, done, from) else acts == []
  }

  /** The kill checks of `stopTabHandles`, which probe only when the scan found someone alive. */
  method SendKills(run: Option<nat>, commands: seq<Command>, done: Probes, kill: bool, probes: nat)
    returns (acts: seq<Action>)
    ensures acts == if kill then Kills(Targets(run, commands), done, probes) else []
  {
    acts := [];
    var made := 0;
    assert Targets(run, []) == if run.Some? then [run.value] else [];
    if run.Some? && kill {
      acts := KillCheck([], run.value, done, probes, made, acts);
      made := 1;
      assert [] + [run.value] == [run.value];
    }
    assert commands[..0] == [];
    for n := 0 to |commands|
      invariant Checked(Targets(run, commands[..n]), done, probes, kill, made, acts)
    {
      TargetsSnoc(run, commands, n);
      assert Targets(run, commands[..n]) + [] == Targets(run, commands[..n]);
      if commands[n].handle.None? { continue; }
      if kill {
        acts := KillCheck(Targets(run, commands[..n]), commands[n].handle.value, done, probes, made, acts);
        made := made + 1;
      }
    }
    assert commands[..|commands|] == commands;
  }

  /** The kill checks as `stopTabHandlesAsync` makes them. */
  method SendKillsAsync(run: Option<nat>, commands: seq<Command>, done: Probes, kill: bool, probes: nat)
    returns (acts: seq<Action>)
    ensures acts == if kill then Kills(Targets(run, commands), done, probes) else []
  {
    acts := [];
    var made := 0;
    assert Targets(run, []) == if run.Some? then [run.value] else [];
    if run.Some? {
      if kill {
        acts := KillCheck([], run.value, done, probes, made, acts);
        made := 1;
        assert [] + [run.value] == [run.value];
      }
    }
    assert commands[..0] == [];
    for n := 0 to |commands|
      invariant Checked(Targets(run, commands[..n]), done, probes, kill, made, acts)
    {
      TargetsSnoc(run, commands, n);
      if commands[n].handle.Some? {
        if kill {
          acts := KillCheck(Targets(run, commands[..n]), commands[n].handle.value, done, probes, made, acts);
          made := made + 1;
        }
      } else {
        assert Targets(run, commands[..n]) + [] == Targets(run, commands[..n]);
      }
    }
    assert commands[..|commands|] == commands;
  }

  method SendCancels(runCancel: bool, commands: seq<Command>) returns (acts: seq<Action>)
    ensures acts == Cancels(runCancel, commands)
  {
    acts := if runCancel then [CancelRun] else [];
    assert commands[..0] == [];
    for n := 0 to |commands|
      invariant acts == Cancels(runCancel, commands[..n])
    {
      assert commands[..n+1][..n] == commands[..n];
      if commands[n].cancellable {
        acts := acts + [CancelCommand(n)];
      }
    }
    assert commands[..|commands|] == commands;
  }

  /** `stopTabHandles`, run when a tab is closed. */
  method StopTabHandles(run: Option<nat>, runCancel: bool, commands: seq<Command>, done: Probes)
    returns (acts: seq<Action>)
    ensures acts == Stop(run, runCancel, commands, done)
  {
    acts := SendTerms(run, commands);
    acts := acts + [Sleep];
    var kill, probes := ShouldKill(run, commands, done);
    var kills := SendKills(run, commands, done, kill, probes);
    var cancels := SendCancels(runCancel, commands);
    acts := acts + kills + cancels;
  }

  /** `stopTabHandlesAsync`, run on a stop request; it also tells the tab when it is about to kill. */
  method StopTabHandlesAsync(run: Option<nat>, runCancel: bool, commands: seq<Command>, done: Probes)
    returns (acts: seq<Action>, announced: bool)
    ensures acts == Stop(run, runCancel, commands, done)
    ensures announced <==> FoundAlive(run, commands, done)
  {
    acts := SendTerms(run, commands);
    acts := acts + [Sleep];
    var kill, probes := ShouldKill(run, commands, done);
    announced := kill;
    var kills := SendKillsAsync(run, commands, done, kill, probes);
    acts := acts + kills;
    var cancels := SendCancels(runCancel, commands);
    acts := acts + cancels;
  }
}
