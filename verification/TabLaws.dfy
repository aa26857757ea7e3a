/** What every run of the tab service keeps: run status, session ids, closed tabs, save and load. */
module TabLaws {
  import opened Text
  import opened Seqs
  import opened TabService

  /** What a step did to one tab object, as seen from outside. */
  datatype Event =
    | Installed(ref: nat, handle: nat)
    | Finished(ref: nat, handle: nat)
    | Captured(ref: nat, thread: string)
    | Renewed(ref: nat)
    | Quiet

  /** Steps on ids that are not open, prompts rejected by the runner and renewals of a busy tab are quiet. */
  function EventOf(s: State, step: Step): Event
    requires s.Wf()
  {
    match step
    case Install(r, h) => if r < |s.objs| && h !in s.handles then Installed(r, h) else Quiet
    case OnTab(id, op) =>
      if id !in s.tabs then Quiet
      else (match op
            case Finish(h) => Finished(s.tabs[id], h)
            case Capture(t) => if t != "" then Captured(s.tabs[id], t) else Quiet
            case Renew => if s.At(id).status == Running then Quiet else Renewed(s.tabs[id])
            case _ => Quiet)
    case _ => Quiet
  }

  /** What the steps of a life that starts in `s0` did. */
  function Log(s0: State, cfg: Config, steps: seq<Step>): seq<Event>
    requires s0.Wf()
  {
    if steps == [] then []
    else
      var front := steps[..|steps|-1];
      Log(s0, cfg, front) + [EventOf(Exec(s0, cfg, front), steps[|steps|-1])]
  }

  /** A state in which a life can start: no run is installed on any tab. */
  predicate NoRuns(s0: State) {
    forall i :: 0 <= i < |s0.objs| ==> s0.objs[i].run == None
  }

  /** A life starts without tabs or with what was loaded, whatever that was. */
  lemma LivesStartIdle(snap: Snapshot, cfg: Config)
    requires Normal(cfg)
    ensures NoRuns(Init(cfg)) && Bounded(Init(cfg), cfg)
    ensures NoRuns(Load(snap, cfg)) && Bounded(Load(snap, cfg), cfg)
  {
    forall i | 0 <= i < |snap.tabs| ensures TabOk(LoadTab(snap.tabs[i], cfg), cfg) {
      assert DEFAULT_EFFORT[0] == 'm';
    }
  }

  lemma {:induction false} StaysBounded(s0: State, cfg: Config, steps: seq<Step>)
    requires Normal(cfg) && s0.Wf() && Bounded(s0, cfg)
    ensures Bounded(Exec(s0, cfg, steps), cfg)
  {
    if steps != [] {
      StaysBounded(s0, cfg, steps[..|steps|-1]);
      StepKeepsBounded(Exec(s0, cfg, steps[..|steps|-1]), cfg, steps[|steps|-1]);
    }
  }

  // ----- Run status -----

  /** `h` was the last run installed on `r`, and has not finished since. */
  ghost predicate Ongoing(log: seq<Event>, r: nat, h: nat) {
    exists i :: 0 <= i < |log| && log[i] == Installed(r, h)
      && forall j :: i < j < |log| ==> log[j] != Finished(r, h) && !(log[j].Installed? && log[j].ref == r)
  }

  lemma OngoingSnoc(log: seq<Event>, e: Event, r: nat, h: nat)
    ensures Ongoing(log + [e], r, h) <==>
            e == Installed(r, h) || (Ongoing(log, r, h) && e != Finished(r, h) && !(e.Installed? && e.ref == r))
  {
    var log' := log + [e];
    if Ongoing(log, r, h) && e != Finished(r, h) && !(e.Installed? && e.ref == r) {
      var i :| 0 <= i < |log| && log[i] == Installed(r, h)
        && forall j :: i < j < |log| ==> log[j] != Finished(r, h) && !(log[j].Installed? && log[j].ref == r);
      assert log'[i] == Installed(r, h);
    }
    if e == Installed(r, h) {
      assert log'[|log|] == e;
    }
    if Ongoing(log', r, h) {
      var i :| 0 <= i < |log'| && log'[i] == Installed(r, h)
        && forall j :: i < j < |log'| ==> log'[j] != Finished(r, h) && !(log'[j].Installed? && log'[j].ref == r);
      if i < |log| {
        assert log[i] == Installed(r, h) && log'[|log|] == e;
        assert forall j :: i < j < |log| ==> log[j] == log'[j];
      }
    }
  }

  /** Only an install and the finish of the installed run touch a tab's run. */
  lemma RunStep(s: State, cfg: Config, step: Step, r: nat, h: nat)
    requires s.Wf() && r < |Apply(s, cfg, step).objs|
    ensures var e := EventOf(s, step);
            Apply(s, cfg, step).objs[r].run == Some(h) <==>
              || e == Installed(r, h)
              || (r < |s.objs| && s.objs[r].run == Some(h) && e != Finished(r, h) && !(e.Installed? && e.ref == r))
  {
    if step.OnTab? && step.id in s.tabs && s.tabs[step.id] == r {
      assert Apply(s, cfg, step).objs[r] == Update(s.At(step.id), step.op);
    }
  }

  lemma {:induction false} NothingOngoing(s0: State, cfg: Config, steps: seq<Step>, r: nat, h: nat)
    requires s0.Wf() && r >= |Exec(s0, cfg, steps).objs|
    ensures !Ongoing(Log(s0, cfg, steps), r, h)
  {
    if steps != [] {
      var front := steps[..|steps|-1];
      ObjsGrow(Exec(s0, cfg, front), cfg, steps[|steps|-1]);
      NothingOngoing(s0, cfg, front, r, h);
      OngoingSnoc(Log(s0, cfg, front), EventOf(Exec(s0, cfg, front), steps[|steps|-1]), r, h);
    }
  }

  lemma ObjsGrow(s: State, cfg: Config, step: Step)
    requires s.Wf()
    ensures |s.objs| <= |Apply(s, cfg, step).objs|
  {}

  /**
    However prompts overlap, a tab object runs exactly the last run installed on it, until that very run
    finishes while the tab is open; the finish of an older run changes nothing.
   */
  lemma {:induction false} RunIsLastInstalled(s0: State, cfg: Config, steps: seq<Step>, r: nat, h: nat)
    requires s0.Wf() && NoRuns(s0) && r < |Exec(s0, cfg, steps).objs|
    ensures Exec(s0, cfg, steps).objs[r].run == Some(h) <==> Ongoing(Log(s0, cfg, steps), r, h)
  {
    if steps != [] {
      var front, last := steps[..|steps|-1], steps[|steps|-1];
      var s := Exec(s0, cfg, front);
      if r < |s.objs| {
        RunIsLastInstalled(s0, cfg, front, r, h);
      } else {
        NothingOngoing(s0, cfg, front, r, h);
      }
      RunStep(s, cfg, last, r, h);
      OngoingSnoc(Log(s0, cfg, front), EventOf(s, last), r, h);
    }
  }

  /** A tab is Running exactly while some run is ongoing on it. */
  lemma RunningIffOngoing(s0: State, cfg: Config, steps: seq<Step>, r: nat)
    requires Normal(cfg) && s0.Wf() && NoRuns(s0) && Bounded(s0, cfg) && r < |Exec(s0, cfg, steps).objs|
    ensures Exec(s0, cfg, steps).objs[r].status == Running <==>
            exists h: nat :: Ongoing(Log(s0, cfg, steps), r, h)
  {
    StaysBounded(s0, cfg, steps);
    var t := Exec(s0, cfg, steps).objs[r];
    assert TabOk(t, cfg);
    forall h: nat ensures t.run == Some(h) <==> Ongoing(Log(s0, cfg, steps), r, h) {
      RunIsLastInstalled(s0, cfg, steps, r, h);
    }
    if t.run.Some? {
      assert Ongoing(Log(s0, cfg, steps), r, t.run.value);
    }
  }

  // ----- Session ids -----

  /** Every thread captured on `r` in the first `n` events was given up by a later renewal. */
  ghost predicate NoThread(log: seq<Event>, n: nat, r: nat)
    requires n <= |log|
  {
    forall j :: 0 <= j < n && log[j].Captured? && log[j].ref == r ==>
      exists m :: j < m < n && log[m] == Renewed(r)
  }

  /** `t` was the first thread captured on `r` after its last renewal. */
  ghost predicate FirstThread(log: seq<Event>, r: nat, t: string) {
    exists i :: 0 <= i < |log| && log[i] == Captured(r, t) && NoThread(log, i, r)
      && forall j :: i < j < |log| ==> log[j] != Renewed(r)
  }

  lemma NoThreadPrefix(log: seq<Event>, e: Event, n: nat, r: nat)
    requires n <= |log|
    ensures NoThread(log + [e], n, r) <==> NoThread(log, n, r)
  {
    var log' := log + [e];
    assert forall j :: 0 <= j < n ==> log'[j] == log[j];
    if NoThread(log, n, r) {
      forall j | 0 <= j < n && log'[j].Captured? && log'[j].ref == r
        ensures exists m :: j < m < n && log'[m] == Renewed(r)
      {
        var m :| j < m < n && log[m] == Renewed(r);
        assert log'[m] == Renewed(r);
      }
    }
    if NoThread(log', n, r) {
      forall j | 0 <= j < n && log[j].Captured? && log[j].ref == r
        ensures exists m :: j < m < n && log[m] == Renewed(r)
      {
        var m :| j < m < n && log'[m] == Renewed(r);
        assert log[m] == Renewed(r);
      }
    }
  }

  lemma NoThreadSnoc(log: seq<Event>, e: Event, r: nat)
    ensures NoThread(log + [e], |log| + 1, r) <==>
            e == Renewed(r) || (NoThread(log, |log|, r) && !(e.Captured? && e.ref == r))
  {
    var log' := log + [e];
    assert log'[|log|] == e;
    if e == Renewed(r) {
      forall j | 0 <= j < |log'| && log'[j].Captured? && log'[j].ref == r
        ensures exists m :: j < m < |log'| && log'[m] == Renewed(r)
      {
        assert log'[|log|] == Renewed(r) && j < |log|;
      }
    } else {
      NoThreadPrefix(log, e, |log|, r);
      if NoThread(log', |log| + 1, r) {
        forall j | 0 <= j < |log| && log'[j].Captured? && log'[j].ref == r
          ensures exists m :: j < m < |log| && log'[m] == Renewed(r)
        {
          var m :| j < m < |log| + 1 && log'[m] == Renewed(r);
          assert m != |log|;
        }
        assert NoThread(log', |log|, r);
      }
    }
  }

  lemma FirstThreadSnoc(log: seq<Event>, e: Event, r: nat, t: string)
    ensures FirstThread(log + [e], r, t) <==>
            || (e == Captured(r, t) && NoThread(log, |log|, r))
            || (FirstThread(log, r, t) && e != Renewed(r))
  {
    var log' := log + [e];
    assert log'[|log|] == e;
    forall n | 0 <= n <= |log| ensures NoThread(log', n, r) <==> NoThread(log, n, r) {
      NoThreadPrefix(log, e, n, r);
    }
    if FirstThread(log, r, t) && e != Renewed(r) {
      var i :| 0 <= i < |log| && log[i] == Captured(r, t) && NoThread(log, i, r)
        && forall j :: i < j < |log| ==> log[j] != Renewed(r);
      assert log'[i] == Captured(r, t);
    }
    if FirstThread(log', r, t) {
      var i :| 0 <= i < |log'| && log'[i] == Captured(r, t) && NoThread(log', i, r)
        && forall j :: i < j < |log'| ==> log'[j] != Renewed(r);
      if i < |log| {
        assert log[i] == Captured(r, t);
        assert forall j :: i < j < |log| ==> log[j] == log'[j];
      }
    }
  }

  lemma SessionStep(s: State, cfg: Config, step: Step, r: nat)
    requires s.Wf() && r < |Apply(s, cfg, step).objs|
    ensures var e := EventOf(s, step);
            var before := if r < |s.objs| then s.objs[r].session else "";
            Apply(s, cfg, step).objs[r].session ==
              if e == Renewed(r) then ""
              else if e.Captured? && e.ref == r && before == "" then e.thread
              else before
  {
    if step.OnTab? && step.id in s.tabs && s.tabs[step.id] == r {
      assert Apply(s, cfg, step).objs[r] == Update(s.At(step.id), step.op);
    }
  }

  function SessionOf(s: State, r: nat): string {
    if r < |s.objs| then s.objs[r].session else ""
  }

  /** The log of a life, with the session id the tab was loaded with, if any, as its first thread. */
  function LogSince(s0: State, cfg: Config, steps: seq<Step>, r: nat): seq<Event>
    requires s0.Wf()
  {
    (if SessionOf(s0, r) == "" then [] else [Captured(r, SessionOf(s0, r))]) + Log(s0, cfg, steps)
  }

  lemma LogSinceSnoc(s0: State, cfg: Config, steps: seq<Step>, r: nat)
    requires s0.Wf() && steps != []
    ensures var front := steps[..|steps|-1];
            var e := EventOf(Exec(s0, cfg, front), steps[|steps|-1]);
            LogSince(s0, cfg, steps, r) == LogSince(s0, cfg, front, r) + [e]
  {}

  lemma LoadedThread(r: nat, t: string, loaded: string)
    requires t != ""
    ensures var log := if loaded == "" then [] else [Captured(r, loaded)];
            (loaded == t <==> FirstThread(log, r, t)) && (loaded == "" <==> NoThread(log, |log|, r))
  {
    if loaded != "" {
      var log := [Captured(r, loaded)];
      assert log[0] == Captured(r, loaded) && NoThread(log, 0, r);
    }
  }

  /**
    A tab's session id is the first thread id seen since it was last renewed while idle, the id it was loaded
    with being the first of all, and empty when there is none.
   */
  lemma {:induction false} SessionIsFirstThread(s0: State, cfg: Config, steps: seq<Step>, r: nat, t: string)
    requires s0.Wf() && t != ""
    ensures var session, log := SessionOf(Exec(s0, cfg, steps), r), LogSince(s0, cfg, steps, r);
            && (session == t <==> FirstThread(log, r, t))
            && (session == "" <==> NoThread(log, |log|, r))
  {
    if steps == [] {
      LoadedThread(r, t, SessionOf(s0, r));
      var seed: seq<Event> := if SessionOf(s0, r) == "" then [] else [Captured(r, SessionOf(s0, r))];
      ConcatEmpty(seed);
    } else {
      var front, last := steps[..|steps|-1], steps[|steps|-1];
      var s, log := Exec(s0, cfg, front), LogSince(s0, cfg, front, r);
      SessionIsFirstThread(s0, cfg, front, r, t);
      LogSinceSnoc(s0, cfg, steps, r);
      SessionFollows(s, cfg, last, r, t, log);
    }
  }

  /** One step keeps session id and log together. */
  lemma SessionFollows(s: State, cfg: Config, step: Step, r: nat, t: string, log: seq<Event>)
    requires s.Wf() && t != ""
    requires (SessionOf(s, r) == t <==> FirstThread(log, r, t)) && (SessionOf(s, r) == "" <==> NoThread(log, |log|, r))
    ensures var session, log' := SessionOf(Apply(s, cfg, step), r), log + [EventOf(s, step)];
            && (session == t <==> FirstThread(log', r, t))
            && (session == "" <==> NoThread(log', |log'|, r))
  {
    var e := EventOf(s, step);
    NoThreadSnoc(log, e, r);
    FirstThreadSnoc(log, e, r, t);
    if r < |Apply(s, cfg, step).objs| {
      SessionStep(s, cfg, step, r);
      if FirstThread(log, r, t) { FirstThreadExcludes(log, r, t); }
    } else {
      ObjsGrow(s, cfg, step);
    }
  }

  lemma FirstThreadExcludes(log: seq<Event>, r: nat, t: string)
    requires FirstThread(log, r, t)
    ensures !NoThread(log, |log|, r)
  {}

  // ----- Closed tabs -----

  /** A closed tab never comes back, whatever prompt was in flight on it. */
  lemma {:induction false} ClosedStaysClosed(s: State, cfg: Config, steps: seq<Step>, id: string)
    requires s.Wf() && id in s.used && id !in s.tabs
    ensures var s' := Exec(s, cfg, steps); id !in s'.tabs && id in s'.used
  {
    if steps != [] {
      ClosedStaysClosed(s, cfg, steps[..|steps|-1], id);
    }
  }

  // ----- Save and load -----

  /** What saving and loading leave of a tab: its runs and its usage are gone. */
  function Quiesced(t: Tab): Tab {
    t.(status := Idle, run := None, cancel := None, usage := None, commands := [])
  }

  lemma TabRoundTrip(t: Tab, cfg: Config)
    requires TabOk(t, cfg) && Normal(cfg)
    ensures LoadTab(SaveTab(t), cfg) == Quiesced(t)
  {
    SB.RestoreExport(t.buffer);
  }

  lemma {:induction false} SavedTabs(s: State, order: seq<string>)
    requires s.Wf() && forall id :: id in order ==> id in s.tabs
    ensures |SaveTabs(s, order)| == |order|
    ensures forall i :: 0 <= i < |order| ==> SaveTabs(s, order)[i] == SaveTab(s.At(order[i]))
  {
    if order != [] {
      SavedTabs(s, order[..|order|-1]);
    }
  }

  lemma {:induction false} LoadedDomain(snaps: seq<TabSnap>)
    ensures LoadIndex(snaps).Keys == set id | id in Ids(snaps)
  {
    if snaps != [] {
      var front := Ids(snaps[..|snaps|-1]);
      LoadedDomain(snaps[..|snaps|-1]);
      assert Ids(snaps) == front + [snaps[|snaps|-1].id];
    }
  }

  lemma {:induction false} LoadedIndex(snaps: seq<TabSnap>)
    requires Distinct(Ids(snaps))
    ensures forall i :: 0 <= i < |snaps| ==> snaps[i].id in LoadIndex(snaps) && LoadIndex(snaps)[snaps[i].id] == i
  {
    if snaps != [] {
      LoadedIndex(snaps[..|snaps|-1]);
      assert forall i :: 0 <= i < |snaps| ==> Ids(snaps)[i] == snaps[i].id;
    }
  }

  lemma {:induction false} KnownAll(order: seq<string>, index: map<string, nat>)
    requires forall id :: id in order ==> id in index
    ensures Known(order, index) == order
  {
    if order != [] {
      KnownAll(order[..|order|-1], index);
    }
  }

  /** A valid state saves its tabs in order. */
  lemma SavedInOrder(s: State, cfg: Config)
    requires Inv(s, cfg)
    ensures Ids(SaveTabs(s, s.order)) == s.order
    ensures forall i :: 0 <= i < |s.order| ==> SaveTabs(s, s.order)[i] == SaveTab(s.At(s.order[i]))
  {
    SavedTabs(s, s.order);
    forall i | 0 <= i < |s.order| ensures SaveTabs(s, s.order)[i].id == s.order[i] {
      assert s.order[i] in s.tabs;
    }
  }

  lemma LoadedKeys(s: State, cfg: Config)
    requires Inv(s, cfg)
    ensures Load(Save(s), cfg).tabs.Keys == s.tabs.Keys && Load(Save(s), cfg).order == s.order
  {
    var index := LoadIndex(SaveTabs(s, s.order));
    SavedInOrder(s, cfg);
    LoadedDomain(SaveTabs(s, s.order));
    OrderedKeys(s.order, s.tabs, index);
    KnownAll(s.order, index);
    if s.order == [] {
      assert Ids(SaveTabs(s, s.order)) == [];
    }
  }

  lemma OrderedKeys(order: seq<string>, tabs: map<string, nat>, index: map<string, nat>)
    requires (forall id :: id in order <==> id in tabs) && index.Keys == set id | id in order
    ensures index.Keys == tabs.Keys && forall id :: id in order ==> id in index
  {
    forall id ensures id in index.Keys <==> id in tabs.Keys {
      assert id in index.Keys <==> id in order;
    }
    forall id | id in order ensures id in index {
      assert id in index.Keys;
    }
  }

  /** Where the tab at position `i` of the order ends up. */
  lemma LoadedTab(s: State, cfg: Config, i: nat)
    requires Normal(cfg) && Inv(s, cfg) && i < |s.order|
    ensures var l, id := Load(Save(s), cfg), s.order[i];
            && id in l.tabs && l.tabs[id] == i && |l.objs| == |s.order|
            && l.objs[i] == Quiesced(s.At(id)) && TabOk(l.objs[i], cfg) && l.objs[i].id == id
  {
    SavedInOrder(s, cfg);
    LoadedIndex(SaveTabs(s, s.order));
    TabRoundTrip(s.At(s.order[i]), cfg);
  }

  lemma LoadedById(s: State, cfg: Config, id: string)
    requires Normal(cfg) && Inv(s, cfg) && id in s.tabs
    ensures id in Load(Save(s), cfg).tabs && Load(Save(s), cfg).At(id) == Quiesced(s.At(id))
  {
    assert id in s.order;
    var i :| 0 <= i < |s.order| && s.order[i] == id;
    LoadedTab(s, cfg, i);
  }

  /** A state whose objects stand in tab order meets the invariant. */
  lemma InTabOrder(l: State, cfg: Config)
    requires Distinct(l.order) && |l.objs| == |l.order|
    requires forall i :: 0 <= i < |l.order| ==> l.order[i] in l.tabs && l.tabs[l.order[i]] == i
    requires forall i :: 0 <= i < |l.objs| ==> TabOk(l.objs[i], cfg) && l.objs[i].id == l.order[i]
    requires forall id :: id in l.tabs <==> id in l.order
    requires forall id :: id in l.order ==> id in l.used && id != ""
    requires l.system.Wf() && l.system.max == cfg.maxLines && l.views == [] && NoRuns(l) && l.theme != ""
    ensures Inv(l, cfg)
  {}

  /**
    Loading what was saved gives back every tab under its id with name, repo, model, effort, session,
    buffer, scroll offset and history, the tab order, the system buffer and the theme, all runs idle.
   */
  lemma LoadOfSave(s: State, cfg: Config)
    requires Normal(cfg) && Inv(s, cfg)
    ensures var l := Load(Save(s), cfg);
            && l.order == s.order && l.tabs.Keys == s.tabs.Keys
            && (forall id :: id in s.tabs ==> l.At(id) == Quiesced(s.At(id)))
            && l.system == s.system && l.theme == s.theme
  {
    LoadedKeys(s, cfg);
    SB.RestoreExport(s.system);
    var l := Load(Save(s), cfg);
    forall id | id in s.tabs ensures id in l.tabs && l.At(id) == Quiesced(s.At(id)) {
      LoadedById(s, cfg, id);
    }
  }

  /** A service restarted on what was saved starts in a state of the invariant. */
  lemma RestartKeepsInv(s: State, cfg: Config)
    requires Normal(cfg) && Inv(s, cfg)
    ensures Inv(Load(Save(s), cfg), cfg)
  {
    var l := Load(Save(s), cfg);
    SavedInOrder(s, cfg);
    LoadedKeys(s, cfg);
    SB.RestoreExport(s.system);
    forall i | 0 <= i < |s.order|
      ensures s.order[i] in l.tabs && l.tabs[s.order[i]] == i && TabOk(l.objs[i], cfg) && l.objs[i].id == s.order[i]
    {
      LoadedTab(s, cfg, i);
    }
    assert forall id :: id in l.tabs <==> id in l.tabs.Keys;
    InTabOrder(l, cfg);
  }

  /** The state after several lives of the service, each started on what the one before saved. */
  function Lives(cfg: Config, lives: seq<seq<Step>>): (s: State)
    ensures s.Wf()
  {
    if lives == [] then Init(cfg)
    else Exec(Load(Save(Lives(cfg, lives[..|lives|-1])), cfg), cfg, lives[|lives|-1])
  }

  lemma {:induction false} LivesKeepInv(cfg: Config, lives: seq<seq<Step>>)
    requires Normal(cfg)
    ensures Inv(Lives(cfg, lives), cfg)
  {
    if lives != [] {
      var before := Lives(cfg, lives[..|lives|-1]);
      LivesKeepInv(cfg, lives[..|lives|-1]);
      RestartKeepsInv(before, cfg);
      RunKeepsInv(Load(Save(before), cfg), cfg, lives[|lives|-1]);
    }
  }

  /** In every life of the service, what it saves loads back. */
  lemma ReachableLoadsBack(cfg: Config, lives: seq<seq<Step>>)
    requires Normal(cfg)
    ensures var s := Lives(cfg, lives);
            var l := Load(Save(s), cfg);
            && l.order == s.order && l.tabs.Keys == s.tabs.Keys
            && (forall id :: id in s.tabs ==> l.At(id) == Quiesced(s.At(id)))
            && l.system == s.system && l.theme == s.theme
  {
    LivesKeepInv(cfg, lives);
    LoadOfSave(Lives(cfg, lives), cfg);
  }
}
