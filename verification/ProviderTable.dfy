/** What each step does to the table and to an entry's stamp, told by key, and when a runner is idle. */
module ProviderTable {
  import opened Text
  import opened ProviderSpec
  import opened ProviderLaws

  // ----- The last use of an entry -----

  /** The time at which `step` uses entry `r`: its start succeeds, a caller is handed it, a run starts or ends. */
  function UsedAt(s: State, step: Step, r: nat): Option<int>
    requires s.Wf()
  {
    match step
    case Finish(x, ok, now) =>
      if x == r && ok && r < |s.entries| && s.entries[r].phase == Starting then Some(now) else None
    case Relock(user, tab, now) =>
      var k := KeyFor(s.scope, user, tab);
      if !Blank(user) && !Blank(tab) && k in s.table && s.table[k] == r && s.entries[r].phase != Failed
      then Some(now) else None
    case StartRun(k, now) => if k in s.table && s.table[k] == r then Some(now) else None
    case Release(i, now) =>
      if i < |s.runs| && !s.runs[i].released && s.runs[i].key in s.table && s.table[s.runs[i].key] == r
      then Some(now) else None
    case _ => None
  }

  /** The time of the last step that used entry `r`. */
  function LastUse(scope: Scope, steps: seq<Step>, r: nat): Option<int> {
    if steps == [] then None
    else
      var front := steps[..|steps|-1];
      var used := UsedAt(Exec(Init(scope), front), steps[|steps|-1], r);
      if used.Some? then used else LastUse(scope, front, r)
  }

  function Stamped(used: Option<int>): Stamp {
    if used.Some? then At(used.value) else Never
  }

  lemma StampStep(s: State, step: Step, r: nat)
    requires s.Wf() && r < |s.entries|
    ensures r < |Apply(s, step).entries|
    ensures Apply(s, step).entries[r].lastUsed ==
            if UsedAt(s, step, r).Some? then At(UsedAt(s, step, r).value) else s.entries[r].lastUsed
  {}

  lemma NewStep(s: State, step: Step, r: nat)
    requires s.Wf() && r >= |s.entries|
    ensures UsedAt(s, step, r) == None && |s.entries| <= |Apply(s, step).entries|
    ensures r < |Apply(s, step).entries| ==> Apply(s, step).entries[r].lastUsed == Never
  {}

  lemma {:induction false} NeverUsed(scope: Scope, steps: seq<Step>, r: nat)
    requires r >= |Exec(Init(scope), steps).entries|
    ensures LastUse(scope, steps, r) == None
  {
    if steps != [] {
      EntriesGrow(Exec(Init(scope), steps[..|steps|-1]), steps[|steps|-1]);
      NewStep(Exec(Init(scope), steps[..|steps|-1]), steps[|steps|-1], r);
      NeverUsed(scope, steps[..|steps|-1], r);
    }
  }

  lemma EntriesGrow(s: State, step: Step)
    requires s.Wf()
    ensures |s.entries| <= |Apply(s, step).entries|
  {}

  /** An entry's stamp is the time of its last use. */
  lemma {:induction false} StampIsLastUse(scope: Scope, steps: seq<Step>, r: nat)
    requires r < |Exec(Init(scope), steps).entries|
    ensures Exec(Init(scope), steps).entries[r].lastUsed == Stamped(LastUse(scope, steps, r))
  {
    var front, step := steps[..|steps|-1], steps[|steps|-1];
    var s := Exec(Init(scope), front);
    if r < |s.entries| {
      StampIsLastUse(scope, front, r);
      StampStep(s, step, r);
    } else {
      NeverUsed(scope, front, r);
      NewStep(s, step, r);
    }
  }

  lemma SweepByKey(s: State, k: Key, now: int, idle: int)
    requires s.Wf() && k in s.table
    ensures var s', e := Apply(s, Sweep(now, idle)), s.At(k);
            && (k !in s'.table <==>
                e.phase != Starting && e.running == 0 && idle > 0
                && (e.lastUsed == Never || now - e.lastUsed.time >= idle))
            && (k in s'.table ==> s'.table[k] == s.table[k] && s'.At(k) == e)
            && (k !in s'.table ==> s.table[k] in s'.stopping)
  {}

  /**
    The idle sweep takes out exactly the entries that are not starting, count no run and were last used at
    least `idle` ago; the others keep their entry.
   */
  lemma SweptIff(scope: Scope, steps: seq<Step>, k: Key, now: int, idle: int)
    requires k in Exec(Init(scope), steps).table
    ensures var s := Exec(Init(scope), steps);
            var s', used := Apply(s, Sweep(now, idle)), LastUse(scope, steps, s.table[k]);
            && (k !in s'.table <==>
                s.At(k).phase != Starting && s.At(k).running == 0 && idle > 0
                && (used.None? || now - used.value >= idle))
            && (k in s'.table ==> s'.table[k] == s.table[k] && s'.At(k) == s.At(k))
            && (k !in s'.table ==> s.table[k] in s'.stopping)
  {
    var s := Exec(Init(scope), steps);
    StampIsLastUse(scope, steps, s.table[k]);
    SweepByKey(s, k, now, idle);
  }

  /** A runner used less than `idle` ago is not swept. */
  lemma RecentlyUsedIsKept(scope: Scope, steps: seq<Step>, k: Key, t: int, now: int, idle: int)
    requires k in Exec(Init(scope), steps).table
    requires LastUse(scope, steps, Exec(Init(scope), steps).table[k]) == Some(t) && now - t < idle
    ensures k in Apply(Exec(Init(scope), steps), Sweep(now, idle)).table
  {
    SweptIff(scope, steps, k, now, idle);
  }

  /** One that has not been used for `idle`, counts no run and is not starting is. */
  lemma LongIdleIsSwept(scope: Scope, steps: seq<Step>, k: Key, t: int, now: int, idle: int)
    requires k in Exec(Init(scope), steps).table
    requires var e := Exec(Init(scope), steps).At(k); e.phase != Starting && e.running == 0
    requires LastUse(scope, steps, Exec(Init(scope), steps).table[k]) == Some(t) && now - t >= idle > 0
    ensures k !in Apply(Exec(Init(scope), steps), Sweep(now, idle)).table
  {
    SweptIff(scope, steps, k, now, idle);
  }

  // ----- The table, key by key -----

  /** `step` takes `k` out of the table. */
  ghost predicate TakesOut(s: State, step: Step, k: Key)
    requires s.Wf() && k in s.table
  {
    var e := s.At(k);
    match step
    case Relock(user, tab, _) => !Blank(user) && !Blank(tab) && KeyFor(s.scope, user, tab) == k && e.phase == Failed
    case CloseTab(user, tab) =>
      && !Blank(user) && !Blank(tab) && KeyFor(s.scope, user, tab) == k
      && (s.scope == UserScope ==> forall other :: other in e.tabs ==> other == tab)
    case CloseEntry(k') => k' == k
    case CloseAll => true
    case Sweep(now, idle) =>
      && e.phase != Starting && e.running == 0 && idle > 0
      && (e.lastUsed == Never || now - e.lastUsed.time >= idle)
    case _ => false
  }

  lemma CloseTabByKey(s: State, user: string, tab: string, k: Key)
    requires s.Wf() && k in s.table
    ensures var s' := ApplyCloseTab(s, user, tab);
            && (k in s'.table <==> !TakesOut(s, CloseTab(user, tab), k))
            && (k in s'.table ==> s'.table[k] == s.table[k])
  {
    var k' := KeyFor(s.scope, user, tab);
    if k' in s.table && s.scope == UserScope {
      var left := s.At(k').tabs - {tab};
      if left != {} {
        var other :| other in left;
        assert other in s.At(k').tabs && other != tab;
      } else {
        assert forall other :: other in s.At(k').tabs ==> other == tab || other in left;
      }
    }
  }

  /**
    A key in the table keeps its entry unless it is taken out: by the call that finds it failed, by closing its
    last tab, by name, with all others, or by the sweep.  A key that is not there is put in by a lookup alone.
   */
  lemma TableByKey(s: State, step: Step, k: Key)
    requires s.Wf()
    ensures var s' := Apply(s, step);
            if k in s.table then
              && (k in s'.table <==> !TakesOut(s, step, k))
              && (k in s'.table ==> s'.table[k] == s.table[k])
            else
              && (k in s'.table <==> StartsRunner(s, step, k))
              && (k in s'.table ==> s'.table[k] == |s.entries|)
  {
    if step.CloseTab? && k in s.table {
      CloseTabByKey(s, step.user, step.tab, k);
    }
  }

  /** What is taken out is handed to `stopRunner`, except by the call that finds its entry failed. */
  lemma TakenOutIsStopped(s: State, step: Step, k: Key)
    requires s.Wf() && k in s.table && TakesOut(s, step, k)
    ensures step.Relock? || s.table[k] in Apply(s, step).stopping
  {
    TableByKey(s, step, k);
  }

  /** Closing a tab in tab scope takes out its own key, and no other. */
  lemma CloseTabInTabScope(steps: seq<Step>, user: string, tab: string, k: Key)
    requires !Blank(user) && !Blank(tab) && k in Exec(Init(TabScope), steps).table
    ensures var s := Exec(Init(TabScope), steps);
            var s' := Apply(s, CloseTab(user, tab));
            && (k in s'.table <==> k != Key(user, tab))
            && (k in s'.table ==> s'.table[k] == s.table[k] && s'.At(k) == s.At(k))
  {
    ScopeFixed(TabScope, steps);
    TableByKey(Exec(Init(TabScope), steps), CloseTab(user, tab), k);
  }

  /** Closing all leaves nothing in the table. */
  lemma CloseAllEmpties(s: State)
    requires s.Wf()
    ensures var s' := Apply(s, CloseAll);
            s'.table == map[] && forall k :: k in s.table ==> s.table[k] in s'.stopping
  {
    forall k | k in s.table ensures k !in Apply(s, CloseAll).table && s.table[k] in Apply(s, CloseAll).stopping {
      TableByKey(s, CloseAll, k);
      TakenOutIsStopped(s, CloseAll, k);
    }
  }
}
