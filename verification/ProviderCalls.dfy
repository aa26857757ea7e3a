/**
  `RunnerFor` of a caller that finds an entry: it waits for that entry, looks the key up again, and reads
  the container's name for its log line after it has unlocked.
 */
module ProviderCalls {
  import opened Text
  import opened ProviderSpec
  import opened ProviderLaws

  predicate FinishOf(step: Step, r: nat) {
    step.Finish? && step.ref == r
  }

  /** Among `steps` the first to finish entry `r` reports success. */
  ghost predicate StartSucceeds(steps: seq<Step>, r: nat) {
    exists i :: 0 <= i < |steps| && FinishOf(steps[i], r) && steps[i].ok && NotFinished(steps[..i], r)
  }

  ghost predicate NotFinished(steps: seq<Step>, r: nat) {
    forall i :: 0 <= i < |steps| ==> !FinishOf(steps[i], r)
  }

  /** An entry leaves `Starting` by its own finish, and for good. */
  lemma PhaseStep(s: State, step: Step, r: nat)
    requires s.Wf() && r < |s.entries|
    ensures r < |Apply(s, step).entries|
    ensures Apply(s, step).entries[r].phase ==
            if s.entries[r].phase != Starting || !FinishOf(step, r) then s.entries[r].phase
            else if step.ok then Ready else Failed
  {}

  lemma NotFinishedSnoc(front: seq<Step>, last: Step, r: nat)
    ensures NotFinished(front + [last], r) <==> NotFinished(front, r) && !FinishOf(last, r)
  {
    var steps := front + [last];
    assert steps[|front|] == last;
    assert forall i :: 0 <= i < |front| ==> steps[i] == front[i];
  }

  lemma SucceedsSnoc(front: seq<Step>, last: Step, r: nat)
    ensures StartSucceeds(front + [last], r) <==>
            StartSucceeds(front, r) || (NotFinished(front, r) && FinishOf(last, r) && last.ok)
  {
    var steps := front + [last];
    assert steps[..|front|] == front;
    assert forall i :: 0 <= i < |front| ==> steps[i] == front[i] && steps[..i] == front[..i];
  }

  /** What an entry that is starting has become after `steps`. */
  lemma {:induction false} PhaseAfter(s: State, steps: seq<Step>, r: nat)
    requires s.Wf() && r < |s.entries| && s.entries[r].phase == Starting
    ensures r < |Exec(s, steps).entries|
    ensures Exec(s, steps).entries[r].phase == Starting <==> NotFinished(steps, r)
    ensures Exec(s, steps).entries[r].phase == Ready <==> StartSucceeds(steps, r)
  {
    if steps != [] {
      var front, last := steps[..|steps|-1], steps[|steps|-1];
      assert steps == front + [last];
      PhaseAfter(s, front, r);
      PhaseStep(Exec(s, front), last, r);
      NotFinishedSnoc(front, last, r);
      SucceedsSnoc(front, last, r);
    }
  }

  lemma {:induction false} PhaseSettled(s: State, steps: seq<Step>, r: nat)
    requires s.Wf() && r < |s.entries| && s.entries[r].phase != Starting
    ensures r < |Exec(s, steps).entries| && Exec(s, steps).entries[r].phase == s.entries[r].phase
  {
    if steps != [] {
      PhaseSettled(s, steps[..|steps|-1], r);
      PhaseStep(Exec(s, steps[..|steps|-1]), steps[|steps|-1], r);
    }
  }

  /** A call of `RunnerFor`: its first lock section is step `found`, its second, after the wait, step `again`. */
  datatype Call = Call(user: string, tab: string, found: nat, again: nat)

  /** In `steps` the call finds an entry, waits until that entry is no longer starting, and locks again. */
  ghost predicate Waited(scope: Scope, steps: seq<Step>, c: Call) {
    && c.found < c.again < |steps| && !Blank(c.user) && !Blank(c.tab)
    && steps[c.found] == Lookup(c.user, c.tab)
    && steps[c.again].Relock? && steps[c.again].user == c.user && steps[c.again].tab == c.tab
    && var k, s := KeyFor(scope, c.user, c.tab), Exec(Init(scope), steps[..c.found]);
    && k in s.table && Settled(Exec(Init(scope), steps[..c.again]), s.table[k])
  }

  predicate Settled(s: State, r: nat) {
    r < |s.entries| && s.entries[r].phase != Starting
  }

  /** The call is handed the entry then in the table, and finds no container in it once `steps` are over. */
  ghost predicate Panics(scope: Scope, steps: seq<Step>, c: Call)
    requires c.again < |steps|
  {
    var k, s, t := KeyFor(scope, c.user, c.tab), Exec(Init(scope), steps[..c.again]), Exec(Init(scope), steps);
    k in s.table && s.At(k).phase != Failed && s.table[k] < |t.entries| && t.entries[s.table[k]].phase != Ready
  }

  /**
    The name is read from an entry without a container exactly when the entry in the table at the second
    lock is still starting and its start has not succeeded by the time of the read.
   */
  lemma PanicsIff(scope: Scope, steps: seq<Step>, c: Call)
    requires Waited(scope, steps, c)
    ensures var k, s := KeyFor(scope, c.user, c.tab), Exec(Init(scope), steps[..c.again]);
            Panics(scope, steps, c) <==>
            && k in s.table && s.At(k).phase == Starting
            && !StartSucceeds(steps[c.again..], s.table[k])
  {
    var k, s := KeyFor(scope, c.user, c.tab), Exec(Init(scope), steps[..c.again]);
    assert steps == steps[..c.again] + steps[c.again..];
    ExecConcat(Init(scope), steps[..c.again], steps[c.again..]);
    if k in s.table {
      if s.At(k).phase == Starting {
        PhaseAfter(s, steps[c.again..], s.table[k]);
      } else {
        PhaseSettled(s, steps[c.again..], s.table[k]);
      }
    }
  }

  /** It takes a restart: the entry the call found was removed, and another one inserted, while it waited. */
  lemma PanicNeedsRestart(scope: Scope, steps: seq<Step>, c: Call)
    requires Waited(scope, steps, c) && Panics(scope, steps, c)
    ensures var k := KeyFor(scope, c.user, c.tab);
            && Removals(scope, steps[..c.again], k) > Removals(scope, steps[..c.found], k)
            && Starts(scope, steps[..c.again], k) > Starts(scope, steps[..c.found], k)
  {
    var k, s := KeyFor(scope, c.user, c.tab), Exec(Init(scope), steps[..c.found]);
    PanicsIff(scope, steps, c);
    assert steps[..c.again][..c.found] == steps[..c.found];
    SameEntryUnlessRemoved(scope, steps[..c.again], c.found, k);
    StartsFollowRemovals(scope, steps[..c.found], k);
    StartsFollowRemovals(scope, steps[..c.again], k);
  }

  lemma EntryStays(s: State, step: Step, k: Key)
    requires s.Wf() && k in s.table && !Removes(s, step, k)
    ensures k in Apply(s, step).table && Apply(s, step).table[k] == s.table[k]
  {}

  lemma {:induction false} SameEntryUnlessRemoved(scope: Scope, steps: seq<Step>, n: nat, k: Key)
    requires n <= |steps| && k in Exec(Init(scope), steps[..n]).table
    ensures Removals(scope, steps, k) >= Removals(scope, steps[..n], k)
    ensures var s, t := Exec(Init(scope), steps[..n]), Exec(Init(scope), steps);
            Removals(scope, steps, k) == Removals(scope, steps[..n], k) ==> k in t.table && t.table[k] == s.table[k]
  {
    if n == |steps| {
      assert steps[..n] == steps;
    } else {
      var front, last := steps[..|steps|-1], steps[|steps|-1];
      assert front[..n] == steps[..n];
      SameEntryUnlessRemoved(scope, front, n, k);
      var t := Exec(Init(scope), front);
      if k in t.table && !Removes(t, last, k) {
        EntryStays(t, last, k);
      }
    }
  }

  /** The tab is closed and opened again while a caller is between its two locks. */
  function RestartTrace(): seq<Step> {
    [Lookup("u", "t"), Finish(0, true, 0)] +
    [Lookup("u", "t"), CloseTab("u", "t"), Lookup("u", "t"), Relock("u", "t", 0)]
  }

  lemma OpensTab(s: State)
    requires s.Wf() && s.scope == TabScope && Key("u", "t") !in s.table
    ensures var t, k := Apply(s, Lookup("u", "t")), Key("u", "t");
            && t.table == s.table[k := |s.entries|] && t.scope == TabScope
            && t.entries == s.entries + [Entry(k, Starting, 0, Never, {}, false)]
  {
    assert !Blank("u") && !Blank("t") by { assert "u"[0] == 'u' && "t"[0] == 't'; }
  }

  lemma ClosesTab(s: State)
    requires s.Wf() && s.scope == TabScope && s.table == map[Key("u", "t") := 0]
    ensures var t := Apply(s, CloseTab("u", "t"));
            t.table == map[] && t.entries == s.entries && t.scope == TabScope
    ensures Apply(s, Lookup("u", "t")) == s
  {
    assert !Blank("u") && !Blank("t") by { assert "u"[0] == 'u' && "t"[0] == 't'; }
    assert s.table - {Key("u", "t")} == map[];
  }

  lemma RestartBegins() returns (s: State)
    ensures s == Exec(Init(TabScope), RestartTrace()[..2]) && s.scope == TabScope
    ensures s.table == map[Key("u", "t") := 0] && |s.entries| == 1 && s.entries[0].phase == Ready
  {
    var a, s0 := RestartTrace(), Init(TabScope);
    assert a[..2] == [a[0], a[1]];
    ExecTwo(s0, a[0], a[1]);
    OpensTab(s0);
    s := Exec(s0, a[..2]);
  }

  /** The state before the call, and the one at its second lock. */
  lemma RestartStates() returns (s: State, t: State)
    ensures s == Exec(Init(TabScope), RestartTrace()[..2]) && t == Exec(Init(TabScope), RestartTrace()[..5])
    ensures s.table == map[Key("u", "t") := 0] && t.table == map[Key("u", "t") := 1]
    ensures |t.entries| == 2 && t.entries[0].phase == Ready && t.entries[1].phase == Starting
  {
    var a, s0 := RestartTrace(), Init(TabScope);
    s := RestartBegins();
    ClosesTab(s);
    assert a[..3] == a[..2] + [a[2]] && a[..4] == a[..3] + [a[3]] && a[..5] == a[..4] + [a[4]];
    ExecSnoc(s0, a[..2], a[2]);
    ExecSnoc(s0, a[..3], a[3]);
    ExecSnoc(s0, a[..4], a[4]);
    OpensTab(Exec(s0, a[..4]));
    t := Exec(s0, a[..5]);
  }

  lemma RestartPanics()
    ensures Waited(TabScope, RestartTrace(), Call("u", "t", 2, 5))
    ensures Panics(TabScope, RestartTrace(), Call("u", "t", 2, 5))
  {
    var a := RestartTrace();
    assert !Blank("u") && !Blank("t") by { assert "u"[0] == 'u' && "t"[0] == 't'; }
    var s, t := RestartStates();
    assert Waited(TabScope, a, Call("u", "t", 2, 5));
    assert a[5..] == [a[5]] && !StartSucceeds(a[5..], 1);
    PanicsIff(TabScope, a, Call("u", "t", 2, 5));
  }
}
