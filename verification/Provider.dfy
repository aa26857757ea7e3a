/**
  The runner provider's table of runner containers, one transition per critical section.

  A container entry is named by its position in `entries`, a tracked run by its position in `runs`;
  neither is ever reused, as the source allocates a new object each time.  `runs[i].on` remembers the
  entry a run was counted on, which the source does not: its release looks the key up again.
 */
module ProviderSpec {
  import opened Text

  datatype Scope = UserScope | TabScope

  datatype Key = Key(user: string, tab: string)

  /** The `lastUsed` stamp; `Never` is the zero time of a new entry. */
  datatype Stamp = Never | At(time: int)

  /** `Starting`: `wait` is set.  `Ready`: client and handle are set.  `Failed`: `err` is set. */
  datatype Phase = Starting | Ready | Failed

  /** `stopped` says that `stopRunner` reached the entry's container. */
  datatype Entry = Entry(key: Key, phase: Phase, running: nat, lastUsed: Stamp, tabs: set<string>, stopped: bool)

  datatype Run = Run(key: Key, on: Option<nat>, released: bool)

  /** `stopping` holds the entries taken out of the table whose `stopRunner` call is still to come. */
  datatype State = State(
    scope: Scope,
    table: map<Key, nat>,
    entries: seq<Entry>,
    runs: seq<Run>,
    stopping: set<nat>)
  {
    ghost predicate Wf() {
      forall k :: k in table ==> table[k] < |entries| && entries[table[k]].key == k
    }

    function At(k: Key): Entry
      requires Wf() && k in table
    {
      entries[table[k]]
    }

    function Put(r: nat, e: Entry): State
      requires r < |entries|
    {
      this.(entries := entries[r := e])
    }
  }

  /** One lock section, or (`Stop`) the unlocked call of `stopRunner` on an entry taken out of the table. */
  datatype Step =
    | Lookup(user: string, tab: string)
    | Relock(user: string, tab: string, now: int)
    | Finish(ref: nat, ok: bool, now: int)
    | CloseTab(user: string, tab: string)
    | CloseEntry(key: Key)
    | CloseAll
    | Sweep(now: int, idle: int)
    | StartRun(key: Key, now: int)
    | Release(run: nat, now: int)
    | Stop(ref: nat)

  function Init(scope: Scope): State {
    State(scope, map[], [], [], {})
  }

  function KeyFor(scope: Scope, user: string, tab: string): Key {
    if scope == TabScope then Key(user, tab) else Key(user, "")
  }

  function Track(scope: Scope, e: Entry, tab: string): Entry {
    if scope != UserScope || tab == "" then e else e.(tabs := e.tabs + {tab})
  }

  function NewEntry(scope: Scope, k: Key, tab: string): Entry {
    Track(scope, Entry(k, Starting, 0, Never, {}, false), tab)
  }

  predicate Sweepable(e: Entry, now: int, idle: int) {
    && e.phase != Starting
    && e.running == 0
    && idle > 0 && (e.lastUsed.Never? || now - e.lastUsed.time >= idle)
  }

  /** Takes the entries under `keys` out of the table and hands them to `stopRunner`. */
  function TakeOut(s: State, keys: set<Key>): (s': State)
    requires s.Wf()
    ensures s'.Wf()
  {
    s.(table := s.table - keys,
       stopping := s.stopping + set k | k in keys && k in s.table :: s.table[k])
  }

  /** The keys of the entries the idle sweep removes. */
  function Victims(s: State, now: int, idle: int): set<Key>
    requires s.Wf()
  {
    set k | k in s.table && Sweepable(s.At(k), now, idle)
  }

  function ApplyLookup(s: State, user: string, tab: string): (s': State)
    requires s.Wf()
    ensures s'.Wf()
  {
    var k := KeyFor(s.scope, user, tab);
    if Blank(user) || Blank(tab) || k in s.table then s
    else s.(table := s.table[k := |s.entries|], entries := s.entries + [NewEntry(s.scope, k, tab)])
  }

  function ApplyRelock(s: State, user: string, tab: string, now: int): (s': State)
    requires s.Wf()
    ensures s'.Wf()
  {
    var k := KeyFor(s.scope, user, tab);
    if Blank(user) || Blank(tab) || k !in s.table then s
    else if s.At(k).phase == Failed then s.(table := s.table - {k})
    else s.Put(s.table[k], Track(s.scope, s.At(k).(lastUsed := At(now)), tab))
  }

  function ApplyFinish(s: State, r: nat, ok: bool, now: int): (s': State)
    requires s.Wf()
    ensures s'.Wf()
  {
    if r >= |s.entries| || s.entries[r].phase != Starting then s
    else if ok then s.Put(r, s.entries[r].(phase := Ready, lastUsed := At(now)))
    else s.Put(r, s.entries[r].(phase := Failed))
  }

  function ApplyCloseTab(s: State, user: string, tab: string): (s': State)
    requires s.Wf()
    ensures s'.Wf()
  {
    var k := KeyFor(s.scope, user, tab);
    if Blank(user) || Blank(tab) || k !in s.table then s
    else if s.scope == UserScope then
      var left := s.At(k).tabs - {tab};
      var s' := s.Put(s.table[k], s.At(k).(tabs := left));
      if left != {} then s' else TakeOut(s', {k})
    else TakeOut(s, {k})
  }

  function ApplyStartRun(s: State, k: Key, now: int): (s': State)
    requires s.Wf()
    ensures s'.Wf()
  {
    if k in s.table then
      s.Put(s.table[k], s.At(k).(running := s.At(k).running + 1, lastUsed := At(now)))
       .(runs := s.runs + [Run(k, Some(s.table[k]), false)])
    else s.(runs := s.runs + [Run(k, None, false)])
  }

  function ApplyRelease(s: State, i: nat, now: int): (s': State)
    requires s.Wf()
    ensures s'.Wf()
  {
    if i >= |s.runs| || s.runs[i].released then s
    else
      var k := s.runs[i].key;
      var s' := s.(runs := s.runs[i := s.runs[i].(released := true)]);
      if k !in s.table then s'
      else
        var n := s.At(k).running;
        s'.Put(s.table[k], s.At(k).(running := if n > 0 then n - 1 else n, lastUsed := At(now)))
  }

  function ApplyStop(s: State, r: nat): (s': State)
    requires s.Wf()
    ensures s'.Wf()
  {
    if r !in s.stopping || r >= |s.entries| then s
    else
      var s' := s.(stopping := s.stopping - {r});
      if s.entries[r].phase == Ready then s'.Put(r, s.entries[r].(stopped := true)) else s'
  }

  function Apply(s: State, step: Step): (s': State)
    requires s.Wf()
    ensures s'.Wf()
  {
    match step
    case Lookup(user, tab) => ApplyLookup(s, user, tab)
    case Relock(user, tab, now) => ApplyRelock(s, user, tab, now)
    case Finish(r, ok, now) => ApplyFinish(s, r, ok, now)
    case CloseTab(user, tab) => ApplyCloseTab(s, user, tab)
    case CloseEntry(k) => TakeOut(s, {k})
    case CloseAll => TakeOut(s, s.table.Keys)
    case Sweep(now, idle) => TakeOut(s, Victims(s, now, idle))
    case StartRun(k, now) => ApplyStartRun(s, k, now)
    case Release(i, now) => ApplyRelease(s, i, now)
    case Stop(r) => ApplyStop(s, r)
  }

  /** The state after a run of the provider. */
  function Exec(s: State, steps: seq<Step>): (s': State)
    requires s.Wf()
    ensures s'.Wf()
  {
    if steps == [] then s else Apply(Exec(s, steps[..|steps|-1]), steps[|steps|-1])
  }

  // ----- Invariant of every run -----

  /** The outstanding runs counted on entry `r`. */
  function OpenOn(s: State, r: nat): set<nat> {
    set i | 0 <= i < |s.runs| && s.runs[i].on == Some(r) && !s.runs[i].released
  }

  /** The outstanding runs of key `k` that were not counted on its current entry. */
  function ForeignTo(s: State, k: Key): set<nat>
    requires k in s.table
  {
    set i | 0 <= i < |s.runs| && s.runs[i].key == k && s.runs[i].on != Some(s.table[k]) && !s.runs[i].released
  }

  ghost predicate RunsKnown(s: State) {
    forall i :: 0 <= i < |s.runs| && s.runs[i].on.Some? ==>
      s.runs[i].on.value < |s.entries| && s.entries[s.runs[i].on.value].key == s.runs[i].key
  }

  ghost predicate CountsBounded(s: State)
    requires s.Wf()
  {
    forall k :: k in s.table ==> s.At(k).running <= |OpenOn(s, s.table[k])|
  }

  ghost predicate StoppingGone(s: State)
    requires s.Wf()
  {
    forall r :: r in s.stopping ==>
      r < |s.entries| && (s.entries[r].key in s.table ==> s.table[s.entries[r].key] != r)
  }

  ghost predicate TabsHeld(s: State)
    requires s.Wf()
  {
    s.scope == UserScope ==> forall k :: k in s.table ==> s.At(k).tabs != {}
  }

  ghost predicate Inv(s: State) {
    s.Wf() && RunsKnown(s) && CountsBounded(s) && StoppingGone(s) && TabsHeld(s)
  }

  lemma OpenOnSame(s: State, s': State, r: nat)
    requires s'.runs == s.runs
    ensures OpenOn(s', r) == OpenOn(s, r)
  {}

  lemma OpenOnStart(s: State, k: Key, now: int, r: nat)
    requires s.Wf()
    ensures OpenOn(ApplyStartRun(s, k, now), r) ==
            OpenOn(s, r) + (if k in s.table && s.table[k] == r then {|s.runs|} else {})
  {}

  lemma OpenOnRelease(s: State, i: nat, now: int, r: nat)
    requires s.Wf()
    ensures OpenOn(ApplyRelease(s, i, now), r) == OpenOn(s, r) - {i}
  {}

  lemma TakeOutKeepsInv(s: State, keys: set<Key>)
    requires Inv(s)
    ensures Inv(TakeOut(s, keys))
  {
    var s' := TakeOut(s, keys);
    forall k | k in s'.table ensures s'.At(k).running <= |OpenOn(s', s'.table[k])| {
      OpenOnSame(s, s', s.table[k]);
    }
  }

  /** Changing an entry without raising its count, or emptying its tab set, keeps the invariant. */
  lemma PutKeepsInv(s: State, r: nat, e: Entry)
    requires Inv(s) && r < |s.entries|
    requires e.key == s.entries[r].key && e.running <= s.entries[r].running
    requires s.scope == UserScope && s.entries[r].tabs != {} ==> e.tabs != {}
    ensures Inv(s.Put(r, e))
  {
    var s' := s.Put(r, e);
    forall k | k in s'.table ensures s'.At(k).running <= |OpenOn(s', s'.table[k])| {
      OpenOnSame(s, s', s.table[k]);
    }
  }

  lemma LookupKeepsInv(s: State, user: string, tab: string)
    requires Inv(s)
    ensures Inv(ApplyLookup(s, user, tab))
  {
    var s' := ApplyLookup(s, user, tab);
    if s' != s {
      forall k | k in s'.table ensures s'.At(k).running <= |OpenOn(s', s'.table[k])| {
        OpenOnSame(s, s', s'.table[k]);
      }
    }
  }

  lemma CloseTabKeepsInv(s: State, user: string, tab: string)
    requires Inv(s)
    ensures Inv(ApplyCloseTab(s, user, tab))
  {
    var k := KeyFor(s.scope, user, tab);
    if Blank(user) || Blank(tab) || k !in s.table {
    } else if s.scope == UserScope && s.At(k).tabs - {tab} != {} {
      PutKeepsInv(s, s.table[k], s.At(k).(tabs := s.At(k).tabs - {tab}));
    } else {
      TakeOutKeepsInv(s, {k});
      if s.scope == UserScope {
        var s1 := TakeOut(s, {k});
        var e := s.At(k).(tabs := s.At(k).tabs - {tab});
        assert ApplyCloseTab(s, user, tab) == s1.(entries := s.entries[s.table[k] := e]);
        forall k' | k' in s1.table ensures s1.At(k').running <= |OpenOn(ApplyCloseTab(s, user, tab), s1.table[k'])| {
          OpenOnSame(s1, ApplyCloseTab(s, user, tab), s1.table[k']);
        }
      }
    }
  }

  lemma StartRunKeepsInv(s: State, k: Key, now: int)
    requires Inv(s)
    ensures Inv(ApplyStartRun(s, k, now))
  {
    var s' := ApplyStartRun(s, k, now);
    forall k' | k' in s'.table ensures s'.At(k').running <= |OpenOn(s', s'.table[k'])| {
      OpenOnStart(s, k, now, s.table[k']);
    }
  }

  lemma ReleaseKeepsInv(s: State, i: nat, now: int)
    requires Inv(s)
    ensures Inv(ApplyRelease(s, i, now))
  {
    var s' := ApplyRelease(s, i, now);
    forall k | k in s'.table ensures s'.At(k).running <= |OpenOn(s', s'.table[k])| {
      OpenOnRelease(s, i, now, s.table[k]);
    }
  }

  lemma StopKeepsInv(s: State, r: nat)
    requires Inv(s)
    ensures Inv(ApplyStop(s, r))
  {
    if r in s.stopping && s.entries[r].phase == Ready {
      PutKeepsInv(s, r, s.entries[r].(stopped := true));
    }
    var s' := ApplyStop(s, r);
    forall k | k in s'.table ensures s'.At(k).running <= |OpenOn(s', s'.table[k])| {
      OpenOnSame(s, s', s.table[k]);
    }
  }

  lemma RelockKeepsInv(s: State, user: string, tab: string, now: int)
    requires Inv(s)
    ensures Inv(ApplyRelock(s, user, tab, now))
  {
    var k := KeyFor(s.scope, user, tab);
    if Blank(user) || Blank(tab) || k !in s.table {
    } else if s.At(k).phase == Failed {
      var s' := ApplyRelock(s, user, tab, now);
      forall k | k in s'.table ensures s'.At(k).running <= |OpenOn(s', s'.table[k])| {
        OpenOnSame(s, s', s.table[k]);
      }
    } else {
      PutKeepsInv(s, s.table[k], Track(s.scope, s.At(k).(lastUsed := At(now)), tab));
    }
  }

  lemma FinishKeepsInv(s: State, r: nat, ok: bool, now: int)
    requires Inv(s)
    ensures Inv(ApplyFinish(s, r, ok, now))
  {
    if r < |s.entries| && s.entries[r].phase == Starting {
      PutKeepsInv(s, r, if ok then s.entries[r].(phase := Ready, lastUsed := At(now))
                        else s.entries[r].(phase := Failed));
    }
  }

  lemma StepKeepsInv(s: State, step: Step)
    requires Inv(s)
    ensures Inv(Apply(s, step))
  {
    match step
    case Lookup(user, tab) => LookupKeepsInv(s, user, tab);
    case Relock(user, tab, now) => RelockKeepsInv(s, user, tab, now);
    case Finish(r, ok, now) => FinishKeepsInv(s, r, ok, now);
    case CloseTab(user, tab) => CloseTabKeepsInv(s, user, tab);
    case CloseEntry(k) => TakeOutKeepsInv(s, {k});
    case CloseAll => TakeOutKeepsInv(s, s.table.Keys);
    case Sweep(now, idle) => TakeOutKeepsInv(s, Victims(s, now, idle));
    case StartRun(k, now) => StartRunKeepsInv(s, k, now);
    case Release(i, now) => ReleaseKeepsInv(s, i, now);
    case Stop(r) => StopKeepsInv(s, r);
  }
}
