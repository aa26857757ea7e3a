/** The provider's critical sections over the heap, each proved to be one step of `ProviderSpec`. */
module ProviderImpl {
  import opened Text
  import opened ProviderSpec

  /** A `tabRunner`: `wait`, `err`, `client` and `handle` say whether those fields are set. */
  class TabRunner {
    const key: Key
    ghost const id: nat
    var wait: bool
    var err: bool
    var client: bool
    var handle: bool
    var running: nat
    var lastUsed: Stamp
    var tabs: set<string>
    var stopped: bool

    ghost predicate Is(e: Entry)
      reads this
    {
      && e.key == key && e.running == running && e.lastUsed == lastUsed && e.tabs == tabs && e.stopped == stopped
      && (wait <==> e.phase == Starting) && (err <==> e.phase == Failed) && (client <==> e.phase == Ready)
      && (handle <==> e.phase == Ready)
    }

    constructor (key: Key, ghost id: nat)
      ensures this.id == id && Is(Entry(key, Starting, 0, Never, {}, false))
    {
      this.key, this.id := key, id;
      wait, err, client, handle, stopped := true, false, false, false, false;
      running, lastUsed, tabs := 0, Never, {};
    }

    /** What changes in an entry while it is in the table. */
    method Write(running: nat, lastUsed: Stamp, held: set<string>, ghost e: Entry)
      requires Is(e)
      modifies this
      ensures Is(e.(running := running, lastUsed := lastUsed, tabs := held)) && client == old(client)
    {
      this.running, this.lastUsed, tabs := running, lastUsed, held;
    }

    /** The test `collectIdle` puts to an entry. */
    method Idle(now: int, idle: int, ghost e: Entry) returns (victim: bool)
      requires Is(e)
      ensures victim <==> Sweepable(e, now, idle)
    {
      if wait || running > 0 { return false; }
      return idle > 0 && (lastUsed.Never? || now - lastUsed.time >= idle);
    }

    /** `trackTabLocked` */
    method Track(scope: Scope, tab: string)
      modifies this`tabs
      ensures tabs == old(tabs) + if scope == UserScope && tab != "" then {tab} else {}
    {
      if scope != UserScope || tab == "" { return; }
      tabs := tabs + {tab};
    }
  }

  /** The closure `startRun` returns; its `sync.Once` makes a second call a no-op. */
  class Ticket {
    const key: Key
    ghost const id: nat
    var released: bool

    ghost predicate Is(run: Run)
      reads this
    {
      run.key == key && run.released == released
    }

    constructor (key: Key, ghost id: nat)
      ensures this.key == key && this.id == id && !released
    {
      this.key, this.id, released := key, id, false;
    }
  }

  datatype LookupResult = Rejected | Present(waiting: bool) | Inserted(entry: TabRunner)

  datatype Response = Unavailable | StartFailed | Runner(entry: TabRunner, hasClient: bool)

  class Provider {
    const scope: Scope
    var tabs: map<Key, TabRunner>
    ghost var all: seq<TabRunner>
    ghost var tickets: seq<Ticket>
    ghost var model: State

    ghost predicate Valid()
      reads this, all, tickets
    {
      && model.Wf() && model.scope == scope && EntriesMatch() && TicketsMatch()
      && tabs.Keys == model.table.Keys
      && (forall k :: k in tabs ==> tabs[k] == all[model.table[k]])
    }

    ghost predicate EntriesMatch()
      reads this, all
    {
      |all| == |model.entries| && forall i :: 0 <= i < |all| ==> all[i].id == i && all[i].Is(model.entries[i])
    }

    ghost predicate TicketsMatch()
      reads this, tickets
    {
      |tickets| == |model.runs| && forall i :: 0 <= i < |tickets| ==> tickets[i].id == i && tickets[i].Is(model.runs[i])
    }

    constructor (scope: Scope)
      ensures Valid() && model == Init(scope) && this.scope == scope
    {
      this.scope := scope;
      tabs, all, tickets, model := map[], [], [], Init(scope);
    }

    /** First lock section of `RunnerFor`. */
    method Lookup(user: string, tab: string) returns (r: LookupResult)
      requires Valid()
      modifies this, all
      ensures Valid() && model == ApplyLookup(old(model), user, tab)
      ensures r.Rejected? <==> Blank(user) || Blank(tab)
      ensures r.Inserted? <==> |model.entries| == |old(model).entries| + 1
      ensures r.Present? ==>
        var k := KeyFor(scope, user, tab);
        k in old(model).table && (r.waiting <==> old(model).At(k).phase == Starting)
      ensures r.Inserted? ==> r.entry.id == |old(model).entries| && all == old(all) + [r.entry]
    {
      if Blank(user) || Blank(tab) {
        return Rejected;
      }
      var key := KeyFor(scope, user, tab);
      if key in tabs {
        return Present(tabs[key].wait);
      }
      var entry := new TabRunner(key, |all|);
      entry.Track(scope, tab);
      Insert(entry, NewEntry(scope, key, tab));
      return Inserted(entry);
    }

    method Insert(entry: TabRunner, ghost e: Entry)
      requires Valid() && entry.key !in tabs && entry.id == |all| && entry.Is(e)
      modifies this`tabs, this`all, this`model
      ensures Valid() && all == old(all) + [entry]
      ensures model == old(model).(table := old(model).table[e.key := |old(all)|], entries := old(model).entries + [e])
    {
      tabs := tabs[entry.key := entry];
      all := all + [entry];
      model := model.(table := model.table[e.key := |model.entries|], entries := model.entries + [e]);
    }

    /** Second lock section of `RunnerFor`, after the wait of a caller that found an entry. */
    method Relock(user: string, tab: string, now: int) returns (r: Response)
      requires Valid() && !Blank(user) && !Blank(tab)
      modifies this, all
      ensures Valid() && model == ApplyRelock(old(model), user, tab, now) && all == old(all)
      ensures var k := KeyFor(scope, user, tab);
              if k !in old(model).table then r == Unavailable
              else if old(model).At(k).phase == Failed then r == StartFailed
              else r == Runner(all[old(model).table[k]], old(model).At(k).phase == Ready)
    {
      var key := KeyFor(scope, user, tab);
      ghost var s := model;
      if key !in tabs {
        return Unavailable;
      }
      var entry := tabs[key];
      if entry.err {
        tabs := tabs - {key};
        model := s.(table := s.table - {key});
        return StartFailed;
      }
      Register(key, tab, now);
      return Runner(entry, entry.client);
    }

    /** The log line of `RunnerFor` after it unlocked; without a container there is no name to read. */
    method LogReady(entry: TabRunner) returns (panics: bool)
      requires Valid() && entry in all
      ensures panics <==> model.entries[entry.id].phase != Ready
    {
      return !entry.handle;
    }

    /** Last lock section of `RunnerFor`, by the caller that inserted `entry`. */
    method Finish(entry: TabRunner, ok: bool, now: int)
      requires Valid() && entry in all && entry.wait
      modifies this`model, entry
      ensures Valid() && model == ApplyFinish(old(model), entry.id, ok, now)
    {
      model := ApplyFinish(model, entry.id, ok, now);
      if !ok {
        entry.err := true;
      } else {
        entry.client, entry.handle := true, true;
        entry.lastUsed := At(now);
      }
      entry.wait := false;
    }

    /** Writes what changes in `key`'s entry while it is in the table. */
    method Rewrite(key: Key, running: nat, lastUsed: Stamp, held: set<string>)
      requires Valid() && key in tabs
      modifies this`model, tabs[key]
      ensures Valid() && tabs[key].client == old(tabs[key].client) && tabs[key].tabs == held
      ensures var e := old(model).At(key).(running := running, lastUsed := lastUsed, tabs := held);
              model == old(model).Put(old(model).table[key], e)
    {
      var entry := tabs[key];
      ghost var s, r, e := model, model.table[key], model.At(key);
      entry.Write(running, lastUsed, held, e);
      model := model.Put(r, e.(running := running, lastUsed := lastUsed, tabs := held));
      forall i | 0 <= i < |all| ensures all[i].id == i && all[i].Is(model.entries[i]) {
        if i != r {
          assert all[i] != entry && all[i].Is(s.entries[i]);
        }
      }
    }

    method Register(key: Key, tab: string, now: int)
      requires Valid() && key in tabs
      modifies this`model, tabs[key]
      ensures Valid() && tabs[key].client == old(tabs[key].client)
      ensures var e := old(model).At(key).(lastUsed := At(now));
              model == old(model).Put(old(model).table[key], Track(scope, e, tab))
    {
      var held := tabs[key].tabs;
      if scope == UserScope && tab != "" { held := held + {tab}; }
      Rewrite(key, tabs[key].running, At(now), held);
    }

    /** Sets the count of `key`'s entry and stamps it. */
    method Touch(key: Key, running: nat, now: int)
      requires Valid() && key in tabs
      modifies this`model, tabs[key]
      ensures Valid()
      ensures var e := old(model).At(key).(running := running, lastUsed := At(now));
              model == old(model).Put(old(model).table[key], e)
    {
      Rewrite(key, running, At(now), tabs[key].tabs);
    }

    method CloseTab(user: string, tab: string) returns (stop: set<TabRunner>)
      requires Valid()
      modifies this`tabs, this`model, all
      ensures Valid() && model == ApplyCloseTab(old(model), user, tab)
      ensures stop == set k | k in old(tabs) && k !in tabs :: old(tabs)[k]
    {
      stop := {};
      var key := KeyFor(scope, user, tab);
      if Blank(user) || Blank(tab) || key !in tabs { return; }
      if scope == UserScope && tab != "" {
        var remaining := Untrack(key, tab);
        if remaining > 0 { return; }
      }
      stop := CloseEntry(key);
    }

    method Untrack(key: Key, tab: string) returns (remaining: nat)
      requires Valid() && key in tabs
      modifies this`model, tabs[key]
      ensures Valid() && remaining == |tabs[key].tabs|
      ensures var e := old(model).At(key);
              && tabs[key].tabs == e.tabs - {tab}
              && model == old(model).Put(old(model).table[key], e.(tabs := e.tabs - {tab}))
    {
      Rewrite(key, tabs[key].running, tabs[key].lastUsed, tabs[key].tabs - {tab});
      remaining := |tabs[key].tabs|;
    }

    /** `closeEntry`, called when keepalive pings are missed. */
    method CloseEntry(key: Key) returns (stop: set<TabRunner>)
      requires Valid()
      modifies this`tabs, this`model
      ensures Valid() && model == TakeOut(old(model), {key})
      ensures stop == set k | k in old(tabs) && k !in tabs :: old(tabs)[k]
    {
      stop := {};
      model := TakeOut(model, {key});
      if key in tabs {
        stop := {tabs[key]};
        tabs := tabs - {key};
      }
    }

    method CloseAll() returns (stop: set<TabRunner>)
      requires Valid()
      modifies this`tabs, this`model
      ensures Valid() && model == TakeOut(old(model), old(model).table.Keys)
      ensures stop == set k | k in old(tabs) && k !in tabs :: old(tabs)[k]
    {
      stop := {};
      var todo := tabs.Keys;
      while todo != {}
        invariant todo <= tabs.Keys
        invariant stop == set k | k in tabs && k !in todo :: tabs[k]
        decreases todo
      {
        var key :| key in todo;
        stop := stop + {tabs[key]};
        todo := todo - {key};
      }
      model := TakeOut(model, model.table.Keys);
      tabs := map[];
    }

    /** The loop of `collectIdle`. */
    method Collect(now: int, idle: int) returns (ghost victims: set<Key>, stop: set<TabRunner>)
      requires Valid()
      modifies this`tabs
      ensures victims == Victims(model, now, idle) <= old(tabs).Keys && tabs == old(tabs) - victims
      ensures stop == set k | k in victims :: old(tabs)[k]
    {
      ghost var was := tabs;
      stop, victims := {}, {};
      var todo := tabs.Keys;
      while todo != {}
        invariant todo <= was.Keys && victims <= was.Keys - todo && tabs == was - victims
        invariant forall k :: k in was && k !in todo ==> (k in victims <==> Sweepable(model.At(k), now, idle))
        invariant stop == set k | k in victims :: was[k]
        decreases todo
      {
        var key :| key in todo;
        todo := todo - {key};
        var entry := tabs[key];
        var victim := entry.Idle(now, idle, model.At(key));
        if victim {
          tabs := tabs - {key};
          victims := victims + {key};
          stop := stop + {entry};
        }
      }
    }

    /** `collectIdle` */
    method Sweep(now: int, idle: int) returns (stop: set<TabRunner>)
      requires Valid()
      modifies this`tabs, this`model
      ensures Valid() && model == TakeOut(old(model), Victims(old(model), now, idle))
      ensures stop == set k | k in old(tabs) && k !in tabs :: old(tabs)[k]
    {
      ghost var victims;
      victims, stop := Collect(now, idle);
      model := TakeOut(model, victims);
    }

    /** The closure that releases a run, counted on the entry `on` if there was one. */
    method Issue(key: Key, ghost on: Option<nat>) returns (ticket: Ticket)
      requires Valid()
      modifies this`tickets, this`model
      ensures Valid() && model == old(model).(runs := old(model).runs + [Run(key, on, false)])
      ensures ticket.id == |old(model).runs| && ticket in tickets
    {
      ticket := new Ticket(key, |tickets|);
      tickets := tickets + [ticket];
      model := model.(runs := model.runs + [Run(key, on, false)]);
    }

    /** One more run on `key`'s entry, if there is one. */
    method Count(key: Key, now: int)
      requires Valid()
      modifies this`model, all
      ensures Valid() && tickets == old(tickets)
      ensures key !in old(model).table ==> model == old(model)
      ensures key in old(model).table ==>
                var e := old(model).At(key);
                model == old(model).Put(old(model).table[key], e.(running := e.running + 1, lastUsed := At(now)))
    {
      if key in tabs {
        Touch(key, tabs[key].running + 1, now);
      }
    }

    /** `startRun` */
    method StartRun(key: Key, now: int) returns (ticket: Ticket)
      requires Valid()
      modifies this`tickets, this`model, all
      ensures Valid() && model == ApplyStartRun(old(model), key, now)
      ensures ticket.id == |old(model).runs| && ticket in tickets
    {
      ghost var on := if key in model.table then Some(model.table[key]) else None;
      Count(key, now);
      ticket := Issue(key, on);
    }

    /** Uses the ticket up. */
    method Spend(ticket: Ticket)
      requires Valid() && ticket in tickets && !ticket.released
      modifies this`model, ticket
      ensures Valid() && ticket.id < |old(model).runs|
      ensures model == old(model).(runs := old(model).runs[ticket.id := model.runs[ticket.id]])
      ensures model.runs[ticket.id] == old(model).runs[ticket.id].(released := true)
    {
      model := model.(runs := model.runs[ticket.id := model.runs[ticket.id].(released := true)]);
      ticket.released := true;
    }

    /** The release closure; `Wait`, `Close` and a failed `Run` all end up here. */
    method Release(ticket: Ticket, now: int)
      requires Valid() && ticket in tickets
      modifies this`model, all, ticket
      ensures Valid() && model == ApplyRelease(old(model), ticket.id, now)
    {
      if ticket.released { return; }
      Spend(ticket);
      if ticket.key in tabs {
        var running := tabs[ticket.key].running;
        Touch(ticket.key, if running > 0 then running - 1 else running, now);
      }
    }

    /** `stopRunner` on an entry taken out of the table. */
    method Stop(entry: TabRunner)
      requires Valid() && entry in all && entry.id in model.stopping
      modifies this`model, entry
      ensures Valid() && model == ApplyStop(old(model), entry.id)
    {
      model := ApplyStop(model, entry.id);
      if entry.handle {
        entry.stopped := true;
      }
    }
  }
}
