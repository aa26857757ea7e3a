/** The service's lock sections over tab objects, each proved to be one step of `TabService`. */
module TabImpl {
  import opened Text
  import opened TabService

  class TabObj {
    const id: string
    const name: string
    ghost const ref: nat
    var repo: string
    var model: string
    var effort: string
    var session: string
    var status: Status
    var run: Option<nat>
    var cancel: Option<nat>
    var usage: Option<Usage>
    var buffer: SB.Buf
    var history: PH.Hist
    var commands: seq<nat>

    function Value(): Tab
      reads this
    {
      Tab(id, name, repo, model, effort, session, status, run, cancel, usage, buffer, history, commands)
    }

    ghost predicate Is(ref: nat, t: Tab)
      reads this
    {
      this.ref == ref && Value() == t
    }

    constructor (t: Tab, ghost ref: nat)
      ensures Is(ref, t)
    {
      this.ref, id, name, repo, model, effort := ref, t.id, t.name, t.repo, t.model, t.effort;
      session, status, run, cancel, usage := t.session, t.status, t.run, t.cancel, t.usage;
      buffer, history, commands := t.buffer, t.history, t.commands;
    }

    method Finish(handle: nat) returns (idle: bool)
      modifies this
      ensures Value() == Update(old(Value()), Op.Finish(handle))
      ensures idle <==> old(run) == Some(handle)
    {
      idle := run == Some(handle);
      if idle {
        status := Idle;
        run := None;
        cancel := None;
      }
    }

    method Capture(thread: string) returns (changed: bool)
      modifies this
      ensures Value() == Update(old(Value()), Op.Capture(thread))
      ensures changed <==> old(session) == ""
    {
      changed := session == "";
      if changed {
        session := thread;
      }
    }

    method Renew() returns (renewed: bool)
      modifies this
      ensures Value() == Update(old(Value()), Op.Renew)
      ensures renewed <==> old(status) != Running
    {
      renewed := status != Running;
      if renewed {
        session := "";
        usage := None;
      }
    }

    method SetModel(model: string, effort: string)
      modifies this
      ensures Value() == Update(old(Value()), Op.SetModel(model, effort))
    {
      this.model := model;
      if Blank(this.effort) {
        this.effort := DEFAULT_EFFORT;
      }
      if !Blank(effort) {
        this.effort := effort;
      }
    }

    method Unregister(handle: nat)
      modifies this
      ensures Value() == Update(old(Value()), Op.Unregister(handle))
    {
      var next := [];
      for i := 0 to |commands|
        invariant next == Without(commands[..i], handle)
      {
        assert commands[..i+1][..i] == commands[..i];
        if commands[i] != handle {
          next := next + [commands[i]];
        }
      }
      assert commands[..|commands|] == commands;
      commands := next;
    }
  }

  /** The session preferences a request carries. */
  class Prefs {
    var activeTab: string
  }

  /** `removeTabID` */
  method RemoveTabID(order: seq<string>, id: string) returns (rest: seq<string>)
    ensures rest == Remove(order, id)
  {
    for i := 0 to |order|
      invariant forall k :: 0 <= k < i ==> order[k] != id
    {
      if order[i] == id {
        assert order == order[..i] + [id] + order[i + 1..];
        RemoveKeepsOrder(order[..i], id, order[i + 1..]);
        return order[..i] + order[i + 1..];
      }
    }
    RemoveNothing(order, id);
    return order;
  }

  /** The objects are what loading the snapshots gives, and the map leads to them. */
  ghost predicate Loaded(snaps: seq<TabSnap>, cfg: Config, tabs: map<string, TabObj>, objs: seq<TabObj>)
    reads objs
  {
    && |objs| == |snaps| && (forall i :: 0 <= i < |objs| ==> objs[i].Is(i, LoadTab(snaps[i], cfg)))
    && tabs.Keys == LoadIndex(snaps).Keys && (forall id :: id in tabs ==> tabs[id] == objs[LoadIndex(snaps)[id]])
  }

  lemma LoadedOneMore(snaps: seq<TabSnap>, snap: TabSnap, cfg: Config, tabs: map<string, TabObj>, objs: seq<TabObj>,
                      tab: TabObj)
    requires Loaded(snaps, cfg, tabs, objs) && tab.Is(|objs|, LoadTab(snap, cfg))
    ensures Loaded(snaps + [snap], cfg, tabs[snap.id := tab], objs + [tab])
  {
    assert (snaps + [snap])[..|snaps|] == snaps;
  }

  /** The tab objects of a loaded snapshot; an id saved twice keeps the later one. */
  method LoadTabObjs(snaps: seq<TabSnap>, cfg: Config) returns (tabs: map<string, TabObj>, ghost objs: seq<TabObj>)
    ensures fresh(objs) && Loaded(snaps, cfg, tabs, objs)
  {
    tabs, objs := map[], [];
    assert snaps[..0] == [];
    for n := 0 to |snaps|
      invariant fresh(objs) && Loaded(snaps[..n], cfg, tabs, objs)
    {
      var tab := new TabObj(LoadTab(snaps[n], cfg), n);
      LoadedOneMore(snaps[..n], snaps[n], cfg, tabs, objs, tab);
      assert snaps[..n] + [snaps[n]] == snaps[..n + 1];
      tabs := tabs[snaps[n].id := tab];
      objs := objs + [tab];
    }
    assert snaps[..|snaps|] == snaps;
  }

  method LoadOrderIds(snap: Snapshot, tabs: map<string, TabObj>) returns (order: seq<string>)
    requires tabs.Keys == LoadIndex(snap.tabs).Keys
    ensures order == LoadOrder(snap)
  {
    order := [];
    for n := 0 to |snap.order|
      invariant order == Known(snap.order[..n], LoadIndex(snap.tabs))
    {
      assert snap.order[..n+1][..n] == snap.order[..n];
      if snap.order[n] in tabs {
        order := order + [snap.order[n]];
      }
    }
    assert snap.order[..|snap.order|] == snap.order;
    if |order| == 0 {
      for n := 0 to |snap.tabs|
        invariant order == Ids(snap.tabs)[..n]
      {
        order := order + [snap.tabs[n].id];
      }
    }
  }

  datatype CloseResult = Missing | Closed(run: Option<nat>, cancel: Option<nat>, commands: seq<nat>)

  datatype StopLookup = NotThere | Stopping(tab: TabObj, run: Option<nat>, commands: seq<nat>)

  /** What closing a tab hands over to be stopped: its run, the run's cancel function and its commands. */
  ghost predicate HandsOver(r: CloseResult, s: State, id: string)
    requires s.Wf()
  {
    if id !in s.tabs then r == Missing
    else r.Closed? && r.run == s.At(id).run && r.cancel == s.At(id).cancel && r.commands == s.At(id).commands
  }

  datatype PromptLookup = NoTab | TabBusy | Found(tab: TabObj)

  class UserState {
    const cfg: Config
    var tabs: map<string, TabObj>
    var order: seq<string>
    var system: SB.Buf
    var theme: string
    ghost var all: seq<TabObj>
    ghost var model: State

    ghost predicate Valid()
      reads this, all
    {
      && model.Wf() && Matches()
      && tabs.Keys == model.tabs.Keys && (forall id :: id in tabs ==> tabs[id] == all[model.tabs[id]])
      && order == model.order && system == model.system && theme == model.theme
    }

    ghost predicate Matches()
      reads this, all
    {
      |all| == |model.objs| && forall i :: 0 <= i < |all| ==> all[i].Is(i, model.objs[i])
    }

    constructor (cfg: Config)
      ensures Valid() && model == Init(cfg) && this.cfg == cfg
    {
      this.cfg := cfg;
      tabs, order, system, theme := map[], [], SB.New(cfg.maxLines), cfg.theme;
      all, model := [], Init(cfg);
    }

    /** `loadUserStateLocked` when the store holds a snapshot. */
    constructor FromSnapshot(snap: Snapshot, cfg: Config)
      ensures Valid() && model == Load(snap, cfg) && this.cfg == cfg
    {
      this.cfg := cfg;
      var loaded, objs := LoadTabObjs(snap.tabs, cfg);
      var ids := LoadOrderIds(snap, loaded);
      tabs, order, all, model := loaded, ids, objs, Load(snap, cfg);
      system := SB.Restore(snap.system, cfg.maxLines);
      theme := if snap.theme == "" then cfg.theme else snap.theme;
    }

    /** Puts a new tab into the map and the order. */
    method PutIn(id: string, name: string, repo: string) returns (tab: TabObj)
      requires Valid()
      modifies this
      ensures Valid() && model == Created(old(model), cfg, id, name, repo) && all == old(all) + [tab]
    {
      ghost var s := Created(model, cfg, id, name, repo);
      tab := new TabObj(NewTab(cfg, id, name, repo), |all|);
      all := all + [tab];
      model := s;
      assert s.objs[|all| - 1] == tab.Value();
      assert Matches();
      tabs := tabs[id := tab];
      order := order + [id];
    }

    /** The lock section of `CreateTab`, for an id that is new or not. */
    method CreateTab(id: string, name: string, repo: string, prefs: Prefs?) returns (tab: TabObj, active: string)
      requires Valid()
      modifies this, prefs
      ensures Valid() && model == Created(old(model), cfg, id, name, repo) && all == old(all) + [tab]
      ensures Reports(prefs, if prefs == null then "" else old(prefs.activeTab), active)
    {
      tab := PutIn(id, name, repo);
      active := ActiveTab(prefs);
    }

    /** Takes a tab out of the map and the order. */
    method TakeOut(id: string) returns (r: CloseResult)
      requires Valid()
      modifies this
      ensures Valid() && model == ApplyClose(old(model), id) && all == old(all)
      ensures HandsOver(r, old(model), id)
    {
      if id !in tabs { return Missing; }
      var tab := tabs[id];
      tabs := tabs - {id};
      order := RemoveTabID(order, id);
      model := ApplyClose(model, id);
      return Closed(tab.run, tab.cancel, tab.commands);
    }

    /** The lock section of `CloseTab`, which also forgets the tab if it was the remembered one. */
    method CloseTab(id: string, prefs: Prefs?) returns (r: CloseResult, active: string)
      requires Valid()
      modifies this, prefs
      ensures Valid() && model == ApplyClose(old(model), id) && all == old(all)
      ensures HandsOver(r, old(model), id)
      ensures r != Missing ==>
        Reports(prefs, if prefs == null || old(prefs.activeTab) == id then "" else old(prefs.activeTab), active)
    {
      r := TakeOut(id);
      if r == Missing { return r, ""; }
      if prefs != null && prefs.activeTab == id {
        prefs.activeTab := "";
      }
      active := ActiveTab(prefs);
    }

    /** First lock section of `SendPrompt`. */
    method LookupForPrompt(id: string, prefs: Prefs?) returns (r: PromptLookup, active: string)
      requires Valid()
      modifies prefs
      ensures Valid() && Reports(prefs, if prefs == null then "" else old(prefs.activeTab), active)
      ensures match CheckPrompt(model, id)
              case NotFound => r == NoTab
              case Busy => r == TabBusy
              case Proceed(ref) => r == Found(all[ref])
    {
      active := ActiveTab(prefs);
      if id !in tabs { return NoTab, active; }
      if tabs[id].status == Running { return TabBusy, active; }
      return Found(tabs[id]), active;
    }

    /** Second lock section of `SendPrompt`: `tab` may have been closed since, and any handle will do. */
    method InstallRun(tab: TabObj, handle: nat)
      requires Valid() && tab in all
      modifies this`model, tab
      ensures Valid() && tab.ref < |old(model).objs| && model == InstalledOn(old(model), tab.ref, handle)
    {
      tab.status := Running;
      tab.run := Some(handle);
      tab.cancel := Some(handle);
      model := InstalledOn(model, tab.ref, handle);
    }

    /** The lock section of `StopSession`, which reads the tab's run but not yet its cancel function. */
    method LookupForStop(id: string, prefs: Prefs?) returns (r: StopLookup, active: string)
      requires Valid()
      modifies prefs
      ensures Valid() && Reports(prefs, if prefs == null then "" else old(prefs.activeTab), active)
      ensures r == if id !in model.tabs then NotThere
                   else Stopping(all[model.tabs[id]], model.At(id).run, model.At(id).commands)
    {
      active := ActiveTab(prefs);
      if id !in tabs { return NotThere, active; }
      return Stopping(tabs[id], tabs[id].run, tabs[id].commands), active;
    }

    /** What `StopSession` reads after it unlocked. */
    method ReadCancel(tab: TabObj) returns (cancel: Option<nat>)
      requires Valid() && tab in all
      ensures tab.ref < |model.objs| && cancel == model.objs[tab.ref].cancel
    {
      return tab.cancel;
    }

    method FinishOn(id: string, handle: nat) returns (idle: bool)
      requires Valid() && id in tabs
      modifies this`model, tabs[id]
      ensures Valid() && model == ApplyOp(old(model), id, Op.Finish(handle))
      ensures idle <==> old(model).At(id).run == Some(handle)
    {
      var tab := tabs[id];
      ghost var s := model;
      idle := tab.Finish(handle);
      model := ApplyOp(s, id, Op.Finish(handle));
      forall i | 0 <= i < |all| ensures all[i].Is(i, model.objs[i]) {
        if i != tab.ref { assert all[i] != tab && all[i].Is(i, s.objs[i]); }
      }
    }

    /** Last lock section of `consumeEvents`; the active tab is reported with the tab that became idle. */
    method FinishRun(id: string, handle: nat, prefs: Prefs?) returns (idle: bool, active: string)
      requires Valid()
      modifies this`model, if id in tabs then {tabs[id]} else {}, prefs
      ensures Valid() && model == ApplyOp(old(model), id, Op.Finish(handle))
      ensures idle <==> id in model.tabs && old(model).At(id).run == Some(handle)
      ensures idle ==> Reports(prefs, if prefs == null then "" else old(prefs.activeTab), active)
      ensures !idle && prefs != null ==> prefs.activeTab == old(prefs.activeTab)
    {
      if id !in tabs { return false, ""; }
      idle := FinishOn(id, handle);
      assert prefs != null ==> prefs.activeTab == old(prefs.activeTab);
      active := "";
      if idle {
        active := ActiveTab(prefs);
      }
    }

    method CaptureOn(id: string, thread: string) returns (changed: bool)
      requires Valid() && id in tabs
      modifies this`model, tabs[id]
      ensures Valid() && model == ApplyOp(old(model), id, Op.Capture(thread))
      ensures changed <==> old(model).At(id).session == ""
    {
      var tab := tabs[id];
      ghost var s := model;
      changed := tab.Capture(thread);
      model := ApplyOp(s, id, Op.Capture(thread));
      forall i | 0 <= i < |all| ensures all[i].Is(i, model.objs[i]) {
        if i != tab.ref { assert all[i] != tab && all[i].Is(i, s.objs[i]); }
      }
    }

    /** `setSessionID` */
    method SetSessionID(id: string, thread: string) returns (changed: bool)
      requires Valid()
      modifies this`model, if id in tabs then {tabs[id]} else {}
      ensures Valid() && model == ApplyOp(old(model), id, Op.Capture(thread))
      ensures changed <==> id in model.tabs && old(model).At(id).session == ""
    {
      if id !in tabs { return false; }
      changed := CaptureOn(id, thread);
    }

    method RenewOn(id: string) returns (renewed: bool)
      requires Valid() && id in tabs
      modifies this`model, tabs[id]
      ensures Valid() && model == ApplyOp(old(model), id, Op.Renew)
      ensures renewed <==> old(model).At(id).status != Running
    {
      var tab := tabs[id];
      ghost var s := model;
      renewed := tab.Renew();
      model := ApplyOp(s, id, Op.Renew);
      forall i | 0 <= i < |all| ensures all[i].Is(i, model.objs[i]) {
        if i != tab.ref { assert all[i] != tab && all[i].Is(i, s.objs[i]); }
      }
    }

    method RenewSession(id: string, prefs: Prefs?) returns (renewed: bool, active: string)
      requires Valid()
      modifies this`model, if id in tabs then {tabs[id]} else {}, prefs
      ensures Valid() && model == ApplyOp(old(model), id, Op.Renew)
      ensures renewed <==> id in model.tabs && old(model).At(id).status != Running
      ensures Reports(prefs, if prefs == null then "" else old(prefs.activeTab), active)
    {
      active := ActiveTab(prefs);
      if id !in tabs { return false, active; }
      renewed := RenewOn(id);
    }

    /**
      What `activeTabFromContext` reports and remembers: the tab remembered before while it is open, else the
      first in order, else any that is open; none only when there is none.
     */
    ghost predicate Reports(prefs: Prefs?, remembered: string, active: string)
      reads this, prefs
    {
      if prefs == null then active == "" else prefs.activeTab == active && Picks(remembered, active)
    }

    ghost predicate Picks(remembered: string, active: string)
      reads this
    {
      && (tabs == map[] ==> active == "") && (tabs != map[] ==> active in tabs)
      && (remembered != "" && remembered in tabs ==> active == remembered)
      && (!(remembered != "" && remembered in tabs) && order != [] && order[0] in tabs ==> active == order[0])
    }

    method PickActive(remembered: string) returns (active: string)
      ensures Picks(remembered, active)
    {
      if |tabs| == 0 { return ""; }
      if remembered != "" && remembered in tabs { return remembered; }
      if |order| > 0 && order[0] in tabs { return order[0]; }
      active :| active in tabs;
    }

    /** `activeTabFromContext` */
    method ActiveTab(prefs: Prefs?) returns (active: string)
      requires Valid()
      modifies prefs
      ensures Valid() && Reports(prefs, if prefs == null then "" else old(prefs.activeTab), active)
      ensures prefs != null && Inv(model, cfg) ==> (active == "" <==> tabs == map[]) && (tabs != map[] ==> order != [])
    {
      if prefs == null { return ""; }
      active := PickActive(prefs.activeTab);
      assert tabs != map[] ==> active in model.tabs;
      prefs.activeTab := active;
    }

    /** `snapshotUser` */
    method SnapshotUser() returns (snap: Snapshot)
      requires Valid()
      ensures snap == Save(model)
    {
      var saved := [];
      for i := 0 to |order|
        invariant saved == SaveTabs(model, order[..i])
      {
        assert order[..i+1][..i] == order[..i];
        if order[i] in tabs {
          saved := saved + [SaveTab(tabs[order[i]].Value())];
        }
      }
      assert order[..|order|] == order;
      snap := Snapshot(order, saved, system.Export(), theme);
    }
  }
}
