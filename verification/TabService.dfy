/**
  One user's tabs in the core service, one transition per lock section.

  A tab object is named by its position in `objs`, because a prompt in flight keeps the object it looked
  up: `Install` reaches it even after the tab was closed.  Tab ids and run handles are new at each use; a
  run's cancel function is named by the run's handle.  Views of a buffer are taken without the lock: `Look`
  begins one, and each `Peek` is one read or write of it.
 */
module TabService {
  import opened Text
  import opened Seqs
  import SB = ScrollBuffer
  import SV = BufferViews
  import PH = PromptHistory

  const DEFAULT_EFFORT := "medium"

  datatype Config = Config(maxLines: nat, theme: string, model: string)

  /** What `NormalizeServiceConfig` leaves. */
  predicate Normal(cfg: Config) {
    cfg.maxLines > 0 && cfg.theme != ""
  }

  datatype Status = Idle | Running

  datatype Usage = Usage(input: int, output: int)

  datatype Tab = Tab(
    id: string, name: string, repo: string, model: string, effort: string, session: string,
    status: Status, run: Option<nat>, cancel: Option<nat>, usage: Option<Usage>,
    buffer: SB.Buf, history: PH.Hist, commands: seq<nat>)

  /** A view of a tab object's buffer, or of the system buffer. */
  datatype Looking = Looking(of: Option<nat>, viewer: SV.Viewer)

  /** `used` and `handles` are the tab ids and run handles ever drawn, `views` the views ever begun. */
  datatype State = State(
    tabs: map<string, nat>, objs: seq<Tab>, order: seq<string>, system: SB.Buf, theme: string,
    used: set<string>, handles: set<nat>, views: seq<Looking>)
  {
    ghost predicate Wf() {
      forall id :: id in tabs ==> tabs[id] < |objs|
    }

    function At(id: string): Tab
      requires Wf() && id in tabs
    {
      objs[tabs[id]]
    }
  }

  /** What a lock section does to the tab it looks up by id. */
  datatype Op =
    | Finish(handle: nat)
    | Capture(thread: string)
    | TurnUsage(usage: Usage)
    | Renew
    | SetModel(model: string, effort: string)
    | SwitchRepo(repo: string)
    | Output(lines: seq<string>)
    | Scroll(delta: int, limit: int)
    | Remember(entry: string)
    | Register(handle: nat)
    | Unregister(handle: nat)

  datatype Step =
    | Create(id: string, name: string, repo: string)
    | Close(id: string)
    | Install(ref: nat, handle: nat)
    | OnTab(id: string, op: Op)
    | SetTheme(theme: string)
    | SystemOutput(lines: seq<string>)
    | Look(of: Option<nat>, limit: int)
    | Peek(view: nat)

  function Init(cfg: Config): State {
    State(map[], [], [], SB.New(cfg.maxLines), cfg.theme, {}, {}, [])
  }

  function NewTab(cfg: Config, id: string, name: string, repo: string): Tab {
    Tab(id, name, repo, cfg.model, DEFAULT_EFFORT, "", Idle, None, None, None,
        SB.New(cfg.maxLines), PH.New(PH.DEFAULT_MAX), [])
  }

  function Without(hs: seq<nat>, h: nat): seq<nat> {
    if hs == [] then []
    else Without(hs[..|hs|-1], h) + if hs[|hs|-1] == h then [] else [hs[|hs|-1]]
  }

  function Update(t: Tab, op: Op): Tab {
    match op
    case Finish(h) => if t.run == Some(h) then t.(status := Idle, run := None, cancel := None) else t
    case Capture(thread) => if thread != "" && t.session == "" then t.(session := thread) else t
    case TurnUsage(u) => t.(usage := Some(u))
    case Renew => if t.status == Running then t else t.(session := "", usage := None)
    case SetModel(m, e) =>
      t.(model := m, effort := if !Blank(e) then e else if Blank(t.effort) then DEFAULT_EFFORT else t.effort)
    case SwitchRepo(r) => t.(repo := r)
    case Output(lines) => t.(buffer := t.buffer.Append(lines))
    case Scroll(d, l) => t.(buffer := t.buffer.Scroll(d, l))
    case Remember(e) => t.(history := t.history.Append(e))
    case Register(h) => t.(commands := t.commands + [h])
    case Unregister(h) => t.(commands := Without(t.commands, h))
  }

  /** `removeTabID`: without the first occurrence of `id`. */
  function Remove(order: seq<string>, id: string): seq<string> {
    if order == [] then []
    else if order[0] == id then order[1..]
    else [order[0]] + Remove(order[1..], id)
  }

  /** What installing a run on a tab object does, whatever its handle. */
  function InstalledOn(s: State, r: nat, h: nat): State
    requires r < |s.objs|
  {
    s.(objs := s.objs[r := s.objs[r].(status := Running, run := Some(h), cancel := Some(h))],
       handles := s.handles + {h})
  }

  /** The lock section that installs a started run on the tab object its prompt looked up. */
  function ApplyInstall(s: State, r: nat, h: nat): State {
    if r >= |s.objs| || h in s.handles then s else InstalledOn(s, r, h)
  }

  /** What creating a tab does, whatever its id. */
  function Created(s: State, cfg: Config, id: string, name: string, repo: string): State {
    s.(tabs := s.tabs[id := |s.objs|], objs := s.objs + [NewTab(cfg, id, name, repo)],
       order := s.order + [id], used := s.used + {id})
  }

  function ApplyCreate(s: State, cfg: Config, id: string, name: string, repo: string): State {
    if id in s.used || id == "" then s else Created(s, cfg, id, name, repo)
  }

  function ApplyClose(s: State, id: string): State {
    if id !in s.tabs then s else s.(tabs := s.tabs - {id}, order := Remove(s.order, id))
  }

  function ApplyOp(s: State, id: string, op: Op): State
    requires s.Wf()
  {
    if id !in s.tabs then s else s.(objs := s.objs[s.tabs[id] := Update(s.At(id), op)])
  }

  predicate HasBuffer(s: State, of: Option<nat>) {
    of.Some? ==> of.value < |s.objs|
  }

  function BufferOf(s: State, of: Option<nat>): SB.Buf
    requires HasBuffer(s, of)
  {
    if of.None? then s.system else s.objs[of.value].buffer
  }

  function SetBuffer(s: State, of: Option<nat>, b: SB.Buf): State
    requires HasBuffer(s, of)
  {
    if of.None? then s.(system := b) else s.(objs := s.objs[of.value := s.objs[of.value].(buffer := b)])
  }

  predicate ViewOk(s: State, l: Looking) {
    HasBuffer(s, l.of) && BufferOf(s, l.of).Wf() && l.viewer.Ok(|BufferOf(s, l.of).lines|)
  }

  function ApplyLook(s: State, of: Option<nat>, limit: int): State {
    if !HasBuffer(s, of) then s
    else s.(views := s.views + [Looking(of, SV.Begin(BufferOf(s, of), limit))])
  }

  function ApplyPeek(s: State, v: nat): State {
    if v >= |s.views| || !ViewOk(s, s.views[v]) then s
    else
      var Looking(of, viewer) := s.views[v];
      var b := BufferOf(s, of);
      SetBuffer(s, of, SV.Touch(b, viewer)).(views := s.views[v := Looking(of, SV.Next(b, viewer))])
  }

  function Apply(s: State, cfg: Config, step: Step): (s': State)
    requires s.Wf()
    ensures s'.Wf()
  {
    match step
    case Create(id, name, repo) => ApplyCreate(s, cfg, id, name, repo)
    case Close(id) => ApplyClose(s, id)
    case Install(r, h) => ApplyInstall(s, r, h)
    case OnTab(id, op) => ApplyOp(s, id, op)
    case SetTheme(theme) => if Blank(theme) then s else s.(theme := theme)
    case SystemOutput(lines) => s.(system := s.system.Append(lines))
    case Look(of, limit) => ApplyLook(s, of, limit)
    case Peek(v) => ApplyPeek(s, v)
  }

  function Exec(s: State, cfg: Config, steps: seq<Step>): (s': State)
    requires s.Wf()
    ensures s'.Wf()
  {
    if steps == [] then s else Apply(Exec(s, cfg, steps[..|steps|-1]), cfg, steps[|steps|-1])
  }

  datatype PromptCheck = NotFound | Busy | Proceed(ref: nat)

  /** The first lock section of `SendPrompt`. */
  function CheckPrompt(s: State, id: string): PromptCheck
    requires s.Wf()
  {
    if id !in s.tabs then NotFound
    else if s.At(id).status == Running then Busy
    else Proceed(s.tabs[id])
  }

  // ----- Save and load -----

  datatype TabSnap = TabSnap(
    id: string, name: string, repo: string, model: string, effort: string, session: string,
    buffer: SB.Persisted, history: seq<string>)

  datatype Snapshot = Snapshot(order: seq<string>, tabs: seq<TabSnap>, system: SB.Persisted, theme: string)

  function SaveTab(t: Tab): TabSnap {
    TabSnap(t.id, t.name, t.repo, t.model, t.effort, t.session, t.buffer.Export(), t.history.entries)
  }

  function SaveTabs(s: State, order: seq<string>): seq<TabSnap>
    requires s.Wf()
  {
    if order == [] then []
    else
      var id := order[|order|-1];
      SaveTabs(s, order[..|order|-1]) + if id in s.tabs then [SaveTab(s.At(id))] else []
  }

  function Save(s: State): Snapshot
    requires s.Wf()
  {
    Snapshot(s.order, SaveTabs(s, s.order), s.system.Export(), s.theme)
  }

  function LoadTab(t: TabSnap, cfg: Config): Tab {
    Tab(t.id, t.name, t.repo, t.model, if Blank(t.effort) then DEFAULT_EFFORT else t.effort, t.session,
        Idle, None, None, None, SB.Restore(t.buffer, cfg.maxLines), PH.Restore(t.history), [])
  }

  /** Where each id was last saved. */
  function LoadIndex(snaps: seq<TabSnap>): (index: map<string, nat>)
    ensures forall id :: id in index ==> index[id] < |snaps|
  {
    if snaps == [] then map[] else LoadIndex(snaps[..|snaps|-1])[snaps[|snaps|-1].id := |snaps| - 1]
  }

  function Known(order: seq<string>, index: map<string, nat>): seq<string> {
    if order == [] then []
    else Known(order[..|order|-1], index) + if order[|order|-1] in index then [order[|order|-1]] else []
  }

  function LoadObjs(snaps: seq<TabSnap>, cfg: Config): (objs: seq<Tab>)
    ensures |objs| == |snaps| && forall i :: 0 <= i < |snaps| ==> objs[i] == LoadTab(snaps[i], cfg)
  {
    seq(|snaps|, i requires 0 <= i < |snaps| => LoadTab(snaps[i], cfg))
  }

  function Ids(snaps: seq<TabSnap>): (ids: seq<string>)
    ensures |ids| == |snaps| && forall i :: 0 <= i < |snaps| ==> ids[i] == snaps[i].id
  {
    seq(|snaps|, i requires 0 <= i < |snaps| => snaps[i].id)
  }

  /** The saved order, as far as its tabs were saved; if it names none of them, the order of the tabs. */
  function LoadOrder(snap: Snapshot): seq<string> {
    var order := Known(snap.order, LoadIndex(snap.tabs));
    if order == [] then Ids(snap.tabs) else order
  }

  function Load(snap: Snapshot, cfg: Config): (s: State)
    ensures s.Wf()
  {
    State(LoadIndex(snap.tabs), LoadObjs(snap.tabs, cfg), LoadOrder(snap),
          SB.Restore(snap.system, cfg.maxLines),
          if snap.theme == "" then cfg.theme else snap.theme,
          set id | id in Ids(snap.tabs), {}, [])
  }

  // ----- Invariant of every run -----

  predicate TabOk(t: Tab, cfg: Config) {
    && (t.status == Running <==> t.run.Some?) && t.cancel == t.run
    && t.buffer.Wf() && t.buffer.max == cfg.maxLines
    && t.history.Wf() && t.history.max == PH.DEFAULT_MAX
    && !Blank(t.effort)
  }

  ghost predicate OrderOk(s: State) {
    && Distinct(s.order)
    && (forall id :: id in s.order <==> id in s.tabs)
    && (forall id :: id in s.tabs ==> id in s.used && id != "")
  }

  /** Each tab id names one object. */
  ghost predicate ObjsOk(s: State) {
    && (forall id :: id in s.tabs ==> s.tabs[id] < |s.objs| && s.objs[s.tabs[id]].id == id)
    && (forall i :: 0 <= i < |s.objs| ==> s.objs[i].id in s.used)
    && (forall i, j :: 0 <= i < j < |s.objs| ==> s.objs[i].id != s.objs[j].id)
  }

  ghost predicate AllTabsOk(s: State, cfg: Config) {
    forall i :: 0 <= i < |s.objs| ==> TabOk(s.objs[i], cfg)
  }

  /** Every view begun can go on: none will read beyond its buffer. */
  ghost predicate ViewsOk(s: State) {
    forall v :: 0 <= v < |s.views| ==> ViewOk(s, s.views[v])
  }

  /** What holds of tabs and views even if the order they were loaded in was damaged. */
  ghost predicate Bounded(s: State, cfg: Config) {
    AllTabsOk(s, cfg) && s.system.Wf() && s.system.max == cfg.maxLines && ViewsOk(s) && Drawn(s)
  }

  /** The runs installed have handles that were drawn. */
  ghost predicate Drawn(s: State) {
    forall i :: 0 <= i < |s.objs| && s.objs[i].run.Some? ==> s.objs[i].run.value in s.handles
  }

  ghost predicate Inv(s: State, cfg: Config) {
    OrderOk(s) && ObjsOk(s) && Bounded(s, cfg) && s.theme != ""
  }

  lemma UpdateKeepsTabOk(t: Tab, op: Op, cfg: Config)
    requires TabOk(t, cfg)
    ensures TabOk(Update(t, op), cfg) && Update(t, op).id == t.id && Update(t, op).name == t.name
  {
    match op
    case Remember(e) => LastKeepsEnd(t.history.entries + [e], t.history.max);
    case Output(lines) => SB.OperationsKeepWf(t.buffer, lines, 0, 0);
    case Scroll(d, l) => SB.OperationsKeepWf(t.buffer, [], d, l);
    case _ =>
  }

  lemma {:induction false} RemoveIsExact(order: seq<string>, id: string)
    requires Distinct(order)
    ensures var rest := Remove(order, id);
            Distinct(rest) && forall x :: x in rest <==> x in order && x != id
  {
    if order != [] {
      var tail := order[1..];
      assert forall x :: x in order <==> x == order[0] || x in tail;
      assert order[0] !in tail;
      RemoveIsExact(tail, id);
    }
  }

  /** Closing takes the tab out of the order and leaves the others as they stand. */
  lemma {:induction false} RemoveKeepsOrder(before: seq<string>, id: string, behind: seq<string>)
    requires id !in before
    ensures Remove(before + [id] + behind, id) == before + behind
  {
    if before == [] {
      assert [] + [id] + behind == [id] + behind && ([id] + behind)[1..] == behind && [] + behind == behind;
    } else {
      var all := before + [id] + behind;
      assert all[0] == before[0] && all[1..] == before[1..] + [id] + behind;
      RemoveKeepsOrder(before[1..], id, behind);
      assert [before[0]] + (before[1..] + behind) == before + behind;
    }
  }

  lemma {:induction false} RemoveNothing(order: seq<string>, id: string)
    requires id !in order
    ensures Remove(order, id) == order
  {
    if order != [] {
      RemoveNothing(order[1..], id);
    }
  }

  lemma CreateKeepsOrder(s: State, cfg: Config, id: string, name: string, repo: string)
    requires OrderOk(s) && ObjsOk(s)
    ensures OrderOk(ApplyCreate(s, cfg, id, name, repo)) && ObjsOk(ApplyCreate(s, cfg, id, name, repo))
  {}

  /** Creating a tab keeps the order in step with the tabs exactly when no open tab has its id. */
  lemma CreatedInOrderIff(s: State, cfg: Config, id: string, name: string, repo: string)
    requires OrderOk(s) && id != ""
    ensures OrderOk(Created(s, cfg, id, name, repo)) <==> id !in s.tabs
  {
    var s' := Created(s, cfg, id, name, repo);
    if id in s.tabs {
      var i :| 0 <= i < |s.order| && s.order[i] == id;
      assert s'.order[i] == s'.order[|s.order|];
    }
  }

  /** It keeps the whole invariant exactly when no tab ever had its id, open or not, and it is not empty. */
  lemma CreatedKeepsInvIff(s: State, cfg: Config, id: string, name: string, repo: string)
    requires Normal(cfg) && Inv(s, cfg)
    ensures Inv(Created(s, cfg, id, name, repo), cfg) <==>
            id != "" && forall i :: 0 <= i < |s.objs| ==> s.objs[i].id != id
  {
    var s' := Created(s, cfg, id, name, repo);
    CreateKeepsBounded(s, cfg, id, name, repo);
    if Inv(s', cfg) {
      forall i | 0 <= i < |s.objs| ensures s.objs[i].id != id {
        assert s'.objs[i].id != s'.objs[|s.objs|].id;
      }
      assert id in s'.tabs;
    } else if id != "" && forall i :: 0 <= i < |s.objs| ==> s.objs[i].id != id {
      assert id in s.tabs ==> s.objs[s.tabs[id]].id == id;
      CreatedInOrderIff(s, cfg, id, name, repo);
    }
  }

  /** The id drawn when there are no random numbers, drawn twice. */
  lemma FallbackIdTwice(cfg: Config, name: string, repo: string)
    ensures var s := Created(Init(cfg), cfg, "tab-unknown", name, repo);
            OrderOk(s) && !OrderOk(Created(s, cfg, "tab-unknown", name, repo))
  {
    assert "tab-unknown"[0] == 't';
    var s := Created(Init(cfg), cfg, "tab-unknown", name, repo);
    CreatedInOrderIff(Init(cfg), cfg, "tab-unknown", name, repo);
    CreatedInOrderIff(s, cfg, "tab-unknown", name, repo);
  }

  /** No step takes lines away from a buffer. */
  predicate Grown(s: State, s': State) {
    && |s.objs| <= |s'.objs| && |s.system.lines| <= |s'.system.lines|
    && forall i :: 0 <= i < |s.objs| ==> |s.objs[i].buffer.lines| <= |s'.objs[i].buffer.lines|
  }

  lemma ViewsStayOk(s: State, s': State, cfg: Config)
    requires ViewsOk(s) && s'.views == s.views && Grown(s, s')
    requires AllTabsOk(s', cfg) && s'.system.Wf()
    ensures ViewsOk(s')
  {
    forall v | 0 <= v < |s'.views| ensures ViewOk(s', s'.views[v]) {
      assert ViewOk(s, s.views[v]);
      assert s.views[v].of.Some? ==> TabOk(s'.objs[s.views[v].of.value], cfg);
    }
  }

  lemma CreateKeepsBounded(s: State, cfg: Config, id: string, name: string, repo: string)
    requires Normal(cfg) && Bounded(s, cfg)
    ensures Bounded(Created(s, cfg, id, name, repo), cfg)
  {
    assert DEFAULT_EFFORT[0] == 'm';
    ViewsStayOk(s, Created(s, cfg, id, name, repo), cfg);
  }

  lemma InstallKeepsBounded(s: State, cfg: Config, r: nat, h: nat)
    requires Bounded(s, cfg) && r < |s.objs|
    ensures Bounded(InstalledOn(s, r, h), cfg)
  {
    ViewsStayOk(s, InstalledOn(s, r, h), cfg);
  }

  lemma OpKeepsBounded(s: State, cfg: Config, id: string, op: Op)
    requires s.Wf() && Bounded(s, cfg)
    ensures Bounded(ApplyOp(s, id, op), cfg)
  {
    if id in s.tabs {
      UpdateKeepsTabOk(s.At(id), op, cfg);
      UpdateKeepsRun(s.At(id), op);
      ViewsStayOk(s, ApplyOp(s, id, op), cfg);
    }
  }

  lemma UpdateKeepsRun(t: Tab, op: Op)
    requires t.buffer.Wf()
    ensures |t.buffer.lines| <= |Update(t, op).buffer.lines|
    ensures Update(t, op).run == t.run || Update(t, op).run == None
  {}

  lemma SystemKeepsBounded(s: State, cfg: Config, lines: seq<string>)
    requires Bounded(s, cfg)
    ensures Bounded(s.(system := s.system.Append(lines)), cfg)
  {
    SB.OperationsKeepWf(s.system, lines, 0, 0);
    ViewsStayOk(s, s.(system := s.system.Append(lines)), cfg);
  }

  /** What a view may do to its buffer while others watch it. */
  lemma SetKeepsBounded(s: State, cfg: Config, of: Option<nat>, b: SB.Buf)
    requires Bounded(s, cfg) && HasBuffer(s, of) && b.Wf()
    requires b.lines == BufferOf(s, of).lines && b.max == BufferOf(s, of).max
    ensures Bounded(SetBuffer(s, of, b), cfg)
  {
    ViewsStayOk(s, SetBuffer(s, of, b), cfg);
  }

  lemma PeekKeepsBounded(s: State, cfg: Config, v: nat)
    requires Bounded(s, cfg)
    ensures Bounded(ApplyPeek(s, v), cfg)
  {
    if v < |s.views| && ViewOk(s, s.views[v]) {
      var Looking(of, viewer) := s.views[v];
      var b := BufferOf(s, of);
      SV.TouchKeepsWf(b, viewer);
      SetKeepsBounded(s, cfg, of, SV.Touch(b, viewer));
      var s' := SetBuffer(s, of, SV.Touch(b, viewer));
      assert ViewOk(s', Looking(of, SV.Next(b, viewer)));
      NextViewOk(s', v, Looking(of, SV.Next(b, viewer)));
    }
  }

  lemma NextViewOk(s: State, v: nat, l: Looking)
    requires ViewsOk(s) && v < |s.views| && ViewOk(s, l)
    ensures ViewsOk(s.(views := s.views[v := l]))
  {
    var s' := s.(views := s.views[v := l]);
    forall w | 0 <= w < |s'.views| ensures ViewOk(s', s'.views[w]) {
      assert ViewOk(s, s'.views[w]);
    }
  }

  lemma LookKeepsBounded(s: State, cfg: Config, of: Option<nat>, limit: int)
    requires Bounded(s, cfg)
    ensures Bounded(ApplyLook(s, of, limit), cfg)
  {
    if HasBuffer(s, of) {
      var s', l := ApplyLook(s, of, limit), Looking(of, SV.Begin(BufferOf(s, of), limit));
      assert of.Some? ==> TabOk(s.objs[of.value], cfg);
      assert ViewOk(s, l);
      forall w | 0 <= w < |s'.views| ensures ViewOk(s', s'.views[w]) {
        assert w < |s.views| ==> ViewOk(s, s.views[w]);
      }
    }
  }

  lemma StepKeepsBounded(s: State, cfg: Config, step: Step)
    requires Normal(cfg) && s.Wf() && Bounded(s, cfg)
    ensures Bounded(Apply(s, cfg, step), cfg)
  {
    match step
    case Create(id, name, repo) => CreateKeepsBounded(s, cfg, id, name, repo);
    case Close(id) => ViewsStayOk(s, ApplyClose(s, id), cfg);
    case Install(r, h) =>
      if r < |s.objs| { InstallKeepsBounded(s, cfg, r, h); }
    case OnTab(id, op) => OpKeepsBounded(s, cfg, id, op);
    case SetTheme(theme) => ViewsStayOk(s, s.(theme := theme), cfg);
    case SystemOutput(lines) => SystemKeepsBounded(s, cfg, lines);
    case Look(of, limit) => LookKeepsBounded(s, cfg, of, limit);
    case Peek(v) => PeekKeepsBounded(s, cfg, v);
  }

  predicate SameNames(s: State, s': State) {
    && s'.tabs == s.tabs && s'.order == s.order && s'.used == s.used && |s'.objs| == |s.objs|
    && forall i :: 0 <= i < |s.objs| ==> s'.objs[i].id == s.objs[i].id
  }

  /** A step that neither creates nor closes leaves names and order alone. */
  lemma OtherKeepsNames(s: State, cfg: Config, step: Step)
    requires s.Wf() && !step.Create? && !step.Close?
    ensures SameNames(s, Apply(s, cfg, step))
  {}

  lemma SameNamesKeepOrder(s: State, s': State)
    requires OrderOk(s) && ObjsOk(s) && SameNames(s, s')
    ensures OrderOk(s') && ObjsOk(s')
  {
    assert forall i :: 0 <= i < |s'.objs| ==> s'.objs[i].id == s.objs[i].id;
  }

  lemma ThemeStays(s: State, cfg: Config, step: Step)
    requires s.Wf() && s.theme != ""
    ensures Apply(s, cfg, step).theme != ""
  {}

  lemma StepKeepsInv(s: State, cfg: Config, step: Step)
    requires Normal(cfg) && Inv(s, cfg)
    ensures Inv(Apply(s, cfg, step), cfg)
  {
    StepKeepsBounded(s, cfg, step);
    ThemeStays(s, cfg, step);
    match step
    case Create(id, name, repo) => CreateKeepsOrder(s, cfg, id, name, repo);
    case Close(id) => RemoveIsExact(s.order, id);
    case _ =>
      OtherKeepsNames(s, cfg, step);
      SameNamesKeepOrder(s, Apply(s, cfg, step));
  }

  lemma {:induction false} RunKeepsInv(s: State, cfg: Config, steps: seq<Step>)
    requires Normal(cfg) && Inv(s, cfg)
    ensures Inv(Exec(s, cfg, steps), cfg)
  {
    if steps != [] {
      RunKeepsInv(s, cfg, steps[..|steps|-1]);
      StepKeepsInv(Exec(s, cfg, steps[..|steps|-1]), cfg, steps[|steps|-1]);
    }
  }
}
