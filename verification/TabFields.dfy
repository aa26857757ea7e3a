/** What the service's operations do to a user's tabs, field by field and over whole runs. */
module TabFields {
  import opened Text
  import opened Seqs
  import opened TabService
  import opened TabLaws

  // ----- Which tabs are open -----

  /** A tab is opened by its creation, closed by name, and otherwise left on the object it has. */
  lemma OpenByName(s: State, cfg: Config, step: Step, id: string)
    requires s.Wf()
    ensures var s' := Apply(s, cfg, step);
            if step.Create? && step.id == id && id != "" && id !in s.used then
              id in s'.tabs && s'.tabs[id] == |s.objs|
            else if id in s.tabs && step != Close(id) then
              id in s'.tabs && s'.tabs[id] == s.tabs[id]
            else id !in s'.tabs
  {}

  lemma CloseIsExact(s: State, cfg: Config, id: string, other: string)
    requires s.Wf()
    ensures var s' := Apply(s, cfg, Close(id));
            && (other in s'.tabs <==> other in s.tabs && other != id)
            && (other in s'.tabs ==> s'.tabs[other] == s.tabs[other])
            && s'.objs == s.objs
  {}

  /** A tab is created with what was asked for, the configured model, and nothing else in it. */
  lemma CreatedTabIs(s: State, cfg: Config, id: string, name: string, repo: string)
    requires s.Wf()
    ensures var s' := Created(s, cfg, id, name, repo);
            var t := s'.objs[|s.objs|];
            && s'.Wf() && s'.At(id) == t && s'.order == s.order + [id]
            && (forall other :: other in s.tabs && other != id ==> other in s'.tabs && s'.At(other) == s.At(other))
            && t.id == id && t.name == name && t.repo == repo && t.model == cfg.model && t.effort == "medium"
            && t.session == "" && t.status == Idle && t.run == None && t.cancel == None && t.usage == None
            && t.buffer.lines == [] && t.buffer.offset == 0 && t.history.entries == [] && t.commands == []
  {}

  // ----- Prompts -----

  /** A prompt is refused for a tab that is not open, and for one on which a run is ongoing; else it goes ahead. */
  lemma PromptAnswer(s0: State, cfg: Config, steps: seq<Step>, id: string)
    requires Normal(cfg) && s0.Wf() && NoRuns(s0) && Bounded(s0, cfg)
    ensures var s, log := Exec(s0, cfg, steps), Log(s0, cfg, steps);
            && (CheckPrompt(s, id) == NotFound <==> id !in s.tabs)
            && (CheckPrompt(s, id) == Busy <==> id in s.tabs && exists h: nat :: Ongoing(log, s.tabs[id], h))
            && (CheckPrompt(s, id).Proceed? ==> CheckPrompt(s, id).ref == s.tabs[id])
  {
    var s := Exec(s0, cfg, steps);
    if id in s.tabs {
      RunningIffOngoing(s0, cfg, steps, s.tabs[id]);
    }
  }

  // ----- The operations on one tab -----

  /** What `step` does to tab object `r` by its name. */
  function OpOn(s: State, step: Step, r: nat): seq<Op> {
    if step.OnTab? && step.id in s.tabs && s.tabs[step.id] == r then [step.op] else []
  }

  function OpsOn(s: State, cfg: Config, steps: seq<Step>, r: nat): seq<Op>
    requires s.Wf()
  {
    if steps == [] then []
    else
      var front := steps[..|steps|-1];
      OpsOn(s, cfg, front, r) + OpOn(Exec(s, cfg, front), steps[|steps|-1], r)
  }

  function LastRepo(repo: string, ops: seq<Op>): string {
    if ops == [] then repo
    else
      var op := ops[|ops|-1];
      if op.SwitchRepo? then op.repo else LastRepo(repo, ops[..|ops|-1])
  }

  function LastModel(model: string, ops: seq<Op>): string {
    if ops == [] then model
    else
      var op := ops[|ops|-1];
      if op.SetModel? then op.model else LastModel(model, ops[..|ops|-1])
  }

  /** The last effort given, if any. */
  function LastEffort(effort: string, ops: seq<Op>): string {
    if ops == [] then effort
    else
      var op := ops[|ops|-1];
      if op.SetModel? && !Blank(op.effort) then op.effort else LastEffort(effort, ops[..|ops|-1])
  }

  /** The entries remembered, in order. */
  function Remembered(ops: seq<Op>): seq<string> {
    if ops == [] then []
    else
      var op := ops[|ops|-1];
      Remembered(ops[..|ops|-1]) + if op.Remember? then [op.entry] else []
  }

  lemma FieldStep(s: State, cfg: Config, step: Step, r: nat)
    requires s.Wf() && r < |s.objs|
    ensures r < |Apply(s, cfg, step).objs|
    ensures var t, t' := s.objs[r], Apply(s, cfg, step).objs[r];
            var u := if OpOn(s, step, r) == [] then t else Update(t, OpOn(s, step, r)[0]);
            && t'.id == t.id && t'.name == t.name && t'.repo == u.repo && t'.model == u.model
            && t'.effort == u.effort && t'.history == u.history && t'.commands == u.commands
  {}

  lemma OpsSnoc(ops: seq<Op>, op: Op)
    ensures forall repo :: LastRepo(repo, ops + [op]) == if op.SwitchRepo? then op.repo else LastRepo(repo, ops)
    ensures forall model :: LastModel(model, ops + [op]) == if op.SetModel? then op.model else LastModel(model, ops)
    ensures Remembered(ops + [op]) == Remembered(ops) + if op.Remember? then [op.entry] else []
  {
    assert (ops + [op])[..|ops|] == ops;
  }

  /** Name and id never change; repository, model and effort are the last ones set; the history was typed here. */
  ghost predicate FieldsAre(t: Tab, t0: Tab, ops: seq<Op>) {
    && t.id == t0.id && t.name == t0.name
    && t.repo == LastRepo(t0.repo, ops) && t.model == LastModel(t0.model, ops)
    && t.effort == LastEffort(t0.effort, ops) && !Blank(t.effort)
    && t.history == PH.AppendAll(t0.history, Remembered(ops))
  }

  lemma FieldsNext(t: Tab, t0: Tab, ops: seq<Op>, op: Op)
    requires FieldsAre(t, t0, ops)
    ensures FieldsAre(Update(t, op), t0, ops + [op])
  {
    OpsSnoc(ops, op);
    HistoryNext(t, t0.history, Remembered(ops), op);
    EffortNext(t, t0.effort, ops, op);
  }

  lemma HistoryNext(t: Tab, h: PH.Hist, es: seq<string>, op: Op)
    requires t.history == PH.AppendAll(h, es)
    ensures Update(t, op).history == PH.AppendAll(h, es + if op.Remember? then [op.entry] else [])
  {
    if op.Remember? {
      assert (es + [op.entry])[..|es|] == es;
    } else {
      ConcatEmpty(es);
    }
  }

  lemma EffortNext(t: Tab, effort: string, ops: seq<Op>, op: Op)
    requires t.effort == LastEffort(effort, ops) && !Blank(t.effort)
    ensures Update(t, op).effort == LastEffort(effort, ops + [op]) && !Blank(Update(t, op).effort)
  {
    assert (ops + [op])[..|ops|] == ops;
  }

  lemma {:induction false} FieldsAfter(s: State, cfg: Config, steps: seq<Step>, r: nat)
    requires s.Wf() && r < |s.objs| && !Blank(s.objs[r].effort)
    ensures r < |Exec(s, cfg, steps).objs|
    ensures FieldsAre(Exec(s, cfg, steps).objs[r], s.objs[r], OpsOn(s, cfg, steps, r))
  {
    if steps != [] {
      var front, step := steps[..|steps|-1], steps[|steps|-1];
      var t, ops := Exec(s, cfg, front), OpsOn(s, cfg, front, r);
      FieldsAfter(s, cfg, front, r);
      FieldStep(t, cfg, step, r);
      if OpOn(t, step, r) == [] {
        ConcatEmpty(ops);
      } else {
        FieldsNext(t.objs[r], s.objs[r], ops, OpOn(t, step, r)[0]);
      }
    }
  }

  /** The usage last reported on `r`, unless the tab was renewed since. */
  function LastUsage(s: State, cfg: Config, steps: seq<Step>, r: nat): Option<Usage>
    requires s.Wf() && r < |s.objs|
  {
    if steps == [] then s.objs[r].usage
    else
      var front, step := steps[..|steps|-1], steps[|steps|-1];
      var ops := OpOn(Exec(s, cfg, front), step, r);
      if ops != [] && ops[0].TurnUsage? then Some(ops[0].usage)
      else if EventOf(Exec(s, cfg, front), step) == Renewed(r) then None
      else LastUsage(s, cfg, front, r)
  }

  lemma UsageStep(s: State, cfg: Config, step: Step, r: nat)
    requires s.Wf() && r < |s.objs|
    ensures r < |Apply(s, cfg, step).objs|
    ensures var ops := OpOn(s, step, r);
            Apply(s, cfg, step).objs[r].usage ==
            if ops != [] && ops[0].TurnUsage? then Some(ops[0].usage)
            else if EventOf(s, step) == Renewed(r) then None else s.objs[r].usage
  {}

  lemma {:induction false} UsageAfter(s: State, cfg: Config, steps: seq<Step>, r: nat)
    requires s.Wf() && r < |s.objs|
    ensures r < |Exec(s, cfg, steps).objs| && Exec(s, cfg, steps).objs[r].usage == LastUsage(s, cfg, steps, r)
  {
    if steps != [] {
      UsageAfter(s, cfg, steps[..|steps|-1], r);
      UsageStep(Exec(s, cfg, steps[..|steps|-1]), cfg, steps[|steps|-1], r);
    }
  }

  // ----- Commands -----

  /** Unregistering takes out that handle wherever it stands, and leaves the others in order. */
  lemma {:induction false} WithoutConcat(a: seq<nat>, b: seq<nat>, h: nat)
    ensures Without(a + b, h) == Without(a, h) + Without(b, h)
  {
    if b == [] {
      assert a + b == a;
    } else {
      assert (a + b)[..|a + b|-1] == a + b[..|b|-1];
      WithoutConcat(a, b[..|b|-1], h);
    }
  }

  lemma WithoutOne(g: nat, h: nat)
    ensures Without([g], h) == if g == h then [] else [g]
  {
    assert [g][..0] == [];
  }

  lemma {:induction false} WithoutIs(hs: seq<nat>, h: nat, g: nat)
    ensures g in Without(hs, h) <==> g in hs && g != h
  {
    if hs != [] {
      WithoutIs(hs[..|hs|-1], h, g);
    }
  }

  /** `h` was registered and has not been unregistered since, or was there at first and never was. */
  ghost predicate Registered(ops: seq<Op>, h: nat, atFirst: bool) {
    || (exists i :: 0 <= i < |ops| && ops[i] == Register(h) && NotUnregistered(ops, i + 1, h))
    || (atFirst && NotUnregistered(ops, 0, h))
  }

  ghost predicate NotUnregistered(ops: seq<Op>, from: nat, h: nat) {
    forall j :: from <= j < |ops| ==> ops[j] != Unregister(h)
  }

  lemma NotUnregisteredSnoc(ops: seq<Op>, op: Op, from: nat, h: nat)
    requires from <= |ops|
    ensures NotUnregistered(ops + [op], from, h) <==> NotUnregistered(ops, from, h) && op != Unregister(h)
  {
    var ops' := ops + [op];
    assert ops'[|ops|] == op && forall j :: 0 <= j < |ops| ==> ops'[j] == ops[j];
  }

  lemma RegisteredSnoc(ops: seq<Op>, op: Op, h: nat, atFirst: bool)
    ensures Registered(ops + [op], h, atFirst) <==>
            op == Register(h) || (Registered(ops, h, atFirst) && op != Unregister(h))
  {
    var ops' := ops + [op];
    assert ops'[|ops|] == op;
    forall from: nat | from <= |ops|
      ensures NotUnregistered(ops', from, h) <==> NotUnregistered(ops, from, h) && op != Unregister(h)
    {
      NotUnregisteredSnoc(ops, op, from, h);
    }
    if i :| 0 <= i < |ops| && ops[i] == Register(h) && NotUnregistered(ops, i + 1, h) {
      assert ops'[i] == Register(h);
    }
    if i :| 0 <= i < |ops'| && ops'[i] == Register(h) && NotUnregistered(ops', i + 1, h) {
      assert i < |ops| ==> ops[i] == Register(h);
    }
    if op == Register(h) {
      assert NotUnregistered(ops', |ops| + 1, h);
    }
  }

  lemma CommandStep(t: Tab, op: Op, h: nat)
    ensures h in Update(t, op).commands <==> op == Register(h) || (h in t.commands && op != Unregister(h))
  {
    if op.Unregister? {
      WithoutIs(t.commands, op.handle, h);
    }
  }

  /** A tab's commands are those registered on it and not unregistered since. */
  lemma {:induction false} CommandsAfter(s: State, cfg: Config, steps: seq<Step>, r: nat, h: nat)
    requires s.Wf() && r < |s.objs|
    ensures r < |Exec(s, cfg, steps).objs|
    ensures h in Exec(s, cfg, steps).objs[r].commands <==>
            Registered(OpsOn(s, cfg, steps, r), h, h in s.objs[r].commands)
  {
    if steps != [] {
      var front, step := steps[..|steps|-1], steps[|steps|-1];
      var t, ops := Exec(s, cfg, front), OpsOn(s, cfg, front, r);
      CommandsAfter(s, cfg, front, r, h);
      FieldStep(t, cfg, step, r);
      if OpOn(t, step, r) == [] {
        ConcatEmpty(ops);
      } else {
        var op := OpOn(t, step, r)[0];
        RegisteredSnoc(ops, op, h, h in s.objs[r].commands);
        CommandStep(t.objs[r], op, h);
      }
    }
  }

  // ----- The theme -----

  function LastTheme(theme: string, steps: seq<Step>): string {
    if steps == [] then theme
    else
      var step := steps[|steps|-1];
      if step.SetTheme? && !Blank(step.theme) then step.theme else LastTheme(theme, steps[..|steps|-1])
  }

  lemma ThemeStep(s: State, cfg: Config, step: Step)
    requires s.Wf()
    ensures Apply(s, cfg, step).theme == if step.SetTheme? && !Blank(step.theme) then step.theme else s.theme
  {}

  /** The theme is the last one set. */
  lemma {:induction false} ThemeAfter(s: State, cfg: Config, steps: seq<Step>)
    requires s.Wf()
    ensures Exec(s, cfg, steps).theme == LastTheme(s.theme, steps)
  {
    if steps != [] {
      ThemeAfter(s, cfg, steps[..|steps|-1]);
      ThemeStep(Exec(s, cfg, steps[..|steps|-1]), cfg, steps[|steps|-1]);
    }
  }

  // ----- Scrolling and output -----

  /** Output and scrolling do to the tab's buffer what they do to a buffer, and nothing else changes. */
  lemma BufferOps(s: State, cfg: Config, id: string, lines: seq<string>, delta: int, limit: int)
    requires s.Wf() && id in s.tabs
    ensures var t := s.At(id);
            && Apply(s, cfg, OnTab(id, Output(lines))).At(id) == t.(buffer := SB.Step(t.buffer, SB.AppendOp(lines)))
            && Apply(s, cfg, OnTab(id, Scroll(delta, limit))).At(id)
               == t.(buffer := SB.Step(t.buffer, SB.ScrollOp(delta, limit)))
  {}

  // ----- Saving -----

  /** What is saved: the order, the theme, the system buffer, and in this order every tab with its fields. */
  lemma SavedIs(s: State, cfg: Config, i: nat)
    requires Inv(s, cfg)
    ensures var snap := Save(s);
            && snap.order == s.order && snap.theme == s.theme && |snap.tabs| == |s.order|
            && snap.system.lines == s.system.lines && snap.system.offset == s.system.offset
            && (i < |s.order| ==>
                  var t, u := snap.tabs[i], s.At(s.order[i]);
                  && t.id == s.order[i] && t.name == u.name && t.repo == u.repo && t.model == u.model
                  && t.effort == u.effort && t.session == u.session && t.history == u.history.entries
                  && t.buffer.lines == u.buffer.lines && t.buffer.offset == u.buffer.offset)
  {
    SavedInOrder(s, cfg);
    if i < |s.order| {
      assert s.order[i] in s.tabs && TabOk(s.At(s.order[i]), cfg);
    }
  }

  // ----- Loading any snapshot -----

  /** Snapshot `i` is the last that was saved under `id`. */
  predicate LastSaved(snaps: seq<TabSnap>, id: string, i: nat) {
    i < |snaps| && snaps[i].id == id && forall j :: i < j < |snaps| ==> snaps[j].id != id
  }

  lemma {:induction false} LoadIndexIs(snaps: seq<TabSnap>, id: string, i: nat)
    ensures id in LoadIndex(snaps) && LoadIndex(snaps)[id] == i <==> LastSaved(snaps, id, i)
  {
    if snaps != [] {
      LoadIndexIs(snaps[..|snaps|-1], id, i);
    }
  }

  /** Every tab saved is open again as it was last saved, idle, with an effort if it had none. */
  lemma LoadedTabIs(snap: Snapshot, cfg: Config, id: string, i: nat)
    requires LastSaved(snap.tabs, id, i)
    ensures var s, t := Load(snap, cfg), snap.tabs[i];
            && id in s.tabs && s.At(id).id == id
            && s.At(id).name == t.name && s.At(id).repo == t.repo && s.At(id).model == t.model
            && s.At(id).session == t.session && s.At(id).effort == (if Blank(t.effort) then "medium" else t.effort)
            && s.At(id).status == Idle && s.At(id).run == None && s.At(id).cancel == None
            && s.At(id).commands == [] && s.At(id).usage == None
            && s.At(id).buffer == SB.Restore(t.buffer, cfg.maxLines) && s.At(id).history == PH.Restore(t.history)
  {
    LoadIndexIs(snap.tabs, id, i);
  }

  lemma OnlySavedIsLoaded(snap: Snapshot, cfg: Config, id: string)
    requires id in Load(snap, cfg).tabs
    ensures LastSaved(snap.tabs, id, Load(snap, cfg).tabs[id])
  {
    LoadIndexIs(snap.tabs, id, LoadIndex(snap.tabs)[id]);
  }

  lemma {:induction false} KnownConcat(a: seq<string>, b: seq<string>, index: map<string, nat>)
    ensures Known(a + b, index) == Known(a, index) + Known(b, index)
  {
    if b == [] {
      assert a + b == a;
    } else {
      assert (a + b)[..|a + b|-1] == a + b[..|b|-1];
      KnownConcat(a, b[..|b|-1], index);
    }
  }

  lemma KnownOne(id: string, index: map<string, nat>)
    ensures Known([id], index) == if id in index then [id] else []
  {
    assert [id][..0] == [];
  }

  lemma {:induction false} KnownEmptyIff(order: seq<string>, index: map<string, nat>)
    ensures Known(order, index) == [] <==> forall i :: 0 <= i < |order| ==> order[i] !in index
  {
    if order != [] {
      KnownEmptyIff(order[..|order|-1], index);
    }
  }

  /** The saved order without the ids that were not saved; without any of these, the order of the tabs. */
  lemma LoadedOrderIs(snap: Snapshot, cfg: Config)
    ensures var s := Load(snap, cfg);
            if exists i :: 0 <= i < |snap.order| && snap.order[i] in s.tabs
            then s.order == Known(snap.order, s.tabs) else s.order == Ids(snap.tabs)
  {
    KnownEmptyIff(snap.order, LoadIndex(snap.tabs));
  }

  lemma LoadedThemeIs(snap: Snapshot, cfg: Config)
    ensures Load(snap, cfg).theme == (if snap.theme == "" then cfg.theme else snap.theme)
    ensures Load(snap, cfg).system == SB.Restore(snap.system, cfg.maxLines)
  {}
}
