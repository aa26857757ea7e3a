# Centaurx: a verified model of its stateful engines

Centaurx multiplexes Codex sessions over tabs, for a web UI, an SSH terminal and an Android app that share one
backend. This project models the parts of it that keep state or transform streams, in Dafny, and proves what they
promise over every run and every input.

| module | what it models |
|---|---|
| `ProviderSpec`, `ProviderLaws`, `ProviderTable`, `ProviderCalls`, `ProviderImpl` | the table of runner containers: start once, tab tracking, reference counts, the idle sweep |
| `TabService`, `TabLaws`, `TabFields`, `TabCalls`, `TabImpl` | a user's tabs: order, run status, session ids, save and load, and the calls that take several lock sections |
| `ScrollBuffer`, `BufferViews`, `PromptHistory` | a tab's output buffer with its scroll offset, its views, and the prompt history |
| `StopProtocol` | the two routines that stop a tab's processes |
| `HubSpec`, `HubCalls`, `HubImpl` | the event hub: sequence numbers, bounded history, replay, fan-out to channels, clients that come back |
| `RingBuffers`, `DockerStream`, `StreamSearch` | the log ring buffer, the Docker frame demultiplexer, the chunked substring search |
| `ProcessTree` | the breadth-first search for a process's descendants |
| `TabWindow`, `TabChoice` | which tabs a bar shows, in the terminal and in the browser |
| `Utf8`, `Ansi`, `Pieces`, `Paint` | UTF-8 as Go decodes it, escape sequences, and the style each character is shown in |
| `Filling`, `Wrap`, `InlineMarkdown`, `MarkdownLines`, `MarkdownMarks`, `InputLayout`, `InputRows` | word wrap, inline markdown and its wrap, the prompt's rows and cursor |
| `Text`, `Seqs` | shared definitions |

Lock-protected components are modelled twice. A pure state machine has one step per lock section, and a separate
step for what the source does after unlocking, so a trace is an interleaving of any number of goroutines; the laws
are proved of all traces. A class with the source's own fields carries that machine as a ghost field, and each of
its methods is proved to make exactly the machine's step. Loops are methods with invariants, proved against a
definition of what they compute.

Some expectations one would have of the code are false. Each has a lemma with a concrete input and one that says
exactly when the expectation does hold:

- A runner's count can fall below the runs open on it, and the sweep then stops a busy runner: a release looks its
  key up again and may hit an entry that replaced its own (`ProviderLaws.StaleReleaseStopsBusyRunner`). The count
  stays right for ever, and the sweep harmless, exactly when it is right now and no run of an earlier entry is open
  (`ProviderLaws.CountsForeverIffExact`, `ProviderLaws.SweepSafeIffExact`).
- A runner can be left running with nobody to stop it (`ProviderLaws.ClosedWhileStarting`), exactly when it was
  stopped before its start had finished (`ProviderLaws.OrphanIffStoppedTooSoon`).
- `RunnerFor` can read the name of a container that is not there (`ProviderCalls.RestartPanics`): a caller that found
  an entry does so exactly when the entry in the table after its wait is still starting, and has not been started by
  the time of the read (`ProviderCalls.PanicsIff`).
- The order of the tabs can name one twice (`TabService.FallbackIdTwice`), exactly when a tab is created under the id
  of an open one (`TabService.CreatedInOrderIff`).
- A prompt can replace the run of another (`TabCalls.TwoRunsOnOneTab`), exactly when that was installed after the
  prompt found the tab idle and has not finished (`TabCalls.ReplacesRunIff`).
- A stop can cancel another run than the one it signals (`TabCalls.StopCancelsNextRun`); they are the same exactly when
  no run was installed and its own did not finish between the two reads (`TabCalls.StopPairsIff`).
- A view can show lines that no snapshot would (`BufferViews.AnchoredViewTorn`) and undo a scroll
  (`BufferViews.ScrollUndone`). It shows what a snapshot at its beginning would exactly when the offset grew by as much
  as lines were dropped (`TabCalls.ViewUntornIff`), and its write is a clamp exactly when the offset has not gone below
  it (`BufferViews.LateWriteClampsIff`).
- `Replay` can have a gap (`HubSpec.ReplayMissesFirst`), exactly when the client is further behind than the history is
  long (`HubSpec.ReplayGapFreeIff`).
- A stream client that comes back can miss an event (`HubCalls.PublishedBetween`); it misses none exactly when the
  history reaches back to what it has seen and nothing new was published between its replay and its subscription
  (`HubCalls.NothingMissedIff`).
- A send of the hub can panic (`HubSpec.SubscriberLeavesTooSoon`), exactly when its event was published while the
  channel was subscribed and was still to be sent when the subscriber left (`HubSpec.SendPanicsIff`).
- A needle that arrived can be missed (`StreamSearch.UnfinishedChunkMissed`); nothing that arrived of a frame cut short
  is missed exactly when it was cut at the end of a chunk (`StreamSearch.TruncatedMissesNothingIff`).
- The search for child processes need not end (`ProcessTree.SearchLoops`); it does exactly when the root is not its own
  descendant (`ProcessTree.HaltsIff`).
- The prompt's rows can be too wide (`InputLayout.RowTooWide`), exactly when the prefix leaves no column and there is
  something to show (`InputLayout.InputFitsIff`, `InputLayout.DrawnFitsIff`).
- The cursor can stand on a character instead of behind it (`InputLayout.CursorOnFullRow`), exactly when the prefix
  leaves no column or the line before the cursor fills whole rows (`InputLayout.ColumnCutIff`).

## Model

| member | source | states |
|---|---|---|
| ProviderSpec.StepKeepsInv | internal/runnercontainer/provider.go:250-391 | every lock section keeps: an entry's count is at most the runs open on it, in user scope every entry in the table has a tab, entries handed to `stopRunner` are out of the table for good |
| ProviderSpec.ReleaseKeepsInv | internal/runnercontainer/provider.go:895-905 | a release, also one that hits a newer entry than its own, keeps the invariant |
| ProviderSpec.FinishKeepsInv | internal/runnercontainer/provider.go:289-305 | the end of a start, successful or not, even if the entry was removed meanwhile, keeps the invariant |
| ProviderLaws.RunKeepsInv | internal/runnercontainer/provider.go:250-391 | the invariant holds after every trace |
| ProviderLaws.RunningNeverExceedsOpen | internal/runnercontainer/provider.go:882-905 | in every reachable state a table entry's `running` is at most the number of outstanding runs started on it |
| ProviderLaws.ExactKept | internal/runnercontainer/provider.go:882-905 | while an entry stays in the table, a right count with no foreign outstanding run stays right, whatever else happens |
| ProviderLaws.NewEntryExact | internal/runnercontainer/provider.go:250-257 | an entry created when all runs of its key are released starts with a right count |
| ProviderLaws.CountsForeverIffExact | internal/runnercontainer/provider.go:882-905 | the count equals the outstanding runs in every future of the entry if and only if it does now and no run of an earlier entry is outstanding |
| ProviderLaws.SweepSafeIffExact | internal/runnercontainer/provider.go:709-733 | no future idle sweep removes the entry under an outstanding run if and only if the count is exact now |
| ProviderLaws.BusyRunnerSurvivesSweep | internal/runnercontainer/provider.go:709-733 | from creation without foreign runs on, a runner with an outstanding exec or command is never swept, over all interleavings |
| ProviderLaws.StaleReleaseStopsBusyRunner | internal/runnercontainer/provider.go:895-905 | a trace in which a stale release zeroes the count of a newer entry and the sweep then removes it under its open run |
| ProviderLaws.TabSetIsRegistered | internal/runnercontainer/provider.go:317-325 | an entry's tab set is exactly the tabs registered on it and not closed since |
| ProviderLaws.CloseTabTakesDownLast | internal/runnercontainer/provider.go:354-374 | in user scope closing a tab removes the runner if and only if no other registered tab is left |
| ProviderLaws.EveryRunnerHeld | internal/runnercontainer/provider.go:317-374 | in user scope every runner in the table has a registered tab |
| ProviderLaws.StartsFollowRemovals | internal/runnercontainer/provider.go:250-259 | for each key, starts equal removals plus one if it is in the table: never two starts without a removal between them |
| ProviderLaws.EntryLife | internal/runnercontainer/provider.go:543-569 | over every trace an entry in the table or waiting to be stopped was not stopped, and one past that was stopped, or failed to start, or its stop came before its start finished and had no effect |
| ProviderLaws.OrphanIffStoppedTooSoon | internal/runnercontainer/provider.go:543-569 | a started container outlives its removed entry if and only if `stopRunner` came before the start finished |
| ProviderLaws.ClosedWhileStarting | internal/runnercontainer/provider.go:543-569 | a trace in which a tab is closed while its runner starts and the container is never stopped |
| ProviderTable.StampIsLastUse | internal/runnercontainer/provider.go:271-302 | over every trace an entry's `lastUsed` is the time of the last successful start, cache hit, start of a run or release on it, and unset without one |
| ProviderTable.SweptIff | internal/runnercontainer/provider.go:709-733 | over every trace the idle sweep takes an entry out, and hands it over, if and only if it is not starting, counts no run and its last use is at least `idle` ago; every other entry stays as it is |
| ProviderTable.RecentlyUsedIsKept | internal/runnercontainer/provider.go:725-725 | a runner used less than `idle` ago survives the sweep |
| ProviderTable.LongIdleIsSwept | internal/runnercontainer/provider.go:725-725 | a runner that is not starting, counts no run and was not used for `idle` does not |
| ProviderTable.TableByKey | internal/runnercontainer/provider.go:250-391 | for every step and key: exactly when the key is taken out of the table, put into it, or left with the entry it has |
| ProviderTable.TakenOutIsStopped | internal/runnercontainer/provider.go:327-391 | whatever is taken out is handed to `stopRunner`, except a failed entry found by a caller |
| ProviderTable.CloseTabInTabScope | internal/runnercontainer/provider.go:354-374 | in tab scope closing a tab takes out its own runner, and every other key keeps its entry |
| ProviderTable.CloseAllEmpties | internal/runnercontainer/provider.go:378-391 | closing all leaves no entry in the table and hands over every one |
| ProviderCalls.PhaseAfter | internal/runnercontainer/provider.go:287-305 | over every trace an entry leaves `Starting` by its own finish alone, and is ready if and only if the first of these reports success |
| ProviderCalls.PanicsIff | internal/runnercontainer/provider.go:262-280 | a caller that found an entry and waited for it reads the name of a missing container if and only if the entry in the table at its second lock is still starting and its start has not succeeded by the read |
| ProviderCalls.PanicNeedsRestart | internal/runnercontainer/provider.go:251-280 | then the key was removed from the table and started again between the caller's two lock sections |
| ProviderCalls.RestartPanics | internal/runnercontainer/provider.go:262-280 | a trace in which a tab is closed and opened again between the two |
| ProviderImpl.TabRunner.Track | internal/runnercontainer/provider.go:317-325 | adds the tab in user scope, and nothing for an empty tab or in tab scope |
| ProviderImpl.Provider.constructor | internal/runnercontainer/provider.go:210-226 | an empty table |
| ProviderImpl.Provider.Lookup | internal/runnercontainer/provider.go:250-285 | the new state is the machine's step; the answer says whether the request was refused, the entry was there and is still starting, or was inserted |
| ProviderImpl.Provider.Relock | internal/runnercontainer/provider.go:262-278 | the lock section after waiting: its answer is fixed by the phase of the entry then in the table, a failed entry is removed, any other is handed on with its client, if it has one |
| ProviderImpl.Provider.LogReady | internal/runnercontainer/provider.go:279-280 | the read after unlocking panics if and only if the entry has no container by then |
| ProviderImpl.Provider.Finish | internal/runnercontainer/provider.go:289-305 | the lock section after `startRunner` is the machine's finish step |
| ProviderImpl.Provider.CloseTab | internal/runnercontainer/provider.go:341-374 | the new state is the machine's step, and exactly the entries that left the table are handed to `stopRunner` |
| ProviderImpl.Provider.CloseEntry | internal/runnercontainer/provider.go:327-338 | removes the entry of the key, if there is one, and hands it over |
| ProviderImpl.Provider.CloseAll | internal/runnercontainer/provider.go:378-391 | empties the table and hands every entry over |
| ProviderImpl.Provider.Sweep | internal/runnercontainer/provider.go:709-733 | the new state is the machine's sweep, of which `ProviderTable.SweptIff` says what it takes out, and exactly the entries that left the table are handed to `stopRunner` |
| ProviderImpl.Provider.StartRun | internal/runnercontainer/provider.go:882-889 | counts the run on the entry in the table, if any, and returns a fresh release |
| ProviderImpl.Provider.Release | internal/runnercontainer/provider.go:894-909 | only the first call counts, on whatever entry is then in the table, and never below zero |
| ProviderImpl.Provider.Stop | internal/runnercontainer/provider.go:543-569 | stops the container if the entry has one by now |
| ScrollBuffer.RestoreExport | core/buffer.go:99-147 | restoring what was exported gives back the buffer, offset included |
| ScrollBuffer.RestoredIs | core/buffer.go:131-147 | whatever was saved, a restored buffer holds its last lines, at the saved offset brought into range |
| ScrollBuffer.OperationsKeepWf | core/buffer.go:31-96 | every operation keeps 0 <= offset <= length <= maximum |
| ScrollBuffer.ScrollMoves | core/buffer.go:62-64 | the offset moves by exactly `delta` while it stays between the bottom and the oldest line, and else stops at that end |
| ScrollBuffer.ViewIsAsHigh | core/buffer.go:67-96 | a view shows as many lines as it is high, ending the offset above the last, the offset unchanged where there is room for it |
| ScrollBuffer.HoldsLastLines | core/buffer.go:31-53 | after any operations on a new or a restored buffer it is the last `maxLines` of the lines saved and appended |
| ScrollBuffer.AppendKeepsView | core/buffer.go:31-96 | while scrolled up, appending leaves the shown lines as they are, except for those trimmed away |
| ScrollBuffer.BottomFollows | core/buffer.go:67-96 | at the bottom, the view is always the last lines |
| BufferViews.UndisturbedIsSnapshot | core/buffer.go:67-96 | with nothing between its reads and its write, an unlocked view is the snapshot of one moment |
| BufferViews.CopyShows | core/buffer.go:67-96 | the lines an unlocked view copies, after any appends: those at the offset it read, moved on by the lines dropped |
| BufferViews.UntornIff | core/buffer.go:67-96 | exactly when these are the lines of the snapshot at its beginning |
| BufferViews.AnchoredViewTorn | core/buffer.go:67-96 | a line appended after the count, and a view that shows what no snapshot does |
| BufferViews.LateWriteClampsIff | core/buffer.go:73-76 | the late write of the offset clamps if and only if the offset has not gone below it |
| BufferViews.ScrollUndone | core/buffer.go:73-76 | a scroll to the bottom between comparison and write is lost |
| ScrollBuffer.Buffer.constructor | core/buffer.go:118-129 | empty, with the maximum that is configured |
| ScrollBuffer.Buffer.FromPersisted | core/buffer.go:131-147 | cuts to the last lines and clamps the offset |
| ScrollBuffer.Buffer.Append | core/buffer.go:31-53 | the new lines, trimmed to the maximum, and an offset that moves with them while scrolled up |
| ScrollBuffer.Buffer.Scroll | core/buffer.go:62-64 | moves the offset within what the viewport allows |
| ScrollBuffer.Buffer.Snapshot | core/buffer.go:67-96 | the lines at the clamped offset, which is kept |
| PromptHistory.AppendFollowsTyped | core/history.go:31-46 | a history that holds the last prompts typed, blank and repeated ones aside, still does after one more |
| PromptHistory.HoldsLastTyped | core/history.go:12-46 | so it does after any prompts, from a new history or from a restored one |
| PromptHistory.TypedHasNoRepeats | core/history.go:33-48 | what a history is the last of has no blank entry and none twice in a row |
| PromptHistory.TypedKeepsOthers | core/history.go:33-48 | nothing else that was typed is left out |
| PromptHistory.TypedDrops | core/history.go:37-42 | a blank entry or a repeat changes nothing |
| PromptHistory.HistoryBuffer.constructor | core/history.go:12-17 | empty, with the default maximum when none is given |
| PromptHistory.HistoryBuffer.FromPersisted | core/history.go:19-29 | the last entries saved |
| PromptHistory.HistoryBuffer.Append | core/history.go:31-46 | adds the prompt unless it is blank or the last one again, and says whether it did |
| TabService.RemoveIsExact | core/service.go:1690-1697 | removing an id from a duplicate-free order removes it and nothing else |
| TabService.CreatedInOrderIff | core/service.go:164-166 | creating a tab keeps `order` duplicate-free with exactly the keys of `tabs` if and only if no open tab has its id |
| TabService.CreatedKeepsInvIff | core/service.go:164-166 | it keeps the whole invariant if and only if the id is not empty and no tab, open or closed, ever had it |
| TabService.FallbackIdTwice | core/id.go:8-14 | two tabs created under the constant id that stands in for a random one break that |
| TabService.StepKeepsInv | core/service.go:164-225 | every lock section, and every unlocked read and write of a view, keeps: `order` is duplicate-free with exactly the keys of `tabs`, a tab is Running if and only if its run is set, run and cancel function are set together, buffers and histories are within bounds, no view reads beyond its buffer |
| TabService.StepKeepsBounded | core/service.go:819-827 | all of it but the order holds even where the loaded order was damaged |
| TabService.RunKeepsInv | core/service.go:164-225 | the invariant holds after every interleaving of lock sections and views |
| TabLaws.RunIsLastInstalled | core/service.go:413-423 | in every life, from any loaded state on, a tab's run is the one installed last and not finished since: an older run's end never clears it |
| TabLaws.RunningIffOngoing | core/service.go:1230-1249 | in every life a tab is Running if and only if the run installed last has not finished, also with overlapping prompts |
| TabLaws.SessionIsFirstThread | core/service.go:1338-1354 | in every life the session id is the first thread id seen since the last renewal, the id loaded being the first of all, and empty if and only if there was none |
| TabLaws.LivesStartIdle | core/service.go:1475-1531 | whatever was saved, a life starts without runs and with every tab within bounds, which is what the three laws above ask of its start |
| TabLaws.StaysBounded | core/service.go:164-225 | from there on every tab keeps status, run and cancel function in step, its buffers within bounds and its views within its buffers, even if the saved order was damaged |
| TabLaws.ClosedStaysClosed | core/service.go:196-225 | a closed tab never comes back, whatever was in flight on it |
| TabLaws.TabRoundTrip | core/service.go:1499-1516 | loading a saved tab gives it back, idle and without runs and commands |
| TabLaws.LoadOfSave | core/service.go:1475-1604 | loading what was saved restores order, tabs, buffers, histories, session ids and theme of every state with the invariant |
| TabLaws.RestartKeepsInv | core/service.go:1475-1531 | the invariant survives a restart |
| TabLaws.LivesKeepInv | core/service.go:1475-1604 | the invariant holds over any number of lives of the server, each a trace between restarts |
| TabLaws.ReachableLoadsBack | core/service.go:1475-1604 | every state reachable over any number of lives loads back |
| TabFields.OpenByName | core/service.go:164-225 | for every step and id: a tab is opened by its creation, closed by name, and otherwise stays on the object it has |
| TabFields.CloseIsExact | core/service.go:212-213 | closing a tab leaves every other one open on the same object |
| TabService.RemoveKeepsOrder | core/service.go:1690-1697 | the order without the closed tab is what stood before it and then what stood behind it |
| TabFields.CreatedTabIs | core/service.go:153-167 | a created tab has the name and repository given, the configured model, medium effort, and no session, run, output, history or command; it is last in the order and the others are as they were |
| TabFields.PromptAnswer | core/service.go:327-340 | in every life a prompt is answered not found if and only if the tab is not open, and busy if and only if it is open with a run ongoing |
| TabFields.FieldsAfter | core/service.go:458-500 | over every trace a tab keeps id and name, its repository, model and effort are the last ones set, and its history is what was typed |
| TabFields.UsageAfter | core/service.go:1168-1176 | over every trace the usage is the last one reported, and none after a renewal |
| TabFields.WithoutConcat | core/service.go:1025-1034 | unregistering a command works on each part of the list, and so keeps the order of the others |
| TabFields.WithoutOne | core/service.go:1025-1034 | of a list of one it leaves that one, or nothing if it is the handle |
| TabFields.WithoutIs | core/service.go:1025-1034 | what remains are exactly the other handles |
| TabFields.CommandsAfter | core/service.go:993-1039 | over every trace a tab's commands are those registered on it and not unregistered since |
| TabFields.ThemeAfter | core/service.go:790-791 | over every trace the theme is the last one set |
| TabFields.BufferOps | core/service.go:838-873 | output and scrolling do to a tab's buffer what they do to a buffer, and change nothing else |
| TabFields.SavedIs | core/service.go:1555-1604 | the snapshot holds the order, the theme, the system buffer, and every tab in order with its fields, buffer, offset and history |
| TabFields.LoadedTabIs | core/service.go:1499-1516 | whatever was saved, every id is open again as it was saved last: its fields, its buffer and history, idle, with an effort if it had none |
| TabFields.OnlySavedIsLoaded | core/service.go:1499-1516 | and no other id is |
| TabFields.KnownConcat | core/service.go:1517-1522 | the loaded order keeps or drops each saved id on its own, in order |
| TabFields.KnownOne | core/service.go:1517-1522 | an id is kept if and only if its tab was saved |
| TabFields.LoadedThemeIs | core/service.go:1475-1498 | the theme saved, or the configured one if there is none, and the system buffer as saved |
| TabFields.LoadedOrderIs | core/service.go:1517-1526 | the saved order without ids that were not saved; the order of the saved tabs if and only if none is left |
| TabCalls.RunAfter | core/service.go:413-423 | a tab's run after any steps is one installed meanwhile and ongoing, or the one it had if that did not finish and none was installed |
| TabCalls.ReplacesRunIff | core/service.go:327-423 | the run a prompt installs replaces another if and only if one was installed on the tab since the prompt found it idle and is ongoing |
| TabCalls.TwoRunsOnOneTab | core/service.go:327-423 | two prompts that both find the tab idle |
| TabCalls.StopPairsIff | core/service.go:548-574 | the run `StopSession` reads under the lock and the cancel function it reads after belong together if and only if no run was installed and its own did not finish in between; without a run, if and only if none installed in between is ongoing |
| TabCalls.StopCancelsNextRun | core/service.go:548-574 | a trace in which the cancel function read is that of the next run |
| TabCalls.BufferAfter | core/buffer.go:31-53 | whatever the service does, a buffer holds the last of the lines it had and those output since |
| TabCalls.ViewShows | core/service.go:819-827 | whatever comes between the steps of a view, it shows the lines at the offset it read, counted from the number of lines it found, moved on by as many as were dropped since |
| TabCalls.ViewUntornIff | core/service.go:819-827 | of lines that differ, those are what a snapshot at its beginning would show if and only if the offset it read leaves room and grew by as much as lines were dropped |
| TabImpl.TabObj.Finish | core/service.go:1230-1249 | clears run and status only if the run is still the one installed |
| TabImpl.TabObj.Capture | core/service.go:1338-1354 | sets the session id only if it was empty |
| TabImpl.TabObj.Renew | core/service.go:747-769 | clears the session id unless the tab is running |
| TabImpl.TabObj.SetModel | core/service.go:458-464 | sets the model, and the effort if one is given |
| TabImpl.TabObj.Unregister | core/service.go:1015-1039 | removes exactly that command handle |
| TabImpl.RemoveTabID | core/service.go:1690-1697 | the order without the id |
| TabImpl.LoadTabObjs | core/service.go:1499-1516 | one fresh tab object per saved tab, the last one of an id winning |
| TabImpl.LoadOrderIds | core/service.go:1517-1526 | the saved order without unknown ids, or the order of the tabs when none was saved |
| TabImpl.UserState.constructor | core/service.go:1460-1473 | a user without tabs |
| TabImpl.UserState.FromSnapshot | core/service.go:1475-1531 | the loaded state is `Load` of the snapshot |
| TabImpl.UserState.CreateTab | core/service.go:164-176 | a new tab with default model and effort, last in the order, under any id, and the tab then active |
| TabImpl.UserState.CloseTab | core/service.go:196-225 | removes the tab from map and order, forgets it if it was remembered, reports the tab then active, and hands over its run, its cancel function and its commands; or reports it missing |
| TabImpl.UserState.LookupForPrompt | core/service.go:327-336 | missing, busy, or the tab object, which may be closed by the time the run is installed, and the tab then active |
| TabImpl.UserState.InstallRun | core/service.go:413-416 | installs run and cancel function on the object looked up before, closed or not, under any handle |
| TabImpl.UserState.LookupForStop | core/service.go:548-561 | missing, or the tab object with its run and commands, and the tab then active |
| TabImpl.UserState.ReadCancel | core/service.go:574-574 | the cancel function the object has by then |
| TabImpl.UserState.FinishRun | core/service.go:1230-1249 | the end of a run, idle only if it was the one installed on an open tab, and then the tab then active |
| TabImpl.UserState.SetSessionID | core/service.go:1338-1354 | the first thread id of an open tab is kept, later ones are not |
| TabImpl.UserState.RenewSession | core/service.go:747-769 | renews an open tab that is not running, and reports the tab then active |
| TabImpl.UserState.ActiveTab | core/service.go:1622-1653 | reports and remembers the remembered tab while it is open, else the first in order; empty if and only if there are no tabs |
| TabImpl.UserState.SnapshotUser | core/service.go:1555-1604 | what is saved is `Save` of the state, tabs in order |
| StopProtocol.NoneSpared | core/service.go:597-624 | completion being permanent, a handle the shared flag spares would have been spared by its own check |
| StopProtocol.StopInOrder | core/service.go:579-636 | every TERM comes before the pause, every KILL after it, and cancels come last |
| StopProtocol.StopSignals | core/service.go:579-636 | completion being permanent, TERM goes to every handle and KILL to exactly those not done at their own kill check: the shared flag spares no live one |
| StopProtocol.TermSentIff | core/service.go:583-595 | TERM is sent to a handle if and only if it is the run's or some command's |
| StopProtocol.TermsInOrder | core/service.go:583-596 | one TERM for the run, if there is one, and then one for each command with a handle, in order; then the pause |
| StopProtocol.FoundAliveIff | core/service.go:597-608 | something is to be killed if and only if the run or a command with a handle is alive when its turn to be probed comes |
| StopProtocol.KillSentIff | core/service.go:609-623 | when the scan ended with probe `last`, KILL is sent to a handle if and only if the run or a command has it and its own check, `last + 1` probes and its place later, finds it alive |
| StopProtocol.KillsCounted | core/service.go:609-623 | one KILL for each such check, and no other |
| StopProtocol.RunKilledFirst | core/service.go:609-613 | the first KILL is the run's, if it is still alive |
| StopProtocol.KillsInOrder | core/service.go:614-623 | the others follow in the order of the commands |
| StopProtocol.NoKill | core/service.go:597-623 | no KILL when the scan found all done |
| StopProtocol.NeverDoneIsKilled | core/service.go:583-623 | a run or command that never ends gets both signals |
| StopProtocol.CancelsInOrder | core/service.go:624-631 | the run's cancel function first, then each command's once, in order |
| StopProtocol.ShouldKill | core/service.go:597-609 | true if and only if a handle is found alive, with the probes that takes: the scan stops at the first |
| StopProtocol.SendTerms | core/service.go:584-596 | TERM to the run and to each command with a handle, in order |
| StopProtocol.SendKills | core/service.go:610-624 | KILL to exactly the handles not done at their own probe |
| StopProtocol.SendKillsAsync | core/service.go:678-700 | the same of the kill section as the asynchronous routine writes it |
| StopProtocol.SendCancels | core/service.go:625-632 | the cancels there are, the run's first |
| StopProtocol.StopTabHandles | core/service.go:579-636 | sends exactly the actions of the protocol |
| StopProtocol.StopTabHandlesAsync | core/service.go:638-713 | sends the same actions for the same completions, and announces the kill if and only if the run or a command was found alive by its probe |
| HubSpec.ReplayIsRetained | httpapi/hub.go:113-128 | `Replay` returns exactly the retained events above `after`, in order |
| HubSpec.ReplayGapFreeIff | httpapi/hub.go:113-128 | it is all of the events published since if and only if `after` is no further back than the history is long |
| HubSpec.ReplayMissesFirst | httpapi/hub.go:113-128 | a history of one and two events, of which a new client is given the second only |
| HubSpec.StepKeepsInv | httpapi/hub.go:91-156 | every lock section and every single send keeps what is known of history and channels |
| HubSpec.RunKeepsInv | httpapi/hub.go:91-156 | so it holds after every interleaving of publishers, sends and subscribers |
| HubSpec.HistoryIsLastPublished | httpapi/hub.go:130-143 | the history is the last events published, numbered without a gap up to `seq` |
| HubSpec.DeliveredOnceAndNew | httpapi/hub.go:91-152 | a subscriber gets only published events above the number it was given, none of them twice |
| HubSpec.NothingLost | httpapi/hub.go:144-152 | once all sends are made, an open subscriber got every event since its subscription except those its full channel dropped |
| HubSpec.PublishedAre | httpapi/hub.go:130-138 | over every trace the events carry what was published, numbered from 1 in order |
| HubSpec.GivenIffRoom | httpapi/hub.go:145-152 | over every trace an event is delivered to a channel if and only if it was sent while that held fewer than 256, and dropped if and only if it was sent while that held as many |
| HubSpec.DeliveryStep | httpapi/hub.go:145-152 | every step leaves what a channel was given as it is, except a send to it with room, which adds its event at the end |
| HubSpec.DeliveredGrows | httpapi/hub.go:145-152 | a channel never loses or reorders what it was given |
| HubSpec.ChannelLife | httpapi/hub.go:91-110 | a channel stays open until it is unsubscribed, and its reader takes events first in, first out |
| HubSpec.ChannelBegins | httpapi/hub.go:91-98 | a subscription opens one new channel with nothing in it |
| HubSpec.SubscriberGetsEvent | httpapi/hub.go:145-152 | a trace in which a subscriber gets the event published after it came |
| HubSpec.HistoryAndLiveDisjoint | httpapi/hub.go:91-110 | no event is both in the history returned at subscription and on the channel |
| HubSpec.DoomedIffClosedTooSoon | httpapi/hub.go:101-152 | in a run without a panic, the sends still to be made on closed channels are exactly those left over when their channel was closed |
| HubSpec.SendPanicsIff | httpapi/hub.go:101-152 | the next send panics if and only if its event was published while the channel was subscribed, was still to be sent when the subscriber left, and has not been sent since |
| HubSpec.SubscriberLeavesTooSoon | httpapi/hub.go:101-152 | a trace of four steps in which a send panics |
| HubCalls.ReplayedIff | httpapi/server.go:624-631 | the handler's replay brings exactly the events retained then that the client had not seen |
| HubCalls.LiveIff | httpapi/server.go:633-646 | its channel brings exactly the events published since the subscription |
| HubCalls.ReplayedOrLive | httpapi/server.go:624-646 | no event comes by both |
| HubCalls.NothingMissedIff | httpapi/server.go:624-646 | the client gets every event after its `Last-Event-ID` if and only if the history reaches back to it and none it has not seen was published between replay and subscription |
| HubCalls.PublishedBetween | httpapi/server.go:624-646 | an event published there is lost |
| HubImpl.UserHub.constructor | httpapi/hub.go:43-51 | nothing published, with a history of 1000 when none is configured |
| HubImpl.UserHub.Subscribe | httpapi/hub.go:91-110 | a fresh channel, the current number and the history |
| HubImpl.UserHub.Unsubscribe | httpapi/hub.go:101-108 | the channel is closed and is no target of later events; a second time panics |
| HubImpl.UserHub.Publish | httpapi/hub.go:130-143 | numbers and keeps the event and picks the channels open now as its targets |
| HubImpl.UserHub.TrySend | httpapi/hub.go:144-152 | sent if and only if the channel is open and holds fewer than 256, and then the event is at its end; dropped when it holds as many; panics if and only if it was closed |
| HubImpl.UserHub.Replay | httpapi/hub.go:113-128 | the loop returns the retained events above the number |
| RingBuffers.RingPush | internal/shipohoy/containerd/runtime.go:1060-1063 | a byte written behind the last one of a ring with room is added at its end |
| RingBuffers.RingRotate | internal/shipohoy/containerd/runtime.go:1064-1067 | a byte written over the first one of a full ring drops that and is added at the end |
| RingBuffers.RingIsSlices | internal/shipohoy/containerd/runtime.go:1072-1087 | the ring's content is one slice, or two when it wraps around |
| RingBuffers.KeepsLastBytes | internal/shipohoy/containerd/runtime.go:1044-1070 | however it was cut into writes, the last bytes ever written are kept |
| RingBuffers.SlotByMod | internal/shipohoy/containerd/runtime.go:1061-1066 | the index taken modulo the size is the slot that many steps on |
| RingBuffers.RingBuffer.constructor | internal/shipohoy/containerd/runtime.go:1037-1042 | empty, of size zero for a negative size |
| RingBuffers.RingBuffer.Put | internal/shipohoy/containerd/runtime.go:1060-1067 | one byte in place keeps the last `size` bytes |
| RingBuffers.RingBuffer.Write | internal/shipohoy/containerd/runtime.go:1044-1070 | any write, also one longer than the buffer, keeps the last `size` bytes and reports all of it written |
| RingBuffers.RingBuffer.Snapshot | internal/shipohoy/containerd/runtime.go:1072-1087 | the content, oldest byte first |
| RingBuffers.Capture | internal/shipohoy/containerd/runtime.go:1037-1087 | after any writes to a new buffer the snapshot is the last `size` bytes of all of them |
| DockerStream.BigEndianRoundTrip | internal/shipohoy/podman/runtime.go:719 | a length below 2^32 survives its four bytes |
| DockerStream.EncodedHead | internal/shipohoy/podman/runtime.go:704-736 | the head of a framed stream is read as the frame it was written from |
| DockerStream.DemuxUndoesFraming | internal/shipohoy/podman/runtime.go:704-736 | kind-2 payloads go to stderr, all others to stdout, in order |
| DockerStream.PartialHeaderIgnored | internal/shipohoy/podman/runtime.go:713-718 | a trailing partial header changes nothing |
| DockerStream.TruncatedFrameFails | internal/shipohoy/podman/runtime.go:719-734 | of a frame cut short what arrived goes to its sink and the copy fails |
| DockerStream.DemuxIsStreaming | internal/shipohoy/podman/runtime.go:704-736 | more input never changes what was already written |
| DockerStream.CopyDockerStream | internal/shipohoy/podman/runtime.go:704-736 | the loop writes what demultiplexing gives, and fails exactly on a truncated payload |
| StreamSearch.WindowSuffices | internal/shipohoy/podman/runtime.go:793-822 | the last needle-length-minus-one bytes are enough to find every occurrence the next chunk completes |
| StreamSearch.SearchedOfFrames | internal/shipohoy/podman/runtime.go:738-768 | what is searched of framed payloads is their concatenation |
| StreamSearch.SearchedIsPayload | internal/shipohoy/podman/runtime.go:738-768 | with at most a partial header behind them, it is that and nothing else |
| StreamSearch.SearchedOfTruncated | internal/shipohoy/podman/runtime.go:793-822 | of a truncated frame exactly the whole chunks are searched |
| StreamSearch.UnfinishedChunkMissed | internal/shipohoy/podman/runtime.go:793-822 | a stream whose needle is missed because its chunk is not complete |
| StreamSearch.TruncatedMissesNothingIff | internal/shipohoy/podman/runtime.go:793-822 | for every needle the search of a truncated stream finds what arrived if and only if the last frame was cut at the end of a chunk |
| StreamSearch.ChunksAreSearched | internal/shipohoy/podman/runtime.go:793-822 | the chunks in which a stream is read, strung together, are the bytes searched |
| StreamSearch.ChunksAreThere | internal/shipohoy/podman/runtime.go:793-822 | each chunk is the bytes of the stream up to the position it is read to |
| StreamSearch.StreamSearcher.constructor | internal/shipohoy/podman/runtime.go:784-791 | nothing seen |
| StreamSearch.StreamSearcher.Feed | internal/shipohoy/podman/runtime.go:809-819 | found if and only if the needle occurs in all bytes seen, although only a tail of them is kept |
| StreamSearch.StreamSearcher.Consume | internal/shipohoy/podman/runtime.go:793-822 | over the chunks of a frame: found at the first chunk that completes an occurrence, with the reader at that chunk's end |
| StreamSearch.SearchDockerStream | internal/shipohoy/podman/runtime.go:738-768 | found if and only if the bytes searched contain the needle, read up to the end of the first chunk that completes it; else all is read, and it ends in a short read if and only if the stream ends inside a payload |
| ProcessTree.StepKeepsInv | internal/runnergrpc/server.go:658-668 | one round of the search outputs only new descendants, each after its parent |
| ProcessTree.DoneBounded | internal/runnergrpc/server.go:658-668 | no more rounds than processes, plus one |
| ProcessTree.AllFound | internal/runnergrpc/server.go:658-668 | when the queue is empty every descendant was output |
| ProcessTree.FinishedIsTree | internal/runnergrpc/server.go:658-668 | the result is exactly the proper descendants, once each, every one after its parent |
| ProcessTree.HaltsIff | internal/runnergrpc/server.go:658-668 | with one parent per process, the search ends if and only if the root is not its own descendant |
| ProcessTree.SearchLoops | internal/runnergrpc/server.go:658-668 | two processes that are each other's parent, on which the search does not end |
| ProcessTree.ProcsAre | internal/runnergrpc/server.go:644-656 | the processes are the directories named by a positive number whose parent can be read |
| ProcessTree.ChildrenInOrder | internal/runnergrpc/server.go:656-656 | children are listed in the order of the directory |
| ProcessTree.ReadParents | internal/runnergrpc/server.go:643-657 | the map holds for each parent the children read, in order, entries that cannot be read aside |
| ProcessTree.SearchFor | internal/runnergrpc/server.go:658-668 | on any table, after any number of rounds the loop stands where the search steps do |
| ProcessTree.ListProcessChildren | internal/runnergrpc/server.go:638-669 | exactly the proper descendants, each once, after its parent, breadth first: the children of the root and then of each process in the order they are listed |
| TabWindow.ChosenShowsActive | sshserver/render.go:69-101 | the chosen window contains the active tab and its hidden flags say what it leaves out |
| TabChoice.AllShown | httpapi/assets/tab_window.js:136-143 | when the widths and the gaps between them add up to at most the bar, the window is all tabs with nothing hidden |
| TabChoice.ChosenIsWidest | httpapi/assets/tab_window.js:144-152 | otherwise, in widths, gaps and indicators: the widest window from the current start if that shows the active tab, the widest from the active tab if it is to the left of it, the widest up to it if it is to the right, with exact hidden flags |
| TabChoice.StartIsNearest | httpapi/assets/tab_window.js:64-70 | a start out of range is brought to the nearest tab |
| TabChoice.ArgumentsBroughtIn | httpapi/assets/tab_window.js:129-135 | only a width below one and a negative gap are changed |
| TabWindow.ForwardSettles | httpapi/assets/tab_window.js:64-105 | growing to the right, the second of three rounds is already the fixed point |
| TabWindow.BackwardSettles | httpapi/assets/tab_window.js:107-127 | and so it is growing to the left |
| TabWindow.FitForward | httpapi/assets/tab_window.js:20-40 | the last end that fits the room, at least one tab, for any start and room |
| TabWindow.FitBackward | httpapi/assets/tab_window.js:42-62 | the first start that fits the room, at least one tab, for any end and room |
| TabWindow.WindowFromStart | httpapi/assets/tab_window.js:64-83 | three rounds give the widest window from the start, brought into range |
| TabWindow.WindowActiveLeft | httpapi/assets/tab_window.js:85-105 | three rounds give the widest window from the active tab, the first one if it is out of range |
| TabWindow.WindowActiveRight | httpapi/assets/tab_window.js:107-127 | three rounds give the widest window that ends at the active tab, the first one if it is out of range |
| TabWindow.ResolveWindow | httpapi/assets/tab_window.js:129-152 | the window chosen, with out-of-range arguments brought into range; it shows the active tab, or the first if there is none |
| TabWindow.TerminalFitForward | sshserver/render.go:253-283 | the last end that fits, on integers, for any start and room |
| TabWindow.TerminalFitBackward | sshserver/render.go:285-315 | the first start that fits, on integers, for any end and room |
| TabWindow.TabWindowFromStart | sshserver/render.go:155-218 | the widest window from the start, brought into range; none without tabs |
| TabWindow.TabWindowActiveRight | sshserver/render.go:220-251 | the widest window that ends at the active tab, brought into range; none without tabs |
| TabWindow.TerminalWindow | sshserver/render.go:69-101 | the window the terminal's bar shows, which contains the active tab |
| TabWindow.SameWindow | sshserver/render.go:69-101 | with indicators of width one and no gap, terminal and browser choose the same window |
| TabWindow.TerminalFitsExactly | sshserver/render.go:155-251 | fitting is fitting the terminal's width with the indicators shown |
| Utf8.DecodeEncode | sshserver/render.go:943-958 | a code point decodes from its encoding, whatever follows |
| Utf8.EncodeDecode | sshserver/render.go:960-985 | what is decoded without error is encoded as it was |
| Utf8.DecodeFailsIff | sshserver/render.go:875-878 | decoding fails by one byte if and only if no character's encoding begins there |
| Utf8.EncodingIs | sshserver/render.go:894-894 | the encoding is the shortest, with the code point's bits in order |
| Pieces.VisibleOfPieces | sshserver/render.go:943-958 | of a text in characters, escape sequences and stray bytes, in front of any other, the characters are shown and stray bytes as U+FFFD |
| Pieces.SanitizedOfPieces | sshserver/render.go:865-898 | at any place in a text: a tab becomes four spaces, other control characters, stray bytes and escape sequences that have an end are removed, every other character is kept |
| Pieces.SanitizedChar | sshserver/render.go:879-895 | what becomes of one character in front of any text |
| Pieces.SanitizedInvalid | sshserver/render.go:874-878 | a byte at which no character begins is removed, whatever follows |
| Pieces.TrimOfPieces | sshserver/render.go:960-985 | cutting keeps the first characters and every escape sequence up to the first one cut |
| Pieces.ControlSequenceEnds | sshserver/render.go:917-926 | a control sequence ends with its first byte from @ to ~ |
| Pieces.SystemCommandEnds | sshserver/render.go:928-941 | an operating system command ends with its first BEL or ESC backslash |
| Ansi.TrimKeepsVisible | sshserver/render.go:960-985 | cutting to a width leaves exactly the first visible characters of any text, invalid bytes and unterminated escapes included |
| Ansi.TrimOfWhole | sshserver/render.go:960-985 | a cut that is wide enough changes nothing |
| Ansi.TrimmedIsWhole | sshserver/render.go:960-985 | a cut that removes something leaves no escape sequence open at the end |
| Ansi.SanitizeIsIdempotent | sshserver/render.go:865-898 | sanitizing twice is sanitizing once |
| Ansi.SanitizedIsVisible | sshserver/render.go:865-898 | sanitized text shows each of its code points and nothing else |
| Ansi.SkipCSI | sshserver/render.go:917-926 | skips to behind the first final byte (section 5.4 of ECMA-48), or to the end |
| Ansi.SkipOSC | sshserver/render.go:928-941 | skips to behind BEL or ESC backslash, or to the end |
| Ansi.SkipEscape | sshserver/render.go:900-915 | skips the escape sequence behind the ESC |
| Ansi.VisibleWidth | sshserver/render.go:943-958 | counts the visible characters |
| Ansi.TrimANSIToWidth | sshserver/render.go:960-985 | the loop cuts as specified, and to nothing for a width of zero or less |
| Ansi.SanitizeOutputLine | sshserver/render.go:865-898 | the line without escapes and control characters and with tabs as four spaces, as `Pieces.SanitizedOfPieces` says piece by piece |
| Paint.PaintedRunes | sshserver/render.go:943-958 | the characters shown in some style are the visible ones |
| Filling.LaterLinesStartWithWord | sshserver/render.go:789-804 | every wrapped line but the first starts with a word, not with white space |
| Wrap.TokenizeText | sshserver/render.go:741-772 | tokens alternate between words and spaces, are the words of the text, and together are the text with each white space character turned into a space |
| Wrap.TrimToWidth | sshserver/terminal.go:1507-1516 | a prefix of the text: all of it if and only if it fits, else as much as fits |
| Wrap.WrapRunes | sshserver/render.go:774-847 | the lines hold the words cut only where they must be, and the text but for white space at line breaks; what starts a line had no room on the one before |
| Wrap.WrapPlainLines | sshserver/render.go:774-847 | the same of any input bytes: no line is wider than the width and nothing is cut by the final trim |
| Wrap.PiecesAreFull | sshserver/render.go:816-833 | a word that is cut fills every line but its last |
| Wrap.PiecesNeeded | sshserver/render.go:816-833 | and takes no more lines than it needs |
| Wrap.OnlySpacesShown | sshserver/render.go:755-763 | white space of any kind is shown as spaces |
| Wrap.FittingWordsKept | sshserver/render.go:834-840 | a word that fits a line is on one line as it was |
| Wrap.WrapConserves | sshserver/render.go:774-847 | the characters of the lines that are not white space are those of the sanitized text, in order |
| InlineMarkdown.ParseInline | internal/markdown/markdown.go:15-94 | the loop parses as specified |
| InlineMarkdown.ParseKeepsText | internal/markdown/markdown.go:15-94 | every byte that is no marker is kept, in order, and no span is empty |
| InlineMarkdown.ParseAddsNothing | internal/markdown/markdown.go:15-94 | the text of the spans is a subsequence of the input: no byte is added or moved |
| InlineMarkdown.ParseWritten | internal/markdown/markdown.go:13-94 | spans written with their markers, text escaped, parse back to the same spans |
| MarkdownMarks.UnclosedIsText | internal/markdown/markdown.go:15-94 | a star, two stars or a backtick that nothing closes is text |
| MarkdownMarks.EscapedIsText | internal/markdown/markdown.go:15-94 | a backslash makes text of whatever follows it, and is text at the end |
| MarkdownMarks.CodeIsVerbatim | internal/markdown/markdown.go:15-94 | between backticks stars are text |
| MarkdownMarks.SpanLooks | sshserver/render.go:600-616 | a span is bold or italic if it or the text around it is, in the colour of bold text, else of code, else of the text around |
| MarkdownMarks.ColourCode | sshserver/theme.go:112-114 | a colour's code names red, green and blue in this order |
| MarkdownMarks.DigitsSpell | sshserver/theme.go:112-114 | in decimal digits without leading zeros |
| MarkdownLines.StyleMarks | sshserver/render.go:600-616 | a span's style shows nothing and is added to the codes in force; no part of it resets them |
| MarkdownLines.ApplyStyle | sshserver/render.go:618-631 | afterwards the pen is exactly the style, whatever it was before, and nothing new is shown |
| MarkdownLines.FlushLine | sshserver/render.go:633-644 | the line shows the row in its styles, the trim cuts nothing, and the pen is reset at its end |
| MarkdownLines.TokenizeMarkdown | sshserver/render.go:711-734 | the words of a span, and a space for each white space character |
| MarkdownLines.RenderMarkdownLines | sshserver/render.go:575-704 | the lines show the words of the spans in their styles, cut only where they must be, and the text but for white space at line breaks; what starts a line had no room on the one before |
| MarkdownLines.LinesFit | sshserver/render.go:575-704 | no line shows more characters than the width |
| MarkdownLines.MarkdownConserves | sshserver/render.go:575-704 | every character of every span that is not white space is shown once, in order, in the style of its own span |
| InputLayout.JoinUndoesSplit | sshserver/terminal.go:1479-1482 | the lines of the input joined with newlines are the input |
| InputLayout.SplitAtNewlines | sshserver/terminal.go:1479-1482 | and none of them has a newline in it |
| InputLayout.RowsOfPrefix | sshserver/terminal.go:1469-1488 | the rows of what stands before a place in the input are the rows of all of it up to that place |
| InputLayout.RowsKeep | sshserver/terminal.go:1469-1488 | the rows concatenate to the input without newlines |
| InputRows.RowsAtNewline | sshserver/terminal.go:1479-1482 | a newline ends the rows of what stands before it, and what follows has rows of its own |
| InputRows.RowsOfLine | sshserver/terminal.go:1483-1488 | a line takes as many rows as it needs, one if it is empty, all but the last of them full |
| InputRows.CursorColumn | sshserver/terminal.go:1469-1496 | the cursor is as far behind the prefix as its line, up to it, is into its last row |
| InputRows.UnbrokenWithoutWidth | sshserver/terminal.go:1429-1431 | without a width no line is broken |
| InputRows.PrefixShown | sshserver/terminal.go:1432-1436 | the prefix is shown as it is if it fits, else as much of it as fits |
| InputLayout.CursorOnInput | sshserver/terminal.go:1469-1496 | the cursor's row is there, and what the rows show before it is the input before the cursor |
| InputLayout.ColumnCutIff | sshserver/terminal.go:1489-1503 | for any arguments, the column is cut to the edge if and only if the prefix leaves no column, or the cursor's line up to the cursor is not empty and a multiple of the columns left |
| InputLayout.CursorOnFullRow | sshserver/terminal.go:1489-1503 | two characters behind a prefix of one on a terminal of three columns, where the cursor is shown on the second |
| InputLayout.InputFitsIff | sshserver/terminal.go:1430-1448 | for any arguments, counting code points as the code does, every row fits if and only if the prefix leaves a column or there is nothing to show |
| InputLayout.RowTooWide | sshserver/terminal.go:1430-1448 | a prefix as wide as the terminal and one character, which does not fit |
| InputLayout.DrawnFitsIff | sshserver/terminal.go:1430-1448 | what a terminal shows of every line drawn fits it under the same condition, also when the prefix had to be cut |
| InputLayout.RenderInputLines | sshserver/terminal.go:1420-1505 | the first line is the prefix and the first row, every other as many spaces as the prefix is wide and its row; the cursor is on the row and behind the text before it, kept on the terminal, and brought into the input if it is not in it |

## Left out

- Container, gRPC, SSH, HTTP, file and process calls: starts and stops are steps that succeed or fail, completions are what a probe sees, `/proc` and streams are values, and JSON encoding is the identity.
- Errors of the container runtime when a runner is stopped or removed, logging, emitted events, and cancellation of contexts.
- Several users: the tab service and the hub keep one independent state per user, and one of them is modelled.
- HubImpl.UserHub.Publish: does not model wrap-around of the 64-bit sequence number.
- TabService.StepKeepsInv: the steps create tabs under ids never used before, as the source draws them at random; `TabService.CreatedKeepsInvIff` says exactly which other ids keep the invariant. Runs are installed under handles never used before, as the runner returns a new object for each.
- TabCalls.ViewShows: lock sections are taken to be atomic for the unlocked reads of a view too; what such a read may see of a section half done, or of a torn slice header, is not modelled.
- TabLaws.LoadOfSave: is stated for a configuration with a positive buffer size and a theme, which is what the constructor of the service turns every configuration into.
- Tab service operations on usage, repositories and authentication, and the lines `consumeEvents` writes for each kind of event.
- StopProtocol.StopSignals: is stated for completion that is permanent, as that of a closed Go channel is.
- ProcessTree.ListProcessChildren: is stated for tables on which the search ends, as `ProcessTree.HaltsIff` says exactly when that is; on any other the source does not return, and `ProcessTree.SearchFor` says what it does meanwhile. Process ids are taken to be listed once, as directory names are.
- StreamSearch.SearchDockerStream: counts the bytes the search asks for, not those its buffered reader has fetched ahead.
- InputLayout.DrawnFitsIff: is stated for input without ESC, which the terminal's key reader takes as the start of a key (`sshserver/editor.go`), though a recalled prompt may hold one, and for a prefix that is cut or has no open escape sequence, as the prompts have; `InputLayout.InputFitsIff` has neither condition.
- DockerStream.CopyDockerStream: the reader is the whole stream as a value, so that an error of the reader is the end of it.
- TabWindow.ResolveWindow: widths are non-negative real numbers; rounding of JavaScript numbers is not modelled.
- The text of the tab bar, the classification of output lines, themes, and `renderMarkdownLine`, which is a single line without wrapping.
- The line editor, the command parser and its shell quoting, configuration, authentication, the command line tools and the Android client.
