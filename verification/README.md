# Reverse execution, verified

A Dafny model of the reverse-execution engine of ghidra-unicorn, a debugger that runs a program on an
emulator and can go backwards: it puts back a recorded state and runs forward from there again, with
everything muted. A checkpoint is a full base image or a set of dirty pages on top of one;
a byte budget folds old ones into the base; what re-running cannot redo (system calls, library calls
that are stood in for) is written down in an effect log and redone from there; the layers behind those
calls, and the hit counts of breakpoints, rewind as well.

The specification is a list of worlds (`hist`), one for each instruction: the machine, the layer's state,
and whether a debugger edit made it so. The classes carry the source's own fields; their invariants tie
them to that list. The processor and the layers are arbitrary functions of the state, so everything is
said of every program.

| file | what it models |
|---|---|
| `Machine.dfy`, `Engine.dfy` | registers, paged memory, regions, and the engine's own operations on them |
| `Acts.dfy` | what a call does to the machine; regrouping and repeating it |
| `Checkpoints.dfy`, `Timeline.dfy` | what a list of checkpoints stands for, and the recorder |
| `EffectLog.dfy` | the log of effects |
| `Runs.dfy`, `Histories.dfy` | runs, and how checkpoints and log stand to the run they were taken from |
| `Breakpoints.dfy`, `Guards.dfy` | breakpoints and their hits; what a run comes upon and what that counts as |
| `Candidates.dfy`, `Landings.dfy` | where a backward search may stop, and how that differs from a run forwards |
| `Target.dfy` | running forwards, replaying, going back, searching back, edits |
| `Heap.dfy`, `Stubs.dfy` | the allocator with its undo journal, and the library-call layer |
| `Syscalls.dfy`, `Services.dfy` | the system-call layer over shared file objects, and the same layer as the target sees it |
| `Loader.dfy`, `Symbols.dfy`, `Console.dfy`, `Recording.dfy` | segment mapping, symbol lookup, command splitting, session recording |
| `Limits.dfy` | where an exact history ends: the conditions, and machines that need them |
| `Options.dfy` | `None` or a value |

## What is proved

*Time travel is exact.* `Target.Go(k)` succeeds for exactly the k in the recorded history, and then
registers, memory, mapped regions and layer state are those the forward run had at k.
It asks one thing: that the checkpoint it uses is exact and that a restore reproduces it (`Reaches`).
Everything up to k can be gone back to as before. `Target.Emulate` and the edits leave every checkpoint
still held as good as it was (`Retains`), so going back, running on and going back again is covered
whatever the replay missed. When checkpoints are good is said exactly:

- a new checkpoint is exact as long as the recorder is shown everything (`Sound`, `Untroubled`), which one
  step fails to do if and only if it maps a page over an image of it that is not zero and does not write it
  (`Histories.NothingGoesUnnoticedIff`; `Limits.RemappedPageIsMissed` is a run that does). Such a page held
  something earlier in the run, so a run that maps no page of that kind again unwritten stays sound
  (`Target.NothingHidden`);
- after going back, the next checkpoint is exact if and only if no call on the way changed a page by
  itself (`Limits.SoundAfterReplayIff`): redoing an effect does not mark its pages;
- a restore reproduces an exact checkpoint if and only if every page it leaves as it finds it has an image
  (`Checkpoints.RestoreExactIff`). That is so as long as nothing has been folded away (`Tracks`), for a run
  that maps nothing new (`NothingNew`), and for every checkpoint that has an image of all its pages
  (`Targets.Target.TrueServes`); `Limits.LateRegionIsLost` is a run for which folding ends it.

*Hits are counted along the run and rewound with it.* The breakpoints a run sets out with fix the events
along it (`Guarding`), and those fix its hits: one is to be ignored as long as there have been fewer than
its breakpoint was told to ignore, and the run stops at the first that is not
(`Breakpoints.StopsAtTheNextIff`). `Target.Emulate` leaves exactly these counted and, behind what was logged
before, logged. After `Target.Go(k)` the log and the counts are those the run had when it had got to k
(`Guarding.TakenBack`, `Target.RunThenBack`). A hit that folding has dropped from the log stays counted.

*Searches backwards* (`ResumeBack`, `PrevOver`) work through windows between checkpoints and are shown
equal to a search of the whole history. Where such a search lands and where a run forwards stops is not
the same; `Landings.LandsIsDueIff` and `Landings.DueIsLandedIff` say exactly how they differ, with a program
for each of the three reasons.

*Layers rewind with the machine.* The system-call layer is proved equal to a function of its state,
its snapshots to mean what was held, and it is shown to be a layer the target can go back with
(`Services.ServedOrderly`). The allocator gives back both tables, the top and the mapped end, except
where the code does not: a size changed in place (`Heap.Resize` says exactly which snapshots), and the
order of the free list, which decides between blocks of one capacity (`Heaps.RepickIff`). Its blocks tile
the arena in every reachable state, and lie inside the part that is mapped as long as no map of the arena
was refused (`Stubs.Layer.Call`, `Rewind`, `Prune`).

## Where the code and its documentation differ

The model follows the code in each case.

- `stubs.py` calls the search for a free block first fit; `_fit` picks the smallest that fits
  (`stubs.py:92-94`, `stubs.py:151-156`).
- A block is handed out before the arena is mapped for it (`stubs.py:370-377`). When the engine refuses the
  map, the call fails and the block stays; freed, it is handed out again with nothing mapped
  (`Stubs.HandedOutUnmapped`).
- Going back is meant to give the allocator back (`stubs.py:113-128`). A size changed in place stays changed
  (`Heaps.ResizeShowsThrough`), and of two freed blocks of one capacity the other may be picked afterwards
  (`Heaps.TieGivesTheOther`).
- A stub's hook also runs at the instruction a replay stops before, where the target's own hook has
  stopped the engine; it then looks up the instruction before and redoes that effect (`stubs.py:277-284`,
  `target.py:687-695`). It changes nothing (`Acts.AgainChangesNothing`).
- A run backwards is meant to stop where a run forwards would have (`target.py:1098-1108`). It lands on a
  breakpoint that still has hits to ignore, or that is not armed, and evaluates a watchpoint's condition
  after the access and not before (`Landings.LandsIsDueIff`; `Landings.IgnoredIsLandedOn`, `UnarmedIsLandedOn`
  and `MetAfterwardsIsLandedOn`).
- A fault is taken to have happened in the last instruction counted (`target.py:800-812`). When the next
  instruction could not be fetched, that one had completed, and the count comes out one short
  (`Targets.FetchFaultMiscounts`).
- Deleting a temporary breakpoint that was added on top of a permanent one at the same address leaves the
  permanent one unable to stop a run (`target.py:467-478`; `Breakpoints.TemporaryDisarms`).
- A recording is meant to replay as the commands typed (`recording.py:1-18`); printed text with a line
  break other than a line feed breaks that (`Recordings.CarriageReturnLeaks`).
- Moving a symbol table is meant to shift every symbol (`symbols.py:148-149`); a name that several symbols
  have may lead to another of them afterwards, because the copy is built in sorted order
  (`Symbols.MovedNameChanges`).
- `munmap` of no bytes at an address inside a mapped page unmaps that page (`syscalls.py:532-542`;
  `Syscalls.MunmapOfNothing`).

## Model

| member | source | states |
|---|---|---|
| Machine.MapKeepsWellFormed | ghidraunicorn/effects.py:130-133 | mapping free pages keeps every page with contents in exactly one region, and touches no page that was mapped |
| Machine.UnmapKeepsWellFormed | ghidraunicorn/effects.py:135-138 | unmapping, which may split regions, keeps pages and regions agreeing |
| Machine.CutPages | ghidraunicorn/effects.py:135-138 | taking a hole out of the regions takes away exactly the pages of the hole |
| Machine.PutPage | ghidraunicorn/timeline.py:244-248 | writing a page image at its own address replaces that page and no other |
| Machine.ByteAfterWrite | ghidraunicorn/effects.py:117-123 | a write that is accepted changes the bytes in its range and no others |
| Acts.Regroup | ghidraunicorn/effects.py:150-176 | redoing a call as maps, unmaps, writes, registers gives the state the original interleaving gave, and nothing is refused, for every call that maps nothing it unmapped and unmaps nothing it wrote |
| Acts.UnmapThenMapIff | ghidraunicorn/effects.py:156-165 | for an unmap followed by a map the regrouping is right if and only if the two do not overlap, so the condition of Regroup is needed |
| Acts.AgainChangesNothing | ghidraunicorn/stubs.py:277-284 | redoing the entry of the call just made changes nothing, whatever it did: what makes the extra run of a stub hook at the end of a replay harmless |
| Acts.SuccessesSucceed | ghidraunicorn/effects.py:117-138 | leaving out the acts that were refused changes nothing of what the rest do |
| Acts.OneWayIsTame | ghidraunicorn/effects.py:150-176 | the shapes of effect the shipped layers produce (no unmaps at all, or only unmaps and registers) meet the condition of Regroup |
| Acts.SwapUnmapMap | ghidraunicorn/effects.py:156-165 | a map can be done before an unmap it does not overlap, with the same region set as result |
| Checkpoints.DeltaExactIffNothingStale | ghidraunicorn/timeline.py:131-145 | base overlaid with deltas equals the machine at the newest checkpoint if and only if no page had changed without being noted as dirty |
| Checkpoints.FoldKeepsSnapshots | ghidraunicorn/timeline.py:171-187 | after folding any number of deltas into the base, every checkpoint still there describes the same state at the same instruction |
| Checkpoints.FoldedKeeps | ghidraunicorn/timeline.py:171-187 | folding keeps the checkpoints ordered and at most an interval apart, and the newest one describing the same state at the same instruction |
| Checkpoints.OverSplit | ghidraunicorn/timeline.py:179-183 | overlaying some deltas and then the others is overlaying them all |
| Checkpoints.RestoreExactIff | ghidraunicorn/timeline.py:235-258 | a restore gives the recorded state from whatever the machine has become, if and only if every page of a region it leaves mapped has an image |
| Checkpoints.RestoreExact | ghidraunicorn/timeline.py:235-258 | the recorded registers, bytes and regions come back from any starting machine when that condition holds |
| Checkpoints.CoveredResets | ghidraunicorn/timeline.py:235-258 | the condition holds for every checkpoint as long as the base has an image of each of its own pages |
| Checkpoints.SyncedInTwo | ghidraunicorn/timeline.py:285-298 | unmapping all but the kept regions and then mapping what is missing gives exactly the wanted regions: kept ones with their bytes, the rest zero |
| Checkpoints.UnmapRegion | ghidraunicorn/timeline.py:285-291 | taking down one region leaves all the others as they are |
| Checkpoints.MapRegion | ghidraunicorn/timeline.py:292-298 | putting back one wanted region is never refused |
| Checkpoints.ReplayIsShort | ghidraunicorn/timeline.py:206-215 | the checkpoint found for an instruction is at most one interval before it |
| Checkpoints.NotAfterIsPrefix | ghidraunicorn/timeline.py:217-225 | dropping checkpoints after k keeps exactly those up to the one a restore to k uses |
| Checkpoints.LatestIsFirstPast | ghidraunicorn/timeline.py:249-256 | the loop that overlays deltas stops exactly at the checkpoint that was asked for, also when several were taken at one instruction |
| Checkpoints.OrderedPlus | ghidraunicorn/timeline.py:131-145 | a checkpoint taken in time keeps neighbours at most an interval apart |
| Timelines.Timeline.constructor | ghidraunicorn/timeline.py:66-84 | interval at least one, budget not negative, nothing recorded |
| Timelines.Timeline.NoteWrite | ghidraunicorn/timeline.py:92-101 | exactly the pages holding a byte of the write become dirty |
| Timelines.Timeline.ReadAll | ghidraunicorn/timeline.py:147-155 | the contents of every mapped page |
| Timelines.Timeline.ReadPages | ghidraunicorn/timeline.py:157-164 | the contents of those wanted pages that are mapped |
| Timelines.Timeline.EnforceBudget | ghidraunicorn/timeline.py:171-187 | terminates with the retained bytes within the budget, having folded a prefix of the deltas, the fewest that will do |
| Timelines.Timeline.Append | ghidraunicorn/timeline.py:131-145 | the whole memory the first time, afterwards the dirty pages; it describes the present if and only if nothing was stale |
| Timelines.Timeline.TakeCheckpoint | ghidraunicorn/timeline.py:131-145 | the same after folding, the next one is due one interval on, and the result says whether the start of the history moved |
| Timelines.Timeline.NoteInstruction | ghidraunicorn/timeline.py:86-90 | counts one instruction and takes a checkpoint exactly when one is due |
| Timelines.Timeline.NoteExternalWrite | ghidraunicorn/timeline.py:103-113 | a debugger write is captured at once, exactly if whatever else was stale lies in the pages written |
| Timelines.Timeline.NoteExternalChange | ghidraunicorn/timeline.py:115-118 | a register edit is captured at once, exactly if nothing was stale |
| Timelines.Timeline.Uncount | ghidraunicorn/timeline.py:120-129 | takes one off the count; last checkpoint <= count <= next still holds if and only if something was counted since the last checkpoint |
| Timelines.Timeline.CheckpointAtOrBefore | ghidraunicorn/timeline.py:206-215 | the last checkpoint not after k, or an error before the base |
| Timelines.Timeline.Truncate | ghidraunicorn/timeline.py:217-225 | keeps the checkpoints up to k; the catch-up branch is not taken, and the invariant holds, if and only if k is within an interval of the last of them |
| Timelines.Timeline.AdvanceTo | ghidraunicorn/timeline.py:227-231 | the invariant holds if and only if k lies between the last checkpoint and the next, which is when its catch-up branch is not taken |
| Timelines.Timeline.SyncRegions | ghidraunicorn/timeline.py:260-298 | for any regions mapped and any nonempty disjoint set wanted: mapped becomes exactly wanted, kept regions keep their bytes, regions absent from the base are zero |
| Timelines.Timeline.TakeDown | ghidraunicorn/timeline.py:285-291 | leaves mapped exactly the regions to keep |
| Timelines.Timeline.PutBack | ghidraunicorn/timeline.py:292-298 | maps exactly what is missing |
| Timelines.Timeline.WritePages | ghidraunicorn/timeline.py:244-256 | images go where there still is a page, and nowhere else |
| Timelines.Timeline.Restore | ghidraunicorn/timeline.py:235-258 | registers, regions and images of the checkpoint that serves k, or an error and nothing changed |
| EffectLogs.CarriesOneMore | ghidraunicorn/effects.py:117-138 | an entry that holds what a call did so far still does after one more act |
| EffectLogs.EntryReplays | ghidraunicorn/effects.py:150-176 | redoing an entry on the machine the call found gives the machine the call left |
| EffectLogs.EffectLog.Begin | ghidraunicorn/effects.py:96-107 | a new entry with the layer state of before |
| EffectLogs.EffectLog.Perform | ghidraunicorn/effects.py:117-138 | does one act; it is written down exactly when it was not refused, and a write also marks its pages |
| EffectLogs.EffectLog.Record | ghidraunicorn/effects.py:117-138 | keeps the entry equal to what the call has done to the machine so far |
| EffectLogs.EffectLog.End | ghidraunicorn/effects.py:108-111 | the entry joins the log and its index, also when the call failed |
| EffectLogs.EffectLog.Replay | ghidraunicorn/effects.py:150-176 | does exactly what is written for instruction k, tells the recorder of no page, puts out nothing |
| EffectLogs.EffectLog.Truncate | ghidraunicorn/effects.py:180-194 | drops exactly the entries from k on and gives back the state from before the oldest of them |
| EffectLogs.EffectLog.ForgetBefore | ghidraunicorn/effects.py:196-209 | drops exactly the entries before the history, says whether any went, and which snapshot is the oldest left |
| Runs.ServedFrame | ghidraunicorn/effects.py:117-138 | a call leaves the pages it did not write alone, and what it maps is zero |
| Runs.StepFrame | ghidraunicorn/target.py:632-635 | one step changes, without the write hook hearing, only what a call wrote or mapped |
| Runs.UntouchedPage | ghidraunicorn/timeline.py:92-101 | over any stretch without edits, a page no instruction wrote and no call wrote or mapped is as it was |
| Runs.LayerStays | ghidraunicorn/target.py:977-997 | a layer's state moves only when it answers a call |
| Runs.NextKeepsWellFormed | ghidraunicorn/target.py:772-847 | every instruction and every call keeps pages and regions agreeing |
| Histories.AddExact | ghidraunicorn/timeline.py:131-145 | with nothing stale, a new checkpoint keeps every checkpoint from any given instruction on equal to the state of the run there |
| Histories.FoldKeepsExact | ghidraunicorn/timeline.py:171-187 | folding keeps that too |
| Histories.FoldGrows | ghidraunicorn/timeline.py:179-183 | folding takes no image away from the base |
| Histories.NothingNewCovers | ghidraunicorn/timeline.py:285-287 | as long as nothing is mapped that was not mapped at an instruction the base has images of, the base has an image of every page of its regions |
| Histories.RecordKeepsFaith | ghidraunicorn/timeline.py:131-145 | taking a checkpoint, with whatever folding the budget asks for, keeps every checkpoint equal to the state of the run and leaves nothing stale |
| Histories.NothingGoesUnnoticedIff | ghidraunicorn/target.py:302-316 | if nothing was stale before an instruction or call of the first run, nothing is after it if and only if every page newly mapped and not written has no image or a zero one |
| Histories.BlindRemaps | ghidraunicorn/timeline.py:244-248 | only an instruction that maps a page that held something at some time before, and does not write it, can leave something stale |
| Histories.DrawnPlus | ghidraunicorn/timeline.py:131-145 | what a checkpoint that can be used has images of, other than zeros, was there in the run by then, also after an edit |
| Histories.NothingRemaps | ghidraunicorn/timeline.py:244-248 | in a run where no page comes back there is no such instruction |
| Histories.PlainMapsNothing | ghidraunicorn/target.py:632-635 | an instruction that calls no layer leaves nothing stale |
| Histories.RecordRetains | ghidraunicorn/timeline.py:131-187 | taking a checkpoint and folding for the budget leaves every checkpoint still held as true, and as complete, as it was, whether or not the new one is exact |
| Histories.CutRetains | ghidraunicorn/timeline.py:217-225 | cutting the history back to k does too, for all checkpoints up to k |
| Histories.RetainedReaches | ghidraunicorn/timeline.py:235-258 | what could be gone back to through a checkpoint still held can be still: when nothing was folded away, or that checkpoint has all its images |
| Histories.TrueReaches | ghidraunicorn/timeline.py:235-258 | a true checkpoint with all its images, or that a restore reproduces, or over a base that covers its regions, serves every instruction up to the next checkpoint |
| Histories.FaithfulReaches | ghidraunicorn/timeline.py:235-258 | in a history told truly from some instruction on with a covered base, everything from there on can be gone back to |
| Histories.CutReaches | ghidraunicorn/timeline.py:217-225 | after going back to k, everything up to k can be gone back to as before |
| Histories.ReplayMissesOnlyCalls | ghidraunicorn/effects.py:166-168 | after a replay from an exact checkpoint, what the recorder has missed lies within the pages calls wrote or mapped |
| Histories.ReplayIsNext | ghidraunicorn/effects.py:150-176 | redoing the entry of call j in state j gives state j+1, and redoing it there again changes nothing |
| Histories.LogCutBack | ghidraunicorn/effects.py:180-194 | after a truncation at k the log again fits the run, and the state to put back is the layer state at k |
| Histories.LogForget | ghidraunicorn/effects.py:196-209 | pruning keeps the log complete for every instruction still in reach |
| Histories.LogLookup | ghidraunicorn/effects.py:150-154 | a lookup finds an entry exactly at the calls, and it is that call's |
| Histories.NoEditSince | ghidraunicorn/timeline.py:103-118 | no debugger edit lies between the checkpoint a restore uses and where it is going |
| Histories.ExactRestores | ghidraunicorn/timeline.py:235-258 | restoring a checkpoint that is exact and leaves no page as it finds it gives the state of the run there, whatever the machine is now |
| Histories.GoneBack | ghidraunicorn/target.py:977-997 | what is left after going back is again a faithful history of the shorter run |
| Histories.EditKeepsRun | ghidraunicorn/target.py:302-316 | a debugger edit changes only the world the run ends in |
| Histories.CutBack | ghidraunicorn/timeline.py:217-225 | checkpoints and edits up to k fit the run up to k |
| Breakpoints.TallyUndo | ghidraunicorn/target.py:563-576 | each hit undone can be taken off: the clamp to zero never acts, and counts stay forgotten plus logged hits |
| Breakpoints.TallyStrike | ghidraunicorn/target.py:446-465 | counting a hit keeps hit count = forgotten + logged hits, and ignore count + logged ignored hits constant |
| Breakpoints.TallySettle | ghidraunicorn/target.py:553-561 | a forgotten hit stays counted |
| Breakpoints.BreakpointTable.AddBreakpoint | ghidraunicorn/target.py:330-339 | a permanent breakpoint that exists is answered again with nothing changed; a new one is armed at its address in place of whatever was |
| Breakpoints.BreakpointTable.AddWatchpoint | ghidraunicorn/target.py:340-348 | a new watchpoint with nothing counted; execute is refused |
| Breakpoints.BreakpointTable.SetIgnoreCount | ghidraunicorn/target.py:399-406 | sets the ignore count of one breakpoint, and what it may still pass to match; nothing else changes |
| Breakpoints.BreakpointTable.SetCondition | ghidraunicorn/target.py:379-397 | a condition that compiles, or none, and nothing else changes |
| Breakpoints.BreakpointTable.DeleteBreakpoint | ghidraunicorn/target.py:467-478 | every execute breakpoint can still stop a run if and only if none left shares its address with the one deleted, where that was the one armed |
| Breakpoints.TemporaryDisarms | ghidraunicorn/target.py:467-478 | a temporary breakpoint on top of a permanent one, whose deletion leaves the permanent one enabled and unarmed |
| Breakpoints.BreakpointTable.Triggers | ghidraunicorn/target.py:446-465 | a hit is counted exactly when the condition holds, and stops exactly when nothing was left to ignore; the whole table and log afterwards |
| Breakpoints.BreakpointTable.UndoHits | ghidraunicorn/target.py:563-576 | exactly the hits at or before k remain, and counting the ones removed again would give back the counts there were |
| Breakpoints.BreakpointTable.ForgetHits | ghidraunicorn/target.py:553-561 | drops exactly the hits before the history and changes no count |
| Breakpoints.BreakpointTable.Recount | ghidraunicorn/target.py:1193-1205 | a hit at the place arrived at is in the log once, in order, and counted |
| Breakpoints.HitsFollow | ghidraunicorn/target.py:446-465 | the hits of a run are the events along it one by one, up to the one it stops for |
| Breakpoints.AllBeforeIgnored | ghidraunicorn/target.py:446-465 | only the last hit of a run can be one that stops |
| Breakpoints.OneTooMany | ghidraunicorn/target.py:446-465 | where a run stops for a breakpoint, that one has had one hit more than it was told to ignore |
| Breakpoints.StopsAtTheNextIff | ghidraunicorn/target.py:446-465 | a run stops for a breakpoint if and only if some condition is met once more than that breakpoint was told to ignore |
| Breakpoints.EventCounts | ghidraunicorn/target.py:446-465 | counting the next event as it happens gives the hits of all of them: ignored as long as there have been fewer than the ignore count said at the start |
| Breakpoints.CountsTrans | ghidraunicorn/target.py:446-465 | counting one stretch of hits and then another is counting both |
| Breakpoints.CountsLess | ghidraunicorn/target.py:563-576 | hits taken off again leave the counts as they were with the ones before them |
| Breakpoints.SinceTwice | ghidraunicorn/target.py:553-561 | cutting the log at its start twice is cutting it once |
| Breakpoints.SinceUpTo | ghidraunicorn/target.py:553-576 | cutting the log at its start and at its end can be done in either order |
| Breakpoints.UndoMore | ghidraunicorn/target.py:563-576 | going back twice takes off the log and the counts what going back once does |
| Guarding.ThroughKnown | ghidraunicorn/target.py:479-551 | what a run comes upon is of breakpoints there are, at instructions after the one it set out from |
| Guarding.EventsOf | ghidraunicorn/target.py:479-551 | what is armed at an instruction, and what it accesses, is among the events of every run past it |
| Guarding.StoppedHere | ghidraunicorn/target.py:531-545 | a run that stops before an instruction stops for what is armed there |
| Guarding.StoppedAfter | ghidraunicorn/target.py:637-660 | a run that stops after an instruction stops for an access of it |
| Guarding.TakenBack | ghidraunicorn/target.py:977-997 | taking back what came after instruction k leaves the log and the counts that the run had when it had got there |
| Candidates.SortSorts | ghidraunicorn/target.py:1165-1174 | candidates come oldest first, the same ones |
| Candidates.Wider | ghidraunicorn/target.py:1123-1142 | the best candidate of a window is the best of the whole history when everything newer is empty; an empty window widens the empty part |
| Candidates.MarkedAlike | ghidraunicorn/target.py:1144-1174 | what breakpoints mark in a window depends on the run and not on the counts |
| Candidates.StillToVisit | ghidraunicorn/target.py:1176-1191 | a backward search never visits an instruction before the newest place there is to land on, or before the checkpoint below it |
| Targets.Target.constructor | ghidraunicorn/target.py:153-207 | a fresh target is at the start of its run with a sound recorder |
| Targets.Target.StepKeepsSound | ghidraunicorn/target.py:302-316 | one step further a sound history is sound if and only if the step mapped no page over an image of it that is not zero without writing it |
| Targets.Target.NothingHidden | ghidraunicorn/target.py:302-316 | the instructions that hid something are among those that map a page that held something before and leave it unwritten; with none of those from some instruction on, nothing is hidden from there on |
| Targets.Target.NothingNew | ghidraunicorn/timeline.py:285-287 | a run that maps nothing new can be gone back in wherever its history has been folded to |
| Targets.Target.CountInstruction | ghidraunicorn/target.py:479-551 | counting the instruction keeps recorder, log and hits in step with the run; when the history is cut at its start exactly the hits before the new start leave the log, no count changes, and nothing is folded before the next delta is due |
| Targets.Target.OnHistoryForgotten | ghidraunicorn/target.py:553-561 | the log and the hits lose exactly what lies before the new start of the history |
| Targets.Target.OnMem | ghidraunicorn/target.py:637-660 | an access is one more event exactly when the watchpoint is enabled and its condition holds; counts and log are what the events so far come to, and a stop is pending exactly when they have come to one |
| Targets.Target.BreakHere | ghidraunicorn/target.py:531-545 | what is armed here is one more event exactly when it is enabled and its condition holds; counts and log are what the events come to, and the run stops exactly when that is a stop |
| Targets.Target.Check | ghidraunicorn/target.py:531-545 | the same for the lookup alone, with the breakpoint that stops as the answer |
| Targets.Target.TallyEvent | ghidraunicorn/target.py:446-465 | one event, counted and logged as it happens, keeps counts and log those of all the events since the run set out |
| Targets.Target.OnCode | ghidraunicorn/target.py:479-551 | which of pending watchpoint, first instruction, exit, used-up count and breakpoint decides, in that order; an instruction not halted is counted once; the events heard of, and the counts and the log they come to |
| Targets.Target.RunPlain | ghidraunicorn/target.py:632-660 | the instruction runs once, its accesses are heard, and the run grows by its next state; a sound history stays sound |
| Targets.Target.Answer | ghidraunicorn/syscalls.py:197-244 | a call is answered once and written down completely |
| Targets.Target.RunCall | ghidraunicorn/syscalls.py:197-244 | the run grows by its next state; a sound history stays sound if and only if the call showed the recorder everything |
| Targets.Target.PerformAll | ghidraunicorn/effects.py:96-146 | the entry holds exactly the acts that were not refused, and their pages are marked |
| Targets.Target.Turn | ghidraunicorn/target.py:479-551 | one turn of the engine, every way it can end, with the events of the turn and the counts and the log they come to |
| Targets.Target.Perform | ghidraunicorn/target.py:632-660 | the instruction or the call itself: its accesses are the events after it |
| Targets.Target.Pace | ghidraunicorn/target.py:479-551 | one turn of a run that nothing has stopped keeps it one that nothing has stopped, or ends it with what it is stopped for |
| Targets.Target.EmuStart | ghidraunicorn/target.py:772-815 | nothing that had to stop the run was run past, whatever there was left to ignore; counts and log are those of the events along it |
| Targets.PassedNothingDue | ghidraunicorn/target.py:446-465 | before the end of a run no condition was met more often than its breakpoint was told to ignore |
| Targets.Target.Emulate | ghidraunicorn/target.py:772-847 | the run grows by completed instructions only, none twice and none skipped; it stops for a breakpoint exactly at the first event with nothing left to ignore, before its instruction or, for a watchpoint, after; every breakpoint is still there but a temporary one that stopped it, counted up and used up by the hits of the run; the log is the old one and these, cut where the history starts; the count is one short exactly when the run comes to where nothing can be fetched with no stop before it; a sound history stays sound unless an instruction hid something; checkpoints still held stay as good as they were, and with nothing folded whatever could be gone back to can be still |
| Targets.Target.AllLogged | ghidraunicorn/target.py:553-561 | where nothing is folded away the log is the old one and the hits of the run |
| Targets.Target.Drive | ghidraunicorn/target.py:772-847 | the same for a target that has not terminated |
| Targets.Target.Verdict | ghidraunicorn/target.py:799-842 | what is reported is what ended the run: a stop for a breakpoint is the first event with nothing left to ignore, and without one there is no such stop; the counts and the log are those of the run |
| Targets.Target.Report | ghidraunicorn/target.py:799-847 | the same, with the temporary breakpoint that did it gone and every other one left |
| Targets.Target.Blame | ghidraunicorn/target.py:800-812 | taking the last counted instruction back is right if and only if the fault was not one of fetching; where it is wrong the books are kept one short if and only if the last checkpoint is before where the run ends |
| Targets.FetchFaultMiscounts | ghidraunicorn/target.py:800-812 | a program that has run one instruction when it faults, and of which none is counted |
| Targets.Target.DropTemporary | ghidraunicorn/target.py:843-847 | a temporary breakpoint that stopped the run is gone, and nothing else |
| Targets.Target.Observe | ghidraunicorn/target.py:637-660 | in a replay, exactly the watched accesses are noted and nothing is counted or stopped |
| Targets.Target.ReplayTurn | ghidraunicorn/target.py:479-495 | instruction j replayed from state j gives state j+1, with a call taken from the log |
| Targets.Target.ReplayForward | ghidraunicorn/target.py:926-940 | n replayed instructions reach state c+n, trace their program counters and mark the pages instructions wrote; no hit, stop or output |
| Targets.Target.ReplayAgain | ghidraunicorn/stubs.py:277-284 | the stub hook that runs where a replay stops redoes the last call, which changes nothing |
| Targets.Target.RestoreState | ghidraunicorn/target.py:942-948 | the machine is in the state of the run at the checkpoint, at most an interval back, when that checkpoint is exact and a restore reproduces it |
| Targets.Target.ToldReaches | ghidraunicorn/target.py:942-948 | in a sound history with a covered base every instruction can be gone back to |
| Targets.Target.TrueServes | ghidraunicorn/target.py:942-948 | in any history, every instruction served by a true checkpoint that is complete, or over which nothing was folded, can be gone back to |
| Targets.Target.StillReaches | ghidraunicorn/target.py:942-948 | what could be gone back to before can be still when the checkpoints are retained and nothing was folded away |
| Targets.Target.ReplayTo | ghidraunicorn/target.py:977-997 | the machine is in state k, with the recorder cut back to match |
| Targets.Target.Go | ghidraunicorn/target.py:977-997 | for every k in the history and only those, with the one checkpoint it uses exact, and also when a fault of fetching has left the count one short: registers, memory, regions and layer state are those of the run at k, and exactly the hits after k are off the log and off the counts; everything up to k can be gone back to as before; at most one interval is replayed; the history is sound again if and only if the replay missed nothing, and what it can have missed is bounded |
| Targets.Target.RunThenBack | tests/test_timetravel.py:179-216 | a run and then back to any instruction of it: log and counts are those the run had there, and back where it set out they are as they were, apart from a temporary breakpoint that stopped it |
| Targets.Target.Revert | ghidraunicorn/target.py:977-997 | the restore, the replay and the rewinding of recorder, log, layer and hits together |
| Targets.Target.DropAfter | ghidraunicorn/target.py:977-997 | with the machine and the recorder at k, what comes after k goes from run, layer, log and hits |
| Targets.Target.RewindLayers | ghidraunicorn/target.py:977-997 | layer, log and hits are those of instruction k |
| Targets.Target.WindowStart | ghidraunicorn/target.py:1080-1083 | a window starts at a checkpoint and holds no edit after its start |
| Targets.Target.HistoryPcs | ghidraunicorn/target.py:999-1006 | the program counters of the run over the window |
| Targets.Target.PrevOver | ghidraunicorn/target.py:1065-1093 | the latest instruction before now at most as deep in calls by absolute depth, or the start, for any placement of checkpoints; only those back to where it lands have to be good |
| Targets.Target.Live | ghidraunicorn/target.py:1103-1122 | which enabled breakpoint stands for each address, and whether anything is watched |
| Targets.Target.ScanBack | ghidraunicorn/target.py:1144-1174 | exactly the traced breakpoint addresses and watched accesses of the window, oldest first |
| Targets.Target.FirstThatHolds | ghidraunicorn/target.py:1176-1191 | the newest candidate before now whose condition holds in the state arrived at |
| Targets.Target.SearchBack | ghidraunicorn/target.py:1123-1142 | the windowed search finds what a search of the whole history would |
| Targets.Target.ResumeBack | ghidraunicorn/target.py:1095-1142 | lands on the latest place strictly before now, and in reach, that an enabled breakpoint marks and where its condition holds; otherwise at the start of the history; exactly the hits after the landing are off the log and off the counts, whatever was visited on the way, and then the hit there is counted unless it is in the log |
| Landings.LandsIsDueIff | ghidraunicorn/target.py:1098-1108 | where it may land, a run forwards stops for that breakpoint if and only if it has nothing left to ignore and is the one armed at its address, or, for a watchpoint, has its condition met before the access too |
| Landings.DueIsLandedIff | ghidraunicorn/target.py:1098-1108 | where a run forwards stops, it may land if and only if, for a watchpoint, the condition is met after the access too |
| Landings.PassesThenLands | ghidraunicorn/target.py:1098-1108 | a program whose run goes past the second instruction and which going back then lands on, for all breakpoints that let it by and mark that place |
| Landings.IgnoredIsLandedOn | ghidraunicorn/target.py:1098-1108 | such a breakpoint: one with a hit left to ignore |
| Landings.UnarmedIsLandedOn | ghidraunicorn/target.py:1098-1108 | another: one that a temporary breakpoint has disarmed |
| Landings.MetAfterwardsIsLandedOn | ghidraunicorn/target.py:1098-1108 | and a watchpoint whose condition is met only once the access has been made |
| Targets.Target.Arrive | ghidraunicorn/target.py:1193-1205 | the hit at the place arrived at is in the log once and counted |
| Targets.Target.WriteMemory | ghidraunicorn/target.py:302-316 | a debugger write becomes part of the run and is kept by the history; refused writes change nothing; no hit goes but those before a history that starts later now |
| Targets.Target.WriteRegister | ghidraunicorn/target.py:231-264 | the same for registers |
| Heaps.TiledMeans | ghidraunicorn/stubs.py:141-184 | live and freed blocks, each once, make up exactly the arena from base to top: no gap, capacities add up, aligned for an aligned base, size at most capacity |
| Heaps.TiledApart | ghidraunicorn/stubs.py:141-184 | no two blocks, live or freed, share a byte |
| Heaps.BackSplit | ghidraunicorn/stubs.py:124-128 | undoing in two goes is undoing in one |
| Heaps.BackSuffix | ghidraunicorn/stubs.py:158-184 | one more journal entry leaves what all older marks mean as it was |
| Heaps.SaneBack | ghidraunicorn/stubs.py:141-149 | undo keeps the tiling at every point the journal reaches |
| Heaps.BackResized | ghidraunicorn/stubs.py:423-426 | a size changed in place changes the past back to where the block was last handed out or freed, and no further |
| Heaps.RepickIff | ghidraunicorn/stubs.py:151-156 | after a reuse is undone, the same request picks the same block if and only if no other freed block has its capacity |
| Heaps.TieGivesTheOther | ghidraunicorn/stubs.py:151-156 | two freed blocks of one capacity, of which the request then picks the other |
| Heaps.HandedOnce | ghidraunicorn/stubs.py:158-176 | with no two freed blocks of one capacity, what is handed out depends on the tables alone |
| Heaps.FitsByAddress | ghidraunicorn/stubs.py:151-156 | the block found by going through the list is one of the smallest of the table that are large enough |
| Heaps.Heap.constructor | ghidraunicorn/stubs.py:98-111 | an empty arena |
| Heaps.Heap.Snapshot | ghidraunicorn/stubs.py:120-122 | the counters and the position in the journal |
| Heaps.Heap.Undo | ghidraunicorn/stubs.py:141-149 | takes back the last thing done, both tables |
| Heaps.Heap.Restore | ghidraunicorn/stubs.py:124-128 | live blocks, freed blocks, top and mapped are those of the snapshot; older snapshots stay good |
| Heaps.Heap.Forget | ghidraunicorn/stubs.py:130-139 | no snapshot at or after the oldest one held changes its meaning, nor does the present |
| Heaps.Heap.Fit | ghidraunicorn/stubs.py:151-156 | the first of the smallest freed blocks that are large enough, or none when there is none |
| Heaps.Heap.Allocate | ghidraunicorn/stubs.py:158-176 | a block not live before, large enough: the first of the smallest freed ones that do, or at the top; refused exactly when none does and the arena is full; every older mark keeps its meaning |
| Heaps.Heap.Release | ghidraunicorn/stubs.py:178-184 | the block goes last on the free list; refused exactly for an address not live |
| Heaps.Heap.Resize | ghidraunicorn/stubs.py:423-426 | for every mark: going back to it is still exact if and only if the size is the same as then or the block changed hands since |
| Heaps.ResizeShowsThrough | ghidraunicorn/stubs.py:423-426 | a block of ten bytes cut to five in place, which has five after going back to when it had ten |
| Stubs.Layer.constructor | ghidraunicorn/stubs.py:204-225 | an empty heap and log; no block reaches beyond the mapped arena |
| Stubs.Layer.Malloc | ghidraunicorn/stubs.py:370-377 | fails exactly when the arena is full or the engine refuses to map more of it; a block handed out is new, of the size asked for (one byte for none) and as the allocator picks it; all blocks lie inside the mapped arena afterwards if and only if the map it needs is granted, or it needs none and they did before; exactly the pages the mapped end moves over are mapped |
| Stubs.Layer.LiveIsMapped | ghidraunicorn/stubs.py:370-377 | with all blocks inside the arena and the arena mapped, every byte of every live block is mapped |
| Stubs.HandedOutUnmapped | ghidraunicorn/stubs.py:370-377 | a machine on which a refused map leaves a block behind that a later call hands out with nothing mapped there |
| Stubs.Layer.Calloc | ghidraunicorn/stubs.py:409-413 | a new block whose bytes are mapped and zero; a call that fails may leave a block behind |
| Stubs.Layer.Move | ghidraunicorn/stubs.py:427-431 | the bytes of the old block are in the new one, the old one is freed, and no other block changes |
| Stubs.Layer.Realloc | ghidraunicorn/stubs.py:416-431 | in place when there is room, which breaks exactly the marks Resize says; moved otherwise |
| Stubs.Layer.Serve | ghidraunicorn/stubs.py:285-306 | what each call answers, failures answering zero, and the tables after it, failures included: no block changes but the ones named; malloc fails exactly when it has to |
| Stubs.Layer.Return | ghidraunicorn/stubs.py:332-345 | the call returns to its caller |
| Stubs.Layer.Call | ghidraunicorn/stubs.py:277-318 | everything the call did is in one entry, redoing which gives the machine it left; all blocks lie inside the mapped arena afterwards if and only if they did and no map of the arena was refused, or one was granted that makes up for it; the mapped arena stays mapped; going back to any earlier entry is as good as before, in-place resizing aside |
| Stubs.Layer.Rewind | ghidraunicorn/effects.py:180-194 | the heap is what it was just before the oldest call dropped, or unchanged when none is; the top and the mapped end are so in any case, so blocks inside the arena then are inside it now |
| Stubs.Layer.Prune | ghidraunicorn/stubs.py:130-139 | pruning log and journal together changes neither the heap, nor where blocks lie, nor what any remaining entry goes back to |
| Stubs.CopiedBy | ghidraunicorn/stubs.py:427-431 | bytes read from one block and written to another are the same bytes |
| Syscalls.TurnKeepsBounds | ghidraunicorn/syscalls.py:366-381 | every call keeps the break and the mapping arena within bounds, page aligned, descriptors below the next one and the standard streams open |
| Syscalls.ReadTwice | ghidraunicorn/syscalls.py:409-417 | reading in two goes leaves the file and gives the bytes reading in one would |
| Syscalls.MmapGives | ghidraunicorn/syscalls.py:492-513 | a mapping that succeeds has all its pages, changes no page mapped before, and takes arena pages never taken since |
| Syscalls.BrkKeepsMapped | ghidraunicorn/syscalls.py:545-560 | the break never unmaps: everything below its mapped end stays mapped, and the answer is the break |
| Syscalls.SliceTwice | ghidraunicorn/syscalls.py:409-417 | consecutive slices of a file are one slice |
| Syscalls.Layer.constructor | ghidraunicorn/syscalls.py:126-160 | standard streams open, nothing mapped |
| Syscalls.Layer.Snapshot | ghidraunicorn/syscalls.py:285-287 | what the snapshot means is what the layer holds |
| Syscalls.Layer.Restore | ghidraunicorn/syscalls.py:289-295 | all files with their offsets, though the objects are shared and have moved since, and all counters |
| Syscalls.Layer.Read | ghidraunicorn/syscalls.py:409-417 | the bytes at the offset arrive in the buffer; the offset moves on even when the buffer is bad |
| Syscalls.Layer.Write | ghidraunicorn/syscalls.py:420-427 | bytes put out are written down; bad descriptors and buffers are refused |
| Syscalls.Layer.Lseek | ghidraunicorn/syscalls.py:473-489 | the offset asked for, or one of three errors and nothing changed |
| Syscalls.Layer.Open | ghidraunicorn/syscalls.py:366-372 | a new descriptor at offset zero, or not found |
| Syscalls.Layer.Close | ghidraunicorn/syscalls.py:464-470 | the descriptor is gone; a standard stream stays |
| Syscalls.Layer.FreeSpan | ghidraunicorn/syscalls.py:374-381 | the next stretch of the arena, or none left |
| Syscalls.Layer.Mmap | ghidraunicorn/syscalls.py:492-513 | agrees with the functional layer in state, answer and machine, errors part-way included |
| Syscalls.Layer.Munmap | ghidraunicorn/syscalls.py:532-542 | the pages are unmapped, or it is refused and nothing changes |
| Syscalls.MunmapOfNothing | ghidraunicorn/syscalls.py:532-542 | asked to unmap no bytes it leaves the machine alone if and only if the address starts a page or its page is not mapped |
| Syscalls.Layer.Brk | ghidraunicorn/syscalls.py:545-560 | agrees with the functional layer |
| Syscalls.Layer.Serve | ghidraunicorn/syscalls.py:217-241 | objects, fields and log together do what the functional layer does, for every call |
| Syscalls.Layer.Record | ghidraunicorn/syscalls.py:197-244 | one entry holds what the call did, its output, and a snapshot that means the state before |
| Syscalls.Layer.Call | ghidraunicorn/syscalls.py:197-244 | a call refines the functional layer; its entry replays to the machine it left; every entry goes back to what was held before it |
| Syscalls.Layer.Rewind | ghidraunicorn/syscalls.py:289-295 | the layer holds exactly what it held just before the oldest call dropped |
| Syscalls.Layer.Prune | ghidraunicorn/effects.py:196-209 | forgetting old entries changes nothing that is held or remembered |
| Services.StepsGive | ghidraunicorn/syscalls.py:409-560 | the acts of a call do to the machine what the functional layer says |
| Services.ServeIsTurn | ghidraunicorn/syscalls.py:197-244 | answering a call as a reply to the target is the functional layer and then the result register |
| Services.ServedPastTrap | ghidraunicorn/syscalls.py:197-244 | after the call the program runs on where the trap left the program counter, with the result in its register |
| Services.ServedOrderly | ghidraunicorn/syscalls.py:197-244 | with any processor this layer meets what the target asks of a layer, so going back is exact for it |
| Loaders.SortedRegions | ghidraunicorn/loaders.py:214-214 | the mapped regions, lowest first, none lost |
| Loaders.FillGaps | ghidraunicorn/loaders.py:208-225 | exactly the gaps are mapped, each as one zeroed region; no request is refused and no region there was is touched |
| Loaders.FillGap | ghidraunicorn/loaders.py:221-224 | mapping a gap can never be refused |
| Loaders.MapSegment | ghidraunicorn/loaders.py:208-235 | the page-rounded segment is covered and holds its contents; it never fails when it does not end before it starts |
| Loaders.MapSegments | ghidraunicorn/loaders.py:208-235 | any list of overlapping segments: all covered, old regions kept, every byte from the last segment covering it |
| Symbols.SortSorts | ghidraunicorn/symbols.py:62-73 | the symbols in order, none lost |
| Symbols.ShortEnough | ghidraunicorn/symbols.py:106-118 | with no symbol longer than 0x100001, looking back finds what a scan of all symbols does |
| Symbols.NotWhenLonger | ghidraunicorn/symbols.py:106-118 | for every longer symbol there is a table where it does not |
| Symbols.DescribeMeans | ghidraunicorn/symbols.py:120-144 | a description names a function around the address or a label within reach that is in no function; there is none if and only if no function is found around the address and every such label has a function between it and the address |
| Symbols.LookupsShift | ghidraunicorn/symbols.py:148-155 | all lookups commute with moving the image: same symbols, same offsets |
| Symbols.SymbolTable.constructor | ghidraunicorn/symbols.py:44-51 | indexes built, each name leading to its first symbol |
| Symbols.SymbolTable.Extend | ghidraunicorn/symbols.py:62-73 | sorted, nothing lost, old names keep their symbol, new names get their first |
| Symbols.SymbolTable.Nearest | ghidraunicorn/symbols.py:91-104 | the first symbol at the nearest address at or before, as a scan would find |
| Symbols.SymbolTable.Enclosing | ghidraunicorn/symbols.py:106-118 | the last symbol holding the address, exactly when looking back gets that far |
| Symbols.SymbolTable.Describe | ghidraunicorn/symbols.py:120-144 | what the scan describes |
| Symbols.SymbolTable.Rebase | ghidraunicorn/symbols.py:148-155 | every symbol moved; a name still leads to the same symbol if and only if that one comes first in order |
| Symbols.MovedNameChanges | ghidraunicorn/symbols.py:148-155 | two symbols of one name, which leads to the other one after moving the table |
| Symbols.Bisect | ghidraunicorn/symbols.py:91-97 | how many addresses are at or before |
| Consoles.SplitLine | ghidraunicorn/console.py:130-150 | the parts of a line, quotes and comments respected |
| Consoles.SplitCommands | ghidraunicorn/console.py:84-98 | the commands of a script |
| Consoles.SplitsToItself | ghidraunicorn/console.py:84-98 | a text splits to itself if and only if it is one stripped line without separator or comment outside quotes |
| Consoles.OutputsAreCommands | ghidraunicorn/console.py:84-98 | everything splitting gives is such a text |
| Consoles.SplitAgain | ghidraunicorn/console.py:84-98 | splitting the joined result of splitting gives it back |
| Consoles.CommandsConcat | ghidraunicorn/console.py:84-98 | scripts that end their lines can be split apart or together |
| Consoles.CommentHides | ghidraunicorn/console.py:143-144 | a comment hides itself up to its first line break and nothing behind it |
| Recordings.RunsAsTypedIff | ghidraunicorn/recording.py:73-92 | the file runs as exactly the commands typed, in order, if and only if each typed line splits to itself and nothing printed has a command behind a line break |
| Recordings.OnlyFeedsIsSafe | ghidraunicorn/recording.py:86-92 | printed text whose only line break is the line feed runs as nothing |
| Recordings.BreakLeaks | ghidraunicorn/recording.py:86-92 | any other line break in printed text lets what is behind it run |
| Recordings.CarriageReturnLeaks | ghidraunicorn/recording.py:86-92 | a progress line with a carriage return runs as a command |
| Recordings.SessionRecorder.constructor | ghidraunicorn/recording.py:41-71 | the header is all comment |
| Recordings.SessionRecorder.Note | ghidraunicorn/recording.py:73-76 | the file is the script of all that happened, the note included |
| Recordings.SessionRecorder.Command | ghidraunicorn/recording.py:78-84 | the same for a command, which is counted unless blank |
| Recordings.SessionRecorder.Output | ghidraunicorn/recording.py:86-92 | the same for printed text |
| Recordings.SessionRecorder.OnStop | ghidraunicorn/recording.py:94-98 | the same for a stop |
| Recordings.SessionRecorder.Close | ghidraunicorn/recording.py:102-114 | the end is noted once |
| Limits.SoundAfterReplayIff | ghidraunicorn/effects.py:166-168 | after a replay the next checkpoint is exact if and only if every page that calls alone changed on the way looks as it did at the checkpoint replayed from |
| Limits.ReplayedWriteIsMissed | ghidraunicorn/effects.py:166-168 | a program for which it is not: a byte a call wrote is lost |
| Limits.FoldedRestoresIff | ghidraunicorn/timeline.py:179-183 | once a checkpoint has become the base, restoring it gives its state from every machine if and only if every page of its regions has an image by then |
| Limits.LateRegionIsLost | ghidraunicorn/timeline.py:285-287 | a program that maps a page and then writes it: going back to before the write takes the byte away, and no longer does once the checkpoint there is folded |
| Limits.RemapExactIff | ghidraunicorn/timeline.py:244-248 | unmapping a region of the base and mapping it again goes unnoticed if and only if all of it was zero |
| Limits.RemappedPageIsMissed | ghidraunicorn/timeline.py:244-248 | a program that unmaps a page and maps it again: the checkpoint after it has the bytes from before |

## Left out

- Histories.ReplayMissesOnlyCalls: gives an upper bound of what is missed; `Limits.SoundAfterReplayIff` gives the exact condition.
- Targets.Target.Emulate: an interrupt is modelled as a bound on the turns of the engine (`patience`), so a run that never ends is not modelled.
- Targets.Target.constructor: takes one effect log; the source keeps a list of them (`target.py:192`), which rewinds and forgets one by one what it does here.
- Targets.Target.OnCode: the register-watch branch is left out (`target.py:582-621`).
- Targets.Target.Verdict: the `until` address and the slack on arriving at it are left out, and so is a stop another thread asks for.
- Targets.Target.ResumeBack: register watches are left out, as the code does not look for them backwards.
- Stubs.Layer.Return: returns through a link register only; conventions that pop a return address are left out.
- Stubs.Layer.Call: the layer is shown to rewind, but not wrapped as a function of its state the way `Services` wraps the system-call layer, because the order of its free list is not part of what a rewind gives back; without ties it does not matter (`Heaps.HandedOnce`).
- Syscalls.Layer.Serve: `writev`, `exit`, `getpid` and the old entry for `mmap` are left out.
- Syscalls.Layer.Record: puts the answer in one result register, negated for errors; the conventions with an error flag are left out.
- Symbols.SymbolTable.Describe: answers a name and an offset instead of the text made of them.
- Permissions of regions: `_sync_regions` does not restore them for a region it keeps, so regions are compared by extent.
- Real instruction sets: an instruction is an arbitrary function of the state to a next state with accesses, to a call, or to a fault. A faulting instruction changes nothing. What an address holds (call, return, neither) is fixed.
- Thumb, delay slots, the `until` address of the engine, and flag registers computed late.
- Breakpoint conditions: named, with an arbitrary truth value for a state and an access; they do not read hit counts.
- Callbacks (listeners, `on_output`): what they would be told is returned or kept in the entry.
- Threads, the run lock and restarting a terminated program.
- `step_back`, `step_back_over` for several steps, and `goto_icount`: bounds checks around `_go` and `_prev_over`.
- In the recorder, addresses are page numbers times the page size; a region is a range of whole pages, as the engine requires.
- In the layers, handlers other than those modelled (the memory and string functions): they add reads, writes and output of the same shapes.
- Looking a symbol up without regard to case, and reading and writing symbol files.
- The clock, the launch line and the file system behind a recording; its text is a string.
- Trace publishing, console commands, rendering, launchers and the Ghidra panel.
- Coverage, triage, provenance and comparison of runs: folds over what is modelled here.
