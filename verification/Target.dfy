/**
 The debugger's target: it runs the program forwards while recording, and goes back by restoring a
 checkpoint and replaying from it in silence.
 */
module Targets {
  import opened Options
  import opened Machine
  import opened Engine
  import opened Checkpoints
  import opened Timelines
  import opened Acts
  import opened EffectLogs
  import opened Runs
  import opened Histories
  import opened Breakpoints
  import opened Candidates
  import opened Guarding

  datatype StopEvent =
    | AtBreakpoint(num: nat)
    | AtWatchpoint(num: nat)
    | Exited
    | Stepped
    | Interrupted
    | Failed(fetch: bool)
    | LayerStop(reason: string, description: string)

  class Target<L(!new)> {
    const cpu: Cpu<L>
    const uc: Uc
    const timeline: Timeline
    const log: EffectLog<L>
    const bps: BreakpointTable
    const exits: set<int>
    /** What a breakpoint's condition evaluates to, given the state and the access that fired it. */
    const holds: (nat, State, Option<Access>) -> bool
    /** Which addresses hold calls and returns. */
    const flow: int -> Flow
    var layer: L
    var left: int
    var first: bool
    var pending: Option<nat>
    var stop: Option<StopEvent>
    var replayIcount: int
    var terminated: bool
    /** The run so far: world k is the one just before instruction k. */
    ghost var hist: seq<World<L>>
    /** The instructions that mapped a page over an image of it that was not zero, and did not write it. */
    ghost var blind: set<nat>

    constructor (cpu: Cpu<L>, uc: Uc, timeline: Timeline, log: EffectLog<L>, bps: BreakpointTable, exits: set<int>,
                 holds: (nat, State, Option<Access>) -> bool, flow: int -> Flow, layer: L)
      requires Orderly(cpu) && timeline.uc == uc && log.uc == uc && log.timeline == timeline
      requires timeline.Valid() && timeline.base == None && timeline.icount == 0
      requires log.Valid() && log.entries == [] && log.current == None
      requires bps.Valid() && bps.hits == [] && timeline.dropped == 0
      ensures Kept(0) && AtRest() && Sound(0) && Covered() && blind == {}
      ensures hist == [World(uc.st, layer, false)] && !terminated
      ensures this.cpu == cpu && this.uc == uc && this.timeline == timeline && this.log == log && this.bps == bps
      ensures this.exits == exits
      ensures this.holds == holds
    {
      this.cpu, this.uc, this.timeline, this.log, this.bps := cpu, uc, timeline, log, bps;
      this.exits, this.holds, this.flow, this.layer := exits, holds, flow, layer;
      left, first, pending, stop, replayIcount, terminated := 0, false, None, None, 0, false;
      hist, blind := [World(uc.st, layer, false)], {};
    }

    ghost predicate Wired()
    {
      && timeline.uc == uc
      && log.uc == uc
      && log.timeline == timeline
      && Orderly(cpu)
    }

    function Start(): nat
      reads timeline`base
    {
      if timeline.base.Some? then timeline.base.value.icount else 0
    }

    /** Where the log of hits begins, once the history has been cut at its start. */
    ghost function Forgotten(): nat
      reads timeline`base, timeline`dropped
    {
      if timeline.dropped > 0 then Start() else 0
    }

    /** The log says of every call in reach what it did. */
    ghost predicate Replays()
      reads `hist, uc, timeline`base, timeline`dropped, log, bps
    {
      && NoneBefore(bps.hits, Forgotten()) && (timeline.dropped > 0 ==> timeline.base.Some?)
      && Wired()
      && uc.Valid() && log.Valid() && log.current == None && bps.Valid()
      && hist != [] && IsRun(cpu, hist)
      && Start() < |hist|
      && Logged(cpu, hist, log.entries, Start())
    }

    /** The recorder, the log and the hits agree with the run; the count of instructions is ahead of it by so many. */
    ghost predicate Kept(ahead: int)
      reads `hist, `layer, `blind, uc, timeline, log, bps
    {
      && Replays()
      && timeline.Valid()
      && timeline.icount == |hist| - 1 + ahead
      && layer == hist[|hist| - 1].layer
      && NoneAfter(bps.hits, |hist| - 1)
      && Overlooked()
      && (timeline.base.Some? ==>
           && Placed(timeline.base.value, timeline.checkpoints, hist)
           && Anchored(timeline.base.value, timeline.checkpoints, hist)
           && Newest(timeline.base.value, timeline.checkpoints).icount < |hist|
           && hist[0].m.mem.Keys <= timeline.base.value.pages.Keys)
    }

    /** The blind instructions map pages that held something once, and do not write them. */
    ghost predicate Overlooked()
      reads `hist, `blind
    {
      forall j :: j in blind ==> Remaps(cpu, hist, j)
    }

    lemma KeptArmed()
      requires Kept(0)
      ensures Addressed(bps.byAddr, bps.table)
    {
    }

    /** The machine is where the run ends. */
    ghost predicate AtRest()
      reads `hist, uc
    {
      hist != [] && hist[|hist| - 1].m == uc.st
    }

    /** The checkpoints from instruction `since` on tell the run as it was. */
    ghost predicate Told(since: nat)
      reads `hist, timeline`base, timeline`checkpoints
    {
      timeline.base.Some? ==> Faithful(timeline.base.value, timeline.checkpoints, hist, since)
    }

    /** The recorder knows of every change since its last checkpoint. */
    ghost predicate Informed()
      reads uc, timeline`base, timeline`checkpoints, timeline`dirty
    {
      timeline.base.Some? ==> Stale(timeline.base.value, timeline.checkpoints, timeline.dirty, uc.st) == {}
    }

    /** The checkpoints from `since` on tell the run, and the next one will too. */
    ghost predicate Sound(since: nat)
      reads `hist, uc, timeline`base, timeline`checkpoints, timeline`dirty
    {
      Told(since) && Informed()
    }

    /** What keeps a history sound from instruction `from` on: the recorder is on, and it is shown everything. */
    ghost predicate Untroubled(from: int)
      reads `blind
    {
      timeline.enabled && forall j :: j in blind ==> j < from
    }

    /** It is shown everything as long as no page that held something is mapped again and left unwritten. */
    lemma NothingHidden(ahead: int, from: nat)
      requires Kept(ahead) && forall j: nat :: j >= from ==> !Remaps(cpu, hist, j)
      ensures forall j :: j in blind ==> j < from
    {
      hide Replays, Placed, Anchored, Ordered, NBytes, Over, Remaps;
      assert forall j :: j in blind ==> Remaps(cpu, hist, j);
    }

    ghost function Books(): Book<L>
      reads `hist, timeline`base, timeline`checkpoints, timeline`dropped
    {
      Book(timeline.base, timeline.checkpoints, timeline.dropped, hist)
    }

    /** The base has an image of every page of its own regions, so that a restore leaves none as it finds it. */
    ghost predicate Covered()
      reads timeline`base
    {
      timeline.base.Some? ==> Uncovered(timeline.base.value) == {}
    }

    /** Nothing mapped since the run began is one way for the base to cover its regions; nothing folded is another. */
    lemma NothingNew()
      requires Kept(0) && NoGrowth(hist, 0)
      ensures Covered()
    {
      hide Logged, Anchored, Ordered, NBytes, Over, Tallied, Named, Addressed, InOrder, NoGrowth, Placed;
      RunWellFormed(cpu, hist);
      if timeline.base.Some? {
        NothingNewCovers(timeline.base.value, timeline.checkpoints, hist, 0);
      }
    }

    /**
     Sound and covered as far as they have to be, given how they were when the run set out from `from`; a
     run that ends before the next delta is due has nothing folded away.
     */
    ghost predicate Tracks(sound: bool, covered: bool, dropped: nat, due: nat, from: int, since: nat)
      reads `hist, `blind, uc, timeline`base, timeline`checkpoints, timeline`dirty, timeline`dropped
    {
      && timeline.dropped >= dropped && (|hist| <= due ==> timeline.dropped == dropped)
      && (sound && Untroubled(from) ==> Sound(since))
      && (covered && timeline.dropped == dropped ==> Covered())
    }

    ghost function Standing(): Ledger<L>
      reads `hist, timeline
    {
      Ledger(Books(), timeline.Due(), timeline.icount, Covered())
    }

    // ---- running forwards ----

    /** Counts the instruction about to run, and lets the layers forget what the recorder forgot. */
    method CountInstruction(ghost since: nat)
      requires Kept(0) && AtRest()
      modifies timeline, log, bps
      ensures Kept(1) && bps.table == old(bps.table) && bps.byAddr == old(bps.byAddr) && bps.next == old(bps.next)
      ensures bps.hits == Since(old(bps.hits), Forgotten()) && Forgotten() >= old(Forgotten())
      ensures timeline.enabled ==> timeline.base.Some?
      ensures Upkept(old(Standing()), Standing())
      ensures old(Sound(since)) && uc.st.spans != {} && timeline.enabled ==> Sound(since)
    {
      hide Retains, IsRun, Logged, Placed, Anchored, Ordered, NBytes, Over, Stale, Faithful, Snapshot, AfterRecord,
        NoneAfter, Remaps, Uncovered, Orderly, Tallied, Named, Addressed, InOrder, Sorted, Indexes, Since, NoneBefore;
      NoneAfterThat(bps.hits, |hist| - 1, |hist|);
      RunWellFormed(cpu, hist);
      ghost var base0, cs0, noted0, start0 := timeline.base, timeline.checkpoints, timeline.dirty, Start();
      ghost var due := timeline.enabled && timeline.icount >= timeline.next;
      ghost var books := Books();
      var folded := timeline.NoteInstruction();
      RetainsSelf(books, |hist|);
      if due {
        UneditedSelf(hist, noted0);
        ghost var d := timeline.dropped - old(timeline.dropped);
        RecordKeeps(base0, cs0, noted0, timeline.interval, hist, hist, timeline.base.value, timeline.checkpoints, d);
        RecordRetains(books, Books(), noted0, timeline.interval, d);
        RetainsOneMore(books, Books(), timeline.interval, |hist| - 1);
        if old(Sound(since)) && uc.st.spans != {} {
          RecordKeepsFaith(base0, cs0, noted0, timeline.interval, hist, hist, timeline.base.value, timeline.checkpoints,
            d, since);
        }
      }
      Forget(folded, start0);
    }

    /** The history now starts at `earliest`: calls and hits before that are forgotten. */
    method OnHistoryForgotten(earliest: nat, ghost start: nat)
      requires log.Valid() && bps.Valid() && Logged(cpu, hist, log.entries, start) && start <= earliest
      modifies log`entries, log`byIcount, bps`hits, bps`settled, bps`allowance
      ensures log.Valid() && bps.Valid() && Logged(cpu, hist, log.entries, earliest)
      ensures forall k: nat :: NoneAfter(old(bps.hits), k) ==> NoneAfter(bps.hits, k)
      ensures bps.hits == Since(old(bps.hits), earliest) && NoneBefore(bps.hits, earliest)
    {
      hide Logged, Tallied, Named, Addressed, Indexes, Since;
      assert Sorted(log.entries);
      ghost var n := SplitOf(log.entries, earliest);
      LogForget(cpu, hist, log.entries, start, earliest, n);
      var cut, oldest := log.ForgetBefore(earliest, n);
      ghost var dropped := bps.ForgetHits(earliest);
    }

    /** The recorder says whether its history starts later now; layers and hits are told if so. */
    method Forget(folded: bool, ghost start: nat)
      requires log.Valid() && bps.Valid() && Logged(cpu, hist, log.entries, start) && start <= Start()
      requires if folded then timeline.base.Some? && timeline.dropped > 0
               else start == Start() && NoneBefore(bps.hits, Forgotten())
      modifies log`entries, log`byIcount, bps`hits, bps`settled, bps`allowance
      ensures log.Valid() && bps.Valid() && Logged(cpu, hist, log.entries, Start())
      ensures forall k: nat :: NoneAfter(old(bps.hits), k) ==> NoneAfter(bps.hits, k)
      ensures bps.hits == Since(old(bps.hits), Forgotten()) && NoneBefore(bps.hits, Forgotten())
    {
      hide Logged, Tallied, Named, Addressed, Indexes, Since, NoneBefore, NoneAfter;
      SinceAll(bps.hits, Forgotten());
      if folded {
        OnHistoryForgotten(timeline.Earliest(), start);
      }
    }

    // ---- counting hits ----

    /** The breakpoints as they are, for a run to set out with. */
    ghost function Posted(): Guards<L>
      reads bps`table, bps`byAddr, bps`next
    {
      Guards(cpu, holds, bps.table, bps.byAddr, bps.next)
    }

    /**
     A run set out with these breakpoints and this log, and these events since then are counted and
     logged, up to the one the run stops for.
     */
    ghost predicate Tally(g: Guards<L>, hits0: seq<Hit>, events: seq<Event>)
      reads bps`table, bps`byAddr, bps`next, bps`hits, timeline`base, timeline`dropped
    {
      && g.cpu == cpu && g.holds == holds && bps.byAddr == g.byAddr && bps.next == g.next
      && Counts(g.table, bps.table, g.Hits(events))
      && bps.hits == Since(hits0 + g.Hits(events), Forgotten())
    }

    /** A watchpoint that has stopped the run is kept in mind until the instruction is over. */
    ghost predicate Pends(hits: seq<Hit>)
      reads `pending
    {
      pending == if Stopped(hits) then Some(hits[|hits| - 1].num) else None
    }

    /** One more event, as Triggers counts and logs it. */
    lemma TallyEvent(g: Guards<L>, hits0: seq<Hit>, events: seq<Event>, e: Event, table: Table, hits: seq<Hit>)
      requires Counts(g.table, table, g.Hits(events)) && hits == Since(hits0 + g.Hits(events), Forgotten())
      requires !Stopped(g.Hits(events)) && e.num in g.table && e.num in table && e.at >= Forgotten()
      ensures var h := Hit(e.at, e.num, table[e.num].ignoreCount > 0);
        && g.Hits(events + [e]) == g.Hits(events) + [h]
        && Counts(g.table, table[e.num := Struck(table[e.num])], g.Hits(events + [e]))
        && hits + [h] == Since(hits0 + g.Hits(events + [e]), Forgotten())
    {
      hide Counts, Since, HitsOf;
      var h := Hit(e.at, e.num, table[e.num].ignoreCount > 0);
      EventCounts(g.table, table, events, e);
      SincePlus(hits0 + g.Hits(events), [h], Forgotten());
      assert hits0 + g.Hits(events) + [h] == hits0 + (g.Hits(events) + [h]);
    }

    lemma TallyMeans(g: Guards<L>, hits0: seq<Hit>, events: seq<Event>)
      requires Tally(g, hits0, events)
      ensures g.cpu == cpu && g.holds == holds && bps.byAddr == g.byAddr && bps.next == g.next
      ensures Counts(g.table, bps.table, g.Hits(events)) && bps.hits == Since(hits0 + g.Hits(events), Forgotten())
    {
    }

    lemma TallySays(g: Guards<L>, hits0: seq<Hit>, events: seq<Event>)
      requires Tally(g, hits0, events)
      ensures SameButCounts(g.table, bps.table) && bps.next == g.next && bps.byAddr == g.byAddr && g.cpu == cpu
      ensures g.holds == holds
    {
    }

    /** A watchpoint's hook: a stop that is due is left pending until the next instruction. */
    method OnMem(num: nat, access: Access, m: State, ghost g: Guards<L>, ghost hits0: seq<Hit>,
                 ghost events: seq<Event>)
      requires bps.Valid() && num in bps.table && Sees(bps.table[num], access) && stop.None?
      requires NoneAfter(bps.hits, timeline.icount) && Forgotten() <= timeline.icount
      requires Tally(g, hits0, events) && Pends(g.Hits(events))
      requires NoneBefore(bps.hits, Forgotten())
      modifies this`pending, bps`table, bps`hits
      ensures bps.Valid() && NoneAfter(bps.hits, timeline.icount) && NoneBefore(bps.hits, Forgotten())
      ensures var seen := events + (if g.Fires(num, access, m) then [Event(timeline.icount, num)] else []);
        Tally(g, hits0, seen) && Pends(g.Hits(seen))
    {
      hide Tallied, Named, Addressed, InOrder, Since, HitsOf;
      ghost var at := timeline.icount;
      assert events + [] == events;
      var bp := bps.table[num];
      if !bp.enabled || stop.Some? || pending.Some? {
        if bp.enabled {
          HitsOnceStopped(g.table, events, [Event(at, num)]);
        }
        return;
      }
      if Passes(holds, bp, m, Some(access)) {
        TallyEvent(g, hits0, events, Event(at, num), bps.table, bps.hits);
        LoggedNow(Event(at, num), bps.table, bps.hits);
      }
      var stops := bps.Triggers(num, Passes(holds, bp, m, Some(access)), timeline.icount);
      if stops {
        pending := Some(num);
      }
    }

    /** The hooks of all watchpoints that see the access, oldest watchpoint first. */
    method MemHooks(access: Access, m: State, ghost g: Guards<L>, ghost hits0: seq<Hit>, ghost events: seq<Event>)
      requires bps.Valid() && stop.None? && NoneAfter(bps.hits, timeline.icount) && Forgotten() <= timeline.icount
      requires Tally(g, hits0, events) && Pends(g.Hits(events))
      requires NoneBefore(bps.hits, Forgotten())
      modifies this`pending, bps`table, bps`hits
      ensures bps.Valid() && NoneAfter(bps.hits, timeline.icount) && NoneBefore(bps.hits, Forgotten())
      ensures var seen := events + g.OfAccess(g.next, access, m, timeline.icount);
        Tally(g, hits0, seen) && Pends(g.Hits(seen))
    {
      hide Tallied, Named, Addressed, InOrder, Since, HitsOf, NoneAfter, NoneBefore, Stopped, Tally;
      ghost var at := timeline.icount;
      ghost var seen := events;
      assert events + [] == events;
      TallySays(g, hits0, seen);
      for num := 0 to bps.next
        invariant bps.Valid() && NoneAfter(bps.hits, timeline.icount) && NoneBefore(bps.hits, Forgotten())
        invariant seen == events + g.OfAccess(num, access, m, at)
        invariant Tally(g, hits0, seen) && Pends(g.Hits(seen))
      {
        ghost var before := seen;
        seen := before + (if g.Fires(num, access, m) then [Event(at, num)] else []);
        assert seen == events + g.OfAccess(num + 1, access, m, at);
        assert before + [] == before;
        TallySays(g, hits0, before);
        if num in bps.table && Sees(bps.table[num], access) {
          OnMem(num, access, m, g, hits0, before);
        }
      }
    }

    /** The breakpoint at pc, if there is one, counts its hit; the answer is the one that stops here. */
    method Check(pc: int, m: State, ghost g: Guards<L>, ghost hits0: seq<Hit>, ghost events: seq<Event>)
      returns (num: Option<nat>)
      requires bps.Valid() && NoneAfter(bps.hits, timeline.icount) && NoneBefore(bps.hits, Forgotten())
      requires Forgotten() <= timeline.icount
      requires pc == m.ctx.Pc() && Tally(g, hits0, events) && !Stopped(g.Hits(events))
      modifies bps`table, bps`hits
      ensures bps.Valid() && NoneAfter(bps.hits, timeline.icount) && NoneBefore(bps.hits, Forgotten())
      ensures var seen := events + g.Here(m, timeline.icount);
        Tally(g, hits0, seen) && num == if Stopped(g.Hits(seen)) then Some(LastNum(g.Hits(seen))) else None
    {
      hide Tallied, Named, Addressed, InOrder, Since, HitsOf, NoneAfter, NoneBefore;
      ghost var at := timeline.icount;
      num := None;
      assert events + [] == events;
      ArmedThere(pc);
      if pc in bps.byAddr {
        var n := bps.byAddr[pc];
        var bp := bps.table[n];
        if bp.enabled {
          if Passes(holds, bp, m, None) {
            TallyEvent(g, hits0, events, Event(at, n), bps.table, bps.hits);
            LoggedNow(Event(at, n), bps.table, bps.hits);
          }
          var stops := bps.Triggers(n, Passes(holds, bp, m, None), timeline.icount);
          if stops {
            num := Some(n);
          }
        }
      }
    }

    /** Whether the breakpoint at pc, if there is one, stops here. */
    method BreakHere(pc: int, ghost g: Guards<L>, ghost hits0: seq<Hit>, ghost events: seq<Event>) returns (stops: bool)
      requires Kept(0) && pc == uc.st.ctx.Pc() && Tally(g, hits0, events) && !Stopped(g.Hits(events))
      modifies `stop, bps`table, bps`hits
      ensures Kept(0)
      ensures var seen := events + g.Here(uc.st, |hist| - 1);
        && Tally(g, hits0, seen) && (stops <==> Stopped(g.Hits(seen)))
        && stop == if stops then Some(AtBreakpoint(LastNum(g.Hits(seen)))) else old(stop)
    {
      hide Logged, Placed, Anchored, Ordered, NBytes, Over, Tallied, Named, InOrder, IsRun, Sorted, Indexes, WellFormed,
        Orderly, Remaps, HitsOf, Addressed, Tally, Stopped, NoneAfter, NoneBefore, Guards.Here;
      var num := Check(pc, uc.st, g, hits0, events);
      stops := num.Some?;
      if stops {
        stop := Some(AtBreakpoint(num.value));
      }
    }

    lemma ArmedThere(pc: int)
      requires bps.Valid()
      ensures pc in bps.byAddr ==> bps.byAddr[pc] in bps.table
    {
    }

    lemma LoggedNow(e: Event, table: Table, hits: seq<Hit>)
      requires NoneBefore(hits, Forgotten()) && e.at >= Forgotten()
      ensures forall ignored :: NoneBefore(hits + [Hit(e.at, e.num, ignored)], Forgotten())
    {
    }

    /** The code hook: decides whether the instruction about to run does run, and counts it if so. */
    method OnCode(pc: int, ghost since: nat, ghost g: Guards<L>, ghost hits0: seq<Hit>, ghost events: seq<Event>)
      returns (halt: bool, ghost seen: seq<Event>)
      requires Kept(0) && AtRest() && stop.None? && pc == uc.st.ctx.Pc()
      requires Tally(g, hits0, events) && Pends(g.Hits(events))
      modifies this`stop, this`pending, this`first, this`left, timeline, log, bps
      ensures halt ==> Kept(0) && (old(Sound(since)) ==> Sound(since))
      ensures Upkept(old(Standing()), Standing()) && pending.None?
      ensures !halt ==> Kept(1) && stop.None? && !first && left == old(left) - 1
      ensures !halt && old(Sound(since)) && uc.st.spans != {} && timeline.enabled ==>
        Sound(since) && timeline.base.Some?
      ensures Tally(g, hits0, seen) && (!halt ==> !Stopped(g.Hits(seen)))
      ensures old(pending).Some? ==> halt && seen == events && stop == Some(AtWatchpoint(old(pending).value))
      ensures old(pending).None? ==>
        if old(first) then !halt && seen == events
        else if pc in exits then halt && seen == events && stop == Some(Exited)
        else if old(left) == 0 then halt && seen == events && stop.None?
        else
          && seen == events + g.Here(uc.st, |hist| - 1) && (halt <==> Stopped(g.Hits(seen)))
          && (halt ==> stop == Some(AtBreakpoint(LastNum(g.Hits(seen)))))
    {
      hide Kept, Sound, Upkept, Tally, HitsOf, Counts, Since, Stopped, Guards.Here, Guards.Hits, LastNum, Covered;
      UpkeptSelf(Standing());
      seen := events;
      if pending.Some? {
        stop, pending := Some(AtWatchpoint(pending.value)), None;
        return true, seen;
      }
      if first {
        first := false;
      } else {
        if pc in exits {
          stop := Some(Exited);
          return true, seen;
        }
        if left == 0 {
          return true, seen;
        }
        seen := events + g.Here(uc.st, |hist| - 1);
        halt := BreakHere(pc, g, hits0, events);
        if halt {
          return;
        }
      }
      ghost var hits, since0 := bps.hits, Forgotten();
      TallyMeans(g, hits0, seen);
      CountInstruction(since);
      StillTallied(g, hits0, seen, hits, since0);
      left := left - 1;
      halt := false;
    }

    lemma StillTallied(g: Guards<L>, hits0: seq<Hit>, events: seq<Event>, hits: seq<Hit>, since0: nat)
      requires g.cpu == cpu && g.holds == holds && bps.byAddr == g.byAddr && bps.next == g.next
      requires Counts(g.table, bps.table, g.Hits(events))
      requires hits == Since(hits0 + g.Hits(events), since0) && since0 <= Forgotten()
      requires bps.hits == Since(hits, Forgotten())
      ensures Tally(g, hits0, events)
    {
      var all := hits0 + g.Hits(events);
      SinceTwice(all, [], since0, Forgotten());
      assert hits + [] == hits && all + [] == all;
    }

    /** A plain instruction runs, with the hooks that listen to its accesses. */
    method RunPlain(next: Context, accesses: seq<Access>, ghost since: nat, ghost g: Guards<L>, ghost hits0: seq<Hit>,
                    ghost events: seq<Event>)
      requires Kept(1) && AtRest() && cpu.exec(uc.st) == Done(next, accesses) && stop.None? && pending.None?
      requires Tally(g, hits0, events) && !Stopped(g.Hits(events))
      modifies this`hist, this`pending, uc, timeline`dirty, bps`table, bps`hits
      ensures Kept(0) && AtRest() && hist == old(hist) + [Next(cpu, old(hist)[|old(hist)| - 1])]
      ensures timeline.base.Some? && old(Sound(since)) ==> Sound(since)
      ensures var seen := events + g.After(old(hist)[|old(hist)| - 1], |old(hist)|);
        Tally(g, hits0, seen) && Pends(g.Hits(seen))
    {
      hide IsRun, Logged, Placed, Anchored, Ordered, NBytes, Over, Stale, Faithful, WellFormed, Tallied, Named, InOrder,
        Addressed, Orderly, Sorted, Indexes, Follows, Blind, Remaps, Next, Since, HitsOf, Tally, NoneBefore, NoneAfter;
      ghost var h, w := hist, hist[|hist| - 1];
      DoneNext(cpu, w, next, accesses);
      TallyOf(g, hits0, events);
      NoneAfterThat(bps.hits, |hist| - 1, |hist|);
      AccessHooks(accesses, uc.st, g, hits0, events);
      uc.st := Executed(uc.st, next, accesses);
      hist := hist + [Next(cpu, w)];
      RunGrows(cpu, h);
      LogStep(cpu, h, Next(cpu, w), log.entries, Start());
      BlindStay(h, Next(cpu, w));
      if timeline.base.Some? {
        OneMore(cpu, timeline.base.value, timeline.checkpoints, timeline.interval, h, Next(cpu, w));
        if old(Sound(since)) {
          PlainMapsNothing(cpu, timeline.base.value, timeline.checkpoints, old(timeline.dirty), w, Next(cpu, w));
          StepKeepsSound(h, old(timeline.dirty), since);
        }
      }
    }

    /** A call is answered once, and everything the answer did is written down. */
    method Answer(asked: Context)
      requires Kept(1) && AtRest() && cpu.exec(uc.st).Service? && cpu.exec(uc.st).asked == asked
      modifies this`layer, this`stop, uc, timeline`dirty, log
      ensures uc.Valid() && log.Valid() && log.current == None
      ensures World(uc.st, layer, false) == Next(cpu, hist[|hist| - 1])
      ensures Logged(cpu, hist + [Next(cpu, hist[|hist| - 1])], log.entries, Start())
      ensures timeline.enabled ==> timeline.dirty == Noticed(cpu, old(timeline.dirty), hist[|hist| - 1])
      ensures stop == (var r := cpu.serve(old(uc.st).(ctx := asked), old(layer)).stop;
        if r.Some? then Some(LayerStop(r.value.0, r.value.1)) else old(stop))
    {
      hide IsRun, Logged, Placed, Anchored, Ordered, NBytes, Over, Stale, Faithful, WellFormed, Tallied, Named, InOrder,
        Addressed, Sorted, Indexes, WrittenPages, Successes, Orderly, Follows, Next, DoAll, Remaps, Noticed;
      ghost var h, w := hist, hist[|hist| - 1];
      ServedNext(cpu, w, timeline.dirty);
      uc.ContextRestore(asked);
      var reply := cpu.serve(uc.st, layer);
      ghost var es := log.entries;
      LogEndsBefore(cpu, h, es, Start());
      PerformAll(timeline.icount - 1, reply.acts);
      ghost var entry := log.current.value;
      log.End();
      layer := reply.layer;
      if reply.stop.Some? {
        stop := Some(LayerStop(reply.stop.value.0, reply.stop.value.1));
      }
      LogCall(cpu, h, Next(cpu, w), es, Start(), entry);
    }

    /** A call runs; the run is as sound as it was if and only if the call showed the recorder everything. */
    method RunCall(asked: Context, ghost since: nat)
      requires Kept(1) && AtRest() && cpu.exec(uc.st).Service? && cpu.exec(uc.st).asked == asked
      modifies this`hist, this`layer, this`stop, this`blind, uc, timeline`dirty, log
      ensures Kept(0) && AtRest() && hist == old(hist) + [Next(cpu, old(hist)[|old(hist)| - 1])]
      ensures old(blind) <= blind <= old(blind) + {|old(hist)| - 1}
      ensures timeline.base.Some? && old(Sound(since)) ==> (Sound(since) <==> |old(hist)| - 1 !in blind)
      ensures stop == (var r := cpu.serve(old(uc.st).(ctx := asked), old(layer)).stop;
        if r.Some? then Some(LayerStop(r.value.0, r.value.1)) else old(stop))
    {
      hide IsRun, Logged, Placed, Anchored, Ordered, NBytes, Over, Stale, Faithful, WellFormed, Tallied, Named, InOrder,
        Addressed, Sorted, Indexes, Orderly, Next, Blind, Remaps, Noticed;
      ghost var h, w := hist, hist[|hist| - 1];
      NextUnedited(cpu, w);
      Answer(asked);
      hist := hist + [Next(cpu, w)];
      RunGrows(cpu, h);
      BlindStay(h, Next(cpu, w));
      if timeline.base.Some? {
        OneMore(cpu, timeline.base.value, timeline.checkpoints, timeline.interval, h, Next(cpu, w));
        if Blind(cpu, timeline.base.value, timeline.checkpoints, old(timeline.dirty), w, Next(cpu, w)) {
          BlindIs(h, old(timeline.dirty));
          blind := blind + {|h| - 1};
        }
        if old(Sound(since)) {
          StepKeepsSound(h, old(timeline.dirty), since);
        }
      }
    }

    /** One step further the history is as sound as it was, if and only if the step showed the recorder everything. */
    lemma StepKeepsSound(h: seq<World<L>>, noted: set<nat>, since: nat)
      requires h != [] && hist == h + [Next(cpu, h[|h| - 1])] && hist[|h|].m == uc.st && timeline.base.Some?
      requires Orderly(cpu) && IsRun(cpu, hist)
      requires Faithful(timeline.base.value, timeline.checkpoints, h, since)
      requires Stale(timeline.base.value, timeline.checkpoints, noted, h[|h| - 1].m) == {}
      requires timeline.dirty == Noticed(cpu, noted, h[|h| - 1])
      ensures Sound(since) <==> !Blind(cpu, timeline.base.value, timeline.checkpoints, noted, h[|h| - 1], hist[|h|])
    {
      hide IsRun, Over, Stale, Faithful, Noticed, Orderly, Blind, Next, WellFormed;
      StepOfRun(cpu, hist, |h| - 1);
      NextUnedited(cpu, h[|h| - 1]);
      OneMoreFaithful(timeline.base.value, timeline.checkpoints, h, hist[|h|], since);
      NothingGoesUnnoticedIff(cpu, timeline.base.value, timeline.checkpoints, noted, h[|h| - 1], hist[|h|]);
    }

    lemma BlindStay(h: seq<World<L>>, w: World<L>)
      requires hist == h + [w] && forall j :: j in blind ==> Remaps(cpu, h, j)
      ensures forall j :: j in blind ==> Remaps(cpu, hist, j) && j < |h| - 1
    {
      forall j | j in blind
        ensures Remaps(cpu, hist, j) && j < |h| - 1
      {
        RemapsElsewhere(cpu, h, hist, j);
      }
    }

    lemma BlindIs(h: seq<World<L>>, noted: set<nat>)
      requires h != [] && hist == h + [Next(cpu, h[|h| - 1])] && timeline.base.Some?
      requires Placed(timeline.base.value, timeline.checkpoints, hist)
      requires Newest(timeline.base.value, timeline.checkpoints).icount < |h|
      requires Blind(cpu, timeline.base.value, timeline.checkpoints, noted, h[|h| - 1], hist[|h|])
      ensures Remaps(cpu, hist, |h| - 1)
    {
      hide Placed, Blind, Remaps, Next;
      assert timeline.checkpoints[..|timeline.checkpoints|] == timeline.checkpoints;
      BlindRemaps(cpu, timeline.base.value, timeline.checkpoints, noted, hist, |h| - 1);
    }

    method PerformAll(icount: nat, acts: seq<Act>)
      requires log.Valid() && uc.Valid() && Wired()
      modifies log`current, uc, timeline`dirty
      ensures log.Valid() && uc.Valid() && uc.st == DoAll(old(uc.st), acts)
      ensures log.current.Some? && log.current.value.icount == icount && log.current.value.before == layer
      ensures log.current.value.Carries(Successes(old(uc.st), acts))
      ensures timeline.dirty == old(timeline.dirty) +
        (if timeline.enabled then WrittenPages(Successes(old(uc.st), acts)) else {})
    {
      hide DoAll, Successes, Try, Sorted, Indexes, WrittenPages, WellFormed;
      ghost var m, dirty0 := uc.st, timeline.dirty;
      log.Begin(icount, layer);
      BlankCarriesNothing(icount, layer);
      DoNone(m, acts);
      SuccessesNone(m, acts);
      for n := 0 to |acts|
        invariant log.Valid() && uc.Valid() && uc.st == DoAll(m, acts[..n])
        invariant log.current.Some? && log.current.value.icount == icount && log.current.value.before == layer
        invariant log.current.value.Carries(Successes(m, acts[..n]))
        invariant timeline.dirty == dirty0 + (if timeline.enabled then WrittenPages(Successes(m, acts[..n])) else {})
      {
        DoNext(m, acts, n);
        SuccessesNext(m, acts, n);
        CarriesOneMore(log.current.value, Successes(m, acts[..n]), acts[n]);
        WrittenPlus(Successes(m, acts[..n]), acts[n]);
        OneWrite(acts[n]);
        var ok := log.Perform(acts[n]);
      }
      assert acts[..|acts|] == acts;
    }

    /** The write hook and the memory hooks, for each access in turn. */
    method AccessHooks(accesses: seq<Access>, m: State, ghost g: Guards<L>, ghost hits0: seq<Hit>,
                       ghost events: seq<Event>)
      requires bps.Valid() && NoneAfter(bps.hits, timeline.icount) && Forgotten() <= timeline.icount
      requires NoneBefore(bps.hits, Forgotten())
      requires stop.None? && Tally(g, hits0, events) && Pends(g.Hits(events))
      modifies this`pending, timeline`dirty, bps`table, bps`hits
      ensures bps.Valid() && NoneAfter(bps.hits, timeline.icount) && NoneBefore(bps.hits, Forgotten())
      ensures timeline.dirty == old(timeline.dirty) + (if timeline.enabled then PagesPut(accesses) else {})
      ensures var seen := events + g.OfAccesses(accesses, m, timeline.icount);
        Tally(g, hits0, seen) && Pends(g.Hits(seen))
    {
      hide Tallied, Named, Addressed, InOrder, Touched, PagesPut, Since, HitsOf, Tally, Stopped, NoneAfter, NoneBefore;
      ghost var dirty0, at, seen := timeline.dirty, timeline.icount, events;
      PutNone(accesses);
      assert events + [] == events;
      for n := 0 to |accesses|
        invariant bps.Valid() && NoneAfter(bps.hits, timeline.icount) && NoneBefore(bps.hits, Forgotten())
        invariant timeline.dirty == dirty0 + (if timeline.enabled then PagesPut(accesses[..n]) else {})
        invariant seen == events + g.OfAccesses(accesses[..n], m, at)
        invariant Tally(g, hits0, seen) && Pends(g.Hits(seen))
      {
        var a := accesses[n];
        PutOneMore(accesses, n);
        OneMoreAccess(g, accesses, n, m, at);
        if a.write {
          timeline.NoteWrite(a.address, |a.data|);
        }
        ghost var before := seen;
        seen := before + g.OfAccess(g.next, a, m, at);
        MemHooks(a, m, g, hits0, before);
      }
      assert accesses[..|accesses|] == accesses;
    }

    /** The stop was asked for by the layer that answered the call at w. */
    ghost predicate AskedByLayer(ev: StopEvent, w: World<L>) {
      ev.LayerStop? && Serves(cpu, w) && cpu.serve(Asked(cpu, w), w.layer).stop == Some((ev.reason, ev.description))
    }

    /** The layer that answered the call at w, if there was one, asked for the run to stop. */
    ghost predicate StoppedByLayer(w: World<L>) {
      Serves(cpu, w) && cpu.serve(Asked(cpu, w), w.layer).stop.Some?
    }

    /**
     What there was to stop for since the run set out from `start` worlds, with the instruction to come
     begun or not.
     */
    ghost function Happened(g: Guards<L>, h: seq<World<L>>, start: nat, begun: bool): seq<Event> {
      if h == [] then []
      else if begun then g.Through(h, start - 1, |h| - 1) + g.Begun(h[|h| - 1].m, start - 1, |h| - 1)
      else g.Through(h, start - 1, |h| - 1)
    }

    ghost predicate StopsRun(hits: seq<Hit>, at: int, num: nat) {
      hits != [] && hits[|hits| - 1].icount == at && hits[|hits| - 1].num == num && !hits[|hits| - 1].ignored
    }

    /**
     What each kind of stop says.  A breakpoint has not run its instruction yet, a watchpoint's has just
     run, and neither is where a run of at least one instruction set out from; what they stop for is the
     first event with nothing left to ignore, and without one there is no such stop.
     */
    ghost predicate Accounted(ev: StopEvent, g: Guards<L>, h: seq<World<L>>, start: nat)
      requires h != []
    {
      var m, at := h[|h| - 1].m, |h| - 1;
      match ev
      case AtBreakpoint(num) =>
        |h| > start && Stands(holds, g.table, num, m) && StopsRun(g.Hits(Happened(g, h, start, true)), at, num)
      case AtWatchpoint(num) =>
        && |h| > start && |h| > 1 && HasWatched(cpu, g.table, num, h[|h| - 2])
        && StopsRun(g.Hits(Happened(g, h, start, false)), at, num)
      case Exited => m.ctx.Pc() in exits && !Stopped(g.Hits(Happened(g, h, start, false)))
      case LayerStop(_, _) =>
        && |h| > start && |h| > 1 && AskedByLayer(ev, h[|h| - 2])
        && !Stopped(g.Hits(Happened(g, h, start, false)))
      case Failed(_) => true
      case _ => !Stopped(g.Hits(Happened(g, h, start, false)))
    }

    lemma AccountBreakpoint(g: Guards<L>, h: seq<World<L>>, start: nat)
      requires |h| > start && h != [] && Addressed(g.byAddr, g.table) && g.holds == holds
      requires !Stopped(g.Hits(Happened(g, h, start, false))) && Stopped(g.Hits(Happened(g, h, start, true)))
      ensures var ev := AtBreakpoint(LastNum(g.Hits(Happened(g, h, start, true))));
        Accounted(ev, g, h, start) && ByHook(ev)
    {
      hide HitsOf, Addressed;
      StoppedHere(g, g.Through(h, start - 1, |h| - 1), h[|h| - 1].m, |h| - 1);
      ArmedStands(g, h[|h| - 1].m);
    }

    lemma AccountWatchpoint(g: Guards<L>, h: seq<World<L>>, start: nat, events: seq<Event>)
      requires |h| > start && |h| > 1 && g.cpu == cpu
      requires Happened(g, h, start, false) == events + g.After(h[|h| - 2], |h| - 1)
      requires !Stopped(g.Hits(events)) && Stopped(g.Hits(Happened(g, h, start, false)))
      ensures var ev := AtWatchpoint(LastNum(g.Hits(Happened(g, h, start, false))));
        Accounted(ev, g, h, start) && ByHook(ev)
    {
      hide HitsOf;
      StoppedAfter(g, events, h[|h| - 2], |h| - 1);
    }

    lemma AccountOther(ev: StopEvent, g: Guards<L>, h: seq<World<L>>, start: nat)
      requires h != [] && !Stopped(g.Hits(Happened(g, h, start, false)))
      requires ev.Exited? ==> h[|h| - 1].m.ctx.Pc() in exits
      requires ev.LayerStop? ==> |h| > start && |h| > 1 && AskedByLayer(ev, h[|h| - 2])
      ensures !ev.AtBreakpoint? && !ev.AtWatchpoint? ==> Accounted(ev, g, h, start)
      ensures ev.Exited? || ev.LayerStop? ==> ByHook(ev)
    {
    }

    lemma PendsSays(hits: seq<Hit>)
      requires Pends(hits)
      ensures if Stopped(hits) then pending == Some(LastNum(hits)) else pending.None?
    {
    }

    lemma NothingPends(hits: seq<Hit>)
      requires pending.None? && !Stopped(hits)
      ensures Pends(hits)
    {
    }

    /** One turn of the engine: fetch, the code hook, then the instruction or the call. */
    method Turn(ghost since: nat, ghost g: Guards<L>, ghost hits0: seq<Hit>, ghost from: int, ghost events: seq<Event>)
      returns (turn: Turned, ghost seen: seq<Event>)
      requires Kept(0) && AtRest() && stop.None? && (first <==> |hist| - 1 <= from)
      requires Tally(g, hits0, events) && Pends(g.Hits(events))
      modifies this`hist, this`layer, this`blind, this`stop, this`pending, this`first, this`left, uc, timeline, log, bps
      ensures AtRest() && Upkept(old(Standing()), Standing())
      ensures Kept(if turn.Refused? && !turn.fetch then 1 else 0)
      ensures turn.Ran? ==> hist == old(hist) + [Next(cpu, old(hist)[|old(hist)| - 1])] && !cpu.exec(old(uc.st)).Fault?
      ensures !turn.Ran? ==> hist == old(hist) && uc.st == old(uc.st)
      ensures old(blind) <= blind && (old(Sound(since)) && Untroubled(|old(hist)| - 1) ==> Sound(since))
      ensures Tally(g, hits0, seen)
      ensures turn.Ran? ==> old(pending).None? && !first && left == old(left) - 1
      ensures turn.Ran? ==> old(first) || (old(uc.st).ctx.Pc() !in exits && old(left) != 0)
      ensures turn.Ran? || turn == Refused(false) ==>
        !Stopped(g.Hits(events + g.Begun(old(uc.st), from, |old(hist)| - 1)))
      ensures turn.Ran? ==> Pends(g.Hits(seen))
      ensures turn.Ran? ==>
        seen == events + g.Begun(old(uc.st), from, |old(hist)| - 1) + g.After(old(hist)[|old(hist)| - 1], |old(hist)|)
      ensures turn.Ran? && stop.Some? ==> AskedByLayer(stop.value, old(hist)[|old(hist)| - 1]) && pending.None?
      ensures turn.Ran? ==> (stop.Some? <==> StoppedByLayer(old(hist)[|old(hist)| - 1]))
      ensures turn.Halted? ==> cpu.exec(uc.st) != Fault(true) && pending.None?
      ensures turn.Refused? ==> cpu.exec(uc.st) == Fault(turn.fetch) && stop.None?
      ensures turn == Refused(true) ==> pending == old(pending) && seen == events
      ensures turn == Refused(false) ==> pending.None? && seen == events + g.Begun(uc.st, from, |hist| - 1)
      ensures turn.Halted? ==>
        if old(pending).Some? then stop == Some(AtWatchpoint(old(pending).value)) && seen == events
        else if uc.st.ctx.Pc() in exits then !old(first) && stop == Some(Exited) && seen == events
        else if old(left) == 0 then !old(first) && stop.None? && seen == events
        else
          && !old(first) && seen == events + g.Begun(uc.st, from, |hist| - 1)
          && Stopped(g.Hits(seen)) && stop == Some(AtBreakpoint(LastNum(g.Hits(seen))))
    {
      hide Kept, Replays, Sound, Stale, Faithful, Upkept, Next, Covered, Orderly, IsRun, Logged, Tallied, Named,
        InOrder, Addressed, Tally, HitsOf, Guards.Here, Guards.After, Guards.Hits, NoneBefore, NoneAfter, Stopped,
        LastNum, Pends;
      var o := cpu.exec(uc.st);
      seen := events;
      if o == Fault(true) {
        UpkeptSelf(Standing());
        return Refused(true), seen;
      }
      ghost var w, ledger := hist[|hist| - 1], Standing();
      KeptCount(0);
      assert events + [] == events;
      var halt;
      halt, seen := OnCode(uc.st.ctx.Pc(), since, g, hits0, events);
      if halt {
        return Halted, seen;
      }
      assert seen == events + g.Begun(w.m, from, |hist| - 1);
      var ran;
      ran, seen := Perform(since, g, hits0, seen, ledger);
      turn := if ran then Ran else Refused(false);
    }

    /** The instruction or the call itself, once the hooks have let it run. */
    method Perform(ghost since: nat, ghost g: Guards<L>, ghost hits0: seq<Hit>, ghost events: seq<Event>,
                   ghost ledger: Ledger<L>)
      returns (ran: bool, ghost seen: seq<Event>)
      requires Kept(1) && AtRest() && stop.None? && pending.None? && cpu.exec(uc.st) != Fault(true)
      requires Tally(g, hits0, events) && !Stopped(g.Hits(events)) && Upkept(ledger, Standing())
      modifies this`hist, this`layer, this`blind, this`stop, this`pending, uc, timeline`dirty, log, bps`table, bps`hits
      ensures ran <==> !cpu.exec(old(uc.st)).Fault?
      ensures AtRest() && Kept(if ran then 0 else 1) && Upkept(ledger, Standing()) && Tally(g, hits0, seen)
      ensures old(blind) <= blind
      ensures (timeline.base.Some? && old(Sound(since)) && Untroubled(|old(hist)| - 1) ==> Sound(since))
      ensures !ran ==> hist == old(hist) && uc.st == old(uc.st) && stop.None? && pending.None? && seen == events
      ensures !ran ==> (old(Sound(since)) ==> Sound(since))
      ensures ran ==> hist == old(hist) + [Next(cpu, old(hist)[|old(hist)| - 1])]
      ensures ran ==> seen == events + g.After(old(hist)[|old(hist)| - 1], |old(hist)|) && Pends(g.Hits(seen))
      ensures ran && stop.Some? ==> AskedByLayer(stop.value, old(hist)[|old(hist)| - 1]) && pending.None?
      ensures ran ==> (stop.Some? <==> StoppedByLayer(old(hist)[|old(hist)| - 1]))
    {
      hide Kept, Replays, Sound, Upkept, Next, Covered, Orderly, Tally, HitsOf, Guards.After, Guards.Hits, Stopped,
        Pends;
      ghost var w, before := hist[|hist| - 1], Standing();
      KeptCount(1);
      TallyOf(g, hits0, events);
      seen := events + g.After(w, |hist|);
      match cpu.exec(uc.st) {
        case Fault(_) =>
          return false, events;
        case Done(next, accesses) =>
          RunPlain(next, accesses, since, g, hits0, events);
        case Service(_, asked) =>
          CallSeesNothing(g, w, |hist|);
          assert events + [] == events;
          RunCall(asked, since);
          NothingPends(g.Hits(seen));
      }
      UpkeptLonger(ledger, before, Next(cpu, w));
      ran := true;
    }

    lemma TallyOf(g: Guards<L>, hits0: seq<Hit>, events: seq<Event>)
      requires Tally(g, hits0, events)
      ensures g.cpu == cpu && g.holds == holds
    {
    }

    /** A run that set out from h0 is under way, and nothing so far had to stop it. */
    ghost predicate Going(g: Guards<L>, hits0: seq<Hit>, h0: seq<World<L>>)
      reads `hist, `layer, `blind, `stop, `pending, `first, uc, timeline, log, bps
    {
      && Kept(0) && AtRest() && stop.None?
      && h0 != [] && RunsOn(h0, hist) && (first <==> |hist| == |h0|)
      && Tally(g, hits0, Happened(g, hist, |h0|, false)) && Pends(g.Hits(Happened(g, hist, |h0|, false)))
      && Unstopped(g, exits, hist, |h0| - 1)
      && (pending.Some? ==> Accounted(AtWatchpoint(pending.value), g, hist, |h0|))
      && (|hist| > |h0| ==> !StoppedByLayer(hist[|hist| - 2]))
    }

    /** What is known where a run ends. */
    ghost predicate Over(g: Guards<L>, hits0: seq<Hit>, start: nat, faulted: bool)
      reads `hist, `stop, `pending, uc, timeline`base, timeline`dropped, bps
    {
      && hist != [] && Tally(g, hits0, Happened(g, hist, start, faulted || (stop.Some? && stop.value.AtBreakpoint?)))
      && (stop.Some? ==> pending.None? && !faulted && ByHook(stop.value) && Accounted(stop.value, g, hist, start))
      && (pending.Some? ==> Accounted(AtWatchpoint(pending.value), g, hist, start))
      && (stop.None? && pending.None? && !faulted ==> !Stopped(g.Hits(Happened(g, hist, start, false))))
    }

    method Pace(ghost g: Guards<L>, ghost hits0: seq<Hit>, ghost h0: seq<World<L>>, ghost since: nat)
      returns (turn: Turned)
      requires Going(g, hits0, h0) && Addressed(g.byAddr, g.table)
      modifies this`hist, this`layer, this`blind, this`stop, this`pending, this`first, this`left, uc, timeline, log, bps
      ensures turn.Ran? && stop.None? ==> Going(g, hits0, h0)
      ensures Kept(if turn == Refused(false) then 1 else 0) && AtRest()
      ensures Over(g, hits0, |h0|, turn == Refused(false))
      ensures RunsOn(h0, hist) && Unstopped(g, exits, hist, |h0| - 1)
      ensures Upkept(old(Standing()), Standing())
      ensures old(blind) <= blind && (old(Sound(since)) && Untroubled(|old(hist)| - 1) ==> Sound(since))
      ensures if turn.Ran? then |hist| == |old(hist)| + 1 && hist == old(hist) + [hist[|old(hist)|]]
        else hist == old(hist)
      ensures turn.Ran? ==> left == old(left) - 1 && (old(left) != 0 || |old(hist)| == |h0|)
      ensures turn.Refused? ==> (turn.fetch <==> FetchFaults(|h0|))
      ensures turn.Halted? || (turn.Ran? && stop.Some?) ==> !FetchFaults(|h0|)
      ensures turn.Refused? ==> cpu.exec(uc.st) == Fault(turn.fetch) && stop.None?
      ensures turn.Halted? && stop.None? ==> pending.None? && old(left) == 0 && |hist| > |h0|
    {
      hide Kept, Replays, Sound, Unstopped, Stands, RunsOn, Accounted, Untroubled, Orderly, Next, Covered,
        StoppedByLayer, Upkept, Tally, HitsOf, Addressed, HasWatched, Guards.Through, Guards.Begun, Guards.After,
        Stopped, Pends;
      ghost var h, from: int := hist, |h0| - 1;
      ghost var events := Happened(g, hist, |h0|, false);
      assert |h| >= |h0| by {
        RunsOnLonger(h0, h);
      }
      TallyOf(g, hits0, events);
      PendsSays(g.Hits(events));
      ghost var seen;
      turn, seen := Turn(since, g, hits0, from, events);
      if turn.Ran? {
        ghost var w := hist[|hist| - 1];
        ThroughNext(g, h, w, from);
        UnstoppedMore(g, exits, h, w, from);
        NextUnedited(cpu, h[|h| - 1]);
        RunsOnMore(h0, h, w);
        PendsSays(g.Hits(seen));
        assert hist[|hist| - 2] == h[|h| - 1];
        if stop.Some? {
          AccountOther(stop.value, g, hist, |h0|);
        } else if pending.Some? {
          AccountWatchpoint(g, hist, |h0|, events + g.Begun(h[|h| - 1].m, from, |h| - 1));
        }
      } else if stop.Some? {
        ghost var start: nat := |h0|;
        match stop.value
        case AtBreakpoint(num) => AccountBreakpoint(g, hist, start);
        case AtWatchpoint(num) =>
        case _ => AccountOther(Exited, g, hist, start);
      }
    }

    /**
     The run has gone on from h0 without an edit, with nothing to stop for before its last instruction;
     what could be gone back to with the books of then is as good as it was, as long as they hold it.
     */
    ghost predicate WentOn(h0: seq<World<L>>, g: Guards<L>, books: Book<L>)
      reads `hist, timeline`base, timeline`checkpoints, timeline`dropped
    {
      RunsOn(h0, hist) && Unstopped(g, exits, hist, |h0| - 1) && Retains(books, Books(), |h0|)
    }

    lemma HasGoneOn(h0: seq<World<L>>, g: Guards<L>, books: Book<L>)
      requires WentOn(h0, g, books)
      ensures |h0| <= |hist| && RunsOn(h0, hist) && Retains(books, Books(), |h0|)
    {
    }

    /** Turns of the engine until something ends the run: at the latest an interrupt after `patience` of them. */
    method EmuStart(count: nat, patience: nat, ghost since: nat, ghost g: Guards<L>, ghost hits0: seq<Hit>)
      returns (end: Ended)
      requires Kept(0) && AtRest() && stop.None? && pending.None? && first && left == (if count > 0 then count else -1)
      requires g == Posted() && hits0 == bps.hits
      modifies this`hist, this`layer, this`blind, this`stop, this`pending, this`first, this`left, uc, timeline, log, bps
      ensures AtRest() && Kept(if end == Faulted(false) then 1 else 0) && WentOn(old(hist), old(Posted()), old(Books()))
      ensures Over(g, hits0, |old(hist)|, end == Faulted(false))
      ensures Tracks(old(Sound(since)), old(Covered()), old(timeline.dropped), old(timeline.Due()), |old(hist)| - 1,
        since)
      ensures |hist| - |old(hist)| <= patience + 1 && (count > 0 ==> |hist| - |old(hist)| <= count)
      ensures end.Faulted? ==> cpu.exec(uc.st) == Fault(end.fetch) && stop.None?
      ensures end == CutShort ==> |hist| - |old(hist)| == patience + 1
      ensures end == CountedOut ==> count > 0 && |hist| - |old(hist)| == count
      ensures end != CutShort && end != CountedOut ==> (end == Faulted(true) <==> FetchFaults(|old(hist)|))
      ensures !end.Faulted? && stop.None? && pending.None? && count == 0 ==> end == CutShort
      ensures !end.Faulted? && stop.None? && pending.None? && count > 0 && end != CutShort ==>
        |hist| == |old(hist)| + count
    {
      hide Kept, Sound, Covered, Unstopped, RunsOn, Accounted, ByHook, HasWatched, StoppedByLayer, Upkept, Going,
        Orderly, FetchFaults, Ordered, Over, Tally, Addressed, Tracks, WentOn, Pends;
      ghost var h0, sound, ledger, blind0 := hist, Sound(since), Standing(), blind;
      UpkeptSelf(ledger);
      var ran := 0;
      SetsOut();
      while true
        invariant Going(g, hits0, h0) && |hist| == |h0| + ran
        invariant blind0 <= blind && (sound && Untroubled(|h0| - 1) ==> Sound(since))
        invariant Upkept(ledger, Standing())
        invariant left == (if count > 0 then count else -1) - ran && (count > 0 ==> ran <= count) && ran <= patience
        decreases patience + 1 - ran
      {
        NotPast(g, hits0, h0);
        ghost var ledger1 := Standing();
        var turn := Pace(g, hits0, h0, since);
        UpkeptTrans(ledger, ledger1, Standing());
        StillGood(ledger, g, sound, since, if turn == Refused(false) then 1 else 0);
        if turn.Refused? {
          return Faulted(turn.fetch);
        }
        if turn.Halted? {
          return Hooked;
        }
        ran := ran + 1;
        if stop.Some? {
          return Hooked;
        }
        if ran > patience {
          return CutShort;
        }
        var early: bool := *;
        if count > 0 && ran == count && early {
          return CountedOut;
        }
      }
    }

    lemma SetsOut()
      requires Kept(0) && AtRest() && stop.None? && pending.None? && first
      ensures Going(Posted(), bps.hits, hist) && Addressed(bps.byAddr, bps.table)
    {
      hide Kept, RunsOn, StoppedByLayer, Counts, Addressed, Accounted;
      KeptArmed();
      RunsOnSelf(hist);
      CountsNone(bps.table);
      KeptCount(0);
      SinceAll(bps.hits, Forgotten());
      assert bps.hits + [] == bps.hits;
    }

    /** What that comes to for a run that set out from these books. */
    lemma StillGood(a: Ledger<L>, g: Guards<L>, sound: bool, since: nat, ahead: int)
      requires Upkept(a, Standing()) && Kept(ahead) && ahead <= 1
      requires RunsOn(a.books.hist, hist) && Unstopped(g, exits, hist, |a.books.hist| - 1)
      requires sound && Untroubled(|a.books.hist| - 1) ==> Sound(since)
      ensures WentOn(a.books.hist, g, a.books)
      ensures Tracks(sound, a.covered, a.books.dropped, a.due, |a.books.hist| - 1, since)
    {
      hide RunsOn, Unstopped, Untroubled, Sound, Retains, Replays, Covered;
      KeptCount(ahead);
    }

    lemma NotPast(g: Guards<L>, hits0: seq<Hit>, h0: seq<World<L>>)
      requires Going(g, hits0, h0)
      ensures |hist| >= |h0| && (first <==> |hist| == |h0|) && timeline.icount == |hist| - 1
    {
    }

    /** The breakpoint that stopped the run is temporary. */
    ghost predicate Temporary(t: Table, ev: StopEvent) {
      (ev.AtBreakpoint? || ev.AtWatchpoint?) && ev.num in t && t[ev.num].temporary
    }

    /** The breakpoints without it. */
    ghost function Left(t: Table, ev: StopEvent): Table {
      if Temporary(t, ev) then t - {ev.num} else t
    }

    /**
     After a run every breakpoint is still there but a temporary one that stopped it; what happened along
     the run is counted, and logged behind what was logged before, as far as the history reaches back.
     */
    ghost predicate Settled(g: Guards<L>, hits0: seq<Hit>, start: nat, ev: StopEvent)
      reads `hist, bps, timeline`base, timeline`dropped
    {
      && Reckoned(Left(g.table, ev), hits0, Along(g, start, ev), Forgotten(), bps.table, bps.hits)
      && bps.byAddr == (if Temporary(g.table, ev) then Disarmed(g.byAddr, g.table[ev.num], ev.num) else g.byAddr)
      && bps.next == g.next
    }

    /** The hits of the run that set out from `start` worlds and ended like this. */
    ghost function Along(g: Guards<L>, start: nat, ev: StopEvent): seq<Hit>
      reads `hist
    {
      g.Hits(Happened(g, hist, start, ev.AtBreakpoint? || ev == Failed(false)))
    }

    /** Where nothing is folded away, none of them is missing from the log. */
    lemma AllLogged(g: Guards<L>, hits0: seq<Hit>, start: nat, ev: StopEvent)
      requires Settled(g, hits0, start, ev) && NoneBefore(hits0, Forgotten()) && Forgotten() <= start
      ensures bps.hits == hits0 + Along(g, start, ev)
    {
      hide Counts, HitsOf;
      var events := Happened(g, hist, start, ev.AtBreakpoint? || ev == Failed(false));
      HappenedSince(g, start, ev.AtBreakpoint? || ev == Failed(false));
      HitsWithin(g, events, start, |hist|);
      assert NoneBefore(hits0 + g.Hits(events), Forgotten());
      SinceAll(hits0 + g.Hits(events), Forgotten());
    }

    lemma HappenedSince(g: Guards<L>, start: nat, begun: bool)
      ensures Within(Happened(g, hist, start, begun), start, |hist|)
    {
      hide Guards.Through, Guards.Begun;
      if hist != [] {
        ThroughKnown(g, hist, start - 1, |hist| - 1);
        BegunKnown(g, hist[|hist| - 1].m, start - 1, |hist| - 1);
      }
    }

    /**
     Run, for `count` instructions or, when it is 0, until something stops the run.  None is the
     error for a target that has already terminated.
     */
    method Emulate(count: nat, patience: nat, ghost since: nat) returns (ev: Option<StopEvent>)
      requires Kept(0) && AtRest()
      modifies this`hist, this`layer, this`blind, this`stop, this`pending, this`first, this`left, this`terminated, uc,
               timeline, log, bps
      ensures ev.None? <==> old(terminated)
      ensures ev.None? ==> hist == old(hist) && uc.st == old(uc.st) && terminated
      ensures ev.None? ==> Posted() == old(Posted()) && bps.hits == old(bps.hits)
      ensures AtRest() && WentOn(old(hist), old(Posted()), old(Books()))
      ensures if ev.Some? then Finished(ev.value, old(Posted()), old(bps.hits), |old(hist)|) else Kept(0)
      ensures (count == 0 || |hist| - |old(hist)| < count) && |hist| - |old(hist)| <= patience ==>
        (ev == Some(Failed(true)) <==> !old(terminated) && FetchFaults(|old(hist)|))
      ensures Tracks(old(Sound(since)), old(Covered()), old(timeline.dropped), old(timeline.Due()), |old(hist)| - 1,
        since)
      ensures timeline.dropped == old(timeline.dropped) ==> ReachesAll(old(Books()), |old(hist)| - 1)
      ensures timeline.dropped == old(timeline.dropped) ==> Forgotten() == old(Forgotten())
      ensures ev.Some? && timeline.dropped == old(timeline.dropped) ==>
        bps.hits == old(bps.hits) + Along(old(Posted()), |old(hist)|, ev.value)
      ensures count > 0 ==> |hist| - |old(hist)| <= count
      ensures ev == Some(Stepped) ==> count > 0 && (count <= patience ==> |hist| == |old(hist)| + count)
      ensures ev == Some(Interrupted) ==> |hist| == |old(hist)| + patience + 1
      ensures terminated <==> old(terminated) || (ev.Some? && Ends(ev.value))
    {
      hide Kept, Replays, Sound, Untroubled, Covered, Accounted, Ends, FetchFaults, ReachesAll, Ordered, Settled,
        WentOn, Blamed, Books, Along, NoneBefore, NoneAfter, Tracks, Posted, Finished;
      if terminated {
        NowhereToGo(since);
        return None;
      }
      ghost var h0, g, books, hits0, forgotten := hist, Posted(), Books(), bps.hits, Forgotten();
      SetOutWith();
      var verdict := Drive(count, patience, since);
      NothingFolded(h0, g, books, hits0, forgotten, verdict);
      ev := Some(verdict);
    }

    /** What there is to know of the books before a run. */
    lemma SetOutWith()
      requires Kept(0)
      ensures Books().dropped == timeline.dropped && Forgotten() < |hist| && NoneBefore(bps.hits, Forgotten())
      ensures Books().dropped > 0 ==> Books().base.Some?
      ensures Forgotten() == if Books().dropped > 0 && Books().base.Some? then Books().base.value.icount else 0
      ensures Books().base.Some? ==> Ordered(Books().base.value, Books().checkpoints, timeline.interval)
    {
      hide Replays, Ordered, NoneBefore, NoneAfter;
      KeptOrdered(0);
      KeptCount(0);
    }

    /** Without a step nothing has changed. */
    lemma NowhereToGo(since: nat)
      requires Kept(0)
      ensures WentOn(hist, Posted(), Books()) && ReachesAll(Books(), |hist| - 1)
      ensures Tracks(Sound(since), Covered(), timeline.dropped, timeline.Due(), |hist| - 1, since)
    {
      hide Kept, Replays, Retains, Unstopped, RunsOn, ReachesAll, Ordered;
      KeptOrdered(0);
      KeptCount(0);
      RunsOnSelf(hist);
      RetainsSelf(Books(), |hist|);
      StillReaches(Books(), |hist|);
      UnstoppedNone(Posted(), exits, hist);
    }

    /**
     Where nothing was folded away, all of it can be gone back to still, and the log is longer by what the
     run came upon.
     */
    lemma NothingFolded(h0: seq<World<L>>, g: Guards<L>, books: Book<L>, hits0: seq<Hit>, forgotten: nat, ev: StopEvent)
      requires WentOn(h0, g, books) && Finished(ev, g, hits0, |h0|) && NoneBefore(hits0, forgotten) && forgotten <= |h0|
      requires books.base.Some? ==> Ordered(books.base.value, books.checkpoints, timeline.interval)
      requires books.dropped > 0 ==> books.base.Some?
      requires forgotten == if books.dropped > 0 && books.base.Some? then books.base.value.icount else 0
      ensures timeline.dropped == books.dropped ==>
        && ReachesAll(books, |h0| - 1) && Forgotten() == forgotten && bps.hits == hits0 + Along(g, |h0|, ev)
    {
      hide Settled, Ordered, NoneBefore, Retains, Along, ReachesAll, RunsOn, Unstopped, Accounted, Kept, Replays;
      if timeline.dropped == books.dropped {
        StillReaches(books, |h0|);
        SameStart(books, |h0|, forgotten);
        AllLogged(g, hits0, |h0|, ev);
      }
    }

    /** The same for a target that has not terminated. */
    method Drive(count: nat, patience: nat, ghost since: nat) returns (ev: StopEvent)
      requires Kept(0) && AtRest() && !terminated
      modifies this`hist, this`layer, this`blind, this`stop, this`pending, this`first, this`left, this`terminated, uc,
               timeline, log, bps
      ensures AtRest() && WentOn(old(hist), old(Posted()), old(Books()))
      ensures Finished(ev, old(Posted()), old(bps.hits), |old(hist)|)
      ensures (count == 0 || |hist| - |old(hist)| < count) && |hist| - |old(hist)| <= patience ==>
        (ev == Failed(true) <==> FetchFaults(|old(hist)|))
      ensures Tracks(old(Sound(since)), old(Covered()), old(timeline.dropped), old(timeline.Due()), |old(hist)| - 1,
        since)
      ensures count > 0 ==> |hist| - |old(hist)| <= count
      ensures ev == Stepped ==> count > 0 && (count <= patience ==> |hist| == |old(hist)| + count)
      ensures ev == Interrupted ==> |hist| == |old(hist)| + patience + 1
      ensures terminated <==> Ends(ev)
    {
      hide Kept, Sound, Untroubled, Covered, Accounted, StoppedByLayer, Unstopped, Ends, RunsOn, ByHook, Tracks,
        FetchFaults, Replays, Ordered, Over, Settled, Retains, NoneBefore, NoneAfter, Happened, Stopped, Blamed, WentOn,
        Finished, Posted, Books, Forgotten;
      ghost var h, g, hits := hist, Posted(), bps.hits;
      KeptCount(0);
      stop, pending, first := None, None, true;
      left := if count > 0 then count else -1;
      var end := EmuStart(count, patience, since, g, hits);
      HasGoneOn(h, g, old(Books()));
      ev := Report(end, count, g, hits, |h|);
    }

    /** Where nothing is folded away, the log of hits begins where it did. */
    lemma SameStart(books: Book<L>, until: int, forgotten: nat)
      requires Retains(books, Books(), until) && (books.dropped > 0 ==> books.base.Some?)
      requires forgotten == if books.dropped > 0 && books.base.Some? then books.base.value.icount else 0
      ensures timeline.dropped == books.dropped ==> Forgotten() == forgotten
    {
    }

    /**
     The run that set out from `start` worlds has come to where nothing can be fetched, and no layer
     stopped it just before.
     */
    ghost predicate FetchFaults(start: nat)
      reads `hist, uc
    {
      cpu.exec(uc.st) == Fault(true) && !(|hist| > start && |hist| > 1 && StoppedByLayer(hist[|hist| - 2]))
    }

    /** Say what ended the run, and drop the breakpoint that did if it was temporary. */
    method Report(end: Ended, count: nat, ghost g: Guards<L>, ghost hits0: seq<Hit>, ghost start: nat)
      returns (ev: StopEvent)
      requires Kept(if end == Faulted(false) then 1 else 0) && AtRest() && !terminated
      requires Over(g, hits0, start, end == Faulted(false))
      requires end.Faulted? ==> cpu.exec(uc.st) == Fault(end.fetch) && stop.None?
      modifies this`stop, this`pending, this`terminated, timeline`icount, bps`table, bps`byAddr
      ensures Finished(ev, g, hits0, start)
      ensures terminated <==> Ends(ev)
      ensures ev.Failed? <==> end.Faulted?
      ensures ev.Failed? ==> ev.fetch == end.fetch
      ensures ev == Stepped ==> !end.Faulted? && old(stop).None? && old(pending).None? && count > 0
      ensures ev == Interrupted ==> !end.Faulted? && old(stop).None? && old(pending).None? && count == 0
    {
      hide Kept, Replays, Sound, Accounted, Ends, ByHook, Tallied, Named, InOrder, Addressed, Over, Settled, Counts,
        Ordered;
      ev := Verdict(end, count, g, hits0, start);
      TallySays(g, hits0, Happened(g, hist, start, ev.AtBreakpoint? || ev == Failed(false)));
      StopKnown(ev, g, start);
      ghost var table, byAddr := bps.table, bps.byAddr;
      DropTemporary(ev);
      NowSettled(ev, g, hits0, start, table, byAddr);
    }

    /** What a run that came to an end is reported as. */
    method Verdict(end: Ended, count: nat, ghost g: Guards<L>, ghost hits0: seq<Hit>, ghost start: nat)
      returns (ev: StopEvent)
      requires Kept(if end == Faulted(false) then 1 else 0) && AtRest() && !terminated
      requires Over(g, hits0, start, end == Faulted(false))
      requires end.Faulted? ==> cpu.exec(uc.st) == Fault(end.fetch) && stop.None?
      modifies this`stop, this`pending, this`terminated, timeline`icount
      ensures bps.Valid() && hist != [] && Accounted(ev, g, hist, start)
      ensures Tally(g, hits0, Happened(g, hist, start, ev.AtBreakpoint? || ev == Failed(false)))
      ensures Blamed(ev)
      ensures terminated <==> Ends(ev)
      ensures ev.Failed? <==> end.Faulted?
      ensures ev.Failed? ==> ev.fetch == end.fetch
      ensures ev == Stepped ==> !end.Faulted? && old(stop).None? && old(pending).None? && count > 0
      ensures ev == Interrupted ==> !end.Faulted? && old(stop).None? && old(pending).None? && count == 0
    {
      hide Kept, Replays, Sound, Accounted, Tally, HitsOf, Stopped, Happened, HasWatched, NotJustTaken, Guards.Hits,
        NoneBefore, NoneAfter, Blamed;
      KeptCount(if end == Faulted(false) then 1 else 0);
      if stop.None? && pending.Some? {
        stop, pending := Some(AtWatchpoint(pending.value)), None;
      }
      if end.Faulted? {
        Blame(end.fetch);
        ev := Failed(end.fetch);
        AccountFault(ev, g, start);
      } else if stop.Some? {
        ev := stop.value;
      } else if uc.st.ctx.Pc() in exits {
        ev := Exited;
        AccountOther(ev, g, hist, start);
      } else if count > 0 {
        ev := Stepped;
        AccountOther(ev, g, hist, start);
      } else {
        ev := Interrupted;
        AccountOther(ev, g, hist, start);
      }
      if !end.Faulted? {
        NothingToBlame(ev);
      }
      if Ends(ev) {
        terminated := true;
      }
    }

    lemma NothingToBlame(ev: StopEvent)
      requires Kept(0) && AtRest() && !ev.Failed?
      ensures Blamed(ev)
    {
      hide Replays;
      KeptCount(0);
    }

    lemma AccountFault(ev: StopEvent, g: Guards<L>, start: nat)
      requires hist != [] && ev.Failed?
      ensures Accounted(ev, g, hist, start)
    {
    }

    lemma StopKnown(ev: StopEvent, g: Guards<L>, start: nat)
      requires hist != [] && Accounted(ev, g, hist, start) && SameButCounts(g.table, bps.table)
      ensures (ev.AtBreakpoint? || ev.AtWatchpoint?) ==> ev.num in bps.table
    {
    }

    lemma NowSettled(ev: StopEvent, g: Guards<L>, hits0: seq<Hit>, start: nat, table: Table, byAddr: map<nat, nat>)
      requires var more := g.Hits(Happened(g, hist, start, ev.AtBreakpoint? || ev == Failed(false)));
        && Counts(g.table, table, more) && byAddr == g.byAddr && bps.next == g.next
        && bps.hits == Since(hits0 + more, Forgotten())
      requires var gone := Temporary(table, ev);
        && bps.table == (if gone then table - {ev.num} else table)
        && bps.byAddr == (if gone then Disarmed(byAddr, table[ev.num], ev.num) else byAddr)
      ensures Settled(g, hits0, start, ev)
    {
      if Temporary(table, ev) {
        CountsWithout(g.table, table, g.Hits(Happened(g, hist, start, ev.AtBreakpoint? || ev == Failed(false))),
          ev.num);
      }
    }

    /** The last checkpoint is not where the run ends, as it is right after an edit. */
    ghost predicate NotJustTaken()
      reads `hist, timeline`base, timeline`checkpoints
    {
      timeline.base.Some? ==> Newest(timeline.base.value, timeline.checkpoints).icount < |hist| - 1
    }

    /**
     The run is at rest and its books are kept, but for a fault of fetching: that takes one off the count
     that was right.
     */
    ghost predicate Blamed(ev: StopEvent)
      reads `hist, `layer, `blind, uc, timeline, log, bps
    {
      && Replays() && AtRest()
      && (timeline.base.Some? ==> Ordered(timeline.base.value, timeline.checkpoints, timeline.interval))
      && timeline.icount == (if ev == Failed(true) && |hist| > 1 then |hist| - 2 else |hist| - 1)
      && (timeline.icount == |hist| - 1 ==> Kept(0))
      && (ev == Failed(true) && |hist| > 1 && NotJustTaken() ==> Kept(-1))
      && (ev.Failed? ==> cpu.exec(uc.st) == Fault(ev.fetch))
    }

    /** A run that set out from `start` worlds with these breakpoints and this log of hits is over. */
    ghost predicate Finished(ev: StopEvent, g: Guards<L>, hits0: seq<Hit>, start: nat)
      reads `hist, `layer, `blind, uc, timeline, log, bps
    {
      hist != [] && Blamed(ev) && Accounted(ev, g, hist, start) && Settled(g, hits0, start, ev)
    }

    lemma KeptFinished(ev: StopEvent, g: Guards<L>, hits0: seq<Hit>, start: nat)
      requires Finished(ev, g, hits0, start)
      ensures hist != [] && Settled(g, hits0, start, ev) && (ev != Failed(true) ==> Kept(0))
    {
    }

    /** The instruction a fault is blamed on is the last one counted, which is wrong when none was. */
    method Blame(fetch: bool)
      requires Kept(if fetch then 0 else 1)
      modifies timeline`icount
      ensures timeline.icount == if fetch && |hist| > 1 then |hist| - 2 else |hist| - 1
      ensures timeline.icount == |hist| - 1 ==> Kept(0)
      ensures fetch && |hist| > 1 ==> (Kept(-1) <==> NotJustTaken())
      ensures AtRest() && cpu.exec(uc.st) == Fault(fetch) ==> Blamed(Failed(fetch))
    {
      hide Logged, Placed, Anchored, Ordered, NBytes, Over, Stale, Faithful, Tallied, Named, InOrder, IsRun, WellFormed,
        Indexes, Sorted, Addressed, Remaps, NoneAfter, NoneBefore, Orderly;
      timeline.Uncount();
    }

    lemma KeptCount(ahead: int)
      requires Kept(ahead)
      ensures timeline.icount == |hist| - 1 + ahead && bps.Valid() && Start() < |hist|
      ensures NoneAfter(bps.hits, |hist| - 1)
      ensures NoneBefore(bps.hits, Forgotten()) && (timeline.dropped > 0 ==> timeline.base.Some?)
      ensures layer == hist[|hist| - 1].layer
      ensures uc.st.spans == {} ==> cpu.exec(uc.st) == Fault(true)
      ensures Replays()
    {
    }

    /** A temporary breakpoint goes once it has stopped a run. */
    method DropTemporary(ev: StopEvent)
      requires bps.Valid() && ((ev.AtBreakpoint? || ev.AtWatchpoint?) ==> ev.num in bps.table)
      modifies bps`table, bps`byAddr
      ensures bps.Valid() && (forall ahead :: old(Kept(ahead)) ==> Kept(ahead)) && (old(Replays()) ==> Replays())
      ensures var gone := Temporary(old(bps.table), ev);
        && bps.table == (if gone then old(bps.table) - {ev.num} else old(bps.table))
        && bps.byAddr == (if gone then Disarmed(old(bps.byAddr), old(bps.table)[ev.num], ev.num) else old(bps.byAddr))
    {
      hide Logged, Placed, Anchored, Ordered, NBytes, Over, Tallied, Named, InOrder, IsRun, WellFormed, Indexes, Sorted;
      if (ev.AtBreakpoint? || ev.AtWatchpoint?) && bps.table[ev.num].temporary {
        bps.DeleteBreakpoint(ev.num);
      }
    }

    // ---- replaying ----

    /** In a replay a watchpoint only takes note of what it sees. */
    method Observe(accesses: seq<Access>, at: nat) returns (sightings: seq<Sighting>)
      requires bps.Valid()
      ensures forall s :: s in sightings <==> s.at == at && s.access in accesses && Watched(bps.table, s.num, s.access)
    {
      hide Tallied, Addressed, InOrder, Sees;
      sightings := [];
      for n := 0 to |accesses|
        invariant forall s :: s in sightings <==>
          s.at == at && s.access in accesses[..n] && Watched(bps.table, s.num, s.access)
      {
        var more := ObserveOne(accesses[n], at);
        assert accesses[..n + 1] == accesses[..n] + [accesses[n]];
        sightings := sightings + more;
      }
      assert accesses[..|accesses|] == accesses;
    }

    method ObserveOne(access: Access, at: nat) returns (sightings: seq<Sighting>)
      requires bps.Valid()
      ensures forall s :: s in sightings <==> s.at == at && s.access == access && Watched(bps.table, s.num, s.access)
    {
      hide Tallied, Addressed, InOrder, Sees, Named;
      NumbersBelow(bps.table, bps.next, bps.hits);
      sightings := [];
      for num := 0 to bps.next
        invariant forall s :: s in sightings <==>
          s.at == at && s.access == access && s.num < num && Watched(bps.table, s.num, s.access)
      {
        if num in bps.table && bps.table[num].enabled && Sees(bps.table[num], access) {
          sightings := sightings + [Sighting(at, num, access)];
        }
      }
    }

    /** Instruction j once more: the same state comes out, and a call is not answered again. */
    method ReplayTurn(ghost j: nat) returns (sightings: seq<Sighting>)
      requires Replays() && Start() <= j < |hist| - 1
      requires uc.st == hist[j].m && replayIcount == j + 1
      modifies uc, timeline`dirty
      ensures Replays() && uc.st == Next(cpu, hist[j]).m && (old(Kept(0)) ==> Kept(0))
      ensures timeline.dirty == old(timeline.dirty) + (if timeline.enabled then Heard(cpu, hist[j]) else {})
      ensures forall s :: s in sightings <==>
        s.at == j && s.access in AccessesOf(cpu, hist[j]) && Watched(bps.table, s.num, s.access)
    {
      hide Logged, Placed, Anchored, Ordered, NBytes, Over, Tallied, Named, InOrder, IsRun, WellFormed, Indexes, Sorted,
        Addressed, Watched, Orderly, LoggedAt, DoAll, PutAll;
      RunWellFormed(cpu, hist);
      StepOfRun(cpu, hist, j);
      NextKeepsWellFormed(cpu, hist[j]);
      LogLookup(cpu, hist, log.entries, log.byIcount, Start(), j);
      sightings := [];
      match cpu.exec(uc.st) {
        case Done(next, accesses) =>
          PutHooks(accesses);
          sightings := Observe(accesses, replayIcount - 1);
          uc.st := Executed(uc.st, next, accesses);
        case Service(_, asked) =>
          ReplayIsNext(cpu, hist, log.byIcount[j], j);
          PutNone([]);
          uc.ContextRestore(asked);
          var effect := log.Replay(replayIcount - 1);
        case Fault(_) =>
          assert false;
      }
    }

    method PutHooks(accesses: seq<Access>)
      modifies timeline`dirty
      ensures timeline.dirty == old(timeline.dirty) + (if timeline.enabled then PagesPut(accesses) else {})
    {
      hide PagesPut, Touched;
      PutNone(accesses);
      for n := 0 to |accesses|
        invariant timeline.dirty == old(timeline.dirty) + (if timeline.enabled then PagesPut(accesses[..n]) else {})
      {
        PutOneMore(accesses, n);
        if accesses[n].write {
          timeline.NoteWrite(accesses[n].address, |accesses[n].data|);
        }
      }
      assert accesses[..|accesses|] == accesses;
    }

    /**
     Replay n instructions from the one the machine stands before.  The engine may go on to the code
     hook of the next instruction before it stops, where a stub's own hook runs once more.
     */
    method ReplayForward(n: int, ghost c: nat) returns (trace: seq<int>, sightings: seq<Sighting>)
      requires Replays() && n >= 0 && c + n < |hist| && Start() <= c && uc.st == hist[c].m && replayIcount == c
      requires forall j :: c < j < c + n ==> !hist[j].edited
      modifies `left, `replayIcount, uc, timeline`dirty
      ensures Replays() && replayIcount == c + n && (old(Kept(0)) ==> Kept(0))
      ensures n == 0 || !hist[c + n].edited ==> uc.st == hist[c + n].m
      ensures timeline.dirty == old(timeline.dirty) + (if timeline.enabled then HeardIn(cpu, hist, c, c + n) else {})
      ensures trace == PcsIn(hist, c, c + n)
      ensures forall s :: s in sightings <==> Sighted(s, c, c + n)
    {
      hide Kept, Replays, Watched, HeardIn, Heard, PcsIn, Next;
      trace, sightings := [], [];
      NoStretch(cpu, hist, c);
      if n == 0 {
        return;
      }
      left := n;
      var done := 0;
      while left != 0
        invariant Replays() && (old(Kept(0)) ==> Kept(0)) && 0 <= done <= n && left == n - done
        invariant replayIcount == c + done
        invariant uc.st == if done == 0 then hist[c].m else Next(cpu, hist[c + done - 1]).m
        invariant timeline.dirty == old(timeline.dirty) +
          (if timeline.enabled then HeardIn(cpu, hist, c, c + done) else {})
        invariant trace == PcsIn(hist, c, c + done)
        invariant forall s :: s in sightings <==> Sighted(s, c, c + done)
        decreases left
      {
        ReplayedSoFar(c + done, c);
        StretchMore(cpu, hist, c, c + done);
        trace := trace + [uc.st.ctx.Pc()];
        left := left - 1;
        replayIcount := replayIcount + 1;
        var more := ReplayTurn(c + done);
        sightings := sightings + more;
        done := done + 1;
      }
      ReplayedSoFar(c + n, c);
      var overrun: bool := *;
      if overrun && cpu.exec(uc.st).Service? && cpu.exec(uc.st).stub {
        ReplayAgain(c + n);
      }
    }

    lemma ReplayedSoFar(j: nat, c: nat)
      requires Replays() && c <= j < |hist|
      ensures c < j && !hist[j].edited ==> hist[j] == Next(cpu, hist[j - 1])
    {
      hide Logged;
      if c < j {
        StepOfRun(cpu, hist, j - 1);
      }
    }

    /** A watchpoint sees this access of an instruction in [lo, hi). */
    ghost predicate Sighted(s: Sighting, lo: nat, hi: nat)
      requires hi <= |hist|
      reads `hist, bps`table
    {
      lo <= s.at < hi && s.access in AccessesOf(cpu, hist[s.at]) && Watched(bps.table, s.num, s.access)
    }

    /** A stub's hook where the replay stops looks up the instruction before, and does what is written for it again. */
    method ReplayAgain(ghost k: nat)
      requires Replays() && Start() < k < |hist| && uc.st == Next(cpu, hist[k - 1]).m && replayIcount == k
      modifies uc
      ensures Replays() && uc.st == old(uc.st) && (old(Kept(0)) ==> Kept(0))
    {
      hide Logged, Placed, Anchored, Ordered, NBytes, Over, Tallied, Named, InOrder, IsRun, WellFormed, Indexes, Sorted,
        Addressed, Orderly, LoggedAt, DoAll, PutAll;
      RunWellFormed(cpu, hist);
      StepOfRun(cpu, hist, k - 1);
      LogLookup(cpu, hist, log.entries, log.byIcount, Start(), k - 1);
      if k - 1 in log.byIcount {
        ReplayIsNext(cpu, hist, log.byIcount[k - 1], k - 1);
      }
      var effect := log.Replay(replayIcount - 1);
    }

    // ---- going back ----

    /** The checkpoint that going back to k uses tells the run as it was, and a restore reproduces it. */
    ghost predicate Reaches(k: nat)
      reads `hist, timeline`base, timeline`checkpoints
    {
      timeline.base.Some? && ReachesIn(timeline.base.value, timeline.checkpoints, hist, k)
    }

    /** In a sound history with a covered base that is all of it. */
    lemma ToldReaches(since: nat, k: nat)
      requires Kept(0) && Told(since) && Covered() && timeline.base.Some? && Start() <= k
      requires forall i: nat :: Latest(timeline.base.value, timeline.checkpoints, k, i) ==>
        IcountOf(timeline.base.value, timeline.checkpoints, i) >= since
      ensures Reaches(k)
    {
      hide Replays, Placed, Anchored, Ordered, NBytes, Over, Remaps, ReachesIn, Faithful, Latest;
      FaithfulReaches(timeline.base.value, timeline.checkpoints, timeline.interval, hist, since, k);
    }

    lemma KeptOrdered(ahead: int)
      requires Kept(ahead)
      ensures timeline.base.Some? ==> Ordered(timeline.base.value, timeline.checkpoints, timeline.interval)
    {
    }

    /** Every instruction before `until` that could be gone back to with these books can be now. */
    ghost predicate ReachesAll(a: Book<L>, until: int)
      reads `hist, timeline`base, timeline`checkpoints
    {
      forall k: nat :: k < until && a.base.Some? && ReachesIn(a.base.value, a.checkpoints, a.hist, k) ==> Reaches(k)
    }

    /** What could be gone back to before can be still, when the books retain it and nothing was folded away. */
    lemma StillReaches(a: Book<L>, until: int)
      requires a.base.Some? ==> Ordered(a.base.value, a.checkpoints, timeline.interval)
      requires timeline.base.Some? ==> Ordered(timeline.base.value, timeline.checkpoints, timeline.interval)
      requires Retains(a, Books(), until) && a.dropped == timeline.dropped
      ensures ReachesAll(a, until - 1)
    {
      hide Ordered, ExactAt, Resets;
      forall k: nat | k < until - 1 && a.base.Some? && ReachesIn(a.base.value, a.checkpoints, a.hist, k)
        ensures Reaches(k)
      {
        var i: nat :| Latest(a.base.value, a.checkpoints, k, i) && ExactAt(a.base.value, a.checkpoints, a.hist, i) &&
          Resets(a.base.value, a.checkpoints[..i]);
        RetainedReaches(a, Books(), timeline.interval, until, k, i);
      }
    }

    /**
     Otherwise it is what checkpoints that are true serve, when they have their images, or nothing was
     folded, or the base is covered.
     */
    lemma TrueServes(k: nat, i: nat)
      requires Kept(0) && timeline.base.Some? && Latest(timeline.base.value, timeline.checkpoints, k, i)
      requires var c := IcountOf(timeline.base.value, timeline.checkpoints, i);
        && TrueAt(timeline.base.value, timeline.checkpoints, hist, c)
        && (FullAt(timeline.base.value, timeline.checkpoints, c) ||
          ResetsAt(timeline.base.value, timeline.checkpoints, c) || Covered())
      ensures Reaches(k)
    {
      hide Replays, Placed, Anchored, Ordered, NBytes, Over, Remaps, ReachesIn, TrueAt, FullAt, ResetsAt;
      TrueReaches(timeline.base.value, timeline.checkpoints, timeline.interval, hist, k, i);
    }

    /** Whether instruction k can be gone back to. */
    predicate InReach(k: int)
      reads timeline
    {
      timeline.Recording() && timeline.Earliest() <= k <= timeline.icount
    }

    /** Restore the checkpoint that serves k; c is its instruction. */
    method RestoreState(k: nat, ghost ahead: int) returns (c: nat, ghost i: nat)
      requires Kept(ahead) && ahead <= 0 && InReach(k) && Reaches(k)
      modifies `replayIcount, uc
      ensures Replays() && Kept(ahead) && replayIcount == c
      ensures Latest(timeline.base.value, timeline.checkpoints, k, i)
      ensures c == IcountOf(timeline.base.value, timeline.checkpoints, i)
      ensures Start() <= c <= k < |hist| && k - c <= timeline.interval && uc.st == hist[c].m
      ensures forall j :: c < j <= k ==> !hist[j].edited
    {
      hide Logged, Placed, NBytes, Over, Tallied, Named, InOrder, IsRun, WellFormed, Indexes, Sorted, Addressed,
        Orderly, Snapshot, Ordered, Anchored, ExactAt, Resets, ReachesIn;
      ghost var base, cs := timeline.base.value, timeline.checkpoints;
      var found := timeline.Restore(k);
      i := found.value;
      NoEditSince(base, cs, timeline.interval, hist, k, i);
      IcountOrder(base, cs, timeline.interval, 0, i);
      NewestFirst(base, cs);
      ReplayIsShort(base, cs, timeline.interval, k, i);
      ReachesBy(base, cs, timeline.interval, hist, k, i);
      ExactRestores(base, cs, hist, i, old(uc.st));
      c := Newest(timeline.base.value, timeline.checkpoints[..found.value]).icount;
      replayIcount := c;
    }

    /** The recorder goes back to the checkpoint restored, and on to k once the replay has got there. */
    method ReplayTo(k: nat, ghost ahead: int) returns (ghost c: nat, ghost i: nat)
      requires Kept(ahead) && ahead <= 0 && InReach(k) && Reaches(k)
      modifies `left, `replayIcount, uc, timeline
      ensures Replays() && timeline.Valid() && uc.st == hist[k].m
      ensures timeline.base == old(timeline.base) && timeline.dropped == old(timeline.dropped) && timeline.icount == k
      ensures Start() <= c <= k < |hist| && k - c <= timeline.interval
      ensures forall j :: c < j <= k ==> !hist[j].edited
      ensures timeline.dirty == HeardIn(cpu, hist, c, k)
      ensures Latest(timeline.base.value, old(timeline.checkpoints), k, i)
      ensures c == IcountOf(timeline.base.value, old(timeline.checkpoints), i)
      ensures timeline.checkpoints == old(timeline.checkpoints)[..i]
    {
      hide Logged, Placed, NBytes, Over, Tallied, Named, InOrder, IsRun, WellFormed, Indexes, Sorted, Addressed,
        Orderly, Faithful, Snapshot, Ordered, Anchored;
      var at: nat;
      at, i := RestoreState(k, ahead);
      c := at;
      timeline.Truncate(at, i);
      var trace, sightings := ReplayForward(k - at, at);
      timeline.AdvanceTo(k);
    }

    /** Time travel: the run ends at instruction k again.  False, with nothing done, for a k that is not recorded. */
    method Go(k: int, ghost ahead: int) returns (ok: bool, ghost c: nat, ghost n: nat)
      requires Kept(ahead) && ahead <= 0 && (InReach(k) ==> Reaches(k))
      modifies `hist, `layer, `blind, `stop, `pending, `left, `replayIcount, `terminated, uc, timeline, log,
               bps`table, bps`hits
      ensures ok == old(InReach(k))
      ensures !ok ==> hist == old(hist) && uc.st == old(uc.st) && terminated == old(terminated) && Kept(ahead)
      ensures !ok ==> bps.table == old(bps.table) && bps.hits == old(bps.hits)
      ensures ok ==> Kept(0) && AtRest() && stop.None? && pending.None?
      ensures ok ==> Retains(old(Books()), Books(), k + 1) && forall j: nat :: j <= k && old(Reaches(j)) ==> Reaches(j)
      ensures ok ==> forall since: nat :: old(Told(since)) ==> Told(since)
      ensures ok ==> 0 <= k < |old(hist)| && hist == old(hist)[..k + 1]
      ensures ok ==> timeline.base == old(timeline.base) && timeline.dropped == old(timeline.dropped)
      ensures ok ==> terminated == (old(terminated) && k == |old(hist)| - 1 + ahead)
      ensures ok ==> UpTo(old(bps.hits), k, n) && bps.hits == old(bps.hits)[..n]
      ensures ok ==> Counts(bps.table, old(bps.table), old(bps.hits)[n..])
      ensures ok ==>
        Start() <= c <= k && k - c <= timeline.interval && timeline.StalePages() <= CallPagesIn(cpu, hist, c, k)
      ensures ok ==> (Informed() <==> timeline.StalePages() == {})
    {
      hide Kept, Told, Reaches, Retains, Counts, UpTo, CallPagesIn, Stale;
      ok := InReach(k);
      c, n := 0, 0;
      if !ok {
        return;
      }
      KeptCount(ahead);
      var was := timeline.icount;
      c, n := Revert(k, ahead);
      if k < was {
        terminated := false;
      }
    }

    /**
     Restore, replay, and take back from the run, the recorder, the layer, the log and the hits what comes
     after k.
     */
    method Revert(k: nat, ghost ahead: int) returns (ghost c: nat, ghost n: nat)
      requires Kept(ahead) && ahead <= 0 && InReach(k) && Reaches(k)
      modifies `hist, `layer, `blind, `stop, `pending, `left, `replayIcount, uc, timeline, log, bps`table, bps`hits
      ensures Kept(0) && AtRest() && stop.None? && pending.None?
      ensures Retains(old(Books()), Books(), k + 1) && forall j: nat :: j <= k && old(Reaches(j)) ==> Reaches(j)
      ensures forall since: nat :: old(Told(since)) ==> Told(since)
      ensures k < |old(hist)| && hist == old(hist)[..k + 1]
      ensures timeline.base == old(timeline.base) && timeline.dropped == old(timeline.dropped)
      ensures UpTo(old(bps.hits), k, n) && bps.hits == old(bps.hits)[..n]
      ensures Counts(bps.table, old(bps.table), old(bps.hits)[n..])
      ensures Start() <= c <= k && k - c <= timeline.interval && timeline.StalePages() <= CallPagesIn(cpu, hist, c, k)
      ensures Informed() <==> timeline.StalePages() == {}
    {
      hide Logged, Placed, NBytes, Over, Tallied, Named, InOrder, IsRun, WellFormed, Indexes, Sorted, Addressed,
        Orderly, Faithful, Snapshot, Ordered, Anchored, Stale, HeardIn, CallPagesIn, ReachesIn, Retains, Remaps, Latest,
        Counts, UpTo, NoneAfter, NoneBefore;
      ghost var cs, i := timeline.checkpoints, 0;
      c, i := ReplayTo(k, ahead);
      stop, pending := None, None;
      n := DropAfter(k, cs, c, i);
    }

    /** The machine is at k again and so is the recorder, which had checkpoints cs; the rest goes back with it. */
    method DropAfter(k: nat, ghost cs: seq<Checkpoint>, ghost c: nat, ghost i: nat) returns (ghost n: nat)
      requires Replays() && timeline.Valid() && timeline.base.Some? && k < |hist| && uc.st == hist[k].m && Start() <= k
      requires layer == hist[|hist| - 1].layer && Overlooked() && hist[0].m.mem.Keys <= timeline.base.value.pages.Keys
      requires var base := timeline.base.value;
        && Ordered(base, cs, timeline.interval) && Placed(base, cs, hist) && Anchored(base, cs, hist)
        && ReachesIn(base, cs, hist, k) && Latest(base, cs, k, i) && c == IcountOf(base, cs, i)
      requires timeline.checkpoints == cs[..i] && timeline.icount == k && timeline.dirty == HeardIn(cpu, hist, c, k)
      requires c <= k && forall j :: c < j <= k ==> !hist[j].edited
      modifies `hist, `layer, `blind, log`entries, log`byIcount, bps`table, bps`hits
      ensures Kept(0) && AtRest() && hist == old(hist)[..k + 1]
      ensures Retains(Book(timeline.base, cs, timeline.dropped, old(hist)), Books(), k + 1)
      ensures forall j: nat :: j <= k && ReachesIn(timeline.base.value, cs, old(hist), j) ==> Reaches(j)
      ensures forall since: nat :: Faithful(timeline.base.value, cs, old(hist), since) ==> Told(since)
      ensures UpTo(old(bps.hits), k, n) && bps.hits == old(bps.hits)[..n]
      ensures Counts(bps.table, old(bps.table), old(bps.hits)[n..])
      ensures timeline.StalePages() <= CallPagesIn(cpu, hist, c, k) && (Informed() <==> timeline.StalePages() == {})
    {
      hide Logged, Placed, NBytes, Over, Tallied, Named, InOrder, IsRun, WellFormed, Indexes, Sorted, Addressed,
        Orderly, Faithful, Snapshot, Ordered, Anchored, Stale, HeardIn, CallPagesIn, ReachesIn, ExactAt, Retains,
        Remaps, Latest, Resets, Counts, UpTo, NoneAfter, NoneBefore;
      ghost var h, base := hist, timeline.base.value;
      n := RewindLayers(k);
      hist := h[..k + 1];
      blind := set j | j in blind && j < k;
      BlindBefore(h, old(blind), k);
      ReachesBy(base, cs, timeline.interval, h, k, i);
      GoneBack(cpu, base, cs, timeline.interval, h, k, i);
      AsGoodAsBefore(h, cs, k, i);
    }

    lemma BlindBefore(h: seq<World<L>>, was: set<nat>, k: nat)
      requires k < |h| && hist == h[..k + 1] && blind == (set j | j in was && j < k) && forall j :: j in was ==>
        Remaps(cpu, h, j)
      ensures Overlooked()
    {
      hide Remaps;
      forall j | j in blind
        ensures Remaps(cpu, hist, j)
      {
        RemapsElsewhere(cpu, h, hist, j);
      }
    }

    /** What is left after going back to k can be gone back to as before. */
    lemma AsGoodAsBefore(h: seq<World<L>>, cs: seq<Checkpoint>, k: nat, i: nat)
      requires timeline.base.Some? && Ordered(timeline.base.value, cs, timeline.interval)
      requires Latest(timeline.base.value, cs, k, i)
      requires k < |h| && hist == h[..k + 1] && timeline.checkpoints == cs[..i]
      ensures Retains(Book(timeline.base, cs, timeline.dropped, h), Books(), k + 1)
      ensures forall j: nat :: j <= k && ReachesIn(timeline.base.value, cs, h, j) ==> Reaches(j)
    {
      hide Ordered, ReachesIn, Retains, Latest;
      CutRetains(Book(timeline.base, cs, timeline.dropped, h), timeline.interval, k, i);
      forall j: nat | j <= k && ReachesIn(timeline.base.value, cs, h, j)
        ensures Reaches(j)
      {
        CutReaches(timeline.base.value, cs, timeline.interval, h, k, i, j);
      }
    }

    /** Drop what now has not happened: calls from k on, with the layer's state put back, and hits after k. */
    method RewindLayers(k: nat) returns (ghost n: nat)
      requires Replays() && k < |hist| && Start() <= k && layer == hist[|hist| - 1].layer
      modifies `layer, log`entries, log`byIcount, bps`table, bps`hits
      ensures log.Valid() && bps.Valid() && Logged(cpu, hist[..k + 1], log.entries, Start())
      ensures layer == hist[k].layer
      ensures NoneAfter(bps.hits, k) && NoneBefore(bps.hits, Forgotten())
      ensures UpTo(old(bps.hits), k, n) && bps.hits == old(bps.hits)[..n]
      ensures Counts(bps.table, old(bps.table), old(bps.hits)[n..])
    {
      hide Logged, Tallied, Named, IsRun, WellFormed, Indexes, Addressed, Orderly;
      ghost var m := SplitOf(log.entries, k);
      LogCutBack(cpu, hist, log.entries, Start(), k, m);
      var restore := log.Truncate(k, m);
      if restore.Some? {
        layer := restore.value;
      }
      n := HitsUpTo(bps.hits, k);
      bps.UndoHits(k, n);
    }

    /**
     A run and then back to instruction k of it, in a program that never maps more than it starts with:
     the log and the counts are those the run had at k, and back where it set out they are as they were,
     apart from a temporary breakpoint that stopped it.
     */
    method RunThenBack(count: nat, patience: nat, k: nat) returns (ok: bool, ev: StopEvent, ghost run: seq<World<L>>)
      requires Kept(0) && AtRest() && Sound(0) && Covered() && timeline.enabled && !terminated && |hist| - 1 <= k
      requires forall h :: RunsOn(hist, h) && IsRun(cpu, h) ==> NoGrowth(h, 0) && forall j: nat :: !Remaps(cpu, h, j)
      modifies this, uc, timeline, log, bps
      ensures RunsOn(old(hist), run)
      ensures ok ==> Kept(0) && AtRest() && k < |run| && hist == run[..k + 1]
      ensures ok && k < |run| - 1 ==>
        var g := old(Posted());
        Reckoned(Left(g.table, ev), old(bps.hits), g.Hits(g.Until(run, |old(hist)| - 1, k)), Forgotten(), bps.table,
          bps.hits)
      ensures ok && k == |old(hist)| - 1 < |run| - 1 ==>
        bps.table == Left(old(bps.table), ev) && bps.hits == Since(old(bps.hits), Forgotten())
    {
      hide Kept, Replays, Sound, Covered, Retains, Accounted, Unstopped, RunsOn, NoGrowth, Remaps, Counts, UpTo, Since,
        IsRun, Settled, ReachesAll, HitsOf, Guards.Through, Guards.Until, CallPagesIn, Along, FetchFaults, Ends,
        Temporary, Left, Reckoned, Reaches, Books, NotJustTaken;
      ghost var h0, g, hits0 := hist, Posted(), bps.hits;
      KeptCount(0);
      var stopped := Emulate(count, patience, 0);
      ok, ev, run := false, stopped.value, hist;
      if ev == Failed(true) {
        return;
      }
      KeptCount(0);
      RunsOnLonger(h0, run);
      InReachAll(|h0| - 1, k);
      ghost var table, hits, since := bps.table, bps.hits, Forgotten();
      assert Reckoned(Left(g.table, ev), hits0, g.Hits(Happened(g, run, |h0|, ev.AtBreakpoint? || ev == Failed(false))),
        since, table, hits) by {
        SettledMeans(g, hits0, |h0|, ev);
      }
      ghost var c, n;
      ok, c, n := Go(k, 0);
      if ok && k < |run| - 1 {
        HitsTakenBack(g, run, |h0|, ev, hits0, table, hits, k, n);
      }
    }

    lemma SettledMeans(g: Guards<L>, hits0: seq<Hit>, start: nat, ev: StopEvent)
      requires Settled(g, hits0, start, ev)
      ensures Reckoned(Left(g.table, ev), hits0,
        g.Hits(Happened(g, hist, start, ev.AtBreakpoint? || ev == Failed(false))),
        Forgotten(), bps.table, bps.hits)
    {
    }

    /** Where nothing new is ever mapped, everything in reach can be gone back to. */
    lemma InReachAll(from: int, k: nat)
      requires Kept(0) && timeline.enabled && Tracks(true, true, 0, 0, from, 0) && from >= 0
      requires NoGrowth(hist, 0) && forall j: nat :: !Remaps(cpu, hist, j)
      ensures InReach(k) ==> Reaches(k)
    {
      hide Kept, Told, Informed, Reaches, Remaps, NoGrowth;
      NothingHidden(0, 0);
      NothingNew();
      if InReach(k) {
        ToldReaches(0, k);
      }
    }

    lemma HitsTakenBack(g: Guards<L>, run: seq<World<L>>, start: nat, ev: StopEvent, hits0: seq<Hit>, t1: Table,
                        hits1: seq<Hit>, k: nat, n: nat)
      requires 1 <= start <= k + 1 && k < |run| - 1 && NoneAfter(hits0, start - 1) && Forgotten() <= k
      requires Reckoned(Left(g.table, ev), hits0,
        g.Hits(Happened(g, run, start, ev.AtBreakpoint? || ev == Failed(false))),
        Forgotten(), t1, hits1)
      requires UpTo(hits1, k, n) && bps.hits == hits1[..n] && Counts(bps.table, t1, hits1[n..])
      ensures Reckoned(Left(g.table, ev), hits0, g.Hits(g.Until(run, start - 1, k)), Forgotten(), bps.table, bps.hits)
      ensures k == start - 1 ==> bps.table == Left(g.table, ev) && bps.hits == Since(hits0, Forgotten())
    {
      hide Counts, Since, UpTo, Guards.Through, Guards.Begun, Guards.Until, NoneAfter, Reckoned;
      var from := start - 1;
      var last := if ev.AtBreakpoint? || ev == Failed(false) then g.Begun(run[|run| - 1].m, from, |run| - 1) else [];
      assert g.Through(run, from, |run| - 1) + [] == g.Through(run, from, |run| - 1);
      BegunKnown(g, run[|run| - 1].m, from, |run| - 1);
      TakenBack(g, run, from, last, hits0, Left(g.table, ev), Forgotten(), t1, hits1, k, n, bps.table);
      if k == from {
        NothingYet(g, run, from, hits0, Left(g.table, ev));
      }
    }

    lemma NothingYet(g: Guards<L>, run: seq<World<L>>, from: nat, hits0: seq<Hit>, t: Table)
      requires from < |run| && Reckoned(t, hits0, g.Hits(g.Until(run, from, from)), Forgotten(), bps.table, bps.hits)
      ensures bps.table == t && bps.hits == Since(hits0, Forgotten())
    {
      assert g.Until(run, from, from) == [];
      CountsNothing(t, bps.table);
      assert hits0 + [] == hits0;
    }

    // ---- searching backwards ----

    ghost predicate AtCheckpoint(lo: nat)
      reads timeline`base, timeline`checkpoints
    {
      timeline.base.Some? && HasCheckpoint(timeline.base.value, timeline.checkpoints, lo)
    }

    /** Where the window that ends at hi begins: at the checkpoint that serves hi. */
    method WindowStart(hi: nat) returns (lo: nat)
      requires Kept(0) && InReach(hi)
      ensures Start() <= lo <= hi && AtCheckpoint(lo) && forall j :: lo < j <= hi ==> !hist[j].edited
      ensures Reaches(hi) ==> Reaches(lo)
    {
      hide Logged, Placed, NBytes, Over, Tallied, Named, InOrder, IsRun, WellFormed, Indexes, Sorted, Addressed,
        Orderly, Snapshot, Ordered, Anchored;
      var found := timeline.CheckpointAtOrBefore(hi);
      NoEditSince(timeline.base.value, timeline.checkpoints, timeline.interval, hist, hi, found.value);
      IcountOrder(timeline.base.value, timeline.checkpoints, timeline.interval, 0, found.value);
      NewestFirst(timeline.base.value, timeline.checkpoints);
      if Reaches(hi) {
        ReachesBy(timeline.base.value, timeline.checkpoints, timeline.interval, hist, hi, found.value);
      }
      lo := Newest(timeline.base.value, timeline.checkpoints[..found.value]).icount;
      assert IcountOf(timeline.base.value, timeline.checkpoints, found.value) == lo;
    }

    /** Replay from the checkpoint at lo through hi; the machine is left wherever that ends. */
    method Window(lo: nat, hi: nat) returns (trace: seq<int>, sightings: seq<Sighting>)
      requires Kept(0) && Reaches(lo) && InReach(lo) && AtCheckpoint(lo) && lo <= hi < |hist| - 1
      requires forall j :: lo < j <= hi ==> !hist[j].edited
      modifies `left, `replayIcount, uc, timeline`dirty
      ensures Kept(0)
      ensures trace == PcsIn(hist, lo, hi + 1)
      ensures forall s :: s in sightings <==> Sighted(s, lo, hi + 1)
    {
      hide Replays, Watched, Faithful, Placed, Anchored, Ordered, NBytes;
      var c, i := RestoreState(lo, 0);
      LatestThere(timeline.base.value, timeline.checkpoints, timeline.interval, lo, i);
      trace, sightings := ReplayForward(hi - c + 1, c);
    }

    /** The program counter at each instruction from the checkpoint at lo up to hi. */
    method HistoryPcs(lo: nat, hi: nat) returns (pcs: map<nat, int>)
      requires Kept(0) && Reaches(lo) && InReach(lo) && AtCheckpoint(lo) && lo <= hi < |hist| - 1
      requires forall j :: lo < j <= hi ==> !hist[j].edited
      modifies `left, `replayIcount, uc, timeline`dirty
      ensures Kept(0)
      ensures forall j :: lo <= j <= hi ==> j in pcs && pcs[j] == hist[j].m.ctx.Pc()
    {
      hide Kept, Watched, Faithful;
      var trace, sightings := Window(lo, hi);
      pcs := map[];
      for n := 0 to |trace|
        invariant forall j :: lo <= j < lo + n ==> j in pcs && pcs[j] == hist[j].m.ctx.Pc()
      {
        pcs := pcs[lo + n := trace[n]];
      }
    }

    /**
     Where a reverse step-over lands.  The depth is counted from where the run stands, over one window
     after another.
     */
    method PrevOver(ghost from: nat) returns (r: nat)
      requires Kept(0) && timeline.Recording() && Start() <= from
      requires from == Start() || (from < |hist| - 1 && Depth(flow, hist, from) <= Depth(flow, hist, |hist| - 1))
      requires forall j: nat :: from <= j < |hist| - 1 ==> Reaches(j)
      modifies `left, `replayIcount, uc, timeline`dirty
      ensures Kept(0) && IsPrevOver(flow, hist, Start(), |hist| - 1, r)
    {
      hide Kept, Replays, Depth, Reaches;
      KeptCount(0);
      var cur: int, earliest: int := timeline.icount, timeline.Earliest();
      var rel := 0;
      var hi: int := cur - 1;
      while hi >= earliest
        invariant Kept(0) && earliest <= hi + 1 <= cur
        invariant rel == Depth(flow, hist, hi + 1) - Depth(flow, hist, cur)
        invariant forall j :: hi < j < cur ==> Depth(flow, hist, j) > Depth(flow, hist, cur)
      {
        assert Reaches(hi);
        var lo := WindowStart(hi);
        var pcs := HistoryPcs(lo, hi);
        var j: int := hi;
        while j >= lo
          invariant Kept(0) && lo <= j + 1 <= hi + 1
          invariant rel == Depth(flow, hist, j + 1) - Depth(flow, hist, cur)
          invariant forall n :: j < n < cur ==> Depth(flow, hist, n) > Depth(flow, hist, cur)
        {
          DepthStep(flow, hist, j);
          rel := rel + DepthDelta(flow(pcs[j]));
          if rel <= 0 {
            return j;
          }
          j := j - 1;
        }
        hi := lo - 1;
      }
      r := earliest;
    }

    /** The enabled execute breakpoint that stands for each address, and whether anything is watched. */
    method Live() returns (byAddress: map<int, nat>, watched: bool)
      requires bps.Valid()
      ensures StandFor(byAddress, bps.table)
      ensures watched <==> AnyWatched(bps.table)
    {
      hide Tallied, Addressed, InOrder, Named;
      NumbersBelow(bps.table, bps.next, bps.hits);
      byAddress, watched := map[], false;
      for num := 0 to bps.next
        invariant forall a :: a in byAddress ==>
          byAddress[a] < num && byAddress[a] in bps.table && StandsAt(bps.table[byAddress[a]], a)
        invariant forall n :: 0 <= n < num && n in bps.table && bps.table[n].enabled && bps.table[n].kind == Execute ==>
          bps.table[n].address in byAddress && n <= byAddress[bps.table[n].address]
        invariant watched <==>
          exists n :: 0 <= n < num && n in bps.table && bps.table[n].enabled && bps.table[n].kind != Execute
      {
        if num in bps.table && bps.table[num].enabled {
          if bps.table[num].kind == Execute {
            byAddress := byAddress[bps.table[num].address := num];
          } else {
            watched := true;
          }
        }
      }
    }

    /** All that breakpoints mark in the window from lo to hi, oldest first. */
    method ScanBack(lo: nat, hi: nat, byAddress: map<int, nat>, watched: bool) returns (out: seq<Candidate>)
      requires Kept(0) && Reaches(lo) && InReach(lo) && AtCheckpoint(lo) && lo <= hi < |hist| - 1
      requires forall j :: lo < j <= hi ==> !hist[j].edited
      requires watched <==> AnyWatched(bps.table)
      modifies `left, `replayIcount, uc, timeline`dirty
      ensures Kept(0) && OldestFirst(out)
      ensures forall c :: c in out <==> Marked(cpu, hist, byAddress, bps.table, lo, hi, c)
    {
      hide Kept, Faithful, Watched, OldestFirst, SortByAt;
      var trace, observed := Window(lo, hi);
      out := [];
      for i := 0 to |trace|
        invariant forall c :: c in out <==>
          i > 0 && c.access.None? && Marked(cpu, hist, byAddress, bps.table, lo, lo + i - 1, c)
      {
        if trace[i] in byAddress {
          out := out + [Candidate(lo + i, byAddress[trace[i]], None)];
        }
      }
      if watched {
        for i := 0 to |observed|
          invariant forall c :: c in out <==>
            if c.access.None? then Marked(cpu, hist, byAddress, bps.table, lo, hi, c)
            else c.at > 0 && Sighting(c.at - 1, c.num, c.access.value) in observed[..i]
        {
          assert observed[..i + 1] == observed[..i] + [observed[i]];
          out := out + [Candidate(observed[i].at + 1, observed[i].num, Some(observed[i].access))];
        }
        assert observed[..|observed|] == observed;
      } else {
        NothingWatched(bps.table);
      }
      SortSorts(out);
      out := SortByAt(out);
    }

    /** A backward search set out from the run in s and has forgotten at most the end of it. */
    ghost predicate Searching(s: Search<L>)
      reads `hist, `layer, `blind, uc, timeline, log, bps
    {
      && Kept(0) && timeline.Recording() && Findable(s)
      && (forall j: nat :: s.from <= j < |hist| && j < |s.hist| - 1 ==> Reaches(j))
      && s.cpu == cpu && s.holds == holds && s.earliest == Start()
      && Extends(hist, s.hist) && Undoing(s)
    }

    /** What lies after the end of the run now is off the log and off the counts, and nothing else. */
    ghost predicate Undoing(s: Search<L>)
      reads `hist, bps`table, bps`hits
    {
      && hist != [] && UpTo(s.hits, |hist| - 1, |bps.hits|) && bps.hits == s.hits[..|bps.hits|]
      && Counts(bps.table, s.table, s.hits[|bps.hits|..])
    }

    lemma UndoingSame(s: Search<L>)
      requires Undoing(s)
      ensures SameButCounts(s.table, bps.table) && SameButCounts(bps.table, s.table)
    {
    }

    /** Go to a candidate, still searching. */
    method Visit(at: nat, ghost s: Search<L>)
      requires Searching(s) && Start() <= at < |hist| && s.from <= at < |s.hist| - 1
      modifies `hist, `layer, `blind, `stop, `pending, `left, `replayIcount, `terminated, uc, timeline, log, bps`table,
        bps`hits
      ensures Searching(s) && AtRest() && timeline.base == old(timeline.base)
      ensures |hist| == at + 1 <= |s.hist| && hist == s.hist[..at + 1] && NoneAfter(bps.hits, at)
    {
      hide Kept, Replays, Stale, Counts, UpTo, Extends, CallPagesIn, Reaches, Findable, Retains;
      ghost var table, hits, h := bps.table, bps.hits, hist;
      KeptCount(0);
      var ok, c, n := Go(at, 0);
      ExtendsBack(h, s.hist, at);
      CutTwice(h, s.hist, at);
      ExtendsLonger(hist, s.hist);
      UndoMore(s.hits, s.table, hits, table, bps.table, |h| - 1, at, n);
      KeptCount(0);
    }

    /**
     The newest candidate before `cur` to land on.  To evaluate a condition the machine goes there, and
     the run forgets what came after.
     */
    method FirstThatHolds(candidates: seq<Candidate>, cur: nat, ghost lo: nat, ghost hi: nat, ghost s: Search<L>)
      returns (found: Option<Candidate>)
      requires Searching(s) && OldestFirst(candidates) && cur == |s.hist| - 1 && Start() <= lo < |hist|
      requires s.earliest <= lo <= hi <= |s.hist| - 2 && Empty(s, hi + 1, |s.hist| - 2)
      requires forall c :: c in candidates <==> Marked(s.cpu, s.hist, s.byAddress, s.table, lo, hi, c)
      requires forall c :: c in candidates ==> c.num in s.table && lo <= c.at && (c.at < cur ==> c.at < |hist|)
      modifies `hist, `layer, `blind, `stop, `pending, `left, `replayIcount, `terminated, uc, timeline, log, bps`table,
        bps`hits
      ensures Searching(s) && timeline.base == old(timeline.base) && lo < |hist|
      ensures BestOf(s, candidates, found) && (found.Some? ==> found.value.at < |hist|)
    {
      hide Searching, Lands, OldestFirst, Marked, Empty, Findable;
      var n := |candidates|;
      while n > 0
        invariant 0 <= n <= |candidates|
        invariant Searching(s) && timeline.base == old(timeline.base) && lo < |hist|
        invariant forall i :: 0 <= i < n ==> candidates[i].at < cur ==> candidates[i].at < |hist|
        invariant forall i :: n <= i < |candidates| ==> !Lands(s, candidates[i])
      {
        n := n - 1;
        var c := candidates[n];
        assert c in candidates;
        NoLater(candidates, n);
        SearchFacts(s, c);
        if c.at >= cur || c.at < timeline.Earliest() {
          continue;
        }
        SearchedRun(s);
        StillToVisit(s, lo, hi, candidates, n);
        if bps.table[c.num].condition.None? {
          return Some(c);
        }
        Visit(c.at, s);
        SearchFacts(s, c);
        if Passes(holds, bps.table[c.num], uc.st, c.access) {
          return Some(c);
        }
      }
      found := None;
    }

    lemma SearchFacts(s: Search<L>, c: Candidate)
      requires Searching(s) && c.num in s.table
      ensures c.num in bps.table && timeline.Earliest() == Start()
      ensures c.at >= |s.hist| - 1 || c.at < Start() ==> !Lands(s, c)
      ensures Start() <= c.at < |s.hist| - 1 ==>
        (Lands(s, c) <==> Passes(holds, bps.table[c.num], s.hist[c.at].m, c.access))
    {
      hide Kept, Reaches, Findable, Undoing;
      UndoingSame(s);
      SameCondition(s.table, bps.table);
    }

    /** The window that ends at hi and what is marked in it. */
    method Scan(hi: nat, standing: map<int, nat>, watched: bool, ghost s: Search<L>)
      returns (lo: nat, candidates: seq<Candidate>)
      requires Searching(s) && Start() <= hi && s.from <= hi && hi + 1 < |hist| && s.byAddress == standing
      requires (watched <==> AnyWatched(s.table))
      modifies `left, `replayIcount, uc, timeline`dirty
      ensures Searching(s) && Start() <= lo <= hi < |s.hist| && OldestFirst(candidates)
      ensures forall c :: c in candidates <==> Marked(cpu, s.hist, standing, s.table, lo, hi, c)
    {
      hide Kept, Replays, OldestFirst, AnyWatched, Reaches, Findable, Undoing;
      KeptCount(0);
      ExtendsLonger(hist, s.hist);
      assert Reaches(hi);
      lo := WindowStart(hi);
      UndoingSame(s);
      SameCondition(s.table, bps.table);
      candidates := ScanBack(lo, hi, standing, watched);
      MarkedAlike(cpu, s.hist, hist, standing, s.table, bps.table, lo, hi);
    }

    method SearchWindow(hi: nat, cur: nat, standing: map<int, nat>, watched: bool, ghost s: Search<L>)
      returns (found: Option<Candidate>, lo: nat)
      requires Searching(s) && Start() <= hi < cur && hi + 1 < |hist|
      requires s.byAddress == standing && cur == |s.hist| - 1 && StandFor(standing, s.table)
      requires Empty(s, hi + 1, cur - 1) && (watched <==> AnyWatched(s.table))
      modifies `hist, `layer, `blind, `stop, `pending, `left, `replayIcount, `terminated, uc, timeline, log, bps`table,
        bps`hits
      ensures Searching(s) && timeline.base == old(timeline.base) && Start() <= lo <= hi && lo < |hist|
      ensures found.None? ==> Empty(s, lo, cur - 1)
      ensures found.Some? ==> Best(s, found.value) && found.value.at < |hist|
    {
      hide Searching, OldestFirst, Lands, Empty, Best, Landing, BestOf, SameButCounts, AnyWatched, Marked, StandFor,
        Findable;
      var candidates;
      SearchedRun(s);
      StillToSearch(s, hi);
      lo, candidates := Scan(hi, standing, watched, s);
      SearchedRun(s);
      CandidatesKnown(s, lo, hi, candidates);
      found := FirstThatHolds(candidates, cur, lo, hi, s);
      Wider(s, lo, hi, candidates, found);
    }

    lemma SearchedRun(s: Search<L>)
      requires Searching(s)
      ensures s.cpu == cpu && s.earliest == Start() == timeline.Earliest() && Findable(s)
    {
    }

    lemma CandidatesKnown(s: Search<L>, lo: nat, hi: nat, cs: seq<Candidate>)
      requires hi < |s.hist| && StandFor(s.byAddress, s.table)
      requires forall c :: c in cs <==> Marked(s.cpu, s.hist, s.byAddress, s.table, lo, hi, c)
      ensures forall c :: c in cs ==> c.num in s.table && lo <= c.at <= hi + 1
    {
    }

    method SearchBack(cur: nat, standing: map<int, nat>, watched: bool, ghost s: Search<L>)
      returns (found: Option<Candidate>)
      requires Searching(s) && hist == s.hist && cur == |hist| - 1 && cur > Start()
      requires s.byAddress == standing && StandFor(standing, s.table) && (watched <==> AnyWatched(s.table))
      modifies `hist, `layer, `blind, `stop, `pending, `left, `replayIcount, `terminated, uc, timeline, log, bps`table,
        bps`hits
      ensures Searching(s) && timeline.base == old(timeline.base) && Start() < |hist|
      ensures found.None? ==> Empty(s, s.earliest, cur - 1)
      ensures found.Some? ==> Best(s, found.value) && found.value.at < |hist|
    {
      hide Searching, Lands, Empty, Best, Landing, AnyWatched, StandFor, Findable;
      found := None;
      SearchedRun(s);
      if standing == map[] && !watched {
        NothingToFind(s);
        return;
      }
      EmptyBeyond(s, cur);
      var earliest: int, hi: int := timeline.Earliest(), cur - 1;
      while found.None? && hi >= earliest
        invariant Searching(s) && timeline.base == old(timeline.base)
        invariant earliest == Start() <= hi + 1 <= cur && Start() < |hist| && s.earliest == earliest
        invariant found.None? ==> hi + 1 < |hist| && Empty(s, hi + 1, cur - 1)
        invariant found.Some? ==> Best(s, found.value) && found.value.at < |hist|
        decreases hi + 1
      {
        var lo: nat;
        found, lo := SearchWindow(hi, cur, standing, watched, s);
        hi := lo as int - 1;
      }
    }

    /**
     Backwards to the latest place before now that an enabled breakpoint marks, with its condition met
     there: on an execute breakpoint's instruction, or right after a watched access.  With none, to the
     start of the history.  Only the checkpoints from `from` on have to be good, when something is found
     from there on.
     */
    method ResumeBack(ghost from: nat)
      returns (ok: bool, found: Option<Candidate>, ghost s: Search<L>, ghost n: nat, ghost back: Table)
      requires Kept(0)
      requires InReach(timeline.icount - 1) ==> forall j: nat :: from <= j < |hist| - 1 ==> Reaches(j)
      requires InReach(timeline.icount - 1) ==> forall standing: map<int, nat> :: StandFor(standing, bps.table) ==>
        Findable(Search(cpu, holds, hist, standing, bps.table, bps.hits, Start(), from))
      modifies `hist, `layer, `blind, `stop, `pending, `left, `replayIcount, `terminated, uc, timeline, log,
               bps`table, bps`hits
      ensures ok == old(InReach(timeline.icount - 1))
      ensures !ok ==>
        hist == old(hist) && uc.st == old(uc.st) && bps.table == old(bps.table) && bps.hits == old(bps.hits)
      ensures s.cpu == cpu && s.holds == holds && s.hist == old(hist) && s.table == old(bps.table)
      ensures s.hits == old(bps.hits) && s.earliest == old(Start())
      ensures ok ==> Kept(0) && AtRest() && StandFor(s.byAddress, s.table) && s.earliest <= |s.hist| - 2
      ensures ok && found.None? ==> Empty(s, s.earliest, |s.hist| - 2) && hist == s.hist[..s.earliest + 1]
      ensures ok && found.Some? ==> Best(s, found.value) && hist == s.hist[..found.value.at + 1]
      ensures ok ==> hist != [] && UpTo(s.hits, |hist| - 1, n) && Counts(back, s.table, s.hits[n..])
      ensures ok && found.None? ==> bps.table == back && bps.hits == s.hits[..n]
      ensures ok && found.Some? ==> Arrived(back, s.hits[..n], bps.table, bps.hits, found.value.at, found.value.num)
    {
      hide Kept, Replays, Counts, Extends, Lands, Empty, Landing, AnyWatched, StandFor, Reaches, Findable, Tallied,
        Named, Addressed, InOrder, Undoing, Arrived, UpTo;
      found, s := None, Search(cpu, holds, hist, map[], bps.table, bps.hits, Start(), from);
      n, back := 0, bps.table;
      ok := InReach(timeline.icount - 1);
      if !ok {
        return;
      }
      KeptCount(0);
      var cur := timeline.icount;
      var standing, watched := Live();
      s := Search(cpu, holds, hist, standing, bps.table, bps.hits, Start(), from);
      ExtendsSelf(hist);
      NothingUndone(s);
      found := SearchBack(cur, standing, watched, s);
      StillToLand(s, found);
      if found.None? {
        Visit(timeline.Earliest(), s);
        UndoneSoFar(s);
        n, back := |bps.hits|, bps.table;
      } else {
        BestIsIn(s, found.value);
        Visit(found.value.at, s);
        UndoneSoFar(s);
        n, back := |bps.hits|, bps.table;
        Arrive(found.value, s);
      }
    }

    lemma NothingUndone(s: Search<L>)
      requires hist != [] && NoneAfter(bps.hits, |hist| - 1) && s.table == bps.table && s.hits == bps.hits
      ensures Undoing(s)
    {
      CountsNone(bps.table);
    }

    lemma UndoneSoFar(s: Search<L>)
      requires Searching(s)
      ensures hist != [] && UpTo(s.hits, |hist| - 1, |bps.hits|) && bps.hits == s.hits[..|bps.hits|]
      ensures Counts(bps.table, s.table, s.hits[|bps.hits|..])
    {
    }

    /** Having landed on a breakpoint counts as a hit of it, once. */
    method Arrive(c: Candidate, ghost s: Search<L>)
      requires Searching(s) && AtRest() && |hist| == c.at + 1 && c.num in s.table && NoneAfter(bps.hits, c.at)
      requires c.at >= Start()
      modifies bps`table, bps`hits
      ensures Kept(0) && AtRest() && bps.HitsAt(c.at, c.num)
      ensures Arrived(old(bps.table), old(bps.hits), bps.table, bps.hits, c.at, c.num)
    {
      hide Logged, Placed, Anchored, Ordered, NBytes, Over, Tallied, Named, InOrder, IsRun, Sorted, Indexes, WellFormed,
        Orderly, Reaches, Findable, Extends, Addressed, Remaps, Counts, UpTo, NoneAfter;
      UndoingSame(s);
      bps.Recount(c.at, c.num);
    }

    // ---- edits made through the debugger ----

    /** The run with its last world as the machine is now. */
    ghost function Edited(h: seq<World<L>>): seq<World<L>>
      requires h != []
      reads uc
    {
      h[|h| - 1 := World(uc.st, h[|h| - 1].layer, true)]
    }

    /** The debugger writes memory; false where the engine refuses. */
    method WriteMemory(address: nat, data: seq<Byte>, ghost since: nat) returns (ok: bool)
      requires Kept(0) && AtRest()
      modifies `hist, uc, timeline, log`entries, log`byIcount, bps`hits, bps`settled, bps`allowance
      ensures ok == MemWrite(old(uc.st), address, data).Some?
      ensures Kept(0) && AtRest()
      ensures !ok ==> hist == old(hist)
      ensures ok ==> uc.st == MemWrite(old(uc.st), address, data).value && hist == Edited(old(hist))
      ensures old(Sound(since)) ==> Sound(since)
      ensures Retains(old(Books()), Books(), |hist| - 1)
      ensures old(Covered()) && timeline.dropped == old(timeline.dropped) ==> Covered()
      ensures bps.hits == Since(old(bps.hits), Forgotten())
    {
      hide IsRun, Logged, Placed, Anchored, Ordered, NBytes, Over, Stale, Faithful, WellFormed, Indexes, Sorted,
        Tallied, Named, Orderly, Remaps, Retains, Addressed, InOrder, NoneAfter, NoneBefore, Since, MemWrite, Newest,
        Uncovered;
      RetainsSelf(Books(), |hist| - 1);
      KeptCount(0);
      SinceAll(bps.hits, Forgotten());
      ok := uc.Write(address, data);
      if ok {
        NoteWritten(address, data, old(Sound(since)), since);
      }
    }

    /** The write just made belongs to the run now, and the recorder hears of it. */
    method NoteWritten(address: nat, data: seq<Byte>, ghost sound: bool, ghost since: nat)
      requires Kept(0) && MemWrite(hist[|hist| - 1].m, address, data) == Some(uc.st)
      requires sound ==> Told(since) && (timeline.base.Some? ==>
        Stale(timeline.base.value, timeline.checkpoints, timeline.dirty, hist[|hist| - 1].m) == {})
      modifies `hist, timeline, log`entries, log`byIcount, bps`hits, bps`settled, bps`allowance
      ensures Kept(0) && AtRest() && hist == Edited(old(hist))
      ensures sound ==> Sound(since)
      ensures Retains(old(Books()), Books(), |hist| - 1)
      ensures old(Covered()) && timeline.dropped == old(timeline.dropped) ==> Covered()
      ensures bps.hits == Since(old(bps.hits), Forgotten())
    {
      hide IsRun, Logged, Placed, Anchored, Ordered, NBytes, Over, Stale, Faithful, Snapshot, AfterRecord, WellFormed,
        Indexes, Sorted, Tallied, Named, Orderly, Remaps, Retains, Addressed, InOrder, NoneAfter, NoneBefore, Since,
        MemWrite, PutBytes, Taken, Newest, Unedited, Follows, Uncovered, Touched, Timeline.Recorded, SameButLast;
      ghost var h := hist;
      RunWellFormed(cpu, h);
      MappedSomewhere(h[|h| - 1].m, address, data);
      hist := Edited(hist);
      EditKeepsRun(cpu, h, log.entries, Start(), uc.st);
      BlindEdited(h);
      ghost var base0, cs0, noted0, start0 := timeline.base, timeline.checkpoints, timeline.dirty, Start();
      var folded := timeline.NoteExternalWrite(address, |data|);
      if timeline.enabled && base0.Some? {
        if sound {
          WriteIsNoted(base0.value, cs0, noted0, h[|h| - 1].m, address, data);
        }
        WriteUnedited(h, hist, address, data, noted0 + Touched(address, |data|).Pages());
        EditRecorded(h, base0, cs0, noted0 + Touched(address, |data|).Pages(), timeline.dropped - old(timeline.dropped),
          old(timeline.dropped), sound, since);
      } else {
        NothingToRetain(old(Books()), Books(), |hist| - 1);
      }
      Forget(folded, start0);
    }

    /** A register set through the debugger. */
    method WriteRegister(name: string, value: int, ghost since: nat)
      requires Kept(0) && AtRest()
      modifies `hist, uc, timeline, log`entries, log`byIcount, bps`hits, bps`settled, bps`allowance
      ensures Kept(0) && AtRest() && uc.st == RegWrite(old(uc.st), name, value) && hist == Edited(old(hist))
      ensures old(Sound(since)) && uc.st.spans != {} ==> Sound(since)
      ensures Retains(old(Books()), Books(), |hist| - 1)
      ensures old(Covered()) && timeline.dropped == old(timeline.dropped) ==> Covered()
      ensures bps.hits == Since(old(bps.hits), Forgotten())
    {
      hide IsRun, Logged, Placed, Anchored, Ordered, NBytes, Over, Stale, Faithful, WellFormed, Indexes, Sorted,
        Tallied, Named, Orderly, Overlooked, Retains, Addressed, InOrder, NoneAfter, NoneBefore, Since, Newest,
        Uncovered;
      uc.SetReg(name, value);
      NoteSet(old(Sound(since)), since);
    }

    /** The register just set belongs to the run now, and the recorder hears of it. */
    method NoteSet(ghost sound: bool, ghost since: nat)
      requires Kept(0) && uc.st.mem == hist[|hist| - 1].m.mem && uc.st.spans == hist[|hist| - 1].m.spans
      requires sound ==> Told(since) && (timeline.base.Some? ==>
        Stale(timeline.base.value, timeline.checkpoints, timeline.dirty, hist[|hist| - 1].m) == {})
      modifies `hist, timeline, log`entries, log`byIcount, bps`hits, bps`settled, bps`allowance
      ensures Kept(0) && AtRest() && hist == Edited(old(hist))
      ensures sound && uc.st.spans != {} ==> Sound(since)
      ensures Retains(old(Books()), Books(), |hist| - 1)
      ensures old(Covered()) && timeline.dropped == old(timeline.dropped) ==> Covered()
      ensures bps.hits == Since(old(bps.hits), Forgotten())
    {
      hide IsRun, Logged, Placed, Anchored, Ordered, NBytes, Over, Stale, Faithful, Snapshot, AfterRecord, WellFormed,
        Indexes, Sorted, Tallied, Named, Orderly, Remaps, Retains, Addressed, InOrder, NoneAfter, NoneBefore, Since,
        Taken, Newest, Unedited, Follows, Uncovered, Timeline.Recorded, SameButLast;
      ghost var h := hist;
      hist := Edited(hist);
      EditKeepsRun(cpu, h, log.entries, Start(), uc.st);
      BlindEdited(h);
      ghost var base0, cs0, noted0, start0 := timeline.base, timeline.checkpoints, timeline.dirty, Start();
      var folded := timeline.NoteExternalChange();
      RunWellFormed(cpu, hist);
      if timeline.enabled && base0.Some? {
        SameMemoryStale(base0.value, cs0, noted0, h[|h| - 1].m, uc.st);
        SameMemoryUnedited(h, hist, noted0);
        EditRecorded(h, base0, cs0, noted0, timeline.dropped - old(timeline.dropped), old(timeline.dropped), sound,
          since);
      } else {
        NothingToRetain(old(Books()), Books(), |hist| - 1);
      }
      Forget(folded, start0);
    }

    lemma BlindEdited(h: seq<World<L>>)
      requires SameButLast(h, hist) && forall j :: j in blind ==> Remaps(cpu, h, j)
      ensures Overlooked()
    {
      forall j | j in blind
        ensures Remaps(cpu, hist, j)
      {
        RemapsElsewhere(cpu, h, hist, j);
      }
    }

    lemma EditRecorded(h: seq<World<L>>, base0: Option<Checkpoint>, cs0: seq<Checkpoint>, noted: set<nat>, d: int,
                       dropped: nat, sound: bool, since: nat)
      requires timeline.dropped == dropped + d && d >= 0
      requires hist != [] && base0.Some? && Wired() && uc.Valid() && timeline.Recorded(base0, cs0, noted, |hist| - 1, d)
      requires SameButLast(h, hist) && Unedited(h, hist, noted)
      requires hist[|hist| - 1].m == uc.st && (forall j :: 0 <= j < |hist| ==> WellFormed(hist[j].m))
      requires Ordered(base0.value, cs0, timeline.interval)
      requires Newest(base0.value, cs0).icount < |hist| <= Newest(base0.value, cs0).icount + timeline.interval + 1
      requires Placed(base0.value, cs0, h) && Anchored(base0.value, cs0, h) && h[0].m.mem.Keys <= base0.value.pages.Keys
      requires sound ==> Faithful(base0.value, cs0, h, since) && Stale(base0.value, cs0, noted, uc.st) == {}
      ensures timeline.base.Some? && timeline.dirty == {}
      ensures Placed(timeline.base.value, timeline.checkpoints, hist)
      ensures Anchored(timeline.base.value, timeline.checkpoints, hist)
      ensures hist[0].m.mem.Keys <= timeline.base.value.pages.Keys
      ensures base0.value.icount <= Start() < |hist|
      ensures Newest(timeline.base.value, timeline.checkpoints).icount == |hist| - 1
      ensures d == 0 ==> timeline.base == base0
      ensures Retains(Book(base0, cs0, dropped, h), Books(), |hist| - 1)
      ensures sound && uc.st.spans != {} ==>
        Faithful(timeline.base.value, timeline.checkpoints, hist, since) &&
          Stale(timeline.base.value, timeline.checkpoints, {}, uc.st) == {}
    {
      hide Placed, Anchored, Ordered, Over, Stale, Faithful, Snapshot, AfterRecord, WellFormed, Retains;
      RecordKeeps(base0, cs0, noted, timeline.interval, h, hist, timeline.base.value, timeline.checkpoints, d);
      RecordRetains(Book(base0, cs0, dropped, h), Books(), noted, timeline.interval, d);
      if sound && uc.st.spans != {} {
        RecordKeepsFaith(base0, cs0, noted, timeline.interval, h, hist, timeline.base.value, timeline.checkpoints, d,
          since);
      }
    }
  }

  /** The recorder's books, where its next delta is due, its count, and whether the base covers its regions. */
  datatype Ledger<L> = Ledger(books: Book<L>, due: nat, icount: nat, covered: bool)

  /**
   Running on makes nothing worse: what could be gone back to is as good as it was, as long as the books hold
   it; nothing is folded away before the next delta is due.
   */
  ghost predicate Upkept<L>(a: Ledger<L>, b: Ledger<L>) {
    && a.books.dropped <= b.books.dropped && a.icount <= b.icount && |a.books.hist| <= |b.books.hist|
    && (b.icount <= a.due ==> b.due == a.due && b.books.dropped == a.books.dropped)
    && Retains(a.books, b.books, |a.books.hist|)
    && (a.covered && b.books.dropped == a.books.dropped ==> b.covered)
  }

  lemma UpkeptSelf<L>(a: Ledger<L>)
    ensures Upkept(a, a)
  {
    RetainsSelf(a.books, |a.books.hist|);
  }

  lemma UpkeptTrans<L>(a: Ledger<L>, b: Ledger<L>, c: Ledger<L>)
    requires Upkept(a, b) && Upkept(b, c)
    ensures Upkept(a, c)
  {
    hide Retains;
    RetainsShorter(b.books, c.books, |b.books.hist|, |a.books.hist|);
    RetainsTrans(a.books, b.books, c.books, |a.books.hist|);
  }

  /** One more world. */
  lemma UpkeptLonger<L>(a: Ledger<L>, b: Ledger<L>, w: World<L>)
    requires Upkept(a, b)
    ensures Upkept(a, b.(books := b.books.(hist := b.books.hist + [w])))
  {
    hide Retains;
    RetainsLonger(b.books, w, |a.books.hist|);
    RetainsTrans(a.books, b.books, b.books.(hist := b.books.hist + [w]), |a.books.hist|);
  }

  /** A watchpoint saw an access of this instruction. */
  datatype Sighting = Sighting(at: nat, num: nat, access: Access)

  lemma ServedNext<L(!new)>(cpu: Cpu<L>, w: World<L>, noted: set<nat>)
    requires cpu.exec(w.m).Service?
    ensures Serves(cpu, w)
    ensures var reply := cpu.serve(Asked(cpu, w), w.layer);
      && Next(cpu, w) == World(DoAll(Asked(cpu, w), reply.acts), reply.layer, false)
      && ActsOf(cpu, w) == Successes(Asked(cpu, w), reply.acts)
      && Noticed(cpu, noted, w) == noted + WrittenPages(ActsOf(cpu, w))
  {
    PutNone([]);
  }

  lemma DoneNext<L>(cpu: Cpu<L>, w: World<L>, next: Context, accesses: seq<Access>)
    requires cpu.exec(w.m) == Done(next, accesses)
    ensures Next(cpu, w) == World(Executed(w.m, next, accesses), w.layer, false)
  {
  }

  lemma NextUnedited<L>(cpu: Cpu<L>, w: World<L>)
    ensures !cpu.exec(w.m).Fault? ==> !Next(cpu, w).edited
  {
  }

  lemma DepthStep<L>(flow: int -> Flow, hist: seq<World<L>>, j: nat)
    requires j < |hist|
    ensures Depth(flow, hist, j) == Depth(flow, hist, j + 1) + DepthDelta(flow(hist[j].m.ctx.Pc()))
  {
  }

  predicate ByHook(ev: StopEvent) {
    ev.AtBreakpoint? || ev.AtWatchpoint? || ev.Exited? || ev.LayerStop?
  }

  /** Whether the program is over. */
  predicate Ends(ev: StopEvent) {
    ev.Exited? || (ev.LayerStop? && ev.reason == "exit")
  }

  /** The run h with more worlds behind it. */
  ghost predicate Extends<L>(h: seq<World<L>>, h': seq<World<L>>) {
    |h| <= |h'| && h'[..|h|] == h
  }

  lemma MappedSomewhere(m: State, address: nat, data: seq<Byte>)
    requires WellFormed(m) && MemWrite(m, address, data).Some?
    ensures m.spans != {} && MemWrite(m, address, data).value.mem.Keys == m.mem.Keys
    ensures MemWrite(m, address, data).value.spans == m.spans
  {
    assert Touched(address, |data|).first in m.mem;
  }

  lemma SameMemoryStale(base: Checkpoint, deltas: seq<Checkpoint>, noted: set<nat>, m: State, m': State)
    requires m.mem == m'.mem
    ensures Stale(base, deltas, noted, m) == Stale(base, deltas, noted, m')
  {
  }

  lemma SameMemoryUnedited<L>(h: seq<World<L>>, h': seq<World<L>>, noted: set<nat>)
    requires |h| == |h'| > 0 && h[|h| - 1].m.mem == h'[|h| - 1].m.mem
    ensures Unedited(h, h', noted)
  {
  }

  /** The pages of a write are noted, and no other changes. */
  lemma WriteUnedited<L>(h: seq<World<L>>, h': seq<World<L>>, address: nat, data: seq<Byte>, noted: set<nat>)
    requires |h| == |h'| > 0 && MemWrite(h[|h| - 1].m, address, data) == Some(h'[|h| - 1].m)
    requires Touched(address, |data|).Pages() <= noted
    ensures Unedited(h, h', noted)
  {
    forall p | p !in noted && Shows(h[|h| - 1].m, p)
      ensures Shows(h'[|h| - 1].m, p)
    {
      PutBytesFrame(h[|h| - 1].m.mem, address, data, p);
    }
  }

  lemma ExtendsSelf<L>(h: seq<World<L>>)
    ensures Extends(h, h)
  {
  }

  lemma ExtendsLonger<L>(h: seq<World<L>>, h': seq<World<L>>)
    requires Extends(h, h')
    ensures |h| <= |h'|
  {
  }

  lemma ExtendsBack<L>(h: seq<World<L>>, h': seq<World<L>>, k: nat)
    requires Extends(h, h') && k < |h|
    ensures Extends(h[..k + 1], h') && h[k] == h'[k]
  {
  }

  lemma CutTwice<L>(h: seq<World<L>>, h': seq<World<L>>, k: nat)
    requires Extends(h, h') && k < |h|
    ensures h[..k + 1] == h'[..k + 1]
  {
  }

  /** The run h with more worlds behind it, none of them made by an edit. */
  ghost predicate RunsOn<L>(h: seq<World<L>>, h': seq<World<L>>) {
    Extends(h, h') && forall j :: |h| <= j < |h'| ==> !h'[j].edited
  }

  lemma RunsOnSelf<L>(h: seq<World<L>>)
    ensures RunsOn(h, h)
  {
  }

  lemma RunsOnLonger<L>(h: seq<World<L>>, h': seq<World<L>>)
    requires RunsOn(h, h')
    ensures |h| <= |h'|
  {
  }

  lemma RunsOnMore<L>(h0: seq<World<L>>, h: seq<World<L>>, w: World<L>)
    requires RunsOn(h0, h) && !w.edited
    ensures RunsOn(h0, h + [w])
  {
  }

  /** How the engine comes to stop: a hook said so, the engine's own count ran out, an interrupt, or a fault. */
  datatype Ended = Hooked | CountedOut | CutShort | Faulted(fetch: bool)

  /**
   After the first instruction of the stretch none ran that was an exit, and nothing that happened before
   the end of the last one was anything to stop for.
   */
  ghost predicate Unstopped<L(!new)>(g: Guards<L>, exits: set<int>, hist: seq<World<L>>, from: int) {
    && (forall j :: 0 <= from < j < |hist| - 1 ==> hist[j].m.ctx.Pc() !in exits)
    && (0 <= from < |hist| - 1 ==> !Stopped(g.Hits(g.Until(hist, from, |hist| - 2))))
  }

  lemma UnstoppedNone<L(!new)>(g: Guards<L>, exits: set<int>, hist: seq<World<L>>)
    requires hist != []
    ensures Unstopped(g, exits, hist, |hist| - 1)
  {
  }

  lemma UnstoppedMore<L(!new)>(g: Guards<L>, exits: set<int>, hist: seq<World<L>>, w: World<L>, from: int)
    requires 0 <= from < |hist| && Unstopped(g, exits, hist, from)
    requires |hist| - 1 > from ==> hist[|hist| - 1].m.ctx.Pc() !in exits
    requires !Stopped(g.Hits(g.Until(hist, from, |hist| - 1)))
    ensures Unstopped(g, exits, hist + [w], from)
  {
    hide Stopped, HitsOf, Guards.Through, Guards.Begun, Guards.Hits;
    ThroughElsewhere(g, hist, hist + [w], from, |hist| - 1);
    assert (hist + [w])[|hist| - 1] == hist[|hist| - 1];
    assert g.Until(hist + [w], from, |hist| - 1) == g.Until(hist, from, |hist| - 1);
  }

  /**
     Before the end of such a stretch no breakpoint's condition was met more often than that one was told
     to ignore; where nothing was left to ignore, it was not met.
   */
  lemma PassedNothingDue<L(!new)>(g: Guards<L>, exits: set<int>, hist: seq<World<L>>, from: nat)
    requires from < |hist| - 1 && Unstopped(g, exits, hist, from) && forall n :: n in g.table ==> n < g.next
    ensures forall n :: n in g.table ==> Occurs(g.Until(hist, from, |hist| - 2), n) <= g.table[n].ignoreCount
    ensures forall j :: from < j < |hist| - 1 ==> !DueHere(g.holds, g.table, g.byAddr, hist[j].m)
    ensures forall j :: from <= j < |hist| - 2 ==> !DueAfter(g.cpu, g.holds, g.table, hist[j])
  {
    hide HitsOf, Guards.Until, Stopped;
    var events := g.Until(hist, from, |hist| - 2);
    UntilKnown(g, hist, from, |hist| - 2);
    forall n | n in g.table
      ensures Occurs(events, n) <= g.table[n].ignoreCount
    {
      PassedOver(g.table, events, n);
    }
    forall j: nat | from < j < |hist| - 1
      ensures !DueHere(g.holds, g.table, g.byAddr, hist[j].m)
    {
      EventsOf(g, hist, from, j, |hist| - 2);
      DueOccurs(g, events, from, j, hist[j].m);
    }
    forall j: nat | from <= j < |hist| - 2
      ensures !DueAfter(g.cpu, g.holds, g.table, hist[j])
    {
      EventsOf(g, hist, from, j, |hist| - 2);
      DueAccessOccurs(g, events, hist[j], j + 1);
    }
  }

  lemma DueOccurs<L(!new)>(g: Guards<L>, events: seq<Event>, from: nat, j: nat, m: State)
    requires from < j && forall e :: e in g.Begun(m, from, j) ==> e in events
    ensures DueHere(g.holds, g.table, g.byAddr, m) ==>
      exists n :: n in g.table && Occurs(events, n) > g.table[n].ignoreCount
  {
    if DueHere(g.holds, g.table, g.byAddr, m) {
      var e := Event(j, g.byAddr[m.ctx.Pc()]);
      assert g.Begun(m, from, j) == [e] && e in g.Begun(m, from, j);
      OccursIn(events, e);
    }
  }

  lemma DueAccessOccurs<L(!new)>(g: Guards<L>, events: seq<Event>, w: World<L>, at: nat)
    requires (forall e :: e in g.After(w, at) ==> e in events) && forall n :: n in g.table ==> n < g.next
    ensures DueAfter(g.cpu, g.holds, g.table, w) ==>
      exists n :: n in g.table && Occurs(events, n) > g.table[n].ignoreCount
  {
    hide Guards.OfAccesses;
    if DueAfter(g.cpu, g.holds, g.table, w) {
      var a, num :| a in AccessesOf(g.cpu, w) && DueAt(g.holds, g.table, num, a, w.m);
      var i :| 0 <= i < |AccessesOf(g.cpu, w)| && AccessesOf(g.cpu, w)[i] == a;
      FiredByOne(g, AccessesOf(g.cpu, w), i, num, w.m, at);
      OccursIn(events, Event(at, num));
    }
  }

  lemma ThroughNext<L(!new)>(g: Guards<L>, hist: seq<World<L>>, w: World<L>, from: int)
    requires 0 <= from < |hist|
    ensures g.Through(hist + [w], from, |hist|) == g.Until(hist, from, |hist| - 1) + g.After(hist[|hist| - 1], |hist|)
  {
    ThroughElsewhere(g, hist, hist + [w], from, |hist| - 1);
  }

  function LastNum(hits: seq<Hit>): nat {
    if hits == [] then 0 else hits[|hits| - 1].num
  }

  /** How one turn of the engine ends. */
  datatype Turned = Ran | Halted | Refused(fetch: bool)

  /** An enabled execute breakpoint at the instruction about to run, with its condition met. */
  predicate Stands(holds: (nat, State, Option<Access>) -> bool, table: Table, num: nat, m: State) {
    && num in table
    && table[num].kind == Execute && table[num].enabled && table[num].address == m.ctx.Pc()
    && Passes(holds, table[num], m, None)
  }

  /** What is armed at the instruction about to run, with its condition met, stands there. */
  lemma ArmedStands<L(!new)>(g: Guards<L>, m: State)
    requires Addressed(g.byAddr, g.table)
    ensures g.Here(m, 0) != [] ==> m.ctx.Pc() in g.byAddr && Stands(g.holds, g.table, g.byAddr[m.ctx.Pc()], m)
  {
  }

  /** Some access of the instruction at w has to be stopped at. */
  ghost predicate DueAfter<L(!new)>(cpu: Cpu<L>, holds: (nat, State, Option<Access>) -> bool, table: Table,
                                    w: World<L>) {
    exists a, num :: a in AccessesOf(cpu, w) && DueAt(holds, table, num, a, w.m)
  }

  ghost predicate HasWatched<L(!new)>(cpu: Cpu<L>, table: Table, num: nat, w: World<L>) {
    exists a :: a in AccessesOf(cpu, w) && Watched(table, num, a)
  }

  /** An enabled execute breakpoint with nothing left to ignore stands where the machine is about to run. */
  predicate DueHere(holds: (nat, State, Option<Access>) -> bool, table: Table, byAddr: map<nat, nat>, m: State) {
    var pc := m.ctx.Pc();
    pc in byAddr && byAddr[pc] in table &&
    var bp := table[byAddr[pc]];
    bp.enabled && bp.ignoreCount == 0 && Passes(holds, bp, m, None)
  }

  /** A watchpoint with nothing left to ignore that this access has to stop at. */
  ghost predicate DueAt(holds: (nat, State, Option<Access>) -> bool, table: Table, num: nat, access: Access, m: State) {
    Watched(table, num, access) && table[num].ignoreCount == 0 && Passes(holds, table[num], m, Some(access))
  }

  lemma NumbersBelow(table: Table, next: nat, hits: seq<Hit>)
    requires Named(table, next, hits)
    ensures forall n :: n in table ==> n < next
  {
  }

  // ---- a fault of fetching ----

  /** A program of one instruction, behind which nothing can be fetched. */
  function Stepper(): Cpu<()> {
    Cpu(
      (m: State) => if m.spans == {} || m.ctx.Pc() != 0 then Fault(true) else Done(Context(map[PC := 1]), []),
      (m: State, layer: ()) => Reply([], layer, None))
  }

  lemma OneRegion(m: State)
    requires m.mem.Keys == {0} && m.spans == {Span(0, 0)}
    ensures WellFormed(m)
  {
    assert Span(0, 0) in m.spans && Span(0, 0).Has(0);
  }

  lemma SetOutFrom<L>(h: seq<World<L>>, h': seq<World<L>>)
    requires |h| == 1 && RunsOn(h, h')
    ensures h' != [] && h'[0] == h[0] && h == h'[..1]
  {
    assert h'[..1][0] == h[0];
  }

  lemma StepperOrderly()
    ensures Orderly(Stepper())
  {
  }

  lemma StepperRuns(hist: seq<World<()>>)
    requires IsRun(Stepper(), hist) && hist != [] && hist[0].m.ctx.Pc() == 0 && RunsOn(hist[..1], hist)
    ensures |hist| <= 2 && (|hist| == 2 ==> Stepper().exec(hist[1].m) == Fault(true))
    ensures forall w :: !Serves(Stepper(), w)
  {
    if |hist| > 1 {
      assert Follows(Stepper(), hist[0], hist[1]);
      assert hist[1].m.ctx.Pc() == 1;
      assert |hist| > 2 ==> Follows(Stepper(), hist[1], hist[2]);
    }
  }

  /** It has run that instruction when it faults, and the count says that it has run none. */
  method FetchFaultMiscounts() returns (counted: nat, ghost ran: nat)
    ensures ran == 1 && counted == 0
  {
    hide Target.Sound, Target.Covered, Target.Tracks, Retains, Unstopped, Orderly, WellFormed, Tallied, Named, InOrder,
      Addressed, Placed, Anchored, Logged, RunsOn, IsRun, NBytes, Ordered, Sorted, Indexes;
    var page := seq(PAGE, (_: nat) => 0 as Byte);
    var m := State(Context(map[]), map[0 := page], {Span(0, 0)});
    OneRegion(m);
    var uc := new Uc(m, 0);
    var timeline := new Timeline(uc, 1, 0, false);
    var log := new EffectLog<()>(timeline);
    var bps := new BreakpointTable();
    StepperOrderly();
    var target := new Target<()>(Stepper(), uc, timeline, log, bps, {}, (_, _, _) => false, _ => Neither, ());
    ghost var h := target.hist;
    var ev := target.Emulate(0, 1, 0);
    SetOutFrom(h, target.hist);
    StepperRuns(target.hist);
    counted, ran := timeline.icount, |target.hist| - 1;
  }
}
