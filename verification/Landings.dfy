/**
 Where a backward search may land and where a run forwards stops: exactly how far the two agree, and a
 program with which they do not, for each of the three reasons there are.
 */
module Landings {
  import opened Options
  import opened Machine
  import opened Engine
  import opened Timelines
  import opened EffectLogs
  import opened Runs
  import opened Histories
  import opened Breakpoints
  import opened Candidates
  import opened Guarding
  import opened Targets

  /**
   A run forwards stops at c, for this breakpoint: it is armed there and due, or the access just made is
   one to stop at.
   */
  ghost predicate StopsForwards<L(!new)>(s: Search<L>, byAddr: map<nat, nat>, c: Candidate) {
    match c.access
    case None =>
      && c.at < |s.hist| && DueHere(s.holds, s.table, byAddr, s.hist[c.at].m)
      && byAddr[s.hist[c.at].m.ctx.Pc()] == c.num
    case Some(a) =>
      && 0 < c.at < |s.hist| && a in AccessesOf(s.cpu, s.hist[c.at - 1])
      && DueAt(s.holds, s.table, c.num, a, s.hist[c.at - 1].m)
  }

  /**
     Where a search backwards may land, a run forwards stops if and only if the breakpoint has nothing
     left to ignore and is the one armed at its address, or, for a watchpoint, has its condition met
     before the access as well.
   */
  lemma LandsIsDueIff<L(!new)>(s: Search<L>, byAddr: map<nat, nat>, c: Candidate)
    requires s.earliest <= |s.hist| - 2 && StandFor(s.byAddress, s.table) && Landing(s, s.earliest, |s.hist| - 2, c)
    ensures StopsForwards(s, byAddr, c) <==>
      && s.table[c.num].ignoreCount == 0
      && if c.access.None? then s.hist[c.at].m.ctx.Pc() in byAddr && byAddr[s.hist[c.at].m.ctx.Pc()] == c.num
         else Passes(s.holds, s.table[c.num], s.hist[c.at - 1].m, c.access)
  {
    hide Passes, AccessesOf;
  }

  /**
   Where a run forwards stops, a search backwards may land if and only if, for a watchpoint, the condition
   is met after the access as well.
   */
  lemma DueIsLandedIff<L(!new)>(s: Search<L>, byAddr: map<nat, nat>, c: Candidate)
    requires s.earliest <= |s.hist| - 2 && StandFor(s.byAddress, s.table) && Addressed(byAddr, s.table)
    requires StopsForwards(s, byAddr, c)
    requires s.earliest <= c.at < |s.hist| - 1 && (c.access.Some? ==> s.earliest < c.at)
    ensures Landing(s, s.earliest, |s.hist| - 2, c) <==>
      (c.access.Some? ==> Passes(s.holds, s.table[c.num], s.hist[c.at].m, c.access))
  {
    hide Passes, AccessesOf;
    if c.access.None? {
      var pc := s.hist[c.at].m.ctx.Pc();
      assert pc in s.byAddress && NotOnTop(byAddr, s.table, s.byAddress[pc]);
    }
  }

  // ---- a program of which the second instruction is landed on and was not stopped at ----

  /** Runs on for ever, one byte an instruction; the first one reads the byte at 0. */
  function Ticker(): Cpu<()> {
    Cpu(
      (m: State) => if m.spans == {} then Fault(true)
        else Done(Context(map[PC := m.ctx.Pc() + 1]), if m.ctx.Pc() == 0 then [Peek()] else []),
      (m: State, layer: ()) => Reply([], layer, None))
  }

  function Peek(): Access {
    Access(false, 0, [0])
  }

  ghost predicate Ticks(h: seq<World<()>>) {
    h != [] && forall j :: 0 <= j < |h| ==>
      h[j].m.ctx.Pc() == j && h[j].m.spans == {Span(0, 0)} && h[j].m.mem.Keys == {0}
  }

  lemma TickerOrderly()
    ensures Orderly(Ticker())
  {
  }

  lemma {:induction false} TickerTicks(h: seq<World<()>>, n: nat)
    requires IsRun(Ticker(), h) && n < |h| && Ticks(h[..1]) && forall j :: 1 <= j < |h| ==> !h[j].edited
    ensures Ticks(h[..n + 1])
  {
    if n > 0 {
      TickerTicks(h, n - 1);
      var w := h[..n][n - 1];
      StepOfRun(Ticker(), h, n - 1);
      assert h[n] == Next(Ticker(), w);
      assert h[..n + 1] == h[..n] + [h[n]];
    }
  }

  /** It maps nothing. */
  lemma TickerMapsNothing(h: seq<World<()>>, j: nat)
    requires Ticks(h)
    ensures !Remaps(Ticker(), h, j)
  {
    assert forall p :: !Appears(h, j, p);
  }

  /** The first instruction reads, and the second may have something armed; neither stops the run. */
  ghost predicate GoesBy(g: Guards<()>) {
    && g.cpu == Ticker()
    && (forall w: World<()>, m: State :: w.m.ctx.Pc() == 0 && w.m.spans != {} && m.ctx.Pc() == 1 ==>
         !Stopped(g.Hits(g.After(w, 1) + g.Here(m, 1))))
    && (forall m: State :: m.ctx.Pc() == 2 ==> g.Here(m, 2) == [])
  }

  lemma TickerPasses(g: Guards<()>, h: seq<World<()>>, begun: bool)
    requires GoesBy(g) && Ticks(h) && |h| <= 3
    ensures !Stopped(g.Hits(g.Through(h, 0, |h| - 1) + (if begun then g.Begun(h[|h| - 1].m, 0, |h| - 1) else [])))
  {
    hide HitsOf, Guards.After, Guards.Here, Stopped;
    assert HitsOf(g.table, []) == [] && !Stopped([]) by {
      NoHits(g.table);
    }
    var all := g.Through(h, 0, |h| - 1) + (if begun then g.Begun(h[|h| - 1].m, 0, |h| - 1) else []);
    if |h| == 1 {
      assert all == [];
    } else {
      var a, b := g.After(h[0], 1), g.Here(h[1].m, 1);
      assert Stopped(g.Hits(a)) ==> Stopped(g.Hits(a + b)) by {
        if Stopped(g.Hits(a)) {
          HitsOnceStopped(g.table, a, b);
        }
      }
      assert g.Through(h, 0, 1) == a;
      assert |h| == 2 ==> all == if begun then a + b else a;
      if |h| == 3 {
        assert g.After(h[1], 2) == [] by {
          ReadsOnce(g, h[1]);
        }
        assert g.Through(h, 0, 2) == a + b;
        assert all == a + b;
      }
    }
  }

  lemma NoHits(t: Table)
    ensures HitsOf(t, []) == [] && !Stopped([])
  {
  }

  lemma ReadsOnce(g: Guards<()>, w: World<()>)
    requires g.cpu == Ticker() && w.m.ctx.Pc() != 0
    ensures g.After(w, 2) == []
  {
  }

  /** Where a run sets out, with these breakpoints. */
  method Start(bps: BreakpointTable, holds: (nat, State, Option<Access>) -> bool) returns (target: Target<()>)
    requires bps.Valid() && bps.hits == []
    ensures fresh(target) && fresh(target.uc) && fresh(target.timeline) && fresh(target.log) && target.bps == bps
    ensures target.cpu == Ticker() && target.holds == holds && target.exits == {}
    ensures target.timeline.enabled && target.timeline.Due() == 10
    ensures target.Kept(0) && target.AtRest() && target.Sound(0) && target.Covered() && target.blind == {}
    ensures |target.hist| == 1 && Ticks(target.hist) && !target.terminated && target.timeline.dropped == 0
  {
    hide Target.Kept, Target.Sound, Target.Covered, Orderly, WellFormed, Tallied, Named, InOrder, Addressed;
    var page := seq(PAGE, (_: nat) => 0 as Byte);
    var m := State(Context(map[]), map[0 := page], {Span(0, 0)});
    OneRegion(m);
    TickerOrderly();
    assert m.mem.Keys == {0};
    var uc := new Uc(m, 0);
    var timeline := new Timeline(uc, 10, 0, true);
    var log := new EffectLog<()>(timeline);
    target := new Target<()>(Ticker(), uc, timeline, log, bps, {}, holds, _ => Neither, ());
  }

  /** There is something to land on at the second instruction, whatever has been counted. */
  ghost predicate LandsInMiddle(holds: (nat, State, Option<Access>) -> bool, table: Table) {
    forall s: Search<()> :: Middle(s) && s.holds == holds && SameButCounts(table, s.table) ==>
      exists c: Candidate :: c.at == 1 && Landing(s, 0, 1, c)
  }

  ghost predicate Middle(s: Search<()>) {
    s.cpu == Ticker() && Ticks(s.hist) && |s.hist| == 3 && s.earliest == 0 && StandFor(s.byAddress, s.table)
  }

  /** The run goes past it for the second instruction, and going back from there lands on it. */
  method PassesThenLands(bps: BreakpointTable, holds: (nat, State, Option<Access>) -> bool)
    returns (ran: nat, back: nat)
    requires bps.Valid() && bps.hits == []
    requires GoesBy(Guards(Ticker(), holds, bps.table, bps.byAddr, bps.next)) && LandsInMiddle(holds, bps.table)
    modifies bps
    ensures ran == 2 && back == 1
  {
    hide Target.Kept, Target.Sound, Target.Covered, Target.Tracks, Target.WentOn, Target.Finished, Target.Replays,
      Target.ReachesAll, Target.FetchFaults, Target.Reaches, Orderly, GoesBy, LandsInMiddle, Ticks, SameButCounts,
      Arrived, Counts, UpTo, StandFor, Empty, Best, Target.Posted;
    var target := Start(bps, holds);
    ghost var h0, g, hits0, books := target.hist, target.Posted(), bps.hits, target.Books();
    assert g == Guards(Ticker(), holds, bps.table, bps.byAddr, bps.next) by {
      PostedIs(target);
    }
    var ev := target.Emulate(2, 2, 0);
    RunsPast(target, ev.value, h0, g, hits0, books);
    CanReturn(target);
    ran := target.timeline.icount;
    var ok, found, s, n, table := target.ResumeBack(0);
    LandsThere(s, found, holds, g.table);
    target.KeptCount(0);
    back := target.timeline.icount;
  }

  lemma PostedIs(target: Target<()>)
    ensures target.Posted() == Guards(target.cpu, target.holds, target.bps.table, target.bps.byAddr, target.bps.next)
  {
  }

  lemma RunsPast(target: Target<()>, ev: StopEvent, h0: seq<World<()>>, g: Guards<()>, hits0: seq<Hit>, books: Book<()>)
    requires target.cpu == Ticker() && target.exits == {} && |h0| == 1 && Ticks(h0) && GoesBy(g)
    requires target.WentOn(h0, g, books) && target.Finished(ev, g, hits0, |h0|) && |target.hist| <= 3
    requires ev == Stepped ==> |target.hist| == 3
    requires ev == Interrupted ==> |target.hist| == 4
    ensures ev == Stepped && Ticks(target.hist) && |target.hist| == 3
    ensures target.Kept(0) && target.timeline.icount == 2 && SameButCounts(g.table, target.bps.table)
  {
    hide Target.Kept, Target.Replays, Target.Accounted, Target.Settled, Target.Happened, Ticks, GoesBy, Unstopped,
      Retains, HitsOf, RunsOn;
    FinishedMeans(target, ev, g, hits0, |h0|);
    TicksOn(target, h0);
    NeverStops(target, ev, g);
    target.KeptFinished(ev, g, hits0, |h0|);
    target.KeptCount(0);
    SettledCounts(target, g, hits0, ev);
  }

  lemma FinishedMeans(target: Target<()>, ev: StopEvent, g: Guards<()>, hits0: seq<Hit>, start: nat)
    requires target.Finished(ev, g, hits0, start)
    ensures target.hist != [] && target.AtRest() && target.Accounted(ev, g, target.hist, start)
    ensures IsRun(target.cpu, target.hist)
    ensures ev.Failed? ==> target.cpu.exec(target.uc.st) == Fault(ev.fetch)
  {
  }

  lemma TicksOn(target: Target<()>, h0: seq<World<()>>)
    requires target.cpu == Ticker() && |h0| == 1 && Ticks(h0) && RunsOn(h0, target.hist)
    requires IsRun(target.cpu, target.hist)
    ensures Ticks(target.hist)
  {
    hide IsRun, Ticks;
    SetOutFrom(h0, target.hist);
    TickerTicks(target.hist, |target.hist| - 1);
    assert target.hist[..|target.hist|] == target.hist;
  }

  lemma NeverStops(target: Target<()>, ev: StopEvent, g: Guards<()>)
    requires target.cpu == Ticker() && target.exits == {} && GoesBy(g) && Ticks(target.hist) && |target.hist| <= 3
    requires target.AtRest() && target.Accounted(ev, g, target.hist, 1)
    requires ev.Failed? ==> target.cpu.exec(target.uc.st) == Fault(ev.fetch)
    ensures ev == Stepped || ev == Interrupted
  {
    hide HitsOf, GoesBy, Guards.Through, Guards.Begun;
    TickerPasses(g, target.hist, true);
    TickerPasses(g, target.hist, false);
    assert g.Through(target.hist, 0, |target.hist| - 1) + [] == g.Through(target.hist, 0, |target.hist| - 1);
  }

  lemma SettledCounts(target: Target<()>, g: Guards<()>, hits0: seq<Hit>, ev: StopEvent)
    requires target.Settled(g, hits0, 1, ev) && ev == Stepped
    ensures SameButCounts(g.table, target.bps.table)
  {
  }

  lemma CanReturn(target: Target<()>)
    requires target.cpu == Ticker() && Ticks(target.hist) && |target.hist| == 3 && target.timeline.enabled
    requires target.Kept(0) && target.Tracks(true, true, 0, 10, 0, 0)
    ensures target.InReach(1) && target.Start() == 0 && forall j: nat :: j < 2 ==> target.Reaches(j)
  {
    forall j: nat
      ensures !Remaps(Ticker(), target.hist, j)
    {
      TickerMapsNothing(target.hist, j);
    }
    target.NothingHidden(0, 0);
    forall j: nat | j < 2
      ensures target.Reaches(j)
    {
      target.ToldReaches(0, j);
    }
  }

  lemma LandsThere(s: Search<()>, found: Option<Candidate>, holds: (nat, State, Option<Access>) -> bool, table: Table)
    requires LandsInMiddle(holds, table) && Middle(s) && s.holds == holds && SameButCounts(table, s.table)
    requires found.None? ==> Empty(s, 0, 1)
    requires found.Some? ==> Best(s, found.value)
    ensures found.Some? && found.value.at == 1
  {
    var c: Candidate :| c.at == 1 && Landing(s, 0, 1, c);
  }

  /** A breakpoint that is to be ignored once more. */
  method IgnoredIsLandedOn() returns (ran: nat, back: nat)
    ensures ran == 2 && back == 1
  {
    hide Tallied, InOrder, Addressed, GoesBy, LandsInMiddle;
    var never := (num: nat, m: State, access: Option<Access>) => false;
    var bps := new BreakpointTable();
    var num := bps.AddBreakpoint(1, false);
    bps.SetIgnoreCount(num, 1);
    IgnoredOnce(Guards(Ticker(), never, bps.table, bps.byAddr, bps.next), num);
    ran, back := PassesThenLands(bps, never);
  }

  lemma IgnoredOnce(g: Guards<()>, num: nat)
    requires g.cpu == Ticker() && g.byAddr == map[1 := num]
    requires g.table == map[num := Breakpoint(num, Execute, 1, 1, true, 0, false, None, 1)]
    ensures GoesBy(g) && LandsInMiddle(g.holds, g.table)
  {
    forall w: World<()>, m: State | w.m.ctx.Pc() == 0 && w.m.spans != {} && m.ctx.Pc() == 1
      ensures !Stopped(g.Hits(g.After(w, 1) + g.Here(m, 1)))
    {
      NothingFires(g, w, 1);
      HitsNext(g.table, [], Event(1, num));
      assert [] + [Event(1, num)] == [Event(1, num)];
    }
    OnTheSecond(g, num);
  }

  /** A breakpoint that a temporary one has disarmed. */
  method UnarmedIsLandedOn() returns (ran: nat, back: nat)
    ensures ran == 2 && back == 1
  {
    hide Tallied, InOrder, Addressed, GoesBy, LandsInMiddle;
    var never := (num: nat, m: State, access: Option<Access>) => false;
    var bps := new BreakpointTable();
    var num := bps.AddBreakpoint(1, false);
    var temporary := bps.AddBreakpoint(1, true);
    bps.DeleteBreakpoint(temporary);
    Disarms(Guards(Ticker(), never, bps.table, bps.byAddr, bps.next), num);
    ran, back := PassesThenLands(bps, never);
  }

  lemma Disarms(g: Guards<()>, num: nat)
    requires g.cpu == Ticker() && g.byAddr == map[]
    requires g.table == map[num := Breakpoint(num, Execute, 1, 1, true, 0, false, None, 0)]
    ensures GoesBy(g) && LandsInMiddle(g.holds, g.table)
  {
    forall w: World<()>, m: State | w.m.ctx.Pc() == 0 && w.m.spans != {} && m.ctx.Pc() == 1
      ensures !Stopped(g.Hits(g.After(w, 1) + g.Here(m, 1)))
    {
      NothingFires(g, w, 1);
    }
    OnTheSecond(g, num);
  }

  /** A watchpoint whose condition is met only once the access has been made. */
  method MetAfterwardsIsLandedOn() returns (ran: nat, back: nat)
    ensures ran == 2 && back == 1
  {
    hide Tallied, InOrder, Addressed, GoesBy, LandsInMiddle;
    var moved := (num: nat, m: State, access: Option<Access>) => m.ctx.Pc() == 1;
    var bps := new BreakpointTable();
    var num := bps.AddWatchpoint(0, 1, Read);
    bps.SetCondition(num.value, Some(0));
    MetAfterwards(Guards(Ticker(), moved, bps.table, bps.byAddr, bps.next), num.value);
    ran, back := PassesThenLands(bps, moved);
  }

  lemma MetAfterwards(g: Guards<()>, num: nat)
    requires g.cpu == Ticker() && g.byAddr == map[]
    requires g.table == map[num := Breakpoint(num, Read, 0, 1, true, 0, false, Some(0), 0)]
    requires g.holds == ((num: nat, m: State, access: Option<Access>) => m.ctx.Pc() == 1)
    ensures GoesBy(g) && LandsInMiddle(g.holds, g.table)
  {
    forall w: World<()>, m: State | w.m.ctx.Pc() == 0 && w.m.spans != {} && m.ctx.Pc() == 1
      ensures !Stopped(g.Hits(g.After(w, 1) + g.Here(m, 1)))
    {
      NothingFires(g, w, 1);
    }
    forall s: Search<()> | Middle(s) && s.holds == g.holds && SameButCounts(g.table, s.table)
      ensures exists c: Candidate :: c.at == 1 && Landing(s, 0, 1, c)
    {
      assert Landing(s, 0, 1, Candidate(1, num, Some(Peek())));
    }
  }

  /** No access of this instruction fires any watchpoint. */
  lemma NothingFires(g: Guards<()>, w: World<()>, at: nat)
    requires g.cpu == Ticker() && w.m.spans != {} && forall num :: !g.Fires(num, Peek(), w.m)
    ensures g.After(w, at) == []
  {
    NoneFires(g, g.next, w.m, at);
    var one := [Peek()];
    OneMoreAccess(g, one, 0, w.m, at);
    assert one[..1] == one && one[..0] == [] && g.OfAccesses([], w.m, at) == [];
  }

  lemma {:induction false} NoneFires(g: Guards<()>, n: nat, m: State, at: nat)
    requires forall num :: !g.Fires(num, Peek(), m)
    ensures g.OfAccess(n, Peek(), m, at) == []
  {
    if n > 0 {
      NoneFires(g, n - 1, m, at);
      assert !g.Fires(n - 1, Peek(), m);
    }
  }

  lemma OnTheSecond(g: Guards<()>, num: nat)
    requires g.table.Keys == {num} && StandsAt(g.table[num], 1) && g.table[num].condition.None?
    ensures LandsInMiddle(g.holds, g.table)
  {
    forall s: Search<()> | Middle(s) && s.holds == g.holds && SameButCounts(g.table, s.table)
      ensures exists c: Candidate :: c.at == 1 && Landing(s, 0, 1, c)
    {
      assert num in s.table;
      assert s.byAddress[1] == num;
      assert Landing(s, 0, 1, Candidate(1, num, None));
    }
  }
}
