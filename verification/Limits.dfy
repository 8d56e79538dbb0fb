/**
 Where the recorder stops being exact.  Each lemma says for every machine when one of the conditions
 that an exact history rests on is needed, or shows a machine on which it is.
 */
module Limits {
  import opened Options
  import opened Machine
  import opened Acts
  import opened Checkpoints
  import opened Runs
  import opened Histories

  // ---- a replay that crosses a call ----

  /**
     After a replay from checkpoint c to k, the next checkpoint is exact if and only if every page that
     a call in between wrote or mapped, and no instruction wrote, looks as it did at c (or is zero,
     where it is new).
   */
  lemma SoundAfterReplayIff<L(!new)>(cpu: Cpu<L>, base: Checkpoint, deltas: seq<Checkpoint>, hist: seq<World<L>>,
                                     k: nat)
    requires Orderly(cpu) && IsRun(cpu, hist) && k < |hist|
    requires IcountOf(base, deltas, |deltas|) <= k && ExactAt(base, deltas, hist, |deltas|)
    requires forall j :: IcountOf(base, deltas, |deltas|) < j <= k ==> !hist[j].edited
    ensures var c := IcountOf(base, deltas, |deltas|);
      var m := hist[k].m;
      Snapshot(base, deltas + [Taken(m, HeardIn(cpu, hist, c, k), k)]) == m
      <==> forall p :: p in CallPagesIn(cpu, hist, c, k) && p in m.mem && p !in HeardIn(cpu, hist, c, k) ==>
             m.mem[p] == ImageAt(Over(base.pages, deltas), p)
  {
    hide IsRun, Over, HeardIn, CallPagesIn, Orderly;
    var c := IcountOf(base, deltas, |deltas|);
    RunWellFormed(cpu, hist);
    ReplayMissesOnlyCalls(cpu, base, deltas, hist, k);
    DeltaExactIffNothingStale(base, deltas, HeardIn(cpu, hist, c, k), hist[k].m, k);
    var stale := Stale(base, deltas, HeardIn(cpu, hist, c, k), hist[k].m);
    assert stale == {} <==> forall p :: p in hist[k].m.mem && p !in HeardIn(cpu, hist, c, k) ==> p !in stale;
  }

  /** A program whose first instruction is a call that writes one byte, and which then goes round in circles. */
  function Poker(): Cpu<()> {
    Cpu(
      (m: State) => if m.spans == {} then Fault(true) else if m.ctx.Pc() == 0 then Service(false, m.ctx)
        else Done(m.ctx, []),
      (m: State, layer: ()) => Reply([Write(0, [1]), SetReg(PC, 1)], (), None))
  }

  function Blank(): State {
    State(Context(map[]), map[0 := ZeroPage()], {Span(0, 0)})
  }

  function Poked(): State {
    State(Context(map[PC := 1]), map[0 := Patch(ZeroPage(), 0, 0, [1])], {Span(0, 0)})
  }

  /**
     The byte a call wrote is missing from the checkpoint taken after a replay over that call, though
     the checkpoint taken on the way there the first time has it.
   */
  lemma ReplayedWriteIsMissed()
    ensures var hist := [World(Blank(), (), false), World(Poked(), (), false)];
      var base := Checkpoint(0, Blank().ctx, Blank().mem, Blank().spans);
      && Orderly(Poker()) && IsRun(Poker(), hist) && Exact(base, [], hist, 0)
      && Snapshot(base, [Taken(Poked(), WrittenPages(ActsOf(Poker(), hist[0])), 1)]) == Poked()
      && Snapshot(base, [Taken(Poked(), HeardIn(Poker(), hist, 0, 1), 1)]) != Poked()
  {
    hide Snapshot, Follows, Stale, WellFormed;
    var hist := [World(Blank(), (), false), World(Poked(), (), false)];
    PokeStep();
    PokeHistory();
    PokeCheckpoints();
    assert HeardIn(Poker(), hist, 0, 1) == {};
  }

  lemma PokeHistory()
    ensures var hist := [World(Blank(), (), false), World(Poked(), (), false)];
      Exact(Checkpoint(0, Blank().ctx, Blank().mem, Blank().spans), [], hist, 0)
  {
    hide DoAll, Snapshot;
    var hist := [World(Blank(), (), false), World(Poked(), (), false)];
    assert WellFormed(Blank());
    FirstCheckpoint(hist, 0);
  }

  lemma PokeCheckpoints()
    ensures var base := Checkpoint(0, Blank().ctx, Blank().mem, Blank().spans);
      && Snapshot(base, [Taken(Poked(), {0}, 1)]) == Poked()
      && Snapshot(base, [Taken(Poked(), {}, 1)]) != Poked()
  {
    hide Snapshot;
    var base := Checkpoint(0, Blank().ctx, Blank().mem, Blank().spans);
    assert [] + [Taken(Poked(), {0}, 1)] == [Taken(Poked(), {0}, 1)];
    assert [] + [Taken(Poked(), {}, 1)] == [Taken(Poked(), {}, 1)];
    assert WellFormed(Poked());
    DeltaExactIffNothingStale(base, [], {0}, Poked(), 1);
    DeltaExactIffNothingStale(base, [], {}, Poked(), 1);
    assert Poked().mem[0][0] == 1 && ZeroPage()[0] == 0;
    assert 0 in Stale(base, [], {}, Poked());
  }

  lemma PokeStep()
    ensures var w := World(Blank(), (), false);
      && Follows(Poker(), w, World(Poked(), (), false)) && WellFormed(Blank()) && WellFormed(Poked())
      && WrittenPages(ActsOf(Poker(), w)) == {0} && Heard(Poker(), w) == {}
  {
    hide WellFormed, Patch, DoAll, Successes, MemWrite, PutBytes, PagesOf, WrittenPages;
    PokeWrites();
    TwoActs(Blank(), Write(0, [1]), SetReg(PC, 1));
    BlankWellFormed();
    SameRegions(Blank(), Poked());
  }

  lemma PokeWrites()
    ensures MemWrite(Blank(), 0, [1]) == Some(Blank().(mem := Poked().mem)) && Touched(0, 1).Pages() == {0}
  {
    assert Touched(0, 1) == Span(0, 0) && Span(0, 0).Pages() == {0};
    assert PutBytes(Blank().mem, 0, [1]) == Poked().mem;
  }

  lemma BlankWellFormed()
    ensures WellFormed(Blank())
  {
  }

  // ---- folding ----

  /**
     Once a checkpoint has become the base, going back to it gives its state from every machine if and
     only if every page of its regions has an image by then.
   */
  lemma FoldedRestoresIff(base: Checkpoint, deltas: seq<Checkpoint>)
    requires Disjoint(Newest(base, deltas).spans) && Newest(base, deltas).spans != {}
    ensures (forall m | WellFormed(m) :: RestoredOn(m, Folded(base, deltas), []) == Snapshot(base, deltas))
      <==> PagesOf(Newest(base, deltas).spans) <= Over(base.pages, deltas).Keys
  {
    hide Over, RestoredOn, WellFormed;
    var want := Newest(base, deltas).spans;
    assert want * want == want;
    assert Snapshot(Folded(base, deltas), []) == Snapshot(base, deltas) by {
      assert Over(Folded(base, deltas).pages, []) == Over(base.pages, deltas) by {
        OverNone(Over(base.pages, deltas), []);
      }
    }
    assert Over(Over(base.pages, deltas), []) == Over(base.pages, deltas) by {
      OverNone(Over(base.pages, deltas), []);
    }
    RestoreExactIff(Folded(base, deltas), []);
  }

  /** A program whose first instruction has a page mapped, and whose second has a byte written there. */
  function Grower(): Cpu<()> {
    Cpu(
      (m: State) => if m.spans == {} then Fault(true) else if m.ctx.Pc() < 2 then Service(false, m.ctx)
        else Done(m.ctx, []),
      (m: State, layer: ()) =>
        if m.ctx.Pc() == 0 then Reply([Map(Span(1, 1)), SetReg(PC, 1)], (), None)
          else Reply([Write(PAGE, [1]), SetReg(PC, 2)], (), None))
  }

  function Grown(): State {
    State(Context(map[PC := 1]), map[0 := ZeroPage(), 1 := ZeroPage()], {Span(0, 0), Span(1, 1)})
  }

  function Written(): State {
    State(Context(map[PC := 2]), map[0 := ZeroPage(), 1 := Patch(ZeroPage(), PAGE, PAGE, [1])],
      {Span(0, 0), Span(1, 1)})
  }

  /**
     Going back to before the write takes the byte away as long as the checkpoint there has a base with
     fewer regions, and leaves it where it is once that checkpoint has become the base.
   */
  lemma LateRegionIsLost()
    ensures var hist := [World(Blank(), (), false), World(Grown(), (), false), World(Written(), (), false)];
      var base := Checkpoint(0, Blank().ctx, Blank().mem, Blank().spans);
      var late := Taken(Grown(), Noticed(Grower(), {}, hist[0]), 1);
      && Orderly(Grower()) && IsRun(Grower(), hist) && Exact(base, [late], hist, 0)
      && RestoredOn(Written(), base, [late]) == hist[1].m
      && RestoredOn(Written(), Folded(base, [late]), []) != hist[1].m
      && ByteAt(RestoredOn(Written(), Folded(base, [late]), []), PAGE) == 1 && ByteAt(hist[1].m, PAGE) == 0
  {
    hide Snapshot, Follows, Stale, WellFormed, Over, RestoredOn, Resets, Exact, Noticed;
    GrowStep();
    WriteStep();
    LateCheckpoint();
    LateRestores();
  }

  lemma GrowStep()
    ensures var w := World(Blank(), (), false);
      && Follows(Grower(), w, World(Grown(), (), false)) && WellFormed(Blank()) && WellFormed(Grown())
      && Noticed(Grower(), {}, w) == {}
  {
    hide WellFormed, DoAll, Successes, MemMap, WrittenPages;
    BlankWellFormed();
    GrowthDone();
    TwoActs(Blank(), Map(Span(1, 1)), SetReg(PC, 1));
    MapKeepsWellFormed(Blank(), Span(1, 1));
    SameRegions(MemMap(Blank(), Span(1, 1)).value, Grown());
  }

  lemma GrowthDone()
    ensures Free(Blank(), Span(1, 1))
    ensures MemMap(Blank(), Span(1, 1)) == Some(Blank().(mem := Grown().mem, spans := Grown().spans))
  {
    var m := Blank();
    assert Span(1, 1).Pages() == {1} && FreshPages(Span(1, 1)) == map[1 := ZeroPage()];
    assert m.mem + FreshPages(Span(1, 1)) == Grown().mem && m.spans + {Span(1, 1)} == Grown().spans;
  }

  lemma WriteStep()
    ensures Follows(Grower(), World(Grown(), (), false), World(Written(), (), false)) && WellFormed(Written())
  {
    hide WellFormed, Patch, DoAll, Successes, MemWrite, PutBytes, PagesOf;
    WriteDone();
    TwoActs(Grown(), Write(PAGE, [1]), SetReg(PC, 2));
    GrowStep();
    SameRegions(Grown(), Written());
  }

  lemma WriteDone()
    ensures MemWrite(Grown(), PAGE, [1]) == Some(Grown().(mem := Written().mem))
  {
    assert Touched(PAGE, 1) == Span(1, 1) && Span(1, 1).Pages() == {1};
    assert Patch(ZeroPage(), 0, PAGE, [1]) == ZeroPage();
    assert PutBytes(Grown().mem, PAGE, [1]) == Written().mem;
  }

  lemma SameRegions(m: State, m': State)
    requires WellFormed(m) && m'.spans == m.spans && m'.mem.Keys == m.mem.Keys
    ensures WellFormed(m')
  {
  }

  lemma LateCheckpoint()
    ensures var hist := [World(Blank(), (), false), World(Grown(), (), false), World(Written(), (), false)];
      var base := Checkpoint(0, Blank().ctx, Blank().mem, Blank().spans);
      var late := Taken(Grown(), {}, 1);
      late == Checkpoint(1, Grown().ctx, map[], Grown().spans) && Exact(base, [late], hist, 0) &&
        Snapshot(base, [late]) == Grown()
  {
    hide Snapshot, WellFormed;
    var hist := [World(Blank(), (), false), World(Grown(), (), false), World(Written(), (), false)];
    var base := Checkpoint(0, Blank().ctx, Blank().mem, Blank().spans);
    var late := Taken(Grown(), {}, 1);
    GrowStep();
    assert late == Checkpoint(1, Grown().ctx, map[], Grown().spans);
    assert [late][..0] == [] && [late][..1] == [late] && [] + [late] == [late];
    FirstIsExact(Blank(), 0);
    assert Stale(base, [], {}, Grown()) == {};
    DeltaExactIffNothingStale(base, [], {}, Grown(), 1);
    forall i: nat | i <= 1
      ensures ExactAt(base, [late], hist, i)
    {
    }
  }

  lemma LateRestores()
    ensures var base := Checkpoint(0, Blank().ctx, Blank().mem, Blank().spans);
      var late := Checkpoint(1, Grown().ctx, map[], Grown().spans);
      && RestoredOn(Written(), base, [late]) == Snapshot(base, [late])
      && ByteAt(RestoredOn(Written(), Folded(base, [late]), []), PAGE) == 1 && ByteAt(Grown(), PAGE) == 0
  {
    var base := Checkpoint(0, Blank().ctx, Blank().mem, Blank().spans);
    var late := Checkpoint(1, Grown().ctx, map[], Grown().spans);
    var pages := Blank().mem;
    assert [late][..0] == [];
    assert Over(pages, [late]) == pages && Over(pages, []) == pages;
    assert Grown().spans * Blank().spans == {Span(0, 0)};
    WriteStep();
    RestoreExact(Written(), base, [late]);
    RestoreFolded(Written(), Folded(base, [late]));
  }

  /**
   A restore to the base alone leaves a page as it is when its region is there already and the base has no
   image of it.
   */
  lemma RestoreFolded(m: State, base: Checkpoint)
    requires WellFormed(m) && m.spans == base.spans != {}
    ensures RestoredOn(m, base, []).mem == Overwrite(m.mem, base.pages)
  {
    assert Kept(m, base.spans, base.spans) == m.spans;
  }

  // ---- mapping again ----

  /** A program whose first instruction has a page unmapped and whose second has it mapped again. */
  function Remapper(): Cpu<()> {
    Cpu(
      (m: State) => if m.spans == {} then Fault(true) else if m.ctx.Pc() < 2 then Service(false, m.ctx)
        else Done(m.ctx, []),
      (m: State, layer: ()) =>
        if m.ctx.Pc() == 0 then Reply([Unmap(Span(1, 1)), SetReg(PC, 1)], (), None)
          else Reply([Map(Span(1, 1)), SetReg(PC, 2)], (), None))
  }

  function Whole(): State {
    State(Context(map[]), map[0 := ZeroPage(), 1 := OnePage()], {Span(0, 0), Span(1, 1)})
  }

  function Gone(): State {
    State(Context(map[PC := 1]), map[0 := ZeroPage()], {Span(0, 0)})
  }

  function Again(): State {
    State(Context(map[PC := 2]), map[0 := ZeroPage(), 1 := ZeroPage()], {Span(0, 0), Span(1, 1)})
  }

  /** What the page held before is what the next checkpoint says it holds now, though it is zero. */
  lemma RemappedPageIsMissed()
    ensures var hist := [World(Whole(), (), false), World(Gone(), (), false), World(Again(), (), false)];
      var base := Checkpoint(0, Whole().ctx, Whole().mem, Whole().spans);
      var noted := Noticed(Remapper(), Noticed(Remapper(), {}, hist[0]), hist[1]);
      && Orderly(Remapper()) && IsRun(Remapper(), hist) && Exact(base, [], hist, 0) && Remaps(Remapper(), hist, 1)
      && Blind(Remapper(), base, [], Noticed(Remapper(), {}, hist[0]), hist[1], hist[2])
      && Snapshot(base, [Taken(Again(), noted, 2)]) != Again()
  {
    hide Snapshot, Follows, WellFormed, Over, Exact, Noticed;
    var hist := [World(Whole(), (), false), World(Gone(), (), false), World(Again(), (), false)];
    var base := Checkpoint(0, Whole().ctx, Whole().mem, Whole().spans);
    GoneStep();
    AgainStep();
    FirstCheckpoint(hist, 0);
    assert Appears(hist, 1, 1) && 1 in Seen(hist, 0) && Seen(hist, 1) == hist[1].m.mem.Keys + Seen(hist, 0);
    OverNone(base.pages, []);
    assert OnePage()[0] != ZeroPage()[0];
    assert 1 in Stale(base, [], {}, Again()) by {
      assert Again().mem[1] == ZeroPage() && ImageAt(Whole().mem, 1) == OnePage();
    }
    DeltaExactIffNothingStale(base, [], {}, Again(), 2);
    assert [] + [Taken(Again(), {}, 2)] == [Taken(Again(), {}, 2)];
  }

  lemma GoneStep()
    ensures var w := World(Whole(), (), false);
      Follows(Remapper(), w, World(Gone(), (), false)) && WellFormed(Whole()) && WellFormed(Gone()) &&
        Noticed(Remapper(), {}, w) == {}
  {
    var m, act, set' := Whole(), Unmap(Span(1, 1)), SetReg(PC, 1);
    assert Span(1, 1).Pages() == {1};
    WholeWellFormed();
    CutWhole(m.spans, Span(1, 1));
    assert m.mem - {1} == Gone().mem && m.spans - {Span(1, 1)} == Gone().spans;
    assert MemUnmap(m, Span(1, 1)) == Some(m.(mem := Gone().mem, spans := Gone().spans));
    TwoActs(m, act, set');
    UnmapKeepsWellFormed(m, Span(1, 1));
  }

  lemma AgainStep()
    ensures var w := World(Gone(), (), false);
      Follows(Remapper(), w, World(Again(), (), false)) && WellFormed(Again()) && Noticed(Remapper(), {}, w) == {}
  {
    hide WellFormed, DoAll, Successes, MemMap;
    MapDone();
    TwoActs(Gone(), Map(Span(1, 1)), SetReg(PC, 2));
    GoneStep();
    MapKeepsWellFormed(Gone(), Span(1, 1));
    SameRegions(MemMap(Gone(), Span(1, 1)).value, Again());
  }

  lemma MapDone()
    ensures Free(Gone(), Span(1, 1))
    ensures MemMap(Gone(), Span(1, 1)) == Some(Gone().(mem := Again().mem, spans := Again().spans))
  {
    var m := Gone();
    assert Span(1, 1).Pages() == {1} && FreshPages(Span(1, 1)) == map[1 := ZeroPage()];
    assert m.mem + FreshPages(Span(1, 1)) == Again().mem && m.spans + {Span(1, 1)} == Again().spans;
  }

  lemma WholeWellFormed()
    ensures WellFormed(Whole())
  {
    var m := State(Context(map[]), map[0 := ZeroPage()], {Span(0, 0)});
    assert WellFormed(m);
    assert Span(1, 1).Pages() == {1};
    MapKeepsWellFormed(m, Span(1, 1));
    assert MemMap(m, Span(1, 1)).value.spans == Whole().spans;
    assert MemMap(m, Span(1, 1)).value.mem.Keys == Whole().mem.Keys;
  }

  /** An act and then a register set, neither refused. */
  lemma TwoActs(m: State, a: Act, b: Act)
    requires Try(m, a).Some? && b.SetReg?
    ensures DoAll(m, [a, b]) == Do(Do(m, a), b) && Successes(m, [a, b]) == [a, b]
    ensures WrittenPages([a, b]) == if a.Write? then Touched(a.address, |a.data|).Pages() else {}
  {
    hide MemMap, MemUnmap, MemWrite;
    assert [a, b][..1] == [a] && [a][..0] == [];
    assert DoAll(m, [a]) == Do(m, a);
    assert Successes(m, [a]) == [a];
    OneWrite(a);
    assert [a, b] == [a] + [b];
    WrittenPlus([a], b);
  }

  /** Taking a region down and mapping it again goes unnoticed unless all of it was zero. */
  lemma RemapExactIff(m: State, s: Span, n: nat)
    requires WellFormed(m) && s in m.spans
    ensures var base := Checkpoint(n, m.ctx, m.mem, m.spans);
      var m' := DoAll(m, [Unmap(s), Map(s)]);
      Stale(base, [], {}, m') == {} <==> forall p :: p in s.Pages() ==> m.mem[p] == ZeroPage()
  {
    var base := Checkpoint(n, m.ctx, m.mem, m.spans);
    var m' := DoAll(m, [Unmap(s), Map(s)]);
    Remapped(m, s);
    var stale := Stale(base, [], {}, m');
    assert forall p :: p in s.Pages() ==> (p in stale <==> m.mem[p] != ZeroPage());
    assert forall p :: p in stale ==> p in s.Pages();
    if stale != {} {
      var p :| p in stale;
      assert p in s.Pages();
    }
  }

  lemma Remapped(m: State, s: Span)
    requires WellFormed(m) && s in m.spans
    ensures s.Pages() <= m.mem.Keys
    ensures DoAll(m, [Unmap(s), Map(s)]).mem == (m.mem - s.Pages()) + FreshPages(s)
  {
    hide MemMap, MemUnmap;
    var acts := [Unmap(s), Map(s)];
    assert acts[..1] == [Unmap(s)] && [Unmap(s)][..0] == [];
    UnmapWhole(m, s);
    MapBack(m, s);
    var gone := m.(mem := m.mem - s.Pages(), spans := m.spans - {s});
    assert DoAll(m, [Unmap(s)]) == Do(m, Unmap(s)) == gone;
    assert DoAll(m, acts) == Do(gone, Map(s));
  }

  lemma UnmapWhole(m: State, s: Span)
    requires WellFormed(m) && s in m.spans
    ensures s.Pages() <= m.mem.Keys
    ensures MemUnmap(m, s) == Some(m.(mem := m.mem - s.Pages(), spans := m.spans - {s}))
  {
    hide Cut;
    forall p | p in s.Pages()
      ensures p in m.mem
    {
      assert s.Has(p);
    }
    CutWhole(m.spans, s);
  }

  lemma MapBack(m: State, s: Span)
    requires WellFormed(m) && s in m.spans
    ensures var gone := m.(mem := m.mem - s.Pages(), spans := m.spans - {s});
      MemMap(gone, s) == Some(gone.(mem := gone.mem + FreshPages(s), spans := gone.spans + {s}))
  {
  }
}
