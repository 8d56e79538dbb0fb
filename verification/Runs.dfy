/**
 What a program does on the machine, one instruction after another.  The processor and the layers
 that answer system calls and library calls are arbitrary functions of the state, so everything said
 about them is said about every program.
 */
module Runs {
  import opened Options
  import opened Machine
  import opened Acts

  datatype Access = Access(write: bool, address: nat, data: seq<Byte>)

  /**
   What executing the instruction at the program counter comes to.  A call reaches the layer with the
   registers as the trap left them, or, at a stub, as they were.
   */
  datatype Outcome =
    | Done(next: Context, accesses: seq<Access>)
    | Service(stub: bool, asked: Context)
    | Fault(fetch: bool)

  /** What a layer answers a call with: what to do to the machine, and the layer's state after it. */
  datatype Reply<L> = Reply(acts: seq<Act>, layer: L, stop: Option<(string, string)>)

  datatype Cpu<!L> = Cpu(exec: State -> Outcome, serve: (State, L) -> Reply<L>)

  /** The machine, the layer beside it, and whether a debugger edit made it so. */
  datatype World<L> = World(m: State, layer: L, edited: bool)

  // ---- one instruction ----

  function PutAll(mem: map<nat, Page>, accesses: seq<Access>): map<nat, Page> {
    if accesses == [] then mem
    else
      var last := accesses[|accesses| - 1];
      var mem' := PutAll(mem, accesses[..|accesses| - 1]);
      if last.write then PutBytes(mem', last.address, last.data) else mem'
  }

  /** The pages the write hook is told of. */
  function PagesPut(accesses: seq<Access>): set<nat> {
    if accesses == [] then {}
    else
      var last := accesses[|accesses| - 1];
      PagesPut(accesses[..|accesses| - 1]) + (if last.write then Touched(last.address, |last.data|).Pages() else {})
  }

  lemma PutNone(accesses: seq<Access>)
    ensures PagesPut(accesses[..0]) == {}
  {
  }

  lemma PutOneMore(accesses: seq<Access>, n: nat)
    requires n < |accesses|
    ensures PagesPut(accesses[..n + 1]) == PagesPut(accesses[..n]) +
      (if accesses[n].write then Touched(accesses[n].address, |accesses[n].data|).Pages() else {})
  {
    assert accesses[..n + 1][..n] == accesses[..n];
  }

  function Executed(m: State, next: Context, accesses: seq<Access>): State {
    State(next, PutAll(m.mem, accesses), m.spans)
  }

  /** The machine a layer is asked on. */
  function Asked<L>(cpu: Cpu<L>, w: World<L>): State {
    var o := cpu.exec(w.m);
    if o.Service? then w.m.(ctx := o.asked) else w.m
  }

  function Next<L>(cpu: Cpu<L>, w: World<L>): World<L> {
    match cpu.exec(w.m)
    case Done(next, accesses) => World(Executed(w.m, next, accesses), w.layer, false)
    case Service(_, _) =>
      var reply := cpu.serve(Asked(cpu, w), w.layer);
      World(DoAll(Asked(cpu, w), reply.acts), reply.layer, false)
    case Fault(_) => w
  }

  predicate Serves<L>(cpu: Cpu<L>, w: World<L>) {
    cpu.exec(w.m).Service?
  }

  function ActsOf<L>(cpu: Cpu<L>, w: World<L>): seq<Act> {
    if Serves(cpu, w) then Successes(Asked(cpu, w), cpu.serve(Asked(cpu, w), w.layer).acts) else []
  }

  function AccessesOf<L>(cpu: Cpu<L>, w: World<L>): seq<Access> {
    var o := cpu.exec(w.m);
    if o.Done? then o.accesses else []
  }

  /** Pages the instruction changes that the write hook hears of. */
  function Heard<L>(cpu: Cpu<L>, w: World<L>): set<nat> {
    PagesPut(AccessesOf(cpu, w))
  }

  /**
   Every answer the layers give has the shape of the ones the source ships, and nothing is fetched
   where nothing is mapped.
   */
  ghost predicate Orderly<L(!new)>(cpu: Cpu<L>) {
    && (forall m, layer :: OneWay(cpu.serve(m, layer).acts))
    && (forall m: State :: m.spans == {} ==> cpu.exec(m) == Fault(true))
  }

  // ---- a run ----

  /** From one world to the next: the instruction alone, or the instruction and then an edit. */
  ghost predicate Follows<L>(cpu: Cpu<L>, w: World<L>, w': World<L>) {
    var n := Next(cpu, w);
    && !cpu.exec(w.m).Fault?
    && (if w'.edited then w'.layer == n.layer && w'.m.spans == n.m.spans && w'.m.mem.Keys == n.m.mem.Keys else w' == n)
  }

  ghost predicate IsRun<L>(cpu: Cpu<L>, hist: seq<World<L>>) {
    && (forall i :: 0 <= i < |hist| ==> WellFormed(hist[i].m))
    && (forall i :: 0 <= i < |hist| - 1 ==> Follows(cpu, hist[i], hist[i + 1]))
  }

  lemma {:induction false} PutAllKeys(mem: map<nat, Page>, accesses: seq<Access>)
    ensures PutAll(mem, accesses).Keys == mem.Keys
  {
    if accesses == [] {
    } else {
      PutAllKeys(mem, accesses[..|accesses| - 1]);
    }
  }

  lemma {:induction false} PutAllFrame(mem: map<nat, Page>, accesses: seq<Access>, p: nat)
    requires p in mem && p !in PagesPut(accesses)
    ensures PutAll(mem, accesses).Keys == mem.Keys && PutAll(mem, accesses)[p] == mem[p]
  {
    PutAllKeys(mem, accesses);
    if accesses == [] {
    } else {
      var init := accesses[..|accesses| - 1];
      var last := accesses[|accesses| - 1];
      PutAllFrame(mem, init, p);
      if last.write {
        PutBytesFrame(PutAll(mem, init), last.address, last.data, p);
      }
    }
  }

  lemma NextKeepsWellFormed<L>(cpu: Cpu<L>, w: World<L>)
    requires WellFormed(w.m)
    ensures WellFormed(Next(cpu, w).m)
  {
    match cpu.exec(w.m)
    case Done(next, accesses) => PutAllKeys(w.m.mem, accesses);
    case Service(_, _) => DoAllKeepsWellFormed(Asked(cpu, w), cpu.serve(Asked(cpu, w), w.layer).acts);
    case Fault(_) =>
  }

  lemma RunPlus<L>(cpu: Cpu<L>, hist: seq<World<L>>)
    requires IsRun(cpu, hist) && hist != [] && !cpu.exec(hist[|hist| - 1].m).Fault?
    ensures IsRun(cpu, hist + [Next(cpu, hist[|hist| - 1])])
  {
    NextKeepsWellFormed(cpu, hist[|hist| - 1]);
  }

  lemma RunPrefix<L>(cpu: Cpu<L>, hist: seq<World<L>>, n: nat)
    requires IsRun(cpu, hist) && n <= |hist|
    ensures IsRun(cpu, hist[..n])
  {
    var h := hist[..n];
    forall i | 0 <= i < |h| - 1
      ensures Follows(cpu, h[i], h[i + 1])
    {
      assert h[i] == hist[i] && h[i + 1] == hist[i + 1];
    }
  }

  /** A layer's state moves only when it answers a call. */
  lemma {:induction false} LayerStays<L>(cpu: Cpu<L>, hist: seq<World<L>>, lo: nat, hi: nat)
    requires IsRun(cpu, hist) && lo <= hi < |hist|
    requires forall j :: lo <= j < hi ==> !Serves(cpu, hist[j])
    ensures hist[hi].layer == hist[lo].layer
  {
    if lo == hi {
    } else {
      LayerStays(cpu, hist, lo, hi - 1);
      assert Follows(cpu, hist[hi - 1], hist[hi - 1 + 1]);
    }
  }

  // ---- which pages a stretch of a run changes ----

  /** Pages written by the program's own instructions in [lo, hi). */
  function HeardIn<L>(cpu: Cpu<L>, hist: seq<World<L>>, lo: nat, hi: nat): set<nat>
    requires lo <= hi <= |hist|
  {
    if lo == hi then {} else HeardIn(cpu, hist, lo, hi - 1) + Heard(cpu, hist[hi - 1])
  }

  /** Pages written or newly mapped by calls answered in [lo, hi). */
  function CallPagesIn<L>(cpu: Cpu<L>, hist: seq<World<L>>, lo: nat, hi: nat): set<nat>
    requires lo <= hi < |hist|
  {
    if lo == hi then {} else
      CallPagesIn(cpu, hist, lo, hi - 1) + CallPages(cpu, hist[hi - 1], hist[hi].m)
  }

  function CallPages<L>(cpu: Cpu<L>, w: World<L>, after: State): set<nat> {
    WrittenPages(ActsOf(cpu, w)) + (after.mem.Keys - w.m.mem.Keys)
  }

  lemma {:induction false} NeverUnmapped(m: State, acts: seq<Act>, p: nat)
    requires p in m.mem && forall a :: a in acts ==> !a.Unmap?
    ensures p in DoAll(m, acts).mem
  {
    if acts == [] {
    } else {
      NeverUnmapped(m, acts[..|acts| - 1], p);
      assert acts[|acts| - 1] in acts;
    }
  }

  /** A call leaves the pages it did not write alone, and the ones it maps are zero. */
  lemma {:induction false} ServedFrame(m: State, acts: seq<Act>, p: nat)
    requires WellFormed(m)
    requires OneWay(acts) && Succeed(m, acts) && p in DoAll(m, acts).mem && p !in WrittenPages(acts)
    ensures DoAll(m, acts).mem[p] == if p in m.mem then m.mem[p] else ZeroPage()
  {
    if acts == [] {
    } else {
      var init := acts[..|acts| - 1];
      var x := acts[|acts| - 1];
      assert x in acts;
      var before := DoAll(m, init);
      DoAllKeepsWellFormed(m, init);
      if x.Map? && p !in before.mem {
        if p in m.mem {
          NeverUnmapped(m, init, p);
        }
      } else {
        if x.Map? {
          MapKeepsWellFormed(before, x.span);
        }
        ServedFrame(m, init, p);
        if x.Write? {
          PutBytesFrame(before.mem, x.address, x.data, p);
        }
      }
    }
  }

  /** A page that no instruction wrote and no call wrote or mapped is as it was. */
  lemma {:induction false} UntouchedPage<L(!new)>(cpu: Cpu<L>, hist: seq<World<L>>, lo: nat, hi: nat, p: nat)
    requires Orderly(cpu) && IsRun(cpu, hist) && lo <= hi < |hist|
    requires forall j :: lo < j <= hi ==> !hist[j].edited
    requires p in hist[hi].m.mem && p !in HeardIn(cpu, hist, lo, hi) && p !in CallPagesIn(cpu, hist, lo, hi)
    ensures p in hist[lo].m.mem && hist[hi].m.mem[p] == hist[lo].m.mem[p]
  {
    if lo == hi {
    } else {
      StepFrame(cpu, hist[hi - 1], hist[hi - 1 + 1], p);
      UntouchedPage(cpu, hist, lo, hi - 1, p);
    }
  }

  /** One step changes, without the write hook hearing of it, only what a call wrote or mapped. */
  lemma StepFrame<L(!new)>(cpu: Cpu<L>, w: World<L>, w': World<L>, p: nat)
    requires Orderly(cpu) && WellFormed(w.m) && Follows(cpu, w, w') && !w'.edited
    requires p in w'.m.mem && p !in Heard(cpu, w) && p !in WrittenPages(ActsOf(cpu, w))
    ensures w'.m.mem[p] == if p in w.m.mem then w.m.mem[p] else ZeroPage()
    ensures p in w.m.mem || Serves(cpu, w)
  {
    match cpu.exec(w.m)
    case Done(next, accesses) =>
      PutAllKeys(w.m.mem, accesses);
      PutAllFrame(w.m.mem, accesses, p);
    case Service(_, _) =>
      var m := Asked(cpu, w);
      var acts := cpu.serve(m, w.layer).acts;
      SuccessesSucceed(m, acts);
      ServedFrame(m, Successes(m, acts), p);
  }

  // ---- call depth ----

  /** What the instruction at an address does to the call stack. */
  datatype Flow = Call | Return | Neither

  /** What stepping back over an instruction of this kind adds to the depth. */
  function DepthDelta(f: Flow): int {
    match f
    case Call => -1
    case Return => 1
    case Neither => 0
  }

  /** Calls made less returns taken before instruction k. */
  function Depth<L>(flow: int -> Flow, hist: seq<World<L>>, k: nat): int
    requires k <= |hist|
  {
    if k == 0 then 0 else Depth(flow, hist, k - 1) + Deeper(flow(hist[k - 1].m.ctx.Pc()))
  }

  function Deeper(f: Flow): int {
    match f
    case Call => 1
    case Return => -1
    case Neither => 0
  }

  /** The latest instruction before `now` that ran at its depth or shallower, or `lo` where there is none. */
  ghost predicate IsPrevOver<L>(flow: int -> Flow, hist: seq<World<L>>, lo: nat, now: nat, r: nat)
    requires now < |hist|
  {
    || (lo <= r < now && Depth(flow, hist, r) <= Depth(flow, hist, now)
        && forall j :: r < j < now ==> Depth(flow, hist, j) > Depth(flow, hist, now))
    || (r == lo && forall j :: lo <= j < now ==> Depth(flow, hist, j) > Depth(flow, hist, now))
  }
}
