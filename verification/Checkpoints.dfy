/**
 What a list of checkpoints stands for.  The base holds every page that was mapped when it was
 taken, a delta the pages that changed since the checkpoint before, and either the registers and the
 regions.  Snapshot says which machine state such a list describes; the lemmas say
 when recording, folding and restoring agree with it.
 */
module Checkpoints {
  import opened Options
  import opened Machine

  datatype Checkpoint = Checkpoint(icount: nat, context: Context, pages: map<nat, Page>, spans: set<Span>)

  // ---- the state a base and its deltas describe ----

  /** The base pages overlaid with the pages of each delta in turn. */
  function Over(pages: map<nat, Page>, deltas: seq<Checkpoint>): map<nat, Page> {
    if deltas == [] then pages else Over(pages, deltas[..|deltas| - 1]) + deltas[|deltas| - 1].pages
  }

  lemma OverNone(pages: map<nat, Page>, deltas: seq<Checkpoint>)
    ensures Over(pages, deltas[..0]) == pages
  {
    assert deltas[..0] == [];
  }

  lemma OverOneMore(pages: map<nat, Page>, deltas: seq<Checkpoint>, n: nat)
    requires n < |deltas|
    ensures Over(pages, deltas[..n + 1]) == Over(pages, deltas[..n]) + deltas[n].pages
  {
    assert deltas[..n + 1][..n] == deltas[..n];
  }

  function Newest(base: Checkpoint, deltas: seq<Checkpoint>): Checkpoint {
    if deltas == [] then base else deltas[|deltas| - 1]
  }

  function ImageAt(pages: map<nat, Page>, p: nat): Page {
    if p in pages then pages[p] else ZeroPage()
  }

  function Image(pages: map<nat, Page>, spans: set<Span>): map<nat, Page> {
    map p | p in PagesOf(spans) :: ImageAt(pages, p)
  }

  function Snapshot(base: Checkpoint, deltas: seq<Checkpoint>): State {
    var cp := Newest(base, deltas);
    State(cp.context, Image(Over(base.pages, deltas), cp.spans), cp.spans)
  }

  // ---- recording ----

  function PagesAt(mem: map<nat, Page>, wanted: set<nat>): map<nat, Page> {
    map p | p in wanted && p in mem :: mem[p]
  }

  lemma NothingRead(m: State)
    requires WellFormed(m)
    ensures PagesAt(m.mem, PagesOf({})) == map[] && PagesAt(m.mem, PagesOf(m.spans)) == m.mem
  {
  }

  lemma ReadOneMore(mem: map<nat, Page>, done: set<Span>, span: Span)
    ensures PagesAt(mem, PagesOf(done + {span})) == PagesAt(mem, PagesOf(done)) + PagesAt(mem, span.Pages())
  {
    PagesOfPlus(done, span);
  }

  function Taken(m: State, dirty: set<nat>, icount: nat): Checkpoint {
    Checkpoint(icount, m.ctx, PagesAt(m.mem, dirty), m.spans)
  }

  /** The pages that differ from the recorded image without being noted as written. */
  function Stale(base: Checkpoint, deltas: seq<Checkpoint>, dirty: set<nat>, m: State): set<nat> {
    set p | p in m.mem && p !in dirty && m.mem[p] != ImageAt(Over(base.pages, deltas), p)
  }

  lemma FirstIsExact(m: State, icount: nat)
    requires WellFormed(m)
    ensures Snapshot(Checkpoint(icount, m.ctx, m.mem, m.spans), []) == m
  {
  }

  /** A delta describes the present state exactly when nothing changed behind the recorder's back. */
  lemma DeltaExactIffNothingStale(base: Checkpoint, deltas: seq<Checkpoint>, dirty: set<nat>, m: State, icount: nat)
    requires WellFormed(m)
    ensures Snapshot(base, deltas + [Taken(m, dirty, icount)]) == m <==> Stale(base, deltas, dirty, m) == {}
  {
    var cp := Taken(m, dirty, icount);
    var ds := deltas + [cp];
    assert ds[..|ds| - 1] == deltas;
    var image := Image(Over(base.pages, ds), m.spans);
    forall p | p in m.mem
      ensures image[p] == m.mem[p] <==> p !in Stale(base, deltas, dirty, m)
    {
    }
    if image != m.mem {
      var p :| p in m.mem && image[p] != m.mem[p];
      assert p in Stale(base, deltas, dirty, m);
    }
  }

  // ---- folding the oldest deltas into the base ----

  /** One step of folding: the pages of the oldest delta go over the base, the rest is taken from it. */
  function Fold(base: Checkpoint, cp: Checkpoint): Checkpoint {
    Checkpoint(cp.icount, cp.context, base.pages + cp.pages, cp.spans)
  }

  /** The base once all of `deltas` have been folded into it. */
  function Folded(base: Checkpoint, deltas: seq<Checkpoint>): Checkpoint {
    var cp := Newest(base, deltas);
    Checkpoint(cp.icount, cp.context, Over(base.pages, deltas), cp.spans)
  }

  lemma FoldNone(base: Checkpoint, deltas: seq<Checkpoint>)
    ensures Folded(base, deltas[..0]) == base
  {
    assert deltas[..0] == [];
  }

  lemma FoldOneMore(base: Checkpoint, deltas: seq<Checkpoint>, d: nat)
    requires d < |deltas|
    ensures Fold(Folded(base, deltas[..d]), deltas[d]) == Folded(base, deltas[..d + 1])
  {
    assert deltas[..d + 1][..d] == deltas[..d];
  }

  lemma {:induction false} OverSplit(pages: map<nat, Page>, deltas: seq<Checkpoint>, d: nat)
    requires d <= |deltas|
    ensures Over(Over(pages, deltas[..d]), deltas[d..]) == Over(pages, deltas)
  {
    if d == |deltas| {
      assert deltas[..d] == deltas;
    } else {
      var init := deltas[..|deltas| - 1];
      OverSplit(pages, init, d);
      assert init[..d] == deltas[..d];
      assert deltas[d..][..|deltas| - d - 1] == init[d..];
    }
  }

  /** Folding forgets only the past: what is kept describes the states it described before. */
  lemma FoldKeepsSnapshots(base: Checkpoint, deltas: seq<Checkpoint>, d: nat, i: nat)
    requires d + i <= |deltas|
    ensures Snapshot(Folded(base, deltas[..d]), deltas[d..][..i]) == Snapshot(base, deltas[..d + i])
    ensures Newest(Folded(base, deltas[..d]), deltas[d..][..i]).icount == Newest(base, deltas[..d + i]).icount
  {
    var ds := deltas[..d + i];
    OverSplit(base.pages, ds, d);
    assert ds[..d] == deltas[..d];
    assert ds[d..] == deltas[d..][..i];
  }

  /**
   What taking a checkpoint of m at instruction n leaves: the base the first time, and after that one
   more delta and the first d of them folded away.
   */
  ghost predicate AfterRecord(base0: Option<Checkpoint>, deltas0: seq<Checkpoint>, noted: set<nat>, m: State, n: nat,
                              base: Checkpoint, deltas: seq<Checkpoint>, d: int) {
    match base0
    case None => d == 0 && base == Checkpoint(n, m.ctx, m.mem, m.spans) && deltas == []
    case Some(b) =>
      var cs := deltas0 + [Taken(m, noted, n)];
      0 <= d <= |cs| && base == Folded(b, cs[..d]) && deltas == cs[d..]
  }

  // ---- restoring ----

  /** Pages of the base's own regions that the base holds no contents for. */
  function Uncovered(base: Checkpoint): set<nat> {
    PagesOf(base.spans) - base.pages.Keys
  }

  function Overwrite(mem: map<nat, Page>, pages: map<nat, Page>): map<nat, Page> {
    map p | p in mem :: if p in pages then pages[p] else mem[p]
  }

  lemma OverwriteTwice(mem: map<nat, Page>, a: map<nat, Page>, b: map<nat, Page>)
    ensures Overwrite(Overwrite(mem, a), b) == Overwrite(mem, a + b)
  {
  }

  /** The regions a restore leaves alone: mapped now, wanted, and held by the base. */
  function Kept(m: State, want: set<Span>, baseline: set<Span>): set<Span> {
    m.spans * want * baseline
  }

  /** The machine with exactly the wanted regions: what is kept keeps its bytes, the rest is zero. */
  function Synced(m: State, want: set<Span>, baseline: set<Span>): State {
    var kept := PagesOf(Kept(m, want, baseline));
    m.(mem := map p | p in PagesOf(want) :: if p in kept && p in m.mem then m.mem[p] else ZeroPage(),
       spans := want)
  }

  /** The machine with only some of its regions left. */
  function OnlyRegions(m: State, some: set<Span>): State {
    m.(mem := PagesAt(m.mem, PagesOf(some)), spans := some)
  }

  /** The machine with more regions mapped, the new ones zeroed. */
  function WithRegions(m: State, more: set<Span>): State {
    m.(mem := map p | p in PagesOf(more) :: if p in m.mem then m.mem[p] else ZeroPage(), spans := more)
  }

  lemma OnlyAll(m: State)
    requires WellFormed(m)
    ensures OnlyRegions(m, m.spans) == m
  {
  }

  lemma SyncedInTwo(m: State, want: set<Span>, baseline: set<Span>)
    requires WellFormed(m)
    ensures WithRegions(OnlyRegions(m, Kept(m, want, baseline)), want) == Synced(m, want, baseline)
  {
  }

  lemma UnmapRegion(m: State, some: set<Span>, span: Span)
    requires WellFormed(m) && some <= m.spans && span in m.spans && span !in some
    ensures MemUnmap(OnlyRegions(m, some + {span}), span) == Some(OnlyRegions(m, some))
  {
    var before := OnlyRegions(m, some + {span});
    PagesOfPlus(some, span);
    CutWhole(some + {span}, span);
    assert some + {span} - {span} == some;
    forall p | p in span.Pages()
      ensures p in m.mem && p !in PagesOf(some)
    {
      assert span in m.spans && span.Has(p);
      if p in PagesOf(some) {
        var s :| s in some && s.Has(p);
        assert s.Overlaps(span);
      }
    }
    assert before.mem - span.Pages() == OnlyRegions(m, some).mem;
  }

  lemma MapRegion(m: State, done: set<Span>, span: Span, all: set<Span>)
    requires Disjoint(all) && done <= all && span in all && span !in done && m.mem.Keys <= PagesOf(done)
    ensures MemMap(WithRegions(m, done), span) == Some(WithRegions(m, done + {span}))
  {
    PagesOfPlus(done, span);
    forall p | p in span.Pages()
      ensures p !in PagesOf(done)
    {
      if p in PagesOf(done) {
        var s :| s in done && s.Has(p);
        assert s.Overlaps(span);
      }
    }
    assert WithRegions(m, done).mem + FreshPages(span) == WithRegions(m, done + {span}).mem;
  }

  function WithImages(m: State, pages: map<nat, Page>, some: set<nat>): State {
    m.(mem := Overwrite(m.mem, PagesAt(pages, some)))
  }

  lemma NoImages(m: State, pages: map<nat, Page>)
    ensures WithImages(m, pages, {}) == m
    ensures WithImages(m, pages, pages.Keys) == m.(mem := Overwrite(m.mem, pages))
  {
    assert PagesAt(pages, pages.Keys) == pages;
  }

  lemma WriteImage(m: State, pages: map<nat, Page>, some: set<nat>, p: nat)
    requires p in pages
    ensures var before := WithImages(m, pages, some);
      WithImages(m, pages, some + {p}) ==
        (if MemWrite(before, p * PAGE, pages[p]).Some? then MemWrite(before, p * PAGE, pages[p]).value else before)
  {
    var before := WithImages(m, pages, some);
    assert Touched(p * PAGE, PAGE) == Span(p, p);
    if p in m.mem {
      PutPage(before.mem, p, pages[p]);
      assert WithImages(m, pages, some + {p}).mem == before.mem[p := pages[p]];
    } else {
      assert p in Span(p, p).Pages();
      assert WithImages(m, pages, some + {p}).mem == before.mem;
    }
  }

  function RestoredOn(m: State, base: Checkpoint, deltas: seq<Checkpoint>): State {
    var cp := Newest(base, deltas);
    var s := if cp.spans == {} then m else Synced(m, cp.spans, base.spans);
    State(cp.context, Overwrite(s.mem, Over(base.pages, deltas)), s.spans)
  }

  /** Every page a restore would leave as it finds it has an image to be overwritten with. */
  ghost predicate Resets(base: Checkpoint, deltas: seq<Checkpoint>) {
    var want := Newest(base, deltas).spans;
    want != {} && PagesOf(want * base.spans) <= Over(base.pages, deltas).Keys
  }

  lemma RestoreExact(m: State, base: Checkpoint, deltas: seq<Checkpoint>)
    requires WellFormed(m) && Resets(base, deltas)
    ensures RestoredOn(m, base, deltas) == Snapshot(base, deltas)
  {
    var want := Newest(base, deltas).spans;
    var over := Over(base.pages, deltas);
    var got := RestoredOn(m, base, deltas).mem;
    forall p | p in PagesOf(want)
      ensures got[p] == ImageAt(over, p)
    {
      if p in PagesOf(Kept(m, want, base.spans)) {
        var s :| s in Kept(m, want, base.spans) && s.Has(p);
        assert s in want * base.spans;
        assert p in over;
      }
    }
    assert got == Image(over, want);
  }

  function OnePage(): Page {
    seq(PAGE, (_: nat) => 1 as Byte)
  }

  /**
   A restore reproduces the recorded state from whatever the machine has become since, exactly when
   every page of a region it leaves mapped has a recorded image.
   */
  lemma RestoreExactIff(base: Checkpoint, deltas: seq<Checkpoint>)
    requires Disjoint(Newest(base, deltas).spans)
    ensures (forall m | WellFormed(m) :: RestoredOn(m, base, deltas) == Snapshot(base, deltas)) <==>
      Resets(base, deltas)
  {
    var cp := Newest(base, deltas);
    if Resets(base, deltas) {
      forall m | WellFormed(m)
        ensures RestoredOn(m, base, deltas) == Snapshot(base, deltas)
      {
        RestoreExact(m, base, deltas);
      }
    } else if cp.spans == {} {
      var one := Span(0, 0);
      var m := State(cp.context, map[0 := ZeroPage()], {one});
      assert WellFormed(m) by {
        assert one in m.spans && one.Has(0);
      }
      assert RestoredOn(m, base, deltas).spans == {one};
    } else {
      var p :| p in PagesOf(cp.spans * base.spans) && p !in Over(base.pages, deltas);
      var m := State(cp.context, map q | q in PagesOf(cp.spans) :: OnePage(), cp.spans);
      var s :| s in cp.spans * base.spans && s.Has(p);
      assert s in Kept(m, cp.spans, base.spans);
      assert WellFormed(m);
      assert RestoredOn(m, base, deltas).mem[p] == OnePage();
      assert Snapshot(base, deltas).mem[p] == ZeroPage();
      assert OnePage()[0] != ZeroPage()[0];
    }
  }

  lemma {:induction false} OverKeys(pages: map<nat, Page>, deltas: seq<Checkpoint>)
    ensures pages.Keys <= Over(pages, deltas).Keys
  {
    if deltas == [] {
    } else {
      OverKeys(pages, deltas[..|deltas| - 1]);
    }
  }

  /** A base that covers its own regions is enough for every checkpoint after it. */
  lemma CoveredResets(base: Checkpoint, deltas: seq<Checkpoint>)
    requires Uncovered(base) == {} && Newest(base, deltas).spans != {}
    ensures Resets(base, deltas)
  {
    OverKeys(base.pages, deltas);
    var want := Newest(base, deltas).spans;
    forall p | p in PagesOf(want * base.spans)
      ensures p in base.pages
    {
      var s :| s in want * base.spans && s.Has(p);
      assert p in PagesOf(base.spans);
      assert p !in Uncovered(base);
    }
  }

  // ---- what a list of checkpoints costs ----

  function NBytes(cs: seq<Checkpoint>, contextSize: nat): nat {
    if cs == [] then 0 else PAGE * |cs[0].pages| + contextSize + NBytes(cs[1..], contextSize)
  }

  lemma NoCost(contextSize: nat)
    ensures NBytes([], contextSize) == 0
  {
  }

  lemma CostOfFirst(cs: seq<Checkpoint>, d: nat, contextSize: nat)
    requires d < |cs|
    ensures cs[d..][1..] == cs[d + 1..]
    ensures NBytes(cs[d..], contextSize) == PAGE * |cs[d].pages| + contextSize + NBytes(cs[d + 1..], contextSize)
  {
    assert cs[d..][1..] == cs[d + 1..];
  }

  lemma {:induction false} PrefixCostsLess(cs: seq<Checkpoint>, n: nat, contextSize: nat)
    requires n <= |cs|
    ensures NBytes(cs[..n], contextSize) <= NBytes(cs, contextSize)
  {
    if n == 0 {
    } else {
      assert cs[..n][1..] == cs[1..][..n - 1];
      PrefixCostsLess(cs[1..], n - 1, contextSize);
    }
  }

  // ---- the order of a list of checkpoints ----

  /** In order, consecutive ones at most an interval apart, each with disjoint regions. */
  ghost predicate Ordered(base: Checkpoint, deltas: seq<Checkpoint>, interval: nat) {
    var all := [base] + deltas;
    && (forall i, j :: 0 <= i < j < |all| ==> all[i].icount <= all[j].icount)
    && (forall i :: 0 < i < |all| ==> all[i].icount <= all[i - 1].icount + interval)
    && (forall i :: 0 <= i < |all| ==> Disjoint(all[i].spans))
  }

  lemma OrderedPlus(base: Checkpoint, deltas: seq<Checkpoint>, cp: Checkpoint, interval: nat)
    requires Ordered(base, deltas, interval) && Disjoint(cp.spans)
    requires Newest(base, deltas).icount <= cp.icount <= Newest(base, deltas).icount + interval
    ensures Ordered(base, deltas + [cp], interval)
  {
    hide Disjoint;
    var all, more := [base] + deltas, [base] + (deltas + [cp]);
    assert all[|all| - 1] == Newest(base, deltas);
    assert forall i :: 0 <= i < |all| ==> more[i] == all[i];
    assert more[|all|] == cp && |more| == |all| + 1;
  }

  lemma OrderedPrefix(base: Checkpoint, deltas: seq<Checkpoint>, n: nat, interval: nat)
    requires Ordered(base, deltas, interval) && n <= |deltas|
    ensures Ordered(base, deltas[..n], interval)
  {
    assert [base] + deltas[..n] == ([base] + deltas)[..n + 1];
  }

  lemma OrderedFolded(base: Checkpoint, deltas: seq<Checkpoint>, d: nat, interval: nat)
    requires Ordered(base, deltas, interval) && d <= |deltas|
    ensures Ordered(Folded(base, deltas[..d]), deltas[d..], interval)
    ensures Newest(Folded(base, deltas[..d]), deltas[d..]).icount == Newest(base, deltas).icount
    ensures Folded(base, deltas[..d]).icount >= base.icount
  {
    hide Disjoint, Over;
    var all := [base] + deltas;
    var rest := [Folded(base, deltas[..d])] + deltas[d..];
    assert |rest| == |all| - d;
    assert forall i :: 0 <= i < |rest| ==> rest[i].icount == all[i + d].icount && rest[i].spans == all[i + d].spans;
    assert all[|all| - 1] == Newest(base, deltas);
    assert rest[0].icount == all[d].icount && all[0] == base;
  }

  /** What folding d deltas leaves: the same newest state, the same order. */
  lemma FoldedKeeps(base: Checkpoint, deltas: seq<Checkpoint>, d: nat, interval: nat)
    requires Ordered(base, deltas, interval) && d <= |deltas|
    ensures Ordered(Folded(base, deltas[..d]), deltas[d..], interval)
    ensures Newest(Folded(base, deltas[..d]), deltas[d..]).icount == Newest(base, deltas).icount
    ensures Snapshot(Folded(base, deltas[..d]), deltas[d..]) == Snapshot(base, deltas)
  {
    OrderedFolded(base, deltas, d, interval);
    FoldKeepsSnapshots(base, deltas, d, |deltas| - d);
    assert deltas[..|deltas|] == deltas && deltas[d..][..|deltas| - d] == deltas[d..];
  }

  // ---- finding and dropping checkpoints ----

  /** i is the latest checkpoint that is not after instruction k; 0 is the base. */
  ghost predicate Latest(base: Checkpoint, deltas: seq<Checkpoint>, k: nat, i: nat) {
    && i <= |deltas|
    && Newest(base, deltas[..i]).icount <= k
    && forall j :: i <= j < |deltas| ==> deltas[j].icount > k
  }

  function NotAfter(deltas: seq<Checkpoint>, k: nat): seq<Checkpoint> {
    if deltas == [] then []
    else
      var init := NotAfter(deltas[..|deltas| - 1], k);
      var cp := deltas[|deltas| - 1];
      if cp.icount <= k then init + [cp] else init
  }

  lemma {:induction false} NotAfterIsPrefix(base: Checkpoint, deltas: seq<Checkpoint>, k: nat, i: nat, interval: nat)
    requires Ordered(base, deltas, interval) && Latest(base, deltas, k, i)
    ensures NotAfter(deltas, k) == deltas[..i]
  {
    if i == |deltas| {
      assert deltas[..i] == deltas;
      NotAfterAll(base, deltas, k, interval);
    } else {
      var init := deltas[..|deltas| - 1];
      OrderedPrefix(base, deltas, |deltas| - 1, interval);
      assert init[..i] == deltas[..i];
      NotAfterIsPrefix(base, init, k, i, interval);
    }
  }

  lemma {:induction false} NotAfterAll(base: Checkpoint, deltas: seq<Checkpoint>, k: nat, interval: nat)
    requires Ordered(base, deltas, interval) && Newest(base, deltas).icount <= k
    ensures NotAfter(deltas, k) == deltas
  {
    if deltas == [] {
    } else {
      var init := deltas[..|deltas| - 1];
      OrderedPrefix(base, deltas, |deltas| - 1, interval);
      var all := [base] + deltas;
      assert all[|init|] == Newest(base, init) && all[|all| - 1] == Newest(base, deltas);
      NotAfterAll(base, init, k, interval);
    }
  }

  /** With checkpoints at most an interval apart, no instruction is further than that from one. */
  lemma ReplayIsShort(base: Checkpoint, deltas: seq<Checkpoint>, interval: nat, k: nat, i: nat)
    requires Ordered(base, deltas, interval) && Latest(base, deltas, k, i)
    requires k <= Newest(base, deltas).icount + interval
    ensures k - Newest(base, deltas[..i]).icount <= interval
  {
    var all := [base] + deltas;
    assert all[i] == Newest(base, deltas[..i]);
    if i < |deltas| {
      assert all[i + 1] == deltas[i];
    } else {
      assert deltas[..i] == deltas;
    }
  }

  lemma LatestDisjoint(base: Checkpoint, deltas: seq<Checkpoint>, i: nat, interval: nat)
    requires Ordered(base, deltas, interval) && i <= |deltas|
    ensures Disjoint(Newest(base, deltas[..i]).spans)
  {
    assert ([base] + deltas)[i] == Newest(base, deltas[..i]);
  }

  /** Going on while the next checkpoint is not later than the one found stops right after it. */
  lemma LatestIsFirstPast(base: Checkpoint, deltas: seq<Checkpoint>, k: nat, i: nat, interval: nat)
    requires Ordered(base, deltas, interval) && Latest(base, deltas, k, i)
    ensures forall n :: 0 <= n < |deltas| ==> (deltas[n].icount <= Newest(base, deltas[..i]).icount <==> n < i)
  {
    var all := [base] + deltas;
    assert all[i] == Newest(base, deltas[..i]);
    forall n | 0 <= n < |deltas|
      ensures deltas[n].icount <= Newest(base, deltas[..i]).icount <==> n < i
    {
      assert all[n + 1] == deltas[n];
    }
  }
}
