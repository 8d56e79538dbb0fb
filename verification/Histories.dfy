/**
 How the recorder's checkpoints and a layer's log stand to the run they were taken from, and what
 each operation of the recorder does to that.  The run is the list of worlds the machine has been
 through, world k being the one just before instruction k.
 */
module Histories {
  import opened Options
  import opened Machine
  import opened Acts
  import opened Checkpoints
  import opened EffectLogs
  import opened Runs

  // ---- checkpoints and the run ----

  /** Every page mapped at some point up to instruction n. */
  function Seen<L>(hist: seq<World<L>>, n: nat): set<nat>
    requires n < |hist|
  {
    hist[n].m.mem.Keys + (if n == 0 then {} else Seen(hist, n - 1))
  }

  function IcountOf(base: Checkpoint, deltas: seq<Checkpoint>, i: nat): nat
    requires i <= |deltas|
  {
    Newest(base, deltas[..i]).icount
  }

  /** Each checkpoint has the regions of the instant it was taken at, and only images of pages mapped by then. */
  ghost predicate PlacedAt<L>(base: Checkpoint, deltas: seq<Checkpoint>, hist: seq<World<L>>, i: nat)
    requires i <= |deltas|
  {
    && IcountOf(base, deltas, i) < |hist|
    && Newest(base, deltas[..i]).spans == hist[IcountOf(base, deltas, i)].m.spans
    && Over(base.pages, deltas[..i]).Keys <= Seen(hist, IcountOf(base, deltas, i))
  }

  ghost predicate Placed<L>(base: Checkpoint, deltas: seq<Checkpoint>, hist: seq<World<L>>) {
    && (forall i :: 0 <= i <= |deltas| ==> PlacedAt(base, deltas, hist, i))
    && Drawn(base, deltas, hist)
  }

  predicate Shows(m: State, p: nat) {
    p in m.mem && m.mem[p] != ZeroPage()
  }

  /** Page p was mapped and held something at some time up to instruction n. */
  ghost predicate Showed<L>(hist: seq<World<L>>, n: nat, p: nat) {
    exists i :: 0 <= i <= n && i < |hist| && Shows(hist[i].m, p)
  }

  ghost predicate DrawnAt<L>(base: Checkpoint, deltas: seq<Checkpoint>, hist: seq<World<L>>, i: nat)
    requires i <= |deltas|
  {
    forall p :: p in Over(base.pages, deltas[..i]) && Over(base.pages, deltas[..i])[p] != ZeroPage() ==>
      Showed(hist, IcountOf(base, deltas, i), p)
  }

  /** What a checkpoint that a restore can use has images of, other than zeros, was there in the run by then. */
  ghost predicate Drawn<L>(base: Checkpoint, deltas: seq<Checkpoint>, hist: seq<World<L>>) {
    forall i: nat :: Governs(base, deltas, i) ==> DrawnAt(base, deltas, hist, i)
  }

  /** Checkpoint i is the one a restore to its instruction uses: the last of those taken there. */
  ghost predicate Governs(base: Checkpoint, deltas: seq<Checkpoint>, i: nat) {
    i <= |deltas| && (i < |deltas| ==> deltas[i].icount > IcountOf(base, deltas, i))
  }

  ghost predicate ExactAt<L>(base: Checkpoint, deltas: seq<Checkpoint>, hist: seq<World<L>>, i: nat)
    requires i <= |deltas|
  {
    && IcountOf(base, deltas, i) < |hist|
    && Snapshot(base, deltas[..i]) == hist[IcountOf(base, deltas, i)].m
    && hist[IcountOf(base, deltas, i)].m.spans != {}
  }

  /** From instruction `since` on, every checkpoint that a restore can use describes the state the run had there. */
  ghost predicate Exact<L>(base: Checkpoint, deltas: seq<Checkpoint>, hist: seq<World<L>>, since: nat) {
    forall i: nat :: Governs(base, deltas, i) && IcountOf(base, deltas, i) >= since ==> ExactAt(base, deltas, hist, i)
  }

  /** A debugger edit is always at a checkpoint. */
  ghost predicate Anchored<L>(base: Checkpoint, deltas: seq<Checkpoint>, hist: seq<World<L>>) {
    forall j :: base.icount < j < |hist| && hist[j].edited ==> HasCheckpoint(base, deltas, j)
  }

  ghost predicate HasCheckpoint(base: Checkpoint, deltas: seq<Checkpoint>, j: nat) {
    exists i :: 0 <= i <= |deltas| && IcountOf(base, deltas, i) == j
  }

  lemma IcountOrder(base: Checkpoint, deltas: seq<Checkpoint>, interval: nat, i: nat, j: nat)
    requires Ordered(base, deltas, interval) && i <= j <= |deltas|
    ensures IcountOf(base, deltas, i) <= IcountOf(base, deltas, j)
    ensures i > 0 ==> deltas[i - 1].icount == IcountOf(base, deltas, i)
  {
    var all := [base] + deltas;
    assert all[i] == Newest(base, deltas[..i]) && all[j] == Newest(base, deltas[..j]);
  }

  /** Between the checkpoint a restore uses and the instruction it is for, nothing was edited. */
  lemma NoEditSince<L>(base: Checkpoint, deltas: seq<Checkpoint>, interval: nat, hist: seq<World<L>>, k: nat, i: nat)
    requires Ordered(base, deltas, interval) && Anchored(base, deltas, hist)
    requires Latest(base, deltas, k, i) && k < |hist|
    ensures forall j :: IcountOf(base, deltas, i) < j <= k ==> !hist[j].edited
    ensures Governs(base, deltas, i)
  {
    IcountOrder(base, deltas, interval, 0, i);
    assert deltas[..0] == [];
    forall j | IcountOf(base, deltas, i) < j <= k
      ensures !hist[j].edited
    {
      if hist[j].edited {
        assert HasCheckpoint(base, deltas, j);
        var n :| 0 <= n <= |deltas| && IcountOf(base, deltas, n) == j;
        if n <= i {
          IcountOrder(base, deltas, interval, n, i);
        } else {
          IcountOrder(base, deltas, interval, n, n);
        }
      }
    }
  }

  // ---- the history starts again at i ----

  lemma SeenPrefix<L>(hist: seq<World<L>>, hist': seq<World<L>>, n: nat)
    requires n < |hist| && n < |hist'| && forall j :: 0 <= j <= n ==> hist[j].m.mem.Keys == hist'[j].m.mem.Keys
    ensures Seen(hist, n) == Seen(hist', n)
  {
    if n == 0 {
    } else {
      SeenPrefix(hist, hist', n - 1);
    }
  }

  lemma {:induction false} SeenGrows<L>(hist: seq<World<L>>, m: nat, n: nat)
    requires m <= n < |hist|
    ensures Seen(hist, m) <= Seen(hist, n)
  {
    if m == n {
    } else {
      SeenGrows(hist, m, n - 1);
    }
  }

  lemma ShowedElsewhere<L>(hist: seq<World<L>>, hist': seq<World<L>>, m: nat, n: nat, p: nat)
    requires Showed(hist, m, p) && m <= n && m < |hist'| && forall j :: 0 <= j <= m && j < |hist| ==>
      hist[j] == hist'[j]
    ensures Showed(hist', n, p)
  {
    var i :| 0 <= i <= m && i < |hist| && Shows(hist[i].m, p);
    assert Shows(hist'[i].m, p);
  }

  lemma DrawnAtElsewhere<L>(base: Checkpoint, deltas: seq<Checkpoint>, hist: seq<World<L>>, hist': seq<World<L>>,
                            i: nat)
    requires i <= |deltas| && DrawnAt(base, deltas, hist, i) && IcountOf(base, deltas, i) < |hist'|
    requires forall j :: 0 <= j <= IcountOf(base, deltas, i) && j < |hist| ==> hist[j] == hist'[j]
    ensures DrawnAt(base, deltas, hist', i)
  {
    hide Showed, Over;
    forall p | p in Over(base.pages, deltas[..i]) && Over(base.pages, deltas[..i])[p] != ZeroPage()
      ensures Showed(hist', IcountOf(base, deltas, i), p)
    {
      ShowedElsewhere(hist, hist', IcountOf(base, deltas, i), IcountOf(base, deltas, i), p);
    }
  }

  /** The same run up to the newest checkpoint, edits there aside, has the checkpoints in the same places. */
  lemma PlacedElsewhere<L>(base: Checkpoint, deltas: seq<Checkpoint>, interval: nat, hist: seq<World<L>>,
                           hist': seq<World<L>>)
    requires Ordered(base, deltas, interval) && Placed(base, deltas, hist) && IcountOf(base, deltas, |deltas|) < |hist'|
    requires forall j :: 0 <= j <= IcountOf(base, deltas, |deltas|) && j < |hist| ==>
      hist'[j].m.spans == hist[j].m.spans && hist'[j].m.mem.Keys == hist[j].m.mem.Keys
    ensures forall i :: 0 <= i <= |deltas| ==> PlacedAt(base, deltas, hist', i)
  {
    hide Drawn;
    forall i | 0 <= i <= |deltas|
      ensures PlacedAt(base, deltas, hist', i)
    {
      assert PlacedAt(base, deltas, hist, i);
      IcountOrder(base, deltas, interval, i, |deltas|);
      SeenPrefix(hist, hist', IcountOf(base, deltas, i));
    }
  }

  lemma CutBack<L>(base: Checkpoint, deltas: seq<Checkpoint>, interval: nat, hist: seq<World<L>>, k: nat, i: nat)
    requires Ordered(base, deltas, interval) && Latest(base, deltas, k, i) && k < |hist|
    requires Placed(base, deltas, hist) && Anchored(base, deltas, hist)
    ensures Placed(base, deltas[..i], hist[..k + 1]) && Anchored(base, deltas[..i], hist[..k + 1])
    ensures forall since: nat :: Exact(base, deltas, hist, since) ==> Exact(base, deltas[..i], hist[..k + 1], since)
  {
    var h, ds := hist[..k + 1], deltas[..i];
    DrawnCut(base, deltas, interval, hist, k, i);
    hide Drawn;
    OrderedPrefix(base, deltas, i, interval);
    forall n | 0 <= n <= i
      ensures ds[..n] == deltas[..n] && IcountOf(base, ds, n) == IcountOf(base, deltas, n) <= k
    {
      assert ds[..n] == deltas[..n];
      IcountOrder(base, deltas, interval, n, i);
    }
    forall n | 0 <= n <= |ds|
      ensures PlacedAt(base, ds, h, n)
    {
      assert PlacedAt(base, deltas, hist, n);
      SeenPrefix(hist, h, IcountOf(base, ds, n));
    }
    forall j | base.icount < j < |h| && h[j].edited
      ensures HasCheckpoint(base, ds, j)
    {
      assert hist[j].edited && HasCheckpoint(base, deltas, j);
      var n :| 0 <= n <= |deltas| && IcountOf(base, deltas, n) == j;
      if n > i {
        IcountOrder(base, deltas, interval, n, n);
      }
      assert IcountOf(base, ds, n) == j;
    }
    forall since: nat | Exact(base, deltas, hist, since)
      ensures Exact(base, ds, h, since)
    {
      forall n: nat | Governs(base, ds, n) && IcountOf(base, ds, n) >= since
        ensures ExactAt(base, ds, h, n)
      {
        assert Governs(base, deltas, n);
        assert ExactAt(base, deltas, hist, n);
      }
    }
  }

  lemma DrawnCut<L>(base: Checkpoint, deltas: seq<Checkpoint>, interval: nat, hist: seq<World<L>>, k: nat, i: nat)
    requires Ordered(base, deltas, interval) && Latest(base, deltas, k, i) && k < |hist| && Drawn(base, deltas, hist)
    ensures Drawn(base, deltas[..i], hist[..k + 1])
  {
    hide DrawnAt, Over;
    forall n: nat | Governs(base, deltas[..i], n)
      ensures DrawnAt(base, deltas[..i], hist[..k + 1], n)
    {
      assert deltas[..i][..n] == deltas[..n];
      IcountOrder(base, deltas, interval, n, i);
      IcountOrder(base, deltas, interval, i, i);
      assert deltas[..0] == [];
      assert Governs(base, deltas, n);
      DrawnAtElsewhere(base, deltas, hist, hist[..k + 1], n);
      DrawnAtSame(base, deltas, deltas[..i], hist[..k + 1], n);
    }
  }

  lemma DrawnAtSame<L>(base: Checkpoint, deltas: seq<Checkpoint>, deltas': seq<Checkpoint>, hist: seq<World<L>>, i: nat)
    requires i <= |deltas| && i <= |deltas'| && deltas[..i] == deltas'[..i] && DrawnAt(base, deltas, hist, i)
    ensures DrawnAt(base, deltas', hist, i)
  {
  }

  // ---- a checkpoint is added ----

  lemma FirstCheckpoint<L>(hist: seq<World<L>>, n: nat)
    requires n < |hist| && WellFormed(hist[n].m)
    ensures var m := hist[n].m; var base := Checkpoint(n, m.ctx, m.mem, m.spans);
      && Placed(base, [], hist) && Uncovered(base) == {}
      && (n == |hist| - 1 ==> Anchored(base, [], hist))
      && (m.spans != {} ==> forall since: nat :: Exact(base, [], hist, since))
  {
    var m := hist[n].m;
    var base := Checkpoint(n, m.ctx, m.mem, m.spans);
    FirstIsExact(m, n);
    var none: seq<Checkpoint> := [];
    assert none[..0] == [];
    assert PlacedAt(base, none, hist, 0);
    forall p | p in m.mem && m.mem[p] != ZeroPage()
      ensures Showed(hist, n, p)
    {
      assert Shows(hist[n].m, p);
    }
    assert DrawnAt(base, none, hist, 0);
  }

  /** The same run with the world it ends in changed, if at all, by an edit. */
  ghost predicate SameButLast<L>(hist: seq<World<L>>, hist': seq<World<L>>) {
    && |hist| == |hist'| > 0
    && (forall j :: 0 <= j < |hist| - 1 ==> hist[j] == hist'[j])
    && hist[|hist| - 1].m.spans == hist'[|hist| - 1].m.spans
    && hist[|hist| - 1].m.mem.Keys == hist'[|hist| - 1].m.mem.Keys
  }

  lemma AddCheckpoint<L>(base: Checkpoint, deltas: seq<Checkpoint>, interval: nat, hist: seq<World<L>>,
                         hist': seq<World<L>>, noted: set<nat>)
    requires Ordered(base, deltas, interval) && SameButLast(hist, hist')
    requires IcountOf(base, deltas, |deltas|) < |hist| && Unedited(hist, hist', noted)
    requires Placed(base, deltas, hist) && Anchored(base, deltas, hist)
    ensures var cs := deltas + [Taken(hist'[|hist| - 1].m, noted, |hist| - 1)];
      Placed(base, cs, hist') && Anchored(base, cs, hist')
  {
    var n := |hist| - 1;
    var m := hist'[n].m;
    var cs := deltas + [Taken(m, noted, n)];
    DrawnPlus(base, deltas, interval, hist, hist', noted);
    hide Drawn, Unedited;
    PlacedElsewhere(base, deltas, interval, hist, hist');
    forall i | 0 <= i <= |deltas|
      ensures cs[..i] == deltas[..i]
    {
    }
    forall i | 0 <= i <= |cs|
      ensures PlacedAt(base, cs, hist', i)
    {
      if i <= |deltas| {
        assert PlacedAt(base, deltas, hist', i);
      } else {
        assert cs[..i] == cs && cs[..|cs| - 1] == deltas;
        assert PlacedAt(base, deltas, hist', |deltas|);
        assert deltas[..|deltas|] == deltas;
        SeenGrows(hist', IcountOf(base, deltas, |deltas|), n);
      }
    }
    forall j | base.icount < j < |hist'| && hist'[j].edited
      ensures HasCheckpoint(base, cs, j)
    {
      if j == n {
        assert cs[..|cs|] == cs;
        assert IcountOf(base, cs, |cs|) == n;
      } else {
        assert HasCheckpoint(base, deltas, j);
        var i :| 0 <= i <= |deltas| && IcountOf(base, deltas, i) == j;
        assert IcountOf(base, cs, i) == j;
      }
    }
  }

  /** An edit changes nothing in its world but what is noted. */
  ghost predicate Unedited<L>(hist: seq<World<L>>, hist': seq<World<L>>, noted: set<nat>) {
    |hist| == |hist'| &&
      (hist != [] ==> forall p :: p !in noted && Shows(hist[|hist| - 1].m, p) ==> Shows(hist'[|hist| - 1].m, p))
  }

  lemma UneditedSelf<L>(hist: seq<World<L>>, noted: set<nat>)
    ensures Unedited(hist, hist, noted)
  {
  }

  lemma DrawnPlus<L>(base: Checkpoint, deltas: seq<Checkpoint>, interval: nat, hist: seq<World<L>>,
                     hist': seq<World<L>>, noted: set<nat>)
    requires Ordered(base, deltas, interval) && SameButLast(hist, hist') && IcountOf(base, deltas, |deltas|) < |hist|
    requires Unedited(hist, hist', noted) && Drawn(base, deltas, hist)
    ensures Drawn(base, deltas + [Taken(hist'[|hist| - 1].m, noted, |hist| - 1)], hist')
  {
    var n := |hist| - 1;
    var m := hist'[n].m;
    var cs := deltas + [Taken(m, noted, n)];
    forall i: nat | Governs(base, cs, i)
      ensures DrawnAt(base, cs, hist', i)
    {
      if i <= |deltas| {
        assert cs[..i] == deltas[..i] && Governs(base, deltas, i);
        IcountOrder(base, deltas, interval, i, |deltas|);
        if i < |deltas| {
          IcountOrder(base, deltas, interval, i + 1, |deltas|);
        }
        DrawnAtElsewhere(base, deltas, hist, hist', i);
        DrawnAtSame(base, deltas, cs, hist', i);
      } else {
        assert cs[..i] == cs && cs[..|cs| - 1] == deltas && deltas[..|deltas|] == deltas;
        assert Governs(base, deltas, |deltas|);
        NewestDrawn(base, deltas, hist, hist', noted);
      }
    }
  }

  /** An image that the new checkpoint does not replace is as it was, and what was there is there still. */
  lemma NewestDrawn<L>(base: Checkpoint, deltas: seq<Checkpoint>, hist: seq<World<L>>, hist': seq<World<L>>,
                       noted: set<nat>)
    requires SameButLast(hist, hist') && Unedited(hist, hist', noted)
    requires DrawnAt(base, deltas, hist, |deltas|) && IcountOf(base, deltas, |deltas|) < |hist|
    ensures var images := Over(base.pages, deltas) + PagesAt(hist'[|hist| - 1].m.mem, noted);
      forall p :: p in images && images[p] != ZeroPage() ==> Showed(hist', |hist| - 1, p)
  {
    hide Over, Showed;
    var n := |hist| - 1;
    var m := hist'[n].m;
    var images := Over(base.pages, deltas) + PagesAt(m.mem, noted);
    assert deltas[..|deltas|] == deltas;
    forall p | p in images && images[p] != ZeroPage()
      ensures Showed(hist', n, p)
    {
      if p in PagesAt(m.mem, noted) {
        ShowedNow(hist', n, p);
      } else {
        ShowsStill(hist, hist', noted, IcountOf(base, deltas, |deltas|), p);
      }
    }
  }

  lemma ShowedNow<L>(hist: seq<World<L>>, n: nat, p: nat)
    requires n < |hist| && Shows(hist[n].m, p)
    ensures Showed(hist, n, p)
  {
  }

  lemma ShowsStill<L>(hist: seq<World<L>>, hist': seq<World<L>>, noted: set<nat>, n: nat, p: nat)
    requires SameButLast(hist, hist') && Unedited(hist, hist', noted) && n < |hist| && Showed(hist, n, p)
    requires p in noted ==> p !in hist'[|hist| - 1].m.mem
    ensures Showed(hist', |hist| - 1, p)
  {
    var i :| 0 <= i <= n && i < |hist| && Shows(hist[i].m, p);
    assert i < |hist| - 1 ==> hist'[i] == hist[i];
    assert Shows(hist'[i].m, p);
  }

  lemma AddExact<L>(base: Checkpoint, deltas: seq<Checkpoint>, interval: nat, hist: seq<World<L>>, hist': seq<World<L>>,
                    noted: set<nat>, since: nat)
    requires Ordered(base, deltas, interval) && IcountOf(base, deltas, |deltas|) < |hist|
    requires SameButLast(hist, hist') && Exact(base, deltas, hist, since) && WellFormed(hist'[|hist| - 1].m)
    requires Stale(base, deltas, noted, hist'[|hist| - 1].m) == {} && hist'[|hist| - 1].m.spans != {}
    ensures Exact(base, deltas + [Taken(hist'[|hist| - 1].m, noted, |hist| - 1)], hist', since)
  {
    var n := |hist| - 1;
    var m := hist'[n].m;
    var cs := deltas + [Taken(m, noted, n)];
    DeltaExactIffNothingStale(base, deltas, noted, m, n);
    forall i: nat | Governs(base, cs, i) && IcountOf(base, cs, i) >= since
      ensures ExactAt(base, cs, hist', i)
    {
      if i <= |deltas| {
        assert cs[..i] == deltas[..i];
        assert Governs(base, deltas, i);
        if i < |deltas| {
          IcountOrder(base, deltas, interval, i + 1, |deltas|);
        }
        assert ExactAt(base, deltas, hist, i);
      } else {
        assert cs[..i] == cs;
      }
    }
  }

  // ---- the oldest d deltas are folded away ----

  lemma FoldKeepsPlaces<L>(base: Checkpoint, cs: seq<Checkpoint>, interval: nat, hist: seq<World<L>>, d: nat)
    requires Ordered(base, cs, interval) && Placed(base, cs, hist) && Anchored(base, cs, hist) && d <= |cs|
    ensures Placed(Folded(base, cs[..d]), cs[d..], hist) && Anchored(Folded(base, cs[..d]), cs[d..], hist)
    ensures Folded(base, cs[..d]).icount == IcountOf(base, cs, d)
  {
    var base', cs' := Folded(base, cs[..d]), cs[d..];
    DrawnFolded(base, cs, hist, d);
    hide Drawn;
    forall i | 0 <= i <= |cs'|
      ensures PlacedAt(base', cs', hist, i) && IcountOf(base', cs', i) == IcountOf(base, cs, d + i)
    {
      FoldedAt(base, cs, d, i);
      assert PlacedAt(base, cs, hist, d + i);
    }
    forall j | base'.icount < j < |hist| && hist[j].edited
      ensures HasCheckpoint(base', cs', j)
    {
      IcountOrder(base, cs, interval, 0, d);
      assert cs[..0] == [];
      assert HasCheckpoint(base, cs, j);
      var i :| 0 <= i <= |cs| && IcountOf(base, cs, i) == j;
      if i <= d {
        IcountOrder(base, cs, interval, i, d);
      }
      assert IcountOf(base', cs', i - d) == j;
    }
  }

  lemma DrawnFolded<L>(base: Checkpoint, cs: seq<Checkpoint>, hist: seq<World<L>>, d: nat)
    requires Drawn(base, cs, hist) && d <= |cs|
    ensures Drawn(Folded(base, cs[..d]), cs[d..], hist)
  {
    hide Over, Folded, Showed;
    forall i: nat | Governs(Folded(base, cs[..d]), cs[d..], i)
      ensures DrawnAt(Folded(base, cs[..d]), cs[d..], hist, i)
    {
      FoldedAt(base, cs, d, i);
      assert Governs(base, cs, d + i);
      assert DrawnAt(base, cs, hist, d + i);
    }
  }

  lemma FoldedAt(base: Checkpoint, cs: seq<Checkpoint>, d: nat, i: nat)
    requires d + i <= |cs|
    ensures Newest(Folded(base, cs[..d]), cs[d..][..i]).icount == Newest(base, cs[..d + i]).icount
    ensures Newest(Folded(base, cs[..d]), cs[d..][..i]).spans == Newest(base, cs[..d + i]).spans
    ensures Over(Folded(base, cs[..d]).pages, cs[d..][..i]) == Over(base.pages, cs[..d + i])
  {
    var ds := cs[..d + i];
    OverSplit(base.pages, ds, d);
    assert ds[..d] == cs[..d];
    assert ds[d..] == cs[d..][..i];
  }

  lemma FoldKeepsExact<L>(base: Checkpoint, cs: seq<Checkpoint>, hist: seq<World<L>>, d: nat, since: nat)
    requires Exact(base, cs, hist, since) && d <= |cs|
    ensures Exact(Folded(base, cs[..d]), cs[d..], hist, since)
  {
    var base', cs' := Folded(base, cs[..d]), cs[d..];
    forall i: nat | Governs(base', cs', i) && IcountOf(base', cs', i) >= since
      ensures ExactAt(base', cs', hist, i)
    {
      FoldKeepsSnapshots(base, cs, d, i);
      assert Governs(base, cs, d + i);
      assert ExactAt(base, cs, hist, d + i);
    }
  }

  /** Folding takes no image away from the base. */
  lemma FoldGrows(base: Checkpoint, cs: seq<Checkpoint>, d: nat)
    requires d <= |cs|
    ensures base.pages.Keys <= Folded(base, cs[..d]).pages.Keys
  {
    OverKeys(base.pages, cs[..d]);
  }

  /**
   As long as nothing is mapped that was not mapped at e, a base with images of everything there was at e
   covers its regions.
   */
  lemma NothingNewCovers<L>(base: Checkpoint, deltas: seq<Checkpoint>, hist: seq<World<L>>, e: nat)
    requires Placed(base, deltas, hist) && e <= base.icount < |hist| && WellFormed(hist[base.icount].m)
    requires hist[e].m.mem.Keys <= base.pages.Keys && NoGrowth(hist, e)
    ensures Uncovered(base) == {}
  {
    assert deltas[..0] == [];
    assert PlacedAt(base, deltas, hist, 0);
  }

  // ---- the recorder takes a checkpoint ----

  lemma RecordKeeps<L>(base0: Option<Checkpoint>, cs0: seq<Checkpoint>, noted: set<nat>, interval: nat,
                       hist: seq<World<L>>, hist': seq<World<L>>, base1: Checkpoint, cs1: seq<Checkpoint>, d: int)
    requires SameButLast(hist, hist') && WellFormed(hist'[|hist| - 1].m)
    requires AfterRecord(base0, cs0, noted, hist'[|hist| - 1].m, |hist| - 1, base1, cs1, d)
    requires Unedited(hist, hist', noted)
    requires base0.Some? ==>
      && Ordered(base0.value, cs0, interval) &&
        Newest(base0.value, cs0).icount < |hist| <= Newest(base0.value, cs0).icount + interval + 1
      && Placed(base0.value, cs0, hist) && Anchored(base0.value, cs0, hist)
    ensures Placed(base1, cs1, hist') && Anchored(base1, cs1, hist')
    ensures base0.Some? ==> base1.icount >= base0.value.icount
    ensures base1.icount < |hist| && Newest(base1, cs1).icount == |hist| - 1
    ensures d == 0 && base0.Some? ==> base1 == base0.value
    ensures base0.Some? ==> base0.value.pages.Keys <= base1.pages.Keys
    ensures base0.None? ==>
      base1.icount == |hist| - 1 && base1.pages == hist'[|hist| - 1].m.mem && Uncovered(base1) == {}
  {
    hide Placed, Anchored, Over, Ordered, Snapshot, Unedited;
    var n := |hist| - 1;
    match base0
    case None => FirstCheckpoint(hist', n);
    case Some(b) =>
      var cs := cs0 + [Taken(hist'[n].m, noted, n)];
      assert cs0[..|cs0|] == cs0 && cs[..|cs|] == cs;
      AddCheckpoint(b, cs0, interval, hist, hist', noted);
      WellFormedDisjoint(hist'[n].m);
      OrderedPlus(b, cs0, Taken(hist'[n].m, noted, n), interval);
      FoldKeepsPlaces(b, cs, interval, hist', d);
      IcountOrder(b, cs, interval, 0, d);
      IcountOrder(b, cs, interval, d, |cs|);
      assert cs[..0] == [];
      FoldedKeeps(b, cs, d, interval);
      FoldGrows(b, cs, d);
      FoldNone(b, cs);
  }

  lemma RunWellFormed<L>(cpu: Cpu<L>, hist: seq<World<L>>)
    requires IsRun(cpu, hist)
    ensures forall j :: 0 <= j < |hist| ==> WellFormed(hist[j].m)
  {
  }

  /** Nothing is ever mapped that was not mapped at e already. */
  ghost predicate NoGrowth<L>(hist: seq<World<L>>, e: nat) {
    forall j :: e <= j < |hist| ==> hist[j].m.mem.Keys <= hist[e].m.mem.Keys
  }

  /** The checkpoints from instruction `since` on tell the run as it was. */
  ghost predicate Faithful<L>(base: Checkpoint, deltas: seq<Checkpoint>, hist: seq<World<L>>, since: nat) {
    base.icount < |hist| && Exact(base, deltas, hist, since)
  }

  lemma RecordKeepsFaith<L>(base0: Option<Checkpoint>, cs0: seq<Checkpoint>, noted: set<nat>, interval: nat,
                            hist: seq<World<L>>, hist': seq<World<L>>, base1: Checkpoint, cs1: seq<Checkpoint>, d: int,
                              since: nat)
    requires SameButLast(hist, hist') && (forall j :: 0 <= j < |hist'| ==> WellFormed(hist'[j].m))
    requires hist'[|hist| - 1].m.spans != {}
    requires AfterRecord(base0, cs0, noted, hist'[|hist| - 1].m, |hist| - 1, base1, cs1, d)
    requires Unedited(hist, hist', noted)
    requires base0.Some? ==>
      && Ordered(base0.value, cs0, interval) &&
        Newest(base0.value, cs0).icount < |hist| <= Newest(base0.value, cs0).icount + interval + 1
      && Placed(base0.value, cs0, hist) && Anchored(base0.value, cs0, hist)
      && Faithful(base0.value, cs0, hist, since) && Stale(base0.value, cs0, noted, hist'[|hist| - 1].m) == {}
    ensures Faithful(base1, cs1, hist', since)
    ensures Stale(base1, cs1, {}, hist'[|hist| - 1].m) == {}
  {
    hide Placed, Anchored, Over, Ordered, Exact, Stale, Snapshot, Unedited;
    var n := |hist| - 1;
    RecordKeeps(base0, cs0, noted, interval, hist, hist', base1, cs1, d);
    match base0
    case None =>
      FirstCheckpoint(hist', n);
      FirstIsExact(hist'[n].m, n);
      NothingStale(base1, cs1, hist'[n].m);
    case Some(b) =>
      var cs := cs0 + [Taken(hist'[n].m, noted, n)];
      assert cs0[..|cs0|] == cs0 && cs[..|cs|] == cs && cs[..0] == [];
      AddCheckpoint(b, cs0, interval, hist, hist', noted);
      AddExact(b, cs0, interval, hist, hist', noted, since);
      FoldKeepsExact(b, cs, hist', d, since);
      WellFormedDisjoint(hist'[n].m);
      OrderedPlus(b, cs0, Taken(hist'[n].m, noted, n), interval);
      IcountOrder(b, cs, interval, 0, d);
      IcountOrder(b, cs, interval, d, |cs|);
      DeltaExactIffNothingStale(b, cs0, noted, hist'[n].m, n);
      FoldedKeeps(b, cs, d, interval);
      NothingStale(base1, cs1, hist'[n].m);
  }

  lemma NothingStale(base: Checkpoint, deltas: seq<Checkpoint>, m: State)
    requires Snapshot(base, deltas) == m
    ensures forall noted :: Stale(base, deltas, noted, m) == {}
  {
  }

  // ---- an instruction runs ----

  /** No page comes back once it has gone. */
  ghost predicate NoRemap<L>(hist: seq<World<L>>) {
    forall i, j, p :: 0 <= i < j && Appears(hist, j, p) ==> p !in hist[i].m.mem
  }

  /** Instruction j maps page p. */
  ghost predicate Appears<L>(hist: seq<World<L>>, j: nat, p: nat) {
    j + 1 < |hist| && p in hist[j + 1].m.mem && p !in hist[j].m.mem
  }

  /** Instruction j maps a page that held something at some time before, and does not write it. */
  ghost predicate Remaps<L(!new)>(cpu: Cpu<L>, hist: seq<World<L>>, j: nat) {
    exists p :: Appears(hist, j, p) && p !in Noticed(cpu, {}, hist[j]) && Showed(hist, j, p)
  }

  /** Where no page comes back, there is no such instruction. */
  lemma NothingRemaps<L(!new)>(cpu: Cpu<L>, hist: seq<World<L>>, j: nat)
    requires NoRemap(hist)
    ensures !Remaps(cpu, hist, j)
  {
    hide Noticed;
    forall p | Appears(hist, j, p)
      ensures !Showed(hist, j, p)
    {
      assert forall i :: 0 <= i < j ==> p !in hist[i].m.mem;
    }
  }

  lemma RemapsElsewhere<L(!new)>(cpu: Cpu<L>, hist: seq<World<L>>, hist': seq<World<L>>, j: nat)
    requires Remaps(cpu, hist, j) && j + 1 < |hist'| && hist[j + 1].m.mem.Keys == hist'[j + 1].m.mem.Keys
    requires forall i :: 0 <= i <= j ==> hist[i] == hist'[i]
    ensures Remaps(cpu, hist', j)
  {
    hide Noticed;
    var p :| Appears(hist, j, p) && p !in Noticed(cpu, {}, hist[j]) && Showed(hist, j, p);
    ShowedElsewhere(hist, hist', j, j, p);
    assert Appears(hist', j, p);
  }

  /** From w to w', some page is mapped that looks different from its image, and nobody says so. */
  ghost predicate Blind<L(!new)>(cpu: Cpu<L>, base: Checkpoint, deltas: seq<Checkpoint>, noted: set<nat>, w: World<L>,
                                 w': World<L>) {
    exists p :: p in w'.m.mem && p !in w.m.mem && p !in Noticed(cpu, noted, w) &&
      ImageAt(Over(base.pages, deltas), p) != ZeroPage()
  }

  /** What is noted once the instruction at w has run for the first time. */
  function Noticed<L(!new)>(cpu: Cpu<L>, noted: set<nat>, w: World<L>): set<nat> {
    noted + Heard(cpu, w) + WrittenPages(ActsOf(cpu, w))
  }

  /**
     If the recorder knew of every change before an instruction, it does after it, if and only if the
     pages that are newly mapped and not written have no image, or one that is zero.
   */
  lemma NothingGoesUnnoticedIff<L(!new)>(cpu: Cpu<L>, base: Checkpoint, deltas: seq<Checkpoint>, noted: set<nat>,
                                         w: World<L>, w': World<L>)
    requires Orderly(cpu) && WellFormed(w.m) && Follows(cpu, w, w') && !w'.edited
    requires Stale(base, deltas, noted, w.m) == {}
    ensures Stale(base, deltas, Noticed(cpu, noted, w), w'.m) == {} <==> !Blind(cpu, base, deltas, noted, w, w')
  {
    hide Over, WellFormed, Orderly, WrittenPages, Heard, ImageAt, Follows;
    forall p | p in w'.m.mem && p !in Noticed(cpu, noted, w)
      ensures p in w.m.mem ==> w'.m.mem[p] == ImageAt(Over(base.pages, deltas), p)
      ensures p !in w.m.mem ==> w'.m.mem[p] == ZeroPage()
    {
      StepFrame(cpu, w, w', p);
      assert p in w.m.mem ==> p !in Stale(base, deltas, noted, w.m);
    }
    if Blind(cpu, base, deltas, noted, w, w') {
      var p :| p in w'.m.mem && p !in w.m.mem && p !in Noticed(cpu, noted, w) &&
        ImageAt(Over(base.pages, deltas), p) != ZeroPage();
      assert p in Stale(base, deltas, Noticed(cpu, noted, w), w'.m);
    }
  }

  /** An instruction that does not call a layer maps nothing. */
  lemma PlainMapsNothing<L(!new)>(cpu: Cpu<L>, base: Checkpoint, deltas: seq<Checkpoint>, noted: set<nat>, w: World<L>,
                                  w': World<L>)
    requires Follows(cpu, w, w') && !w'.edited && !Serves(cpu, w)
    ensures !Blind(cpu, base, deltas, noted, w, w')
  {
    match cpu.exec(w.m)
    case Done(next, accesses) => PutAllKeys(w.m.mem, accesses);
    case _ =>
  }

  /** Only a page that held something before can have an image that is not zero when it is mapped. */
  lemma BlindRemaps<L(!new)>(cpu: Cpu<L>, base: Checkpoint, deltas: seq<Checkpoint>, noted: set<nat>,
                             hist: seq<World<L>>, j: nat)
    requires Placed(base, deltas, hist) && IcountOf(base, deltas, |deltas|) <= j && j + 1 < |hist|
    requires Blind(cpu, base, deltas, noted, hist[j], hist[j + 1])
    ensures Remaps(cpu, hist, j)
  {
    hide Over, Heard, ActsOf, WrittenPages;
    var p :| p in hist[j + 1].m.mem && p !in hist[j].m.mem && p !in Noticed(cpu, noted, hist[j]) &&
      ImageAt(Over(base.pages, deltas), p) != ZeroPage();
    assert Governs(base, deltas, |deltas|);
    assert DrawnAt(base, deltas, hist, |deltas|);
    assert deltas[..|deltas|] == deltas;
    ShowedElsewhere(hist, hist, IcountOf(base, deltas, |deltas|), j, p);
    assert Appears(hist, j, p);
  }

  lemma StepOfRun<L>(cpu: Cpu<L>, hist: seq<World<L>>, j: nat)
    requires IsRun(cpu, hist) && j + 1 < |hist|
    ensures Follows(cpu, hist[j], hist[j + 1]) && WellFormed(hist[j].m)
  {
  }

  // ---- going back ----

  /** After a replay from an exact checkpoint the recorder can only have missed what calls changed. */
  lemma ReplayMissesOnlyCalls<L(!new)>(cpu: Cpu<L>, base: Checkpoint, deltas: seq<Checkpoint>, hist: seq<World<L>>,
                                       k: nat)
    requires Orderly(cpu) && IsRun(cpu, hist) && ExactAt(base, deltas, hist, |deltas|)
    requires IcountOf(base, deltas, |deltas|) <= k < |hist|
    requires forall j :: IcountOf(base, deltas, |deltas|) < j <= k ==> !hist[j].edited
    ensures var c := IcountOf(base, deltas, |deltas|);
      Stale(base, deltas, HeardIn(cpu, hist, c, k), hist[k].m) <= CallPagesIn(cpu, hist, c, k)
  {
    var c := IcountOf(base, deltas, |deltas|);
    assert deltas[..|deltas|] == deltas;
    forall p | p in Stale(base, deltas, HeardIn(cpu, hist, c, k), hist[k].m)
      ensures p in CallPagesIn(cpu, hist, c, k)
    {
      if p !in CallPagesIn(cpu, hist, c, k) {
        UntouchedPage(cpu, hist, c, k, p);
      }
    }
  }

  // ---- the log and the run ----

  ghost predicate LoggedAt<L(!new)>(cpu: Cpu<L>, hist: seq<World<L>>, e: Effect<L>, j: nat) {
    && j < |hist| - 1
    && Serves(cpu, hist[j])
    && e.Carries(ActsOf(cpu, hist[j]))
    && e.before == hist[j].layer
  }

  /** From instruction lo on, exactly the calls are written down, each as what it did. */
  ghost predicate Logged<L(!new)>(cpu: Cpu<L>, hist: seq<World<L>>, entries: seq<Effect<L>>, lo: nat) {
    && Sorted(entries)
    && (forall i :: 0 <= i < |entries| ==>
      lo <= entries[i].icount && LoggedAt(cpu, hist, entries[i], entries[i].icount))
    && (forall j :: lo <= j < |hist| - 1 && Serves(cpu, hist[j]) ==> HasEntry(entries, j))
  }

  /** What a replay does for a call is what the call did. */
  lemma ReplayIsNext<L(!new)>(cpu: Cpu<L>, hist: seq<World<L>>, e: Effect<L>, j: nat)
    requires Orderly(cpu) && IsRun(cpu, hist) && LoggedAt(cpu, hist, e, j)
    ensures DoAll(Asked(cpu, hist[j]), e.AsActs()) == Next(cpu, hist[j]).m
    ensures DoAll(Next(cpu, hist[j]).m, e.AsActs()) == Next(cpu, hist[j]).m
  {
    var m := Asked(cpu, hist[j]);
    var acts := cpu.serve(m, hist[j].layer).acts;
    CarriesGrouped(e, Successes(m, acts));
    SuccessesSucceed(m, acts);
    OneWayIsTame(Successes(m, acts));
    Regroup(m, Successes(m, acts));
    AgainChangesNothing(m, Successes(m, acts));
  }

  lemma SplitOf<S>(entries: seq<Effect<S>>, k: nat) returns (n: nat)
    requires Sorted(entries)
    ensures SplitsAt(entries, k, n)
  {
    n := 0;
    while n < |entries| && entries[n].icount < k
      invariant n <= |entries| && forall i :: 0 <= i < n ==> entries[i].icount < k
    {
      n := n + 1;
    }
  }

  /** The state to put back, after dropping what had not happened at k, is the layer's state at k. */
  lemma LogCutBack<L(!new)>(cpu: Cpu<L>, hist: seq<World<L>>, entries: seq<Effect<L>>, lo: nat, k: nat, n: nat)
    requires IsRun(cpu, hist) && Logged(cpu, hist, entries, lo) && lo <= k < |hist| && SplitsAt(entries, k, n)
    ensures Logged(cpu, hist[..k + 1], entries[..n], lo)
    ensures hist[k].layer == if n < |entries| then entries[n].before else hist[|hist| - 1].layer
  {
    var h, es := hist[..k + 1], entries[..n];
    forall i | 0 <= i < |es|
      ensures LoggedAt(cpu, h, es[i], es[i].icount)
    {
      assert LoggedAt(cpu, hist, entries[i], entries[i].icount);
    }
    forall j | lo <= j < |h| - 1 && Serves(cpu, h[j])
      ensures HasEntry(es, j)
    {
      assert HasEntry(entries, j);
      var i :| 0 <= i < |entries| && entries[i].icount == j;
      assert es[i].icount == j;
    }
    var upto := if n < |entries| then entries[n].icount else |hist| - 1;
    assert n < |entries| ==> LoggedAt(cpu, hist, entries[n], entries[n].icount);
    forall j | k <= j < upto
      ensures !Serves(cpu, hist[j])
    {
      NoEntryBetween(entries, k, n, j);
    }
    LayerStays(cpu, hist, k, upto);
  }

  lemma NoEntryBetween<S>(entries: seq<Effect<S>>, k: nat, n: nat, j: nat)
    requires Sorted(entries) && SplitsAt(entries, k, n) && k <= j && (n < |entries| ==> j < entries[n].icount)
    ensures !HasEntry(entries, j)
  {
    forall i | 0 <= i < |entries|
      ensures entries[i].icount != j
    {
      assert i > n ==> entries[n].icount < entries[i].icount;
    }
  }

  lemma LogForget<L(!new)>(cpu: Cpu<L>, hist: seq<World<L>>, entries: seq<Effect<L>>, lo: nat, lo': nat, n: nat)
    requires Logged(cpu, hist, entries, lo) && lo <= lo' && SplitsAt(entries, lo', n)
    ensures Logged(cpu, hist, entries[n..], lo')
  {
    var es := entries[n..];
    forall i | 0 <= i < |es|
      ensures lo' <= es[i].icount && LoggedAt(cpu, hist, es[i], es[i].icount)
    {
      assert es[i] == entries[n + i];
    }
    forall j | lo' <= j < |hist| - 1 && Serves(cpu, hist[j])
      ensures HasEntry(es, j)
    {
      assert HasEntry(entries, j);
      var i :| 0 <= i < |entries| && entries[i].icount == j;
      assert es[i - n].icount == j;
    }
  }

  lemma LogStep<L(!new)>(cpu: Cpu<L>, hist: seq<World<L>>, w: World<L>, entries: seq<Effect<L>>, lo: nat)
    requires Logged(cpu, hist, entries, lo) && hist != [] && !Serves(cpu, hist[|hist| - 1])
    ensures Logged(cpu, hist + [w], entries, lo)
  {
    var h := hist + [w];
    forall i | 0 <= i < |entries|
      ensures LoggedAt(cpu, h, entries[i], entries[i].icount)
    {
      assert LoggedAt(cpu, hist, entries[i], entries[i].icount);
    }
    forall j | lo <= j < |h| - 1 && Serves(cpu, h[j])
      ensures HasEntry(entries, j)
    {
      assert h[j] == hist[j];
    }
  }

  lemma LogEndsBefore<L(!new)>(cpu: Cpu<L>, hist: seq<World<L>>, entries: seq<Effect<L>>, lo: nat)
    requires Logged(cpu, hist, entries, lo)
    ensures forall i :: 0 <= i < |entries| ==> entries[i].icount < |hist| - 1
  {
    forall i | 0 <= i < |entries|
      ensures entries[i].icount < |hist| - 1
    {
      assert LoggedAt(cpu, hist, entries[i], entries[i].icount);
    }
  }

  lemma LogCall<L(!new)>(cpu: Cpu<L>, hist: seq<World<L>>, w: World<L>, entries: seq<Effect<L>>, lo: nat, e: Effect<L>)
    requires Logged(cpu, hist, entries, lo) && hist != [] && Serves(cpu, hist[|hist| - 1]) && lo <= |hist| - 1
    requires e.icount == |hist| - 1 && e.Carries(ActsOf(cpu, hist[|hist| - 1])) && e.before == hist[|hist| - 1].layer
    ensures Logged(cpu, hist + [w], entries + [e], lo)
  {
    var h, es := hist + [w], entries + [e];
    forall i | 0 <= i < |es|
      ensures lo <= es[i].icount && LoggedAt(cpu, h, es[i], es[i].icount)
      ensures i < |entries| ==> entries[i].icount < |hist| - 1
    {
      if i < |entries| {
        assert LoggedAt(cpu, hist, entries[i], entries[i].icount);
      }
    }
    forall j | lo <= j < |h| - 1 && Serves(cpu, h[j])
      ensures HasEntry(es, j)
    {
      if j == |hist| - 1 {
        assert es[|entries|].icount == j;
      } else {
        assert h[j] == hist[j] && HasEntry(entries, j);
        var i :| 0 <= i < |entries| && entries[i].icount == j;
        assert es[i].icount == j;
      }
    }
  }

  // ---- the run gets longer ----

  lemma RunGrows<L>(cpu: Cpu<L>, hist: seq<World<L>>)
    requires IsRun(cpu, hist) && hist != [] && !cpu.exec(hist[|hist| - 1].m).Fault?
    ensures IsRun(cpu, hist + [Next(cpu, hist[|hist| - 1])]) && WellFormed(Next(cpu, hist[|hist| - 1]).m)
  {
    RunPlus(cpu, hist);
    NextKeepsWellFormed(cpu, hist[|hist| - 1]);
  }

  lemma OneMore<L>(cpu: Cpu<L>, base: Checkpoint, deltas: seq<Checkpoint>, interval: nat, hist: seq<World<L>>,
                   w: World<L>)
    requires hist != [] && !w.edited && Ordered(base, deltas, interval)
    requires Placed(base, deltas, hist) && Anchored(base, deltas, hist) && Newest(base, deltas).icount < |hist|
    ensures Placed(base, deltas, hist + [w]) && Anchored(base, deltas, hist + [w])
  {
    assert deltas[..|deltas|] == deltas;
    PlacedElsewhere(base, deltas, interval, hist, hist + [w]);
    forall i: nat | Governs(base, deltas, i)
      ensures DrawnAt(base, deltas, hist + [w], i)
    {
      IcountOrder(base, deltas, interval, i, |deltas|);
      DrawnAtElsewhere(base, deltas, hist, hist + [w], i);
    }
    hide Drawn;
    forall j | base.icount < j < |hist + [w]| && (hist + [w])[j].edited
      ensures HasCheckpoint(base, deltas, j)
    {
      assert hist[j].edited;
    }
  }

  lemma OneMoreFaithful<L>(base: Checkpoint, deltas: seq<Checkpoint>, hist: seq<World<L>>, w: World<L>, since: nat)
    requires Faithful(base, deltas, hist, since)
    ensures Faithful(base, deltas, hist + [w], since)
  {
    forall i: nat | Governs(base, deltas, i) && IcountOf(base, deltas, i) >= since
      ensures ExactAt(base, deltas, hist + [w], i)
    {
      assert ExactAt(base, deltas, hist, i);
    }
  }

  /** What a lookup by instruction finds: the call's entry where there was a call, nothing elsewhere. */
  lemma LogLookup<L(!new)>(cpu: Cpu<L>, hist: seq<World<L>>, entries: seq<Effect<L>>, index: map<nat, Effect<L>>,
                           lo: nat, j: nat)
    requires Logged(cpu, hist, entries, lo) && Indexes(index, entries) && lo <= j < |hist| - 1
    ensures Serves(cpu, hist[j]) <==> j in index
    ensures j in index ==> LoggedAt(cpu, hist, index[j], j)
  {
    if HasEntry(entries, j) {
      var i :| 0 <= i < |entries| && entries[i].icount == j;
      assert LoggedAt(cpu, hist, entries[i], entries[i].icount);
    }
  }

  /** Program counters of a stretch of the run. */
  function PcsIn<L>(hist: seq<World<L>>, lo: nat, hi: nat): seq<int>
    requires lo <= hi <= |hist|
  {
    seq(hi - lo, i requires 0 <= i < hi - lo => hist[lo + i].m.ctx.Pc())
  }

  lemma NewestFirst(base: Checkpoint, deltas: seq<Checkpoint>)
    ensures IcountOf(base, deltas, 0) == base.icount
  {
    assert deltas[..0] == [];
  }

  /**
   A restore from an exact checkpoint that can be restored gives the state of the run, whatever the machine
   is now.
   */
  lemma ExactRestores<L>(base: Checkpoint, deltas: seq<Checkpoint>, hist: seq<World<L>>, i: nat, now: State)
    requires i <= |deltas| && ExactAt(base, deltas, hist, i) && Resets(base, deltas[..i]) && WellFormed(now)
    ensures IcountOf(base, deltas, i) < |hist|
    ensures RestoredOn(now, base, deltas[..i]) == hist[IcountOf(base, deltas, i)].m
  {
    RestoreExact(now, base, deltas[..i]);
  }

  lemma {:induction false} StretchElsewhere<L>(cpu: Cpu<L>, hist: seq<World<L>>, hist': seq<World<L>>, lo: nat, hi: nat)
    requires lo <= hi < |hist| && hi < |hist'| && forall j :: lo <= j <= hi ==> hist[j] == hist'[j]
    ensures HeardIn(cpu, hist, lo, hi) == HeardIn(cpu, hist', lo, hi)
    ensures CallPagesIn(cpu, hist, lo, hi) == CallPagesIn(cpu, hist', lo, hi)
  {
    if lo == hi {
    } else {
      StretchElsewhere(cpu, hist, hist', lo, hi - 1);
    }
  }

  /** Where going back to k through checkpoint i leaves the recorder. */
  lemma GoneBack<L(!new)>(cpu: Cpu<L>, base: Checkpoint, deltas: seq<Checkpoint>, interval: nat, hist: seq<World<L>>,
                          k: nat, i: nat)
    requires Orderly(cpu) && IsRun(cpu, hist) && k < |hist|
    requires Ordered(base, deltas, interval) && Latest(base, deltas, k, i)
    requires Placed(base, deltas, hist) && Anchored(base, deltas, hist) && ExactAt(base, deltas, hist, i)
    ensures IsRun(cpu, hist[..k + 1])
    ensures Placed(base, deltas[..i], hist[..k + 1]) && Anchored(base, deltas[..i], hist[..k + 1])
    ensures forall since: nat :: Faithful(base, deltas, hist, since) ==>
      Faithful(base, deltas[..i], hist[..k + 1], since)
    ensures var c := IcountOf(base, deltas, i);
      c <= k && Stale(base, deltas[..i], HeardIn(cpu, hist, c, k), hist[k].m) <= CallPagesIn(cpu, hist[..k + 1], c, k)
  {
    hide IsRun, Placed, Anchored, Exact, Stale, Over, Ordered;
    var h := hist[..k + 1];
    RunPrefix(cpu, hist, k + 1);
    CutBack(base, deltas, interval, hist, k, i);
    NoEditSince(base, deltas, interval, hist, k, i);
    IcountOrder(base, deltas, interval, 0, i);
    NewestFirst(base, deltas);
    assert deltas[..i][..|deltas[..i]|] == deltas[..i];
    StretchElsewhere(cpu, hist, h, IcountOf(base, deltas, i), k);
    ReplayMissesOnlyCalls(cpu, base, deltas[..i], h, k);
  }

  /** A restore to an instruction that has a checkpoint uses a checkpoint taken there. */
  lemma LatestThere(base: Checkpoint, deltas: seq<Checkpoint>, interval: nat, k: nat, i: nat)
    requires Ordered(base, deltas, interval) && Latest(base, deltas, k, i) && HasCheckpoint(base, deltas, k)
    ensures IcountOf(base, deltas, i) == k
  {
    var n :| 0 <= n <= |deltas| && IcountOf(base, deltas, n) == k;
    if n <= i {
      IcountOrder(base, deltas, interval, n, i);
    } else {
      IcountOrder(base, deltas, interval, n, n);
    }
  }

  // ---- a debugger edit ----

  /** An edit of registers or mapped memory at the end of the run leaves everything before it in force. */
  lemma EditKeepsRun<L(!new)>(cpu: Cpu<L>, hist: seq<World<L>>, entries: seq<Effect<L>>, lo: nat, m: State)
    requires hist != [] && IsRun(cpu, hist) && Logged(cpu, hist, entries, lo) && WellFormed(m)
    requires m.spans == hist[|hist| - 1].m.spans && m.mem.Keys == hist[|hist| - 1].m.mem.Keys
    ensures var h := hist[|hist| - 1 := World(m, hist[|hist| - 1].layer, true)];
      IsRun(cpu, h) && Logged(cpu, h, entries, lo) && SameButLast(hist, h)
  {
    var n := |hist| - 1;
    var h := hist[n := World(m, hist[n].layer, true)];
    forall i | 0 <= i < |h| - 1
      ensures Follows(cpu, h[i], h[i + 1])
    {
      assert Follows(cpu, hist[i], hist[i + 1]);
    }
    forall i | 0 <= i < |entries|
      ensures LoggedAt(cpu, h, entries[i], entries[i].icount)
    {
      assert LoggedAt(cpu, hist, entries[i], entries[i].icount);
    }
    forall j | lo <= j < |h| - 1 && Serves(cpu, h[j])
      ensures HasEntry(entries, j)
    {
      assert h[j] == hist[j];
    }
  }

  /** What the recorder is told of a write covers what the write changed. */
  lemma WriteIsNoted(base: Checkpoint, deltas: seq<Checkpoint>, noted: set<nat>, m: State, address: nat,
                     data: seq<Byte>)
    requires MemWrite(m, address, data).Some? && Stale(base, deltas, noted, m) == {}
    ensures Stale(base, deltas, noted + Touched(address, |data|).Pages(), MemWrite(m, address, data).value) == {}
  {
    var m' := MemWrite(m, address, data).value;
    var noted' := noted + Touched(address, |data|).Pages();
    forall p | p in m'.mem && p !in noted'
      ensures m'.mem[p] == ImageAt(Over(base.pages, deltas), p)
    {
      PutBytesFrame(m.mem, address, data, p);
      assert p !in Stale(base, deltas, noted, m);
    }
  }

  lemma NoStretch<L>(cpu: Cpu<L>, hist: seq<World<L>>, lo: nat)
    requires lo < |hist|
    ensures HeardIn(cpu, hist, lo, lo) == {} && PcsIn(hist, lo, lo) == []
  {
  }

  lemma StretchMore<L>(cpu: Cpu<L>, hist: seq<World<L>>, lo: nat, hi: nat)
    requires lo <= hi < |hist|
    ensures HeardIn(cpu, hist, lo, hi + 1) == HeardIn(cpu, hist, lo, hi) + Heard(cpu, hist[hi])
    ensures PcsIn(hist, lo, hi + 1) == PcsIn(hist, lo, hi) + [hist[hi].m.ctx.Pc()]
  {
  }

  // ---- what is held stays as good as it was ----

  /** Checkpoint i is the one a restore to instruction c uses, and it was taken there. */
  ghost predicate Uses(base: Checkpoint, deltas: seq<Checkpoint>, c: nat, i: nat) {
    Governs(base, deltas, i) && IcountOf(base, deltas, i) == c
  }

  /** There is a checkpoint at c, and it tells the run as it was. */
  ghost predicate TrueAt<L>(base: Checkpoint, deltas: seq<Checkpoint>, hist: seq<World<L>>, c: nat) {
    exists i: nat :: Uses(base, deltas, c, i) && ExactAt(base, deltas, hist, i)
  }

  /** Every page of the regions of checkpoint i has an image by then. */
  ghost predicate ImagedAt(base: Checkpoint, deltas: seq<Checkpoint>, i: nat)
    requires i <= |deltas|
  {
    var want := Newest(base, deltas[..i]).spans;
    want != {} && PagesOf(want) <= Over(base.pages, deltas[..i]).Keys
  }

  /** There is a checkpoint at c, with an image of every page of its regions. */
  ghost predicate FullAt(base: Checkpoint, deltas: seq<Checkpoint>, c: nat) {
    exists i: nat :: Uses(base, deltas, c, i) && ImagedAt(base, deltas, i)
  }

  /** There is a checkpoint at c that a restore reproduces from any machine. */
  ghost predicate ResetsAt(base: Checkpoint, deltas: seq<Checkpoint>, c: nat) {
    exists i: nat :: Uses(base, deltas, c, i) && Resets(base, deltas[..i])
  }

  lemma ImagedResets(base: Checkpoint, deltas: seq<Checkpoint>, i: nat)
    requires i <= |deltas| && ImagedAt(base, deltas, i)
    ensures Resets(base, deltas[..i])
  {
    var want := Newest(base, deltas[..i]).spans;
    assert forall s :: s in want * base.spans ==> s in want;
  }

  /** What the recorder holds, and the run it is about. */
  datatype Book<L> = Book(base: Option<Checkpoint>, checkpoints: seq<Checkpoint>, dropped: nat, hist: seq<World<L>>)

  /**
     Whatever could be said of the checkpoint at c can still be said of it: that it tells the run, that it
     has all its images, and, where nothing was folded away, that a restore reproduces it.
   */
  ghost predicate RetainedAt<L>(a: Book<L>, b: Book<L>, c: nat)
    requires a.base.Some? && b.base.Some?
  {
    && (TrueAt(a.base.value, a.checkpoints, a.hist, c) ==> TrueAt(b.base.value, b.checkpoints, b.hist, c))
    && (FullAt(a.base.value, a.checkpoints, c) ==> FullAt(b.base.value, b.checkpoints, c))
    && (a.dropped == b.dropped && ResetsAt(a.base.value, a.checkpoints, c) ==> ResetsAt(b.base.value, b.checkpoints, c))
  }

  /** A checkpoint at c is not a new one. */
  ghost predicate NotNew<L>(a: Book<L>, b: Book<L>, c: nat)
    requires a.base.Some? && b.base.Some?
  {
    HasCheckpoint(b.base.value, b.checkpoints, c) ==> HasCheckpoint(a.base.value, a.checkpoints, c)
  }

  /**
   Every checkpoint before instruction `until` that is still held is as good as it was, and none is new but
   at the last of them.
   */
  ghost predicate Retains<L>(a: Book<L>, b: Book<L>, until: int) {
    && a.dropped <= b.dropped
    && (a.base.Some? ==>
         && b.base.Some? && a.base.value.icount <= b.base.value.icount && (a.dropped == b.dropped ==> a.base == b.base)
         && (forall c: nat :: b.base.value.icount <= c < until ==> RetainedAt(a, b, c))
         && (forall c: nat :: c < until - 1 ==> NotNew(a, b, c)))
  }

  lemma RetainsSelf<L>(a: Book<L>, until: int)
    ensures Retains(a, a, until)
  {
  }

  lemma NothingToRetain<L>(a: Book<L>, b: Book<L>, until: int)
    requires a.base.None? && a.dropped <= b.dropped
    ensures Retains(a, b, until)
  {
  }

  lemma RetainsShorter<L>(a: Book<L>, b: Book<L>, until: int, sooner: int)
    requires Retains(a, b, until) && sooner <= until
    ensures Retains(a, b, sooner)
  {
  }

  lemma RetainsTrans<L>(a: Book<L>, b: Book<L>, c: Book<L>, until: int)
    requires Retains(a, b, until) && Retains(b, c, until)
    ensures Retains(a, c, until)
  {
    hide TrueAt, FullAt, ResetsAt, HasCheckpoint;
    if a.base.Some? {
      forall at: nat | at < until - 1
        ensures NotNew(a, c, at)
      {
        assert NotNew(a, b, at) && NotNew(b, c, at);
      }
      forall at: nat | c.base.value.icount <= at < until
        ensures RetainedAt(a, c, at)
      {
        assert RetainedAt(a, b, at) && RetainedAt(b, c, at);
      }
    }
  }

  /** The run goes on. */
  lemma RetainsLonger<L>(a: Book<L>, w: World<L>, until: int)
    ensures Retains(a, a.(hist := a.hist + [w]), until)
  {
    if a.base.Some? {
      var base, deltas := a.base.value, a.checkpoints;
      forall c: nat
        ensures RetainedAt(a, a.(hist := a.hist + [w]), c)
      {
        if TrueAt(base, deltas, a.hist, c) {
          var i: nat :| Uses(base, deltas, c, i) && ExactAt(base, deltas, a.hist, i);
          assert Uses(base, deltas, c, i) && ExactAt(base, deltas, a.hist + [w], i);
        }
      }
    }
  }

  /** Where in the list the checkpoint used at c is once one more has been taken and d folded away. */
  lemma UsesAfterRecord(base: Checkpoint, cs0: seq<Checkpoint>, cp: Checkpoint, interval: nat, d: nat, c: nat, i: nat)
    requires var cs := cs0 + [cp];
      Ordered(base, cs, interval) && d <= |cs| && Folded(base, cs[..d]).icount <= c < cp.icount
    requires Uses(base, cs0, c, i)
    ensures var cs := cs0 + [cp];
      && i >= d && Uses(Folded(base, cs[..d]), cs[d..], c, i - d)
      && Newest(Folded(base, cs[..d]), cs[d..][..i - d]).spans == Newest(base, cs0[..i]).spans
      && Over(Folded(base, cs[..d]).pages, cs[d..][..i - d]) == Over(base.pages, cs0[..i])
      && Snapshot(Folded(base, cs[..d]), cs[d..][..i - d]) == Snapshot(base, cs0[..i])
  {
    hide Over, Snapshot;
    var cs := cs0 + [cp];
    assert cs[..i] == cs0[..i];
    assert Governs(base, cs, i);
    if i < d {
      IcountOrder(base, cs, interval, i + 1, d);
    }
    FoldedAt(base, cs, d, i - d);
    FoldKeepsSnapshots(base, cs, d, i - d);
  }

  /**
   Taking a checkpoint, with whatever folding follows, leaves the ones before it that are still held as
   good as they were.
   */
  lemma RecordRetains<L>(a: Book<L>, b: Book<L>, noted: set<nat>, interval: nat, d: nat)
    requires SameButLast(a.hist, b.hist) && WellFormed(b.hist[|a.hist| - 1].m) && b.base.Some?
    requires AfterRecord(a.base, a.checkpoints, noted, b.hist[|a.hist| - 1].m, |a.hist| - 1, b.base.value,
      b.checkpoints, d)
    requires a.base.Some? ==> Ordered(a.base.value, a.checkpoints, interval)
    requires a.base.Some? ==>
      Newest(a.base.value, a.checkpoints).icount < |a.hist| <= Newest(a.base.value, a.checkpoints).icount + interval + 1
    requires b.dropped == a.dropped + d
    ensures Retains(a, b, |a.hist| - 1)
    ensures a.base.Some? ==> forall c: nat :: c < |a.hist| - 1 ==> NotNew(a, b, c)
  {
    hide Over, Snapshot, Ordered, Folded, HasCheckpoint;
    if a.base.Some? {
      var base, cs0, n := a.base.value, a.checkpoints, |a.hist| - 1;
      var cp := Taken(b.hist[n].m, noted, n);
      var cs := cs0 + [cp];
      WellFormedDisjoint(b.hist[n].m);
      OrderedPlus(base, cs0, cp, interval);
      FoldedKeeps(base, cs, d, interval);
      IcountOrder(base, cs, interval, 0, d);
      assert cs[..0] == [];
      FoldNone(base, cs);
      FoldedIcount(base, cs, d);
      forall c: nat | b.base.value.icount <= c < n
        ensures RetainedAt(a, b, c)
      {
        RecordRetainsAt(a, b, cp, interval, d, c);
      }
      forall c: nat | c < n
        ensures NotNew(a, b, c)
      {
        RecordNotNew(base, cs0, cp, d, c);
      }
    }
  }

  lemma FoldedIcount(base: Checkpoint, cs: seq<Checkpoint>, d: nat)
    requires d <= |cs|
    ensures Folded(base, cs[..d]).icount == IcountOf(base, cs, d)
  {
  }

  lemma RecordNotNew(base: Checkpoint, cs0: seq<Checkpoint>, cp: Checkpoint, d: nat, c: nat)
    requires d <= |cs0| + 1 && c < cp.icount
    ensures HasCheckpoint(Folded(base, (cs0 + [cp])[..d]), (cs0 + [cp])[d..], c) ==> HasCheckpoint(base, cs0, c)
  {
    var cs := cs0 + [cp];
    if HasCheckpoint(Folded(base, cs[..d]), cs[d..], c) {
      var i :| 0 <= i <= |cs[d..]| && IcountOf(Folded(base, cs[..d]), cs[d..], i) == c;
      FoldedAt(base, cs, d, i);
      assert IcountOf(base, cs, d + i) == c;
      assert d + i <= |cs0| ==> cs[..d + i] == cs0[..d + i];
      assert cs[..|cs|] == cs;
      assert IcountOf(base, cs0, d + i) == c;
    }
  }

  lemma RecordRetainsAt<L>(a: Book<L>, b: Book<L>, cp: Checkpoint, interval: nat, d: nat, c: nat)
    requires SameButLast(a.hist, b.hist) && a.base.Some? && cp.icount == |a.hist| - 1
    requires var cs := a.checkpoints + [cp];
      Ordered(a.base.value, cs, interval) && d <= |cs| && b.base == Some(Folded(a.base.value, cs[..d])) &&
        b.checkpoints == cs[d..]
    requires b.dropped == a.dropped + d && b.base.value.icount <= c < cp.icount
    ensures RetainedAt(a, b, c)
  {
    hide Over, Snapshot, Ordered;
    var base, cs0 := a.base.value, a.checkpoints;
    var cs := cs0 + [cp];
    if TrueAt(base, cs0, a.hist, c) {
      var i: nat :| Uses(base, cs0, c, i) && ExactAt(base, cs0, a.hist, i);
      UsesAfterRecord(base, cs0, cp, interval, d, c, i);
      assert ExactAt(b.base.value, b.checkpoints, b.hist, i - d);
    }
    if FullAt(base, cs0, c) {
      var i: nat :| Uses(base, cs0, c, i) && ImagedAt(base, cs0, i);
      UsesAfterRecord(base, cs0, cp, interval, d, c, i);
      assert ImagedAt(b.base.value, b.checkpoints, i - d);
    }
    if d == 0 && ResetsAt(base, cs0, c) {
      var i: nat :| Uses(base, cs0, c, i) && Resets(base, cs0[..i]);
      UsesAfterRecord(base, cs0, cp, interval, d, c, i);
      FoldNone(base, cs);
      assert cs[0..][..i] == cs0[..i];
    }
  }

  /** Going back to k leaves every checkpoint up to k as good as it was. */
  lemma CutRetains<L>(a: Book<L>, interval: nat, k: nat, i: nat)
    requires a.base.Some? && Ordered(a.base.value, a.checkpoints, interval) && Latest(a.base.value, a.checkpoints, k, i)
    requires k < |a.hist|
    ensures Retains(a, a.(checkpoints := a.checkpoints[..i], hist := a.hist[..k + 1]), k + 1)
  {
    hide Over, Snapshot, Ordered;
    var base, cs := a.base.value, a.checkpoints;
    var b := a.(checkpoints := cs[..i], hist := a.hist[..k + 1]);
    forall c: nat
      ensures NotNew(a, b, c)
    {
      if HasCheckpoint(base, cs[..i], c) {
        var m :| 0 <= m <= i && IcountOf(base, cs[..i], m) == c;
        assert cs[..i][..m] == cs[..m] && IcountOf(base, cs, m) == c;
      }
    }
    forall c: nat | c <= k
      ensures RetainedAt(a, b, c)
    {
      forall m: nat | Uses(base, cs, c, m)
        ensures m <= i && cs[..i][..m] == cs[..m] && Uses(base, cs[..i], c, m)
        ensures ExactAt(base, cs, a.hist, m) ==> ExactAt(base, cs[..i], b.hist, m)
        ensures ImagedAt(base, cs, m) ==> ImagedAt(base, cs[..i], m)
      {
        IcountOrder(base, cs, interval, m, m);
        assert m <= i;
        assert cs[..i][..m] == cs[..m];
      }
    }
  }

  /** Where there was no checkpoint, there is nothing to retain. */
  lemma RetainsOneMore<L>(a: Book<L>, b: Book<L>, interval: nat, until: nat)
    requires Retains(a, b, until) && (a.base.Some? ==> forall c: nat :: c < until ==> NotNew(a, b, c))
    requires a.base.Some? ==>
      Ordered(a.base.value, a.checkpoints, interval) && Newest(a.base.value, a.checkpoints).icount < until
    ensures Retains(a, b, until + 1)
  {
    if a.base.Some? {
      var base, cs := a.base.value, a.checkpoints;
      assert cs[..|cs|] == cs;
      forall i: nat | i <= |cs|
        ensures IcountOf(base, cs, i) < until
      {
        IcountOrder(base, cs, interval, i, |cs|);
      }
    }
  }

  // ---- the checkpoint that going back to k uses ----

  /** The checkpoint that a restore to k uses tells the run as it was, and a restore reproduces it. */
  ghost predicate ReachesIn<L>(base: Checkpoint, deltas: seq<Checkpoint>, hist: seq<World<L>>, k: nat) {
    exists i: nat :: Latest(base, deltas, k, i) && ExactAt(base, deltas, hist, i) && Resets(base, deltas[..i])
  }

  lemma LatestOnce(base: Checkpoint, deltas: seq<Checkpoint>, interval: nat, k: nat, i: nat, j: nat)
    requires Ordered(base, deltas, interval) && Latest(base, deltas, k, i) && Latest(base, deltas, k, j)
    ensures i == j
  {
    IcountOrder(base, deltas, interval, i, i);
    IcountOrder(base, deltas, interval, j, j);
  }

  /**
   A true checkpoint at c with all its images, or reproduced by a restore, serves every instruction up to
   the next one.
   */
  lemma TrueReaches<L>(base: Checkpoint, deltas: seq<Checkpoint>, interval: nat, hist: seq<World<L>>, k: nat, i: nat)
    requires Ordered(base, deltas, interval) && Latest(base, deltas, k, i)
    requires TrueAt(base, deltas, hist, IcountOf(base, deltas, i))
    requires FullAt(base, deltas, IcountOf(base, deltas, i)) || ResetsAt(base, deltas, IcountOf(base, deltas, i)) ||
      Uncovered(base) == {}
    ensures ReachesIn(base, deltas, hist, k)
  {
    hide Over, Snapshot, Ordered;
    var c := IcountOf(base, deltas, i);
    var t: nat :| Uses(base, deltas, c, t) && ExactAt(base, deltas, hist, t);
    UsesOnce(base, deltas, interval, k, i, t);
    if FullAt(base, deltas, c) {
      var f: nat :| Uses(base, deltas, c, f) && ImagedAt(base, deltas, f);
      UsesOnce(base, deltas, interval, k, i, f);
      ImagedResets(base, deltas, i);
    } else if ResetsAt(base, deltas, c) {
      var r: nat :| Uses(base, deltas, c, r) && Resets(base, deltas[..r]);
      UsesOnce(base, deltas, interval, k, i, r);
    } else {
      ExactSpans(base, deltas, hist, i);
      CoveredResets(base, deltas[..i]);
    }
  }

  lemma ExactSpans<L>(base: Checkpoint, deltas: seq<Checkpoint>, hist: seq<World<L>>, i: nat)
    requires i <= |deltas| && ExactAt(base, deltas, hist, i)
    ensures Newest(base, deltas[..i]).spans != {}
  {
  }

  /**
     What could be gone back to through a checkpoint that is still held can be still: when nothing was
     folded away since, and otherwise when that checkpoint has all its images.
   */
  lemma RetainedReaches<L>(a: Book<L>, b: Book<L>, interval: nat, until: int, k: nat, i: nat)
    requires a.base.Some? && Ordered(a.base.value, a.checkpoints, interval) && Retains(a, b, until) && k < until - 1
    requires b.base.Some? && Ordered(b.base.value, b.checkpoints, interval)
    requires Latest(a.base.value, a.checkpoints, k, i) && ReachesIn(a.base.value, a.checkpoints, a.hist, k)
    requires var c := IcountOf(a.base.value, a.checkpoints, i);
      a.dropped == b.dropped || (FullAt(a.base.value, a.checkpoints, c) && c >= b.base.value.icount)
    ensures ReachesIn(b.base.value, b.checkpoints, b.hist, k)
  {
    hide Over, Snapshot, Ordered, TrueAt, FullAt, ResetsAt, ReachesIn, Resets, ExactAt;
    var c := IcountOf(a.base.value, a.checkpoints, i);
    IcountOrder(a.base.value, a.checkpoints, interval, 0, i);
    NewestFirst(a.base.value, a.checkpoints);
    ReachesBy(a.base.value, a.checkpoints, interval, a.hist, k, i);
    IcountOrder(a.base.value, a.checkpoints, interval, i, i);
    GoodThere(a.base.value, a.checkpoints, a.hist, i);
    assert RetainedAt(a, b, c);
    var n := LatestExists(b.base.value, b.checkpoints, interval, k);
    SameAtLatest(a, b, interval, k, i, n);
    TrueReaches(b.base.value, b.checkpoints, interval, b.hist, k, n);
  }

  lemma GoodThere<L>(base: Checkpoint, deltas: seq<Checkpoint>, hist: seq<World<L>>, i: nat)
    requires Governs(base, deltas, i) && ExactAt(base, deltas, hist, i) && Resets(base, deltas[..i])
    ensures TrueAt(base, deltas, hist, IcountOf(base, deltas, i)) && ResetsAt(base, deltas, IcountOf(base, deltas, i))
  {
    hide Resets, ExactAt;
    assert Uses(base, deltas, IcountOf(base, deltas, i), i);
  }

  lemma SameAtLatest<L>(a: Book<L>, b: Book<L>, interval: nat, k: nat, i: nat, n: nat)
    requires a.base.Some? && b.base.Some? && Ordered(a.base.value, a.checkpoints, interval)
    requires Ordered(b.base.value, b.checkpoints, interval)
    requires Latest(a.base.value, a.checkpoints, k, i) && Latest(b.base.value, b.checkpoints, k, n)
    requires TrueAt(b.base.value, b.checkpoints, b.hist, IcountOf(a.base.value, a.checkpoints, i))
    requires forall c: nat :: c <= k ==> NotNew(a, b, c)
    ensures IcountOf(b.base.value, b.checkpoints, n) == IcountOf(a.base.value, a.checkpoints, i)
  {
    var base, base', cs, cs' := a.base.value, b.base.value, a.checkpoints, b.checkpoints;
    hide ExactAt, Ordered;
    var c, c' := IcountOf(base, cs, i), IcountOf(base', cs', n);
    var t: nat :| Uses(base', cs', c, t) && ExactAt(base', cs', b.hist, t);
    if t <= n {
      IcountOrder(base', cs', interval, t, n);
    } else {
      IcountOrder(base', cs', interval, t, t);
    }
    assert HasCheckpoint(base', cs', c') && NotNew(a, b, c');
    var m :| 0 <= m <= |cs| && IcountOf(base, cs, m) == c';
    if m <= i {
      IcountOrder(base, cs, interval, m, i);
    } else {
      IcountOrder(base, cs, interval, m, m);
    }
  }

  lemma UsesOnce(base: Checkpoint, deltas: seq<Checkpoint>, interval: nat, k: nat, i: nat, j: nat)
    requires Ordered(base, deltas, interval) && Latest(base, deltas, k, i)
    requires Uses(base, deltas, IcountOf(base, deltas, i), j)
    ensures i == j
  {
    if i < j {
      IcountOrder(base, deltas, interval, i + 1, j);
      IcountOrder(base, deltas, interval, j, j);
    } else if j < i {
      IcountOrder(base, deltas, interval, j + 1, i);
    }
  }

  /** After going back to k, everything up to k can be gone back to as before. */
  lemma CutReaches<L>(base: Checkpoint, deltas: seq<Checkpoint>, interval: nat, hist: seq<World<L>>, k: nat, i: nat,
                      j: nat)
    requires Ordered(base, deltas, interval) && Latest(base, deltas, k, i) && j <= k < |hist|
    requires ReachesIn(base, deltas, hist, j)
    ensures ReachesIn(base, deltas[..i], hist[..k + 1], j)
  {
    hide Over, Snapshot, Ordered;
    var m: nat :| Latest(base, deltas, j, m) && ExactAt(base, deltas, hist, m) && Resets(base, deltas[..m]);
    IcountOrder(base, deltas, interval, m, m);
    assert m <= i;
    assert deltas[..i][..m] == deltas[..m];
    assert Latest(base, deltas[..i], j, m);
    assert ExactAt(base, deltas[..i], hist[..k + 1], m);
  }

  lemma LatestExists(base: Checkpoint, deltas: seq<Checkpoint>, interval: nat, k: nat) returns (i: nat)
    requires Ordered(base, deltas, interval) && base.icount <= k
    ensures Latest(base, deltas, k, i)
  {
    i := |deltas|;
    assert deltas[..|deltas|] == deltas && deltas[..0] == [];
    while i > 0 && deltas[i - 1].icount > k
      invariant 0 <= i <= |deltas| && forall j :: i <= j < |deltas| ==> deltas[j].icount > k
    {
      i := i - 1;
    }
  }

  /**
   In a history told truly from `since` on, with a base that covers its regions, everything from there on
   can be gone back to.
   */
  lemma FaithfulReaches<L>(base: Checkpoint, deltas: seq<Checkpoint>, interval: nat, hist: seq<World<L>>, since: nat,
                           k: nat)
    requires Ordered(base, deltas, interval) && Faithful(base, deltas, hist, since) && Uncovered(base) == {}
    requires base.icount <= k && (forall i: nat :: Latest(base, deltas, k, i) ==> IcountOf(base, deltas, i) >= since)
    ensures ReachesIn(base, deltas, hist, k)
  {
    hide Over, Snapshot, Ordered;
    var i := LatestExists(base, deltas, interval, k);
    IcountOrder(base, deltas, interval, i, i);
    assert Governs(base, deltas, i);
    ExactSpans(base, deltas, hist, i);
    CoveredResets(base, deltas[..i]);
  }

  lemma ReachesBy<L>(base: Checkpoint, deltas: seq<Checkpoint>, interval: nat, hist: seq<World<L>>, k: nat, i: nat)
    requires Ordered(base, deltas, interval) && Latest(base, deltas, k, i) && ReachesIn(base, deltas, hist, k)
    ensures ExactAt(base, deltas, hist, i) && Resets(base, deltas[..i])
    ensures ReachesIn(base, deltas, hist, IcountOf(base, deltas, i))
  {
    hide Over, Snapshot, Ordered, ExactAt, Resets;
    var j: nat :| Latest(base, deltas, k, j) && ExactAt(base, deltas, hist, j) && Resets(base, deltas[..j]);
    LatestOnce(base, deltas, interval, k, i, j);
    assert Latest(base, deltas, IcountOf(base, deltas, i), i);
  }
}
