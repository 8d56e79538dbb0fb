/** The recorder: one base checkpoint, deltas after it, and the machine they are taken from. */
module Timelines {
  import opened Options
  import opened Machine
  import opened Engine
  import opened Checkpoints

  class Timeline {
    const uc: Uc
    const interval: nat
    const budget: nat
    const enabled: bool
    var icount: nat
    var base: Option<Checkpoint>
    var checkpoints: seq<Checkpoint>
    var dirty: set<nat>
    var dropped: nat
    var next: nat

    // ---- what the fields mean ----

    function Count(): nat
      reads this
    {
      |checkpoints| + 1
    }

    /** The state that restoring checkpoint i is meant to give back; 0 is the base. */
    function At(i: nat): State
      requires base.Some? && i < Count()
      reads this
    {
      Snapshot(base.value, checkpoints[..i])
    }

    /** The pages the next delta would miss. */
    function StalePages(): set<nat>
      reads this, uc
    {
      if base.Some? then Stale(base.value, checkpoints, dirty, uc.st) else {}
    }

    /** Checkpoints are taken on time, and only while recording. */
    ghost predicate OnTime()
      reads this
    {
      if base.Some? then
        var last := Newest(base.value, checkpoints).icount;
        enabled && last <= icount <= next && next == last + interval && (dropped == 0 ==> base.value.icount == 0)
      else
        checkpoints == [] && (enabled ==> icount == next == 0)
    }

    /** Where the next delta is due. */
    function Due(): nat
      reads this
    {
      if base.Some? then next else interval
    }

    ghost predicate Valid()
      reads this, uc
    {
      && uc.Valid()
      && interval >= 1
      && (base.Some? ==> Ordered(base.value, checkpoints, interval))
      && NBytes(checkpoints, uc.contextSize) <= budget
      && OnTime()
    }

    constructor (uc: Uc, interval: int, budget: int, enabled: bool)
      requires uc.Valid()
      ensures Valid() && this.uc == uc && this.enabled == enabled
      ensures this.interval == (if interval > 1 then interval else 1)
      ensures this.budget == (if budget > 0 then budget else 0)
      ensures icount == 0 && base == None && dirty == {} && dropped == 0
    {
      this.uc := uc;
      this.interval := if interval > 1 then interval else 1;
      this.budget := if budget > 0 then budget else 0;
      this.enabled := enabled;
      icount, base, checkpoints, dirty, dropped, next := 0, None, [], {}, 0, 0;
    }

    // ---- recording ----

    /** Notes exactly the pages that hold a byte of the write. */
    method NoteWrite(address: nat, size: nat)
      modifies this`dirty
      ensures dirty == old(dirty) + (if enabled then Touched(address, size).Pages() else {})
    {
      if !enabled {
        return;
      }
      var page := address / PAGE;
      var last := (address + (if size > 1 then size else 1) - 1) / PAGE;
      while page <= last
        invariant address / PAGE <= page <= last + 1
        invariant dirty == old(dirty) + Range(address / PAGE, page)
      {
        dirty := dirty + {page};
        page := page + 1;
      }
    }

    method ReadSpan(span: Span) returns (pages: map<nat, Page>)
      ensures pages == PagesAt(uc.st.mem, span.Pages())
    {
      pages := map[];
      var page := span.first;
      while page <= span.last
        invariant span.first <= page
        invariant pages == PagesAt(uc.st.mem, span.Pages() * Range(0, page))
      {
        if page in uc.st.mem {
          pages := pages[page := uc.st.mem[page]];
        }
        page := page + 1;
      }
      assert span.Pages() * Range(0, page) == span.Pages();
    }

    method ReadAll() returns (pages: map<nat, Page>)
      requires uc.Valid()
      ensures pages == uc.st.mem
    {
      hide PagesOf, PagesAt;
      pages := map[];
      var todo := uc.st.spans;
      ghost var done := {};
      NothingRead(uc.st);
      while todo != {}
        invariant done == uc.st.spans - todo && todo <= uc.st.spans
        invariant pages == PagesAt(uc.st.mem, PagesOf(done))
      {
        var span :| span in todo;
        var more := ReadSpan(span);
        ReadOneMore(uc.st.mem, done, span);
        pages := pages + more;
        todo := todo - {span};
        done := done + {span};
      }
      assert done == uc.st.spans;
    }

    method ReadPages(wanted: set<nat>) returns (pages: map<nat, Page>)
      ensures pages == PagesAt(uc.st.mem, wanted)
    {
      pages := map[];
      var todo := wanted;
      while todo != {}
        invariant todo <= wanted
        invariant pages == PagesAt(uc.st.mem, wanted - todo)
      {
        var p :| p in todo;
        if p in uc.st.mem {
          pages := pages[p := uc.st.mem[p]];
        }
        todo := todo - {p};
      }
    }

    /** Folds no more of the past than the budget asks for, and forgets nothing else. */
    method EnforceBudget() returns (folded: bool)
      requires base.Some?
      modifies this`base, this`checkpoints, this`dropped
      ensures folded <==> dropped > old(dropped)
      ensures 0 <= dropped - old(dropped) <= |old(checkpoints)|
      ensures checkpoints == old(checkpoints)[dropped - old(dropped)..]
      ensures base == Some(Folded(old(base).value, old(checkpoints)[..dropped - old(dropped)]))
      ensures NBytes(checkpoints, uc.contextSize) <= budget
      ensures folded ==> NBytes(old(checkpoints)[dropped - old(dropped) - 1..], uc.contextSize) > budget
    {
      hide NBytes, Folded, Fold;
      var total := NBytes(checkpoints, uc.contextSize);
      folded := false;
      ghost var cs, d := checkpoints, 0;
      FoldNone(base.value, cs);
      NoCost(uc.contextSize);
      assert cs[0..] == cs;
      while checkpoints != [] && total > budget
        invariant 0 <= d <= |cs| && d == dropped - old(dropped)
        invariant checkpoints == cs[d..]
        invariant base == Some(Folded(old(base).value, cs[..d]))
        invariant total == NBytes(checkpoints, uc.contextSize)
        invariant folded <==> d > 0
        invariant d > 0 ==> NBytes(cs[d - 1..], uc.contextSize) > budget
      {
        var cp := checkpoints[0];
        FoldOneMore(old(base).value, cs, d);
        CostOfFirst(cs, d, uc.contextSize);
        checkpoints := checkpoints[1..];
        total := total - (PAGE * |cp.pages| + uc.contextSize);
        base := Some(Fold(base.value, cp));
        dropped := dropped + 1;
        folded := true;
        d := d + 1;
      }
    }

    /** Snapshot the present state: everything the first time, after that what was written since. */
    method Append()
      requires Valid() && enabled
      modifies this`base, this`checkpoints
      ensures old(base).None? ==>
        base == Some(Checkpoint(icount, uc.st.ctx, uc.st.mem, uc.st.spans)) && checkpoints == []
      ensures old(base).Some? ==> base == old(base) && checkpoints == old(checkpoints) + [Taken(uc.st, dirty, icount)]
      ensures Ordered(base.value, checkpoints, interval) && Newest(base.value, checkpoints).icount == icount
      ensures Snapshot(base.value, checkpoints) == uc.st <==> old(StalePages()) == {}
    {
      if base.None? {
        var pages := ReadAll();
        base := Some(Checkpoint(icount, uc.st.ctx, pages, uc.st.spans));
        FirstIsExact(uc.st, icount);
      } else {
        var pages := ReadPages(dirty);
        var cp := Checkpoint(icount, uc.st.ctx, pages, uc.st.spans);
        DeltaExactIffNothingStale(base.value, checkpoints, dirty, uc.st, icount);
        OrderedPlus(base.value, checkpoints, cp, interval);
        checkpoints := checkpoints + [cp];
      }
    }

    /**
     Snapshot the present state and keep to the budget.  The new checkpoint describes the present
     state exactly when no page had changed unnoticed.  The result says whether the start of the
     history moved.
     */
    method TakeCheckpoint() returns (folded: bool)
      requires Valid() && enabled
      modifies this
      ensures Valid() && base.Some?
      ensures icount == old(icount) && next == icount + interval
      ensures dropped >= old(dropped) && (folded <==> dropped > old(dropped))
      ensures Recorded(old(base), old(checkpoints), old(dirty), icount, dropped - old(dropped))
      ensures Newest(base.value, checkpoints).icount == icount
      ensures Snapshot(base.value, checkpoints) == uc.st <==> old(StalePages()) == {}
    {
      hide Over, NBytes, Ordered, Stale, Snapshot;
      Append();
      dirty := {};
      next := icount + interval;
      ghost var base0, cs := base.value, checkpoints;
      folded := EnforceBudget();
      FoldedKeeps(base0, cs, |cs| - |checkpoints|, interval);
      FoldNone(base0, cs);
    }

    /** A checkpoint was taken at `at`, and d deltas folded away. */
    ghost predicate Recorded(base0: Option<Checkpoint>, cs: seq<Checkpoint>, noted: set<nat>, at: nat, d: int)
      reads this, uc
    {
      dirty == {} && base.Some? && AfterRecord(base0, cs, noted, uc.st, at, base.value, checkpoints, d)
    }

    /** Count the instruction that comes next, with a checkpoint before it if one is due. */
    method NoteInstruction() returns (folded: bool)
      requires Valid()
      modifies this
      ensures Valid() && (enabled ==> base.Some?)
      ensures icount == old(icount) + 1
      ensures enabled && old(icount) >= old(next) ==>
        Recorded(old(base), old(checkpoints), old(dirty), old(icount), dropped - old(dropped))
      ensures !(enabled && old(icount) >= old(next)) ==>
        base == old(base) && checkpoints == old(checkpoints) && dirty == old(dirty) && dropped == old(dropped) &&
          next == old(next)
      ensures dropped >= old(dropped) && (folded <==> dropped > old(dropped))
      ensures old(icount) < old(Due()) ==> Due() == old(Due()) && dropped == old(dropped)
      ensures enabled && old(icount) >= old(next) ==>
        (Snapshot(base.value, checkpoints) == uc.st <==> old(StalePages()) == {})
    {
      hide Over, NBytes, Ordered, Stale, Snapshot, Taken;
      folded := false;
      if enabled && icount >= next {
        folded := TakeCheckpoint();
      }
      icount := icount + 1;
    }

    /** Keep what a debugger's write has done, which no replay would do again. */
    method NoteExternalWrite(address: nat, size: nat) returns (folded: bool)
      requires Valid()
      modifies this
      ensures Valid() && icount == old(icount)
      ensures enabled && old(base).Some? ==>
        && Recorded(old(base), old(checkpoints), old(dirty) + Touched(address, size).Pages(), icount,
          dropped - old(dropped))
        && (Snapshot(base.value, checkpoints) == uc.st <==> old(StalePages()) <= Touched(address, size).Pages())
      ensures !(enabled && old(base).Some?) ==> base == old(base) && dropped == old(dropped) && next == old(next)
      ensures dropped >= old(dropped) && (folded <==> dropped > old(dropped))
    {
      hide Over, NBytes, Ordered, Snapshot, Taken;
      folded := false;
      if !enabled {
        return;
      }
      NoteWrite(address, size);
      if base.Some? {
        ghost var missed, told := old(StalePages()), Touched(address, size).Pages();
        assert StalePages() == missed - told;
        NothingBeyond(missed, told);
        folded := TakeCheckpoint();
      }
    }

    /** Keep what a debugger's register edit has done. */
    method NoteExternalChange() returns (folded: bool)
      requires Valid()
      modifies this
      ensures Valid() && icount == old(icount)
      ensures enabled && old(base).Some? ==>
        && Recorded(old(base), old(checkpoints), old(dirty), icount, dropped - old(dropped))
        && (Snapshot(base.value, checkpoints) == uc.st <==> old(StalePages()) == {})
      ensures !(enabled && old(base).Some?) ==>
        base == old(base) && dirty == old(dirty) && dropped == old(dropped) && next == old(next)
      ensures dropped >= old(dropped) && (folded <==> dropped > old(dropped))
    {
      hide Over, NBytes, Ordered, Stale, Snapshot, Taken;
      folded := false;
      if enabled && base.Some? {
        folded := TakeCheckpoint();
      }
    }

    /**
     Count one instruction less.  The bookkeeping survives this unless nothing has been counted since
     the last checkpoint.
     */
    method Uncount()
      requires Valid()
      modifies this`icount
      ensures icount == if old(icount) > 0 then old(icount) - 1 else 0
      ensures Valid() <==> base.None? || old(icount) == 0 || Newest(base.value, checkpoints).icount < old(icount)
    {
      hide Over, NBytes, Ordered, Snapshot;
      if icount > 0 {
        icount := icount - 1;
      }
    }

    // ---- querying ----

    predicate Recording()
      reads this
    {
      enabled && base.Some?
    }

    function Earliest(): nat
      reads this
    {
      if base.Some? then base.value.icount else icount
    }

    /** The latest checkpoint not after k, or None where the source raises. */
    method CheckpointAtOrBefore(k: nat) returns (best: Option<nat>)
      requires Valid()
      ensures best.None? <==> base.None? || k < base.value.icount
      ensures best.Some? ==> Latest(base.value, checkpoints, k, best.value)
    {
      if base.None? || k < base.value.icount {
        return None;
      }
      var i := 0;
      assert checkpoints[..0] == [];
      while i < |checkpoints| && checkpoints[i].icount <= k
        invariant 0 <= i <= |checkpoints|
        invariant Newest(base.value, checkpoints[..i]).icount <= k
      {
        i := i + 1;
      }
      if i < |checkpoints| {
        ghost var all := [base.value] + checkpoints;
        forall j | i <= j < |checkpoints|
          ensures checkpoints[j].icount > k
        {
          assert all[i + 1] == checkpoints[i] && all[j + 1] == checkpoints[j];
        }
      }
      best := Some(i);
    }

    /** Forget everything recorded after k; the machine is back there now. */
    method Truncate(k: nat, ghost i: nat)
      requires Valid() && base.Some? && Latest(base.value, checkpoints, k, i)
      modifies this
      ensures base == old(base) && dropped == old(dropped) && dirty == {} && icount == k
      ensures checkpoints == old(checkpoints)[..i]
      ensures Valid() <==> k < Newest(base.value, checkpoints).icount + interval
    {
      hide Over, NBytes, Ordered, Snapshot, NotAfter;
      OrderedPrefix(base.value, checkpoints, i, interval);
      PrefixCostsLess(checkpoints, i, uc.contextSize);
      KeepNotAfter(k);
      NotAfterIsPrefix(base.value, old(checkpoints), k, i, interval);
      icount := k;
      dirty := {};
      var last := Newest(base.value, checkpoints);
      next := last.icount + interval;
      if next <= k {
        next := k + interval;
      }
    }

    method KeepNotAfter(k: nat)
      modifies this`checkpoints
      ensures checkpoints == NotAfter(old(checkpoints), k)
    {
      var kept: seq<Checkpoint> := [];
      var n := 0;
      while n < |checkpoints|
        invariant 0 <= n <= |checkpoints|
        invariant kept == NotAfter(checkpoints[..n], k)
      {
        assert checkpoints[..n + 1][..n] == checkpoints[..n];
        if checkpoints[n].icount <= k {
          kept := kept + [checkpoints[n]];
        }
        n := n + 1;
      }
      assert checkpoints[..n] == checkpoints;
      checkpoints := kept;
    }

    /** A replay has brought the machine to k, and a replay counts nothing. */
    method AdvanceTo(k: nat)
      requires Valid() && base.Some?
      modifies this`icount, this`next
      ensures icount == k
      ensures next == if old(next) < k then k else old(next)
      ensures Valid() <==> Newest(base.value, checkpoints).icount <= k <= old(next)
    {
      hide Over, NBytes, Ordered, Snapshot;
      icount := k;
      if next < k {
        next := k;
      }
    }

    // ---- restoring ----

    function Baseline(): set<Span>
      reads this
    {
      if base.Some? then base.value.spans else {}
    }

    /**
     Map and unmap until the regions are the wanted ones.  Regions the base does not have are taken down
     in any case, so that the ones wanted come back zeroed.
     */
    method SyncRegions(regions: set<Span>)
      requires uc.Valid() && Disjoint(regions)
      modifies uc
      ensures uc.Valid()
      ensures uc.st == if regions == {} then old(uc.st) else Synced(old(uc.st), regions, Baseline())
    {
      if regions == {} {
        return;
      }
      TakeDown(regions);
      PutBack(regions);
      SyncedInTwo(old(uc.st), regions, Baseline());
    }

    method TakeDown(regions: set<Span>)
      requires uc.Valid()
      modifies uc
      ensures uc.Valid()
      ensures uc.st == OnlyRegions(old(uc.st), Kept(old(uc.st), regions, Baseline()))
    {
      hide OnlyRegions, MemUnmap, PagesOf;
      var todo := uc.st.spans;
      ghost var m := uc.st;
      ghost var kept := Kept(m, regions, Baseline());
      OnlyAll(m);
      assert todo + kept == m.spans;
      while todo != {}
        invariant uc.Valid()
        invariant todo <= m.spans
        invariant uc.st == OnlyRegions(m, todo + kept)
      {
        var span :| span in todo;
        ghost var left := todo + kept;
        todo := todo - {span};
        if span !in regions || span !in Baseline() {
          UnmapRegion(m, todo + kept, span);
          assert left == todo + kept + {span};
          var _ := uc.Unmap(span);
        } else {
          assert left == todo + kept;
        }
      }
      assert todo + kept == kept;
    }

    method PutBack(regions: set<Span>)
      requires uc.Valid() && Disjoint(regions) && uc.st.spans <= regions
      modifies uc
      ensures uc.Valid()
      ensures uc.st == WithRegions(old(uc.st), regions)
    {
      var have := uc.st.spans;
      var todo := regions;
      ghost var m := uc.st;
      assert m == WithRegions(m, have + (regions - todo)) by {
        assert have + (regions - todo) == m.spans;
      }
      while todo != {}
        invariant uc.Valid()
        invariant todo <= regions
        invariant uc.st == WithRegions(m, have + (regions - todo))
      {
        var span :| span in todo;
        ghost var done := have + (regions - todo);
        todo := todo - {span};
        if span !in have {
          MapRegion(m, done, span, regions);
          assert have + (regions - todo) == done + {span};
          var _ := uc.Map(span);
        } else {
          assert have + (regions - todo) == done;
        }
      }
      assert have + (regions - todo) == regions;
    }

    /** Page images are written where there is still a page to write them to. */
    method WritePages(pages: map<nat, Page>)
      requires uc.Valid()
      modifies uc
      ensures uc.Valid()
      ensures uc.st == old(uc.st).(mem := Overwrite(old(uc.st.mem), pages))
    {
      hide WithImages, MemWrite;
      var todo := pages.Keys;
      ghost var m, done := uc.st, {};
      NoImages(m, pages);
      while todo != {}
        invariant uc.Valid()
        invariant done == pages.Keys - todo && todo <= pages.Keys
        invariant uc.st == WithImages(m, pages, done)
      {
        var p :| p in todo;
        WriteImage(m, pages, done, p);
        var _ := uc.Write(p * PAGE, pages[p]);
        todo := todo - {p};
        done := done + {p};
      }
      assert done == pages.Keys;
    }

    /**
     Go to the checkpoint that serves k, whatever the machine is now.  The answer is which one it was, or
     None when k is before the history.
     */
    method Restore(k: nat) returns (found: Option<nat>)
      requires Valid()
      modifies uc
      ensures uc.Valid()
      ensures found.None? <==> base.None? || k < base.value.icount
      ensures found.None? ==> uc.st == old(uc.st)
      ensures found.Some? ==> Latest(base.value, checkpoints, k, found.value)
      ensures found.Some? ==> uc.st == RestoredOn(old(uc.st), base.value, checkpoints[..found.value])
    {
      found := CheckpointAtOrBefore(k);
      if found.None? {
        return;
      }
      hide Over, Overwrite, Synced, NBytes;
      var cp := Newest(base.value, checkpoints[..found.value]);
      LatestDisjoint(base.value, checkpoints, found.value, interval);
      SyncRegions(cp.spans);
      WriteImages(cp, k, found.value);
      uc.ContextRestore(cp.context);
    }

    /** The base pages, then the pages of each delta in turn up to the checkpoint wanted. */
    method WriteImages(cp: Checkpoint, ghost k: nat, ghost i: nat)
      requires uc.Valid() && base.Some? && Ordered(base.value, checkpoints, interval)
      requires Latest(base.value, checkpoints, k, i) && cp == Newest(base.value, checkpoints[..i])
      modifies uc
      ensures uc.Valid()
      ensures uc.st == old(uc.st).(mem := Overwrite(old(uc.st.mem), Over(base.value.pages, checkpoints[..i])))
    {
      hide Over, Overwrite, Ordered;
      ghost var m, pages := uc.st, base.value.pages;
      WritePages(base.value.pages);
      OverNone(pages, checkpoints);
      var n := 0;
      LatestIsFirstPast(base.value, checkpoints, k, i, interval);
      while n < |checkpoints| && checkpoints[n].icount <= cp.icount
        invariant uc.Valid()
        invariant 0 <= n <= i
        invariant uc.st == m.(mem := Overwrite(m.mem, Over(pages, checkpoints[..n])))
      {
        OverOneMore(pages, checkpoints, n);
        OverwriteTwice(m.mem, Over(pages, checkpoints[..n]), checkpoints[n].pages);
        WritePages(checkpoints[n].pages);
        n := n + 1;
      }
    }
  }
}
