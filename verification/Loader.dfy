/** Mapping the segments of a saved process over whatever is mapped already. */
module Loaders {
  import opened Options
  import opened Machine
  import opened Engine

  /** Bytes from start up to but not including end, and what they hold if that is known. */
  datatype Segment = Segment(start: nat, end: nat, content: Option<seq<Byte>>) {
    function First(): nat {
      start / PAGE
    }

    /** The page after the last. */
    function Stop(): nat {
      (end + PAGE - 1) / PAGE
    }

    function Pages(): set<nat> {
      Range(First(), Stop())
    }

    /** The contents cut to the length; a negative length takes as many bytes off the end. */
    function Bytes(): seq<Byte> {
      if content.None? || Stop() <= First() then []
      else
        var n := if end >= start then end - start else |content.value| - (start - end);
        if n <= 0 then [] else if |content.value| <= n then content.value else content.value[..n]
    }
  }

  predicate InOrder(regions: seq<Span>) {
    forall i, j :: 0 <= i < j < |regions| ==> regions[i].last < regions[j].first
  }

  /** A stretch of unmapped pages that cannot be made longer within [first, stop). */
  predicate Gap(mem: map<nat, Page>, first: nat, stop: nat, s: Span) {
    && first <= s.first <= s.last < stop
    && (forall p: nat :: s.Has(p) ==> p !in mem)
    && (s.first == first || s.first - 1 in mem)
    && (s.last + 1 == stop || s.last + 1 in mem)
  }

  /** Up to `upto`, exactly the gaps have been mapped, each as one zeroed region, and nothing else has changed. */
  ghost predicate Filled(m0: State, m: State, first: nat, stop: nat, upto: nat) {
    && m.ctx == m0.ctx && m0.spans <= m.spans
    && m.mem.Keys == m0.mem.Keys + Range(first, upto)
    && (forall p :: p in m0.mem ==> m.mem[p] == m0.mem[p])
    && (forall p :: p in m.mem && p !in m0.mem ==> m.mem[p] == ZeroPage())
    && (forall s :: s in m.spans && s !in m0.spans ==> Gap(m0.mem, first, stop, s))
  }

  lemma FillGap(m0: State, m: State, first: nat, stop: nat, s: Span)
    requires WellFormed(m) && Filled(m0, m, first, stop, s.first) && Gap(m0.mem, first, stop, s)
    ensures MemMap(m, s).Some? && Filled(m0, MemMap(m, s).value, first, stop, s.last + 1)
  {
    hide WellFormed;
    assert forall p: nat :: s.Has(p) ==> p !in m.mem;
    UnmappedIsFree(m, s);
  }

  lemma UnmappedIsFree(m: State, s: Span)
    requires WellFormed(m) && s.first <= s.last && forall p: nat :: s.Has(p) ==> p !in m.mem
    ensures MemMap(m, s).Some?
  {
    forall t | t in m.spans
      ensures !t.Overlaps(s)
    {
      var p := if t.first > s.first then t.first else s.first;
      assert t.Has(p) ==> p in m.mem;
      assert s.Has(p) ==> p !in m.mem;
    }
  }

  lemma SkipMapped(m0: State, m: State, first: nat, stop: nat, upto: nat, upto': nat)
    requires Filled(m0, m, first, stop, upto) && first <= upto <= upto'
    requires forall p: nat :: upto <= p < upto' ==> p in m0.mem
    ensures Filled(m0, m, first, stop, upto')
  {
    assert Range(first, upto') == Range(first, upto) + Range(upto, upto');
  }

  lemma EarliestExists(spans: set<Span>)
    requires spans != {}
    ensures exists s :: s in spans && Earliest(spans, s)
  {
    var x :| x in spans;
    if spans == {x} {
      assert Earliest(spans, x);
    } else {
      var rest := spans - {x};
      assert spans == rest + {x};
      EarliestExists(rest);
      var s :| s in rest && Earliest(rest, s);
      assert Earliest(spans, if x.first < s.first then x else s);
    }
  }

  predicate Earliest(spans: set<Span>, s: Span) {
    forall t :: t in spans ==> s.first <= t.first
  }

  /** The mapped regions, lowest first. */
  method SortedRegions(spans: set<Span>) returns (regions: seq<Span>)
    requires Disjoint(spans)
    ensures InOrder(regions) && forall s :: s in regions <==> s in spans
  {
    regions := [];
    var todo := spans;
    while todo != {}
      invariant todo <= spans && (forall s :: s in regions <==> s in spans - todo)
      invariant InOrder(regions) && forall i, t :: 0 <= i < |regions| && t in todo ==> regions[i].last < t.first
    {
      EarliestExists(todo);
      var s :| s in todo && Earliest(todo, s);
      assert forall t :: t in todo && t != s ==> s.last < t.first;
      todo := todo - {s};
      regions := regions + [s];
    }
  }

  /**
     Map whatever of the segment is not mapped yet.  No request is ever refused, every region there
     was stays as it is, and each gap becomes one zeroed region.
     */
  method FillGaps(uc: Uc, first: nat, stop: nat)
    requires uc.Valid() && first < stop
    modifies uc
    ensures uc.Valid() && Filled(old(uc.st), uc.st, first, stop, stop)
  {
    hide WellFormed, Filled, MemMap;
    ghost var m0 := uc.st;
    WellFormedDisjoint(m0);
    var regions := SortedRegions(uc.st.spans);
    var cursor, i := first, 0;
    FilledNone(m0, first, stop);
    while i < |regions|
      invariant uc.Valid() && 0 <= i <= |regions| && first <= cursor
      invariant Filled(m0, uc.st, first, stop, Least(cursor, stop))
      invariant forall j :: 0 <= j < i ==> regions[j].last < cursor
      invariant cursor == first || cursor - 1 in m0.mem
    {
      var r := regions[i];
      if r.last >= cursor {
        if r.first >= stop {
          break;
        }
        RegionPages(m0, r);
        if r.first > cursor {
          var gap := Span(cursor, r.first - 1);
          NoneBetween(m0, regions, i, cursor, r.first);
          FillGap(m0, uc.st, first, stop, gap);
          var ok := uc.Map(gap);
          assert ok;
        }
        SkipMapped(m0, uc.st, first, stop, Least(if r.first > cursor then r.first else cursor, stop),
          Least(r.last + 1, stop));
        cursor := r.last + 1;
      }
      i := i + 1;
    }
    if cursor < stop {
      NoneBetween(m0, regions, i, cursor, stop);
      FillGap(m0, uc.st, first, stop, Span(cursor, stop - 1));
      var ok := uc.Map(Span(cursor, stop - 1));
      assert ok;
    }
  }

  lemma FilledNone(m: State, first: nat, stop: nat)
    ensures Filled(m, m, first, stop, first)
  {
  }

  lemma RegionPages(m: State, s: Span)
    requires WellFormed(m) && s in m.spans
    ensures s.first <= s.last && forall p: nat :: s.Has(p) ==> p in m.mem
  {
  }

  /** Between the end of the regions before i and the start of region i, nothing is mapped. */
  lemma NoneBetween(m: State, regions: seq<Span>, i: nat, lo: nat, hi: nat)
    requires WellFormed(m) && InOrder(regions) && (forall s :: s in regions <==> s in m.spans) && i <= |regions|
    requires forall j :: 0 <= j < i ==> regions[j].last < lo
    requires i < |regions| ==> regions[i].first >= hi
    ensures forall p: nat :: lo <= p < hi ==> p !in m.mem
  {
    assert forall j :: i < j < |regions| ==> regions[i].last < regions[j].first;
    assert i < |regions| ==> regions[i] in m.spans;
    forall p: nat | p in m.mem
      ensures p < lo || p >= hi
    {
      var s :| s in m.spans && s.Has(p);
      var j :| 0 <= j < |regions| && regions[j] == s;
    }
  }

  // ---- whole segments ----

  /** What a byte holds after the segments were loaded one after the other: the last to cover it decides. */
  ghost function Loaded(m0: State, segments: seq<Segment>, a: nat): Byte {
    if segments == [] then ByteAt(m0, a)
    else
      var last := segments[|segments| - 1];
      if last.start <= a < last.start + |last.Bytes()| then last.Bytes()[a - last.start]
      else Loaded(m0, segments[..|segments| - 1], a)
  }

  ghost function PagesOfAll(segments: seq<Segment>): set<nat> {
    if segments == [] then {} else PagesOfAll(segments[..|segments| - 1]) + segments[|segments| - 1].Pages()
  }

  /** Mapped pages, regions that were there, and every byte, after loading. */
  ghost predicate LoadedOver(m0: State, m: State, segments: seq<Segment>) {
    && m.ctx == m0.ctx && m0.spans <= m.spans
    && m.mem.Keys == m0.mem.Keys + PagesOfAll(segments)
    && forall a: nat :: ByteAt(m, a) == Loaded(m0, segments, a)
  }

  lemma FilledBytes(m0: State, m: State, first: nat, stop: nat, a: nat)
    requires Filled(m0, m, first, stop, stop)
    ensures ByteAt(m, a) == ByteAt(m0, a)
  {
  }

  /** A segment that does not end before it starts is covered once its gaps are filled. */
  lemma SegmentCovered(m0: State, m: State, seg: Segment)
    requires Filled(m0, m, seg.First(), seg.Stop(), seg.Stop()) && seg.start <= seg.end && seg.Bytes() != []
    ensures MemWrite(m, seg.start, seg.Bytes()).Some?
  {
    forall p: nat | Touched(seg.start, |seg.Bytes()|).Has(p)
      ensures p in m.mem
    {
      assert p in Range(seg.First(), seg.Stop());
    }
  }

  method MapSegment(uc: Uc, seg: Segment) returns (ok: bool)
    requires uc.Valid()
    modifies uc
    ensures uc.Valid()
    ensures seg.start <= seg.end ==> ok
    ensures ok ==> LoadedOver(old(uc.st), uc.st, [seg])
    ensures ok ==> forall s :: s in uc.st.spans && s !in old(uc.st).spans ==>
      Gap(old(uc.st).mem, seg.First(), seg.Stop(), s)
  {
    hide WellFormed, ByteAt, MemWrite, Segment.Bytes;
    ghost var m0 := uc.st;
    OneSegment(m0, seg);
    if seg.Stop() <= seg.First() {
      NoBytes(seg);
      return true;
    }
    FillGaps(uc, seg.First(), seg.Stop());
    ghost var m1 := uc.st;
    forall a: nat {
      FilledBytes(m0, m1, seg.First(), seg.Stop(), a);
    }
    ok := true;
    if seg.Bytes() != [] {
      if seg.start <= seg.end {
        SegmentCovered(m0, m1, seg);
      }
      if MemWrite(m1, seg.start, seg.Bytes()).Some? {
        WriteLoads(m1, seg.start, seg.Bytes());
      }
      ok := uc.Write(seg.start, seg.Bytes());
    }
  }

  lemma WriteLoads(m: State, address: nat, data: seq<Byte>)
    requires MemWrite(m, address, data).Some?
    ensures var m' := MemWrite(m, address, data).value;
      && m'.ctx == m.ctx && m'.spans == m.spans && m'.mem.Keys == m.mem.Keys
      && forall a: nat :: ByteAt(m', a) == if address <= a < address + |data| then data[a - address] else ByteAt(m, a)
  {
    forall a: nat
      ensures ByteAt(MemWrite(m, address, data).value, a) ==
        if address <= a < address + |data| then data[a - address] else ByteAt(m, a)
    {
      ByteAfterWrite(m, address, data, a);
    }
  }

  lemma NoBytes(seg: Segment)
    requires seg.Stop() <= seg.First()
    ensures seg.Pages() == {} && seg.Bytes() == []
  {
  }

  lemma OneSegment(m0: State, seg: Segment)
    ensures PagesOfAll([seg]) == seg.Pages()
    ensures forall a: nat :: Loaded(m0, [seg], a) ==
                               if seg.start <= a < seg.start + |seg.Bytes()| then seg.Bytes()[a - seg.start]
                               else ByteAt(m0, a)
  {
    assert [seg][..0] == [];
  }

  lemma LoadedNext(m0: State, m: State, m': State, segments: seq<Segment>, n: nat)
    requires n < |segments| && LoadedOver(m0, m, segments[..n]) && LoadedOver(m, m', [segments[n]])
    ensures LoadedOver(m0, m', segments[..n + 1])
  {
    OneSegment(m, segments[n]);
    assert segments[..n + 1][..n] == segments[..n];
    forall a: nat
      ensures ByteAt(m', a) == Loaded(m0, segments[..n + 1], a)
    {
      assert ByteAt(m', a) == Loaded(m, [segments[n]], a) && ByteAt(m, a) == Loaded(m0, segments[..n], a);
    }
  }

  /** Load segments that may overlap each other and what is there, in order. */
  method MapSegments(uc: Uc, segments: seq<Segment>) returns (ok: bool)
    requires uc.Valid()
    modifies uc
    ensures uc.Valid()
    ensures (forall seg :: seg in segments ==> seg.start <= seg.end) ==> ok
    ensures ok ==> LoadedOver(old(uc.st), uc.st, segments)
  {
    hide WellFormed, LoadedOver;
    ghost var m0 := uc.st;
    LoadedNone(m0, segments);
    for n := 0 to |segments|
      invariant uc.Valid() && LoadedOver(m0, uc.st, segments[..n])
    {
      ghost var m := uc.st;
      ok := MapSegment(uc, segments[n]);
      if !ok {
        return;
      }
      LoadedNext(m0, m, uc.st, segments, n);
    }
    assert segments[..|segments|] == segments;
    ok := true;
  }

  lemma LoadedNone(m0: State, segments: seq<Segment>)
    ensures LoadedOver(m0, m0, segments[..0])
  {
    assert segments[..0] == [];
  }
}
