/**
 What a service call does to the machine, one act at a time, and what becomes of that when the acts
 are put down by kind (maps, unmaps, writes, registers) and done again in that order.
 */
module Acts {
  import opened Options
  import opened Machine

  datatype Act =
    | Map(span: Span)
    | Unmap(span: Span)
    | Write(address: nat, data: seq<Byte>)
    | SetReg(name: string, value: int)
  {
    function Rank(): nat {
      match this
      case Map(_) => 0
      case Unmap(_) => 1
      case Write(_, _) => 2
      case SetReg(_, _) => 3
    }
  }

  /** None when the engine refuses, and for an empty write, which is no act at all. */
  function Try(m: State, a: Act): Option<State> {
    match a
    case Map(span) => MemMap(m, span)
    case Unmap(span) => MemUnmap(m, span)
    case Write(address, data) => if data == [] then None else MemWrite(m, address, data)
    case SetReg(name, value) => Some(RegWrite(m, name, value))
  }

  /** An act the engine refuses changes nothing. */
  function Do(m: State, a: Act): State {
    var r := Try(m, a);
    if r.Some? then r.value else m
  }

  function DoAll(m: State, acts: seq<Act>): State {
    if acts == [] then m else Do(DoAll(m, acts[..|acts| - 1]), acts[|acts| - 1])
  }

  /** No act in the list is refused. */
  predicate Succeed(m: State, acts: seq<Act>) {
    acts == [] || (Succeed(m, acts[..|acts| - 1]) && Try(DoAll(m, acts[..|acts| - 1]), acts[|acts| - 1]).Some?)
  }

  lemma {:induction false} DoAllSplit(m: State, a: seq<Act>, b: seq<Act>)
    ensures DoAll(m, a + b) == DoAll(DoAll(m, a), b)
    ensures Succeed(m, a + b) <==> Succeed(m, a) && Succeed(DoAll(m, a), b)
  {
    if b == [] {
      assert a + b == a;
    } else {
      var b' := b[..|b| - 1];
      assert (a + b)[..|a + b| - 1] == a + b';
      DoAllSplit(m, a, b');
    }
  }

  lemma DoNext(m: State, acts: seq<Act>, n: nat)
    requires n < |acts|
    ensures DoAll(m, acts[..n + 1]) == Do(DoAll(m, acts[..n]), acts[n])
  {
    assert acts[..n + 1][..n] == acts[..n];
  }

  lemma DoKeepsWellFormed(m: State, a: Act)
    requires WellFormed(m)
    ensures WellFormed(Do(m, a))
  {
    match a
    case Map(span) =>
      if Free(m, span) {
        MapKeepsWellFormed(m, span);
      }
    case Unmap(span) =>
      if MemUnmap(m, span).Some? {
        UnmapKeepsWellFormed(m, span);
      }
    case Write(_, _) =>
    case SetReg(_, _) =>
  }

  lemma {:induction false} DoAllKeepsWellFormed(m: State, acts: seq<Act>)
    requires WellFormed(m)
    ensures WellFormed(DoAll(m, acts))
  {
    if acts == [] {
    } else {
      DoAllKeepsWellFormed(m, acts[..|acts| - 1]);
      DoKeepsWellFormed(DoAll(m, acts[..|acts| - 1]), acts[|acts| - 1]);
    }
  }

  /** The acts that were not refused, which are the ones written down. */
  function Successes(m: State, acts: seq<Act>): seq<Act> {
    if acts == [] then []
    else
      var init := Successes(m, acts[..|acts| - 1]);
      var last := acts[|acts| - 1];
      if Try(DoAll(m, acts[..|acts| - 1]), last).Some? then init + [last] else init
  }

  lemma {:induction false} SuccessesSucceed(m: State, acts: seq<Act>)
    ensures Succeed(m, Successes(m, acts)) && DoAll(m, Successes(m, acts)) == DoAll(m, acts)
    ensures forall a :: a in Successes(m, acts) ==> a in acts
  {
    if acts == [] {
    } else {
      var init := acts[..|acts| - 1];
      SuccessesSucceed(m, init);
      var s := Successes(m, init) + [acts[|acts| - 1]];
      assert s[..|s| - 1] == Successes(m, init);
    }
  }

  lemma SuccessesNone(m: State, acts: seq<Act>)
    ensures Successes(m, acts[..0]) == [] && WrittenPages([]) == {}
  {
    assert acts[..0] == [];
  }

  lemma SuccessesNext(m: State, acts: seq<Act>, n: nat)
    requires n < |acts|
    ensures Successes(m, acts[..n + 1]) ==
      (var init := Successes(m, acts[..n]); if Try(DoAll(m, acts[..n]), acts[n]).Some? then init + [acts[n]] else init)
  {
    assert acts[..n + 1][..n] == acts[..n];
  }

  /** The pages that the writes among `acts` touch. */
  function WrittenPages(acts: seq<Act>): set<nat> {
    if acts == [] then {}
    else
      var last := acts[|acts| - 1];
      WrittenPages(acts[..|acts| - 1]) + (if last.Write? then Touched(last.address, |last.data|).Pages() else {})
  }

  lemma WrittenPlus(acts: seq<Act>, a: Act)
    ensures WrittenPages(acts + [a]) == WrittenPages(acts) +
      (if a.Write? then Touched(a.address, |a.data|).Pages() else {})
  {
    assert (acts + [a])[..|acts + [a]| - 1] == acts;
  }

  lemma OneWrite(a: Act)
    ensures WrittenPages([a]) == if a.Write? then Touched(a.address, |a.data|).Pages() else {}
  {
    assert [a][..|[a]| - 1] == [];
  }

  // ---- by kind ----

  function Of(acts: seq<Act>, rank: nat): seq<Act> {
    if acts == [] then []
    else
      var init := Of(acts[..|acts| - 1], rank);
      var last := acts[|acts| - 1];
      if last.Rank() == rank then init + [last] else init
  }

  function Grouped(acts: seq<Act>): seq<Act> {
    Of(acts, 0) + Of(acts, 1) + Of(acts, 2) + Of(acts, 3)
  }

  /** Doing b before a instead of after it makes no difference. */
  predicate Apart(a: Act, b: Act) {
    && (a.Unmap? && b.Map? ==> !a.span.Overlaps(b.span))
    && (a.Write? && b.Unmap? ==> !Touched(a.address, |a.data|).Overlaps(b.span))
  }

  /** Nothing is mapped where something was unmapped, or unmapped where something was written, by the same call. */
  ghost predicate Tame(acts: seq<Act>) {
    forall i, j :: 0 <= i < j < |acts| ==> Apart(acts[i], acts[j])
  }

  lemma SwapUnmapMap(m: State, hole: Span, span: Span)
    requires WellFormed(m) && MemUnmap(m, hole).Some? && MemMap(MemUnmap(m, hole).value, span).Some?
    requires !hole.Overlaps(span)
    ensures MemMap(m, span).Some? && MemUnmap(MemMap(m, span).value, hole).Some?
    ensures MemUnmap(MemMap(m, span).value, hole) == MemMap(MemUnmap(m, hole).value, span)
  {
    hide Cut;
    forall s | s in m.spans
      ensures !s.Overlaps(span)
    {
      SpanKeptByCut(m.spans, hole, span, s);
    }
    CutPlus(m.spans, hole, span);
    MinusPlus(m.mem, hole, span);
  }

  lemma MinusPlus(mem: map<nat, Page>, hole: Span, span: Span)
    requires !hole.Overlaps(span) && hole.first <= hole.last && span.first <= span.last
    ensures (mem + FreshPages(span)) - hole.Pages() == (mem - hole.Pages()) + FreshPages(span)
  {
  }

  lemma SpanKeptByCut(spans: set<Span>, hole: Span, span: Span, s: Span)
    requires Disjoint(spans) && s in spans && hole.first <= hole.last && span.first <= span.last
    requires !hole.Overlaps(span) && forall t :: t in Cut(spans, hole) ==> !t.Overlaps(span)
    ensures !s.Overlaps(span)
  {
    var p := if s.first > span.first then s.first else span.first;
    CutPages(spans, hole, p);
    assert s.Overlaps(span) ==> s.Has(p);
  }

  lemma CutPlus(spans: set<Span>, hole: Span, span: Span)
    requires !hole.Overlaps(span)
    ensures Cut(spans + {span}, hole) == Cut(spans, hole) + {span}
  {
  }

  lemma SwapWriteMap(m: State, address: nat, data: seq<Byte>, span: Span)
    requires WellFormed(m) && MemWrite(m, address, data).Some? && MemMap(MemWrite(m, address, data).value, span).Some?
    ensures MemMap(m, span).Some? && MemWrite(MemMap(m, span).value, address, data).Some?
    ensures MemWrite(MemMap(m, span).value, address, data) == MemMap(MemWrite(m, address, data).value, span)
  {
    MapKeepsWellFormed(m, span);
    PutBeforeFresh(m.mem, address, data, span);
  }

  lemma PutBeforeFresh(mem: map<nat, Page>, address: nat, data: seq<Byte>, span: Span)
    requires Touched(address, |data|).Pages() <= mem.Keys && span.Pages() !! mem.Keys
    ensures PutBytes(mem + FreshPages(span), address, data) == PutBytes(mem, address, data) + FreshPages(span)
  {
    var all := mem + FreshPages(span);
    forall p | p in span.Pages()
      ensures PutBytes(all, address, data)[p] == FreshPages(span)[p]
    {
      assert p !in Touched(address, |data|).Pages();
      PutBytesFrame(all, address, data, p);
    }
    assert PutBytes(all, address, data) == PutBytes(mem, address, data) + FreshPages(span);
  }

  lemma SwapWriteUnmap(m: State, address: nat, data: seq<Byte>, hole: Span)
    requires MemWrite(m, address, data).Some? && MemUnmap(MemWrite(m, address, data).value, hole).Some?
    requires !Touched(address, |data|).Overlaps(hole)
    ensures MemUnmap(m, hole).Some? && MemWrite(MemUnmap(m, hole).value, address, data).Some?
    ensures MemWrite(MemUnmap(m, hole).value, address, data) == MemUnmap(MemWrite(m, address, data).value, hole)
  {
    assert PutBytes(m.mem - hole.Pages(), address, data) == PutBytes(m.mem, address, data) - hole.Pages();
  }

  lemma Swap(m: State, a: Act, b: Act)
    requires WellFormed(m) && a.Rank() > b.Rank() && Apart(a, b)
    requires Try(m, a).Some? && Try(Try(m, a).value, b).Some?
    ensures Try(m, b).Some? && Try(Try(m, b).value, a) == Try(Try(m, a).value, b)
  {
    match a
    case Unmap(hole) => SwapUnmapMap(m, hole, b.span);
    case Write(address, data) =>
      if b.Map? {
        SwapWriteMap(m, address, data, b.span);
      } else {
        SwapWriteUnmap(m, address, data, b.span);
      }
    case SetReg(_, _) =>
  }

  /** An act moves in front of a block of later kinds. */
  lemma {:induction false} MoveLeft(m: State, block: seq<Act>, x: Act)
    requires WellFormed(m) && Succeed(m, block + [x])
    requires forall a :: a in block ==> a.Rank() > x.Rank() && Apart(a, x)
    ensures Succeed(m, [x] + block) && DoAll(m, [x] + block) == DoAll(m, block + [x])
  {
    hide Try, Of;
    if block == [] {
      assert [x] + block == block + [x];
    } else {
      var rest := block[..|block| - 1];
      var y := block[|block| - 1];
      assert (block + [x])[..|block|] == block;
      var mid := DoAll(m, rest);
      DoAllKeepsWellFormed(m, rest);
      Swap(mid, y, x);
      assert (rest + [x])[..|rest|] == rest;
      assert Succeed(m, rest + [x]);
      MoveLeft(m, rest, x);
      assert ([x] + block)[..|block|] == [x] + rest;
    }
  }

  lemma {:induction false} OfOnly(acts: seq<Act>, rank: nat)
    ensures forall a :: a in Of(acts, rank) ==> a in acts && a.Rank() == rank
  {
    if acts == [] {
    } else {
      OfOnly(acts[..|acts| - 1], rank);
    }
  }

  /** Putting a call's acts down by kind and doing them again gives what the call gave. */
  lemma {:induction false} Regroup(m: State, acts: seq<Act>)
    requires WellFormed(m) && Succeed(m, acts) && Tame(acts)
    ensures Succeed(m, Grouped(acts)) && DoAll(m, Grouped(acts)) == DoAll(m, acts)
  {
    hide Try, Of, Grouped, Tame, WellFormed;
    if acts == [] {
      GroupedNone();
    } else {
      var init := acts[..|acts| - 1];
      var x := acts[|acts| - 1];
      assert acts == init + [x];
      TameInit(init, x);
      Regroup(m, init);
      var low, high := Around(init, x);
      DoAllKeepsWellFormed(m, low);
      MoveIn(m, low, high, x);
    }
  }

  lemma GroupedNone()
    ensures Grouped([]) == []
  {
  }

  lemma TameInit(init: seq<Act>, x: Act)
    requires Tame(init + [x])
    ensures Tame(init)
  {
    var all := init + [x];
    forall i, j | 0 <= i < j < |init|
      ensures Apart(init[i], init[j])
    {
      assert all[i] == init[i] && all[j] == init[j];
    }
  }

  lemma MoveIn(m: State, low: seq<Act>, high: seq<Act>, x: Act)
    requires WellFormed(DoAll(m, low)) && Succeed(m, low + high) && Try(DoAll(m, low + high), x).Some?
    requires forall a :: a in high ==> a.Rank() > x.Rank() && Apart(a, x)
    ensures Succeed(m, low + ([x] + high)) && DoAll(m, low + ([x] + high)) == Do(DoAll(m, low + high), x)
  {
    hide Try, WellFormed;
    var mid := DoAll(m, low);
    DoAllSplit(m, low, high);
    assert (high + [x])[..|high|] == high;
    MoveLeft(mid, high, x);
    DoAllSplit(m, low, [x] + high);
  }

  /** What of the groups of `init` comes before an act of x's kind, and what after. */
  lemma Around(init: seq<Act>, x: Act) returns (low: seq<Act>, high: seq<Act>)
    requires Tame(init + [x])
    ensures low + high == Grouped(init)
    ensures Grouped(init + [x]) == low + ([x] + high)
    ensures forall a :: a in high ==> a.Rank() > x.Rank() && Apart(a, x)
  {
    OfOnly(init, 0);
    OfOnly(init, 1);
    OfOnly(init, 2);
    OfOnly(init, 3);
    var all := init + [x];
    assert all[..|all| - 1] == init;
    forall a | a in init
      ensures Apart(a, x)
    {
      var i :| 0 <= i < |init| && init[i] == a;
      assert all[i] == a && all[|init|] == x;
    }
    match x
    case Map(_) => low, high := Of(init, 0), Of(init, 1) + Of(init, 2) + Of(init, 3);
    case Unmap(_) => low, high := Of(init, 0) + Of(init, 1), Of(init, 2) + Of(init, 3);
    case Write(_, _) => low, high := Of(init, 0) + Of(init, 1) + Of(init, 2), Of(init, 3);
    case SetReg(_, _) => low, high := Grouped(init), [];
  }

  // ---- when regrouping is right ----

  /** What every handler the source ships does: it never unmaps, or does nothing but unmap and answer. */
  predicate OneWay(acts: seq<Act>) {
    || (forall a :: a in acts ==> !a.Unmap?)
    || (forall a :: a in acts ==> a.Unmap? || a.SetReg?)
  }

  lemma OneWayIsTame(acts: seq<Act>)
    requires OneWay(acts)
    ensures Tame(acts)
  {
    forall i, j | 0 <= i < j < |acts|
      ensures Apart(acts[i], acts[j])
    {
      assert acts[i] in acts && acts[j] in acts;
    }
  }

  /** A call that unmaps and then maps is reproduced exactly when the two do not meet. */
  lemma UnmapThenMapIff(m: State, hole: Span, span: Span)
    requires WellFormed(m) && Succeed(m, [Unmap(hole), Map(span)])
    ensures var acts := [Unmap(hole), Map(span)];
      DoAll(m, Grouped(acts)) == DoAll(m, acts) <==> !hole.Overlaps(span)
  {
    var acts := [Unmap(hole), Map(span)];
    assert acts[..1] == [Unmap(hole)] && [Unmap(hole)][..0] == [];
    var between := MemUnmap(m, hole).value;
    var done := MemMap(between, span).value;
    assert DoAll(m, [Unmap(hole)]) == between && DoAll(m, acts) == done;
    assert Grouped(acts) == [Map(span), Unmap(hole)] by {
      OfOne(Unmap(hole));
      OfPlus([Unmap(hole)], Map(span));
      assert [Unmap(hole)] + [Map(span)] == acts;
    }
    var again := [Map(span), Unmap(hole)];
    assert again[..1] == [Map(span)] && [Map(span)][..0] == [];
    assert DoAll(m, again) == Do(Do(m, Map(span)), Unmap(hole));
    if hole.Overlaps(span) {
      var p := if hole.first > span.first then hole.first else span.first;
      assert p in hole.Pages() && p in span.Pages();
      var s :| s in m.spans && s.Has(p);
      assert s.Overlaps(span);
      assert p !in DoAll(m, again).mem && p in done.mem;
    } else {
      SwapUnmapMap(m, hole, span);
    }
  }

  lemma OfPlus(acts: seq<Act>, a: Act)
    ensures forall rank :: Of(acts + [a], rank) == if a.Rank() == rank then Of(acts, rank) + [a] else Of(acts, rank)
  {
    assert (acts + [a])[..|acts + [a]| - 1] == acts;
  }

  lemma OfOne(a: Act)
    ensures forall rank :: Of([a], rank) == if a.Rank() == rank then [a] else []
  {
    assert [a][..|[a]| - 1] == [];
  }

  // ---- doing it a second time ----

  predicate SetsByte(acts: seq<Act>, address: nat) {
    exists a :: a in acts && a.Write? && a.address <= address < a.address + |a.data|
  }

  predicate SetsReg(acts: seq<Act>, name: string) {
    exists a :: a in acts && a.SetReg? && a.name == name
  }

  predicate OnlySets(acts: seq<Act>) {
    forall a :: a in acts ==> a.Write? || a.SetReg?
  }

  ghost predicate SameReg(a: Context, b: Context, name: string) {
    (name in a.regs <==> name in b.regs) && (name in a.regs ==> a.regs[name] == b.regs[name])
  }

  ghost predicate SameBytes(a: State, b: State, acts: seq<Act>, p: nat)
    requires p in a.mem && p in b.mem
  {
    forall i :: 0 <= i < PAGE ==> a.mem[p][i] == b.mem[p][i] || SetsByte(acts, p * PAGE + i)
  }

  /** The two differ only in what `acts` will set. */
  ghost predicate AgreeBut(a: State, b: State, acts: seq<Act>) {
    && a.spans == b.spans && a.mem.Keys == b.mem.Keys
    && (forall p :: p in a.mem ==> SameBytes(a, b, acts, p))
    && (forall name :: SameReg(a.ctx, b.ctx, name) || SetsReg(acts, name))
  }

  lemma AgreeOneMore(a: State, b: State, x: Act, rest: seq<Act>)
    requires AgreeBut(a, b, [x] + rest) && (x.Write? || x.SetReg?)
    requires Try(a, x).Some?
    ensures Try(b, x).Some? && AgreeBut(Do(a, x), Do(b, x), rest)
  {
    var a', b' := Do(a, x), Do(b, x);
    assert forall y :: y in [x] + rest <==> y == x || y in rest;
    forall p | p in a'.mem
      ensures SameBytes(a', b', rest, p)
    {
      assert SameBytes(a, b, [x] + rest, p);
    }
    forall name
      ensures SameReg(a'.ctx, b'.ctx, name) || SetsReg(rest, name)
    {
      assert SameReg(a.ctx, b.ctx, name) || SetsReg([x] + rest, name);
    }
  }

  lemma {:induction false} AgreeAfter(a: State, b: State, acts: seq<Act>, rest: seq<Act>)
    requires OnlySets(acts) && Succeed(a, acts) && AgreeBut(a, b, acts + rest)
    ensures Succeed(b, acts) && AgreeBut(DoAll(a, acts), DoAll(b, acts), rest)
  {
    hide AgreeBut, Try, Do;
    if acts == [] {
      assert acts + rest == rest;
    } else {
      var init := acts[..|acts| - 1];
      var x := acts[|acts| - 1];
      assert acts + rest == init + ([x] + rest);
      AgreeAfter(a, b, init, [x] + rest);
      assert x in acts;
      AgreeOneMore(DoAll(a, init), DoAll(b, init), x, rest);
    }
  }

  lemma {:induction false} ChangesOnlyWhatItSets(m: State, acts: seq<Act>)
    requires OnlySets(acts)
    ensures AgreeBut(m, DoAll(m, acts), acts)
  {
    if acts == [] {
    } else {
      var init := acts[..|acts| - 1];
      var x := acts[|acts| - 1];
      ChangesOnlyWhatItSets(m, init);
      assert x in acts;
      ChangeOneMore(m, DoAll(m, init), init, x);
      assert init + [x] == acts;
    }
  }

  lemma ChangeOneMore(m: State, b: State, init: seq<Act>, x: Act)
    requires AgreeBut(m, b, init) && (x.Write? || x.SetReg?)
    ensures AgreeBut(m, Do(b, x), init + [x])
  {
    var b' := Do(b, x);
    assert forall y :: y in init + [x] <==> y == x || y in init;
    forall p | p in m.mem
      ensures SameBytes(m, b', init + [x], p)
    {
      assert SameBytes(m, b, init, p);
    }
    forall name
      ensures SameReg(m.ctx, b'.ctx, name) || SetsReg(init + [x], name)
    {
      assert SameReg(m.ctx, b.ctx, name) || SetsReg(init, name);
    }
  }

  lemma AgreeOnAll(a: State, b: State)
    requires AgreeBut(a, b, [])
    ensures a == b
  {
    forall p | p in a.mem
      ensures a.mem[p] == b.mem[p]
    {
      assert SameBytes(a, b, [], p);
    }
    assert a.mem == b.mem;
    assert forall name :: SameReg(a.ctx, b.ctx, name);
    forall name
      ensures name in a.ctx.regs <==> name in b.ctx.regs
      ensures name in a.ctx.regs ==> a.ctx.regs[name] == b.ctx.regs[name]
    {
      assert SameReg(a.ctx, b.ctx, name);
    }
    assert a.ctx.regs == b.ctx.regs;
  }

  // An act that would be refused the second time round.

  ghost predicate Spent(m: State, a: Act) {
    || (a.Map? && exists p :: p in a.span.Pages() && p in m.mem)
    || (a.Unmap? && exists p :: p in a.span.Pages() && p !in m.mem)
  }

  lemma {:induction false} SpentDoNothing(m: State, acts: seq<Act>)
    requires WellFormed(m) && forall a :: a in acts ==> Spent(m, a)
    ensures DoAll(m, acts) == m
  {
    if acts == [] {
    } else {
      SpentDoNothing(m, acts[..|acts| - 1]);
      var a := acts[|acts| - 1];
      assert a in acts;
      if a.Map? {
        var p :| p in a.span.Pages() && p in m.mem;
        var s :| s in m.spans && s.Has(p);
        assert s.Overlaps(a.span);
      }
    }
  }

  /** Maps alone, or unmaps alone, are spent once they have all been done. */
  lemma {:induction false} DoneIsSpent(m: State, acts: seq<Act>)
    requires Succeed(m, acts)
    requires (forall a :: a in acts ==> a.Map?) || (forall a :: a in acts ==> a.Unmap?)
    ensures forall a :: a in acts ==> Spent(DoAll(m, acts), a)
  {
    if acts == [] {
    } else {
      var init := acts[..|acts| - 1];
      var x := acts[|acts| - 1];
      assert x in acts;
      DoneIsSpent(m, init);
      forall a | a in acts
        ensures Spent(DoAll(m, acts), a)
      {
        StillSpent(DoAll(m, init), a, x);
      }
    }
  }

  lemma StillSpent(m: State, a: Act, x: Act)
    requires (a.Map? && x.Map?) || (a.Unmap? && x.Unmap?)
    requires Try(m, x).Some? && (Spent(m, a) || a == x)
    ensures Spent(Do(m, x), a)
  {
    assert x.span.first in x.span.Pages();
    if a == x {
      assert x.span.first in a.span.Pages();
    }
  }

  /** Doing what is recorded for a call once more, right after it was done, changes nothing. */
  lemma AgainChangesNothing(m: State, acts: seq<Act>)
    requires WellFormed(m) && Succeed(m, acts) && OneWay(acts)
    ensures DoAll(DoAll(m, Grouped(acts)), Grouped(acts)) == DoAll(m, Grouped(acts))
  {
    hide Try, Of, Tame, WellFormed, DoAll, Succeed;
    OneWayIsTame(acts);
    Regroup(m, acts);
    var shape := Of(acts, 0) + Of(acts, 1);
    var sets := Of(acts, 2) + Of(acts, 3);
    OfOnly(acts, 0);
    OfOnly(acts, 1);
    OfOnly(acts, 2);
    OfOnly(acts, 3);
    assert Grouped(acts) == shape + sets;
    assert (forall a :: a in shape ==> a.Map?) || (forall a :: a in shape ==> a.Unmap?);
    ShapeThenSets(m, shape, sets);
  }

  lemma ShapeThenSets(m: State, shape: seq<Act>, sets: seq<Act>)
    requires WellFormed(m) && Succeed(m, shape + sets) && OnlySets(sets)
    requires (forall a :: a in shape ==> a.Map?) || (forall a :: a in shape ==> a.Unmap?)
    ensures DoAll(DoAll(m, shape + sets), shape + sets) == DoAll(m, shape + sets)
  {
    DoAllSplit(m, shape, sets);
    var mid := DoAll(m, shape);
    var end := DoAll(mid, sets);
    DoneIsSpent(m, shape);
    ChangesOnlyWhatItSets(mid, sets);
    assert forall a :: a in shape && Spent(mid, a) ==> Spent(end, a);
    DoAllKeepsWellFormed(m, shape + sets);
    SpentDoNothing(end, shape);
    DoAllSplit(end, shape, sets);
    assert sets + [] == sets;
    AgreeAfter(mid, end, sets, []);
    AgreeOnAll(end, DoAll(end, sets));
  }
}
