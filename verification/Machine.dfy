/**
 The emulated machine as a value: registers, paged memory and the set of mapped regions, with the
 engine's own operations on them.  A page is named by its number, which is its address divided by
 PAGE, so a region is a span of page numbers.  Every operation answers None where the engine would
 raise.
 */
module Machine {
  import opened Options

  const PAGE: nat := 0x1000

  /** The most a layer moves at a time. */
  const MAX_TRANSFER: nat := 0x4000_0000

  type Byte = b: int | 0 <= b < 0x100

  type Page = p: seq<Byte> | |p| == PAGE witness seq(PAGE, (_: nat) => 0 as Byte)

  function ZeroPage(): Page {
    seq(PAGE, (_: nat) => 0 as Byte)
  }

  predicate Between(lo: nat, p: nat, hi: nat) {
    lo <= p < hi
  }

  function Range(lo: nat, hi: nat): (ps: set<nat>)
    ensures forall p: nat :: p in ps <==> Between(lo, p, hi)
  {
    set p: nat | lo <= p < hi && Between(lo, p, hi)
  }

  function PageUp(n: nat): (up: nat)
    ensures n <= up < n + PAGE && up % PAGE == 0
  {
    (n + PAGE - 1) / PAGE * PAGE
  }

  function PageDown(n: nat): (down: nat)
    ensures down <= n < down + PAGE && down % PAGE == 0
  {
    n / PAGE * PAGE
  }

  function Least(a: nat, b: nat): nat {
    if a < b then a else b
  }

  /** A mapped region: the pages from first to last, both included. */
  datatype Span = Span(first: nat, last: nat) {
    predicate Has(p: nat) {
      first <= p <= last
    }

    function Pages(): (ps: set<nat>)
      ensures forall p: nat :: p in ps <==> Has(p)
    {
      Range(first, last + 1)
    }

    predicate Overlaps(other: Span) {
      first <= other.last && other.first <= last
    }
  }

  const PC := "pc"

  /** The registers by name, the program counter among them. */
  datatype Context = Context(regs: map<string, int>) {
    function Pc(): int {
      if PC in regs then regs[PC] else 0
    }
  }

  datatype State = State(ctx: Context, mem: map<nat, Page>, spans: set<Span>)

  /** What was mapped still is, with the bytes it had. */
  ghost predicate Undisturbed(m: State, m': State) {
    forall p: nat :: p in m.mem ==> p in m'.mem && m'.mem[p] == m.mem[p]
  }

  // ---- regions ----

  function PagesOf(spans: set<Span>): (ps: set<nat>)
    ensures forall s, p: nat :: s in spans && s.Has(p) ==> p in ps
    ensures forall p: nat :: p in ps ==> exists s :: s in spans && s.Has(p)
  {
    set s, p: nat | s in spans && s.first <= p <= s.last && s.Has(p) :: p
  }

  lemma NothingBeyond(a: set<nat>, b: set<nat>)
    ensures a - b == {} <==> a <= b
  {
    if a <= b {
      assert a - b == {};
    } else {
      var x :| x in a && x !in b;
      assert x in a - b;
    }
  }

  lemma PagesOfPlus(spans: set<Span>, span: Span)
    ensures PagesOf(spans + {span}) == PagesOf(spans) + span.Pages()
  {
    forall p: nat
      ensures p in PagesOf(spans + {span}) <==> p in PagesOf(spans) + span.Pages()
    {
      if p in PagesOf(spans + {span}) {
        var s :| s in spans + {span} && s.Has(p);
      } else if span.Has(p) {
        assert span in spans + {span};
      }
    }
  }

  ghost predicate Disjoint(spans: set<Span>) {
    && (forall s :: s in spans ==> s.first <= s.last)
    && (forall s, t :: s in spans && t in spans && s != t ==> !s.Overlaps(t))
  }

  /** What the engine keeps true of itself: a page has contents exactly when a region holds it. */
  ghost predicate WellFormed(m: State) {
    && Disjoint(m.spans)
    && m.mem.Keys == PagesOf(m.spans)
  }

  lemma WellFormedDisjoint(m: State)
    requires WellFormed(m)
    ensures Disjoint(m.spans)
  {
  }

  /** What is left of the regions once the pages of `hole` are taken out, splitting where needed. */
  function Cut(spans: set<Span>, hole: Span): set<Span> {
    (set s | s in spans && !s.Overlaps(hole))
    + (set s | s in spans && s.Overlaps(hole) && s.first < hole.first :: Span(s.first, hole.first - 1))
    + (set s | s in spans && s.Overlaps(hole) && hole.last < s.last :: Span(hole.last + 1, s.last))
  }

  // ---- the engine's operations ----

  function FreshPages(span: Span): map<nat, Page> {
    map p | p in span.Pages() :: ZeroPage()
  }

  predicate Free(m: State, span: Span) {
    span.first <= span.last && forall s :: s in m.spans ==> !s.Overlaps(span)
  }

  /** Map zeroed pages; refused when any of them is mapped already. */
  function MemMap(m: State, span: Span): Option<State> {
    if Free(m, span) then Some(m.(mem := m.mem + FreshPages(span), spans := m.spans + {span}))
    else None
  }

  /** Unmap pages, splitting regions at the ends; refused unless all of them are mapped. */
  function MemUnmap(m: State, span: Span): Option<State> {
    if span.first <= span.last && span.Pages() <= m.mem.Keys then
      Some(m.(mem := m.mem - span.Pages(), spans := Cut(m.spans, span)))
    else None
  }

  /** The pages that hold some byte of [address, address + max(size, 1)). */
  function Touched(address: nat, size: nat): Span {
    Span(address / PAGE, (address + (if size > 1 then size else 1) - 1) / PAGE)
  }

  function Patch(page: Page, start: nat, address: nat, data: seq<Byte>): Page {
    seq(PAGE, i requires 0 <= i < PAGE =>
      if address <= start + i < address + |data| then data[start + i - address] else page[i])
  }

  function PutBytes(mem: map<nat, Page>, address: nat, data: seq<Byte>): map<nat, Page> {
    map p | p in mem :: Patch(mem[p], p * PAGE, address, data)
  }

  /** Write bytes; refused, and nothing written, unless the whole range is mapped. */
  function MemWrite(m: State, address: nat, data: seq<Byte>): Option<State> {
    if Touched(address, |data|).Pages() <= m.mem.Keys then Some(m.(mem := PutBytes(m.mem, address, data)))
    else None
  }

  function ByteAt(m: State, a: nat): Byte {
    if a / PAGE in m.mem then m.mem[a / PAGE][a % PAGE] else 0
  }

  /** Read bytes; refused unless the whole range is mapped. */
  function MemRead(m: State, address: nat, size: nat): Option<seq<Byte>> {
    var data := seq<Byte>(size, i requires 0 <= i < size => ByteAt(m, address + i));
    if Touched(address, size).Pages() <= m.mem.Keys then Some(data) else None
  }

  function RegWrite(m: State, name: string, value: int): State {
    m.(ctx := Context(m.ctx.regs[name := value]))
  }

  // ---- what they keep ----

  lemma MapKeepsWellFormed(m: State, span: Span)
    requires WellFormed(m) && Free(m, span)
    ensures WellFormed(MemMap(m, span).value)
    ensures span.Pages() !! m.mem.Keys
  {
    var m' := MemMap(m, span).value;
    forall p: nat
      ensures p in m'.mem.Keys <==> p in PagesOf(m'.spans)
    {
      if p in span.Pages() {
        assert span in m'.spans;
      }
    }
  }

  lemma UnmapKeepsWellFormed(m: State, hole: Span)
    requires WellFormed(m) && MemUnmap(m, hole).Some?
    ensures WellFormed(MemUnmap(m, hole).value)
  {
    var cut := Cut(m.spans, hole);
    forall p: nat
      ensures p in PagesOf(cut) <==> p in PagesOf(m.spans) && p !in hole.Pages()
    {
      CutPages(m.spans, hole, p);
    }
    CutDisjoint(m.spans, hole);
  }

  lemma CutPages(spans: set<Span>, hole: Span, p: nat)
    requires Disjoint(spans) && hole.first <= hole.last
    ensures p in PagesOf(Cut(spans, hole)) <==> p in PagesOf(spans) && !hole.Has(p)
  {
    hide PagesOf;
    if p in PagesOf(spans) && !hole.Has(p) {
      CutLeaves(spans, hole, p);
    }
    if p in PagesOf(Cut(spans, hole)) {
      var piece :| piece in Cut(spans, hole) && piece.Has(p);
      var s := Origin(spans, hole, piece);
      assert s.Has(p);
    }
  }

  lemma CutLeaves(spans: set<Span>, hole: Span, p: nat)
    requires Disjoint(spans) && hole.first <= hole.last && p in PagesOf(spans) && !hole.Has(p)
    ensures p in PagesOf(Cut(spans, hole))
  {
    hide PagesOf;
    var s :| s in spans && s.Has(p);
    var piece :=
      if !s.Overlaps(hole) then s
      else if p < hole.first then Span(s.first, hole.first - 1)
      else Span(hole.last + 1, s.last);
    assert piece in Cut(spans, hole) && piece.Has(p);
  }

  lemma CutDisjoint(spans: set<Span>, hole: Span)
    requires Disjoint(spans) && hole.first <= hole.last
    ensures Disjoint(Cut(spans, hole))
  {
    forall a, b | a in Cut(spans, hole) && b in Cut(spans, hole) && a != b
      ensures !a.Overlaps(b)
    {
      var s := Origin(spans, hole, a);
      var t := Origin(spans, hole, b);
    }
  }

  lemma Origin(spans: set<Span>, hole: Span, piece: Span) returns (s: Span)
    requires Disjoint(spans) && hole.first <= hole.last && piece in Cut(spans, hole)
    ensures s in spans && s.first <= piece.first <= piece.last <= s.last
    ensures
      || (piece == s && !s.Overlaps(hole))
      || (s.first < hole.first && piece == Span(s.first, hole.first - 1) && s.Overlaps(hole))
      || (piece == Span(hole.last + 1, s.last) && s.Overlaps(hole))
  {
    if piece in spans && !piece.Overlaps(hole) {
      s := piece;
    } else if l :| l in spans && l.Overlaps(hole) && l.first < hole.first && piece == Span(l.first, hole.first - 1) {
      s := l;
    } else {
      s :| s in spans && s.Overlaps(hole) && hole.last < s.last && piece == Span(hole.last + 1, s.last);
    }
  }

  /** Unmapping exactly one region takes that region away and touches no other. */
  lemma CutWhole(spans: set<Span>, s: Span)
    requires Disjoint(spans) && s in spans
    ensures Cut(spans, s) == spans - {s}
  {
  }

  /** A write changes no page outside the ones it touches, and maps and unmaps nothing. */
  lemma PutBytesFrame(mem: map<nat, Page>, address: nat, data: seq<Byte>, p: nat)
    requires p in mem && !Touched(address, |data|).Has(p)
    ensures PutBytes(mem, address, data)[p] == mem[p]
  {
    var q := Patch(mem[p], p * PAGE, address, data);
    forall i | 0 <= i < PAGE
      ensures q[i] == mem[p][i]
    {
      if address <= p * PAGE + i < address + |data| {
        assert false;
      }
    }
    assert q == mem[p];
  }

  /** Writing a page image at its own address replaces that page and no other. */
  lemma PutPage(mem: map<nat, Page>, p: nat, page: Page)
    requires p in mem
    ensures PutBytes(mem, p * PAGE, page) == mem[p := page]
    ensures Touched(p * PAGE, |page|) == Span(p, p)
  {
    var mem' := PutBytes(mem, p * PAGE, page);
    forall q | q in mem
      ensures mem'[q] == mem[p := page][q]
    {
      if q != p {
        PutBytesFrame(mem, p * PAGE, page, q);
      } else {
        assert Patch(mem[p], p * PAGE, p * PAGE, page) == page;
      }
    }
  }

  /** A write changes the bytes in its range and no others. */
  lemma ByteAfterWrite(m: State, address: nat, data: seq<Byte>, a: nat)
    requires MemWrite(m, address, data).Some?
    ensures address <= a < address + |data| ==> a / PAGE in m.mem
    ensures ByteAt(MemWrite(m, address, data).value, a) ==
      if address <= a < address + |data| then data[a - address] else ByteAt(m, a)
  {
    assert a == a / PAGE * PAGE + a % PAGE;
    if address <= a < address + |data| {
      assert Touched(address, |data|).Has(a / PAGE);
    }
  }
}
