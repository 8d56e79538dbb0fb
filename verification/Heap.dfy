/**
 The stub allocator: a bump pointer, a free list, and a journal of what was done.  Going back to a
 snapshot is undoing the journal down to its mark.
 */
module Heaps {
  import opened Options
  import opened Machine

  const ALIGN: nat := 16

  datatype Block = Block(address: nat, size: nat, capacity: nat)

  datatype Entry =
    | Alloc(address: nat, size: nat, capacity: nat, reused: bool)
    | Free(address: nat, size: nat, capacity: nat)

  /** A mark in the journal, and the two counters the journal does not hold. */
  datatype Snap = Snap(top: nat, mapped: nat, mark: nat)

  /** The tables as maps, which is all that undoing is meant to give back. */
  datatype Tables = Tables(top: nat, blocks: map<nat, Block>, freed: map<nat, Block>)

  // ---- the free list, in the order blocks were put on it ----

  function ByAddress(freed: seq<Block>): map<nat, Block> {
    if freed == [] then map[] else ByAddress(freed[..|freed| - 1])[freed[|freed| - 1].address := freed[|freed| - 1]]
  }

  function Without(freed: seq<Block>, address: nat): seq<Block> {
    if freed == [] then []
    else
      var init := Without(freed[..|freed| - 1], address);
      if freed[|freed| - 1].address == address then init else init + [freed[|freed| - 1]]
  }

  ghost predicate Distinct(freed: seq<Block>) {
    forall i, j :: 0 <= i < j < |freed| ==> freed[i].address != freed[j].address
  }

  lemma ByAddressPlus(freed: seq<Block>, b: Block)
    ensures ByAddress(freed + [b]) == ByAddress(freed)[b.address := b]
  {
    assert (freed + [b])[..|freed + [b]| - 1] == freed;
  }

  ghost predicate Listed(freed: seq<Block>, address: nat) {
    exists i :: 0 <= i < |freed| && freed[i].address == address
  }

  lemma {:induction false} ByAddressHas(freed: seq<Block>, address: nat)
    ensures address in ByAddress(freed) <==> Listed(freed, address)
  {
    if freed == [] {
    } else {
      var init := freed[..|freed| - 1];
      ByAddressHas(init, address);
      if Listed(init, address) {
        var i :| 0 <= i < |init| && init[i].address == address;
        assert freed[i].address == address;
      }
    }
  }

  lemma {:induction false} ByAddressAt(freed: seq<Block>, i: nat)
    requires Distinct(freed) && i < |freed|
    ensures freed[i].address in ByAddress(freed) && ByAddress(freed)[freed[i].address] == freed[i]
  {
    if i == |freed| - 1 {
    } else {
      ByAddressAt(freed[..|freed| - 1], i);
    }
  }

  lemma {:induction false} WithoutHas(freed: seq<Block>, address: nat)
    ensures forall b :: b in Without(freed, address) <==> b in freed && b.address != address
  {
    if freed == [] {
    } else {
      var init, last := freed[..|freed| - 1], freed[|freed| - 1];
      WithoutHas(init, address);
      assert freed == init + [last];
    }
  }

  lemma {:induction false} WithoutByAddress(freed: seq<Block>, address: nat)
    ensures ByAddress(Without(freed, address)) == ByAddress(freed) - {address}
  {
    if freed == [] {
    } else {
      WithoutByAddress(freed[..|freed| - 1], address);
      ByAddressPlus(Without(freed[..|freed| - 1], address), freed[|freed| - 1]);
    }
  }

  lemma DistinctPlus(freed: seq<Block>, b: Block)
    requires Distinct(freed) && b.address !in ByAddress(freed)
    ensures Distinct(freed + [b])
  {
    ByAddressHas(freed, b.address);
    assert forall i :: 0 <= i < |freed| ==> freed[i].address == b.address ==> Listed(freed, b.address);
  }

  lemma {:induction false} WithoutDistinct(freed: seq<Block>, address: nat)
    requires Distinct(freed)
    ensures Distinct(Without(freed, address))
  {
    if freed == [] {
    } else {
      var init, last := freed[..|freed| - 1], freed[|freed| - 1];
      WithoutDistinct(init, address);
      WithoutHas(init, address);
      var rest := Without(init, address);
      assert forall i :: 0 <= i < |rest| ==> rest[i] in rest && rest[i] in init;
      assert forall i :: 0 <= i < |rest| ==> rest[i].address != last.address;
    }
  }

  // ---- undoing ----

  function Undone(t: Tables, e: Entry): Tables {
    match e
    case Alloc(address, size, capacity, reused) =>
      if reused then Tables(t.top, t.blocks - {address}, t.freed[address := Block(address, size, capacity)])
      else Tables(address, t.blocks - {address}, t.freed)
    case Free(address, size, capacity) =>
      Tables(t.top, t.blocks[address := Block(address, size, capacity)], t.freed - {address})
  }

  /** The tables with everything in the journal undone, newest first. */
  function Back(t: Tables, journal: seq<Entry>): Tables
    decreases |journal|
  {
    if journal == [] then t else Back(Undone(t, journal[|journal| - 1]), journal[..|journal| - 1])
  }

  lemma {:induction false} BackSplit(t: Tables, a: seq<Entry>, b: seq<Entry>)
    ensures Back(t, a + b) == Back(Back(t, b), a)
    decreases |b|
  {
    if b == [] {
      assert a + b == a;
    } else {
      assert (a + b)[..|a + b| - 1] == a + b[..|b| - 1];
      BackSplit(Undone(t, b[|b| - 1]), a, b[..|b| - 1]);
    }
  }

  /** One more entry, when undoing it gives the tables from before, leaves everything further back as it was. */
  lemma BackSuffix(t: Tables, t': Tables, journal: seq<Entry>, e: Entry, n: nat)
    requires Undone(t', e) == t && n <= |journal|
    ensures Back(t', (journal + [e])[n..]) == Back(t, journal[n..])
  {
    assert (journal + [e])[n..] == journal[n..] + [e];
    assert (journal[n..] + [e])[..|journal| - n] == journal[n..];
  }

  // ---- the arena ----

  datatype Cell = Cell(address: nat, capacity: nat)

  /** The cells lie end to end from base to top, each on the alignment and a multiple of it. */
  ghost predicate Contiguous(cells: seq<Cell>, base: nat, top: nat) {
    if cells == [] then top == base
    else
      var last := cells[|cells| - 1];
      && last.address + last.capacity == top
      && last.capacity > 0 && last.capacity % ALIGN == 0
      && Contiguous(cells[..|cells| - 1], base, last.address)
  }

  function Total(cells: seq<Cell>): nat {
    if cells == [] then 0 else Total(cells[..|cells| - 1]) + cells[|cells| - 1].capacity
  }

  /** Live and freed blocks are exactly the cells of the arena, each once. */
  ghost predicate Tiles(t: Tables, base: nat, cells: seq<Cell>) {
    && Contiguous(cells, base, t.top)
    && t.blocks.Keys !! t.freed.Keys
    && (forall a :: a in t.blocks ==> Fits(t.blocks[a], a) && Cell(a, t.blocks[a].capacity) in cells)
    && (forall a :: a in t.freed ==> Fits(t.freed[a], a) && Cell(a, t.freed[a].capacity) in cells)
    && (forall c :: c in cells ==> c.address in t.blocks || c.address in t.freed)
  }

  predicate Fits(b: Block, address: nat) {
    b.address == address && b.size <= b.capacity
  }

  ghost predicate Covered(cells: seq<Cell>, p: nat) {
    exists i :: 0 <= i < |cells| && Holds(cells[i], p)
  }

  predicate Holds(c: Cell, p: nat) {
    c.address <= p < c.address + c.capacity
  }

  /** Nothing overlaps, nothing is left over, and the sizes add up. */
  lemma {:induction false} ContiguousMeans(cells: seq<Cell>, base: nat, top: nat)
    requires Contiguous(cells, base, top)
    ensures base <= top && Total(cells) == top - base
    ensures forall i :: 0 <= i < |cells| ==>
      base <= cells[i].address && cells[i].address + cells[i].capacity <= top && cells[i].capacity > 0
    ensures forall i, j :: 0 <= i < j < |cells| ==> cells[i].address + cells[i].capacity <= cells[j].address
    ensures forall p: nat :: base <= p < top ==> Covered(cells, p)
  {
    if cells == [] {
    } else {
      var init, last := cells[..|cells| - 1], cells[|cells| - 1];
      ContiguousMeans(init, base, last.address);
      assert forall i :: 0 <= i < |init| ==> cells[i] == init[i];
      forall p: nat | base <= p < top
        ensures Covered(cells, p)
      {
        if p < last.address {
          assert Covered(init, p);
          var i :| 0 <= i < |init| && Holds(init[i], p);
          assert Holds(cells[i], p);
        } else {
          assert Holds(cells[|cells| - 1], p);
        }
      }
    }
  }

  lemma {:induction false} ContiguousAligned(cells: seq<Cell>, base: nat, top: nat)
    requires Contiguous(cells, base, top) && base % ALIGN == 0
    ensures top % ALIGN == 0
    ensures forall i :: 0 <= i < |cells| ==> cells[i].address % ALIGN == 0
  {
    if cells == [] {
    } else {
      ContiguousAligned(cells[..|cells| - 1], base, cells[|cells| - 1].address);
    }
  }

  lemma BumpTiles(t: Tables, base: nat, cells: seq<Cell>, size: nat, want: nat)
    requires Tiles(t, base, cells) && size <= want && want > 0 && want % ALIGN == 0
    ensures t.top !in t.blocks && t.top !in t.freed
    ensures Tiles(Bumped(t, size, want), base, cells + [Cell(t.top, want)])
  {
    var last := Cell(t.top, want);
    CellsBelow(cells, base, t.top);
    ContiguousPlus(cells, base, t.top, want);
    hide Contiguous;
    assert forall c :: c in cells + [last] <==> c in cells || c == last;
  }

  lemma CellsBelow(cells: seq<Cell>, base: nat, top: nat)
    requires Contiguous(cells, base, top)
    ensures forall c :: c in cells ==> c.address < top
  {
    ContiguousMeans(cells, base, top);
  }

  lemma ContiguousPlus(cells: seq<Cell>, base: nat, top: nat, want: nat)
    requires Contiguous(cells, base, top) && want > 0 && want % ALIGN == 0
    ensures Contiguous(cells + [Cell(top, want)], base, top + want)
  {
    assert (cells + [Cell(top, want)])[..|cells|] == cells;
  }

  function Bumped(t: Tables, size: nat, want: nat): Tables {
    Tables(t.top + want, t.blocks[t.top := Block(t.top, size, want)], t.freed)
  }

  function Reused(t: Tables, address: nat, size: nat): Tables
    requires address in t.freed
  {
    Tables(t.top, t.blocks[address := t.freed[address].(size := size)], t.freed - {address})
  }

  function Released(t: Tables, address: nat): Tables
    requires address in t.blocks
  {
    Tables(t.top, t.blocks - {address}, t.freed[address := t.blocks[address]])
  }

  function Resized(t: Tables, address: nat, size: nat): Tables {
    if address in t.blocks then t.(blocks := t.blocks[address := t.blocks[address].(size := size)]) else t
  }

  ghost predicate Tiled(t: Tables, base: nat) {
    exists cells :: Tiles(t, base, cells)
  }

  lemma MovesTile(t: Tables, base: nat, address: nat, size: nat)
    requires Tiled(t, base)
    ensures address in t.freed && size <= t.freed[address].capacity ==> Tiled(Reused(t, address, size), base)
    ensures address in t.blocks ==> Tiled(Released(t, address), base)
    ensures address in t.blocks && size <= t.blocks[address].capacity ==> Tiled(Resized(t, address, size), base)
  {
    var cells :| Tiles(t, base, cells);
    assert address in t.freed && size <= t.freed[address].capacity ==> Tiles(Reused(t, address, size), base, cells);
    assert address in t.blocks ==> Tiles(Released(t, address), base, cells);
    assert address in t.blocks && size <= t.blocks[address].capacity ==> Tiles(Resized(t, address, size), base, cells);
  }

  /** Two blocks, live or freed, never share a byte, and every block lies between base and top. */
  lemma TiledApart(t: Tables, base: nat, a: nat, b: nat)
    requires Tiled(t, base) && a in t.blocks.Keys + t.freed.Keys && b in t.blocks.Keys + t.freed.Keys
    ensures base <= a < a + Room(t, a) <= t.top
    ensures a < b ==> a + Room(t, a) <= b
  {
    var cells :| Tiles(t, base, cells);
    ContiguousMeans(cells, base, t.top);
    assert Cell(a, Room(t, a)) in cells && Cell(b, Room(t, b)) in cells;
    var i :| 0 <= i < |cells| && cells[i] == Cell(a, Room(t, a));
    var j :| 0 <= j < |cells| && cells[j] == Cell(b, Room(t, b));
    assert a < b ==> i != j;
  }

  /** Some block, live or freed, has the byte at p. */
  ghost predicate InSome(t: Tables, p: nat) {
    exists a :: a in t.blocks.Keys + t.freed.Keys && a <= p < a + Room(t, a)
  }

  /**
     Listed by address, each block comes once, and together they take up exactly [base, top): no byte
     is left out, and their capacities add up.
   */
  lemma TiledMeans(t: Tables, base: nat) returns (cells: seq<Cell>)
    requires Tiled(t, base)
    ensures forall a :: a in t.blocks.Keys + t.freed.Keys ==> Cell(a, Room(t, a)) in cells
    ensures forall i :: 0 <= i < |cells| ==> IsBlock(t, cells[i])
    ensures forall i, j :: 0 <= i < j < |cells| ==> cells[i].address < cells[j].address
    ensures base <= t.top && Total(cells) == t.top - base
    ensures forall p: nat :: base <= p < t.top ==> InSome(t, p)
    ensures forall a :: a in t.blocks ==> t.blocks[a].address == a && t.blocks[a].size <= t.blocks[a].capacity
    ensures base % ALIGN == 0 ==> forall a :: a in t.blocks.Keys + t.freed.Keys ==> a % ALIGN == 0
  {
    cells :| Tiles(t, base, cells);
    ContiguousMeans(cells, base, t.top);
    if base % ALIGN == 0 {
      ContiguousAligned(cells, base, t.top);
    }
    hide Contiguous;
    forall i | 0 <= i < |cells|
      ensures IsBlock(t, cells[i])
    {
      CellIsBlock(t, base, cells, i);
    }
    forall p: nat | base <= p < t.top
      ensures InSome(t, p)
    {
      assert Covered(cells, p);
      var i :| 0 <= i < |cells| && Holds(cells[i], p);
      assert IsBlock(t, cells[i]);
    }
  }

  ghost predicate IsBlock(t: Tables, c: Cell) {
    c.address in t.blocks.Keys + t.freed.Keys && c.capacity == Room(t, c.address)
  }

  lemma CellIsBlock(t: Tables, base: nat, cells: seq<Cell>, i: nat)
    requires Tiles(t, base, cells) && i < |cells|
    ensures IsBlock(t, cells[i])
  {
    var a := cells[i].address;
    assert cells[i] in cells;
    ContiguousMeans(cells, base, t.top);
    assert Cell(a, Room(t, a)) in cells;
    var j :| 0 <= j < |cells| && cells[j] == Cell(a, Room(t, a));
  }

  function Room(t: Tables, a: nat): nat
    requires a in t.blocks.Keys + t.freed.Keys
  {
    if a in t.blocks then t.blocks[a].capacity else t.freed[a].capacity
  }

  // ---- what the journal records ----

  /** The entry is the last thing that was done to come to these tables. */
  ghost predicate LastDone(t: Tables, e: Entry) {
    match e
    case Alloc(address, size, capacity, reused) =>
      && address in t.blocks && t.blocks[address].capacity == capacity
      && (!reused ==> address + capacity == t.top)
    case Free(address, size, capacity) =>
      address in t.freed && t.freed[address] == Block(address, size, capacity)
  }

  /** The blocks tile the arena now and at every point the journal can go back to. */
  ghost predicate Sane(t: Tables, base: nat, journal: seq<Entry>)
    decreases |journal|
  {
    && Tiled(t, base)
    && (journal != [] ==>
         && LastDone(t, journal[|journal| - 1])
         && Sane(Undone(t, journal[|journal| - 1]), base, journal[..|journal| - 1]))
  }

  lemma {:induction false} SaneBack(t: Tables, base: nat, a: seq<Entry>, b: seq<Entry>)
    requires Sane(t, base, a + b)
    ensures Sane(Back(t, b), base, a) && Sane(t, base, b)
    decreases |b|
  {
    if b == [] {
      assert a + b == a;
    } else {
      assert (a + b)[..|a + b| - 1] == a + b[..|b| - 1];
      SaneBack(Undone(t, b[|b| - 1]), base, a, b[..|b| - 1]);
    }
  }

  lemma SaneOneMore(t: Tables, t': Tables, base: nat, journal: seq<Entry>, e: Entry)
    requires Sane(t, base, journal) && Tiled(t', base) && LastDone(t', e) && Undone(t', e) == t
    ensures Sane(t', base, journal + [e])
  {
    assert (journal + [e])[..|journal|] == journal;
  }

  ghost predicate Untouched(journal: seq<Entry>, address: nat) {
    forall e :: e in journal ==> e.address != address
  }

  lemma ResizedBlock(t: Tables, address: nat, size: nat)
    ensures address in t.blocks ==> address in Resized(t, address, size).blocks
  {
  }

  lemma UndoneResized(t: Tables, base: nat, e: Entry, address: nat, size: nat)
    requires Tiled(t, base) && LastDone(t, e) && address in t.blocks
    ensures LastDone(Resized(t, address, size), e)
    ensures e.address == address ==> Undone(Resized(t, address, size), e) == Undone(t, e)
    ensures e.address != address ==>
      && Undone(Resized(t, address, size), e) == Resized(Undone(t, e), address, size)
      && address in Undone(t, e).blocks && Undone(t, e).blocks[address] == t.blocks[address]
  {
  }

  /**
     Changing the size of a live block in place changes the past as well, back to where the block
     was last handed out or taken back.
   */
  lemma {:induction false} BackResized(t: Tables, base: nat, journal: seq<Entry>, address: nat, size: nat)
    requires Sane(t, base, journal) && address in t.blocks && size <= t.blocks[address].capacity
    ensures Sane(Resized(t, address, size), base, journal)
    ensures Back(Resized(t, address, size), journal) ==
      if Untouched(journal, address) then Resized(Back(t, journal), address, size) else Back(t, journal)
    ensures Untouched(journal, address) ==> address in Back(t, journal).blocks
    decreases |journal|
  {
    hide Undone, Tiled, LastDone, Resized;
    MovesTile(t, base, address, size);
    ResizedBlock(t, address, size);
    if journal == [] {
    } else {
      var e, init := journal[|journal| - 1], journal[..|journal| - 1];
      assert journal == init + [e];
      UndoneResized(t, base, e, address, size);
      if e.address != address {
        BackResized(Undone(t, e), base, init, address, size);
        assert Untouched(journal, address) <==> Untouched(init, address);
      }
    }
  }

  /** The block was handed out or taken back since, or had this size then. */
  ghost predicate SameSizeAt(t: Tables, since: seq<Entry>, address: nat, size: nat) {
    Untouched(since, address) ==> address in Back(t, since).blocks && Back(t, since).blocks[address].size == size
  }

  // ---- choosing a block to reuse ----

  /** The first of the smallest freed blocks that are large enough. */
  ghost predicate Picks(freed: seq<Block>, want: nat, i: nat) {
    && i < |freed| && freed[i].capacity >= want
    && (forall j :: 0 <= j < |freed| && freed[j].capacity >= want ==> freed[i].capacity <= freed[j].capacity)
    && (forall j :: 0 <= j < i && freed[j].capacity >= want ==> freed[i].capacity < freed[j].capacity)
  }

  ghost predicate TooSmall(freed: seq<Block>, want: nat) {
    forall j :: 0 <= j < |freed| ==> freed[j].capacity < want
  }

  /** No other freed block has the capacity of this one. */
  ghost predicate Alone(freed: seq<Block>, i: nat)
    requires i < |freed|
  {
    forall j :: 0 <= j < |freed| && j != i ==> freed[j].capacity != freed[i].capacity
  }

  lemma {:induction false} PickExists(freed: seq<Block>, want: nat)
    requires !TooSmall(freed, want)
    ensures exists i: nat :: Picks(freed, want, i)
  {
    var init, last := freed[..|freed| - 1], freed[|freed| - 1];
    assert freed == init + [last];
    if TooSmall(init, want) {
      assert Picks(freed, want, |freed| - 1);
    } else {
      PickExists(init, want);
      var i: nat :| Picks(init, want, i);
      assert Picks(freed, want, if last.capacity >= want && last.capacity < init[i].capacity then |freed| - 1 else i);
    }
  }

  /**
     Handing out a freed block and then undoing it leaves it last on the list.  The same request then
     picks the same block exactly when no other has its capacity.
   */
  lemma RepickIff(freed: seq<Block>, want: nat, i: nat)
    requires Distinct(freed) && Picks(freed, want, i)
    ensures var again := Without(freed, freed[i].address) + [freed[i]];
      && ByAddress(again) == ByAddress(freed)
      && ((forall j: nat :: Picks(again, want, j) ==> again[j] == freed[i]) <==> Alone(freed, i))
  {
    hide Without, ByAddress, Picks, Distinct;
    PicksIn(freed, want);
    RepickBlocks(freed, i);
    RepickMap(freed, i);
    var rest := Without(freed, freed[i].address);
    PicksIn(rest + [freed[i]], want);
    if Alone(freed, i) {
      forall j: nat | Picks(rest + [freed[i]], want, j)
        ensures (rest + [freed[i]])[j] == freed[i]
      {
        RepickAlone(freed, rest, want, i, j);
      }
    } else {
      var k := RepickOther(freed, rest, want, i);
    }
  }

  lemma PicksIn(freed: seq<Block>, want: nat)
    ensures forall i: nat :: Picks(freed, want, i) ==> i < |freed|
  {
  }

  lemma RepickBlocks(freed: seq<Block>, i: nat)
    requires Distinct(freed) && i < |freed|
    ensures forall x :: x in Without(freed, freed[i].address) <==> x in freed && x != freed[i]
  {
    WithoutHas(freed, freed[i].address);
  }

  lemma RepickMap(freed: seq<Block>, i: nat)
    requires Distinct(freed) && i < |freed|
    ensures ByAddress(Without(freed, freed[i].address) + [freed[i]]) == ByAddress(freed)
  {
    WithoutByAddress(freed, freed[i].address);
    ByAddressPlus(Without(freed, freed[i].address), freed[i]);
    ByAddressAt(freed, i);
  }

  lemma RepickAlone(freed: seq<Block>, rest: seq<Block>, want: nat, i: nat, j: nat)
    requires Picks(freed, want, i) && Alone(freed, i) && Picks(rest + [freed[i]], want, j)
    requires forall x :: x in rest <==> x in freed && x != freed[i]
    ensures (rest + [freed[i]])[j] == freed[i]
  {
    var again := rest + [freed[i]];
    assert again[|rest|] == freed[i];
    if j < |rest| {
      assert again[j] in rest;
      OthersApart(freed, i, again[j]);
    }
  }

  lemma RepickOther(freed: seq<Block>, rest: seq<Block>, want: nat, i: nat) returns (k: nat)
    requires Picks(freed, want, i) && !Alone(freed, i) && Distinct(freed)
    requires forall x :: x in rest <==> x in freed && x != freed[i]
    ensures Picks(rest + [freed[i]], want, k) && (rest + [freed[i]])[k] != freed[i]
  {
    var again := rest + [freed[i]];
    var j :| 0 <= j < |freed| && j != i && freed[j].capacity == freed[i].capacity;
    assert freed[j] != freed[i];
    assert freed[j] in rest;
    var n :| 0 <= n < |rest| && rest[n] == freed[j];
    assert again[n] == freed[j] && !TooSmall(again, want);
    PickExists(again, want);
    k :| Picks(again, want, k);
    assert again[|rest|] == freed[i];
    assert k < |rest| ==> again[k] in rest;
  }

  lemma OthersApart(freed: seq<Block>, i: nat, b: Block)
    requires i < |freed| && b in freed && Alone(freed, i)
    ensures b == freed[i] || b.capacity != freed[i].capacity
  {
  }

  function Want(size: nat): (want: nat)
    ensures want >= size && want > 0 && want % ALIGN == 0 && want - size <= ALIGN
  {
    var up := (size + ALIGN - 1) / ALIGN * ALIGN;
    if up > ALIGN then up else ALIGN
  }

  // ---- what handing out a block comes to ----

  /** A block that was not there before, of the size asked for and with room for it. */
  predicate NewBlock(blocks: map<nat, Block>, blocks': map<nat, Block>, a: nat, size: nat) {
    a in blocks' && a !in blocks && blocks'[a].size == size <= blocks'[a].capacity
  }

  ghost predicate NoneFits(freed: map<nat, Block>, want: nat) {
    forall a :: a in freed ==> freed[a].capacity < want
  }

  ghost predicate Smallest(freed: map<nat, Block>, want: nat, a: nat) {
    && a in freed && freed[a].capacity >= want
    && forall b :: b in freed && freed[b].capacity >= want ==> freed[a].capacity <= freed[b].capacity
  }

  /** The tables once the block at a has been handed out, off the free list or at the top. */
  function Given(t: Tables, a: nat, size: nat): Tables {
    if a in t.freed then Reused(t, a, size) else Bumped(t, size, Want(size))
  }

  /** The block at a is handed out: one of the smallest freed ones that are large enough, or a new one at the top. */
  ghost predicate Handed(t: Tables, t': Tables, a: nat, size: nat) {
    && NewBlock(t.blocks, t'.blocks, a, size) && t' == Given(t, a, size)
    && (Smallest(t.freed, Want(size), a) || (a == t.top && a !in t.freed && NoneFits(t.freed, Want(size))))
  }

  /** No freed block will do, and what is left of the arena is not enough. */
  ghost predicate Full(t: Tables, limit: nat, size: nat) {
    NoneFits(t.freed, Want(size)) && t.top + Want(size) > limit
  }

  /** A new block at the top goes beyond what is mapped. */
  ghost predicate Grows(t: Tables, limit: nat, mapped: nat, size: nat) {
    NoneFits(t.freed, Want(size)) && t.top + Want(size) <= limit && PageUp(t.top + Want(size)) > mapped
  }

  /** What has to be mapped for it. */
  function Growth(t: Tables, mapped: nat, size: nat): Span {
    Span(mapped / PAGE, PageUp(t.top + Want(size)) / PAGE - 1)
  }

  lemma FitsByAddress(freed: seq<Block>, want: nat, i: nat)
    requires Distinct(freed)
    ensures TooSmall(freed, want) <==> NoneFits(ByAddress(freed), want)
    ensures Picks(freed, want, i) ==> Smallest(ByAddress(freed), want, freed[i].address)
  {
    hide ByAddress, Distinct;
    var t := ByAddress(freed);
    forall j | 0 <= j < |freed|
      ensures freed[j].address in t && t[freed[j].address] == freed[j]
    {
      ByAddressAt(freed, j);
    }
    forall a | a in t
      ensures exists j :: 0 <= j < |freed| && freed[j] == t[a]
    {
      ByAddressHas(freed, a);
      var j :| 0 <= j < |freed| && freed[j].address == a;
      assert freed[j] == t[a];
    }
  }

  class Heap {
    const base: nat
    const size: nat
    var top: nat
    var mapped: nat
    var blocks: map<nat, Block>
    var freed: seq<Block>
    var journal: seq<Entry>
    var dropped: nat

    ghost function Now(): Tables
      reads `top, `blocks, `freed
    {
      Tables(top, blocks, ByAddress(freed))
    }

    function Mark(): nat
      reads `journal, `dropped
    {
      dropped + |journal|
    }

    /** How many journal entries come before the mark. */
    ghost function Kept(mark: nat): (n: nat)
      reads `journal, `dropped
      ensures n <= |journal|
    {
      if mark <= dropped then 0 else if mark - dropped <= |journal| then mark - dropped else |journal|
    }

    /** The tables as they were at the mark, or at the oldest point still in the journal. */
    ghost function At(mark: nat): Tables
      reads `top, `blocks, `freed, `journal, `dropped
    {
      Back(Now(), journal[Kept(mark)..])
    }

    ghost predicate Valid()
      reads `top, `blocks, `freed, `journal
    {
      Distinct(freed) && Sane(Now(), base, journal)
    }

    constructor (base: nat, size: nat)
      ensures Valid() && Now() == Tables(base, map[], map[]) && mapped == base
      ensures this.base == base && this.size == size && Mark() == 0
    {
      this.base, this.size := base, size;
      top, mapped, blocks, freed, journal, dropped := base, base, map[], [], [], 0;
      new;
      assert Tiles(Now(), base, []);
    }

    method Snapshot() returns (snap: Snap)
      ensures snap == Snap(top, mapped, Mark())
    {
      snap := Snap(top, mapped, dropped + |journal|);
    }

    lemma AtMark()
      ensures At(Mark()) == Now() && journal[Kept(Mark())..] == []
    {
    }

    method Undo(e: Entry)
      requires Distinct(freed) && blocks.Keys !! ByAddress(freed).Keys && (e.Alloc? ==> e.address in blocks)
      modifies this`blocks, this`freed
      ensures Distinct(freed)
      ensures Now() == Undone(old(Now()), e).(top := top)
    {
      match e
      case Alloc(address, size, capacity, reused) =>
        blocks := blocks - {address};
        if reused {
          var b := Block(address, size, capacity);
          ByAddressPlus(freed, b);
          DistinctPlus(freed, b);
          freed := freed + [b];
        }
      case Free(address, size, capacity) =>
        WithoutByAddress(freed, address);
        WithoutDistinct(freed, address);
        freed := Without(freed, address);
        blocks := blocks[address := Block(address, size, capacity)];
    }

    /** Undo everything after the mark; the two counters come from the snapshot. */
    method Restore(snap: Snap)
      requires Valid()
      modifies this`top, this`mapped, this`blocks, this`freed, this`journal
      ensures Now() == old(At(snap.mark)).(top := snap.top) && mapped == snap.mapped
      ensures journal == old(journal)[..old(Kept(snap.mark))]
      ensures snap.top == old(At(snap.mark)).top ==> Valid()
      ensures forall m: nat :: m <= snap.mark && snap.top == old(At(snap.mark)).top ==> At(m) == old(At(m))
    {
      hide Sane, Back, Undone, ByAddress, Distinct;
      ghost var t, kept, all := Now(), Kept(snap.mark), journal;
      assert all[|all|..] == [] && all[..|all|] == all;
      BackNone(Now());
      while dropped + |journal| > snap.mark && journal != []
        invariant kept <= |journal| <= |all| && journal == all[..|journal|]
        invariant Now() == t.(top := top)
        invariant t == Back(old(Now()), all[|journal|..])
        invariant Distinct(freed) && Sane(t, base, journal)
        decreases |journal|
      {
        var e := journal[|journal| - 1];
        SaneMeans(t, base, journal);
        UndoneTop(t, e, top);
        Undo(e);
        assert all[|journal| - 1..] == [all[|journal| - 1]] + all[|journal|..];
        BackOneMore(old(Now()), e, all[|journal|..]);
        t := Undone(t, e);
        journal := journal[..|journal| - 1];
      }
      top, mapped := snap.top, snap.mapped;
      forall m: nat | m <= snap.mark && snap.top == old(At(snap.mark)).top
        ensures At(m) == old(At(m))
      {
        assert all[old(Kept(m))..] == journal[Kept(m)..] + all[kept..];
        BackSplit(old(Now()), journal[Kept(m)..], all[kept..]);
      }
    }

    /**
     Throw away the journal before this snapshot, or all of it without one.  What the later marks mean
     does not change.
     */
    method Forget(oldest: Option<Snap>)
      requires Valid()
      modifies this`journal, this`dropped
      ensures Valid() && Now() == old(Now())
      ensures forall m: nat :: (if oldest.Some? then oldest.value.mark else old(Mark())) <= m ==> At(m) == old(At(m))
      ensures oldest.Some? && oldest.value.mark <= old(Mark()) ==> Mark() == old(Mark())
      ensures oldest.None? ==> journal == [] && Mark() == old(Mark())
    {
      hide Sane, Back, Undone, Tiles, Distinct;
      var mark := if oldest.Some? then oldest.value.mark else dropped + |journal|;
      if mark > dropped {
        var keep := mark - dropped;
        ghost var was := journal;
        var cut := if keep <= |journal| then keep else |journal|;
        assert was == was[..cut] + was[cut..];
        SaneBack(Now(), base, was[..cut], was[cut..]);
        journal := journal[cut..];
        dropped := dropped + keep;
        forall m: nat | mark <= m
          ensures At(m) == old(At(m))
        {
          assert old(Kept(m)) == cut + Kept(m);
          assert journal[Kept(m)..] == was[cut..][Kept(m)..] == was[cut + Kept(m)..];
        }
      }
    }

    method Fit(want: nat) returns (found: Option<nat>)
      ensures found.None? <==> TooSmall(freed, want)
      ensures found.Some? ==> Picks(freed, want, found.value)
    {
      found := None;
      for i := 0 to |freed|
        invariant found.None? ==> TooSmall(freed[..i], want)
        invariant found.Some? ==> Picks(freed[..i], want, found.value)
      {
        assert freed[..i + 1] == freed[..i] + [freed[i]];
        if freed[i].capacity >= want && (found == None || freed[i].capacity < freed[found.value].capacity) {
          found := Some(i);
        }
      }
      assert freed[..|freed|] == freed;
    }

    /**
     Hand out a block, a freed one if one is large enough.  The answer is the block and the end of what
     it takes to be mapped, or None when the arena is full.
     */
    method Allocate(request: nat) returns (r: Option<(Block, nat)>)
      requires Valid()
      modifies this`top, this`blocks, this`freed, this`journal
      ensures Valid()
      ensures forall m: nat :: m <= old(Mark()) ==> At(m) == old(At(m))
      ensures r.None? <==> Full(old(Now()), base + size, request)
      ensures r.None? ==> Now() == old(Now()) && freed == old(freed) && journal == old(journal)
      ensures r.Some? ==> Mark() == old(Mark()) + 1 && Handed(old(Now()), Now(), r.value.0.address, request)
      ensures r.Some? ==> r.value.0 == blocks[r.value.0.address]
      ensures r.Some? ==> r.value.1 == if NoneFits(old(Now()).freed, Want(request)) then PageUp(top) else mapped
      ensures r.Some? && !NoneFits(old(Now()).freed, Want(request)) ==>
        exists i: nat :: Picks(old(freed), Want(request), i) && old(freed)[i].address == r.value.0.address
    {
      hide Sane, Back, Undone, Tiles, ByAddress, Without, Distinct, NoneFits, Smallest, TooSmall;
      ghost var was, all := Now(), journal;
      var want := Want(request);
      var found := Fit(want);
      FitsByAddress(freed, want, if found.Some? then found.value else 0);
      var e: Entry;
      if found.Some? {
        var b := freed[found.value];
        ByAddressAt(freed, found.value);
        WithoutByAddress(freed, b.address);
        WithoutDistinct(freed, b.address);
        freed := Without(freed, b.address);
        blocks := blocks[b.address := b.(size := request)];
        e := Alloc(b.address, b.size, b.capacity, true);
        SaneTiled(was, base, journal);
        MovesTile(was, base, b.address, request);
        UndoneReused(was, base, b.address, request);
        r := Some((blocks[b.address], mapped));
      } else {
        if top + want > base + size {
          return None;
        }
        var b := Block(top, request, want);
        SaneTiled(was, base, journal);
        TiledBumped(was, base, request, want);
        top := top + want;
        blocks := blocks[b.address := b];
        e := Alloc(b.address, request, want, false);
        r := Some((b, PageUp(top)));
      }
      journal := journal + [e];
      SaneOneMore(was, Now(), base, all, e);
      forall m: nat | m <= old(Mark())
        ensures At(m) == old(At(m))
      {
        BackSuffix(was, Now(), all, e, Kept(m));
      }
    }

    /** Put a block on the free list; None for an address that is not an allocated block. */
    method Release(address: nat) returns (r: Option<Block>)
      requires Valid()
      modifies this`blocks, this`freed, this`journal
      ensures Valid()
      ensures forall m: nat :: m <= old(Mark()) ==> At(m) == old(At(m))
      ensures r.None? <==> address !in old(blocks)
      ensures r.None? ==> Now() == old(Now()) && freed == old(freed) && journal == old(journal)
      ensures r.Some? ==> r.value == old(blocks)[address] && Mark() == old(Mark()) + 1
      ensures r.Some? ==> Now() == Released(old(Now()), address) && freed == old(freed) + [r.value]
    {
      hide Sane, Back, Undone, Tiles, ByAddress, Distinct;
      if address !in blocks {
        return None;
      }
      ghost var was, all := Now(), journal;
      var b := blocks[address];
      SaneTiled(was, base, journal);
      MovesTile(was, base, address, 0);
      UndoneReleased(was, base, address);
      ByAddressPlus(freed, b);
      DistinctPlus(freed, b);
      blocks := blocks - {address};
      freed := freed + [b];
      var e := Free(address, b.size, b.capacity);
      journal := journal + [e];
      SaneOneMore(was, Now(), base, all, e);
      forall m: nat | m <= old(Mark())
        ensures At(m) == old(At(m))
      {
        BackSuffix(was, Now(), all, e, Kept(m));
      }
      r := Some(b);
    }

    /**
     What `realloc` does to a block that is large enough already.  Nothing goes into the journal, so
     the past is kept exactly at the marks where the size was the same anyway, or the block was
     handed out later.
     */
    method Resize(address: nat, request: nat)
      requires Valid() && address in blocks && request <= blocks[address].capacity
      modifies this`blocks
      ensures Valid() && Now() == Resized(old(Now()), address, request)
      ensures forall m: nat :: At(m) == old(At(m)) || At(m) == Resized(old(At(m)), address, request)
      ensures forall m: nat :: At(m) == old(At(m)) <==> SameSizeAt(old(Now()), journal[Kept(m)..], address, request)
    {
      hide Sane, Back, Undone, Tiles;
      ghost var was := Now();
      BackResized(was, base, journal, address, request);
      blocks := blocks[address := blocks[address].(size := request)];
      forall m: nat
        ensures At(m) == old(At(m)) || At(m) == Resized(old(At(m)), address, request)
        ensures At(m) == old(At(m)) <==> SameSizeAt(was, journal[Kept(m)..], address, request)
      {
        assert journal == journal[..Kept(m)] + journal[Kept(m)..];
        SaneBack(was, base, journal[..Kept(m)], journal[Kept(m)..]);
        BackResized(was, base, journal[Kept(m)..], address, request);
      }
    }
  }

  lemma SaneTiled(t: Tables, base: nat, journal: seq<Entry>)
    requires Sane(t, base, journal)
    ensures Tiled(t, base) && t.blocks.Keys !! t.freed.Keys
  {
  }

  lemma TiledBumped(t: Tables, base: nat, size: nat, want: nat)
    requires Tiled(t, base) && size <= want && want > 0 && want % ALIGN == 0
    ensures Tiled(Bumped(t, size, want), base) && t.top !in t.blocks && t.top !in t.freed
    ensures LastDone(Bumped(t, size, want), Alloc(t.top, size, want, false))
    ensures Undone(Bumped(t, size, want), Alloc(t.top, size, want, false)) == t
  {
    var cells :| Tiles(t, base, cells);
    BumpTiles(t, base, cells, size, want);
  }

  lemma UndoneReused(t: Tables, base: nat, a: nat, size: nat)
    requires Tiled(t, base) && a in t.freed
    ensures t.freed[a].address == a
    ensures LastDone(Reused(t, a, size), Alloc(a, t.freed[a].size, t.freed[a].capacity, true))
    ensures Undone(Reused(t, a, size), Alloc(a, t.freed[a].size, t.freed[a].capacity, true)) == t
  {
  }

  lemma UndoneReleased(t: Tables, base: nat, a: nat)
    requires Tiled(t, base) && a in t.blocks
    ensures t.blocks[a].address == a
    ensures LastDone(Released(t, a), Free(a, t.blocks[a].size, t.blocks[a].capacity))
    ensures Undone(Released(t, a), Free(a, t.blocks[a].size, t.blocks[a].capacity)) == t
  {
  }

  lemma UndoneTop(t: Tables, e: Entry, top: nat)
    ensures Undone(t.(top := top), e).(top := top) == Undone(t, e).(top := top)
    ensures LastDone(t, e) && e.Alloc? ==> e.address in t.blocks
  {
  }

  lemma BackNone(t: Tables)
    ensures Back(t, []) == t
  {
  }

  lemma BackOneMore(t: Tables, e: Entry, rest: seq<Entry>)
    ensures Back(t, [e] + rest) == Undone(Back(t, rest), e)
  {
    BackSplit(t, [e], rest);
    BackNone(Undone(Back(t, rest), e));
    assert [e][..0] == [];
  }

  lemma SaneMeans(t: Tables, base: nat, journal: seq<Entry>)
    requires Sane(t, base, journal) && journal != []
    ensures t.blocks.Keys !! t.freed.Keys && LastDone(t, journal[|journal| - 1])
    ensures Sane(Undone(t, journal[|journal| - 1]), base, journal[..|journal| - 1])
  {
  }

  /** Two freed blocks of one size: the request that took one takes the other once it has been undone. */
  lemma TieGivesTheOther()
    ensures var a, b := Block(0, 16, 16), Block(16, 16, 16);
      var again := Without([a, b], 0) + [a];
      Picks([a, b], 16, 0) && ByAddress(again) == ByAddress([a, b]) && Picks(again, 16, 0) && again[0] == b
  {
    var a, b := Block(0, 16, 16), Block(16, 16, 16);
    assert [a, b][..1] == [a] && [a][..0] == [];
    assert Without([a], 0) == [];
    assert Without([a, b], 0) == [] + [b];
    RepickIff([a, b], 16, 0);
  }

  /** With no two freed blocks of one size, what is handed out depends on the tables alone. */
  lemma HandedOnce(t: Tables, t1: Tables, t2: Tables, a: nat, b: nat, size: nat)
    requires Handed(t, t1, a, size) && Handed(t, t2, b, size)
    requires forall x, y :: x in t.freed && y in t.freed && x != y ==> t.freed[x].capacity != t.freed[y].capacity
    ensures a == b && t1 == t2
  {
    assert Smallest(t.freed, Want(size), a) ==> !NoneFits(t.freed, Want(size));
    assert Smallest(t.freed, Want(size), b) ==> !NoneFits(t.freed, Want(size));
  }

  /** A block of ten bytes cut to five in place still has five after going back to when it had ten. */
  method ResizeShowsThrough() returns (was: nat, now: nat)
    ensures was == 10 && now == 5
  {
    hide Sane, Back, Tiles;
    var heap := new Heap(0, PAGE);
    ghost var empty := heap.Now();
    var got := heap.Allocate(10);
    assert empty.freed == map[] && Want(10) == 16;
    assert NoneFits(empty.freed, 16);
    heap.AtMark();
    var snap := heap.Snapshot();
    was := heap.blocks[got.value.0.address].size;
    heap.Resize(got.value.0.address, 5);
    heap.AtMark();
    heap.Restore(snap);
    now := heap.blocks[got.value.0.address].size;
  }
}
