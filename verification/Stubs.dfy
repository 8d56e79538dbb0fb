/**
 The library-function layer: the allocator behind `malloc` and its relatives, with every call written
 down in the effect log so that a rewind takes the allocator back along with the machine.
 */
module Stubs {
  import opened Options
  import opened Machine
  import opened Engine
  import opened Acts
  import opened Timelines
  import opened EffectLogs
  import opened Heaps

  datatype LibCall =
    | Malloc(size: nat)
    | Calloc(count: nat, size: nat)
    | Realloc(address: nat, size: nat)
    | Free(address: nat)

  /** The registers a result and a return address travel in, and how many values one holds. */
  datatype Convention = Convention(result: string, link: string, modulus: nat)

  /** What the layer holds besides its log. */
  datatype Held = Held(tables: Tables, mapped: nat)

  /** The call only changes the size of a block, which the journal does not hear of. */
  predicate InPlace(t: Tables, call: LibCall) {
    && call.Realloc? && call.address != 0 && call.size != 0
    && call.address in t.blocks && call.size <= t.blocks[call.address].capacity
  }

  /** The tables at a mark this many entries into the journal survive the call. */
  ghost predicate Spares(t: Tables, since: seq<Entry>, call: LibCall) {
    InPlace(t, call) ==> SameSizeAt(t, since, call.address, call.size)
  }

  ghost predicate NoUnmaps(acts: seq<Act>) {
    forall a :: a in acts ==> !a.Unmap?
  }

  /** An allocation of nothing is one of a byte, so that it has an address of its own. */
  function AtLeastOne(size: nat): nat {
    if size == 0 then 1 else size
  }

  /** The size of the block the call has to find, if it has to find one. */
  function Asks(t: Tables, call: LibCall): Option<nat> {
    match call
    case Malloc(size) => Some(AtLeastOne(size))
    case Calloc(count, size) => Some(AtLeastOne(count * size))
    case Realloc(address, size) =>
      if address == 0 then Some(AtLeastOne(size)) else if size == 0 || InPlace(t, call) then None else Some(size)
    case Free(_) => None
  }

  /** Nothing was handed out, or one block that the program never hears of. */
  ghost predicate Lost(t: Tables, t': Tables, size: nat) {
    t' == t || exists a :: Handed(t, t', a, size)
  }

  /** The live block at `address` gives way to one at a. */
  ghost predicate MovedTo(t: Tables, t': Tables, address: nat, a: nat, size: nat) {
    var given := Given(t, a, size);
    Handed(t, given, a, size) && address in given.blocks && t' == Released(given, address)
  }

  /** A block is handed out and its address answered, or zero is. */
  ghost predicate Finds(t: Tables, t': Tables, size: nat, answer: nat) {
    Handed(t, t', answer, size) || (answer == 0 && Lost(t, t', size))
  }

  /** What each call answers, and the tables after it: no block changes but the ones named. */
  ghost predicate Answers(t: Tables, t': Tables, call: LibCall, result: Option<nat>) {
    match call
    case Malloc(size) => result.Some? && Finds(t, t', AtLeastOne(size), result.value)
    case Calloc(count, size) => result.Some? && Finds(t, t', AtLeastOne(count * size), result.value)
    case Realloc(address, size) =>
      && result.Some?
      && (if address == 0 then Finds(t, t', AtLeastOne(size), result.value)
          else if size == 0 then result.value == 0 && t' == if address in t.blocks then Released(t, address) else t
          else if InPlace(t, call) then result.value == address && t' == Resized(t, address, size)
          else if address !in t.blocks then Finds(t, t', size, result.value)
          else MovedTo(t, t', address, result.value, size) || (result.value == 0 && Lost(t, t', size)))
    case Free(address) =>
      if address == 0 then result == None && t' == t
      else if address in t.blocks then result == None && t' == Released(t, address)
      else result == Some(0) && t' == t
  }

  /** Every page from base up to the mapped end is among these. */
  ghost predicate ArenaIn(pages: set<nat>, base: nat, mapped: nat) {
    forall p: nat :: base / PAGE <= p < mapped / PAGE ==> p in pages
  }

  class Layer {
    const heap: Heap
    const log: EffectLog<Snap>
    const abi: Convention
    /** What the layer held just before each entry. */
    ghost var past: seq<Held>

    ghost function Holding(): Held
      reads heap
    {
      Held(heap.Now(), heap.mapped)
    }

    /** Going back to this entry's snapshot would give back what was held then. */
    ghost predicate Remembers(i: nat)
      requires i < |log.entries| == |past|
      reads this, log, heap
    {
      heap.At(log.entries[i].before.mark) == past[i].tables
    }

    ghost predicate Ready()
      reads this, heap, log, log.uc
    {
      && heap.Valid() && log.Valid() && log.uc.Valid()
      && heap.base % PAGE == 0 && heap.mapped % PAGE == 0 && heap.base <= heap.mapped
      && abi.modulus > 0
    }

    ghost predicate Valid()
      reads this, heap, log, log.uc
    {
      && Ready() && log.current == None && |past| == |log.entries|
      && (forall i :: 0 <= i < |past| ==> Snapped(heap, log.entries[i].before, past[i]))
      && (forall i, j :: 0 <= i <= j < |past| ==> log.entries[i].before.mark <= log.entries[j].before.mark)
    }

    constructor (timeline: Timeline, base: nat, size: nat, abi: Convention)
      requires timeline.uc.Valid() && base % PAGE == 0 && abi.modulus > 0
      ensures Valid() && Holding() == Held(Tables(base, map[], map[]), base) && log.entries == []
      ensures AlwaysInside() && ArenaMapped()
      ensures log.timeline == timeline && fresh(heap) && fresh(log)
    {
      heap := new Heap(base, size);
      log := new EffectLog<Snap>(timeline);
      this.abi := abi;
      past := [];
    }

    ghost predicate Recorded(m: State, acts: seq<Act>)
      reads log, log.uc
    {
      log.Recorded(m, acts) && NoUnmaps(acts)
    }

    // ---- where the blocks lie ----

    /** No block, live or freed, reaches beyond the mapped end of the arena. */
    ghost predicate Inside()
      reads heap
    {
      heap.top <= heap.mapped
    }

    /** It is so now, and was at every call the log goes back to. */
    ghost predicate AlwaysInside()
      reads this, heap
    {
      Inside() && forall i :: 0 <= i < |past| ==> past[i].tables.top <= past[i].mapped
    }

    /** The arena is mapped as far as the layer believes. */
    ghost predicate ArenaMapped()
      reads heap, log.uc
    {
      ArenaIn(log.uc.st.mem.Keys, heap.base, heap.mapped)
    }

    /** A new block of this size goes beyond what is mapped, and the engine will not map that. */
    ghost predicate Refused(size: nat)
      reads heap, log.uc
    {
      Grows(heap.Now(), heap.base + heap.size, heap.mapped, size) &&
        MemMap(log.uc.st, Growth(heap.Now(), heap.mapped, size)).None?
    }

    /** No block of this size can be had. */
    ghost predicate Fails(size: nat)
      reads heap, log.uc
    {
      Full(heap.Now(), heap.base + heap.size, size) || Refused(size)
    }

    /** The arena grows for the block that is asked for; or it does not have to, and reaches far enough already. */
    ghost predicate Supplied(size: Option<nat>)
      reads heap, log.uc
    {
      if size.Some? && Grows(heap.Now(), heap.base + heap.size, heap.mapped, size.value) then !Refused(size.value)
        else Inside()
    }

    /** How far the arena is mapped once the block that is asked for has been seen to. */
    ghost function Reach(size: Option<nat>): nat
      reads heap, log.uc
    {
      if size.Some? && Grows(heap.Now(), heap.base + heap.size, heap.mapped, size.value) && !Refused(size.value)
      then PageUp(heap.top + Want(size.value)) else heap.mapped
    }

    lemma StandsReady()
      requires Ready()
      ensures heap.base % PAGE == 0 && log.uc.Valid()
    {
    }

    lemma TakenIsRefused(size: nat, p: nat)
      requires log.uc.Valid() && Grows(heap.Now(), heap.base + heap.size, heap.mapped, size)
      requires p in log.uc.st.mem && Growth(heap.Now(), heap.mapped, size).Has(p)
      ensures Refused(size)
    {
      assert exists s :: s in log.uc.st.spans && s.Has(p);
    }

    /** With all blocks inside the arena and the arena mapped, every byte of every live block is mapped. */
    lemma LiveIsMapped(a: nat, p: nat)
      requires Ready() && Inside() && ArenaMapped() && a in heap.blocks && a <= p < a + heap.blocks[a].capacity
      ensures heap.base <= p < heap.mapped && p / PAGE in log.uc.st.mem
    {
      SaneTiled(heap.Now(), heap.base, heap.journal);
      TiledApart(heap.Now(), heap.base, a, a);
    }

    /** Hand out a block, and map as far as it needs. */
    method Malloc(request: nat, ghost m: State, ghost acts: seq<Act>) returns (r: Option<nat>, ghost acts': seq<Act>)
      requires Ready() && Recorded(m, acts)
      modifies heap`top, heap`mapped, heap`blocks, heap`freed, heap`journal, log`current, log.uc, log.timeline`dirty
      ensures Ready() && Recorded(m, acts') && SameCall(old(log.current), log.current)
      ensures log.uc.st.ctx == old(log.uc.st).ctx
      ensures forall k: nat :: k <= old(heap.Mark()) ==> heap.At(k) == old(heap.At(k))
      ensures heap.Mark() >= old(heap.Mark())
      ensures r.None? <==> old(Fails(AtLeastOne(request)))
      ensures r.Some? ==> Handed(old(heap.Now()), heap.Now(), r.value, AtLeastOne(request))
      ensures r.None? ==> Lost(old(heap.Now()), heap.Now(), AtLeastOne(request))
      ensures Inside() <==> old(Supplied(Some(AtLeastOne(request))))
      ensures heap.mapped == old(Reach(Some(AtLeastOne(request))))
      ensures log.uc.st.mem.Keys == old(log.uc.st.mem.Keys) + Range(old(heap.mapped) / PAGE, heap.mapped / PAGE)
      ensures old(ArenaMapped()) ==> ArenaMapped()
      ensures Undisturbed(old(log.uc.st), log.uc.st)
    {
      hide Sane, Heap.At, DoAll, Succeed, Effect.Carries, Sorted, Indexes, Picks, WellFormed, ByAddress, Distinct,
        TooSmall, ArenaIn, Undisturbed, MemMap, Handed, NoneFits;
      SameAnyway(log.uc.st);
      acts' := acts;
      ghost var t := heap.Now();
      var got := heap.Allocate(AtLeastOne(request));
      if got.None? {
        return None, acts;
      }
      var (block, need) := got.value;
      HandedMeans(t, heap.Now(), heap.base + heap.size, block.address, AtLeastOne(request));
      if need > heap.mapped {
        var span := Span(heap.mapped / PAGE, need / PAGE - 1);
        var ok;
        MapFrame(log.uc.st, span);
        ArenaGrows(log.uc.st, heap.base, heap.mapped, need);
        ok, acts' := log.Record(Map(span), m, acts);
        if !ok {
          return None, acts';
        }
        heap.mapped := need;
      }
      r := Some(block.address);
    }

    /** Write bytes for the program. */
    method WriteBytes(address: nat, data: seq<Byte>, ghost m: State, ghost acts: seq<Act>)
      returns (ok: bool, ghost acts': seq<Act>)
      requires log.Valid() && log.uc.Valid() && Recorded(m, acts) && data != []
      modifies log`current, log.uc, log.timeline`dirty
      ensures log.Valid() && log.uc.Valid() && Recorded(m, acts') && SameCall(old(log.current), log.current)
      ensures log.uc.st.ctx == old(log.uc.st).ctx && log.uc.st.spans == old(log.uc.st).spans
      ensures log.uc.st.mem.Keys == old(log.uc.st).mem.Keys
      ensures ok ==> Wrote(old(log.uc.st), log.uc.st, address, data)
    {
      hide DoAll, Succeed, Effect.Carries, Sorted, Indexes, ByteAt, WellFormed, Patch, Touched;
      if MemWrite(log.uc.st, address, data).Some? {
        forall a: nat
          ensures WroteAt(log.uc.st, Do(log.uc.st, Write(address, data)), address, data, a)
        {
          ByteAfterWrite(log.uc.st, address, data, a);
        }
      }
      ok, acts' := log.Record(Write(address, data), m, acts);
    }

    /** A block of zeroes. */
    method Calloc(count: nat, size: nat, ghost m: State, ghost acts: seq<Act>)
      returns (r: Option<nat>, ghost acts': seq<Act>)
      requires Ready() && Recorded(m, acts)
      modifies heap`top, heap`mapped, heap`blocks, heap`freed, heap`journal, log`current, log.uc, log.timeline`dirty
      ensures Ready() && Recorded(m, acts') && SameCall(old(log.current), log.current)
      ensures log.uc.st.ctx == old(log.uc.st).ctx
      ensures heap.Mark() >= old(heap.Mark())
      ensures forall k: nat :: k <= old(heap.Mark()) ==> heap.At(k) == old(heap.At(k))
      ensures r.Some? ==> Handed(old(heap.Now()), heap.Now(), r.value, AtLeastOne(count * size))
      ensures r.None? ==> Lost(old(heap.Now()), heap.Now(), AtLeastOne(count * size))
      ensures Inside() <==> old(Supplied(Some(AtLeastOne(count * size))))
      ensures heap.mapped == old(Reach(Some(AtLeastOne(count * size))))
      ensures log.uc.st.mem.Keys == old(log.uc.st.mem.Keys) + Range(old(heap.mapped) / PAGE, heap.mapped / PAGE)
      ensures old(ArenaMapped()) ==> ArenaMapped()
      ensures r.Some? ==> forall a: nat :: r.value <= a < r.value + count * size ==>
        a / PAGE in log.uc.st.mem && ByteAt(log.uc.st, a) == 0
    {
      hide Sane, Heap.At, DoAll, Succeed, Effect.Carries, Sorted, Indexes, Picks, WellFormed, ByteAt, Touched, Handed,
        ArenaIn, NoneFits, Supplied, Reach;
      var bytes := count * size;
      r, acts' := Malloc(bytes, m, acts);
      if r.Some? {
        var zeroes: seq<Byte> := seq(AtLeastOne(bytes), _ => 0);
        var ok;
        ghost var before := log.uc.st;
        ok, acts' := WriteBytes(r.value, zeroes, m, acts');
        if !ok {
          return None, acts';
        }
        forall a: nat | r.value <= a < r.value + bytes
          ensures a / PAGE in log.uc.st.mem && ByteAt(log.uc.st, a) == 0
        {
          assert WroteAt(before, log.uc.st, r.value, zeroes, a);
        }
      }
    }

    /** Read bytes of the program's; refused when some are not mapped or there are too many. */
    method ReadBytes(address: nat, size: nat) returns (r: Option<seq<Byte>>)
      ensures r == if size <= MAX_TRANSFER then MemRead(log.uc.st, address, size) else None
    {
      r := if size <= MAX_TRANSFER then MemRead(log.uc.st, address, size) else None;
    }

    /** Get a new block, move the bytes of the old one to it if there is one, and free that. */
    method Move(address: nat, request: nat, ghost m: State, ghost acts: seq<Act>)
      returns (r: Option<nat>, ghost acts': seq<Act>)
      requires Ready() && Recorded(m, acts)
      modifies heap`top, heap`mapped, heap`blocks, heap`freed, heap`journal, log`current, log.uc, log.timeline`dirty
      ensures Ready() && Recorded(m, acts') && SameCall(old(log.current), log.current)
      ensures log.uc.st.ctx == old(log.uc.st).ctx
      ensures heap.Mark() >= old(heap.Mark())
      ensures forall k: nat :: k <= old(heap.Mark()) ==> heap.At(k) == old(heap.At(k))
      ensures r.None? ==> Lost(old(heap.Now()), heap.Now(), AtLeastOne(request))
      ensures r.Some? && address !in old(heap.blocks) ==>
        Handed(old(heap.Now()), heap.Now(), r.value, AtLeastOne(request))
      ensures Inside() <==> old(Supplied(Some(AtLeastOne(request))))
      ensures heap.mapped == old(Reach(Some(AtLeastOne(request))))
      ensures log.uc.st.mem.Keys == old(log.uc.st.mem.Keys) + Range(old(heap.mapped) / PAGE, heap.mapped / PAGE)
      ensures old(ArenaMapped()) ==> ArenaMapped()
      ensures r.Some? && address in old(heap.blocks) ==>
        && MovedTo(old(heap.Now()), heap.Now(), address, r.value, AtLeastOne(request))
        && var n := Least(old(heap.blocks)[address].size, request);
           MemRead(old(log.uc.st), address, n).Some? ==> Copied(old(log.uc.st), address, log.uc.st, r.value, n)
    {
      hide Sane, Heap.At, DoAll, Succeed, Effect.Carries, Sorted, Indexes, Picks, WellFormed, ByteAt, Touched;
      hide ArenaIn, Distinct, TooSmall, ByAddress, Wrote, NoneFits, Supplied, Fails, Reach;
      var live := address in heap.blocks;
      r, acts' := Malloc(request, m, acts);
      if r.None? || !live {
        return;
      }
      var n := Least(heap.blocks[address].size, request);
      ReadsSame(old(log.uc.st), log.uc.st, address, n);
      var data := ReadBytes(address, n);
      if data.None? {
        return None, acts';
      }
      ghost var moved := log.uc.st;
      if data.value != [] {
        var ok;
        ok, acts' := WriteBytes(r.value, data.value, m, acts');
        if !ok {
          return None, acts';
        }
        CopiedBy(old(log.uc.st), address, n, moved, log.uc.st, r.value, data.value);
      }
      var _ := heap.Release(address);
    }

    /** Change the size of a block: in place when it has the room, otherwise by moving it. */
    method Realloc(address: nat, request: nat, ghost m: State, ghost acts: seq<Act>)
      returns (r: Option<nat>, ghost acts': seq<Act>)
      requires Ready() && Recorded(m, acts)
      modifies heap`top, heap`mapped, heap`blocks, heap`freed, heap`journal, log`current, log.uc, log.timeline`dirty
      ensures Ready() && Recorded(m, acts') && SameCall(old(log.current), log.current)
      ensures log.uc.st.ctx == old(log.uc.st).ctx
      ensures heap.Mark() >= old(heap.Mark())
      ensures forall k: nat :: k <= old(heap.Mark()) ==> heap.At(k).top == old(heap.At(k)).top
      ensures forall k: nat :: k <= old(heap.Mark()) ==>
        (heap.At(k) == old(heap.At(k)) <==>
          Spares(old(heap.Now()), old(heap.journal)[old(heap.Kept(k))..], LibCall.Realloc(address, request)))
      ensures InPlace(old(heap.Now()), LibCall.Realloc(address, request)) ==>
        r == Some(address) && heap.Now() == Resized(old(heap.Now()), address, request) && log.uc.st == old(log.uc.st)
      ensures Answers(old(heap.Now()), heap.Now(), LibCall.Realloc(address, request),
        Some(if r.Some? then r.value else 0))
      ensures Inside() <==> old(Supplied(Asks(heap.Now(), LibCall.Realloc(address, request))))
      ensures heap.mapped == old(Reach(Asks(heap.Now(), LibCall.Realloc(address, request))))
      ensures log.uc.st.mem.Keys == old(log.uc.st.mem.Keys) + Range(old(heap.mapped) / PAGE, heap.mapped / PAGE)
      ensures old(ArenaMapped()) ==> ArenaMapped()
      ensures Moves(old(heap.Now()), address, request) && r.Some? ==>
        && var n := Least(old(heap.blocks)[address].size, request);
           MemRead(old(log.uc.st), address, n).Some? ==> Copied(old(log.uc.st), address, log.uc.st, r.value, n)
    {
      hide Sane, Heap.At, DoAll, Succeed, Effect.Carries, Sorted, Indexes, Picks, WellFormed, ByteAt, Touched,
        SameSizeAt;
      hide ArenaIn, Distinct, TooSmall, ByAddress, Copied, MemRead, Handed, NoneFits, Fails, Lost, MovedTo;
      if address == 0 {
        r, acts' := Malloc(request, m, acts);
      } else if request == 0 {
        var released := heap.Release(address);
        r, acts' := if released.Some? then Some(0) else None, acts;
      } else if address in heap.blocks && heap.blocks[address].capacity >= request {
        heap.Resize(address, request);
        r, acts' := Some(address), acts;
      } else {
        r, acts' := Move(address, request, m, acts);
      }
    }

    method Serve(call: LibCall, ghost m: State, ghost acts: seq<Act>)
      returns (result: Option<nat>, ghost acts': seq<Act>)
      requires Ready() && Recorded(m, acts)
      modifies heap`top, heap`mapped, heap`blocks, heap`freed, heap`journal, log`current, log.uc, log.timeline`dirty
      ensures Ready() && Recorded(m, acts') && SameCall(old(log.current), log.current)
      ensures log.uc.st.ctx == old(log.uc.st).ctx
      ensures heap.Mark() >= old(heap.Mark())
      ensures forall k: nat :: k <= old(heap.Mark()) ==> heap.At(k).top == old(heap.At(k)).top
      ensures forall k: nat :: k <= old(heap.Mark()) ==>
        (heap.At(k) == old(heap.At(k)) <==> Spares(old(heap.Now()), old(heap.journal)[old(heap.Kept(k))..], call))
      ensures Answers(old(heap.Now()), heap.Now(), call, result)
      ensures call.Malloc? ==>
        if old(Fails(AtLeastOne(call.size))) then result == Some(0)
          else Handed(old(heap.Now()), heap.Now(), result.value, AtLeastOne(call.size))
      ensures Inside() <==> old(Supplied(Asks(heap.Now(), call)))
      ensures heap.mapped == old(Reach(Asks(heap.Now(), call)))
      ensures log.uc.st.mem.Keys == old(log.uc.st.mem.Keys) + Range(old(heap.mapped) / PAGE, heap.mapped / PAGE)
      ensures old(ArenaMapped()) ==> ArenaMapped()
    {
      hide Sane, Heap.At, DoAll, Succeed, Effect.Carries, Sorted, Indexes, Picks, WellFormed, ByteAt, Touched,
        SameSizeAt;
      hide ArenaIn, Distinct, TooSmall, ByAddress, Copied, MemRead, Handed, NoneFits, Fails, Lost, MovedTo;
      var r;
      match call {
        case Malloc(size) =>
          r, acts' := Malloc(size, m, acts);
          result := Some(if r.Some? then r.value else 0);
        case Calloc(count, size) =>
          r, acts' := Calloc(count, size, m, acts);
          result := Some(if r.Some? then r.value else 0);
        case Realloc(address, size) =>
          r, acts' := Realloc(address, size, m, acts);
          result := Some(if r.Some? then r.value else 0);
        case Free(address) =>
          acts' := acts;
          result := None;
          if address != 0 {
            var released := heap.Release(address);
            if released.None? {
              result := Some(0);
            }
          }
      }
    }

    /** The result goes where the convention has it, and the caller runs on. */
    method Return(result: Option<nat>, ghost m: State, ghost acts: seq<Act>) returns (ghost acts': seq<Act>)
      requires log.Valid() && log.uc.Valid() && Recorded(m, acts) && abi.modulus > 0
      modifies log`current, log.uc, log.timeline`dirty
      ensures log.Valid() && log.uc.Valid() && Recorded(m, acts') && SameCall(old(log.current), log.current)
      ensures log.uc.st.ctx.Pc() == ReturnsTo(old(log.uc.st), abi) && Delivered(log.uc.st, abi, result)
      ensures log.uc.st.mem == old(log.uc.st.mem) && log.uc.st.spans == old(log.uc.st.spans)
    {
      hide DoAll, Succeed, Effect.Carries, Sorted, Indexes, WellFormed;
      var link := ReturnsTo(log.uc.st, abi);
      acts' := acts;
      var ok;
      if result.Some? {
        ok, acts' := log.Record(SetReg(abi.result, result.value % abi.modulus), m, acts');
      }
      ok, acts' := log.Record(SetReg(PC, link), m, acts');
    }

    /** Collect everything the call does into one entry. */
    method Record(icount: nat, call: LibCall) returns (ghost result: Option<nat>)
      requires Ready() && forall i :: 0 <= i < |log.entries| ==> log.entries[i].icount < icount
      modifies heap`top, heap`mapped, heap`blocks, heap`freed, heap`journal, log, log.uc, log.timeline`dirty
      ensures Ready() && log.current == None && |log.entries| == |old(log.entries)| + 1
      ensures log.entries[..|old(log.entries)|] == old(log.entries)
      ensures var e := log.entries[|old(log.entries)|];
        && e.icount == icount && e.before == Snap(old(heap.top), old(heap.mapped), old(heap.Mark()))
        && DoAll(old(log.uc.st), e.AsActs()) == log.uc.st
      ensures log.uc.st.ctx.Pc() == ReturnsTo(old(log.uc.st), abi)
      ensures heap.Mark() >= old(heap.Mark())
      ensures forall k: nat :: k <= old(heap.Mark()) ==> heap.At(k).top == old(heap.At(k)).top
      ensures forall k: nat :: k <= old(heap.Mark()) ==>
        (heap.At(k) == old(heap.At(k)) <==> Spares(old(heap.Now()), old(heap.journal)[old(heap.Kept(k))..], call))
      ensures Answers(old(heap.Now()), heap.Now(), call, result) && Delivered(log.uc.st, abi, result)
      ensures call.Malloc? ==>
        if old(Fails(AtLeastOne(call.size))) then result == Some(0)
          else Handed(old(heap.Now()), heap.Now(), result.value, AtLeastOne(call.size))
      ensures Inside() <==> old(Supplied(Asks(heap.Now(), call)))
      ensures heap.mapped == old(Reach(Asks(heap.Now(), call)))
      ensures log.uc.st.mem.Keys == old(log.uc.st.mem.Keys) + Range(old(heap.mapped) / PAGE, heap.mapped / PAGE)
      ensures old(ArenaMapped()) ==> ArenaMapped()
    {
      hide Sane, Heap.At, DoAll, Succeed, Effect.Carries, Sorted, Indexes, WellFormed, Spares, Distinct, ByAddress,
        Answers, Delivered, ArenaIn, Handed, Fails, Supplied, Reach;
      ghost var m := log.uc.st;
      var snap := heap.Snapshot();
      log.Begin(icount, snap);
      BlankCarriesNothing(icount, snap);
      ghost var acts: seq<Act> := [];
      SucceedNone(m);
      var answer;
      answer, acts := Serve(call, m, acts);
      result := answer;
      acts := Return(answer, m, acts);
      EntryReplays(m, acts, log.current.value);
      log.End();
    }

    /** Stand in for one library call. */
    method Call(icount: nat, call: LibCall) returns (ghost result: Option<nat>)
      requires Valid() && forall i :: 0 <= i < |log.entries| ==> log.entries[i].icount < icount
      modifies this`past, heap`top, heap`mapped, heap`blocks, heap`freed, heap`journal, log, log.uc, log.timeline`dirty
      ensures Valid() && past == old(past) + [old(Holding())]
      ensures |log.entries| == |old(log.entries)| + 1 && log.entries[..|old(log.entries)|] == old(log.entries)
      ensures var e := log.entries[|old(log.entries)|];
        e.icount == icount && DoAll(old(log.uc.st), e.AsActs()) == log.uc.st
      ensures log.uc.st.ctx.Pc() == ReturnsTo(old(log.uc.st), abi)
      ensures Answers(old(heap.Now()), heap.Now(), call, result) && Delivered(log.uc.st, abi, result)
      ensures call.Malloc? ==>
        if old(Fails(AtLeastOne(call.size))) then result == Some(0)
          else Handed(old(heap.Now()), heap.Now(), result.value, AtLeastOne(call.size))
      ensures Inside() <==> old(Supplied(Asks(heap.Now(), call)))
      ensures heap.mapped == old(Reach(Asks(heap.Now(), call)))
      ensures log.uc.st.mem.Keys == old(log.uc.st.mem.Keys) + Range(old(heap.mapped) / PAGE, heap.mapped / PAGE)
      ensures old(ArenaMapped()) ==> ArenaMapped()
      ensures old(AlwaysInside()) && old(Supplied(Asks(heap.Now(), call))) ==> AlwaysInside()
      ensures forall i :: 0 <= i < |old(past)| && old(Remembers(i)) ==>
        (Remembers(i) <==>
          Spares(old(heap.Now()), old(heap.journal)[old(heap.Kept(log.entries[i].before.mark))..], call))
      ensures Remembers(|old(past)|) <==> Spares(old(heap.Now()), [], call)
    {
      hide Sane, Heap.At, DoAll, Sorted, Indexes, WellFormed, Spares, Distinct, ByAddress, Answers, ReturnsTo,
        Delivered, ArenaIn, Handed, Fails, Supplied, Reach;
      ghost var held := Holding();
      heap.AtMark();
      result := Record(icount, call);
      past := past + [held];
    }

    /** Take the allocator back along with the machine: the calls from instruction k on never were. */
    method Rewind(k: nat, ghost n: nat)
      requires Valid() && SplitsAt(log.entries, k, n)
      modifies this`past, heap`top, heap`mapped, heap`blocks, heap`freed, heap`journal, log`entries, log`byIcount
      ensures Valid() && log.entries == old(log.entries)[..n] && past == old(past)[..n]
      ensures n == |old(past)| ==> Holding() == old(Holding())
      ensures n < |old(past)| ==> heap.top == old(past)[n].tables.top && heap.mapped == old(past)[n].mapped
      ensures old(AlwaysInside()) ==> AlwaysInside()
      ensures n < |old(past)| && old(Remembers(n)) ==> Holding() == old(past)[n]
      ensures forall i :: 0 <= i < n && old(Remembers(i)) ==> Remembers(i)
    {
      hide Sane, Heap.At, Sorted, Indexes, WellFormed, Distinct, ByAddress;
      var before := log.Truncate(k, n);
      if before.Some? {
        heap.Restore(before.value);
      }
      past := past[..n];
    }

    /** Forget the calls from before the history, and the journal only they needed. */
    method Prune(earliest: nat, ghost n: nat)
      requires Valid() && SplitsAt(log.entries, earliest, n)
      modifies this`past, heap`journal, heap`dropped, log`entries, log`byIcount
      ensures Valid() && log.entries == old(log.entries)[n..] && past == old(past)[n..]
      ensures Holding() == old(Holding())
      ensures old(AlwaysInside()) ==> AlwaysInside()
      ensures forall i :: n <= i < |old(past)| ==> (Remembers(i - n) <==> old(Remembers(i)))
      ensures n > 0 && n == |old(past)| ==> heap.journal == []
    {
      hide Sane, Heap.At, Sorted, Indexes, WellFormed, Distinct, ByAddress, Heap.Now, Agrees;
      ghost var es, was := log.entries[n..], past[n..];
      var cut, oldest := log.ForgetBefore(earliest, n);
      past := was;
      if cut {
        ForgetHeap(oldest, es, was);
      }
    }

    /** The journal goes that none of these entries needs. */
    method ForgetHeap(oldest: Option<Snap>, ghost es: seq<Effect<Snap>>, ghost was: seq<Held>)
      requires heap.Valid() && |es| == |was| && (forall i :: 0 <= i < |es| ==> Snapped(heap, es[i].before, was[i]))
      requires oldest.Some? ==> forall i :: 0 <= i < |es| ==> oldest.value.mark <= es[i].before.mark
      requires if es == [] then oldest.None? else oldest == Some(es[0].before)
      modifies heap`journal, heap`dropped
      ensures heap.Valid() && heap.Now() == old(heap.Now()) && (es == [] ==> heap.journal == [])
      ensures forall i :: 0 <= i < |es| ==> Snapped(heap, es[i].before, was[i])
      ensures forall i :: 0 <= i < |es| ==> heap.At(es[i].before.mark) == old(heap.At(es[i].before.mark))
    {
      hide Sane, Heap.At, Heap.Now, Agrees;
      heap.Forget(oldest);
    }

  }

  /**
     The second page of the arena is taken by something else, so the first call to `malloc` fails; but
     its block stays, and once the program frees it the next call answers with it.  Nothing is mapped
     there.
   */
  method HandedOutUnmapped(layer: Layer) returns (ghost answer: Option<nat>)
    requires layer.Valid() && layer.log.entries == []
    requires layer.Holding() == Held(Tables(layer.heap.base, map[], map[]), layer.heap.base)
    requires layer.heap.base > 0 && layer.heap.size >= 2 * PAGE
    requires layer.heap.base / PAGE !in layer.log.uc.st.mem && layer.heap.base / PAGE + 1 in layer.log.uc.st.mem
    modifies layer`past, layer.heap, layer.log, layer.log.uc, layer.log.timeline`dirty
    ensures answer == Some(layer.heap.base) && layer.heap.base in layer.heap.blocks
    ensures layer.heap.base / PAGE !in layer.log.uc.st.mem
    ensures layer.heap.mapped == layer.heap.base < layer.heap.top
  {
    hide Sane, Heap.At, DoAll, Sorted, Indexes, WellFormed, Spares, Distinct, ByAddress, ReturnsTo, Delivered, ArenaIn,
      Snapped, Handed, Lost, NoneFits, MemMap, Layer.Remembers, Layer.AlwaysInside, Layer.ArenaMapped, MovedTo,
      Layer.Ready;
    ghost var base, empty := layer.heap.base, layer.heap.Now();
    layer.StandsReady();
    assert Want(5000) == 5008 && PageUp(base + 5008) == base + 2 * PAGE;
    NoneToFit(empty, Want(5000));
    layer.TakenIsRefused(5000, base / PAGE + 1);
    answer := layer.Call(0, Malloc(5000));
    LostAtTop(empty, layer.heap.Now(), 5000);
    answer := layer.Call(1, LibCall.Free(layer.heap.base));
    ghost var freed := layer.heap.Now();
    FitsThatOne(freed, base, 5000);
    answer := layer.Call(2, Malloc(5000));
    OnlyThatOne(freed, layer.heap.Now(), base, answer.value, 5000);
  }

  lemma NoneToFit(t: Tables, want: nat)
    requires t.freed == map[]
    ensures NoneFits(t.freed, want)
  {
  }

  lemma FitsThatOne(t: Tables, a: nat, size: nat)
    requires a in t.freed && t.freed[a].capacity >= Want(size)
    ensures !NoneFits(t.freed, Want(size))
  {
  }

  lemma LostAtTop(t: Tables, t': Tables, size: nat)
    requires Lost(t, t', size) && t.freed == map[] && t'.top != t.top
    ensures t' == Bumped(t, size, Want(size))
  {
  }

  lemma OnlyThatOne(t: Tables, t': Tables, a: nat, b: nat, size: nat)
    requires Handed(t, t', b, size) && t.freed.Keys == {a} && !NoneFits(t.freed, Want(size))
    ensures b == a && a in t'.blocks && t' == Reused(t, a, size)
  {
  }

  lemma SameAnyway(m: State)
    ensures Undisturbed(m, m)
  {
  }

  lemma ArenaGrows(m: State, base: nat, mapped: nat, need: nat)
    requires mapped % PAGE == 0 && need % PAGE == 0 && mapped < need
    ensures var span := Span(mapped / PAGE, need / PAGE - 1);
      ArenaIn(m.mem.Keys, base, mapped) ==>
        ArenaIn(Do(m, Map(span)).mem.Keys, base, if MemMap(m, span).Some? then need else mapped)
  {
  }

  lemma HandedMeans(t: Tables, t': Tables, limit: nat, a: nat, size: nat)
    requires Handed(t, t', a, size)
    ensures Lost(t, t', size) && t'.top == if NoneFits(t.freed, Want(size)) then t.top + Want(size) else t.top
    ensures NewBlock(t.blocks, t'.blocks, a, size)
  {
  }

  lemma MapFrame(m: State, span: Span)
    requires WellFormed(m)
    ensures Undisturbed(m, Do(m, Map(span))) && Do(m, Map(span)).ctx == m.ctx
    ensures MemMap(m, span).Some? ==> Do(m, Map(span)).mem.Keys == m.mem.Keys + Range(span.first, span.last + 1)
    ensures MemMap(m, span).None? ==> Do(m, Map(span)) == m
  {
    if MemMap(m, span).Some? {
      MapKeepsWellFormed(m, span);
    }
  }

  /** The call moves a live block to a larger one. */
  predicate Moves(t: Tables, address: nat, request: nat) {
    address != 0 && request != 0 && address in t.blocks && request > t.blocks[address].capacity
  }

  ghost predicate SameByte(m: State, from: nat, m': State, to: nat, i: nat) {
    ByteAt(m', to + i) == ByteAt(m, from + i)
  }

  /** The first n bytes at `to` in one state are those at `from` in the other. */
  ghost predicate Copied(m: State, from: nat, m': State, to: nat, n: nat) {
    forall i: nat :: i < n ==> SameByte(m, from, m', to, i)
  }

  ghost predicate WroteAt(m: State, m': State, address: nat, data: seq<Byte>, a: nat) {
    if address <= a < address + |data| then a / PAGE in m'.mem && ByteAt(m', a) == data[a - address]
    else ByteAt(m', a) == ByteAt(m, a)
  }

  /** The data is at the address, and every other byte is what it was. */
  ghost predicate Wrote(m: State, m': State, address: nat, data: seq<Byte>) {
    forall a: nat :: WroteAt(m, m', address, data, a)
  }

  lemma CopiedBy(m0: State, from: nat, n: nat, m: State, m': State, to: nat, data: seq<Byte>)
    requires Wrote(m, m', to, data)
    ensures MemRead(m0, from, n) == Some(data) ==> Copied(m0, from, m', to, n)
  {
    if MemRead(m0, from, n) == Some(data) {
      forall i: nat | i < n
        ensures SameByte(m0, from, m', to, i)
      {
        assert WroteAt(m, m', to, data, to + i);
      }
    }
  }

  lemma ReadsSame(m: State, m': State, address: nat, n: nat)
    requires Undisturbed(m, m')
    ensures MemRead(m, address, n).Some? ==> MemRead(m', address, n) == MemRead(m, address, n)
  {
    if MemRead(m, address, n).Some? {
      var was, now := MemRead(m, address, n).value, MemRead(m', address, n).value;
      forall i: nat | i < n
        ensures was[i] == now[i]
      {
        var p := (address + i) / PAGE;
        assert p in Touched(address, n).Pages() && p in m.mem;
        assert was[i] == ByteAt(m, address + i) && now[i] == ByteAt(m', address + i);
      }
      assert was == now;
    }
  }

  /** The program finds the result where it looks for it, unless the call has none. */
  predicate Delivered(m: State, abi: Convention, result: Option<nat>) {
    result.Some? && abi.result != PC && abi.modulus > 0 ==>
      abi.result in m.ctx.regs && m.ctx.regs[abi.result] == result.value % abi.modulus
  }

  function ReturnsTo(m: State, abi: Convention): int {
    if abi.link in m.ctx.regs then m.ctx.regs[abi.link] else 0
  }

  ghost predicate Snapped(heap: Heap, snap: Snap, held: Held)
    reads heap
  {
    snap.mark <= heap.Mark() && Agrees(snap, held, heap.At(snap.mark), heap.base)
  }

  predicate Agrees(snap: Snap, held: Held, was: Tables, base: nat) {
    snap.top == was.top == held.tables.top && snap.mapped == held.mapped && held.mapped % PAGE == 0 &&
      base <= held.mapped
  }
}
