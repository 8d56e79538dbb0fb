/**
 The system-call layer: descriptors, the program break and the mapping arena.  Open files are shared
 objects whose offset every call moves in place, so a snapshot keeps the offsets beside the objects.
 */
module Syscalls {
  import opened Options
  import opened Machine
  import opened Engine
  import opened Acts
  import opened Timelines
  import opened EffectLogs

  datatype Errno = EBADF | ENOENT | ENOMEM | EINVAL | ESPIPE | EFAULT | ENOSYS

  datatype Answer = Ok(value: int) | Failed(errno: Errno)

  datatype Whence = Set | Cur | End | Other

  datatype SystemCall =
    | Read(fd: nat, buffer: nat, count: nat)
    | Write(fd: nat, buffer: nat, count: nat)
    | Lseek(fd: nat, offset: int, whence: Whence)
    | Open(path: string)
    | Close(fd: nat)
    | Mmap(address: nat, length: nat, fixed: bool, source: Option<nat>)
    | Munmap(address: nat, length: nat)
    | Brk(want: nat)
    | Unknown

  class OpenFile {
    const name: string
    const data: seq<Byte>
    const writable: bool
    var offset: nat

    constructor (name: string, data: seq<Byte>, writable: bool)
      ensures this.name == name && this.data == data && this.writable == writable && offset == 0
    {
      this.name, this.data, this.writable, offset := name, data, writable, 0;
    }
  }

  /** A file as a value, which is what a descriptor means to the program. */
  datatype FileView = FileView(name: string, data: seq<Byte>, writable: bool, offset: nat)

  ghost function View(f: OpenFile): FileView
    reads f
  {
    FileView(f.name, f.data, f.writable, f.offset)
  }

  /** All of the layer's own state as a value. */
  datatype Held = Held(files: map<nat, FileView>, nextFd: nat, brkCurrent: nat, brkMapped: nat, mmapNext: nat)

  /** The layer's own state as the source saves it: the objects, and their offsets apart from them. */
  datatype Snap = Snap(files: map<nat, OpenFile>, offsets: map<nat, nat>, nextFd: nat, brkCurrent: nat, brkMapped: nat,
    mmapNext: nat)

  /** What every program has open when it starts. */
  function Streams(stdin: seq<Byte>): map<nat, FileView> {
    map[0 := FileView("<stdin>", stdin, false, 0), 1 := FileView("<stdout>", [], true, 0),
      2 := FileView("<stderr>", [], true, 0)]
  }

  /** No object is open under two descriptors. */
  ghost predicate Separate(files: map<nat, OpenFile>) {
    forall a, b :: a in files && b in files && files[a] == files[b] ==> a == b
  }

  ghost predicate Proper(snap: Snap) {
    snap.offsets.Keys == snap.files.Keys && Separate(snap.files)
  }

  /** What the layer held when the snapshot was taken, whatever has happened to the objects since. */
  ghost function Meaning(snap: Snap): Held
    requires Proper(snap)
  {
    Held(
      map fd | fd in snap.files :: FileView(snap.files[fd].name, snap.files[fd].data, snap.files[fd].writable,
        snap.offsets[fd]),
      snap.nextFd, snap.brkCurrent, snap.brkMapped, snap.mmapNext)
  }

  /** The bytes from the offset on, at most `count` of them. */
  function Slice(data: seq<Byte>, offset: nat, count: nat): seq<Byte> {
    if offset >= |data| then []
    else if offset + count >= |data| then data[offset..]
    else data[offset..offset + count]
  }

  /** Reading in two goes gets the bytes that reading in one would. */
  lemma SliceTwice(data: seq<Byte>, offset: nat, a: nat, b: nat)
    ensures Slice(data, offset, a + b) == Slice(data, offset, a) + Slice(data, offset + |Slice(data, offset, a)|, b)
  {
  }

  ghost predicate OnlyAdds(acts: seq<Act>) {
    forall a :: a in acts ==> a.Map? || a.Write?
  }

  ghost predicate OnlyUnmaps(acts: seq<Act>) {
    forall a :: a in acts ==> a.Unmap?
  }

  ghost predicate Mapped(m: State, start: nat, end: nat) {
    forall p: nat :: start / PAGE <= p < end / PAGE ==> p in m.mem
  }

  /** The three streams every program starts with. */
  method OpenStreams(stdin: seq<Byte>) returns (files: map<nat, OpenFile>)
    ensures fresh(files.Values) && Separate(files) && files.Keys == {0, 1, 2}
    ensures (map fd | fd in files :: View(files[fd])) == Streams(stdin)
  {
    var in0 := new OpenFile("<stdin>", stdin, false);
    var out := new OpenFile("<stdout>", [], true);
    var err := new OpenFile("<stderr>", [], true);
    files := map[0 := in0, 1 := out, 2 := err];
  }

  /** The value the program finds in its result register. */
  function Encoded(r: Answer, modulus: nat): int
    requires modulus > 0
  {
    match r
    case Ok(value) => value % modulus
    case Failed(errno) => (-(Number(errno) as int)) % modulus
  }

  function Number(errno: Errno): nat {
    match errno
    case ENOENT => 2
    case EBADF => 9
    case ENOMEM => 12
    case EFAULT => 14
    case EINVAL => 22
    case ESPIPE => 29
    case ENOSYS => 38
  }

  lemma OneWayWithResult(acts: seq<Act>, result: Act)
    requires (OnlyAdds(acts) || OnlyUnmaps(acts)) && result.SetReg?
    ensures OneWay(acts + [result])
  {
    assert forall a :: a in acts + [result] <==> a in acts || a == result;
  }

  lemma RegionMapped(m: State, start: nat, end: nat)
    requires WellFormed(m) && start % PAGE == 0 && end % PAGE == 0
    requires exists s :: s in m.spans && s.first <= start / PAGE && end / PAGE - 1 <= s.last
    ensures Mapped(m, start, end)
  {
    var s :| s in m.spans && s.first <= start / PAGE && end / PAGE - 1 <= s.last;
    forall p: nat | start / PAGE <= p < end / PAGE
      ensures p in m.mem
    {
      assert s.Has(p);
    }
  }

  lemma OutputIsNoAct<S>(e: Effect<S>, acts: seq<Act>, output: seq<(nat, seq<Byte>)>)
    ensures e.(output := output).Carries(acts) == e.Carries(acts)
  {
  }

  /** What the layer is given when it is made. */
  datatype Setup = Setup(contents: map<string, seq<Byte>>, mmapBase: nat, mmapSize: nat, brkBase: nat, brkSize: nat)

  /** What one call comes to: the layer's state and the machine after it, the answer, and what was output. */
  datatype Turn = Turn(held: Held, answer: Answer, m: State, output: seq<(nat, seq<Byte>)>)

  function Refuse(h: Held, m: State, errno: Errno): Turn {
    Turn(h, Failed(errno), m, [])
  }

  function Moved(h: Held, fd: nat, offset: nat): Held
    requires fd in h.files
  {
    h.(files := h.files[fd := h.files[fd].(offset := offset)])
  }

  function ReadTurn(h: Held, m: State, fd: nat, buffer: nat, count: nat): Turn {
    if fd !in h.files || h.files[fd].writable then Refuse(h, m, EBADF)
    else
      var data := Slice(h.files[fd].data, h.files[fd].offset, count);
      var after := Moved(h, fd, h.files[fd].offset + |data|);
      if data == [] then Turn(after, Ok(0), m, [])
      else if MemWrite(m, buffer, data).None? then Refuse(after, m, EFAULT)
      else Turn(after, Ok(|data|), MemWrite(m, buffer, data).value, [])
  }

  function WriteTurn(h: Held, m: State, fd: nat, buffer: nat, count: nat): Turn {
    if fd !in h.files || !h.files[fd].writable then Refuse(h, m, EBADF)
    else if count == 0 then Turn(h, Ok(0), m, [(fd, [])])
    else if count > MAX_TRANSFER || MemRead(m, buffer, count).None? then Refuse(h, m, EFAULT)
    else Turn(h, Ok(count), m, [(fd, MemRead(m, buffer, count).value)])
  }

  function LseekTurn(h: Held, m: State, fd: nat, offset: int, whence: Whence): Turn {
    if fd !in h.files then Refuse(h, m, EBADF)
    else if h.files[fd].writable then Refuse(h, m, ESPIPE)
    else
      var pos := offset + (if whence.Cur? then h.files[fd].offset else if whence.End? then |h.files[fd].data| else 0);
      if whence.Other? || pos < 0 then Refuse(h, m, EINVAL) else Turn(Moved(h, fd, pos), Ok(pos), m, [])
  }

  function OpenTurn(setup: Setup, h: Held, m: State, path: string): Turn {
    if path !in setup.contents then Refuse(h, m, ENOENT)
    else Turn(h.(files := h.files[h.nextFd := FileView(path, setup.contents[path], false, 0)], nextFd := h.nextFd + 1),
      Ok(h.nextFd), m, [])
  }

  function CloseTurn(h: Held, m: State, fd: nat): Turn {
    if fd !in h.files then Refuse(h, m, EBADF)
    else Turn(if fd <= 2 then h else h.(files := h.files - {fd}), Ok(0), m, [])
  }

  predicate HasRegion(m: State, start: nat, end: nat) {
    exists s :: s in m.spans && s.first <= start / PAGE && end / PAGE - 1 <= s.last
  }

  function MapTurn(h: Held, m: State, start: nat, size: nat, source: Option<nat>): Turn
    requires size >= PAGE
  {
    var mapped := MemMap(m, Span(start / PAGE, (start + size) / PAGE - 1));
    if mapped.None? then Refuse(h, m, ENOMEM)
    else if source.None? then Turn(h, Ok(start), mapped.value, [])
    else if source.value !in h.files then Refuse(h, mapped.value, EBADF)
    else
      var data := Slice(h.files[source.value].data, 0, size);
      if data == [] then Turn(h, Ok(start), mapped.value, [])
      else if MemWrite(mapped.value, start, data).None? then Refuse(h, mapped.value, EFAULT)
      else Turn(h, Ok(start), MemWrite(mapped.value, start, data).value, [])
  }

  function MmapTurn(setup: Setup, h: Held, m: State, address: nat, length: nat, fixed: bool,
                    source: Option<nat>): Turn {
    if length == 0 then Refuse(h, m, EINVAL)
    else
      var size := PageUp(length);
      if fixed && address > 0 then
        if HasRegion(m, PageDown(address), PageDown(address) + size) then Turn(h, Ok(PageDown(address)), m, [])
        else MapTurn(h, m, PageDown(address), size, source)
      else if h.mmapNext + size > setup.mmapBase + setup.mmapSize then Refuse(h, m, ENOMEM)
      else MapTurn(h.(mmapNext := h.mmapNext + size), m, h.mmapNext, size, source)
  }

  function MunmapTurn(h: Held, m: State, address: nat, length: nat): Turn {
    var start := PageDown(address);
    var size := PageUp(length + (address - start));
    if size == 0 then Refuse(h, m, EINVAL)
    else
      var unmapped := MemUnmap(m, Span(start / PAGE, (start + size) / PAGE - 1));
      if unmapped.None? then Refuse(h, m, EINVAL) else Turn(h, Ok(0), unmapped.value, [])
  }

  /**
   Asked to unmap nothing, the layer leaves the machine as it is if and only if the address starts a page
   or its page is not mapped.
   */
  lemma MunmapOfNothing(h: Held, m: State, address: nat)
    ensures MunmapTurn(h, m, address, 0).m == m <==> address % PAGE == 0 || address / PAGE !in m.mem
  {
    if address % PAGE == 0 {
      assert PageDown(address) == address && PageUp(0) == 0;
    } else {
      var start, page := PageDown(address), address / PAGE;
      assert PageUp(address - start) == PAGE;
      assert Span(page, page).Has(page) && Span(page, page).Pages() == {page};
    }
  }

  function BrkTurn(setup: Setup, h: Held, m: State, want: nat): Turn {
    if want == 0 || want < setup.brkBase || want > setup.brkBase + setup.brkSize then Turn(h, Ok(h.brkCurrent), m, [])
    else if PageUp(want) <= h.brkMapped then Turn(h.(brkCurrent := want), Ok(want), m, [])
    else
      var mapped := MemMap(m, Span(h.brkMapped / PAGE, PageUp(want) / PAGE - 1));
      if mapped.None? then Turn(h, Ok(h.brkCurrent), m, [])
      else Turn(h.(brkCurrent := want, brkMapped := PageUp(want)), Ok(want), mapped.value, [])
  }

  /** The layer as a function of what it holds, which is what the objects and fields amount to. */
  function TurnOf(setup: Setup, h: Held, m: State, call: SystemCall): Turn {
    match call
    case Read(fd, buffer, count) => ReadTurn(h, m, fd, buffer, count)
    case Write(fd, buffer, count) => WriteTurn(h, m, fd, buffer, count)
    case Lseek(fd, offset, whence) => LseekTurn(h, m, fd, offset, whence)
    case Open(path) => OpenTurn(setup, h, m, path)
    case Close(fd) => CloseTurn(h, m, fd)
    case Mmap(address, length, fixed, source) => MmapTurn(setup, h, m, address, length, fixed, source)
    case Munmap(address, length) => MunmapTurn(h, m, address, length)
    case Brk(want) => BrkTurn(setup, h, m, want)
    case Unknown => Refuse(h, m, ENOSYS)
  }

  /** What the layer holds keeps within what it was set up with. */
  ghost predicate InBounds(setup: Setup, h: Held) {
    && setup.brkBase <= h.brkCurrent <= h.brkMapped && h.brkCurrent <= setup.brkBase + setup.brkSize &&
      h.brkMapped % PAGE == 0
    && setup.mmapBase <= h.mmapNext <= setup.mmapBase + setup.mmapSize && h.mmapNext % PAGE == 0
    && (forall fd :: fd in h.files ==> fd < h.nextFd)
    && {0, 1, 2} <= h.files.Keys
  }

  lemma TurnKeepsBounds(setup: Setup, h: Held, m: State, call: SystemCall)
    requires InBounds(setup, h)
    ensures InBounds(setup, TurnOf(setup, h, m, call).held)
  {
    hide MemMap, MemWrite, MemUnmap, MemRead, Slice, HasRegion;
  }

  /** Reading in two goes leaves the file and gives the bytes that reading in one would. */
  lemma ReadTwice(h: Held, m: State, fd: nat, buffer: nat, a: nat, b: nat)
    requires fd in h.files && !h.files[fd].writable
    ensures var f := h.files[fd];
      var first := ReadTurn(h, m, fd, buffer, a);
      var second := ReadTurn(first.held, first.m, fd, buffer + |Slice(f.data, f.offset, a)|, b);
      && second.held == ReadTurn(h, m, fd, buffer, a + b).held
      && Slice(f.data, f.offset, a) + Slice(f.data, first.held.files[fd].offset, b) == Slice(f.data, f.offset, a + b)
  {
    hide Slice, MemWrite;
    SliceTwice(h.files[fd].data, h.files[fd].offset, a, b);
  }

  /**
     Mapping that succeeds gives the program all the pages it asked for, changes no page that was
     mapped before, and takes what it takes from the arena beyond everything taken so far.
   */
  lemma MmapGives(setup: Setup, h: Held, m: State, address: nat, length: nat, fixed: bool, source: Option<nat>)
    requires WellFormed(m) && InBounds(setup, h)
    ensures var t := MmapTurn(setup, h, m, address, length, fixed, source);
      t.answer.Ok? ==>
        && t.answer.value >= 0 && t.answer.value % PAGE == 0
        && Mapped(t.m, t.answer.value, t.answer.value + PageUp(length))
        && Undisturbed(m, t.m)
        && (!(fixed && address > 0) ==> t.answer.value == h.mmapNext && t.held.mmapNext == h.mmapNext + PageUp(length))
  {
    hide WellFormed, MapTurn;
    if length > 0 {
      var size := PageUp(length);
      if fixed && address > 0 {
        if HasRegion(m, PageDown(address), PageDown(address) + size) {
          RegionMapped(m, PageDown(address), PageDown(address) + size);
        } else {
          MapGives(h, m, PageDown(address), size, source);
        }
      } else {
        MapGives(h.(mmapNext := h.mmapNext + size), m, h.mmapNext, size, source);
      }
    }
  }

  lemma MapGives(h: Held, m: State, start: nat, size: nat, source: Option<nat>)
    requires WellFormed(m) && size >= PAGE && start % PAGE == 0 && size % PAGE == 0
    ensures var t := MapTurn(h, m, start, size, source);
      t.held == h && (t.answer.Ok? ==>
        t.answer.value == start && Mapped(t.m, start, start + size) && Undisturbed(m, t.m))
  {
    hide MemMap, MemWrite, WellFormed, Slice, Mapped, Undisturbed;
    var mapped := MemMap(m, Span(start / PAGE, (start + size) / PAGE - 1));
    if mapped.Some? {
      MapPart(m, start, size);
      if source.Some? && source.value in h.files {
        SliceLength(h.files[source.value].data, 0, size);
        FillPart(m, mapped.value, start, size, Slice(h.files[source.value].data, 0, size));
      }
    }
  }

  lemma MapPart(m: State, start: nat, size: nat)
    requires WellFormed(m) && size >= PAGE && MemMap(m, Span(start / PAGE, (start + size) / PAGE - 1)).Some?
    ensures var m' := MemMap(m, Span(start / PAGE, (start + size) / PAGE - 1)).value;
      Mapped(m', start, start + size) && Undisturbed(m, m')
    ensures forall p: nat :: start / PAGE <= p < (start + size) / PAGE ==> p !in m.mem
  {
    MapKeepsWellFormed(m, Span(start / PAGE, (start + size) / PAGE - 1));
  }

  lemma FillPart(m: State, m': State, start: nat, size: nat, data: seq<Byte>)
    requires Mapped(m', start, start + size) && Undisturbed(m, m') && size >= |data| && start % PAGE == 0
    requires size % PAGE == 0
    requires forall p: nat :: start / PAGE <= p < (start + size) / PAGE ==> p !in m.mem
    ensures data != [] && MemWrite(m', start, data).Some? ==>
      Mapped(MemWrite(m', start, data).value, start, start + size) && Undisturbed(m, MemWrite(m', start, data).value)
  {
    WriteUndisturbed(m', start, data);
    if data != [] {
      assert forall p: nat :: Touched(start, |data|).Has(p) ==> start / PAGE <= p < (start + size) / PAGE;
    }
  }

  lemma SliceLength(data: seq<Byte>, offset: nat, count: nat)
    ensures |Slice(data, offset, count)| <= count
  {
  }

  lemma WriteUndisturbed(m: State, address: nat, data: seq<Byte>)
    ensures forall p :: p in m.mem && !Touched(address, |data|).Has(p) ==> PutBytes(m.mem, address, data)[p] == m.mem[p]
  {
    forall p | p in m.mem && !Touched(address, |data|).Has(p)
      ensures PutBytes(m.mem, address, data)[p] == m.mem[p]
    {
      PutBytesFrame(m.mem, address, data, p);
    }
  }

  /** The break never unmaps anything: what lies below its mapped end stays mapped. */
  lemma BrkKeepsMapped(setup: Setup, h: Held, m: State, want: nat)
    requires WellFormed(m) && InBounds(setup, h) && Mapped(m, setup.brkBase, h.brkMapped)
    ensures var t := BrkTurn(setup, h, m, want);
      && Mapped(t.m, setup.brkBase, t.held.brkMapped) && t.held.brkMapped >= h.brkMapped && Undisturbed(m, t.m)
      && t.answer == Ok(t.held.brkCurrent) && t.held.brkCurrent <= t.held.brkMapped
  {
    if PageUp(want) > h.brkMapped && MemMap(m, Span(h.brkMapped / PAGE, PageUp(want) / PAGE - 1)).Some? {
      MapKeepsWellFormed(m, Span(h.brkMapped / PAGE, PageUp(want) / PAGE - 1));
    }
  }

  class Layer {
    const log: EffectLog<Snap>
    const setup: Setup
    var files: map<nat, OpenFile>
    var nextFd: nat
    var brkCurrent: nat
    var brkMapped: nat
    var mmapNext: nat
    /** What the layer held just before each entry. */
    ghost var past: seq<Held>
    /** Every file object there ever was. */
    ghost var known: set<OpenFile>

    ghost function Holding(): Held
      reads `files, `nextFd, `brkCurrent, `brkMapped, `mmapNext, files.Values
    {
      Held(
        map fd | fd in files :: View(files[fd]),
        nextFd, brkCurrent, brkMapped, mmapNext)
    }

    ghost predicate Ready()
      reads `files, `known, log, log.uc
    {
      && log.Valid() && log.uc.Valid()
      && files.Values <= known && Separate(files)
      && setup.brkBase % PAGE == 0 && setup.mmapBase % PAGE == 0
    }

    ghost predicate Valid()
      reads this, files.Values, log, log.uc
    {
      && Ready() && InBounds(setup, Holding()) && log.current == None
      && Remembered(log.entries, past, known)
    }

    /** Going back to this snapshot gives back exactly this. */
    ghost predicate Saved(snap: Snap, held: Held, known: set<OpenFile>) {
      Proper(snap) && snap.files.Values <= known && Meaning(snap) == held && InBounds(setup, held)
    }

    /** Going back to any entry's snapshot gives back what was held just before that entry. */
    ghost predicate Remembered(entries: seq<Effect<Snap>>, past: seq<Held>, known: set<OpenFile>) {
      && |past| == |entries|
      && (forall i :: 0 <= i < |past| ==> Saved(entries[i].before, past[i], known))
    }

    lemma RememberedCount(entries: seq<Effect<Snap>>, past: seq<Held>, known: set<OpenFile>)
      requires Remembered(entries, past, known)
      ensures |past| == |entries|
    {
    }

    lemma RememberedPlus(entries: seq<Effect<Snap>>, past: seq<Held>, known: set<OpenFile>, e: Effect<Snap>, held: Held,
                         known': set<OpenFile>)
      requires Remembered(entries, past, known) && known <= known' && Saved(e.before, held, known')
      ensures Remembered(entries + [e], past + [held], known')
    {
    }

    lemma RememberedPart(entries: seq<Effect<Snap>>, past: seq<Held>, known: set<OpenFile>, lo: nat, hi: nat)
      requires Remembered(entries, past, known) && lo <= hi <= |past|
      ensures Remembered(entries[lo..hi], past[lo..hi], known)
      ensures lo < |past| ==> Saved(entries[lo].before, past[lo], known)
    {
    }

    constructor (timeline: Timeline, stdin: seq<Byte>, setup: Setup)
      requires timeline.uc.Valid() && setup.mmapBase % PAGE == 0 && setup.brkBase % PAGE == 0
      ensures Valid() && log.entries == [] && log.timeline == timeline && fresh(log) && fresh(known)
      ensures Holding() == Held(Streams(stdin), 3, setup.brkBase, setup.brkBase, setup.mmapBase)
    {
      hide WellFormed, Sorted, Indexes, Streams, Separate, View;
      log := new EffectLog<Snap>(timeline);
      this.setup := setup;
      var streams := OpenStreams(stdin);
      files := streams;
      nextFd, brkCurrent, brkMapped, mmapNext := 3, setup.brkBase, setup.brkBase, setup.mmapBase;
      past, known := [], streams.Values;
    }

    method Snapshot() returns (snap: Snap)
      requires Separate(files)
      ensures Proper(snap) && snap.files == files && Meaning(snap) == Holding()
    {
      snap := Snap(files, map fd | fd in files :: files[fd].offset, nextFd, brkCurrent, brkMapped, mmapNext);
    }

    /** Put a snapshot back, offsets and all. */
    method Restore(snap: Snap)
      requires Proper(snap)
      modifies `files, `nextFd, `brkCurrent, `brkMapped, `mmapNext, snap.files.Values
      ensures files == snap.files && Holding() == Meaning(snap)
    {
      files := snap.files;
      var todo := snap.offsets.Keys;
      while todo != {}
        invariant files == snap.files && todo <= snap.offsets.Keys
        invariant forall fd :: fd in files && fd !in todo ==> files[fd].offset == snap.offsets[fd]
      {
        var fd :| fd in todo;
        files[fd].offset := snap.offsets[fd];
        todo := todo - {fd};
      }
      nextFd, brkCurrent, brkMapped, mmapNext := snap.nextFd, snap.brkCurrent, snap.brkMapped, snap.mmapNext;
    }

    /** Move one file's offset. */
    method Seek(fd: nat, offset: nat)
      requires fd in files && Separate(files)
      modifies files[fd]
      ensures files[fd].offset == offset
      ensures Holding() ==
        old(Holding()).(files := old(Holding()).files[fd := old(Holding()).files[fd].(offset := offset)])
    {
      files[fd].offset := offset;
    }

    /** Write bytes for the program. */
    method WriteMem(address: nat, data: seq<Byte>, ghost m: State, ghost acts: seq<Act>)
      returns (ok: bool, ghost acts': seq<Act>)
      requires log.Valid() && log.uc.Valid() && log.Recorded(m, acts)
      modifies log`current, log.uc, log.timeline`dirty
      ensures log.Valid() && log.uc.Valid() && log.Recorded(m, acts') && SameCall(old(log.current), log.current)
      ensures OnlyAdds(acts) ==> OnlyAdds(acts')
      ensures ok <==> data == [] || MemWrite(old(log.uc.st), address, data).Some?
      ensures log.uc.st == if data != [] && ok then MemWrite(old(log.uc.st), address, data).value else old(log.uc.st)
    {
      hide Effect.Carries, Succeed, DoAll, Sorted, Indexes, MemWrite, WellFormed;
      if data == [] {
        return true, acts;
      }
      ok, acts' := log.Record(Act.Write(address, data), m, acts);
    }

    /** Read from a file at its offset; the offset moves on even when the buffer is not mapped. */
    method Read(fd: nat, buffer: nat, count: nat, ghost m: State, ghost acts: seq<Act>)
      returns (r: Answer, ghost acts': seq<Act>)
      requires Ready() && log.Recorded(m, acts) && OnlyAdds(acts)
      modifies files.Values, log`current, log.uc, log.timeline`dirty
      ensures Ready() && log.Recorded(m, acts') && SameCall(old(log.current), log.current) && OnlyAdds(acts')
      ensures ReadTurn(old(Holding()), old(log.uc.st), fd, buffer, count) == Turn(Holding(), r, log.uc.st, [])
    {
      hide Effect.Carries, Succeed, DoAll, Sorted, Indexes, MemWrite, WellFormed, Slice;
      acts' := acts;
      if fd !in files || files[fd].writable {
        return Failed(EBADF), acts;
      }
      var data := Slice(files[fd].data, files[fd].offset, count);
      Seek(fd, files[fd].offset + |data|);
      var ok;
      ok, acts' := WriteMem(buffer, data, m, acts);
      r := if ok then Ok(|data|) else Failed(EFAULT);
    }

    /** Hand bytes to a stream; they are written down so that they are not produced again. */
    method Write(fd: nat, buffer: nat, count: nat, ghost m: State, ghost acts: seq<Act>) returns (r: Answer)
      requires Ready() && log.Recorded(m, acts)
      modifies log`current
      ensures Ready() && log.Recorded(m, acts)
      ensures var t := WriteTurn(Holding(), log.uc.st, fd, buffer, count);
        && t == Turn(Holding(), r, log.uc.st, t.output)
        && Outputs(old(log.current), log.current, t.output)
    {
      hide Sorted, Indexes, WellFormed, Effect.Carries, DoAll, Succeed, Touched, ByteAt;
      if fd !in files || !files[fd].writable {
        return Failed(EBADF);
      }
      var data: Option<seq<Byte>> :=
        if count == 0 then Some([]) else if count <= MAX_TRANSFER then MemRead(log.uc.st, buffer, count) else None;
      if data.None? {
        return Failed(EFAULT);
      }
      OutputIsNoAct(log.current.value, acts, log.current.value.output + [(fd, data.value)]);
      log.Output(fd, data.value);
      r := Ok(|data.value|);
    }

    method Lseek(fd: nat, offset: int, whence: Whence) returns (r: Answer)
      requires Ready()
      modifies files.Values
      ensures Ready()
      ensures LseekTurn(old(Holding()), log.uc.st, fd, offset, whence) == Turn(Holding(), r, log.uc.st, [])
    {
      hide Sorted, Indexes, WellFormed;
      if fd !in files {
        return Failed(EBADF);
      }
      var f := files[fd];
      if f.writable {
        return Failed(ESPIPE);
      }
      var pos;
      match whence {
        case Set => pos := offset;
        case Cur => pos := f.offset + offset;
        case End => pos := |f.data| + offset;
        case Other => return Failed(EINVAL);
      }
      if pos < 0 {
        return Failed(EINVAL);
      }
      Seek(fd, pos);
      r := Ok(pos);
    }

    /** Open a file the layer was given, under a descriptor of its own. */
    method Open(path: string) returns (r: Answer)
      requires Ready()
      modifies `files, `nextFd, `known
      ensures Ready() && old(known) <= known && fresh(known - old(known))
      ensures OpenTurn(setup, old(Holding()), log.uc.st, path) == Turn(Holding(), r, log.uc.st, [])
    {
      hide Sorted, Indexes, WellFormed;
      if path !in setup.contents {
        return Failed(ENOENT);
      }
      var f := new OpenFile(path, setup.contents[path], false);
      var fd := nextFd;
      files := files[fd := f];
      nextFd := nextFd + 1;
      known := known + {f};
      assert Holding().files == old(Holding()).files[fd := View(f)] by {
        assert files.Keys == old(files).Keys + {fd};
      }
      r := Ok(fd);
    }

    /** Close a descriptor; closing a standard stream does nothing. */
    method Close(fd: nat) returns (r: Answer)
      requires Ready()
      modifies `files
      ensures Ready()
      ensures CloseTurn(old(Holding()), log.uc.st, fd) == Turn(Holding(), r, log.uc.st, [])
    {
      hide Sorted, Indexes, WellFormed;
      if fd !in files {
        return Failed(EBADF);
      }
      if fd > 2 {
        files := files - {fd};
      }
      r := Ok(0);
    }

    /** The next unused stretch of the mapping arena. */
    method FreeSpan(size: nat) returns (start: Option<nat>)
      modifies `mmapNext
      ensures start == if old(mmapNext) + PageUp(size) > setup.mmapBase + setup.mmapSize then None
        else Some(old(mmapNext))
      ensures mmapNext == if start.Some? then start.value + PageUp(size) else old(mmapNext)
    {
      if mmapNext + PageUp(size) > setup.mmapBase + setup.mmapSize {
        return None;
      }
      start := Some(mmapNext);
      mmapNext := mmapNext + PageUp(size);
    }

    /** Map zeroed pages at this address, then copy a file in when one is given. */
    method MapAt(start: nat, size: nat, source: Option<nat>, ghost m: State, ghost acts: seq<Act>)
      returns (r: Answer, ghost acts': seq<Act>)
      requires Ready() && log.Recorded(m, acts) && OnlyAdds(acts) && size >= PAGE
      modifies log`current, log.uc, log.timeline`dirty
      ensures Ready() && log.Recorded(m, acts') && SameCall(old(log.current), log.current) && OnlyAdds(acts')
      ensures MapTurn(Holding(), old(log.uc.st), start, size, source) == Turn(Holding(), r, log.uc.st, [])
    {
      hide Effect.Carries, Succeed, DoAll, Sorted, Indexes, WellFormed, MemWrite, MemMap, Separate, Slice;
      var ok;
      ok, acts' := log.Record(Act.Map(Span(start / PAGE, (start + size) / PAGE - 1)), m, acts);
      if !ok {
        return Failed(ENOMEM), acts';
      }
      if source.Some? {
        if source.value !in files {
          return Failed(EBADF), acts';
        }
        ok, acts' := WriteMem(start, Slice(files[source.value].data, 0, size), m, acts');
        if !ok {
          return Failed(EFAULT), acts';
        }
      }
      r := Ok(start);
    }

    /**
     Map memory for the program.  Pages asked for by address are left alone when one region has them
     all already; otherwise they come from the arena.
     */
    method Mmap(address: nat, length: nat, fixed: bool, source: Option<nat>, ghost m: State, ghost acts: seq<Act>)
      returns (r: Answer, ghost acts': seq<Act>)
      requires Ready() && log.Recorded(m, acts) && OnlyAdds(acts)
      modifies `mmapNext, log`current, log.uc, log.timeline`dirty
      ensures Ready() && log.Recorded(m, acts') && SameCall(old(log.current), log.current) && OnlyAdds(acts')
      ensures MmapTurn(setup, old(Holding()), old(log.uc.st), address, length, fixed, source) ==
        Turn(Holding(), r, log.uc.st, [])
    {
      hide Effect.Carries, Succeed, DoAll, Sorted, Indexes, WellFormed, MapTurn, Separate;
      acts' := acts;
      if length == 0 {
        return Failed(EINVAL), acts;
      }
      var size := PageUp(length);
      var start: nat;
      if fixed && address > 0 {
        start := PageDown(address);
        if HasRegion(log.uc.st, start, start + size) {
          return Ok(start), acts;
        }
      } else {
        var found := FreeSpan(size);
        if found.None? {
          return Failed(ENOMEM), acts;
        }
        start := found.value;
      }
      assert Holding() == old(Holding()).(mmapNext := mmapNext);
      r, acts' := MapAt(start, size, source, m, acts);
    }

    method Munmap(address: nat, length: nat, ghost m: State) returns (r: Answer, ghost acts': seq<Act>)
      requires Ready() && log.Recorded(m, [])
      modifies log`current, log.uc, log.timeline`dirty
      ensures Ready() && log.Recorded(m, acts') && SameCall(old(log.current), log.current) && OnlyUnmaps(acts')
      ensures MunmapTurn(Holding(), old(log.uc.st), address, length) == Turn(Holding(), r, log.uc.st, [])
    {
      hide Effect.Carries, Succeed, DoAll, Sorted, Indexes, WellFormed, Cut, Separate;
      acts' := [];
      var start := PageDown(address);
      var size := PageUp(length + (address - start));
      if size == 0 {
        return Failed(EINVAL), [];
      }
      var ok;
      ok, acts' := log.Record(Act.Unmap(Span(start / PAGE, (start + size) / PAGE - 1)), m, []);
      r := if ok then Ok(0) else Failed(EINVAL);
    }

    /** Move the program break; a request that cannot be met answers the old one. */
    method Brk(want: nat, ghost m: State, ghost acts: seq<Act>) returns (r: Answer, ghost acts': seq<Act>)
      requires Ready() && log.Recorded(m, acts) && OnlyAdds(acts) && brkMapped % PAGE == 0
      modifies `brkCurrent, `brkMapped, log`current, log.uc, log.timeline`dirty
      ensures Ready() && log.Recorded(m, acts') && SameCall(old(log.current), log.current) && OnlyAdds(acts')
      ensures BrkTurn(setup, old(Holding()), old(log.uc.st), want) == Turn(Holding(), r, log.uc.st, [])
    {
      hide Effect.Carries, Succeed, DoAll, Sorted, Indexes, WellFormed, Separate;
      acts' := acts;
      if want == 0 || want < setup.brkBase || want > setup.brkBase + setup.brkSize {
        return Ok(brkCurrent), acts;
      }
      var top := PageUp(want);
      if top > brkMapped {
        var ok;
        ok, acts' := log.Record(Act.Map(Span(brkMapped / PAGE, top / PAGE - 1)), m, acts);
        if !ok {
          return Ok(brkCurrent), acts';
        }
        brkMapped := top;
      }
      brkCurrent := want;
      r := Ok(want);
    }

    /** The calls about memory, which leave every file as it is. */
    method ServeMemory(call: SystemCall, ghost m: State) returns (r: Answer, ghost acts: seq<Act>)
      requires Ready() && InBounds(setup, Holding()) && log.Recorded(m, []) && (call.Mmap? || call.Munmap? || call.Brk?)
      modifies `brkCurrent, `brkMapped, `mmapNext, log`current, log.uc, log.timeline`dirty
      ensures Ready() && log.Recorded(m, acts)
      ensures OnlyAdds(acts) || OnlyUnmaps(acts)
      ensures var t := TurnOf(setup, old(Holding()), old(log.uc.st), call);
        t == Turn(Holding(), r, log.uc.st, t.output) && Outputs(old(log.current), log.current, t.output)
    {
      hide Effect.Carries, Succeed, DoAll, Sorted, Indexes, WellFormed, Separate, View, BrkTurn, MmapTurn, MunmapTurn;
      acts := [];
      match call {
        case Mmap(address, length, fixed, source) => r, acts := Mmap(address, length, fixed, source, m, acts);
        case Munmap(address, length) => r, acts := Munmap(address, length, m);
        case Brk(want) => r, acts := Brk(want, m, acts);
      }
    }

    /** The calls about files, which map and unmap nothing. */
    method ServeFiles(call: SystemCall, ghost m: State) returns (r: Answer, ghost acts: seq<Act>)
      requires Ready() && InBounds(setup, Holding()) && log.Recorded(m, [])
      requires call.Read? || call.Write? || call.Lseek? || call.Open? || call.Close?
      modifies `files, `nextFd, `known, files.Values, log`current, log.uc, log.timeline`dirty
      ensures Ready() && log.Recorded(m, acts)
      ensures old(known) <= known && fresh(known - old(known)) && OnlyAdds(acts)
      ensures var t := TurnOf(setup, old(Holding()), old(log.uc.st), call);
        t == Turn(Holding(), r, log.uc.st, t.output) && Outputs(old(log.current), log.current, t.output)
    {
      hide Effect.Carries, Succeed, DoAll, Sorted, Indexes, WellFormed, Separate, View, ReadTurn, WriteTurn, LseekTurn,
        OpenTurn, CloseTurn;
      acts := [];
      match call {
        case Read(fd, buffer, count) => r, acts := Read(fd, buffer, count, m, acts);
        case Write(fd, buffer, count) => r := Write(fd, buffer, count, m, acts);
        case Lseek(fd, offset, whence) => r := Lseek(fd, offset, whence);
        case Open(path) => r := Open(path);
        case Close(fd) => r := Close(fd);
      }
    }

    method Serve(call: SystemCall, ghost m: State) returns (r: Answer, ghost acts: seq<Act>)
      requires Ready() && InBounds(setup, Holding()) && log.Recorded(m, [])
      modifies `files, `nextFd, `brkCurrent, `brkMapped, `mmapNext, `known, files.Values, log`current, log.uc,
        log.timeline`dirty
      ensures Ready() && log.Recorded(m, acts)
      ensures old(known) <= known && fresh(known - old(known))
      ensures OnlyAdds(acts) || OnlyUnmaps(acts)
      ensures var t := TurnOf(setup, old(Holding()), old(log.uc.st), call);
        t == Turn(Holding(), r, log.uc.st, t.output) && Outputs(old(log.current), log.current, t.output)
    {
      hide Effect.Carries, Succeed, DoAll, Sorted, Indexes, WellFormed, Separate, View, BrkTurn, MmapTurn, MunmapTurn,
        ReadTurn, WriteTurn, LseekTurn, OpenTurn, CloseTurn;
      if call == Unknown {
        return Failed(ENOSYS), [];
      }
      if call.Mmap? || call.Munmap? || call.Brk? {
        r, acts := ServeMemory(call, m);
      } else {
        r, acts := ServeFiles(call, m);
      }
    }

    /** Serve the call and put the result where the program looks for it. */
    method Answer(call: SystemCall, result: string, modulus: nat, ghost m: State)
      returns (r: Answer, ghost acts: seq<Act>)
      requires Ready() && InBounds(setup, Holding()) && log.Recorded(m, []) && modulus > 0
      modifies `files, `nextFd, `brkCurrent, `brkMapped, `mmapNext, `known, files.Values, log`current, log.uc,
        log.timeline`dirty
      ensures Ready() && log.Recorded(m, acts) && OneWay(acts)
      ensures old(known) <= known && fresh(known - old(known))
      ensures var t := TurnOf(setup, old(Holding()), old(log.uc.st), call);
        && t.held == Holding() && t.answer == r && Outputs(old(log.current), log.current, t.output)
        && log.uc.st == RegWrite(t.m, result, Encoded(r, modulus))
    {
      hide Effect.Carries, Succeed, DoAll, Sorted, Indexes, WellFormed, Separate, View, InBounds, Encoded, TurnOf,
        OneWay;
      r, acts := Serve(call, m);
      var ok;
      OneWayWithResult(acts, SetReg(result, Encoded(r, modulus)));
      ok, acts := log.Record(SetReg(result, Encoded(r, modulus)), m, acts);
    }

    /** Collect everything the call does, and the result the program sees, into one entry. */
    method Record(icount: nat, call: SystemCall, result: string, modulus: nat) returns (r: Answer)
      requires Ready() && InBounds(setup, Holding()) && modulus > 0
      requires forall i :: 0 <= i < |log.entries| ==> log.entries[i].icount < icount
      modifies `files, `nextFd, `brkCurrent, `brkMapped, `mmapNext, `known, files.Values, log, log.uc,
        log.timeline`dirty
      ensures Ready() && log.current == None && |log.entries| == |old(log.entries)| + 1
      ensures log.entries[..|old(log.entries)|] == old(log.entries)
      ensures old(known) <= known && fresh(known - old(known))
      ensures var e := log.entries[|old(log.entries)|];
        && e.icount == icount && DoAll(old(log.uc.st), e.AsActs()) == log.uc.st
        && Proper(e.before) && e.before.files == old(files) && Meaning(e.before) == old(Holding())
        && var t := TurnOf(setup, old(Holding()), old(log.uc.st), call);
           t.held == Holding() && t.answer == r && t.output == e.output &&
             log.uc.st == RegWrite(t.m, result, Encoded(r, modulus))
    {
      hide Effect.Carries, Succeed, DoAll, Sorted, Indexes, WellFormed, Separate, View, InBounds, Encoded, TurnOf,
        OneWay;
      ghost var m := log.uc.st;
      var snap := Snapshot();
      log.Begin(icount, snap);
      BlankCarriesNothing(icount, snap);
      SucceedNone(m);
      ghost var acts;
      r, acts := Answer(call, result, modulus, m);
      EntryReplays(m, acts, log.current.value);
      log.End();
    }

    /** Answer one system call. */
    method Call(icount: nat, call: SystemCall, result: string, modulus: nat) returns (r: Answer)
      requires Valid() && modulus > 0 && forall i :: 0 <= i < |log.entries| ==> log.entries[i].icount < icount
      modifies this, files.Values, log, log.uc, log.timeline`dirty
      ensures Valid() && past == old(past) + [old(Holding())]
      ensures old(known) <= known && fresh(known - old(known))
      ensures |log.entries| == |old(log.entries)| + 1 && log.entries[..|old(log.entries)|] == old(log.entries)
      ensures var e := log.entries[|old(log.entries)|];
        && e.icount == icount && DoAll(old(log.uc.st), e.AsActs()) == log.uc.st
        && var t := TurnOf(setup, old(Holding()), old(log.uc.st), call);
           t.held == Holding() && t.answer == r && t.output == e.output &&
             log.uc.st == RegWrite(t.m, result, Encoded(r, modulus))
    {
      hide DoAll, Sorted, Indexes, WellFormed, Separate, View, InBounds, Remembered, Meaning, TurnOf;
      ghost var held, entries, known0 := Holding(), log.entries, known;
      TurnKeepsBounds(setup, Holding(), log.uc.st, call);
      r := Record(icount, call, result, modulus);
      RememberedPlus(entries, past, known0, log.entries[|entries|], held, known);
      assert log.entries == entries + [log.entries[|entries|]];
      past := past + [held];
    }

    /** Take the layer back along with the machine: the calls from instruction k on never were. */
    method Rewind(k: nat, ghost n: nat)
      requires Valid() && SplitsAt(log.entries, k, n)
      modifies this, known, log`entries, log`byIcount
      ensures Valid() && known == old(known)
      ensures log.entries == old(log.entries)[..n] && past == old(past)[..n]
      ensures Holding() == if n < |old(past)| then old(past)[n] else old(Holding())
    {
      hide DoAll, Sorted, Indexes, WellFormed, Separate, View, InBounds, Remembered, Meaning;
      RememberedCount(log.entries, past, known);
      RememberedPart(log.entries, past, known, 0, n);
      RememberedPart(log.entries, past, known, n, n);
      assert log.entries[0..n] == log.entries[..n] && past[0..n] == past[..n];
      var before := log.Truncate(k, n);
      if before.Some? {
        Restore(before.value);
      }
      past := past[..n];
    }

    /** Forget the calls from before the history. */
    method Prune(earliest: nat, ghost n: nat)
      requires Valid() && SplitsAt(log.entries, earliest, n)
      modifies `past, log`entries, log`byIcount
      ensures Valid() && Holding() == old(Holding())
      ensures log.entries == old(log.entries)[n..] && past == old(past)[n..]
    {
      hide DoAll, Sorted, Indexes, WellFormed, Separate, View, InBounds, Remembered, Meaning;
      RememberedCount(log.entries, past, known);
      RememberedPart(log.entries, past, known, n, |past|);
      assert log.entries[n..|past|] == log.entries[n..] && past[n..|past|] == past[n..];
      var cut, oldest := log.ForgetBefore(earliest, n);
      past := past[n..];
    }

  }
}
