/**
 The system-call layer as one of the layers the target runs a program with: everything said of a
 target and an arbitrary layer holds of a target and this one.
 */
module Services {
  import opened Options
  import opened Machine
  import opened Acts
  import opened Runs
  import opened Syscalls

  /** How a program asks: what it asks for, and where and how wide the answer goes. */
  datatype Abi = Abi(decode: State -> SystemCall, result: string, modulus: nat)

  /** What the layer does to the machine for a call, refused or not. */
  function Steps(setup: Setup, h: Held, m: State, call: SystemCall): seq<Act> {
    match call
    case Read(fd, buffer, count) =>
      if fd in h.files && !h.files[fd].writable
      then [Act.Write(buffer, Slice(h.files[fd].data, h.files[fd].offset, count))] else []
    case Mmap(address, length, fixed, source) =>
      if length == 0 then []
      else if fixed && address > 0 then
        if HasRegion(m, PageDown(address), PageDown(address) + PageUp(length)) then []
        else MapSteps(h, m, PageDown(address), PageUp(length), source)
      else if h.mmapNext + PageUp(length) > setup.mmapBase + setup.mmapSize then []
      else MapSteps(h, m, h.mmapNext, PageUp(length), source)
    case Munmap(address, length) =>
      var start := PageDown(address);
      var size := PageUp(length + (address - start));
      if size == 0 then [] else [Act.Unmap(Span(start / PAGE, (start + size) / PAGE - 1))]
    case Brk(want) =>
      if want < setup.brkBase || want > setup.brkBase + setup.brkSize || want == 0 ||
        PageUp(want) <= h.brkMapped then []
      else [Act.Map(Span(h.brkMapped / PAGE, PageUp(want) / PAGE - 1))]
    case _ => []
  }

  function MapSteps(h: Held, m: State, start: nat, size: nat, source: Option<nat>): seq<Act>
    requires size >= PAGE
  {
    var map' := Act.Map(Span(start / PAGE, (start + size) / PAGE - 1));
    if Try(m, map').None? || source.None? || source.value !in h.files then [map']
    else [map', Act.Write(start, Slice(h.files[source.value].data, 0, size))]
  }

  /** The layer as the target sees it. */
  function Serve(setup: Setup, abi: Abi): (State, Held) -> Reply<Held>
    requires abi.modulus > 0
  {
    (m: State, h: Held) =>
      var call := abi.decode(m);
      var t := TurnOf(setup, h, m, call);
      Reply(Steps(setup, h, m, call) + [SetReg(abi.result, Encoded(t.answer, abi.modulus))], t.held, None)
  }

  lemma StepsGive(setup: Setup, h: Held, m: State, call: SystemCall)
    ensures DoAll(m, Steps(setup, h, m, call)) == TurnOf(setup, h, m, call).m
    ensures OnlyAdds(Steps(setup, h, m, call)) || OnlyUnmaps(Steps(setup, h, m, call))
  {
    hide MemMap, MemWrite, MemUnmap, MemRead, Slice, HasRegion, ReadTurn, MmapTurn, MunmapTurn, BrkTurn;
    match call
    case Read(fd, buffer, count) => ReadStepsGive(setup, h, m, fd, buffer, count);
    case Mmap(address, length, fixed, source) => MmapStepsGive(setup, h, m, address, length, fixed, source);
    case Munmap(address, length) => MunmapStepsGive(setup, h, m, address, length);
    case Brk(want) => BrkStepsGive(setup, h, m, want);
    case _ =>
  }

  lemma ReadStepsGive(setup: Setup, h: Held, m: State, fd: nat, buffer: nat, count: nat)
    ensures var steps := Steps(setup, h, m, SystemCall.Read(fd, buffer, count));
      DoAll(m, steps) == ReadTurn(h, m, fd, buffer, count).m && OnlyAdds(steps)
  {
    hide MemWrite, Slice;
    if fd in h.files && !h.files[fd].writable {
      OneAct(m, Act.Write(buffer, Slice(h.files[fd].data, h.files[fd].offset, count)));
    }
  }

  lemma MmapStepsGive(setup: Setup, h: Held, m: State, address: nat, length: nat, fixed: bool, source: Option<nat>)
    ensures var steps := Steps(setup, h, m, SystemCall.Mmap(address, length, fixed, source));
      DoAll(m, steps) == MmapTurn(setup, h, m, address, length, fixed, source).m && OnlyAdds(steps)
  {
    hide HasRegion, MapTurn, MapSteps;
    if length > 0 {
      MapStepsGive(h, m, PageDown(address), PageUp(length), source);
      MapStepsGive(h.(mmapNext := h.mmapNext + PageUp(length)), m, h.mmapNext, PageUp(length), source);
      SameSteps(h, h.(mmapNext := h.mmapNext + PageUp(length)), m, h.mmapNext, PageUp(length), source);
    }
  }

  lemma SameSteps(h: Held, h': Held, m: State, start: nat, size: nat, source: Option<nat>)
    requires size >= PAGE && h.files == h'.files
    ensures MapSteps(h, m, start, size, source) == MapSteps(h', m, start, size, source)
  {
  }

  lemma MunmapStepsGive(setup: Setup, h: Held, m: State, address: nat, length: nat)
    ensures var steps := Steps(setup, h, m, SystemCall.Munmap(address, length));
      DoAll(m, steps) == MunmapTurn(h, m, address, length).m && OnlyUnmaps(steps)
  {
    hide MemUnmap;
    var start := PageDown(address);
    var size := PageUp(length + (address - start));
    if size > 0 {
      OneAct(m, Act.Unmap(Span(start / PAGE, (start + size) / PAGE - 1)));
    }
  }

  lemma BrkStepsGive(setup: Setup, h: Held, m: State, want: nat)
    ensures var steps := Steps(setup, h, m, SystemCall.Brk(want));
      DoAll(m, steps) == BrkTurn(setup, h, m, want).m && OnlyAdds(steps)
  {
    hide MemMap;
    if want >= setup.brkBase && PageUp(want) > h.brkMapped {
      OneAct(m, Act.Map(Span(h.brkMapped / PAGE, PageUp(want) / PAGE - 1)));
    }
  }

  lemma MapStepsGive(h: Held, m: State, start: nat, size: nat, source: Option<nat>)
    requires size >= PAGE
    ensures DoAll(m, MapSteps(h, m, start, size, source)) == MapTurn(h, m, start, size, source).m
    ensures OnlyAdds(MapSteps(h, m, start, size, source))
  {
    hide MemMap, MemWrite, Slice;
    var map' := Act.Map(Span(start / PAGE, (start + size) / PAGE - 1));
    OneAct(m, map');
    if Try(m, map').Some? && source.Some? && source.value in h.files {
      var write := Act.Write(start, Slice(h.files[source.value].data, 0, size));
      assert [map', write][..1] == [map'];
    }
  }

  lemma OneAct(m: State, a: Act)
    ensures DoAll(m, [a]) == Do(m, a)
  {
    assert [a][..0] == [];
  }

  /** One call, answered by the layer the target sees, is the turn and then its result. */
  lemma ServeIsTurn(setup: Setup, abi: Abi, m: State, h: Held)
    requires abi.modulus > 0
    ensures var t := TurnOf(setup, h, m, abi.decode(m));
      var reply := Serve(setup, abi)(m, h);
      && reply.layer == t.held
      && DoAll(m, reply.acts) == RegWrite(t.m, abi.result, Encoded(t.answer, abi.modulus))
      && OneWay(reply.acts)
  {
    hide Steps, TurnOf, Encoded, OneWay, DoAll, MemMap, MemWrite, MemUnmap;
    var call := abi.decode(m);
    var result := SetReg(abi.result, Encoded(TurnOf(setup, h, m, call).answer, abi.modulus));
    StepsGive(setup, h, m, call);
    OneWayWithResult(Steps(setup, h, m, call), result);
    DoAllSplit(m, Steps(setup, h, m, call), [result]);
    OneAct(TurnOf(setup, h, m, call).m, result);
  }

  /** Any processor with this layer is one the target can go back in. */
  lemma ServedOrderly(exec: State -> Outcome, setup: Setup, abi: Abi)
    requires abi.modulus > 0 && forall m: State :: m.spans == {} ==> exec(m) == Fault(true)
    ensures Orderly(Cpu(exec, Serve(setup, abi)))
  {
    forall m, h
      ensures OneWay(Serve(setup, abi)(m, h).acts)
    {
      ServeIsTurn(setup, abi, m, h);
    }
  }

  /**
   Once the call is answered the program runs on where the trap left the program counter, with the result
   in its register.
   */
  lemma ServedPastTrap(exec: State -> Outcome, setup: Setup, abi: Abi, w: World<Held>)
    requires abi.modulus > 0 && abi.result != PC && exec(w.m).Service?
    ensures var next := Next(Cpu(exec, Serve(setup, abi)), w).m;
      && next.ctx.Pc() == exec(w.m).asked.Pc()
      && abi.result in next.ctx.regs && next.ctx.regs[abi.result] ==
           Encoded(TurnOf(setup, w.layer, w.m.(ctx := exec(w.m).asked),
             abi.decode(w.m.(ctx := exec(w.m).asked))).answer, abi.modulus)
  {
    hide TurnOf, Encoded, DoAll, Steps;
    var m := w.m.(ctx := exec(w.m).asked);
    ServeIsTurn(setup, abi, m, w.layer);
    TurnKeepsContext(setup, w.layer, m, abi.decode(m));
  }

  lemma TurnKeepsContext(setup: Setup, h: Held, m: State, call: SystemCall)
    ensures TurnOf(setup, h, m, call).m.ctx == m.ctx
  {
  }
}
