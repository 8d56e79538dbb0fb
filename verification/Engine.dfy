/** The engine object that the recorder, the effect log and the debugger target all share. */
module Engine {
  import opened Machine

  class Uc {
    var st: State
    /** Bytes one saved register context takes. */
    const contextSize: nat

    ghost predicate Valid()
      reads this
    {
      WellFormed(st)
    }

    constructor (st: State, contextSize: nat)
      requires WellFormed(st)
      ensures Valid() && this.st == st && this.contextSize == contextSize
    {
      this.st := st;
      this.contextSize := contextSize;
    }

    method Map(span: Span) returns (ok: bool)
      requires Valid()
      modifies this
      ensures Valid()
      ensures ok == MemMap(old(st), span).Some?
      ensures st == if ok then MemMap(old(st), span).value else old(st)
    {
      var r := MemMap(st, span);
      ok := r.Some?;
      if ok {
        MapKeepsWellFormed(st, span);
        st := r.value;
      }
    }

    method Unmap(span: Span) returns (ok: bool)
      requires Valid()
      modifies this
      ensures Valid()
      ensures ok == MemUnmap(old(st), span).Some?
      ensures st == if ok then MemUnmap(old(st), span).value else old(st)
    {
      var r := MemUnmap(st, span);
      ok := r.Some?;
      if ok {
        UnmapKeepsWellFormed(st, span);
        st := r.value;
      }
    }

    method Write(address: nat, data: seq<Byte>) returns (ok: bool)
      requires Valid()
      modifies this
      ensures Valid()
      ensures ok == MemWrite(old(st), address, data).Some?
      ensures st == if ok then MemWrite(old(st), address, data).value else old(st)
    {
      var r := MemWrite(st, address, data);
      ok := r.Some?;
      if ok {
        st := r.value;
      }
    }

    method SetReg(name: string, value: int)
      requires Valid()
      modifies this
      ensures Valid()
      ensures st == RegWrite(old(st), name, value)
    {
      st := RegWrite(st, name, value);
    }

    method ContextRestore(ctx: Context)
      requires Valid()
      modifies this
      ensures Valid()
      ensures st == old(st).(ctx := ctx)
    {
      st := st.(ctx := ctx);
    }
  }
}
