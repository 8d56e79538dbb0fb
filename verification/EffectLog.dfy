/** The record of what one service layer did, and how to put it back without doing it again. */
module EffectLogs {
  import opened Options
  import opened Machine
  import opened Engine
  import opened Acts
  import opened Timelines

  /** Everything one call changed, by kind, and the layer's own state just before it. */
  datatype Effect<S> = Effect(
    icount: nat,
    maps: seq<Span>,
    unmaps: seq<Span>,
    writes: seq<(nat, seq<Byte>)>,
    regs: seq<(string, int)>,
    output: seq<(nat, seq<Byte>)>,
    stop: Option<(string, string)>,
    before: S)
  {
    function Noted(a: Act): (e: Effect<S>)
      ensures e.icount == icount && e.before == before && e.output == output && e.stop == stop
    {
      match a
      case Map(span) => this.(maps := maps + [span])
      case Unmap(span) => this.(unmaps := unmaps + [span])
      case Write(address, data) => this.(writes := writes + [(address, data)])
      case SetReg(name, value) => this.(regs := regs + [(name, value)])
    }

    /** The order in which a replay does what is written down. */
    function AsActs(): seq<Act> {
      AsMaps(maps) + AsUnmaps(unmaps) + AsWrites(writes) + AsRegs(regs)
    }

    /** This is what `acts` come to when they are written down by kind. */
    ghost predicate Carries(acts: seq<Act>) {
      && AsMaps(maps) == Of(acts, 0)
      && AsUnmaps(unmaps) == Of(acts, 1)
      && AsWrites(writes) == Of(acts, 2)
      && AsRegs(regs) == Of(acts, 3)
    }
  }

  function AsMaps(spans: seq<Span>): seq<Act> {
    seq(|spans|, i requires 0 <= i < |spans| => Map(spans[i]))
  }

  function AsUnmaps(spans: seq<Span>): seq<Act> {
    seq(|spans|, i requires 0 <= i < |spans| => Unmap(spans[i]))
  }

  function AsWrites(writes: seq<(nat, seq<Byte>)>): seq<Act> {
    seq(|writes|, i requires 0 <= i < |writes| => Write(writes[i].0, writes[i].1))
  }

  function AsRegs(regs: seq<(string, int)>): seq<Act> {
    seq(|regs|, i requires 0 <= i < |regs| => SetReg(regs[i].0, regs[i].1))
  }

  function Blank<S>(icount: nat, before: S): Effect<S> {
    Effect(icount, [], [], [], [], [], None, before)
  }

  lemma BlankCarriesNothing<S>(icount: nat, before: S)
    ensures Blank(icount, before).Carries([])
  {
  }

  lemma AsPlus(maps: seq<Span>, unmaps: seq<Span>, writes: seq<(nat, seq<Byte>)>, regs: seq<(string, int)>)
    ensures forall x :: AsMaps(maps + [x]) == AsMaps(maps) + [Map(x)]
    ensures forall x :: AsUnmaps(unmaps + [x]) == AsUnmaps(unmaps) + [Unmap(x)]
    ensures forall x :: AsWrites(writes + [x]) == AsWrites(writes) + [Write(x.0, x.1)]
    ensures forall x :: AsRegs(regs + [x]) == AsRegs(regs) + [SetReg(x.0, x.1)]
  {
  }

  lemma CarriesOneMore<S>(e: Effect<S>, acts: seq<Act>, a: Act)
    requires e.Carries(acts)
    ensures e.Noted(a).Carries(acts + [a])
  {
    hide AsMaps, AsUnmaps, AsWrites, AsRegs, Of;
    OfPlus(acts, a);
    AsPlus(e.maps, e.unmaps, e.writes, e.regs);
    match a
    case Map(span) => assert AsMaps(e.maps + [span]) == AsMaps(e.maps) + [a];
    case Unmap(span) => assert AsUnmaps(e.unmaps + [span]) == AsUnmaps(e.unmaps) + [a];
    case Write(address, data) => assert AsWrites(e.writes + [(address, data)]) == AsWrites(e.writes) + [a];
    case SetReg(name, value) => assert AsRegs(e.regs + [(name, value)]) == AsRegs(e.regs) + [a];
  }

  lemma CarriesGrouped<S>(e: Effect<S>, acts: seq<Act>)
    requires e.Carries(acts)
    ensures e.AsActs() == Grouped(acts)
  {
  }

  // ---- the entries of a log ----

  ghost predicate Sorted<S>(entries: seq<Effect<S>>) {
    forall i, j :: 0 <= i < j < |entries| ==> entries[i].icount < entries[j].icount
  }

  ghost predicate Indexes<S>(index: map<nat, Effect<S>>, entries: seq<Effect<S>>) {
    && (forall i :: 0 <= i < |entries| ==> entries[i].icount in index && index[entries[i].icount] == entries[i])
    && (forall k :: k in index ==> HasEntry(entries, k))
  }

  ghost predicate HasEntry<S>(entries: seq<Effect<S>>, k: nat) {
    exists i :: 0 <= i < |entries| && entries[i].icount == k
  }

  /** The first n entries are the ones before instruction k. */
  ghost predicate SplitsAt<S>(entries: seq<Effect<S>>, k: nat, n: nat) {
    && n <= |entries|
    && (forall i :: 0 <= i < n ==> entries[i].icount < k)
    && (forall i :: n <= i < |entries| ==> entries[i].icount >= k)
  }

  class EffectLog<S> {
    const uc: Uc
    const timeline: Timeline
    var entries: seq<Effect<S>>
    var byIcount: map<nat, Effect<S>>
    var current: Option<Effect<S>>

    ghost predicate Valid()
      reads this
    {
      && timeline.uc == uc
      && Sorted(entries)
      && Indexes(byIcount, entries)
    }

    constructor (timeline: Timeline)
      ensures Valid() && this.timeline == timeline && this.uc == timeline.uc
      ensures entries == [] && current == None
    {
      this.uc := timeline.uc;
      this.timeline := timeline;
      entries, byIcount, current := [], map[], None;
    }

    // ---- recording ----

    method Begin(icount: nat, before: S)
      requires Valid()
      modifies this`current
      ensures Valid() && current == Some(Blank(icount, before))
    {
      current := Some(Blank(icount, before));
    }

    /** Do one act, and write it down when it was not refused. */
    method Perform(a: Act) returns (ok: bool)
      requires Valid() && uc.Valid()
      modifies this`current, uc, timeline`dirty
      ensures Valid() && uc.Valid()
      ensures ok == Try(old(uc.st), a).Some? && uc.st == Do(old(uc.st), a)
      ensures current == if ok && old(current).Some? then Some(old(current).value.Noted(a)) else old(current)
      ensures timeline.dirty == old(timeline.dirty) + (if ok && timeline.enabled then WrittenPages([a]) else {})
    {
      OneWrite(a);
      match a {
        case Map(span) => ok := uc.Map(span);
        case Unmap(span) => ok := uc.Unmap(span);
        case Write(address, data) =>
          if data == [] {
            return false;
          }
          ok := uc.Write(address, data);
          if ok {
            timeline.NoteWrite(address, |data|);
          }
        case SetReg(name, value) =>
          uc.SetReg(name, value);
          ok := true;
      }
      if ok && current.Some? {
        current := Some(current.value.Noted(a));
      }
    }

    /** What this call has done to machine m so far is `acts`, all of it written down. */
    ghost predicate Recorded(m: State, acts: seq<Act>)
      reads this, uc
    {
      current.Some? && current.value.Carries(acts) && Succeed(m, acts) && uc.st == DoAll(m, acts)
    }

    /** Do one more act of a call that started in machine m. */
    method Record(a: Act, ghost m: State, ghost acts: seq<Act>) returns (ok: bool, ghost acts': seq<Act>)
      requires Valid() && uc.Valid() && Recorded(m, acts)
      modifies this`current, uc, timeline`dirty
      ensures Valid() && uc.Valid() && Recorded(m, acts') && SameCall(old(current), current)
      ensures ok == Try(old(uc.st), a).Some? && uc.st == Do(old(uc.st), a)
      ensures acts' == if ok then acts + [a] else acts
    {
      hide DoAll, Try, Effect.Carries, Sorted, Indexes, Succeed, WrittenPages;
      ok := Perform(a);
      acts' := if ok then acts + [a] else acts;
      if ok {
        CarriesOneMore(old(current).value, acts, a);
        SucceedOneMore(m, acts, a);
      }
    }

    method Output(stream: nat, data: seq<Byte>)
      requires Valid()
      modifies this`current
      ensures Valid()
      ensures current ==
        if old(current).Some?
        then Some(old(current).value.(output := old(current).value.output + [(stream, data)])) else None
    {
      if current.Some? {
        current := Some(current.value.(output := current.value.output + [(stream, data)]));
      }
    }

    method Stop(reason: string, description: string)
      requires Valid()
      modifies this`current
      ensures Valid()
      ensures current ==
        if old(current).Some? then Some(old(current).value.(stop := Some((reason, description)))) else None
    {
      if current.Some? {
        current := Some(current.value.(stop := Some((reason, description))));
      }
    }

    method End()
      requires Valid() && current.Some?
      modifies this
      ensures current == None && entries == old(entries) + [old(current).value]
      ensures (forall i :: 0 <= i < |old(entries)| ==> old(entries)[i].icount < old(current).value.icount) ==> Valid()
    {
      var e := current.value;
      if forall i :: 0 <= i < |entries| ==> entries[i].icount < e.icount {
        IndexesPlus(byIcount, entries, e);
      }
      current := None;
      entries := entries + [e];
      byIcount := byIcount[e.icount := e];
    }

    // ---- replaying ----

    method RedoMaps(maps: seq<Span>)
      requires uc.Valid()
      modifies uc
      ensures uc.Valid() && uc.st == DoAll(old(uc.st), AsMaps(maps))
    {
      hide DoAll;
      ghost var m, acts := uc.st, AsMaps(maps);
      DoNone(m, acts);
      for n := 0 to |maps|
        invariant uc.Valid()
        invariant uc.st == DoAll(m, acts[..n])
      {
        DoNext(m, acts, n);
        var _ := uc.Map(maps[n]);
      }
      assert acts[..|maps|] == acts;
    }

    method RedoUnmaps(unmaps: seq<Span>)
      requires uc.Valid()
      modifies uc
      ensures uc.Valid() && uc.st == DoAll(old(uc.st), AsUnmaps(unmaps))
    {
      hide DoAll;
      ghost var m, acts := uc.st, AsUnmaps(unmaps);
      DoNone(m, acts);
      for n := 0 to |unmaps|
        invariant uc.Valid()
        invariant uc.st == DoAll(m, acts[..n])
      {
        DoNext(m, acts, n);
        var _ := uc.Unmap(unmaps[n]);
      }
      assert acts[..|unmaps|] == acts;
    }

    method RedoWrites(writes: seq<(nat, seq<Byte>)>)
      requires uc.Valid()
      modifies uc
      ensures uc.Valid() && uc.st == DoAll(old(uc.st), AsWrites(writes))
    {
      hide DoAll;
      ghost var m, acts := uc.st, AsWrites(writes);
      DoNone(m, acts);
      for n := 0 to |writes|
        invariant uc.Valid()
        invariant uc.st == DoAll(m, acts[..n])
      {
        DoNext(m, acts, n);
        if writes[n].1 != [] {
          var _ := uc.Write(writes[n].0, writes[n].1);
        }
      }
      assert acts[..|writes|] == acts;
    }

    method RedoRegs(regs: seq<(string, int)>)
      requires uc.Valid()
      modifies uc
      ensures uc.Valid() && uc.st == DoAll(old(uc.st), AsRegs(regs))
    {
      hide DoAll;
      ghost var m, acts := uc.st, AsRegs(regs);
      DoNone(m, acts);
      for n := 0 to |regs|
        invariant uc.Valid()
        invariant uc.st == DoAll(m, acts[..n])
      {
        DoNext(m, acts, n);
        uc.SetReg(regs[n].0, regs[n].1);
      }
      assert acts[..|regs|] == acts;
    }

    /**
     Do again what is written down for instruction k.  The recorder is not told: no page is noted as
     written.
     */
    method Replay(k: nat) returns (effect: Option<Effect<S>>)
      requires Valid() && uc.Valid()
      modifies uc
      ensures uc.Valid()
      ensures effect == if k in byIcount then Some(byIcount[k]) else None
      ensures uc.st == if k in byIcount then DoAll(old(uc.st), byIcount[k].AsActs()) else old(uc.st)
    {
      hide DoAll;
      if k !in byIcount {
        return None;
      }
      var e := byIcount[k];
      ghost var m := uc.st;
      RedoMaps(e.maps);
      RedoUnmaps(e.unmaps);
      RedoWrites(e.writes);
      RedoRegs(e.regs);
      DoAllSplit(m, AsMaps(e.maps), AsUnmaps(e.unmaps));
      DoAllSplit(m, AsMaps(e.maps) + AsUnmaps(e.unmaps), AsWrites(e.writes));
      DoAllSplit(m, AsMaps(e.maps) + AsUnmaps(e.unmaps) + AsWrites(e.writes), AsRegs(e.regs));
      effect := Some(e);
    }

    // ---- forgetting ----

    /**
     Drop what has not happened yet at instruction k.  The answer is the layer state to put back:
     the one from before the oldest entry dropped, if any was.
     */
    method Truncate(k: nat, ghost n: nat) returns (restore: Option<S>)
      requires Valid() && SplitsAt(entries, k, n)
      modifies this`entries, this`byIcount
      ensures Valid()
      ensures entries == old(entries)[..n]
      ensures restore == if n < |old(entries)| then Some(old(entries)[n].before) else None
    {
      hide Indexes, Sorted;
      restore := None;
      ghost var all, m := entries, |entries|;
      assert all[..m] == all;
      while entries != [] && entries[|entries| - 1].icount >= k
        invariant Valid()
        invariant n <= m <= |all| && entries == all[..m]
        invariant restore == if m < |all| then Some(all[m].before) else None
        decreases |entries|
      {
        var e := entries[|entries| - 1];
        IndexesButLast(byIcount, all, m);
        m := m - 1;
        assert entries[..|entries| - 1] == all[..m];
        entries := entries[..|entries| - 1];
        byIcount := byIcount - {e.icount};
        restore := Some(e.before);
      }
    }

    /**
     Drop the entries from before the history.  The answer says whether anything went, and which is
     the oldest layer state still held.
     */
    method ForgetBefore(earliest: nat, ghost n: nat) returns (cut: bool, oldest: Option<S>)
      requires Valid() && SplitsAt(entries, earliest, n)
      modifies this`entries, this`byIcount
      ensures Valid()
      ensures entries == old(entries)[n..]
      ensures cut <==> n > 0
      ensures oldest == if entries != [] then Some(entries[0].before) else None
    {
      hide Indexes, Sorted;
      cut := false;
      ghost var all, m := entries, 0;
      assert all[m..] == all;
      while entries != [] && entries[0].icount < earliest
        invariant Valid()
        invariant 0 <= m <= n && entries == all[m..]
        invariant cut <==> m > 0
        decreases |entries|
      {
        var e := entries[0];
        IndexesButFirst(byIcount, all, m);
        m := m + 1;
        assert entries[1..] == all[m..];
        entries := entries[1..];
        byIcount := byIcount - {e.icount};
        cut := true;
      }
      oldest := if entries != [] then Some(entries[0].before) else None;
    }
  }

  /** The entry being written is still the same one, with only acts added to it. */
  ghost predicate SameCall<S>(a: Option<Effect<S>>, b: Option<Effect<S>>) {
    Outputs(a, b, []) && a.value.output == b.value.output
  }

  /** The entry being written is still the same one, with only acts and this output added to it. */
  ghost predicate Outputs<S>(a: Option<Effect<S>>, b: Option<Effect<S>>, output: seq<(nat, seq<Byte>)>) {
    && a.Some? && b.Some? && a.value.icount == b.value.icount && a.value.before == b.value.before
    && a.value.stop == b.value.stop && b.value.output == a.value.output + output
  }

  lemma SucceedNone(m: State)
    ensures Succeed(m, []) && DoAll(m, []) == m
  {
  }

  lemma SucceedOneMore(m: State, acts: seq<Act>, a: Act)
    requires Succeed(m, acts) && Try(DoAll(m, acts), a).Some?
    ensures Succeed(m, acts + [a]) && DoAll(m, acts + [a]) == Do(DoAll(m, acts), a)
  {
    assert (acts + [a])[..|acts|] == acts;
  }

  /** Doing again what the entry says gives the machine the call left. */
  lemma EntryReplays<S>(m: State, acts: seq<Act>, e: Effect<S>)
    requires WellFormed(m) && e.Carries(acts) && Succeed(m, acts) && OneWay(acts)
    ensures DoAll(m, e.AsActs()) == DoAll(m, acts)
  {
    CarriesGrouped(e, acts);
    OneWayIsTame(acts);
    Regroup(m, acts);
  }

  lemma DoNone(m: State, acts: seq<Act>)
    ensures DoAll(m, acts[..0]) == m
  {
    assert acts[..0] == [];
  }

  lemma IndexesPlus<S>(index: map<nat, Effect<S>>, entries: seq<Effect<S>>, e: Effect<S>)
    requires Indexes(index, entries) && forall i :: 0 <= i < |entries| ==> entries[i].icount < e.icount
    ensures Indexes(index[e.icount := e], entries + [e])
  {
    var all := entries + [e];
    forall k | k in index[e.icount := e]
      ensures HasEntry(all, k)
    {
      if k == e.icount {
        assert all[|entries|].icount == k;
      } else {
        var i :| 0 <= i < |entries| && entries[i].icount == k;
        assert all[i].icount == k;
      }
    }
  }

  lemma IndexesButLast<S>(index: map<nat, Effect<S>>, all: seq<Effect<S>>, n: nat)
    requires 0 < n <= |all| && Indexes(index, all[..n]) && Sorted(all[..n])
    ensures Indexes(index - {all[n - 1].icount}, all[..n - 1]) && Sorted(all[..n - 1])
  {
    var entries, init := all[..n], all[..n - 1];
    forall k | k in index - {all[n - 1].icount}
      ensures HasEntry(init, k)
    {
      assert HasEntry(entries, k);
      var i :| 0 <= i < |entries| && entries[i].icount == k;
      assert init[i].icount == k;
    }
    forall i | 0 <= i < |init|
      ensures init[i].icount in index - {all[n - 1].icount} && index[init[i].icount] == init[i]
    {
      assert entries[i] == init[i] && entries[n - 1] == all[n - 1];
    }
    forall i, j | 0 <= i < j < |init|
      ensures init[i].icount < init[j].icount
    {
      assert entries[i] == init[i] && entries[j] == init[j];
    }
  }

  lemma IndexesButFirst<S>(index: map<nat, Effect<S>>, all: seq<Effect<S>>, n: nat)
    requires n < |all| && Indexes(index, all[n..]) && Sorted(all[n..])
    ensures Indexes(index - {all[n].icount}, all[n + 1..]) && Sorted(all[n + 1..])
  {
    var entries, rest := all[n..], all[n + 1..];
    forall k | k in index - {all[n].icount}
      ensures HasEntry(rest, k)
    {
      assert HasEntry(entries, k);
      var i :| 0 <= i < |entries| && entries[i].icount == k;
      assert rest[i - 1].icount == k;
    }
    forall i | 0 <= i < |rest|
      ensures rest[i].icount in index - {all[n].icount} && index[rest[i].icount] == rest[i]
    {
      assert entries[i + 1] == rest[i] && entries[0] == all[n];
    }
    forall i, j | 0 <= i < j < |rest|
      ensures rest[i].icount < rest[j].icount
    {
      assert entries[i + 1] == rest[i] && entries[j + 1] == rest[j];
    }
  }
}
