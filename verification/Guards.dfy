/**
 What a run has to stop for.  The breakpoints as they are when it sets out say which events there are
 along it, in order; HitsOf says what those come to in hits.
 */
module Guarding {
  import opened Options
  import opened Machine
  import opened Runs
  import opened Breakpoints
  import opened Candidates

  /** The breakpoints a run sets out with: the table, what is armed where, and how many numbers there are. */
  datatype Guards<!L(!new)> = Guards(
    cpu: Cpu<L>,
    holds: (nat, State, Option<Access>) -> bool,
    table: Table,
    byAddr: map<nat, nat>,
    next: nat)
  {
    /** What is armed where the machine is about to run, if its condition is met. */
    function Here(m: State, at: nat): seq<Event> {
      var pc := m.ctx.Pc();
      if pc in byAddr && byAddr[pc] in table && table[byAddr[pc]].enabled && Passes(holds, table[byAddr[pc]], m, None)
      then [Event(at, byAddr[pc])] else []
    }

    predicate Fires(num: nat, access: Access, m: State) {
      && num in table && table[num].enabled && Sees(table[num], access)
      && Passes(holds, table[num], m, Some(access))
    }

    /** The watchpoints below number n that this access fires, oldest first. */
    function OfAccess(n: nat, access: Access, m: State, at: nat): seq<Event> {
      if n == 0 then []
      else OfAccess(n - 1, access, m, at) + (if Fires(n - 1, access, m) then [Event(at, n - 1)] else [])
    }

    function OfAccesses(accesses: seq<Access>, m: State, at: nat): seq<Event> {
      if accesses == [] then []
      else OfAccesses(accesses[..|accesses| - 1], m, at) + OfAccess(next, accesses[|accesses| - 1], m, at)
    }

    /** What the instruction at w fires; the machine is at `at` by then. */
    function After(w: World<L>, at: nat): seq<Event> {
      OfAccesses(AccessesOf(cpu, w), w.m, at)
    }

    /**
     Everything along the run from instruction `from`, which it sets out with whatever is armed there, to
     instruction n, which it has not begun.
     */
    function Through(hist: seq<World<L>>, from: int, n: nat): seq<Event>
      requires n <= |hist|
    {
      if n <= from || n == 0 then []
      else Through(hist, from, n - 1) + Begun(hist[n - 1].m, from, n - 1) + After(hist[n - 1], n)
    }

    /** What the instruction at `at` comes upon before it runs. */
    function Begun(m: State, from: int, at: nat): seq<Event> {
      if at > from then Here(m, at) else []
    }

    /** Everything along it until instruction n runs. */
    function Until(hist: seq<World<L>>, from: int, n: nat): seq<Event>
      requires n < |hist|
    {
      Through(hist, from, n) + Begun(hist[n].m, from, n)
    }

    function Hits(events: seq<Event>): seq<Hit> {
      HitsOf(table, events)
    }
  }

  lemma OneMoreAccess<L(!new)>(g: Guards<L>, accesses: seq<Access>, n: nat, m: State, at: nat)
    requires n < |accesses|
    ensures g.OfAccesses(accesses[..n + 1], m, at) == g.OfAccesses(accesses[..n], m, at) +
      g.OfAccess(g.next, accesses[n], m, at)
  {
    assert accesses[..n + 1][..n] == accesses[..n];
  }

  /** The same run as far as it goes gives the same events. */
  lemma {:induction false} ThroughElsewhere<L(!new)>(g: Guards<L>, h: seq<World<L>>, h': seq<World<L>>, from: int,
                                                     n: nat)
    requires n <= |h| && n <= |h'| && forall j :: 0 <= j < n ==> h[j] == h'[j]
    ensures g.Through(h, from, n) == g.Through(h', from, n)
  {
    if n <= from || n == 0 {
    } else {
      ThroughElsewhere(g, h, h', from, n - 1);
    }
  }

  ghost predicate Within(events: seq<Event>, lo: int, hi: int) {
    forall e :: e in events ==> lo <= e.at <= hi
  }

  lemma {:induction false} AccessKnown<L(!new)>(g: Guards<L>, n: nat, access: Access, m: State, at: nat)
    ensures Known(g.table, g.OfAccess(n, access, m, at)) && Within(g.OfAccess(n, access, m, at), at, at)
    ensures forall e :: e in g.OfAccess(n, access, m, at) ==> Watched(g.table, e.num, access)
  {
    if n == 0 {
    } else {
      AccessKnown(g, n - 1, access, m, at);
    }
  }

  lemma {:induction false} AccessesKnown<L(!new)>(g: Guards<L>, accesses: seq<Access>, m: State, at: nat)
    ensures Known(g.table, g.OfAccesses(accesses, m, at)) && Within(g.OfAccesses(accesses, m, at), at, at)
    ensures forall e :: e in g.OfAccesses(accesses, m, at) ==> exists a :: a in accesses && Watched(g.table, e.num, a)
  {
    if accesses == [] {
    } else {
      var init, last := accesses[..|accesses| - 1], accesses[|accesses| - 1];
      AccessesKnown(g, init, m, at);
      AccessKnown(g, g.next, last, m, at);
      assert forall a :: a in init ==> a in accesses;
      assert last in accesses;
    }
  }

  /** Events along a run are of breakpoints there are, at instructions after the one it set out from. */
  lemma {:induction false} ThroughKnown<L(!new)>(g: Guards<L>, hist: seq<World<L>>, from: int, n: nat)
    requires n <= |hist|
    ensures Known(g.table, g.Through(hist, from, n)) && Within(g.Through(hist, from, n), from + 1, n)
  {
    if n <= from || n == 0 {
    } else {
      ThroughKnown(g, hist, from, n - 1);
      AccessesKnown(g, AccessesOf(g.cpu, hist[n - 1]), hist[n - 1].m, n);
    }
  }

  /** No watchpoint hears of what a call does. */
  lemma CallSeesNothing<L(!new)>(g: Guards<L>, w: World<L>, at: nat)
    requires g.cpu.exec(w.m).Service?
    ensures g.After(w, at) == []
  {
  }

  lemma BegunKnown<L(!new)>(g: Guards<L>, m: State, from: int, at: nat)
    ensures Known(g.table, g.Begun(m, from, at)) && Within(g.Begun(m, from, at), at, at)
    ensures at <= from ==> g.Begun(m, from, at) == []
  {
  }

  lemma UntilKnown<L(!new)>(g: Guards<L>, hist: seq<World<L>>, from: int, n: nat)
    requires n < |hist|
    ensures Known(g.table, g.Until(hist, from, n)) && Within(g.Until(hist, from, n), from + 1, n)
  {
    ThroughKnown(g, hist, from, n);
  }

  lemma {:induction false} FiredIsThere<L(!new)>(g: Guards<L>, n: nat, num: nat, access: Access, m: State, at: nat)
    requires num < n && g.Fires(num, access, m)
    ensures Event(at, num) in g.OfAccess(n, access, m, at)
  {
    if num < n - 1 {
      FiredIsThere(g, n - 1, num, access, m, at);
    }
  }

  lemma {:induction false} FiredByOne<L(!new)>(g: Guards<L>, accesses: seq<Access>, i: nat, num: nat, m: State, at: nat)
    requires i < |accesses| && num < g.next && g.Fires(num, accesses[i], m)
    ensures Event(at, num) in g.OfAccesses(accesses, m, at)
  {
    if i < |accesses| - 1 {
      FiredByOne(g, accesses[..|accesses| - 1], i, num, m, at);
    } else {
      FiredIsThere(g, g.next, num, accesses[i], m, at);
    }
  }

  lemma ThroughStep<L(!new)>(g: Guards<L>, hist: seq<World<L>>, from: int, n: nat)
    requires from < n <= |hist| && n > 0
    ensures g.Through(hist, from, n) == g.Until(hist, from, n - 1) + g.After(hist[n - 1], n)
    ensures g.Until(hist, from, n - 1) == g.Through(hist, from, n - 1) + g.Begun(hist[n - 1].m, from, n - 1)
    ensures Within(g.Begun(hist[n - 1].m, from, n - 1), n - 1, n - 1) && Within(g.After(hist[n - 1], n), n, n)
  {
    AccessesKnown(g, AccessesOf(g.cpu, hist[n - 1]), hist[n - 1].m, n);
    BegunKnown(g, hist[n - 1].m, from, n - 1);
  }

  /** The events along a run are those until instruction k runs and then later ones. */
  lemma {:induction false} ThroughSplit<L(!new)>(g: Guards<L>, hist: seq<World<L>>, from: int, k: nat, n: nat)
    returns (rest: seq<Event>)
    requires from <= k < n <= |hist|
    ensures g.Through(hist, from, n) == g.Until(hist, from, k) + rest && Within(rest, k + 1, n)
    ensures n > k + 1 ==> forall e :: e in g.Begun(hist[n - 1].m, from, n - 1) ==> e in rest
    ensures forall e :: e in g.After(hist[n - 1], n) ==> e in rest
  {
    hide Guards.Through, Guards.Until, Guards.Begun, Guards.After;
    ThroughStep(g, hist, from, n);
    var begun, after := g.Begun(hist[n - 1].m, from, n - 1), g.After(hist[n - 1], n);
    if n == k + 1 {
      rest := after;
    } else {
      var init := ThroughSplit(g, hist, from, k, n - 1);
      rest := init + (begun + after);
      assert g.Until(hist, from, k) + init + begun + after == g.Until(hist, from, k) + rest;
    }
  }

  /** What stands at instruction j, and what it accesses, is among the events of every run past it. */
  lemma EventsOf<L(!new)>(g: Guards<L>, hist: seq<World<L>>, from: int, j: nat, n: nat)
    requires from <= j <= n < |hist|
    ensures forall e :: e in g.Begun(hist[j].m, from, j) ==> e in g.Until(hist, from, n)
    ensures j < n ==> forall e :: e in g.After(hist[j], j + 1) ==> e in g.Until(hist, from, n)
  {
    hide Guards.Begun, Guards.After, Guards.Through;
    if j < n {
      var rest := ThroughSplit(g, hist, from, j, n);
      var one := ThroughSplit(g, hist, from, j, j + 1);
      if j + 1 < n {
        var later := ThroughSplit(g, hist, from, j + 1, n);
        hide Guards.Until;
        var next := g.Through(hist, from, j + 1);
        assert g.Until(hist, from, j + 1) == next + g.Begun(hist[j + 1].m, from, j + 1);
        assert next == g.Until(hist, from, j) + one;
      }
    }
  }

  /** A log and a table after a run with these guards that came upon these events, as far back as the log goes. */
  ghost predicate Reckoned(t: Table, hits0: seq<Hit>, more: seq<Hit>, since: nat, t': Table, hits: seq<Hit>) {
    Counts(t, t', more) && hits == Since(hits0 + more, since)
  }

  /**
     Taking back what came after instruction k leaves the log and the counts that the run had when it had
     got there: the hits until instruction k ran, and what had been logged before it set out.
   */
  lemma TakenBack<L(!new)>(g: Guards<L>, hist: seq<World<L>>, from: nat, last: seq<Event>, hits0: seq<Hit>,
                           t: Table, since: nat, t1: Table, hits1: seq<Hit>, k: nat, n: nat, t2: Table)
    requires from <= k < |hist| - 1 && since <= k && NoneAfter(hits0, from) && Within(last, k + 1, |hist|)
    requires Reckoned(t, hits0, g.Hits(g.Through(hist, from, |hist| - 1) + last), since, t1, hits1)
    requires UpTo(hits1, k, n) && Counts(t2, t1, hits1[n..])
    ensures Reckoned(t, hits0, g.Hits(g.Until(hist, from, k)), since, t2, hits1[..n])
  {
    hide Counts, HitsOf, Guards.Until, Guards.Through, UpTo, Since, NoneAfter;
    var a := g.Until(hist, from, k);
    var b := ThroughSplit(g, hist, from, k, |hist| - 1);
    b := b + last;
    assert g.Through(hist, from, |hist| - 1) + last == a + b;
    UntilKnown(g, hist, from, k);
    LogSplit(g, hits0, a, b, from, k, |hist|);
    var all, m := hits0 + g.Hits(a + b), |hits0 + g.Hits(a)|;
    SinceUpTo(all, k, m, since, n);
    CountsLess(t, t2, t1, g.Hits(a), all[m..]);
  }

  lemma HitsWithin<L(!new)>(g: Guards<L>, events: seq<Event>, lo: nat, hi: int)
    requires Within(events, lo, hi)
    ensures NoneBefore(g.Hits(events), lo)
  {
    HitsGrow(g.table, [], events);
    assert [] + events == events && HitsOf(g.table, []) == [];
    forall h | h in g.Hits(events)
      ensures h.icount >= lo
    {
      var i :| 0 <= i < |g.Hits(events)| && g.Hits(events)[i] == h;
      assert Event(h.icount, h.num) in events;
    }
  }

  /** The hits of earlier events are those at or before k, when the later events lie after it. */
  lemma LogSplit<L(!new)>(g: Guards<L>, hits0: seq<Hit>, a: seq<Event>, b: seq<Event>, from: nat, k: nat, end: nat)
    requires NoneAfter(hits0, from) && from <= k && Within(a, from + 1, k) && Within(b, k + 1, end)
    ensures var all, m := hits0 + g.Hits(a + b), |hits0 + g.Hits(a)|;
      UpTo(all, k, m) && all[..m] == hits0 + g.Hits(a) && g.Hits(a) + all[m..] == g.Hits(a + b)
  {
    var now, more := g.Hits(a), g.Hits(a + b);
    HitsGrow(g.table, [], a);
    assert [] + a == a && HitsOf(g.table, []) == [];
    hide HitsOf;
    HitsGrow(g.table, a, b);
    forall i | 0 <= i < |hits0 + more|
      ensures i < |hits0 + now| ==> (hits0 + more)[i].icount <= k
      ensures i >= |hits0 + now| ==> (hits0 + more)[i].icount > k
    {
      if i < |hits0| {
        assert hits0[i] in hits0;
      } else if i < |hits0 + now| {
        assert Event(now[i - |hits0|].icount, now[i - |hits0|].num) in a;
      } else {
        assert Event(more[i - |hits0|].icount, more[i - |hits0|].num) in b;
      }
    }
  }

  /** When the run stops before an instruction runs, it is for what is armed there. */
  lemma StoppedHere<L(!new)>(g: Guards<L>, events: seq<Event>, m: State, at: nat)
    requires !Stopped(g.Hits(events)) && Stopped(g.Hits(events + g.Here(m, at)))
    ensures var last := g.Hits(events + g.Here(m, at))[|g.Hits(events + g.Here(m, at))| - 1];
      && g.Here(m, at) == [Event(last.icount, last.num)] && last.icount == at
      && last.num in g.table && m.ctx.Pc() in g.byAddr && g.byAddr[m.ctx.Pc()] == last.num
  {
    assert events + [] == events;
    if g.Here(m, at) != [] {
      HitsNext(g.table, events, g.Here(m, at)[0]);
    }
  }

  /** When it stops after one, it is for an access that one made. */
  lemma StoppedAfter<L(!new)>(g: Guards<L>, events: seq<Event>, w: World<L>, at: nat)
    requires !Stopped(g.Hits(events)) && Stopped(g.Hits(events + g.After(w, at)))
    ensures var last := g.Hits(events + g.After(w, at))[|g.Hits(events + g.After(w, at))| - 1];
      last.icount == at && last.num in g.table && exists a :: a in AccessesOf(g.cpu, w) && Watched(g.table, last.num, a)
  {
    var more, all := g.Hits(events), g.Hits(events + g.After(w, at));
    HitsGrow(g.table, events, g.After(w, at));
    AccessesKnown(g, AccessesOf(g.cpu, w), w.m, at);
    assert |all| == |more| ==> all == more;
    assert Event(all[|all| - 1].icount, all[|all| - 1].num) in g.After(w, at);
  }
}
