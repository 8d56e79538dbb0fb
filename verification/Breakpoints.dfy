/** Breakpoints, watchpoints and the log of their hits, which rewinds with the machine. */
module Breakpoints {
  import opened Options

  datatype Kind = Execute | Read | Write | ReadWrite

  /** A condition is named, and what it evaluates to is somebody else's business. */
  datatype Breakpoint = Breakpoint(
    num: nat,
    kind: Kind,
    address: nat,
    size: nat,
    enabled: bool,
    hitCount: nat,
    temporary: bool,
    condition: Option<nat>,
    ignoreCount: nat)
  {
    function End(): int {
      address + size - 1
    }
  }

  /** A breakpoint fired at this instruction, and whether that was one to ignore. */
  datatype Hit = Hit(icount: nat, num: nat, ignored: bool)

  function Fired(hits: seq<Hit>, num: nat): nat {
    if hits == [] then 0
    else Fired(hits[..|hits| - 1], num) + (if hits[|hits| - 1].num == num then 1 else 0)
  }

  function Passed(hits: seq<Hit>, num: nat): nat {
    if hits == [] then 0
    else Passed(hits[..|hits| - 1], num) + (if hits[|hits| - 1].num == num && hits[|hits| - 1].ignored then 1 else 0)
  }

  ghost predicate InOrder(hits: seq<Hit>) {
    forall i, j :: 0 <= i < j < |hits| ==> hits[i].icount <= hits[j].icount
  }

  ghost predicate NoneAfter(hits: seq<Hit>, k: nat) {
    forall h :: h in hits ==> h.icount <= k
  }

  /** The first n hits are the ones at or before k. */
  ghost predicate UpTo(hits: seq<Hit>, k: nat, n: nat) {
    && n <= |hits|
    && (forall i :: 0 <= i < n ==> hits[i].icount <= k)
    && (forall i :: n <= i < |hits| ==> hits[i].icount > k)
  }

  lemma CountPlus(hits: seq<Hit>, h: Hit)
    ensures forall num :: Fired(hits + [h], num) == Fired(hits, num) + (if h.num == num then 1 else 0)
    ensures forall num :: Passed(hits + [h], num) == Passed(hits, num) + (if h.num == num && h.ignored then 1 else 0)
  {
    assert (hits + [h])[..|hits + [h]| - 1] == hits;
  }

  lemma {:induction false} CountRest(hits: seq<Hit>, num: nat)
    requires hits != []
    ensures Fired(hits, num) == (if hits[0].num == num then 1 else 0) + Fired(hits[1..], num)
    ensures Passed(hits, num) == (if hits[0].num == num && hits[0].ignored then 1 else 0) + Passed(hits[1..], num)
  {
    var init := hits[..|hits| - 1];
    if init == [] {
      assert hits[1..] == [];
    } else {
      CountRest(init, num);
      assert hits[1..][..|hits| - 2] == init[1..];
    }
  }

  lemma {:induction false} CountSplit(a: seq<Hit>, b: seq<Hit>, num: nat)
    ensures Fired(a + b, num) == Fired(a, num) + Fired(b, num)
    ensures Passed(a + b, num) == Passed(a, num) + Passed(b, num)
  {
    if b == [] {
      assert a + b == a;
    } else {
      assert (a + b)[..|a + b| - 1] == a + b[..|b| - 1];
      CountSplit(a, b[..|b| - 1], num);
    }
  }

  // ---- the log from some instruction on ----

  /** The hits without those before instruction k at its start. */
  function Since(hits: seq<Hit>, k: nat): seq<Hit> {
    if hits == [] || hits[0].icount >= k then hits else Since(hits[1..], k)
  }

  ghost predicate NoneBefore(hits: seq<Hit>, k: nat) {
    forall h :: h in hits ==> h.icount >= k
  }

  lemma {:induction false} SinceDrops(hits: seq<Hit>, k: nat, n: nat)
    requires n <= |hits| && (forall i :: 0 <= i < n ==> hits[i].icount < k) && (n < |hits| ==> hits[n].icount >= k)
    ensures Since(hits, k) == hits[n..]
  {
    if n == 0 {
      assert hits[0..] == hits;
    } else {
      SinceDrops(hits[1..], k, n - 1);
      assert hits[1..][n - 1..] == hits[n..];
    }
  }

  lemma SinceAll(hits: seq<Hit>, k: nat)
    ensures NoneBefore(hits, k) ==> Since(hits, k) == hits
  {
    assert hits != [] ==> hits[0] in hits;
  }

  lemma {:induction false} SincePlus(a: seq<Hit>, b: seq<Hit>, k: nat)
    requires NoneBefore(b, k)
    ensures Since(a + b, k) == Since(a, k) + b
  {
    if a == [] {
      assert a + b == b;
      assert b != [] ==> b[0] in b;
    } else if a[0].icount < k {
      assert (a + b)[1..] == a[1..] + b;
      SincePlus(a[1..], b, k);
    }
  }

  /** Cutting the log at k and later, with more in it by then, at n is cutting it all at n. */
  lemma {:induction false} SinceTwice(a: seq<Hit>, b: seq<Hit>, k: nat, n: nat)
    requires k <= n
    ensures Since(Since(a, k) + b, n) == Since(a + b, n)
  {
    if a == [] || a[0].icount >= k {
    } else {
      assert (a + b)[1..] == a[1..] + b;
      SinceTwice(a[1..], b, k, n);
    }
  }

  lemma UpToRest(hits: seq<Hit>, k: nat, n: nat)
    requires UpTo(hits, k, n) && hits != []
    ensures if hits[0].icount <= k then n > 0 && UpTo(hits[1..], k, n - 1) else n == 0
  {
    forall i | 0 <= i < |hits[1..]|
      ensures i < n - 1 ==> hits[1..][i].icount <= k
      ensures i >= n - 1 ==> hits[1..][i].icount > k
    {
      assert hits[1..][i] == hits[i + 1];
    }
  }

  lemma {:induction false} UpToOnce(hits: seq<Hit>, k: nat, m: nat, n: nat)
    requires UpTo(hits, k, m) && UpTo(hits, k, n)
    ensures m == n
  {
    if hits != [] {
      UpToRest(hits, k, m);
      UpToRest(hits, k, n);
      if hits[0].icount <= k {
        UpToOnce(hits[1..], k, m - 1, n - 1);
      }
    }
  }

  /** Cutting the log at its start and at its end can be done in either order. */
  lemma {:induction false} SinceUpTo(all: seq<Hit>, k: nat, m: nat, since: nat, n: nat)
    requires UpTo(all, k, m) && since <= k + 1 && UpTo(Since(all, since), k, n)
    ensures Since(all, since)[..n] == Since(all[..m], since) && Since(all, since)[n..] == all[m..]
  {
    if all == [] {
    } else if all[0].icount >= since {
      UpToOnce(all, k, m, n);
    } else {
      UpToRest(all, k, m);
      SinceUpTo(all[1..], k, m - 1, since, n);
      assert all[..m][1..] == all[1..][..m - 1];
    }
  }

  // ---- what breakpoints make of what happens ----

  /** A breakpoint's condition is met, at this instruction. */
  datatype Event = Event(at: nat, num: nat)

  /** The last of these hits stops the run. */
  predicate Stopped(hits: seq<Hit>) {
    hits != [] && !hits[|hits| - 1].ignored
  }

  /**
     The hits that these events come to when the run sets out with table t: each is one to ignore as long
     as there have been fewer of its breakpoint than that was told to ignore, and the first that is not is
     the last, because the run stops there.
   */
  function HitsOf(t: Table, events: seq<Event>): seq<Hit> {
    if events == [] then []
    else
      var more, e := HitsOf(t, events[..|events| - 1]), events[|events| - 1];
      if Stopped(more) || e.num !in t then more
      else more + [Hit(e.at, e.num, Fired(more, e.num) < t[e.num].ignoreCount)]
  }

  lemma HitsNext(t: Table, events: seq<Event>, e: Event)
    ensures var more := HitsOf(t, events);
      HitsOf(t, events + [e]) ==
        if Stopped(more) || e.num !in t then more
        else more + [Hit(e.at, e.num, Fired(more, e.num) < t[e.num].ignoreCount)]
  {
    assert (events + [e])[..|events|] == events;
  }

  lemma {:induction false} HitsOnceStopped(t: Table, a: seq<Event>, b: seq<Event>)
    requires Stopped(HitsOf(t, a))
    ensures HitsOf(t, a + b) == HitsOf(t, a)
  {
    if b == [] {
      assert a + b == a;
    } else {
      HitsOnceStopped(t, a, b[..|b| - 1]);
      assert a + b == a + b[..|b| - 1] + [b[|b| - 1]];
      HitsNext(t, a + b[..|b| - 1], b[|b| - 1]);
    }
  }

  /** One more stretch of events adds hits of that stretch at the end. */
  lemma {:induction false} HitsGrow(t: Table, a: seq<Event>, b: seq<Event>)
    ensures HitsOf(t, a) <= HitsOf(t, a + b)
    ensures forall i :: |HitsOf(t, a)| <= i < |HitsOf(t, a + b)| ==>
      Event(HitsOf(t, a + b)[i].icount, HitsOf(t, a + b)[i].num) in b && HitsOf(t, a + b)[i].num in t
  {
    if b == [] {
      assert a + b == a;
    } else {
      HitsGrow(t, a, b[..|b| - 1]);
      assert a + b == a + b[..|b| - 1] + [b[|b| - 1]];
      HitsNext(t, a + b[..|b| - 1], b[|b| - 1]);
    }
  }

  /** Only the last hit can be one that stops. */
  lemma {:induction false} AllBeforeIgnored(t: Table, events: seq<Event>)
    ensures forall i :: 0 <= i < |HitsOf(t, events)| - 1 ==> HitsOf(t, events)[i].ignored
    ensures !Stopped(HitsOf(t, events)) ==> forall n :: Passed(HitsOf(t, events), n) == Fired(HitsOf(t, events), n)
  {
    if events == [] {
    } else {
      AllBeforeIgnored(t, events[..|events| - 1]);
      var more := HitsOf(t, events[..|events| - 1]);
      if !Stopped(more) && events[|events| - 1].num in t {
        CountPlus(more, HitsOf(t, events)[|more|]);
      }
    }
  }

  function Occurs(events: seq<Event>, num: nat): nat {
    if events == [] then 0
    else Occurs(events[..|events| - 1], num) + (if events[|events| - 1].num == num then 1 else 0)
  }

  lemma {:induction false} OccursIn(events: seq<Event>, e: Event)
    requires e in events
    ensures Occurs(events, e.num) >= 1
  {
    if events[|events| - 1] != e {
      OccursIn(events[..|events| - 1], e);
    }
  }

  ghost predicate Known(t: Table, events: seq<Event>) {
    forall e :: e in events ==> e.num in t
  }

  lemma KnownInit(t: Table, events: seq<Event>)
    requires Known(t, events) && events != []
    ensures Known(t, events[..|events| - 1]) && events[|events| - 1].num in t
  {
    assert events[|events| - 1] in events;
  }

  /** The hits are the events from the first on, one by one, all of them if the run goes on. */
  lemma {:induction false} HitsFollow(t: Table, events: seq<Event>)
    requires Known(t, events)
    ensures var more := HitsOf(t, events);
      && |more| <= |events| && (!Stopped(more) ==> |more| == |events|)
      && forall i :: 0 <= i < |more| ==> Event(more[i].icount, more[i].num) == events[i]
  {
    if events == [] {
    } else {
      KnownInit(t, events);
      HitsFollow(t, events[..|events| - 1]);
    }
  }

  /** As long as the run goes on, no breakpoint has had more hits than it was told to ignore. */
  lemma {:induction false} PassedOver(t: Table, events: seq<Event>, n: nat)
    requires Known(t, events) && !Stopped(HitsOf(t, events))
    ensures Fired(HitsOf(t, events), n) == Occurs(events, n)
    ensures n in t ==> Occurs(events, n) <= t[n].ignoreCount
  {
    if events == [] {
    } else {
      KnownInit(t, events);
      var more := HitsOf(t, events[..|events| - 1]);
      assert !Stopped(more);
      PassedOver(t, events[..|events| - 1], n);
      CountPlus(more, HitsOf(t, events)[|more|]);
    }
  }

  /** Where it stops, that breakpoint has had exactly one more. */
  lemma {:induction false} OneTooMany(t: Table, events: seq<Event>)
    requires Known(t, events) && Stopped(HitsOf(t, events))
    ensures var more := HitsOf(t, events);
      var n := more[|more| - 1].num;
      n in t && Fired(more, n) == t[n].ignoreCount + 1 <= Occurs(events, n)
  {
    KnownInit(t, events);
    var init, e := events[..|events| - 1], events[|events| - 1];
    var more := HitsOf(t, init);
    if Stopped(more) {
      OneTooMany(t, init);
    } else {
      PassedOver(t, init, e.num);
      CountPlus(more, HitsOf(t, events)[|more|]);
    }
  }

  /** A run stops if and only if some breakpoint's condition is met once more than it was told to ignore. */
  lemma StopsAtTheNextIff(t: Table, events: seq<Event>)
    requires Known(t, events)
    ensures Stopped(HitsOf(t, events)) <==> exists n :: n in t && Occurs(events, n) > t[n].ignoreCount
  {
    if Stopped(HitsOf(t, events)) {
      OneTooMany(t, events);
    } else {
      forall n | n in t
        ensures Occurs(events, n) <= t[n].ignoreCount
      {
        PassedOver(t, events, n);
      }
    }
  }

  /** What the sort by instruction does with one new hit at the end of a sorted log. */
  function Inserted(hits: seq<Hit>, h: Hit): seq<Hit> {
    if hits == [] || hits[|hits| - 1].icount <= h.icount then hits + [h]
    else Inserted(hits[..|hits| - 1], h) + [hits[|hits| - 1]]
  }

  // ---- what the counts mean ----

  type Table = map<nat, Breakpoint>

  /** A hit count is the settled hits and the logged ones; an ignore count is what they left of the allowance. */
  ghost predicate Tallied(table: Table, hits: seq<Hit>, settled: map<nat, nat>, allowance: map<nat, nat>) {
    forall n :: n in table ==>
      && n in settled && table[n].hitCount == settled[n] + Fired(hits, n)
      && n in allowance && table[n].ignoreCount + Passed(hits, n) == allowance[n]
  }

  ghost predicate Named(table: Table, next: nat, hits: seq<Hit>) {
    && (forall n :: n in table ==> table[n].num == n && n < next)
    && (forall h :: h in hits ==> h.num < next)
  }

  /** An address is armed for the execute breakpoint that was put there last. */
  ghost predicate Addressed(byAddr: map<nat, nat>, table: Table) {
    && (forall a :: a in byAddr ==>
      byAddr[a] in table && table[byAddr[a]].kind == Execute && table[byAddr[a]].address == a)
    && (forall n {:trigger NotOnTop(byAddr, table, n)} :: n in table ==> NotOnTop(byAddr, table, n))
  }

  /** Breakpoint n was not put at its address later than the one armed there. */
  ghost predicate NotOnTop(byAddr: map<nat, nat>, table: Table, n: nat)
    requires n in table
  {
    table[n].kind == Execute && table[n].address in byAddr ==> n <= byAddr[table[n].address]
  }

  /** The same breakpoints, apart from what has been counted. */
  ghost predicate SameButCounts(t: Table, t': Table) {
    && t.Keys == t'.Keys
    && forall n :: n in t ==> t'[n] == t[n].(hitCount := t'[n].hitCount, ignoreCount := t'[n].ignoreCount)
  }

  /** Table t with these hits counted is t'. */
  ghost predicate Counts(t: Table, t': Table, more: seq<Hit>) {
    SameButCounts(t, t') && forall n :: n in t ==> CountsOne(t[n], t'[n], more, n)
  }

  ghost predicate CountsOne(bp: Breakpoint, bp': Breakpoint, more: seq<Hit>, n: nat) {
    && bp'.hitCount == bp.hitCount + Fired(more, n)
    && bp'.ignoreCount + Passed(more, n) == bp.ignoreCount
  }

  lemma CountsNone(t: Table)
    ensures Counts(t, t, [])
  {
  }

  lemma CountsTrans(a: Table, b: Table, c: Table, x: seq<Hit>, y: seq<Hit>)
    requires Counts(a, b, x) && Counts(b, c, y)
    ensures Counts(a, c, x + y)
  {
    forall n | n in a
      ensures CountsOne(a[n], c[n], x + y, n)
    {
      assert CountsOne(a[n], b[n], x, n) && CountsOne(b[n], c[n], y, n);
      CountSplit(x, y, n);
    }
  }

  lemma CountsStrike(t: Table, num: nat, at: nat)
    requires num in t
    ensures Counts(t, t[num := Struck(t[num])], [Hit(at, num, t[num].ignoreCount > 0)])
  {
    var h := Hit(at, num, t[num].ignoreCount > 0);
    CountPlus([], h);
    assert [] + [h] == [h];
  }

  lemma CountsWithout(t: Table, t': Table, more: seq<Hit>, num: nat)
    requires Counts(t, t', more)
    ensures Counts(t - {num}, t' - {num}, more)
  {
    forall n | n in t - {num}
      ensures CountsOne((t - {num})[n], (t' - {num})[n], more, n)
    {
      assert CountsOne(t[n], t'[n], more, n);
    }
  }

  /** Hits taken off again leave the counts as they were with the ones before them. */
  lemma CountsLess(a: Table, b: Table, c: Table, x: seq<Hit>, y: seq<Hit>)
    requires Counts(a, c, x + y) && Counts(b, c, y)
    ensures Counts(a, b, x)
  {
    forall n | n in a
      ensures CountsOne(a[n], b[n], x, n)
    {
      assert CountsOne(a[n], c[n], x + y, n) && CountsOne(b[n], c[n], y, n);
      CountSplit(x, y, n);
    }
  }

  /** With no hit counted the table is the same. */
  lemma CountsNothing(a: Table, b: Table)
    requires Counts(a, b, [])
    ensures b == a
  {
    forall n | n in a
      ensures b[n] == a[n]
    {
      assert CountsOne(a[n], b[n], [], n);
    }
  }

  /** One more event, counted as it happens. */
  lemma EventCounts(t: Table, t': Table, events: seq<Event>, e: Event)
    requires Counts(t, t', HitsOf(t, events)) && !Stopped(HitsOf(t, events)) && e.num in t
    ensures var h := Hit(e.at, e.num, t'[e.num].ignoreCount > 0);
      && HitsOf(t, events + [e]) == HitsOf(t, events) + [h]
      && Counts(t, t'[e.num := Struck(t'[e.num])], HitsOf(t, events + [e]))
  {
    var more, h := HitsOf(t, events), Hit(e.at, e.num, t'[e.num].ignoreCount > 0);
    HitsNext(t, events, e);
    AllBeforeIgnored(t, events);
    assert CountsOne(t[e.num], t'[e.num], more, e.num);
    CountsStrike(t', e.num, e.at);
    CountsTrans(t, t', t'[e.num := Struck(t'[e.num])], more, [h]);
  }

  lemma StillAddressed(byAddr: map<nat, nat>, t: Table, t': Table)
    requires Addressed(byAddr, t) && SameButCounts(t, t')
    ensures Addressed(byAddr, t')
  {
    forall n | n in t'
      ensures NotOnTop(byAddr, t', n)
    {
      assert NotOnTop(byAddr, t, n);
    }
  }

  lemma AddressedPlus(byAddr: map<nat, nat>, table: Table, next: nat, hits: seq<Hit>, bp: Breakpoint)
    requires Addressed(byAddr, table) && Named(table, next, hits)
    ensures Addressed(if bp.kind == Execute then byAddr[bp.address := next] else byAddr, table[next := bp])
  {
    var byAddr', table' := if bp.kind == Execute then byAddr[bp.address := next] else byAddr, table[next := bp];
    forall n | n in table'
      ensures NotOnTop(byAddr', table', n)
    {
      assert n in table ==> NotOnTop(byAddr, table, n);
    }
  }

  lemma AddressedMinus(byAddr: map<nat, nat>, table: Table, num: nat)
    requires Addressed(byAddr, table) && num in table
    ensures Addressed(Disarmed(byAddr, table[num], num), table - {num})
  {
    forall n | n in table - {num}
      ensures NotOnTop(Disarmed(byAddr, table[num], num), table - {num}, n)
    {
      assert NotOnTop(byAddr, table, n);
    }
  }

  /** This breakpoint's address is armed for breakpoint num. */
  predicate LeansOn(byAddr: map<nat, nat>, bp: Breakpoint, num: nat) {
    bp.kind == Execute && bp.address in byAddr && byAddr[bp.address] == num
  }

  /** What is armed once this breakpoint has been deleted. */
  function Disarmed(byAddr: map<nat, nat>, bp: Breakpoint, num: nat): map<nat, nat> {
    if LeansOn(byAddr, bp, num) then byAddr - {bp.address} else byAddr
  }

  function Struck(bp: Breakpoint): Breakpoint {
    bp.(hitCount := bp.hitCount + 1, ignoreCount := if bp.ignoreCount > 0 then bp.ignoreCount - 1 else 0)
  }

  function Unstruck(bp: Breakpoint, ignored: bool): Breakpoint {
    bp.(hitCount := if bp.hitCount > 1 then bp.hitCount - 1 else 0,
        ignoreCount := if ignored then bp.ignoreCount + 1 else bp.ignoreCount)
  }

  lemma TallyStrike(table: Table, hits: seq<Hit>, settled: map<nat, nat>, allowance: map<nat, nat>, num: nat,
                    icount: nat)
    requires Tallied(table, hits, settled, allowance) && num in table
    ensures Tallied(table[num := Struck(table[num])], hits + [Hit(icount, num, table[num].ignoreCount > 0)], settled,
      allowance)
  {
    CountPlus(hits, Hit(icount, num, table[num].ignoreCount > 0));
  }

  lemma TallyArrival(table: Table, hits: seq<Hit>, settled: map<nat, nat>, allowance: map<nat, nat>, num: nat,
                     icount: nat)
    requires Tallied(table, hits, settled, allowance) && num in table
    ensures Tallied(table[num := table[num].(hitCount := table[num].hitCount + 1)], hits + [Hit(icount, num, false)],
      settled, allowance)
  {
    CountPlus(hits, Hit(icount, num, false));
  }

  /** Undoing the last hit; there is always one to take off, so stopping at zero never matters. */
  lemma TallyUndo(table: Table, hits: seq<Hit>, settled: map<nat, nat>, allowance: map<nat, nat>)
    requires Tallied(table, hits, settled, allowance) && hits != []
    ensures var h, init := hits[|hits| - 1], hits[..|hits| - 1];
      if h.num in table then
        table[h.num].hitCount >= 1 &&
          Tallied(table[h.num := Unstruck(table[h.num], h.ignored)], init, settled, allowance)
      else Tallied(table, init, settled, allowance)
  {
    var h, init := hits[|hits| - 1], hits[..|hits| - 1];
    assert init + [h] == hits;
    CountPlus(init, h);
  }

  lemma TallySettle(table: Table, hits: seq<Hit>, settled: map<nat, nat>, allowance: map<nat, nat>)
    requires Tallied(table, hits, settled, allowance) && hits != []
    ensures var h := hits[0];
      if h.num in table then
        && h.num in settled && h.num in allowance && allowance[h.num] >= (if h.ignored then 1 else 0)
        && Tallied(table, hits[1..], settled[h.num := settled[h.num] + 1],
             allowance[h.num := allowance[h.num] - (if h.ignored then 1 else 0)])
      else Tallied(table, hits[1..], settled, allowance)
  {
    forall num
      ensures Fired(hits, num) == (if hits[0].num == num then 1 else 0) + Fired(hits[1..], num)
      ensures Passed(hits, num) == (if hits[0].num == num && hits[0].ignored then 1 else 0) + Passed(hits[1..], num)
    {
      CountRest(hits, num);
    }
  }

  lemma TallyNew(table: Table, hits: seq<Hit>, settled: map<nat, nat>, allowance: map<nat, nat>, bp: Breakpoint,
                 next: nat)
    requires Tallied(table, hits, settled, allowance) && Named(table, next, hits)
    requires bp.hitCount == 0 && bp.ignoreCount == 0
    ensures Tallied(table[next := bp], hits, settled[next := 0], allowance[next := 0])
  {
    NoneFired(hits, next);
  }

  lemma {:induction false} NoneFired(hits: seq<Hit>, num: nat)
    requires forall h :: h in hits ==> h.num != num
    ensures Fired(hits, num) == 0 && Passed(hits, num) == 0
  {
    if hits == [] {
    } else {
      assert hits[|hits| - 1] in hits;
      NoneFired(hits[..|hits| - 1], num);
    }
  }

  lemma NoneAfterThat(hits: seq<Hit>, k: nat, n: nat)
    requires NoneAfter(hits, k) && k <= n
    ensures NoneAfter(hits, n)
  {
  }

  lemma InsertedAtEnd(hits: seq<Hit>, h: Hit)
    requires NoneAfter(hits, h.icount)
    ensures Inserted(hits, h) == hits + [h]
  {
    if hits != [] {
      assert hits[|hits| - 1] in hits;
    }
  }

  lemma HitsUpTo(hits: seq<Hit>, k: nat) returns (n: nat)
    requires InOrder(hits)
    ensures UpTo(hits, k, n)
  {
    n := 0;
    while n < |hits| && hits[n].icount <= k
      invariant n <= |hits| && forall i :: 0 <= i < n ==> hits[i].icount <= k
    {
      n := n + 1;
    }
  }

  predicate Has(hits: seq<Hit>, icount: nat, num: nat) {
    exists h :: h in hits && h.icount == icount && h.num == num
  }

  /** Arriving at a breakpoint is a hit of it, unless the log has one there already. */
  ghost predicate Arrived(t: Table, hits: seq<Hit>, t': Table, hits': seq<Hit>, at: nat, num: nat) {
    if Has(hits, at, num) then t' == t && hits' == hits
    else
      && num in t && t' == t[num := t[num].(hitCount := t[num].hitCount + 1)]
      && hits' == hits + [Hit(at, num, false)]
  }

  /** Taking more off the log is taking it off all that there was. */
  lemma UndoMore(all: seq<Hit>, t: Table, hits: seq<Hit>, t1: Table, t2: Table, k: nat, at: nat, n: nat)
    requires UpTo(all, k, |hits|) && hits == all[..|hits|] && Counts(t1, t, all[|hits|..])
    requires UpTo(hits, at, n) && at <= k && Counts(t2, t1, hits[n..])
    ensures UpTo(all, at, n) && hits[..n] == all[..n] && Counts(t2, t, all[n..])
  {
    assert hits[n..] + all[|hits|..] == all[n..];
    CountsTrans(t2, t1, t, hits[n..], all[|hits|..]);
    forall i | 0 <= i < |all|
      ensures i < n ==> all[i].icount <= at
      ensures i >= n ==> all[i].icount > at
    {
      assert i < |hits| ==> all[i] == hits[i];
    }
  }

  class BreakpointTable {
    var table: Table
    var byAddr: map<nat, nat>
    var next: nat
    var hits: seq<Hit>
    /** Hits that are counted but can no longer be undone. */
    ghost var settled: map<nat, nat>
    /** How often each was asked to pass, less what settled hits used up. */
    ghost var allowance: map<nat, nat>

    ghost predicate Valid()
      reads this
    {
      && InOrder(hits)
      && Tallied(table, hits, settled, allowance)
      && Named(table, next, hits)
      && Addressed(byAddr, table)
    }

    /** A forward run can stop at every execute breakpoint there is. */
    ghost predicate Armed()
      reads this
    {
      forall n :: n in table && table[n].kind == Execute ==> table[n].address in byAddr
    }

    constructor ()
      ensures Valid() && Armed() && table == map[] && byAddr == map[] && hits == []
    {
      table, byAddr, next, hits := map[], map[], 1, [];
      settled, allowance := map[], map[];
    }

    predicate HitsAt(icount: nat, num: nat)
      reads this
    {
      Has(hits, icount, num)
    }

    // ---- the table ----

    method AddBreakpoint(address: nat, temporary: bool) returns (num: nat)
      requires Valid()
      modifies this
      ensures Valid() && (old(Armed()) ==> Armed())
      ensures num in table && table[num].kind == Execute && table[num].address == address
      ensures hits == old(hits) && (forall n :: n in old(table) ==> n in table && table[n] == old(table)[n])
      ensures num in old(table) ==> !temporary && table == old(table) && byAddr == old(byAddr)
      ensures num !in old(table) ==>
        && table == old(table)[num := Breakpoint(num, Execute, address, 1, true, 0, temporary, None, 0)]
        && byAddr == old(byAddr)[address := num]
    {
      hide Tallied, InOrder, Addressed;
      if n :| n in table && table[n].kind == Execute && table[n].address == address && !temporary {
        return n;
      }
      num := next;
      var bp := Breakpoint(num, Execute, address, 1, true, 0, temporary, None, 0);
      TallyNew(table, hits, settled, allowance, bp, next);
      AddressedPlus(byAddr, table, next, hits, bp);
      table := table[num := bp];
      byAddr := byAddr[address := num];
      settled, allowance := settled[num := 0], allowance[num := 0];
      next := next + 1;
    }

    method AddWatchpoint(address: nat, size: nat, kind: Kind) returns (num: Option<nat>)
      requires Valid()
      modifies this
      ensures Valid() && (old(Armed()) ==> Armed())
      ensures hits == old(hits) && byAddr == old(byAddr)
      ensures kind == Execute ==> num.None? && table == old(table)
      ensures kind != Execute ==> num.Some? && num.value !in old(table) && table == old(table)[num.value :=
        Breakpoint(num.value, kind, address, if size > 1 then size else 1, true, 0, false, None, 0)]
    {
      hide Tallied, InOrder, Addressed;
      if kind == Execute {
        return None;
      }
      var bp := Breakpoint(next, kind, address, if size > 1 then size else 1, true, 0, false, None, 0);
      TallyNew(table, hits, settled, allowance, bp, next);
      AddressedPlus(byAddr, table, next, hits, bp);
      table := table[next := bp];
      settled, allowance := settled[next := 0], allowance[next := 0];
      num := Some(next);
      next := next + 1;
    }

    method SetIgnoreCount(num: nat, count: nat)
      requires Valid() && num in table
      modifies this`table, this`allowance
      ensures Valid() && table == old(table)[num := old(table)[num].(ignoreCount := count)]
      ensures allowance == old(allowance)[num := count + Passed(hits, num)]
      ensures old(Armed()) ==> Armed()
    {
      hide Addressed, InOrder;
      StillAddressed(byAddr, table, table[num := table[num].(ignoreCount := count)]);
      table := table[num := table[num].(ignoreCount := count)];
      allowance := allowance[num := count + Passed(hits, num)];
    }

    /** A condition that compiles, or None for no condition. */
    method SetCondition(num: nat, condition: Option<nat>)
      requires Valid() && num in table
      modifies this`table
      ensures Valid() && table == old(table)[num := old(table)[num].(condition := condition)]
      ensures old(Armed()) ==> Armed()
    {
      hide InOrder, Fired, Passed;
      forall n | n in table
        ensures NotOnTop(byAddr, table[num := table[num].(condition := condition)], n)
      {
        assert NotOnTop(byAddr, table, n);
      }
      table := table[num := table[num].(condition := condition)];
    }

    /**
     Everything an execute breakpoint shares its address with is disarmed along with it, when it was
     the one added last.
     */
    method DeleteBreakpoint(num: nat)
      requires Valid() && num in table
      modifies this`table, this`byAddr
      ensures Valid() && table == old(table) - {num}
      ensures byAddr == Disarmed(old(byAddr), old(table)[num], num)
      ensures old(Armed()) ==> (Armed() <==> !(exists n :: n in table && LeansOn(old(byAddr), table[n], num)))
    {
      hide Addressed, InOrder;
      var bp := table[num];
      AddressedMinus(byAddr, table, num);
      table := table - {num};
      if bp.kind == Execute && bp.address in byAddr && byAddr[bp.address] == num {
        byAddr := byAddr - {bp.address};
      }
    }

    // ---- hits ----

    /** Log a hit and say whether to stop; with its condition not met a breakpoint has no hit. */
    method Triggers(num: nat, passes: bool, icount: nat) returns (stops: bool)
      requires Valid() && num in table && NoneAfter(hits, icount)
      modifies this`table, this`hits
      ensures Valid() && NoneAfter(hits, icount)
      ensures stops <==> passes && old(table)[num].ignoreCount == 0
      ensures hits == if passes then old(hits) + [Hit(icount, num, !stops)] else old(hits)
      ensures table == if passes then old(table)[num := Struck(old(table)[num])] else old(table)
    {
      hide Tallied, Fired, Passed, Addressed;
      if !passes {
        return false;
      }
      var bp := table[num];
      StillAddressed(byAddr, table, table[num := Struck(bp)]);
      TallyStrike(table, hits, settled, allowance, num, icount);
      table := table[num := Struck(bp)];
      hits := hits + [Hit(icount, num, bp.ignoreCount > 0)];
      stops := bp.ignoreCount == 0;
    }

    /** The hits after instruction k come off the log, and off the counts. */
    method UndoHits(k: nat, ghost n: nat)
      requires Valid() && UpTo(hits, k, n)
      modifies this`table, this`hits
      ensures Valid() && NoneAfter(hits, k)
      ensures hits == old(hits)[..n]
      ensures Counts(table, old(table), old(hits)[n..])
    {
      hide Tallied, Named, Addressed, InOrder, Counts;
      ghost var all, m := hits, |hits|;
      assert all[..m] == all && all[m..] == [];
      CountsNone(table);
      while hits != [] && hits[|hits| - 1].icount > k
        invariant Valid()
        invariant n <= m <= |all| && hits == all[..m]
        invariant Counts(table, old(table), all[m..])
        decreases |hits|
      {
        ghost var before := table;
        UndoLast();
        CountsTrans(table, before, old(table), [all[m - 1]], all[m..]);
        assert [all[m - 1]] + all[m..] == all[m - 1..];
        m := m - 1;
      }
    }

    method UndoLast()
      requires Valid() && hits != []
      modifies this`table, this`hits
      ensures Valid()
      ensures hits == old(hits)[..|old(hits)| - 1]
      ensures Counts(table, old(table), [old(hits)[|old(hits)| - 1]])
    {
      hide Tallied, Fired, Passed, Addressed;
      var hit := hits[|hits| - 1];
      CountPlus([], hit);
      assert [] + [hit] == [hit];
      CountsNone(table);
      TallyUndo(table, hits, settled, allowance);
      hits := hits[..|hits| - 1];
      if hit.num in table {
        StillAddressed(byAddr, table, table[hit.num := Unstruck(table[hit.num], hit.ignored)]);
        table := table[hit.num := Unstruck(table[hit.num], hit.ignored)];
      }
    }

    /** Hits from before the history are taken off the log, and stay counted. */
    method ForgetHits(earliest: nat) returns (ghost n: nat)
      requires Valid()
      modifies this`hits, this`settled, this`allowance
      ensures Valid()
      ensures n <= |old(hits)| && hits == old(hits)[n..] == Since(old(hits), earliest)
      ensures forall i :: 0 <= i < n ==> old(hits)[i].icount < earliest
      ensures forall i :: 0 <= i < |hits| ==> hits[i].icount >= earliest
    {
      hide Tallied, Named, Addressed, Since;
      ghost var all := hits;
      n := 0;
      assert all[n..] == all;
      while hits != [] && hits[0].icount < earliest
        invariant Valid()
        invariant 0 <= n <= |all| && hits == all[n..]
        invariant forall i :: 0 <= i < n ==> all[i].icount < earliest
        decreases |hits|
      {
        assert hits[0] == all[n];
        SettleFirst();
        n := n + 1;
      }
      SinceDrops(all, earliest, n);
    }

    method SettleFirst()
      requires Valid() && hits != []
      modifies this`hits, this`settled, this`allowance
      ensures Valid()
      ensures hits == old(hits)[1..]
    {
      hide Tallied, Fired, Passed, Addressed;
      var hit := hits[0];
      TallySettle(table, hits, settled, allowance);
      if hit.num in table {
        settled := settled[hit.num := settled[hit.num] + 1];
        allowance := allowance[hit.num := allowance[hit.num] - (if hit.ignored then 1 else 0)];
      }
      hits := hits[1..];
    }

    /** Arriving backwards where the forward run never counted a hit is the first hit there. */
    method Recount(at: nat, num: nat)
      requires Valid() && num in table && NoneAfter(hits, at)
      modifies this`table, this`hits
      ensures Valid() && NoneAfter(hits, at) && HitsAt(at, num)
      ensures Arrived(old(table), old(hits), table, hits, at, num)
    {
      hide Tallied, Fired, Passed, Inserted, Addressed;
      if !HitsAt(at, num) {
        var h := Hit(at, num, false);
        StillAddressed(byAddr, table, table[num := table[num].(hitCount := table[num].hitCount + 1)]);
        TallyArrival(table, hits, settled, allowance, num, at);
        InsertedAtEnd(hits, h);
        assert h in hits + [h];
        table := table[num := table[num].(hitCount := table[num].hitCount + 1)];
        hits := Inserted(hits, h);
      }
    }
  }

  /**
   A temporary breakpoint on top of a permanent one: once it has gone, the permanent one is there and is
   not armed.
   */
  method TemporaryDisarms() returns (there: bool, armed: bool)
    ensures there && !armed
  {
    var bps := new BreakpointTable();
    var permanent := bps.AddBreakpoint(0x1000, false);
    var temporary := bps.AddBreakpoint(0x1000, true);
    bps.DeleteBreakpoint(temporary);
    there := permanent in bps.table && bps.table[permanent].enabled && bps.table[permanent].kind == Execute;
    armed := 0x1000 in bps.byAddr;
  }
}
