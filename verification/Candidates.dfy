/** Places a backward search may land on, and the order it looks at them in. */
module Candidates {
  import opened Options
  import opened Machine
  import opened Runs
  import opened Breakpoints

  /** Being stopped at `at`, by an execute breakpoint there or by a watchpoint for an access just made. */
  datatype Candidate = Candidate(at: nat, num: nat, access: Option<Access>)

  ghost predicate OldestFirst(cs: seq<Candidate>) {
    forall i, j :: 0 <= i < j < |cs| ==> cs[i].at <= cs[j].at
  }

  function Insert(cs: seq<Candidate>, c: Candidate): seq<Candidate> {
    if cs == [] || cs[|cs| - 1].at <= c.at then cs + [c]
    else Insert(cs[..|cs| - 1], c) + [cs[|cs| - 1]]
  }

  /** A stable sort by instruction. */
  function SortByAt(cs: seq<Candidate>): seq<Candidate> {
    if cs == [] then [] else Insert(SortByAt(cs[..|cs| - 1]), cs[|cs| - 1])
  }

  lemma {:induction false} InsertSorts(cs: seq<Candidate>, c: Candidate)
    requires OldestFirst(cs)
    ensures OldestFirst(Insert(cs, c)) && |Insert(cs, c)| == |cs| + 1
    ensures forall x :: x in Insert(cs, c) <==> x in cs || x == c
  {
    if cs == [] || cs[|cs| - 1].at <= c.at {
    } else {
      var init, last := cs[..|cs| - 1], cs[|cs| - 1];
      InsertSorts(init, c);
      assert cs == init + [last];
      forall x | x in Insert(init, c)
        ensures x.at <= last.at
      {
        AtMostLast(cs, x);
      }
    }
  }

  lemma AtMostLast(cs: seq<Candidate>, x: Candidate)
    requires OldestFirst(cs) && cs != []
    ensures x in cs ==> x.at <= cs[|cs| - 1].at
  {
  }

  lemma {:induction false} SortSorts(cs: seq<Candidate>)
    ensures OldestFirst(SortByAt(cs)) && |SortByAt(cs)| == |cs|
    ensures forall c :: c in SortByAt(cs) <==> c in cs
  {
    if cs == [] {
    } else {
      var init, last := cs[..|cs| - 1], cs[|cs| - 1];
      SortSorts(init);
      InsertSorts(SortByAt(init), last);
      assert cs == init + [last];
    }
  }

  lemma NoLater(cs: seq<Candidate>, n: nat)
    requires OldestFirst(cs) && n < |cs|
    ensures forall i :: 0 <= i < n ==> cs[i].at <= cs[n].at
  {
  }

  // ---- what a breakpoint stops at ----

  predicate Passes(holds: (nat, State, Option<Access>) -> bool, bp: Breakpoint, m: State, access: Option<Access>) {
    bp.condition.None? || holds(bp.condition.value, m, access)
  }

  /** The engine calls a watchpoint's hook for an access of its kind that starts inside its range. */
  predicate Sees(bp: Breakpoint, access: Access) {
    && (if access.write then bp.kind == Kind.Write || bp.kind == ReadWrite else bp.kind == Read || bp.kind == ReadWrite)
    && bp.address <= access.address <= bp.End()
  }

  /** Whether anything but instructions is watched for. */
  ghost predicate AnyWatched(table: Table) {
    exists n :: n in table && table[n].enabled && table[n].kind != Execute
  }

  ghost predicate Watched(table: Table, num: nat, access: Access) {
    num in table && table[num].enabled && Sees(table[num], access)
  }

  predicate StandsAt(bp: Breakpoint, address: int) {
    bp.enabled && bp.kind == Execute && bp.address == address
  }

  /** For each address with an enabled execute breakpoint, the one that was added last. */
  ghost predicate StandFor(byAddress: map<int, nat>, table: Table) {
    && (forall a :: a in byAddress ==> byAddress[a] in table && StandsAt(table[byAddress[a]], a))
    && (forall n :: n in table && table[n].enabled && table[n].kind == Execute ==>
         table[n].address in byAddress && n <= byAddress[table[n].address])
  }

  /** A recorded run and the breakpoints there are now, as a backward search from its end sees them. */
  datatype Search<!L(!new)> = Search(
    cpu: Cpu<L>,
    holds: (nat, State, Option<Access>) -> bool,
    hist: seq<World<L>>,
    byAddress: map<int, nat>,
    table: Table,
    hits: seq<Hit>,
    earliest: nat,
    from: nat)

  /** A candidate in reach whose condition is met there; what is left to ignore does not matter. */
  ghost predicate Lands<L(!new)>(s: Search<L>, c: Candidate) {
    && s.earliest <= c.at < |s.hist| - 1
    && c.num in s.table && Passes(s.holds, s.table[c.num], s.hist[c.at].m, c.access)
  }

  ghost predicate Landing<L(!new)>(s: Search<L>, lo: nat, hi: nat, c: Candidate)
    requires hi < |s.hist|
  {
    Marked(s.cpu, s.hist, s.byAddress, s.table, lo, hi, c) && Lands(s, c)
  }

  /** Nothing that instructions lo to hi do is worth landing on. */
  ghost predicate Empty<L(!new)>(s: Search<L>, lo: int, hi: int) {
    0 <= lo <= hi < |s.hist| ==> forall c :: !Landing(s, lo, hi, c)
  }

  /** Of all places to land on before the end of the run, c is the latest. */
  ghost predicate Best<L(!new)>(s: Search<L>, c: Candidate) {
    && s.earliest <= |s.hist| - 2
    && Landing(s, s.earliest, |s.hist| - 2, c)
    && forall c' :: Landing(s, s.earliest, |s.hist| - 2, c') ==> c'.at <= c.at
  }

  /** There is c to land on for something that instructions from `from` on do. */
  ghost predicate LandingFrom<L(!new)>(s: Search<L>, c: Candidate)
    requires |s.hist| >= 2
  {
    Landing(s, s.from, |s.hist| - 2, c)
  }

  /**
   The instructions from `from` on are enough to search: something they do is worth landing on, or they are
   all there are.
   */
  ghost predicate Findable<L(!new)>(s: Search<L>) {
    && s.earliest <= s.from <= |s.hist| - 2
    && (s.from == s.earliest || exists c :: LandingFrom(s, c))
  }

  /** As long as nothing newer than hi stops the run, hi is still among those instructions. */
  lemma StillToSearch<L(!new)>(s: Search<L>, hi: nat)
    requires Findable(s) && s.earliest <= hi && Empty(s, hi + 1, |s.hist| - 2)
    ensures hi >= s.from
  {
    if s.from > s.earliest {
      var c :| LandingFrom(s, c);
      assert hi + 1 <= s.from ==> Landing(s, hi + 1, |s.hist| - 2, c);
    }
  }

  /** A candidate is worth a visit only among them, when none after it in its window lands. */
  lemma StillToVisit<L(!new)>(s: Search<L>, lo: nat, hi: nat, cs: seq<Candidate>, n: nat)
    requires Findable(s) && s.earliest <= lo <= hi <= |s.hist| - 2 && Empty(s, hi + 1, |s.hist| - 2)
    requires forall c :: c in cs <==> Marked(s.cpu, s.hist, s.byAddress, s.table, lo, hi, c)
    requires OldestFirst(cs) && n < |cs| && forall i :: n < i < |cs| ==> !Lands(s, cs[i])
    ensures cs[n].at >= s.from
  {
    hide OldestFirst, Lands;
    assert cs[n] in cs;
    if s.from > s.earliest {
      var c :| LandingFrom(s, c);
      assert Landing(s, s.earliest, |s.hist| - 2, c);
      Split(s, s.earliest, lo, hi, |s.hist| - 2, c);
      if Marked(s.cpu, s.hist, s.byAddress, s.table, lo, hi, c) {
        var i :| 0 <= i < |cs| && cs[i] == c;
        NoLater(cs, n);
      }
    }
  }

  /** What the search comes to lies among them. */
  lemma StillToLand<L(!new)>(s: Search<L>, found: Option<Candidate>)
    requires Findable(s)
    requires found.None? ==> Empty(s, s.earliest, |s.hist| - 2)
    requires found.Some? ==> Best(s, found.value)
    ensures found.None? ==> s.from == s.earliest
    ensures found.Some? ==> found.value.at >= s.from
  {
    if s.from > s.earliest {
      var c :| LandingFrom(s, c);
      assert Landing(s, s.earliest, |s.hist| - 2, c);
    }
  }

  /** The candidates of a window, whose best is `best` if there is one. */
  ghost predicate BestOf<L(!new)>(s: Search<L>, cs: seq<Candidate>, best: Option<Candidate>) {
    match best
    case None => forall c :: c in cs ==> !Lands(s, c)
    case Some(b) => b in cs && Lands(s, b) && forall c :: c in cs && Lands(s, c) ==> c.at <= b.at
  }

  /** One window further back: the best there is the best of all, when nothing newer than the window holds. */
  lemma Wider<L(!new)>(s: Search<L>, lo: nat, hi: nat, cs: seq<Candidate>, best: Option<Candidate>)
    requires s.earliest <= lo <= hi <= |s.hist| - 2 && Empty(s, hi + 1, |s.hist| - 2)
    requires forall c :: c in cs <==> Marked(s.cpu, s.hist, s.byAddress, s.table, lo, hi, c)
    requires BestOf(s, cs, best)
    ensures best.None? ==> Empty(s, lo, |s.hist| - 2)
    ensures best.Some? ==> Best(s, best.value)
  {
    var last := |s.hist| - 2;
    match best
    case None =>
      forall c
        ensures Landing(s, lo, last, c) ==> c in cs
      {
        if Landing(s, lo, last, c) {
          Split(s, lo, lo, hi, last, c);
        }
      }
    case Some(b) =>
      forall c | Landing(s, s.earliest, last, c)
        ensures c.at <= b.at
      {
        Split(s, s.earliest, lo, hi, last, c);
      }
  }

  lemma Split<L(!new)>(s: Search<L>, from: nat, lo: nat, hi: nat, last: nat, c: Candidate)
    requires from <= lo <= hi <= last == |s.hist| - 2 && Empty(s, hi + 1, last) && Landing(s, from, last, c)
    ensures c.at <= lo || Marked(s.cpu, s.hist, s.byAddress, s.table, lo, hi, c)
    ensures from == lo ==> Marked(s.cpu, s.hist, s.byAddress, s.table, lo, hi, c)
  {
    assert hi + 1 <= last ==> !Landing(s, hi + 1, last, c);
  }

  lemma EmptyBeyond<L(!new)>(s: Search<L>, cur: nat)
    ensures Empty(s, cur, cur - 1)
  {
  }

  lemma BestIsIn<L(!new)>(s: Search<L>, c: Candidate)
    requires Best(s, c)
    ensures s.earliest <= c.at < |s.hist| - 1 && c.num in s.table
  {
  }

  lemma NothingToFind<L(!new)>(s: Search<L>)
    requires s.byAddress == map[] && !AnyWatched(s.table)
    ensures forall lo, hi :: Empty(s, lo, hi)
  {
    NothingWatched(s.table);
  }

  /**
   A breakpoint marks c, for something that instructions lo to hi do: one to execute marks its own
   instruction, and a watchpoint that of the next instruction.
   */
  ghost predicate Marked<L(!new)>(cpu: Cpu<L>, hist: seq<World<L>>, byAddress: map<int, nat>, table: Table, lo: nat,
                                  hi: nat, c: Candidate)
    requires hi < |hist|
  {
    match c.access
    case None => lo <= c.at <= hi && hist[c.at].m.ctx.Pc() in byAddress && byAddress[hist[c.at].m.ctx.Pc()] == c.num
    case Some(a) => lo < c.at <= hi + 1 && a in AccessesOf(cpu, hist[c.at - 1]) && Watched(table, c.num, a)
  }

  lemma NothingWatched(table: Table)
    requires !AnyWatched(table)
    ensures forall n, a :: !Watched(table, n, a)
  {
  }

  /** The same run as far as it goes, and breakpoints that differ only in their counts, fire the same. */
  lemma MarkedAlike<L(!new)>(cpu: Cpu<L>, h: seq<World<L>>, h': seq<World<L>>, byAddress: map<int, nat>, t: Table,
                             t': Table, lo: nat, hi: nat)
    requires hi < |h| && hi < |h'| && (forall j :: 0 <= j <= hi ==> h[j] == h'[j]) && SameButCounts(t, t')
    ensures forall c :: Marked(cpu, h, byAddress, t, lo, hi, c) <==> Marked(cpu, h', byAddress, t', lo, hi, c)
  {
  }

  lemma SameCondition(t: Table, t': Table)
    requires SameButCounts(t, t')
    ensures AnyWatched(t) <==> AnyWatched(t')
    ensures t.Keys == t'.Keys && forall n :: n in t ==> t[n].condition == t'[n].condition
  {
    assert forall n :: n in t ==> t[n].enabled == t'[n].enabled && t[n].kind == t'[n].kind;
  }
}
