/** Symbol names: sorted indexes looked up by bisection, against a plain scan of all the symbols. */
module Symbols {
  import opened Options

  const FUNCTION := "function"
  const REACH: int := 0x100000

  datatype Symbol = Symbol(name: string, address: int, size: int, kind: string) {
    function End(): int {
      address + if size > 1 then size else 1
    }

    predicate Contains(a: int) {
      address <= a < End()
    }
  }

  // ---- the order ----

  predicate NameAtMost(a: string, b: string) {
    a == [] || (b != [] && (a[0] < b[0] || (a[0] == b[0] && NameAtMost(a[1..], b[1..]))))
  }

  lemma {:induction false} NamesTotal(a: string, b: string)
    ensures NameAtMost(a, b) || NameAtMost(b, a)
  {
    if a == [] || b == [] {
    } else {
      NamesTotal(a[1..], b[1..]);
    }
  }

  lemma {:induction false} NamesTransitive(a: string, b: string, c: string)
    requires NameAtMost(a, b) && NameAtMost(b, c)
    ensures NameAtMost(a, c)
  {
    if a == [] || a[0] != b[0] || b[0] != c[0] {
    } else {
      NamesTransitive(a[1..], b[1..], c[1..]);
    }
  }

  /** By address, then functions before the rest, then by name. */
  predicate AtMost(a: Symbol, b: Symbol) {
    if a.address != b.address then a.address < b.address
    else if (a.kind == FUNCTION) != (b.kind == FUNCTION) then a.kind == FUNCTION
    else NameAtMost(a.name, b.name)
  }

  ghost predicate Ordered(s: seq<Symbol>) {
    forall i, j :: 0 <= i < j < |s| ==> AtMost(s[i], s[j])
  }

  /** Put a symbol behind everything it does not come before. */
  function Insert(s: seq<Symbol>, x: Symbol): seq<Symbol> {
    if s == [] || AtMost(s[|s| - 1], x) then s + [x]
    else Insert(s[..|s| - 1], x) + [s[|s| - 1]]
  }

  function Sort(s: seq<Symbol>): seq<Symbol> {
    if s == [] then [] else Insert(Sort(s[..|s| - 1]), s[|s| - 1])
  }

  lemma {:induction false} InsertKeeps(s: seq<Symbol>, x: Symbol)
    requires Ordered(s)
    ensures Ordered(Insert(s, x)) && multiset(Insert(s, x)) == multiset(s) + multiset{x}
  {
    hide AtMost;
    if s == [] {
    } else {
      var init, last := s[..|s| - 1], s[|s| - 1];
      assert s == init + [last];
      if AtMost(last, x) {
        forall i | 0 <= i < |s|
          ensures AtMost(s[i], x)
        {
          AtMostVia(s[i], last, x);
        }
      } else {
        InsertKeeps(init, x);
        var r := Insert(init, x);
        OneOrTheOther(last, x);
        forall i | 0 <= i < |r|
          ensures AtMost(r[i], last)
        {
          assert r[i] in multiset(r);
          assert r[i] in multiset(init) + multiset{x};
          assert r[i] == x || r[i] in init;
        }
      }
    }
  }

  lemma OneOrTheOther(a: Symbol, b: Symbol)
    ensures AtMost(a, b) || AtMost(b, a)
  {
    NamesTotal(a.name, b.name);
  }

  lemma AtMostVia(a: Symbol, b: Symbol, c: Symbol)
    requires (a == b || AtMost(a, b)) && AtMost(b, c)
    ensures AtMost(a, c)
  {
    if NameAtMost(a.name, b.name) && NameAtMost(b.name, c.name) {
      NamesTransitive(a.name, b.name, c.name);
    }
  }

  /** Sorting orders the symbols and neither loses nor adds one. */
  lemma {:induction false} SortSorts(s: seq<Symbol>)
    ensures Ordered(Sort(s)) && multiset(Sort(s)) == multiset(s)
  {
    if s == [] {
    } else {
      SortSorts(s[..|s| - 1]);
      InsertKeeps(Sort(s[..|s| - 1]), s[|s| - 1]);
      assert s == s[..|s| - 1] + [s[|s| - 1]];
    }
  }

  lemma {:induction false} SortOfSorted(s: seq<Symbol>)
    requires Ordered(s)
    ensures Sort(s) == s
  {
    hide AtMost;
    if s == [] {
    } else {
      SortOfSorted(s[..|s| - 1]);
      assert s == s[..|s| - 1] + [s[|s| - 1]];
    }
  }

  // ---- looking up, by scanning everything ----

  function Addresses(s: seq<Symbol>): (r: seq<int>)
    ensures |r| == |s|
  {
    seq(|s|, i requires 0 <= i < |s| => s[i].address)
  }

  function Sized(s: seq<Symbol>): seq<Symbol> {
    if s == [] then []
    else if s[|s| - 1].size != 0 then Sized(s[..|s| - 1]) + [s[|s| - 1]]
    else Sized(s[..|s| - 1])
  }

  lemma {:induction false} SizedKeeps(s: seq<Symbol>)
    ensures forall x :: x in Sized(s) <==> x in s && x.size != 0
    ensures Ordered(s) ==> Ordered(Sized(s))
  {
    if s == [] {
    } else {
      var init, last := s[..|s| - 1], s[|s| - 1];
      SizedKeeps(init);
      assert s == init + [last];
      assert forall x :: x in Sized(init) ==> x in init;
      forall i | 0 <= i < |Sized(init)| && Ordered(s)
        ensures AtMost(Sized(init)[i], last)
      {
        assert Sized(init)[i] in init;
      }
    }
  }

  /** The nearest address at or before a is this symbol's, and it is the first there. */
  ghost predicate IsNearest(s: seq<Symbol>, a: int, i: nat) {
    && i < |s| && s[i].address <= a
    && (forall j :: 0 <= j < |s| && s[j].address <= a ==>
      s[j].address < s[i].address || (s[j].address == s[i].address && i <= j))
  }

  ghost predicate NoneBefore(s: seq<Symbol>, a: int) {
    forall j :: 0 <= j < |s| ==> s[j].address > a
  }

  /** The last symbol in order that contains the address. */
  function LastHolding(s: seq<Symbol>, a: int): (r: Option<nat>)
    ensures r.Some? ==> r.value < |s| && s[r.value].Contains(a) && forall j :: r.value < j < |s| ==> !s[j].Contains(a)
    ensures r.None? ==> forall j :: 0 <= j < |s| ==> !s[j].Contains(a)
  {
    if s == [] then None
    else if s[|s| - 1].Contains(a) then Some(|s| - 1)
    else LastHolding(s[..|s| - 1], a)
  }

  /** Looking back gets as far as k: the symbol after it, if at or before a, is near enough. */
  predicate GetsTo(s: seq<Symbol>, a: int, k: nat) {
    k + 1 < |s| && s[k + 1].address <= a ==> a - s[k + 1].address <= REACH
  }

  /** The last symbol that contains the address, if looking back gets that far. */
  function Encloser(s: seq<Symbol>, a: int): (r: Option<nat>)
    ensures r.Some? ==> r.value < |s| && s[r.value].Contains(a)
  {
    var k := LastHolding(s, a);
    if k.Some? && GetsTo(s, a, k.value) then k else None
  }

  /** With no symbol longer than the reach and one, looking back finds what a scan of everything does. */
  lemma ShortEnough(s: seq<Symbol>, a: int)
    requires Ordered(s) && forall i :: 0 <= i < |s| ==> s[i].size <= REACH + 1
    ensures Encloser(s, a) == LastHolding(s, a)
  {
  }

  /** One longer, and there are symbols where it does not. */
  lemma NotWhenLonger(size: int)
    requires size > REACH + 1
    ensures var s := [Symbol("a", 0, size, FUNCTION), Symbol("b", 0, 1, FUNCTION)];
      Ordered(s) && LastHolding(s, REACH + 1) == Some(0) && Encloser(s, REACH + 1) == None
  {
    var s := [Symbol("a", 0, size, FUNCTION), Symbol("b", 0, 1, FUNCTION)];
    assert s[0].Contains(REACH + 1) && !s[1].Contains(REACH + 1);
    assert s[..1] == [s[0]];
  }

  /** How many symbols are at or before the address. */
  function CountUpTo(s: seq<Symbol>, a: int): (n: nat)
    ensures n <= |s|
  {
    if s == [] then 0 else if s[|s| - 1].address <= a then |s| else CountUpTo(s[..|s| - 1], a)
  }

  lemma {:induction false} CountSplits(s: seq<Symbol>, a: int)
    requires Ordered(s)
    ensures forall i :: 0 <= i < |s| ==> (s[i].address <= a <==> i < CountUpTo(s, a))
  {
    if s == [] || s[|s| - 1].address <= a {
    } else {
      CountSplits(s[..|s| - 1], a);
    }
  }

  /** The name and offset found by walking back over labels from the n-th symbol. */
  function Walk(s: seq<Symbol>, sized: seq<Symbol>, a: int, max: int, n: nat): Option<(string, int)>
    requires n <= |s|
  {
    if n == 0 then None
    else
      var sym := s[n - 1];
      if a - sym.address > max || sym.size != 0 then None
      else if Encloser(sized, sym.address).None? then Some((sym.name, a - sym.address))
      else Walk(s, sized, a, max, n - 1)
  }

  function Description(s: seq<Symbol>, a: int, max: int): Option<(string, int)> {
    var k := Encloser(Sized(s), a);
    if k.Some? then Some((Sized(s)[k.value].name, a - Sized(s)[k.value].address))
    else Walk(s, Sized(s), a, max, CountUpTo(s, a))
  }

  ghost predicate Ascending(addrs: seq<int>) {
    forall i, j :: 0 <= i < j < |addrs| ==> addrs[i] <= addrs[j]
  }

  lemma AddressesAscend(s: seq<Symbol>)
    requires Ordered(s)
    ensures forall i :: 0 <= i < |s| ==> Addresses(s)[i] == s[i].address
    ensures Ascending(Addresses(s))
  {
    assert forall i, j :: 0 <= i < j < |s| ==> AtMost(s[i], s[j]);
  }

  /** The name is that of a function around the address, or of a label close before it that is in no function. */
  ghost predicate Describes(s: seq<Symbol>, a: int, max: int, x: Symbol) {
    && x in s && x.address <= a
    && if x.size != 0 then x.Contains(a)
      else a - x.address <= max && Encloser(Sized(s), x.address).None? && Encloser(Sized(s), a).None?
  }

  /** A label close enough to the address that lies in no function. */
  ghost predicate Standalone(s: seq<Symbol>, a: int, max: int, i: nat) {
    i < |s| && s[i].size == 0 && a - s[i].address <= max && Encloser(Sized(s), s[i].address).None?
  }

  /** Between the i-th symbol and the n-th there is a function. */
  ghost predicate Behind(s: seq<Symbol>, i: nat, n: nat)
    requires n <= |s|
  {
    exists j :: i < j < n && s[j].size != 0
  }

  lemma BehindLast(s: seq<Symbol>, n: nat)
    requires 0 < n <= |s|
    ensures !Behind(s, n - 1, n)
    ensures forall i: nat :: i < n - 1 ==> (Behind(s, i, n) <==> s[n - 1].size != 0 || Behind(s, i, n - 1))
  {
  }

  lemma {:induction false} WalkFinds(s: seq<Symbol>, a: int, max: int, n: nat)
    requires Ordered(s) && n <= CountUpTo(s, a) && Encloser(Sized(s), a).None?
    ensures var r := Walk(s, Sized(s), a, max, n);
      && (r.Some? ==> exists x :: Describes(s, a, max, x) && r.value == (x.name, a - x.address))
      && (r.None? <==> forall i: nat :: i < n && Standalone(s, a, max, i) ==> Behind(s, i, n))
  {
    hide Encloser, Sized, CountUpTo, AtMost, Ordered, Behind;
    if n == 0 {
    } else {
      CountSplits(s, a);
      AddressesAscend(s);
      BehindLast(s, n);
      var x := s[n - 1];
      if a - x.address > max {
        assert forall i :: 0 <= i < n - 1 ==> Addresses(s)[i] <= Addresses(s)[n - 1];
      } else if x.size != 0 {
      } else if Encloser(Sized(s), x.address).None? {
        assert Describes(s, a, max, x);
        assert Standalone(s, a, max, n - 1);
      } else {
        WalkFinds(s, a, max, n - 1);
      }
    }
  }

  /**
     A description is what it should be, and there is none exactly when no function looked back to
     holds the address and every label that would do has a function between it and the address.
   */
  lemma DescribeMeans(s: seq<Symbol>, a: int, max: int)
    requires Ordered(s)
    ensures var r := Description(s, a, max);
      && (r.Some? ==> exists x :: Describes(s, a, max, x) && r.value == (x.name, a - x.address))
      && (r.None? <==>
           && Encloser(Sized(s), a).None?
           && forall i: nat :: i < CountUpTo(s, a) && Standalone(s, a, max, i) ==> Behind(s, i, CountUpTo(s, a)))
  {
    SizedKeeps(s);
    var k := Encloser(Sized(s), a);
    if k.Some? {
      assert Sized(s)[k.value] in Sized(s);
      assert Describes(s, a, max, Sized(s)[k.value]);
    } else {
      WalkFinds(s, a, max, CountUpTo(s, a));
    }
  }

  // ---- moving the whole image ----

  function Shift(x: Symbol, d: int): Symbol {
    x.(address := x.address + d)
  }

  function Shifted(s: seq<Symbol>, d: int): (r: seq<Symbol>)
    ensures |r| == |s| && forall i :: 0 <= i < |s| ==> r[i] == Shift(s[i], d)
  {
    seq(|s|, i requires 0 <= i < |s| => Shift(s[i], d))
  }

  lemma ShiftedInit(s: seq<Symbol>, d: int)
    requires s != []
    ensures Shifted(s, d)[..|s| - 1] == Shifted(s[..|s| - 1], d)
    ensures Shifted(s, d) == Shifted(s[..|s| - 1], d) + [Shift(s[|s| - 1], d)]
  {
  }

  lemma ShiftedOrdered(s: seq<Symbol>, d: int)
    requires Ordered(s)
    ensures Ordered(Shifted(s, d)) && Sort(Shifted(s, d)) == Shifted(s, d)
  {
    SortOfSorted(Shifted(s, d));
  }

  lemma {:induction false} ShiftedSized(s: seq<Symbol>, d: int)
    ensures Sized(Shifted(s, d)) == Shifted(Sized(s), d)
  {
    if s == [] {
    } else {
      ShiftedInit(s, d);
      ShiftedSized(s[..|s| - 1], d);
    }
  }

  lemma {:induction false} ShiftedHolding(s: seq<Symbol>, d: int, a: int)
    ensures LastHolding(Shifted(s, d), a + d) == LastHolding(s, a)
    ensures Encloser(Shifted(s, d), a + d) == Encloser(s, a)
  {
    if s == [] {
    } else {
      ShiftedInit(s, d);
      ShiftedHolding(s[..|s| - 1], d, a);
    }
  }

  lemma {:induction false} ShiftedCount(s: seq<Symbol>, d: int, a: int)
    ensures CountUpTo(Shifted(s, d), a + d) == CountUpTo(s, a)
  {
    if s == [] {
    } else {
      ShiftedInit(s, d);
      ShiftedCount(s[..|s| - 1], d, a);
    }
  }

  lemma {:induction false} ShiftedWalk(s: seq<Symbol>, sized: seq<Symbol>, d: int, a: int, max: int, n: nat)
    requires n <= |s|
    ensures Walk(Shifted(s, d), Shifted(sized, d), a + d, max, n) == Walk(s, sized, a, max, n)
  {
    hide Encloser, Shifted;
    if n == 0 {
    } else {
      ShiftedHolding(sized, d, s[n - 1].address);
      ShiftedWalk(s, sized, d, a, max, n - 1);
    }
  }

  /** Every lookup of a shifted address in the shifted table names what the original did, at the same offset. */
  lemma LookupsShift(s: seq<Symbol>, d: int, a: int, max: int)
    requires Ordered(s)
    ensures Description(Shifted(s, d), a + d, max) == Description(s, a, max)
    ensures Encloser(Sized(Shifted(s, d)), a + d) == Encloser(Sized(s), a)
    ensures forall i: nat :: IsNearest(Shifted(s, d), a + d, i) <==> IsNearest(s, a, i)
    ensures NoneBefore(Shifted(s, d), a + d) <==> NoneBefore(s, a)
  {
    hide IsNearest, NoneBefore, Encloser, Walk, CountUpTo, Sized, Ordered, Shifted;
    ShiftedSized(s, d);
    ShiftedHolding(Sized(s), d, a);
    ShiftedCount(s, d, a);
    ShiftedWalk(s, Sized(s), d, a, max, CountUpTo(s, a));
    forall i: nat
      ensures IsNearest(Shifted(s, d), a + d, i) <==> IsNearest(s, a, i)
    {
      ShiftedNearest(s, d, a, i);
    }
    ShiftedNearest(s, d, a, 0);
  }

  lemma ShiftedNearest(s: seq<Symbol>, d: int, a: int, i: nat)
    ensures IsNearest(Shifted(s, d), a + d, i) <==> IsNearest(s, a, i)
    ensures NoneBefore(Shifted(s, d), a + d) <==> NoneBefore(s, a)
  {
    assert forall j :: 0 <= j < |s| ==> Shifted(s, d)[j].address == s[j].address + d;
  }

  // ---- the table ----

  /** The first symbol of the list with this name. */
  ghost predicate FirstNamed(s: seq<Symbol>, name: string, x: Symbol) {
    exists i :: 0 <= i < |s| && s[i] == x && x.name == name && forall j :: 0 <= j < i ==> s[j].name != name
  }

  /** Every symbol's name leads to a symbol of that name. */
  ghost predicate Names(byName: map<string, Symbol>, s: seq<Symbol>) {
    && (forall x :: x in s ==> x.name in byName)
    && (forall name :: name in byName ==> byName[name].name == name && byName[name] in s)
  }

  /** Names that were there keep their symbol, and the new ones have the first symbol of the list. */
  ghost predicate NamesAdded(was: map<string, Symbol>, now: map<string, Symbol>, symbols: seq<Symbol>) {
    && (forall name :: name in was ==> name in now && now[name] == was[name])
    && (forall name :: name in now && name !in was ==> FirstNamed(symbols, name, now[name]))
    && (forall x :: x in symbols ==> x.name in now)
  }

  lemma NamesPermute(byName: map<string, Symbol>, s: seq<Symbol>, t: seq<Symbol>)
    requires Names(byName, s) && multiset(s) == multiset(t)
    ensures Names(byName, t)
  {
    assert forall x :: x in s <==> x in multiset(s);
    assert forall x :: x in t <==> x in multiset(t);
  }

  lemma NamesMore(was: map<string, Symbol>, now: map<string, Symbol>, symbols: seq<Symbol>, x: Symbol, s: seq<Symbol>)
    requires NamesAdded(was, now, symbols) && Names(now, s) && forall y :: y in symbols ==> y in s
    ensures var now' := if x.name in now then now else now[x.name := x];
      NamesAdded(was, now', symbols + [x]) && Names(now', s + [x])
  {
    FirstNamedMore(symbols, x);
    assert (s + [x])[|s|] == x;
  }

  class SymbolTable {
    var imageBase: int
    var byName: map<string, Symbol>
    var sorted: seq<Symbol>
    var addrs: seq<int>
    var sized: seq<Symbol>
    var sizedAddrs: seq<int>

    ghost predicate Valid()
      reads this
    {
      && Ordered(sorted) && addrs == Addresses(sorted)
      && sized == Sized(sorted) && sizedAddrs == Addresses(sized)
      && Names(byName, sorted)
    }

    constructor (symbols: seq<Symbol>, imageBase: int)
      ensures Valid() && this.imageBase == imageBase && sorted == Sort(symbols)
      ensures forall name :: name in byName ==> FirstNamed(symbols, name, byName[name])
    {
      this.imageBase := imageBase;
      byName, sorted, addrs, sized, sizedAddrs := map[], [], [], [], [];
      new;
      Extend(symbols);
      assert [] + symbols == symbols;
    }

    /** Put symbols at the end, out of order; a name that is taken keeps the symbol it has. */
    method Append(symbols: seq<Symbol>)
      requires Names(byName, sorted)
      modifies `byName, `sorted
      ensures Names(byName, sorted) && sorted == old(sorted) + symbols && NamesAdded(old(byName), byName, symbols)
    {
      hide Names, NamesAdded;
      ghost var before, names := sorted, byName;
      NoNamesYet(names);
      assert symbols[..0] == [];
      for n := 0 to |symbols|
        invariant sorted == before + symbols[..n] && Names(byName, sorted)
        invariant NamesAdded(names, byName, symbols[..n])
      {
        var x := symbols[n];
        assert symbols[..n + 1] == symbols[..n] + [x];
        NamesMore(names, byName, symbols[..n], x, sorted);
        if x.name !in byName {
          byName := byName[x.name := x];
        }
        sorted := sorted + [x];
      }
      assert symbols[..|symbols|] == symbols;
    }

    method Extend(symbols: seq<Symbol>)
      requires Valid()
      modifies this
      ensures Valid() && imageBase == old(imageBase) && NamesAdded(old(byName), byName, symbols)
      ensures sorted == Sort(old(sorted) + symbols) && multiset(sorted) == multiset(old(sorted)) + multiset(symbols)
    {
      hide Names, NamesAdded, Ordered, Sized, Sort, Addresses;
      Append(symbols);
      SortSorts(sorted);
      NamesPermute(byName, sorted, Sort(sorted));
      sorted := Sort(sorted);
      addrs := Addresses(sorted);
      sized := Sized(sorted);
      sizedAddrs := Addresses(sized);
    }

    method Nearest(address: int) returns (r: Option<(Symbol, int)>)
      requires Valid()
      ensures r.None? <==> NoneBefore(sorted, address)
      ensures r.Some? ==>
        exists i: nat :: IsNearest(sorted, address, i) && r.value == (sorted[i], address - sorted[i].address)
    {
      hide Ordered, Sized, Addresses, Names, Ascending, IsNearest;
      if sorted == [] {
        return None;
      }
      AddressesAscend(sorted);
      var n := Bisect(addrs, address);
      if n == 0 {
        return None;
      }
      var i := n - 1;
      var at := addrs[i];
      while i > 0 && addrs[i - 1] == at
        invariant 0 <= i < n && addrs[i] == at
      {
        i := i - 1;
      }
      FirstOfNearest(sorted, address, i, n);
      r := Some((sorted[i], address - sorted[i].address));
    }

    method Enclosing(address: int) returns (r: Option<(Symbol, int)>)
      requires Valid()
      ensures var k := Encloser(sized, address);
        r == if k.Some? then Some((sized[k.value], address - sized[k.value].address)) else None
    {
      hide Ordered, Sized, Addresses, LastHolding, Encloser, Names, GetsTo, Ascending;
      SizedKeeps(sorted);
      AddressesAscend(sized);
      var i := Bisect(sizedAddrs, address);
      while i > 0
        invariant 0 <= i <= |sized|
        invariant forall j :: i <= j < |sized| ==> PassedBy(sized[j], address)
        invariant forall j :: 0 <= j < i ==> sized[j].address <= address
      {
        var sym := sized[i - 1];
        if sym.Contains(address) {
          EnclosedBy(sized, address, i - 1);
          return Some((sym, address - sym.address));
        }
        if address - sym.address > REACH {
          OutOfReach(sized, address, i - 1);
          return None;
        }
        i := i - 1;
      }
      EnclosedByNone(sized, address);
      r := None;
    }

    method Describe(address: int, max: int) returns (r: Option<(string, int)>)
      requires Valid()
      ensures r == Description(sorted, address, max)
    {
      hide Ordered, Sized, Addresses, Encloser, Names, CountUpTo, Ascending;
      var found := Enclosing(address);
      if found.Some? {
        return Some((found.value.0.name, found.value.1));
      }
      AddressesAscend(sorted);
      var i := Bisect(addrs, address);
      CountIs(sorted, address, i);
      while i > 0
        invariant 0 <= i <= |sorted|
        invariant Walk(sorted, sized, address, max, CountUpTo(sorted, address)) == Walk(sorted, sized, address, max, i)
      {
        var sym := sorted[i - 1];
        var offset := address - sym.address;
        if offset > max || sym.size != 0 {
          return None;
        }
        found := Enclosing(sym.address);
        if found.None? {
          return Some((sym.name, offset));
        }
        i := i - 1;
      }
      r := None;
    }

    /** The table moved so that the image base becomes `newBase`. */
    method Rebase(newBase: int) returns (r: SymbolTable)
      requires Valid()
      ensures r.Valid() && r.imageBase == newBase && r.sorted == Shifted(sorted, newBase - imageBase)
      ensures newBase == imageBase ==> r == this
      ensures newBase != imageBase ==> forall name :: name in r.byName ==> FirstNamed(r.sorted, name, r.byName[name])
      ensures forall name :: name in byName && newBase != imageBase ==>
        name in r.byName &&
          (r.byName[name] == Shift(byName[name], newBase - imageBase) <==> FirstNamed(sorted, name, byName[name]))
    {
      var delta := newBase - imageBase;
      if delta == 0 {
        assert Shifted(sorted, 0) == sorted;
        return this;
      }
      ShiftedOrdered(sorted, delta);
      r := new SymbolTable(Shifted(sorted, delta), newBase);
      forall name | name in byName
        ensures name in r.byName
        ensures (r.byName[name] == Shift(byName[name], delta) <==> FirstNamed(sorted, name, byName[name]))
      {
        var i :| 0 <= i < |sorted| && sorted[i] == byName[name];
        assert r.sorted[i].name == name && r.sorted[i] in r.sorted;
        FirstNamedShifts(sorted, delta, name, byName[name], r.byName[name]);
      }
    }
  }

  /** Two symbols of one name: the table leads to the one at 8, and moved by 16 it leads to the one that was at 0. */
  method MovedNameChanges() returns (was: Symbol, now: Symbol)
    ensures was.address == 8 && now.address == 16
  {
    hide Sort, Ordered, Addresses, Sized, Shifted, FirstNamed;
    var name := "f";
    var high, low := Symbol(name, 8, 0, "label"), Symbol(name, 0, 0, "label");
    SortedTwo(high, low);
    var table := new SymbolTable([high, low], 0);
    assert low in table.sorted && name in table.byName;
    was := table.byName[name];
    FirstOfTwo(high, low, was);
    var moved := table.Rebase(16);
    assert name in moved.byName;
    now := moved.byName[name];
    assert moved.sorted == [Shift(low, 16), Shift(high, 16)];
    FirstOfTwo(Shift(low, 16), Shift(high, 16), now);
  }

  lemma SortedTwo(x: Symbol, y: Symbol)
    requires y.address < x.address
    ensures Sort([x, y]) == [y, x]
  {
    assert [x, y][..1] == [x] && [x][..0] == [];
    assert Insert([], x) == [x] && Insert([], y) == [y];
    assert Sort([x]) == [x];
    assert Insert([x], y) == [y] + [x];
  }

  lemma FirstOfTwo(x: Symbol, y: Symbol, z: Symbol)
    requires x.name == y.name && FirstNamed([x, y], x.name, z)
    ensures z == x
  {
    assert [x, y][0] == x;
  }

  lemma FirstNamedShifts(s: seq<Symbol>, d: int, name: string, x: Symbol, y: Symbol)
    requires FirstNamed(Shifted(s, d), name, y)
    ensures y == Shift(x, d) <==> FirstNamed(s, name, x)
  {
    var i :| 0 <= i < |s| && Shifted(s, d)[i] == y && y.name == name && forall j :: 0 <= j < i ==>
      Shifted(s, d)[j].name != name;
    assert forall j :: 0 <= j < i ==> s[j].name == Shifted(s, d)[j].name;
    assert s[i].name == name;
    if y == Shift(x, d) {
      assert s[i] == x;
    }
  }

  lemma NoNamesYet(byName: map<string, Symbol>)
    ensures NamesAdded(byName, byName, [])
  {
  }

  lemma FirstNamedMore(s: seq<Symbol>, x: Symbol)
    ensures forall name, y :: FirstNamed(s, name, y) ==> FirstNamed(s + [x], name, y)
    ensures (forall y :: y in s ==> y.name != x.name) ==> FirstNamed(s + [x], x.name, x)
  {
    forall name, y | FirstNamed(s, name, y)
      ensures FirstNamed(s + [x], name, y)
    {
      var i :| 0 <= i < |s| && s[i] == y && y.name == name && forall j :: 0 <= j < i ==> s[j].name != name;
      assert (s + [x])[i] == y;
    }
    assert (s + [x])[|s|] == x;
  }

  lemma OutOfReach(s: seq<Symbol>, a: int, k: nat)
    requires Ordered(s) && k < |s| && s[k].address <= a && a - s[k].address > REACH && !s[k].Contains(a)
    requires forall j :: k < j < |s| ==> PassedBy(s[j], a)
    ensures Encloser(s, a) == None
  {
    var r := LastHolding(s, a);
    assert r.Some? ==> AtMost(s[r.value + 1], s[k]) || r.value + 1 == k;
  }

  lemma {:induction false} CountIs(s: seq<Symbol>, a: int, n: nat)
    requires n <= |s| && forall i :: 0 <= i < |s| ==> (s[i].address <= a <==> i < n)
    ensures CountUpTo(s, a) == n
  {
    if s == [] || n == |s| {
    } else {
      CountIs(s[..|s| - 1], a, n);
    }
  }

  lemma FirstOfNearest(s: seq<Symbol>, a: int, i: nat, n: nat)
    requires Ordered(s) && i < n <= |s| && s[i].address == s[n - 1].address
    requires (i > 0 ==> s[i - 1].address != s[i].address)
    requires forall j :: 0 <= j < |s| ==> (s[j].address <= a <==> j < n)
    ensures IsNearest(s, a, i)
  {
    forall j | 0 <= j < |s| && s[j].address <= a
      ensures s[j].address < s[i].address || (s[j].address == s[i].address && i <= j)
    {
      if j < i {
        assert j < i - 1 ==> AtMost(s[j], s[i - 1]);
        assert AtMost(s[i - 1], s[i]);
      } else if j < n - 1 {
        assert AtMost(s[j], s[n - 1]);
        assert j > i ==> AtMost(s[i], s[j]);
      }
    }
  }

  /** Looking back goes on past this symbol: it does not contain the address, and is not too far from it. */
  predicate PassedBy(x: Symbol, a: int) {
    !x.Contains(a) && (x.address <= a ==> a - x.address <= REACH)
  }

  lemma EnclosedBy(s: seq<Symbol>, a: int, k: nat)
    requires k < |s| && s[k].Contains(a) && forall j :: k < j < |s| ==> PassedBy(s[j], a)
    ensures Encloser(s, a) == Some(k)
  {
    assert LastHolding(s, a) == Some(k);
  }

  lemma EnclosedByNone(s: seq<Symbol>, a: int)
    requires forall j :: 0 <= j < |s| ==> PassedBy(s[j], a)
    ensures Encloser(s, a) == None
  {
  }

  /** How many of the sorted addresses are at most a. */
  method Bisect(addrs: seq<int>, a: int) returns (n: nat)
    requires Ascending(addrs)
    ensures n <= |addrs| && forall i :: 0 <= i < |addrs| ==> (addrs[i] <= a <==> i < n)
  {
    var hi := |addrs|;
    n := 0;
    while n < hi
      invariant n <= hi <= |addrs|
      invariant forall i :: 0 <= i < n ==> addrs[i] <= a
      invariant forall i :: hi <= i < |addrs| ==> addrs[i] > a
    {
      var mid := (n + hi) / 2;
      if addrs[mid] <= a {
        n := mid + 1;
      } else {
        hi := mid;
      }
    }
  }
}
