/** Splitting a script into commands, on line breaks and on semicolons outside quotes. */
module Consoles {
  import opened Options

  /** What ends a line. */
  predicate IsBreak(c: char) {
    c in {'\n', '\r', '\U{0B}', '\U{0C}', '\U{1C}', '\U{1D}', '\U{1E}', '\U{85}', '\U{2028}', '\U{2029}'}
  }

  predicate IsSpace(c: char) {
    || IsBreak(c)
    || c in {' ', '\t', '\U{1F}', '\U{A0}', '\U{1680}', '\U{202F}', '\U{205F}', '\U{3000}'}
    || '\U{2000}' <= c <= '\U{200A}'
  }

  predicate IsQuote(c: char) {
    c == '\'' || c == '"'
  }

  // ---- lines ----

  function FirstBreak(s: string): (n: nat)
    ensures n <= |s| && (n < |s| ==> IsBreak(s[n])) && forall i :: 0 <= i < n ==> !IsBreak(s[i])
  {
    if s == [] || IsBreak(s[0]) then 0 else 1 + FirstBreak(s[1..])
  }

  /** Where the next line starts; a carriage return takes a line feed right behind it along. */
  function NextLine(s: string): (n: nat)
    ensures FirstBreak(s) <= n <= |s| && (FirstBreak(s) < |s| ==> FirstBreak(s) < n)
  {
    var n := FirstBreak(s);
    if n == |s| then n
    else if s[n] == '\r' && n + 1 < |s| && s[n + 1] == '\n' then n + 2
    else n + 1
  }

  function SplitLines(s: string): seq<string>
    decreases |s|
  {
    if s == [] then []
    else [s[..FirstBreak(s)]] + if FirstBreak(s) == |s| then [] else SplitLines(s[NextLine(s)..])
  }

  // ---- one line ----

  /** What is in quotes and what is not, after these characters. */
  function After(s: string, quote: Option<char>): Option<char> {
    if s == [] then quote else After(s[1..], Turned(s[0], quote))
  }

  function Turned(c: char, quote: Option<char>): Option<char> {
    if quote.Some? then if c == quote.value then None else quote
    else if IsQuote(c) then Some(c) else None
  }

  /** No semicolon and no comment sign outside quotes. */
  predicate Plain(s: string, quote: Option<char>) {
    s == [] || ((quote.Some? || (s[0] != ';' && s[0] != '#')) && Plain(s[1..], Turned(s[0], quote)))
  }

  /** The parts of what is left of a line, the first of which has begun with `current`. */
  function Parts(s: string, quote: Option<char>, current: string): seq<string>
    decreases |s|
  {
    if s == [] then [current]
    else if quote.None? && s[0] == '#' then [current]
    else if quote.None? && s[0] == ';' then [current] + Parts(s[1..], None, [])
    else Parts(s[1..], Turned(s[0], quote), current + [s[0]])
  }

  function StripLeft(s: string): string {
    if s != [] && IsSpace(s[0]) then StripLeft(s[1..]) else s
  }

  function StripRight(s: string): string {
    if s != [] && IsSpace(s[|s| - 1]) then StripRight(s[..|s| - 1]) else s
  }

  function Strip(s: string): string {
    StripRight(StripLeft(s))
  }

  function Stripped(parts: seq<string>): seq<string> {
    if parts == [] then []
    else Stripped(parts[..|parts| - 1]) + if Strip(parts[|parts| - 1]) == [] then [] else [Strip(parts[|parts| - 1])]
  }

  function LineCommands(line: string): seq<string> {
    Stripped(Parts(line, None, []))
  }

  function LinesCommands(lines: seq<string>): seq<string> {
    if lines == [] then [] else LinesCommands(lines[..|lines| - 1]) + LineCommands(lines[|lines| - 1])
  }

  /** The commands of a script, in order. */
  function Commands(text: string): seq<string> {
    LinesCommands(SplitLines(text))
  }

  // ---- the source's loops ----

  method SplitLine(line: string) returns (parts: seq<string>)
    ensures parts == Parts(line, None, [])
  {
    parts := [];
    var current, quote: Option<char>, n := "", None, 0;
    assert line[0..] == line;
    while n < |line|
      invariant 0 <= n <= |line|
      invariant Parts(line, None, []) == parts + Parts(line[n..], quote, current)
    {
      var c := line[n];
      assert line[n..][1..] == line[n + 1..];
      if quote.Some? {
        current := current + [c];
        if c == quote.value {
          quote := None;
        }
      } else if IsQuote(c) {
        quote := Some(c);
        current := current + [c];
      } else if c == '#' {
        break;
      } else if c == ';' {
        parts := parts + [current];
        current := "";
      } else {
        current := current + [c];
      }
      n := n + 1;
    }
    parts := parts + [current];
  }

  method SplitCommands(text: string) returns (out: seq<string>)
    ensures out == Commands(text)
  {
    hide SplitLines, Parts, Strip;
    out := [];
    var lines := SplitLines(text);
    for i := 0 to |lines|
      invariant out == LinesCommands(lines[..i])
    {
      var parts := SplitLine(lines[i]);
      assert lines[..i + 1][..i] == lines[..i];
      var before := out;
      for j := 0 to |parts|
        invariant out == before + Stripped(parts[..j])
      {
        assert parts[..j + 1][..j] == parts[..j];
        var part := Strip(parts[j]);
        if part != "" {
          out := out + [part];
        }
      }
      assert parts[..|parts|] == parts;
    }
    assert lines[..|lines|] == lines;
  }

  // ---- what a command is ----

  predicate NoBreaks(s: string) {
    forall i :: 0 <= i < |s| ==> !IsBreak(s[i])
  }

  /** One line, with nothing to strip, that has no separator or comment outside quotes. */
  predicate IsCommand(c: string) {
    c != "" && NoBreaks(c) && Strip(c) == c && Plain(c, None)
  }

  lemma {:induction false} AfterPlus(s: string, q: Option<char>, c: char)
    ensures After(s + [c], q) == Turned(c, After(s, q))
    ensures Plain(s + [c], q) <==> Plain(s, q) && (After(s, q).Some? || (c != ';' && c != '#'))
  {
    if s == [] {
    } else {
      assert (s + [c])[1..] == s[1..] + [c];
      AfterPlus(s[1..], Turned(s[0], q), c);
    }
  }

  lemma {:induction false} PlainParts(s: string, q: Option<char>, current: string)
    requires Plain(s, q)
    ensures Parts(s, q, current) == [current + s]
  {
    if s != [] {
      PlainParts(s[1..], Turned(s[0], q), current + [s[0]]);
      assert current + [s[0]] + s[1..] == current + s;
    } else {
      assert current + s == current;
    }
  }

  lemma {:induction false} PartsArePlain(s: string, q: Option<char>, current: string)
    requires Plain(current, None) && After(current, None) == q && NoBreaks(current) && NoBreaks(s)
    ensures forall x :: x in Parts(s, q, current) ==> Plain(x, None) && NoBreaks(x)
    decreases |s|
  {
    if s == [] || (q.None? && s[0] == '#') {
    } else if q.None? && s[0] == ';' {
      PartsArePlain(s[1..], None, []);
    } else {
      AfterPlus(current, None, s[0]);
      PartsArePlain(s[1..], Turned(s[0], q), current + [s[0]]);
    }
  }

  lemma {:induction false} PlainPrefix(a: string, n: nat, q: Option<char>)
    requires Plain(a, q) && n <= |a|
    ensures Plain(a[..n], q)
  {
    if n == 0 {
    } else {
      PlainPrefix(a[1..], n - 1, Turned(a[0], q));
      assert a[..n][1..] == a[1..][..n - 1];
    }
  }

  lemma {:induction false} StripLeftKeeps(s: string)
    requires Plain(s, None) && NoBreaks(s)
    ensures Plain(StripLeft(s), None) && NoBreaks(StripLeft(s)) && StripLeft(StripLeft(s)) == StripLeft(s)
  {
    if s == [] || !IsSpace(s[0]) {
    } else {
      StripLeftKeeps(s[1..]);
    }
  }

  lemma {:induction false} StripRightKeeps(s: string)
    requires Plain(s, None) && NoBreaks(s) && StripLeft(s) == s
    ensures var r := StripRight(s);
      Plain(r, None) && NoBreaks(r) && StripRight(r) == r && StripLeft(r) == r
  {
    if s == [] || !IsSpace(s[|s| - 1]) {
    } else {
      PlainPrefix(s, |s| - 1, None);
      StripLeftStays(s, |s| - 1);
      StripRightKeeps(s[..|s| - 1]);
    }
  }

  lemma StripLeftStays(s: string, n: nat)
    requires StripLeft(s) == s && n <= |s|
    ensures StripLeft(s[..n]) == s[..n]
  {
    StripLeftShorter(if s == [] then s else s[1..]);
  }

  lemma {:induction false} StripLeftShorter(s: string)
    ensures |StripLeft(s)| <= |s|
  {
    if s == [] {
    } else {
      StripLeftShorter(s[1..]);
    }
  }

  lemma {:induction false} StrippedAreCommands(parts: seq<string>)
    requires forall x :: x in parts ==> Plain(x, None) && NoBreaks(x)
    ensures forall c :: c in Stripped(parts) ==> IsCommand(c)
  {
    if parts == [] {
    } else {
      var last := parts[|parts| - 1];
      StrippedAreCommands(parts[..|parts| - 1]);
      StripLeftKeeps(last);
      StripRightKeeps(StripLeft(last));
    }
  }

  lemma {:induction false} LinesHaveNoBreaks(s: string)
    ensures forall line :: line in SplitLines(s) ==> NoBreaks(line)
    decreases |s|
  {
    if s == [] || FirstBreak(s) == |s| {
    } else {
      LinesHaveNoBreaks(s[NextLine(s)..]);
    }
  }

  lemma {:induction false} LinesGiveCommands(lines: seq<string>)
    requires forall line :: line in lines ==> NoBreaks(line)
    ensures forall c :: c in LinesCommands(lines) ==> IsCommand(c)
  {
    if lines == [] {
    } else {
      LinesGiveCommands(lines[..|lines| - 1]);
      PartsArePlain(lines[|lines| - 1], None, []);
      StrippedAreCommands(Parts(lines[|lines| - 1], None, []));
    }
  }

  lemma OutputsAreCommands(text: string)
    ensures forall c :: c in Commands(text) ==> IsCommand(c)
  {
    LinesHaveNoBreaks(text);
    LinesGiveCommands(SplitLines(text));
  }

  lemma OneLine(c: string)
    requires NoBreaks(c) && c != ""
    ensures SplitLines(c) == [c] && SplitLines(c + "\n") == [c]
  {
    assert FirstBreak(c) == |c| && c[..|c|] == c;
    assert (c + "\n")[|c|] == '\n';
    assert FirstBreak(c + "\n") == |c|;
    assert (c + "\n")[..|c|] == c && (c + "\n")[NextLine(c + "\n")..] == [];
  }

  /** The commands are exactly the texts that split to themselves, with or without a line feed behind. */
  lemma SplitsToItself(c: string)
    ensures IsCommand(c) <==> Commands(c) == [c]
    ensures IsCommand(c) ==> Commands(c + "\n") == [c]
  {
    OutputsAreCommands(c);
    if IsCommand(c) {
      OneLine(c);
      PlainParts(c, None, []);
      assert [] + c == c;
      OnlyPart(c);
    } else {
      assert Commands(c) == [c] ==> c in Commands(c);
    }
  }

  lemma OnlyPart(c: string)
    requires Parts(c, None, []) == [c] && Strip(c) == c && c != ""
    ensures LinesCommands([c]) == [c]
  {
    assert [c][..0] == [];
    assert Stripped([c]) == Stripped([]) + [c];
    assert LinesCommands([c]) == LinesCommands([]) + LineCommands(c);
  }

  // ---- scripts end to end ----

  /** Nothing, or a text that ends with a line feed. */
  predicate EndsLine(s: string) {
    s == [] || s[|s| - 1] == '\n'
  }

  lemma TakeInFront(a: string, b: string, n: nat)
    requires n <= |a|
    ensures (a + b)[..n] == a[..n]
  {
  }

  lemma DropInFront(a: string, b: string, n: nat)
    requires n <= |a|
    ensures (a + b)[n..] == a[n..] + b
  {
  }

  lemma {:induction false} LinesConcat(a: string, b: string)
    requires EndsLine(a)
    ensures SplitLines(a + b) == SplitLines(a) + SplitLines(b)
    decreases |a|
  {
    if a == [] {
      assert a + b == b;
    } else {
      BreakInFront(a, b);
      var n := NextLine(a);
      TakeInFront(a, b, FirstBreak(a));
      DropInFront(a, b, n);
      LinesConcat(a[n..], b);
    }
  }

  lemma {:induction false} BreakInFront(a: string, b: string)
    requires a != [] && EndsLine(a)
    ensures FirstBreak(a) < |a| && FirstBreak(a + b) == FirstBreak(a) && NextLine(a + b) == NextLine(a)
  {
    assert IsBreak(a[|a| - 1]);
    assert forall i :: 0 <= i < |a| ==> (a + b)[i] == a[i];
  }

  lemma {:induction false} LinesCommandsConcat(a: seq<string>, b: seq<string>)
    ensures LinesCommands(a + b) == LinesCommands(a) + LinesCommands(b)
  {
    hide LineCommands;
    if b == [] {
      assert a + b == a;
    } else {
      assert (a + b)[..|a + b| - 1] == a + b[..|b| - 1];
      LinesCommandsConcat(a, b[..|b| - 1]);
    }
  }

  lemma CommandsConcat(a: string, b: string)
    requires EndsLine(a)
    ensures Commands(a + b) == Commands(a) + Commands(b)
  {
    LinesConcat(a, b);
    LinesCommandsConcat(SplitLines(a), SplitLines(b));
  }

  /** The commands with a line feed between each two. */
  function Join(commands: seq<string>): string {
    if commands == [] then ""
    else if |commands| == 1 then commands[0]
    else commands[0] + "\n" + Join(commands[1..])
  }

  lemma {:induction false} JoinSplits(commands: seq<string>)
    requires forall c :: c in commands ==> IsCommand(c)
    ensures Commands(Join(commands)) == commands
  {
    if |commands| == 1 {
      SplitsToItself(commands[0]);
    } else if |commands| > 1 {
      JoinSplits(commands[1..]);
      SplitsToItself(commands[0]);
      CommandsConcat(commands[0] + "\n", Join(commands[1..]));
    }
  }

  /** Splitting what splitting gave changes nothing. */
  lemma SplitAgain(text: string)
    ensures Commands(Join(Commands(text))) == Commands(text)
  {
    OutputsAreCommands(text);
    JoinSplits(Commands(text));
  }

  // ---- comments ----

  /** What comes after the first line break, if there is one. */
  function Rest(line: string): string {
    line[NextLine(line)..]
  }

  /** A comment hides itself up to its first line break, and nothing of what is behind that. */
  lemma CommentHides(line: string)
    requires line != "" && line[0] == '#'
    ensures Commands(line) == Commands(Rest(line))
    ensures NoBreaks(line) ==> Commands(line + "\n") == []
  {
    NothingFrom(line[..FirstBreak(line)]);
    if FirstBreak(line) < |line| {
      LinesCommandsConcat([line[..FirstBreak(line)]], SplitLines(Rest(line)));
    } else {
      assert line[..FirstBreak(line)] == line;
      assert Rest(line) == [];
      OneLine(line);
    }
  }

  lemma NothingFrom(comment: string)
    requires comment != "" && comment[0] == '#'
    ensures LinesCommands([comment]) == []
  {
    assert [comment][..0] == [];
    assert Parts(comment, None, []) == [""];
    assert [""][..0] == [];
    assert Strip("") == "";
  }
}
