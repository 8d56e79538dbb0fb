/** A session's recording: a text to read, which is also a script to run again. */
module Recordings {
  import opened Options
  import opened Consoles

  const ESCAPE: char := '\U{1B}'

  /** What is put into a recording, in order. */
  datatype Happening =
    | Noted(text: string)
    | Printed(text: string)
    | Typed(line: string)
    | Blank

  // ---- what each writes ----

  predicate IsLetter(c: char) {
    'A' <= c <= 'Z' || 'a' <= c <= 'z'
  }

  /** Past the digits and semicolons. */
  function Parameters(s: string): (n: nat)
    ensures n <= |s|
  {
    if s != [] && ('0' <= s[0] <= '9' || s[0] == ';') then 1 + Parameters(s[1..]) else 0
  }

  /** How long the colour escape at the front is, or 0 when there is none. */
  function EscapeLength(s: string): (n: nat)
    ensures n <= |s|
  {
    if |s| < 2 || s[0] != ESCAPE || s[1] != '[' then 0
    else
      var n := 2 + Parameters(s[2..]);
      if n < |s| && IsLetter(s[n]) then n + 1 else 0
  }

  function WithoutColours(s: string): string
    decreases |s|
  {
    if s == [] then []
    else if EscapeLength(s) > 0 then WithoutColours(s[EscapeLength(s)..])
    else [s[0]] + WithoutColours(s[1..])
  }

  function WithoutFeeds(s: string): string {
    if s != [] && s[|s| - 1] == '\n' then WithoutFeeds(s[..|s| - 1]) else s
  }

  /** The pieces between line feeds, which are the only breaks this looks at. */
  function Pieces(s: string, current: string): seq<string> {
    if s == [] then [current]
    else if s[0] == '\n' then [current] + Pieces(s[1..], [])
    else Pieces(s[1..], current + [s[0]])
  }

  function NoteLines(text: string): seq<string> {
    if SplitLines(text) == [] then [""] else SplitLines(text)
  }

  function PrintedLines(text: string): seq<string> {
    var clean := WithoutColours(text);
    if Strip(clean) == "" then [] else Pieces(WithoutFeeds(clean), [])
  }

  /** Each line behind the mark, with a line feed. */
  function Marked(mark: string, lines: seq<string>): string {
    if lines == [] then [] else Marked(mark, lines[..|lines| - 1]) + mark + lines[|lines| - 1] + "\n"
  }

  const NOTE := "# "
  const PRINTED := "#  | "

  function Written(h: Happening): string {
    match h
    case Noted(text) => Marked(NOTE, NoteLines(text))
    case Printed(text) => Marked(PRINTED, PrintedLines(text))
    case Typed(line) => if Strip(line) == "" then "" else Strip(line) + "\n"
    case Blank => "\n"
  }

  function Script(hs: seq<Happening>): string {
    if hs == [] then "" else Script(hs[..|hs| - 1]) + Written(hs[|hs| - 1])
  }

  /** The commands that were typed. */
  function Issued(hs: seq<Happening>): seq<string> {
    if hs == [] then []
    else
      var last := hs[|hs| - 1];
      Issued(hs[..|hs| - 1]) + if last.Typed? && Strip(last.line) != "" then [Strip(last.line)] else []
  }

  // ---- what each comes to when the file is run ----

  /** What a printed line leaves uncommented: everything behind its first line break. */
  function Leaked(line: string): seq<string> {
    Commands(Rest(PRINTED + line + "\n"))
  }

  /** Written down so that it runs as what it is: a command as itself, anything else as nothing. */
  predicate Safe(h: Happening) {
    match h
    case Noted(_) => true
    case Printed(text) => forall line :: line in PrintedLines(text) ==> Leaked(line) == []
    case Typed(line) => Strip(line) == "" || IsCommand(Strip(line))
    case Blank => true
  }

  lemma {:induction false} MarkedEnds(mark: string, lines: seq<string>)
    ensures EndsLine(Marked(mark, lines))
  {
  }

  lemma {:induction false} MarkedNothing(mark: string, lines: seq<string>)
    requires mark != "" && mark[0] == '#'
    ensures (forall line :: line in lines ==> Commands(Rest(mark + line + "\n")) == []) <==>
      Commands(Marked(mark, lines)) == []
  {
    hide Rest, Commands, Marked;
    if lines == [] {
      MarkedNone(mark);
    } else {
      var init, last := lines[..|lines| - 1], lines[|lines| - 1];
      assert lines == init + [last];
      MarkedNothing(mark, init);
      MarkedOneMore(mark, init, last);
    }
  }

  lemma MarkedNone(mark: string)
    ensures Commands(Marked(mark, [])) == []
  {
    assert SplitLines("") == [];
  }

  lemma MarkedOneMore(mark: string, init: seq<string>, last: string)
    requires mark != "" && mark[0] == '#'
    ensures Commands(Marked(mark, init + [last])) == Commands(Marked(mark, init)) + Commands(Rest(mark + last + "\n"))
  {
    hide Rest, Commands, EndsLine;
    assert (init + [last])[..|init|] == init;
    MarkedEnds(mark, init);
    assert Marked(mark, init + [last]) == Marked(mark, init) + (mark + last + "\n");
    CommandsConcat(Marked(mark, init), mark + last + "\n");
    CommentHides(mark + last + "\n");
  }

  lemma BreakAt(s: string, n: nat)
    requires n < |s| && IsBreak(s[n]) && NoBreaks(s[..n]) && !(s[n] == '\r' && n + 1 < |s| && s[n + 1] == '\n')
    ensures Rest(s) == s[n + 1..]
  {
    hide IsBreak;
    var m := FirstBreak(s);
    assert forall i :: 0 <= i < n ==> s[..n][i] == s[i];
    assert m == n;
  }

  lemma MarksHaveNoBreaks()
    ensures NoBreaks(NOTE) && NoBreaks(PRINTED) && IsBreak('\n') && IsBreak('\r')
  {
  }

  lemma NoteHides(line: string)
    requires NoBreaks(line)
    ensures Commands(Rest(NOTE + line + "\n")) == []
  {
    hide IsBreak;
    MarksHaveNoBreaks();
    var all := NOTE + line + "\n";
    assert all[..|all| - 1] == NOTE + line && all[|all| - 1] == '\n';
    BreakAt(all, |all| - 1);
    assert Rest(all) == [];
  }

  /** A printed line whose only break is the line feed that ends it leaks nothing. */
  lemma NothingLeaks(line: string)
    requires NoBreaks(line)
    ensures Leaked(line) == []
  {
    hide IsBreak;
    MarksHaveNoBreaks();
    var all := PRINTED + line + "\n";
    assert all[..|all| - 1] == PRINTED + line && all[|all| - 1] == '\n';
    BreakAt(all, |all| - 1);
    assert Rest(all) == [];
  }

  /** Any other break in what was printed lets what is behind it run. */
  lemma BreakLeaks(a: string, c: char, b: string)
    requires NoBreaks(a) && IsBreak(c) && c != '\n' && b != "" && b[0] != '\n'
    ensures Leaked(a + [c] + b) == Commands(b + "\n")
  {
    hide IsBreak, Commands;
    MarksHaveNoBreaks();
    var all := PRINTED + (a + [c] + b) + "\n";
    var n := |PRINTED| + |a|;
    assert all[..n] == PRINTED + a && all[n] == c && all[n + 1..] == b + "\n";
    assert (b + "\n")[0] == b[0] == all[n + 1];
    BreakAt(all, n);
  }

  lemma CarriageReturnLeaks()
    ensures Leaked("10%" + ['\r'] + "quit") == ["quit"]
  {
    MarksHaveNoBreaks();
    BreakLeaks("10%", '\r', "quit");
    QuitIsCommand();
    SplitsToItself("quit");
  }

  lemma QuitIsCommand()
    ensures IsCommand("quit")
  {
    assert StripLeft("quit") == "quit" && StripRight("quit") == "quit";
    assert "quit"[1..] == "uit" && "uit"[1..] == "it" && "it"[1..] == "t" && "t"[1..] == "";
    assert Plain("t", None) && Plain("it", None) && Plain("uit", None);
  }

  /** When a line feed is the only break in what was printed, nothing of it runs. */
  lemma OnlyFeedsIsSafe(text: string)
    requires forall i :: 0 <= i < |text| ==> IsBreak(text[i]) ==> text[i] == '\n'
    ensures Safe(Printed(text))
  {
    var clean := WithoutColours(text);
    ColoursKeep(text);
    FeedsKeep(clean);
    PiecesHaveNoBreaks(WithoutFeeds(clean), []);
    forall line | line in PrintedLines(text)
      ensures Leaked(line) == []
    {
      NothingLeaks(line);
    }
  }

  ghost predicate OnlyFeeds(s: string) {
    forall i :: 0 <= i < |s| ==> IsBreak(s[i]) ==> s[i] == '\n'
  }

  lemma {:induction false} ColoursKeep(s: string)
    requires OnlyFeeds(s)
    ensures OnlyFeeds(WithoutColours(s))
    decreases |s|
  {
    if s == [] {
    } else {
      ColoursKeep(if EscapeLength(s) > 0 then s[EscapeLength(s)..] else s[1..]);
    }
  }

  lemma {:induction false} FeedsKeep(s: string)
    requires OnlyFeeds(s)
    ensures OnlyFeeds(WithoutFeeds(s))
  {
    if s == [] {
    } else {
      FeedsKeep(s[..|s| - 1]);
    }
  }

  lemma {:induction false} PiecesHaveNoBreaks(s: string, current: string)
    requires OnlyFeeds(s) && NoBreaks(current)
    ensures forall x :: x in Pieces(s, current) ==> NoBreaks(x)
  {
    if s == [] {
    } else {
      PiecesHaveNoBreaks(s[1..], if s[0] == '\n' then [] else current + [s[0]]);
    }
  }

  lemma WrittenEnds(h: Happening)
    ensures EndsLine(Written(h))
  {
    match h
    case Noted(text) => MarkedEnds(NOTE, NoteLines(text));
    case Printed(text) => MarkedEnds(PRINTED, PrintedLines(text));
    case Typed(line) =>
    case Blank =>
  }

  lemma {:induction false} ScriptEnds(hs: seq<Happening>)
    ensures EndsLine(Script(hs))
  {
    if hs == [] {
    } else {
      ScriptEnds(hs[..|hs| - 1]);
      WrittenEnds(hs[|hs| - 1]);
    }
  }

  /** Anything but a command runs as nothing exactly when it is safe. */
  lemma WrittenRuns(h: Happening)
    ensures !h.Typed? ==> (Commands(Written(h)) == [] <==> Safe(h))
    ensures h.Typed? && Strip(h.line) == "" ==> Commands(Written(h)) == []
    ensures h.Typed? && Safe(h) && Strip(h.line) != "" ==> Commands(Written(h)) == [Strip(h.line)]
  {
    match h
    case Noted(text) =>
      LinesHaveNoBreaks(text);
      forall line | line in NoteLines(text)
        ensures Commands(Rest(NOTE + line + "\n")) == []
      {
        NoteHides(line);
      }
      MarkedNothing(NOTE, NoteLines(text));
    case Printed(text) => MarkedNothing(PRINTED, PrintedLines(text));
    case Typed(line) =>
      assert SplitLines("") == [];
      SplitsToItself(Strip(line));
    case Blank =>
      assert SplitLines("\n") == [""];
      assert Parts("", None, []) == [""];
      OnlyEmpty();
  }

  lemma OnlyEmpty()
    ensures LinesCommands([""]) == []
  {
    assert [""][..0] == [];
    assert Strip("") == "";
    assert Stripped([""]) == Stripped([]);
    assert LinesCommands([""]) == LinesCommands([]) + LineCommands("");
  }

  /** What runs is at least what was safely typed, and more for everything unsafe in between. */
  lemma {:induction false} ScriptRuns(hs: seq<Happening>)
    requires forall h :: h in hs && h.Typed? ==> Safe(h)
    ensures |Commands(Script(hs))| >= |Issued(hs)|
    ensures (forall h :: h in hs ==> Safe(h)) ==> Commands(Script(hs)) == Issued(hs)
    ensures |Commands(Script(hs))| == |Issued(hs)| ==> forall h :: h in hs ==> Safe(h)
  {
    if hs == [] {
      assert SplitLines("") == [];
    } else {
      var init, last := hs[..|hs| - 1], hs[|hs| - 1];
      assert hs == init + [last];
      ScriptRuns(init);
      ScriptEnds(init);
      CommandsConcat(Script(init), Written(last));
      WrittenRuns(last);
    }
  }

  lemma {:induction false} IssuedHas(hs: seq<Happening>, h: Happening)
    requires h in hs && h.Typed? && Strip(h.line) != ""
    ensures Strip(h.line) in Issued(hs)
  {
    var init, last := hs[..|hs| - 1], hs[|hs| - 1];
    assert hs == init + [last];
    if h == last {
    } else {
      IssuedHas(init, h);
    }
  }

  /**
     The recording runs as exactly the commands that were typed, in order, if and only if every
     typed line splits to itself and nothing printed leaks.
   */
  lemma RunsAsTypedIff(hs: seq<Happening>)
    ensures Commands(Script(hs)) == Issued(hs) <==> forall h :: h in hs ==> Safe(h)
  {
    OutputsAreCommands(Script(hs));
    if forall h :: h in hs && h.Typed? ==> Safe(h) {
      ScriptRuns(hs);
    } else {
      var h :| h in hs && h.Typed? && !Safe(h);
      IssuedHas(hs, h);
    }
  }

  // ---- the recorder ----

  class SessionRecorder {
    var file: string
    var commands: nat
    var stops: nat
    var closed: bool
    /** What has been put into the file. */
    ghost var told: seq<Happening>

    ghost predicate Valid()
      reads this
    {
      file == Script(told) && commands == |Issued(told)|
    }

    constructor (header: seq<string>)
      ensures Valid() && stops == 0 && !closed && Issued(told) == []
      ensures forall h :: h in told ==> Safe(h)
    {
      file, commands, stops, closed, told := "", 0, 0, false, [];
      new;
      for i := 0 to |header|
        invariant Valid() && stops == 0 && !closed && Issued(told) == []
        invariant forall h :: h in told ==> Safe(h)
      {
        Note(header[i]);
      }
      file := file + "\n";
      Tell(Blank);
    }

    ghost method Tell(h: Happening)
      modifies `told
      ensures told == old(told) + [h] && Script(told) == Script(old(told)) + Written(h)
      ensures !h.Typed? || Strip(h.line) == "" ==> Issued(told) == Issued(old(told))
      ensures h.Typed? && Strip(h.line) != "" ==> Issued(told) == Issued(old(told)) + [Strip(h.line)]
    {
      told := told + [h];
      assert told[..|told| - 1] == old(told);
    }

    /** Write the lines behind a mark. */
    method WriteMarked(mark: string, lines: seq<string>)
      modifies `file
      ensures file == old(file) + Marked(mark, lines)
    {
      for i := 0 to |lines|
        invariant file == old(file) + Marked(mark, lines[..i])
      {
        assert lines[..i + 1][..i] == lines[..i];
        file := file + mark + lines[i] + "\n";
      }
      assert lines[..|lines|] == lines;
    }

    method Note(text: string)
      requires Valid()
      modifies `file, `told
      ensures Valid() && told == old(told) + [Noted(text)]
    {
      WriteMarked(NOTE, NoteLines(text));
      Tell(Noted(text));
    }

    method Command(line: string)
      requires Valid()
      modifies `file, `commands, `told
      ensures Valid() && told == old(told) + [Typed(line)]
    {
      var text := Strip(line);
      Tell(Typed(line));
      if text == "" {
        return;
      }
      commands := commands + 1;
      file := file + text + "\n";
    }

    method Output(text: string)
      requires Valid()
      modifies `file, `told
      ensures Valid() && told == old(told) + [Printed(text)]
    {
      WriteMarked(PRINTED, PrintedLines(text));
      Tell(Printed(text));
    }

    method OnStop(text: string)
      requires Valid()
      modifies `file, `stops, `told
      ensures Valid() && told == old(told) + [Noted(text)] && stops == old(stops) + 1
    {
      stops := stops + 1;
      Note(text);
    }

    method Close(text: string)
      requires Valid()
      modifies `file, `closed, `told
      ensures Valid() && closed
      ensures told == if old(closed) then old(told) else old(told) + [Blank, Noted(text)]
    {
      if closed {
        return;
      }
      closed := true;
      file := file + "\n";
      Tell(Blank);
      Note(text);
    }
  }
}
