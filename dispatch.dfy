/** Command dispatch: the message process_command prints for a command, and
    the numbered history listing display_history builds. */
module Dispatch {
  import opened Text

  const Exiting: string := "Exiting..."
  const HelpText: string :=
    "\nAvailable commands:\n    help    - Display this help message\n    history - Display the command history\n    exit    - Exit the CLI\n    clear   - Clear the screen\n    "
  /** ANSI erase-display followed by cursor-home. */
  const ClearScreen: string := "\U{1B}[2J\U{1B}[H"
  const NoHistory: string := "No command history available."
  const HistoryHeading: string := "\nCommand History:"
  const EchoPrefix: string := "Received command: "

  /** The built-in commands, matched on the lower-cased command; everything
      else is echoed. */
  datatype Builtin = Exit | Help | Clear | ShowHistory | Echo

  function Classify(command: string): (b: Builtin)
    ensures b == Exit <==> Lower(command) == "exit"
    ensures b == Help <==> Lower(command) == "help"
    ensures b == Clear <==> Lower(command) == "clear"
    ensures b == ShowHistory <==> Lower(command) == "history"
    ensures b == Echo <==> Lower(command) !in ["exit", "help", "clear", "history"]
  {
    var lower := Lower(command);
    if lower == "exit" then Exit
    else if lower == "help" then Help
    else if lower == "clear" then Clear
    else if lower == "history" then ShowHistory
    else Echo
  }

  /** One line of the history listing: entry number n, then the command. */
  function ListingLine(n: nat, command: string): string
  {
    "\n    " + ToDecimal(n) + ". " + command
  }

  /** The lines for h, numbered from first on. */
  function ListingLines(h: seq<string>, first: nat): string
  {
    if h == [] then "" else ListingLine(first, h[0]) + ListingLines(h[1..], first + 1)
  }

  /** The text display_history prints. */
  function Listing(h: seq<string>): (text: string)
    ensures text == NoHistory <==> h == []
  {
    if h == [] then NoHistory
    else
      var text := HistoryHeading + ListingLines(h, 1) + "\n";
      assert text[0] != NoHistory[0];
      text
  }

  /** The message process_command prints for a command, given the history
      at that moment. */
  function Reply(command: string, history: seq<string>): (text: string)
    ensures text == Exiting <==> Classify(command) == Exit
    ensures Classify(command) == Help ==> text == HelpText
    ensures Classify(command) == Clear ==> text == ClearScreen
    ensures Classify(command) == Echo ==> text == EchoPrefix + command
    ensures Classify(command) == ShowHistory ==> text == Listing(history)
  {
    match Classify(command)
    case Exit => Exiting
    case Help => HelpText
    case Clear => ClearScreen
    case ShowHistory => Listing(history)
    case Echo => EchoPrefix + command
  }

  /** exit stops the command line. */
  predicate Stops(command: string)
  {
    Classify(command) == Exit
  }

  /** The messages a drain of the command queue prints, in queue order. */
  function Replies(commands: seq<string>, history: seq<string>): (texts: seq<string>)
    ensures |texts| == |commands|
    ensures forall i :: 0 <= i < |commands| ==> texts[i] == Reply(commands[i], history)
  {
    if commands == [] then [] else [Reply(commands[0], history)] + Replies(commands[1..], history)
  }

  /** The running flag after a drain of the queue: cleared by an exit,
      never set again. */
  function StillRunning(running: bool, commands: seq<string>): (r: bool)
    ensures r <==> running && forall i :: 0 <= i < |commands| ==> !Stops(commands[i])
  {
    if commands == [] then running else StillRunning(running && !Stops(commands[0]), commands[1..])
  }

  /** Dispatching the first queued command and then the rest is
      dispatching the whole queue. */
  lemma DrainStep(commands: seq<string>, history: seq<string>, running: bool, printed: seq<string>)
    requires commands != []
    ensures printed + [Reply(commands[0], history)] + Replies(commands[1..], history) == printed + Replies(commands, history)
    ensures StillRunning(running && !Stops(commands[0]), commands[1..]) == StillRunning(running, commands)
  {
    var first := Reply(commands[0], history);
    var rest := Replies(commands[1..], history);
    assert Replies(commands, history) == [first] + rest;
    assert printed + [first] + rest == printed + ([first] + rest);
  }

  /** display_history's loop: the heading, then one numbered line per entry. */
  method DisplayHistory(h: seq<string>) returns (text: string)
    ensures text == Listing(h)
  {
    if h == [] {
      return NoHistory;
    }
    text := HistoryHeading;
    for i := 0 to |h|
      invariant text == HistoryHeading + ListingLines(h[..i], 1)
    {
      ListingLinesSnoc(h[..i], h[i], 1);
      assert h[..i + 1] == h[..i] + [h[i]];
      text := text + ListingLine(i + 1, h[i]);
    }
    assert h[..|h|] == h;
    text := text + "\n";
  }

  // ---------------------------------------------------------------------
  // Properties of dispatch

  lemma {:induction false} ListingLinesSnoc(h: seq<string>, c: string, first: nat)
    ensures ListingLines(h + [c], first) == ListingLines(h, first) + ListingLine(first + |h|, c)
    decreases |h|
  {
    if h == [] {
      assert [c][1..] == [];
    } else {
      assert (h + [c])[1..] == h[1..] + [c];
      ListingLinesSnoc(h[1..], c, first + 1);
    }
  }

  lemma {:induction false} ListingLinesConcat(a: seq<string>, b: seq<string>, first: nat)
    ensures ListingLines(a + b, first) == ListingLines(a, first) + ListingLines(b, first + |a|)
    decreases |a|
  {
    if a == [] {
      assert a + b == b;
    } else {
      assert (a + b)[0] == a[0];
      assert (a + b)[1..] == a[1..] + b;
      ListingLinesConcat(a[1..], b, first + 1);
      var line, x, y := ListingLine(first, a[0]), ListingLines(a[1..], first + 1), ListingLines(b, first + |a|);
      assert ListingLines(a + b, first) == line + (x + y);
      assert line + (x + y) == (line + x) + y;
    }
  }

  /** The listing shows entry i of the history as line number first + i,
      after the lines of the entries before it and before the lines of the
      entries after it. */
  lemma ListingLinesAt(h: seq<string>, first: nat, i: nat)
    requires i < |h|
    ensures ListingLines(h, first)
      == ListingLines(h[..i], first) + ListingLine(first + i, h[i]) + ListingLines(h[i + 1..], first + i + 1)
  {
    var before, entry, after := h[..i], h[i], h[i + 1..];
    assert h == before + ([entry] + after);
    ListingLinesConcat(before, [entry] + after, first);
    ListingLinesConcat([entry], after, first + i);
    var line := ListingLine(first + i, entry);
    assert ListingLines([entry], first + i) == line by {
      assert [entry][1..] == [];
      assert line + "" == line;
    }
    var x, y := ListingLines(before, first), ListingLines(after, first + i + 1);
    assert ListingLines(h, first) == x + (line + y);
    assert x + (line + y) == x + line + y;
  }

  /** exit is recognised in any mix of upper and lower case, and only so. */
  lemma ExitAnyCase(command: string)
    ensures Stops(command) <==>
      |command| == 4 && forall i :: 0 <= i < 4 ==> command[i] == "exit"[i] || command[i] == "EXIT"[i]
  {
    LowerMatches(command, "exit");
    assert forall i :: 0 <= i < 4 ==> UpperChar("exit"[i]) == "EXIT"[i];
    if |command| == 4 {
      assert AllCaseMatch(command, "exit") <==> forall i :: 0 <= i < 4 ==> command[i] == "exit"[i] || command[i] == "EXIT"[i];
    }
  }

  /** Two spellings of a command that differ only in case are dispatched
      the same way. */
  lemma ReplyIgnoresCase(c1: string, c2: string, history: seq<string>)
    requires Lower(c1) == Lower(c2) && Classify(c1) != Echo
    ensures Reply(c1, history) == Reply(c2, history)
  {
    assert Classify(c1) == Classify(c2);
  }

  /** A drain does not stop at exit: commands queued behind it are still
      dispatched. */
  lemma ExitDoesNotStopDrain(history: seq<string>)
    ensures Replies(["exit", "ls"], history) == [Exiting, EchoPrefix + "ls"]
    ensures !StillRunning(true, ["exit", "ls"])
  {
    assert Lower("exit") == "exit";
    assert Lower("ls") == "ls";
  }

  /** The listing of a two-entry history. */
  lemma ListingExample()
    ensures Listing(["foo", "bar"]) == HistoryHeading + "\n    1. foo" + "\n    2. bar" + "\n"
  {
    ListingOfTwo("foo", "bar");
    assert ListingLine(1, "foo") == "\n    1. foo" by { assert ToDecimal(1) == "1"; }
    assert ListingLine(2, "bar") == "\n    2. bar" by { assert ToDecimal(2) == "2"; }
  }

  lemma ListingOfTwo(a: string, b: string)
    ensures Listing([a, b]) == HistoryHeading + ListingLine(1, a) + ListingLine(2, b) + "\n"
  {
    assert [a, b][1..] == [b];
    assert [b][1..] == [];
    assert ListingLines([b], 2) == ListingLine(2, b);
    assert ListingLines([a, b], 1) == ListingLine(1, a) + ListingLine(2, b);
  }
}
