/** VardorvisCLI itself: its fields, and the methods that update them in
    place the way the source does, each proved to agree with the line
    editor state machine and the dispatch functions. */
module Cli {
  import opened Keys
  import opened Text
  import LineEditor
  import opened Dispatch

  class VardorvisCli {
    var buffer: string          // current_input
    var history: seq<string>    // command_history, oldest first
    var index: int              // history_index
    var draft: string           // temp_input
    var commandQueue: seq<string>
    var outputQueue: seq<string>
    /** What print_output has shown, in order. */
    var printed: seq<string>
    var running: bool

    /** The editing part of the state, as the state machine sees it. */
    function Editor(): LineEditor.Editor
      reads this
    {
      LineEditor.Editor(buffer, history, index, draft, commandQueue)
    }

    /** The history index stays between -|history| and 0, and the history
        holds stripped commands with no two adjacent ones equal. */
    predicate Valid()
      reads this
    {
      LineEditor.Valid(Editor())
    }

    constructor ()
      ensures Valid() && Editor() == LineEditor.Initial
      ensures outputQueue == [] && printed == [] && running
    {
      buffer, history, index, draft := "", [], 0, "";
      commandQueue, outputQueue, printed := [], [], [];
      running := true;
    }

    /** navigate_history. */
    method NavigateHistory(d: Direction)
      requires Valid()
      modifies this`buffer, this`index, this`draft
      ensures Valid()
      ensures Editor() == LineEditor.Navigate(old(Editor()), d)
    {
      if history == [] {
        return;
      }
      if index == 0 {
        if d == Down {
          return;
        }
        draft := buffer;
      }
      if LineEditor.Abs(index) == |history| && d == Up {
        return;
      }
      if index == -1 && d == Down {
        buffer := draft;
        index := 0;
      } else {
        index := index - Offset(d);
        buffer := history[|history| + index];
      }
    }

    /** The Enter branch of handle_input. */
    method Enter()
      requires Valid()
      modifies this`buffer, this`history, this`index, this`draft, this`commandQueue
      ensures Valid()
      ensures Editor() == LineEditor.Enter(old(Editor()))
    {
      LineEditor.EnterValid(Editor());
      var command := Trim(buffer);
      if command != "" {
        commandQueue := commandQueue + [command];
        if history == [] || command != history[|history| - 1] {
          history := history + [command];
        }
        buffer := "";
        index := 0;
        draft := "";
      }
    }

    /** The Backspace branch of handle_input. */
    method Backspace()
      requires Valid()
      modifies this`buffer
      ensures Valid()
      ensures Editor() == LineEditor.Backspace(old(Editor()))
    {
      if buffer != "" {
        buffer := buffer[..|buffer| - 1];
      }
    }

    /** The branch of handle_input for any other character. */
    method TypeChar(c: char)
      requires Valid()
      modifies this`buffer
      ensures Valid()
      ensures Editor() == LineEditor.TypeChar(old(Editor()), c)
    {
      buffer := buffer + [c];
    }

    method HandleKey(k: Key)
      requires Valid()
      modifies this`buffer, this`history, this`index, this`draft, this`commandQueue
      ensures Valid()
      ensures Editor() == LineEditor.Apply(old(Editor()), k)
    {
      match k
      case Arrow(d) => NavigateHistory(d);
      case EnterKey => Enter();
      case BackspaceKey => Backspace();
      case CharKey(c) => TypeChar(c);
    }

    /** One pass of handle_input's loop: read the next key from the
        bytes at position i (two bytes for an arrow key, one otherwise),
        decode it and handle it. */
    method HandleNext(bytes: seq<byte>, i: nat) returns (next: nat)
      requires Valid() && i < |bytes|
      modifies this`buffer, this`history, this`index, this`draft, this`commandQueue
      ensures Valid() && i < next <= |bytes|
      ensures next == if bytes[i] == ArrowPrefix && i + 1 < |bytes| then i + 2 else i + 1
      ensures Editor() == LineEditor.Run(old(Editor()), Decode(bytes[i..next]))
      ensures LineEditor.Run(Editor(), Decode(bytes[next..])) == LineEditor.Run(old(Editor()), Decode(bytes[i..]))
    {
      ghost var rest := bytes[i..];
      var first := bytes[i];
      next := i + 1;
      if first == ArrowPrefix {
        if next < |bytes| {
          var second := bytes[next];
          next := next + 1;
          assert rest[2..] == bytes[next..];
          assert Decode(rest) == DecodeArrow(second) + Decode(bytes[next..]);
          if second == UpCode {
            NavigateHistory(Up);
          } else if second == DownCode {
            NavigateHistory(Down);
          }
          assert Editor() == LineEditor.Run(old(Editor()), DecodeArrow(second));
          LineEditor.RunConcat(old(Editor()), DecodeArrow(second), Decode(bytes[next..]));
        } else {
          assert Decode(rest) == [] && bytes[next..] == [];
        }
      } else {
        assert rest[1..] == bytes[next..];
        match DecodeByte(first)
        case Some(k) =>
          assert Decode(rest) == [k] + Decode(bytes[next..]);
          HandleKey(k);
          LineEditor.RunOne(old(Editor()), k, Decode(bytes[next..]));
        case None =>
          assert Decode(rest) == Decode(bytes[next..]);
      }
    }

    /** handle_input's loop over the bytes getch delivers, while the
        command line is running: the state machine run on the decoded
        events. */
    method Feed(bytes: seq<byte>)
      requires Valid()
      modifies this`buffer, this`history, this`index, this`draft, this`commandQueue
      ensures Valid()
      ensures Editor() == if running then LineEditor.Run(old(Editor()), Decode(bytes)) else old(Editor())
    {
      var i := 0;
      while running && i < |bytes|
        invariant 0 <= i <= |bytes| && Valid()
        invariant LineEditor.Run(Editor(), Decode(bytes[i..])) == LineEditor.Run(old(Editor()), Decode(bytes))
        invariant !running ==> Editor() == old(Editor())
        decreases |bytes| - i
      {
        i := HandleNext(bytes, i);
      }
      if running {
        assert bytes[i..] == [];
      }
    }

    /** send_message: the message joins the end of the output queue. */
    method SendMessage(message: string)
      modifies this`outputQueue
      ensures outputQueue == old(outputQueue) + [message]
    {
      outputQueue := outputQueue + [message];
    }

    /** process_output's drain: every queued message is printed, in the
        order it was sent. */
    method DrainOutput()
      modifies this`outputQueue, this`printed
      ensures outputQueue == [] && printed == old(printed) + old(outputQueue)
    {
      while outputQueue != []
        invariant printed + outputQueue == old(printed) + old(outputQueue)
        decreases |outputQueue|
      {
        var message := outputQueue[0];
        assert outputQueue == [message] + outputQueue[1..];
        outputQueue := outputQueue[1..];
        printed := printed + [message];
      }
    }

    /** process_command: print the reply to a command; exit also clears
        the running flag. */
    method ProcessCommand(command: string)
      modifies this`running, this`printed
      ensures printed == old(printed) + [Reply(command, history)]
      ensures running == (old(running) && !Stops(command))
    {
      var lower := Lower(command);
      if lower == "exit" {
        running := false;
        printed := printed + [Exiting];
      } else if lower == "help" {
        printed := printed + [HelpText];
      } else if lower == "clear" {
        printed := printed + [ClearScreen];
      } else if lower == "history" {
        var text := DisplayHistory(history);
        printed := printed + [text];
      } else {
        printed := printed + ["Received command: " + command];
      }
    }

    /** The drain of the command queue in start: every queued command is
        dispatched in order, including those queued behind an exit. */
    method DrainCommands()
      modifies this`commandQueue, this`running, this`printed
      ensures commandQueue == []
      ensures printed == old(printed) + Replies(old(commandQueue), history)
      ensures running == StillRunning(old(running), old(commandQueue))
    {
      while commandQueue != []
        invariant printed + Replies(commandQueue, history) == old(printed) + Replies(old(commandQueue), history)
        invariant StillRunning(running, commandQueue) == StillRunning(old(running), old(commandQueue))
        decreases |commandQueue|
      {
        var command := commandQueue[0];
        DrainStep(commandQueue, history, running, printed);
        commandQueue := commandQueue[1..];
        ProcessCommand(command);
      }
    }
  }
}
