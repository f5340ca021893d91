# VardorvisCLI line editor and command dispatch, in Dafny

VardorvisCLI is a small interactive command line for the Windows console.
A keyboard thread reads raw bytes with `getch` and edits the current line.
Up and Down walk back and forth through the command history. Backspace
removes the last character. Enter strips the line, queues the command and
records it in the history unless it repeats the most recent entry. The main
loop drains the command queue and dispatches each command to `exit`,
`help`, `clear`, `history` or an echo. An output thread prints queued
messages in the order they were sent.

The project has five modules, one per file:

- `Keys` (`keys.dfy`) decodes a byte stream into key events: the arrow
  prefix 224 with scan code 72 or 80, carriage return or line feed for
  Enter, 8 for Backspace, and a single-byte character for anything below
  128. Every other byte is dropped. It also has an encoder, so decoding
  can be stated as a round trip.
- `Text` (`text.dfy`) holds the Python string operations the program relies
  on: `str.strip()` over Python's full whitespace set, `str.lower()` and
  the decimal rendering of a number.
- `LineEditor` (`editor.dfy`) is the editing state as a pure state machine.
  A state holds the line, the history, the history index, the saved draft
  and the queued commands. There is one function per key (`Navigate`,
  `Enter`, `Backspace`, `TypeChar`) and `Run` for a whole key sequence. The
  invariant `Valid` says three things. The index stays between
  `-|history|` and 0. History entries are stripped and non-empty. No two
  adjacent history entries are equal.
- `Dispatch` (`dispatch.dfy`) gives the reply `process_command` prints
  for a command and the listing `display_history` builds. `DisplayHistory`
  is the method form of that listing's loop.
- `Cli` (`cli.dfy`) is the class `VardorvisCli`, with the program's own
  fields. Its methods update those fields in place the way the source
  does. Each editing method is proved equal to the matching `LineEditor`
  function and to keep `Valid`. `Feed` is the key-reading loop, proved to
  equal `Run` on the decoded bytes. `DrainCommands` is the command-queue
  drain, proved to print `Replies` of the queue. `SendMessage` and
  `DrainOutput` form the first-in first-out output queue.

A drain does not stop at `exit`. The loop at `vardorvis.py:274-279` keeps
emptying the queue after `exit` clears `running`; `running` is only
checked again before the next drain. `Dispatch.ExitDoesNotStopDrain`
shows a command queued behind `exit` still being answered.

## Model

| member | source | states |
|---|---|---|
| Keys.DecodeEncode | vardorvis.py:119-138 | Decoding the bytes a keyboard sends for any key sequence gives back exactly that sequence: arrows, Enter as carriage return, backspace and single-byte characters |
| Keys.DecodeKeyThen | vardorvis.py:119-138 | The bytes of one key decode to that key, and decoding then carries on with the rest of the stream |
| Keys.DecodeIgnored | vardorvis.py:130-138 | A byte of 128 or more other than the arrow prefix fails UTF-8 decoding and is dropped; the arrow prefix followed by a scan code other than 72 or 80 is dropped too |
| Keys.DecodeByte | vardorvis.py:133-138 | A single byte fails to decode exactly when it is 128 or more. It means Enter exactly when it is carriage return or line feed, and Backspace exactly when it is 8. Any other byte is typed as the character with that code |
| Keys.DecodeLineFeed | vardorvis.py:134-142 | A line feed decodes to Enter, like a carriage return |
| Keys.DecodeTypable | vardorvis.py:133-136 | Every typed character decoding produces is a single-byte character other than carriage return, line feed and backspace |
| Keys.Decode | vardorvis.py:119-138 | At most one key event per byte |
| Text.Trim | vardorvis.py:144 | strip() is empty exactly when the line is all whitespace; otherwise the result starts and ends with a non-whitespace character |
| Text.TrimSpan | vardorvis.py:144 | strip() keeps a contiguous part of the line, and only whitespace comes before and after it |
| Text.TrimIdempotent | vardorvis.py:144 | A stripped command strips to itself |
| Text.LowerMatches | vardorvis.py:232-241 | Comparing the lower-cased command with a lower-case keyword matches each character against the keyword's letter or its capital, in both directions |
| Text.ToDecimal | vardorvis.py:225-226 | The entry number is rendered as decimal digits with no leading zero |
| Text.DecimalRoundTrip | vardorvis.py:225-226 | The rendered entry number reads back as that number |
| LineEditor.Navigate | vardorvis.py:75-101 | Navigation does nothing exactly when there is no history, on Down at the live line, or on Up at the oldest entry. Otherwise the index moves by minus the direction and the line shows that history entry. Leaving the live line saves it as the draft, and coming back restores it. The index stays in range |
| LineEditor.UpThenDownRestoresDraft | vardorvis.py:83-97 | Up and then Down from the live line restore the line as it was, with that line saved as the draft |
| LineEditor.ClimbHistory | vardorvis.py:89-101 | k presses of Up from the live line reach index -k and show the k-th most recent command, keeping the typed line as the draft |
| LineEditor.ClimbStopsAtOldest | vardorvis.py:89-91 | Further presses of Up at the oldest entry change nothing |
| LineEditor.BrowseExample | vardorvis.py:75-101 | The walk Up, Up, Down, Down over a two-entry history with a typed draft shows the newer entry, the older one, the newer one, and then the draft again at index 0 |
| LineEditor.Record | vardorvis.py:149-153 | The history after submitting a command ends with that command. It grows by one entry exactly when the history was empty or its last entry differs |
| LineEditor.Enter | vardorvis.py:142-156 | A line that strips to nothing changes nothing. Otherwise the stripped command is queued, the line, index and draft are reset, and the history ends with the command, growing exactly when the command is not a repeat of the last entry |
| LineEditor.EnterValid | vardorvis.py:142-156 | Enter keeps the index in range, the history stripped, and no two adjacent history entries equal |
| LineEditor.BlankLineIgnored | vardorvis.py:144-145 | Typing whitespace and pressing Enter queues nothing and leaves the whitespace on the line |
| LineEditor.SubmitNonBlank | vardorvis.py:142-156 | Typing a non-blank line from an empty buffer and pressing Enter queues its stripped form, records it and resets the line |
| LineEditor.RecordRepeat | vardorvis.py:149-153 | Recording the same command twice in a row records it once |
| LineEditor.RecordInterleaved | vardorvis.py:149-153 | With a different command in between, a command is recorded both times |
| LineEditor.RepeatRecordedOnce | vardorvis.py:142-156 | Submitting the same line twice queues it twice but records it in the history once |
| LineEditor.InterleavedRecordedTwice | vardorvis.py:142-156 | Submitting a, then b, then a records both occurrences of a |
| LineEditor.Backspace | vardorvis.py:161-163 | Backspace drops the last character of the line, and does nothing on an empty line; nothing else changes |
| LineEditor.TypeChar | vardorvis.py:168-169 | Any other character is appended to the line; nothing else changes |
| LineEditor.TypeThenBackspace | vardorvis.py:161-169 | Typing a character and then pressing Backspace restores the state |
| LineEditor.Apply | vardorvis.py:121-169 | The index stays in range. Only Enter changes the history and the command queue. Only the arrow keys and Enter change the draft, and Enter only by clearing it |
| LineEditor.ApplyValid | vardorvis.py:121-169 | Every key event keeps the editor invariant |
| LineEditor.RunValid | vardorvis.py:111-171 | Any sequence of key events keeps the editor invariant |
| LineEditor.Run | vardorvis.py:111-171 | Over any key sequence the history and the command queue only grow at their end, and the index stays in range |
| LineEditor.RunConcat | vardorvis.py:111-171 | Handling two key sequences one after the other is handling their concatenation |
| LineEditor.RunTyped | vardorvis.py:168-169 | Typing a string appends it to the line |
| Dispatch.Classify | vardorvis.py:232-243 | A command is exit, help, clear or history exactly when its lower-cased form is that keyword, and is echoed exactly when its lower-cased form is none of the four |
| Dispatch.Reply | vardorvis.py:230-244 | The reply is "Exiting..." exactly for exit in any case. help gets the help text, clear gets the erase-and-home sequence, and history gets the history listing. Any word other than exit, help, clear and history, in any case, is echoed after "Received command: " |
| Dispatch.ExitAnyCase | vardorvis.py:232-235 | A command stops the command line exactly when it is the four letters of exit, each in lower or upper case |
| Dispatch.ReplyIgnoresCase | vardorvis.py:232-242 | Two spellings of a built-in command that differ only in case get the same reply |
| Dispatch.Listing | vardorvis.py:218-228 | The history text is "No command history available." exactly when the history is empty |
| Dispatch.DisplayHistory | vardorvis.py:218-228 | The text display_history builds in its loop is the history listing |
| Dispatch.ListingLinesAt | vardorvis.py:225-226 | Entry i of the history is shown as line number first + i, after the lines of the earlier entries and before those of the later ones |
| Dispatch.ListingExample | vardorvis.py:224-227 | A two-entry history is listed under the heading as "1. foo" and "2. bar" |
| Dispatch.Replies | vardorvis.py:274-279 | Draining the queue prints one reply per command, the i-th for the i-th command |
| Dispatch.StillRunning | vardorvis.py:232-233 | After a drain the program is still running exactly when it was before and no queued command was exit |
| Dispatch.ExitDoesNotStopDrain | vardorvis.py:274-279 | A command queued behind exit is still answered in the same drain |
| Cli.VardorvisCli.constructor | vardorvis.py:20-36 | The command line starts running, with an empty line, empty history, index 0, no draft and empty queues |
| Cli.VardorvisCli.NavigateHistory | vardorvis.py:75-101 | navigate_history updates the fields in place exactly as LineEditor.Navigate and keeps the invariant |
| Cli.VardorvisCli.Enter | vardorvis.py:142-156 | The Enter branch updates the fields exactly as LineEditor.Enter and keeps the invariant |
| Cli.VardorvisCli.Backspace | vardorvis.py:161-163 | The Backspace branch updates the line exactly as LineEditor.Backspace |
| Cli.VardorvisCli.TypeChar | vardorvis.py:168-169 | The typing branch updates the line exactly as LineEditor.TypeChar |
| Cli.VardorvisCli.HandleKey | vardorvis.py:121-169 | Handling one key event updates the fields exactly as LineEditor.Apply and keeps the invariant |
| Cli.VardorvisCli.HandleNext | vardorvis.py:119-171 | One pass of the input loop consumes two bytes for an arrow prefix that has a byte after it and one byte otherwise. The fields end as LineEditor.Run on the events those bytes decode to, which is the state that running the rest of the stream starts from |
| Cli.VardorvisCli.Feed | vardorvis.py:109-171 | The input loop over a byte stream leaves the editing state equal to LineEditor.Run on the decoded events, or unchanged when the command line is not running |
| Cli.VardorvisCli.SendMessage | vardorvis.py:246-249 | A message joins the end of the output queue |
| Cli.VardorvisCli.DrainOutput | vardorvis.py:189-201 | Every queued message is printed, in the order it was sent, and the queue ends empty |
| Cli.VardorvisCli.ProcessCommand | vardorvis.py:230-244 | process_command prints the reply for the command given the current history; exit clears the running flag and nothing else does |
| Cli.VardorvisCli.DrainCommands | vardorvis.py:272-279 | The drain empties the command queue, prints the replies to every queued command in order, and leaves the program running exactly when no queued command was exit |

## Left out

- Threads, events, the 100 ms timeouts and `WaitForSingleObject`: the three loops are modelled as separate methods on the shared fields, and interleavings between them are not modelled.
- Terminal output around editing: the prompt, cursor moves, line clearing and echoing the line back on each key write to the screen only. The model keeps the state they show; only the messages `print_output` prints are recorded, in `printed`.
- The red ASCII-art banner printed by the constructor and the initial prompt in `start`: screen output only.
- `OSError`/`IOError` handlers and `KeyboardInterrupt` in `start` and `main`: they depend on the operating system and the user.
- The shutdown event: `exit` sets `running` to false, and the model keeps that flag. The event only wakes the main loop and is not needed for that.
- `vardorvis_cmd/vardorvis_cmd.py` is not part of this model. It is a separate command line built on cmd2, with coloured output and logging to a file.
- Keys.Decode: an arrow prefix byte at the very end of a finite stream produces no event. The program would instead block in `getch` until the scan code arrives.
- Cli.VardorvisCli.Feed: takes a finite stream of bytes as its input. The program reads forever while running.
- Text.Lower: lower-cases only the ASCII letters. It is exact for the comparisons made with the keywords exit, help, clear and history. The one non-ASCII character whose lower case is an ASCII letter is the Kelvin sign, which becomes `k`, a letter none of these keywords contains.
- Text.IsSpace: the whitespace set of Python's `str.isspace()` is written out by code point, following the Unicode database as Python ships it.
