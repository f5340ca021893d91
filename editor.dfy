/** The line editor with its command history, as a state machine over key
    events: what VardorvisCLI does to current_input, command_history,
    history_index and temp_input for each key, and the commands it queues
    for dispatch. */
module LineEditor {
  import opened Keys
  import opened Text

  /** buffer is current_input, history is command_history (oldest first),
      index is history_index, draft is temp_input, and queued holds the
      commands put on the command queue, in order. */
  datatype Editor = Editor(buffer: string, history: seq<string>, index: int, draft: string, queued: seq<string>)

  const Initial: Editor := Editor("", [], 0, "", [])

  /** The history index is 0 (the live line) or counts back from the most
      recent entry, never past the oldest. */
  predicate InRange(e: Editor)
  {
    -|e.history| <= e.index <= 0
  }

  predicate NoAdjacentRepeats(h: seq<string>)
  {
    forall i :: 0 < i < |h| ==> h[i - 1] != h[i]
  }

  /** A command as Enter submits it: non-empty, with no whitespace at
      either end. */
  predicate Stripped(s: string)
  {
    s != [] && !IsSpace(s[0]) && !IsSpace(s[|s| - 1])
  }

  predicate AllStripped(h: seq<string>)
  {
    forall i :: 0 <= i < |h| ==> Stripped(h[i])
  }

  predicate Valid(e: Editor)
  {
    InRange(e) && NoAdjacentRepeats(e.history) && AllStripped(e.history)
  }

  /** Python's command_history[index] for a negative index. */
  function Entry(h: seq<string>, index: int): string
    requires -|h| <= index < 0
  {
    h[|h| + index]
  }

  function Abs(x: int): nat
  {
    if x < 0 then -x else x
  }

  /** The three cases in which navigation does nothing: no history, Down on
      the live line, Up at the oldest entry. */
  predicate Stays(e: Editor, d: Direction)
  {
    e.history == [] || (e.index == 0 && d == Down) || (Abs(e.index) == |e.history| && d == Up)
  }

  /** navigate_history.  Leaving the live line saves it as the draft;
      coming back to the live line restores the draft; anywhere else the
      index moves one step and the buffer shows that history entry. */
  function Navigate(e: Editor, d: Direction): (r: Editor)
    requires InRange(e)
    ensures InRange(r) && r.history == e.history && r.queued == e.queued
    ensures r.index == e.index <==> Stays(e, d)
    ensures r.index == e.index ==> r == e
    ensures r.index != e.index ==> r.index == e.index - Offset(d)
    ensures r.index < 0 && r.index != e.index ==> r.buffer == Entry(e.history, r.index)
    ensures r.index == 0 && e.index != 0 ==> r.buffer == e.draft
    ensures e.index == 0 && r.index != 0 ==> r.draft == e.buffer
    ensures e.index != 0 ==> r.draft == e.draft
  {
    if e.history == [] then e
    else if e.index == 0 && d == Down then e
    else
      var s := if e.index == 0 then e.(draft := e.buffer) else e;
      if Abs(s.index) == |s.history| && d == Up then s
      else if s.index == -1 && d == Down then s.(buffer := s.draft, index := 0)
      else
        var i := s.index - Offset(d);
        s.(index := i, buffer := Entry(s.history, i))
  }

  /** Backspace: the last character goes, if there is one. */
  function Backspace(e: Editor): (r: Editor)
    ensures e.buffer == [] ==> r == e
    ensures e.buffer != [] ==> r.buffer + [e.buffer[|e.buffer| - 1]] == e.buffer
    ensures r == e.(buffer := r.buffer)
  {
    if e.buffer != [] then e.(buffer := e.buffer[..|e.buffer| - 1]) else e
  }

  /** Any other character is added at the end of the line. */
  function TypeChar(e: Editor, c: char): (r: Editor)
    ensures |r.buffer| == |e.buffer| + 1 && r.buffer[..|e.buffer|] == e.buffer && r.buffer[|e.buffer|] == c
    ensures r == e.(buffer := r.buffer)
  {
    e.(buffer := e.buffer + [c])
  }

  function Last(h: seq<string>): string
    requires h != []
  {
    h[|h| - 1]
  }

  /** Adding a command to command_history: c is added at the end unless it
      repeats the most recent entry. */
  function Record(h: seq<string>, c: string): (r: seq<string>)
    ensures h <= r && |r| <= |h| + 1 && r != [] && Last(r) == c
    ensures |r| == |h| + 1 <==> h == [] || Last(h) != c
  {
    if h == [] || c != Last(h) then h + [c] else h
  }

  /** Enter.  A line that strips to nothing changes nothing.  Otherwise the
      stripped command is queued, goes into the history unless it repeats
      the most recent entry, and the line, the index and the draft are
      reset. */
  function Enter(e: Editor): (r: Editor)
    ensures Trim(e.buffer) == "" ==> r == e
    ensures Trim(e.buffer) != "" ==>
      r.queued == e.queued + [Trim(e.buffer)] && r.buffer == "" && r.index == 0 && r.draft == ""
    ensures e.history <= r.history && |r.history| <= |e.history| + 1
    ensures |r.history| == |e.history| + 1 <==> Trim(e.buffer) != "" && (e.history == [] || Last(e.history) != Trim(e.buffer))
    ensures Trim(e.buffer) != "" ==> r.history != [] && Last(r.history) == Trim(e.buffer)
  {
    var command := Trim(e.buffer);
    if command != "" then
      Editor("", Record(e.history, command), 0, "", e.queued + [command])
    else e
  }

  /** Enter keeps the history free of adjacent repeats and made of
      stripped commands, and resets or keeps the index in range. */
  lemma EnterValid(e: Editor)
    requires Valid(e)
    ensures Valid(Enter(e))
  {
    var command := Trim(e.buffer);
    if command != "" && (e.history == [] || command != Last(e.history)) {
      AppendKeepsHistoryValid(e.history, command);
    }
  }

  lemma AppendKeepsHistoryValid(h: seq<string>, c: string)
    requires NoAdjacentRepeats(h) && AllStripped(h) && Stripped(c)
    requires h == [] || Last(h) != c
    ensures NoAdjacentRepeats(h + [c]) && AllStripped(h + [c])
  {
    var h' := h + [c];
    forall i | 0 < i < |h'| ensures h'[i - 1] != h'[i] {
      if i < |h| { assert h'[i - 1] == h[i - 1] && h'[i] == h[i]; }
    }
    forall i | 0 <= i < |h'| ensures Stripped(h'[i]) {
      if i < |h| { assert h'[i] == h[i]; }
    }
  }

  /** One key event, as handle_input dispatches it. */
  function Apply(e: Editor, k: Key): (r: Editor)
    requires InRange(e)
    ensures InRange(r)
    ensures k != EnterKey ==> r.history == e.history && r.queued == e.queued
    ensures !k.Arrow? ==> r.draft == e.draft || (k == EnterKey && r.draft == "")
  {
    match k
    case Arrow(d) => Navigate(e, d)
    case EnterKey => Enter(e)
    case BackspaceKey => Backspace(e)
    case CharKey(c) => TypeChar(e, c)
  }

  /** A sequence of key events, in order.  The history and the command
      queue only ever grow at the end. */
  function Run(e: Editor, keys: seq<Key>): (r: Editor)
    requires InRange(e)
    ensures InRange(r)
    ensures e.history <= r.history && e.queued <= r.queued
    decreases |keys|
  {
    if keys == [] then e else Run(Apply(e, keys[0]), keys[1..])
  }

  /** The key events that type a string. */
  function Typed(s: string): (keys: seq<Key>)
    ensures |keys| == |s| && forall i :: 0 <= i < |s| ==> keys[i] == CharKey(s[i])
  {
    seq(|s|, i requires 0 <= i < |s| => CharKey(s[i]))
  }

  /** The key events that type a line and press Enter. */
  function Submitted(s: string): seq<Key>
  {
    Typed(s) + [EnterKey]
  }

  function Ups(k: nat): (keys: seq<Key>)
    ensures |keys| == k && forall i :: 0 <= i < k ==> keys[i] == Arrow(Up)
  {
    seq(k, _ => Arrow(Up))
  }

  // ---------------------------------------------------------------------
  // Properties of the state machine

  /** Every key keeps the history index in range, the history free of
      adjacent repeats and made of stripped commands. */
  lemma ApplyValid(e: Editor, k: Key)
    requires Valid(e)
    ensures Valid(Apply(e, k))
  {
    if k == EnterKey {
      EnterValid(e);
    }
  }

  lemma {:induction false} RunValid(e: Editor, keys: seq<Key>)
    requires Valid(e)
    ensures Valid(Run(e, keys))
    decreases |keys|
  {
    if keys != [] {
      ApplyValid(e, keys[0]);
      RunValid(Apply(e, keys[0]), keys[1..]);
    }
  }

  lemma RunOne(e: Editor, k: Key, rest: seq<Key>)
    requires InRange(e)
    ensures Run(e, [k] + rest) == Run(Apply(e, k), rest)
  {
    assert ([k] + rest)[1..] == rest;
  }

  lemma {:induction false} RunConcat(e: Editor, a: seq<Key>, b: seq<Key>)
    requires InRange(e)
    ensures Run(e, a + b) == Run(Run(e, a), b)
    decreases |a|
  {
    if a == [] {
      assert a + b == b;
    } else {
      assert (a + b)[0] == a[0];
      assert (a + b)[1..] == a[1..] + b;
      RunConcat(Apply(e, a[0]), a[1..], b);
    }
  }

  /** Typing a string appends it to the line and touches nothing else. */
  lemma {:induction false} RunTyped(e: Editor, s: string)
    requires InRange(e)
    ensures Run(e, Typed(s)) == e.(buffer := e.buffer + s)
    decreases |s|
  {
    if s != [] {
      assert Typed(s)[1..] == Typed(s[1..]);
      RunTyped(TypeChar(e, s[0]), s[1..]);
      assert e.buffer + [s[0]] + s[1..] == e.buffer + s;
    }
  }

  /** Typing a line and pressing Enter is Enter on the completed line. */
  lemma RunSubmitted(e: Editor, s: string)
    requires InRange(e)
    ensures Run(e, Submitted(s)) == Enter(e.(buffer := e.buffer + s))
  {
    RunConcat(e, Typed(s), [EnterKey]);
    RunTyped(e, s);
  }

  /** Backspace undoes a typed character. */
  lemma TypeThenBackspace(e: Editor, c: char)
    ensures Backspace(TypeChar(e, c)) == e
  {
    assert (e.buffer + [c])[..|e.buffer|] == e.buffer;
  }

  /** Up from the live line followed by Down brings back exactly the line
      that was being typed, with the index back at 0. */
  lemma UpThenDownRestoresDraft(e: Editor)
    requires InRange(e) && e.index == 0 && e.history != []
    ensures Navigate(Navigate(e, Up), Down) == e.(draft := e.buffer)
  {
  }

  /** Pressing Up k times from the live line, for k up to the length of the
      history, shows the k-th most recent entry at index -k, with the live
      line saved as the draft. */
  lemma {:induction false} ClimbHistory(e: Editor, k: nat)
    requires InRange(e) && e.index == 0 && 0 < k <= |e.history|
    ensures Run(e, Ups(k)).index == -(k as int)
    ensures Run(e, Ups(k)).buffer == e.history[|e.history| - k]
    ensures Run(e, Ups(k)).draft == e.buffer
    ensures Run(e, Ups(k)).history == e.history && Run(e, Ups(k)).queued == e.queued
  {
    if k == 1 {
      assert Ups(1)[1..] == [];
    } else {
      ClimbHistory(e, k - 1);
      assert Ups(k) == Ups(k - 1) + [Arrow(Up)];
      RunConcat(e, Ups(k - 1), [Arrow(Up)]);
    }
  }

  /** Once at the oldest entry, further Up presses change nothing. */
  lemma {:induction false} ClimbStopsAtOldest(e: Editor, m: nat)
    requires InRange(e) && e.index == 0 && e.history != []
    ensures Run(e, Ups(|e.history| + m)) == Run(e, Ups(|e.history|))
    decreases m
  {
    if m > 0 {
      var n := |e.history|;
      ClimbStopsAtOldest(e, m - 1);
      ClimbHistory(e, n);
      var top := Run(e, Ups(n));
      assert Stays(top, Up);
      assert [Arrow(Up)][1..] == [];
      assert Run(top, [Arrow(Up)]) == top;
      assert Ups(n + m) == Ups(n + m - 1) + [Arrow(Up)];
      RunConcat(e, Ups(n + m - 1), [Arrow(Up)]);
    }
  }

  /** A line that strips to nothing leaves history and queue alone; the
      whitespace just stays on the line. */
  lemma BlankLineIgnored(e: Editor, s: string)
    requires InRange(e) && AllSpace(e.buffer + s)
    ensures Run(e, Submitted(s)) == e.(buffer := e.buffer + s)
  {
    RunSubmitted(e, s);
  }

  lemma SubmitFromEmpty(e: Editor, s: string)
    requires InRange(e) && e.buffer == ""
    ensures Run(e, Submitted(s)) == Enter(e.(buffer := s))
  {
    RunSubmitted(e, s);
    assert e.buffer + s == s;
  }

  /** Submitting a non-blank line from an empty line: the stripped command
      is queued and recorded in the history, and editing starts afresh. */
  lemma SubmitNonBlank(e: Editor, s: string)
    requires InRange(e) && e.buffer == "" && Trim(s) != ""
    ensures Run(e, Submitted(s)) == Editor("", Record(e.history, Trim(s)), 0, "", e.queued + [Trim(s)])
  {
    SubmitFromEmpty(e, s);
  }

  lemma RecordRepeat(h: seq<string>, c: string)
    ensures Record(Record(h, c), c) == Record(h, c)
  {
  }

  lemma RecordInterleaved(h: seq<string>, a: string, b: string)
    requires a != b
    ensures Record(Record(Record(h, a), b), a) == Record(h, a) + [b, a]
  {
  }

  /** Submitting the same command twice in a row records it in the history
      once, but queues it twice. */
  lemma RepeatRecordedOnce(e: Editor, s: string)
    requires InRange(e) && e.buffer == "" && Trim(s) != ""
    ensures var once := Run(e, Submitted(s));
      var twice := Run(once, Submitted(s));
      once.history != [] && Last(once.history) == Trim(s)
      && twice.history == once.history && twice.queued == e.queued + [Trim(s), Trim(s)]
  {
    var c := Trim(s);
    SubmitNonBlank(e, s);
    var once := Editor("", Record(e.history, c), 0, "", e.queued + [c]);
    SubmitNonBlank(once, s);
    RecordRepeat(e.history, c);
  }

  /** With a different command in between, both occurrences go into the
      history. */
  lemma InterleavedRecordedTwice(e: Editor, a: string, b: string)
    requires InRange(e) && e.buffer == "" && Trim(a) != "" && Trim(b) != "" && Trim(a) != Trim(b)
    ensures var first := Run(e, Submitted(a));
      Run(Run(first, Submitted(b)), Submitted(a)).history == first.history + [Trim(b), Trim(a)]
  {
    var ca, cb := Trim(a), Trim(b);
    SubmitNonBlank(e, a);
    var first := Editor("", Record(e.history, ca), 0, "", e.queued + [ca]);
    SubmitNonBlank(first, b);
    var second := Editor("", Record(first.history, cb), 0, "", first.queued + [cb]);
    SubmitNonBlank(second, a);
    RecordInterleaved(e.history, ca, cb);
  }

  /** The walk through a two-entry history with a draft on the line. */
  lemma BrowseExample()
    ensures var e := Editor("gam", ["alpha", "beta"], 0, "", []);
      var up1 := Navigate(e, Up);
      var up2 := Navigate(up1, Up);
      var down1 := Navigate(up2, Down);
      var down2 := Navigate(down1, Down);
      up1.buffer == "beta" && up2.buffer == "alpha" && down1.buffer == "beta" && down2.buffer == "gam"
      && down2.index == 0
  {
  }
}
