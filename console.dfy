/*
  The command console of engine/ui/Console.cpp: a bounded command history
  (ConsoleHistoryDefault) and the keyboard handling of the console's input
  line, which walks the history with Up and Down, submits a command with
  Enter and clears the line with Escape.

  The console's output buffer is the sequence `lines` of written lines and
  the command event the sequence `sent` of submitted commands.  Scrolling,
  which works on the scroll bar's floating-point positions, and Tab
  completion, which calls back into code not shown, are not modelled.
*/
module ConsoleHistory {

  /** The last `max` entries of `entries` (all of them when there are fewer). */
  function Window(entries: seq<string>, max: nat): (w: seq<string>)
    ensures |w| == if |entries| <= max then |entries| else max
    ensures w == entries[|entries| - |w|..]
  {
    if |entries| <= max then entries else entries[|entries| - max..]
  }

  /** ConsoleHistoryDefault::Enter on the deque `buf`: append, then drop the
      oldest entry when the history has grown beyond `max`. */
  function Entered(buf: seq<string>, s: string, max: nat): seq<string>
  {
    var pushed := buf + [s];
    if |pushed| > max then pushed[1..] else pushed
  }

  /** Entering strings one by one keeps exactly the last `max` of everything
      entered. */
  lemma EnteredWindow(entries: seq<string>, s: string, max: nat)
    ensures Entered(Window(entries, max), s, max) == Window(entries + [s], max)
  {
    var all := entries + [s];
    if |entries| < max {
      assert Window(entries, max) + [s] == all;
    } else {
      assert Window(entries, max) + [s] == all[|all| - max - 1..];
    }
  }

  class History {
    var buf: seq<string>
    const maxSize: nat

    predicate Valid()
      reads this
    {
      |buf| <= maxSize
    }

    constructor (maxSize: nat)
      ensures Valid() && buf == [] && this.maxSize == maxSize
    {
      buf := [];
      this.maxSize := maxSize;
    }

    method Enter(s: string)
      requires Valid()
      modifies this`buf
      ensures Valid()
      ensures buf == Entered(old(buf), s, maxSize)
      ensures maxSize > 0 ==> buf[|buf| - 1] == s
      ensures old(|buf|) < maxSize ==> buf == old(buf) + [s]
      ensures old(|buf|) == maxSize ==> buf == (old(buf) + [s])[1..]
    {
      buf := buf + [s];
      if |buf| > maxSize {
        buf := buf[1..];
      }
    }

    function GetItemCount(): nat
      reads this
    {
      |buf|
    }

    function GetItem(index: nat): string
      reads this
      requires index < |buf|
    {
      buf[index]
    }
  }
}

module Console {
  import opened ConsoleHistory

  datatype Key = Up | Down | Enter | PageUp | PageDown | Escape | Tab | Other

  /** The history cursor and the text of the input line. */
  datatype Cursor = Cursor(index: nat, input: string)

  /** Up: clamp the cursor to the history, then step back and load that entry. */
  function HistoryUp(c: Cursor, items: seq<string>): (r: Cursor)
    ensures r.index <= |items|
    ensures c.index > 0 && |items| > 0 ==>
      r.index < c.index && r.index < |items| && r.input == items[r.index]
    ensures c.index == 0 || |items| == 0 ==> r == Cursor(0, c.input)
  {
    var index := if c.index < |items| then c.index else |items|;
    if index > 0 then Cursor(index - 1, items[index - 1]) else Cursor(index, c.input)
  }

  /** Down: step forward and load that entry, or clear the line and park the
      cursor just past the newest entry. */
  function HistoryDown(c: Cursor, items: seq<string>): (r: Cursor)
    ensures r.index <= |items|
    ensures r.index < |items| ==> r.index == c.index + 1 && r.input == items[r.index]
    ensures r.index == |items| ==> r.input == []
  {
    if c.index + 1 < |items| then Cursor(c.index + 1, items[c.index + 1]) else Cursor(|items|, [])
  }

  /** The entry a cursor position shows: the history item, or an empty line
      past the newest one. */
  function Shown(index: nat, items: seq<string>): string
  {
    if index < |items| then items[index] else []
  }

  /** Down undoes Up: from any position inside the history or just past
      it, Up then Down comes back to that position and shows its entry. */
  lemma DownAfterUp(c: Cursor, items: seq<string>)
    requires 0 < c.index <= |items|
    ensures HistoryDown(HistoryUp(c, items), items) == Cursor(c.index, Shown(c.index, items))
  {
  }

  /** Up undoes Down inside the history. */
  lemma UpAfterDown(c: Cursor, items: seq<string>)
    requires c.index + 1 < |items|
    ensures HistoryUp(HistoryDown(c, items), items) == Cursor(c.index, items[c.index])
  {
  }

  /** No two neighbouring history entries are equal. */
  predicate NoRepeats(items: seq<string>)
  {
    forall i :: 0 < i < |items| ==> items[i] != items[i - 1]
  }

  /** What Enter does to the history for a non-empty command: it is entered
      unless it repeats the newest entry. */
  function Remembered(items: seq<string>, cmd: string, max: nat): seq<string>
  {
    if |items| == 0 || cmd != items[|items| - 1] then Entered(items, cmd, max) else items
  }

  /** A history filled only through the console never holds the same
      command twice in a row. */
  lemma RememberedNoRepeats(items: seq<string>, cmd: string, max: nat)
    requires NoRepeats(items)
    ensures NoRepeats(Remembered(items, cmd, max))
  {
    var r := Remembered(items, cmd, max);
    if |items| == 0 || cmd != items[|items| - 1] {
      var pushed := items + [cmd];
      assert NoRepeats(pushed) by {
        forall i | 0 < i < |pushed|
          ensures pushed[i] != pushed[i - 1]
        {
          if i < |items| {
            assert pushed[i] == items[i] && pushed[i - 1] == items[i - 1];
          }
        }
      }
      if |pushed| > max {
        forall i | 0 < i < |r|
          ensures r[i] != r[i - 1]
        {
          assert r[i] == pushed[i + 1] && r[i - 1] == pushed[i];
        }
      }
    }
  }

  class Console {
    var history: History?
    var cmdIndex: nat
    var input: string
    var echo: bool
    var autoScroll: bool
    /** Lines written to the console's output buffer. */
    var lines: seq<string>
    /** Commands passed to the send-command event. */
    var sent: seq<string>

    predicate Valid()
      reads this, history
    {
      history != null ==> history.Valid()
    }

    constructor ()
      ensures Valid() && history == null && cmdIndex == 0 && input == []
      ensures echo && autoScroll && lines == [] && sent == []
    {
      history := null;
      cmdIndex := 0;
      input := [];
      echo := true;
      autoScroll := true;
      lines := [];
      sent := [];
    }

    method SetHistory(h: History?)
      requires h != null ==> h.Valid()
      modifies this`history, this`cmdIndex
      ensures Valid() && history == h
      ensures cmdIndex == if h == null then 0 else |h.buf|
    {
      history := h;
      cmdIndex := if h == null then 0 else h.GetItemCount();
    }

    method OnUp()
      requires Valid()
      modifies this`cmdIndex, this`input
      ensures history == null ==> cmdIndex == old(cmdIndex) && input == old(input)
      ensures history != null ==> Cursor(cmdIndex, input) == HistoryUp(old(Cursor(cmdIndex, input)), history.buf)
    {
      if history != null {
        cmdIndex := if cmdIndex < history.GetItemCount() then cmdIndex else history.GetItemCount();
        if cmdIndex > 0 {
          cmdIndex := cmdIndex - 1;
          input := history.GetItem(cmdIndex);
        }
      }
    }

    method OnDown()
      requires Valid()
      modifies this`cmdIndex, this`input
      ensures history == null ==> cmdIndex == old(cmdIndex) && input == old(input)
      ensures history != null ==> Cursor(cmdIndex, input) == HistoryDown(old(Cursor(cmdIndex, input)), history.buf)
    {
      if history != null {
        cmdIndex := cmdIndex + 1;
        if cmdIndex < history.GetItemCount() {
          input := history.GetItem(cmdIndex);
        } else {
          input := [];
          cmdIndex := history.GetItemCount();
        }
      }
    }

    method OnEnter()
      requires Valid()
      modifies this`cmdIndex, this`input, this`lines, this`sent, this`autoScroll, history
      ensures Valid() && autoScroll
      ensures old(input) == [] ==>
        lines == old(lines) + [">"] && input == [] && sent == old(sent) && cmdIndex == old(cmdIndex) &&
        (history != null ==> history.buf == old(history.buf))
      ensures old(input) != [] ==>
        lines == old(lines) + (if echo then ["> " + old(input)] else []) &&
        sent == old(sent) + [old(input)] && input == []
      ensures old(input) != [] && history != null ==>
        history.buf == Remembered(old(history.buf), old(input), history.maxSize) && cmdIndex == |history.buf|
      ensures old(input) != [] && history == null ==> cmdIndex == old(cmdIndex)
    {
      var cmd := input;
      if cmd == [] {
        lines := lines + [">"];
      } else {
        if history != null {
          if history.GetItemCount() == 0 || cmd != history.GetItem(history.GetItemCount() - 1) {
            history.Enter(cmd);
          }
          cmdIndex := history.GetItemCount();
        }
        if echo {
          lines := lines + ["> " + cmd];
        }
        sent := sent + [cmd];
        input := [];
      }
      autoScroll := true;
    }

    method OnEscape() returns (handled: bool)
      modifies this`input
      ensures handled == (old(input) != [])
      ensures input == []
    {
      if input == [] {
        return false;
      }
      input := [];
      handled := true;
    }

    /** Console::OnKeyPressed: whether the key was handled. */
    method OnKeyPressed(key: Key) returns (handled: bool)
      requires Valid()
      modifies this`cmdIndex, this`input, this`lines, this`sent, this`autoScroll, history
      ensures Valid()
      ensures handled == (key != Other && !(key == Escape && old(input) == []))
      ensures key in {PageUp, PageDown, Tab, Other} ==> cmdIndex == old(cmdIndex) && input == old(input)
      ensures key != Enter ==> lines == old(lines) && sent == old(sent)
      ensures key != Enter && history != null ==> history.buf == old(history.buf)
      ensures key == Escape ==> input == [] && cmdIndex == old(cmdIndex)
      ensures key in {Up, Down, Escape, Other} ==> autoScroll == old(autoScroll)
      ensures history == null && key in {Up, Down} ==> cmdIndex == old(cmdIndex) && input == old(input)
      ensures history != null && key == Up ==>
        Cursor(cmdIndex, input) == HistoryUp(old(Cursor(cmdIndex, input)), history.buf)
      ensures history != null && key == Down ==>
        Cursor(cmdIndex, input) == HistoryDown(old(Cursor(cmdIndex, input)), history.buf)
      ensures key == Enter ==> autoScroll
      ensures key == Enter && old(input) == [] ==>
        lines == old(lines) + [">"] && input == [] && sent == old(sent) && cmdIndex == old(cmdIndex) &&
        (history != null ==> history.buf == old(history.buf))
      ensures key == Enter && old(input) != [] ==>
        lines == old(lines) + (if echo then ["> " + old(input)] else []) &&
        sent == old(sent) + [old(input)] && input == []
      ensures key == Enter && old(input) != [] && history != null ==>
        history.buf == Remembered(old(history.buf), old(input), history.maxSize) && cmdIndex == |history.buf|
      ensures key == Enter && old(input) != [] && history == null ==> cmdIndex == old(cmdIndex)
    {
      handled := true;
      match key
      case Up => OnUp();
      case Down => OnDown();
      case Enter => OnEnter();
      case PageUp =>
      case PageDown =>
      case Tab =>
      case Escape => handled := OnEscape();
      case Other => handled := false;
    }
  }
}
