/** FParser: the dump parser as the object it is, with a line
    cursor, a character cursor, a current entry and the Entries table that
    its methods update in place. Each method is proved to do what the
    matching step function of ParserSpec says. */
module Parser {
  import opened DumpModel
  import opened Scanner
  import opened ParserSpec
  import opened Entries

  function Result(ok: bool, s: St): Outcome<()> {
    if ok then Done((), s) else Failed(s)
  }

  class FParser {
    const lines: seq<string>
    var lineIndex: nat
    var currentLine: string
    var currentLineCharIndex: nat
    var currentLineChars: seq<char>
    var currentEntry: FEntry?
    var entries: map<int, map<int, FEntry>>

    /** The entry objects the parser has made. */
    ghost var made: set<FEntry>
    /** The items of every entry, as a value. */
    ghost var table: Table

    /** The abstract state the step functions of ParserSpec work on. */
    ghost function State(): St
      reads this
    {
      St(lineIndex, currentLine, currentLineCharIndex, table, KeyOf(currentEntry))
    }

    /** The line cursor and the character cursor agree with the input. */
    ghost predicate Cursor()
      reads this`lineIndex, this`currentLine, this`currentLineCharIndex, this`currentLineChars
    {
      currentLineChars == currentLine &&
      lineIndex <= |lines| &&
      currentLine == (if lineIndex == 0 then "" else lines[lineIndex - 1]) &&
      currentLineCharIndex <= |currentLine|
    }

    /** Entries, the current entry and the ghost table agree. */
    ghost predicate Sync()
      reads this`entries, this`made, this`table, this`currentEntry, made`items
    {
      Synced(entries, made, table, currentEntry)
    }

    ghost predicate Valid()
      reads this, made`items
    {
      Cursor() && Sync()
    }

    /** The lines are given rather than read from a file; the first one is
        loaded at once. */
    constructor (lines: seq<string>)
      ensures Valid() && this.lines == lines
      ensures State() == Start(lines)
    {
      this.lines := lines;
      lineIndex := 0;
      currentLine := "";
      currentLineCharIndex := 0;
      currentLineChars := "";
      currentEntry := null;
      entries := map[];
      made := {};
      table := map[];
      new;
      ReadLine();
    }

    method ReadLine()
      requires Valid()
      modifies this`lineIndex, this`currentLine, this`currentLineCharIndex, this`currentLineChars
      ensures Valid()
      ensures State() == NextLine(lines, old(State()))
    {
      if lineIndex < |lines| {
        currentLine := lines[lineIndex];
        currentLineCharIndex := 0;
        currentLineChars := currentLine;
        lineIndex := lineIndex + 1;
      }
    }

    /** Faults (returns false) when the blank run reaches the end of the line,
        as indexing past the end throws. */
    method SkipWhitespace() returns (ok: bool)
      requires Valid()
      modifies this`currentLineCharIndex
      ensures Valid() && State() == old(State()).(col := currentLineCharIndex)
      ensures SkipWs(currentLine, old(currentLineCharIndex))
              == if ok then Ok((), currentLineCharIndex) else Fault(currentLineCharIndex)
    {
      while true
        invariant Cursor() && State() == old(State()).(col := currentLineCharIndex)
        invariant SkipWs(currentLine, currentLineCharIndex) == SkipWs(currentLine, old(currentLineCharIndex))
        decreases |currentLineChars| - currentLineCharIndex
      {
        if currentLineCharIndex >= |currentLineChars| {
          return false;
        }
        if currentLineChars[currentLineCharIndex] == ' '
           || (currentLineChars[currentLineCharIndex] == '\t' && currentLineCharIndex < |currentLineChars|)
        {
          currentLineCharIndex := currentLineCharIndex + 1;
        } else {
          return true;
        }
      }
    }

    method Match(keyword: string) returns (ok: bool)
      requires Valid()
      modifies this`currentLineCharIndex
      ensures Valid() && State() == old(State()).(col := currentLineCharIndex)
      ensures MatchAt(currentLine, old(currentLineCharIndex), keyword)
              == if ok then Ok((), currentLineCharIndex) else Fault(currentLineCharIndex)
    {
      ok := SkipWhitespace();
      if !ok {
        return;
      }
      if currentLineCharIndex + |keyword| > |currentLine| {
        // IndexOf's window would leave the string: it throws
        return false;
      }
      if IndexOfIn(currentLine, keyword, currentLineCharIndex, |keyword|) == currentLineCharIndex {
        currentLineCharIndex := currentLineCharIndex + |keyword|;
      } else {
        ok := false;
      }
    }

    /** The digit loop of ParseInt. Like SkipWhitespace, it reads the
        character before comparing the cursor with the line length, so a run
        of digits that reaches the end of the line faults. */
    method SkipDigits() returns (ok: bool)
      requires Valid()
      modifies this`currentLineCharIndex
      ensures Valid() && State() == old(State()).(col := currentLineCharIndex)
      ensures DigitRun(currentLine, old(currentLineCharIndex))
              == if ok then Ok((), currentLineCharIndex) else Fault(currentLineCharIndex)
    {
      while true
        invariant Cursor() && State() == old(State()).(col := currentLineCharIndex)
        invariant DigitRun(currentLine, currentLineCharIndex) == DigitRun(currentLine, old(currentLineCharIndex))
        decreases |currentLineChars| - currentLineCharIndex
      {
        if currentLineCharIndex >= |currentLineChars| {
          return false;
        }
        if currentLineChars[currentLineCharIndex] >= '0' && currentLineChars[currentLineCharIndex] <= '9'
           && currentLineCharIndex < |currentLineChars|
        {
          currentLineCharIndex := currentLineCharIndex + 1;
        } else {
          return true;
        }
      }
    }

    method ParseInt() returns (ok: bool, value: int)
      requires Valid()
      modifies this`currentLineCharIndex
      ensures Valid() && State() == old(State()).(col := currentLineCharIndex)
      ensures ScanInt(currentLine, old(currentLineCharIndex))
              == if ok then Ok(value, currentLineCharIndex) else Fault(currentLineCharIndex)
    {
      value := 0;
      ok := SkipWhitespace();
      if !ok {
        return;
      }
      var startInt := currentLineCharIndex;
      if currentLineChars[currentLineCharIndex] == '-' {
        currentLineCharIndex := currentLineCharIndex + 1;
      }
      if currentLineCharIndex == |currentLineChars| {
        return false, 0;
      }
      ok := SkipDigits();
      if !ok {
        return;
      }
      var number := currentLine[startInt..currentLineCharIndex];
      var parsed := Int32Parse(number);
      if parsed.None? {
        return false, 0;
      }
      value := parsed.value;
    }

    /** The header part of ParseThreadFrame: `Thread INT , Frame INT :`
        read with the cursor calls, and nothing else changed. */
    method ReadHeader() returns (ok: bool, thread: int, frame: int)
      requires Valid()
      modifies this`currentLineCharIndex
      ensures Valid() && State() == old(State()).(col := currentLineCharIndex)
      ensures HeaderAt(currentLine, old(currentLineCharIndex))
              == if ok then Ok(Key(frame, thread), currentLineCharIndex) else Fault(currentLineCharIndex)
    {
      ghost var line, c0 := currentLine, currentLineCharIndex;
      thread, frame := 0, 0;
      ok := Match("Thread");
      if !ok {
        return;
      }
      assert HeaderAt(line, c0) == HeaderThread(line, currentLineCharIndex);
      ok, thread := ParseInt();
      if !ok {
        return;
      }
      assert HeaderAt(line, c0) == HeaderComma(line, currentLineCharIndex, thread);
      ok := Match(",");
      if !ok {
        return;
      }
      assert HeaderAt(line, c0) == HeaderFrameWord(line, currentLineCharIndex, thread);
      ok := Match("Frame");
      if !ok {
        return;
      }
      assert HeaderAt(line, c0) == HeaderFrame(line, currentLineCharIndex, thread);
      ok, frame := ParseInt();
      if !ok {
        return;
      }
      assert HeaderAt(line, c0) == HeaderColon(line, currentLineCharIndex, Key(frame, thread));
      ok := Match(":");
    }

    method ParseThreadFrame() returns (ok: bool)
      requires Valid()
      modifies this
      ensures Valid()
      ensures Result(ok, State()) == ThreadFrameStep(lines, old(State()))
      ensures fresh(made - old(made))
    {
      ghost var s0 := State();
      var thread, frame;
      ok, thread, frame := ReadHeader();
      if !ok {
        ThreadFrameFault(lines, s0, currentLineCharIndex);
        return;
      }
      ThreadFrameDone(lines, s0, Key(frame, thread), currentLineCharIndex);
      SelectEntry(Key(frame, thread));
      ReadLine();
    }

    /** The lookup-or-create step of ParseThreadFrame: the entry of `key`
        becomes current, and is created (with its frame when that is
        missing) when the table has none. */
    method SelectEntry(key: Key)
      requires Valid()
      modifies this`entries, this`currentEntry, this`made, this`table
      ensures Valid()
      ensures table == AddEntry(old(table), key) && currentEntry != null && currentEntry.key == key
      ensures key.frame in entries && key.thread in entries[key.frame] && entries[key.frame][key.thread] == currentEntry
      ensures key.frame in old(entries) && key.thread in old(entries)[key.frame] ==>
        currentEntry == old(entries)[key.frame][key.thread] && made == old(made)
      ensures !(key.frame in old(entries) && key.thread in old(entries)[key.frame]) ==> fresh(currentEntry)
      ensures fresh(made - old(made))
    {
      if key.frame !in entries {
        AddFrame(key.frame);
      }
      if key.thread in entries[key.frame] {
        currentEntry := entries[key.frame][key.thread];
      } else {
        var e := new FEntry(key);
        AddThread(key, e);
      }
    }

    /** `Entries.Add(Frame, new Dictionary<int, FEntry>())`. */
    method AddFrame(frame: int)
      requires Valid() && frame !in entries
      modifies this`entries, this`table
      ensures Valid()
      ensures entries == old(entries)[frame := map[]] && table == old(table)[frame := map[]]
    {
      HoldsAddFrame(entries, made, table, frame, currentEntry);
      entries := entries[frame := map[]];
      table := table[frame := map[]];
    }

    /** `Entries[Frame].Add(Thread, CurrentEntry)` for a new, empty entry
        that has just become current. */
    method AddThread(key: Key, e: FEntry)
      requires Valid() && e !in made && e.items == [] && e.key == key
      requires key.frame in entries && key.thread !in entries[key.frame]
      modifies this`entries, this`currentEntry, this`made, this`table
      ensures Valid()
      ensures table == old(table)[key.frame := old(table)[key.frame][key.thread := []]]
      ensures currentEntry == e && made == old(made) + {e}
    {
      HoldsAddThread(entries, made, table, key, e);
      entries, currentEntry := entries[key.frame := entries[key.frame][key.thread := e]], e;
      made, table := made + {e}, table[key.frame := table[key.frame][key.thread := []]];
    }

    predicate HasCommands(): (b: bool)
      reads this
      ensures b == HasCommandsAt(lines, State())
    {
      currentLine != "" && lineIndex < |lines|
    }

    method PeekAndAdvance(keyword: string) returns (found: bool)
      requires Valid()
      modifies this`currentLineCharIndex
      ensures Valid() && State() == old(State()).(col := currentLineCharIndex)
      ensures found == Peek(currentLine, old(currentLineCharIndex), keyword)
      ensures currentLineCharIndex == old(currentLineCharIndex) + if found then |keyword| else 0
    {
      if currentLineCharIndex + |keyword| <= |currentLine|
         && IndexOfIn(currentLine, keyword, currentLineCharIndex, |keyword|) != -1
      {
        currentLineCharIndex := currentLineCharIndex + |keyword|;
        return true;
      }
      return false;
    }

    method ParseEntry() returns (ok: bool)
      requires Valid()
      modifies this, made
      ensures Valid()
      ensures Result(ok, State()) == EntryStep(lines, old(State()))
      ensures fresh(made - old(made))
    {
      ghost var s0 := State();
      ok := ParseThreadFrame();
      if !ok {
        assert EntryStep(lines, s0) == Failed(State());
        return;
      }
      ok := ParseBlock();
    }

    /** The block loop of ParseEntry and the ReadLine after it. */
    method ParseBlock() returns (ok: bool)
      requires Valid()
      modifies this, made
      ensures Valid()
      ensures Result(ok, State()) == BlockStep(lines, old(State()))
      ensures fresh(made - old(made))
    {
      ok := true;
      while HasCommands()
        invariant Valid()
        invariant fresh(made - old(made))
        invariant CommandsLoop(lines, State()) == CommandsLoop(lines, old(State()))
        decreases |lines| - lineIndex
      {
        ghost var before := State();
        ok := ParseCommand();
        if !ok {
          assert CommandsLoop(lines, before) == Failed(State());
          return;
        }
        assert CommandsLoop(lines, before) == CommandsLoop(lines, State());
      }
      ReadLine();
    }

    method Parse() returns (ok: bool)
      requires Valid()
      modifies this, made
      ensures Valid()
      ensures Result(ok, State()) == ParseLoop(lines, old(State()))
      ensures fresh(made - old(made))
    {
      while lineIndex < |lines|
        invariant Valid()
        invariant fresh(made - old(made))
        invariant ParseLoop(lines, State()) == ParseLoop(lines, old(State()))
        decreases |lines| - lineIndex
      {
        ghost var before := State();
        ok := ParseEntry();
        if !ok {
          assert ParseLoop(lines, before) == Failed(State());
          return false;
        }
        assert ParseLoop(lines, before) == ParseLoop(lines, State());
      }
      assert ParseLoop(lines, State()) == Done((), State());
      return true;
    }

    method ParseCommandBuffer() returns (ok: bool, cmdBuffer: string)
      requires Valid()
      modifies this`lineIndex, this`currentLine, this`currentLineCharIndex, this`currentLineChars
      ensures Valid()
      ensures (if ok then Done(cmdBuffer, State()) else Failed(State())) == CommandBufferStep(lines, old(State()))
    {
      cmdBuffer := "";
      ghost var line, c0 := currentLine, currentLineCharIndex;
      ok := SkipWhitespace();
      if !ok {
        return;
      }
      ok := Match(BufferField);
      if !ok {
        return;
      }
      ok := SkipWhitespace();
      if !ok {
        return;
      }
      ok := Match(BufferType);
      if !ok {
        return;
      }
      cmdBuffer := currentLine[currentLineCharIndex..];
      assert BufferValue(line, c0) == Ok(cmdBuffer, currentLineCharIndex);
      ReadLine();
    }

    method ParseCommand() returns (ok: bool)
      requires Valid()
      modifies this`lineIndex, this`currentLine, this`currentLineCharIndex, this`currentLineChars, this`table
      modifies currentEntry
      ensures Valid()
      ensures Result(ok, State()) == CommandStep(lines, old(State()))
    {
      ok := SkipWhitespace();
      if !ok {
        return;
      }
      ok := ParseCall();
      if !ok {
        return;
      }
      ReadLine();
    }

    /** The if / else-if of ParseCommand. */
    method ParseCall() returns (ok: bool)
      requires Valid()
      modifies this`lineIndex, this`currentLine, this`currentLineCharIndex, this`currentLineChars, this`table
      modifies currentEntry
      ensures Valid()
      ensures Result(ok, State()) == CallStep(lines, old(State()))
    {
      ghost var s0 := State();
      var found := PeekAndAdvance(BeginCall);
      if found {
        assert CallStep(lines, s0) == BeginRecordStep(lines, State());
        ok := ParseBeginRecord();
      } else {
        assert CallStep(lines, s0) == OtherCallStep(lines, s0);
        ok := ParseOtherCall();
      }
    }

    /** The else-if of ParseCommand: an end record, or a line left alone. */
    method ParseOtherCall() returns (ok: bool)
      requires Valid()
      modifies this`lineIndex, this`currentLine, this`currentLineCharIndex, this`currentLineChars, this`table
      modifies currentEntry
      ensures Valid()
      ensures Result(ok, State()) == OtherCallStep(lines, old(State()))
    {
      ghost var s0 := State();
      var found := PeekAndAdvance(EndCall);
      if found {
        assert OtherCallStep(lines, s0) == EndRecordStep(lines, State());
        ok := ParseEndRecord();
      } else {
        ok := true;
      }
    }

    /** The begin branch of ParseCommand, after the call. */
    method ParseBeginRecord() returns (ok: bool)
      requires Valid()
      modifies this`lineIndex, this`currentLine, this`currentLineCharIndex, this`currentLineChars, this`table
      modifies currentEntry
      ensures Valid()
      ensures Result(ok, State()) == BeginRecordStep(lines, old(State()))
    {
      ReadLine();
      ok := AddRecord(BeginCmdBuffer(None));
      if !ok {
        return;
      }
      ReadTrailer();
    }

    /** The end branch of ParseCommand, after the call. */
    method ParseEndRecord() returns (ok: bool)
      requires Valid()
      modifies this`lineIndex, this`currentLine, this`currentLineCharIndex, this`currentLineChars, this`table
      modifies currentEntry
      ensures Valid()
      ensures Result(ok, State()) == EndRecordStep(lines, old(State()))
    {
      ReadLine();
      ok := AddRecord(EndCmdBuffer(None));
    }

    /** What ParseCommand's two records share, from the line after the
        call: append the item to the current entry (a missing entry makes
        this throw), then read the command buffer into that item. */
    method AddRecord(item: Command) returns (ok: bool)
      requires Valid()
      modifies this`lineIndex, this`currentLine, this`currentLineCharIndex, this`currentLineChars, this`table
      modifies currentEntry
      ensures Valid()
      ensures Result(ok, State()) == RecordStep(lines, old(State()), item)
    {
      if currentEntry == null {
        return false;
      }
      ghost var s0, k := State(), currentEntry.key;
      AppendItem(item);
      assert State() == s0.(entries := Append(s0.entries, k, item));
      ok := FillBuffer();
    }

    /** `CmdBuffer.CmdBuffer = ParseCommandBuffer()` for the item just
        appended, the last one of the current entry. */
    method FillBuffer() returns (ok: bool)
      requires Valid() && currentEntry != null && |currentEntry.items| > 0
      modifies this`lineIndex, this`currentLine, this`currentLineCharIndex, this`currentLineChars, this`table
      modifies currentEntry
      ensures Valid()
      ensures Result(ok, State()) == FillStep(lines, old(State()))
    {
      ghost var k := currentEntry.key;
      var cmdBuffer;
      ok, cmdBuffer := ParseCommandBuffer();
      if ok {
        ghost var s2 := State();
        SetBuffer(cmdBuffer);
        assert State() == s2.(entries := SetLastBuffer(s2.entries, k, cmdBuffer));
      }
    }

    /** `CurrentEntry.Items.Add(item)`. */
    method AppendItem(item: Command)
      requires Valid() && currentEntry != null
      modifies currentEntry, this`table
      ensures Valid()
      ensures currentEntry.items == old(currentEntry.items) + [item]
      ensures table == Append(old(table), currentEntry.key, item)
    {
      currentEntry.items := currentEntry.items + [item];
      HoldsUpdate(entries, made, old(table), currentEntry.key);
      table := Append(table, currentEntry.key, item);
    }

    /** The assignment to the new item's CmdBuffer field: the item is the
        last one of the current entry. */
    method SetBuffer(cmdBuffer: string)
      requires Valid() && currentEntry != null && |currentEntry.items| > 0
      modifies currentEntry, this`table
      ensures Valid()
      ensures table == SetLastBuffer(old(table), currentEntry.key, cmdBuffer)
    {
      ghost var k := currentEntry.key;
      assert currentEntry.items == table[k.frame][k.thread];
      var last := |currentEntry.items| - 1;
      currentEntry.items := currentEntry.items[last := currentEntry.items[last].(cmdBuffer := Some(cmdBuffer))];
      table := SetLastBuffer(table, k, cmdBuffer);
      assert table == old(table)[k.frame := old(table)[k.frame][k.thread := currentEntry.items]];
      HoldsUpdate(entries, made, old(table), k);
    }

    /** The five ReadLine calls after a begin record's command buffer. */
    method ReadTrailer()
      requires Valid()
      modifies this`lineIndex, this`currentLine, this`currentLineCharIndex, this`currentLineChars
      ensures Valid() && State() == SkipLines(lines, old(State()), BeginTrailer)
    {
      ghost var s := State();
      ReadLine();
      SkipLinesUnfold(lines, s, 0);
      ReadLine();
      SkipLinesUnfold(lines, s, 1);
      ReadLine();
      SkipLinesUnfold(lines, s, 2);
      ReadLine();
      SkipLinesUnfold(lines, s, 3);
      ReadLine();
      SkipLinesUnfold(lines, s, 4);
    }
  }

  /** `n + 1` ReadLine calls are `n` of them and then one more. */
  lemma {:induction false} SkipLinesUnfold(lines: seq<string>, s: St, n: nat)
    ensures SkipLines(lines, s, n + 1) == NextLine(lines, SkipLines(lines, s, n))
    decreases n
  {
    if n > 0 {
      SkipLinesUnfold(lines, NextLine(lines, s), n - 1);
    }
  }
}
