/** What the steps of the parser preserve and what they compute: the
    cursors stay consistent with the input, the table only grows, and each
    kind of command line has the effect the parser gives it. */
module ParserLaws {
  import opened DumpModel
  import opened Scanner
  import opened ScannerLemmas
  import opened ParserSpec

  /** ReadLine loads the next line and puts the cursor at its start, or
      changes nothing once every line has been loaded; either way it keeps
      the line index within the input. */
  lemma NextLineSpec(lines: seq<string>, s: St)
    requires Wf(lines, s)
    ensures var n := NextLine(lines, s);
      Wf(lines, n) && n.entries == s.entries && n.cur == s.cur &&
      n.lineIndex == Min(s.lineIndex + 1, |lines|) &&
      (s.lineIndex < |lines| ==> n.line == lines[s.lineIndex] && n.col == 0) &&
      (s.lineIndex == |lines| ==> n == s)
  {
  }

  /** `n` ReadLine calls advance `n` lines, stopping at the last one. */
  lemma {:induction false} SkipLinesSpec(lines: seq<string>, s: St, n: nat)
    requires Wf(lines, s)
    ensures Wf(lines, SkipLines(lines, s, n))
    ensures SkipLines(lines, s, n).lineIndex == Min(s.lineIndex + n, |lines|)
    decreases n
  {
    if n > 0 {
      NextLineSpec(lines, s);
      SkipLinesSpec(lines, NextLine(lines, s), n - 1);
    }
  }

  /** ParseThreadFrame throws exactly when the header cannot be read, and
      then leaves the table and the current entry as they were; otherwise
      the header's block exists, becomes current, and the next line is
      loaded. */
  lemma ThreadFrameStepSpec(lines: seq<string>, s: St)
    requires Wf(lines, s)
    ensures var r, h := ThreadFrameStep(lines, s), HeaderAt(s.line, s.col);
      Wf(lines, r.st) &&
      (r.Failed? <==> h.Fault?) &&
      (h.Fault? ==> r.st == s.(col := h.col)) &&
      (h.Ok? ==>
         r.st.entries == AddEntry(s.entries, h.value) && r.st.cur == Some(h.value) &&
         r.st.lineIndex == Min(s.lineIndex + 1, |lines|))
  {
    HeaderThenSpec(lines, s, HeaderAt(s.line, s.col));
  }

  /** The same for any header scan that ends within the line. */
  lemma HeaderThenSpec(lines: seq<string>, s: St, h: Scan<Key>)
    requires Wf(lines, s) && h.col <= |s.line|
    ensures var r := HeaderThen(lines, s, h);
      Wf(lines, r.st) &&
      (r.Failed? <==> h.Fault?) &&
      (h.Fault? ==> r.st == s.(col := h.col)) &&
      (h.Ok? ==>
         r.st.entries == AddEntry(s.entries, h.value) && r.st.cur == Some(h.value) &&
         r.st.lineIndex == Min(s.lineIndex + 1, |lines|))
  {
    match h
    case Fault(c) =>
    case Ok(k, c) => SelectThenReadLine(lines, s, k, c);
  }

  /** What ParseThreadFrame does once its header has been read up to
      column `c`: the block of `k` exists and is current, and the next line
      is loaded. */
  lemma SelectThenReadLine(lines: seq<string>, s: St, k: Key, c: nat)
    requires Wf(lines, s) && c <= |s.line|
    ensures var n := NextLine(lines, s.(col := c, entries := AddEntry(s.entries, k), cur := Some(k)));
      Wf(lines, n) && n.entries == AddEntry(s.entries, k) && n.cur == Some(k) &&
      n.lineIndex == Min(s.lineIndex + 1, |lines|)
  {
    NextLineSpec(lines, s.(col := c, entries := AddEntry(s.entries, k), cur := Some(k)));
  }

  /** ParseCommandBuffer returns the text after `VkCommandBuffer = ` and
      loads the next line, or throws without moving the line cursor. */
  lemma CommandBufferStepSpec(lines: seq<string>, s: St)
    requires Wf(lines, s)
    ensures var r, b := CommandBufferStep(lines, s), BufferValue(s.line, s.col);
      Wf(lines, r.st) && r.st.entries == s.entries && r.st.cur == s.cur &&
      (r.Done? <==> b.Ok?) &&
      (b.Ok? ==> r.value == b.value && r.st.lineIndex == Min(s.lineIndex + 1, |lines|)) &&
      (b.Fault? ==> r.st == s.(col := b.col))
  {
    BufferThenSpec(lines, s, BufferValue(s.line, s.col));
  }

  /** The same for any scan of the line that ends within it. */
  lemma BufferThenSpec(lines: seq<string>, s: St, b: Scan<string>)
    requires Wf(lines, s) && b.col <= |s.line|
    ensures var r := BufferThen(lines, s, b);
      Wf(lines, r.st) && r.st.entries == s.entries && r.st.cur == s.cur &&
      (r.Done? <==> b.Ok?) &&
      (b.Ok? ==> r.value == b.value && r.st.lineIndex == Min(s.lineIndex + 1, |lines|)) &&
      (b.Fault? ==> r.st == s.(col := b.col))
  {
    if b.Ok? {
      NextLineSpec(lines, s.(col := b.col));
    }
  }

  /** A record appends one item to the current block and no other. When
      the command-buffer line reads, that item carries its text; when it
      does not, the item stays in the block with no text. */
  lemma RecordStepSpec(lines: seq<string>, s: St, item: Command)
    requires Wf(lines, s) && s.cur.Some?
    ensures var r, b, k := RecordStep(lines, s, item), BufferValue(s.line, s.col), s.cur.value;
      Wf(lines, r.st) && r.st.cur == s.cur &&
      (r.Done? <==> b.Ok?) &&
      (b.Ok? ==>
         r.st.entries == Append(s.entries, k, item.(cmdBuffer := Some(b.value))) &&
         r.st.lineIndex == Min(s.lineIndex + 1, |lines|)) &&
      (b.Fault? ==> r.st.entries == Append(s.entries, k, item) && r.st.lineIndex == s.lineIndex)
  {
    var s1 := s.(entries := Append(s.entries, s.cur.value, item));
    assert RecordStep(lines, s, item) == FillThen(lines, s1, BufferThen(lines, s1, BufferValue(s.line, s.col)));
    RecordThenSpec(lines, s, item, BufferValue(s.line, s.col));
  }

  /** The same for any scan of the command-buffer line that ends within
      it. */
  lemma RecordThenSpec(lines: seq<string>, s: St, item: Command, b: Scan<string>)
    requires Wf(lines, s) && s.cur.Some? && b.col <= |s.line|
    ensures var k := s.cur.value;
      var s1 := s.(entries := Append(s.entries, k, item));
      var r := FillThen(lines, s1, BufferThen(lines, s1, b));
      Wf(lines, r.st) && r.st.cur == s.cur &&
      (r.Done? <==> b.Ok?) &&
      (b.Ok? ==>
         r.st.entries == Append(s.entries, k, item.(cmdBuffer := Some(b.value))) &&
         r.st.lineIndex == Min(s.lineIndex + 1, |lines|)) &&
      (b.Fault? ==> r.st.entries == Append(s.entries, k, item) && r.st.lineIndex == s.lineIndex)
  {
    var k := s.cur.value;
    var s1 := s.(entries := Append(s.entries, k, item));
    BufferThenSpec(lines, s1, b);
    if b.Ok? {
      AppendThenSet(s.entries, k, item, b.value);
    }
  }

  /** A command line that is blank from the cursor to its end makes
      ParseCommand throw, as the blank loop runs off the line. */
  lemma CommandOnBlanks(lines: seq<string>, s: St)
    requires Wf(lines, s) && SkipWs(s.line, s.col).Fault?
    ensures CommandStep(lines, s) == Failed(s.(col := |s.line|))
  {
  }

  /** A command line that starts with neither call appends nothing and
      moves on by exactly one line. */
  lemma CommandOther(lines: seq<string>, s: St, c0: nat)
    requires Wf(lines, s) && SkipWs(s.line, s.col) == Ok((), c0)
    requires !OccursAt(s.line, BeginCall, c0) && !OccursAt(s.line, EndCall, c0)
    ensures var r := CommandStep(lines, s);
      r.Done? && Wf(lines, r.st) && r.st.entries == s.entries && r.st.cur == s.cur &&
      r.st.lineIndex == Min(s.lineIndex + 1, |lines|)
  {
    NextLineSpec(lines, s.(col := c0));
  }

  /** The begin branch after the call: the item's text comes from the next
      line, and the trailer is skipped after it. */
  lemma BeginRecordSpec(lines: seq<string>, s: St)
    requires Wf(lines, s) && s.cur.Some?
    ensures var r, k, s1 := BeginRecordStep(lines, s), s.cur.value, NextLine(lines, s);
      var b := BufferValue(s1.line, s1.col);
      Wf(lines, r.st) && r.st.cur == s.cur &&
      (r.Done? <==> b.Ok?) &&
      (b.Ok? ==>
         r.st.entries == Append(s.entries, k, BeginCmdBuffer(Some(b.value))) &&
         r.st.lineIndex == Min(s.lineIndex + 7, |lines|)) &&
      (b.Fault? ==>
         r.st.entries == Append(s.entries, k, BeginCmdBuffer(None)) &&
         r.st.lineIndex == Min(s.lineIndex + 1, |lines|))
  {
    NextLineSpec(lines, s);
    var s1 := NextLine(lines, s);
    RecordStepSpec(lines, s1, BeginCmdBuffer(None));
    match RecordStep(lines, s1, BeginCmdBuffer(None))
    case Failed(_) =>
    case Done(_, s2) =>
      SkipLinesSpec(lines, s2, BeginTrailer);
  }

  /** The end branch after the call: the item's text comes from the next
      line. */
  lemma EndRecordSpec(lines: seq<string>, s: St)
    requires Wf(lines, s) && s.cur.Some?
    ensures var r, k, s1 := EndRecordStep(lines, s), s.cur.value, NextLine(lines, s);
      var b := BufferValue(s1.line, s1.col);
      Wf(lines, r.st) && r.st.cur == s.cur &&
      (r.Done? <==> b.Ok?) &&
      (b.Ok? ==>
         r.st.entries == Append(s.entries, k, EndCmdBuffer(Some(b.value))) &&
         r.st.lineIndex == Min(s.lineIndex + 2, |lines|)) &&
      (b.Fault? ==>
         r.st.entries == Append(s.entries, k, EndCmdBuffer(None)) &&
         r.st.lineIndex == Min(s.lineIndex + 1, |lines|))
  {
    NextLineSpec(lines, s);
    RecordStepSpec(lines, NextLine(lines, s), EndCmdBuffer(None));
  }

  /** A begin record takes its text from the line after the call line
      (`b` below) and appends exactly one begin item to the current block.
      Read whole, it moves on by eight lines, stopping at the last; when
      the text does not read, the item stays without one and the parse
      throws. */
  lemma CommandBegin(lines: seq<string>, s: St, c0: nat)
    requires Wf(lines, s) && s.cur.Some? && SkipWs(s.line, s.col) == Ok((), c0)
    requires OccursAt(s.line, BeginCall, c0)
    ensures var r, k := CommandStep(lines, s), s.cur.value;
      var s1 := NextLine(lines, s.(col := c0 + |BeginCall|));
      var b := BufferValue(s1.line, s1.col);
      (s.lineIndex < |lines| ==> s1.line == lines[s.lineIndex] && s1.col == 0) &&
      Wf(lines, r.st) && r.st.cur == s.cur &&
      (r.Done? <==> b.Ok?) &&
      (b.Ok? ==>
         r.st.entries == Append(s.entries, k, BeginCmdBuffer(Some(b.value))) &&
         r.st.lineIndex == Min(s.lineIndex + 8, |lines|)) &&
      (b.Fault? ==>
         r.st.entries == Append(s.entries, k, BeginCmdBuffer(None)) &&
         r.st.lineIndex == Min(s.lineIndex + 1, |lines|))
  {
    var sc := s.(col := c0 + |BeginCall|);
    assert Wf(lines, sc) by {
      assert c0 + |BeginCall| <= |s.line|;
    }
    assert Peek(s.line, c0, BeginCall);
    assert CallStep(lines, s.(col := c0)) == BeginRecordStep(lines, sc);
    BeginRecordSpec(lines, sc);
    match BeginRecordStep(lines, sc)
    case Failed(_) =>
    case Done(_, s2) =>
      NextLineSpec(lines, s2);
  }

  /** An end record takes its text from the line after the call line and
      appends exactly one end item to the current block; read whole, it
      moves on by three lines, stopping at the last. */
  lemma CommandEnd(lines: seq<string>, s: St, c0: nat)
    requires Wf(lines, s) && s.cur.Some? && SkipWs(s.line, s.col) == Ok((), c0)
    requires OccursAt(s.line, EndCall, c0)
    ensures var r, k := CommandStep(lines, s), s.cur.value;
      var s1 := NextLine(lines, s.(col := c0 + |EndCall|));
      var b := BufferValue(s1.line, s1.col);
      (s.lineIndex < |lines| ==> s1.line == lines[s.lineIndex] && s1.col == 0) &&
      Wf(lines, r.st) && r.st.cur == s.cur &&
      (r.Done? <==> b.Ok?) &&
      (b.Ok? ==>
         r.st.entries == Append(s.entries, k, EndCmdBuffer(Some(b.value))) &&
         r.st.lineIndex == Min(s.lineIndex + 3, |lines|)) &&
      (b.Fault? ==>
         r.st.entries == Append(s.entries, k, EndCmdBuffer(None)) &&
         r.st.lineIndex == Min(s.lineIndex + 1, |lines|))
  {
    NotBothCalls(s.line, c0);
    var sc := s.(col := c0 + |EndCall|);
    assert Wf(lines, sc) by {
      assert c0 + |EndCall| <= |s.line|;
    }
    assert Peek(s.line, c0, EndCall) && !Peek(s.line, c0, BeginCall);
    assert CallStep(lines, s.(col := c0)) == EndRecordStep(lines, sc);
    EndRecordSpec(lines, sc);
    match EndRecordStep(lines, sc)
    case Failed(_) =>
    case Done(_, s2) =>
      NextLineSpec(lines, s2);
  }

  /** The two call names differ in their third character, so no position
      holds both. */
  lemma NotBothCalls(line: string, c: nat)
    ensures !(OccursAt(line, BeginCall, c) && OccursAt(line, EndCall, c))
  {
    if c + |EndCall| <= |line| && line[c..c + |EndCall|] == EndCall {
      assert line[c + 2] == EndCall[2];
      assert c + |BeginCall| <= |line| ==> line[c..c + |BeginCall|][2] != BeginCall[2];
    }
  }

  /** A call line met before any header has no entry to add to: the parse
      throws. */
  lemma CommandWithoutEntry(lines: seq<string>, s: St, c0: nat)
    requires Wf(lines, s) && s.cur.None? && SkipWs(s.line, s.col) == Ok((), c0)
    requires OccursAt(s.line, BeginCall, c0) || OccursAt(s.line, EndCall, c0)
    ensures CommandStep(lines, s).Failed?
  {
  }

  /** Whatever the line, ParseCommand keeps the state consistent and the
      current entry, and changes the table by at most one item appended to
      the current block. */
  lemma CommandStepSpec(lines: seq<string>, s: St)
    requires Wf(lines, s)
    ensures var r := CommandStep(lines, s);
      Wf(lines, r.st) && r.st.cur == s.cur && Extends(s.entries, r.st.entries) &&
      (r.st.entries == s.entries ||
       (s.cur.Some? && exists c :: r.st.entries == Append(s.entries, s.cur.value, c)))
  {
    var w := SkipWs(s.line, s.col);
    if w.Fault? {
      CommandOnBlanks(lines, s);
      ExtendsRefl(s.entries);
    } else {
      var c0 := w.col;
      // `()` is the only value of its type, so `w` is `Ok((), c0)` itself.
      var u: () := w.value;
      assert u == ();
      assert w == Ok((), c0);
      if s.cur.None? && (OccursAt(s.line, BeginCall, c0) || OccursAt(s.line, EndCall, c0)) {
        CommandWithoutEntry(lines, s, c0);
        ExtendsRefl(s.entries);
      } else if OccursAt(s.line, BeginCall, c0) {
        CommandBegin(lines, s, c0);
        var s1 := NextLine(lines, s.(col := c0 + |BeginCall|));
        AppendExtends(s.entries, s.cur.value, BeginCmdBuffer(None));
        if BufferValue(s1.line, s1.col).Ok? {
          AppendExtends(s.entries, s.cur.value, BeginCmdBuffer(Some(BufferValue(s1.line, s1.col).value)));
        }
      } else if OccursAt(s.line, EndCall, c0) {
        CommandEnd(lines, s, c0);
        var s1 := NextLine(lines, s.(col := c0 + |EndCall|));
        AppendExtends(s.entries, s.cur.value, EndCmdBuffer(None));
        if BufferValue(s1.line, s1.col).Ok? {
          AppendExtends(s.entries, s.cur.value, EndCmdBuffer(Some(BufferValue(s1.line, s1.col).value)));
        }
      } else {
        CommandOther(lines, s, c0);
        ExtendsRefl(s.entries);
      }
    }
  }

  /** The block loop keeps the state consistent and the current entry, only
      grows the table, and when it returns the loaded line is empty or is
      the last line. */
  lemma {:induction false} CommandsLoopSpec(lines: seq<string>, s: St)
    requires Wf(lines, s)
    ensures var r := CommandsLoop(lines, s);
      Wf(lines, r.st) && r.st.cur == s.cur && Extends(s.entries, r.st.entries) &&
      (r.Done? ==> r.st.line == "" || r.st.lineIndex == |lines|)
    decreases |lines| - s.lineIndex
  {
    if HasCommandsAt(lines, s) {
      CommandStepSpec(lines, s);
      match CommandStep(lines, s)
      case Failed(_) =>
      case Done(_, s1) =>
        CommandsLoopSpec(lines, s1);
        ExtendsTrans(s.entries, s1.entries, CommandsLoop(lines, s1).st.entries);
    } else {
      ExtendsRefl(s.entries);
    }
  }

  /** ParseEntry throws when the header does not read; either way it keeps
      the state consistent and only grows the table. */
  lemma EntryStepSpec(lines: seq<string>, s: St)
    requires Wf(lines, s)
    ensures var r := EntryStep(lines, s);
      Wf(lines, r.st) && Extends(s.entries, r.st.entries) &&
      (HeaderAt(s.line, s.col).Fault? ==> r == Failed(s.(col := HeaderAt(s.line, s.col).col)))
  {
    ThreadFrameStepSpec(lines, s);
    match ThreadFrameStep(lines, s)
    case Failed(_) =>
      ExtendsRefl(s.entries);
    case Done(_, s1) =>
      AddEntryExtends(s.entries, HeaderAt(s.line, s.col).value);
      CommandsLoopSpec(lines, s1);
      match CommandsLoop(lines, s1)
      case Failed(s2) =>
        ExtendsTrans(s.entries, s1.entries, s2.entries);
      case Done(_, s2) =>
        ExtendsTrans(s.entries, s1.entries, s2.entries);
        NextLineSpec(lines, s2);
  }

  /** The loop of Parse keeps the state consistent and only grows the
      table; when it returns normally every line has been loaded. */
  lemma {:induction false} ParseLoopSpec(lines: seq<string>, s: St)
    requires Wf(lines, s)
    ensures var r := ParseLoop(lines, s);
      Wf(lines, r.st) && Extends(s.entries, r.st.entries) &&
      (r.Done? ==> r.st.lineIndex == |lines|)
    decreases |lines| - s.lineIndex
  {
    if s.lineIndex >= |lines| {
      ExtendsRefl(s.entries);
    } else {
      EntryStepSpec(lines, s);
      match EntryStep(lines, s)
      case Failed(_) =>
      case Done(_, s1) =>
        ParseLoopSpec(lines, s1);
        ExtendsTrans(s.entries, s1.entries, ParseLoop(lines, s1).st.entries);
    }
  }

  /** A whole parse ends in a consistent state; when it succeeds, every line
      has been loaded. */
  lemma ParseAllSpec(lines: seq<string>)
    ensures Wf(lines, ParseAll(lines).st)
    ensures ParseAll(lines).Done? ==> ParseAll(lines).st.lineIndex == |lines|
  {
    NextLineSpec(lines, Initial());
    ParseLoopSpec(lines, Start(lines));
  }

  /** With fewer than two lines the constructor has already loaded the last
      line, so Parse's loop never runs: it succeeds with no entries. */
  lemma ShortInput(lines: seq<string>)
    requires |lines| < 2
    ensures ParseAll(lines).Done? && ParseAll(lines).st.entries == map[]
  {
  }

  /** A command-buffer line, with the blanks the dump writes. */
  function BufferLine(v: string): string {
    "  " + BufferField + " " + BufferType + v
  }

  /** The first header of a dump makes its block the current, empty
      entry and loads the line after it. */
  lemma FirstHeader(lines: seq<string>, k: Key)
    requires InInt32(k.frame) && InInt32(k.thread)
    requires |lines| >= 2 && lines[0] == HeaderText(k)
    ensures ThreadFrameStep(lines, Start(lines)) ==
      Done((), St(2, lines[1], 0, map[k.frame := map[k.thread := []]], Some(k)))
  {
    HeaderRoundTrip(k);
    ThreadFrameDone(lines, Start(lines), k, |HeaderText(k)|);
  }

  /** HasCommands also stops at the last line: in a two-line dump the line
      after the header is never parsed as a command, whatever it holds, so
      the block stays empty and the parse succeeds. */
  lemma LastLineNotCommand(lines: seq<string>, k: Key)
    requires InInt32(k.frame) && InInt32(k.thread)
    requires |lines| == 2 && lines[0] == HeaderText(k)
    ensures ParseAll(lines) == Done((), St(2, lines[1], 0, map[k.frame := map[k.thread := []]], Some(k)))
  {
    FirstHeader(lines, k);
    HeaderOnlyBlock(lines, St(2, lines[1], 0, map[k.frame := map[k.thread := []]], Some(k)));
  }

  /** A header that loads the last of two lines ends the parse there. */
  lemma HeaderOnlyBlock(lines: seq<string>, s1: St)
    requires |lines| == 2 && s1.lineIndex == 2 && CurOk(s1)
    requires ThreadFrameStep(lines, Start(lines)) == Done((), s1)
    ensures ParseAll(lines) == Done((), s1)
  {
    assert CommandsLoop(lines, s1) == Done((), s1);
    assert NextLine(lines, s1) == s1;
    assert BlockStep(lines, s1) == Done((), s1);
    assert EntryStep(lines, Start(lines)) == Done((), s1);
    assert ParseLoop(lines, s1) == Done((), s1);
  }

  /** A block whose only command ends at the empty last line: the parse
      ends with that command's outcome. */
  lemma OneCommandBlock(lines: seq<string>, s1: St)
    requires Wf(lines, s1) && s1.lineIndex == 2 && CurOk(s1) && s1.line != "" && |lines| > 2
    requires CommandStep(lines, s1).Done? && CommandStep(lines, s1).st.lineIndex == |lines|
    requires lines[|lines| - 1] == ""
    requires ThreadFrameStep(lines, Start(lines)) == Done((), s1)
    ensures ParseAll(lines) == CommandStep(lines, s1)
  {
    var r := CommandStep(lines, s1);
    CommandStepSpec(lines, s1);
    assert r.st.line == "";
    assert CommandsLoop(lines, r.st) == Done((), r.st);
    assert CommandsLoop(lines, s1) == Done((), r.st);
    assert EntryStep(lines, Start(lines)) == Done((), r.st);
    assert ParseLoop(lines, r.st) == Done((), r.st);
  }

  /** A dump of one block holding one end record, followed by an empty
      line: parsing it succeeds and the table holds exactly that block with
      the record's command-buffer text. The line after the command-buffer
      line is skipped unread. */
  lemma EndBlockParses(lines: seq<string>, k: Key, v: string)
    requires InInt32(k.frame) && InInt32(k.thread)
    requires |lines| == 5 && lines[0] == HeaderText(k) && lines[1] == EndCall
    requires lines[2] == BufferLine(v) && lines[4] == ""
    ensures ParseAll(lines).Done?
    ensures ParseAll(lines).st.entries == map[k.frame := map[k.thread := [EndCmdBuffer(Some(v))]]]
  {
    FirstHeader(lines, k);
    var m1 := map[k.frame := map[k.thread := []]];
    var s1 := St(2, EndCall, 0, m1, Some(k));
    SkipWsTo(EndCall, 0, 0);
    BufferLineRoundTrip("  ", " ", v);
    assert BufferValue(lines[2], 0).Ok? && BufferValue(lines[2], 0).value == v;
    var c := EndCmdBuffer(Some(v));
    AppendToSingle(k, c);
    CommandEnd(lines, s1, 0);
    OneCommandBlock(lines, s1);
  }

  /** A dump of one block holding one begin record and its five trailer
      lines, followed by an empty line: parsing it succeeds and the table
      holds exactly that block with the record's command-buffer text. */
  lemma BeginBlockParses(lines: seq<string>, k: Key, v: string)
    requires InInt32(k.frame) && InInt32(k.thread)
    requires |lines| == 9 && lines[0] == HeaderText(k) && lines[1] == BeginCall
    requires lines[2] == BufferLine(v) && lines[8] == ""
    ensures ParseAll(lines).Done?
    ensures ParseAll(lines).st.entries == map[k.frame := map[k.thread := [BeginCmdBuffer(Some(v))]]]
  {
    FirstHeader(lines, k);
    var m1 := map[k.frame := map[k.thread := []]];
    var s1 := St(2, BeginCall, 0, m1, Some(k));
    SkipWsTo(BeginCall, 0, 0);
    BufferLineRoundTrip("  ", " ", v);
    assert BufferValue(lines[2], 0).Ok? && BufferValue(lines[2], 0).value == v;
    var c := BeginCmdBuffer(Some(v));
    AppendToSingle(k, c);
    CommandBegin(lines, s1, 0);
    OneCommandBlock(lines, s1);
  }

  /** A command line that is blank to its end makes the parse fail. */
  lemma BlankCommandLineFails(lines: seq<string>, k: Key)
    requires InInt32(k.frame) && InInt32(k.thread)
    requires |lines| >= 3 && lines[0] == HeaderText(k) && lines[1] != "" && AllBlank(lines[1])
    ensures ParseAll(lines).Failed?
  {
    FirstHeader(lines, k);
    var s1 := St(2, lines[1], 0, map[k.frame := map[k.thread := []]], Some(k));
    SkipWsSpec(lines[1], 0);
    CommandOnBlanks(lines, s1);
    assert CommandsLoop(lines, s1).Failed?;
  }
}
