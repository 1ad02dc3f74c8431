/** The dump parser as functions of its state: one function per step of
    FParser, each mapping the state before the step to the outcome after it
    (a normal return, or a throw together with the state at that point).
    The functions carry only what their termination needs; what they
    preserve and what they compute is proved in ParserLaws. */
module ParserSpec {
  import opened DumpModel
  import opened Scanner

  const BeginCall := "vkBeginCommandBuffer("
  const EndCall := "vkEndCommandBuffer("

  /** The ReadLine calls a begin record makes after its command-buffer line
      and before ParseCommand's closing ReadLine. */
  const BeginTrailer := 5

  /** Everything of the parser but its input lines: `lineIndex` lines have
      been loaded and `line` is the last of them (empty before the first),
      `col` is the character cursor, `entries` the table and `cur` the key of
      the current entry (none before the first header). */
  datatype St = St(lineIndex: nat, line: string, col: nat, entries: Table, cur: Option<Key>)

  /** Done: the step returned normally; Failed: it threw, leaving `st`. */
  datatype Outcome<T> = Done(value: T, st: St) | Failed(st: St)

  /** The current entry, when there is one, is a block of the table. */
  predicate CurOk(s: St) {
    s.cur.Some? ==> Has(s.entries, s.cur.value)
  }

  /** The states the parser can be in over `lines`. */
  predicate Wf(lines: seq<string>, s: St) {
    s.lineIndex <= |lines| &&
    s.line == (if s.lineIndex == 0 then "" else lines[s.lineIndex - 1]) &&
    s.col <= |s.line| &&
    CurOk(s)
  }

  /** The state right after field initialisation, before the first line is
      loaded. */
  function Initial(): St {
    St(0, "", 0, map[], None)
  }

  function Min(a: int, b: int): int { if a <= b then a else b }

  /** ReadLine: loads the next line and resets the character cursor, or does
      nothing once every line has been loaded. */
  function NextLine(lines: seq<string>, s: St): (r: St)
    ensures r.entries == s.entries && r.cur == s.cur && r.lineIndex >= s.lineIndex
  {
    if s.lineIndex < |lines| then
      s.(lineIndex := s.lineIndex + 1, line := lines[s.lineIndex], col := 0)
    else s
  }

  /** `n` ReadLine calls in a row. */
  function SkipLines(lines: seq<string>, s: St, n: nat): (r: St)
    ensures r.entries == s.entries && r.cur == s.cur && r.lineIndex >= s.lineIndex
    decreases n
  {
    if n == 0 then s else SkipLines(lines, NextLine(lines, s), n - 1)
  }

  /** ParseThreadFrame: read the header, then look up or create the entry of
      its (frame, thread) pair and make it current, then load the next line.
      The table is touched only once the whole header has been read. */
  function ThreadFrameStep(lines: seq<string>, s: St): (r: Outcome<()>)
    ensures r.st.lineIndex >= s.lineIndex
    ensures r.Done? ==> CurOk(r.st)
  {
    HeaderThen(lines, s, HeaderAt(s.line, s.col))
  }

  /** The rest of ParseThreadFrame once the header scan `h` is known. */
  function HeaderThen(lines: seq<string>, s: St, h: Scan<Key>): (r: Outcome<()>)
    ensures r.st.lineIndex >= s.lineIndex
    ensures r.Done? ==> CurOk(r.st)
  {
    match h
    case Fault(c) => Failed(s.(col := c))
    case Ok(k, c) =>
      Done((), NextLine(lines, s.(col := c, entries := AddEntry(s.entries, k), cur := Some(k))))
  }

  /** ThreadFrameStep on a header it cannot read. */
  lemma ThreadFrameFault(lines: seq<string>, s: St, c: nat)
    requires HeaderAt(s.line, s.col) == Fault(c)
    ensures ThreadFrameStep(lines, s) == Failed(s.(col := c))
  {
  }

  /** ThreadFrameStep on a header it reads up to column `c`. */
  lemma ThreadFrameDone(lines: seq<string>, s: St, k: Key, c: nat)
    requires HeaderAt(s.line, s.col) == Ok(k, c)
    ensures ThreadFrameStep(lines, s) == Done((), NextLine(lines, s.(col := c, entries := AddEntry(s.entries, k), cur := Some(k))))
  {
  }

  /** HasCommands: the loaded line is not empty and it is not the last line. */
  predicate HasCommandsAt(lines: seq<string>, s: St): (b: bool)
    ensures s.line == "" ==> !b
    ensures s.lineIndex >= |lines| ==> !b
  {
    s.line != "" && s.lineIndex < |lines|
  }

  /** ParseCommandBuffer: read the command-buffer text of the loaded line,
      then load the next line. */
  function CommandBufferStep(lines: seq<string>, s: St): (r: Outcome<string>)
    ensures r.st.entries == s.entries && r.st.cur == s.cur && r.st.lineIndex >= s.lineIndex
  {
    BufferThen(lines, s, BufferValue(s.line, s.col))
  }

  /** The rest of ParseCommandBuffer once the scan `b` of the line is
      known. */
  function BufferThen(lines: seq<string>, s: St, b: Scan<string>): (r: Outcome<string>)
    ensures r.st.entries == s.entries && r.st.cur == s.cur && r.st.lineIndex >= s.lineIndex
  {
    match b
    case Fault(c) => Failed(s.(col := c))
    case Ok(v, c) => Done(v, NextLine(lines, s.(col := c)))
  }

  /** ParseCommand: skip blanks, handle a begin or an end record (CallStep),
      then load one more line. */
  function CommandStep(lines: seq<string>, s: St): (r: Outcome<()>)
    requires CurOk(s)
    ensures CurOk(r.st) && r.st.cur == s.cur && r.st.lineIndex >= s.lineIndex
    ensures r.Done? && s.lineIndex < |lines| ==> r.st.lineIndex > s.lineIndex
  {
    match SkipWs(s.line, s.col)
    case Fault(c) => Failed(s.(col := c))
    case Ok(_, c0) =>
      match CallStep(lines, s.(col := c0))
      case Failed(s1) => Failed(s1)
      case Done(_, s1) => Done((), NextLine(lines, s1))
  }

  /** The if of ParseCommand: a begin record appends a begin item, reads
      its command buffer from the next line, then skips the trailer;
      otherwise OtherCallStep decides. */
  function CallStep(lines: seq<string>, s: St): (r: Outcome<()>)
    requires CurOk(s)
    ensures CurOk(r.st) && r.st.cur == s.cur && r.st.lineIndex >= s.lineIndex
  {
    if Peek(s.line, s.col, BeginCall) then BeginRecordStep(lines, s.(col := s.col + |BeginCall|))
    else OtherCallStep(lines, s)
  }

  /** The else-if of ParseCommand: an end record, or nothing. */
  function OtherCallStep(lines: seq<string>, s: St): (r: Outcome<()>)
    requires CurOk(s)
    ensures CurOk(r.st) && r.st.cur == s.cur && r.st.lineIndex >= s.lineIndex
  {
    if Peek(s.line, s.col, EndCall) then EndRecordStep(lines, s.(col := s.col + |EndCall|))
    else Done((), s)
  }

  /** The begin branch of ParseCommand, after the call: load the next line,
      record a begin item, then make the trailer's ReadLine calls. */
  function BeginRecordStep(lines: seq<string>, s: St): (r: Outcome<()>)
    requires CurOk(s)
    ensures CurOk(r.st) && r.st.cur == s.cur && r.st.lineIndex >= s.lineIndex
  {
    match RecordStep(lines, NextLine(lines, s), BeginCmdBuffer(None))
    case Failed(s1) => Failed(s1)
    case Done(_, s1) => Done((), SkipLines(lines, s1, BeginTrailer))
  }

  /** The end branch of ParseCommand, after the call: load the next line and
      record an end item. */
  function EndRecordStep(lines: seq<string>, s: St): (r: Outcome<()>)
    requires CurOk(s)
    ensures CurOk(r.st) && r.st.cur == s.cur && r.st.lineIndex >= s.lineIndex
  {
    RecordStep(lines, NextLine(lines, s), EndCmdBuffer(None))
  }

  /** The part both records share: append the item to the current entry
      (this throws when there is none), then read the command buffer, which
      loads the next line, and store it in that item. */
  function RecordStep(lines: seq<string>, s: St, item: Command): (r: Outcome<()>)
    requires CurOk(s)
    ensures CurOk(r.st) && r.st.cur == s.cur && r.st.lineIndex >= s.lineIndex
  {
    if s.cur.None? then Failed(s)
    else FillStep(lines, s.(entries := Append(s.entries, s.cur.value, item)))
  }

  /** The assignment of the parsed command buffer to the item just
      appended: read the text, then store it in the last item of the
      current entry. */
  function FillStep(lines: seq<string>, s: St): (r: Outcome<()>)
    requires s.cur.Some? && Has(s.entries, s.cur.value) && |s.entries[s.cur.value.frame][s.cur.value.thread]| > 0
    ensures CurOk(r.st) && r.st.cur == s.cur && r.st.lineIndex >= s.lineIndex
  {
    FillThen(lines, s, CommandBufferStep(lines, s))
  }

  /** The rest of FillStep once ParseCommandBuffer's outcome `o` is known. */
  function FillThen(lines: seq<string>, s: St, o: Outcome<string>): (r: Outcome<()>)
    requires s.cur.Some? && Has(s.entries, s.cur.value) && |s.entries[s.cur.value.frame][s.cur.value.thread]| > 0
    requires o.st.entries == s.entries && o.st.cur == s.cur && o.st.lineIndex >= s.lineIndex
    ensures CurOk(r.st) && r.st.cur == s.cur && r.st.lineIndex >= s.lineIndex
  {
    match o
    case Failed(s2) => Failed(s2)
    case Done(cb, s2) => Done((), s2.(entries := SetLastBuffer(s2.entries, s.cur.value, cb)))
  }

  /** The block loop of ParseEntry: parse commands while HasCommands holds.
      It stops at the first empty line, or once the last line has been
      loaded. */
  function CommandsLoop(lines: seq<string>, s: St): (r: Outcome<()>)
    requires CurOk(s)
    ensures r.st.lineIndex >= s.lineIndex
    decreases |lines| - s.lineIndex
  {
    if !HasCommandsAt(lines, s) then Done((), s)
    else
      match CommandStep(lines, s)
      case Failed(s1) => Failed(s1)
      case Done(_, s1) => CommandsLoop(lines, s1)
  }

  /** ParseEntry: a header, then its block. */
  function EntryStep(lines: seq<string>, s: St): (r: Outcome<()>)
    ensures r.st.lineIndex >= s.lineIndex
    ensures r.Done? && s.lineIndex < |lines| ==> r.st.lineIndex > s.lineIndex
  {
    match ThreadFrameStep(lines, s)
    case Failed(s1) => Failed(s1)
    case Done(_, s1) => BlockStep(lines, s1)
  }

  /** The rest of ParseEntry after the header: its commands, then the line
      after the block. */
  function BlockStep(lines: seq<string>, s: St): (r: Outcome<()>)
    requires CurOk(s)
    ensures r.st.lineIndex >= s.lineIndex
    ensures r.Done? && s.lineIndex < |lines| ==> r.st.lineIndex > s.lineIndex
  {
    match CommandsLoop(lines, s)
    case Failed(s2) => Failed(s2)
    case Done(_, s2) => Done((), NextLine(lines, s2))
  }

  /** The loop of Parse: parse blocks while some line is left unloaded. */
  function ParseLoop(lines: seq<string>, s: St): (r: Outcome<()>)
    ensures r.Done? ==> r.st.lineIndex >= |lines|
    decreases |lines| - s.lineIndex
  {
    if s.lineIndex >= |lines| then Done((), s)
    else
      match EntryStep(lines, s)
      case Failed(s1) => Failed(s1)
      case Done(_, s1) => ParseLoop(lines, s1)
  }

  /** The constructor's first ReadLine. */
  function Start(lines: seq<string>): (r: St)
    ensures r.entries == map[] && r.cur == None && r.lineIndex == Min(1, |lines|)
  {
    NextLine(lines, Initial())
  }

  /** A whole parse: construct, then Parse. Parse returns true exactly when
      the outcome is Done; the table is what Entries holds afterwards, also
      after a failure. */
  function ParseAll(lines: seq<string>): (r: Outcome<()>)
    ensures r.Done? ==> r.st.lineIndex >= |lines|
  {
    ParseLoop(lines, Start(lines))
  }
}
