/** The character cursor of the dump parser: skipping blanks, matching a
    keyword, peeking at a keyword, reading an integer and reading a block
    header, each as a function of the line and the column it starts at. */
module Scanner {
  import opened DumpModel

  /** The outcome of a scan over one line: a value and the new column, or a
      fault (the parser throws) together with the column where it arose. */
  datatype Scan<T> = Ok(value: T, col: nat) | Fault(col: nat)

  const MinInt32: int := -0x8000_0000
  const MaxInt32: int := 0x7FFF_FFFF

  predicate IsBlank(c: char) { c == ' ' || c == '\t' }

  predicate IsDigit(c: char) { '0' <= c <= '9' }

  predicate AllDigits(s: string) { forall m | 0 <= m < |s| :: IsDigit(s[m]) }

  predicate InInt32(n: int) { MinInt32 <= n <= MaxInt32 }

  /** Skips spaces and tabs. The character at the cursor is read before the
      cursor is compared with the line length (and C#'s precedence attaches
      that comparison to the tab test only), so a blank run that reaches the
      end of the line faults instead of stopping there (SkipWsSpec). */
  function SkipWs(chars: seq<char>, i: nat): (r: Scan<()>)
    ensures r.Ok? ==> i <= r.col < |chars| && !IsBlank(chars[r.col])
    ensures r.Fault? ==> r.col == if i <= |chars| then |chars| else i
    decreases |chars| - i
  {
    if i >= |chars| then Fault(i)
    else if chars[i] == ' ' || (chars[i] == '\t' && i < |chars|) then SkipWs(chars, i + 1)
    else Ok((), i)
  }

  /** The digit loop of ParseInt: like SkipWs, it faults when the run of
      digits reaches the end of the line. */
  function DigitRun(chars: seq<char>, i: nat): (r: Scan<()>)
    ensures r.Ok? ==> i <= r.col < |chars| && !IsDigit(chars[r.col])
    ensures r.Fault? ==> r.col == if i <= |chars| then |chars| else i
    decreases |chars| - i
  {
    if i >= |chars| then Fault(i)
    else if chars[i] >= '0' && chars[i] <= '9' && i < |chars| then DigitRun(chars, i + 1)
    else Ok((), i)
  }

  /** `k` occurs in `s` starting at position `p`. */
  predicate OccursAt(s: string, k: string, p: nat) {
    p + |k| <= |s| && s[p..p + |k|] == k
  }

  /** `s.IndexOf(k, start, count)` compared character by character: the
      first position of `k` lying wholly inside `s[start..start + count]`,
      or -1. The caller must keep the window inside `s` (otherwise .NET
      throws). */
  function IndexOfIn(s: string, k: string, start: nat, count: nat): (p: int)
    requires start + count <= |s|
    ensures p == -1 || (start <= p && p + |k| <= start + count && OccursAt(s, k, p))
    decreases count
  {
    if |k| > count then -1
    else if s[start..start + |k|] == k then start
    else IndexOfIn(s, k, start + 1, count - 1)
  }

  /** Match: skip blanks, then require `k` at the cursor and step over it.
      The search window handed to IndexOf is exactly `|k|` wide, so the only
      position it can report is the cursor itself. */
  function MatchAt(line: string, i: nat, k: string): (r: Scan<()>)
    ensures r.Ok? ==> r.col <= |line|
    ensures i <= |line| ==> r.col <= |line|
  {
    match SkipWs(line, i)
    case Fault(c) => Fault(c)
    case Ok(_, j) =>
      if j + |k| > |line| then Fault(j)
      else if IndexOfIn(line, k, j, |k|) == j then Ok((), j + |k|)
      else Fault(j)
  }

  /** PeekAndAdvance's test: `k` fits in the rest of the line and IndexOf
      finds it in a window of exactly `|k|` characters at the cursor. */
  function Peek(line: string, i: nat, k: string): (found: bool)
    ensures found <==> OccursAt(line, k, i)
  {
    i + |k| <= |line| && IndexOfIn(line, k, i, |k|) != -1
  }

  /** The numeric value of a run of decimal digits. */
  function DecimalValue(d: string): (v: nat)
    requires AllDigits(d)
    decreases |d|
  {
    if |d| == 0 then 0
    else 10 * DecimalValue(d[..|d| - 1]) + (d[|d| - 1] as int - '0' as int)
  }

  /** The texts ParseInt hands to `int.TryParse`: an optional minus sign and
      then at least one digit. */
  predicate IsIntText(t: string) {
    |t| > 0 &&
    if t[0] == '-' then |t| > 1 && AllDigits(t[1..]) else AllDigits(t)
  }

  /** The signed value of an integer text. */
  function IntValue(t: string): int
    requires IsIntText(t)
  {
    if t[0] == '-' then -(DecimalValue(t[1..]) as int) else DecimalValue(t)
  }

  /** `int.TryParse` on a text made of an optional minus sign and digits:
      the signed decimal value if there is at least one digit and the value
      fits in 32 bits, and nothing otherwise. */
  function Int32Parse(t: string): (r: Option<int>)
    ensures r.Some? <==> IsIntText(t) && InInt32(IntValue(t))
    ensures r.Some? ==> r.value == IntValue(t)
  {
    var neg := |t| > 0 && t[0] == '-';
    var digits := if neg then t[1..] else t;
    if |digits| == 0 || !AllDigits(digits) then None
    else
      var v := if neg then -(DecimalValue(digits) as int) else DecimalValue(digits);
      if InInt32(v) then Some(v) else None
  }

  /** ParseInt: skip blanks, an optional `-`, then the digit run; the text
      from the first non-blank to the first non-digit must parse as an int.
      The line must not end right after the sign, nor inside the digits. */
  function ScanInt(line: string, i: nat): (r: Scan<int>)
    ensures i <= |line| ==> r.col <= |line|
    ensures r.Ok? ==> InInt32(r.value)
  {
    match SkipWs(line, i)
    case Fault(c) => Fault(c)
    case Ok(_, start) =>
      var k := if line[start] == '-' then start + 1 else start;
      if k == |line| then Fault(k)
      else
        match DigitRun(line, k)
        case Fault(c) => Fault(c)
        case Ok(_, e) =>
          match Int32Parse(line[start..e])
          case None => Fault(e)
          case Some(v) => Ok(v, e)
  }

  /** ParseThreadFrame's grammar, `Thread INT , Frame INT :`, read from
      column `i`; the key holds the frame and thread numbers. Each of the
      functions below reads one item and hands the rest of the line to the
      next. */
  function HeaderAt(line: string, i: nat): (r: Scan<Key>)
    ensures i <= |line| ==> r.col <= |line|
    ensures r.Ok? ==> InInt32(r.value.frame) && InInt32(r.value.thread)
  {
    match MatchAt(line, i, "Thread")
    case Fault(c) => Fault(c)
    case Ok(_, c1) => HeaderThread(line, c1)
  }

  function HeaderThread(line: string, i: nat): (r: Scan<Key>)
    ensures i <= |line| ==> r.col <= |line|
    ensures r.Ok? ==> InInt32(r.value.frame) && InInt32(r.value.thread)
  {
    match ScanInt(line, i)
    case Fault(c) => Fault(c)
    case Ok(thread, c2) => HeaderComma(line, c2, thread)
  }

  function HeaderComma(line: string, i: nat, thread: int): (r: Scan<Key>)
    requires InInt32(thread)
    ensures i <= |line| ==> r.col <= |line|
    ensures r.Ok? ==> InInt32(r.value.frame) && r.value.thread == thread
  {
    match MatchAt(line, i, ",")
    case Fault(c) => Fault(c)
    case Ok(_, c3) => HeaderFrameWord(line, c3, thread)
  }

  function HeaderFrameWord(line: string, i: nat, thread: int): (r: Scan<Key>)
    requires InInt32(thread)
    ensures i <= |line| ==> r.col <= |line|
    ensures r.Ok? ==> InInt32(r.value.frame) && r.value.thread == thread
  {
    match MatchAt(line, i, "Frame")
    case Fault(c) => Fault(c)
    case Ok(_, c4) => HeaderFrame(line, c4, thread)
  }

  function HeaderFrame(line: string, i: nat, thread: int): (r: Scan<Key>)
    requires InInt32(thread)
    ensures i <= |line| ==> r.col <= |line|
    ensures r.Ok? ==> InInt32(r.value.frame) && r.value.thread == thread
  {
    match ScanInt(line, i)
    case Fault(c) => Fault(c)
    case Ok(frame, c5) => HeaderColon(line, c5, Key(frame, thread))
  }

  function HeaderColon(line: string, i: nat, k: Key): (r: Scan<Key>)
    ensures i <= |line| ==> r.col <= |line|
    ensures r.Ok? ==> r.value == k
  {
    match MatchAt(line, i, ":")
    case Fault(c) => Fault(c)
    case Ok(_, c6) => Ok(k, c6)
  }

  const BufferField := "commandBuffer:"
  const BufferType := "VkCommandBuffer = "

  /** ParseCommandBuffer's line: `commandBuffer:` and `VkCommandBuffer = `,
      each after blanks; the value is the raw rest of the line, whatever it
      holds. */
  function BufferValue(line: string, i: nat): (r: Scan<string>)
    ensures r.Ok? ==> r.col <= |line| && r.value == line[r.col..]
    ensures i <= |line| ==> r.col <= |line|
  {
    match SkipWs(line, i)
    case Fault(c) => Fault(c)
    case Ok(_, c0) =>
      match MatchAt(line, c0, BufferField)
      case Fault(c) => Fault(c)
      case Ok(_, c1) =>
        match SkipWs(line, c1)
        case Fault(c) => Fault(c)
        case Ok(_, c2) =>
          match MatchAt(line, c2, BufferType)
          case Fault(c) => Fault(c)
          case Ok(_, c3) => Ok(line[c3..], c3)
  }
}
