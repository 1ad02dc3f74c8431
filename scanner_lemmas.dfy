/** What the cursor operations accept, and the header printer that the
    header reader inverts. */
module ScannerLemmas {
  import opened DumpModel
  import opened Scanner

  /** SkipWs steps over blanks only, and faults exactly when nothing but
      blanks is left on the line. */
  lemma {:induction false} SkipWsSpec(chars: seq<char>, i: nat)
    ensures SkipWs(chars, i).Ok? ==> forall m | i <= m < SkipWs(chars, i).col :: IsBlank(chars[m])
    ensures SkipWs(chars, i).Fault? <==> forall m | i <= m < |chars| :: IsBlank(chars[m])
    decreases |chars| - i
  {
    if i < |chars| && IsBlank(chars[i]) {
      SkipWsSpec(chars, i + 1);
    }
  }

  /** The digit loop steps over digits only, and faults exactly when nothing
      but digits is left on the line. */
  lemma {:induction false} DigitRunSpec(chars: seq<char>, i: nat)
    ensures DigitRun(chars, i).Ok? ==> forall m | i <= m < DigitRun(chars, i).col :: IsDigit(chars[m])
    ensures DigitRun(chars, i).Fault? <==> forall m | i <= m < |chars| :: IsDigit(chars[m])
    decreases |chars| - i
  {
    if i < |chars| && IsDigit(chars[i]) {
      DigitRunSpec(chars, i + 1);
    }
  }

  /** IndexOf reports the leftmost occurrence inside its window, and -1 only
      when there is none. */
  lemma {:induction false} IndexOfInSpec(s: string, k: string, start: nat, count: nat)
    requires start + count <= |s|
    ensures var p := IndexOfIn(s, k, start, count);
      p != -1 ==> forall q | start <= q < p :: !OccursAt(s, k, q)
    ensures var p := IndexOfIn(s, k, start, count);
      p == -1 ==> forall q | start <= q && q + |k| <= start + count :: !OccursAt(s, k, q)
    decreases count
  {
    if |k| <= count && s[start..start + |k|] != k {
      IndexOfInSpec(s, k, start + 1, count - 1);
    }
  }

  /** SkipWs stops exactly at the first non-blank. */
  lemma {:induction false} SkipWsTo(line: string, i: nat, j: nat)
    requires i <= j < |line| && !IsBlank(line[j])
    requires forall m | i <= m < j :: IsBlank(line[m])
    ensures SkipWs(line, i) == Ok((), j)
    decreases j - i
  {
    if i < j {
      SkipWsTo(line, i + 1, j);
    }
  }

  /** The digit loop stops exactly at the first non-digit. */
  lemma {:induction false} DigitRunTo(line: string, i: nat, j: nat)
    requires i <= j < |line| && !IsDigit(line[j])
    requires forall m | i <= m < j :: IsDigit(line[m])
    ensures DigitRun(line, i) == Ok((), j)
    decreases j - i
  {
    if i < j {
      DigitRunTo(line, i + 1, j);
    }
  }

  /** Match succeeds exactly when the keyword sits right after the blanks,
      and then steps over it; on a mismatch the cursor is left after the
      blanks. */
  lemma MatchAtSpec(line: string, i: nat, k: string)
    ensures MatchAt(line, i, k).Ok? <==> SkipWs(line, i).Ok? && OccursAt(line, k, SkipWs(line, i).col)
    ensures MatchAt(line, i, k).Ok? ==> MatchAt(line, i, k).col == SkipWs(line, i).col + |k|
    ensures MatchAt(line, i, k).Fault? && SkipWs(line, i).Ok? ==> MatchAt(line, i, k).col == SkipWs(line, i).col
  {
    var s := SkipWs(line, i);
    if s.Ok? && s.col + |k| <= |line| {
      var p := IndexOfIn(line, k, s.col, |k|);
      assert p == s.col <==> OccursAt(line, k, s.col);
    }
  }

  /** Match steps over a keyword that sits right after the blanks. */
  lemma MatchLit(line: string, i: nat, j: nat, k: string)
    requires SkipWs(line, i) == Ok((), j) && OccursAt(line, k, j)
    ensures MatchAt(line, i, k) == Ok((), j + |k|)
  {
    assert IndexOfIn(line, k, j, |k|) == j;
  }

  /** ParseInt reads, after the blanks, an integer text with a 32-bit value
      that a non-digit follows on the same line. */
  lemma ScanIntSpec(line: string, i: nat)
    ensures ScanInt(line, i).Ok? ==> SkipWs(line, i).Ok?
    ensures ScanInt(line, i).Ok? ==>
      var j, e := SkipWs(line, i).col, ScanInt(line, i).col;
      j < e < |line| && !IsDigit(line[e]) &&
      IsIntText(line[j..e]) && Int32Parse(line[j..e]) == Some(ScanInt(line, i).value)
  {
  }

  /** The converse of ScanIntSpec: an integer text with a 32-bit
      value, followed on the same line by a non-digit, is read whole. */
  lemma ScanIntAccepts(line: string, i: nat, j: nat, e: nat)
    requires SkipWs(line, i) == Ok((), j)
    requires j < e < |line| && !IsDigit(line[e])
    requires IsIntText(line[j..e]) && InInt32(IntValue(line[j..e]))
    ensures ScanInt(line, i) == Ok(IntValue(line[j..e]), e)
  {
    var t := line[j..e];
    var k := if line[j] == '-' then j + 1 else j;
    assert t[0] == line[j];
    SkipWsSpec(line, i);
    forall m | k <= m < e ensures IsDigit(line[m]) {
      assert line[m] == t[m - j];
      if line[j] == '-' {
        assert t[1..][m - j - 1] == t[m - j];
      }
    }
    DigitRunTo(line, k, e);
  }

  /** A digit run that reaches the end of the line makes ParseInt fault,
      whatever the digits are. */
  lemma ScanIntFaultsAtEndOfLine(line: string, i: nat, j: nat)
    requires SkipWs(line, i) == Ok((), j)
    requires forall m | (if line[j] == '-' then j + 1 else j) <= m < |line| :: IsDigit(line[m])
    ensures ScanInt(line, i).Fault?
  {
    var k := if line[j] == '-' then j + 1 else j;
    if k < |line| {
      DigitRunSpec(line, k);
    }
  }

  function DigitChar(d: nat): (c: char)
    requires d < 10
    ensures IsDigit(c) && c as int - '0' as int == d
  {
    ('0' as int + d) as char
  }

  /** Decimal text of a natural number, without leading zeros. */
  function NatText(n: nat): (s: string)
    ensures |s| >= 1 && AllDigits(s)
    decreases n
  {
    if n < 10 then [DigitChar(n)] else NatText(n / 10) + [DigitChar(n % 10)]
  }

  /** Decimal text of an integer, with a leading `-` when negative. */
  function IntText(n: int): (s: string)
    ensures IsIntText(s)
  {
    if n < 0 then "-" + NatText(-n) else NatText(n)
  }

  lemma {:induction false} NatTextValue(n: nat)
    ensures DecimalValue(NatText(n)) == n
  {
    if n >= 10 {
      NatTextValue(n / 10);
      var s := NatText(n);
      assert s[..|s| - 1] == NatText(n / 10);
    }
  }

  /** `int.TryParse` reads back every 32-bit integer's decimal text. */
  lemma Int32ParseIntText(n: int)
    requires InInt32(n)
    ensures Int32Parse(IntText(n)) == Some(n)
  {
    var s := IntText(n);
    if n < 0 {
      NatTextValue(-n);
      assert s[1..] == NatText(-n);
    } else {
      NatTextValue(n);
      assert s[0] != '-';
    }
  }

  /** The header line the dump writes for one (frame, thread) block. */
  function HeaderText(k: Key): string {
    "Thread " + IntText(k.thread) + ", Frame " + IntText(k.frame) + ":"
  }

  /** The `Thread INT ,` part of a header line: what is left to read is
      the frame part. */
  lemma ThreadPart(line: string, a: string)
    requires |line| > 8 + |a| && line[..8 + |a|] == "Thread " + a + ","
    requires IsIntText(a) && InInt32(IntValue(a))
    ensures HeaderAt(line, 0) == HeaderFrameWord(line, 8 + |a|, IntValue(a))
  {
    var n := |a|;
    var head := line[..8 + n];
    assert line[0..6] == head[0..6] == "Thread";
    assert line[6] == head[6] == ' ';
    assert line[7..7 + n] == head[7..7 + n] == a;
    assert line[7] == a[0];
    assert line[7 + n] == head[7 + n] == ',';
    assert line[7 + n..8 + n] == [line[7 + n]];
    SkipWsTo(line, 0, 0);
    MatchLit(line, 0, 0, "Thread");
    SkipWsTo(line, 6, 7);
    ScanIntAccepts(line, 6, 7, 7 + n);
    SkipWsTo(line, 7 + n, 7 + n);
    MatchLit(line, 7 + n, 7 + n, ",");
  }

  /** The ` Frame INT :` part of a header line, from column `p` to the end. */
  lemma FramePart(line: string, p: nat, b: string, thread: int)
    requires p <= |line| && line[p..] == " Frame " + b + ":"
    requires IsIntText(b) && InInt32(IntValue(b)) && InInt32(thread)
    ensures HeaderFrameWord(line, p, thread) == Ok(Key(IntValue(b), thread), |line|)
  {
    var m := |b|;
    var tail := line[p..];
    assert |line| == p + 8 + m;
    assert line[p] == tail[0] == ' ';
    assert line[p + 1..p + 6] == tail[1..6] == "Frame";
    assert line[p + 6] == tail[6] == ' ';
    assert line[p + 7..p + 7 + m] == tail[7..7 + m] == b;
    assert line[p + 7 + m] == tail[7 + m] == ':';
    FrameSteps(line, p, b, thread);
  }

  lemma FrameSteps(line: string, p: nat, b: string, thread: int)
    requires |line| == p + 8 + |b|
    requires line[p] == ' ' && line[p + 1..p + 6] == "Frame" && line[p + 6] == ' '
    requires line[p + 7..p + 7 + |b|] == b && line[p + 7 + |b|] == ':'
    requires IsIntText(b) && InInt32(IntValue(b)) && InInt32(thread)
    ensures HeaderFrameWord(line, p, thread) == Ok(Key(IntValue(b), thread), |line|)
  {
    SkipWsTo(line, p, p + 1);
    MatchLit(line, p, p + 1, "Frame");
    FrameNumber(line, p + 6, b, thread);
  }

  lemma FrameNumber(line: string, q: nat, b: string, thread: int)
    requires |line| == q + 2 + |b|
    requires line[q] == ' ' && line[q + 1..q + 1 + |b|] == b && line[q + 1 + |b|] == ':'
    requires IsIntText(b) && InInt32(IntValue(b)) && InInt32(thread)
    ensures HeaderFrame(line, q, thread) == Ok(Key(IntValue(b), thread), |line|)
  {
    FrameInt(line, q, b);
    ColonEnd(line, q + 1 + |b|, Key(IntValue(b), thread));
  }

  /** The blank and the number of a frame field. */
  lemma FrameInt(line: string, q: nat, b: string)
    requires q + 1 + |b| < |line|
    requires line[q] == ' ' && line[q + 1..q + 1 + |b|] == b && line[q + 1 + |b|] == ':'
    requires IsIntText(b) && InInt32(IntValue(b))
    ensures ScanInt(line, q) == Ok(IntValue(b), q + 1 + |b|)
  {
    assert line[q + 1] == b[0];
    SkipWsTo(line, q, q + 1);
    ScanIntAccepts(line, q, q + 1, q + 1 + |b|);
  }

  /** A colon that ends the line. */
  lemma ColonEnd(line: string, i: nat, k: Key)
    requires i + 1 == |line| && line[i] == ':'
    ensures HeaderColon(line, i, k) == Ok(k, |line|)
  {
    assert line[i..i + 1] == [line[i]];
    SkipWsTo(line, i, i);
    MatchLit(line, i, i, ":");
  }

  /** ParseThreadFrame's grammar reads back the key of every header line
      with 32-bit numbers, and consumes the whole line. */
  lemma HeaderRoundTrip(k: Key)
    requires InInt32(k.frame) && InInt32(k.thread)
    ensures HeaderAt(HeaderText(k), 0) == Ok(k, |HeaderText(k)|)
  {
    Int32ParseIntText(k.thread);
    Int32ParseIntText(k.frame);
    HeaderOfTexts(HeaderText(k), IntText(k.thread), IntText(k.frame));
  }

  lemma HeaderOfTexts(line: string, a: string, b: string)
    requires line == "Thread " + a + ", Frame " + b + ":"
    requires IsIntText(a) && InInt32(IntValue(a)) && IsIntText(b) && InInt32(IntValue(b))
    ensures HeaderAt(line, 0) == Ok(Key(IntValue(b), IntValue(a)), |line|)
  {
    var head, tail := "Thread " + a + ",", " Frame " + b + ":";
    assert line == head + tail;
    assert line[..|head|] == head;
    assert line[|head|..] == tail;
    ThreadPart(line, a);
    FramePart(line, |head|, b, IntValue(a));
  }

  predicate AllBlank(s: string) { forall m | 0 <= m < |s| :: IsBlank(s[m]) }

  /** ParseCommandBuffer reads back, as its value, whatever text ends a
      command-buffer line, whatever blanks lead the line and follow the
      field name. */
  lemma BufferLineRoundTrip(pad1: string, pad2: string, v: string)
    requires AllBlank(pad1) && AllBlank(pad2)
    ensures var line := pad1 + BufferField + pad2 + BufferType + v;
      BufferValue(line, 0) == Ok(v, |line| - |v|)
  {
    var line := pad1 + BufferField + pad2 + BufferType + v;
    var c0 := |pad1|;
    var c1 := c0 + |BufferField|;
    var c2 := c1 + |pad2|;
    var c3 := c2 + |BufferType|;
    assert line[c0..c1] == BufferField;
    assert line[c1..c2] == pad2;
    assert line[c2..c3] == BufferType;
    assert line[c3..] == v;
    SkipWsTo(line, 0, c0);
    MatchLit(line, c0, c0, BufferField);
    SkipWsTo(line, c1, c2);
    MatchLit(line, c2, c2, BufferType);
  }
}
