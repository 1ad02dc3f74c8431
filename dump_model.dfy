/** Values of the dump viewer's trace model: the commands recorded per
    (frame, thread) block and the two-level table that holds them. */
module DumpModel {

  datatype Option<T> = None | Some(value: T)

  /** One recorded item of an entry. The command-buffer text is `None`
      until the record's `commandBuffer:` line has been read: the item is
      appended before that line is parsed. */
  datatype Command =
    | BeginCmdBuffer(cmdBuffer: Option<string>)
    | EndCmdBuffer(cmdBuffer: Option<string>)

  /** The key of one dump block: `Thread <thread>, Frame <frame>:`. */
  datatype Key = Key(frame: int, thread: int)

  /** Entries: frame -> thread -> the items of that block, in input order. */
  type Table = map<int, map<int, seq<Command>>>

  const BeginSuffix := ": BEGIN"
  const EndSuffix := ": END"

  /** The tree-view label of an item: the command-buffer text (empty while
      unset, as a null string concatenates to nothing) and a tag. */
  function Label(c: Command): (s: string)
    ensures c.BeginCmdBuffer? ==> |s| >= |BeginSuffix| && s[|s| - |BeginSuffix|..] == BeginSuffix
    ensures c.EndCmdBuffer? ==> |s| >= |EndSuffix| && s[|s| - |EndSuffix|..] == EndSuffix
    ensures c.cmdBuffer.None? ==> s == BeginSuffix || s == EndSuffix
    ensures c.cmdBuffer.Some? ==> |c.cmdBuffer.value| <= |s| && s[..|c.cmdBuffer.value|] == c.cmdBuffer.value
    ensures |s| == (if c.cmdBuffer.Some? then |c.cmdBuffer.value| else 0) + (if c.BeginCmdBuffer? then |BeginSuffix| else |EndSuffix|)
  {
    var text := if c.cmdBuffer.Some? then c.cmdBuffer.value else "";
    text + (if c.BeginCmdBuffer? then BeginSuffix else EndSuffix)
  }

  predicate Has(t: Table, k: Key) {
    k.frame in t && k.thread in t[k.frame]
  }

  /** The lookup-or-create step of a header: a frame is added only when
      absent, a thread only when absent under its frame. */
  function AddEntry(t: Table, k: Key): (r: Table)
    ensures Has(r, k)
  {
    var t1 := if k.frame in t then t else t[k.frame := map[]];
    if k.thread in t1[k.frame] then t1
    else t1[k.frame := t1[k.frame][k.thread := []]]
  }

  /** AddEntry adds exactly the frame and thread of `k`, the block of `k`
      is empty when it is new, and no existing block changes. */
  lemma AddEntrySpec(t: Table, k: Key)
    ensures AddEntry(t, k).Keys == t.Keys + {k.frame}
    ensures forall f | f in t && f != k.frame :: AddEntry(t, k)[f] == t[f]
    ensures k.frame in t ==> AddEntry(t, k)[k.frame].Keys == t[k.frame].Keys + {k.thread}
    ensures k.frame !in t ==> AddEntry(t, k)[k.frame].Keys == {k.thread}
    ensures forall th | k.frame in t && th in t[k.frame] :: AddEntry(t, k)[k.frame][th] == t[k.frame][th]
    ensures !Has(t, k) ==> AddEntry(t, k)[k.frame][k.thread] == []
  {
  }

  /** Appends one item to the block `k`. */
  function Append(t: Table, k: Key, c: Command): (r: Table)
    requires Has(t, k)
    ensures Has(r, k) && r[k.frame][k.thread] == t[k.frame][k.thread] + [c]
  {
    t[k.frame := t[k.frame][k.thread := t[k.frame][k.thread] + [c]]]
  }

  /** Appending to a one-block table that is still empty. */
  lemma AppendToSingle(k: Key, c: Command)
    ensures Append(map[k.frame := map[k.thread := []]], k, c) == map[k.frame := map[k.thread := [c]]]
  {
    var row: map<int, seq<Command>> := map[k.thread := []];
    assert [] + [c] == [c];
    assert row[k.thread := [c]] == map[k.thread := [c]];
  }

  /** Append changes no key and no other block. */
  lemma AppendSpec(t: Table, k: Key, c: Command)
    requires Has(t, k)
    ensures Append(t, k, c).Keys == t.Keys && Append(t, k, c)[k.frame].Keys == t[k.frame].Keys
    ensures forall f, th | Has(t, Key(f, th)) && Key(f, th) != k ::
      Has(Append(t, k, c), Key(f, th)) && Append(t, k, c)[f][th] == t[f][th]
  {
  }

  /** Sets the command-buffer text of the last item of block `k`. */
  function SetLastBuffer(t: Table, k: Key, cb: string): (r: Table)
    requires Has(t, k) && |t[k.frame][k.thread]| > 0
    ensures Has(r, k) && |r[k.frame][k.thread]| == |t[k.frame][k.thread]|
  {
    var items := t[k.frame][k.thread];
    var last := |items| - 1;
    t[k.frame := t[k.frame][k.thread := items[last := items[last].(cmdBuffer := Some(cb))]]]
  }

  /** Setting the text of an item just appended is appending the finished item. */
  lemma AppendThenSet(t: Table, k: Key, c: Command, cb: string)
    requires Has(t, k)
    ensures SetLastBuffer(Append(t, k, c), k, cb) == Append(t, k, c.(cmdBuffer := Some(cb)))
  {
    var items := t[k.frame][k.thread];
    var grown := items + [c];
    var done := c.(cmdBuffer := Some(cb));
    assert grown[|items| := done] == items + [done];
    var row := Append(t, k, c)[k.frame];
    assert row[k.thread := items + [done]] == t[k.frame][k.thread := items + [done]];
  }

  /** `u` grows `t`: no block disappears and every block's items only get
      new items at the end. */
  ghost predicate Extends(t: Table, u: Table) {
    forall f, th | Has(t, Key(f, th)) ::
      Has(u, Key(f, th)) && t[f][th] <= u[f][th]
  }

  lemma ExtendsRefl(t: Table)
    ensures Extends(t, t)
  {
  }

  lemma ExtendsTrans(t: Table, u: Table, v: Table)
    requires Extends(t, u) && Extends(u, v)
    ensures Extends(t, v)
  {
  }

  lemma AddEntryExtends(t: Table, k: Key)
    ensures Extends(t, AddEntry(t, k))
  {
    AddEntrySpec(t, k);
  }

  lemma AppendExtends(t: Table, k: Key, c: Command)
    requires Has(t, k)
    ensures Extends(t, Append(t, k, c))
  {
    AppendSpec(t, k, c);
  }
}
