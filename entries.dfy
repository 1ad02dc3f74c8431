/** The entry objects of the parser and how they relate to the table of
    blocks they hold. */
module Entries {
  import opened DumpModel

  /** The items of one (frame, thread) block. */
  class FEntry {
    var items: seq<Command>
    /** The (frame, thread) pair the entry is stored under. */
    ghost const key: Key

    constructor (ghost key: Key)
      ensures items == [] && this.key == key
    {
      items := [];
      this.key := key;
    }
  }

  /** Each entry object of `m` is one of `made` and is stored under its own
      key, so no object is stored twice. */
  ghost predicate Keyed(m: map<int, map<int, FEntry>>, made: set<FEntry>) {
    forall f, t | f in m && t in m[f] :: m[f][t] in made && m[f][t].key == Key(f, t)
  }

  /** The table `t` lists the blocks of `m`, each with the items its entry
      object holds. */
  ghost predicate Holds(m: map<int, map<int, FEntry>>, made: set<FEntry>, t: Table)
    reads made`items
  {
    Keyed(m, made) &&
    t.Keys == m.Keys &&
    (forall f | f in m :: t[f].Keys == m[f].Keys) &&
    (forall f, th | f in m && th in m[f] :: m[f][th].items == t[f][th])
  }

  /** The key of the current entry, if there is one. */
  ghost function KeyOf(e: FEntry?): Option<Key> {
    if e == null then None else Some(e.key)
  }

  /** The parser's entries are consistent: `t` lists what `m` holds, and
      the current entry `e`, if any, is the object stored under its key. */
  ghost predicate Synced(m: map<int, map<int, FEntry>>, made: set<FEntry>, t: Table, e: FEntry?)
    reads made`items
  {
    Holds(m, made, t) &&
    (e != null ==>
       Has(t, e.key) && e.key.frame in m && e.key.thread in m[e.key.frame] && m[e.key.frame][e.key.thread] == e)
  }

  /** A change to the items of the entry at `k` alone is a change of the
      table at `k` alone. */
  lemma HoldsUpdate(m: map<int, map<int, FEntry>>, made: set<FEntry>, t: Table, k: Key)
    requires Keyed(m, made) && k.frame in m && k.thread in m[k.frame]
    requires t.Keys == m.Keys && forall f | f in m :: t[f].Keys == m[f].Keys
    requires forall f, th | f in m && th in m[f] && m[f][th] != m[k.frame][k.thread] :: m[f][th].items == t[f][th]
    ensures Synced(m, made, t[k.frame := t[k.frame][k.thread := m[k.frame][k.thread].items]], m[k.frame][k.thread])
  {
    forall f, th | f in m && th in m[f] && Key(f, th) != k
      ensures m[f][th] != m[k.frame][k.thread]
    {
      assert m[f][th].key != m[k.frame][k.thread].key;
    }
  }

  /** Adding an empty frame to the entries adds it to the table. */
  lemma HoldsAddFrame(m: map<int, map<int, FEntry>>, made: set<FEntry>, t: Table, f: int, e: FEntry?)
    requires Synced(m, made, t, e) && f !in m
    ensures Synced(m[f := map[]], made, t[f := map[]], e)
  {
  }

  /** Storing a new, empty entry object under `k` adds an empty block at `k`. */
  lemma HoldsAddThread(m: map<int, map<int, FEntry>>, made: set<FEntry>, t: Table, k: Key, n: FEntry)
    requires Holds(m, made, t) && k.frame in m && k.thread !in m[k.frame] && n !in made && n.items == [] && n.key == k
    ensures Synced(m[k.frame := m[k.frame][k.thread := n]], made + {n}, t[k.frame := t[k.frame][k.thread := []]], n)
  {
  }
}
