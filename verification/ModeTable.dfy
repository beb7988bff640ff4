/** The table-driven label rewriting that the GPU and the NPU controller share: a table gives the
    labels of each mode, a node in one mode carries that mode's labels and none that only other
    modes use, and a few bookkeeping labels are stamped beside them. Generic in the mode, the key
    and the value; GpuControls and NpuControls instantiate it. */
module ModeTable {
  import opened Options

  type Table<M, K, V> = map<M, map<K, V>>

  /** A label map that its holder edits in place. */
  class LabelMap<K(==), V(==)> {
    var data: map<K, V>

    constructor (labels: map<K, V>)
      ensures data == labels
    {
      data := labels;
    }
  }

  /** Indexing the table with an unknown mode yields no labels. */
  function Own<M, K, V>(t: Table<M, K, V>, mode: M): map<K, V> {
    if mode in t then t[mode] else map[]
  }

  function KeysIn<M, K, V>(t: Table<M, K, V>, modes: set<M>): set<K> {
    set m, k | m in modes && m in t && k in t[m] :: k
  }

  /** Keys that only modes other than `mode` use. */
  function Foreign<M, K, V>(t: Table<M, K, V>, mode: M): set<K> {
    KeysIn(t, t.Keys - {mode}) - Own(t, mode).Keys
  }

  /** The closed form of remove-then-add with the bookkeeping labels `book`. */
  function Rewrite<M, K, V>(t: Table<M, K, V>, mode: M, book: map<K, V>, labels: map<K, V>): map<K, V> {
    (labels - Foreign(t, mode)) + Own(t, mode) + book
  }

  ghost predicate BookOutside<M, K, V>(t: Table<M, K, V>, book: map<K, V>) {
    book.Keys !! KeysIn(t, t.Keys)
  }

  // ---------------------------------------------------------------- the loops

  /** The inner loop of the removals: deletes those of `keys` that are present, except `spare`. */
  method RemoveKeys<K(==), V(==)>(keys: set<K>, spare: set<K>, labels: LabelMap<K, V>) returns (modified: bool)
    modifies labels
    ensures labels.data == old(labels.data) - (keys - spare)
    ensures modified <==> labels.data != old(labels.data)
  {
    modified := false;
    var rest := keys;
    ghost var start := labels.data;
    while rest != {}
      invariant rest <= keys
      invariant labels.data == start - (keys - rest - spare)
      invariant modified <==> labels.data != start
    {
      var k :| k in rest;
      rest := rest - {k};
      if k in spare {
        continue;
      }
      if k in labels.data {
        labels.data := labels.data - {k};
        modified := true;
      }
    }
  }

  /** Deletes the labels of every other mode, whatever order the table is visited in. */
  method RemoveForeign<M(==), K(==), V(==)>(t: Table<M, K, V>, mode: M, labels: LabelMap<K, V>)
    returns (modified: bool)
    modifies labels
    ensures labels.data == old(labels.data) - Foreign(t, mode)
    ensures modified <==> labels.data != old(labels.data)
  {
    modified := false;
    var modes := t.Keys;
    ghost var start := labels.data;
    while modes != {}
      invariant modes <= t.Keys
      invariant labels.data == start - (KeysIn(t, t.Keys - modes - {mode}) - Own(t, mode).Keys)
      invariant modified <==> labels.data != start
    {
      var m :| m in modes;
      KeysInStep(t, t.Keys - modes - {mode}, m);
      if m != mode {
        assert t.Keys - (modes - {m}) - {mode} == t.Keys - modes - {mode} + {m};
        var hit := RemoveKeys(t[m].Keys, Own(t, mode).Keys, labels);
        modified := modified || hit;
      } else {
        assert t.Keys - (modes - {m}) - {mode} == t.Keys - modes - {mode};
      }
      modes := modes - {m};
    }
    assert t.Keys - modes - {mode} == t.Keys - {mode};
  }

  lemma KeysInStep<M, K, V>(t: Table<M, K, V>, modes: set<M>, m: M)
    requires m in t
    ensures KeysIn(t, modes + {m}) == KeysIn(t, modes) + t[m].Keys
  {
  }

  /** Sets each label that is missing or different. */
  method SetEntries<K(==), V(==)>(entries: map<K, V>, labels: LabelMap<K, V>) returns (modified: bool)
    modifies labels
    ensures labels.data == old(labels.data) + entries
    ensures modified <==> labels.data != old(labels.data)
  {
    modified := false;
    var keys := entries.Keys;
    ghost var start := labels.data;
    while keys != {}
      invariant keys <= entries.Keys
      invariant labels.data == start + map k | k in entries && k !in keys :: entries[k]
      invariant modified <==> labels.data != start
    {
      var k :| k in keys;
      keys := keys - {k};
      if k !in labels.data || labels.data[k] != entries[k] {
        assert k in start ==> start[k] == labels.data[k];
        labels.data := labels.data[k := entries[k]];
        modified := true;
      }
    }
    assert (map k | k in entries && k !in keys :: entries[k]) == entries;
  }

  /** Deletes the labels of every mode outside `skip`. */
  method RemoveTable<M(==), K(==), V(==)>(t: Table<M, K, V>, skip: set<M>, labels: LabelMap<K, V>)
    returns (modified: bool)
    modifies labels
    ensures labels.data == old(labels.data) - KeysIn(t, t.Keys - skip)
    ensures modified <==> labels.data != old(labels.data)
  {
    modified := false;
    var modes := t.Keys;
    ghost var start := labels.data;
    while modes != {}
      invariant modes <= t.Keys
      invariant labels.data == start - KeysIn(t, t.Keys - modes - skip)
      invariant modified <==> labels.data != start
    {
      var m :| m in modes;
      KeysInStep(t, t.Keys - modes - skip, m);
      if m !in skip {
        assert t.Keys - (modes - {m}) - skip == t.Keys - modes - skip + {m};
        var hit := RemoveKeys(t[m].Keys, {}, labels);
        modified := modified || hit;
      } else {
        assert t.Keys - (modes - {m}) - skip == t.Keys - modes - skip;
      }
      modes := modes - {m};
    }
    assert t.Keys - modes - skip == t.Keys - skip;
  }

  /** Sets one label unless it already has the value. */
  method SetEntry<K(==), V(==)>(k: K, v: V, labels: LabelMap<K, V>) returns (modified: bool)
    modifies labels
    ensures labels.data == old(labels.data)[k := v]
    ensures modified <==> Find(old(labels.data), k) != Some(v)
  {
    modified := k !in labels.data || labels.data[k] != v;
    if modified {
      labels.data := labels.data[k := v];
    }
  }

  // ---------------------------------------------------------------- what the rewrite means

  lemma FindRewrite<M, K, V>(t: Table<M, K, V>, mode: M, book: map<K, V>, labels: map<K, V>, k: K)
    ensures Find(Rewrite(t, mode, book, labels), k)
         == if k in book then Some(book[k])
            else if k in Own(t, mode) then Some(Own(t, mode)[k])
            else if k in KeysIn(t, t.Keys) then None
            else Find(labels, k)
  {
  }

  lemma SameFinds<K, V>(a: map<K, V>, b: map<K, V>)
    requires forall k :: Find(a, k) == Find(b, k)
    ensures a == b
  {
    forall k ensures k in a <==> k in b {
      assert Find(a, k) == Find(b, k);
    }
    forall k | k in a ensures a[k] == b[k] {
      assert Find(a, k) == Find(b, k);
    }
  }

  /** Going through any other mode and bookkeeping first leaves no trace: only the last rewrite
      with the same bookkeeping keys shows. Idempotence is the case where both are equal. */
  lemma RewriteForgets<M, K, V>(t: Table<M, K, V>, mode: M, book: map<K, V>, mode': M, book': map<K, V>,
                                labels: map<K, V>)
    requires book'.Keys <= book.Keys
    ensures Rewrite(t, mode, book, Rewrite(t, mode', book', labels)) == Rewrite(t, mode, book, labels)
  {
    var inner := Rewrite(t, mode', book', labels);
    forall k ensures Find(Rewrite(t, mode, book, inner), k) == Find(Rewrite(t, mode, book, labels), k) {
      FindRewrite(t, mode, book, inner, k);
      FindRewrite(t, mode, book, labels, k);
      FindRewrite(t, mode', book', labels, k);
    }
    SameFinds(Rewrite(t, mode, book, inner), Rewrite(t, mode, book, labels));
  }

  /** The two flags of a remove-then-add pass, combined, tell exactly whether the map changed:
      no key is removed and put back. */
  lemma FlagsExact<M, K, V>(t: Table<M, K, V>, mode: M, book: map<K, V>, labels: map<K, V>)
    requires BookOutside(t, book)
    ensures var removed := labels - Foreign(t, mode);
            removed != labels || Rewrite(t, mode, book, labels) != removed
            <==> Rewrite(t, mode, book, labels) != labels
  {
  }

  /** Two stages that set different keys change the map exactly when one of them does. */
  lemma StagesExact<K, V>(labels: map<K, V>, a: map<K, V>, b: map<K, V>)
    requires a.Keys !! b.Keys
    ensures labels + a != labels || labels + a + b != labels + a <==> labels + a + b != labels
  {
  }
}
