/** The four statement indexes as permutations of one another, and batches that are
    written to all four (persistence/leveldb_persistence.cc:386-421, 473-562, 586-664). */
module Indexes {
  import opened Rdf
  import opened Keys
  import opened LevelDb
  import opened Updates

  /** The contents of index `ix` when the SPOC index (or batch effect) is `m`. */
  function Permuted<V>(m: map<Key, V>, ix: IndexType): (r: map<Key, V>)
    ensures forall k :: Lookup(r, k) == Lookup(m, Restore(k, ix))
  {
    var r := map k | k in (set j | j in m :: Reorder(j, ix)) :: m[Restore(k, ix)];
    assert forall k :: k in r <==> Restore(k, ix) in m by {
      forall k ensures k in r <==> Restore(k, ix) in m { ReorderRoundTrip(k, ix); }
    }
    r
  }

  function PermuteWrite<V>(w: Write<Key, V>, ix: IndexType): (r: Write<Key, V>) {
    match w case Put(k, v) => Put(Reorder(k, ix), v) case Delete(k) => Delete(Reorder(k, ix))
  }

  function PermuteBatch<V>(b: Batch<Key, V>, ix: IndexType): (r: Batch<Key, V>)
    ensures |r| == |b|
  {
    seq(|b|, i requires 0 <= i < |b| => PermuteWrite(b[i], ix))
  }

  lemma PermutedPut<V>(m: map<Key, V>, k: Key, v: V, ix: IndexType)
    ensures Permuted(m[k := v], ix) == Permuted(m, ix)[Reorder(k, ix) := v]
  {
    hide Reorder, Restore;
    var l, r := Permuted(m[k := v], ix), Permuted(m, ix)[Reorder(k, ix) := v];
    ReorderRoundTrip(k, ix);
    forall x ensures Lookup(l, x) == Lookup(r, x) {
      ReorderRoundTrip(x, ix);
      assert Lookup(Permuted(m, ix), x) == Lookup(m, Restore(x, ix));
    }
    SameLookups(l, r);
  }

  lemma PermutedDelete<V>(m: map<Key, V>, k: Key, ix: IndexType)
    ensures Permuted(m - {k}, ix) == Permuted(m, ix) - {Reorder(k, ix)}
  {
    hide Reorder, Restore;
    var l, r := Permuted(m - {k}, ix), Permuted(m, ix) - {Reorder(k, ix)};
    ReorderRoundTrip(k, ix);
    forall x ensures Lookup(l, x) == Lookup(r, x) {
      ReorderRoundTrip(x, ix);
      assert Lookup(Permuted(m, ix), x) == Lookup(m, Restore(x, ix));
    }
    SameLookups(l, r);
  }

  /** Committing a permuted batch to a permuted index gives the permuted result. */
  lemma {:induction false} CommitPermutes<V>(m: map<Key, V>, b: Batch<Key, V>, ix: IndexType)
    ensures Commit(Permuted(m, ix), PermuteBatch(b, ix)) == Permuted(Commit(m, b), ix)
  {
    hide Reorder, Restore, Permuted;
    if b != [] {
      var n := |b| - 1;
      CommitPermutes(m, b[..n], ix);
      assert PermuteBatch(b, ix)[..n] == PermuteBatch(b[..n], ix);
      match b[n] {
        case Put(k, v) => PermutedPut(Commit(m, b[..n]), k, v, ix);
        case Delete(k) => PermutedDelete(Commit(m, b[..n]), k, ix);
      }
    }
  }

  lemma {:induction false} PermutedSize<V>(m: map<Key, V>, ix: IndexType)
    ensures |Permuted(m, ix)| == |m|
  {
    hide Reorder, Restore;
    var p := Permuted(m, ix);
    if m == map[] {
      forall k ensures k !in p.Keys { assert Lookup(p, k) == Lookup(m, Restore(k, ix)); }
      assert p.Keys == {};
    } else {
      var j :| j in m;
      var k := Reorder(j, ix);
      PermutedSize(m - {j}, ix);
      PermutedDelete(m, j, ix);
      ReorderRoundTrip(j, ix);
      assert Lookup(p, k) == Lookup(m, j);
      assert (m - {j}).Keys == m.Keys - {j} && (p - {k}).Keys == p.Keys - {k};
    }
  }

  /** The four batches of an operation, grown together. */
  datatype Batches = Batches(
    spoc: Batch<Key, Statement>, cspo: Batch<Key, Statement>, opsc: Batch<Key, Statement>, pcos: Batch<Key, Statement>)

  const NO_WRITES := Batches([], [], [], [])

  ghost predicate InStep(b: Batches) {
    b.cspo == PermuteBatch(b.spoc, CSPO) && b.opsc == PermuteBatch(b.spoc, OPSC) && b.pcos == PermuteBatch(b.spoc, PCOS)
  }

  /** More writes, in all four batches. */
  function Extended(b: Batches, w: Batch<Key, Statement>): (r: Batches) {
    Batches(b.spoc + w, b.cspo + PermuteBatch(w, CSPO), b.opsc + PermuteBatch(w, OPSC), b.pcos + PermuteBatch(w, PCOS))
  }

  lemma ExtendedInStep(b: Batches, w: Batch<Key, Statement>)
    requires InStep(b)
    ensures InStep(Extended(b, w))
  {
    hide PermuteWrite;
    forall ix: IndexType ensures PermuteBatch(b.spoc + w, ix) == PermuteBatch(b.spoc, ix) + PermuteBatch(w, ix) {}
  }

  /** The four statement databases. */
  datatype Store = Store(spoc: Quads, cspo: Quads, opsc: Quads, pcos: Quads)

  function IndexOf(st: Store, ix: IndexType): (r: Quads) {
    match ix case SPOC => st.spoc case CSPO => st.cspo case OPSC => st.opsc case PCOS => st.pcos
  }

  /** The indexes agree with each other, and every value sits under the key recomputed
      from it. */
  ghost predicate Consistent(h: HashFn, st: Store) {
    && st.cspo == Permuted(st.spoc, CSPO)
    && st.opsc == Permuted(st.spoc, OPSC)
    && st.pcos == Permuted(st.spoc, PCOS)
    && Keyed(h, st.spoc)
  }

  ghost predicate Keyed(h: HashFn, q: Quads) { forall k | k in q :: KeyOf(h, q[k]) == k }

  function CommitAll(st: Store, b: Batches): (r: Store) {
    Store(Commit(st.spoc, b.spoc), Commit(st.cspo, b.cspo), Commit(st.opsc, b.opsc), Commit(st.pcos, b.pcos))
  }

  ghost predicate KeyedWrites(h: HashFn, b: Batch<Key, Statement>) {
    forall i | 0 <= i < |b| && b[i].Put? :: b[i].key == KeyOf(h, b[i].value)
  }

  lemma {:induction false} CommitKeyed(h: HashFn, q: Quads, b: Batch<Key, Statement>)
    requires Keyed(h, q) && KeyedWrites(h, b)
    ensures Keyed(h, Commit(q, b))
  {
    hide KeyOf;
    if b != [] { CommitKeyed(h, q, b[..|b| - 1]); }
  }

  /** Batches grown in step keep the four indexes consistent. */
  lemma CommitKeepsConsistent(h: HashFn, st: Store, b: Batches)
    requires Consistent(h, st) && InStep(b) && KeyedWrites(h, b.spoc)
    ensures Consistent(h, CommitAll(st, b))
    ensures CommitAll(st, b).spoc == Overlay(st.spoc, Effect(b.spoc))
  {
    hide KeyOf, Permuted, PermuteBatch, Commit, Overlay;
    CommitPermutes(st.spoc, b.spoc, CSPO);
    CommitPermutes(st.spoc, b.spoc, OPSC);
    CommitPermutes(st.spoc, b.spoc, PCOS);
    CommitKeyed(h, st.spoc, b.spoc);
    LastWriteWins(st.spoc, b.spoc);
  }

  lemma BatchedKeyed(h: HashFn, q: Quads, reqs: seq<Request>)
    requires Keyed(h, q)
    ensures Keyed(h, Batched(h, q, reqs))
  {
    hide KeyOf, Hits;
    forall k | k in Batched(h, q, reqs) ensures KeyOf(h, Batched(h, q, reqs)[k]) == k {
      BatchedAt(h, q, reqs, k);
      assert Lookup(Batched(h, q, reqs), k).Some?;
    }
  }
}
