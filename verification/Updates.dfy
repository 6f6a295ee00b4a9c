/** The meaning of an update stream for the stored statements
    (persistence/leveldb_persistence.cc:510-562, 586-664; service/sail.proto:35-42, 99-101).

    `Batched` is what the code does: removals are expanded against the store as it was
    when the stream began, and everything is written at the end, the last write on each
    key winning. `InOrder` is what service/sail.proto promises: "Updates are applied in
    order". On statements the two agree exactly when `LateRemoval` holds nowhere; `Worlds`
    adds the namespaces. */
module Updates {
  import opened Bytes
  import opened Rdf
  import opened Keys
  import opened LevelDb

  /** UpdateRequest; `NoRequest` has its oneof unset. */
  datatype Request =
    | StmtAdded(stmt: Statement)
    | StmtRemoved(pattern: Statement)
    | NsAdded(ns: Namespace)
    | NsRemoved(nsPattern: Namespace)
    | NoRequest

  /** The SPOC index; the other three are permutations of it. */
  type Quads = map<Key, Statement>

  type Pending = map<Key, Option<Statement>>

  function ScanKeys(h: HashFn, q: Quads, p: Statement): (r: set<Key>) { set k | k in q && Hits(h, p, k) }

  function Deletions<K, V>(ks: set<K>): (e: map<K, Option<V>>) { map k | k in ks :: None }

  lemma OverlayDeletions<K(!new), V>(m: map<K, V>, e: map<K, Option<V>>, ks: set<K>)
    ensures Overlay(m, e + Deletions(ks)) == Overlay(m, e) - ks
  {
    SameLookups(Overlay(m, e + Deletions(ks)), Overlay(m, e) - ks);
  }

  lemma OverlayPut<K(!new), V>(m: map<K, V>, e: map<K, Option<V>>, k: K, v: V)
    ensures Overlay(m, e[k := Some(v)]) == Overlay(m, e)[k := v]
  {
    SameLookups(Overlay(m, e[k := Some(v)]), Overlay(m, e)[k := v]);
  }

  lemma DeletionsSnoc<K(!new), V>(e: map<K, Option<V>>, ks: set<K>, k: K)
    ensures (e + Deletions(ks))[k := None] == e + Deletions(ks + {k})
  {
  }

  /** The net effect of the write batch built from `reqs` against the store `q`. */
  function PendingQuads(h: HashFn, q: Quads, reqs: seq<Request>): (e: Pending) {
    if reqs == [] then map[]
    else
      var e := PendingQuads(h, q, reqs[..|reqs| - 1]);
      match reqs[|reqs| - 1]
      case StmtAdded(s) => e[KeyOf(h, s) := Some(s)]
      case StmtRemoved(p) => e + Deletions(ScanKeys(h, q, p))
      case _ => e
  }

  function Batched(h: HashFn, q: Quads, reqs: seq<Request>): (r: Quads) { Overlay(q, PendingQuads(h, q, reqs)) }

  function Apply(h: HashFn, q: Quads, r: Request): (q': Quads) {
    match r
    case StmtAdded(s) => q[KeyOf(h, s) := s]
    case StmtRemoved(p) => q - ScanKeys(h, q, p)
    case _ => q
  }

  function InOrder(h: HashFn, q: Quads, reqs: seq<Request>): (r: Quads) {
    if reqs == [] then q else Apply(h, InOrder(h, q, reqs[..|reqs| - 1]), reqs[|reqs| - 1])
  }

  // ---- Both semantics, one key at a time ----

  predicate Adds(h: HashFn, r: Request, k: Key) { r.StmtAdded? && KeyOf(h, r.stmt) == k }

  predicate Removes(h: HashFn, r: Request, k: Key) { r.StmtRemoved? && Hits(h, r.pattern, k) }

  lemma PendingSnoc(h: HashFn, q: Quads, reqs: seq<Request>, r: Request, k: Key)
    ensures Lookup(PendingQuads(h, q, reqs + [r]), k) ==
            if Adds(h, r, k) then Some(Some(r.stmt))
            else if Removes(h, r, k) && k in q then Some(None)
            else Lookup(PendingQuads(h, q, reqs), k)
  {
    hide KeyOf, Hits;
    assert (reqs + [r])[..|reqs|] == reqs;
  }

  /** The index of the last addition under key `k`, or -1. */
  function LastAdd(h: HashFn, reqs: seq<Request>, k: Key): (i: int)
    ensures -1 <= i < |reqs|
    ensures i >= 0 ==> Adds(h, reqs[i], k)
  {
    if reqs == [] then -1
    else if Adds(h, reqs[|reqs| - 1], k) then |reqs| - 1
    else LastAdd(h, reqs[..|reqs| - 1], k)
  }

  lemma {:induction false} LastAddIsLast(h: HashFn, reqs: seq<Request>, k: Key, j: int)
    requires LastAdd(h, reqs, k) < j < |reqs|
    ensures !Adds(h, reqs[j], k)
  {
    hide KeyOf;
    if j < |reqs| - 1 { LastAddIsLast(h, reqs[..|reqs| - 1], k, j); }
  }

  ghost predicate RemovedSince(h: HashFn, reqs: seq<Request>, i: int, k: Key)
    requires -1 <= i
  {
    exists j :: i < j < |reqs| && Removes(h, reqs[j], k)
  }

  function Final(h: HashFn, q: Quads, reqs: seq<Request>, k: Key): (r: Option<Statement>) {
    var i := LastAdd(h, reqs, k);
    if i >= 0 then Some(reqs[i].stmt) else Lookup(q, k)
  }

  lemma SinceSnoc(h: HashFn, reqs: seq<Request>, r: Request, i: int, k: Key)
    requires -1 <= i < |reqs|
    ensures RemovedSince(h, reqs + [r], i, k) <==> RemovedSince(h, reqs, i, k) || Removes(h, r, k)
  {
    hide Removes;
    var all := reqs + [r];
    if RemovedSince(h, reqs, i, k) {
      var j :| i < j < |reqs| && Removes(h, reqs[j], k);
      assert all[j] == reqs[j];
    }
    if Removes(h, r, k) { assert all[|reqs|] == r; }
    if RemovedSince(h, all, i, k) && !Removes(h, r, k) {
      var j :| i < j < |all| && Removes(h, all[j], k);
      assert all[j] == reqs[j];
    }
  }

  lemma {:induction false} InOrderAt(h: HashFn, q: Quads, reqs: seq<Request>, k: Key)
    ensures Lookup(InOrder(h, q, reqs), k) ==
            if RemovedSince(h, reqs, LastAdd(h, reqs, k), k) then None else Final(h, q, reqs, k)
  {
    hide KeyOf, Hits;
    if reqs != [] {
      var n := |reqs| - 1;
      InOrderAt(h, q, reqs[..n], k);
      SinceSnoc(h, reqs[..n], reqs[n], LastAdd(h, reqs[..n], k), k);
      assert reqs[..n] + [reqs[n]] == reqs;
    }
  }

  lemma {:induction false} BatchedAt(h: HashFn, q: Quads, reqs: seq<Request>, k: Key)
    ensures Lookup(Batched(h, q, reqs), k) ==
            if k in q && RemovedSince(h, reqs, LastAdd(h, reqs, k), k) then None else Final(h, q, reqs, k)
  {
    hide KeyOf, Hits;
    if reqs != [] {
      var n := |reqs| - 1;
      BatchedAt(h, q, reqs[..n], k);
      SinceSnoc(h, reqs[..n], reqs[n], LastAdd(h, reqs[..n], k), k);
      assert reqs[..n] + [reqs[n]] == reqs;
    }
  }

  // ---- When batching respects the order ----

  /** Request `i` is the last to add its key, the key was absent when the stream began, and
      the later request `j` removes a pattern whose scan covers that key. */
  predicate LateRemoval(h: HashFn, q: Quads, reqs: seq<Request>, i: int, j: int) {
    && 0 <= i < j < |reqs|
    && reqs[i].StmtAdded?
    && KeyOf(h, reqs[i].stmt) !in q
    && Removes(h, reqs[j], KeyOf(h, reqs[i].stmt))
    && forall m | i < m < |reqs| :: !Adds(h, reqs[m], KeyOf(h, reqs[i].stmt))
  }

  /** The batch has the effect of in-order application if and only if no removal comes
      after the last addition of a statement it would scan and that was not yet stored. */
  lemma BatchedIsInOrder(h: HashFn, q: Quads, reqs: seq<Request>)
    ensures Batched(h, q, reqs) == InOrder(h, q, reqs) <==> !exists i, j :: LateRemoval(h, q, reqs, i, j)
  {
    hide KeyOf, Hits;
    if i, j :| LateRemoval(h, q, reqs, i, j) {
      var k := KeyOf(h, reqs[i].stmt);
      assert LastAdd(h, reqs, k) == i by { LastAddIs(h, reqs, k, i); }
      InOrderAt(h, q, reqs, k);
      BatchedAt(h, q, reqs, k);
    } else {
      forall k ensures Lookup(Batched(h, q, reqs), k) == Lookup(InOrder(h, q, reqs), k) {
        InOrderAt(h, q, reqs, k);
        BatchedAt(h, q, reqs, k);
        if k !in q && LastAdd(h, reqs, k) >= 0 && RemovedSince(h, reqs, LastAdd(h, reqs, k), k) {
          LateAt(h, q, reqs, k);
        }
      }
      SameLookups(Batched(h, q, reqs), InOrder(h, q, reqs));
    }
  }

  lemma LateAt(h: HashFn, q: Quads, reqs: seq<Request>, k: Key)
    requires k !in q && LastAdd(h, reqs, k) >= 0 && RemovedSince(h, reqs, LastAdd(h, reqs, k), k)
    ensures exists i, j :: LateRemoval(h, q, reqs, i, j)
  {
    hide KeyOf, Hits;
    var i := LastAdd(h, reqs, k);
    var j :| i < j < |reqs| && Removes(h, reqs[j], k);
    forall m | i < m < |reqs| ensures !Adds(h, reqs[m], k) { LastAddIsLast(h, reqs, k, m); }
    assert LateRemoval(h, q, reqs, i, j);
  }

  lemma LastAddIs(h: HashFn, reqs: seq<Request>, k: Key, i: nat)
    requires i < |reqs| && Adds(h, reqs[i], k)
    requires forall m | i < m < |reqs| :: !Adds(h, reqs[m], k)
    ensures LastAdd(h, reqs, k) == i
  {
    hide KeyOf;
    if LastAdd(h, reqs, k) < i { LastAddIsLast(h, reqs, k, i); }
  }

  predicate IsAddition(r: Request) { r.StmtAdded? || r.NsAdded? }

  predicate IsRemoval(r: Request) { r.StmtRemoved? || r.NsRemoved? }

  ghost predicate RemovalsFirst(reqs: seq<Request>) {
    forall i, j | 0 <= i < j < |reqs| && IsRemoval(reqs[j]) :: !IsAddition(reqs[i])
  }

  lemma RemovalsFirstIsInOrder(h: HashFn, q: Quads, reqs: seq<Request>)
    requires RemovalsFirst(reqs)
    ensures Batched(h, q, reqs) == InOrder(h, q, reqs)
  {
    BatchedIsInOrder(h, q, reqs);
    if i, j :| LateRemoval(h, q, reqs, i, j) {
      assert IsRemoval(reqs[j]) && IsAddition(reqs[i]);
    }
  }

  /** Adding a statement and removing it again in one stream leaves it stored. */
  lemma AddThenRemoveKeeps(h: HashFn, s: Statement)
    ensures var reqs := [StmtAdded(s), StmtRemoved(s)];
            Batched(h, map[], reqs) == map[KeyOf(h, s) := s] && InOrder(h, map[], reqs) == map[]
  {
    var reqs := [StmtAdded(s), StmtRemoved(s)];
    var k := KeyOf(h, s);
    assert reqs[..1] == [StmtAdded(s)] && reqs[..1][..0] == [];
    assert InOrder(h, map[], reqs[..1]) == map[k := s];
    assert Hits(h, s, k) by {
      forall pos | Bound(s, pos) ensures Agrees(h, s, k, pos) {}
    }
    assert PendingQuads(h, map[], reqs[..1]) == map[k := Some(s)];
    assert ScanKeys(h, map[], s) == {};
  }

  lemma {:induction false} InOrderAppend(h: HashFn, q: Quads, a: seq<Request>, b: seq<Request>)
    ensures InOrder(h, q, a + b) == InOrder(h, InOrder(h, q, a), b)
  {
    if b == [] {
      assert a + b == a;
    } else {
      InOrderAppend(h, q, a, b[..|b| - 1]);
      assert (a + b)[..|a + b| - 1] == a + b[..|b| - 1];
    }
  }
}
