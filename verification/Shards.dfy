/** Sharding (sharding/sharding.cc:162-302): additions are routed by statement hash modulo
    the number of backends, everything else goes to every backend. The results say when the
    shards together are the single store. */
module Shards {
  import opened Bytes
  import opened Rdf
  import opened Wire
  import opened Keys
  import opened LevelDb
  import opened Updates
  import opened Namespaces
  import opened Indexes

  /** std::hash<Statement> over the serialised message, modulo the number of backends. */
  function Bucket(f: Bytes -> nat, n: nat, s: Statement): (i: nat)
    requires n > 0
    ensures i < n
  {
    f(StatementBytes(s)) % n
  }

  /** The requests written to backend `i`. */
  function Routed(f: Bytes -> nat, n: nat, reqs: seq<Request>, i: nat): (r: seq<Request>)
    requires n > 0
  {
    if reqs == [] then []
    else
      var r := Routed(f, n, reqs[..|reqs| - 1], i);
      var last := reqs[|reqs| - 1];
      if last.StmtAdded? && Bucket(f, n, last.stmt) != i then r else r + [last]
  }

  /** Backend `i` gets the additions whose hash leaves the remainder `i`, and everything else. */
  lemma {:induction false} RoutedMembers(f: Bytes -> nat, n: nat, reqs: seq<Request>, i: nat, r: Request)
    requires n > 0
    ensures r in Routed(f, n, reqs, i) <==> r in reqs && (r.StmtAdded? ==> f(StatementBytes(r.stmt)) % n == i)
  {
    hide StatementBytes;
    if reqs != [] {
      RoutedMembers(f, n, reqs[..|reqs| - 1], i, r);
      assert reqs == reqs[..|reqs| - 1] + [reqs[|reqs| - 1]];
    }
  }

  lemma RoutedSnoc(f: Bytes -> nat, n: nat, reqs: seq<Request>, r: Request, i: nat)
    requires n > 0
    ensures Routed(f, n, reqs + [r], i) ==
            if r.StmtAdded? && Bucket(f, n, r.stmt) != i then Routed(f, n, reqs, i) else Routed(f, n, reqs, i) + [r]
  {
    hide Bucket;
    assert (reqs + [r])[..|reqs|] == reqs;
  }

  /** The statements of `q` that belong on backend `i`. */
  function Part(f: Bytes -> nat, n: nat, q: Quads, i: nat): (r: Quads)
    requires n > 0
  {
    map k | k in q && Bucket(f, n, q[k]) == i :: q[k]
  }

  /** Within `u`, a key determines the backend. */
  ghost predicate KeyDecidesShard(h: HashFn, f: Bytes -> nat, n: nat, u: iset<Statement>)
    requires n > 0
  {
    forall s, t | s in u && t in u && KeyOf(h, s) == KeyOf(h, t) :: Bucket(f, n, s) == Bucket(f, n, t)
  }

  ghost predicate StoredIn(q: Quads, u: iset<Statement>) { forall k | k in q :: q[k] in u }

  ghost predicate AddedIn(reqs: seq<Request>, u: iset<Statement>) {
    forall r | r in reqs && r.StmtAdded? :: r.stmt in u
  }

  /** Every statement of `u` under key `k` belongs on backend `i`. */
  ghost predicate Owns(h: HashFn, f: Bytes -> nat, n: nat, u: iset<Statement>, k: Key, i: nat)
    requires n > 0
  {
    forall s | s in u && KeyOf(h, s) == k :: Bucket(f, n, s) == i
  }

  /** No statement of `u` under key `k` belongs on backend `i`. */
  ghost predicate Foreign(h: HashFn, f: Bytes -> nat, n: nat, u: iset<Statement>, k: Key, i: nat)
    requires n > 0
  {
    forall s | s in u && KeyOf(h, s) == k :: Bucket(f, n, s) != i
  }

  lemma OwnsOrForeign(h: HashFn, f: Bytes -> nat, n: nat, u: iset<Statement>, k: Key, i: nat)
    requires n > 0 && KeyDecidesShard(h, f, n, u)
    ensures Owns(h, f, n, u, k, i) || Foreign(h, f, n, u, k, i)
  {
    hide KeyOf, Bucket;
  }

  // ---- One key at a time ----

  lemma {:induction false} PendingOwned(h: HashFn, f: Bytes -> nat, n: nat, u: iset<Statement>, q: Quads,
                                        reqs: seq<Request>, i: nat, k: Key)
    requires n > 0 && Keyed(h, q) && StoredIn(q, u) && AddedIn(reqs, u) && Owns(h, f, n, u, k, i)
    ensures Lookup(PendingQuads(h, Part(f, n, q, i), Routed(f, n, reqs, i)), k) == Lookup(PendingQuads(h, q, reqs), k)
  {
    hide KeyOf, Hits, Bucket, PendingQuads, Routed;
    if reqs == [] {
      NothingPending(h, f, n, q, i);
    } else {
      var m, last := reqs[..|reqs| - 1], reqs[|reqs| - 1];
      assert reqs == m + [last];
      PendingOwned(h, f, n, u, q, m, i, k);
      RoutedSnoc(f, n, m, last, i);
      PendingSnoc(h, q, m, last, k);
      PendingSnoc(h, Part(f, n, q, i), Routed(f, n, m, i), last, k);
      assert k in q <==> k in Part(f, n, q, i);
    }
  }

  lemma {:induction false} PendingForeign(h: HashFn, f: Bytes -> nat, n: nat, u: iset<Statement>, q: Quads,
                                          reqs: seq<Request>, i: nat, k: Key)
    requires n > 0 && Keyed(h, q) && StoredIn(q, u) && AddedIn(reqs, u) && Foreign(h, f, n, u, k, i)
    ensures k !in PendingQuads(h, Part(f, n, q, i), Routed(f, n, reqs, i))
  {
    hide KeyOf, Hits, Bucket, PendingQuads, Routed;
    if reqs == [] {
      NothingPending(h, f, n, q, i);
    } else {
      var m, last := reqs[..|reqs| - 1], reqs[|reqs| - 1];
      assert reqs == m + [last];
      PendingForeign(h, f, n, u, q, m, i, k);
      RoutedSnoc(f, n, m, last, i);
      PendingSnoc(h, q, m, last, k);
      PendingSnoc(h, Part(f, n, q, i), Routed(f, n, m, i), last, k);
      assert k !in Part(f, n, q, i);
    }
  }

  lemma NothingPending(h: HashFn, f: Bytes -> nat, n: nat, q: Quads, i: nat)
    requires n > 0
    ensures PendingQuads(h, Part(f, n, q, i), Routed(f, n, [], i)) == map[] == PendingQuads(h, q, [])
  {
  }

  lemma BatchedStays(h: HashFn, u: iset<Statement>, q: Quads, reqs: seq<Request>)
    requires Keyed(h, q) && StoredIn(q, u) && AddedIn(reqs, u)
    ensures Keyed(h, Batched(h, q, reqs)) && StoredIn(Batched(h, q, reqs), u)
  {
    hide KeyOf, Hits, Batched;
    BatchedKeyed(h, q, reqs);
    forall k | k in Batched(h, q, reqs) ensures Batched(h, q, reqs)[k] in u {
      BatchedAt(h, q, reqs, k);
      assert Lookup(Batched(h, q, reqs), k).Some?;
    }
  }

  /** Sharded Update refines the single store's: if each backend holds its part of `q`,
      then after its share of the stream it holds its part of the updated store. */
  lemma UpdateRefines(h: HashFn, f: Bytes -> nat, n: nat, u: iset<Statement>, q: Quads, reqs: seq<Request>, i: nat)
    requires n > 0 && KeyDecidesShard(h, f, n, u)
    requires Keyed(h, q) && StoredIn(q, u) && AddedIn(reqs, u)
    ensures Batched(h, Part(f, n, q, i), Routed(f, n, reqs, i)) == Part(f, n, Batched(h, q, reqs), i)
  {
    hide KeyOf, Hits, Bucket, PendingQuads, Routed, KeyDecidesShard;
    var l, r := Batched(h, Part(f, n, q, i), Routed(f, n, reqs, i)), Part(f, n, Batched(h, q, reqs), i);
    BatchedStays(h, u, q, reqs);
    forall k ensures Lookup(l, k) == Lookup(r, k) {
      OwnsOrForeign(h, f, n, u, k, i);
      if Owns(h, f, n, u, k, i) {
        PendingOwned(h, f, n, u, q, reqs, i, k);
        assert Lookup(Part(f, n, q, i), k) == Lookup(q, k);
      } else {
        PendingForeign(h, f, n, u, q, reqs, i, k);
        assert k !in Part(f, n, q, i);
      }
    }
    SameLookups(l, r);
  }

  /** RemoveStatements sent to every backend removes what the single store removes. */
  lemma RemoveRefines(h: HashFn, f: Bytes -> nat, n: nat, q: Quads, p: Statement, i: nat)
    requires n > 0
    ensures Part(f, n, q, i) - ScanKeys(h, Part(f, n, q, i), p) == Part(f, n, q - ScanKeys(h, q, p), i)
  {
    hide Bucket, Hits;
    SameLookups(Part(f, n, q, i) - ScanKeys(h, Part(f, n, q, i), p), Part(f, n, q - ScanKeys(h, q, p), i));
  }

  // ---- The hypothesis is needed, and where it comes from ----

  /** Two statements under one key but on different backends are both kept by the shards,
      while the single store keeps the second only. */
  lemma ConflictBreaksRefinement(h: HashFn, f: Bytes -> nat, n: nat, s: Statement, t: Statement)
    requires n > 0 && KeyOf(h, s) == KeyOf(h, t) && Bucket(f, n, s) != Bucket(f, n, t)
    ensures var reqs, i := [StmtAdded(s), StmtAdded(t)], Bucket(f, n, s);
            Batched(h, map[], Routed(f, n, reqs, i)) != Part(f, n, Batched(h, map[], reqs), i)
  {
    hide KeyOf, Bucket, Batched, PendingQuads;
    var reqs, i, k := [StmtAdded(s), StmtAdded(t)], Bucket(f, n, s), KeyOf(h, s);
    RoutedSnoc(f, n, [], StmtAdded(s), i);
    RoutedSnoc(f, n, [StmtAdded(s)], StmtAdded(t), i);
    assert [] + [StmtAdded(s)] == [StmtAdded(s)] && [StmtAdded(s)] + [StmtAdded(t)] == reqs;
    BatchedAt(h, map[], [StmtAdded(s)], k);
    BatchedAt(h, map[], reqs, k);
    assert Lookup(Batched(h, map[], [StmtAdded(s)]), k) == Some(s);
    assert Lookup(Batched(h, map[], reqs), k) == Some(t);
  }

  /** For streams over `u` from the empty store, sharding is a refinement for every stream
      and backend if and only if keys decide shards within `u`. */
  lemma RefinementCondition(h: HashFn, f: Bytes -> nat, n: nat, u: iset<Statement>)
    requires n > 0
    ensures (forall reqs: seq<Request>, i: nat | AddedIn(reqs, u) ::
              Batched(h, map[], Routed(f, n, reqs, i)) == Part(f, n, Batched(h, map[], reqs), i))
            <==> KeyDecidesShard(h, f, n, u)
  {
    hide KeyOf, Bucket, Batched, Routed;
    if KeyDecidesShard(h, f, n, u) {
      forall reqs: seq<Request>, i: nat | AddedIn(reqs, u)
        ensures Batched(h, map[], Routed(f, n, reqs, i)) == Part(f, n, Batched(h, map[], reqs), i)
      {
        UpdateRefines(h, f, n, u, map[], reqs, i);
        assert Part(f, n, map[], i) == map[];
      }
    } else {
      var s, t :| s in u && t in u && KeyOf(h, s) == KeyOf(h, t) && Bucket(f, n, s) != Bucket(f, n, t);
      ConflictBreaksRefinement(h, f, n, s, t);
      var reqs := [StmtAdded(s), StmtAdded(t)];
      assert AddedIn(reqs, u);
    }
  }

  /** Every component that is present is non-empty. */
  predicate WellFormed(s: Statement) {
    s.subj != Some(NoResource) && s.pred != Some(URI([])) && s.obj != Some(NoValue) && s.ctx != Some(NoResource)
  }

  /** The hash does not collide on the terms of `u`. */
  ghost predicate CollisionFree(h: HashFn, u: iset<Statement>) {
    forall s, t, pos | s in u && t in u && h(TermBytes(s, pos)) == h(TermBytes(t, pos)) ::
      TermBytes(s, pos) == TermBytes(t, pos)
  }

  /** Without collisions, well-formed statements under the same key are the same statement. */
  lemma KeysIdentify(h: HashFn, u: iset<Statement>, s: Statement, t: Statement)
    requires CollisionFree(h, u) && s in u && t in u && WellFormed(s) && WellFormed(t)
    requires KeyOf(h, s) == KeyOf(h, t)
    ensures s == t
  {
    hide ResourceBytes, UriBytes, ValueBytes;
    assert TermBytes(s, S) == TermBytes(t, S) && TermBytes(s, P) == TermBytes(t, P);
    assert TermBytes(s, O) == TermBytes(t, O) && TermBytes(s, C) == TermBytes(t, C);
    ResourceInjective(s.Subject(), t.Subject());
    UriInjective(s.Predicate(), t.Predicate());
    ValueInjective(s.Object(), t.Object());
    ResourceInjective(s.Context(), t.Context());
  }

  lemma CollisionFreeDecides(h: HashFn, f: Bytes -> nat, n: nat, u: iset<Statement>)
    requires n > 0 && CollisionFree(h, u) && forall s | s in u :: WellFormed(s)
    ensures KeyDecidesShard(h, f, n, u)
  {
    hide KeyOf, Bucket, CollisionFree, WellFormed;
    forall s, t | s in u && t in u && KeyOf(h, s) == KeyOf(h, t) ensures Bucket(f, n, s) == Bucket(f, n, t) {
      KeysIdentify(h, u, s, t);
    }
  }

  /** A statement without context and one with an empty context have the same key but
      different bytes, so ill-formed statements can be split whatever the key hash. */
  lemma EmptyContextSharesKey(h: HashFn, s: Statement)
    requires s.ctx == None
    ensures var t := s.(ctx := Some(NoResource)); KeyOf(h, s) == KeyOf(h, t) && StatementBytes(s) != StatementBytes(t)
  {
    hide StatementBytes, ResourceBytes, UriBytes, ValueBytes;
    var t := s.(ctx := Some(NoResource));
    if StatementBytes(s) == StatementBytes(t) { StatementInjective(s, t); }
  }

  /** Whatever the key hash, some string hash sends those two statements to different ones of
      two backends, and then adding both breaks the refinement. */
  lemma IllFormedBreaksRefinement(h: HashFn, s: Statement) returns (f: Bytes -> nat)
    requires s.ctx == None
    ensures var t := s.(ctx := Some(NoResource));
            var reqs, i := [StmtAdded(s), StmtAdded(t)], Bucket(f, 2, s);
            && Bucket(f, 2, s) != Bucket(f, 2, t)
            && Batched(h, map[], Routed(f, 2, reqs, i)) != Part(f, 2, Batched(h, map[], reqs), i)
  {
    hide StatementBytes, KeyOf, Batched, Routed, Part;
    var t, b := s.(ctx := Some(NoResource)), StatementBytes(s);
    f := (x: Bytes) => if x == b then 0 else 1;
    EmptyContextSharesKey(h, s);
    ConflictBreaksRefinement(h, f, 2, s, t);
  }

  // ---- Namespaces ----

  lemma NothingRouted(f: Bytes -> nat, n: nat, i: nat)
    requires n > 0
    ensures Routed(f, n, [], i) == []
  {
  }

  /** Every backend sees all namespace requests in order, so equal namespace indexes stay
      equal, and equal to the single store's. */
  lemma {:induction false} NamespacesReplicated(f: Bytes -> nat, n: nat, ns: NsStore, reqs: seq<Request>, i: nat)
    requires n > 0
    ensures PendingNs(ns, Routed(f, n, reqs, i)) == PendingNs(ns, reqs)
    ensures BatchedNs(ns, Routed(f, n, reqs, i)) == BatchedNs(ns, reqs)
  {
    hide Bucket, Routed, PendingNs, Overlay;
    if reqs == [] {
      NothingRouted(f, n, i);
    } else {
      var m, last := reqs[..|reqs| - 1], reqs[|reqs| - 1];
      assert reqs == m + [last];
      NamespacesReplicated(f, n, ns, m, i);
      RoutedSnoc(f, n, m, last, i);
      PendingNsSnoc(ns, m, last);
      PendingNsSnoc(ns, Routed(f, n, m, i), last);
    }
  }

  // ---- Totals ----

  function Sum(xs: seq<int>): (r: int) { if xs == [] then 0 else Sum(xs[..|xs| - 1]) + xs[|xs| - 1] }

  function Counts(f: Bytes -> nat, n: nat, q: Quads, ks: set<Key>, m: nat): (r: seq<int>)
    requires n > 0 && ks <= q.Keys
    ensures |r| == m
  {
    seq(m, i requires 0 <= i < m => |set k | k in ks && Bucket(f, n, q[k]) == i|)
  }

  /** Counting keys backend by backend counts each once. */
  lemma {:induction false} PartsAddUp(f: Bytes -> nat, n: nat, q: Quads, ks: set<Key>, m: nat)
    requires n > 0 && ks <= q.Keys
    ensures Sum(Counts(f, n, q, ks, m)) == |set k | k in ks && Bucket(f, n, q[k]) < m|
  {
    hide Bucket;
    if m == 0 {
      assert (set k | k in ks && Bucket(f, n, q[k]) < 0) == {};
    } else {
      PartsAddUp(f, n, q, ks, m - 1);
      assert Counts(f, n, q, ks, m)[..m - 1] == Counts(f, n, q, ks, m - 1);
      var a, b := set k | k in ks && Bucket(f, n, q[k]) < m - 1, set k | k in ks && Bucket(f, n, q[k]) == m - 1;
      assert (set k | k in ks && Bucket(f, n, q[k]) < m) == a + b;
      assert a !! b;
    }
  }

  /** The number of statements a pattern scans on each backend. */
  function ScanCounts(h: HashFn, f: Bytes -> nat, n: nat, q: Quads, p: Statement): (r: seq<int>)
    requires n > 0
    ensures |r| == n
  {
    seq(n, i requires 0 <= i < n => |ScanKeys(h, Part(f, n, q, i), p)|)
  }

  /** The answers of the backends to RemoveStatements add up to the single store's. */
  lemma ScanCountsAddUp(h: HashFn, f: Bytes -> nat, n: nat, q: Quads, p: Statement)
    requires n > 0
    ensures Sum(ScanCounts(h, f, n, q, p)) == |ScanKeys(h, q, p)|
  {
    hide Bucket, Hits;
    var ks := ScanKeys(h, q, p);
    PartsAddUp(f, n, q, ks, n);
    assert (set k | k in ks && Bucket(f, n, q[k]) < n) == ks;
    forall i | 0 <= i < n ensures ScanCounts(h, f, n, q, p)[i] == Counts(f, n, q, ks, n)[i] {
      assert ScanKeys(h, Part(f, n, q, i), p) == set k | k in ks && Bucket(f, n, q[k]) == i;
    }
    assert ScanCounts(h, f, n, q, p) == Counts(f, n, q, ks, n);
  }
}
