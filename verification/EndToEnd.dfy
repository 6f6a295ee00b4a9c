/** The whole system: a client connection in front of the sharding proxy, and the keys that
    the store uses in production. */
module EndToEnd {
  import opened Bytes
  import opened Rdf
  import opened Keys
  import opened Updates
  import opened Namespaces
  import opened Indexes
  import opened Persistence
  import opened Shards
  import opened Gather
  import opened Worlds
  import opened Connection
  import opened Reference
  import Murmur

  // ---- A connection to the sharding proxy ----

  /** The backends and the stream open to the proxy. */
  type Cluster = Conn<seq<World>>

  /** The proxy's Update: every backend processes its share of the stream. */
  function UpdateShards(h: HashFn, f: Bytes -> nat, shards: seq<World>, reqs: seq<Request>): (r: seq<World>)
    ensures |r| == |shards|
  {
    seq(|shards|, i requires 0 <= i < |shards| => UpdateWorld(h, shards[i], Routed(f, |shards|, reqs, i)))
  }

  function StepCluster(h: HashFn, f: Bytes -> nat, c: Cluster, op: Op): (r: Cluster)
    ensures |r.world| == |c.world|
  {
    Operate(c, Completed(c, UpdateShards(h, f, c.world, Sent(c))), op)
  }

  function RunCluster(h: HashFn, f: Bytes -> nat, c: Cluster, ops: seq<Op>): (r: Cluster)
    ensures |r.world| == |c.world|
  {
    if ops == [] then c else StepCluster(h, f, RunCluster(h, f, c, ops[..|ops| - 1]), ops[|ops| - 1])
  }

  /** The backends' contents when together they are `w`. */
  function Split(f: Bytes -> nat, n: nat, w: World): (r: seq<World>)
    requires n > 0
    ensures |r| == n
  {
    seq(n, i requires 0 <= i < n => World(Part(f, n, w.quads, i), w.ns))
  }

  ghost predicate KeyedIn(h: HashFn, w: World, u: iset<Statement>) { Keyed(h, w.quads) && StoredIn(w.quads, u) }

  lemma UpdateSplits(h: HashFn, f: Bytes -> nat, n: nat, u: iset<Statement>, w: World, reqs: seq<Request>)
    requires n > 0 && KeyDecidesShard(h, f, n, u) && KeyedIn(h, w, u) && AddedIn(reqs, u)
    ensures UpdateShards(h, f, Split(f, n, w), reqs) == Split(f, n, UpdateWorld(h, w, reqs))
    ensures KeyedIn(h, UpdateWorld(h, w, reqs), u)
  {
    hide Batched, BatchedNs, Routed, Part, KeyDecidesShard, AddedIn, Keyed, StoredIn;
    var after := UpdateWorld(h, w, reqs);
    forall i | 0 <= i < n
      ensures UpdateWorld(h, Split(f, n, w)[i], Routed(f, n, reqs, i)) == World(Part(f, n, after.quads, i), after.ns)
    {
      UpdateRefines(h, f, n, u, w.quads, reqs, i);
      NamespacesReplicated(f, n, w.ns, reqs, i);
    }
    BatchedStays(h, u, w.quads, reqs);
  }

  lemma AddedInAppend(a: seq<Request>, b: seq<Request>, u: iset<Statement>)
    ensures AddedIn(a + b, u) <==> AddedIn(a, u) && AddedIn(b, u)
  {
  }

  lemma StepSplits(h: HashFn, f: Bytes -> nat, n: nat, u: iset<Statement>, c: Conn<World>, op: Op)
    requires n > 0 && KeyDecidesShard(h, f, n, u) && KeyedIn(h, c.world, u)
    requires AddedIn(Sent(c), u) && AddedIn(Requests(op), u)
    ensures var d := Step(h, c, op);
            && StepCluster(h, f, Conn(Split(f, n, c.world), c.stream), op) == Conn(Split(f, n, d.world), d.stream)
            && KeyedIn(h, d.world, u) && AddedIn(Sent(d), u)
  {
    hide UpdateShards, Split, UpdateWorld, KeyedIn, Requests, KeyDecidesShard;
    AddedInAppend(Sent(c), Requests(op), u);
    UpdateSplits(h, f, n, u, c.world, Sent(c));
  }

  /** A connection to the proxy goes through the same states as one to a single store, the
      store being split among the backends. */
  lemma {:induction false} RunSplits(h: HashFn, f: Bytes -> nat, n: nat, u: iset<Statement>, w: World, ops: seq<Op>)
    requires n > 0 && KeyDecidesShard(h, f, n, u) && KeyedIn(h, w, u) && AddedIn(AllRequests(ops), u)
    ensures var d := Run(h, Conn(w, None), ops);
            && RunCluster(h, f, Conn(Split(f, n, w), None), ops) == Conn(Split(f, n, d.world), d.stream)
            && KeyedIn(h, d.world, u) && AddedIn(Sent(d), u)
  {
    hide StepCluster, Step, Split, KeyedIn, AddedIn, KeyDecidesShard;
    if ops == [] {
      assert AddedIn([], u) by { NothingAdded(u); }
    } else {
      var m := |ops| - 1;
      AddedInAppend(AllRequests(ops[..m]), Requests(ops[m]), u);
      RunSplits(h, f, n, u, w, ops[..m]);
      StepSplits(h, f, n, u, Run(h, Conn(w, None), ops[..m]), ops[m]);
    }
  }

  lemma NothingAdded(u: iset<Statement>)
    ensures AddedIn([], u)
  {
  }

  /** End to end through the proxy: at every read of every sequence of operations, the
      backends together hold the starting store with all earlier operations applied one at
      a time, in order; each backend holds exactly its part and all the namespaces. */
  lemma ShardedReadsSeeAllUpdates(h: HashFn, f: Bytes -> nat, n: nat, u: iset<Statement>, w: World, ops: seq<Op>,
                                  i: nat)
    requires n > 0 && KeyDecidesShard(h, f, n, u) && KeyedIn(h, w, u)
    requires i < |ops| && (ops[i].Read? || ops[i].Commit?) && AddedIn(AllRequests(ops[..i]), u)
    ensures RunCluster(h, f, Conn(Split(f, n, w), None), ops[..i + 1])
         == Conn(Split(f, n, InOrderWorld(h, w, AllRequests(ops[..i]))), None)
  {
    hide Run, RunCluster, Split, KeyedIn, KeyDecidesShard, InOrderWorld;
    assert ops[..i + 1][..i] == ops[..i];
    assert AllRequests(ops[..i + 1]) == AllRequests(ops[..i]) + [];
    RunSplits(h, f, n, u, w, ops[..i + 1]);
    ReadsSeeAllUpdates(h, w, ops, i);
  }

  /** Whatever the keys decide, every backend's namespaces go through the single store's
      states. */
  lemma {:induction false} NamespacesInStep(h: HashFn, f: Bytes -> nat, shards: seq<World>, w: World, ops: seq<Op>)
    requires forall k | 0 <= k < |shards| :: shards[k].ns == w.ns
    ensures var c, d := RunCluster(h, f, Conn(shards, None), ops), Run(h, Conn(w, None), ops);
            c.stream == d.stream && forall k | 0 <= k < |shards| :: c.world[k].ns == d.world.ns
  {
    hide BatchedNs, Batched, Requests;
    if ops != [] {
      var m := |ops| - 1;
      NamespacesInStep(h, f, shards, w, ops[..m]);
      var c, d := RunCluster(h, f, Conn(shards, None), ops[..m]), Run(h, Conn(w, None), ops[..m]);
      assert Sent(c) == Sent(d);
      forall k | 0 <= k < |shards|
        ensures UpdateShards(h, f, c.world, Sent(c))[k].ns == UpdateWorld(h, d.world, Sent(d)).ns
      {
        BatchedNsReplicated(f, |shards|, d.world.ns, Sent(d), k);
      }
    }
  }

  lemma BatchedNsReplicated(f: Bytes -> nat, n: nat, ns: NsStore, reqs: seq<Request>, k: nat)
    requires n > 0
    ensures BatchedNs(ns, Routed(f, n, reqs, k)) == BatchedNs(ns, reqs)
  {
    hide Routed, PendingNs;
    NamespacesReplicated(f, n, ns, reqs, k);
  }

  /** At every read, whichever backend the proxy picks answers getNamespace and getNamespaces
      from the dictionary of the session's operations. */
  lemma ShardedReadsSeeNamespaces(h: HashFn, f: Bytes -> nat, shards: seq<World>, w: World, ops: seq<Op>, i: nat,
                                  k: nat)
    requires k < |shards| && WellKeyed(w.ns) && forall j | 0 <= j < |shards| :: shards[j].ns == w.ns
    requires i < |ops| && (ops[i].Read? || ops[i].Commit?)
    ensures var ns := RunCluster(h, f, Conn(shards, None), ops[..i + 1]).world[k].ns;
            var d := Dictionary(w.ns.prefix, ops[..i]);
            ns.prefix == d && forall p :: Found(ns, Namespace(p, [])) == NamespacesFor(d, p)
  {
    hide RunCluster, Run, Dictionary, Found, NamespacesFor;
    NamespacesInStep(h, f, shards, w, ops[..i + 1]);
    ReadsSeeNamespaces(h, w, ops, i);
  }

  /** All statements on all backends. */
  ghost function Everything(shards: seq<World>): (r: set<Statement>) {
    set i, x | 0 <= i < |shards| && x in Contents(shards[i].quads) :: x
  }

  lemma NothingLostInSplit(f: Bytes -> nat, n: nat, w: World)
    requires n > 0
    ensures Everything(Split(f, n, w)) == Contents(w.quads)
  {
    hide Bucket;
    var shards := Split(f, n, w);
    forall x | x in Contents(w.quads) ensures x in Everything(shards) {
      var k :| k in w.quads && w.quads[k] == x;
      var i := Bucket(f, n, x);
      assert k in shards[i].quads && shards[i].quads[k] == x;
      assert x in Contents(shards[i].quads);
    }
  }

  /** Through the proxy too, a read finds on the backends together exactly the statements
      of the set under the scanning reading, for removals of all shapes; and those of the
      documented reading if and only if nothing was removed in excess. */
  lemma ShardedReadsSeeStatements(h: HashFn, f: Bytes -> nat, n: nat, u: iset<Statement>, w: World, ops: seq<Op>,
                                  i: nat)
    requires n > 0 && Clean(h, u) && KeyedIn(h, w, u)
    requires i < |ops| && (ops[i].Read? || ops[i].Commit?) && RequestsIn(AllRequests(ops[..i]), u)
    ensures var seen := Everything(RunCluster(h, f, Conn(Split(f, n, w), None), ops[..i + 1]).world);
            var start := Contents(w.quads);
            && seen == ApplyOps(start, ops[..i], Scanning)
            && (seen == ApplyOps(start, ops[..i], Matching) <==>
                !exists a, b, x :: ExcessRemoval(start, AllRequests(ops[..i]), a, b, x))
  {
    hide RunCluster, Split, InOrderWorld, InOrderSet, Everything, CollisionFree, Proper, Contents, ExcessRemoval,
         ApplyOps;
    ProperIsWellFormed(u);
    CollisionFreeDecides(h, f, n, u);
    ShardedReadsSeeAllUpdates(h, f, n, u, w, ops, i);
    NothingLostInSplit(f, n, InOrderWorld(h, w, AllRequests(ops[..i])));
    InOrderIsSet(h, u, w.quads, AllRequests(ops[..i]));
    QuadsInOrder(h, w, AllRequests(ops[..i]));
    ReadingsAgree(Contents(w.quads), AllRequests(ops[..i]));
    AllRequestsMeanOps(Contents(w.quads), ops[..i], Scanning);
    AllRequestsMeanOps(Contents(w.quads), ops[..i], Matching);
  }

  /** Whether a read of pattern `p` is to return `x` after the operations. */
  predicate Due(start: set<Statement>, ops: seq<Op>, p: Statement, x: Statement) {
    x in ApplyOps(start, ops, Scanning) && Meant(x, p.subj, p.pred, p.obj, p.ctx, Scanning)
  }

  /** What the client gets: a read through the proxy, its backends' streams merged in any
      order, returns exactly the statements of that set that match the pattern as a scan reads
      it, each once; and never anything else before the streams end. */
  lemma ShardedReadReturns(h: HashFn, f: Bytes -> nat, n: nat, u: iset<Statement>, w: World, ops: seq<Op>, i: nat,
                           p: Statement, streams: seq<seq<Statement>>, turns: seq<nat>, x: Statement)
    requires n > 0 && Clean(h, u) && KeyedIn(h, w, u) && p in u && |streams| == n
    requires i < |ops| && ops[i].Read? && RequestsIn(AllRequests(ops[..i]), u)
    requires var shards := RunCluster(h, f, Conn(Split(f, n, w), None), ops[..i + 1]).world;
             forall k | 0 <= k < n :: Answers(h, shards[k].quads, p, streams[k])
    ensures var m := MergeRun(streams, turns);
            var due := if Due(Contents(w.quads), ops[..i], p, x) then 1 else 0;
            && multiset(m.out)[x] <= due
            && ((forall k | 0 <= k < n :: m.read[k] == |streams[k]|) ==> multiset(m.out)[x] == due)
  {
    hide RunCluster, InOrderWorld, CollisionFree, Proper, KeyedIn, Answers, Part, Seen, Due, Sum, MergeRun;
    ProperIsWellFormed(u);
    CollisionFreeDecides(h, f, n, u);
    ShardedReadsSeeAllUpdates(h, f, n, u, w, ops, i);
    var q := InOrderWorld(h, w, AllRequests(ops[..i])).quads;
    MergeConserves(streams, turns, x);
    GatheredCount(h, f, q, p, streams, MergeRun(streams, turns).read, x);
    QuadsInOrder(h, w, AllRequests(ops[..i]));
    DueIsHit(h, u, w, ops[..i], p, x);
  }

  /** The scan of the store in key form finds `x` exactly when it is due. */
  lemma DueIsHit(h: HashFn, u: iset<Statement>, w: World, ops: seq<Op>, p: Statement, x: Statement)
    requires Clean(h, u) && KeyedIn(h, w, u) && RequestsIn(AllRequests(ops), u) && p in u
    ensures Due(Contents(w.quads), ops, p, x) <==>
            Stored(h, InOrder(h, w.quads, AllRequests(ops)), x) && Hits(h, p, KeyOf(h, x))
  {
    hide Clean, RequestsIn, InOrder, InOrderSet, KeyOf, Hits, Matches, Widened, Meant, ApplyOps, AllRequests;
    var reqs := AllRequests(ops);
    InOrderIsSet(h, u, w.quads, reqs);
    AllRequestsMeanOps(Contents(w.quads), ops, Scanning);
    MeantIsMatched(x, p, Scanning);
    var q := InOrder(h, w.quads, reqs);
    if x in Contents(q) {
      var k :| k in q && q[k] == x;
      ScanIsMatching(h, u, q, p, k);
    }
  }

  lemma QuadsInOrder(h: HashFn, w: World, reqs: seq<Request>)
    ensures InOrderWorld(h, w, reqs).quads == InOrder(h, w.quads, reqs)
  {
  }

  lemma ProperIsWellFormed(u: iset<Statement>)
    requires forall s | s in u :: Proper(s)
    ensures forall s | s in u :: WellFormed(s)
  {
  }

  // ---- Keys in production ----

  /** computeKey's hash: MurmurHash3_x64_128 with seed 13. Longer terms, whose length does
      not fit a C int, are outside the model and get an arbitrary value. */
  function TermHash(b: Bytes): (r: Hash) {
    if |b| <= Murmur.MAX_LENGTH then Murmur.Hash(b, 13) else Fill(0, 16)
  }

  /** The key block of a component that serialises to nothing, such as an absent context. */
  lemma EmptyTermKey()
    ensures TermHash([]) == [0x5a, 0x99, 0x62, 0x27, 0xb2, 0xa8, 0x0e, 0xa1,
                             0xc6, 0x7d, 0xfb, 0x9c, 0x40, 0x75, 0x15, 0xbb]
  {
    hide Murmur.Hash;
    Murmur.EmptyAnswer();
  }

  /** Statements one of whose components serialises to the same length but differs within
      one 16-byte block never share a key, whatever the other components are. */
  lemma NearbyTermsKeepApart(s: Statement, t: Statement, pos: Position, i: nat)
    requires var a, b := TermBytes(s, pos), TermBytes(t, pos);
             |a| <= Murmur.MAX_LENGTH && Murmur.AgreeOutside(a, b, i) && a != b
    ensures KeyOf(TermHash, s) != KeyOf(TermHash, t)
  {
    hide TermBytes, Murmur.Hash;
    Murmur.OneBlockDifference(TermBytes(s, pos), TermBytes(t, pos), 13, i);
    assert TermHash(TermBytes(s, pos)) != TermHash(TermBytes(t, pos));
    assert Slot(KeyOf(TermHash, s), pos) != Slot(KeyOf(TermHash, t), pos);
  }

  /** Nor do statements one of whose components serialises like the other's with zero bytes
      appended within the last block. */
  lemma PaddedTermsKeepApart(s: Statement, t: Statement, pos: Position, n: nat)
    requires var a := TermBytes(s, pos);
             && TermBytes(t, pos) == a + Fill(0, n) && n > 0
             && |a| % 16 + n < 16 && |a| + n <= Murmur.MAX_LENGTH
    ensures KeyOf(TermHash, s) != KeyOf(TermHash, t)
  {
    hide TermBytes, Murmur.Hash;
    Murmur.PaddingDiffers(TermBytes(s, pos), n, 13);
    assert TermHash(TermBytes(s, pos)) != TermHash(TermBytes(t, pos));
    assert Slot(KeyOf(TermHash, s), pos) != Slot(KeyOf(TermHash, t), pos);
  }

  /** In particular, distinct terms of equal serialised length up to one block. */
  lemma ShortTermsKeepApart(s: Statement, t: Statement, pos: Position)
    requires |TermBytes(s, pos)| == |TermBytes(t, pos)| <= 16 && TermBytes(s, pos) != TermBytes(t, pos)
    ensures KeyOf(TermHash, s) != KeyOf(TermHash, t)
  {
    hide TermBytes;
    NearbyTermsKeepApart(s, t, pos, 0);
  }
}
