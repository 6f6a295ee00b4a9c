/** Everything a backend stores, statements and namespaces together, and what an update
    stream does to it. */
module Worlds {
  import opened Keys
  import opened Updates
  import opened Namespaces

  datatype World = World(quads: Quads, ns: NsStore)

  /** What the code does (persistence/leveldb_persistence.cc:510-562). */
  function UpdateWorld(h: HashFn, w: World, reqs: seq<Request>): (r: World) {
    World(Batched(h, w.quads, reqs), BatchedNs(w.ns, reqs))
  }

  /** What is promised (service/sail.proto:99-101). */
  function InOrderWorld(h: HashFn, w: World, reqs: seq<Request>): (r: World) {
    World(InOrder(h, w.quads, reqs), InOrderNs(w.ns, reqs))
  }

  /** Update keeps the promise, for streams of all four kinds of requests, if and only if
      neither a statement removal comes late nor a namespace removal misreads. */
  lemma UpdateIsInOrder(h: HashFn, w: World, reqs: seq<Request>)
    ensures UpdateWorld(h, w, reqs) == InOrderWorld(h, w, reqs) <==>
            && (!exists i, j :: LateRemoval(h, w.quads, reqs, i, j))
            && (!exists i, j :: LateNsRemoval(w.ns, reqs, i, j))
  {
    hide Batched, InOrder, BatchedNs, InOrderNs, LateRemoval, LateNsRemoval;
    BatchedIsInOrder(h, w.quads, reqs);
    BatchedNsIsInOrder(w.ns, reqs);
  }

  /** For streams that remove namespaces by prefix, as clients do, in terms of the requests and
      the starting store alone. */
  lemma ClientUpdateIsInOrder(h: HashFn, w: World, reqs: seq<Request>)
    requires WellKeyed(w.ns) && ByPrefixOnly(reqs)
    ensures UpdateWorld(h, w, reqs) == InOrderWorld(h, w, reqs) <==>
            && (!exists i, j :: LateRemoval(h, w.quads, reqs, i, j))
            && (!exists i, j :: LatePrefixRemoval(w.ns, reqs, i, j))
            && (!exists i, u :: LateUriRemoval(w.ns, reqs, i, u))
  {
    hide Batched, InOrder, BatchedNs, InOrderNs, LateRemoval, LatePrefixRemoval, LateUriRemoval, WellKeyed,
         ByPrefixOnly;
    BatchedIsInOrder(h, w.quads, reqs);
    PrefixRemovalsInOrder(w.ns, reqs);
  }

  lemma InOrderWorldAppend(h: HashFn, w: World, a: seq<Request>, b: seq<Request>)
    ensures InOrderWorld(h, w, a + b) == InOrderWorld(h, InOrderWorld(h, w, a), b)
  {
    InOrderAppend(h, w.quads, a, b);
    InOrderNsAppend(w.ns, a, b);
  }

  lemma NothingSent(h: HashFn, w: World)
    ensures InOrderWorld(h, w, []) == w
  {
  }
}
