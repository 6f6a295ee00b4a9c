/** The namespace indexes (persistence/leveldb_persistence.cc:320-383, 564-583), one by
    prefix and one by URI, and what update streams do to them. */
module Namespaces {
  import opened Bytes
  import opened Rdf
  import opened LevelDb
  import opened Updates

  datatype NsStore = NsStore(prefix: map<Bytes, Namespace>, url: map<Bytes, Namespace>)

  datatype NsPending = NsPending(prefix: map<Bytes, Option<Namespace>>, url: map<Bytes, Option<Namespace>>)

  /** GetNamespaces: by prefix if the pattern has one, else by URI, else everything. */
  function Found(n: NsStore, p: Namespace): (r: set<Namespace>) {
    if p.prefix != [] then if p.prefix in n.prefix then {n.prefix[p.prefix]} else {}
    else if p.uri != [] then if p.uri in n.url then {n.url[p.uri]} else {}
    else n.prefix.Values
  }

  function Prefixes(ns: set<Namespace>): (r: set<Bytes>) { set x | x in ns :: x.prefix }

  function Uris(ns: set<Namespace>): (r: set<Bytes>) { set x | x in ns :: x.uri }

  function ExtendNs(n: NsStore, e: NsPending, r: Request): (e': NsPending) {
    match r
    case NsAdded(ns) => NsPending(e.prefix[ns.prefix := Some(ns)], e.url[ns.uri := Some(ns)])
    case NsRemoved(p) => NsPending(e.prefix + Deletions(Prefixes(Found(n, p))), e.url + Deletions(Uris(Found(n, p))))
    case _ => e
  }

  /** The net effect of the two namespace batches built from `reqs` against `n`. */
  function PendingNs(n: NsStore, reqs: seq<Request>): (e: NsPending) {
    if reqs == [] then NsPending(map[], map[]) else ExtendNs(n, PendingNs(n, reqs[..|reqs| - 1]), reqs[|reqs| - 1])
  }

  lemma PendingNsSnoc(n: NsStore, reqs: seq<Request>, r: Request)
    ensures PendingNs(n, reqs + [r]) == ExtendNs(n, PendingNs(n, reqs), r)
  {
    hide ExtendNs;
    assert (reqs + [r])[..|reqs|] == reqs;
  }

  /** What the code does: removals look at the store the stream started from. */
  function BatchedNs(n: NsStore, reqs: seq<Request>): (r: NsStore) {
    var e := PendingNs(n, reqs);
    NsStore(Overlay(n.prefix, e.prefix), Overlay(n.url, e.url))
  }

  function ApplyNs(n: NsStore, r: Request): (n': NsStore) {
    match r
    case NsAdded(ns) => NsStore(n.prefix[ns.prefix := ns], n.url[ns.uri := ns])
    case NsRemoved(p) => NsStore(n.prefix - Prefixes(Found(n, p)), n.url - Uris(Found(n, p)))
    case _ => n
  }

  function InOrderNs(n: NsStore, reqs: seq<Request>): (r: NsStore) {
    if reqs == [] then n else ApplyNs(InOrderNs(n, reqs[..|reqs| - 1]), reqs[|reqs| - 1])
  }

  lemma {:induction false} InOrderNsAppend(n: NsStore, a: seq<Request>, b: seq<Request>)
    ensures InOrderNs(n, a + b) == InOrderNs(InOrderNs(n, a), b)
  {
    if b == [] {
      assert a + b == a;
    } else {
      InOrderNsAppend(n, a, b[..|b| - 1]);
      assert (a + b)[..|a + b| - 1] == a + b[..|b| - 1];
    }
  }

  // ---- What a lookup means ----

  /** A field of the pattern that is set must agree. */
  predicate NsMatches(ns: Namespace, p: Namespace) {
    (p.prefix != [] ==> ns.prefix == p.prefix) && (p.uri != [] ==> ns.uri == p.uri)
  }

  /** The pattern a lookup answers: a URI given along with a prefix is ignored. */
  function NsWidened(p: Namespace): (w: Namespace) { if p.prefix != [] then Namespace(p.prefix, []) else p }

  /** A lookup returns the entries of the index it reads that match. */
  lemma FoundEntries(n: NsStore, p: Namespace, ns: Namespace)
    requires WellKeyed(n)
    ensures ns in Found(n, p) <==>
            ns in (if p.prefix == [] && p.uri != [] then n.url else n.prefix).Values && NsMatches(ns, NsWidened(p))
  {
    if p.prefix != [] && ns in n.prefix.Values && ns.prefix == p.prefix {
      var x :| x in n.prefix && n.prefix[x] == ns;
    } else if p.prefix == [] && p.uri != [] && ns in n.url.Values && ns.uri == p.uri {
      var x :| x in n.url && n.url[x] == ns;
    }
  }

  /** With mutually inverse indexes a lookup returns exactly the stored namespaces that
      match the pattern, if and only if it is not given a prefix together with a URI other
      than the one bound to that prefix. */
  lemma FoundIsMatching(n: NsStore, p: Namespace)
    requires Inverse(n)
    ensures Found(n, p) == (set ns | ns in n.prefix.Values && NsMatches(ns, p)) <==>
            !(p.prefix in n.prefix && p.prefix != [] && p.uri != [] && n.prefix[p.prefix].uri != p.uri)
  {
    hide Found;
    forall ns ensures ns in n.url.Values <==> ns in n.prefix.Values {
      if ns in n.url.Values {
        var u :| u in n.url && n.url[u] == ns;
        assert n.prefix[ns.prefix] == ns;
      }
      if ns in n.prefix.Values {
        var x :| x in n.prefix && n.prefix[x] == ns;
        assert n.url[ns.uri] == ns;
      }
    }
    forall ns ensures ns in Found(n, p) <==> ns in n.prefix.Values && NsMatches(ns, NsWidened(p)) {
      FoundEntries(n, p, ns);
    }
    if p.prefix in n.prefix && p.prefix != [] && p.uri != [] && n.prefix[p.prefix].uri != p.uri {
      var ns := n.prefix[p.prefix];
      assert ns in n.prefix.Values && NsMatches(ns, NsWidened(p)) && !NsMatches(ns, p);
      assert ns in Found(n, p);
    }
  }

  /** Asked for a prefix and another URI, a lookup returns a namespace that does not match. */
  lemma LookupIgnoresUri(p: Bytes, u: Bytes, v: Bytes)
    requires p != [] && v != [] && u != v
    ensures var n := NsStore(map[p := Namespace(p, u)], map[u := Namespace(p, u)]);
            Inverse(n) && Found(n, Namespace(p, v)) == {Namespace(p, u)} && !NsMatches(Namespace(p, u), Namespace(p, v))
  {
  }

  // ---- Invariants ----

  ghost predicate WellKeyed(n: NsStore) {
    && (forall p | p in n.prefix :: n.prefix[p].prefix == p)
    && (forall u | u in n.url :: n.url[u].uri == u)
  }

  /** Each index can be read back from the other. */
  ghost predicate Inverse(n: NsStore) {
    && WellKeyed(n)
    && (forall p | p in n.prefix :: n.prefix[p].uri in n.url && n.url[n.prefix[p].uri] == n.prefix[p])
    && (forall u | u in n.url :: n.url[u].prefix in n.prefix && n.prefix[n.url[u].prefix] == n.url[u])
  }

  /** Prefix and URI are both free, or bound to each other. */
  predicate Bindable(n: NsStore, ns: Namespace) {
    || (ns.prefix !in n.prefix && ns.uri !in n.url)
    || (ns.prefix in n.prefix && n.prefix[ns.prefix] == ns)
  }

  ghost predicate KeyedPending(e: NsPending) {
    && (forall p | p in e.prefix :: e.prefix[p].Some? ==> e.prefix[p].value.prefix == p)
    && (forall u | u in e.url :: e.url[u].Some? ==> e.url[u].value.uri == u)
  }

  lemma {:induction false} PendingKeyed(n: NsStore, reqs: seq<Request>)
    ensures KeyedPending(PendingNs(n, reqs))
  {
    if reqs != [] {
      var e, r := PendingNs(n, reqs[..|reqs| - 1]), reqs[|reqs| - 1];
      PendingKeyed(n, reqs[..|reqs| - 1]);
      if r.NsRemoved? {
        var found := Found(n, r.nsPattern);
        assert KeyedPending(NsPending(Deletions(Prefixes(found)), Deletions(Uris(found))));
      }
    }
  }

  /** Every stream, of any shape, stores each namespace under its own prefix and URI. */
  lemma BatchKeepsWellKeyed(n: NsStore, reqs: seq<Request>)
    requires WellKeyed(n)
    ensures WellKeyed(BatchedNs(n, reqs))
  {
    PendingKeyed(n, reqs);
  }

  /** Adding a namespace keeps the indexes mutually inverse if and only if its prefix and
      URI are both free or bound to each other. */
  lemma AddKeepsInverse(n: NsStore, ns: Namespace)
    requires Inverse(n)
    ensures Inverse(ApplyNs(n, NsAdded(ns))) <==> Bindable(n, ns)
  {
    var n' := ApplyNs(n, NsAdded(ns));
    assert ns.prefix in n'.prefix && n'.prefix[ns.prefix] == ns;
    if ns.prefix in n.prefix && n.prefix[ns.prefix] != ns {
      var old_ := n.prefix[ns.prefix];
      assert old_.uri in n.url && n.url[old_.uri] == old_;
      assert old_.uri != ns.uri;
      assert old_.uri in n'.url && n'.url[old_.uri] == old_;
    }
    if ns.uri in n.url && n.url[ns.uri] != ns {
      var old_ := n.url[ns.uri];
      assert old_.prefix in n.prefix && n.prefix[old_.prefix] == old_;
      assert old_.prefix != ns.prefix;
      assert old_.prefix in n'.prefix && n'.prefix[old_.prefix] == old_;
    }
  }

  lemma RemoveKeepsInverse(n: NsStore, p: Namespace)
    requires Inverse(n)
    ensures Inverse(ApplyNs(n, NsRemoved(p)))
  {
    var f := Found(n, p);
    forall x | x in f ensures x.prefix in n.prefix && n.prefix[x.prefix] == x && x.uri in n.url && n.url[x.uri] == x {}
    forall x | x in n.prefix ensures x in Prefixes(f) <==> n.prefix[x].uri in Uris(f) {
      if n.prefix[x].uri in Uris(f) {
        var y :| y in f && y.uri == n.prefix[x].uri;
        assert n.url[y.uri] == y == n.prefix[x];
      }
    }
    forall u | u in n.url ensures u in Uris(f) <==> n.url[u].prefix in Prefixes(f) {
      if n.url[u].prefix in Prefixes(f) {
        var y :| y in f && y.prefix == n.url[u].prefix;
        assert n.prefix[y.prefix] == y == n.url[u];
      }
    }
  }

  /** Rebinding a prefix leaves its old URI behind. */
  lemma RebindingBreaksInverse(p: Bytes, u: Bytes, v: Bytes)
    requires u != v
    ensures var reqs := [NsAdded(Namespace(p, u)), NsAdded(Namespace(p, v))];
            var r := BatchedNs(NsStore(map[], map[]), reqs);
            && r.prefix == map[p := Namespace(p, v)]
            && r.url == map[u := Namespace(p, u), v := Namespace(p, v)] && !Inverse(r)
  {
    var reqs := [NsAdded(Namespace(p, u)), NsAdded(Namespace(p, v))];
    var empty := NsStore(map[], map[]);
    BatchedNsStep(empty, [], reqs[0]);
    BatchedNsStep(empty, [reqs[0]], reqs[1]);
    assert [] + [reqs[0]] == [reqs[0]] && [reqs[0]] + [reqs[1]] == reqs;
    var r := BatchedNs(NsStore(map[], map[]), reqs);
    assert r.url[u].prefix in r.prefix && r.prefix[r.url[u].prefix] != r.url[u];
  }

  // ---- Removals-first streams ----

  ghost predicate PartOf(small: NsStore, big: NsStore) {
    && (forall p | p in small.prefix :: p in big.prefix && small.prefix[p] == big.prefix[p])
    && (forall u | u in small.url :: u in big.url && small.url[u] == big.url[u])
  }

  /** From mutually inverse indexes, expanding a removal against an earlier, larger store
      deletes nothing more than expanding it against the current one. */
  lemma StaleRemoval(n: NsStore, cur: NsStore, p: Namespace)
    requires Inverse(n) && Inverse(cur) && PartOf(cur, n)
    ensures cur.prefix - Prefixes(Found(n, p)) == cur.prefix - Prefixes(Found(cur, p))
    ensures cur.url - Uris(Found(n, p)) == cur.url - Uris(Found(cur, p))
  {
    var f, g := Found(n, p), Found(cur, p);
    forall y | y in g ensures y in f {
      if p.prefix == [] && p.uri == [] {
        var x :| x in cur.prefix && cur.prefix[x] == y;
        assert n.prefix[x] == y;
      }
    }
    forall x | x in cur.prefix ensures x in Prefixes(f) <==> x in Prefixes(g) {
      if x in Prefixes(f) {
        var y :| y in f && y.prefix == x;
        assert y == n.prefix[x] == cur.prefix[x];
        assert y in g;
      }
    }
    forall u | u in cur.url ensures u in Uris(f) <==> u in Uris(g) {
      if u in Uris(f) {
        var y :| y in f && y.uri == u;
        assert y == n.url[u] == cur.url[u] == cur.prefix[y.prefix];
        assert y in g;
      }
    }
  }

  /** The batch, one more request at a time. */
  lemma BatchedNsStep(n: NsStore, reqs: seq<Request>, r: Request)
    ensures var b := BatchedNs(n, reqs);
            BatchedNs(n, reqs + [r]) ==
            if r.NsRemoved?
            then NsStore(b.prefix - Prefixes(Found(n, r.nsPattern)), b.url - Uris(Found(n, r.nsPattern)))
            else ApplyNs(b, r)
  {
    var e := PendingNs(n, reqs);
    assert (reqs + [r])[..|reqs|] == reqs;
    match r
    case NsAdded(ns) =>
      OverlayPut(n.prefix, e.prefix, ns.prefix, ns);
      OverlayPut(n.url, e.url, ns.uri, ns);
    case NsRemoved(p) =>
      OverlayDeletions(n.prefix, e.prefix, Prefixes(Found(n, p)));
      OverlayDeletions(n.url, e.url, Uris(Found(n, p)));
    case _ =>
  }

  /** Additions in `reqs` bind free or mutually bound prefix and URI when their turn comes. */
  ghost predicate AddsBindable(n: NsStore, reqs: seq<Request>) {
    forall i | 0 <= i < |reqs| && reqs[i].NsAdded? :: Bindable(InOrderNs(n, reqs[..i]), reqs[i].ns)
  }

  ghost predicate NoNsAdded(reqs: seq<Request>) { forall r | r in reqs :: !r.NsAdded? }

  lemma {:induction false} RemovalsFirstNsIsInOrder(n: NsStore, reqs: seq<Request>)
    requires Inverse(n) && RemovalsFirst(reqs)
    ensures BatchedNs(n, reqs) == InOrderNs(n, reqs)
    ensures NoNsAdded(reqs) ==> Inverse(InOrderNs(n, reqs)) && PartOf(InOrderNs(n, reqs), n)
  {
    if reqs == [] {
      SameLookups(Overlay(n.prefix, map[]), n.prefix);
      SameLookups(Overlay(n.url, map[]), n.url);
    } else {
      var m, r := reqs[..|reqs| - 1], reqs[|reqs| - 1];
      assert reqs == m + [r];
      RemovalsFirstNsIsInOrder(n, m);
      BatchedNsStep(n, m, r);
      if r.NsRemoved? {
        NothingAddedBefore(reqs);
        var cur := InOrderNs(n, m);
        StaleRemoval(n, cur, r.nsPattern);
        RemoveKeepsInverse(cur, r.nsPattern);
      }
    }
  }

  lemma NothingAddedBefore(reqs: seq<Request>)
    requires RemovalsFirst(reqs) && reqs != [] && IsRemoval(reqs[|reqs| - 1])
    ensures NoNsAdded(reqs)
  {
    forall r | r in reqs ensures !r.NsAdded? {
      var i :| 0 <= i < |reqs| && reqs[i] == r;
      assert i < |reqs| - 1 ==> !IsAddition(reqs[i]);
    }
  }

  lemma {:induction false} InOrderNsKeepsInverse(n: NsStore, reqs: seq<Request>)
    requires Inverse(n) && AddsBindable(n, reqs)
    ensures Inverse(InOrderNs(n, reqs))
  {
    if reqs != [] {
      var m, r := reqs[..|reqs| - 1], reqs[|reqs| - 1];
      forall i | 0 <= i < |m| && m[i].NsAdded? ensures Bindable(InOrderNs(n, m[..i]), m[i].ns) {
        assert m[..i] == reqs[..i] && m[i] == reqs[i];
      }
      InOrderNsKeepsInverse(n, m);
      match r
      case NsAdded(ns) => AddKeepsInverse(InOrderNs(n, m), ns);
      case NsRemoved(p) => RemoveKeepsInverse(InOrderNs(n, m), p);
      case _ =>
    }
  }

  ghost predicate AllBindable(n: NsStore, streams: seq<seq<Request>>)
    decreases |streams|
  {
    streams == [] ||
    (RemovalsFirst(streams[0]) && AddsBindable(n, streams[0]) && AllBindable(BatchedNs(n, streams[0]), streams[1..]))
  }

  function RunNs(n: NsStore, streams: seq<seq<Request>>): (r: NsStore)
    decreases |streams|
  {
    if streams == [] then n else RunNs(BatchedNs(n, streams[0]), streams[1..])
  }

  /** Over every run of removals-first streams that bind only free or mutually bound pairs,
      the two indexes stay mutually inverse. */
  lemma {:induction false} RunKeepsInverse(n: NsStore, streams: seq<seq<Request>>)
    requires Inverse(n) && AllBindable(n, streams)
    ensures Inverse(RunNs(n, streams))
    decreases |streams|
  {
    hide BatchedNs, InOrderNs, Inverse;
    if streams != [] {
      RemovalsFirstNsIsInOrder(n, streams[0]);
      InOrderNsKeepsInverse(n, streams[0]);
      RunKeepsInverse(BatchedNs(n, streams[0]), streams[1..]);
    }
  }

  // ---- When batching respects the order ----

  /** The two indexes, and the key a namespace has in each. */
  datatype Side = ByPrefix | ByUri

  function On(n: NsStore, d: Side): (r: map<Bytes, Namespace>) { if d.ByPrefix? then n.prefix else n.url }

  function Name(ns: Namespace, d: Side): (r: Bytes) { if d.ByPrefix? then ns.prefix else ns.uri }

  function Names(s: set<Namespace>, d: Side): (r: set<Bytes>) { if d.ByPrefix? then Prefixes(s) else Uris(s) }

  predicate Binds(r: Request, d: Side, x: Bytes) { r.NsAdded? && Name(r.ns, d) == x }

  /** Removal `r`, expanded against `n`, deletes the entry `x` of index `d`. */
  predicate Takes(n: NsStore, r: Request, d: Side, x: Bytes) { r.NsRemoved? && x in Names(Found(n, r.nsPattern), d) }

  /** The index of the last addition that binds `x`, or -1. */
  function LastBind(reqs: seq<Request>, d: Side, x: Bytes): (i: int)
    ensures -1 <= i < |reqs|
    ensures i >= 0 ==> Binds(reqs[i], d, x)
  {
    if reqs == [] then -1
    else if Binds(reqs[|reqs| - 1], d, x) then |reqs| - 1
    else LastBind(reqs[..|reqs| - 1], d, x)
  }

  lemma {:induction false} LastBindIsLast(reqs: seq<Request>, d: Side, x: Bytes, j: int)
    requires LastBind(reqs, d, x) < j < |reqs|
    ensures !Binds(reqs[j], d, x)
  {
    if j < |reqs| - 1 { LastBindIsLast(reqs[..|reqs| - 1], d, x, j); }
  }

  /** After request `i`, some removal finds `x` in the store the stream started from. */
  ghost predicate SeenSince(n: NsStore, reqs: seq<Request>, i: int, d: Side, x: Bytes)
    requires -1 <= i
  {
    exists j :: i < j < |reqs| && Takes(n, reqs[j], d, x)
  }

  /** After request `i`, some removal finds `x` among the namespaces bound at its turn. */
  ghost predicate DueSince(n: NsStore, reqs: seq<Request>, i: int, d: Side, x: Bytes)
    requires -1 <= i
  {
    exists j :: i < j < |reqs| && Takes(InOrderNs(n, reqs[..j]), reqs[j], d, x)
  }

  function FinalNs(n: NsStore, reqs: seq<Request>, d: Side, x: Bytes): (r: Option<Namespace>) {
    var i := LastBind(reqs, d, x);
    if i >= 0 then Some(reqs[i].ns) else Lookup(On(n, d), x)
  }

  lemma SeenSnoc(n: NsStore, reqs: seq<Request>, r: Request, i: int, d: Side, x: Bytes)
    requires -1 <= i < |reqs|
    ensures SeenSince(n, reqs + [r], i, d, x) <==> SeenSince(n, reqs, i, d, x) || Takes(n, r, d, x)
  {
    hide Takes;
    var all := reqs + [r];
    if SeenSince(n, reqs, i, d, x) {
      var j :| i < j < |reqs| && Takes(n, reqs[j], d, x);
      assert all[j] == reqs[j];
    }
    if Takes(n, r, d, x) { assert all[|reqs|] == r; }
    if SeenSince(n, all, i, d, x) && !Takes(n, r, d, x) {
      var j :| i < j < |all| && Takes(n, all[j], d, x);
      assert all[j] == reqs[j];
    }
  }

  lemma DueSnoc(n: NsStore, reqs: seq<Request>, r: Request, i: int, d: Side, x: Bytes)
    requires -1 <= i < |reqs|
    ensures DueSince(n, reqs + [r], i, d, x) <==> DueSince(n, reqs, i, d, x) || Takes(InOrderNs(n, reqs), r, d, x)
  {
    hide Takes, InOrderNs;
    var all := reqs + [r];
    forall j | 0 <= j <= |reqs| ensures all[..j] == reqs[..j] {}
    assert all[..|reqs|] == reqs;
    if DueSince(n, reqs, i, d, x) {
      var j :| i < j < |reqs| && Takes(InOrderNs(n, reqs[..j]), reqs[j], d, x);
      assert all[j] == reqs[j];
    }
    if Takes(InOrderNs(n, reqs), r, d, x) { assert all[|reqs|] == r; }
    if DueSince(n, all, i, d, x) && !Takes(InOrderNs(n, reqs), r, d, x) {
      var j :| i < j < |all| && Takes(InOrderNs(n, all[..j]), all[j], d, x);
      assert all[j] == reqs[j];
    }
  }

  lemma LastBindSnoc(reqs: seq<Request>, r: Request, d: Side, x: Bytes)
    ensures LastBind(reqs + [r], d, x) == if Binds(r, d, x) then |reqs| else LastBind(reqs, d, x)
  {
    hide Binds;
    assert (reqs + [r])[..|reqs|] == reqs;
  }

  lemma FinalSnoc(n: NsStore, reqs: seq<Request>, r: Request, d: Side, x: Bytes)
    ensures FinalNs(n, reqs + [r], d, x) == if Binds(r, d, x) then Some(r.ns) else FinalNs(n, reqs, d, x)
  {
    hide Binds, LastBind;
    LastBindSnoc(reqs, r, d, x);
  }

  lemma BatchedLookup(n: NsStore, reqs: seq<Request>, r: Request, d: Side, x: Bytes)
    ensures Lookup(On(BatchedNs(n, reqs + [r]), d), x) ==
            if Binds(r, d, x) then Some(r.ns)
            else if Takes(n, r, d, x) then None
            else Lookup(On(BatchedNs(n, reqs), d), x)
  {
    hide Found, BatchedNs;
    BatchedNsStep(n, reqs, r);
  }

  lemma AppliedLookup(n: NsStore, r: Request, d: Side, x: Bytes)
    ensures Lookup(On(ApplyNs(n, r), d), x) ==
            if Binds(r, d, x) then Some(r.ns) else if Takes(n, r, d, x) then None else Lookup(On(n, d), x)
  {
    hide Found;
  }

  lemma {:induction false} BatchedNsAt(n: NsStore, reqs: seq<Request>, d: Side, x: Bytes)
    ensures Lookup(On(BatchedNs(n, reqs), d), x) ==
            if SeenSince(n, reqs, LastBind(reqs, d, x), d, x) then None else FinalNs(n, reqs, d, x)
  {
    if reqs == [] {
      NothingBatched(n);
    } else {
      hide BatchedNs, On, Takes, Binds, FinalNs, Lookup;
      var m, r := reqs[..|reqs| - 1], reqs[|reqs| - 1];
      assert reqs == m + [r];
      BatchedNsAt(n, m, d, x);
      BatchedLookup(n, m, r, d, x);
      LastBindSnoc(m, r, d, x);
      FinalSnoc(n, m, r, d, x);
      SeenSnoc(n, m, r, LastBind(m, d, x), d, x);
    }
  }

  lemma NothingBatched(n: NsStore)
    ensures BatchedNs(n, []) == n
  {
    SameLookups(Overlay(n.prefix, map[]), n.prefix);
    SameLookups(Overlay(n.url, map[]), n.url);
  }

  lemma {:induction false} InOrderNsAt(n: NsStore, reqs: seq<Request>, d: Side, x: Bytes)
    ensures Lookup(On(InOrderNs(n, reqs), d), x) ==
            if DueSince(n, reqs, LastBind(reqs, d, x), d, x) then None else FinalNs(n, reqs, d, x)
  {
    if reqs != [] {
      hide ApplyNs, On, Takes, Binds, FinalNs, Lookup;
      var m, r := reqs[..|reqs| - 1], reqs[|reqs| - 1];
      assert reqs == m + [r];
      InOrderNsAt(n, m, d, x);
      AppliedLookup(InOrderNs(n, m), r, d, x);
      LastBindSnoc(m, r, d, x);
      FinalSnoc(n, m, r, d, x);
      DueSnoc(n, m, r, LastBind(m, d, x), d, x);
    }
  }

  /** Request `i` (the starting store if -1) is the last to bind entry `x` of index `d`, and
      removal `j` after it misreads the entry: either it finds it at its turn, while no
      removal after `i` finds it in the starting store, so that the entry survives; or it
      finds it in the starting store, while none is due to delete it, so that it is lost. */
  ghost predicate Misread(n: NsStore, reqs: seq<Request>, i: int, j: int, d: Side, x: Bytes) {
    && -1 <= i < j < |reqs|
    && (if i < 0 then x in On(n, d) else Binds(reqs[i], d, x))
    && (forall m | i < m < |reqs| :: !Binds(reqs[m], d, x))
    && (|| (Takes(InOrderNs(n, reqs[..j]), reqs[j], d, x) && !SeenSince(n, reqs, i, d, x))
        || (Takes(n, reqs[j], d, x) && !DueSince(n, reqs, i, d, x)))
  }

  ghost predicate LateNsRemoval(n: NsStore, reqs: seq<Request>, i: int, j: int) {
    exists d, x :: Misread(n, reqs, i, j, d, x)
  }

  /** For namespaces too, the batch has the effect of in-order application if and only if no
      removal misreads an entry: neither missing one bound during the stream nor deleting
      one that was rebound. */
  lemma BatchedNsIsInOrder(n: NsStore, reqs: seq<Request>)
    ensures BatchedNs(n, reqs) == InOrderNs(n, reqs) <==> !exists i, j :: LateNsRemoval(n, reqs, i, j)
  {
    hide BatchedNs, InOrderNs, Takes;
    if i, j :| LateNsRemoval(n, reqs, i, j) {
      var d, x :| Misread(n, reqs, i, j, d, x);
      LastBindIs(reqs, d, x, i);
      BatchedNsAt(n, reqs, d, x);
      InOrderNsAt(n, reqs, d, x);
    } else {
      SidesAgree(n, reqs, ByPrefix);
      SidesAgree(n, reqs, ByUri);
    }
  }

  lemma LastBindIs(reqs: seq<Request>, d: Side, x: Bytes, i: int)
    requires -1 <= i < |reqs| && (i >= 0 ==> Binds(reqs[i], d, x))
    requires forall m | i < m < |reqs| :: !Binds(reqs[m], d, x)
    ensures LastBind(reqs, d, x) == i
  {
    if LastBind(reqs, d, x) < i { LastBindIsLast(reqs, d, x, i); }
  }

  lemma SidesAgree(n: NsStore, reqs: seq<Request>, d: Side)
    requires !exists i, j :: LateNsRemoval(n, reqs, i, j)
    ensures On(BatchedNs(n, reqs), d) == On(InOrderNs(n, reqs), d)
  {
    hide BatchedNs, InOrderNs, LateNsRemoval, SeenSince, DueSince;
    forall x ensures Lookup(On(BatchedNs(n, reqs), d), x) == Lookup(On(InOrderNs(n, reqs), d), x) {
      BatchedNsAt(n, reqs, d, x);
      InOrderNsAt(n, reqs, d, x);
      var i := LastBind(reqs, d, x);
      if FinalNs(n, reqs, d, x).Some? && SeenSince(n, reqs, i, d, x) != DueSince(n, reqs, i, d, x) {
        MisreadAt(n, reqs, d, x);
      }
    }
    SameLookups(On(BatchedNs(n, reqs), d), On(InOrderNs(n, reqs), d));
  }

  lemma MisreadAt(n: NsStore, reqs: seq<Request>, d: Side, x: Bytes)
    requires FinalNs(n, reqs, d, x).Some?
    requires var i := LastBind(reqs, d, x); SeenSince(n, reqs, i, d, x) != DueSince(n, reqs, i, d, x)
    ensures exists i, j :: LateNsRemoval(n, reqs, i, j)
  {
    hide InOrderNs, Takes;
    var i := LastBind(reqs, d, x);
    forall m | i < m < |reqs| ensures !Binds(reqs[m], d, x) { LastBindIsLast(reqs, d, x, m); }
    var j :| i < j < |reqs|
      && if SeenSince(n, reqs, i, d, x) then Takes(n, reqs[j], d, x) else Takes(InOrderNs(n, reqs[..j]), reqs[j], d, x);
    assert Misread(n, reqs, i, j, d, x);
    assert LateNsRemoval(n, reqs, i, j);
  }

  lemma ApplyKeepsWellKeyed(n: NsStore, r: Request)
    requires WellKeyed(n)
    ensures WellKeyed(ApplyNs(n, r))
  {
  }

  lemma InOrderNsStep(n: NsStore, reqs: seq<Request>, r: Request)
    ensures InOrderNs(n, reqs + [r]) == ApplyNs(InOrderNs(n, reqs), r)
  {
    assert (reqs + [r])[..|reqs|] == reqs;
  }

  lemma NothingApplied(n: NsStore)
    ensures InOrderNs(n, []) == n
  {
  }

  // ---- Removals by prefix ----

  /** Namespaces are removed by prefix, or all at once: the removals a client sends. */
  predicate ByPrefixOnly(reqs: seq<Request>) {
    forall i | 0 <= i < |reqs| && reqs[i].NsRemoved? :: reqs[i].nsPattern.prefix != [] || reqs[i].nsPattern.uri == []
  }

  /** Removal `r` is for prefix `p`, or for all. */
  predicate Asks(r: Request, p: Bytes) { r.NsRemoved? && (r.nsPattern.prefix == [] || r.nsPattern.prefix == p) }

  lemma AskedIsTaken(n: NsStore, r: Request, p: Bytes)
    requires WellKeyed(n) && ByPrefixOnly([r])
    ensures Takes(n, r, ByPrefix, p) <==> Asks(r, p) && p in n.prefix
  {
    assert [r][0] == r;
    if r.NsRemoved? && p in n.prefix && Asks(r, p) { assert n.prefix[p] in Found(n, r.nsPattern); }
  }

  lemma {:induction false} InOrderKeepsWellKeyed(n: NsStore, reqs: seq<Request>)
    requires WellKeyed(n)
    ensures WellKeyed(InOrderNs(n, reqs))
  {
    if reqs != [] {
      InOrderKeepsWellKeyed(n, reqs[..|reqs| - 1]);
      ApplyKeepsWellKeyed(InOrderNs(n, reqs[..|reqs| - 1]), reqs[|reqs| - 1]);
    }
  }

  lemma LastBindPrefix(reqs: seq<Request>, d: Side, x: Bytes, j: int)
    requires LastBind(reqs, d, x) < j <= |reqs|
    ensures LastBind(reqs[..j], d, x) == LastBind(reqs, d, x)
  {
    var i := LastBind(reqs, d, x);
    forall m | i < m < j ensures !Binds(reqs[..j][m], d, x) { LastBindIsLast(reqs, d, x, m); }
    LastBindIs(reqs[..j], d, x, i);
  }

  /** A prefix that is bound is due for deletion as soon as a later removal asks for it. */
  lemma AskedIsDue(n: NsStore, reqs: seq<Request>, p: Bytes)
    requires WellKeyed(n) && ByPrefixOnly(reqs) && FinalNs(n, reqs, ByPrefix, p).Some?
    ensures var i := LastBind(reqs, ByPrefix, p);
            DueSince(n, reqs, i, ByPrefix, p) <==> exists j :: i < j < |reqs| && Asks(reqs[j], p)
  {
    hide InOrderNs, WellKeyed, Takes, Asks, Found;
    var i := LastBind(reqs, ByPrefix, p);
    forall j | i < j < |reqs|
      ensures Takes(InOrderNs(n, reqs[..j]), reqs[j], ByPrefix, p) <==>
              Asks(reqs[j], p) && p in InOrderNs(n, reqs[..j]).prefix
    {
      InOrderKeepsWellKeyed(n, reqs[..j]);
      AskedIsTaken(InOrderNs(n, reqs[..j]), reqs[j], p);
    }
    if j :| i < j < |reqs| && Asks(reqs[j], p) {
      InOrderNsAt(n, reqs[..j], ByPrefix, p);
      LastBindPrefix(reqs, ByPrefix, p, j);
      if DueSince(n, reqs[..j], i, ByPrefix, p) {
        var m :| i < m < j && Takes(InOrderNs(n, reqs[..j][..m]), reqs[..j][m], ByPrefix, p);
        assert reqs[..j][..m] == reqs[..m];
      } else {
        assert Lookup(InOrderNs(n, reqs[..j]).prefix, p).Some?;
      }
    }
  }

  lemma AskedIsSeen(n: NsStore, reqs: seq<Request>, p: Bytes)
    requires WellKeyed(n) && ByPrefixOnly(reqs)
    ensures var i := LastBind(reqs, ByPrefix, p);
            SeenSince(n, reqs, i, ByPrefix, p) <==> p in n.prefix && exists j :: i < j < |reqs| && Asks(reqs[j], p)
  {
    hide WellKeyed, Takes, Asks, Found;
    forall j | 0 <= j < |reqs| ensures Takes(n, reqs[j], ByPrefix, p) <==> Asks(reqs[j], p) && p in n.prefix {
      AskedIsTaken(n, reqs[j], p);
    }
  }

  /** Request `i` is the last to bind its prefix, the prefix was free when the stream began,
      and the later request `j` removes it. */
  ghost predicate LatePrefixRemoval(n: NsStore, reqs: seq<Request>, i: int, j: int) {
    && 0 <= i < j < |reqs| && reqs[i].NsAdded? && reqs[i].ns.prefix !in n.prefix
    && Asks(reqs[j], reqs[i].ns.prefix)
    && forall m | i < m < |reqs| :: !Binds(reqs[m], ByPrefix, reqs[i].ns.prefix)
  }

  /** For such removals, the prefix index is that of in-order application if and only if no
      removal comes after the last binding of a prefix that was free: for namespaces what
      `Updates.BatchedIsInOrder` is for statements. */
  lemma PrefixIndexInOrder(n: NsStore, reqs: seq<Request>)
    requires WellKeyed(n) && ByPrefixOnly(reqs)
    ensures BatchedNs(n, reqs).prefix == InOrderNs(n, reqs).prefix <==> !exists i, j :: LatePrefixRemoval(n, reqs, i, j)
  {
    hide BatchedNs, InOrderNs, Asks, WellKeyed, ByPrefixOnly;
    if i, j :| LatePrefixRemoval(n, reqs, i, j) {
      var p := reqs[i].ns.prefix;
      LastBindIs(reqs, ByPrefix, p, i);
      PrefixAt(n, reqs, p);
      assert Lookup(BatchedNs(n, reqs).prefix, p) != Lookup(InOrderNs(n, reqs).prefix, p);
    } else {
      forall p ensures Lookup(BatchedNs(n, reqs).prefix, p) == Lookup(InOrderNs(n, reqs).prefix, p) {
        PrefixAt(n, reqs, p);
        var i := LastBind(reqs, ByPrefix, p);
        if i >= 0 && p !in n.prefix {
          forall m | i < m < |reqs| ensures !Binds(reqs[m], ByPrefix, p) { LastBindIsLast(reqs, ByPrefix, p, m); }
          forall j | i < j < |reqs| ensures !Asks(reqs[j], p) { assert !LatePrefixRemoval(n, reqs, i, j); }
        }
      }
      SameLookups(BatchedNs(n, reqs).prefix, InOrderNs(n, reqs).prefix);
    }
  }

  lemma PrefixAt(n: NsStore, reqs: seq<Request>, p: Bytes)
    requires WellKeyed(n) && ByPrefixOnly(reqs)
    ensures var i := LastBind(reqs, ByPrefix, p);
            var asked := exists j :: i < j < |reqs| && Asks(reqs[j], p);
            var final := FinalNs(n, reqs, ByPrefix, p);
            && Lookup(BatchedNs(n, reqs).prefix, p) == (if p in n.prefix && asked then None else final)
            && Lookup(InOrderNs(n, reqs).prefix, p) == (if asked then None else final)
  {
    hide BatchedNs, InOrderNs, Asks, WellKeyed, ByPrefixOnly, SeenSince, DueSince;
    BatchedNsAt(n, reqs, ByPrefix, p);
    InOrderNsAt(n, reqs, ByPrefix, p);
    AskedIsSeen(n, reqs, p);
    if FinalNs(n, reqs, ByPrefix, p).Some? { AskedIsDue(n, reqs, p); }
  }

  /** After the first `j` requests prefix `p` is bound to `u`: the last binding of `p`, or the
      starting one, says so, and no removal since asks for `p`. */
  ghost predicate BoundTo(n: NsStore, reqs: seq<Request>, j: nat, p: Bytes, u: Bytes)
    requires j <= |reqs|
  {
    && FinalNs(n, reqs[..j], ByPrefix, p).Some? && FinalNs(n, reqs[..j], ByPrefix, p).value.uri == u
    && forall m | LastBind(reqs[..j], ByPrefix, p) < m < j :: !Asks(reqs[m], p)
  }

  /** Removal `j` is for a prefix bound to `u` at its turn. */
  ghost predicate DueUri(n: NsStore, reqs: seq<Request>, j: nat, u: Bytes)
    requires j < |reqs|
  {
    exists p :: Asks(reqs[j], p) && BoundTo(n, reqs, j, p, u)
  }

  /** Removal `j` is for a prefix bound to `u` when the stream began. */
  ghost predicate SeenUri(n: NsStore, reqs: seq<Request>, j: nat, u: Bytes)
    requires j < |reqs|
  {
    exists p :: Asks(reqs[j], p) && p in n.prefix && n.prefix[p].uri == u
  }

  /** Request `i` (the starting store if -1) is the last to bind `u`; some later removal is for
      a prefix that was bound to `u` when the stream began and none for one that is bound to
      it at its turn, or the other way round. */
  ghost predicate LateUriRemoval(n: NsStore, reqs: seq<Request>, i: int, u: Bytes) {
    && -1 <= i < |reqs|
    && (if i < 0 then u in n.url else Binds(reqs[i], ByUri, u))
    && (forall m | i < m < |reqs| :: !Binds(reqs[m], ByUri, u))
    && ((exists j :: i < j < |reqs| && SeenUri(n, reqs, j, u)) != (exists j :: i < j < |reqs| && DueUri(n, reqs, j, u)))
  }

  lemma AskedTakesUri(n: NsStore, r: Request, u: Bytes)
    requires WellKeyed(n) && ByPrefixOnly([r])
    ensures Takes(n, r, ByUri, u) <==> exists p :: Asks(r, p) && p in n.prefix && n.prefix[p].uri == u
  {
    assert [r][0] == r;
    if Takes(n, r, ByUri, u) {
      var ns :| ns in Found(n, r.nsPattern) && ns.uri == u;
      assert n.prefix[ns.prefix] == ns && Asks(r, ns.prefix);
    }
    if p :| Asks(r, p) && p in n.prefix && n.prefix[p].uri == u { assert n.prefix[p] in Found(n, r.nsPattern); }
  }

  lemma BoundIsBound(n: NsStore, reqs: seq<Request>, j: nat, p: Bytes, u: Bytes)
    requires WellKeyed(n) && ByPrefixOnly(reqs) && j <= |reqs|
    ensures BoundTo(n, reqs, j, p, u) <==>
            p in InOrderNs(n, reqs[..j]).prefix && InOrderNs(n, reqs[..j]).prefix[p].uri == u
  {
    hide InOrderNs, FinalNs, Asks, WellKeyed;
    PrefixAt(n, reqs[..j], p);
    forall m | 0 <= m < j ensures reqs[..j][m] == reqs[m] {}
  }

  lemma DueIsTaken(n: NsStore, reqs: seq<Request>, j: nat, u: Bytes)
    requires WellKeyed(n) && ByPrefixOnly(reqs) && j < |reqs|
    ensures Takes(InOrderNs(n, reqs[..j]), reqs[j], ByUri, u) <==> DueUri(n, reqs, j, u)
    ensures Takes(n, reqs[j], ByUri, u) <==> SeenUri(n, reqs, j, u)
  {
    hide InOrderNs, Asks, WellKeyed, Takes, BoundTo;
    InOrderKeepsWellKeyed(n, reqs[..j]);
    AskedTakesUri(InOrderNs(n, reqs[..j]), reqs[j], u);
    AskedTakesUri(n, reqs[j], u);
    forall p ensures BoundTo(n, reqs, j, p, u) <==>
                     p in InOrderNs(n, reqs[..j]).prefix && InOrderNs(n, reqs[..j]).prefix[p].uri == u
    {
      BoundIsBound(n, reqs, j, p, u);
    }
  }

  lemma UriAt(n: NsStore, reqs: seq<Request>, u: Bytes)
    requires WellKeyed(n) && ByPrefixOnly(reqs)
    ensures var i := LastBind(reqs, ByUri, u);
            var seen := exists j :: i < j < |reqs| && SeenUri(n, reqs, j, u);
            var due := exists j :: i < j < |reqs| && DueUri(n, reqs, j, u);
            && Lookup(BatchedNs(n, reqs).url, u) == (if seen then None else FinalNs(n, reqs, ByUri, u))
            && Lookup(InOrderNs(n, reqs).url, u) == (if due then None else FinalNs(n, reqs, ByUri, u))
  {
    hide BatchedNs, InOrderNs, WellKeyed, ByPrefixOnly, Takes, SeenUri, DueUri;
    BatchedNsAt(n, reqs, ByUri, u);
    InOrderNsAt(n, reqs, ByUri, u);
    forall j | 0 <= j < |reqs|
      ensures Takes(InOrderNs(n, reqs[..j]), reqs[j], ByUri, u) <==> DueUri(n, reqs, j, u)
      ensures Takes(n, reqs[j], ByUri, u) <==> SeenUri(n, reqs, j, u)
    {
      DueIsTaken(n, reqs, j, u);
    }
  }

  lemma UriIndexInOrder(n: NsStore, reqs: seq<Request>)
    requires WellKeyed(n) && ByPrefixOnly(reqs)
    ensures BatchedNs(n, reqs).url == InOrderNs(n, reqs).url <==> !exists i, u :: LateUriRemoval(n, reqs, i, u)
  {
    hide BatchedNs, InOrderNs, WellKeyed, ByPrefixOnly, SeenUri, DueUri;
    if i, u :| LateUriRemoval(n, reqs, i, u) {
      LastBindIs(reqs, ByUri, u, i);
      UriAt(n, reqs, u);
      assert Lookup(BatchedNs(n, reqs).url, u) != Lookup(InOrderNs(n, reqs).url, u);
    } else {
      forall u ensures Lookup(BatchedNs(n, reqs).url, u) == Lookup(InOrderNs(n, reqs).url, u) {
        UriAt(n, reqs, u);
        var i := LastBind(reqs, ByUri, u);
        if FinalNs(n, reqs, ByUri, u).Some? {
          forall m | i < m < |reqs| ensures !Binds(reqs[m], ByUri, u) { LastBindIsLast(reqs, ByUri, u, m); }
          assert !LateUriRemoval(n, reqs, i, u);
        }
      }
      SameLookups(BatchedNs(n, reqs).url, InOrderNs(n, reqs).url);
    }
  }

  /** For the removals clients send, the batch has the effect of in-order application on both
      indexes if and only if no removal comes after the last binding of a prefix that was
      free, and the removals after the last binding of each URI hit it at the start of the
      stream exactly if they hit it at their turn. Both conditions speak of the requests and
      the starting store alone. */
  lemma PrefixRemovalsInOrder(n: NsStore, reqs: seq<Request>)
    requires WellKeyed(n) && ByPrefixOnly(reqs)
    ensures BatchedNs(n, reqs) == InOrderNs(n, reqs) <==>
            && (!exists i, j :: LatePrefixRemoval(n, reqs, i, j))
            && (!exists i, u :: LateUriRemoval(n, reqs, i, u))
  {
    hide BatchedNs, InOrderNs, WellKeyed, ByPrefixOnly, LatePrefixRemoval, LateUriRemoval;
    PrefixIndexInOrder(n, reqs);
    UriIndexInOrder(n, reqs);
  }

  /** Rebinding a prefix and then removing it goes wrong in the URI index alone: the removal
      deletes the URI the prefix had when the stream began. */
  lemma RebindThenRemoveKeepsUri(p: Bytes, u: Bytes, v: Bytes)
    requires p != [] && u != v
    ensures var n := NsStore(map[p := Namespace(p, u)], map[u := Namespace(p, u)]);
            var reqs := [NsAdded(Namespace(p, v)), NsRemoved(Namespace(p, []))];
            && Inverse(n) && ByPrefixOnly(reqs) && BatchedNs(n, reqs).prefix == InOrderNs(n, reqs).prefix == map[]
            && BatchedNs(n, reqs).url == map[v := Namespace(p, v)]
            && InOrderNs(n, reqs).url == map[u := Namespace(p, u)]
  {
    hide BatchedNs, InOrderNs;
    var n := NsStore(map[p := Namespace(p, u)], map[u := Namespace(p, u)]);
    var r1, r2 := NsAdded(Namespace(p, v)), NsRemoved(Namespace(p, []));
    NothingBatched(n); NothingApplied(n);
    BatchedNsStep(n, [], r1); InOrderNsStep(n, [], r1);
    BatchedNsStep(n, [r1], r2); InOrderNsStep(n, [r1], r2);
    assert [] + [r1] == [r1] && [r1] + [r2] == [r1, r2];
    assert Found(n, r2.nsPattern) == {Namespace(p, u)} && Found(InOrderNs(n, [r1]), r2.nsPattern) == {Namespace(p, v)};
    assert Prefixes({Namespace(p, u)}) == {p} && Prefixes({Namespace(p, v)}) == {p};
    assert Uris({Namespace(p, u)}) == {u} && Uris({Namespace(p, v)}) == {v};
  }

  const EMPTY_NS := NsStore(map[], map[])

  /** Adding a namespace and removing it again in one stream leaves it stored. */
  lemma AddThenRemoveKeepsNs(p: Bytes, u: Bytes)
    requires p != []
    ensures var reqs := [NsAdded(Namespace(p, u)), NsRemoved(Namespace(p, []))];
            BatchedNs(EMPTY_NS, reqs).prefix == map[p := Namespace(p, u)] && InOrderNs(EMPTY_NS, reqs).prefix == map[]
  {
    var r1, r2 := NsAdded(Namespace(p, u)), NsRemoved(Namespace(p, []));
    NothingBatched(EMPTY_NS);
    BatchedNsStep(EMPTY_NS, [], r1); InOrderNsStep(EMPTY_NS, [], r1);
    BatchedNsStep(EMPTY_NS, [r1], r2); InOrderNsStep(EMPTY_NS, [r1], r2);
    assert [] + [r1] == [r1] && [r1] + [r2] == [r1, r2];
    assert Found(InOrderNs(EMPTY_NS, [r1]), Namespace(p, [])) == {Namespace(p, u)};
    assert Prefixes({Namespace(p, u)}) == {p};
    assert Found(EMPTY_NS, Namespace(p, [])) == {};
  }

  /** A removal by URI deletes the prefix that had the URI when the stream began, although
      the stream has bound it to another URI since. */
  lemma StaleRemovalTakesRebound(p: Bytes, u: Bytes, v: Bytes)
    requires p != [] && u != [] && u != v
    ensures var n := NsStore(map[p := Namespace(p, u)], map[u := Namespace(p, u)]);
            var reqs := [NsRemoved(Namespace(p, [])), NsAdded(Namespace(p, v)), NsRemoved(Namespace([], u))];
            Inverse(n) && BatchedNs(n, reqs).prefix == map[] && InOrderNs(n, reqs).prefix == map[p := Namespace(p, v)]
  {
    hide BatchedNs, InOrderNs;
    var n := NsStore(map[p := Namespace(p, u)], map[u := Namespace(p, u)]);
    var r1, r2, r3 := NsRemoved(Namespace(p, [])), NsAdded(Namespace(p, v)), NsRemoved(Namespace([], u));
    NothingBatched(n); NothingApplied(n);
    BatchedNsStep(n, [], r1); InOrderNsStep(n, [], r1);
    BatchedNsStep(n, [r1], r2); InOrderNsStep(n, [r1], r2);
    BatchedNsStep(n, [r1, r2], r3); InOrderNsStep(n, [r1, r2], r3);
    assert [] + [r1] == [r1] && [r1] + [r2] == [r1, r2] && [r1, r2] + [r3] == [r1, r2, r3];
    assert Found(n, r1.nsPattern) == {Namespace(p, u)} && Found(n, r3.nsPattern) == {Namespace(p, u)};
    assert Prefixes({Namespace(p, u)}) == {p} && Uris({Namespace(p, u)}) == {u};
    assert InOrderNs(n, [r1]) == EMPTY_NS;
    assert Found(InOrderNs(n, [r1, r2]), r3.nsPattern) == {};
  }

  /** Indexes that are not mutually inverse, as rebinding leaves them, can be misread even by
      a removals-first stream: the second removal finds an entry the first has deleted. */
  lemma StaleIndexesBreakOrder(p: Bytes, q: Bytes, u: Bytes)
    requires p != [] && q != [] && u != [] && p != q
    ensures var n := NsStore(map[p := Namespace(p, u), q := Namespace(q, u)], map[u := Namespace(q, u)]);
            var reqs := [NsRemoved(Namespace(p, [])), NsRemoved(Namespace([], u))];
            && WellKeyed(n) && RemovalsFirst(reqs)
            && BatchedNs(n, reqs).prefix == map[] && InOrderNs(n, reqs).prefix == map[q := Namespace(q, u)]
  {
    hide BatchedNs, InOrderNs;
    var n := NsStore(map[p := Namespace(p, u), q := Namespace(q, u)], map[u := Namespace(q, u)]);
    var r1, r2 := NsRemoved(Namespace(p, [])), NsRemoved(Namespace([], u));
    NothingBatched(n); NothingApplied(n);
    BatchedNsStep(n, [], r1); InOrderNsStep(n, [], r1);
    BatchedNsStep(n, [r1], r2); InOrderNsStep(n, [r1], r2);
    assert [] + [r1] == [r1] && [r1] + [r2] == [r1, r2];
    assert Found(n, r1.nsPattern) == {Namespace(p, u)} && Found(n, r2.nsPattern) == {Namespace(q, u)};
    assert Prefixes({Namespace(p, u)}) == {p} && Uris({Namespace(p, u)}) == {u} && Prefixes({Namespace(q, u)}) == {q};
    assert Found(InOrderNs(n, [r1]), r2.nsPattern) == {};
  }

  // ---- Streams with at most one namespace removal ----

  /** The streams a connection sends: removals first, at most one of them of namespaces. */
  ghost predicate OneNsRemoval(reqs: seq<Request>) {
    && RemovalsFirst(reqs)
    && forall i, j | 0 <= i < j < |reqs| && reqs[j].NsRemoved? :: !reqs[i].NsRemoved?
  }

  lemma {:induction false} UntouchedNs(n: NsStore, reqs: seq<Request>)
    requires forall r | r in reqs :: !r.NsAdded? && !r.NsRemoved?
    ensures InOrderNs(n, reqs) == n
  {
    if reqs != [] { UntouchedNs(n, reqs[..|reqs| - 1]); }
  }

  /** For those streams batching is in-order application whatever the indexes hold. */
  lemma {:induction false} OneNsRemovalIsInOrder(n: NsStore, reqs: seq<Request>)
    requires OneNsRemoval(reqs)
    ensures BatchedNs(n, reqs) == InOrderNs(n, reqs)
  {
    if reqs == [] {
      SameLookups(Overlay(n.prefix, map[]), n.prefix);
      SameLookups(Overlay(n.url, map[]), n.url);
    } else {
      var m, r := reqs[..|reqs| - 1], reqs[|reqs| - 1];
      assert reqs == m + [r];
      OneNsRemovalIsInOrder(n, m);
      BatchedNsStep(n, m, r);
      if r.NsRemoved? {
        forall x | x in m ensures !x.NsAdded? && !x.NsRemoved? {
          var i :| 0 <= i < |m| && m[i] == x;
          assert reqs[i] == x && IsRemoval(reqs[|reqs| - 1]) && !IsAddition(reqs[i]);
        }
        UntouchedNs(n, m);
      }
    }
  }

  /** Removing the empty prefix is the wildcard: it clears every namespace stored under its
      own prefix. */
  lemma EmptyPrefixClearsAll(n: NsStore)
    requires WellKeyed(n)
    ensures ApplyNs(n, NsRemoved(Namespace([], []))).prefix == map[]
  {
    var f := Found(n, Namespace([], []));
    forall p | p in n.prefix ensures p in Prefixes(f) { assert n.prefix[p] in f; }
  }
}
