/** The store with no keys, hashes or indexes in it: a plain set of statements and a
    dictionary of namespaces.

    A removal can be read in two ways. `Matching` is the documented one
    (persistence/leveldb_persistence.h:117-121, service/sail.proto:80-84): the statements that
    match the pattern go. `Scanning` is the store's: those that match the pattern without
    the component a scan ignores go. On proper statements without hash collisions the store
    is exactly the set under the second reading, through every stream and every client
    session, and the two readings agree exactly when nothing is removed in excess. */
module Reference {
  import opened Bytes
  import opened Rdf
  import opened Wire
  import opened Keys
  import opened Updates
  import opened Namespaces
  import opened Indexes
  import opened Shards
  import opened Worlds
  import opened Connection

  datatype Reading = Matching | Scanning

  function Removal(p: Statement, m: Reading): (w: Statement) { if m.Scanning? then Widened(p) else p }

  function ApplySet(s: set<Statement>, r: Request, m: Reading): (t: set<Statement>) {
    match r
    case StmtAdded(x) => s + {x}
    case StmtRemoved(p) => set x | x in s && !Matches(x, Removal(p, m))
    case _ => s
  }

  function InOrderSet(s: set<Statement>, reqs: seq<Request>, m: Reading): (t: set<Statement>) {
    if reqs == [] then s else ApplySet(InOrderSet(s, reqs[..|reqs| - 1], m), reqs[|reqs| - 1], m)
  }

  function Contents(q: Quads): (r: set<Statement>) { set k | k in q :: q[k] }

  /** Every component that is present is non-empty, down to its oneofs, and a datatype
      literal has its datatype set. */
  predicate Proper(s: Statement) {
    WellFormed(s) && (s.obj.Some? ==> SetValue(s.obj.value) && !DatatypeAbsent(s.obj.value))
  }

  /** The statements and patterns in play: proper, and without colliding terms. */
  ghost predicate Clean(h: HashFn, u: iset<Statement>) {
    CollisionFree(h, u) && forall s | s in u :: Proper(s)
  }

  // ---- Scans and matching ----

  /** `w` has some of the components of `p`. */
  predicate Generalises(w: Statement, p: Statement) {
    && (w.subj.None? || w.subj == p.subj) && (w.pred.None? || w.pred == p.pred)
    && (w.obj.None? || w.obj == p.obj) && (w.ctx.None? || w.ctx == p.ctx)
  }

  /** For proper statements, agreeing in every bound hash is matching. */
  lemma HashesDecide(h: HashFn, u: iset<Statement>, s: Statement, p: Statement, w: Statement)
    requires Clean(h, u) && s in u && p in u && Generalises(w, p)
    ensures HashMatches(h, w, KeyOf(h, s)) <==> Matches(s, w)
  {
    hide ResourceBytes, UriBytes, ValueBytes, CollisionFree;
    forall pos | Bound(w, pos) ensures Agrees(h, w, KeyOf(h, s), pos) <==> TermBytes(s, pos) == TermBytes(w, pos) {
      assert TermBytes(w, pos) == TermBytes(p, pos);
      NoCollision(h, u, s, p, pos);
    }
    TermsDecide(s, w);
    assert HashMatches(h, w, KeyOf(h, s)) <==> forall pos | Bound(w, pos) :: TermBytes(s, pos) == TermBytes(w, pos);
  }

  lemma NoCollision(h: HashFn, u: iset<Statement>, s: Statement, p: Statement, pos: Position)
    requires CollisionFree(h, u) && s in u && p in u
    ensures Agrees(h, p, KeyOf(h, s), pos) <==> TermBytes(s, pos) == TermBytes(p, pos)
  {
    hide TermBytes;
    assert Slot(KeyOf(h, s), pos) == h(TermBytes(s, pos));
  }

  lemma TermsDecide(s: Statement, p: Statement)
    requires Proper(s) && Proper(p)
    ensures (forall pos | Bound(p, pos) :: TermBytes(s, pos) == TermBytes(p, pos)) <==> Matches(s, p)
  {
    hide ResourceBytes, UriBytes, ValueBytes;
    ResourceEquality(s.Subject(), p.Subject());
    ResourceEquality(s.Context(), p.Context());
    ValueEquality(s.Object(), p.Object());
    if forall pos | Bound(p, pos) :: TermBytes(s, pos) == TermBytes(p, pos) {
      if Bound(p, S) { ResourceInjective(s.Subject(), p.Subject()); }
      if Bound(p, P) { UriInjective(s.Predicate(), p.Predicate()); }
      if Bound(p, O) { ValueInjective(s.Object(), p.Object()); }
      if Bound(p, C) { ResourceInjective(s.Context(), p.Context()); }
    }
  }

  /** For all sixteen shapes, a scan meets exactly the statements that match the widened
      pattern; for the twelve exact shapes that is the pattern itself. */
  lemma ScanIsMatching(h: HashFn, u: iset<Statement>, q: Quads, p: Statement, k: Key)
    requires Clean(h, u) && Keyed(h, q) && StoredIn(q, u) && p in u && k in q
    ensures k in ScanKeys(h, q, p) <==> Matches(q[k], Widened(p))
    ensures Ignored(p).None? ==> Widened(p) == p
  {
    hide KeyOf, Hits, Clean, Matches, HashMatches;
    HashesDecide(h, u, q[k], p, Widened(p));
    HitsWidened(h, p, k);
  }

  /** Filtering a scan with `matches` gives exactly the stored statements that match, for
      all sixteen shapes and whatever the hash collides on, as long as no stored match spells
      its datatype differently from the pattern. */
  lemma FilteredScan(h: HashFn, q: Quads, p: Statement)
    requires Keyed(h, q) && forall k | k in q && Matches(q[k], p) :: DatatypesAlike(q[k], p)
    ensures (set k | k in ScanKeys(h, q, p) && Matches(q[k], p)) == (set k | k in q && Matches(q[k], p))
  {
    hide KeyOf, Matches, DatatypesAlike, TermBytes;
    forall k | k in q && Matches(q[k], p) ensures k in ScanKeys(h, q, p) {
      MatchesAreFound(q[k], p);
      assert HashMatches(h, p, KeyOf(h, q[k]));
    }
  }

  // ---- The store is the set under the scanning reading ----

  ghost predicate RequestsIn(reqs: seq<Request>, u: iset<Statement>) {
    forall r | r in reqs :: (r.StmtAdded? ==> r.stmt in u) && (r.StmtRemoved? ==> r.pattern in u)
  }

  lemma ApplyIsSet(h: HashFn, u: iset<Statement>, q: Quads, r: Request)
    requires Clean(h, u) && Keyed(h, q) && StoredIn(q, u) && RequestsIn([r], u)
    ensures Contents(Apply(h, q, r)) == ApplySet(Contents(q), r, Scanning)
    ensures Keyed(h, Apply(h, q, r)) && StoredIn(Apply(h, q, r), u)
  {
    hide KeyOf, Hits, Matches, ScanKeys, CollisionFree, Proper, Widened;
    assert r in [r];
    match r
    case StmtAdded(s) =>
      AddIsUnion(h, u, q, s);
    case StmtRemoved(p) =>
      forall k | k in q ensures k in ScanKeys(h, q, p) <==> Matches(q[k], Widened(p)) { ScanIsMatching(h, u, q, p, k); }
      forall x ensures x in Contents(Apply(h, q, r)) <==> x in ApplySet(Contents(q), r, Scanning) {
        if x in ApplySet(Contents(q), r, Scanning) {
          var k :| k in q && q[k] == x;
          assert k in Apply(h, q, r) && Apply(h, q, r)[k] == x;
        }
      }
    case _ =>
  }

  lemma AddIsUnion(h: HashFn, u: iset<Statement>, q: Quads, s: Statement)
    requires Clean(h, u) && Keyed(h, q) && StoredIn(q, u) && s in u
    ensures Contents(q[KeyOf(h, s) := s]) == Contents(q) + {s}
  {
    hide KeyOf, CollisionFree, WellFormed;
    var k := KeyOf(h, s);
    var q' := q[k := s];
    if k in q { KeysIdentify(h, u, q[k], s); }
    assert k in q' && q'[k] == s;
    forall x | x in Contents(q) ensures x in Contents(q') {
      var j :| j in q && q[j] == x;
      assert j in q' && q'[j] == x;
    }
  }

  lemma {:induction false} InOrderIsSet(h: HashFn, u: iset<Statement>, q: Quads, reqs: seq<Request>)
    requires Clean(h, u) && Keyed(h, q) && StoredIn(q, u) && RequestsIn(reqs, u)
    ensures Contents(InOrder(h, q, reqs)) == InOrderSet(Contents(q), reqs, Scanning)
    ensures Keyed(h, InOrder(h, q, reqs)) && StoredIn(InOrder(h, q, reqs), u)
  {
    hide Apply, ApplySet, Clean, Keyed, StoredIn, Contents;
    if reqs != [] {
      var n := |reqs| - 1;
      InOrderIsSet(h, u, q, reqs[..n]);
      assert reqs[n] in reqs;
      ApplyIsSet(h, u, InOrder(h, q, reqs[..n]), reqs[n]);
    }
  }

  // ---- When the two readings agree ----

  /** The index of the last addition of `x`, or -1. */
  function LastAdded(reqs: seq<Request>, x: Statement): (i: int)
    ensures -1 <= i < |reqs|
    ensures i >= 0 ==> reqs[i] == StmtAdded(x)
  {
    if reqs == [] then -1
    else if reqs[|reqs| - 1] == StmtAdded(x) then |reqs| - 1
    else LastAdded(reqs[..|reqs| - 1], x)
  }

  lemma {:induction false} LastAddedIsLast(reqs: seq<Request>, x: Statement, j: int)
    requires LastAdded(reqs, x) < j < |reqs|
    ensures reqs[j] != StmtAdded(x)
  {
    if j < |reqs| - 1 { LastAddedIsLast(reqs[..|reqs| - 1], x, j); }
  }

  predicate Drops(r: Request, x: Statement, m: Reading) { r.StmtRemoved? && Matches(x, Removal(r.pattern, m)) }

  ghost predicate DroppedSince(reqs: seq<Request>, i: int, x: Statement, m: Reading)
    requires -1 <= i
  {
    exists j :: i < j < |reqs| && Drops(reqs[j], x, m)
  }

  lemma DroppedSnoc(reqs: seq<Request>, r: Request, i: int, x: Statement, m: Reading)
    requires -1 <= i < |reqs|
    ensures DroppedSince(reqs + [r], i, x, m) <==> DroppedSince(reqs, i, x, m) || Drops(r, x, m)
  {
    hide Drops;
    var all := reqs + [r];
    if DroppedSince(reqs, i, x, m) {
      var j :| i < j < |reqs| && Drops(reqs[j], x, m);
      assert all[j] == reqs[j];
    }
    if Drops(r, x, m) { assert all[|reqs|] == r; }
    if DroppedSince(all, i, x, m) && !Drops(r, x, m) {
      var j :| i < j < |all| && Drops(all[j], x, m);
      assert all[j] == reqs[j];
    }
  }

  /** A statement is there at the end if it was there or added, and not removed since. */
  lemma {:induction false} InOrderSetAt(s: set<Statement>, reqs: seq<Request>, x: Statement, m: Reading)
    ensures x in InOrderSet(s, reqs, m) <==>
            (LastAdded(reqs, x) >= 0 || x in s) && !DroppedSince(reqs, LastAdded(reqs, x), x, m)
  {
    hide Matches, Removal;
    if reqs != [] {
      var n := |reqs| - 1;
      InOrderSetAt(s, reqs[..n], x, m);
      DroppedSnoc(reqs[..n], reqs[n], LastAdded(reqs[..n], x), x, m);
      assert reqs == reqs[..n] + [reqs[n]];
    }
  }

  /** Request `i` (the starting set if -1) is the last to bring `x` in, and removal `j` after
      it sweeps `x` up by its widened pattern, though no removal after `i` matches it. */
  ghost predicate ExcessRemoval(s: set<Statement>, reqs: seq<Request>, i: int, j: int, x: Statement) {
    && -1 <= i < j < |reqs|
    && (if i < 0 then x in s else reqs[i] == StmtAdded(x))
    && (forall m | i < m < |reqs| :: reqs[m] != StmtAdded(x))
    && Drops(reqs[j], x, Scanning)
    && !DroppedSince(reqs, i, x, Matching)
  }

  lemma MatchingIsScanning(r: Request, x: Statement)
    requires Drops(r, x, Matching)
    ensures Drops(r, x, Scanning)
  {
    hide EqResource, EqUri, EqValue;
  }

  /** The store keeps the documented meaning of removal if and only if no removal sweeps up
      a statement that none matches. */
  lemma ReadingsAgree(s: set<Statement>, reqs: seq<Request>)
    ensures InOrderSet(s, reqs, Scanning) == InOrderSet(s, reqs, Matching) <==>
            !exists i, j, x :: ExcessRemoval(s, reqs, i, j, x)
  {
    hide InOrderSet, Drops;
    if i, j, x :| ExcessRemoval(s, reqs, i, j, x) {
      if LastAdded(reqs, x) < i { LastAddedIsLast(reqs, x, i); }
      InOrderSetAt(s, reqs, x, Scanning);
      InOrderSetAt(s, reqs, x, Matching);
    } else {
      forall x ensures x in InOrderSet(s, reqs, Scanning) <==> x in InOrderSet(s, reqs, Matching) {
        InOrderSetAt(s, reqs, x, Scanning);
        InOrderSetAt(s, reqs, x, Matching);
        var i := LastAdded(reqs, x);
        if DroppedSince(reqs, i, x, Matching) {
          var j :| i < j < |reqs| && Drops(reqs[j], x, Matching);
          MatchingIsScanning(reqs[j], x);
        } else if (i >= 0 || x in s) && DroppedSince(reqs, i, x, Scanning) {
          ExcessAt(s, reqs, x);
        }
      }
    }
  }

  lemma ExcessAt(s: set<Statement>, reqs: seq<Request>, x: Statement)
    requires LastAdded(reqs, x) >= 0 || x in s
    requires var i := LastAdded(reqs, x); DroppedSince(reqs, i, x, Scanning) && !DroppedSince(reqs, i, x, Matching)
    ensures exists i, j, y :: ExcessRemoval(s, reqs, i, j, y)
  {
    hide Drops;
    var i := LastAdded(reqs, x);
    var j :| i < j < |reqs| && Drops(reqs[j], x, Scanning);
    forall m | i < m < |reqs| ensures reqs[m] != StmtAdded(x) { LastAddedIsLast(reqs, x, m); }
    assert ExcessRemoval(s, reqs, i, j, x);
  }

  // ---- Operations ----

  /** Whether `x` is meant by a removal of subject, predicate, object and context, each of them
      optional. A scan does not look at the object if it has a subject and no predicate, nor at
      the context if it has an object and no subject. */
  predicate Meant(x: Statement, subj: Option<Resource>, pred: Option<URI>, obj: Option<Value>, ctx: Option<Resource>,
                  m: Reading)
  {
    && (subj.Some? ==> EqResource(x.Subject(), subj.value))
    && (pred.Some? ==> EqUri(x.Predicate(), pred.value))
    && (obj.Some? && !(m.Scanning? && subj.Some? && pred.None?) ==> EqValue(x.Object(), obj.value))
    && (ctx.Some? && !(m.Scanning? && subj.None? && obj.Some?) ==> EqResource(x.Context(), ctx.value))
  }

  /** What an operation of the connection does to the set. An addition or removal without
      contexts is one without context; a null among the contexts stands for none. */
  function ApplyOp(s: set<Statement>, op: Op, m: Reading): (t: set<Statement>) {
    match op
    case Add(subj, pred, obj, contexts) =>
      if contexts == [] then s + {Statement(Some(subj), Some(pred), Some(obj), None)}
      else s + set c | c in contexts :: Statement(Some(subj), Some(pred), Some(obj), c)
    case Remove(subj, pred, obj, contexts) =>
      if contexts == [] then set x | x in s && !Meant(x, subj, pred, obj, None, m)
      else set x | x in s && forall c | c in contexts :: !Meant(x, subj, pred, obj, c, m)
    case Clear(contexts) =>
      if contexts == [] then {}
      else set x | x in s && forall c | c in contexts :: c.Some? && !EqResource(x.Context(), c.value)
    case _ => s
  }

  function ApplyOps(s: set<Statement>, ops: seq<Op>, m: Reading): (t: set<Statement>) {
    if ops == [] then s else ApplyOp(ApplyOps(s, ops[..|ops| - 1], m), ops[|ops| - 1], m)
  }

  lemma MeantIsMatched(x: Statement, p: Statement, m: Reading)
    ensures Meant(x, p.subj, p.pred, p.obj, p.ctx, m) <==> Matches(x, Removal(p, m))
  {
    hide EqResource, EqUri, EqValue;
  }

  lemma {:induction false} InOrderSetAppend(s: set<Statement>, a: seq<Request>, b: seq<Request>, m: Reading)
    ensures InOrderSet(s, a + b, m) == InOrderSet(InOrderSet(s, a, m), b, m)
  {
    hide ApplySet;
    if b == [] {
      assert a + b == a;
    } else {
      InOrderSetAppend(s, a, b[..|b| - 1], m);
      assert (a + b)[..|a + b| - 1] == a + b[..|b| - 1];
    }
  }

  lemma {:induction false} AdditionsUnite(s: set<Statement>, subj: Resource, pred: URI, obj: Value,
                                          contexts: seq<Option<Resource>>, m: Reading)
    ensures InOrderSet(s, AddRequests(subj, pred, obj, contexts), m)
         == s + set c | c in contexts :: Statement(Some(subj), Some(pred), Some(obj), c)
  {
    var reqs := AddRequests(subj, pred, obj, contexts);
    if contexts != [] {
      var n := |contexts| - 1;
      AdditionsUnite(s, subj, pred, obj, contexts[..n], m);
      assert reqs[..n] == AddRequests(subj, pred, obj, contexts[..n]);
      assert contexts == contexts[..n] + [contexts[n]];
    }
  }

  lemma {:induction false} RemovalsTake(s: set<Statement>, subj: Option<Resource>, pred: Option<URI>,
                                        obj: Option<Value>, contexts: seq<Option<Resource>>, m: Reading)
    ensures InOrderSet(s, RemoveRequests(subj, pred, obj, contexts), m)
         == set x | x in s && forall c | c in contexts :: !Meant(x, subj, pred, obj, c, m)
  {
    hide Meant, Matches, Removal;
    var reqs := RemoveRequests(subj, pred, obj, contexts);
    if contexts != [] {
      var n := |contexts| - 1;
      RemovalsTake(s, subj, pred, obj, contexts[..n], m);
      assert reqs[..n] == RemoveRequests(subj, pred, obj, contexts[..n]);
      assert contexts == contexts[..n] + [contexts[n]];
      forall x { MeantIsMatched(x, Statement(subj, pred, obj, contexts[n]), m); }
    }
  }

  /** The requests an operation sends mean, on the set, what the operation means. */
  lemma RequestsMeanOp(s: set<Statement>, op: Op, m: Reading)
    ensures InOrderSet(s, Requests(op), m) == ApplyOp(s, op, m)
  {
    hide InOrderSet, EqResource, EqUri, EqValue;
    match op
    case Add(subj, pred, obj, contexts) =>
      AdditionsUnite(s, subj, pred, obj, PerContext(contexts), m);
      assert InOrderSet(s, Requests(op), m) == ApplyOp(s, op, m);
    case Remove(subj, pred, obj, contexts) =>
      RemovalsTake(s, subj, pred, obj, PerContext(contexts), m);
      assert None in PerContext([]);
      assert InOrderSet(s, Requests(op), m) == ApplyOp(s, op, m);
    case Clear(contexts) =>
      RemovalsTake(s, None, None, None, PerContext(contexts), m);
      assert None in PerContext([]);
      assert InOrderSet(s, Requests(op), m) == ApplyOp(s, op, m);
    case _ => OtherRequests(s, op, m);
  }

  lemma OtherRequests(s: set<Statement>, op: Op, m: Reading)
    requires !op.Add? && !op.Remove? && !op.Clear?
    ensures InOrderSet(s, Requests(op), m) == s
  {
    if |Requests(op)| == 1 { assert Requests(op)[..0] == []; }
  }

  lemma {:induction false} AllRequestsMeanOps(s: set<Statement>, ops: seq<Op>, m: Reading)
    ensures InOrderSet(s, AllRequests(ops), m) == ApplyOps(s, ops, m)
  {
    hide ApplyOp, Requests;
    if ops != [] {
      var n := |ops| - 1;
      AllRequestsMeanOps(s, ops[..n], m);
      InOrderSetAppend(s, AllRequests(ops[..n]), Requests(ops[n]), m);
      RequestsMeanOp(ApplyOps(s, ops[..n], m), ops[n], m);
    }
  }

  // ---- Sessions ----

  /** At every read of every client session, removals of all shapes included, the server
      holds exactly the statements that the session's operations leave under the scanning
      reading; and those of the documented reading if and only if nothing was removed in
      excess. */
  lemma ReadsSeeStatements(h: HashFn, u: iset<Statement>, w: World, ops: seq<Op>, i: nat)
    requires Clean(h, u) && Keyed(h, w.quads) && StoredIn(w.quads, u)
    requires i < |ops| && (ops[i].Read? || ops[i].Commit?) && RequestsIn(AllRequests(ops[..i]), u)
    ensures var start, seen := Contents(w.quads), Contents(Run(h, Conn(w, None), ops[..i + 1]).world.quads);
            && seen == ApplyOps(start, ops[..i], Scanning)
            && (seen == ApplyOps(start, ops[..i], Matching) <==>
                !exists a, b, x :: ExcessRemoval(start, AllRequests(ops[..i]), a, b, x))
  {
    hide InOrder, InOrderSet, Clean, Keyed, StoredIn, Contents, Run, ExcessRemoval, ApplyOps;
    var start := Contents(w.quads);
    ReadsSeeAllUpdates(h, w, ops, i);
    InOrderIsSet(h, u, w.quads, AllRequests(ops[..i]));
    ReadingsAgree(start, AllRequests(ops[..i]));
    AllRequestsMeanOps(start, ops[..i], Scanning);
    AllRequestsMeanOps(start, ops[..i], Matching);
  }

  /** Namespaces as a dictionary from prefixes: what a session's operations mean. The empty
      prefix is the wildcard. */
  function ApplyDictionary(d: map<Bytes, Namespace>, op: Op): (r: map<Bytes, Namespace>) {
    match op
    case SetNamespace(p, n) => d[p := Namespace(p, n)]
    case RemoveNamespace(p) => if p == [] then map[] else d - {p}
    case ClearNamespaces => map[]
    case _ => d
  }

  function Dictionary(d: map<Bytes, Namespace>, ops: seq<Op>): (r: map<Bytes, Namespace>) {
    if ops == [] then d else ApplyDictionary(Dictionary(d, ops[..|ops| - 1]), ops[|ops| - 1])
  }

  lemma RemovesPrefix(n: NsStore, p: Bytes)
    requires WellKeyed(n) && p != []
    ensures ApplyNs(n, NsRemoved(Namespace(p, []))).prefix == n.prefix - {p}
  {
    var found := Found(n, Namespace(p, []));
    assert Prefixes(found) == if p in n.prefix then {p} else {};
  }

  lemma OpIsDictionary(n: NsStore, op: Op)
    requires WellKeyed(n)
    ensures InOrderNs(n, Requests(op)).prefix == ApplyDictionary(n.prefix, op)
    ensures WellKeyed(InOrderNs(n, Requests(op)))
  {
    hide InOrderNs, WellKeyed;
    if op.SetNamespace? || op.RemoveNamespace? || op.ClearNamespaces? {
      hide Found;
      var r := Requests(op)[0];
      assert Requests(op) == [] + [r];
      InOrderNsStep(n, [], r);
      NothingApplied(n);
      ApplyKeepsWellKeyed(n, r);
      EmptyPrefixClearsAll(n);
      if op.RemoveNamespace? && op.prefix != [] { RemovesPrefix(n, op.prefix); }
    } else {
      UntouchedNs(n, Requests(op));
    }
  }

  lemma {:induction false} RequestsAreDictionary(n: NsStore, ops: seq<Op>)
    requires WellKeyed(n)
    ensures InOrderNs(n, AllRequests(ops)).prefix == Dictionary(n.prefix, ops)
    ensures WellKeyed(InOrderNs(n, AllRequests(ops)))
  {
    hide InOrderNs, WellKeyed, ApplyDictionary;
    if ops == [] {
      NothingApplied(n);
    } else {
      var m := |ops| - 1;
      RequestsAreDictionary(n, ops[..m]);
      OpIsDictionary(InOrderNs(n, AllRequests(ops[..m])), ops[m]);
      InOrderNsAppend(n, AllRequests(ops[..m]), Requests(ops[m]));
    }
  }

  /** getNamespace(p) and, for the empty prefix, getNamespaces(). */
  function NamespacesFor(d: map<Bytes, Namespace>, p: Bytes): (r: set<Namespace>) {
    if p == [] then d.Values else set x | x in d && x == p :: d[x]
  }

  /** At every read of every client session the prefix index is the dictionary of the
      session's operations, and getNamespace and getNamespaces answer from it. */
  lemma ReadsSeeNamespaces(h: HashFn, w: World, ops: seq<Op>, i: nat)
    requires WellKeyed(w.ns) && i < |ops| && (ops[i].Read? || ops[i].Commit?)
    ensures var ns, d := Run(h, Conn(w, None), ops[..i + 1]).world.ns, Dictionary(w.ns.prefix, ops[..i]);
            ns.prefix == d && forall p :: Found(ns, Namespace(p, [])) == NamespacesFor(d, p)
  {
    hide InOrder, InOrderNs, Dictionary, Run;
    ReadsSeeAllUpdates(h, w, ops, i);
    RequestsAreDictionary(w.ns, ops[..i]);
  }
}
