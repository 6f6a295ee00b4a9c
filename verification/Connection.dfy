/** The client's transaction protocol
    (java/client/src/main/java/org/apache/marmotta/cmarmotta/sail/CMarmottaSailConnection.java).

    Updates are pushed to an open stream and take effect on the server only when the stream
    is completed, all at once and with removals expanded against the old store. The
    connection completes the stream before every read and before every removal, which makes
    the server's store at each read the result of applying the client's operations one by
    one. */
module Connection {
  import opened Bytes
  import opened Rdf
  import opened Keys
  import opened Updates
  import opened Namespaces
  import opened Indexes
  import opened Persistence
  import opened Worlds

  /** The operations of a connection. A context of None is Java's null. `Read` is any
      operation that calls commitForQuery and then only reads. */
  datatype Op =
    | Add(subj: Resource, pred: URI, obj: Value, contexts: seq<Option<Resource>>)
    | Remove(subjP: Option<Resource>, predP: Option<URI>, objP: Option<Value>, contexts: seq<Option<Resource>>)
    | Clear(contexts: seq<Option<Resource>>)
    | SetNamespace(prefix: Bytes, name: Bytes)
    | RemoveNamespace(prefix: Bytes)
    | ClearNamespaces
    | Read
    | Commit

  function PerContext(contexts: seq<Option<Resource>>): (r: seq<Option<Resource>>) {
    if contexts == [] then [None] else contexts
  }

  function AddRequests(s: Resource, p: URI, o: Value, contexts: seq<Option<Resource>>): (r: seq<Request>)
    ensures |r| == |contexts|
  {
    seq(|contexts|, i requires 0 <= i < |contexts| => StmtAdded(Statement(Some(s), Some(p), Some(o), contexts[i])))
  }

  function RemoveRequests(s: Option<Resource>, p: Option<URI>, o: Option<Value>, contexts: seq<Option<Resource>>)
    : (r: seq<Request>)
    ensures |r| == |contexts|
  {
    seq(|contexts|, i requires 0 <= i < |contexts| => StmtRemoved(Statement(s, p, o, contexts[i])))
  }

  /** The requests an operation sends. */
  function Requests(op: Op): (r: seq<Request>) {
    match op
    case Add(s, p, o, cs) => AddRequests(s, p, o, PerContext(cs))
    case Remove(s, p, o, cs) => RemoveRequests(s, p, o, PerContext(cs))
    case Clear(cs) => RemoveRequests(None, None, None, PerContext(cs))
    case SetNamespace(p, n) => [NsAdded(Namespace(p, n))]
    case RemoveNamespace(p) => [NsRemoved(Namespace(p, []))]
    case ClearNamespaces => [NsRemoved(Namespace([], []))]
    case _ => []
  }

  predicate IsAdd(op: Op) { op.Add? || op.SetNamespace? }

  predicate IsRemove(op: Op) { op.Remove? || op.Clear? || op.RemoveNamespace? || op.ClearNamespaces? }

  /** The server's store and the open stream, None when updateRequestObserver is null. */
  datatype Conn<W> = Conn(world: W, stream: Option<seq<Request>>)

  function Sent<W>(c: Conn<W>): (r: seq<Request>) { if c.stream.Some? then c.stream.value else [] }

  /** commitInternal: complete the stream, if one is open, and wait for the server, whose store
      becomes `updated`. */
  function Completed<W>(c: Conn<W>, updated: W): (r: Conn<W>) { if c.stream.Some? then Conn(updated, None) else c }

  /** What an operation does to the connection; `flushed` is its state once the stream is
      completed. */
  function Operate<W>(c: Conn<W>, flushed: Conn<W>, op: Op): (r: Conn<W>) {
    if IsAdd(op) then c.(stream := Some(Sent(c) + Requests(op)))
    else if IsRemove(op) then flushed.(stream := Some(Requests(op)))
    else flushed
  }

  function Flush(h: HashFn, c: Conn<World>): (r: Conn<World>) { Completed(c, UpdateWorld(h, c.world, Sent(c))) }

  function Step(h: HashFn, c: Conn<World>, op: Op): (r: Conn<World>) { Operate(c, Flush(h, c), op) }

  /** The store the client has in mind: its stream applied in order. */
  function View(h: HashFn, c: Conn<World>): (r: World) { InOrderWorld(h, c.world, Sent(c)) }

  lemma StreamShape(op: Op, sent: seq<Request>)
    requires OneNsRemoval(sent)
    ensures IsAdd(op) ==> OneNsRemoval(sent + Requests(op))
    ensures IsRemove(op) ==> OneNsRemoval(Requests(op))
  {
    if IsAdd(op) {
      var all := sent + Requests(op);
      forall i | |sent| <= i < |all| ensures !IsRemoval(all[i]) { assert all[i] == Requests(op)[i - |sent|]; }
    }
  }

  lemma FlushShowsView(h: HashFn, c: Conn<World>)
    requires OneNsRemoval(Sent(c))
    ensures Flush(h, c) == Conn(View(h, c), None)
  {
    hide Batched, InOrder, BatchedNs, InOrderNs;
    NothingSent(h, c.world);
    RemovalsFirstIsInOrder(h, c.world.quads, Sent(c));
    OneNsRemovalIsInOrder(c.world.ns, Sent(c));
  }

  /** Every operation acts on the client's view as if applied at once, keeps the stream in
      the shape the server handles in order, and a read finds the view on the server. */
  lemma StepInOrder(h: HashFn, c: Conn<World>, op: Op)
    requires OneNsRemoval(Sent(c))
    ensures OneNsRemoval(Sent(Step(h, c, op)))
    ensures View(h, Step(h, c, op)) == InOrderWorld(h, View(h, c), Requests(op))
    ensures !IsAdd(op) && !IsRemove(op) ==> Step(h, c, op) == Conn(View(h, c), None)
  {
    hide InOrderWorld, OneNsRemoval, UpdateWorld;
    StreamShape(op, Sent(c));
    FlushShowsView(h, c);
    NothingSent(h, View(h, c));
    InOrderWorldAppend(h, c.world, Sent(c), Requests(op));
    assert OneNsRemoval([]) by { EmptyShape(); }
  }

  lemma EmptyShape()
    ensures OneNsRemoval([])
  {
  }

  function Run(h: HashFn, c: Conn<World>, ops: seq<Op>): (r: Conn<World>) {
    if ops == [] then c else Step(h, Run(h, c, ops[..|ops| - 1]), ops[|ops| - 1])
  }

  function AllRequests(ops: seq<Op>): (r: seq<Request>) {
    if ops == [] then [] else AllRequests(ops[..|ops| - 1]) + Requests(ops[|ops| - 1])
  }

  lemma {:induction false} RunInOrder(h: HashFn, w: World, ops: seq<Op>)
    ensures OneNsRemoval(Sent(Run(h, Conn(w, None), ops)))
    ensures View(h, Run(h, Conn(w, None), ops)) == InOrderWorld(h, w, AllRequests(ops))
  {
    hide InOrderWorld, OneNsRemoval, Step, View;
    if ops == [] {
      EmptyShape();
      assert View(h, Conn(w, None)) == w by { NothingSentView(h, w); }
      NothingSent(h, w);
    } else {
      var n := |ops| - 1;
      RunInOrder(h, w, ops[..n]);
      StepInOrder(h, Run(h, Conn(w, None), ops[..n]), ops[n]);
      InOrderWorldAppend(h, w, AllRequests(ops[..n]), Requests(ops[n]));
    }
  }

  lemma NothingSentView(h: HashFn, w: World)
    ensures View(h, Conn(w, None)) == w
  {
    NothingSent(h, w);
  }

  /** End to end: at every read of every sequence of operations, the server's store is the
      starting store with all earlier operations applied one at a time, in order. */
  lemma ReadsSeeAllUpdates(h: HashFn, w: World, ops: seq<Op>, i: nat)
    requires i < |ops| && (ops[i].Read? || ops[i].Commit?)
    ensures Run(h, Conn(w, None), ops[..i + 1]) == Conn(InOrderWorld(h, w, AllRequests(ops[..i])), None)
  {
    hide InOrderWorld, OneNsRemoval, Step, View;
    RunInOrder(h, w, ops[..i]);
    StepInOrder(h, Run(h, Conn(w, None), ops[..i]), ops[i]);
    assert ops[..i + 1][..i] == ops[..i];
  }

  // ---- The connection object ----

  class CMarmottaSailConnection {
    const server: LevelDBPersistence
    /** The requests pushed to the open stream; None is a null observer. */
    var updateRequestObserver: Option<seq<Request>>
    /** Base-class transaction state. */
    var active: bool

    ghost predicate Valid()
      reads this, server
    {
      server.Valid() && (updateRequestObserver.Some? ==> active)
    }

    ghost function State(): (r: Conn<World>)
      reads this, server
    {
      Conn(World(server.spoc, server.Ns()), updateRequestObserver)
    }

    constructor (server: LevelDBPersistence)
      requires server.Valid()
      ensures Valid() && this.server == server && State() == Conn(World(server.spoc, server.Ns()), None) && !active
    {
      hide Consistent, WellKeyed;
      this.server := server;
      updateRequestObserver := None;
      active := false;
    }

    method EnsureTransaction()
      requires Valid() && active
      modifies this`updateRequestObserver
      ensures Valid() && updateRequestObserver == Some(old(Sent(State())))
    {
      hide Consistent, WellKeyed, Batched, BatchedNs;
      if updateRequestObserver.None? { updateRequestObserver := Some([]); }
    }

    method CommitInternal()
      requires Valid()
      modifies this`updateRequestObserver, server
      ensures Valid() && State() == Flush(server.h, old(State()))
    {
      hide Consistent, WellKeyed, Batched, BatchedNs;
      if updateRequestObserver.Some? {
        var _ := server.Update(updateRequestObserver.value);
        updateRequestObserver := None;
      }
    }

    /** Before every query and every removal. */
    method CommitForQuery()
      requires Valid()
      modifies this`updateRequestObserver, server
      ensures Valid() && State() == Step(server.h, old(State()), Read)
    {
      hide Consistent, WellKeyed, Batched, BatchedNs;
      if active { CommitInternal(); }
    }

    method Push(reqs: seq<Request>)
      requires Valid() && updateRequestObserver.Some?
      modifies this`updateRequestObserver
      ensures Valid() && updateRequestObserver == Some(old(updateRequestObserver.value) + reqs)
    {
      hide Consistent, WellKeyed, Batched, BatchedNs;
      ghost var sent := updateRequestObserver.value;
      assert sent + reqs[..0] == sent;
      for i := 0 to |reqs|
        invariant Valid() && updateRequestObserver == Some(sent + reqs[..i])
      {
        assert sent + reqs[..i + 1] == sent + reqs[..i] + [reqs[i]];
        updateRequestObserver := Some(updateRequestObserver.value + [reqs[i]]);
      }
      assert reqs[..|reqs|] == reqs;
    }

    method AddStatement(s: Resource, p: URI, o: Value, contexts: seq<Option<Resource>>)
      requires Valid() && active
      modifies this`updateRequestObserver
      ensures Valid() && State() == Step(server.h, old(State()), Add(s, p, o, contexts))
    {
      hide Consistent, WellKeyed, Batched, BatchedNs;
      EnsureTransaction();
      if |contexts| > 0 {
        Push(AddRequests(s, p, o, contexts));
      } else {
        Push([StmtAdded(Statement(Some(s), Some(p), Some(o), None))]);
        assert AddRequests(s, p, o, [None]) == [StmtAdded(Statement(Some(s), Some(p), Some(o), None))];
      }
    }

    method RemoveStatements(s: Option<Resource>, p: Option<URI>, o: Option<Value>, contexts: seq<Option<Resource>>)
      requires Valid() && active
      modifies this`updateRequestObserver, server
      ensures Valid() && State() == Step(server.h, old(State()), Remove(s, p, o, contexts))
    {
      hide Consistent, WellKeyed, Batched, BatchedNs;
      CommitForQuery();
      EnsureTransaction();
      if |contexts| > 0 {
        Push(RemoveRequests(s, p, o, contexts));
      } else {
        Push([StmtRemoved(Statement(s, p, o, None))]);
        assert RemoveRequests(s, p, o, [None]) == [StmtRemoved(Statement(s, p, o, None))];
      }
      assert updateRequestObserver.value == Requests(Remove(s, p, o, contexts));
    }

    method ClearStatements(contexts: seq<Option<Resource>>)
      requires Valid() && active
      modifies this`updateRequestObserver, server
      ensures Valid() && State() == Step(server.h, old(State()), Clear(contexts))
    {
      hide Consistent, WellKeyed, Batched, BatchedNs;
      RemoveStatements(None, None, None, contexts);
    }

    method SetNamespaceUri(prefix: Bytes, name: Bytes)
      requires Valid() && active
      modifies this`updateRequestObserver
      ensures Valid() && State() == Step(server.h, old(State()), SetNamespace(prefix, name))
    {
      hide Consistent, WellKeyed, Batched, BatchedNs;
      EnsureTransaction();
      Push([NsAdded(Namespace(prefix, name))]);
    }

    method RemoveNamespaceOf(prefix: Bytes)
      requires Valid() && active
      modifies this`updateRequestObserver, server
      ensures Valid() && State() == Step(server.h, old(State()), RemoveNamespace(prefix))
    {
      hide Consistent, WellKeyed, Batched, BatchedNs;
      CommitForQuery();
      EnsureTransaction();
      Push([NsRemoved(Namespace(prefix, []))]);
      assert updateRequestObserver.value == Requests(RemoveNamespace(prefix));
    }

    method ClearAllNamespaces()
      requires Valid() && active
      modifies this`updateRequestObserver, server
      ensures Valid() && State() == Step(server.h, old(State()), ClearNamespaces)
    {
      hide Consistent, WellKeyed, Batched, BatchedNs;
      CommitForQuery();
      EnsureTransaction();
      Push([NsRemoved(Namespace([], []))]);
      assert updateRequestObserver.value == Requests(ClearNamespaces);
    }
  }
}
