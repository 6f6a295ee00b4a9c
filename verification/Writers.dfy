/** The writer threads (persistence/leveldb_persistence.cc:397-413, 484-500, 530-552):
    Update commits its six batches from six threads, AddStatements and RemoveStatements their
    four statement batches from four, so the commits of concurrent operations interleave
    arbitrarily. An operation without namespace threads is one whose namespace batches are
    empty. */
module Writers {
  import opened Bytes
  import opened Rdf
  import opened Keys
  import opened LevelDb
  import opened Updates
  import opened Namespaces
  import opened Indexes
  import opened Schedules

  /** The six databases. */
  datatype Database = Statements(ix: IndexType) | NsPrefix | NsUri

  const DATABASES := {Statements(SPOC), Statements(CSPO), Statements(OPSC), Statements(PCOS), NsPrefix, NsUri}

  datatype Disk = Disk(st: Store, ns: NsStore)

  /** What an operation commits. */
  datatype Operation = Operation(stmts: Batches, prefix: Batch<Bytes, Namespace>, url: Batch<Bytes, Namespace>)

  function BatchOf(b: Batches, ix: IndexType): (r: Batch<Key, Statement>) {
    match ix case SPOC => b.spoc case CSPO => b.cspo case OPSC => b.opsc case PCOS => b.pcos
  }

  function WriteIndex(st: Store, b: Batches, ix: IndexType): (r: Store) {
    match ix
    case SPOC => st.(spoc := Commit(st.spoc, b.spoc))
    case CSPO => st.(cspo := Commit(st.cspo, b.cspo))
    case OPSC => st.(opsc := Commit(st.opsc, b.opsc))
    case PCOS => st.(pcos := Commit(st.pcos, b.pcos))
  }

  /** One thread's commit. */
  function WriteTo(d: Disk, op: Operation, db: Database): (r: Disk) {
    match db
    case Statements(ix) => d.(st := WriteIndex(d.st, op.stmts, ix))
    case NsPrefix => d.(ns := d.ns.(prefix := Commit(d.ns.prefix, op.prefix)))
    case NsUri => d.(ns := d.ns.(url := Commit(d.ns.url, op.url)))
  }

  function Execute(d: Disk, ops: seq<Operation>, s: seq<Job<Database>>): (r: Disk)
    requires Runs(|ops|, s)
  {
    if s == [] then d
    else
      var last := s[|s| - 1];
      WriteTo(Execute(d, ops, s[..|s| - 1]), ops[last.op], last.db)
  }

  /** All of an operation's commits. */
  function WriteAll(d: Disk, op: Operation): (r: Disk) {
    Disk(CommitAll(d.st, op.stmts), NsStore(Commit(d.ns.prefix, op.prefix), Commit(d.ns.url, op.url)))
  }

  /** The first `n` operations one after the other, with no concurrency. */
  function InTurn(d: Disk, ops: seq<Operation>, n: nat): (r: Disk)
    requires n <= |ops|
  {
    if n == 0 then d else WriteAll(InTurn(d, ops, n - 1), ops[n - 1])
  }

  function Column(ops: seq<Operation>, ix: IndexType): (r: seq<Batch<Key, Statement>>)
    ensures |r| == |ops|
  {
    seq(|ops|, i requires 0 <= i < |ops| => BatchOf(ops[i].stmts, ix))
  }

  function PrefixColumn(ops: seq<Operation>): (r: seq<Batch<Bytes, Namespace>>)
    ensures |r| == |ops|
  {
    seq(|ops|, i requires 0 <= i < |ops| => ops[i].prefix)
  }

  function UriColumn(ops: seq<Operation>): (r: seq<Batch<Bytes, Namespace>>)
    ensures |r| == |ops|
  {
    seq(|ops|, i requires 0 <= i < |ops| => ops[i].url)
  }

  /** Operations do the same wherever they write the same statement key, prefix or URI. */
  ghost predicate Compatible(ops: seq<Operation>) {
    Agree(Column(ops, SPOC)) && Agree(PrefixColumn(ops)) && Agree(UriColumn(ops))
  }

  /** The statement batches of every operation grew together. */
  ghost predicate WellBuilt(h: HashFn, ops: seq<Operation>) {
    forall i | 0 <= i < |ops| :: InStep(ops[i].stmts) && KeyedWrites(h, ops[i].stmts.spoc)
  }

  // ---- Effects of permuted batches ----

  lemma {:induction false} EffectPermutes<V>(b: Batch<Key, V>, ix: IndexType)
    ensures Effect(PermuteBatch(b, ix)) == Permuted(Effect(b), ix)
  {
    hide Reorder, Restore, Permuted;
    if b == [] {
      var none: map<Key, Option<V>> := map[];
      PermutedSize(none, ix);
    } else {
      var n := |b| - 1;
      EffectPermutes(b[..n], ix);
      assert PermuteBatch(b, ix)[..n] == PermuteBatch(b[..n], ix);
      PermutedPut(Effect(b[..n]), b[n].key, if b[n].Put? then Some(b[n].value) else None, ix);
    }
  }

  lemma EffectIn(b: Batches, ix: IndexType, k: Key)
    requires InStep(b)
    ensures Lookup(Effect(BatchOf(b, ix)), k) == Lookup(Effect(b.spoc), Restore(k, ix))
  {
    hide Reorder, PermuteBatch, Effect;
    if ix != SPOC {
      EffectPermutes(b.spoc, ix);
    }
  }

  lemma EffectAt(b: Batches, ix: IndexType, k: Key)
    requires InStep(b)
    ensures k in Effect(BatchOf(b, ix)) <==> Restore(k, ix) in Effect(b.spoc)
    ensures k in Effect(BatchOf(b, ix)) ==> Effect(BatchOf(b, ix))[k] == Effect(b.spoc)[Restore(k, ix)]
  {
    hide Effect, Restore, InStep, BatchOf;
    EffectIn(b, ix, k);
  }

  lemma IndexAt(h: HashFn, st: Store, ix: IndexType, k: Key)
    requires Consistent(h, st)
    ensures Lookup(IndexOf(st, ix), k) == Lookup(st.spoc, Restore(k, ix))
  {
    hide Keyed, Restore;
    match ix
    case SPOC => RestoreSpoc(k);
    case CSPO => assert Lookup(Permuted(st.spoc, CSPO), k) == Lookup(st.spoc, Restore(k, CSPO));
    case OPSC => assert Lookup(Permuted(st.spoc, OPSC), k) == Lookup(st.spoc, Restore(k, OPSC));
    case PCOS => assert Lookup(Permuted(st.spoc, PCOS), k) == Lookup(st.spoc, Restore(k, PCOS));
  }

  lemma RestoreSpoc(k: Key)
    ensures Restore(k, SPOC) == k
  {
  }

  /** Operations that agree in the SPOC index agree in all four. */
  lemma ColumnsAgree(h: HashFn, ops: seq<Operation>, ix: IndexType)
    requires WellBuilt(h, ops) && Agree(Column(ops, SPOC))
    ensures Agree(Column(ops, ix))
  {
    hide Effect, Restore, KeyedWrites, InStep;
    var main, col := Column(ops, SPOC), Column(ops, ix);
    forall a, b, k | 0 <= a < |col| && 0 <= b < |col| && k in Effect(col[a]) && k in Effect(col[b])
      ensures Effect(col[a])[k] == Effect(col[b])[k]
    {
      EffectAt(ops[a].stmts, ix, k);
      EffectAt(ops[b].stmts, ix, k);
      assert main[a] == ops[a].stmts.spoc && main[b] == ops[b].stmts.spoc;
    }
  }

  // ---- Schedules, one database at a time ----

  lemma WriteIndexAt(st: Store, b: Batches, jx: IndexType, ix: IndexType)
    ensures IndexOf(WriteIndex(st, b, jx), ix) ==
            if jx == ix then Commit(IndexOf(st, ix), BatchOf(b, ix)) else IndexOf(st, ix)
  {
    hide Commit;
  }

  lemma {:induction false} Projects(d: Disk, ops: seq<Operation>, s: seq<Job<Database>>)
    requires Runs(|ops|, s)
    ensures var r := Execute(d, ops, s);
            && (forall ix :: IndexOf(r.st, ix) == Replay(IndexOf(d.st, ix), Column(ops, ix), s, Statements(ix)))
            && r.ns.prefix == Replay(d.ns.prefix, PrefixColumn(ops), s, NsPrefix)
            && r.ns.url == Replay(d.ns.url, UriColumn(ops), s, NsUri)
  {
    hide Commit, IndexOf, BatchOf, WriteIndex;
    if s != [] {
      var n := |s| - 1;
      Projects(d, ops, s[..n]);
      var before, last := Execute(d, ops, s[..n]), s[n];
      if last.db.Statements? {
        forall ix { WriteIndexAt(before.st, ops[last.op].stmts, last.db.ix, ix); }
      }
    }
  }

  lemma SameStore(st: Store, tt: Store)
    requires forall ix :: IndexOf(st, ix) == IndexOf(tt, ix)
    ensures st == tt
  {
    assert st.spoc == IndexOf(st, SPOC) && st.cspo == IndexOf(st, CSPO) && st.opsc == IndexOf(st, OPSC)
      && st.pcos == IndexOf(st, PCOS);
    assert tt.spoc == IndexOf(tt, SPOC) && tt.cspo == IndexOf(tt, CSPO) && tt.opsc == IndexOf(tt, OPSC)
      && tt.pcos == IndexOf(tt, PCOS);
  }

  lemma StatementsAgree(h: HashFn, d: Disk, ops: seq<Operation>, s: seq<Job<Database>>, t: seq<Job<Database>>)
    requires WellBuilt(h, ops) && Agree(Column(ops, SPOC)) && Complete(|ops|, s) && Complete(|ops|, t)
    ensures Execute(d, ops, s).st == Execute(d, ops, t).st
  {
    hide Execute, Replay, Agree, WellBuilt, IndexOf, Column;
    Projects(d, ops, s);
    Projects(d, ops, t);
    forall ix ensures IndexOf(Execute(d, ops, s).st, ix) == IndexOf(Execute(d, ops, t).st, ix) {
      ColumnsAgree(h, ops, ix);
      ReplaysAgree(IndexOf(d.st, ix), Column(ops, ix), s, t, Statements(ix));
    }
    SameStore(Execute(d, ops, s).st, Execute(d, ops, t).st);
  }

  lemma NamespacesAgree(d: Disk, ops: seq<Operation>, s: seq<Job<Database>>, t: seq<Job<Database>>)
    requires Agree(PrefixColumn(ops)) && Agree(UriColumn(ops)) && Complete(|ops|, s) && Complete(|ops|, t)
    ensures Execute(d, ops, s).ns == Execute(d, ops, t).ns
  {
    hide Execute, Replay, Agree, PrefixColumn, UriColumn;
    Projects(d, ops, s);
    Projects(d, ops, t);
    ReplaysAgree(d.ns.prefix, PrefixColumn(ops), s, t, NsPrefix);
    ReplaysAgree(d.ns.url, UriColumn(ops), s, t, NsUri);
  }

  // ---- The schedule without concurrency ----

  function JobsOf(op: nat): (r: seq<Job<Database>>) {
    [Job(op, Statements(PCOS)), Job(op, Statements(OPSC)), Job(op, Statements(CSPO)), Job(op, Statements(SPOC)),
     Job(op, NsPrefix), Job(op, NsUri)]
  }

  lemma JobsAreAll(op: nat, j: Job<Database>)
    ensures Distinct(JobsOf(op)) && (j in JobsOf(op) <==> j.op == op)
  {
    var s := JobsOf(op);
    assert s[0] == Job(op, Statements(PCOS)) && s[1] == Job(op, Statements(OPSC)) && s[2] == Job(op, Statements(CSPO))
        && s[3] == Job(op, Statements(SPOC)) && s[4] == Job(op, NsPrefix) && s[5] == Job(op, NsUri);
    if j.op == op && j.db.Statements? {
      match j.db.ix case SPOC => case CSPO => case OPSC => case PCOS =>
    }
  }

  function Sequential(n: nat): (s: seq<Job<Database>>) { if n == 0 then [] else Sequential(n - 1) + JobsOf(n - 1) }

  lemma {:induction false} SequentialIsComplete(n: nat)
    ensures Complete(n, Sequential(n))
  {
    hide JobsOf;
    if n > 0 {
      SequentialIsComplete(n - 1);
      var a, b := Sequential(n - 1), JobsOf(n - 1);
      forall j: Job<Database> ensures Distinct(b) && (j in b <==> j.op == n - 1) { JobsAreAll(n - 1, j); }
      forall i | 0 <= i < |a + b| ensures (a + b)[i].op < n {
        if i >= |a| { assert b[i - |a|] in b; }
      }
      forall i, k | 0 <= i < k < |a + b| ensures (a + b)[i] != (a + b)[k] {
        if i < |a| <= k { assert b[k - |a|] in b; }
      }
    }
  }

  lemma ExecuteSnoc(d: Disk, ops: seq<Operation>, s: seq<Job<Database>>, j: Job<Database>)
    requires Runs(|ops|, s) && j.op < |ops|
    ensures Runs(|ops|, s + [j]) && Execute(d, ops, s + [j]) == WriteTo(Execute(d, ops, s), ops[j.op], j.db)
  {
    hide WriteTo;
    assert (s + [j])[..|s|] == s;
  }

  lemma ExecuteJobs(d: Disk, ops: seq<Operation>, s: seq<Job<Database>>, op: nat)
    requires Runs(|ops|, s) && op < |ops|
    ensures Runs(|ops|, s + JobsOf(op)) && Execute(d, ops, s + JobsOf(op)) == WriteAll(Execute(d, ops, s), ops[op])
  {
    hide Execute, Runs, Commit;
    var js := JobsOf(op);
    var s1, s2, s3, s4, s5 := s + [js[0]], s + [js[0]] + [js[1]], s + [js[0]] + [js[1]] + [js[2]],
      s + [js[0]] + [js[1]] + [js[2]] + [js[3]], s + [js[0]] + [js[1]] + [js[2]] + [js[3]] + [js[4]];
    ExecuteSnoc(d, ops, s, js[0]);
    ExecuteSnoc(d, ops, s1, js[1]);
    ExecuteSnoc(d, ops, s2, js[2]);
    ExecuteSnoc(d, ops, s3, js[3]);
    ExecuteSnoc(d, ops, s4, js[4]);
    ExecuteSnoc(d, ops, s5, js[5]);
    assert s + js == s5 + [js[5]];
  }

  lemma {:induction false} SequentialIsInTurn(d: Disk, ops: seq<Operation>, n: nat)
    requires n <= |ops|
    ensures Runs(|ops|, Sequential(n)) && Execute(d, ops, Sequential(n)) == InTurn(d, ops, n)
  {
    hide Execute, WriteAll, JobsOf;
    if n == 0 {
      NoJobs(d, ops);
    } else {
      SequentialIsInTurn(d, ops, n - 1);
      ExecuteJobs(d, ops, Sequential(n - 1), n - 1);
    }
  }

  lemma NoJobs(d: Disk, ops: seq<Operation>)
    ensures Runs<Database>(|ops|, []) && Execute(d, ops, []) == d
  {
  }

  lemma {:induction false} InTurnKeepsConsistent(h: HashFn, d: Disk, ops: seq<Operation>, n: nat)
    requires Consistent(h, d.st) && WellBuilt(h, ops) && n <= |ops|
    ensures Consistent(h, InTurn(d, ops, n).st)
  {
    hide Consistent, InStep, KeyedWrites, CommitAll;
    if n > 0 {
      InTurnKeepsConsistent(h, d, ops, n - 1);
      CommitKeepsConsistent(h, InTurn(d, ops, n - 1).st, ops[n - 1].stmts);
    }
  }

  // ---- What concurrent operations do ----

  /** Operations that agree on statements leave the four indexes consistent under every
      schedule: what they leave is what they leave one after the other. */
  lemma ScheduleKeepsConsistent(h: HashFn, d: Disk, ops: seq<Operation>, s: seq<Job<Database>>)
    requires Consistent(h, d.st) && WellBuilt(h, ops) && Agree(Column(ops, SPOC)) && Complete(|ops|, s)
    ensures Consistent(h, Execute(d, ops, s).st) && Execute(d, ops, s).st == InTurn(d, ops, |ops|).st
  {
    hide Consistent, WellBuilt, Agree, Execute, InTurn, Complete, Sequential;
    SequentialIsComplete(|ops|);
    SequentialIsInTurn(d, ops, |ops|);
    StatementsAgree(h, d, ops, s, Sequential(|ops|));
    InTurnKeepsConsistent(h, d, ops, |ops|);
  }

  /** A schedule after which the SPOC index shows operation `a` and the CSPO index operation
      `b`, wherever both wrote. */
  lemma CrossedSchedule(d: Disk, ops: seq<Operation>, a: nat, b: nat, k: Key) returns (s: seq<Job<Database>>)
    requires a < |ops| && b < |ops| && InStep(ops[b].stmts)
    requires k in Effect(ops[a].stmts.spoc) && k in Effect(ops[b].stmts.spoc)
    ensures Complete(|ops|, s)
    ensures var r := Execute(d, ops, s).st;
            && Lookup(r.spoc, k) == Effect(ops[a].stmts.spoc)[k]
            && Lookup(r.cspo, Reorder(k, CSPO)) == Effect(ops[b].stmts.spoc)[k]
  {
    hide Effect, Reorder, Restore, InStep, Execute, Replay;
    AllDatabases();
    s := EndingWith(|ops|, DATABASES, Job(a, Statements(SPOC)), Job(b, Statements(CSPO)));
    var c, r := Reorder(k, CSPO), Execute(d, ops, s).st;
    ReorderRoundTrip(k, CSPO);
    EffectAt(ops[b].stmts, CSPO, c);
    Projects(d, ops, s);
    LastJobDecides(d.st.spoc, Column(ops, SPOC), s, |s| - 2, Statements(SPOC), k);
    LastJobDecides(d.st.cspo, Column(ops, CSPO), s, |s| - 1, Statements(CSPO), c);
    assert r.spoc == IndexOf(r, SPOC) && r.cspo == IndexOf(r, CSPO);
  }

  lemma AllDatabases()
    ensures forall db: Database :: db in DATABASES
  {
    forall db: Database ensures db in DATABASES {
      if db.Statements? {
        match db.ix case SPOC => case CSPO => case OPSC => case PCOS =>
      }
    }
  }

  /** Any number of concurrent operations leave the indexes consistent under every
      interleaving of their commits if and only if they do the same wherever they write the
      same statement key. */
  lemma ConcurrentOperations(h: HashFn, d: Disk, ops: seq<Operation>)
    requires Consistent(h, d.st) && WellBuilt(h, ops)
    ensures (forall s | Complete(|ops|, s) :: Consistent(h, Execute(d, ops, s).st)) <==> Agree(Column(ops, SPOC))
  {
    hide Agree, Column, Execute, WellBuilt, Distinct, Runs, Consistent;
    if Agree(Column(ops, SPOC)) {
      forall s | Complete(|ops|, s) ensures Consistent(h, Execute(d, ops, s).st) {
        ScheduleKeepsConsistent(h, d, ops, s);
      }
    } else {
      var s := InconsistentSchedule(h, d, ops);
    }
  }

  lemma InconsistentSchedule(h: HashFn, d: Disk, ops: seq<Operation>) returns (s: seq<Job<Database>>)
    requires WellBuilt(h, ops) && !Agree(Column(ops, SPOC))
    ensures Complete(|ops|, s) && !Consistent(h, Execute(d, ops, s).st)
  {
    hide Effect, Execute, InStep, KeyedWrites, Distinct, Consistent, Reorder, Restore;
    var a, b, k := Conflict(ops);
    s := CrossedSchedule(d, ops, a, b, k);
    var r := Execute(d, ops, s).st;
    if Consistent(h, r) {
      IndexAt(h, r, CSPO, Reorder(k, CSPO));
      ReorderRoundTrip(k, CSPO);
    }
  }

  /** The operation that makes the statement writes `b`, in all four indexes. */
  function StatementWrites(b: Batch<Key, Statement>): (op: Operation) { Operation(Extended(NO_WRITES, b), [], []) }

  /** Adding a statement in one operation and removing it in another is such a conflict, on
      every disk. */
  lemma AddRacesRemove(h: HashFn, d: Disk, x: Statement) returns (s: seq<Job<Database>>)
    ensures var ops := [StatementWrites([Put(KeyOf(h, x), x)]), StatementWrites([Delete(KeyOf(h, x))])];
            WellBuilt(h, ops) && Complete(2, s) && !Consistent(h, Execute(d, ops, s).st)
  {
    hide KeyOf, Execute, Consistent, PermuteBatch;
    var k := KeyOf(h, x);
    var add, del: Batch<Key, Statement> := [Put(k, x)], [Delete(k)];
    var ops := [StatementWrites(add), StatementWrites(del)];
    assert InStep(NO_WRITES) by { NoWritesInStep(); }
    ExtendedInStep(NO_WRITES, add);
    ExtendedInStep(NO_WRITES, del);
    var col := Column(ops, SPOC);
    assert col[0] == [] + add == add && col[1] == [] + del == del;
    EffectSnoc([], Put(k, x));
    EffectSnoc<Key, Statement>([], Delete(k));
    assert [] + add == add && [] + del == del;
    assert k in Effect(col[0]) && k in Effect(col[1]) && Effect(col[0])[k] != Effect(col[1])[k];
    s := InconsistentSchedule(h, d, ops);
  }

  lemma NoWritesInStep()
    ensures InStep(NO_WRITES)
  {
  }

  lemma Conflict(ops: seq<Operation>) returns (a: nat, b: nat, k: Key)
    requires !Agree(Column(ops, SPOC))
    ensures a < |ops| && b < |ops| && k in Effect(ops[a].stmts.spoc) && k in Effect(ops[b].stmts.spoc)
    ensures Effect(ops[a].stmts.spoc)[k] != Effect(ops[b].stmts.spoc)[k]
  {
    hide Effect;
    var col := Column(ops, SPOC);
    var i, j, x :| 0 <= i < |col| && 0 <= j < |col| && x in Effect(col[i]) && x in Effect(col[j])
      && Effect(col[i])[x] != Effect(col[j])[x];
    a, b, k := i, j, x;
  }

  /** All six databases: concurrent operations leave what they leave one after the other,
      under every interleaving, if and only if they are compatible. */
  lemma Serialisable(h: HashFn, d: Disk, ops: seq<Operation>)
    requires WellBuilt(h, ops)
    ensures (forall s | Complete(|ops|, s) :: Execute(d, ops, s) == InTurn(d, ops, |ops|)) <==> Compatible(ops)
  {
    hide WellBuilt, Agree, Execute, InTurn, Distinct, Runs, Sequential, Column, PrefixColumn, UriColumn;
    SequentialIsComplete(|ops|);
    SequentialIsInTurn(d, ops, |ops|);
    if Compatible(ops) {
      forall s | Complete(|ops|, s) ensures Execute(d, ops, s) == InTurn(d, ops, |ops|) {
        StatementsAgree(h, d, ops, s, Sequential(|ops|));
        NamespacesAgree(d, ops, s, Sequential(|ops|));
      }
    } else {
      var s, t := Conflicting(d, ops);
      assert Execute(d, ops, s) != Execute(d, ops, t);
    }
  }

  lemma Conflicting(d: Disk, ops: seq<Operation>) returns (s: seq<Job<Database>>, t: seq<Job<Database>>)
    requires !Compatible(ops)
    ensures Complete(|ops|, s) && Complete(|ops|, t) && Execute(d, ops, s) != Execute(d, ops, t)
  {
    hide Agree, Execute, Replay, Column, PrefixColumn, UriColumn;
    AllDatabases();
    if !Agree(Column(ops, SPOC)) {
      s, t := Disagreement(d.st.spoc, Column(ops, SPOC), DATABASES, Statements(SPOC));
      assert IndexOf(d.st, SPOC) == d.st.spoc;
    } else if !Agree(PrefixColumn(ops)) {
      s, t := Disagreement(d.ns.prefix, PrefixColumn(ops), DATABASES, NsPrefix);
    } else {
      s, t := Disagreement(d.ns.url, UriColumn(ops), DATABASES, NsUri);
    }
    Projects(d, ops, s);
    Projects(d, ops, t);
  }

  /** One operation alone: every order of its threads is the sequential commit. */
  lemma OneOperation(h: HashFn, d: Disk, op: Operation, s: seq<Job<Database>>)
    requires WellBuilt(h, [op]) && Complete(1, s)
    ensures Execute(d, [op], s) == WriteAll(d, op)
  {
    hide WellBuilt, Execute, Effect, WriteAll, Complete;
    assert Compatible([op]);
    Serialisable(h, d, [op]);
    assert InTurn(d, [op], 0) == d;
  }

  /** So an update stream leaves what the sequential commit of its batches leaves, whatever
      order its six threads run in. */
  lemma UpdateUnderThreads(h: HashFn, d: Disk, reqs: seq<Request>, op: Operation, s: seq<Job<Database>>)
    requires Consistent(h, d.st) && WellBuilt(h, [op]) && Complete(1, s)
    requires Effect(op.stmts.spoc) == PendingQuads(h, d.st.spoc, reqs)
    requires NsPending(Effect(op.prefix), Effect(op.url)) == PendingNs(d.ns, reqs)
    ensures var r := Execute(d, [op], s);
            Consistent(h, r.st) && r.st.spoc == Batched(h, d.st.spoc, reqs) && r.ns == BatchedNs(d.ns, reqs)
  {
    hide Consistent, InStep, KeyedWrites, Commit, Effect, Overlay, Execute, Complete, PendingQuads, PendingNs;
    OneOperation(h, d, op, s);
    assert InStep([op][0].stmts) && KeyedWrites(h, [op][0].stmts.spoc);
    CommitKeepsConsistent(h, d.st, op.stmts);
    LastWriteWins(d.ns.prefix, op.prefix);
    LastWriteWins(d.ns.url, op.url);
  }

  /** Whatever concurrent operations do, and even before all of them are done, each namespace
      sits under its own prefix and its own URI. */
  lemma {:induction false} ScheduleKeepsWellKeyed(d: Disk, ops: seq<Operation>, s: seq<Job<Database>>)
    requires WellKeyed(d.ns) && Runs(|ops|, s)
    requires forall i | 0 <= i < |ops| :: KeyedPending(NsPending(Effect(ops[i].prefix), Effect(ops[i].url)))
    ensures WellKeyed(Execute(d, ops, s).ns)
  {
    hide Effect, Commit, WriteIndex;
    if s != [] {
      var n := |s| - 1;
      ScheduleKeepsWellKeyed(d, ops, s[..n]);
      var before, op := Execute(d, ops, s[..n]).ns, ops[s[n].op];
      LastWriteWins(before.prefix, op.prefix);
      LastWriteWins(before.url, op.url);
      WellKeyedOverlay(before, NsPending(Effect(op.prefix), Effect(op.url)));
    }
  }

  lemma WellKeyedOverlay(n: NsStore, e: NsPending)
    requires WellKeyed(n) && KeyedPending(e)
    ensures WellKeyed(NsStore(Overlay(n.prefix, e.prefix), n.url))
    ensures WellKeyed(NsStore(n.prefix, Overlay(n.url, e.url)))
  {
  }
}
