/** Whole operations side by side (persistence/leveldb_persistence.cc:386-421, 473-562). An
    operation first collects its batches, request by request, each removal reading the
    databases as it finds them while the threads of other operations are still writing; then
    it starts its own threads. A run interleaves the reads and the commits of any number of
    operations. */
module Concurrency {
  import opened Bytes
  import opened Rdf
  import opened Keys
  import opened LevelDb
  import opened Updates
  import opened Namespaces
  import opened Indexes
  import opened Persistence
  import opened Worlds
  import opened Shards
  import opened Schedules
  import opened Writers

  /** Operation `op` collects a request, having read `scanned` or `found` if it is a removal;
      or one of its threads commits. */
  datatype Event =
    | Collects(op: nat, r: Request, scanned: seq<Statement>, found: seq<Namespace>)
    | Commits(job: Job<Database>)

  datatype System = System(disk: Disk, ops: seq<Operation>, done: seq<Job<Database>>)

  const NOTHING := Operation(NO_WRITES, [], [])

  function Started(d: Disk, n: nat): (s: System) { System(d, seq(n, i => NOTHING), []) }

  function DeletesOf(ns: seq<Namespace>, d: Side): (b: Batch<Bytes, Namespace>)
    ensures forall i | 0 <= i < |b| :: b[i].Delete?
  {
    seq(|ns|, i requires 0 <= i < |ns| => Delete(Name(ns[i], d)))
  }

  function Collected(h: HashFn, op: Operation, r: Request, scanned: seq<Statement>, found: seq<Namespace>)
    : (op': Operation)
  {
    match r
    case StmtAdded(s) => op.(stmts := Extended(op.stmts, [Put(KeyOf(h, s), s)]))
    case StmtRemoved(_) => op.(stmts := Extended(op.stmts, DeleteAll(KeysOf(h, scanned))))
    case NsAdded(ns) => op.(prefix := op.prefix + [Put(ns.prefix, ns)], url := op.url + [Put(ns.uri, ns)])
    case NsRemoved(_) => op.(prefix := op.prefix + DeletesOf(found, ByPrefix), url := op.url + DeletesOf(found, ByUri))
    case NoRequest => op
  }

  /** An operation reads only before its threads start, and reads what is there. */
  ghost predicate Enabled(h: HashFn, s: System, e: Event) {
    match e
    case Collects(i, r, scanned, found) =>
      && i < |s.ops| && (forall j | 0 <= j < |s.done| :: s.done[j].op != i)
      && (r.StmtRemoved? ==> Scanned(h, s.disk.st, r.pattern, scanned))
      && (r.NsRemoved? ==> Distinct(found) && forall ns :: ns in found <==> ns in Found(s.disk.ns, r.nsPattern))
    case Commits(job) => job.op < |s.ops| && job !in s.done
  }

  function Next(h: HashFn, s: System, e: Event): (s': System)
    requires if e.Collects? then e.op < |s.ops| else e.job.op < |s.ops|
    ensures |s'.ops| == |s.ops|
  {
    match e
    case Collects(i, r, scanned, found) => s.(ops := s.ops[i := Collected(h, s.ops[i], r, scanned, found)])
    case Commits(job) => s.(disk := WriteTo(s.disk, s.ops[job.op], job.db), done := s.done + [job])
  }

  ghost predicate Legal(h: HashFn, d: Disk, n: nat, run: seq<Event>)
    decreases |run|, 0
  {
    run == [] ||
    (Legal(h, d, n, run[..|run| - 1]) && Enabled(h, After(h, d, n, run[..|run| - 1]), run[|run| - 1]))
  }

  ghost function After(h: HashFn, d: Disk, n: nat, run: seq<Event>): (s: System)
    requires Legal(h, d, n, run)
    ensures |s.ops| == n
    decreases |run|, 1
  {
    if run == [] then Started(d, n) else Next(h, After(h, d, n, run[..|run| - 1]), run[|run| - 1])
  }

  // ---- Every run is a schedule of well-built batches ----

  ghost predicate NsBuilt(op: Operation) { KeyedPending(NsPending(Effect(op.prefix), Effect(op.url))) }

  /** The disk is what the commits so far leave, with the batches as they are now. */
  ghost predicate Invariant(h: HashFn, d: Disk, s: System) {
    && Runs(|s.ops|, s.done) && Distinct(s.done)
    && s.disk == Execute(d, s.ops, s.done)
    && WellBuilt(h, s.ops)
    && forall i | 0 <= i < |s.ops| :: NsBuilt(s.ops[i])
  }

  lemma {:induction false} OthersUntouched(d: Disk, ops: seq<Operation>, i: nat, op: Operation, s: seq<Job<Database>>)
    requires Runs(|ops|, s) && i < |ops| && forall j | 0 <= j < |s| :: s[j].op != i
    ensures Execute(d, ops[i := op], s) == Execute(d, ops, s)
  {
    hide WriteTo;
    if s != [] { OthersUntouched(d, ops, i, op, s[..|s| - 1]); }
  }

  lemma {:induction false} EffectOfDeletes<K(!new), V>(b: Batch<K, V>)
    requires forall i | 0 <= i < |b| :: b[i].Delete?
    ensures forall k | k in Effect(b) :: Effect(b)[k].None?
  {
    if b != [] { EffectOfDeletes(b[..|b| - 1]); }
  }

  lemma CollectedStatements(h: HashFn, op: Operation, r: Request, scanned: seq<Statement>, found: seq<Namespace>)
    requires InStep(op.stmts) && KeyedWrites(h, op.stmts.spoc)
    ensures var op' := Collected(h, op, r, scanned, found); InStep(op'.stmts) && KeyedWrites(h, op'.stmts.spoc)
  {
    hide KeyOf, InStep, PermuteBatch;
    match r
    case StmtAdded(s) => ExtendedInStep(op.stmts, [Put(KeyOf(h, s), s)]);
    case StmtRemoved(_) => ExtendedInStep(op.stmts, DeleteAll(KeysOf(h, scanned)));
    case _ =>
  }

  lemma CollectedNamespaces(h: HashFn, op: Operation, r: Request, scanned: seq<Statement>, found: seq<Namespace>)
    requires NsBuilt(op)
    ensures NsBuilt(Collected(h, op, r, scanned, found))
  {
    hide Effect, KeyOf, Extended;
    match r
    case NsAdded(ns) =>
      EffectSnoc(op.prefix, Put(ns.prefix, ns));
      EffectSnoc(op.url, Put(ns.uri, ns));
    case NsRemoved(_) =>
      EffectAppend(op.prefix, DeletesOf(found, ByPrefix));
      EffectAppend(op.url, DeletesOf(found, ByUri));
      EffectOfDeletes(DeletesOf(found, ByPrefix));
      EffectOfDeletes(DeletesOf(found, ByUri));
    case _ =>
  }

  lemma StepKeeps(h: HashFn, d: Disk, s: System, e: Event)
    requires Invariant(h, d, s) && Enabled(h, s, e)
    ensures Invariant(h, d, Next(h, s, e))
  {
    hide Execute, WriteTo, InStep, KeyedWrites, NsBuilt, Collected, Scanned, Found;
    match e
    case Collects(i, r, scanned, found) =>
      var op := Collected(h, s.ops[i], r, scanned, found);
      OthersUntouched(d, s.ops, i, op, s.done);
      CollectedStatements(h, s.ops[i], r, scanned, found);
      CollectedNamespaces(h, s.ops[i], r, scanned, found);
    case Commits(job) => ExecuteSnoc(d, s.ops, s.done, job);
  }

  /** Every run, whatever the operations read and when, is a schedule of well-built batches. */
  lemma {:induction false} RunIsSchedule(h: HashFn, d: Disk, n: nat, run: seq<Event>)
    requires Legal(h, d, n, run)
    ensures Invariant(h, d, After(h, d, n, run))
  {
    if run == [] {
      NoJobs(d, Started(d, n).ops);
    } else {
      hide Invariant, Next, Enabled;
      RunIsSchedule(h, d, n, run[..|run| - 1]);
      StepKeeps(h, d, After(h, d, n, run[..|run| - 1]), run[|run| - 1]);
    }
  }

  /** At every point of every run each namespace sits under its own prefix and URI; and when
      all threads are done the indexes are consistent, and as if the operations had committed
      one after the other, provided the batches agree on the statement keys they share. */
  lemma ConcurrentRun(h: HashFn, d: Disk, n: nat, run: seq<Event>)
    requires Legal(h, d, n, run) && Consistent(h, d.st) && WellKeyed(d.ns)
    ensures var s := After(h, d, n, run);
            && WellKeyed(s.disk.ns)
            && (Complete(n, s.done) && Agree(Column(s.ops, SPOC)) ==>
                Consistent(h, s.disk.st) && s.disk.st == InTurn(d, s.ops, n).st)
  {
    hide Legal, After, Consistent, WellKeyed, WellBuilt, Complete, Agree, Execute, InTurn;
    RunIsSchedule(h, d, n, run);
    var s := After(h, d, n, run);
    ScheduleKeepsWellKeyed(d, s.ops, s.done);
    if Complete(n, s.done) && Agree(Column(s.ops, SPOC)) { ScheduleKeepsConsistent(h, d, s.ops, s.done); }
  }

  // ---- What an operation collects ----

  function SetOf<T>(s: seq<T>): (r: set<T>) { set x | x in s }

  /** The requests operation `i` collects in the run. */
  function Requested(run: seq<Event>, i: nat): (r: seq<Request>) {
    if run == [] then []
    else
      var e, before := run[|run| - 1], Requested(run[..|run| - 1], i);
      if e.Collects? && e.op == i then before + [e.r] else before
  }

  /** The net effect of a statement batch, from the requests and what the removals read. */
  function Recorded(h: HashFn, run: seq<Event>, i: nat): (e: Pending) {
    if run == [] then map[]
    else
      var e, before := run[|run| - 1], Recorded(h, run[..|run| - 1], i);
      if !(e.Collects? && e.op == i) then before
      else
        match e.r
        case StmtAdded(s) => before[KeyOf(h, s) := Some(s)]
        case StmtRemoved(_) => before + Deletions(set x | x in e.scanned :: KeyOf(h, x))
        case _ => before
  }

  function RecordedNs(run: seq<Event>, i: nat): (e: NsPending) {
    if run == [] then NsPending(map[], map[])
    else
      var e, before := run[|run| - 1], RecordedNs(run[..|run| - 1], i);
      if !(e.Collects? && e.op == i) then before
      else
        match e.r
        case NsAdded(ns) => NsPending(before.prefix[ns.prefix := Some(ns)], before.url[ns.uri := Some(ns)])
        case NsRemoved(_) =>
          var found := SetOf(e.found);
          NsPending(before.prefix + Deletions(Prefixes(found)), before.url + Deletions(Uris(found)))
        case _ => before
  }

  lemma NamesSnoc(ns: seq<Namespace>, x: Namespace, d: Side)
    ensures Names(SetOf(ns + [x]), d) == Names(SetOf(ns), d) + {Name(x, d)}
  {
    assert SetOf(ns + [x]) == SetOf(ns) + {x};
    hide SetOf;
  }

  lemma {:induction false} DeletesEffect(ns: seq<Namespace>, d: Side)
    ensures Effect(DeletesOf(ns, d)) == Deletions(Names(SetOf(ns), d))
  {
    var b := DeletesOf(ns, d);
    if ns == [] {
      assert Names(SetOf(ns), d) == {};
    } else {
      hide Names, SetOf;
      var n := |ns| - 1;
      DeletesEffect(ns[..n], d);
      assert b[..n] == DeletesOf(ns[..n], d);
      assert ns == ns[..n] + [ns[n]];
      NamesSnoc(ns[..n], ns[n], d);
    }
  }

  lemma CollectedEffect(h: HashFn, op: Operation, r: Request, scanned: seq<Statement>, found: seq<Namespace>)
    ensures var op', e := Collected(h, op, r, scanned, found), Effect(op.stmts.spoc);
            Effect(op'.stmts.spoc) ==
            match r
            case StmtAdded(s) => e[KeyOf(h, s) := Some(s)]
            case StmtRemoved(_) => e + Deletions(set x | x in scanned :: KeyOf(h, x))
            case _ => e
  {
    hide KeyOf, Effect, PermuteBatch, Deletions;
    match r
    case StmtAdded(s) => EffectSnoc(op.stmts.spoc, Put(KeyOf(h, s), s));
    case StmtRemoved(_) =>
      var ks := KeysOf(h, scanned);
      forall k ensures k in ks <==> k in set x | x in scanned :: KeyOf(h, x) { KeysOfSet(h, scanned, k); }
      DeleteAllEffect(ks, set x | x in scanned :: KeyOf(h, x));
      EffectAppend(op.stmts.spoc, DeleteAll(ks));
    case _ =>
  }

  lemma CollectedNsEffect(h: HashFn, op: Operation, r: Request, scanned: seq<Statement>, found: seq<Namespace>)
    ensures var op', e := Collected(h, op, r, scanned, found), NsPending(Effect(op.prefix), Effect(op.url));
            NsPending(Effect(op'.prefix), Effect(op'.url)) ==
            match r
            case NsAdded(ns) => NsPending(e.prefix[ns.prefix := Some(ns)], e.url[ns.uri := Some(ns)])
            case NsRemoved(_) =>
              var ns := SetOf(found);
              NsPending(e.prefix + Deletions(Prefixes(ns)), e.url + Deletions(Uris(ns)))
            case _ => e
  {
    hide KeyOf, Effect, Extended, Deletions;
    match r
    case NsAdded(ns) =>
      EffectSnoc(op.prefix, Put(ns.prefix, ns));
      EffectSnoc(op.url, Put(ns.uri, ns));
    case NsRemoved(_) =>
      EffectAppend(op.prefix, DeletesOf(found, ByPrefix));
      EffectAppend(op.url, DeletesOf(found, ByUri));
      DeletesEffect(found, ByPrefix);
      DeletesEffect(found, ByUri);
    case _ =>
  }

  /** In every run, an operation's batches have the effect of the requests it collected,
      removals deleting what they read. */
  lemma {:induction false} EffectsRecorded(h: HashFn, d: Disk, n: nat, run: seq<Event>, i: nat)
    requires Legal(h, d, n, run) && i < n
    ensures var op := After(h, d, n, run).ops[i];
            && Effect(op.stmts.spoc) == Recorded(h, run, i)
            && NsPending(Effect(op.prefix), Effect(op.url)) == RecordedNs(run, i)
  {
    if run != [] {
      hide KeyOf, Effect, WriteTo, Collected, Deletions, Prefixes, Uris, Scanned, Found;
      var m := |run| - 1;
      var before, e := After(h, d, n, run[..m]), run[m];
      EffectsRecorded(h, d, n, run[..m], i);
      if e.Collects? && e.op == i {
        CollectedEffect(h, before.ops[i], e.r, e.scanned, e.found);
        CollectedNsEffect(h, before.ops[i], e.r, e.scanned, e.found);
      }
    }
  }

  /** Whenever operation `i` reads, the disk is `disk`. */
  ghost predicate ReadsFrom(h: HashFn, d: Disk, n: nat, run: seq<Event>, i: nat, disk: Disk)
    requires Legal(h, d, n, run)
  {
    run == [] ||
    var m := |run| - 1;
    && ReadsFrom(h, d, n, run[..m], i, disk)
    && (run[m].Collects? && run[m].op == i ==> After(h, d, n, run[..m]).disk == disk)
  }

  lemma KeysOfSet(h: HashFn, out: seq<Statement>, k: Key)
    ensures k in KeysOf(h, out) <==> k in set x | x in out :: KeyOf(h, x)
  {
    hide KeyOf;
    var ks := KeysOf(h, out);
    if k in ks {
      var i :| 0 <= i < |ks| && ks[i] == k;
      assert out[i] in out;
    }
    if x :| x in out && KeyOf(h, x) == k {
      var i :| 0 <= i < |out| && out[i] == x;
      assert ks[i] == k;
    }
  }

  lemma ScannedAnswers(h: HashFn, st: Store, p: Statement, out: seq<Statement>)
    requires Consistent(h, st) && Scanned(h, st, p, out)
    ensures Answers(h, st.spoc, p, out)
  {
    hide KeyOf, Hits, Permuted, MinKey, MaxKey, Keyed, LexLe, Ascending, Answers, Stored, Distinct;
    var ix := ChooseIndex(p);
    var db := IndexOf(st, ix);
    assert db == Permuted(st.spoc, ix) by { SpocPermuted(st.spoc); }
    var ks :| Lists(db, MinKey(h, p), MaxKey(h, p), ks) && ReadsAs(db, ks, out);
    ScannedAreStored(h, st.spoc, p, db, MinKey(h, p), MaxKey(h, p), ks, out);
  }

  /** On consistent indexes what a removal reads are the keys it scans. */
  lemma ScannedKeys(h: HashFn, st: Store, p: Statement, out: seq<Statement>)
    requires Consistent(h, st) && Scanned(h, st, p, out)
    ensures (set x | x in out :: KeyOf(h, x)) == ScanKeys(h, st.spoc, p)
  {
    hide KeyOf, Permuted, Keyed, Scanned, Answers, KeysOf, ScanKeys;
    ScannedAnswers(h, st, p, out);
    AnswerKeys(h, st.spoc, p, out);
    forall k ensures k in KeysOf(h, out) <==> k in set x | x in out :: KeyOf(h, x) { KeysOfSet(h, out, k); }
  }

  /** An operation whose reads all find the same consistent disk collects exactly the batches
      of its request stream against that disk. */
  lemma {:induction false} UndisturbedReads(h: HashFn, d: Disk, n: nat, run: seq<Event>, i: nat, disk: Disk)
    requires Legal(h, d, n, run) && i < n && ReadsFrom(h, d, n, run, i, disk) && Consistent(h, disk.st)
    ensures Recorded(h, run, i) == PendingQuads(h, disk.st.spoc, Requested(run, i))
    ensures RecordedNs(run, i) == PendingNs(disk.ns, Requested(run, i))
  {
    hide KeyOf, Consistent, Scanned, Found, ScanKeys, Deletions, Prefixes, Uris, WriteTo, Collected;
    if run != [] {
      var m := |run| - 1;
      var e, reqs := run[m], Requested(run[..m], i);
      UndisturbedReads(h, d, n, run[..m], i, disk);
      if e.Collects? && e.op == i {
        assert (reqs + [e.r])[..|reqs|] == reqs;
        PendingNsSnoc(disk.ns, reqs, e.r);
        if e.r.StmtRemoved? {
          ScannedKeys(h, disk.st, e.r.pattern, e.scanned);
        } else if e.r.NsRemoved? {
          assert SetOf(e.found) == Found(disk.ns, e.r.nsPattern);
        }
      }
    }
  }

  lemma {:induction false} DiskStill(h: HashFn, d: Disk, n: nat, run: seq<Event>, a: nat)
    requires Legal(h, d, n, run) && a <= |run| && Legal(h, d, n, run[..a])
    requires forall j | a <= j < |run| :: !run[j].Commits?
    ensures After(h, d, n, run).disk == After(h, d, n, run[..a]).disk
  {
    hide Collected, WriteTo, Scanned, Found;
    if a == |run| {
      assert run[..a] == run;
    } else {
      assert run[..|run| - 1][..a] == run[..a];
      DiskStill(h, d, n, run[..|run| - 1], a);
    }
  }

  /** So it is if nothing commits between the operation's first read and its last. */
  lemma {:induction false} QuietReads(h: HashFn, d: Disk, n: nat, run: seq<Event>, i: nat, a: nat)
    requires Legal(h, d, n, run) && a <= |run| && Legal(h, d, n, run[..a])
    requires forall j | 0 <= j < a :: !(run[j].Collects? && run[j].op == i)
    requires forall j, l | a <= j < l < |run| && run[l].Collects? && run[l].op == i :: !run[j].Commits?
    ensures ReadsFrom(h, d, n, run, i, After(h, d, n, run[..a]).disk)
  {
    hide Next, Enabled;
    if run != [] {
      var m := |run| - 1;
      if a <= m {
        assert run[..m][..a] == run[..a];
        QuietReads(h, d, n, run[..m], i, a);
        if run[m].Collects? && run[m].op == i { DiskStill(h, d, n, run[..m], a); }
      } else {
        assert run[..a] == run;
        NeverReads(h, d, n, run, i, After(h, d, n, run).disk);
      }
    }
  }

  lemma {:induction false} NeverReads(h: HashFn, d: Disk, n: nat, run: seq<Event>, i: nat, disk: Disk)
    requires Legal(h, d, n, run) && forall j | 0 <= j < |run| :: !(run[j].Collects? && run[j].op == i)
    ensures ReadsFrom(h, d, n, run, i, disk)
  {
    if run != [] { NeverReads(h, d, n, run[..|run| - 1], i, disk); }
  }

  /** An operation during whose reads nobody commits, and which starts from consistent indexes,
      collects exactly the batches of Update for its requests. */
  lemma QuietCollects(h: HashFn, d: Disk, n: nat, run: seq<Event>, i: nat, a: nat)
    requires Legal(h, d, n, run) && i < n && a <= |run| && Legal(h, d, n, run[..a])
    requires forall j | 0 <= j < a :: !(run[j].Collects? && run[j].op == i)
    requires forall j, l | a <= j < l < |run| && run[l].Collects? && run[l].op == i :: !run[j].Commits?
    requires Consistent(h, After(h, d, n, run[..a]).disk.st)
    ensures var op, disk := After(h, d, n, run).ops[i], After(h, d, n, run[..a]).disk;
            && Effect(op.stmts.spoc) == PendingQuads(h, disk.st.spoc, Requested(run, i))
            && NsPending(Effect(op.prefix), Effect(op.url)) == PendingNs(disk.ns, Requested(run, i))
  {
    hide Legal, After, Consistent, Effect, PendingQuads, PendingNs, ReadsFrom, Requested;
    EffectsRecorded(h, d, n, run, i);
    QuietReads(h, d, n, run, i, a);
    UndisturbedReads(h, d, n, run, i, After(h, d, n, run[..a]).disk);
  }

  lemma NobodyElse(done: seq<Job<Database>>)
    requires Runs(1, done)
    ensures done == [] || exists j :: 0 <= j < |done| && done[j].op == 0
  {
    if done != [] { assert done[0].op == 0; }
  }

  /** A single operation always reads the disk it started from. */
  lemma {:induction false} AloneReads(h: HashFn, d: Disk, run: seq<Event>)
    requires Legal(h, d, 1, run)
    ensures ReadsFrom(h, d, 1, run, 0, d)
  {
    hide Collected, WriteTo, Scanned, Found, NsBuilt, WellBuilt;
    if run != [] {
      var m := |run| - 1;
      AloneReads(h, d, run[..m]);
      RunIsSchedule(h, d, 1, run[..m]);
      if run[m].Collects? {
        var s := After(h, d, 1, run[..m]);
        NobodyElse(s.done);
        NoJobs(d, s.ops);
      }
    }
  }

  /** A complete run of one operation, whatever order its threads commit in, is Update of the
      requests it collected. */
  lemma AloneIsUpdate(h: HashFn, d: Disk, run: seq<Event>)
    requires Legal(h, d, 1, run) && Complete(1, After(h, d, 1, run).done) && Consistent(h, d.st)
    ensures var r := After(h, d, 1, run).disk;
            && Consistent(h, r.st)
            && World(r.st.spoc, r.ns) == UpdateWorld(h, World(d.st.spoc, d.ns), Requested(run, 0))
  {
    hide Legal, After, Complete, Consistent, Execute, Effect, Batched, BatchedNs, PendingQuads, PendingNs, ReadsFrom;
    var s := After(h, d, 1, run);
    RunIsSchedule(h, d, 1, run);
    EffectsRecorded(h, d, 1, run, 0);
    AloneReads(h, d, run);
    UndisturbedReads(h, d, 1, run, 0, d);
    assert s.ops == [s.ops[0]];
    UpdateUnderThreads(h, d, Requested(run, 0), s.ops[0], s.done);
  }

  // ---- Operations of one kind never conflict ----

  predicate AddsIn(run: seq<Event>, x: Statement) {
    exists i :: 0 <= i < |run| && run[i].Collects? && run[i].r == StmtAdded(x)
  }

  predicate RemovesIn(run: seq<Event>) { exists i :: 0 <= i < |run| && run[i].Collects? && run[i].r.StmtRemoved? }

  /** A put comes from an addition in the run and a delete from a removal. */
  predicate Explained(run: seq<Event>, w: Write<Key, Statement>) {
    if w.Put? then AddsIn(run, w.value) else RemovesIn(run)
  }

  lemma ExplainedSnoc(run: seq<Event>, e: Event, w: Write<Key, Statement>)
    requires Explained(run, w) || (e.Collects? && if w.Put? then e.r == StmtAdded(w.value) else e.r.StmtRemoved?)
    ensures Explained(run + [e], w)
  {
    var all := run + [e];
    if Explained(run, w) {
      var i :| 0 <= i < |run| && run[i].Collects?
        && if w.Put? then run[i].r == StmtAdded(w.value) else run[i].r.StmtRemoved?;
      assert all[i] == run[i];
    } else {
      assert all[|run|] == e;
    }
  }

  lemma {:induction false} WritesExplained(h: HashFn, d: Disk, n: nat, run: seq<Event>, a: nat,
                                           w: Write<Key, Statement>)
    requires Legal(h, d, n, run) && a < n && w in After(h, d, n, run).ops[a].stmts.spoc
    ensures Explained(run, w)
  {
    hide KeyOf, WriteTo, Scanned, Found, PermuteBatch, Explained;
    if run != [] {
      var m := |run| - 1;
      var before, e := After(h, d, n, run[..m]), run[m];
      assert run == run[..m] + [e];
      if w in before.ops[a].stmts.spoc { WritesExplained(h, d, n, run[..m], a, w); }
      ExplainedSnoc(run[..m], e, w);
    }
  }

  lemma {:induction false} EffectIsWritten<K(!new), V>(b: Batch<K, V>, k: K) returns (w: Write<K, V>)
    requires k in Effect(b)
    ensures w in b && w.key == k && Effect(b)[k] == if w.Put? then Some(w.value) else None
  {
    var n := |b| - 1;
    if b[n].key == k { w := b[n]; } else { w := EffectIsWritten(b[..n], k); }
  }

  /** Any number of operations that only add statements, well-formed and without colliding
      terms, or that only remove, leave the indexes consistent in every run. */
  lemma OneKindNeverConflicts(h: HashFn, u: iset<Statement>, d: Disk, n: nat, run: seq<Event>)
    requires Legal(h, d, n, run) && Consistent(h, d.st) && Complete(n, After(h, d, n, run).done)
    requires CollisionFree(h, u) && forall x | x in u :: WellFormed(x)
    requires (!RemovesIn(run) && forall x | AddsIn(run, x) :: x in u) || (forall x :: !AddsIn(run, x))
    ensures var s := After(h, d, n, run); Consistent(h, s.disk.st) && s.disk.st == InTurn(d, s.ops, n).st
  {
    hide Legal, After, Consistent, Complete, Execute, InTurn, Effect, CollisionFree, WellFormed, KeyOf, AddsIn,
         RemovesIn, Agree;
    RunIsSchedule(h, d, n, run);
    var s := After(h, d, n, run);
    var col := Column(s.ops, SPOC);
    forall a, b, k | 0 <= a < n && 0 <= b < n && k in Effect(col[a]) && k in Effect(col[b])
      ensures Effect(col[a])[k] == Effect(col[b])[k]
    {
      var v := EffectIsWritten(col[a], k);
      var w := EffectIsWritten(col[b], k);
      WritesExplained(h, d, n, run, a, v);
      WritesExplained(h, d, n, run, b, w);
      if v.Put? {
        KeysIdentify(h, u, v.value, w.value);
      }
    }
    AgreeIf(col);
    ScheduleKeepsConsistent(h, d, s.ops, s.done);
  }

  lemma AgreeIf<K(!new), V>(batches: seq<Batch<K, V>>)
    requires forall a, b, k | 0 <= a < |batches| && 0 <= b < |batches|
                              && k in Effect(batches[a]) && k in Effect(batches[b]) ::
               Effect(batches[a])[k] == Effect(batches[b])[k]
    ensures Agree(batches)
  {
  }
}
