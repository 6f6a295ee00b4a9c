/** LevelDBPersistence (persistence/leveldb_persistence.cc): the quad store. */
module Persistence {
  import opened Bytes
  import opened Rdf
  import opened Keys
  import opened LevelDb
  import opened Updates
  import opened Namespaces
  import opened Indexes

  datatype Statistics = Statistics(addedStmts: int, removedStmts: int, addedNs: int, removedNs: int)

  /** Statistics after one more request; removals count what they scan in the starting
      store, and removed namespaces are never counted. */
  function Counted(h: HashFn, q: Quads, t: Statistics, r: Request): (t': Statistics) {
    match r
    case StmtAdded(_) => t.(addedStmts := t.addedStmts + 1)
    case StmtRemoved(p) => t.(removedStmts := t.removedStmts + |ScanKeys(h, q, p)|)
    case NsAdded(_) => t.(addedNs := t.addedNs + 1)
    case _ => t
  }

  function StatisticsOf(h: HashFn, q: Quads, reqs: seq<Request>): (r: Statistics) {
    if reqs == [] then Statistics(0, 0, 0, 0)
    else Counted(h, q, StatisticsOf(h, q, reqs[..|reqs| - 1]), reqs[|reqs| - 1])
  }

  lemma StatisticsSnoc(h: HashFn, q: Quads, reqs: seq<Request>, r: Request)
    ensures StatisticsOf(h, q, reqs + [r]) == Counted(h, q, StatisticsOf(h, q, reqs), r)
  {
    hide Counted;
    assert (reqs + [r])[..|reqs|] == reqs;
  }

  function Paired<T>(n: int, ks: set<T>): (r: set<(int, T)>) { set k | k in ks :: (n, k) }

  lemma {:induction false} PairedSize<T>(n: int, ks: set<T>)
    ensures |Paired(n, ks)| == |ks|
  {
    if ks == {} {
      assert Paired(n, ks) == {};
    } else {
      var k :| k in ks;
      PairedSize(n, ks - {k});
      assert Paired(n, ks) == Paired(n, ks - {k}) + {(n, k)};
    }
  }

  /** A removal in the stream together with a key it scans. */
  function RemovedPairs(h: HashFn, q: Quads, reqs: seq<Request>): (r: set<(int, Key)>) {
    set i, k | 0 <= i < |reqs| && k in q && reqs[i].StmtRemoved? && Hits(h, reqs[i].pattern, k) :: (i, k)
  }

  function RemovedNow(h: HashFn, q: Quads, r: Request): (ks: set<Key>) {
    if r.StmtRemoved? then ScanKeys(h, q, r.pattern) else {}
  }

  lemma RemovedPairsSnoc(h: HashFn, q: Quads, reqs: seq<Request>, r: Request)
    ensures var before, now := RemovedPairs(h, q, reqs), Paired(|reqs|, RemovedNow(h, q, r));
            RemovedPairs(h, q, reqs + [r]) == before + now && before !! now
  {
    hide Hits;
    var all := reqs + [r];
    forall i, k
      ensures (i, k) in RemovedPairs(h, q, all) <==>
              (i, k) in RemovedPairs(h, q, reqs) || (i, k) in Paired(|reqs|, RemovedNow(h, q, r))
    {
      if 0 <= i < |reqs| { assert all[i] == reqs[i]; }
    }
  }

  /** The positions of the requests of a kind. */
  function Positions(reqs: seq<Request>, kind: Request -> bool): (r: set<int>) {
    set i | 0 <= i < |reqs| && kind(reqs[i])
  }

  lemma PositionsSnoc(reqs: seq<Request>, r: Request, kind: Request -> bool)
    ensures |Positions(reqs + [r], kind)| == |Positions(reqs, kind)| + if kind(r) then 1 else 0
  {
    assert Positions(reqs + [r], kind) == Positions(reqs, kind) + if kind(r) then {|reqs|} else {};
  }

  const ADDITION: Request -> bool := (r: Request) => r.StmtAdded?

  const BINDING: Request -> bool := (r: Request) => r.NsAdded?

  /** The statistics count the requests of each kind, and for removals the keys each of them
      scans in the starting store; removed namespaces are reported as none. */
  lemma {:induction false} StatisticsMean(h: HashFn, q: Quads, reqs: seq<Request>)
    ensures var t := StatisticsOf(h, q, reqs);
            && t.addedStmts == |Positions(reqs, ADDITION)| && t.addedNs == |Positions(reqs, BINDING)|
            && t.removedStmts == |RemovedPairs(h, q, reqs)| && t.removedNs == 0
  {
    hide ScanKeys, Hits, RemovedPairs, Positions, Paired;
    if reqs == [] {
      NothingCounted(h, q);
    } else {
      var n := |reqs| - 1;
      var before, r := reqs[..n], reqs[n];
      StatisticsMean(h, q, before);
      assert reqs == before + [r];
      RemovedPairsSnoc(h, q, before, r);
      PairedSize(n, RemovedNow(h, q, r));
      PositionsSnoc(before, r, ADDITION);
      PositionsSnoc(before, r, BINDING);
    }
  }

  lemma NothingCounted(h: HashFn, q: Quads)
    ensures RemovedPairs(h, q, []) == {} && Positions([], ADDITION) == {} && Positions([], BINDING) == {}
  {
  }

  lemma {:induction false} DistinctLength<T>(s: seq<T>, t: set<T>)
    requires Distinct(s) && forall x :: x in s <==> x in t
    ensures |s| == |t|
  {
    if s == [] {
      assert t == {};
    } else {
      var x := s[0];
      forall y ensures y in s[1..] <==> y in t - {x} {
        if y in t - {x} { assert y in s && y != s[0]; }
      }
      DistinctLength(s[1..], t - {x});
    }
  }

  /** `out` lists, once each, the stored statements the scan for `p` meets. */
  ghost predicate Answers(h: HashFn, q: Quads, p: Statement, out: seq<Statement>) {
    && Distinct(out)
    && (forall s | s in out :: Stored(h, q, s) && Hits(h, p, KeyOf(h, s)))
    && (forall k | k in q && Hits(h, p, k) :: q[k] in out)
  }

  /** `out` is what a scan for `p` reads from the index it chooses, in key order, whatever
      state the indexes are in. */
  ghost predicate Scanned(h: HashFn, st: Store, p: Statement, out: seq<Statement>) {
    var db := IndexOf(st, ChooseIndex(p));
    exists ks :: Lists(db, MinKey(h, p), MaxKey(h, p), ks) && ReadsAs(db, ks, out)
  }

  predicate ReadsAs(db: Quads, ks: seq<Key>, out: seq<Statement>) {
    |out| == |ks| && forall i | 0 <= i < |ks| :: ks[i] in db && out[i] == db[ks[i]]
  }

  ghost predicate Stored(h: HashFn, q: Quads, s: Statement) { KeyOf(h, s) in q && q[KeyOf(h, s)] == s }

  function KeysOf(h: HashFn, out: seq<Statement>): (r: seq<Key>)
    ensures |r| == |out|
  {
    seq(|out|, i requires 0 <= i < |out| => KeyOf(h, out[i]))
  }

  /** The keys of an answer are exactly the scanned keys, each once. */
  lemma AnswerKeys(h: HashFn, q: Quads, p: Statement, out: seq<Statement>)
    requires Keyed(h, q) && Answers(h, q, p, out)
    ensures forall k :: k in KeysOf(h, out) <==> k in ScanKeys(h, q, p)
    ensures |out| == |ScanKeys(h, q, p)|
  {
    hide KeyOf, Hits;
    var ks := KeysOf(h, out);
    forall k ensures k in ks <==> k in ScanKeys(h, q, p) {
      if k in ks {
        var i :| 0 <= i < |ks| && ks[i] == k;
        assert out[i] in out;
      }
      if k in ScanKeys(h, q, p) {
        var i :| 0 <= i < |out| && out[i] == q[k];
        assert ks[i] == k;
      }
    }
    forall i, j | 0 <= i < j < |ks| ensures ks[i] != ks[j] {
      assert out[i] in out && out[j] in out && out[i] != out[j];
    }
    DistinctLength(ks, ScanKeys(h, q, p));
  }

  function DeleteAll(ks: seq<Key>): (b: Batch<Key, Statement>) { seq(|ks|, i requires 0 <= i < |ks| => Delete(ks[i])) }

  lemma {:induction false} DeleteAllEffect(ks: seq<Key>, t: set<Key>)
    requires forall k :: k in ks <==> k in t
    ensures Effect(DeleteAll(ks)) == Deletions(t)
  {
    if ks == [] {
      assert t == {};
    } else {
      var n := |ks| - 1;
      var rest := set k | k in ks[..n];
      DeleteAllEffect(ks[..n], rest);
      assert DeleteAll(ks)[..n] == DeleteAll(ks[..n]);
      assert ks == ks[..n] + [ks[n]];
      assert t == rest + {ks[n]};
    }
  }

  class LevelDBPersistence {
    const h: HashFn
    var spoc: Quads
    var cspo: Quads
    var opsc: Quads
    var pcos: Quads
    var nsPrefix: map<Bytes, Namespace>
    var nsUrl: map<Bytes, Namespace>

    ghost function Statements(): (r: Store)
      reads this
    {
      Store(spoc, cspo, opsc, pcos)
    }

    ghost function Ns(): (r: NsStore)
      reads this
    {
      NsStore(nsPrefix, nsUrl)
    }

    ghost predicate Valid()
      reads this
    {
      Consistent(h, Statements()) && WellKeyed(Ns())
    }

    constructor (h: HashFn)
      ensures this.h == h && Valid() && spoc == map[] && Ns() == NsStore(map[], map[])
    {
      this.h := h;
      spoc, cspo, opsc, pcos := map[], map[], map[], map[];
      nsPrefix, nsUrl := map[], map[];
      new;
      forall ix: IndexType ensures Permuted<Statement>(map[], ix) == map[] { PermutedSize<Statement>(map[], ix); }
      assert Permuted<Statement>(map[], CSPO) == map[] && Permuted<Statement>(map[], OPSC) == map[]
        && Permuted<Statement>(map[], PCOS) == map[];
    }

    /** Serialise, hash and permute: the keys under which a statement is stored. */
    method StatementKeys(stmt: Statement) returns (a: Key, b: Key, c: Key, d: Key)
      ensures a == KeyOf(h, stmt)
      ensures b == Reorder(a, CSPO) && c == Reorder(a, OPSC) && d == Reorder(a, PCOS)
    {
      hide TermBytes;
      var bufs, bufp, bufo, bufc := TermBytes(stmt, S), TermBytes(stmt, P), TermBytes(stmt, O), TermBytes(stmt, C);
      var args := [Some(bufs), Some(bufp), Some(bufo), Some(bufc)];
      var kSpoc := new Byte[64](_ => 0);
      ComputeKey(h, args, kSpoc);
      FullPrefix(h, args);
      assert kSpoc[..] == Flatten(KeyOf(h, stmt));
      a := Unflatten(kSpoc[..]);
      FlattenRoundTrip(KeyOf(h, stmt), kSpoc[..]);
      var kIx := new Byte[64](_ => 0);
      OrderKey(kIx, kSpoc, CSPO);
      b := Unflatten(kIx[..]);
      FlattenRoundTrip(Reorder(a, CSPO), kIx[..]);
      OrderKey(kIx, kSpoc, OPSC);
      c := Unflatten(kIx[..]);
      FlattenRoundTrip(Reorder(a, OPSC), kIx[..]);
      OrderKey(kIx, kSpoc, PCOS);
      d := Unflatten(kIx[..]);
      FlattenRoundTrip(Reorder(a, PCOS), kIx[..]);
    }

    /** AddStatement: one Put per index. */
    method AddStatement(stmt: Statement, b: Batches) returns (r: Batches)
      requires InStep(b) && KeyedWrites(h, b.spoc)
      ensures InStep(r) && KeyedWrites(h, r.spoc)
      ensures Effect(r.spoc) == Effect(b.spoc)[KeyOf(h, stmt) := Some(stmt)]
    {
      hide KeyOf, Effect;
      var kSpoc, kCspo, kOpsc, kPcos := StatementKeys(stmt);
      r := Batches(b.spoc + [Put(kSpoc, stmt)], b.cspo + [Put(kCspo, stmt)],
                   b.opsc + [Put(kOpsc, stmt)], b.pcos + [Put(kPcos, stmt)]);
      EffectSnoc(b.spoc, Put(kSpoc, stmt));
    }

    /** GetStatements: scan the chosen index over the query's key range. The callback
        accepts `limit` results. While writer threads are at work the indexes may disagree; the
        scan then reads the one it has chosen. */
    method GetStatements(pattern: Statement, limit: Option<nat>) returns (out: seq<Statement>)
      ensures Valid() ==> forall s | s in out :: Stored(h, spoc, s) && Hits(h, pattern, KeyOf(h, s))
      ensures Valid() ==> Distinct(out)
      ensures limit.Some? ==> |out| <= limit.value
      ensures Valid() && (limit.None? || |out| < limit.value) ==> Answers(h, spoc, pattern, out)
      ensures limit.None? || |out| < limit.value ==> Scanned(h, Statements(), pattern, out)
      ensures forall all | Scanned(h, Statements(), pattern, all) :: out <= all
    {
      hide KeyOf, Hits, Reorder, Restore, Permuted, MinKey, MaxKey, Answers, Stored, Distinct, Ascending, Keyed,
           WellKeyed, LexLe;
      var ix := ChooseIndex(pattern);
      var db := match ix case SPOC => spoc case CSPO => cspo case OPSC => opsc case PCOS => pcos;
      var lo, hi := QueryRange(pattern);
      var ks := RangeScan(db, lo, hi, limit);
      out := seq(|ks|, i requires 0 <= i < |ks| && ks[i] in db => db[ks[i]]);
      assert ReadsAs(db, ks, out) && db == IndexOf(Statements(), ix);
      if Valid() {
        assert db == Permuted(spoc, ix) by { SpocPermuted(spoc); }
        ScannedAreStored(h, spoc, pattern, db, lo, hi, ks, out);
      }
      forall all | Scanned(h, Statements(), pattern, all) ensures out <= all {
        var every :| Lists(db, lo, hi, every) && ReadsAs(db, every, all);
        assert ks <= every;
      }
    }

    /** MinKey and MaxKey: zeros or 0xFF overwritten by the query prefix. */
    method QueryRange(pattern: Statement) returns (lo: Bytes, hi: Bytes)
      ensures lo == MinKey(h, pattern) && hi == MaxKey(h, pattern)
    {
      hide Arguments, Order;
      var args := Arguments(pattern, Order(ChooseIndex(pattern)));
      var loKey := new Byte[64](_ => 0);
      ComputeKey(h, args, loKey);
      lo := loKey[..];
      var hiKey := new Byte[64](_ => 0xff);
      ComputeKey(h, args, hiKey);
      hi := hiKey[..];
    }

    /** RemoveStatements into a batch: a Delete per index for every scanned statement, its
        key recomputed from the stored value. */
    method RemoveInto(pattern: Statement, b: Batches) returns (r: Batches, count: int)
      requires InStep(b) && KeyedWrites(h, b.spoc)
      ensures InStep(r) && KeyedWrites(h, r.spoc)
      ensures exists stmts :: Scanned(h, Statements(), pattern, stmts) && r.spoc == b.spoc + DeleteAll(KeysOf(h, stmts))
      ensures Valid() ==> Effect(r.spoc) == Effect(b.spoc) + Deletions(ScanKeys(h, spoc, pattern))
      ensures Valid() ==> count == |ScanKeys(h, spoc, pattern)|
    {
      hide KeyOf, Hits, Scanned;
      var stmts := GetStatements(pattern, None);
      ghost var ks := KeysOf(h, stmts);
      r, count := b, 0;
      assert b.spoc + DeleteAll(ks[..0]) == b.spoc;
      for i := 0 to |stmts|
        invariant InStep(r) && KeyedWrites(h, r.spoc)
        invariant r.spoc == b.spoc + DeleteAll(ks[..i])
        invariant count == i
      {
        var kSpoc, kCspo, kOpsc, kPcos := StatementKeys(stmts[i]);
        r := Batches(r.spoc + [Delete(kSpoc)], r.cspo + [Delete(kCspo)],
                     r.opsc + [Delete(kOpsc)], r.pcos + [Delete(kPcos)]);
        assert DeleteAll(ks[..i + 1]) == DeleteAll(ks[..i]) + [Delete(ks[i])];
        count := count + 1;
      }
      assert ks[..|stmts|] == ks;
      if Valid() {
        AnswerKeys(h, spoc, pattern, stmts);
        DeleteAllEffect(ks, ScanKeys(h, spoc, pattern));
        EffectAppend(b.spoc, DeleteAll(ks));
      }
    }

    /** The writer threads, one per index. */
    method WriteAll(b: Batches)
      requires Valid() && InStep(b) && KeyedWrites(h, b.spoc)
      modifies this`spoc, this`cspo, this`opsc, this`pcos
      ensures Valid()
      ensures spoc == Overlay(old(spoc), Effect(b.spoc))
    {
      hide Consistent, WellKeyed, InStep, KeyedWrites, Commit, Overlay, Effect;
      CommitKeepsConsistent(h, Statements(), b);
      pcos := Commit(pcos, b.pcos);
      opsc := Commit(opsc, b.opsc);
      cspo := Commit(cspo, b.cspo);
      spoc := Commit(spoc, b.spoc);
    }

    method AddStatements(stmts: seq<Statement>) returns (count: int)
      requires Valid()
      modifies this`spoc, this`cspo, this`opsc, this`pcos
      ensures Valid() && count == |stmts|
      ensures forall i | 0 <= i < |stmts| && LastUnderKey(h, stmts, i) :: Stored(h, spoc, stmts[i])
      ensures forall k | NoneUnderKey(h, stmts, k) :: Lookup(spoc, k) == Lookup(old(spoc), k)
      ensures spoc == InOrder(h, old(spoc), Additions(stmts))
    {
      hide KeyOf, Hits, InStep, KeyedWrites, Keyed, Permuted, WellKeyed, Overlay, Effect;
      var b := NO_WRITES;
      NoWrites(h);
      count := 0;
      for i := 0 to |stmts|
        invariant Valid() && spoc == old(spoc)
        invariant InStep(b) && KeyedWrites(h, b.spoc)
        invariant Effect(b.spoc) == PendingQuads(h, spoc, Additions(stmts[..i]))
        invariant count == i
      {
        b := AddStatement(stmts[i], b);
        assert Additions(stmts[..i + 1])[..i] == Additions(stmts[..i]);
        count := count + 1;
      }
      assert stmts[..|stmts|] == stmts;
      WriteAll(b);
      AdditionsInOrder(h, old(spoc), stmts);
      AdditionsMean(h, old(spoc), stmts);
    }

    method RemoveStatements(pattern: Statement) returns (count: int)
      requires Valid()
      modifies this`spoc, this`cspo, this`opsc, this`pcos
      ensures Valid()
      ensures spoc == old(spoc) - ScanKeys(h, old(spoc), pattern)
      ensures count == |ScanKeys(h, old(spoc), pattern)|
    {
      hide KeyOf, Hits, InStep, KeyedWrites, Keyed, Permuted, WellKeyed, Overlay, Effect;
      var b;
      NoWrites(h);
      b, count := RemoveInto(pattern, NO_WRITES);
      WriteAll(b);
      ghost var none: Pending := map[];
      OverlayDeletions(old(spoc), none, ScanKeys(h, old(spoc), pattern));
      OverlayNothing(old(spoc));
    }

    /** GetNamespaces: the entries of the index it reads that match the pattern, a URI given
        along with a prefix being ignored. */
    method GetNamespaces(pattern: Namespace) returns (r: set<Namespace>)
      requires WellKeyed(Ns())
      ensures forall ns :: ns in r <==>
        && ns in (if pattern.prefix == [] && pattern.uri != [] then nsUrl else nsPrefix).Values
        && (pattern.prefix != [] ==> ns.prefix == pattern.prefix)
        && (pattern.prefix == [] && pattern.uri != [] ==> ns.uri == pattern.uri)
    {
      if pattern.prefix != [] {
        r := if pattern.prefix in nsPrefix then {nsPrefix[pattern.prefix]} else {};
      } else if pattern.uri != [] {
        r := if pattern.uri in nsUrl then {nsUrl[pattern.uri]} else {};
      } else {
        r := nsPrefix.Values;
      }
      assert r == Found(Ns(), pattern);
      forall ns
        ensures ns in r <==>
          && ns in (if pattern.prefix == [] && pattern.uri != [] then nsUrl else nsPrefix).Values
          && (pattern.prefix != [] ==> ns.prefix == pattern.prefix)
          && (pattern.prefix == [] && pattern.uri != [] ==> ns.uri == pattern.uri)
      {
        FoundEntries(Ns(), pattern, ns);
      }
    }

    /** Update: four statement batches and two namespace batches grown over the whole
        stream, then written. */
    method Update(reqs: seq<Request>) returns (stats: Statistics)
      requires Valid()
      modifies this
      ensures Valid()
      ensures spoc == Batched(h, old(spoc), reqs)
      ensures Ns() == BatchedNs(old(Ns()), reqs)
      ensures stats == StatisticsOf(h, old(spoc), reqs)
    {
      hide KeyOf, Hits, InStep, KeyedWrites, Keyed, Permuted, WellKeyed, Overlay, Commit, Effect, ScanKeys, Found,
           Deletions;
      var b := NO_WRITES;
      NoWrites(h);
      var bPrefix: Batch<Bytes, Namespace>, bUrl: Batch<Bytes, Namespace> := [], [];
      stats := Statistics(0, 0, 0, 0);
      for i := 0 to |reqs|
        invariant Valid() && spoc == old(spoc) && Ns() == old(Ns())
        invariant InStep(b) && KeyedWrites(h, b.spoc)
        invariant Effect(b.spoc) == PendingQuads(h, spoc, reqs[..i])
        invariant NsPending(Effect(bPrefix), Effect(bUrl)) == PendingNs(Ns(), reqs[..i])
        invariant stats == StatisticsOf(h, spoc, reqs[..i])
      {
        assert reqs[..i + 1][..i] == reqs[..i];
        match reqs[i] {
          case StmtAdded(s) =>
            b := AddStatement(s, b);
            stats := stats.(addedStmts := stats.addedStmts + 1);
          case StmtRemoved(p) =>
            var n;
            b, n := RemoveInto(p, b);
            stats := stats.(removedStmts := stats.removedStmts + n);
          case NsAdded(ns) =>
            bPrefix, bUrl := AddNamespace(ns, bPrefix, bUrl);
            stats := stats.(addedNs := stats.addedNs + 1);
          case NsRemoved(p) =>
            bPrefix, bUrl := RemoveNamespace(p, bPrefix, bUrl);
          case NoRequest =>
        }
      }
      assert reqs[..|reqs|] == reqs;
      WriteAll(b);
      LastWriteWins(nsPrefix, bPrefix);
      LastWriteWins(nsUrl, bUrl);
      nsPrefix := Commit(nsPrefix, bPrefix);
      nsUrl := Commit(nsUrl, bUrl);
      BatchKeepsWellKeyed(old(Ns()), reqs);
    }

    method AddNamespace(ns: Namespace, p: Batch<Bytes, Namespace>, u: Batch<Bytes, Namespace>)
      returns (p': Batch<Bytes, Namespace>, u': Batch<Bytes, Namespace>)
      ensures Effect(p') == Effect(p)[ns.prefix := Some(ns)] && Effect(u') == Effect(u)[ns.uri := Some(ns)]
    {
      p', u' := p + [Put(ns.prefix, ns)], u + [Put(ns.uri, ns)];
      EffectSnoc(p, Put(ns.prefix, ns));
      EffectSnoc(u, Put(ns.uri, ns));
    }

    method RemoveNamespace(pattern: Namespace, p: Batch<Bytes, Namespace>, u: Batch<Bytes, Namespace>)
      returns (p': Batch<Bytes, Namespace>, u': Batch<Bytes, Namespace>)
      requires WellKeyed(Ns())
      ensures Effect(p') == Effect(p) + Deletions(Prefixes(Found(Ns(), pattern)))
      ensures Effect(u') == Effect(u) + Deletions(Uris(Found(Ns(), pattern)))
    {
      hide Effect, Found, Deletions;
      var todo := GetNamespaces(pattern);
      forall ns ensures ns in todo <==> ns in Found(Ns(), pattern) { FoundEntries(Ns(), pattern, ns); }
      assert todo == Found(Ns(), pattern);
      ghost var all := todo;
      p', u' := p, u;
      assert Prefixes(all - todo) == {} && Uris(all - todo) == {};
      NoDeletions(Effect(p)); NoDeletions(Effect(u));
      while todo != {}
        invariant todo <= all
        invariant Effect(p') == Effect(p) + Deletions(Prefixes(all - todo))
        invariant Effect(u') == Effect(u) + Deletions(Uris(all - todo))
        decreases todo
      {
        var ns :| ns in todo;
        EffectSnoc(p', Delete(ns.prefix));
        EffectSnoc(u', Delete(ns.uri));
        DeletionsSnoc(Effect(p), Prefixes(all - todo), ns.prefix);
        DeletionsSnoc(Effect(u), Uris(all - todo), ns.uri);
        p', u' := p' + [Delete(ns.prefix)], u' + [Delete(ns.uri)];
        assert all - (todo - {ns}) == (all - todo) + {ns};
        assert Prefixes((all - todo) + {ns}) == Prefixes(all - todo) + {ns.prefix};
        assert Uris((all - todo) + {ns}) == Uris(all - todo) + {ns.uri};
        todo := todo - {ns};
      }
      assert all - {} == all;
    }

    /** AddNamespaces: a stream of additions. */
    method AddNamespaces(namespaces: seq<Namespace>) returns (count: int)
      requires Valid()
      modifies this`nsPrefix, this`nsUrl
      ensures Valid() && count == |namespaces|
      ensures LastBound(old(Ns()), Ns(), namespaces)
      ensures Ns() == BatchedNs(old(Ns()), NsAdditions(namespaces))
    {
      hide WellKeyed, Consistent, Overlay, Commit, Effect, Found, Deletions, LastBound;
      var bPrefix: Batch<Bytes, Namespace>, bUrl: Batch<Bytes, Namespace> := [], [];
      NoWrites(h);
      count := 0;
      for i := 0 to |namespaces|
        invariant Valid() && Ns() == old(Ns())
        invariant NsPending(Effect(bPrefix), Effect(bUrl)) == PendingNs(Ns(), NsAdditions(namespaces[..i]))
        invariant count == i
      {
        assert NsAdditions(namespaces[..i + 1])[..i] == NsAdditions(namespaces[..i]);
        bPrefix, bUrl := AddNamespace(namespaces[i], bPrefix, bUrl);
        count := count + 1;
      }
      assert namespaces[..|namespaces|] == namespaces;
      LastWriteWins(nsPrefix, bPrefix);
      LastWriteWins(nsUrl, bUrl);
      nsPrefix := Commit(nsPrefix, bPrefix);
      nsUrl := Commit(nsUrl, bUrl);
      BatchKeepsWellKeyed(old(Ns()), NsAdditions(namespaces));
      NsAdditionsMean(old(Ns()), namespaces);
    }

    /** Size: count the entries of the CSPO index. */
    method Size() returns (count: int)
      requires Valid()
      ensures count == |spoc|
    {
      var rest := cspo.Keys;
      count := 0;
      while rest != {}
        invariant count + |rest| == |cspo.Keys|
        decreases rest
      {
        var k :| k in rest;
        rest := rest - {k};
        count := count + 1;
      }
      PermutedSize(spoc, CSPO);
    }
  }

  function Additions(stmts: seq<Statement>): (r: seq<Request>) {
    seq(|stmts|, i requires 0 <= i < |stmts| => StmtAdded(stmts[i]))
  }

  function NsAdditions(ns: seq<Namespace>): (r: seq<Request>) {
    seq(|ns|, i requires 0 <= i < |ns| => NsAdded(ns[i]))
  }

  /** No later statement has the key of statement `i`. */
  ghost predicate LastUnderKey(h: HashFn, stmts: seq<Statement>, i: nat)
    requires i < |stmts|
  {
    forall j | i < j < |stmts| :: KeyOf(h, stmts[j]) != KeyOf(h, stmts[i])
  }

  ghost predicate NoneUnderKey(h: HashFn, stmts: seq<Statement>, k: Key) {
    forall i | 0 <= i < |stmts| :: KeyOf(h, stmts[i]) != k
  }

  /** Of the statements added under one key the last is stored, and no other key changes. */
  lemma {:induction false} AdditionsMean(h: HashFn, q: Quads, stmts: seq<Statement>)
    ensures var r := InOrder(h, q, Additions(stmts));
            && (forall i | 0 <= i < |stmts| && LastUnderKey(h, stmts, i) :: Stored(h, r, stmts[i]))
            && (forall k | NoneUnderKey(h, stmts, k) :: Lookup(r, k) == Lookup(q, k))
  {
    hide KeyOf;
    if stmts != [] {
      var n := |stmts| - 1;
      AdditionsMean(h, q, stmts[..n]);
      assert Additions(stmts)[..n] == Additions(stmts[..n]);
      forall i | 0 <= i < n && LastUnderKey(h, stmts, i) ensures LastUnderKey(h, stmts[..n], i) {}
      forall k | NoneUnderKey(h, stmts, k) ensures NoneUnderKey(h, stmts[..n], k) {}
    }
  }

  ghost predicate LastUnderName(ns: seq<Namespace>, d: Side, i: nat)
    requires i < |ns|
  {
    forall j | i < j < |ns| :: Name(ns[j], d) != Name(ns[i], d)
  }

  ghost predicate NoneUnderName(ns: seq<Namespace>, d: Side, x: Bytes) {
    forall i | 0 <= i < |ns| :: Name(ns[i], d) != x
  }

  /** In index `d`, of the namespaces added under one name the last is bound, and no other entry
      changes. */
  ghost predicate LastBoundIn(before: NsStore, after: NsStore, ns: seq<Namespace>, d: Side) {
    && (forall i | 0 <= i < |ns| && LastUnderName(ns, d, i) :: Lookup(On(after, d), Name(ns[i], d)) == Some(ns[i]))
    && (forall x | NoneUnderName(ns, d, x) :: Lookup(On(after, d), x) == Lookup(On(before, d), x))
  }

  ghost predicate LastBound(before: NsStore, after: NsStore, ns: seq<Namespace>) {
    LastBoundIn(before, after, ns, ByPrefix) && LastBoundIn(before, after, ns, ByUri)
  }

  lemma NsAdditionsMean(n: NsStore, ns: seq<Namespace>)
    ensures LastBound(n, BatchedNs(n, NsAdditions(ns)), ns)
  {
    hide LastBoundIn;
    NsAdditionsMeanIn(n, ns, ByPrefix);
    NsAdditionsMeanIn(n, ns, ByUri);
  }

  lemma NsAdditionsMeanIn(n: NsStore, ns: seq<Namespace>, d: Side)
    ensures LastBoundIn(n, BatchedNs(n, NsAdditions(ns)), ns, d)
  {
    hide BatchedNs, On, Name, Lookup;
    forall i | 0 <= i < |ns| && LastUnderName(ns, d, i)
      ensures Lookup(On(BatchedNs(n, NsAdditions(ns)), d), Name(ns[i], d)) == Some(ns[i])
    {
      AddedAt(n, ns, d, Name(ns[i], d), i);
    }
    forall x | NoneUnderName(ns, d, x)
      ensures Lookup(On(BatchedNs(n, NsAdditions(ns)), d), x) == Lookup(On(n, d), x)
    {
      AddedAt(n, ns, d, x, -1);
    }
  }

  /** Addition `i` is the last under name `x`, or there is none and `i` is -1. */
  lemma {:induction false} AddedAt(n: NsStore, ns: seq<Namespace>, d: Side, x: Bytes, i: int)
    requires -1 <= i < |ns| && (i >= 0 ==> Name(ns[i], d) == x) && forall j | i < j < |ns| :: Name(ns[j], d) != x
    ensures Lookup(On(BatchedNs(n, NsAdditions(ns)), d), x) == if i >= 0 then Some(ns[i]) else Lookup(On(n, d), x)
  {
    hide BatchedNs, On, Name, Lookup;
    if ns == [] {
      NothingBatched(n);
    } else {
      var m := |ns| - 1;
      assert NsAdditions(ns) == NsAdditions(ns[..m]) + [NsAdded(ns[m])];
      BatchedLookup(n, NsAdditions(ns[..m]), NsAdded(ns[m]), d, x);
      if i < m { AddedAt(n, ns[..m], d, x, i); }
    }
  }

  lemma NoWrites(h: HashFn)
    ensures InStep(NO_WRITES) && KeyedWrites(h, NO_WRITES.spoc)
    ensures Effect<Key, Statement>([]) == map[] && Effect<Bytes, Namespace>([]) == map[]
  {
  }

  lemma NoDeletions<K(!new), V>(e: map<K, Option<V>>)
    ensures e + Deletions({}) == e
  {
  }

  lemma OverlayNothing<K(!new), V>(m: map<K, V>)
    ensures Overlay(m, map[]) == m
  {
    SameLookups(Overlay(m, map[]), m);
  }

  lemma AdditionsInOrder(h: HashFn, q: Quads, stmts: seq<Statement>)
    ensures Batched(h, q, Additions(stmts)) == InOrder(h, q, Additions(stmts))
  {
    RemovalsFirstIsInOrder(h, q, Additions(stmts));
  }

  lemma FullPrefix(h: HashFn, args: seq<Option<Bytes>>)
    requires |args| == 4 && forall i | 0 <= i < 4 :: args[i].Some?
    ensures RunLength(args) == 4
    ensures Prefix(h, args) == h(args[0].value) + h(args[1].value) + h(args[2].value) + h(args[3].value)
  {
    var e := args[4..];
    assert args[3..] == [args[3]] && args[3..][1..] == [];
    assert args[2..] == [args[2], args[3]] && args[2..][1..] == args[3..];
    assert args[1..][1..] == args[2..];
    assert Prefix(h, args[3..]) == h(args[3].value) + [];
    assert Prefix(h, args[2..]) == h(args[2].value) + Prefix(h, args[3..]);
  }

  lemma SpocPermuted<V>(m: map<Key, V>)
    ensures Permuted(m, SPOC) == m
  {
    SameLookups(Permuted(m, SPOC), m);
  }

  lemma ScannedAreStored(h: HashFn, q: Quads, p: Statement, db: Quads, lo: Bytes, hi: Bytes,
                         ks: seq<Key>, out: seq<Statement>)
    requires Keyed(h, q) && db == Permuted(q, ChooseIndex(p))
    requires lo == MinKey(h, p) && hi == MaxKey(h, p)
    requires Ascending(ks) && |out| == |ks|
    requires forall i | 0 <= i < |ks| :: ks[i] in db && Between(lo, hi, ks[i]) && out[i] == db[ks[i]]
    ensures Distinct(out)
    ensures forall s | s in out :: Stored(h, q, s) && Hits(h, p, KeyOf(h, s))
    ensures (forall k | k in db && Between(lo, hi, k) :: k in ks) ==> Answers(h, q, p, out)
  {
    hide KeyOf, Hits, Reorder, Restore, MinKey, MaxKey;
    var ix := ChooseIndex(p);
    forall i | 0 <= i < |ks|
      ensures KeyOf(h, out[i]) == Restore(ks[i], ix) && Stored(h, q, out[i]) && Hits(h, p, KeyOf(h, out[i]))
    {
      assert Lookup(db, ks[i]) == Lookup(q, Restore(ks[i], ix));
      ReorderRoundTrip(ks[i], ix);
      ScanRange(h, p, Restore(ks[i], ix));
    }
    forall i, j | 0 <= i < j < |out| ensures out[i] != out[j] {
      ReorderRoundTrip(ks[i], ix); ReorderRoundTrip(ks[j], ix);
    }
    if forall k | k in db && Between(lo, hi, k) :: k in ks {
      forall k | k in q && Hits(h, p, k) ensures q[k] in out {
        ReorderRoundTrip(k, ix);
        ScanRange(h, p, k);
        assert Lookup(db, Reorder(k, ix)) == Lookup(q, k);
        var i :| 0 <= i < |ks| && ks[i] == Reorder(k, ix);
        assert out[i] == q[k];
      }
    }
  }
}
