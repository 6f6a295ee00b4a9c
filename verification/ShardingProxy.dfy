/** ShardingService (sharding/sharding.cc): the proxy in front of the backends. */
module ShardingProxy {
  import opened Bytes
  import opened Rdf
  import opened Wire
  import opened Keys
  import opened LevelDb
  import opened Updates
  import opened Namespaces
  import opened Indexes
  import opened Persistence
  import opened Service
  import opened Shards

  // ---- Sums over backends ----

  lemma {:induction false} SumPlus(a: seq<int>, b: seq<int>, c: seq<int>)
    requires |a| == |b| == |c| && forall i | 0 <= i < |c| :: c[i] == a[i] + b[i]
    ensures Sum(c) == Sum(a) + Sum(b)
  {
    if c != [] { SumPlus(a[..|a| - 1], b[..|b| - 1], c[..|c| - 1]); }
  }

  lemma {:induction false} SumConstant(c: seq<int>, v: int)
    requires forall i | 0 <= i < |c| :: c[i] == v
    ensures Sum(c) == |c| * v
  {
    if c != [] { SumConstant(c[..|c| - 1], v); }
  }

  lemma {:induction false} SumIndicator(c: seq<int>, j: nat)
    requires forall i | 0 <= i < |c| :: c[i] == if i == j then 1 else 0
    ensures Sum(c) == if j < |c| then 1 else 0
  {
    if c != [] { SumIndicator(c[..|c| - 1], j); }
  }

  // ---- Size and Clear over context lists ----

  /** The backends' answers to Size. */
  function SizeAnswers(h: HashFn, f: Bytes -> nat, n: nat, q: Quads, contexts: seq<Resource>): (r: seq<int>)
    requires n > 0
    ensures |r| == n
  {
    seq(n, i requires 0 <= i < n => SizeAnswer(h, Part(f, n, q, i), contexts))
  }

  /** The backends' answers to Clear. */
  function ClearAnswers(h: HashFn, f: Bytes -> nat, n: nat, q: Quads, contexts: seq<Resource>): (r: seq<int>)
    requires n > 0
    ensures |r| == n
  {
    seq(n, i requires 0 <= i < n => ClearAnswer(h, Part(f, n, q, i), contexts))
  }

  function ListedSizes(h: HashFn, f: Bytes -> nat, n: nat, q: Quads, contexts: seq<Resource>): (r: seq<int>)
    requires n > 0
    ensures |r| == n
  {
    seq(n, i requires 0 <= i < n => ListedSize(h, Part(f, n, q, i), contexts))
  }

  lemma {:induction false} ListedSizesAddUp(h: HashFn, f: Bytes -> nat, n: nat, q: Quads, contexts: seq<Resource>)
    requires n > 0
    ensures Sum(ListedSizes(h, f, n, q, contexts)) == ListedSize(h, q, contexts)
  {
    hide Part, ScanKeys;
    if contexts == [] {
      SumConstant(ListedSizes(h, f, n, q, contexts), 0);
    } else {
      var m := |contexts| - 1;
      ListedSizesAddUp(h, f, n, q, contexts[..m]);
      ScanCountsAddUp(h, f, n, q, InContext(contexts[m]));
      SumPlus(ListedSizes(h, f, n, q, contexts[..m]), ScanCounts(h, f, n, q, InContext(contexts[m])),
              ListedSizes(h, f, n, q, contexts));
    }
  }

  lemma WholeSizesAddUp(f: Bytes -> nat, n: nat, q: Quads, sizes: seq<int>)
    requires n > 0 && |sizes| == n && forall i | 0 <= i < n :: sizes[i] == |Part(f, n, q, i)|
    ensures Sum(sizes) == |q|
  {
    hide Bucket;
    PartsAddUp(f, n, q, q.Keys, n);
    assert (set k | k in q.Keys && Bucket(f, n, q[k]) < n) == q.Keys;
    forall i | 0 <= i < n ensures sizes[i] == Counts(f, n, q, q.Keys, n)[i] {
      assert Part(f, n, q, i).Keys == set k | k in q.Keys && Bucket(f, n, q[k]) == i;
    }
    assert sizes == Counts(f, n, q, q.Keys, n);
  }

  /** For every list of contexts, the backends' sizes add up to the single store's. */
  lemma SizeAnswersAddUp(h: HashFn, f: Bytes -> nat, n: nat, q: Quads, contexts: seq<Resource>)
    requires n > 0
    ensures Sum(SizeAnswers(h, f, n, q, contexts)) == SizeAnswer(h, q, contexts)
  {
    hide Part, ListedSize, Sum;
    if contexts == [] {
      WholeSizesAddUp(f, n, q, SizeAnswers(h, f, n, q, contexts));
    } else {
      ListedSizesAddUp(h, f, n, q, contexts);
      assert SizeAnswers(h, f, n, q, contexts) == ListedSizes(h, f, n, q, contexts);
    }
  }

  /** And so do the counts of Clear. */
  lemma ClearAnswersAddUp(h: HashFn, f: Bytes -> nat, n: nat, q: Quads, contexts: seq<Resource>)
    requires n > 0
    ensures Sum(ClearAnswers(h, f, n, q, contexts)) == ClearAnswer(h, q, contexts)
  {
    hide Bucket, Hits, Sum;
    var answers := ClearAnswers(h, f, n, q, contexts);
    if contexts == [] {
      WholeSizesAddUp(f, n, q, answers);
    } else {
      var ks := ListedKeys(h, q, contexts);
      PartsAddUp(f, n, q, ks, n);
      assert (set k | k in ks && Bucket(f, n, q[k]) < n) == ks;
      forall i | 0 <= i < n ensures answers[i] == Counts(f, n, q, ks, n)[i] {
        assert ListedKeys(h, Part(f, n, q, i), contexts) == set k | k in ks && Bucket(f, n, q[k]) == i;
      }
      assert answers == Counts(f, n, q, ks, n);
    }
  }

  /** Clear sent to every backend clears what the single store clears. */
  lemma ClearRefines(h: HashFn, f: Bytes -> nat, n: nat, q: Quads, contexts: seq<Resource>, i: nat)
    requires n > 0
    ensures Cleared(h, Part(f, n, q, i), contexts) == Part(f, n, Cleared(h, q, contexts), i)
  {
    hide Bucket, Hits;
    SameLookups(Cleared(h, Part(f, n, q, i), contexts), Part(f, n, Cleared(h, q, contexts), i));
  }

  // ---- Update's response ----

  function Plus(a: Statistics, b: Statistics): (r: Statistics) {
    Statistics(a.addedStmts + b.addedStmts, a.removedStmts + b.removedStmts,
               a.addedNs + b.addedNs, a.removedNs + b.removedNs)
  }

  /** What the proxy reports: its backends' responses added up field by field. */
  function Total(rs: seq<Statistics>): (r: Statistics) {
    if rs == [] then Statistics(0, 0, 0, 0) else Plus(Total(rs[..|rs| - 1]), rs[|rs| - 1])
  }

  function Picked(rs: seq<Statistics>, pick: Statistics -> int): (r: seq<int>)
    ensures |r| == |rs|
  {
    seq(|rs|, i requires 0 <= i < |rs| => pick(rs[i]))
  }

  lemma {:induction false} TotalByField(rs: seq<Statistics>)
    ensures Total(rs) ==
            Statistics(Sum(Picked(rs, (s: Statistics) => s.addedStmts)),
                       Sum(Picked(rs, (s: Statistics) => s.removedStmts)),
                       Sum(Picked(rs, (s: Statistics) => s.addedNs)),
                       Sum(Picked(rs, (s: Statistics) => s.removedNs)))
  {
    if rs != [] {
      var m := |rs| - 1;
      TotalByField(rs[..m]);
      PickedTake(rs, (s: Statistics) => s.addedStmts); PickedTake(rs, (s: Statistics) => s.removedStmts);
      PickedTake(rs, (s: Statistics) => s.addedNs); PickedTake(rs, (s: Statistics) => s.removedNs);
    }
  }

  lemma PickedTake(rs: seq<Statistics>, pick: Statistics -> int)
    requires rs != []
    ensures Sum(Picked(rs, pick)) == Sum(Picked(rs[..|rs| - 1], pick)) + pick(rs[|rs| - 1])
  {
    assert Picked(rs, pick)[..|rs| - 1] == Picked(rs[..|rs| - 1], pick);
  }

  /** The response of backend `i`, which holds its part of `q`. */
  function Response(h: HashFn, f: Bytes -> nat, n: nat, q: Quads, reqs: seq<Request>, i: nat): (r: Statistics)
    requires n > 0
  {
    StatisticsOf(h, Part(f, n, q, i), Routed(f, n, reqs, i))
  }

  function Responses(h: HashFn, f: Bytes -> nat, n: nat, q: Quads, reqs: seq<Request>): (r: seq<Statistics>)
    requires n > 0
    ensures |r| == n
  {
    seq(n, i requires 0 <= i < n => Response(h, f, n, q, reqs, i))
  }

  lemma ResponseSnoc(h: HashFn, f: Bytes -> nat, n: nat, q: Quads, reqs: seq<Request>, r: Request, i: nat)
    requires n > 0
    ensures Response(h, f, n, q, reqs + [r], i) ==
            var t := Response(h, f, n, q, reqs, i);
            match r
            case StmtAdded(s) => if Bucket(f, n, s) == i then t.(addedStmts := t.addedStmts + 1) else t
            case StmtRemoved(p) => t.(removedStmts := t.removedStmts + |ScanKeys(h, Part(f, n, q, i), p)|)
            case NsAdded(_) => t.(addedNs := t.addedNs + 1)
            case _ => t
  {
    hide Bucket, ScanKeys, Part, Routed, StatisticsOf;
    RoutedSnoc(f, n, reqs, r, i);
    StatisticsSnoc(h, Part(f, n, q, i), Routed(f, n, reqs, i), r);
  }

  /** The proxy's totals: added and removed statements are the single store's, while every
      added namespace is reported once per backend. */
  lemma {:induction false} ReportedTotals(h: HashFn, f: Bytes -> nat, n: nat, q: Quads, reqs: seq<Request>)
    requires n > 0
    ensures var t := StatisticsOf(h, q, reqs);
            Total(Responses(h, f, n, q, reqs)) == Statistics(t.addedStmts, t.removedStmts, n * t.addedNs, 0)
  {
    hide Bucket, ScanKeys, Part, Routed, Total, Response;
    if reqs == [] {
      NoResponses(h, f, n, q);
    } else {
      var m, r := reqs[..|reqs| - 1], reqs[|reqs| - 1];
      assert reqs == m + [r];
      ReportedTotals(h, f, n, q, m);
      var before, now := Responses(h, f, n, q, m), Responses(h, f, n, q, reqs);
      forall i | 0 <= i < n { ResponseSnoc(h, f, n, q, m, r, i); }
      StepFields(h, f, n, q, r, before, now);
      var x := StatisticsOf(h, q, m).addedNs;
      assert n * (x + 1) == n * x + n;
    }
  }

  lemma NoResponses(h: HashFn, f: Bytes -> nat, n: nat, q: Quads)
    requires n > 0
    ensures Total(Responses(h, f, n, q, [])) == Statistics(0, 0, 0, 0)
  {
    hide Part;
    var rs := Responses(h, f, n, q, []);
    TotalByField(rs);
    SumConstant(Picked(rs, (s: Statistics) => s.addedStmts), 0);
    SumConstant(Picked(rs, (s: Statistics) => s.removedStmts), 0);
    SumConstant(Picked(rs, (s: Statistics) => s.addedNs), 0);
    SumConstant(Picked(rs, (s: Statistics) => s.removedNs), 0);
  }

  /** One more request moves each column by what all backends add to it. */
  lemma StepFields(h: HashFn, f: Bytes -> nat, n: nat, q: Quads, r: Request,
                   before: seq<Statistics>, now: seq<Statistics>)
    requires n > 0 && |before| == |now| == n
    requires forall i | 0 <= i < n ::
      now[i] == match r
                case StmtAdded(s) =>
                  if Bucket(f, n, s) == i then before[i].(addedStmts := before[i].addedStmts + 1) else before[i]
                case StmtRemoved(p) =>
                  before[i].(removedStmts := before[i].removedStmts + |ScanKeys(h, Part(f, n, q, i), p)|)
                case NsAdded(_) => before[i].(addedNs := before[i].addedNs + 1)
                case _ => before[i]
    ensures Total(now) == match r
                          case StmtAdded(s) => Total(before).(addedStmts := Total(before).addedStmts + 1)
                          case StmtRemoved(p) =>
                            Total(before).(removedStmts := Total(before).removedStmts + |ScanKeys(h, q, p)|)
                          case NsAdded(_) => Total(before).(addedNs := Total(before).addedNs + n)
                          case _ => Total(before)
  {
    hide Bucket, ScanKeys, Part, Total;
    TotalByField(before); TotalByField(now);
    var a := (s: Statistics) => s.addedStmts;
    var b := (s: Statistics) => s.removedStmts;
    var c := (s: Statistics) => s.addedNs;
    var d := (s: Statistics) => s.removedNs;
    match r {
      case StmtAdded(s) =>
        var one := seq(n, i => if i == Bucket(f, n, s) then 1 else 0);
        SumIndicator(one, Bucket(f, n, s));
        SumPlus(Picked(before, a), one, Picked(now, a));
        assert Picked(now, b) == Picked(before, b) && Picked(now, c) == Picked(before, c)
          && Picked(now, d) == Picked(before, d);
      case StmtRemoved(p) =>
        ScanCountsAddUp(h, f, n, q, p);
        SumPlus(Picked(before, b), ScanCounts(h, f, n, q, p), Picked(now, b));
        assert Picked(now, a) == Picked(before, a) && Picked(now, c) == Picked(before, c)
          && Picked(now, d) == Picked(before, d);
      case NsAdded(_) =>
        var ones := seq(n, i => 1);
        SumConstant(ones, 1);
        SumPlus(Picked(before, c), ones, Picked(now, c));
        assert Picked(now, a) == Picked(before, a) && Picked(now, b) == Picked(before, b)
          && Picked(now, d) == Picked(before, d);
      case _ =>
        assert now == before;
    }
  }

  method AddUp(responses: seq<Statistics>) returns (result: Statistics)
    ensures result == Total(responses)
  {
    result := Statistics(0, 0, 0, 0);
    for i := 0 to |responses|
      invariant result == Total(responses[..i])
    {
      assert responses[..i + 1][..i] == responses[..i];
      result := Plus(result, responses[i]);
    }
    assert responses[..|responses|] == responses;
  }

  // ---- The proxy ----

  class ShardingService {
    const backends: seq<LevelDBPersistence>
    const h: HashFn
    const f: Bytes -> nat

    constructor (backends: seq<LevelDBPersistence>, h: HashFn, f: Bytes -> nat)
      ensures this.backends == backends && this.h == h && this.f == f
    {
      this.backends, this.h, this.f := backends, h, f;
    }

    ghost predicate Valid()
      reads this, backends
    {
      && |backends| > 0
      && (forall i, j | 0 <= i < j < |backends| :: backends[i] != backends[j])
      && (forall i | 0 <= i < |backends| :: backends[i].h == h && backends[i].Valid())
    }

    /** Together the backends hold the statements `q` and each of them the namespaces `ns`. */
    ghost predicate Holds(q: Quads, ns: NsStore)
      requires |backends| > 0
      reads backends
    {
      forall i | 0 <= i < |backends| :: backends[i].spoc == Part(f, |backends|, q, i) && backends[i].Ns() == ns
    }

    /** Read the stream into one writer per backend. */
    method Route(reqs: seq<Request>) returns (writers: seq<seq<Request>>)
      requires |backends| > 0
      ensures |writers| == |backends|
      ensures forall i | 0 <= i < |backends| :: writers[i] == Routed(f, |backends|, reqs, i)
      ensures forall i, r | 0 <= i < |backends| ::
                r in writers[i] <==> r in reqs && (r.StmtAdded? ==> f(StatementBytes(r.stmt)) % |backends| == i)
    {
      hide StatementBytes;
      var n := |backends|;
      writers := seq(n, i => []);
      for m := 0 to |reqs|
        invariant |writers| == n
        invariant forall i | 0 <= i < n :: writers[i] == Routed(f, n, reqs[..m], i)
      {
        var req := reqs[m];
        assert reqs[..m + 1] == reqs[..m] + [req];
        forall i | 0 <= i < n { RoutedSnoc(f, n, reqs[..m], req, i); }
        if req.StmtAdded? {
          var bucket := f(StatementBytes(req.stmt)) % n;
          writers := writers[bucket := writers[bucket] + [req]];
        } else {
          writers := seq(n, i requires 0 <= i < n && |writers| == n => writers[i] + [req]);
        }
      }
      assert reqs[..|reqs|] == reqs;
      forall i, r | 0 <= i < n { RoutedMembers(f, n, reqs, i, r); }
    }

    /** Update: the backends afterwards hold exactly what the single store would. */
    method Update(reqs: seq<Request>, ghost q: Quads, ghost ns: NsStore, ghost u: iset<Statement>)
      returns (result: Statistics)
      requires Valid() && Holds(q, ns)
      requires KeyDecidesShard(h, f, |backends|, u) && Keyed(h, q) && StoredIn(q, u) && AddedIn(reqs, u)
      modifies backends
      ensures Valid() && Holds(Batched(h, q, reqs), BatchedNs(ns, reqs))
      ensures var t := StatisticsOf(h, q, reqs);
              result == Statistics(t.addedStmts, t.removedStmts, |backends| * t.addedNs, 0)
    {
      hide Bucket, Batched, BatchedNs, Routed, Part, KeyDecidesShard, Keyed, StoredIn, AddedIn, StatisticsOf,
           Consistent, WellKeyed, Total, StatementBytes;
      var n := |backends|;
      var writers := Route(reqs);
      var responses := [];
      for i := 0 to n
        invariant |responses| == i && Valid()
        invariant forall j | 0 <= j < i :: responses[j] == Response(h, f, n, q, reqs, j)
        invariant forall j | 0 <= j < i ::
                    backends[j].spoc == Part(f, n, Batched(h, q, reqs), j) && backends[j].Ns() == BatchedNs(ns, reqs)
        invariant forall j | i <= j < n :: backends[j].spoc == Part(f, n, q, j) && backends[j].Ns() == ns
      {
        var r := backends[i].Update(writers[i]);
        UpdateRefines(h, f, n, u, q, reqs, i);
        NamespacesReplicated(f, n, ns, reqs, i);
        responses := responses + [r];
      }
      result := AddUp(responses);
      assert responses == Responses(h, f, n, q, reqs);
      ReportedTotals(h, f, n, q, reqs);
    }

    /** RemoveStatements on every backend; the responses are added up by Fanout. */
    method RemoveStatements(pattern: Statement, ghost q: Quads, ghost ns: NsStore) returns (responses: seq<int>)
      requires Valid() && Holds(q, ns)
      modifies backends
      ensures Valid() && Holds(q - ScanKeys(h, q, pattern), ns)
      ensures responses == ScanCounts(h, f, |backends|, q, pattern)
      ensures Sum(responses) == |ScanKeys(h, q, pattern)|
    {
      hide ScanKeys, Part, Consistent, WellKeyed;
      var n := |backends|;
      responses := [];
      for i := 0 to n
        invariant |responses| == i && Valid()
        invariant forall j | 0 <= j < i :: responses[j] == |ScanKeys(h, Part(f, n, q, j), pattern)|
        invariant forall j | 0 <= j < i ::
                    backends[j].spoc == Part(f, n, q - ScanKeys(h, q, pattern), j) && backends[j].Ns() == ns
        invariant forall j | i <= j < n :: backends[j].spoc == Part(f, n, q, j) && backends[j].Ns() == ns
      {
        var r := backends[i].RemoveStatements(pattern);
        RemoveRefines(h, f, n, q, pattern, i);
        responses := responses + [r];
      }
      ScanCountsAddUp(h, f, n, q, pattern);
    }

    /** AddNamespaces on every backend; the first backend's count is reported. */
    method AddNamespaces(namespaces: seq<Namespace>, ghost q: Quads, ghost ns: NsStore) returns (result: int)
      requires Valid() && Holds(q, ns)
      modifies backends
      ensures Valid() && Holds(q, BatchedNs(ns, NsAdditions(namespaces))) && result == |namespaces|
    {
      hide Part, Consistent, WellKeyed, BatchedNs, LastBound;
      var n := |backends|;
      var stats := [];
      for i := 0 to n
        invariant |stats| == i && Valid()
        invariant forall j | 0 <= j < i :: stats[j] == |namespaces|
        invariant forall j | 0 <= j < n :: backends[j].spoc == Part(f, n, q, j)
        invariant forall j | 0 <= j < i :: backends[j].Ns() == BatchedNs(ns, NsAdditions(namespaces))
        invariant forall j | i <= j < n :: backends[j].Ns() == ns
      {
        var r := backends[i].AddNamespaces(namespaces);
        stats := stats + [r];
      }
      result := stats[0];
    }

    /** GetNamespaces through a random backend: the answer does not depend on the choice. */
    method GetNamespaces(pattern: Namespace, bucket: nat, ghost q: Quads, ghost ns: NsStore) returns (r: set<Namespace>)
      requires Valid() && Holds(q, ns) && bucket < |backends|
      ensures r == Found(ns, pattern)
    {
      r := backends[bucket].GetNamespaces(pattern);
      forall x ensures x in r <==> x in Found(ns, pattern) { FoundEntries(ns, pattern, x); }
      assert r == Found(ns, pattern);
    }
  }
}
