/** The proxy's GetStatements (sharding/sharding.cc:196-233): one thread per backend forwards
    its stream under a common mutex. */
module Gather {
  import opened Bytes
  import opened Rdf
  import opened Keys
  import opened Updates
  import opened Persistence
  import opened Shards
  import opened ShardingProxy

  lemma {:induction false} SumUpdate(xs: seq<int>, i: nat, v: int)
    requires i < |xs|
    ensures Sum(xs[i := v]) == Sum(xs) - xs[i] + v
  {
    var n := |xs| - 1;
    if i == n {
      assert xs[i := v][..n] == xs[..n];
    } else {
      SumUpdate(xs[..n], i, v);
      assert xs[i := v][..n] == xs[..n][i := v];
    }
  }

  // ---- GetStatements ----

  /** How far each backend's stream has been read, and what has been written. */
  datatype Merge<T> = Merge(read: seq<nat>, out: seq<T>)

  /** Thread `i` holds the mutex and forwards its next statement. */
  function Forward<T>(streams: seq<seq<T>>, m: Merge<T>, i: nat): (r: Merge<T>)
    requires |m.read| == |streams| && i < |streams| && m.read[i] < |streams[i]|
  {
    Merge(m.read[i := m.read[i] + 1], m.out + [streams[i][m.read[i]]])
  }

  /** A run that lets threads forward in the order `turns`; a turn of a thread that has
      nothing left changes nothing. */
  function MergeRun<T>(streams: seq<seq<T>>, turns: seq<nat>): (m: Merge<T>)
    ensures |m.read| == |streams| && forall i | 0 <= i < |streams| :: m.read[i] <= |streams[i]|
  {
    if turns == [] then Merge(seq(|streams|, i => 0), [])
    else
      var m := MergeRun(streams, turns[..|turns| - 1]);
      var i := turns[|turns| - 1];
      if i < |streams| && m.read[i] < |streams[i]| then Forward(streams, m, i) else m
  }

  ghost function Seen<T>(streams: seq<seq<T>>, read: seq<nat>, x: T): (r: seq<int>)
    requires |read| == |streams| && forall i | 0 <= i < |streams| :: read[i] <= |streams[i]|
    ensures |r| == |streams|
  {
    seq(|streams|, i requires 0 <= i < |streams| => multiset(streams[i][..read[i]])[x])
  }

  lemma SeenStep<T>(streams: seq<seq<T>>, read: seq<nat>, i: nat, x: T)
    requires |read| == |streams| && forall j | 0 <= j < |streams| :: read[j] <= |streams[j]|
    requires i < |streams| && read[i] < |streams[i]|
    ensures Sum(Seen(streams, read[i := read[i] + 1], x)) ==
            Sum(Seen(streams, read, x)) + if streams[i][read[i]] == x then 1 else 0
  {
    var a, y := Seen(streams, read, x), streams[i][read[i]];
    var v := a[i] + if y == x then 1 else 0;
    assert streams[i][..read[i] + 1] == streams[i][..read[i]] + [y];
    assert Seen(streams, read[i := read[i] + 1], x) == a[i := v];
    SumUpdate(a, i, v);
  }

  /** At every point of every run, what has been written is what has been read. */
  lemma {:induction false} MergeConserves<T>(streams: seq<seq<T>>, turns: seq<nat>, x: T)
    ensures var m := MergeRun(streams, turns); multiset(m.out)[x] == Sum(Seen(streams, m.read, x))
  {
    hide Sum;
    if turns == [] {
      SumConstant(Seen(streams, MergeRun(streams, turns).read, x), 0);
    } else {
      var m0, i := MergeRun(streams, turns[..|turns| - 1]), turns[|turns| - 1];
      MergeConserves(streams, turns[..|turns| - 1], x);
      if i < |streams| && m0.read[i] < |streams[i]| {
        SeenStep(streams, m0.read, i, x);
      }
    }
  }

  lemma {:induction false} DistinctCount<T>(s: seq<T>, x: T)
    requires Distinct(s)
    ensures multiset(s)[x] == if x in s then 1 else 0
  {
    if s != [] {
      var n := |s| - 1;
      DistinctCount(s[..n], x);
      assert s == s[..n] + [s[n]];
    }
  }

  lemma AnswerCount(h: HashFn, q: Quads, p: Statement, out: seq<Statement>, s: Statement)
    requires Answers(h, q, p, out)
    ensures multiset(out)[s] == if Stored(h, q, s) && Hits(h, p, KeyOf(h, s)) then 1 else 0
  {
    hide KeyOf, Hits;
    DistinctCount(out, s);
  }

  lemma ShardAnswerCount(h: HashFn, f: Bytes -> nat, n: nat, q: Quads, p: Statement, i: nat, out: seq<Statement>,
                         s: Statement)
    requires n > 0 && Answers(h, Part(f, n, q, i), p, out)
    ensures multiset(out)[s] == if Stored(h, q, s) && Hits(h, p, KeyOf(h, s)) && Bucket(f, n, s) == i then 1 else 0
  {
    hide KeyOf, Hits, Bucket;
    AnswerCount(h, Part(f, n, q, i), p, out, s);
  }

  /** Under every interleaving, the proxy's GetStatements emits the statements the single
      store would: exactly those once all streams are read, never others before that. */
  lemma GatheredAnswers(h: HashFn, f: Bytes -> nat, q: Quads, p: Statement,
                        streams: seq<seq<Statement>>, turns: seq<nat>, single: seq<Statement>)
    requires |streams| > 0
    requires forall i | 0 <= i < |streams| :: Answers(h, Part(f, |streams|, q, i), p, streams[i])
    requires Answers(h, q, p, single)
    ensures var m := MergeRun(streams, turns);
            && multiset(m.out) <= multiset(single)
            && ((forall i | 0 <= i < |streams| :: m.read[i] == |streams[i]|) ==> multiset(m.out) == multiset(single))
  {
    var n, m := |streams|, MergeRun(streams, turns);
    var finished := forall i | 0 <= i < n :: m.read[i] == |streams[i]|;
    forall s ensures multiset(m.out)[s] <= multiset(single)[s]
             ensures finished ==> multiset(m.out)[s] == multiset(single)[s]
    {
      MergeConserves(streams, turns, s);
      AnswerCount(h, q, p, single, s);
      GatheredCount(h, f, q, p, streams, m.read, s);
    }
  }

  lemma GatheredCount(h: HashFn, f: Bytes -> nat, q: Quads, p: Statement, streams: seq<seq<Statement>>, read: seq<nat>,
                      s: Statement)
    requires |streams| == |read| > 0 && forall i | 0 <= i < |streams| :: read[i] <= |streams[i]|
    requires forall i | 0 <= i < |streams| :: Answers(h, Part(f, |streams|, q, i), p, streams[i])
    ensures var there := if Stored(h, q, s) && Hits(h, p, KeyOf(h, s)) then 1 else 0;
            && Sum(Seen(streams, read, s)) <= there
            && ((forall i | 0 <= i < |streams| :: read[i] == |streams[i]|) ==> Sum(Seen(streams, read, s)) == there)
  {
    hide KeyOf, Hits, Bucket, Answers, Stored, Part;
    var n, a := |streams|, Seen(streams, read, s);
    var full := seq(n, i requires 0 <= i < n => multiset(streams[i])[s]);
    forall i | 0 <= i < n
      ensures a[i] <= full[i] && (read[i] == |streams[i]| ==> a[i] == full[i])
      ensures full[i] == if Stored(h, q, s) && Hits(h, p, KeyOf(h, s)) && Bucket(f, n, s) == i then 1 else 0
    {
      assert streams[i] == streams[i][..read[i]] + streams[i][read[i]..];
      ShardAnswerCount(h, f, n, q, p, i, streams[i], s);
    }
    SumMonotone(a, full);
    if Stored(h, q, s) && Hits(h, p, KeyOf(h, s)) {
      SumIndicator(full, Bucket(f, n, s));
    } else {
      SumConstant(full, 0);
    }
    assert (forall i | 0 <= i < n :: read[i] == |streams[i]|) ==> a == full;
  }

  lemma {:induction false} SumMonotone(a: seq<int>, b: seq<int>)
    requires |a| == |b| && forall i | 0 <= i < |a| :: a[i] <= b[i]
    ensures Sum(a) <= Sum(b)
  {
    if a != [] { SumMonotone(a[..|a| - 1], b[..|b| - 1]); }
  }
}
