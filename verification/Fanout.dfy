/** Fanout's unprotected sum (sharding/sharding.cc:64-80). `r += response.value()` is a
    load and a store; a thread that stores overwrites whatever was stored since its load.
    The history fields record whose responses a value includes. */
module Fanout {
  import opened Bytes
  import opened Rdf
  import opened Keys
  import opened Updates
  import opened Service
  import opened Shards
  import opened ShardingProxy
  import opened Gather

  datatype Step = Load(t: nat) | Store(t: nat)

  /** Where a thread is: before its load, between load and store (with the loaded value,
      the responses it includes, and the time of the load), or finished. */
  datatype Thread = Waiting | Loaded(value: int, seen: set<nat>, at: nat) | Finished

  /** `included` are the threads whose responses `r` adds up; `last` is the time of the
      latest store, -1 before the first. */
  datatype Machine = Machine(r: int, included: set<nat>, threads: seq<Thread>, last: int)

  predicate Enabled(m: Machine, s: Step) {
    match s
    case Load(t) => t < |m.threads| && m.threads[t].Waiting?
    case Store(t) => t < |m.threads| && m.threads[t].Loaded?
  }

  function Next(resp: seq<int>, m: Machine, s: Step, now: nat): (m': Machine)
    requires |m.threads| == |resp| && Enabled(m, s)
  {
    match s
    case Load(t) => m.(threads := m.threads[t := Loaded(m.r, m.included, now)])
    case Store(t) =>
      var c := m.threads[t];
      Machine(c.value + resp[t], c.seen + {t}, m.threads[t := Finished], now)
  }

  ghost predicate Legal(resp: seq<int>, run: seq<Step>)
    decreases |run|, 0
  {
    run == [] || (Legal(resp, run[..|run| - 1]) && Enabled(After(resp, run[..|run| - 1]), run[|run| - 1]))
  }

  ghost function After(resp: seq<int>, run: seq<Step>): (m: Machine)
    requires Legal(resp, run)
    ensures |m.threads| == |resp|
    decreases |run|, 1
  {
    if run == [] then Machine(0, {}, seq(|resp|, i => Waiting), -1)
    else Next(resp, After(resp, run[..|run| - 1]), run[|run| - 1], |run| - 1)
  }

  ghost function Done(m: Machine): (r: set<nat>) { set t: nat | t < |m.threads| && m.threads[t].Finished? }

  /** The sum of the responses of the threads in `u`. */
  ghost function SumOf(resp: seq<int>, u: set<nat>): (r: int) {
    Sum(seq(|resp|, i requires 0 <= i < |resp| => if i in u then resp[i] else 0))
  }

  lemma SumOfPlus(resp: seq<int>, u: set<nat>, t: nat)
    requires t < |resp| && t !in u
    ensures SumOf(resp, u + {t}) == SumOf(resp, u) + resp[t]
  {
    var a := seq(|resp|, i requires 0 <= i < |resp| => if i in u then resp[i] else 0);
    var b := seq(|resp|, i requires 0 <= i < |resp| => if i in u + {t} then resp[i] else 0);
    assert b == a[t := resp[t]];
    SumUpdate(a, t, resp[t]);
  }

  /** What holds after every legal run. */
  ghost predicate Invariant(resp: seq<int>, m: Machine, run: seq<Step>)
    requires |m.threads| == |resp|
  {
    && m.r == SumOf(resp, m.included)
    && m.included <= Done(m)
    && -1 <= m.last < |run|
    && (m.last >= 0 ==> run[m.last].Store? && run[m.last].t in m.included)
    && (m.last < 0 ==> Done(m) == {})
    && (forall i | m.last < i < |run| :: run[i].Load?)
    && forall t: nat | t < |m.threads| && m.threads[t].Loaded? :: LoadedWell(resp, m, run, t)
  }

  /** A loaded thread holds the sum it saw; if a store came after its load, it has not seen
      the latest storer. */
  ghost predicate LoadedWell(resp: seq<int>, m: Machine, run: seq<Step>, t: nat)
    requires t < |m.threads| == |resp| && m.threads[t].Loaded?
  {
    var c := m.threads[t];
    && c.value == SumOf(resp, c.seen)
    && c.seen <= Done(m)
    && c.at < |run| && run[c.at] == Load(t)
    && (forall i | c.at < i < |run| :: run[i] != Store(t))
    && (m.last < c.at ==> c.seen == m.included)
    && (c.at < m.last < |run| ==> run[m.last].Store? && run[m.last].t !in c.seen)
  }

  lemma StepKeeps(resp: seq<int>, m: Machine, run: seq<Step>, s: Step)
    requires |m.threads| == |resp| && Invariant(resp, m, run) && Enabled(m, s)
    ensures Invariant(resp, Next(resp, m, s, |run|), run + [s])
  {
    hide SumOf;
    var m' := Next(resp, m, s, |run|);
    var t := s.t;
    match s
    case Load(_) =>
      assert Done(m') == Done(m);
      forall x: nat | x < |m'.threads| && m'.threads[x].Loaded? ensures LoadedWell(resp, m', run + [s], x) {
        if x != t { assert LoadedWell(resp, m, run, x); }
      }
    case Store(_) =>
      assert LoadedWell(resp, m, run, t);
      assert Done(m') == Done(m) + {t};
      assert t !in Done(m);
      SumOfPlus(resp, m.threads[t].seen, t);
      forall x: nat | x < |m'.threads| && m'.threads[x].Loaded? ensures LoadedWell(resp, m', run + [s], x) {
        assert LoadedWell(resp, m, run, x);
      }
  }

  lemma {:induction false} RunKeeps(resp: seq<int>, run: seq<Step>)
    requires Legal(resp, run)
    ensures Invariant(resp, After(resp, run), run)
  {
    if run == [] {
      var none: set<nat> := {};
      SumConstant(seq(|resp|, i requires 0 <= i < |resp| => if i in none then resp[i] else 0), 0);
      assert SumOf(resp, none) == 0;
    } else {
      RunKeeps(resp, run[..|run| - 1]);
      StepKeeps(resp, After(resp, run[..|run| - 1]), run[..|run| - 1], run[|run| - 1]);
      assert run[..|run| - 1] + [run[|run| - 1]] == run;
    }
  }

  /** In every interleaving `r` ends as the sum of some of the responses, the last storer's
      among them. */
  lemma EndsAsPartialSum(resp: seq<int>, run: seq<Step>)
    requires Legal(resp, run) && Done(After(resp, run)) != {}
    ensures var m := After(resp, run);
            && m.r == SumOf(resp, m.included) && m.included <= Done(m)
            && 0 <= m.last < |run| && run[m.last].Store? && run[m.last].t in m.included
            && forall i | m.last < i < |run| :: !run[i].Store?
  {
    RunKeeps(resp, run);
  }

  // ---- When nothing is lost ----

  /** No store falls strictly between a thread's load and its store; `NoOverlapMeans` reads
      this as windows that do not overlap. */
  ghost predicate NoOverlap(run: seq<Step>) {
    forall a, b, c | 0 <= a < b < c < |run| && run[a].Load? && run[c] == Store(run[a].t) :: !run[b].Store?
  }

  /** One load and store of each thread per legal run. */
  lemma {:induction false} LoadsOnce(resp: seq<int>, run: seq<Step>, t: nat, a: nat)
    requires Legal(resp, run) && t < |resp| && a < |run| && run[a] == Load(t)
    ensures !After(resp, run).threads[t].Waiting?
    ensures After(resp, run).threads[t].Loaded? ==> After(resp, run).threads[t].at == a
  {
    var n := |run| - 1;
    if a < n { LoadsOnce(resp, run[..n], t, a); }
  }

  /** A step loses nothing if and only if nothing was lost before and, for a store, nothing
      was stored since the thread's load. */
  lemma StepLoses(resp: seq<int>, m: Machine, run: seq<Step>, s: Step)
    requires |m.threads| == |resp| && Invariant(resp, m, run) && Enabled(m, s)
    ensures var m' := Next(resp, m, s, |run|);
            m'.included == Done(m') <==> m.included == Done(m) && (s.Store? ==> m.last < m.threads[s.t].at)
  {
    hide SumOf;
    var m', t := Next(resp, m, s, |run|), s.t;
    if s.Load? {
      assert Done(m') == Done(m);
    } else {
      var c := m.threads[t];
      assert LoadedWell(resp, m, run, t);
      assert Done(m') == Done(m) + {t} && t !in Done(m);
      if m.last < c.at {
        assert m.included + {t} == Done(m) + {t} <==> m.included == Done(m);
      } else {
        assert m.last != c.at;
        assert run[m.last].t in Done(m) && run[m.last].t !in m'.included;
      }
    }
  }

  lemma {:induction false} NothingLostIff(resp: seq<int>, run: seq<Step>)
    requires Legal(resp, run)
    ensures After(resp, run).included == Done(After(resp, run)) <==> NoOverlap(run)
  {
    hide Invariant, Next, Done, NoOverlap;
    if run == [] {
      EmptyRun(resp);
    } else {
      var n := |run| - 1;
      var before, s := run[..n], run[n];
      NothingLostIff(resp, before);
      RunKeeps(resp, before);
      StepLoses(resp, After(resp, before), before, s);
      assert run == before + [s];
      NoOverlapSnoc(before, s);
      if s.Store? { WindowClear(resp, before, s.t); }
    }
  }

  lemma EmptyRun(resp: seq<int>)
    ensures Done(After(resp, [])) == {} && NoOverlap([])
  {
  }

  lemma NoOverlapSnoc(run: seq<Step>, s: Step)
    ensures NoOverlap(run + [s]) <==>
            NoOverlap(run) && (s.Store? ==> forall a, b | 0 <= a < b < |run| && run[a] == Load(s.t) :: !run[b].Store?)
  {
    var all := run + [s];
    if NoOverlap(all) {
      forall a, b, c | 0 <= a < b < c < |run| && run[a].Load? && run[c] == Store(run[a].t) ensures !run[b].Store? {
        assert all[a] == run[a] && all[b] == run[b] && all[c] == run[c];
      }
      if s.Store? {
        forall a, b | 0 <= a < b < |run| && run[a] == Load(s.t) ensures !run[b].Store? {
          assert all[a] == run[a] && all[b] == run[b] && all[|run|] == s;
        }
      }
    }
  }

  /** For a loaded thread, "no store since its load" read off the run and off the machine. */
  lemma WindowClear(resp: seq<int>, run: seq<Step>, t: nat)
    requires Legal(resp, run) && t < |resp| && After(resp, run).threads[t].Loaded?
    ensures After(resp, run).last < After(resp, run).threads[t].at <==>
            forall a, b | 0 <= a < b < |run| && run[a] == Load(t) :: !run[b].Store?
  {
    hide SumOf;
    var m := After(resp, run);
    RunKeeps(resp, run);
    assert LoadedWell(resp, m, run, t);
    forall a | 0 <= a < |run| && run[a] == Load(t) ensures a == m.threads[t].at { LoadsOnce(resp, run, t, a); }
    if m.threads[t].at < m.last {
      assert run[m.last].Store?;
    }
  }

  /** Once every thread has stored, `r` is the true total whenever no two windows overlap;
      and if some do, a response is missing from it. */
  lemma FullSum(resp: seq<int>, run: seq<Step>)
    requires Legal(resp, run) && forall t | 0 <= t < |resp| :: After(resp, run).threads[t].Finished?
    ensures NoOverlap(run) ==> After(resp, run).r == Sum(resp)
    ensures !NoOverlap(run) ==> exists t: nat :: t < |resp| && t !in After(resp, run).included
  {
    var m := After(resp, run);
    RunKeeps(resp, run);
    NothingLostIff(resp, run);
    if NoOverlap(run) {
      assert seq(|resp|, i requires 0 <= i < |resp| => if i in m.included then resp[i] else 0) == resp;
    } else {
      var t: nat :| t in Done(m) && t !in m.included;
    }
  }

  /** Two responses suffice to lose one: if both threads load before either stores, the result
      is the second storer's response alone. */
  lemma OverlapLoses(a: int, b: int)
    ensures var resp, run := [a, b], [Load(0), Load(1), Store(0), Store(1)];
            && Legal(resp, run) && After(resp, run).r == b
            && forall t | 0 <= t < 2 :: After(resp, run).threads[t].Finished?
  {
    var resp, run := [a, b], [Load(0), Load(1), Store(0), Store(1)];
    assert run[..3] == [Load(0), Load(1), Store(0)] && run[..3][..2] == [Load(0), Load(1)];
    assert run[..3][..2][..1] == [Load(0)] && run[..3][..2][..1][..0] == [];
    assert Legal(resp, run[..3][..2][..1]);
    assert Legal(resp, run[..3][..2]);
    assert Legal(resp, run[..3]);
  }

  lemma SumOfBound(resp: seq<int>, u: set<nat>)
    requires forall i | 0 <= i < |resp| :: resp[i] >= 0
    ensures SumOf(resp, u) <= Sum(resp)
  {
    SumMonotone(seq(|resp|, i requires 0 <= i < |resp| => if i in u then resp[i] else 0), resp);
  }

  /** What Fanout reports when the true total of the responses is `total`. */
  lemma ReportedSum(resp: seq<int>, total: int, run: seq<Step>)
    requires (forall i | 0 <= i < |resp| :: resp[i] >= 0) && Sum(resp) == total
    requires Legal(resp, run) && forall t | 0 <= t < |resp| :: After(resp, run).threads[t].Finished?
    ensures After(resp, run).r <= total && (NoOverlap(run) ==> After(resp, run).r == total)
  {
    hide Legal, After, NoOverlap, SumOf, Sum;
    RunKeeps(resp, run);
    SumOfBound(resp, After(resp, run).included);
    FullSum(resp, run);
  }

  /** The count the proxy returns for RemoveStatements never exceeds the number of statements
      removed, and equals it when no two load-store windows overlap. */
  lemma RemovedCount(h: HashFn, f: Bytes -> nat, n: nat, q: Quads, p: Statement, run: seq<Step>)
    requires n > 0
    requires Legal(ScanCounts(h, f, n, q, p), run)
    requires forall t | 0 <= t < n :: After(ScanCounts(h, f, n, q, p), run).threads[t].Finished?
    ensures var r := After(ScanCounts(h, f, n, q, p), run).r;
            r <= |ScanKeys(h, q, p)| && (NoOverlap(run) ==> r == |ScanKeys(h, q, p)|)
  {
    hide ScanKeys, Part, Legal, After, NoOverlap, Sum;
    ScanCountsAddUp(h, f, n, q, p);
    ReportedSum(ScanCounts(h, f, n, q, p), |ScanKeys(h, q, p)|, run);
  }

  /** Likewise for Size, for every list of contexts. */
  lemma ReportedSize(h: HashFn, f: Bytes -> nat, n: nat, q: Quads, contexts: seq<Resource>, run: seq<Step>)
    requires n > 0
    requires Legal(SizeAnswers(h, f, n, q, contexts), run)
    requires forall t | 0 <= t < n :: After(SizeAnswers(h, f, n, q, contexts), run).threads[t].Finished?
    ensures var r := After(SizeAnswers(h, f, n, q, contexts), run).r;
            r <= SizeAnswer(h, q, contexts) && (NoOverlap(run) ==> r == SizeAnswer(h, q, contexts))
  {
    hide SizeAnswer, Part, Legal, After, NoOverlap, Sum;
    SizeAnswersAddUp(h, f, n, q, contexts);
    ReportedSum(SizeAnswers(h, f, n, q, contexts), SizeAnswer(h, q, contexts), run);
  }

  /** And for Clear. */
  lemma ReportedClear(h: HashFn, f: Bytes -> nat, n: nat, q: Quads, contexts: seq<Resource>, run: seq<Step>)
    requires n > 0
    requires Legal(ClearAnswers(h, f, n, q, contexts), run)
    requires forall t | 0 <= t < n :: After(ClearAnswers(h, f, n, q, contexts), run).threads[t].Finished?
    ensures var r := After(ClearAnswers(h, f, n, q, contexts), run).r;
            r <= ClearAnswer(h, q, contexts) && (NoOverlap(run) ==> r == ClearAnswer(h, q, contexts))
  {
    hide ClearAnswer, Part, Legal, After, NoOverlap, Sum;
    ClearAnswersAddUp(h, f, n, q, contexts);
    ReportedSum(ClearAnswers(h, f, n, q, contexts), ClearAnswer(h, q, contexts), run);
  }

  // ---- Windows ----

  /** Thread `t` loads at `a` and stores at `b`, thread `u` at `c` and `d`, and the two windows
      overlap. */
  predicate Crossing(run: seq<Step>, t: nat, u: nat, a: nat, b: nat, c: nat, d: nat) {
    && a < |run| && b < |run| && c < |run| && d < |run| && a < d && c < b
    && run[a] == Load(t) && run[b] == Store(t) && run[c] == Load(u) && run[d] == Store(u)
  }

  /** The load-store windows of two threads overlap. */
  ghost predicate Overlap(run: seq<Step>, t: nat, u: nat) {
    exists a: nat, b: nat, c: nat, d: nat :: Crossing(run, t, u, a, b, c, d)
  }

  lemma {:induction false} StoresAfterLoad(resp: seq<int>, run: seq<Step>, b: nat) returns (a: nat)
    requires Legal(resp, run) && b < |run| && run[b].Store?
    ensures a < b && run[a] == Load(run[b].t)
  {
    var n := |run| - 1;
    if b < n {
      a := StoresAfterLoad(resp, run[..n], b);
    } else {
      RunKeeps(resp, run[..n]);
      var m := After(resp, run[..n]);
      assert LoadedWell(resp, m, run[..n], run[n].t);
      a := m.threads[run[n].t].at;
    }
  }

  lemma {:induction false} StoredIsFinished(resp: seq<int>, run: seq<Step>, b: nat)
    requires Legal(resp, run) && b < |run| && run[b].Store?
    ensures run[b].t < |resp| && After(resp, run).threads[run[b].t].Finished?
  {
    var n := |run| - 1;
    if b < n { StoredIsFinished(resp, run[..n], b); }
  }

  lemma StoresOnce(resp: seq<int>, run: seq<Step>, b: nat, c: nat)
    requires Legal(resp, run) && b < c < |run| && run[b].Store?
    ensures run[c] != run[b]
  {
    LegalPrefix(resp, run, c);
    LegalPrefix(resp, run, c + 1);
    assert run[..c + 1][..c] == run[..c] && run[..c + 1][c] == run[c];
    StoredIsFinished(resp, run[..c], b);
  }

  lemma {:induction false} LegalPrefix(resp: seq<int>, run: seq<Step>, n: nat)
    requires Legal(resp, run) && n <= |run|
    ensures Legal(resp, run[..n])
  {
    if n < |run| {
      LegalPrefix(resp, run[..|run| - 1], n);
      assert run[..|run| - 1][..n] == run[..n];
    } else {
      assert run[..n] == run;
    }
  }

  lemma OverlapHasInnerStore(run: seq<Step>, t: nat, u: nat)
    requires Overlap(run, t, u) && t != u
    ensures !NoOverlap(run)
  {
    hide NoOverlap;
    var a: nat, b: nat, c: nat, d: nat :| Crossing(run, t, u, a, b, c, d);
    if d < b { InnerStore(run, a, d, b); } else { InnerStore(run, c, b, d); }
  }

  lemma InnerStore(run: seq<Step>, a: int, b: int, c: int)
    requires 0 <= a < b < c < |run| && run[a].Load? && run[c] == Store(run[a].t) && run[b].Store?
    ensures !NoOverlap(run)
  {
  }

  lemma InnerStoreOverlaps(resp: seq<int>, run: seq<Step>) returns (t: nat, u: nat)
    requires Legal(resp, run) && !NoOverlap(run)
    ensures t != u && Overlap(run, t, u)
  {
    hide Legal;
    var a, b, c :| 0 <= a < b < c < |run| && run[a].Load? && run[c] == Store(run[a].t) && run[b].Store?;
    StoresOnce(resp, run, b, c);
    var l := StoresAfterLoad(resp, run, b);
    t, u := run[a].t, run[b].t;
    assert Crossing(run, t, u, a, c, l, b);
  }

  /** In a legal run, "no store inside another thread's window" and "no two windows overlap"
      are the same. */
  lemma NoOverlapMeans(resp: seq<int>, run: seq<Step>)
    requires Legal(resp, run)
    ensures NoOverlap(run) <==> !exists t: nat, u: nat :: t != u && Overlap(run, t, u)
  {
    hide Legal, NoOverlap, Overlap;
    if t: nat, u: nat :| t != u && Overlap(run, t, u) {
      OverlapHasInnerStore(run, t, u);
    } else if !NoOverlap(run) {
      var t, u := InnerStoreOverlaps(resp, run);
    }
  }
}
