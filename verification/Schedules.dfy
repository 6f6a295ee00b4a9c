/** Writer threads: several operations each commit one atomic batch per database, every
    commit from a thread of its own, and the commits take place in some order. */
module Schedules {
  import opened Bytes
  import opened LevelDb

  /** The thread of operation `op` that writes database `db`. */
  datatype Job<D> = Job(op: nat, db: D)

  /** Every job belongs to one of `n` operations. */
  predicate Runs<D(==)>(n: nat, s: seq<Job<D>>) { forall i | 0 <= i < |s| :: s[i].op < n }

  /** Every thread of every operation runs, once. */
  ghost predicate Complete<D(!new)>(n: nat, s: seq<Job<D>>) {
    Runs(n, s) && Distinct(s) && forall j: Job<D> | j.op < n :: j in s
  }

  /** Database `db` after the schedule; `batches` is what each operation writes there. */
  function Replay<D(==), K, V>(m: map<K, V>, batches: seq<Batch<K, V>>, s: seq<Job<D>>, db: D): (r: map<K, V>)
    requires Runs(|batches|, s)
  {
    if s == [] then m
    else
      var r, last := Replay(m, batches, s[..|s| - 1], db), s[|s| - 1];
      if last.db == db then Commit(r, batches[last.op]) else r
  }

  /** Operations that write the same key leave the same thing there. */
  ghost predicate Agree<K(!new), V>(batches: seq<Batch<K, V>>) {
    forall a, b, k | 0 <= a < |batches| && 0 <= b < |batches| && k in Effect(batches[a]) && k in Effect(batches[b]) ::
      Effect(batches[a])[k] == Effect(batches[b])[k]
  }

  // ---- One key at a time ----

  lemma ReplayStep<D, K(!new), V>(m: map<K, V>, batches: seq<Batch<K, V>>, s: seq<Job<D>>, db: D, k: K)
    requires Runs(|batches|, s) && s != []
    ensures var n := |s| - 1;
            Lookup(Replay(m, batches, s, db), k) ==
            if s[n].db == db && k in Effect(batches[s[n].op]) then Effect(batches[s[n].op])[k]
            else Lookup(Replay(m, batches, s[..n], db), k)
  {
    hide Commit, Effect;
    LastWriteWins(Replay(m, batches, s[..|s| - 1], db), batches[s[|s| - 1].op]);
  }

  lemma {:induction false} Untouched<D, K(!new), V>(m: map<K, V>, batches: seq<Batch<K, V>>, s: seq<Job<D>>,
                                                    db: D, k: K)
    requires Runs(|batches|, s) && forall a | 0 <= a < |batches| :: k !in Effect(batches[a])
    ensures Lookup(Replay(m, batches, s, db), k) == Lookup(m, k)
  {
    hide Effect, Lookup;
    if s != [] {
      ReplayStep(m, batches, s, db, k);
      Untouched(m, batches, s[..|s| - 1], db, k);
    }
  }

  /** If the operations agree on `k`, that is what a schedule leaves once one of them ran. */
  lemma {:induction false} Touched<D, K(!new), V>(m: map<K, V>, batches: seq<Batch<K, V>>, s: seq<Job<D>>,
                                                  db: D, k: K, a: nat)
    requires Runs(|batches|, s) && Agree(batches)
    requires a < |batches| && k in Effect(batches[a]) && Job(a, db) in s
    ensures Lookup(Replay(m, batches, s, db), k) == Effect(batches[a])[k]
  {
    hide Effect, Lookup;
    var n := |s| - 1;
    ReplayStep(m, batches, s, db, k);
    if !(s[n].db == db && k in Effect(batches[s[n].op])) {
      assert s[n] != Job(a, db);
      assert Job(a, db) in s[..n];
      Touched(m, batches, s[..n], db, k, a);
    }
  }

  /** The last job on a database decides the keys it writes. */
  lemma {:induction false} LastJobDecides<D, K(!new), V>(m: map<K, V>, batches: seq<Batch<K, V>>, s: seq<Job<D>>,
                                                         n: nat, db: D, k: K)
    requires Runs(|batches|, s) && n < |s| && s[n].db == db && k in Effect(batches[s[n].op])
    requires forall i | n < i < |s| :: s[i].db != db
    ensures Lookup(Replay(m, batches, s, db), k) == Effect(batches[s[n].op])[k]
  {
    hide Effect, Lookup;
    ReplayStep(m, batches, s, db, k);
    if n < |s| - 1 { LastJobDecides(m, batches, s[..|s| - 1], n, db, k); }
  }

  // ---- All schedules ----

  /** When operations agree, the order of their commits does not matter. */
  lemma ReplaysAgree<D(!new), K(!new), V>(m: map<K, V>, batches: seq<Batch<K, V>>,
                                          s: seq<Job<D>>, t: seq<Job<D>>, db: D)
    requires Complete(|batches|, s) && Complete(|batches|, t) && Agree(batches)
    ensures Replay(m, batches, s, db) == Replay(m, batches, t, db)
  {
    hide Effect, Lookup, Replay, Agree;
    forall k ensures Lookup(Replay(m, batches, s, db), k) == Lookup(Replay(m, batches, t, db), k) {
      if a: nat :| a < |batches| && k in Effect(batches[a]) {
        assert Job(a, db) in s && Job(a, db) in t;
        Touched(m, batches, s, db, k, a);
        Touched(m, batches, t, db, k, a);
      } else {
        Untouched(m, batches, s, db, k);
        Untouched(m, batches, t, db, k);
      }
    }
    SameLookups(Replay(m, batches, s, db), Replay(m, batches, t, db));
  }

  lemma {:induction false} Enumerate<T>(x: set<T>) returns (s: seq<T>)
    ensures Distinct(s) && forall y :: y in s <==> y in x
  {
    if x == {} {
      s := [];
    } else {
      var y :| y in x;
      var rest := Enumerate(x - {y});
      s := rest + [y];
    }
  }

  /** There is a complete schedule that ends with any two given jobs. */
  lemma EndingWith<D(!new)>(n: nat, all: set<D>, i: Job<D>, j: Job<D>) returns (s: seq<Job<D>>)
    requires (forall d :: d in all) && i != j && i.op < n && j.op < n
    ensures Complete(n, s) && |s| >= 2 && s[|s| - 2] == i && s[|s| - 1] == j
  {
    var jobs := set a, d | 0 <= a < n && d in all :: Job(a, d);
    var front := Enumerate(jobs - {i, j});
    s := front + [i, j];
    forall k: Job<D> | k.op < n ensures k in s {
      assert k == Job(k.op, k.db) && k in jobs;
      if k == i { assert s[|front|] == k; } else if k == j { assert s[|front| + 1] == k; } else { assert k in front; }
    }
    forall k | 0 <= k < |s| ensures s[k].op < n {
      if k < |front| { assert s[k] in front; }
    }
  }

  /** Operations that disagree have two complete schedules with different results. */
  lemma Disagreement<D(!new), K(!new), V>(m: map<K, V>, batches: seq<Batch<K, V>>, all: set<D>, db: D)
    returns (s: seq<Job<D>>, t: seq<Job<D>>)
    requires (forall d :: d in all) && !Agree(batches)
    ensures Complete(|batches|, s) && Complete(|batches|, t) && Replay(m, batches, s, db) != Replay(m, batches, t, db)
  {
    hide Effect, Replay;
    var a, b, k :| 0 <= a < |batches| && 0 <= b < |batches| && k in Effect(batches[a]) && k in Effect(batches[b])
      && Effect(batches[a])[k] != Effect(batches[b])[k];
    s := EndingWith(|batches|, all, Job(b, db), Job(a, db));
    t := EndingWith(|batches|, all, Job(a, db), Job(b, db));
    LastJobDecides(m, batches, s, |s| - 1, db, k);
    LastJobDecides(m, batches, t, |t| - 1, db, k);
  }
}
