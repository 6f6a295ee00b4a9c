/** What the store needs from LevelDB: a map with atomic write batches and iteration in
    key order. */
module LevelDb {
  import opened Bytes
  import opened Keys

  datatype Write<K, V> = Put(key: K, value: V) | Delete(key: K)

  type Batch<K, V> = seq<Write<K, V>>

  /** Applying a batch: its writes one after the other. */
  function Commit<K, V>(m: map<K, V>, b: Batch<K, V>): (r: map<K, V>) {
    if b == [] then m
    else
      var r := Commit(m, b[..|b| - 1]);
      match b[|b| - 1]
      case Put(k, v) => r[k := v]
      case Delete(k) => r - {k}
  }

  /** The last write on each key; None is a deletion. */
  function Effect<K, V>(b: Batch<K, V>): (e: map<K, Option<V>>) {
    if b == [] then map[]
    else
      var e := Effect(b[..|b| - 1]);
      match b[|b| - 1]
      case Put(k, v) => e[k := Some(v)]
      case Delete(k) => e[k := None]
  }

  function Lookup<K, V>(m: map<K, V>, k: K): (r: Option<V>) { if k in m then Some(m[k]) else None }

  function Overlay<K(!new), V>(m: map<K, V>, e: map<K, Option<V>>): (r: map<K, V>)
    ensures forall k :: Lookup(r, k) == if k in e then e[k] else Lookup(m, k)
  {
    map k | k in m.Keys + e.Keys && (k in e ==> e[k].Some?) :: if k in e then e[k].value else m[k]
  }

  lemma SameLookups<K(!new), V>(m: map<K, V>, n: map<K, V>)
    requires forall k :: Lookup(m, k) == Lookup(n, k)
    ensures m == n
  {
    forall k ensures k in m <==> k in n {
      assert Lookup(m, k) == Lookup(n, k);
    }
    forall k | k in m ensures m[k] == n[k] {
      assert Lookup(m, k) == Lookup(n, k);
    }
  }

  /** A batch has the effect of the last write on each of its keys. */
  lemma {:induction false} LastWriteWins<K(!new), V>(m: map<K, V>, b: Batch<K, V>)
    ensures Commit(m, b) == Overlay(m, Effect(b))
  {
    if b != [] { LastWriteWins(m, b[..|b| - 1]); }
    SameLookups(Commit(m, b), Overlay(m, Effect(b)));
  }

  lemma EffectSnoc<K(!new), V>(b: Batch<K, V>, w: Write<K, V>)
    ensures Effect(b + [w]) == Effect(b)[w.key := if w.Put? then Some(w.value) else None]
  {
    assert (b + [w])[..|b|] == b;
  }

  lemma {:induction false} EffectAppend<K(!new), V>(b: Batch<K, V>, c: Batch<K, V>)
    ensures Effect(b + c) == Effect(b) + Effect(c)
  {
    if c == [] {
      assert b + c == b;
    } else {
      EffectAppend(b, c[..|c| - 1]);
      assert (b + c)[..|b + c| - 1] == b + c[..|c| - 1];
    }
  }

  // ---- Iteration in key order ----

  ghost predicate Ascending(ks: seq<Key>) {
    forall i, j | 0 <= i < j < |ks| :: LexLe(Flatten(ks[i]), Flatten(ks[j])) && ks[i] != ks[j]
  }

  /** The keys of `ks` are among those of `all` and come before the others. */
  ghost predicate Leads(ks: seq<Key>, all: seq<Key>) {
    && (forall k | k in ks :: k in all)
    && (forall i, k | 0 <= i < |ks| && k in all && k !in ks :: LexLe(Flatten(ks[i]), Flatten(k)))
  }

  /** An ascending listing of keys that come before the others is how the ascending listing of
      all of them begins; in particular, such a listing is determined by its members. */
  lemma {:induction false} AscendingPrefix(ks: seq<Key>, all: seq<Key>)
    requires Ascending(ks) && Ascending(all) && Leads(ks, all)
    ensures ks <= all
  {
    hide LexLe, Flatten;
    if ks != [] {
      SameFirst(ks, all);
      TailsLead(ks, all);
      AscendingPrefix(ks[1..], all[1..]);
      assert ks == [ks[0]] + ks[1..] && all == [all[0]] + all[1..];
    }
  }

  lemma SameFirst(ks: seq<Key>, all: seq<Key>)
    requires Ascending(ks) && Ascending(all) && Leads(ks, all) && ks != []
    ensures all != [] && ks[0] == all[0]
  {
    hide LexLe, Flatten;
    assert ks[0] in all;
    FirstIsLeast(all, ks[0]);
    assert all[0] in all;
    if all[0] in ks { FirstIsLeast(ks, all[0]); }
    LexTotal(Flatten(ks[0]), Flatten(all[0]));
    FlattenRoundTrip(ks[0], Flatten(ks[0]));
    FlattenRoundTrip(all[0], Flatten(all[0]));
  }

  lemma TailsLead(ks: seq<Key>, all: seq<Key>)
    requires Ascending(ks) && Ascending(all) && Leads(ks, all) && ks != [] && all != [] && ks[0] == all[0]
    ensures Leads(ks[1..], all[1..]) && Ascending(ks[1..]) && Ascending(all[1..])
  {
    hide LexLe, Flatten;
    forall k ensures k in ks[1..] <==> k in ks && k != ks[0] {}
    forall k ensures k in all[1..] <==> k in all && k != all[0] {}
  }

  lemma FirstIsLeast(ks: seq<Key>, k: Key)
    requires Ascending(ks) && k in ks
    ensures LexLe(Flatten(ks[0]), Flatten(k))
  {
    var i :| 0 <= i < |ks| && ks[i] == k;
    if i == 0 { LexReflexive(Flatten(k)); }
  }

  method Smallest(keys: set<Key>) returns (k: Key)
    requires keys != {}
    ensures k in keys
    ensures forall j | j in keys :: LexLe(Flatten(k), Flatten(j))
  {
    k :| k in keys;
    var rest := keys - {k};
    LexReflexive(Flatten(k));
    while rest != {}
      invariant rest <= keys && k in keys
      invariant forall j | j in keys - rest :: LexLe(Flatten(k), Flatten(j))
      decreases rest
    {
      var j :| j in rest;
      var c := Compare(Flatten(j), Flatten(k));
      if c < 0 {
        forall i | i in keys - rest ensures LexLe(Flatten(j), Flatten(i)) {
          LexTransitive(Flatten(j), Flatten(k), Flatten(i));
        }
        LexReflexive(Flatten(j));
        k := j;
      }
      rest := rest - {j};
    }
  }

  predicate Between(lo: Bytes, hi: Bytes, k: Key)
    requires |lo| == |hi| == 64
  {
    LexLe(lo, Flatten(k)) && LexLe(Flatten(k), hi)
  }

  /** `ks` is the range from `lo` to `hi` in key order. */
  ghost predicate Lists<V>(m: map<Key, V>, lo: Bytes, hi: Bytes, ks: seq<Key>)
    requires |lo| == |hi| == 64
  {
    Ascending(ks) && forall k :: k in ks <==> k in m && Between(lo, hi, k)
  }

  /** Seek to `lo`, then advance while the key is at most `hi` and the callback, which
      accepts `limit` results, asks for more. */
  method RangeScan<V>(m: map<Key, V>, lo: Bytes, hi: Bytes, limit: Option<nat>) returns (ks: seq<Key>)
    requires |lo| == |hi| == 64
    ensures Ascending(ks)
    ensures forall k | k in ks :: k in m && Between(lo, hi, k)
    ensures limit.Some? ==> |ks| <= limit.value
    ensures limit.None? || |ks| < limit.value ==> Lists(m, lo, hi, ks)
    ensures forall all | Lists(m, lo, hi, all) :: ks <= all
  {
    var rest := set k | k in m && LexLe(lo, Flatten(k));
    ks := [];
    while rest != {} && (limit.None? || |ks| < limit.value)
      invariant forall k | k in rest :: k in m && LexLe(lo, Flatten(k))
      invariant Ascending(ks)
      invariant limit.Some? ==> |ks| <= limit.value
      invariant forall k | k in ks :: k in m && Between(lo, hi, k) && k !in rest
      invariant forall k | k in m && LexLe(lo, Flatten(k)) :: k in rest || k in ks
      invariant forall i, k | 0 <= i < |ks| && k in rest :: LexLe(Flatten(ks[i]), Flatten(k))
      decreases rest
    {
      var k := Smallest(rest);
      var c := Compare(Flatten(k), hi);
      if c > 0 {
        forall j | j in rest ensures !LexLe(Flatten(j), hi) {
          if LexLe(Flatten(j), hi) { LexTransitive(Flatten(k), Flatten(j), hi); }
        }
        break;
      }
      ks := ks + [k];
      rest := rest - {k};
    }
    forall all | Lists(m, lo, hi, all) ensures ks <= all { AscendingPrefix(ks, all); }
  }
}
