/** The service operations built on the store: Clear, Size and GetContexts
    (persistence/leveldb_service.cc:151-213) and the SPARQL source's HasStatement
    (persistence/leveldb_sparql.cc:65-89). */
module Service {
  import opened Bytes
  import opened Rdf
  import opened Wire
  import opened Keys
  import opened Updates
  import opened Namespaces
  import opened Indexes
  import opened Persistence

  function InContext(r: Resource): (p: Statement) { Statement(None, None, None, Some(r)) }

  lemma ContextHits(h: HashFn, r: Resource, k: Key)
    ensures Hits(h, InContext(r), k) <==> k.d == h(ResourceBytes(r))
  {
    hide ResourceBytes, UriBytes, ValueBytes;
    assert Agrees(h, InContext(r), k, C) <==> k.d == h(ResourceBytes(r));
  }

  /** The keys whose context hash is that of a listed context. */
  function ListedKeys(h: HashFn, q: Quads, contexts: seq<Resource>): (r: set<Key>) {
    set k | k in q && exists i :: 0 <= i < |contexts| && Hits(h, InContext(contexts[i]), k)
  }

  /** What Size reports for a list: per-context counts, a repeated context counted again. */
  function ListedSize(h: HashFn, q: Quads, contexts: seq<Resource>): (n: nat) {
    if contexts == [] then 0
    else ListedSize(h, q, contexts[..|contexts| - 1]) + |ScanKeys(h, q, InContext(contexts[|contexts| - 1]))|
  }

  /** Size and Clear: the answer for a list of contexts, the empty list standing for all. */
  function SizeAnswer(h: HashFn, q: Quads, contexts: seq<Resource>): (n: nat) {
    if contexts == [] then |q| else ListedSize(h, q, contexts)
  }

  function ClearAnswer(h: HashFn, q: Quads, contexts: seq<Resource>): (n: nat) {
    if contexts == [] then |q| else |ListedKeys(h, q, contexts)|
  }

  function Remaining(h: HashFn, q: Quads, contexts: seq<Resource>): (r: Quads) { q - ListedKeys(h, q, contexts) }

  function Cleared(h: HashFn, q: Quads, contexts: seq<Resource>): (r: Quads) {
    if contexts == [] then map[] else Remaining(h, q, contexts)
  }

  /** What Clear answers is the drop in size. */
  lemma ClearedDrop(h: HashFn, q: Quads, contexts: seq<Resource>)
    ensures ClearAnswer(h, q, contexts) == |q| - |Cleared(h, q, contexts)|
  {
    hide Hits;
    var gone := ListedKeys(h, q, contexts);
    assert gone <= q.Keys && (q - gone).Keys == q.Keys - gone;
  }

  /** A position in the list together with a stored key whose context hash is that of the
      context listed there. */
  function ListedPairs(h: HashFn, q: Quads, contexts: seq<Resource>): (r: set<(int, Key)>) {
    set i, k | 0 <= i < |contexts| && k in q && k.d == h(ResourceBytes(contexts[i])) :: (i, k)
  }

  lemma PairsSnoc(h: HashFn, q: Quads, contexts: seq<Resource>)
    requires contexts != []
    ensures var n := |contexts| - 1;
            var before, now := ListedPairs(h, q, contexts[..n]), Paired(n, ScanKeys(h, q, InContext(contexts[n])));
            ListedPairs(h, q, contexts) == before + now && before !! now
  {
    hide Hits, ResourceBytes;
    var n := |contexts| - 1;
    var before, now := ListedPairs(h, q, contexts[..n]), Paired(n, ScanKeys(h, q, InContext(contexts[n])));
    forall i, k ensures (i, k) in ListedPairs(h, q, contexts) <==> (i, k) in before || (i, k) in now {
      ContextHits(h, contexts[n], k);
      if 0 <= i < n { assert contexts[..n][i] == contexts[i]; }
    }
  }

  /** Size: every stored statement without a list; with one, a statement counts as often as its
      context's hash is listed. */
  lemma {:induction false} SizeMeans(h: HashFn, q: Quads, contexts: seq<Resource>)
    ensures SizeAnswer(h, q, []) == |q|
    ensures ListedSize(h, q, contexts) == |ListedPairs(h, q, contexts)|
  {
    hide Hits, ResourceBytes, ScanKeys;
    if contexts == [] {
      assert ListedPairs(h, q, contexts) == {};
    } else {
      var n := |contexts| - 1;
      SizeMeans(h, q, contexts[..n]);
      PairsSnoc(h, q, contexts);
      PairedSize(n, ScanKeys(h, q, InContext(contexts[n])));
    }
  }

  /** Clear: everything goes without a list; with one, exactly the keys whose context hash is
      listed. */
  lemma ClearMeans(h: HashFn, q: Quads, contexts: seq<Resource>)
    ensures Cleared(h, q, []) == map[] && ClearAnswer(h, q, []) == |q|
    ensures contexts != [] ==>
            Cleared(h, q, contexts) ==
            map k | k in q && (forall i | 0 <= i < |contexts| :: k.d != h(ResourceBytes(contexts[i]))) :: q[k]
  {
    hide Hits, ResourceBytes;
    forall i, k | 0 <= i < |contexts|
      ensures Hits(h, InContext(contexts[i]), k) <==> k.d == h(ResourceBytes(contexts[i]))
    {
      ContextHits(h, contexts[i], k);
    }
  }

  lemma ListedSnoc(h: HashFn, q: Quads, contexts: seq<Resource>, r: Resource)
    ensures ListedKeys(h, q, contexts + [r]) == ListedKeys(h, q, contexts) + ScanKeys(h, q, InContext(r))
  {
    hide Hits;
    var all := contexts + [r];
    forall k | k in q
      ensures (exists i :: 0 <= i < |all| && Hits(h, InContext(all[i]), k)) <==>
              (exists i :: 0 <= i < |contexts| && Hits(h, InContext(contexts[i]), k)) || Hits(h, InContext(r), k)
    {
      if i :| 0 <= i < |contexts| && Hits(h, InContext(contexts[i]), k) { assert all[i] == contexts[i]; }
      assert all[|contexts|] == r;
    }
  }

  lemma UnionSize<T>(a: set<T>, b: set<T>)
    ensures |a + b| <= |a| + |b|
    ensures a !! b ==> |a + b| == |a| + |b|
  {
    assert a + b == a + (b - a) && a !! (b - a);
    assert b == (b - a) + (a * b) && (b - a) !! (a * b);
  }

  /** Size of a list is at least the number of statements in it, and equal to it when the
      listed contexts have distinct hashes. */
  lemma {:induction false} SizeCountsRepeats(h: HashFn, q: Quads, contexts: seq<Resource>)
    ensures |ListedKeys(h, q, contexts)| <= ListedSize(h, q, contexts)
    ensures Distinct(HashesOf(h, contexts)) ==> |ListedKeys(h, q, contexts)| == ListedSize(h, q, contexts)
  {
    hide Hits;
    if contexts == [] {
      assert ListedKeys(h, q, contexts) == {};
    } else {
      var n := |contexts| - 1;
      var m, r := contexts[..n], contexts[n];
      SizeCountsRepeats(h, q, m);
      assert contexts == m + [r];
      ListedSnoc(h, q, m, r);
      UnionSize(ListedKeys(h, q, m), ScanKeys(h, q, InContext(r)));
      if Distinct(HashesOf(h, contexts)) {
        assert HashesOf(h, m) == HashesOf(h, contexts)[..n];
        forall k | k in ListedKeys(h, q, m) ensures k !in ScanKeys(h, q, InContext(r)) {
          var i :| 0 <= i < |m| && Hits(h, InContext(m[i]), k);
          ContextHits(h, m[i], k);
          ContextHits(h, r, k);
          assert HashesOf(h, contexts)[i] != HashesOf(h, contexts)[n];
        }
      }
    }
  }

  function HashesOf(h: HashFn, contexts: seq<Resource>): (r: seq<Bytes>)
    ensures |r| == |contexts|
  {
    seq(|contexts|, i requires 0 <= i < |contexts| => h(ResourceBytes(contexts[i])))
  }

  /** A stored statement is in the listed keys whenever its context is listed, and only then
      if its context collides with no listed one. Absent and empty contexts are the same. */
  lemma ListedMeansContext(h: HashFn, q: Quads, contexts: seq<Resource>, s: Statement)
    requires Stored(h, q, s)
    ensures s.Context() in contexts ==> KeyOf(h, s) in ListedKeys(h, q, contexts)
    ensures (forall r | r in contexts && h(ResourceBytes(r)) == h(ResourceBytes(s.Context())) ::
               ResourceBytes(r) == ResourceBytes(s.Context()))
            ==> (KeyOf(h, s) in ListedKeys(h, q, contexts) ==> s.Context() in contexts)
  {
    hide ResourceBytes, UriBytes, ValueBytes, Hits;
    var k := KeyOf(h, s);
    forall i | 0 <= i < |contexts|
      ensures Hits(h, InContext(contexts[i]), k) <==> h(ResourceBytes(contexts[i])) == h(ResourceBytes(s.Context()))
    {
      ContextHits(h, contexts[i], k);
    }
    if k in ListedKeys(h, q, contexts) {
      var i :| 0 <= i < |contexts| && Hits(h, InContext(contexts[i]), k);
      assert contexts[i] in contexts;
      if ResourceBytes(contexts[i]) == ResourceBytes(s.Context()) { ResourceInjective(contexts[i], s.Context()); }
    }
  }

  /** A subject-object query without predicate, with a context or without, ignores the
      object: whatever object is asked for, every statement of the subject (and context) is
      reported, and would be removed. */
  lemma ObjectIgnored(h: HashFn, q: Quads, s: Statement, o: Value, ctx: Option<Resource>)
    requires Stored(h, q, s) && s.subj.Some? && (ctx.None? || ctx == s.ctx)
    ensures var p := Statement(s.subj, None, Some(o), ctx);
            KeyOf(h, s) in ScanKeys(h, q, p) && (!EqValue(s.Object(), o) ==> !Matches(s, p))
  {
    hide ResourceBytes, UriBytes, ValueBytes;
    var p := Statement(s.subj, None, Some(o), ctx);
    assert Hits(h, p, KeyOf(h, s)) by {
      assert Agrees(h, p, KeyOf(h, s), S) && (ctx.Some? ==> Agrees(h, p, KeyOf(h, s), C));
    }
  }

  /** An object-context query, with a predicate or without, ignores the context: removing a
      triple from one context removes it from all. */
  lemma ContextIgnored(h: HashFn, q: Quads, s: Statement, pred: Option<URI>, c: Resource)
    requires Stored(h, q, s) && s.obj.Some? && (pred.None? || pred == s.pred)
    ensures var p := Statement(None, pred, s.obj, Some(c));
            KeyOf(h, s) in ScanKeys(h, q, p) && (!EqResource(s.Context(), c) ==> !Matches(s, p))
  {
    hide ResourceBytes, UriBytes, ValueBytes;
    var p := Statement(None, pred, s.obj, Some(c));
    assert Hits(h, p, KeyOf(h, s)) by {
      assert Agrees(h, p, KeyOf(h, s), O) && (pred.Some? ==> Agrees(h, p, KeyOf(h, s), P));
    }
  }

  // ---- std::unordered_set<Resource> ----

  /** Insertion finds an equal element among those with the same hash. */
  function Insert(f: Bytes -> nat, xs: seq<Resource>, r: Resource): (ys: seq<Resource>) {
    if exists i :: 0 <= i < |xs| && ResourceHash(f, xs[i]) == ResourceHash(f, r) && EqResource(xs[i], r)
    then xs
    else xs + [r]
  }

  /** A set resource ends up in the container once; an unset one equals nothing, not even
      itself, and is added every time. */
  lemma InsertCounts(f: Bytes -> nat, xs: seq<Resource>, r: Resource, x: Resource)
    ensures multiset(Insert(f, xs, r))[x] ==
            multiset(xs)[x] + (if x == r && (!SetResource(r) || r !in xs) then 1 else 0)
  {
    if SetResource(r) && r in xs {
      var i :| 0 <= i < |xs| && xs[i] == r;
      assert ResourceHash(f, xs[i]) == ResourceHash(f, r) && EqResource(xs[i], r);
    }
  }

  /** The stored statements with context field `c`. */
  function With(q: Quads, c: Option<Resource>): (r: set<Statement>) { set k | k in q && q[k].ctx == c :: q[k] }

  predicate UsedIn(q: Quads, r: Resource) { With(q, Some(r)) != {} }

  /** `r` is a context in the listing. */
  predicate Used(stmts: seq<Statement>, r: Resource) { exists i :: 0 <= i < |stmts| && stmts[i].ctx == Some(r) }

  function Unset(stmts: seq<Statement>): (n: nat) {
    if stmts == [] then 0 else Unset(stmts[..|stmts| - 1]) + if stmts[|stmts| - 1].ctx == Some(NoResource) then 1 else 0
  }

  lemma NothingUsed()
    ensures forall r :: !Used([], r)
  {
  }

  function EmptyContexts(stmts: seq<Statement>): (r: set<Statement>) { set s | s in stmts && s.ctx == Some(NoResource) }

  lemma EmptySnoc(stmts: seq<Statement>, s: Statement)
    ensures EmptyContexts(stmts + [s]) == EmptyContexts(stmts) + (if s.ctx == Some(NoResource) then {s} else {})
  {
  }

  lemma {:induction false} UnsetCounts(stmts: seq<Statement>)
    requires Distinct(stmts)
    ensures Unset(stmts) == |EmptyContexts(stmts)|
  {
    if stmts == [] {
      assert EmptyContexts(stmts) == {};
    } else {
      var n := |stmts| - 1;
      UnsetCounts(stmts[..n]);
      EmptySnoc(stmts[..n], stmts[n]);
      assert stmts == stmts[..n] + [stmts[n]];
      assert stmts[n] !in stmts[..n];
      assert stmts[n] !in EmptyContexts(stmts[..n]);
    }
  }

  /** Reading the contexts off a listing of the whole store. */
  lemma ListingOfAll(h: HashFn, q: Quads, stmts: seq<Statement>)
    requires Answers(h, q, ANY, stmts)
    ensures forall r :: Used(stmts, r) <==> UsedIn(q, r)
    ensures Unset(stmts) == |With(q, Some(NoResource))|
  {
    hide KeyOf;
    forall c: Option<Resource> ensures With(q, c) == set s | s in stmts && s.ctx == c {
      forall s | s in stmts && s.ctx == c ensures s in With(q, c) {
        assert Stored(h, q, s);
        assert KeyOf(h, s) in q && q[KeyOf(h, s)] == s;
      }
    }
    forall r ensures Used(stmts, r) <==> UsedIn(q, r) {
      var here := set s | s in stmts && s.ctx == Some(r);
      assert With(q, Some(r)) == here;
      if Used(stmts, r) {
        var i :| 0 <= i < |stmts| && stmts[i].ctx == Some(r);
        assert stmts[i] in here;
      }
      if here != {} {
        var s :| s in here;
        var i :| 0 <= i < |stmts| && stmts[i] == s;
      }
    }
    UnsetCounts(stmts);
    assert With(q, Some(NoResource)) == EmptyContexts(stmts);
  }

  class LevelDBService {
    const persistence: LevelDBPersistence
    const f: Bytes -> nat

    constructor (persistence: LevelDBPersistence, f: Bytes -> nat)
      ensures this.persistence == persistence && this.f == f
    {
      this.persistence, this.f := persistence, f;
    }

    /** Clear: removes every listed context, or everything; returns the drop in size. */
    method Clear(contexts: seq<Resource>) returns (count: int)
      requires persistence.Valid()
      modifies persistence
      ensures persistence.Valid()
      ensures contexts == [] ==> persistence.spoc == map[] && count == |old(persistence.spoc)|
      ensures contexts != [] ==>
              persistence.spoc == map k | k in old(persistence.spoc)
                && (forall i | 0 <= i < |contexts| :: k.d != persistence.h(ResourceBytes(contexts[i]))) ::
                old(persistence.spoc)[k]
      ensures persistence.spoc == Cleared(persistence.h, old(persistence.spoc), contexts)
      ensures count == |old(persistence.spoc)| - |persistence.spoc|
      ensures count == ClearAnswer(persistence.h, old(persistence.spoc), contexts)
    {
      hide Consistent, WellKeyed, ScanKeys, Remaining, ResourceBytes;
      ghost var h, q := persistence.h, persistence.spoc;
      count := 0;
      if |contexts| > 0 {
        NothingListed(h, q);
        for i := 0 to |contexts|
          invariant persistence.Valid()
          invariant persistence.spoc == Remaining(h, q, contexts[..i])
          invariant count == |q| - |persistence.spoc|
        {
          var n := persistence.RemoveStatements(InContext(contexts[i]));
          assert contexts[..i + 1] == contexts[..i] + [contexts[i]];
          ClearStep(h, q, contexts[..i], contexts[i]);
          count := count + n;
        }
        assert contexts[..|contexts|] == contexts;
      } else {
        var n := persistence.RemoveStatements(ANY);
        RemoveDrop(h, q, ANY);
        EverythingHits(h, q);
        count := count + n;
      }
      ClearedDrop(h, q, contexts);
      ClearMeans(h, q, contexts);
    }

    /** Size: all entries, or the sum over the listed contexts. */
    method Size(contexts: seq<Resource>) returns (count: int)
      requires persistence.Valid()
      ensures contexts == [] ==> count == |persistence.spoc|
      ensures contexts != [] ==>
              count == |set i, k | 0 <= i < |contexts| && k in persistence.spoc
                                   && k.d == persistence.h(ResourceBytes(contexts[i])) :: (i, k)|
      ensures count == SizeAnswer(persistence.h, persistence.spoc, contexts)
    {
      hide Hits, KeyOf, WellKeyed, Permuted, Keyed, Answers, Scanned, ScanKeys, ResourceBytes;
      ghost var h, q := persistence.h, persistence.spoc;
      count := 0;
      if |contexts| > 0 {
        for i := 0 to |contexts|
          invariant count == ListedSize(h, q, contexts[..i])
        {
          var stmts := persistence.GetStatements(InContext(contexts[i]), None);
          AnswerKeys(h, q, InContext(contexts[i]), stmts);
          assert contexts[..i + 1][..i] == contexts[..i];
          count := count + |stmts|;
        }
        assert contexts[..|contexts|] == contexts;
      } else {
        count := persistence.Size();
      }
      SizeMeans(h, q, contexts);
    }

    /** GetContexts: each set context in use exactly once; an empty one once per statement
        that carries it. */
    method GetContexts() returns (out: seq<Resource>)
      requires persistence.Valid()
      ensures forall r | SetResource(r) :: multiset(out)[r] == if UsedIn(persistence.spoc, r) then 1 else 0
      ensures multiset(out)[NoResource] == |With(persistence.spoc, Some(NoResource))|
    {
      hide Hits, KeyOf, WellKeyed, Answers, Scanned, Stored, Insert, Used, With, UsedIn;
      var stmts := persistence.GetStatements(ANY, None);
      out := [];
      NothingUsed();
      for i := 0 to |stmts|
        invariant forall r | SetResource(r) :: multiset(out)[r] == if Used(stmts[..i], r) then 1 else 0
        invariant multiset(out)[NoResource] == Unset(stmts[..i])
      {
        ghost var before := out;
        assert stmts[..i + 1] == stmts[..i] + [stmts[i]];
        assert stmts[..i + 1][..i] == stmts[..i];
        forall r ensures Used(stmts[..i + 1], r) <==> Used(stmts[..i], r) || stmts[i].ctx == Some(r) {
          UsedSnoc(stmts[..i], stmts[i], r);
        }
        if stmts[i].ctx.Some? {
          var c := stmts[i].ctx.value;
          out := Insert(f, out, c);
          forall x
            ensures multiset(out)[x] ==
                    multiset(before)[x] + (if x == c && (!SetResource(c) || c !in before) then 1 else 0)
          {
            InsertCounts(f, before, c, x);
          }
        }
      }
      assert stmts[..|stmts|] == stmts;
      ListingOfAll(persistence.h, persistence.spoc, stmts);
    }

    /** HasStatement: the scan stops at the first statement it meets. */
    method HasStatement(s: Option<Resource>, p: Option<URI>, o: Option<Value>, c: Option<Resource>)
      returns (found: bool)
      requires persistence.Valid()
      ensures found <==> ScanKeys(persistence.h, persistence.spoc, Statement(s, p, o, c)) != {}
    {
      hide Hits, KeyOf, WellKeyed;
      var pattern := Statement(s, p, o, c);
      var first := persistence.GetStatements(pattern, Some(1));
      found := |first| > 0;
      if found {
        assert first[0] in first;
        assert KeyOf(persistence.h, first[0]) in ScanKeys(persistence.h, persistence.spoc, pattern);
      }
    }
  }

  lemma UsedSnoc(stmts: seq<Statement>, s: Statement, r: Resource)
    ensures Used(stmts + [s], r) <==> Used(stmts, r) || s.ctx == Some(r)
  {
    var all := stmts + [s];
    if i :| 0 <= i < |stmts| && stmts[i].ctx == Some(r) { assert all[i] == stmts[i]; }
    if s.ctx == Some(r) { assert all[|stmts|] == s; }
  }

  lemma RemoveDrop(h: HashFn, q: Quads, p: Statement)
    ensures |q - ScanKeys(h, q, p)| == |q| - |ScanKeys(h, q, p)|
  {
    var gone := ScanKeys(h, q, p);
    assert gone <= q.Keys;
    assert (q - gone).Keys == q.Keys - gone;
  }

  lemma NothingListed(h: HashFn, q: Quads)
    ensures Remaining(h, q, []) == q
  {
  }

  lemma ClearStep(h: HashFn, q: Quads, contexts: seq<Resource>, r: Resource)
    ensures var now := Remaining(h, q, contexts);
            var gone := ScanKeys(h, now, InContext(r));
            now - gone == Remaining(h, q, contexts + [r]) && |now - gone| == |now| - |gone|
  {
    hide Hits;
    ListedSnoc(h, q, contexts, r);
    RemoveDrop(h, Remaining(h, q, contexts), InContext(r));
  }

  lemma EverythingHits(h: HashFn, q: Quads)
    ensures q - ScanKeys(h, q, ANY) == map[]
  {
  }
}
