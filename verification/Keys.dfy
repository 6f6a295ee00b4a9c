/** Index keys and pattern queries (persistence/leveldb_persistence.cc:46-181, 258-273).

    A statement is stored under four 16-byte hashes, one per component, permuted for each
    of the four indexes. A pattern query reads one index over the key range spanned by the
    hashes of its leading bound components. Everything here holds for every hash function. */
module Keys {
  import opened Bytes
  import opened Rdf
  import opened Wire

  type Hash = b: Bytes | |b| == 16 witness [0, 0, 0, 0, 0, 0, 0, 0, 0, 0, 0, 0, 0, 0, 0, 0]

  type HashFn = Bytes -> Hash

  /** A 64-byte index key, taken as its four 16-byte blocks in index order. */
  datatype Key = Key(a: Hash, b: Hash, c: Hash, d: Hash)

  datatype Position = S | P | O | C

  datatype IndexType = SPOC | CSPO | OPSC | PCOS

  function Flatten(k: Key): (r: Bytes)
    ensures |r| == 64
  {
    k.a + k.b + k.c + k.d
  }

  function Unflatten(b: Bytes): (k: Key)
    requires |b| == 64
  {
    Key(b[..16], b[16..32], b[32..48], b[48..])
  }

  lemma FlattenRoundTrip(k: Key, b: Bytes)
    requires |b| == 64
    ensures Unflatten(Flatten(k)) == k && Flatten(Unflatten(b)) == b
  {
    var f := Flatten(k);
    assert f[..16] == k.a && f[16..32] == k.b && f[32..48] == k.c && f[48..] == k.d;
    assert b[..16] + b[16..32] + b[32..48] + b[48..] == b;
  }

  function Order(ix: IndexType): (r: seq<Position>)
    ensures |r| == 4
  {
    match ix
    case SPOC => [S, P, O, C]
    case CSPO => [C, S, P, O]
    case OPSC => [O, P, S, C]
    case PCOS => [P, C, O, S]
  }

  /** The block of component `pos` in an SPOC key. */
  function Slot(k: Key, pos: Position): (r: Hash) {
    match pos case S => k.a case P => k.b case O => k.c case C => k.d
  }

  /** orderKey: an SPOC key rearranged for index `ix`. */
  function Reorder(k: Key, ix: IndexType): (r: Key) {
    Key(Slot(k, Order(ix)[0]), Slot(k, Order(ix)[1]), Slot(k, Order(ix)[2]), Slot(k, Order(ix)[3]))
  }

  function Restore(k: Key, ix: IndexType): (r: Key) {
    match ix
    case SPOC => k
    case CSPO => Key(k.b, k.c, k.d, k.a)
    case OPSC => Key(k.c, k.b, k.a, k.d)
    case PCOS => Key(k.d, k.a, k.c, k.b)
  }

  lemma ReorderRoundTrip(k: Key, ix: IndexType)
    ensures Restore(Reorder(k, ix), ix) == k && Reorder(Restore(k, ix), ix) == k
  {
  }

  // ---- The key of a statement ----

  /** The bytes hashed for a component; an absent one serialises as its default. */
  function TermBytes(s: Statement, pos: Position): (r: Bytes) {
    match pos
    case S => ResourceBytes(s.Subject())
    case P => UriBytes(s.Predicate())
    case O => ValueBytes(s.Object())
    case C => ResourceBytes(s.Context())
  }

  function KeyOf(h: HashFn, s: Statement): (k: Key) {
    Key(h(TermBytes(s, S)), h(TermBytes(s, P)), h(TermBytes(s, O)), h(TermBytes(s, C)))
  }

  /** The bytes of the four index keys: the components' hashes in the order of the index's
      name. */
  lemma KeyLayout(h: HashFn, x: Statement)
    ensures var k := KeyOf(h, x);
            var s, p, o, c := h(TermBytes(x, S)), h(TermBytes(x, P)), h(TermBytes(x, O)), h(TermBytes(x, C));
            && Flatten(Reorder(k, SPOC)) == s + p + o + c && Flatten(Reorder(k, CSPO)) == c + s + p + o
            && Flatten(Reorder(k, OPSC)) == o + p + s + c && Flatten(Reorder(k, PCOS)) == p + c + o + s
  {
    hide TermBytes;
    var k := KeyOf(h, x);
    var s, p, o, c := h(TermBytes(x, S)), h(TermBytes(x, P)), h(TermBytes(x, O)), h(TermBytes(x, C));
    assert k == Key(s, p, o, c);
    assert Reorder(k, SPOC) == Key(s, p, o, c) && Reorder(k, CSPO) == Key(c, s, p, o);
    assert Reorder(k, OPSC) == Key(o, p, s, c) && Reorder(k, PCOS) == Key(p, c, o, s);
    hide Reorder;
  }

  // ---- Pattern queries ----

  predicate Bound(p: Statement, pos: Position) {
    match pos case S => p.subj.Some? case P => p.pred.Some? case O => p.obj.Some? case C => p.ctx.Some?
  }

  function ChooseIndex(p: Statement): (ix: IndexType) {
    if p.subj.Some? then if p.ctx.Some? then CSPO else SPOC
    else if p.obj.Some? then OPSC
    else if p.pred.Some? then PCOS
    else if p.ctx.Some? then CSPO
    else SPOC
  }

  /** The shape of a pattern as a number: subject, predicate, object and context in binary. */
  function Shape(p: Statement): (n: nat)
    ensures n < 16
  {
    (if p.subj.Some? then 8 else 0) + (if p.pred.Some? then 4 else 0) +
    (if p.obj.Some? then 2 else 0) + (if p.ctx.Some? then 1 else 0)
  }

  /** The index for each of the sixteen shapes, from the empty pattern to the full one. */
  const INDEX_TABLE: seq<IndexType> := [
    SPOC, CSPO, OPSC, OPSC, PCOS, PCOS, OPSC, OPSC,
    SPOC, CSPO, SPOC, CSPO, SPOC, CSPO, SPOC, CSPO]

  lemma IndexOfShape(p: Statement)
    ensures ChooseIndex(p) == INDEX_TABLE[Shape(p)]
  {
  }

  /** The arguments of computeKey; None is a null argument. */
  function Arguments(p: Statement, order: seq<Position>): (r: seq<Option<Bytes>>)
    ensures |r| == |order|
    ensures forall i | 0 <= i < |order| :: r[i] == if Bound(p, order[i]) then Some(TermBytes(p, order[i])) else None
  {
    if order == [] then []
    else [if Bound(p, order[0]) then Some(TermBytes(p, order[0])) else None] + Arguments(p, order[1..])
  }

  function RunLength(args: seq<Option<Bytes>>): (n: nat)
    ensures n <= |args|
    ensures forall i | 0 <= i < n :: args[i].Some?
    ensures n < |args| ==> args[n].None?
  {
    if args == [] || args[0].None? then 0 else 1 + RunLength(args[1..])
  }

  /** The bytes computeKey writes: the hashes of the leading non-null arguments. */
  function Prefix(h: HashFn, args: seq<Option<Bytes>>): (r: Bytes)
    ensures |r| == 16 * RunLength(args)
  {
    if args == [] || args[0].None? then [] else h(args[0].value) + Prefix(h, args[1..])
  }

  function QueryPrefix(h: HashFn, p: Statement): (r: Bytes)
    ensures |r| <= 64
  {
    Prefix(h, Arguments(p, Order(ChooseIndex(p))))
  }

  function MinKey(h: HashFn, p: Statement): (r: Bytes)
    ensures |r| == 64
  {
    QueryPrefix(h, p) + Fill(0, 64 - |QueryPrefix(h, p)|)
  }

  function MaxKey(h: HashFn, p: Statement): (r: Bytes)
    ensures |r| == 64
  {
    QueryPrefix(h, p) + Fill(0xff, 64 - |QueryPrefix(h, p)|)
  }

  predicate InRange(h: HashFn, p: Statement, k: Bytes)
    requires |k| == 64
  {
    LexLe(MinKey(h, p), k) && LexLe(k, MaxKey(h, p))
  }

  predicate Agrees(h: HashFn, p: Statement, k: Key, pos: Position) { Slot(k, pos) == h(TermBytes(p, pos)) }

  /** The one bound component a scan ignores, if any: the object of subject-object patterns
      without a predicate, and the context of object-context patterns without a subject. */
  function Ignored(p: Statement): (r: Option<Position>) {
    if p.subj.Some? && p.pred.None? && p.obj.Some? then Some(O)
    else if p.subj.None? && p.obj.Some? && p.ctx.Some? then Some(C)
    else None
  }

  /** The pattern a scan answers: `p` without the component it ignores. */
  function Widened(p: Statement): (w: Statement) {
    match Ignored(p)
    case Some(O) => p.(obj := None)
    case Some(C) => p.(ctx := None)
    case _ => p
  }

  /** The SPOC key `k` lies in the range scanned for `p`. */
  predicate Hits(h: HashFn, p: Statement, k: Key) {
    forall pos | Bound(p, pos) && Ignored(p) != Some(pos) :: Agrees(h, p, k, pos)
  }

  /** `k` agrees with every bound component of `p`. */
  predicate HashMatches(h: HashFn, p: Statement, k: Key) {
    forall pos | Bound(p, pos) :: Agrees(h, p, k, pos)
  }

  lemma PrefixStep(h: HashFn, args: seq<Option<Bytes>>, x: Hash, rest: Bytes)
    requires args != [] && 16 * (RunLength(args) - 1) <= |rest|
    ensures (x + rest)[..16 * RunLength(args)] == Prefix(h, args) <==>
            (args[0].Some? ==> x == h(args[0].value) && rest[..16 * RunLength(args[1..])] == Prefix(h, args[1..]))
  {
    if args[0].Some? {
      var n := RunLength(args[1..]);
      assert (x + rest)[..16 * (1 + n)] == x + rest[..16 * n];
      var y := h(args[0].value);
      assert (x + rest[..16 * n])[..16] == x && (y + Prefix(h, args[1..]))[..16] == y;
      assert (x + rest[..16 * n])[16..] == rest[..16 * n] && (y + Prefix(h, args[1..]))[16..] == Prefix(h, args[1..]);
    }
  }

  /** A key starts with the query prefix exactly when its leading blocks agree. */
  lemma PrefixBlocks(h: HashFn, args: seq<Option<Bytes>>, k: Key)
    requires |args| == 4
    ensures Flatten(k)[..16 * RunLength(args)] == Prefix(h, args) <==>
            var b := [k.a, k.b, k.c, k.d]; forall i | 0 <= i < RunLength(args) :: b[i] == h(args[i].value)
  {
    hide Prefix;
    var r1, r2, r3 := k.b + (k.c + (k.d + [])), k.c + (k.d + []), k.d + [];
    assert Flatten(k) == k.a + r1;
    PrefixStep(h, args, k.a, r1);
    if args[0].Some? {
      PrefixStep(h, args[1..], k.b, r2);
      if args[1].Some? {
        PrefixStep(h, args[2..], k.c, r3);
        assert args[1..][1..] == args[2..];
        if args[2].Some? {
          PrefixStep(h, args[3..], k.d, []);
          assert args[2..][1..] == args[3..] && args[3..][1..] == [];
        }
      }
    }
  }

  /** The leading run of the chosen index covers every bound component but the ignored one. */
  lemma LeadingRun(p: Statement, pos: Position)
    ensures var order := Order(ChooseIndex(p));
            (exists i :: 0 <= i < RunLength(Arguments(p, order)) && order[i] == pos) <==>
            Bound(p, pos) && Ignored(p) != Some(pos)
  {
    hide TermBytes, RunLength, Arguments;
    var order := Order(ChooseIndex(p));
    var n := RunLength(Arguments(p, order));
    assert forall i | 0 <= i < n :: Arguments(p, order)[i].Some?;
    assert n == if !Bound(p, order[0]) then 0 else if !Bound(p, order[1]) then 1
                else if !Bound(p, order[2]) then 2 else if !Bound(p, order[3]) then 3 else 4;
    if Bound(p, pos) && Ignored(p) != Some(pos) {
      var i := if order[0] == pos then 0 else if order[1] == pos then 1 else if order[2] == pos then 2 else 3;
      assert 0 <= i < n && order[i] == pos;
    }
  }

  /** The inclusive byte-range scan of the chosen index meets exactly the keys that agree
      with the pattern on the leading run of bound components. */
  lemma ScanRange(h: HashFn, p: Statement, k: Key)
    ensures InRange(h, p, Flatten(Reorder(k, ChooseIndex(p)))) <==> Hits(h, p, k)
  {
    hide TermBytes, RunLength, Arguments, Ignored;
    var ix := ChooseIndex(p);
    var args, order, r := Arguments(p, Order(ix)), Order(ix), Reorder(k, ix);
    var b := [r.a, r.b, r.c, r.d];
    PrefixRange(QueryPrefix(h, p), Flatten(r));
    PrefixBlocks(h, args, r);
    forall i | 0 <= i < RunLength(args) ensures b[i] == h(args[i].value) <==> Agrees(h, p, k, order[i]) {
      assert args[i].Some?;
    }
    forall pos { LeadingRun(p, pos); }
  }

  /** A scan returns exactly the keys that agree with every bound component, for all keys,
      if and only if the pattern is not one of the shapes SO, SOC, OC and POC. */
  lemma ScanExactness(h: HashFn, p: Statement)
    ensures (forall k :: Hits(h, p, k) <==> HashMatches(h, p, k)) <==> Ignored(p).None?
  {
    hide TermBytes;
    if Ignored(p).Some? {
      var z: Hash := h(TermBytes(p, Ignored(p).value));
      var x: Hash := z[0 := !z[0]];
      assert x[0] != z[0] by { NotEqual(z[0]); }
      var k := KeyOf(h, p);
      var j := if Ignored(p) == Some(O) then k.(c := x) else k.(d := x);
      assert Hits(h, p, j);
      assert !Agrees(h, p, j, Ignored(p).value);
    }
  }

  /** For all sixteen shapes, a scan for `p` is an exact scan for the widened pattern. */
  lemma HitsWidened(h: HashFn, p: Statement, k: Key)
    ensures Hits(h, p, k) <==> HashMatches(h, Widened(p), k)
  {
    hide ResourceBytes, UriBytes, ValueBytes;
    var w := Widened(p);
    forall pos ensures Bound(w, pos) <==> Bound(p, pos) && Ignored(p) != Some(pos) {}
    forall pos | Bound(w, pos) ensures Agrees(h, w, k, pos) <==> Agrees(h, p, k, pos) {}
  }

  lemma NotEqual(b: Byte)
    ensures !b != b
  {
  }

  // ---- `matches` ----

  predicate Matches(s: Statement, p: Statement) {
    && (p.ctx.Some? ==> EqResource(s.Context(), p.ctx.value))
    && (p.subj.Some? ==> EqResource(s.Subject(), p.subj.value))
    && (p.pred.Some? ==> EqUri(s.Predicate(), p.pred.value))
    && (p.obj.Some? ==> EqValue(s.Object(), p.obj.value))
  }

  predicate DatatypeAbsent(v: Value) {
    v.LiteralValue? && v.literal.Typed? && v.literal.dataliteral.datatype_.None?
  }

  /** Neither or both of two typed literals leave their datatype out. */
  predicate DatatypesAlike(s: Statement, p: Statement) {
    p.obj.Some? ==> (DatatypeAbsent(s.Object()) <==> DatatypeAbsent(p.obj.value))
  }

  /** Every statement that `matches` the pattern agrees with it in all hashes, whatever the
      hash function, if and only if both spell their datatypes alike. No assumption about
      collisions is needed: a scan misses no such statement. */
  lemma MatchesAreFound(s: Statement, p: Statement)
    requires Matches(s, p)
    ensures (forall h: HashFn :: HashMatches(h, p, KeyOf(h, s))) <==> DatatypesAlike(s, p)
  {
    hide ResourceBytes, UriBytes, ValueBytes;
    if DatatypesAlike(s, p) {
      assert p.obj.Some? ==> s.Object() == p.obj.value;
    } else {
      ValuesDiffer(s.Object(), p.obj.value);
      var h := Splitter(TermBytes(s, O));
      assert !Agrees(h, p, KeyOf(h, s), O);
      assert !HashMatches(h, p, KeyOf(h, s));
    }
  }

  lemma ValuesDiffer(a: Value, b: Value)
    requires a != b
    ensures ValueBytes(a) != ValueBytes(b)
  {
    if ValueBytes(a) == ValueBytes(b) { ValueInjective(a, b); }
  }

  /** A hash function that tells `x` from every other input. */
  function Splitter(x: Bytes): (h: HashFn)
    ensures forall y :: h(y) == h(x) <==> y == x
  {
    var zeros: Hash, ones: Hash := Fill(0, 16), Fill(0xff, 16);
    assert zeros[0] != ones[0];
    (y: Bytes) => if y == x then zeros else ones
  }

  // ---- The source's buffers ----

  /** memcpy of one 16-byte block. */
  method CopyBlock(dest: array<Byte>, offset: nat, block: Hash)
    requires offset + 16 <= dest.Length
    modifies dest
    ensures dest[..] == old(dest[..offset]) + block + old(dest[offset + 16..])
  {
    forall j | 0 <= j < 16 { dest[offset + j] := block[j]; }
  }

  lemma {:induction false} PrefixTake(h: HashFn, args: seq<Option<Bytes>>, i: nat)
    requires i < |args|
    requires forall j | 0 <= j <= i :: args[j].Some?
    ensures Prefix(h, args[..i + 1]) == Prefix(h, args[..i]) + h(args[i].value)
  {
    if i == 0 {
      assert args[..1][1..] == [];
    } else {
      PrefixTake(h, args[1..], i - 1);
      assert args[..i][1..] == args[1..][..i - 1] && args[..i + 1][1..] == args[1..][..i];
    }
  }

  lemma {:induction false} PrefixEnds(h: HashFn, args: seq<Option<Bytes>>, i: nat)
    requires i <= |args|
    requires forall j | 0 <= j < i :: args[j].Some?
    ensures RunLength(args[..i]) == i
    ensures i == |args| || args[i].None? ==> Prefix(h, args[..i]) == Prefix(h, args) && RunLength(args) == i
  {
    if i > 0 {
      PrefixEnds(h, args[1..], i - 1);
      assert args[..i][1..] == args[1..][..i - 1];
    }
  }

  /** computeKey, writing into a caller's buffer and stopping at the first null. */
  method ComputeKey(h: HashFn, args: seq<Option<Bytes>>, result: array<Byte>)
    requires |args| == 4 && result.Length == 64
    modifies result
    ensures result[..] == Prefix(h, args) + old(result[..])[16 * RunLength(args)..]
  {
    hide RunLength;
    ghost var before := result[..];
    var i := 0;
    PrefixEnds(h, args, 0);
    while i < 4 && args[i].Some?
      invariant 0 <= i <= 4
      invariant forall j | 0 <= j < i :: args[j].Some?
      invariant RunLength(args[..i]) == i
      invariant result[..] == Prefix(h, args[..i]) + before[16 * i..]
    {
      PrefixTake(h, args, i);
      ghost var done, rest := Prefix(h, args[..i]), before[16 * i..];
      var block := h(args[i].value);
      CopyBlock(result, 16 * i, block);
      assert (done + rest)[..16 * i] == done && (done + rest)[16 * i + 16..] == before[16 * i + 16..];
      i := i + 1;
      PrefixEnds(h, args, i);
    }
    PrefixEnds(h, args, i);
  }

  /** orderKey: four block copies. */
  method OrderKey(dest: array<Byte>, src: array<Byte>, ix: IndexType)
    requires dest.Length == 64 && src.Length == 64 && dest != src
    modifies dest
    ensures dest[..] == Flatten(Reorder(Unflatten(src[..]), ix))
  {
    var order := Order(ix);
    var k := Unflatten(src[..]);
    CopyBlock(dest, 0, Slot(k, order[0]));
    CopyBlock(dest, 16, Slot(k, order[1]));
    CopyBlock(dest, 32, Slot(k, order[2]));
    CopyBlock(dest, 48, Slot(k, order[3]));
  }
}
