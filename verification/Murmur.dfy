/** MurmurHash3_x64_128 (util/murmur3.cc): the hash that turns the serialised terms of a
    statement into index keys.

    The functions give the hash as an expression over 64-bit words; method `Hash3`
    computes it the way the source does, with a block loop and a fall-through tail.
    `HashIsTextbook` equates the hash with the algorithm as one recursion over the input, in
    plain 64-bit operators, and `KnownAnswer` with a published value. The other lemmas show
    that every stage is injective, which yields the main results, `OneBlockDifference` and
    `PaddingDiffers`. */
module Murmur {
  import opened Bytes

  /** The largest value of the C parameter `const int len`. */
  const MAX_LENGTH: nat := 0x7fff_ffff

  datatype State = State(h1: bv64, h2: bv64)

  // ---- Word operations and their inverses ----

  function Rotl64(x: bv64, r: bv7): (y: bv64)
    requires 0 < r < 64
  {
    (x << r) | (x >> (64 - r))
  }

  function TimesC1(x: bv64): bv64 { x * 0x87c37b91114253d5 }
  function OverC1(x: bv64): bv64 { x * 0xa98409e882ce4d7d }
  function TimesC2(x: bv64): bv64 { x * 0x4cf5ad432745937f }
  function OverC2(x: bv64): bv64 { x * 0xa81e14edd9de2c7f }
  function TimesF1(x: bv64): bv64 { x * 0xff51afd7ed558ccd }
  function OverF1(x: bv64): bv64 { x * 0x4f74430c22a54005 }
  function TimesF2(x: bv64): bv64 { x * 0xc4ceb9fe1a85ec53 }
  function OverF2(x: bv64): bv64 { x * 0x9cb4b2f8129337db }
  function Times5(x: bv64): bv64 { x * 5 }
  function Over5(x: bv64): bv64 { x * 0xcccccccccccccccd }
  function Plus(x: bv64, y: bv64): bv64 { x + y }
  function Xor(x: bv64, y: bv64): bv64 { x ^ y }
  function Minus(x: bv64, y: bv64): bv64 { x - y }
  function XorShift33(x: bv64): bv64 { x ^ (x >> 33) }

  // The product of each pair of constants is 1 modulo 2^64.
  lemma InverseConstants(x: bv64)
    ensures OverC1(x * 0x87c37b91114253d5) == x
    ensures OverC2(x * 0x4cf5ad432745937f) == x
    ensures OverF1(x * 0xff51afd7ed558ccd) == x
    ensures OverF2(x * 0xc4ceb9fe1a85ec53) == x
    ensures Over5(x * 5) == x
  {
  }

  lemma UndoC1(x: bv64)
    ensures OverC1(TimesC1(x)) == x
  {
    InverseConstants(x);
  }

  lemma UndoC2(x: bv64)
    ensures OverC2(TimesC2(x)) == x
  {
    InverseConstants(x);
  }

  lemma UndoF1(x: bv64)
    ensures OverF1(TimesF1(x)) == x
  {
    InverseConstants(x);
  }

  lemma UndoF2(x: bv64)
    ensures OverF2(TimesF2(x)) == x
  {
    InverseConstants(x);
  }

  lemma Undo5(x: bv64)
    ensures Over5(Times5(x)) == x
  {
    InverseConstants(x);
  }

  lemma RotatedTwice(x: bv64)
    ensures Rotl64((x << 27) | (x >> 37), 37) == x
    ensures Rotl64((x << 31) | (x >> 33), 33) == x
    ensures Rotl64((x << 33) | (x >> 31), 31) == x
  {
  }

  lemma UndoRotl(x: bv64)
    ensures Rotl64(Rotl64(x, 27), 37) == x
    ensures Rotl64(Rotl64(x, 31), 33) == x
    ensures Rotl64(Rotl64(x, 33), 31) == x
  {
    RotatedTwice(x);
  }

  lemma ShiftedTwice(x: bv64)
    ensures XorShift33(x ^ (x >> 33)) == x
  {
  }

  lemma UndoXorShift(x: bv64)
    ensures XorShift33(XorShift33(x)) == x
  {
    ShiftedTwice(x);
  }

  // ---- Mixing functions ----

  function Fmix64(k: bv64): (r: bv64) {
    XorShift33(TimesF2(XorShift33(TimesF1(XorShift33(k)))))
  }

  function MixK1(k: bv64): (r: bv64) { TimesC2(Rotl64(TimesC1(k), 31)) }

  function MixK2(k: bv64): (r: bv64) { TimesC1(Rotl64(TimesC2(k), 33)) }

  function Stir1(h1: bv64, h2: bv64): (r: bv64) { Plus(Times5(Plus(Rotl64(h1, 27), h2)), 0x52dce729) }

  function Stir2(h2: bv64, h1: bv64): (r: bv64) { Plus(Times5(Plus(Rotl64(h2, 31), h1)), 0x38495ab5) }

  lemma MixK1Injective(x: bv64, y: bv64)
    requires MixK1(x) == MixK1(y)
    ensures x == y
  {
    UndoC2(Rotl64(TimesC1(x), 31)); UndoC2(Rotl64(TimesC1(y), 31));
    UndoRotl(TimesC1(x)); UndoRotl(TimesC1(y));
    UndoC1(x); UndoC1(y);
  }

  lemma MixK2Injective(x: bv64, y: bv64)
    requires MixK2(x) == MixK2(y)
    ensures x == y
  {
    UndoC1(Rotl64(TimesC2(x), 33)); UndoC1(Rotl64(TimesC2(y), 33));
    UndoRotl(TimesC2(x)); UndoRotl(TimesC2(y));
    UndoC2(x); UndoC2(y);
  }

  lemma FmixInjective(x: bv64, y: bv64)
    requires Fmix64(x) == Fmix64(y)
    ensures x == y
  {
    var a, b := XorShift33(TimesF1(XorShift33(x))), XorShift33(TimesF1(XorShift33(y)));
    UndoXorShift(TimesF2(a)); UndoXorShift(TimesF2(b));
    UndoF2(a); UndoF2(b);
    UndoXorShift(TimesF1(XorShift33(x))); UndoXorShift(TimesF1(XorShift33(y)));
    UndoF1(XorShift33(x)); UndoF1(XorShift33(y));
    UndoXorShift(x); UndoXorShift(y);
  }

  lemma SumCancels(x: bv64, z: bv64)
    ensures Minus(x + z, z) == x
  {
  }

  lemma UndoPlus(x: bv64, z: bv64)
    ensures Minus(Plus(x, z), z) == x
  {
    SumCancels(x, z);
  }

  lemma XorTwice(x: bv64, z: bv64)
    ensures Xor(x ^ z, z) == x && Xor(x ^ z, x) == z
  {
  }

  lemma UndoXor(x: bv64, z: bv64)
    ensures Xor(Xor(x, z), z) == x && Xor(Xor(x, z), x) == z
  {
    XorTwice(x, z);
  }

  lemma Stir1Injective(x: bv64, y: bv64, z: bv64)
    requires Stir1(x, z) == Stir1(y, z)
    ensures x == y
  {
    var a, b := Rotl64(x, 27), Rotl64(y, 27);
    UndoPlus(Times5(Plus(a, z)), 0x52dce729); UndoPlus(Times5(Plus(b, z)), 0x52dce729);
    Undo5(Plus(a, z)); Undo5(Plus(b, z));
    UndoPlus(a, z); UndoPlus(b, z);
    UndoRotl(x); UndoRotl(y);
  }

  lemma Stir2Injective(x: bv64, y: bv64, z: bv64)
    requires Stir2(x, z) == Stir2(y, z)
    ensures x == y
  {
    var a, b := Rotl64(x, 31), Rotl64(y, 31);
    UndoPlus(Times5(Plus(a, z)), 0x38495ab5); UndoPlus(Times5(Plus(b, z)), 0x38495ab5);
    Undo5(Plus(a, z)); Undo5(Plus(b, z));
    UndoPlus(a, z); UndoPlus(b, z);
    UndoRotl(x); UndoRotl(y);
  }

  // ---- Words from and to bytes (little endian) ----

  function Pack(b0: Byte, b1: Byte, b2: Byte, b3: Byte, b4: Byte, b5: Byte, b6: Byte, b7: Byte): (w: bv64) {
    (b0 as bv64) ^ ((b1 as bv64) << 8) ^ ((b2 as bv64) << 16) ^ ((b3 as bv64) << 24) ^
    ((b4 as bv64) << 32) ^ ((b5 as bv64) << 40) ^ ((b6 as bv64) << 48) ^ ((b7 as bv64) << 56)
  }

  function At(b: Bytes, i: nat): (r: Byte) { if i < |b| then b[i] else 0 }

  /** The word read by `getblock64`; a short tail is padded with zero bytes. */
  function Word(b: Bytes): (w: bv64)
    requires |b| <= 8
  {
    Pack(At(b, 0), At(b, 1), At(b, 2), At(b, 3), At(b, 4), At(b, 5), At(b, 6), At(b, 7))
  }

  function ByteOf(w: bv64, i: bv7): (b: Byte)
    requires i < 8
  {
    ((w >> (8 * i)) & 0xff) as Byte
  }

  function Unpack(w: bv64): (b: Bytes)
    ensures |b| == 8
  {
    [ByteOf(w, 0), ByteOf(w, 1), ByteOf(w, 2), ByteOf(w, 3), ByteOf(w, 4), ByteOf(w, 5), ByteOf(w, 6), ByteOf(w, 7)]
  }

  lemma PackUnpack(w: bv64)
    ensures Word(Unpack(w)) == w
  {
  }

  lemma UnpackPack(b0: Byte, b1: Byte, b2: Byte, b3: Byte, b4: Byte, b5: Byte, b6: Byte, b7: Byte)
    ensures Unpack(Pack(b0, b1, b2, b3, b4, b5, b6, b7)) == [b0, b1, b2, b3, b4, b5, b6, b7]
  {
  }

  lemma WordInjective(a: Bytes, b: Bytes)
    requires |a| == |b| <= 8
    requires Word(a) == Word(b)
    ensures a == b
  {
    UnpackPack(At(a, 0), At(a, 1), At(a, 2), At(a, 3), At(a, 4), At(a, 5), At(a, 6), At(a, 7));
    UnpackPack(At(b, 0), At(b, 1), At(b, 2), At(b, 3), At(b, 4), At(b, 5), At(b, 6), At(b, 7));
    assert forall i | 0 <= i < |a| :: a[i] == At(a, i) && b[i] == At(b, i);
  }

  // ---- The hash ----

  function BlockStep(s: State, k1: bv64, k2: bv64): (r: State) {
    var h1 := Stir1(Xor(s.h1, MixK1(k1)), s.h2);
    State(h1, Stir2(Xor(s.h2, MixK2(k2)), h1))
  }

  /** The state after the first `n` blocks. */
  function Absorb(s: State, data: Bytes, n: nat): (r: State)
    requires 16 * n <= |data|
  {
    if n == 0 then s
    else
      var o := 16 * (n - 1);
      BlockStep(Absorb(s, data, n - 1), Word(data[o..o + 8]), Word(data[o + 8..o + 16]))
  }

  function TailStep(s: State, tail: Bytes): (r: State)
    requires |tail| < 16
  {
    var h2 := if |tail| > 8 then Xor(s.h2, MixK2(Word(tail[8..]))) else s.h2;
    var h1 := if |tail| > 8 then Xor(s.h1, MixK1(Word(tail[..8])))
              else if |tail| > 0 then Xor(s.h1, MixK1(Word(tail)))
              else s.h1;
    State(h1, h2)
  }

  function Finalise(s: State, len: bv64): (r: State) {
    var a1 := Plus(Xor(s.h1, len), Xor(s.h2, len));
    var a2 := Plus(Xor(s.h2, len), a1);
    var b1 := Plus(Fmix64(a1), Fmix64(a2));
    State(b1, Plus(Fmix64(a2), b1))
  }

  /** The length as a 64-bit word, from its base-256 digits. */
  function LengthWord(n: nat): (w: bv64)
    requires n <= MAX_LENGTH
  {
    var a, b, c := n / 256, n / 256 / 256, n / 256 / 256 / 256;
    Pack(ToByte(n % 256), ToByte(a % 256), ToByte(b % 256), ToByte(c % 256), 0, 0, 0, 0)
  }

  function Digest(data: Bytes, seed: bv32): (r: State)
    requires |data| <= MAX_LENGTH
  {
    var n := |data| / 16;
    var s := Absorb(State(seed as bv64, seed as bv64), data, n);
    Finalise(TailStep(s, data[16 * n..]), LengthWord(|data|))
  }

  /** The 16 bytes written to `out`. */
  function Hash(data: Bytes, seed: bv32): (r: Bytes)
    requires |data| <= MAX_LENGTH
    ensures |r| == 16
  {
    var d := Digest(data, seed);
    Unpack(d.h1) + Unpack(d.h2)
  }

  // ---- Every stage is injective ----

  /** The block step is injective in the block for a fixed state, and in the state for a
      fixed block. */
  lemma BlockStepInjective(s: State, k1: bv64, k2: bv64, t: State, l1: bv64, l2: bv64)
    requires s == t || (k1 == l1 && k2 == l2)
    requires BlockStep(s, k1, k2) == BlockStep(t, l1, l2)
    ensures s == t && k1 == l1 && k2 == l2
  {
    hide Stir1, Stir2, MixK1, MixK2, Xor;
    Stir2Injective(Xor(s.h2, MixK2(k2)), Xor(t.h2, MixK2(l2)), BlockStep(s, k1, k2).h1);
    UndoXor(s.h2, MixK2(k2)); UndoXor(t.h2, MixK2(l2));
    Stir1Injective(Xor(s.h1, MixK1(k1)), Xor(t.h1, MixK1(l1)), s.h2);
    UndoXor(s.h1, MixK1(k1)); UndoXor(t.h1, MixK1(l1));
    MixK1Injective(k1, l1);
    MixK2Injective(k2, l2);
  }

  lemma TailStepInjective(s: State, a: Bytes, t: State, b: Bytes)
    requires |a| == |b| < 16
    requires s == t || a == b
    requires TailStep(s, a) == TailStep(t, b)
    ensures s == t && a == b
  {
    hide MixK1, MixK2, Xor, Word;
    if |a| > 0 {
      var x, y := if |a| > 8 then a[..8] else a, if |a| > 8 then b[..8] else b;
      UndoXor(s.h1, MixK1(Word(x))); UndoXor(t.h1, MixK1(Word(y)));
      MixK1Injective(Word(x), Word(y));
      WordInjective(x, y);
    }
    if |a| > 8 {
      UndoXor(s.h2, MixK2(Word(a[8..]))); UndoXor(t.h2, MixK2(Word(b[8..])));
      MixK2Injective(Word(a[8..]), Word(b[8..]));
      WordInjective(a[8..], b[8..]);
      assert a == a[..8] + a[8..] && b == b[..8] + b[8..];
    }
  }

  lemma FinaliseInjective(s: State, t: State, len: bv64)
    requires Finalise(s, len) == Finalise(t, len)
    ensures s == t
  {
    hide Plus, Minus, Xor, Fmix64;
    var a1, c1 := Plus(Xor(s.h1, len), Xor(s.h2, len)), Plus(Xor(t.h1, len), Xor(t.h2, len));
    var a2, c2 := Plus(Xor(s.h2, len), a1), Plus(Xor(t.h2, len), c1);
    var b1, d1 := Plus(Fmix64(a1), Fmix64(a2)), Plus(Fmix64(c1), Fmix64(c2));
    UndoPlus(Fmix64(a2), b1); UndoPlus(Fmix64(c2), d1);
    UndoPlus(Fmix64(a1), Fmix64(a2)); UndoPlus(Fmix64(c1), Fmix64(c2));
    FmixInjective(a1, c1); FmixInjective(a2, c2);
    UndoPlus(Xor(s.h2, len), a1); UndoPlus(Xor(t.h2, len), c1);
    UndoPlus(Xor(s.h1, len), Xor(s.h2, len)); UndoPlus(Xor(t.h1, len), Xor(t.h2, len));
    UndoXor(s.h1, len); UndoXor(t.h1, len);
    UndoXor(s.h2, len); UndoXor(t.h2, len);
  }

  lemma UnpackInjective(x: bv64, y: bv64)
    requires Unpack(x) == Unpack(y)
    ensures x == y
  {
    PackUnpack(x); PackUnpack(y);
  }

  // ---- Inputs that differ in one block ----

  ghost predicate AgreeOutside(a: Bytes, b: Bytes, i: nat) {
    |a| == |b| && forall j | 0 <= j < |a| && !(16 * i <= j < 16 * i + 16) :: a[j] == b[j]
  }

  lemma {:induction false} AbsorbSame(s: State, a: Bytes, b: Bytes, n: nat)
    requires 16 * n <= |a| == |b|
    requires forall j | 0 <= j < 16 * n :: a[j] == b[j]
    ensures Absorb(s, a, n) == Absorb(s, b, n)
  {
    hide BlockStep, Word;
    if n > 0 {
      var o := 16 * (n - 1);
      AbsorbSame(s, a, b, n - 1);
      assert a[o..o + 8] == b[o..o + 8] && a[o + 8..o + 16] == b[o + 8..o + 16];
    }
  }

  /** Once two inputs differ in block `i` the running states differ for good. */
  lemma {:induction false} AbsorbDiffers(s: State, a: Bytes, b: Bytes, i: nat, n: nat)
    requires i < n && 16 * n <= |a|
    requires AgreeOutside(a, b, i) && a != b
    ensures Absorb(s, a, n) != Absorb(s, b, n)
  {
    hide BlockStep, Word;
    var o := 16 * (n - 1);
    var x, y := Absorb(s, a, n - 1), Absorb(s, b, n - 1);
    var k1, k2 := Word(a[o..o + 8]), Word(a[o + 8..o + 16]);
    var l1, l2 := Word(b[o..o + 8]), Word(b[o + 8..o + 16]);
    if i == n - 1 {
      AbsorbSame(s, a, b, i);
      BlockBytes(a, b, i);
    } else {
      AbsorbDiffers(s, a, b, i, n - 1);
      assert forall j | o <= j < o + 16 :: a[j] == b[j];
      assert a[o..o + 8] == b[o..o + 8] && a[o + 8..o + 16] == b[o + 8..o + 16];
    }
    if BlockStep(x, k1, k2) == BlockStep(y, l1, l2) {
      BlockStepInjective(x, k1, k2, y, l1, l2);
    }
  }

  lemma BlockBytes(a: Bytes, b: Bytes, i: nat)
    requires AgreeOutside(a, b, i) && a != b && 16 * i + 16 <= |a|
    ensures var o := 16 * i; Word(a[o..o + 8]) != Word(b[o..o + 8]) || Word(a[o + 8..o + 16]) != Word(b[o + 8..o + 16])
  {
    hide Word;
    var o := 16 * i;
    var j :| 0 <= j < |a| && a[j] != b[j];
    var p := if j < o + 8 then o else o + 8;
    assert a[p..p + 8][j - p] != b[p..p + 8][j - p];
    if Word(a[p..p + 8]) == Word(b[p..p + 8]) {
      WordInjective(a[p..p + 8], b[p..p + 8]);
    }
  }

  /** The last two stages and the output format lose nothing. */
  lemma OutputDiffers(a: Bytes, b: Bytes, seed: bv32)
    requires |a| == |b| <= MAX_LENGTH
    requires var n := |a| / 16;
             var s0 := State(seed as bv64, seed as bv64);
             TailStep(Absorb(s0, a, n), a[16 * n..]) != TailStep(Absorb(s0, b, n), b[16 * n..])
    ensures Hash(a, seed) != Hash(b, seed)
  {
    hide Absorb, TailStep, Finalise, Unpack, LengthWord;
    var n := |a| / 16;
    var s0 := State(seed as bv64, seed as bv64);
    var d, e := Digest(a, seed), Digest(b, seed);
    if Hash(a, seed) == Hash(b, seed) {
      assert Hash(a, seed)[..8] == Unpack(d.h1) && Hash(b, seed)[..8] == Unpack(e.h1);
      assert Hash(a, seed)[8..] == Unpack(d.h2) && Hash(b, seed)[8..] == Unpack(e.h2);
      UnpackInjective(d.h1, e.h1); UnpackInjective(d.h2, e.h2);
      FinaliseInjective(TailStep(Absorb(s0, a, n), a[16 * n..]), TailStep(Absorb(s0, b, n), b[16 * n..]),
                        LengthWord(|a|));
    }
  }

  /** Equal-length inputs that differ only inside one 16-byte block, complete or partial,
      never collide, whatever their length and the seed. */
  lemma OneBlockDifference(a: Bytes, b: Bytes, seed: bv32, i: nat)
    requires |a| <= MAX_LENGTH
    requires AgreeOutside(a, b, i) && a != b
    ensures Hash(a, seed) != Hash(b, seed)
  {
    hide Absorb, TailStep, Hash;
    var n := |a| / 16;
    var s0 := State(seed as bv64, seed as bv64);
    var x, y := Absorb(s0, a, n), Absorb(s0, b, n);
    var u, v := a[16 * n..], b[16 * n..];
    if i < n {
      AbsorbDiffers(s0, a, b, i, n);
      assert u == v;
    } else {
      AbsorbSame(s0, a, b, n);
      assert a[..16 * n] == b[..16 * n];
      assert a == a[..16 * n] + u && b == b[..16 * n] + v;
    }
    if TailStep(x, u) == TailStep(y, v) {
      TailStepInjective(x, u, y, v);
    }
    OutputDiffers(a, b, seed);
  }

  // ---- Inputs of different length ----

  lemma PackInjective(a: Byte, b: Byte, c: Byte, d: Byte, e: Byte, f: Byte, g: Byte, h: Byte)
    requires Pack(a, b, c, d, 0, 0, 0, 0) == Pack(e, f, g, h, 0, 0, 0, 0)
    ensures a == e && b == f && c == g && d == h
  {
    hide Pack, Unpack;
    UnpackPack(a, b, c, d, 0, 0, 0, 0);
    UnpackPack(e, f, g, h, 0, 0, 0, 0);
    var u := [a, b, c, d, 0, 0, 0, 0];
    assert u[0] == e && u[1] == f && u[2] == g && u[3] == h;
  }

  lemma LengthInjective(m: nat, n: nat)
    requires m <= MAX_LENGTH && n <= MAX_LENGTH && LengthWord(m) == LengthWord(n)
    ensures m == n
  {
    hide Pack, ToByte;
    var a, b, c := m / 256, m / 256 / 256, m / 256 / 256 / 256;
    var d, e, f := n / 256, n / 256 / 256, n / 256 / 256 / 256;
    PackInjective(ToByte(m % 256), ToByte(a % 256), ToByte(b % 256), ToByte(c % 256),
                  ToByte(n % 256), ToByte(d % 256), ToByte(e % 256), ToByte(f % 256));
    ToByteInjective(m % 256, n % 256);
    ToByteInjective(a % 256, d % 256);
    ToByteInjective(b % 256, e % 256);
    ToByteInjective(c % 256, f % 256);
    assert c == f;
    assert b == e;
  }

  /** Finalisation of one state tells lengths apart. */
  lemma FinaliseSeesLength(s: State, x: bv64, y: bv64)
    requires Finalise(s, x) == Finalise(s, y)
    ensures x == y
  {
    hide Plus, Minus, Xor, Fmix64;
    var a1, c1 := Plus(Xor(s.h1, x), Xor(s.h2, x)), Plus(Xor(s.h1, y), Xor(s.h2, y));
    var a2, c2 := Plus(Xor(s.h2, x), a1), Plus(Xor(s.h2, y), c1);
    var b1, d1 := Plus(Fmix64(a1), Fmix64(a2)), Plus(Fmix64(c1), Fmix64(c2));
    UndoPlus(Fmix64(a2), b1); UndoPlus(Fmix64(c2), d1);
    UndoPlus(Fmix64(a1), Fmix64(a2)); UndoPlus(Fmix64(c1), Fmix64(c2));
    FmixInjective(a1, c1); FmixInjective(a2, c2);
    UndoPlus(Xor(s.h2, x), a1); UndoPlus(Xor(s.h2, y), c1);
    UndoXor(s.h2, x); UndoXor(s.h2, y);
  }

  lemma NothingMixed(h: bv64)
    ensures Word([]) == 0 && Xor(h, MixK1(0)) == h && Xor(h, MixK2(0)) == h
  {
  }

  lemma WordPadded(t: Bytes, n: nat)
    requires |t| + n <= 8
    ensures Word(t + Fill(0, n)) == Word(t)
  {
    hide Pack;
    forall i | 0 <= i < 8 ensures At(t + Fill(0, n), i) == At(t, i) {}
  }

  /** The tail is mixed in as if padded with zeros to a whole block. */
  lemma TailAsBlock(s: State, t: Bytes)
    requires |t| < 16
    ensures var block := t + Fill(0, 16 - |t|);
            TailStep(s, t) == State(Xor(s.h1, MixK1(Word(block[..8]))), Xor(s.h2, MixK2(Word(block[8..]))))
  {
    hide MixK1, MixK2, Xor, Word;
    var block := t + Fill(0, 16 - |t|);
    NothingMixed(s.h1); NothingMixed(s.h2);
    if |t| > 8 {
      assert block[..8] == t[..8] && block[8..] == t[8..] + Fill(0, 16 - |t|);
      WordPadded(t[8..], 16 - |t|);
    } else {
      assert block[..8] == t + Fill(0, 8 - |t|) && block[8..] == [] + Fill(0, 8);
      WordPadded(t, 8 - |t|);
      WordPadded([], 8);
      assert |t| == 0 ==> Word(t) == 0;
    }
  }

  lemma TailPadded(s: State, t: Bytes, n: nat)
    requires |t| + n < 16
    ensures TailStep(s, t + Fill(0, n)) == TailStep(s, t)
  {
    hide TailStep, MixK1, MixK2, Xor, Word;
    TailAsBlock(s, t);
    TailAsBlock(s, t + Fill(0, n));
    assert t + Fill(0, n) + Fill(0, 16 - |t| - n) == t + Fill(0, 16 - |t|);
  }

  /** Zero bytes appended within the last block change the hash, whatever the length and the
      seed: only the length tells the two inputs apart. */
  lemma PaddingDiffers(a: Bytes, n: nat, seed: bv32)
    requires n > 0 && |a| % 16 + n < 16 && |a| + n <= MAX_LENGTH
    ensures Hash(a, seed) != Hash(a + Fill(0, n), seed)
  {
    hide Absorb, TailStep, Finalise, Unpack, LengthWord;
    var b, m := a + Fill(0, n), |a| / 16;
    var s0 := State(seed as bv64, seed as bv64);
    assert |b| / 16 == m;
    AbsorbPrefix(s0, a, b, m);
    assert b[16 * m..] == a[16 * m..] + Fill(0, n);
    TailPadded(Absorb(s0, a, m), a[16 * m..], n);
    var d, e := Digest(a, seed), Digest(b, seed);
    if Hash(a, seed) == Hash(b, seed) {
      assert Hash(a, seed)[..8] == Unpack(d.h1) && Hash(b, seed)[..8] == Unpack(e.h1);
      assert Hash(a, seed)[8..] == Unpack(d.h2) && Hash(b, seed)[8..] == Unpack(e.h2);
      UnpackInjective(d.h1, e.h1); UnpackInjective(d.h2, e.h2);
      FinaliseSeesLength(TailStep(Absorb(s0, a, m), a[16 * m..]), LengthWord(|a|), LengthWord(|b|));
      LengthInjective(|a|, |b|);
    }
  }

  lemma {:induction false} AbsorbPrefix(s: State, a: Bytes, b: Bytes, n: nat)
    requires 16 * n <= |a| && a <= b
    ensures Absorb(s, a, n) == Absorb(s, b, n)
  {
    hide BlockStep, Word;
    if n > 0 {
      var o := 16 * (n - 1);
      AbsorbPrefix(s, a, b, n - 1);
      assert a[o..o + 8] == b[o..o + 8] && a[o + 8..o + 16] == b[o + 8..o + 16];
    }
  }

  // ---- The algorithm in plain operators ----

  function Add(x: bv64, y: bv64): (r: bv64) { x + y }
  function Exor(x: bv64, y: bv64): (r: bv64) { x ^ y }
  function Fold33(x: bv64): (r: bv64) { x ^ (x >> 33) }
  function Rot27(x: bv64): (r: bv64) { x.RotateLeft(27) }
  function Rot31(x: bv64): (r: bv64) { x.RotateLeft(31) }
  function Rot33(x: bv64): (r: bv64) { x.RotateLeft(33) }
  function MulC1(x: bv64): (r: bv64) { x * 0x87c37b91114253d5 }
  function MulC2(x: bv64): (r: bv64) { x * 0x4cf5ad432745937f }
  function MulF1(x: bv64): (r: bv64) { x * 0xff51afd7ed558ccd }
  function MulF2(x: bv64): (r: bv64) { x * 0xc4ceb9fe1a85ec53 }
  function Mul5(x: bv64): (r: bv64) { x * 5 }

  function Below(b: Byte, w: bv64): (r: bv64) { (b as bv64) + 256 * w }

  function LittleEndian(b: Bytes): (w: bv64) { if b == [] then 0 else Below(b[0], LittleEndian(b[1..])) }

  function Mixed(k: bv64): (r: bv64) {
    var a := MulF1(Fold33(k));
    var b := MulF2(Fold33(a));
    Fold33(b)
  }

  /** Whole blocks from the front, each mixed into both halves of the state; then what is left,
      padded with zeros. */
  function Rounds(h1: bv64, h2: bv64, data: Bytes): (r: State)
    decreases |data|
  {
    var block := if |data| < 16 then data + Fill(0, 16 - |data|) else data[..16];
    var k1, k2 := LittleEndian(block[..8]), LittleEndian(block[8..]);
    var x := Exor(h1, MulC2(Rot31(MulC1(k1))));
    var y := Exor(h2, MulC1(Rot33(MulC2(k2))));
    if |data| < 16 then State(x, y)
    else
      var g1 := Add(Mul5(Add(Rot27(x), h2)), 0x52dce729);
      var g2 := Add(Mul5(Add(Rot31(y), g1)), 0x38495ab5);
      Rounds(g1, g2, data[16..])
  }

  function Textbook(data: Bytes, seed: bv32): (r: State)
    requires |data| <= MAX_LENGTH
  {
    var s := Rounds(seed as bv64, seed as bv64, data);
    var x, y := Exor(s.h1, LengthWord(|data|)), Exor(s.h2, LengthWord(|data|));
    var u := Add(x, y);
    var v := Add(y, u);
    var p := Add(Mixed(u), Mixed(v));
    State(p, Add(Mixed(v), p))
  }

  lemma SameC1(x: bv64)
    ensures TimesC1(x) == MulC1(x)
  {
  }

  lemma SameC2(x: bv64)
    ensures TimesC2(x) == MulC2(x)
  {
  }

  lemma Same5(x: bv64)
    ensures Times5(x) == Mul5(x)
  {
  }

  lemma SameF1(x: bv64)
    ensures TimesF1(x) == MulF1(x)
  {
  }

  lemma SameF2(x: bv64)
    ensures TimesF2(x) == MulF2(x)
  {
  }

  lemma SameRotations(x: bv64)
    ensures Rotl64(x, 27) == Rot27(x) && Rotl64(x, 31) == Rot31(x) && Rotl64(x, 33) == Rot33(x)
  {
  }

  lemma SameSum(x: bv64, y: bv64)
    ensures Plus(x, y) == Add(x, y)
  {
  }

  lemma SameXor(x: bv64, y: bv64)
    ensures Xor(x, y) == Exor(x, y)
  {
  }

  lemma SameShift(x: bv64)
    ensures XorShift33(x) == Fold33(x)
  {
  }

  lemma SameMix(k: bv64)
    ensures Fmix64(k) == Mixed(k)
  {
    hide XorShift33, Fold33, MulF1, MulF2, TimesF1, TimesF2;
    SameShift(k);
    SameF1(XorShift33(k));
    SameShift(TimesF1(XorShift33(k)));
    SameF2(XorShift33(TimesF1(XorShift33(k))));
    SameShift(TimesF2(XorShift33(TimesF1(XorShift33(k)))));
  }

  lemma SameKeys(k: bv64)
    ensures MixK1(k) == MulC2(Rot31(MulC1(k))) && MixK2(k) == MulC1(Rot33(MulC2(k)))
  {
    hide TimesC1, TimesC2, Rotl64, Rot31, Rot33, MulC1, MulC2;
    SameC1(k); SameC2(k);
    SameRotations(TimesC1(k)); SameRotations(TimesC2(k));
    SameC2(Rotl64(TimesC1(k), 31)); SameC1(Rotl64(TimesC2(k), 33));
  }

  lemma Horner(b0: Byte, b1: Byte, b2: Byte, b3: Byte, b4: Byte, b5: Byte, b6: Byte, b7: Byte)
    ensures Pack(b0, b1, b2, b3, b4, b5, b6, b7) ==
            Below(b0, Below(b1, Below(b2, Below(b3, Below(b4, Below(b5, Below(b6, Below(b7, 0))))))))
  {
  }

  lemma WordIsLittleEndian(b: Bytes)
    requires |b| == 8
    ensures Word(b) == LittleEndian(b)
  {
    hide Pack, Below;
    Horner(b[0], b[1], b[2], b[3], b[4], b[5], b[6], b[7]);
    assert b[1..][1..] == b[2..] && b[2..][1..] == b[3..] && b[3..][1..] == b[4..] && b[4..][1..] == b[5..];
    assert b[5..][1..] == b[6..] && b[6..][1..] == b[7..] && b[7..][1..] == [];
    assert LittleEndian(b[7..]) == Below(b[7], LittleEndian([]));
    assert LittleEndian(b[6..]) == Below(b[6], LittleEndian(b[7..]));
    assert LittleEndian(b[5..]) == Below(b[5], LittleEndian(b[6..]));
    assert LittleEndian(b[4..]) == Below(b[4], LittleEndian(b[5..]));
    assert LittleEndian(b[3..]) == Below(b[3], LittleEndian(b[4..]));
    assert LittleEndian(b[2..]) == Below(b[2], LittleEndian(b[3..]));
    assert LittleEndian(b[1..]) == Below(b[1], LittleEndian(b[2..]));
  }

  lemma SameStir(x: bv64, y: bv64)
    ensures Stir1(x, y) == Add(Mul5(Add(Rot27(x), y)), 0x52dce729)
    ensures Stir2(x, y) == Add(Mul5(Add(Rot31(x), y)), 0x38495ab5)
  {
    hide Plus, Times5, Rotl64, Add, Mul5, Rot27, Rot31;
    SameRotations(x);
    SameSum(Rotl64(x, 27), y); SameSum(Rotl64(x, 31), y);
    Same5(Plus(Rotl64(x, 27), y)); Same5(Plus(Rotl64(x, 31), y));
    SameSum(Times5(Plus(Rotl64(x, 27), y)), 0x52dce729);
    SameSum(Times5(Plus(Rotl64(x, 31), y)), 0x38495ab5);
  }

  /** One block at the front. */
  lemma SameRound(s: State, data: Bytes)
    requires |data| >= 16
    ensures var r := BlockStep(s, Word(data[..8]), Word(data[8..16]));
            Rounds(s.h1, s.h2, data) == Rounds(r.h1, r.h2, data[16..])
  {
    hide Stir1, Stir2, MixK1, MixK2, Xor, Word, Exor, MulC1, MulC2, Mul5, Add, Rot27, Rot31, Rot33, LittleEndian;
    var block := data[..16];
    assert block[..8] == data[..8] && block[8..] == data[8..16];
    var k1, k2 := Word(data[..8]), Word(data[8..16]);
    WordIsLittleEndian(data[..8]); WordIsLittleEndian(data[8..16]);
    SameKeys(k1); SameKeys(k2);
    SameXor(s.h1, MixK1(k1)); SameXor(s.h2, MixK2(k2));
    SameStir(Xor(s.h1, MixK1(k1)), s.h2);
    SameStir(Xor(s.h2, MixK2(k2)), Stir1(Xor(s.h1, MixK1(k1)), s.h2));
  }

  lemma SameTail(s: State, t: Bytes)
    requires |t| < 16
    ensures Rounds(s.h1, s.h2, t) == TailStep(s, t)
  {
    hide TailStep, MixK1, MixK2, Xor, Word, Exor, MulC1, MulC2, Mul5, Add, Rot27, Rot31, Rot33, LittleEndian;
    var block := t + Fill(0, 16 - |t|);
    var k1, k2 := Word(block[..8]), Word(block[8..]);
    TailAsBlock(s, t);
    WordIsLittleEndian(block[..8]); WordIsLittleEndian(block[8..]);
    SameKeys(k1); SameKeys(k2);
    SameXor(s.h1, MixK1(k1)); SameXor(s.h2, MixK2(k2));
  }

  lemma {:induction false} AbsorbFront(s: State, data: Bytes, n: nat)
    requires 0 < n && 16 * n <= |data|
    ensures Absorb(s, data, n) == Absorb(BlockStep(s, Word(data[..8]), Word(data[8..16])), data[16..], n - 1)
  {
    hide BlockStep, Word;
    if n > 1 {
      var o := 16 * (n - 1);
      AbsorbFront(s, data, n - 1);
      assert data[16..][o - 16..o - 8] == data[o..o + 8] && data[16..][o - 8..o] == data[o + 8..o + 16];
    }
  }

  lemma {:induction false} SameRounds(s: State, data: Bytes)
    ensures var n := |data| / 16; Rounds(s.h1, s.h2, data) == TailStep(Absorb(s, data, n), data[16 * n..])
    decreases |data|
  {
    hide Rounds, BlockStep, Word, TailStep;
    var n := |data| / 16;
    if n == 0 {
      assert data[0..] == data;
      SameTail(s, data);
    } else {
      var r := BlockStep(s, Word(data[..8]), Word(data[8..16]));
      SameRound(s, data);
      SameRounds(r, data[16..]);
      AbsorbFront(s, data, n);
      assert data[16..][16 * (n - 1)..] == data[16 * n..];
    }
  }

  lemma SameFinal(s: State, len: bv64)
    ensures var x, y := Exor(s.h1, len), Exor(s.h2, len);
            var u := Add(x, y);
            var v := Add(y, u);
            var p := Add(Mixed(u), Mixed(v));
            Finalise(s, len) == State(p, Add(Mixed(v), p))
  {
    hide Xor, Exor, Plus, Add, Fmix64, Mixed;
    SameXor(s.h1, len); SameXor(s.h2, len);
    var a1 := Plus(Xor(s.h1, len), Xor(s.h2, len));
    var a2 := Plus(Xor(s.h2, len), a1);
    SameSum(Xor(s.h1, len), Xor(s.h2, len));
    SameSum(Xor(s.h2, len), a1);
    SameMix(a1); SameMix(a2);
    SameSum(Fmix64(a1), Fmix64(a2));
    SameSum(Fmix64(a2), Plus(Fmix64(a1), Fmix64(a2)));
  }

  /** The hash is the algorithm in plain operators: its two words, little endian, first h1. */
  lemma HashIsTextbook(data: Bytes, seed: bv32)
    requires |data| <= MAX_LENGTH
    ensures var h, t := Hash(data, seed), Textbook(data, seed);
            LittleEndian(h[..8]) == t.h1 && LittleEndian(h[8..]) == t.h2
  {
    hide Absorb, TailStep, Finalise, Rounds, Exor, Add, Mixed, LengthWord, Unpack, Word, LittleEndian;
    var s0, n := State(seed as bv64, seed as bv64), |data| / 16;
    SameRounds(s0, data);
    SameFinal(TailStep(Absorb(s0, data, n), data[16 * n..]), LengthWord(|data|));
    var d := Digest(data, seed);
    assert Hash(data, seed)[..8] == Unpack(d.h1) && Hash(data, seed)[8..] == Unpack(d.h2);
    PackUnpack(d.h1); PackUnpack(d.h2);
    WordIsLittleEndian(Unpack(d.h1)); WordIsLittleEndian(Unpack(d.h2));
  }

  // ---- A published value ----

  /** "The quick brown fox jumps over the lazy dog", eight bytes at a time. */
  const FOX1: Bytes := [0x54, 0x68, 0x65, 0x20, 0x71, 0x75, 0x69, 0x63]
  const FOX2: Bytes := [0x6b, 0x20, 0x62, 0x72, 0x6f, 0x77, 0x6e, 0x20]
  const FOX3: Bytes := [0x66, 0x6f, 0x78, 0x20, 0x6a, 0x75, 0x6d, 0x70]
  const FOX4: Bytes := [0x73, 0x20, 0x6f, 0x76, 0x65, 0x72, 0x20, 0x74]
  const FOX5: Bytes := [0x68, 0x65, 0x20, 0x6c, 0x61, 0x7a, 0x79, 0x20]
  const FOX6: Bytes := [0x64, 0x6f, 0x67]

  function Fox(): (r: Bytes)
    ensures |r| == 43
  {
    FOX1 + FOX2 + FOX3 + FOX4 + FOX5 + FOX6
  }

  lemma FoxWords()
    ensures Word(FOX1) == 0x6369757120656854 && Word(FOX2) == 0x206e776f7262206b
    ensures Word(FOX3) == 0x706d756a20786f66 && Word(FOX4) == 0x74207265766f2073
    ensures Word(FOX5) == 0x20797a616c206568 && Word(FOX6) == 0x676f64
  {
  }

  lemma FoxBlocks()
    ensures BlockStep(State(0, 0), 0x6369757120656854, 0x206e776f7262206b)
         == State(0x065f54070009580c, 0x1185bfe0bc383732)
    ensures BlockStep(State(0x065f54070009580c, 0x1185bfe0bc383732), 0x706d756a20786f66, 0x74207265766f2073)
         == State(0xef7ef36e84b36d66, 0x20112c4dac59411d)
  {
  }

  lemma FoxSlices()
    ensures Fox()[0..8] == FOX1 && Fox()[8..16] == FOX2 && Fox()[16..24] == FOX3 && Fox()[24..32] == FOX4
    ensures Fox()[32..][..8] == FOX5 && Fox()[32..][8..] == FOX6
  {
  }

  lemma FoxAbsorbed()
    ensures Absorb(State(0, 0), Fox(), 2) == State(0xef7ef36e84b36d66, 0x20112c4dac59411d)
  {
    hide BlockStep, Word;
    FoxSlices(); FoxWords(); FoxBlocks();
    var s1 := State(0x065f54070009580c, 0x1185bfe0bc383732);
    assert Absorb(State(0, 0), Fox(), 0) == State(0, 0);
    assert Absorb(State(0, 0), Fox(), 1) == s1;
  }

  lemma FoxMixed()
    ensures Xor(0xef7ef36e84b36d66, MixK1(0x20797a616c206568)) == 0x515233ebf2a47c15
    ensures Xor(0x20112c4dac59411d, MixK2(0x676f64)) == 0x106ea6d665619948
    ensures Finalise(State(0x515233ebf2a47c15, 0x106ea6d665619948), 43) == State(0xe34bbc7bbc071b6c, 0x7a433ca9c49a9347)
  {
  }

  lemma ZeroByte()
    ensures ToByte(0) == 0
  {
    hide Bits;
    assert Half(0, 1) == 0 && Half(0, 2) == 0 && Half(0, 3) == 0 && Half(0, 4) == 0;
    assert Half(0, 5) == 0 && Half(0, 6) == 0 && Half(0, 7) == 0;
    BitsAre();
  }

  lemma FoxByte()
    ensures ToByte(43) == 43
  {
    hide Bits;
    assert Half(43, 1) == 21 && Half(43, 2) == 10 && Half(43, 3) == 5 && Half(43, 4) == 2;
    assert Half(43, 5) == 1 && Half(43, 6) == 0 && Half(43, 7) == 0;
    BitsAre();
  }

  lemma BitsAre()
    ensures Bits(0, 0, 0, 0, 0, 0, 0, 0) == 0 && Bits(0, 0, 1, 0, 1, 0, 1, 1) == 43
  {
  }

  lemma Lengths()
    ensures LengthWord(43) == 43 && LengthWord(0) == 0
  {
    hide ToByte, Pack;
    ZeroByte(); FoxByte();
    assert Pack(43, 0, 0, 0, 0, 0, 0, 0) == 43 && Pack(0, 0, 0, 0, 0, 0, 0, 0) == 0 by { PackSmall(); }
  }

  lemma PackSmall()
    ensures Pack(43, 0, 0, 0, 0, 0, 0, 0) == 43 && Pack(0, 0, 0, 0, 0, 0, 0, 0) == 0
  {
  }

  lemma FoxBytes()
    ensures Unpack(0xe34bbc7bbc071b6c) == [0x6c, 0x1b, 0x07, 0xbc, 0x7b, 0xbc, 0x4b, 0xe3]
    ensures Unpack(0x7a433ca9c49a9347) == [0x47, 0x93, 0x9a, 0xc4, 0xa9, 0x3c, 0x43, 0x7a]
  {
  }

  /** The value the algorithm is known to have, with seed 0, for the usual sentence: two blocks
      and a tail of eleven bytes. */
  lemma KnownAnswer()
    ensures Hash(Fox(), 0) == [0x6c, 0x1b, 0x07, 0xbc, 0x7b, 0xbc, 0x4b, 0xe3,
                               0x47, 0x93, 0x9a, 0xc4, 0xa9, 0x3c, 0x43, 0x7a]
  {
    hide Absorb, MixK1, MixK2, Xor, Finalise, LengthWord, Unpack, Word, Fox;
    FoxSlices(); FoxWords(); FoxAbsorbed(); FoxMixed(); Lengths(); FoxBytes();
    var s := Absorb(State(0, 0), Fox(), 2);
    assert TailStep(s, Fox()[32..]) == State(0x515233ebf2a47c15, 0x106ea6d665619948);
    assert Digest(Fox(), 0) == State(0xe34bbc7bbc071b6c, 0x7a433ca9c49a9347);
  }

  lemma EmptyMixed()
    ensures Finalise(State(13, 13), 0) == State(0xa10ea8b22762995a, 0xbb1575409cfb7dc6)
    ensures Unpack(0xa10ea8b22762995a) == [0x5a, 0x99, 0x62, 0x27, 0xb2, 0xa8, 0x0e, 0xa1]
    ensures Unpack(0xbb1575409cfb7dc6) == [0xc6, 0x7d, 0xfb, 0x9c, 0x40, 0x75, 0x15, 0xbb]
  {
  }

  /** With the seed the keys are made with, the hash of nothing. */
  lemma EmptyAnswer()
    ensures Hash([], 13) == [0x5a, 0x99, 0x62, 0x27, 0xb2, 0xa8, 0x0e, 0xa1,
                             0xc6, 0x7d, 0xfb, 0x9c, 0x40, 0x75, 0x15, 0xbb]
  {
    hide MixK1, MixK2, Finalise, LengthWord, Unpack, Word;
    Lengths();
    EmptyMixed();
  }

  // ---- The source's loop and switch ----

  /** `k ^= ((uint64_t)b) << shift`. */
  function Mixin(k: bv64, b: Byte, shift: bv7): (r: bv64)
    requires shift < 64
  {
    k ^ ((b as bv64) << shift)
  }

  lemma MixinZero(k: bv64, shift: bv7)
    requires shift < 64
    ensures Mixin(k, 0, shift) == k
  {
  }

  /** Folding the bytes in from the top builds the same word. */
  function FromTopWord(b0: Byte, b1: Byte, b2: Byte, b3: Byte, b4: Byte, b5: Byte, b6: Byte, b7: Byte): (w: bv64) {
    var high := Mixin(Mixin(Mixin(Mixin(0, b7, 56), b6, 48), b5, 40), b4, 32);
    Mixin(Mixin(Mixin(Mixin(high, b3, 24), b2, 16), b1, 8), b0, 0)
  }

  lemma FromTopIsPack(b0: Byte, b1: Byte, b2: Byte, b3: Byte, b4: Byte, b5: Byte, b6: Byte, b7: Byte)
    ensures FromTopWord(b0, b1, b2, b3, b4, b5, b6, b7) == Pack(b0, b1, b2, b3, b4, b5, b6, b7)
  {
  }

  lemma FromTop(t: Bytes)
    requires |t| <= 8
    ensures Word(t) == FromTopWord(At(t, 0), At(t, 1), At(t, 2), At(t, 3), At(t, 4), At(t, 5), At(t, 6), At(t, 7))
  {
    FromTopIsPack(At(t, 0), At(t, 1), At(t, 2), At(t, 3), At(t, 4), At(t, 5), At(t, 6), At(t, 7));
  }

  /** The high half of the tail switch, cases 15 down to 9. */
  method TailHigh(tail: Bytes) returns (k2: bv64)
    requires 8 < |tail| < 16
    ensures k2 == Word(tail[8..])
  {
    hide Mixin, Pack;
    var n := |tail|;
    ghost var t := tail[8..];
    FromTop(t);
    k2 := 0;
    MixinZero(0, 56);
    MixinZero(k2, 48);
    if n >= 15 { k2 := Mixin(k2, tail[14], 48); }
    MixinZero(k2, 40);
    if n >= 14 { k2 := Mixin(k2, tail[13], 40); }
    MixinZero(k2, 32);
    if n >= 13 { k2 := Mixin(k2, tail[12], 32); }
    MixinZero(k2, 24);
    if n >= 12 { k2 := Mixin(k2, tail[11], 24); }
    MixinZero(k2, 16);
    if n >= 11 { k2 := Mixin(k2, tail[10], 16); }
    MixinZero(k2, 8);
    if n >= 10 { k2 := Mixin(k2, tail[9], 8); }
    k2 := Mixin(k2, tail[8], 0);
  }

  /** The low half of the tail switch, cases 8 down to 1. */
  method TailLow(tail: Bytes) returns (k1: bv64)
    requires 0 < |tail| < 16
    ensures k1 == Word(if |tail| > 8 then tail[..8] else tail)
  {
    hide Mixin, Pack;
    var n := |tail|;
    ghost var t := if n > 8 then tail[..8] else tail;
    FromTop(t);
    k1 := 0;
    MixinZero(k1, 56);
    if n >= 8 { k1 := Mixin(k1, tail[7], 56); }
    MixinZero(k1, 48);
    if n >= 7 { k1 := Mixin(k1, tail[6], 48); }
    MixinZero(k1, 40);
    if n >= 6 { k1 := Mixin(k1, tail[5], 40); }
    MixinZero(k1, 32);
    if n >= 5 { k1 := Mixin(k1, tail[4], 32); }
    MixinZero(k1, 24);
    if n >= 4 { k1 := Mixin(k1, tail[3], 24); }
    MixinZero(k1, 16);
    if n >= 3 { k1 := Mixin(k1, tail[2], 16); }
    MixinZero(k1, 8);
    if n >= 2 { k1 := Mixin(k1, tail[1], 8); }
    k1 := Mixin(k1, tail[0], 0);
  }

  /** MurmurHash3_x64_128, statement by statement. */
  method Hash3(data: Bytes, seed: bv32) returns (out: Bytes)
    requires |data| <= MAX_LENGTH
    ensures out == Hash(data, seed)
  {
    hide Rotl64, TimesC1, TimesC2, Times5, Plus, Xor, Fmix64, Word, Unpack, LengthWord;
    var nblocks := |data| / 16;
    var h1, h2 := seed as bv64, seed as bv64;
    for i := 0 to nblocks
      invariant State(h1, h2) == Absorb(State(seed as bv64, seed as bv64), data, i)
    {
      var k1, k2 := Word(data[16 * i..16 * i + 8]), Word(data[16 * i + 8..16 * i + 16]);
      k1 := TimesC1(k1); k1 := Rotl64(k1, 31); k1 := TimesC2(k1); h1 := Xor(h1, k1);
      h1 := Rotl64(h1, 27); h1 := Plus(h1, h2); h1 := Plus(Times5(h1), 0x52dce729);
      k2 := TimesC2(k2); k2 := Rotl64(k2, 33); k2 := TimesC1(k2); h2 := Xor(h2, k2);
      h2 := Rotl64(h2, 31); h2 := Plus(h2, h1); h2 := Plus(Times5(h2), 0x38495ab5);
    }
    var tail := data[16 * nblocks..];
    if |tail| > 8 {
      var k2 := TailHigh(tail);
      k2 := TimesC2(k2); k2 := Rotl64(k2, 33); k2 := TimesC1(k2); h2 := Xor(h2, k2);
    }
    if |tail| > 0 {
      var k1 := TailLow(tail);
      k1 := TimesC1(k1); k1 := Rotl64(k1, 31); k1 := TimesC2(k1); h1 := Xor(h1, k1);
    }
    h1, h2 := Xor(h1, LengthWord(|data|)), Xor(h2, LengthWord(|data|));
    h1 := Plus(h1, h2);
    h2 := Plus(h2, h1);
    h1 := Fmix64(h1);
    h2 := Fmix64(h2);
    h1 := Plus(h1, h2);
    h2 := Plus(h2, h1);
    out := Unpack(h1) + Unpack(h2);
  }
}
