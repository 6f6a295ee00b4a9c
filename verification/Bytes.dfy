/** Byte strings and the order LevelDB keeps them in. */
module Bytes {
  type Byte = bv8
  type Bytes = seq<Byte>

  datatype Option<+T> = None | Some(value: T)

  ghost predicate Distinct<T>(s: seq<T>) { forall i, j | 0 <= i < j < |s| :: s[i] != s[j] }

  /** `memcmp(a, b, n) <= 0` for strings of the same length, bytes taken as unsigned. */
  predicate LexLe(a: Bytes, b: Bytes)
    requires |a| == |b|
  {
    |a| == 0 || a[0] < b[0] || (a[0] == b[0] && LexLe(a[1..], b[1..]))
  }

  lemma {:induction false} LexReflexive(a: Bytes)
    ensures LexLe(a, a)
  {
    if a != [] { LexReflexive(a[1..]); }
  }

  lemma {:induction false} LexTransitive(a: Bytes, b: Bytes, c: Bytes)
    requires |a| == |b| == |c|
    requires LexLe(a, b) && LexLe(b, c)
    ensures LexLe(a, c)
  {
    if a != [] && a[0] == b[0] == c[0] { LexTransitive(a[1..], b[1..], c[1..]); }
  }

  lemma {:induction false} LexTotal(a: Bytes, b: Bytes)
    requires |a| == |b|
    ensures LexLe(a, b) || LexLe(b, a)
    ensures LexLe(a, b) && LexLe(b, a) ==> a == b
  {
    if a != [] {
      LexTotal(a[1..], b[1..]);
      assert a == [a[0]] + a[1..] && b == [b[0]] + b[1..];
    }
  }

  function Fill(b: Byte, n: nat): (r: Bytes)
    ensures |r| == n && forall i | 0 <= i < n :: r[i] == b
  {
    seq(n, i => b)
  }

  lemma {:induction false} LexExtremes(k: Bytes)
    ensures LexLe(Fill(0, |k|), k) && LexLe(k, Fill(0xff, |k|))
  {
    if k != [] {
      LexExtremes(k[1..]);
      assert Fill(0, |k|)[1..] == Fill(0, |k| - 1);
      assert Fill(0xff, |k|)[1..] == Fill(0xff, |k| - 1);
    }
  }

  /** The closed range from `p` padded with zeros to `p` padded with 0xFF holds exactly
      the strings that start with `p`. */
  lemma {:induction false} PrefixRange(p: Bytes, k: Bytes)
    requires |p| <= |k|
    ensures LexLe(p + Fill(0, |k| - |p|), k) && LexLe(k, p + Fill(0xff, |k| - |p|)) <==> k[..|p|] == p
  {
    var lo, hi := p + Fill(0, |k| - |p|), p + Fill(0xff, |k| - |p|);
    if p == [] {
      LexExtremes(k);
      assert lo == Fill(0, |k|) && hi == Fill(0xff, |k|);
    } else {
      PrefixRange(p[1..], k[1..]);
      assert lo[1..] == p[1..] + Fill(0, |k| - |p|);
      assert hi[1..] == p[1..] + Fill(0xff, |k| - |p|);
      assert k[..|p|] == [k[0]] + k[1..][..|p| - 1];
      assert p == [p[0]] + p[1..];
    }
  }

  /** KeyComparator::Compare: the sign of memcmp. */
  method Compare(a: Bytes, b: Bytes) returns (c: int)
    requires |a| == |b|
    ensures c <= 0 <==> LexLe(a, b)
    ensures c >= 0 <==> LexLe(b, a)
    ensures c == 0 <==> a == b
  {
    for i := 0 to |a|
      invariant a[..i] == b[..i]
      invariant LexLe(a, b) == LexLe(a[i..], b[i..])
      invariant LexLe(b, a) == LexLe(b[i..], a[i..])
    {
      assert a[i..][1..] == a[i + 1..] && b[i..][1..] == b[i + 1..];
      if a[i] < b[i] { return -1; }
      if b[i] < a[i] { return 1; }
    }
    return 0;
  }

  // ---- Numbers below 256 as bytes ----

  function Bits(a: nat, b: nat, c: nat, d: nat, e: nat, f: nat, g: nat, h: nat): (r: Byte) {
    (if a == 1 then 128 else 0) | (if b == 1 then 64 else 0) | (if c == 1 then 32 else 0) | (if d == 1 then 16 else 0) |
    (if e == 1 then 8 else 0) | (if f == 1 then 4 else 0) | (if g == 1 then 2 else 0) | (if h == 1 then 1 else 0)
  }

  function Half(n: nat, i: nat): nat { if i == 0 then n else Half(n, i - 1) / 2 }

  function Digit(n: nat, i: nat): nat { Half(n, i) % 2 }

  /** The byte whose bits are the binary digits of `n`. */
  function ToByte(n: nat): Byte
    requires n < 256
  {
    Bits(Digit(n, 7), Digit(n, 6), Digit(n, 5), Digit(n, 4), Digit(n, 3), Digit(n, 2), Digit(n, 1), Digit(n, 0))
  }

  function Weight(b: Byte, bit: Byte, w: nat): (r: nat) { if b & bit != 0 then w else 0 }

  /** The unsigned value of a byte. */
  function FromByte(b: Byte): (n: nat)
    ensures n < 256
  {
    Weight(b, 128, 128) + Weight(b, 64, 64) + Weight(b, 32, 32) + Weight(b, 16, 16) +
    Weight(b, 8, 8) + Weight(b, 4, 4) + Weight(b, 2, 2) + Weight(b, 1, 1)
  }

  lemma BitsTest(a: nat, b: nat, c: nat, d: nat, e: nat, f: nat, g: nat, h: nat)
    ensures var x := Bits(a, b, c, d, e, f, g, h);
            && (x & 128 != 0 <==> a == 1) && (x & 64 != 0 <==> b == 1) && (x & 32 != 0 <==> c == 1)
            && (x & 16 != 0 <==> d == 1) && (x & 8 != 0 <==> e == 1) && (x & 4 != 0 <==> f == 1)
            && (x & 2 != 0 <==> g == 1) && (x & 1 != 0 <==> h == 1)
  {
  }

  lemma WeightsOf(a: nat, b: nat, c: nat, d: nat, e: nat, f: nat, g: nat, h: nat)
    requires a < 2 && b < 2 && c < 2 && d < 2 && e < 2 && f < 2 && g < 2 && h < 2
    ensures var x := Bits(a, b, c, d, e, f, g, h);
            && Weight(x, 128, 128) == 128 * a && Weight(x, 64, 64) == 64 * b && Weight(x, 32, 32) == 32 * c
            && Weight(x, 16, 16) == 16 * d && Weight(x, 8, 8) == 8 * e && Weight(x, 4, 4) == 4 * f
            && Weight(x, 2, 2) == 2 * g && Weight(x, 1, 1) == h
  {
    hide Bits;
    BitsTest(a, b, c, d, e, f, g, h);
  }

  lemma BitsWeigh(a: nat, b: nat, c: nat, d: nat, e: nat, f: nat, g: nat, h: nat)
    requires a < 2 && b < 2 && c < 2 && d < 2 && e < 2 && f < 2 && g < 2 && h < 2
    ensures FromByte(Bits(a, b, c, d, e, f, g, h)) == 128 * a + 64 * b + 32 * c + 16 * d + 8 * e + 4 * f + 2 * g + h
  {
    hide Bits, Weight;
    WeightsOf(a, b, c, d, e, f, g, h);
  }

  lemma Halve(n: nat, i: nat)
    ensures Half(n, i) == 2 * Half(n, i + 1) + Digit(n, i)
  {
  }

  lemma ByteRoundTrip(n: nat)
    requires n < 256
    ensures FromByte(ToByte(n)) == n
  {
    hide Bits, FromByte;
    BitsWeigh(Digit(n, 7), Digit(n, 6), Digit(n, 5), Digit(n, 4), Digit(n, 3), Digit(n, 2), Digit(n, 1), Digit(n, 0));
    assert Half(n, 0) == n;
    hide Digit, Half;
    Halve(n, 0); Halve(n, 1); Halve(n, 2); Halve(n, 3); Halve(n, 4); Halve(n, 5); Halve(n, 6); Halve(n, 7);
  }

  lemma ToByteInjective(m: nat, n: nat)
    requires m < 256 && n < 256 && ToByte(m) == ToByte(n)
    ensures m == n
  {
    hide ToByte, FromByte;
    ByteRoundTrip(m);
    ByteRoundTrip(n);
  }
}
