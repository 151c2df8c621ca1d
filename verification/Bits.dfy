/** Machine words as natural numbers, and their bits.
    Every operator is defined by recursion on the binary digits, so that proofs about
    shifts by a variable amount need no non-linear arithmetic. */
module Bits {

  type byte = x: nat | x < 256

  function Pow2(n: nat): (r: nat)
    ensures r >= 1
  {
    if n == 0 then 1 else 2 * Pow2(n - 1)
  }

  /** Binary digit i of x. */
  predicate Bit(x: nat, i: nat) {
    if i == 0 then x % 2 == 1 else Bit(x / 2, i - 1)
  }

  function Abs(x: int): nat {
    if x < 0 then -x else x
  }

  /** Bytes that are read past the end are zeros. */
  function ByteAt(data: seq<byte>, i: nat): byte {
    if i < |data| then data[i] else 0
  }

  /** 64-bit addition. */
  function Add64(x: nat, y: nat): nat {
    (x + y) % 0x1_0000_0000_0000_0000
  }

  /** x << n, not truncated. */
  function Shl(x: nat, n: nat): nat {
    if n == 0 then x else 2 * Shl(x, n - 1)
  }

  /** x >> n. */
  function Shr(x: nat, n: nat): nat {
    if n == 0 then x else Shr(x / 2, n - 1)
  }

  /** x & ((1 << n) - 1). */
  function Low(x: nat, n: nat): nat {
    if n == 0 then 0 else x % 2 + 2 * Low(x / 2, n - 1)
  }

  /** x | y. */
  function Or(x: nat, y: nat): nat {
    if x == 0 then y
    else if y == 0 then x
    else (if x % 2 == 1 || y % 2 == 1 then 1 else 0) + 2 * Or(x / 2, y / 2)
  }

  /** x & y. */
  function And(x: nat, y: nat): nat {
    if x == 0 || y == 0 then 0
    else (if x % 2 == 1 && y % 2 == 1 then 1 else 0) + 2 * And(x / 2, y / 2)
  }

  /** The n low digits of x, least significant first. */
  function ToBits(x: nat, n: nat): (s: seq<bool>)
    ensures |s| == n
  {
    if n == 0 then [] else [x % 2 == 1] + ToBits(x / 2, n - 1)
  }

  /** The number whose digits, least significant first, are s. */
  function FromBits(s: seq<bool>): nat {
    if s == [] then 0 else (if s[0] then 1 else 0) + 2 * FromBits(s[1..])
  }

  function Rev<T>(s: seq<T>): (r: seq<T>)
    ensures |r| == |s|
    ensures forall i :: 0 <= i < |s| ==> r[i] == s[|s| - 1 - i]
  {
    seq(|s|, i requires 0 <= i < |s| => s[|s| - 1 - i])
  }

  /** Bytes as a bit string, least significant bit of each byte first. */
  function ByteBits(bs: seq<byte>): (s: seq<bool>)
    ensures |s| == 8 * |bs|
  {
    seq(8 * |bs|, k requires 0 <= k < 8 * |bs| => Bit(bs[k / 8], k % 8))
  }

  /** Digit p of a bit string that is continued by zeros for ever. */
  predicate BitAt(s: seq<bool>, p: nat) {
    p < |s| && s[p]
  }

  /** n digits of that continued string, from position p. */
  function Window(s: seq<bool>, p: nat, n: nat): (w: seq<bool>)
    ensures |w| == n
  {
    seq(n, i requires 0 <= i < n => BitAt(s, p + i))
  }

  // ----- arithmetic meaning of the operators

  lemma {:induction false} ShlIsMul(x: nat, n: nat)
    ensures Shl(x, n) == x * Pow2(n)
  {
    if n > 0 { ShlIsMul(x, n - 1); }
  }

  lemma {:induction false} DivModPow2(x: nat, n: nat)
    ensures x == Shl(Shr(x, n), n) + Low(x, n)
    ensures Low(x, n) < Pow2(n)
  {
    if n > 0 { DivModPow2(x / 2, n - 1); }
  }

  lemma LowBound(x: nat, n: nat)
    ensures Low(x, n) < Pow2(n)
  {
    DivModPow2(x, n);
  }

  lemma {:induction false} ShlAdd(x: nat, y: nat, n: nat)
    ensures Shl(x + y, n) == Shl(x, n) + Shl(y, n)
  {
    if n > 0 { ShlAdd(x, y, n - 1); }
  }

  lemma {:induction false} ShlZero(n: nat)
    ensures Shl(0, n) == 0
  {
    if n > 0 { ShlZero(n - 1); }
  }

  /** >> is division by a power of two, and masking is its remainder. */
  lemma ShrIsDiv(x: nat, n: nat)
    ensures Shr(x, n) == x / Pow2(n) && Low(x, n) == x % Pow2(n)
  {
    DivModPow2(x, n);
    ShlIsMul(Shr(x, n), n);
    DivModUnique(x, Pow2(n), Shr(x, n), Low(x, n));
  }

  lemma DivModUnique(x: nat, d: nat, q: nat, r: nat)
    requires r < d && x == q * d + r
    ensures q == x / d && r == x % d
  {
    var e := q - x / d;
    assert e * d == x % d - r;
    MulAtLeast(e, d);
    MulAtLeast(-e, d);
  }

  lemma MulAtLeast(e: int, d: nat)
    ensures e >= 1 ==> e * d >= d
    ensures -e >= 1 ==> (-e) * d >= d && e * d == -((-e) * d)
  {
    if e >= 1 { assert e * d == (e - 1) * d + d; }
  }

  lemma {:induction false} LowSmall(x: nat, n: nat)
    requires x < Pow2(n)
    ensures Low(x, n) == x && Shr(x, n) == 0
  {
    if n > 0 { LowSmall(x / 2, n - 1); }
  }

  lemma {:induction false} Pow2Add(m: nat, n: nat)
    ensures Pow2(m + n) == Pow2(m) * Pow2(n)
  {
    if m > 0 {
      Pow2Add(m - 1, n);
      assert Pow2(m + n) == 2 * Pow2(m - 1 + n);
    }
  }

  lemma Pow2Values()
    ensures Pow2(8) == 0x100 && Pow2(9) == 0x200 && Pow2(16) == 0x1_0000
  {
    assert Pow2(4) == 16;
    assert Pow2(8) == 0x100;
    assert Pow2(12) == 0x1000;
  }

  lemma {:induction false} Pow2Mono(m: nat, n: nat)
    requires m <= n
    ensures Pow2(m) <= Pow2(n)
  {
    if m < n { Pow2Mono(m, n - 1); }
  }

  // ----- digits

  lemma {:induction false} ToBitsAt(x: nat, n: nat, i: nat)
    requires i < n
    ensures ToBits(x, n)[i] == Bit(x, i)
  {
    if i > 0 { ToBitsAt(x / 2, n - 1, i - 1); }
  }

  lemma {:induction false} FromToBits(x: nat, n: nat)
    ensures FromBits(ToBits(x, n)) == Low(x, n)
  {
    if n > 0 {
      FromToBits(x / 2, n - 1);
      assert ToBits(x, n)[1..] == ToBits(x / 2, n - 1);
    }
  }

  lemma {:induction false} ToFromBits(s: seq<bool>)
    ensures FromBits(s) < Pow2(|s|)
    ensures ToBits(FromBits(s), |s|) == s
  {
    if s != [] {
      ToFromBits(s[1..]);
      assert s == [s[0]] + s[1..];
    }
  }

  /** Distinct words of the same width have distinct digits. */
  lemma ToBitsInjective(x: nat, y: nat, n: nat)
    requires x < Pow2(n) && y < Pow2(n)
    requires ToBits(x, n) == ToBits(y, n)
    ensures x == y
  {
    FromToBits(x, n); FromToBits(y, n);
    LowSmall(x, n); LowSmall(y, n);
  }

  lemma {:induction false} ToBitsSplit(x: nat, m: nat, n: nat)
    ensures ToBits(x, m + n) == ToBits(x, m) + ToBits(Shr(x, m), n)
  {
    if m > 0 { ToBitsSplit(x / 2, m - 1, n); }
  }

  lemma {:induction false} ToBitsLow(x: nat, n: nat)
    ensures ToBits(Low(x, n), n) == ToBits(x, n)
  {
    if n > 0 { ToBitsLow(x / 2, n - 1); }
  }

  lemma {:induction false} ShrBound(x: nat, m: nat, n: nat)
    requires x < Pow2(m + n)
    ensures Shr(x, m) < Pow2(n)
  {
    if m > 0 { ShrBound(x / 2, m - 1, n); }
  }

  lemma {:induction false} BitShr(x: nat, n: nat, i: nat)
    ensures Bit(Shr(x, n), i) == Bit(x, n + i)
  {
    if n > 0 { BitShr(x / 2, n - 1, i); }
  }

  lemma {:induction false} BitShl(x: nat, n: nat, i: nat)
    ensures Bit(Shl(x, n), i) == (i >= n && Bit(x, i - n))
  {
    if n > 0 {
      if i > 0 { BitShl(x, n - 1, i - 1); }
    }
  }

  lemma {:induction false} BitZero(i: nat)
    ensures !Bit(0, i)
  {
    if i > 0 { BitZero(i - 1); }
  }

  lemma {:induction false} BitOr(x: nat, y: nat, i: nat)
    ensures Bit(Or(x, y), i) == (Bit(x, i) || Bit(y, i))
  {
    BitZero(i);
    if x != 0 && y != 0 && i > 0 { BitOr(x / 2, y / 2, i - 1); }
  }

  lemma {:induction false} BitAnd(x: nat, y: nat, i: nat)
    ensures Bit(And(x, y), i) == (Bit(x, i) && Bit(y, i))
  {
    BitZero(i);
    if x != 0 && y != 0 && i > 0 { BitAnd(x / 2, y / 2, i - 1); }
  }

  lemma {:induction false} BitLow(x: nat, n: nat, i: nat)
    ensures Bit(Low(x, n), i) == (i < n && Bit(x, i))
  {
    if n == 0 { BitZero(i); } else if i > 0 { BitLow(x / 2, n - 1, i - 1); }
  }

  /** A word below 2^n has no digit at or above n. */
  lemma {:induction false} BitHigh(x: nat, n: nat, i: nat)
    requires x < Pow2(n) && n <= i
    ensures !Bit(x, i)
  {
    if n == 0 { BitZero(i); } else { BitHigh(x / 2, n - 1, i - 1); }
  }

  /** Masking takes the lowest bits. */
  lemma {:induction false} AndMask(x: nat, n: nat)
    ensures And(x, Pow2(n) - 1) == Low(x, n)
  {
    if n > 0 {
      AndMask(x / 2, n - 1);
      assert (Pow2(n) - 1) / 2 == Pow2(n - 1) - 1;
      if x == 0 { LowSmall(0, n); }
    }
  }

  lemma {:induction false} OrBound(x: nat, y: nat, n: nat)
    requires x < Pow2(n) && y < Pow2(n)
    ensures Or(x, y) < Pow2(n)
  {
    if x != 0 && y != 0 && n > 0 { OrBound(x / 2, y / 2, n - 1); }
  }

  lemma {:induction false} ShlBound(x: nat, n: nat, m: nat)
    requires x < Pow2(n)
    ensures Shl(x, m) < Pow2(m + n)
  {
    if m > 0 {
      ShlBound(x, n, m - 1);
      assert Pow2(m + n) == 2 * Pow2(m - 1 + n);
    }
  }

  lemma {:induction false} OrIsAdd(x: nat, k: nat, v: nat)
    requires x < Pow2(k)
    ensures Or(x, Shl(v, k)) == x + Shl(v, k) == Or(Shl(v, k), x)
  {
    if k > 0 {
      OrIsAdd(x / 2, k - 1, v);
      assert Shl(v, k) / 2 == Shl(v, k - 1);
    }
  }

  lemma {:induction false} ShrMono(a: nat, k: nat, b: nat, n: nat)
    requires Shl(a, n) <= k < Shl(b, n)
    ensures a <= Shr(k, n) < b
  {
    if n > 0 { ShrMono(a, k / 2, b, n - 1); }
  }

  lemma {:induction false} ShrBounds(k: nat, n: nat)
    ensures Shl(Shr(k, n), n) <= k < Shl(Shr(k, n) + 1, n)
  {
    if n > 0 { ShrBounds(k / 2, n - 1); }
  }

  lemma {:induction false} ShlMono(a: nat, b: nat, n: nat)
    requires a <= b
    ensures Shl(a, n) <= Shl(b, n)
  {
    if n > 0 { ShlMono(a, b, n - 1); }
  }

  lemma {:induction false} ShlDouble(a: nat, n: nat)
    ensures Shl(2 * a, n) == Shl(a, n + 1)
  {
    if n > 0 { ShlDouble(a, n - 1); }
  }

  lemma {:induction false} LowAdd(x: nat, n: nat)
    ensures Low(x + Pow2(n), n) == Low(x, n)
  {
    if n > 0 {
      LowAdd(x / 2, n - 1);
      assert (x + Pow2(n)) / 2 == x / 2 + Pow2(n - 1);
    }
  }

  /** Two numbers closer than 2^n differ in their n low digits. */
  lemma {:induction false} LowGap(x: nat, y: nat, n: nat)
    requires x < y < x + Pow2(n)
    ensures Low(x, n) != Low(y, n)
  {
    if n > 0 && x % 2 == y % 2 { LowGap(x / 2, y / 2, n - 1); }
  }

  /** Appending v above the k digits in use is string concatenation: the step every bit writer
      and every refill takes. */
  lemma {:induction false} AppendBits(x: nat, k: nat, v: nat, n: nat)
    requires x < Pow2(k) && v < Pow2(n)
    ensures Or(x, Shl(v, k)) < Pow2(k + n)
    ensures ToBits(Or(x, Shl(v, k)), k + n) == ToBits(x, k) + ToBits(v, n)
  {
    hide ToBits, Or, Shl, Pow2, Bit;
    ShlBound(v, n, k);
    Pow2Mono(k, k + n);
    OrBound(x, Shl(v, k), k + n);
    var z := Or(x, Shl(v, k));
    forall i | 0 <= i < k + n
      ensures ToBits(z, k + n)[i] == (ToBits(x, k) + ToBits(v, n))[i]
    {
      ToBitsAt(z, k + n, i);
      BitOr(x, Shl(v, k), i);
      BitShl(v, k, i);
      if i < k { ToBitsAt(x, k, i); } else { ToBitsAt(v, n, i - k); BitHigh(x, k, i); }
    }
  }

  // ----- strings of digits

  lemma WindowSplit(s: seq<bool>, p: nat, m: nat, n: nat)
    ensures Window(s, p, m + n) == Window(s, p, m) + Window(s, p + m, n)
  {
  }

  lemma WindowPrefix(s: seq<bool>, p: nat, m: nat, n: nat)
    requires m <= n
    ensures Window(s, p, n)[..m] == Window(s, p, m)
  {
  }

  lemma WindowInside(s: seq<bool>, p: nat, n: nat)
    requires p + n <= |s|
    ensures Window(s, p, n) == s[p..p + n]
  {
    forall i | 0 <= i < n ensures Window(s, p, n)[i] == s[p..p + n][i] {
      assert Window(s, p, n)[i] == BitAt(s, p + i);
    }
  }

  lemma ByteBitsAppend(a: seq<byte>, b: seq<byte>)
    ensures ByteBits(a + b) == ByteBits(a) + ByteBits(b)
  {
    forall k | 0 <= k < 8 * (|a| + |b|)
      ensures ByteBits(a + b)[k] == (ByteBits(a) + ByteBits(b))[k]
    {
      if k >= 8 * |a| {
        assert (k - 8 * |a|) / 8 == k / 8 - |a| && (k - 8 * |a|) % 8 == k % 8;
      }
    }
  }

  lemma ByteBitsOne(b: byte)
    ensures ByteBits([b]) == ToBits(b, 8)
  {
    forall k | 0 <= k < 8 ensures ByteBits([b])[k] == ToBits(b, 8)[k] {
      ToBitsAt(b, 8, k);
    }
  }

  /** The next byte of a byte-aligned string. */
  lemma WindowByte(bs: seq<byte>, i: nat)
    ensures Window(ByteBits(bs), 8 * i, 8) == ToBits(if i < |bs| then bs[i] else 0, 8)
  {
    var v := if i < |bs| then bs[i] else 0;
    forall k | 0 <= k < 8 ensures Window(ByteBits(bs), 8 * i, 8)[k] == ToBits(v, 8)[k] {
      ToBitsAt(v, 8, k);
      BitZero(k);
      assert (8 * i + k) / 8 == i && (8 * i + k) % 8 == k;
      assert Window(ByteBits(bs), 8 * i, 8)[k] == BitAt(ByteBits(bs), 8 * i + k);
    }
  }
}
