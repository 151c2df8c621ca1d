/** The fixed Huffman codes, section 3.2.6 of RFC 1951. */
module FixedCodes {
  import opened Bits
  import opened Canonical
  import opened ZHuffman

  function FixedLength(i: nat): nat {
    if i <= 143 then 8 else if i <= 255 then 9 else if i <= 279 then 7 else 8
  }

  function FixedLens(): (lens: seq<nat>)
    ensures |lens| == 288
    ensures forall i :: 0 <= i < 288 ==> lens[i] == FixedLength(i)
  {
    seq(288, i requires 0 <= i < 288 => FixedLength(i))
  }

  function FixedDists(): (lens: seq<nat>)
    ensures |lens| == 32
    ensures forall i :: 0 <= i < 32 ==> lens[i] == 5
  {
    seq(32, _ => 5)
  }

  /** The code of literal or length symbol n, as the compressor computes it. */
  function FixedCode(n: nat): nat
    requires n < 288
  {
    if n <= 143 then 0x30 + n
    else if n <= 255 then 0x190 + n - 144
    else if n <= 279 then n - 256
    else 0xC0 + n - 280
  }

  function Clamp(x: int, hi: nat): nat {
    if x < 0 then 0 else if x > hi then hi else x
  }

  /** How many of the first n symbols have codes of length l. */
  function FixedCount(n: nat, l: nat): nat {
    if l == 7 then Clamp(n - 256, 24)
    else if l == 8 then Clamp(n, 144) + Clamp(n - 280, 8)
    else if l == 9 then Clamp(n - 144, 112)
    else 0
  }

  lemma {:induction false} CountFixed(n: nat, l: nat)
    requires n <= 288
    ensures Count(FixedLens()[..n], l) == FixedCount(n, l)
  {
    if n > 0 {
      CountFixed(n - 1, l);
      CountStep(FixedLens(), n - 1, l);
    }
  }

  lemma {:induction false} CountDists(n: nat, l: nat)
    requires n <= 32
    ensures Count(FixedDists()[..n], l) == if l == 5 then n else 0
  {
    if n > 0 {
      CountDists(n - 1, l);
      CountStep(FixedDists(), n - 1, l);
    }
  }

  /** Up to the first length in use nothing is covered and the codes start at zero. */
  lemma {:induction false} NothingBefore(lens: seq<nat>, l: nat)
    requires 1 <= l <= 16 && forall k :: 1 <= k < l ==> Count(lens, k) == 0
    ensures First(lens, l) == 0 && Covered(lens, l - 1) == 0
  {
    if l > 1 {
      NothingBefore(lens, l - 1);
      assert Count(lens, l - 1) == 0;
      ShlZero(16 - (l - 1));
    }
  }

  /** And after the last one nothing more is covered. */
  lemma {:induction false} NothingAfter(lens: seq<nat>, l: nat, m: nat)
    requires l <= m <= 16 && forall k :: l < k <= m ==> Count(lens, k) == 0
    ensures Covered(lens, m) == Covered(lens, l)
  {
    if l < m {
      NothingAfter(lens, l, m - 1);
      assert Count(lens, m) == 0;
      ShlZero(16 - m);
    }
  }

  lemma FixedCounts()
    ensures forall l: nat {:trigger Count(FixedLens(), l)} :: Count(FixedLens(), l) == FixedCount(288, l)
    ensures forall l: nat {:trigger Count(FixedDists(), l)} :: Count(FixedDists(), l) == if l == 5 then 32 else 0
  {
    assert FixedLens()[..288] == FixedLens() && FixedDists()[..32] == FixedDists();
    forall l: nat ensures Count(FixedLens(), l) == FixedCount(288, l) { CountFixed(288, l); }
    forall l: nat ensures Count(FixedDists(), l) == if l == 5 then 32 else 0 { CountDists(32, l); }
  }

  lemma FixedFirst()
    ensures First(FixedLens(), 7) == 0 && First(FixedLens(), 8) == 0x30 && First(FixedLens(), 9) == 0x190
    ensures First(FixedDists(), 5) == 0
  {
    FixedCounts();
    var L := FixedLens();
    NothingBefore(L, 7);
    NothingBefore(FixedDists(), 5);
    assert Count(L, 7) == 24 && Count(L, 8) == 152;
    assert First(L, 8) == 2 * (First(L, 7) + Count(L, 7));
    assert First(L, 9) == 2 * (First(L, 8) + Count(L, 8));
  }

  /** Both fixed codes are complete. */
  lemma FixedKraft()
    ensures Kraft(FixedLens()) && Kraft(FixedDists())
    ensures ZLengths(FixedLens()) && ZLengths(FixedDists())
  {
    hide FixedLens, FixedDists, Count, Covered;
    FixedCounts();
    var L, D := FixedLens(), FixedDists();
    NothingBefore(L, 7);
    NothingAfter(L, 9, 16);
    Covered789(L);
    NothingBefore(D, 5);
    NothingAfter(D, 5, 16);
    Covered5(D);
  }

  lemma Covered789(L: seq<nat>)
    requires Covered(L, 6) == 0 && Count(L, 7) == 24 && Count(L, 8) == 152 && Count(L, 9) == 112
    ensures Covered(L, 9) == 0x1_0000
  {
    hide Count, Shl;
    ShlValue(24, 9); ShlValue(152, 8); ShlValue(112, 7);
    assert Covered(L, 7) == Covered(L, 6) + Shl(24, 9);
    assert Covered(L, 8) == Covered(L, 7) + Shl(152, 8);
    assert Covered(L, 9) == Covered(L, 8) + Shl(112, 7);
  }

  lemma Covered5(D: seq<nat>)
    requires Covered(D, 4) == 0 && Count(D, 5) == 32
    ensures Covered(D, 5) == 0x1_0000
  {
    hide Count, Shl;
    ShlValue(32, 11);
    assert Covered(D, 5) == Covered(D, 4) + Shl(32, 11);
  }

  lemma ShlValue(x: nat, n: nat)
    requires n == 7 || n == 8 || n == 9 || n == 11
    ensures Shl(x, n) == x * (if n == 7 then 128 else if n == 8 then 256 else if n == 9 then 512 else 2048)
  {
    Pow2Values();
    assert Pow2(7) == 128 && Pow2(11) == 2048;
    ShlIsMul(x, n);
  }

  /** The compressor's formulas are the canonical codes. */
  lemma FixedCodeIsCanonical(n: nat)
    requires n < 288
    ensures Code(FixedLens(), n) == FixedCode(n) < Pow2(FixedLength(n))
  {
    hide FixedLens, Count, First;
    FixedFirst();
    CountFixed(n, FixedLength(n));
    Pow2Values();
    assert Pow2(7) == 128;
  }

  lemma DistCodeIsCanonical(n: nat)
    requires n < 32
    ensures Code(FixedDists(), n) == n < Pow2(5)
  {
    hide FixedDists, Count, First;
    FixedFirst();
    CountDists(n, 5);
    assert Pow2(5) == 32;
  }
}
