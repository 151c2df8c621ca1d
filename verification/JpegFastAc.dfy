/** The table that decodes a short code and its magnitude bits in one step. */
module JpegFastAc {
  import opened Bits
  import opened MsbFirst
  import opened JpegHuffman
  import opened JpegLookup

  /** Cutting the field b out of a word. */
  lemma CutField(a: seq<bool>, b: seq<bool>, c: seq<bool>)
    ensures Shr(Low(Shl(Value(a + b + c), |a|), |a| + |b| + |c|), |c| + |a|) == Value(b)
  {
    hide Value, Shl, Shr, Low, Zeros;
    var z := Zeros(|a|);
    Regroup(a, b, c);
    ShiftOut(a, b + c);
    Regroup(b, c, z);
    ValueSplit(b, c + z);
  }

  /** The magnitude bits of the window u behind a code of n bits, and what they stand for. */
  lemma MagnitudeOf(u: nat, n: nat, size: nat)
    requires u < FAST_SIZE && 1 <= size && n + size <= FAST_BITS
    ensures var k := Shr(Low(Shl(u, n), FAST_BITS), FAST_BITS - size);
      Extend(BitsOf(u, FAST_BITS)[n..n + size]) == if k < Pow2(size - 1) then k - Pow2(size) + 1 else k
  {
    hide Value, Shl, Shr, Low, Zeros, BitsOf, Pow2;
    var w := BitsOf(u, FAST_BITS);
    var a, b, c := w[..n], w[n..n + size], w[n + size..];
    assert w == a + b + c;
    CutField(a, b, c);
    FastWidth();
    ValueOfBits(u, FAST_BITS);
    TopBit(b);
  }

  lemma FastWidth()
    ensures Pow2(FAST_BITS) == FAST_SIZE
  {
    Pow2Values();
  }

  /** Only one short code starts a window. */
  lemma FastUnique(lens: seq<nat>, i: nat, j: nat, u: nat)
    requires Canonical.Fits(lens) && Sorted(lens) && u < FAST_SIZE && FastMatch(lens, i, u) && FastMatch(lens, j, u)
    ensures i == j
  {
    hide Value, Shr, Pow2, Canonical.Fits, Canonical.Code, Canonical.CodeBits;
    var a, z := BitsOf(u, FAST_BITS), Zeros(7);
    FastWidth();
    ValueOfBits(u, FAST_BITS);
    ValueSplit(a, z);
    FastIsMatch(lens, i, a + z);
    FastIsMatch(lens, j, a + z);
    Canonical.MatchUnique(lens, i, j, a + z);
  }

  /** Writes the table. */
  method BuildFastAc(h: Huffman, ghost lens: seq<nat>) returns (fac: seq<int>)
    requires h.Built(lens)
    ensures |fac| == FAST_SIZE
    ensures forall u :: 0 <= u < FAST_SIZE ==> AcEntry(lens, h.values, u, fac[u])
  {
    hide AcEntry, Canonical.Fits, Sorted, FastSoFar;
    fac := [];
    var i := 0;
    while i < FAST_SIZE
      invariant 0 <= i <= FAST_SIZE && |fac| == i
      invariant forall u :: 0 <= u < i ==> AcEntry(lens, h.values, u, fac[u])
    {
      var r := FastAcEntry(h, lens, i);
      fac := fac + [r];
      i := i + 1;
    }
  }

  method FastAcEntry(h: Huffman, ghost lens: seq<nat>, i: nat) returns (r: int)
    requires h.Built(lens) && i < FAST_SIZE
    ensures AcEntry(lens, h.values, i, r)
  {
    hide Shl, Shr, Low, Pow2, Canonical.Fits, Sorted, Canonical.Code, FastMatch, AcEntry, Packed;
    var fast := h.fast[i];
    r := 0;
    assert FastSoFar(lens, |lens|, i, fast);
    if fast < 255 {
      var rs := h.values[fast];
      var run, magbits := rs / 16, rs % 16;
      assert h.size[..|lens|][fast] == h.size[fast];
      var len := h.size[fast];
      MatchLength(lens, fast, i);
      if magbits > 0 && len + magbits <= FAST_BITS {
        var k: int := Shr(Low(Shl(i, len), FAST_BITS), FAST_BITS - magbits);
        if k < Pow2(magbits - 1) { k := k - Pow2(magbits) + 1; }
        PackedIs(i, len, rs);
        if -128 <= k <= 127 {
          r := k * 256 + run * 16 + len + magbits;
        }
      }
    }
    EntryIs(lens, h.values, i, fast, r);
  }

  lemma MatchLength(lens: seq<nat>, i: nat, u: nat)
    requires FastMatch(lens, i, u)
    ensures i < |lens| && 1 <= lens[i] <= FAST_BITS
  {
  }

  lemma PackedIs(u: nat, len: nat, rs: byte)
    requires u < FAST_SIZE && len >= 1 && FitsNine(len, rs)
    ensures var k := Shr(Low(Shl(u, len), FAST_BITS), FAST_BITS - rs % 16);
      var v := if k < Pow2(rs % 16 - 1) then k - Pow2(rs % 16) + 1 else k;
      Packed(len, rs, u) == v * 256 + rs / 16 * 16 + len + rs % 16
  {
    hide Shl, Shr, Low, Pow2, Extend, BitsOf;
    MagnitudeOf(u, len, rs % 16);
  }

  /** What the entry says follows from the one code that starts the window. */
  lemma EntryIs(lens: seq<nat>, values: seq<byte>, u: nat, fast: byte, r: int)
    requires |values| == 256 && Canonical.Fits(lens) && Sorted(lens) && u < FAST_SIZE
    requires FastSoFar(lens, |lens|, u, fast)
    requires r != 0 ==> fast < 255 && SmallCoefficient(lens, values, fast, u, r)
    requires r == 0 && fast < 255 && FitsNine(lens[fast], values[fast]) ==> !(-0x8000 <= Packed(lens[fast], values[fast], u) < 0x8000)
    ensures AcEntry(lens, values, u, r)
  {
    hide Canonical.Fits, Sorted, FastMatch, Packed, FitsNine;
    forall i: nat, s: int | i < 255 && SmallCoefficient(lens, values, i, u, s) && r == 0
      ensures !(-0x8000 <= s < 0x8000)
    {
      MatchLength(lens, i, u);
      if FastMatch(lens, fast, u) { FastUnique(lens, fast, i, u); }
    }
  }
}
