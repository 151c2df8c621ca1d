/** The 16-bit reversal by swapping ever larger groups of bits. */
module BitReverse {
  import opened Bits

  /** ((n & hi) >> d) | ((n & lo) << d). */
  function Swap(n: nat, hi: nat, lo: nat, d: nat): nat {
    Or(Shr(And(n, hi), d), Shl(And(n, lo), d))
  }

  function BitReverse16(n: nat): nat {
    var n1 := Swap(n, 0xAAAA, 0x5555, 1);
    var n2 := Swap(n1, 0xCCCC, 0x3333, 2);
    var n3 := Swap(n2, 0xF0F0, 0x0F0F, 4);
    Swap(n3, 0xFF00, 0x00FF, 8)
  }

  /** Reverses 16 bits and shifts away all but the wanted ones. */
  function BitReverseN(v: nat, bits: nat): nat
    requires bits <= 16
  {
    Shr(BitReverse16(v), 16 - bits)
  }

  /** Whether position k lies in the upper half of its group of 2d positions. */
  predicate Upper(k: nat, d: nat) {
    if d == 1 then k % 2 >= 1
    else if d == 2 then k % 4 >= 2
    else if d == 4 then k % 8 >= 4
    else k % 16 >= 8
  }

  /** hi selects the upper, lo the lower half of every group of 2d bits. */
  ghost predicate Halves(hi: nat, lo: nat, d: nat) {
    forall j: nat ::
      && Bit(hi, j) == (j < 16 && Upper(j, d))
      && Bit(lo, j) == (j < 16 && !Upper(j, d))
  }

  /** The digits of the masks, byte by byte. */
  lemma MaskByte1(j: nat)
    requires j < 8
    ensures Bit(0xAA, j) == Upper(j, 1) && Bit(0x55, j) == !Upper(j, 1)
  {
    if j == 0 { assert !Bit(0xAA, 0) && Bit(0x55, 0); }
    else if j == 1 { assert Bit(0xAA, 1) && !Bit(0x55, 1); }
    else if j == 2 { assert !Bit(0xAA, 2) && Bit(0x55, 2); }
    else if j == 3 { assert Bit(0xAA, 3) && !Bit(0x55, 3); }
    else if j == 4 { assert !Bit(0xAA, 4) && Bit(0x55, 4); }
    else if j == 5 { assert Bit(0xAA, 5) && !Bit(0x55, 5); }
    else if j == 6 { assert !Bit(0xAA, 6) && Bit(0x55, 6); }
    else { assert Bit(0xAA, 7) && !Bit(0x55, 7); }
  }

  lemma MaskByte2(j: nat)
    requires j < 8
    ensures Bit(0xCC, j) == Upper(j, 2) && Bit(0x33, j) == !Upper(j, 2)
  {
    if j == 0 { assert !Bit(0xCC, 0) && Bit(0x33, 0); }
    else if j == 1 { assert !Bit(0xCC, 1) && Bit(0x33, 1); }
    else if j == 2 { assert Bit(0xCC, 2) && !Bit(0x33, 2); }
    else if j == 3 { assert Bit(0xCC, 3) && !Bit(0x33, 3); }
    else if j == 4 { assert !Bit(0xCC, 4) && Bit(0x33, 4); }
    else if j == 5 { assert !Bit(0xCC, 5) && Bit(0x33, 5); }
    else if j == 6 { assert Bit(0xCC, 6) && !Bit(0x33, 6); }
    else { assert Bit(0xCC, 7) && !Bit(0x33, 7); }
  }

  lemma MaskByte48(j: nat)
    requires j < 8
    ensures Bit(0xF0, j) == Upper(j, 4) && Bit(0x0F, j) == !Upper(j, 4)
    ensures Bit(0xFF, j)
  {
    if j == 0 { assert !Bit(0xF0, 0) && Bit(0x0F, 0) && Bit(0xFF, 0); }
    else if j == 1 { assert !Bit(0xF0, 1) && Bit(0x0F, 1) && Bit(0xFF, 1); }
    else if j == 2 { assert !Bit(0xF0, 2) && Bit(0x0F, 2) && Bit(0xFF, 2); }
    else if j == 3 { assert !Bit(0xF0, 3) && Bit(0x0F, 3) && Bit(0xFF, 3); }
    else if j == 4 { assert Bit(0xF0, 4) && !Bit(0x0F, 4) && Bit(0xFF, 4); }
    else if j == 5 { assert Bit(0xF0, 5) && !Bit(0x0F, 5) && Bit(0xFF, 5); }
    else if j == 6 { assert Bit(0xF0, 6) && !Bit(0x0F, 6) && Bit(0xFF, 6); }
    else { assert Bit(0xF0, 7) && !Bit(0x0F, 7) && Bit(0xFF, 7); }
  }

  /** A 16-bit word is its two bytes. */
  lemma BitOfBytes(h: nat, l: nat, j: nat)
    requires h < 256 && l < 256
    ensures Bit(256 * h + l, j) == if j < 8 then Bit(l, j) else Bit(h, j - 8)
  {
    assert Pow2(8) == 256;
    ShlIsMul(h, 8);
    OrIsAdd(l, 8, h);
    BitOr(l, Shl(h, 8), j);
    BitShl(h, 8, j);
    if j >= 8 { BitHigh(l, 8, j); }
  }

  lemma HalvesOf(hh: nat, hl: nat, lh: nat, ll: nat, d: nat)
    requires hh < 256 && hl < 256 && lh < 256 && ll < 256
    requires forall j: nat :: j < 8 ==> Bit(hl, j) == Upper(j, d) && Bit(hh, j) == Upper(j + 8, d)
    requires forall j: nat :: j < 8 ==> Bit(ll, j) == !Upper(j, d) && Bit(lh, j) == !Upper(j + 8, d)
    ensures Halves(256 * hh + hl, 256 * lh + ll, d)
  {
    assert Pow2(8) == 256;
    var hi, lo := 256 * hh + hl, 256 * lh + ll;
    forall j: nat
      ensures Bit(hi, j) == (j < 16 && Upper(j, d)) && Bit(lo, j) == (j < 16 && !Upper(j, d))
    {
      BitOfBytes(hh, hl, j);
      BitOfBytes(lh, ll, j);
      if j < 8 { assert Bit(hl, j) == Upper(j, d) && Bit(ll, j) == !Upper(j, d); }
      else if j < 16 { assert Bit(hh, j - 8) == Upper(j - 8 + 8, d) && Bit(lh, j - 8) == !Upper(j - 8 + 8, d); }
      else { BitHigh(hh, 8, j - 8); BitHigh(lh, 8, j - 8); }
    }
  }

  lemma UpperPeriod(j: nat)
    requires j < 8
    ensures Upper(j + 8, 1) == Upper(j, 1) && Upper(j + 8, 2) == Upper(j, 2) && Upper(j + 8, 4) == Upper(j, 4)
    ensures Upper(j + 8, 8) && !Upper(j, 8)
  {
    assert (j + 8) % 2 == j % 2 && (j + 8) % 4 == j % 4 && (j + 8) % 8 == j;
  }

  lemma Mask1()
    ensures Halves(0xAAAA, 0x5555, 1)
  {
    forall j: nat | j < 8
      ensures Bit(0xAA, j) == Upper(j, 1) == Upper(j + 8, 1) && Bit(0x55, j) == !Upper(j, 1)
    { MaskByte1(j); UpperPeriod(j); }
    HalvesOf(0xAA, 0xAA, 0x55, 0x55, 1);
  }

  lemma Mask2()
    ensures Halves(0xCCCC, 0x3333, 2)
  {
    forall j: nat | j < 8
      ensures Bit(0xCC, j) == Upper(j, 2) == Upper(j + 8, 2) && Bit(0x33, j) == !Upper(j, 2)
    { MaskByte2(j); UpperPeriod(j); }
    HalvesOf(0xCC, 0xCC, 0x33, 0x33, 2);
  }

  lemma Mask4()
    ensures Halves(0xF0F0, 0x0F0F, 4)
  {
    forall j: nat | j < 8
      ensures Bit(0xF0, j) == Upper(j, 4) == Upper(j + 8, 4) && Bit(0x0F, j) == !Upper(j, 4)
    { MaskByte48(j); UpperPeriod(j); }
    HalvesOf(0xF0, 0xF0, 0x0F, 0x0F, 4);
  }

  lemma Mask8()
    ensures Halves(0xFF00, 0x00FF, 8)
  {
    forall j: nat | j < 8
      ensures Bit(0xFF, j) && !Bit(0x00, j) && Upper(j + 8, 8) == !Upper(j, 8) == true
    { MaskByte48(j); UpperPeriod(j); BitZero(j); }
    HalvesOf(0xFF, 0x00, 0x00, 0xFF, 8);
  }

  /** The digit that trades places with digit k when groups of d are swapped. */
  function Partner(k: nat, d: nat): nat
    requires d == 1 || d == 2 || d == 4 || d == 8
  {
    if Upper(k, d) then k - d else k + d
  }

  lemma SwapBit(n: nat, hi: nat, lo: nat, d: nat, k: nat)
    requires (d == 1 || d == 2 || d == 4 || d == 8) && Halves(hi, lo, d)
    ensures Bit(Swap(n, hi, lo, d), k) == (k < 16 && Bit(n, Partner(k, d)))
  {
    var a, b := And(n, hi), And(n, lo);
    BitOr(Shr(a, d), Shl(b, d), k);
    BitShr(a, d, k);
    BitAnd(n, hi, d + k);
    BitShl(b, d, k);
    if k >= d { BitAnd(n, lo, k - d); }
    PartnerHalves(d, k);
  }

  lemma PartnerHalves(d: nat, k: nat)
    requires d == 1 || d == 2 || d == 4 || d == 8
    ensures (k + d < 16 && Upper(k + d, d)) == (k < 16 && !Upper(k, d))
    ensures (k >= d && k - d < 16 && !Upper(k - d, d)) == (k < 16 && Upper(k, d))
  {
    hide Upper;
    UpperFlips(d, k);
    if k >= d { UpperFlips(d, k - d); }
  }

  lemma UpperFlips(d: nat, k: nat)
    requires d == 1 || d == 2 || d == 4 || d == 8
    ensures Upper(k + d, d) == !Upper(k, d)
    ensures k < 16 ==> k >= d || !Upper(k, d)
    ensures !Upper(k, d) && k < 16 ==> k + d < 16
    ensures Upper(k, d) && k < 16 + d ==> k < 16
  {
    hide Upper;
    if d == 1 { Flips1(k); } else if d == 2 { Flips2(k); } else if d == 4 { Flips4(k); } else { Flips8(k); }
  }

  lemma Flips1(k: nat)
    ensures Upper(k + 1, 1) == !Upper(k, 1)
    ensures k < 16 ==> k >= 1 || !Upper(k, 1)
    ensures k < 16 && !Upper(k, 1) ==> k + 1 < 16
    ensures k < 16 + 1 && Upper(k, 1) ==> k < 16
  {
  }

  lemma Flips2(k: nat)
    ensures Upper(k + 2, 2) == !Upper(k, 2)
    ensures k < 16 ==> k >= 2 || !Upper(k, 2)
    ensures k < 16 && !Upper(k, 2) ==> k + 2 < 16
    ensures k < 16 + 2 && Upper(k, 2) ==> k < 16
  {
  }

  lemma Flips4(k: nat)
    ensures Upper(k + 4, 4) == !Upper(k, 4)
    ensures k < 16 ==> k >= 4 || !Upper(k, 4)
    ensures k < 16 && !Upper(k, 4) ==> k + 4 < 16
    ensures k < 16 + 4 && Upper(k, 4) ==> k < 16
  {
  }

  lemma Flips8(k: nat)
    ensures Upper(k + 8, 8) == !Upper(k, 8)
    ensures k < 16 ==> k >= 8 || !Upper(k, 8)
    ensures k < 16 && !Upper(k, 8) ==> k + 8 < 16
    ensures k < 16 + 8 && Upper(k, 8) ==> k < 16
  {
  }

  lemma PartnerChain(k: nat)
    requires k < 16
    ensures Partner(k, 8) < 16 && Partner(Partner(k, 8), 4) < 16 && Partner(Partner(Partner(k, 8), 4), 2) < 16
    ensures Partner(Partner(Partner(Partner(k, 8), 4), 2), 1) == 15 - k
  {
  }

  /** Digit k of the result is digit 15 - k of the operand, and there are 16 of them. */
  lemma BitReverse16Bit(n: nat, k: nat)
    ensures Bit(BitReverse16(n), k) == (k < 16 && Bit(n, 15 - k))
  {
    var n1 := Swap(n, 0xAAAA, 0x5555, 1);
    var n2 := Swap(n1, 0xCCCC, 0x3333, 2);
    var n3 := Swap(n2, 0xF0F0, 0x0F0F, 4);
    Mask1(); Mask2(); Mask4(); Mask8();
    Chain(n, n1, n2, n3, k);
  }

  lemma Chain(n: nat, n1: nat, n2: nat, n3: nat, k: nat)
    requires Halves(0xAAAA, 0x5555, 1) && Halves(0xCCCC, 0x3333, 2)
    requires Halves(0xF0F0, 0x0F0F, 4) && Halves(0xFF00, 0x00FF, 8)
    requires n1 == Swap(n, 0xAAAA, 0x5555, 1)
    requires n2 == Swap(n1, 0xCCCC, 0x3333, 2)
    requires n3 == Swap(n2, 0xF0F0, 0x0F0F, 4)
    ensures Bit(Swap(n3, 0xFF00, 0x00FF, 8), k) == (k < 16 && Bit(n, 15 - k))
  {
    SwapBit(n3, 0xFF00, 0x00FF, 8, k);
    if k < 16 {
      PartnerChain(k);
      var k3 := Partner(k, 8);
      SwapBit(n2, 0xF0F0, 0x0F0F, 4, k3);
      var k2 := Partner(k3, 4);
      SwapBit(n1, 0xCCCC, 0x3333, 2, k2);
      SwapBit(n, 0xAAAA, 0x5555, 1, Partner(k2, 2));
    }
  }

  /** The reversal of an n-bit number is the number with the reversed digits. */
  lemma BitReverseNIsRev(v: nat, bits: nat)
    requires bits <= 16 && v < Pow2(bits)
    ensures BitReverseN(v, bits) == FromBits(Rev(ToBits(v, bits)))
    ensures BitReverseN(v, bits) < Pow2(bits)
  {
    hide BitReverse16, ToBits, FromBits;
    var x := BitReverseN(v, bits);
    forall i: nat ensures Bit(x, i) == (i < bits && Bit(v, bits - 1 - i)) {
      BitShr(BitReverse16(v), 16 - bits, i);
      BitReverse16Bit(v, 16 - bits + i);
    }
    ReversedDigits(v, x, bits);
  }

  lemma ReversedDigits(v: nat, x: nat, n: nat)
    requires forall i: nat :: Bit(x, i) == (i < n && Bit(v, n - 1 - i))
    ensures x == FromBits(Rev(ToBits(v, n))) && x < Pow2(n)
  {
    var s := Rev(ToBits(v, n));
    forall i | 0 <= i < n ensures ToBits(x, n)[i] == s[i] {
      ToBitsAt(x, n, i);
      ToBitsAt(v, n, n - 1 - i);
    }
    assert ToBits(x, n) == s;
    BoundedByDigits(x, n);
    FromToBits(x, n);
    LowSmall(x, n);
  }

  /** The 16 low bits of a wider word, read the other way round. */
  lemma BitReverse16IsRev(v: nat)
    ensures BitReverse16(v) == FromBits(Rev(ToBits(v, 16)))
    ensures BitReverse16(v) < Pow2(16)
  {
    forall i: nat ensures Bit(BitReverse16(v), i) == (i < 16 && Bit(v, 16 - 1 - i)) {
      BitReverse16Bit(v, i);
    }
    ReversedDigits(v, BitReverse16(v), 16);
  }

  lemma {:induction false} BoundedByDigits(x: nat, n: nat)
    requires forall i: nat :: n <= i ==> !Bit(x, i)
    ensures x < Pow2(n)
  {
    if n == 0 {
      if x != 0 { var i := SomeDigit(x); }
    } else {
      forall i: nat | n - 1 <= i ensures !Bit(x / 2, i) { assert Bit(x, i + 1) == Bit(x / 2, i); }
      BoundedByDigits(x / 2, n - 1);
    }
  }

  lemma {:induction false} SomeDigit(x: nat) returns (i: nat)
    requires x != 0
    ensures Bit(x, i)
  {
    if x % 2 == 1 { i := 0; } else { var j := SomeDigit(x / 2); i := j + 1; }
  }
}
