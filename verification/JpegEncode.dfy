/** Coding the quantised coefficients of a block. */
module JpegEncode {
  import opened Bits
  import opened MsbFirst
  import opened JpegCode
  import opened JpegWriter

  lemma ModNegative(x: int, d: nat)
    requires -(d as int) <= x < 0
    ensures x % d == x + d
  {
    var e := x / d + 1;
    assert e * d == x + d - x % d;
    MulAtLeast(e, d);
    MulAtLeast(-e, d);
  }

  lemma ModSmall(x: nat, d: nat)
    requires x < d
    ensures x % d == x
  {
    DivModUnique(x, d, 0, x);
  }

  /** The magnitude bits of a value and their number; zero has none, and is given one. */
  method CalcBits(val: int) returns (code: nat, length: nat)
    ensures val != 0 ==> length == Category(Abs(val)) && code < Pow2(length) && BitsOf(code, length) == Magnitude(val)
    ensures val == 0 ==> code == 0 && length == 1
  {
    hide BitsOf, Pow2;
    var tmp1: nat := Abs(val);
    var v := if val < 0 then val - 1 else val;
    length := 1;
    tmp1 := tmp1 / 2;
    while tmp1 != 0
      invariant length + Category(tmp1) == if val == 0 then 1 else Category(Abs(val))
      decreases tmp1
    {
      length := length + 1;
      tmp1 := tmp1 / 2;
    }
    if val < 0 { ModNegative(v, Pow2(length)); } else if val > 0 { ModSmall(v, Pow2(length)); }
    code := v % Pow2(length);
  }

  lemma {:induction false} NextSame(du: seq<int>, k: nat, n: nat)
    requires k <= |du| && k <= n <= NextNonzero(du, k)
    ensures NextNonzero(du, n) == NextNonzero(du, k)
    decreases n - k
  {
    if k < n { NextSame(du, k + 1, n); }
  }

  /** After the last coefficient that is not zero. */
  lemma {:induction false} NoneLeft(du: seq<int>, k: nat)
    requires k <= |du| && forall i :: k <= i < |du| ==> du[i] == 0
    ensures NextNonzero(du, k) == |du|
    decreases |du| - k
  {
    if k < |du| { NoneLeft(du, k + 1); }
  }

  /** The predicate's part about one symbol. */
  lemma HasBits(ht: seq<Entry>, v: nat)
    requires Table(ht) && v < |ht|
    ensures |ht| == 256 && ht[v].length <= 16 && ht[v].code < Pow2(ht[v].length) && SymbolBits(ht, v) == BitsOf(ht[v].code, ht[v].length)
  {
  }

  lemma Size(ht: seq<Entry>)
    requires Table(ht)
    ensures |ht| == 256
  {
  }

  /** The difference of the DC coefficient. */
  method EncodeDc(w: BitWriter, diff: int, htd: seq<Entry>, ghost start: seq<byte>, ghost bits: seq<bool>)
    requires Table(htd) && DcCodable(htd, diff) && w.Wrote(start, bits)
    modifies w
    ensures w.Wrote(start, bits + DcBits(htd, diff))
  {
    hide Table, SymbolBits, Magnitude, Pow2, BitsOf;
    Size(htd);
    HasBits(htd, 0);
    if diff == 0 {
      w.WriteBits(htd[0].code, htd[0].length, start, bits);
      assert SymbolBits(htd, 0) + [] == SymbolBits(htd, 0);
    } else {
      var code, length := CalcBits(diff);
      HasBits(htd, length);
      w.WriteBits(htd[length].code, htd[length].length, start, bits);
      w.WriteBits(code, length, start, bits + SymbolBits(htd, length));
      Regroup(bits, SymbolBits(htd, length), Magnitude(diff));
    }
  }

  /** lng markers, of 16 zeros each. */
  method EncodeZeros(w: BitWriter, lng: nat, ghost du: seq<int>, ghost from: nat, hta: seq<Entry>, ghost start: seq<byte>, ghost bits: seq<bool>)
    returns (ghost k: nat, ghost bits': seq<bool>)
    requires |du| == 64 && Table(hta) && AcCodable(hta, du) && w.Wrote(start, bits)
    requires 1 <= from < 64 && from + 16 * lng <= NextNonzero(du, from) < 64
    modifies w
    ensures k == from + 16 * lng && w.Wrote(start, bits') && bits' + AcBits(hta, du, k) == bits + AcBits(hta, du, from)
  {
    hide Table, SymbolBits, Pow2, BitsOf, AcBits, AcCodable, NextNonzero;
    Size(hta);
    HasBits(hta, 0xF0);
    k, bits' := from, bits;
    var nrmarker := 1;
    while nrmarker <= lng
      invariant 1 <= nrmarker <= lng + 1 && k == from + 16 * (nrmarker - 1) && w.Wrote(start, bits')
      invariant bits' + AcBits(hta, du, k) == bits + AcBits(hta, du, from)
    {
      NextSame(du, from, k);
      RunIsLong(hta, du, k);
      w.WriteBits(hta[0xF0].code, hta[0xF0].length, start, bits');
      Regroup(bits', SymbolBits(hta, 0xF0), AcBits(hta, du, k + 16));
      bits' := bits' + SymbolBits(hta, 0xF0);
      k := k + 16;
      nrmarker := nrmarker + 1;
    }
  }

  /** One coefficient that is not zero, at or behind i, with the zeros before it. */
  method EncodeRun(w: BitWriter, du: seq<int>, from: nat, end0pos: nat, hta: seq<Entry>, ghost start: seq<byte>, ghost bits: seq<bool>)
    returns (i: nat, ghost bits': seq<bool>)
    requires |du| == 64 && Table(hta) && AcCodable(hta, du) && w.Wrote(start, bits)
    requires 1 <= from <= end0pos < 64 && du[end0pos] != 0
    modifies w
    ensures from <= i <= end0pos && w.Wrote(start, bits') && bits' + AcBits(hta, du, i + 1) == bits + AcBits(hta, du, from)
  {
    hide Table, SymbolBits, Magnitude, Pow2, BitsOf, AcBits, AcCodable, NextNonzero, Category, Abs;
    ghost var z := NextNonzero(du, from);
    assert z <= end0pos;
    i := from;
    while du[i] == 0 && i <= end0pos
      invariant from <= i <= z
    {
      i := i + 1;
    }
    var nrzeroes := i - from;
    bits' := bits;
    ghost var k := from;
    Size(hta);
    HasBits(hta, 0);
    if nrzeroes >= 16 {
      k, bits' := EncodeZeros(w, nrzeroes / 16, du, from, hta, start, bits);
      nrzeroes := nrzeroes % 16;
    }
    NextSame(du, from, k);
    RunIsShort(hta, du, k);
    bits' := EncodeCoefficient(w, nrzeroes, du[i], hta, start, bits', AcBits(hta, du, i + 1));
  }

  /** The symbol of a run of zeros and a category, and the magnitude bits. */
  method EncodeCoefficient(w: BitWriter, nrzeroes: nat, v: int, hta: seq<Entry>, ghost start: seq<byte>, ghost bits: seq<bool>, ghost rest: seq<bool>)
    returns (ghost bits': seq<bool>)
    requires v != 0 && Table(hta) && w.Wrote(start, bits) && Category(Abs(v)) <= 15 && RunCategory(nrzeroes, v) < |hta|
    modifies w
    ensures w.Wrote(start, bits') && bits' + rest == bits + (SymbolBits(hta, RunCategory(nrzeroes, v)) + (Magnitude(v) + rest))
  {
    hide Table, SymbolBits, Magnitude, Pow2, BitsOf;
    var code, length := CalcBits(v);
    var symbol := nrzeroes * 16 + length;
    HasBits(hta, symbol);
    w.WriteBits(hta[symbol].code, hta[symbol].length, start, bits);
    w.WriteBits(code, length, start, bits + SymbolBits(hta, symbol));
    bits' := bits + SymbolBits(hta, symbol) + Magnitude(v);
    Regroup(bits, SymbolBits(hta, symbol), Magnitude(v) + rest);
    Regroup(bits + SymbolBits(hta, symbol), Magnitude(v), rest);
  }

  lemma RunIsLong(ht: seq<Entry>, du: seq<int>, k: nat)
    requires |ht| == 256 && |du| == 64 && 1 <= k < 64 && AcCodable(ht, du) && k + 16 <= NextNonzero(du, k) < 64
    ensures AcBits(ht, du, k) == SymbolBits(ht, 0xF0) + AcBits(ht, du, k + 16)
  {
  }

  lemma RunIsShort(ht: seq<Entry>, du: seq<int>, k: nat)
    requires |ht| == 256 && |du| == 64 && 1 <= k < 64 && AcCodable(ht, du)
    requires NextNonzero(du, k) < 64 && NextNonzero(du, k) - k < 16
    ensures var z := NextNonzero(du, k);
      && Category(Abs(du[z])) <= 15 && RunCategory(z - k, du[z]) < 256
      && AcBits(ht, du, k) == SymbolBits(ht, RunCategory(z - k, du[z])) + (Magnitude(du[z]) + AcBits(ht, du, z + 1))
  {
    hide Magnitude, SymbolBits;
    var z := NextNonzero(du, k);
    assert HasCode(ht, z - k, du[z]);
  }

  lemma TailBits(ht: seq<Entry>, du: seq<int>, e: nat)
    requires |ht| == 256 && |du| == 64 && e < 64 && AcCodable(ht, du) && forall i :: e < i < 64 ==> du[i] == 0
    ensures AcBits(ht, du, e + 1) == if e == 63 then [] else SymbolBits(ht, 0)
  {
    NoneLeft(du, e + 1);
  }

  /** The AC coefficients. */
  method EncodeAcs(w: BitWriter, du: seq<int>, hta: seq<Entry>, ghost start: seq<byte>, ghost bits: seq<bool>)
    requires |du| == 64 && Table(hta) && AcCodable(hta, du) && w.Wrote(start, bits)
    modifies w
    ensures w.Wrote(start, bits + AcBits(hta, du, 1))
  {
    hide Table, SymbolBits, BitsOf, Pow2, AcBits, AcCodable;
    Size(hta);
    HasBits(hta, 0);
    var end0pos := 63;
    while end0pos > 0 && du[end0pos] == 0
      invariant 0 <= end0pos <= 63 && forall j :: end0pos < j < 64 ==> du[j] == 0
    {
      end0pos := end0pos - 1;
    }
    TailBits(hta, du, end0pos);
    if end0pos == 0 {
      w.WriteBits(hta[0].code, hta[0].length, start, bits);
      return;
    }
    ghost var done := bits;
    var i := 1;
    while i <= end0pos
      invariant 1 <= i <= end0pos + 1 && w.Wrote(start, done) && done + AcBits(hta, du, i) == bits + AcBits(hta, du, 1)
    {
      i, done := EncodeRun(w, du, i, end0pos, hta, start, done);
      i := i + 1;
    }
    if end0pos != 63 {
      w.WriteBits(hta[0].code, hta[0].length, start, done);
    } else {
      assert done + [] == done;
    }
  }

  /** A whole block; gives back its DC coefficient, for the next one. */
  method ProcessDU(w: BitWriter, du: seq<int>, dc: int, htd: seq<Entry>, hta: seq<Entry>, ghost start: seq<byte>, ghost bits: seq<bool>)
    returns (r: int)
    requires BlockCodable(htd, hta, du, dc) && Table(htd) && Table(hta) && w.Wrote(start, bits)
    modifies w
    ensures r == du[0] && w.Wrote(start, bits + BlockBits(htd, hta, du, dc))
  {
    hide Table, DcCodable, AcCodable, DcBits, AcBits;
    EncodeDc(w, du[0] - dc, htd, start, bits);
    EncodeAcs(w, du, hta, start, bits + DcBits(htd, du[0] - dc));
    Regroup(bits, DcBits(htd, du[0] - dc), AcBits(hta, du, 1));
    r := du[0];
  }
}
