/** The writer's bit register: 24 bits wide, most significant first, with byte stuffing. */
module JpegWriter {
  import opened Bits
  import opened JpegBits
  import opened MsbFirst

  // ----- words by their digits

  lemma SameBits(x: nat, y: nat, n: nat)
    requires x < Pow2(n) && y < Pow2(n)
    requires forall i: nat :: i < n ==> Bit(x, i) == Bit(y, i)
    ensures x == y
  {
    forall i | 0 <= i < n ensures ToBits(x, n)[i] == ToBits(y, n)[i] {
      ToBitsAt(x, n, i);
      ToBitsAt(y, n, i);
    }
    ToBitsInjective(x, y, n);
  }

  lemma LowOr(x: nat, y: nat, n: nat)
    requires y < Pow2(n)
    ensures Low(Or(x, y), n) == Or(Low(x, n), y)
  {
    LowBound(Or(x, y), n);
    LowBound(x, n);
    OrBound(Low(x, n), y, n);
    forall i: nat | i < n ensures Bit(Low(Or(x, y), n), i) == Bit(Or(Low(x, n), y), i) {
      BitLow(Or(x, y), n, i);
      BitOr(x, y, i);
      BitOr(Low(x, n), y, i);
      BitLow(x, n, i);
    }
    SameBits(Low(Or(x, y), n), Or(Low(x, n), y), n);
  }

  lemma {:induction false} LowShr(x: nat, m: nat, n: nat)
    ensures Low(Shr(x, m), n) == Shr(Low(x, m + n), m)
  {
    if m > 0 { LowShr(x / 2, m - 1, n); }
  }

  /** The low digits of a shifted word, whether or not it was cut to a wider register. */
  lemma LowShl(x: nat, m: nat, n: nat, w: nat)
    requires n <= w
    ensures Low(Low(Shl(x, m), w), n) == Low(Shl(Low(x, n), m), n)
  {
    LowBound(Low(Shl(x, m), w), n);
    LowBound(Shl(Low(x, n), m), n);
    forall i: nat | i < n ensures Bit(Low(Low(Shl(x, m), w), n), i) == Bit(Low(Shl(Low(x, n), m), n), i) {
      BitLow(Low(Shl(x, m), w), n, i);
      BitLow(Shl(x, m), w, i);
      BitShl(x, m, i);
      BitLow(Shl(Low(x, n), m), n, i);
      BitShl(Low(x, n), m, i);
      if i >= m { BitLow(x, n, i - m); }
    }
    SameBits(Low(Low(Shl(x, m), w), n), Low(Shl(Low(x, n), m), n), n);
  }

  // ----- the register

  /** The register's upper 24 bits hold these bits, left-justified. */
  ghost predicate Register(bits: seq<bool>, x: nat) {
    |bits| <= 24 && Low(x, 24) == Value(bits + Zeros(24 - |bits|))
  }

  lemma PutBits(bits: seq<bool>, x: nat, code: nat, n: nat)
    requires Register(bits, x) && code < Pow2(n) && |bits| + n <= 24
    ensures Register(bits + BitsOf(code, n), Or(x, Shl(code, 24 - |bits| - n)))
  {
    hide Value, BitsOf, Zeros, Or, Shl, Low, Pow2;
    var m := 24 - |bits| - n;
    ValueOfBits(code, n);
    OrBehind(bits, BitsOf(code, n), m);
    ShlBound(code, n, m);
    Pow2Mono(m + n, 24);
    LowOr(x, Shl(code, m), 24);
  }

  /** The first eight bits are the byte to write, and shifting brings up the others. */
  lemma TakeByte(a: seq<bool>, b: seq<bool>, x: nat)
    requires |a| == 8 && Register(a + b, x)
    ensures Low(Shr(x, 16), 8) < 256 && BitsOf(Low(Shr(x, 16), 8), 8) == a
    ensures Register(b, Low(Shl(x, 8), 32))
  {
    hide Value, BitsOf, Zeros, Shl, Shr, Low, Pow2;
    var z := Zeros(16 - |b|);
    assert a + b + z == a + (b + z);
    LowShr(x, 16, 8);
    ValueSplit(a, b + z);
    BitsOfValue(a);
    ValueBound(a);
    ByteWidth();
    LowShl(x, 8, 24, 32);
    ShiftOut(a, b + z);
    JoinZeros(b, 16 - |b|, 8);
  }

  lemma ByteWidth()
    ensures Pow2(8) == 256
  {
    Pow2Values();
  }

  lemma JoinZeros(b: seq<bool>, m: nat, n: nat)
    ensures b + Zeros(m) + Zeros(n) == b + Zeros(m + n)
  {
  }

  lemma EmptyRegister()
    ensures Register([], 0) && MsbBits([]) == [] && Stuffed([]) == [] && 0 < Pow2(32)
  {
    hide Value, Low;
    LowSmall(0, 24);
    ValueZeros(24);
    assert [] + Zeros(24) == Zeros(24);
  }

  /** Eight bits more are a byte more. */
  lemma NextByte(all: seq<bool>, bytes: seq<byte>, c: byte)
    requires |all| >= 8 * |bytes| + 8 && all[..8 * |bytes|] == MsbBits(bytes)
    requires BitsOf(c, 8) == all[8 * |bytes|..8 * |bytes| + 8]
    ensures all[..8 * |bytes| + 8] == MsbBits(bytes + [c])
  {
    hide MsbBits, BitsOf;
    var n := 8 * |bytes|;
    MsbSnoc(bytes, c);
    assert all[..n + 8] == all[..n] + all[n..n + 8];
  }

  lemma Cut<T>(all: seq<T>, n: nat)
    requires |all| >= n + 8
    ensures all[n..] == all[n..n + 8] + all[n + 8..]
  {
  }

  class BitWriter {
    var out: seq<byte>
    var bitBuf: nat
    var bitCnt: nat
    ghost var bytes: seq<byte>

    /** These bits were written behind start: whole bytes, stuffed, and fewer than eight bits in the
        register. */
    ghost predicate Wrote(start: seq<byte>, bits: seq<bool>)
      reads this
    {
      && out == start + Stuffed(bytes) && bitBuf < Pow2(32) && bitCnt < 8
      && |bits| == 8 * |bytes| + bitCnt && bits[..8 * |bytes|] == MsbBits(bytes) && Register(bits[8 * |bytes|..], bitBuf)
    }

    constructor (start: seq<byte>)
      ensures Wrote(start, [])
    {
      hide Register, MsbBits, Stuffed, Pow2;
      out, bitBuf, bitCnt, bytes := start, 0, 0, [];
      EmptyRegister();
    }

    /** Appends a code, most significant bit first. */
    method WriteBits(code: nat, length: nat, ghost start: seq<byte>, ghost bits: seq<bool>)
      requires Wrote(start, bits) && length <= 16 && code < Pow2(length)
      modifies this
      ensures Wrote(start, bits + BitsOf(code, length))
    {
      hide Register, BitsOf, MsbBits, Stuffed, Or, Shl, Shr, Low, Pow2;
      ghost var all := bits + BitsOf(code, length);
      ghost var rest := bits[8 * |bytes|..] + BitsOf(code, length);
      PutBits(bits[8 * |bytes|..], bitBuf, code, length);
      ShlWord(code, length, bitCnt, bitBuf);
      assert all[8 * |bytes|..] == rest && all[..8 * |bytes|] == bits[..8 * |bytes|];
      bitCnt := bitCnt + length;
      bitBuf := Or(bitBuf, Shl(code, 24 - bitCnt));
      while bitCnt >= 8
        invariant out == start + Stuffed(bytes) && bitBuf < Pow2(32)
        invariant |all| == 8 * |bytes| + bitCnt && all[..8 * |bytes|] == MsbBits(bytes) && Register(all[8 * |bytes|..], bitBuf)
      {
        ghost var n := 8 * |bytes|;
        Cut(all, n);
        TakeByte(all[n..n + 8], all[n + 8..], bitBuf);
        LowBound(Shl(bitBuf, 8), 32);
        var c := Low(Shr(bitBuf, 16), 8);
        out := out + [c];
        if c == 255 { out := out + [0]; }
        bitBuf := Low(Shl(bitBuf, 8), 32);
        bitCnt := bitCnt - 8;
        NextByte(all, bytes, c);
        StuffedSnoc(bytes, c);
        bytes := bytes + [c];
      }
    }
  }

  lemma ShlWord(code: nat, n: nat, m: nat, x: nat)
    requires code < Pow2(n) && m + n <= 24 && x < Pow2(32)
    ensures Or(x, Shl(code, 24 - (m + n))) < Pow2(32)
  {
    ShlBound(code, n, 24 - (m + n));
    Pow2Mono(24 - m, 32);
    OrBound(x, Shl(code, 24 - (m + n)), 32);
  }

  lemma StuffedSnoc(bs: seq<byte>, b: byte)
    ensures Stuffed(bs + [b]) == Stuffed(bs) + StuffedByte(b)
  {
    assert (bs + [b])[..|bs|] == bs;
  }
}
