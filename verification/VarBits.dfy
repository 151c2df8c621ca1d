/** The header bit reader: a 64-bit register, most significant bit first, that is refilled from the
    bytes and gives zeros past their end. */
module VarBits {
  import opened Bits
  import opened MsbFirst
  import opened MsbRegister

  /** The register x with n bits, of which fewer than none when zeros past the end were read, stands
      at bit p of the data, of which cur bytes are in it or behind it. */
  ghost predicate Stands(data: seq<byte>, p: int, x: nat, n: int, cur: nat) {
    && cur <= |data| && n <= 64 && p == 8 * cur - n && p >= 0
    && if n >= 0 then Loaded(MsbBits(data), p, x, n, 64) else x == 0 && cur == |data|
  }

  /** There are m bits in the register, or none outside. */
  predicate Enough(data: seq<byte>, n: int, cur: nat, m: nat) {
    n >= m || cur == |data|
  }

  lemma StandsByte(data: seq<byte>, p: int, x: nat, n: int, cur: nat)
    requires Stands(data, p, x, n, cur) && n <= 56 && cur < |data|
    ensures n >= 0 && Shl(data[cur], 56 - n) < Pow2(64) && Stands(data, p, Or(x, Shl(data[cur], 56 - n)), n + 8, cur + 1)
  {
    hide MsbBits, Window, BitsOf, Or, Shl, Pow2, Loaded;
    NextByte(data, p + n, data[cur]);
    LoadByte(MsbBits(data), p, x, n, data[cur], 64);
  }

  lemma StandsShift(data: seq<byte>, p: int, x: nat, n: int, cur: nat, m: nat)
    requires Stands(data, p, x, n, cur) && Enough(data, n, cur, m) && m <= 32
    ensures Stands(data, p + m, Low(Shl(x, m), 64), n - m, cur) && Shr(x, 64 - m) == Msb(MsbBits(data), p, m)
  {
    hide MsbBits, Window, Low, Shl, Shr, Loaded, Value;
    var s := MsbBits(data);
    if n >= 0 {
      if n < m { LoadedPast(s, p, x, n, m, 64); }
      ShiftLoaded(s, p, x, if n < m then m else n, m, 64);
      if n < m { PastIsZero(s, p + m, Low(Shl(x, m), 64), 0, 64); }
    } else {
      LoadedEmpty(s, p, 64);
      LoadedPast(s, p, 0, 0, m, 64);
      ShiftLoaded(s, p, 0, m, m, 64);
      PastIsZero(s, p + m, Low(Shl(x, m), 64), 0, 64);
    }
  }

  lemma PastIsZero(s: seq<bool>, p: nat, x: nat, n: nat, w: nat)
    requires Loaded(s, p, x, n, w) && n == 0
    ensures x == 0
  {
    ValueZeros(w);
    assert Window(s, p, 0) + Zeros(w) == Zeros(w);
  }

  lemma {:induction false} NoBit(n: nat)
    ensures Shr(0, n) == 0
  {
    if n > 0 { NoBit(n - 1); }
  }

  /** Such a state: nothing is in the register yet, and the first bit is a one. */
  lemma OneIsMissed()
    ensures Stands([0x80], 0, 0, 0, 0) && !Enough([0x80], 0, 0, 1) && Msb(MsbBits([0x80]), 0, 1) == 1
  {
    hide Loaded;
    var data: seq<byte> := [0x80];
    LoadedEmpty(MsbBits(data), 0, 64);
    assert data[..0] == [];
    assert MsbBits(data) == [] + BitsOf(0x80, 8);
    assert Rev(Window(MsbBits(data), 0, 1)) == [true];
  }

  class Reader {
    const data: seq<byte>
    var cur: nat
    var bits: nat
    var inv_bitlen: int

    ghost function Pos(): int
      reads this
    {
      8 * cur - (63 - inv_bitlen)
    }

    ghost predicate Valid()
      reads this
    {
      Stands(data, Pos(), bits, 63 - inv_bitlen, cur)
    }

    constructor (data: seq<byte>, ptr: nat)
      requires ptr <= |data|
      ensures this.data == data && Valid() && Pos() == 8 * ptr && Enough(data, 63 - inv_bitlen, cur, 57)
    {
      this.data := data;
      cur, bits, inv_bitlen := ptr, 0, 63;
      LoadedEmpty(MsbBits(data), 8 * ptr, 64);
      new;
      Refill();
    }

    method Refill()
      requires Valid()
      modifies `cur, `bits, `inv_bitlen
      ensures Valid() && Pos() == old(Pos()) && Enough(data, 63 - inv_bitlen, cur, 57)
      ensures inv_bitlen <= old(inv_bitlen) && cur >= old(cur)
    {
      hide Stands, Or, Shl, Pow2;
      var bitlen := 63 - inv_bitlen;
      Limits(data, Pos(), bits, bitlen, cur);
      while bitlen <= 56 && cur < |data|
        invariant bitlen == 63 - inv_bitlen && cur <= |data| && Valid() && Pos() == old(Pos())
        invariant inv_bitlen <= old(inv_bitlen) && cur >= old(cur)
      {
        StandsByte(data, Pos(), bits, bitlen, cur);
        bits := Or(bits, Shl(data[cur], 56 - bitlen));
        cur := cur + 1;
        bitlen := bitlen + 8;
        inv_bitlen := inv_bitlen - 8;
      }
    }

    /** Reads count bits as a number. */
    method Get(count: nat) returns (ret: nat)
      requires Valid() && 1 <= count <= 32
      modifies `cur, `bits, `inv_bitlen
      ensures Valid() && ret == Msb(MsbBits(data), old(Pos()), count) && Pos() == old(Pos()) + count
      ensures inv_bitlen <= old(inv_bitlen) + count && cur >= old(cur)
    {
      hide Stands, Low, Shl, Shr, MsbBits;
      if inv_bitlen > 63 - count { Refill(); }
      StandsShift(data, Pos(), bits, 63 - inv_bitlen, cur, count);
      ret := Shr(bits, 64 - count);
      bits := Low(Shl(bits, count), 64);
      inv_bitlen := inv_bitlen + count;
    }

    /** No bits are zero. */
    method GetZeroOk(count: nat) returns (ret: nat)
      requires Valid() && count <= 32
      modifies `cur, `bits, `inv_bitlen
      ensures Valid() && ret == Msb(MsbBits(data), old(Pos()), count) && Pos() == old(Pos()) + count
    {
      hide Stands, MsbBits;
      Limits(data, Pos(), bits, 63 - inv_bitlen, cur);
      if count == 0 {
        ValueZeros(0);
        assert Window(MsbBits(data), Pos(), 0) == Zeros(0);
        return 0;
      }
      ret := Get(count);
    }

    /** Reads one bit. Unlike Get it does not refill a register that has just run empty: with no bit in
        the register and some outside it gives 0, whatever the next bit is, and falls out of step. */
    method Get1() returns (ret: nat)
      requires Valid()
      modifies `cur, `bits, `inv_bitlen
      ensures Pos() == old(Pos()) + 1 && (Valid() <==> old(Enough(data, 63 - inv_bitlen, cur, 1)))
      ensures ret == if old(Enough(data, 63 - inv_bitlen, cur, 1)) then Msb(MsbBits(data), old(Pos()), 1) else 0
      ensures inv_bitlen <= old(inv_bitlen) + 1 && cur >= old(cur)
    {
      hide Loaded, Low, Shl, Shr, MsbBits, Value, Window;
      if inv_bitlen > 63 { Refill(); }
      if Enough(data, 63 - inv_bitlen, cur, 1) {
        StandsShift(data, Pos(), bits, 63 - inv_bitlen, cur, 1);
      } else {
        PastIsZero(MsbBits(data), Pos(), bits, 0, 64);
        NoBit(63);
      }
      ret := Shr(bits, 63);
      bits := Low(Shl(bits, 1), 64);
      inv_bitlen := inv_bitlen + 1;
    }

    /** Looks at count bits that are there. */
    method Peek(count: nat) returns (ret: nat)
      requires Valid() && 1 <= count <= 32 && Enough(data, 63 - inv_bitlen, cur, count)
      ensures ret == Msb(MsbBits(data), Pos(), count)
    {
      hide Stands, Low, Shl, Shr, MsbBits;
      StandsShift(data, Pos(), bits, 63 - inv_bitlen, cur, count);
      ret := Shr(bits, 64 - count);
    }

    /** Skips bits that are there. */
    method Use(count: nat)
      requires Valid() && count <= 32 && Enough(data, 63 - inv_bitlen, cur, count)
      modifies `bits, `inv_bitlen
      ensures Valid() && Pos() == old(Pos()) + count
    {
      hide Stands, Low, Shl, Shr, MsbBits;
      StandsShift(data, Pos(), bits, 63 - inv_bitlen, cur, count);
      bits := Low(Shl(bits, count), 64);
      inv_bitlen := inv_bitlen + count;
    }

    /** The byte and the bit in it that come next. */
    method ToBlock() returns (ptr: int, posInByte: nat)
      requires Valid()
      ensures posInByte < 8 && 8 * ptr + posInByte == Pos()
    {
      var len := 63 - inv_bitlen;
      ptr := cur - (len + 7) / 8;
      posInByte := (-len) % 8;
    }
  }

  lemma Limits(data: seq<byte>, p: int, x: nat, n: int, cur: nat)
    requires Stands(data, p, x, n, cur)
    ensures cur <= |data| && n <= 64 && p >= 0 && (n < 0 ==> cur == |data|)
  {
  }
}
