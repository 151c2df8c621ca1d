/** The inflater's bit reader over a byte buffer, and Huffman decoding through the tables of ZHuffman. */
module BitReader {
  import opened Bits
  import opened BitReverse
  import opened Canonical
  import opened ZHuffman

  /** Looking up the low 9 bits of a window is looking for the codes it starts with. */
  lemma FastIsMatch(lens: seq<nat>, i: nat, cb: nat, w: seq<bool>)
    requires |w| == 16 && i < |lens| && 1 <= lens[i] <= ZFAST_BITS
    requires forall n: nat :: n <= 16 ==> w[..n] == ToBits(cb, n)
    ensures FastMatch(lens, i, Low(cb, ZFAST_BITS)) <==> Matches(lens, i, w)
  {
    var s := lens[i];
    LowLow(cb, s, ZFAST_BITS);
    FromToBits(cb, s);
    ToFromBits(CodeBits(lens, i));
    ToBitsLow(cb, s);
    assert w[..s] == ToBits(cb, s);
  }

  lemma {:induction false} LowLow(x: nat, m: nat, n: nat)
    requires m <= n
    ensures Low(Low(x, n), m) == Low(x, m)
  {
    if m > 0 { LowLow(x / 2, m - 1, n - 1); }
  }

  /** How many bits a refill leaves: bytes are added until there are more than 24. */
  function Filled(n: nat): (m: nat)
    requires n <= 32
    ensures n <= m <= 32 && m > 24
    decreases 32 - n
  {
    if n > 24 then n else Filled(n + 8)
  }

  /** The same when need of them are wanted. */
  function Refilled(n: nat, need: nat): (m: nat)
    requires n <= 32 && need <= 24
    ensures n <= m <= 32 && m >= need
  {
    if n < need then Filled(n) else n
  }

  /** How many are left when need of them are taken. */
  function Taken(n: nat, need: nat): (m: nat)
    requires n <= 32 && need <= 24
    ensures m <= 32
  {
    Refilled(n, need) - need
  }

  class ZBuf {
    const zbuffer: seq<byte>
    var pos: nat
    var num_bits: nat
    var code_buffer: nat
    var zout: seq<byte>
    const z_length: Huffman
    const z_distance: Huffman
    /** How many bytes went into the bit buffer, counting the zeros fetched past the end. */
    ghost var fetched: nat

    constructor (input: seq<byte>)
      ensures zbuffer == input && pos == 0 && zout == []
      ensures z_length != z_distance && fresh(z_length) && fresh(z_distance)
      ensures z_length.Shape() && z_distance.Shape()
    {
      zbuffer := input;
      pos, num_bits, code_buffer, fetched := 0, 0, 0, 0;
      zout := [];
      z_length := new Huffman();
      z_distance := new Huffman();
    }

    /** The input as a bit string. */
    ghost function Stream(): seq<bool> { ByteBits(zbuffer) }

    /** The position of the next bit. */
    ghost function BitPos(): nat
      requires num_bits <= 8 * fetched
      reads this
    {
      8 * fetched - num_bits
    }

    ghost predicate Valid()
      reads this
    {
      num_bits <= 8 * fetched && num_bits <= 32 && Buffered()
    }

    /** The bit buffer holds the bits between the position and the last byte fetched. */
    ghost predicate Buffered()
      requires num_bits <= 8 * fetched
      reads `pos, `num_bits, `code_buffer, `fetched
    {
      && pos == (if fetched < |zbuffer| then fetched else |zbuffer|)
      && code_buffer < Pow2(num_bits)
      && ToBits(code_buffer, num_bits) == Window(Stream(), 8 * fetched - num_bits, num_bits)
    }

    predicate Eof()
      reads this
    {
      pos >= |zbuffer|
    }

    method Get8() returns (b: byte)
      modifies `pos
      ensures b == if old(pos) < |zbuffer| then zbuffer[old(pos)] else 0
      ensures pos == if old(pos) < |zbuffer| then old(pos) + 1 else old(pos)
    {
      if Eof() { return 0; }
      b := zbuffer[pos];
      pos := pos + 1;
    }

    /** Appends bytes until more than 24 bits are buffered; the bits to come stay the same. */
    method FillBits()
      requires Valid() && num_bits <= 24
      modifies `pos, `num_bits, `code_buffer, `fetched
      ensures Valid() && num_bits == Filled(old(num_bits)) && BitPos() == old(BitPos())
      ensures fetched > old(fetched)
    {
      FillByte();
      while num_bits <= 24
        invariant Valid() && BitPos() == old(BitPos()) && fetched > old(fetched)
        invariant Filled(num_bits) == Filled(old(num_bits))
        decreases 32 - num_bits
      {
        FillByte();
      }
    }

    /** One turn of the loop above. The source takes bits beyond num_bits for the end of the input;
        there are none. */
    method FillByte()
      requires Valid() && num_bits <= 24
      modifies `pos, `num_bits, `code_buffer, `fetched
      ensures Valid() && num_bits == old(num_bits) + 8 && BitPos() == old(BitPos())
      ensures fetched == old(fetched) + 1
    {
      hide ToBits, Window, Or, Shl, ByteBits;
      if code_buffer >= Shl(1, num_bits) {
        ShlOne(num_bits);
        assert false;
      }
      var b := Get8();
      ByteStep(zbuffer, fetched, num_bits, code_buffer, b);
      code_buffer := Or(code_buffer, Shl(b, num_bits));
      num_bits := num_bits + 8;
      fetched := fetched + 1;
    }

    /** The next n bits as a number. */
    method Receive(n: nat) returns (k: nat)
      requires Valid() && n <= 24
      modifies `pos, `num_bits, `code_buffer, `fetched
      ensures Valid() && BitPos() == old(BitPos()) + n
      ensures num_bits == Refilled(old(num_bits), n) - n
      ensures k < Pow2(n) && ToBits(k, n) == Window(Stream(), old(BitPos()), n)
    {
      hide ToBits, Window, Low, Shr, Pow2, ByteBits;
      if num_bits < n { FillBits(); }
      k := Low(code_buffer, n);
      DivModPow2(code_buffer, n);
      ToBitsLow(code_buffer, n);
      TakeStep(Stream(), 8 * fetched, num_bits, n, code_buffer);
      code_buffer := Shr(code_buffer, n);
      num_bits := num_bits - n;
    }

    /** With no bits buffered the position is that of the next byte. */
    lemma EmptyBuffer()
      requires num_bits == 0 && code_buffer < Pow2(num_bits)
      requires pos == (if fetched < |zbuffer| then fetched else |zbuffer|)
      ensures Valid()
    {
    }

    /** Past the end of the input the buffer holds all that is left of it. */
    lemma AtEof()
      requires Valid()
      ensures Eof() <==> BitPos() + num_bits >= |Stream()|
    {
    }

    /** Drops the n bits of a decoded code. */
    method Skip(n: nat)
      requires Valid() && n <= num_bits
      modifies `num_bits, `code_buffer
      ensures Valid() && BitPos() == old(BitPos()) + n && num_bits == old(num_bits) - n
    {
      hide ToBits, Window, Shr, Pow2, ByteBits;
      TakeStep(Stream(), 8 * fetched, num_bits, n, code_buffer);
      code_buffer := Shr(code_buffer, n);
      num_bits := num_bits - n;
    }

    /** Decodes one symbol: the one whose code comes next in the stream. The reader gives up exactly
        when no code does, or when there are fewer than 16 bits in the buffer and no bytes left. */
    method Decode(z: Huffman, ghost lens: seq<nat>) returns (r: int)
      requires Valid() && z.Built(lens)
      modifies `pos, `num_bits, `code_buffer, `fetched
      ensures Valid() && r < |lens|
      ensures r >= 0 ==> Matches(lens, r, Window(Stream(), old(BitPos()), 16))
      ensures r >= 0 ==> BitPos() == old(BitPos()) + lens[r] && num_bits == Refilled(old(num_bits), 16) - lens[r]
      ensures r < 0 <==> (old(num_bits) < 16 && old(pos) >= |zbuffer|) ||
                         forall i: nat :: !Matches(lens, i, Window(Stream(), old(BitPos()), 16))
    {
      hide ToBits, Window, Low, Shr, ByteBits, Matches, FastEntry;
      if num_bits < 16 {
        if Eof() { return -1; }
        FillBits();
      }
      ghost var w := Window(Stream(), BitPos(), 16);
      WindowIsBuffer(Stream(), BitPos(), num_bits, code_buffer);
      DivModPow2(code_buffer, ZFAST_BITS);
      Pow2Values();
      var b := z.fast[Low(code_buffer, ZFAST_BITS)];
      if b != 0 {
        ghost var i := FastHit(lens, code_buffer, b, w);
        FastValue(lens[i], i);
        Skip(Shr(b, 9));
        return Low(b, 9);
      }
      FastMiss(lens, code_buffer, w);
      r := DecodeSlow(z, lens, w);
    }

    /** The codes longer than the fast table covers. */
    method DecodeSlow(z: Huffman, ghost lens: seq<nat>, ghost w: seq<bool>) returns (r: int)
      requires Valid() && num_bits >= 16 && z.Built(lens)
      requires w == Window(Stream(), BitPos(), 16) == ToBits(code_buffer, 16)
      requires forall i: nat :: Matches(lens, i, w) ==> lens[i] > ZFAST_BITS
      modifies `num_bits, `code_buffer
      ensures Valid() && r < |lens|
      ensures r >= 0 ==> Matches(lens, r, w) && BitPos() == old(BitPos()) + lens[r] && num_bits == old(num_bits) - lens[r]
      ensures r < 0 ==> forall i: nat :: !Matches(lens, i, w)
    {
      hide ToBits, FromBits, Window, ByteBits, Matches, Covered, First, Offset, Place, BitReverse16;
      var k := BitReverseN(code_buffer, 16);
      BitReverse16IsRev(code_buffer);
      Pow2Values();
      NotCovered(lens, w);
      var s := ZFAST_BITS + 1;
      while k >= z.maxcode[s]
        invariant ZFAST_BITS < s <= 16
        invariant k >= Covered(lens, s - 1)
        decreases 16 - s
      {
        assert s <= ZMAX_BITS ==> RangeSet(lens, s, z.firstcode, z.firstsymbol, z.maxcode);
        s := s + 1;
      }
      if s >= 16 { NoneCovered(lens, w); return -1; }
      assert RangeSet(lens, s, z.firstcode, z.firstsymbol, z.maxcode);
      ghost var i := SlowHit(lens, s, w);
      assert Listed(lens, i, z.size, z.value);
      var b := Shr(k, 16 - s) - z.firstcode[s] + z.firstsymbol[s];
      if b >= ZNSYMS { return -1; }
      if z.size[b] != s { return -1; }
      Skip(s);
      return z.value[b];
    }
  }

  // ----- bit buffer steps

  lemma ByteStep(input: seq<byte>, fetched: nat, n: nat, x: nat, b: byte)
    requires n <= 8 * fetched && x < Pow2(n)
    requires ToBits(x, n) == Window(ByteBits(input), 8 * fetched - n, n)
    requires b == if fetched < |input| then input[fetched] else 0
    ensures Or(x, Shl(b, n)) < Pow2(n + 8)
    ensures ToBits(Or(x, Shl(b, n)), n + 8) == Window(ByteBits(input), 8 * (fetched + 1) - (n + 8), n + 8)
  {
    hide ToBits, Or, Shl, Window, ByteBits;
    Pow2Values();
    AppendBits(x, n, b, 8);
    WindowByte(input, fetched);
    WindowSplit(ByteBits(input), 8 * fetched - n, n, 8);
  }

  lemma TakeStep(s: seq<bool>, e: nat, m: nat, n: nat, x: nat)
    requires n <= m <= e && x < Pow2(m) && ToBits(x, m) == Window(s, e - m, m)
    ensures Shr(x, n) < Pow2(m - n)
    ensures ToBits(Shr(x, n), m - n) == Window(s, e - (m - n), m - n)
    ensures ToBits(x, n) == Window(s, e - m, n)
  {
    hide ByteBits;
    ShrBound(x, n, m - n);
    ToBitsSplit(x, n, m - n);
    WindowSplit(s, e - m, n, m - n);
    var a, b := ToBits(x, n), ToBits(Shr(x, n), m - n);
    assert a == (a + b)[..n] && b == (a + b)[n..];
  }

  lemma WindowIsBuffer(s: seq<bool>, p: nat, m: nat, x: nat)
    requires 16 <= m && ToBits(x, m) == Window(s, p, m)
    ensures forall n: nat :: n <= 16 ==> Window(s, p, 16)[..n] == ToBits(x, n)
  {
    forall n: nat | n <= 16 ensures Window(s, p, 16)[..n] == ToBits(x, n) {
      WindowPrefix(s, p, n, 16);
      WindowPrefix(s, p, n, m);
      ToBitsSplit(x, n, m - n);
    }
  }

  // ----- table lookups

  lemma FastHit(lens: seq<nat>, cb: nat, v: nat, w: seq<bool>) returns (i: nat)
    requires |w| == 16 && FastEntry(lens, Low(cb, ZFAST_BITS), v) && v != 0 && |lens| <= ZNSYMS
    requires forall n: nat :: n <= 16 ==> w[..n] == ToBits(cb, n)
    ensures Matches(lens, i, w) && v == 512 * lens[i] + i && lens[i] <= ZFAST_BITS
  {
    i :| FastMatch(lens, i, Low(cb, ZFAST_BITS)) && v == 512 * lens[i] + i;
    FastIsMatch(lens, i, cb, w);
  }

  lemma FastMiss(lens: seq<nat>, cb: nat, w: seq<bool>)
    requires |w| == 16 && FastEntry(lens, Low(cb, ZFAST_BITS), 0)
    requires forall n: nat :: n <= 16 ==> w[..n] == ToBits(cb, n)
    ensures forall i: nat :: Matches(lens, i, w) ==> lens[i] > ZFAST_BITS
    ensures w == ToBits(cb, 16)
  {
    assert w == w[..16];
    forall i: nat | Matches(lens, i, w) ensures lens[i] > ZFAST_BITS {
      if lens[i] <= ZFAST_BITS { FastIsMatch(lens, i, cb, w); }
    }
  }

  /** Without a short code the window lies beyond all the short codes. */
  lemma NotCovered(lens: seq<nat>, w: seq<bool>)
    requires Fits(lens) && |w| == 16
    requires forall i: nat :: Matches(lens, i, w) ==> lens[i] > ZFAST_BITS
    ensures FromBits(Rev(w)) >= Covered(lens, ZFAST_BITS)
  {
    if FromBits(Rev(w)) < Covered(lens, ZFAST_BITS) { var i := ShortCode(lens, ZFAST_BITS, w); }
  }

  lemma NoneCovered(lens: seq<nat>, w: seq<bool>)
    requires Fits(lens) && ZLengths(lens) && |w| == 16
    requires FromBits(Rev(w)) >= Covered(lens, ZMAX_BITS)
    ensures forall i: nat :: !Matches(lens, i, w)
  {
    forall i: nat ensures !Matches(lens, i, w) {
      if Matches(lens, i, w) {
        MatchIsInterval(lens, i, w);
        CoveredMono(lens, lens[i], ZMAX_BITS);
      }
    }
  }

  lemma SlowHit(lens: seq<nat>, s: nat, w: seq<bool>) returns (i: nat)
    requires Fits(lens) && ZLengths(lens) && |w| == 16 && 1 <= s <= ZMAX_BITS
    requires Covered(lens, s - 1) <= FromBits(Rev(w)) < Covered(lens, s)
    ensures Matches(lens, i, w) && lens[i] == s
    ensures Shr(FromBits(Rev(w)), 16 - s) - First(lens, s) + Offset(lens, s) == Place(lens, i) < |lens|
    ensures First(lens, s) <= Shr(FromBits(Rev(w)), 16 - s)
  {
    i := SymbolOfInterval(lens, s, w);
    PlaceInRange(lens, i);
  }
}
