/** The entropy decoder of the JPEG reader: bit refill, Huffman decoding and signed magnitudes. */
module JpegReader {
  import opened Bits
  import opened Canonical
  import opened JpegBits
  import opened MsbFirst
  import opened JpegHuffman
  import opened JpegLookup
  import opened JpegStream
  import opened Wrappers
  import MsbRegister

  /** Reading from pos to after gave the next byte of the segment, or zero, or stopped at its end. */
  ghost predicate Delivered(data: seq<byte>, pos: nat, b: byte, stop: bool, after: nat) {
    var e := Entropy(data, pos);
    if stop then e == []
    else if e == [] then b == 0 && Entropy(data, after) == []
    else [b] + Entropy(data, after) == e
  }

  lemma Plain(data: seq<byte>, pos: nat, b: byte)
    requires pos <= |data| && b == if pos < |data| then data[pos] else 0
    ensures b != 0xFF ==> Delivered(data, pos, b, false, if pos < |data| then pos + 1 else pos)
  {
  }

  lemma FillStep(data: seq<byte>, pos: nat)
    ensures SkipFill(data, pos) == if pos < |data| && data[pos] == 0xFF then SkipFill(data, pos + 1) else pos
  {
  }

  /** A byte 0xFF and the fill bytes behind it. */
  lemma PastFill(data: seq<byte>, pos: nat, f: nat)
    requires pos < |data| && data[pos] == 0xFF && f == SkipFill(data, pos + 1)
    ensures if f < |data| && data[f] != 0 then Delivered(data, pos, 0xFF, true, f + 1)
            else Delivered(data, pos, 0xFF, false, if f < |data| then f + 1 else |data|)
  {
  }

  class Jpeg {
    const data: seq<byte>
    var pos: nat
    var code_buffer: nat
    var code_bits: int
    var marker: byte
    var nomore: bool
    var dc_pred: seq<int>

    /** The register never overflows, and runs short only when there is no more to read. */
    ghost predicate Live()
      reads this
    {
      code_buffer < Pow2(32) && code_bits <= 32 && pos <= |data| && (code_bits < 0 ==> nomore)
    }

    /** The reader has consumed p bits of the entropy-coded bytes bs. */
    ghost predicate At(bs: seq<byte>, p: nat)
      reads this
    {
      Loaded(MsbBits(bs), p, code_buffer, code_bits) && Supplied(bs, p + code_bits, data, pos, nomore)
    }

    /** It has taken more bits than there are, and what it takes from now on are zeros. */
    ghost predicate Beyond(bs: seq<byte>, p: nat)
      reads this
    {
      nomore && code_bits < 0 && code_buffer == 0 && p > 8 * |bs|
    }

    /** The reader stands at bit p of the bytes bs, with zeros behind them. */
    ghost predicate Stands(bs: seq<byte>, p: nat)
      reads this
    {
      At(bs, p) || Beyond(bs, p)
    }

    constructor (data: seq<byte>, pos: nat)
      requires pos <= |data|
      ensures Live() && At(Entropy(data, pos), 0) && this.data == data && dc_pred == [0, 0, 0, 0]
    {
      this.data, this.pos := data, pos;
      code_buffer, code_bits, marker, nomore, dc_pred := 0, 0, 0, false, [0, 0, 0, 0];
      MsbRegister.LoadedEmpty(MsbBits(Entropy(data, pos)), 0, 32);
      assert Entropy(data, pos)[0..] == Entropy(data, pos);
    }

    method Get8() returns (b: byte)
      requires pos <= |data|
      modifies `pos
      ensures pos == (if old(pos) < |data| then old(pos) + 1 else old(pos)) && b == if old(pos) < |data| then data[old(pos)] else 0
    {
      b := 0;
      if pos < |data| {
        b := data[pos];
        pos := pos + 1;
      }
    }

    /** c was read before pos, behind bytes 0xFF; the first other byte is at f. */
    ghost predicate AfterFill(c: byte, pos: nat, f: nat) {
      && pos <= |data|
      && if c == 0xFF then f == SkipFill(data, pos)
         else if f < |data| then c == data[f] && pos == f + 1
         else c == 0 && pos == |data|
    }

    /** The next byte of the segment, zeros past its end; stops once at a marker. */
    method NextEntropy() returns (b: byte, stop: bool)
      requires Live()
      modifies `pos, `marker, `nomore
      ensures Live() && (old(nomore) ==> !stop && b == 0 && nomore && pos == old(pos))
      ensures !old(nomore) ==> nomore == stop && Delivered(data, old(pos), b, stop, pos)
    {
      hide Entropy, SkipFill, Pow2, Delivered;
      b, stop := 0, false;
      if !nomore {
        b := Get8();
        Plain(data, old(pos), b);
      }
      if b == 0xFF {
        var c := Get8();
        FillStep(data, old(pos) + 1);
        while c == 0xFF
          invariant Live() && !nomore && AfterFill(c, pos, SkipFill(data, old(pos) + 1))
          decreases |data| - pos, c
        {
          FillStep(data, pos);
          c := Get8();
        }
        PastFill(data, old(pos), SkipFill(data, old(pos) + 1));
        if c != 0 {
          marker := c;
          nomore := true;
          return b, true;
        }
      }
    }

    /** Refills the register: afterwards it has more than 24 bits, or a marker was met. */
    method GrowBuffer(ghost bs: seq<byte>, ghost p: nat)
      requires Live() && code_bits <= 24
      modifies `pos, `marker, `nomore, `code_buffer, `code_bits
      ensures Live() && code_bits >= old(code_bits) && (code_bits > 24 || nomore)
      ensures old(Stands(bs, p)) ==> At(bs, p)
    {
      hide Loaded, Supplied, Pow2, Delivered, Or, Low, Shl, MsbBits, Window, BitsOf, Entropy;
      ghost var good := Stands(bs, p);
      var more := true;
      while more
        invariant Live() && code_bits >= old(code_bits) && (if more then code_bits <= 24 else code_bits > 24 || nomore)
        invariant good ==> At(bs, p) || (more && Beyond(bs, p))
        decreases 32 - code_bits, more
      {
        ghost var was, dry, at, behind := pos, nomore, p + code_bits, At(bs, p);
        var b, stop := NextEntropy();
        if good && behind { SupplyStep(bs, at, data, was, b, stop, dry, pos, nomore); }
        if stop { return; }
        if good && behind { LoadByte(MsbBits(bs), p, code_buffer, code_bits, b); }
        if good && !behind { LoadZero(bs, p, code_bits, data, pos); }
        RefillWord(code_buffer, b, code_bits);
        code_buffer := Or(code_buffer, Low(Shl(b, 24 - code_bits), 32));
        code_bits := code_bits + 8;
        more := code_bits <= 24;
      }
    }

    /** Takes m bits off the front of the register. */
    method Drop(m: nat, ghost bs: seq<byte>, ghost p: nat)
      requires Live() && m <= 16 && (code_bits < m ==> nomore)
      modifies `code_buffer, `code_bits
      ensures Live() && code_bits == old(code_bits) - m
      ensures old(At(bs, p)) ==> Stands(bs, p + m)
    {
      hide Loaded, Supplied, Low, Shl, Pow2, MsbBits;
      if At(bs, p) {
        if m <= code_bits { ShiftLoaded(MsbBits(bs), p, code_buffer, code_bits, m); }
        else { TakeRest(bs, p, code_buffer, code_bits, m, data, pos); }
      }
      LowBound(Shl(code_buffer, m), 32);
      code_buffer := Low(Shl(code_buffer, m), 32);
      code_bits := code_bits - m;
    }

    /** What decoding gives where the stream says y: the symbol; or -1, if there is none or fewer bits are
        left than its code has. */
    ghost predicate Decoded(y: Option<SymbolRead>, bs: seq<byte>, p: nat, t: int)
      reads this
    {
      if t == -1 then y.None? || (At(bs, p) && code_bits < y.value.n && 8 * |bs| < p + y.value.n)
      else y.Some? && t == y.value.v && At(bs, p + y.value.n)
    }

    /** Decodes the symbol whose code comes next. */
    method HuffDecode(h: Huffman, ghost lens: seq<nat>, ghost bs: seq<byte>, ghost p: nat) returns (t: int)
      requires Live() && h.Built(lens)
      modifies `pos, `marker, `nomore, `code_buffer, `code_bits
      ensures Live() && -1 <= t < 256
      ensures old(Stands(bs, p)) ==> Decoded(ReadSymbol(lens, h.values, Window(MsbBits(bs), p, 16)), bs, p, t)
    {
      hide Fits, Matches, Covered, Sorted, Pow2, Shr, Loaded, Supplied, MsbBits, Top, FastSoFar, Offset, First, Window,
        BlindIndex, NumberAt;
      if code_bits < 16 { GrowBuffer(bs, p); }
      if At(bs, p) {
        TopNow(bs, p, code_buffer, code_bits, data, pos, nomore);
        ShortRegister(bs, p, code_buffer, code_bits, data, pos, nomore);
      }
      ghost var w := Top(code_buffer);
      assert At(bs, p) ==> w == Window(MsbBits(bs), p, 16);
      TopIs(code_buffer);
      WindowIndex(w);
      var c := Shr(code_buffer, 32 - FAST_BITS);
      assert FastSoFar(lens, |lens|, c, h.fast[c]);
      var k: nat := h.fast[c];
      if k < 255 {
        FastHit(lens, w, k);
        Numbered(lens, k, w);
        var s := h.size[k];
        assert h.size[..|lens|][k] == h.size[k];
        if s > code_bits { return -1; }
        Drop(s, bs, p);
        return h.values[k];
      }
      FastMiss(lens, w);
      t := HuffSearch(h, lens, bs, p, w);
    }

    /** The search by length, from ten bits on. */
    method HuffSearch(h: Huffman, ghost lens: seq<nat>, ghost bs: seq<byte>, ghost p: nat, ghost w: seq<bool>)
        returns (t: int)
      requires Live() && h.Built(lens) && (code_bits < 16 ==> nomore) && w == Top(code_buffer)
      requires if Blind(lens, NOT_FAST) && Matches(lens, NOT_FAST, w) then true else Covered(lens, FAST_BITS) <= Value(w)
      requires At(bs, p) ==> code_bits >= 16 || 8 * |bs| <= p + code_bits
      modifies `code_buffer, `code_bits
      ensures Live() && -1 <= t < 256
      ensures old(At(bs, p)) ==> Decoded(ReadSymbol(lens, h.values, w), bs, p, t)
    {
      hide Fits, Matches, Covered, Sorted, Pow2, Shr, Loaded, Supplied, MsbBits, Top, FastSoFar, Offset, First, BlindIndex,
        NumberAt;
      TopIs(code_buffer);
      WindowIndex(w);
      ghost var blind := Blind(lens, NOT_FAST) && Matches(lens, NOT_FAST, w);
      if blind { BlindFound(lens, w); }
      var temp := Shr(code_buffer, 16);
      var k := FAST_BITS + 1;
      while temp >= h.maxcode[k]
        invariant FAST_BITS + 1 <= k <= 17 && if blind then k == 10 else Covered(lens, k - 1) <= temp
        decreases 17 - k
      {
        k := k + 1;
      }
      if k == 17 {
        SlowMiss(lens, w);
        code_bits := code_bits - 16;
        return -1;
      }
      if !blind { SlowHit(lens, k, w); }
      ShrTwice(code_buffer, 16, 16 - k);
      var c := Shr(code_buffer, 32 - k) + h.delta[k];
      Numbered(lens, if blind then NOT_FAST else c, w);
      if k > code_bits { return -1; }
      Drop(k, bs, p);
      return h.values[c];
    }

    /** RECEIVE and EXTEND of section F.2.2.1: n magnitude bits and the value they stand for. */
    method ExtendReceive(n: nat, ghost bs: seq<byte>, ghost p: nat) returns (r: int)
      requires Live() && 1 <= n <= 15
      modifies `pos, `marker, `nomore, `code_buffer, `code_bits
      ensures Live()
      ensures old(Stands(bs, p)) ==> r == Extend(Window(MsbBits(bs), p, n)) && Stands(bs, p + n)
    {
      hide Pow2, Shr, Low, Shl, Loaded, Supplied, MsbBits, Window, Extend;
      if code_bits < n { GrowBuffer(bs, p); }
      if At(bs, p) {
        if n > code_bits { TakeRest(bs, p, code_buffer, code_bits, n, data, pos); }
        Received(MsbBits(bs), p, code_buffer, if n > code_bits then n else code_bits, n);
      }
      var sgn := Shr(code_buffer, 31);
      var k := Or(Low(Shl(code_buffer, n), 32), Shr(code_buffer, 32 - n));
      Rotated(code_buffer, n);
      code_buffer := k - Low(k, n);
      k := Low(k, n);
      code_bits := code_bits - n;
      r := if sgn == 1 then k else k + 1 - Pow2(n);
    }
  }

  /** Reading the next byte keeps the books, and is the byte of the stream. */
  lemma SupplyStep(bs: seq<byte>, at: int, data: seq<byte>, pos: nat, b: byte, stop: bool, before: bool, pos': nat, after: bool)
    requires Supplied(bs, at, data, pos, before)
    requires before ==> !stop && b == 0 && after
    requires !before ==> after == stop && Delivered(data, pos, b, stop, pos')
    ensures stop ==> Supplied(bs, at, data, pos', after)
    ensures !stop ==> Supplied(bs, at + 8, data, pos', after) && Window(MsbBits(bs), at, 8) == BitsOf(b, 8)
  {
    hide MsbBits, BitsOf, Window, Entropy;
    if !before && !stop && Entropy(data, pos) != [] {
      assert Entropy(data, pos') == Entropy(data, pos)[1..];
    }
    if !stop { MsbRegister.NextByte(bs, at, b); }
  }

  lemma RefillWord(x: nat, b: byte, n: int)
    requires x < Pow2(32) && n <= 24
    ensures Or(x, Low(Shl(b, 24 - n), 32)) < Pow2(32)
  {
    LowBound(Shl(b, 24 - n), 32);
    OrBound(x, Low(Shl(b, 24 - n), 32), 32);
  }

  /** The register's first 16 bits, when they are all that can be had. */
  lemma TopNow(bs: seq<byte>, p: nat, x: nat, n: int, data: seq<byte>, pos: nat, nomore: bool)
    requires Loaded(MsbBits(bs), p, x, n) && Supplied(bs, p + n, data, pos, nomore) && (n >= 16 || nomore)
    ensures Top(x) == Window(MsbBits(bs), p, 16)
    ensures n < 16 ==> 8 * |bs| <= p + n
  {
    hide MsbBits, Window, Loaded, Top, Entropy;
    var s := MsbBits(bs);
    assert |s| == 8 * |bs|;
    NoneLeft(bs, p + n, data, pos, nomore);
    Width(s, p, x, n);
    TopLoaded(s, p, x, n);
  }

  /** With fewer than 16 bits in the register nothing is left outside. */
  lemma ShortRegister(bs: seq<byte>, p: nat, x: nat, n: int, data: seq<byte>, pos: nat, nomore: bool)
    requires Loaded(MsbBits(bs), p, x, n) && Supplied(bs, p + n, data, pos, nomore) && (n >= 16 || nomore)
    ensures n >= 0 && (n < 16 ==> 8 * |bs| <= p + n)
  {
    hide MsbBits, Loaded, Entropy;
    NoneLeft(bs, p + n, data, pos, nomore);
    Width(MsbBits(bs), p, x, n);
  }

  lemma Width(s: seq<bool>, p: nat, x: nat, n: int)
    requires Loaded(s, p, x, n)
    ensures 0 <= n <= 32
  {
  }

  /** Zeros go on behind zeros. */
  lemma LoadZero(bs: seq<byte>, p: nat, n: int, data: seq<byte>, pos: nat)
    requires p > 8 * |bs| && n < 0
    ensures Or(0, Low(Shl(0, 24 - n), 32)) == 0
    ensures n + 8 >= 0 ==> Loaded(MsbBits(bs), p, 0, n + 8) && Supplied(bs, p + n + 8, data, pos, true)
  {
    hide MsbBits, MsbRegister.Loaded, Or, Low;
    ShlZero(24 - n);
    LowSmall(0, 32);
    OrZero();
    if n + 8 >= 0 {
      MsbRegister.LoadedEmpty(MsbBits(bs), p, 32);
      MsbRegister.LoadedPast(MsbBits(bs), p, 0, 0, n + 8, 32);
    }
  }

  lemma OrZero()
    ensures Or(0, 0) == 0
  {
  }

  /** Taking more than the register has takes the zeros behind the end, and leaves nothing. */
  lemma TakeRest(bs: seq<byte>, p: nat, x: nat, n: int, m: nat, data: seq<byte>, pos: nat)
    requires Loaded(MsbBits(bs), p, x, n) && Supplied(bs, p + n, data, pos, true) && n < m <= 16
    ensures Loaded(MsbBits(bs), p, x, m) && Low(Shl(x, m), 32) == 0 && p + m > 8 * |bs|
  {
    hide MsbBits, MsbRegister.Loaded, Low, Shl;
    Width(MsbBits(bs), p, x, n);
    MsbRegister.LoadedPast(MsbBits(bs), p, x, n, m, 32);
    ShiftLoaded(MsbBits(bs), p, x, m, m);
    NothingLoaded(MsbBits(bs), p + m, Low(Shl(x, m), 32));
  }

  lemma NothingLoaded(s: seq<bool>, p: nat, x: nat)
    requires Loaded(s, p, x, 0)
    ensures x == 0
  {
    hide Value;
    assert Window(s, p, 0) + Zeros(32) == Zeros(32);
    ValueZeros(32);
  }

  /** The first m bits and their value; the rest moves up. */
  lemma Received(s: seq<bool>, p: nat, x: nat, n: int, m: nat)
    requires Loaded(s, p, x, n) && 1 <= m <= n
    ensures m <= 32 && Loaded(s, p + m, Low(Shl(x, m), 32), n - m)
    ensures var k := Shr(x, 32 - m);
      Extend(Window(s, p, m)) == if Shr(x, 31) == 1 then k else k + 1 - Pow2(m)
  {
    hide Loaded, Value, Window, Low, Shl, Shr, Pow2;
    Width(s, p, x, n);
    ShiftLoaded(s, p, x, n, m);
    SignBit(Window(s, p, m));
    ShrTwice(x, 32 - m, m - 1);
  }

  lemma NoneLeft(bs: seq<byte>, at: int, data: seq<byte>, pos: nat, nomore: bool)
    requires Supplied(bs, at, data, pos, nomore)
    ensures nomore ==> at >= 8 * |bs|
  {
  }

  lemma SignBit(w: seq<bool>)
    requires w != []
    ensures Shr(Value(w), |w| - 1) == if w[0] then 1 else 0
  {
    hide Value, Shr;
    assert w == [w[0]] + w[1..];
    ValueSplit([w[0]], w[1..]);
    OneBit(w[0]);
  }

  /** Rotating left by n brings the first n bits to the end. */
  lemma Rotated(x: nat, n: nat)
    requires x < Pow2(32) && n <= 32
    ensures var k := Or(Low(Shl(x, n), 32), Shr(x, 32 - n));
      Low(k, n) == Shr(x, 32 - n) && k - Low(k, n) == Low(Shl(x, n), 32) < Pow2(32)
  {
    hide Value, Or, Low, Shl, Shr, Pow2, BitsOf;
    var w := BitsOf(x, 32);
    var a, b := w[..n], w[n..];
    assert w == a + b;
    ValueOfBits(x, 32);
    ValueSplit(a, b);
    ShiftOut(a, b);
    ValueAppend(b, Zeros(n));
    ValueZeros(n);
    ValueBound(a);
    OrIsAdd(Value(a), n, Value(b));
    HighLow(Value(b), Value(a), n);
    LowBound(Shl(x, n), 32);
  }

  lemma WindowIndex(w: seq<bool>)
    requires |w| == 16
    ensures Shr(Value(w), 7) < FAST_SIZE && Value(w) < 0xFFFF_FFFF
  {
    ValueBound(w);
    Pow2Values();
    ShrBound(Value(w), 7, 9);
  }
}
