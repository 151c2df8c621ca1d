/** Bit buffers that are topped up by ORing in a whole word, whether or not its bits are there
    already. */
module TansStream {
  import opened Bits
  import opened Words

  /** Every one of v is one of s, and from position e on they are the same. */
  ghost predicate Covers(s: seq<bool>, v: seq<bool>, e: nat) {
    && (forall i :: BitAt(v, i) ==> BitAt(s, i))
    && (forall i :: i >= e ==> BitAt(s, i) == BitAt(v, i))
  }

  /** ORing the next w bits of v in above the first k changes none of the m bits that are there,
      m >= k, and fills the word. */
  lemma OrOver(s: seq<bool>, v: seq<bool>, e: nat, p: nat, m: nat, k: nat, w: nat)
    requires k <= m <= w && Covers(s, v, e) && e <= p + m
    ensures Or(Field(s, p, m), Low(Shl(Field(v, p + k, w), k), w)) == Field(s, p, w)
  {
    hide Covers;
    var x, y, z := Field(s, p, m), Low(Shl(Field(v, p + k, w), k), w), Field(s, p, w);
    FieldBound(s, p, m);
    FieldBound(s, p, w);
    Pow2Mono(m, w);
    LowBound(Shl(Field(v, p + k, w), k), w);
    OrBound(x, y, w);
    forall i | 0 <= i < w ensures ToBits(Or(x, y), w)[i] == ToBits(z, w)[i] {
      ToBitsAt(Or(x, y), w, i);
      ToBitsAt(z, w, i);
      OrOverBit(s, v, e, p, m, k, w, i);
    }
    ToBitsInjective(Or(x, y), z, w);
  }

  lemma OrOverBit(s: seq<bool>, v: seq<bool>, e: nat, p: nat, m: nat, k: nat, w: nat, i: nat)
    requires k <= m <= w && i < w && Covers(s, v, e) && e <= p + m
    ensures Bit(Or(Field(s, p, m), Low(Shl(Field(v, p + k, w), k), w)), i) == Bit(Field(s, p, w), i)
  {
    hide Bit, Or, Low, Shl, Field, BitAt;
    var x := Field(v, p + k, w);
    BitOr(Field(s, p, m), Low(Shl(x, k), w), i);
    BitLow(Shl(x, k), w, i);
    BitShl(x, k, i);
    FieldBit(s, p, m, i);
    FieldBit(s, p, w, i);
    if i >= k {
      FieldBit(v, p + k, w, i - k);
      assert p + k + (i - k) == p + i;
      assert BitAt(v, p + i) ==> BitAt(s, p + i);
    }
  }

  // ----- one lane: a bit buffer over one of the streams

  /** Bit 0 of the buffer is bit pos of the stream; m bits are there, bitc of them accounted for, and
      the next byte to read is byte number ptr. */
  ghost predicate LaneAt(s: seq<bool>, pos: nat, m: nat, w: nat, bits: nat, bitc: nat, ptr: nat) {
    bitc <= m <= w && bits == Field(s, pos, m) && 8 * ptr == pos + bitc
  }

  /** x | 56 and x | 24, for bit counts within the word. */
  lemma OrTop(x: nat, w: nat)
    requires (w == 64 || w == 32) && x < w
    ensures Or(x, w - 8) == w - 8 + x % 8
  {
    hide Or;
    OrEighths(x, w - 8);
    if w == 64 { OrSeven(x / 8); } else { OrThree(x / 8); }
  }

  lemma OrSeven(k: nat)
    requires k < 8
    ensures Or(k, 7) == 7
  {
    if k >= 4 { assert Or(k / 4, 1) == 1; } else { assert Or(k / 4, 1) == 1; }
  }

  lemma OrThree(k: nat)
    requires k < 4
    ensures Or(k, 3) == 3
  {
  }

  lemma OrEighths(x: nat, y: nat)
    requires y % 8 == 0
    ensures Or(x, y) == x % 8 + 8 * Or(x / 8, y / 8)
  {
    hide Or;
    OrHalf(x, y);
    OrHalf(x / 2, y / 2);
    OrHalf(x / 4, y / 4);
    assert x / 2 / 2 == x / 4 && x / 4 / 2 == x / 8 && y / 2 / 2 == y / 4 && y / 4 / 2 == y / 8;
  }

  lemma OrHalf(x: nat, y: nat)
    requires y % 2 == 0
    ensures Or(x, y) == x % 2 + 2 * Or(x / 2, y / 2)
  {
  }

  /** The refill: bits |= word << bitc; ptr += (w - 1 - bitc) >> 3; bitc |= w - 8. */
  lemma Refill(s: seq<bool>, v: seq<bool>, e: nat, pos: nat, m: nat, w: nat, bits: nat, bitc: nat, ptr: nat, word: nat)
    requires w == 64 || w == 32
    requires LaneAt(s, pos, m, w, bits, bitc, ptr) && bitc < w
    requires word == Field(v, 8 * ptr, w) && Covers(s, v, e) && e <= pos + m
    ensures LaneAt(s, pos, w, w, Or(bits, Low(Shl(word, bitc), w)), Or(bitc, w - 8), ptr + (w - 1 - bitc) / 8)
    ensures w - 8 <= Or(bitc, w - 8) < w
  {
    hide Field, Or, Low, Shl, Covers;
    OrOver(s, v, e, pos, m, bitc, w);
    OrTop(bitc, w);
  }

  /** Taking a field from the buffer. */
  lemma Take(s: seq<bool>, pos: nat, m: nat, w: nat, bits: nat, bitc: nat, ptr: nat, len: nat)
    requires LaneAt(s, pos, m, w, bits, bitc, ptr) && len <= bitc
    ensures And(bits, Pow2(len) - 1) == Field(s, pos, len)
    ensures LaneAt(s, pos + len, m - len, w, Shr(bits, len), bitc - len, ptr)
  {
    hide Field, And, Low, Shr;
    AndMask(bits, len);
    FieldSplit(s, pos, len, m - len);
  }

  /** Giving back the bytes that are not begun. */
  lemma Rewind(s: seq<bool>, pos: nat, m: nat, w: nat, bits: nat, bitc: nat, ptr: nat)
    requires LaneAt(s, pos, m, w, bits, bitc, ptr)
    ensures ptr >= bitc / 8 && LaneAt(s, pos, m, w, bits, bitc % 8, ptr - bitc / 8)
    ensures pos <= 8 * (ptr - bitc / 8) < pos + 8
  {
  }

  /** Cutting the buffer to a shorter word. */
  lemma Truncate(s: seq<bool>, pos: nat, m: nat, w: nat, bits: nat, bitc: nat, ptr: nat, v: nat)
    requires LaneAt(s, pos, m, w, bits, bitc, ptr) && bitc <= v <= w
    ensures LaneAt(s, pos, if m < v then m else v, v, Low(bits, v), bitc, ptr)
  {
    hide Field, Low;
    if m < v {
      FieldBound(s, pos, m);
      Pow2Mono(m, v);
      LowSmall(bits, v);
    } else {
      FieldSplit(s, pos, v, m - v);
    }
  }
}
