/** The decoder's last bytes are read from a copy; it succeeds exactly when the two streams meet. */
module TansEnd {
  import opened Bits
  import opened TansStream
  import opened Words
  import opened TansDecode
  import opened TansTail
  import opened TansFinish

  // ----- from the buffer to the copy, one lane

  lemma {:induction false} OrAtLeast(x: nat, y: nat)
    ensures Or(x, y) >= x && Or(x, y) >= y
  {
    if x != 0 && y != 0 { OrAtLeast(x / 2, y / 2); }
  }

  lemma OrShlBit(bits: nat, x: nat, k: nat, j: nat)
    requires j < 32
    ensures Bit(Or(bits, Low(Shl(x, k), 32)), j) == (Bit(bits, j) || (j >= k && Bit(x, j - k)))
  {
    hide Bit, Or, Low, Shl;
    BitOr(bits, Low(Shl(x, k), 32), j);
    BitLow(Shl(x, k), 32, j);
    BitShl(x, k, j);
  }

  /** What the next refill from the copy makes of the bit buffer. */
  ghost function Refilled(bits: nat, w: seq<bool>, p: nat, bitc: nat): nat {
    Or(bits, Low(Shl(Field(w, p, 32), bitc), 32))
  }

  /** The copy's stream with the bits that are already in the buffer. */
  ghost function Stale(w: seq<bool>, pos: nat, z: nat): (s: seq<bool>) {
    seq(if |w| > pos + 32 then |w| else pos + 32, i requires i >= 0 => if pos <= i < pos + 32 then Bit(z, i - pos) else BitAt(w, i))
  }

  lemma StaleAt(w: seq<bool>, pos: nat, z: nat, i: nat)
    ensures BitAt(Stale(w, pos, z), i) == if pos <= i < pos + 32 then Bit(z, i - pos) else BitAt(w, i)
  {
  }

  lemma RefilledBit(s: seq<bool>, pos: nat, w: seq<bool>, p: nat, bits: nat, bitc: nat, j: nat)
    requires j < 32
    ensures Bit(Refilled(bits, w, p, bitc), j) == (Bit(bits, j) || (j >= bitc && BitAt(w, p + (j - bitc))))
  {
    hide Bit, Or, Low, Shl, Field;
    OrShlBit(bits, Field(w, p, 32), bitc, j);
    if j >= bitc { FieldBit(w, p, 32, j - bitc); }
  }

  /** The bits already there are those of the stream. */
  lemma LooseBit(v: seq<bool>, pos: nat, bits: nat, bitc: nat, ptr: nat, j: nat)
    requires Loose(v, v, pos, bits, bitc, ptr) && bitc < 32 && j < 32
    ensures Bit(bits, j) || j >= bitc ==> (Bit(bits, j) || BitAt(v, pos + j)) == BitAt(v, pos + j)
    ensures j < bitc ==> Bit(bits, j) == BitAt(v, pos + j)
  {
    hide Bit, Field;
    RefilledBit(v, pos, v, 8 * ptr, bits, bitc, j);
    FieldBit(v, pos, 32, j);
  }

  lemma LaneSwitch(v: seq<bool>, w: seq<bool>, pos: nat, bits: nat, bitc: nat, ptr: nat, fl: nat, n: nat) returns (s: seq<bool>)
    requires Loose(v, v, pos, bits, bitc, ptr) && bitc <= 8 * fl && bitc < 32 && fl <= ptr && fl <= n
    requires Agree(w, v, 8 * (ptr - fl), 8 * n)
    ensures var upos := 8 * fl - bitc;
      && pos == 8 * (ptr - fl) + upos
      && Loose(s, w, upos, bits, bitc, fl) && Covers(s, w, upos + 32) && Agree(s, v, 8 * (ptr - fl), 8 * n)
  {
    hide Bit, Field, Or, Low, Shl;
    var k, upos := 8 * (ptr - fl), 8 * fl - bitc;
    var z := Refilled(bits, w, 8 * fl, bitc);
    s := Stale(w, upos, z);
    forall i | 0 <= i
      ensures BitAt(w, i) ==> BitAt(s, i)
      ensures i < 8 * n ==> BitAt(s, i) == BitAt(v, k + i)
      ensures i >= upos + 32 ==> BitAt(s, i) == BitAt(w, i)
    {
      StaleAt(w, upos, z, i);
      if i < 8 * n { assert BitAt(w, i) == BitAt(v, k + i); }
      if upos <= i < upos + 32 {
        var j := i - upos;
        RefilledBit(v, pos, w, 8 * fl, bits, bitc, j);
        LooseBit(v, pos, bits, bitc, ptr, j);
        assert pos + j == k + i;
        if j >= bitc { assert 8 * fl + (j - bitc) == i; }
      }
    }
    RefilledIsField(v, w, pos, bits, bitc, ptr, upos, 8 * fl);
  }

  lemma RefilledIsField(v: seq<bool>, w: seq<bool>, pos: nat, bits: nat, bitc: nat, ptr: nat, upos: nat, p: nat)
    requires Loose(v, v, pos, bits, bitc, ptr)
    ensures var z := Refilled(bits, w, p, bitc); z == Field(Stale(w, upos, z), upos, 32)
  {
    hide Bit, Field, Or, Low, Shl, ToBits, Pow2;
    var z := Refilled(bits, w, p, bitc);
    var s := Stale(w, upos, z);
    FieldBound(v, pos, 32);
    OrAtLeast(bits, Low(Shl(Field(v, 8 * ptr, 32), bitc), 32));
    LowBound(Shl(Field(w, p, 32), bitc), 32);
    OrBound(bits, Low(Shl(Field(w, p, 32), bitc), 32), 32);
    FieldBound(s, upos, 32);
    forall j | 0 <= j < 32 ensures ToBits(z, 32)[j] == ToBits(Field(s, upos, 32), 32)[j] {
      ToBitsAt(z, 32, j);
      ToBitsAt(Field(s, upos, 32), 32, j);
      FieldBit(s, upos, 32, j);
      StaleAt(w, upos, z, upos + j);
    }
    ToBitsInjective(z, Field(s, upos, 32), 32);
  }

  /** Giving back the bytes that are not begun. */
  lemma GiveBack(v: seq<bool>, pos: nat, bits: nat, bitc: nat, ptr: nat)
    requires Loose(v, v, pos, bits, bitc, ptr) && bitc < 32
    ensures ptr >= bitc / 8 && Loose(v, v, pos, bits, bitc % 8, ptr - bitc / 8)
  {
    hide Bit, Field, Or, Low, Shl, ToBits, Pow2, BitAt;
    var p := 8 * (ptr - bitc / 8);
    var z := Refilled(bits, v, p, bitc % 8);
    FieldBound(v, pos, 32);
    OrAtLeast(bits, Low(Shl(Field(v, 8 * ptr, 32), bitc), 32));
    LowBound(Shl(Field(v, p, 32), bitc % 8), 32);
    OrBound(bits, Low(Shl(Field(v, p, 32), bitc % 8), 32), 32);
    forall j | 0 <= j < 32 ensures ToBits(z, 32)[j] == ToBits(Field(v, pos, 32), 32)[j] {
      ToBitsAt(z, 32, j);
      ToBitsAt(Field(v, pos, 32), 32, j);
      FieldBit(v, pos, 32, j);
      RefilledBit(v, pos, v, p, bits, bitc % 8, j);
      LooseBit(v, pos, bits, bitc, ptr, j);
      if j >= bitc % 8 { assert p + (j - bitc % 8) == pos + j; }
    }
    ToBitsInjective(z, Field(v, pos, 32), 32);
  }

  // ----- the copy of the last bytes

  const TAIL_SIZE := 32

  /** The bytes from in0 up to in1, at either end of the stack buffer. */
  function TailBuffer(comp: seq<byte>, in0: nat, in1: nat, stack: seq<byte>): (tail: seq<byte>)
    requires in0 <= in1 <= |comp| && in1 - in0 <= 15 && |stack| == TAIL_SIZE
    ensures |tail| == TAIL_SIZE && tail[..in1 - in0] == comp[in0..in1] == tail[TAIL_SIZE - (in1 - in0)..]
  {
    var left := in1 - in0;
    var front := comp[in0..in0 + left] + stack[left..];
    front[..TAIL_SIZE - left] + comp[in1 - left..in1]
  }

  /** The byte the forward stream is in the middle of, and that of the backward stream. */
  ghost function Lead(comp: seq<byte>, in0: nat, bitc: nat): seq<byte>
    requires in0 <= |comp| && (bitc > 0 ==> in0 > 0)
  {
    if bitc > 0 then [comp[in0 - 1]] else []
  }

  ghost function Trail(comp: seq<byte>, in1: nat, bitc: nat): seq<byte>
    requires in1 <= |comp| && (bitc > 0 ==> in1 < |comp|)
  {
    if bitc > 0 then [comp[in1]] else []
  }

  lemma LeadAgrees(comp: seq<byte>, in0: nat, in1: nat, bitc: nat, tail: seq<byte>, g: seq<byte>)
    requires in0 <= in1 <= |comp| && (bitc > 0 ==> in0 > 0)
    requires in1 - in0 <= |tail| && tail[..in1 - in0] == comp[in0..in1]
    ensures var f := Lead(comp, in0, bitc);
      Agree(Forward(f + tail + g), Forward(comp), 8 * (in0 - |f|), 8 * (|f| + (in1 - in0)))
  {
    var f, left := Lead(comp, in0, bitc), in1 - in0;
    var whole := f + tail + g;
    forall i | 0 <= i < |f| + left ensures whole[i] == comp[in0 - |f| + i] {
      if i >= |f| { assert tail[..left][i - |f|] == comp[in0..in1][i - |f|]; }
    }
    SameBytes(whole, comp, in0 - |f|, |f| + left);
  }

  lemma TailByte(tail: seq<byte>, part: seq<byte>, j: nat)
    requires j < |part| <= |tail| && tail[|tail| - |part|..] == part
    ensures tail[|tail| - |part| + j] == part[j]
  {
    assert tail[|tail| - |part|..][j] == part[j];
  }

  lemma TrailAgrees(comp: seq<byte>, in0: nat, in1: nat, bitc: nat, tail: seq<byte>, f: seq<byte>)
    requires in0 <= in1 <= |comp| && (bitc > 0 ==> in1 < |comp|)
    requires in1 - in0 <= |tail| && tail[|tail| - (in1 - in0)..] == comp[in0..in1]
    ensures var g := Trail(comp, in1, bitc);
      Agree(Backward(f + tail + g), Backward(comp), 8 * (|comp| - in1 - |g|), 8 * ((in1 - in0) + |g|))
  {
    hide Agree;
    var g, left := Trail(comp, in1, bitc), in1 - in0;
    var whole, k := f + tail + g, |comp| - in1 - |g|;
    forall i | 0 <= i < left + |g| ensures Rev(whole)[i] == Rev(comp)[k + i] {
      assert Rev(whole)[i] == whole[|whole| - 1 - i];
      assert Rev(comp)[k + i] == comp[in1 + |g| - 1 - i];
      if i >= |g| { TailByte(tail, comp[in0..in1], left - 1 - (i - |g|)); }
    }
    SameBytes(Rev(whole), Rev(comp), k, left + |g|);
  }
}
