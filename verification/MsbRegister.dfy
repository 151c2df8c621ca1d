/** A register of w bits on a bit stream, most significant bit first: refilled behind the bits that are
    there, emptied from the front. */
module MsbRegister {
  import opened Bits
  import opened MsbFirst

  /** The n bits of s from position p on, as a number; zeros follow the end of s. */
  function Msb(s: seq<bool>, p: nat, n: nat): nat {
    Value(Window(s, p, n))
  }

  /** The register holds the n bits of s from position p on, left-justified. */
  ghost predicate Loaded(s: seq<bool>, p: nat, x: nat, n: int, w: nat) {
    0 <= n <= w && x == Value(Window(s, p, n) + Zeros(w - n))
  }

  lemma LoadedBound(s: seq<bool>, p: nat, x: nat, n: int, w: nat)
    requires Loaded(s, p, x, n, w)
    ensures 0 <= n <= w && x < Pow2(w)
  {
    ValueBound(Window(s, p, n) + Zeros(w - n));
  }

  lemma LoadedEmpty(s: seq<bool>, p: nat, w: nat)
    ensures Loaded(s, p, 0, 0, w)
  {
    ValueZeros(w);
    assert Window(s, p, 0) + Zeros(w) == Zeros(w);
  }

  /** Past the end of the stream, zeros are as good as read. */
  lemma LoadedPast(s: seq<bool>, p: nat, x: nat, n: int, m: nat, w: nat)
    requires Loaded(s, p, x, n, w) && p + n >= |s| && n <= m <= w
    ensures Loaded(s, p, x, m, w)
  {
    hide Value, Window, Zeros;
    WindowSplit(s, p, n, m - n);
    WindowPast(s, p + n, m - n);
    ZerosJoin(m - n, w - m);
    Regroup(Window(s, p, n), Zeros(m - n), Zeros(w - m));
  }

  /** A byte more behind the bits that are there. */
  lemma LoadByte(s: seq<bool>, p: nat, x: nat, n: int, b: byte, w: nat)
    requires Loaded(s, p, x, n, w) && n + 8 <= w && Window(s, p + n, 8) == BitsOf(b, 8)
    ensures Shl(b, w - 8 - n) < Pow2(w) && Loaded(s, p, Or(x, Shl(b, w - 8 - n)), n + 8, w)
  {
    hide Value, BitsOf, Window, Zeros, Or, Shl, Pow2;
    WindowSplit(s, p, n, 8);
    OrBehind(Window(s, p, n), BitsOf(b, 8), w - 8 - n);
    ByteValue(b);
    ShlBound(b, 8, w - 8 - n);
    Pow2Mono(w - 8 - n + 8, w);
  }

  lemma ByteValue(b: byte)
    ensures Value(BitsOf(b, 8)) == b && b < Pow2(8)
  {
    Pow2Values();
    ValueOfBits(b, 8);
  }

  /** The first m bits are the top of the word, and shifting them out moves on by as many. */
  lemma ShiftLoaded(s: seq<bool>, p: nat, x: nat, n: int, m: nat, w: nat)
    requires Loaded(s, p, x, n, w) && m <= n
    ensures Loaded(s, p + m, Low(Shl(x, m), w), n - m, w)
    ensures Shr(x, w - m) == Msb(s, p, m)
  {
    hide Value, Window, Zeros, Low, Shl, Shr;
    var a, b, z := Window(s, p, m), Window(s, p + m, n - m), Zeros(w - n);
    WindowSplit(s, p, m, n - m);
    Regroup(a, b, z);
    ShiftOut(a, b + z);
    ValueSplit(a, b + z);
    ZerosJoin(w - n, m);
    Regroup(b, z, Zeros(m));
  }

  lemma ZerosJoin(m: nat, n: nat)
    ensures Zeros(m) + Zeros(n) == Zeros(m + n)
  {
  }

  /** The byte at a byte boundary; zeros past the end. */
  lemma NextByte(bs: seq<byte>, at: nat, b: byte)
    requires at < 8 * |bs| ==> at % 8 == 0 && b == bs[at / 8]
    requires at >= 8 * |bs| ==> b == 0
    ensures Window(MsbBits(bs), at, 8) == BitsOf(b, 8)
  {
    hide MsbBits, BitsOf, Window;
    if at >= 8 * |bs| {
      WindowPast(MsbBits(bs), at, 8);
      ZeroBits(8);
    } else {
      MsbWindow(bs, at / 8);
    }
  }
}
