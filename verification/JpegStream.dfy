/** The decoder's 32-bit window on the entropy-coded bits. */
module JpegStream {
  import opened Bits
  import opened JpegBits
  import opened MsbFirst
  import opened JpegLookup
  import MsbRegister

  /** The register holds the n bits of s from position p on, left-justified. */
  ghost predicate Loaded(s: seq<bool>, p: nat, x: nat, n: int) {
    MsbRegister.Loaded(s, p, x, n, 32)
  }

  /** What is left of the segment's bytes after k of them; zeros follow, not bytes. */
  function Rest(bs: seq<byte>, k: nat): seq<byte> {
    if k <= |bs| then bs[k..] else []
  }

  /** Where the unread data stand when the first `at` bits have been read; past the marker, all of them. */
  ghost predicate Supplied(bs: seq<byte>, at: int, data: seq<byte>, pos: nat, nomore: bool) {
    if nomore then at >= 8 * |bs|
    else at >= 0 && at % 8 == 0 && Entropy(data, pos) == Rest(bs, at / 8)
  }

  /** The word's first 16 bits. */
  function Top(x: nat): (w: seq<bool>)
    ensures |w| == 16
  {
    BitsOf(x, 32)[..16]
  }

  lemma TopIs(x: nat)
    requires x < Pow2(32)
    ensures Value(Top(x)) == Shr(x, 16) && Shr(x, 23) == Shr(Value(Top(x)), 7)
  {
    hide Value, Shr, BitsOf, Pow2;
    var w := BitsOf(x, 32);
    assert w == w[..16] + w[16..];
    ValueOfBits(x, 32);
    ValueSplit(w[..16], w[16..]);
    ShrTwice(x, 16, 7);
  }

  /** With 16 bits in the register, or none left outside, its first 16 bits are those of the stream. */
  lemma TopLoaded(s: seq<bool>, p: nat, x: nat, n: int)
    requires Loaded(s, p, x, n) && (n >= 16 || p + n >= |s|)
    ensures Top(x) == Window(s, p, 16)
  {
    hide Value, BitsOf, Window, MsbRegister.Loaded;
    MsbRegister.LoadedBound(s, p, x, n, 32);
    if n < 16 { MsbRegister.LoadedPast(s, p, x, n, 16, 32); }
    MsbRegister.ShiftLoaded(s, p, x, if n < 16 then 16 else n, 16, 32);
    TopIs(x);
    BitsOfValue(Top(x));
    BitsOfValue(Window(s, p, 16));
  }

  /** A byte more behind the bits that are there. */
  lemma LoadByte(s: seq<bool>, p: nat, x: nat, n: int, b: byte)
    requires Loaded(s, p, x, n) && n <= 24 && Window(s, p + n, 8) == BitsOf(b, 8)
    ensures Loaded(s, p, Or(x, Low(Shl(b, 24 - n), 32)), n + 8)
  {
    hide Or, Low, Shl, Pow2, MsbRegister.Loaded, BitsOf, Window;
    MsbRegister.LoadByte(s, p, x, n, b, 32);
    LowSmall(Shl(b, 24 - n), 32);
  }

  /** Shifting out m bits moves on by as many. */
  lemma ShiftLoaded(s: seq<bool>, p: nat, x: nat, n: int, m: nat)
    requires Loaded(s, p, x, n) && m <= n
    ensures Loaded(s, p + m, Low(Shl(x, m), 32), n - m)
    ensures Shr(x, 32 - m) == Value(Window(s, p, m))
  {
    hide Value, Window, Low, Shl, Shr, MsbRegister.Loaded;
    MsbRegister.ShiftLoaded(s, p, x, n, m, 32);
  }

}
