/** Bit strings read most significant bit first. */
module MsbFirst {
  import opened Bits

  /** The number that the string is when its first bit is the most significant. */
  function Value(w: seq<bool>): nat {
    FromBits(Rev(w))
  }

  function Zeros(n: nat): (w: seq<bool>)
    ensures |w| == n
  {
    seq(n, i => false)
  }

  lemma ValueBound(w: seq<bool>)
    ensures Value(w) < Pow2(|w|)
  {
    ToFromBits(Rev(w));
  }

  lemma Regroup<T>(a: seq<T>, b: seq<T>, c: seq<T>)
    ensures a + (b + c) == a + b + c
  {
  }

  lemma RevAppend<T>(a: seq<T>, b: seq<T>)
    ensures Rev(a + b) == Rev(b) + Rev(a)
  {
  }

  lemma {:induction false} FromBitsAppend(a: seq<bool>, b: seq<bool>)
    ensures FromBits(a + b) == FromBits(a) + Shl(FromBits(b), |a|)
  {
    if a == [] {
      assert a + b == b;
    } else {
      FromBitsAppend(a[1..], b);
      assert (a + b)[1..] == a[1..] + b;
    }
  }

  lemma ValueAppend(a: seq<bool>, b: seq<bool>)
    ensures Value(a + b) == Shl(Value(a), |b|) + Value(b)
  {
    RevAppend(a, b);
    FromBitsAppend(Rev(b), Rev(a));
  }

  /** The parts of a string are the high and the low part of its number. */
  lemma ValueSplit(a: seq<bool>, b: seq<bool>)
    ensures Shr(Value(a + b), |b|) == Value(a) && Low(Value(a + b), |b|) == Value(b)
  {
    hide Value, Shl, Shr, Low, Pow2;
    ValueAppend(a, b);
    ValueBound(b);
    HighLow(Value(a), Value(b), |b|);
  }

  lemma {:induction false} HighLow(x: nat, y: nat, n: nat)
    requires y < Pow2(n)
    ensures Shr(Shl(x, n) + y, n) == x && Low(Shl(x, n) + y, n) == y
  {
    if n > 0 {
      HighLow(x, y / 2, n - 1);
      assert (Shl(x, n) + y) / 2 == Shl(x, n - 1) + y / 2;
    }
  }

  lemma {:induction false} ValueZeros(n: nat)
    ensures Value(Zeros(n)) == 0
  {
    assert Rev(Zeros(n)) == Zeros(n);
    FromZeros(n);
  }

  lemma {:induction false} FromZeros(n: nat)
    ensures FromBits(Zeros(n)) == 0
  {
    if n > 0 {
      FromZeros(n - 1);
      assert Zeros(n)[1..] == Zeros(n - 1);
    }
  }

  /** Shifting the first part out of a word brings zeros in behind the second. */
  lemma ShiftOut(a: seq<bool>, b: seq<bool>)
    ensures Low(Shl(Value(a + b), |a|), |a| + |b|) == Value(b + Zeros(|a|))
  {
    hide Value, Shl, Low, Pow2, Zeros;
    var n, m := |a|, |b|;
    ValueAppend(a, b);
    ValueAppend(b, Zeros(n));
    ValueZeros(n);
    ValueBound(b);
    ShlTwice(Value(a), m, n);
    ShlAdd(Shl(Value(a), m), Value(b), n);
    ShlBound(Value(b), m, n);
    HighLow(Value(a), Shl(Value(b), n), m + n);
  }

  lemma {:induction false} ShlTwice(x: nat, m: nat, n: nat)
    ensures Shl(Shl(x, m), n) == Shl(x, m + n)
  {
    if n > 0 { ShlTwice(x, m, n - 1); }
  }

  /** ORing a part in behind those that are there. */
  lemma OrBehind(a: seq<bool>, b: seq<bool>, n: nat)
    ensures Or(Value(a + Zeros(|b| + n)), Shl(Value(b), n)) == Value(a + b + Zeros(n))
  {
    hide Value, Shl, Or, Pow2, Zeros;
    var m := |b|;
    ValueAppend(a, Zeros(m + n));
    ValueZeros(m + n);
    ValueAppend(a + b, Zeros(n));
    ValueZeros(n);
    ValueAppend(a, b);
    ValueBound(b);
    ShlBound(Value(b), m, n);
    ShlTwice(Value(a), m, n);
    ShlAdd(Shl(Value(a), m), Value(b), n);
    Pow2Commute(n, m);
    OrIsAdd(Shl(Value(b), n), m + n, Value(a));
  }

  lemma Pow2Commute(m: nat, n: nat)
    ensures Pow2(m + n) == Pow2(n + m)
  {
  }

  /** The n bits of a number, most significant first. */
  function BitsOf(x: nat, n: nat): (w: seq<bool>)
    ensures |w| == n
  {
    Rev(ToBits(x, n))
  }

  lemma ValueOfBits(x: nat, n: nat)
    requires x < Pow2(n)
    ensures Value(BitsOf(x, n)) == x
  {
    assert Rev(Rev(ToBits(x, n))) == ToBits(x, n);
    FromToBits(x, n);
    LowSmall(x, n);
  }

  lemma BitsOfValue(w: seq<bool>)
    ensures BitsOf(Value(w), |w|) == w
  {
    ToFromBits(Rev(w));
    assert Rev(Rev(w)) == w;
  }

  /** Bytes as a bit string, most significant bit of each byte first. */
  function MsbBits(bs: seq<byte>): (s: seq<bool>)
    ensures |s| == 8 * |bs|
  {
    if bs == [] then [] else MsbBits(bs[..|bs| - 1]) + BitsOf(bs[|bs| - 1], 8)
  }

  lemma MsbSnoc(bs: seq<byte>, b: byte)
    ensures MsbBits(bs + [b]) == MsbBits(bs) + BitsOf(b, 8)
  {
    assert (bs + [b])[..|bs|] == bs;
  }

  lemma {:induction false} MsbPrefix(bs: seq<byte>, k: nat)
    requires k <= |bs|
    ensures MsbBits(bs[..k]) <= MsbBits(bs)
  {
    if k < |bs| {
      var rest := bs[..|bs| - 1];
      MsbPrefix(rest, k);
      assert rest[..k] == bs[..k];
    } else {
      assert bs[..k] == bs;
    }
  }

  /** The k-th byte's bits, zeros past the end. */
  lemma MsbWindow(bs: seq<byte>, k: nat)
    ensures Window(MsbBits(bs), 8 * k, 8) == BitsOf(if k < |bs| then bs[k] else 0, 8)
  {
    hide MsbBits, BitsOf, Window;
    var s := MsbBits(bs);
    if k < |bs| {
      MsbPrefix(bs, k + 1);
      var t := MsbBits(bs[..k]);
      assert bs[..k + 1] == bs[..k] + [bs[k]];
      MsbSnoc(bs[..k], bs[k]);
      WindowInside(s, 8 * k, 8);
      PrefixSlice(s, t, BitsOf(bs[k], 8));
    } else {
      ZeroBits(8);
      WindowPast(s, 8 * k, 8);
    }
  }

  lemma WindowPast(s: seq<bool>, p: nat, n: nat)
    requires p >= |s|
    ensures Window(s, p, n) == Zeros(n)
  {
    forall i | 0 <= i < n ensures Window(s, p, n)[i] == Zeros(n)[i] { assert Window(s, p, n)[i] == BitAt(s, p + i); }
  }

  lemma PrefixSlice<T>(s: seq<T>, t: seq<T>, u: seq<T>)
    requires t + u <= s
    ensures s[|t|..|t| + |u|] == u
  {
    assert s[..|t + u|] == t + u;
  }

  lemma ZeroBits(n: nat)
    ensures BitsOf(0, n) == Zeros(n)
  {
    forall i | 0 <= i < n ensures BitsOf(0, n)[i] == false {
      ToBitsAt(0, n, n - 1 - i);
      BitZero(n - 1 - i);
    }
  }
}
