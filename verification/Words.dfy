/** Fields of bit strings as numbers, and machine words in memory. */
module Words {
  import opened Bits

  /** The m bits from position p as a number, first bit least significant. */
  function Field(s: seq<bool>, p: nat, m: nat): nat {
    FromBits(Window(s, p, m))
  }

  lemma FieldBound(s: seq<bool>, p: nat, m: nat)
    ensures Field(s, p, m) < Pow2(m)
  {
    ToFromBits(Window(s, p, m));
  }

  lemma FieldSplit(s: seq<bool>, p: nat, m: nat, n: nat)
    ensures Low(Field(s, p, m + n), m) == Field(s, p, m)
    ensures Shr(Field(s, p, m + n), m) == Field(s, p + m, n)
  {
    WindowSplit(s, p, m, n);
    SplitBits(Window(s, p, m), Window(s, p + m, n));
  }

  lemma {:induction false} SplitBits(a: seq<bool>, b: seq<bool>)
    ensures Low(FromBits(a + b), |a|) == FromBits(a)
    ensures Shr(FromBits(a + b), |a|) == FromBits(b)
  {
    if a == [] {
      assert a + b == b;
    } else {
      SplitBits(a[1..], b);
      assert (a + b)[1..] == a[1..] + b;
    }
  }

  lemma {:induction false} BitOfBits(w: seq<bool>, i: nat)
    ensures Bit(FromBits(w), i) == (i < |w| && w[i])
  {
    if w == [] { BitZero(i); } else if i > 0 { BitOfBits(w[1..], i - 1); }
  }

  lemma FieldBit(s: seq<bool>, p: nat, m: nat, i: nat)
    ensures Bit(Field(s, p, m), i) == (i < m && BitAt(s, p + i))
  {
    BitOfBits(Window(s, p, m), i);
  }

  // ----- words in memory

  /** The n bytes from p on, least significant first. */
  function ReadLE(b: seq<byte>, p: nat, n: nat): nat
    requires p + n <= |b|
    decreases n
  {
    if n == 0 then 0 else b[p] as nat + 0x100 * ReadLE(b, p + 1, n - 1)
  }

  /** The n bytes from p on, most significant first. */
  function ReadBE(b: seq<byte>, p: nat, n: nat): nat
    requires p + n <= |b|
  {
    if n == 0 then 0 else 0x100 * ReadBE(b, p, n - 1) + b[p + n - 1] as nat
  }

  /** Read backwards, the bytes are those of the reversed buffer read forwards. */
  lemma {:induction false} ReadBERev(b: seq<byte>, p: nat, n: nat)
    requires p + n <= |b|
    ensures ReadBE(b, p, n) == ReadLE(Rev(b), |b| - p - n, n)
  {
    if n > 0 { ReadBERev(b, p, n - 1); }
  }

  lemma {:induction false} ReadField(b: seq<byte>, p: nat, n: nat)
    requires p + n <= |b|
    ensures ReadLE(b, p, n) == Field(ByteBits(b), 8 * p, 8 * n)
    decreases n
  {
    var s := ByteBits(b);
    if n > 0 {
      ReadField(b, p + 1, n - 1);
      WindowSplit(s, 8 * p, 8, 8 * (n - 1));
      WindowByte(b, p);
      JoinByte(b[p], Window(s, 8 * (p + 1), 8 * (n - 1)));
    }
  }

  lemma JoinByte(v: byte, w: seq<bool>)
    ensures FromBits(ToBits(v, 8) + w) == v as nat + 0x100 * FromBits(w)
  {
    var a := ToBits(v, 8);
    SplitBits(a, w);
    FromToBits(v, 8);
    Pow2Values();
    LowSmall(v, 8);
    DivModPow2(FromBits(a + w), 8);
    ShlIsMul(FromBits(w), 8);
  }
}
