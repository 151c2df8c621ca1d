/** The compressor's bit buffer and its fixed Huffman codes. */
module ZWriter {
  import opened Bits
  import opened Canonical
  import opened FixedCodes

  class Writer {
    var out: seq<byte>
    var bitbuf: nat
    var bitcount: nat
    /** All the bits written, including those still in the buffer. */
    ghost var written: seq<bool>

    ghost predicate Valid()
      reads this
    {
      && bitcount < 8 && bitbuf < Pow2(bitcount)
      && ByteBits(out) + ToBits(bitbuf, bitcount) == written
    }

    constructor (header: seq<byte>)
      ensures Valid() && out == header && written == ByteBits(header)
    {
      out := header;
      bitbuf, bitcount := 0, 0;
      written := ByteBits(header);
    }

    /** Appends the low codebits bits of code. */
    method Add(code: nat, codebits: nat)
      requires Valid() && code < Pow2(codebits)
      modifies this
      ensures Valid() && written == old(written) + ToBits(code, codebits)
      ensures |out| >= old(|out|)
      ensures 8 * |out| + bitcount == 8 * old(|out|) + old(bitcount) + codebits
    {
      hide ToBits, Or, Shl, Pow2, ByteBits;
      AppendBits(bitbuf, bitcount, code, codebits);
      written := written + ToBits(code, codebits);
      bitbuf := Or(bitbuf, Shl(code, bitcount));
      bitcount := bitcount + codebits;
      while bitcount >= 8
        invariant bitbuf < Pow2(bitcount)
        invariant ByteBits(out) + ToBits(bitbuf, bitcount) == written
        invariant written == old(written) + ToBits(code, codebits)
        invariant |out| >= old(|out|)
        invariant 8 * |out| + bitcount == 8 * old(|out|) + old(bitcount) + codebits
      {
        FlushStep(out, bitbuf, bitcount);
        out := out + [Low(bitbuf, 8)];
        bitbuf := Shr(bitbuf, 8);
        bitcount := bitcount - 8;
      }
    }

    /** Appends the code of literal or length symbol n. */
    method Huff(n: nat)
      requires Valid() && n < 288
      modifies this
      ensures Valid() && written == old(written) + CodeBits(FixedLens(), n)
      ensures |out| >= old(|out|)
      ensures 8 * |out| + bitcount == 8 * old(|out|) + old(bitcount) + FixedLength(n)
    {
      hide ToBits, ByteBits, FixedLens, Pow2;
      HuffBits(n);
      var b;
      if n <= 143 {
        b := Bitrev(0x30 + n, 8);
        Add(b, 8);
      } else if n <= 255 {
        b := Bitrev(0x190 + n - 144, 9);
        Add(b, 9);
      } else if n <= 279 {
        b := Bitrev(n - 256, 7);
        Add(b, 7);
      } else {
        b := Bitrev(0xC0 + n - 280, 8);
        Add(b, 8);
      }
    }

    /** Appends the code of distance symbol n. */
    method HuffDist(n: nat)
      requires Valid() && n < 32
      modifies this
      ensures Valid() && written == old(written) + CodeBits(FixedDists(), n)
      ensures |out| >= old(|out|)
    {
      hide ToBits, ByteBits, FixedDists, Pow2;
      DistBits(n);
      var b := Bitrev(n, 5);
      Add(b, 5);
    }

    /** Fills the last byte with zeros. */
    method Pad() returns (ghost pad: seq<bool>)
      requires Valid()
      modifies this
      ensures Valid() && bitcount == 0 && written == old(written) + pad == ByteBits(out)
      ensures |out| >= old(|out|)
    {
      hide ToBits, ByteBits, Pow2;
      pad := [];
      while bitcount != 0
        invariant Valid() && written == old(written) + pad && |out| >= old(|out|)
        decreases (8 - bitcount) % 8
      {
        ZeroFits();
        ghost var before := bitcount;
        Add(0, 1);
        pad := pad + ToBits(0, 1);
      }
      NoBits(bitbuf);
    }
  }

  lemma ZeroFits()
    ensures 0 < Pow2(1)
  {
  }

  lemma NoBits(x: nat)
    ensures ToBits(x, 0) == []
  {
  }

  lemma FlushStep(out: seq<byte>, x: nat, n: nat)
    requires 8 <= n && x < Pow2(n)
    ensures Low(x, 8) < 256 && Shr(x, 8) < Pow2(n - 8)
    ensures ByteBits(out + [Low(x, 8)]) + ToBits(Shr(x, 8), n - 8) == ByteBits(out) + ToBits(x, n)
  {
    hide ToBits, ByteBits, Shr, Low;
    Pow2Values();
    DivModPow2(x, 8);
    ShrBound(x, 8, n - 8);
    ToBitsSplit(x, 8, n - 8);
    ToBitsLow(x, 8);
    ByteBitsAppend(out, [Low(x, 8)]);
    ByteBitsOne(Low(x, 8));
  }

  /** Reverses the codebits low bits of code, from the low end. */
  method Bitrev(code: nat, codebits: nat) returns (res: nat)
    requires code < Pow2(codebits)
    ensures res < Pow2(codebits) && ToBits(res, codebits) == Rev(ToBits(code, codebits))
  {
    hide ToBits, Pow2;
    var c: nat, n: nat := code, codebits;
    res := 0;
    BitrevStart(code, codebits);
    while n > 0
      invariant n <= codebits
      invariant res < Pow2(codebits - n)
      invariant ToBits(c, n) == ToBits(code, codebits)[codebits - n..]
      invariant ToBits(res, codebits - n) == Rev(ToBits(code, codebits)[..codebits - n])
    {
      BitrevStep(code, codebits, c, n, res);
      res := 2 * res + c % 2;
      c := c / 2;
      n := n - 1;
    }
    assert ToBits(code, codebits)[..codebits] == ToBits(code, codebits);
  }

  lemma BitrevStart(code: nat, n: nat)
    ensures 0 < Pow2(0) && ToBits(0, 0) == Rev(ToBits(code, n)[..0])
  {
  }

  lemma BitrevStep(code: nat, m: nat, c: nat, n: nat, res: nat)
    requires 1 <= n <= m && res < Pow2(m - n)
    requires ToBits(c, n) == ToBits(code, m)[m - n..]
    requires ToBits(res, m - n) == Rev(ToBits(code, m)[..m - n])
    ensures 2 * res + c % 2 < Pow2(m - n + 1)
    ensures ToBits(c / 2, n - 1) == ToBits(code, m)[m - n + 1..]
    ensures ToBits(2 * res + c % 2, m - n + 1) == Rev(ToBits(code, m)[..m - n + 1])
  {
    var s := ToBits(code, m);
    var k := m - n;
    assert ToBits(c, n) == [c % 2 == 1] + ToBits(c / 2, n - 1);
    assert ToBits(c / 2, n - 1) == ToBits(c, n)[1..];
    assert s[k] == ToBits(c, n)[0];
    assert ToBits(2 * res + c % 2, k + 1) == [c % 2 == 1] + ToBits(res, k) by {
      assert (2 * res + c % 2) / 2 == res;
    }
    assert s[..k + 1] == s[..k] + [s[k]];
    assert Rev(s[..k + 1]) == [s[k]] + Rev(s[..k]);
  }

  lemma HuffBits(n: nat)
    requires n < 288
    ensures CodeBits(FixedLens(), n) == Rev(ToBits(FixedCode(n), FixedLength(n)))
    ensures FixedCode(n) < Pow2(FixedLength(n))
  {
    hide ToBits;
    FixedCodeIsCanonical(n);
  }

  lemma DistBits(n: nat)
    requires n < 32
    ensures CodeBits(FixedDists(), n) == Rev(ToBits(n, 5)) && n < Pow2(5)
  {
    hide ToBits;
    DistCodeIsCanonical(n);
  }
}
