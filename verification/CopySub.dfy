/** Adding literals to the bytes an offset back, eight at a time inside one 64-bit word. */
module CopySub {
  import opened Bits
  import opened Words
  import opened CopyKernels

  function Xor(x: nat, y: nat): nat {
    if x == 0 then y else if y == 0 then x
    else (if x % 2 != y % 2 then 1 else 0) + 2 * Xor(x / 2, y / 2)
  }

  /** The byte b in each of n bytes. */
  function Rep(b: nat, n: nat): nat {
    if n == 0 then 0 else b + 0x100 * Rep(b, n - 1)
  }

  /** The words added byte by byte, without carries between bytes. */
  function SwarAdd(x: nat, y: nat, n: nat): nat {
    Xor(And(x, Rep(0x7F, n)) + And(y, Rep(0x7F, n)), And(Xor(x, y), Rep(0x80, n)))
  }

  function AddBytes(a: nat, b: nat): byte {
    (a + b) % 0x100
  }

  lemma {:induction false} AndSplit(x: nat, y: nat, n: nat)
    ensures And(x, y) == Low(And(x, y), n) + Shl(And(Shr(x, n), Shr(y, n)), n)
    ensures Low(And(x, y), n) == And(Low(x, n), Low(y, n))
  {
    hide And;
    if n == 0 {
      AndZero(0);
    } else {
      AndSplit(x / 2, y / 2, n - 1);
      AndHalf(x, y);
      AndHalf(Low(x, n), Low(y, n));
      assert Low(x, n) / 2 == Low(x / 2, n - 1) && Low(y, n) / 2 == Low(y / 2, n - 1);
    }
  }

  lemma AndHalf(x: nat, y: nat)
    ensures And(x, y) % 2 == (if x % 2 == 1 && y % 2 == 1 then 1 else 0) && And(x, y) / 2 == And(x / 2, y / 2)
  {
  }

  lemma {:induction false} XorSplit(x: nat, y: nat, n: nat)
    ensures Xor(x, y) == Low(Xor(x, y), n) + Shl(Xor(Shr(x, n), Shr(y, n)), n)
    ensures Low(Xor(x, y), n) == Xor(Low(x, n), Low(y, n))
  {
    hide Xor;
    if n == 0 {
      XorZero(0);
    } else {
      XorSplit(x / 2, y / 2, n - 1);
      XorHalf(x, y);
      XorHalf(Low(x, n), Low(y, n));
      assert Low(x, n) / 2 == Low(x / 2, n - 1) && Low(y, n) / 2 == Low(y / 2, n - 1);
    }
  }

  lemma XorHalf(x: nat, y: nat)
    ensures Xor(x, y) % 2 == (if x % 2 != y % 2 then 1 else 0) && Xor(x, y) / 2 == Xor(x / 2, y / 2)
  {
    if x != 0 && y != 0 {
      var b, h := if x % 2 != y % 2 then 1 else 0, Xor(x / 2, y / 2);
      assert Xor(x, y) == b + 2 * h;
      EvenPart(b, h);
    }
  }

  lemma EvenPart(b: nat, h: nat)
    requires b < 2
    ensures (b + 2 * h) % 2 == b && (b + 2 * h) / 2 == h
  {
  }

  lemma ByteSplit(p: nat, q: nat)
    requires p < 0x100
    ensures Low(p + 0x100 * q, 8) == p && Shr(p + 0x100 * q, 8) == q && Shl(q, 8) == 0x100 * q
  {
    hide Low, Shr, Shl, Pow2;
    Pow2Values();
    ShrIsDiv(p + 0x100 * q, 8);
    ShlIsMul(q, 8);
  }

  lemma AndBytes(p: nat, q: nat, r: nat, s: nat)
    requires p < 0x100 && r < 0x100
    ensures And(p + 0x100 * q, r + 0x100 * s) == And(p, r) + 0x100 * And(q, s)
  {
    hide And, Low, Shr, Shl;
    ByteSplit(p, q);
    ByteSplit(r, s);
    AndSplit(p + 0x100 * q, r + 0x100 * s, 8);
    ByteSplit(0, And(q, s));
  }

  lemma XorBytes(p: nat, q: nat, r: nat, s: nat)
    requires p < 0x100 && r < 0x100
    ensures Xor(p + 0x100 * q, r + 0x100 * s) == Xor(p, r) + 0x100 * Xor(q, s)
  {
    hide Xor, Low, Shr, Shl;
    ByteSplit(p, q);
    ByteSplit(r, s);
    XorSplit(p + 0x100 * q, r + 0x100 * s, 8);
    ByteSplit(0, Xor(q, s));
  }

  /** Masking off and cutting out the top bit of a byte. */
  lemma AndTop(a: nat)
    requires a < 0x100
    ensures And(a, 0x7F) == a % 0x80 && And(a, 0x80) == 0x80 * (a / 0x80)
  {
    hide And, Low, Shr, Shl;
    SevenBits(a);
    SevenBits(0x80);
    AndMask(a, 7);
    AndSplit(a, 0x80, 7);
    AndZero(a % 0x80);
    AndOne(a / 0x80);
    ShlIsMul(a / 0x80, 7);
  }

  lemma SevenBits(a: nat)
    ensures Pow2(7) == 0x80 && Low(a, 7) == a % 0x80 && Shr(a, 7) == a / 0x80
  {
    hide Low, Shr;
    assert Pow2(4) == 16;
    assert Pow2(7) == 0x80;
    ShrIsDiv(a, 7);
  }

  lemma AndZero(a: nat)
    ensures And(a, 0) == 0
  {
  }

  lemma AndOne(a: nat)
    requires a < 2
    ensures And(a, 1) == a
  {
  }

  /** The top bits without carry. */
  lemma XorTop(a: nat, b: nat)
    requires a < 0x100 && b < 0x100
    ensures Xor(a, b) < 0x100 && Xor(a, b) / 0x80 == (a / 0x80 + b / 0x80) % 2
  {
    hide Xor, Low, Shr, Shl;
    SevenBits(a);
    SevenBits(b);
    SevenBits(Xor(a, b));
    XorSplit(a, b, 7);
    XorBit(a / 0x80, b / 0x80);
    ShlIsMul(Xor(a / 0x80, b / 0x80), 7);
  }

  lemma XorBit(a: nat, b: nat)
    requires a < 2 && b < 2
    ensures Xor(a, b) == (a + b) % 2
  {
  }

  lemma FlipTop(s: nat, t: nat)
    requires s < 0x100 && t < 2
    ensures Xor(s, 0x80 * t) == (s + 0x80 * t) % 0x100
  {
    hide Xor, Low, Shr, Shl;
    var z := Xor(s, 0x80 * t);
    SevenBits(s);
    SevenBits(0x80 * t);
    SevenBits(z);
    XorSplit(s, 0x80 * t, 7);
    XorZero(s % 0x80);
    XorBit(s / 0x80, t);
    ShlIsMul(Xor(s / 0x80, t), 7);
  }

  lemma XorZero(a: nat)
    ensures Xor(a, 0) == a
  {
  }

  /** One byte of the formula: the sum of the low seven bits and, without carry, the top ones. */
  lemma OneByte(a: nat, b: nat)
    requires a < 0x100 && b < 0x100
    ensures And(a, 0x7F) + And(b, 0x7F) < 0x100
    ensures Xor(And(a, 0x7F) + And(b, 0x7F), And(Xor(a, b), 0x80)) == AddBytes(a, b)
  {
    hide Xor, And;
    AndTop(a);
    AndTop(b);
    XorTop(a, b);
    AndTop(Xor(a, b));
    FlipTop(a % 0x80 + b % 0x80, (a / 0x80 + b / 0x80) % 2);
  }

  lemma SwarStep(a: nat, x: nat, b: nat, y: nat, n: nat)
    requires a < 0x100 && b < 0x100
    ensures SwarAdd(a + 0x100 * x, b + 0x100 * y, n + 1) == AddBytes(a, b) + 0x100 * SwarAdd(x, y, n)
  {
    hide Xor, And, AddBytes;
    var m, t := Rep(0x7F, n), Rep(0x80, n);
    AndBytes(a, x, 0x7F, m);
    AndBytes(b, y, 0x7F, m);
    XorBytes(a, x, b, y);
    XorTop(a, b);
    AndBytes(Xor(a, b), Xor(x, y), 0x80, t);
    OneByte(a, b);
    AndTop(Xor(a, b));
    XorBytes(And(a, 0x7F) + And(b, 0x7F), And(x, m) + And(y, m), And(Xor(a, b), 0x80), And(Xor(x, y), t));
  }

  ghost predicate ByteSums(w: nat, p: seq<byte>, i: nat, q: seq<byte>, j: nat, n: nat)
    requires i + n <= |p| && j + n <= |q|
  {
    forall k :: 0 <= k < n ==> BytesOf(w, n)[k] == AddBytes(p[i + k], q[j + k])
  }

  lemma OneMoreSum(w: nat, p: seq<byte>, i: nat, q: seq<byte>, j: nat, n: nat)
    requires n > 0 && i + n <= |p| && j + n <= |q|
    requires w % 0x100 == AddBytes(p[i], q[j]) && ByteSums(w / 0x100, p, i + 1, q, j + 1, n - 1)
    ensures ByteSums(w, p, i, q, j, n)
  {
    hide AddBytes;
    forall k | 0 <= k < n ensures BytesOf(w, n)[k] == AddBytes(p[i + k], q[j + k]) {
      if k > 0 {
        assert BytesOf(w, n)[k] == BytesOf(w / 0x100, n - 1)[k - 1];
        assert i + 1 + (k - 1) == i + k;
      }
    }
  }

  /** The word formula adds all bytes. */
  lemma {:induction false} SwarAddsBytes(p: seq<byte>, i: nat, q: seq<byte>, j: nat, n: nat)
    requires i + n <= |p| && j + n <= |q|
    ensures ByteSums(SwarAdd(ReadLE(p, i, n), ReadLE(q, j, n), n), p, i, q, j, n)
    decreases n
  {
    hide SwarAdd, AddBytes;
    if n > 0 {
      SwarAddsBytes(p, i + 1, q, j + 1, n - 1);
      SwarStep(p[i], ReadLE(p, i + 1, n - 1), q[j], ReadLE(q, j + 1, n - 1), n - 1);
      OneMoreSum(SwarAdd(ReadLE(p, i, n), ReadLE(q, j, n), n), p, i, q, j, n);
    }
  }

  // ----- literals added to the bytes an offset back

  const MASK := 0x7F7F7F7F7F7F7F7F
  const NOT_MASK := 0x8080808080808080

  lemma {:induction false} AndAtMost(x: nat, y: nat)
    ensures And(x, y) <= y
  {
    if x != 0 && y != 0 { AndAtMost(x / 2, y / 2); }
  }

  /** On eight bytes the formula, as it stands in the code, never leaves 64 bits. */
  lemma EightBytes(x: nat, y: nat)
    ensures Xor(Add64(And(x, MASK), And(y, MASK)), And(Xor(x, y), NOT_MASK)) == SwarAdd(x, y, 8)
  {
    hide Xor, And;
    Constants();
    AndAtMost(x, MASK);
    AndAtMost(y, MASK);
  }

  lemma Constants()
    ensures Rep(0x7F, 8) == MASK && Rep(0x80, 8) == NOT_MASK
  {
    assert Rep(0x7F, 4) == 0x7F7F7F7F && Rep(0x80, 4) == 0x80808080;
  }

  /** From d up to e every byte is a literal plus the byte offset before it. */
  ghost predicate Sums(b: seq<byte>, d: nat, e: nat, lits: seq<byte>, l: nat, offset: nat) {
    && offset <= d <= e <= |b| && l + (e - d) <= |lits|
    && forall k :: d <= k < e ==> b[k] == AddBytes(lits[l + (k - d)], b[k - offset])
  }

  /** A vector of sixteen byte sums. */
  method AddVector(dst: array<byte>, d: nat, e: nat, lits: array<byte>, l: nat, offset: nat)
    requires lits != dst && offset >= 16 && Sums(dst[..], d, e, lits[..], l, offset)
    requires e + 16 <= dst.Length && l + (e - d) + 16 <= lits.Length
    modifies dst
    ensures Sums(dst[..], d, e + 16, lits[..], l, offset) && Outside(old(dst[..]), dst[..], e, e + 16)
  {
    hide AddBytes;
    var litv, matv := lits[l + (e - d)..l + (e - d) + 16], dst[e - offset..e - offset + 16];
    forall k | e <= k < e + 16 { dst[k] := AddBytes(litv[k - e], matv[k - e]); }
  }

  /** Eight byte sums in a word. */
  method AddWord(dst: array<byte>, d: nat, e: nat, lits: array<byte>, l: nat, offset: nat)
    requires lits != dst && offset >= 8 && Sums(dst[..], d, e, lits[..], l, offset)
    requires e + 8 <= dst.Length && l + (e - d) + 8 <= lits.Length
    modifies dst
    ensures Sums(dst[..], d, e + 8, lits[..], l, offset) && Outside(old(dst[..]), dst[..], e, e + 8)
  {
    hide Xor, And, Add64, ReadLE, BytesOf, AddBytes, SwarAdd;
    var lit8, match8 := ReadLE(lits[..], l + (e - d), 8), ReadLE(dst[..], e - offset, 8);
    SwarAddsBytes(lits[..], l + (e - d), dst[..], e - offset, 8);
    EightBytes(lit8, match8);
    Store(dst, e, Xor(Add64(And(lit8, MASK), And(match8, MASK)), And(Xor(lit8, match8), NOT_MASK)), 8);
  }

  method AddOne(dst: array<byte>, d: nat, e: nat, lits: array<byte>, l: nat, offset: nat)
    requires lits != dst && offset >= 1 && Sums(dst[..], d, e, lits[..], l, offset)
    requires e < dst.Length && l + (e - d) < lits.Length
    modifies dst
    ensures Sums(dst[..], d, e + 1, lits[..], l, offset) && Outside(old(dst[..]), dst[..], e, e + 1)
  {
    hide AddBytes;
    dst[e] := AddBytes(lits[l + (e - d)], dst[e - offset]);
  }

  method AddFour(dst: array<byte>, d: nat, e: nat, lits: array<byte>, l: nat, offset: nat)
    requires lits != dst && offset >= 8 && Sums(dst[..], d, e, lits[..], l, offset)
    requires e + 4 <= dst.Length && l + (e - d) + 4 <= lits.Length
    modifies dst
    ensures Sums(dst[..], d, e + 4, lits[..], l, offset) && Outside(old(dst[..]), dst[..], e, e + 4)
  {
    hide AddBytes;
    AddOne(dst, d, e, lits, l, offset);
    AddOne(dst, d, e + 1, lits, l, offset);
    AddOne(dst, d, e + 2, lits, l, offset);
    AddOne(dst, d, e + 3, lits, l, offset);
  }

  /** Byte by byte, each sum appended before the next is made. */
  function AddBack(out: seq<byte>, lits: seq<byte>, offset: nat): (r: seq<byte>)
    requires 1 <= offset <= |out|
    ensures |r| == |out| + |lits| && out <= r
    decreases |lits|
  {
    if lits == [] then out else AddBack(out + [AddBytes(lits[0], out[|out| - offset])], lits[1..], offset)
  }

  /** Every sum is that of a literal and the byte the offset back, which may be a sum itself. */
  lemma {:induction false} AddBackAt(out: seq<byte>, lits: seq<byte>, offset: nat, k: nat)
    requires 1 <= offset <= |out| && k < |lits|
    ensures var r := AddBack(out, lits, offset);
      var lit: nat, back: nat := lits[k], r[|out| + k - offset];
      r[|out| + k] == (lit + back) % 0x100
    decreases |lits|
  {
    var next := out + [AddBytes(lits[0], out[|out| - offset])];
    if k == 0 {
      assert next <= AddBack(next, lits[1..], offset);
    } else {
      AddBackAt(next, lits[1..], offset, k - 1);
    }
  }

  lemma {:induction false} SumsIsAddBack(before: seq<byte>, b: seq<byte>, d: nat, e: nat, lits: seq<byte>, l: nat, offset: nat)
    requires 1 <= offset && Sums(b, d, e, lits, l, offset) && before == b[..d]
    ensures b[..e] == AddBack(before, lits[l..l + (e - d)], offset)
    decreases e - d
  {
    hide AddBytes;
    if d < e {
      var part := lits[l..l + (e - d)];
      assert part[1..] == lits[l + 1..l + 1 + (e - (d + 1))] && part[0] == lits[l];
      assert before + [AddBytes(part[0], before[d - offset])] == b[..d + 1];
      SumsIsAddBack(b[..d + 1], b, d + 1, e, lits, l + 1, offset);
    }
  }

  /** Adds count literals to the bytes offset before, as if one by one. */
  method CopySub(dst: array<byte>, d: nat, lits: array<byte>, l: nat, offset: nat, count: nat, sse2: bool)
    requires lits != dst && 8 <= offset <= d && d + count <= dst.Length && l + count <= lits.Length
    modifies dst
    ensures dst[..d + count] == AddBack(old(dst[..d]), lits[l..l + count], offset)
    ensures Outside(old(dst[..]), dst[..], d, d + count)
  {
    hide AddBytes, Sums, Outside, AddBack;
    NoSums(dst[..], d, lits[..], l, offset);
    OutsideNone(dst[..], d);
    var e := d;
    if sse2 && offset >= 16 {
      while d + count - e >= 16
        invariant d <= e <= d + count
        invariant Sums(dst[..], d, e, lits[..], l, offset) && Outside(old(dst[..]), dst[..], d, e)
      {
        ghost var was := dst[..];
        AddVector(dst, d, e, lits, l, offset);
        OutsideJoin(old(dst[..]), was, dst[..], d, e, e + 16);
        e := e + 16;
      }
    }
    while d + count - e >= 8
      invariant d <= e <= d + count
      invariant Sums(dst[..], d, e, lits[..], l, offset) && Outside(old(dst[..]), dst[..], d, e)
    {
      ghost var was := dst[..];
      AddWord(dst, d, e, lits, l, offset);
      OutsideJoin(old(dst[..]), was, dst[..], d, e, e + 8);
      e := e + 8;
    }
    if d + count - e >= 4 {
      ghost var was := dst[..];
      AddFour(dst, d, e, lits, l, offset);
      OutsideJoin(old(dst[..]), was, dst[..], d, e, e + 4);
      e := e + 4;
    }
    while e < d + count
      invariant d <= e <= d + count
      invariant Sums(dst[..], d, e, lits[..], l, offset) && Outside(old(dst[..]), dst[..], d, e)
    {
      ghost var was := dst[..];
      AddOne(dst, d, e, lits, l, offset);
      OutsideJoin(old(dst[..]), was, dst[..], d, e, e + 1);
      e := e + 1;
    }
    OutsideFront(old(dst[..]), dst[..], d, d + count);
    assert old(dst[..])[..d] == old(dst[..d]);
    assert dst[..][..d + count] == dst[..d + count] && lits[..][l..l + count] == lits[l..l + count];
    SumsIsAddBack(old(dst[..d]), dst[..], d, d + count, lits[..], l, offset);
  }

  lemma OutsideNone(a: seq<byte>, d: nat)
    ensures Outside(a, a, d, d)
  {
  }

  lemma OutsideJoin(a: seq<byte>, b: seq<byte>, c: seq<byte>, d: nat, e: nat, f: nat)
    requires Outside(a, b, d, e) && Outside(b, c, e, f) && d <= e <= f
    ensures Outside(a, c, d, f)
  {
  }

  lemma OutsideFront(a: seq<byte>, b: seq<byte>, d: nat, e: nat)
    requires Outside(a, b, d, e) && d <= e && d <= |a|
    ensures |b| == |a| && b[..d] == a[..d]
  {
  }

  lemma NoSums(b: seq<byte>, d: nat, lits: seq<byte>, l: nat, offset: nat)
    requires offset <= d <= |b| && l <= |lits|
    ensures Sums(b, d, d, lits, l, offset)
  {
  }
}
