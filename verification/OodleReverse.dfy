/** The Oodle Huffman table for windows that are read least significant bit first. */
module OodleReverse {
  import opened Bits
  import opened OodleHuffman
  import Canonical

  /** Six bits, reversed. */
  function Tab(x: nat): (r: nat)
    requires x < 64
    ensures r < 64
  {
    if x < 8 then [0x00, 0x20, 0x10, 0x30, 0x08, 0x28, 0x18, 0x38][x]
    else if x < 16 then [0x04, 0x24, 0x14, 0x34, 0x0c, 0x2c, 0x1c, 0x3c][x - 8]
    else if x < 24 then [0x02, 0x22, 0x12, 0x32, 0x0a, 0x2a, 0x1a, 0x3a][x - 16]
    else if x < 32 then [0x06, 0x26, 0x16, 0x36, 0x0e, 0x2e, 0x1e, 0x3e][x - 24]
    else if x < 40 then [0x01, 0x21, 0x11, 0x31, 0x09, 0x29, 0x19, 0x39][x - 32]
    else if x < 48 then [0x05, 0x25, 0x15, 0x35, 0x0d, 0x2d, 0x1d, 0x3d][x - 40]
    else if x < 56 then [0x03, 0x23, 0x13, 0x33, 0x0b, 0x2b, 0x1b, 0x3b][x - 48]
    else [0x07, 0x27, 0x17, 0x37, 0x0f, 0x2f, 0x1f, 0x3f][x - 56]
  }

  /** The digits of x in the opposite order, as a sum. */
  function Turned(a: nat, b: nat, c: nat, d: nat, e: nat, f: nat): nat {
    f + 2 * (e + 2 * (d + 2 * (c + 2 * (b + 2 * a))))
  }

  lemma TabTurns(a: nat, b: nat, c: nat, d: nat, e: nat, f: nat)
    requires a < 2 && b < 2 && c < 2 && d < 2 && e < 2 && f < 2
    ensures Turned(f, e, d, c, b, a) < 64 && Tab(Turned(f, e, d, c, b, a)) == Turned(a, b, c, d, e, f)
  {
    hide Tab;
    if f == 0 {
      if e == 0 { TabTurns00(a, b, c, d); } else { TabTurns01(a, b, c, d); }
    } else {
      if e == 0 { TabTurns10(a, b, c, d); } else { TabTurns11(a, b, c, d); }
    }
  }

  lemma TabTurns00(a: nat, b: nat, c: nat, d: nat)
    requires a < 2 && b < 2 && c < 2 && d < 2
    ensures Turned(0, 0, d, c, b, a) < 64 && Tab(Turned(0, 0, d, c, b, a)) == Turned(a, b, c, d, 0, 0)
  {
    if d == 0 {} else {}
  }

  lemma TabTurns01(a: nat, b: nat, c: nat, d: nat)
    requires a < 2 && b < 2 && c < 2 && d < 2
    ensures Turned(0, 1, d, c, b, a) < 64 && Tab(Turned(0, 1, d, c, b, a)) == Turned(a, b, c, d, 1, 0)
  {
    if d == 0 {} else {}
  }

  lemma TabTurns10(a: nat, b: nat, c: nat, d: nat)
    requires a < 2 && b < 2 && c < 2 && d < 2
    ensures Turned(1, 0, d, c, b, a) < 64 && Tab(Turned(1, 0, d, c, b, a)) == Turned(a, b, c, d, 0, 1)
  {
    if d == 0 {} else {}
  }

  lemma TabTurns11(a: nat, b: nat, c: nat, d: nat)
    requires a < 2 && b < 2 && c < 2 && d < 2
    ensures Turned(1, 1, d, c, b, a) < 64 && Tab(Turned(1, 1, d, c, b, a)) == Turned(a, b, c, d, 1, 1)
  {
    if d == 0 {} else {}
  }

  /** Digits of a number below 64. */
  lemma SixDigits(x: nat) returns (a: nat, b: nat, c: nat, d: nat, e: nat, f: nat)
    requires x < 64
    ensures a < 2 && b < 2 && c < 2 && d < 2 && e < 2 && f < 2 && x == Turned(f, e, d, c, b, a)
  {
    a := x % 2;
    b := x / 2 % 2;
    c := x / 2 / 2 % 2;
    d := x / 2 / 2 / 2 % 2;
    e := x / 2 / 2 / 2 / 2 % 2;
    f := x / 2 / 2 / 2 / 2 / 2;
  }

  lemma BitStep(h: nat, b: nat, j: nat)
    requires b < 2
    ensures Bit(b + 2 * h, j) == if j == 0 then b == 1 else Bit(h, j - 1)
  {
    assert (b + 2 * h) % 2 == b && (b + 2 * h) / 2 == h;
  }

  lemma BitOfTurned(a: nat, b: nat, c: nat, d: nat, e: nat, f: nat, j: nat)
    requires a < 2 && b < 2 && c < 2 && d < 2 && e < 2 && f < 2 && j < 6
    ensures Bit(Turned(f, e, d, c, b, a), j) == ([a, b, c, d, e, f][j] == 1)
  {
    hide Bit;
    BitStep(b + 2 * (c + 2 * (d + 2 * (e + 2 * f))), a, j);
    if j > 0 {
      BitStep(c + 2 * (d + 2 * (e + 2 * f)), b, j - 1);
      if j > 1 {
        BitStep(d + 2 * (e + 2 * f), c, j - 2);
        if j > 2 {
          BitStep(e + 2 * f, d, j - 3);
          if j > 3 {
            BitStep(f, e, j - 4);
            if j > 4 { BitStep(0, f, 0); }
          }
        }
      }
    }
  }

  lemma TabBit(x: nat, j: nat)
    requires x < 64 && j < 6
    ensures Bit(Tab(x), j) == Bit(x, 5 - j)
  {
    hide Tab, Bit, Turned;
    var a, b, c, d, e, f := SixDigits(x);
    TabTurns(a, b, c, d, e, f);
    BitOfTurned(a, b, c, d, e, f, 5 - j);
    BitOfTurned(f, e, d, c, b, a, j);
  }

  // ----- eleven bits

  /** The two halves overlap in the middle bit, which stays where it is. */
  function BitReverse(x: nat): nat
    requires x < TABLE_SIZE
  {
    AndMask(x, 6);
    LowBound6(x);
    HighBound(x);
    Or(Shl(Tab(And(x, 0x3F)), 5), Tab(Shr(x, 5)))
  }

  lemma LowBound6(x: nat)
    ensures And(x, 0x3F) == Low(x, 6) < 64
  {
    assert Pow2(3) == 8;
    assert Pow2(6) == 64;
    AndMask(x, 6);
    DivModPow2(x, 6);
  }

  lemma HighBound(x: nat)
    requires x < TABLE_SIZE
    ensures Shr(x, 5) < 64
  {
    assert Pow2(6) == 64;
    assert Pow2(11) == 2048;
    ShrBound(x, 5, 6);
  }

  lemma Pow2Eleven()
    ensures Pow2(6) == 64 && Pow2(11) == TABLE_SIZE
  {
    assert Pow2(6) == 64;
    assert Pow2(11) == 2048;
  }

  lemma ReverseBit(x: nat, j: nat)
    requires x < TABLE_SIZE && j < 11
    ensures Bit(BitReverse(x), j) == Bit(x, 10 - j)
  {
    hide Tab, Bit, Or, Shl, Shr, And, Low, Pow2;
    LowBound6(x);
    HighBound(x);
    Pow2Eleven();
    BitOr(Shl(Tab(And(x, 0x3F)), 5), Tab(Shr(x, 5)), j);
    BitShl(Tab(And(x, 0x3F)), 5, j);
    if j >= 5 {
      TabBit(And(x, 0x3F), j - 5);
      BitLow(x, 6, 10 - j);
    }
    if j < 6 {
      TabBit(Shr(x, 5), j);
      BitShr(x, 5, 5 - j);
    } else {
      BitHigh(Tab(Shr(x, 5)), 6, j);
    }
  }

  lemma ReverseBound(x: nat)
    requires x < TABLE_SIZE
    ensures BitReverse(x) < TABLE_SIZE
  {
    hide Tab, Or, Shl, Shr, And, Low, Pow2;
    LowBound6(x);
    HighBound(x);
    Pow2Eleven();
    ShlBound(Tab(And(x, 0x3F)), 6, 5);
    Pow2Mono(6, 11);
    OrBound(Shl(Tab(And(x, 0x3F)), 5), Tab(Shr(x, 5)), 11);
  }

  /** As digits: the reversed string. */
  lemma ReverseDigits(x: nat, n: nat)
    requires x < TABLE_SIZE && n == 11
    ensures BitReverse(x) < TABLE_SIZE && ToBits(BitReverse(x), n) == Rev(ToBits(x, n))
  {
    hide BitReverse, ToBits, Bit;
    ReverseBound(x);
    forall j | 0 <= j < n ensures ToBits(BitReverse(x), n)[j] == Rev(ToBits(x, n))[j] {
      ToBitsAt(BitReverse(x), n, j);
      ToBitsAt(x, n, 10 - j);
      ReverseBit(x, j);
    }
  }

  /** Reversing is its own inverse. */
  lemma ReverseTwice(x: nat)
    requires x < TABLE_SIZE
    ensures BitReverse(x) < TABLE_SIZE && BitReverse(BitReverse(x)) == x
  {
    hide BitReverse, ToBits, Pow2;
    Pow2Eleven();
    var n := 11;
    ReverseDigits(x, n);
    ReverseDigits(BitReverse(x), n);
    assert Rev(Rev(ToBits(x, n))) == ToBits(x, n);
    ToBitsInjective(BitReverse(BitReverse(x)), x, n);
  }

  // ----- the table

  /** The bits of code number i of length l, in stream order. */
  ghost function CodeBits(s: Lists, l: nat, i: nat): seq<bool>
    requires ListsOk(s) && 1 <= l <= LIMIT
  {
    Rev(ToBits(First(s, l) + i, l))
  }

  /** The window v, read least significant bit first, has the bits of the code in front. */
  ghost predicate InFront(s: Lists, v: nat, l: nat, i: nat)
    requires ListsOk(s)
  {
    1 <= l <= LIMIT && i < Num(s, l) && ToBits(v, l) == CodeBits(s, l, i)
  }

  /** Starting with a code, read backwards, is having its bits in front. */
  lemma StartsIsPrefix(s: Lists, v: nat, l: nat, i: nat)
    requires ListsOk(s) && v < TABLE_SIZE && BitReverse(v) < TABLE_SIZE
    requires 1 <= l <= LIMIT && i < Num(s, l) && First(s, l) + i < Pow2(l)
    ensures Starts(s, BitReverse(v), l, i) <==> InFront(s, v, l, i)
  {
    hide BitReverse, ToBits, Shr, FromBits, Pow2, First;
    var n := 11;
    var w := ToBits(v, n);
    ReverseDigits(v, n);
    Pow2Eleven();
    FromToBits(BitReverse(v), n);
    LowSmall(BitReverse(v), n);
    Canonical.TopBits(w, l);
    ToBitsSplit(v, l, n - l);
    assert w[..l] == ToBits(v, l);
    var top := Shr(BitReverse(v), n - l);
    if InFront(s, v, l, i) {
      Canonical.RevInjective(ToBits(top, l), ToBits(First(s, l) + i, l));
      ToBitsInjective(top, First(s, l) + i, l);
    }
  }

  /** If the codes leave no window over, every code of l bits is a number of l bits. */
  lemma CodeFits(s: Lists, l: nat, i: nat)
    requires ListsOk(s) && 1 <= l <= LIMIT && i < Num(s, l) && Covered(s, LIMIT + 1) == TABLE_SIZE
    ensures First(s, l) + i < Pow2(l)
  {
    hide Covered, Shl, Pow2, First;
    var n, c := LIMIT - l, First(s, l) + i;
    CoveredIsFirst(s, l);
    CoveredStep(s, l);
    ShlAdd(First(s, l), Num(s, l), n);
    CoveredMono(s, l + 1, LIMIT + 1);
    Pow2Eleven();
    Canonical.ShlPow2(l, n);
    Canonical.ShlStrict(c, First(s, l) + Num(s, l), n);
    if c >= Pow2(l) { ShlMono(Pow2(l), c, n); }
  }

  /** Then every window has the bits of at most one code in front. */
  lemma PrefixUnique(s: Lists, v: nat, l: nat, i: nat, m: nat, j: nat)
    requires ListsOk(s) && v < TABLE_SIZE && Covered(s, LIMIT + 1) == TABLE_SIZE
    requires InFront(s, v, l, i) && InFront(s, v, m, j)
    ensures l == m && i == j
  {
    hide BitReverse, Covered, InFront, Starts, First, Pow2;
    Numbered(s, v, l, i);
    Numbered(s, v, m, j);
    ReverseTwice(v);
    CodeFits(s, l, i);
    CodeFits(s, m, j);
    StartsIsPrefix(s, v, l, i);
    StartsIsPrefix(s, v, m, j);
    StartsUnique(s, BitReverse(v), l, i, m, j);
  }

  lemma Numbered(s: Lists, v: nat, l: nat, i: nat)
    requires ListsOk(s) && InFront(s, v, l, i)
    ensures 1 <= l <= LIMIT && i < Num(s, l)
  {
  }

  /** The entry for a window read least significant bit first: length and symbol of the code in front. */
  ghost predicate EntryFor(s: Lists, v: nat, e: nat)
    requires ListsOk(s) && v < TABLE_SIZE
  {
    exists l: nat, i: nat :: InFront(s, v, l, i) && e == l + 0x100 * Symbol(s, l, i) && OnlyInFront(s, v, l, i)
  }

  ghost predicate OnlyInFront(s: Lists, v: nat, l: nat, i: nat)
    requires ListsOk(s)
  {
    forall m: nat, j: nat :: InFront(s, v, m, j) ==> m == l && j == i
  }

  /** Turns the table around. */
  method BitReverseTable(to: array<nat>, lens: array<byte>, syms: array<byte>)
    requires to.Length == lens.Length == syms.Length == TABLE_SIZE
    modifies to
    ensures forall i :: 0 <= i < TABLE_SIZE ==> BitReverse(i) < TABLE_SIZE && to[BitReverse(i)] == Or(lens[i], Shl(syms[i], 8))
  {
    hide BitReverse, Or, Shl;
    var i := 0;
    while i < TABLE_SIZE
      invariant 0 <= i <= TABLE_SIZE
      invariant forall k :: 0 <= k < i ==> BitReverse(k) < TABLE_SIZE && to[BitReverse(k)] == Or(lens[k], Shl(syms[k], 8))
    {
      ReverseTwice(i);
      forall k | 0 <= k < i ensures BitReverse(k) != BitReverse(i) { ReverseTwice(k); }
      to[BitReverse(i)] := Or(lens[i], Shl(syms[i], 8));
      i := i + 1;
    }
  }

  lemma PackEntry(len: byte, sym: byte)
    ensures Or(len, Shl(sym, 8)) == len as nat + 0x100 * sym as nat
  {
    Pow2Values();
    OrIsAdd(len, 8, sym);
    ShlIsMul(sym, 8);
  }

  /** Builds the table for reading: it succeeds exactly when the codes leave no window over and none
      short, and then every window has the entry of the one code whose bits are in front. */
  method BuildTable(s: Lists, to: array<nat>) returns (ok: bool)
    requires ListsOk(s) && to.Length == TABLE_SIZE
    modifies to
    ensures ok <==> Covered(s, LIMIT + 1) == TABLE_SIZE
    ensures ok ==> forall v :: 0 <= v < TABLE_SIZE ==> EntryFor(s, v, to[v])
  {
    hide BitReverse, Or, Shl, Covered, EntryAt, EntryFor;
    var lens, syms := new byte[TABLE_SIZE], new byte[TABLE_SIZE];
    ok := Build(s, lens, syms);
    if !ok { return; }
    BitReverseTable(to, lens, syms);
    forall v | 0 <= v < TABLE_SIZE ensures EntryFor(s, v, to[v]) {
      ReverseTwice(v);
      var w := BitReverse(v);
      assert to[BitReverse(w)] == Or(lens[w], Shl(syms[w], 8));
      assert EntryAt(s, w, lens[..][w], syms[..][w]);
      PackEntry(lens[w], syms[w]);
      EntryTurned(s, v, lens[w], syms[w]);
    }
  }

  lemma EntryTurned(s: Lists, v: nat, len: nat, sym: nat)
    requires ListsOk(s) && v < TABLE_SIZE && BitReverse(v) < TABLE_SIZE && EntryAt(s, BitReverse(v), len, sym)
    requires Covered(s, LIMIT + 1) == TABLE_SIZE
    ensures EntryFor(s, v, len + 0x100 * sym)
  {
    hide BitReverse, Covered, InFront, First, Pow2;
    var i: nat :| i < |s.syms| && Starts(s, BitReverse(v), len, i) && sym == Symbol(s, len, i);
    CodeFits(s, len, i);
    StartsIsPrefix(s, v, len, i);
    forall m: nat, j: nat | InFront(s, v, m, j) ensures m == len && j == i { PrefixUnique(s, v, len, i, m, j); }
  }
}
