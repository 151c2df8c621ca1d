/** Looking a symbol up in the tables: what the nine-bit table and the search by length find. */
module JpegLookup {
  import opened Bits
  import opened Canonical
  import opened MsbFirst
  import opened JpegHuffman
  import opened Wrappers

  lemma {:induction false} ShrTwice(x: nat, m: nat, n: nat)
    ensures Shr(Shr(x, m), n) == Shr(x, m + n)
  {
    if m > 0 { ShrTwice(x / 2, m - 1, n); }
  }

  /** The nine-bit window sees the codes of up to nine bits. */
  lemma FastIsMatch(lens: seq<nat>, i: nat, w: seq<bool>)
    requires Fits(lens) && |w| == 16 && i < |lens| && 1 <= lens[i] <= FAST_BITS
    ensures FastMatch(lens, i, Shr(Value(w), 7)) <==> Matches(lens, i, w)
  {
    hide Fits, Matches, Shr, Code;
    MatchIsCode(lens, i, w);
    ShrTwice(Value(w), 7, FAST_BITS - lens[i]);
  }

  lemma FastHit(lens: seq<nat>, w: seq<bool>, v: nat)
    requires Fits(lens) && |w| == 16 && v < NOT_FAST && FastSoFar(lens, |lens|, Shr(Value(w), 7), v)
    ensures Matches(lens, v, w) && lens[v] <= FAST_BITS
  {
    hide Fits, Matches, Shr, Code;
    FastIsMatch(lens, v, w);
  }

  /** The last of 256 symbols, if its code is short: the table has the mark of no entry for it. */
  ghost predicate Blind(lens: seq<nat>, i: nat) {
    i == NOT_FAST && i < |lens| && lens[i] <= FAST_BITS
  }

  /** The table has nothing exactly when no code of up to nine bits matches, but the blind one. */
  lemma FastMiss(lens: seq<nat>, w: seq<bool>)
    requires Fits(lens) && |w| == 16 && FastSoFar(lens, |lens|, Shr(Value(w), 7), NOT_FAST)
    ensures if Blind(lens, NOT_FAST) && Matches(lens, NOT_FAST, w) then true else Covered(lens, FAST_BITS) <= Value(w)
  {
    hide Fits, Shr, Code, Covered, Matches;
    if Value(w) < Covered(lens, FAST_BITS) {
      var i := ShortCode(lens, FAST_BITS, w);
      MatchInside(lens, i, w);
      FastIsMatch(lens, i, w);
      if FastMatch(lens, NOT_FAST, Shr(Value(w), 7)) { FastIsMatch(lens, NOT_FAST, w); }
    }
  }

  /** The first length whose codes end above the window is the length of the code, and the code with
      the length's difference is the symbol's number. */
  lemma SlowHit(lens: seq<nat>, k: nat, w: seq<bool>)
    requires Sorted(lens) && Fits(lens) && |w| == 16 && 1 <= k <= 16
    requires Covered(lens, k - 1) <= Value(w) < Covered(lens, k)
    ensures var i := Shr(Value(w), 16 - k) + Offset(lens, k) - First(lens, k);
      i >= 0 && Matches(lens, i, w) && lens[i] == k
  {
    hide Fits, Matches, Shr, Code, Covered, Sorted, Rank, Offset, First;
    var i := SymbolOfInterval(lens, k, w);
    MatchInside(lens, i, w);
    PlaceIsIndex(lens, i);
  }

  lemma MatchInside(lens: seq<nat>, i: nat, w: seq<bool>)
    requires Matches(lens, i, w)
    ensures i < |lens| && 1 <= lens[i] <= |w|
  {
  }

  /** Past the codes of all lengths there is no symbol. */
  lemma SlowMiss(lens: seq<nat>, w: seq<bool>)
    requires Sorted(lens) && Fits(lens) && |w| == 16 && Covered(lens, 16) <= Value(w)
    ensures forall i: nat :: !Matches(lens, i, w)
  {
    hide Fits, Covered, Code, First, Count;
    forall i: nat ensures !Matches(lens, i, w) {
      if Matches(lens, i, w) {
        MatchIsInterval(lens, i, w);
        CoveredMono(lens, lens[i], 16);
      }
    }
  }

  // ----- the blind symbol

  lemma {:induction false} ManyCovered(lens: seq<nat>, l: nat)
    requires l <= 16
    ensures Shl(Offset(lens, l + 1), 16 - l) <= Covered(lens, l)
  {
    if l > 0 {
      ManyCovered(lens, l - 1);
      ShlAdd(Offset(lens, l), Count(lens, l), 16 - l);
    } else {
      ShlZero(16);
    }
  }

  /** 256 codes are not all shorter than eight bits. */
  lemma BlindLength(lens: seq<nat>)
    requires Sorted(lens) && Fits(lens) && |lens| == 256 && Blind(lens, NOT_FAST)
    ensures 8 <= lens[NOT_FAST] <= FAST_BITS
  {
    hide Fits, Covered, Offset, Shl, Pow2;
    var s := lens[NOT_FAST];
    HeadEnds(lens, s + 1);
    ManyCovered(lens, s);
    FitsIsKraft(lens);
    CoveredMono(lens, s, 16);
    Pow2Values();
    ShlPow2(8, 16 - s);
    if s < 8 {
      Pow2Mono(17, 24 - s);
      Seventeen();
    }
  }

  lemma Seventeen()
    ensures Pow2(17) == 0x2_0000
  {
    Pow2Values();
    assert Pow2(17) == 2 * Pow2(16);
  }

  /** What the search by length, which begins at ten bits, takes it for: the two bits, or the one, behind
      its code choose among the last four symbols, or two. */
  function BlindIndex(lens: seq<nat>, w: seq<bool>): int
    requires |lens| == 256 && |w| == 16 && lens[NOT_FAST] <= 10
  {
    256 - Pow2(10 - lens[NOT_FAST]) + Value(w[lens[NOT_FAST]..10])
  }

  /** The last code of its length. */
  lemma LastCode(lens: seq<nat>)
    requires Sorted(lens) && |lens| == 256
    ensures var s := lens[NOT_FAST]; First(lens, s) + Count(lens, s) == Code(lens, NOT_FAST) + 1 && Offset(lens, s + 1) == 256
  {
    hide Count, First, Offset;
    var s := lens[NOT_FAST];
    PlaceIsIndex(lens, NOT_FAST);
    HeadEnds(lens, s + 1);
    OffsetStep(lens, s);
  }

  lemma AfterLast(lens: seq<nat>)
    requires Sorted(lens) && Fits(lens) && |lens| == 256 && Blind(lens, NOT_FAST)
    ensures Offset(lens, 10) == 256
    ensures First(lens, 10) == (Code(lens, NOT_FAST) + 1) * if lens[NOT_FAST] == 8 then 4 else 2
  {
    hide Count, Code, Fits;
    BlindLength(lens);
    LastCode(lens);
    HeadEnds(lens, 10);
    if lens[NOT_FAST] == 8 { OffsetStep(lens, 9); }
  }

  /** The first ten bits of a window, in two parts. */
  lemma TenBits(w: seq<bool>, s: nat)
    requires |w| == 16 && s <= 10
    ensures Shr(Value(w), 6) == Shl(Shr(Value(w), 16 - s), 10 - s) + Value(w[s..10])
    ensures Value(w[s..10]) < Pow2(10 - s)
  {
    hide Value, Shr, Shl, Pow2;
    var a, b := w[..s], w[s..10];
    assert w == w[..10] + w[10..] && w[..10] == a + b && w == a + w[s..];
    ValueSplit(w[..10], w[10..]);
    ValueSplit(a, w[s..]);
    ValueAppend(a, b);
    ValueBound(b);
  }

  lemma BlindFound(lens: seq<nat>, w: seq<bool>)
    requires Sorted(lens) && Fits(lens) && |w| == 16 && |lens| == 256 && Blind(lens, NOT_FAST) && Matches(lens, NOT_FAST, w)
    ensures Value(w) < Covered(lens, 10)
    ensures 252 <= BlindIndex(lens, w) < 256
    ensures Shr(Value(w), 6) + Offset(lens, 10) - First(lens, 10) == BlindIndex(lens, w)
  {
    hide Fits, Covered, Count, First, Offset, Code, Matches, FromBits, Rev, Shr, Shl, Pow2, Sorted;
    var s, c := lens[NOT_FAST], Code(lens, NOT_FAST);
    BlindLength(lens);
    MatchIsInterval(lens, NOT_FAST, w);
    CoveredMono(lens, s, 10);
    AfterLast(lens);
    MatchIsCode(lens, NOT_FAST, w);
    TenBits(w, s);
    TwoShifts(c);
    if s == 8 { assert 10 - s == 2; } else { assert 10 - s == 1; }
  }

  lemma TwoShifts(x: nat)
    ensures Shl(x, 1) == 2 * x && Shl(x, 2) == 4 * x && Pow2(1) == 2 && Pow2(2) == 4
  {
  }

  /** 256 codes of eight bits are accepted, and the last of them is blind. */
  lemma EightBits()
    ensures var count := [0, 0, 0, 0, 0, 0, 0, 256, 0, 0, 0, 0, 0, 0, 0, 0];
      Fits(Sizes(count, 16)) && |Sizes(count, 16)| == 256 && Blind(Sizes(count, 16), NOT_FAST)
  {
    hide Fits, Count;
    var count := [0, 0, 0, 0, 0, 0, 0, 256, 0, 0, 0, 0, 0, 0, 0, 0];
    SizesEight(count, 16);
    var lens := Sizes(count, 16);
    FitsEight(lens);
  }

  lemma {:induction false} SizesEight(count: seq<nat>, n: nat)
    requires n <= |count| && forall i :: 0 <= i < |count| ==> count[i] == if i == 7 then 256 else 0
    ensures |Sizes(count, n)| == if n < 8 then 0 else 256
    ensures forall i :: 0 <= i < |Sizes(count, n)| ==> Sizes(count, n)[i] == 8
  {
    if n > 0 { SizesEight(count, n - 1); }
  }

  lemma FitsEight(lens: seq<nat>)
    requires |lens| == 256 && forall i :: 0 <= i < |lens| ==> lens[i] == 8
    ensures Fits(lens)
  {
    hide Count, Shl;
    forall l: nat ensures Count(lens, l) == if l == 8 then 256 else 0 { AllAlike(lens, 8, l); }
    NoneYet(lens, 7);
    OneStep(lens);
    NoneMore(lens, 16);
    FitsIsKraft(lens);
  }

  lemma {:induction false} AllAlike(lens: seq<nat>, x: nat, l: nat)
    requires forall i :: 0 <= i < |lens| ==> lens[i] == x
    ensures Count(lens, l) == if l == x then |lens| else 0
  {
    if lens != [] { AllAlike(lens[..|lens| - 1], x, l); }
  }

  lemma {:induction false} NoneYet(lens: seq<nat>, l: nat)
    requires l < 8 && forall k: nat {:trigger Count(lens, k)} :: k < 8 ==> Count(lens, k) == 0
    ensures Covered(lens, l) == 0
  {
    if l > 0 {
      NoneYet(lens, l - 1);
      assert Count(lens, l) == 0;
      ShlZero(16 - l);
    }
  }

  lemma OneStep(lens: seq<nat>)
    requires Covered(lens, 7) == 0 && Count(lens, 8) == 256
    ensures Covered(lens, 8) == 0x1_0000
  {
    Pow2Values();
    ShlPow2(8, 8);
    assert Covered(lens, 8) == Covered(lens, 7) + Shl(Count(lens, 8), 8);
  }

  lemma {:induction false} NoneMore(lens: seq<nat>, l: nat)
    requires 8 <= l <= 16 && Covered(lens, 8) == 0x1_0000
    requires forall k: nat {:trigger Count(lens, k)} :: k > 8 ==> Count(lens, k) == 0
    ensures Covered(lens, l) == 0x1_0000
  {
    if l > 8 {
      NoneMore(lens, l - 1);
      assert Count(lens, l) == 0;
      ShlZero(16 - l);
    }
  }

  // ----- what a window stands for

  /** The number of the symbol whose code the window starts with. */
  ghost function NumberAt(lens: seq<nat>, w: seq<bool>): (r: Option<nat>)
    ensures r.Some? ==> Matches(lens, r.value, w)
    ensures r.None? ==> forall i: nat :: !Matches(lens, i, w)
  {
    if i: nat :| Matches(lens, i, w) then Some(i) else None
  }

  datatype SymbolRead = SymbolRead(v: byte, n: nat)

  /** The symbol, and how many bits are taken for it; the blind one is taken for another. */
  ghost function ReadSymbol(lens: seq<nat>, values: seq<byte>, w: seq<bool>): Option<SymbolRead>
    requires |values| == 256 && |w| == 16
  {
    match NumberAt(lens, w)
    case None => None
    case Some(i) =>
      if Blind(lens, i) then
        if |lens| == 256 && 0 <= BlindIndex(lens, w) < 256 then Some(SymbolRead(values[BlindIndex(lens, w)], 10)) else None
      else if i < 256 then Some(SymbolRead(values[i], lens[i]))
      else None
  }

  lemma Numbered(lens: seq<nat>, i: nat, w: seq<bool>)
    requires Fits(lens) && Sorted(lens) && |w| == 16 && Matches(lens, i, w)
    ensures NumberAt(lens, w) == Some(i) && i < |lens| && 1 <= lens[i] <= 16
  {
    hide Matches, Fits, Sorted;
    MatchInside(lens, i, w);
    SortedLengths(lens);
    MatchUnique(lens, i, NumberAt(lens, w).value, w);
  }

  lemma SortedLengths(lens: seq<nat>)
    requires Sorted(lens)
    ensures Lengths(lens)
  {
  }

  /** The symbol whose code comes next, if the reader can see it. */
  lemma SymbolSeen(lens: seq<nat>, values: seq<byte>, i: nat, w: seq<bool>)
    requires Fits(lens) && Sorted(lens) && |w| == 16 && |values| == 256 && Matches(lens, i, w) && i < 256 && !Blind(lens, i)
    ensures i < |lens| && ReadSymbol(lens, values, w) == Some(SymbolRead(values[i], lens[i]))
  {
    hide Matches, Fits, Sorted, NumberAt, Blind;
    Numbered(lens, i, w);
  }

  // ----- magnitudes

  /** EXTEND of section F.2.2.1: the value that magnitude bits stand for. */
  function Extend(w: seq<bool>): int
    requires w != []
  {
    if w[0] then Value(w) else Value(w) + 1 - Pow2(|w|)
  }

  /** The top bit tells the halves of the range apart. */
  lemma TopBit(w: seq<bool>)
    requires w != []
    ensures w[0] <==> Value(w) >= Pow2(|w| - 1)
  {
    hide Value, Shl, Pow2;
    var n := |w| - 1;
    var a, b := [w[0]], w[1..];
    assert w == a + b;
    ValueAppend(a, b);
    ValueBound(b);
    ShlIsMul(Value(a), n);
    OneBit(w[0]);
  }

  lemma OneBit(b: bool)
    ensures Value([b]) == if b then 1 else 0
  {
    var w := [b];
    assert Rev(w) == w;
    assert FromBits(w[1..]) == 0;
    assert FromBits(w) == (if w[0] then 1 else 0) + 2 * FromBits(w[1..]);
  }

  /** An entry of the table of small coefficients gives, for a window that starts with a code and its
      magnitude bits, the coefficient, the run before it and the bits both take; it is zero exactly
      when there is no such code or the coefficient needs more than a signed byte. */
  ghost predicate AcEntry(lens: seq<nat>, values: seq<byte>, u: nat, r: int)
    requires |values| == 256
  {
    && (r != 0 ==> exists i: nat :: i < 255 && SmallCoefficient(lens, values, i, u, r))
    && (r == 0 ==> forall i: nat, s: int :: i < 255 && SmallCoefficient(lens, values, i, u, s) ==> !(-0x8000 <= s < 0x8000))
  }

  ghost predicate SmallCoefficient(lens: seq<nat>, values: seq<byte>, i: nat, u: nat, r: int)
    requires |values| == 256 && i < 255
  {
    FastMatch(lens, i, u) && FitsNine(lens[i], values[i]) && r == Packed(lens[i], values[i], u)
  }

  /** The code and its magnitude bits fit the window. */
  predicate FitsNine(len: nat, rs: byte) {
    rs % 16 >= 1 && len + rs % 16 <= FAST_BITS
  }

  function Packed(len: nat, rs: byte, u: nat): int
    requires FitsNine(len, rs)
  {
    Extend(BitsOf(u, FAST_BITS)[len..len + rs % 16]) * 256 + rs / 16 * 16 + len + rs % 16
  }
}
