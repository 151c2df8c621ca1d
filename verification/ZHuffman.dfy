/** The inflater's decoding tables: a 9-bit table for the short codes, and the first code, the
    preshifted last code and the first symbol of every length for the long ones. */
module ZHuffman {
  import opened Bits
  import opened BitReverse
  import opened Canonical

  const ZFAST_BITS := 9
  const ZFAST_SIZE := 512
  const ZNSYMS := 288
  const ZMAX_BITS := 15

  ghost predicate ZLengths(lens: seq<nat>) {
    forall i :: 0 <= i < |lens| ==> lens[i] <= ZMAX_BITS
  }

  type uint16 = x: nat | x < 0x1_0000

  /** The window w of 9 bits starts with the short code of symbol i. */
  predicate FastMatch(lens: seq<nat>, i: nat, w: nat) {
    && i < |lens|
    && 1 <= lens[i] <= ZFAST_BITS
    && Low(w, lens[i]) == FromBits(CodeBits(lens, i))
  }

  /** What the fast table holds at w: length and symbol of the code w starts with, 0 if none. */
  ghost predicate FastEntry(lens: seq<nat>, w: nat, v: nat) {
    || (v == 0 && forall i: nat :: !FastMatch(lens, i, w))
    || (exists i: nat :: FastMatch(lens, i, w) && v == 512 * lens[i] + i)
  }

  /** The tables are arrays inside the struct, which cannot alias: each is a field that holds a
      sequence of fixed length. */
  class Huffman {
    var fast: seq<uint16>
    var firstcode: seq<uint16>
    var maxcode: seq<nat>
    var firstsymbol: seq<uint16>
    var size: seq<byte>
    var value: seq<uint16>

    ghost predicate Shape()
      reads this
    {
      && |fast| == ZFAST_SIZE && |firstcode| == 16 && |maxcode| == 17 && |firstsymbol| == 16
      && |size| == ZNSYMS && |value| == ZNSYMS
    }

    /** The tables decode the canonical code of lens. */
    ghost predicate Built(lens: seq<nat>)
      reads this
    {
      && Shape()
      && |lens| <= ZNSYMS && ZLengths(lens) && Fits(lens)
      && (forall w {:trigger fast[w]} :: 0 <= w < ZFAST_SIZE ==> FastEntry(lens, w, fast[w]))
      && RangesSet(lens, 16, firstcode, firstsymbol, maxcode)
      && maxcode[16] == 0x1_0000
      && (forall i {:trigger Listed(lens, i, size, value)} ::
        0 <= i < |lens| && lens[i] > 0 ==> Listed(lens, i, size, value))
    }

    constructor ()
      ensures Shape()
    {
      fast := seq(ZFAST_SIZE, _ => 0);
      firstcode := seq(16, _ => 0);
      maxcode := seq(17, _ => 0);
      firstsymbol := seq(16, _ => 0);
      size := seq(ZNSYMS, _ => 0);
      value := seq(ZNSYMS, _ => 0);
    }

    /** Builds the tables, and refuses exactly the lengths that violate Kraft's inequality. */
    method Build(sizelist: seq<nat>) returns (ok: bool)
      requires Shape() && |sizelist| <= ZNSYMS && ZLengths(sizelist)
      modifies this
      ensures Shape()
      ensures ok <==> Kraft(sizelist)
      ensures ok ==> Built(sizelist)
    {
      FitsIsKraft(sizelist);
      fast := seq(ZFAST_SIZE, _ => 0);
      var sizes := CountSizes(sizelist);
      var i := 1;
      while i < 16
        invariant 1 <= i <= 16
      {
        if sizes[i] > Shl(1, i) {
          ShlOne(i);
          assert !FitsAt(sizelist, i);
          return false;
        }
        i := i + 1;
      }
      var next_code;
      ok, next_code, firstcode, firstsymbol, maxcode := Ranges(sizelist, sizes);
      if ok {
        FillTables(sizelist, next_code);
      }
    }

    /** The last loop: one step for each symbol in order. */
    method FillTables(lens: seq<nat>, next: seq<uint16>)
      requires Shape() && |lens| <= ZNSYMS && ZLengths(lens) && Fits(lens)
      requires |next| == 16
      requires forall w :: 0 <= w < ZFAST_SIZE ==> fast[w] == 0
      requires maxcode[16] == 0x1_0000
      requires RangesSet(lens, 16, firstcode, firstsymbol, maxcode)
      requires forall l {:trigger next[l]} :: 1 <= l <= ZMAX_BITS ==> next[l] == First(lens, l)
      modifies `fast, `size, `value
      ensures Built(lens)
    {
      hide First, Offset, Covered;
      var next_code := next;
      var i := 0;
      assert lens[..0] == [];
      while i < |lens|
        invariant 0 <= i <= |lens| && Shape() && |next_code| == 16
        invariant forall l {:trigger next_code[l]} :: 1 <= l <= ZMAX_BITS ==> next_code[l] == First(lens, l) + Count(lens[..i], l)
        invariant forall j :: 0 <= j < i && lens[j] > 0 ==> Listed(lens, j, size, value)
        invariant forall w :: 0 <= w < ZFAST_SIZE ==> FastSoFar(lens, i, w, fast[w])
      {
        var s := lens[i];
        if s != 0 {
          AddSymbol(lens, i, next_code[s]);
          next_code := next_code[s := next_code[s] + 1];
        }
        CountsStep(lens, i);
        i := i + 1;
      }
      forall w | 0 <= w < ZFAST_SIZE ensures FastEntry(lens, w, fast[w]) {
        assert FastSoFar(lens, |lens|, w, fast[w]);
      }
    }

    /** Lists symbol i and enters its code in the fast table. */
    method AddSymbol(lens: seq<nat>, i: nat, code: nat)
      requires Shape() && i < |lens| <= ZNSYMS && ZLengths(lens) && Fits(lens)
      requires 1 <= lens[i] <= ZMAX_BITS && RangeSet(lens, lens[i], firstcode, firstsymbol, maxcode) && code == Code(lens, i)
      requires forall j :: 0 <= j < i && lens[j] > 0 ==> Listed(lens, j, size, value)
      requires forall w :: 0 <= w < ZFAST_SIZE ==> FastSoFar(lens, i, w, fast[w])
      modifies `fast, `size, `value
      ensures Shape() && code < 0x8000
      ensures forall j :: 0 <= j <= i && lens[j] > 0 ==> Listed(lens, j, size, value)
      ensures forall w :: 0 <= w < ZFAST_SIZE ==> FastSoFar(lens, i + 1, w, fast[w])
    {
      hide First, Offset, Count, Covered, Pow2, Fits, ZLengths, FastSoFar, FastMatch;
      var s := lens[i];
      CodeFits(lens, i);
      Pow2Upto15(s);
      PlaceInRange(lens, i);
      forall j | 0 <= j < i && lens[j] > 0 ensures Place(lens, j) != Place(lens, i) {
        PlaceInjective(lens, i, j);
      }
      var c := code - firstcode[s] + firstsymbol[s];
      size := size[c := s];
      value := value[c := i];
      if s <= ZFAST_BITS { FillFast(lens, i, s, code); } else { TooLong(lens, i); }
    }

    /** A long code has no entries. */
    lemma TooLong(lens: seq<nat>, i: nat)
      requires i < |lens| && lens[i] > ZFAST_BITS && |fast| == ZFAST_SIZE
      requires forall w :: 0 <= w < ZFAST_SIZE ==> FastSoFar(lens, i, w, fast[w])
      ensures forall w :: 0 <= w < ZFAST_SIZE ==> FastSoFar(lens, i + 1, w, fast[w])
    {
      assert forall w :: !FastMatch(lens, i, w);
    }

    /** The inner loop: every 9-bit window that starts with the code. */
    method FillFast(ghost lens: seq<nat>, i: nat, s: nat, code: nat)
      requires Shape() && i < |lens| <= ZNSYMS && 1 <= s == lens[i] <= ZFAST_BITS
      requires code == Code(lens, i) < Pow2(s)
      requires forall w :: 0 <= w < ZFAST_SIZE ==> FastSoFar(lens, i, w, fast[w])
      modifies `fast
      ensures |fast| == ZFAST_SIZE
      ensures forall w :: 0 <= w < ZFAST_SIZE ==> FastSoFar(lens, i + 1, w, fast[w])
    {
      hide Low, Shl, Pow2, BitReverseN;
      FastValue(s, i);
      var fastv := Or(Shl(s, 9), i);
      var j := BitReverseN(code, s);
      BitReverseNIsRev(code, s);
      ghost var r, before := j, fast;
      LowBelow(r, s);
      ShlOne(s);
      while j < ZFAST_SIZE
        invariant |fast| == ZFAST_SIZE
        invariant Low(j, s) == r
        invariant forall w :: 0 <= w < ZFAST_SIZE ==>
          fast[w] == if w < j && Low(w, s) == r then fastv else before[w]
        decreases ZFAST_SIZE - j
      {
        fast := fast[j := fastv];
        NoneBetween(j, s);
        LowAdd(j, s);
        j := j + Shl(1, s);
      }
      forall w | 0 <= w < ZFAST_SIZE ensures FastSoFar(lens, i + 1, w, fast[w]) {
        assert FastSoFar(lens, i, w, before[w]);
        if FastMatch(lens, i, w) { assert fast[w] == 512 * lens[i] + i; }
      }
    }
  }

  /** What the tables hold for the codes of length l. */
  ghost predicate RangeSet(lens: seq<nat>, l: nat, firstcode: seq<nat>, firstsymbol: seq<nat>, maxcode: seq<nat>) {
    && l <= ZMAX_BITS && l < |firstcode| && l < |firstsymbol| && l < |maxcode|
    && firstcode[l] == First(lens, l) && firstsymbol[l] == Offset(lens, l) && maxcode[l] == Covered(lens, l)
  }

  ghost predicate RangesSet(lens: seq<nat>, n: nat, firstcode: seq<nat>, firstsymbol: seq<nat>, maxcode: seq<nat>) {
    forall l :: 1 <= l < n ==> RangeSet(lens, l, firstcode, firstsymbol, maxcode)
  }

  lemma Sentinel(lens: seq<nat>, firstcode: seq<nat>, firstsymbol: seq<nat>, maxcode: seq<nat>)
    requires RangesSet(lens, 16, firstcode, firstsymbol, maxcode) && |maxcode| == 17
    ensures RangesSet(lens, 16, firstcode, firstsymbol, maxcode[16 := 0x1_0000])
  {
    var mc := maxcode[16 := 0x1_0000];
    forall l | 1 <= l < 16 ensures RangeSet(lens, l, firstcode, firstsymbol, mc) {
      assert RangeSet(lens, l, firstcode, firstsymbol, maxcode);
    }
  }

  ghost predicate FitsBelow(lens: seq<nat>, n: nat) {
    forall l: nat :: 1 <= l < n ==> FitsAt(lens, l)
  }

  lemma RangesStep(lens: seq<nat>, i: nat, firstcode: seq<nat>, firstsymbol: seq<nat>, maxcode: seq<nat>)
    requires 1 <= i <= ZMAX_BITS && i < |firstcode| && i < |firstsymbol| && i < |maxcode|
    requires RangesSet(lens, i, firstcode, firstsymbol, maxcode)
    ensures RangesSet(lens, i + 1, firstcode[i := First(lens, i)], firstsymbol[i := Offset(lens, i)],
                      maxcode[i := Shl(First(lens, i) + Count(lens, i), 16 - i)])
  {
    hide First, Offset, Covered, Count, Shl;
    CoveredIsFirst(lens, i);
    var fc, fs := firstcode[i := First(lens, i)], firstsymbol[i := Offset(lens, i)];
    var mc := maxcode[i := Shl(First(lens, i) + Count(lens, i), 16 - i)];
    forall l | 1 <= l < i + 1 ensures RangeSet(lens, l, fc, fs, mc) {
      if l < i { assert RangeSet(lens, l, firstcode, firstsymbol, maxcode); }
    }
  }

  lemma RangeStep(lens: seq<nat>, l: nat)
    requires 1 <= l <= ZMAX_BITS
    ensures Pow2(l) <= 0x8000 && Shl(1, l) == Pow2(l) && Pow2(l + 1) == 2 * Pow2(l)
    ensures Offset(lens, l) <= |lens|
    ensures Offset(lens, l + 1) == Offset(lens, l) + Count(lens, l)
    ensures First(lens, l + 1) == 2 * (First(lens, l) + Count(lens, l))
    ensures First(lens, l) + Count(lens, l) <= Pow2(l) && FitsBelow(lens, l) ==> FitsBelow(lens, l + 1)
    ensures First(lens, l) + Count(lens, l) > Pow2(l) ==> !Fits(lens)
  {
    Pow2Upto15(l);
    ShlOne(l);
    OffsetBound(lens, l);
    assert First(lens, l) + Count(lens, l) > Pow2(l) ==> !FitsAt(lens, l);
  }

  /** Without codes of 16 bits there are none to fit. */
  lemma FitsTo15(lens: seq<nat>)
    requires ZLengths(lens) && FitsBelow(lens, 16)
    ensures Fits(lens)
  {
    hide Count, Pow2, ZLengths, First;
    NoLongCodes(lens);
    assert FitsAt(lens, 15);
    FirstStep(lens, 15);
    forall l: nat | 1 <= l <= MAX_BITS ensures FitsAt(lens, l) {
      if l < 16 { assert FitsAt(lens, l); }
    }
  }

  lemma FirstStep(lens: seq<nat>, l: nat)
    requires l >= 1
    ensures First(lens, l + 1) == 2 * (First(lens, l) + Count(lens, l)) && Pow2(l + 1) == 2 * Pow2(l)
  {
  }

  lemma {:induction false} NoLongCodes(lens: seq<nat>)
    requires ZLengths(lens)
    ensures Count(lens, 16) == 0
  {
    if lens != [] { NoLongCodes(lens[..|lens| - 1]); }
  }

  ghost predicate IsHistogram(lens: seq<nat>, sizes: seq<nat>) {
    |sizes| == 17 && forall l {:trigger sizes[l]} :: 1 <= l <= 16 ==> sizes[l] == Count(lens, l)
  }

  /** The first loop of the builder. */
  method CountSizes(sizelist: seq<nat>) returns (sizes: seq<nat>)
    requires ZLengths(sizelist)
    ensures IsHistogram(sizelist, sizes)
  {
    sizes := seq(17, _ => 0);
    assert sizelist[..0] == [];
    var i := 0;
    while i < |sizelist|
      invariant 0 <= i <= |sizelist| && |sizes| == 17
      invariant forall l {:trigger sizes[l]} :: 0 <= l <= 16 ==> sizes[l] == Count(sizelist[..i], l)
    {
      CountsStep(sizelist, i);
      sizes := sizes[sizelist[i] := sizes[sizelist[i]] + 1];
      i := i + 1;
    }
    assert sizelist[..|sizelist|] == sizelist;
    sizes := sizes[0 := 0];
  }

  lemma NoRanges(lens: seq<nat>, firstcode: seq<nat>, firstsymbol: seq<nat>, maxcode: seq<nat>)
    ensures First(lens, 1) == 0 <= Pow2(1) && Offset(lens, 1) == 0 && FitsBelow(lens, 1)
    ensures RangesSet(lens, 1, firstcode, firstsymbol, maxcode)
  {
  }

  /** The second loop: the code range of every length. */
  method Ranges(ghost lens: seq<nat>, sizes: seq<nat>)
      returns (ok: bool, next_code: seq<uint16>, firstcode: seq<uint16>, firstsymbol: seq<uint16>, maxcode: seq<nat>)
    requires |lens| <= ZNSYMS && ZLengths(lens) && IsHistogram(lens, sizes)
    ensures |next_code| == 16 && |firstcode| == 16 && |firstsymbol| == 16 && |maxcode| == 17
    ensures ok <==> Fits(lens)
    ensures ok ==> maxcode[16] == 0x1_0000
    ensures ok ==> RangesSet(lens, 16, firstcode, firstsymbol, maxcode)
    ensures ok ==> forall l {:trigger next_code[l]} :: 1 <= l <= ZMAX_BITS ==> next_code[l] == First(lens, l)
  {
    hide First, Offset, Count, Covered, Pow2, Shl, RangesSet, FitsBelow, Fits, ZLengths;
    next_code := seq(16, _ => 0);
    firstcode := seq(16, _ => 0);
    firstsymbol := seq(16, _ => 0);
    maxcode := seq(17, _ => 0);
    NoRanges(lens, firstcode, firstsymbol, maxcode);
    var code, k, i := 0, 0, 1;
    while i < 16
      invariant 1 <= i <= 16
      invariant |next_code| == 16 && |firstcode| == 16 && |firstsymbol| == 16 && |maxcode| == 17
      invariant code == First(lens, i) <= Pow2(i)
      invariant k == Offset(lens, i)
      invariant FitsBelow(lens, i)
      invariant RangesSet(lens, i, firstcode, firstsymbol, maxcode)
      invariant forall l {:trigger next_code[l]} :: 1 <= l < i ==> next_code[l] == First(lens, l)
    {
      RangeStep(lens, i);
      RangesStep(lens, i, firstcode, firstsymbol, maxcode);
      next_code := next_code[i := code];
      firstcode := firstcode[i := code];
      firstsymbol := firstsymbol[i := k];
      code := code + sizes[i];
      if sizes[i] != 0 {
        if code - 1 >= Shl(1, i) { ok := false; return; }
      }
      maxcode := maxcode[i := Shl(code, 16 - i)];
      code := 2 * code;
      k := k + sizes[i];
      i := i + 1;
    }
    FitsTo15(lens);
    Sentinel(lens, firstcode, firstsymbol, maxcode);
    maxcode := maxcode[16 := 0x1_0000];
    ok := true;
  }

  /** Symbol i stands at its place among the symbols sorted by code. */
  ghost predicate Listed(lens: seq<nat>, i: nat, size: seq<nat>, value: seq<nat>)
    requires i < |lens|
  {
    var p := Place(lens, i);
    p < |size| && p < |value| && size[p] == lens[i] && value[p] == i
  }

  lemma CountsStep(lens: seq<nat>, i: nat)
    requires i < |lens|
    ensures forall l: nat :: Count(lens[..i + 1], l) == Count(lens[..i], l) + if lens[i] == l then 1 else 0
  {
    forall l: nat ensures Count(lens[..i + 1], l) == Count(lens[..i], l) + if lens[i] == l then 1 else 0 {
      CountStep(lens, i, l);
    }
  }

  lemma NoneBetween(j: nat, s: nat)
    ensures forall w: nat :: j < w < j + Pow2(s) ==> Low(w, s) != Low(j, s)
  {
    forall w: nat | j < w < j + Pow2(s) ensures Low(w, s) != Low(j, s) { LowGap(j, w, s); }
  }

  lemma LowBelow(r: nat, s: nat)
    requires r < Pow2(s)
    ensures Low(r, s) == r
    ensures forall w: nat :: w < r ==> Low(w, s) != r
  {
    LowSmall(r, s);
    forall w: nat | w < r ensures Low(w, s) != r { LowSmall(w, s); }
  }

  /** FastEntry for the symbols below n. */
  ghost predicate FastSoFar(lens: seq<nat>, n: nat, w: nat, v: nat) {
    || (v == 0 && forall i: nat :: i < n ==> !FastMatch(lens, i, w))
    || (exists i: nat :: i < n && FastMatch(lens, i, w) && v == 512 * lens[i] + i)
  }

  lemma ShlOne(n: nat)
    ensures Shl(1, n) == Pow2(n)
  {
    ShlIsMul(1, n);
  }

  lemma Pow2Upto15(l: nat)
    requires l <= ZMAX_BITS
    ensures Pow2(l) <= 0x8000
  {
    Pow2Values();
    Pow2Mono(l, 15);
  }

  lemma FastValue(s: nat, i: nat)
    requires s <= ZFAST_BITS && i < 512
    ensures Or(Shl(s, 9), i) == 512 * s + i < 0x1_0000
    ensures Shr(512 * s + i, 9) == s && Low(512 * s + i, 9) == i
  {
    Pow2Values();
    OrIsAdd(i, 9, s);
    ShlIsMul(s, 9);
    ShrIsDiv(512 * s + i, 9);
  }
}
