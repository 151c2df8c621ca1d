/** The JPEG reader's Huffman tables, Annex C of ITU-T T.81: the canonical code of the sizes in order,
    with a table for the codes of up to nine bits. */
module JpegHuffman {
  import opened Bits
  import opened Canonical

  const FAST_BITS := 9
  const FAST_SIZE := 512
  const NOT_FAST := 255

  // ----- sizes in order

  ghost predicate Sorted(lens: seq<nat>) {
    && (forall i :: 0 <= i < |lens| ==> 1 <= lens[i] <= MAX_BITS)
    && (forall i, j :: 0 <= i < j < |lens| ==> lens[i] <= lens[j])
  }

  /** count[0] ones, count[1] twos, and so on. */
  ghost function Sizes(count: seq<nat>, n: nat): seq<nat>
    requires n <= |count|
  {
    if n == 0 then [] else Sizes(count, n - 1) + seq(count[n - 1], i => n)
  }

  lemma {:induction false} SizesSorted(count: seq<nat>, n: nat)
    requires n <= |count| && n <= MAX_BITS
    ensures Sorted(Sizes(count, n)) && forall i :: 0 <= i < |Sizes(count, n)| ==> Sizes(count, n)[i] <= n
  {
    if n > 0 { SizesSorted(count, n - 1); }
  }

  /** The symbols with codes shorter than l come first. */
  lemma {:induction false} ShorterFirst(lens: seq<nat>, l: nat)
    requires Sorted(lens) && l >= 1
    ensures Offset(lens, l) <= |lens|
    ensures forall i :: 0 <= i < |lens| ==> (lens[i] < l <==> i < Offset(lens, l))
  {
    hide Offset;
    if lens == [] {
      OffsetEmpty(l);
    } else {
      var n := |lens| - 1;
      var rest := lens[..n];
      ShorterFirst(rest, l);
      OffsetOfAppend(rest, lens[n], l);
      assert lens == rest + [lens[n]];
      assert forall i :: 0 <= i < n ==> rest[i] == lens[i];
      if lens[n] < l && n > 0 { assert rest[n - 1] < l; }
    }
  }

  /** Sorted by size, a symbol's place is its number. */
  lemma PlaceIsIndex(lens: seq<nat>, i: nat)
    requires Sorted(lens) && i < |lens|
    ensures Place(lens, i) == i
  {
    hide Offset;
    var l := lens[i];
    var head := lens[..i];
    ShorterFirst(lens, l);
    ShorterFirst(head, l);
    ShorterFirst(head, l + 1);
    OffsetStep(head, l);
    assert forall j :: 0 <= j < i ==> head[j] == lens[j] && head[j] < l + 1;
    assert Offset(lens, l) <= i;
    var a, b := Offset(lens, l), Offset(head, l);
    assert a < i ==> head[a] == lens[a];
    assert b < i ==> head[b] == lens[b];
    HeadEnds(head, l + 1);
  }

  /** A list of shorter sizes only. */
  lemma HeadEnds(lens: seq<nat>, l: nat)
    requires Sorted(lens) && l >= 1 && forall i :: 0 <= i < |lens| ==> lens[i] < l
    ensures Offset(lens, l) == |lens|
  {
    hide Offset;
    ShorterFirst(lens, l);
    if lens != [] { assert lens[|lens| - 1] < l; }
  }

  lemma OffsetStep(lens: seq<nat>, l: nat)
    requires l >= 1
    ensures Offset(lens, l + 1) == Offset(lens, l) + Count(lens, l)
  {
  }

  // ----- the tables

  /** The 9-bit window starts with the code of symbol i. */
  ghost predicate FastMatch(lens: seq<nat>, i: nat, w: nat) {
    i < |lens| && 1 <= lens[i] <= FAST_BITS && Shr(w, FAST_BITS - lens[i]) == Code(lens, i)
  }

  ghost predicate FastSoFar(lens: seq<nat>, n: nat, w: nat, v: nat) {
    || (v == NOT_FAST && forall i: nat :: i < n ==> !FastMatch(lens, i, w))
    || (v < n && FastMatch(lens, v, w))
  }

  ghost predicate LengthsSet(lens: seq<nat>, n: nat, maxcode: seq<nat>, delta: seq<int>)
    requires n <= 17 == |delta| && |maxcode| == 18
  {
    && (forall l: nat :: 1 <= l < n ==> maxcode[l] == Covered(lens, l))
    && (forall l: nat :: 1 <= l < n ==> delta[l] == Offset(lens, l) - First(lens, l))
  }

  class Huffman {
    var fast: seq<byte>
    var code: seq<nat>
    var values: seq<byte>
    var size: seq<nat>
    var maxcode: seq<nat>
    var delta: seq<int>

    ghost predicate Shape()
      reads this
    {
      && |fast| == FAST_SIZE && |code| == 256 && |values| == 256 && |size| == 257 && |maxcode| == 18 && |delta| == 17
    }

    /** The tables are those of the canonical code of lens, of at most 256 symbols. 255 marks what is not
        in the fast table; for symbol number 255 it does not matter. */
    ghost predicate Built(lens: seq<nat>)
      reads this
    {
      && Shape() && |lens| <= 256 && Sorted(lens) && Fits(lens) && size[..|lens|] == lens && size[|lens|] == 0
      && (forall i :: 0 <= i < |lens| ==> code[i] == Code(lens, i))
      && LengthsSet(lens, 17, maxcode, delta) && maxcode[17] == 0xFFFF_FFFF
      && (forall w :: 0 <= w < FAST_SIZE ==> FastSoFar(lens, |lens|, w, fast[w]))
    }

    constructor (values: seq<byte>)
      requires |values| == 256
      ensures Shape() && this.values == values
    {
      fast, code, size := seq(FAST_SIZE, i => 0), seq(256, i => 0), seq(257, i => 0);
      maxcode, delta := seq(18, i => 0), seq(17, i => 0);
      this.values := values;
    }

    /** Builds the tables, and refuses exactly the counts whose codes do not fit. */
    method Build(count: seq<nat>) returns (ok: bool)
      requires Shape() && |count| == 16 && |Sizes(count, 16)| <= 256
      modifies this
      ensures Shape() && values == old(values)
      ensures ok <==> Fits(Sizes(count, 16))
      ensures ok ==> Built(Sizes(count, 16))
    {
      hide Fits, Sorted;
      ghost var lens := Sizes(count, 16);
      SizesSorted(count, 16);
      ListSizes(count);
      var k;
      ok, k := AssignCodes(lens);
      if ok { FillFast(k, lens); }
    }

    /** The sizes of the symbols in order, ended by zero. */
    method ListSizes(count: seq<nat>)
      requires Shape() && |count| == 16 && |Sizes(count, 16)| <= 256
      modifies `size
      ensures Shape() && size[..|Sizes(count, 16)|] == Sizes(count, 16) && size[|Sizes(count, 16)|] == 0
    {
      var i, k := 0, 0;
      while i < 16
        invariant 0 <= i <= 16 && Shape() && k == |Sizes(count, i)| <= 256 && size[..k] == Sizes(count, i)
      {
        SizesGrow(count, i + 1, 16);
        var j := 0;
        while j < count[i]
          invariant 0 <= j <= count[i] && Shape() && k == |Sizes(count, i)| + j
          invariant size[..k] == Sizes(count, i) + seq(j, m => i + 1)
        {
          size := size[k := i + 1];
          k := k + 1;
          j := j + 1;
        }
        i := i + 1;
      }
      size := size[k := 0];
    }

    /** Codes, and for every length the difference to the symbol's number and the end of the codes. */
    method AssignCodes(ghost lens: seq<nat>) returns (ok: bool, k: nat)
      requires Shape() && |lens| <= 256 && Sorted(lens) && size[..|lens|] == lens && size[|lens|] == 0
      modifies `code, `maxcode, `delta
      ensures Shape() && (ok <==> Fits(lens))
      ensures ok ==> k == |lens| && forall i :: 0 <= i < |lens| ==> code[i] == Code(lens, i)
      ensures ok ==> LengthsSet(lens, 17, maxcode, delta) && maxcode[17] == 0xFFFF_FFFF
    {
      hide Fits, FitsAt, Count, Offset, Covered, Sorted, Shl, Pow2, Code, First;
      var c, j := 0, 1;
      k := 0;
      FirstLength(lens);
      while j <= 16
        invariant 1 <= j <= 17 && Shape() && k == Offset(lens, j) <= |lens| && c == First(lens, j)
        invariant forall i :: 0 <= i < k ==> code[i] == Code(lens, i)
        invariant LengthsSet(lens, j, maxcode, delta)
        invariant (forall l: nat :: 1 <= l < j ==> FitsAt(lens, l)) && c <= Pow2(j)
      {
        ghost var n := k - c;
        delta := delta[j := k - c];
        NextLength(lens, j);
        if size[k] == j {
          while size[k] == j
            invariant Shape() && Offset(lens, j) <= k <= Offset(lens, j + 1) && c == First(lens, j) + (k - Offset(lens, j))
            invariant forall i :: 0 <= i < k ==> code[i] == Code(lens, i)
            invariant LengthsSet(lens, j, maxcode, delta) && delta[j] == n
            decreases Offset(lens, j + 1) - k
          {
            assert k < |lens| && size[..|lens|][k] == size[k];
            AtLength(lens, j, k);
            code := code[k := c];
            k := k + 1;
            c := c + 1;
          }
          assert k < |lens| ==> size[..|lens|][k] == size[k];
          PastLength(lens, j, k);
          ShlIsMul(1, j);
          if c - 1 >= Shl(1, j) {
            NotFit(lens, j);
            return false, k;
          }
        } else {
          assert k < |lens| ==> size[..|lens|][k] == size[k];
          PastLength(lens, j, k);
        }
        FitAt(lens, j, c);
        CoveredIsFirst(lens, j);
        maxcode := maxcode[j := Shl(c, 16 - j)];
        c := 2 * c;
        j := j + 1;
      }
      maxcode := maxcode[17 := 0xFFFF_FFFF];
      AllFit(lens);
      AllPlaced(lens);
      ok := true;
    }

    /** Every window that starts with a short code. */
    method FillFast(k: nat, ghost lens: seq<nat>)
      requires Shape() && k == |lens| <= 256 && Sorted(lens) && Fits(lens) && size[..|lens|] == lens && size[|lens|] == 0
      requires forall i :: 0 <= i < |lens| ==> code[i] == Code(lens, i)
      modifies `fast
      ensures Shape() && forall w :: 0 <= w < FAST_SIZE ==> FastSoFar(lens, |lens|, w, fast[w])
    {
      hide Fits, Sorted, Code, Shl, Pow2;
      fast := seq(FAST_SIZE, i => NOT_FAST);
      var i := 0;
      while i < k
        invariant 0 <= i <= k && Shape()
        invariant forall w :: 0 <= w < FAST_SIZE ==> FastSoFar(lens, i, w, fast[w])
      {
        assert size[..|lens|][i] == size[i];
        var s := size[i];
        if s <= FAST_BITS {
          CodeRoom(lens, i);
          ghost var before := fast;
          var c, m := Shl(code[i], FAST_BITS - s), Shl(1, FAST_BITS - s);
          var j := 0;
          while j < m
            invariant 0 <= j <= m && Shape()
            invariant forall w :: 0 <= w < FAST_SIZE ==> fast[w] == if c <= w < c + j then i else before[w]
          {
            fast := fast[c + j := i];
            j := j + 1;
          }
          forall w | 0 <= w < FAST_SIZE ensures FastSoFar(lens, i + 1, w, fast[w]) {
            FastStep(lens, i, w, before[w]);
          }
        } else {
          forall w | 0 <= w < FAST_SIZE ensures FastSoFar(lens, i + 1, w, fast[w]) {
            assert FastSoFar(lens, i, w, fast[w]);
          }
        }
        i := i + 1;
      }
    }
  }

  lemma {:induction false} SizesGrow(count: seq<nat>, m: nat, n: nat)
    requires m <= n <= |count|
    ensures |Sizes(count, m)| <= |Sizes(count, n)|
  {
    if m < n { SizesGrow(count, m, n - 1); }
  }

  lemma FirstLength(lens: seq<nat>)
    ensures Offset(lens, 1) == 0 && First(lens, 1) == 0 && Pow2(1) == 2
  {
  }

  lemma NextLength(lens: seq<nat>, j: nat)
    requires j >= 1
    ensures Offset(lens, j + 1) == Offset(lens, j) + Count(lens, j) <= |lens|
    ensures First(lens, j + 1) == 2 * (First(lens, j) + Count(lens, j)) && Pow2(j + 1) == 2 * Pow2(j)
  {
    OffsetBound(lens, j + 1);
  }

  lemma AtLength(lens: seq<nat>, j: nat, k: nat)
    requires Sorted(lens) && k < |lens| && lens[k] == j
    ensures k < Offset(lens, j + 1) && Code(lens, k) == First(lens, j) + k - Offset(lens, j)
  {
    hide Offset, First;
    ShorterFirst(lens, j + 1);
    PlaceIsIndex(lens, k);
  }

  lemma PastLength(lens: seq<nat>, j: nat, k: nat)
    requires Sorted(lens) && j >= 1 && Offset(lens, j) <= k <= Offset(lens, j + 1) <= |lens| && (k < |lens| ==> lens[k] != j)
    ensures k == Offset(lens, j + 1)
  {
    hide Offset;
    ShorterFirst(lens, j);
    ShorterFirst(lens, j + 1);
  }

  lemma NotFit(lens: seq<nat>, j: nat)
    requires 1 <= j <= 16 && First(lens, j) + Count(lens, j) > Pow2(j)
    ensures !Fits(lens)
  {
    assert !FitsAt(lens, j);
  }

  lemma FitAt(lens: seq<nat>, j: nat, c: nat)
    requires c == First(lens, j) + Count(lens, j) <= Pow2(j)
    ensures FitsAt(lens, j)
  {
  }

  lemma AllFit(lens: seq<nat>)
    requires forall l: nat :: 1 <= l < 17 ==> FitsAt(lens, l)
    ensures Fits(lens)
  {
  }

  lemma AllPlaced(lens: seq<nat>)
    requires Sorted(lens)
    ensures Offset(lens, 17) == |lens|
  {
    HeadEnds(lens, 17);
  }

  /** A short code and the windows it starts. */
  lemma CodeRoom(lens: seq<nat>, i: nat)
    requires Sorted(lens) && Fits(lens) && i < |lens| && lens[i] <= FAST_BITS
    ensures Shl(Code(lens, i), FAST_BITS - lens[i]) + Shl(1, FAST_BITS - lens[i]) <= FAST_SIZE
  {
    var n := FAST_BITS - lens[i];
    CodeFits(lens, i);
    ShlAdd(Code(lens, i), 1, n);
    ShlMono(Code(lens, i) + 1, Pow2(lens[i]), n);
    ShlPow2(lens[i], n);
    Pow2Values();
  }

  lemma FastStep(lens: seq<nat>, i: nat, w: nat, v: nat)
    requires Sorted(lens) && i < |lens| <= 256 && lens[i] <= FAST_BITS && FastSoFar(lens, i, w, v)
    ensures var c, m := Shl(Code(lens, i), FAST_BITS - lens[i]), Shl(1, FAST_BITS - lens[i]);
      FastSoFar(lens, i + 1, w, if c <= w < c + m then i else v)
  {
    hide Code, Shl, Shr;
    var n := FAST_BITS - lens[i];
    var c := Code(lens, i);
    ShlAdd(c, 1, n);
    if Shl(c, n) <= w < Shl(c + 1, n) { ShrMono(c, w, c + 1, n); }
    if Shr(w, n) == c { ShrBounds(w, n); }
  }
}
