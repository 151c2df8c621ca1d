/** When the inflater's loop over a block ends. Past the end of the input only zeros are read, and only
    reading extra bits puts them into the buffer: literals use the buffer up, but matches may not. */
module InflateEnds {
  import opened Bits
  import opened Canonical
  import opened ZHuffman
  import opened BitReader
  import opened Deflate
  import opened FixedCodes
  import opened Turns
  import opened Words
  import opened Wrappers

  /** Buffered bits are at most 32; among one more numbers of them than there are, two are equal. */
  const ROUNDS := 33

  lemma {:induction false} Pigeonhole(s: seq<nat>, n: nat) returns (i: nat, j: nat)
    requires |s| > n && forall k :: 0 <= k < |s| ==> s[k] < n
    ensures i < j < |s| && s[i] == s[j]
    decreases n
  {
    assert s[0] < n;
    if k :| 0 <= k < |s| && s[k] == n - 1 {
      if m :| 0 <= m < |s| && m != k && s[m] == n - 1 {
        i, j := if k < m then k else m, if k < m then m else k;
      } else {
        var rest := s[..k] + s[k + 1..];
        assert forall m :: 0 <= m < |rest| ==> rest[m] == s[if m < k then m else m + 1];
        i, j := Pigeonhole(rest, n - 1);
        i, j := if i < k then i else i + 1, if j < k then j else j + 1;
      }
    } else {
      i, j := Pigeonhole(s, n - 1);
    }
  }

  lemma StillGoing(lens: seq<nat>, dlens: seq<nat>, s: seq<bool>, at: Place, k: nat, m: nat)
    requires Codes(lens, dlens) && at.n <= 32 && k <= m && Runs(lens, dlens, s, at, m).None?
    ensures Runs(lens, dlens, s, at, k).None?
  {
    hide Runs;
    if Runs(lens, dlens, s, at, k).Some? { RunsMore(lens, dlens, s, at, k, m); }
  }

  /** Two of the places are alike. */
  lemma TwoAlike(lens: seq<nat>, dlens: seq<nat>, s: seq<bool>, at: Place) returns (i: nat, j: nat)
    requires Codes(lens, dlens) && at.n <= 32 && Runs(lens, dlens, s, at, ROUNDS).None?
    ensures i < j <= ROUNDS && Runs(lens, dlens, s, at, i).None? && Runs(lens, dlens, s, at, j).None?
    ensures After(lens, dlens, s, at, i).n == After(lens, dlens, s, at, j).n
  {
    hide Runs, After;
    forall k: nat | k <= ROUNDS ensures Runs(lens, dlens, s, at, k).None? { StillGoing(lens, dlens, s, at, k, ROUNDS); }
    var ns := seq(ROUNDS + 1, k requires 0 <= k <= ROUNDS => After(lens, dlens, s, at, k).n);
    i, j := Pigeonhole(ns, ROUNDS);
  }

  lemma {:induction false} AfterAfter(lens: seq<nat>, dlens: seq<nat>, s: seq<bool>, at: Place, i: nat, j: nat)
    requires Codes(lens, dlens) && at.n <= 32 && i <= j
    requires Runs(lens, dlens, s, at, i).None? && Runs(lens, dlens, s, at, j).None?
    ensures Runs(lens, dlens, s, After(lens, dlens, s, at, i), j - i).None?
    ensures After(lens, dlens, s, After(lens, dlens, s, at, i), j - i) == After(lens, dlens, s, at, j)
    decreases i
  {
    hide TurnAt;
    if i > 0 { AfterAfter(lens, dlens, s, TurnAt(lens, dlens, s, at).at, i - 1, j - 1); }
  }

  /** From a place back to one like it: that goes on for ever. */
  lemma {:induction false} Cycle(lens: seq<nat>, dlens: seq<nat>, s: seq<bool>, at: Place, d: nat, m: nat)
    requires Codes(lens, dlens) && at.n <= 32 && at.p >= |s| && d > 0 && Runs(lens, dlens, s, at, d).None?
    requires After(lens, dlens, s, at, d).n == at.n
    ensures Runs(lens, dlens, s, at, m).None?
    decreases m
  {
    hide Runs, After, TurnAt;
    if m <= d {
      StillGoing(lens, dlens, s, at, m, d);
    } else {
      Cycle(lens, dlens, s, at, d, m - d);
      SameRun(lens, dlens, s, at, After(lens, dlens, s, at, d), m - d);
      RunsOn(lens, dlens, s, at, d, m - d);
    }
  }

  /** Past the end, surviving 33 turns is going on for ever. */
  lemma StuckForever(lens: seq<nat>, dlens: seq<nat>, s: seq<bool>, at: Place, m: nat)
    requires Codes(lens, dlens) && at.n <= 32 && at.p >= |s| && Runs(lens, dlens, s, at, ROUNDS).None?
    ensures Runs(lens, dlens, s, at, m).None?
  {
    hide Runs, After;
    var i, j := TwoAlike(lens, dlens, s, at);
    AfterAfter(lens, dlens, s, at, i, j);
    Cycle(lens, dlens, s, After(lens, dlens, s, at, i), j - i, m);
    RunsOn(lens, dlens, s, at, i, m);
    StillGoing(lens, dlens, s, at, m, i + m);
  }

  /** The loop ends if and only if it does within the bits of the input and 33 turns more. */
  lemma EndsInTime(lens: seq<nat>, dlens: seq<nat>, s: seq<bool>, at: Place)
    requires Codes(lens, dlens) && at.n <= 32
    ensures Terminates(lens, dlens, s, at) <==> Runs(lens, dlens, s, at, |s| + ROUNDS).Some?
  {
    hide Runs, After;
    var n := |s|;
    if Runs(lens, dlens, s, at, n + ROUNDS).None? {
      StillGoing(lens, dlens, s, at, n, n + ROUNDS);
      var end := After(lens, dlens, s, at, n);
      RunsOn(lens, dlens, s, at, n, ROUNDS);
      forall k: nat ensures Runs(lens, dlens, s, at, k).None? {
        StuckForever(lens, dlens, s, end, k);
        RunsOn(lens, dlens, s, at, n, k);
        StillGoing(lens, dlens, s, at, k, n + k);
      }
    }
  }

  // ----- what the codes must be like

  /** The symbol that zeros stand for. */
  ghost function ZeroSymbol(lens: seq<nat>): Option<nat> {
    SymbolAt(lens, Window([], 0, 16))
  }

  /** All literal and length symbols that zeros stand for, but lengths, use the buffer up. */
  ghost predicate NoZeroLength(lens: seq<nat>) {
    ZeroSymbol(lens).None? || ZeroSymbol(lens).value <= END_OF_BLOCK
  }

  lemma SymbolPast(lens: seq<nat>, s: seq<bool>, p: nat)
    requires Silent(s, p)
    ensures SymbolAt(lens, Window(s, p, 16)) == ZeroSymbol(lens)
  {
    hide Window, SymbolAt, Silent;
    SamePast(s, p, 16);
  }

  lemma SamePast(s: seq<bool>, p: nat, k: nat)
    requires Silent(s, p)
    ensures Window(s, p, k) == Window([], 0, k)
  {
    forall i | 0 <= i < k ensures Window(s, p, k)[i] == Window([], 0, k)[i] {
      assert Window(s, p, k)[i] == BitAt(s, p + i);
      assert Window([], 0, k)[i] == BitAt([], 0 + i);
    }
  }

  lemma {:induction false} RunsDry(lens: seq<nat>, dlens: seq<nat>, s: seq<bool>, at: Place)
    requires Codes(lens, dlens) && at.n <= 32 && at.p >= |s| && NoZeroLength(lens)
    ensures Runs(lens, dlens, s, at, at.n + 1).Some?
    decreases at.n
  {
    hide Window, SymbolAt, ZLengths;
    SymbolPast(lens, s, at.p);
    ZeroInside(lens);
    var t := TurnAt(lens, dlens, s, at);
    if t.Goes? {
      RunsDry(lens, dlens, s, t.at);
      RunsMore(lens, dlens, s, t.at, t.at.n + 1, at.n);
    }
  }

  lemma ZeroInside(lens: seq<nat>)
    ensures ZeroSymbol(lens).Some? ==> ZeroSymbol(lens).value < |lens| && lens[ZeroSymbol(lens).value] > 0
  {
  }

  /** If zeros do not stand for a length symbol, the loop ends, whatever the input and wherever it
      stands; every fixed block is such, since there zeros stand for the end of the block. */
  lemma EndsAnyway(lens: seq<nat>, dlens: seq<nat>, s: seq<bool>, at: Place)
    requires Codes(lens, dlens) && at.n <= 32 && NoZeroLength(lens)
    ensures Terminates(lens, dlens, s, at)
  {
    hide Runs, After, NoZeroLength;
    var n := |s|;
    if Runs(lens, dlens, s, at, n).None? {
      var end := After(lens, dlens, s, at, n);
      RunsDry(lens, dlens, s, end);
      RunsOn(lens, dlens, s, at, n, end.n + 1);
    }
  }

  lemma FixedBlocksEnd()
    ensures ZLengths(FixedLens()) && ZeroSymbol(FixedLens()) == Some(END_OF_BLOCK) && NoZeroLength(FixedLens())
  {
    hide FixedLens, SymbolAt;
    var lens, w := FixedLens(), Window([], 0, 16);
    FixedKraft();
    FitsIsKraft(lens);
    FixedCodeIsCanonical(END_OF_BLOCK);
    ZeroMatches(lens, END_OF_BLOCK);
    SymbolIs(lens, END_OF_BLOCK, w);
  }

  lemma SymbolIs(lens: seq<nat>, i: nat, w: seq<bool>)
    requires Fits(lens) && ZLengths(lens) && |w| == 16 && Matches(lens, i, w)
    ensures SymbolAt(lens, w) == Some(i)
  {
    hide Matches;
    MatchUnique(lens, i, SymbolAt(lens, w).value, w);
  }

  /** A symbol whose code is zero is what zeros stand for. */
  lemma ZeroMatches(lens: seq<nat>, i: nat)
    requires i < |lens| && 0 < lens[i] <= 16 && Code(lens, i) == 0
    ensures Matches(lens, i, Window([], 0, 16))
  {
    var w, b := Window([], 0, 16), CodeBits(lens, i);
    forall k | 0 <= k < lens[i] ensures w[..lens[i]][k] == b[k] {
      ToBitsAt(0, lens[i], lens[i] - 1 - k);
      BitZero(lens[i] - 1 - k);
      assert w[k] == BitAt([], 0 + k);
    }
  }

  /** What a turn leaves in the buffer: a length symbol of l bits and e extra bits, a distance symbol
      of d bits and x extra bits; None if it runs dry. */
  function Left(l: nat, e: nat, d: nat, x: nat, n: nat): (r: Option<nat>)
    requires l <= 16 && e <= 24 && d <= 16 && x <= 24 && n <= 32
    ensures r.Some? ==> r.value <= 32
  {
    if n < 16 then None
    else
      var m := Refilled(n - l, e) - e;
      if m < 16 then None else Some(Refilled(m - d, x) - x)
  }

  /** k turns leave something. */
  predicate Lasts(l: nat, e: nat, d: nat, x: nat, n: nat, k: nat)
    requires l <= 16 && e <= 24 && d <= 16 && x <= 24 && n <= 32
    decreases k
  {
    k == 0 || (Left(l, e, d, x, n).Some? && Lasts(l, e, d, x, Left(l, e, d, x, n).value, k - 1))
  }

  /** The turns of a match of zeros last: its distance lies within the output, and the buffer holds out
      for 33 turns. */
  ghost predicate Stuck(lens: seq<nat>, dlens: seq<nat>, at: Place)
    requires Codes(lens, dlens) && at.n <= 32
  {
    && !NoZeroLength(lens) && ZeroSymbol(dlens).Some?
    && var z, d := ZeroSymbol(lens).value, ZeroSymbol(dlens).value;
      && DistBase(d) <= at.size
      && Lasts(lens[z], LengthExtra(z - 257), dlens[d], DistExtra(d), at.n, ROUNDS)
  }

  lemma Enough(n: nat)
    requires 16 <= n <= 32
    ensures Refilled(n, 16) == n
  {
  }

  lemma SilentOn(s: seq<bool>, p: nat, q: nat)
    requires Silent(s, p) && p <= q
    ensures Silent(s, q)
  {
  }

  /** One turn when only zeros are left. */
  lemma TurnPast(lens: seq<nat>, dlens: seq<nat>, s: seq<bool>, at: Place)
    requires Codes(lens, dlens) && at.n <= 32 && Drained(s, at) && !NoZeroLength(lens)
    ensures var t := TurnAt(lens, dlens, s, at);
      if ZeroSymbol(dlens).None? then !t.Goes?
      else
        var z, d := ZeroSymbol(lens).value, ZeroSymbol(dlens).value;
        var left := Left(lens[z], LengthExtra(z - 257), dlens[d], DistExtra(d), at.n);
        if DistBase(d) <= at.size && left.Some? then
          t.Goes? && t.at.n == left.value && t.at.size == at.size + LengthBase(z - 257)
        else t.Fails?
  {
    hide Window, SymbolAt, LengthBase, LengthExtra, DistBase, DistExtra, Field, ZeroSymbol, Refilled, Matches, Silent;
    ZeroInside(lens);
    ZeroInside(dlens);
    var z := ZeroSymbol(lens).value;
    SymbolPast(lens, s, at.p);
    if at.n >= 16 {
      var p, n, e := at.p + lens[z], at.n - lens[z], LengthExtra(z - 257);
      SilentOn(s, at.p, p);
      SilentOn(s, p, p + e);
      FieldPast(s, p, e);
      SymbolPast(dlens, s, p + e);
      Enough(at.n);
      if Refilled(n, e) - e >= 16 { Enough(Refilled(n, e) - e); }
      if ZeroSymbol(dlens).Some? {
        var d := ZeroSymbol(dlens).value;
        SilentOn(s, p, p + e + dlens[d]);
        FieldPast(s, p + e + dlens[d], DistExtra(d));
      }
    }
  }

  lemma {:induction false} LastsIsRuns(lens: seq<nat>, dlens: seq<nat>, s: seq<bool>, at: Place, k: nat)
    requires Codes(lens, dlens) && at.n <= 32 && at.p >= |s| && !NoZeroLength(lens) && ZeroSymbol(dlens).Some?
    requires DistBase(ZeroSymbol(dlens).value) <= at.size
    ensures var z, d := ZeroSymbol(lens).value, ZeroSymbol(dlens).value;
      Runs(lens, dlens, s, at, k).None? <==> Lasts(lens[z], LengthExtra(z - 257), dlens[d], DistExtra(d), at.n, k)
    decreases k
  {
    hide TurnAt, LengthExtra, DistExtra, LengthBase, DistBase, ZeroSymbol, Left;
    if k > 0 {
      TurnPast(lens, dlens, s, at);
      var t := TurnAt(lens, dlens, s, at);
      if t.Goes? { LastsIsRuns(lens, dlens, s, t.at, k - 1); }
    }
  }

  /** Past the end of the input, the loop goes on for ever exactly if it is stuck. */
  lemma EndsUnlessStuck(lens: seq<nat>, dlens: seq<nat>, s: seq<bool>, at: Place)
    requires Codes(lens, dlens) && at.n <= 32 && at.p >= |s|
    ensures Terminates(lens, dlens, s, at) <==> !Stuck(lens, dlens, at)
  {
    hide Runs, TurnAt, ZeroSymbol, LengthExtra, DistExtra, LengthBase, DistBase, Lasts, NoZeroLength;
    ZeroInside(lens);
    ZeroInside(dlens);
    if NoZeroLength(lens) {
      EndsAnyway(lens, dlens, s, at);
    } else if ZeroSymbol(dlens).None? || DistBase(ZeroSymbol(dlens).value) > at.size {
      TurnPast(lens, dlens, s, at);
      OneTurn(lens, dlens, s, at);
    } else {
      LastsIsRuns(lens, dlens, s, at, ROUNDS);
      if Runs(lens, dlens, s, at, ROUNDS).None? {
        forall k: nat ensures Runs(lens, dlens, s, at, k).None? { StuckForever(lens, dlens, s, at, k); }
      }
    }
  }

  lemma OneTurn(lens: seq<nat>, dlens: seq<nat>, s: seq<bool>, at: Place)
    requires Codes(lens, dlens) && at.n <= 32 && !TurnAt(lens, dlens, s, at).Goes?
    ensures Runs(lens, dlens, s, at, 1).Some?
  {
  }

  /** From anywhere: it ends, or it comes past the end of the input and is stuck there. */
  lemma EndsExactly(lens: seq<nat>, dlens: seq<nat>, s: seq<bool>, at: Place)
    requires Codes(lens, dlens) && at.n <= 32
    ensures Terminates(lens, dlens, s, at) <==>
      Runs(lens, dlens, s, at, |s|).Some? || !Stuck(lens, dlens, After(lens, dlens, s, at, |s|))
  {
    hide Runs, After, Stuck;
    var n := |s|;
    if Runs(lens, dlens, s, at, n).None? {
      var end := After(lens, dlens, s, at, n);
      EndsUnlessStuck(lens, dlens, s, end);
      if k: nat :| Runs(lens, dlens, s, at, k).Some? {
        RunsMore(lens, dlens, s, at, k, n + k);
        RunsOn(lens, dlens, s, at, n, k);
      }
      if k: nat :| Runs(lens, dlens, s, end, k).Some? { RunsOn(lens, dlens, s, at, n, k); }
    }
  }

  lemma {:induction false} GrowsBy(lens: seq<nat>, dlens: seq<nat>, s: seq<bool>, at: Place, k: nat)
    requires Codes(lens, dlens) && at.n <= 32 && at.p >= |s| && !NoZeroLength(lens) && Runs(lens, dlens, s, at, k).None?
    ensures ZeroSymbol(lens).value - 257 < 31
    ensures After(lens, dlens, s, at, k).size == at.size + k * LengthBase(ZeroSymbol(lens).value - 257)
    decreases k
  {
    hide TurnAt, ZeroSymbol, LengthBase, LengthExtra, DistBase, DistExtra, Left;
    ZeroInside(lens);
    if k > 0 {
      TurnPast(lens, dlens, s, at);
      GrowsBy(lens, dlens, s, TurnAt(lens, dlens, s, at).at, k - 1);
      OnceMore(k, LengthBase(ZeroSymbol(lens).value - 257));
    }
  }

  lemma OnceMore(k: nat, x: nat)
    requires k > 0
    ensures k * x == (k - 1) * x + x
  {
  }

  /** Stuck, the output grows at every turn by the length that zeros stand for: if that is not zero, until
      there is no more memory; else it stays, and nothing ever changes. */
  lemma StuckGrows(lens: seq<nat>, dlens: seq<nat>, s: seq<bool>, at: Place, k: nat)
    requires Codes(lens, dlens) && at.n <= 32 && at.p >= |s| && Stuck(lens, dlens, at)
    ensures Runs(lens, dlens, s, at, k).None? && 0 <= ZeroSymbol(lens).value - 257 < 31
    ensures if LengthBase(ZeroSymbol(lens).value - 257) > 0
      then After(lens, dlens, s, at, k).size >= at.size + k
      else After(lens, dlens, s, at, k).size == at.size
  {
    hide Runs, After, ZeroSymbol, LengthBase, Lasts, LengthExtra, DistExtra, DistBase;
    EndsUnlessStuck(lens, dlens, s, at);
    GrowsBy(lens, dlens, s, at, k);
    AtLeast(k, LengthBase(ZeroSymbol(lens).value - 257));
  }

  lemma AtLeast(k: nat, x: nat)
    ensures if x > 0 then k * x >= k else k * x == 0
  {
  }

  // ----- a block that never ends

  /** Lengths for n symbols of which only symbol i has a code. */
  function Only(n: nat, i: nat, l: nat): (lens: seq<nat>)
    ensures |lens| == n && forall j :: 0 <= j < n ==> lens[j] == if j == i then l else 0
  {
    seq(n, j => if j == i then l else 0)
  }

  lemma {:induction false} CountNone(lens: seq<nat>, l: nat)
    requires forall j :: 0 <= j < |lens| ==> lens[j] != l
    ensures Count(lens, l) == 0
  {
    if lens != [] { CountNone(lens[..|lens| - 1], l); }
  }

  lemma OnlyCounts(n: nat, i: nat, l: nat)
    requires i < n && l > 0
    ensures forall k: nat {:trigger Count(Only(n, i, l), k)} :: k != 0 ==> Count(Only(n, i, l), k) == if k == l then 1 else 0
    ensures Count(Only(n, i, l)[..i], l) == 0
  {
    var lens := Only(n, i, l);
    forall k: nat | k != 0 ensures Count(lens, k) == if k == l then 1 else 0 {
      if k == l { CountOne(lens, i, n, l); assert lens[..n] == lens; } else { CountNone(lens, k); }
    }
    CountNone(lens[..i], l);
  }

  lemma {:induction false} CountOne(lens: seq<nat>, i: nat, n: nat, l: nat)
    requires i < n <= |lens| && forall j :: 0 <= j < |lens| ==> (lens[j] == l <==> j == i)
    ensures Count(lens[..n], l) == 1
  {
    CountStep(lens, n - 1, l);
    if n - 1 == i { CountNone(lens[..i], l); } else { CountOne(lens, i, n - 1, l); }
  }

  /** The only code is all zeros, and the builder accepts it. */
  lemma OnlyIsZero(n: nat, i: nat, l: nat)
    requires i < n && 1 <= l <= ZMAX_BITS
    ensures var lens := Only(n, i, l); ZLengths(lens) && Fits(lens) && ZeroSymbol(lens) == Some(i)
  {
    hide Count, Matches, Window, SymbolAt, Covered;
    var lens := Only(n, i, l);
    OnlyCounts(n, i, l);
    NothingBefore(lens, l);
    assert Code(lens, i) == 0;
    OnlyFits(lens, l);
    ZeroMatches(lens, i);
    SymbolIs(lens, i, Window([], 0, 16));
  }

  lemma OnlyFits(lens: seq<nat>, l: nat)
    requires 1 <= l <= ZMAX_BITS && Covered(lens, l - 1) == 0
    requires forall k: nat {:trigger Count(lens, k)} :: k != 0 ==> Count(lens, k) == if k == l then 1 else 0
    ensures Fits(lens)
  {
    hide Count, Shl;
    NothingAfter(lens, l, 16);
    ShlPow2(0, 16 - l);
    Pow2Values();
    Pow2Mono(16 - l, 15);
    FitsIsKraft(lens);
  }

  lemma NeverTurn(lens: seq<nat>, dlens: seq<nat>, s: seq<bool>, at: Place)
    requires Drained(s, at) && 17 <= at.n <= 19 && at.size >= 16385 && Codes(lens, dlens)
    requires ZeroSymbol(lens) == Some(286) && ZeroSymbol(dlens) == Some(28) && lens[286] == 1 && dlens[28] == 10
    ensures var t := TurnAt(lens, dlens, s, at);
      t.Goes? && t.at.n == at.n && t.at.size == at.size && Drained(s, t.at)
  {
    hide ZeroSymbol, TurnAt;
    TurnPast(lens, dlens, s, at);
    assert Left(1, 0, 10, 13, 17) == Some(17) && Left(1, 0, 10, 13, 18) == Some(18) && Left(1, 0, 10, 13, 19) == Some(19);
  }

  lemma {:induction false} NeverStops(lens: seq<nat>, dlens: seq<nat>, s: seq<bool>, at: Place, k: nat)
    requires Drained(s, at) && 17 <= at.n <= 19 && at.size >= 16385 && Codes(lens, dlens)
    requires ZeroSymbol(lens) == Some(286) && ZeroSymbol(dlens) == Some(28) && lens[286] == 1 && dlens[28] == 10
    ensures Runs(lens, dlens, s, at, k).None?
    decreases k
  {
    hide ZeroSymbol, TurnAt, Drained;
    if k > 0 {
      NeverTurn(lens, dlens, s, at);
      NeverStops(lens, dlens, s, TurnAt(lens, dlens, s, at).at, k - 1);
    }
  }

  /** A dynamic block with a length symbol of length zero, 286, that zeros stand for, and a distance
      symbol, 28, with 13 extra bits: with 17 to 19 zeros buffered, no bytes left and 16385 bytes output,
      a turn reads 1 + 10 + 13 zeros and leaves all as it was, and so on for ever. */
  lemma NeverEnds(s: seq<bool>, at: Place)
    requires Drained(s, at) && 17 <= at.n <= 19 && at.size >= 16385
    ensures Codes(Only(287, 286, 1), Only(29, 28, 10)) && Fits(Only(287, 286, 1)) && Fits(Only(29, 28, 10))
    ensures var t := TurnAt(Only(287, 286, 1), Only(29, 28, 10), s, at);
      t.Goes? && t.at.n == at.n && t.at.size == at.size && Drained(s, t.at)
    ensures !Terminates(Only(287, 286, 1), Only(29, 28, 10), s, at)
  {
    hide Only, ZeroSymbol, Fits, TurnAt, Runs, Drained;
    var lens, dlens := Only(287, 286, 1), Only(29, 28, 10);
    OnlyIsZero(287, 286, 1);
    OnlyIsZero(29, 28, 10);
    NeverTurn(lens, dlens, s, at);
    forall k: nat ensures Runs(lens, dlens, s, at, k).None? { NeverStops(lens, dlens, s, at, k); }
  }
}
