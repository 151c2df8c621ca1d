/** Writing a header of counts: the shape of the alphabet and the codes of all counts, read back as the counts. */
module TansWriteDelta {
  import opened Bits
  import opened MsbFirst
  import opened MsbRegister
  import opened TansSpec
  import opened TansShape
  import opened TansUnpackDelta
  import opened TansBuckets
  import opened TansTable
  import opened TansCodes
  import opened TansRunCodes
  import opened Wrappers

  // ----- how many lengths

  /** Neither the runs nor the gaps can be more than the symbols that are in them. */
  function EgLimit(numSyms: nat): nat
    requires numSyms <= 257
  {
    2 * Min(numSyms, 257 - numSyms)
  }

  predicate EgOk(numSyms: nat, e: nat) {
    2 <= numSyms <= 256 && e < EgLimit(numSyms) && (numSyms == 256 ==> e == 0)
  }

  function EgDigits(numSyms: nat): (n: nat)
    requires 2 <= numSyms < 256
    ensures 1 <= n && Pow2(n - 1) <= EgLimit(numSyms) - 1 < Pow2(n)
  {
    Log2Bounds(EgLimit(numSyms) - 1);
    Log2(EgLimit(numSyms) - 1) + 1
  }

  /** As many of the numbers below the limit as there are codes to spare have one bit less; if all 256 symbols occur,
      there is nothing to say. */
  function EgCode(numSyms: nat, e: nat): seq<bool>
    requires EgOk(numSyms, e)
  {
    if numSyms == 256 then []
    else
      var n := EgDigits(numSyms);
      var spare := Pow2(n) - EgLimit(numSyms);
      if e < spare then BitsOf(e, n - 1) else BitsOf(e + spare, n)
  }

  lemma OneBitLess(s: seq<bool>, p: nat, n: nat)
    requires n >= 1
    ensures Msb(s, p, n) / 2 == Msb(s, p, n - 1)
  {
    hide Window, Value;
    WindowSplit(s, p, n - 1, 1);
    ValueSplit(Window(s, p, n - 1), Window(s, p + (n - 1), 1));
    var x := Msb(s, p, n);
    assert Shr(x, 1) == Shr(x / 2, 0) == x / 2;
  }

  lemma NumEgExactly(s: seq<bool>, p: nat, numSyms: nat, e: nat, w: nat)
    requires EgOk(numSyms, e)
    ensures ReadNumEg(s, p, numSyms) == (e, w) <==> Reads(s, p, EgCode(numSyms, e)) && w == |EgCode(numSyms, e)|
  {
    hide Msb, Reads, BitsOf, Pow2, Log2;
    if numSyms == 256 {
      NothingReads(s, p);
    } else {
      var n := EgDigits(numSyms);
      var spare := Pow2(n) - EgLimit(numSyms);
      EgBits(numSyms);
      FieldFits(s, p, n);
      OneBitLess(s, p, n);
      HalfOf(n);
      if e < spare { NumberReads(s, p, e, n - 1); } else { NumberReads(s, p, e + spare, n); }
    }
  }

  lemma HalfOf(n: nat)
    requires n >= 1
    ensures Pow2(n) == 2 * Pow2(n - 1)
  {
  }

  // ----- unary codes

  /** The unary codes that come next are the numbers that are read. */
  lemma UnaryReads(s: seq<bool>, p: nat, vs: seq<nat>, at: nat)
    ensures ReadUnary(s, p, |vs|) == Some(UnaryRead(vs, at)) <==> Reads(s, p, Unary(vs)) && at == p + |Unary(vs)|
  {
    hide Unary;
    var n := |Unary(vs)|;
    if vs == [] {
      UnaryEmpty(s, p);
      NothingReads(s, p);
    } else if p + n <= |s| {
      WindowInside(s, p, n);
      UnaryExactly(s, p, at, vs);
    } else {
      OneAtEnd(vs);
      assert Window(s, p, n)[n - 1] == BitAt(s, p + n - 1) == false;
      if p <= |s| { UnaryExactly(s, p, at, vs); } else { NoOnes(s, p, |vs|); }
    }
  }

  lemma OneAtEnd(vs: seq<nat>)
    requires vs != []
    ensures Unary(vs) != [] && Unary(vs)[|Unary(vs)| - 1]
  {
  }

  lemma {:induction false} NoOnes(s: seq<bool>, p: nat, count: nat)
    requires p >= |s| && count > 0
    ensures ReadUnary(s, p, count).None?
  {
    if count > 1 { NoOnes(s, p, count - 1); }
  }

  // ----- the shape

  /** k runs, each with a gap behind it, take up as much room. */
  lemma {:induction false} RoomTaken(r: seq<nat>, numSyms: nat, k: nat)
    requires Alphabetic(r, numSyms) && 2 * k + 2 <= |r|
    ensures k <= Total(r, k) && r[0] + Total(r, k) + k <= r[2 * k]
    decreases k
  {
    hide Alphabetic;
    if k > 0 {
      RoomTaken(r, numSyms, k - 1);
      RunFits(r, numSyms, k - 1);
    }
  }

  lemma LengthsFit(r: seq<nat>, numSyms: nat)
    requires 2 <= numSyms <= 256 && Alphabetic(r, numSyms)
    ensures EgOk(numSyms, Lengths(r, numSyms))
  {
    hide Total;
    AtLeastOne(r, numSyms);
    var n := |r| / 2 - 1;
    RoomTaken(r, numSyms, n);
    RunFits(r, numSyms, n);
    TotalStep(r, n);
  }

  ghost function ShapeBits(numSyms: nat, us: seq<nat>, r: seq<nat>): seq<bool>
    requires 2 <= numSyms <= 256 && Alphabetic(r, numSyms)
  {
    LengthsFit(r, numSyms);
    EgCode(numSyms, Lengths(r, numSyms)) + (Unary(us) + RunCodes(r, numSyms))
  }

  /** The unary codes of all counts, kept in bytes, and of all lengths behind them. */
  ghost predicate UnaryFits(numSyms: nat, us: seq<nat>, r: seq<nat>)
    requires Alphabetic(r, numSyms)
  {
    |us| == numSyms + Lengths(r, numSyms) && RunPrefixes(r, numSyms, Bytes(us)[numSyms..])
  }

  lemma ShapeIsRead(s: seq<bool>, p: nat, numSyms: nat, us: seq<nat>, r: seq<nat>)
    requires 2 <= numSyms <= 256 && Alphabetic(r, numSyms) && UnaryFits(numSyms, us, r)
    requires Reads(s, p, ShapeBits(numSyms, us, r))
    ensures ReadShape(s, p, numSyms) == Some(Shape(Bytes(us), r, p + |ShapeBits(numSyms, us, r)|))
  {
    hide Reads, EgCode, Unary, RunCodes, RunPrefixes, Alphabetic, ReadNumEg, ReadUnary, ReadRuns, EgOk, Bytes;
    LengthsFit(r, numSyms);
    var e := Lengths(r, numSyms);
    EgBelow(numSyms, e);
    var code := EgCode(numSyms, e);
    ReadsSplit(s, p, code, Unary(us) + RunCodes(r, numSyms));
    ReadsSplit(s, p + |code|, Unary(us), RunCodes(r, numSyms));
    NumEgExactly(s, p, numSyms, e, |code|);
    var at := p + |code| + |Unary(us)|;
    UnaryReads(s, p + |code|, us, at);
    RunsAreRead(s, at, numSyms, e, Bytes(us)[numSyms..], r);
  }

  lemma EgBelow(numSyms: nat, e: nat)
    requires EgOk(numSyms, e)
    ensures e <= 255
  {
  }

  lemma ShapeThere(s: seq<bool>, p: nat, numSyms: nat) returns (us: seq<nat>)
    requires 2 <= numSyms <= 256 && ReadShape(s, p, numSyms).Some?
    ensures var h := ReadShape(s, p, numSyms).value;
      && Alphabetic(h.runs, numSyms) && UnaryFits(numSyms, us, h.runs) && h.unary == Bytes(us)
      && Reads(s, p, ShapeBits(numSyms, us, h.runs)) && h.p == p + |ShapeBits(numSyms, us, h.runs)|
  {
    hide Reads, EgCode, Unary, RunCodes, RunPrefixes, Alphabetic, ReadNumEg, ReadUnary, ReadRuns, EgOk, Bytes;
    var eg := ReadNumEg(s, p, numSyms);
    var u := ReadUnary(s, p + eg.1, numSyms + eg.0).value;
    us := u.vs;
    var a := ReadRuns(s, u.p, numSyms, eg.0, Bytes(us)[numSyms..]).value;
    RunsThere(s, u.p, numSyms, eg.0, Bytes(us)[numSyms..]);
    LengthsFit(a.runs, numSyms);
    UnaryReads(s, p + eg.1, us, u.p);
    NumEgExactly(s, p, numSyms, eg.0, eg.1);
    var code := EgCode(numSyms, eg.0);
    assert eg == (eg.0, eg.1);
    ReadsSplit(s, p + |code|, Unary(us), RunCodes(a.runs, numSyms));
    ReadsSplit(s, p, code, Unary(us) + RunCodes(a.runs, numSyms));
  }

  // ----- the header

  /** The symbols are those of the runs, in order, with counts of at least one that fill the state space. */
  ghost predicate ListFits(list: seq<SymCount>, lbits: nat, r: seq<nat>) {
    && 2 <= |list| <= 256 && Alphabetic(r, |list|) && Positive(list) && Sum(list) == Pow2(lbits)
    && forall i :: 0 <= i < |list| ==> list[i].sym == Alphabet(r, |r| / 2)[i]
  }

  /** Three bits for the parameter of the counts' codes, eight for the number of symbols, the shape and the codes. */
  ghost function DeltaBits(list: seq<SymCount>, lbits: nat, k: nat, us: seq<nat>, r: seq<nat>): seq<bool>
    requires ListFits(list, lbits, r)
  {
    BitsOf(k, 3) + (BitsOf(|list| - 1, 8) + (ShapeBits(|list|, us, r) + CountBits(list, k)))
  }

  ghost predicate DeltaFits(list: seq<SymCount>, lbits: nat, k: nat, us: seq<nat>, r: seq<nat>) {
    && k < 8 && ListFits(list, lbits, r) && UnaryFits(|list|, us, r)
    && PrefixesFit(Differences(list), k, Bytes(us))
  }

  /** What is written is read back: the list, and the bit behind it. */
  lemma DeltaIsRead(s: seq<bool>, p: nat, list: seq<SymCount>, lbits: nat, k: nat, us: seq<nat>, r: seq<nat>)
    requires DeltaFits(list, lbits, k, us, r) && Reads(s, p, DeltaBits(list, lbits, k, us, r))
    ensures ReadDelta(s, p, lbits)
      == Some(CountsRead(list, Prediction(list), p + |DeltaBits(list, lbits, k, us, r)|))
  {
    hide Reads, BitsOf, ShapeBits, CountBits, Alphabetic, UnaryFits, PrefixesFit, Differences, Bytes, Msb, ReadShape, ReadCounts,
      Sum, Pow2, Positive, Prediction, Alphabet;
    var n := |list|;
    var shape := ShapeBits(n, us, r);
    ReadsSplit(s, p, BitsOf(k, 3), BitsOf(n - 1, 8) + (shape + CountBits(list, k)));
    ReadsSplit(s, p + 3, BitsOf(n - 1, 8), shape + CountBits(list, k));
    ReadsSplit(s, p + 11, shape, CountBits(list, k));
    Eight();
    NumberReads(s, p, k, 3);
    NumberReads(s, p + 3, n - 1, 8);
    SmallFields(s, p);
    ShapeIsRead(s, p + 11, n, us, r);
    ShapeIsRuns(s, p + 11, n);
    CountsAreRead(s, p + 11 + |shape|, Bytes(us), k, Alphabet(r, |r| / 2), list);
  }

  lemma Eight()
    ensures Pow2(3) == 8 && Pow2(8) == 256
  {
    Pow2Values();
  }

  /** Nothing else is read as a header. */
  lemma DeltaThere(s: seq<bool>, p: nat, lbits: nat) returns (k: nat, us: seq<nat>, r: seq<nat>)
    requires ReadDelta(s, p, lbits).Some?
    ensures var c := ReadDelta(s, p, lbits).value;
      DeltaFits(c.list, lbits, k, us, r) && Reads(s, p, DeltaBits(c.list, lbits, k, us, r))
  {
    hide Reads, BitsOf, ShapeBits, CountBits, UnaryFits, PrefixesFit, Differences, Bytes, Msb, ReadShape, ReadCounts,
      Sum, Pow2, Positive, Prediction, Alphabet;
    SmallFields(s, p);
    k := Msb(s, p, 3);
    var n := Msb(s, p + 3, 8) + 1;
    var h := ReadShape(s, p + 11, n).value;
    us := ShapeThere(s, p + 11, n);
    r := h.runs;
    ShapeIsRuns(s, p + 11, n);
    CountsThere(s, h.p, h.unary, k, Alphabet(r, |r| / 2), n);
    var list := ReadDelta(s, p, lbits).value.list;
    var shape := ShapeBits(n, us, r);
    Eight();
    NumberReads(s, p, k, 3);
    NumberReads(s, p + 3, n - 1, 8);
    ReadsSplit(s, p + 11, shape, CountBits(list, k));
    ReadsSplit(s, p + 3, BitsOf(n - 1, 8), shape + CountBits(list, k));
    ReadsSplit(s, p, BitsOf(k, 3), BitsOf(n - 1, 8) + (shape + CountBits(list, k)));
  }

  /** The bits are a header of this list, and so many. */
  ghost predicate Writes(s: seq<bool>, p: nat, lbits: nat, list: seq<SymCount>, at: nat, k: nat, us: seq<nat>, r: seq<nat>) {
    && DeltaFits(list, lbits, k, us, r) && Reads(s, p, DeltaBits(list, lbits, k, us, r))
    && at == p + |DeltaBits(list, lbits, k, us, r)|
  }

  /** The counts that are read are exactly those that some writer, which knows nothing of the reader, wrote there. */
  lemma DeltaIsWritten(s: seq<bool>, p: nat, lbits: nat, list: seq<SymCount>, at: nat)
    ensures (exists k, us, r :: Writes(s, p, lbits, list, at, k, us, r))
      <==> ReadDelta(s, p, lbits).Some? && ReadDelta(s, p, lbits).value.list == list && ReadDelta(s, p, lbits).value.p == at
  {
    hide DeltaFits, Reads, DeltaBits, ReadDelta, Prediction;
    forall k, us, r | Writes(s, p, lbits, list, at, k, us, r)
      ensures ReadDelta(s, p, lbits).Some? && ReadDelta(s, p, lbits).value.list == list && ReadDelta(s, p, lbits).value.p == at
    {
      DeltaIsRead(s, p, list, lbits, k, us, r);
    }
    if ReadDelta(s, p, lbits).Some? && ReadDelta(s, p, lbits).value.list == list && ReadDelta(s, p, lbits).value.p == at {
      var k, us, r := DeltaThere(s, p, lbits);
      DeltaIsRead(s, p, list, lbits, k, us, r);
      assert Writes(s, p, lbits, list, at, k, us, r);
    }
  }
}
