/** What a block is read from: exactly codes of the tables, and the magnitude bits of the coefficients that
    come out. */
module JpegParts {
  import opened Bits
  import opened Canonical
  import opened MsbFirst
  import opened JpegHuffman
  import opened JpegLookup
  import opened JpegCode
  import opened JpegZigzag
  import opened JpegBlock
  import opened Wrappers

  // ----- magnitudes

  lemma CategoryIs(m: nat, n: nat)
    requires n >= 1 && Pow2(n - 1) <= m < Pow2(n)
    ensures Category(m) == n
  {
    CategoryBound(m, n);
    if Category(m) < n { Pow2Mono(Category(m), n - 1); }
  }

  /** Any bits are the magnitude bits of a value, the one that EXTEND gives. */
  lemma MagnitudeExtend(w: seq<bool>)
    requires w != []
    ensures Extend(w) != 0 && Category(Abs(Extend(w))) == |w| && Magnitude(Extend(w)) == w
  {
    hide Value, BitsOf, Pow2, Category;
    var n := |w|;
    TopBit(w);
    ValueBound(w);
    PowerStep(n);
    BitsOfValue(w);
    Pow2Mono(0, n - 1);
    PowerZero();
    CategoryIs(Abs(Extend(w)), n);
  }

  lemma PowerZero()
    ensures Pow2(0) == 1
  {
  }

  // ----- the parts

  /** The reader takes these bits for the symbol: they are its code; or they are the code of the blind
      symbol and the bits behind it up to the tenth, which choose among the last symbols. */
  ghost predicate TakenFor(lens: seq<nat>, values: seq<byte>, code: seq<bool>, v: byte)
    requires |values| == 256
  {
    exists i: nat :: CodeOf(lens, values, code, v, i)
  }

  ghost predicate CodeOf(lens: seq<nat>, values: seq<byte>, code: seq<bool>, v: byte, i: nat)
    requires |values| == 256
  {
    && i < |lens| && i < 256 && 1 <= lens[i] <= |code| <= 16 && code[..lens[i]] == CodeBits(lens, i)
    && if Blind(lens, i) then
         var k := 256 - Pow2(10 - lens[i]) + Value(code[lens[i]..]);
         |code| == 10 && 0 <= k < 256 && v == values[k]
       else |code| == lens[i] && v == values[i]
  }

  /** The bits taken for a symbol, and the coefficient whose magnitude bits are behind them; zero if there
      are none. */
  datatype Part = Part(code: seq<bool>, v: byte, coef: int)

  function PartBits(t: Part): seq<bool> {
    t.code + if t.coef == 0 then [] else Magnitude(t.coef)
  }

  function PartsBits(ts: seq<Part>): seq<bool> {
    if ts == [] then [] else PartBits(ts[0]) + PartsBits(ts[1..])
  }

  /** The symbol gives the number of magnitude bits. */
  predicate Sized(t: Part) {
    if t.v % 16 == 0 then t.coef == 0 else t.coef != 0 && Category(Abs(t.coef)) == t.v % 16
  }

  /** A part of one of the tables. */
  ghost predicate IsPart(lens: seq<nat>, values: seq<byte>, t: Part)
    requires |values| == 256
  {
    TakenFor(lens, values, t.code, t.v) && Sized(t)
  }

  /** The parts take the coefficients from k on up to the last, or are ended by a symbol without
      magnitude bits, other than that of 16 zeros. */
  ghost predicate Proper(lens: seq<nat>, values: seq<byte>, ts: seq<Part>, k: nat)
    requires |values| == 256
    decreases |ts|
  {
    if k >= 64 then ts == []
    else
      && ts != [] && IsPart(lens, values, ts[0])
      && if ts[0].v == 0xF0 then Proper(lens, values, ts[1..], k + 16)
         else if ts[0].v % 16 == 0 then |ts| == 1
         else Proper(lens, values, ts[1..], k + ts[0].v / 16 + 1)
  }

  /** The coefficients of the parts, dequantised and in their places behind the runs; those behind the last
      place fall on it. */
  function Placed(dequant: seq<nat>, ts: seq<Part>, k: nat, d: seq<int>): (r: seq<int>)
    requires |dequant| == |d| == 64
    decreases |ts|
  {
    if ts == [] || k >= 64 then d
    else if ts[0].v == 0xF0 then Placed(dequant, ts[1..], k + 16, d)
    else if ts[0].v % 16 == 0 then d
    else
      TablesInverse();
      var zig := DEZIGZAG[k + ts[0].v / 16];
      Placed(dequant, ts[1..], k + ts[0].v / 16 + 1, d[zig := Short(ts[0].coef * dequant[zig])])
  }

  // ----- one part

  /** What is taken for a symbol is what the tables find. */
  lemma TakenIsRead(lens: seq<nat>, values: seq<byte>, w: seq<bool>, y: SymbolRead)
    requires Sorted(lens) && Fits(lens) && |lens| <= 256 && |values| == 256 && |w| == 16
    ensures ReadSymbol(lens, values, w) == Some(y) ==> y.n <= 16 && TakenFor(lens, values, w[..y.n], y.v)
    ensures y.n <= 16 && TakenFor(lens, values, w[..y.n], y.v) ==> ReadSymbol(lens, values, w) == Some(y)
  {
    hide Sorted, Fits, CodeBits, Value, Pow2, NumberAt;
    if ReadSymbol(lens, values, w) == Some(y) {
      var i := NumberAt(lens, w).value;
      Numbered(lens, i, w);
      if Blind(lens, i) { assert w[..10][lens[i]..] == w[lens[i]..10]; }
      assert w[..y.n][..lens[i]] == w[..lens[i]];
      assert CodeOf(lens, values, w[..y.n], y.v, i);
    }
    if y.n <= 16 && TakenFor(lens, values, w[..y.n], y.v) {
      var i: nat :| CodeOf(lens, values, w[..y.n], y.v, i);
      assert w[..y.n][..lens[i]] == w[..lens[i]];
      Numbered(lens, i, w);
      if Blind(lens, i) { assert w[..10][lens[i]..] == w[lens[i]..10]; }
    }
  }

  /** A part comes next exactly when its symbol is read and the magnitude bits are those of its
      coefficient. */
  lemma PartIsRead(lens: seq<nat>, values: seq<byte>, s: seq<bool>, p: nat, t: Part)
    requires Sorted(lens) && Fits(lens) && |lens| <= 256 && |values| == 256 && IsPart(lens, values, t)
    requires Window(s, p, |PartBits(t)|) == PartBits(t)
    ensures |PartBits(t)| == |t.code| + t.v % 16
    ensures ReadSymbol(lens, values, Window(s, p, 16)) == Some(SymbolRead(t.v, |t.code|))
    ensures t.coef != 0 ==> Extend(Window(s, p + |t.code|, t.v % 16)) == t.coef
  {
    hide Sorted, Fits, ReadSymbol, Window, Magnitude, Extend, CodeOf;
    TakenSize(lens, values, t.code, t.v);
    var m := if t.coef == 0 then [] else Magnitude(t.coef);
    WindowSplit(s, p, |t.code|, |m|);
    Halves(Window(s, p, |t.code|), Window(s, p + |t.code|, |m|), t.code, m);
    WindowSplit(s, p, |t.code|, 16 - |t.code|);
    assert Window(s, p, 16)[..|t.code|] == t.code;
    TakenIsRead(lens, values, Window(s, p, 16), SymbolRead(t.v, |t.code|));
    if t.coef != 0 { ExtendMagnitude(t.coef); }
  }

  lemma TakenSize(lens: seq<nat>, values: seq<byte>, code: seq<bool>, v: byte)
    requires |values| == 256 && TakenFor(lens, values, code, v)
    ensures |code| <= 16
  {
  }

  lemma Halves<T>(a: seq<T>, b: seq<T>, c: seq<T>, d: seq<T>)
    requires a + b == c + d && |a| == |c|
    ensures a == c && b == d
  {
    assert (a + b)[..|a|] == a && (c + d)[..|a|] == c;
    assert (a + b)[|a|..] == b && (c + d)[|a|..] == d;
  }

  /** The part that a symbol and its magnitude bits are. */
  lemma ReadIsPart(lens: seq<nat>, values: seq<byte>, s: seq<bool>, p: nat) returns (t: Part)
    requires Sorted(lens) && Fits(lens) && |lens| <= 256 && |values| == 256
    requires ReadSymbol(lens, values, Window(s, p, 16)).Some?
    ensures var y := ReadSymbol(lens, values, Window(s, p, 16)).value;
      && t.v == y.v && |t.code| == y.n && IsPart(lens, values, t)
      && |PartBits(t)| == y.n + y.v % 16 && Window(s, p, |PartBits(t)|) == PartBits(t)
      && (y.v % 16 != 0 ==> t.coef == Extend(Window(s, p + y.n, y.v % 16)))
  {
    hide Sorted, Fits, ReadSymbol, Window, Magnitude, Extend, TakenFor;
    var y := ReadSymbol(lens, values, Window(s, p, 16)).value;
    var n := y.v % 16;
    TakenIsRead(lens, values, Window(s, p, 16), y);
    WindowSplit(s, p, y.n, 16 - y.n);
    assert Window(s, p, 16)[..y.n] == Window(s, p, y.n);
    if n != 0 { MagnitudeExtend(Window(s, p + y.n, n)); }
    WindowSplit(s, p, y.n, n);
    t := Part(Window(s, p, y.n), y.v, if n == 0 then 0 else Extend(Window(s, p + y.n, n)));
    assert n == 0 ==> Window(s, p, y.n) + [] == Window(s, p, y.n);
  }

  // ----- the AC coefficients

  /** The first part, and the rest. */
  lemma FirstPart(lens: seq<nat>, values: seq<byte>, dequant: seq<nat>, t: Part, rest: seq<Part>, k: nat, d: seq<int>)
    requires |values| == 256 && |dequant| == |d| == 64 && k < 64
    ensures PartsBits([t] + rest) == PartBits(t) + PartsBits(rest)
    ensures Proper(lens, values, [t] + rest, k) <==>
      && IsPart(lens, values, t)
      && if t.v == 0xF0 then Proper(lens, values, rest, k + 16)
         else if t.v % 16 == 0 then rest == []
         else Proper(lens, values, rest, k + t.v / 16 + 1)
    ensures k + t.v / 16 < |DEZIGZAG| && DEZIGZAG[k + t.v / 16] < 64
    ensures Placed(dequant, [t] + rest, k, d) ==
      if t.v == 0xF0 then Placed(dequant, rest, k + 16, d)
      else if t.v % 16 == 0 then d
      else
        var zig := DEZIGZAG[k + t.v / 16];
        Placed(dequant, rest, k + t.v / 16 + 1, d[zig := Short(t.coef * dequant[zig])])
  {
    hide IsPart, PartBits, Short, DEZIGZAG, ZIGZAG;
    TablesInverse();
    assert ([t] + rest)[1..] == rest;
  }

  lemma {:induction false} AcsAreParts(lens: seq<nat>, values: seq<byte>, dequant: seq<nat>, s: seq<bool>, p: nat, k: nat, d: seq<int>)
    returns (ts: seq<Part>)
    requires Sorted(lens) && Fits(lens) && |lens| <= 256 && |values| == 256 && |dequant| == |d| == 64
    requires ReadAcs(lens, values, dequant, s, p, k, d).Done?
    ensures var r := ReadAcs(lens, values, dequant, s, p, k, d);
      Proper(lens, values, ts, k) && r.d == Placed(dequant, ts, k, d) && Window(s, p, r.q - p) == PartsBits(ts)
    decreases 64 - k
  {
    hide Sorted, Fits, ReadSymbol, Window, IsPart, PartBits, Extend, Short, DEZIGZAG, ZIGZAG, ReadAcs, Proper, PartsBits, Placed;
    if k >= 64 {
      ts := [];
      AllAcs(lens, values, dequant, s, p, k, d);
      NoParts(lens, values, dequant, k, d);
      WindowEmpty(s, p);
    } else {
      OneAc(lens, values, dequant, s, p, k, d);
      var t := ReadIsPart(lens, values, s, p);
      FirstPart(lens, values, dequant, t, [], k, d);
      var q, run := p + |PartBits(t)|, t.v / 16;
      var rest: seq<Part>;
      if t.v == 0xF0 {
        rest := AcsAreParts(lens, values, dequant, s, q, k + 16, d);
      } else if t.v % 16 == 0 {
        rest := [];
        NoParts(lens, values, dequant, 64, d);
        WindowEmpty(s, q);
      } else {
        var zig := DEZIGZAG[k + run];
        rest := AcsAreParts(lens, values, dequant, s, q, k + run + 1, d[zig := Short(t.coef * dequant[zig])]);
      }
      ts := [t] + rest;
      FirstPart(lens, values, dequant, t, rest, k, d);
      WindowSplit(s, p, |PartBits(t)|, |PartsBits(rest)|);
    }
  }

  lemma NoParts(lens: seq<nat>, values: seq<byte>, dequant: seq<nat>, k: nat, d: seq<int>)
    requires |values| == 256 && |dequant| == |d| == 64
    ensures PartsBits([]) == [] && Placed(dequant, [], k, d) == d
    ensures k >= 64 ==> Proper(lens, values, [], k)
  {
  }

  lemma WindowEmpty(s: seq<bool>, p: nat)
    ensures Window(s, p, 0) == []
  {
  }

  lemma {:induction false} PartsAreAcs(lens: seq<nat>, values: seq<byte>, dequant: seq<nat>, s: seq<bool>, p: nat, k: nat, d: seq<int>,
                                       ts: seq<Part>)
    requires Sorted(lens) && Fits(lens) && |lens| <= 256 && |values| == 256 && |dequant| == |d| == 64
    requires Proper(lens, values, ts, k) && Window(s, p, |PartsBits(ts)|) == PartsBits(ts)
    ensures ReadAcs(lens, values, dequant, s, p, k, d) == Done(Placed(dequant, ts, k, d), p + |PartsBits(ts)|)
    decreases |ts|
  {
    hide Sorted, Fits, ReadSymbol, Window, IsPart, PartBits, Extend, Short, DEZIGZAG, ZIGZAG, ReadAcs, PartsBits, Placed, Proper;
    SomeParts(lens, values, ts, k);
    if k >= 64 {
      AllAcs(lens, values, dequant, s, p, k, d);
      NoParts(lens, values, dequant, k, d);
    } else {
      var t, rest := ts[0], ts[1..];
      assert ts == [t] + rest;
      FirstPart(lens, values, dequant, t, rest, k, d);
      var q, run := p + |PartBits(t)|, t.v / 16;
      WindowSplit(s, p, |PartBits(t)|, |PartsBits(rest)|);
      Halves(Window(s, p, |PartBits(t)|), Window(s, q, |PartsBits(rest)|), PartBits(t), PartsBits(rest));
      PartIsRead(lens, values, s, p, t);
      SizedCoef(lens, values, t);
      OneAc(lens, values, dequant, s, p, k, d);
      if t.v == 0xF0 {
        PartsAreAcs(lens, values, dequant, s, q, k + 16, d, rest);
      } else if t.v % 16 == 0 {
        NoParts(lens, values, dequant, k, d);
      } else {
        var zig := DEZIGZAG[k + run];
        PartsAreAcs(lens, values, dequant, s, q, k + run + 1, d[zig := Short(t.coef * dequant[zig])], rest);
      }
    }
  }

  lemma SomeParts(lens: seq<nat>, values: seq<byte>, ts: seq<Part>, k: nat)
    requires |values| == 256 && Proper(lens, values, ts, k)
    ensures ts == [] <==> k >= 64
  {
  }

  lemma SizedCoef(lens: seq<nat>, values: seq<byte>, t: Part)
    requires |values| == 256 && IsPart(lens, values, t)
    ensures t.v % 16 == 0 <==> t.coef == 0
  {
  }

  // ----- the block

  /** The parts of a block: the difference to the DC coefficient before, and the AC coefficients. */
  ghost predicate BlockParts(lensDc: seq<nat>, valuesDc: seq<byte>, lensAc: seq<nat>, valuesAc: seq<byte>, dc: Part, ts: seq<Part>)
    requires |valuesDc| == |valuesAc| == 256
  {
    IsPart(lensDc, valuesDc, dc) && dc.v <= 15 && Proper(lensAc, valuesAc, ts, 1)
  }

  /** A block is read from nothing but parts, and is what they say. */
  lemma BlockIsParts(lensDc: seq<nat>, valuesDc: seq<byte>, lensAc: seq<nat>, valuesAc: seq<byte>, dequant: seq<nat>, s: seq<bool>,
                     p: nat, pred: int) returns (dc: Part, ts: seq<Part>)
    requires Sorted(lensDc) && Fits(lensDc) && |lensDc| <= 256 && |valuesDc| == 256
    requires Sorted(lensAc) && Fits(lensAc) && |lensAc| <= 256 && |valuesAc| == 256 && |dequant| == 64
    requires BlockAt(lensDc, valuesDc, lensAc, valuesAc, dequant, s, p, pred).Done?
    ensures var r := BlockAt(lensDc, valuesDc, lensAc, valuesAc, dequant, s, p, pred);
      && BlockParts(lensDc, valuesDc, lensAc, valuesAc, dc, ts)
      && Window(s, p, r.q - p) == PartBits(dc) + PartsBits(ts)
      && r.d == Placed(dequant, ts, 1, OnlyDc(pred + dc.coef, dequant))
  {
    hide Sorted, Fits, ReadSymbol, Window, PartBits, IsPart, Extend, ReadAcs, Proper, PartsBits, Placed, Short;
    dc := ReadIsPart(lensDc, valuesDc, s, p);
    SizedCoef(lensDc, valuesDc, dc);
    var q := p + |PartBits(dc)|;
    ts := AcsAreParts(lensAc, valuesAc, dequant, s, q, 1, OnlyDc(pred + dc.coef, dequant));
    WindowSplit(s, p, |PartBits(dc)|, |PartsBits(ts)|);
  }

  /** And any parts that come next are read. */
  lemma PartsAreBlock(lensDc: seq<nat>, valuesDc: seq<byte>, lensAc: seq<nat>, valuesAc: seq<byte>, dequant: seq<nat>, s: seq<bool>,
                      p: nat, pred: int, dc: Part, ts: seq<Part>)
    requires Sorted(lensDc) && Fits(lensDc) && |lensDc| <= 256 && |valuesDc| == 256
    requires Sorted(lensAc) && Fits(lensAc) && |lensAc| <= 256 && |valuesAc| == 256 && |dequant| == 64
    requires BlockParts(lensDc, valuesDc, lensAc, valuesAc, dc, ts)
    requires Window(s, p, |PartBits(dc)| + |PartsBits(ts)|) == PartBits(dc) + PartsBits(ts)
    ensures BlockAt(lensDc, valuesDc, lensAc, valuesAc, dequant, s, p, pred) ==
      Done(Placed(dequant, ts, 1, OnlyDc(pred + dc.coef, dequant)), p + |PartBits(dc)| + |PartsBits(ts)|)
  {
    hide Sorted, Fits, ReadSymbol, Window, PartBits, IsPart, Extend, ReadAcs, Proper, PartsBits, Placed, Short;
    SizedCoef(lensDc, valuesDc, dc);
    var q := p + |PartBits(dc)|;
    WindowSplit(s, p, |PartBits(dc)|, |PartsBits(ts)|);
    Halves(Window(s, p, |PartBits(dc)|), Window(s, q, |PartsBits(ts)|), PartBits(dc), PartsBits(ts));
    PartIsRead(lensDc, valuesDc, s, p, dc);
    PartsAreAcs(lensAc, valuesAc, dequant, s, q, 1, OnlyDc(pred + dc.coef, dequant), ts);
  }
}
