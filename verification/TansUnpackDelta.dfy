/** Unpacking many counts: the shape of the alphabet, then every count as a difference to a running
    prediction. */
module TansUnpackDelta {
  import opened Bits
  import opened MsbFirst
  import opened MsbRegister
  import opened VarBits
  import opened TansSpec
  import opened TansBuckets
  import opened TansTable
  import opened TansCounts
  import opened TansShape
  import opened Wrappers

  // ----- differences

  /** Even numbers are halves, odd ones negative. */
  function UnfoldNegatives(i: nat): int {
    if i % 2 == 0 then i / 2 else -(i / 2) - 1
  }

  /** Near the prediction a difference to either side, far above it the number itself. */
  function Unfold(delta: nat, pred: nat): (r: nat) {
    if delta <= 2 * pred then UnfoldNegatives(delta) + pred else delta
  }

  function Fold(count: nat, pred: nat): nat {
    if count > 2 * pred then count
    else if count >= pred then 2 * (count - pred)
    else 2 * (pred - count) - 1
  }

  /** Whatever the prediction, every count has exactly one difference. */
  lemma UnfoldBijective(pred: nat, x: nat)
    ensures Unfold(Fold(x, pred), pred) == x && Fold(Unfold(x, pred), pred) == x
  {
  }

  // ----- what the bits stand for

  datatype CountRead = CountRead(count: nat, pred: nat, p: nat)

  /** One count: an Exp-Golomb code of the difference to the prediction, which follows the counts. */
  function ReadCount(s: seq<bool>, p: nat, unary: nat, k: nat, predState: nat): Option<CountRead> {
    var nextra, pred := unary + k, predState / 4;
    if nextra > 15 then None
    else
      Pow2Mono(k, nextra);
      var count := Unfold(Pow2(nextra) - Pow2(k) + Msb(s, p, nextra), pred);
      Some(CountRead(count + 1, predState - pred + if count <= 2 * pred then count else 2 * pred, p + nextra))
  }

  datatype CountsRead = CountsRead(list: seq<SymCount>, pred: nat, p: nat)

  /** The counts of the first m symbols. */
  function ReadCounts(s: seq<bool>, p: nat, unary: seq<byte>, k: nat, syms: seq<nat>, m: nat): (r: Option<CountsRead>)
    requires m <= |syms| && m <= |unary|
    ensures r.Some? ==> |r.value.list| == m
    decreases m
  {
    if m == 0 then Some(CountsRead([], 1 * 4 + 2, p))
    else
      match ReadCounts(s, p, unary, k, syms, m - 1)
      case None => None
      case Some(c) =>
        match ReadCount(s, c.p, unary[m - 1], k, c.pred)
        case None => None
        case Some(d) => Some(CountsRead(c.list + [SymCount(syms[m - 1], d.count)], d.pred, d.p))
  }

  /** The symbols of the first n runs, in order. */
  function Alphabet(r: seq<nat>, n: nat): (a: seq<nat>)
    requires 2 * n <= |r|
    ensures |a| == Total(r, n)
    decreases n
  {
    if n == 0 then [] else Alphabet(r, n - 1) + Span(StartOf(r, n - 1), LengthOf(r, n - 1))
  }

  function Span(from: nat, len: nat): (a: seq<nat>)
    ensures |a| == len && forall i :: 0 <= i < len ==> a[i] == from + i
  {
    seq<nat>(len, i requires 0 <= i => from + i)
  }

  datatype Shape = Shape(unary: seq<byte>, runs: seq<nat>, p: nat)

  /** The unary parts of all counts and run lengths, and then the runs. */
  function ReadShape(s: seq<bool>, p: nat, numSyms: nat): (r: Option<Shape>)
    requires 2 <= numSyms <= 256
    ensures r.Some? ==> numSyms <= |r.value.unary| && |r.value.runs| >= 2 * (|r.value.runs| / 2)
  {
    var eg := ReadNumEg(s, p, numSyms);
    match ReadUnary(s, p + eg.1, numSyms + eg.0)
    case None => None
    case Some(u) =>
      match ReadRuns(s, u.p, numSyms, eg.0, Bytes(u.vs)[numSyms..])
      case None => None
      case Some(a) => Some(Shape(Bytes(u.vs), a.runs, a.p))
  }

  /** Whatever the bits, they are the runs of an alphabet of so many symbols. */
  lemma ShapeIsRuns(s: seq<bool>, p: nat, numSyms: nat)
    requires 2 <= numSyms <= 256 && ReadShape(s, p, numSyms).Some?
    ensures var r := ReadShape(s, p, numSyms).value.runs; Runs(r, |r| / 2, numSyms)
  {
    hide Runs, ReadRuns, ReadUnary, ReadNumEg, Bytes;
    var eg := ReadNumEg(s, p, numSyms);
    var u := ReadUnary(s, p + eg.1, numSyms + eg.0).value;
    ReadIsRuns(s, u.p, numSyms, eg.0, Bytes(u.vs)[numSyms..]);
  }

  /** The counts of a header that is accepted: their sum is the size of the state space. */
  function ReadDelta(s: seq<bool>, p: nat, lbits: nat): Option<CountsRead> {
    SmallFields(s, p);
    var k, numSyms := Msb(s, p, 3), Msb(s, p + 3, 8) + 1;
    if numSyms < 2 then None
    else
      match ReadShape(s, p + 11, numSyms)
      case None => None
      case Some(h) =>
        ShapeIsRuns(s, p + 11, numSyms);
        var c := ReadCounts(s, h.p, h.unary, k, Alphabet(h.runs, |h.runs| / 2), numSyms);
        if c.Some? && Sum(c.value.list) == Pow2(lbits) then c else None
  }

  lemma SmallFields(s: seq<bool>, p: nat)
    ensures Msb(s, p, 3) < 8 && Msb(s, p + 3, 8) < 256
  {
    FieldFits(s, p, 3);
    FieldFits(s, p + 3, 8);
    Pow2Values();
  }

  // ----- what is accepted is proper

  ghost predicate Ascending(a: seq<nat>, end: nat) {
    (forall j, k :: 0 <= j < k < |a| ==> a[j] < a[k]) && (forall k :: 0 <= k < |a| ==> a[k] < end)
  }

  lemma {:induction false} AlphabetAscends(r: seq<nat>, n: nat, end: nat)
    requires 2 * n <= |r| && Apart(r, n, end + 1)
    ensures Ascending(Alphabet(r, n), end)
    decreases n
  {
    if n > 0 {
      var start := StartOf(r, n - 1);
      AlphabetAscends(r, n - 1, start);
      AscendMore(Alphabet(r, n - 1), start, LengthOf(r, n - 1), end);
    }
  }

  lemma AscendMore(a: seq<nat>, start: nat, len: nat, end: nat)
    requires Ascending(a, start) && start + len <= end && len > 0
    ensures Ascending(a + Span(start, len), end)
  {
    hide Span;
  }

  lemma {:induction false} CountsAre(s: seq<bool>, p: nat, unary: seq<byte>, k: nat, syms: seq<nat>, m: nat)
    requires m <= |syms| && m <= |unary| && ReadCounts(s, p, unary, k, syms, m).Some?
    ensures var list := ReadCounts(s, p, unary, k, syms, m).value.list;
      forall i :: 0 <= i < m ==> list[i].sym == syms[i] && list[i].count >= 1
    decreases m
  {
    if m > 0 { CountsAre(s, p, unary, k, syms, m - 1); }
  }

  /** Whatever the bits, the counts are of distinct symbols and fill the state space. */
  lemma DeltaIsOk(s: seq<bool>, p: nat, lbits: nat)
    requires ReadDelta(s, p, lbits).Some? && lbits <= L_BITS_MAX
    ensures var list := ReadDelta(s, p, lbits).value.list;
      && |list| == Msb(s, p + 3, 8) + 1
      && CountsOk(lbits, Larger(list), Singles(list))
  {
    hide Msb, Pow2, Sum, ReadShape, ReadCounts, Alphabet, CountsOk, Larger, Singles;
    SmallFields(s, p);
    var k, numSyms := Msb(s, p, 3), Msb(s, p + 3, 8) + 1;
    var h := ReadShape(s, p + 11, numSyms).value;
    var n := |h.runs| / 2;
    ShapeIsRuns(s, p + 11, numSyms);
    AlphabetAscends(h.runs, n, 256);
    CountsAre(s, h.p, h.unary, k, Alphabet(h.runs, n), numSyms);
    var list := ReadDelta(s, p, lbits).value.list;
    SplitOk(lbits, list);
  }

  // ----- the unpacker

  /** The counts so far, apart. */
  ghost predicate Held(list: seq<SymCount>, singles: seq<nat>, larger: seq<SymCount>, sum: nat) {
    singles == Singles(list) && larger == Larger(list) && sum == Sum(list)
  }

  lemma HeldStep(list: seq<SymCount>, singles: seq<nat>, larger: seq<SymCount>, sum: nat, c: SymCount)
    requires Held(list, singles, larger, sum)
    ensures Held(list + [c], if c.count == 1 then singles + [c.sym] else singles, if c.count == 1 then larger else larger + [c],
                 sum + c.count)
  {
    SplitStep(list, c);
  }

  lemma HeldSize(list: seq<SymCount>, singles: seq<nat>, larger: seq<SymCount>, sum: nat)
    requires Held(list, singles, larger, sum)
    ensures |singles| + |larger| == |list|
  {
    SplitSize(list);
  }

  lemma NothingHeld()
    ensures Held([], [], [], 0)
  {
  }

  /** The first m counts have been read. */
  ghost predicate Reading(s: seq<bool>, p0: nat, unary: seq<byte>, k: nat, syms: seq<nat>, m: nat,
                          list: seq<SymCount>, pred: nat, p: int)
  {
    m <= |syms| && m <= |unary| && p >= 0 && ReadCounts(s, p0, unary, k, syms, m) == Some(CountsRead(list, pred, p))
  }

  lemma ReadingStep(s: seq<bool>, p0: nat, unary: seq<byte>, k: nat, syms: seq<nat>, m: nat, list: seq<SymCount>, pred: nat, p: nat)
    requires Reading(s, p0, unary, k, syms, m, list, pred, p) && m < |syms| && m < |unary|
    ensures |list| == m
    ensures
      match ReadCount(s, p, unary[m], k, pred)
      case None => ReadCounts(s, p0, unary, k, syms, m + 1).None?
      case Some(d) => Reading(s, p0, unary, k, syms, m + 1, list + [SymCount(syms[m], d.count)], d.pred, d.p)
  {
    hide ReadCount;
  }

  lemma {:induction false} CountsFail(s: seq<bool>, p: nat, unary: seq<byte>, k: nat, syms: seq<nat>, m: nat, n: nat)
    requires m <= n <= |syms| && n <= |unary| && ReadCounts(s, p, unary, k, syms, m).None?
    ensures ReadCounts(s, p, unary, k, syms, n).None?
    decreases n
  {
    if m < n { CountsFail(s, p, unary, k, syms, m, n - 1); }
  }

  /** One count; it is stored either way, and kept in one of the lists. */
  method UnPackCount(vb: Reader, i: nat, unary: byte, expGolombK: nat, predState: nat, singles: array<nat>, larger: array<SymCount>,
                     ns: nat, nl: nat)
    returns (ok: bool, count: nat, pred': nat, ns': nat, nl': nat)
    requires vb.Valid() && expGolombK < 8 && ns < singles.Length && nl < larger.Length
    modifies vb, singles, larger
    ensures vb.Valid() && old(vb.Pos()) >= 0
    ensures
      match ReadCount(MsbBits(vb.data), old(vb.Pos()), unary, expGolombK, predState)
      case None => !ok
      case Some(d) => ok && count == d.count && pred' == d.pred && vb.Pos() == d.p
    ensures ok ==> ns' <= singles.Length && nl' <= larger.Length
    ensures ok ==> singles[..ns'] == if count == 1 then old(singles[..ns]) + [i] else old(singles[..ns])
    ensures ok ==> larger[..nl'] == if count == 1 then old(larger[..nl]) else old(larger[..nl]) + [SymCount(i, count)]
  {
    hide Stands, MsbBits, Msb;
    VarBits.Limits(vb.data, vb.Pos(), vb.bits, 63 - vb.inv_bitlen, vb.cur);
    ok, count, pred', ns', nl' := true, 0, predState, ns, nl;
    var pred := predState / 4;
    var nextra := unary + expGolombK;
    if nextra > 15 { return false, count, pred', ns', nl'; }
    Pow2Mono(expGolombK, nextra);
    var delta := Pow2(nextra) - Pow2(expGolombK);
    var extra := vb.GetZeroOk(nextra);
    delta := delta + extra;
    count := Unfold(delta, pred);
    pred' := predState - pred + if count <= pred * 2 then count else pred * 2;
    count := count + 1;
    singles[ns] := i;
    larger[nl] := SymCount(i, count);
    if count == 1 { ns' := ns + 1; } else { nl' := nl + 1; }
  }

  /** The counts of one run of symbols. */
  method UnPackRun(vb: Reader, start: nat, len: nat, unary: seq<byte>, at: nat, expGolombK: nat, predState: nat,
                   singles: array<nat>, larger: array<SymCount>, ns: nat, nl: nat, sum: nat,
                   ghost p0: nat, ghost syms: seq<nat>, ghost list: seq<SymCount>)
    returns (ok: bool, pred': nat, ns': nat, nl': nat, sum': nat, ghost list': seq<SymCount>)
    requires vb.Valid() && expGolombK < 8 && singles.Length == larger.Length == 256 && ns <= 256 && nl <= 256
    requires at + len <= |syms| <= 256 && |syms| <= |unary| && syms[at..at + len] == Span(start, len)
    requires Held(list, singles[..ns], larger[..nl], sum)
    requires Reading(MsbBits(vb.data), p0, unary, expGolombK, syms, at, list, predState, vb.Pos())
    modifies vb, singles, larger
    ensures vb.Valid()
    ensures if ok
      then
        && ns' <= 256 && nl' <= 256 && Held(list', singles[..ns'], larger[..nl'], sum')
        && Reading(MsbBits(vb.data), p0, unary, expGolombK, syms, at + len, list', pred', vb.Pos())
      else ReadCounts(MsbBits(vb.data), p0, unary, expGolombK, syms, at + len).None?
  {
    hide Held, Stands, Reading, ReadCounts, ReadCount, MsbBits;
    ghost var s := MsbBits(vb.data);
    ok, pred', ns', nl', sum', list' := true, predState, ns, nl, sum, list;
    var i, runLen := start, len;
    while runLen > 0
      invariant vb.Valid() && ok && 0 <= runLen <= len && i == start + len - runLen && ns' <= 256 && nl' <= 256
      invariant Held(list', singles[..ns'], larger[..nl'], sum')
      invariant Reading(s, p0, unary, expGolombK, syms, at + len - runLen, list', pred', vb.Pos())
    {
      ghost var m := at + len - runLen;
      VarBits.Limits(vb.data, vb.Pos(), vb.bits, 63 - vb.inv_bitlen, vb.cur);
      ReadingStep(s, p0, unary, expGolombK, syms, m, list', pred', vb.Pos());
      HeldSize(list', singles[..ns'], larger[..nl'], sum');
      assert syms[m] == syms[at..at + len][len - runLen] == i;
      ghost var was, wasLarger := singles[..ns'], larger[..nl'];
      var count;
      ok, count, pred', ns', nl' := UnPackCount(vb, i, unary[at + len - runLen], expGolombK, pred', singles, larger, ns', nl');
      if !ok {
        CountsFail(s, p0, unary, expGolombK, syms, m + 1, at + len);
        return;
      }
      HeldStep(list', was, wasLarger, sum', SymCount(i, count));
      list' := list' + [SymCount(i, count)];
      sum' := sum' + count;
      i := i + 1;
      runLen := runLen - 1;
    }
  }

  /** The counts of all runs: it fails exactly if one is too large to be read, or if they do not sum to
      the size of the state space. */
  method UnPackRuns(vb: Reader, lbits: nat, runLens: seq<nat>, pairs: nat, numSyms: nat, unary: seq<byte>, expGolombK: nat,
                    singles: array<nat>, larger: array<SymCount>)
    returns (ok: bool, numSingles: nat, numLarger: nat)
    requires vb.Valid() && expGolombK < 8 && singles.Length == larger.Length == 256 && lbits <= L_BITS_MAX
    requires 2 * pairs <= |runLens| && Total(runLens, pairs) == numSyms <= 256 && numSyms <= |unary|
    modifies vb, singles, larger
    ensures vb.Valid() && old(vb.Pos()) >= 0
    ensures var c := ReadCounts(MsbBits(vb.data), old(vb.Pos()), unary, expGolombK, Alphabet(runLens, pairs), numSyms);
      if c.Some? && Sum(c.value.list) == Pow2(lbits)
      then
        && ok && vb.Pos() == c.value.p && numSingles <= 256 && numLarger <= 256
        && singles[..numSingles] == Singles(c.value.list) && larger[..numLarger] == Larger(c.value.list)
      else !ok
  {
    hide Held, Stands, Reading, ReadCounts, Total, Alphabet, Pow2, MsbBits, Sum;
    VarBits.Limits(vb.data, vb.Pos(), vb.bits, 63 - vb.inv_bitlen, vb.cur);
    ghost var s, p: nat, syms := MsbBits(vb.data), vb.Pos(), Alphabet(runLens, pairs);
    ok, numSingles, numLarger := true, 0, 0;
    var sum, predState := 0, 1 * 4 + 2;
    ghost var list: seq<SymCount> := [];
    var pair, at := 0, 0;
    NothingHeld();
    NothingReading(s, p, unary, expGolombK, syms);
    NoTotal(runLens);
    while pair < pairs
      invariant 0 <= pair <= pairs && vb.Valid() && ok && numSingles <= 256 && numLarger <= 256
      invariant at == Total(runLens, pair) <= numSyms
      invariant Held(list, singles[..numSingles], larger[..numLarger], sum)
      invariant Reading(s, p, unary, expGolombK, syms, at, list, predState, vb.Pos())
    {
      TotalStep(runLens, pair);
      TotalGrows(runLens, pair + 1, pairs);
      var start, len := runLens[2 * pair], runLens[2 * pair + 1];
      RunInAlphabet(runLens, pair, pairs);
      ok, predState, numSingles, numLarger, sum, list :=
        UnPackRun(vb, start, len, unary, at, expGolombK, predState, singles, larger, numSingles, numLarger, sum, p, syms, list);
      if !ok {
        CountsFail(s, p, unary, expGolombK, syms, at + len, numSyms);
        return;
      }
      at := at + len;
      pair := pair + 1;
    }
    AllRead(s, p, unary, expGolombK, syms, at, list, predState, vb.Pos(), singles[..numSingles], larger[..numLarger], sum);
    if sum != Pow2(lbits) { return false, numSingles, numLarger; }
  }

  lemma NothingReading(s: seq<bool>, p: nat, unary: seq<byte>, k: nat, syms: seq<nat>)
    ensures Reading(s, p, unary, k, syms, 0, [], 1 * 4 + 2, p)
  {
  }

  lemma AllRead(s: seq<bool>, p0: nat, unary: seq<byte>, k: nat, syms: seq<nat>, m: nat, list: seq<SymCount>, pred: nat, p: int,
                singles: seq<nat>, larger: seq<SymCount>, sum: nat)
    requires Reading(s, p0, unary, k, syms, m, list, pred, p) && Held(list, singles, larger, sum)
    ensures m <= |syms| && m <= |unary| && p >= 0 && ReadCounts(s, p0, unary, k, syms, m) == Some(CountsRead(list, pred, p))
    ensures singles == Singles(list) && larger == Larger(list) && sum == Sum(list)
  {
  }

  lemma NoTotal(r: seq<nat>)
    ensures Total(r, 0) == 0
  {
  }

  lemma {:induction false} TotalGrows(r: seq<nat>, m: nat, n: nat)
    requires m <= n && 2 * n <= |r|
    ensures Total(r, m) <= Total(r, n)
    decreases n
  {
    if m < n { TotalGrows(r, m, n - 1); }
  }

  /** The place of a run's symbols in the alphabet. */
  lemma {:induction false} RunInAlphabet(r: seq<nat>, k: nat, n: nat)
    requires k < n && 2 * n <= |r|
    ensures Total(r, k) + LengthOf(r, k) <= Total(r, n)
    ensures Alphabet(r, n)[Total(r, k)..Total(r, k) + LengthOf(r, k)] == Span(StartOf(r, k), LengthOf(r, k))
    decreases n
  {
    hide Span;
    if k < n - 1 {
      RunInAlphabet(r, k, n - 1);
      var a, i, m := Alphabet(r, n - 1), Total(r, k), LengthOf(r, k);
      assert Alphabet(r, n)[i..i + m] == a[i..i + m];
    }
  }

  /** Unpacks the counts of up to 256 symbols: exactly the headers are accepted whose counts fill the
      state space, and then these are the counts. */
  method UnPackCountDelta(vb: Reader, lbits: nat, singles: array<nat>, larger: array<SymCount>)
    returns (ok: bool, numSingles: nat, numLarger: nat)
    requires vb.Valid() && lbits <= L_BITS_MAX && singles.Length == larger.Length == 256
    requires Enough(vb.data, 63 - vb.inv_bitlen, vb.cur, 19)
    modifies vb, singles, larger
    ensures vb.Valid() && old(vb.Pos()) >= 0
    ensures
      match ReadDelta(MsbBits(vb.data), old(vb.Pos()), lbits)
      case None => !ok
      case Some(c) =>
        && ok && vb.Pos() == c.p && numSingles <= 256 && numLarger <= 256
        && singles[..numSingles] == Singles(c.list) && larger[..numLarger] == Larger(c.list)
  {
    hide Stands, MsbBits, Msb, ReadShape, ReadCounts, Sum, Pow2, Alphabet, Singles, Larger;
    VarBits.Limits(vb.data, vb.Pos(), vb.bits, 63 - vb.inv_bitlen, vb.cur);
    SmallFields(MsbBits(vb.data), vb.Pos());
    ok, numSingles, numLarger := false, 0, 0;
    var expGolombK := vb.Get(3);
    var numSyms := vb.Get(8);
    numSyms := numSyms + 1;
    if numSyms < 2 { return; }
    VarBits.Limits(vb.data, vb.Pos(), vb.bits, 63 - vb.inv_bitlen, vb.cur);
    var good, unary, pairs, runLens := UnPackShape(vb, numSyms);
    if !good { return; }
    ShapeIsRuns(MsbBits(vb.data), old(vb.Pos()) + 11, numSyms);
    SameAlphabet(runLens, pairs);
    ok, numSingles, numLarger := UnPackRuns(vb, lbits, runLens, pairs, numSyms, unary, expGolombK, singles, larger);
  }

  /** The unary parts of all counts and run lengths, read bit by bit, and then the runs. */
  method UnPackShape(vb: Reader, numSyms: nat) returns (ok: bool, unary: seq<byte>, pairs: int, runLens: seq<nat>)
    requires vb.Valid() && 2 <= numSyms <= 256 && Enough(vb.data, 63 - vb.inv_bitlen, vb.cur, 8)
    modifies vb
    ensures vb.Valid() && old(vb.Pos()) >= 0
    ensures
      match ReadShape(MsbBits(vb.data), old(vb.Pos()), numSyms)
      case None => !ok
      case Some(h) => ok && unary == h.unary && 0 <= 2 * pairs <= |runLens| && runLens[..2 * pairs] == h.runs && vb.Pos() == h.p
  {
    hide Stands, MsbBits, Runs, ReadNumEg, ReadUnary, ReadRuns, Msb, Bytes;
    ok, unary, pairs, runLens := false, [], 0, [];
    var numEg := DecodeNumEg(vb, numSyms);
    VarBits.Limits(vb.data, vb.Pos(), vb.bits, 63 - vb.inv_bitlen, vb.cur);
    var ptr, posInByte := vb.ToBlock();
    var good, ptr', pos';
    ghost var vs;
    good, unary, ptr', pos', vs := DecodeUnaryBlock(vb.data, ptr, posInByte, numSyms + numEg);
    if !good { return; }
    var vb' := new Reader(vb.data, ptr');
    vb'.Use(pos');
    pairs, runLens := DecodeRunLens(vb', numSyms, numEg, unary[numSyms..]);
    if pairs < 0 { return; }
    vb.cur, vb.bits, vb.inv_bitlen := vb'.cur, vb'.bits, vb'.inv_bitlen;
    ok := true;
  }

  /** What lies behind the runs does not matter. */
  lemma {:induction false} SameAlphabet(r: seq<nat>, n: nat)
    requires 2 * n <= |r|
    ensures Alphabet(r[..2 * n], n) == Alphabet(r, n) && Total(r[..2 * n], n) == Total(r, n)
    decreases n
  {
    if n > 0 {
      SameAlphabet(r, n - 1);
      SameAlphabet(r[..2 * n], n - 1);
      assert r[..2 * n][..2 * (n - 1)] == r[..2 * (n - 1)];
    }
  }
}
