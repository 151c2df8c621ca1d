/** Decoding one block of the baseline entropy-coded stream. */
module JpegBlock {
  import opened Bits
  import opened Canonical
  import opened MsbFirst
  import opened JpegHuffman
  import opened JpegLookup
  import opened JpegStream
  import opened JpegReader
  import opened JpegCode
  import opened JpegZigzag
  import opened Wrappers

  /** The stream goes on with these bits at position p. */
  ghost predicate GoesOn(bs: seq<byte>, p: nat, bits: seq<bool>) {
    p + |bits| <= 8 * |bs| && Window(MsbBits(bs), p, |bits|) == bits
  }

  lemma GoesOnSplit(bs: seq<byte>, p: nat, a: seq<bool>, b: seq<bool>)
    requires GoesOn(bs, p, a + b)
    ensures GoesOn(bs, p, a) && GoesOn(bs, p + |a|, b)
  {
    hide MsbBits, Window;
    var s := MsbBits(bs);
    WindowSplit(s, p, |a|, |b|);
    assert (a + b)[..|a|] == a && (a + b)[|a|..] == b;
    assert Window(s, p, |a| + |b|)[..|a|] == Window(s, p, |a|);
    assert Window(s, p, |a| + |b|)[|a|..] == Window(s, p + |a|, |b|);
  }

  lemma Inside(bs: seq<byte>, p: nat, bits: seq<bool>)
    requires GoesOn(bs, p, bits)
    ensures p + |bits| <= 8 * |bs|
  {
  }

  /** A symbol's code in the stream is what its number in the reader's table matches. */
  lemma SymbolMatches(ht: seq<Entry>, lens: seq<nat>, values: seq<byte>, v: nat, bs: seq<byte>, p: nat) returns (i: nat)
    requires Agrees(ht, lens, values) && Sorted(lens) && v < |ht| && ht[v].length > 0 && GoesOn(bs, p, SymbolBits(ht, v))
    ensures i < |lens| && i < |values| && values[i] == v && lens[i] == |SymbolBits(ht, v)| && !Blind(lens, i)
    ensures Matches(lens, i, Window(MsbBits(bs), p, 16)) && p + lens[i] <= 8 * |bs|
  {
    hide MsbBits, Window, CodeBits, BitsOf;
    i :| CodedAs(ht, lens, values, v, i);
    WindowPrefix(MsbBits(bs), p, lens[i], 16);
  }

  lemma MagnitudeRead(v: int, bs: seq<byte>, p: nat)
    requires v != 0 && GoesOn(bs, p, Magnitude(v))
    ensures Extend(Window(MsbBits(bs), p, Category(Abs(v)))) == v && p + Category(Abs(v)) <= 8 * |bs|
  {
    ExtendMagnitude(v);
  }

  // ----- the block

  /** Truncation to a signed 16-bit integer. */
  function Short(x: int): int {
    (x + 0x8000) % 0x1_0000 - 0x8000
  }

  /** In sixteen bits nothing is lost, beyond that multiples of 2^16. */
  lemma ShortIs(x: int)
    ensures -0x8000 <= Short(x) < 0x8000 && (x - Short(x)) % 0x1_0000 == 0
    ensures -0x8000 <= x < 0x8000 ==> Short(x) == x
  {
  }

  /** The coefficients before k, dequantised and in their places; zero elsewhere. */
  ghost predicate Filled(d: seq<int>, du: seq<int>, dequant: seq<nat>, k: nat)
    requires |du| == |dequant| == 64
  {
    |d| == 64 && forall m {:trigger d[m]} :: 0 <= m < 64 ==> d[m] == PlaceValue(du, dequant, k, m)
  }

  ghost function PlaceValue(du: seq<int>, dequant: seq<nat>, k: nat, m: nat): int
    requires |du| == |dequant| == 64 && m < 64
  {
    TablesInverse();
    if ZIGZAG[m] < k then Short(du[ZIGZAG[m]] * dequant[m]) else 0
  }

  lemma FilledSkip(d: seq<int>, du: seq<int>, dequant: seq<nat>, k: nat, n: nat)
    requires |du| == |dequant| == 64 && Filled(d, du, dequant, k) && k <= n <= 64
    requires forall i :: k <= i < n ==> du[i] == 0
    ensures Filled(d, du, dequant, n)
  {
    hide ZIGZAG, DEZIGZAG;
    TablesInverse();
  }

  lemma FilledPlace(d: seq<int>, du: seq<int>, dequant: seq<nat>, k: nat, z: nat, v: int)
    requires |du| == |dequant| == 64 && Filled(d, du, dequant, k) && k <= z < 64
    requires forall i :: k <= i < z ==> du[i] == 0
    requires |DEZIGZAG| == 79 && DEZIGZAG[z] < 64 && v == Short(du[z] * dequant[DEZIGZAG[z]])
    ensures Filled(d[DEZIGZAG[z] := v], du, dequant, z + 1)
  {
    hide ZIGZAG, DEZIGZAG, Short;
    FilledSkip(d, du, dequant, k, z);
    TablesInverse();
  }

  /** The symbol in the stream, and where it leads. */
  lemma NextMatches(ht: seq<Entry>, lens: seq<nat>, values: seq<byte>, du: seq<int>, k: nat, bs: seq<byte>, p: nat) returns (i: nat)
    requires |ht| == 256 && |du| == 64 && 1 <= k < 64 && AcCodable(ht, du) && Agrees(ht, lens, values) && Sorted(lens)
    requires GoesOn(bs, p, AcBits(ht, du, k))
    ensures i < |lens| && i < |values| && values[i] == NextSymbol(du, k) && !Blind(lens, i)
    ensures Matches(lens, i, Window(MsbBits(bs), p, 16)) && p + lens[i] <= 8 * |bs|
    ensures GoesOn(bs, p + lens[i], AfterSymbol(ht, du, k))
    ensures |AcBits(ht, du, k)| == lens[i] + |AfterSymbol(ht, du, k)|
  {
    hide GoesOn, AcBits, AfterSymbol, NextSymbol, SymbolBits, Agrees, Sorted, Matches, AcCodable;
    AcSplit(ht, du, k);
    GoesOnSplit(bs, p, SymbolBits(ht, NextSymbol(du, k)), AfterSymbol(ht, du, k));
    i := SymbolMatches(ht, lens, values, NextSymbol(du, k), bs, p);
  }

  // ----- what any stream stands for

  /** There is no such code; or the coefficients in row order, and the position behind the block. */
  datatype BlockRead =
    | Refused
    | Done(d: seq<int>, q: nat)

  /** The coefficients from k on: each symbol ends the block, or skips 16 places, or skips a run and gives
      the number of magnitude bits behind it. */
  ghost function ReadAcs(lens: seq<nat>, values: seq<byte>, dequant: seq<nat>, s: seq<bool>, p: nat, k: nat, d: seq<int>)
    : (r: BlockRead)
    requires |values| == 256 && |dequant| == |d| == 64
    ensures r.Done? ==> r.q >= p && |r.d| == 64
    decreases 64 - k
  {
    if k >= 64 then Done(d, p)
    else
      match ReadSymbol(lens, values, Window(s, p, 16))
      case None => Refused
      case Some(y) => AfterAc(lens, values, dequant, s, p + y.n, k, d, y.v)
  }

  ghost function AfterAc(lens: seq<nat>, values: seq<byte>, dequant: seq<nat>, s: seq<bool>, p: nat, k: nat, d: seq<int>,
                         v: byte): (r: BlockRead)
    requires |values| == 256 && |dequant| == |d| == 64 && k < 64
    ensures r.Done? ==> r.q >= p && |r.d| == 64
    decreases 64 - k, 0
  {
    var size, run := v % 16, v / 16;
    if v == 0xF0 then ReadAcs(lens, values, dequant, s, p, k + 16, d)
    else if size == 0 then Done(d, p)
    else
      TablesInverse();
      var zig := DEZIGZAG[k + run];
      ReadAcs(lens, values, dequant, s, p + size, k + run + 1, d[zig := Short(Extend(Window(s, p, size)) * dequant[zig])])
  }

  datatype DcRead = Dc(diff: int, q: nat)

  /** The difference to the DC coefficient before. */
  ghost function ReadDc(lens: seq<nat>, values: seq<byte>, s: seq<bool>, p: nat): (r: Option<DcRead>)
    requires |values| == 256
    ensures r.Some? ==> r.value.q >= p
  {
    match ReadSymbol(lens, values, Window(s, p, 16))
    case None => None
    case Some(y) =>
      if y.v > 15 then None
      else Some(Dc(if y.v == 0 then 0 else Extend(Window(s, p + y.n, y.v)), p + y.n + y.v))
  }

  /** The block before its AC coefficients. */
  function OnlyDc(dc: int, dequant: seq<nat>): (d: seq<int>)
    requires |dequant| == 64
    ensures |d| == 64
  {
    seq(64, i => if i == 0 then Short(dc * dequant[0]) else 0)
  }

  // ----- the loop over the coefficients

  /** A round of the loop does what the stream says: the rest of the block, from where it leaves off, comes
      to the same; or there is no such code, or too few bits are left. */
  ghost predicate StepIs(want: BlockRead, ok: bool, more: bool, lens: seq<nat>, values: seq<byte>, dequant: seq<nat>,
                         bs: seq<byte>, q: nat, k: nat, d: seq<int>, at: bool)
    requires |values| == 256 && |dequant| == |d| == 64
  {
    if !ok then want.Done? ==> want.q > 8 * |bs|
    else at && want == if more then ReadAcs(lens, values, dequant, MsbBits(bs), q, k, d) else Done(d, q)
  }

  /** The next symbol, and the rest. */
  lemma OneAc(lens: seq<nat>, values: seq<byte>, dequant: seq<nat>, s: seq<bool>, p: nat, k: nat, d: seq<int>)
    requires |values| == 256 && |dequant| == |d| == 64 && k < 64
    ensures ReadAcs(lens, values, dequant, s, p, k, d) ==
      match ReadSymbol(lens, values, Window(s, p, 16))
      case None => Refused
      case Some(y) => AfterAc(lens, values, dequant, s, p + y.n, k, d, y.v)
  {
    hide ReadSymbol, Window, AfterAc;
  }

  /** One round by Huffman decoding: the end, 16 zeros, or a coefficient behind a run. */
  method SlowStep(j: Jpeg, h: Huffman, data: array<int>, dequant: seq<nat>, k: nat, ghost lens: seq<nat>, ghost bs: seq<byte>,
                  ghost p: nat)
    returns (ok: bool, more: bool, next: nat, ghost q: nat)
    requires j.Live() && h.Built(lens) && data.Length == |dequant| == 64 && 1 <= k < 64
    modifies j`pos, j`marker, j`nomore, j`code_buffer, j`code_bits, data
    ensures j.Live() && (ok ==> next >= k && (more ==> next > k))
    ensures old(j.Stands(bs, p)) ==>
      StepIs(ReadAcs(lens, h.values, dequant, MsbBits(bs), p, k, old(data[..])), ok, more, lens, h.values, dequant, bs, q, next,
             data[..], j.Stands(bs, q))
  {
    hide Sorted, Matches, Fits, Short, ZIGZAG, DEZIGZAG, Pow2, Extend, FastSoFar, LengthsSet, Loaded, Supplied, MsbBits, Window,
      ReadSymbol, ReadAcs;
    TablesInverse();
    OneAc(lens, h.values, dequant, MsbBits(bs), p, k, data[..]);
    ghost var y := ReadSymbol(lens, h.values, Window(MsbBits(bs), p, 16));
    ok, more, next := true, true, k;
    q := if y.Some? then p + y.value.n else p;
    var rs := j.HuffDecode(h, lens, bs, p);
    if rs < 0 { return false, false, next, q; }
    var s, r := rs % 16, rs / 16;
    if s == 0 {
      if rs != 0xF0 {
        more := false;
      } else {
        next := k + 16;
      }
    } else {
      next := k + r;
      var zig := DEZIGZAG[next];
      var v := j.ExtendReceive(s, bs, q);
      data[zig] := Short(v * dequant[zig]);
      next := next + 1;
      q := q + s;
    }
  }

  /** The parts of a table entry. */
  lemma EntryParts(v: int, run: nat, n: nat, r: int)
    requires r == v * 256 + run * 16 + n && run < 16 && n < 16
    ensures r / 256 == v && r / 16 % 16 == run && r % 16 == n
  {
    Parts(r, 16, v * 16 + run, n);
    Parts(v * 16 + run, 16, v, run);
    Parts(r, 256, v, run * 16 + n);
  }

  lemma Parts(x: int, d: nat, q: int, n: nat)
    requires n < d && (d == 16 || d == 256) && x == q * d + n
    ensures x / d == q && x % d == n
  {
    if d == 16 { assert x == 16 * q + n; } else { assert x == 256 * q + n; }
  }

  lemma EntrySize(lens: seq<nat>, values: seq<byte>, u: nat, r: int) returns (i: nat)
    requires |values| == 256 && AcEntry(lens, values, u, r) && r != 0
    ensures i < 255 && SmallCoefficient(lens, values, i, u, r) && r % 16 == lens[i] + values[i] % 16 <= FAST_BITS
    ensures r / 16 % 16 == values[i] / 16 && r / 256 == Extend(BitsOf(u, FAST_BITS)[lens[i]..r % 16])
  {
    hide FastMatch, Extend, BitsOf;
    i :| i < 255 && SmallCoefficient(lens, values, i, u, r);
    MatchLengths(lens, i, u);
    EntryParts(Extend(BitsOf(u, FAST_BITS)[lens[i]..lens[i] + values[i] % 16]), values[i] / 16, lens[i] + values[i] % 16, r);
  }

  lemma MatchLengths(lens: seq<nat>, i: nat, u: nat)
    requires FastMatch(lens, i, u)
    ensures i < |lens|
  {
  }

  /** The nine bits that index the table are the first nine of the stream. */
  lemma NineBits(w: seq<bool>)
    requires |w| == 16
    ensures BitsOf(Shr(Value(w), 7), FAST_BITS) == w[..FAST_BITS]
  {
    hide Value, BitsOf, Shr;
    assert w == w[..FAST_BITS] + w[FAST_BITS..];
    ValueSplit(w[..FAST_BITS], w[FAST_BITS..]);
    BitsOfValue(w[..FAST_BITS]);
  }

  /** A table entry says the same as decoding the symbol and receiving its magnitude bits: run, value
      and the number of bits. */
  lemma FastAcIsDecode(lens: seq<nat>, values: seq<byte>, w: seq<bool>, r: int) returns (i: nat)
    requires Fits(lens) && Sorted(lens) && |values| == 256 && |w| == 16
    requires r != 0 && AcEntry(lens, values, Shr(Value(w), 7), r)
    ensures i < 255 && Matches(lens, i, w) && i < |lens|
    ensures r / 16 % 16 == values[i] / 16 && r % 16 == lens[i] + values[i] % 16 <= FAST_BITS && values[i] % 16 != 0
    ensures r / 256 == Extend(w[lens[i]..r % 16])
  {
    hide Fits, Sorted, Extend, Value, Shr, BitsOf, AcEntry, FastMatch, Matches;
    var u := Shr(Value(w), 7);
    i := EntrySize(lens, values, u, r);
    MatchLengths(lens, i, u);
    FastLength(lens, i);
    FastIsMatch(lens, i, w);
    NineBits(w);
    assert w[..FAST_BITS][lens[i]..r % 16] == w[lens[i]..r % 16];
  }

  lemma FastLength(lens: seq<nat>, i: nat)
    requires Sorted(lens) && i < |lens|
    ensures lens[i] >= 1
  {
  }

  lemma InnerWindow(s: seq<bool>, p: nat, m: nat, n: nat)
    requires m <= n <= 16
    ensures Window(s, p, 16)[m..n] == Window(s, p + m, n - m)
  {
  }

  /** So it is what the next symbol says. */
  lemma FastMeans(lens: seq<nat>, values: seq<byte>, dequant: seq<nat>, s: seq<bool>, p: nat, k: nat, d: seq<int>, r: int)
    requires Fits(lens) && Sorted(lens) && |values| == 256 && |dequant| == |d| == 64 && k < 64
    requires r != 0 && AcEntry(lens, values, Shr(Value(Window(s, p, 16)), 7), r)
    ensures k + r / 16 % 16 < |DEZIGZAG| && DEZIGZAG[k + r / 16 % 16] < 64
    ensures var zig := DEZIGZAG[k + r / 16 % 16];
      ReadAcs(lens, values, dequant, s, p, k, d) ==
      ReadAcs(lens, values, dequant, s, p + r % 16, k + r / 16 % 16 + 1, d[zig := Short(r / 256 * dequant[zig])])
  {
    hide Fits, Sorted, Extend, Value, Shr, BitsOf, AcEntry, FastMatch, Matches, Window, ReadSymbol, ReadAcs, Short, DEZIGZAG,
      ZIGZAG;
    TablesInverse();
    var w := Window(s, p, 16);
    var i := FastAcIsDecode(lens, values, w, r);
    SymbolSeen(lens, values, i, w);
    FastLength(lens, i);
    InnerWindow(s, p, lens[i], r % 16);
    OneAc(lens, values, dequant, s, p, k, d);
  }

  /** One round by the table of small coefficients. */
  method FastStep(j: Jpeg, h: Huffman, data: array<int>, dequant: seq<nat>, k: nat, r: int, ghost lens: seq<nat>,
                  ghost bs: seq<byte>, ghost p: nat)
    returns (next: nat, ghost q: nat)
    requires j.Live() && h.Built(lens) && data.Length == |dequant| == 64 && 1 <= k < 64
    requires (j.code_bits >= 16 || j.nomore) && r != 0 && AcEntry(lens, h.values, Shr(j.code_buffer, 23), r)
    modifies j`code_buffer, j`code_bits, data
    ensures j.Live() && next > k
    ensures old(j.At(bs, p)) ==>
      StepIs(ReadAcs(lens, h.values, dequant, MsbBits(bs), p, k, old(data[..])), true, true, lens, h.values, dequant, bs, q, next,
             data[..], j.Stands(bs, q))
  {
    hide Sorted, Fits, Short, ZIGZAG, DEZIGZAG, Pow2, FastSoFar, LengthsSet, Loaded, Supplied, AcEntry, Shr, SmallCoefficient,
      Top, Value, MsbBits, Extend, BitsOf, Window, ReadAcs;
    TablesInverse();
    ghost var i := EntrySize(lens, h.values, Shr(j.code_buffer, 23), r);
    if j.At(bs, p) {
      TopIs(j.code_buffer);
      TopNow(bs, p, j.code_buffer, j.code_bits, j.data, j.pos, j.nomore);
      ShortRegister(bs, p, j.code_buffer, j.code_bits, j.data, j.pos, j.nomore);
      FastMeans(lens, h.values, dequant, MsbBits(bs), p, k, data[..], r);
    }
    next := k + r / 16 % 16;
    var s := r % 16;
    j.Drop(s, bs, p);
    q := p + s;
    var zig := DEZIGZAG[next];
    data[zig] := Short(r / 256 * dequant[zig]);
    next := next + 1;
  }

  /** One round of the loop, by either way. */
  method AcStep(j: Jpeg, h: Huffman, fac: seq<int>, data: array<int>, dequant: seq<nat>, k: nat, ghost lens: seq<nat>,
                ghost bs: seq<byte>, ghost p: nat)
    returns (ok: bool, more: bool, next: nat, ghost q: nat)
    requires j.Live() && h.Built(lens) && data.Length == |dequant| == 64 && 1 <= k < 64 && FastTable(fac, lens, h.values)
    modifies j`pos, j`marker, j`nomore, j`code_buffer, j`code_bits, data
    ensures j.Live() && (ok ==> next >= k && (more ==> next > k))
    ensures old(j.Stands(bs, p)) ==>
      StepIs(ReadAcs(lens, h.values, dequant, MsbBits(bs), p, k, old(data[..])), ok, more, lens, h.values, dequant, bs, q, next,
             data[..], j.Stands(bs, q))
  {
    hide Sorted, Fits, Pow2, FastSoFar, LengthsSet, Loaded, Supplied, AcEntry, Shr, StepIs, ReadAcs;
    if j.code_bits < 16 { j.GrowBuffer(bs, p); }
    FastIndex(j.code_buffer);
    var c := Shr(j.code_buffer, 32 - FAST_BITS);
    var r := fac[c];
    if r != 0 {
      ok, more := true, true;
      next, q := FastStep(j, h, data, dequant, k, r, lens, bs, p);
    } else {
      ok, more, next, q := SlowStep(j, h, data, dequant, k, lens, bs, p);
    }
  }

  lemma FastIndex(x: nat)
    requires x < Pow2(32)
    ensures Shr(x, 23) < FAST_SIZE
  {
    ShrBound(x, 23, 9);
    Pow2Values();
  }

  ghost predicate FastTable(fac: seq<int>, lens: seq<nat>, values: seq<byte>)
    requires |values| == 256
  {
    |fac| == FAST_SIZE && forall u :: 0 <= u < FAST_SIZE ==> AcEntry(lens, values, u, fac[u])
  }

  // ----- the block

  method DcDifference(j: Jpeg, h: Huffman, ghost lens: seq<nat>, ghost bs: seq<byte>, ghost p: nat) returns (ok: bool, r: int)
    requires j.Live() && h.Built(lens)
    modifies j`pos, j`marker, j`nomore, j`code_buffer, j`code_bits
    ensures j.Live()
    ensures old(j.Stands(bs, p)) ==>
      var dc := ReadDc(lens, h.values, MsbBits(bs), p);
      if ok then dc.Some? && r == dc.value.diff && j.Stands(bs, dc.value.q) else dc.Some? ==> dc.value.q > 8 * |bs|
  {
    hide Sorted, Matches, Fits, Pow2, Extend, FastSoFar, LengthsSet, Loaded, Supplied, MsbBits, Window, ReadSymbol;
    ok, r := true, 0;
    ghost var y := ReadSymbol(lens, h.values, Window(MsbBits(bs), p, 16));
    if j.code_bits < 16 { j.GrowBuffer(bs, p); }
    var t := j.HuffDecode(h, lens, bs, p);
    if t < 0 || t > 15 { return false, 0; }
    if t != 0 { r := j.ExtendReceive(t, bs, if y.Some? then p + y.value.n else p); }
  }

  /** The block that comes next, with the DC coefficient of the block before. */
  ghost function BlockAt(lensDc: seq<nat>, valuesDc: seq<byte>, lensAc: seq<nat>, valuesAc: seq<byte>, dequant: seq<nat>,
                         s: seq<bool>, p: nat, pred: int): BlockRead
    requires |valuesDc| == |valuesAc| == 256 && |dequant| == 64
  {
    match ReadDc(lensDc, valuesDc, s, p)
    case None => Refused
    case Some(dc) => ReadAcs(lensAc, valuesAc, dequant, s, dc.q, 1, OnlyDc(pred + dc.diff, dequant))
  }

  /** Decodes a block: on any stream, success means that it is the one in the stream, with zeros behind the
      stream's end; and it succeeds if that does not go beyond the end. */
  method DecodeBlock(j: Jpeg, data: array<int>, hdc: Huffman, hac: Huffman, fac: seq<int>, dequant: seq<nat>, b: nat,
                     ghost lensDc: seq<nat>, ghost lensAc: seq<nat>, ghost bs: seq<byte>, ghost p: nat)
    returns (ok: bool)
    requires j.Live() && hdc.Built(lensDc) && hac.Built(lensAc) && FastTable(fac, lensAc, hac.values)
    requires data.Length == |dequant| == 64 && b < |j.dc_pred|
    modifies j`pos, j`marker, j`nomore, j`code_buffer, j`code_bits, j`dc_pred, data
    ensures j.Live()
    ensures old(j.Stands(bs, p)) ==>
      var r := BlockAt(lensDc, hdc.values, lensAc, hac.values, dequant, MsbBits(bs), p, old(j.dc_pred[b]));
      var dc := ReadDc(lensDc, hdc.values, MsbBits(bs), p);
      if ok then
        && r.Done? && data[..] == r.d && j.Stands(bs, r.q)
        && dc.Some? && j.dc_pred == old(j.dc_pred)[b := old(j.dc_pred[b]) + dc.value.diff]
      else
        r.Done? ==> r.q > 8 * |bs|
  {
    hide Sorted, Fits, Pow2, FastSoFar, LengthsSet, Loaded, Supplied, FastTable, Short, MsbBits, ReadDc, ReadAcs;
    ghost var s, start := MsbBits(bs), ReadDc(lensDc, hdc.values, MsbBits(bs), p);
    ghost var good := j.Stands(bs, p);
    var d;
    ok, d := DcDifference(j, hdc, lensDc, bs, p);
    if !ok { return; }
    forall i | 0 <= i < 64 { data[i] := 0; }
    var dc := j.dc_pred[b] + d;
    j.dc_pred := j.dc_pred[b := dc];
    data[0] := Short(dc * dequant[0]);
    assert data[..] == OnlyDc(dc, dequant);
    ghost var q: nat := if good then start.value.q else 0;
    ghost var want := ReadAcs(lensAc, hac.values, dequant, s, q, 1, data[..]);
    var k: nat, more := 1, true;
    while more && k < 64
      invariant j.Live() && k >= 1
      invariant j.dc_pred == old(j.dc_pred)[b := dc]
      invariant good ==> StepIs(want, true, more, lensAc, hac.values, dequant, bs, q, k, data[..], j.Stands(bs, q))
      decreases more, 64 - k
    {
      ok, more, k, q := AcStep(j, hac, fac, data, dequant, k, lensAc, bs, q);
      if !ok { return; }
    }
    AllAcs(lensAc, hac.values, dequant, s, q, k, data[..]);
  }

  lemma AllAcs(lens: seq<nat>, values: seq<byte>, dequant: seq<nat>, s: seq<bool>, p: nat, k: nat, d: seq<int>)
    requires |values| == 256 && |dequant| == |d| == 64
    ensures k >= 64 ==> ReadAcs(lens, values, dequant, s, p, k, d) == Done(d, p)
  {
  }

  // ----- a coded block is read

  lemma FilledDc(d: seq<int>, du: seq<int>, dequant: seq<nat>)
    requires |d| == |du| == |dequant| == 64 && d[0] == Short(du[0] * dequant[0]) && forall i :: 1 <= i < 64 ==> d[i] == 0
    ensures Filled(d, du, dequant, 1)
  {
    hide Short;
    TablesInverse();
    assert ZIGZAG[0] == 0;
  }

  /** The coefficients come out in their places, dequantised, and exactly their bits are consumed. */
  lemma {:induction false} CodedAcs(ht: seq<Entry>, lens: seq<nat>, values: seq<byte>, du: seq<int>, dequant: seq<nat>, bs: seq<byte>,
                                    p: nat, k: nat, d: seq<int>)
    requires |ht| == |values| == 256 && |du| == |dequant| == |d| == 64 && 1 <= k <= 64
    requires AcCodable(ht, du) && Agrees(ht, lens, values) && Sorted(lens) && Fits(lens)
    requires GoesOn(bs, p, AcBits(ht, du, k)) && Filled(d, du, dequant, k)
    ensures var r := ReadAcs(lens, values, dequant, MsbBits(bs), p, k, d);
      r.Done? && Filled(r.d, du, dequant, 64) && r.q == p + |AcBits(ht, du, k)|
    decreases 64 - k
  {
    hide GoesOn, AcBits, AfterSymbol, NextSymbol, AcCodable, Agrees, Sorted, Matches, Filled, Fits, Short, ZIGZAG, DEZIGZAG,
      Magnitude, Extend, MsbBits, Window, Category, ReadAcs, ReadSymbol, Blind;
    if k == 64 {
      AcEnd(ht, du);
      AllAcs(lens, values, dequant, MsbBits(bs), p, k, d);
    } else {
      TablesInverse();
      var s := MsbBits(bs);
      var i := NextMatches(ht, lens, values, du, k, bs, p);
      SymbolSays(ht, du, k);
      SymbolSeen(lens, values, i, Window(s, p, 16));
      OneAc(lens, values, dequant, s, p, k, d);
      var z, q := NextNonzero(du, k), p + lens[i];
      if values[i] == 0xF0 {
        FilledSkip(d, du, dequant, k, k + 16);
        CodedAcs(ht, lens, values, du, dequant, bs, q, k + 16, d);
      } else if values[i] % 16 == 0 {
        FilledSkip(d, du, dequant, k, 64);
      } else {
        GoesOnSplit(bs, q, Magnitude(du[z]), AcBits(ht, du, z + 1));
        MagnitudeRead(du[z], bs, q);
        FilledPlace(d, du, dequant, k, z, Short(du[z] * dequant[DEZIGZAG[z]]));
        CodedAcs(ht, lens, values, du, dequant, bs, q + values[i] % 16, z + 1, d[DEZIGZAG[z] := Short(du[z] * dequant[DEZIGZAG[z]])]);
      }
    }
  }

  lemma CodedDc(ht: seq<Entry>, lens: seq<nat>, values: seq<byte>, diff: int, bs: seq<byte>, p: nat)
    requires |ht| == |values| == 256 && DcCodable(ht, diff) && Agrees(ht, lens, values) && Sorted(lens) && Fits(lens)
    requires GoesOn(bs, p, DcBits(ht, diff))
    ensures ReadDc(lens, values, MsbBits(bs), p) == Some(Dc(diff, p + |DcBits(ht, diff)|))
  {
    hide GoesOn, Agrees, Sorted, Matches, Fits, Magnitude, Extend, MsbBits, Window, SymbolBits, ReadSymbol, Blind;
    var n := Category(Abs(diff));
    GoesOnSplit(bs, p, SymbolBits(ht, n), if diff == 0 then [] else Magnitude(diff));
    var i := SymbolMatches(ht, lens, values, n, bs, p);
    SymbolSeen(lens, values, i, Window(MsbBits(bs), p, 16));
    if diff != 0 { MagnitudeRead(diff, bs, p + lens[i]); }
  }

  /** If the stream goes on with the coded form of a block, that is the block that is read. */
  lemma BlockIsRead(htd: seq<Entry>, hta: seq<Entry>, lensDc: seq<nat>, valuesDc: seq<byte>, lensAc: seq<nat>, valuesAc: seq<byte>,
                    du: seq<int>, dequant: seq<nat>, pred: int, bs: seq<byte>, p: nat)
    requires |valuesDc| == |valuesAc| == 256 && |dequant| == 64 && BlockCodable(htd, hta, du, pred)
    requires Agrees(htd, lensDc, valuesDc) && Sorted(lensDc) && Fits(lensDc)
    requires Agrees(hta, lensAc, valuesAc) && Sorted(lensAc) && Fits(lensAc)
    requires GoesOn(bs, p, BlockBits(htd, hta, du, pred))
    ensures var r := BlockAt(lensDc, valuesDc, lensAc, valuesAc, dequant, MsbBits(bs), p, pred);
      r.Done? && Filled(r.d, du, dequant, 64) && r.q == p + |BlockBits(htd, hta, du, pred)| <= 8 * |bs|
    ensures var dc := ReadDc(lensDc, valuesDc, MsbBits(bs), p); dc.Some? && pred + dc.value.diff == du[0]
  {
    hide GoesOn, AcBits, DcBits, AcCodable, DcCodable, Agrees, Sorted, Filled, Fits, Short, ReadAcs, ReadDc, MsbBits;
    var diff := du[0] - pred;
    Inside(bs, p, BlockBits(htd, hta, du, pred));
    GoesOnSplit(bs, p, DcBits(htd, diff), AcBits(hta, du, 1));
    CodedDc(htd, lensDc, valuesDc, diff, bs, p);
    FilledDc(OnlyDc(du[0], dequant), du, dequant);
    CodedAcs(hta, lensAc, valuesAc, du, dequant, bs, p + |DcBits(htd, diff)|, 1, OnlyDc(du[0], dequant));
  }
}
