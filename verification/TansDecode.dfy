/** Decoding symbols with five interleaved states from two bit streams that start at the two ends of
    one buffer: one field at a time as the reference, and in bulk. */
module TansDecode {
  import opened Bits
  import opened TansSpec
  import opened TansTable
  import opened TansStream
  import opened Words

  // ----- one field at a time

  /** The five states, how many bits of either stream are used, and the symbols so far. */
  datatype Tans = Tans(states: seq<nat>, pos0: nat, pos1: nat, out: seq<byte>)

  ghost predicate EntryOk(e: Entry, size: nat) {
    e.len <= L_BITS_MAX && e.mask == Pow2(e.len) - 1 && e.sym < 256 && e.nextst + Pow2(e.len) <= size
  }

  ghost predicate TableOk(table: seq<Entry>) {
    forall t :: 0 <= t < |table| ==> EntryOk(table[t], |table|)
  }

  ghost predicate StatesOk(states: seq<nat>, size: nat) {
    |states| == 5 && forall k :: 0 <= k < 5 ==> states[k] < size
  }

  /** Step i of a round of ten: the five states in turn, first from one stream, then from the other. */
  ghost function Step(table: seq<Entry>, s0: seq<bool>, s1: seq<bool>, t: Tans, i: nat): (r: Tans)
    requires TableOk(table) && StatesOk(t.states, |table|)
    ensures StatesOk(r.states, |table|)
  {
    var k := i % 5;
    var e := table[t.states[k]];
    assert EntryOk(e, |table|);
    if i % 10 < 5 then
      FieldBound(s0, t.pos0, e.len);
      Tans(t.states[k := Field(s0, t.pos0, e.len) + e.nextst], t.pos0 + e.len, t.pos1, t.out + [e.sym])
    else
      FieldBound(s1, t.pos1, e.len);
      Tans(t.states[k := Field(s1, t.pos1, e.len) + e.nextst], t.pos0, t.pos1 + e.len, t.out + [e.sym])
  }

  /** The first n steps. */
  ghost function Run(table: seq<Entry>, s0: seq<bool>, s1: seq<bool>, t: Tans, n: nat): (r: Tans)
    requires TableOk(table) && StatesOk(t.states, |table|)
    ensures StatesOk(r.states, |table|)
  {
    if n == 0 then t else Step(table, s0, s1, Run(table, s0, s1, t, n - 1), n - 1)
  }

  // ----- both lanes

  ghost predicate LanesAt(s0: seq<bool>, s1: seq<bool>, t: Tans, m0: nat, m1: nat, w: nat,
                          bits: seq<nat>, bitc: seq<nat>, ptr0: nat, ptr1: nat)
  {
    && |bits| == |bitc| == 2
    && LaneAt(s0, t.pos0, m0, w, bits[0], bitc[0], ptr0)
    && LaneAt(s1, t.pos1, m1, w, bits[1], bitc[1], ptr1)
  }

  ghost function Pos(t: Tans, lane: nat): nat {
    if lane == 0 then t.pos0 else t.pos1
  }

  ghost predicate LaneOf(s0: seq<bool>, s1: seq<bool>, t: Tans, lane: nat, m: nat, w: nat, bits: nat, bitc: nat, ptr: nat) {
    LaneAt(if lane == 0 then s0 else s1, Pos(t, lane), m, w, bits, bitc, ptr)
  }

  /** A step takes its field from the bit buffer of its lane. */
  lemma StepLane(table: seq<Entry>, s0: seq<bool>, s1: seq<bool>, t: Tans, i: nat, m: nat, w: nat,
                 bits: nat, bitc: nat, ptr: nat)
    requires TableOk(table) && StatesOk(t.states, |table|) && i < 10
    requires LaneOf(s0, s1, t, i / 5, m, w, bits, bitc, ptr) && bitc >= L_BITS_MAX
    ensures var e, lane := table[t.states[i % 5]], i / 5;
      && EntryOk(e, |table|) && e.len <= bitc && e.len <= m
      && var u := Step(table, s0, s1, t, i);
      && Pos(u, lane) == Pos(t, lane) + e.len && Pos(u, 1 - lane) == Pos(t, 1 - lane)
      && u.states == t.states[i % 5 := And(bits, e.mask) + e.nextst] && u.out == t.out + [e.sym]
      && LaneOf(s0, s1, u, lane, m - e.len, w, Shr(bits, e.len), bitc - e.len, ptr)
  {
    hide LaneAt, Field, And, Shr;
    var e := table[t.states[i % 5]];
    assert EntryOk(e, |table|);
    var s := if i < 5 then s0 else s1;
    LaneCount(s, Pos(t, i / 5), m, w, bits, bitc, ptr);
    Take(s, Pos(t, i / 5), m, w, bits, bitc, ptr, e.len);
  }

  lemma LaneCount(s: seq<bool>, pos: nat, m: nat, w: nat, bits: nat, bitc: nat, ptr: nat)
    requires LaneAt(s, pos, m, w, bits, bitc, ptr)
    ensures bitc <= m <= w
  {
  }

  /** One more step of a run, n a multiple of ten. */
  lemma RunStep(table: seq<Entry>, s0: seq<bool>, s1: seq<bool>, t: Tans, n: nat, i: nat)
    requires TableOk(table) && StatesOk(t.states, |table|) && n % 10 == 0 && i < 10
    ensures Run(table, s0, s1, t, n + i + 1) == Step(table, s0, s1, Run(table, s0, s1, t, n + i), i)
  {
    hide Step, TableOk, StatesOk;
    SamePhase(table, s0, s1, Run(table, s0, s1, t, n + i), n, i);
  }

  lemma SamePhase(table: seq<Entry>, s0: seq<bool>, s1: seq<bool>, t: Tans, n: nat, i: nat)
    requires TableOk(table) && StatesOk(t.states, |table|) && n % 10 == 0 && i < 10
    ensures Step(table, s0, s1, t, n + i) == Step(table, s0, s1, t, i)
  {
    hide Field, TableOk, StatesOk;
    Phase(n, i);
  }

  lemma Phase(n: nat, i: nat)
    requires n % 10 == 0 && i < 10
    ensures (n + i) % 10 == i % 10 && (n + i) % 5 == i % 5
  {
    var q := n / 10;
    DivModUnique(n + i, 10, q, i);
    DivModUnique(n + i, 5, 2 * q + i / 5, i % 5);
  }

  /** One symbol: the next step of a run, taken from the bit buffer of its lane. */
  method DecodeOne(table: seq<Entry>, to: array<byte>, p: nat, i: nat, x: seq<nat>, b: seq<nat>, c: seq<nat>,
                   ghost s0: seq<bool>, ghost s1: seq<bool>, ghost t: Tans, ghost n: nat, ghost m: nat, ghost w: nat,
                   ghost ptr: nat)
      returns (tans: seq<nat>, bits: seq<nat>, bitc: seq<nat>, ghost len: nat)
    requires TableOk(table) && StatesOk(t.states, |table|) && n % 10 == 0 && i < 10 && p < to.Length
    requires |b| == |c| == 2 && c[i / 5] >= L_BITS_MAX
    requires LaneOf(s0, s1, Run(table, s0, s1, t, n + i), i / 5, m, w, b[i / 5], c[i / 5], ptr)
    requires x == Run(table, s0, s1, t, n + i).states && to[..p] == Run(table, s0, s1, t, n + i).out
    modifies to
    ensures |bits| == |bitc| == 2 && len <= m && len <= L_BITS_MAX && bitc[i / 5] == c[i / 5] - len
    ensures bits[1 - i / 5] == b[1 - i / 5] && bitc[1 - i / 5] == c[1 - i / 5]
    ensures var r, u := Run(table, s0, s1, t, n + i), Run(table, s0, s1, t, n + i + 1);
      && LaneOf(s0, s1, u, i / 5, m - len, w, bits[i / 5], bitc[i / 5], ptr)
      && Pos(u, i / 5) == Pos(r, i / 5) + len && Pos(u, 1 - i / 5) == Pos(r, 1 - i / 5)
      && tans == u.states && to[..p + 1] == u.out
    ensures forall j :: 0 <= j < to.Length && j != p ==> to[j] == old(to[j])
  {
    hide LaneOf, Run, TableOk, Step, And, Shr, Field, Pos;
    ghost var r := Run(table, s0, s1, t, n + i);
    var lane, k := i / 5, i % 5;
    StepLane(table, s0, s1, r, i, m, w, b[lane], c[lane], ptr);
    RunStep(table, s0, s1, t, n, i);
    var entry := table[x[k]];
    to[p] := entry.sym;
    tans := x[k := And(b[lane], entry.mask) + entry.nextst];
    bits := b[lane := Shr(b[lane], entry.len)];
    bitc := c[lane := c[lane] - entry.len];
    len := entry.len;
  }

  lemma LanesSplit(s0: seq<bool>, s1: seq<bool>, t: Tans, m0: nat, m1: nat, w: nat,
                   bits: seq<nat>, bitc: seq<nat>, ptr0: nat, ptr1: nat)
    requires |bits| == |bitc| == 2
    ensures LanesAt(s0, s1, t, m0, m1, w, bits, bitc, ptr0, ptr1) <==>
      && LaneOf(s0, s1, t, 0, m0, w, bits[0], bitc[0], ptr0) && LaneOf(s0, s1, t, 1, m1, w, bits[1], bitc[1], ptr1)
  {
  }

  lemma LaneKept(s0: seq<bool>, s1: seq<bool>, t: Tans, u: Tans, lane: nat, m: nat, w: nat, bits: nat, bitc: nat, ptr: nat)
    requires Pos(t, lane) == Pos(u, lane) && LaneOf(s0, s1, t, lane, m, w, bits, bitc, ptr)
    ensures LaneOf(s0, s1, u, lane, m, w, bits, bitc, ptr)
  {
  }

  /** Ten symbols from full bit buffers, no refill in between. */
  method DecodeTen(table: seq<Entry>, to: array<byte>, decodeptr: nat, tans0: seq<nat>, bits0: seq<nat>, bitc0: seq<nat>,
                   ghost s0: seq<bool>, ghost s1: seq<bool>, ghost t: Tans, ghost n: nat, ghost ptr0: nat, ghost ptr1: nat)
      returns (tans: seq<nat>, bits: seq<nat>, bitc: seq<nat>, ghost m0: nat, ghost m1: nat)
    requires TableOk(table) && StatesOk(t.states, |table|) && n % 10 == 0 && decodeptr + 10 <= to.Length
    requires LanesAt(s0, s1, Run(table, s0, s1, t, n), 64, 64, 64, bits0, bitc0, ptr0, ptr1)
    requires tans0 == Run(table, s0, s1, t, n).states && to[..decodeptr] == Run(table, s0, s1, t, n).out
    requires bitc0[0] >= 56 && bitc0[1] >= 56
    modifies to
    ensures LanesAt(s0, s1, Run(table, s0, s1, t, n + 10), m0, m1, 64, bits, bitc, ptr0, ptr1)
    ensures tans == Run(table, s0, s1, t, n + 10).states && to[..decodeptr + 10] == Run(table, s0, s1, t, n + 10).out
    ensures |bitc| == 2 && bitc[0] <= bitc0[0] && bitc[1] <= bitc0[1]
    ensures forall j :: decodeptr + 10 <= j < to.Length ==> to[j] == old(to[j])
  {
    hide LanesAt, LaneOf, Pos, Run, TableOk, StatesOk;
    tans, bits, bitc, m0, m1 := tans0, bits0, bitc0, 64, 64;
    LanesShape(s0, s1, Run(table, s0, s1, t, n), m0, m1, 64, bits, bitc, ptr0, ptr1);
    LanesSplit(s0, s1, Run(table, s0, s1, t, n), m0, m1, 64, bits, bitc, ptr0, ptr1);
    var i := 0;
    while i < 10
      invariant 0 <= i <= 10 && |bits| == |bitc| == 2 && bitc[0] <= bitc0[0] && bitc[1] <= bitc0[1]
      invariant bitc[0] >= 56 - L_BITS_MAX * (if i < 5 then i else 5)
      invariant bitc[1] >= 56 - L_BITS_MAX * (if i < 5 then 0 else i - 5)
      invariant LaneOf(s0, s1, Run(table, s0, s1, t, n + i), 0, m0, 64, bits[0], bitc[0], ptr0)
      invariant LaneOf(s0, s1, Run(table, s0, s1, t, n + i), 1, m1, 64, bits[1], bitc[1], ptr1)
      invariant tans == Run(table, s0, s1, t, n + i).states
      invariant to[..decodeptr + i] == Run(table, s0, s1, t, n + i).out
      invariant forall j :: decodeptr + i <= j < to.Length ==> to[j] == old(to[j])
    {
      ghost var r, u := Run(table, s0, s1, t, n + i), Run(table, s0, s1, t, n + i + 1);
      ghost var len;
      tans, bits, bitc, len := DecodeOne(table, to, decodeptr + i, i, tans, bits, bitc, s0, s1, t, n,
                                         if i < 5 then m0 else m1, 64, if i < 5 then ptr0 else ptr1);
      if i < 5 {
        LaneKept(s0, s1, r, u, 1, m1, 64, bits[1], bitc[1], ptr1);
        m0 := m0 - len;
      } else {
        LaneKept(s0, s1, r, u, 0, m0, 64, bits[0], bitc[0], ptr0);
        m1 := m1 - len;
      }
      i := i + 1;
    }
    LanesSplit(s0, s1, Run(table, s0, s1, t, n + 10), m0, m1, 64, bits, bitc, ptr0, ptr1);
  }

  lemma LanesShape(s0: seq<bool>, s1: seq<bool>, t: Tans, m0: nat, m1: nat, w: nat,
                   bits: seq<nat>, bitc: seq<nat>, ptr0: nat, ptr1: nat)
    requires LanesAt(s0, s1, t, m0, m1, w, bits, bitc, ptr0, ptr1)
    ensures |bits| == |bitc| == 2 && bitc[0] <= m0 <= w && bitc[1] <= m1 <= w
    ensures 8 * ptr0 == t.pos0 + bitc[0] && 8 * ptr1 == t.pos1 + bitc[1]
  {
  }

  // ----- the two streams of a buffer

  ghost function Forward(buf: seq<byte>): seq<bool> {
    ByteBits(buf)
  }

  ghost function Backward(buf: seq<byte>): seq<bool> {
    ByteBits(Rev(buf))
  }

  lemma ReadForward(buf: seq<byte>, p: nat, n: nat)
    requires p + n <= |buf|
    ensures ReadLE(buf, p, n) == Field(Forward(buf), 8 * p, 8 * n)
  {
    ReadField(buf, p, n);
  }

  lemma ReadBackward(buf: seq<byte>, p: nat, n: nat)
    requires p + n <= |buf|
    ensures ReadBE(buf, p, n) == Field(Backward(buf), 8 * (|buf| - p - n), 8 * n)
  {
    ReadBERev(buf, p, n);
    ReadField(Rev(buf), |buf| - p - n, n);
  }

  /** Tops up both 64-bit buffers. */
  method RefillBoth(comp: seq<byte>, p0: nat, p1: nat, b: seq<nat>, c: seq<nat>, ghost t: Tans, ghost m0: nat, ghost m1: nat)
      returns (in0: nat, in1: int, bits: seq<nat>, bitc: seq<nat>)
    requires p0 <= p1 <= |comp| - 8
    requires LanesAt(Forward(comp), Backward(comp), t, m0, m1, 64, b, c, p0, |comp| - 8 - p1) && c[0] < 64 && c[1] < 64
    ensures p0 <= in0 <= p0 + 7 && p1 - 7 <= in1 <= p1
    ensures LanesAt(Forward(comp), Backward(comp), t, 64, 64, 64, bits, bitc, in0, |comp| - 8 - in1)
    ensures 56 <= bitc[0] < 64 && 56 <= bitc[1] < 64
  {
    hide LanesAt, Forward, Backward, Field, Or, Shl, Low, ReadLE, ReadBE;
    ghost var s0, s1 := Forward(comp), Backward(comp);
    LanesShape(s0, s1, t, m0, m1, 64, b, c, p0, |comp| - 8 - p1);
    ReadForward(comp, p0, 8);
    ReadBackward(comp, p1, 8);
    RefillLanes(s0, s1, t, m0, m1, 64, b, c, p0, |comp| - 8 - p1, ReadLE(comp, p0, 8), ReadBE(comp, p1, 8));
    bits := [Or(b[0], Low(Shl(ReadLE(comp, p0, 8), c[0]), 64)), Or(b[1], Low(Shl(ReadBE(comp, p1, 8), c[1]), 64))];
    in0, in1 := p0 + (63 - c[0]) / 8, p1 - (63 - c[1]) / 8;
    bitc := [Or(c[0], 56), Or(c[1], 56)];
  }

  /** The bulk loop: ten symbols a round while eight bytes can be read at either end. */
  method BulkLoop(table: seq<Entry>, comp: seq<byte>, to: array<byte>, start: nat, end: nat, p0: nat, p1: nat,
                  b: seq<nat>, c: seq<nat>, x: seq<nat>, ghost t: Tans, ghost a0: nat, ghost a1: nat)
      returns (n: nat, ghost m0: nat, ghost m1: nat, in0: nat, in1: nat, bits: seq<nat>, bitc: seq<nat>, tans: seq<nat>)
    requires TableOk(table) && StatesOk(t.states, |table|) && x == t.states
    requires p0 + 8 <= p1 <= |comp| && start + 10 <= end <= to.Length && to[..start] == t.out
    requires LanesAt(Forward(comp), Backward(comp), t, a0, a1, 64, b, c, p0, |comp| - p1) && c[0] < 64 && c[1] < 64
    modifies to
    ensures n % 10 == 0 && start + n <= end && in0 <= |comp| && in1 <= |comp|
    ensures var r := Run(table, Forward(comp), Backward(comp), t, n);
      && to[..start + n] == r.out && tans == r.states
      && LanesAt(Forward(comp), Backward(comp), r, m0, m1, 64, bits, bitc, in0, |comp| - in1)
    ensures forall j :: start + n <= j < to.Length ==> to[j] == old(to[j])
  {
    hide LanesAt, Run, TableOk, Forward, Backward, StatesOk;
    ghost var s0, s1 := Forward(comp), Backward(comp);
    assert Run(table, s0, s1, t, 0) == t by { RunNone(table, s0, s1, t); }
    n, m0, m1, bits, bitc, tans, in0 := 0, a0, a1, b, c, x, p0;
    LanesShape(s0, s1, t, a0, a1, 64, b, c, p0, |comp| - p1);
    var in1i: int, decodeptr, decodeend := p1 - 8, start, end - 10;
    while in0 <= in1i && decodeptr <= decodeend
      invariant n % 10 == 0 && decodeptr == start + n <= end
      invariant in0 <= |comp| && -8 <= in1i <= |comp| - 8
      invariant |bits| == |bitc| == 2 && bitc[0] < 64 && bitc[1] < 64
      invariant LanesAt(s0, s1, Run(table, s0, s1, t, n), m0, m1, 64, bits, bitc, in0, |comp| - 8 - in1i)
      invariant tans == Run(table, s0, s1, t, n).states && to[..decodeptr] == Run(table, s0, s1, t, n).out
      invariant forall j :: decodeptr <= j < to.Length ==> to[j] == old(to[j])
      decreases end - decodeptr
    {
      in0, in1i, bits, bitc := RefillBoth(comp, in0, in1i, bits, bitc, Run(table, s0, s1, t, n), m0, m1);
      tans, bits, bitc, m0, m1 := DecodeTen(table, to, decodeptr, tans, bits, bitc, s0, s1, t, n, in0, |comp| - 8 - in1i);
      LanesShape(s0, s1, Run(table, s0, s1, t, n + 10), m0, m1, 64, bits, bitc, in0, |comp| - 8 - in1i);
      decodeptr := decodeptr + 10;
      n := n + 10;
    }
    in1 := in1i + 8;
  }

  /** The bulk loop, and the whole bytes given back: both ends stand as before it. */
  method BulkRewound(table: seq<Entry>, comp: seq<byte>, to: array<byte>, start: nat, end: nat, p0: nat, p1: nat,
                     b: seq<nat>, c: seq<nat>, x: seq<nat>, ghost t: Tans, ghost a0: nat, ghost a1: nat)
      returns (n: nat, ghost m0: nat, ghost m1: nat, bitp: seq<int>, bits: seq<nat>, bitc: seq<nat>, tans: seq<nat>)
    requires TableOk(table) && StatesOk(t.states, |table|) && x == t.states
    requires p0 + 8 <= p1 <= |comp| && start + 10 <= end <= to.Length && to[..start] == t.out
    requires LanesAt(Forward(comp), Backward(comp), t, a0, a1, 32, b, c, p0, |comp| - p1)
    modifies to
    ensures n % 10 == 0 && start + n <= end && |bitp| == 2 && 0 <= bitp[0] && bitp[1] <= |comp| && |bits| == |bitc| == 2
    ensures var r := Run(table, Forward(comp), Backward(comp), t, n);
      && to[..start + n] == r.out && tans == r.states
      && LanesAt(Forward(comp), Backward(comp), r, m0, m1, 32, bits, bitc, bitp[0], |comp| - bitp[1])
    ensures bitc[0] < 8 && bitc[1] < 8
    ensures forall j :: start + n <= j < to.Length ==> to[j] == old(to[j])
  {
    hide LanesAt, LaneAt, Run, TableOk, EntryOk, Forward, Backward, Low, StatesOk;
    ghost var s0, s1 := Forward(comp), Backward(comp);
    LanesShape(s0, s1, t, a0, a1, 32, b, c, p0, |comp| - p1);
    WiderLanes(s0, s1, t, a0, a1, 32, 64, b, c, p0, |comp| - p1);
    var in0, in1, wide, used;
    n, m0, m1, in0, in1, wide, used, tans := BulkLoop(table, comp, to, start, end, p0, p1, b, c, x, t, a0, a1);
    ghost var r := Run(table, s0, s1, t, n);
    LanesShape(s0, s1, r, m0, m1, 64, wide, used, in0, |comp| - in1);
    RewindLanes(s0, s1, r, m0, m1, 64, wide, used, in0, |comp| - in1);
    bitp := [in0 - used[0] / 8, in1 + used[1] / 8];
    bits := [Low(wide[0], 32), Low(wide[1], 32)];
    bitc := [used[0] % 8, used[1] % 8];
    m0, m1 := if m0 < 32 then m0 else 32, if m1 < 32 then m1 else 32;
  }

  lemma RunNone(table: seq<Entry>, s0: seq<bool>, s1: seq<bool>, t: Tans)
    requires TableOk(table) && StatesOk(t.states, |table|)
    ensures Run(table, s0, s1, t, 0) == t
  {
  }

  class KrakenTansState {
    const table: seq<Entry>
    const comp: seq<byte>
    const to: array<byte>
    var decodeptr: nat
    var decodeend: nat
    var bitp: seq<int>
    var bits: seq<nat>
    var bitc: seq<nat>
    var tansState: seq<nat>

    constructor (table: seq<Entry>, comp: seq<byte>, to: array<byte>, decodeend: nat, bitp: seq<int>, bits: seq<nat>,
                 bitc: seq<nat>, tansState: seq<nat>)
      ensures this.table == table && this.comp == comp && this.to == to && decodeptr == 0 && this.decodeend == decodeend
      ensures this.bitp == bitp && this.bits == bits && this.bitc == bitc && this.tansState == tansState
    {
      this.table, this.comp, this.to, this.decodeptr, this.decodeend := table, comp, to, 0, decodeend;
      this.bitp, this.bits, this.bitc, this.tansState := bitp, bits, bitc, tansState;
    }

    /** The state of the object is that of the reference decoder. */
    ghost predicate At(t: Tans, m0: nat, m1: nat)
      reads this, to
    {
      && decodeptr <= decodeend <= to.Length && to[..decodeptr] == t.out
      && TableOk(table) && StatesOk(t.states, |table|) && tansState == t.states
      && |bitp| == 2 && 0 <= bitp[0] && bitp[1] <= |comp|
      && LanesAt(Forward(comp), Backward(comp), t, m0, m1, 32, bits, bitc, bitp[0], |comp| - bitp[1])
      && bitc[0] < 8 && bitc[1] < 8
    }

    ghost function Decoded(t: Tans, n: nat): Tans
      reads this
      requires TableOk(table) && StatesOk(t.states, |table|)
    {
      Run(table, Forward(comp), Backward(comp), t, n)
    }

    /** Decodes in bulk what it can; what is left over is fewer than ten symbols or fewer than eight
        bytes between the two ends. */
    method DecodeBulk(ghost t: Tans, ghost a0: nat, ghost a1: nat) returns (n: nat, ghost m0: nat, ghost m1: nat)
      requires At(t, a0, a1)
      modifies this, to
      ensures n % 10 == 0 && decodeptr == old(decodeptr) + n && decodeend == old(decodeend)
      ensures At(Decoded(t, n), m0, m1)
      ensures forall j :: decodeptr <= j < to.Length ==> to[j] == old(to[j])
    {
      n, m0, m1 := 0, a0, a1;
      if bitp[1] - bitp[0] >= 8 && decodeend - decodeptr >= 10 {
        hide LanesAt, LaneAt, Run, TableOk, EntryOk, Forward, Backward, StatesOk;
        var tans;
        n, m0, m1, bitp, bits, bitc, tans :=
          BulkRewound(table, comp, to, decodeptr, decodeend, bitp[0], bitp[1], bits, bitc, tansState, t, a0, a1);
        decodeptr := decodeptr + n;
        tansState := tans;
      }
    }
  }

  lemma WiderLanes(s0: seq<bool>, s1: seq<bool>, t: Tans, m0: nat, m1: nat, w: nat, v: nat,
                   bits: seq<nat>, bitc: seq<nat>, ptr0: nat, ptr1: nat)
    requires LanesAt(s0, s1, t, m0, m1, w, bits, bitc, ptr0, ptr1) && w <= v
    ensures LanesAt(s0, s1, t, m0, m1, v, bits, bitc, ptr0, ptr1)
  {
  }

  lemma RefillLanes(s0: seq<bool>, s1: seq<bool>, t: Tans, m0: nat, m1: nat, w: nat,
                    bits: seq<nat>, bitc: seq<nat>, ptr0: nat, ptr1: nat, word0: nat, word1: nat)
    requires w == 64 || w == 32
    requires LanesAt(s0, s1, t, m0, m1, w, bits, bitc, ptr0, ptr1) && bitc[0] < w && bitc[1] < w
    requires word0 == Field(s0, 8 * ptr0, w) && word1 == Field(s1, 8 * ptr1, w)
    ensures LanesAt(s0, s1, t, w, w, w,
                    [Or(bits[0], Low(Shl(word0, bitc[0]), w)), Or(bits[1], Low(Shl(word1, bitc[1]), w))],
                    [Or(bitc[0], w - 8), Or(bitc[1], w - 8)],
                    ptr0 + (w - 1 - bitc[0]) / 8, ptr1 + (w - 1 - bitc[1]) / 8)
    ensures w - 8 <= Or(bitc[0], w - 8) < w && w - 8 <= Or(bitc[1], w - 8) < w
  {
    hide LaneAt, Field, Or, Low, Shl;
    Refill(s0, s0, 0, t.pos0, m0, w, bits[0], bitc[0], ptr0, word0);
    Refill(s1, s1, 0, t.pos1, m1, w, bits[1], bitc[1], ptr1, word1);
  }

  lemma RewindLanes(s0: seq<bool>, s1: seq<bool>, t: Tans, m0: nat, m1: nat, w: nat,
                    bits: seq<nat>, bitc: seq<nat>, ptr0: nat, ptr1: nat)
    requires LanesAt(s0, s1, t, m0, m1, w, bits, bitc, ptr0, ptr1) && w >= 32
    ensures ptr0 >= bitc[0] / 8 && ptr1 >= bitc[1] / 8
    ensures LanesAt(s0, s1, t, if m0 < 32 then m0 else 32, if m1 < 32 then m1 else 32, 32,
                    [Low(bits[0], 32), Low(bits[1], 32)], [bitc[0] % 8, bitc[1] % 8],
                    ptr0 - bitc[0] / 8, ptr1 - bitc[1] / 8)
  {
    hide LaneAt, Field, Low;
    Rewind(s0, t.pos0, m0, w, bits[0], bitc[0], ptr0);
    Rewind(s1, t.pos1, m1, w, bits[1], bitc[1], ptr1);
    Truncate(s0, t.pos0, m0, w, bits[0], bitc[0] % 8, ptr0 - bitc[0] / 8, 32);
    Truncate(s1, t.pos1, m1, w, bits[1], bitc[1] % 8, ptr1 - bitc[1] / 8, 32);
  }
}
