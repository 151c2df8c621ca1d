/** The careful end of the five-state decoder: one refill every two symbols, and a copy of the last
    bytes so that no read leaves the buffer. */
module TansFinish {
  import opened Bits
  import opened TansSpec
  import opened TansTable
  import opened TansStream
  import opened Words
  import opened TansDecode
  import opened TansTail

  // ----- what is read

  /** The two streams as they are seen through a buffer. They begin in f and end in g, up to a byte
      outside it, and until e0 and e1 may hold ones that came into the bit buffers from elsewhere;
      b0 and b1 bytes come before. */
  datatype View = View(f: seq<byte>, g: seq<byte>, s0: seq<bool>, s1: seq<bool>, e0: nat, e1: nat, b0: nat, b1: nat)

  ghost function Top(v: View, lane: nat): seq<bool> {
    if lane == 0 then v.s0 else v.s1
  }

  ghost function Under(v: View, buf: seq<byte>, lane: nat): seq<bool> {
    if lane == 0 then Forward(v.f + buf + v.g) else Backward(v.f + buf + v.g)
  }

  ghost function Edge(v: View, lane: nat): nat {
    if lane == 0 then v.e0 else v.e1
  }

  ghost function Ptr(v: View, buf: seq<byte>, in0: int, in1: int, lane: nat): int {
    if lane == 0 then |v.f| + in0 else |buf| + |v.g| - in1
  }

  ghost predicate Feeds(v: View, buf: seq<byte>) {
    Covers(v.s0, Under(v, buf, 0), v.e0) && Covers(v.s1, Under(v, buf, 1), v.e1)
  }

  /** The next refill makes the bit buffer the next bits of the stream. */
  ghost predicate Loose(s: seq<bool>, u: seq<bool>, pos: nat, bits: nat, bitc: nat, ptr: int) {
    && ptr >= 0 && 8 * ptr == pos + bitc
    && Or(bits, Low(Shl(Field(u, 8 * ptr, 32), bitc), 32)) == Field(s, pos, 32)
  }

  /** Before its first refill a lane is loose, then its buffer holds bits of the stream. */
  ghost predicate LaneReady(v: View, buf: seq<byte>, t: Tans, lane: nat, m: nat, bits: nat, bitc: nat, ptr: int, filled: bool) {
    && bitc < 32
    && if filled then ptr >= 0 && LaneOf(v.s0, v.s1, t, lane, m, 32, bits, bitc, ptr) && Edge(v, lane) <= Pos(t, lane) + m
       else Loose(Top(v, lane), Under(v, buf, lane), Pos(t, lane), bits, bitc, ptr)
  }

  lemma ReadyAgain(v: View, buf: seq<byte>, t: Tans, lane: nat, m: nat, bits: nat, bitc: nat, ptr: int)
    requires lane < 2 && Feeds(v, buf) && LaneReady(v, buf, t, lane, m, bits, bitc, ptr, true)
    ensures LaneReady(v, buf, t, lane, m, bits, bitc, ptr, false)
  {
    hide Field, Or, Low, Shl, Covers, Under;
    OrOver(Top(v, lane), Under(v, buf, lane), Edge(v, lane), Pos(t, lane), m, bitc, 32);
  }

  lemma ReadyPosition(v: View, buf: seq<byte>, t: Tans, lane: nat, m: nat, bits: nat, bitc: nat, ptr: int, filled: bool)
    requires LaneReady(v, buf, t, lane, m, bits, bitc, ptr, filled)
    ensures ptr >= 0 && 8 * ptr == Pos(t, lane) + bitc && bitc < 32 && ptr - bitc / 8 == BytesUsed(Pos(t, lane))
  {
    hide Field, Or, Low, Shl, Under;
  }

  lemma ReadyKept(v: View, buf: seq<byte>, t: Tans, u: Tans, lane: nat, m: nat, bits: nat, bitc: nat, ptr: int, filled: bool)
    requires LaneReady(v, buf, t, lane, m, bits, bitc, ptr, filled) && Pos(t, lane) == Pos(u, lane)
    ensures LaneReady(v, buf, u, lane, m, bits, bitc, ptr, filled)
  {
    hide Field, Or, Low, Shl, Under;
  }

  lemma LooseRefill(s: seq<bool>, u: seq<bool>, pos: nat, bits: nat, bitc: nat, ptr: nat)
    requires Loose(s, u, pos, bits, bitc, ptr) && bitc < 32
    ensures LaneAt(s, pos, 32, 32, Or(bits, Low(Shl(Field(u, 8 * ptr, 32), bitc), 32)), Or(bitc, 24), ptr + (31 - bitc) / 8)
    ensures 24 <= Or(bitc, 24) < 32
  {
    hide Field, Or, Low, Shl;
    OrTop(bitc, 32);
  }

  lemma {:induction false} ReadLEInside(f: seq<byte>, b: seq<byte>, g: seq<byte>, p: nat, n: nat)
    requires p + n <= |b|
    ensures ReadLE(f + b + g, |f| + p, n) == ReadLE(b, p, n)
    decreases n
  {
    if n > 0 { ReadLEInside(f, b, g, p + 1, n - 1); }
  }

  lemma {:induction false} ReadBEInside(f: seq<byte>, b: seq<byte>, g: seq<byte>, p: nat, n: nat)
    requires p + n <= |b|
    ensures ReadBE(f + b + g, |f| + p, n) == ReadBE(b, p, n)
  {
    if n > 0 { ReadBEInside(f, b, g, p, n - 1); }
  }

  // ----- one round of ten symbols, refilled as it goes

  method RefillOne(buf: seq<byte>, p0: int, p1: int, b: seq<nat>, c: seq<nat>, lane: nat, ghost v: View, ghost t: Tans, ghost m: nat)
      returns (in0: int, in1: int, bits: seq<nat>, bitc: seq<nat>)
    requires lane < 2 && |b| == |c| == 2
    requires if lane == 0 then 0 <= p0 && p0 + 4 <= |buf| else 4 <= p1 <= |buf|
    requires Edge(v, lane) <= Pos(t, lane) + 32
    requires LaneReady(v, buf, t, lane, m, b[lane], c[lane], Ptr(v, buf, p0, p1, lane), false)
    ensures p0 <= in0 <= p0 + 3 && p1 - 3 <= in1 <= p1 && (lane == 0 ==> in1 == p1) && (lane == 1 ==> in0 == p0)
    ensures |bits| == |bitc| == 2 && bits[1 - lane] == b[1 - lane] && bitc[1 - lane] == c[1 - lane] && bitc[lane] >= 24
    ensures LaneReady(v, buf, t, lane, 32, bits[lane], bitc[lane], Ptr(v, buf, in0, in1, lane), true)
  {
    hide Forward, Backward, Field, Or, Shl, Low, ReadLE, ReadBE;
    ghost var whole := v.f + buf + v.g;
    in0, in1 := p0, p1;
    var word;
    if lane == 0 {
      ReadForward(whole, |v.f| + p0, 4);
      ReadLEInside(v.f, buf, v.g, p0, 4);
      word := ReadLE(buf, p0, 4);
      in0 := p0 + (31 - c[0]) / 8;
    } else {
      ReadBackward(whole, |v.f| + p1 - 4, 4);
      ReadBEInside(v.f, buf, v.g, p1 - 4, 4);
      word := ReadBE(buf, p1 - 4, 4);
      in1 := p1 - (31 - c[1]) / 8;
    }
    LooseRefill(Top(v, lane), Under(v, buf, lane), Pos(t, lane), b[lane], c[lane], Ptr(v, buf, p0, p1, lane));
    bits := b[lane := Or(b[lane], Low(Shl(word, c[lane]), 32))];
    bitc := c[lane := Or(c[lane], 24)];
  }

  /** Both lanes before a round. */
  ghost predicate BothReady(v: View, buf: seq<byte>, t: Tans, m0: nat, m1: nat, bits: seq<nat>, bitc: seq<nat>, in0: int, in1: int,
                            filled0: bool, filled1: bool)
  {
    && |bits| == |bitc| == 2
    && LaneReady(v, buf, t, 0, m0, bits[0], bitc[0], Ptr(v, buf, in0, in1, 0), filled0)
    && LaneReady(v, buf, t, 1, m1, bits[1], bitc[1], Ptr(v, buf, in0, in1, 1), filled1)
    && Edge(v, 0) <= Pos(t, 0) + 32 && Edge(v, 1) <= Pos(t, 1) + 32
  }

  /** One symbol of a round, after its refill if one is due. */
  method RoundStep(table: seq<Entry>, buf: seq<byte>, to: array<byte>, p: nat, k: nat, p0: int, p1: int,
                   b: seq<nat>, c: seq<nat>, x: seq<nat>, ghost v: View, ghost t: Tans, ghost n: nat,
                   ghost a0: nat, ghost a1: nat)
      returns (in0: int, in1: int, bits: seq<nat>, bitc: seq<nat>, tans: seq<nat>, ghost m0: nat, ghost m1: nat)
    requires TableOk(table) && StatesOk(t.states, |table|) && n % 10 == 0 && k < 10 && p < to.Length
    requires RefillDue(k) ==> if k < 5 then 0 <= p0 && p0 + 4 <= |buf| else 4 <= p1 <= |buf|
    requires |c| == 2 && (!RefillDue(k) ==> c[k / 5] >= L_BITS_MAX) && Feeds(v, buf)
    requires var r := Run(table, v.s0, v.s1, t, n + k);
      x == r.states && to[..p] == r.out && BothReady(v, buf, r, a0, a1, b, c, p0, p1, k > 0, k > 5)
    modifies to
    ensures RefillDue(k) && k < 5 ==> p0 <= in0 <= p0 + 3 && in1 == p1
    ensures RefillDue(k) && k >= 5 ==> in0 == p0 && p1 - 3 <= in1 <= p1
    ensures !RefillDue(k) ==> in0 == p0 && in1 == p1
    ensures |bitc| == 2 && (RefillDue(k) ==> bitc[k / 5] >= 24 - L_BITS_MAX)
    ensures var u := Run(table, v.s0, v.s1, t, n + k + 1);
      tans == u.states && to[..p + 1] == u.out && BothReady(v, buf, u, m0, m1, bits, bitc, in0, in1, true, k >= 5)
    ensures forall j :: 0 <= j < to.Length && j != p ==> to[j] == old(to[j])
  {
    hide LaneOf, Run, TableOk, StatesOk, Pos, Loose, Feeds, Edge, Top, Under, RefillDue;
    in0, in1, bits, bitc, m0, m1 := p0, p1, b, c, a0, a1;
    var lane := k / 5;
    ghost var r, u := Run(table, v.s0, v.s1, t, n + k), Run(table, v.s0, v.s1, t, n + k + 1);
    if RefillDue(k) {
      ghost var m := if lane == 0 then a0 else a1;
      if k > lane * 5 { ReadyAgain(v, buf, r, lane, m, bits[lane], bitc[lane], Ptr(v, buf, in0, in1, lane)); }
      in0, in1, bits, bitc := RefillOne(buf, in0, in1, bits, bitc, lane, v, r, m);
      if lane == 0 { m0 := 32; } else { m1 := 32; }
    } else {
      NotFirst(k);
    }
    ghost var len;
    tans, bits, bitc, len := DecodeOne(table, to, p, k, x, bits, bitc, v.s0, v.s1, t, n, if lane == 0 then m0 else m1, 32,
                                       Ptr(v, buf, in0, in1, lane));
    ReadyKept(v, buf, r, u, 1 - lane, if lane == 0 then m1 else m0, bits[1 - lane], bitc[1 - lane],
              Ptr(v, buf, in0, in1, 1 - lane), if lane == 0 then k > 5 else true);
    if lane == 0 { m0 := m0 - len; } else { m1 := m1 - len; }
  }

  /** A refill comes before the first, third and fifth symbol of a lane. */
  predicate RefillDue(k: nat) {
    k % 5 % 2 == 0
  }

  lemma NotFirst(k: nat)
    requires k < 10 && !RefillDue(k)
    ensures k != 0 && k != 5
  {
  }

  /** Up to ten symbols, stopping at the end of the output. */
  method Round(table: seq<Entry>, buf: seq<byte>, to: array<byte>, start: nat, end: nat, p0: int, p1: int,
               b: seq<nat>, c: seq<nat>, x: seq<nat>, ghost v: View, ghost t: Tans, ghost n: nat, ghost a0: nat, ghost a1: nat)
      returns (k: nat, in0: int, in1: int, bits: seq<nat>, bitc: seq<nat>, tans: seq<nat>, ghost m0: nat, ghost m1: nat)
    requires TableOk(table) && StatesOk(t.states, |table|) && n % 10 == 0
    requires start < end <= to.Length && 0 <= p0 && p0 + 10 <= p1 <= |buf| && Feeds(v, buf)
    requires var r := Run(table, v.s0, v.s1, t, n);
      x == r.states && to[..start] == r.out && BothReady(v, buf, r, a0, a1, b, c, p0, p1, false, false)
    modifies to
    ensures 1 <= k <= 10 && start + k <= end && (k < 10 ==> start + k == end)
    ensures p0 <= in0 <= p0 + 9 && p1 - 9 <= in1 <= p1
    ensures var r := Run(table, v.s0, v.s1, t, n + k);
      tans == r.states && to[..start + k] == r.out && BothReady(v, buf, r, m0, m1, bits, bitc, in0, in1, false, false)
    ensures forall j :: end <= j < to.Length ==> to[j] == old(to[j])
  {
    hide BothReady, Run, TableOk, StatesOk, Feeds, RefillDue, Refills;
    NoRefills();
    BothShape(v, buf, Run(table, v.s0, v.s1, t, n), a0, a1, b, c, p0, p1, false, false);
    k, in0, in1, bits, bitc, tans, m0, m1 := 0, p0, p1, b, c, x, a0, a1;
    while k < 10 && start + k < end
      invariant 0 <= k <= 10 && start + k <= end && |bitc| == 2
      invariant p0 <= in0 <= p0 + 3 * Refills(k) && p1 - 3 * Refills(k - 5) <= in1 <= p1
      invariant k < 10 && !RefillDue(k) ==> bitc[k / 5] >= 24 - L_BITS_MAX
      invariant var r := Run(table, v.s0, v.s1, t, n + k);
        && tans == r.states && to[..start + k] == r.out
        && BothReady(v, buf, r, m0, m1, bits, bitc, in0, in1, k > 0, k > 5)
      invariant forall j :: end <= j < to.Length ==> to[j] == old(to[j])
    {
      RefillPlan(k);
      in0, in1, bits, bitc, tans, m0, m1 :=
        RoundStep(table, buf, to, start + k, k, in0, in1, bits, bitc, tans, v, t, n, m0, m1);
      k := k + 1;
    }
    BothAgain(v, buf, Run(table, v.s0, v.s1, t, n + k), m0, m1, bits, bitc, in0, in1, k > 5);
  }

  lemma BothShape(v: View, buf: seq<byte>, t: Tans, m0: nat, m1: nat, bits: seq<nat>, bitc: seq<nat>, in0: int, in1: int,
                  filled0: bool, filled1: bool)
    requires BothReady(v, buf, t, m0, m1, bits, bitc, in0, in1, filled0, filled1)
    ensures |bits| == |bitc| == 2 && bitc[0] < 32 && bitc[1] < 32
    ensures |v.f| + in0 - bitc[0] / 8 == BytesUsed(t.pos0) && |buf| + |v.g| - in1 - bitc[1] / 8 == BytesUsed(t.pos1)
    ensures 8 * (|v.f| + in0) == t.pos0 + bitc[0] && 8 * (|buf| + |v.g| - in1) == t.pos1 + bitc[1]
  {
    ReadyPosition(v, buf, t, 0, m0, bits[0], bitc[0], Ptr(v, buf, in0, in1, 0), filled0);
    ReadyPosition(v, buf, t, 1, m1, bits[1], bitc[1], Ptr(v, buf, in0, in1, 1), filled1);
  }

  lemma BothAgain(v: View, buf: seq<byte>, t: Tans, m0: nat, m1: nat, bits: seq<nat>, bitc: seq<nat>, in0: int, in1: int,
                  filled1: bool)
    requires Feeds(v, buf) && BothReady(v, buf, t, m0, m1, bits, bitc, in0, in1, true, filled1)
    ensures BothReady(v, buf, t, m0, m1, bits, bitc, in0, in1, false, false)
  {
    hide Pos, Loose, Feeds, Edge, Top, Under;
    ReadyAgain(v, buf, t, 0, m0, bits[0], bitc[0], Ptr(v, buf, in0, in1, 0));
    if filled1 { ReadyAgain(v, buf, t, 1, m1, bits[1], bitc[1], Ptr(v, buf, in0, in1, 1)); }
  }

  /** How many refills precede the first k symbols of a lane. */
  function Refills(k: int): int {
    if k <= 0 then 0 else if k <= 2 then 1 else if k <= 4 then 2 else 3
  }

  lemma RefillPlan(k: nat)
    requires k < 10
    ensures k < 5 ==> Refills(k + 1) == Refills(k) + (if RefillDue(k) then 1 else 0) <= 3 && Refills(k + 1 - 5) == 0
    ensures k >= 5 ==> Refills(k - 4) == Refills(k - 5) + (if RefillDue(k) then 1 else 0) <= 3 && Refills(k) == Refills(k + 1) == 3
    ensures k < 5 ==> Refills(k - 5) == 0
    ensures k < 9 && !RefillDue(k + 1) ==> RefillDue(k) && (k + 1) / 5 == k / 5
  {
  }

  lemma NoRefills()
    ensures Refills(0) == 0 && Refills(-5) == 0 && RefillDue(0)
    ensures forall k {:trigger Refills(k)} :: 0 <= Refills(k) <= 3
  {
  }
}
