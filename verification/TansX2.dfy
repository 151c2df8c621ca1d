/** The five-state decoder as a whole: it decodes what the reference decodes, and succeeds exactly
    when the two streams meet and the last states are bytes. */
module TansX2 {
  import opened Bits
  import opened TansSpec
  import opened TansStream
  import opened Words
  import opened TansDecode
  import opened TansTail
  import opened TansFinish
  import opened TansEnd

  /** Both streams together use up the buffer, and the last states are bytes. */
  ghost predicate Meets(comp: seq<byte>, r: Tans) {
    Used(r) == |comp| && forall k :: 0 <= k < |r.states| ==> r.states[k] < 256
  }

  ghost function Decode(table: seq<Entry>, comp: seq<byte>, t: Tans, n: nat): (r: Tans)
    requires TableOk(table) && StatesOk(t.states, |table|)
    ensures StatesOk(r.states, |table|)
  {
    Run(table, Forward(comp), Backward(comp), t, n)
  }

  ghost function WholeView(comp: seq<byte>): View {
    View([], [], Forward(comp), Backward(comp), 0, 0, 0, 0)
  }

  ghost function Total(v: View, buf: seq<byte>, fin: nat): int {
    |v.f| + |buf| - fin + |v.g|
  }

  /** How the bytes being read, fin of which in the middle belong to neither stream, relate to the
      whole buffer: u is the state when reading them began, c0 symbols from t. */
  ghost predicate Source(table: seq<Entry>, comp: seq<byte>, buf: seq<byte>, fin: nat, v: View, t: Tans, u: Tans, c0: nat)
    requires TableOk(table) && StatesOk(t.states, |table|)
  {
    && StatesOk(u.states, |table|) && c0 % 10 == 0 && fin <= |buf| && Feeds(v, buf)
    && if fin == 0 then buf == comp && v == WholeView(comp) && u == t && c0 == 0
       else
         && |buf| == TAIL_SIZE && |buf| - fin <= 15
         && SeenFrom(comp, Decode(table, comp, t, c0), v, u, |buf| - fin)
  }

  /** With left bytes in the copy, u is the state r. */
  ghost predicate SeenFrom(comp: seq<byte>, r: Tans, v: View, u: Tans, left: nat) {
    && v.b0 + v.b1 + |v.f| + left + |v.g| == |comp| && Shifted(r, u, v.b0, v.b1)
    && Seen(Forward(comp), Backward(comp), v.s0, v.s1, v.b0, v.b1, |v.f| + left, left + |v.g|, |v.f| + left + |v.g|, u)
  }

  lemma SourceRun(table: seq<Entry>, comp: seq<byte>, buf: seq<byte>, fin: nat, v: View, t: Tans, u: Tans, c0: nat, c: nat)
    requires TableOk(table) && StatesOk(t.states, |table|) && Source(table, comp, buf, fin, v, t, u, c0)
    ensures var x, y := Decode(table, comp, t, c0 + c), Run(table, v.s0, v.s1, u, c);
      || (x.states == y.states && x.out == y.out && Used(x) == Used(y) + |comp| - Total(v, buf, fin))
      || (Used(x) > |comp| && Used(y) > Total(v, buf, fin))
  {
    hide Run, TableOk, StatesOk, Seen, Used, Forward, Backward, Feeds;
    if fin != 0 {
      var r, left := Decode(table, comp, t, c0), |buf| - fin;
      var b0, b1 := v.b0, v.b1;
      RunAdd(table, Forward(comp), Backward(comp), t, c0, c);
      SeenRun(table, Forward(comp), Backward(comp), v.s0, v.s1, b0, b1, |v.f| + left, left + |v.g|, |v.f| + left + |v.g|, r, u, c);
      var x, y := Run(table, Forward(comp), Backward(comp), r, c), Run(table, v.s0, v.s1, u, c);
      if Shifted(x, y, b0, b1) { ShiftedUse(x, y, b0, b1); }
    }
  }

  /** More bytes begun than there are is final. */
  lemma Crossed(table: seq<Entry>, comp: seq<byte>, t: Tans, c: nat, n: nat)
    requires TableOk(table) && StatesOk(t.states, |table|) && c <= n && Used(Decode(table, comp, t, c)) > |comp|
    ensures !Meets(comp, Decode(table, comp, t, n))
  {
    hide Run, TableOk, StatesOk, Used, Forward, Backward;
    RunGrows(table, Forward(comp), Backward(comp), t, c, n);
  }

  lemma WholeSource(table: seq<Entry>, comp: seq<byte>, t: Tans)
    requires TableOk(table) && StatesOk(t.states, |table|)
    ensures Source(table, comp, comp, 0, WholeView(comp), t, t, 0)
    ensures Run(table, Forward(comp), Backward(comp), t, 0) == t
  {
    assert [] + comp + [] == comp;
  }

  /** The lanes of the whole buffer are ready. */
  lemma WholeReady(comp: seq<byte>, t: Tans, m0: nat, m1: nat, bits: seq<nat>, bitc: seq<nat>, in0: nat, in1: nat)
    requires in0 <= |comp| && in1 <= |comp|
    requires LanesAt(Forward(comp), Backward(comp), t, m0, m1, 32, bits, bitc, in0, |comp| - in1) && bitc[0] < 32 && bitc[1] < 32
    ensures BothReady(WholeView(comp), comp, t, m0, m1, bits, bitc, in0, in1, false, false)
  {
    hide Forward, Backward, Field, Or, Low, Shl, Covers;
    var v := WholeView(comp);
    assert [] + comp + [] == comp;
    assert Feeds(v, comp) by { Itself(Forward(comp)); Itself(Backward(comp)); }
    ReadyAgain(v, comp, t, 0, m0, bits[0], bitc[0], in0);
    ReadyAgain(v, comp, t, 1, m1, bits[1], bitc[1], |comp| - in1);
  }

  lemma Itself(s: seq<bool>)
    ensures Covers(s, s, 0)
  {
  }

  /** From the whole buffer to the copy. */
  lemma SwitchBoth(table: seq<Entry>, comp: seq<byte>, t: Tans, c0: nat, m0: nat, m1: nat, bits: seq<nat>, bitc: seq<nat>,
                   in0: int, in1: int, p0: nat, p1: nat, tail: seq<byte>) returns (v: View, u: Tans)
    requires TableOk(table) && StatesOk(t.states, |table|) && c0 % 10 == 0 && |bits| == |bitc| == 2
    requires BothReady(WholeView(comp), comp, Decode(table, comp, t, c0), m0, m1, bits, bitc, in0, in1, false, false)
    requires p0 == in0 - bitc[0] / 8 && p1 == in1 + bitc[1] / 8
    requires p0 <= p1 <= |comp| && p1 - p0 <= 15 && |tail| == TAIL_SIZE
    requires tail[..p1 - p0] == comp[p0..p1] == tail[TAIL_SIZE - (p1 - p0)..]
    ensures Source(table, comp, tail, TAIL_SIZE - (p1 - p0), v, t, u, c0)
    ensures BothReady(v, tail, u, m0, m1, bits, [bitc[0] % 8, bitc[1] % 8], 0, TAIL_SIZE, false, false)
    ensures u.out == Decode(table, comp, t, c0).out && u.states == Decode(table, comp, t, c0).states
  {
    hide Run, Loose, Covers, Agree, Used, TableOk, StatesOk, Forward, Backward;
    var r := Decode(table, comp, t, c0);
    var c, d := bitc[0] % 8, bitc[1] % 8;
    WholeLoose(comp, r, m0, m1, bits, bitc, in0, in1);
    GiveBack(Forward(comp), r.pos0, bits[0], bitc[0], in0);
    GiveBack(Backward(comp), r.pos1, bits[1], bitc[1], |comp| - in1);
    LoosePosition(Forward(comp), r.pos0, bits[0], c, p0);
    LoosePosition(Backward(comp), r.pos1, bits[1], d, |comp| - p1);
    var f, g := Lead(comp, p0, c), Trail(comp, p1, d);
    LeadAgrees(comp, p0, p1, c, tail, g);
    TrailAgrees(comp, p0, p1, d, tail, f);
    var whole := f + tail + g;
    var left := p1 - p0;
    var s0 := LaneSwitch(Forward(comp), Forward(whole), r.pos0, bits[0], c, p0, |f|, |f| + left);
    var s1 := LaneSwitch(Backward(comp), Backward(whole), r.pos1, bits[1], d, |comp| - p1, |g|, left + |g|);
    u := Tans(r.states, 8 * |f| - c, 8 * |g| - d, r.out);
    v := View(f, g, s0, s1, u.pos0 + 32, u.pos1 + 32, p0 - |f|, |comp| - p1 - |g|);
    assert SeenFrom(comp, r, v, u, left);
  }

  lemma WholeLoose(comp: seq<byte>, t: Tans, m0: nat, m1: nat, bits: seq<nat>, bitc: seq<nat>, in0: int, in1: int)
    requires BothReady(WholeView(comp), comp, t, m0, m1, bits, bitc, in0, in1, false, false)
    ensures |bits| == |bitc| == 2 && bitc[0] < 32 && bitc[1] < 32 && in0 >= 0 && in1 <= |comp|
    ensures Loose(Forward(comp), Forward(comp), t.pos0, bits[0], bitc[0], in0)
    ensures Loose(Backward(comp), Backward(comp), t.pos1, bits[1], bitc[1], |comp| - in1)
  {
    hide Field, Or, Low, Shl, Forward, Backward;
    assert [] + comp + [] == comp;
  }

  lemma LoosePosition(s: seq<bool>, pos: nat, bits: nat, bitc: nat, ptr: int)
    requires Loose(s, s, pos, bits, bitc, ptr)
    ensures 8 * ptr == pos + bitc
  {
  }

  // ----- the end of the output

  /** The copy is read up to where the streams must have crossed. */
  lemma TailSpent(v: View, buf: seq<byte>, fin: nat, r: Tans, m0: nat, m1: nat, bits: seq<nat>, bitc: seq<nat>, in0: int, in1: int)
    requires BothReady(v, buf, r, m0, m1, bits, bitc, in0, in1, false, false)
    requires |buf| == TAIL_SIZE && |buf| - fin <= 15 && in1 - in0 < 10
    ensures Used(r) > Total(v, buf, fin)
  {
    hide BothReady;
    BothShape(v, buf, r, m0, m1, bits, bitc, in0, in1, false, false);
  }

  lemma Spent(table: seq<Entry>, comp: seq<byte>, buf: seq<byte>, fin: nat, v: View, t: Tans, u: Tans, c0: nat, c: nat, n: nat)
    requires TableOk(table) && StatesOk(t.states, |table|) && Source(table, comp, buf, fin, v, t, u, c0) && c0 + c <= n
    requires Used(Run(table, v.s0, v.s1, u, c)) > Total(v, buf, fin)
    ensures !Meets(comp, Decode(table, comp, t, n))
  {
    hide Run, TableOk, StatesOk, Used, Feeds, SeenFrom, Forward, Backward, Meets;
    SourceRun(table, comp, buf, fin, v, t, u, c0, c);
    Crossed(table, comp, t, c0 + c, n);
  }

  lemma OrBytes(x: nat, y: nat)
    ensures Or(x, y) < 256 <==> x < 256 && y < 256
  {
    OrAtLeast(x, y);
    Pow2Values();
    if x < 256 && y < 256 { OrBound(x, y, 8); }
  }

  function OrAll(s: seq<nat>): nat
    requires |s| == 5
  {
    Or(Or(Or(Or(s[0], s[1]), s[2]), s[3]), s[4])
  }

  lemma AllBytes(s: seq<nat>)
    requires |s| == 5
    ensures OrAll(s) < 256 <==> forall k :: 0 <= k < 5 ==> s[k] < 256
  {
    hide Or;
    OrBytes(s[0], s[1]);
    OrBytes(Or(s[0], s[1]), s[2]);
    OrBytes(Or(Or(s[0], s[1]), s[2]), s[3]);
    OrBytes(Or(Or(Or(s[0], s[1]), s[2]), s[3]), s[4]);
  }

  /** What the loop of the careful decoder keeps. */
  ghost predicate Decoding(table: seq<Entry>, comp: seq<byte>, out: seq<byte>, buf: seq<byte>, fin: nat, v: View, t: Tans, u: Tans,
                           c0: nat, c: nat, m0: nat, m1: nat, bits: seq<nat>, bitc: seq<nat>, tans: seq<nat>, in0: int, in1: int)
    requires TableOk(table) && StatesOk(t.states, |table|)
  {
    && Source(table, comp, buf, fin, v, t, u, c0)
    && var r := Run(table, v.s0, v.s1, u, c);
    && BothReady(v, buf, r, m0, m1, bits, bitc, in0, in1, false, false)
    && tans == r.states && out == r.out && 0 <= in0 <= |buf| && 0 <= in1 <= |buf|
  }

  /** The bytes between the two pointers once those that are not begun are given back. */
  function Gap(bitc: seq<nat>, in0: int, in1: int): int
    requires |bitc| == 2
  {
    (in1 + bitc[1] / 8) - (in0 - bitc[0] / 8)
  }

  /** Both ends meet if and only if what is left of the buffer being read belongs to neither stream. */
  lemma MeetsHere(table: seq<Entry>, comp: seq<byte>, out: seq<byte>, buf: seq<byte>, fin: nat, v: View, t: Tans, u: Tans,
                  c0: nat, c: nat, m0: nat, m1: nat, bits: seq<nat>, bitc: seq<nat>, tans: seq<nat>, in0: int, in1: int)
    requires TableOk(table) && StatesOk(t.states, |table|)
    requires Decoding(table, comp, out, buf, fin, v, t, u, c0, c, m0, m1, bits, bitc, tans, in0, in1)
    ensures |bitc| == 2 && |tans| == 5
    ensures var r := Decode(table, comp, t, c0 + c);
      && (Used(r) == |comp| <==> Gap(bitc, in0, in1) == fin)
      && (Gap(bitc, in0, in1) == fin ==> tans == r.states && out == r.out)
  {
    hide Run, TableOk, BothReady, Feeds, SeenFrom, Forward, Backward;
    SourceRun(table, comp, buf, fin, v, t, u, c0, c);
    BothShape(v, buf, Run(table, v.s0, v.s1, u, c), m0, m1, bits, bitc, in0, in1, false, false);
  }

  lemma StartDecoding(table: seq<Entry>, comp: seq<byte>, out: seq<byte>, t: Tans, m0: nat, m1: nat, bits: seq<nat>,
                      bitc: seq<nat>, tans: seq<nat>, in0: int, in1: int)
    requires TableOk(table) && StatesOk(t.states, |table|) && tans == t.states && out == t.out
    requires 0 <= in0 <= |comp| && 0 <= in1 <= |comp|
    requires LanesAt(Forward(comp), Backward(comp), t, m0, m1, 32, bits, bitc, in0, |comp| - in1) && bitc[0] < 8 && bitc[1] < 8
    ensures Decoding(table, comp, out, comp, 0, WholeView(comp), t, t, 0, 0, m0, m1, bits, bitc, tans, in0, in1)
  {
    hide Run, BothReady, Source, LanesAt, Forward, Backward, TableOk, StatesOk;
    WholeSource(table, comp, t);
    WholeReady(comp, t, m0, m1, bits, bitc, in0, in1);
  }

  /** One round keeps it. */
  method DecodeRound(table: seq<Entry>, comp: seq<byte>, buf: seq<byte>, fin: nat, to: array<byte>, p: nat, end: nat, p0: int, p1: int,
                     b: seq<nat>, x: seq<nat>, y: seq<nat>, ghost v: View, ghost t: Tans, ghost u: Tans, ghost c0: nat, ghost c: nat,
                     ghost a0: nat, ghost a1: nat)
      returns (k: nat, in0: int, in1: int, bits: seq<nat>, bitc: seq<nat>, tans: seq<nat>, ghost m0: nat, ghost m1: nat)
    requires TableOk(table) && StatesOk(t.states, |table|) && p < end <= to.Length && c % 10 == 0 && p0 + 10 <= p1
    requires Decoding(table, comp, to[..p], buf, fin, v, t, u, c0, c, a0, a1, b, x, y, p0, p1)
    modifies to
    ensures 1 <= k <= 10 && p + k <= end && (k < 10 ==> p + k == end)
    ensures Decoding(table, comp, to[..p + k], buf, fin, v, t, u, c0, c + k, m0, m1, bits, bitc, tans, in0, in1)
    ensures forall j :: end <= j < to.Length ==> to[j] == old(to[j])
  {
    hide Run, BothReady, Source, TableOk, StatesOk, Feeds;
    SourceStates(table, comp, buf, fin, v, t, u, c0);
    k, in0, in1, bits, bitc, tans, m0, m1 := Round(table, buf, to, p, end, p0, p1, b, x, y, v, u, c, a0, a1);
  }

  /** Few bytes are left for the first time: goes over to the copy, unless the streams have crossed. */
  method GoToTail(table: seq<Entry>, comp: seq<byte>, stack: seq<byte>, p0: int, p1: int, bits: seq<nat>, c: seq<nat>, tans: seq<nat>,
                  ghost out: seq<byte>, ghost t: Tans, ghost n: nat, ghost n1: nat, ghost m0: nat, ghost m1: nat)
      returns (ok: bool, buf: seq<byte>, fin: nat, in0: int, in1: int, bitc: seq<nat>, ghost v: View, ghost u: Tans)
    requires TableOk(table) && StatesOk(t.states, |table|) && |stack| == TAIL_SIZE && n % 10 == 0 && n <= n1
    requires Decoding(table, comp, out, comp, 0, WholeView(comp), t, t, 0, n, m0, m1, bits, c, tans, p0, p1)
    requires p1 - p0 < 10
    ensures !ok ==> !Meets(comp, Decode(table, comp, t, n1))
    ensures ok ==> Decoding(table, comp, out, buf, fin, v, t, u, n, 0, m0, m1, bits, bitc, tans, in0, in1)
    ensures ok ==> fin > 0 && in0 + 10 <= in1
  {
    hide Run, BothReady, Feeds, Forward, Backward, Meets, SeenFrom, TableOk, StatesOk;
    ghost var r := Decode(table, comp, t, n);
    BothShape(WholeView(comp), comp, r, m0, m1, bits, c, p0, p1, false, false);
    in0, in1 := p0 - c[0] / 8, p1 + c[1] / 8;
    bitc := [c[0] % 8, c[1] % 8];
    v, u := WholeView(comp), t;
    buf, fin, ok := comp, 0, true;
    if in1 - in0 < 0 {
      Crossed(table, comp, t, n, n1);
      ok := false;
    } else {
      // fewer than 16 bytes: both sanity checks on the size of the copy succeed
      buf := TailBuffer(comp, in0, in1, stack);
      fin := TAIL_SIZE - (in1 - in0);
      v, u := SwitchBoth(table, comp, t, n, m0, m1, bits, c, p0, p1, in0, in1, buf);
      RunNone(table, v.s0, v.s1, u) by { SourceStates(table, comp, buf, fin, v, t, u, n); }
      in0, in1 := 0, TAIL_SIZE;
    }
  }

  lemma SourceStates(table: seq<Entry>, comp: seq<byte>, buf: seq<byte>, fin: nat, v: View, t: Tans, u: Tans, c0: nat)
    requires TableOk(table) && StatesOk(t.states, |table|) && Source(table, comp, buf, fin, v, t, u, c0)
    ensures StatesOk(u.states, |table|) && Feeds(v, buf) && c0 % 10 == 0
  {
  }

  /** Decodes up to the end of the output, unless the streams cross before. */
  method FinishLoop(s: KrakenTansState, stack: seq<byte>, ghost t: Tans, ghost a0: nat, ghost a1: nat)
      returns (ok: bool, fin: nat, bitc: seq<nat>, tans: seq<nat>, in0: int, in1: int)
    requires s.At(t, a0, a1) && s.decodeend <= s.to.Length && |stack| == TAIL_SIZE
    modifies s.to
    ensures var r := Decode(s.table, s.comp, t, s.decodeend - s.decodeptr);
      && (!ok ==> !Meets(s.comp, r))
      && (ok ==> |bitc| == 2 && |tans| == 5)
      && (ok ==> (Used(r) == |s.comp| <==> Gap(bitc, in0, in1) == fin))
      && (ok && Gap(bitc, in0, in1) == fin ==> tans == r.states && s.to[..s.decodeend] == r.out)
  {
    hide Run, Decoding, LanesAt, Forward, Backward, Meets, TableOk, StatesOk, Used, Gap;
    var table, comp, to, end := s.table, s.comp, s.to, s.decodeend;
    ghost var n := end - s.decodeptr;
    var bits, p := s.bits, s.decodeptr;
    in0, in1, bitc, tans, fin := s.bitp[0], s.bitp[1], s.bitc, s.tansState, 0;
    ghost var m0, m1, v, u, c0, c: nat := a0, a1, WholeView(comp), t, 0, 0;
    if in1 < in0 {
      CrossedAtOnce(table, comp, t, n, bits, bitc, in0, in1, m0, m1);
      ok := false;
      return;
    }
    StartDecoding(table, comp, to[..p], t, m0, m1, bits, bitc, tans, in0, in1);
    var buf := comp;
    while p < end
      invariant s.decodeptr + c0 + c == p <= end && (p < end ==> c % 10 == 0)
      invariant Decoding(table, comp, to[..p], buf, fin, v, t, u, c0, c, m0, m1, bits, bitc, tans, in0, in1)
      invariant fin == 0 ==> buf == comp && v == WholeView(comp) && u == t && c0 == 0
      decreases end - p
    {
      if in1 - in0 < 10 {
        if fin != 0 {
          CopySpent(table, comp, to[..p], buf, fin, v, t, u, c0, c, m0, m1, bits, bitc, tans, in0, in1, n);
          ok := false;
          return;
        }
        c0, c := c, 0;
        ok, buf, fin, in0, in1, bitc, v, u := GoToTail(table, comp, stack, in0, in1, bits, bitc, tans, to[..p], t, c0, n, m0, m1);
        if !ok { return; }
      }
      var k;
      k, in0, in1, bits, bitc, tans, m0, m1 :=
        DecodeRound(table, comp, buf, fin, to, p, end, in0, in1, bits, bitc, tans, v, t, u, c0, c, m0, m1);
      p := p + k;
      c := c + k;
    }
    MeetsHere(table, comp, to[..p], buf, fin, v, t, u, c0, c, m0, m1, bits, bitc, tans, in0, in1);
    ok := true;
  }

  /** Decodes the rest of the output. It succeeds exactly when the reference decoder, reading the same
      bytes one field at a time, uses them up and ends in five bytes; these follow the output. */
  method Finish(s: KrakenTansState, stack: seq<byte>, ghost t: Tans, ghost a0: nat, ghost a1: nat) returns (ok: bool)
    requires s.At(t, a0, a1) && s.decodeend + 5 <= s.to.Length && |stack| == TAIL_SIZE
    modifies s.to
    ensures ok <==> Meets(s.comp, Decode(s.table, s.comp, t, s.decodeend - s.decodeptr))
    ensures ok ==> var r := Decode(s.table, s.comp, t, s.decodeend - s.decodeptr);
      s.to[..s.decodeend] == r.out && s.to[s.decodeend..s.decodeend + 5] == r.states
  {
    hide Run, LanesAt, Forward, Backward, Meets, TableOk, Used;
    ghost var r := Decode(s.table, s.comp, t, s.decodeend - s.decodeptr);
    MeetsIs(s.comp, r);
    var fin, bitc, tans, in0, in1;
    ok, fin, bitc, tans, in0, in1 := FinishLoop(s, stack, t, a0, a1);
    if !ok { return; }
    in0, in1 := in0 - bitc[0] / 8, in1 + bitc[1] / 8;
    if in1 - in0 != fin { return false; }
    AllBytes(tans);
    if OrAll(tans) > 255 { return false; }
    WriteStates(s.to, s.decodeend, tans);
  }

  lemma MeetsIs(comp: seq<byte>, r: Tans)
    ensures Meets(comp, r) <==> Used(r) == |comp| && forall k :: 0 <= k < |r.states| ==> r.states[k] < 256
  {
  }

  /** The final states follow the output. */
  method WriteStates(to: array<byte>, end: nat, tans: seq<nat>)
    requires end + 5 <= to.Length && |tans| == 5 && forall k :: 0 <= k < 5 ==> tans[k] < 256
    modifies to
    ensures to[..end] == old(to[..end]) && to[end..end + 5] == tans
  {
    to[end], to[end + 1], to[end + 2], to[end + 3], to[end + 4] := tans[0], tans[1], tans[2], tans[3], tans[4];
  }

  lemma CrossedAtOnce(table: seq<Entry>, comp: seq<byte>, t: Tans, n: nat, bits: seq<nat>, bitc: seq<nat>, in0: int, in1: int,
                      m0: nat, m1: nat)
    requires TableOk(table) && StatesOk(t.states, |table|) && 0 <= in0 && in1 <= |comp| && in1 < in0
    requires LanesAt(Forward(comp), Backward(comp), t, m0, m1, 32, bits, bitc, in0, |comp| - in1) && bitc[0] < 8 && bitc[1] < 8
    ensures !Meets(comp, Decode(table, comp, t, n))
  {
    hide Run, LanesAt, TableOk, StatesOk, Forward, Backward, Meets;
    LanesShape(Forward(comp), Backward(comp), t, m0, m1, 32, bits, bitc, in0, |comp| - in1);
    RunNone(table, Forward(comp), Backward(comp), t);
    Crossed(table, comp, t, 0, n);
  }

  lemma CopySpent(table: seq<Entry>, comp: seq<byte>, out: seq<byte>, buf: seq<byte>, fin: nat, v: View, t: Tans, u: Tans,
                  c0: nat, c: nat, m0: nat, m1: nat, bits: seq<nat>, bitc: seq<nat>, tans: seq<nat>, in0: int, in1: int, n: nat)
    requires TableOk(table) && StatesOk(t.states, |table|) && c0 + c <= n && fin != 0 && in1 - in0 < 10
    requires Decoding(table, comp, out, buf, fin, v, t, u, c0, c, m0, m1, bits, bitc, tans, in0, in1)
    ensures !Meets(comp, Decode(table, comp, t, n))
  {
    hide Run, BothReady, TableOk, StatesOk, Used, Feeds, SeenFrom, Meets;
    TailSpent(v, buf, fin, Run(table, v.s0, v.s1, u, c), m0, m1, bits, bitc, in0, in1);
    Spent(table, comp, buf, fin, v, t, u, c0, c, n);
  }

  // ----- the whole decoder

  /** Bulk and careful decoding together. */
  method DecodeTans(s: KrakenTansState, stack: seq<byte>, ghost t: Tans, ghost a0: nat, ghost a1: nat) returns (ok: bool)
    requires s.At(t, a0, a1) && s.decodeend + 5 <= s.to.Length && |stack| == TAIL_SIZE
    modifies s, s.to
    ensures ok <==> Meets(s.comp, Decode(s.table, s.comp, t, old(s.decodeend - s.decodeptr)))
    ensures ok ==> var end, r := old(s.decodeend), Decode(s.table, s.comp, t, old(s.decodeend - s.decodeptr));
      s.to[..end] == r.out && s.to[end..end + 5] == r.states
  {
    hide Run, LanesAt, Forward, Backward, Meets, TableOk, StatesOk;
    ghost var n1 := s.decodeend - s.decodeptr;
    var n;
    ghost var m0, m1;
    n, m0, m1 := s.DecodeBulk(t, a0, a1);
    RunAdd(s.table, Forward(s.comp), Backward(s.comp), t, n, n1 - n);
    ok := Finish(s, stack, Decode(s.table, s.comp, t, n), m0, m1);
  }
}
