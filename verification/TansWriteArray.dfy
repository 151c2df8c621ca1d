/** Writing a whole array: header, counts and both streams, read back as the symbols. */
module TansWriteArray {
  import opened Bits
  import opened MsbFirst
  import opened MsbRegister
  import opened Words
  import opened TansSpec
  import opened TansTable
  import opened TansCounts
  import opened TansDecode
  import opened TansTail
  import opened TansX2
  import opened TansArray
  import opened TansEncode
  import opened TansWriter

  // ----- bits in bytes

  /** Eight bits to a byte, the first one lowest; zeros fill the last byte. */
  function Packed(w: seq<bool>): (b: seq<byte>)
    ensures |b| == (|w| + 7) / 8
    decreases |w|
  {
    if w == [] then []
    else if |w| < 8 then ShortByte(w); [FromBits(w)]
    else ShortByte(w[..8]); [FromBits(w[..8])] + Packed(w[8..])
  }

  lemma ShortByte(w: seq<bool>)
    requires |w| <= 8
    ensures FromBits(w) < 256
  {
    ToFromBits(w);
    Pow2Mono(|w|, 8);
    Pow2Values();
  }

  lemma {:induction false} PackedBits(w: seq<bool>)
    ensures w <= ByteBits(Packed(w))
    decreases |w|
  {
    hide ToBits, FromBits;
    if w == [] {
    } else if |w| < 8 {
      ByteBitsOne(Packed(w)[0]);
      Padded(w, 8);
    } else {
      PackedBits(w[8..]);
      ByteBitsOne(Packed(w)[0]);
      ToFromBits(w[..8]);
      ByteBitsAppend([Packed(w)[0]], Packed(w[8..]));
      assert w == w[..8] + w[8..];
    }
  }

  lemma Padded(w: seq<bool>, n: nat)
    requires |w| <= n
    ensures w <= ToBits(FromBits(w), n)
  {
    ToFromBits(w);
    ToBitsSplit(FromBits(w), |w|, n - |w|);
  }

  /** The first one highest. */
  function MsbPacked(w: seq<bool>): (b: seq<byte>)
    ensures |b| == (|w| + 7) / 8
    decreases |w|
  {
    if w == [] then []
    else if |w| < 8 then MsbByte(w); [Value(w + Zeros(8 - |w|))]
    else MsbByte(w[..8]); [Value(w[..8])] + MsbPacked(w[8..])
  }

  lemma MsbByte(w: seq<bool>)
    requires |w| <= 8
    ensures Value(w) < 256 && Value(w + Zeros(8 - |w|)) < 256
  {
    hide Value;
    ValueBound(w);
    ValueBound(w + Zeros(8 - |w|));
    Pow2Mono(|w|, 8);
    Pow2Values();
  }

  lemma {:induction false} MsbAppend(a: seq<byte>, b: seq<byte>)
    ensures MsbBits(a + b) == MsbBits(a) + MsbBits(b)
    decreases |b|
  {
    hide BitsOf;
    if b == [] {
      assert a + b == a;
      assert MsbBits(a) + [] == MsbBits(a);
    } else {
      var n := |b| - 1;
      MsbAppend(a, b[..n]);
      assert b == b[..n] + [b[n]];
      assert a + b == (a + b[..n]) + [b[n]];
      MsbSnoc(a + b[..n], b[n]);
      MsbSnoc(b[..n], b[n]);
      MsbFirst.Regroup(MsbBits(a), MsbBits(b[..n]), BitsOf(b[n], 8));
    }
  }

  lemma {:induction false} MsbPackedBits(w: seq<bool>)
    ensures w <= MsbBits(MsbPacked(w))
    decreases |w|
  {
    hide Value, BitsOf, MsbBits;
    NoMsbBits();
    if w == [] {
    } else if |w| < 8 {
      var v := w + Zeros(8 - |w|);
      BitsOfValue(v);
      OneMsb(MsbPacked(w)[0]);
    } else {
      MsbPackedBits(w[8..]);
      BitsOfValue(w[..8]);
      OneMsb(MsbPacked(w)[0]);
      MsbAppend([MsbPacked(w)[0]], MsbPacked(w[8..]));
      assert w == w[..8] + w[8..];
    }
  }

  lemma NoMsbBits()
    ensures MsbBits([]) == []
  {
  }

  lemma OneMsb(b: byte)
    ensures MsbBits([b]) == BitsOf(b, 8)
  {
    NoMsbBits();
    MsbSnoc([], b);
    assert [] + [b] == [b];
    assert [] + BitsOf(b, 8) == BitsOf(b, 8);
  }

  // ----- the streams

  /** One stream with the first, third and fifth state in front. */
  function ForwardBits(lbits: nat, c: Coded): seq<bool>
    requires |c.states| == 5
  {
    ToBits(c.states[0], lbits) + (ToBits(c.states[2], lbits) + (ToBits(c.states[4], lbits) + c.f))
  }

  function BackwardBits(lbits: nat, c: Coded): seq<bool>
    requires |c.states| == 5
  {
    ToBits(c.states[1], lbits) + (ToBits(c.states[3], lbits) + c.b)
  }

  /** The other one lies behind it, backwards from the end. */
  function StreamBytes(lbits: nat, c: Coded): seq<byte>
    requires |c.states| == 5
  {
    Packed(ForwardBits(lbits, c)) + Rev(Packed(BackwardBits(lbits, c)))
  }

  lemma RevTwice<T>(a: seq<T>, b: seq<T>)
    ensures Rev(a + Rev(b)) == b + Rev(a)
  {
  }

  /** Read from either end, the bytes begin with the stream of that end. */
  lemma StreamsBegin(lbits: nat, c: Coded)
    requires |c.states| == 5
    ensures ForwardBits(lbits, c) <= Forward(StreamBytes(lbits, c)) && BackwardBits(lbits, c) <= Backward(StreamBytes(lbits, c))
  {
    hide ForwardBits, BackwardBits, Packed, ByteBits;
    var f, b := ForwardBits(lbits, c), BackwardBits(lbits, c);
    PackedBits(f);
    PackedBits(b);
    ByteBitsAppend(Packed(f), Rev(Packed(b)));
    RevTwice(Packed(f), Packed(b));
    ByteBitsAppend(Packed(b), Rev(Packed(f)));
  }

  lemma StateThere(s: seq<bool>, p: nat, x: nat, n: nat, rest: seq<bool>)
    requires x < Pow2(n) && p <= |s| && ToBits(x, n) + rest <= s[p..]
    ensures p + n <= |s| && Field(s, p, n) == x && rest <= s[p + n..]
  {
    hide Pow2, ToBits;
    var w := ToBits(x, n);
    assert s[p..][..n] == (w + rest)[..n] == w;
    assert s[p..][n..] == s[p + n..];
    assert s[p..][..|w + rest|] == w + rest;
    assert s[p..][n..][..|rest|] == (w + rest)[n..] == rest;
    WindowInside(s, p, n);
    assert s[p..p + n] == s[p..][..n];
    FromToBits(x, n);
    LowSmall(x, n);
  }

  /** The five states, and the streams behind them. */
  lemma OpeningThere(lbits: nat, c: Coded)
    requires StatesOk(c.states, Pow2(lbits))
    ensures var s := StreamBytes(lbits, c);
      && Opening(s, lbits) == Tans(c.states, 3 * lbits, 2 * lbits, [])
      && 3 * lbits <= |Forward(s)| && c.f <= Forward(s)[3 * lbits..]
      && 2 * lbits <= |Backward(s)| && c.b <= Backward(s)[2 * lbits..]
  {
    hide Pow2, ToBits, Field, StreamBytes, Forward, Backward;
    var s := StreamBytes(lbits, c);
    var f, b, q := Forward(s), Backward(s), c.states;
    StreamsBegin(lbits, c);
    assert f[0..] == f && b[0..] == b;
    StateThere(f, 0, q[0], lbits, ToBits(q[2], lbits) + (ToBits(q[4], lbits) + c.f));
    StateThere(f, lbits, q[2], lbits, ToBits(q[4], lbits) + c.f);
    StateThere(f, 2 * lbits, q[4], lbits, c.f);
    StateThere(b, 0, q[1], lbits, ToBits(q[3], lbits) + c.b);
    StateThere(b, lbits, q[3], lbits, c.b);
    assert q == [q[0], q[1], q[2], q[3], q[4]];
  }

  lemma {:induction false} StepsMoveOn(table: seq<Entry>, s0: seq<bool>, s1: seq<bool>, t: Tans, i: nat, n: nat)
    requires TableOk(table) && StatesOk(t.states, |table|) && i <= n
    ensures var r := Steps(table, s0, s1, t, i, n); t.pos0 <= r.pos0 && t.pos1 <= r.pos1
    decreases n - i
  {
    hide TableOk, StatesOk, Step;
    if i < n {
      StepMovesOn(table, s0, s1, t, i);
      StepsMoveOn(table, s0, s1, Step(table, s0, s1, t, i), i + 1, n);
    }
  }

  lemma StepMovesOn(table: seq<Entry>, s0: seq<bool>, s1: seq<bool>, t: Tans, i: nat)
    requires TableOk(table) && StatesOk(t.states, |table|)
    ensures var r := Step(table, s0, s1, t, i); t.pos0 <= r.pos0 && t.pos1 <= r.pos1
  {
    hide TableOk, Field;
  }

  /** What lies behind the streams does not matter. */
  lemma {:induction false} StepsBefore(table: seq<Entry>, s0: seq<bool>, s1: seq<bool>, a0: seq<bool>, a1: seq<bool>,
                                       t: Tans, i: nat, n: nat)
    requires TableOk(table) && StatesOk(t.states, |table|) && i <= n
    requires var r := Steps(table, s0, s1, t, i, n); r.pos0 <= |s0| && r.pos1 <= |s1|
    ensures Steps(table, s0 + a0, s1 + a1, t, i, n) == Steps(table, s0, s1, t, i, n)
    decreases n - i
  {
    hide TableOk, StatesOk, Step;
    if i < n {
      StepsMoveOn(table, s0, s1, Step(table, s0, s1, t, i), i + 1, n);
      StepBefore(table, s0, s1, a0, a1, t, i);
      StepsBefore(table, s0, s1, a0, a1, Step(table, s0, s1, t, i), i + 1, n);
    }
  }

  lemma StepBefore(table: seq<Entry>, s0: seq<bool>, s1: seq<bool>, a0: seq<bool>, a1: seq<bool>, t: Tans, i: nat)
    requires TableOk(table) && StatesOk(t.states, |table|)
    requires var r := Step(table, s0, s1, t, i); r.pos0 <= |s0| && r.pos1 <= |s1|
    ensures Step(table, s0 + a0, s1 + a1, t, i) == Step(table, s0, s1, t, i)
  {
    hide Field, TableOk;
    var e := table[t.states[i % 5]];
    if i % 10 < 5 { FieldPrefix(s0, a0, t.pos0, e.len); } else { FieldPrefix(s1, a1, t.pos1, e.len); }
  }

  /** The streams are decoded to the symbols, and end where both have been used up. */
  lemma StreamsDecode(lbits: nat, ls: seq<SymCount>, singles: seq<nat>, msg: seq<nat>, final: seq<nat>)
    requires CountsOk(lbits, ls, singles) && Message(ls, singles, msg) && StatesOk(final, Pow2(lbits))
    ensures var c := Coding(lbits, ls, singles, msg, final, 0);
      var s, table := StreamBytes(lbits, c), Table(lbits, ls, singles);
      && TableOk(table) && StatesOk(Opening(s, lbits).states, |table|)
      && Decode(table, s, Opening(s, lbits), |msg|)
        == Tans(final, 3 * lbits + |c.f|, 2 * lbits + |c.b|, Symbols(ls, singles, msg))
  {
    hide CountsOk, Pow2, TableOk, Step, Symbols, Coding, Opening, StreamBytes, Forward, Backward;
    var c := Coding(lbits, ls, singles, msg, final, 0);
    var s, table := StreamBytes(lbits, c), Table(lbits, ls, singles);
    OpeningThere(lbits, c);
    CodingDecodes(lbits, ls, singles, msg, final, [], 0);
    var f, b := Forward(s), Backward(s);
    var b0, b1, a0, a1 := f[..3 * lbits], b[..2 * lbits], f[3 * lbits + |c.f|..], b[2 * lbits + |c.b|..];
    Parts(f, 3 * lbits, c.f);
    Parts(b, 2 * lbits, c.b);
    var t := Tans(c.states, 0, 0, []);
    StepsBefore(table, c.f, c.b, a0, a1, t, 0, |msg|);
    StepsBehind(table, b0, b1, c.f + a0, c.b + a1, t, 0, |msg|);
    RunNone(table, f, b, Opening(s, lbits));
    RunIsSteps(table, f, b, Opening(s, lbits), 0, |msg|);
    assert Symbols(ls, singles, msg)[0..] == Symbols(ls, singles, msg);
    assert [] + Symbols(ls, singles, msg) == Symbols(ls, singles, msg);
  }

  lemma Parts<T>(s: seq<T>, n: nat, a: seq<T>)
    requires n <= |s| && a <= s[n..]
    ensures n + |a| <= |s| && s == s[..n] + (a + s[n + |a|..])
  {
    assert s[n..][..|a|] == a;
    assert s[n..] == a + s[n..][|a|..];
  }
}
