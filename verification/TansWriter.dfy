/** Writing the symbols of an array, from the last one back: states are halved until they are a symbol's own, and the
    bits that fall off are the stream. */
module TansWriter {
  import opened Bits
  import opened TansSpec
  import opened TansBuckets
  import opened TansTable
  import opened Words
  import opened TansDecode
  import opened TansTail
  import opened TansArray
  import opened TansEncode

  // ----- one symbol

  /** y halved until it is below twice the count, and the bits that fall off. */
  function Halved(y: nat, count: nat): (r: (nat, seq<bool>))
    requires count >= 1
    decreases y
  {
    if y < 2 * count then (y, [])
    else
      var rest := Halved(y / 2, count);
      (rest.0, [y % 2 == 1] + rest.1)
  }

  lemma {:induction false} HalvedIs(y: nat, count: nat)
    requires 1 <= count <= y
    ensures var (z, w) := Halved(y, count);
      count <= z < 2 * count && y == Shl(z, |w|) + FromBits(w) && Log2(y) == Log2(z) + |w|
    decreases y
  {
    if y >= 2 * count {
      HalvedIs(y / 2, count);
      var (z, w) := Halved(y / 2, count);
      var bit := y % 2 == 1;
      assert ([bit] + w)[1..] == w;
    }
  }

  /** The entry of the state that is left reads these bits, and leads back to where the halving began. */
  lemma HalvedLeads(lbits: nat, sym: nat, count: nat, x: nat)
    requires 1 <= count <= Pow2(lbits) && x < Pow2(lbits)
    ensures var (z, w) := Halved(Pow2(lbits) + x, count);
      && count <= z < 2 * count && Log2(z) <= lbits
      && var e := StateEntry(lbits, sym, count, z - count);
      e.len == |w| && e.nextst + FromBits(w) == x
  {
    hide Halved, Shl, Log2, Low;
    var y := Pow2(lbits) + x;
    HalvedIs(y, count);
    var (z, w) := Halved(y, count);
    Log2Unique(y, lbits);
    IntervalStart(lbits, z);
  }

  // ----- all symbols

  /** The states to begin with, and the bits of both streams. */
  datatype Coded = Coded(states: seq<nat>, f: seq<bool>, b: seq<bool>)

  /** The count of a symbol fits into the table. */
  lemma CountFits(lbits: nat, ls: seq<SymCount>, singles: seq<nat>, k: nat)
    requires CountsOk(lbits, ls, singles) && k < |ls| + |singles|
    ensures 1 <= CountAt(ls, singles, k) <= Pow2(lbits)
  {
    hide Sum, Pow2;
    if k < |ls| { CountInRange(lbits, ls, singles, k, 0); } else { PowOne(lbits); }
  }

  lemma PowOne(n: nat)
    ensures Pow2(n) >= 1
  {
  }

  lemma SlotFits(lbits: nat, ls: seq<SymCount>, singles: seq<nat>, k: nat, x: nat)
    requires CountsOk(lbits, ls, singles) && k < |ls| + |singles| && x < Pow2(lbits)
    ensures var count := CountAt(ls, singles, k);
      && 1 <= count && var z := Halved(Pow2(lbits) + x, count).0;
      count <= z < 2 * count && SlotOf(ls, k, z - count) < Pow2(lbits) && OwnerAt(ls, SlotOf(ls, k, z - count)) == (k, z - count)
  {
    hide Pow2, SlotOf, OwnerAt, StateEntry, Halved;
    CountFits(lbits, ls, singles, k);
    var count := CountAt(ls, singles, k);
    HalvedLeads(lbits, 0, count, x);
    SlotInRange(lbits, ls, singles, k, Halved(Pow2(lbits) + x, count).0 - count);
  }

  /** The slot before a symbol that leads to x, and the bits that do. */
  ghost function SlotBefore(lbits: nat, ls: seq<SymCount>, singles: seq<nat>, k: nat, x: nat): (r: (nat, seq<bool>))
    requires CountsOk(lbits, ls, singles) && k < |ls| + |singles| && x < Pow2(lbits)
    ensures r.0 < Pow2(lbits)
  {
    hide Halved, Pow2, SlotOf, OwnerAt;
    SlotFits(lbits, ls, singles, k, x);
    var (z, w) := Halved(Pow2(lbits) + x, CountAt(ls, singles, k));
    (SlotOf(ls, k, z - CountAt(ls, singles, k)), w)
  }

  /** Symbol k, the i-th, in front of a coding: each of five states in turn, five symbols to one stream and five to
      the other. */
  ghost function InFront(lbits: nat, ls: seq<SymCount>, singles: seq<nat>, k: nat, c: Coded, i: nat): (r: Coded)
    requires CountsOk(lbits, ls, singles) && k < |ls| + |singles| && StatesOk(c.states, Pow2(lbits))
    ensures StatesOk(r.states, Pow2(lbits))
  {
    var (t, w) := SlotBefore(lbits, ls, singles, k, c.states[i % 5]);
    var states := c.states[i % 5 := t];
    if i / 5 % 2 == 0 then Coded(states, w + c.f, c.b) else Coded(states, c.f, w + c.b)
  }

  /** The symbols from i on. */
  ghost function Coding(lbits: nat, ls: seq<SymCount>, singles: seq<nat>, msg: seq<nat>, final: seq<nat>, i: nat): (c: Coded)
    requires CountsOk(lbits, ls, singles) && Message(ls, singles, msg) && StatesOk(final, Pow2(lbits)) && i <= |msg|
    ensures StatesOk(c.states, Pow2(lbits))
    decreases |msg| - i
  {
    if i == |msg| then Coded(final, [], [])
    else
      InFront(lbits, ls, singles, msg[i], Coding(lbits, ls, singles, msg, final, i + 1), i)
  }

  /** Decoding the slot gives the symbol and the state back. */
  lemma SlotDecodes(lbits: nat, ls: seq<SymCount>, singles: seq<nat>, k: nat, x: nat)
    requires CountsOk(lbits, ls, singles) && k < |ls| + |singles| && x < Pow2(lbits)
    ensures var (t, w) := SlotBefore(lbits, ls, singles, k, x);
      var e := TableEntry(lbits, ls, singles, t);
      e.sym == SymbolAt(ls, singles, k) && e.len == |w| && e.nextst + FromBits(w) == x
  {
    hide Pow2, SlotOf, OwnerAt, SymbolAt, CountAt, StateEntry, Halved;
    CountFits(lbits, ls, singles, k);
    var count := CountAt(ls, singles, k);
    HalvedLeads(lbits, SymbolAt(ls, singles, k), count, x);
    var (z, w) := Halved(Pow2(lbits) + x, count);
    SlotFits(lbits, ls, singles, k, x);
    SymOnly(lbits, SymbolAt(ls, singles, k), count, z - count);
  }

  lemma SymOnly(lbits: nat, sym: nat, count: nat, q: nat)
    requires count >= 1 && Log2(count + q) <= lbits
    ensures StateEntry(lbits, sym, count, q).sym == sym
  {
  }

  lemma Lane(i: nat)
    ensures i % 10 < 5 <==> i / 5 % 2 == 0
  {
    var q, m := i / 10, i % 10;
    assert i == 10 * q + m;
    if m < 5 { DivModUnique(i, 5, 2 * q, m); } else { DivModUnique(i, 5, 2 * q + 1, m - 5); }
  }

  lemma WholeString(w: seq<bool>)
    ensures Field(w, 0, |w|) == FromBits(w)
  {
    WindowInside(w, 0, |w|);
    assert w[0..|w|] == w;
  }

  /** Decoding one symbol uses up its bits. */
  lemma OneStep(lbits: nat, ls: seq<SymCount>, singles: seq<nat>, k: nat, after: seq<nat>, out: seq<byte>, i: nat)
    requires CountsOk(lbits, ls, singles) && k < |ls| + |singles| && StatesOk(after, Pow2(lbits))
    requires TableOk(Table(lbits, ls, singles))
    ensures var (t, w) := SlotBefore(lbits, ls, singles, k, after[i % 5]);
      var sym := SymbolAt(ls, singles, k);
      var (b0, b1) := if i / 5 % 2 == 0 then (w, []) else ([], w);
      && sym < 256 && StatesOk(after[i % 5 := t], Pow2(lbits))
      && Step(Table(lbits, ls, singles), b0, b1, Tans(after[i % 5 := t], 0, 0, out), i) == Tans(after, |b0|, |b1|, out + [sym])
  {
    hide Pow2, CountsOk, TableEntry, SymbolAt, Field, TableOk, SlotBefore;
    var x := after[i % 5];
    var (t, w) := SlotBefore(lbits, ls, singles, k, x);
    SlotDecodes(lbits, ls, singles, k, x);
    SymbolIsByte(lbits, ls, singles, t);
    WholeString(w);
    Lane(i);
    assert after[i % 5 := t][i % 5 := x] == after;
  }

  lemma OneMoreSymbol(lbits: nat, ls: seq<SymCount>, singles: seq<nat>, k: nat, c: Coded, out: seq<byte>, sym: byte, i: nat, n: nat)
    requires CountsOk(lbits, ls, singles) && k < |ls| + |singles| && StatesOk(c.states, Pow2(lbits))
    requires TableOk(Table(lbits, ls, singles)) && sym == SymbolAt(ls, singles, k) && i < n
    ensures var table, d := Table(lbits, ls, singles), InFront(lbits, ls, singles, k, c, i);
      var r, q := Steps(table, c.f, c.b, Tans(c.states, 0, 0, out + [sym]), i + 1, n),
                  Steps(table, d.f, d.b, Tans(d.states, 0, 0, out), i, n);
      && q.states == r.states && q.out == r.out
      && q.pos0 + |c.f| == r.pos0 + |d.f| && q.pos1 + |c.b| == r.pos1 + |d.b|
  {
    hide Pow2, CountsOk, Step, TableOk, SymbolAt, SlotBefore, StatesOk;
    var table, d := Table(lbits, ls, singles), InFront(lbits, ls, singles, k, c, i);
    FiveStates(c.states, Pow2(lbits), i);
    var (t, w) := SlotBefore(lbits, ls, singles, k, c.states[i % 5]);
    OneStep(lbits, ls, singles, k, c.states, out, i);
    var (b0, b1) := if i / 5 % 2 == 0 then (w, []) else ([], w);
    assert d.f == b0 + c.f && d.b == b1 + c.b;
    StepPrefix(table, b0, b1, c.f, c.b, Tans(d.states, 0, 0, out), i);
    StepsBehind(table, b0, b1, c.f, c.b, Tans(c.states, 0, 0, out + [sym]), i + 1, n);
  }

  lemma FiveStates(states: seq<nat>, size: nat, i: nat)
    requires StatesOk(states, size)
    ensures |states| == 5 && states[i % 5] < size
  {
  }

  /** The decoder gives the symbols back, uses up both streams and ends in the states asked for. */
  lemma {:induction false} CodingDecodes(lbits: nat, ls: seq<SymCount>, singles: seq<nat>, msg: seq<nat>, final: seq<nat>,
                                         out: seq<byte>, i: nat)
    requires CountsOk(lbits, ls, singles) && Message(ls, singles, msg) && StatesOk(final, Pow2(lbits)) && i <= |msg|
    ensures TableOk(Table(lbits, ls, singles))
    ensures var c := Coding(lbits, ls, singles, msg, final, i);
      Steps(Table(lbits, ls, singles), c.f, c.b, Tans(c.states, 0, 0, out), i, |msg|)
        == Tans(final, |c.f|, |c.b|, out + Symbols(ls, singles, msg)[i..])
    decreases |msg| - i
  {
    hide Pow2, CountsOk, Step, TableOk, StatesOk, SymbolAt, InFront;
    TableIsOk(lbits, ls, singles);
    if i < |msg| {
      var sym: byte := SymbolByte(lbits, ls, singles, msg[i]);
      CodingDecodes(lbits, ls, singles, msg, final, out + [sym], i + 1);
      OneMoreSymbol(lbits, ls, singles, msg[i], Coding(lbits, ls, singles, msg, final, i + 1), out, sym, i, |msg|);
    }
  }
}
