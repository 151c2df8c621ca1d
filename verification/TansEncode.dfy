/** Every message has a coding: the decoder inverts an encoder that works from the last symbol back. */
module TansEncode {
  import opened Bits
  import opened TansSpec
  import opened TansTable
  import opened Words
  import opened TansDecode
  import opened TansArray

  /** Steps i up to, but not including, n. */
  ghost function Steps(table: seq<Entry>, s0: seq<bool>, s1: seq<bool>, t: Tans, i: nat, n: nat): (r: Tans)
    requires TableOk(table) && StatesOk(t.states, |table|) && i <= n
    ensures StatesOk(r.states, |table|)
    decreases n - i
  {
    if i == n then t else Steps(table, s0, s1, Step(table, s0, s1, t, i), i + 1, n)
  }

  lemma {:induction false} RunIsSteps(table: seq<Entry>, s0: seq<bool>, s1: seq<bool>, t: Tans, i: nat, n: nat)
    requires TableOk(table) && StatesOk(t.states, |table|) && i <= n
    ensures Steps(table, s0, s1, Run(table, s0, s1, t, i), i, n) == Run(table, s0, s1, t, n)
    decreases n - i
  {
    hide Step, TableOk, StatesOk;
    if i < n { RunIsSteps(table, s0, s1, t, i + 1, n); }
  }

  /** t read from the streams b0 + s0 and b1 + s1 instead of s0 and s1. */
  ghost function Behind(b0: seq<bool>, b1: seq<bool>, t: Tans): Tans {
    Tans(t.states, |b0| + t.pos0, |b1| + t.pos1, t.out)
  }

  lemma FieldBehind(b: seq<bool>, s: seq<bool>, p: nat, len: nat)
    ensures Field(b + s, |b| + p, len) == Field(s, p, len)
  {
    forall i | 0 <= i < len ensures Window(b + s, |b| + p, len)[i] == Window(s, p, len)[i] {
      assert Window(b + s, |b| + p, len)[i] == BitAt(b + s, |b| + p + i);
      assert Window(s, p, len)[i] == BitAt(s, p + i);
    }
    assert Window(b + s, |b| + p, len) == Window(s, p, len);
  }

  lemma StepBehind(table: seq<Entry>, b0: seq<bool>, b1: seq<bool>, s0: seq<bool>, s1: seq<bool>, t: Tans, i: nat)
    requires TableOk(table) && StatesOk(t.states, |table|)
    ensures Step(table, b0 + s0, b1 + s1, Behind(b0, b1, t), i) == Behind(b0, b1, Step(table, s0, s1, t, i))
  {
    hide Field, TableOk;
    var e := table[t.states[i % 5]];
    FieldBehind(b0, s0, t.pos0, e.len);
    FieldBehind(b1, s1, t.pos1, e.len);
  }

  lemma {:induction false} StepsBehind(table: seq<Entry>, b0: seq<bool>, b1: seq<bool>, s0: seq<bool>, s1: seq<bool>,
                                       t: Tans, i: nat, n: nat)
    requires TableOk(table) && StatesOk(t.states, |table|) && i <= n
    ensures Steps(table, b0 + s0, b1 + s1, Behind(b0, b1, t), i, n) == Behind(b0, b1, Steps(table, s0, s1, t, i, n))
    decreases n - i
  {
    hide Step, TableOk, StatesOk;
    if i < n {
      StepBehind(table, b0, b1, s0, s1, t, i);
      StepsBehind(table, b0, b1, s0, s1, Step(table, s0, s1, t, i), i + 1, n);
    }
  }

  ghost predicate Message(ls: seq<SymCount>, singles: seq<nat>, msg: seq<nat>) {
    forall j :: 0 <= j < |msg| ==> msg[j] < |ls| + |singles|
  }

  ghost function Symbols(ls: seq<SymCount>, singles: seq<nat>, msg: seq<nat>): (out: seq<nat>)
    requires Message(ls, singles, msg)
    ensures |out| == |msg|
  {
    seq(|msg|, j requires 0 <= j < |msg| => SymbolAt(ls, singles, msg[j]))
  }

  /** One step back: the state to come from and the bits that lead to the state asked for. */
  lemma EncodeOne(lbits: nat, ls: seq<SymCount>, singles: seq<nat>, k: nat, states: seq<nat>, out: seq<byte>, i: nat)
      returns (before: seq<nat>, b0: seq<bool>, b1: seq<bool>, sym: byte)
    requires CountsOk(lbits, ls, singles) && k < |ls| + |singles| && StatesOk(states, Pow2(lbits))
    requires TableOk(Table(lbits, ls, singles))
    ensures StatesOk(before, Pow2(lbits)) && sym == SymbolAt(ls, singles, k)
    ensures Step(Table(lbits, ls, singles), b0, b1, Tans(before, 0, 0, out), i) == Tans(states, |b0|, |b1|, out + [sym])
  {
    hide Pow2, CountsOk, TableEntry, SymbolAt, Field, TableOk;
    var table, x := Table(lbits, ls, singles), states[i % 5];
    var t := EncodeStep(lbits, ls, singles, k, x);
    var e := table[t];
    TableIsOk(lbits, ls, singles);
    SymbolIsByte(lbits, ls, singles, t);
    sym := e.sym;
    before := states[i % 5 := t];
    var b := ToBits(x - e.nextst, e.len);
    WholeField(x - e.nextst, e.len);
    b0, b1 := if i % 10 < 5 then b else [], if i % 10 < 5 then [] else b;
    assert before[i % 5 := x] == states;
  }

  lemma WholeField(x: nat, n: nat)
    requires x < Pow2(n)
    ensures Field(ToBits(x, n), 0, n) == x
  {
    WindowInside(ToBits(x, n), 0, n);
    assert ToBits(x, n)[0..n] == ToBits(x, n);
    FromToBits(x, n);
    LowSmall(x, n);
  }

  /** For every message, and whatever the five states after it are to be, there are states before it
      and two bit strings from which the decoder makes the message, using all bits of both. */
  lemma {:induction false} Encode(lbits: nat, ls: seq<SymCount>, singles: seq<nat>, msg: seq<nat>, final: seq<nat>,
                                  out: seq<byte>, i: nat) returns (states: seq<nat>, s0: seq<bool>, s1: seq<bool>)
    requires CountsOk(lbits, ls, singles) && Message(ls, singles, msg) && StatesOk(final, Pow2(lbits)) && i <= |msg|
    ensures TableOk(Table(lbits, ls, singles)) && StatesOk(states, Pow2(lbits))
    ensures var r := Steps(Table(lbits, ls, singles), s0, s1, Tans(states, 0, 0, out), i, |msg|);
      r.states == final && r.pos0 == |s0| && r.pos1 == |s1| && r.out == out + Symbols(ls, singles, msg)[i..]
    decreases |msg| - i
  {
    hide Pow2, CountsOk, Step, TableOk, StatesOk, SymbolAt;
    var table := Table(lbits, ls, singles);
    TableIsOk(lbits, ls, singles);
    if i == |msg| {
      states, s0, s1 := final, [], [];
    } else {
      var sym: byte := SymbolByte(lbits, ls, singles, msg[i]);
      var after, a0, a1 := Encode(lbits, ls, singles, msg, final, out + [sym], i + 1);
      var b0, b1, sym';
      states, b0, b1, sym' := EncodeOne(lbits, ls, singles, msg[i], after, out, i);
      s0, s1 := b0 + a0, b1 + a1;
      StepPrefix(table, b0, b1, a0, a1, Tans(states, 0, 0, out), i);
      StepsBehind(table, b0, b1, a0, a1, Tans(after, 0, 0, out + [sym]), i + 1, |msg|);
    }
  }

  lemma SymbolByte(lbits: nat, ls: seq<SymCount>, singles: seq<nat>, k: nat) returns (b: byte)
    requires CountsOk(lbits, ls, singles) && k < |ls| + |singles|
    ensures b == SymbolAt(ls, singles, k)
  {
    b := SymbolAt(ls, singles, k);
  }

  /** A step that uses up its strings is the same when more bits follow. */
  lemma StepPrefix(table: seq<Entry>, b0: seq<bool>, b1: seq<bool>, a0: seq<bool>, a1: seq<bool>, t: Tans, i: nat)
    requires TableOk(table) && StatesOk(t.states, |table|)
    requires var r := Step(table, b0, b1, t, i); r.pos0 == |b0| && r.pos1 == |b1|
    ensures Step(table, b0 + a0, b1 + a1, t, i) == Step(table, b0, b1, t, i)
  {
    hide Field, TableOk;
    var e := table[t.states[i % 5]];
    if i % 10 < 5 { FieldPrefix(b0, a0, t.pos0, e.len); } else { FieldPrefix(b1, a1, t.pos1, e.len); }
  }

  lemma FieldPrefix(b: seq<bool>, a: seq<bool>, p: nat, len: nat)
    requires p + len <= |b|
    ensures Field(b + a, p, len) == Field(b, p, len)
  {
    forall i | 0 <= i < len ensures Window(b + a, p, len)[i] == Window(b, p, len)[i] {
      assert Window(b + a, p, len)[i] == BitAt(b + a, p + i);
      assert Window(b, p, len)[i] == BitAt(b, p + i);
    }
    assert Window(b + a, p, len) == Window(b, p, len);
  }

  /** The decoder inverts the encoder. */
  lemma DecodeEncode(lbits: nat, ls: seq<SymCount>, singles: seq<nat>, msg: seq<nat>, final: seq<nat>)
      returns (states: seq<nat>, s0: seq<bool>, s1: seq<bool>)
    requires CountsOk(lbits, ls, singles) && Message(ls, singles, msg) && StatesOk(final, Pow2(lbits))
    ensures TableOk(Table(lbits, ls, singles)) && StatesOk(states, Pow2(lbits))
    ensures Run(Table(lbits, ls, singles), s0, s1, Tans(states, 0, 0, []), |msg|)
         == Tans(final, |s0|, |s1|, Symbols(ls, singles, msg))
  {
    hide CountsOk, Pow2, TableOk, StatesOk, Symbols;
    states, s0, s1 := Encode(lbits, ls, singles, msg, final, [], 0);
    var t := Tans(states, 0, 0, []);
    RunNone(Table(lbits, ls, singles), s0, s1, t);
    RunIsSteps(Table(lbits, ls, singles), s0, s1, t, 0, |msg|);
  }
}
