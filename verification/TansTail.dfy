/** What decoding from a copy of the last bytes has in common with decoding from the buffer itself. */
module TansTail {
  import opened Bits
  import opened TansSpec
  import opened Words
  import opened TansDecode

  function BytesUsed(pos: nat): nat {
    (pos + 7) / 8
  }

  /** Bytes begun at either end. */
  function Used(t: Tans): nat {
    BytesUsed(t.pos0) + BytesUsed(t.pos1)
  }

  lemma {:induction false} RunAdd(table: seq<Entry>, s0: seq<bool>, s1: seq<bool>, t: Tans, a: nat, n: nat)
    requires TableOk(table) && StatesOk(t.states, |table|) && a % 10 == 0
    ensures Run(table, s0, s1, t, a + n) == Run(table, s0, s1, Run(table, s0, s1, t, a), n)
  {
    hide Step, TableOk, StatesOk;
    if n > 0 {
      RunAdd(table, s0, s1, t, a, n - 1);
      SameStep(table, s0, s1, Run(table, s0, s1, t, a + n - 1), a, n - 1);
    }
  }

  lemma SameStep(table: seq<Entry>, s0: seq<bool>, s1: seq<bool>, t: Tans, a: nat, i: nat)
    requires TableOk(table) && StatesOk(t.states, |table|) && a % 10 == 0
    ensures Step(table, s0, s1, t, a + i) == Step(table, s0, s1, t, i)
  {
    hide TableOk, StatesOk, Field;
    Phases(a, i);
  }

  lemma Phases(a: nat, i: nat)
    requires a % 10 == 0
    ensures (a + i) % 10 == i % 10 && (a + i) % 5 == i % 5
  {
    var q := a / 10;
    DivModUnique(a + i, 10, q + i / 10, i % 10);
    DivModUnique(a + i, 5, 2 * q + i / 5, i % 5);
  }

  lemma {:induction false} RunGrows(table: seq<Entry>, s0: seq<bool>, s1: seq<bool>, t: Tans, m: nat, n: nat)
    requires TableOk(table) && StatesOk(t.states, |table|) && m <= n
    ensures var r, q := Run(table, s0, s1, t, m), Run(table, s0, s1, t, n);
      r.pos0 <= q.pos0 && r.pos1 <= q.pos1 && Used(r) <= Used(q)
    decreases n
  {
    hide TableOk, StatesOk, Step, Used;
    if m < n {
      RunGrows(table, s0, s1, t, m, n - 1);
      StepGrows(table, s0, s1, Run(table, s0, s1, t, n - 1), n - 1);
    }
  }

  lemma StepGrows(table: seq<Entry>, s0: seq<bool>, s1: seq<bool>, t: Tans, i: nat)
    requires TableOk(table) && StatesOk(t.states, |table|)
    ensures var q := Step(table, s0, s1, t, i);
      t.pos0 <= q.pos0 && t.pos1 <= q.pos1 && Used(t) <= Used(q) && |q.out| == |t.out| + 1
  {
    hide TableOk, Field;
  }

  // ----- streams that have a stretch in common

  /** The first n bits of s are those of v from k on. */
  ghost predicate Agree(s: seq<bool>, v: seq<bool>, k: nat, n: nat) {
    forall i :: 0 <= i < n ==> BitAt(s, i) == BitAt(v, k + i)
  }

  lemma AgreeField(s: seq<bool>, v: seq<bool>, k: nat, n: nat, p: nat, len: nat)
    requires Agree(s, v, k, n) && p + len <= n
    ensures Field(s, p, len) == Field(v, k + p, len)
  {
    forall i | 0 <= i < len ensures Window(s, p, len)[i] == Window(v, k + p, len)[i] {
      assert BitAt(s, p + i) == BitAt(v, k + (p + i));
    }
    assert Window(s, p, len) == Window(v, k + p, len);
  }

  lemma SameBytes(a: seq<byte>, b: seq<byte>, k: nat, n: nat)
    requires n <= |a| && k + n <= |b|
    requires forall i :: 0 <= i < n ==> a[i] == b[k + i]
    ensures Agree(ByteBits(a), ByteBits(b), 8 * k, 8 * n)
  {
    forall i | 0 <= i < 8 * n ensures BitAt(ByteBits(a), i) == BitAt(ByteBits(b), 8 * k + i) {
      assert (8 * k + i) / 8 == k + i / 8 && (8 * k + i) % 8 == i % 8;
      assert BitAt(ByteBits(a), i) == Bit(a[i / 8], i % 8);
      assert BitAt(ByteBits(b), 8 * k + i) == Bit(b[k + i / 8], i % 8);
    }
  }

  /** The same state, with b0 and b1 more bytes before the streams. */
  ghost predicate Shifted(x: Tans, y: Tans, b0: nat, b1: nat) {
    && x.states == y.states && x.out == y.out
    && x.pos0 == 8 * b0 + y.pos0 && x.pos1 == 8 * b1 + y.pos1
  }

  lemma ShiftedUse(x: Tans, y: Tans, b0: nat, b1: nat)
    requires Shifted(x, y, b0, b1)
    ensures Used(x) == Used(y) + b0 + b1
  {
  }

  /** A pair of streams v0, v1 seen from b0 and b1 bytes on, where total bytes are left between them.
      Only n0 of these can be seen in s0 and n1 in s1; but the streams are already in the middle of
      the others. */
  ghost predicate Seen(v0: seq<bool>, v1: seq<bool>, s0: seq<bool>, s1: seq<bool>, b0: nat, b1: nat,
                       n0: nat, n1: nat, total: nat, y: Tans)
  {
    && Agree(s0, v0, 8 * b0, 8 * n0) && Agree(s1, v1, 8 * b1, 8 * n1)
    && n0 + BytesUsed(y.pos1) >= total && n1 + BytesUsed(y.pos0) >= total
  }

  /** The run over what is seen is the run over the whole, or both have used more than is left. */
  ghost predicate SameOrOver(x: Tans, y: Tans, b0: nat, b1: nat, total: nat) {
    Shifted(x, y, b0, b1) || (Used(x) > b0 + b1 + total && Used(y) > total)
  }

  lemma SeenStep(table: seq<Entry>, v0: seq<bool>, v1: seq<bool>, s0: seq<bool>, s1: seq<bool>, b0: nat, b1: nat,
                 n0: nat, n1: nat, total: nat, x: Tans, y: Tans, i: nat)
    requires TableOk(table) && StatesOk(x.states, |table|)
    requires Seen(v0, v1, s0, s1, b0, b1, n0, n1, total, y) && Shifted(x, y, b0, b1)
    ensures SameOrOver(Step(table, v0, v1, x, i), Step(table, s0, s1, y, i), b0, b1, total)
  {
    hide Field, TableOk, Agree, BytesUsed;
    var e := table[x.states[i % 5]];
    if i % 10 < 5 {
      if y.pos0 + e.len <= 8 * n0 { AgreeField(s0, v0, 8 * b0, 8 * n0, y.pos0, e.len); }
      else { PastSeen(b0, b1, n0, total, y.pos0 + e.len, y.pos1); }
    } else {
      if y.pos1 + e.len <= 8 * n1 { AgreeField(s1, v1, 8 * b1, 8 * n1, y.pos1, e.len); }
      else { PastSeen(b1, b0, n1, total, y.pos1 + e.len, y.pos0); }
    }
  }

  /** One stream beyond what is seen of it is one byte too many. */
  lemma PastSeen(b0: nat, b1: nat, n0: nat, total: nat, p0: nat, p1: nat)
    requires p0 > 8 * n0 && n0 + BytesUsed(p1) >= total
    ensures BytesUsed(p0) + BytesUsed(p1) > total
    ensures BytesUsed(8 * b0 + p0) + BytesUsed(8 * b1 + p1) > b0 + b1 + total
  {
  }

  lemma {:induction false} SeenRun(table: seq<Entry>, v0: seq<bool>, v1: seq<bool>, s0: seq<bool>, s1: seq<bool>,
                                   b0: nat, b1: nat, n0: nat, n1: nat, total: nat, x: Tans, y: Tans, n: nat)
    requires TableOk(table) && StatesOk(x.states, |table|)
    requires Seen(v0, v1, s0, s1, b0, b1, n0, n1, total, y) && Shifted(x, y, b0, b1)
    ensures SameOrOver(Run(table, v0, v1, x, n), Run(table, s0, s1, y, n), b0, b1, total)
  {
    hide Step, TableOk, StatesOk, Used, Agree;
    if n > 0 {
      SeenRun(table, v0, v1, s0, s1, b0, b1, n0, n1, total, x, y, n - 1);
      var x', y' := Run(table, v0, v1, x, n - 1), Run(table, s0, s1, y, n - 1);
      RunGrows(table, s0, s1, y, 0, n - 1);
      if Shifted(x', y', b0, b1) {
        SeenStep(table, v0, v1, s0, s1, b0, b1, n0, n1, total, x', y', n - 1);
      } else {
        RunGrows(table, v0, v1, x, n - 1, n);
        RunGrows(table, s0, s1, y, n - 1, n);
      }
    }
  }
}
