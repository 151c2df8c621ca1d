/** Dynamic blocks: the code lengths that precede them, section 3.2.7 of RFC 1951. */
module DynamicCodes {
  import opened Bits
  import opened Canonical
  import opened ZHuffman
  import opened BitReader
  import opened Inflate
  import opened Turns
  import opened Wrappers

  /** A code length, or a repetition: of the previous length 3 + x times, of zero 3 + x times, of
      zero 11 + x times. */
  datatype LenOp =
    | Len(c: nat)
    | Previous(x: nat)
    | Zeros(x: nat)
    | ManyZeros(x: nat)

  function OpSymbol(op: LenOp): nat {
    match op
    case Len(c) => c
    case Previous(_) => 16
    case Zeros(_) => 17
    case ManyZeros(_) => 18
  }

  function OpExtra(op: LenOp): nat {
    match op
    case Len(_) => 0
    case Previous(_) => 2
    case Zeros(_) => 3
    case ManyZeros(_) => 7
  }

  function OpValue(op: LenOp): nat {
    if op.Len? then 0 else op.x
  }

  ghost predicate OpCodable(cl: seq<nat>, op: LenOp) {
    && OpSymbol(op) < |cl| && cl[OpSymbol(op)] > 0
    && OpValue(op) < Pow2(OpExtra(op))
    && (op.Len? ==> op.c < 16)
  }

  ghost function OpBits(cl: seq<nat>, op: LenOp): seq<bool>
    requires OpCodable(cl, op)
  {
    CodeBits(cl, OpSymbol(op)) + ToBits(OpValue(op), OpExtra(op))
  }

  ghost predicate AllOpCodable(cl: seq<nat>, ops: seq<LenOp>) {
    forall i :: 0 <= i < |ops| ==> OpCodable(cl, ops[i])
  }

  ghost function OpsBits(cl: seq<nat>, ops: seq<LenOp>): seq<bool>
    requires AllOpCodable(cl, ops)
  {
    if ops == [] then [] else OpsBits(cl, ops[..|ops| - 1]) + OpBits(cl, ops[|ops| - 1])
  }

  function Repeat(v: nat, n: nat): (s: seq<nat>)
    ensures |s| == n
    ensures forall i :: 0 <= i < n ==> s[i] == v
  {
    seq(n, _ => v)
  }

  /** How many lengths the operation appends. */
  function OpCount(op: LenOp): nat {
    match op
    case Len(_) => 1
    case Previous(x) => 3 + x
    case Zeros(x) => 3 + x
    case ManyZeros(x) => 11 + x
  }

  function Apply(lens: seq<nat>, op: LenOp): Option<seq<nat>> {
    match op
    case Len(c) => Some(lens + [c])
    case Previous(_) => if lens == [] then None else Some(lens + Repeat(lens[|lens| - 1], OpCount(op)))
    case _ => Some(lens + Repeat(0, OpCount(op)))
  }

  function ApplyAll(ops: seq<LenOp>): Option<seq<nat>> {
    if ops == [] then Some([])
    else
      var before := ApplyAll(ops[..|ops| - 1]);
      if before.None? then None else Apply(before.value, ops[|ops| - 1])
  }

  function Dezigzag(i: nat): (k: nat)
    requires i < 19
    ensures k < 19
  {
    [16, 17, 18, 0, 8, 7, 9, 6, 10, 5, 11, 4, 12, 3, 13, 2, 14, 1, 15][i]
  }

  /** The lengths of the code length code, from the order they are stored in. */
  function Permuted(raw: seq<nat>): (cl: seq<nat>)
    requires |raw| <= 19
    ensures |cl| == 19
  {
    if raw == [] then Repeat(0, 19)
    else Permuted(raw[..|raw| - 1])[Dezigzag(|raw| - 1) := raw[|raw| - 1]]
  }

  /** The order of section 3.2.7 by rule: the three repetitions, zero, and then from 8 on the lengths above and
      below it in turn, 8, 7, 9, 6, 10 and so on. */
  function PlaceAt(i: nat): int {
    if i < 3 then 16 + i else if i == 3 then 0 else if i % 2 == 0 then 8 + (i - 4) / 2 else 8 - (i - 3) / 2
  }

  lemma DezigzagIs(i: nat)
    requires i < 19
    ensures Dezigzag(i) == PlaceAt(i)
  {
  }

  lemma StoredOnce(i: nat, j: nat)
    requires i < 19 && j < 19 && i != j
    ensures PlaceAt(i) != PlaceAt(j)
  {
  }

  /** What is stored as the i-th is the length of that symbol, and the symbols that are not stored have none. */
  lemma {:induction false} PermutedAt(raw: seq<nat>, i: nat)
    requires |raw| <= 19 && i < 19
    ensures 0 <= PlaceAt(i) < 19 && Permuted(raw)[PlaceAt(i)] == if i < |raw| then raw[i] else 0
  {
    hide Dezigzag, PlaceAt;
    DezigzagIs(i);
    if raw != [] {
      var n := |raw| - 1;
      PermutedAt(raw[..n], i);
      DezigzagIs(n);
      if i != n { StoredOnce(i, n); }
    }
  }

  /** What the symbols 0 to 18 of the code length code say, section 3.2.7: a length; the one before, 3 to 6 times,
      by two bits; zeros, 3 to 10 by three bits and 11 to 138 by seven. */
  lemma Repetitions(cl: seq<nat>, op: LenOp, lens: seq<nat>)
    requires OpCodable(cl, op)
    ensures OpSymbol(op) < 16 ==> op.Len? && OpExtra(op) == 0 && Apply(lens, op) == Some(lens + [OpSymbol(op)])
    ensures 16 <= OpSymbol(op) <= 18 || op.Len?
    ensures OpSymbol(op) == 16 ==>
      && OpExtra(op) == 2 && OpValue(op) < 4
      && Apply(lens, op) == if lens == [] then None else Some(lens + seq(3 + OpValue(op), i => lens[|lens| - 1]))
    ensures OpSymbol(op) == 17 ==> OpExtra(op) == 3 && OpValue(op) < 8 && Apply(lens, op) == Some(lens + seq(3 + OpValue(op), i => 0))
    ensures OpSymbol(op) == 18 ==> OpExtra(op) == 7 && OpValue(op) < 128 && Apply(lens, op) == Some(lens + seq(11 + OpValue(op), i => 0))
  {
    hide Pow2;
    SmallPowers();
    match op
    case Len(_) =>
    case Previous(x) => if lens != [] { Copies(lens[|lens| - 1], 3 + x); }
    case Zeros(x) => Copies(0, 3 + x);
    case ManyZeros(x) => Copies(0, 11 + x);
  }

  lemma SmallPowers()
    ensures Pow2(2) == 4 && Pow2(3) == 8 && Pow2(7) == 128
  {
    Pow2Values();
    assert Pow2(8) == 2 * Pow2(7);
  }

  lemma Copies(v: nat, n: nat)
    ensures Repeat(v, n) == seq(n, i => v)
  {
  }

  function RawBits(raw: seq<nat>): (s: seq<bool>)
    ensures |s| == 3 * |raw|
  {
    if raw == [] then [] else RawBits(raw[..|raw| - 1]) + ToBits(raw[|raw| - 1], 3)
  }

  datatype Header = Header(hlit: nat, hdist: nat, raw: seq<nat>, ops: seq<LenOp>)

  /** The header describes two codes. */
  ghost predicate HeaderOk(h: Header, lens: seq<nat>, dlens: seq<nat>) {
    && 257 <= h.hlit <= 288 && 1 <= h.hdist <= 32 && 4 <= |h.raw| <= 19
    && (forall i :: 0 <= i < |h.raw| ==> h.raw[i] < 8)
    && Kraft(Permuted(h.raw)) && AllOpCodable(Permuted(h.raw), h.ops)
    && ApplyAll(h.ops) == Some(lens + dlens)
    && |lens| == h.hlit && |dlens| == h.hdist && Kraft(lens) && Kraft(dlens)
  }

  /** The header comes next in the stream. */
  ghost predicate HeaderFollows(h: Header, s: seq<bool>, p: nat)
    requires 257 <= h.hlit && 1 <= h.hdist && 4 <= |h.raw| <= 19 && AllOpCodable(Permuted(h.raw), h.ops)
  {
    && Follows(s, p, ToBits(h.hlit - 257, 5))
    && Follows(s, p + 5, ToBits(h.hdist - 1, 5))
    && Follows(s, p + 10, ToBits(|h.raw| - 4, 4))
    && Follows(s, p + 14, RawBits(h.raw))
    && Follows(s, p + 14 + 3 * |h.raw|, OpsBits(Permuted(h.raw), h.ops))
  }

  ghost function HeaderSize(h: Header): nat
    requires |h.raw| <= 19 && AllOpCodable(Permuted(h.raw), h.ops)
  {
    14 + 3 * |h.raw| + |OpsBits(Permuted(h.raw), h.ops)|
  }

  /** The header at p describes the codes. */
  ghost predicate HeaderAt(h: Header, lens: seq<nat>, dlens: seq<nat>, s: seq<bool>, p: nat) {
    HeaderOk(h, lens, dlens) && HeaderFollows(h, s, p)
  }

  // ----- what the header leaves in the bit buffer

  function RawLeft(k: nat, n: nat): (m: nat)
    requires n <= 32
    ensures m <= 32
    decreases k
  {
    if k == 0 then n else Taken(RawLeft(k - 1, n), 3)
  }

  function OpLeft(cl: seq<nat>, op: LenOp, n: nat): (m: nat)
    requires n <= 32
    ensures m <= 32
  {
    var l := if OpSymbol(op) < |cl| && cl[OpSymbol(op)] <= 16 then cl[OpSymbol(op)] else 0;
    Taken(Refilled(n, 16) - l, OpExtra(op))
  }

  function OpsLeft(cl: seq<nat>, ops: seq<LenOp>, n: nat): (m: nat)
    requires n <= 32
    ensures m <= 32
    decreases |ops|
  {
    if ops == [] then n else OpLeft(cl, ops[|ops| - 1], OpsLeft(cl, ops[..|ops| - 1], n))
  }

  /** How many bits are buffered behind the header, if n are before it. */
  function HeaderLeft(h: Header, n: nat): (m: nat)
    requires |h.raw| <= 19 && n <= 32
    ensures m <= 32
  {
    OpsLeft(Permuted(h.raw), h.ops, RawLeft(|h.raw|, Taken(Taken(Taken(n, 5), 5), 4)))
  }

  // ----- reading operations

  lemma OpParts(cl: seq<nat>, op: LenOp, s: seq<bool>, p: nat)
    requires OpCodable(cl, op)
    ensures |OpBits(cl, op)| == cl[OpSymbol(op)] + OpExtra(op)
    ensures Follows(s, p, OpBits(cl, op)) <==>
      && Follows(s, p, CodeBits(cl, OpSymbol(op)))
      && Follows(s, p + cl[OpSymbol(op)], ToBits(OpValue(op), OpExtra(op)))
  {
    FollowsSplit(s, p, CodeBits(cl, OpSymbol(op)), ToBits(OpValue(op), OpExtra(op)));
  }

  lemma {:induction false} PermutedLengths(raw: seq<nat>)
    requires |raw| <= 19 && forall i :: 0 <= i < |raw| ==> raw[i] < 8
    ensures ZLengths(Permuted(raw))
  {
    if raw != [] { PermutedLengths(raw[..|raw| - 1]); }
  }

  /** Whether the operation is there to be read. */
  ghost predicate OpExpected(cl: seq<nat>, want: Option<LenOp>, s: seq<bool>, p: nat) {
    want.Some? ==> OpCodable(cl, want.value) && Follows(s, p, OpBits(cl, want.value)) && p + 16 <= |s|
  }

  /** Reads the operation whose bits come next. */
  method ReadOp(a: ZBuf, z: Huffman, ghost cl: seq<nat>, ghost want: Option<LenOp>) returns (op: Option<LenOp>)
    requires a.Valid() && z.Built(cl) && |cl| == 19
    requires OpExpected(cl, want, a.Stream(), a.BitPos())
    modifies a`pos, a`num_bits, a`code_buffer, a`fetched
    ensures a.Valid()
    ensures op.Some? ==>
      && OpCodable(cl, op.value) && Follows(a.Stream(), old(a.BitPos()), OpBits(cl, op.value))
      && a.BitPos() == old(a.BitPos()) + |OpBits(cl, op.value)|
      && a.num_bits == OpLeft(cl, op.value, old(a.num_bits))
    ensures want.Some? ==> op == want
  {
    hide ZBuf.Buffered, CodeBits, ToBits, ByteBits, Window, Matches, FastEntry, Fits, Follows, OpBits, Pow2, RangesSet, Refilled;
    ghost var s, p := a.Stream(), a.BitPos();
    if want.Some? { OpParts(cl, want.value, s, p); MatchesIsFollows(cl, OpSymbol(want.value), s, p); }
    a.AtEof();
    var c := a.Decode(z, cl);
    if c < 0 || c >= 19 { return None; }
    MatchesIsFollows(cl, c, s, p);
    if want.Some? { FollowsUnique(cl, OpSymbol(want.value), c, s, p); }
    var n := if c < 16 then 0 else if c == 16 then 2 else if c == 17 then 3 else 7;
    var x := ReadExtra(a, n);
    var o := if c < 16 then Len(c) else if c == 16 then Previous(x) else if c == 17 then Zeros(x) else ManyZeros(x);
    assert OpSymbol(o) == c && OpExtra(o) == n;
    NoExtraIsZero(n, x);
    OpParts(cl, o, s, p);
    if want.Some? {
      SameNumber(x, OpValue(want.value), n, s, p + cl[c]);
      SameOp(o, want.value);
    }
    op := Some(o);
  }

  lemma NoExtraIsZero(n: nat, x: nat)
    requires x < Pow2(n)
    ensures n == 0 ==> x == 0
  {
  }

  lemma SameOp(x: LenOp, y: LenOp)
    requires OpSymbol(x) == OpSymbol(y) && OpValue(x) == OpValue(y)
    requires (x.Len? ==> x.c < 16) && (y.Len? ==> y.c < 16)
    ensures x == y
  {
  }

  // ----- lists of operations

  lemma {:induction false} OpsBitsPrefix(cl: seq<nat>, ops: seq<LenOp>, n: nat)
    requires n <= |ops| && AllOpCodable(cl, ops)
    ensures AllOpCodable(cl, ops[..n])
    ensures OpsBits(cl, ops[..n]) <= OpsBits(cl, ops)
  {
    hide OpCodable, OpBits;
    if n < |ops| {
      OpsBitsPrefix(cl, ops[..|ops| - 1], n);
      assert ops[..|ops| - 1][..n] == ops[..n];
    } else {
      assert ops[..n] == ops;
    }
  }

  lemma OpsBitsSnoc(cl: seq<nat>, ops: seq<LenOp>, op: LenOp)
    requires AllOpCodable(cl, ops) && OpCodable(cl, op)
    ensures AllOpCodable(cl, ops + [op])
    ensures OpsBits(cl, ops + [op]) == OpsBits(cl, ops) + OpBits(cl, op)
  {
    assert (ops + [op])[..|ops|] == ops;
  }

  lemma ApplySnoc(ops: seq<LenOp>, op: LenOp)
    requires ApplyAll(ops).Some?
    ensures ApplyAll(ops + [op]) == Apply(ApplyAll(ops).value, op)
  {
    assert (ops + [op])[..|ops|] == ops;
  }

  /** Every operation of a valid list appends something, and none of them appends too much. */
  lemma {:induction false} ApplyPrefix(ops: seq<LenOp>, n: nat)
    requires n <= |ops| && ApplyAll(ops).Some?
    ensures ApplyAll(ops[..n]).Some?
    ensures |ApplyAll(ops[..n]).value| + |ops| - n <= |ApplyAll(ops).value|
    ensures n < |ops| ==>
      && Apply(ApplyAll(ops[..n]).value, ops[n]).Some?
      && |ApplyAll(ops[..n]).value| + OpCount(ops[n]) <= |ApplyAll(ops).value|
  {
    if n < |ops| {
      var m := |ops| - 1;
      if n < m {
        ApplyPrefix(ops[..m], n);
        assert ops[..m][..n] == ops[..n];
      }
    } else {
      assert ops[..n] == ops;
    }
  }

  lemma NextOp(cl: seq<nat>, ops: seq<LenOp>, m: nat, s: seq<bool>, p: nat)
    requires AllOpCodable(cl, ops) && Follows(s, p, OpsBits(cl, ops)) && p + |OpsBits(cl, ops)| + 16 <= |s|
    requires m < |ops|
    ensures AllOpCodable(cl, ops[..m])
    ensures OpExpected(cl, Some(ops[m]), s, p + |OpsBits(cl, ops[..m])|)
  {
    hide OpBits, OpsBits, Follows;
    OpsBitsPrefix(cl, ops, m + 1);
    OpsBitsPrefix(cl, ops, m);
    assert OpCodable(cl, ops[m]);
    OpsBitsSnoc(cl, ops[..m], ops[m]);
    assert ops[..m + 1] == ops[..m] + [ops[m]];
    FollowsPrefix(s, p, OpsBits(cl, ops[..m + 1]), OpsBits(cl, ops));
    FollowsSplit(s, p, OpsBits(cl, ops[..m]), OpBits(cl, ops[m]));
  }

  lemma OpsGrow(cl: seq<nat>, ops: seq<LenOp>, op: LenOp, s: seq<bool>, p: nat)
    requires AllOpCodable(cl, ops) && OpCodable(cl, op)
    requires Follows(s, p, OpsBits(cl, ops)) && Follows(s, p + |OpsBits(cl, ops)|, OpBits(cl, op))
    ensures AllOpCodable(cl, ops + [op]) && Follows(s, p, OpsBits(cl, ops + [op]))
    ensures |OpsBits(cl, ops + [op])| == |OpsBits(cl, ops)| + |OpBits(cl, op)|
  {
    hide OpBits, OpsBits, Follows;
    OpsBitsSnoc(cl, ops, op);
    FollowsSplit(s, p, OpsBits(cl, ops), OpBits(cl, op));
  }

  ghost predicate OpsWanted(cl: seq<nat>, ops: seq<LenOp>, ntot: nat, s: seq<bool>, p: nat) {
    && AllOpCodable(cl, ops) && Follows(s, p, OpsBits(cl, ops)) && p + |OpsBits(cl, ops)| + 16 <= |s|
    && ApplyAll(ops).Some? && |ApplyAll(ops).value| == ntot
  }

  lemma OpsStep(cl: seq<nat>, want: seq<LenOp>, m: nat, lens: seq<nat>, ntot: nat, s: seq<bool>, p: nat)
    requires OpsWanted(cl, want, ntot, s, p) && m <= |want| && ApplyAll(want[..m]) == Some(lens) && |lens| < ntot
    ensures m < |want| && AllOpCodable(cl, want[..m])
    ensures OpExpected(cl, Some(want[m]), s, p + |OpsBits(cl, want[..m])|)
    ensures Apply(lens, want[m]).Some? && |lens| + OpCount(want[m]) <= ntot
    ensures want[..m] + [want[m]] == want[..m + 1]
  {
    assert want[..|want|] == want;
    NextOp(cl, want, m, s, p);
    ApplyPrefix(want, m);
  }

  /** Reads operations until they have produced ntot lengths. */
  method ReadOps(a: ZBuf, z: Huffman, ntot: nat, ghost cl: seq<nat>, ghost want: seq<LenOp>)
      returns (lencodes: Option<seq<nat>>, ghost ops: seq<LenOp>)
    requires a.Valid() && z.Built(cl) && |cl| == 19
    modifies a`pos, a`num_bits, a`code_buffer, a`fetched
    ensures a.Valid()
    ensures lencodes.Some? ==>
      && AllOpCodable(cl, ops) && Follows(a.Stream(), old(a.BitPos()), OpsBits(cl, ops))
      && a.BitPos() == old(a.BitPos()) + |OpsBits(cl, ops)| && a.num_bits == OpsLeft(cl, ops, old(a.num_bits))
      && ApplyAll(ops) == lencodes && |lencodes.value| == ntot
    ensures OpsWanted(cl, want, ntot, a.Stream(), old(a.BitPos())) ==> lencodes.Some? && ops == want
  {
    hide ZBuf.Buffered, Huffman.Built, AllOpCodable, OpCodable, OpBits, OpsBits, Follows, ByteBits, ToBits, Window,
      OpExpected, OpsWanted, ApplyAll, OpsLeft, OpLeft;
    ghost var s, p := a.Stream(), a.BitPos();
    ghost var hope := OpsWanted(cl, want, ntot, s, p);
    var lens: seq<nat> := [];
    ops := [];
    NoOps(cl, s, p, a.num_bits);
    ghost var m := 0;
    while |lens| < ntot
      invariant a.Valid() && z.Built(cl) && |lens| <= ntot
      invariant AllOpCodable(cl, ops) && Follows(s, p, OpsBits(cl, ops))
      invariant a.BitPos() == p + |OpsBits(cl, ops)| && a.num_bits == OpsLeft(cl, ops, old(a.num_bits))
      invariant ApplyAll(ops) == Some(lens)
      invariant m == |ops| && (hope ==> m <= |want| && ops == want[..m])
    {
      if hope { OpsStep(cl, want, m, lens, ntot, s, p); } else { NoneExpected(cl, s, a.BitPos()); }
      ghost var next := if hope then Some(want[m]) else None;
      var o := ReadOp(a, z, cl, next);
      if o.None? { return None, ops; }
      var op := o.value;
      ApplySnoc(ops, op);
      OpsLeftSnoc(cl, ops, op, old(a.num_bits));
      OpsGrow(cl, ops, op, s, p);
      match op {
        case Len(c) =>
          lens := lens + [c];
        case Previous(_) =>
          if lens == [] { return None, ops; }
          if ntot - |lens| < OpCount(op) { return None, ops; }
          lens := lens + Repeat(lens[|lens| - 1], OpCount(op));
        case _ =>
          if ntot - |lens| < OpCount(op) { return None, ops; }
          lens := lens + Repeat(0, OpCount(op));
      }
      ops := ops + [op];
      m := m + 1;
    }
    if hope { OpsDone(cl, want, m, lens, ntot, s, p); }
    lencodes := Some(lens);
  }

  lemma OpsLeftSnoc(cl: seq<nat>, ops: seq<LenOp>, op: LenOp, n: nat)
    requires n <= 32
    ensures OpsLeft(cl, ops + [op], n) == OpLeft(cl, op, OpsLeft(cl, ops, n))
  {
    hide OpLeft;
    assert (ops + [op])[..|ops|] == ops;
  }

  lemma NoOps(cl: seq<nat>, s: seq<bool>, p: nat, n: nat)
    requires n <= 32
    ensures OpsLeft(cl, [], n) == n
    ensures AllOpCodable(cl, []) && OpsBits(cl, []) == [] && Follows(s, p, []) && ApplyAll([]) == Some([])
  {
  }

  lemma NoneExpected(cl: seq<nat>, s: seq<bool>, p: nat)
    ensures OpExpected(cl, None, s, p)
  {
  }

  lemma OpsDone(cl: seq<nat>, want: seq<LenOp>, m: nat, lens: seq<nat>, ntot: nat, s: seq<bool>, p: nat)
    requires OpsWanted(cl, want, ntot, s, p) && m <= |want| && ApplyAll(want[..m]) == Some(lens) && |lens| == ntot
    ensures want[..m] == want
  {
    ApplyPrefix(want, m);
  }

  // ----- the header

  lemma {:induction false} RawInjective(x: seq<nat>, y: seq<nat>)
    requires |x| == |y| && RawBits(x) == RawBits(y)
    requires (forall i :: 0 <= i < |x| ==> x[i] < 8) && (forall i :: 0 <= i < |y| ==> y[i] < 8)
    ensures x == y
  {
    if x != [] {
      var n := |x| - 1;
      var a, b, c, d := RawBits(x[..n]), ToBits(x[n], 3), RawBits(y[..n]), ToBits(y[n], 3);
      assert a == (a + b)[..3 * n] && c == (c + d)[..3 * n];
      assert b == (a + b)[3 * n..] && d == (c + d)[3 * n..];
      RawInjective(x[..n], y[..n]);
      assert Pow2(3) == 8;
      ToBitsInjective(x[n], y[n], 3);
      assert x == x[..n] + [x[n]] && y == y[..n] + [y[n]];
    }
  }

  lemma RawSnoc(raw: seq<nat>, x: nat, s: seq<bool>, p: nat)
    requires Follows(s, p, RawBits(raw)) && Follows(s, p + 3 * |raw|, ToBits(x, 3))
    ensures Follows(s, p, RawBits(raw + [x]))
  {
    hide ToBits, Follows, RawBits;
    RawBitsSnoc(raw, x);
    FollowsSplit(s, p, RawBits(raw), ToBits(x, 3));
  }

  lemma RawBitsSnoc(raw: seq<nat>, x: nat)
    ensures RawBits(raw + [x]) == RawBits(raw) + ToBits(x, 3)
  {
    hide ToBits;
    var r := raw + [x];
    assert r[..|r| - 1] == raw && r[|r| - 1] == x;
  }

  lemma PermutedSnoc(raw: seq<nat>, x: nat)
    requires |raw| < 19
    ensures Permuted(raw + [x]) == Permuted(raw)[Dezigzag(|raw|) := x]
  {
    hide Dezigzag, Repeat;
    assert (raw + [x])[..|raw|] == raw;
  }

  /** Reads n lengths of three bits into the places where the code length code wants them. */
  method ReadRaw(a: ZBuf, n: nat) returns (cl: seq<nat>, ghost raw: seq<nat>)
    requires a.Valid() && n <= 19
    modifies a`pos, a`num_bits, a`code_buffer, a`fetched
    ensures a.Valid() && a.BitPos() == old(a.BitPos()) + 3 * n && a.num_bits == RawLeft(n, old(a.num_bits))
    ensures |raw| == n && cl == Permuted(raw) && Follows(a.Stream(), old(a.BitPos()), RawBits(raw))
    ensures forall i :: 0 <= i < n ==> raw[i] < 8
  {
    hide ZBuf.Buffered, ByteBits, ToBits, Window, RawBits, Permuted, Follows;
    cl := Repeat(0, 19);
    raw := [];
    NoRaw(a.Stream(), a.BitPos());
    var i := 0;
    while i < n
      invariant a.Valid() && i == |raw| <= n && a.BitPos() == old(a.BitPos()) + 3 * i && a.num_bits == RawLeft(i, old(a.num_bits))
      invariant cl == Permuted(raw) && Follows(a.Stream(), old(a.BitPos()), RawBits(raw))
      invariant forall k :: 0 <= k < i ==> raw[k] < 8
    {
      ThreeBits();
      var x := ReadExtra(a, 3);
      RawSnoc(raw, x, a.Stream(), old(a.BitPos()));
      PermutedSnoc(raw, x);
      cl := cl[Dezigzag(i) := x];
      raw := raw + [x];
      i := i + 1;
    }
  }

  lemma NoRaw(s: seq<bool>, p: nat)
    ensures Permuted([]) == Repeat(0, 19) && Follows(s, p, RawBits([]))
  {
  }

  lemma ThreeBits()
    ensures Pow2(3) == 8 && Pow2(4) == 16 && Pow2(5) == 32
  {
  }

  lemma {:induction false} ApplyAllLengths(cl: seq<nat>, ops: seq<LenOp>)
    requires AllOpCodable(cl, ops) && ApplyAll(ops).Some?
    ensures ZLengths(ApplyAll(ops).value)
  {
    hide ZLengths, OpCodable, Apply;
    if ops == [] {
      NoLengths();
    } else {
      assert OpCodable(cl, ops[|ops| - 1]);
      OpsBitsPrefix(cl, ops, |ops| - 1);
      ApplyAllLengths(cl, ops[..|ops| - 1]);
      ApplyLengths(cl, ApplyAll(ops[..|ops| - 1]).value, ops[|ops| - 1]);
    }
  }

  lemma NoLengths()
    ensures ZLengths([])
  {
  }

  lemma ApplyLengths(cl: seq<nat>, lens: seq<nat>, op: LenOp)
    requires OpCodable(cl, op) && ZLengths(lens) && Apply(lens, op).Some?
    ensures ZLengths(Apply(lens, op).value)
  {
  }

  /** A header that the reader must accept. */
  ghost predicate HeaderWanted(h: Header, lens: seq<nat>, dlens: seq<nat>, s: seq<bool>, p: nat) {
    HeaderAt(h, lens, dlens, s, p) && p + HeaderSize(h) + 16 <= |s|
  }

  /** The counts of a wanted header are the ones read. */
  lemma WantedCounts(h: Header, lens: seq<nat>, dlens: seq<nat>, s: seq<bool>, p: nat, hlit: nat, hdist: nat, hclen: nat)
    requires HeaderWanted(h, lens, dlens, s, p)
    requires 257 <= hlit <= 288 && 1 <= hdist <= 32 && 4 <= hclen <= 19
    requires Follows(s, p, ToBits(hlit - 257, 5)) && Follows(s, p + 5, ToBits(hdist - 1, 5))
    requires Follows(s, p + 10, ToBits(hclen - 4, 4))
    ensures h.hlit == hlit && h.hdist == hdist && |h.raw| == hclen
  {
    hide ToBits, Follows;
    ThreeBits();
    SameNumber(hlit - 257, h.hlit - 257, 5, s, p);
    SameNumber(hdist - 1, h.hdist - 1, 5, s, p + 5);
    SameNumber(hclen - 4, |h.raw| - 4, 4, s, p + 10);
  }

  lemma WantedRaw(h: Header, lens: seq<nat>, dlens: seq<nat>, s: seq<bool>, p: nat, raw: seq<nat>)
    requires HeaderWanted(h, lens, dlens, s, p) && |raw| == |h.raw|
    requires Follows(s, p + 14, RawBits(raw)) && forall i :: 0 <= i < |raw| ==> raw[i] < 8
    ensures raw == h.raw && Kraft(Permuted(raw))
    ensures OpsWanted(Permuted(raw), h.ops, h.hlit + h.hdist, s, p + 14 + 3 * |raw|)
  {
    hide AllOpCodable, OpsBits, Follows, ToBits, ApplyAll, Permuted, Kraft;
    RawsAgree(s, p + 14, raw, h.raw);
    RawInjective(raw, h.raw);
  }

  lemma RawsAgree(s: seq<bool>, p: nat, x: seq<nat>, y: seq<nat>)
    requires |x| == |y| && Follows(s, p, RawBits(x)) && Follows(s, p, RawBits(y))
    ensures RawBits(x) == RawBits(y)
  {
  }

  method ReadCounts(a: ZBuf) returns (hlit: nat, hdist: nat, hclen: nat)
    requires a.Valid()
    modifies a`pos, a`num_bits, a`code_buffer, a`fetched
    ensures a.Valid() && a.BitPos() == old(a.BitPos()) + 14
    ensures a.num_bits == Taken(Taken(Taken(old(a.num_bits), 5), 5), 4)
    ensures 257 <= hlit <= 288 && 1 <= hdist <= 32 && 4 <= hclen <= 19
    ensures Follows(a.Stream(), old(a.BitPos()), ToBits(hlit - 257, 5))
    ensures Follows(a.Stream(), old(a.BitPos()) + 5, ToBits(hdist - 1, 5))
    ensures Follows(a.Stream(), old(a.BitPos()) + 10, ToBits(hclen - 4, 4))
  {
    hide ZBuf.Buffered, ByteBits, ToBits, Window, Follows, Refilled;
    ThreeBits();
    hlit := ReadExtra(a, 5);
    hdist := ReadExtra(a, 5);
    hclen := ReadExtra(a, 4);
    hlit, hdist, hclen := hlit + 257, hdist + 1, hclen + 4;
  }

  /** Reads the header of a dynamic block and builds the two codes it describes. */
  method ComputeHuffmanCodes(a: ZBuf, ghost want: Header, ghost wlens: seq<nat>, ghost wdlens: seq<nat>)
      returns (ok: bool, ghost h: Header, ghost lens: seq<nat>, ghost dlens: seq<nat>)
    requires a.Valid() && a.z_length != a.z_distance && a.z_length.Shape() && a.z_distance.Shape()
    modifies a`pos, a`num_bits, a`code_buffer, a`fetched, a.z_length, a.z_distance
    ensures a.Valid() && a.z_length.Shape() && a.z_distance.Shape()
    ensures ok ==>
      && HeaderAt(h, lens, dlens, a.Stream(), old(a.BitPos()))
      && a.BitPos() == old(a.BitPos()) + HeaderSize(h) && a.num_bits == HeaderLeft(h, old(a.num_bits))
      && a.z_length.Built(lens) && a.z_distance.Built(dlens)
    ensures HeaderWanted(want, wlens, wdlens, a.Stream(), old(a.BitPos())) ==>
      ok && h == want && lens == wlens && dlens == wdlens
  {
    hide ZBuf.Buffered, Huffman.Built, AllOpCodable, OpsBits, Follows, ByteBits, ToBits, Window, OpsWanted, ApplyAll,
      HeaderWanted, Permuted, RawBits, Kraft, Lengths, HeaderAt, OpsLeft, RawLeft, Taken;
    ghost var s, p := a.Stream(), a.BitPos();
    ghost var hope := HeaderWanted(want, wlens, wdlens, s, p);
    h, lens, dlens := Header(0, 0, [], []), [], [];
    var hlit, hdist, hclen := ReadCounts(a);
    if hope { WantedCounts(want, wlens, wdlens, s, p, hlit, hdist, hclen); }
    var cl;
    ghost var raw;
    cl, raw := ReadRaw(a, hclen);
    if hope { WantedRaw(want, wlens, wdlens, s, p, raw); }
    var z_codelength := new Huffman();
    PermutedLengths(raw);
    var built := z_codelength.Build(cl);
    if !built { return false, h, lens, dlens; }
    var lencodes;
    ghost var ops;
    lencodes, ops := ReadOps(a, z_codelength, hlit + hdist, cl, want.ops);
    if lencodes.None? { return false, h, lens, dlens; }
    h := Header(hlit, hdist, raw, ops);
    ApplyAllLengths(cl, ops);
    lens, dlens := lencodes.value[..hlit], lencodes.value[hlit..];
    HeaderRead(h, lens, dlens, lencodes.value, s, p);
    if hope { HeaderSame(want, wlens, wdlens, h, lens, dlens, s, p); }
    ok := BuildBoth(a, lencodes.value[..hlit], lencodes.value[hlit..]);
  }

  /** Builds both codes of a block. */
  method BuildBoth(a: ZBuf, lens: seq<nat>, dlens: seq<nat>) returns (ok: bool)
    requires a.z_length != a.z_distance && a.z_length.Shape() && a.z_distance.Shape()
    requires |lens| <= ZNSYMS && |dlens| <= ZNSYMS && ZLengths(lens) && ZLengths(dlens)
    modifies a.z_length, a.z_distance
    ensures a.z_length.Shape() && a.z_distance.Shape()
    ensures ok <==> Kraft(lens) && Kraft(dlens)
    ensures ok ==> a.z_length.Built(lens) && a.z_distance.Built(dlens)
  {
    hide ZBuf.Buffered, Kraft, Lengths;
    ok := a.z_length.Build(lens);
    if ok { ok := a.z_distance.Build(dlens); }
  }

  /** The parts read make up the header, if the two codes can be built. */
  lemma HeaderRead(h: Header, lens: seq<nat>, dlens: seq<nat>, all: seq<nat>, s: seq<bool>, p: nat)
    requires 257 <= h.hlit <= 288 && 1 <= h.hdist <= 32 && 4 <= |h.raw| <= 19
    requires forall i :: 0 <= i < |h.raw| ==> h.raw[i] < 8
    requires Kraft(Permuted(h.raw)) && AllOpCodable(Permuted(h.raw), h.ops) && HeaderFollows(h, s, p)
    requires ApplyAll(h.ops) == Some(all) && |all| == h.hlit + h.hdist && ZLengths(all)
    requires lens == all[..h.hlit] && dlens == all[h.hlit..]
    ensures Kraft(lens) && Kraft(dlens) ==> HeaderAt(h, lens, dlens, s, p)
    ensures ZLengths(lens) && ZLengths(dlens) && all == lens + dlens
  {
    hide AllOpCodable, OpsBits, Follows, ToBits, ApplyAll, Permuted, RawBits, Kraft;
    assert all == lens + dlens;
  }

  lemma HeaderSame(want: Header, wlens: seq<nat>, wdlens: seq<nat>, h: Header, lens: seq<nat>, dlens: seq<nat>, s: seq<bool>, p: nat)
    requires HeaderWanted(want, wlens, wdlens, s, p) && h == want
    requires |lens| == h.hlit && ApplyAll(h.ops) == Some(lens + dlens)
    ensures lens == wlens && dlens == wdlens && Kraft(lens) && Kraft(dlens)
  {
    hide AllOpCodable, OpsBits, Follows, ToBits, ApplyAll, Permuted, RawBits, Kraft;
    assert lens == (lens + dlens)[..h.hlit] == (wlens + wdlens)[..h.hlit] == wlens;
    assert dlens == (lens + dlens)[h.hlit..] == (wlens + wdlens)[h.hlit..] == wdlens;
  }
}
