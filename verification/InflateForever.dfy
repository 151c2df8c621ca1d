/** A stream that the inflater never comes to an end of: a stored block, and behind it a dynamic one whose
    two codes are all zeros. */
module InflateForever {
  import opened Bits
  import opened Canonical
  import opened ZHuffman
  import opened BitReader
  import opened Inflate
  import opened DynamicCodes
  import opened FixedCodes
  import opened Turns
  import opened InflateEnds
  import opened Zlib
  import opened Compress
  import opened RoundTrip
  import opened Wrappers

  // ----- the header of the dynamic block

  /** The code length code has two bits for each of 18, 10 and 1. */
  const RAW: seq<nat> := [0, 0, 2, 0, 0, 0, 0, 0, 2, 0, 0, 0, 0, 0, 0, 0, 0, 2]

  /** 286 zeros, a one; 28 zeros, a ten. */
  const OPS: seq<LenOp> := [ManyZeros(127), ManyZeros(126), ManyZeros(0), Len(1), ManyZeros(17), Len(10)]

  const HEADER := Header(287, 29, RAW, OPS)

  function Lens(): seq<nat> { Only(287, 286, 1) }

  function Dists(): seq<nat> { Only(29, 28, 10) }

  function CodeLength(i: nat): nat {
    if i == 1 || i == 10 || i == 18 then 2 else 0
  }

  lemma {:induction false} PermutedTo(n: nat)
    requires n <= 18
    ensures |RAW| == 18
    ensures var cl := Permuted(RAW[..n]);
      forall i :: 0 <= i < 19 ==> cl[i] == if (i == 18 && n > 2) || (i == 10 && n > 8) || (i == 1 && n > 17) then 2 else 0
  {
    if n > 0 {
      PermutedTo(n - 1);
      assert RAW[..n] == RAW[..n - 1] + [RAW[n - 1]];
      PermutedSnoc(RAW[..n - 1], RAW[n - 1]);
    }
  }

  lemma CodeLengths()
    ensures |RAW| == 18 && var cl := Permuted(RAW); forall i :: 0 <= i < 19 ==> cl[i] == CodeLength(i)
  {
    PermutedTo(18);
    assert RAW[..18] == RAW;
  }

  lemma {:induction false} CountTo(cl: seq<nat>, n: nat)
    requires |cl| == 19 && (forall i :: 0 <= i < 19 ==> cl[i] == CodeLength(i)) && n <= 19
    ensures Count(cl[..n], 2) == (if n > 1 then 1 else 0) + (if n > 10 then 1 else 0) + if n > 18 then 1 else 0
  {
    if n > 0 {
      CountTo(cl, n - 1);
      CountStep(cl, n - 1, 2);
    }
  }

  lemma RawKraft(cl: seq<nat>)
    requires |cl| == 19 && forall i :: 0 <= i < 19 ==> cl[i] == CodeLength(i)
    ensures Kraft(cl)
  {
    hide Count, Shl, First;
    CountTo(cl, 19);
    assert cl[..19] == cl;
    forall k: nat | k != 0 && k != 2 ensures Count(cl, k) == 0 { CountNone(cl, k); }
    NothingBefore(cl, 2);
    NothingAfter(cl, 2, 16);
    Pow2Values();
    ShlPow2(2, 14);
    ShlMono(3, 4, 14);
    assert Covered(cl, 2) == Covered(cl, 1) + Shl(Count(cl, 2), 14);
    assert Pow2(2) == 4;
  }

  // ----- what it describes

  lemma AppliedZeros(ops: seq<LenOp>, lens: seq<nat>, x: nat)
    requires ApplyAll(ops) == Some(lens)
    ensures ApplyAll(ops + [ManyZeros(x)]) == Some(lens + DynamicCodes.Repeat(0, 11 + x))
  {
    ApplySnoc(ops, ManyZeros(x));
  }

  lemma AppliedLen(ops: seq<LenOp>, lens: seq<nat>, c: nat)
    requires ApplyAll(ops) == Some(lens)
    ensures ApplyAll(ops + [Len(c)]) == Some(lens + [c])
  {
    ApplySnoc(ops, Len(c));
  }

  lemma Applied()
    ensures ApplyAll(OPS) == Some(Lens() + Dists())
  {
    hide ApplyAll;
    var a, b, c := DynamicCodes.Repeat(0, 138), DynamicCodes.Repeat(0, 137), DynamicCodes.Repeat(0, 11);
    var d := DynamicCodes.Repeat(0, 28);
    NothingApplied();
    AppliedZeros([], [], 127);
    AppliedZeros([] + [ManyZeros(127)], [] + a, 126);
    AppliedZeros([] + [ManyZeros(127)] + [ManyZeros(126)], [] + a + b, 0);
    AppliedLen([] + [ManyZeros(127)] + [ManyZeros(126)] + [ManyZeros(0)], [] + a + b + c, 1);
    AppliedZeros([] + [ManyZeros(127)] + [ManyZeros(126)] + [ManyZeros(0)] + [Len(1)], [] + a + b + c + [1], 17);
    AppliedLen([] + [ManyZeros(127)] + [ManyZeros(126)] + [ManyZeros(0)] + [Len(1)] + [ManyZeros(17)], [] + a + b + c + [1] + d, 10);
    assert OPS == [] + [ManyZeros(127)] + [ManyZeros(126)] + [ManyZeros(0)] + [Len(1)] + [ManyZeros(17)] + [Len(10)];
    assert [] + a + b + c + [1] == Lens();
    assert d + [10] == Dists();
    assert [] + a + b + c + [1] + d + [10] == Lens() + Dists();
  }

  lemma NothingApplied()
    ensures ApplyAll([]) == Some([])
  {
  }

  lemma HeaderIsOk()
    ensures HeaderOk(HEADER, Lens(), Dists()) && Readable(HEADER, Lens(), Dists())
  {
    hide ApplyAll, Permuted, Kraft, Only, Fits;
    CodeLengths();
    RawKraft(Permuted(RAW));
    Applied();
    OnlyIsZero(287, 286, 1);
    OnlyIsZero(29, 28, 10);
    FitsIsKraft(Lens());
    FitsIsKraft(Dists());
    OpsCodable();
  }

  lemma OpsCodable()
    ensures AllOpCodable(Permuted(RAW), OPS)
  {
    hide Permuted;
    CodeLengths();
    assert Pow2(7) == 128 && Pow2(0) == 1;
  }

  // ----- its bits

  lemma {:induction false} OpsSize(cl: seq<nat>, ops: seq<LenOp>)
    requires AllOpCodable(cl, ops) && |cl| == 19 && (forall i :: 0 <= i < 19 ==> cl[i] == CodeLength(i))
    ensures |OpsBits(cl, ops)| == OpsLength(ops)
    decreases |ops|
  {
    hide OpCodable, OpBits;
    if ops != [] {
      var n := |ops| - 1;
      OpsBitsPrefix(cl, ops, n);
      OpsSize(cl, ops[..n]);
      assert OpCodable(cl, ops[n]);
      OpSize(cl, ops[n]);
    }
  }

  lemma OpSize(cl: seq<nat>, op: LenOp)
    requires OpCodable(cl, op) && |cl| == 19 && (forall i :: 0 <= i < 19 ==> cl[i] == CodeLength(i))
    ensures |OpBits(cl, op)| == 2 + OpExtra(op)
  {
    hide CodeBits, ToBits;
  }

  function OpsLength(ops: seq<LenOp>): nat {
    if ops == [] then 0 else OpsLength(ops[..|ops| - 1]) + 2 + OpExtra(ops[|ops| - 1])
  }

  lemma OneOp(cl: seq<nat>, ops: seq<LenOp>, op: LenOp, n: nat)
    requires |cl| == 19 && (forall i :: 0 <= i < 19 ==> cl[i] == CodeLength(i)) && n <= 32
    requires OpSymbol(op) < 19 && CodeLength(OpSymbol(op)) == 2
    ensures OpsLength(ops + [op]) == OpsLength(ops) + 2 + OpExtra(op)
    ensures OpsLeft(cl, ops + [op], n) == Taken(Refilled(OpsLeft(cl, ops, n), 16) - 2, OpExtra(op))
  {
    hide OpsLeft;
    assert (ops + [op])[..|ops|] == ops;
    OpsLeftSnoc(cl, ops, op, n);
  }

  /** The operations take 40 bits, and of 17 bits before them they leave as many. */
  lemma OpsTake(cl: seq<nat>)
    requires |cl| == 19 && (forall i :: 0 <= i < 19 ==> cl[i] == CodeLength(i))
    ensures OpsLength(OPS) == 40 && OpsLeft(cl, OPS, 17) == 17
  {
    hide OpsLeft, OpsLength, OpLeft;
    Filling();
    NoOps(cl, [], 0, 17);
    NoLength();
    OneOp(cl, [], ManyZeros(127), 17);
    OneOp(cl, [] + [ManyZeros(127)], ManyZeros(126), 17);
    OneOp(cl, [] + [ManyZeros(127)] + [ManyZeros(126)], ManyZeros(0), 17);
    OneOp(cl, [] + [ManyZeros(127)] + [ManyZeros(126)] + [ManyZeros(0)], Len(1), 17);
    OneOp(cl, [] + [ManyZeros(127)] + [ManyZeros(126)] + [ManyZeros(0)] + [Len(1)], ManyZeros(17), 17);
    OneOp(cl, [] + [ManyZeros(127)] + [ManyZeros(126)] + [ManyZeros(0)] + [Len(1)] + [ManyZeros(17)], Len(10), 17);
    assert OPS == [] + [ManyZeros(127)] + [ManyZeros(126)] + [ManyZeros(0)] + [Len(1)] + [ManyZeros(17)] + [Len(10)];
  }

  lemma Filling()
    ensures Filled(0) == 32 && Filled(2) == 26 && Filled(8) == 32 && Filled(14) == 30
  {
    assert Filled(24) == 32 && Filled(16) == 32;
    assert Filled(22) == 30 && Filled(18) == 26;
    assert Filled(10) == 26;
  }

  lemma NoLength()
    ensures OpsLength([]) == 0
  {
  }

  lemma SizeOfHeader()
    ensures AllOpCodable(Permuted(RAW), OPS) && HeaderSize(HEADER) == 108
  {
    hide Permuted, OpsBits, AllOpCodable, OpsLength;
    OpsCodable();
    CodeLengths();
    OpsSize(Permuted(RAW), OPS);
    OpsTake(Permuted(RAW));
  }

  lemma {:induction false} RawSteps(k: nat, n: nat)
    requires 3 * k <= n <= 32
    ensures RawLeft(k, n) == n - 3 * k
    decreases k
  {
    if k > 0 { RawSteps(k - 1, n); }
  }

  lemma {:induction false} RawOn(j: nat, k: nat, n: nat)
    requires n <= 32
    ensures RawLeft(j + k, n) == RawLeft(k, RawLeft(j, n))
    decreases k
  {
    hide Taken;
    if k > 0 { RawOn(j, k - 1, n); }
  }

  lemma RawRefills(n: nat)
    requires n < 3
    ensures RawLeft(1, n) == Filled(n) - 3
  {
    hide Filled;
    assert RawLeft(0, n) == n;
  }

  /** The 18 lengths: five from the buffer, ten after a refill, three after another. */
  lemma RawTakes()
    ensures RawLeft(18, 15) == 17
  {
    hide RawLeft, Filled;
    Filling();
    RawSteps(5, 15);
    RawOn(5, 1, 15);
    RawRefills(0);
    RawOn(6, 9, 15);
    RawSteps(9, 29);
    RawOn(15, 1, 15);
    RawRefills(2);
    RawOn(16, 2, 15);
    RawSteps(2, 23);
  }

  /** With 29 bits buffered before the header, 17 are behind it. */
  lemma HeaderLeaves()
    ensures |RAW| == 18 && HeaderLeft(HEADER, 29) == 17
  {
    hide Permuted, OpsLeft, RawLeft;
    CodeLengths();
    OpsTake(Permuted(RAW));
    RawTakes();
  }

  // ----- the stream

  /** The bits as bytes. */
  function Packed(bits: seq<bool>): (z: seq<byte>)
    requires |bits| % 8 == 0
    ensures 8 * |z| == |bits|
  {
    if bits == [] then [] else
      var n := |bits| - 8;
      ToFromBits(bits[n..]);
      Pow2Values();
      Packed(bits[..n]) + [FromBits(bits[n..])]
  }

  lemma {:induction false} PackedBits(bits: seq<bool>)
    requires |bits| % 8 == 0
    ensures ByteBits(Packed(bits)) == bits
  {
    hide ToBits, FromBits, ByteBits;
    if bits != [] {
      var n := |bits| - 8;
      PackedBits(bits[..n]);
      ToFromBits(bits[n..]);
      Pow2Values();
      ByteBitsAppend(Packed(bits[..n]), [FromBits(bits[n..])]);
      ByteBitsOne(FromBits(bits[n..]));
      assert bits[..n] + bits[n..] == bits;
    } else {
      assert ByteBits([]) == [];
    }
  }

  /** The header as it stands in the stream. */
  ghost function HeaderBits(): (s: seq<bool>)
    ensures |s| == 108
  {
    SizeOfHeader();
    CodeLengths();
    ToBits(30, 5) + (ToBits(28, 5) + (ToBits(14, 4) + (RawBits(RAW) + OpsBits(Permuted(RAW), OPS))))
  }

  /** The dynamic block: its type, its header, and 17 zeros that fill up the last byte and two more. */
  ghost function LastBits(): (s: seq<bool>)
    ensures |s| == 128
  {
    SizeOfHeader();
    ToBits(1, 1) + (ToBits(2, 2) + (HeaderBits() + MoreZeros()))
  }

  function MoreZeros(): (s: seq<bool>)
    ensures |s| == 17
  {
    seq(17, i => false)
  }

  /** The zlib header, the data stored, and the dynamic block. */
  ghost function Forever(data: seq<byte>): seq<byte> {
    ZLIB_HEADER + [0, 0x01, 0x40, 0xFE, 0xBF] + data + Packed(LastBits())
  }

  lemma SplitHeader(s: seq<bool>, p: nat)
    requires Follows(s, p, HeaderBits())
    ensures AllOpCodable(Permuted(RAW), OPS) && HeaderFollows(HEADER, s, p)
  {
    hide ToBits, RawBits, OpsBits, Permuted, Follows, AllOpCodable;
    OpsCodable();
    CodeLengths();
    var d, e := RawBits(RAW), OpsBits(Permuted(RAW), OPS);
    var a, b, c := ToBits(30, 5), ToBits(28, 5), ToBits(14, 4);
    FollowsSplit(s, p, a, b + (c + (d + e)));
    FollowsSplit(s, p + 5, b, c + (d + e));
    FollowsSplit(s, p + 10, c, d + e);
    FollowsSplit(s, p + 14, d, e);
  }

  /** The dynamic block stands behind whatever comes before. */
  lemma BlockStands(front: seq<byte>, tail: seq<byte>)
    requires ByteBits(tail) == LastBits()
    ensures var s, p := ByteBits(front + tail), 8 * |front|;
      && |s| == p + 128 && Follows(s, p + 1, ToBits(2, 2)) && Follows(s, p + 3, HeaderBits()) && Silent(s, p + 111)
  {
    hide ToBits, HeaderBits, Follows;
    var s, p := ByteBits(front + tail), 8 * |front|;
    ByteBitsAppend(front, tail);
    var bits := LastBits();
    assert Follows(s, p, bits) by { Behind(ByteBits(front), bits); }
    var c, d := HeaderBits(), MoreZeros();
    FollowsSplit(s, p, ToBits(1, 1), ToBits(2, 2) + (c + d));
    FollowsSplit(s, p + 1, ToBits(2, 2), c + d);
    FollowsSplit(s, p + 3, c, d);
    EndsSilent(s, p + 111);
  }

  lemma Behind(a: seq<bool>, b: seq<bool>)
    ensures Follows(a + b, |a|, b)
  {
    assert a + b == a + b + [];
    FollowsInside(a, b, []);
  }

  lemma EndsSilent(s: seq<bool>, p: nat)
    requires Follows(s, p, MoreZeros()) && |s| == p + 17
    ensures Silent(s, p)
  {
    forall k: nat | k >= p ensures !BitAt(s, k) {
      if k < p + 17 { assert Window(s, p, 17)[k - p] == BitAt(s, k); }
    }
  }

  /** The bytes before it hold the stored block. */
  lemma FrontIsStored(data: seq<byte>)
    requires |data| == 16385
    ensures HeaderBytesOk(Forever(data)) && |Forever(data)| == 16408
    ensures BlockAt(Forever(data), Stored(data), false, 16, 131136)
  {
    hide LastBits, Packed, BlockAt, HeaderBytesOk;
    var z := Forever(data);
    assert z[7..7 + 16385] == data == data[0..16385];
    assert Chunk(z, 2, data, 0, 16385, false);
    ChunkIsBlock(z, 2, data, 0, 16385, false);
    HeaderBytes(z);
  }

  /** Behind it the reader has put out 16385 bytes. */
  lemma AfterStored(data: seq<byte>)
    requires |data| == 16385
    ensures AfterBlocks(Forever(data), [Stored(data)]) == Place(131136, 0, 16385)
  {
    hide Forever;
    var z := Forever(data);
    assert [Stored(data)][..0] == [];
    assert AfterBlocks(z, []) == Place(16, 0, 0);
    assert NextByte(19) == 3;
  }

  /** At the loop over the dynamic block it has 17 bits in its buffer. */
  lemma LoopHere()
    ensures Readable(HEADER, Lens(), Dists()) && TypePast(Place(131136, 0, 16385)).p == 131139
    ensures LoopStart(HEADER, TypePast(Place(131136, 0, 16385))) == Place(131247, 17, 16385)
  {
    hide Permuted, HeaderSize, HeaderLeft, AllOpCodable;
    HeaderIsOk();
    SizeOfHeader();
    HeaderLeaves();
    assert Taken(Taken(0, 1), 2) == 29;
  }

  /** These are zeros, and no bytes are left: the loop never ends. */
  lemma EndlessThere(s: seq<bool>)
    requires |s| == 131264 && Follows(s, 131139, HeaderBits()) && Silent(s, 131247)
    ensures Readable(HEADER, Lens(), Dists()) && HeaderAt(HEADER, Lens(), Dists(), s, 131139)
    ensures !Terminates(Lens(), Dists(), s, LoopStart(HEADER, TypePast(Place(131136, 0, 16385))))
    ensures HeaderWanted(HEADER, Lens(), Dists(), s, 131139)
  {
    hide Permuted, HeaderBits, Only, Terminates, LoopStart, Follows, HeaderOk, HeaderFollows, HeaderSize, Silent, TypePast,
      Readable;
    HeaderIsOk();
    LoopHere();
    SizeOfHeader();
    SplitHeader(s, 131139);
    NeverEnds(s, Place(131247, 17, 16385));
  }

  /** A valid block and behind it one that is endless: the inflater does not come to an end. */
  lemma NeverInflated(data: seq<byte>)
    requires |data| == 16385
    ensures WantedEndless(Forever(data), [Stored(data)], [16, 131136], Some(Dynamic(HEADER, Lens(), Dists(), [])))
  {
    hide Permuted, HeaderBits, Only, BlockAt, Terminates, LastBits, Packed, LoopStart, AfterBlocks, HeaderBytesOk, ByteBits,
      Follows, HeaderAt, HeaderWanted, Silent, TypePast, Readable, ReplayBlocks;
    var z := Forever(data);
    FrontIsStored(data);
    AfterStored(data);
    LoopHere();
    PackedBits(LastBits());
    BlockStands(ZLIB_HEADER + [0, 0x01, 0x40, 0xFE, 0xBF] + data, Packed(LastBits()));
    EndlessThere(ByteBits(z));
    OneStored(data);
  }

  lemma OneStored(data: seq<byte>)
    ensures ReplayBlocks([], [Stored(data)]).Some?
  {
    OneBlock(Stored(data));
  }
}
