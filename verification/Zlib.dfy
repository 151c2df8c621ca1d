/** Whole zlib streams: the blocks of RFC 1951 inside the wrapper of RFC 1950. */
module Zlib {
  import opened Bits
  import opened Canonical
  import opened ZHuffman
  import opened BitReader
  import opened Deflate
  import opened Inflate
  import opened FixedCodes
  import opened DynamicCodes
  import opened InflateEnds
  import opened Turns
  import opened Wrappers

  datatype Block =
    | Stored(data: seq<byte>)
    | Fixed(ts: seq<Token>)
    | Dynamic(h: Header, lens: seq<nat>, dlens: seq<nat>, ts: seq<Token>)

  function BlockType(b: Block): nat {
    match b
    case Stored(_) => 0
    case Fixed(_) => 1
    case Dynamic(_, _, _, _) => 2
  }

  /** The bits from p to q of the bytes z are the block. */
  ghost predicate BlockAt(z: seq<byte>, b: Block, final: bool, p: nat, q: nat) {
    var s := ByteBits(z);
    && Follows(s, p, ToBits(if final then 1 else 0, 1))
    && Follows(s, p + 1, ToBits(BlockType(b), 2))
    && BodyAt(z, b, p + 3, q)
  }

  ghost predicate BodyAt(z: seq<byte>, b: Block, p: nat, q: nat) {
    match b
    case Stored(data) =>
      var i := NextByte(p);
      StoredAt(z, i) && data == z[i + 4..i + 4 + StoredLen(z, i)] && q == 8 * (i + 4 + StoredLen(z, i))
    case Fixed(ts) => CodedAt(z, FixedLens(), FixedDists(), ts, p, q)
    case Dynamic(h, lens, dlens, ts) =>
      HeaderAt(h, lens, dlens, ByteBits(z), p) && CodedAt(z, lens, dlens, ts, p + HeaderSize(h), q)
  }

  ghost predicate CodedAt(z: seq<byte>, lens: seq<nat>, dlens: seq<nat>, ts: seq<Token>, p: nat, q: nat) {
    BlockFollows(lens, dlens, ts, ByteBits(z), p) && q == p + |TokensBits(lens, dlens, ts)| + lens[END_OF_BLOCK]
  }

  /** The blocks stand one after the other from ps[0] on, and the last one is marked final. */
  ghost predicate BlocksAt(z: seq<byte>, bs: seq<Block>, ps: seq<nat>) {
    && 1 <= |bs| && |ps| == |bs| + 1
    && forall i :: 0 <= i < |bs| ==> BlockAt(z, bs[i], i == |bs| - 1, ps[i], ps[i + 1])
  }

  function ReplayBlock(out: seq<byte>, b: Block): Option<seq<byte>> {
    match b
    case Stored(data) => Some(out + data)
    case Fixed(ts) => ReplayAll(out, ts)
    case Dynamic(_, _, _, ts) => ReplayAll(out, ts)
  }

  function ReplayBlocks(out: seq<byte>, bs: seq<Block>): Option<seq<byte>> {
    if bs == [] then Some(out)
    else
      var before := ReplayBlocks(out, bs[..|bs| - 1]);
      if before.None? then None else ReplayBlock(before.value, bs[|bs| - 1])
  }

  ghost predicate ReservedBlock(b: Block) {
    !b.Stored? && Reserved(b.ts)
  }

  ghost predicate ReservedBlocks(bs: seq<Block>) {
    exists i :: 0 <= i < |bs| && ReservedBlock(bs[i])
  }

  /** What a block makes of the output, whether it has reserved distance symbols or not. */
  ghost predicate BlockMakes(before: seq<byte>, b: Block, after: seq<byte>) {
    match b
    case Stored(data) => after == before + data
    case Fixed(ts) => Realizes(before, ts, after)
    case Dynamic(_, _, _, ts) => Realizes(before, ts, after)
  }

  ghost predicate BlocksMake(out: seq<byte>, bs: seq<Block>, after: seq<byte>)
    decreases |bs|
  {
    if bs == [] then after == out
    else
      var n := |bs| - 1;
      exists mid: seq<byte> {:trigger BlockMakes(mid, bs[n], after)} :: BlocksMake(out, bs[..n], mid) && BlockMakes(mid, bs[n], after)
  }

  lemma BlockIsReplay(before: seq<byte>, b: Block, after: seq<byte>)
    requires !ReservedBlock(b)
    ensures BlockMakes(before, b, after) <==> ReplayBlock(before, b) == Some(after)
  {
    hide Realizes, ReplayAll, Reserved;
    if !b.Stored? { RealizesIsReplay(before, b.ts, after); }
  }

  lemma FrontReserved(bs: seq<Block>, n: nat)
    requires n <= |bs| && ReservedBlocks(bs[..n])
    ensures ReservedBlocks(bs)
  {
    var i :| 0 <= i < n && ReservedBlock(bs[..n][i]);
    assert bs[i] == bs[..n][i];
  }

  /** Without reserved distance symbols it is the replay of the blocks. */
  lemma {:induction false} BlocksAreReplay(out: seq<byte>, bs: seq<Block>, after: seq<byte>)
    requires !ReservedBlocks(bs)
    ensures BlocksMake(out, bs, after) <==> ReplayBlocks(out, bs) == Some(after)
    decreases |bs|
  {
    hide BlockMakes, ReplayBlock, ReservedBlock;
    if bs != [] {
      var n := |bs| - 1;
      var front, b := bs[..n], bs[n];
      if ReservedBlocks(front) { FrontReserved(bs, n); }
      if mid: seq<byte> :| BlocksMake(out, front, mid) && BlockMakes(mid, b, after) {
        BlocksAreReplay(out, front, mid);
        BlockIsReplay(mid, b, after);
      }
      var r := ReplayBlocks(out, front);
      if r.Some? && ReplayBlock(r.value, b) == Some(after) {
        BlocksAreReplay(out, front, r.value);
        BlockIsReplay(r.value, b, after);
      }
    }
  }

  /** The zlib header the reader accepts. */
  predicate HeaderBytesOk(z: seq<byte>) {
    && |z| >= 3
    && z[0] % 16 == 8
    && Le16(z[1], z[0]) % 31 == 0
    && !Bit(z[1], 5)
  }

  /** The two bytes of section 2.2 of RFC 1950: the method is 8, deflate, no dictionary is asked for, and both
      together are a multiple of 31. */
  lemma HeaderRule(z: seq<byte>)
    ensures HeaderBytesOk(z) <==>
      |z| >= 3 && z[0] % 16 == 8 && (z[1] / 32) % 2 == 0 && (256 * z[0] as int + z[1] as int) % 31 == 0
  {
    if |z| >= 2 { BitFive(z[1]); }
  }

  lemma BitFive(x: nat)
    ensures Bit(x, 5) <==> (x / 32) % 2 == 1
  {
    var y := x / 2 / 2 / 2 / 2;
    assert Bit(x, 5) == Bit(x / 2 / 2, 3) == Bit(y, 1) == Bit(y / 2, 0);
    assert x / 32 == y / 2;
  }

  /** A block that the reader must accept. */
  ghost predicate WantedBlock(z: seq<byte>, b: Block, final: bool, p: nat, q: nat) {
    BlockAt(z, b, final, p, q) && (!b.Stored? ==> q + 16 <= 8 * |z|)
  }

  // ----- where the reader stands

  /** Behind the three bits that every block begins with. */
  function TypePast(at: Place): (r: Place)
    requires at.n <= 32
    ensures r.n <= 30
  {
    Place(at.p + 3, Taken(Taken(at.n, 1), 2), at.size)
  }

  /** Behind the header of a dynamic block. */
  ghost function LoopStart(h: Header, at: Place): (r: Place)
    requires |h.raw| <= 19 && AllOpCodable(Permuted(h.raw), h.ops) && at.n <= 32
    ensures r.n <= 32
  {
    Place(at.p + HeaderSize(h), HeaderLeft(h, at.n), at.size)
  }

  ghost function LoopEnd(z: seq<byte>, lens: seq<nat>, dlens: seq<nat>, at: Place): (r: Place)
    requires Codes(lens, dlens) && at.n <= 32
    ensures r.n <= 32
  {
    EndPlace(lens, dlens, ByteBits(z), at, 8 * |z| + ROUNDS)
  }

  ghost predicate Readable(h: Header, lens: seq<nat>, dlens: seq<nat>) {
    Codes(lens, dlens) && |h.raw| <= 19 && AllOpCodable(Permuted(h.raw), h.ops)
  }

  /** Behind a block that is read from there. */
  ghost function AfterBody(z: seq<byte>, b: Block, at: Place): (r: Place)
    requires at.n <= 32
    ensures r.n <= 32
  {
    match b
    case Stored(data) => Place(8 * (NextByte(at.p) + 4 + |data|), 0, at.size + |data|)
    case Fixed(_) => FixedKraft(); LoopEnd(z, FixedLens(), FixedDists(), at)
    case Dynamic(h, lens, dlens, _) => if Readable(h, lens, dlens) then LoopEnd(z, lens, dlens, LoopStart(h, at)) else at
  }

  ghost function AfterBlocks(z: seq<byte>, bs: seq<Block>): (r: Place)
    ensures r.n <= 32
    decreases |bs|
  {
    if bs == [] then Place(16, 0, 0) else AfterBody(z, bs[|bs| - 1], TypePast(AfterBlocks(z, bs[..|bs| - 1])))
  }

  // ----- endless blocks

  /** The header there gives codes with which the loop, from behind it, goes on for ever. */
  ghost predicate EndlessBody(z: seq<byte>, h: Header, lens: seq<nat>, dlens: seq<nat>, at: Place)
    requires at.n <= 32
  {
    && Readable(h, lens, dlens) && HeaderAt(h, lens, dlens, ByteBits(z), at.p)
    && !Terminates(lens, dlens, ByteBits(z), LoopStart(h, at))
  }

  ghost predicate EndlessHere(z: seq<byte>, at: Place)
    requires at.n <= 32
  {
    exists h, lens, dlens :: EndlessBody(z, h, lens, dlens, at)
  }

  /** A dynamic block there is endless. */
  ghost predicate EndlessAt(z: seq<byte>, at: Place)
    requires at.n <= 32
  {
    Follows(ByteBits(z), at.p + 1, ToBits(2, 2)) && EndlessHere(z, TypePast(at))
  }

  /** The same, and the reader must accept its header. */
  ghost predicate EndlessWanted(z: seq<byte>, h: Header, lens: seq<nat>, dlens: seq<nat>, at: Place)
    requires at.n <= 32
  {
    && Follows(ByteBits(z), at.p + 1, ToBits(2, 2))
    && EndlessBody(z, h, lens, dlens, TypePast(at)) && HeaderWanted(h, lens, dlens, ByteBits(z), at.p + 3)
  }

  /** Only a block whose code of zeros is a length symbol can be endless, once the input is used up. */
  lemma EndlessIsStuck(z: seq<byte>, h: Header, lens: seq<nat>, dlens: seq<nat>, at: Place)
    requires at.n <= 32 && EndlessBody(z, h, lens, dlens, at)
    ensures !NoZeroLength(lens) && Runs(lens, dlens, ByteBits(z), LoopStart(h, at), 8 * |z|).None?
    ensures Stuck(lens, dlens, After(lens, dlens, ByteBits(z), LoopStart(h, at), 8 * |z|))
  {
    hide Runs, After, ByteBits, HeaderAt, LoopStart;
    EndsExactly(lens, dlens, ByteBits(z), LoopStart(h, at));
  }

  // ----- the blocks

  method ParseBody(a: ZBuf, type_: nat, ghost want: Block, ghost q: nat)
      returns (ok: bool, ended: bool, ghost b: Block)
    requires a.Valid() && a.num_bits <= 30 && type_ <= 3
    requires a.z_length != a.z_distance && a.z_length.Shape() && a.z_distance.Shape()
    modifies a`pos, a`num_bits, a`code_buffer, a`fetched, a`zout, a.z_length, a.z_distance
    ensures a.Valid() && a.z_length.Shape() && a.z_distance.Shape()
    ensures !ended ==> !ok && type_ == 2 && EndlessHere(a.zbuffer, Place(old(a.BitPos()), old(a.num_bits), old(|a.zout|)))
    ensures ok ==>
      && BlockType(b) == type_ && BodyAt(a.zbuffer, b, old(a.BitPos()), a.BitPos())
      && BlockMakes(old(a.zout), b, a.zout)
      && Place(a.BitPos(), a.num_bits, |a.zout|) == AfterBody(a.zbuffer, b, Place(old(a.BitPos()), old(a.num_bits), old(|a.zout|)))
    ensures
      (&& BodyAt(a.zbuffer, want, old(a.BitPos()), q) && BlockType(want) == type_
       && (!want.Stored? ==> q + 16 <= 8 * |a.zbuffer|)
       && ReplayBlock(old(a.zout), want).Some?)
      ==> ok && b == want && q == a.BitPos() && ReplayBlock(old(a.zout), want) == Some(a.zout)
    ensures want.Dynamic? && type_ == 2 && HeaderWanted(want.h, want.lens, want.dlens, a.Stream(), old(a.BitPos()))
      && EndlessBody(a.zbuffer, want.h, want.lens, want.dlens, Place(old(a.BitPos()), old(a.num_bits), old(|a.zout|)))
      ==> !ended
  {
    hide ZBuf.Buffered, BodyAt, ReplayBlock, BlockMakes, Follows, ByteBits, Pow2, AfterBody, EndlessBody, EndlessHere,
      HeaderWanted;
    ghost var p, before := a.BitPos(), a.zout;
    b, ended := Stored([]), true;
    if type_ == 0 {
      ok, b := ParseStored(a, want, q);
    } else if type_ == 3 {
      WantedType(want);
      ok := false;
    } else if type_ == 1 {
      ok, b := ParseFixed(a, want, q);
    } else {
      ok, ended, b := ParseDynamic(a, want, q);
    }
  }

  lemma WantedType(b: Block)
    ensures BlockType(b) < 3
  {
  }

  method ParseStored(a: ZBuf, ghost want: Block, ghost q: nat) returns (ok: bool, ghost b: Block)
    requires a.Valid() && a.num_bits <= 30
    modifies a`pos, a`num_bits, a`code_buffer, a`fetched, a`zout
    ensures a.Valid()
    ensures ok ==>
      && b.Stored? && BodyAt(a.zbuffer, b, old(a.BitPos()), a.BitPos())
      && BlockMakes(old(a.zout), b, a.zout)
      && Place(a.BitPos(), a.num_bits, |a.zout|) == AfterBody(a.zbuffer, b, Place(old(a.BitPos()), old(a.num_bits), old(|a.zout|)))
    ensures want.Stored? && BodyAt(a.zbuffer, want, old(a.BitPos()), q) ==>
      ok && b == want && q == a.BitPos() && ReplayBlock(old(a.zout), want) == Some(a.zout)
  {
    hide ZBuf.Buffered, ByteBits, ToBits, Window, Pow2, NextByte, StoredLen, StoredAt;
    ghost var i := NextByte(a.BitPos());
    b := Stored([]);
    ok := ParseUncompressedBlock(a);
    if ok {
      StoredInside(a.zbuffer, i);
      b := Stored(a.zbuffer[i + 4..i + 4 + StoredLen(a.zbuffer, i)]);
    }
  }

  lemma StoredInside(z: seq<byte>, i: nat)
    requires StoredAt(z, i)
    ensures i + 4 + StoredLen(z, i) <= |z|
  {
  }

  method ParseFixed(a: ZBuf, ghost want: Block, ghost q: nat) returns (ok: bool, ghost b: Block)
    requires a.Valid() && a.z_length != a.z_distance && a.z_length.Shape() && a.z_distance.Shape()
    modifies a`pos, a`num_bits, a`code_buffer, a`fetched, a`zout, a.z_length, a.z_distance
    ensures a.Valid() && a.z_length.Shape() && a.z_distance.Shape()
    ensures ok ==>
      && b.Fixed? && BodyAt(a.zbuffer, b, old(a.BitPos()), a.BitPos())
      && BlockMakes(old(a.zout), b, a.zout)
      && Place(a.BitPos(), a.num_bits, |a.zout|) == AfterBody(a.zbuffer, b, Place(old(a.BitPos()), old(a.num_bits), old(|a.zout|)))
    ensures
      (&& want.Fixed? && BodyAt(a.zbuffer, want, old(a.BitPos()), q)
       && q + 16 <= 8 * |a.zbuffer| && ReplayBlock(old(a.zout), want).Some?)
      ==> ok && b == want && q == a.BitPos() && ReplayBlock(old(a.zout), want) == Some(a.zout)
  {
    hide ZBuf.Buffered, Huffman.Built, AllCodable, TokensBits, Follows, ByteBits, ToBits, Window, ReplayAll, Kraft, FixedLens,
      FixedDists, Realizes, EndFollows, Pow2, Lengths;
    FixedKraft();
    ok := BuildBoth(a, FixedLens(), FixedDists());
    ghost var ts := if want.Fixed? then want.ts else [];
    FixedBlocksEnd();
    EndsAnyway(FixedLens(), FixedDists(), a.Stream(), Place(a.BitPos(), a.num_bits, |a.zout|));
    var ended;
    ok, ended, ts := ParseHuffmanBlock(a, FixedLens(), FixedDists(), ts);
    assert ended;
    b := Fixed(ts);
  }

  method ParseDynamic(a: ZBuf, ghost want: Block, ghost q: nat) returns (ok: bool, ended: bool, ghost b: Block)
    requires a.Valid() && a.z_length != a.z_distance && a.z_length.Shape() && a.z_distance.Shape()
    modifies a`pos, a`num_bits, a`code_buffer, a`fetched, a`zout, a.z_length, a.z_distance
    ensures a.Valid() && a.z_length.Shape() && a.z_distance.Shape()
    ensures !ended ==> !ok && EndlessHere(a.zbuffer, Place(old(a.BitPos()), old(a.num_bits), old(|a.zout|)))
    ensures ok ==>
      && b.Dynamic? && BodyAt(a.zbuffer, b, old(a.BitPos()), a.BitPos())
      && BlockMakes(old(a.zout), b, a.zout)
      && Place(a.BitPos(), a.num_bits, |a.zout|) == AfterBody(a.zbuffer, b, Place(old(a.BitPos()), old(a.num_bits), old(|a.zout|)))
    ensures
      (&& want.Dynamic? && BodyAt(a.zbuffer, want, old(a.BitPos()), q)
       && q + 16 <= 8 * |a.zbuffer| && ReplayBlock(old(a.zout), want).Some?)
      ==> ok && b == want && q == a.BitPos() && ReplayBlock(old(a.zout), want) == Some(a.zout)
    ensures want.Dynamic? && HeaderWanted(want.h, want.lens, want.dlens, a.Stream(), old(a.BitPos()))
      && EndlessBody(a.zbuffer, want.h, want.lens, want.dlens, Place(old(a.BitPos()), old(a.num_bits), old(|a.zout|)))
      ==> !ended
  {
    hide ZBuf.Buffered, Huffman.Built, AllOpCodable, TokensBits, Follows, ByteBits, ToBits, Window, ReplayAll, Kraft,
      HeaderAt, HeaderSize, HeaderLeft, HeaderWanted, BlockWanted, Realizes, EndFollows, Pow2, Lengths, Terminates, Runs,
      EndlessHere, ZLengths, EndPlace, BlockFollows, Permuted;
    b, ended := Stored([]), true;
    ghost var at := Place(a.BitPos(), a.num_bits, |a.zout|);
    if want.Dynamic? && BodyAt(a.zbuffer, want, a.BitPos(), q) && q + 16 <= 8 * |a.zbuffer| {
      DynamicWanted(a.zbuffer, want, a.BitPos(), q);
    }
    ghost var h, lens, dlens, ts;
    ghost var w := if want.Dynamic? then want else Dynamic(Header(0, 0, [], []), [], [], []);
    ok, h, lens, dlens := ComputeHuffmanCodes(a, w.h, w.lens, w.dlens);
    if ok {
      HeaderReadable(h, lens, dlens, a.Stream(), old(a.BitPos()));
      BuiltCodes(a, lens, dlens);
      ok, ended, ts := ParseHuffmanBlock(a, lens, dlens, w.ts);
      b := Dynamic(h, lens, dlens, ts);
      if !ended { IsEndless(a.zbuffer, h, lens, dlens, at); }
    }
  }

  lemma IsEndless(z: seq<byte>, h: Header, lens: seq<nat>, dlens: seq<nat>, at: Place)
    requires at.n <= 32 && EndlessBody(z, h, lens, dlens, at)
    ensures EndlessHere(z, at)
  {
  }

  lemma HeaderReadable(h: Header, lens: seq<nat>, dlens: seq<nat>, s: seq<bool>, p: nat)
    requires HeaderAt(h, lens, dlens, s, p)
    ensures |dlens| <= 32 && |h.raw| <= 19 && AllOpCodable(Permuted(h.raw), h.ops)
  {
    hide AllOpCodable;
  }

  lemma DynamicWanted(z: seq<byte>, b: Block, p: nat, q: nat)
    requires b.Dynamic? && BodyAt(z, b, p, q) && q + 16 <= 8 * |z|
    ensures HeaderWanted(b.h, b.lens, b.dlens, ByteBits(z), p)
    ensures BlockWanted(b.lens, b.dlens, b.ts, ByteBits(z), p + HeaderSize(b.h))
  {
    hide HeaderOk, HeaderFollows, Follows, AllCodable, TokensBits;
  }

  // ----- the whole stream

  lemma OneBit(k: nat)
    requires k < Pow2(1)
    ensures k == 0 || k == 1
  {
  }

  lemma TwoBits(k: nat)
    requires k < Pow2(2)
    ensures k < 4
  {
  }

  /** The block that starts at the reader's position, if it is valid, is the one that is read. */
  method ParseBlock(a: ZBuf, ghost want: Block, ghost wfinal: bool, ghost q: nat)
      returns (ok: bool, ended: bool, final: bool, ghost b: Block)
    requires a.Valid() && a.z_length != a.z_distance && a.z_length.Shape() && a.z_distance.Shape()
    modifies a`pos, a`num_bits, a`code_buffer, a`fetched, a`zout, a.z_length, a.z_distance
    ensures a.Valid() && a.z_length.Shape() && a.z_distance.Shape()
    ensures !ended ==> !ok && EndlessAt(a.zbuffer, Place(old(a.BitPos()), old(a.num_bits), old(|a.zout|)))
    ensures ok ==>
      && BlockAt(a.zbuffer, b, final, old(a.BitPos()), a.BitPos())
      && BlockMakes(old(a.zout), b, a.zout)
      && Place(a.BitPos(), a.num_bits, |a.zout|) ==
           AfterBody(a.zbuffer, b, TypePast(Place(old(a.BitPos()), old(a.num_bits), old(|a.zout|))))
    ensures
      WantedBlock(a.zbuffer, want, wfinal, old(a.BitPos()), q) && ReplayBlock(old(a.zout), want).Some?
      ==> ok && b == want && final == wfinal && q == a.BitPos() && ReplayBlock(old(a.zout), want) == Some(a.zout)
    ensures
      want.Dynamic?
      && EndlessWanted(a.zbuffer, want.h, want.lens, want.dlens, Place(old(a.BitPos()), old(a.num_bits), old(|a.zout|)))
      ==> !ended
  {
    hide ZBuf.Buffered, BodyAt, ReplayBlock, BlockMakes, Follows, ByteBits, ToBits, Pow2, AfterBody, EndlessBody, EndlessHere,
      HeaderWanted, Refilled;
    ghost var s, p := a.Stream(), a.BitPos();
    ghost var at := Place(p, a.num_bits, |a.zout|);
    var f := ReadExtra(a, 1);
    OneBit(f);
    var t := ReadExtra(a, 2);
    TwoBits(t);
    final := f == 1;
    SmallNumbers(BlockType(want), if wfinal then 1 else 0);
    if WantedBlock(a.zbuffer, want, wfinal, p, q) {
      SameNumber(f, if wfinal then 1 else 0, 1, s, p);
      SameNumber(t, BlockType(want), 2, s, p + 1);
    }
    if want.Dynamic? && EndlessWanted(a.zbuffer, want.h, want.lens, want.dlens, at) { SameNumber(t, 2, 2, s, p + 1); }
    ok, ended, b := ParseBody(a, t, want, q);
  }

  lemma SmallNumbers(t: nat, f: nat)
    requires t < 3 && f < 2
    ensures t < Pow2(2) && f < Pow2(1)
  {
  }

  /** Behind the two bytes of the header nothing is buffered. */
  lemma TwoBytes(a: ZBuf)
    requires a.num_bits == 0 && a.code_buffer == 0 && a.fetched == a.pos == 2 < |a.zbuffer|
    ensures a.Valid()
  {
    a.EmptyBuffer();
  }

  method ParseZlibHeader(a: ZBuf) returns (ok: bool)
    requires a.pos == 0
    modifies a`pos
    ensures ok <==> HeaderBytesOk(a.zbuffer)
    ensures ok ==> a.pos == 2 < |a.zbuffer|
  {
    var cmf := a.Get8();
    var cm := cmf % 16;
    var flg := a.Get8();
    if a.Eof() { return false; }
    if Le16(flg, cmf) % 31 != 0 { return false; }
    if Bit(flg, 5) { return false; }
    if cm != 8 { return false; }
    ok := true;
  }

  /** The blocks and the positions between them that a reader must accept, from bit 16 on. */
  ghost predicate WantedStream(z: seq<byte>, bs: seq<Block>, ps: seq<nat>) {
    && HeaderBytesOk(z) && BlocksAt(z, bs, ps) && ps[0] == 16 && ReplayBlocks([], bs).Some?
    && forall i :: 0 <= i < |bs| ==> WantedBlock(z, bs[i], i == |bs| - 1, ps[i], ps[i + 1])
  }

  /** The blocks read so far, none of which was final. */
  ghost predicate Prefix(z: seq<byte>, bs: seq<Block>, ps: seq<nat>) {
    && |ps| == |bs| + 1 && ps[0] == 16
    && forall i :: 0 <= i < |bs| ==> BlockAt(z, bs[i], false, ps[i], ps[i + 1])
  }

  /** The blocks read so far have made this output, and there the reader stands. */
  ghost predicate Reached(z: seq<byte>, bs: seq<Block>, ps: seq<nat>, made: seq<byte>) {
    && Prefix(z, bs, ps) && BlocksMake([], bs, made)
    && AfterBlocks(z, bs).p == ps[|bs|] && AfterBlocks(z, bs).size == |made|
  }

  /** Blocks that a reader must accept, from bit 16 on, and behind them an endless one. */
  ghost predicate WantedEndless(z: seq<byte>, bs: seq<Block>, ps: seq<nat>, end: Option<Block>) {
    && HeaderBytesOk(z) && Prefix(z, bs, ps) && ReplayBlocks([], bs).Some?
    && (forall i :: 0 <= i < |bs| ==> WantedBlock(z, bs[i], false, ps[i], ps[i + 1]))
    && end.Some? && end.value.Dynamic?
    && EndlessWanted(z, end.value.h, end.value.lens, end.value.dlens, AfterBlocks(z, bs))
  }

  lemma Fresh(z: seq<byte>, wbs: seq<Block>, wps: seq<nat>, wend: Option<Block>)
    ensures ToBits(0, 0) == Window(ByteBits(z), 16, 0) && Pow2(0) == 1
    ensures Read(z, [], [16], false, Place(16, 0, 0), [])
    ensures WantedStream(z, wbs, wps) || WantedEndless(z, wbs, wps, wend) ==> OnTrack(wbs, wps, [], [16], [])
  {
    hide WantedBlock, BlockAt, EndlessWanted, HeaderBytesOk;
  }

  lemma {:induction false} ReplayBlocksPrefix(out: seq<byte>, bs: seq<Block>, n: nat)
    requires n < |bs| && ReplayBlocks(out, bs).Some?
    ensures ReplayBlocks(out, bs[..n]).Some?
    ensures ReplayBlock(ReplayBlocks(out, bs[..n]).value, bs[n]).Some?
  {
    var m := |bs| - 1;
    if n < m {
      ReplayBlocksPrefix(out, bs[..m], n);
      assert bs[..m][..n] == bs[..n];
    }
  }

  /** A block takes at least its three header bits, and none starts after the end of the input:
      the zeros found there are not a stored block. */
  lemma BlockAdvances(z: seq<byte>, b: Block, final: bool, p: nat, q: nat)
    requires BlockAt(z, b, final, p, q)
    ensures p < q && p < 8 * |z|
  {
    hide CodedAt, HeaderAt, StoredAt, StoredLen, Follows, ToBits;
    if p >= 8 * |z| {
      var t := BlockType(b);
      ZeroType(z, p, t);
      NothingStored(z, NextByte(p + 3));
    }
    if !b.Stored? { CodedAdvances(z, b, p + 3, q); }
  }

  lemma CodedAdvances(z: seq<byte>, b: Block, p: nat, q: nat)
    requires !b.Stored? && BodyAt(z, b, p, q)
    ensures p <= q
  {
    hide HeaderAt, Follows, AllCodable, TokensBits;
  }

  lemma ZeroType(z: seq<byte>, p: nat, t: nat)
    requires p >= 8 * |z| && t < 3 && Follows(ByteBits(z), p + 1, ToBits(t, 2))
    ensures t == 0
  {
    var w := Window(ByteBits(z), p + 1, 2);
    assert !BitAt(ByteBits(z), p + 1 + 0) && !BitAt(ByteBits(z), p + 1 + 1);
    assert !w[0] && !w[1];
    ToBitsAt(t, 2, 0);
    ToBitsAt(t, 2, 1);
  }

  lemma NothingStored(z: seq<byte>, i: nat)
    requires i >= |z|
    ensures !StoredAt(z, i)
  {
  }

  /** The blocks read so far, what they made, and where the reader stands. */
  ghost predicate Read(z: seq<byte>, bs: seq<Block>, ps: seq<nat>, final: bool, at: Place, out: seq<byte>) {
    && (if final then BlocksAt(z, bs, ps) && ps[0] == 16 else Prefix(z, bs, ps) && ps[|bs|] == at.p)
    && BlocksMake([], bs, out) && AfterBlocks(z, bs) == at && at.size == |out|
  }

  /** They are the first of the blocks wanted. */
  ghost predicate OnTrack(wbs: seq<Block>, wps: seq<nat>, bs: seq<Block>, ps: seq<nat>, out: seq<byte>) {
    && |bs| <= |wbs| && |wps| == |wbs| + 1 && bs == wbs[..|bs|] && ps == wps[..|bs| + 1]
    && ReplayBlocks([], bs) == Some(out)
  }

  lemma HeaderWantedOk(z: seq<byte>, wbs: seq<Block>, wps: seq<nat>, wend: Option<Block>)
    requires WantedStream(z, wbs, wps) || WantedEndless(z, wbs, wps, wend)
    ensures HeaderBytesOk(z) && (WantedStream(z, wbs, wps) ==> |wbs| > 0)
  {
  }

  /** The last block is final or it is not. */
  lemma NotBoth(z: seq<byte>, wbs: seq<Block>, wps: seq<nat>, wend: Option<Block>)
    requires WantedStream(z, wbs, wps)
    ensures !WantedEndless(z, wbs, wps, wend)
  {
    hide BodyAt, EndlessWanted, ReplayBlocks, HeaderBytesOk, ToBits, Follows;
    var n := |wbs| - 1;
    assert BlockAt(z, wbs[n], true, wps[n], wps[n + 1]);
    if BlockAt(z, wbs[n], false, wps[n], wps[n + 1]) {
      SmallNumbers(0, 1);
      SmallNumbers(0, 0);
      SameNumber(1, 0, 1, ByteBits(z), wps[n]);
    }
  }

  lemma NextOnTrack(z: seq<byte>, wbs: seq<Block>, wps: seq<nat>, wend: Option<Block>, bs: seq<Block>, ps: seq<nat>, at: Place,
                    out: seq<byte>)
      returns (b: Block, final: bool, q: nat)
    requires WantedStream(z, wbs, wps) || WantedEndless(z, wbs, wps, wend)
    requires OnTrack(wbs, wps, bs, ps, out) && Read(z, bs, ps, false, at, out) && |bs| < |wbs|
    ensures |wps| == |wbs| + 1 && b == wbs[|bs|] && q == wps[|bs| + 1]
    ensures final == (WantedStream(z, wbs, wps) && |bs| == |wbs| - 1)
    ensures WantedBlock(z, b, final, at.p, q) && ReplayBlock(out, b).Some?
  {
    hide WantedBlock, BlockAt, ReplayBlock, ReplayBlocks, EndlessWanted, HeaderBytesOk, BlocksMake, AfterBlocks;
    var n := |bs|;
    b, final, q := wbs[n], WantedStream(z, wbs, wps) && n == |wbs| - 1, wps[n + 1];
    ReplayBlocksPrefix([], wbs, n);
  }

  lemma EndOnTrack(z: seq<byte>, wbs: seq<Block>, wps: seq<nat>, wend: Option<Block>, bs: seq<Block>, ps: seq<nat>, at: Place,
                   out: seq<byte>)
    requires WantedEndless(z, wbs, wps, wend) && OnTrack(wbs, wps, bs, ps, out) && Read(z, bs, ps, false, at, out) && |bs| == |wbs|
    ensures bs == wbs && ps == wps && at.n <= 32
    ensures wend.Some? && wend.value.Dynamic? && EndlessWanted(z, wend.value.h, wend.value.lens, wend.value.dlens, at)
  {
    hide WantedBlock, BlockAt, ReplayBlocks, EndlessWanted, HeaderBytesOk, BlocksMake, AfterBlocks;
  }

  lemma StuckHere(z: seq<byte>, bs: seq<Block>, ps: seq<nat>, at: Place, made: seq<byte>)
    requires Read(z, bs, ps, false, at, made) && at.n <= 32 && EndlessAt(z, at)
    ensures Reached(z, bs, ps, made) && EndlessAt(z, Place(ps[|bs|], AfterBlocks(z, bs).n, |made|))
  {
    hide BlockAt, BlocksMake, AfterBlocks, EndlessAt;
  }

  lemma ReadToEnd(z: seq<byte>, bs: seq<Block>, ps: seq<nat>, at: Place, out: seq<byte>)
    requires Read(z, bs, ps, true, at, out)
    ensures BlocksAt(z, bs, ps) && ps[0] == 16 && BlocksMake([], bs, out)
  {
  }

  lemma TrackGrows(wbs: seq<Block>, wps: seq<nat>, bs: seq<Block>, ps: seq<nat>, before: seq<byte>, b: Block, q: nat, after: seq<byte>)
    requires OnTrack(wbs, wps, bs, ps, before) && |bs| < |wbs| && b == wbs[|bs|] && q == wps[|bs| + 1]
    requires ReplayBlock(before, b) == Some(after)
    ensures OnTrack(wbs, wps, bs + [b], ps + [q], after)
  {
    hide ReplayBlock;
    assert (bs + [b])[..|bs|] == bs;
  }

  lemma TrackEnds(wbs: seq<Block>, wps: seq<nat>, bs: seq<Block>, ps: seq<nat>, out: seq<byte>)
    requires OnTrack(wbs, wps, bs, ps, out) && |bs| == |wbs|
    ensures bs == wbs && ps == wps && ReplayBlocks([], wbs) == Some(out)
  {
    hide ReplayBlocks;
  }

  lemma ReadGrows(z: seq<byte>, bs: seq<Block>, ps: seq<nat>, b: Block, final: bool, at: Place, next: Place,
                  before: seq<byte>, after: seq<byte>)
    requires Read(z, bs, ps, false, at, before) && BlockAt(z, b, final, at.p, next.p) && BlockMakes(before, b, after)
    requires at.n <= 32 && next == AfterBody(z, b, TypePast(at)) && next.size == |after|
    ensures Read(z, bs + [b], ps + [next.p], final, next, after)
  {
    hide BlockAt, BlockMakes, AfterBody, TypePast;
    assert (bs + [b])[..|bs|] == bs && (bs + [b])[|bs|] == b;
  }

  /** Inflates a zlib stream. What comes out is what the blocks that the stream consists of make of
      nothing; and every stream of valid blocks is accepted in which 16 more bits follow each coded block.
      It does not come to an end only where the block behind those read is endless; and if valid blocks
      are followed by such a one, it does not. */
  method ParseZlib(a: ZBuf, ghost wbs: seq<Block>, ghost wps: seq<nat>, ghost wend: Option<Block>)
      returns (ok: bool, ended: bool, ghost bs: seq<Block>, ghost ps: seq<nat>, ghost made: seq<byte>)
    requires a.pos == 0 && a.zout == [] && a.z_length != a.z_distance && a.z_length.Shape() && a.z_distance.Shape()
    modifies a, a.z_length, a.z_distance
    ensures !ended ==>
      && !ok && HeaderBytesOk(a.zbuffer) && Reached(a.zbuffer, bs, ps, made)
      && EndlessAt(a.zbuffer, Place(ps[|bs|], AfterBlocks(a.zbuffer, bs).n, |made|))
    ensures ok ==>
      && HeaderBytesOk(a.zbuffer) && BlocksAt(a.zbuffer, bs, ps) && ps[0] == 16
      && BlocksMake([], bs, a.zout)
    ensures WantedStream(a.zbuffer, wbs, wps) ==>
      ok && bs == wbs && ps == wps && ReplayBlocks([], wbs) == Some(a.zout)
    ensures WantedEndless(a.zbuffer, wbs, wps, wend) ==> !ended && bs == wbs && ps == wps
  {
    hide ZBuf.Buffered, BlockAt, ReplayBlock, BlockMakes, Follows, ByteBits, ToBits, Pow2, HeaderBytesOk, EndlessAt,
      EndlessWanted, WantedBlock, AfterBody, TypePast, AfterBlocks, Read, OnTrack, WantedStream, WantedEndless, Reached,
      BlocksAt, BlocksMake, ReplayBlocks;
    ghost var z := a.zbuffer;
    ghost var hope, dread := WantedStream(z, wbs, wps), WantedEndless(z, wbs, wps, wend);
    if hope { HeaderWantedOk(z, wbs, wps, wend); NotBoth(z, wbs, wps, wend); }
    if dread { HeaderWantedOk(z, wbs, wps, wend); }
    bs, ps, made, ended := [], [16], [], true;
    ok := ParseZlibHeader(a);
    if !ok { return; }
    a.num_bits, a.code_buffer, a.fetched := 0, 0, 2;
    TwoBytes(a);
    Fresh(z, wbs, wps, wend);
    var final := false;
    ghost var n := 0;
    while !final
      invariant a.Valid() && a.z_length.Shape() && a.z_distance.Shape() && a.zbuffer == z
      invariant ok && ended && n == |bs| && made == a.zout
      invariant Read(z, bs, ps, final, Place(a.BitPos(), a.num_bits, |a.zout|), a.zout)
      invariant hope ==> n <= |wbs| && (final <==> n == |wbs|)
      invariant dread ==> n <= |wbs| && !final
      invariant hope || dread ==> OnTrack(wbs, wps, bs, ps, a.zout)
      decreases !final, if a.BitPos() < 8 * |z| then 8 * |z| - a.BitPos() else 0
    {
      ghost var at, before := Place(a.BitPos(), a.num_bits, |a.zout|), a.zout;
      ghost var want, wfinal, q := Stored([]), false, 0;
      if (hope || dread) && n < |wbs| {
        want, wfinal, q := NextOnTrack(z, wbs, wps, wend, bs, ps, at, before);
      } else if dread {
        EndOnTrack(z, wbs, wps, wend, bs, ps, at, before);
        want := wend.value;
      }
      ghost var b;
      ok, ended, final, b := ParseBlock(a, want, wfinal, q);
      if !ended { StuckHere(z, bs, ps, at, made); }
      if !ok { return; }
      BlockAdvances(z, b, final, at.p, a.BitPos());
      ReadGrows(z, bs, ps, b, final, at, Place(a.BitPos(), a.num_bits, |a.zout|), before, a.zout);
      if hope || dread { TrackGrows(wbs, wps, bs, ps, before, b, a.BitPos(), a.zout); }
      bs, ps, made := bs + [b], ps + [a.BitPos()], a.zout;
      n := n + 1;
    }
    ReadToEnd(z, bs, ps, Place(a.BitPos(), a.num_bits, |a.zout|), a.zout);
    if hope { TrackEnds(wbs, wps, bs, ps, a.zout); }
  }
}
