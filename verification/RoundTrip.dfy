/** Inflating what the compressor wrote. */
module RoundTrip {
  import opened Bits
  import opened Canonical
  import opened BitReader
  import opened Deflate
  import opened FixedCodes
  import opened Inflate
  import opened ZWriter
  import opened Zlib
  import opened Compress
  import opened Wrappers
  import Adler

  // ----- the fixed block as a stream

  lemma FollowsInside(a: seq<bool>, b: seq<bool>, c: seq<bool>)
    ensures Follows(a + b + c, |a|, b)
  {
    WindowInside(a + b + c, |a|, |b|);
    assert (a + b + c)[|a|..|a| + |b|] == b;
  }

  /** The parts of the compressed block, each at its place in the finished stream. */
  lemma PartsFollow(body: seq<byte>, tail: seq<byte>, t: seq<bool>, e: seq<bool>, pad: seq<bool>)
    requires ByteBits(body) == BlockStart() + t + e + pad
    ensures var s := ByteBits(body + tail);
      && Follows(s, 16, ToBits(1, 1)) && Follows(s, 17, ToBits(1, 2))
      && Follows(s, 19, t) && Follows(s, 19 + |t|, e)
      && 19 + |t| + |e| <= 8 * |body|
  {
    hide ToBits, ByteBits, Follows;
    ByteBitsAppend(body, tail);
    var h, f, k, x := ByteBits(ZLIB_HEADER), ToBits(1, 1), ToBits(1, 2), ByteBits(tail);
    var s := ByteBits(body + tail);
    assert s == h + f + (k + t + e + pad + x);
    FollowsInside(h, f, k + t + e + pad + x);
    assert s == (h + f) + k + (t + e + pad + x);
    FollowsInside(h + f, k, t + e + pad + x);
    assert s == (h + f + k) + t + (e + pad + x);
    FollowsInside(h + f + k, t, e + pad + x);
    assert s == (h + f + k + t) + e + (pad + x);
    FollowsInside(h + f + k + t, e, pad + x);
  }

  /** The body with four more bytes is a stream that the inflater must accept. */
  lemma FixedStream(data: seq<byte>, ts: seq<Token>, pad: seq<bool>, body: seq<byte>, tail: seq<byte>)
      returns (ps: seq<nat>)
    requires AllCodable(FixedLens(), FixedDists(), ts) && ReplayAll([], ts) == Some(data)
    requires ByteBits(body) ==
      BlockStart() + TokensBits(FixedLens(), FixedDists(), ts) + CodeBits(FixedLens(), END_OF_BLOCK) + pad
    requires |body| >= 2 && body[..2] == ZLIB_HEADER && |tail| == 4
    ensures WantedStream(body + tail, [Fixed(ts)], ps)
    ensures ReplayBlocks([], [Fixed(ts)]) == Some(data)
  {
    hide ToBits, ByteBits, Follows, TokensBits, CodeBits, ReplayAll, FixedLens, FixedDists, BlockStart, AllCodable;
    var t, e := TokensBits(FixedLens(), FixedDists(), ts), CodeBits(FixedLens(), END_OF_BLOCK);
    var q := 19 + |t| + |e|;
    ps := [16, q];
    PartsFollow(body, tail, t, e, pad);
    HeaderBytes(body + tail);
    assert BlockAt(body + tail, Fixed(ts), true, 16, q);
    OneBlock(Fixed(ts));
  }

  lemma HeaderBytes(z: seq<byte>)
    requires |z| >= 3 && z[0] == 0x78 && z[1] == 0x5E
    ensures HeaderBytesOk(z)
  {
  }

  lemma OneBlock(b: Block)
    ensures ReplayBlocks([], [b]) == ReplayBlock([], b)
  {
    hide ReplayBlock;
    assert [b][..0] == [];
  }

  // ----- stored blocks

  /** Bytes off and on of z hold a stored block with the bytes a to b of data. */
  ghost predicate Chunk(z: seq<byte>, off: nat, data: seq<byte>, a: nat, b: nat, final: bool) {
    && a <= b <= |data| && b - a <= 32767 && off + 5 + (b - a) <= |z|
    && z[off] == (if final then 1 else 0)
    && z[off + 1] == (b - a) % 256 && z[off + 2] == (b - a) / 256
    && z[off + 3] == 255 - (b - a) % 256 && z[off + 4] == 255 - (b - a) / 256
    && z[off + 5..off + 5 + (b - a)] == data[a..b]
  }

  lemma ChunkStays(z: seq<byte>, more: seq<byte>, off: nat, data: seq<byte>, a: nat, b: nat, final: bool)
    requires Chunk(z, off, data, a, b, final)
    ensures Chunk(z + more, off, data, a, b, final)
  {
    assert (z + more)[off + 5..off + 5 + (b - a)] == z[off + 5..off + 5 + (b - a)];
  }

  /** The first three bits of a byte that is 0 or 1. */
  lemma NoHighBits(f: nat)
    requires f < 2
    ensures Shr(f, 1) == 0 && Shr(0, 2) == 0
  {
  }

  lemma FirstBits(z: seq<byte>, off: nat, final: bool)
    requires off < |z| && z[off] == if final then 1 else 0
    ensures Follows(ByteBits(z), 8 * off, ToBits(if final then 1 else 0, 1))
    ensures Follows(ByteBits(z), 8 * off + 1, ToBits(0, 2))
  {
    var f := if final then 1 else 0;
    var s := ByteBits(z);
    NoHighBits(f);
    hide ByteBits, ToBits, Shr, Window;
    WindowByte(z, off);
    ToBitsSplit(f, 1, 7);
    ToBitsSplit(0, 2, 5);
    FollowsSplit(s, 8 * off, ToBits(f, 1), ToBits(0, 7));
    FollowsSplit(s, 8 * off + 1, ToBits(0, 2), ToBits(0, 5));
  }

  lemma ChunkIsBlock(z: seq<byte>, off: nat, data: seq<byte>, a: nat, b: nat, final: bool)
    requires Chunk(z, off, data, a, b, final)
    ensures BlockAt(z, Stored(data[a..b]), final, 8 * off, 8 * (off + 5 + (b - a)))
  {
    hide ByteBits, ToBits, Follows;
    FirstBits(z, off, final);
    assert NextByte(8 * off + 3) == off + 1;
    assert StoredLen(z, off + 1) == b - a;
  }

  /** The blocks of the first cuts[|bs|] bytes of data, and where they stand. */
  ghost predicate StoredSoFar(z: seq<byte>, data: seq<byte>, bs: seq<Block>, cuts: seq<nat>, offs: seq<nat>) {
    && |cuts| == |offs| == |bs| + 1 && cuts[0] == 0 && offs[0] == 2
    && (forall i :: 0 <= i < |bs| ==> StoredPiece(z, data, bs, cuts, offs, i))
    && cuts[|bs|] <= |data|
    && ReplayBlocks([], bs) == Some(data[..cuts[|bs|]])
  }

  ghost predicate StoredPiece(z: seq<byte>, data: seq<byte>, bs: seq<Block>, cuts: seq<nat>, offs: seq<nat>, i: nat)
    requires |cuts| == |offs| == |bs| + 1 && i < |bs|
  {
    && cuts[i] < cuts[i + 1] <= |data|
    && Chunk(z, offs[i], data, cuts[i], cuts[i + 1], cuts[i + 1] == |data|)
    && offs[i + 1] == offs[i] + 5 + (cuts[i + 1] - cuts[i])
    && bs[i] == Stored(data[cuts[i]..cuts[i + 1]])
  }

  lemma StoredStep(z: seq<byte>, more: seq<byte>, data: seq<byte>, bs: seq<Block>, cuts: seq<nat>, offs: seq<nat>, b: nat)
    requires StoredSoFar(z, data, bs, cuts, offs) && cuts[|bs|] < b <= |data| && offs[|bs|] == |z|
    requires Chunk(z + more, |z|, data, cuts[|bs|], b, b == |data|) && |more| == 5 + (b - cuts[|bs|])
    ensures StoredSoFar(z + more, data, bs + [Stored(data[cuts[|bs|]..b])], cuts + [b], offs + [|z + more|])
  {
    hide Chunk;
    var n, a := |bs|, cuts[|bs|];
    var bs', cuts', offs' := bs + [Stored(data[a..b])], cuts + [b], offs + [|z + more|];
    forall i | 0 <= i < n + 1 ensures StoredPiece(z + more, data, bs', cuts', offs', i) {
      if i < n {
        assert StoredPiece(z, data, bs, cuts, offs, i);
        ChunkStays(z, more, offs[i], data, cuts[i], cuts[i + 1], cuts[i + 1] == |data|);
      }
    }
    assert bs'[..n] == bs;
    assert data[..a] + data[a..b] == data[..b];
  }

  /** The uncompressed form: blocks of at most 32767 bytes. */
  method StoreBlocks(data: seq<byte>) returns (out: seq<byte>, ghost bs: seq<Block>, ghost cuts: seq<nat>, ghost offs: seq<nat>)
    ensures StoredSoFar(out, data, bs, cuts, offs) && cuts[|bs|] == |data| && offs[|bs|] == |out|
    ensures |out| >= 2 && out[..2] == ZLIB_HEADER
    ensures |data| > 0 ==> |bs| > 0
    ensures data == [] ==> out == ZLIB_HEADER
    ensures |out| == |data| + 2 + ((|data| + 32766) / 32767) * 5
  {
    hide Chunk;
    out := ZLIB_HEADER;
    bs, cuts, offs := [], [0], [2];
    assert data[..0] == [];
    var j := 0;
    while j < |data|
      invariant 0 <= j <= |data| && StoredSoFar(out, data, bs, cuts, offs)
      invariant cuts[|bs|] == j && offs[|bs|] == |out|
      invariant |out| >= 2 && out[..2] == ZLIB_HEADER
      invariant j > 0 ==> |bs| > 0
      invariant j == 0 ==> out == ZLIB_HEADER
      invariant j < |data| ==> j == 32767 * |bs|
      invariant |out| == j + 2 + 5 * |bs| && |bs| == (j + 32766) / 32767
    {
      var blocklen := |data| - j;
      if blocklen > 32767 { blocklen := 32767; }
      var block := StoredBlock(out, data, j, blocklen);
      StoredStep(out, block, data, bs, cuts, offs, j + blocklen);
      out := out + block;
      bs, cuts, offs := bs + [Stored(data[j..j + blocklen])], cuts + [j + blocklen], offs + [|out|];
      j := j + blocklen;
    }
  }

  method StoredBlock(ghost before: seq<byte>, data: seq<byte>, j: nat, blocklen: nat) returns (block: seq<byte>)
    requires j + blocklen <= |data| && blocklen <= 32767
    ensures |block| == 5 + blocklen
    ensures Chunk(before + block, |before|, data, j, j + blocklen, j + blocklen == |data|)
  {
    var hi, lo := blocklen / 256, blocklen % 256;
    block := [if |data| - j == blocklen then 1 else 0, lo, hi, 255 - lo, 255 - hi] + data[j..j + blocklen];
    assert (before + block)[|before| + 5..|before| + 5 + blocklen] == data[j..j + blocklen];
  }

  /** The stored form with any tail is a stream that the inflater must accept. */
  lemma StoredStream(z: seq<byte>, tail: seq<byte>, data: seq<byte>, bs: seq<Block>, cuts: seq<nat>, offs: seq<nat>)
      returns (ps: seq<nat>)
    requires StoredSoFar(z, data, bs, cuts, offs) && cuts[|bs|] == |data| && |bs| > 0
    requires |z| >= 3 && z[0] == 0x78 && z[1] == 0x5E
    ensures WantedStream(z + tail, bs, ps)
    ensures ReplayBlocks([], bs) == Some(data)
  {
    hide Chunk, BlockAt, ReplayBlocks;
    ps := seq(|bs| + 1, i requires 0 <= i <= |bs| => 8 * offs[i]);
    HeaderBytes(z + tail);
    assert data[..|data|] == data;
    forall i | 0 <= i < |bs|
      ensures BlockAt(z + tail, bs[i], i == |bs| - 1, ps[i], ps[i + 1]) && bs[i].Stored?
    {
      assert StoredPiece(z, data, bs, cuts, offs, i);
      LastCut(z, data, bs, cuts, offs, i + 1);
      ChunkStays(z, tail, offs[i], data, cuts[i], cuts[i + 1], cuts[i + 1] == |data|);
      ChunkIsBlock(z + tail, offs[i], data, cuts[i], cuts[i + 1], cuts[i + 1] == |data|);
    }
  }

  /** Only the last cut is the end of the data. */
  lemma {:induction false} LastCut(z: seq<byte>, data: seq<byte>, bs: seq<Block>, cuts: seq<nat>, offs: seq<nat>, i: nat)
    requires StoredSoFar(z, data, bs, cuts, offs) && cuts[|bs|] == |data| && i <= |bs|
    ensures cuts[i] == |data| <==> i == |bs|
    decreases |bs| - i
  {
    hide Chunk, ReplayBlocks;
    if i < |bs| {
      LastCut(z, data, bs, cuts, offs, i + 1);
      assert StoredPiece(z, data, bs, cuts, offs, i);
    }
  }

  // ----- the compressor

  /** The checksum as it ends the stream, most significant byte first. */
  function Trailer(s: Adler.Sums): (t: seq<byte>)
    requires Adler.Reduced(s)
    ensures |t| == 4
  {
    [s.s2 / 256, s.s2 % 256, s.s1 / 256, s.s1 % 256]
  }

  /** As one number, the second sum above the first, section 2.2 of RFC 1950. */
  lemma TrailerIsPacked(s: Adler.Sums)
    requires Adler.Reduced(s)
    ensures var t := Trailer(s);
      ((t[0] as int * 256 + t[1] as int) * 256 + t[2] as int) * 256 + t[3] as int == s.s2 * 65536 + s.s1 == Adler.Pack(s)
  {
  }

  /** The size of the data in stored blocks, without the trailer. */
  function StoredSize(n: nat): nat {
    n + 2 + ((n + 32766) / 32767) * 5
  }

  /** The blocks of a compressed stream use only matches that the format can express. */
  ghost predicate MatchesInRange(bs: seq<Block>) {
    forall i :: 0 <= i < |bs| ==> bs[i].Stored? || (bs[i].Fixed? && InRange(bs[i].ts))
  }

  /** Compresses data. The result is a stream of blocks that stand for the data and that the
      inflater must accept, unless there is no data at all. */
  method ZlibCompress(data: seq<byte>, quality: int)
      returns (out: seq<byte>, ghost bs: seq<Block>, ghost ps: seq<nat>)
    ensures data != [] ==> WantedStream(out, bs, ps) && ReplayBlocks([], bs) == Some(data)
    ensures data != [] ==> MatchesInRange(bs)
    ensures data == [] ==> out == [0x78, 0x5E, 0, 0, 0, 1]
    ensures |out| <= StoredSize(|data|) + 4
    ensures Adler.Reduced(Adler.Adler32(data)) && |out| >= 4 && out[|out| - 4..] == Trailer(Adler.Adler32(data))
  {
    hide ByteBits, ToBits, CodeBits, TokensBits, FixedLens, FixedDists, ReplayAll, WantedStream, ReplayBlocks, StoredSoFar,
      InRange, AllCodable;
    var q: nat := if quality < 5 then 5 else quality;
    var w := new Writer(ZLIB_HEADER);
    ghost var ts, pad := DeflateBlock(w, data, q);
    var sums := Adler.WriterAdler(data);
    HeaderKept(w.out, TokensBits(FixedLens(), FixedDists(), ts), pad);
    if |w.out| > StoredSize(|data|) {
      ghost var cuts, offs;
      out, bs, cuts, offs := StoreBlocks(data);
      ps := [];
      if data != [] {
        assert out[0] == out[..2][0] && out[1] == out[..2][1];
        ps := StoredStream(out, Trailer(sums), data, bs, cuts, offs);
        AllStored(out, data, bs, cuts, offs);
      } else {
        EmptySums();
      }
      out := out + Trailer(sums);
    } else {
      bs := [Fixed(ts)];
      ps := FixedStream(data, ts, pad, w.out, Trailer(sums));
      out := w.out + Trailer(sums);
    }
  }

  lemma AllStored(z: seq<byte>, data: seq<byte>, bs: seq<Block>, cuts: seq<nat>, offs: seq<nat>)
    requires StoredSoFar(z, data, bs, cuts, offs)
    ensures MatchesInRange(bs)
  {
    hide Chunk, ReplayBlocks;
    forall i | 0 <= i < |bs| ensures bs[i].Stored? { assert StoredPiece(z, data, bs, cuts, offs, i); }
  }

  /** The first two bytes of the block's bits are the header, and even no data take two more. */
  lemma HeaderKept(body: seq<byte>, t: seq<bool>, pad: seq<bool>)
    requires ByteBits(body) == BlockStart() + t + CodeBits(FixedLens(), END_OF_BLOCK) + pad
    ensures |body| >= 4 && body[..2] == ZLIB_HEADER
  {
    hide ToBits, CodeBits, FixedLens;
    var s, h := ByteBits(body), ByteBits(ZLIB_HEADER);
    assert |s| >= 26;
    assert s[..16] == h;
    ByteBitsAppend(body[..2], body[2..]);
    assert body == body[..2] + body[2..];
    assert ByteBits(body[..2]) == s[..16];
    SameByteBits(body[..2], ZLIB_HEADER);
  }

  lemma SameByteBits(a: seq<byte>, b: seq<byte>)
    requires |a| == |b| && ByteBits(a) == ByteBits(b)
    ensures a == b
  {
    hide ByteBits, ToBits;
    forall i | 0 <= i < |a| ensures a[i] == b[i] {
      WindowByte(a, i);
      WindowByte(b, i);
      Pow2Values();
      ToBitsInjective(a[i], b[i], 8);
    }
  }

  lemma EmptySums()
    ensures Adler.Adler32([]) == Adler.Sums(1, 0) && Trailer(Adler.Sums(1, 0)) == [0, 0, 0, 1]
  {
  }

  // ----- there and back

  /** What the compressor makes of no data holds no block: its trailer is read as the header of a
      stored block, which it is not. */
  lemma NoBlocks(z: seq<byte>, bs: seq<Block>, ps: seq<nat>)
    requires z == [0x78, 0x5E, 0, 0, 0, 1] && BlocksAt(z, bs, ps)
    ensures ps[0] != 16
  {
    hide ByteBits, ToBits, Follows, CodedAt;
    if ps[0] == 16 {
      var b := bs[0];
      assert BlockAt(z, b, 0 == |bs| - 1, 16, ps[1]);
      assert NextByte(19) == 3;
      FirstBits(z, 2, false);
      SmallNumbers(BlockType(b), 0);
      SameNumber(BlockType(b), 0, 2, ByteBits(z), 17);
    }
  }

  /** Compressing and inflating gives the data back, for every quality and all data but none. */
  method CompressThenInflate(data: seq<byte>, quality: int) returns (result: Option<seq<byte>>)
    ensures result == if data == [] then None else Some(data)
  {
    hide WantedStream, ReplayBlocks, BlocksAt, HeaderBytesOk;
    ghost var bs, ps;
    var z;
    z, bs, ps := ZlibCompress(data, quality);
    var a := new ZBuf(z);
    ghost var bs', ps', made;
    var ok, ended;
    ok, ended, bs', ps', made := ParseZlib(a, bs, ps, None);
    if data == [] && ok { NoBlocks(z, bs', ps'); }
    result := if ok then Some(a.zout) else None;
  }
}
