/** The zlib compressor of the PNG writer: hash chains, lazy matching, fixed Huffman codes, and
    stored blocks when that is shorter. */
module Compress {
  import opened Bits
  import opened Canonical
  import opened Deflate
  import opened Lz77
  import opened FixedCodes
  import opened ZWriter
  import opened Zlib
  import opened Wrappers

  const ZHASH := 16384

  /** The hash of three bytes, computed in 32 bits. */
  function Zhash(data: seq<byte>, i: nat): bv32
    requires i + 2 < |data|
  {
    var h: bv32 := data[i] as bv32 + (data[i + 1] as bv32 << 8) + (data[i + 2] as bv32 << 16);
    var h1 := h ^ (h << 3);
    var h2 := h1 + (h1 >> 5);
    var h3 := h2 ^ (h2 << 4);
    var h4 := h3 + (h3 >> 17);
    var h5 := h4 ^ (h4 << 25);
    h5 + (h5 >> 6)
  }

  function Bucket(data: seq<byte>, i: nat): (b: nat)
    requires i + 2 < |data|
    ensures b < ZHASH
  {
    (Zhash(data, i) as nat) % ZHASH
  }

  // ----- matches

  /** The len bytes at i repeat those at p. */
  ghost predicate IsMatch(data: seq<byte>, i: nat, p: nat, len: nat) {
    p < i && i + len <= |data| && forall k :: i <= k < i + len ==> data[k] == data[k - (i - p)]
  }

  /** A match the format can express. */
  ghost predicate GoodMatch(data: seq<byte>, i: nat, p: nat, len: nat) {
    IsMatch(data, i, p, len) && 3 <= len <= 258 && 1 <= i - p <= 32767
  }

  /** How far the bytes at p and i agree beyond the first n, up to 258 in all. */
  function CommonLength(data: seq<byte>, p: nat, i: nat, n: nat): (r: nat)
    requires p <= i && i + n <= |data|
    ensures n <= r && i + r <= |data| && (n <= 258 ==> r <= 258)
    ensures forall k :: i + n <= k < i + r ==> data[k] == data[k - (i - p)]
    decreases 258 - n
  {
    if n < 258 && i + n < |data| && data[p + n] == data[i + n] then CommonLength(data, p, i, n + 1) else n
  }

  method Countm(data: seq<byte>, p: nat, i: nat, limit: nat) returns (n: nat)
    requires p <= i && i + limit == |data|
    ensures n == CommonLength(data, p, i, 0)
  {
    n := 0;
    while n < limit && n < 258
      invariant n <= limit && n <= 258
      invariant CommonLength(data, p, i, n) == CommonLength(data, p, i, 0)
    {
      if data[p + n] != data[i + n] { break; }
      n := n + 1;
    }
  }

  /** Entry k of a chain lies inside the window of position i. */
  predicate InWindow(chain: seq<nat>, k: nat, i: nat) {
    k < |chain| && chain[k] <= i && chain[k] > i - 32768
  }

  function LengthAt(data: seq<byte>, chain: seq<nat>, k: nat, i: nat): nat
    requires i <= |data| && InWindow(chain, k, i)
  {
    CommonLength(data, chain[k], i, 0)
  }

  /** best is the greatest length that entries below n of the chain have inside the window, if it
      is at least 3, and entry b is the last one of that length. */
  ghost predicate IsBest(data: seq<byte>, i: nat, chain: seq<nat>, n: nat, best: nat, bestloc: Option<nat>)
    requires i <= |data|
  {
    && best >= 3
    && (forall k: nat :: k < n && InWindow(chain, k, i) ==>
      LengthAt(data, chain, k, i) < best || (bestloc.Some? && LengthAt(data, chain, k, i) == best))
    && (bestloc.None? ==> best == 3)
    && (bestloc.Some? ==> exists k: nat ::
      && k < n && InWindow(chain, k, i) && chain[k] == bestloc.value && LengthAt(data, chain, k, i) == best
      && forall m: nat :: k < m < n && InWindow(chain, m, i) ==> LengthAt(data, chain, m, i) < best)
  }

  /** The best match of a chain at position i. */
  method FindBest(data: seq<byte>, i: nat, chain: seq<nat>) returns (best: nat, bestloc: Option<nat>)
    requires i + 3 < |data| && forall k :: 0 <= k < |chain| ==> chain[k] < i
    ensures IsBest(data, i, chain, |chain|, best, bestloc)
    ensures bestloc.Some? ==> GoodMatch(data, i, bestloc.value, best)
  {
    hide CommonLength;
    best, bestloc := 3, None;
    var j := 0;
    while j < |chain|
      invariant 0 <= j <= |chain|
      invariant IsBest(data, i, chain, j, best, bestloc)
    {
      if chain[j] > i - 32768 {
        var d := Countm(data, chain[j], i, |data| - i);
        assert InWindow(chain, j, i) && d == LengthAt(data, chain, j, i);
        if d >= best { best, bestloc := d, Some(chain[j]); }
      }
      j := j + 1;
    }
  }

  /** Whether some entry of the chain has a match longer than best at i, at most 32767 before i - 1. */
  method LongerAt(data: seq<byte>, i: nat, chain: seq<nat>, best: nat) returns (longer: bool)
    requires 0 < i < |data| && forall k :: 0 <= k < |chain| ==> chain[k] < i
    ensures longer <==> exists k: nat :: InWindow(chain, k, i) && LengthAt(data, chain, k, i) > best
  {
    hide CommonLength;
    var j := 0;
    while j < |chain|
      invariant 0 <= j <= |chain|
      invariant forall k: nat :: k < j && InWindow(chain, k, i) ==> LengthAt(data, chain, k, i) <= best
    {
      if chain[j] > i - 1 - 32767 {
        var e := Countm(data, chain[j], i, |data| - i);
        assert InWindow(chain, j, i) && e == LengthAt(data, chain, j, i);
        if e > best { return true; }
      }
      j := j + 1;
    }
    longer := false;
  }

  // ----- symbols of lengths and distances

  function LengthC(j: nat): nat
    requires j < 30
  {
    [3, 4, 5, 6, 7, 8, 9, 10, 11, 13, 15, 17, 19, 23, 27, 31, 35, 43, 51, 59, 67, 83, 99, 115,
     131, 163, 195, 227, 258, 259][j]
  }

  function DistC(j: nat): nat
    requires j < 31
  {
    [1, 2, 3, 4, 5, 7, 9, 13, 17, 25, 33, 49, 65, 97, 129, 193, 257, 385, 513, 769, 1025, 1537,
     2049, 3073, 4097, 6145, 8193, 12289, 16385, 24577, 32768][j]
  }

  function SmallPow2(n: nat): nat
    requires n <= 13
  {
    [1, 2, 4, 8, 16, 32, 64, 128, 256, 512, 1024, 2048, 4096, 8192][n]
  }

  lemma SmallPow2IsPow2(n: nat)
    requires n <= 13
    ensures SmallPow2(n) == Pow2(n)
  {
    hide SmallPow2;
    if n > 0 { SmallPow2IsPow2(n - 1); SmallPow2Step(n); } else { SmallPow2Start(); }
  }

  lemma SmallPow2Start()
    ensures SmallPow2(0) == 1
  {
  }

  lemma SmallPow2Step(n: nat)
    requires 1 <= n <= 13
    ensures SmallPow2(n) == 2 * SmallPow2(n - 1)
  {
  }

  lemma LengthGap15(j: nat)
    requires j < 15
    ensures LengthC(j + 1) - LengthC(j) <= SmallPow2(LengthExtra(j))
  {
  }

  lemma LengthGap29(j: nat)
    requires 15 <= j < 29
    ensures LengthC(j + 1) - LengthC(j) <= SmallPow2(LengthExtra(j))
  {
  }

  lemma LengthGap(j: nat)
    requires j < 29
    ensures LengthC(j + 1) - LengthC(j) <= SmallPow2(LengthExtra(j))
  {
    hide LengthC, LengthExtra, SmallPow2;
    if j < 15 { LengthGap15(j); } else { LengthGap29(j); }
  }

  lemma DistGap10(j: nat)
    requires j < 10
    ensures DistC(j + 1) - DistC(j) <= SmallPow2(DistExtra(j))
  {
  }

  lemma DistGap20(j: nat)
    requires 10 <= j < 20
    ensures DistC(j + 1) - DistC(j) <= SmallPow2(DistExtra(j))
  {
  }

  lemma DistGap30(j: nat)
    requires 20 <= j < 30
    ensures DistC(j + 1) - DistC(j) <= SmallPow2(DistExtra(j))
  {
  }

  lemma DistGap(j: nat)
    requires j < 30
    ensures DistC(j + 1) - DistC(j) <= SmallPow2(DistExtra(j))
  {
    hide DistC, DistExtra, SmallPow2;
    if j < 10 { DistGap10(j); } else if j < 20 { DistGap20(j); } else { DistGap30(j); }
  }

  lemma DistIsBase(j: nat)
    requires j < 30
    ensures DistC(j) == DistBase(j)
  {
  }

  lemma LengthIsBase(j: nat)
    requires j < 29
    ensures LengthC(j) == LengthBase(j)
  {
  }

  /** The compressor's bounds are the bases of the format, no wider apart than the extra bits. */
  lemma LengthTable(j: nat)
    requires j < 29
    ensures LengthC(j) == LengthBase(j) && LengthC(j + 1) - LengthC(j) <= Pow2(LengthExtra(j))
  {
    hide Pow2, SmallPow2, LengthC, LengthBase, LengthExtra;
    LengthIsBase(j);
    LengthGap(j);
    SmallPow2IsPow2(LengthExtra(j));
  }

  lemma DistTable(j: nat)
    requires j < 30
    ensures DistC(j) == DistBase(j) && DistC(j + 1) - DistC(j) <= Pow2(DistExtra(j))
  {
    hide Pow2, SmallPow2, DistC, DistBase, DistExtra;
    DistIsBase(j);
    DistGap(j);
    SmallPow2IsPow2(DistExtra(j));
  }

  method LengthSymbol(best: nat) returns (j: nat)
    requires 3 <= best <= 258
    ensures j < 29 && LengthC(j) <= best < LengthC(j + 1)
  {
    j := 0;
    while best > LengthC(j + 1) - 1
      invariant j < 29 && LengthC(j) <= best
      decreases 29 - j
    {
      j := j + 1;
    }
  }

  method DistSymbol(d: nat) returns (j: nat)
    requires 1 <= d <= 32767
    ensures j < 30 && DistC(j) <= d < DistC(j + 1)
  {
    j := 0;
    while d > DistC(j + 1) - 1
      invariant j < 30 && DistC(j) <= d
      decreases 30 - j
    {
      j := j + 1;
    }
  }

  // ----- the token stream

  /** Every match of the tokens is one the format can express: length 3 to 258, distance 1 to 32767. */
  ghost predicate InRange(ts: seq<Token>) {
    forall i :: 0 <= i < |ts| && ts[i].Match? ==>
      && ts[i].lsym < 31 && 3 <= LengthOf(ts[i]) <= 258
      && ts[i].dsym < 30 && 1 <= DistanceOf(ts[i]) <= 32767
  }

  /** The first two bytes, and the three bits before the first token. */
  const ZLIB_HEADER: seq<byte> := [0x78, 0x5E]

  ghost function BlockStart(): seq<bool> {
    ByteBits(ZLIB_HEADER) + ToBits(1, 1) + ToBits(1, 2)
  }

  /** The bits written so far are tokens that stand for the first i bytes of data. */
  ghost predicate Encoded(written: seq<bool>, data: seq<byte>, i: nat, ts: seq<Token>)
    requires i <= |data|
  {
    && AllCodable(FixedLens(), FixedDists(), ts)
    && written == BlockStart() + TokensBits(FixedLens(), FixedDists(), ts)
    && ReplayAll([], ts) == Some(data[..i])
    && InRange(ts) && |ts| <= i
  }

  lemma EncodedToken(written: seq<bool>, data: seq<byte>, i: nat, ts: seq<Token>, t: Token, n: nat, more: seq<bool>)
    requires i + n <= |data| && n >= 1 && Encoded(written, data, i, ts)
    requires Codable(FixedLens(), FixedDists(), t) && more == written + TokenBits(FixedLens(), FixedDists(), t)
    requires Replay(data[..i], t) == Some(data[..i + n]) && InRange([t])
    ensures Encoded(more, data, i + n, ts + [t])
  {
    hide Codable, TokenBits, TokensBits, FixedLens, FixedDists, Replay, ReplayAll, BlockStart;
    TokensBitsSnoc(FixedLens(), FixedDists(), ts, t);
    ReplaySnoc([], ts, t);
    InRangeSnoc(ts, t);
  }

  lemma InRangeSnoc(ts: seq<Token>, t: Token)
    requires InRange(ts) && InRange([t])
    ensures InRange(ts + [t])
  {
    hide LengthOf, DistanceOf;
    assert [t][0] == t;
  }

  lemma EncodedLiteral(written: seq<bool>, data: seq<byte>, i: nat, ts: seq<Token>, more: seq<bool>)
    requires i < |data| && Encoded(written, data, i, ts)
    requires more == written + CodeBits(FixedLens(), data[i])
    ensures Encoded(more, data, i + 1, ts + [Literal(data[i])])
  {
    hide Encoded, CodeBits;
    assert data[..i] + [data[i]] == data[..i + 1];
    EncodedToken(written, data, i, ts, Literal(data[i]), 1, more);
  }

  /** The token of a match. */
  lemma EncodedMatch(written: seq<bool>, data: seq<byte>, i: nat, ts: seq<Token>, t: Token, p: nat, len: nat, more: seq<bool>)
    requires i <= |data| && Encoded(written, data, i, ts) && GoodMatch(data, i, p, len)
    requires t.Match? && t.lsym < 29 && t.dsym < 30 && LengthOf(t) == len && DistanceOf(t) == i - p
    requires t.lextra < Pow2(LengthExtra(t.lsym)) && t.dextra < Pow2(DistExtra(t.dsym))
    requires more == written + CodeBits(FixedLens(), t.lsym + 257) + ToBits(t.lextra, LengthExtra(t.lsym))
                             + CodeBits(FixedDists(), t.dsym) + ToBits(t.dextra, DistExtra(t.dsym))
    ensures Encoded(more, data, i + len, ts + [t])
  {
    hide Encoded, CodeBits, ToBits, LengthExtra, DistExtra, LengthBase, DistBase, Pow2, CopyBack, LengthOf, DistanceOf;
    CopyBackReproduces(data, i, i - p, len);
    assert InRange([t]) by { assert [t][0] == t; }
    EncodedToken(written, data, i, ts, t, len, more);
  }

  /** Writes the tokens of a match. */
  method WriteMatch(w: Writer, ghost data: seq<byte>, ghost i: nat, ghost p: nat, best: nat, d: nat, ghost ts: seq<Token>)
      returns (ghost t: Token)
    requires w.Valid() && i <= |data| && Encoded(w.written, data, i, ts)
    requires GoodMatch(data, i, p, best) && d == i - p
    modifies w
    ensures w.Valid() && i + best <= |data| && Encoded(w.written, data, i + best, ts + [t])
    ensures |w.out| >= old(|w.out|)
  {
    hide Encoded, CodeBits, ToBits, ByteBits, FixedLens, FixedDists, IsMatch, LengthExtra, DistExtra, LengthBase, DistBase,
      LengthC, DistC, Pow2;
    MatchInside(data, i, p, best);
    var j := LengthSymbol(best);
    LengthTable(j);
    w.Huff(j + 257);
    WriteExtra(w, best - LengthC(j), LengthExtra(j));
    var k := DistSymbol(d);
    DistTable(k);
    w.HuffDist(k);
    WriteExtra(w, d - DistC(k), DistExtra(k));
    t := Match(j, best - LengthC(j), k, d - DistC(k));
    EncodedMatch(old(w.written), data, i, ts, t, p, best, w.written);
  }

  /** Extra bits; the source skips the write when there are none. */
  method WriteExtra(w: Writer, x: nat, n: nat)
    requires w.Valid() && x < Pow2(n)
    modifies w
    ensures w.Valid() && w.written == old(w.written) + ToBits(x, n)
    ensures |w.out| >= old(|w.out|)
  {
    if n != 0 { w.Add(x, n); }
  }

  // ----- hash chains

  /** Every position listed lies before i. */
  ghost predicate ChainsBefore(table: array<seq<nat>>, i: nat)
    reads table
  {
    table.Length == ZHASH && forall h :: 0 <= h < ZHASH ==> ChainBefore(table[h], i)
  }

  ghost predicate ChainBefore(chain: seq<nat>, i: nat) {
    forall k :: 0 <= k < |chain| ==> chain[k] < i
  }

  /** Lists position i; a chain of 2 * quality entries first loses its older half. */
  method Insert(table: array<seq<nat>>, h: nat, i: nat, quality: nat)
    requires ChainsBefore(table, i) && h < ZHASH
    modifies table
    ensures ChainsBefore(table, i + 1)
    ensures table[h] == old(if |table[h]| == 2 * quality then table[h][quality..] else table[h]) + [i]
    ensures forall k :: 0 <= k < ZHASH && k != h ==> table[k] == old(table[k])
  {
    if |table[h]| == 2 * quality {
      table[h] := table[h][quality..];
    }
    table[h] := table[h] + [i];
    forall k | 0 <= k < ZHASH ensures ChainBefore(table[k], i + 1) {
      assert old(ChainBefore(table[k], i));
    }
  }

  /** The whole deflate block: tokens for all the data, the end of the block, and padding. */
  method DeflateBlock(w: Writer, data: seq<byte>, quality: nat) returns (ghost ts: seq<Token>, ghost pad: seq<bool>)
    requires w.Valid() && w.written == ByteBits(ZLIB_HEADER) && w.out == ZLIB_HEADER
    modifies w
    ensures w.Valid() && w.bitcount == 0
    ensures AllCodable(FixedLens(), FixedDists(), ts) && InRange(ts) && |ts| <= |data|
    ensures ReplayAll([], ts) == Some(data)
    ensures ByteBits(w.out) ==
      BlockStart() + TokensBits(FixedLens(), FixedDists(), ts) + CodeBits(FixedLens(), END_OF_BLOCK) + pad
    ensures |w.out| >= 2
  {
    hide CodeBits, ToBits, ByteBits, FixedLens, FixedDists, GoodMatch, IsBest, Encoded, Bucket, LengthAt;
    SmallNumbers(1, 1);
    w.Add(1, 1);
    w.Add(1, 2);
    ts := [];
    EncodedNothing(w.written, data);
    var table := new seq<nat>[ZHASH](_ => []);
    var i := 0;
    while i + 3 < |data|
      invariant i <= |data| && w.Valid() && |w.out| >= 2
      invariant Encoded(w.written, data, i, ts)
      invariant ChainsBefore(table, i)
      decreases |data| - i
    {
      var h := Bucket(data, i);
      assert ChainBefore(table[h], i);
      var best, bestloc := FindBest(data, i, table[h]);
      Insert(table, h, i, quality);
      if bestloc.Some? {
        var h1 := Bucket(data, i + 1);
        assert ChainBefore(table[h1], i + 1);
        var longer := LongerAt(data, i + 1, table[h1], best);
        if longer { bestloc := None; }
      }
      if bestloc.Some? {
        MatchInside(data, i, bestloc.value, best);
        var d := i - bestloc.value;
        ghost var t := WriteMatch(w, data, i, bestloc.value, best, d, ts);
        ts := ts + [t];
        ChainsLater(table, i + 1, i + best);
        i := i + best;
      } else {
        ghost var before := w.written;
        w.Huff(data[i]);
        EncodedLiteral(before, data, i, ts, w.written);
        ts := ts + [Literal(data[i])];
        i := i + 1;
      }
    }
    while i < |data|
      invariant i <= |data| && w.Valid() && |w.out| >= 2
      invariant Encoded(w.written, data, i, ts)
    {
      ghost var before := w.written;
      w.Huff(data[i]);
      EncodedLiteral(before, data, i, ts, w.written);
      ts := ts + [Literal(data[i])];
      i := i + 1;
    }
    EncodedAll(w.written, data, i, ts);
    w.Huff(256);
    pad := w.Pad();
  }

  lemma MatchInside(data: seq<byte>, i: nat, p: nat, len: nat)
    requires GoodMatch(data, i, p, len)
    ensures p < i && i + len <= |data| && len >= 3
  {
  }

  lemma ChainsLater(table: array<seq<nat>>, i: nat, j: nat)
    requires i <= j && ChainsBefore(table, i)
    ensures ChainsBefore(table, j)
  {
    forall k | 0 <= k < ZHASH ensures ChainBefore(table[k], j) {
      assert ChainBefore(table[k], i);
    }
  }

  lemma EncodedNothing(written: seq<bool>, data: seq<byte>)
    requires written == BlockStart()
    ensures Encoded(written, data, 0, [])
  {
    hide BlockStart;
    assert written == BlockStart() + [];
    assert data[..0] == [];
  }

  lemma EncodedAll(written: seq<bool>, data: seq<byte>, i: nat, ts: seq<Token>)
    requires i == |data| && Encoded(written, data, i, ts)
    ensures AllCodable(FixedLens(), FixedDists(), ts) && InRange(ts) && |ts| <= |data|
    ensures written == BlockStart() + TokensBits(FixedLens(), FixedDists(), ts)
    ensures ReplayAll([], ts) == Some(data)
  {
    assert data[..i] == data;
  }
}
