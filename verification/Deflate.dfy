/** The compressed data format of sections 3.1 and 3.2 of RFC 1951: tokens, blocks, the bits that
    stand for them and the bytes they stand for. */
module Deflate {
  import opened Bits
  import opened Lz77
  import opened Canonical
  import opened Wrappers

  datatype Token =
    | Literal(b: byte)
    | Match(lsym: nat, lextra: nat, dsym: nat, dextra: nat)

  function LengthBase(z: nat): nat
    requires z < 31
  {
    [3, 4, 5, 6, 7, 8, 9, 10, 11, 13, 15, 17, 19, 23, 27, 31, 35, 43, 51, 59, 67, 83, 99, 115,
     131, 163, 195, 227, 258, 0, 0][z]
  }

  function LengthExtra(z: nat): (n: nat)
    requires z < 31
    ensures n <= 5
  {
    [0, 0, 0, 0, 0, 0, 0, 0, 1, 1, 1, 1, 2, 2, 2, 2, 3, 3, 3, 3, 4, 4, 4, 4, 5, 5, 5, 5, 0, 0, 0][z]
  }

  function DistBase(z: nat): nat
    requires z < 32
  {
    [1, 2, 3, 4, 5, 7, 9, 13, 17, 25, 33, 49, 65, 97, 129, 193, 257, 385, 513, 769, 1025, 1537,
     2049, 3073, 4097, 6145, 8193, 12289, 16385, 24577, 0, 0][z]
  }

  function DistExtra(z: nat): (n: nat)
    requires z < 32
    ensures n <= 13
  {
    [0, 0, 0, 0, 1, 1, 2, 2, 3, 3, 4, 4, 5, 5, 6, 6, 7, 7, 8, 8, 9, 9, 10, 10, 11, 11, 12, 12,
     13, 13, 0, 0][z]
  }

  const END_OF_BLOCK := 256

  /** Four symbols for every number of extra bits, eight for none, each beginning where the one before ends. */
  predicate LengthStep(z: nat)
    requires z < 28
  {
    && LengthExtra(z) == (if z < 8 then 0 else (z - 4) / 4)
    && (z < 27 ==> LengthBase(z + 1) == LengthBase(z) + Power(LengthExtra(z)))
  }

  lemma LengthUpTo10(z: nat)
    requires z < 10
    ensures LengthStep(z)
  {
  }

  lemma LengthUpTo19(z: nat)
    requires 10 <= z < 19
    ensures LengthStep(z)
  {
  }

  lemma LengthUpTo28(z: nat)
    requires 19 <= z < 28
    ensures LengthStep(z)
  {
  }

  /** The table of lengths of section 3.2.5 by rule; the longest, 258, has a symbol of its own. */
  lemma LengthRule()
    ensures LengthBase(0) == 3 && LengthBase(28) == 258 && LengthExtra(28) == 0
    ensures forall z :: 0 <= z < 28 ==> LengthStep(z)
  {
    hide LengthStep;
    forall z: nat | z < 28 ensures LengthStep(z) {
      if z < 10 { LengthUpTo10(z); } else if z < 19 { LengthUpTo19(z); } else { LengthUpTo28(z); }
    }
  }

  /** Two symbols for every number of extra bits, four for none. */
  predicate DistStep(d: nat)
    requires d < 30
  {
    && DistExtra(d) == (if d < 4 then 0 else (d - 2) / 2)
    && (d < 29 ==> DistBase(d + 1) == DistBase(d) + Power(DistExtra(d)))
  }

  lemma DistUpTo10(d: nat)
    requires d < 10
    ensures DistStep(d)
  {
  }

  lemma DistUpTo20(d: nat)
    requires 10 <= d < 20
    ensures DistStep(d)
  {
  }

  lemma DistUpTo30(d: nat)
    requires 20 <= d < 30
    ensures DistStep(d)
  {
  }

  /** The table of distances by rule. */
  lemma DistRule()
    ensures DistBase(0) == 1 && forall d :: 0 <= d < 30 ==> DistStep(d)
  {
    hide DistStep;
    forall d: nat | d < 30 ensures DistStep(d) {
      if d < 10 { DistUpTo10(d); } else if d < 20 { DistUpTo20(d); } else { DistUpTo30(d); }
    }
  }

  /** Powers of two up to 2^13. */
  function Power(n: nat): nat
    requires n <= 13
  {
    [1, 2, 4, 8, 16, 32, 64, 128, 256, 512, 1024, 2048, 4096, 8192][n]
  }

  // ----- what tokens stand for

  function LengthOf(t: Token): nat
    requires t.Match? && t.lsym < 31
  {
    LengthBase(t.lsym) + t.lextra
  }

  function DistanceOf(t: Token): nat
    requires t.Match? && t.dsym < 32
  {
    DistBase(t.dsym) + t.dextra
  }

  /** The match uses a distance of the format, which lies within the bytes already there. */
  predicate Replayable(out: seq<byte>, t: Token) {
    t.Match? ==> t.lsym < 31 && t.dsym < 30 && 1 <= DistanceOf(t) <= |out|
  }

  function Replay(out: seq<byte>, t: Token): Option<seq<byte>> {
    match t
    case Literal(b) => Some(out + [b])
    case Match(_, _, _, _) =>
      if Replayable(out, t) then Some(CopyBack(out, DistanceOf(t), LengthOf(t))) else None
  }

  /** The bytes that out grows to, if every match lies within the bytes before it. */
  function ReplayAll(out: seq<byte>, ts: seq<Token>): Option<seq<byte>> {
    if ts == [] then Some(out)
    else
      var before := ReplayAll(out, ts[..|ts| - 1]);
      if before.None? then None else Replay(before.value, ts[|ts| - 1])
  }

  // ----- the bits of tokens

  /** The token can be written with the codes lens and dlens. */
  ghost predicate Codable(lens: seq<nat>, dlens: seq<nat>, t: Token) {
    match t
    case Literal(b) => b < |lens| && lens[b] > 0
    case Match(ls, lx, ds, dx) =>
      && ls < 31 && ls + 257 < |lens| && lens[ls + 257] > 0 && lx < Pow2(LengthExtra(ls))
      && ds < 32 && ds < |dlens| && dlens[ds] > 0 && dx < Pow2(DistExtra(ds))
  }

  ghost function TokenBits(lens: seq<nat>, dlens: seq<nat>, t: Token): seq<bool>
    requires Codable(lens, dlens, t)
  {
    match t
    case Literal(b) => CodeBits(lens, b)
    case Match(ls, lx, ds, dx) =>
      (CodeBits(lens, ls + 257) + ToBits(lx, LengthExtra(ls))) +
      (CodeBits(dlens, ds) + ToBits(dx, DistExtra(ds)))
  }

  ghost predicate AllCodable(lens: seq<nat>, dlens: seq<nat>, ts: seq<Token>) {
    forall i :: 0 <= i < |ts| ==> Codable(lens, dlens, ts[i])
  }

  ghost function TokensBits(lens: seq<nat>, dlens: seq<nat>, ts: seq<Token>): seq<bool>
    requires AllCodable(lens, dlens, ts)
  {
    if ts == [] then []
    else TokensBits(lens, dlens, ts[..|ts| - 1]) + TokenBits(lens, dlens, ts[|ts| - 1])
  }

  // ----- lemmas

  lemma {:induction false} TokensBitsPrefix(lens: seq<nat>, dlens: seq<nat>, ts: seq<Token>, n: nat)
    requires n <= |ts| && AllCodable(lens, dlens, ts)
    ensures AllCodable(lens, dlens, ts[..n])
    ensures TokensBits(lens, dlens, ts[..n]) <= TokensBits(lens, dlens, ts)
  {
    hide Codable, TokenBits;
    if n < |ts| {
      var c := ts[..|ts| - 1];
      TokensBitsPrefix(lens, dlens, c, n);
      assert c[..n] == ts[..n];
    } else {
      assert ts[..n] == ts;
    }
  }

  lemma TokensBitsSnoc(lens: seq<nat>, dlens: seq<nat>, ts: seq<Token>, t: Token)
    requires AllCodable(lens, dlens, ts) && Codable(lens, dlens, t)
    ensures AllCodable(lens, dlens, ts + [t])
    ensures TokensBits(lens, dlens, ts + [t]) == TokensBits(lens, dlens, ts) + TokenBits(lens, dlens, t)
  {
    assert (ts + [t])[..|ts|] == ts;
  }

  lemma ReplaySnoc(out: seq<byte>, ts: seq<Token>, t: Token)
    requires ReplayAll(out, ts).Some?
    ensures ReplayAll(out, ts + [t]) == Replay(ReplayAll(out, ts).value, t)
  {
    assert (ts + [t])[..|ts|] == ts;
  }

  /** Before each of its tokens a replay has not failed. */
  lemma {:induction false} ReplayPrefix(out: seq<byte>, ts: seq<Token>, n: nat)
    requires n <= |ts| && ReplayAll(out, ts).Some?
    ensures ReplayAll(out, ts[..n]).Some?
    ensures n < |ts| ==> Replay(ReplayAll(out, ts[..n]).value, ts[n]).Some?
  {
    if n < |ts| {
      var m := |ts| - 1;
      if n < m {
        ReplayPrefix(out, ts[..m], n);
        assert ts[..m][..n] == ts[..n];
      }
    } else {
      assert ts[..n] == ts;
    }
  }
}
