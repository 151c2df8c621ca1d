/** The inflater: Huffman blocks, stored blocks, dynamic code lengths and the zlib wrapper. */
module Inflate {
  import opened Bits
  import opened Canonical
  import opened ZHuffman
  import opened BitReader
  import opened Deflate
  import opened InflateEnds
  import opened Lz77
  import opened Turns
  import opened Wrappers

  /** The bits come next in the stream at position p. */
  ghost predicate Follows(s: seq<bool>, p: nat, bits: seq<bool>) {
    Window(s, p, |bits|) == bits
  }

  lemma FollowsSplit(s: seq<bool>, p: nat, a: seq<bool>, b: seq<bool>)
    ensures Follows(s, p, a + b) <==> Follows(s, p, a) && Follows(s, p + |a|, b)
  {
    WindowSplit(s, p, |a|, |b|);
    var w := Window(s, p, |a| + |b|);
    assert w[..|a|] == Window(s, p, |a|) && w[|a|..] == Window(s, p + |a|, |b|);
    assert (a + b)[..|a|] == a && (a + b)[|a|..] == b;
  }

  lemma FollowsPrefix(s: seq<bool>, p: nat, a: seq<bool>, b: seq<bool>)
    requires a <= b && Follows(s, p, b)
    ensures Follows(s, p, a)
  {
    assert b == a + b[|a|..];
    FollowsSplit(s, p, a, b[|a|..]);
  }

  lemma MatchesIsFollows(lens: seq<nat>, i: nat, s: seq<bool>, p: nat)
    requires ZLengths(lens)
    ensures Matches(lens, i, Window(s, p, 16)) <==>
      i < |lens| && lens[i] > 0 && Follows(s, p, CodeBits(lens, i))
  {
    if i < |lens| && lens[i] > 0 { WindowPrefix(s, p, lens[i], 16); }
  }

  /** At most one symbol's code comes next. */
  lemma FollowsUnique(lens: seq<nat>, i: nat, r: nat, s: seq<bool>, p: nat)
    requires Fits(lens) && ZLengths(lens) && i < |lens| && lens[i] > 0
    requires Follows(s, p, CodeBits(lens, i)) && Matches(lens, r, Window(s, p, 16))
    ensures i == r
  {
    MatchesIsFollows(lens, i, s, p);
    MatchUnique(lens, i, r, Window(s, p, 16));
  }

  /** What a reader of valid data finds at p: a token, or the end of the block (None), with the 16
      bits that the reader wants to see from the start of every symbol. */
  ghost predicate Expected(lens: seq<nat>, dlens: seq<nat>, want: Option<Token>, s: seq<bool>, p: nat) {
    match want
    case Some(t) =>
      Codable(lens, dlens, t) && Follows(s, p, TokenBits(lens, dlens, t)) && p + |TokenBits(lens, dlens, t)| + 16 <= |s|
    case None => EndFollows(lens, s, p) && p + 16 <= |s|
  }

  ghost predicate EndFollows(lens: seq<nat>, s: seq<bool>, p: nat) {
    END_OF_BLOCK < |lens| && lens[END_OF_BLOCK] > 0 && Follows(s, p, CodeBits(lens, END_OF_BLOCK))
  }

  /** The step that carries out the token. */
  ghost predicate StepOf(t: Token, st: Step) {
    match t
    case Literal(b) => st == Byte(b)
    case Match(ls, lx, ds, dx) => ls < 31 && ds < 32 && st == Copy(LengthOf(t), DistanceOf(t))
  }

  /** The code of the expected token's first symbol. */
  ghost function FirstSymbol(want: Option<Token>): nat {
    match want
    case Some(Literal(b)) => b
    case Some(Match(ls, _, _, _)) => ls + 257
    case None => END_OF_BLOCK
  }

  lemma ExpectedFirst(lens: seq<nat>, dlens: seq<nat>, want: Option<Token>, s: seq<bool>, p: nat)
    requires Expected(lens, dlens, want, s, p)
    ensures var i := FirstSymbol(want); i < |lens| && lens[i] > 0 && Follows(s, p, CodeBits(lens, i))
    ensures p + 16 <= |s|
  {
    match want
    case Some(Match(ls, lx, ds, dx)) =>
      var a, b := CodeBits(lens, ls + 257), ToBits(lx, LengthExtra(ls));
      var c := CodeBits(dlens, ds) + ToBits(dx, DistExtra(ds));
      FollowsSplit(s, p, a + b, c);
      FollowsSplit(s, p, a, b);
    case _ =>
  }

  /** The four parts of a match, each where the one before it stops. */
  lemma MatchParts(lens: seq<nat>, dlens: seq<nat>, t: Token, s: seq<bool>, p: nat)
    requires t.Match? && Codable(lens, dlens, t)
    ensures var p1 := p + lens[t.lsym + 257];
            var p2 := p1 + LengthExtra(t.lsym);
            var p3 := p2 + dlens[t.dsym];
            && |TokenBits(lens, dlens, t)| == p3 + DistExtra(t.dsym) - p
            && (Follows(s, p, TokenBits(lens, dlens, t)) <==>
                && Follows(s, p, CodeBits(lens, t.lsym + 257))
                && Follows(s, p1, ToBits(t.lextra, LengthExtra(t.lsym)))
                && Follows(s, p2, CodeBits(dlens, t.dsym))
                && Follows(s, p3, ToBits(t.dextra, DistExtra(t.dsym))))
  {
    hide CodeBits, ToBits, Window, Follows, Pow2;
    var a, b := CodeBits(lens, t.lsym + 257), ToBits(t.lextra, LengthExtra(t.lsym));
    var c, d := CodeBits(dlens, t.dsym), ToBits(t.dextra, DistExtra(t.dsym));
    FollowsSplit(s, p, a + b, c + d);
    FollowsSplit(s, p, a, b);
    FollowsSplit(s, p + |a| + |b|, c, d);
  }

  /** What Decode promises is what SymbolRead says. */
  lemma SymbolReadIs(lens: seq<nat>, s: seq<bool>, p: nat, n: nat, r: int)
    requires ZLengths(lens) && Fits(lens) && n <= 32 && r < |lens|
    requires r >= 0 ==> Matches(lens, r, Window(s, p, 16))
    requires r < 0 <==> (n < 16 && p + n >= |s|) || forall i: nat :: !Matches(lens, i, Window(s, p, 16))
    ensures SymbolRead(lens, s, p, n) ==
      if r < 0 then None else var i: nat := r; Some(Read(i, p + lens[i], Refilled(n, 16) - lens[i]))
  {
    hide Window, Matches, SymbolAt;
    if r >= 0 { SymbolIs(lens, r, Window(s, p, 16)); }
  }

  /** Reads one token of a block: the token whose bits come next. */
  method ReadToken(a: ZBuf, ghost lens: seq<nat>, ghost dlens: seq<nat>, ghost want: Option<Token>)
      returns (st: Step, ghost t: Token)
    requires a.Valid() && a.z_length.Built(lens) && a.z_distance.Built(dlens) && |dlens| <= 32
    modifies a`pos, a`num_bits, a`code_buffer, a`fetched
    ensures a.Valid()
    ensures st.End? ==> EndFollows(lens, a.Stream(), old(a.BitPos())) && a.BitPos() == old(a.BitPos()) + lens[END_OF_BLOCK]
    ensures st.Byte? || st.Copy? ==>
      && Codable(lens, dlens, t) && StepOf(t, st)
      && Follows(a.Stream(), old(a.BitPos()), TokenBits(lens, dlens, t))
      && a.BitPos() == old(a.BitPos()) + |TokenBits(lens, dlens, t)|
    ensures var r := TokenRead(lens, dlens, a.Stream(), old(a.BitPos()), old(a.num_bits));
      st == r.value && (!st.Bad? ==> a.BitPos() == r.p && a.num_bits == r.n)
    ensures Expected(lens, dlens, want, a.Stream(), old(a.BitPos())) ==>
      if want.None? then st.End? else (st.Byte? || st.Copy?) && t == want.value
  {
    hide ZBuf.Buffered, CodeBits, ToBits, ByteBits, Window, Matches, FastEntry, Fits, RangesSet, Listed, Pow2, MatchRead,
      SymbolRead;
    hide LengthBase, LengthExtra, DistBase, DistExtra, LengthOf, DistanceOf, Follows, Expected, ZLengths, Refilled;
    ghost var s, p, n := a.Stream(), a.BitPos(), a.num_bits;
    ghost var hope := Expected(lens, dlens, want, s, p);
    if hope { ExpectedFirst(lens, dlens, want, s, p); MatchesIsFollows(lens, FirstSymbol(want), s, p); }
    t := Literal(0);
    a.AtEof();
    var z := a.Decode(a.z_length, lens);
    SymbolReadIs(lens, s, p, n, z);
    if z < 0 { return Bad, t; }
    MatchesIsFollows(lens, z, s, p);
    if hope { FollowsUnique(lens, FirstSymbol(want), z, s, p); }
    if z < 256 {
      t := Literal(z);
      return Byte(z), t;
    }
    if z == 256 { return End, t; }
    z := z - 257;
    st, t := ReadMatch(a, lens, dlens, z, p, if hope then want else None);
  }

  /** The rest of a match after its length symbol. */
  method ReadMatch(a: ZBuf, ghost lens: seq<nat>, ghost dlens: seq<nat>, lsym: nat, ghost p: nat, ghost want: Option<Token>)
      returns (st: Step, ghost t: Token)
    requires a.Valid() && a.z_distance.Built(dlens) && |dlens| <= 32
    requires lsym + 257 < |lens| <= ZNSYMS && lens[lsym + 257] > 0
    requires Follows(a.Stream(), p, CodeBits(lens, lsym + 257)) && a.BitPos() == p + lens[lsym + 257]
    requires want.Some? ==> Expected(lens, dlens, want, a.Stream(), p) && want.value.Match? && want.value.lsym == lsym
    modifies a`pos, a`num_bits, a`code_buffer, a`fetched
    ensures a.Valid() && (st.Bad? || st.Copy?)
    ensures st.Copy? ==>
      && Codable(lens, dlens, t) && StepOf(t, st)
      && Follows(a.Stream(), p, TokenBits(lens, dlens, t))
      && a.BitPos() == p + |TokenBits(lens, dlens, t)|
    ensures var r := MatchRead(dlens, lsym, a.Stream(), old(a.BitPos()), old(a.num_bits));
      st == r.value && (!st.Bad? ==> a.BitPos() == r.p && a.num_bits == r.n)
    ensures want.Some? ==> st.Copy? && t == want.value
  {
    hide ZBuf.Buffered, CodeBits, ToBits, ByteBits, Window, Matches, FastEntry, Fits, RangesSet, Listed, Pow2, SymbolRead,
      ExtraRead;
    hide TokenBits, Follows, LengthBase, LengthExtra, DistBase, DistExtra, ZLengths, Refilled;
    ghost var s := a.Stream();
    if want.Some? { MatchParts(lens, dlens, want.value, s, p); }
    t := Literal(0);
    var len := LengthBase(lsym);
    var lextra := ReadExtra(a, LengthExtra(lsym));
    len := len + lextra;
    ghost var p2, n := a.BitPos(), a.num_bits;
    if want.Some? { SameNumber(lextra, want.value.lextra, LengthExtra(lsym), s, p + lens[lsym + 257]); }
    a.AtEof();
    var z := a.Decode(a.z_distance, dlens);
    SymbolReadIs(dlens, s, p2, n, z);
    if want.Some? { MatchesIsFollows(dlens, want.value.dsym, s, p2); }
    if z < 0 { return Bad, t; }
    MatchesIsFollows(dlens, z, s, p2);
    if want.Some? { FollowsUnique(dlens, want.value.dsym, z, s, p2); }
    ghost var p3 := a.BitPos();
    var dist := DistBase(z);
    var dextra := ReadExtra(a, DistExtra(z));
    dist := dist + dextra;
    if want.Some? { SameNumber(dextra, want.value.dextra, DistExtra(z), s, p3); }
    t := Match(lsym, lextra, z, dextra);
    MatchParts(lens, dlens, t, s, p);
    st := Copy(len, dist);
  }

  /** The extra bits of a length or distance symbol; no bits are no read. */
  method ReadExtra(a: ZBuf, n: nat) returns (k: nat)
    requires a.Valid() && n <= 24
    modifies a`pos, a`num_bits, a`code_buffer, a`fetched
    ensures a.Valid() && a.BitPos() == old(a.BitPos()) + n
    ensures Read(k, a.BitPos(), a.num_bits) == ExtraRead(a.Stream(), old(a.BitPos()), old(a.num_bits), n)
    ensures k < Pow2(n) && Follows(a.Stream(), old(a.BitPos()), ToBits(k, n))
  {
    hide ZBuf.Buffered, ByteBits;
    k := 0;
    if n != 0 { k := a.Receive(n); }
    FromToBits(k, n);
    LowSmall(k, n);
  }

  lemma SameNumber(x: nat, y: nat, n: nat, s: seq<bool>, p: nat)
    requires x < Pow2(n) && y < Pow2(n)
    requires Follows(s, p, ToBits(x, n)) && Follows(s, p, ToBits(y, n))
    ensures x == y
  {
    ToBitsInjective(x, y, n);
  }

  // ----- Huffman blocks

  /** Appends len bytes, each a repetition of the one dist before it. A distance of zero, which no
      valid stream contains, repeats whatever the memory past the output holds. */
  method CopyOut(a: ZBuf, len: nat, dist: nat)
    requires dist <= |a.zout|
    modifies a`zout
    ensures |a.zout| == old(|a.zout|) + len && old(a.zout) <= a.zout
    ensures dist > 0 ==> a.zout == CopyBack(old(a.zout), dist, len)
  {
    hide ZBuf.Buffered;
    var n := len;
    if dist == 1 {
      var v := a.zout[|a.zout| - 1];
      while n > 0
        invariant |a.zout| >= 1 && a.zout[|a.zout| - 1] == v && |a.zout| + n == old(|a.zout|) + len && old(a.zout) <= a.zout
        invariant CopyBack(a.zout, 1, n) == CopyBack(old(a.zout), dist, len)
      {
        a.zout := a.zout + [v];
        n := n - 1;
      }
    } else {
      var p: nat := |a.zout| - dist;
      while n > 0
        invariant p + dist == |a.zout| && |a.zout| + n == old(|a.zout|) + len && old(a.zout) <= a.zout
        invariant dist > 0 ==> CopyBack(a.zout, dist, n) == CopyBack(old(a.zout), dist, len)
      {
        var b: byte;
        if p < |a.zout| { b := a.zout[p]; } else { b := *; }
        a.zout := a.zout + [b];
        p := p + 1;
        n := n - 1;
      }
    }
  }

  /** What the token does to the output. A reserved distance symbol leaves whatever the memory past the
      output holds. */
  ghost predicate CarriedOut(mid: seq<byte>, t: Token, after: seq<byte>) {
    match t
    case Literal(b) => after == mid + [b]
    case Match(ls, _, ds, _) =>
      && ls < 31 && ds < 32 && DistanceOf(t) <= |mid|
      && if DistanceOf(t) > 0 then after == CopyBack(mid, DistanceOf(t), LengthOf(t))
         else mid <= after && |after| == |mid| + LengthOf(t)
  }

  /** The tokens, carried out one after the other, make this of the output. */
  ghost predicate Realizes(before: seq<byte>, ts: seq<Token>, after: seq<byte>)
    decreases |ts|
  {
    if ts == [] then after == before
    else
      var n := |ts| - 1;
      exists mid: seq<byte> {:trigger CarriedOut(mid, ts[n], after)} :: Realizes(before, ts[..n], mid) && CarriedOut(mid, ts[n], after)
  }

  ghost predicate Reserved(ts: seq<Token>) {
    exists i :: 0 <= i < |ts| && ts[i].Match? && ts[i].dsym >= 30
  }

  ghost predicate BlockFollows(lens: seq<nat>, dlens: seq<nat>, ts: seq<Token>, s: seq<bool>, p: nat) {
    && AllCodable(lens, dlens, ts)
    && Follows(s, p, TokensBits(lens, dlens, ts))
    && EndFollows(lens, s, p + |TokensBits(lens, dlens, ts)|)
  }

  /** A block that the reader must accept: with 16 bits from the start of its last symbol on. */
  ghost predicate BlockWanted(lens: seq<nat>, dlens: seq<nat>, ts: seq<Token>, s: seq<bool>, p: nat) {
    BlockFollows(lens, dlens, ts, s, p) && p + |TokensBits(lens, dlens, ts)| + 16 <= |s|
  }

  lemma NextExpected(lens: seq<nat>, dlens: seq<nat>, ts: seq<Token>, m: nat, s: seq<bool>, p: nat)
    requires BlockWanted(lens, dlens, ts, s, p) && m <= |ts|
    ensures AllCodable(lens, dlens, ts[..m])
    ensures Expected(lens, dlens, if m < |ts| then Some(ts[m]) else None, s, p + |TokensBits(lens, dlens, ts[..m])|)
  {
    hide Codable, TokenBits, TokensBits, Follows, CodeBits;
    TokensBitsPrefix(lens, dlens, ts, m);
    if m < |ts| {
      TokensBitsPrefix(lens, dlens, ts, m + 1);
      assert Codable(lens, dlens, ts[m]);
      TokensBitsSnoc(lens, dlens, ts[..m], ts[m]);
      assert ts[..m + 1] == ts[..m] + [ts[m]];
      FollowsPrefix(s, p, TokensBits(lens, dlens, ts[..m + 1]), TokensBits(lens, dlens, ts));
      FollowsSplit(s, p, TokensBits(lens, dlens, ts[..m]), TokenBits(lens, dlens, ts[m]));
    } else {
      assert ts[..m] == ts;
    }
  }

  lemma BlockGrows(lens: seq<nat>, dlens: seq<nat>, ts: seq<Token>, t: Token, s: seq<bool>, p: nat)
    requires AllCodable(lens, dlens, ts) && Codable(lens, dlens, t)
    requires Follows(s, p, TokensBits(lens, dlens, ts))
    requires Follows(s, p + |TokensBits(lens, dlens, ts)|, TokenBits(lens, dlens, t))
    ensures AllCodable(lens, dlens, ts + [t])
    ensures Follows(s, p, TokensBits(lens, dlens, ts + [t]))
    ensures |TokensBits(lens, dlens, ts + [t])| == |TokensBits(lens, dlens, ts)| + |TokenBits(lens, dlens, t)|
  {
    hide Codable, TokenBits, TokensBits, Follows;
    TokensBitsSnoc(lens, dlens, ts, t);
    FollowsSplit(s, p, TokensBits(lens, dlens, ts), TokenBits(lens, dlens, t));
  }

  lemma RealizesGrows(before: seq<byte>, ts: seq<Token>, mid: seq<byte>, t: Token, after: seq<byte>)
    requires Realizes(before, ts, mid) && CarriedOut(mid, t, after)
    ensures Realizes(before, ts + [t], after)
  {
    hide CarriedOut;
    assert (ts + [t])[..|ts|] == ts && (ts + [t])[|ts|] == t;
  }

  lemma FrontReserved(ts: seq<Token>, n: nat)
    requires n <= |ts| && Reserved(ts[..n])
    ensures Reserved(ts)
  {
    var i :| 0 <= i < n && ts[..n][i].Match? && ts[..n][i].dsym >= 30;
    assert ts[i] == ts[..n][i];
  }

  /** Without reserved distance symbols that is the replay. */
  lemma {:induction false} RealizesIsReplay(before: seq<byte>, ts: seq<Token>, after: seq<byte>)
    requires !Reserved(ts)
    ensures Realizes(before, ts, after) <==> ReplayAll(before, ts) == Some(after)
    decreases |ts|
  {
    hide CarriedOut, Replay;
    if ts != [] {
      var n := |ts| - 1;
      var front, t := ts[..n], ts[n];
      if Reserved(front) { FrontReserved(ts, n); }
      if mid: seq<byte> :| Realizes(before, front, mid) && CarriedOut(mid, t, after) {
        RealizesIsReplay(before, front, mid);
        CarriedIsReplay(mid, t, after);
      }
      var r := ReplayAll(before, front);
      if r.Some? && Replay(r.value, t) == Some(after) {
        RealizesIsReplay(before, front, r.value);
        CarriedIsReplay(r.value, t, after);
      }
    }
  }

  lemma CarriedIsReplay(mid: seq<byte>, t: Token, after: seq<byte>)
    requires t.Match? ==> t.dsym < 30
    ensures CarriedOut(mid, t, after) <==> Replay(mid, t) == Some(after)
  {
    if t.Match? { DistPositive(t.dsym); }
  }

  lemma DistPositive(z: nat)
    requires z < 30
    ensures DistBase(z) >= 1
  {
  }

  /** Every token has a bit. */
  lemma {:induction false} TokensTakeBits(lens: seq<nat>, dlens: seq<nat>, ts: seq<Token>)
    requires AllCodable(lens, dlens, ts)
    ensures |ts| <= |TokensBits(lens, dlens, ts)|
  {
    hide CodeBits, ToBits;
    if ts != [] {
      assert Codable(lens, dlens, ts[|ts| - 1]);
      TokensTakeBits(lens, dlens, ts[..|ts| - 1]);
    }
  }

  lemma FewTokens(lens: seq<nat>, dlens: seq<nat>, ts: seq<Token>, s: seq<bool>, p: nat)
    requires BlockWanted(lens, dlens, ts, s, p)
    ensures |ts| < |s|
  {
    hide TokensBits, EndFollows, Follows, AllCodable;
    TokensTakeBits(lens, dlens, ts);
  }

  lemma BuiltCodes(a: ZBuf, lens: seq<nat>, dlens: seq<nat>)
    requires a.z_length.Built(lens) && a.z_distance.Built(dlens) && |dlens| <= 32
    ensures Codes(lens, dlens)
  {
  }

  /** After i turns the loop goes on, and it stands here. */
  ghost predicate Stands(lens: seq<nat>, dlens: seq<nat>, s: seq<bool>, at: Place, i: nat, here: Place)
    requires Codes(lens, dlens) && at.n <= 32
  {
    Runs(lens, dlens, s, at, i).None? && After(lens, dlens, s, at, i) == here
  }

  lemma NoTurn(lens: seq<nat>, dlens: seq<nat>, s: seq<bool>, at: Place)
    requires Codes(lens, dlens) && at.n <= 32
    ensures Stands(lens, dlens, s, at, 0, at)
  {
  }

  /** From there the next turn ends the loop or leads on. */
  lemma TurnTaken(lens: seq<nat>, dlens: seq<nat>, s: seq<bool>, at: Place, i: nat, here: Place)
    requires Codes(lens, dlens) && at.n <= 32 && here.n <= 32 && Stands(lens, dlens, s, at, i, here) && i < |s| + ROUNDS
    ensures
      match TurnAt(lens, dlens, s, here)
      case Fails => EndedWith(lens, dlens, s, at, false)
      case Ends => EndedWith(lens, dlens, s, at, true) && EndPlace(lens, dlens, s, at, |s| + ROUNDS) == Behind(lens, dlens, s, here)
      case Goes(next) => Stands(lens, dlens, s, at, i + 1, next)
  {
    hide Runs, After, TurnAt, EndPlace, Behind;
    OneMore(lens, dlens, s, at, i);
    if TurnAt(lens, dlens, s, here).Ends? {
      EndAfter(lens, dlens, s, at, i);
      EndMore(lens, dlens, s, at, i + 1, |s| + ROUNDS);
    }
    if Runs(lens, dlens, s, at, i + 1).Some? { RunsMore(lens, dlens, s, at, i + 1, |s| + ROUNDS); }
  }

  ghost predicate EndedWith(lens: seq<nat>, dlens: seq<nat>, s: seq<bool>, at: Place, ok: bool)
    requires Codes(lens, dlens) && at.n <= 32
  {
    Terminates(lens, dlens, s, at) && Runs(lens, dlens, s, at, |s| + ROUNDS) == Some(ok)
  }

  lemma NotEnded(lens: seq<nat>, dlens: seq<nat>, s: seq<bool>, at: Place, here: Place)
    requires Codes(lens, dlens) && at.n <= 32 && Stands(lens, dlens, s, at, |s| + ROUNDS, here)
    ensures !Terminates(lens, dlens, s, at)
  {
    hide Runs, After;
    EndsInTime(lens, dlens, s, at);
  }

  /** The stream from p to q holds the tokens, and out is what they stand for. */
  ghost predicate Parsed(lens: seq<nat>, dlens: seq<nat>, ts: seq<Token>, s: seq<bool>, p: nat, q: nat,
                         before: seq<byte>, out: seq<byte>)
  {
    && AllCodable(lens, dlens, ts) && Follows(s, p, TokensBits(lens, dlens, ts))
    && q == p + |TokensBits(lens, dlens, ts)| && Realizes(before, ts, out)
  }

  lemma NothingParsed(lens: seq<nat>, dlens: seq<nat>, s: seq<bool>, p: nat, out: seq<byte>)
    ensures Parsed(lens, dlens, [], s, p, p, out, out) && ReplayAll(out, []) == Some(out)
  {
  }

  lemma ParsedGrows(lens: seq<nat>, dlens: seq<nat>, ts: seq<Token>, t: Token, s: seq<bool>, p: nat, q: nat,
                    before: seq<byte>, mid: seq<byte>, after: seq<byte>)
    requires Codable(lens, dlens, t) && CarriedOut(mid, t, after) && q >= |TokenBits(lens, dlens, t)|
    requires Parsed(lens, dlens, ts, s, p, q - |TokenBits(lens, dlens, t)|, before, mid)
    requires Follows(s, q - |TokenBits(lens, dlens, t)|, TokenBits(lens, dlens, t))
    ensures Parsed(lens, dlens, ts + [t], s, p, q, before, after)
  {
    hide AllCodable, Codable, TokenBits, TokensBits, Follows, Realizes, CarriedOut;
    BlockGrows(lens, dlens, ts, t, s, p);
    RealizesGrows(before, ts, mid, t, after);
  }

  /** The next of the tokens wanted comes next in the stream and can be carried out. */
  lemma NextWanted(lens: seq<nat>, dlens: seq<nat>, ts: seq<Token>, m: nat, s: seq<bool>, p: nat, q: nat,
                   before: seq<byte>, mid: seq<byte>)
    requires BlockWanted(lens, dlens, ts, s, p) && ReplayAll(before, ts).Some? && m <= |ts|
    requires Parsed(lens, dlens, ts[..m], s, p, q, before, mid) && ReplayAll(before, ts[..m]) == Some(mid)
    ensures Expected(lens, dlens, if m < |ts| then Some(ts[m]) else None, s, q)
    ensures m < |ts| ==> Replay(mid, ts[m]).Some?
  {
    hide AllCodable, TokensBits, Follows, Realizes, EndFollows, Expected, ReplayAll, Replay, BlockWanted;
    NextExpected(lens, dlens, ts, m, s, p);
    ReplayPrefix(before, ts, m);
  }

  lemma ParsedToEnd(lens: seq<nat>, dlens: seq<nat>, ts: seq<Token>, s: seq<bool>, p: nat, q: nat,
                    before: seq<byte>, out: seq<byte>)
    requires Parsed(lens, dlens, ts, s, p, q, before, out) && EndFollows(lens, s, q)
    ensures BlockFollows(lens, dlens, ts, s, p) && q == p + |TokensBits(lens, dlens, ts)| && Realizes(before, ts, out)
  {
    hide AllCodable, TokensBits, Follows, Realizes, EndFollows;
  }

  lemma CopyAllowed(mid: seq<byte>, t: Token, st: Step)
    requires Replay(mid, t).Some? && StepOf(t, st) && st.Copy?
    ensures 1 <= st.dist <= |mid|
  {
  }

  lemma ReplayStep(before: seq<byte>, ts: seq<Token>, mid: seq<byte>, t: Token, after: seq<byte>)
    requires ReplayAll(before, ts) == Some(mid) && Replay(mid, t).Some? && CarriedOut(mid, t, after)
    ensures ReplayAll(before, ts + [t]) == Some(after)
  {
    ReplaySnoc(before, ts, t);
  }

  /** One turn of the loop: how it ends the loop, if it does, and else the token it has carried out. */
  method ParseTurn(a: ZBuf, ghost lens: seq<nat>, ghost dlens: seq<nat>, ghost next: Option<Token>)
      returns (end: Option<bool>, ghost t: Token)
    requires a.Valid() && a.z_length.Built(lens) && a.z_distance.Built(dlens) && |dlens| <= 32
    modifies a`pos, a`num_bits, a`code_buffer, a`fetched, a`zout
    ensures a.Valid()
    ensures
      match TurnAt(lens, dlens, a.Stream(), Place(old(a.BitPos()), old(a.num_bits), old(|a.zout|)))
      case Fails => end == Some(false)
      case Ends => end == Some(true)
      case Goes(at) => end == None && at == Place(a.BitPos(), a.num_bits, |a.zout|)
    ensures end == Some(true) ==>
      && EndFollows(lens, a.Stream(), old(a.BitPos())) && a.BitPos() == old(a.BitPos()) + lens[END_OF_BLOCK] && a.zout == old(a.zout)
      && Place(a.BitPos(), a.num_bits, |a.zout|) ==
           Behind(lens, dlens, a.Stream(), Place(old(a.BitPos()), old(a.num_bits), old(|a.zout|)))
    ensures end.None? ==>
      && Codable(lens, dlens, t) && Follows(a.Stream(), old(a.BitPos()), TokenBits(lens, dlens, t))
      && a.BitPos() == old(a.BitPos()) + |TokenBits(lens, dlens, t)|
      && CarriedOut(old(a.zout), t, a.zout)
    ensures Expected(lens, dlens, next, a.Stream(), old(a.BitPos())) && (next.Some? ==> Replay(old(a.zout), next.value).Some?)
      ==> if next.None? then end == Some(true) else end.None? && t == next.value
  {
    hide ZBuf.Buffered, Huffman.Built, Codable, TokenBits, Follows, ByteBits, ToBits, Window, Replay, CopyBack, Expected,
      EndFollows, TokenRead;
    hide LengthBase, LengthExtra, DistBase, DistExtra;
    BuiltCodes(a, lens, dlens);
    var st;
    st, t := ReadToken(a, lens, dlens, next);
    match st {
      case Bad => end := Some(false);
      case End => end := Some(true);
      case Byte(b) =>
        a.zout := a.zout + [b];
        end := None;
      case Copy(len, dist) =>
        if Replay(a.zout, t).Some? { CopyAllowed(a.zout, t, st); }
        if |a.zout| < dist { return Some(false), t; }
        CopyOut(a, len, dist);
        end := None;
    }
  }

  /** Decodes a block: what it appends is the replay of the tokens whose bits the stream holds, and
      every block that is followed by enough bits is accepted. The loop is cut off where it is sure to
      go on for ever; in all other cases it has ended. */
  method ParseHuffmanBlock(a: ZBuf, ghost lens: seq<nat>, ghost dlens: seq<nat>, ghost want: seq<Token>)
      returns (ok: bool, ended: bool, ghost ts: seq<Token>)
    requires a.Valid() && a.z_length.Built(lens) && a.z_distance.Built(dlens) && |dlens| <= 32
    modifies a`pos, a`num_bits, a`code_buffer, a`fetched, a`zout
    ensures a.Valid()
    ensures var at := Place(old(a.BitPos()), old(a.num_bits), old(|a.zout|));
      && (ended <==> Terminates(lens, dlens, a.Stream(), at))
      && (ended ==> Runs(lens, dlens, a.Stream(), at, 8 * |a.zbuffer| + ROUNDS) == Some(ok))
      && (ok ==> Place(a.BitPos(), a.num_bits, |a.zout|) == EndPlace(lens, dlens, a.Stream(), at, 8 * |a.zbuffer| + ROUNDS))
    ensures ok ==>
      && ended
      && BlockFollows(lens, dlens, ts, a.Stream(), old(a.BitPos()))
      && a.BitPos() == old(a.BitPos()) + |TokensBits(lens, dlens, ts)| + lens[END_OF_BLOCK]
      && Realizes(old(a.zout), ts, a.zout)
    ensures
      BlockWanted(lens, dlens, want, a.Stream(), old(a.BitPos())) && ReplayAll(old(a.zout), want).Some?
      ==> ok && ts == want && ReplayAll(old(a.zout), want) == Some(a.zout)
  {
    hide ZBuf.Buffered, Huffman.Built, AllCodable, Codable, TokenBits, TokensBits, Follows, ByteBits, ToBits, Window,
      ReplayAll, Replay, CopyBack, Expected, Realizes, EndFollows, BlockWanted, StepOf, Runs, After, TokenRead, ZLengths,
      Terminates, TurnAt, Stands, Parsed, BlockFollows, CarriedOut, EndPlace, Behind;
    ghost var s, p, before := a.Stream(), a.BitPos(), a.zout;
    ghost var at := Place(p, a.num_bits, |a.zout|);
    ghost var hope := BlockWanted(lens, dlens, want, s, p) && ReplayAll(before, want).Some?;
    if hope { FewTokens(lens, dlens, want, s, p); }
    BuiltCodes(a, lens, dlens);
    NoTurn(lens, dlens, s, at);
    ts := [];
    NothingParsed(lens, dlens, s, p, before);
    var i := 0;
    while i < 8 * |a.zbuffer| + ROUNDS
      invariant a.Valid() && a.z_length.Built(lens) && a.z_distance.Built(dlens)
      invariant Parsed(lens, dlens, ts, s, p, a.BitPos(), before, a.zout) && i <= |s| + ROUNDS
      invariant Stands(lens, dlens, s, at, i, Place(a.BitPos(), a.num_bits, |a.zout|))
      invariant hope ==> i == |ts| <= |want| && ts == want[..i] && ReplayAll(before, ts) == Some(a.zout)
    {
      ghost var next := if hope && i < |want| then Some(want[i]) else None;
      ghost var q, mid := a.BitPos(), a.zout;
      if hope { NextWanted(lens, dlens, want, i, s, p, q, before, mid); }
      TurnTaken(lens, dlens, s, at, i, Place(q, a.num_bits, |mid|));
      var end;
      ghost var t;
      end, t := ParseTurn(a, lens, dlens, next);
      if end.Some? {
        if end.value {
          ParsedToEnd(lens, dlens, ts, s, p, q, before, mid);
          if hope { assert ts == want; }
        }
        return end.value, true, ts;
      }
      ParsedGrows(lens, dlens, ts, t, s, p, a.BitPos(), before, mid, a.zout);
      if hope { ReplayStep(before, ts, mid, t, a.zout); }
      ts := ts + [t];
      i := i + 1;
    }
    NotEnded(lens, dlens, s, at, Place(a.BitPos(), a.num_bits, |a.zout|));
    ok, ended := false, false;
  }

  // ----- stored blocks

  function Le16(lo: nat, hi: nat): nat {
    256 * hi + lo
  }

  function StoredLen(z: seq<byte>, i: nat): nat {
    Le16(ByteAt(z, i), ByteAt(z, i + 1))
  }

  /** Byte i starts a stored block: its length, the complement of its length, and its data. */
  predicate StoredAt(z: seq<byte>, i: nat) {
    && i + 4 + StoredLen(z, i) <= |z|
    && Le16(ByteAt(z, i + 2), ByteAt(z, i + 3)) == 0xFFFF - StoredLen(z, i)
  }

  /** The first byte boundary at or after bit p. */
  function NextByte(p: nat): nat {
    (p + 7) / 8
  }

  /** Copies a stored block, and refuses exactly what is none. */
  method ParseUncompressedBlock(a: ZBuf) returns (ok: bool)
    requires a.Valid() && a.num_bits <= 30
    modifies a`pos, a`num_bits, a`code_buffer, a`fetched, a`zout
    ensures a.Valid()
    ensures ok <==> StoredAt(a.zbuffer, NextByte(old(a.BitPos())))
    ensures ok ==>
      var i := NextByte(old(a.BitPos()));
      && a.BitPos() == 8 * (i + 4 + StoredLen(a.zbuffer, i)) && a.num_bits == 0
      && a.zout == old(a.zout) + a.zbuffer[i + 4..i + 4 + StoredLen(a.zbuffer, i)]
  {
    hide ByteBits, ToBits, Window, Pow2, Low, Shr, StoredAt, Le16, ByteAt, NextByte;
    ghost var i := NextByte(a.BitPos());
    Align(a);
    var header := ReadHeader(a, i);
    var len := Le16(header[0], header[1]);
    var nlen := Le16(header[2], header[3]);
    // len ^ 0xffff, for a len of 16 bits
    StoredHeader(a.zbuffer, i, len, nlen);
    if nlen != 0xFFFF - len { return false; }
    if a.pos + len > |a.zbuffer| { return false; }
    a.zout := a.zout + a.zbuffer[a.pos..a.pos + len];
    SkipBytes(a, len);
    ok := true;
  }

  /** Discards the bits up to the next byte boundary. */
  method Align(a: ZBuf)
    requires a.Valid() && a.num_bits <= 30
    modifies a`pos, a`num_bits, a`code_buffer, a`fetched
    ensures a.Valid() && a.num_bits % 8 == 0 && a.num_bits <= 24
    ensures a.BitPos() == 8 * NextByte(old(a.BitPos()))
  {
    hide ZBuf.Buffered, ByteBits, ToBits, Window, Pow2;
    var d := a.num_bits % 8;
    if d != 0 { a.Skip(d); }
  }

  /** Moves the byte cursor, with nothing in the bit buffer. */
  method SkipBytes(a: ZBuf, len: nat)
    requires a.Valid() && a.num_bits == 0 && a.fetched == a.pos && a.pos + len <= |a.zbuffer|
    modifies a`pos, a`fetched
    ensures a.Valid() && a.fetched == old(a.fetched) + len
  {
    hide ByteBits, ToBits, Window, Pow2;
    a.pos := a.pos + len;
    a.fetched := a.fetched + len;
    a.EmptyBuffer();
  }

  /** A header that reaches past the end of the input announces more data than there is. */
  lemma StoredHeader(z: seq<byte>, i: nat, len: nat, nlen: nat)
    requires len == StoredLen(z, i) && nlen == Le16(ByteAt(z, i + 2), ByteAt(z, i + 3))
    ensures StoredAt(z, i) <==> nlen == 0xFFFF - len && (if i + 4 < |z| then i + 4 else |z|) + len <= |z|
    ensures StoredAt(z, i) ==> i + 4 <= |z|
    ensures len <= 0xFFFF
  {
  }

  /** The four header bytes: first those in the bit buffer, then those after it. */
  method ReadHeader(a: ZBuf, ghost i: nat) returns (header: seq<byte>)
    requires a.Valid() && a.num_bits % 8 == 0 && a.num_bits <= 24 && a.BitPos() == 8 * i
    modifies a`pos, a`num_bits, a`code_buffer, a`fetched
    ensures a.Valid() && a.num_bits == 0 && a.fetched == i + 4
    ensures |header| == 4 && forall k :: 0 <= k < 4 ==> header[k] == ByteAt(a.zbuffer, i + k)
  {
    hide ByteBits, ToBits, Window, Pow2, Low, Shr;
    header := [];
    while a.num_bits > 0
      invariant a.Valid() && a.num_bits % 8 == 0 && 8 * |header| + a.num_bits <= 24
      invariant a.BitPos() == 8 * (i + |header|)
      invariant forall k :: 0 <= k < |header| ==> header[k] == ByteAt(a.zbuffer, i + k)
      decreases a.num_bits
    {
      var b := DrainByte(a, i + |header|);
      header := header + [b];
    }
    while |header| < 4
      invariant a.Valid() && a.num_bits == 0 && |header| <= 4
      invariant a.fetched == i + |header|
      invariant forall k :: 0 <= k < |header| ==> header[k] == ByteAt(a.zbuffer, i + k)
    {
      var b := a.Get8();
      a.fetched := a.fetched + 1;
      a.EmptyBuffer();
      header := header + [b];
    }
  }

  /** Moves a whole byte out of the bit buffer. */
  method DrainByte(a: ZBuf, ghost j: nat) returns (b: byte)
    requires a.Valid() && a.num_bits >= 8 && a.BitPos() == 8 * j
    modifies a`num_bits, a`code_buffer
    ensures a.Valid() && a.num_bits == old(a.num_bits) - 8 && b == ByteAt(a.zbuffer, j)
  {
    hide ByteBits, ToBits, Window, Pow2, Low, Shr;
    Pow2Values();
    WindowByte(a.zbuffer, j);
    TakeStep(a.Stream(), 8 * a.fetched, a.num_bits, 8, a.code_buffer);
    DivModPow2(a.code_buffer, 8);
    ToBitsLow(a.code_buffer, 8);
    ToBitsInjective(Low(a.code_buffer, 8), ByteAt(a.zbuffer, j), 8);
    b := Low(a.code_buffer, 8);
    a.Skip(8);
  }
}
