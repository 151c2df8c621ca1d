/** Writing a chunk: whatever matches and literals a writer chooses, the decoder carries them out. */
module KrakenEncode {
  import opened Bits
  import opened Lz77
  import opened CopySub
  import opened Wrappers
  import opened Kraken

  /** A match goes back by one of the last three distances, or by a new one. */
  datatype Distance = Again(i: nat) | Back(d: int)

  /** Literals, and a match behind them; either length may be written in full. */
  datatype Token = Token(lits: seq<byte>, manyLits: bool, dist: Distance, len: nat, long: bool)

  /** The last three distances, the last one first. */
  function Use(last: seq<int>, d: Distance): (r: seq<int>)
    requires |last| == 3 && (d.Again? ==> d.i < 3)
    ensures |r| == 3
  {
    match d
    case Back(x) => [x, last[0], last[1]]
    case Again(i) => if i == 0 then last else if i == 1 then [last[1], last[0], last[2]] else [last[2], last[0], last[1]]
  }

  /** What is made so far, and the last distances. */
  datatype Made = Made(out: seq<byte>, last: seq<int>)

  predicate MadeOk(m: Made) {
    |m.last| == 3 && forall i :: 0 <= i < 3 ==> 8 <= m.last[i] <= 0x7FFF_FFFF
  }

  /** Literals are appended, or added to the bytes the last distance back. */
  predicate LiteralsFit(m: Made, lits: seq<byte>, isSub: bool, window: nat, end: nat) {
    MadeOk(m) && |m.out| + |lits| <= end && (isSub ==> window + m.last[0] <= |m.out|)
  }

  function WithLiterals(m: Made, lits: seq<byte>, isSub: bool): (r: Made)
    requires MadeOk(m) && (isSub ==> m.last[0] <= |m.out|)
    ensures MadeOk(r) && |r.out| == |m.out| + |lits| && r.last == m.last
  {
    m.(out := if isSub then AddBack(m.out, lits, m.last[0]) else m.out + lits)
  }

  /** A match inside the window; one whose length is written in full stays eight bytes off the end. */
  predicate MatchFits(m: Made, d: Distance, len: nat, long: bool, window: nat, end: nat) {
    && MadeOk(m) && (d.Again? ==> d.i < 3) && (d.Back? ==> 8 <= d.d <= 0x7FFF_FFFF)
    && window + Use(m.last, d)[0] <= |m.out|
    && 2 <= len <= 0x7FFF_FFFF && |m.out| + len <= end && (long ==> |m.out| + len + 8 <= end)
  }

  function WithMatch(m: Made, d: Distance, len: nat): (r: Made)
    requires MadeOk(m) && (d.Again? ==> d.i < 3) && (d.Back? ==> 8 <= d.d <= 0x7FFF_FFFF) && Use(m.last, d)[0] <= |m.out|
    ensures MadeOk(r)
  {
    Made(CopyBack(m.out, Use(m.last, d)[0], len), Use(m.last, d))
  }

  /** Three literals and more are written in full, and matches of 17 bytes and more; those of 14 to 16 may be. */
  predicate Proper(t: Token) {
    && (|t.lits| >= 3 ==> t.manyLits) && (t.len >= 17 ==> t.long) && (t.long ==> t.len >= 14) && t.len >= 2
    && (t.dist.Again? ==> t.dist.i < 3)
  }

  predicate Fits(m: Made, t: Token, isSub: bool, window: nat, end: nat) {
    && Proper(t) && LiteralsFit(m, t.lits, isSub, window, end) && |t.lits| <= 0x7FFF_FFFF
    && MatchFits(WithLiterals(m, t.lits, isSub), t.dist, t.len, t.long, window, end)
  }

  function WithToken(m: Made, t: Token, isSub: bool, window: nat, end: nat): (r: Option<Made>)
    ensures r.Some? ==> MadeOk(r.value) && Proper(t)
  {
    if Fits(m, t, isSub, window, end) then Some(WithMatch(WithLiterals(m, t.lits, isSub), t.dist, t.len)) else None
  }

  /** What the tokens make of the window, which begins with distances of eight; none if one does not fit. */
  function Make(out: seq<byte>, ts: seq<Token>, isSub: bool, window: nat, end: nat): (r: Option<Made>)
    ensures r.Some? ==> MadeOk(r.value) && forall i :: 0 <= i < |ts| ==> Proper(ts[i])
  {
    if ts == [] then Some(Made(out, [8, 8, 8]))
    else
      var t := ts[|ts| - 1];
      match Make(out, ts[..|ts| - 1], isSub, window, end)
      case None => None
      case Some(m) => WithToken(m, t, isSub, window, end)
  }

  // ----- the writer

  /** Two bits for the number of literals, four for the length of the match, and two for the distance. */
  function PacketOf(t: Token): int {
    var lits := if t.manyLits then 3 else |t.lits|;
    var len := if t.long then 15 else t.len - 2;
    var which := match t.dist case Again(i) => i case Back(_) => 3;
    64 * which + 4 * len + lits
  }

  /** Lengths in full; that of a match without 14 of its bytes. */
  function ExcessesOf(t: Token): seq<int> {
    (if t.manyLits then [|t.lits|] else []) + if t.long then [t.len - 14] else []
  }

  function OffsetsOf(t: Token): seq<int> {
    match t.dist case Again(_) => [] case Back(d) => [-d]
  }

  function LiteralsIn(ts: seq<Token>): seq<byte> {
    if ts == [] then [] else LiteralsIn(ts[..|ts| - 1]) + ts[|ts| - 1].lits
  }

  function ExcessesIn(ts: seq<Token>): seq<int> {
    if ts == [] then [] else ExcessesIn(ts[..|ts| - 1]) + ExcessesOf(ts[|ts| - 1])
  }

  function OffsetsIn(ts: seq<Token>): seq<int> {
    if ts == [] then [] else OffsetsIn(ts[..|ts| - 1]) + OffsetsOf(ts[|ts| - 1])
  }

  lemma PacketByte(t: Token)
    requires Proper(t)
    ensures 0 <= PacketOf(t) < 256
    ensures var p := PacketOf(t);
      && p % 4 == (if t.manyLits then 3 else |t.lits|) && p / 4 % 16 == (if t.long then 15 else t.len - 2)
      && p / 64 == match t.dist case Again(i) => i case Back(_) => 3
  {
    var a := if t.manyLits then 3 else |t.lits|;
    var b := if t.long then 15 else t.len - 2;
    var c := match t.dist case Again(i) => i case Back(_) => 3;
    var p := 64 * c + 4 * b + a;
    DivModUnique(p, 64, c, 4 * b + a);
    DivModUnique(p, 4, 16 * c + b, a);
    DivModUnique(16 * c + b, 16, c, b);
  }

  function PacketsOf(ts: seq<Token>): (r: seq<byte>)
    requires forall i :: 0 <= i < |ts| ==> Proper(ts[i])
    ensures |r| == |ts|
  {
    if ts == [] then [] else PacketByte(ts[|ts| - 1]); PacketsOf(ts[..|ts| - 1]) + [PacketOf(ts[|ts| - 1])]
  }

  // ----- one token

  /** The decoder has made the same. */
  ghost predicate Same(z: Lz, m: Made) {
    && MadeOk(m) && z.out == m.out && z.neg == -m.last[0]
    && z.recent == [-m.last[0], -m.last[1], -m.last[2]]
  }

  /** The token is what the streams go on with. */
  ghost predicate Ahead(s: Streams, z: Lz, t: Token) {
    && z.lit + |t.lits| <= |s.literals| && s.literals[z.lit..z.lit + |t.lits|] == t.lits
    && z.exc + |ExcessesOf(t)| <= |s.excesses| && s.excesses[z.exc..z.exc + |ExcessesOf(t)|] == ExcessesOf(t)
    && z.off + |OffsetsOf(t)| <= |s.offsets| && s.offsets[z.off..z.off + |OffsetsOf(t)|] == OffsetsOf(t)
  }

  ghost predicate After(s: Streams, z: Lz, t: Token, y: Lz) {
    y.lit == z.lit + |t.lits| && y.exc == z.exc + |ExcessesOf(t)| && y.off == z.off + |OffsetsOf(t)|
  }

  /** What is in front of the literals: their number, and a new distance. */
  lemma HeaderRead(s: Streams, z: Lz, t: Token, packet: byte)
    requires Ahead(s, z, t) && Proper(t) && packet == PacketOf(t) && |t.lits| <= 0x7FFF_FFFF
    ensures var h := Header(s, z, packet);
      && h.Some? && h.value.0 == |t.lits| && h.value.1 == z.exc + (if t.manyLits then 1 else 0)
      && (t.dist.Back? ==> h.value.2 == -t.dist.d)
  {
    PacketByte(t);
    var e := |ExcessesOf(t)|;
    assert t.manyLits ==> s.excesses[z.exc..z.exc + e][0] == |t.lits|;
    if t.dist.Back? { assert s.offsets[z.off..z.off + |OffsetsOf(t)|][0] == OffsetsOf(t)[0]; }
  }

  lemma LiteralsRead(s: Streams, z: Lz, m: Made, lits: seq<byte>, window: nat, end: nat)
    requires Same(z, m) && LiteralsFit(m, lits, s.isSub, window, end)
    requires z.lit + |lits| <= |s.literals| && s.literals[z.lit..z.lit + |lits|] == lits
    ensures Literals(s, z, |lits|, window, end) == Some(z.(out := WithLiterals(m, lits, s.isSub).out, lit := z.lit + |lits|))
  {
    hide AddBack;
  }

  lemma OffsetRead(z: Lz, m: Made, d: Distance, which: nat, next: int)
    requires Same(z, m) && (d.Again? ==> d.i < 3 && which == d.i) && (d.Back? ==> which == 3 && next == -d.d)
    ensures var y := WithOffset(z, which, next);
      var last := Use(m.last, d);
      && y == z.(recent := y.recent, neg := y.neg, off := if d.Back? then z.off + 1 else z.off)
      && y.neg == -last[0] && y.recent == [-last[0], -last[1], -last[2]]
  {
    RecentOk(z.recent, which, next);
  }

  lemma MatchRead(s: Streams, z: Lz, m: Made, d: Distance, len: nat, long: bool, window: nat, end: nat)
    requires MatchFits(m, d, len, long, window, end) && z.out == m.out && z.neg == -Use(m.last, d)[0]
    requires if long then len >= 14 && z.exc < |s.excesses| && s.excesses[z.exc] == len - 14 else len < 17
    ensures Match(s, z, if long then 15 else len - 2, window, end)
      == Some(z.(out := WithMatch(m, d, len).out, exc := if long then z.exc + 1 else z.exc))
  {
    hide CopyBack;
  }

  /** The token's literals and its match, read from its packet. */
  lemma TokenRead(s: Streams, z: Lz, m: Made, t: Token, packet: byte, window: nat, end: nat)
    requires Same(z, m) && Ahead(s, z, t) && Fits(m, t, s.isSub, window, end) && packet == PacketOf(t)
    ensures var y := Packet(s, z, packet, window, end);
      y.Some? && Same(y.value, WithMatch(WithLiterals(m, t.lits, s.isSub), t.dist, t.len)) && After(s, z, t, y.value)
  {
    hide Header, Kraken.Literals, Match, WithOffset, CopyBack, AddBack, Use;
    PacketByte(t);
    HeaderRead(s, z, t, packet);
    var h := Header(s, z, packet).value;
    var x := z.(exc := h.1);
    LiteralsRead(s, x, m, t.lits, window, end);
    var y := Kraken.Literals(s, x, |t.lits|, window, end).value;
    var m1 := WithLiterals(m, t.lits, s.isSub);
    OffsetRead(y, m1, t.dist, packet / 64, h.2);
    var e := |ExcessesOf(t)|;
    if t.long {
      assert ExcessesOf(t)[e - 1] == t.len - 14;
      assert s.excesses[z.exc..z.exc + e][e - 1] == s.excesses[z.exc + (e - 1)];
    }
    MatchRead(s, WithOffset(y, packet / 64, h.2), m1, t.dist, t.len, t.long, window, end);
  }

  // ----- all of them

  /** The streams begin with what the tokens are written as. */
  ghost predicate Begins(s: Streams, ts: seq<Token>) {
    LiteralsIn(ts) <= s.literals && OffsetsIn(ts) <= s.offsets && ExcessesIn(ts) <= s.excesses
  }

  ghost predicate Behind(z: Lz, ts: seq<Token>) {
    z.lit == |LiteralsIn(ts)| && z.off == |OffsetsIn(ts)| && z.exc == |ExcessesIn(ts)|
  }

  lemma LastToken(s: Streams, z: Lz, ts: seq<Token>)
    requires ts != [] && Begins(s, ts) && Behind(z, ts[..|ts| - 1])
    ensures Ahead(s, z, ts[|ts| - 1])
    ensures forall y :: After(s, z, ts[|ts| - 1], y) ==> Behind(y, ts)
  {
    hide ExcessesOf, OffsetsOf;
    var rest, t := ts[..|ts| - 1], ts[|ts| - 1];
    Part(LiteralsIn(rest), t.lits, s.literals);
    Part(OffsetsIn(rest), OffsetsOf(t), s.offsets);
    Part(ExcessesIn(rest), ExcessesOf(t), s.excesses);
  }

  lemma Part<T>(a: seq<T>, b: seq<T>, all: seq<T>)
    requires a + b <= all
    ensures a <= all && |a| + |b| <= |all| && all[|a|..|a| + |b|] == b
  {
    assert all[..|a + b|][..|a|] == a;
    assert all[..|a + b|][|a|..] == b;
  }

  lemma NoTokens(s: Streams, out: seq<byte>, window: nat, end: nat)
    ensures var z := Start(out); Packets(s, z, PacketsOf([]), window, end) == Some(z) && Behind(z, [])
    ensures Make(out, [], s.isSub, window, end).Some? && Same(Start(out), Make(out, [], s.isSub, window, end).value)
  {
  }

  lemma BeginsLess(s: Streams, ts: seq<Token>)
    requires ts != [] && Begins(s, ts)
    ensures Begins(s, ts[..|ts| - 1])
  {
    hide ExcessesOf, OffsetsOf;
    var rest, t := ts[..|ts| - 1], ts[|ts| - 1];
    Part(LiteralsIn(rest), t.lits, s.literals);
    Part(OffsetsIn(rest), OffsetsOf(t), s.offsets);
    Part(ExcessesIn(rest), ExcessesOf(t), s.excesses);
  }

  lemma {:induction false} TokensRead(s: Streams, out: seq<byte>, ts: seq<Token>, window: nat, end: nat)
    requires Make(out, ts, s.isSub, window, end).Some? && Begins(s, ts)
    ensures var z := Packets(s, Start(out), PacketsOf(ts), window, end);
      z.Some? && Same(z.value, Make(out, ts, s.isSub, window, end).value) && Behind(z.value, ts)
  {
    hide Packet, WithLiterals, WithMatch, Fits, Begins, Behind, Ahead, Same, After;
    if ts == [] {
      NoTokens(s, out, window, end);
    } else {
      var rest, t := ts[..|ts| - 1], ts[|ts| - 1];
      BeginsLess(s, ts);
      TokensRead(s, out, rest, window, end);
      var z := Packets(s, Start(out), PacketsOf(rest), window, end).value;
      LastToken(s, z, ts);
      TokenRead(s, z, Make(out, rest, s.isSub, window, end).value, t, PacketsOf(ts)[|rest|], window, end);
      assert PacketsOf(ts)[..|rest|] == PacketsOf(rest);
    }
  }

  /** The streams and packets are what the tokens are written as, with the rest of the literals, of which there
      are as many as bytes are missing, behind theirs; and the tokens and the rest make these bytes. */
  ghost predicate Writes(s: Streams, packets: seq<byte>, out: seq<byte>, window: nat, end: nat,
                         ts: seq<Token>, rest: seq<byte>, made: seq<byte>) {
    var m := Make(out, ts, s.isSub, window, end);
    && m.Some? && packets == PacketsOf(ts) && s.offsets == OffsetsIn(ts) && s.excesses == ExcessesIn(ts)
    && LiteralsIn(ts) + rest <= s.literals && |m.value.out| + |rest| == end
    && if rest == [] then made == m.value.out
       else LiteralsFit(m.value, rest, s.isSub, window, end) && made == WithLiterals(m.value, rest, s.isSub).out
  }

  /** What is written is read back. */
  lemma ChunkRead(s: Streams, packets: seq<byte>, out: seq<byte>, window: nat, end: nat,
                  ts: seq<Token>, rest: seq<byte>, made: seq<byte>)
    requires Writes(s, packets, out, window, end, ts, rest, made)
    ensures Chunk(s, out, packets, window, end) == Some(made)
  {
    hide Make, Packets, AddBack, PacketsOf, LiteralsIn, OffsetsIn, ExcessesIn;
    Part(LiteralsIn(ts), rest, s.literals);
    TokensRead(s, out, ts, window, end);
    var z := Packets(s, Start(out), packets, window, end).value;
    if rest != [] {
      LiteralsRead(s, z, Make(out, ts, s.isSub, window, end).value, rest, window, end);
    }
  }

  // ----- nothing else is read

  lemma PacketParts(packet: byte)
    ensures packet == 64 * (packet / 64) + 4 * (packet / 4 % 16) + packet % 4 && packet / 64 <= 3
  {
    assert packet / 4 / 16 == packet / 64;
  }

  /** The distance that a packet stands for. */
  function DistanceAt(packet: byte, next: int): Distance {
    if packet / 64 == 3 then Back(-next) else Again(packet / 64)
  }

  lemma HeaderThere(s: Streams, z: Lz, packet: byte)
    requires Header(s, z, packet).Some?
    ensures var h := Header(s, z, packet).value;
      && (packet / 64 == 3 ==> z.off < |s.offsets| && s.offsets[z.off] == h.2)
      && (packet % 4 == 3 ==> z.exc < |s.excesses| && s.excesses[z.exc] == h.0 <= 0x7FFF_FFFF && h.1 == z.exc + 1)
      && (packet % 4 != 3 ==> h.0 == packet % 4 && h.1 == z.exc)
  {
  }

  lemma LiteralsThere(s: Streams, z: Lz, m: Made, n: nat, window: nat, end: nat)
    requires Same(z, m) && Literals(s, z, n, window, end).Some?
    ensures z.lit + n <= |s.literals| && LiteralsFit(m, s.literals[z.lit..z.lit + n], s.isSub, window, end)
  {
    hide AddBack;
  }

  lemma MatchThere(s: Streams, z: Lz, m: Made, d: Distance, small: nat, window: nat, end: nat) returns (len: nat)
    requires small <= 15 && MadeOk(m) && (d.Again? ==> d.i < 3) && z.out == m.out && z.neg == -Use(m.last, d)[0]
    requires Match(s, z, small, window, end).Some?
    ensures MatchFits(m, d, len, small == 15, window, end)
    ensures if small == 15 then z.exc < |s.excesses| && len == 14 + s.excesses[z.exc] else len == small + 2
  {
    hide CopyBack;
    MatchChecked(s, z, small, window, end);
    len := if small == 15 then 14 + s.excesses[z.exc] else small + 2;
  }

  lemma AheadThere(s: Streams, z: Lz, t: Token)
    requires z.exc <= |s.excesses| && z.off <= |s.offsets|
    requires z.lit + |t.lits| <= |s.literals| && s.literals[z.lit..z.lit + |t.lits|] == t.lits
    requires t.manyLits ==> z.exc < |s.excesses| && s.excesses[z.exc] == |t.lits|
    requires t.long ==> var e := z.exc + if t.manyLits then 1 else 0; e < |s.excesses| && s.excesses[e] == t.len - 14
    requires t.dist.Back? ==> z.off < |s.offsets| && s.offsets[z.off] == -t.dist.d
    ensures Ahead(s, z, t)
  {
    var n := |ExcessesOf(t)|;
    assert forall i :: 0 <= i < n ==> s.excesses[z.exc + i] == ExcessesOf(t)[i];
    assert s.excesses[z.exc..z.exc + n] == ExcessesOf(t);
  }

  /** A packet that can be carried out is that of a token. */
  lemma TokenThere(s: Streams, z: Lz, m: Made, packet: byte, window: nat, end: nat) returns (t: Token)
    requires Same(z, m) && z.exc <= |s.excesses| && z.off <= |s.offsets| && Packet(s, z, packet, window, end).Some?
    ensures PacketOf(t) == packet && Ahead(s, z, t) && Fits(m, t, s.isSub, window, end)
  {
    hide AddBack, CopyBack, Header, Kraken.Literals, Match, WithOffset, Ahead, Use, MatchFits;
    PacketParts(packet);
    HeaderThere(s, z, packet);
    var h := Header(s, z, packet).value;
    var x := z.(exc := h.1);
    LiteralsThere(s, x, m, h.0, window, end);
    var lits := s.literals[z.lit..z.lit + h.0];
    LiteralsRead(s, x, m, lits, window, end);
    var y := Kraken.Literals(s, x, h.0, window, end).value;
    var d := DistanceAt(packet, h.2);
    OffsetRead(y, WithLiterals(m, lits, s.isSub), d, packet / 64, h.2);
    var len := MatchThere(s, WithOffset(y, packet / 64, h.2), WithLiterals(m, lits, s.isSub), d, packet / 4 % 16, window, end);
    t := Token(lits, packet % 4 == 3, d, len, packet / 4 % 16 == 15);
    AheadThere(s, z, t);
  }

  lemma OneMoreToken(s: Streams, z: Lz, y: Lz, ts: seq<Token>, t: Token)
    requires Begins(s, ts) && Behind(z, ts) && Ahead(s, z, t) && After(s, z, t, y)
    ensures Begins(s, ts + [t]) && Behind(y, ts + [t])
  {
    hide ExcessesOf, OffsetsOf;
    assert (ts + [t])[..|ts|] == ts;
    Longer(LiteralsIn(ts), t.lits, s.literals);
    Longer(OffsetsIn(ts), OffsetsOf(t), s.offsets);
    Longer(ExcessesIn(ts), ExcessesOf(t), s.excesses);
  }

  lemma Longer<T>(a: seq<T>, b: seq<T>, all: seq<T>)
    requires a <= all && |a| + |b| <= |all| && all[|a|..|a| + |b|] == b
    ensures a + b <= all
  {
    assert all[..|a| + |b|] == all[..|a|] + all[|a|..|a| + |b|];
  }

  /** Packets that can be carried out are those of tokens. */
  lemma {:induction false} TokensThere(s: Streams, out: seq<byte>, packets: seq<byte>, window: nat, end: nat)
      returns (ts: seq<Token>)
    requires Packets(s, Start(out), packets, window, end).Some?
    ensures Make(out, ts, s.isSub, window, end).Some? && PacketsOf(ts) == packets && Begins(s, ts)
    ensures Behind(Packets(s, Start(out), packets, window, end).value, ts)
  {
    hide Packet, WithLiterals, WithMatch, Fits, Ahead, Same, After;
    if packets == [] {
      ts := [];
      NoTokens(s, out, window, end);
    } else {
      var before, packet := packets[..|packets| - 1], packets[|packets| - 1];
      var us := TokensThere(s, out, before, window, end);
      TokensRead(s, out, us, window, end);
      var z := Packets(s, Start(out), before, window, end).value;
      var m := Make(out, us, s.isSub, window, end).value;
      var t := TokenThere(s, z, m, packet, window, end);
      TokenRead(s, z, m, t, packet, window, end);
      ts := us + [t];
      assert ts[..|us|] == us;
      OneMoreToken(s, z, Packet(s, z, packet, window, end).value, us, t);
    }
  }

  lemma ChunkThere(s: Streams, packets: seq<byte>, out: seq<byte>, window: nat, end: nat)
      returns (ts: seq<Token>, rest: seq<byte>)
    requires |out| <= end && Chunk(s, out, packets, window, end).Some?
    ensures Writes(s, packets, out, window, end, ts, rest, Chunk(s, out, packets, window, end).value)
  {
    hide Make, Packets, AddBack, PacketsOf, LiteralsIn, OffsetsIn, ExcessesIn;
    ts := TokensThere(s, out, packets, window, end);
    TokensRead(s, out, ts, window, end);
    PacketsAppend(s, Start(out), packets, window, end);
    var z := Packets(s, Start(out), packets, window, end).value;
    rest := s.literals[z.lit..z.lit + (end - |z.out|)];
  }

  /** A chunk is exactly what some writer makes it from: the decoder's result is that of the tokens that are written
      as these packets and streams, and without such tokens there is no result. */
  lemma ChunkIsWritten(s: Streams, packets: seq<byte>, out: seq<byte>, window: nat, end: nat, made: seq<byte>)
    requires |out| <= end
    ensures Chunk(s, out, packets, window, end) == Some(made)
      <==> exists ts, rest :: Writes(s, packets, out, window, end, ts, rest, made)
  {
    hide Writes, Chunk;
    if Chunk(s, out, packets, window, end) == Some(made) {
      var ts, rest := ChunkThere(s, packets, out, window, end);
    }
    forall ts, rest | Writes(s, packets, out, window, end, ts, rest, made)
      ensures Chunk(s, out, packets, window, end) == Some(made)
    {
      ChunkRead(s, packets, out, window, end, ts, rest, made);
    }
  }
}
