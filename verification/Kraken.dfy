/** The Kraken chunk decoder: packets of literals and matches, with three recent offsets. */
module Kraken {
  import opened Bits
  import opened Lz77
  import opened CopyKernels
  import opened CopySub
  import opened Wrappers

  const INT_MAX := 0x7FFF_FFFF
  const MIN_OFFSET := 8
  const NO_MATCH_ZONE := 16
  const MATCH_END_PAD := 8

  // ----- what packets stand for

  /** The streams a chunk is made from. */
  datatype Streams = Streams(literals: seq<byte>, offsets: seq<int>, excesses: seq<nat>, isSub: bool)

  /** The window so far, how much of every stream is used, the recent offsets and the one in force. */
  datatype Lz = Lz(out: seq<byte>, lit: nat, off: nat, exc: nat, recent: seq<int>, neg: int)

  ghost predicate LzOk(s: Streams, z: Lz) {
    && z.lit <= |s.literals| && z.off <= |s.offsets| && z.exc <= |s.excesses| && |z.recent| == 3
    && (forall i :: 0 <= i < 3 ==> -INT_MAX <= z.recent[i] <= -MIN_OFFSET)
    && -INT_MAX <= z.neg <= -MIN_OFFSET
  }

  /** Negative offsets reach back between 8 bytes and the start of the window. */
  predicate InWindow(neg: int, size: int) {
    -INT_MAX <= neg <= -MIN_OFFSET && -neg <= size
  }

  /** A small length, or the next excess in its place. */
  function Length(s: Streams, exc: nat, small: nat, escape: nat, base: nat): Option<(nat, nat)> {
    if small != escape then Some((small, exc))
    else if exc >= |s.excesses| || s.excesses[exc] > INT_MAX - base then None
    else Some((base + s.excesses[exc], exc + 1))
  }

  /** Literals as they are, or added to the bytes at the offset in force. */
  function Literals(s: Streams, z: Lz, n: nat, window: nat, end: nat): Option<Lz> {
    if n > end - |z.out| || n > |s.literals| - z.lit then None
    else if s.isSub && !InWindow(z.neg, |z.out| - window) then None
    else
      var lits := s.literals[z.lit..z.lit + n];
      Some(z.(out := if s.isSub then AddBack(z.out, lits, -z.neg) else z.out + lits, lit := z.lit + n))
  }

  /** A recent offset is moved to the front, a new one pushed there. */
  function Recent(recent: seq<int>, i: nat, next: int): seq<int>
    requires |recent| == 3 && i <= 3
  {
    if i == 3 then [next] + recent[..2] else [recent[i]] + recent[..i] + recent[i + 1..]
  }

  function Match(s: Streams, z: Lz, small: nat, window: nat, end: nat): Option<Lz> {
    if !InWindow(z.neg, |z.out| - window) then None
    else
      match Length(s, z.exc, small, 15, 14)
      case None => None
      case Some((n, exc)) =>
        var len := if small == 15 then n else small + 2;
        if small == 15 && |z.out| + len > end - MATCH_END_PAD then None
        else if len > end - |z.out| then None
        else Some(z.(out := CopyBack(z.out, -z.neg, len), exc := exc))
  }

  /** The length of the literals of a packet and its new offset, if it has one. */
  function Header(s: Streams, z: Lz, packet: byte): Option<(nat, nat, int)> {
    if packet / 64 == 3 && z.off >= |s.offsets| then None
    else
      match Length(s, z.exc, packet % 4, 3, 0)
      case None => None
      case Some((n, exc)) => Some((n, exc, if packet / 64 == 3 then s.offsets[z.off] else 0))
  }

  function Packet(s: Streams, z: Lz, packet: byte, window: nat, end: nat): Option<Lz>
    requires |z.recent| == 3
  {
    match Header(s, z, packet)
    case None => None
    case Some((n, exc, next)) =>
      match Literals(s, z.(exc := exc), n, window, end)
      case None => None
      case Some(y) => Match(s, WithOffset(y, packet / 64, next), packet / 4 % 16, window, end)
  }

  function WithOffset(y: Lz, which: nat, next: int): Lz
    requires |y.recent| == 3 && which <= 3
  {
    var recent := Recent(y.recent, which, next);
    y.(recent := recent, neg := recent[0], off := if which == 3 then y.off + 1 else y.off)
  }

  function Packets(s: Streams, z: Lz, packets: seq<byte>, window: nat, end: nat): (r: Option<Lz>)
    requires |z.recent| == 3
    ensures r.Some? ==> |r.value.recent| == 3
  {
    if packets == [] then Some(z)
    else
      match Packets(s, z, packets[..|packets| - 1], window, end)
      case None => None
      case Some(y) => Packet(s, y, packets[|packets| - 1], window, end)
  }

  /** After the packets both streams are used up and literals fill what is left. */
  function Chunk(s: Streams, out: seq<byte>, packets: seq<byte>, window: nat, end: nat): Option<seq<byte>> {
    match Packets(s, Start(out), packets, window, end)
    case None => None
    case Some(z) =>
      if z.off != |s.offsets| || z.exc != |s.excesses| then None
      else if |z.out| >= end then Some(z.out)
      else
        match Literals(s, z, end - |z.out|, window, end)
        case None => None
        case Some(y) => Some(y.out)
  }

  // ----- pointer arithmetic

  /** The cast of a signed difference to 64 unsigned bits. */
  function U64(x: int): nat {
    x % 0x1_0000_0000_0000_0000
  }

  /** 32-bit negation: the smallest value is its own. */
  function Neg32(x: int): int {
    if x == -INT_MAX - 1 then x else -x
  }

  /** The unsigned comparison of an offset with the distance to the start of the window says what it
      should as long as the window is not empty; in an empty one every offset passes. */
  lemma UnsignedCheck(neg: int, to: nat, window: nat)
    requires -INT_MAX <= neg < 0 && window <= to < 0x4000_0000_0000_0000
    ensures U64(neg) < U64(window - to) <==> to > window && -neg > to - window
  {
    assert U64(neg) == neg + 0x1_0000_0000_0000_0000;
    if to > window { assert U64(window - to) == window - to + 0x1_0000_0000_0000_0000; }
  }

  // ----- the decoder

  ghost predicate Decoding(s: Streams, z: Lz, buf: seq<byte>, window: nat, to: nat, end: nat) {
    && LzOk(s, z) && window < to <= end <= |buf| && z.out == buf[..to]
  }

  /** Short literal runs byte by byte, others through the kernels. */
  method CopyLiterals(buf: array<byte>, to: nat, literals: array<byte>, lit: nat, n: nat, neg: int, isSub: bool, sse2: bool)
    requires buf != literals && to + n <= buf.Length && lit + n <= literals.Length
    requires isSub ==> MIN_OFFSET <= -neg <= to
    modifies buf
    ensures buf[..to + n] == if isSub then AddBack(old(buf[..to]), literals[lit..lit + n], -neg)
                             else old(buf[..to]) + literals[lit..lit + n]
    ensures Outside(old(buf[..]), buf[..], to, to + n)
  {
    hide AddBack, Sums, AddBytes;
    if isSub {
      if n <= 16 {
        var i := 0;
        NoSums(buf[..], to, literals[..], lit, -neg);
        while i < n
          invariant 0 <= i <= n
          invariant Sums(buf[..], to, to + i, literals[..], lit, -neg) && Outside(old(buf[..]), buf[..], to, to + i)
        {
          AddOne(buf, to, to + i, literals, lit, -neg);
          i := i + 1;
        }
        assert buf[..][..to] == old(buf[..to]);
        assert buf[..][..to + n] == buf[..to + n] && literals[..][lit..lit + n] == literals[lit..lit + n];
        SumsIsAddBack(old(buf[..to]), buf[..], to, to + n, literals[..], lit, -neg);
      } else {
        CopySub.CopySub(buf, to, literals, lit, -neg, n, sse2);
      }
    } else {
      if n <= 16 {
        var i := 0;
        while i < n
          invariant 0 <= i <= n
          invariant forall k :: to <= k < to + i ==> buf[k] == literals[lit + (k - to)]
          invariant Outside(old(buf[..]), buf[..], to, to + i)
        {
          buf[to + i] := literals[lit + i];
          i := i + 1;
        }
      } else {
        CopyBytes(buf, to, literals, lit, n);
      }
    }
  }

  /** The literals of a packet, or the last ones of the chunk. */
  method DecodeLiterals(buf: array<byte>, to: nat, literals: array<byte>, literalsCount: nat, lit: nat, lrl: nat, neg: int,
                        window: nat, end: nat, isSub: bool, sse2: bool, ghost s: Streams, ghost z: Lz)
      returns (ok: bool)
    requires Decoding(s, z, buf[..], window, to, end) && buf != literals && literalsCount <= literals.Length
    requires s.literals == literals[..literalsCount] && s.isSub == isSub && z.lit == lit && z.neg == neg
    modifies buf
    ensures ok <==> Literals(s, z, lrl, window, end).Some?
    ensures ok ==> var y := Literals(s, z, lrl, window, end).value;
      Decoding(s, y, buf[..], window, to + lrl, end) && y.lit == lit + lrl
    ensures Outside(old(buf[..]), buf[..], to, end)
  {
    hide AddBack;
    if lrl > end - to || lrl > literalsCount - lit { return false; }
    if isSub && (neg >= 0 || neg < (window as int) - to) { return false; }
    if lrl > 0 {
      CopyLiterals(buf, to, literals, lit, lrl, neg, isSub, sse2);
      assert literals[..literalsCount][lit..lit + lrl] == literals[lit..lit + lrl];
    } else {
      NothingAdded(buf[..to], s.literals[lit..lit + lrl], -neg);
    }
    ok := true;
  }

  lemma NothingAdded(out: seq<byte>, lits: seq<byte>, offset: int)
    requires lits == []
    ensures out + lits == out && (1 <= offset <= |out| ==> AddBack(out, lits, offset) == out)
  {
  }

  /** The match of a packet, once the offset in force is known. */
  method DecodeMatch(buf: array<byte>, to: nat, excesses: seq<nat>, excPtr: nat, packetMl: nat, neg: int, window: nat, end: nat,
                     sse2: bool, ghost s: Streams, ghost z: Lz)
      returns (ok: bool, ml: nat, exc: nat)
    requires window < to <= end <= buf.Length < 0x4000_0000_0000_0000 && z.out == buf[..to]
    requires z.exc == excPtr && z.neg == neg && s.excesses == excesses && packetMl < 16
    requires -INT_MAX - 1 <= neg <= INT_MAX
    modifies buf
    ensures ok <==> Match(s, z, packetMl, window, end).Some?
    ensures ok ==> var y := Match(s, z, packetMl, window, end).value;
      to + ml <= end && y.out == buf[..to + ml] && y == z.(out := y.out, exc := exc)
    ensures ok && excPtr <= |excesses| ==> exc <= |excesses|
    ensures Outside(old(buf[..]), buf[..], to, end)
  {
    hide CopyBack, U64;
    ml, exc := 0, excPtr;
    if Neg32(neg) < MIN_OFFSET { return false, ml, exc; }
    UnsignedCheck(neg, to, window);
    if U64(neg) < U64((window as int) - to) { return false, ml, exc; }
    ml := packetMl + 2;
    if packetMl == 15 {
      if exc >= |excesses| { return false, ml, exc; }
      var excess := excesses[exc];
      exc := exc + 1;
      if excess > INT_MAX - 14 { return false, ml, exc; }
      ml := 14 + excess;
      if to + ml > end - MATCH_END_PAD { return false, ml, exc; }
    }
    if ml > end - to { return false, ml, exc; }
    CopyMatch(buf, to, ml, -neg, sse2);
    ok := true;
  }

  lemma {:induction false} PacketsFail(s: Streams, z: Lz, packets: seq<byte>, window: nat, end: nat, n: nat)
    requires |z.recent| == 3 && n <= |packets| && Packets(s, z, packets[..n], window, end).None?
    ensures Packets(s, z, packets, window, end).None?
  {
    if n < |packets| {
      var before := packets[..|packets| - 1];
      assert before[..n] == packets[..n];
      PacketsFail(s, z, before, window, end, n);
    } else {
      assert packets[..n] == packets;
    }
  }

  lemma PacketsNext(s: Streams, z: Lz, packets: seq<byte>, window: nat, end: nat, n: nat)
    requires |z.recent| == 3 && n < |packets|
    ensures Packets(s, z, packets[..n + 1], window, end)
      == match Packets(s, z, packets[..n], window, end)
         case None => None
         case Some(y) => Packet(s, y, packets[n], window, end)
  {
    assert packets[..n + 1][..n] == packets[..n];
  }

  /** The pointers into the streams, and the recent offsets as the decoder keeps them. */
  datatype Cursor = Cursor(to: nat, lit: nat, off: nat, exc: nat, lo0: int, lo1: int, lo2: int, neg: int)

  ghost predicate At(s: Streams, z: Lz, c: Cursor, buf: seq<byte>, window: nat, end: nat) {
    && Decoding(s, z, buf, window, c.to, end)
    && z.lit == c.lit && z.off == c.off && z.exc == c.exc && z.neg == c.neg && z.recent == [c.lo0, c.lo1, c.lo2]
  }

  /** One packet. */
  method DecodePacket(buf: array<byte>, literals: array<byte>, literalsCount: nat, offsets: seq<int>, excesses: seq<nat>, c0: Cursor,
                      packet: byte, window: nat, end: nat, isSub: bool, sse2: bool, ghost s: Streams, ghost z: Lz)
      returns (ok: bool, c: Cursor)
    requires buf != literals && literalsCount <= literals.Length && buf.Length < 0x4000_0000_0000_0000
    requires s == Streams(literals[..literalsCount], offsets, excesses, isSub)
    requires forall i :: 0 <= i < |offsets| ==> -INT_MAX - 1 <= offsets[i] <= INT_MAX
    requires At(s, z, c0, buf[..], window, end)
    modifies buf
    ensures ok <==> Packet(s, z, packet, window, end).Some?
    ensures ok ==> At(s, Packet(s, z, packet, window, end).value, c, buf[..], window, end) && c.to >= c0.to
    ensures Outside(old(buf[..]), buf[..], c0.to, end)
  {
    hide AddBack, CopyBack, Header, Literals, Match, Recent, Outside;
    c := c0;
    var lrl, exc, nextOff;
    ok, lrl, exc, nextOff := DecodeHeader(offsets, excesses, c.off, c.exc, packet, s, z);
    OutsideNothing(buf[..], c0.to, end);
    if !ok { return; }
    c := c.(exc := exc);
    ghost var x := z.(exc := exc);
    ok := DecodeLiterals(buf, c.to, literals, literalsCount, c.lit, lrl, c.neg, window, end, isSub, sse2, s, x);
    if !ok { return; }
    ghost var y := Literals(s, x, lrl, window, end).value;
    LiteralsKeep(s, x, lrl, window, end);
    ghost var mid := buf[..];
    c := c.(to := c.to + lrl, lit := c.lit + lrl);
    c := NextOffset(c, packet / 64, nextOff);
    RecentOk(y.recent, packet / 64, nextOff);
    y := WithOffset(y, packet / 64, nextOff);
    var ml;
    ok, ml, exc := DecodeMatch(buf, c.to, excesses, c.exc, packet / 4 % 16, c.neg, window, end, sse2, s, y);
    OutsideBoth(old(buf[..]), mid, buf[..], c0.to, c.to, end);
    if !ok { return; }
    MatchChecked(s, y, packet / 4 % 16, window, end);
    c := c.(to := c.to + ml, exc := exc);
  }

  method DecodeHeader(offsets: seq<int>, excesses: seq<nat>, off: nat, exc0: nat, packet: byte, ghost s: Streams, ghost z: Lz)
      returns (ok: bool, lrl: nat, exc: nat, nextOff: int)
    requires s.offsets == offsets && s.excesses == excesses && z.off == off && z.exc == exc0
    ensures ok <==> Header(s, z, packet).Some?
    ensures ok ==> Header(s, z, packet).value == (lrl, exc, nextOff) && exc0 <= exc && (exc0 <= |excesses| ==> exc <= |excesses|)
    ensures ok && packet / 64 == 3 ==> off < |offsets| && nextOff == offsets[off]
  {
    lrl, exc, nextOff := packet % 4, exc0, 0;
    if packet / 64 == 3 {
      if off >= |offsets| { return false, lrl, exc, nextOff; }
      nextOff := offsets[off];
    }
    if lrl == 3 {
      if exc >= |excesses| { return false, lrl, exc, nextOff; }
      var excess := excesses[exc];
      exc := exc + 1;
      if excess > INT_MAX { return false, lrl, exc, nextOff; }
      lrl := excess;
    }
    ok := true;
  }

  lemma OutsideNothing(b: seq<byte>, d: nat, e: nat)
    ensures Outside(b, b, d, e)
  {
  }

  lemma OutsideBoth(a: seq<byte>, b: seq<byte>, c: seq<byte>, d: nat, m: nat, e: nat)
    requires d <= m && Outside(a, b, d, e) && Outside(b, c, m, e)
    ensures Outside(a, c, d, e)
  {
  }

  lemma LiteralsKeep(s: Streams, z: Lz, n: nat, window: nat, end: nat)
    requires Literals(s, z, n, window, end).Some?
    ensures var y := Literals(s, z, n, window, end).value; y == z.(out := y.out, lit := z.lit + n)
  {
  }

  lemma RecentOk(recent: seq<int>, which: nat, next: int)
    requires |recent| == 3 && which <= 3
    ensures var r := Recent(recent, which, next);
      && |r| == 3 && r[0] == (if which == 3 then next else recent[which])
      && r[1] == (if which == 0 then recent[1] else recent[0])
      && r[2] == (if which <= 1 then recent[2] else recent[1])
  {
  }

  /** A match that is carried out has an offset of the right size. */
  lemma MatchChecked(s: Streams, z: Lz, small: nat, window: nat, end: nat)
    requires Match(s, z, small, window, end).Some?
    ensures -INT_MAX <= z.neg <= -MIN_OFFSET && -z.neg <= |z.out| - window
  {
  }

  /** The recent offsets, one variable at a time. */
  method NextOffset(c0: Cursor, packetOffset: nat, nextOff: int) returns (c: Cursor)
    requires packetOffset <= 3
    ensures [c.lo0, c.lo1, c.lo2] == Recent([c0.lo0, c0.lo1, c0.lo2], packetOffset, nextOff)
    ensures c.neg == c.lo0 && c == c0.(lo0 := c.lo0, lo1 := c.lo1, lo2 := c.lo2, neg := c.neg, off := c.off)
    ensures c.off == if packetOffset == 3 then c0.off + 1 else c0.off
  {
    var lo0, lo1, lo2, neg := c0.lo0, c0.lo1, c0.lo2, c0.neg;
    var off := c0.off;
    if packetOffset == 0 {
      neg := lo0;
    } else if packetOffset == 1 {
      neg := lo1;
      lo1 := lo0;
      lo0 := neg;
    } else if packetOffset == 2 {
      neg := lo2;
      lo2 := lo1;
      lo1 := lo0;
      lo0 := neg;
    } else {
      neg := nextOff;
      off := off + 1;
      lo2 := lo1;
      lo1 := lo0;
      lo0 := neg;
    }
    c := c0.(lo0 := lo0, lo1 := lo1, lo2 := lo2, neg := neg, off := off);
  }

  function Start(out: seq<byte>): Lz {
    Lz(out, 0, 0, 0, [-MIN_OFFSET, -MIN_OFFSET, -MIN_OFFSET], -MIN_OFFSET)
  }

  // ----- the chunk

  /** Decodes a chunk in place. It succeeds exactly when the packets stand for a chunk, and then the
      window up to the end of the chunk is what they stand for. */
  method DecodeParse(buf: array<byte>, literals: array<byte>, literalsCount: nat, offsets: seq<int>, excesses: seq<nat>,
                     packets: seq<byte>, start: nat, chunkBase: nat, chunkEnd: nat, window: nat, isSub: bool, sse2: bool)
      returns (ok: bool)
    requires buf != literals && literalsCount <= literals.Length && buf.Length < 0x4000_0000_0000_0000
    requires window <= chunkBase <= start <= chunkBase + MIN_OFFSET && window < start && chunkBase <= chunkEnd <= buf.Length
    requires forall i :: 0 <= i < |offsets| ==> -INT_MAX - 1 <= offsets[i] <= INT_MAX
    modifies buf
    ensures chunkEnd - chunkBase < NO_MATCH_ZONE ==> !ok
    ensures chunkEnd - chunkBase >= NO_MATCH_ZONE ==>
      var r := Chunk(Streams(literals[..literalsCount], offsets, excesses, isSub), old(buf[..start]), packets, window, chunkEnd);
      (ok <==> r.Some?) && (ok ==> r == Some(buf[..chunkEnd]))
    ensures Outside(old(buf[..]), buf[..], start, chunkEnd)
  {
    hide Packets, Literals, AddBack, Outside, Decoding;
    OutsideNothing(buf[..], start, chunkEnd);
    if chunkEnd - chunkBase < NO_MATCH_ZONE { return false; }
    ghost var s := Streams(literals[..literalsCount], offsets, excesses, isSub);
    var c;
    ghost var z;
    ok, c, z := DecodePackets(buf, literals, literalsCount, offsets, excesses, packets, start, chunkEnd, window, isSub, sse2, s);
    if !ok { return; }
    if c.off != |offsets| { return false; }
    if c.exc != |excesses| { return false; }
    DecodedTo(s, z, buf[..], window, c.to, chunkEnd);
    if c.to < chunkEnd {
      ghost var before := buf[..];
      ok := DecodeLiterals(buf, c.to, literals, literalsCount, c.lit, chunkEnd - c.to, c.neg, window, chunkEnd, isSub, sse2, s, z);
      OutsideBoth(old(buf[..]), before, buf[..], start, c.to, chunkEnd);
      if ok { DecodedTo(s, Literals(s, z, chunkEnd - c.to, window, chunkEnd).value, buf[..], window, chunkEnd, chunkEnd); }
    }
  }

  lemma DecodedTo(s: Streams, z: Lz, buf: seq<byte>, window: nat, to: nat, end: nat)
    requires Decoding(s, z, buf, window, to, end)
    ensures to <= end <= |buf| && z.out == buf[..to]
  {
  }

  method DecodePackets(buf: array<byte>, literals: array<byte>, literalsCount: nat, offsets: seq<int>, excesses: seq<nat>,
                       packets: seq<byte>, start: nat, chunkEnd: nat, window: nat, isSub: bool, sse2: bool, ghost s: Streams)
      returns (ok: bool, c: Cursor, ghost z: Lz)
    requires buf != literals && literalsCount <= literals.Length && buf.Length < 0x4000_0000_0000_0000
    requires window < start <= chunkEnd <= buf.Length
    requires forall i :: 0 <= i < |offsets| ==> -INT_MAX - 1 <= offsets[i] <= INT_MAX
    requires s == Streams(literals[..literalsCount], offsets, excesses, isSub)
    modifies buf
    ensures ok <==> Packets(s, Start(old(buf[..start])), packets, window, chunkEnd).Some?
    ensures ok ==> Packets(s, Start(old(buf[..start])), packets, window, chunkEnd) == Some(z)
    ensures ok ==> At(s, z, c, buf[..], window, chunkEnd) && start <= c.to
    ensures Outside(old(buf[..]), buf[..], start, chunkEnd)
  {
    hide Packet, Packets, Outside, At;
    ghost var z0 := Start(buf[..start]);
    z := z0;
    c := Cursor(start, 0, 0, 0, -MIN_OFFSET, -MIN_OFFSET, -MIN_OFFSET, -MIN_OFFSET);
    OutsideNothing(buf[..], start, chunkEnd);
    NoPackets(s, z0, packets, window, chunkEnd);
    AtStart(s, buf[..], start, window, chunkEnd);
    ok := true;
    var i := 0;
    while i < |packets|
      invariant 0 <= i <= |packets| && start <= c.to && ok
      invariant Packets(s, z0, packets[..i], window, chunkEnd) == Some(z) && At(s, z, c, buf[..], window, chunkEnd)
      invariant Outside(old(buf[..]), buf[..], start, chunkEnd)
    {
      ghost var before, from := buf[..], c.to;
      PacketsNext(s, z0, packets, window, chunkEnd, i);
      ok, c := DecodePacket(buf, literals, literalsCount, offsets, excesses, c, packets[i], window, chunkEnd, isSub, sse2, s, z);
      OutsideBoth(old(buf[..]), before, buf[..], start, from, chunkEnd);
      if !ok {
        PacketsFail(s, z0, packets, window, chunkEnd, i + 1);
        return;
      }
      z := Packet(s, z, packets[i], window, chunkEnd).value;
      i := i + 1;
    }
    assert packets[..i] == packets;
  }

  lemma AtStart(s: Streams, buf: seq<byte>, start: nat, window: nat, end: nat)
    requires window < start <= end <= |buf|
    ensures At(s, Start(buf[..start]), Cursor(start, 0, 0, 0, -MIN_OFFSET, -MIN_OFFSET, -MIN_OFFSET, -MIN_OFFSET), buf, window, end)
  {
  }

  lemma NoPackets(s: Streams, z: Lz, packets: seq<byte>, window: nat, end: nat)
    requires |z.recent| == 3
    ensures Packets(s, z, packets[..0], window, end) == Some(z)
  {
  }

  /** The first chunk of a window begins with bytes that are already in place, which makes every
      window the parser sees non-empty. */
  method DecodeChunk(chunkType: nat, buf: array<byte>, chunk: nat, length: nat, chunkPos: nat, literals: array<byte>,
                     literalsCount: nat, offsets: seq<int>, excesses: seq<nat>, packets: seq<byte>, sse2: bool)
      returns (r: int)
    requires buf != literals && literalsCount <= literals.Length && buf.Length < 0x4000_0000_0000_0000
    requires chunkPos <= chunk && chunk + length <= buf.Length
    requires forall i :: 0 <= i < |offsets| ==> -INT_MAX - 1 <= offsets[i] <= INT_MAX
    modifies buf
    ensures r == 1 || r == -1
    ensures chunkType > 1 || length < 16 ==> r == -1
    ensures chunkType <= 1 && length >= 16 ==>
      var start := if chunkPos == 0 then chunk + MIN_OFFSET else chunk;
      var s := Streams(literals[..literalsCount], offsets, excesses, chunkType == 0);
      var c := Chunk(s, old(buf[..start]), packets, chunk - chunkPos, chunk + length);
      (r == 1 <==> c.Some?) && (r == 1 ==> c == Some(buf[..chunk + length]))
    ensures forall k :: 0 <= k < buf.Length && !(chunk <= k < chunk + length) ==> buf[k] == old(buf[k])
  {
    hide Chunk;
    if chunkType > 1 { return -1; }
    var start := chunk + if chunkPos == 0 then MIN_OFFSET else 0;
    var ok := DecodeParse(buf, literals, literalsCount, offsets, excesses, packets, start, chunk, chunk + length,
                          chunk - chunkPos, chunkType == 0, sse2);
    r := if ok then 1 else -1;
  }

  // ----- what a chunk is

  /** A packet only appends, at most up to the end of the chunk. */
  lemma PacketAppends(s: Streams, z: Lz, packet: byte, window: nat, end: nat)
    requires |z.recent| == 3 && |z.out| <= end && Packet(s, z, packet, window, end).Some?
    ensures var y := Packet(s, z, packet, window, end).value; z.out <= y.out && |z.out| < |y.out| <= end
  {
    hide AddBack, CopyBack, Recent;
  }

  lemma {:induction false} PacketsAppend(s: Streams, z: Lz, packets: seq<byte>, window: nat, end: nat)
    requires |z.recent| == 3 && |z.out| <= end && Packets(s, z, packets, window, end).Some?
    ensures var y := Packets(s, z, packets, window, end).value; z.out <= y.out && |z.out| + |packets| <= |y.out| <= end
  {
    hide Packet;
    if packets != [] {
      var before := packets[..|packets| - 1];
      PacketsAppend(s, z, before, window, end);
      PacketAppends(s, Packets(s, z, before, window, end).value, packets[|packets| - 1], window, end);
    }
  }

  /** A decoded chunk fills its place exactly and keeps what was before it. */
  lemma ChunkFills(s: Streams, out: seq<byte>, packets: seq<byte>, window: nat, end: nat)
    requires |out| <= end && Chunk(s, out, packets, window, end).Some?
    ensures var r := Chunk(s, out, packets, window, end).value; out <= r && |r| == end
  {
    hide Packets, AddBack;
    PacketsAppend(s, Start(out), packets, window, end);
  }
}
