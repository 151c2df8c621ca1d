/** Run-length coding of one component of a Radiance HDR scanline. */
module HdrRle {
  import opened Bits
  import opened Packets
  import opened Wrappers

  /** Up to 128 bytes as they are, or one up to 127 times. */
  ghost predicate IsPacket(p: Packet<byte>) {
    && |p.code| >= 2
    && var c: nat := p.code[0];
      if c > 128 then |p.code| == 2 && p.values == seq(c - 128, i => p.code[1])
      else c > 0 && |p.code| == 1 + c && p.values == p.code[1..]
  }

  ghost predicate AllPackets(ps: seq<Packet<byte>>) {
    forall i :: 0 <= i < |ps| ==> IsPacket(ps[i])
  }

  // ----- the writer

  function DumpOf(b: seq<byte>): Packet<byte>
    requires |b| <= 128
  {
    Packet([|b| as byte] + b, b)
  }

  function RunOf(n: nat, v: byte): Packet<byte>
    requires n <= 127
  {
    Packet([(128 + n) as byte, v], seq(n, i => v))
  }

  /** Codes comp: bytes up to a run of three, then the run, and so on. */
  method WriteComponent(comp: seq<byte>) returns (out: seq<byte>, ghost ps: seq<Packet<byte>>)
    ensures AllPackets(ps) && out == Codes(ps) && Values(ps) == comp
  {
    out, ps := [], [];
    var x, width := 0, |comp|;
    while x < width
      invariant 0 <= x <= width && Written(ps, out, comp, x) && AllPackets(ps)
    {
      var r := FindRun(comp, x);
      out, ps := WriteDumps(comp, x, r, out, ps);
      x := r;
      if r + 2 < width {
        while r < width && comp[r] == comp[x]
          invariant x <= r <= width && forall k :: x <= k < r ==> comp[k] == comp[x]
        {
          r := r + 1;
        }
        out, ps := WriteRuns(comp, x, r, out, ps);
        x := r;
      }
    }
    assert comp[..x] == comp;
  }

  /** Dumps of up to 128 bytes. */
  method WriteDumps(comp: seq<byte>, x0: nat, r: nat, out0: seq<byte>, ghost ps0: seq<Packet<byte>>)
      returns (out: seq<byte>, ghost ps: seq<Packet<byte>>)
    requires x0 <= r <= |comp| && Written(ps0, out0, comp, x0) && AllPackets(ps0)
    ensures Written(ps, out, comp, r) && AllPackets(ps)
  {
    hide Written;
    out, ps := out0, ps0;
    var x := x0;
    while x < r
      invariant x0 <= x <= r && Written(ps, out, comp, x) && AllPackets(ps)
    {
      var len := if r - x > 128 then 128 else r - x;
      var p := DumpOf(comp[x..x + len]);
      WriteMore(ps, out, comp, x, p);
      ps := ps + [p];
      out := out + p.code;
      x := x + len;
    }
  }

  /** Runs of up to 127 times the same byte. */
  method WriteRuns(comp: seq<byte>, x0: nat, r: nat, out0: seq<byte>, ghost ps0: seq<Packet<byte>>)
      returns (out: seq<byte>, ghost ps: seq<Packet<byte>>)
    requires x0 <= r <= |comp| && Written(ps0, out0, comp, x0) && AllPackets(ps0)
    requires forall k :: x0 <= k < r ==> comp[k] == comp[x0]
    ensures Written(ps, out, comp, r) && AllPackets(ps)
  {
    hide Written;
    out, ps := out0, ps0;
    var x := x0;
    while x < r
      invariant x0 <= x <= r && Written(ps, out, comp, x) && AllPackets(ps)
    {
      var len := if r - x > 127 then 127 else r - x;
      var p := RunOf(len, comp[x]);
      assert comp[x..x + len] == p.values;
      WriteMore(ps, out, comp, x, p);
      ps := ps + [p];
      out := out + p.code;
      x := x + len;
    }
  }

  /** The first place where three bytes are the same, or else the end. */
  method FindRun(comp: seq<byte>, x: nat) returns (r: nat)
    requires x < |comp|
    ensures x <= r <= |comp|
    ensures r < |comp| ==> r + 2 < |comp| && comp[r] == comp[r + 1] == comp[r + 2]
    ensures forall k :: x <= k < r && k + 2 < |comp| ==> !(comp[k] == comp[k + 1] == comp[k + 2])
  {
    r := x;
    while r + 2 < |comp| && !(comp[r] == comp[r + 1] && comp[r] == comp[r + 2])
      invariant x <= r <= |comp|
      invariant forall k :: x <= k < r && k + 2 < |comp| ==> !(comp[k] == comp[k + 1] == comp[k + 2])
    {
      r := r + 1;
    }
    if r + 2 >= |comp| { r := |comp|; }
  }

  // ----- what a reader makes of any data

  datatype Turn =
    | Overruns
    | Goes(some: seq<byte>, pos: nat)

  /** One turn of the reader's loop with nleft bytes to go: a packet, cut short by the end of the data
      or not, or one that is too long. */
  function TurnAt(data: seq<byte>, pos: nat, nleft: nat): (t: Turn)
    requires pos <= |data|
    ensures t.Goes? ==> |t.some| <= nleft && pos <= t.pos <= |data| && (pos < |data| ==> pos < t.pos)
  {
    var c: nat := ByteAt(data, pos);
    var n := if c > 128 then c - 128 else c;
    if n > nleft then Overruns
    else if c > 128 then Goes(Repeat(ByteAt(data, pos + 1), n), Clip(data, pos + 2))
    else Goes(BytesFrom(data, pos + 1, n), Clip(data, pos + 1 + n))
  }

  /** How the loop ends: with all bytes and the position behind them, or with an error. */
  datatype Outcome =
    | Full(values: seq<byte>, pos: nat)
    | Corrupt

  function Behind(some: seq<byte>, o: Option<Outcome>): Option<Outcome> {
    if o.Some? && o.value.Full? then Some(Full(some + o.value.values, o.value.pos)) else o
  }

  /** How the loop ends within k turns; None if it does not. */
  function Runs(data: seq<byte>, pos: nat, nleft: nat, k: nat): Option<Outcome>
    requires pos <= |data|
    decreases k
  {
    if nleft == 0 then Some(Full([], pos))
    else if k == 0 then None
    else
      match TurnAt(data, pos, nleft)
      case Overruns => Some(Corrupt)
      case Goes(some, next) => Behind(some, Runs(data, next, nleft - |some|, k - 1))
  }

  /** What the packets that start inside the data come to: they fill what is left, or overrun it, or
      the data run out before. */
  function Scan(data: seq<byte>, pos: nat, nleft: nat): Option<Outcome>
    requires pos <= |data|
    decreases |data| - pos
  {
    if nleft == 0 then Some(Full([], pos))
    else if pos == |data| then None
    else
      match TurnAt(data, pos, nleft)
      case Overruns => Some(Corrupt)
      case Goes(some, next) => Behind(some, Scan(data, next, nleft - |some|))
  }

  lemma ScanTurn(data: seq<byte>, pos: nat, nleft: nat)
    requires pos <= |data| && nleft > 0
    ensures Scan(data, pos, nleft) ==
      match TurnAt(data, pos, nleft)
      case Overruns => Some(Corrupt)
      case Goes(some, next) => Behind(some, Scan(data, next, nleft - |some|))
  {
  }

  lemma ScanEnds(data: seq<byte>, pos: nat, nleft: nat)
    requires pos <= |data|
    ensures nleft == 0 ==> Scan(data, pos, nleft) == Some(Full([], pos))
    ensures nleft > 0 && pos == |data| ==> Scan(data, pos, nleft) == None
  {
  }

  lemma BehindNothing(o: Option<Outcome>)
    ensures Behind([], o) == o
  {
    if o.Some? && o.value.Full? { assert [] + o.value.values == o.value.values; }
  }

  lemma BehindBehind(a: seq<byte>, b: seq<byte>, o: Option<Outcome>)
    ensures Behind(a, Behind(b, o)) == Behind(a + b, o)
  {
    if o.Some? && o.value.Full? { assert a + (b + o.value.values) == a + b + o.value.values; }
  }

  /** At the end of the data the loop goes round for ever. */
  lemma {:induction false} StaysAtEnd(data: seq<byte>, nleft: nat, k: nat)
    requires nleft > 0
    ensures Runs(data, |data|, nleft, k).None?
    decreases k
  {
    if k > 0 { StaysAtEnd(data, nleft, k - 1); }
  }

  lemma {:induction false} RunsIsScan(data: seq<byte>, pos: nat, nleft: nat, k: nat)
    requires pos <= |data| <= pos + k
    ensures Runs(data, pos, nleft, k) == Scan(data, pos, nleft)
    decreases k
  {
    if nleft > 0 {
      if pos == |data| {
        StaysAtEnd(data, nleft, k);
      } else {
        var t := TurnAt(data, pos, nleft);
        if t.Goes? { RunsIsScan(data, t.pos, nleft - |t.some|, k - 1); }
      }
    }
  }

  lemma {:induction false} RunsMore(data: seq<byte>, pos: nat, nleft: nat, k: nat, m: nat)
    requires pos <= |data| && k <= m && Runs(data, pos, nleft, k).Some?
    ensures Runs(data, pos, nleft, m) == Runs(data, pos, nleft, k)
    decreases k
  {
    if nleft > 0 {
      var t := TurnAt(data, pos, nleft);
      if t.Goes? { RunsMore(data, t.pos, nleft - |t.some|, k - 1, m - 1); }
    }
  }

  /** The loop ends if and only if the packets fill or overrun the line before the data run out, and
      then as they do. */
  lemma EndsExactly(data: seq<byte>, pos: nat, nleft: nat)
    requires pos <= |data|
    ensures (exists k: nat :: Runs(data, pos, nleft, k).Some?) <==> Scan(data, pos, nleft).Some?
    ensures forall k: nat :: Runs(data, pos, nleft, k).Some? ==> Runs(data, pos, nleft, k) == Scan(data, pos, nleft)
  {
    hide Runs, Scan;
    RunsIsScan(data, pos, nleft, |data| - pos);
    forall k: nat | Runs(data, pos, nleft, k).Some? ensures Runs(data, pos, nleft, k) == Scan(data, pos, nleft) {
      RunsMore(data, pos, nleft, k, k + |data| - pos);
      RunsIsScan(data, pos, nleft, k + |data| - pos);
    }
  }

  /** A line of three bytes that is cut off behind a run of two is read for ever; but a packet of no
      bytes inside the data is passed over. */
  lemma CutOff(k: nat)
    ensures Runs([0x82, 5], 0, 3, k).None?
    ensures Runs([0, 0x81, 9], 0, 1, 2) == Some(Full([9], 3))
  {
    var d: seq<byte> := [0x82, 5];
    assert TurnAt(d, 0, 3) == Goes([5, 5], 2);
    if k > 0 { StaysAtEnd(d, 1, k - 1); }
    var e: seq<byte> := [0, 0x81, 9];
    assert TurnAt(e, 0, 1) == Goes([], 1);
    assert TurnAt(e, 1, 1) == Goes([9], 3);
    assert Runs(e, 3, 0, 0) == Some(Full([], 3));
    var nine: seq<byte> := [9];
    assert nine + [] == nine;
    assert Runs(e, 1, 1, 1) == Some(Full([9], 3));
    BehindNothing(Runs(e, 1, 1, 1));
  }

  // ----- the reader

  /** One packet. */
  method ReadPacket(data: seq<byte>, start: nat, nleft: nat) returns (ok: bool, some: seq<byte>, pos: nat)
    requires start <= |data|
    ensures TurnAt(data, start, nleft) == if ok then Goes(some, pos) else Overruns
  {
    some, pos := [], start;
    var b;
    b, pos := Get8(data, pos);
    var count: nat := b;
    if count > 128 {
      var value;
      value, pos := Get8(data, pos);
      count := count - 128;
      if count > nleft { return false, some, pos; }
      while |some| < count
        invariant |some| <= count && forall i :: 0 <= i < |some| ==> some[i] == value
      {
        some := some + [value];
      }
      assert some == Repeat(ByteAt(data, start + 1), count);
    } else {
      if count > nleft { return false, some, pos; }
      while |some| < count
        invariant |some| <= count && pos == Clip(data, start + 1 + |some|)
        invariant forall i :: 0 <= i < |some| ==> some[i] == ByteAt(data, start + 1 + i)
      {
        b, pos := Get8(data, pos);
        some := some + [b];
      }
      assert some == BytesFrom(data, start + 1, count);
    }
    ok := true;
  }

  /** Reads one component of a line of width bytes, whatever the data. The loop is cut off where it is
      sure to go on for ever, which is None. */
  method ReadComponent(data: seq<byte>, start: nat, width: nat) returns (r: Option<Outcome>)
    requires start <= |data|
    ensures r == Scan(data, start, width)
  {
    hide TurnAt, Scan;
    BehindNothing(Scan(data, start, width));
    var scanline, pos, turns := [], start, 0;
    while |scanline| < width && turns < |data| + 1
      invariant |scanline| <= width && pos <= |data| && 0 <= turns
      invariant turns <= pos || pos == |data|
      invariant Scan(data, start, width) == Behind(scanline, Scan(data, pos, width - |scanline|))
      decreases |data| + 1 - turns
    {
      ScanTurn(data, pos, width - |scanline|);
      var ok, some, next := ReadPacket(data, pos, width - |scanline|);
      if !ok { return Some(Corrupt); }
      BehindBehind(scanline, some, Scan(data, next, width - |scanline| - |some|));
      scanline, pos, turns := scanline + some, next, turns + 1;
    }
    ScanEnds(data, pos, width - |scanline|);
    assert scanline + [] == scanline;
    r := if |scanline| < width then None else Some(Full(scanline, pos));
  }

  // ----- there and back

  /** A packet of a writer is a turn of the reader. */
  lemma PacketTurn(p: Packet<byte>, data: seq<byte>, pos: nat, nleft: nat)
    requires IsPacket(p) && pos + |p.code| <= |data| && data[pos..pos + |p.code|] == p.code && |p.values| <= nleft
    ensures TurnAt(data, pos, nleft) == Goes(p.values, pos + |p.code|) && |p.values| > 0
  {
    forall i | 0 <= i < |p.code| ensures ByteAt(data, pos + i) == p.code[i] { assert data[pos..pos + |p.code|][i] == p.code[i]; }
    var t := TurnAt(data, pos, nleft);
    assert ByteAt(data, pos + 0) == p.code[0] && ByteAt(data, pos + 1) == p.code[1];
    assert t.some == p.values;
  }

  /** From every packet on, scanning gives the rest of the values. */
  lemma {:induction false} ScanPackets(ps: seq<Packet<byte>>, data: seq<byte>, start: nat, k: nat)
    requires AllPackets(ps) && In(ps, data, start) && k <= |ps|
    ensures |Codes(ps[..k])| <= |Codes(ps)| && |Values(ps[..k])| <= |Values(ps)|
    ensures Scan(data, start + |Codes(ps[..k])|, |Values(ps)| - |Values(ps[..k])|) ==
      Some(Full(Values(ps)[|Values(ps[..k])|..], start + |Codes(ps)|))
    decreases |ps| - k
  {
    hide Codes, Values, IsPacket, TurnAt, Scan;
    Prefix(ps, k);
    if k < |ps| {
      assert IsPacket(ps[k]);
      Next(ps, k);
      There(ps, data, start, k);
      ScanPackets(ps, data, start, k + 1);
      PacketTurn(ps[k], data, start + |Codes(ps[..k])|, |Values(ps)| - |Values(ps[..k])|);
      ScanTurn(data, start + |Codes(ps[..k])|, |Values(ps)| - |Values(ps[..k])|);
      assert ps[k].values + Values(ps)[|Values(ps[..k + 1])|..] == Values(ps)[|Values(ps[..k])|..];
    } else {
      assert ps[..k] == ps && Values(ps)[|Values(ps)|..] == [];
      ScanEnds(data, start + |Codes(ps)|, 0);
    }
  }

  /** What is written is read back, whatever comes before and behind it. */
  method RoundTrip(before: seq<byte>, comp: seq<byte>, after: seq<byte>) returns (r: Option<Outcome>)
    ensures r.Some? && r.value.Full? && r.value.values == comp
  {
    ghost var ps;
    var out;
    out, ps := WriteComponent(comp);
    var data := before + out + after;
    assert data[|before|..|before| + |out|] == out;
    NoPackets<byte>();
    ScanPackets(ps, data, |before|, 0);
    assert ps[..0] == [] && comp[0..] == comp;
    r := ReadComponent(data, |before|, |comp|);
  }
}
