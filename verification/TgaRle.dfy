/** Run-length coding of TGA pixels. */
module TgaRle {
  import opened Bits
  import opened Packets

  /** A pixel in the file's order of channels. */
  type Pixel = seq<byte>

  function Flat(pixels: seq<Pixel>): seq<byte> {
    if pixels == [] then [] else Flat(pixels[..|pixels| - 1]) + pixels[|pixels| - 1]
  }

  ghost predicate Sized(comp: nat, pixels: seq<Pixel>) {
    forall i :: 0 <= i < |pixels| ==> |pixels[i]| == comp
  }

  /** One pixel up to 128 times, or up to 128 pixels as they are. */
  ghost predicate IsPacket(comp: nat, p: Packet<Pixel>) {
    && |p.code| >= 1 && Sized(comp, p.values)
    && var h: nat := p.code[0];
      if h >= 128 then |p.code| == 1 + comp && p.values == seq(h - 127, i => p.code[1..])
      else |p.values| == h + 1 && p.code[1..] == Flat(p.values)
  }

  ghost predicate AllPackets(comp: nat, ps: seq<Packet<Pixel>>) {
    forall i :: 0 <= i < |ps| ==> IsPacket(comp, ps[i])
  }

  // ----- the writer

  /** How many pixels from i on go into one packet, and whether they differ. Differing pixels are
      compared with the last but one before them, which makes no difference to what can be read back. */
  method Measure(row: seq<Pixel>, i: nat) returns (len: nat, diff: bool)
    requires i < |row|
    ensures 1 <= len <= 128 && i + len <= |row|
    ensures !diff ==> forall k :: i <= k < i + len ==> row[k] == row[i]
  {
    len, diff := 1, true;
    if i + 1 < |row| {
      len := len + 1;
      diff := row[i] != row[i + 1];
      var k := i + 2;
      if diff {
        var prev := i;
        while k < |row| && len < 128
          invariant i + 2 <= k <= |row| && len == k - i && prev == k - 2 && len <= 128
        {
          if row[prev] != row[k] {
            prev := prev + 1;
            len := len + 1;
          } else {
            len := len - 1;
            break;
          }
          k := k + 1;
        }
      } else {
        while k < |row| && len < 128
          invariant i + 2 <= k <= |row| && len == k - i && len <= 128
          invariant forall m :: i <= m < k ==> row[m] == row[i]
        {
          if row[k] == row[i] { len := len + 1; } else { break; }
          k := k + 1;
        }
      }
    }
  }

  /** The packets of one row. */
  method WriteRow(comp: nat, row: seq<Pixel>, ghost all: seq<Pixel>, ghost x0: nat, out0: seq<byte>, ghost ps0: seq<Packet<Pixel>>)
      returns (out: seq<byte>, ghost ps: seq<Packet<Pixel>>)
    requires Sized(comp, row) && x0 + |row| <= |all| && all[x0..x0 + |row|] == row
    requires Written(ps0, out0, all, x0) && AllPackets(comp, ps0)
    ensures Written(ps, out, all, x0 + |row|) && AllPackets(comp, ps)
  {
    hide Written, Flat;
    out, ps := out0, ps0;
    var i := 0;
    while i < |row|
      invariant 0 <= i <= |row| && Written(ps, out, all, x0 + i) && AllPackets(comp, ps)
    {
      var len, diff := Measure(row, i);
      var header: byte := if diff then len - 1 else len + 127;
      var pixels := if diff then Flat(row[i..i + len]) else row[i];
      ghost var p := Packet([header] + pixels, row[i..i + len]);
      assert p.code[1..] == pixels;
      Within(all, x0, row, i, len);
      if !diff { assert row[i..i + len] == seq(len, k => p.code[1..]); }
      WriteMore(ps, out, all, x0 + i, p);
      ps := ps + [p];
      out := out + ([header] + pixels);
      i := i + len;
    }
  }

  lemma Within<T>(all: seq<T>, x0: nat, row: seq<T>, i: nat, len: nat)
    requires x0 + |row| <= |all| && all[x0..x0 + |row|] == row && i + len <= |row|
    ensures all[x0 + i..x0 + i + len] == row[i..i + len]
  {
    var a, b := all[x0 + i..x0 + i + len], row[i..i + len];
    forall k | 0 <= k < len ensures a[k] == b[k] { assert all[x0..x0 + |row|][i + k] == row[i + k]; }
  }

  // ----- what a reader makes of any data

  /** m pixels as they are. */
  function Raws(data: seq<byte>, p: nat, comp: nat, m: nat): (r: seq<Pixel>)
    ensures |r| == m
    decreases m
  {
    if m == 0 then [] else [BytesFrom(data, p, comp)] + Raws(data, p + comp, comp, m - 1)
  }

  function Behind(p: nat, comp: nat, m: nat): (q: nat)
    ensures q >= p
    decreases m
  {
    if m == 0 then p else Behind(p + comp, comp, m - 1)
  }

  /** The n pixels that the packets from p on stand for, and the position behind them. The last packet is
      cut off where it has more; past the end of the data zeros are read. */
  function Expand(data: seq<byte>, p: nat, comp: nat, n: nat): (r: (seq<Pixel>, nat))
    ensures |r.0| == n
    decreases n
  {
    if n == 0 then ([], p)
    else
      var h := ByteAt(data, p);
      var m := if 1 + h % 128 < n then 1 + h % 128 else n;
      var rest := Expand(data, if h >= 128 then p + 1 + comp else Behind(p + 1, comp, m), comp, n - m);
      ((if h >= 128 then Repeat(BytesFrom(data, p + 1, comp), m) else Raws(data, p + 1, comp, m)) + rest.0, rest.1)
  }

  /** The same from inside a packet, of which count pixels are to come. */
  function Resume(data: seq<byte>, p: nat, comp: nat, count: nat, repeating: bool, raw: Pixel, n: nat): (seq<Pixel>, nat) {
    var m := if count < n then count else n;
    var rest := Expand(data, if repeating then p else Behind(p, comp, m), comp, n - m);
    ((if repeating then Repeat(raw, m) else Raws(data, p, comp, m)) + rest.0, rest.1)
  }

  // ----- the reader

  /** Whether a pixel is to be read, and with which header. */
  lemma NewPacket(data: seq<byte>, p: nat, comp: nat, n: nat, repeating: bool, raw: Pixel)
    requires n > 0
    ensures var h := ByteAt(data, p);
      Resume(data, p, comp, 0, repeating, raw, n) ==
        if h >= 128 then Resume(data, p + 1 + comp, comp, 1 + h % 128, true, BytesFrom(data, p + 1, comp), n)
        else Resume(data, p + 1, comp, 1 + h % 128, false, raw, n)
  {
    hide Raws;
    NoPixels(data, p, comp);
    var e := Expand(data, p, comp, n);
    assert [] + e.0 == e.0;
    assert Repeat(raw, 0) == [];
  }

  lemma NoPixels(data: seq<byte>, p: nat, comp: nat)
    ensures Raws(data, p, comp, 0) == [] && Behind(p, comp, 0) == p
  {
  }

  /** The next pixel of a packet. */
  lemma OnePixel(data: seq<byte>, p: nat, comp: nat, count: nat, repeating: bool, raw: Pixel, n: nat)
    requires n > 0 && count > 0
    ensures var v := if repeating then raw else BytesFrom(data, p, comp);
      var rest := Resume(data, if repeating then p else p + comp, comp, count - 1, repeating, v, n - 1);
      Resume(data, p, comp, count, repeating, raw, n) == ([v] + rest.0, rest.1)
  {
    hide Expand;
    var m := if count < n then count else n;
    if repeating {
      assert Repeat(raw, m) == [raw] + Repeat(raw, m - 1);
    }
    var v := if repeating then raw else BytesFrom(data, p, comp);
    var rest := Expand(data, if repeating then p else Behind(p, comp, m), comp, n - m);
    var more := if repeating then Repeat(raw, m - 1) else Raws(data, p + comp, comp, m - 1);
    assert [v] + more + rest.0 == [v] + (more + rest.0);
  }

  lemma ResumeNothing(data: seq<byte>, p: nat, comp: nat, count: nat, repeating: bool, raw: Pixel)
    ensures Resume(data, p, comp, count, repeating, raw, 0) == ([], p)
  {
    assert Repeat(raw, 0) + [] == [];
  }

  lemma ResumeAll(data: seq<byte>, p: nat, comp: nat, repeating: bool, raw: Pixel, n: nat)
    ensures Resume(data, p, comp, 0, repeating, raw, n) == Expand(data, p, comp, n)
  {
    hide Expand;
    var e := Expand(data, p, comp, n);
    assert Repeat(raw, 0) + e.0 == e.0;
    assert [] + e.0 == e.0;
  }

  lemma Together<T>(a: seq<T>, x: T, b: seq<T>)
    ensures a + ([x] + b) == (a + [x]) + b
  {
  }

  /** One pixel, byte by byte. */
  method ReadPixel(data: seq<byte>, pos0: nat, comp: nat, ghost p: nat) returns (raw: Pixel, pos: nat)
    requires pos0 == Clip(data, p)
    ensures raw == BytesFrom(data, p, comp) && pos == Clip(data, p + comp)
  {
    raw, pos := [], pos0;
    while |raw| < comp
      invariant |raw| <= comp && pos == Clip(data, p + |raw|)
      invariant forall i :: 0 <= i < |raw| ==> raw[i] == ByteAt(data, p + i)
    {
      var b;
      b, pos := Get8(data, pos);
      raw := raw + [b];
    }
  }

  /** Reads n pixels, whatever the data, one at a time. */
  method ReadPixels(data: seq<byte>, start: nat, comp: nat, n: nat) returns (pixels: seq<Pixel>, pos: nat)
    requires start <= |data|
    ensures var r := Expand(data, start, comp, n); pixels == r.0 && pos == Clip(data, r.1)
  {
    hide Expand, Resume;
    ghost var want, p: nat := Expand(data, start, comp, n), start;
    pixels, pos := [], start;
    var rleCount: nat, rleRepeating, raw: Pixel := 0, false, [];
    var i := 0;
    ResumeAll(data, start, comp, rleRepeating, raw, n);
    assert [] + want.0 == want.0;
    while i < n
      invariant 0 <= i <= n && pos == Clip(data, p)
      invariant var r := Resume(data, p, comp, rleCount, rleRepeating, raw, n - i); want == (pixels + r.0, r.1)
    {
      var readNext := false;
      if rleCount == 0 {
        NewPacket(data, p, comp, n - i, rleRepeating, raw);
        var cmd;
        cmd, pos := Get8(data, pos);
        p := p + 1;
        rleCount := 1 + cmd % 128;
        rleRepeating := cmd >= 128;
        readNext := true;
      } else if !rleRepeating {
        readNext := true;
      }
      if !rleRepeating { OnePixel(data, p, comp, rleCount, rleRepeating, raw, n - i); }
      if readNext {
        raw, pos := ReadPixel(data, pos, comp, p);
        p := p + comp;
      }
      if rleRepeating { OnePixel(data, p, comp, rleCount, rleRepeating, raw, n - i); }
      Together(pixels, raw, Resume(data, p, comp, rleCount - 1, rleRepeating, raw, n - i - 1).0);
      pixels := pixels + [raw];
      rleCount := rleCount - 1;
      i := i + 1;
    }
    ResumeNothing(data, p, comp, rleCount, rleRepeating, raw);
  }

  // ----- there and back

  lemma {:induction false} RawsSnoc(data: seq<byte>, p: nat, comp: nat, m: nat)
    ensures Raws(data, p, comp, m + 1) == Raws(data, p, comp, m) + [BytesFrom(data, Behind(p, comp, m), comp)]
    ensures Behind(p, comp, m + 1) == Behind(p, comp, m) + comp
    decreases m
  {
    if m > 0 {
      RawsSnoc(data, p + comp, comp, m - 1);
      var v := BytesFrom(data, p, comp);
      assert [v] + (Raws(data, p + comp, comp, m - 1) + [BytesFrom(data, Behind(p, comp, m), comp)]) ==
        ([v] + Raws(data, p + comp, comp, m - 1)) + [BytesFrom(data, Behind(p, comp, m), comp)];
    }
  }

  lemma {:induction false} RawsFlat(data: seq<byte>, p: nat, comp: nat, values: seq<Pixel>)
    requires Sized(comp, values) && p + |Flat(values)| <= |data| && data[p..p + |Flat(values)|] == Flat(values)
    ensures Raws(data, p, comp, |values|) == values && Behind(p, comp, |values|) == p + |Flat(values)|
    decreases |values|
  {
    hide Raws, Behind;
    NoPixels(data, p, comp);
    if values != [] {
      var m := |values| - 1;
      var front, f := values[..m], Flat(values[..m]);
      assert data[p..p + |f|] == data[p..p + |Flat(values)|][..|f|] == f;
      RawsFlat(data, p, comp, front);
      RawsSnoc(data, p, comp, m);
      forall i | 0 <= i < comp ensures ByteAt(data, p + |f| + i) == values[m][i] {
        assert data[p..p + |Flat(values)|][|f| + i] == Flat(values)[|f| + i];
      }
      assert BytesFrom(data, p + |f|, comp) == values[m];
      assert values == front + [values[m]];
    }
  }

  lemma RepeatedFirst(comp: nat, p: Packet<Pixel>, data: seq<byte>, at: nat, n: nat)
    requires IsPacket(comp, p) && p.code[0] >= 128
    requires at + |p.code| <= |data| && data[at..at + |p.code|] == p.code && |p.values| <= n
    ensures 1 <= |p.values|
    ensures Expand(data, at, comp, n) ==
      (p.values + Expand(data, at + |p.code|, comp, n - |p.values|).0, Expand(data, at + |p.code|, comp, n - |p.values|).1)
  {
    hide Flat, Raws, Behind;
    assert data[at..at + |p.code|][0] == data[at];
    forall i | 0 <= i < comp ensures ByteAt(data, at + 1 + i) == p.code[1..][i] {
      assert data[at..at + |p.code|][1 + i] == p.code[1 + i];
    }
    assert BytesFrom(data, at + 1, comp) == p.code[1..];
    assert Repeat(p.code[1..], |p.values|) == p.values;
  }

  lemma RawFirst(comp: nat, p: Packet<Pixel>, data: seq<byte>, at: nat, n: nat)
    requires IsPacket(comp, p) && p.code[0] < 128
    requires at + |p.code| <= |data| && data[at..at + |p.code|] == p.code && |p.values| <= n
    ensures 1 <= |p.values|
    ensures Expand(data, at, comp, n) ==
      (p.values + Expand(data, at + |p.code|, comp, n - |p.values|).0, Expand(data, at + |p.code|, comp, n - |p.values|).1)
  {
    hide Flat, Raws, Behind;
    assert data[at..at + |p.code|][0] == data[at];
    assert data[at + 1..at + |p.code|] == data[at..at + |p.code|][1..];
    RawsFlat(data, at + 1, comp, p.values);
  }

  /** A packet of a writer is the first one that is expanded. */
  lemma PacketFirst(comp: nat, p: Packet<Pixel>, data: seq<byte>, at: nat, n: nat)
    requires IsPacket(comp, p) && at + |p.code| <= |data| && data[at..at + |p.code|] == p.code && |p.values| <= n
    ensures 1 <= |p.values|
    ensures Expand(data, at, comp, n) ==
      (p.values + Expand(data, at + |p.code|, comp, n - |p.values|).0, Expand(data, at + |p.code|, comp, n - |p.values|).1)
  {
    hide Expand, Flat;
    if p.code[0] >= 128 { RepeatedFirst(comp, p, data, at, n); } else { RawFirst(comp, p, data, at, n); }
  }

  /** From every packet on, expanding gives the rest of the pixels. */
  lemma {:induction false} ExpandPackets(comp: nat, ps: seq<Packet<Pixel>>, data: seq<byte>, start: nat, k: nat)
    requires AllPackets(comp, ps) && In(ps, data, start) && k <= |ps|
    ensures |Values(ps[..k])| <= |Values(ps)|
    ensures Expand(data, start + |Codes(ps[..k])|, comp, |Values(ps)| - |Values(ps[..k])|) ==
      (Values(ps)[|Values(ps[..k])|..], start + |Codes(ps)|)
    decreases |ps| - k
  {
    hide Codes, Values, IsPacket, Expand;
    Prefix(ps, k);
    if k < |ps| {
      assert IsPacket(comp, ps[k]);
      Next(ps, k);
      There(ps, data, start, k);
      ExpandPackets(comp, ps, data, start, k + 1);
      PacketFirst(comp, ps[k], data, start + |Codes(ps[..k])|, |Values(ps)| - |Values(ps[..k])|);
      assert ps[k].values + Values(ps)[|Values(ps[..k + 1])|..] == Values(ps)[|Values(ps[..k])|..];
    } else {
      assert ps[..k] == ps && Values(ps)[|Values(ps)|..] == [];
      ExpandNothing(data, start + |Codes(ps)|, comp);
    }
  }

  lemma ExpandNothing(data: seq<byte>, p: nat, comp: nat)
    ensures Expand(data, p, comp, 0) == ([], p)
  {
  }

  /** An image written row by row is read back pixel by pixel. */
  method RoundTrip(rows: seq<seq<Pixel>>, comp: nat, before: seq<byte>, after: seq<byte>) returns (back: seq<Pixel>)
    requires forall j :: 0 <= j < |rows| ==> Sized(comp, rows[j])
    ensures back == Joined(rows)
  {
    hide IsPacket, In, Codes, Values, Expand;
    NoPackets<Pixel>();
    var out: seq<byte> := [];
    ghost var ps: seq<Packet<Pixel>>, all := [], Joined(rows);
    var j, n := 0, 0;
    assert rows[..0] == [];
    while j < |rows|
      invariant 0 <= j <= |rows| && n == |Joined(rows[..j])| && Written(ps, out, all, n) && AllPackets(comp, ps)
    {
      RowIn(rows, j);
      out, ps := WriteRow(comp, rows[j], all, n, out, ps);
      n := n + |rows[j]|;
      j := j + 1;
    }
    assert rows[..j] == rows && all[..n] == all;
    var data := before + out + after;
    assert data[|before|..|before| + |out|] == out;
    PacketsIn(ps, data, |before|);
    var pos;
    ExpandPackets(comp, ps, data, |before|, 0);
    assert ps[..0] == [] && all[0..] == all;
    back, pos := ReadPixels(data, |before|, comp, n);
  }

  lemma PacketsIn(ps: seq<Packet<Pixel>>, data: seq<byte>, start: nat)
    requires start + |Codes(ps)| <= |data| && data[start..start + |Codes(ps)|] == Codes(ps)
    ensures In(ps, data, start)
  {
  }

  function Joined(rows: seq<seq<Pixel>>): seq<Pixel> {
    if rows == [] then [] else Joined(rows[..|rows| - 1]) + rows[|rows| - 1]
  }

  lemma {:induction false} JoinedPrefix(rows: seq<seq<Pixel>>, j: nat)
    requires j <= |rows|
    ensures Joined(rows[..j]) <= Joined(rows)
  {
    if j < |rows| {
      var rest := rows[..|rows| - 1];
      JoinedPrefix(rest, j);
      assert rest[..j] == rows[..j];
    } else {
      assert rows[..j] == rows;
    }
  }

  lemma RowIn(rows: seq<seq<Pixel>>, j: nat)
    requires j < |rows|
    ensures |Joined(rows[..j + 1])| == |Joined(rows[..j])| + |rows[j]| <= |Joined(rows)|
    ensures Joined(rows)[|Joined(rows[..j])|..|Joined(rows[..j])| + |rows[j]|] == rows[j]
  {
    JoinedPrefix(rows, j + 1);
    assert rows[..j + 1][..j] == rows[..j];
    var a := |Joined(rows[..j])|;
    assert Joined(rows[..j + 1])[a..a + |rows[j]|] == rows[j];
    assert Joined(rows)[..a + |rows[j]|] == Joined(rows[..j + 1]);
    assert Joined(rows)[a..a + |rows[j]|] == Joined(rows)[..a + |rows[j]|][a..];
  }
}
