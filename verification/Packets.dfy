/** Data in packets: a run of bytes and the values that each stands for. */
module Packets {
  import opened Bits

  datatype Packet<T> = Packet(code: seq<byte>, values: seq<T>)

  ghost function Codes<T>(ps: seq<Packet<T>>): seq<byte> {
    if ps == [] then [] else Codes(ps[..|ps| - 1]) + ps[|ps| - 1].code
  }

  ghost function Values<T>(ps: seq<Packet<T>>): seq<T> {
    if ps == [] then [] else Values(ps[..|ps| - 1]) + ps[|ps| - 1].values
  }

  lemma NoPackets<T>()
    ensures Codes<T>([]) == [] && Values<T>([]) == []
  {
  }

  lemma Snoc<T>(ps: seq<Packet<T>>, p: Packet<T>)
    ensures Codes(ps + [p]) == Codes(ps) + p.code && Values(ps + [p]) == Values(ps) + p.values
  {
    assert (ps + [p])[..|ps|] == ps;
  }

  lemma {:induction false} Prefix<T>(ps: seq<Packet<T>>, k: nat)
    requires k <= |ps|
    ensures Codes(ps[..k]) <= Codes(ps) && Values(ps[..k]) <= Values(ps)
  {
    if k < |ps| {
      var rest := ps[..|ps| - 1];
      Prefix(rest, k);
      assert rest[..k] == ps[..k];
    } else {
      assert ps[..k] == ps;
    }
  }

  /** The k-th packet's place in the whole. */
  lemma Next<T>(ps: seq<Packet<T>>, k: nat)
    requires k < |ps|
    ensures Codes(ps[..k + 1]) == Codes(ps[..k]) + ps[k].code && Codes(ps[..k + 1]) <= Codes(ps)
    ensures Values(ps[..k + 1]) == Values(ps[..k]) + ps[k].values && Values(ps[..k + 1]) <= Values(ps)
  {
    hide Codes, Values;
    Prefix(ps, k + 1);
    OneMore(ps, k);
    Snoc(ps[..k], ps[k]);
  }

  lemma OneMore<T>(s: seq<T>, k: nat)
    requires k < |s|
    ensures s[..k + 1] == s[..k] + [s[k]]
  {
  }

  /** The packets lie in data from start on. */
  ghost predicate In<T>(ps: seq<Packet<T>>, data: seq<byte>, start: nat) {
    start + |Codes(ps)| <= |data| && data[start..start + |Codes(ps)|] == Codes(ps)
  }

  /** What a reader sees at the k-th packet. */
  lemma There<T>(ps: seq<Packet<T>>, data: seq<byte>, start: nat, k: nat)
    requires In(ps, data, start) && k < |ps|
    ensures var pos := start + |Codes(ps[..k])|;
      pos + |ps[k].code| <= |data| && data[pos..pos + |ps[k].code|] == ps[k].code
  {
    hide Codes, Values;
    Next(ps, k);
    SliceOf(data, start, Codes(ps), |Codes(ps[..k])|, ps[k].code);
  }

  lemma SliceOf(data: seq<byte>, start: nat, all: seq<byte>, a: nat, part: seq<byte>)
    requires start + |all| <= |data| && data[start..start + |all|] == all
    requires a + |part| <= |all| && all[..a + |part|] == all[..a] + part
    ensures data[start + a..start + a + |part|] == part
  {
    forall i | 0 <= i < |part| ensures data[start + a + i] == part[i] {
      assert data[start..start + |all|][a + i] == all[a + i];
      assert all[..a + |part|][a + i] == part[i];
    }
  }

  /** ps has been written so far, and stands for the first x values. */
  ghost predicate Written<T>(ps: seq<Packet<T>>, out: seq<byte>, all: seq<T>, x: nat) {
    x <= |all| && out == Codes(ps) && Values(ps) == all[..x]
  }

  lemma WriteMore<T>(ps: seq<Packet<T>>, out: seq<byte>, all: seq<T>, x: nat, p: Packet<T>)
    requires Written(ps, out, all, x) && x + |p.values| <= |all| && all[x..x + |p.values|] == p.values
    ensures Written(ps + [p], out + p.code, all, x + |p.values|)
  {
    hide Codes, Values;
    Snoc(ps, p);
    assert all[..x] + all[x..x + |p.values|] == all[..x + |p.values|];
  }

  // ----- reading bytes of any data

  /** Past the end of the data the position stays where it is. */
  function Clip(data: seq<byte>, i: nat): (j: nat)
    ensures j <= |data| && j <= i
  {
    if i < |data| then i else |data|
  }

  function Repeat<T>(v: T, n: nat): (s: seq<T>)
    ensures |s| == n && forall i :: 0 <= i < n ==> s[i] == v
  {
    seq<T>(n, i => v)
  }

  function BytesFrom(data: seq<byte>, pos: nat, n: nat): (s: seq<byte>)
    ensures |s| == n && forall i :: 0 <= i < n ==> s[i] == ByteAt(data, pos + i)
  {
    seq<byte>(n, i requires 0 <= i => ByteAt(data, pos + i))
  }

  method Get8(data: seq<byte>, pos0: nat) returns (b: byte, pos: nat)
    requires pos0 <= |data|
    ensures b == ByteAt(data, pos0) && pos == Clip(data, pos0 + 1)
  {
    if pos0 == |data| { return 0, pos0; }
    return data[pos0], pos0 + 1;
  }
}
