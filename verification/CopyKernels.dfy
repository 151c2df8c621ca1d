/** The copies the Oodle decoders are built on: in words, and yet the same as one byte at a time. */
module CopyKernels {
  import opened Bits
  import opened Lz77

  /** One load followed by one store, n bytes wide. */
  method Move(dst: array<byte>, d: nat, src: array<byte>, s: nat, n: nat)
    requires d + n <= dst.Length && s + n <= src.Length
    modifies dst
    ensures forall k :: d <= k < d + n ==> dst[k] == old(src[s + (k - d)])
    ensures forall k :: 0 <= k < dst.Length && !(d <= k < d + n) ==> dst[k] == old(dst[k])
  {
    var w := src[s..s + n];
    forall k | d <= k < d + n { dst[k] := w[k - d]; }
  }

  /** A copy between places that do not overlap. */
  method CopyBytes(dst: array<byte>, d: nat, src: array<byte>, s: nat, count: nat)
    requires d + count <= dst.Length && s + count <= src.Length
    requires dst != src || s + count <= d || d + count <= s
    modifies dst
    ensures forall k :: d <= k < d + count ==> dst[k] == old(src[s + (k - d)])
    ensures forall k :: 0 <= k < dst.Length && !(d <= k < d + count) ==> dst[k] == old(dst[k])
  {
    if count <= 32 {
      if count >= 16 {
        Move(dst, d, src, s, 8);
        Move(dst, d + 8, src, s + 8, 8);
        if count > 16 {
          Move(dst, d + count - 16, src, s + count - 16, 8);
          Move(dst, d + count - 8, src, s + count - 8, 8);
        }
      } else if count >= 8 {
        Move(dst, d, src, s, 8);
        Move(dst, d + count - 8, src, s + count - 8, 8);
      } else if count >= 4 {
        Move(dst, d, src, s, 4);
        Move(dst, d + count - 4, src, s + count - 4, 4);
      } else if count > 0 {
        dst[d] := src[s];
        if count >= 2 { Move(dst, d + count - 2, src, s + count - 2, 2); }
      }
    } else {
      Move(dst, d, src, s, count);
    }
  }

  // ----- matches

  /** From d up to e every byte is the one offset before it. */
  ghost predicate Repeats(b: seq<byte>, d: nat, e: nat, offset: nat) {
    offset <= d && e <= |b| && forall k :: d <= k < e ==> b[k] == b[k - offset]
  }

  /** Everything outside [d, e) is as before. */
  ghost predicate Outside(before: seq<byte>, after: seq<byte>, d: nat, e: nat) {
    |after| == |before| && forall k :: 0 <= k < |before| && !(d <= k < e) ==> after[k] == before[k]
  }

  /** A word no wider than the offset continues the repetition. */
  method MoveOn(buf: array<byte>, d: nat, e: nat, offset: nat, n: nat)
    requires 1 <= n <= offset && Repeats(buf[..], d, e, offset) && d <= e && e + n <= buf.Length
    modifies buf
    ensures Repeats(buf[..], d, e + n, offset) && Outside(old(buf[..]), buf[..], e, e + n)
  {
    Move(buf, e, buf, e - offset, n);
  }

  /** The last few bytes, as two words that may overlap. */
  method MoveTail(buf: array<byte>, d: nat, e: nat, offset: nat, count: nat)
    requires count < 8 <= offset && Repeats(buf[..], d, e, offset) && d <= e && e + count <= buf.Length
    modifies buf
    ensures Repeats(buf[..], d, e + count, offset) && Outside(old(buf[..]), buf[..], e, e + count)
  {
    if count > 0 {
      if count >= 4 {
        Move(buf, e, buf, e - offset, 4);
        Move(buf, e + count - 4, buf, e - offset + count - 4, 4);
      } else {
        buf[e] := buf[e - offset];
        if count >= 2 { Move(buf, e + count - 2, buf, e - offset + count - 2, 2); }
      }
    }
  }

  /** Words of eight bytes as long as they last. */
  method MoveEights(buf: array<byte>, d: nat, e: nat, offset: nat, count: nat) returns (m: nat)
    requires 8 <= offset && Repeats(buf[..], d, e, offset) && d <= e && e + count <= buf.Length
    modifies buf
    ensures m <= count && count - m < 8
    ensures Repeats(buf[..], d, e + m, offset) && Outside(old(buf[..]), buf[..], e, e + m)
  {
    m := 0;
    while count - m >= 8
      invariant m <= count
      invariant Repeats(buf[..], d, e + m, offset) && Outside(old(buf[..]), buf[..], e, e + m)
    {
      MoveOn(buf, d, e + m, offset, 8);
      m := m + 8;
    }
  }

  /** Offsets of at least 8; vectors of sixteen bytes when the offset allows and the machine has them. */
  method MatchFar(buf: array<byte>, d: nat, offset: nat, count: nat, sse2: bool)
    requires 8 <= offset <= d && d + count <= buf.Length
    modifies buf
    ensures Repeats(buf[..], d, d + count, offset) && Outside(old(buf[..]), buf[..], d, d + count)
  {
    var e := d;
    if offset >= 16 && sse2 {
      while d + count - e >= 16
        invariant d <= e <= d + count
        invariant Repeats(buf[..], d, e, offset) && Outside(old(buf[..]), buf[..], d, e)
      {
        MoveOn(buf, d, e, offset, 16);
        e := e + 16;
      }
    } else if count >= 32 {
      MoveOn(buf, d, d, offset, 8);
      MoveOn(buf, d, d + 8, offset, 8);
      MoveOn(buf, d, d + 16, offset, 8);
      MoveOn(buf, d, d + 24, offset, 8);
      e := d + 32;
    }
    var m := MoveEights(buf, d, e, offset, d + count - e);
    MoveTail(buf, d, e + m, offset, d + count - e - m);
  }

  // ----- filling with one byte

  /** The n bytes of a word, least significant first. */
  function BytesOf(w: nat, n: nat): (s: seq<byte>)
    ensures |s| == n
  {
    if n == 0 then [] else [w % 0x100] + BytesOf(w / 0x100, n - 1)
  }

  function Ones(n: nat): nat {
    if n == 0 then 0 else 1 + 0x100 * Ones(n - 1)
  }

  /** val * 0x0101..01 holds val in every byte. */
  lemma {:induction false} Broadcast(val: byte, n: nat)
    ensures forall k :: 0 <= k < n ==> BytesOf(val * Ones(n), n)[k] == val
  {
    if n > 0 {
      Broadcast(val, n - 1);
      OneMore(val, Ones(n - 1));
    }
  }

  lemma OneMore(val: byte, m: nat)
    ensures (val * (1 + 0x100 * m)) % 0x100 == val && (val * (1 + 0x100 * m)) / 0x100 == val * m
  {
    assert val * (1 + 0x100 * m) == val + 0x100 * (val * m);
  }

  method Store(buf: array<byte>, d: nat, w: nat, n: nat)
    requires d + n <= buf.Length
    modifies buf
    ensures forall k :: d <= k < d + n ==> buf[k] == BytesOf(w, n)[k - d]
    ensures forall k :: 0 <= k < buf.Length && !(d <= k < d + n) ==> buf[k] == old(buf[k])
  {
    var s := BytesOf(w, n);
    forall k | d <= k < d + n { buf[k] := s[k - d]; }
  }

  const BROADCAST := 0x0101010101010101

  method MatchRun(buf: array<byte>, d: nat, count: nat)
    requires 1 <= d && d + count <= buf.Length
    modifies buf
    ensures Repeats(buf[..], d, d + count, 1) && Outside(old(buf[..]), buf[..], d, d + count)
  {
    var val := buf[d - 1];
    var val8 := val * BROADCAST;
    assert Ones(4) == 0x01010101;
    assert Ones(8) == BROADCAST;
    Broadcast(val, 8);
    var e := d;
    while d + count - e >= 8
      invariant d <= e <= d + count
      invariant forall k :: d - 1 <= k < e ==> buf[k] == val
      invariant Outside(old(buf[..]), buf[..], d, e)
    {
      Store(buf, e, val8, 8);
      e := e + 8;
    }
    while e < d + count
      invariant d <= e <= d + count
      invariant forall k :: d - 1 <= k < e ==> buf[k] == val
      invariant Outside(old(buf[..]), buf[..], d, e)
    {
      buf[e] := val;
      e := e + 1;
    }
  }

  /** Offsets from 2 to 7: as many bytes at a time as the offset. */
  method MatchNear(buf: array<byte>, d: nat, offset: nat, count: nat)
    requires 2 <= offset <= 7 && offset <= d && d + count <= buf.Length
    modifies buf
    ensures Repeats(buf[..], d, d + count, offset) && Outside(old(buf[..]), buf[..], d, d + count)
  {
    var e := d;
    while d + count - e >= offset
      invariant d <= e <= d + count
      invariant Repeats(buf[..], d, e, offset) && Outside(old(buf[..]), buf[..], d, e)
    {
      if offset >= 4 {
        MoveOn(buf, d, e, offset, 4);
        if offset > 4 {
          MoveOn(buf, d, e + 4, offset, 1);
          if offset > 5 {
            MoveOn(buf, d, e + 5, offset, 1);
            if offset > 6 { MoveOn(buf, d, e + 6, offset, 1); }
          }
        }
      } else if offset == 2 {
        MoveOn(buf, d, e, offset, 2);
      } else {
        MoveOn(buf, d, e, offset, 1);
        MoveOn(buf, d, e + 1, offset, 1);
        MoveOn(buf, d, e + 2, offset, 1);
      }
      e := e + offset;
    }
    while e < d + count
      invariant d <= e <= d + count
      invariant Repeats(buf[..], d, e, offset) && Outside(old(buf[..]), buf[..], d, e)
    {
      MoveOn(buf, d, e, offset, 1);
      e := e + 1;
    }
  }

  /** Such a repetition is what copying byte by byte makes. */
  lemma RepeatsIsCopyBack(before: seq<byte>, b: seq<byte>, d: nat, e: nat, offset: nat)
    requires 1 <= offset && d <= e && Repeats(b, d, e, offset) && Outside(before, b, d, e)
    ensures b[..e] == CopyBack(before[..d], offset, e - d)
  {
    assert b[..d] == before[..d];
    CopyBackReproduces(b, d, offset, e - d);
  }

  /** Copies count bytes from offset before, whether or not they overlap, as if one by one. */
  method CopyMatch(buf: array<byte>, d: nat, count: nat, offset: nat, sse2: bool)
    requires 1 <= offset <= d && d + count <= buf.Length
    modifies buf
    ensures buf[..d + count] == CopyBack(old(buf[..d]), offset, count)
    ensures Outside(old(buf[..]), buf[..], d, d + count)
  {
    if offset >= count {
      CopyBytes(buf, d, buf, d - offset, count);
    } else if offset >= 8 {
      MatchFar(buf, d, offset, count, sse2);
    } else if offset == 1 {
      MatchRun(buf, d, count);
    } else {
      MatchNear(buf, d, offset, count);
    }
    RepeatsIsCopyBack(old(buf[..]), buf[..], d, d + count, offset);
    assert old(buf[..])[..d] == old(buf[..d]) && buf[..][..d + count] == buf[..d + count];
  }
}
