/** The copy that every one of the Lempel-Ziv formats shares: a match may overlap what it produces. */
module Lz77 {
  import opened Bits

  /** Byte by byte, so that a match may overlap its own copy. */
  function CopyBack(out: seq<byte>, dist: nat, len: nat): (r: seq<byte>)
    requires 1 <= dist <= |out|
    ensures |r| == |out| + len && out <= r
    decreases len
  {
    if len == 0 then out else CopyBack(out + [out[|out| - dist]], dist, len - 1)
  }

  /** The bytes of a copy repeat those dist before them. */
  lemma {:induction false} CopyBackAt(out: seq<byte>, dist: nat, len: nat, k: nat)
    requires 1 <= dist <= |out| && |out| <= k < |out| + len
    ensures CopyBack(out, dist, len)[k] == CopyBack(out, dist, len)[k - dist]
    decreases len
  {
    var next := out + [out[|out| - dist]];
    if k == |out| {
      assert next <= CopyBack(next, dist, len - 1);
    } else {
      CopyBackAt(next, dist, len - 1, k);
    }
  }

  /** A repetition already present in the data is reproduced by the copy. */
  lemma {:induction false} CopyBackReproduces(data: seq<byte>, i: nat, dist: nat, len: nat)
    requires 1 <= dist <= i && i + len <= |data|
    requires forall k :: i <= k < i + len ==> data[k] == data[k - dist]
    ensures CopyBack(data[..i], dist, len) == data[..i + len]
    decreases len
  {
    if len > 0 {
      assert data[..i] + [data[..i][i - dist]] == data[..i + 1];
      CopyBackReproduces(data, i + 1, dist, len - 1);
    }
  }
}
