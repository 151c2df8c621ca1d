/** The byte stuffing of entropy-coded segments, section F.1.2.3 of ITU-T T.81. */
module JpegBits {
  import opened Bits
  import opened MsbFirst

  /** Every byte 0xFF is followed by a zero, so as not to look like a marker. */
  function Stuffed(bs: seq<byte>): seq<byte> {
    if bs == [] then [] else Stuffed(bs[..|bs| - 1]) + StuffedByte(bs[|bs| - 1])
  }

  /** Past any fill bytes. */
  function SkipFill(data: seq<byte>, pos: nat): (r: nat)
    ensures pos <= r
    decreases |data| - pos
  {
    if pos < |data| && data[pos] == 0xFF then SkipFill(data, pos + 1) else pos
  }

  /** The bytes of the entropy-coded segment at pos, up to a marker or the end of the data. */
  function Entropy(data: seq<byte>, pos: nat): seq<byte>
    decreases |data| - pos
  {
    if pos >= |data| then []
    else if data[pos] != 0xFF then [data[pos]] + Entropy(data, pos + 1)
    else
      var c := SkipFill(data, pos + 1);
      if c < |data| && data[c] != 0 then [] else [0xFF] + Entropy(data, c + 1)
  }

  ghost predicate MarkerAt(data: seq<byte>, pos: nat) {
    pos + 1 < |data| && data[pos] == 0xFF && data[pos + 1] != 0xFF && data[pos + 1] != 0
  }

  /** Reading a segment undoes the stuffing. */
  lemma {:induction false} Unstuffed(before: seq<byte>, bs: seq<byte>, after: seq<byte>, k: nat)
    requires k <= |bs| && MarkerAt(after, 0)
    ensures |Stuffed(bs[..k])| <= |Stuffed(bs)|
    ensures Entropy(before + Stuffed(bs) + after, |before| + |Stuffed(bs[..k])|) == bs[k..]
    decreases |bs| - k
  {
    hide Entropy, Stuffed;
    var data := before + Stuffed(bs) + after;
    var pos := |before| + |Stuffed(bs[..k])|;
    StuffedPrefix(bs, k);
    if k == |bs| {
      assert bs[..k] == bs;
      assert data[pos] == after[0] && data[pos + 1] == after[1];
      EntropyEnds(data, pos);
    } else {
      Unstuffed(before, bs, after, k + 1);
      StuffedPrefix(bs, k + 1);
      StuffedNext(bs, k);
      var part := StuffedByte(bs[k]);
      assert Stuffed(bs[..k]) + part <= Stuffed(bs);
      PrefixSlice(Stuffed(bs), Stuffed(bs[..k]), part);
      assert data[pos..pos + |part|] == part;
      EntropyByte(data, pos, bs[k]);
    }
  }

  function StuffedByte(b: byte): seq<byte> {
    if b == 0xFF then [0xFF, 0] else [b]
  }

  lemma StuffedNext(bs: seq<byte>, k: nat)
    requires k < |bs|
    ensures Stuffed(bs[..k + 1]) == Stuffed(bs[..k]) + StuffedByte(bs[k])
  {
    assert bs[..k + 1][..k] == bs[..k];
  }

  lemma EntropyByte(data: seq<byte>, pos: nat, b: byte)
    requires pos + |StuffedByte(b)| <= |data| && data[pos..pos + |StuffedByte(b)|] == StuffedByte(b)
    ensures Entropy(data, pos) == [b] + Entropy(data, pos + |StuffedByte(b)|)
  {
    assert data[pos] == StuffedByte(b)[0];
    if b == 0xFF { assert data[pos + 1] == StuffedByte(b)[1]; }
  }

  lemma EntropyEnds(data: seq<byte>, pos: nat)
    requires MarkerAt(data, pos)
    ensures Entropy(data, pos) == []
  {
  }

  lemma {:induction false} StuffedPrefix(bs: seq<byte>, k: nat)
    requires k <= |bs|
    ensures Stuffed(bs[..k]) <= Stuffed(bs)
  {
    if k < |bs| {
      var rest := bs[..|bs| - 1];
      StuffedPrefix(rest, k);
      assert rest[..k] == bs[..k];
    } else {
      assert bs[..k] == bs;
    }
  }
}
