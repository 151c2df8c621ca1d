/** Writing a scan and reading it back. */
module JpegRoundTrip {
  import opened Bits
  import opened Canonical
  import opened JpegBits
  import opened MsbFirst
  import opened JpegHuffman
  import opened JpegFastAc
  import opened JpegReader
  import opened JpegCode
  import opened JpegWriter
  import opened JpegEncode
  import opened JpegBlock

  /** A component's tables: the writer's codes, the counts and symbols that the header gives the reader,
      and the quantisation table in row order. */
  datatype Coding = Coding(htd: seq<Entry>, hta: seq<Entry>, countDc: seq<nat>, valuesDc: seq<byte>,
                           countAc: seq<nat>, valuesAc: seq<byte>, dequant: seq<nat>)

  /** The reader can hold the tables, and the writer's codes are those that the header defines. */
  ghost predicate Sound(c: Coding) {
    && Table(c.htd) && Table(c.hta) && |c.countDc| == |c.countAc| == 16 && |c.valuesDc| == |c.valuesAc| == 256
    && |Sizes(c.countDc, 16)| <= 256 && |Sizes(c.countAc, 16)| <= 256 && |c.dequant| == 64
    && Fits(Sizes(c.countDc, 16)) && Fits(Sizes(c.countAc, 16))
    && Agrees(c.htd, Sizes(c.countDc, 16), c.valuesDc) && Agrees(c.hta, Sizes(c.countAc, 16), c.valuesAc)
  }

  /** A block of quantised coefficients in zigzag order, and the component it belongs to. */
  datatype Block = Block(comp: nat, du: seq<int>)

  ghost predicate ScanCodable(cs: seq<Coding>, blocks: seq<Block>, preds: seq<int>)
    requires |preds| == 4
  {
    blocks != [] ==>
      var b := blocks[0];
      && b.comp < |cs| <= 4 && BlockCodable(cs[b.comp].htd, cs[b.comp].hta, b.du, preds[b.comp])
      && ScanCodable(cs, blocks[1..], preds[b.comp := b.du[0]])
  }

  /** The blocks in turn; every component has its own DC prediction. */
  ghost function ScanBits(cs: seq<Coding>, blocks: seq<Block>, preds: seq<int>): seq<bool>
    requires |preds| == 4 && ScanCodable(cs, blocks, preds)
  {
    if blocks == [] then [] else
      var b := blocks[0];
      BlockBits(cs[b.comp].htd, cs[b.comp].hta, b.du, preds[b.comp]) + ScanBits(cs, blocks[1..], preds[b.comp := b.du[0]])
  }

  /** Writes the blocks, fills up the last byte with ones, and ends with the marker EOI. */
  method WriteScan(cs: seq<Coding>, blocks: seq<Block>, start: seq<byte>) returns (out: seq<byte>, ghost bytes: seq<byte>)
    requires |cs| <= 4 && (forall c :: c in cs ==> Sound(c)) && ScanCodable(cs, blocks, [0, 0, 0, 0])
    ensures out == start + Stuffed(bytes) + [0xFF, 0xD9]
    ensures GoesOn(bytes, 0, ScanBits(cs, blocks, [0, 0, 0, 0]))
  {
    hide Stuffed, MsbBits, BitsOf, BlockBits, BlockCodable, GoesOn, Register, Table, Fits, Agrees;
    var w := new BitWriter(start);
    var dcs: seq<int> := [0, 0, 0, 0];
    ghost var all := ScanBits(cs, blocks, dcs);
    ghost var bits: seq<bool> := [];
    var i := 0;
    while i < |blocks|
      invariant 0 <= i <= |blocks| && |dcs| == 4 && w.Wrote(start, bits) && fresh(w)
      invariant ScanCodable(cs, blocks[i..], dcs) && bits + ScanBits(cs, blocks[i..], dcs) == all
    {
      var b := blocks[i];
      var c := cs[b.comp];
      assert c in cs && Sound(c);
      assert blocks[i..][1..] == blocks[i + 1..];
      ghost var part := BlockBits(c.htd, c.hta, b.du, dcs[b.comp]);
      BlockSize(c.htd, c.hta, b.du, dcs[b.comp]);
      var dc := ProcessDU(w, b.du, dcs[b.comp], c.htd, c.hta, start, bits);
      Regroup(bits, part, ScanBits(cs, blocks[i + 1..], dcs[b.comp := dc]));
      dcs := dcs[b.comp := dc];
      bits := bits + part;
      i := i + 1;
    }
    assert bits + [] == bits;
    SevenOnes();
    w.WriteBits(0x7F, 7, start, bits);
    bytes := w.bytes;
    FilledUp(bytes, bits, BitsOf(0x7F, 7), w.bitCnt);
    out := w.out + [0xFF, 0xD9];
  }

  lemma BlockSize(htd: seq<Entry>, hta: seq<Entry>, du: seq<int>, pred: int)
    requires BlockCodable(htd, hta, du, pred)
    ensures |du| == 64
  {
  }

  lemma SevenOnes()
    ensures 0x7F < Pow2(7)
  {
    assert Pow2(4) == 16;
  }

  /** Seven more bits complete the last byte. */
  lemma FilledUp(bytes: seq<byte>, bits: seq<bool>, fill: seq<bool>, n: nat)
    requires |fill| == 7 && n < 8 && |bits + fill| == 8 * |bytes| + n && (bits + fill)[..8 * |bytes|] == MsbBits(bytes)
    ensures GoesOn(bytes, 0, bits)
  {
    hide MsbBits, Window;
    var s := MsbBits(bytes);
    assert s == (bits + fill)[..|s|] && |bits| <= |s|;
    WindowInside(s, 0, |bits|);
    assert s[0..|bits|] == bits;
  }

  // ----- reading

  /** A component's decoding tables. */
  datatype Decoder = Decoder(hdc: Huffman, hac: Huffman, fac: seq<int>)

  ghost predicate Ready(c: Coding, d: Decoder)
    requires Sound(c)
    reads d.hdc, d.hac
  {
    && d.hdc.Built(Sizes(c.countDc, 16)) && d.hac.Built(Sizes(c.countAc, 16)) && FastTable(d.fac, Sizes(c.countAc, 16), d.hac.values)
    && d.hdc.values == c.valuesDc && d.hac.values == c.valuesAc
  }

  method BuildDecoder(c: Coding) returns (d: Decoder)
    requires Sound(c)
    ensures fresh(d.hdc) && fresh(d.hac) && Ready(c, d)
  {
    hide Fits, Agrees, Table, Sorted, FastSoFar, LengthsSet;
    var hdc := new Huffman(c.valuesDc);
    var okDc := hdc.Build(c.countDc);
    var hac := new Huffman(c.valuesAc);
    var okAc := hac.Build(c.countAc);
    var fac := BuildFastAc(hac, Sizes(c.countAc, 16));
    d := Decoder(hdc, hac, fac);
  }

  method BuildDecoders(cs: seq<Coding>) returns (ds: seq<Decoder>)
    requires forall c :: 0 <= c < |cs| ==> Sound(cs[c])
    ensures |ds| == |cs| && forall c :: 0 <= c < |cs| ==> Ready(cs[c], ds[c])
  {
    hide Sound, Huffman.Built, FastTable;
    ds := [];
    while |ds| < |cs|
      invariant |ds| <= |cs| && forall c :: 0 <= c < |ds| ==> Ready(cs[c], ds[c])
      decreases |cs| - |ds|
    {
      var d := BuildDecoder(cs[|ds|]);
      ds := ds + [d];
    }
  }

  /** The block's coefficients, dequantised, in row order. */
  ghost predicate Restored(cs: seq<Coding>, b: Block, d: seq<int>) {
    b.comp < |cs| && |b.du| == |cs[b.comp].dequant| == 64 && Filled(d, b.du, cs[b.comp].dequant, 64)
  }

  lemma RestoredIs(cs: seq<Coding>, b: Block, d: seq<int>)
    requires b.comp < |cs| && |b.du| == |cs[b.comp].dequant| == 64 && Filled(d, b.du, cs[b.comp].dequant, 64)
    ensures Restored(cs, b, d)
  {
  }

  /** Reads the next block of component b. */
  method ReadBlock(j: Jpeg, c: Coding, d: Decoder, b: nat, ghost du: seq<int>, ghost bs: seq<byte>, ghost p: nat)
    returns (ok: bool, block: seq<int>)
    requires Sound(c) && Ready(c, d) && j.Live() && b < |j.dc_pred| && BlockCodable(c.htd, c.hta, du, j.dc_pred[b])
    requires j.At(bs, p) && GoesOn(bs, p, BlockBits(c.htd, c.hta, du, j.dc_pred[b]))
    modifies j
    ensures ok && j.Live() && |du| == |c.dequant| == 64 && Filled(block, du, c.dequant, 64)
    ensures j.dc_pred == old(j.dc_pred)[b := du[0]] && j.At(bs, p + |BlockBits(c.htd, c.hta, du, old(j.dc_pred[b]))|)
  {
    hide Entropy, BlockBits, BlockCodable, GoesOn, Table, Fits, Agrees, Sorted, FastSoFar, LengthsSet, FastTable, Filled, Pow2,
      JpegStream.Loaded, JpegStream.Supplied, BlockAt, ReadDc, MsbFirst.MsbBits;
    BlockSize(c.htd, c.hta, du, j.dc_pred[b]);
    BlockIsRead(c.htd, c.hta, Sizes(c.countDc, 16), c.valuesDc, Sizes(c.countAc, 16), c.valuesAc, du, c.dequant, j.dc_pred[b], bs, p);
    var data := new int[64];
    ok := DecodeBlock(j, data, d.hdc, d.hac, d.fac, c.dequant, b, Sizes(c.countDc, 16), Sizes(c.countAc, 16), bs, p);
    block := data[..];
  }

  /** The first block's bits, and the others. */
  lemma ScanSplit(cs: seq<Coding>, blocks: seq<Block>, preds: seq<int>, bs: seq<byte>, p: nat)
    requires |preds| == 4 && blocks != [] && ScanCodable(cs, blocks, preds) && GoesOn(bs, p, ScanBits(cs, blocks, preds))
    ensures var b := blocks[0];
      && b.comp < |cs| <= 4 && |b.du| == 64
      && var c := cs[b.comp];
        && BlockCodable(c.htd, c.hta, b.du, preds[b.comp])
        && var q := p + |BlockBits(c.htd, c.hta, b.du, preds[b.comp])|;
          && GoesOn(bs, p, BlockBits(c.htd, c.hta, b.du, preds[b.comp]))
          && ScanCodable(cs, blocks[1..], preds[b.comp := b.du[0]])
          && GoesOn(bs, q, ScanBits(cs, blocks[1..], preds[b.comp := b.du[0]]))
  {
    hide BlockBits, BlockCodable, GoesOn;
    var b := blocks[0];
    var c := cs[b.comp];
    BlockSize(c.htd, c.hta, b.du, preds[b.comp]);
    GoesOnSplit(bs, p, BlockBits(c.htd, c.hta, b.du, preds[b.comp]), ScanBits(cs, blocks[1..], preds[b.comp := b.du[0]]));
  }

  /** Reads as many blocks, of the components that comps names. */
  method ReadScan(cs: seq<Coding>, ds: seq<Decoder>, data: seq<byte>, pos: nat, comps: seq<nat>, ghost blocks: seq<Block>)
    returns (ok: bool, result: seq<seq<int>>)
    requires |ds| == |cs| <= 4 && (forall c :: 0 <= c < |cs| ==> Sound(cs[c])) && (forall c :: 0 <= c < |cs| ==> Ready(cs[c], ds[c]))
    requires pos <= |data| && |comps| == |blocks| && forall i :: 0 <= i < |comps| ==> comps[i] == blocks[i].comp
    requires ScanCodable(cs, blocks, [0, 0, 0, 0]) && GoesOn(Entropy(data, pos), 0, ScanBits(cs, blocks, [0, 0, 0, 0]))
    ensures ok && |result| == |blocks| && forall i :: 0 <= i < |blocks| ==> Restored(cs, blocks[i], result[i])
  {
    hide Entropy, BlockBits, BlockCodable, GoesOn, Sound, Huffman.Built, FastTable, Filled, Pow2, JpegStream.Loaded,
      JpegStream.Supplied, ScanCodable, ScanBits, Restored;
    ghost var bs := Entropy(data, pos);
    var j := new Jpeg(data, pos);
    ok, result := true, [];
    ghost var p: nat := 0;
    var i := 0;
    while i < |comps|
      invariant 0 <= i <= |comps| && ok && fresh(j) && j.Live() && |j.dc_pred| == 4 && |result| == i
      invariant forall c :: 0 <= c < |cs| ==> Ready(cs[c], ds[c])
      invariant ScanCodable(cs, blocks[i..], j.dc_pred) && j.At(bs, p) && GoesOn(bs, p, ScanBits(cs, blocks[i..], j.dc_pred))
      invariant forall m :: 0 <= m < i ==> Restored(cs, blocks[m], result[m])
    {
      ghost var b := blocks[i];
      assert blocks[i..][0] == b && blocks[i..][1..] == blocks[i + 1..];
      ScanSplit(cs, blocks[i..], j.dc_pred, bs, p);
      var c := cs[comps[i]];
      var d := ds[comps[i]];
      ghost var pred := j.dc_pred[b.comp];
      var block;
      ok, block := ReadBlock(j, c, d, comps[i], b.du, bs, p);
      p := p + |BlockBits(c.htd, c.hta, b.du, pred)|;
      RestoredIs(cs, b, block);
      result := result + [block];
      i := i + 1;
    }
  }

  /** What is written is read back: every coefficient of every block, dequantised. */
  method WriteThenRead(cs: seq<Coding>, blocks: seq<Block>, start: seq<byte>) returns (ok: bool, result: seq<seq<int>>)
    requires |cs| <= 4 && (forall c :: 0 <= c < |cs| ==> Sound(cs[c])) && ScanCodable(cs, blocks, [0, 0, 0, 0])
    ensures ok && |result| == |blocks| && forall i :: 0 <= i < |blocks| ==> Restored(cs, blocks[i], result[i])
  {
    hide Entropy, BlockBits, BlockCodable, GoesOn, Sound, Stuffed, Filled, ScanCodable, ScanBits, Restored, Ready;
    var out, bytes := WriteScan(cs, blocks, start);
    Unstuffed(start, bytes, [0xFF, 0xD9], 0);
    NothingStuffed(bytes);
    var ds := BuildDecoders(cs);
    ok, result := ReadScan(cs, ds, out, |start|, seq(|blocks|, i requires 0 <= i < |blocks| => blocks[i].comp), blocks);
  }

  lemma NothingStuffed(bytes: seq<byte>)
    ensures Stuffed(bytes[..0]) == [] && bytes[0..] == bytes
  {
  }
}
