/** The round trip of a scan with the code tables that the writer always uses. */
module JpegScan {
  import opened Bits
  import opened JpegCode
  import opened JpegStandard
  import opened JpegRoundTrip
  import opened JpegBlock
  import opened JpegZigzag
  import Canonical
  import JpegTables

  /** Luminance, and two components of chrominance. */
  function Codings(luma: seq<nat>, chroma: seq<nat>): (cs: seq<Coding>)
    ensures |cs| == 3
  {
    var uv := CodingOf(ChromaDc, ChromaAc, chroma);
    [CodingOf(LumaDc, LumaAc, luma), uv, uv]
  }

  function CodingOf(dc: Standard, ac: Standard, dequant: seq<nat>): Coding {
    Coding(WriterTable(dc), WriterTable(ac), Counts(dc), Symbols(dc), Counts(ac), Symbols(ac), dequant)
  }

  /** The coefficients of eight-bit samples. */
  ghost predicate InRange(b: Block) {
    b.comp < 3 && |b.du| == 64 && forall i :: 0 <= i < 64 ==> if i == 0 then -1024 <= b.du[i] < 1024 else -1024 < b.du[i] < 1024
  }

  /** Codes for the categories that such coefficients have. */
  ghost predicate Wide(c: Coding) {
    && |c.htd| == |c.hta| == 256 && (forall v :: 0 <= v < 256 && Needed(true, v) ==> c.htd[v].length > 0)
    && (forall v :: 0 <= v < 256 && Needed(false, v) ==> c.hta[v].length > 0)
  }

  lemma SoundCoding(dc: Standard, ac: Standard, dequant: seq<nat>)
    requires OfDc(dc) && !OfDc(ac) && |dequant| == 64
    ensures JpegRoundTrip.Sound(CodingOf(dc, ac, dequant)) && Wide(CodingOf(dc, ac, dequant))
  {
    hide WriterTable, Symbols, Counts, JpegTables.Right, Table, Canonical.Fits, Agrees;
    JpegStandard.Sound(dc);
    JpegStandard.Sound(ac);
  }

  lemma SoundCodings(luma: seq<nat>, chroma: seq<nat>)
    requires |luma| == |chroma| == 64
    ensures var cs := Codings(luma, chroma);
      forall i :: 0 <= i < 3 ==> JpegRoundTrip.Sound(cs[i]) && Wide(cs[i])
  {
    hide CodingOf, JpegRoundTrip.Sound, Wide;
    SoundCoding(LumaDc, LumaAc, luma);
    SoundCoding(ChromaDc, ChromaAc, chroma);
  }

  lemma BlockInRange(c: Coding, b: Block, pred: int)
    requires Wide(c) && InRange(b) && -1024 <= pred < 1024
    ensures BlockCodable(c.htd, c.hta, b.du, pred)
  {
    hide Category;
    Powers();
    CategoryBound(Abs(b.du[0] - pred), 11);
    assert Needed(false, 0) && Needed(false, 0xF0) && Needed(true, Category(Abs(b.du[0] - pred)));
    forall i: nat, run: nat | 1 <= i < 64 && b.du[i] != 0 && run < 16 ensures HasCode(c.hta, run, b.du[i]) {
      CategoryBound(Abs(b.du[i]), 10);
      assert Needed(false, RunCategory(run, b.du[i]));
    }
  }

  lemma Powers()
    ensures Pow2(10) == 1024 && Pow2(11) == 2048
  {
    Pow2Values();
  }

  lemma {:induction false} ScanInRange(cs: seq<Coding>, blocks: seq<Block>, preds: seq<int>)
    requires |cs| == 3 && |preds| == 4 && (forall i :: 0 <= i < 3 ==> Wide(cs[i])) && (forall i :: 0 <= i < |blocks| ==> InRange(blocks[i]))
    requires forall i :: 0 <= i < 4 ==> -1024 <= preds[i] < 1024
    ensures ScanCodable(cs, blocks, preds)
  {
    hide Wide, BlockCodable;
    if blocks != [] {
      var b := blocks[0];
      BlockInRange(cs[b.comp], b, preds[b.comp]);
      ScanInRange(cs, blocks[1..], preds[b.comp := b.du[0]]);
    }
  }

  /** Any blocks of coefficients in range, of the three components in any order: writing them with the
      writer's own tables and reading them with tables built from the header gives every coefficient
      back. */
  method ScanRoundTrip(luma: seq<nat>, chroma: seq<nat>, blocks: seq<Block>, start: seq<byte>) returns (ok: bool, result: seq<seq<int>>)
    requires |luma| == |chroma| == 64 && forall i :: 0 <= i < |blocks| ==> InRange(blocks[i])
    ensures ok && |result| == |blocks|
    ensures forall i :: 0 <= i < |blocks| ==> Restored(Codings(luma, chroma), blocks[i], result[i])
  {
    hide JpegRoundTrip.Sound, Wide, InRange, Restored, Codings;
    var cs := Codings(luma, chroma);
    SoundCodings(luma, chroma);
    ScanInRange(cs, blocks, [0, 0, 0, 0]);
    ok, result := WriteThenRead(cs, blocks, start);
  }

  /** In row order: with the writer's zigzag table on one side and the reader's on the other, every
      coefficient is back at its own place, times its own quantisation step. */
  lemma RestoredInRows(cs: seq<Coding>, b: Block, rows: seq<int>, d: seq<int>)
    requires |rows| == 64 && |ZIGZAG| == 64 && Restored(cs, b, d)
    requires forall j :: 0 <= j < 64 ==> ZIGZAG[j] < 64 && b.du[ZIGZAG[j]] == rows[j]
    ensures |d| == 64 && forall j :: 0 <= j < 64 ==> d[j] == Short(rows[j] * cs[b.comp].dequant[j])
  {
    hide ZIGZAG, DEZIGZAG, Short;
    TablesInverse();
    assert forall j :: 0 <= j < 64 ==> d[j] == PlaceValue(b.du, cs[b.comp].dequant, 64, j);
  }
}
