/** Writing a PNG image and reading it back. */
module PngRoundTrip {
  import opened Bits
  import opened PngSpec
  import opened PngWriter
  import opened PngReader
  import RoundTrip

  /** The image's rows as the reader gives them, every pixel followed by an opaque alpha byte if asked for. */
  ghost predicate SameImage(m: Image, out: seq<byte>, f: Format)
    requires ImageOk(m) && FormatOk(f) && f.n == m.n && Times(f.x, f.n) == m.w
  {
    forall j :: 0 <= j < m.height ==> RowSame(m, out, f, j)
  }

  ghost predicate RowSame(m: Image, out: seq<byte>, f: Format, j: nat)
    requires ImageOk(m) && FormatOk(f) && j < m.height
  {
    && Times(j, RowSize(f)) + RowSize(f) <= |out| && DecodedRow(out, f, j) == Row(m, j)
    && (f.outN == f.n + 1 ==> Opaque(out, Times(j, RowSize(f)), f.x, f.n, f.outN))
  }

  lemma {:induction false} RowComesBack(m: Image, raw: seq<byte>, out: seq<byte>, f: Format, j: nat)
    requires ImageOk(m) && FormatOk(f) && f.n == m.n && Times(f.x, f.n) == m.w && j < m.height
    requires forall k :: 0 <= k < m.height ==> RowDone(m, raw, k)
    requires forall k :: 0 <= k < m.height ==> RowRead(out, f, raw, k)
    ensures RowSame(m, out, f, j)
  {
    hide Row, RowAbove, DecodedRow, Filters, Opaque, Times;
    assert RowDone(m, raw, j) && RowRead(out, f, raw, j);
    if j > 0 { RowComesBack(m, raw, out, f, j - 1); }
    SameAbove(m, out, f, j);
    var at := Times(j, Line(f));
    FiltersUnique(raw[at], m.n, RowAbove(m.pixels, m.stride, m.height, m.flip, m.w, j), Row(m, j), DecodedRow(out, f, j),
                  raw[at + 1..at + 1 + m.w]);
  }

  lemma SameAbove(m: Image, out: seq<byte>, f: Format, j: nat)
    requires ImageOk(m) && FormatOk(f) && Times(f.x, f.n) == m.w && j < m.height
    requires Times(j, RowSize(f)) + RowSize(f) <= |out| && (j > 0 ==> RowSame(m, out, f, j - 1))
    ensures DecodedAbove(out, f, j) == RowAbove(m.pixels, m.stride, m.height, m.flip, m.w, j)
  {
  }

  lemma WriterIsOk(m: Image, raw: seq<byte>, f: Format)
    requires ImageOk(m) && FormatOk(f) && Times(f.x, f.n) == m.w && |raw| == Times(m.height, m.w + 1)
    requires forall k :: 0 <= k < m.height ==> RowDone(m, raw, k)
    ensures RawOk(raw, f, m.height)
  {
    hide Row, RowAbove, Times;
    forall j | 0 <= j < m.height ensures Times(j, Line(f)) < |raw| && raw[Times(j, Line(f))] <= 4 {
      assert RowDone(m, raw, j);
    }
  }

  /** Filters, compresses, inflates and reconstructs an image: the pixels come back, whatever the stride,
      the filter of every row, the compression level and the direction, and opaque if the reader adds
      the alpha channel. */
  method WriteThenRead(pixels: seq<byte>, strideBytes: nat, x: nat, y: nat, n: nat, forceFilter: int, flip: bool, quality: int,
                       alpha: bool)
      returns (ok: bool, out: array<byte>)
    requires 1 <= x && 1 <= n && 1 <= y && InMemory(pixels, if strideBytes == 0 then x * n else strideBytes, y, x * n)
    ensures x * n >= n && Times(x, n) == x * n && ok
    ensures SameImage(Image(pixels, if strideBytes == 0 then x * n else strideBytes, x * n, y, n, flip), out[..],
                      Format(x, n, if alpha then n + 1 else n))
  {
    hide RowDone, RowRead, InMemory, RowSame, Times;
    var filt := FilterImage(pixels, strideBytes, x, y, n, forceFilter, flip);
    ghost var m := Image(pixels, if strideBytes == 0 then x * n else strideBytes, x * n, y, n, flip);
    TimesIsMul(x, n);
    NotEmpty(y, x * n + 1);
    var inflated := RoundTrip.CompressThenInflate(filt[..], quality);
    var f := Format(x, n, if alpha then n + 1 else n);
    var raw := inflated.value;
    WriterIsOk(m, raw, f);
    ok, out := CreateImageRaw(raw, f, y);
    forall j | 0 <= j < y ensures RowSame(m, out[..], f, j) { RowComesBack(m, raw, out[..], f, j); }
  }

  lemma NotEmpty(y: nat, n: nat)
    requires y >= 1 && n >= 1
    ensures Times(y, n) > 0
  {
    TimesMono(1, y, n);
  }
}
