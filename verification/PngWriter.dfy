/** The PNG writer's filtering of an image. */
module PngWriter {
  import opened Bits
  import opened PngSpec

  /** Row j of the image as it is written: from the bottom up if flipped. */
  ghost function ImageRow(pixels: seq<byte>, stride: nat, height: nat, flip: bool, w: nat, j: nat): (row: seq<byte>)
    requires InMemory(pixels, stride, height, w) && j < height
    ensures |row| == w
  {
    var r := if flip then height - 1 - j else j;
    RowInside(pixels, stride, height, w, r);
    pixels[Times(r, stride)..Times(r, stride) + w]
  }

  /** The row above, zeros above the first. */
  ghost function RowAbove(pixels: seq<byte>, stride: nat, height: nat, flip: bool, w: nat, j: nat): (row: seq<byte>)
    requires InMemory(pixels, stride, height, w) && j < height
    ensures |row| == w
  {
    if j == 0 then Zeros(w) else ImageRow(pixels, stride, height, flip, w, j - 1)
  }

  ghost predicate InMemory(pixels: seq<byte>, stride: nat, height: nat, w: nat) {
    height > 0 && Times(height - 1, stride) + w <= |pixels|
  }

  lemma RowInside(pixels: seq<byte>, stride: nat, height: nat, w: nat, r: nat)
    requires InMemory(pixels, stride, height, w) && r < height
    ensures Times(r, stride) + w <= |pixels|
  {
    TimesMono(r, height - 1, stride);
  }

  /** One row, filtered. The first has its own cases, so as not to need a row above it. */
  method EncodeLine(pixels: seq<byte>, stride: nat, w: nat, height: nat, y: nat, n: nat, filterType: nat, flip: bool,
                    line: array<byte>)
    requires InMemory(pixels, stride, height, w) && y < height && 1 <= n <= w && filterType <= 4 && line.Length == w
    modifies line
    ensures Filters(filterType, n, RowAbove(pixels, stride, height, flip, w, y), ImageRow(pixels, stride, height, flip, w, y), line[..])
  {
    hide Predict, Sub8, FirstPixel, OtherPixel;
    ghost var above, row := RowAbove(pixels, stride, height, flip, w, y), ImageRow(pixels, stride, height, flip, w, y);
    var type_ := if y != 0 then filterType else FirstRowFilter(filterType);
    var r := if flip then height - 1 - y else y;
    var z := Times(r, stride);
    var up: int := if flip then z + stride else z - stride;
    RowInside(pixels, stride, height, w, r);
    if y != 0 { UpIsAbove(pixels, stride, height, flip, w, y, z, up); }
    if type_ == 0 {
      forall i | 0 <= i < w { line[i] := pixels[z + i]; }
      NoPrediction(filterType, n, above, row, y == 0);
    } else {
      EncodeCases(pixels, w, z, up, y == 0, n, filterType, type_, line, above, row);
    }
  }

  lemma NoPrediction(filter: nat, n: nat, above: seq<byte>, row: seq<byte>, first: bool)
    requires filter <= 4 && n >= 1 && |above| == |row| && (first ==> above == Zeros(|row|))
    requires filter == 0 || (filter == 2 && first)
    ensures Filters(filter, n, above, row, row)
  {
  }

  method EncodeCases(pixels: seq<byte>, w: nat, z: nat, up: int, first: bool, n: nat, ghost filter: nat, type_: nat, line: array<byte>,
                     ghost above: seq<byte>, ghost row: seq<byte>)
    requires z + w <= |pixels| && 1 <= n <= w && filter <= 4 && line.Length == w && |above| == w
    requires row == pixels[z..z + w] && type_ != 0 && type_ == if first then FirstRowFilter(filter) else filter
    requires if first then above == Zeros(w) else 0 <= up && up + w <= |pixels| && above == pixels[up..up + w]
    modifies line
    ensures Filters(filter, n, above, row, line[..])
  {
    hide Predict, Sub8, FirstPixel, OtherPixel, FirstRowFilter;
    var i := 0;
    while i < n
      invariant 0 <= i <= n
      invariant forall k :: 0 <= k < i ==> line[k] == Sub8(row[k], PredictAt(filter, n, above, row, k))
    {
      FirstIs(type_, filter, pixels[z + i], above[i], first);
      line[i] := FirstPixel(type_, pixels[z + i], if first then 0 else pixels[up + i]);
      i := i + 1;
    }
    while i < w
      invariant n <= i <= w
      invariant forall k :: 0 <= k < i ==> line[k] == Sub8(row[k], PredictAt(filter, n, above, row, k))
    {
      OtherIs(type_, filter, pixels[z + i], pixels[z + i - n], above[i], above[i - n], first);
      line[i] := OtherPixel(type_, pixels[z + i], pixels[z + i - n], if first then 0 else pixels[up + i],
                            if first then 0 else pixels[up + i - n]);
      i := i + 1;
    }
  }

  lemma FirstIs(type_: nat, filter: nat, z: byte, b: byte, first: bool)
    requires filter <= 4 && (first ==> b == 0) && type_ != 0 && type_ == if first then FirstRowFilter(filter) else filter
    ensures FirstPixel(type_, z, b) == Sub8(z, Predict(filter, 0, b, 0))
  {
  }

  lemma OtherIs(type_: nat, filter: nat, z: byte, a: byte, b: byte, c: byte, first: bool)
    requires filter <= 4 && (first ==> b == 0 && c == 0) && type_ != 0 && type_ == if first then FirstRowFilter(filter) else filter
    ensures OtherPixel(type_, z, a, b, c) == Sub8(z, Predict(filter, a, b, c))
  {
  }

  /** The cases for the first pixel of a row. */
  function FirstPixel(type_: nat, z: byte, b: byte): byte {
    match type_
    case 2 => Sub8(z, b)
    case 3 => Sub8(z, b / 2)
    case 4 => Sub8(z, Paeth(0, b, 0))
    case _ => z
  }

  /** The cases for the others; 5 and 6 are those of the first row. */
  function OtherPixel(type_: nat, z: byte, a: byte, b: byte, c: byte): byte {
    match type_
    case 1 => Sub8(z, a)
    case 2 => Sub8(z, b)
    case 3 => Sub8(z, (a + b) / 2)
    case 4 => Sub8(z, Paeth(a, b, c))
    case 5 => Sub8(z, a / 2)
    case _ => Sub8(z, Paeth(a, 0, 0))
  }

  lemma UpIsAbove(pixels: seq<byte>, stride: nat, height: nat, flip: bool, w: nat, y: nat, z: nat, up: int)
    requires InMemory(pixels, stride, height, w) && 0 < y < height
    requires z == Times(if flip then height - 1 - y else y, stride)
    requires up == if flip then z + stride else z - stride
    ensures 0 <= up && up + w <= |pixels| && RowAbove(pixels, stride, height, flip, w, y) == pixels[up..up + w]
  {
    var r := if flip then height - y else y - 1;
    RowInside(pixels, stride, height, w, r);
  }

  // ----- the image

  /** The filtered image as it is handed to the compressor. */
  datatype Image = Image(pixels: seq<byte>, stride: nat, w: nat, height: nat, n: nat, flip: bool)

  ghost predicate ImageOk(m: Image) {
    1 <= m.n <= m.w && InMemory(m.pixels, m.stride, m.height, m.w)
  }

  ghost function Row(m: Image, j: nat): (row: seq<byte>)
    requires ImageOk(m) && j < m.height
    ensures |row| == m.w
  {
    ImageRow(m.pixels, m.stride, m.height, m.flip, m.w, j)
  }

  ghost predicate RowDone(m: Image, raw: seq<byte>, j: nat)
    requires ImageOk(m) && j < m.height
  {
    FilteredRow(RowAbove(m.pixels, m.stride, m.height, m.flip, m.w, j), Row(m, j), m.n, raw, Times(j, m.w + 1))
  }

  lemma RowKept(m: Image, before: seq<byte>, after: seq<byte>, j: nat, k: nat)
    requires ImageOk(m) && k < j < m.height && RowDone(m, before, k)
    requires |before| == |after| && Times(j, m.w + 1) <= |before| && before[..Times(j, m.w + 1)] == after[..Times(j, m.w + 1)]
    ensures RowDone(m, after, k)
  {
    hide ImageRow, RowAbove, Filters;
    TimesMono(k + 1, j, m.w + 1);
    var at, e := Times(k, m.w + 1), Times(j, m.w + 1);
    assert at + 1 + m.w <= e;
    assert before[at] == before[..e][at] == after[..e][at] == after[at];
    SliceOfPrefix(before, e, at + 1, at + 1 + m.w);
    SliceOfPrefix(after, e, at + 1, at + 1 + m.w);
  }

  lemma SliceOfPrefix<T>(s: seq<T>, e: nat, a: nat, b: nat)
    requires a <= b <= e <= |s|
    ensures s[..e][a..b] == s[a..b]
  {
  }

  function Signed(b: byte): int {
    if b < 0x80 then b else b - 0x100
  }

  /** The distance to zero modulo 256, whichever way is shorter. */
  lemma SignedIsNearest(b: byte)
    ensures Abs(Signed(b)) == if b as int <= 256 - b as int then b as int else 256 - b as int
  {
  }

  /** The sum of the magnitudes of a filtered row: the less, the better it should compress. */
  ghost function Magnitudes(s: seq<byte>): nat {
    if s == [] then 0 else Magnitudes(s[..|s| - 1]) + Abs(Signed(s[|s| - 1]))
  }

  method Estimate(line: array<byte>) returns (est: nat)
    ensures est == Magnitudes(line[..]) <= 0x80 * line.Length
  {
    est := 0;
    var i := 0;
    while i < line.Length
      invariant 0 <= i <= line.Length && est == Magnitudes(line[..i]) <= 0x80 * i
    {
      assert line[..i + 1][..i] == line[..i];
      est := est + Abs(Signed(line[i]));
      i := i + 1;
    }
    assert line[..i] == line[..];
  }

  /** No filter makes a line of smaller magnitudes out of the row. */
  ghost predicate NoneBetter(m: Image, j: nat, upTo: nat, val: nat)
    requires ImageOk(m) && j < m.height
  {
    forall f: nat, enc :: f < upTo && Filters(f, m.n, Above(m, j), Row(m, j), enc) ==> val <= Magnitudes(enc)
  }

  ghost function Above(m: Image, j: nat): seq<byte>
    requires ImageOk(m) && j < m.height
  {
    RowAbove(m.pixels, m.stride, m.height, m.flip, m.w, j)
  }

  /** A row filtered in one way gives one line. */
  lemma FilteredOnce(filter: nat, n: nat, prior: seq<byte>, row: seq<byte>, x: seq<byte>, y: seq<byte>)
    requires Filters(filter, n, prior, row, x) && Filters(filter, n, prior, row, y)
    ensures x == y
  {
    forall i | 0 <= i < |row| ensures x[i] == y[i] {
      assert x[i] == Sub8(row[i], PredictAt(filter, n, prior, row, i));
    }
  }

  lemma BetterStep(m: Image, j: nat, filter: nat, enc: seq<byte>, val: nat)
    requires ImageOk(m) && j < m.height && NoneBetter(m, j, filter, val) && Filters(filter, m.n, Above(m, j), Row(m, j), enc)
    ensures NoneBetter(m, j, filter + 1, if Magnitudes(enc) < val then Magnitudes(enc) else val)
  {
    hide Filters, Row, Above, Magnitudes;
    forall e | Filters(filter, m.n, Above(m, j), Row(m, j), e) ensures e == enc {
      FilteredOnce(filter, m.n, Above(m, j), Row(m, j), e, enc);
    }
  }

  /** The filter given, or else the one whose line has the smallest magnitudes. */
  method ChooseAndEncode(m: Image, j: nat, forceFilter: int, line: array<byte>) returns (filter: nat)
    requires ImageOk(m) && j < m.height && line.Length == m.w && forceFilter < 5
    modifies line
    ensures Filters(filter, m.n, Above(m, j), Row(m, j), line[..])
    ensures forceFilter >= 0 ==> filter == forceFilter
    ensures forceFilter < 0 && 0x80 * m.w < 0x7fff_ffff ==> NoneBetter(m, j, 5, Magnitudes(line[..]))
  {
    hide Filters, ImageRow, RowAbove, NoneBetter, Magnitudes;
    if forceFilter > -1 {
      filter := forceFilter;
      EncodeLine(m.pixels, m.stride, m.w, m.height, j, m.n, filter, m.flip, line);
    } else {
      var best, bestVal := 0, 0x7fff_ffff;
      ghost var bestLine: seq<byte> := [];
      filter := 0;
      NoneYet(m, j, bestVal);
      while filter < 5
        invariant 0 <= filter <= 5 && best <= 4 && NoneBetter(m, j, filter, bestVal) && (filter == 0 ==> bestVal == 0x7fff_ffff)
        invariant filter > 0 && 0x80 * m.w < 0x7fff_ffff ==>
          Filters(best, m.n, Above(m, j), Row(m, j), bestLine) && bestVal == Magnitudes(bestLine)
      {
        EncodeLine(m.pixels, m.stride, m.w, m.height, j, m.n, filter, m.flip, line);
        var est := Estimate(line);
        BetterStep(m, j, filter, line[..], bestVal);
        if est < bestVal {
          bestVal, best := est, filter;
          bestLine := line[..];
        }
        filter := filter + 1;
      }
      EncodeLine(m.pixels, m.stride, m.w, m.height, j, m.n, best, m.flip, line);
      filter := best;
      if 0x80 * m.w < 0x7fff_ffff { FilteredOnce(best, m.n, Above(m, j), Row(m, j), bestLine, line[..]); }
    }
  }

  lemma NoneYet(m: Image, j: nat, val: nat)
    requires ImageOk(m) && j < m.height
    ensures NoneBetter(m, j, 0, val)
  {
  }

  /** Filters every row of the image. */
  method FilterImage(pixels: seq<byte>, strideBytes: nat, x: nat, y: nat, n: nat, forceFilter: int, flip: bool) returns (filt: array<byte>)
    requires 1 <= x && 1 <= n && InMemory(pixels, if strideBytes == 0 then x * n else strideBytes, y, x * n)
    ensures fresh(filt) && x * n >= n && filt.Length == Times(y, x * n + 1)
    ensures var m := Image(pixels, if strideBytes == 0 then x * n else strideBytes, x * n, y, n, flip);
      ImageOk(m) && forall j :: 0 <= j < y ==> RowDone(m, filt[..], j)
  {
    hide Filters, ImageRow, RowAbove, Row, InMemory, RowDone, Times;
    var stride := if strideBytes == 0 then x * n else strideBytes;
    var force := if forceFilter >= 5 then -1 else forceFilter;
    WideEnough(x, n);
    var w := x * n;
    var m := Image(pixels, stride, w, y, n, flip);
    filt := new byte[Times(y, w + 1)];
    var line := new byte[w];
    var j := 0;
    while j < y
      invariant 0 <= j <= y
      invariant forall k :: 0 <= k < j ==> RowDone(m, filt[..], k)
    {
      ghost var before := filt[..];
      var filter := ChooseAndEncode(m, j, force, line);
      var at := Times(j, w + 1);
      RowRoom(j, y, w + 1);
      FilterNumber(filter, n, RowAbove(pixels, stride, y, flip, w, j), Row(m, j), line[..]);
      StoreRow(filt, at, filter, line);
      forall k | 0 <= k < j ensures RowDone(m, filt[..], k) { RowKept(m, before, filt[..], j, k); }
      RowStored(m, filt[..], j, filter, line[..]);
      j := j + 1;
    }
  }

  lemma RowRoom(j: nat, y: nat, n: nat)
    requires j < y
    ensures Times(j, n) + n <= Times(y, n)
  {
    TimesMono(j + 1, y, n);
  }

  method StoreRow(filt: array<byte>, at: nat, filter: byte, line: array<byte>)
    requires filt != line && at + 1 + line.Length <= filt.Length
    modifies filt
    ensures filt[at] == filter && filt[at + 1..at + 1 + line.Length] == line[..]
    ensures filt[..at] == old(filt[..at])
  {
    filt[at] := filter;
    forall i | at + 1 <= i < at + 1 + line.Length { filt[i] := line[i - at - 1]; }
  }

  lemma RowStored(m: Image, raw: seq<byte>, j: nat, filter: nat, line: seq<byte>)
    requires ImageOk(m) && j < m.height && Times(j, m.w + 1) + 1 + m.w <= |raw|
    requires Filters(filter, m.n, RowAbove(m.pixels, m.stride, m.height, m.flip, m.w, j), Row(m, j), line)
    requires raw[Times(j, m.w + 1)] == filter && raw[Times(j, m.w + 1) + 1..Times(j, m.w + 1) + 1 + m.w] == line
    ensures RowDone(m, raw, j)
  {
  }

  lemma FilterNumber(filter: nat, n: nat, prior: seq<byte>, row: seq<byte>, enc: seq<byte>)
    requires Filters(filter, n, prior, row, enc)
    ensures filter <= 4
  {
  }

  lemma WideEnough(x: nat, n: nat)
    requires x >= 1
    ensures x * n >= n
  {
    assert (x - 1) * n >= 0;
  }
}
