/** The PNG reader's reconstruction of an image of eight bits per sample, with an alpha channel added
    on the way if one is asked for. */
module PngReader {
  import opened Bits
  import opened PngSpec

  // ----- where a row's bytes are when every n are followed by outN - n others

  function Col(i: nat, n: nat, outN: nat): nat
    requires n >= 1
  {
    if i < n then i else outN + Col(i - n, n, outN)
  }

  lemma {:induction false} ColMono(i: nat, j: nat, n: nat, outN: nat)
    requires 1 <= n <= outN && i < j
    ensures Col(i, n, outN) < Col(j, n, outN)
  {
    if i >= n { ColMono(i - n, j - n, n, outN); }
  }

  lemma {:induction false} ColBound(i: nat, x: nat, n: nat, outN: nat)
    requires 1 <= n <= outN && i < Times(x, n)
    ensures Col(i, n, outN) < Times(x, outN)
  {
    if i >= n { ColBound(i - n, x - 1, n, outN); } else { TimesMono(1, x, outN); }
  }

  lemma {:induction false} ColPixel(p: nat, k: nat, n: nat, outN: nat)
    requires 1 <= n && k < n
    ensures Col(Times(p, n) + k, n, outN) == Times(p, outN) + k
  {
    if p > 0 { ColPixel(p - 1, k, n, outN); }
  }

  lemma {:induction false} ColSame(i: nat, n: nat)
    requires n >= 1
    ensures Col(i, n, n) == i
  {
    if i >= n { ColSame(i - n, n); }
  }

  /** got is what the row at base holds so far. */
  ghost predicate Holds(out: seq<byte>, base: nat, got: seq<byte>, n: nat, outN: nat)
    requires n >= 1
  {
    forall i :: 0 <= i < |got| ==> base + Col(i, n, outN) < |out| && out[base + Col(i, n, outN)] == got[i]
  }

  ghost function OutRow(out: seq<byte>, base: nat, x: nat, n: nat, outN: nat): (row: seq<byte>)
    requires 1 <= n <= outN && base + Times(x, outN) <= |out|
    ensures |row| == Times(x, n) && Holds(out, base, row, n, outN)
  {
    ColsBound(x, n, outN);
    seq(Times(x, n), i requires 0 <= i < Times(x, n) => out[base + Col(i, n, outN)])
  }

  lemma ColsBound(x: nat, n: nat, outN: nat)
    requires 1 <= n <= outN
    ensures forall i {:trigger Col(i, n, outN)} :: 0 <= i < Times(x, n) ==> Col(i, n, outN) < Times(x, outN)
  {
    forall i | 0 <= i < Times(x, n) ensures Col(i, n, outN) < Times(x, outN) { ColBound(i, x, n, outN); }
  }

  lemma HoldsRow(out: seq<byte>, base: nat, got: seq<byte>, x: nat, n: nat, outN: nat)
    requires 1 <= n <= outN && base + Times(x, outN) <= |out| && |got| == Times(x, n) && Holds(out, base, got, n, outN)
    ensures OutRow(out, base, x, n, outN) == got
  {
    hide Col;
  }

  lemma HoldsMore(out: seq<byte>, base: nat, got: seq<byte>, n: nat, outN: nat, v: byte)
    requires 1 <= n <= outN && Holds(out, base, got, n, outN) && base + Col(|got|, n, outN) < |out|
    ensures Holds(out[base + Col(|got|, n, outN) := v], base, got + [v], n, outN)
  {
    hide Col;
    forall i | 0 <= i < |got| ensures Col(i, n, outN) < Col(|got|, n, outN) { ColMono(i, |got|, n, outN); }
  }

  // ----- one byte

  /** got is the beginning of the row that enc stands for. */
  ghost predicate Recon(filter: nat, n: nat, prior: seq<byte>, got: seq<byte>, enc: seq<byte>) {
    && filter <= 4 && n >= 1 && |prior| == |enc| && |got| <= |enc|
    && forall i :: 0 <= i < |got| ==> got[i] == Add8(enc[i], Predict(filter, Left(got, i, n), prior[i], Left(prior, i, n)))
  }

  lemma ReconIsFilters(filter: nat, n: nat, prior: seq<byte>, got: seq<byte>, enc: seq<byte>)
    requires Recon(filter, n, prior, got, enc) && |got| == |enc|
    ensures Filters(filter, n, prior, got, enc)
  {
    hide Add8, Sub8, Predict;
    forall i | 0 <= i < |got| ensures enc[i] == Sub8(got[i], PredictAt(filter, n, prior, got, i)) {
      SubAdd(got[i], PredictAt(filter, n, prior, got, i), enc[i]);
    }
  }

  lemma ReconMore(filter: nat, n: nat, prior: seq<byte>, got: seq<byte>, enc: seq<byte>, v: byte)
    requires Recon(filter, n, prior, got, enc) && |got| < |enc|
    requires var i := |got|; v == Add8(enc[i], Predict(filter, if i < n then 0 else got[i - n], prior[i], Left(prior, i, n)))
    ensures Recon(filter, n, prior, got + [v], enc)
  {
    hide Add8, Predict;
    forall i | 0 <= i < |got| ensures Left(got + [v], i, n) == Left(got, i, n) {}
  }

  function FirstPixel(type_: nat, raw: byte, b: byte): byte {
    match type_
    case 2 => Add8(raw, b)
    case 3 => Add8(raw, b / 2)
    case 4 => Add8(raw, Paeth(0, b, 0))
    case _ => raw
  }

  function OtherPixel(type_: nat, raw: byte, a: byte, b: byte, c: byte): byte {
    match type_
    case 0 => raw
    case 1 => Add8(raw, a)
    case 2 => Add8(raw, b)
    case 3 => Add8(raw, (a + b) / 2)
    case 4 => Add8(raw, Paeth(a, b, c))
    case 5 => Add8(raw, a / 2)
    case _ => Add8(raw, Paeth(a, 0, 0))
  }

  lemma FirstIs(type_: nat, filter: nat, raw: byte, b: byte, first: bool)
    requires filter <= 4 && (first ==> b == 0) && type_ == if first then FirstRowFilter(filter) else filter
    ensures FirstPixel(type_, raw, b) == Add8(raw, Predict(filter, 0, b, 0))
  {
  }

  lemma OtherIs(type_: nat, filter: nat, raw: byte, a: byte, b: byte, c: byte, first: bool)
    requires filter <= 4 && (first ==> b == 0 && c == 0) && type_ == if first then FirstRowFilter(filter) else filter
    ensures OtherPixel(type_, raw, a, b, c) == Add8(raw, Predict(filter, a, b, c))
  {
  }

  // ----- one row

  /** A row, the bytes of which are got so far, below the row that prior stands for. */
  datatype RowView = RowView(base: nat, above: nat, first: bool, filter: nat, x: nat, n: nat, outN: nat, prior: seq<byte>, enc: seq<byte>)

  ghost predicate ViewOk(v: RowView, out: seq<byte>) {
    && 1 <= v.n <= v.outN && v.filter <= 4 && |v.enc| == |v.prior| == Times(v.x, v.n) && v.base + Times(v.x, v.outN) <= |out|
    && if v.first then v.prior == Zeros(|v.enc|)
       else v.above + Times(v.x, v.outN) <= v.base && Holds(out, v.above, v.prior, v.n, v.outN)
  }

  ghost predicate RowSoFar(v: RowView, out: seq<byte>, got: seq<byte>) {
    && ViewOk(v, out) && |got| <= |v.enc| && Holds(out, v.base, got, v.n, v.outN)
    && Recon(v.filter, v.n, v.prior, got, v.enc)
  }

  lemma ViewKept(v: RowView, out: seq<byte>, after: seq<byte>)
    requires ViewOk(v, out) && |after| == |out| && forall k :: 0 <= k < v.base ==> after[k] == out[k]
    ensures ViewOk(v, after)
  {
    hide Col;
    ColsBound(v.x, v.n, v.outN);
  }

  /** The bytes that the next one is predicted from. */
  lemma Neighbours(v: RowView, out: seq<byte>, got: seq<byte>)
    requires RowSoFar(v, out, got) && |got| < |v.enc|
    ensures var i := |got|; var c := Col(i, v.n, v.outN);
      && v.base + c < |out|
      && (i >= v.n ==> c >= v.outN && out[v.base + c - v.outN] == got[i - v.n])
      && (!v.first ==> v.above + c < v.base && out[v.above + c] == v.prior[i])
      && (!v.first && i >= v.n ==> out[v.above + c - v.outN] == v.prior[i - v.n])
  {
    hide Col, Recon, Times;
    var i := |got|;
    ViewSizes(v, out, got);
    ColBound(i, v.x, v.n, v.outN);
    if i >= v.n { ColStep(i, v.n, v.outN); }
  }

  lemma ColStep(i: nat, n: nat, outN: nat)
    requires 1 <= n <= i
    ensures Col(i, n, outN) == outN + Col(i - n, n, outN)
  {
  }

  lemma PutMore(v: RowView, out: seq<byte>, got: seq<byte>, type_: nat, b: byte)
    requires RowSoFar(v, out, got) && |got| < |v.enc| && type_ == if v.first then FirstRowFilter(v.filter) else v.filter
    requires var i := |got|;
      b == if i < v.n then FirstPixel(type_, v.enc[i], v.prior[i])
           else OtherPixel(type_, v.enc[i], got[i - v.n], v.prior[i], v.prior[i - v.n])
    ensures v.base + Col(|got|, v.n, v.outN) < |out|
    ensures RowSoFar(v, out[v.base + Col(|got|, v.n, v.outN) := b], got + [b])
  {
    hide Col, Predict, Add8, FirstPixel, OtherPixel, Holds, Recon;
    var i := |got|;
    ColBound(i, v.x, v.n, v.outN);
    ViewParts(v, out, got);
    HoldsMore(out, v.base, got, v.n, v.outN, b);
    ViewKept(v, out, out[v.base + Col(i, v.n, v.outN) := b]);
    if i < v.n {
      FirstIs(type_, v.filter, v.enc[i], v.prior[i], v.first);
    } else {
      OtherIs(type_, v.filter, v.enc[i], got[i - v.n], v.prior[i], v.prior[i - v.n], v.first);
    }
    ReconMore(v.filter, v.n, v.prior, got, v.enc, b);
  }

  lemma ViewParts(v: RowView, out: seq<byte>, got: seq<byte>)
    requires RowSoFar(v, out, got)
    ensures Recon(v.filter, v.n, v.prior, got, v.enc) && |got| <= |v.enc| && v.first ==> v.prior == Zeros(|v.enc|)
  {
  }

  /** Writes the next byte of a row, at pos; the row above has it at up. */
  method Put(out: array<byte>, pos: nat, up: nat, firstPixel: bool, type_: nat, r: byte, outN: nat, first: bool,
             ghost v: RowView, ghost got: seq<byte>)
      returns (ghost more: seq<byte>)
    requires RowSoFar(v, out[..], got) && |got| < |v.enc| && type_ == if v.first then FirstRowFilter(v.filter) else v.filter
    requires pos == v.base + Col(|got|, v.n, v.outN) && (!first ==> up == v.above + Col(|got|, v.n, v.outN))
    requires r == v.enc[|got|] && outN == v.outN && first == v.first && firstPixel == (|got| < v.n)
    modifies out
    ensures RowSoFar(v, out[..], more) && |more| == |got| + 1 && pos < out.Length
    ensures forall k :: 0 <= k < out.Length && k != pos ==> out[k] == old(out[k])
  {
    hide Col, Predict, Add8, FirstPixel, OtherPixel, RowSoFar;
    Neighbours(v, out[..], got);
    ViewSizes(v, out[..], got);
    ghost var before := out[..];
    var b;
    if firstPixel {
      b := FirstPixel(type_, r, if first then 0 else out[up]);
    } else {
      b := OtherPixel(type_, r, out[pos - outN], if first then 0 else out[up], if first then 0 else out[up - outN]);
    }
    PutMore(v, before, got, type_, b);
    out[pos] := b;
    more := got + [b];
    assert out[..] == before[pos := b];
  }

  lemma ViewSizes(v: RowView, out: seq<byte>, got: seq<byte>)
    requires RowSoFar(v, out, got)
    ensures |v.prior| == |v.enc| && v.n >= 1 && |got| <= |v.enc| && (v.first ==> forall i :: 0 <= i < |v.prior| ==> v.prior[i] == 0)
  {
  }

  /** The alpha bytes of the first p pixels are opaque. */
  ghost predicate Opaque(out: seq<byte>, base: nat, p: nat, n: nat, outN: nat) {
    forall q {:trigger Times(q, outN)} :: 0 <= q < p ==> base + Times(q, outN) + n < |out| && out[base + Times(q, outN) + n] == 255
  }

  lemma OpaqueKept(out: seq<byte>, after: seq<byte>, base: nat, p: nat, n: nat, outN: nat)
    requires n < outN && Opaque(out, base, p, n, outN)
    requires |after| == |out| && forall k :: 0 <= k < |out| && k < base + Times(p, outN) ==> after[k] == out[k]
    ensures Opaque(after, base, p, n, outN)
  {
    forall q | 0 <= q < p ensures Times(q, outN) + n < Times(p, outN) { TimesMono(q + 1, p, outN); }
  }

  lemma {:induction false} ColNotAlpha(i: nat, p: nat, n: nat, outN: nat)
    requires 1 <= n && outN == n + 1
    ensures Col(i, n, outN) != Times(p, outN) + n
  {
    if i >= n {
      if p > 0 { ColNotAlpha(i - n, p - 1, n, outN); }
    }
  }

  /** The alpha byte of a pixel just completed. */
  method PutAlpha(out: array<byte>, pos: nat, ghost v: RowView, ghost got: seq<byte>, ghost p: nat)
    requires RowSoFar(v, out[..], got) && v.outN == v.n + 1 && p < v.x && Opaque(out[..], v.base, p, v.n, v.outN)
    requires pos == v.base + Times(p, v.outN) + v.n
    modifies out
    ensures pos < out.Length && RowSoFar(v, out[..], got) && Opaque(out[..], v.base, p + 1, v.n, v.outN)
    ensures forall k :: 0 <= k < out.Length && k != pos ==> out[k] == old(out[k])
  {
    hide Col, Recon, Times, ViewOk, Holds, Opaque;
    ghost var before := out[..];
    PixelInside(p, v.x, v.outN);
    ViewSpace(v, before);
    out[pos] := 255;
    OpaqueKept(before, out[..], v.base, p, v.n, v.outN);
    OpaqueMore(out[..], v.base, p, v.n, v.outN);
    ViewKept(v, before, out[..]);
    HoldsBesides(before, out[..], v.base, got, p, v.n, v.outN);
  }

  lemma PixelInside(p: nat, x: nat, n: nat)
    requires p < x
    ensures Times(p, n) + n <= Times(x, n)
  {
    TimesMono(p + 1, x, n);
  }

  lemma ViewSpace(v: RowView, out: seq<byte>)
    requires ViewOk(v, out)
    ensures v.base + Times(v.x, v.outN) <= |out| && 1 <= v.n <= v.outN
  {
  }

  lemma OpaqueMore(out: seq<byte>, base: nat, p: nat, n: nat, outN: nat)
    requires Opaque(out, base, p, n, outN) && base + Times(p, outN) + n < |out| && out[base + Times(p, outN) + n] == 255
    ensures Opaque(out, base, p + 1, n, outN)
  {
    hide Times;
  }

  lemma HoldsBesides(out: seq<byte>, after: seq<byte>, base: nat, got: seq<byte>, p: nat, n: nat, outN: nat)
    requires 1 <= n && outN == n + 1 && Holds(out, base, got, n, outN) && |after| == |out|
    requires forall k :: 0 <= k < |out| && k != base + Times(p, outN) + n ==> after[k] == out[k]
    ensures Holds(after, base, got, n, outN)
  {
    hide Col, Times;
    forall i | 0 <= i < |got| ensures Col(i, n, outN) != Times(p, outN) + n { ColNotAlpha(i, p, n, outN); }
  }

  /** The pixels behind the first when the row is stored as it is read. */
  method DecodePlain(out: array<byte>, base: nat, above: nat, raw: seq<byte>, at: nat, type_: nat, n: nat, w: nat, first: bool,
                     ghost v: RowView, ghost got0: seq<byte>)
      returns (ghost got: seq<byte>)
    requires RowSoFar(v, out[..], got0) && |got0| == n <= w == |v.enc| && type_ == if v.first then FirstRowFilter(v.filter) else v.filter
    requires v.base == base && v.above == above && v.first == first && v.n == v.outN == n >= 1
    requires at + w <= |raw| && v.enc == raw[at..at + w]
    modifies out
    ensures RowSoFar(v, out[..], got) && |got| == w
    ensures forall k :: 0 <= k < out.Length && !(base <= k < base + w) ==> out[k] == old(out[k])
  {
    hide RowSoFar;
    got := got0;
    var i := n;
    while i < w
      invariant n <= i <= w && RowSoFar(v, out[..], got) && |got| == i
      invariant forall k :: 0 <= k < out.Length && !(base <= k < base + w) ==> out[k] == old(out[k])
    {
      ColSame(i, n);
      got := Put(out, base + i, above + i, false, type_, raw[at + i], n, first, v, got);
      i := i + 1;
    }
  }

  /** The pixels behind the first, with room for alpha bytes. */
  method DecodeWithAlpha(out: array<byte>, base: nat, above: nat, raw: seq<byte>, at: nat, type_: nat, n: nat, x: nat, first: bool,
                         ghost v: RowView, ghost got0: seq<byte>)
      returns (ghost got: seq<byte>)
    requires RowSoFar(v, out[..], got0) && |got0| == n && type_ == if v.first then FirstRowFilter(v.filter) else v.filter
    requires v.base == base && v.above == above && v.first == first && v.n == n && v.outN == n + 1 && v.x == x >= 1
    requires at + Times(x, n) <= |raw| && v.enc == raw[at..at + Times(x, n)] && Opaque(out[..], base, 1, n, n + 1)
    modifies out
    ensures RowSoFar(v, out[..], got) && |got| == Times(x, n) && Opaque(out[..], base, x, n, n + 1)
    ensures forall k :: 0 <= k < out.Length && !(base <= k < base + Times(x, n + 1)) ==> out[k] == old(out[k])
  {
    hide RowSoFar, Opaque, Col;
    got := got0;
    var outN := n + 1;
    var cur, prior, rawp := base + outN, above + outN, at + n;
    var p := 1;
    OnePixel(n);
    OnePixel(outN);
    while p < x
      invariant 1 <= p <= x && RowSoFar(v, out[..], got) && |got| == Times(p, n) && Opaque(out[..], base, p, n, outN)
      invariant cur == base + Times(p, outN) && prior == above + Times(p, outN) && rawp == at + Times(p, n)
      invariant forall k :: 0 <= k < out.Length && !(base <= k < base + Times(x, outN)) ==> out[k] == old(out[k])
    {
      PixelRoom(p, x, n);
      PixelRoom(p, x, outN);
      var k := 0;
      while k < n
        invariant 0 <= k <= n && RowSoFar(v, out[..], got) && |got| == Times(p, n) + k && Opaque(out[..], base, p, n, outN)
        invariant forall k :: 0 <= k < out.Length && !(base <= k < base + Times(x, outN)) ==> out[k] == old(out[k])
      {
        ghost var before := out[..];
        ColPixel(p, k, n, outN);
        got := Put(out, cur + k, prior + k, false, type_, raw[rawp + k], outN, first, v, got);
        OpaqueKept(before, out[..], base, p, n, outN);
        k := k + 1;
      }
      PutAlpha(out, cur + n, v, got, p);
      cur, prior, rawp := cur + outN, prior + outN, rawp + n;
      p := p + 1;
    }
  }

  lemma OnePixel(n: nat)
    ensures Times(0, n) == 0 && Times(1, n) == n
  {
  }

  lemma PixelRoom(p: nat, x: nat, n: nat)
    requires 1 <= p < x
    ensures Times(p + 1, n) == Times(p, n) + n <= Times(x, n) && Times(p, n) >= n
  {
    TimesMono(p + 1, x, n);
    TimesMono(1, p, n);
  }

  /** One row: what it holds afterwards is filtered to the bytes it was read from. */
  method DecodeRow(out: array<byte>, base: nat, above: nat, raw: seq<byte>, at: nat, filter: nat, n: nat, outN: nat, x: nat, first: bool,
                   ghost v: RowView)
    requires ViewOk(v, out[..]) && v == RowView(base, above, first, filter, x, n, outN, v.prior, v.enc)
    requires 1 <= x && 1 <= n && (outN == n || outN == n + 1) && filter <= 4
    requires at + Times(x, n) <= |raw| && v.enc == raw[at..at + Times(x, n)]
    modifies out
    ensures base + Times(x, outN) <= out.Length && |v.prior| == |v.enc|
    ensures Filters(filter, n, v.prior, OutRow(out[..], base, x, n, outN), v.enc)
    ensures outN == n + 1 ==> Opaque(out[..], base, x, n, outN)
    ensures forall k :: 0 <= k < out.Length && !(base <= k < base + Times(x, outN)) ==> out[k] == old(out[k])
  {
    hide Col, RowSoFar, ViewOk, Times, Opaque;
    var type_ := if first then FirstRowFilter(filter) else filter;
    ViewSpace(v, out[..]);
    OnePixel(n);
    OnePixel(outN);
    FirstRoom(x, n);
    FirstRoom(x, outN);
    ghost var got: seq<byte> := [];
    RowStart(v, out[..]);
    var k := 0;
    while k < n
      invariant 0 <= k <= n && RowSoFar(v, out[..], got) && |got| == k
      invariant forall k :: 0 <= k < out.Length && !(base <= k < base + Times(x, outN)) ==> out[k] == old(out[k])
    {
      ColFirst(k, n, outN);
      got := Put(out, base + k, above + k, true, type_, raw[at + k], outN, first, v, got);
      k := k + 1;
    }
    if outN == n {
      got := DecodePlain(out, base, above, raw, at, type_, n, Times(x, n), first, v, got);
    } else {
      NoneOpaque(out[..], base, n, outN);
      PutAlpha(out, base + n, v, got, 0);
      got := DecodeWithAlpha(out, base, above, raw, at, type_, n, x, first, v, got);
    }
    RowFinished(v, out[..], got);
  }

  lemma FirstRoom(x: nat, n: nat)
    requires x >= 1
    ensures n <= Times(x, n)
  {
    TimesMono(1, x, n);
  }

  lemma ColFirst(k: nat, n: nat, outN: nat)
    requires k < n
    ensures Col(k, n, outN) == k
  {
  }

  lemma RowStart(v: RowView, out: seq<byte>)
    requires ViewOk(v, out)
    ensures RowSoFar(v, out, []) && |v.enc| == Times(v.x, v.n)
  {
  }

  lemma NoneOpaque(out: seq<byte>, base: nat, n: nat, outN: nat)
    ensures Opaque(out, base, 0, n, outN)
  {
  }

  lemma RowFinished(v: RowView, out: seq<byte>, got: seq<byte>)
    requires RowSoFar(v, out, got) && |got| == |v.enc|
    ensures v.base + Times(v.x, v.outN) <= |out| && 1 <= v.n <= v.outN && |v.prior| == |v.enc|
    ensures Filters(v.filter, v.n, v.prior, OutRow(out, v.base, v.x, v.n, v.outN), v.enc)
  {
    hide Col, Recon, Filters;
    HoldsRow(out, v.base, got, v.x, v.n, v.outN);
    ViewSizes(v, out, got);
    ReconIsFilters(v.filter, v.n, v.prior, got, v.enc);
  }

  // ----- the image

  datatype Format = Format(x: nat, n: nat, outN: nat)

  ghost predicate FormatOk(f: Format) {
    1 <= f.x && 1 <= f.n && (f.outN == f.n || f.outN == f.n + 1)
  }

  function RowSize(f: Format): nat {
    Times(f.x, f.outN)
  }

  function Line(f: Format): nat {
    Times(f.x, f.n) + 1
  }

  ghost function DecodedRow(out: seq<byte>, f: Format, j: nat): (row: seq<byte>)
    requires FormatOk(f) && Times(j, RowSize(f)) + RowSize(f) <= |out|
    ensures |row| == Times(f.x, f.n)
  {
    OutRow(out, Times(j, RowSize(f)), f.x, f.n, f.outN)
  }

  ghost function DecodedAbove(out: seq<byte>, f: Format, j: nat): (row: seq<byte>)
    requires FormatOk(f) && Times(j, RowSize(f)) + RowSize(f) <= |out|
    ensures |row| == Times(f.x, f.n)
  {
    if j == 0 then Zeros(Times(f.x, f.n)) else DecodedRow(out, f, j - 1)
  }

  /** Row j is the row that its line of raw stands for, and opaque. */
  ghost predicate RowRead(out: seq<byte>, f: Format, raw: seq<byte>, j: nat)
    requires FormatOk(f)
  {
    && Times(j, RowSize(f)) + RowSize(f) <= |out|
    && FilteredRow(DecodedAbove(out, f, j), DecodedRow(out, f, j), f.n, raw, Times(j, Line(f)))
    && (f.outN == f.n + 1 ==> Opaque(out, Times(j, RowSize(f)), f.x, f.n, f.outN))
  }

  lemma DecodedKept(out: seq<byte>, after: seq<byte>, f: Format, j: nat, m: nat)
    requires FormatOk(f) && Times(j, RowSize(f)) + RowSize(f) <= m <= |out| == |after|
    requires forall k :: 0 <= k < m ==> after[k] == out[k]
    ensures DecodedRow(after, f, j) == DecodedRow(out, f, j)
    ensures f.outN == f.n + 1 && Opaque(out, Times(j, RowSize(f)), f.x, f.n, f.outN) ==>
      Opaque(after, Times(j, RowSize(f)), f.x, f.n, f.outN)
  {
    hide Col, Opaque;
    ColsBound(f.x, f.n, f.outN);
    if f.outN == f.n + 1 && Opaque(out, Times(j, RowSize(f)), f.x, f.n, f.outN) {
      OpaqueKept(out, after, Times(j, RowSize(f)), f.x, f.n, f.outN);
    }
  }

  lemma RowReadKept(out: seq<byte>, after: seq<byte>, f: Format, raw: seq<byte>, j: nat, k: nat)
    requires FormatOk(f) && k < j && RowRead(out, f, raw, k) && Times(j, RowSize(f)) <= |out| == |after|
    requires forall i :: 0 <= i < Times(j, RowSize(f)) ==> after[i] == out[i]
    ensures RowRead(after, f, raw, k)
  {
    hide OutRow, Opaque, Filters, DecodedRow;
    TimesMono(k + 1, j, RowSize(f));
    DecodedKept(out, after, f, k, Times(j, RowSize(f)));
    if k > 0 { DecodedKept(out, after, f, k - 1, Times(j, RowSize(f))); }
  }

  /** Reads row j below the rows already read. */
  method ReadRow(out: array<byte>, f: Format, raw: seq<byte>, j: nat, rawp: nat, stride: nat)
    requires FormatOk(f) && stride == RowSize(f) && rawp == Times(j, Line(f)) && rawp + Line(f) <= |raw| && raw[rawp] <= 4
    requires Times(j, stride) + stride <= out.Length
    modifies out
    ensures RowRead(out[..], f, raw, j)
    ensures forall k :: 0 <= k < out.Length && !(Times(j, stride) <= k < Times(j, stride) + stride) ==> out[k] == old(out[k])
  {
    hide OutRow, Opaque, Filters, Times, ViewOk;
    var base := Times(j, stride);
    ghost var before := out[..];
    if j > 0 { RowsApart(f, j); }
    var above := if j == 0 then 0 else base - stride;
    ghost var v := RowView(base, above, j == 0, raw[rawp], f.x, f.n, f.outN, DecodedAbove(out[..], f, j), raw[rawp + 1..rawp + Line(f)]);
    ViewOfRow(out[..], f, j, v);
    DecodeRow(out, base, above, raw, rawp + 1, raw[rawp], f.n, f.outN, f.x, j == 0, v);
    if j > 0 { DecodedKept(before, out[..], f, j - 1, base); }
  }

  lemma RowsApart(f: Format, j: nat)
    requires j > 0
    ensures Times(j - 1, RowSize(f)) + RowSize(f) == Times(j, RowSize(f))
  {
  }

  lemma ViewOfRow(out: seq<byte>, f: Format, j: nat, v: RowView)
    requires FormatOk(f) && Times(j, RowSize(f)) + RowSize(f) <= |out|
    requires v.base == Times(j, RowSize(f)) && v.above == (if j == 0 then 0 else v.base - RowSize(f)) && v.first == (j == 0)
    requires v.x == f.x && v.n == f.n && v.outN == f.outN && v.filter <= 4 && v.prior == DecodedAbove(out, f, j) && |v.enc| == Times(f.x, f.n)
    ensures ViewOk(v, out)
  {
    hide Col;
    if j > 0 { RowsApart(f, j); }
  }

  ghost predicate RawOk(raw: seq<byte>, f: Format, y: nat) {
    && Times(y, Line(f)) <= |raw|
    && forall j {:trigger Times(j, Line(f))} :: 0 <= j < y ==> Times(j, Line(f)) < |raw| && raw[Times(j, Line(f))] <= 4
  }

  /** Reconstructs the image, if there are enough bytes and every row has one of the five filters. */
  method CreateImageRaw(raw: seq<byte>, f: Format, y: nat) returns (ok: bool, out: array<byte>)
    requires FormatOk(f)
    ensures ok <==> RawOk(raw, f, y)
    ensures fresh(out) && out.Length == Times(y, RowSize(f))
    ensures ok ==> forall j :: 0 <= j < y ==> RowRead(out[..], f, raw, j)
  {
    hide RowRead, Times, RowSize, Line;
    var stride, line, size, rawSize := Sizes(f, y);
    out := new byte[size];
    if |raw| < rawSize { return false, out; }
    var rawp := 0;
    NoRows(stride, line);
    var j := 0;
    while j < y
      invariant 0 <= j <= y && rawp == Times(j, Line(f))
      invariant forall k {:trigger Times(k, Line(f))} :: 0 <= k < j ==> Times(k, Line(f)) < |raw| && raw[Times(k, Line(f))] <= 4
      invariant forall k :: 0 <= k < j ==> RowRead(out[..], f, raw, k)
    {
      PixelInside(j, y, line);
      LineSize(f);
      PixelInside(j, y, stride);
      var filter := raw[rawp];
      if filter > 4 { return false, out; }
      ghost var before := out[..];
      ReadRow(out, f, raw, j, rawp, stride);
      forall k | 0 <= k < j ensures RowRead(out[..], f, raw, k) { RowReadKept(before, out[..], f, raw, j, k); }
      NextRow(j, line);
      rawp := rawp + line;
      j := j + 1;
    }
    ok := true;
  }

  method Sizes(f: Format, y: nat) returns (stride: nat, line: nat, size: nat, rawSize: nat)
    ensures stride == RowSize(f) && line == Line(f) && size == Times(y, RowSize(f)) && rawSize == Times(y, Line(f))
  {
    TimesIsMul(f.x, f.outN);
    TimesIsMul(f.x, f.n);
    TimesIsMul(y, f.x * f.outN);
    TimesIsMul(y, f.x * f.n + 1);
    stride, line := f.x * f.outN, f.x * f.n + 1;
    size, rawSize := y * stride, line * y;
  }

  lemma LineSize(f: Format)
    ensures Line(f) >= 1
  {
  }

  lemma NoRows(m: nat, n: nat)
    ensures Times(0, m) == 0 && Times(0, n) == 0
  {
  }

  lemma NextRow(j: nat, n: nat)
    ensures Times(j + 1, n) == Times(j, n) + n
  {
  }
}
