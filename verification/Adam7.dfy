/** Putting the seven reduced images of an interlaced PNG together, section 8.2 of the PNG specification. */
module Adam7 {
  import opened Bits

  function XOrig(p: nat): nat
    requires p < 7
  {
    [0, 4, 0, 2, 0, 1, 0][p]
  }

  function YOrig(p: nat): nat
    requires p < 7
  {
    [0, 0, 4, 0, 2, 0, 1][p]
  }

  function XSpc(p: nat): (n: nat)
    requires p < 7
    ensures n > 0
  {
    [8, 8, 4, 4, 2, 2, 1][p]
  }

  function YSpc(p: nat): (n: nat)
    requires p < 7
    ensures n > 0
  {
    [8, 8, 8, 4, 4, 2, 2][p]
  }

  /** How many of the numbers below n are orig, orig + spc, and so on. */
  function Reduced(n: nat, orig: nat, spc: nat): nat
    requires spc > orig
  {
    (n + (spc - orig) - 1) / spc
  }

  /** The pass that holds the pixel at column x and row y. */
  function PassOf(x: nat, y: nat): (p: nat)
    ensures p < 7
  {
    var c, r := x % 8, y % 8;
    if r % 2 == 1 then 6
    else if c % 2 == 1 then 5
    else if r % 4 == 2 then 4
    else if c % 4 == 2 then 3
    else if r == 4 then 2
    else if c == 4 then 1
    else 0
  }

  ghost predicate InPass(p: nat, x: nat, y: nat)
    requires p < 7
  {
    x % XSpc(p) == XOrig(p) && y % YSpc(p) == YOrig(p)
  }

  lemma Residues(x: nat)
    ensures x % 4 == (x % 8) % 4 && x % 2 == (x % 8) % 2
  {
    var q, m := x / 8, x % 8;
    DivModUnique(x, 4, 2 * q + m / 4, m % 4);
    DivModUnique(x, 2, 4 * q + m / 2, m % 2);
  }

  /** Every pixel is in exactly one pass. */
  lemma OnePass(p: nat, x: nat, y: nat)
    requires p < 7
    ensures InPass(p, x, y) <==> p == PassOf(x, y)
  {
    Residues(x);
    Residues(y);
    SmallPass(p, x % 8, y % 8);
    if p == 0 {} else if p <= 2 {} else if p <= 4 {} else {}
  }

  lemma SmallPass(p: nat, c: nat, r: nat)
    requires p < 7 && c < 8 && r < 8
    ensures InPass(p, c, r) <==> p == PassOf(c, r)
  {
    if p == 0 {} else if p == 1 {} else if p == 2 {} else if p == 3 {} else if p == 4 {} else if p == 5 {} else {}
  }

  /** The distance of the columns that are there after the first passes up to p, and of the rows. */
  function ColumnsAfter(p: nat): nat
    requires p < 7
  {
    Pow2(3 - (p + 1) / 2)
  }

  function RowsAfter(p: nat): nat
    requires p < 7
  {
    Pow2(3 - p / 2)
  }

  /** Every pass halves the distance, of the columns and of the rows in turn: after pass p the pixels of an
      evenly spaced grid are there. */
  lemma Refines(p: nat, x: nat, y: nat)
    requires p < 7
    ensures ColumnsAfter(p) > 0 && RowsAfter(p) > 0
    ensures PassOf(x, y) <= p <==> x % ColumnsAfter(p) == 0 && y % RowsAfter(p) == 0
  {
    hide Pow2;
    Residues(x);
    Residues(y);
    Spacings();
    if p == 0 {} else if p == 1 {} else if p == 2 {} else if p == 3 {} else if p == 4 {} else if p == 5 {} else {}
  }

  lemma Spacings()
    ensures Pow2(0) == 1 && Pow2(1) == 2 && Pow2(2) == 4 && Pow2(3) == 8
  {
  }

  /** Inside the image the members of a pass are numbered without gaps. */
  lemma Numbered(n: nat, x: nat, orig: nat, spc: nat)
    requires orig < spc && x % spc == orig
    ensures x == x / spc * spc + orig
    ensures x < n <==> x / spc < Reduced(n, orig, spc)
  {
    var i, m := x / spc, n + (spc - orig) - 1;
    assert x == i * spc + orig;
    QuotientAbove(m, spc, i + 1);
    assert (i + 1) * spc == i * spc + spc;
  }

  lemma QuotientAbove(m: nat, d: nat, q: nat)
    requires d > 0
    ensures q <= m / d <==> q * d <= m
  {
    var k := m / d;
    assert m == d * k + m % d;
    if q <= k { assert (k - q) * d >= 0; } else { assert (q - k - 1) * d >= 0; }
  }

  /** And every number is that of a pixel. */
  lemma NumberOf(i: nat, orig: nat, spc: nat)
    requires orig < spc
    ensures (i * spc + orig) % spc == orig && (i * spc + orig) / spc == i
  {
    var x := i * spc + orig;
    QuotientAbove(x, spc, i);
    QuotientAbove(x, spc, i + 1);
    assert (i + 1) * spc == i * spc + spc && x == spc * (x / spc) + x % spc;
  }

  /** Where in the reduced images the pixel is. */
  function Source<T>(passes: seq<seq<seq<T>>>, x: nat, y: nat): T
    requires Fits(passes, x, y)
  {
    var p := PassOf(x, y);
    passes[p][y / YSpc(p)][x / XSpc(p)]
  }

  predicate Fits<T>(passes: seq<seq<seq<T>>>, x: nat, y: nat) {
    var p := PassOf(x, y);
    |passes| == 7 && y / YSpc(p) < |passes[p]| && x / XSpc(p) < |passes[p][y / YSpc(p)]|
  }

  /** The reduced images have the sizes that the reader decodes them with. */
  ghost predicate Sized<T>(passes: seq<seq<seq<T>>>, w: nat, h: nat) {
    && |passes| == 7
    && forall p :: 0 <= p < 7 ==> PassSized(passes, w, h, p)
  }

  ghost predicate PassSized<T>(passes: seq<seq<seq<T>>>, w: nat, h: nat, p: nat)
    requires p < |passes| == 7
  {
    && XOrig(p) < XSpc(p) && YOrig(p) < YSpc(p)
    && |passes[p]| >= Reduced(h, YOrig(p), YSpc(p))
    && forall j :: 0 <= j < Reduced(h, YOrig(p), YSpc(p)) ==> |passes[p][j]| >= Reduced(w, XOrig(p), XSpc(p))
  }

  lemma InImage<T>(passes: seq<seq<seq<T>>>, w: nat, h: nat, x: nat, y: nat)
    requires Sized(passes, w, h) && x < w && y < h
    ensures Fits(passes, x, y)
  {
    var p := PassOf(x, y);
    OnePass(p, x, y);
    assert PassSized(passes, w, h, p);
    Numbered(w, x, XOrig(p), XSpc(p));
    Numbered(h, y, YOrig(p), YSpc(p));
  }

  /** The pixels of the first passes, of the rows before j of pass p, and of those before i in row j. */
  ghost predicate Written(p: nat, j: nat, i: nat, x: nat, y: nat) {
    var q := PassOf(x, y);
    q < p || (q == p && (y / YSpc(q) < j || (y / YSpc(q) == j && x / XSpc(q) < i)))
  }

  /** Every pixel of the image is written once, from its place in its pass. */
  method Deinterlace<T(0)>(passes: seq<seq<seq<T>>>, w: nat, h: nat) returns (final: array2<T>)
    requires Sized(passes, w, h)
    ensures final.Length0 == h && final.Length1 == w
    ensures forall x, y :: 0 <= x < w && 0 <= y < h ==> Fits(passes, x, y) && final[y, x] == Source(passes, x, y)
  {
    hide Written, PassOf, Source, Fits;
    final := new T[h, w];
    forall x, y | 0 <= x < w && 0 <= y < h ensures Fits(passes, x, y) && !Written(0, 0, 0, x, y) {
      InImage(passes, w, h, x, y);
      NoneWritten(x, y);
    }
    var p := 0;
    while p < 7
      invariant 0 <= p <= 7
      invariant forall x, y :: 0 <= x < w && 0 <= y < h && Written(p, 0, 0, x, y) ==> final[y, x] == Source(passes, x, y)
    {
      assert PassSized(passes, w, h, p);
      var rx, ry := Reduced(w, XOrig(p), XSpc(p)), Reduced(h, YOrig(p), YSpc(p));
      if rx > 0 && ry > 0 {
        var j := 0;
        while j < ry
          invariant 0 <= j <= ry
          invariant forall x, y :: 0 <= x < w && 0 <= y < h && Written(p, j, 0, x, y) ==> final[y, x] == Source(passes, x, y)
        {
          var i := 0;
          while i < rx
            invariant 0 <= i <= rx
            invariant forall x, y :: 0 <= x < w && 0 <= y < h && Written(p, j, i, x, y) ==> final[y, x] == Source(passes, x, y)
          {
            var outY, outX := j * YSpc(p) + YOrig(p), i * XSpc(p) + XOrig(p);
            PlaceOf(passes, w, h, p, j, i);
            final[outY, outX] := passes[p][j][i];
            forall x, y | 0 <= x < w && 0 <= y < h && Written(p, j, i + 1, x, y)
              ensures Written(p, j, i, x, y) || (x == outX && y == outY)
            {
              OneMore(p, j, i, x, y);
            }
            i := i + 1;
          }
          forall x, y | 0 <= x < w && 0 <= y < h && Written(p, j + 1, 0, x, y) ensures Written(p, j, rx, x, y) {
            RowDone(w, p, j, x, y);
          }
          j := j + 1;
        }
      }
      ghost var next, rows := p + 1, if rx > 0 && ry > 0 then ry else 0;
      forall x, y | 0 <= x < w && 0 <= y < h && Written(next, 0, 0, x, y) ensures Written(p, rows, 0, x, y) {
        PassDone(w, h, p, x, y);
      }
      p := p + 1;
    }
    forall x, y | 0 <= x < w && 0 <= y < h ensures Written(7, 0, 0, x, y) { AllWritten(x, y); }
  }

  lemma NoneWritten(x: nat, y: nat)
    ensures !Written(0, 0, 0, x, y)
  {
  }

  lemma AllWritten(x: nat, y: nat)
    ensures Written(7, 0, 0, x, y)
  {
  }

  /** The pixel that place i in row j of pass p goes to. */
  lemma PlaceOf<T>(passes: seq<seq<seq<T>>>, w: nat, h: nat, p: nat, j: nat, i: nat)
    requires p < 7 && Sized(passes, w, h) && XOrig(p) < XSpc(p) && YOrig(p) < YSpc(p)
    requires j < Reduced(h, YOrig(p), YSpc(p)) && i < Reduced(w, XOrig(p), XSpc(p))
    ensures var x, y := i * XSpc(p) + XOrig(p), j * YSpc(p) + YOrig(p);
      && x < w && y < h && j < |passes[p]| && i < |passes[p][j]|
      && Fits(passes, x, y) && Source(passes, x, y) == passes[p][j][i]
  {
    hide Reduced;
    var x, y := i * XSpc(p) + XOrig(p), j * YSpc(p) + YOrig(p);
    NumberOf(i, XOrig(p), XSpc(p));
    NumberOf(j, YOrig(p), YSpc(p));
    Numbered(w, x, XOrig(p), XSpc(p));
    Numbered(h, y, YOrig(p), YSpc(p));
    OnePass(p, x, y);
    InImage(passes, w, h, x, y);
    assert PassSized(passes, w, h, p);
  }

  lemma OneMore(p: nat, j: nat, i: nat, x: nat, y: nat)
    requires p < 7 && Written(p, j, i + 1, x, y)
    ensures Written(p, j, i, x, y) || (x == i * XSpc(p) + XOrig(p) && y == j * YSpc(p) + YOrig(p))
  {
    var q := PassOf(x, y);
    OnePass(q, x, y);
    assert x == x / XSpc(q) * XSpc(q) + x % XSpc(q) && y == y / YSpc(q) * YSpc(q) + y % YSpc(q);
  }

  lemma RowDone(w: nat, p: nat, j: nat, x: nat, y: nat)
    requires p < 7 && XOrig(p) < XSpc(p) && x < w && Written(p, j + 1, 0, x, y)
    ensures Written(p, j, Reduced(w, XOrig(p), XSpc(p)), x, y)
  {
    hide Reduced;
    var q := PassOf(x, y);
    OnePass(q, x, y);
    if q == p { Numbered(w, x, XOrig(p), XSpc(p)); }
  }

  lemma PassDone(w: nat, h: nat, p: nat, x: nat, y: nat)
    requires p < 7 && XOrig(p) < XSpc(p) && YOrig(p) < YSpc(p) && x < w && y < h && Written(p + 1, 0, 0, x, y)
    ensures var rx, ry := Reduced(w, XOrig(p), XSpc(p)), Reduced(h, YOrig(p), YSpc(p));
      Written(p, if rx > 0 && ry > 0 then ry else 0, 0, x, y)
  {
    hide Reduced;
    var q := PassOf(x, y);
    OnePass(q, x, y);
    if q == p {
      Numbered(w, x, XOrig(p), XSpc(p));
      Numbered(h, y, YOrig(p), YSpc(p));
    }
  }
}
