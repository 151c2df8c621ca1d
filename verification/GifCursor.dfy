/** Where the GIF decoder draws: row by row, or in the four passes of Appendix E of GIF89a. */
module GifCursor {
  import opened Bits

  /** The rectangle being drawn, in pixels. */
  datatype Rect = Rect(w: nat, h: nat, interlaced: bool)

  /** Column and row relative to the rectangle, the distance of rows in this pass, and the passes left. */
  datatype Cursor = Cursor(x: nat, y: nat, step: nat, parse: nat)

  function Start(r: Rect): Cursor {
    Cursor(0, if r.w == 0 then r.h else 0, if r.interlaced then 8 else 1, if r.interlaced then 3 else 0)
  }

  /** From the end of one pass to the first row of the next one that has any. */
  function NextPass(r: Rect, c: Cursor): Cursor
    decreases c.parse
  {
    if c.y >= r.h && c.parse > 0 then
      var step := Pow2(c.parse);
      NextPass(r, c.(step := step, y := step / 2, parse := c.parse - 1))
    else c
  }

  /** Once below the rectangle nothing moves any more. */
  function Advance(r: Rect, c: Cursor): Cursor {
    if c.y >= r.h then c
    else if c.x + 1 >= r.w then NextPass(r, c.(x := 0, y := c.y + c.step))
    else c.(x := c.x + 1)
  }

  function After(r: Rect, n: nat): Cursor {
    if n == 0 then Start(r) else Advance(r, After(r, n - 1))
  }

  // ----- passes

  /** The pass that a row is drawn in, counted down. */
  function PassOf(r: Rect, y: nat): nat {
    if !r.interlaced then 0
    else if y % 8 == 0 then 3
    else if y % 8 == 4 then 2
    else if y % 8 == 2 || y % 8 == 6 then 1
    else 0
  }

  function StepOf(r: Rect, pass: nat): nat {
    if !r.interlaced then 1 else if pass >= 2 then 8 else if pass == 1 then 4 else 2
  }

  ghost predicate CursorOk(r: Rect, c: Cursor) {
    && c.parse <= 3 && (r.interlaced || c.parse == 0) && c.step == StepOf(r, c.parse)
    && if c.y < r.h then PassOf(r, c.y) == c.parse && c.x < r.w else r.w == 0 || r.h == 0 || c.parse == 0
  }

  /** The pixels drawn before the cursor gets where it is. */
  ghost predicate Visited(r: Rect, c: Cursor, x: nat, y: nat) {
    || PassOf(r, y) > c.parse
    || (PassOf(r, y) == c.parse && (y < c.y || (y == c.y && x < c.x)))
  }

  lemma StartOk(r: Rect)
    ensures CursorOk(r, Start(r))
    ensures forall x, y :: 0 <= x < r.w && 0 <= y < r.h ==> !Visited(r, Start(r), x, y)
  {
  }

  /** No row of a pass lies between one and the next. */
  lemma NoneBetween(r: Rect, y: nat, z: nat)
    requires PassOf(r, z) == PassOf(r, y)
    ensures z < y + StepOf(r, PassOf(r, y)) ==> z <= y
    ensures PassOf(r, y + StepOf(r, PassOf(r, y))) == PassOf(r, y)
  {
    if r.interlaced {
      var step := StepOf(r, PassOf(r, y));
      Mod8(y, step);
      if y < z < y + step { Mod8(y, z - y); }
    }
  }

  lemma Mod8(y: nat, d: nat)
    requires d <= 8
    ensures (y + d) % 8 == if y % 8 + d < 8 then y % 8 + d else y % 8 + d - 8
  {
    assert y == 8 * (y / 8) + y % 8;
  }

  /** The first row of the pass after the one at hand. */
  lemma FirstRow(r: Rect, parse: nat, z: nat)
    requires r.interlaced && 1 <= parse <= 3
    ensures Pow2(parse) == StepOf(r, parse - 1)
    ensures PassOf(r, Pow2(parse) / 2) == parse - 1
    ensures PassOf(r, z) == parse - 1 ==> z >= Pow2(parse) / 2
  {
    assert Pow2(1) == 2 && Pow2(2) == 4 && Pow2(3) == 8;
  }

  /** Between two rows of the same pass, or at the end of it, nothing is skipped. */
  lemma {:induction false} NextPassVisits(r: Rect, c: Cursor)
    requires r.w > 0 && c.x == 0 && c.parse <= 3 && (r.interlaced || c.parse == 0) && c.step == StepOf(r, c.parse)
    requires PassOf(r, c.y) == c.parse
    ensures CursorOk(r, NextPass(r, c)) && NextPass(r, c).x == 0
    ensures forall x, y :: 0 <= x < r.w && 0 <= y < r.h ==> (Visited(r, NextPass(r, c), x, y) <==> Visited(r, c, x, y))
    decreases c.parse
  {
    if c.y >= r.h && c.parse > 0 {
      var step := Pow2(c.parse);
      FirstRow(r, c.parse, 0);
      var d := c.(step := step, y := step / 2, parse := c.parse - 1);
      NextPassVisits(r, d);
      forall x, y | 0 <= x < r.w && 0 <= y < r.h ensures Visited(r, d, x, y) <==> Visited(r, c, x, y) {
        FirstRow(r, c.parse, y);
      }
    }
  }

  /** Every move visits one pixel more, the one drawn, which was not visited before. */
  lemma AdvanceVisits(r: Rect, c: Cursor)
    requires CursorOk(r, c) && c.y < r.h
    ensures CursorOk(r, Advance(r, c))
    ensures !Visited(r, c, c.x, c.y)
    ensures forall x, y :: 0 <= x < r.w && 0 <= y < r.h ==>
      (Visited(r, Advance(r, c), x, y) <==> Visited(r, c, x, y) || (x == c.x && y == c.y))
  {
    if c.x + 1 >= r.w {
      var d := c.(x := 0, y := c.y + c.step);
      NoneBetween(r, c.y, c.y);
      NextPassVisits(r, d);
      forall x, y | 0 <= x < r.w && 0 <= y < r.h
        ensures Visited(r, d, x, y) <==> Visited(r, c, x, y) || (x == c.x && y == c.y)
      {
        if PassOf(r, y) == PassOf(r, c.y) { NoneBetween(r, c.y, y); }
      }
    }
  }

  /** Below the rectangle every pixel of it has been drawn. */
  lemma FinishedVisits(r: Rect, c: Cursor)
    requires CursorOk(r, c) && c.y >= r.h
    ensures forall x, y :: 0 <= x < r.w && 0 <= y < r.h ==> Visited(r, c, x, y)
  {
  }

  // ----- the whole traversal

  ghost function Pixels(w: nat, h: nat): (s: set<(nat, nat)>) {
    set x: nat, y: nat | 0 <= x < w && 0 <= y < h :: (x, y)
  }

  ghost function VisitedPixels(r: Rect, c: Cursor): set<(nat, nat)> {
    set x: nat, y: nat | 0 <= x < r.w && 0 <= y < r.h && Visited(r, c, x, y) :: (x, y)
  }

  lemma {:induction false} AfterOk(r: Rect, n: nat)
    ensures CursorOk(r, After(r, n))
  {
    hide CursorOk;
    if n == 0 { StartOk(r); }
    else {
      AfterOk(r, n - 1);
      if After(r, n - 1).y < r.h { AdvanceVisits(r, After(r, n - 1)); }
    }
  }

  /** As long as the cursor is inside, the n-th pixel is a new one: n different ones come before it. */
  lemma {:induction false} VisitsOnce(r: Rect, n: nat)
    requires n > 0 ==> After(r, n - 1).y < r.h
    ensures |VisitedPixels(r, After(r, n))| == n
    ensures After(r, n).y < r.h ==> (After(r, n).x, After(r, n).y) !in VisitedPixels(r, After(r, n)) && After(r, n).x < r.w
  {
    hide Visited, Advance;
    AfterOk(r, n);
    if n == 0 {
      StartOk(r);
      assert VisitedPixels(r, After(r, 0)) == {};
    } else {
      var c := After(r, n - 1);
      AfterOk(r, n - 1);
      if n > 1 && c.y < r.h { StillInside(r, n - 1); }
      VisitsOnce(r, n - 1);
      AdvanceVisits(r, c);
      assert VisitedPixels(r, After(r, n)) == VisitedPixels(r, c) + {(c.x, c.y)};
    }
    if After(r, n).y < r.h { AdvanceVisits(r, After(r, n)); }
  }

  lemma StillInside(r: Rect, n: nat)
    requires n > 0 && After(r, n).y < r.h
    ensures After(r, n - 1).y < r.h
  {
  }

  ghost function RowPixels(w: nat, y: nat): (s: set<(nat, nat)>) {
    set x: nat | 0 <= x < w :: (x, y)
  }

  lemma {:induction false} PixelCount(w: nat, h: nat)
    ensures |Pixels(w, h)| == w * h
  {
    if h == 0 {
      assert Pixels(w, h) == {};
    } else {
      PixelCount(w, h - 1);
      RowCount(w, h - 1);
      OneMoreRow(w, h - 1);
      assert w * h == w * (h - 1) + w;
    }
  }

  lemma OneMoreRow(w: nat, y: nat)
    ensures Pixels(w, y + 1) == Pixels(w, y) + RowPixels(w, y) && Pixels(w, y) !! RowPixels(w, y)
  {
  }

  lemma {:induction false} RowCount(w: nat, y: nat)
    ensures |RowPixels(w, y)| == w
  {
    if w == 0 {
      assert RowPixels(w, y) == {};
    } else {
      RowCount(w - 1, y);
      assert RowPixels(w, y) == RowPixels(w - 1, y) + {(w - 1, y)};
    }
  }

  /** The traversal is a bijection: the cursor leaves the rectangle exactly after as many pixels as it
      has, and stays below it. */
  lemma {:induction false} Bijection(r: Rect, n: nat)
    ensures After(r, n).y >= r.h <==> n >= r.w * r.h
    ensures n <= r.w * r.h ==> |VisitedPixels(r, After(r, n))| == n
  {
    hide Visited, Advance;
    AfterOk(r, n);
    PixelCount(r.w, r.h);
    if n > 0 { Bijection(r, n - 1); } else { ProductZero(r.w, r.h); }
    if n == 0 || n - 1 < r.w * r.h {
      VisitsOnce(r, n);
      var s := VisitedPixels(r, After(r, n));
      if After(r, n).y >= r.h {
        FinishedVisits(r, After(r, n));
        assert s == Pixels(r.w, r.h);
      } else {
        var p := (After(r, n).x, After(r, n).y);
        Subset(s + {p}, Pixels(r.w, r.h));
      }
    } else {
      assert Advance(r, After(r, n - 1)) == After(r, n - 1) by { Stays(r, After(r, n - 1)); }
    }
  }

  lemma Stays(r: Rect, c: Cursor)
    requires c.y >= r.h
    ensures Advance(r, c) == c
  {
  }

  lemma ProductZero(w: nat, h: nat)
    ensures w * h >= 0 && (w == 0 || h == 0 ==> w * h == 0)
  {
  }

  lemma {:induction false} Subset<T>(a: set<T>, b: set<T>)
    requires a <= b
    ensures |a| <= |b|
  {
    assert b == a + (b - a);
  }

  /** What the cursor has passed stays visited. */
  lemma {:induction false} VisitedLater(r: Rect, k: nat, n: nat)
    requires k < n && After(r, k).y < r.h
    ensures After(r, k).x < r.w && Visited(r, After(r, n), After(r, k).x, After(r, k).y)
  {
    hide Visited, Advance;
    AfterOk(r, k);
    AfterOk(r, n - 1);
    InsideWidth(r, After(r, k));
    if k < n - 1 { VisitedLater(r, k, n - 1); }
    if After(r, n - 1).y < r.h { AdvanceVisits(r, After(r, n - 1)); } else { Stays(r, After(r, n - 1)); }
  }

  lemma InsideWidth(r: Rect, c: Cursor)
    requires CursorOk(r, c) && c.y < r.h
    ensures c.x < r.w
  {
  }

  // ----- the order of the pixels

  /** The row that is drawn as the j-th: from top to bottom; or first every eighth from row 0, then every eighth
      from row 4, then every fourth from row 2, and then every second from row 1. */
  function RowAt(r: Rect, j: nat): nat {
    var a, b, c := (r.h + 7) / 8, (r.h + 3) / 8, (r.h + 1) / 4;
    if !r.interlaced then j
    else if j < a then 8 * j
    else if j < a + b then 4 + 8 * (j - a)
    else if j < a + b + c then 2 + 4 * (j - a - b)
    else 1 + 2 * (j - a - b - c)
  }

  lemma Multiples(k: nat)
    ensures (8 * k) % 8 == 0 && (8 * k + 4) % 8 == 4 && (4 * k + 2) % 8 in {2, 6} && (2 * k + 1) % 8 in {1, 3, 5, 7}
  {
    DivModUnique(8 * k, 8, k, 0);
    DivModUnique(8 * k + 4, 8, k, 4);
    DivModUnique(4 * k + 2, 8, k / 2, 4 * (k % 2) + 2);
    DivModUnique(2 * k + 1, 8, k / 4, 2 * (k % 4) + 1);
  }

  /** How many rows there are of each kind. */
  lemma Kinds(h: nat)
    ensures var q, m := h / 8, h % 8;
      && (h + 7) / 8 == (if m > 0 then q + 1 else q) && (h + 3) / 8 == (if m >= 5 then q + 1 else q)
      && (h + 1) / 4 == (if m >= 7 then 2 * q + 2 else if m >= 3 then 2 * q + 1 else 2 * q)
  {
    var q, m := h / 8, h % 8;
    DivModUnique(h + 7, 8, if m > 0 then q + 1 else q, if m > 0 then m - 1 else 7);
    DivModUnique(h + 3, 8, if m >= 5 then q + 1 else q, if m >= 5 then m - 5 else m + 3);
    DivModUnique(h + 1, 4, if m >= 7 then 2 * q + 2 else if m >= 3 then 2 * q + 1 else 2 * q,
                 if m >= 7 then m - 7 else if m >= 3 then m - 3 else m + 1);
  }

  /** The rows are in the image. */
  lemma RowInside(r: Rect, j: nat)
    requires j < r.h
    ensures RowAt(r, j) < r.h
  {
    Kinds(r.h);
  }

  lemma RowPass(r: Rect, j: nat)
    requires j < r.h && r.interlaced
    ensures var a, b, c := (r.h + 7) / 8, (r.h + 3) / 8, (r.h + 1) / 4;
      PassOf(r, RowAt(r, j)) == if j < a then 3 else if j < a + b then 2 else if j < a + b + c then 1 else 0
  {
    var a, b, c := (r.h + 7) / 8, (r.h + 3) / 8, (r.h + 1) / 4;
    if j < a { Multiples(j); }
    else if j < a + b { Multiples(j - a); }
    else if j < a + b + c { Multiples(j - a - b); }
    else { Multiples(j - a - b - c); }
  }

  /** From the end of a row to the next one in that order. */
  lemma NextRow(r: Rect, j: nat)
    requires r.w > 0 && j + 1 < r.h
    ensures var y := RowAt(r, j);
      var p := PassOf(r, y);
      NextPass(r, Cursor(0, y + StepOf(r, p), StepOf(r, p), p)).y == RowAt(r, j + 1)
  {
    RowInside(r, j);
    RowInside(r, j + 1);
    if r.interlaced {
      RowPass(r, j);
      Passes(r, j);
    }
  }

  lemma Passes(r: Rect, j: nat)
    requires r.w > 0 && j + 1 < r.h && r.interlaced
    requires RowAt(r, j) < r.h && RowAt(r, j + 1) < r.h
    requires var a, b, c := (r.h + 7) / 8, (r.h + 3) / 8, (r.h + 1) / 4;
      PassOf(r, RowAt(r, j)) == if j < a then 3 else if j < a + b then 2 else if j < a + b + c then 1 else 0
    ensures var y := RowAt(r, j);
      var p := PassOf(r, y);
      NextPass(r, Cursor(0, y + StepOf(r, p), StepOf(r, p), p)).y == RowAt(r, j + 1)
  {
    hide PassOf;
    var a, b, c := (r.h + 7) / 8, (r.h + 3) / 8, (r.h + 1) / 4;
    var y := RowAt(r, j);
    FirstRows(r);
    if j < a {
      StepThree(r, y + 8);
    } else if j < a + b {
      StepTwo(r, y + 8);
    } else if j < a + b + c {
      StepOne(r, y + 4);
    }
  }

  lemma FirstRows(r: Rect)
    ensures (r.h + 3) / 8 > 0 <==> r.h > 4
    ensures (r.h + 1) / 4 > 0 <==> r.h > 2
  {
    Kinds(r.h);
  }

  /** Where the passes lead that have no more rows. */
  lemma StepOne(r: Rect, y: nat)
    ensures NextPass(r, Cursor(0, y, 4, 1)).y == if y >= r.h then 1 else y
  {
    assert Pow2(1) == 2;
    if y >= r.h { assert NextPass(r, Cursor(0, 1, 2, 0)).y == 1; }
  }

  lemma StepTwo(r: Rect, y: nat)
    ensures NextPass(r, Cursor(0, y, 8, 2)).y == if y < r.h then y else if 2 < r.h then 2 else 1
  {
    assert Pow2(2) == 4;
    StepOne(r, 2);
  }

  lemma StepThree(r: Rect, y: nat)
    ensures NextPass(r, Cursor(0, y, 8, 3)).y == if y < r.h then y else if 4 < r.h then 4 else if 2 < r.h then 2 else 1
  {
    assert Pow2(3) == 8;
    StepTwo(r, 4);
  }

  /** Where the cursor is: column i of the j-th row in that order, after j rows and i pixels. */
  lemma {:induction false} PixelAt(r: Rect, j: nat, i: nat)
    requires i < r.w && j < r.h
    ensures After(r, j * r.w + i).x == i && After(r, j * r.w + i).y == RowAt(r, j)
    decreases j, i
  {
    hide NextPass, RowAt, PassOf, StepOf;
    var n := j * r.w + i;
    RowInside(r, j);
    if i > 0 {
      PixelAt(r, j, i - 1);
    } else if j > 0 {
      assert n == (j - 1) * r.w + (r.w - 1) + 1;
      PixelAt(r, j - 1, r.w - 1);
      RowInside(r, j - 1);
      AfterOk(r, n - 1);
      NextRow(r, j - 1);
      RowStart(r, n);
    } else {
      TopLeft(r);
    }
  }

  lemma RowStart(r: Rect, n: nat)
    requires n > 0 && After(r, n - 1).y < r.h && After(r, n - 1).x + 1 == r.w && CursorOk(r, After(r, n - 1))
    ensures var y := After(r, n - 1).y;
      var p := PassOf(r, y);
      After(r, n).y == NextPass(r, Cursor(0, y + StepOf(r, p), StepOf(r, p), p)).y && After(r, n).x == 0
  {
    StaysLeft(r, After(r, n - 1).(x := 0, y := After(r, n - 1).y + After(r, n - 1).step));
  }

  lemma {:induction false} StaysLeft(r: Rect, c: Cursor)
    requires c.x == 0
    ensures NextPass(r, c).x == 0
    decreases c.parse
  {
    if c.y >= r.h && c.parse > 0 {
      var step := Pow2(c.parse);
      StaysLeft(r, c.(step := step, y := step / 2, parse := c.parse - 1));
    }
  }

  lemma TopLeft(r: Rect)
    requires r.w > 0 && r.h > 0
    ensures After(r, 0).x == 0 && After(r, 0).y == RowAt(r, 0)
  {
  }
}
