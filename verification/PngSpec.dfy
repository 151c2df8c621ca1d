/** Filtering of scanlines, section 9 of the PNG specification. */
module PngSpec {
  import opened Bits

  function Paeth(a: int, b: int, c: int): int {
    var p := a + b - c;
    var pa, pb, pc := Abs(p - a), Abs(p - b), Abs(p - c);
    if pa <= pb && pa <= pc then a else if pb <= pc then b else c
  }

  /** The one of the three that is nearest to a + b - c. */
  lemma PaethNearest(a: int, b: int, c: int)
    ensures Paeth(a, b, c) in {a, b, c}
    ensures var p, d := a + b - c, Abs(a + b - c - Paeth(a, b, c)); d <= Abs(p - a) && d <= Abs(p - b) && d <= Abs(p - c)
  {
  }

  /** Among equally near ones, that to the left comes first, and then that above. The distances of the three
      from a + b - c are |b - c|, |a - c| and |a + b - 2c|. */
  lemma PaethOrder(a: int, b: int, c: int)
    ensures Abs(b - c) <= Abs(a - c) && Abs(b - c) <= Abs(a + b - 2 * c) ==> Paeth(a, b, c) == a
    ensures Abs(b - c) > Abs(a - c) && Abs(a - c) <= Abs(a + b - 2 * c) ==> Paeth(a, b, c) == b
    ensures Abs(b - c) > Abs(a + b - 2 * c) && Abs(a - c) > Abs(a + b - 2 * c) ==> Paeth(a, b, c) == c
  {
  }

  /** What a byte is predicted to be from the bytes to the left, above, and above to the left. */
  function Predict(filter: nat, a: byte, b: byte, c: byte): byte
    requires filter <= 4
  {
    if filter == 0 then 0
    else if filter == 1 then a
    else if filter == 2 then b
    else if filter == 3 then (a + b) / 2
    else Paeth(a, b, c)
  }

  /** The filter types of section 9.2: none, sub, up, average rounded down, and Paeth. */
  lemma FilterTypes(a: byte, b: byte, c: byte)
    ensures Predict(0, a, b, c) == 0 && Predict(1, a, b, c) == a && Predict(2, a, b, c) == b
    ensures var r := Predict(3, a, b, c) as int; 2 * r <= a as int + b as int < 2 * r + 2
    ensures var r := Predict(4, a, b, c) as int;
      if Abs(b as int - c as int) <= Abs(a as int - c as int) && Abs(b as int - c as int) <= Abs(a as int + b as int - 2 * c as int)
      then r == a as int
      else if Abs(a as int - c as int) <= Abs(a as int + b as int - 2 * c as int) then r == b as int
      else r == c as int
  {
    hide Paeth;
    PaethOrder(a as int, b as int, c as int);
  }

  lemma DifferenceIs(x: byte, p: byte)
    ensures var r := x as int - Sub8(x, p) as int; r == p as int || r == p as int - 0x100
  {
  }

  /** A reconstructed byte is what was predicted and the byte read, modulo 256. */
  lemma FilterSums(filter: nat, n: nat, prior: seq<byte>, row: seq<byte>, enc: seq<byte>, i: nat)
    requires Filters(filter, n, prior, row, enc) && i < |row|
    ensures var a, b, c := if i < n then 0 else row[i - n] as int, prior[i] as int, if i < n then 0 else prior[i - n] as int;
      var r := row[i] as int - enc[i] as int;
      && (filter == 0 ==> r == 0)
      && (filter == 1 ==> r == a || r == a - 0x100)
      && (filter == 2 ==> r == b || r == b - 0x100)
      && (filter == 3 ==> 2 * r <= a + b < 2 * r + 2 || 2 * r <= a + b - 0x200 < 2 * r + 2)
  {
    hide Paeth, Predict, Sub8;
    FilterTypes(Left(row, i, n), prior[i], Left(prior, i, n));
    DifferenceIs(row[i], PredictAt(filter, n, prior, row, i));
    if filter == 0 { NoDifference(row[i]); }
  }

  lemma NoDifference(x: byte)
    ensures Sub8(x, 0) == x
  {
  }

  /** The corresponding byte of the pixel to the left, outside the image zero. */
  function Left(row: seq<byte>, i: nat, n: nat): byte
    requires i < |row| && n >= 1
  {
    if i < n then 0 else row[i - n]
  }

  function PredictAt(filter: nat, n: nat, prior: seq<byte>, row: seq<byte>, i: nat): byte
    requires filter <= 4 && n >= 1 && |prior| == |row| && i < |row|
  {
    Predict(filter, Left(row, i, n), prior[i], Left(prior, i, n))
  }

  function Add8(a: byte, b: byte): byte {
    (a as nat + b as nat) % 0x100
  }

  function Sub8(a: byte, b: byte): byte {
    (a as int - b as int) % 0x100
  }

  /** enc is row filtered, prior being the row above. */
  ghost predicate Filters(filter: nat, n: nat, prior: seq<byte>, row: seq<byte>, enc: seq<byte>) {
    && filter <= 4 && n >= 1 && |prior| == |row| == |enc|
    && forall i :: 0 <= i < |row| ==> enc[i] == Sub8(row[i], PredictAt(filter, n, prior, row, i))
  }

  lemma SubAdd(a: byte, b: byte, c: byte)
    ensures c == Sub8(a, b) <==> a == Add8(c, b)
  {
  }

  /** At most one row is filtered to given bytes: reconstruction undoes filtering. */
  lemma FiltersUnique(filter: nat, n: nat, prior: seq<byte>, row: seq<byte>, got: seq<byte>, enc: seq<byte>)
    requires Filters(filter, n, prior, row, enc) && Filters(filter, n, prior, got, enc)
    ensures row == got
  {
    FiltersUniqueTo(filter, n, prior, row, got, enc, |row|);
    assert row[..|row|] == row && got[..|row|] == got;
  }

  lemma {:induction false} FiltersUniqueTo(filter: nat, n: nat, prior: seq<byte>, row: seq<byte>, got: seq<byte>, enc: seq<byte>, i: nat)
    requires Filters(filter, n, prior, row, enc) && Filters(filter, n, prior, got, enc) && i <= |row|
    ensures row[..i] == got[..i]
  {
    hide Predict, Sub8, Add8;
    if i > 0 {
      FiltersUniqueTo(filter, n, prior, row, got, enc, i - 1);
      assert row[..i] == row[..i - 1] + [row[i - 1]] && got[..i] == got[..i - 1] + [got[i - 1]];
      assert i - 1 >= n ==> row[..i - 1][i - 1 - n] == got[..i - 1][i - 1 - n];
      var p := PredictAt(filter, n, prior, row, i - 1);
      SubAdd(row[i - 1], p, enc[i - 1]);
      SubAdd(got[i - 1], p, enc[i - 1]);
    }
  }

  /** The filters that writer and reader use on the first row, so as not to need a row above it. */
  function FirstRowFilter(filter: nat): nat
    requires filter <= 4
  {
    if filter == 2 then 0 else if filter >= 3 then filter + 2 else filter
  }

  // ----- rows of a buffer

  /** m * n, a term at a time. */
  function Times(m: nat, n: nat): nat {
    if m == 0 then 0 else Times(m - 1, n) + n
  }

  lemma {:induction false} TimesMono(m: nat, k: nat, n: nat)
    requires m <= k
    ensures Times(m, n) <= Times(k, n)
  {
    if m < k { TimesMono(m, k - 1, n); }
  }

  lemma {:induction false} TimesIsMul(m: nat, n: nat)
    ensures Times(m, n) == m * n
  {
    if m > 0 { TimesIsMul(m - 1, n); }
  }

  function Zeros(n: nat): (s: seq<byte>)
    ensures |s| == n && forall i :: 0 <= i < n ==> s[i] == 0
  {
    seq(n, i => 0)
  }

  /** A filtered image: every row behind the number of its filter. */
  ghost predicate FilteredRow(prior: seq<byte>, row: seq<byte>, n: nat, raw: seq<byte>, at: nat) {
    at + 1 + |row| <= |raw| && Filters(raw[at], n, prior, row, raw[at + 1..at + 1 + |row|])
  }
}
