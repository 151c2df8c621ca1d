/** The zigzag order of a block's coefficients: the writer's table and the reader's. */
module JpegZigzag {

  /** Where the coefficient at each place of the matrix goes. */
  const ZIGZAG: seq<nat> :=
    [0, 1, 5, 6, 14, 15, 27, 28] +
    [2, 4, 7, 13, 16, 26, 29, 42] +
    [3, 8, 12, 17, 25, 30, 41, 43] +
    [9, 11, 18, 24, 31, 40, 44, 53] +
    [10, 19, 23, 32, 39, 45, 52, 54] +
    [20, 22, 33, 38, 46, 51, 55, 60] +
    [21, 34, 37, 47, 50, 56, 59, 61] +
    [35, 36, 48, 49, 57, 58, 62, 63]

  /** Where each coefficient comes from; corrupt data may run past the end. */
  const DEZIGZAG: seq<nat> :=
    [0, 1, 8, 16, 9, 2, 3, 10] +
    [17, 24, 32, 25, 18, 11, 4, 5] +
    [12, 19, 26, 33, 40, 48, 41, 34] +
    [27, 20, 13, 6, 7, 14, 21, 28] +
    [35, 42, 49, 56, 57, 50, 43, 36] +
    [29, 22, 15, 23, 30, 37, 44, 51] +
    [58, 59, 52, 45, 38, 31, 39, 46] +
    [53, 60, 61, 54, 47, 55, 62, 63] +
    [63, 63, 63, 63, 63, 63, 63, 63] +
    [63, 63, 63, 63, 63, 63, 63]

  /** How many places are on the diagonals before that with row + column == d. */
  function Before(d: nat): nat
    requires d < 15
  {
    if d < 8 then d * (d + 1) / 2 else 64 - (15 - d) * (16 - d) / 2
  }

  /** The order of Figure 5 of ITU-T T.81: diagonal after diagonal, up the even ones and down the odd ones. */
  function Zigzag(row: nat, col: nat): int
    requires row < 8 && col < 8
  {
    var d := row + col;
    Before(d) + (if d % 2 == 0 then col else row) - if d < 8 then 0 else d - 7
  }

  predicate RowZigzags(row: nat, n: nat)
    requires row < 8 && n <= 8
  {
    n == 0 || (8 * row + n - 1 < |ZIGZAG| && ZIGZAG[8 * row + n - 1] == Zigzag(row, n - 1) && RowZigzags(row, n - 1))
  }

  lemma {:induction false} RowAt(row: nat, n: nat, col: nat)
    requires row < 8 && col < n <= 8 && RowZigzags(row, n)
    ensures 8 * row + col < |ZIGZAG| && ZIGZAG[8 * row + col] == Zigzag(row, col)
  {
    hide ZIGZAG, Zigzag;
    if col < n - 1 { RowAt(row, n - 1, col); }
  }

  /** The writer's table is that order, and the reader's the way back. */
  lemma ZigzagOrder(row: nat, col: nat)
    requires row < 8 && col < 8
    ensures |ZIGZAG| == 64 && |DEZIGZAG| == 79
    ensures ZIGZAG[8 * row + col] == Zigzag(row, col) && 0 <= Zigzag(row, col) < 64
    ensures DEZIGZAG[Zigzag(row, col)] == 8 * row + col
  {
    hide ZIGZAG, DEZIGZAG, Zigzag, RowZigzags;
    AllRows();
    RowAt(row, 8, col);
    TablesInverse();
  }

  lemma AllRows()
    ensures forall row :: 0 <= row < 8 ==> RowZigzags(row, 8)
  {
    hide RowZigzags;
    UpperRows();
    MiddleRows();
    LowerRows();
  }

  lemma UpperRows()
    ensures RowZigzags(0, 8) && RowZigzags(1, 8) && RowZigzags(2, 8)
  {
  }

  lemma MiddleRows()
    ensures RowZigzags(3, 8) && RowZigzags(4, 8)
  {
  }

  lemma LowerRows()
    ensures RowZigzags(5, 8) && RowZigzags(6, 8) && RowZigzags(7, 8)
  {
  }

  /** The coefficient of a place, and the place of a coefficient. */
  predicate Undone(k: nat)
    requires k < 64
  {
    DEZIGZAG[k] < 64 && ZIGZAG[k] < 64 && ZIGZAG[DEZIGZAG[k]] == k && DEZIGZAG[ZIGZAG[k]] == k
  }

  predicate UndoneTo(n: nat)
    requires n <= 64
  {
    n == 0 || (Undone(n - 1) && UndoneTo(n - 1))
  }

  /** The two tables undo each other, row by row. */
  lemma TablesUndone()
    ensures UndoneTo(64)
  {
    assert UndoneTo(8);
    assert UndoneTo(16);
    assert UndoneTo(24);
    assert UndoneTo(32);
    assert UndoneTo(40);
    assert UndoneTo(48);
    assert UndoneTo(56);
  }

  lemma {:induction false} UndoneAt(n: nat, k: nat)
    requires k < n <= 64 && UndoneTo(n)
    ensures Undone(k)
  {
    if k < n - 1 { UndoneAt(n - 1, k); }
  }

  lemma Padding(k: nat)
    requires 64 <= k < 79
    ensures |ZIGZAG| == 64 && |DEZIGZAG| == 79 && DEZIGZAG[k] == 63
  {
  }

  lemma TablesInverse()
    ensures |ZIGZAG| == 64 && |DEZIGZAG| == 79
    ensures forall k :: 64 <= k < 79 ==> DEZIGZAG[k] == 63
    ensures forall k :: 0 <= k < 64 ==> DEZIGZAG[k] < 64 && ZIGZAG[DEZIGZAG[k]] == k
    ensures forall j :: 0 <= j < 64 ==> ZIGZAG[j] < 64 && DEZIGZAG[ZIGZAG[j]] == j
  {
    hide ZIGZAG, DEZIGZAG, UndoneTo;
    TablesUndone();
    Padding(64);
    forall k: nat | 64 <= k < 79 ensures DEZIGZAG[k] == 63 { Padding(k); }
    forall k: nat | k < 64
      ensures DEZIGZAG[k] < 64 && ZIGZAG[DEZIGZAG[k]] == k && ZIGZAG[k] < 64 && DEZIGZAG[ZIGZAG[k]] == k
    {
      UndoneAt(64, k);
    }
  }
}
