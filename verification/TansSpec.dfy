/** The decoding table of a table-driven asymmetric numeral system: what its states decode to, and
    why decoding inverts encoding. */
module TansSpec {
  import opened Bits

  datatype Entry = Entry(mask: nat, len: nat, sym: nat, nextst: nat)
  datatype SymCount = SymCount(sym: nat, count: nat)

  /** Position of the highest one bit. */
  function Log2(n: nat): nat
    requires n >= 1
  {
    if n < 2 then 0 else 1 + Log2(n / 2)
  }

  /** Number of bits read when leaving state from (counted from the symbol's count). */
  function StepBits(lbits: nat, from: nat): nat
    requires from >= 1 && Log2(from) <= lbits
  {
    lbits - Log2(from)
  }

  /** The entry of the q-th of the count states of a symbol. */
  function StateEntry(lbits: nat, sym: nat, count: nat, q: nat): Entry
    requires count >= 1 && Log2(count + q) <= lbits
  {
    var nb := StepBits(lbits, count + q);
    Entry(Pow2(nb) - 1, nb, sym, Low(Shl(count + q, nb), lbits))
  }

  // ----- the states of one symbol partition the state space

  lemma {:induction false} Log2Bounds(n: nat)
    requires n >= 1
    ensures Pow2(Log2(n)) <= n < 2 * Pow2(Log2(n))
  {
    if n >= 2 { Log2Bounds(n / 2); }
  }

  lemma {:induction false} Log2Unique(n: nat, k: nat)
    requires n >= 1 && Pow2(k) <= n < 2 * Pow2(k)
    ensures Log2(n) == k
  {
    if k > 0 { Log2Unique(n / 2, k - 1); }
  }

  lemma {:induction false} Log2Mono(m: nat, n: nat)
    requires 1 <= m <= n
    ensures Log2(m) <= Log2(n)
  {
    if m >= 2 { Log2Mono(m / 2, n / 2); }
  }

  /** Every state of a symbol reads at least no bits. */
  lemma StateInRange(lbits: nat, count: nat, q: nat)
    requires 1 <= count <= Pow2(lbits) && q < count
    ensures Log2(count + q) <= lbits
  {
    Log2Bounds(count + q);
    if Log2(count + q) > lbits { Pow2Mono(lbits + 1, Log2(count + q)); }
  }

  /** Shifted to the top, the state is the start of its interval plus L. */
  lemma IntervalStart(lbits: nat, from: nat)
    requires from >= 1 && Log2(from) <= lbits
    ensures var nb := StepBits(lbits, from);
      && Shl(from, nb) == Pow2(lbits) + Low(Shl(from, nb), lbits)
      && Low(Shl(from, nb), lbits) + Pow2(nb) <= Pow2(lbits)
  {
    var nb := StepBits(lbits, from);
    var k := Log2(from);
    Log2Bounds(from);
    ShlIsMul(from, nb);
    Pow2Add(k, nb);
    ShiftBounds(from, Pow2(k), Pow2(nb));
    TopBit(Shl(from, nb), lbits);
  }

  lemma ShiftBounds(x: nat, a: nat, b: nat)
    requires a <= x < 2 * a && b >= 1
    ensures a * b <= x * b && x * b + b <= 2 * (a * b)
  {
    assert (x - a) * b >= 0;
    assert (2 * a - 1 - x) * b >= 0;
  }

  lemma {:induction false} TopBit(y: nat, n: nat)
    requires Pow2(n) <= y < 2 * Pow2(n)
    ensures Low(y, n) == y - Pow2(n)
  {
    if n > 0 { TopBit(y / 2, n - 1); }
  }

  /** State x lies in the interval of the q-th state. */
  ghost predicate Reaches(lbits: nat, count: nat, q: nat, x: nat) {
    && count >= 1 && Log2(count + q) <= lbits
    && var e := StateEntry(lbits, 0, count, q); e.nextst <= x < e.nextst + Pow2(e.len)
  }

  /** In terms of the state with its implied top bit: its high bits are the number of the state. */
  lemma ReachesIsShift(lbits: nat, count: nat, q: nat, x: nat)
    requires x < Pow2(lbits) && count >= 1 && Log2(count + q) <= lbits
    ensures Reaches(lbits, count, q, x) <==> Shr(Pow2(lbits) + x, StepBits(lbits, count + q)) == count + q
  {
    var from := count + q;
    var nb := StepBits(lbits, from);
    var y := Pow2(lbits) + x;
    IntervalStart(lbits, from);
    ShlNext(from, nb);
    if Reaches(lbits, count, q, x) { ShrMono(from, y, from + 1, nb); }
    if Shr(y, nb) == from { ShrBounds(y, nb); }
  }

  lemma {:induction false} ShlNext(a: nat, n: nat)
    ensures Shl(a + 1, n) == Shl(a, n) + Pow2(n)
  {
    if n > 0 { ShlNext(a, n - 1); }
  }

  lemma {:induction false} ShrLog2(y: nat, n: nat)
    requires y >= 1 && n <= Log2(y)
    ensures Shr(y, n) >= 1 && Log2(Shr(y, n)) == Log2(y) - n
  {
    if n > 0 { ShrLog2(y / 2, n - 1); }
  }

  lemma {:induction false} ShrLast(y: nat, n: nat)
    ensures Shr(y, n + 1) == Shr(y, n) / 2
  {
    if n > 0 { ShrLast(y / 2, n - 1); }
  }

  /** Every state is reached from some state of the symbol. */
  lemma SomeReaches(lbits: nat, count: nat, x: nat) returns (q: nat)
    requires 1 <= count <= Pow2(lbits) && x < Pow2(lbits)
    ensures q < count && Reaches(lbits, count, q, x)
  {
    hide Reaches;
    var y := Pow2(lbits) + x;
    Log2Unique(y, lbits);
    StateInRange(lbits, count, 0);
    var from := HighBits(lbits, count, y);
    q := from - count;
    StateInRange(lbits, count, q);
    ReachesIsShift(lbits, count, q, x);
  }

  /** The high bits of y that make a number from count up to, but not including, twice count. */
  lemma HighBits(lbits: nat, count: nat, y: nat) returns (from: nat)
    requires count >= 1 && y >= count && y >= 1 && Log2(y) == lbits && Log2(count) <= lbits
    ensures count <= from < 2 * count && Log2(from) <= lbits && Shr(y, lbits - Log2(from)) == from
  {
    var k := Log2(count);
    Log2Bounds(count);
    from := Shr(y, lbits - k);
    ShrLog2(y, lbits - k);
    Log2Bounds(from);
    if from < count {
      var n := lbits - k - 1;
      ShrLast(y, n);
      ShrLog2(y, n);
      from := Shr(y, n);
      Log2Bounds(from);
    }
  }

  /** And from no other. */
  lemma ReachesOnce(lbits: nat, count: nat, q: nat, r: nat, x: nat)
    requires 1 <= count <= Pow2(lbits) && x < Pow2(lbits) && q < r < count
    requires Reaches(lbits, count, q, x)
    ensures !Reaches(lbits, count, r, x)
  {
    if Reaches(lbits, count, r, x) {
      var y := Pow2(lbits) + x;
      ReachesIsShift(lbits, count, q, x);
      ReachesIsShift(lbits, count, r, x);
      Log2Mono(count + q, count + r);
      Log2Double(count + q, count + r);
      if Log2(count + q) < Log2(count + r) {
        ShrLast(y, StepBits(lbits, count + r));
      }
    }
  }

  lemma Log2Double(m: nat, n: nat)
    requires 1 <= m <= n < 2 * m
    ensures Log2(n) <= Log2(m) + 1
  {
    if n >= 2 { Log2Mono(n / 2, m); }
  }
}
