/** Filling the decoding table in place, with entries held as 64-bit words that are stepped by
    adding to their topmost field. */
module TansFill {
  import opened Bits
  import opened TansSpec
  import opened TansTable

  // ----- entries as 64-bit words

  predicate EntryFits(e: Entry) {
    e.mask < 0x1_0000_0000 && e.len < 256 && e.sym < 256 && e.nextst < 0x1_0000
  }

  /** mask, len, sym and nextst at bits 0, 32, 40 and 48. */
  function Word(e: Entry): nat {
    e.mask + 0x1_0000_0000 * (e.len + 0x100 * (e.sym + 0x100 * e.nextst))
  }

  function Unword(w: nat): Entry {
    var hi := w / 0x1_0000_0000;
    Entry(w % 0x1_0000_0000, hi % 0x100, (hi / 0x100) % 0x100, (hi / 0x1_0000) % 0x1_0000)
  }

  lemma UnwordWord(e: Entry)
    requires EntryFits(e)
    ensures Unword(Word(e)) == e
  {
    var hi := e.len + 0x100 * (e.sym + 0x100 * e.nextst);
    assert Word(e) / 0x1_0000_0000 == hi;
    assert hi / 0x100 == e.sym + 0x100 * e.nextst;
    assert hi / 0x1_0000 == e.nextst by { assert hi == 0x1_0000 * e.nextst + (e.len + 0x100 * e.sym); }
  }

  /** Adding a word that is zero below the topmost field adds there only. */
  lemma AddTop(e: Entry, step: nat)
    requires EntryFits(e) && e.nextst + step < 0x1_0000
    ensures Add64(Word(e), Word(Entry(0, 0, 0, step))) == Word(e.(nextst := e.nextst + step))
  {
    hide Word;
    WordBound(e.(nextst := e.nextst + step));
    WordSum(e, step);
  }

  lemma WordSum(e: Entry, step: nat)
    ensures Word(e) + Word(Entry(0, 0, 0, step)) == Word(e.(nextst := e.nextst + step))
  {
  }

  lemma WordBound(e: Entry)
    requires EntryFits(e)
    ensures Word(e) < 0x1_0000_0000_0000_0000
  {
  }

  /** Shifting such a word right halves it. */
  lemma HalveTop(step: nat)
    requires step % 2 == 0
    ensures Word(Entry(0, 0, 0, step)) / 2 == Word(Entry(0, 0, 0, step / 2))
  {
  }

  function Times(a: nat, b: nat): nat { a * b }

  function Stepped(e: Entry, i: nat, step: nat): Entry {
    e.(nextst := e.nextst + Times(i, step))
  }

  /** Writes n copies of the entry, each with step more in nextst than the one before. */
  method FillRun(table: array<Entry>, p: nat, n: nat, entry64: nat, entry64inc: nat, ghost e: Entry, ghost step: nat)
      returns (w: nat)
    requires p + n <= table.Length
    requires EntryFits(Stepped(e, n, step))
    requires entry64 == Word(e) && entry64inc == Word(Entry(0, 0, 0, step))
    modifies table
    ensures forall t :: p <= t < p + n ==> table[t] == Stepped(e, t - p, step)
    ensures forall t :: 0 <= t < table.Length && !(p <= t < p + n) ==> table[t] == old(table[t])
    ensures w == Word(Stepped(e, n, step))
  {
    hide Word, Unword, Add64, Times;
    w := entry64;
    var i := 0;
    MulSteps(0, n, step);
    while i < n
      invariant 0 <= i <= n && EntryFits(Stepped(e, i, step))
      invariant forall t :: p <= t < p + i ==> table[t] == Stepped(e, t - p, step)
      invariant forall t :: 0 <= t < table.Length && !(p <= t < p + i) ==> table[t] == old(table[t])
      invariant w == Word(Stepped(e, i, step))
    {
      UnwordWord(Stepped(e, i, step));
      MulSteps(i, n, step);
      AddTop(Stepped(e, i, step), step);
      table[p + i] := Unword(w);
      w := Add64(w, entry64inc);
      i := i + 1;
    }
  }

  lemma MulSteps(i: nat, n: nat, step: nat)
    requires i <= n
    ensures Times(i + 1, step) == Times(i, step) + step && Times(i, step) <= Times(n, step)
    ensures i < n ==> Times(i + 1, step) <= Times(n, step)
    ensures Times(0, step) == 0
  {
    MulGrows(i, n, step);
    if i < n { MulGrows(i + 1, n, step); }
  }

  lemma MulGrows(i: nat, n: nat, step: nat)
    requires i <= n
    ensures 0 <= i * step <= n * step
  {
    assert (n - i) * step >= 0;
  }

  // ----- the entries of one symbol in order

  /** How many states of a symbol read one bit more than the rest. */
  function Threshold(count: nat): nat
    requires count >= 1
  {
    Log2Bounds(count);
    2 * Pow2(Log2(count)) - count
  }

  /** The run of entries below the threshold, continued. */
  function LowEntry(lbits: nat, sym: nat, count: nat, q: nat): Entry
    requires count >= 1 && Log2(count) <= lbits
  {
    var nb := StepBits(lbits, count);
    Entry(Pow2(nb) - 1, nb, sym, Low(Shl(count, nb), lbits) + Times(q, Pow2(nb)))
  }

  /** The run from the threshold on. */
  function HighEntry(lbits: nat, sym: nat, count: nat, q: nat): Entry
    requires count >= 1 && Log2(count) < lbits && q >= Threshold(count)
  {
    var nb := StepBits(lbits, count) - 1;
    Entry(Pow2(nb) - 1, nb, sym, Times(q - Threshold(count), Pow2(nb)))
  }

  lemma LowEntries(lbits: nat, sym: nat, count: nat, q: nat)
    requires 1 <= count <= Pow2(lbits) && q < count && q < Threshold(count)
    ensures Log2(count) <= lbits && Log2(count + q) <= lbits
    ensures StateEntry(lbits, sym, count, q) == LowEntry(lbits, sym, count, q)
  {
    Log2Bounds(count);
    Log2Unique(count + q, Log2(count));
    StateInRange(lbits, count, q);
    var nb := StepBits(lbits, count);
    IntervalStart(lbits, count);
    IntervalStart(lbits, count + q);
    ShlIsMul(count, nb);
    ShlIsMul(count + q, nb);
    assert (count + q) * Pow2(nb) == count * Pow2(nb) + q * Pow2(nb);
  }

  lemma HighEntries(lbits: nat, sym: nat, count: nat, q: nat)
    requires 1 <= count <= Pow2(lbits) && Threshold(count) <= q < count
    ensures Log2(count) < lbits && Log2(count + q) <= lbits
    ensures StateEntry(lbits, sym, count, q) == HighEntry(lbits, sym, count, q)
  {
    hide Shl, Low;
    var k := Log2(count);
    Log2Bounds(count);
    Log2Unique(count + q, k + 1);
    StateInRange(lbits, count, q);
    var nb := lbits - k - 1;
    IntervalStart(lbits, count + q);
    ShlIsMul(count + q, nb);
    Pow2Add(k + 1, nb);
    Distribute(Pow2(k + 1), q - Threshold(count), Pow2(nb));
  }

  lemma Distribute(a: nat, b: nat, p: nat)
    ensures (a + b) * p == a * p + b * p
  {
  }

  /** Where the low run stops. */
  lemma RunsFit(lbits: nat, count: nat)
    requires 1 <= count <= Pow2(lbits)
    ensures 1 <= Threshold(count) <= count && Log2(count) <= lbits
    ensures Threshold(count) < count ==> Log2(count) < lbits
  {
    Log2Bounds(count);
    StateInRange(lbits, count, 0);
  }

  lemma SmallStates(lbits: nat, n: nat)
    requires n <= lbits <= L_BITS_MAX
    ensures Pow2(n) <= Pow2(lbits) <= 2048
  {
    Pow2Mono(n, lbits);
    Pow2Mono(lbits, L_BITS_MAX);
    assert Pow2(11) == 2048;
  }

  /** Nothing overflows its field, not even one step after the last entry. */
  lemma LowFits(lbits: nat, sym: nat, count: nat, q: nat)
    requires 1 <= count <= Pow2(lbits) && lbits <= L_BITS_MAX && sym < 256 && q <= Threshold(count)
    ensures Log2(count) <= lbits && EntryFits(LowEntry(lbits, sym, count, q))
  {
    hide Low, Shl, Log2, Pow2;
    RunsFit(lbits, count);
    var nb := StepBits(lbits, count);
    SmallStates(lbits, nb);
    LowEntries(lbits, sym, count, 0);
    IntervalStart(lbits, count);
    LastLow(lbits, sym, count);
    MulGrows(q, Threshold(count), Pow2(nb));
  }

  lemma LastLow(lbits: nat, sym: nat, count: nat)
    requires 1 <= count <= Pow2(lbits)
    ensures Log2(count) <= lbits
    ensures LowEntry(lbits, sym, count, Threshold(count)).nextst <= Pow2(lbits)
  {
    hide Low, Shl, Log2, Pow2;
    RunsFit(lbits, count);
    var q := Threshold(count) - 1;
    LowEntries(lbits, sym, count, q);
    IntervalStart(lbits, count + q);
    Distribute(q, 1, Pow2(StepBits(lbits, count)));
  }

  lemma HighFits(lbits: nat, sym: nat, count: nat, q: nat)
    requires 1 <= count <= Pow2(lbits) && lbits <= L_BITS_MAX && sym < 256 && Threshold(count) <= q <= count
    requires Threshold(count) < count
    ensures Log2(count) < lbits && EntryFits(HighEntry(lbits, sym, count, q))
  {
    hide Low, Shl, Log2, Pow2;
    RunsFit(lbits, count);
    var nb := StepBits(lbits, count) - 1;
    SmallStates(lbits, nb);
    LastHigh(lbits, sym, count);
    MulGrows(q - Threshold(count), count - Threshold(count), Pow2(nb));
  }

  lemma LastHigh(lbits: nat, sym: nat, count: nat)
    requires 1 <= count <= Pow2(lbits) && Threshold(count) < count
    ensures Log2(count) < lbits
    ensures HighEntry(lbits, sym, count, count).nextst <= Pow2(lbits)
  {
    hide Low, Shl, Log2, Pow2;
    RunsFit(lbits, count);
    var q := count - 1;
    HighEntries(lbits, sym, count, q);
    IntervalStart(lbits, count + q);
    Distribute(q - Threshold(count), 1, Pow2(StepBits(lbits, count) - 1));
  }

  lemma LowStep(lbits: nat, sym: nat, count: nat, q: nat, i: nat)
    requires count >= 1 && Log2(count) <= lbits
    ensures var e, step := LowEntry(lbits, sym, count, q), Pow2(StepBits(lbits, count));
      Stepped(e, i, step) == LowEntry(lbits, sym, count, q + i)
  {
    hide Low, Shl, Pow2;
    Distribute(q, i, Pow2(StepBits(lbits, count)));
  }

  lemma HighStep(lbits: nat, sym: nat, count: nat, q: nat, i: nat)
    requires count >= 1 && Log2(count) < lbits && q >= Threshold(count)
    ensures var e, step := HighEntry(lbits, sym, count, q), Pow2(StepBits(lbits, count) - 1);
      Stepped(e, i, step) == HighEntry(lbits, sym, count, q + i)
  {
    hide Pow2;
    Distribute(q - Threshold(count), i, Pow2(StepBits(lbits, count) - 1));
  }

  // ----- the runs of one symbol

  ghost predicate HoldsStates(s: seq<Entry>, p: nat, n: nat, lbits: nat, sym: nat, count: nat, q: nat)
    requires 1 <= count <= Pow2(lbits) && q + n <= count && p + n <= |s|
  {
    forall t :: p <= t < p + n ==> s[t] == StateAt(lbits, sym, count, q + (t - p))
  }

  ghost function StateAt(lbits: nat, sym: nat, count: nat, q: nat): Entry
    requires 1 <= count <= Pow2(lbits) && q < count
  {
    StateInRange(lbits, count, q);
    StateEntry(lbits, sym, count, q)
  }

  /** The low progression, or the high one once it has been switched to. */
  ghost predicate InProgress(lbits: nat, count: nat, q: nat, switched: bool) {
    && 1 <= count <= Pow2(lbits) && lbits <= L_BITS_MAX && Log2(count) <= lbits
    && if switched then Log2(count) < lbits && Threshold(count) <= q <= count && Threshold(count) < count
       else q <= Threshold(count) <= count
  }

  ghost function ProgressEntry(lbits: nat, sym: nat, count: nat, q: nat, switched: bool): Entry
    requires InProgress(lbits, count, q, switched)
  {
    if switched then HighEntry(lbits, sym, count, q) else LowEntry(lbits, sym, count, q)
  }

  ghost function ProgressStep(lbits: nat, count: nat, switched: bool): nat
    requires count >= 1 && Log2(count) <= lbits && (switched ==> Log2(count) < lbits)
  {
    if switched then Pow2(StepBits(lbits, count) - 1) else Pow2(StepBits(lbits, count))
  }

  /** The n states from q on, all in one progression. */
  method FillProgress(table: array<Entry>, p: nat, n: nat, entry64: nat, entry64inc: nat,
                      ghost lbits: nat, ghost sym: nat, ghost count: nat, ghost q: nat, ghost switched: bool)
      returns (w: nat)
    requires InProgress(lbits, count, q, switched) && InProgress(lbits, count, q + n, switched) && sym < 256
    requires p + n <= table.Length && q + n <= count
    requires entry64 == Word(ProgressEntry(lbits, sym, count, q, switched))
    requires entry64inc == Word(Entry(0, 0, 0, ProgressStep(lbits, count, switched)))
    modifies table
    ensures HoldsStates(table[..], p, n, lbits, sym, count, q)
    ensures forall t :: 0 <= t < table.Length && !(p <= t < p + n) ==> table[t] == old(table[t])
    ensures w == Word(ProgressEntry(lbits, sym, count, q + n, switched))
  {
    hide LowEntry, HighEntry, Word, Pow2, Log2, StateEntry, Threshold, Times, Stepped;
    ghost var e, step := ProgressEntry(lbits, sym, count, q, switched), ProgressStep(lbits, count, switched);
    ProgressFits(lbits, sym, count, q + n, switched);
    forall i | 0 <= i <= n
      ensures Stepped(e, i, step) == ProgressEntry(lbits, sym, count, q + i, switched)
    {
      if switched { HighStep(lbits, sym, count, q, i); } else { LowStep(lbits, sym, count, q, i); }
    }
    w := FillRun(table, p, n, entry64, entry64inc, e, step);
    forall t | p <= t < p + n ensures table[t] == StateAt(lbits, sym, count, q + (t - p)) {
      if switched { HighEntries(lbits, sym, count, q + (t - p)); } else { LowEntries(lbits, sym, count, q + (t - p)); }
    }
  }

  lemma ProgressFits(lbits: nat, sym: nat, count: nat, q: nat, switched: bool)
    requires InProgress(lbits, count, q, switched) && sym < 256
    ensures EntryFits(ProgressEntry(lbits, sym, count, q, switched))
  {
    hide LowEntry, HighEntry, Pow2, Log2, Threshold;
    if switched { HighFits(lbits, sym, count, q); } else { LowFits(lbits, sym, count, q); }
  }
}
