/** The table filler: one symbol at a time into four bucket pointers, and the whole table. */
module TansBuild {
  import opened Bits
  import opened TansSpec
  import opened TansBuckets
  import opened TansTable
  import opened TansFill

  // ----- what filling in one symbol does

  ghost predicate InRun(p: seq<nat>, cum: nat, count: nat, r: nat, t: nat)
    requires |p| == 4 && r < 4
  {
    p[r] <= t < p[r] + RunLen(cum, count, r)
  }

  /** The runs to be written, one at every bucket pointer, lie one behind the other. */
  ghost predicate RunsApart(p: seq<nat>, cum: nat, count: nat, length: nat) {
    && |p| == 4
    && (forall r, s :: 0 <= r < s < 4 ==> p[r] + RunLen(cum, count, r) <= p[s])
    && (forall r :: 0 <= r < 4 ==> p[r] + RunLen(cum, count, r) <= length)
  }

  /** The run of bucket r holds the states that follow those of the buckets before it. */
  ghost predicate RunHolds(s: seq<Entry>, p: seq<nat>, lbits: nat, sym: nat, cum: nat, count: nat, r: nat)
    requires 1 <= count <= Pow2(lbits) && RunsApart(p, cum, count, |s|) && r < 4
  {
    RunsMono(cum, count, r + 1);
    HoldsStates(s, p[r], RunLen(cum, count, r), lbits, sym, count, RunsBefore(cum, count, r))
  }

  /** The first n runs are written and nothing else is changed. */
  ghost predicate SymbolWritten(before: seq<Entry>, after: seq<Entry>, p: seq<nat>,
                                lbits: nat, sym: nat, cum: nat, count: nat, n: nat)
    requires 1 <= count <= Pow2(lbits) && RunsApart(p, cum, count, |before|) && n <= 4
  {
    && |after| == |before|
    && (forall r :: 0 <= r < n ==> RunHolds(after, p, lbits, sym, cum, count, r))
    && (forall t :: 0 <= t < |before| && (forall r :: 0 <= r < n ==> !InRun(p, cum, count, r, t))
          ==> after[t] == before[t])
  }

  ghost predicate Advanced(p: seq<nat>, q: seq<nat>, cum: nat, count: nat, n: nat)
    requires n <= 4
  {
    && |p| == |q| == 4
    && (forall r :: 0 <= r < 4 ==> q[r] == if r < n then p[r] + RunLen(cum, count, r) else p[r])
  }

  /** Writing the next run leaves the earlier ones alone. */
  lemma OneMoreRun(before: seq<Entry>, mid: seq<Entry>, after: seq<Entry>, p: seq<nat>,
                   lbits: nat, sym: nat, cum: nat, count: nat, n: nat)
    requires 1 <= count <= Pow2(lbits) && RunsApart(p, cum, count, |before|) && n < 4
    requires SymbolWritten(before, mid, p, lbits, sym, cum, count, n)
    requires |after| == |before| && RunHolds(after, p, lbits, sym, cum, count, n)
    requires forall t :: 0 <= t < |before| && !InRun(p, cum, count, n, t) ==> after[t] == mid[t]
    ensures SymbolWritten(before, after, p, lbits, sym, cum, count, n + 1)
  {
    hide RunLen, RunsBefore, StateAt, Pow2;
    forall r | 0 <= r < n ensures RunHolds(after, p, lbits, sym, cum, count, r) {
      assert RunHolds(mid, p, lbits, sym, cum, count, r);
      RunsMono(cum, count, r + 1);
      forall t | p[r] <= t < p[r] + RunLen(cum, count, r) ensures after[t] == mid[t] {
        assert !InRun(p, cum, count, n, t);
      }
    }
    forall t | 0 <= t < |before| && (forall r :: 0 <= r < n + 1 ==> !InRun(p, cum, count, r, t))
      ensures after[t] == before[t]
    {
      assert !InRun(p, cum, count, n, t);
    }
  }

  // ----- a symbol of more than four states

  /** Where the progressions stand before state q; the countdown runs to the end of the current one. */
  ghost predicate Progress(lbits: nat, sym: nat, count: nat, q: nat, switched: bool,
                           entry64: nat, entry64inc: nat, countdown: int)
  {
    && InProgress(lbits, count, q, switched) && countdown >= 0
    && (if switched then q + countdown >= count else q + countdown == Threshold(count))
    && entry64 == Word(ProgressEntry(lbits, sym, count, q, switched))
    && entry64inc == Word(Entry(0, 0, 0, ProgressStep(lbits, count, switched)))
  }

  lemma StartLow(lbits: nat, sym: nat, count: nat)
    requires 1 <= count && Log2(count) <= lbits
    ensures var nb := StepBits(lbits, count);
      LowEntry(lbits, sym, count, 0) == Entry(Pow2(nb) - 1, nb, sym, Low(Shl(count, nb), lbits))
    ensures Threshold(count) == Pow2(Log2(count) + 1) - count
  {
    hide Low, Shl;
  }

  /** The step from one progression to the other. */
  lemma Switch(lbits: nat, sym: nat, count: nat)
    requires 1 <= count && Log2(count) < lbits
    ensures var nb := StepBits(lbits, count);
      && HighEntry(lbits, sym, count, Threshold(count)) == Entry((Pow2(nb) - 1) / 2, nb - 1, sym, 0)
      && Word(Entry(0, 0, 0, Pow2(nb))) / 2 == Word(Entry(0, 0, 0, Pow2(nb - 1)))
  {
    var nb := StepBits(lbits, count);
    HalveTop(Pow2(nb));
  }

  /** Two arithmetic progressions, cut into four runs. */
  method LargeSymbol(table: array<Entry>, bucketPtr: array<nat>, lbits: nat, sym: nat, cumulative: nat, count: nat)
    requires 4 < count <= Pow2(lbits) && lbits <= L_BITS_MAX && sym < 256
    requires RunsApart(bucketPtr[..], cumulative, count, table.Length)
    modifies table, bucketPtr
    ensures SymbolWritten(old(table[..]), table[..], old(bucketPtr[..]), lbits, sym, cumulative, count, 4)
    ensures Advanced(old(bucketPtr[..]), bucketPtr[..], cumulative, count, 4)
  {
    hide LowEntry, HighEntry, Word, Pow2, Log2, Threshold, SymbolWritten, RunLen, RunsBefore, Shl, Low;
    ghost var p0 := bucketPtr[..];
    RunsFit(lbits, count);
    StartLow(lbits, sym, count);
    var bsrStart := Log2(count);
    var numBits := lbits - bsrStart;
    var countdown: int := Pow2(bsrStart + 1) - count;
    var numBitsMask := Pow2(numBits) - 1;
    var entry64 := Word(Entry(numBitsMask, numBits, sym, Low(Shl(count, numBits), lbits)));
    var entry64inc := Word(Entry(0, 0, 0, Pow2(numBits)));
    ghost var switched := false;
    NothingYet(table[..], p0, lbits, sym, cumulative, count);
    RunsNext(cumulative, count, 0);
    var r := 0;
    while r < 4
      invariant 0 <= r <= 4
      invariant SymbolWritten(old(table[..]), table[..], p0, lbits, sym, cumulative, count, r)
      invariant Advanced(p0, bucketPtr[..], cumulative, count, r)
      invariant Progress(lbits, sym, count, RunsBefore(cumulative, count, r), switched, entry64, entry64inc, countdown)
    {
      ghost var before := table[..];
      ghost var q := RunsBefore(cumulative, count, r);
      RunsMono(cumulative, count, r + 1);
      RunsNext(cumulative, count, r);
      var runLen := RunLen(cumulative, count, r);
      var pdest := bucketPtr[r];
      if countdown < runLen {
        entry64 := FillProgress(table, pdest, countdown, entry64, entry64inc, lbits, sym, count, q, false);
        Switch(lbits, sym, count);
        entry64 := Word(Entry(numBitsMask / 2, numBits - 1, sym, 0));
        entry64inc := entry64inc / 2;
        ghost var mid := table[..];
        entry64 := FillProgress(table, pdest + countdown, runLen - countdown, entry64, entry64inc, lbits, sym, count,
                                q + countdown, true);
        JoinRuns(mid, table[..], pdest, countdown, runLen, lbits, sym, count, q);
        switched := true;
        countdown := count;
      } else {
        entry64 := FillProgress(table, pdest, runLen, entry64, entry64inc, lbits, sym, count, q, switched);
        countdown := countdown - runLen;
      }
      OneMoreRun(old(table[..]), before, table[..], p0, lbits, sym, cumulative, count, r);
      bucketPtr[r] := pdest + runLen;
      r := r + 1;
    }
  }

  lemma NothingYet(s: seq<Entry>, p: seq<nat>, lbits: nat, sym: nat, cum: nat, count: nat)
    requires 1 <= count <= Pow2(lbits) && RunsApart(p, cum, count, |s|)
    ensures SymbolWritten(s, s, p, lbits, sym, cum, count, 0)
  {
  }

  lemma RunsNext(cum: nat, count: nat, r: nat)
    requires r < 4
    ensures RunsBefore(cum, count, r + 1) == RunsBefore(cum, count, r) + RunLen(cum, count, r)
    ensures r == 0 ==> RunsBefore(cum, count, r) == 0
  {
  }

  lemma JoinRuns(mid: seq<Entry>, s: seq<Entry>, p: nat, m: nat, n: nat, lbits: nat, sym: nat, count: nat, q: nat)
    requires 1 <= count <= Pow2(lbits) && m <= n && q + n <= count && p + n <= |s| == |mid|
    requires HoldsStates(mid, p, m, lbits, sym, count, q)
    requires HoldsStates(s, p + m, n - m, lbits, sym, count, q + m)
    requires forall t :: 0 <= t < |s| && !(p + m <= t < p + n) ==> s[t] == mid[t]
    ensures HoldsStates(s, p, n, lbits, sym, count, q)
  {
    hide StateAt;
  }

  // ----- a symbol of at most four states

  predicate Set(mask: bv32, r: nat)
    requires r < 4
  {
    mask & (1 << r) != 0
  }

  /** The lowest one bit, in a word that has one among the lowest four. */
  function TrailingZeroCount(mask: bv32): (r: nat)
    requires mask & 15 != 0
    ensures r < 4 && Set(mask, r) && forall s :: 0 <= s < r ==> !Set(mask, s)
  {
    if mask & 1 != 0 then 0 else if mask & 2 != 0 then 1 else if mask & 4 != 0 then 2 else 3
  }

  lemma ClearLowest(mask: bv32)
    requires mask & 15 != 0
    ensures forall s :: 0 <= s < 4 ==> Set(mask & (mask - 1), s) == (Set(mask, s) && s != TrailingZeroCount(mask))
  {
  }

  /** The buckets that get a state of a small symbol, as a set of bits. */
  function BucketMask(base: nat, count: nat): bv32
    requires base < 4 && 1 <= count <= 4
  {
    var mask: bv32 := ((1 << count) - 1) << base;
    mask | (mask >> 4)
  }

  lemma BucketMaskRuns(cum: nat, count: nat, r: nat)
    requires 1 <= count <= 4 && r < 4
    ensures RunLen(cum, count, r) == if Set(BucketMask(cum % 4, count), r) then 1 else 0
  {
    var m := cum % 4;
    Residue(cum, m, count, r);
    assert RunLen(cum, count, r) == if (count + (if m + 3 - r < 4 then m + 3 - r else m - 1 - r)) >= 4 then 1 else 0;
    if count == 1 { MaskOf1(m, r); }
    else if count == 2 { MaskOf2(m, r); }
    else if count == 3 { MaskOf3(m, r); }
    else { MaskOf4(m, r); }
  }

  lemma MaskOf1(m: nat, r: nat)
    requires m < 4 && r < 4
    ensures Set(BucketMask(m, 1), r) <==> r == m
  {
  }

  lemma MaskOf2(m: nat, r: nat)
    requires m < 4 && r < 4
    ensures Set(BucketMask(m, 2), r) <==> (r == m || r == m + 1 || r + 3 == m)
  {
  }

  lemma MaskOf3(m: nat, r: nat)
    requires m < 4 && r < 4
    ensures Set(BucketMask(m, 3), r) <==> (r != m - 1 && r != m + 3)
  {
  }

  lemma MaskOf4(m: nat, r: nat)
    requires m < 4 && r < 4
    ensures Set(BucketMask(m, 4), r)
  {
  }

  /** Runs without entries are written already. */
  lemma {:induction false} EmptyRuns(before: seq<Entry>, s: seq<Entry>, p: seq<nat>, lbits: nat, sym: nat, cum: nat,
                                     count: nat, n: nat, m: nat)
    requires 1 <= count <= Pow2(lbits) && RunsApart(p, cum, count, |before|) && n <= m <= 4
    requires SymbolWritten(before, s, p, lbits, sym, cum, count, n)
    requires forall r :: n <= r < m ==> RunLen(cum, count, r) == 0
    ensures SymbolWritten(before, s, p, lbits, sym, cum, count, m)
    ensures RunsBefore(cum, count, m) == RunsBefore(cum, count, n)
  {
    hide RunLen, Pow2, StateAt;
    if n < m {
      EmptyRuns(before, s, p, lbits, sym, cum, count, n, m - 1);
      RunsNext(cum, count, m - 1);
      OneMoreRun(before, s, s, p, lbits, sym, cum, count, m - 1);
    }
  }

  /** The ones among the four lowest bits are the buckets from n on that still get a state. */
  ghost predicate MaskLeft(mask: bv32, cum: nat, count: nat, n: nat) {
    && (forall r :: 0 <= r < 4 ==> (Set(mask, r) <==> r >= n && RunLen(cum, count, r) == 1))
    && (forall r :: 0 <= r < 4 ==> RunLen(cum, count, r) <= 1)
  }

  lemma WholeMask(cum: nat, count: nat)
    requires 1 <= count <= 4
    ensures MaskLeft(BucketMask(cum % 4, count), cum, count, 0)
  {
    hide RunLen, BucketMask;
    forall r | 0 <= r < 4 ensures RunLen(cum, count, r) == if Set(BucketMask(cum % 4, count), r) then 1 else 0 {
      BucketMaskRuns(cum, count, r);
    }
  }

  lemma {:induction false} NoRunsLeft(cum: nat, count: nat, n: nat, m: nat)
    requires n <= m <= 4 && forall r :: n <= r < m ==> RunLen(cum, count, r) == 0
    ensures RunsBefore(cum, count, m) == RunsBefore(cum, count, n)
  {
    hide RunLen;
    if n < m { NoRunsLeft(cum, count, n, m - 1); }
  }

  lemma NextBucket(mask: bv32, cum: nat, count: nat, n: nat)
    requires MaskLeft(mask, cum, count, n) && n <= 4 && RunsBefore(cum, count, n) < count
    ensures mask & 15 != 0
    ensures var r := TrailingZeroCount(mask);
      && n <= r && RunLen(cum, count, r) == 1
      && (forall s :: n <= s < r ==> RunLen(cum, count, s) == 0)
      && MaskLeft(mask & (mask - 1), cum, count, r + 1)
  {
    hide RunLen, RunsBefore, TrailingZeroCount;
    if mask & 15 == 0 {
      AllClear(mask);
      NoRunsLeft(cum, count, n, 4);
      RunsAddUp(cum, count);
    }
    ClearLowest(mask);
  }

  lemma AllClear(mask: bv32)
    requires mask & 15 == 0
    ensures forall r :: 0 <= r < 4 ==> !Set(mask, r)
  {
  }

  /** One state at a time, the buckets taken from the mask in increasing order. */
  method SmallSymbol(table: array<Entry>, bucketPtr: array<nat>, lbits: nat, sym: nat, cumulative: nat, count: nat)
    requires 1 <= count <= 4 && count <= Pow2(lbits) && lbits <= L_BITS_MAX && sym < 256
    requires RunsApart(bucketPtr[..], cumulative, count, table.Length)
    modifies table, bucketPtr
    ensures SymbolWritten(old(table[..]), table[..], old(bucketPtr[..]), lbits, sym, cumulative, count, 4)
    ensures Advanced(old(bucketPtr[..]), bucketPtr[..], cumulative, count, 4)
  {
    hide SymbolWritten, RunLen, RunsBefore, Pow2, Log2, Shl, Low, BucketMask, TrailingZeroCount, MaskLeft;
    ghost var p0 := bucketPtr[..];
    var mask := BucketMask(cumulative % 4, count);
    WholeMask(cumulative, count);
    NothingYet(table[..], p0, lbits, sym, cumulative, count);
    RunsNext(cumulative, count, 0);
    ghost var n := 0;
    var c := 0;
    while c < count
      invariant 0 <= c <= count && 0 <= n <= 4 && RunsBefore(cumulative, count, n) == c
      invariant SymbolWritten(old(table[..]), table[..], p0, lbits, sym, cumulative, count, n)
      invariant Advanced(p0, bucketPtr[..], cumulative, count, n)
      invariant MaskLeft(mask, cumulative, count, n)
    {
      ghost var before := table[..];
      NextBucket(mask, cumulative, count, n);
      var r := TrailingZeroCount(mask);
      mask := mask & (mask - 1);
      EmptyRuns(old(table[..]), before, p0, lbits, sym, cumulative, count, n, r);
      RunsNext(cumulative, count, r);
      var pdest := bucketPtr[r];
      bucketPtr[r] := pdest + 1;
      var fromState := count + c;
      StateInRange(lbits, count, c);
      var numBits := lbits - Log2(fromState);
      table[pdest] := Entry(Pow2(numBits) - 1, numBits, sym, Low(Shl(fromState, numBits), lbits));
      OneMoreRun(old(table[..]), before, table[..], p0, lbits, sym, cumulative, count, r);
      n := r + 1;
      c := c + 1;
    }
    RunsAddUp(cumulative, count);
    NoneLeft(cumulative, count, n);
    EmptyRuns(old(table[..]), table[..], p0, lbits, sym, cumulative, count, n, 4);
  }

  /** Once all states are placed, the remaining buckets get none. */
  lemma NoneLeft(cum: nat, count: nat, n: nat)
    requires n <= 4 && RunsBefore(cum, count, n) == count
    ensures forall r :: n <= r < 4 ==> RunLen(cum, count, r) == 0
  {
    hide RunLen;
    RunsAddUp(cum, count);
    forall r | n <= r < 4 ensures RunLen(cum, count, r) == 0 {
      RunsGrow(cum, count, n, r);
      RunsGrow(cum, count, r + 1, 4);
    }
  }

  // ----- the whole table

  /** The bucket pointers once the states below cum are dealt out. */
  ghost predicate Pointers(p: seq<nat>, total: nat, cum: nat) {
    && |p| == 4
    && (forall r :: 0 <= r < 4 ==> p[r] == BucketStart(total, r) + InBucket(cum, r))
  }

  lemma PointersApart(p: seq<nat>, total: nat, cum: nat, count: nat)
    requires Pointers(p, total, cum) && cum + count <= total
    ensures RunsApart(p, cum, count, total)
    ensures forall r :: 0 <= r < 4 ==> p[r] + RunLen(cum, count, r) == BucketStart(total, r) + InBucket(cum + count, r)
  {
    hide RunLen, InBucket, BucketStart;
    forall r | 0 <= r < 4
      ensures p[r] + RunLen(cum, count, r) == BucketStart(total, r) + InBucket(cum + count, r) <= total
    {
      RunInBucket(p, total, cum, count, r, 4);
    }
    forall r, s | 0 <= r < s < 4 ensures p[r] + RunLen(cum, count, r) <= p[s] {
      RunInBucket(p, total, cum, count, r, s);
    }
  }

  /** A run stays inside its bucket, before the start of any later one. */
  lemma RunInBucket(p: seq<nat>, total: nat, cum: nat, count: nat, r: nat, s: nat)
    requires Pointers(p, total, cum) && cum + count <= total && r < s <= 4
    ensures p[r] + RunLen(cum, count, r) == BucketStart(total, r) + InBucket(cum + count, r)
    ensures InBucket(cum + count, r) <= InBucket(total, r)
    ensures p[r] + RunLen(cum, count, r) <= BucketStart(total, s) <= total
  {
    hide RunLen, InBucket, BucketStart;
    RunIsDifference(cum, count, r);
    InBucketMono(cum + count, total, r);
    StartStep(total, r);
    StartsGrow(total, r + 1, s);
    StartsGrow(total, s, 4);
    BucketsAddUp(total);
  }

  lemma StartStep(total: nat, r: nat)
    requires r < 4
    ensures BucketStart(total, r + 1) == BucketStart(total, r) + InBucket(total, r)
  {
  }

  /** The runs of symbol k are exactly its slots, in order. */
  lemma RunOwner(ls: seq<SymCount>, p: seq<nat>, k: nat, r: nat, t: nat)
    requires k < |ls| && r < 4 && Pointers(p, Sum(ls), Sum(ls[..k]))
    requires InRun(p, Sum(ls[..k]), ls[k].count, r, t)
    ensures OwnerAt(ls, t) == (k, RunsBefore(Sum(ls[..k]), ls[k].count, r) + t - p[r])
  {
    hide RunLen, InBucket, BucketStart, Sum, RunsBefore, Owner, StateNumber;
    var total, cum, count := Sum(ls), Sum(ls[..k]), ls[k].count;
    SumStep(ls, k);
    SumPrefix(ls, k + 1, |ls|);
    assert ls[..|ls|] == ls;
    RunInBucket(p, total, cum, count, r, 4);
    var i := t - BucketStart(total, r);
    OwnerUnique(ls, r, i, k);
    BucketUnique(total, t, r);
    StateNumberIs(ls, r, i);
  }

  lemma OwnerRun(ls: seq<SymCount>, p: seq<nat>, k: nat, t: nat) returns (r: nat)
    requires t < Sum(ls) && OwnerAt(ls, t).0 == k && Pointers(p, Sum(ls), Sum(ls[..k]))
    ensures r < 4 && InRun(p, Sum(ls[..k]), ls[k].count, r, t)
  {
    hide InBucket, BucketStart, Sum, RunLen;
    BucketsAddUp(Sum(ls));
    r := BucketOf(Sum(ls), t, 4);
    SumStep(ls, k);
    RunIsDifference(Sum(ls[..k]), ls[k].count, r);
  }

  /** The slots of the singles and of the first k other symbols are filled in. */
  ghost predicate FilledIn(s: seq<Entry>, lbits: nat, ls: seq<SymCount>, singles: seq<nat>, k: nat)
    requires CountsOk(lbits, ls, singles) && |s| == Pow2(lbits)
  {
    forall t :: 0 <= t < |s| && (OwnerAt(ls, t).0 < k || t >= Sum(ls)) ==> s[t] == TableEntry(lbits, ls, singles, t)
  }

  lemma OneMoreSymbol(before: seq<Entry>, after: seq<Entry>, p: seq<nat>, lbits: nat, ls: seq<SymCount>,
                      singles: seq<nat>, k: nat)
    requires CountsOk(lbits, ls, singles) && k < |ls| && |before| == Pow2(lbits) && ls[k].count <= Pow2(lbits)
    requires Pointers(p, Sum(ls), Sum(ls[..k])) && RunsApart(p, Sum(ls[..k]), ls[k].count, |before|)
    requires FilledIn(before, lbits, ls, singles, k)
    requires SymbolWritten(before, after, p, lbits, ls[k].sym, Sum(ls[..k]), ls[k].count, 4)
    ensures FilledIn(after, lbits, ls, singles, k + 1)
  {
    hide Sum, RunLen, RunsBefore, OwnerAt, Pow2, StateEntry, Pointers;
    var cum, count := Sum(ls[..k]), ls[k].count;
    forall t | 0 <= t < |after| && (OwnerAt(ls, t).0 < k + 1 || t >= Sum(ls))
      ensures after[t] == TableEntry(lbits, ls, singles, t)
    {
      if t < Sum(ls) && OwnerAt(ls, t).0 == k {
        var r := OwnerRun(ls, p, k, t);
        RunOwner(ls, p, k, r, t);
        RunsMono(cum, count, r + 1);
        assert RunHolds(after, p, lbits, ls[k].sym, cum, count, r);
      } else {
        forall r | 0 <= r < 4 ensures !InRun(p, cum, count, r, t) {
          if InRun(p, cum, count, r, t) { RunOwner(ls, p, k, r, t); }
        }
        assert after[t] == before[t];
      }
    }
  }

  lemma BucketSize(total: nat, r: nat)
    requires r < 4
    ensures InBucket(total, r) == total / 4 + (if r < total % 4 then 1 else 0)
  {
  }

  lemma SingleEntry(lbits: nat, ls: seq<SymCount>, singles: seq<nat>, t: nat)
    requires CountsOk(lbits, ls, singles) && Sum(ls) <= t < Pow2(lbits)
    ensures TableEntry(lbits, ls, singles, t) == Entry(Pow2(lbits) - 1, lbits, singles[t - Sum(ls)], 0)
  {
    hide Sum, Shl, Low;
    OwnerInRange(lbits, ls, singles, t);
    IntervalStart(lbits, 1);
  }

  /** Fills the whole table: every slot gets the entry of the state it stands for. */
  method Fill(table: array<Entry>, lbits: nat, larger: seq<SymCount>, singles: seq<nat>)
    requires CountsOk(lbits, larger, singles) && table.Length == Pow2(lbits)
    modifies table
    ensures forall t :: 0 <= t < table.Length ==> table[t] == TableEntry(lbits, larger, singles, t)
  {
    hide Sum, Pow2, RunLen, InBucket, BucketStart, TableEntry, OwnerAt, CountsOk, SymbolWritten, RunsApart;
    CountsFacts(lbits, larger, singles);
    ghost var total := Sum(larger);
    var bucketTotal := table.Length - |singles|;
    var bucketPtr := new nat[4];
    StartBuckets(bucketPtr, bucketTotal);
    var j := 0;
    while j < |singles|
      invariant 0 <= j <= |singles| && Pointers(bucketPtr[..], total, 0)
      invariant forall t :: total <= t < total + j ==> table[t] == TableEntry(lbits, larger, singles, t)
    {
      SingleEntry(lbits, larger, singles, total + j);
      table[bucketTotal + j] := Entry(Pow2(lbits) - 1, lbits, singles[j], 0);
      j := j + 1;
    }
    var cumulativeCount := 0;
    var k := 0;
    assert larger[..0] == [];
    SumEmpty();
    while k < |larger|
      invariant 0 <= k <= |larger| && cumulativeCount == Sum(larger[..k])
      invariant Pointers(bucketPtr[..], total, cumulativeCount)
      invariant FilledIn(table[..], lbits, larger, singles, k)
    {
      var sym, count := larger[k].sym, larger[k].count;
      ghost var before, p := table[..], bucketPtr[..];
      SumStep(larger, k);
      SumPrefix(larger, k + 1, |larger|);
      assert larger[..|larger|] == larger;
      CountInRange(lbits, larger, singles, k, 0);
      PointersApart(p, total, cumulativeCount, count);
      LongerTable(p, cumulativeCount, count, total, table.Length);
      if count <= 4 {
        SmallSymbol(table, bucketPtr, lbits, sym, cumulativeCount, count);
      } else {
        LargeSymbol(table, bucketPtr, lbits, sym, cumulativeCount, count);
      }
      OneMoreSymbol(before, table[..], p, lbits, larger, singles, k);
      cumulativeCount := cumulativeCount + count;
      k := k + 1;
    }
    forall t | 0 <= t < table.Length ensures table[t] == TableEntry(lbits, larger, singles, t) {
      assert OwnerAt(larger, t).0 < |larger| || t >= total;
      assert table[..][t] == TableEntry(lbits, larger, singles, t);
    }
  }

  lemma SumEmpty()
    ensures Sum([]) == 0
  {
  }

  lemma LongerTable(p: seq<nat>, cum: nat, count: nat, m: nat, n: nat)
    requires RunsApart(p, cum, count, m) && m <= n
    ensures RunsApart(p, cum, count, n)
  {
  }

  lemma CountsFacts(lbits: nat, ls: seq<SymCount>, singles: seq<nat>)
    requires CountsOk(lbits, ls, singles)
    ensures lbits <= L_BITS_MAX && Sum(ls) + |singles| == Pow2(lbits)
    ensures forall k :: 0 <= k < |ls| ==> ls[k].count >= 2 && ls[k].sym < 256
  {
  }

  /** The four buckets are as even as they can be, the longer ones first. */
  method StartBuckets(bucketPtr: array<nat>, bucketTotal: nat)
    requires bucketPtr.Length == 4
    modifies bucketPtr
    ensures Pointers(bucketPtr[..], bucketTotal, 0)
  {
    hide BucketStart;
    var bucketEven, bucketRemainder := bucketTotal / 4, bucketTotal % 4;
    var bucketCum := 0;
    var r := 0;
    StartZero(bucketTotal);
    while r < 4
      invariant 0 <= r <= 4 && bucketCum == BucketStart(bucketTotal, r)
      invariant forall s :: 0 <= s < r ==> bucketPtr[s] == BucketStart(bucketTotal, s)
    {
      bucketPtr[r] := bucketCum;
      BucketSize(bucketTotal, r);
      StartStep(bucketTotal, r);
      bucketCum := bucketCum + bucketEven;
      if r < bucketRemainder { bucketCum := bucketCum + 1; }
      r := r + 1;
    }
  }

  lemma StartZero(total: nat)
    ensures BucketStart(total, 0) == 0
  {
  }
}
