/** Where the table holds the states: those of the single symbols last, the others dealt out in
    turn to four buckets that follow one another. */
module TansBuckets {
  import opened TansSpec

  /** How many of the numbers below n are r modulo 4. */
  function InBucket(n: nat, r: nat): nat
    requires r < 4
  {
    (n + 3 - r) / 4
  }

  /** How many of the count numbers from cum on are r modulo 4. */
  function RunLen(cum: nat, count: nat, r: nat): nat
    requires r < 4
  {
    (count + (cum + 3 - r) % 4) / 4
  }

  function RunsBefore(cum: nat, count: nat, r: nat): nat
    requires r <= 4
  {
    if r == 0 then 0 else RunsBefore(cum, count, r - 1) + RunLen(cum, count, r - 1)
  }

  /** The first slot of a bucket when total states are dealt out. */
  function BucketStart(total: nat, r: nat): nat
    requires r <= 4
  {
    if r == 0 then 0 else BucketStart(total, r - 1) + InBucket(total, r - 1)
  }

  function Sum(ls: seq<SymCount>): nat {
    if ls == [] then 0 else Sum(ls[..|ls| - 1]) + ls[|ls| - 1].count
  }

  lemma RunIsDifference(cum: nat, count: nat, r: nat)
    requires r < 4
    ensures InBucket(cum + count, r) == InBucket(cum, r) + RunLen(cum, count, r)
  {
    var a := cum + 3 - r;
    assert a == 4 * (a / 4) + a % 4;
  }

  lemma RunsAddUp(cum: nat, count: nat)
    ensures RunsBefore(cum, count, 4) == count
  {
    assert RunsBefore(cum, count, 1) == RunLen(cum, count, 0);
    assert RunsBefore(cum, count, 2) == RunsBefore(cum, count, 1) + RunLen(cum, count, 1);
    assert RunsBefore(cum, count, 3) == RunsBefore(cum, count, 2) + RunLen(cum, count, 2);
    FourRuns(cum % 4, cum, count);
  }

  lemma FourRuns(m: nat, cum: nat, count: nat)
    requires m == cum % 4
    ensures RunLen(cum, count, 0) + RunLen(cum, count, 1) + RunLen(cum, count, 2) + RunLen(cum, count, 3) == count
  {
    hide RunLen;
    Residue(cum, m, count, 0);
    Residue(cum, m, count, 1);
    Residue(cum, m, count, 2);
    Residue(cum, m, count, 3);
    FourQuarters(count);
    assert m == 0 || m == 1 || m == 2 || m == 3;
  }

  lemma Residue(cum: nat, m: nat, count: nat, r: nat)
    requires m == cum % 4 && r < 4
    ensures (cum + 3 - r) % 4 == if m + 3 - r < 4 then m + 3 - r else m - 1 - r
    ensures m <= r ==> RunLen(cum, count, r) == (count + (m + 3 - r)) / 4
    ensures m > r ==> RunLen(cum, count, r) == (count + (m - 1 - r)) / 4
  {
    assert cum == 4 * (cum / 4) + m;
  }

  lemma FourQuarters(n: nat)
    ensures (n + 3) / 4 + (n + 2) / 4 + (n + 1) / 4 + n / 4 == n
  {
    var q, m := n / 4, n % 4;
    assert n == 4 * q + m;
  }

  lemma BucketsAddUp(total: nat)
    ensures BucketStart(total, 4) == total
  {
    assert BucketStart(total, 1) == InBucket(total, 0);
    assert BucketStart(total, 2) == BucketStart(total, 1) + InBucket(total, 1);
    assert BucketStart(total, 3) == BucketStart(total, 2) + InBucket(total, 2);
    FourQuarters(total);
  }

  lemma RunsMono(cum: nat, count: nat, r: nat)
    requires r <= 4
    ensures RunsBefore(cum, count, r) <= count
  {
    RunsAddUp(cum, count);
    RunsGrow(cum, count, r, 4);
  }

  lemma {:induction false} RunsGrow(cum: nat, count: nat, r: nat, s: nat)
    requires r <= s <= 4
    ensures RunsBefore(cum, count, r) <= RunsBefore(cum, count, s)
  {
    if r < s { RunsGrow(cum, count, r, s - 1); }
  }

  // ----- the table

  /** Symbol and state number at place i of bucket r. */
  function Owner(ls: seq<SymCount>, r: nat, i: nat): (k: nat)
    requires r < 4 && i < InBucket(Sum(ls), r)
    ensures k < |ls|
    ensures InBucket(Sum(ls[..k]), r) <= i < InBucket(Sum(ls[..k + 1]), r)
  {
    var n := |ls| - 1;
    if i >= InBucket(Sum(ls[..n]), r) then assert ls[..n + 1] == ls; n
    else
      var k := Owner(ls[..n], r, i);
      assert ls[..n][..k] == ls[..k] && ls[..n][..k + 1] == ls[..k + 1];
      k
  }

  /** The number of the state there among the states of its symbol. */
  function StateNumber(ls: seq<SymCount>, r: nat, i: nat): (q: nat)
    requires r < 4 && i < InBucket(Sum(ls), r)
    ensures q < ls[Owner(ls, r, i)].count
  {
    var k := Owner(ls, r, i);
    var cum, count := Sum(ls[..k]), ls[k].count;
    SumStep(ls, k);
    RunIsDifference(cum, count, r);
    RunsMono(cum, count, r + 1);
    RunsBefore(cum, count, r) + i - InBucket(cum, r)
  }

  lemma SumStep(ls: seq<SymCount>, k: nat)
    requires k < |ls|
    ensures Sum(ls[..k + 1]) == Sum(ls[..k]) + ls[k].count
  {
    assert ls[..k + 1][..k] == ls[..k];
  }

  lemma {:induction false} SumPrefix(ls: seq<SymCount>, j: nat, k: nat)
    requires j <= k <= |ls|
    ensures Sum(ls[..j]) <= Sum(ls[..k])
  {
    if j < k {
      SumPrefix(ls, j, k - 1);
      SumStep(ls, k - 1);
    }
  }

  /** The place of a state: the inverse of Owner and StateNumber. */
  function PlaceOf(ls: seq<SymCount>, k: nat, q: nat): (p: (nat, nat))
    requires k < |ls| && q < ls[k].count
    ensures p.0 < 4 && p.1 < InBucket(Sum(ls), p.0)
    ensures Owner(ls, p.0, p.1) == k && StateNumber(ls, p.0, p.1) == q
  {
    var cum, count := Sum(ls[..k]), ls[k].count;
    RunsAddUp(cum, count);
    var r := RunOf(cum, count, q, 4);
    var i := InBucket(cum, r) + (q - RunsBefore(cum, count, r));
    RunIsDifference(cum, count, r);
    SumStep(ls, k);
    SumPrefix(ls, k + 1, |ls|);
    assert ls[..|ls|] == ls;
    OwnerUnique(ls, r, i, k);
    (r, i)
  }

  /** The bucket that state number q of a symbol goes to. */
  function RunOf(cum: nat, count: nat, q: nat, n: nat): (r: nat)
    requires n <= 4 && q < RunsBefore(cum, count, n)
    ensures r < n && RunsBefore(cum, count, r) <= q < RunsBefore(cum, count, r) + RunLen(cum, count, r)
  {
    if q >= RunsBefore(cum, count, n - 1) then n - 1 else RunOf(cum, count, q, n - 1)
  }

  lemma InBucketMono(m: nat, n: nat, r: nat)
    requires r < 4 && m <= n
    ensures InBucket(m, r) <= InBucket(n, r)
  {
  }

  lemma {:induction false} OwnerUnique(ls: seq<SymCount>, r: nat, i: nat, k: nat)
    requires r < 4 && k < |ls|
    requires InBucket(Sum(ls[..k]), r) <= i < InBucket(Sum(ls[..k + 1]), r)
    ensures i < InBucket(Sum(ls), r) && Owner(ls, r, i) == k
  {
    hide InBucket, Sum;
    assert ls[..|ls|] == ls;
    SumPrefix(ls, k + 1, |ls|);
    InBucketMono(Sum(ls[..k + 1]), Sum(ls), r);
    var o := Owner(ls, r, i);
    if o < k {
      SumPrefix(ls, o + 1, k);
      InBucketMono(Sum(ls[..o + 1]), Sum(ls[..k]), r);
    } else if k < o {
      SumPrefix(ls, k + 1, o);
      InBucketMono(Sum(ls[..k + 1]), Sum(ls[..o]), r);
    }
  }

  /** No two places hold the same state. */
  lemma PlaceUnique(ls: seq<SymCount>, r: nat, i: nat)
    requires r < 4 && i < InBucket(Sum(ls), r)
    ensures PlaceOf(ls, Owner(ls, r, i), StateNumber(ls, r, i)) == (r, i)
  {
    hide Owner, StateNumber, PlaceOf, InBucket, RunLen, Sum;
    var k, q := Owner(ls, r, i), StateNumber(ls, r, i);
    var p := PlaceOf(ls, k, q);
    var cum, count := Sum(ls[..k]), ls[k].count;
    StateNumberIs(ls, r, i);
    StateNumberIs(ls, p.0, p.1);
    if p.0 < r { RunsGrow(cum, count, p.0 + 1, r); }
    else if r < p.0 { RunsGrow(cum, count, r + 1, p.0); }
  }

  lemma StateNumberIs(ls: seq<SymCount>, r: nat, i: nat)
    requires r < 4 && i < InBucket(Sum(ls), r)
    ensures var k := Owner(ls, r, i);
            var cum, count, q := Sum(ls[..k]), ls[k].count, StateNumber(ls, r, i);
            && q == RunsBefore(cum, count, r) + i - InBucket(cum, r)
            && RunsBefore(cum, count, r) <= q < RunsBefore(cum, count, r + 1)
            && RunsBefore(cum, count, r + 1) == RunsBefore(cum, count, r) + RunLen(cum, count, r)
  {
    var k := Owner(ls, r, i);
    SumStep(ls, k);
    RunIsDifference(Sum(ls[..k]), ls[k].count, r);
  }
}
