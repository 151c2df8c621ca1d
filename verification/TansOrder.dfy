/** The order of the table, by counting: the states of all symbols in turn are dealt out to four buckets. */
module TansOrder {
  import opened TansSpec
  import opened TansBuckets
  import opened TansTable

  ghost function Residues(n: nat, r: nat): set<nat> {
    set x: nat | 0 <= x < n && x % 4 == r
  }

  /** How many of the numbers below n are r modulo 4. */
  ghost function Below(n: nat, r: nat): nat {
    |Residues(n, r)|
  }

  ghost function BelowAll(n: nat, r: nat): nat {
    if r == 0 then 0 else BelowAll(n, r - 1) + Below(n, r - 1)
  }

  lemma {:induction false} InBucketCounts(n: nat, r: nat)
    requires r < 4
    ensures InBucket(n, r) == Below(n, r)
  {
    if n == 0 {
      assert Residues(0, r) == {};
    } else {
      InBucketCounts(n - 1, r);
      assert Residues(n, r) == Residues(n - 1, r) + if (n - 1) % 4 == r then {n - 1} else {};
      NextInBucket(n - 1, r);
    }
  }

  lemma NextInBucket(n: nat, r: nat)
    requires r < 4
    ensures InBucket(n + 1, r) == InBucket(n, r) + if n % 4 == r then 1 else 0
  {
    var q, m := n / 4, n % 4;
    assert n == 4 * q + m;
  }

  lemma {:induction false} StartsCount(n: nat, r: nat)
    requires r <= 4
    ensures BucketStart(n, r) == BelowAll(n, r)
  {
    hide InBucket;
    if r > 0 {
      StartsCount(n, r - 1);
      InBucketCounts(n, r - 1);
    }
  }

  lemma {:induction false} RunsCount(cum: nat, count: nat, r: nat)
    requires r <= 4
    ensures RunsBefore(cum, count, r) == BelowAll(cum + count, r) - BelowAll(cum, r)
  {
    hide InBucket, RunLen;
    if r > 0 {
      RunsCount(cum, count, r - 1);
      RunIsDifference(cum, count, r - 1);
      InBucketCounts(cum, r - 1);
      InBucketCounts(cum + count, r - 1);
    }
  }

  /** Slot t is in some bucket r. The buckets follow one another, as long as there are states with number r modulo 4.
      In a bucket the symbols follow one another, each with its states of that residue, and the states of a symbol are
      numbered in the order of the slots. */
  lemma TableOrder(ls: seq<SymCount>, t: nat) returns (r: nat)
    requires t < Sum(ls)
    ensures r < 4 && BelowAll(Sum(ls), r) <= t < BelowAll(Sum(ls), r + 1)
    ensures var (k, q) := OwnerAt(ls, t);
      && k < |ls|
      && var cum, end := Sum(ls[..k]), Sum(ls[..k + 1]);
      var i := t - BelowAll(Sum(ls), r);
      Below(cum, r) <= i < Below(end, r) && q == i - Below(cum, r) + (BelowAll(end, r) - BelowAll(cum, r))
  {
    hide InBucket, Sum, BucketOf, Owner, StateNumber, RunsBefore;
    BucketsAddUp(Sum(ls));
    r := BucketOf(Sum(ls), t, 4);
    StartsCount(Sum(ls), r);
    InBucketCounts(Sum(ls), r);
    var i := t - BucketStart(Sum(ls), r);
    var k := Owner(ls, r, i);
    var cum := Sum(ls[..k]);
    StateNumberIs(ls, r, i);
    SumStep(ls, k);
    InBucketCounts(cum, r);
    InBucketCounts(Sum(ls[..k + 1]), r);
    RunsCount(cum, ls[k].count, r);
  }
}
