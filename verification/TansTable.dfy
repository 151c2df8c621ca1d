/** The decoding table as a whole: every slot holds one state of one symbol, and decoding a symbol
    from a slot inverts encoding it from the state it leads to. */
module TansTable {
  import opened Bits
  import opened TansSpec
  import opened TansBuckets

  const L_BITS_MAX := 11

  /** What the count unpackers hand over: counts of distinct symbols that fill the state space, the
      counts of one apart from the others. */
  ghost predicate CountsOk(lbits: nat, ls: seq<SymCount>, singles: seq<nat>) {
    && lbits <= L_BITS_MAX
    && Sum(ls) + |singles| == Pow2(lbits)
    && (forall k :: 0 <= k < |ls| ==> ls[k].count >= 2 && ls[k].sym < 256)
    && (forall k :: 0 <= k < |singles| ==> singles[k] < 256)
    && (forall j, k :: 0 <= j < k < |ls| ==> ls[j].sym != ls[k].sym)
    && (forall j, k :: 0 <= j < k < |singles| ==> singles[j] != singles[k])
    && (forall j, k :: 0 <= j < |ls| && 0 <= k < |singles| ==> ls[j].sym != singles[k])
  }

  lemma CountInRange(lbits: nat, ls: seq<SymCount>, singles: seq<nat>, k: nat, q: nat)
    requires CountsOk(lbits, ls, singles) && k < |ls| && q < ls[k].count
    ensures 2 <= ls[k].count <= Pow2(lbits) && Log2(ls[k].count + q) <= lbits
  {
    hide Log2, Pow2;
    SumStep(ls, k);
    SumPrefix(ls, k + 1, |ls|);
    assert ls[..|ls|] == ls;
    StateInRange(lbits, ls[k].count, q);
  }

  function BucketOf(total: nat, t: nat, n: nat): (r: nat)
    requires n <= 4 && t < BucketStart(total, n)
    ensures r < n && BucketStart(total, r) <= t < BucketStart(total, r) + InBucket(total, r)
  {
    if t >= BucketStart(total, n - 1) then n - 1 else BucketOf(total, t, n - 1)
  }

  lemma {:induction false} StartsGrow(total: nat, r: nat, s: nat)
    requires r <= s <= 4
    ensures BucketStart(total, r) <= BucketStart(total, s)
  {
    if r < s { StartsGrow(total, r, s - 1); }
  }

  lemma BucketUnique(total: nat, t: nat, r: nat)
    requires r < 4 && BucketStart(total, r) <= t < BucketStart(total, r) + InBucket(total, r)
    ensures t < total && t < BucketStart(total, 4) && BucketOf(total, t, 4) == r
  {
    hide InBucket;
    BucketsAddUp(total);
    StartsGrow(total, r + 1, 4);
    var b := BucketOf(total, t, 4);
    if b < r { StartsGrow(total, b + 1, r); } else if r < b { StartsGrow(total, r + 1, b); }
  }

  /** The symbol and the state number that slot t stands for; a single symbol has index |ls| + j. */
  ghost function OwnerAt(ls: seq<SymCount>, t: nat): (p: (nat, nat))
    ensures t < Sum(ls) ==> p.0 < |ls| && p.1 < ls[p.0].count
    ensures t >= Sum(ls) ==> p == (|ls| + (t - Sum(ls)), 0)
  {
    if t >= Sum(ls) then (|ls| + (t - Sum(ls)), 0)
    else
      BucketsAddUp(Sum(ls));
      var r := BucketOf(Sum(ls), t, 4);
      var i := t - BucketStart(Sum(ls), r);
      (Owner(ls, r, i), StateNumber(ls, r, i))
  }

  ghost function SymbolAt(ls: seq<SymCount>, singles: seq<nat>, k: nat): nat
    requires k < |ls| + |singles|
  {
    if k < |ls| then ls[k].sym else singles[k - |ls|]
  }

  ghost function CountAt(ls: seq<SymCount>, singles: seq<nat>, k: nat): nat
    requires k < |ls| + |singles|
  {
    if k < |ls| then ls[k].count else 1
  }

  lemma OwnerInRange(lbits: nat, ls: seq<SymCount>, singles: seq<nat>, t: nat)
    requires CountsOk(lbits, ls, singles) && t < Pow2(lbits)
    ensures var p := OwnerAt(ls, t);
      && p.0 < |ls| + |singles|
      && p.1 < CountAt(ls, singles, p.0) <= Pow2(lbits)
      && Log2(CountAt(ls, singles, p.0) + p.1) <= lbits
  {
    var p := OwnerAt(ls, t);
    if p.0 < |ls| { CountInRange(lbits, ls, singles, p.0, p.1); }
  }

  /** The entry of slot t. */
  ghost function TableEntry(lbits: nat, ls: seq<SymCount>, singles: seq<nat>, t: nat): Entry
    requires CountsOk(lbits, ls, singles) && t < Pow2(lbits)
  {
    OwnerInRange(lbits, ls, singles, t);
    var (k, q) := OwnerAt(ls, t);
    StateEntry(lbits, SymbolAt(ls, singles, k), CountAt(ls, singles, k), q)
  }

  /** The slot of a state. */
  ghost function SlotOf(ls: seq<SymCount>, k: nat, q: nat): nat
    requires k < |ls| ==> q < ls[k].count
  {
    if k >= |ls| then Sum(ls) + (k - |ls|)
    else
      var (r, i) := PlaceOf(ls, k, q);
      BucketStart(Sum(ls), r) + i
  }

  lemma OwnerOf(ls: seq<SymCount>, r: nat, i: nat)
    requires r < 4 && i < InBucket(Sum(ls), r)
    ensures var t := BucketStart(Sum(ls), r) + i;
      t < Sum(ls) && OwnerAt(ls, t) == (Owner(ls, r, i), StateNumber(ls, r, i))
  {
    hide Owner, StateNumber, InBucket, Sum, BucketStart, BucketOf;
    BucketUnique(Sum(ls), BucketStart(Sum(ls), r) + i, r);
  }

  lemma PlaceOwner(ls: seq<SymCount>, k: nat, q: nat)
    requires k < |ls| && q < ls[k].count
    ensures var (r, i) := PlaceOf(ls, k, q);
      r < 4 && i < InBucket(Sum(ls), r) && Owner(ls, r, i) == k && StateNumber(ls, r, i) == q
  {
    hide Owner, StateNumber, PlaceOf, InBucket, Sum;
    var p := PlaceOf(ls, k, q);
  }

  /** The slot of a state stands for it. */
  lemma SlotOwner(ls: seq<SymCount>, k: nat, q: nat)
    requires k < |ls| && q < ls[k].count
    ensures SlotOf(ls, k, q) < Sum(ls) && OwnerAt(ls, SlotOf(ls, k, q)) == (k, q)
  {
    hide Owner, StateNumber, PlaceOf, InBucket, Sum, BucketStart, OwnerAt;
    var p := PlaceOf(ls, k, q);
    PlaceOwner(ls, k, q);
    OwnerOf(ls, p.0, p.1);
  }

  lemma SlotInRange(lbits: nat, ls: seq<SymCount>, singles: seq<nat>, k: nat, q: nat)
    requires CountsOk(lbits, ls, singles) && k < |ls| + |singles| && q < CountAt(ls, singles, k)
    ensures SlotOf(ls, k, q) < Pow2(lbits) && OwnerAt(ls, SlotOf(ls, k, q)) == (k, q)
  {
    hide Sum, Pow2;
    if k < |ls| { SlotOwner(ls, k, q); }
  }

  /** Every slot is the slot of what it stands for: the slots and the states correspond one to one. */
  lemma SlotUnique(ls: seq<SymCount>, t: nat)
    ensures SlotOf(ls, OwnerAt(ls, t).0, OwnerAt(ls, t).1) == t
  {
    hide Owner, StateNumber, PlaceOf, InBucket, Sum, BucketStart, BucketOf;
    if t < Sum(ls) {
      BucketsAddUp(Sum(ls));
      var r := BucketOf(Sum(ls), t, 4);
      PlaceUnique(ls, r, t - BucketStart(Sum(ls), r));
    }
  }

  /** The slots of symbol k whose state numbers are below n. */
  ghost function Slots(lbits: nat, ls: seq<SymCount>, k: nat, n: nat): set<nat> {
    set t: nat | 0 <= t < Pow2(lbits) && OwnerAt(ls, t).0 == k && OwnerAt(ls, t).1 < n
  }

  /** A symbol has as many slots as it counts. */
  lemma {:induction false} SlotCount(lbits: nat, ls: seq<SymCount>, singles: seq<nat>, k: nat, n: nat)
    requires CountsOk(lbits, ls, singles)
    requires k < |ls| + |singles| && n <= CountAt(ls, singles, k)
    ensures |Slots(lbits, ls, k, n)| == n
  {
    hide OwnerAt, SlotOf, Sum, Pow2;
    if n > 0 {
      SlotCount(lbits, ls, singles, k, n - 1);
      var t := SlotOf(ls, k, n - 1);
      SlotInRange(lbits, ls, singles, k, n - 1);
      forall u | u in Slots(lbits, ls, k, n) && u !in Slots(lbits, ls, k, n - 1) ensures u == t {
        SlotUnique(ls, u);
      }
      assert Slots(lbits, ls, k, n) == Slots(lbits, ls, k, n - 1) + {t};
    }
  }

  /** Slot t decodes to symbol k and, with the right bits, leads to state x. */
  ghost predicate Decodes(lbits: nat, ls: seq<SymCount>, singles: seq<nat>, t: nat, k: nat, x: nat)
    requires CountsOk(lbits, ls, singles)
  {
    && t < Pow2(lbits) && k < |ls| + |singles|
    && var e := TableEntry(lbits, ls, singles, t);
      e.sym == SymbolAt(ls, singles, k) && e.nextst <= x < e.nextst + Pow2(e.len)
  }

  lemma SymbolsDiffer(lbits: nat, ls: seq<SymCount>, singles: seq<nat>, j: nat, k: nat)
    requires CountsOk(lbits, ls, singles) && j < |ls| + |singles| && k < |ls| + |singles| && j != k
    ensures SymbolAt(ls, singles, j) != SymbolAt(ls, singles, k)
  {
  }

  lemma DecodesIsReaches(lbits: nat, ls: seq<SymCount>, singles: seq<nat>, t: nat, k: nat, x: nat)
    requires CountsOk(lbits, ls, singles) && t < Pow2(lbits) && k < |ls| + |singles|
    ensures Decodes(lbits, ls, singles, t, k, x) <==>
      OwnerAt(ls, t).0 == k && Reaches(lbits, CountAt(ls, singles, k), OwnerAt(ls, t).1, x)
  {
    hide OwnerAt, SymbolAt, CountAt;
    OwnerInRange(lbits, ls, singles, t);
    var o := OwnerAt(ls, t).0;
    if o != k { SymbolsDiffer(lbits, ls, singles, o, k); }
  }

  /** The encoder's step: some slot decodes to the symbol and leads to the state ... */
  lemma EncodeStep(lbits: nat, ls: seq<SymCount>, singles: seq<nat>, k: nat, x: nat) returns (t: nat)
    requires CountsOk(lbits, ls, singles) && k < |ls| + |singles| && x < Pow2(lbits)
    ensures Decodes(lbits, ls, singles, t, k, x)
  {
    hide Decodes, Reaches;
    var count := CountAt(ls, singles, k);
    if k < |ls| { CountInRange(lbits, ls, singles, k, 0); }
    var q := SomeReaches(lbits, count, x);
    t := SlotOf(ls, k, q);
    SlotInRange(lbits, ls, singles, k, q);
    DecodesIsReaches(lbits, ls, singles, t, k, x);
  }

  /** ... and no other slot does: the intervals of a symbol partition the state space. */
  lemma EncodeUnique(lbits: nat, ls: seq<SymCount>, singles: seq<nat>, k: nat, x: nat, t: nat, u: nat)
    requires CountsOk(lbits, ls, singles) && k < |ls| + |singles| && x < Pow2(lbits)
    requires t < Pow2(lbits) && u < Pow2(lbits)
    requires Decodes(lbits, ls, singles, t, k, x) && Decodes(lbits, ls, singles, u, k, x)
    ensures t == u
  {
    hide Decodes, Reaches, OwnerAt, SlotOf;
    DecodesIsReaches(lbits, ls, singles, t, k, x);
    DecodesIsReaches(lbits, ls, singles, u, k, x);
    SlotUnique(ls, t);
    SlotUnique(ls, u);
    OwnerInRange(lbits, ls, singles, t);
    var count, q, r := CountAt(ls, singles, k), OwnerAt(ls, t).1, OwnerAt(ls, u).1;
    if q < r { ReachesOnce(lbits, count, q, r, x); } else if r < q { ReachesOnce(lbits, count, r, q, x); }
  }

  /** From every slot decoding leads to a state again. */
  lemma NextState(lbits: nat, ls: seq<SymCount>, singles: seq<nat>, t: nat)
    requires CountsOk(lbits, ls, singles) && t < Pow2(lbits)
    ensures var e := TableEntry(lbits, ls, singles, t);
      e.len <= lbits && e.mask == Pow2(e.len) - 1 && e.nextst + Pow2(e.len) <= Pow2(lbits)
  {
    OwnerInRange(lbits, ls, singles, t);
    var p := OwnerAt(ls, t);
    IntervalStart(lbits, CountAt(ls, singles, p.0) + p.1);
  }
}
