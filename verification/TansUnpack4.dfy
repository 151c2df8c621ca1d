/** Unpacking a few counts: symbols with ever larger counts, and one symbol for what is left. */
module TansUnpack4 {
  import opened Bits
  import opened MsbFirst
  import opened MsbRegister
  import opened VarBits
  import opened TansSpec
  import opened TansBuckets
  import opened TansTable
  import opened TansSort
  import opened TansCounts

  // ----- the header

  /** Where the m-th pair starts, of a symbol of 8 bits and a difference of d bits. */
  function PairPos(p: nat, d: nat, m: nat): nat {
    if m == 0 then p else PairPos(p, d, m - 1) + 8 + d
  }

  function LastCount(list: seq<SymCount>): nat {
    if list == [] then 0 else list[|list| - 1].count
  }

  /** The first m pairs; every count is the one before it and a difference. */
  function Pairs(s: seq<bool>, p: nat, d: nat, m: nat): (r: seq<SymCount>)
    ensures |r| == m
  {
    if m == 0 then [] else
      var pre := Pairs(s, p, d, m - 1);
      var at := PairPos(p, d, m - 1);
      pre + [SymCount(Msb(s, at, 8), LastCount(pre) + Msb(s, at + 8, d))]
  }

  /** The fields of the header: how many counts, how many bits for a difference, the pairs and the last
      symbol. */
  datatype Header4 = Header4(n: nat, d: nat, pairs: seq<SymCount>, mps: nat, after: nat)

  function ReadHeader4(s: seq<bool>, p: nat, lbits: nat): Header4
    requires lbits >= 1
  {
    var n, w := Msb(s, p, 3) + 2, Log2(lbits) + 1;
    var d := Msb(s, p + 3, w);
    var at := PairPos(p + 3 + w, d, n - 1);
    Header4(n, d, Pairs(s, p + 3 + w, d, n - 1), Msb(s, at, 8), at + 8)
  }

  /** The header is accepted: distinct symbols with counts of at least one; what is left for the last
      symbol is at least two, and no less than the count before. */
  ghost predicate Good4(h: Header4, lbits: nat) {
    && 1 <= h.d <= lbits && Proper(h.pairs) && !Has(h.pairs, h.mps)
    && Sum(h.pairs) + 2 <= Pow2(lbits) && Sum(h.pairs) + LastCount(h.pairs) <= Pow2(lbits)
  }

  function List4(h: Header4, lbits: nat): seq<SymCount>
    requires Sum(h.pairs) <= Pow2(lbits)
  {
    h.pairs + [SymCount(h.mps, Pow2(lbits) - Sum(h.pairs))]
  }

  /** An accepted header lists counts of distinct symbols that fill the state space. */
  lemma GoodIsFair(h: Header4, lbits: nat)
    requires Good4(h, lbits) && lbits <= L_BITS_MAX && h.mps < 256
    ensures Fair(lbits, List4(h, lbits))
  {
    hide Sum, Pow2;
    var list := List4(h, lbits);
    SumOne(h.pairs, list[|list| - 1]);
    forall j | 0 <= j < |h.pairs| ensures list[j].sym != h.mps { assert list[j] == h.pairs[j]; }
  }

  // ----- prefixes of the pairs

  lemma {:induction false} PairsPrefix(s: seq<bool>, p: nat, d: nat, k: nat, m: nat)
    requires k <= m
    ensures Pairs(s, p, d, m)[..k] == Pairs(s, p, d, k)
  {
    if k < m { PairsPrefix(s, p, d, k, m - 1); }
  }

  lemma PairStep(s: seq<bool>, p: nat, d: nat, m: nat)
    ensures PairPos(p, d, m + 1) == PairPos(p, d, m) + 8 + d
    ensures Pairs(s, p, d, m + 1) ==
      Pairs(s, p, d, m) + [SymCount(Msb(s, PairPos(p, d, m), 8), LastCount(Pairs(s, p, d, m)) + Msb(s, PairPos(p, d, m) + 8, d))]
  {
  }

  /** What is wrong with the first pairs is wrong with all. */
  lemma BadStart(s: seq<bool>, p: nat, d: nat, k: nat, m: nat)
    requires k <= m
    ensures Sum(Pairs(s, p, d, k)) <= Sum(Pairs(s, p, d, m))
    ensures Proper(Pairs(s, p, d, m)) ==> Proper(Pairs(s, p, d, k))
  {
    hide Pairs, Sum;
    var all := Pairs(s, p, d, m);
    PairsPrefix(s, p, d, k, m);
    SumPrefix(all, k, m);
    assert all[..m] == all;
    assert forall i :: 0 <= i < k ==> all[..k][i] == all[i];
  }

  /** One pair more. */
  lemma ProperStep(list: seq<SymCount>, c: SymCount)
    requires Proper(list)
    ensures Proper(list + [c]) <==> c.count >= 1 && c.sym < 256 && !Has(list, c.sym)
    ensures LastCount(list + [c]) == c.count
  {
    var all := list + [c];
    assert all[|list|] == c;
    assert forall i :: 0 <= i < |list| ==> all[i] == list[i];
  }

  lemma ByteField(s: seq<bool>, p: nat)
    ensures Msb(s, p, 8) < 256
  {
    Pow2Values();
    ValueBound(Window(s, p, 8));
  }

  lemma CountField(s: seq<bool>, p: nat)
    ensures Msb(s, p, 3) < 8
  {
    ValueBound(Window(s, p, 3));
  }

  lemma Log2Small(n: nat)
    requires 1 <= n <= L_BITS_MAX
    ensures Log2(n) <= 3
  {
    Log2Mono(n, 15);
    assert Log2(15) == 3;
  }

  // ----- the unpacker

  /** What is unpacked so far: the counts of one and the others apart, and the symbols seen. */
  ghost predicate Unpacked(list: seq<SymCount>, singles: seq<nat>, larger: seq<SymCount>, seen: seq<bool>, cur: nat, sum: nat) {
    && Proper(list) && singles == Singles(list) && larger == Larger(list) && cur == LastCount(list) && sum == Sum(list)
    && |seen| == 256 && forall x :: 0 <= x < 256 ==> (seen[x] <==> Has(list, x))
  }

  lemma UnpackedStep(list: seq<SymCount>, singles: seq<nat>, larger: seq<SymCount>, seen: seq<bool>, cur: nat, sum: nat, c: SymCount)
    requires Unpacked(list, singles, larger, seen, cur, sum) && c.count >= 1 && c.sym < 256 && !seen[c.sym]
    ensures Unpacked(list + [c], if c.count == 1 then singles + [c.sym] else singles, if c.count == 1 then larger else larger + [c],
                     seen[c.sym := true], c.count, sum + c.count)
  {
    hide Singles, Larger, Sum;
    SplitStep(list, c);
    ProperStep(list, c);
    HasMore(list, c);
    forall x | Has(list + [c], x) ensures Has(list, x) || x == c.sym {
      var k :| 0 <= k < |list + [c]| && (list + [c])[k].sym == x;
      assert k < |list| ==> list[k].sym == x;
    }
  }

  lemma NothingUnpacked()
    ensures Unpacked([], [], [], seq(256, i => false), 0, 0)
  {
  }

  /** Puts a count where it belongs. */
  method Store(c: SymCount, singles: array<nat>, larger: array<SymCount>, ns: nat, nl: nat) returns (ns': nat, nl': nat)
    requires ns < singles.Length && nl < larger.Length
    modifies singles, larger
    ensures ns' + nl' == ns + nl + 1 && ns <= ns' && nl <= nl'
    ensures singles[..ns'] == if c.count == 1 then old(singles[..ns]) + [c.sym] else old(singles[..ns])
    ensures larger[..nl'] == if c.count == 1 then old(larger[..nl]) else old(larger[..nl]) + [c]
  {
    ns', nl' := ns, nl;
    if c.count == 1 {
      singles[ns] := c.sym;
      ns' := ns + 1;
    } else {
      larger[nl] := c;
      nl' := nl + 1;
    }
  }

  /** Unpacks the pairs; stops at the first that cannot be right. */
  method UnPackPairs(vb: Reader, lbits: nat, d: nat, n: nat, singles: array<nat>, larger: array<SymCount>)
    returns (ok: bool, numSingles: nat, numLarger: nat, seen: seq<bool>, cur: nat, sum: nat)
    requires vb.Valid() && 1 <= d <= lbits <= L_BITS_MAX && n < singles.Length == larger.Length
    modifies vb, singles, larger
    ensures vb.Valid()
    ensures var list := Pairs(MsbBits(vb.data), old(vb.Pos()), d, n);
      && (ok <==> Proper(list) && Sum(list) < Pow2(lbits))
      && (ok ==> numSingles + numLarger == n && vb.Pos() == PairPos(old(vb.Pos()), d, n) &&
                 Unpacked(list, singles[..numSingles], larger[..numLarger], seen, cur, sum))
  {
    hide Unpacked, Pairs, PairPos, Sum, Pow2, MsbBits, Stands, Proper, Msb, Singles, Larger;
    VarBits.Limits(vb.data, vb.Pos(), vb.bits, 63 - vb.inv_bitlen, vb.cur);
    ghost var s, p: nat := MsbBits(vb.data), vb.Pos();
    NothingUnpacked();
    FirstPair(s, p, d, lbits);
    ok, numSingles, numLarger, seen, cur, sum := true, 0, 0, seq(256, i => false), 0, 0;
    var i := 0;
    while i < n
      invariant 0 <= i <= n && vb.Valid() && vb.Pos() == PairPos(p, d, i) && numSingles + numLarger == i
      invariant Unpacked(Pairs(s, p, d, i), singles[..numSingles], larger[..numLarger], seen, cur, sum)
      invariant Proper(Pairs(s, p, d, i)) && Sum(Pairs(s, p, d, i)) < Pow2(lbits)
    {
      ghost var list := Pairs(s, p, d, i);
      PairStep(s, p, d, i);
      BadStart(s, p, d, i + 1, n);
      ByteField(s, vb.Pos());
      var sym := vb.Get(8);
      var delta := vb.Get(d);
      Seen(list, singles[..numSingles], larger[..numLarger], seen, cur, sum, SymCount(sym, cur + delta));
      if seen[sym] || cur + delta == 0 { return false, numSingles, numLarger, seen, cur, sum; }
      UnpackedStep(list, singles[..numSingles], larger[..numLarger], seen, cur, sum, SymCount(sym, cur + delta));
      cur := cur + delta;
      seen := seen[sym := true];
      numSingles, numLarger := Store(SymCount(sym, cur), singles, larger, numSingles, numLarger);
      sum := sum + cur;
      SumIs(Pairs(s, p, d, i + 1), singles[..numSingles], larger[..numLarger], seen, cur, sum);
      if sum >= Pow2(lbits) { return false, numSingles, numLarger, seen, cur, sum; }
      i := i + 1;
    }
  }

  lemma FirstPair(s: seq<bool>, p: nat, d: nat, lbits: nat)
    ensures PairPos(p, d, 0) == p && Pairs(s, p, d, 0) == [] && Proper([]) && Sum([]) == 0 < Pow2(lbits)
  {
  }

  lemma Seen(list: seq<SymCount>, singles: seq<nat>, larger: seq<SymCount>, seen: seq<bool>, cur: nat, sum: nat, c: SymCount)
    requires Unpacked(list, singles, larger, seen, cur, sum) && c.sym < 256
    ensures |seen| == 256 && cur == LastCount(list)
    ensures Proper(list + [c]) <==> c.count >= 1 && !seen[c.sym]
  {
    hide Singles, Larger, Sum, Proper;
    ProperOf(list, singles, larger, seen, cur, sum);
    ProperStep(list, c);
  }

  lemma ProperOf(list: seq<SymCount>, singles: seq<nat>, larger: seq<SymCount>, seen: seq<bool>, cur: nat, sum: nat)
    requires Unpacked(list, singles, larger, seen, cur, sum)
    ensures Proper(list)
  {
  }

  lemma SumIs(list: seq<SymCount>, singles: seq<nat>, larger: seq<SymCount>, seen: seq<bool>, cur: nat, sum: nat)
    requires Unpacked(list, singles, larger, seen, cur, sum)
    ensures sum == Sum(list) && Proper(list)
  {
  }

  /** Unpacks the counts of two to nine symbols, and accepts exactly the headers of counts of distinct
      symbols in order that fill the state space. */
  method UnPackCounts4(vb: Reader, lbits: nat, singles: array<nat>, larger: array<SymCount>)
    returns (ok: bool, numSingles: nat, numLarger: nat)
    requires vb.Valid() && 1 <= lbits <= L_BITS_MAX && singles.Length == larger.Length == 256
    modifies vb, singles, larger
    ensures vb.Valid()
    ensures var h := ReadHeader4(MsbBits(vb.data), old(vb.Pos()), lbits);
      && (ok <==> Good4(h, lbits))
      && (ok ==> vb.Pos() == h.after && numSingles <= 256 && numLarger <= 256 &&
                 larger[..numLarger] == Sort(Larger(List4(h, lbits)), SymOf) &&
                 singles[..numSingles] == Sort(Singles(List4(h, lbits)), Itself))
  {
    hide Unpacked, Pairs, PairPos, Sum, Pow2, MsbBits, Stands, Msb, Singles, Larger, Sort, Proper, Has;
    VarBits.Limits(vb.data, vb.Pos(), vb.bits, 63 - vb.inv_bitlen, vb.cur);
    ghost var s, p: nat := MsbBits(vb.data), vb.Pos();
    ghost var h := ReadHeader4(s, p, lbits);
    CountField(s, p);
    Log2Small(lbits);
    ok, numSingles, numLarger := false, 0, 0;
    var n := vb.Get(3);
    n := n + 2;
    var d := vb.Get(Log2(lbits) + 1);
    if d == 0 { return; }
    if d > lbits { return; }
    var seen, cur, sum;
    ok, numSingles, numLarger, seen, cur, sum := UnPackPairs(vb, lbits, d, n - 1, singles, larger);
    if !ok { return; }
    SumIs(h.pairs, singles[..numSingles], larger[..numLarger], seen, cur, sum);
    ByteField(s, vb.Pos());
    var mps := vb.Get(8);
    SeenBefore(h.pairs, singles[..numSingles], larger[..numLarger], seen, cur, sum, mps);
    if seen[mps] {
      return false, numSingles, numLarger;
    }
    ok, numSingles, numLarger := AddLast(h, lbits, singles, larger, numSingles, numLarger, seen, cur, sum, mps);
  }

  lemma SeenBefore(list: seq<SymCount>, singles: seq<nat>, larger: seq<SymCount>, seen: seq<bool>, cur: nat, sum: nat, x: nat)
    requires Unpacked(list, singles, larger, seen, cur, sum) && x < 256
    ensures |seen| == 256 && (seen[x] <==> Has(list, x))
  {
  }

  /** What is left is the count of the last symbol; then both parts are sorted by symbol. */
  method AddLast(ghost h: Header4, lbits: nat, singles: array<nat>, larger: array<SymCount>, ns: nat, nl: nat, ghost seen: seq<bool>,
                 cur: nat, sum: nat, mps: nat)
    returns (ok: bool, numSingles: nat, numLarger: nat)
    requires ns <= singles.Length && nl < larger.Length && mps == h.mps < 256 && 1 <= h.d <= lbits
    requires Unpacked(h.pairs, singles[..ns], larger[..nl], seen, cur, sum) && !seen[mps] && sum < Pow2(lbits)
    modifies singles, larger
    ensures ok <==> Good4(h, lbits)
    ensures ok ==> numSingles <= singles.Length && singles[..numSingles] == Sort(Singles(List4(h, lbits)), Itself)
    ensures ok ==> numLarger <= larger.Length && larger[..numLarger] == Sort(Larger(List4(h, lbits)), SymOf)
  {
    hide Unpacked, Sum, Pow2, Singles, Larger, Sort;
    SeenBefore(h.pairs, singles[..ns], larger[..nl], seen, cur, sum, mps);
    SumIs(h.pairs, singles[..ns], larger[..nl], seen, cur, sum);
    Parts(h.pairs, singles[..ns], larger[..nl], seen, cur, sum);
    ok, numSingles, numLarger := false, ns, nl;
    var last := Pow2(lbits) - sum;
    if last < cur || last <= 1 { return; }
    SplitStep(h.pairs, SymCount(mps, last));
    ghost var was := singles[..ns];
    larger[nl] := SymCount(mps, last);
    numLarger := nl + 1;
    assert singles[..ns] == was && was + [] == was;
    assert larger[..numLarger] == Larger(List4(h, lbits));
    SmallInsertionSort(singles, numSingles, Itself);
    SmallInsertionSort(larger, numLarger, SymOf);
    ok := true;
  }

  lemma Parts(list: seq<SymCount>, singles: seq<nat>, larger: seq<SymCount>, seen: seq<bool>, cur: nat, sum: nat)
    requires Unpacked(list, singles, larger, seen, cur, sum)
    ensures singles == Singles(list) && larger == Larger(list) && cur == LastCount(list)
  {
  }

  /** So what it hands over is what the table is built from. */
  lemma GoodIsOk(h: Header4, lbits: nat)
    requires Good4(h, lbits) && lbits <= L_BITS_MAX && h.mps < 256
    ensures CountsOk(lbits, Sort(Larger(List4(h, lbits)), SymOf), Sort(Singles(List4(h, lbits)), Itself))
  {
    hide Larger, Singles, Sort, Sum, Pow2, CountsOk, Fair;
    var list := List4(h, lbits);
    GoodIsFair(h, lbits);
    SplitOk(lbits, list);
    SortedOk(lbits, Larger(list), Singles(list));
  }
}
