/** Writing a header of few counts: symbols with ever larger counts, each with the difference to the one before. */
module TansWrite4 {
  import opened Bits
  import opened MsbFirst
  import opened MsbRegister
  import opened TansSpec
  import opened TansBuckets
  import opened TansTable
  import opened TansCounts
  import opened TansShape
  import opened TansUnpack4
  import opened TansCodes

  /** Symbols are bytes, and every count is the one before it and a number of d bits. */
  ghost predicate PairsFit(list: seq<SymCount>, d: nat) {
    list == [] ||
    var pre, c := list[..|list| - 1], list[|list| - 1];
    PairsFit(pre, d) && c.sym < 256 && LastCount(pre) <= c.count < LastCount(pre) + Pow2(d)
  }

  ghost function PairBits(list: seq<SymCount>, d: nat): (w: seq<bool>)
    requires PairsFit(list, d)
  {
    if list == [] then []
    else
      var pre, c := list[..|list| - 1], list[|list| - 1];
      PairBits(pre, d) + (BitsOf(c.sym, 8) + BitsOf(c.count - LastCount(pre), d))
  }

  predicate PairFits(last: nat, c: SymCount, d: nat) {
    c.sym < 256 && last <= c.count < last + Pow2(d)
  }

  function OnePairBits(last: nat, c: SymCount, d: nat): seq<bool>
    requires last <= c.count
  {
    BitsOf(c.sym, 8) + BitsOf(c.count - last, d)
  }

  lemma FitsStep(pre: seq<SymCount>, c: SymCount, d: nat)
    ensures PairsFit(pre + [c], d) <==> PairsFit(pre, d) && PairFits(LastCount(pre), c, d)
    ensures PairsFit(pre + [c], d) ==> PairBits(pre + [c], d) == PairBits(pre, d) + OnePairBits(LastCount(pre), c, d)
  {
    hide Pow2, BitsOf;
    assert (pre + [c])[..|pre|] == pre;
  }

  lemma OnePair(s: seq<bool>, at: nat, d: nat, last: nat, c: SymCount)
    ensures Msb(s, at, 8) == c.sym && last + Msb(s, at + 8, d) == c.count
      <==> PairFits(last, c, d) && Reads(s, at, OnePairBits(last, c, d))
  {
    hide Msb, Pow2, BitsOf, Reads;
    ByteField(s, at);
    FieldFits(s, at + 8, d);
    Pow2Values();
    if PairFits(last, c, d) {
      ReadsSplit(s, at, BitsOf(c.sym, 8), BitsOf(c.count - last, d));
      NumberReads(s, at, c.sym, 8);
      NumberReads(s, at + 8, c.count - last, d);
    }
  }

  lemma SameList<T>(a: seq<T>, b: seq<T>, x: T, y: T)
    requires |a| == |b|
    ensures a + [x] == b + [y] <==> a == b && x == y
  {
    assert (a + [x])[..|a|] == a && (b + [y])[..|b|] == b;
    assert (a + [x])[|a|] == x && (b + [y])[|b|] == y;
  }

  /** Pairs are read exactly from the bits that are theirs. */
  lemma {:induction false} PairsExactly(s: seq<bool>, p: nat, d: nat, list: seq<SymCount>)
    ensures Pairs(s, p, d, |list|) == list <==> PairsFit(list, d) && Reads(s, p, PairBits(list, d))
    ensures PairsFit(list, d) ==> PairPos(p, d, |list|) == p + |PairBits(list, d)|
  {
    hide Msb, Pow2, BitsOf, Reads, PairsFit, PairBits, PairFits;
    if list == [] {
      NothingReads(s, p);
      NoPairBits(d);
    } else {
      var m := |list| - 1;
      var pre, c := list[..m], list[m];
      assert list == pre + [c];
      PairsExactly(s, p, d, pre);
      PairStep(s, p, d, m);
      var at, last := PairPos(p, d, m), LastCount(Pairs(s, p, d, m));
      SameList(Pairs(s, p, d, m), pre, SymCount(Msb(s, at, 8), last + Msb(s, at + 8, d)), c);
      FitsStep(pre, c, d);
      OnePair(s, at, d, LastCount(pre), c);
      if PairsFit(list, d) { PairThere(s, p, d, pre, c); }
    }
  }

  lemma PairThere(s: seq<bool>, p: nat, d: nat, pre: seq<SymCount>, c: SymCount)
    requires PairsFit(pre + [c], d)
    ensures PairsFit(pre, d) && LastCount(pre) <= c.count
    ensures var w := OnePairBits(LastCount(pre), c, d);
      && |w| == 8 + d
      && (Reads(s, p, PairBits(pre + [c], d)) <==> Reads(s, p, PairBits(pre, d)) && Reads(s, p + |PairBits(pre, d)|, w))
  {
    hide Reads, PairsFit, PairBits, Pow2, BitsOf;
    FitsStep(pre, c, d);
    ReadsSplit(s, p, PairBits(pre, d), OnePairBits(LastCount(pre), c, d));
  }

  lemma NoPairBits(d: nat)
    ensures PairsFit([], d) && PairBits([], d) == []
  {
  }

  // ----- the header

  /** Two to nine distinct symbols; the last count, of at least two, is no less than the one before, and is what the
      others leave. */
  ghost predicate ListFits4(list: seq<SymCount>, lbits: nat, d: nat) {
    && 2 <= |list| <= 9 && 1 <= d <= lbits && Proper(list) && Sum(list) == Pow2(lbits)
    && var pre, last := list[..|list| - 1], list[|list| - 1];
      PairsFit(pre, d) && LastCount(pre) <= last.count && 2 <= last.count
  }

  /** How many there are, in three bits; d, in as many bits as the size of the state space may need; the pairs; and
      the last symbol without its count. */
  ghost function Bits4(list: seq<SymCount>, lbits: nat, d: nat): seq<bool>
    requires lbits >= 1 && ListFits4(list, lbits, d)
  {
    var pre, last := list[..|list| - 1], list[|list| - 1];
    BitsOf(|list| - 2, 3) + (BitsOf(d, Log2(lbits) + 1) + (PairBits(pre, d) + BitsOf(last.sym, 8)))
  }

  lemma ProperLast(list: seq<SymCount>)
    requires list != []
    ensures var pre, last := list[..|list| - 1], list[|list| - 1];
      && list == pre + [last] && Sum(list) == Sum(pre) + last.count
      && (Proper(list) <==> Proper(pre) && last.count >= 1 && last.sym < 256 && !Has(pre, last.sym))
  {
    hide Sum;
    var pre, last := list[..|list| - 1], list[|list| - 1];
    assert list == pre + [last];
    SumOne(pre, last);
    if Proper(pre) { ProperStep(pre, last); }
    if Proper(list) { ProperFront(list); }
  }

  lemma ProperFront(list: seq<SymCount>)
    requires list != [] && Proper(list)
    ensures Proper(list[..|list| - 1])
  {
  }

  lemma SizeBits(lbits: nat, d: nat)
    requires lbits >= 1 && d <= lbits
    ensures d < Pow2(Log2(lbits) + 1)
  {
    Log2Bounds(lbits);
  }

  /** Written counts are read back ... */
  lemma Header4IsRead(s: seq<bool>, p: nat, lbits: nat, list: seq<SymCount>, d: nat)
    requires lbits >= 1 && ListFits4(list, lbits, d) && Reads(s, p, Bits4(list, lbits, d))
    ensures var h := ReadHeader4(s, p, lbits);
      Good4(h, lbits) && h.d == d && List4(h, lbits) == list && h.after == p + |Bits4(list, lbits, d)|
  {
    hide Msb, Pow2, BitsOf, Reads, PairsFit, PairBits, Proper, Sum, Has, Pairs, Log2;
    var n := |list|;
    var pre, last := list[..n - 1], list[n - 1];
    var w := Log2(lbits) + 1;
    ProperLast(list);
    ReadsSplit(s, p, BitsOf(n - 2, 3), BitsOf(d, w) + (PairBits(pre, d) + BitsOf(last.sym, 8)));
    ReadsSplit(s, p + 3, BitsOf(d, w), PairBits(pre, d) + BitsOf(last.sym, 8));
    ReadsSplit(s, p + 3 + w, PairBits(pre, d), BitsOf(last.sym, 8));
    Powers();
    SizeBits(lbits, d);
    NumberReads(s, p, n - 2, 3);
    NumberReads(s, p + 3, d, w);
    PairsExactly(s, p + 3 + w, d, pre);
    NumberReads(s, p + 3 + w + |PairBits(pre, d)|, last.sym, 8);
  }

  lemma Powers()
    ensures Pow2(3) == 8 && Pow2(8) == 256
  {
    Pow2Values();
  }

  /** ... and nothing else is. */
  lemma Header4There(s: seq<bool>, p: nat, lbits: nat)
    requires lbits >= 1 && Good4(ReadHeader4(s, p, lbits), lbits)
    ensures var h := ReadHeader4(s, p, lbits);
      ListFits4(List4(h, lbits), lbits, h.d) && Reads(s, p, Bits4(List4(h, lbits), lbits, h.d))
  {
    hide Msb, Pow2, BitsOf, Reads, PairsFit, PairBits, Proper, Sum, Has, Pairs, Log2;
    var h := ReadHeader4(s, p, lbits);
    var list := List4(h, lbits);
    var n, w := |list|, Log2(lbits) + 1;
    CountField(s, p);
    assert list[..n - 1] == h.pairs;
    ByteField(s, PairPos(p + 3 + w, h.d, n - 1));
    ProperLast(list);
    PairsExactly(s, p + 3 + w, h.d, h.pairs);
    Powers();
    SizeBits(lbits, h.d);
    NumberReads(s, p, n - 2, 3);
    NumberReads(s, p + 3, h.d, w);
    NumberReads(s, p + 3 + w + |PairBits(h.pairs, h.d)|, h.mps, 8);
    ReadsSplit(s, p + 3 + w, PairBits(h.pairs, h.d), BitsOf(h.mps, 8));
    ReadsSplit(s, p + 3, BitsOf(h.d, w), PairBits(h.pairs, h.d) + BitsOf(h.mps, 8));
    ReadsSplit(s, p, BitsOf(n - 2, 3), BitsOf(h.d, w) + (PairBits(h.pairs, h.d) + BitsOf(h.mps, 8)));
  }

  /** The counts that are read are exactly those that some writer wrote there. */
  lemma Header4IsWritten(s: seq<bool>, p: nat, lbits: nat, list: seq<SymCount>, d: nat, at: nat)
    requires lbits >= 1
    ensures ListFits4(list, lbits, d) && Reads(s, p, Bits4(list, lbits, d)) && at == p + |Bits4(list, lbits, d)|
      <==>
      var h := ReadHeader4(s, p, lbits);
      Good4(h, lbits) && h.d == d && List4(h, lbits) == list && h.after == at
  {
    hide ListFits4, Reads, Bits4, ReadHeader4, List4;
    if ListFits4(list, lbits, d) && Reads(s, p, Bits4(list, lbits, d)) {
      Header4IsRead(s, p, lbits, list, d);
    }
    var h := ReadHeader4(s, p, lbits);
    if Good4(h, lbits) && h.d == d && List4(h, lbits) == list && h.after == at {
      Header4There(s, p, lbits);
      Header4IsRead(s, p, lbits, list, d);
    }
  }
}
