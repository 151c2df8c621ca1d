/** Lists of symbol counts, split into the counts of one and the others, and sorted. */
module TansCounts {
  import opened Bits
  import opened TansSpec
  import opened TansBuckets
  import opened TansTable
  import opened TansSort

  function Larger(list: seq<SymCount>): (r: seq<SymCount>)
    ensures |r| <= |list|
  {
    if list == [] then [] else
      var c := list[|list| - 1];
      Larger(list[..|list| - 1]) + if c.count == 1 then [] else [c]
  }

  function Singles(list: seq<SymCount>): (r: seq<nat>)
    ensures |r| <= |list|
  {
    if list == [] then [] else
      var c := list[|list| - 1];
      Singles(list[..|list| - 1]) + if c.count == 1 then [c.sym] else []
  }

  lemma SplitStep(list: seq<SymCount>, c: SymCount)
    ensures Larger(list + [c]) == Larger(list) + if c.count == 1 then [] else [c]
    ensures Singles(list + [c]) == Singles(list) + if c.count == 1 then [c.sym] else []
    ensures Sum(list + [c]) == Sum(list) + c.count
  {
    assert (list + [c])[..|list|] == list;
  }

  lemma {:induction false} SplitSize(list: seq<SymCount>)
    ensures |Larger(list)| + |Singles(list)| == |list|
  {
    if list != [] { SplitSize(list[..|list| - 1]); }
  }

  /** Counts of distinct symbols that fill the state space. */
  ghost predicate Fair(lbits: nat, list: seq<SymCount>) {
    && lbits <= L_BITS_MAX && Sum(list) == Pow2(lbits) && Proper(list)
  }

  ghost predicate Proper(list: seq<SymCount>) {
    && (forall k :: 0 <= k < |list| ==> list[k].count >= 1 && list[k].sym < 256)
    && (forall j, k :: 0 <= j < k < |list| ==> list[j].sym != list[k].sym)
  }

  ghost predicate Has(list: seq<SymCount>, sym: nat) {
    exists k :: 0 <= k < |list| && list[k].sym == sym
  }

  lemma {:induction false} SplitSum(list: seq<SymCount>)
    ensures Sum(Larger(list)) + |Singles(list)| == Sum(list)
  {
    hide Larger, Singles, Sum;
    NoParts();
    if list != [] {
      var n := |list| - 1;
      assert list == list[..n] + [list[n]];
      SplitSum(list[..n]);
      SplitStep(list[..n], list[n]);
      SumOne(Larger(list[..n]), list[n]);
      assert Larger(list[..n]) + [] == Larger(list[..n]);
    }
  }

  /** No symbol is invented, and none comes twice. */
  lemma {:induction false} LargerAre(list: seq<SymCount>)
    requires Proper(list)
    ensures Proper(Larger(list))
    ensures forall k :: 0 <= k < |Larger(list)| ==> Larger(list)[k].count >= 2 && Has(list, Larger(list)[k].sym)
  {
    hide Larger, Singles, Sum;
    NoParts();
    if list != [] {
      var n := |list| - 1;
      assert list == list[..n] + [list[n]];
      LargerAre(list[..n]);
      SplitStep(list[..n], list[n]);
      HasMore(list[..n], list[n]);
    }
  }

  lemma {:induction false} SinglesAre(list: seq<SymCount>)
    requires Proper(list)
    ensures forall k :: 0 <= k < |Singles(list)| ==> Singles(list)[k] < 256 && Has(list, Singles(list)[k])
    ensures forall j, k :: 0 <= j < k < |Singles(list)| ==> Singles(list)[j] != Singles(list)[k]
  {
    hide Larger, Singles, Sum;
    NoParts();
    if list != [] {
      var n := |list| - 1;
      assert list == list[..n] + [list[n]];
      SinglesAre(list[..n]);
      SplitStep(list[..n], list[n]);
      HasMore(list[..n], list[n]);
    }
  }

  /** No symbol is in both parts. */
  lemma {:induction false} PartsApart(list: seq<SymCount>)
    requires Proper(list)
    ensures forall j, k :: 0 <= j < |Larger(list)| && 0 <= k < |Singles(list)| ==> Larger(list)[j].sym != Singles(list)[k]
  {
    hide Larger, Singles, Sum;
    NoParts();
    if list != [] {
      var n := |list| - 1;
      assert list == list[..n] + [list[n]];
      PartsApart(list[..n]);
      LargerAre(list[..n]);
      SinglesAre(list[..n]);
      SplitStep(list[..n], list[n]);
    }
  }

  lemma NoParts()
    ensures Larger([]) == [] && Singles([]) == [] && Sum([]) == 0
  {
  }

  lemma SumOne(list: seq<SymCount>, c: SymCount)
    ensures Sum(list + [c]) == Sum(list) + c.count
  {
    assert (list + [c])[..|list|] == list;
  }

  lemma HasMore(list: seq<SymCount>, c: SymCount)
    ensures forall s :: Has(list, s) ==> Has(list + [c], s)
    ensures Has(list + [c], c.sym)
  {
    forall s | Has(list, s) ensures Has(list + [c], s) {
      var k :| 0 <= k < |list| && list[k].sym == s;
      assert (list + [c])[k].sym == s;
    }
    assert (list + [c])[|list|] == c;
  }

  /** Split, they are what the table is built from. */
  lemma SplitOk(lbits: nat, list: seq<SymCount>)
    requires Fair(lbits, list)
    ensures CountsOk(lbits, Larger(list), Singles(list))
  {
    hide Larger, Singles, Sum, Pow2;
    SplitSum(list);
    LargerAre(list);
    SinglesAre(list);
    PartsApart(list);
  }

  // ----- sorting

  function SymOf(c: SymCount): nat {
    c.sym
  }

  function Itself(x: nat): nat {
    x
  }

  /** Sorting keeps the counts what they are. */
  lemma SortedOk(lbits: nat, ls: seq<SymCount>, ss: seq<nat>)
    requires CountsOk(lbits, ls, ss)
    ensures CountsOk(lbits, Sort(ls, SymOf), Sort(ss, Itself))
  {
    hide Sort, Sum, Pow2;
    var ls', ss' := Sort(ls, SymOf), Sort(ss, Itself);
    SortAscending(ls, SymOf);
    SortAscending(ss, Itself);
    SumSort(ls, SymOf);
    SameElements(ls, ls');
    SameElements(ss, ss');
  }

  lemma {:induction false} SumInsert(s: seq<SymCount>, x: SymCount, key: SymCount -> nat)
    ensures Sum(Insert(s, x, key)) == Sum(s) + x.count
  {
    if s == [] || key(s[|s| - 1]) <= key(x) {
      SumOne(s, x);
    } else {
      SumInsert(s[..|s| - 1], x, key);
      SumOne(Insert(s[..|s| - 1], x, key), s[|s| - 1]);
    }
  }

  lemma {:induction false} SumSort(s: seq<SymCount>, key: SymCount -> nat)
    ensures Sum(Sort(s, key)) == Sum(s)
  {
    if s != [] {
      SumSort(s[..|s| - 1], key);
      SumInsert(Sort(s[..|s| - 1], key), s[|s| - 1], key);
    }
  }

  ghost predicate NoTwins<T>(s: seq<T>) {
    forall i, j :: 0 <= i < j < |s| ==> s[i] != s[j]
  }

  /** A rearrangement has the same elements, and no more of any. */
  lemma SameElements<T>(a: seq<T>, b: seq<T>)
    requires multiset(a) == multiset(b)
    ensures |a| == |b| && (forall k :: 0 <= k < |b| ==> b[k] in a) && (NoTwins(a) ==> NoTwins(b))
  {
    assert |multiset(a)| == |a| && |multiset(b)| == |b|;
    forall k | 0 <= k < |b| ensures b[k] in a { assert b[k] in multiset(a); }
    if NoTwins(a) {
      forall i, j | 0 <= i < j < |b| ensures b[i] != b[j] {
        if b[i] == b[j] {
          TwinCount(b, i, j);
          OnceOnly(a, b[i]);
        }
      }
    }
  }

  lemma TwinCount<T>(s: seq<T>, i: nat, j: nat)
    requires i < j < |s| && s[i] == s[j]
    ensures multiset(s)[s[i]] >= 2
  {
    assert s == s[..j] + [s[j]] + s[j + 1..];
    assert s[i] in s[..j];
  }

  lemma {:induction false} OnceOnly<T>(s: seq<T>, x: T)
    requires NoTwins(s)
    ensures multiset(s)[x] <= 1
  {
    if s != [] {
      var n := |s| - 1;
      OnceOnly(s[..n], x);
      assert s == s[..n] + [s[n]];
      if s[n] == x { assert x !in s[..n]; }
    }
  }
}
