/** Writing counts: Exp-Golomb codes of their differences to a prediction, read back as the counts. */
module TansCodes {
  import opened Bits
  import opened MsbFirst
  import opened MsbRegister
  import opened TansSpec
  import opened TansShape
  import opened TansUnpackDelta
  import opened Wrappers

  // ----- bits that come next

  /** These bits come next; zeros follow the end of the stream. */
  ghost predicate Reads(s: seq<bool>, p: nat, w: seq<bool>) {
    Window(s, p, |w|) == w
  }

  lemma ReadsSplit(s: seq<bool>, p: nat, a: seq<bool>, b: seq<bool>)
    ensures Reads(s, p, a + b) <==> Reads(s, p, a) && Reads(s, p + |a|, b)
  {
    hide Window;
    WindowSplit(s, p, |a|, |b|);
    assert (a + b)[..|a|] == a && (a + b)[|a|..] == b;
    var w := Window(s, p, |a|) + Window(s, p + |a|, |b|);
    assert w[..|a|] == Window(s, p, |a|) && w[|a|..] == Window(s, p + |a|, |b|);
  }

  lemma NothingReads(s: seq<bool>, p: nat)
    ensures Reads(s, p, [])
  {
  }

  lemma NumberReads(s: seq<bool>, p: nat, x: nat, n: nat)
    requires x < Pow2(n)
    ensures Msb(s, p, n) == x <==> Reads(s, p, BitsOf(x, n))
  {
    hide Window, BitsOf, Value, Pow2;
    ValueOfBits(x, n);
    BitsOfValue(Window(s, p, n));
  }

  // ----- Exp-Golomb codes

  /** The code of v with parameter k is that of v + 2^k without its highest digit, so many digits. */
  function Width(v: nat, k: nat): nat {
    Log2(v + Pow2(k))
  }

  lemma WidthBounds(v: nat, k: nat)
    ensures k <= Width(v, k) && Pow2(Width(v, k)) <= v + Pow2(k) < 2 * Pow2(Width(v, k))
  {
    Log2Bounds(v + Pow2(k));
    Log2Unique(Pow2(k), k);
    Log2Mono(Pow2(k), v + Pow2(k));
  }

  function Digits(v: nat, k: nat): (w: seq<bool>)
    ensures |w| == Width(v, k)
  {
    WidthBounds(v, k);
    BitsOf(v + Pow2(k) - Pow2(Width(v, k)), Width(v, k))
  }

  /** What n bits stand for behind a prefix that says that they are n. */
  lemma CodeExactly(s: seq<bool>, p: nat, n: nat, k: nat, v: nat)
    requires k <= n
    ensures v + Pow2(k) == Pow2(n) + Msb(s, p, n) <==> n == Width(v, k) && Reads(s, p, Digits(v, k))
  {
    hide Msb, Pow2, BitsOf, Log2;
    WidthBounds(v, k);
    FieldFits(s, p, n);
    if v + Pow2(k) == Pow2(n) + Msb(s, p, n) { Log2Unique(v + Pow2(k), n); }
    if n == Width(v, k) { NumberReads(s, p, v + Pow2(k) - Pow2(n), n); }
  }

  // ----- differences

  /** Up to twice the prediction to either side, to the larger side as even numbers; beyond it the number itself. */
  function Difference(count: nat, pred: nat): nat
    requires count >= 1
  {
    var c := count - 1;
    if c > 2 * pred then c else if c >= pred then 2 * (c - pred) else 2 * (pred - c) - 1
  }

  lemma DifferenceIs(v: nat, pred: nat, count: nat)
    requires count >= 1
    ensures Unfold(v, pred) == count - 1 <==> v == Difference(count, pred)
  {
  }

  ghost predicate Positive(list: seq<SymCount>) {
    forall i :: 0 <= i < |list| ==> list[i].count >= 1
  }

  function Min(a: nat, b: nat): nat {
    if a < b then a else b
  }

  /** Four times the prediction, and a fraction: it follows the counts, but does not more than double. */
  ghost function Prediction(list: seq<SymCount>): nat
    requires Positive(list)
  {
    if list == [] then 6
    else
      var s := Prediction(list[..|list| - 1]);
      s - s / 4 + Min(list[|list| - 1].count - 1, 2 * (s / 4))
  }

  ghost function Differences(list: seq<SymCount>): (r: seq<nat>)
    requires Positive(list)
    ensures |r| == |list|
  {
    if list == [] then []
    else
      var pre := list[..|list| - 1];
      Differences(pre) + [Difference(list[|list| - 1].count, Prediction(pre) / 4)]
  }

  /** The digits of all differences in turn. */
  ghost function CountBits(list: seq<SymCount>, k: nat): seq<bool>
    requires Positive(list)
  {
    if list == [] then []
    else
      var pre := list[..|list| - 1];
      CountBits(pre, k) + Digits(Difference(list[|list| - 1].count, Prediction(pre) / 4), k)
  }

  /** How many digits a code has is said in front of it, without the k that every code has. */
  predicate PrefixFits(v: nat, k: nat, unary: nat) {
    Width(v, k) <= 15 && unary == Width(v, k) - k
  }

  ghost predicate PrefixesFit(vs: seq<nat>, k: nat, unary: seq<byte>) {
    |vs| <= |unary| && forall i :: 0 <= i < |vs| ==> PrefixFits(vs[i], k, unary[i])
  }

  lemma PrefixesMore(vs: seq<nat>, v: nat, k: nat, unary: seq<byte>)
    requires |vs| < |unary|
    ensures PrefixesFit(vs + [v], k, unary) <==> PrefixesFit(vs, k, unary) && PrefixFits(v, k, unary[|vs|])
  {
    hide PrefixFits;
    var all := vs + [v];
    assert all[|vs|] == v && forall i :: 0 <= i < |vs| ==> all[i] == vs[i];
  }

  // ----- one count

  lemma CountExactly(s: seq<bool>, p: nat, unary: nat, k: nat, state: nat, c: nat, next: nat, at: nat)
    requires c >= 1
    ensures ReadCount(s, p, unary, k, state) == Some(CountRead(c, next, at))
      <==>
      var v := Difference(c, state / 4);
      && PrefixFits(v, k, unary) && Reads(s, p, Digits(v, k)) && at == p + Width(v, k)
      && next == state - state / 4 + Min(c - 1, 2 * (state / 4))
  {
    hide Msb, Pow2, Digits, Width, Difference, Unfold, Reads;
    var v, n := Difference(c, state / 4), unary + k;
    CodeExactly(s, p, n, k, v);
    Pow2Mono(k, n);
    DifferenceIs(Pow2(n) - Pow2(k) + Msb(s, p, n), state / 4, c);
  }

  // ----- all counts

  /** The list is of these symbols, and its codes are what the bits go on with. */
  ghost predicate CountsStand(s: seq<bool>, p: nat, unary: seq<byte>, k: nat, syms: seq<nat>, list: seq<SymCount>) {
    && Positive(list) && |list| <= |syms| && (forall i :: 0 <= i < |list| ==> list[i].sym == syms[i])
    && PrefixesFit(Differences(list), k, unary) && Reads(s, p, CountBits(list, k))
  }

  lemma Appended(list: seq<SymCount>, c: SymCount, k: nat)
    requires Positive(list) && c.count >= 1
    ensures var all := list + [c];
      var v := Difference(c.count, Prediction(list) / 4);
      && Positive(all) && CountBits(all, k) == CountBits(list, k) + Digits(v, k) && Differences(all) == Differences(list) + [v]
      && Prediction(all) == Prediction(list) - Prediction(list) / 4 + Min(c.count - 1, 2 * (Prediction(list) / 4))
  {
    hide Digits, Difference;
    var all := list + [c];
    assert all[..|list|] == list && all[|list|] == c;
  }

  lemma OneMoreCount(s: seq<bool>, p: nat, unary: seq<byte>, k: nat, syms: seq<nat>, list: seq<SymCount>, c: SymCount)
    requires Positive(list) && c.count >= 1 && |list| < |syms| && |list| < |unary|
    ensures Positive(list + [c])
    ensures var v := Difference(c.count, Prediction(list) / 4);
      CountsStand(s, p, unary, k, syms, list + [c]) <==>
        && CountsStand(s, p, unary, k, syms, list) && c.sym == syms[|list|]
        && PrefixFits(v, k, unary[|list|]) && Reads(s, p + |CountBits(list, k)|, Digits(v, k))
  {
    hide Digits, Width, Difference, Reads, PrefixesFit, PrefixFits, CountBits, Prediction, Differences;
    var all := list + [c];
    var v := Difference(c.count, Prediction(list) / 4);
    Appended(list, c, k);
    PrefixesMore(Differences(list), v, k, unary);
    ReadsSplit(s, p, CountBits(list, k), Digits(v, k));
    assert all[|list|] == c && forall i :: 0 <= i < |list| ==> all[i] == list[i];
  }

  lemma CountThere(s: seq<bool>, p: nat, unary: seq<byte>, k: nat, syms: seq<nat>, list: seq<SymCount>, d: CountRead)
    requires CountsStand(s, p, unary, k, syms, list) && |list| < |syms| && |list| < |unary| && Positive(list) && d.count >= 1
    requires ReadCount(s, p + |CountBits(list, k)|, unary[|list|], k, Prediction(list)) == Some(d)
    ensures var all := list + [SymCount(syms[|list|], d.count)];
      CountsStand(s, p, unary, k, syms, all) && Positive(all) && d.pred == Prediction(all) && d.p == p + |CountBits(all, k)|
  {
    hide ReadCount, CountsStand, CountBits, Prediction, Digits, Width, Difference, PrefixFits, Reads;
    var c := SymCount(syms[|list|], d.count);
    Appended(list, c, k);
    OneMoreCount(s, p, unary, k, syms, list, c);
    CountExactly(s, p + |CountBits(list, k)|, unary[|list|], k, Prediction(list), d.count, d.pred, d.p);
  }

  /** The counts that are read from some bits are those whose codes the bits are. */
  lemma {:induction false} CountsThere(s: seq<bool>, p: nat, unary: seq<byte>, k: nat, syms: seq<nat>, m: nat)
    requires m <= |syms| && m <= |unary| && ReadCounts(s, p, unary, k, syms, m).Some?
    ensures var c := ReadCounts(s, p, unary, k, syms, m).value;
      && |c.list| == m && CountsStand(s, p, unary, k, syms, c.list) && Positive(c.list)
      && c.pred == Prediction(c.list) && c.p == p + |CountBits(c.list, k)|
    decreases m
  {
    hide ReadCount, CountsStand, CountBits, Prediction, Positive;
    if m == 0 {
      NoCounts(s, p, unary, k, syms);
    } else {
      CountsThere(s, p, unary, k, syms, m - 1);
      var c := ReadCounts(s, p, unary, k, syms, m - 1).value;
      CountPositive(s, c.p, unary[m - 1], k, c.pred);
      CountThere(s, p, unary, k, syms, c.list, ReadCount(s, c.p, unary[m - 1], k, c.pred).value);
    }
  }

  lemma NoCounts(s: seq<bool>, p: nat, unary: seq<byte>, k: nat, syms: seq<nat>)
    ensures Positive([]) && CountsStand(s, p, unary, k, syms, []) && CountBits([], k) == [] && Prediction([]) == 6
    ensures ReadCounts(s, p, unary, k, syms, 0) == Some(CountsRead([], 6, p))
  {
  }

  lemma StandPositive(s: seq<bool>, p: nat, unary: seq<byte>, k: nat, syms: seq<nat>, list: seq<SymCount>)
    requires CountsStand(s, p, unary, k, syms, list)
    ensures Positive(list)
  {
  }

  lemma CountPositive(s: seq<bool>, p: nat, unary: nat, k: nat, state: nat)
    requires ReadCount(s, p, unary, k, state).Some?
    ensures ReadCount(s, p, unary, k, state).value.count >= 1
  {
    hide Unfold, Msb, Pow2;
  }

  lemma {:induction false} CountsAreRead(s: seq<bool>, p: nat, unary: seq<byte>, k: nat, syms: seq<nat>, list: seq<SymCount>)
    requires CountsStand(s, p, unary, k, syms, list) && |list| <= |unary|
    ensures ReadCounts(s, p, unary, k, syms, |list|) == Some(CountsRead(list, Prediction(list), p + |CountBits(list, k)|))
    decreases |list|
  {
    hide ReadCount, CountsStand, CountBits, Prediction, Digits, Width, Difference, PrefixFits, Reads;
    StandPositive(s, p, unary, k, syms, list);
    NoCounts(s, p, unary, k, syms);
    if list != [] {
      var m := |list| - 1;
      var pre, c := list[..m], list[m];
      assert list == pre + [c];
      StandShort(s, p, unary, k, syms, list);
      Appended(pre, c, k);
      OneMoreCount(s, p, unary, k, syms, pre, c);
      CountsAreRead(s, p, unary, k, syms, pre);
      var v := Difference(c.count, Prediction(pre) / 4);
      CountExactly(s, p + |CountBits(pre, k)|, unary[m], k, Prediction(pre), c.count, Prediction(list),
                   p + |CountBits(pre, k)| + Width(v, k));
    }
  }

  lemma StandShort(s: seq<bool>, p: nat, unary: seq<byte>, k: nat, syms: seq<nat>, list: seq<SymCount>)
    requires CountsStand(s, p, unary, k, syms, list)
    ensures |list| <= |syms| && |list| <= |unary|
  {
  }
}
