/** Canonical prefix codes, as section 3.2.2 of RFC 1951 defines them from a list of code lengths. */
module Canonical {
  import opened Bits

  const MAX_BITS := 16

  ghost predicate Lengths(lens: seq<nat>) {
    forall i :: 0 <= i < |lens| ==> lens[i] <= MAX_BITS
  }

  /** How many symbols have a code of length l. */
  function Count(lens: seq<nat>, l: nat): (n: nat)
    ensures n <= |lens|
  {
    if lens == [] then 0
    else Count(lens[..|lens| - 1], l) + if lens[|lens| - 1] == l then 1 else 0
  }

  /** The smallest code of length l. */
  function First(lens: seq<nat>, l: nat): nat {
    if l <= 1 then 0 else 2 * (First(lens, l - 1) + Count(lens, l - 1))
  }

  /** How many codes are shorter than l. */
  function Offset(lens: seq<nat>, l: nat): nat {
    if l <= 1 then 0 else Offset(lens, l - 1) + Count(lens, l - 1)
  }

  function Rank(lens: seq<nat>, i: nat): nat
    requires i < |lens|
  {
    Count(lens[..i], lens[i])
  }

  function Code(lens: seq<nat>, i: nat): nat
    requires i < |lens|
  {
    First(lens, lens[i]) + Rank(lens, i)
  }

  /** The code of symbol i, most significant bit first, as it is packed into the stream. */
  function CodeBits(lens: seq<nat>, i: nat): (s: seq<bool>)
    requires i < |lens|
    ensures |s| == lens[i]
  {
    Rev(ToBits(Code(lens, i), lens[i]))
  }

  /** Symbol i is what the bit string w starts with. */
  ghost predicate Matches(lens: seq<nat>, i: nat, w: seq<bool>) {
    i < |lens| && 0 < lens[i] <= |w| && w[..lens[i]] == CodeBits(lens, i)
  }

  /** The number of 16-bit strings that start with a code of at most l bits. */
  function Covered(lens: seq<nat>, l: nat): nat
    requires l <= 16
  {
    if l == 0 then 0 else Covered(lens, l - 1) + Shl(Count(lens, l), 16 - l)
  }

  /** Kraft's inequality for codes of at most 16 bits. */
  ghost predicate Kraft(lens: seq<nat>) {
    Covered(lens, MAX_BITS) <= 0x1_0000
  }

  /** The codes of length l are numbers of l bits. */
  ghost predicate FitsAt(lens: seq<nat>, l: nat) {
    First(lens, l) + Count(lens, l) <= Pow2(l)
  }

  ghost predicate Fits(lens: seq<nat>) {
    forall l: nat :: 1 <= l <= MAX_BITS ==> FitsAt(lens, l)
  }

  // ----- counting

  lemma {:induction false} CountPrefix(lens: seq<nat>, i: nat, l: nat)
    requires i <= |lens|
    ensures Count(lens[..i], l) <= Count(lens, l)
    ensures i < |lens| && lens[i] == l ==> Count(lens[..i], l) < Count(lens, l)
  {
    if i < |lens| {
      var rest := lens[..|lens| - 1];
      assert rest[..i] == lens[..i];
      if i < |rest| { CountPrefix(rest, i, l); }
    } else {
      assert lens[..i] == lens;
    }
  }

  lemma CountStep(lens: seq<nat>, i: nat, l: nat)
    requires i < |lens|
    ensures Count(lens[..i + 1], l) == Count(lens[..i], l) + if lens[i] == l then 1 else 0
  {
    assert lens[..i + 1][..i] == lens[..i];
  }

  /** Ranks are handed out in symbol order. */
  lemma RankInjective(lens: seq<nat>, i: nat, j: nat)
    requires i < j < |lens| && lens[i] == lens[j]
    ensures Rank(lens, i) < Rank(lens, j)
  {
    assert lens[..j][..i] == lens[..i];
    CountPrefix(lens[..j], i, lens[i]);
  }

  /** Every rank below the count belongs to some symbol. */
  lemma {:induction false} SymbolOfRank(lens: seq<nat>, l: nat, r: nat) returns (i: nat)
    requires r < Count(lens, l)
    ensures i < |lens| && lens[i] == l && Rank(lens, i) == r
  {
    var n := |lens| - 1;
    var rest := lens[..n];
    if r < Count(rest, l) {
      i := SymbolOfRank(rest, l, r);
      assert rest[..i] == lens[..i];
    } else {
      i := n;
    }
  }

  lemma {:induction false} OffsetBound(lens: seq<nat>, l: nat)
    requires l >= 1
    ensures Offset(lens, l) <= |lens|
  {
    if lens != [] {
      var rest := lens[..|lens| - 1];
      OffsetBound(rest, l);
      OffsetOfAppend(rest, lens[|lens| - 1], l);
      assert lens == rest + [lens[|lens| - 1]];
    } else {
      OffsetEmpty(l);
    }
  }

  lemma {:induction false} OffsetEmpty(l: nat)
    ensures Offset([], l) == 0
  {
    if l > 1 { OffsetEmpty(l - 1); }
  }

  lemma {:induction false} OffsetOfAppend(lens: seq<nat>, x: nat, l: nat)
    ensures Offset(lens + [x], l) == Offset(lens, l) + if 1 <= x < l then 1 else 0
  {
    if l > 1 {
      OffsetOfAppend(lens, x, l - 1);
      assert (lens + [x])[..|lens|] == lens;
    }
  }

  lemma {:induction false} OffsetMono(lens: seq<nat>, l: nat, m: nat)
    requires 1 <= l < m
    ensures Offset(lens, l) + Count(lens, l) <= Offset(lens, m)
  {
    if l + 1 < m { OffsetMono(lens, l, m - 1); }
  }

  /** The symbols sorted by length and then by number: the place of symbol i. */
  function Place(lens: seq<nat>, i: nat): (p: nat)
    requires i < |lens|
  {
    Offset(lens, lens[i]) + Rank(lens, i)
  }

  lemma PlaceInRange(lens: seq<nat>, i: nat)
    requires i < |lens| && lens[i] >= 1
    ensures Place(lens, i) < |lens|
  {
    CountPrefix(lens, i, lens[i]);
    OffsetBound(lens, lens[i] + 1);
  }

  lemma PlaceInjective(lens: seq<nat>, i: nat, j: nat)
    requires i < |lens| && j < |lens| && i != j && lens[i] >= 1 && lens[j] >= 1
    ensures Place(lens, i) != Place(lens, j)
  {
    CountPrefix(lens, i, lens[i]);
    CountPrefix(lens, j, lens[j]);
    if lens[i] < lens[j] { OffsetMono(lens, lens[i], lens[j]); }
    else if lens[j] < lens[i] { OffsetMono(lens, lens[j], lens[i]); }
    else if i < j { RankInjective(lens, i, j); }
    else { RankInjective(lens, j, i); }
  }

  // ----- code intervals

  /** The codes of length l start where the shorter codes stop. */
  lemma {:induction false} CoveredIsFirst(lens: seq<nat>, l: nat)
    requires 1 <= l <= 16
    ensures Covered(lens, l - 1) == Shl(First(lens, l), 16 - l)
    ensures Covered(lens, l) == Shl(First(lens, l) + Count(lens, l), 16 - l)
  {
    if l > 1 {
      CoveredIsFirst(lens, l - 1);
      ShlDouble(First(lens, l - 1) + Count(lens, l - 1), 16 - l);
    } else {
      ShlZero(15);
    }
    ShlAdd(First(lens, l), Count(lens, l), 16 - l);
  }

  lemma {:induction false} CoveredMono(lens: seq<nat>, l: nat, m: nat)
    requires l <= m <= 16
    ensures Covered(lens, l) <= Covered(lens, m)
  {
    if l < m { CoveredMono(lens, l, m - 1); }
  }

  lemma {:induction false} ShlPow2(m: nat, n: nat)
    ensures Shl(Pow2(m), n) == Pow2(m + n)
  {
    if n > 0 { ShlPow2(m, n - 1); assert Pow2(m + n) == 2 * Pow2(m + n - 1); }
  }

  lemma {:induction false} ShlStrict(a: nat, b: nat, n: nat)
    requires a < b
    ensures Shl(a, n) < Shl(b, n)
  {
    if n > 0 { ShlStrict(a, b, n - 1); }
  }

  /** The builder's test, length by length, is Kraft's inequality. */
  lemma FitsIsKraft(lens: seq<nat>)
    ensures Fits(lens) <==> Kraft(lens)
  {
    Pow2Values();
    if Fits(lens) {
      assert FitsAt(lens, 16);
      CoveredIsFirst(lens, 16);
    }
    if Kraft(lens) {
      forall l: nat | 1 <= l <= MAX_BITS ensures FitsAt(lens, l) {
        CoveredMono(lens, l, 16);
        CoveredIsFirst(lens, l);
        ShlPow2(l, 16 - l);
        if First(lens, l) + Count(lens, l) > Pow2(l) {
          ShlStrict(Pow2(l), First(lens, l) + Count(lens, l), 16 - l);
        }
      }
    }
  }

  /** The first n bits of a string are its value, read from the left, shifted down. */
  lemma TopBits(w: seq<bool>, n: nat)
    requires n <= |w|
    ensures w[..n] == Rev(ToBits(Shr(FromBits(Rev(w)), |w| - n), n))
    ensures Shr(FromBits(Rev(w)), |w| - n) < Pow2(n)
  {
    hide FromBits, ToBits, Shr, Pow2;
    var r, m := Rev(w), |w| - n;
    var k := FromBits(r);
    ToFromBits(r);
    ToBitsSplit(k, m, n);
    ShrBound(k, m, n);
    var top := ToBits(Shr(k, m), n);
    forall i | 0 <= i < n ensures w[..n][i] == Rev(top)[i] {
      assert Rev(top)[i] == top[n - 1 - i];
      assert r[m + (n - 1 - i)] == top[n - 1 - i];
    }
  }

  lemma CodeFits(lens: seq<nat>, i: nat)
    requires Fits(lens) && i < |lens| && 1 <= lens[i] <= MAX_BITS
    ensures First(lens, lens[i]) <= Code(lens, i) < First(lens, lens[i]) + Count(lens, lens[i]) <= Pow2(lens[i])
  {
    assert FitsAt(lens, lens[i]);
    CountPrefix(lens, i, lens[i]);
  }

  lemma RevInjective<T>(a: seq<T>, b: seq<T>)
    requires Rev(a) == Rev(b)
    ensures a == b
  {
    assert |a| == |Rev(a)| == |b|;
    forall i | 0 <= i < |a| ensures a[i] == b[i] {
      assert Rev(a)[|a| - 1 - i] == a[i];
    }
  }

  /** A symbol matches exactly the strings whose value shifts down to its code. */
  lemma MatchIsCode(lens: seq<nat>, i: nat, w: seq<bool>)
    requires Fits(lens) && i < |lens| && 1 <= lens[i] <= |w|
    requires lens[i] <= MAX_BITS
    ensures Matches(lens, i, w) <==> Shr(FromBits(Rev(w)), |w| - lens[i]) == Code(lens, i)
  {
    hide Fits, Covered, FromBits, Rev, Shr, ToBits, Pow2, First, Count, Code;
    var l := lens[i];
    var top := Shr(FromBits(Rev(w)), |w| - l);
    TopBits(w, l);
    CodeFits(lens, i);
    if Matches(lens, i, w) {
      RevInjective(ToBits(top, l), ToBits(Code(lens, i), l));
      ToBitsInjective(top, Code(lens, i), l);
    }
  }

  /** A symbol matches only the 16-bit strings whose value lies in the interval of its length. */
  lemma MatchIsInterval(lens: seq<nat>, i: nat, w: seq<bool>)
    requires Fits(lens) && |w| == 16 && i < |lens| && 1 <= lens[i] <= MAX_BITS
    requires Matches(lens, i, w)
    ensures Covered(lens, lens[i] - 1) <= FromBits(Rev(w)) < Covered(lens, lens[i])
  {
    hide CodeBits, Code, Count, First, Covered, Shl, Shr, FromBits, Matches;
    var l := lens[i];
    MatchIsCode(lens, i, w);
    CodeFits(lens, i);
    CoveredIsFirst(lens, l);
    Between(First(lens, l), Code(lens, i), First(lens, l) + Count(lens, l), FromBits(Rev(w)), 16 - l);
  }

  lemma Between(a: nat, c: nat, b: nat, k: nat, n: nat)
    requires a <= c < b && Shr(k, n) == c
    ensures Shl(a, n) <= k < Shl(b, n)
  {
    ShrBounds(k, n);
    ShlMono(a, c, n);
    ShlMono(c + 1, b, n);
  }

  /** Conversely, a string whose value lies among the codes of length l starts with one of them. */
  lemma SymbolOfInterval(lens: seq<nat>, l: nat, w: seq<bool>) returns (i: nat)
    requires Fits(lens) && 1 <= l <= MAX_BITS && |w| == 16
    requires Covered(lens, l - 1) <= FromBits(Rev(w)) < Covered(lens, l)
    ensures Matches(lens, i, w) && lens[i] == l
    ensures Rank(lens, i) == Shr(FromBits(Rev(w)), 16 - l) - First(lens, l)
  {
    var k := FromBits(Rev(w));
    CoveredIsFirst(lens, l);
    ShrMono(First(lens, l), k, First(lens, l) + Count(lens, l), 16 - l);
    i := SymbolOfRank(lens, l, Shr(k, 16 - l) - First(lens, l));
    MatchIsCode(lens, i, w);
  }

  /** A string below the codes of more than l bits starts with a code of at most l bits. */
  lemma {:induction false} ShortCode(lens: seq<nat>, l: nat, w: seq<bool>) returns (i: nat)
    requires Fits(lens) && l <= MAX_BITS && |w| == 16
    requires FromBits(Rev(w)) < Covered(lens, l)
    ensures Matches(lens, i, w) && lens[i] <= l
  {
    if FromBits(Rev(w)) < Covered(lens, l - 1) {
      i := ShortCode(lens, l - 1, w);
    } else {
      i := SymbolOfInterval(lens, l, w);
    }
  }

  /** At most one symbol matches. */
  lemma MatchUnique(lens: seq<nat>, i: nat, j: nat, w: seq<bool>)
    requires Fits(lens) && Lengths(lens) && |w| == 16
    requires Matches(lens, i, w) && Matches(lens, j, w)
    ensures i == j
  {
    MatchIsInterval(lens, i, w);
    MatchIsInterval(lens, j, w);
    MatchIsCode(lens, i, w);
    MatchIsCode(lens, j, w);
    if lens[i] < lens[j] { CoveredMono(lens, lens[i], lens[j] - 1); }
    else if lens[j] < lens[i] { CoveredMono(lens, lens[j], lens[i] - 1); }
    else if i < j { RankInjective(lens, i, j); }
    else if j < i { RankInjective(lens, j, i); }
  }

  /** No code is a prefix of another one. */
  lemma PrefixFree(lens: seq<nat>, i: nat, j: nat)
    requires Fits(lens) && Lengths(lens)
    requires i < |lens| && j < |lens| && lens[i] > 0 && lens[j] > 0
    requires CodeBits(lens, i) <= CodeBits(lens, j)
    ensures i == j
  {
    var w := CodeBits(lens, j) + seq(16 - lens[j], _ => false);
    assert w[..lens[j]] == CodeBits(lens, j);
    assert w[..lens[i]] == CodeBits(lens, i);
    MatchUnique(lens, i, j, w);
  }
}
