/** Every list of counts has a header. */
module TansAnyList {
  import opened Bits
  import opened MsbFirst
  import opened TansSpec
  import opened TansBuckets
  import opened TansTable
  import opened TansShape
  import opened TansUnpackDelta
  import opened TansCodes
  import opened TansRunCodes
  import opened TansWriteDelta
  import opened Wrappers

  // ----- the symbols as runs

  /** Where the last run ends. */
  function EndOf(r: seq<nat>): nat
    requires |r| >= 2
  {
    r[|r| - 2] + r[|r| - 1]
  }

  lemma ApartPrefix(r: seq<nat>, q: seq<nat>, n: nat, end: nat, limit: nat)
    requires 2 * n <= |r| && 2 * n <= |q| && q[..2 * n] == r[..2 * n] && Apart(r, n, end) && end <= limit
    ensures Apart(q, n, limit)
  {
    forall k | 0 <= k < n ensures StartOf(q, k) == StartOf(r, k) && LengthOf(q, k) == LengthOf(r, k) {
      assert q[..2 * n][2 * k] == r[..2 * n][2 * k] && q[..2 * n][2 * k + 1] == r[..2 * n][2 * k + 1];
    }
  }

  lemma ApartBehind(r: seq<nat>, n: nat, start: nat, len: nat)
    requires |r| == 2 * n && len >= 1 && start + len <= 256 && Apart(r, n, 257) && (n > 0 ==> EndOf(r) < start)
    ensures Apart(r + [start, len], n + 1, 257)
  {
    var q := r + [start, len];
    assert q[..2 * n] == r == r[..2 * n];
    ApartPrefix(r, q, n, 257, 257);
    assert StartOf(q, n) == start && LengthOf(q, n) == len;
    forall j | 0 <= j < n ensures StartOf(q, j) + LengthOf(q, j) < start {
      assert StartOf(q, j) == StartOf(r, j) && LengthOf(q, j) == LengthOf(r, j);
      assert StartOf(r, n - 1) + LengthOf(r, n - 1) == EndOf(r);
    }
  }

  /** A run behind all others. */
  lemma RunBehind(r: seq<nat>, n: nat, start: nat, len: nat)
    requires |r| == 2 * n && len >= 1 && start + len <= 256 && Apart(r, n, 257) && (n > 0 ==> EndOf(r) < start)
    ensures var q := r + [start, len];
      && Apart(q, n + 1, 257) && Total(q, n + 1) == Total(r, n) + len
      && Alphabet(q, n + 1) == Alphabet(r, n) + Span(start, len)
  {
    hide Apart, Span;
    var q := r + [start, len];
    ApartBehind(r, n, start, len);
    SameAlphabet(q, n);
    assert q[..2 * n] == r;
    assert StartOf(q, n) == start && LengthOf(q, n) == len;
  }

  lemma AscendingFront(syms: seq<nat>)
    requires syms != [] && Ascending(syms, 256)
    ensures var m := |syms| - 1;
      && syms == syms[..m] + [syms[m]] && syms[m] < 256
      && (m > 0 ==> Ascending(syms[..m], 256) && syms[..m][m - 1] < syms[m])
  {
  }

  /** Ascending symbols have runs, which end behind the last symbol. */
  lemma {:induction false} AnyAlphabet(syms: seq<nat>) returns (r: seq<nat>)
    requires syms != [] && Ascending(syms, 256)
    ensures Alphabetic(r, |syms|) && Alphabet(r, |r| / 2) == syms && |r| >= 2 && EndOf(r) == syms[|syms| - 1] + 1
  {
    hide Alphabet, Total, Apart, Ascending, Span, EndOf;
    var m := |syms| - 1;
    AscendingFront(syms);
    if m == 0 {
      NothingPlaced();
      r := OneBehind([], 0, syms[0]);
    } else {
      var q := AnyAlphabet(syms[..m]);
      if syms[m] == EndOf(q) {
        r := Lengthened(q, |q| / 2, m);
      } else {
        r := OneBehind(q, |q| / 2, syms[m]);
      }
    }
  }

  lemma OneBehind(q: seq<nat>, n: nat, x: nat) returns (r: seq<nat>)
    requires |q| == 2 * n && x < 256 && Apart(q, n, 257) && (n > 0 ==> EndOf(q) < x)
    ensures Alphabetic(r, Total(q, n) + 1) && |r| == 2 * n + 2 && Alphabet(r, n + 1) == Alphabet(q, n) + [x] && EndOf(r) == x + 1
  {
    hide Alphabet, Total, Apart;
    RunBehind(q, n, x, 1);
    r := q + [x, 1];
    assert Span(x, 1) == [x];
  }

  lemma NothingPlaced()
    ensures Apart([], 0, 257) && Total([], 0) == 0 && Alphabet([], 0) == []
  {
  }

  /** The last run is one symbol longer. */
  lemma Lengthened(q: seq<nat>, n: nat, numSyms: nat) returns (r: seq<nat>)
    requires |q| == 2 * n && n > 0 && Runs(q, n, numSyms) && EndOf(q) < 256
    ensures |r| == 2 * n && Runs(r, n, numSyms + 1) && EndOf(r) == EndOf(q) + 1
    ensures Alphabet(r, n) == Alphabet(q, n) + [EndOf(q)]
  {
    hide Apart, Total, Alphabet;
    var start, len := q[2 * n - 2], q[2 * n - 1];
    var pre := q[..2 * n - 2];
    WithoutLast(q, n);
    RunBehind(pre, n - 1, start, len + 1);
    r := pre + [start, len + 1];
    assert Span(start, len + 1) == Span(start, len) + [start + len];
  }

  lemma WithoutLast(q: seq<nat>, n: nat)
    requires |q| == 2 * n && n > 0 && Apart(q, n, 257)
    ensures var pre := q[..2 * n - 2];
      && Apart(pre, n - 1, 257) && (n > 1 ==> EndOf(pre) < q[2 * n - 2]) && q[2 * n - 1] >= 1
      && Total(q, n) == Total(pre, n - 1) + q[2 * n - 1]
      && Alphabet(q, n) == Alphabet(pre, n - 1) + Span(q[2 * n - 2], q[2 * n - 1])
  {
    hide Span;
    assert StartOf(q, n - 1) == q[2 * n - 2] && LengthOf(q, n - 1) == q[2 * n - 1];
    ShorterApart(q, n);
    SameAlphabet(q, n - 1);
    if n > 1 { assert StartOf(q, n - 2) + LengthOf(q, n - 2) == EndOf(q[..2 * n - 2]); }
  }

  lemma ShorterApart(q: seq<nat>, n: nat)
    requires |q| == 2 * n && n > 0 && Apart(q, n, 257)
    ensures Apart(q[..2 * n - 2], n - 1, 257)
  {
    ApartPrefix(q, q[..2 * n - 2], n - 1, 257, 257);
  }

  // ----- the prefixes

  /** The prediction does not run away from the counts. */
  lemma {:induction false} PredictionBound(list: seq<SymCount>, most: nat)
    requires Positive(list) && forall i :: 0 <= i < |list| ==> list[i].count <= most + 1
    ensures Prediction(list) <= 4 * most + 6
  {
    if list != [] { PredictionBound(list[..|list| - 1], most); }
  }

  lemma {:induction false} DifferencesBound(list: seq<SymCount>, most: nat)
    requires Positive(list) && forall i :: 0 <= i < |list| ==> list[i].count <= most + 1
    ensures forall i :: 0 <= i < |list| ==> Differences(list)[i] <= 2 * most + 2
  {
    hide Prediction;
    if list != [] {
      DifferencesBound(list[..|list| - 1], most);
      PredictionBound(list[..|list| - 1], most);
    }
  }

  lemma {:induction false} CountsBelow(list: seq<SymCount>, i: nat)
    requires i < |list|
    ensures list[i].count <= Sum(list)
  {
    if i < |list| - 1 { CountsBelow(list[..|list| - 1], i); }
  }

  /** How many digits the code of a count in a small state space has at most. */
  lemma WidthSmall(v: nat, k: nat)
    requires v <= 4096 && k < 8
    ensures k <= Width(v, k) <= 15
  {
    hide Pow2, Log2;
    WidthBounds(v, k);
    Pow2Mono(k, 8);
    Pow2Values();
    if Width(v, k) > 15 { Pow2Mono(16, Width(v, k)); }
  }

  lemma CountWidths(list: seq<SymCount>, lbits: nat, k: nat) returns (ws: seq<nat>)
    requires Positive(list) && Sum(list) == Pow2(lbits) && lbits <= L_BITS_MAX && k < 8
    ensures |ws| == |list| && forall i :: 0 <= i < |list| ==> ws[i] < 16 && PrefixFits(Differences(list)[i], k, ws[i])
  {
    hide Sum, Differences, Width;
    Pow2Mono(lbits, 11);
    assert Pow2(11) == 2048 by { Pow2Values(); }
    forall i | 0 <= i < |list| ensures list[i].count <= 2048 { CountsBelow(list, i); }
    var vs := Differences(list);
    DifferencesBound(list, 2047);
    forall i | 0 <= i < |list| ensures k <= Width(vs[i], k) <= 15 { WidthSmall(vs[i], k); }
    ws := seq(|list|, i requires 0 <= i < |list| => Width(vs[i], k) - k);
  }

  lemma LengthWidths(lens: seq<nat>, n: nat) returns (ws: seq<byte>)
    requires |lens| == 2 * n && Short(lens)
    ensures |ws| == 2 * n && LengthPrefixes(lens, n, ws)
  {
    hide Width;
    forall j | 0 <= j < n
      ensures Width(lens[2 * j] - 1, 0) <= 8 && 1 <= Width(lens[2 * j + 1] - 1, 1) <= 8
    {
      ShortWidth(lens[2 * j], 0);
      ShortWidth(lens[2 * j + 1], 1);
    }
    forall i | 0 <= i < 2 * n ensures i % 2 <= Width(lens[i] - 1, i % 2) <= 8 { ShortWidth(lens[i], i % 2); }
    ws := seq<byte>(2 * n, i requires 0 <= i < 2 * n => Width(lens[i] - 1, i % 2) - i % 2);
    forall j | 0 <= j < n ensures PairPrefixes(lens, j, ws) {
      assert (2 * j) % 2 == 0 && (2 * j + 1) % 2 == 1;
    }
  }

  lemma RunWidths(r: seq<nat>, numSyms: nat) returns (ws: seq<byte>)
    requires Alphabetic(r, numSyms)
    ensures |ws| == Lengths(r, numSyms) && RunPrefixes(r, numSyms, ws)
  {
    hide Runs, LengthPrefixes, Short, Width;
    GapsFit(r, numSyms);
    LensShort(r, numSyms);
    ws := LengthWidths(Lens(r, numSyms), |r| / 2 - 1);
    if r[0] > 0 {
      ShortWidth(r[0], 1);
      var first: byte := Width(r[0] - 1, 1) - 1;
      var rest := ws;
      ws := [first] + ws;
      assert ws[1..] == rest;
    }
  }

  lemma JoinedWidths(list: seq<SymCount>, k: nat, cs: seq<nat>, r: seq<nat>, rs: seq<byte>) returns (us: seq<nat>)
    requires Positive(list) && |cs| == |list| && Alphabetic(r, |list|)
    requires forall i :: 0 <= i < |list| ==> cs[i] < 16 && PrefixFits(Differences(list)[i], k, cs[i])
    requires |rs| == Lengths(r, |list|) && RunPrefixes(r, |list|, rs)
    ensures UnaryFits(|list|, us, r) && PrefixesFit(Differences(list), k, Bytes(us))
  {
    hide Runs, RunPrefixes, Alphabetic, Differences, PrefixFits;
    us := cs + rs;
    var b, n := Bytes(us), |list|;
    assert forall i :: 0 <= i < n ==> b[i] == us[i] % 256 == cs[i];
    assert forall i :: 0 <= i < |rs| ==> b[n + i] == us[n + i] % 256 == rs[i];
    assert b[n..] == rs;
  }

  lemma AnyListFits(list: seq<SymCount>, lbits: nat, k: nat) returns (us: seq<nat>, r: seq<nat>)
    requires 2 <= |list| <= 256 && Positive(list) && Sum(list) == Pow2(lbits) && lbits <= L_BITS_MAX && k < 8
    requires forall i :: 0 <= i < |list| ==> list[i].sym < 256
    requires forall i, j :: 0 <= i < j < |list| ==> list[i].sym < list[j].sym
    ensures DeltaFits(list, lbits, k, us, r)
  {
    hide Sum, Differences, PrefixFits, PrefixesFit, UnaryFits, Alphabet, Pow2, Alphabetic, RunPrefixes, Lengths, Positive;
    var n := |list|;
    var syms := seq(n, i requires 0 <= i < n => list[i].sym);
    r := AnyAlphabet(syms);
    var cs := CountWidths(list, lbits, k);
    var rs := RunWidths(r, n);
    us := JoinedWidths(list, k, cs, r, rs);
  }

  /** Whatever the counts of ascending symbols, and whichever the parameter, there is a header of them. */
  lemma AnyListIsRead(list: seq<SymCount>, lbits: nat, k: nat) returns (s: seq<bool>)
    requires 2 <= |list| <= 256 && Positive(list) && Sum(list) == Pow2(lbits) && lbits <= L_BITS_MAX && k < 8
    requires forall i :: 0 <= i < |list| ==> list[i].sym < 256
    requires forall i, j :: 0 <= i < j < |list| ==> list[i].sym < list[j].sym
    ensures ReadDelta(s, 0, lbits) == Some(CountsRead(list, Prediction(list), |s|))
  {
    hide DeltaFits, Sum, Pow2, Positive, Prediction, ReadDelta, ListFits, DeltaBits;
    var us, r := AnyListFits(list, lbits, k);
    FitsList(list, lbits, k, us, r);
    s := DeltaBits(list, lbits, k, us, r);
    WindowInside(s, 0, |s|);
    assert s[0..|s|] == s;
    DeltaIsRead(s, 0, list, lbits, k, us, r);
  }

  lemma FitsList(list: seq<SymCount>, lbits: nat, k: nat, us: seq<nat>, r: seq<nat>)
    requires DeltaFits(list, lbits, k, us, r)
    ensures ListFits(list, lbits, r)
  {
  }
}
