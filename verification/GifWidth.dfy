/** How wide the codes of a raster are. */
module GifWidth {
  import opened Bits
  import opened Wrappers
  import opened GifLzw

  /** As many bits as it takes to tell the codes of the dictionary and the next one apart, but no more than
      twelve. */
  ghost predicate WidthOk(z: Lzw) {
    z.width >= 1 && if |z.strs| >= 4096 then z.width == 12 else Pow2(z.width - 1) <= |z.strs| < Pow2(z.width)
  }

  lemma PowersTo(w: nat)
    requires w >= 1
    ensures Pow2(w) == 2 * Pow2(w - 1) && Pow2(12) == 4096
    ensures Pow2(w - 1) <= 4095 ==> w <= 12
  {
    Pow2Values();
    assert Pow2(6) == 64;
    assert Pow2(12) == 4096;
    if w > 12 { Pow2Mono(12, w - 1); }
  }

  /** Nothing is a multiple of 2^w below it. */
  lemma NoMultiple(n: nat, d: nat)
    requires 0 < n < d
    ensures n % d == n
  {
  }

  lemma ItsMultiple(n: nat)
    requires n > 0
    ensures n % n == 0
  {
  }

  lemma WiderOk(width: nat, n: nat)
    requires width >= 1 && n >= 1
    requires if n - 1 >= 4096 then width == 12 else Pow2(width - 1) <= n - 1 < Pow2(width)
    ensures var w := Wider(width, n); w >= 1 && if n >= 4096 then w == 12 else Pow2(w - 1) <= n < Pow2(w)
  {
    hide Pow2, Wider;
    if n > 4096 {
      StaysWide(width, n);
    } else if n == 4096 {
      Twelve(width);
      StaysWide(width, n);
    } else if n < Pow2(width) {
      SameWidth(width, n);
    } else {
      NextWidth(width, n);
    }
  }

  lemma StaysWide(width: nat, n: nat)
    requires n >= 4096
    ensures Wider(width, n) == width
  {
  }

  lemma NextWidth(width: nat, n: nat)
    requires n == Pow2(width) < 4096
    ensures Wider(width, n) == width + 1 && n < Pow2(width + 1)
  {
    ItsMultiple(n);
  }

  lemma Twelve(w: nat)
    requires w >= 1 && Pow2(w - 1) <= 4095 < Pow2(w)
    ensures w == 12
  {
    hide Pow2;
    PowersTo(12);
    PowersTo(w);
    if w < 12 { Pow2Mono(w, 11); }
  }

  lemma SameWidth(width: nat, n: nat)
    requires width >= 1 && n >= 1
    requires if n >= 4096 then width == 12 else Pow2(width - 1) <= n < Pow2(width)
    ensures Wider(width, n) == width
  {
    hide Pow2;
    if n < 4096 { NoMultiple(n, Pow2(width)); }
  }

  lemma InitialWidth(cs: nat)
    requires 2 <= cs <= 11
    ensures WidthOk(Initial(cs)) && Pow2(cs) + 2 < 4096 && Pow2(cs) <= Pow2(cs) + 2 < Pow2(cs + 1)
  {
    Pow2Mono(2, cs);
    Pow2Mono(cs, 11);
    PowersTo(12);
    assert Pow2(2) == 4;
  }

  /** Every code keeps the width right. */
  lemma StepWidth(cs: nat, z: Lzw, code: nat)
    requires 2 <= cs <= 11 && LzwOk(cs, z) && WidthOk(z) && StepCode(cs, z, code).Running?
    ensures WidthOk(StepCode(cs, z, code).next)
  {
    hide Pow2, Roots, Wider;
    InitialWidth(cs);
    var n := |z.strs|;
    if code != ClearCode(cs) {
      if z.prev.None? { SameWidth(z.width, n); } else { WiderOk(z.width, n + 1); }
    }
  }

  /** Where a list of codes leads; none if it is refused, or ended before. */
  ghost function Reach(cs: nat, codes: seq<nat>): (r: Option<Lzw>)
    requires cs <= 12
    ensures r.Some? ==> LzwOk(cs, r.value)
  {
    InitialOk(cs);
    if codes == [] then Some(Initial(cs))
    else
      var n := |codes| - 1;
      match Reach(cs, codes[..n])
      case None => None
      case Some(z) =>
        match StepCode(cs, z, codes[n])
        case Running(next) => StepOk(cs, z, codes[n]); Some(next)
        case _ => None
  }

  /** In every state that codes lead to, the code width is that of the dictionary's size: it grows with the
      entry that no longer fits, and stays at twelve bits. */
  lemma {:induction false} ReachedWidth(cs: nat, codes: seq<nat>)
    requires 2 <= cs <= 11 && Reach(cs, codes).Some?
    ensures WidthOk(Reach(cs, codes).value)
  {
    hide StepCode, WidthOk, LzwOk, Initial;
    if codes == [] {
      InitialWidth(cs);
    } else {
      var n := |codes| - 1;
      ReachedWidth(cs, codes[..n]);
      StepWidth(cs, Reach(cs, codes[..n]).value, codes[n]);
    }
  }

  /** The largest code size has codes of thirteen bits from the first to the last. */
  lemma {:induction false} ReachedThirteen(codes: seq<nat>)
    requires Reach(12, codes).Some?
    ensures Reach(12, codes).value.width == 13
  {
    hide Pow2, Roots;
    PowersTo(12);
    if codes != [] { ReachedThirteen(codes[..|codes| - 1]); }
  }
}
