/** When a writer's code table is the canonical code of a header's counts and symbols: a test of one
    symbol at a time. */
module JpegTables {
  import opened Bits
  import opened Canonical
  import opened JpegHuffman
  import opened JpegCode
  import opened JpegLookup

  lemma {:induction false} CountOfSizes(count: seq<nat>, n: nat, l: nat)
    requires n <= |count|
    ensures Count(Sizes(count, n), l) == if 1 <= l <= n then count[l - 1] else 0
  {
    if n > 0 {
      CountOfSizes(count, n - 1, l);
      CountOfRun(Sizes(count, n - 1), n, count[n - 1], l);
    }
  }

  lemma {:induction false} CountOfRun(lens: seq<nat>, x: nat, m: nat, l: nat)
    ensures Count(lens + seq(m, i => x), l) == Count(lens, l) + if x == l then m else 0
  {
    if m == 0 {
      assert lens + seq(0, i => x) == lens;
    } else {
      CountOfRun(lens, x, m - 1, l);
      var all := lens + seq(m, i => x);
      assert all[..|all| - 1] == lens + seq(m - 1, i => x);
    }
  }

  /** The first code and the first symbol of length l, from the counts alone. */
  function FirstCode(count: seq<nat>, l: nat): nat
    requires l <= |count| + 1
  {
    if l <= 1 then 0 else 2 * (FirstCode(count, l - 1) + count[l - 2])
  }

  function FirstSymbol(count: seq<nat>, l: nat): nat
    requires l <= |count| + 1
  {
    if l <= 1 then 0 else FirstSymbol(count, l - 1) + count[l - 2]
  }

  lemma {:induction false} FirstsOfSizes(count: seq<nat>, n: nat, l: nat)
    requires l <= n + 1 && n <= |count|
    ensures First(Sizes(count, n), l) == FirstCode(count, l) && Offset(Sizes(count, n), l) == FirstSymbol(count, l)
  {
    if l > 1 {
      FirstsOfSizes(count, n, l - 1);
      CountOfSizes(count, n, l - 1);
    }
  }

  /** The entry of v is the code of the place where v stands among the symbols. */
  predicate Right(ht: seq<Entry>, count: seq<nat>, values: seq<byte>, v: nat)
    requires v < |ht| && |count| == 16
  {
    if ht[v].length == 0 then ht[v].code == 0
    else
      && ht[v].length <= 16
      && var l := ht[v].length;
        var i := ht[v].code - FirstCode(count, l) + FirstSymbol(count, l);
        && FirstSymbol(count, l) <= i < FirstSymbol(count, l + 1) && i < |values| && values[i] == v
  }

  predicate Room(count: seq<nat>, l: nat)
    requires 1 <= l <= |count|
  {
    FirstCode(count, l) + count[l - 1] <= Pow2(l)
  }

  lemma RoomIsFit(count: seq<nat>)
    requires |count| == 16 && forall l :: 1 <= l <= 16 ==> Room(count, l)
    ensures Fits(Sizes(count, 16))
  {
    hide First, FirstCode, Sizes, Pow2, Count;
    forall l: nat | 1 <= l <= 16 ensures FitsAt(Sizes(count, 16), l) {
      assert Room(count, l);
      FirstsOfSizes(count, 16, l);
      CountOfSizes(count, 16, l);
    }
  }

  lemma RightIsCoded(ht: seq<Entry>, count: seq<nat>, values: seq<byte>, v: nat) returns (i: nat)
    requires v < |ht| && |count| == 16 && Right(ht, count, values, v) && ht[v].length > 0
    requires !Blind(Sizes(count, 16), NOT_FAST)
    ensures CodedAs(ht, Sizes(count, 16), values, v, i)
  {
    hide First, Offset, FirstCode, FirstSymbol, Sizes, Count, Sorted;
    var lens, l := Sizes(count, 16), ht[v].length;
    i := ht[v].code - FirstCode(count, l) + FirstSymbol(count, l);
    SizesSorted(count, 16);
    FirstsOfSizes(count, 16, l);
    FirstsOfSizes(count, 16, l + 1);
    AtPlace(lens, l, i);
    PlaceIsIndex(lens, i);
  }

  /** The symbols of length l stand between the first of length l and the first of length l + 1. */
  lemma AtPlace(lens: seq<nat>, l: nat, i: nat)
    requires Sorted(lens) && l >= 1 && Offset(lens, l) <= i < Offset(lens, l + 1)
    ensures i < |lens| && lens[i] == l
  {
    hide Offset;
    ShorterFirst(lens, l);
    ShorterFirst(lens, l + 1);
  }

  lemma AllRight(ht: seq<Entry>, count: seq<nat>, values: seq<byte>)
    requires |count| == 16 && (forall v :: 0 <= v < |ht| ==> Right(ht, count, values, v)) && !Blind(Sizes(count, 16), NOT_FAST)
    ensures Agrees(ht, Sizes(count, 16), values)
  {
    hide Right, CodedAs;
    forall v: nat | v < |ht| && ht[v].length > 0 ensures exists i: nat :: CodedAs(ht, Sizes(count, 16), values, v, i) {
      var i := RightIsCoded(ht, count, values, v);
    }
  }

  lemma {:induction false} SizesLength(count: seq<nat>, n: nat)
    requires n <= |count|
    ensures |Sizes(count, n)| == FirstSymbol(count, n + 1)
  {
    if n > 0 { SizesLength(count, n - 1); }
  }

  /** If the codes of the last length fit, those of all lengths do. */
  lemma {:induction false} RoomFromLast(count: seq<nat>, n: nat)
    requires n <= |count| + 1 && FirstCode(count, n) <= Pow2(n)
    ensures forall l :: 1 <= l < n && l <= |count| ==> Room(count, l)
  {
    if n > 1 { RoomFromLast(count, n - 1); }
  }

  /** A right entry's code has as many bits as it should. */
  lemma RightIsTable(ht: seq<Entry>, count: seq<nat>, values: seq<byte>)
    requires |ht| == 256 && |count| == 16 && (forall v :: 0 <= v < |ht| ==> Right(ht, count, values, v))
    requires forall l :: 1 <= l <= 16 ==> Room(count, l)
    ensures Table(ht)
  {
    forall v | 0 <= v < 256 ensures ht[v].length <= 16 && ht[v].code < Pow2(ht[v].length) {
      assert Right(ht, count, values, v);
      if ht[v].length > 0 { assert Room(count, ht[v].length); }
    }
  }
}
