/** The small insertion sort of the count unpacker. */
module TansSort {

  /** x goes behind the last element whose key is not larger. */
  function Insert<T>(s: seq<T>, x: T, key: T -> nat): (r: seq<T>)
    ensures |r| == |s| + 1
  {
    if s == [] || key(s[|s| - 1]) <= key(x) then s + [x] else Insert(s[..|s| - 1], x, key) + [s[|s| - 1]]
  }

  function Sort<T>(s: seq<T>, key: T -> nat): (r: seq<T>)
    ensures |r| == |s|
  {
    if s == [] then [] else Insert(Sort(s[..|s| - 1], key), s[|s| - 1], key)
  }

  ghost predicate Ascending<T>(s: seq<T>, key: T -> nat) {
    forall i, j :: 0 <= i < j < |s| ==> key(s[i]) <= key(s[j])
  }

  lemma {:induction false} InsertBelow<T>(s: seq<T>, x: T, key: T -> nat, top: nat)
    requires key(x) <= top && forall i :: 0 <= i < |s| ==> key(s[i]) <= top
    ensures forall i :: 0 <= i < |s| + 1 ==> key(Insert(s, x, key)[i]) <= top
  {
    if s != [] && key(s[|s| - 1]) > key(x) { InsertBelow(s[..|s| - 1], x, key, top); }
  }

  lemma {:induction false} InsertAscending<T>(s: seq<T>, x: T, key: T -> nat)
    requires Ascending(s, key)
    ensures Ascending(Insert(s, x, key), key)
  {
    if s != [] && key(s[|s| - 1]) > key(x) {
      var n := |s| - 1;
      InsertAscending(s[..n], x, key);
      InsertBelow(s[..n], x, key, key(s[n]));
    }
  }

  lemma {:induction false} InsertKeeps<T>(s: seq<T>, x: T, key: T -> nat)
    ensures multiset(Insert(s, x, key)) == multiset(s) + multiset{x}
  {
    if s != [] && key(s[|s| - 1]) > key(x) {
      var n := |s| - 1;
      InsertKeeps(s[..n], x, key);
      assert s == s[..n] + [s[n]];
    }
  }

  /** Sorting orders the elements and keeps them all. */
  lemma {:induction false} SortAscending<T>(s: seq<T>, key: T -> nat)
    ensures Ascending(Sort(s, key), key) && multiset(Sort(s, key)) == multiset(s)
  {
    if s != [] {
      var n := |s| - 1;
      SortAscending(s[..n], key);
      InsertAscending(Sort(s[..n], key), s[n], key);
      InsertKeeps(Sort(s[..n], key), s[n], key);
      assert s == s[..n] + [s[n]];
    }
  }

  /** Where x stands is settled by its neighbours. */
  lemma {:induction false} InsertAt<T>(s: seq<T>, x: T, key: T -> nat, q: nat)
    requires q <= |s| && (q > 0 ==> key(s[q - 1]) <= key(x)) && forall i :: q <= i < |s| ==> key(s[i]) > key(x)
    ensures Insert(s, x, key) == s[..q] + [x] + s[q..]
  {
    if q < |s| {
      var n := |s| - 1;
      InsertAt(s[..n], x, key, q);
      assert s[..n][..q] == s[..q] && s[..n][q..] + [s[n]] == s[q..];
    } else {
      assert s[..q] == s;
    }
  }

  /** The elements from q + 1 to p - 1 were moved up by one. */
  ghost predicate MovedUp<T>(was: seq<T>, now: seq<T>, q: int, p: nat) {
    && -1 <= q < p < |was| == |now|
    && now[..q + 1] == was[..q + 1] && now[q + 2..p + 1] == was[q + 1..p] && now[p + 1..] == was[p + 1..]
  }

  lemma MoveUp<T>(was: seq<T>, now: seq<T>, q: nat, p: nat)
    requires MovedUp(was, now, q, p)
    ensures now[q] == was[q] && MovedUp(was, now[q + 1 := now[q]], q - 1, p)
  {
    assert now[..q + 1][q] == was[..q + 1][q];
    var next := now[q + 1 := now[q]];
    assert next[q + 1..p + 1] == [now[q]] + now[q + 2..p + 1];
    assert was[q..p] == [was[q]] + was[q + 1..p];
    assert next[..q] == now[..q + 1][..q] && was[..q] == was[..q + 1][..q];
  }

  /** The elements behind q, up to p, are larger. */
  ghost predicate LargerThan<T>(s: seq<T>, q: int, p: nat, key: T -> nat, x: T) {
    -1 <= q < p <= |s| && forall i :: q < i < p ==> key(s[i]) > key(x)
  }

  lemma OneLarger<T>(s: seq<T>, q: nat, p: nat, key: T -> nat, x: T)
    requires LargerThan(s, q, p, key, x) && key(s[q]) > key(x)
    ensures LargerThan(s, q - 1, p, key, x)
  {
  }

  /** The element at p in the gap. */
  lemma FillGap<T>(was: seq<T>, now: seq<T>, q: int, p: nat, key: T -> nat)
    requires MovedUp(was, now, q, p) && (q >= 0 ==> key(now[q]) <= key(was[p]))
    requires LargerThan(was, q, p, key, was[p])
    ensures now[q + 1 := was[p]][..p + 1] == Insert(was[..p], was[p], key)
    ensures now[q + 1 := was[p]][p + 1..] == was[p + 1..]
  {
    hide Insert;
    if q >= 0 { MoveUp(was, now, q, p); }
    var s := was[..p];
    InsertAt(s, was[p], key, q + 1);
    assert s[..q + 1] == was[..q + 1] && s[q + 1..] == was[q + 1..p];
    assert now[q + 1 := was[p]][..p + 1] == now[..q + 1] + [was[p]] + now[q + 2..p + 1];
  }

  /** Shifts the larger elements before p up by one and puts the element at p in the gap. */
  method InsertInPlace<T>(a: array<T>, p: nat, key: T -> nat)
    requires p < a.Length
    modifies a
    ensures a[..p + 1] == Insert(old(a[..])[..p], old(a[p]), key) && a[p + 1..] == old(a[..])[p + 1..]
  {
    hide Insert, MovedUp, LargerThan;
    ghost var was := a[..];
    var val := a[p];
    var q := p - 1;
    NothingMoved(was, p, key);
    while q >= 0 && key(a[q]) > key(val)
      invariant -1 <= q < p && MovedUp(was, a[..], q, p)
      invariant LargerThan(was, q, p, key, val)
    {
      MoveUp(was, a[..], q, p);
      OneLarger(was, q, p, key, val);
      Set(a, q + 1, a[q]);
      q := q - 1;
    }
    FillGap(was, a[..], q, p, key);
    Set(a, q + 1, val);
  }

  method Set<T>(a: array<T>, i: nat, x: T)
    requires i < a.Length
    modifies a
    ensures a[..] == old(a[..])[i := x]
  {
    a[i] := x;
  }

  lemma NothingMoved<T>(was: seq<T>, p: nat, key: T -> nat)
    requires p < |was|
    ensures MovedUp(was, was, p - 1, p) && LargerThan(was, p - 1, p, key, was[p])
  {
  }

  /** Sorts the first n elements in place. */
  method SmallInsertionSort<T>(a: array<T>, n: nat, key: T -> nat)
    requires n <= a.Length
    modifies a
    ensures a[..n] == Sort(old(a[..n]), key) && a[n..] == old(a[n..])
  {
    hide Sort, Insert;
    ghost var was := a[..];
    SortShort(was[..if n == 0 then 0 else 1], key);
    var p := 1;
    while p < n
      invariant 1 <= p && (n > 0 ==> p <= n && a[..p] == Sort(was[..p], key) && a[p..] == was[p..])
      invariant n == 0 ==> a[..] == was
    {
      ghost var all := a[..];
      InsertInPlace(a, p, key);
      assert all[p] == all[p..][0] == was[p] && all[..p] == Sort(was[..p], key);
      assert all[p + 1..] == all[p..][1..] == was[p..][1..] == was[p + 1..];
      SortStep(was[..p + 1], key);
      assert was[..p + 1][..p] == was[..p];
      p := p + 1;
    }
  }

  lemma SortShort<T>(s: seq<T>, key: T -> nat)
    requires |s| <= 1
    ensures Sort(s, key) == s
  {
  }

  lemma SortStep<T>(s: seq<T>, key: T -> nat)
    requires s != []
    ensures Sort(s, key) == Insert(Sort(s[..|s| - 1], key), s[|s| - 1], key)
  {
  }
}
