/** The Huffman decoding table of the Oodle decoder: every 11-bit window, most significant bit first
    and then reversed. */
module OodleHuffman {
  import opened Bits

  const LIMIT := 11
  const TABLE_SIZE := 2048

  /** The symbols by code length: those of length l are syms[first[l]..last[l]]. */
  datatype Lists = Lists(first: seq<nat>, last: seq<nat>, syms: seq<byte>)

  ghost predicate ListsOk(s: Lists) {
    && |s.first| == |s.last| == LIMIT + 1
    && forall l :: 1 <= l <= LIMIT ==> s.first[l] <= s.last[l] <= |s.syms|
  }

  function Num(s: Lists, l: nat): nat
    requires ListsOk(s) && 1 <= l <= LIMIT
  {
    s.last[l] - s.first[l]
  }

  function Symbol(s: Lists, l: nat, i: nat): byte
    requires ListsOk(s) && 1 <= l <= LIMIT && i < Num(s, l)
  {
    s.syms[s.first[l] + i]
  }

  /** The first code of length l: codes of a length are consecutive, after all shorter ones. */
  function First(s: Lists, l: nat): nat
    requires ListsOk(s) && 1 <= l <= LIMIT
  {
    if l == 1 then 0 else 2 * (First(s, l - 1) + Num(s, l - 1))
  }

  /** How many windows start with a code shorter than l. */
  function Covered(s: Lists, l: nat): nat
    requires ListsOk(s) && 1 <= l <= LIMIT + 1
  {
    if l == 1 then 0 else Covered(s, l - 1) + Shl(Num(s, l - 1), LIMIT - (l - 1))
  }

  /** The window w starts with code number i of length l. */
  ghost predicate Starts(s: Lists, w: nat, l: nat, i: nat)
    requires ListsOk(s)
  {
    1 <= l <= LIMIT && i < Num(s, l) && Shr(w, LIMIT - l) == First(s, l) + i
  }

  lemma {:induction false} CoveredIsFirst(s: Lists, l: nat)
    requires ListsOk(s) && 1 <= l <= LIMIT
    ensures Covered(s, l) == Shl(First(s, l), LIMIT - l)
  {
    if l > 1 {
      CoveredIsFirst(s, l - 1);
      ShlAdd(First(s, l - 1), Num(s, l - 1), LIMIT - l + 1);
      ShlDouble(First(s, l - 1) + Num(s, l - 1), LIMIT - l);
    } else {
      ShlAdd(0, 0, LIMIT - l);
    }
  }

  lemma {:induction false} CoveredMono(s: Lists, l: nat, m: nat)
    requires ListsOk(s) && 1 <= l <= m <= LIMIT + 1
    ensures Covered(s, l) <= Covered(s, m)
  {
    if l < m { CoveredMono(s, l, m - 1); }
  }

  /** A window starts with code i of length l if it lies among the windows of that length. */
  lemma StartsIsInterval(s: Lists, w: nat, l: nat, i: nat)
    requires ListsOk(s) && 1 <= l <= LIMIT && i < Num(s, l)
    ensures Starts(s, w, l, i) <==> Covered(s, l) + Shl(i, LIMIT - l) <= w < Covered(s, l) + Shl(i + 1, LIMIT - l)
    ensures Covered(s, l) + Shl(i + 1, LIMIT - l) <= Covered(s, l + 1)
  {
    hide First, Shl, Shr;
    var n, f := LIMIT - l, First(s, l);
    CoveredIsFirst(s, l);
    ShlAdd(f, i, n);
    ShlAdd(f, i + 1, n);
    assert f + i + 1 == f + (i + 1);
    if Shl(f + i, n) <= w < Shl(f + i + 1, n) { ShrMono(f + i, w, f + i + 1, n); }
    if Shr(w, n) == f + i { ShrBounds(w, n); }
    ShlMono(i + 1, Num(s, l), n);
    CoveredStep(s, l);
  }

  lemma CoveredStep(s: Lists, l: nat)
    requires ListsOk(s) && 1 <= l <= LIMIT
    ensures Covered(s, l + 1) == Covered(s, l) + Shl(Num(s, l), LIMIT - l)
  {
  }

  /** No window starts with two codes: no code is a prefix of another. */
  lemma StartsUnique(s: Lists, w: nat, l: nat, i: nat, m: nat, j: nat)
    requires ListsOk(s) && Starts(s, w, l, i) && Starts(s, w, m, j)
    ensures l == m && i == j
  {
    hide Covered, Shl, Shr, First;
    StartsIsInterval(s, w, l, i);
    StartsIsInterval(s, w, m, j);
    if l < m { CoveredMono(s, l + 1, m); }
    else if m < l { CoveredMono(s, m + 1, l); }
  }

  /** The table entry of a window: length and symbol of the code it starts with. */
  ghost predicate EntryAt(s: Lists, w: nat, len: nat, sym: nat)
    requires ListsOk(s)
  {
    exists i: nat :: i < |s.syms| && Starts(s, w, len, i) && sym == Symbol(s, len, i)
  }

  ghost predicate Filled(s: Lists, lens: seq<byte>, syms: seq<byte>, n: nat)
    requires ListsOk(s)
  {
    n <= |lens| && n <= |syms| && forall w {:trigger lens[w]} :: 0 <= w < n ==> EntryAt(s, w, lens[w], syms[w])
  }

  /** The windows that start with a code of length l, from curCode on. */
  method FillLength(s: Lists, l: nat, lens: array<byte>, syms: array<byte>, curCode: nat)
    requires ListsOk(s) && 1 <= l <= LIMIT && lens != syms && lens.Length == syms.Length == TABLE_SIZE
    requires curCode == Covered(s, l) && Covered(s, l + 1) <= TABLE_SIZE && Filled(s, lens[..], syms[..], curCode)
    modifies lens, syms
    ensures Filled(s, lens[..], syms[..], Covered(s, l + 1))
  {
    hide Covered, Shl, EntryAt;
    var shift, num := LIMIT - l, Num(s, l);
    CoveredStep(s, l);
    forall w | curCode <= w < curCode + Shl(num, shift) { lens[w] := l; }
    assert Filled(s, lens[..], syms[..], curCode) by { FilledKept(s, old(lens[..]), old(syms[..]), lens[..], syms[..], curCode); }
    var i, cur := 0, curCode;
    ShlZero(shift);
    while i < num
      invariant 0 <= i <= num && cur == curCode + Shl(i, shift) && Filled(s, lens[..], syms[..], cur)
      invariant forall w :: curCode <= w < curCode + Shl(num, shift) ==> lens[w] == l
    {
      var sym := s.syms[s.first[l] + i];
      ShlMono(i + 1, num, shift);
      ShlAdd(i, 1, shift);
      ghost var before := syms[..];
      var perSym := Shl(1, shift);
      forall w | cur <= w < cur + perSym { syms[w] := sym; }
      FilledKept(s, lens[..], before, lens[..], syms[..], cur);
      forall w | cur <= w < cur + perSym ensures EntryAt(s, w, lens[w], syms[w]) {
        StartsIsInterval(s, w, l, i);
        EntryOf(s, w, l, i);
      }
      cur := cur + perSym;
      i := i + 1;
    }
  }

  lemma EntryOf(s: Lists, w: nat, l: nat, i: nat)
    requires ListsOk(s) && Starts(s, w, l, i)
    ensures EntryAt(s, w, l, Symbol(s, l, i))
  {
  }

  lemma FilledKept(s: Lists, lens: seq<byte>, syms: seq<byte>, lens1: seq<byte>, syms1: seq<byte>, n: nat)
    requires ListsOk(s) && Filled(s, lens, syms, n) && n <= |lens1| && n <= |syms1|
    requires lens1[..n] == lens[..n] && syms1[..n] == syms[..n]
    ensures Filled(s, lens1, syms1, n)
  {
    forall w | 0 <= w < n ensures EntryAt(s, w, lens1[w], syms1[w]) {
      assert lens1[w] == lens1[..n][w] == lens[..n][w] == lens[w] && syms1[w] == syms1[..n][w] == syms[..n][w] == syms[w];
    }
  }

  /** Builds the table, and succeeds exactly when the codes leave no window over and none short. */
  method Build(s: Lists, lens: array<byte>, syms: array<byte>) returns (ok: bool)
    requires ListsOk(s) && lens != syms && lens.Length == syms.Length == TABLE_SIZE
    modifies lens, syms
    ensures ok <==> Covered(s, LIMIT + 1) == TABLE_SIZE
    ensures ok ==> Filled(s, lens[..], syms[..], TABLE_SIZE)
  {
    hide Covered, Shl, Filled;
    var curCode, codeLen := 0, 1;
    StartFilled(s, lens[..], syms[..]);
    while codeLen < LIMIT
      invariant 1 <= codeLen <= LIMIT && curCode == Covered(s, codeLen) <= TABLE_SIZE
      invariant Filled(s, lens[..], syms[..], curCode)
    {
      var num := s.last[codeLen] - s.first[codeLen];
      CoveredStep(s, codeLen);
      if num != 0 {
        var entries := Shl(num, LIMIT - codeLen);
        if curCode + entries > TABLE_SIZE {
          CoveredMono(s, codeLen + 1, LIMIT + 1);
          return false;
        }
        FillLength(s, codeLen, lens, syms, curCode);
        curCode := curCode + entries;
      } else {
        ShlZero(LIMIT - codeLen);
      }
      codeLen := codeLen + 1;
    }
    var numLast := s.last[LIMIT] - s.first[LIMIT];
    CoveredStep(s, LIMIT);
    ShlNone(numLast);
    if numLast != 0 {
      if curCode + numLast > TABLE_SIZE { return false; }
      FillLength(s, LIMIT, lens, syms, curCode);
      curCode := curCode + numLast;
    }
    ok := curCode == TABLE_SIZE;
  }

  lemma ShlNone(n: nat)
    ensures Shl(n, LIMIT - LIMIT) == n
  {
  }

  lemma StartFilled(s: Lists, lens: seq<byte>, syms: seq<byte>)
    requires ListsOk(s)
    ensures Filled(s, lens, syms, 0) && Covered(s, 1) == 0
  {
  }
}
