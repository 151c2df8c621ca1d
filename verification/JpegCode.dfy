/** The coded form of a block of quantised coefficients, sections F.1.2.1 and F.1.2.2 of ITU-T T.81. */
module JpegCode {
  import opened Bits
  import opened Canonical
  import opened MsbFirst
  import opened JpegLookup

  /** How many bits the magnitude takes. */
  function Category(m: nat): (n: nat)
    ensures m < Pow2(n) && (n > 0 ==> Pow2(n - 1) <= m)
  {
    if m == 0 then 0 else 1 + Category(m / 2)
  }

  /** The magnitude bits: negative values are coded as one less than what they are in two's complement. */
  function Magnitude(v: int): (w: seq<bool>)
    requires v != 0
    ensures |w| == Category(Abs(v)) >= 1
  {
    var n := Category(Abs(v));
    BitsOf(if v > 0 then v else v - 1 + Pow2(n), n)
  }

  /** EXTEND gives back the value that the magnitude bits were taken of. */
  lemma ExtendMagnitude(v: int)
    requires v != 0
    ensures Extend(Magnitude(v)) == v
  {
    hide BitsOf, Value, Pow2;
    var n := Category(Abs(v));
    PowerStep(n);
    ValueOfBits(if v > 0 then v else v - 1 + Pow2(n), n);
    TopBit(Magnitude(v));
  }

  lemma PowerStep(n: nat)
    requires n >= 1
    ensures Pow2(n) == 2 * Pow2(n - 1)
  {
  }

  lemma {:induction false} CategoryBound(m: nat, k: nat)
    requires m < Pow2(k)
    ensures Category(m) <= k
  {
    if m > 0 && k > 0 { CategoryBound(m / 2, k - 1); }
  }

  // ----- code tables

  /** A writer's code table: the code and its length for every symbol; length zero where it has none. */
  datatype Entry = Entry(code: nat, length: nat)

  predicate Table(ht: seq<Entry>) {
    |ht| == 256 && forall v :: 0 <= v < 256 ==> ht[v].length <= 16 && ht[v].code < Pow2(ht[v].length)
  }

  function SymbolBits(ht: seq<Entry>, v: nat): seq<bool>
    requires v < |ht|
  {
    BitsOf(ht[v].code, ht[v].length)
  }

  /** The symbol is coded as the i-th code of the canonical code of lens, which the reader can see. */
  ghost predicate CodedAs(ht: seq<Entry>, lens: seq<nat>, values: seq<byte>, v: nat, i: nat) {
    v < |ht| && i < |lens| && i < |values| && values[i] == v && SymbolBits(ht, v) == CodeBits(lens, i) && !Blind(lens, i)
  }

  /** The table has the codes that the header's counts and symbols define. */
  ghost predicate Agrees(ht: seq<Entry>, lens: seq<nat>, values: seq<byte>) {
    forall v: nat :: v < |ht| && ht[v].length > 0 ==> exists i: nat :: CodedAs(ht, lens, values, v, i)
  }

  // ----- blocks

  /** The first coefficient from k on that is not zero, in zigzag order. */
  function NextNonzero(du: seq<int>, k: nat): (z: nat)
    requires k <= |du|
    ensures k <= z <= |du| && (forall i :: k <= i < z ==> du[i] == 0) && (z < |du| ==> du[z] != 0)
    decreases |du| - k
  {
    if k < |du| && du[k] == 0 then NextNonzero(du, k + 1) else k
  }

  /** The symbol that codes a run of zeros and the category of the coefficient behind it. */
  function RunCategory(run: nat, v: int): nat {
    run * 16 + Category(Abs(v))
  }

  /** The coefficients are small enough, and the table has a code for every symbol they need. */
  ghost predicate AcCodable(ht: seq<Entry>, du: seq<int>)
    requires |ht| == 256 && |du| == 64
  {
    && ht[0].length > 0 && ht[0xF0].length > 0
    && forall i: nat, run: nat :: 1 <= i < 64 && du[i] != 0 && run < 16 ==> HasCode(ht, run, du[i])
  }

  ghost predicate HasCode(ht: seq<Entry>, run: nat, v: int)
    requires |ht| == 256
  {
    Category(Abs(v)) <= 15 && RunCategory(run, v) < 256 && ht[RunCategory(run, v)].length > 0
  }

  /** The coefficients from k on: runs of 16 zeros, runs and values, and an end if zeros remain. */
  ghost function AcBits(ht: seq<Entry>, du: seq<int>, k: nat): seq<bool>
    requires |ht| == 256 && |du| == 64 && 1 <= k <= 64 && AcCodable(ht, du)
    decreases 64 - k
  {
    var z := NextNonzero(du, k);
    if k == 64 then []
    else if z == 64 then SymbolBits(ht, 0)
    else if z - k >= 16 then SymbolBits(ht, 0xF0) + AcBits(ht, du, k + 16)
    else
      assert HasCode(ht, z - k, du[z]);
      SymbolBits(ht, RunCategory(z - k, du[z])) + (Magnitude(du[z]) + AcBits(ht, du, z + 1))
  }

  /** The difference to the DC coefficient before. */
  ghost predicate DcCodable(ht: seq<Entry>, diff: int)
    requires |ht| == 256
  {
    Category(Abs(diff)) <= 15 && ht[Category(Abs(diff))].length > 0
  }

  ghost function DcBits(ht: seq<Entry>, diff: int): seq<bool>
    requires |ht| == 256 && DcCodable(ht, diff)
  {
    SymbolBits(ht, Category(Abs(diff))) + if diff == 0 then [] else Magnitude(diff)
  }

  /** Both tables have all the codes that the block needs. */
  ghost predicate BlockCodable(htd: seq<Entry>, hta: seq<Entry>, du: seq<int>, pred: int) {
    |htd| == |hta| == 256 && |du| == 64 && DcCodable(htd, du[0] - pred) && AcCodable(hta, du)
  }

  /** A block: the difference to the DC coefficient of the block before, and the AC coefficients. */
  ghost function BlockBits(htd: seq<Entry>, hta: seq<Entry>, du: seq<int>, pred: int): seq<bool>
    requires BlockCodable(htd, hta, du, pred)
  {
    DcBits(htd, du[0] - pred) + AcBits(hta, du, 1)
  }

  // ----- what comes next

  /** The symbol that codes what follows from coefficient k on. */
  ghost function NextSymbol(du: seq<int>, k: nat): nat
    requires |du| == 64 && k < 64
  {
    var z := NextNonzero(du, k);
    if z == 64 then 0 else if z - k >= 16 then 0xF0 else RunCategory(z - k, du[z])
  }

  /** The bits behind that symbol. */
  ghost function AfterSymbol(ht: seq<Entry>, du: seq<int>, k: nat): seq<bool>
    requires |ht| == 256 && |du| == 64 && 1 <= k < 64 && AcCodable(ht, du)
  {
    var z := NextNonzero(du, k);
    if z == 64 then []
    else if z - k >= 16 then AcBits(ht, du, k + 16)
    else Magnitude(du[z]) + AcBits(ht, du, z + 1)
  }

  lemma AcSplit(ht: seq<Entry>, du: seq<int>, k: nat)
    requires |ht| == 256 && |du| == 64 && 1 <= k < 64 && AcCodable(ht, du)
    ensures NextSymbol(du, k) < 256 && ht[NextSymbol(du, k)].length > 0
    ensures AcBits(ht, du, k) == SymbolBits(ht, NextSymbol(du, k)) + AfterSymbol(ht, du, k)
  {
    hide SymbolBits, Magnitude;
    var z := NextNonzero(du, k);
    assert z < 64 && z - k < 16 ==> HasCode(ht, z - k, du[z]);
  }

  /** What the symbol says: the end, 16 zeros, or a run and the category of the coefficient. */
  lemma SymbolSays(ht: seq<Entry>, du: seq<int>, k: nat)
    requires |ht| == 256 && |du| == 64 && 1 <= k < 64 && AcCodable(ht, du)
    ensures var v, z := NextSymbol(du, k), NextNonzero(du, k);
      && (v % 16 == 0 && v != 0xF0 ==> z == 64 && AfterSymbol(ht, du, k) == [])
      && (v == 0xF0 ==> k + 16 <= z < 64 && AfterSymbol(ht, du, k) == AcBits(ht, du, k + 16))
      && (v % 16 != 0 ==> z < 64 && z == k + v / 16 && v % 16 == Category(Abs(du[z])) <= 15 &&
                          AfterSymbol(ht, du, k) == Magnitude(du[z]) + AcBits(ht, du, z + 1))
  {
    hide AcBits, Magnitude, Pow2;
    var z := NextNonzero(du, k);
    assert z < 64 && z - k < 16 ==> HasCode(ht, z - k, du[z]);
    assert z < 64 ==> Category(Abs(du[z])) >= 1;
  }

  lemma AcEnd(ht: seq<Entry>, du: seq<int>)
    requires |ht| == 256 && |du| == 64 && AcCodable(ht, du)
    ensures AcBits(ht, du, 64) == []
  {
  }
}
