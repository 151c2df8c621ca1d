/** A whole array: its header, the counts, and the two streams behind it. */
module TansHeader {
  import opened Bits
  import opened MsbFirst
  import opened MsbRegister
  import opened VarBits
  import opened TansSpec
  import opened TansTable
  import opened TansCounts
  import opened TansUnpack4
  import opened TansUnpackDelta
  import opened TansDecode
  import opened TansEnd
  import opened TansX2
  import opened TansArray
  import TansSort
  import opened Wrappers

  datatype Unpacked = Unpacked(larger: seq<SymCount>, singles: seq<nat>, p: nat)

  /** The counts that stand at p, in the form that the first bit says, and the position behind them;
      None if they are refused. */
  ghost function CountsAt(s: seq<bool>, p: nat, lbits: nat): Option<Unpacked>
    requires lbits >= 1
  {
    if Msb(s, p, 1) != 0 then
      match ReadDelta(s, p + 1, lbits)
      case None => None
      case Some(c) => Some(Unpacked(Larger(c.list), Singles(c.list), c.p))
    else
      var h := ReadHeader4(s, p + 1, lbits);
      if Good4(h, lbits) then
        var list := List4(h, lbits);
        Some(Unpacked(TansSort.Sort(Larger(list), SymOf), TansSort.Sort(Singles(list), TansCounts.Itself), h.after))
      else None
  }

  /** Whatever the bits, accepted counts are of distinct symbols and fill the state space. */
  lemma CountsAtOk(s: seq<bool>, p: nat, lbits: nat)
    requires 1 <= lbits <= L_BITS_MAX && CountsAt(s, p, lbits).Some?
    ensures CountsOk(lbits, CountsAt(s, p, lbits).value.larger, CountsAt(s, p, lbits).value.singles)
  {
    hide CountsOk, Good4, Msb, TansSort.Sort, Larger, Singles, ReadDelta;
    if Msb(s, p, 1) != 0 {
      DeltaIsOk(s, p + 1, lbits);
    } else {
      HeaderByte(s, p + 1, lbits);
      GoodIsOk(ReadHeader4(s, p + 1, lbits), lbits);
    }
  }

  /** Unpacks the counts in either form. */
  method UnPackCounts(vb: Reader, lbits: nat, singles: array<nat>, larger: array<SymCount>)
    returns (ok: bool, numSingles: nat, numLarger: nat)
    requires vb.Valid() && 1 <= lbits <= L_BITS_MAX && singles.Length == larger.Length == 256
    modifies vb, singles, larger
    ensures vb.Valid() && old(vb.Pos()) >= 0
    ensures
      match CountsAt(MsbBits(vb.data), old(vb.Pos()), lbits)
      case None => !ok
      case Some(c) =>
        && ok && vb.Pos() == c.p && numSingles <= 256 && numLarger <= 256
        && larger[..numLarger] == c.larger && singles[..numSingles] == c.singles
  {
    hide Stands, MsbBits, Good4, Msb, TansSort.Sort, Larger, Singles, ReadDelta, ReadHeader4;
    vb.Refill();
    Limits(vb.data, vb.Pos(), vb.bits, 63 - vb.inv_bitlen, vb.cur);
    var kind := vb.Get1();
    Limits(vb.data, vb.Pos(), vb.bits, 63 - vb.inv_bitlen, vb.cur);
    if kind != 0 {
      ok, numSingles, numLarger := UnPackCountDelta(vb, lbits, singles, larger);
    } else {
      ok, numSingles, numLarger := UnPackCounts4(vb, lbits, singles, larger);
    }
  }

  lemma HeaderByte(s: seq<bool>, p: nat, lbits: nat)
    requires lbits >= 1
    ensures ReadHeader4(s, p, lbits).mps < 256
  {
    hide Pairs, Msb;
    var n, w := Msb(s, p, 3) + 2, Log2(lbits) + 1;
    ByteField(s, PairPos(p + 3 + w, Msb(s, p + 3, w), n - 1));
  }

  /** What the header gave: the counts, and where the streams start. */
  datatype Header = Header(lbits: nat, larger: seq<SymCount>, singles: seq<nat>, start: nat)

  ghost predicate HeaderOk(comp: seq<byte>, h: Header) {
    8 <= h.lbits && CountsOk(h.lbits, h.larger, h.singles) && h.start < |comp|
  }

  /** Decoding the streams one field at a time gives these symbols and end states, and meets in the
      middle. */
  ghost predicate Holds(comp: seq<byte>, h: Header, symbols: seq<byte>)
    requires HeaderOk(comp, h) && |symbols| >= 5
  {
    var table, streams := Table(h.lbits, h.larger, h.singles), comp[h.start..];
    && TableOk(table) && StatesOk(Opening(streams, h.lbits).states, |table|)
    && var r := Decode(table, streams, Opening(streams, h.lbits), |symbols| - 5);
      Meets(streams, r) && symbols == r.out + r.states
  }

  /** The header that the bytes begin with: a zero bit, the size of the state space, and the counts; the
      streams start at the next whole byte. None if it is refused. */
  ghost function HeaderOf(comp: seq<byte>): Option<Header> {
    var s := MsbBits(comp);
    var lbits := Msb(s, 1, 2) + 8;
    if Msb(s, 0, 1) != 0 || lbits > L_BITS_MAX then None
    else
      match CountsAt(s, 3, lbits)
      case None => None
      case Some(c) => if (c.p + 7) / 8 < |comp| then Some(Header(lbits, c.larger, c.singles, (c.p + 7) / 8)) else None
  }

  lemma HeaderOfOk(comp: seq<byte>)
    requires HeaderOf(comp).Some?
    ensures HeaderOk(comp, HeaderOf(comp).value)
  {
    hide CountsAt, Msb, MsbBits, CountsOk;
    CountsAtOk(MsbBits(comp), 3, Msb(MsbBits(comp), 1, 2) + 8);
  }

  /** Reads the header. */
  method ReadHeader(comp: seq<byte>) returns (ok: bool, h: Header)
    requires |comp| >= 8
    ensures
      match HeaderOf(comp)
      case None => !ok
      case Some(want) => ok && h == want
  {
    hide Stands, MsbBits, Msb, CountsAt;
    ok, h := false, Header(0, [], [], 0);
    var vb := new Reader(comp, 0);
    Limits(vb.data, vb.Pos(), vb.bits, 63 - vb.inv_bitlen, vb.cur);
    var flag := vb.Get1();
    if flag != 0 { return; }
    SizeField(MsbBits(comp));
    var lbits := vb.Get(2);
    lbits := lbits + 8;
    if lbits > L_BITS_MAX { return; }
    var singles, larger := new nat[256], new SymCount[256](i => SymCount(0, 0));
    var good, numSingles, numLarger := UnPackCounts(vb, lbits, singles, larger);
    if !good { return; }
    Limits(vb.data, vb.Pos(), vb.bits, 63 - vb.inv_bitlen, vb.cur);
    var start := vb.cur - (63 - vb.inv_bitlen) / 8;
    if |comp| - start <= 0 { return; }
    ok, h := true, Header(lbits, larger[..numLarger], singles[..numSingles], start);
  }

  lemma SizeField(s: seq<bool>)
    ensures Msb(s, 1, 2) < 4
  {
    ValueBound(Window(s, 1, 2));
    assert Pow2(2) == 4;
  }

  /** Decodes an array into `to`, which takes the symbols and five bytes more. It succeeds if and only if
      the header is accepted and the streams meet, and then writes what they say. */
  method GetArray(comp: seq<byte>, to: array<byte>, stack: seq<byte>) returns (n: int)
    requires |stack| == TAIL_SIZE
    modifies to
    ensures n == -1 || n == |comp|
    ensures n >= 0 <==> |comp| >= 8 && to.Length >= 5 && HeaderOf(comp).Some? && CanHold(comp, HeaderOf(comp).value, to.Length)
    ensures n >= 0 ==> HeaderOk(comp, HeaderOf(comp).value) && Holds(comp, HeaderOf(comp).value, to[..])
  {
    hide CountsOk, Table, Opening, Decode, TableOk, StatesOk, Meets, HeaderOf;
    n := -1;
    if |comp| < 8 { return; }
    if to.Length < 5 { return; }
    var good, h := ReadHeader(comp);
    if !good { return; }
    HeaderOfOk(comp);
    var ok := GetArrayTans(comp[h.start..], to, h.lbits, h.larger, h.singles, stack);
    if ok { n := |comp|; }
  }

  ghost predicate CanHold(comp: seq<byte>, h: Header, size: nat) {
    HeaderOk(comp, h) && size >= 5 && exists symbols :: |symbols| == size && Holds(comp, h, symbols)
  }
}
