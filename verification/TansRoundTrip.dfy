/** Arrays are read back: whatever the text, what a writer makes of it is decoded to it. */
module TansRoundTrip {
  import opened Bits
  import opened MsbFirst
  import opened MsbRegister
  import opened TansSpec
  import opened TansBuckets
  import opened TansTable
  import opened TansCounts
  import opened TansShape
  import opened TansUnpack4
  import opened TansUnpackDelta
  import opened TansDecode
  import opened TansTail
  import opened TansEnd
  import opened TansX2
  import opened TansArray
  import opened TansHeader
  import opened TansEncode
  import opened TansCodes
  import opened TansRunCodes
  import opened TansWriteDelta
  import opened TansWrite4
  import opened TansAnyList
  import opened TansWriter
  import opened TansWriteArray
  import TansSort
  import opened Wrappers

  // ----- the header

  /** Either form of the counts, and what a writer chooses in it. */
  datatype Form = Delta(k: nat, us: seq<nat>, r: seq<nat>) | Four(d: nat)

  ghost predicate FormFits(list: seq<SymCount>, lbits: nat, form: Form) {
    8 <= lbits <= 11 &&
    match form
    case Delta(k, us, r) => DeltaFits(list, lbits, k, us, r)
    case Four(d) => ListFits4(list, lbits, d)
  }

  ghost function FormBits(list: seq<SymCount>, lbits: nat, form: Form): seq<bool>
    requires FormFits(list, lbits, form)
  {
    match form
    case Delta(k, us, r) => [true] + DeltaBits(list, lbits, k, us, r)
    case Four(d) => [false] + Bits4(list, lbits, d)
  }

  /** A zero, the size of the state space in two bits, and the counts. */
  ghost function HeaderBits(list: seq<SymCount>, lbits: nat, form: Form): seq<bool>
    requires FormFits(list, lbits, form)
  {
    [false] + (BitsOf(lbits - 8, 2) + FormBits(list, lbits, form))
  }

  /** In the second form the counts are not in the order of their symbols, and are sorted. */
  ghost function LargerOf(list: seq<SymCount>, form: Form): seq<SymCount> {
    if form.Delta? then Larger(list) else TansSort.Sort(Larger(list), SymOf)
  }

  ghost function SinglesOf(list: seq<SymCount>, form: Form): seq<nat> {
    if form.Delta? then Singles(list) else TansSort.Sort(Singles(list), TansCounts.Itself)
  }

  lemma OneFlag(s: seq<bool>, p: nat, b: bool)
    ensures Msb(s, p, 1) == (if b then 1 else 0) <==> Reads(s, p, [b])
  {
    hide Msb, Reads;
    assert Pow2(1) == 2;
    NumberReads(s, p, if b then 1 else 0, 1);
    assert BitsOf(1, 1) == [true] && BitsOf(0, 1) == [false];
  }

  lemma CountsThereAt(s: seq<bool>, p: nat, list: seq<SymCount>, lbits: nat, form: Form)
    requires FormFits(list, lbits, form) && Reads(s, p, FormBits(list, lbits, form))
    ensures CountsAt(s, p, lbits)
      == Some(TansHeader.Unpacked(LargerOf(list, form), SinglesOf(list, form), p + |FormBits(list, lbits, form)|))
  {
    hide Msb, Reads, DeltaBits, Bits4, DeltaFits, ListFits4, ReadDelta, ReadHeader4, List4, Larger, Singles, TansSort.Sort,
      Prediction, Sum, Pow2, Proper, Has;
    match form {
      case Delta(k, us, r) =>
        FitsList(list, lbits, k, us, r);
        ReadsSplit(s, p, [true], DeltaBits(list, lbits, k, us, r));
        OneFlag(s, p, true);
        DeltaIsRead(s, p + 1, list, lbits, k, us, r);
      case Four(d) =>
        ReadsSplit(s, p, [false], Bits4(list, lbits, d));
        OneFlag(s, p, false);
        Header4IsRead(s, p + 1, lbits, list, d);
    }
  }

  lemma SizeOk(list: seq<SymCount>, lbits: nat, form: Form)
    requires FormFits(list, lbits, form)
    ensures 8 <= lbits <= L_BITS_MAX
  {
  }

  lemma HeaderFields(s: seq<bool>, lbits: nat, counts: seq<bool>)
    requires 8 <= lbits <= 11 && Reads(s, 0, [false] + (BitsOf(lbits - 8, 2) + counts))
    ensures Msb(s, 0, 1) == 0 && Msb(s, 1, 2) == lbits - 8 && Reads(s, 3, counts)
  {
    hide Msb, Reads, BitsOf;
    ReadsSplit(s, 0, [false], BitsOf(lbits - 8, 2) + counts);
    ReadsSplit(s, 1, BitsOf(lbits - 8, 2), counts);
    OneFlag(s, 0, false);
    assert Pow2(2) == 4;
    NumberReads(s, 1, lbits - 8, 2);
  }

  lemma HeaderIs(comp: seq<byte>, lbits: nat, c: TansHeader.Unpacked)
    requires 8 <= lbits <= L_BITS_MAX && Msb(MsbBits(comp), 0, 1) == 0 && Msb(MsbBits(comp), 1, 2) == lbits - 8
    requires CountsAt(MsbBits(comp), 3, lbits) == Some(c) && (c.p + 7) / 8 < |comp|
    ensures HeaderOf(comp) == Some(Header(lbits, c.larger, c.singles, (c.p + 7) / 8))
  {
    hide Msb, CountsAt, MsbBits;
  }

  lemma HeaderIsRead(comp: seq<byte>, list: seq<SymCount>, lbits: nat, form: Form)
    requires FormFits(list, lbits, form) && Reads(MsbBits(comp), 0, HeaderBits(list, lbits, form))
    requires (|HeaderBits(list, lbits, form)| + 7) / 8 < |comp|
    ensures HeaderOf(comp)
      == Some(Header(lbits, LargerOf(list, form), SinglesOf(list, form), (|HeaderBits(list, lbits, form)| + 7) / 8))
  {
    hide Msb, Reads, FormBits, FormFits, CountsAt, MsbBits, LargerOf, SinglesOf, HeaderOf, BitsOf;
    SizeOk(list, lbits, form);
    HeaderFields(MsbBits(comp), lbits, FormBits(list, lbits, form));
    CountsThereAt(MsbBits(comp), 3, list, lbits, form);
    var p := 3 + |FormBits(list, lbits, form)|;
    HeaderIs(comp, lbits, TansHeader.Unpacked(LargerOf(list, form), SinglesOf(list, form), p));
  }

  lemma Front(s: seq<bool>, w: seq<bool>)
    requires w <= s
    ensures Reads(s, 0, w)
  {
    WindowInside(s, 0, |w|);
  }

  // ----- the array

  lemma {:induction false} SymbolsDistinct(list: seq<SymCount>, r: seq<nat>)
    requires Alphabetic(r, |list|) && Positive(list)
    requires forall i :: 0 <= i < |list| ==> list[i].sym == Alphabet(r, |r| / 2)[i]
    ensures Proper(list)
  {
    hide Alphabet, TansShape.Total;
    var a := Alphabet(r, |r| / 2);
    AlphabetAscends(r, |r| / 2, 256);
    forall i | 0 <= i < |list| ensures list[i].sym == a[i] < 256 { }
  }

  /** What either form hands over are counts of distinct symbols that fill the state space. */
  lemma FormCountsOk(list: seq<SymCount>, lbits: nat, form: Form)
    requires FormFits(list, lbits, form)
    ensures CountsOk(lbits, LargerOf(list, form), SinglesOf(list, form))
  {
    FormIsFair(list, lbits, form);
    hide FormFits, CountsOk, Larger, Singles, TansSort.Sort, Fair;
    SplitOk(lbits, list);
    SortedOk(lbits, Larger(list), Singles(list));
  }

  lemma FormIsFair(list: seq<SymCount>, lbits: nat, form: Form)
    requires FormFits(list, lbits, form)
    ensures Fair(lbits, list)
  {
    hide Sum, Pow2, Proper, UnaryFits, PrefixesFit, Differences, PairsFit, Alphabetic, Alphabet;
    if form.Delta? { SymbolsDistinct(list, form.r); }
  }

  /** The symbols are coded with the last five bytes of the text as the states to end with. */
  ghost function ArrayBytes(list: seq<SymCount>, lbits: nat, form: Form, msg: seq<nat>, last: seq<byte>): seq<byte>
    requires FormFits(list, lbits, form) && |last| == 5 && Message(LargerOf(list, form), SinglesOf(list, form), msg)
  {
    hide FormFits, CountsOk, Message;
    SizeOk(list, lbits, form);
    FormCountsOk(list, lbits, form);
    ByteStates(last, lbits);
    MsbPacked(HeaderBits(list, lbits, form))
    + StreamBytes(lbits, Coding(lbits, LargerOf(list, form), SinglesOf(list, form), msg, last, 0))
  }

  lemma ByteStates(last: seq<byte>, lbits: nat)
    requires |last| == 5 && lbits >= 8
    ensures StatesOk(last, Pow2(lbits))
  {
    Pow2Mono(8, lbits);
    Pow2Values();
  }

  lemma {:induction false} UnaryLong(us: seq<nat>)
    ensures |Unary(us)| >= |us|
  {
    if us != [] { UnaryLong(us[..|us| - 1]); }
  }

  lemma DeltaLong(list: seq<SymCount>, lbits: nat, k: nat, us: seq<nat>, r: seq<nat>)
    requires DeltaFits(list, lbits, k, us, r)
    ensures |DeltaBits(list, lbits, k, us, r)| >= 13
  {
    hide Sum, Pow2, RunCodes, CountBits, EgCode, BitsOf, RunPrefixes, Unary, Alphabet, PrefixesFit, Alphabetic;
    UnaryLong(us);
  }

  lemma Bits4Long(list: seq<SymCount>, lbits: nat, d: nat)
    requires lbits >= 1 && ListFits4(list, lbits, d)
    ensures |Bits4(list, lbits, d)| >= 20
  {
    hide Sum, Pow2, Proper, BitsOf, Log2;
    var pre := list[..|list| - 1];
    assert pre != [] && |PairBits(pre, d)| >= 8 + d;
  }

  /** There are at least three bytes in front of the streams. */
  lemma HeaderLong(list: seq<SymCount>, lbits: nat, form: Form)
    requires FormFits(list, lbits, form)
    ensures |HeaderBits(list, lbits, form)| >= 17
  {
    hide DeltaFits, DeltaBits, ListFits4, Bits4, BitsOf;
    match form {
      case Delta(k, us, r) => FitsList(list, lbits, k, us, r); DeltaLong(list, lbits, k, us, r);
      case Four(d) => Bits4Long(list, lbits, d);
    }
  }

  lemma StreamLong(lbits: nat, c: Coded)
    requires |c.states| == 5 && lbits >= 8
    ensures |StreamBytes(lbits, c)| == BytesUsed(3 * lbits + |c.f|) + BytesUsed(2 * lbits + |c.b|) >= 5
  {
    hide ToBits, Packed;
  }

  lemma MsbBegins(w: seq<bool>, rest: seq<byte>)
    ensures Reads(MsbBits(MsbPacked(w) + rest), 0, w)
  {
    hide MsbBits, MsbPacked;
    MsbPackedBits(w);
    MsbAppend(MsbPacked(w), rest);
    Front(MsbBits(MsbPacked(w) + rest), w);
  }

  /** The header of a written array. */
  ghost function HeaderWritten(list: seq<SymCount>, lbits: nat, form: Form): Header
    requires FormFits(list, lbits, form)
  {
    Header(lbits, LargerOf(list, form), SinglesOf(list, form), (|HeaderBits(list, lbits, form)| + 7) / 8)
  }

  /** The text in the streams behind a header. */
  lemma TextThere(comp: seq<byte>, h: Header, msg: seq<nat>, text: seq<byte>)
    requires HeaderOk(comp, h) && Message(h.larger, h.singles, msg) && |text| == |msg| + 5
    requires text[..|msg|] == Symbols(h.larger, h.singles, msg) && StatesOk(text[|msg|..], Pow2(h.lbits))
    requires comp[h.start..] == StreamBytes(h.lbits, Coding(h.lbits, h.larger, h.singles, msg, text[|msg|..], 0))
    ensures Holds(comp, h, text)
  {
    hide CountsOk, Message, Coding, StreamBytes, Symbols, Pow2, StatesOk, TableOk, Opening, Decode;
    var last := text[|msg|..];
    var c := Coding(h.lbits, h.larger, h.singles, msg, last, 0);
    FiveStates(c.states, Pow2(h.lbits), 0);
    StreamLong(h.lbits, c);
    StreamsDecode(h.lbits, h.larger, h.singles, msg, last);
    assert text == text[..|msg|] + last;
  }

  /** Where the streams begin, and that there are enough bytes. */
  lemma ArrayParts(list: seq<SymCount>, lbits: nat, form: Form, msg: seq<nat>, last: seq<byte>)
    requires FormFits(list, lbits, form) && |last| == 5 && Message(LargerOf(list, form), SinglesOf(list, form), msg)
    ensures var comp, h := ArrayBytes(list, lbits, form, msg, last), HeaderWritten(list, lbits, form);
      && |comp| >= 8 && h.start < |comp| && Reads(MsbBits(comp), 0, HeaderBits(list, lbits, form))
      && lbits >= 8 && CountsOk(lbits, h.larger, h.singles) && StatesOk(last, Pow2(lbits))
      && comp[h.start..] == StreamBytes(lbits, Coding(lbits, h.larger, h.singles, msg, last, 0))
  {
    hide FormFits, CountsOk, Message, HeaderBits, Coding, StreamBytes, Pow2, StatesOk, MsbPacked, MsbBits, Reads;
    SizeOk(list, lbits, form);
    FormCountsOk(list, lbits, form);
    ByteStates(last, lbits);
    HeaderLong(list, lbits, form);
    var w := HeaderBits(list, lbits, form);
    var c := Coding(lbits, LargerOf(list, form), SinglesOf(list, form), msg, last, 0);
    FiveStates(c.states, Pow2(lbits), 0);
    StreamLong(lbits, c);
    MsbBegins(w, StreamBytes(lbits, c));
    assert (MsbPacked(w) + StreamBytes(lbits, c))[|MsbPacked(w)|..] == StreamBytes(lbits, c);
  }

  /** What is written is read back: the array is accepted, its header is the one that was written, and its streams
      hold the text, of which the last five bytes are the states to end with. */
  lemma ArrayIsRead(list: seq<SymCount>, lbits: nat, form: Form, msg: seq<nat>, text: seq<byte>)
    requires FormFits(list, lbits, form) && Message(LargerOf(list, form), SinglesOf(list, form), msg)
    requires |text| == |msg| + 5 && text[..|msg|] == Symbols(LargerOf(list, form), SinglesOf(list, form), msg)
    ensures var comp, h := ArrayBytes(list, lbits, form, msg, text[|msg|..]), HeaderWritten(list, lbits, form);
      |comp| >= 8 && HeaderOf(comp) == Some(h) && HeaderOk(comp, h) && Holds(comp, h, text)
  {
    hide FormFits, CountsOk, Message, HeaderBits, Coding, StreamBytes, Symbols, Pow2, StatesOk, ArrayBytes, MsbBits, Reads,
      Holds, HeaderOf;
    var comp, h := ArrayBytes(list, lbits, form, msg, text[|msg|..]), HeaderWritten(list, lbits, form);
    ArrayParts(list, lbits, form, msg, text[|msg|..]);
    HeaderIsRead(comp, list, lbits, form);
    TextThere(comp, h, msg, text);
  }

  /** An array holds one text of any length. */
  lemma HoldsOnce(comp: seq<byte>, h: Header, a: seq<byte>, b: seq<byte>)
    requires HeaderOk(comp, h) && |a| == |b| >= 5 && Holds(comp, h, a) && Holds(comp, h, b)
    ensures a == b
  {
    hide Table, Opening, Decode, TableOk, StatesOk, Meets, CountsOk;
  }

  /** Decoding a written array gives the text back. */
  method WriteThenRead(ghost list: seq<SymCount>, ghost lbits: nat, ghost form: Form, ghost msg: seq<nat>, ghost text: seq<byte>,
                       comp: seq<byte>, to: array<byte>, stack: seq<byte>) returns (n: int)
    requires FormFits(list, lbits, form) && Message(LargerOf(list, form), SinglesOf(list, form), msg)
    requires |text| == |msg| + 5 && text[..|msg|] == Symbols(LargerOf(list, form), SinglesOf(list, form), msg)
    requires comp == ArrayBytes(list, lbits, form, msg, text[|msg|..]) && to.Length == |text| && |stack| == TAIL_SIZE
    modifies to
    ensures n == |comp| && to[..] == text
  {
    hide FormFits, Message, Symbols, ArrayBytes, HeaderOf, HeaderOk, Holds, HeaderWritten;
    ArrayIsRead(list, lbits, form, msg, text);
    n := GetArray(comp, to, stack);
    HoldsOnce(comp, HeaderWritten(list, lbits, form), to[..], text);
  }

  // ----- any text

  lemma {:induction false} HasIndex(list: seq<SymCount>, sym: nat) returns (k: nat)
    requires Has(list, sym)
    ensures k < |Larger(list)| + |Singles(list)| && SymbolAt(Larger(list), Singles(list), k) == sym
  {
    hide Larger, Singles;
    var m := |list| - 1;
    var pre, c := list[..m], list[m];
    assert list == pre + [c];
    SplitStep(pre, c);
    var n := |Larger(pre)|;
    if c.sym == sym {
      k := if c.count == 1 then n + |Singles(pre)| else n;
    } else {
      var i :| 0 <= i < |list| && list[i].sym == sym;
      assert pre[i].sym == sym;
      k := HasIndex(pre, sym);
      if c.count != 1 && k >= n { k := k + 1; }
    }
  }

  lemma {:induction false} TextMessage(list: seq<SymCount>, text: seq<byte>, n: nat) returns (msg: seq<nat>)
    requires n <= |text| && forall i :: 0 <= i < n ==> Has(list, text[i])
    ensures |msg| == n && Message(Larger(list), Singles(list), msg)
    ensures text[..n] == Symbols(Larger(list), Singles(list), msg)
    decreases n
  {
    hide Larger, Singles, Has, SymbolAt;
    if n == 0 {
      msg := [];
    } else {
      var pre := TextMessage(list, text, n - 1);
      var k := HasIndex(list, text[n - 1]);
      msg := pre + [k];
      var a, b := Symbols(Larger(list), Singles(list), pre), Symbols(Larger(list), Singles(list), msg);
      assert text[..n] == text[..n - 1] + [text[n - 1]];
      assert b == a + [text[n - 1] as nat];
    }
  }

  /** Whatever the text, and whatever the counts as long as all of its bytes but the last five occur: there is an array
      that holds it, and no other text of the same length. */
  lemma AnyTextIsHeld(list: seq<SymCount>, lbits: nat, k: nat, text: seq<byte>) returns (comp: seq<byte>)
    requires 8 <= lbits <= L_BITS_MAX && k < 8 && 2 <= |list| <= 256 && Positive(list) && Sum(list) == Pow2(lbits)
    requires forall i :: 0 <= i < |list| ==> list[i].sym < 256
    requires forall i, j :: 0 <= i < j < |list| ==> list[i].sym < list[j].sym
    requires |text| >= 5 && forall i :: 0 <= i < |text| - 5 ==> Has(list, text[i])
    ensures |comp| >= 8 && HeaderOf(comp).Some? && CanHold(comp, HeaderOf(comp).value, |text|)
    ensures forall symbols :: |symbols| == |text| && Holds(comp, HeaderOf(comp).value, symbols) ==> symbols == text
  {
    hide DeltaFits, Larger, Singles, Has, Message, Symbols, ArrayBytes, HeaderOf, HeaderOk, Holds, Sum, Pow2, Positive;
    var us, r := AnyListFits(list, lbits, k);
    var n := |text| - 5;
    var msg := TextMessage(list, text, n);
    var form := Delta(k, us, r);
    comp := ArrayBytes(list, lbits, form, msg, text[n..]);
    ArrayIsRead(list, lbits, form, msg, text);
    var h := HeaderOf(comp).value;
    forall symbols | |symbols| == |text| && Holds(comp, h, symbols) ensures symbols == text {
      HoldsOnce(comp, h, symbols, text);
    }
  }
}
