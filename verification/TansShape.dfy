/** The shape of an alphabet: which symbols occur, as runs. */
module TansShape {
  import opened Bits
  import opened MsbFirst
  import opened MsbRegister
  import opened VarBits
  import opened TansSpec
  import opened Wrappers

  // ----- how many runs

  /** The number of run lengths is below this bound. */
  function EgBound(numSyms: nat): nat
    requires numSyms <= 257
  {
    2 * if numSyms <= 257 - numSyms then numSyms else 257 - numSyms
  }

  /** A number below the bound in one bit less where that is enough to tell it from the others: the
      truncated binary code. */
  function Truncated(bound: nat, nbits: nat, x: nat): (r: (nat, nat))
    requires nbits >= 1 && Pow2(nbits - 1) <= bound <= Pow2(nbits) && x < Pow2(nbits)
    ensures r.0 < bound
  {
    var thresh := Pow2(nbits) - bound;
    if x / 2 < thresh then (x / 2, nbits - 1) else (x - thresh, nbits)
  }

  /** Every number below the bound has a code: x, or x and the bit behind it. */
  lemma TruncatedOnto(bound: nat, nbits: nat, v: nat) returns (x: nat)
    requires nbits >= 1 && Pow2(nbits - 1) <= bound <= Pow2(nbits) && v < bound
    ensures x < Pow2(nbits) && Truncated(bound, nbits, x).0 == v
  {
    var thresh := Pow2(nbits) - bound;
    x := if v < thresh then 2 * v else v + thresh;
  }

  /** No code is the start of another: what is read of two different windows is different unless they
      agree in the bits read. */
  lemma TruncatedUnique(bound: nat, nbits: nat, x: nat, y: nat)
    requires nbits >= 1 && Pow2(nbits - 1) <= bound <= Pow2(nbits) && x < Pow2(nbits) && y < Pow2(nbits)
    requires Truncated(bound, nbits, x).0 == Truncated(bound, nbits, y).0
    ensures Truncated(bound, nbits, x).1 == Truncated(bound, nbits, y).1
    ensures if Truncated(bound, nbits, x).1 == nbits then x == y else x / 2 == y / 2
  {
  }

  /** Codes and numbers correspond one to one. */
  lemma TruncatedBijective(bound: nat, nbits: nat, v: nat) returns (x: nat)
    requires nbits >= 1 && Pow2(nbits - 1) <= bound <= Pow2(nbits) && v < bound
    ensures x < Pow2(nbits) && Truncated(bound, nbits, x).0 == v
    ensures forall y: nat :: y < Pow2(nbits) && Truncated(bound, nbits, y).0 == v ==>
      && Truncated(bound, nbits, y).1 == Truncated(bound, nbits, x).1
      && if Truncated(bound, nbits, x).1 == nbits then y == x else y / 2 == x / 2
  {
    hide Pow2;
    x := TruncatedOnto(bound, nbits, v);
    forall y: nat | y < Pow2(nbits) && Truncated(bound, nbits, y).0 == v
      ensures Truncated(bound, nbits, y).1 == Truncated(bound, nbits, x).1
      ensures if Truncated(bound, nbits, x).1 == nbits then y == x else y / 2 == x / 2
    {
      TruncatedUnique(bound, nbits, x, y);
    }
  }

  /** The number of run lengths, and how many bits it takes. */
  function ReadNumEg(s: seq<bool>, p: nat, numSyms: nat): (r: (nat, nat))
    requires 2 <= numSyms <= 256
    ensures r.0 <= 255
  {
    if numSyms == 256 then (0, 0)
    else
      var nbits := Log2(EgBound(numSyms) - 1) + 1;
      EgBits(numSyms);
      FieldFits(s, p, nbits);
      Truncated(EgBound(numSyms), nbits, Msb(s, p, nbits))
  }

  method DecodeNumEg(vb: Reader, numSyms: nat) returns (numEg: nat)
    requires vb.Valid() && 2 <= numSyms <= 256 && Enough(vb.data, 63 - vb.inv_bitlen, vb.cur, 8)
    modifies vb
    ensures vb.Valid() && old(vb.Pos()) >= 0
    ensures var r := ReadNumEg(MsbBits(vb.data), old(vb.Pos()), numSyms);
      numEg == r.0 && vb.Pos() == old(vb.Pos()) + r.1
  {
    hide Stands, MsbBits, Msb, Pow2, Log2;
    numEg := 0;
    Limits(vb.data, vb.Pos(), vb.bits, 63 - vb.inv_bitlen, vb.cur);
    if numSyms != 256 {
      var bound := EgBound(numSyms);
      var nbits := Log2(bound - 1) + 1;
      EgBits(numSyms);
      FieldFits(MsbBits(vb.data), vb.Pos(), nbits);
      var thresh := Pow2(nbits) - bound;
      var peek := vb.Peek(nbits);
      ghost var r := Truncated(bound, nbits, peek);
      assert r.0 < bound <= 256;
      if peek / 2 < thresh {
        numEg := peek / 2;
        var _ := vb.Get(nbits - 1);
      } else {
        numEg := peek - thresh;
        var _ := vb.Get(nbits);
      }
    }
  }

  lemma EgBits(numSyms: nat)
    requires 2 <= numSyms < 256
    ensures var b := EgBound(numSyms);
      var nbits := Log2(b - 1) + 1;
      4 <= b <= 256 && 2 <= nbits <= 8 && Pow2(nbits - 1) <= b <= Pow2(nbits)
  {
    var b := EgBound(numSyms);
    Log2Bounds(b - 1);
    Log2Mono(2, b - 1);
    Log2Mono(b - 1, 255);
    Log2Unique(255, 7);
    Pow2Values();
  }

  lemma FieldFits(s: seq<bool>, p: nat, n: nat)
    ensures Msb(s, p, n) < Pow2(n)
  {
    ValueBound(Window(s, p, n));
  }

  // ----- unary codes

  /** Every number as so many zeros, and a one. */
  function Unary(vs: seq<nat>): seq<bool> {
    if vs == [] then [] else Unary(vs[..|vs| - 1]) + Zeros(vs[|vs| - 1]) + [true]
  }

  /** One bit of the stream. */
  lemma StreamBit(data: seq<byte>, k: nat, j: nat)
    requires k < |data| && j < 8
    ensures 8 * k + j < |MsbBits(data)| && MsbBits(data)[8 * k + j] == Bit(data[k], 7 - j)
  {
    hide MsbBits, ToBits, Window, Bit;
    var s := MsbBits(data);
    MsbWindow(data, k);
    WindowInside(s, 8 * k, 8);
    assert s[8 * k..8 * k + 8][j] == s[8 * k + j];
    ToBitsAt(data[k], 8, 7 - j);
  }

  lemma OneBit(x: nat, n: nat)
    ensures Low(Shr(x, n), 1) == if Bit(x, n) then 1 else 0
  {
    BitShr(x, n, 0);
    assert Low(Shr(x, n), 1) == Shr(x, n) % 2 + 2 * Low(Shr(x, n) / 2, 0);
  }

  /** The next bit, and where the one behind it is. */
  method NextBit(data: seq<byte>, ptr: nat, posInByte: nat) returns (bit: nat, ptr': nat, pos': nat)
    requires ptr < |data| && posInByte < 8
    ensures pos' < 8 && ptr' <= |data| && 8 * ptr' + pos' == 8 * ptr + posInByte + 1 <= 8 * |data|
    ensures bit == if MsbBits(data)[8 * ptr + posInByte] then 1 else 0
  {
    hide MsbBits, Shr, Low, Bit;
    StreamBit(data, ptr, posInByte);
    OneBit(data[ptr], 7 - posInByte);
    bit := Low(Shr(data[ptr], 7 - posInByte), 1);
    ptr', pos' := ptr, posInByte + 1;
    if pos' == 8 {
      pos' := 0;
      ptr' := ptr' + 1;
    }
  }

  /** The first one at p or behind it. */
  function FirstOne(s: seq<bool>, p: nat): (r: Option<nat>)
    ensures r.Some? ==> p <= r.value < |s| && s[r.value]
    ensures r.Some? ==> forall k :: p <= k < r.value ==> !s[k]
    ensures r.None? ==> forall k :: p <= k < |s| ==> !s[k]
    decreases if p < |s| then |s| - p else 0
  {
    if p >= |s| then None else if s[p] then Some(p) else FirstOne(s, p + 1)
  }

  datatype UnaryRead = UnaryRead(vs: seq<nat>, p: nat)

  /** count numbers, each the distance to the next one; None if the bits run out of ones. */
  function ReadUnary(s: seq<bool>, p: nat, count: nat): (r: Option<UnaryRead>)
    ensures r.Some? ==> |r.value.vs| == count && r.value.p >= p
    decreases count
  {
    if count == 0 then Some(UnaryRead([], p))
    else
      match ReadUnary(s, p, count - 1)
      case None => None
      case Some(u) =>
        match FirstOne(s, u.p)
        case None => None
        case Some(q) => Some(UnaryRead(u.vs + [q - u.p], q + 1))
  }

  /** These are the numbers whose codes the bits from p to at are. */
  lemma UnaryExactly(s: seq<bool>, p: nat, at: nat, vs: seq<nat>)
    requires p <= |s|
    ensures ReadUnary(s, p, |vs|) == Some(UnaryRead(vs, at)) <==> p <= at <= |s| && s[p..at] == Unary(vs)
  {
    hide ReadUnary, Unary;
    if ReadUnary(s, p, |vs|) == Some(UnaryRead(vs, at)) { UnarySound(s, p, at, vs); }
    if p <= at <= |s| && s[p..at] == Unary(vs) { UnaryComplete(s, p, at, vs); }
  }

  lemma {:induction false} UnarySound(s: seq<bool>, p: nat, at: nat, vs: seq<nat>)
    requires p <= |s| && ReadUnary(s, p, |vs|) == Some(UnaryRead(vs, at))
    ensures p <= at <= |s| && s[p..at] == Unary(vs)
    decreases |vs|
  {
    hide ReadUnary, Unary, FirstOne;
    if vs == [] {
      UnaryEmpty(s, p);
    } else {
      var n := |vs| - 1;
      var m := LastNumber(s, p, at, vs);
      UnarySound(s, p, m, vs[..n]);
      UnaryStep(vs[..n], vs[n]);
      assert vs == vs[..n] + [vs[n]];
      OneMoreCode(s, p, m, at - 1);
    }
  }

  lemma UnaryEmpty(s: seq<bool>, p: nat)
    ensures ReadUnary(s, p, 0) == Some(UnaryRead([], p)) && Unary([]) == []
  {
  }

  lemma LastNumber(s: seq<bool>, p: nat, at: nat, vs: seq<nat>) returns (m: nat)
    requires vs != [] && ReadUnary(s, p, |vs|) == Some(UnaryRead(vs, at))
    ensures var n := |vs| - 1;
      ReadUnary(s, p, n) == Some(UnaryRead(vs[..n], m)) && FirstOne(s, m) == Some(m + vs[n]) && at == m + vs[n] + 1
  {
    hide FirstOne;
    m := ReadUnary(s, p, |vs| - 1).value.p;
    assert ReadUnary(s, p, |vs| - 1).value.vs == vs[..|vs| - 1];
  }

  lemma OneMoreCode(s: seq<bool>, p: nat, m: nat, q: nat)
    requires p <= m <= q < |s| && s[q] && forall k :: m <= k < q ==> !s[k]
    ensures s[p..q + 1] == s[p..m] + Zeros(q - m) + [true]
  {
    assert s[m..q] == Zeros(q - m);
    assert s[p..q + 1] == s[p..m] + s[m..q] + [s[q]];
  }

  lemma {:induction false} UnaryComplete(s: seq<bool>, p: nat, at: nat, vs: seq<nat>)
    requires p <= at <= |s| && s[p..at] == Unary(vs)
    ensures ReadUnary(s, p, |vs|) == Some(UnaryRead(vs, at))
    decreases |vs|
  {
    hide Unary, FirstOne;
    if vs == [] {
      UnaryEmpty(s, p);
    } else {
      var n := |vs| - 1;
      var pre, v := vs[..n], vs[n];
      assert vs == pre + [v];
      UnaryStep(pre, v);
      var q := p + |Unary(pre)|;
      assert at == q + v + 1;
      FirstOneAfter(s, p, at, Unary(pre), v, 0);
      Regroup(Unary(pre), Zeros(v), [true]);
      Front(s, p, at, Unary(pre), Zeros(v) + [true]);
      UnaryComplete(s, p, q, pre);
    }
  }

  lemma {:induction false} FirstOneAfter(s: seq<bool>, p: nat, at: nat, a: seq<bool>, v: nat, k: nat)
    requires p <= at <= |s| && s[p..at] == a + Zeros(v) + [true] && k <= v
    ensures FirstOne(s, p + |a| + k) == Some(p + |a| + v)
    decreases v - k
  {
    hide Zeros;
    CodeBit(s, p, at, a, v, k);
    if k < v { FirstOneAfter(s, p, at, a, v, k + 1); }
  }

  lemma CodeBit(s: seq<bool>, p: nat, at: nat, a: seq<bool>, v: nat, k: nat)
    requires p <= at <= |s| && s[p..at] == a + Zeros(v) + [true] && k <= v
    ensures p + |a| + k < |s| && s[p + |a| + k] == (k == v)
  {
    var w := a + Zeros(v) + [true];
    assert w[|a| + k] == (k == v);
    assert s[p..at][|a| + k] == s[p + |a| + k];
  }

  lemma Front<T>(s: seq<T>, p: nat, at: nat, a: seq<T>, b: seq<T>)
    requires p <= at <= |s| && s[p..at] == a + b
    ensures p + |a| <= at && s[p..p + |a|] == a
  {
    assert s[p..p + |a|] == s[p..at][..|a|];
  }

  lemma UnaryStep(vs: seq<nat>, n: nat)
    ensures Unary(vs + [n]) == Unary(vs) + Zeros(n) + [true]
  {
    assert (vs + [n])[..|vs|] == vs;
  }

  /** Once the bits have run out of ones, there are no more numbers. */
  lemma {:induction false} UnaryFails(s: seq<bool>, p: nat, k: nat, count: nat)
    requires k <= count && ReadUnary(s, p, k).None?
    ensures ReadUnary(s, p, count).None?
    decreases count
  {
    if k < count { UnaryFails(s, p, k, count - 1); }
  }

  /** Decodes count unary codes; the numbers are kept in bytes. It fails only for want of ones. */
  method DecodeUnaryBlock(data: seq<byte>, ptr: nat, posInByte: nat, count: nat)
    returns (ok: bool, unary: seq<byte>, ptr': nat, pos': nat, ghost vs: seq<nat>)
    requires posInByte < 8 && count > 0
    ensures ok <==> ReadUnary(MsbBits(data), 8 * ptr + posInByte, count).Some?
    ensures ok ==> ReadUnary(MsbBits(data), 8 * ptr + posInByte, count) == Some(UnaryRead(vs, 8 * ptr' + pos'))
    ensures ok ==> unary == Bytes(vs) && |vs| == count
    ensures ok ==> pos' < 8 && ptr' <= |data| && 8 * ptr' + pos' <= 8 * |data|
  {
    hide MsbBits, FirstOne, ReadUnary, UnaryTo, Bytes;
    ghost var s, p := MsbBits(data), 8 * ptr + posInByte;
    ok, unary, ptr', pos', vs := true, [], ptr, posInByte, [];
    var here: byte := 0;
    ghost var zeros: nat := 0;
    UnaryNone(s, p);
    while |unary| < count
      invariant pos' < 8 && |unary| == |vs| <= count && here == zeros % 256 && unary == Bytes(vs)
      invariant if ptr < |data| then ptr' <= |data| && 8 * ptr' + pos' <= 8 * |data| else ptr' == ptr && |unary| == 0
      invariant UnaryTo(s, p, vs, 8 * ptr' + pos', zeros)
      invariant |unary| == count ==> zeros == 0
      decreases 8 * |data| - 8 * ptr' - pos'
    {
      ghost var at := 8 * ptr' + pos';
      UnaryNext(s, p, vs, at, zeros);
      if ptr' >= |data| {
        UnaryFails(s, p, |vs| + 1, count);
        return false, unary, ptr', pos', vs;
      }
      var bit;
      bit, ptr', pos' := NextBit(data, ptr', pos');
      if bit == 0 {
        Wrapped(zeros);
        here := (here + 1) % 256;
        zeros := zeros + 1;
      } else {
        BytesStep(vs, zeros);
        unary := unary + [here];
        vs := vs + [zeros];
        here, zeros := 0, 0;
      }
    }
    UnaryDone(s, p, vs, 8 * ptr' + pos');
  }

  lemma Wrapped(n: nat)
    ensures (n % 256 + 1) % 256 == (n + 1) % 256
  {
  }

  function Bytes(vs: seq<nat>): (b: seq<byte>)
    ensures |b| == |vs| && forall i :: 0 <= i < |vs| ==> b[i] == vs[i] % 256
  {
    seq<byte>(|vs|, i requires 0 <= i < |vs| => vs[i] % 256)
  }

  lemma BytesStep(vs: seq<nat>, v: nat)
    ensures Bytes(vs + [v]) == Bytes(vs) + [v % 256]
  {
  }

  /** The numbers read so far, and zeros of the next. */
  ghost predicate UnaryTo(s: seq<bool>, p: nat, vs: seq<nat>, at: nat, zeros: nat) {
    && zeros <= at && ReadUnary(s, p, |vs|) == Some(UnaryRead(vs, at - zeros))
    && FirstOne(s, at - zeros) == FirstOne(s, at)
  }

  lemma UnaryNone(s: seq<bool>, p: nat)
    ensures UnaryTo(s, p, [], p, 0) && Bytes([]) == []
  {
  }

  lemma UnaryDone(s: seq<bool>, p: nat, vs: seq<nat>, at: nat)
    requires UnaryTo(s, p, vs, at, 0)
    ensures ReadUnary(s, p, |vs|) == Some(UnaryRead(vs, at))
  {
  }

  /** What the next bit does. */
  lemma UnaryNext(s: seq<bool>, p: nat, vs: seq<nat>, at: nat, zeros: nat)
    requires UnaryTo(s, p, vs, at, zeros)
    ensures at >= |s| ==> ReadUnary(s, p, |vs| + 1).None?
    ensures at < |s| && !s[at] ==> UnaryTo(s, p, vs, at + 1, zeros + 1)
    ensures at < |s| && s[at] ==> UnaryTo(s, p, vs + [zeros], at + 1, 0)
  {
  }

  // ----- runs

  /** A run of symbols that do not occur: its length, and how many bits it takes. */
  function ZeroRun(s: seq<bool>, p: nat, prefix: nat): (r: (nat, nat))
    ensures 1 <= r.0 <= 511
  {
    if prefix > 7 then (511, 0)
    else
      FieldFits(s, p, prefix + 1);
      RunBits(prefix + 1);
      (Pow2(prefix + 1) + Msb(s, p, prefix + 1) - 1, prefix + 1)
  }

  /** A run of symbols that do. */
  function NonzeroRun(s: seq<bool>, p: nat, prefix: nat): (r: (nat, nat))
    ensures 1 <= r.0 <= 511
  {
    if prefix > 8 then (511, 0)
    else
      FieldFits(s, p, prefix);
      RunBits(prefix);
      (Pow2(prefix) + Msb(s, p, prefix), prefix)
  }

  method DecodeZeroRun(vb: Reader, prefix: byte) returns (r: nat)
    requires vb.Valid()
    modifies vb
    ensures vb.Valid() && old(vb.Pos()) >= 0
    ensures var z := ZeroRun(MsbBits(vb.data), old(vb.Pos()), prefix); r == z.0 && vb.Pos() == old(vb.Pos()) + z.1
  {
    VarBits.Limits(vb.data, vb.Pos(), vb.bits, 63 - vb.inv_bitlen, vb.cur);
    if prefix > 7 { return 511; }
    var nextra := prefix + 1;
    FieldFits(MsbBits(vb.data), vb.Pos(), nextra);
    RunBits(nextra);
    var extra := vb.Get(nextra);
    var code := Pow2(nextra) + extra;
    r := code - 2 + 1;
  }

  method DecodeNonzeroRun(vb: Reader, prefix: byte) returns (r: nat)
    requires vb.Valid()
    modifies vb
    ensures vb.Valid() && old(vb.Pos()) >= 0
    ensures var z := NonzeroRun(MsbBits(vb.data), old(vb.Pos()), prefix); r == z.0 && vb.Pos() == old(vb.Pos()) + z.1
  {
    VarBits.Limits(vb.data, vb.Pos(), vb.bits, 63 - vb.inv_bitlen, vb.cur);
    if prefix > 8 { return 511; }
    FieldFits(MsbBits(vb.data), vb.Pos(), prefix);
    RunBits(prefix);
    var extra := vb.GetZeroOk(prefix);
    var code := Pow2(prefix) + extra;
    r := code - 1 + 1;
  }

  lemma RunBits(n: nat)
    requires n <= 8
    ensures Pow2(n) <= 256 && (n > 0 ==> Pow2(n) >= 2)
  {
    Pow2Mono(n, 8);
    Pow2Values();
  }

  function StartOf(r: seq<nat>, k: nat): nat
    requires 2 * k < |r|
  {
    r[2 * k]
  }

  function LengthOf(r: seq<nat>, k: nat): nat
    requires 2 * k + 1 < |r|
  {
    r[2 * k + 1]
  }

  function Total(r: seq<nat>, n: nat): nat
    requires 2 * n <= |r|
  {
    if n == 0 then 0 else Total(r, n - 1) + LengthOf(r, n - 1)
  }

  /** The first n runs are not empty and do not touch; the last one ends before `end`. */
  ghost predicate Apart(r: seq<nat>, n: nat, end: nat)
    requires 2 * n <= |r|
  {
    && (forall k :: 0 <= k < n ==> LengthOf(r, k) >= 1)
    && (forall j, k :: 0 <= j < k < n ==> StartOf(r, j) + LengthOf(r, j) < StartOf(r, k))
    && (forall k :: 0 <= k < n ==> StartOf(r, k) + LengthOf(r, k) < end)
  }

  /** The runs of an alphabet of so many of 256 symbols. */
  ghost predicate Runs(r: seq<nat>, n: nat, numSyms: nat) {
    2 * n <= |r| && n >= 1 && Apart(r, n, 257) && Total(r, n) == numSyms
  }

  lemma TotalStep(r: seq<nat>, n: nat)
    requires 2 * n + 2 <= |r|
    ensures Total(r, n + 1) == Total(r, n) + LengthOf(r, n)
  {
  }

  // ----- reading the runs

  /** Lengths of n runs, each with the gap behind it, and the position behind them. */
  function ReadLengths(s: seq<bool>, p: nat, prefix: seq<byte>, n: nat): (r: (seq<nat>, nat))
    requires 2 * n <= |prefix|
    ensures |r.0| == 2 * n && forall i :: 0 <= i < 2 * n ==> 1 <= r.0[i] <= 511
    decreases n
  {
    if n == 0 then ([], p)
    else
      var pre := ReadLengths(s, p, prefix, n - 1);
      var nz := NonzeroRun(s, pre.1, prefix[2 * n - 2]);
      var z := ZeroRun(s, pre.1 + nz.1, prefix[2 * n - 1]);
      (pre.0 + [nz.0, z.0], pre.1 + nz.1 + z.1)
  }

  /** Where the k-th run starts, if the first one starts at first. */
  function RunStart(lens: seq<nat>, first: nat, k: nat): nat
    requires 2 * k <= |lens|
    decreases k
  {
    if k == 0 then first else RunStart(lens, first, k - 1) + lens[2 * k - 2] + lens[2 * k - 1]
  }

  /** How many symbols the first k runs have. */
  function Occurring(lens: seq<nat>, k: nat): nat
    requires 2 * k <= |lens|
    decreases k
  {
    if k == 0 then 0 else Occurring(lens, k - 1) + lens[2 * k - 2]
  }

  /** The first k runs, each with its start and its length. */
  function Placed(lens: seq<nat>, first: nat, k: nat): (r: seq<nat>)
    requires 2 * k <= |lens|
    ensures |r| == 2 * k
    decreases k
  {
    if k == 0 then [] else Placed(lens, first, k - 1) + [RunStart(lens, first, k - 1), lens[2 * k - 2]]
  }

  /** The last run, of all symbols that are left, is not empty and ends within the 256. */
  predicate RoomForLast(lens: seq<nat>, first: nat, n: nat, numSyms: nat)
    requires 2 * n <= |lens|
  {
    && RunStart(lens, first, n) < 256 && Occurring(lens, n) < numSyms
    && RunStart(lens, first, n) + (numSyms - Occurring(lens, n)) <= 256
  }

  function AllRuns(lens: seq<nat>, first: nat, n: nat, numSyms: nat): (r: seq<nat>)
    requires 2 * n <= |lens| && RoomForLast(lens, first, n, numSyms)
    ensures |r| == 2 * n + 2
  {
    Placed(lens, first, n) + [RunStart(lens, first, n), numSyms - Occurring(lens, n)]
  }

  datatype RunsRead = RunsRead(runs: seq<nat>, p: nat)

  /** The runs of an alphabet of numSyms symbols, from numEg lengths; None if they have no room. */
  function ReadRuns(s: seq<bool>, p: nat, numSyms: nat, numEg: nat, prefix: seq<byte>): (r: Option<RunsRead>)
    requires numEg <= |prefix|
    ensures r.Some? ==> |r.value.runs| == 2 * (numEg / 2) + 2
  {
    if numSyms == 0 || numSyms > 256 || numEg > 255 then None
    else
      var head := if numEg % 2 == 1 then ZeroRun(s, p, prefix[0]) else (0, 0);
      var lens := ReadLengths(s, p + head.1, prefix[numEg % 2..], numEg / 2);
      if RoomForLast(lens.0, head.0, numEg / 2, numSyms) then
        Some(RunsRead(AllRuns(lens.0, head.0, numEg / 2, numSyms), lens.1))
      else None
  }

  /** Reads the lengths, two places for every run: where its length is, and the gap behind it. */
  method DecodeLengths(vb: Reader, n: nat, prefix: seq<byte>) returns (r: seq<nat>)
    requires vb.Valid() && n <= 127 && 2 * n <= |prefix|
    modifies vb
    ensures vb.Valid() && |r| == 265 && old(vb.Pos()) >= 0
    ensures var lens := ReadLengths(MsbBits(vb.data), old(vb.Pos()), prefix, n);
      r[1..2 * n + 1] == lens.0 && vb.Pos() == lens.1
  {
    hide MsbBits, NonzeroRun, ZeroRun, Stands, ReadLengths;
    VarBits.Limits(vb.data, vb.Pos(), vb.bits, 63 - vb.inv_bitlen, vb.cur);
    ghost var s, p: nat := MsbBits(vb.data), vb.Pos();
    r := seq(265, i => 0);
    var pair := 0;
    assert r[1..1] == [];
    NoLengths(s, p, prefix);
    while pair < n
      invariant 0 <= pair <= n && vb.Valid() && |r| == 265
      invariant r[1..2 * pair + 1] == ReadLengths(s, p, prefix, pair).0 && vb.Pos() == ReadLengths(s, p, prefix, pair).1
    {
      vb.Refill();
      LengthsStep(s, p, prefix, pair);
      ghost var was := r;
      var nz := DecodeNonzeroRun(vb, prefix[2 * pair]);
      r := r[2 * pair + 1 := nz];
      var z := DecodeZeroRun(vb, prefix[2 * pair + 1]);
      r := r[2 * pair + 2 := z];
      pair := pair + 1;
      assert r[1..2 * pair + 1] == was[1..2 * pair - 1] + [nz, z];
    }
  }

  lemma NoLengths(s: seq<bool>, p: nat, prefix: seq<byte>)
    ensures ReadLengths(s, p, prefix, 0) == ([], p)
  {
  }

  lemma LengthsStep(s: seq<bool>, p: nat, prefix: seq<byte>, n: nat)
    requires 2 * n + 2 <= |prefix|
    ensures var pre := ReadLengths(s, p, prefix, n);
      var nz := NonzeroRun(s, pre.1, prefix[2 * n]);
      var z := ZeroRun(s, pre.1 + nz.1, prefix[2 * n + 1]);
      ReadLengths(s, p, prefix, n + 1) == (pre.0 + [nz.0, z.0], pre.1 + nz.1 + z.1)
  {
    hide NonzeroRun, ZeroRun;
  }

  /** Sums up lengths and gaps in place to where the runs start; the last run takes what is left. */
  method PlaceRuns(lengths: seq<nat>, first: nat, n: nat, numSyms: nat) returns (pairs: int, r: seq<nat>)
    requires |lengths| == 265 && n <= 127
    requires forall i :: 1 <= i <= 2 * n ==> 1 <= lengths[i]
    ensures var lens := lengths[1..2 * n + 1];
      if RoomForLast(lens, first, n, numSyms)
      then pairs == n + 1 && 2 * pairs <= |r| && r[..2 * pairs] == AllRuns(lens, first, n, numSyms)
      else pairs == -1
  {
    hide Placed, RunStart, Occurring;
    r := lengths;
    ghost var lens := lengths[1..2 * n + 1];
    var curSymbol: nat, totalNonzero: nat := first, 0;
    var pair := 0;
    NoRuns(lens, first);
    while pair < n
      invariant 0 <= pair <= n && |r| == 265 && forall i :: 2 * pair < i <= 2 * n ==> r[i] == lengths[i]
      invariant curSymbol == RunStart(lens, first, pair) && totalNonzero == Occurring(lens, pair)
      invariant curSymbol < 256 ==> r[..2 * pair] == Placed(lens, first, pair)
    {
      OneRun(lens, first, pair);
      ghost var was := r;
      var nzlen, zlen := r[2 * pair + 1], r[2 * pair + 2];
      r := r[2 * pair := curSymbol % 0x1_0000];
      assert curSymbol < 256 ==> r[..2 * pair + 2] == was[..2 * pair] + [curSymbol, nzlen] by {
        if curSymbol < 256 { SmallStart(curSymbol); }
      }
      curSymbol := curSymbol + nzlen + zlen;
      totalNonzero := totalNonzero + nzlen;
      pair := pair + 1;
    }
    if curSymbol >= 256 || totalNonzero >= numSyms { return -1, r; }
    var finalRunLen := numSyms - totalNonzero;
    if curSymbol + finalRunLen > 256 { return -1, r; }
    ghost var was := r;
    r := r[2 * n := curSymbol][2 * n + 1 := finalRunLen];
    assert r[..2 * n + 2] == was[..2 * n] + [curSymbol, finalRunLen];
    pairs := n + 1;
  }

  lemma SmallStart(x: nat)
    requires x < 256
    ensures x % 0x1_0000 == x
  {
  }

  lemma NoRuns(lens: seq<nat>, first: nat)
    ensures RunStart(lens, first, 0) == first && Occurring(lens, 0) == 0 && Placed(lens, first, 0) == []
  {
  }

  lemma OneRun(lens: seq<nat>, first: nat, k: nat)
    requires 2 * k + 2 <= |lens|
    ensures RunStart(lens, first, k + 1) == RunStart(lens, first, k) + lens[2 * k] + lens[2 * k + 1]
    ensures Occurring(lens, k + 1) == Occurring(lens, k) + lens[2 * k]
    ensures Placed(lens, first, k + 1) == Placed(lens, first, k) + [RunStart(lens, first, k), lens[2 * k]]
  {
  }

  lemma {:induction false} StartsGrow(lens: seq<nat>, first: nat, j: nat, k: nat)
    requires j <= k && 2 * k <= |lens|
    ensures RunStart(lens, first, j) <= RunStart(lens, first, k)
    decreases k
  {
    if j < k { StartsGrow(lens, first, j, k - 1); }
  }

  lemma {:induction false} PlacedAt(lens: seq<nat>, first: nat, j: nat, k: nat)
    requires j < k && 2 * k <= |lens|
    ensures Placed(lens, first, k)[2 * j] == RunStart(lens, first, j) && Placed(lens, first, k)[2 * j + 1] == lens[2 * j]
    decreases k
  {
    hide RunStart;
    if j < k - 1 { PlacedAt(lens, first, j, k - 1); }
  }

  lemma {:induction false} PlacedTotal(lens: seq<nat>, first: nat, k: nat, more: seq<nat>)
    requires 2 * k <= |lens|
    ensures Total(Placed(lens, first, k) + more, k) == Occurring(lens, k)
    decreases k
  {
    hide RunStart;
    if k > 0 {
      var step := [RunStart(lens, first, k - 1), lens[2 * k - 2]];
      PlacedTotal(lens, first, k - 1, step + more);
      assert Placed(lens, first, k) + more == Placed(lens, first, k - 1) + (step + more);
    }
  }

  /** What is placed are the runs of an alphabet. */
  lemma PlacedIsRuns(lens: seq<nat>, first: nat, n: nat, numSyms: nat)
    requires 2 * n <= |lens| && (forall i :: 0 <= i < 2 * n ==> 1 <= lens[i]) && RoomForLast(lens, first, n, numSyms)
    ensures Runs(AllRuns(lens, first, n, numSyms), n + 1, numSyms)
  {
    hide Placed, RunStart, Occurring, Total;
    var r := AllRuns(lens, first, n, numSyms);
    forall k | 0 <= k < n ensures StartOf(r, k) == RunStart(lens, first, k) && LengthOf(r, k) == lens[2 * k] {
      PlacedAt(lens, first, k, n);
    }
    forall k | 0 <= k < n ensures StartOf(r, k) + LengthOf(r, k) < RunStart(lens, first, k + 1) <= StartOf(r, n) {
      OneRun(lens, first, k);
      StartsGrow(lens, first, k + 1, n);
    }
    forall j, k | 0 <= j < k < n + 1 ensures StartOf(r, j) + LengthOf(r, j) < StartOf(r, k) {
      if k < n { StartsGrow(lens, first, j + 1, k); }
    }
    PlacedTotal(lens, first, n, [RunStart(lens, first, n), numSyms - Occurring(lens, n)]);
    TotalStep(r, n);
  }

  /** So are the runs that are read, whatever the bits. */
  lemma ReadIsRuns(s: seq<bool>, p: nat, numSyms: nat, numEg: nat, prefix: seq<byte>)
    requires numEg <= |prefix| && ReadRuns(s, p, numSyms, numEg, prefix).Some?
    ensures Runs(ReadRuns(s, p, numSyms, numEg, prefix).value.runs, numEg / 2 + 1, numSyms)
  {
    hide ReadLengths, ZeroRun, Runs, AllRuns, RoomForLast;
    var head := if numEg % 2 == 1 then ZeroRun(s, p, prefix[0]) else (0, 0);
    var lens := ReadLengths(s, p + head.1, prefix[numEg % 2..], numEg / 2);
    PlacedIsRuns(lens.0, head.0, numEg / 2, numSyms);
  }

  /** The runs of symbols that occur, from their number, the number of run lengths, and prefixes. */
  method DecodeRunLens(vb: Reader, numSyms: nat, numEg: nat, prefix: seq<byte>) returns (pairs: int, r: seq<nat>)
    requires vb.Valid() && numEg <= |prefix|
    modifies vb
    ensures vb.Valid() && old(vb.Pos()) >= 0
    ensures
      match ReadRuns(MsbBits(vb.data), old(vb.Pos()), numSyms, numEg, prefix)
      case None => pairs == -1
      case Some(a) => pairs == numEg / 2 + 1 && 2 * pairs <= |r| && r[..2 * pairs] == a.runs && vb.Pos() == a.p
  {
    hide ReadLengths, ZeroRun, AllRuns, RoomForLast, Stands, MsbBits;
    VarBits.Limits(vb.data, vb.Pos(), vb.bits, 63 - vb.inv_bitlen, vb.cur);
    if numSyms == 0 || numSyms > 256 { return -1, []; }
    if numEg > 255 { return -1, []; }
    var first, rest := 0, prefix;
    if numEg % 2 != 0 {
      vb.Refill();
      first := DecodeZeroRun(vb, prefix[0]);
      rest := prefix[1..];
    }
    assert rest == prefix[numEg % 2..];
    var lengths := DecodeLengths(vb, numEg / 2, rest);
    assert forall i :: 1 <= i <= 2 * (numEg / 2) ==> lengths[i] == lengths[1..2 * (numEg / 2) + 1][i - 1];
    pairs, r := PlaceRuns(lengths, first, numEg / 2, numSyms);
  }
}
