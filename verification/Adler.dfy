/** Adler-32: the sums reduced at every byte, as section 2.2 of RFC 1950 defines them, against the
    code that puts the reductions off, and the combination of two checksums. */
module Adler {
  import opened Bits
  import opened Wrappers

  const BASE := 65521
  const NMAX := 5552

  datatype Sums = Sums(s1: nat, s2: nat)

  /** The remainder modulo BASE, of negative numbers as well. */
  function Rem(x: int): (r: nat)
    ensures r < BASE
  {
    x % BASE
  }

  /** The definition: both sums modulo BASE after every byte. */
  function Checksum(start: Sums, data: seq<byte>): Sums {
    if data == [] then start
    else
      var before := Checksum(start, data[..|data| - 1]);
      var s1 := Rem(before.s1 + data[|data| - 1]);
      Sums(s1, Rem(before.s2 + s1))
  }

  /** The sums that are not reduced at all. */
  function RawSums(start: Sums, data: seq<byte>): Sums {
    if data == [] then start
    else
      var before := RawSums(start, data[..|data| - 1]);
      var s1 := before.s1 + data[|data| - 1];
      Sums(s1, before.s2 + s1)
  }

  function Reduce(s: Sums): Sums {
    Sums(Rem(s.s1), Rem(s.s2))
  }

  predicate Reduced(s: Sums) {
    s.s1 < BASE && s.s2 < BASE
  }

  /** The two halves of the 32-bit checksum. */
  function Pack(s: Sums): nat {
    s.s1 + 65536 * s.s2
  }

  function Unpack(a: nat): Sums {
    Sums(a % 65536, (a / 65536) % 65536)
  }

  function Adler32(data: seq<byte>): Sums {
    Checksum(Sums(1, 0), data)
  }

  // ----- the definition in closed form

  function Plain(data: seq<byte>): nat {
    if data == [] then 0 else Plain(data[..|data| - 1]) + data[|data| - 1]
  }

  /** Every byte as often as there are bytes from it on, the first of n bytes n times. */
  function Weighted(data: seq<byte>, n: nat): nat
    requires |data| <= n
  {
    if data == [] then 0 else Weighted(data[..|data| - 1], n) + (n - |data| + 1) * data[|data| - 1]
  }

  lemma {:induction false} OneMoreEach(data: seq<byte>, n: nat)
    requires |data| <= n
    ensures Weighted(data, n + 1) == Weighted(data, n) + Plain(data)
  {
    if data != [] {
      OneMoreEach(data[..|data| - 1], n);
      var k, x := n - |data| + 1, data[|data| - 1];
      assert (k + 1) * x == k * x + x;
    }
  }

  lemma {:induction false} RawSumsAre(data: seq<byte>)
    ensures RawSums(Sums(1, 0), data) == Sums(1 + Plain(data), |data| + Weighted(data, |data|))
  {
    if data != [] {
      var m := |data| - 1;
      RawSumsAre(data[..m]);
      OneMoreEach(data[..m], m);
    }
  }

  /** One and the sum of all bytes; and their number with the sum in which the first byte counts most. */
  lemma ClosedForm(data: seq<byte>)
    ensures Adler32(data) == Sums((1 + Plain(data)) % 65521, (|data| + Weighted(data, |data|)) % 65521)
  {
    hide RawSums, Checksum;
    ReduceOnce(Sums(1, 0), data);
    RawSumsAre(data);
  }

  // ----- deferring the reductions

  /** The first block, of |data| % NMAX bytes, leaves a multiple of NMAX. */
  lemma OddBlock(n: nat)
    ensures n % NMAX <= n && (n - n % NMAX) % NMAX == 0
  {
  }

  lemma RemMultiple(r: int, q: int)
    ensures Rem(r + BASE * q) == Rem(r)
  {
  }

  lemma RemSmall(x: nat)
    requires x < BASE
    ensures Rem(x) == x
  {
  }

  /** Subtracting BASE once. */
  lemma RemOnce(x: nat)
    requires BASE <= x
    ensures Rem(x) == Rem(x - BASE)
  {
    hide Rem;
    RemMultiple(x - BASE, 1);
  }

  /** A summand may be reduced first. */
  lemma RemShift(k: int, y: int)
    ensures Rem(k + Rem(y)) == Rem(k + y)
  {
    var q := y / BASE;
    assert y == Rem(y) + BASE * q;
    hide Rem;
    RemMultiple(k + Rem(y), q);
  }

  lemma {:induction false} ChecksumReduced(start: Sums, data: seq<byte>)
    requires Reduced(start)
    ensures Reduced(Checksum(start, data))
  {
    if data != [] { ChecksumReduced(start, data[..|data| - 1]); }
  }

  /** Reducing at every byte or once at the end is the same. */
  lemma {:induction false} ReduceOnce(start: Sums, data: seq<byte>)
    requires Reduced(start)
    ensures Checksum(start, data) == Reduce(RawSums(start, data))
  {
    hide Rem;
    if data == [] {
      RemSmall(start.s1);
      RemSmall(start.s2);
    } else {
      var n := |data| - 1;
      ReduceOnce(start, data[..n]);
      var r := RawSums(start, data[..n]);
      RemShift(data[n], r.s1);
      RemShift(Rem(r.s2), r.s1 + data[n]);
      RemShift(r.s1 + data[n], r.s2);
    }
  }

  lemma {:induction false} ChecksumConcat(start: Sums, a: seq<byte>, b: seq<byte>)
    ensures Checksum(start, a + b) == Checksum(Checksum(start, a), b)
  {
    hide Rem;
    if b == [] {
      assert a + b == a;
    } else {
      var n := |b| - 1;
      ChecksumConcat(start, a, b[..n]);
      assert (a + b)[..|a + b| - 1] == a + b[..n] && (a + b)[|a + b| - 1] == b[n];
    }
  }

  /** How large the sums grow over n bytes. */
  lemma {:induction false} RawBound(start: Sums, data: seq<byte>)
    ensures RawSums(start, data).s1 <= start.s1 + 255 * |data|
    ensures 2 * RawSums(start, data).s2 <= 2 * start.s2 + 2 * |data| * start.s1 + 255 * |data| * (|data| + 1)
  {
    if data != [] {
      var n := |data| - 1;
      RawBound(start, data[..n]);
      BoundStep(start.s1, n);
    }
  }

  lemma BoundStep(a: nat, n: nat)
    ensures 2 * (n + 1) * a == 2 * n * a + 2 * a
    ensures 255 * (n + 1) * (n + 2) == 255 * n * (n + 1) + 510 * (n + 1)
  {
  }

  /** NMAX bytes never overflow 32 bits, in either sum, at any point. */
  lemma NoOverflow(start: Sums, data: seq<byte>)
    requires Reduced(start) && |data| <= NMAX
    ensures RawSums(start, data).s1 < 0x1_0000_0000 && RawSums(start, data).s2 < 0x1_0000_0000
  {
    RawBound(start, data);
    BoundMono(|data|, start.s1);
  }

  lemma BoundMono(n: nat, a: nat)
    requires n <= NMAX && a < BASE
    ensures 2 * n * a <= 2 * NMAX * (BASE - 1)
    ensures 255 * n * (n + 1) <= 255 * NMAX * (NMAX + 1)
  {
    assert n * a <= NMAX * a by { MulMono(n, NMAX, a); }
    assert NMAX * a <= NMAX * (BASE - 1);
    assert n * (n + 1) <= NMAX * (n + 1) by { MulMono(n, NMAX, n + 1); }
  }

  lemma MulMono(x: nat, y: nat, k: nat)
    requires x <= y
    ensures x * k <= y * k
  {
  }

  function AllOnes(n: nat): (s: seq<byte>)
    ensures |s| == n
  {
    seq(n, _ => 255)
  }

  lemma {:induction false} RawOfOnes(start: Sums, n: nat)
    ensures RawSums(start, AllOnes(n)).s1 == start.s1 + 255 * n
    ensures 2 * RawSums(start, AllOnes(n)).s2 == 2 * start.s2 + 2 * n * start.s1 + 255 * n * (n + 1)
  {
    if n > 0 {
      RawOfOnes(start, n - 1);
      assert AllOnes(n)[..n - 1] == AllOnes(n - 1);
      BoundStep(start.s1, n - 1);
    }
  }

  /** And NMAX is the largest such length: one byte more overflows. */
  lemma NmaxIsLargest()
    ensures RawSums(Sums(BASE - 1, BASE - 1), AllOnes(NMAX + 1)).s2 >= 0x1_0000_0000
  {
    RawOfOnes(Sums(BASE - 1, BASE - 1), NMAX + 1);
  }

  // ----- reductions without division

  method Chop(a: nat) returns (r: nat)
    ensures r == (a % 65536) + 15 * (a / 65536) && Rem(r) == Rem(a)
  {
    var tmp := a / 65536;
    r := a % 65536;
    r := r + (16 * tmp - tmp);
    ChopExact(a, tmp, r);
  }

  lemma ChopExact(a: nat, tmp: nat, r: nat)
    requires tmp == a / 65536 && r == a % 65536 + 15 * tmp
    ensures Rem(r) == Rem(a)
  {
    hide Rem;
    assert a == r + BASE * tmp;
    RemMultiple(r, tmp);
  }

  method SubtractOnce(sum: nat) returns (r: nat)
    requires sum < 2 * BASE
    ensures r == Rem(sum)
  {
    hide Rem;
    r := sum;
    if r >= BASE {
      RemOnce(r);
      r := r - BASE;
    }
    RemSmall(r);
  }

  method Mod28(a: nat) returns (r: nat)
    requires a < 0x1000_0000
    ensures r == Rem(a)
  {
    hide Rem;
    r := Chop(a);
    r := SubtractOnce(r);
  }

  method Mod(a: nat) returns (r: nat)
    requires a < 0x1_0000_0000
    ensures r == Rem(a)
  {
    hide Rem;
    r := Chop(a);
    r := Mod28(r);
  }

  /** Exact on every non-negative 63-bit number. */
  method Mod63(a: nat) returns (r: nat)
    requires a < 0x8000_0000_0000_0000
    ensures r == Rem(a)
  {
    hide Rem;
    var tmp := a / 0x1_0000_0000;
    r := a % 0x1_0000_0000;
    r := r + (256 * tmp - 32 * tmp + tmp);
    High32(a, tmp, r);
    r := Chop(r);
    r := Chop(r);
    r := SubtractOnce(r);
  }

  lemma High32(a: nat, tmp: nat, r: nat)
    requires tmp == a / 0x1_0000_0000 && r == a % 0x1_0000_0000 + 225 * tmp
    ensures Rem(r) == Rem(a)
  {
    hide Rem;
    assert 0x1_0000_0000 == BASE * 65551 + 225;
    assert a == r + BASE * (65551 * tmp);
    RemMultiple(r, 65551 * tmp);
  }

  // ----- adler32_z

  /** Adds the bytes from i to j without reducing. */
  method AddBytes(start: Sums, buf: seq<byte>, i: nat, j: nat) returns (s: Sums)
    requires i <= j <= |buf|
    ensures s == RawSums(start, buf[i..j])
  {
    var adler: nat, sum2: nat := start.s1, start.s2;
    var k := i;
    assert buf[i..i] == [];
    while k < j
      invariant i <= k <= j
      invariant Sums(adler, sum2) == RawSums(start, buf[i..k])
    {
      assert buf[i..k + 1][..k - i] == buf[i..k];
      adler := adler + buf[k];
      sum2 := sum2 + adler;
      k := k + 1;
    }
    s := Sums(adler, sum2);
  }

  /** The checksum of buf on top of a previous one. A missing buffer restarts it. */
  method Adler32Z(adler: nat, buf: Option<seq<byte>>) returns (r: nat)
    requires Reduced(Unpack(adler)) && adler < 0x1_0000_0000
    ensures buf.None? ==> r == 1
    ensures buf.Some? ==> r == Pack(Checksum(Unpack(adler), buf.value))
  {
    if buf.None? { return 1; }
    var data := buf.value;
    var start := Unpack(adler);
    hide Checksum, Rem;
    NoBytes(start);
    if |data| == 1 {
      var s := OneByteSums(start, data[0]);
      OneByte(start, data);
      return Pack(s);
    }
    if |data| < 16 {
      var s := ShortSums(start, data);
      return Pack(s);
    }
    var s, pos := start, 0;
    assert data[..0] == [] && data[..|data|] == data;
    while |data| - pos >= NMAX
      invariant 0 <= pos <= |data| && Reduced(s)
      invariant s == Checksum(start, data[..pos])
    {
      s := ReduceBlock(start, data, pos, pos + NMAX, s);
      pos := pos + NMAX;
    }
    if pos < |data| {
      s := ReduceBlock(start, data, pos, |data|, s);
    }
    r := Pack(s);
  }

  method OneByteSums(start: Sums, b: byte) returns (s: Sums)
    requires Reduced(start)
    ensures s == Sums(Rem(start.s1 + b), Rem(start.s2 + Rem(start.s1 + b)))
  {
    hide Rem;
    var adler := SubtractOnce(start.s1 + b);
    var sum2 := SubtractOnce(start.s2 + adler);
    s := Sums(adler, sum2);
  }

  /** Fewer than 16 bytes: one subtraction reduces the first sum. */
  method ShortSums(start: Sums, data: seq<byte>) returns (s: Sums)
    requires Reduced(start) && |data| < 16
    ensures s == Checksum(start, data)
  {
    hide Checksum, RawSums, Rem;
    ReduceOnce(start, data);
    assert data[0..|data|] == data;
    s := AddBytes(start, data, 0, |data|);
    FirstBound(start, data);
    var s1 := SubtractOnce(s.s1);
    s := Sums(s1, Rem(s.s2));
  }

  lemma FirstBound(start: Sums, data: seq<byte>)
    ensures RawSums(start, data).s1 <= start.s1 + 255 * |data|
  {
    RawBound(start, data);
  }

  lemma NoBytes(start: Sums)
    ensures Checksum(start, []) == start
  {
  }

  lemma OneByte(start: Sums, data: seq<byte>)
    requires |data| == 1 && Reduced(start)
    ensures Checksum(start, data) ==
      Sums(Rem(start.s1 + data[0]), Rem(start.s2 + Rem(start.s1 + data[0])))
  {
    hide Rem;
    assert data[..0] == [];
  }

  /** At most NMAX bytes, then one reduction of each sum, which fits in 32 bits until then. */
  method ReduceBlock(ghost start: Sums, data: seq<byte>, i: nat, j: nat, s: Sums) returns (r: Sums)
    requires i <= j <= |data| && j - i <= NMAX && Reduced(s) && s == Checksum(start, data[..i])
    ensures Reduced(r) && r == Checksum(start, data[..j])
  {
    hide Checksum, RawSums, Rem;
    var raw := AddBytes(s, data, i, j);
    NoOverflow(s, data[i..j]);
    ReduceOnce(s, data[i..j]);
    ChecksumConcat(start, data[..i], data[i..j]);
    assert data[..j] == data[..i] + data[i..j];
    r := Reduce(raw);
  }

  /** The loop of the PNG writer, which starts with the odd block instead of ending with it. */
  method WriterAdler(data: seq<byte>) returns (s: Sums)
    ensures s == Adler32(data) && Reduced(s)
  {
    hide Checksum, Rem;
    OddBlock(|data|);
    NoBytes(Sums(1, 0));
    s := Sums(1, 0);
    var blocklen := |data| % NMAX;
    var j := 0;
    assert data[..0] == [];
    while j < |data|
      invariant 0 <= j <= |data| && Reduced(s) && s == Checksum(Sums(1, 0), data[..j])
      invariant (j == 0 && blocklen == |data| % NMAX) || (blocklen == NMAX && (|data| - j) % NMAX == 0)
      decreases |data| - j, NMAX - blocklen
    {
      s := ReduceBlock(Sums(1, 0), data, j, j + blocklen, s);
      j := j + blocklen;
      blocklen := NMAX;
    }
    assert data[..|data|] == data;
  }

  // ----- combining checksums

  /** The checksum of two texts, from the checksums of both and the length of the second. */
  function CombineSums(x: Sums, y: Sums, n: nat): Sums {
    Sums(Rem(x.s1 + y.s1 - 1), Rem(n * x.s1 + x.s2 + y.s2 - n))
  }

  /** A different start shifts the first sum by a constant and the second one by its multiple. */
  lemma {:induction false} RawShift(x: Sums, data: seq<byte>)
    ensures var r, one := RawSums(x, data), RawSums(Sums(1, 0), data);
            && r.s1 == x.s1 + one.s1 - 1
            && r.s2 == x.s2 + one.s2 + |data| * (x.s1 - 1)
  {
    if data != [] {
      var n := |data| - 1;
      RawShift(x, data[..n]);
      assert (n + 1) * (x.s1 - 1) == n * (x.s1 - 1) + (x.s1 - 1);
    }
  }

  /** The exercise left to the reader: combining is concatenating. */
  lemma CombineIsConcat(a: seq<byte>, b: seq<byte>)
    ensures CombineSums(Adler32(a), Adler32(b), |b|) == Adler32(a + b)
  {
    hide Checksum, RawSums, Rem;
    var x, one := Adler32(a), RawSums(Sums(1, 0), b);
    ChecksumReduced(Sums(1, 0), a);
    ChecksumConcat(Sums(1, 0), a, b);
    ReduceOnce(x, b);
    ReduceOnce(Sums(1, 0), b);
    RawShift(x, b);
    ShiftedSums(x, one, RawSums(x, b), |b|);
  }

  /** Packing loses nothing. */
  lemma UnpackPack(s: Sums)
    requires Reduced(s)
    ensures Pack(s) < 0x1_0000_0000 && Unpack(Pack(s)) == s
  {
  }

  /** The same for the packed checksums. */
  lemma CombinePacked(a: seq<byte>, b: seq<byte>)
    ensures Reduced(Adler32(a)) && Reduced(Adler32(b))
    ensures Pack(CombineSums(Unpack(Pack(Adler32(a))), Unpack(Pack(Adler32(b))), |b|)) == Pack(Adler32(a + b))
  {
    hide CombineSums, Pack, Unpack, Checksum, Rem;
    ChecksumReduced(Sums(1, 0), a);
    ChecksumReduced(Sums(1, 0), b);
    UnpackPack(Adler32(a));
    UnpackPack(Adler32(b));
    CombineIsConcat(a, b);
  }

  lemma ShiftedSums(x: Sums, one: Sums, r: Sums, n: nat)
    requires r.s1 == x.s1 + one.s1 - 1 && r.s2 == x.s2 + one.s2 + n * (x.s1 - 1)
    ensures CombineSums(x, Reduce(one), n) == Reduce(r)
  {
    hide Rem;
    RemShift(x.s1 - 1, one.s1);
    assert n * (x.s1 - 1) == n * x.s1 - n;
    RemShift(n * x.s1 + x.s2 - n, one.s2);
  }

  /** n * s modulo BASE needs only n modulo BASE. */
  lemma MulMod(n: nat, s: nat)
    ensures Rem(Rem(n) * s) == Rem(n * s)
  {
    var q := n / BASE;
    assert n == Rem(n) + BASE * q;
    hide Rem;
    MulDistribute(Rem(n), q, s);
    RemMultiple(Rem(n) * s, q * s);
  }

  lemma MulDistribute(r: nat, q: nat, s: nat)
    ensures (r + BASE * q) * s == r * s + BASE * (q * s)
  {
  }

  /** The sums stay far enough below multiples of BASE for the subtractions to reduce them fully. */
  method Combine(adler1: nat, adler2: nat, len2: int) returns (r: nat)
    requires adler1 < 0x1_0000_0000 && adler2 < 0x1_0000_0000 && len2 < 0x8000_0000_0000_0000
    requires Reduced(Unpack(adler1)) && Reduced(Unpack(adler2))
    ensures len2 < 0 ==> r == 0xFFFF_FFFF
    ensures len2 >= 0 ==> r == Pack(CombineSums(Unpack(adler1), Unpack(adler2), len2))
    ensures forall a, b :: adler1 == Pack(Adler32(a)) && adler2 == Pack(Adler32(b)) && len2 == |b| ==> r == Pack(Adler32(a + b))
  {
    forall a, b | adler1 == Pack(Adler32(a)) && adler2 == Pack(Adler32(b)) && len2 == |b|
      ensures Pack(CombineSums(Unpack(adler1), Unpack(adler2), len2)) == Pack(Adler32(a + b))
    {
      CombinePacked(a, b);
    }
    if len2 < 0 { return 0xFFFF_FFFF; }
    var rem := Mod63(len2);
    var sum1 := adler1 % 65536;
    MulBound(rem, sum1);
    var sum2 := Mod(rem * sum1);
    CombineReduces(Unpack(adler1), Unpack(adler2), len2, rem, sum2);
    hide CombineSums, Rem;
    sum1 := sum1 + (adler2 % 65536) + BASE - 1;
    sum2 := sum2 + ((adler1 / 65536) % 65536) + ((adler2 / 65536) % 65536) + BASE - rem;
    sum1 := SubtractOnceOrTwice(sum1);
    sum2 := SubtractUpToThree(sum2);
    r := Pack(Sums(sum1, sum2));
  }

  method SubtractOnceOrTwice(sum: nat) returns (r: nat)
    requires sum < 3 * BASE
    ensures r == Rem(sum)
  {
    hide Rem;
    r := sum;
    if r >= BASE {
      RemOnce(r);
      r := r - BASE;
    }
    if r >= BASE {
      RemOnce(r);
      r := r - BASE;
    }
    RemSmall(r);
  }

  method SubtractUpToThree(sum: nat) returns (r: nat)
    requires sum < 4 * BASE
    ensures r == Rem(sum)
  {
    hide Rem;
    r := sum;
    if r >= 2 * BASE {
      RemMultiple(r - 2 * BASE, 2);
      r := r - 2 * BASE;
    }
    if r >= BASE {
      RemOnce(r);
      r := r - BASE;
    }
    RemSmall(r);
  }

  lemma MulBound(x: nat, y: nat)
    requires x < BASE && y < BASE
    ensures x * y < 0x1_0000_0000
  {
    assert x * y <= (BASE - 1) * y by { MulMono(x, BASE - 1, y); }
  }

  lemma CombineReduces(x: Sums, y: Sums, n: nat, rem: nat, sum2: nat)
    requires Reduced(x) && Reduced(y) && rem == Rem(n) && sum2 == Rem(rem * x.s1)
    ensures CombineSums(x, y, n).s1 == Rem(x.s1 + y.s1 + BASE - 1)
    ensures CombineSums(x, y, n).s2 == Rem(sum2 + x.s2 + y.s2 + BASE - rem)
  {
    hide Rem;
    MulMod(n, x.s1);
    RemMultiple(x.s1 + y.s1 - 1, 1);
    RemDiff(n * x.s1, x.s2 + y.s2, n);
  }

  lemma RemDiff(p: nat, k: nat, n: nat)
    ensures Rem(Rem(p) + k + BASE - Rem(n)) == Rem(p + k - n)
  {
    var a, b := p / BASE, n / BASE;
    assert p + k - n == Rem(p) + k + BASE - Rem(n) + BASE * (a - b - 1);
    hide Rem;
    RemMultiple(Rem(p) + k + BASE - Rem(n), a - b - 1);
  }
}
