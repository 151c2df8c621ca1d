/** Writing the runs of an alphabet: the lengths of all but the last, and of the gaps between them. */
module TansRunCodes {
  import opened Bits
  import opened MsbFirst
  import opened MsbRegister
  import opened TansSpec
  import opened TansShape
  import opened TansCodes
  import opened Wrappers

  // ----- one length

  /** A run of symbols that occur: the code with parameter 0 of its length without one. */
  lemma NonzeroExactly(s: seq<bool>, p: nat, prefix: nat, z: nat, w: nat)
    requires 1 <= z <= 256
    ensures NonzeroRun(s, p, prefix) == (z, w)
      <==> prefix == Width(z - 1, 0) && w == prefix && Reads(s, p, Digits(z - 1, 0))
  {
    hide Msb, Digits, Reads, Width, Pow2;
    ShortWidth(z, 0);
    Pow2Zero();
    CodeExactly(s, p, prefix, 0, z - 1);
  }

  /** A gap: the code with parameter 1 of its length without one. */
  lemma ZeroExactly(s: seq<bool>, p: nat, prefix: nat, z: nat, w: nat)
    requires 1 <= z <= 256
    ensures ZeroRun(s, p, prefix) == (z, w)
      <==> prefix + 1 == Width(z - 1, 1) && w == prefix + 1 && Reads(s, p, Digits(z - 1, 1))
  {
    hide Msb, Digits, Reads, Width, Pow2;
    ShortWidth(z, 1);
    Pow2Zero();
    CodeExactly(s, p, prefix + 1, 1, z - 1);
  }

  lemma Pow2Zero()
    ensures Pow2(0) == 1 && Pow2(1) == 2
  {
  }

  lemma ShortWidth(z: nat, k: nat)
    requires 1 <= z <= 256 && k <= 1
    ensures k <= Width(z - 1, k) <= 8
  {
    hide Pow2, Log2;
    Pow2Zero();
    WidthBounds(z - 1, k);
    Pow2Values();
    if Width(z - 1, k) > 8 { Pow2Mono(9, Width(z - 1, k)); }
  }

  // ----- pairs of a run and the gap behind it

  ghost predicate Short(lens: seq<nat>) {
    forall i :: 0 <= i < |lens| ==> 1 <= lens[i] <= 256
  }

  ghost function LengthBits(lens: seq<nat>, n: nat): seq<bool>
    requires 2 * n <= |lens| && Short(lens)
  {
    if n == 0 then [] else LengthBits(lens, n - 1) + Digits(lens[2 * n - 2] - 1, 0) + Digits(lens[2 * n - 1] - 1, 1)
  }

  ghost predicate LengthPrefixes(lens: seq<nat>, n: nat, prefix: seq<byte>)
    requires 2 * n <= |lens| && 2 * n <= |prefix| && Short(lens)
  {
    forall j :: 0 <= j < n ==> PairPrefixes(lens, j, prefix)
  }

  predicate PairPrefixes(lens: seq<nat>, j: nat, prefix: seq<byte>)
    requires 2 * j + 1 < |lens| && 2 * j + 1 < |prefix| && lens[2 * j] >= 1 && lens[2 * j + 1] >= 1
  {
    prefix[2 * j] == Width(lens[2 * j] - 1, 0) && prefix[2 * j + 1] == Width(lens[2 * j + 1] - 1, 1) - 1
  }

  function PairDigits(a: nat, b: nat): seq<bool>
    requires a >= 1 && b >= 1
  {
    Digits(a - 1, 0) + Digits(b - 1, 1)
  }

  lemma PairExactly(s: seq<bool>, p: nat, prefix: seq<byte>, lens: seq<nat>, j: nat, at: nat)
    requires 2 * j + 1 < |lens| && 2 * j + 1 < |prefix| && 1 <= lens[2 * j] <= 256 && 1 <= lens[2 * j + 1] <= 256
    ensures var nz := NonzeroRun(s, p, prefix[2 * j]);
      var z := ZeroRun(s, p + nz.1, prefix[2 * j + 1]);
      var w := PairDigits(lens[2 * j], lens[2 * j + 1]);
      nz.0 == lens[2 * j] && z.0 == lens[2 * j + 1] && at == p + nz.1 + z.1
      <==> PairPrefixes(lens, j, prefix) && Reads(s, p, w) && at == p + |w|
  {
    hide Reads, Digits, Width, ZeroRun, NonzeroRun;
    var a, b := lens[2 * j], lens[2 * j + 1];
    var nz := NonzeroRun(s, p, prefix[2 * j]);
    var z := ZeroRun(s, p + nz.1, prefix[2 * j + 1]);
    NonzeroExactly(s, p, prefix[2 * j], a, nz.1);
    NonzeroExactly(s, p, prefix[2 * j], a, prefix[2 * j]);
    ZeroExactly(s, p + nz.1, prefix[2 * j + 1], b, z.1);
    var after: nat := prefix[2 * j + 1];
    ZeroExactly(s, p + nz.1, prefix[2 * j + 1], b, after + 1);
    ReadsSplit(s, p, Digits(a - 1, 0), Digits(b - 1, 1));
    assert nz == (nz.0, nz.1) && z == (z.0, z.1);
  }

  lemma PairJoins(s: seq<bool>, p: nat, prefix: seq<byte>, lens: seq<nat>, n: nat)
    requires n > 0 && 2 * n <= |lens| && 2 * n <= |prefix| && Short(lens)
    ensures var w := PairDigits(lens[2 * n - 2], lens[2 * n - 1]);
      && LengthBits(lens, n) == LengthBits(lens, n - 1) + w
      && (Reads(s, p, LengthBits(lens, n)) <==>
            Reads(s, p, LengthBits(lens, n - 1)) && Reads(s, p + |LengthBits(lens, n - 1)|, w))
      && (LengthPrefixes(lens, n, prefix) <==> LengthPrefixes(lens, n - 1, prefix) && PairPrefixes(lens, n - 1, prefix))
  {
    hide Reads, Digits, Width, PairPrefixes;
    var pre, a, b := LengthBits(lens, n - 1), lens[2 * n - 2], lens[2 * n - 1];
    ReadsSplit(s, p, pre, PairDigits(a, b));
    Regroup(pre, Digits(a - 1, 0), Digits(b - 1, 1));
  }

  lemma LengthsJoin(s: seq<bool>, p: nat, prefix: seq<byte>, lens: seq<nat>, n: nat, at: nat)
    requires n > 0 && 2 * n <= |lens| && 2 * n <= |prefix|
    ensures var pre := ReadLengths(s, p, prefix, n - 1);
      var nz := NonzeroRun(s, pre.1, prefix[2 * n - 2]);
      var z := ZeroRun(s, pre.1 + nz.1, prefix[2 * n - 1]);
      ReadLengths(s, p, prefix, n) == (lens[..2 * n], at)
      <==> pre.0 == lens[..2 * n - 2] && nz.0 == lens[2 * n - 2] && z.0 == lens[2 * n - 1] && at == pre.1 + nz.1 + z.1
  {
    hide ZeroRun, NonzeroRun;
    LengthsStep(s, p, prefix, n - 1);
    assert lens[..2 * n] == lens[..2 * n - 2] + [lens[2 * n - 2], lens[2 * n - 1]];
    assert lens[..2 * n][..2 * n - 2] == lens[..2 * n - 2];
    var pre := ReadLengths(s, p, prefix, n - 1);
    var nz := NonzeroRun(s, pre.1, prefix[2 * n - 2]);
    var z := ZeroRun(s, pre.1 + nz.1, prefix[2 * n - 1]);
    var all := pre.0 + [nz.0, z.0];
    assert all[..2 * n - 2] == pre.0 && all[2 * n - 2] == nz.0 && all[2 * n - 1] == z.0;
  }

  /** Lengths are read exactly from the bits that are their codes. */
  lemma {:induction false} LengthsExactly(s: seq<bool>, p: nat, prefix: seq<byte>, lens: seq<nat>, n: nat, at: nat)
    requires 2 * n <= |lens| && 2 * n <= |prefix| && Short(lens)
    ensures ReadLengths(s, p, prefix, n) == (lens[..2 * n], at)
      <==> LengthPrefixes(lens, n, prefix) && Reads(s, p, LengthBits(lens, n)) && at == p + |LengthBits(lens, n)|
    decreases n
  {
    hide Reads, Digits, Width, ZeroRun, NonzeroRun, PairPrefixes, PairDigits, ReadLengths, LengthBits, LengthPrefixes;
    if n == 0 {
      NoPairs(s, p, prefix, lens);
    } else {
      var pre, there := ReadLengths(s, p, prefix, n - 1), p + |LengthBits(lens, n - 1)|;
      LengthsExactly(s, p, prefix, lens, n - 1, pre.1);
      LengthsExactly(s, p, prefix, lens, n - 1, there);
      PairJoins(s, p, prefix, lens, n);
      LengthsJoin(s, p, prefix, lens, n, at);
      PairExactly(s, pre.1, prefix, lens, n - 1, at);
      assert pre == (pre.0, pre.1);
    }
  }

  lemma NoPairs(s: seq<bool>, p: nat, prefix: seq<byte>, lens: seq<nat>)
    requires Short(lens)
    ensures ReadLengths(s, p, prefix, 0) == (lens[..0], p) && LengthPrefixes(lens, 0, prefix)
    ensures LengthBits(lens, 0) == [] && Reads(s, p, [])
  {
  }

  // ----- runs

  /** Where all runs start, and how long they are. */
  ghost predicate Alphabetic(r: seq<nat>, numSyms: nat) {
    |r| % 2 == 0 && Runs(r, |r| / 2, numSyms)
  }

  /** The run before place i ends before the next one starts. */
  predicate GapAt(r: seq<nat>, i: nat) {
    0 < i < |r| - 1 && r[i - 1] + r[i] < r[i + 1] < 256
  }

  function Gap(r: seq<nat>, i: nat): nat
    requires GapAt(r, i)
  {
    r[i + 1] - (r[i - 1] + r[i])
  }

  /** The lengths of the runs, each with the gap behind it; the last run's is not among them. */
  ghost function Lens(r: seq<nat>, numSyms: nat): (lens: seq<nat>)
    requires Alphabetic(r, numSyms)
    ensures |lens| == |r| - 2
  {
    GapsFit(r, numSyms);
    seq<nat>(|r| - 2, i requires 0 <= i < |r| - 2 => if i % 2 == 0 then r[i + 1] else Gap(r, i))
  }

  lemma RunFits(r: seq<nat>, numSyms: nat, k: nat)
    requires Alphabetic(r, numSyms) && 2 * k + 1 < |r|
    ensures 1 <= r[2 * k + 1] && r[2 * k] + r[2 * k + 1] <= 256
    ensures 2 * k + 3 < |r| ==> r[2 * k] + r[2 * k + 1] < r[2 * k + 2]
  {
    hide Total;
    assert LengthOf(r, k) == r[2 * k + 1] && StartOf(r, k) == r[2 * k];
    if 2 * k + 3 < |r| { assert StartOf(r, k + 1) == r[2 * k + 2]; }
  }

  lemma GapsFit(r: seq<nat>, numSyms: nat)
    requires Alphabetic(r, numSyms)
    ensures |r| >= 2 && r[0] < 256
    ensures forall i :: 0 <= i < |r| - 2 && i % 2 == 1 ==> GapAt(r, i)
    ensures forall i :: 0 <= i < |r| && i % 2 == 1 ==> 1 <= r[i] <= 256
  {
    hide Runs;
    AtLeastOne(r, numSyms);
    RunFits(r, numSyms, 0);
    forall i | 0 <= i < |r| && i % 2 == 1 ensures 1 <= r[i] <= 256 {
      RunFits(r, numSyms, i / 2);
      assert i == 2 * (i / 2) + 1;
    }
    forall i | 0 <= i < |r| - 2 && i % 2 == 1 ensures GapAt(r, i) {
      RunFits(r, numSyms, i / 2);
      RunFits(r, numSyms, i / 2 + 1);
      assert i == 2 * (i / 2) + 1;
    }
  }

  lemma AtLeastOne(r: seq<nat>, numSyms: nat)
    requires Alphabetic(r, numSyms)
    ensures |r| >= 2 && |r| % 2 == 0
  {
  }

  lemma LensAt(r: seq<nat>, numSyms: nat, k: nat)
    requires Alphabetic(r, numSyms) && 2 * k + 3 < |r|
    ensures var lens := Lens(r, numSyms);
      && lens[2 * k] == r[2 * k + 1] && r[2 * k + 2] == r[2 * k] + r[2 * k + 1] + lens[2 * k + 1]
      && 1 <= lens[2 * k] <= 256 && 1 <= lens[2 * k + 1] <= 256
  {
    hide Runs;
    GapsFit(r, numSyms);
    assert GapAt(r, 2 * k + 1);
  }

  lemma LensShort(r: seq<nat>, numSyms: nat)
    requires Alphabetic(r, numSyms)
    ensures Short(Lens(r, numSyms))
  {
    hide Alphabetic, Lens;
    AtLeastOne(r, numSyms);
    var lens := Lens(r, numSyms);
    forall i | 0 <= i < |lens| ensures 1 <= lens[i] <= 256 {
      LensAt(r, numSyms, i / 2);
      assert i == 2 * (i / 2) + i % 2;
    }
  }

  lemma {:induction false} LensPlace(r: seq<nat>, numSyms: nat, k: nat)
    requires Alphabetic(r, numSyms) && 2 * k + 2 <= |r|
    ensures var lens := Lens(r, numSyms);
      RunStart(lens, r[0], k) == r[2 * k] && Occurring(lens, k) == Total(r, k) && Placed(lens, r[0], k) == r[..2 * k]
    decreases k
  {
    hide Alphabetic, Lens;
    if k > 0 {
      LensPlace(r, numSyms, k - 1);
      LensAt(r, numSyms, k - 1);
      assert r[..2 * k] == r[..2 * k - 2] + [r[2 * k - 2], r[2 * k - 1]];
    }
  }

  /** The reader puts the runs where they were. */
  lemma RunsPlaced(r: seq<nat>, numSyms: nat)
    requires Alphabetic(r, numSyms)
    ensures var lens, n := Lens(r, numSyms), |r| / 2 - 1;
      RoomForLast(lens, r[0], n, numSyms) && AllRuns(lens, r[0], n, numSyms) == r
  {
    hide RunStart, Occurring, Placed, Total;
    var n := |r| / 2 - 1;
    GapsFit(r, numSyms);
    LensPlace(r, numSyms, n);
    TotalStep(r, n);
    assert StartOf(r, n) == r[2 * n] && LengthOf(r, n) == r[2 * n + 1];
    assert r == r[..2 * n] + [r[2 * n], r[2 * n + 1]];
  }

  /** What the reader places are runs with these lengths. */
  lemma LensThere(lens: seq<nat>, first: nat, n: nat, numSyms: nat)
    requires |lens| == 2 * n && (forall i :: 0 <= i < 2 * n ==> 1 <= lens[i]) && RoomForLast(lens, first, n, numSyms)
    ensures var r := AllRuns(lens, first, n, numSyms);
      Alphabetic(r, numSyms) && r[0] == first && Lens(r, numSyms) == lens
  {
    hide Placed, RunStart, Occurring, Runs, Short, Lens;
    var r := AllRuns(lens, first, n, numSyms);
    PlacedIsRuns(lens, first, n, numSyms);
    NoRuns(lens, first);
    if n > 0 { PlacedAt(lens, first, 0, n); }
    forall j | 0 <= j < n
      ensures r[2 * j + 1] == lens[2 * j] && r[2 * j + 2] == r[2 * j] + r[2 * j + 1] + lens[2 * j + 1]
    {
      PlacedAt(lens, first, j, n);
      OneRun(lens, first, j);
      if j + 1 < n { PlacedAt(lens, first, j + 1, n); }
    }
    var all := Lens(r, numSyms);
    forall i | 0 <= i < 2 * n ensures all[i] == lens[i] {
      LensAt(r, numSyms, i / 2);
      assert i == 2 * (i / 2) + i % 2;
    }
  }

  // ----- their codes

  /** A gap in front of the first run is written before all others. */
  ghost function RunCodes(r: seq<nat>, numSyms: nat): seq<bool>
    requires Alphabetic(r, numSyms)
  {
    LensShort(r, numSyms);
    var rest := LengthBits(Lens(r, numSyms), |r| / 2 - 1);
    if r[0] == 0 then rest else Digits(r[0] - 1, 1) + rest
  }

  /** How many lengths are written. */
  ghost function Lengths(r: seq<nat>, numSyms: nat): nat
    requires Alphabetic(r, numSyms)
  {
    |r| - 2 + if r[0] == 0 then 0 else 1
  }

  ghost predicate RunPrefixes(r: seq<nat>, numSyms: nat, prefix: seq<byte>)
    requires Alphabetic(r, numSyms) && Lengths(r, numSyms) <= |prefix|
  {
    LensShort(r, numSyms);
    if r[0] == 0 then LengthPrefixes(Lens(r, numSyms), |r| / 2 - 1, prefix)
    else prefix[0] == Width(r[0] - 1, 1) - 1 && LengthPrefixes(Lens(r, numSyms), |r| / 2 - 1, prefix[1..])
  }

  ghost predicate RunsStand(s: seq<bool>, p: nat, numSyms: nat, numEg: nat, prefix: seq<byte>, r: seq<nat>)
    requires numEg <= |prefix|
  {
    && Alphabetic(r, numSyms) && numEg == Lengths(r, numSyms) && RunPrefixes(r, numSyms, prefix)
    && Reads(s, p, RunCodes(r, numSyms))
  }

  /** Written runs are read back. */
  lemma RunsAreRead(s: seq<bool>, p: nat, numSyms: nat, numEg: nat, prefix: seq<byte>, r: seq<nat>)
    requires numEg <= |prefix| && numEg <= 255 && 1 <= numSyms <= 256 && RunsStand(s, p, numSyms, numEg, prefix, r)
    ensures ReadRuns(s, p, numSyms, numEg, prefix) == Some(RunsRead(r, p + |RunCodes(r, numSyms)|))
  {
    hide Reads, Digits, Width, ZeroRun, ReadLengths, LengthBits, LengthPrefixes, Runs, AllRuns, RoomForLast;
    GapsFit(r, numSyms);
    LensShort(r, numSyms);
    RunsPlaced(r, numSyms);
    var lens, n := Lens(r, numSyms), |r| / 2 - 1;
    assert lens[..2 * n] == lens;
    if r[0] == 0 {
      LengthsExactly(s, p, prefix, lens, n, p + |LengthBits(lens, n)|);
      assert prefix[0..] == prefix;
    } else {
      var w := Digits(r[0] - 1, 1);
      ReadsSplit(s, p, w, LengthBits(lens, n));
      ZeroExactly(s, p, prefix[0], r[0], |w|);
      LengthsExactly(s, p + |w|, prefix[1..], lens, n, p + |w| + |LengthBits(lens, n)|);
    }
  }

  /** Nothing else is read as runs. */
  lemma RunsThere(s: seq<bool>, p: nat, numSyms: nat, numEg: nat, prefix: seq<byte>)
    requires numEg <= |prefix| && ReadRuns(s, p, numSyms, numEg, prefix).Some?
    ensures var a := ReadRuns(s, p, numSyms, numEg, prefix).value;
      RunsStand(s, p, numSyms, numEg, prefix, a.runs) && a.p == p + |RunCodes(a.runs, numSyms)|
  {
    hide Reads, Digits, Width, ZeroRun, ReadLengths, LengthBits, LengthPrefixes, Runs, AllRuns, RoomForLast;
    var n := numEg / 2;
    var head := if numEg % 2 == 1 then ZeroRun(s, p, prefix[0]) else (0, 0);
    var pre := ReadLengths(s, p + head.1, prefix[numEg % 2..], n);
    var r := AllRuns(pre.0, head.0, n, numSyms);
    LensThere(pre.0, head.0, n, numSyms);
    GapsFit(r, numSyms);
    LensShort(r, numSyms);
    assert pre.0[..2 * n] == pre.0;
    LengthsExactly(s, p + head.1, prefix[numEg % 2..], pre.0, n, pre.1);
    if numEg % 2 == 1 {
      ZeroExactly(s, p, prefix[0], head.0, head.1);
      ReadsSplit(s, p, Digits(r[0] - 1, 1), LengthBits(pre.0, n));
    } else {
      assert prefix[0..] == prefix;
    }
  }
}
