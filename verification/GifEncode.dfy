/** Writing a raster, Appendix F of GIF89a: whatever the phrases that a writer cuts the colours into, the decoder
    gives the colours back. */
module GifEncode {
  import opened Bits
  import opened Words
  import opened Wrappers
  import opened GifLzw
  import opened GifWidth

  /** What is written between two clear codes: each code, and the colours it stands for. */
  datatype Segment = Segment(codes: seq<nat>, phrases: seq<seq<byte>>)

  predicate NoneEmpty(phrases: seq<seq<byte>>) {
    forall n :: 0 <= n < |phrases| ==> phrases[n] != []
  }

  /** A code stands for one colour; or for the phrase of the i-th code behind the clear code and the first colour
      behind it, if it is the i-th new code, behind clear and end. */
  predicate Stands(cs: nat, g: Segment, n: nat)
    requires n < |g.codes| == |g.phrases| && NoneEmpty(g.phrases)
  {
    if g.codes[n] < Pow2(cs) then g.phrases[n] == [g.codes[n] % 0x100]
    else
      var i := g.codes[n] - Pow2(cs) - 2;
      0 <= i < n && g.phrases[n] == g.phrases[i] + [g.phrases[i + 1][0]]
  }

  /** Codes have up to twelve bits, and a clear code comes before the dictionary is full. */
  predicate Sound(cs: nat, g: Segment) {
    && |g.codes| == |g.phrases| && NoneEmpty(g.phrases) && Pow2(cs) + 2 + |g.codes| <= 8193
    && (forall n :: 0 <= n < |g.codes| ==> g.codes[n] < 4096)
    && (forall n :: 0 <= n < |g.codes| ==> Stands(cs, g, n))
  }

  /** How many binary digits a number has. */
  function Digits(n: nat): (d: nat)
    ensures n < Pow2(d) && (n > 0 ==> d > 0 && Pow2(d - 1) <= n)
  {
    if n == 0 then 0 else 1 + Digits(n / 2)
  }

  /** How many entries there are when the n-th code is read: one more for every code but the first. */
  function Entries(cs: nat, n: nat): nat {
    Pow2(cs) + 2 + if n == 0 then 0 else n - 1
  }

  /** The code is as long as the number of entries is, at most twelve bits. */
  function CodeSize(cs: nat, n: nat): nat {
    if Entries(cs, n) >= 4096 then 12 else Digits(Entries(cs, n))
  }

  function CodesBits(cs: nat, codes: seq<nat>, n: nat): seq<bool>
    requires n <= |codes|
    decreases |codes| - n
  {
    if n == |codes| then [] else ToBits(codes[n], CodeSize(cs, n)) + CodesBits(cs, codes, n + 1)
  }

  /** Every segment behind a clear code, and the end code, in the size that is reached. */
  function SegmentsBits(cs: nat, gs: seq<Segment>, size: nat): seq<bool>
    decreases |gs|
  {
    if gs == [] then ToBits(Pow2(cs) + 1, size)
    else ToBits(Pow2(cs), size) + (CodesBits(cs, gs[0].codes, 0) + SegmentsBits(cs, gs[1..], CodeSize(cs, |gs[0].codes|)))
  }

  /** Clear and end are the first two codes behind the colours; the first has one bit more than a colour. */
  function RasterBits(cs: nat, gs: seq<Segment>): seq<bool> {
    SegmentsBits(cs, gs, cs + 1)
  }

  function Joined(ss: seq<seq<byte>>): seq<byte> {
    if ss == [] then [] else ss[0] + Joined(ss[1..])
  }

  function Text(gs: seq<Segment>): seq<byte>
    decreases |gs|
  {
    if gs == [] then [] else Joined(gs[0].phrases) + Text(gs[1..])
  }

  // ----- the decoder's dictionary

  /** What the decoder has after n codes of a segment. */
  function Dictionary(cs: nat, phrases: seq<seq<byte>>, n: nat): (s: seq<seq<byte>>)
    requires n <= |phrases| && NoneEmpty(phrases)
    ensures |s| == Entries(cs, n)
  {
    Roots(cs) + seq(if n == 0 then 0 else n - 1, i requires 0 <= i < n - 1 => phrases[i] + [phrases[i + 1][0]])
  }

  /** The decoder stands before the n-th code of a segment. */
  ghost predicate Before(cs: nat, g: Segment, n: nat, z: Lzw) {
    && Sound(cs, g) && n <= |g.codes| && LzwOk(cs, z) && WidthOk(z) && !z.first
    && z.strs == Dictionary(cs, g.phrases, n)
    && z.prev == if n == 0 then None else Some(g.codes[n - 1])
  }

  lemma SizeIsWidth(cs: nat, n: nat, z: Lzw)
    requires 2 <= cs <= 11 && WidthOk(z) && |z.strs| == Entries(cs, n)
    ensures z.width == CodeSize(cs, n)
  {
    hide Pow2;
    var e := Entries(cs, n);
    if e < 4096 { SameSize(e, z.width, Digits(e)); }
  }

  lemma SameSize(n: nat, a: nat, b: nat)
    requires a > 0 && b > 0 && Pow2(a - 1) <= n < Pow2(a) && Pow2(b - 1) <= n < Pow2(b)
    ensures a == b
  {
    if a < b { Pow2Mono(a, b - 1); } else if b < a { Pow2Mono(b, a - 1); }
  }

  /** What the decoder's dictionary has for a code that it knows. */
  lemma Known(cs: nat, g: Segment, n: nat, m: nat)
    requires cs <= 12 && Sound(cs, g) && m < |g.codes| && m <= n <= |g.codes|
    requires g.codes[m] < Pow2(cs) || g.codes[m] - Pow2(cs) - 2 < n - 1
    ensures g.codes[m] < Entries(cs, n) && Dictionary(cs, g.phrases, n)[g.codes[m]] == g.phrases[m]
  {
    hide Pow2;
    assert Stands(cs, g, m);
  }

  /** One code: the decoder gives out its phrase, and learns the phrase before and the first colour of this one. */
  lemma CodeStep(cs: nat, g: Segment, n: nat, z: Lzw)
    requires 2 <= cs <= 11 && Before(cs, g, n, z) && n < |g.codes|
    ensures StepCode(cs, z, g.codes[n]).Running?
    ensures var y := StepCode(cs, z, g.codes[n]).next; Before(cs, g, n + 1, y) && y.out == z.out + g.phrases[n]
  {
    hide Pow2, Roots, Wider, LzwOk, WidthOk, Stands, Dictionary;
    CodeRuns(cs, g, n, z);
    StepOk(cs, z, g.codes[n]);
    StepWidth(cs, z, g.codes[n]);
  }

  lemma CodeRuns(cs: nat, g: Segment, n: nat, z: Lzw)
    requires 2 <= cs <= 11 && Before(cs, g, n, z) && n < |g.codes|
    ensures StepCode(cs, z, g.codes[n]).Running?
    ensures var y := StepCode(cs, z, g.codes[n]).next;
      && y.out == z.out + g.phrases[n] && !y.first && y.prev == Some(g.codes[n]) && y.strs == Dictionary(cs, g.phrases, n + 1)
  {
    hide Pow2, Roots, Wider, WidthOk;
    var code := g.codes[n];
    assert Stands(cs, g, n);
    if n == 0 {
      Known(cs, g, 0, 0);
      assert Dictionary(cs, g.phrases, 1) == Dictionary(cs, g.phrases, 0);
    } else {
      assert Stands(cs, g, n - 1);
      Known(cs, g, n, n - 1);
      if code < Entries(cs, n) { Known(cs, g, n, n); }
      assert Grown(z, code) == Dictionary(cs, g.phrases, n + 1);
      Known(cs, g, n + 1, n);
    }
  }

  // ----- reading what is written

  /** The stream goes on with these bits at p. */
  ghost predicate GoesOn(s: seq<bool>, p: nat, bits: seq<bool>) {
    p + |bits| <= |s| && s[p..p + |bits|] == bits
  }

  lemma GoesOnSplit(s: seq<bool>, p: nat, a: seq<bool>, b: seq<bool>)
    requires GoesOn(s, p, a + b)
    ensures GoesOn(s, p, a) && GoesOn(s, p + |a|, b)
  {
    assert s[p..p + |a|] == s[p..p + |a + b|][..|a|] && s[p + |a|..p + |a + b|] == s[p..p + |a + b|][|a|..];
    assert (a + b)[..|a|] == a && (a + b)[|a|..] == b;
  }

  lemma NumberThere(s: seq<bool>, p: nat, x: nat, n: nat)
    requires GoesOn(s, p, ToBits(x, n)) && x < Pow2(n)
    ensures p + n <= |s| && Field(s, p, n) == x
  {
    hide ToBits, Window, Pow2;
    WindowInside(s, p, n);
    FromToBits(x, n);
    LowSmall(x, n);
  }

  /** A code in the stream is the next one that is read. */
  lemma ReadCode(cs: nat, s: seq<bool>, p: nat, z: Lzw, code: nat)
    requires cs <= 12 && LzwOk(cs, z) && GoesOn(s, p, ToBits(code, z.width)) && code < Pow2(z.width)
    ensures var r := StepCode(cs, z, code);
      && (r.Ended? ==> Decode(cs, s, p, z) == Some(r.out))
      && (r.Running? ==> LzwOk(cs, r.next) && Decode(cs, s, p, z) == Decode(cs, s, p + z.width, r.next))
  {
    hide StepCode, Field, LzwOk;
    NumberThere(s, p, code, z.width);
    if StepCode(cs, z, code).Running? { StepOk(cs, z, code); }
  }

  /** The code fits. */
  lemma CodeFits(cs: nat, g: Segment, n: nat, z: Lzw)
    requires 2 <= cs <= 11 && Before(cs, g, n, z) && n < |g.codes|
    ensures g.codes[n] < Pow2(z.width)
  {
    hide Pow2, Roots;
    assert Stands(cs, g, n);
    Twelve();
    var i := g.codes[n] - Pow2(cs) - 2;
    assert g.codes[n] < Pow2(cs) || i < n;
  }

  lemma Twelve()
    ensures Pow2(12) == 4096
  {
    PowersTo(1);
  }

  lemma {:induction false} SegmentRead(cs: nat, g: Segment, n: nat, z: Lzw, s: seq<bool>, p: nat) returns (y: Lzw)
    requires 2 <= cs <= 11 && Before(cs, g, n, z) && GoesOn(s, p, CodesBits(cs, g.codes, n))
    ensures Before(cs, g, |g.codes|, y) && y.width == CodeSize(cs, |g.codes|)
    ensures Decode(cs, s, p, z) == Decode(cs, s, p + |CodesBits(cs, g.codes, n)|, y)
    ensures y.out == z.out + Joined(g.phrases[n..])
    decreases |g.codes| - n
  {
    hide Pow2, Roots, StepCode, Sound, LzwOk, WidthOk, Dictionary, Decode, Joined, CodesBits, CodeSize, Entries;
    SizeHere(cs, g, n, z);
    if n == |g.codes| {
      y := z;
      NothingMore(cs, g);
    } else {
      OneMore(cs, g, n);
      GoesOnSplit(s, p, ToBits(g.codes[n], CodeSize(cs, n)), CodesBits(cs, g.codes, n + 1));
      CodeFits(cs, g, n, z);
      CodeStep(cs, g, n, z);
      ReadCode(cs, s, p, z, g.codes[n]);
      y := SegmentRead(cs, g, n + 1, StepCode(cs, z, g.codes[n]).next, s, p + z.width);
      Regroup(z.out, g.phrases[n], Joined(g.phrases[n + 1..]));
    }
  }

  lemma Regroup<T>(a: seq<T>, b: seq<T>, c: seq<T>)
    ensures a + (b + c) == a + b + c
  {
  }

  lemma SizeHere(cs: nat, g: Segment, n: nat, z: Lzw)
    requires 2 <= cs <= 11 && Before(cs, g, n, z)
    ensures z.width == CodeSize(cs, n) && |g.codes| == |g.phrases|
  {
    hide Pow2, Roots, LzwOk, WidthOk, CodeSize, Entries, Stands;
    SizeIsWidth(cs, n, z);
  }

  lemma NothingMore(cs: nat, g: Segment)
    requires |g.codes| == |g.phrases|
    ensures CodesBits(cs, g.codes, |g.codes|) == [] && Joined(g.phrases[|g.codes|..]) == []
  {
  }

  lemma OneMore(cs: nat, g: Segment, n: nat)
    requires n < |g.codes| == |g.phrases|
    ensures CodesBits(cs, g.codes, n) == ToBits(g.codes[n], CodeSize(cs, n)) + CodesBits(cs, g.codes, n + 1)
    ensures Joined(g.phrases[n..]) == g.phrases[n] + Joined(g.phrases[n + 1..])
  {
    hide CodeSize, ToBits;
    assert g.phrases[n..][1..] == g.phrases[n + 1..];
  }

  /** Behind a clear code a segment begins. */
  lemma Cleared(cs: nat, z: Lzw, g: Segment)
    requires 2 <= cs <= 11 && LzwOk(cs, z) && Sound(cs, g)
    ensures StepCode(cs, z, Pow2(cs)).Running?
    ensures var y := StepCode(cs, z, Pow2(cs)).next; Before(cs, g, 0, y) && y.out == z.out
  {
    hide Pow2, Stands;
    StepOk(cs, z, Pow2(cs));
    InitialWidth(cs);
    assert Dictionary(cs, g.phrases, 0) == Roots(cs);
  }

  /** Clear and end fit into any size that is reached. */
  lemma ControlFits(cs: nat, z: Lzw)
    requires 2 <= cs <= 11 && LzwOk(cs, z) && WidthOk(z)
    ensures Pow2(cs) + 1 < Pow2(z.width)
  {
    hide Pow2;
    InitialWidth(cs);
    Twelve();
  }

  /** Segments, and the end: the decoder gives out the phrases of all of them. */
  lemma {:induction false} SegmentsRead(cs: nat, gs: seq<Segment>, z: Lzw, s: seq<bool>, p: nat)
    requires 2 <= cs <= 11 && (forall i :: 0 <= i < |gs| ==> Sound(cs, gs[i])) && LzwOk(cs, z) && WidthOk(z)
    requires GoesOn(s, p, SegmentsBits(cs, gs, z.width))
    ensures Decode(cs, s, p, z) == Some(z.out + Text(gs))
    decreases |gs|
  {
    hide Pow2, StepCode, Sound, LzwOk, WidthOk, Decode, CodesBits, CodeSize, ToBits, Before, Joined;
    ControlFits(cs, z);
    if gs == [] {
      Ending(cs, z);
      ReadCode(cs, s, p, z, Pow2(cs) + 1);
      assert z.out + [] == z.out;
    } else {
      var g, rest := gs[0], gs[1..];
      var size := CodeSize(cs, |g.codes|);
      GoesOnSplit(s, p, ToBits(Pow2(cs), z.width), CodesBits(cs, g.codes, 0) + SegmentsBits(cs, rest, size));
      GoesOnSplit(s, p + z.width, CodesBits(cs, g.codes, 0), SegmentsBits(cs, rest, size));
      Cleared(cs, z, g);
      ReadCode(cs, s, p, z, Pow2(cs));
      var y := SegmentRead(cs, g, 0, StepCode(cs, z, Pow2(cs)).next, s, p + z.width);
      BeforeOk(cs, g, |g.codes|, y);
      assert g.phrases[0..] == g.phrases;
      SegmentsRead(cs, rest, y, s, p + z.width + |CodesBits(cs, g.codes, 0)|);
      Regroup(z.out, Joined(g.phrases), Text(rest));
    }
  }

  lemma Ending(cs: nat, z: Lzw)
    requires LzwOk(cs, z)
    ensures StepCode(cs, z, Pow2(cs) + 1) == Ended(z.out)
  {
  }

  lemma BeforeOk(cs: nat, g: Segment, n: nat, z: Lzw)
    requires Before(cs, g, n, z)
    ensures LzwOk(cs, z) && WidthOk(z)
  {
  }

  // ----- sub-blocks

  /** Sub-blocks of up to 255 bytes behind their sizes, and an empty one. */
  function Blocks(parts: seq<seq<byte>>): seq<byte>
    requires forall i :: 0 <= i < |parts| ==> 0 < |parts[i]| < 256
  {
    if parts == [] then [0] else [|parts[0]|] + parts[0] + Blocks(parts[1..])
  }

  lemma {:induction false} BlocksRead(front: seq<byte>, parts: seq<seq<byte>>, rest: seq<byte>)
    requires forall i :: 0 <= i < |parts| ==> 0 < |parts[i]| < 256
    ensures Payload(front + Blocks(parts) + rest, |front|) == Joined(parts)
    decreases |parts|
  {
    var data := front + Blocks(parts) + rest;
    if parts != [] {
      var n, part := |parts[0]|, parts[0];
      var b := front + [n] + part;
      assert data == b + Blocks(parts[1..]) + rest;
      BlocksRead(b, parts[1..], rest);
      assert Bytes(data, |front| + 1, n) == part;
    }
  }

  /** What is written is read back: a raster, wherever it stands, of the bytes that have the bits of any sound
      segments in front gives their phrases in turn. */
  lemma RasterRead(cs: nat, gs: seq<Segment>, front: seq<byte>, parts: seq<seq<byte>>, rest: seq<byte>)
    requires 2 <= cs <= 11 && forall i :: 0 <= i < |gs| ==> Sound(cs, gs[i])
    requires forall i :: 0 <= i < |parts| ==> 0 < |parts[i]| < 256
    requires GoesOn(ByteBits(Joined(parts)), 0, RasterBits(cs, gs))
    ensures Raster(front + [cs] + Blocks(parts) + rest, |front|) == Some(Text(gs))
  {
    hide Pow2, Decode, Sound, SegmentsBits, Blocks, Payload, ByteBits, LzwOk, WidthOk, Text;
    BlocksRead(front + [cs], parts, rest);
    InitialOk(cs);
    InitialWidth(cs);
    SegmentsRead(cs, gs, Initial(cs), ByteBits(Joined(parts)), 0);
    assert [] + Text(gs) == Text(gs);
  }

  // ----- a writer

  /** Every colour as its own code, a clear code before each: not short, but there for all colours. */
  function Plain(colours: seq<byte>): seq<Segment> {
    if colours == [] then [] else [Segment([colours[0]], [[colours[0]]])] + Plain(colours[1..])
  }

  lemma {:induction false} PlainSound(cs: nat, colours: seq<byte>)
    requires 2 <= cs <= 8 && forall i :: 0 <= i < |colours| ==> colours[i] as int < Pow2(cs)
    ensures forall i :: 0 <= i < |Plain(colours)| ==> Sound(cs, Plain(colours)[i])
    ensures Text(Plain(colours)) == colours
    decreases |colours|
  {
    hide Pow2;
    Pow2Mono(cs, 8);
    Pow2Values();
    if colours != [] {
      PlainSound(cs, colours[1..]);
      var c: nat := colours[0];
      assert Joined([[colours[0]]]) == [colours[0]];
    }
  }
}
