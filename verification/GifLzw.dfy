/** The LZW code of Appendix F of GIF89a with a dictionary of strings, and the decoder that keeps the
    strings as chains of prefixes. */
module GifLzw {
  import opened Bits
  import opened Words
  import opened Wrappers

  const MAX_CODES := 8192

  // ----- decoding with a dictionary of strings

  /** Code width, dictionary, previous code (none after a clear code), whether a clear code is still
      awaited, and the colour indices so far. */
  datatype Lzw = Lzw(width: nat, strs: seq<seq<byte>>, prev: Option<nat>, first: bool, out: seq<byte>)

  datatype Outcome = Running(next: Lzw) | Ended(out: seq<byte>) | Failed

  function ClearCode(cs: nat): nat {
    Pow2(cs)
  }

  /** One string for every colour, and two codes that stand for none. */
  function Roots(cs: nat): (s: seq<seq<byte>>)
    ensures |s| == ClearCode(cs) + 2
  {
    seq(ClearCode(cs) + 2, i => [i % 0x100])
  }

  function Initial(cs: nat): Lzw {
    Lzw(cs + 1, Roots(cs), None, true, [])
  }

  ghost predicate LzwOk(cs: nat, z: Lzw) {
    && 1 <= z.width <= 13 && ClearCode(cs) + 2 <= |z.strs| <= MAX_CODES
    && (forall c :: 0 <= c < |z.strs| ==> |z.strs[c]| > 0)
    && (z.prev.Some? ==> z.prev.value < |z.strs| && IsString(cs, z.prev.value))
  }

  predicate IsString(cs: nat, code: nat) {
    code != ClearCode(cs) && code != ClearCode(cs) + 1
  }

  /** The dictionary grows by the previous string and the first colour of this one; a code may stand
      for the very string that it adds. */
  function Grown(z: Lzw, code: nat): seq<seq<byte>>
    requires z.prev.Some? && z.prev.value < |z.strs| && code <= |z.strs|
    requires |z.strs[z.prev.value]| > 0 && (code < |z.strs| ==> |z.strs[code]| > 0)
  {
    var before := z.strs[z.prev.value];
    z.strs + [before + [if code == |z.strs| then before[0] else z.strs[code][0]]]
  }

  function Wider(width: nat, avail: nat): nat {
    if avail % Pow2(width) == 0 && avail <= 0xFFF then width + 1 else width
  }

  ghost function StepCode(cs: nat, z: Lzw, code: nat): Outcome
    requires LzwOk(cs, z)
  {
    if code == ClearCode(cs) then Running(Lzw(cs + 1, Roots(cs), None, false, z.out))
    else if code == ClearCode(cs) + 1 then Ended(z.out)
    else if code > |z.strs| || z.first then Failed
    else if z.prev.None? then
      if code == |z.strs| then Failed
      else Running(Lzw(Wider(z.width, |z.strs|), z.strs, Some(code), false, z.out + z.strs[code]))
    else if |z.strs| >= MAX_CODES then Failed
    else
      var strs := Grown(z, code);
      Running(Lzw(Wider(z.width, |strs|), strs, Some(code), false, z.out + strs[code]))
  }

  lemma StepOk(cs: nat, z: Lzw, code: nat)
    requires cs <= 12 && LzwOk(cs, z) && StepCode(cs, z, code).Running?
    ensures LzwOk(cs, StepCode(cs, z, code).next)
  {
    hide Pow2;
    ClearBound(cs);
    if code != ClearCode(cs) {
      var n := if z.prev.None? then |z.strs| else |z.strs| + 1;
      WiderBound(z.width, n);
      if z.prev.Some? {
        var strs := Grown(z, code);
        forall c | 0 <= c < |strs| ensures |strs[c]| > 0 {}
      }
    }
  }

  lemma ClearBound(cs: nat)
    requires cs <= 12
    ensures 1 <= Pow2(cs) <= 4096
  {
    Pow2Mono(cs, 12);
    assert Pow2(6) == 64;
    assert Pow2(12) == 4096;
  }

  lemma WiderBound(width: nat, avail: nat)
    requires 1 <= width <= 13 && avail >= 1
    ensures Pow2(width) > 0 && 1 <= Wider(width, avail) <= 13
  {
    if width == 13 && avail <= 0xFFF {
      assert Pow2(6) == 64;
      assert Pow2(12) == 4096;
      assert Pow2(13) == 8192;
    }
  }

  /** Reads codes as long as there are bits for one. */
  ghost function Decode(cs: nat, bits: seq<bool>, p: nat, z: Lzw): Option<seq<byte>>
    requires cs <= 12 && LzwOk(cs, z)
    decreases |bits| - p
  {
    if p + z.width > |bits| then Some(z.out)
    else
      match StepCode(cs, z, Field(bits, p, z.width))
      case Ended(out) => Some(out)
      case Failed => None
      case Running(next) =>
        StepOk(cs, z, Field(bits, p, z.width));
        Decode(cs, bits, p + z.width, next)
  }

  // ----- the data, in sub-blocks

  /** n bytes, zeros past the end. */
  function Bytes(data: seq<byte>, pos: nat, n: nat): (s: seq<byte>)
    ensures |s| == n
  {
    seq(n, i requires 0 <= i < n => if pos + i < |data| then data[pos + i] else 0)
  }

  /** The bytes of the sub-blocks from pos on. */
  function Payload(data: seq<byte>, pos: nat): seq<byte>
    decreases |data| - pos
  {
    if pos >= |data| || data[pos] == 0 then []
    else Bytes(data, pos + 1, data[pos]) + Payload(data, pos + 1 + data[pos])
  }

  /** The pixels of a raster: none if the data is corrupt. */
  ghost function Raster(data: seq<byte>, pos: nat): Option<seq<byte>> {
    var cs := if pos < |data| then data[pos] else 0;
    if cs > 12 then None
    else
      InitialOk(cs);
      Decode(cs, ByteBits(Payload(data, pos + 1)), 0, Initial(cs))
  }

  lemma InitialOk(cs: nat)
    requires cs <= 12
    ensures LzwOk(cs, Initial(cs))
  {
    ClearBound(cs);
  }
}
