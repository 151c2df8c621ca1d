/** The LZB16 decoder: literal runs and matches with three ways to write an offset. */
module Lzb16 {
  import opened Bits
  import opened Lz77
  import opened CopyKernels
  import opened Wrappers

  const MML := 4
  const ESCAPE := 15

  /** A length of one byte, or of two from 192 on. */
  function Excess(comp: seq<byte>, cp: nat): (r: Option<(nat, nat)>)
    ensures r.Some? ==> cp < r.value.1 <= |comp|
  {
    if cp >= |comp| then None
    else if comp[cp] < 192 then Some((comp[cp], cp + 1))
    else if cp + 1 >= |comp| then None
    else
      var hi: nat, lo: nat := comp[cp] - 192, comp[cp + 1];
      Some((hi * 0x100 + lo, cp + 2))
  }

  function Offset16(comp: seq<byte>, cp: nat): (r: Option<(nat, nat)>)
    ensures r.Some? ==> cp < r.value.1 <= |comp|
  {
    if cp + 2 > |comp| then None
    else
      var lo: nat, hi: nat := comp[cp], comp[cp + 1];
      Some((lo + 0x100 * hi, cp + 2))
  }

  /** Length and offset of the match of a command. */
  datatype MatchCode = MatchCode(len: nat, off: nat, cp: nat)

  function ReadMatch(comp: seq<byte>, cp: nat, control: nat): (r: Option<MatchCode>)
    requires control <= ESCAPE
    ensures r.Some? ==> cp < r.value.cp <= |comp|
  {
    if control < ESCAPE then
      match Offset16(comp, cp)
      case None => None
      case Some((off, cp1)) => Some(MatchCode(control + MML, off, cp1))
    else if cp >= |comp| then None
    else
      var e := comp[cp];
      if e >= 128 then
        var small := e / 8 % 16;
        if small != 0xF then Some(MatchCode(small + MML, e % 8, cp + 1))
        else
          match Excess(comp, cp + 1)
          case None => None
          case Some((more, cp1)) => Some(MatchCode(small + MML + more, e % 8, cp1))
      else
        match Offset16(comp, cp + 1)
        case None => None
        case Some((off, cp1)) =>
          if e % 128 != 127 then Some(MatchCode(ESCAPE + MML + e % 128, off, cp1))
          else
            match Excess(comp, cp1)
            case None => None
            case Some((more, cp2)) => Some(MatchCode(ESCAPE + MML + 127 + more, off, cp2))
  }

  function ReadLiterals(comp: seq<byte>, cp: nat, small: nat): (r: Option<(nat, nat)>)
    requires small <= ESCAPE && cp <= |comp|
    ensures r.Some? ==> cp <= r.value.1 <= |comp|
  {
    if small < ESCAPE then Some((small, cp))
    else
      match Excess(comp, cp)
      case None => None
      case Some((more, cp1)) => Some((small + more, cp1))
  }

  /** How far back an offset may reach: the decoder casts the distance to 32 bits, the format does not. */
  function Reach(n: nat, cast: bool): (r: nat)
    ensures r <= n
  {
    if cast then n % 0x1_0000_0000 else n
  }

  /** What one command does: nothing good, the last bytes, or some bytes and on to the next. */
  datatype Outcome = Bad | Last(out: seq<byte>) | Next(out: seq<byte>, cp: nat)

  function Command(comp: seq<byte>, cp: nat, out: seq<byte>, base: nat, end: nat, cast: bool): (r: Outcome)
    requires cp < |comp| && base <= |out|
    ensures r.Next? ==> |out| <= |r.out| && cp < r.cp <= |comp|
  {
    match ReadLiterals(comp, cp + 1, comp[cp] % 16)
    case None => Bad
    case Some((n, cp1)) =>
      // a run may be longer than there is room for
      var lrl: nat := if n > end - |out| then (if end > |out| then end - |out| else 0) else n;
      if cp1 + lrl > |comp| then Bad
      else
        var out1 := out + comp[cp1..cp1 + lrl];
        if lrl > 0 && |out1| >= end then Last(out1)
        else
          match ReadMatch(comp, cp1 + lrl, comp[cp] / 16)
          case None => Bad
          case Some(m) =>
            if m.off == 0 || m.off > Reach(|out1| - base, cast) || |out1| + m.len > end then Bad
            else Next(CopyBack(out1, m.off, m.len), m.cp)
  }

  /** What the commands from cp on make of the window out, which is to be filled up to end; offsets
      reach back to base. */
  function Replay(comp: seq<byte>, cp: nat, out: seq<byte>, base: nat, end: nat, cast: bool): (r: Option<seq<byte>>)
    requires base <= |out|
    decreases |comp| - cp
  {
    if |out| >= end then Some(out)
    else if cp >= |comp| then None
    else
      match Command(comp, cp, out, base, end, cast)
      case Bad => None
      case Last(out1) => Some(out1)
      case Next(out1, cp1) => Replay(comp, cp1, out1, base, end, cast)
  }

  lemma CommandAppends(comp: seq<byte>, cp: nat, out: seq<byte>, base: nat, end: nat, cast: bool)
    requires cp < |comp| && base <= |out| < end
    ensures var c := Command(comp, cp, out, base, end, cast);
      && (c.Last? ==> |c.out| == end && out <= c.out)
      && (c.Next? ==> |out| < |c.out| <= end && out <= c.out)
  {
    hide Excess, CopyBack;
  }

  /** Replay only appends, and never beyond the end. */
  lemma {:induction false} ReplayFills(comp: seq<byte>, cp: nat, out: seq<byte>, base: nat, end: nat, cast: bool)
    requires base <= |out| <= end && Replay(comp, cp, out, base, end, cast).Some?
    ensures var r := Replay(comp, cp, out, base, end, cast).value; |r| == end && out <= r
    decreases |comp| - cp
  {
    hide Command;
    if |out| < end {
      CommandAppends(comp, cp, out, base, end, cast);
      match Command(comp, cp, out, base, end, cast) {
        case Last(_) =>
        case Next(out1, cp1) => ReplayFills(comp, cp1, out1, base, end, cast);
      }
    }
  }

  // ----- the cast

  /** What the decoder accepts is what the format says, however large the window. */
  lemma {:induction false} CastIsSafe(comp: seq<byte>, cp: nat, out: seq<byte>, base: nat, end: nat)
    requires base <= |out| && Replay(comp, cp, out, base, end, true).Some?
    ensures Replay(comp, cp, out, base, end, false) == Replay(comp, cp, out, base, end, true)
    decreases |comp| - cp
  {
    hide Command;
    if |out| < end {
      SameCommand(comp, cp, out, base, end);
      match Command(comp, cp, out, base, end, true) {
        case Last(_) =>
        case Next(out1, cp1) => CastIsSafe(comp, cp1, out1, base, end);
      }
    }
  }

  lemma SameCommand(comp: seq<byte>, cp: nat, out: seq<byte>, base: nat, end: nat)
    requires cp < |comp| && base <= |out| < end
    ensures !Command(comp, cp, out, base, end, true).Bad? || end - base <= 0x1_0000_0000 ==>
      Command(comp, cp, out, base, end, false) == Command(comp, cp, out, base, end, true)
  {
    hide ReadLiterals, ReadMatch, CopyBack;
  }

  /** And it accepts all of it in windows of up to 4 GiB. */
  lemma {:induction false} CastIsExact(comp: seq<byte>, cp: nat, out: seq<byte>, base: nat, end: nat)
    requires base <= |out| && end - base <= 0x1_0000_0000
    ensures Replay(comp, cp, out, base, end, false) == Replay(comp, cp, out, base, end, true)
    decreases |comp| - cp
  {
    hide Command;
    if |out| < end && cp < |comp| {
      SameCommand(comp, cp, out, base, end);
      match Command(comp, cp, out, base, end, true) {
        case Bad =>
        case Last(_) =>
        case Next(out1, cp1) => CastIsExact(comp, cp1, out1, base, end);
      }
    }
  }

  /** In a larger one it may refuse what the format allows: after 4 GiB not even the byte before. */
  lemma CastRefuses(out: seq<byte>)
    requires |out| == 0x1_0000_0000
    ensures Replay([0, 1, 0], 0, out, 0, |out| + 4, false) == Some(CopyBack(out, 1, 4))
    ensures Replay([0, 1, 0], 0, out, 0, |out| + 4, true) == None
  {
    hide CopyBack;
    var comp: seq<byte> := [0, 1, 0];
    assert ReadMatch(comp, 1, 0) == Some(MatchCode(4, 1, 3));
    assert out + comp[1..1] == out;
    assert Command(comp, 0, out, 0, |out| + 4, false) == Next(CopyBack(out, 1, 4), 3);
  }

  // ----- the decoder

  method ReadExcess(comp: array<byte>, cp0: nat) returns (ok: bool, n: nat, cp: nat)
    ensures ok <==> Excess(comp[..], cp0).Some?
    ensures ok ==> Excess(comp[..], cp0) == Some((n, cp))
  {
    n, cp := 0, cp0;
    if cp >= comp.Length { return false, n, cp; }
    var b := comp[cp];
    cp := cp + 1;
    if b < 192 {
      n := b;
    } else {
      if cp >= comp.Length { return false, n, cp; }
      n := (b as nat - 192) * 0x100 + comp[cp] as nat;
      cp := cp + 1;
    }
    ok := true;
  }

  method ReadOffset(comp: array<byte>, cp: nat) returns (ok: bool, off: nat)
    ensures ok <==> Offset16(comp[..], cp).Some?
    ensures ok ==> Offset16(comp[..], cp) == Some((off, cp + 2))
  {
    if cp + 2 > comp.Length { return false, 0; }
    off := comp[cp] as nat + 0x100 * comp[cp + 1] as nat;
    ok := true;
  }

  /** The three forms of a match. */
  method ReadMatchCode(comp: array<byte>, cp0: nat, mlControl: nat, avail: nat) returns (ok: bool, ml: nat, off: nat, cp: nat)
    requires mlControl <= ESCAPE
    ensures ok <==> var m := ReadMatch(comp[..], cp0, mlControl); m.Some? && 0 < m.value.off <= avail
    ensures ok ==> ReadMatch(comp[..], cp0, mlControl) == Some(MatchCode(ml, off, cp))
  {
    ml, off, cp := 0, 0, cp0;
    if mlControl < ESCAPE {
      ok, off := ReadOffset(comp, cp);
      if !ok || off == 0 || off > avail { return false, ml, off, cp; }
      ml, cp := mlControl + MML, cp + 2;
    } else {
      if cp >= comp.Length { return false, ml, off, cp; }
      var e := comp[cp];
      cp := cp + 1;
      if e >= 128 {
        ml := e / 8 % 16 + MML;
        if e / 8 % 16 == 0xF {
          var more;
          ok, more, cp := ReadExcess(comp, cp);
          if !ok { return; }
          ml := ml + more;
        }
        off := e % 8;
        if off == 0 || off > avail { return false, ml, off, cp; }
      } else {
        ok, off := ReadOffset(comp, cp);
        if !ok || off == 0 || off > avail { return false, ml, off, cp; }
        cp := cp + 2;
        ml := mlControl + MML + e % 128;
        if e % 128 == 127 {
          var more;
          ok, more, cp := ReadExcess(comp, cp);
          if !ok { return; }
          ml := ml + more;
        }
      }
    }
    ok := true;
  }

  /** One command, at cp0, with the window filled up to rp0. */
  method DecodeCommand(buf: array<byte>, rp0: nat, end: nat, comp: array<byte>, cp0: nat, base: nat, sse2: bool)
      returns (ok: bool, rp: nat, cp: nat)
    requires buf != comp && base <= rp0 < end <= buf.Length && cp0 < comp.Length
    modifies buf
    ensures var c := Command(comp[..], cp0, old(buf[..rp0]), base, end, true);
      && (ok <==> !c.Bad?)
      && (ok ==> rp0 <= rp <= end && buf[..rp] == c.out && (c.Last? ==> rp == end) && (c.Next? ==> cp == c.cp))
    ensures Outside(old(buf[..]), buf[..], rp0, end)
  {
    hide ReadMatch, ReadLiterals, CopyBack, Outside, Reach;
    NothingWritten(buf[..], rp0, end);
    NothingWritten(buf[..], rp0, rp0);
    rp, cp := rp0, cp0;
    var control := comp[cp];
    var lrl;
    ok, lrl, cp := ReadRun(comp, cp + 1, control % 16);
    if !ok { return; }
    if lrl > 0 {
      if lrl > end - rp { lrl := end - rp; }
      if cp + lrl > comp.Length { return false, rp, cp; }
    }
    CopyRun(buf, rp, comp, cp, lrl);
    OutsideTwice(old(buf[..]), old(buf[..]), buf[..], rp0, rp0, rp + lrl, end);
    rp, cp := rp + lrl, cp + lrl;
    if rp >= end { return true, rp, cp; }
    ghost var mid := buf[..];
    var ml, off;
    ok, ml, off, cp := ReadMatchCode(comp, cp, control / 16, Reach(rp - base, true));
    if !ok { return; }
    if rp + ml > end { return false, rp, cp; }
    CopyMatch(buf, rp, ml, off, sse2);
    OutsideTwice(old(buf[..]), mid, buf[..], rp0, rp, rp + ml, end);
    rp := rp + ml;
  }

  method ReadRun(comp: array<byte>, cp0: nat, small: nat) returns (ok: bool, lrl: nat, cp: nat)
    requires small <= ESCAPE && cp0 <= comp.Length
    ensures ok <==> ReadLiterals(comp[..], cp0, small).Some?
    ensures ok ==> ReadLiterals(comp[..], cp0, small) == Some((lrl, cp))
  {
    hide Excess;
    ok, lrl, cp := true, small, cp0;
    if lrl >= ESCAPE {
      var more;
      ok, more, cp := ReadExcess(comp, cp);
      if !ok { return; }
      lrl := lrl + more;
    }
  }

  method CopyRun(buf: array<byte>, rp: nat, comp: array<byte>, cp: nat, n: nat)
    requires buf != comp && rp + n <= buf.Length && cp + n <= comp.Length
    modifies buf
    ensures buf[..rp + n] == old(buf[..rp]) + comp[..][cp..cp + n]
    ensures Outside(old(buf[..]), buf[..], rp, rp + n)
  {
    if n > 0 { CopyBytes(buf, rp, comp, cp, n); }
  }

  lemma NothingWritten(a: seq<byte>, d: nat, e: nat)
    ensures Outside(a, a, d, e)
  {
  }

  lemma OutsideTwice(a: seq<byte>, b: seq<byte>, c: seq<byte>, d: nat, m: nat, n: nat, e: nat)
    requires d <= m <= n <= e && Outside(a, b, d, m) && Outside(b, c, m, n)
    ensures Outside(a, c, d, e)
  {
  }

  /** Decodes into buf from decPtr up to decPtrEnd. It gives up exactly when the commands, with the cast,
      do not stand for that many bytes; otherwise these are what the commands stand for, and nothing else is written. */
  method DecodeOneQuantum(buf: array<byte>, decPtr: nat, decPtrEnd: nat, comp: array<byte>, dictionaryBase: nat, sse2: bool)
      returns (r: int)
    requires buf != comp && dictionaryBase <= decPtr <= decPtrEnd <= buf.Length
    modifies buf
    ensures r == -1 || r == decPtrEnd - decPtr
    ensures r == -1 <==> Replay(comp[..], 0, old(buf[..decPtr]), dictionaryBase, decPtrEnd, true).None?
    ensures r != -1 ==> Replay(comp[..], 0, old(buf[..decPtr]), dictionaryBase, decPtrEnd, true) == Some(buf[..decPtrEnd])
    ensures Outside(old(buf[..]), buf[..], decPtr, decPtrEnd)
  {
    hide Command;
    var rp, cp: nat := decPtr, 0;
    ghost var want := Replay(comp[..], 0, old(buf[..decPtr]), dictionaryBase, decPtrEnd, true);
    while rp < decPtrEnd
      invariant decPtr <= rp <= decPtrEnd && cp <= comp.Length
      invariant Replay(comp[..], cp, buf[..rp], dictionaryBase, decPtrEnd, true) == want
      invariant Outside(old(buf[..]), buf[..], decPtr, decPtrEnd)
      decreases comp.Length - cp
    {
      if cp >= comp.Length { return -1; }
      ghost var c := Command(comp[..], cp, buf[..rp], dictionaryBase, decPtrEnd, true);
      var ok, cp1;
      ok, rp, cp1 := DecodeCommand(buf, rp, decPtrEnd, comp, cp, dictionaryBase, sse2);
      if !ok { return -1; }
      if rp >= decPtrEnd {
        assert c.Next? ==> want == Some(buf[..rp]);
        break;
      }
      cp := cp1;
    }
    r := rp - decPtr;
  }
}
