/** Writing LZB16: commands in any of the forms that the format has, read back as what they were written for. */
module Lzb16Encode {
  import opened Bits
  import opened Lz77
  import opened Lzb16
  import opened Wrappers

  /** The part of a length that does not fit into a command: none, one byte, or two. */
  datatype Extra = No | One(n: nat) | Two(n: nat)

  predicate ExtraOk(x: Extra) {
    (x.One? ==> x.n < 192) && (x.Two? ==> x.n < 0x4000)
  }

  function Plus(x: Extra): nat {
    if x.No? then 0 else x.n
  }

  /** The high byte of two comes first, from 192 on. */
  function ExtraBytes(x: Extra): seq<int> {
    match x case No => [] case One(n) => [n] case Two(n) => [192 + n / 0x100, n % 0x100]
  }

  /** A match is written short, or with an offset below eight, or for a long match. */
  datatype Form = Short | Near(more: Extra) | Far(more: Extra)

  /** Literals, and a match behind them. */
  datatype Token = Token(lits: seq<byte>, more: Extra, len: nat, off: nat, form: Form)

  /** Four bits say how many literals there are, up to 14. */
  predicate RunOk(n: nat, more: Extra) {
    ExtraOk(more) && if more.No? then n < 15 else n == 15 + Plus(more)
  }

  function RunBits(n: nat, more: Extra): nat {
    if more.No? then n else 15
  }

  /** A short match has 4 to 18 bytes, a near one too, or 19 and more; a far one has 19 to 145, or 146 and more. */
  predicate FormOk(len: nat, off: nat, form: Form) {
    match form
    case Short => 4 <= len < 19 && off < 0x10000
    case Near(more) => ExtraOk(more) && off < 8 && if more.No? then 4 <= len < 19 else len == 19 + Plus(more)
    case Far(more) => ExtraOk(more) && off < 0x10000 && if more.No? then 19 <= len < 146 else len == 146 + Plus(more)
  }

  function FormBits(len: int, form: Form): int {
    if form.Short? then len - 4 else 15
  }

  function FormBytes(len: int, off: nat, form: Form): seq<int> {
    match form
    case Short => [off % 0x100, off / 0x100]
    case Near(more) => [128 + 8 * (if more.No? then len - 4 else 15) + off] + ExtraBytes(more)
    case Far(more) => [if more.No? then len - 19 else 127, off % 0x100, off / 0x100] + ExtraBytes(more)
  }

  predicate TokenOk(t: Token) {
    RunOk(|t.lits|, t.more) && FormOk(t.len, t.off, t.form)
  }

  function TokenBytes(t: Token): seq<int> {
    [16 * FormBits(t.len, t.form) + RunBits(|t.lits|, t.more)] + (ExtraBytes(t.more) + (t.lits + FormBytes(t.len, t.off, t.form)))
  }

  /** The match begins inside the window and does not go beyond the end. */
  predicate Fits(out: seq<byte>, t: Token, base: nat, end: nat) {
    TokenOk(t) && 1 <= t.off && base + t.off <= |out| + |t.lits| && |out| + |t.lits| + t.len <= end
  }

  function With(out: seq<byte>, t: Token): (r: seq<byte>)
    requires 1 <= t.off <= |out| + |t.lits|
    ensures |r| == |out| + |t.lits| + t.len
  {
    CopyBack(out + t.lits, t.off, t.len)
  }

  // ----- one length

  /** The data go on with these bytes. */
  ghost predicate GoesOn(comp: seq<byte>, cp: nat, b: seq<int>) {
    cp + |b| <= |comp| && comp[cp..cp + |b|] == b
  }

  lemma GoesOnSplit(comp: seq<byte>, cp: nat, a: seq<int>, b: seq<int>)
    ensures GoesOn(comp, cp, a + b) <==> GoesOn(comp, cp, a) && GoesOn(comp, cp + |a|, b)
  {
    if cp + |a| + |b| <= |comp| {
      var all := comp[cp..cp + |a + b|];
      assert all == comp[cp..cp + |a|] + comp[cp + |a|..cp + |a| + |b|];
      assert all[..|a|] == comp[cp..cp + |a|] && all[|a|..] == comp[cp + |a|..cp + |a| + |b|];
      assert (a + b)[..|a|] == a && (a + b)[|a|..] == b;
    }
  }

  lemma ByteThere(comp: seq<byte>, cp: nat, b: int)
    ensures GoesOn(comp, cp, [b]) <==> cp < |comp| && comp[cp] == b
  {
    if cp < |comp| { assert comp[cp..cp + 1] == [comp[cp]]; }
  }

  lemma TwoThere(comp: seq<byte>, cp: nat, a: int, b: int)
    ensures GoesOn(comp, cp, [a, b]) <==> cp + 1 < |comp| && comp[cp] == a && comp[cp + 1] == b
  {
    if cp + 1 < |comp| { assert comp[cp..cp + 2] == [comp[cp], comp[cp + 1]]; }
  }

  lemma ExtraRead(comp: seq<byte>, cp: nat, x: Extra)
    requires ExtraOk(x) && !x.No? && GoesOn(comp, cp, ExtraBytes(x))
    ensures Excess(comp, cp) == Some((Plus(x), cp + |ExtraBytes(x)|))
  {
    if x.One? { ByteThere(comp, cp, x.n); } else { TwoThere(comp, cp, 192 + x.n / 0x100, x.n % 0x100); }
  }

  /** Nothing else is read as an excess. */
  lemma ExtraThere(comp: seq<byte>, cp: nat) returns (x: Extra)
    requires Excess(comp, cp).Some?
    ensures ExtraOk(x) && !x.No? && GoesOn(comp, cp, ExtraBytes(x)) && Excess(comp, cp) == Some((Plus(x), cp + |ExtraBytes(x)|))
  {
    var n: nat := Excess(comp, cp).value.0;
    if comp[cp] < 192 {
      x := One(n);
      ByteThere(comp, cp, n);
    } else {
      x := Two(n);
      var hi: nat, lo: nat := comp[cp] - 192, comp[cp + 1];
      DivModUnique(n, 0x100, hi, lo);
      TwoThere(comp, cp, 192 + n / 0x100, n % 0x100);
    }
  }

  lemma OffsetRead(comp: seq<byte>, cp: nat, off: nat)
    requires off < 0x10000 && GoesOn(comp, cp, [off % 0x100, off / 0x100])
    ensures Offset16(comp, cp) == Some((off, cp + 2))
  {
    TwoThere(comp, cp, off % 0x100, off / 0x100);
  }

  lemma OffsetThere(comp: seq<byte>, cp: nat)
    requires Offset16(comp, cp).Some?
    ensures var off := Offset16(comp, cp).value.0;
      off < 0x10000 && GoesOn(comp, cp, [off % 0x100, off / 0x100]) && Offset16(comp, cp).value.1 == cp + 2
  {
    var lo: nat, hi: nat := comp[cp], comp[cp + 1];
    DivModUnique(lo + 0x100 * hi, 0x100, hi, lo);
    TwoThere(comp, cp, lo, hi);
  }

  // ----- literals and matches

  lemma RunRead(comp: seq<byte>, cp: nat, n: nat, more: Extra)
    requires RunOk(n, more) && GoesOn(comp, cp, ExtraBytes(more)) && cp <= |comp|
    ensures ReadLiterals(comp, cp, RunBits(n, more)) == Some((n, cp + |ExtraBytes(more)|))
  {
    hide Excess;
    if !more.No? { ExtraRead(comp, cp, more); }
  }

  lemma RunThere(comp: seq<byte>, cp: nat, small: nat) returns (more: Extra)
    requires small <= 15 && cp <= |comp| && ReadLiterals(comp, cp, small).Some?
    ensures var n := ReadLiterals(comp, cp, small).value.0;
      RunOk(n, more) && RunBits(n, more) == small && GoesOn(comp, cp, ExtraBytes(more))
  {
    hide Excess;
    more := No;
    if small == 15 { more := ExtraThere(comp, cp); }
  }

  lemma MatchRead(comp: seq<byte>, cp: nat, len: nat, off: nat, form: Form)
    requires FormOk(len, off, form) && GoesOn(comp, cp, FormBytes(len, off, form))
    ensures ReadMatch(comp, cp, FormBits(len, form)) == Some(MatchCode(len, off, cp + |FormBytes(len, off, form)|))
  {
    hide Excess, Offset16;
    match form {
      case Short => OffsetRead(comp, cp, off);
      case Near(more) => NearRead(comp, cp, len, off, more);
      case Far(more) => FarRead(comp, cp, len, off, more);
    }
  }

  lemma NearRead(comp: seq<byte>, cp: nat, len: nat, off: nat, more: Extra)
    requires FormOk(len, off, Near(more)) && GoesOn(comp, cp, FormBytes(len, off, Near(more)))
    ensures ReadMatch(comp, cp, 15) == Some(MatchCode(len, off, cp + |FormBytes(len, off, Near(more))|))
  {
    hide Excess, Offset16, GoesOn;
    var small := if more.No? then len - 4 else 15;
    var e := 128 + 8 * small + off;
    GoesOnSplit(comp, cp, [e], ExtraBytes(more));
    ByteThere(comp, cp, e);
    DivModUnique(e, 8, 16 + small, off);
    if !more.No? { ExtraRead(comp, cp + 1, more); }
  }

  lemma FarRead(comp: seq<byte>, cp: nat, len: nat, off: nat, more: Extra)
    requires FormOk(len, off, Far(more)) && GoesOn(comp, cp, FormBytes(len, off, Far(more)))
    ensures ReadMatch(comp, cp, 15) == Some(MatchCode(len, off, cp + |FormBytes(len, off, Far(more))|))
  {
    hide Excess, Offset16, GoesOn;
    var e := if more.No? then len - 19 else 127;
    var two := [off % 0x100, off / 0x100];
    assert FormBytes(len, off, Far(more)) == [e] + (two + ExtraBytes(more));
    GoesOnSplit(comp, cp, [e], two + ExtraBytes(more));
    ByteThere(comp, cp, e);
    GoesOnSplit(comp, cp + 1, two, ExtraBytes(more));
    OffsetRead(comp, cp + 1, off);
    if !more.No? { ExtraRead(comp, cp + 3, more); }
  }

  /** Nothing else is read as a match. */
  lemma MatchThere(comp: seq<byte>, cp: nat, control: nat) returns (form: Form)
    requires control <= 15 && ReadMatch(comp, cp, control).Some?
    ensures var m := ReadMatch(comp, cp, control).value;
      FormOk(m.len, m.off, form) && FormBits(m.len, form) == control && GoesOn(comp, cp, FormBytes(m.len, m.off, form))
  {
    hide Excess, Offset16, GoesOn;
    if control < 15 {
      form := Short;
      OffsetThere(comp, cp);
    } else if comp[cp] >= 128 {
      form := NearThere(comp, cp);
    } else {
      form := FarThere(comp, cp);
    }
  }

  lemma NearThere(comp: seq<byte>, cp: nat) returns (form: Form)
    requires ReadMatch(comp, cp, 15).Some? && comp[cp] >= 128
    ensures var m := ReadMatch(comp, cp, 15).value;
      form.Near? && FormOk(m.len, m.off, form) && GoesOn(comp, cp, FormBytes(m.len, m.off, form))
  {
    hide Excess, Offset16, GoesOn;
    var e: nat := comp[cp];
    var more := No;
    if e / 8 % 16 == 15 { more := ExtraThere(comp, cp + 1); }
    assert e == 128 + 8 * (e / 8 % 16) + e % 8;
    ByteThere(comp, cp, e);
    assert GoesOn(comp, cp + 1, []) by { NothingThere(comp, cp + 1); }
    GoesOnSplit(comp, cp, [e], ExtraBytes(more));
    form := Near(more);
  }

  lemma NothingThere(comp: seq<byte>, cp: nat)
    requires cp <= |comp|
    ensures GoesOn(comp, cp, [])
  {
  }

  lemma FarThere(comp: seq<byte>, cp: nat) returns (form: Form)
    requires ReadMatch(comp, cp, 15).Some? && comp[cp] < 128
    ensures var m := ReadMatch(comp, cp, 15).value;
      form.Far? && FormOk(m.len, m.off, form) && GoesOn(comp, cp, FormBytes(m.len, m.off, form))
  {
    hide Excess, Offset16, GoesOn;
    var e: nat := comp[cp];
    OffsetThere(comp, cp + 1);
    var off := Offset16(comp, cp + 1).value.0;
    var two := [off % 0x100, off / 0x100];
    var more := No;
    if e == 127 { more := ExtraThere(comp, cp + 3); }
    ByteThere(comp, cp, e);
    assert GoesOn(comp, cp + 3, []) by { NothingThere(comp, cp + 3); }
    GoesOnSplit(comp, cp + 1, two, ExtraBytes(more));
    GoesOnSplit(comp, cp, [e], two + ExtraBytes(more));
    form := Far(more);
    assert [e] + (two + ExtraBytes(more)) == [e, off % 0x100, off / 0x100] + ExtraBytes(more);
  }

  // ----- commands

  lemma Nibbles(hi: nat, lo: nat)
    requires lo < 16
    ensures (16 * hi + lo) / 16 == hi && (16 * hi + lo) % 16 == lo
  {
    DivModUnique(16 * hi + lo, 16, hi, lo);
  }

  lemma CommandRead(comp: seq<byte>, cp: nat, out: seq<byte>, t: Token, base: nat, end: nat)
    requires base <= |out| && Fits(out, t, base, end) && GoesOn(comp, cp, TokenBytes(t))
    ensures cp < |comp| && Command(comp, cp, out, base, end, false) == Next(With(out, t), cp + |TokenBytes(t)|)
  {
    hide ReadLiterals, ReadMatch, GoesOn, ExtraBytes, FormBytes, CopyBack;
    var hi, lo := FormBits(t.len, t.form), RunBits(|t.lits|, t.more);
    var copy := FormBytes(t.len, t.off, t.form);
    GoesOnSplit(comp, cp, [16 * hi + lo], ExtraBytes(t.more) + (t.lits + copy));
    ByteThere(comp, cp, 16 * hi + lo);
    Nibbles(hi, lo);
    GoesOnSplit(comp, cp + 1, ExtraBytes(t.more), t.lits + copy);
    RunRead(comp, cp + 1, |t.lits|, t.more);
    var cp1 := cp + 1 + |ExtraBytes(t.more)|;
    GoesOnSplit(comp, cp1, t.lits, copy);
    Same(comp, cp1, t.lits);
    MatchRead(comp, cp1 + |t.lits|, t.len, t.off, t.form);
  }

  lemma Same(comp: seq<byte>, cp: nat, lits: seq<byte>)
    ensures GoesOn(comp, cp, lits) <==> cp + |lits| <= |comp| && comp[cp..cp + |lits|] == lits
  {
  }

  /** A command that leads on is that of a token. */
  lemma CommandThere(comp: seq<byte>, cp: nat, out: seq<byte>, base: nat, end: nat) returns (t: Token)
    requires cp < |comp| && base <= |out| < end && Command(comp, cp, out, base, end, false).Next?
    ensures Fits(out, t, base, end) && GoesOn(comp, cp, TokenBytes(t))
  {
    hide ReadLiterals, ReadMatch, GoesOn, ExtraBytes, FormBytes, CopyBack;
    var hi: nat, lo: nat := comp[cp] / 16, comp[cp] % 16;
    var (n, cp1) := ReadLiterals(comp, cp + 1, lo).value;
    var lits := comp[cp1..cp1 + n];
    var more := RunThere(comp, cp + 1, lo);
    RunRead(comp, cp + 1, n, more);
    var m := ReadMatch(comp, cp1 + n, hi).value;
    var form := MatchThere(comp, cp1 + n, hi);
    t := Token(lits, more, m.len, m.off, form);
    var copy := FormBytes(m.len, m.off, form);
    Same(comp, cp1, lits);
    GoesOnSplit(comp, cp1, lits, copy);
    GoesOnSplit(comp, cp + 1, ExtraBytes(more), lits + copy);
    ByteThere(comp, cp, 16 * hi + lo);
    GoesOnSplit(comp, cp, [16 * hi + lo], ExtraBytes(more) + (lits + copy));
  }

  /** The window is full, or a run of literals that may be longer than there is room for fills it. */
  datatype End = Full | Run(high: nat, n: nat, more: Extra, lits: seq<byte>)

  predicate EndOk(out: seq<byte>, e: End, end: nat) {
    match e
    case Full => |out| == end
    case Run(high, n, more, lits) => high < 16 && RunOk(n, more) && 0 < |lits| <= n && |out| + |lits| == end
  }

  function EndBytes(e: End): seq<int> {
    match e
    case Full => []
    case Run(high, n, more, lits) => [16 * high + RunBits(n, more)] + (ExtraBytes(more) + lits)
  }

  lemma LastRead(comp: seq<byte>, cp: nat, out: seq<byte>, e: End, base: nat, end: nat)
    requires base <= |out| && e.Run? && EndOk(out, e, end) && GoesOn(comp, cp, EndBytes(e))
    ensures cp < |comp| && Command(comp, cp, out, base, end, false) == Last(out + e.lits)
  {
    hide ReadLiterals, ReadMatch, GoesOn, ExtraBytes;
    var lo := RunBits(e.n, e.more);
    GoesOnSplit(comp, cp, [16 * e.high + lo], ExtraBytes(e.more) + e.lits);
    ByteThere(comp, cp, 16 * e.high + lo);
    Nibbles(e.high, lo);
    GoesOnSplit(comp, cp + 1, ExtraBytes(e.more), e.lits);
    RunRead(comp, cp + 1, e.n, e.more);
    Same(comp, cp + 1 + |ExtraBytes(e.more)|, e.lits);
  }

  lemma LastThere(comp: seq<byte>, cp: nat, out: seq<byte>, base: nat, end: nat) returns (e: End)
    requires cp < |comp| && base <= |out| < end && Command(comp, cp, out, base, end, false).Last?
    ensures e.Run? && EndOk(out, e, end) && GoesOn(comp, cp, EndBytes(e))
  {
    hide ReadLiterals, ReadMatch, GoesOn, ExtraBytes, CopyBack;
    var hi: nat, lo: nat := comp[cp] / 16, comp[cp] % 16;
    var (n, cp1) := ReadLiterals(comp, cp + 1, lo).value;
    var lits := comp[cp1..cp1 + (end - |out|)];
    var more := RunThere(comp, cp + 1, lo);
    RunRead(comp, cp + 1, n, more);
    e := Run(hi, n, more, lits);
    Same(comp, cp1, lits);
    GoesOnSplit(comp, cp + 1, ExtraBytes(more), lits);
    ByteThere(comp, cp, 16 * hi + lo);
    GoesOnSplit(comp, cp, [16 * hi + lo], ExtraBytes(more) + lits);
  }

  // ----- all of them

  function Stream(ts: seq<Token>): seq<int> {
    if ts == [] then [] else TokenBytes(ts[0]) + Stream(ts[1..])
  }

  /** What the tokens make of the window; none if one does not fit. */
  function Make(out: seq<byte>, ts: seq<Token>, base: nat, end: nat): Option<seq<byte>>
    decreases |ts|
  {
    if ts == [] then Some(out)
    else if Fits(out, ts[0], base, end) then Make(With(out, ts[0]), ts[1..], base, end)
    else None
  }

  /** The data go on with what the tokens and the end are written as, and they make these bytes. */
  ghost predicate Writes(comp: seq<byte>, cp: nat, out: seq<byte>, base: nat, end: nat,
                         ts: seq<Token>, e: End, made: seq<byte>) {
    var m := Make(out, ts, base, end);
    && m.Some? && EndOk(m.value, e, end) && made == m.value + (if e.Run? then e.lits else [])
    && GoesOn(comp, cp, Stream(ts) + EndBytes(e))
  }

  lemma {:induction false} TokensRead(comp: seq<byte>, cp: nat, out: seq<byte>, base: nat, end: nat,
                                      ts: seq<Token>, e: End, made: seq<byte>)
    requires base <= |out| && Writes(comp, cp, out, base, end, ts, e, made)
    ensures Replay(comp, cp, out, base, end, false) == Some(made)
    decreases |ts|
  {
    hide Command, GoesOn, TokenBytes, EndBytes, EndOk, With;
    if ts == [] {
      NoTokens(comp, cp, out, base, end, e, made);
    } else {
      var t, rest := ts[0], ts[1..];
      assert Stream(ts) + EndBytes(e) == TokenBytes(t) + (Stream(rest) + EndBytes(e));
      GoesOnSplit(comp, cp, TokenBytes(t), Stream(rest) + EndBytes(e));
      CommandRead(comp, cp, out, t, base, end);
      TokensRead(comp, cp + |TokenBytes(t)|, With(out, t), base, end, rest, e, made);
    }
  }

  lemma NoTokens(comp: seq<byte>, cp: nat, out: seq<byte>, base: nat, end: nat, e: End, made: seq<byte>)
    requires base <= |out| && Writes(comp, cp, out, base, end, [], e, made)
    ensures Replay(comp, cp, out, base, end, false) == Some(made)
  {
    hide Command, GoesOn, TokenBytes, EndBytes;
    assert Stream([]) + EndBytes(e) == EndBytes(e);
    if e.Run? { LastRead(comp, cp, out, e, base, end); } else { assert made == out; }
  }

  lemma EndThere(comp: seq<byte>, cp: nat, out: seq<byte>, base: nat, end: nat, e: End)
    requires EndOk(out, e, end) && GoesOn(comp, cp, EndBytes(e))
    ensures Writes(comp, cp, out, base, end, [], e, out + if e.Run? then e.lits else [])
  {
    hide GoesOn, EndBytes, EndOk, Fits;
    assert Stream([]) + EndBytes(e) == EndBytes(e);
  }

  lemma OneInFront(comp: seq<byte>, cp: nat, out: seq<byte>, base: nat, end: nat, t: Token, ts: seq<Token>, e: End, made: seq<byte>)
    requires Fits(out, t, base, end) && GoesOn(comp, cp, TokenBytes(t))
    requires Writes(comp, cp + |TokenBytes(t)|, With(out, t), base, end, ts, e, made)
    ensures Writes(comp, cp, out, base, end, [t] + ts, e, made)
  {
    hide GoesOn, EndBytes, EndOk, TokenBytes, CopyBack;
    var all := [t] + ts;
    assert all[0] == t && all[1..] == ts;
    GoesOnSplit(comp, cp, TokenBytes(t), Stream(ts) + EndBytes(e));
    assert Stream(all) + EndBytes(e) == TokenBytes(t) + (Stream(ts) + EndBytes(e));
  }

  /** Nothing else is replayed. */
  lemma {:induction false} TokensThere(comp: seq<byte>, cp: nat, out: seq<byte>, base: nat, end: nat)
      returns (ts: seq<Token>, e: End)
    requires base <= |out| <= end && cp <= |comp| && Replay(comp, cp, out, base, end, false).Some?
    ensures Writes(comp, cp, out, base, end, ts, e, Replay(comp, cp, out, base, end, false).value)
    decreases |comp| - cp
  {
    hide Command, GoesOn, TokenBytes, With, Writes, Fits, RunOk;
    if |out| == end {
      ts, e := [], Full;
      NothingThere(comp, cp);
      EndThere(comp, cp, out, base, end, e);
      assert out + [] == out;
    } else {
      var c := Command(comp, cp, out, base, end, false);
      if c.Last? {
        e := LastThere(comp, cp, out, base, end);
        ts := [];
        LastRead(comp, cp, out, e, base, end);
        EndThere(comp, cp, out, base, end, e);
      } else {
        var t := CommandThere(comp, cp, out, base, end);
        CommandRead(comp, cp, out, t, base, end);
        FitsInside(out, t, base, end);
        ts, e := TokensThere(comp, c.cp, c.out, base, end);
        OneInFront(comp, cp, out, base, end, t, ts, e, Replay(comp, cp, out, base, end, false).value);
        ts := [t] + ts;
      }
    }
  }

  lemma FitsInside(out: seq<byte>, t: Token, base: nat, end: nat)
    requires Fits(out, t, base, end)
    ensures |out| <= |With(out, t)| <= end && base <= |With(out, t)|
  {
  }

  /** The replay is exactly what some writer makes the data from: commands in all the forms there are, and the end. */
  lemma ReplayIsWritten(comp: seq<byte>, cp: nat, out: seq<byte>, base: nat, end: nat, made: seq<byte>)
    requires base <= |out| <= end && cp <= |comp|
    ensures Replay(comp, cp, out, base, end, false) == Some(made)
      <==> exists ts, e :: Writes(comp, cp, out, base, end, ts, e, made)
  {
    hide Writes, Replay;
    if Replay(comp, cp, out, base, end, false) == Some(made) {
      var ts, e := TokensThere(comp, cp, out, base, end);
    }
    forall ts, e | Writes(comp, cp, out, base, end, ts, e, made)
      ensures Replay(comp, cp, out, base, end, false) == Some(made)
    {
      TokensRead(comp, cp, out, base, end, ts, e, made);
    }
  }
}
