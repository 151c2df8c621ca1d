/** The GIF raster decoder: chains of prefixes instead of strings, drawn as they are decoded. */
module GifDecoder {
  import opened Bits
  import opened Words
  import opened GifCursor
  import opened GifLzw
  import opened Wrappers

  datatype Color = Color(r: byte, g: byte, b: byte, a: byte)

  // ----- drawing

  /** Where on the picture the rectangle lies, and the colours of the indices. */
  datatype Target = Target(rect: Rect, x0: nat, y0: nat, table: seq<Color>)

  datatype Canvas = Canvas(pix: seq<seq<Color>>, cur: Cursor)

  ghost predicate CanvasOk(t: Target, v: Canvas) {
    && |t.table| == 256 && CursorOk(t.rect, v.cur) && t.y0 + t.rect.h <= |v.pix|
    && forall y :: 0 <= y < |v.pix| ==> t.x0 + t.rect.w <= |v.pix[y]|
  }

  /** The next pixel takes the colour, unless that is transparent. */
  function Plot(t: Target, v: Canvas, index: byte): (r: Canvas)
    requires CanvasOk(t, v)
    ensures CanvasOk(t, r)
  {
    if v.cur.y >= t.rect.h then v
    else
      var c := t.table[index];
      var x, y := t.x0 + v.cur.x, t.y0 + v.cur.y;
      AdvanceVisits(t.rect, v.cur);
      Canvas(if c.a > 128 then v.pix[y := v.pix[y][x := Color(c.b, c.g, c.r, c.a)]] else v.pix, Advance(t.rect, v.cur))
  }

  function Plots(t: Target, v: Canvas, s: seq<byte>): (r: Canvas)
    requires CanvasOk(t, v)
    ensures CanvasOk(t, r)
  {
    if s == [] then v else Plot(t, Plots(t, v, s[..|s| - 1]), s[|s| - 1])
  }

  lemma {:induction false} PlotsAppend(t: Target, v: Canvas, a: seq<byte>, b: seq<byte>)
    requires CanvasOk(t, v)
    ensures Plots(t, v, a + b) == Plots(t, Plots(t, v, a), b)
  {
    hide Plot, CanvasOk;
    if b == [] {
      assert a + b == a;
    } else {
      PlotsAppend(t, v, a, b[..|b| - 1]);
      assert (a + b)[..|a + b| - 1] == a + b[..|b| - 1];
    }
  }

  function Shown(t: Target, index: byte, under: Color): Color
    requires |t.table| == 256
  {
    var c := t.table[index];
    if c.a > 128 then Color(c.b, c.g, c.r, c.a) else under
  }

  /** The k-th colour is shown at the k-th pixel of the traversal, and pixels that it does not get to
      are as before. */
  lemma {:induction false} PlotsShow(t: Target, v: Canvas, s: seq<byte>, k: nat)
    requires CanvasOk(t, v) && v.cur == Start(t.rect) && k < |s| && k < t.rect.w * t.rect.h
    ensures CursorOk(t.rect, After(t.rect, k)) && After(t.rect, k).y < t.rect.h && After(t.rect, k).x < t.rect.w
    ensures Plots(t, v, s).cur == After(t.rect, |s|)
    ensures var x, y := t.x0 + After(t.rect, k).x, t.y0 + After(t.rect, k).y;
      Plots(t, v, s).pix[y][x] == Shown(t, s[k], v.pix[y][x])
  {
    hide Advance, Visited;
    var r, n := t.rect, |s| - 1;
    Bijection(r, k);
    AfterOk(r, k);
    InsideWidth(r, After(r, k));
    PlotsCursor(t, v, s);
    PlotsCursor(t, v, s[..n]);
    var x, y := t.x0 + After(r, k).x, t.y0 + After(r, k).y;
    var before := Plots(t, v, s[..n]);
    if k < n {
      PlotsShow(t, v, s[..n], k);
      VisitedLater(r, k, n);
      if before.cur.y < r.h { AdvanceVisits(r, before.cur); }
    } else {
      PlotsKeep(t, v, s[..n], k);
    }
  }

  lemma {:induction false} PlotsCursor(t: Target, v: Canvas, s: seq<byte>)
    requires CanvasOk(t, v) && v.cur == Start(t.rect)
    ensures Plots(t, v, s).cur == After(t.rect, |s|)
  {
    hide Advance;
    if s != [] {
      PlotsCursor(t, v, s[..|s| - 1]);
      if Plots(t, v, s[..|s| - 1]).cur.y >= t.rect.h { Stays(t.rect, Plots(t, v, s[..|s| - 1]).cur); }
    }
  }

  lemma {:induction false} PlotsKeep(t: Target, v: Canvas, s: seq<byte>, k: nat)
    requires CanvasOk(t, v) && v.cur == Start(t.rect) && |s| <= k && After(t.rect, k).y < t.rect.h
    ensures CursorOk(t.rect, After(t.rect, k)) && After(t.rect, k).x < t.rect.w
    ensures var x, y := t.x0 + After(t.rect, k).x, t.y0 + After(t.rect, k).y;
      Plots(t, v, s).pix[y][x] == v.pix[y][x]
  {
    hide Advance, Visited;
    var r := t.rect;
    AfterOk(r, k);
    InsideWidth(r, After(r, k));
    if s != [] {
      var n := |s| - 1;
      PlotsKeep(t, v, s[..n], k);
      PlotsCursor(t, v, s[..n]);
      AfterOk(r, n);
      if After(r, n).y < r.h {
        VisitedLater(r, n, k);
        AdvanceVisits(r, After(r, k));
      }
    }
  }

  // ----- chains

  datatype Code = Code(prefix: int, first: byte, suffix: byte)

  /** The chain of a code spells its string backwards, through ever smaller codes. */
  ghost predicate Chain(cs: nat, codes: seq<Code>, strs: seq<seq<byte>>, c: nat)
    requires c < |strs| && c < |codes|
  {
    var e, s := codes[c], strs[c];
    && |s| > 0 && e.first == s[0] && e.suffix == s[|s| - 1]
    && if e.prefix < 0 then |s| == 1
       else e.prefix < c && IsString(cs, e.prefix) && s[..|s| - 1] == strs[e.prefix]
  }

  ghost predicate Chains(cs: nat, codes: seq<Code>, strs: seq<seq<byte>>) {
    && |codes| == MAX_CODES && |strs| <= MAX_CODES
    && forall c :: 0 <= c < |strs| && IsString(cs, c) ==> Chain(cs, codes, strs, c)
  }

  /** A new code whose prefix is an old one. */
  lemma ChainGrown(cs: nat, codes: seq<Code>, z: Lzw, code: nat, e: Code)
    requires cs <= 12 && LzwOk(cs, z) && Chains(cs, codes, z.strs) && z.prev.Some? && code <= |z.strs| < MAX_CODES && IsString(cs, code)
    requires var n := |z.strs|;
      && e.prefix == z.prev.value && e.first == codes[z.prev.value].first
      && e.suffix == if code == n then e.first else codes[code].first
    ensures Chains(cs, codes[|z.strs| := e], Grown(z, code))
  {
    hide Chain, IsString;
    var n, strs := |z.strs|, Grown(z, code);
    var after := codes[n := e];
    forall c | 0 <= c < n + 1 && IsString(cs, c) ensures Chain(cs, after, strs, c) {
      if c < n { ChainKept(cs, codes, z, code, e, c); } else { ChainAdded(cs, codes, z, code, e); }
    }
  }

  lemma ChainKept(cs: nat, codes: seq<Code>, z: Lzw, code: nat, e: Code, c: nat)
    requires LzwOk(cs, z) && Chains(cs, codes, z.strs) && z.prev.Some? && code <= |z.strs| < MAX_CODES
    requires c < |z.strs| && IsString(cs, c)
    ensures Chain(cs, codes[|z.strs| := e], Grown(z, code), c)
  {
    hide Pow2;
    assert Chain(cs, codes, z.strs, c);
  }

  lemma ChainAdded(cs: nat, codes: seq<Code>, z: Lzw, code: nat, e: Code)
    requires LzwOk(cs, z) && Chains(cs, codes, z.strs) && z.prev.Some? && code <= |z.strs| < MAX_CODES && IsString(cs, code)
    requires var n := |z.strs|;
      && e.prefix == z.prev.value && e.first == codes[z.prev.value].first
      && e.suffix == if code == n then e.first else codes[code].first
    ensures Chain(cs, codes[|z.strs| := e], Grown(z, code), |z.strs|)
  {
    hide Pow2;
    var n, before := |z.strs|, z.strs[z.prev.value];
    assert Chain(cs, codes, z.strs, z.prev.value);
    if code < n { assert Chain(cs, codes, z.strs, code); }
    var s := Grown(z, code)[n];
    assert s[..|s| - 1] == before;
  }

  lemma ChainsOfRoots(cs: nat, codes: seq<Code>)
    requires cs <= 12 && |codes| == MAX_CODES && ClearCode(cs) <= MAX_CODES
    requires forall c :: 0 <= c < ClearCode(cs) ==> codes[c] == Code(-1, c % 0x100, c % 0x100)
    ensures Chains(cs, codes, Roots(cs))
  {
    hide Pow2;
    ClearBound(cs);
  }

  // ----- reading the sub-blocks

  method Get8(data: seq<byte>, pos0: nat) returns (b: byte, pos: nat)
    ensures b == (if pos0 < |data| then data[pos0] else 0) && pos == if pos0 < |data| then pos0 + 1 else pos0
  {
    if pos0 < |data| { b, pos := data[pos0], pos0 + 1; } else { b, pos := 0, pos0; }
  }

  /** The rest of a sub-block and those behind it. */
  ghost function Rest(data: seq<byte>, pos: nat, len: nat): seq<byte> {
    Bytes(data, pos, len) + Payload(data, pos + len)
  }

  lemma RestBlock(data: seq<byte>, pos: nat)
    ensures Rest(data, pos, 0) == Payload(data, pos)
    ensures Payload(data, pos) == if pos < |data| && data[pos] != 0 then Rest(data, pos + 1, data[pos]) else []
  {
  }

  lemma RestByte(data: seq<byte>, pos: nat, len: nat)
    requires len > 0
    ensures var b := if pos < |data| then data[pos] else 0;
      Rest(data, pos, len) == [b] + Rest(data, if pos < |data| then pos + 1 else pos, len - 1)
  {
    hide Payload;
    if pos >= |data| { NothingLeft(data, pos + len); NothingLeft(data, pos + len - 1); }
  }

  lemma NothingLeft(data: seq<byte>, pos: nat)
    requires pos >= |data|
    ensures Payload(data, pos) == []
  {
  }

  /** Eight more bits, from a new sub-block if the one at hand is used up; none behind the last. */
  method Feed(data: seq<byte>, pos0: nat, len0: nat, bits0: nat, valid0: nat, ghost payload: seq<byte>, ghost p: nat, ghost fed0: nat)
      returns (more: bool, bits: nat, valid: nat, len: nat, pos: nat, ghost fed: nat)
    requires fed0 <= |payload| && p + valid0 == 8 * fed0 && bits0 == Field(ByteBits(payload), p, valid0)
    requires Rest(data, pos0, len0) == payload[fed0..]
    ensures !more ==> fed == fed0 == |payload| && valid == valid0 && bits == bits0
    ensures more ==> fed == fed0 + 1 <= |payload| && valid == valid0 + 8 && bits == Field(ByteBits(payload), p, valid)
    ensures more ==> Rest(data, pos, len) == payload[fed..]
  {
    hide Field, ByteBits, Or, Shl, Rest;
    bits, valid, len, pos, fed := bits0, valid0, len0, pos0, fed0;
    if len == 0 {
      RestBlock(data, pos);
      len, pos := Get8(data, pos);
      if len == 0 { return false, bits, valid, len, pos, fed; }
    }
    RestByte(data, pos, len);
    len := len - 1;
    var b;
    b, pos := Get8(data, pos);
    FirstAndRest(payload, fed, b, Rest(data, pos, len));
    FieldAppend(payload, p, valid, fed, b);
    bits := Or(bits, Shl(b, valid));
    valid := valid + 8;
    fed := fed + 1;
    more := true;
  }

  lemma FirstAndRest(s: seq<byte>, i: nat, b: byte, rest: seq<byte>)
    requires i <= |s| && s[i..] == [b] + rest
    ensures i < |s| && s[i] == b && s[i + 1..] == rest
  {
    assert |s[i..]| == 1 + |rest|;
    assert s[i..][0] == b && s[i..][1..] == rest;
  }

  /** To the end of the raster. */
  method SkipBlocks(data: seq<byte>, pos0: nat, len0: nat) returns (pos: nat)
    ensures pos >= pos0
  {
    pos := pos0 + len0;
    var len;
    len, pos := Get8(data, pos);
    while len > 0
      invariant pos >= pos0 && (len > 0 ==> pos <= |data|)
      decreases |data| - pos, len
    {
      pos := pos + len;
      len, pos := Get8(data, pos);
    }
  }

  lemma RasterIs(data: seq<byte>, pos0: nat, cs: nat, pos: nat)
    requires cs == (if pos0 < |data| then data[pos0] else 0) && pos == (if pos0 < |data| then pos0 + 1 else pos0) && cs <= 12
    ensures LzwOk(cs, Initial(cs))
    ensures Raster(data, pos0) == Decode(cs, ByteBits(Payload(data, pos)), 0, Initial(cs))
  {
    hide Decode, Initial, LzwOk;
    InitialOk(cs);
    if pos0 >= |data| { NothingLeft(data, pos0); NothingLeft(data, pos0 + 1); }
  }

  lemma NoBits(s: seq<bool>)
    ensures Field(s, 0, 0) == 0
  {
  }

  lemma OutOfBits(cs: nat, s: seq<bool>, p: nat, z: Lzw)
    requires cs <= 12 && LzwOk(cs, z) && p + z.width > |s|
    ensures Decode(cs, s, p, z) == Some(z.out)
  {
  }

  lemma DecodeStep(cs: nat, s: seq<bool>, p: nat, z: Lzw)
    requires cs <= 12 && LzwOk(cs, z) && p + z.width <= |s|
    ensures var r := StepCode(cs, z, Field(s, p, z.width));
      && (r.Ended? ==> Decode(cs, s, p, z) == Some(r.out))
      && (r.Failed? ==> Decode(cs, s, p, z) == None)
      && (r.Running? ==> LzwOk(cs, r.next) && Decode(cs, s, p, z) == Decode(cs, s, p + z.width, r.next))
  {
    hide StepCode, Field;
    if StepCode(cs, z, Field(s, p, z.width)).Running? { StepOk(cs, z, Field(s, p, z.width)); }
  }

  lemma FieldAppend(payload: seq<byte>, p: nat, m: nat, fed: nat, b: byte)
    requires p + m == 8 * fed && fed < |payload| && b == payload[fed]
    ensures Or(Field(ByteBits(payload), p, m), Shl(b, m)) == Field(ByteBits(payload), p, m + 8)
  {
    hide Or, Shl, ToBits, ByteBits, Window;
    var s := ByteBits(payload);
    var x, y := Field(s, p, m), Field(s, p, m + 8);
    ToFromBits(Window(s, p, m));
    ToFromBits(Window(s, p, m + 8));
    Pow2Values();
    AppendBits(x, m, b, 8);
    WindowByte(payload, fed);
    WindowSplit(s, p, m, 8);
    ToBitsInjective(Or(x, Shl(b, m)), y, m + 8);
  }

  lemma FieldTake(s: seq<bool>, p: nat, m: nat, n: nat, bits: nat)
    requires n <= m && bits == Field(s, p, m)
    ensures And(bits, Pow2(n) - 1) == Field(s, p, n)
    ensures Shr(bits, n) == Field(s, p + n, m - n)
  {
    hide And, Shr, Low;
    AndMask(bits, n);
    FieldSplit(s, p, n, m - n);
  }

  datatype Status = More | Done | Corrupt

  class Gif {
    const t: Target
    var codes: seq<Code>
    var pix: seq<seq<Color>>
    var curX: nat
    var curY: nat
    var step: nat
    var parse: nat

    constructor (t: Target, pix: seq<seq<Color>>)
      requires |t.table| == 256 && t.y0 + t.rect.h <= |pix| && forall y :: 0 <= y < |pix| ==> t.x0 + t.rect.w <= |pix[y]|
      ensures this.t == t && Drawn() == Canvas(pix, Start(t.rect)) && Valid()
    {
      this.t, this.pix := t, pix;
      codes := seq(MAX_CODES, _ => Code(-1, 0, 0));
      curX, curY := 0, if t.rect.w == 0 then t.rect.h else 0;
      step, parse := if t.rect.interlaced then 8 else 1, if t.rect.interlaced then 3 else 0;
      new;
      StartOk(t.rect);
    }

    function Drawn(): Canvas
      reads this
    {
      Canvas(pix, Cursor(curX, curY, step, parse))
    }

    ghost predicate Valid()
      reads this
    {
      |codes| == MAX_CODES && CanvasOk(t, Drawn())
    }

    /** Draws the string of a code, first the prefix, then the last colour. */
    method OutCode(code: nat, ghost cs: nat, ghost strs: seq<seq<byte>>)
      requires Valid() && Chains(cs, codes, strs) && code < |strs| && IsString(cs, code)
      modifies `pix, `curX, `curY, `step, `parse
      ensures Valid() && Drawn() == Plots(t, old(Drawn()), strs[code])
      decreases code
    {
      hide IsString;
      assert Chain(cs, codes, strs, code);
      ghost var s := strs[code];
      if codes[code].prefix >= 0 {
        OutCode(codes[code].prefix, cs, strs);
      } else {
        assert s[..|s| - 1] == [];
      }
      OutPixel(codes[code].suffix);
    }

    /** Draws one pixel and moves on. */
    method OutPixel(index: byte)
      requires Valid()
      modifies `pix, `curX, `curY, `step, `parse
      ensures Valid() && Drawn() == Plot(t, old(Drawn()), index)
    {
      ghost var v := Drawn();
      if curY >= t.rect.h { return; }
      var c := t.table[index];
      if c.a > 128 {
        var x, y := t.x0 + curX, t.y0 + curY;
        pix := pix[y := pix[y][x := Color(c.b, c.g, c.r, c.a)]];
      }
      curX := curX + 1;
      if curX >= t.rect.w {
        curX := 0;
        curY := curY + step;
        SkipPasses();
      }
      assert Drawn() == Plot(t, v, index);
    }

    /** On to the next pass that has rows in the rectangle. */
    method SkipPasses()
      modifies `curY, `step, `parse
      ensures Drawn().cur == NextPass(t.rect, old(Drawn()).cur)
    {
      ghost var c := Drawn().cur;
      while curY >= t.rect.h && parse > 0
        invariant NextPass(t.rect, Drawn().cur) == NextPass(t.rect, c)
        decreases parse
      {
        step := Pow2(parse);
        curY := step / 2;
        parse := parse - 1;
      }
    }

    // ----- one code

    ghost predicate HasRoots(cs: nat)
      reads this
    {
      |codes| == MAX_CODES && ClearCode(cs) <= MAX_CODES
      && forall c :: 0 <= c < ClearCode(cs) ==> codes[c] == Code(-1, c % 0x100, c % 0x100)
    }

    /** The decoder's variables are those of the dictionary decoder z, and what z made is drawn. */
    ghost predicate Follows(cs: nat, z: Lzw, v: Canvas, codesize: nat, avail: nat, oldcode: int, first: bool)
      requires CanvasOk(t, v)
      reads this
    {
      && Valid() && LzwOk(cs, z) && HasRoots(cs) && Chains(cs, codes, z.strs)
      && codesize == z.width && avail == |z.strs| && first == z.first
      && oldcode == (if z.prev.Some? then z.prev.value else -1)
      && Drawn() == Plots(t, v, z.out)
    }

    /** A code that stands for a string, old or new. */
    method StringCode(cs: nat, code: nat, codesize0: nat, avail0: nat, oldcode: int, ghost z: Lzw, ghost v: Canvas)
        returns (ok: bool, codesize: nat, avail: nat, ghost next: Lzw)
      requires cs <= 12 && CanvasOk(t, v) && Follows(cs, z, v, codesize0, avail0, oldcode, false)
      requires code <= avail0 && IsString(cs, code)
      modifies this
      ensures Valid()
      ensures !ok ==> StepCode(cs, z, code).Failed?
      ensures ok ==> StepCode(cs, z, code) == Running(next) && Follows(cs, next, v, codesize, avail, code, false)
    {
      hide Plots, Chain, Roots, Wider;
      codesize, avail, ok, next := codesize0, avail0, true, z;
      ghost var strs := z.strs;
      if oldcode >= 0 {
        var p := avail;
        avail := avail + 1;
        if avail > MAX_CODES { return false, codesize, avail, next; }
        assert Chain(cs, codes, z.strs, oldcode);
        var prefixed := Code(oldcode, codes[oldcode].first, 0);
        var e := prefixed.(suffix := if code == avail then prefixed.first else (codes[p := prefixed])[code].first);
        ChainGrown(cs, codes, z, code, e);
        codes := codes[p := e];
        strs := Grown(z, code);
      } else if code == avail {
        return false, codesize, avail, next;
      }
      ghost var drawn := Drawn();
      OutCode(code, cs, strs);
      PlotsAppend(t, v, z.out, strs[code]);
      codesize := Wider(codesize, avail);
      StepOk(cs, z, code);
      next := StepCode(cs, z, code).next;
    }

    /** Any code. */
    method HandleCode(cs: nat, code: nat, codesize0: nat, avail0: nat, oldcode0: int, first0: bool, ghost z: Lzw, ghost v: Canvas)
        returns (status: Status, codesize: nat, avail: nat, oldcode: int, first: bool, ghost next: Lzw)
      requires cs <= 12 && CanvasOk(t, v) && Follows(cs, z, v, codesize0, avail0, oldcode0, first0)
      modifies this
      ensures Valid()
      ensures status.Corrupt? <==> StepCode(cs, z, code).Failed?
      ensures status.Done? <==> StepCode(cs, z, code) == Ended(z.out)
      ensures status.Done? ==> Drawn() == Plots(t, v, z.out)
      ensures status.More? ==> StepCode(cs, z, code) == Running(next) && Follows(cs, next, v, codesize, avail, oldcode, first)
    {
      hide Plots, Roots, Wider, Pow2, LzwOk, Grown;
      codesize, avail, oldcode, first, next := codesize0, avail0, oldcode0, first0, z;
      if code == ClearCode(cs) {
        StepOk(cs, z, code);
        next := StepCode(cs, z, code).next;
        codesize, avail, oldcode, first := cs + 1, ClearCode(cs) + 2, -1, false;
        ChainsOfRoots(cs, codes);
        status := More;
      } else if code == ClearCode(cs) + 1 {
        status := Done;
      } else if code <= avail {
        if first { return Corrupt, codesize, avail, oldcode, first, next; }
        var ok;
        ok, codesize, avail, next := StringCode(cs, code, codesize, avail, oldcode, z, v);
        if ok { oldcode := code; }
        status := if ok then More else Corrupt;
      } else {
        status := Corrupt;
      }
    }

    /** The roots of the dictionary. */
    method InitCodes(cs: nat)
      requires cs <= 12 && |codes| == MAX_CODES
      modifies `codes
      ensures HasRoots(cs) && Chains(cs, codes, Roots(cs))
    {
      ClearBound(cs);
      var i := 0;
      while i < ClearCode(cs)
        invariant 0 <= i <= ClearCode(cs) && |codes| == MAX_CODES
        invariant forall c :: 0 <= c < i ==> codes[c] == Code(-1, c % 0x100, c % 0x100)
      {
        codes := codes[i := Code(-1, i % 0x100, i % 0x100)];
        i := i + 1;
      }
      ChainsOfRoots(cs, codes);
    }

    lemma StartFollows(cs: nat, v: Canvas)
      requires cs <= 12 && Valid() && HasRoots(cs) && Chains(cs, codes, Roots(cs)) && v == Drawn()
      ensures CanvasOk(t, v) && Follows(cs, Initial(cs), v, cs + 1, ClearCode(cs) + 2, -1, true)
    {
      InitialOk(cs);
    }

    lemma FollowsFacts(cs: nat, z: Lzw, v: Canvas, codesize: nat, avail: nat, oldcode: int, first: bool)
      requires CanvasOk(t, v) && Follows(cs, z, v, codesize, avail, oldcode, first)
      ensures LzwOk(cs, z) && codesize == z.width >= 1 && Drawn() == Plots(t, v, z.out)
    {
    }

    /** Decodes a raster into the picture: it draws what the dictionary decoder makes of the data, and
        fails exactly when that does. */
    method ProcessRaster(data: seq<byte>, pos0: nat) returns (ok: bool, pos: nat)
      requires Valid()
      modifies this
      ensures Valid()
      ensures ok <==> Raster(data, pos0).Some?
      ensures ok ==> Drawn() == Plots(t, old(Drawn()), Raster(data, pos0).value)
    {
      hide Plots, Decode, StepCode, Follows, Payload, Bytes, Field, ByteBits, LzwOk, Initial, CanvasOk, Pow2, Or, Shl, Low,
        Shr, And, Rest;
      ghost var v := Drawn();
      var cs;
      cs, pos := Get8(data, pos0);
      if cs > 12 { return false, pos; }
      ghost var payload, z, p: nat, fed: nat := Payload(data, pos), Initial(cs), 0, 0;
      ghost var stream := ByteBits(payload);
      InitCodes(cs);
      StartFollows(cs, v);
      RasterIs(data, pos0, cs, pos);
      var bits: nat, validBits: nat, len: nat := 0, 0, 0;
      var codesize: nat, avail: nat, oldcode: int, first := cs + 1, ClearCode(cs) + 2, -1, true;
      NoBits(stream);
      RestBlock(data, pos);
      while true
        invariant Valid() && CanvasOk(t, v) && cs <= 12 && Follows(cs, z, v, codesize, avail, oldcode, first) && LzwOk(cs, z)
        invariant Raster(data, pos0) == Decode(cs, stream, p, z)
        invariant fed <= |payload| && p + validBits == 8 * fed && bits == Field(stream, p, validBits)
        invariant Rest(data, pos, len) == payload[fed..] && codesize == z.width >= 1
        decreases 9 * (|payload| - fed) + validBits
      {
        if validBits < codesize {
          var more;
          more, bits, validBits, len, pos, fed := Feed(data, pos, len, bits, validBits, payload, p, fed);
          if !more {
            OutOfBits(cs, stream, p, z);
            FollowsFacts(cs, z, v, codesize, avail, oldcode, first);
            return true, pos;
          }
        } else {
          FieldTake(stream, p, validBits, codesize, bits);
          var code := And(bits, Pow2(codesize) - 1);
          DecodeStep(cs, stream, p, z);
          bits := Shr(bits, codesize);
          validBits := validBits - codesize;
          p := p + codesize;
          var status;
          ghost var next;
          status, codesize, avail, oldcode, first, next := HandleCode(cs, code, codesize, avail, oldcode, first, z, v);
          match status {
            case Corrupt => return false, pos;
            case Done =>
              pos := SkipBlocks(data, pos, len);
              return true, pos;
            case More =>
              z := next;
              FollowsFacts(cs, z, v, codesize, avail, oldcode, first);
          }
        }
      }
    }
  }
}
