/** One turn of the inflater's loop, as a function of where it stands, and when the loop ends. */
module Turns {
  import opened Bits
  import opened Canonical
  import opened ZHuffman
  import opened BitReader
  import opened Deflate
  import opened Words
  import opened Wrappers

  // ----- one turn

  datatype Step =
    | Bad
    | End
    | Byte(b: byte)
    | Copy(len: nat, dist: nat)

  /** What is read, and the bit position and the number of buffered bits behind it. */
  datatype Read<T> = Read(value: T, p: nat, n: nat)

  /** The symbol whose code the window starts with. */
  ghost function SymbolAt(lens: seq<nat>, w: seq<bool>): (r: Option<nat>)
    ensures r.Some? ==> Matches(lens, r.value, w)
    ensures r.None? ==> forall i: nat :: !Matches(lens, i, w)
  {
    if i: nat :| Matches(lens, i, w) then Some(i) else None
  }

  /** Decoding a symbol: nothing if there is none, or with fewer than 16 bits buffered and no more bytes. */
  ghost function SymbolRead(lens: seq<nat>, s: seq<bool>, p: nat, n: nat): (r: Option<Read<nat>>)
    requires ZLengths(lens) && n <= 32
    ensures r.Some? ==> r.value.value < |lens| && p < r.value.p && r.value.n <= 32 && p + n <= r.value.p + r.value.n
  {
    if n < 16 && p + n >= |s| then None
    else
      match SymbolAt(lens, Window(s, p, 16))
      case None => None
      case Some(i) => Some(Read(i, p + lens[i], Refilled(n, 16) - lens[i]))
  }

  /** Reading k extra bits. */
  ghost function ExtraRead(s: seq<bool>, p: nat, n: nat, k: nat): (r: Read<nat>)
    requires n <= 32 && k <= 24
    ensures r.p == p + k && r.n <= 32 && p + n <= r.p + r.n
  {
    Read(Field(s, p, k), p + k, Refilled(n, k) - k)
  }

  /** The rest of a match behind its length symbol. */
  ghost function MatchRead(dlens: seq<nat>, lsym: nat, s: seq<bool>, p: nat, n: nat): (r: Read<Step>)
    requires ZLengths(dlens) && |dlens| <= 32 && lsym < 31 && n <= 32
    ensures (r.value.Bad? || r.value.Copy?) && r.p >= p && r.n <= 32 && p + n <= r.p + r.n
  {
    var l := ExtraRead(s, p, n, LengthExtra(lsym));
    match SymbolRead(dlens, s, l.p, l.n)
    case None => Read(Bad, p, n)
    case Some(z) =>
      var d := ExtraRead(s, z.p, z.n, DistExtra(z.value));
      Read(Copy(LengthBase(lsym) + l.value, DistBase(z.value) + d.value), d.p, d.n)
  }

  /** A token, or the end of the block. */
  ghost function TokenRead(lens: seq<nat>, dlens: seq<nat>, s: seq<bool>, p: nat, n: nat): (r: Read<Step>)
    requires ZLengths(lens) && ZLengths(dlens) && |lens| <= ZNSYMS && |dlens| <= 32 && n <= 32
    ensures r.n <= 32 && p + n <= r.p + r.n && (!r.value.Bad? ==> r.p > p)
  {
    match SymbolRead(lens, s, p, n)
    case None => Read(Bad, p, n)
    case Some(z) =>
      if z.value < 256 then Read(Byte(z.value), z.p, z.n)
      else if z.value == 256 then Read(End, z.p, z.n)
      else MatchRead(dlens, z.value - 257, s, z.p, z.n)
  }

  /** Where the loop stands: the bit position, the number of buffered bits, the number of bytes output. */
  datatype Place = Place(p: nat, n: nat, size: nat)

  datatype Turn =
    | Fails
    | Ends
    | Goes(at: Place)

  ghost predicate Codes(lens: seq<nat>, dlens: seq<nat>) {
    ZLengths(lens) && ZLengths(dlens) && |lens| <= ZNSYMS && |dlens| <= 32
  }

  /** One turn of the loop. */
  ghost function TurnAt(lens: seq<nat>, dlens: seq<nat>, s: seq<bool>, at: Place): (r: Turn)
    requires Codes(lens, dlens) && at.n <= 32
    ensures r.Goes? ==> r.at.p > at.p && r.at.n <= 32 && r.at.size >= at.size && at.p + at.n <= r.at.p + r.at.n
  {
    var r := TokenRead(lens, dlens, s, at.p, at.n);
    match r.value
    case Bad => Fails
    case End => Ends
    case Byte(_) => Goes(Place(r.p, r.n, at.size + 1))
    case Copy(len, dist) => if dist > at.size then Fails else Goes(Place(r.p, r.n, at.size + len))
  }

  /** How k turns end the loop; None if they do not. */
  ghost function Runs(lens: seq<nat>, dlens: seq<nat>, s: seq<bool>, at: Place, k: nat): Option<bool>
    requires Codes(lens, dlens) && at.n <= 32
    decreases k
  {
    if k == 0 then None
    else
      match TurnAt(lens, dlens, s, at)
      case Fails => Some(false)
      case Ends => Some(true)
      case Goes(next) => Runs(lens, dlens, s, next, k - 1)
  }

  /** The loop ends at all. */
  ghost predicate Terminates(lens: seq<nat>, dlens: seq<nat>, s: seq<bool>, at: Place)
    requires Codes(lens, dlens) && at.n <= 32
  {
    exists k: nat :: Runs(lens, dlens, s, at, k).Some?
  }

  // ----- running on

  lemma {:induction false} RunsMore(lens: seq<nat>, dlens: seq<nat>, s: seq<bool>, at: Place, k: nat, m: nat)
    requires Codes(lens, dlens) && at.n <= 32 && k <= m && Runs(lens, dlens, s, at, k).Some?
    ensures Runs(lens, dlens, s, at, m) == Runs(lens, dlens, s, at, k)
    decreases k
  {
    hide TurnAt;
    var t := TurnAt(lens, dlens, s, at);
    if t.Goes? { RunsMore(lens, dlens, s, t.at, k - 1, m - 1); }
  }

  /** The place after k turns that did not end the loop. */
  ghost function After(lens: seq<nat>, dlens: seq<nat>, s: seq<bool>, at: Place, k: nat): (r: Place)
    requires Codes(lens, dlens) && at.n <= 32 && Runs(lens, dlens, s, at, k).None?
    ensures r.p >= at.p + k && r.n <= 32 && r.size >= at.size
    decreases k
  {
    if k == 0 then at else After(lens, dlens, s, TurnAt(lens, dlens, s, at).at, k - 1)
  }

  lemma {:induction false} RunsOn(lens: seq<nat>, dlens: seq<nat>, s: seq<bool>, at: Place, k: nat, m: nat)
    requires Codes(lens, dlens) && at.n <= 32 && Runs(lens, dlens, s, at, k).None?
    ensures Runs(lens, dlens, s, at, k + m) == Runs(lens, dlens, s, After(lens, dlens, s, at, k), m)
    decreases k
  {
    hide TurnAt;
    if k > 0 { RunsOn(lens, dlens, s, TurnAt(lens, dlens, s, at).at, k - 1, m); }
  }

  /** One turn more. */
  lemma {:induction false} OneMore(lens: seq<nat>, dlens: seq<nat>, s: seq<bool>, at: Place, k: nat)
    requires Codes(lens, dlens) && at.n <= 32 && Runs(lens, dlens, s, at, k).None?
    ensures
      match TurnAt(lens, dlens, s, After(lens, dlens, s, at, k))
      case Fails => Runs(lens, dlens, s, at, k + 1) == Some(false)
      case Ends => Runs(lens, dlens, s, at, k + 1) == Some(true)
      case Goes(next) => Runs(lens, dlens, s, at, k + 1).None? && After(lens, dlens, s, at, k + 1) == next
    decreases k
  {
    hide TurnAt;
    if k > 0 { OneMore(lens, dlens, s, TurnAt(lens, dlens, s, at).at, k - 1); }
  }

  // ----- the end

  /** The place behind the token that is read here. */
  ghost function Behind(lens: seq<nat>, dlens: seq<nat>, s: seq<bool>, at: Place): (r: Place)
    requires Codes(lens, dlens) && at.n <= 32
    ensures r.n <= 32
  {
    var r := TokenRead(lens, dlens, s, at.p, at.n);
    Place(r.p, r.n, at.size)
  }

  /** The place behind the end of the block, if k turns end the loop well. */
  ghost function EndPlace(lens: seq<nat>, dlens: seq<nat>, s: seq<bool>, at: Place, k: nat): (r: Place)
    requires Codes(lens, dlens) && at.n <= 32
    ensures r.n <= 32
    decreases k
  {
    if k == 0 then at
    else
      match TurnAt(lens, dlens, s, at)
      case Goes(next) => EndPlace(lens, dlens, s, next, k - 1)
      case _ => Behind(lens, dlens, s, at)
  }

  lemma {:induction false} EndMore(lens: seq<nat>, dlens: seq<nat>, s: seq<bool>, at: Place, k: nat, m: nat)
    requires Codes(lens, dlens) && at.n <= 32 && k <= m && Runs(lens, dlens, s, at, k) == Some(true)
    ensures Runs(lens, dlens, s, at, m) == Some(true)
    ensures EndPlace(lens, dlens, s, at, m) == EndPlace(lens, dlens, s, at, k)
    decreases k
  {
    hide TurnAt, Behind;
    var t := TurnAt(lens, dlens, s, at);
    if t.Goes? { EndMore(lens, dlens, s, t.at, k - 1, m - 1); }
  }

  /** The end is where the last turn read it. */
  lemma {:induction false} EndAfter(lens: seq<nat>, dlens: seq<nat>, s: seq<bool>, at: Place, k: nat)
    requires Codes(lens, dlens) && at.n <= 32 && Runs(lens, dlens, s, at, k).None?
    requires TurnAt(lens, dlens, s, After(lens, dlens, s, at, k)).Ends?
    ensures Runs(lens, dlens, s, at, k + 1) == Some(true)
    ensures EndPlace(lens, dlens, s, at, k + 1) == Behind(lens, dlens, s, After(lens, dlens, s, at, k))
    decreases k
  {
    hide TurnAt, Behind;
    if k > 0 { EndAfter(lens, dlens, s, TurnAt(lens, dlens, s, at).at, k - 1); }
  }

  // ----- past the end of the input

  /** Only zeros are left. */
  ghost predicate Silent(s: seq<bool>, p: nat) {
    forall k: nat :: k >= p ==> !BitAt(s, k)
  }

  /** And all bytes are in the buffer. */
  ghost predicate Drained(s: seq<bool>, at: Place) {
    at.p + at.n >= |s| && Silent(s, at.p)
  }

  lemma {:induction false} FieldPast(s: seq<bool>, p: nat, k: nat)
    requires Silent(s, p)
    ensures Field(s, p, k) == 0
  {
    forall i | 0 <= i < k ensures !Window(s, p, k)[i] { assert Window(s, p, k)[i] == BitAt(s, p + i); }
    NoOnes(Window(s, p, k));
  }

  lemma {:induction false} NoOnes(w: seq<bool>)
    requires forall i :: 0 <= i < |w| ==> !w[i]
    ensures FromBits(w) == 0
  {
    if w != [] { NoOnes(w[1..]); }
  }

  /** Then the bit buffer is zero. */
  lemma BufferPast(a: ZBuf)
    requires a.Valid() && Silent(a.Stream(), a.BitPos())
    ensures a.code_buffer == 0
  {
    hide Window, ByteBits, ToBits, Silent;
    FieldPast(a.Stream(), a.BitPos(), a.num_bits);
    FromToBits(a.code_buffer, a.num_bits);
    LowSmall(a.code_buffer, a.num_bits);
  }

  lemma WindowsPast(s: seq<bool>, p: nat, q: nat, k: nat)
    requires p >= |s| && q >= |s|
    ensures Window(s, p, k) == Window(s, q, k)
  {
    forall i | 0 <= i < k ensures Window(s, p, k)[i] == Window(s, q, k)[i] {
      assert Window(s, p, k)[i] == BitAt(s, p + i);
      assert Window(s, q, k)[i] == BitAt(s, q + i);
    }
  }

  /** There only the number of buffered bits counts, and more output is no hindrance. */
  lemma SameTurn(lens: seq<nat>, dlens: seq<nat>, s: seq<bool>, a: Place, b: Place)
    requires Codes(lens, dlens) && a.n == b.n <= 32 && a.p >= |s| && b.p >= |s| && a.size <= b.size
    requires TurnAt(lens, dlens, s, a).Goes?
    ensures TurnAt(lens, dlens, s, b).Goes?
    ensures TurnAt(lens, dlens, s, a).at.n == TurnAt(lens, dlens, s, b).at.n
    ensures TurnAt(lens, dlens, s, b).at.size - b.size == TurnAt(lens, dlens, s, a).at.size - a.size
  {
    hide TokenRead, ZLengths;
    SameToken(lens, dlens, s, a.p, b.p, a.n);
  }

  lemma SameToken(lens: seq<nat>, dlens: seq<nat>, s: seq<bool>, p: nat, q: nat, n: nat)
    requires Codes(lens, dlens) && n <= 32 && p >= |s| && q >= |s|
    ensures var a, b := TokenRead(lens, dlens, s, p, n), TokenRead(lens, dlens, s, q, n);
      a.value == b.value && a.n == b.n
  {
    hide Window, Matches, LengthBase, LengthExtra, DistBase, DistExtra, Field, ZLengths;
    WindowsPast(s, p, q, 16);
    var z, y := SymbolRead(lens, s, p, n), SymbolRead(lens, s, q, n);
    if z.Some? && z.value.value > 256 { SameMatch(dlens, z.value.value - 257, s, z.value.p, y.value.p, z.value.n); }
  }

  lemma SameMatch(dlens: seq<nat>, lsym: nat, s: seq<bool>, p: nat, q: nat, n: nat)
    requires ZLengths(dlens) && |dlens| <= 32 && lsym < 31 && n <= 32 && p >= |s| && q >= |s|
    ensures var a, b := MatchRead(dlens, lsym, s, p, n), MatchRead(dlens, lsym, s, q, n);
      a.value == b.value && a.n == b.n
  {
    hide Window, Matches, LengthBase, LengthExtra, DistBase, DistExtra, Field, ZLengths;
    var e := LengthExtra(lsym);
    FieldPast(s, p, e);
    FieldPast(s, q, e);
    WindowsPast(s, p + e, q + e, 16);
    var n' := Refilled(n, e) - e;
    var z, y := SymbolRead(dlens, s, p + e, n'), SymbolRead(dlens, s, q + e, n');
    if z.Some? {
      FieldPast(s, z.value.p, DistExtra(z.value.value));
      FieldPast(s, y.value.p, DistExtra(z.value.value));
    }
  }

  lemma {:induction false} SameRun(lens: seq<nat>, dlens: seq<nat>, s: seq<bool>, a: Place, b: Place, m: nat)
    requires Codes(lens, dlens) && a.n == b.n <= 32 && a.p >= |s| && b.p >= |s| && a.size <= b.size
    requires Runs(lens, dlens, s, a, m).None?
    ensures Runs(lens, dlens, s, b, m).None?
    decreases m
  {
    hide TurnAt;
    if m > 0 {
      SameTurn(lens, dlens, s, a, b);
      SameRun(lens, dlens, s, TurnAt(lens, dlens, s, a).at, TurnAt(lens, dlens, s, b).at, m - 1);
    }
  }
}
