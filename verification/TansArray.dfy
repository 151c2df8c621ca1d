/** Decoding an array: fill the table, open the two streams, decode. */
module TansArray {
  import opened Bits
  import opened TansSpec
  import opened TansTable
  import opened TansBuild
  import opened TansStream
  import opened Words
  import opened TansDecode
  import opened TansEnd
  import opened TansX2

  // ----- the table as a whole

  ghost function Table(lbits: nat, larger: seq<SymCount>, singles: seq<nat>): (s: seq<Entry>)
    requires CountsOk(lbits, larger, singles)
    ensures |s| == Pow2(lbits)
    ensures forall t :: 0 <= t < |s| ==> s[t] == TableEntry(lbits, larger, singles, t)
  {
    seq(Pow2(lbits), t requires 0 <= t < Pow2(lbits) => TableEntry(lbits, larger, singles, t))
  }

  /** From no entry does decoding leave the table. */
  lemma TableIsOk(lbits: nat, larger: seq<SymCount>, singles: seq<nat>)
    requires CountsOk(lbits, larger, singles)
    ensures TableOk(Table(lbits, larger, singles))
  {
    hide Pow2, TableEntry;
    var s := Table(lbits, larger, singles);
    forall t | 0 <= t < |s| ensures EntryOk(s[t], |s|) {
      NextState(lbits, larger, singles, t);
      SymbolIsByte(lbits, larger, singles, t);
    }
  }

  lemma SymbolIsByte(lbits: nat, larger: seq<SymCount>, singles: seq<nat>, t: nat)
    requires CountsOk(lbits, larger, singles) && t < Pow2(lbits)
    ensures TableEntry(lbits, larger, singles, t).sym < 256 && lbits <= L_BITS_MAX
  {
    hide OwnerAt, Pow2;
    OwnerInRange(lbits, larger, singles, t);
  }

  // ----- opening

  /** The first state of each lane is the first field of its stream, and so on in turn. */
  ghost function Opening(comp: seq<byte>, lbits: nat): Tans {
    var f, b := Forward(comp), Backward(comp);
    Tans([Field(f, 0, lbits), Field(b, 0, lbits), Field(f, lbits, lbits), Field(b, lbits, lbits), Field(f, 2 * lbits, lbits)],
         3 * lbits, 2 * lbits, [])
  }

  lemma OpeningStates(comp: seq<byte>, lbits: nat)
    ensures StatesOk(Opening(comp, lbits).states, Pow2(lbits))
  {
    hide Field, Forward, Backward;
    var f, b := Forward(comp), Backward(comp);
    FieldBound(f, 0, lbits);
    FieldBound(b, 0, lbits);
    FieldBound(f, lbits, lbits);
    FieldBound(b, lbits, lbits);
    FieldBound(f, 2 * lbits, lbits);
  }

  /** Zeros before or after a buffer read like its end. */
  lemma PaddedForward(comp: seq<byte>, zeros: seq<byte>, p: nat, n: nat)
    requires forall i :: 0 <= i < |zeros| ==> zeros[i] == 0
    ensures Field(Forward(comp + zeros), p, n) == Field(Forward(comp), p, n)
  {
    ByteBitsAppend(comp, zeros);
    forall i | 0 <= i < n ensures Window(Forward(comp + zeros), p, n)[i] == Window(Forward(comp), p, n)[i] {
      var k := p + i;
      assert Window(Forward(comp + zeros), p, n)[i] == BitAt(Forward(comp + zeros), k);
      assert Window(Forward(comp), p, n)[i] == BitAt(Forward(comp), k);
      if 8 * |comp| <= k < 8 * (|comp| + |zeros|) {
        BitZero((k - 8 * |comp|) % 8);
        assert !BitAt(Forward(comp), k);
        assert ByteBits(zeros)[k - 8 * |comp|] == Bit(zeros[(k - 8 * |comp|) / 8], (k - 8 * |comp|) % 8);
      }
    }
    assert Window(Forward(comp + zeros), p, n) == Window(Forward(comp), p, n);
  }

  lemma PaddedBackward(comp: seq<byte>, zeros: seq<byte>, p: nat, n: nat)
    requires forall i :: 0 <= i < |zeros| ==> zeros[i] == 0
    ensures Field(Backward(zeros + comp), p, n) == Field(Backward(comp), p, n)
  {
    assert Rev(zeros + comp) == Rev(comp) + Rev(zeros);
    PaddedForward(Rev(comp), Rev(zeros), p, n);
  }

  /** The first eight bytes of either stream; a shorter buffer is read from a zeroed copy. */
  method FirstWords(comp: seq<byte>) returns (word0: nat, word1: nat)
    ensures word0 == Field(Forward(comp), 0, 64) && word1 == Field(Backward(comp), 0, 64)
  {
    hide Field, Forward, Backward, ReadLE, ReadBE;
    if |comp| < 8 {
      var zeros: seq<byte> := seq(8, i => 0);
      ReadForward(comp + zeros, 0, 8);
      PaddedForward(comp, zeros, 0, 64);
      ReadBackward(zeros + comp, |comp|, 8);
      PaddedBackward(comp, zeros, 0, 64);
      word0, word1 := ReadLE(comp + zeros, 0, 8), ReadBE(zeros + comp, |comp|, 8);
    } else {
      ReadForward(comp, 0, 8);
      ReadBackward(comp, |comp| - 8, 8);
      word0, word1 := ReadLE(comp, 0, 8), ReadBE(comp, |comp| - 8, 8);
    }
  }

  /** A lane of a full word after its first n fields of lbits. */
  lemma OpenLane(s: seq<bool>, word: nat, lbits: nat)
    requires word == Field(s, 0, 64) && 3 * lbits <= 64
    ensures Low(word, lbits) == Field(s, 0, lbits)
    ensures var w1 := Shr(word, lbits);
      && Low(w1, lbits) == Field(s, lbits, lbits)
      && var w2 := Shr(w1, lbits);
      && Low(w2, lbits) == Field(s, 2 * lbits, lbits)
      && LaneStarts(s, 2 * lbits, w2)
      && LaneStarts(s, 3 * lbits, Shr(w2, lbits))
  {
    hide Field, Low, Shr;
    FieldSplit(s, 0, lbits, 64 - lbits);
    FieldSplit(s, lbits, lbits, 64 - 2 * lbits);
    FieldSplit(s, 2 * lbits, lbits, 64 - 3 * lbits);
    StartLane(s, 2 * lbits, Shr(Shr(word, lbits), lbits));
    StartLane(s, 3 * lbits, Shr(Shr(Shr(word, lbits), lbits), lbits));
  }

  /** The state of a lane when n of its first 64 bits are taken: whole bytes are given back. */
  ghost predicate LaneStarts(s: seq<bool>, n: nat, word: nat) {
    && n <= 64
    && LaneAt(s, n, if 64 - n < 32 then 64 - n else 32, 32, Low(word, 32), (64 - n) % 8, 8 - (64 - n) / 8)
  }

  lemma StartLane(s: seq<bool>, n: nat, word: nat)
    requires n <= 64 && word == Field(s, n, 64 - n)
    ensures LaneStarts(s, n, word)
  {
    hide Field, Low;
    Rewind(s, n, 64 - n, 64, word, 64 - n, 8);
    Truncate(s, n, 64 - n, 64, word, (64 - n) % 8, 8 - (64 - n) / 8, 32);
  }

  // ----- the array

  /** Decodes an array, given the counts from its header. It succeeds exactly when the streams, decoded
      one field at a time, meet after the last symbol with five bytes as states, and then the array is
      those symbols and states. */
  method GetArrayTans(comp: seq<byte>, to: array<byte>, lbits: nat, larger: seq<SymCount>, singles: seq<nat>, stack: seq<byte>)
      returns (ok: bool)
    requires 8 <= lbits && CountsOk(lbits, larger, singles) && to.Length >= 5 && |stack| == TAIL_SIZE
    modifies to
    ensures TableOk(Table(lbits, larger, singles))
    ensures StatesOk(Opening(comp, lbits).states, |Table(lbits, larger, singles)|)
    ensures var r := Decode(Table(lbits, larger, singles), comp, Opening(comp, lbits), to.Length - 5);
      && (ok <==> Meets(comp, r))
      && (ok ==> to[..] == r.out + r.states)
  {
    hide Field, Low, Shr, Forward, Backward, Pow2, CountsOk, TableOk, StatesOk, Run, Meets, LaneAt, TableEntry;
    SmallTable(lbits, larger, singles);
    TableIsOk(lbits, larger, singles);
    OpeningStates(comp, lbits);
    if |comp| == 0 {
      NothingThere(Table(lbits, larger, singles), comp, lbits, to.Length - 5);
      return false;
    }
    var entries := new Entry[Pow2(lbits)];
    Fill(entries, lbits, larger, singles);
    assert entries[..] == Table(lbits, larger, singles);
    var word0, word1 := FirstWords(comp);
    OpenLane(Forward(comp), word0, lbits);
    OpenLane(Backward(comp), word1, lbits);
    var x1, x2 := Low(word0, lbits), Low(word1, lbits);
    word0, word1 := Shr(word0, lbits), Shr(word1, lbits);
    var x3, x4 := Low(word0, lbits), Low(word1, lbits);
    word0, word1 := Shr(word0, lbits), Shr(word1, lbits);
    var x5 := Low(word0, lbits);
    word0 := Shr(word0, lbits);
    var bitcnt0, bitcnt1 := 64 - 3 * lbits, 64 - 2 * lbits;
    var s := new KrakenTansState(entries[..], comp, to, to.Length - 5, [8 - bitcnt0 / 8, |comp| - 8 + bitcnt1 / 8],
                                 [Low(word0, 32), Low(word1, 32)], [bitcnt0 % 8, bitcnt1 % 8], [x1, x2, x3, x4, x5]);
    ok := DecodeTans(s, stack, Opening(comp, lbits),
                 if bitcnt0 < 32 then bitcnt0 else 32, if bitcnt1 < 32 then bitcnt1 else 32);
  }

  lemma NothingThere(table: seq<Entry>, comp: seq<byte>, lbits: nat, n: nat)
    requires comp == [] && lbits > 0 && TableOk(table) && StatesOk(Opening(comp, lbits).states, |table|)
    ensures !Meets(comp, Decode(table, comp, Opening(comp, lbits), n))
  {
    hide Field, Run, TableOk, StatesOk, Forward, Backward;
    RunNone(table, Forward(comp), Backward(comp), Opening(comp, lbits));
    Crossed(table, comp, Opening(comp, lbits), 0, n);
  }

  lemma SmallTable(lbits: nat, larger: seq<SymCount>, singles: seq<nat>)
    requires CountsOk(lbits, larger, singles)
    ensures lbits <= L_BITS_MAX
  {
  }
}
