# Models of the codecs

The emulator carries several codecs in its tree: an Oodle decompressor (`3rdparty/OodleSharp`), the image
reader and writer of stb (`3rdparty/stb`) and zlib's checksum (`3rdparty/zlib/adler32.c`). This project models
how they work and proves that every fast form agrees with a simple one, and that what one side writes the
other reads back. `dafny verify dfyconfig.toml` checks all of it.

The model keeps the form of the code. Readers and writers with fields are classes (`BitReader.ZBuf`,
`ZWriter.Writer`, `TansDecode.KrakenTansState`, `GifDecoder.Gif`, `JpegReader.Jpeg`, `VarBits.Reader`, the two
`Huffman` classes, `JpegWriter.BitWriter`); what is written in place is an array; loops are loops. Each method
is proved against a function or a predicate that says what its result means, and the main results are lemmas
about those, or methods that put a writer and a reader together. Fixed arrays inside structures and tables that
are only handed on are sequences. Machine words are natural numbers with explicit truncation, and the bit
operators are defined digit by digit in `Bits`.

Where a method takes a ghost argument that the code does not have (the tokens, the header or the coefficients
that are expected), its contract holds for every value of it: the code accepts whatever stands in the stream.
Two loops of the readers may not end; there the method returns when that is certain, and says so.

The groups, and what is proved of each as a whole:

- **tANS** (`Tans*`, `VarBits`, `MsbRegister`, `MsbFirst`, `Words`). The unpacked counts are of distinct symbols
  and fill the state space; the fill gives every slot the entry of exactly one state of one symbol, and a
  symbol's intervals partition the state space, so every message has a coding that decodes back. The bulk loop
  and the careful end loop, with overlapping word reads, rewinds and a copied tail, decode what a field-by-field
  decoder decodes; an array is accepted if and only if that decoder uses up the bytes exactly. Writers of the counts
  in either form, of the streams and of whole arrays, which are stated apart from the decoder (`TansWrite4`,
  `TansWriteDelta`, `TansWriter`, `TansRoundTrip`), are read back.
- **Oodle Huffman** (`OodleHuffman`, `OodleReverse`), **Kraken** (`Kraken`, `KrakenEncode`), **LZB16** (`Lzb16`,
  `Lzb16Encode`) and the copy kernels (`CopyKernels`, `CopySub`, `Lz77`). What the two decoders accept is exactly what
  a writer of tokens writes, and the result what the tokens make.
- **DEFLATE** (`Canonical`, `BitReverse`, `ZHuffman`, `BitReader`, `Deflate`, `Turns`, `InflateEnds`, `Inflate`,
  `DynamicCodes`, `FixedCodes`, `Zlib`, `InflateForever`, `ZWriter`, `Compress`, `RoundTrip`). Canonical codes, RFC 1951
  section 3.2.2, in both tables of the inflater; inflating is sound and complete for streams of blocks, and when it ends
  is decided for all codes; compressing and inflating gives the data back.
- **PNG** (`Png*`, `Adam7`), **GIF** (`Gif*`), **JPEG** (`Jpeg*`), run lengths (`Packets`, `HdrRle`, `TgaRle`).
- **Adler-32** (`Adler`).

Places where the code does less than one might expect, stated exactly:

- `stbi_zlib_compress` of no data writes a header and a trailer but no block, and the inflater rejects that
  (`RoundTrip.CompressThenInflate`: the data come back if and only if there are some).
- The inflater's loop over a dynamic block may go on for ever past the end of its input, where reading extra bits
  fills the buffer with zeros. It ends within 33 turns of the end or never (`InflateEnds.EndsInTime`), and always
  if zeros do not stand for a length symbol, as in every fixed block (`InflateEnds.EndsAnyway`); for the other codes
  the bit counts decide (`InflateEnds.EndsUnlessStuck`). A block that does not end is of one of two kinds
  (`InflateEnds.StuckGrows`): if zeros stand for a length that is not zero, the original grows its output at every turn,
  until it is refused the memory; if they stand for a length of zero, nothing changes any more. With length symbol 286
  and distance symbol 28 as the only symbols, in 1 and 10 bits, 17 to 19 bits in the buffer and 16385 bytes output, that
  is so (`InflateEnds.NeverEnds`), and a stored block of 16385 bytes with such a block behind it is a whole stream that
  comes to it (`InflateForever.NeverInflated`).
- The HDR reader goes round for ever when the data end inside a scanline (`HdrRle.EndsExactly`, `HdrRle.CutOff`).
- A JPEG table of 256 symbols is accepted, but the last of them, if its code is of at most nine bits, has the mark of
  no entry in the fast table and is taken for another symbol (`JpegReader.Jpeg.HuffDecode`, `JpegLookup.BlindFound`).
  That is what the original does without assertions; with them it stops at the assertion in
  `3rdparty/stb/stb_image.h:2115`, which compares the code found with the bits in the register.
- The JPEG reader goes on with zeros behind the end of a segment: a block that is cut off may be refused or be taken for
  the block that zeros complete (`JpegBlock.DecodeBlock`).
- LZB16 compares a match's offset with the distance to the start of the window cut to 32 bits. That never admits too
  much (`Lzb16.CastIsSafe`) and is exact in windows of up to 4 GiB (`Lzb16.CastIsExact`); after 4 GiB not even the byte
  before can be copied (`Lzb16.CastRefuses`).
- `rrVarBits_Get1` refills one bit too late. With an empty register and bytes outside it gives 0, whatever the next
  bit is, and falls out of step (`VarBits.Reader.Get1`, `VarBits.OneIsMissed`); all calls that are modelled refill
  before.

The unsigned comparison by which the Kraken parser checks an offset passes every offset when the window is
empty; it is right if and only if the window is not (`Kraken.UnsignedCheck`), and the first chunk of a window
starts behind bytes that are already in place, so it never is (`Kraken.DecodeChunk`).

## Model

| member | source | states |
|---|---|---|
| `TansSpec.SomeReaches` | 3rdparty/OodleSharp/OodleDecompressor.cs:6215-6306 | for every count up to L, every state lies in the interval [nextst, nextst + 2^len) of one of the symbol's states |
| `TansSpec.ReachesOnce` | 3rdparty/OodleSharp/OodleDecompressor.cs:6215-6306 | and of no other: the intervals of a symbol are disjoint |
| `TansBuckets.RunsAddUp` | 3rdparty/OodleSharp/OodleDecompressor.cs:6264-6304 | the runs of a symbol in the four buckets are together as long as its count |
| `TansBuckets.BucketsAddUp` | 3rdparty/OodleSharp/OodleDecompressor.cs:6166-6176 | the four buckets together are as long as the counts above one |
| `TansBuckets.OwnerUnique` | 3rdparty/OodleSharp/OodleDecompressor.cs:6166-6306 | a place in a bucket belongs to one symbol: the runs of the symbols neither overlap nor leave gaps |
| `TansTable.SlotOwner` | 3rdparty/OodleSharp/OodleDecompressor.cs:6154-6310 | the slot of the q-th state of a symbol stands for that state |
| `TansTable.SlotUnique` | 3rdparty/OodleSharp/OodleDecompressor.cs:6154-6310 | every slot is the slot of what it stands for; slots and states correspond one to one |
| `TansTable.SlotCount` | 3rdparty/OodleSharp/OodleDecompressor.cs:6154-6310 | a symbol has exactly as many slots as it counts |
| `TansTable.EncodeStep` | 3rdparty/OodleSharp/OodleDecompressor.cs:6154-6310 | from every state, some slot decodes to a given symbol and leads there: the encoder's step exists |
| `TansTable.EncodeUnique` | 3rdparty/OodleSharp/OodleDecompressor.cs:6154-6310 | and only one slot does: decoding inverts encoding |
| `TansTable.NextState` | 3rdparty/OodleSharp/OodleDecompressor.cs:6154-6310 | from every slot, whatever bits are read, decoding stays inside the table |
| `TansOrder.TableOrder` | 3rdparty/OodleSharp/OodleDecompressor.cs:6154-6306 | by counting alone, which state a slot holds: four buckets one behind the other, as long as there are states with each number modulo four; in a bucket symbol behind symbol; the states of a symbol numbered in the order of the slots |
| `TansFill.FillRun` | 3rdparty/OodleSharp/OodleDecompressor.cs:6268-6303 | a run of entries written as words, adding the increment word each time, is the arithmetic progression of next states, and nothing else is touched |
| `TansFill.LowEntries` | 3rdparty/OodleSharp/OodleDecompressor.cs:6244-6276 | the states below the threshold have the entries of the first progression |
| `TansFill.HighEntries` | 3rdparty/OodleSharp/OodleDecompressor.cs:6244-6290 | the states above it have those of the second, with one bit less |
| `TansBuild.StartBuckets` | 3rdparty/OodleSharp/OodleDecompressor.cs:6166-6176 | the bucket pointers start where each bucket starts, after the longer ones |
| `TansBuild.LargeSymbol` | 3rdparty/OodleSharp/OodleDecompressor.cs:6242-6306 | a symbol with more than four states gets, in every bucket, its run of states, and the pointers advance past them |
| `TansBuild.SmallSymbol` | 3rdparty/OodleSharp/OodleDecompressor.cs:6215-6241 | so does one with up to four, whose buckets are taken from a bit mask, lowest first |
| `TansBuild.Fill` | 3rdparty/OodleSharp/OodleDecompressor.cs:6154-6310 | the whole table: every slot holds the entry of the state it stands for, large symbols, small ones and single ones |
| `TansEncode.Encode` | 3rdparty/OodleSharp/OodleDecompressor.cs:6154-6310 | every message with every five final states has bits from which the table gives it back, at every point of the message |
| `TansEncode.DecodeEncode` | 3rdparty/OodleSharp/OodleDecompressor.cs:6154-6310 | decoding those bits from the start state gives the message, the final states and uses all bits |
| `TansWriter.CodingDecodes` | 3rdparty/OodleSharp/OodleDecompressor.cs:6154-6310 | the writer by name: from the last symbol back, states halved until they are below twice the count, the bits that fall off dealt to two streams, five symbols to one and five to the other; decoding gives the symbols, the states and the end of both streams |
| `TansSort.SortAscending` | 3rdparty/OodleSharp/OodleDecompressor.cs:5952-5980 | the sorted list is in order and has the same elements |
| `TansSort.InsertInPlace` | 3rdparty/OodleSharp/OodleDecompressor.cs:5954-5963 | shifting the larger elements up and filling the gap is insertion behind the last element that is not larger |
| `TansSort.SmallInsertionSort` | 3rdparty/OodleSharp/OodleDecompressor.cs:5952-5980 | sorts the first n elements in place and leaves the others |
| `TansCounts.SplitOk` | 3rdparty/OodleSharp/OodleDecompressor.cs:6013-6033 | splitting a fair list of counts into single and larger ones loses no symbol, makes none twice, and keeps the sum |
| `TansCounts.SortedOk` | 3rdparty/OodleSharp/OodleDecompressor.cs:6034-6036 | sorting both parts keeps that |
| `TansUnpack4.UnPackPairs` | 3rdparty/OodleSharp/OodleDecompressor.cs:6007-6024 | accepts exactly the pairs of distinct symbols with counts of at least one and a sum below L, stopping at the first that is wrong |
| `TansUnpack4.UnPackCounts4` | 3rdparty/OodleSharp/OodleDecompressor.cs:5982-6043 | accepts exactly the headers whose list is ascending, of distinct symbols, and leaves at least two for the last; hands over the list split and sorted |
| `TansUnpack4.GoodIsOk` | 3rdparty/OodleSharp/OodleDecompressor.cs:5982-6043 | an accepted header gives counts of distinct symbols that sum to L |
| `TansWrite4.Header4IsWritten` | 3rdparty/OodleSharp/OodleDecompressor.cs:5982-6043 | the counts read are exactly those written there: number, width of the differences, symbol and difference of all but the last, and the last symbol; both ways, for all bits |
| `TansShape.DecodeNumEg` | 3rdparty/OodleSharp/OodleDecompressor.cs:760-782 | the number of run lengths is what the truncated binary code in front says, and exactly its bits are consumed |
| `TansShape.TruncatedBijective` | 3rdparty/OodleSharp/OodleDecompressor.cs:765-780 | every number below the bound has exactly one such code |
| `TansShape.DecodeUnaryBlock` | 3rdparty/OodleSharp/OodleDecompressor.cs:784-822 | the numbers, kept modulo 256, whose unary codes come next, and the bit behind them; it fails exactly if the bits run out of ones |
| `TansShape.UnaryExactly` | 3rdparty/OodleSharp/OodleDecompressor.cs:784-822 | numbers are read from some bits if and only if these are their unary codes |
| `TansShape.PlaceRuns` | 3rdparty/OodleSharp/OodleDecompressor.cs:977-1003 | summing lengths and gaps in place gives all runs with their starts; it fails exactly if the last run would be empty or reach past the 256 symbols |
| `TansShape.PlacedIsRuns` | 3rdparty/OodleSharp/OodleDecompressor.cs:977-1003 | the runs placed are not empty, do not touch, stay below 256 and have as many symbols as the header says |
| `TansShape.DecodeRunLens` | 3rdparty/OodleSharp/OodleDecompressor.cs:954-1004 | from any bits, exactly the runs that the lengths in them give, and the bit behind; refused exactly if there is no room for them |
| `TansShape.ReadIsRuns` | 3rdparty/OodleSharp/OodleDecompressor.cs:954-1004 | whatever the bits, runs that are read are those of an alphabet of as many symbols as the header says |
| `TansUnpackDelta.UnfoldBijective` | 3rdparty/OodleSharp/OodleDecompressor.cs:5927-5944 | for every prediction, differences and counts correspond one to one |
| `TansUnpackDelta.UnPackRuns` | 3rdparty/OodleSharp/OodleDecompressor.cs:6073-6126 | the counts of all runs are those that the bits stand for, each symbol of the alphabet having its own; it fails exactly if one has too many bits or the sum is not L; what these are, `TansWriteDelta.DeltaIsWritten` |
| `TansUnpackDelta.UnPackCountDelta` | 3rdparty/OodleSharp/OodleDecompressor.cs:6045-6127 | the whole unpacker accepts exactly the headers that can be read and whose counts sum to L, and then gives these counts and the bit behind them; what these are, `TansWriteDelta.DeltaIsWritten` |
| `TansUnpackDelta.DeltaIsOk` | 3rdparty/OodleSharp/OodleDecompressor.cs:6045-6127 | an accepted header gives counts of distinct symbols that fill the state space, as many as it says |
| `TansWriteDelta.DeltaIsWritten` | 3rdparty/OodleSharp/OodleDecompressor.cs:6045-6127 | the counts read are exactly those written there, by a writer whose running prediction starts at 6/4, is a quarter of the state, and adds the count without one but at most doubles: parameter, number of symbols, truncated binary number of run lengths, unary prefixes, Exp-Golomb runs and gaps, folded differences; both ways, for all bits |
| `TansAnyList.AnyListIsRead` | 3rdparty/OodleSharp/OodleDecompressor.cs:6045-6127 | every list of counts of ascending symbols that fills a state space of up to 2^11 has a header, for each of the eight parameters, and is read back from it |
| `VarBits.Reader.Get` | 3rdparty/OodleSharp/OodleDecompressor.cs:588-595 | the next bits as a number, zeros past the end, and moves on by exactly as many |
| `VarBits.Reader.Get1` | 3rdparty/OodleSharp/OodleDecompressor.cs:578-585 | the next bit if the register holds one or nothing is left outside, and it keeps step with the stream exactly then; otherwise 0 |
| `VarBits.OneIsMissed` | 3rdparty/OodleSharp/OodleDecompressor.cs:578-585 | a state in which that 0 is wrong: an empty register before a first bit that is a one |
| `VarBits.Reader.Refill` | 3rdparty/OodleSharp/OodleDecompressor.cs:566-575 | refilling changes nothing in the stream and leaves more than 56 bits, or all there are |
| `VarBits.Reader.ToBlock` | 3rdparty/OodleSharp/OodleDecompressor.cs:5907-5913 | the byte and bit position of the next bit |
| `TansHeader.UnPackCounts` | 3rdparty/OodleSharp/OodleDecompressor.cs:6129-6152 | exactly the counts that stand in the stream, in either form, and the bit behind them, or exactly their refusal; what these are, `TansWriteDelta.DeltaIsWritten` and `TansWrite4.Header4IsWritten` |
| `TansHeader.CountsAtOk` | 3rdparty/OodleSharp/OodleDecompressor.cs:6129-6152 | whatever the bits, counts that are accepted are of distinct symbols and fill the state space |
| `TansHeader.GetArray` | 3rdparty/OodleSharp/OodleDecompressor.cs:6645-6778 | on any input: succeeds if and only if the header is accepted and the two streams meet, and then has written exactly what the field-by-field decoder makes of them; what that is, `TansRoundTrip.ArrayIsRead` |
| `TansRoundTrip.ArrayIsRead` | 3rdparty/OodleSharp/OodleDecompressor.cs:6645-6778 | whatever the counts, their form and the text: header, counts, opening states and both streams as written are accepted, the header is the one written, and the streams hold the text |
| `TansRoundTrip.WriteThenRead` | 3rdparty/OodleSharp/OodleDecompressor.cs:6645-6778 | decoding a written array uses all of it and gives the text back |
| `TansRoundTrip.AnyTextIsHeld` | 3rdparty/OodleSharp/OodleDecompressor.cs:6645-6778 | every text of five bytes or more, all but the last five of which occur in the counts, has an array that holds it and no other of its length |
| `TansStream.OrOver` | 3rdparty/OodleSharp/OodleDecompressor.cs:6539-6545 | ORing the next word in above the bits that are there changes none of them and fills the register |
| `TansStream.Refill` | 3rdparty/OodleSharp/OodleDecompressor.cs:6539-6545 | the bulk refill with its pointer and count updates keeps the reader on the stream |
| `TansStream.Rewind` | 3rdparty/OodleSharp/OodleDecompressor.cs:6620-6630 | giving back whole bytes on exit keeps it there |
| `TansDecode.DecodeTen` | 3rdparty/OodleSharp/OodleDecompressor.cs:6547-6617 | ten symbols without a refill in between are ten steps of the reference decoder |
| `TansDecode.BulkLoop` | 3rdparty/OodleSharp/OodleDecompressor.cs:6534-6618 | the bulk loop gives the symbols, states and positions of the reference, nothing written beyond |
| `TansDecode.KrakenTansState.DecodeBulk` | 3rdparty/OodleSharp/OodleDecompressor.cs:6512-6636 | the same for the structure that holds the decoder's state |
| `TansTail.RunAdd` | 3rdparty/OodleSharp/OodleDecompressor.cs:6312-6510 | the reference decoder can be stopped and resumed |
| `TansTail.SeenRun` | 3rdparty/OodleSharp/OodleDecompressor.cs:6345-6375 | decoding from the copied tail is decoding from the whole buffer, or both run past the end |
| `TansEnd.LaneSwitch` | 3rdparty/OodleSharp/OodleDecompressor.cs:6355-6375 | moving a stream to the tail buffer keeps its bits |
| `TansEnd.GiveBack` | 3rdparty/OodleSharp/OodleDecompressor.cs:6500-6504 | whole bytes that are not begun are given back at the end |
| `TansFinish.Round` | 3rdparty/OodleSharp/OodleDecompressor.cs:6377-6497 | a round of the end loop is as many steps of the reference |
| `TansX2.Finish` | 3rdparty/OodleSharp/OodleDecompressor.cs:6312-6510 | the end loop succeeds exactly when the reference uses up the bytes and ends in five byte states |
| `TansX2.DecodeTans` | 3rdparty/OodleSharp/OodleDecompressor.cs:6512-6643 | bulk and end loop together: accepted if and only if the reference meets, and then its symbols and states |
| `TansArray.FirstWords` | 3rdparty/OodleSharp/OodleDecompressor.cs:6680-6776 | the first words of both streams, from a zeroed copy if the buffer is short |
| `TansArray.GetArrayTans` | 3rdparty/OodleSharp/OodleDecompressor.cs:6668-6776 | fill, open and decode: accepted if and only if the reference meets |
| `TansArray.TableIsOk` | 3rdparty/OodleSharp/OodleDecompressor.cs:6154-6310 | no entry of a filled table leads outside it |
| `OodleHuffman.Build` | 3rdparty/OodleSharp/OodleDecompressor.cs:1007-1049 | the builder succeeds if and only if the sum of num(len) * 2^(11 - len) is 2048, and then every 11-bit window has the entry of the code it starts with |
| `OodleHuffman.StartsUnique` | 3rdparty/OodleSharp/OodleDecompressor.cs:1007-1049 | no window starts with two codes |
| `OodleReverse.ReverseTwice` | 3rdparty/OodleSharp/OodleDecompressor.cs:636-651 | the table-driven 11-bit reversal is its own inverse |
| `OodleReverse.StartsIsPrefix` | 3rdparty/OodleSharp/OodleDecompressor.cs:1051-1058 | starting with a code, read least significant bit first, is having its bits in front, and the other way round |
| `OodleReverse.PrefixUnique` | 3rdparty/OodleSharp/OodleDecompressor.cs:1007-1064 | if the codes leave no window over, no window has the bits of two codes in front |
| `OodleReverse.BuildTable` | 3rdparty/OodleSharp/OodleDecompressor.cs:1007-1064 | builder and reversal together: the entry of a window is that of the only symbol whose code bits it has in front, with its length |
| `Lz77.CopyBackAt` | 3rdparty/OodleSharp/OodleDecompressor.cs:71-186 | what every byte of an overlapping copy is |
| `Lz77.CopyBackReproduces` | 3rdparty/stb/stb_image_write.h:957-966 | copying back reproduces data that repeat |
| `CopyKernels.CopyBytes` | 3rdparty/OodleSharp/OodleDecompressor.cs:32-69 | a copy in blocks copies exactly count bytes |
| `CopyKernels.Broadcast` | 3rdparty/OodleSharp/OodleDecompressor.cs:144-158 | a byte times 0x0101..01 is that byte in every place |
| `CopyKernels.CopyMatch` | 3rdparty/OodleSharp/OodleDecompressor.cs:71-186 | for every offset of at least one and every count, equals the copy of one byte at a time, overlapping or not; nothing beyond is written |
| `CopySub.SwarAddsBytes` | 3rdparty/OodleSharp/OodleDecompressor.cs:188-236 | the 0x7F7F.. formula adds all bytes of a word, each modulo 256 |
| `CopySub.CopySub` | 3rdparty/OodleSharp/OodleDecompressor.cs:188-236 | for every offset of at least eight, equals adding one byte at a time |
| `CopySub.AddBackAt` | 3rdparty/OodleSharp/OodleDecompressor.cs:188-236 | each byte of the added literals is the sum, modulo 256, of its literal and the byte the offset back |
| `Kraken.UnsignedCheck` | 3rdparty/OodleSharp/OodleDecompressor.cs:5635-5639 | the unsigned comparison rejects exactly the offsets before the window, if the window is not empty |
| `Kraken.DecodePacket` | 3rdparty/OodleSharp/OodleDecompressor.cs:5548-5657 | one packet: literals, match, recent offsets and excess lengths are those of the replay, which fails exactly when this does; what that is, `KrakenEncode.ChunkIsWritten` |
| `Kraken.DecodeParse` | 3rdparty/OodleSharp/OodleDecompressor.cs:5521-5694 | the parse succeeds if and only if the packets stand for a chunk, with all offsets and excesses used, and then the window is what they stand for; nothing outside the chunk is written; what that is, `KrakenEncode.ChunkIsWritten` |
| `Kraken.DecodeChunk` | 3rdparty/OodleSharp/OodleDecompressor.cs:5500-5519 | the same for a chunk of either type, with the first bytes of a window in place; what that is, `KrakenEncode.ChunkIsWritten` |
| `Kraken.ChunkFills` | 3rdparty/OodleSharp/OodleDecompressor.cs:5521-5694 | a replayed chunk fills its place exactly and keeps what was before |
| `KrakenEncode.ChunkIsWritten` | 3rdparty/OodleSharp/OodleDecompressor.cs:5521-5694 | for all streams and packets: the chunk is exactly what the tokens make that some writer wrote as these packets, offsets, excesses and literals. Literals are appended or added at the last distance, matches copied at the token's own distance and length; three last distances, moved to the front; three literals and matches of 17 bytes and more in full |
| `Lzb16.ReplayFills` | 3rdparty/OodleSharp/OodleDecompressor.cs:5059-5222 | a replay appends exactly up to the end and never beyond |
| `Lzb16.DecodeOneQuantum` | 3rdparty/OodleSharp/OodleDecompressor.cs:5059-5222 | terminates on every input; returns -1 exactly when the commands do not stand for the raw length, else that length, the output being their replay, which compares offsets in 32 bits; what that is, `Lzb16Encode.ReplayIsWritten` |
| `Lzb16.CastIsSafe` | 3rdparty/OodleSharp/OodleDecompressor.cs:5117-5189 | whatever is accepted is what the commands stand for without the cast to 32 bits |
| `Lzb16.CastIsExact` | 3rdparty/OodleSharp/OodleDecompressor.cs:5117-5189 | in windows of up to 4 GiB the cast changes nothing, for all commands |
| `Lzb16.CastRefuses` | 3rdparty/OodleSharp/OodleDecompressor.cs:5117-5189 | commands that stand for four bytes more behind 4 GiB, and are refused |
| `Lzb16Encode.ReplayIsWritten` | 3rdparty/OodleSharp/OodleDecompressor.cs:5059-5222 | for all data: the replay is exactly what the tokens make that some writer wrote, in all forms of a command: lengths of one byte up to 191 and of two, short matches, near ones with offsets below eight, long ones, and the run at the end that may be longer than there is room for |
| `BitReverse.BitReverseNIsRev` | 3rdparty/stb/stb_image.h:4050-4065 | the mask-and-shift reversal reverses the digits |
| `Canonical.PrefixFree` | 3rdparty/stb/stb_image.h:4067-4112 | canonical codes that fit are prefix-free |
| `Canonical.MatchUnique` | 3rdparty/stb/stb_image.h:4067-4112 | at most one symbol matches a bit string |
| `Canonical.FitsIsKraft` | 3rdparty/stb/stb_image.h:4088-4099 | the builder's length-by-length test is Kraft's inequality |
| `ZHuffman.Huffman.Build` | 3rdparty/stb/stb_image.h:4067-4112 | accepts exactly the length lists that satisfy Kraft's inequality, and then builds tables of the canonical code |
| `BitReader.FastHit` | 3rdparty/stb/stb_image.h:4185-4203 | a fast entry gives the symbol whose code the window starts with |
| `BitReader.FastMiss` | 3rdparty/stb/stb_image.h:4185-4203 | the entry is zero exactly when no code of at most nine bits matches |
| `BitReader.SlowHit` | 3rdparty/stb/stb_image.h:4166-4183 | the first length whose preshifted maximum is above the window is that of the code, and the index is the symbol's place |
| `BitReader.ZBuf.FillBits` | 3rdparty/stb/stb_image.h:4144-4154 | a refill adds bytes until more than 24 bits are buffered, and leaves the stream where it was |
| `BitReader.ZBuf.Receive` | 3rdparty/stb/stb_image.h:4156-4164 | the next n bits as a number; refills exactly if fewer are buffered |
| `BitReader.ZBuf.Decode` | 3rdparty/stb/stb_image.h:4166-4203 | the symbol whose code comes next; it gives up if and only if there is none, or fewer than 16 bits are buffered and no bytes are left |
| `Inflate.ReadToken` | 3rdparty/stb/stb_image.h:4240-4280 | one token: exactly the one whose bits come next; and how many bits it leaves buffered, or that it gives up, is what one turn of the loop says |
| `Turns.SameRun` | 3rdparty/stb/stb_image.h:4240-4280 | past the end of the input only the number of buffered bits counts, and more output is no hindrance |
| `InflateEnds.EndsInTime` | 3rdparty/stb/stb_image.h:4240-4280 | the loop over a block ends at all if and only if it does within as many turns as the input has bits and 33 more |
| `InflateEnds.EndsAnyway` | 3rdparty/stb/stb_image.h:4240-4280 | it always ends if the all-zero literal or length code is not that of a length |
| `InflateEnds.FixedBlocksEnd` | 3rdparty/stb/stb_image.h:4240-4280 | fixed blocks are such: there zeros end the block |
| `InflateEnds.EndsUnlessStuck` | 3rdparty/stb/stb_image.h:4240-4280 | past the end of the input, with any codes, it goes on for ever if and only if the distance that zeros stand for lies within the output and the buffer outlasts 33 turns of reading zeros |
| `InflateEnds.StuckGrows` | 3rdparty/stb/stb_image.h:4240-4280 | then every turn makes the output longer if the length that zeros stand for is not zero, and leaves it as it is if it is |
| `InflateEnds.EndsExactly` | 3rdparty/stb/stb_image.h:4240-4280 | from anywhere, it ends unless it uses up the input and is stuck there |
| `InflateEnds.NeverEnds` | 3rdparty/stb/stb_image.h:4240-4280 | codes for which, with 17 to 19 zero bits buffered behind the end and 16385 bytes output, a turn leaves buffer and output as they were, and so every turn |
| `Turns.BufferPast` | 3rdparty/stb/stb_image.h:4144-4164 | behind the end, and where only zeros are left, the bit buffer is zero: of the reader's state only the number of bits and the output count |
| `Inflate.ParseHuffmanBlock` | 3rdparty/stb/stb_image.h:4240-4280 | it ends if and only if the loop does, and accepts if and only if that ends well; what an accepted block appends is what the tokens in the stream make of the output; every valid block that is followed by 16 bits is accepted |
| `Inflate.RealizesIsReplay` | 3rdparty/stb/stb_image.h:4240-4280 | without reserved distance symbols, what tokens make of the output is their replay |
| `Inflate.ParseUncompressedBlock` | 3rdparty/stb/stb_image.h:4332-4359 | a stored block is aligned, checked by its complement and copied, or rejected |
| `DynamicCodes.ComputeHuffmanCodes` | 3rdparty/stb/stb_image.h:4282-4330 | the codes built are those of the header in the stream, and every valid header is accepted; how many bits it leaves buffered follows from those before; how a header stands for them, `DynamicCodes.PermutedAt` and `DynamicCodes.Repetitions` |
| `DynamicCodes.PermutedAt` | 3rdparty/stb/stb_image.h:4284-4298 | where the lengths of the code length code go, by arithmetic: 16, 17, 18, 0, and from the fourth on alternately up from 8 and down from 7; zero elsewhere |
| `DynamicCodes.Repetitions` | 3rdparty/stb/stb_image.h:4300-4325 | what symbols 0 to 18 say: a length; the one before 3 to 6 times by two bits; zeros, 3 to 10 by three bits, 11 to 138 by seven |
| `FixedCodes.FixedCodeIsCanonical` | 3rdparty/stb/stb_image_write.h:884-889 | the writer's arithmetic codes are the canonical code of the fixed lengths |
| `FixedCodes.DistCodeIsCanonical` | 3rdparty/stb/stb_image_write.h:963-965 | and the distance codes are five bits each |
| `Zlib.ParseZlib` | 3rdparty/stb/stb_image.h:4404-4430 | output is what the stream's blocks make of nothing, and every stream of valid blocks is accepted whose coded blocks are followed by 16 more bits; it does not end only in a block whose loop does not, behind the valid blocks that were read, at their bit position, with their output and buffered bits; and it does not end in any stream of valid blocks that goes on with such a block |
| `Zlib.BlocksAreReplay` | 3rdparty/stb/stb_image.h:4404-4430 | without reserved distance symbols that output is the replay of the blocks |
| `Zlib.HeaderRule` | 3rdparty/stb/stb_image.h:4361-4374 | the header is accepted exactly if its method is 8, it asks for no dictionary and is a multiple of 31 |
| `Deflate.LengthRule` | 3rdparty/stb/stb_image.h:4226-4232 | the table of lengths by rule: bases follow one another without gaps, extra bits grow every four symbols; the longest has its own |
| `Deflate.DistRule` | 3rdparty/stb/stb_image.h:4234-4238 | the table of distances by rule |
| `Zlib.EndlessIsStuck` | 3rdparty/stb/stb_image.h:4240-4280 | such a block is dynamic, its all-zero code is that of a length, and the loop is stuck behind the end of the input |
| `InflateForever.NeverInflated` | 3rdparty/stb/stb_image.h:4404-4430 | for any 16385 bytes, a stream of a stored block with them and a dynamic block behind it is one on which the inflater does not end |
| `ZWriter.Bitrev` | 3rdparty/stb/stb_image_write.h:849-857 | reverses the low bits of a code |
| `ZWriter.Writer.Add` | 3rdparty/stb/stb_image_write.h:880-881 | appends the low bits of a code to the stream |
| `ZWriter.Writer.Huff` | 3rdparty/stb/stb_image_write.h:884-889 | appends the fixed code of a symbol |
| `Compress.Countm` | 3rdparty/stb/stb_image_write.h:859-865 | the common length of two places, up to 258 |
| `Compress.FindBest` | 3rdparty/stb/stb_image_write.h:924-933 | the longest match of the chain, the last one among equals, inside the window |
| `Compress.LengthTable` | 3rdparty/stb/stb_image_write.h:901-902 | the writer's length bounds are the bases of the format, no wider apart than the extra bits |
| `Compress.DistTable` | 3rdparty/stb/stb_image_write.h:903-904 | the same for distances |
| `Compress.WriteMatch` | 3rdparty/stb/stb_image_write.h:957-966 | a match is written as the token of its length and distance |
| `Compress.DeflateBlock` | 3rdparty/stb/stb_image_write.h:911-982 | for every quality, the bits are those of tokens that replay to the data, with lengths from 3 to 258 and distances from 1 to 32767 |
| `RoundTrip.StoreBlocks` | 3rdparty/stb/stb_image_write.h:984-999 | the stored form is blocks of at most 32767 bytes of the data |
| `RoundTrip.ZlibCompress` | 3rdparty/stb/stb_image_write.h:895-1012 | whichever form is taken, a stream of blocks for the data that the inflater must accept, within the stored size, with the checksum behind |
| `RoundTrip.TrailerIsPacked` | 3rdparty/stb/stb_image_write.h:1012-1015 | the four bytes at the end, highest first, are the second sum times 65536 and the first |
| `RoundTrip.CompressThenInflate` | 3rdparty/stb/stb_image_write.h:895-1012 | compressing and inflating gives the data back if and only if there are any |
| `Adler.NoOverflow` | 3rdparty/zlib/adler32.c:61-125 | NMAX bytes never overflow 32 bits in either sum |
| `Adler.NmaxIsLargest` | 3rdparty/zlib/adler32.c:10-12 | one byte more can |
| `Adler.Mod28` | 3rdparty/zlib/adler32.c:31-35 | exact below 2^28 |
| `Adler.Mod` | 3rdparty/zlib/adler32.c:36-40 | exact on 32 bits |
| `Adler.Mod63` | 3rdparty/zlib/adler32.c:41-53 | exact on every non-negative 63-bit number |
| `Adler.Adler32Z` | 3rdparty/zlib/adler32.c:61-125 | equals reducing after every byte, section 2.2 of RFC 1950, for every length and valid start |
| `Adler.ClosedForm` | 3rdparty/zlib/adler32.c:61-131 | the two sums without recursion over reductions: one and all bytes; their number and each byte as often as there are bytes from it on; both modulo 65521 |
| `Adler.WriterAdler` | 3rdparty/stb/stb_image_write.h:1001-1011 | the differently blocked loop of the PNG writer gives the same |
| `Adler.ChecksumConcat` | 3rdparty/zlib/adler32.c:61-125 | the checksum of two parts in turn is that of both |
| `Adler.Combine` | 3rdparty/zlib/adler32.c:133-155 | of the packed checksums of two texts and the length of the second: the packed checksum of both in turn; for any sums the combination formula modulo 65521, fully reduced; a negative length gives 0xffffffff |
| `Adler.CombineIsConcat` | 3rdparty/zlib/adler32.c:133-155 | and that formula gives the checksum of the concatenation, for all byte sequences |
| `PngSpec.PaethNearest` | 3rdparty/stb/stb_image.h:4580-4593 | the predictor is one of its three arguments, and none is nearer to a + b - c; which of several, `PngSpec.PaethOrder` |
| `PngSpec.PaethOrder` | 3rdparty/stb/stb_image.h:4580-4593 | over the three distances: left if it is no farther than above and the corner, else above if it is no farther than the corner, else the corner |
| `PngSpec.FilterTypes` | 3rdparty/stb/stb_image.h:4640-4716 | each of the five predictions by arithmetic, the average r by 2r <= a + b < 2r + 2 |
| `PngSpec.FilterSums` | 3rdparty/stb/stb_image.h:4640-4716 | the reconstructed byte, less the byte read, is the prediction modulo 256 |
| `PngSpec.FiltersUnique` | 3rdparty/stb/stb_image.h:4594-4716 | at most one row is filtered to given bytes |
| `PngWriter.EncodeLine` | 3rdparty/stb/stb_image_write.h:1092-1126 | for every filter, and the remapped ones of the first row, the line is the row filtered, by the predictions of `PngSpec.FilterTypes` |
| `PngWriter.Estimate` | 3rdparty/stb/stb_image_write.h:1156-1160 | the sum of the magnitudes of a line |
| `PngWriter.SignedIsNearest` | 3rdparty/stb/stb_image_write.h:1156-1160 | the magnitude of a byte is its distance to zero modulo 256 |
| `PngWriter.ChooseAndEncode` | 3rdparty/stb/stb_image_write.h:1147-1170 | the line is the row filtered by the filter given or, if none is given, by one that no filter beats |
| `PngWriter.FilterImage` | 3rdparty/stb/stb_image_write.h:1128-1174 | every row of the image, for every stride and direction |
| `PngReader.DecodeRow` | 3rdparty/stb/stb_image.h:4640-4716 | what the row holds afterwards is filtered to the bytes read; an added alpha is 255; the predictions are those of `PngSpec.FilterTypes` |
| `PngReader.CreateImageRaw` | 3rdparty/stb/stb_image.h:4594-4716 | succeeds if and only if there are enough bytes and every filter is known, and then every row is reconstructed, by the predictions of `PngSpec.FilterTypes` |
| `PngRoundTrip.WriteThenRead` | 3rdparty/stb/stb_image_write.h:1128-1178 | filtering, compressing, inflating and reconstructing gives the pixels back, opaque if alpha is added |
| `Adam7.OnePass` | 3rdparty/stb/stb_image.h:4816-4846 | every pixel is in exactly one of the seven passes |
| `Adam7.Refines` | 3rdparty/stb/stb_image.h:4816-4846 | after pass p, for every p, the pixels there are those of an evenly spaced grid, of which each pass halves the distance, of columns and rows in turn |
| `Adam7.Deinterlace` | 3rdparty/stb/stb_image.h:4806-4850 | every pixel of the image is written, from its place in its pass, for every size |
| `GifCursor.AdvanceVisits` | 3rdparty/stb/stb_image.h:6599-6610 | every move visits one pixel more, which was not visited before |
| `GifCursor.Bijection` | 3rdparty/stb/stb_image.h:6599-6610 | the cursor leaves the rectangle exactly after as many pixels as it has |
| `GifCursor.PixelAt` | 3rdparty/stb/stb_image.h:6599-6610 | where the cursor is after any number of pixels, in closed form: every eighth row, those between, every second and every other |
| `GifLzw.StepOk` | 3rdparty/stb/stb_image.h:6613-6696 | in every reachable state the dictionary keeps its form and the code width is one to thirteen; exactly which, `GifWidth.ReachedWidth` |
| `GifWidth.ReachedWidth` | 3rdparty/stb/stb_image.h:6613-6696 | in every state that codes lead to, for colours of 2 to 11 bits, the code width is that of the dictionary's size, and twelve from 4096 entries on |
| `GifWidth.ReachedThirteen` | 3rdparty/stb/stb_image.h:6613-6696 | colours of twelve bits have codes of thirteen bits in every state |
| `GifEncode.RasterRead` | 3rdparty/stb/stb_image.h:6613-6696 | a raster of any segments of codes, written in sub-blocks of any sizes behind clear codes in the width of the dictionary's size, is read back as the phrases that the codes stand for |
| `GifEncode.PlainSound` | 3rdparty/stb/stb_image.h:6613-6696 | any colours can be written so |
| `GifDecoder.Gif.OutCode` | 3rdparty/stb/stb_image.h:6576-6611 | the recursion over prefixes, each a smaller code, terminates and draws the dictionary string of the code |
| `GifDecoder.Gif.HandleCode` | 3rdparty/stb/stb_image.h:6655-6692 | one code: clear, end, a known string, or the entry being defined, exactly as the dictionary decoder; it fails where that fails; how wide the next code is, `GifWidth.ReachedWidth` |
| `GifDecoder.Gif.ProcessRaster` | 3rdparty/stb/stb_image.h:6613-6696 | the picture is what drawing the decoded colours gives, and it fails exactly when decoding does; what is decoded, `GifEncode.RasterRead` |
| `GifDecoder.PlotsShow` | 3rdparty/stb/stb_image.h:6576-6611 | the k-th colour is shown at the k-th pixel of the traversal |
| `GifDecoder.PlotsKeep` | 3rdparty/stb/stb_image.h:6576-6611 | pixels that are not reached stay |
| `HdrRle.WriteComponent` | 3rdparty/stb/stb_image_write.h:722-757 | codes every scanline as runs up to 127 and dumps up to 128, and terminates |
| `HdrRle.EndsExactly` | 3rdparty/stb/stb_image.h:7181-7200 | the loop over a scanline ends if and only if the packets that start inside the data fill or overrun the line, and then as they do |
| `HdrRle.CutOff` | 3rdparty/stb/stb_image.h:7181-7200 | a line cut off behind a run is read for ever; a packet of no bytes inside the data is passed over |
| `HdrRle.ReadComponent` | 3rdparty/stb/stb_image.h:7181-7200 | on any data: the bytes of the packets and the position behind them, an error if they overrun the line, nothing if the data run out before |
| `HdrRle.RoundTrip` | 3rdparty/stb/stb_image_write.h:722-757 | what is written is read back |
| `TgaRle.Measure` | 3rdparty/stb/stb_image_write.h:564-591 | a packet of 1 to 128 pixels inside the row; a repeated packet is of equal pixels |
| `TgaRle.WriteRow` | 3rdparty/stb/stb_image_write.h:559-605 | packets of the pixels of the row |
| `TgaRle.ReadPixels` | 3rdparty/stb/stb_image.h:5892-5947 | on any data, a pixel at a time: the pixels that the packets stand for, the last one cut off, zeros past the end |
| `TgaRle.RoundTrip` | 3rdparty/stb/stb_image_write.h:559-605 | an image of any rows is read back |
| `JpegHuffman.Huffman.Build` | 3rdparty/stb/stb_image.h:1983-2023 | for up to 256 symbols, accepts exactly the counts whose codes fit, and builds tables of the canonical code of Annex C of ITU-T T.81 |
| `JpegLookup.FastHit` | 3rdparty/stb/stb_image.h:2081-2092 | a fast entry below 255 is the symbol whose code the window starts with |
| `JpegLookup.FastMiss` | 3rdparty/stb/stb_image.h:2081-2092 | 255 means that no code of up to nine bits matches, but for symbol number 255 itself |
| `JpegLookup.SlowHit` | 3rdparty/stb/stb_image.h:2100-2117 | the search by length finds the code, and the code with the length's difference is the symbol's number |
| `JpegLookup.SlowMiss` | 3rdparty/stb/stb_image.h:2104-2108 | past the codes of all lengths no symbol matches |
| `JpegLookup.BlindFound` | 3rdparty/stb/stb_image.h:2100-2117 | a short code of symbol number 255 is found at ten bits, as the symbol that the bits behind it choose among the last four or two |
| `JpegLookup.EightBits` | 3rdparty/stb/stb_image.h:1983-2023 | 256 codes of eight bits are accepted and have such a symbol |
| `JpegFastAc.BuildFastAc` | 3rdparty/stb/stb_image.h:2027-2050 | an entry gives run, value and bits of a short code and its magnitude, and is zero exactly when there is none or the value needs more than a signed byte |
| `JpegBlock.FastAcIsDecode` | 3rdparty/stb/stb_image.h:2200-2213 | a non-zero entry is what Huffman decoding followed by EXTEND gives: same symbol, run, value and bits |
| `JpegReader.Jpeg.GrowBuffer` | 3rdparty/stb/stb_image.h:2052-2068 | a refill keeps the reader on the unstuffed bits and leaves more than 24, or a marker was met |
| `JpegReader.Jpeg.HuffDecode` | 3rdparty/stb/stb_image.h:2074-2120 | the symbol whose code comes next, with zeros behind the end of the stream; -1 if there is none, or if fewer bits are valid than the code has; another symbol for a short code of symbol number 255 |
| `JpegReader.Jpeg.ExtendReceive` | 3rdparty/stb/stb_image.h:2128-2140 | the magnitude bits that come next, extended; behind the end of the stream, zeros |
| `JpegBits.Unstuffed` | 3rdparty/stb/stb_image.h:2052-2068 | reading undoes the stuffing of 0xFF, up to the marker |
| `JpegCode.ExtendMagnitude` | 3rdparty/stb/stb_image_write.h:1318-1326 | EXTEND inverts the magnitude bits of every value |
| `JpegWriter.BitWriter.WriteBits` | 3rdparty/stb/stb_image_write.h:1253-1268 | appends a code to the bits written, whole bytes stuffed |
| `JpegEncode.CalcBits` | 3rdparty/stb/stb_image_write.h:1318-1326 | the category and magnitude bits of a value |
| `JpegEncode.EncodeAcs` | 3rdparty/stb/stb_image_write.h:1365-1394 | the AC coefficients as runs, markers of 16 zeros and the end of the block |
| `JpegEncode.ProcessDU` | 3rdparty/stb/stb_image_write.h:1355-1395 | a whole block, after its coefficients are quantised |
| `JpegZigzag.TablesInverse` | 3rdparty/stb/stb_image.h:2166-2178 | the reader's and the writer's zigzag tables undo each other |
| `JpegZigzag.ZigzagOrder` | 3rdparty/stb/stb_image.h:2166-2178 | both tables by arithmetic: diagonal after diagonal, up the even ones and down the odd ones |
| `JpegBlock.AcStep` | 3rdparty/stb/stb_image.h:2203-2229 | on any stream, one round of the coefficient loop, by the fast table or by Huffman decoding, leaves the block that is in the stream to be read from where it stands; it fails only where no code is, or bits are missing |
| `JpegBlock.DecodeBlock` | 3rdparty/stb/stb_image.h:2182-2232 | on any stream, success means that the coefficients and the DC prediction are those of the block in the stream, zeros behind its end, and that exactly its bits are consumed; it fails only if there is none or it goes beyond the end |
| `JpegBlock.ShortIs` | 3rdparty/stb/stb_image.h:2182-2240 | what is stored in 16 bits is in range and differs by a multiple of 2^16 |
| `JpegBlock.BlockIsRead` | 3rdparty/stb/stb_image.h:2182-2232 | if the stream goes on with the coded form of a block, that is the block in the stream: its coefficients dequantised in their places, and exactly its bits |
| `JpegParts.BlockIsParts` | 3rdparty/stb/stb_image.h:2182-2232 | the bits of any block that is read are codes of the tables, each followed by the magnitude bits of a coefficient, and the block is these coefficients placed behind their runs |
| `JpegParts.PartsAreBlock` | 3rdparty/stb/stb_image.h:2182-2232 | and any such codes and magnitude bits that come next are read as that block |
| `JpegParts.MagnitudeExtend` | 3rdparty/stb/stb_image.h:2128-2140 | any bits are the magnitude bits of exactly the value that EXTEND gives for them |
| `JpegRoundTrip.WriteScan` | 3rdparty/stb/stb_image_write.h:1533-1604 | the blocks' bits, filled up with ones, stuffed, and a marker |
| `JpegRoundTrip.WriteThenRead` | 3rdparty/stb/stb_image_write.h:1253-1395 | blocks of several components, written and read with tables that agree, come back |
| `JpegTables.RightIsCoded` | 3rdparty/stb/stb_image_write.h:1399-1490 | when an entry of a writer's table is the canonical code of the header's counts and symbols |
| `JpegStandard.Sound` | 3rdparty/stb/stb_image_write.h:1399-1490 | each of the writer's four tables is that code, and has an entry for every category of differences, and for the end, 16 zeros and every run with every category up to 10 |
| `JpegScan.ScanRoundTrip` | 3rdparty/stb/stb_image_write.h:1395-1610 | with the writer's own tables, any blocks of coefficients in the range of eight-bit samples come back, without further assumption |
| `JpegScan.RestoredInRows` | 3rdparty/stb/stb_image.h:2182-2232 | every coefficient is back at its own place, times its own quantisation step |

## Left out

- Zlib.ParseZlib: a distance of zero, which the reserved symbols 30 and 31 give, repeats memory past the output; of the bytes it appends only their number is stated. Growing the output buffer and running out of memory are not modelled. Valid blocks with fewer than 16 bits behind them may be given up, as in the original; the checksum behind a stream makes this harmless.
- TansHeader.GetArray: counts are kept as pairs of symbol and count, not packed into words; a count that would spill over its 16 bits is refused by the sum in either form. Space for the table is not modelled.
- JpegHuffman.Huffman.Build: counts of more than 256 symbols, which the arrays of the original do not hold, are not modelled.
- TansX2.Finish: checks of the original that cannot fail at this point are not repeated; ten unrolled steps are a loop.
- Kraken.DecodeParse: windows of less than 2^62 bytes. Padding of the excess stream, multi-array chunks, offset decoding and the chunk header are not modelled.
- HdrRle.ReadComponent: one component; the four of a scanline are read one after the other into every fourth byte.
- TgaRle.ReadPixels: pixels of whole bytes. Headers, colour maps, channel order and inversion are not modelled.
- JpegRoundTrip.WriteThenRead: the tables of a component are given directly; selecting them by number in the frame and scan headers is not modelled, nor are restart intervals and progressive scans.
- JpegBlock.DecodeBlock: sums of DC differences and products are unbounded integers, truncated to 16 bits where they are stored. Of a block that goes beyond the end of its segment it is not said which of the two ways it takes.
- JpegReader.Jpeg.HuffDecode: the assertion on the code found is taken as switched off.
- JpegEncode.ProcessDU: begins with quantised coefficients; the cosine transform, colour conversion and subsampling are floating point.
- GifDecoder.Gif.ProcessRaster: positions are rows and columns instead of byte offsets; disposal and the history of frames are not modelled.
- GifWidth.ReachedWidth: colours of 2 to 11 bits, as `GifEncode.RasterRead`; the format allows 2 to 8.
- PngReader.CreateImageRaw: eight bits a channel. Other depths, palettes, chunks and their checksums are not modelled.
- Compress.DeflateBlock: a hash chain is a sequence; growing it and the output buffer never fails.
- Shifts by more than the width of a word past the end of JPEG data, and signed overflow of the JPEG writer's register, are taken as machines do them.
- The Huffman decoding loops of Oodle and its code-length lists, Leviathan and Mermaid, container headers and scratch space.
- HDR pixel conversion, gamma, resampling, and the loaders of other image formats.
- Launcher, windows, processes and file system code of the emulator itself.
