# Verified models of libflate, the lib9 locks and codecs, and the AML heap

This project models parts of the Inferno libraries in Dafny and proves properties of the models.

* **DEFLATE, both directions** (`libflate/deflate.c`, `libflate/inflate.c`).  `Format` defines the
  compressed format as a function from bits to bytes (RFC 1951).  The decompressor, with its bit
  register, two-level decode tables and circular window, is proved to compute that function: it
  succeeds exactly when the function has a value, with the same output and the same input position, and the
  function also says for which inputs the decompressor uses table entries that were never set.  The
  compressor (mirrored ring buffer, hash chains, lazy matching, packed parse, boundary package-merge,
  canonical codes, in-place run-length coding, bit writer, choice among four encodings) is proved to produce
  a string that means its input, for every input and every way of reading it, and never much longer than
  the input.  Together they give the
  round trip, and with the Adler-32 framing (RFC 1950) that of zlib streams.
* **Queueing locks** (`lib9/lock.c`) as transition systems over any number of processes, one step per atomic
  action, with invariants over all runs.
* **The AML heap** (`libaml/aml.c`): mark and sweep over object graphs with cycles, the namespace tree it
  relies on, and bit fields split over access units.
* **UTF-8** (`lib9/rune.c`, `lib9/utfecpy.c`) and **9P2000 messages** (`lib9/convM2S.c`, `lib9/convS2M.c`).

## Layout

| modules | what they hold |
|---|---|
| `Bits`, `Canonical`, `Tokens`, `Format` | bit strings, canonical codes, tokens and their replay, the format |
| `RevTab`, `DecodeTable`, `BitReader`, `HuffDecoder`, `SymbolDecoder`, `Window`, `Inflate`, `Strict`, `Standard`, `Streams` | the decompressor |
| `PackageMerge`, `Chains`, `LeafSort`, `CodeLengths`, `HuffEncoder` | length-limited Huffman codes |
| `RunLength`, `DynHeader`, `DynCode`, `EncodeTables`, `DeflateInit`, `BitWriter` | code descriptions, tables, output |
| `Parse`, `Ring`, `Matcher`, `LzBlock`, `LzComp`, `Fill` | the ring and the Lempel-Ziv parser |
| `BlockWriter`, `BlockFormat`, `BlockCost`, `Deflate`, `RoundTrip`, `Adler`, `Zlib` | blocks, the compressor, the round trips |
| `QLock`, `QLockRuns`, `RWLock`, `WaitQueue` | locks |
| `AmlHeap`, `AmlNames`, `AmlField`, `AmlOverlap` | AML heap, namespace and fields |
| `Utf8`, `NineP`, `NineWire` | codecs |

## Conventions

* Objects that the source updates in place are classes or arrays here; what they stand for is a ghost
  function of their fields (`Written()` of the output, `Rest()` of the input, `Output()` of the window).
* Reader and writer callbacks are the classes `Fill.Source` (which may give any part of what it is asked for)
  and the fields `sink`; they succeed.
* `ulong` is 32 bits, as the hash of `deflate.c` assumes; where it is wider, as on 64-bit Linux, `hashit` goes
  beyond the table of chains (`LzComp.WideHashIff`).  Other counters are unbounded; the 16-bit
  chain entries and the 32-bit sums of the checksum are modelled as such.
* Reading has three outcomes: a value, a failure with its reason, and `Undefined`, which stands for a point from which the C
  code has no defined behaviour; the model's status is then `Unpredictable`.

## Model

| member | source | states |
|---|---|---|
| `RoundTrip.DeflateInflate` | libflate/deflate.c:320-350 | For every input, every way the reader chops it up and every level up to 30, deflating and then inflating returns FlateOk and exactly the input; no internal error and no undefined table entry is reached |
| `RoundTrip.CompressedDelivers` | libflate/inflate.c:147-213 | inflate given a deflated string followed by anything delivers the data and leaves the input just after the string |
| `Zlib.ZlibRoundTrip` | libflate/deflatezlib.c:35-59 | inflatezlib accepts what deflatezlib writes and gives the data back |
| `Deflate.Deflate` | libflate/deflate.c:320-350 | Always FlateOk; the output means the whole input under the reference decoder, with any tail appended; it is longer than the input by at most six bytes for every 32744 bytes begun |
| `Deflate.DeflateStep` | libflate/deflate.c:339-343 | One block keeps the run invariant: what is encoded so far plus what is unread is the input |
| `Deflate.DeflateB` | libflate/deflate.c:352-528 | The bits added by one call are one block of the format that extends the output by exactly the bytes consumed, final exactly at the end of the input |
| `Deflate.ParseBlock` | libflate/deflate.c:363-440 | After reading and parsing, the packed parse covers exactly the block and the counts are those of its tokens |
| `Deflate.EncodeBlock` | libflate/deflate.c:441-521 | Whichever of the four encodings the cost estimates select, the block decodes to its bytes; the literal-only encoding is never selected for an empty block; the block takes at most 42 bits more than its bytes, at most 7 bits more than it would take in the fixed codes, and at most a description more than its tokens, or its bytes as literals, in any codes |
| `Deflate.FinishParse` | libflate/deflate.c:437-440 | Flushing pending literals leaves a packed parse with the same tokens, within the parse array |
| `Deflate.WriteStored` | libflate/deflate.c:486-497 | A stored block, copied from the ring in two pieces, decodes to the block, with at most seven bits of padding |
| `Deflate.WriteDynamic` | libflate/deflate.c:498-503 | A block with its own codes decodes to the block and takes what was planned, less one bit for each repeat of a length |
| `Deflate.WriteLiteral` | libflate/deflate.c:504-515 | The literal-only block, with the parse overwritten by runs of seven, decodes to the block |
| `Deflate.WriteFixed` | libflate/deflate.c:516-521 | A block in the fixed codes decodes to the block |
| `Deflate.CountBytes` | libflate/deflate.c:454-465 | The literal counts are exact although the block wraps around the ring |
| `Deflate.SlopByte` | libflate/deflate.c:456-464 | The two-piece indexing of a block in the ring reads the stream bytes |
| `Deflate.LitParse` | libflate/deflate.c:509-512 | The rewritten parse is the packing of runs of at most seven literals |
| `Deflate.RunsSound` | libflate/deflate.c:509-512 | Those runs cover the block and stand for its bytes as literals |
| `Deflate.FixedCost` | libflate/deflate.c:474-476 | The estimate is exactly the number of bits that the block then takes in the fixed codes |
| `Deflate.PlanDynamic` | libflate/deflate.c:443-452 | Makes best codes for the block and describes them; the estimate is exactly the bits of description and body, and one more for each repeat of a length |
| `Deflate.PlanLiteral` | libflate/deflate.c:468-472 | The same for the block as literals only |
| `Deflate.PlanBest` | libflate/deflate.c:445-452 | Apart from a description of bounded size, no other codes of at most fifteen bits do better than those planned |
| `Deflate.EmptyFixed` | libflate/deflate.c:474-476 | An empty block takes seven bits in the fixed codes, less than any dynamic description |
| `BlockCost.BodySize` | libflate/deflate.c:450-452 | In any code, counts times lengths plus the extra bits counted while parsing are exactly the bits of tokens and end mark |
| `BlockCost.BestBody` | libflate/deflate.c:445-452 | No pair of prefix codes within the same limit on the length of codewords writes the tokens of the block in fewer bits |
| `BlockCost.GzBest` | libflate/deflate.c:1045-1072 | The repaired code is optimal however few symbols occur |
| `BlockCost.HeaderSize` | libflate/deflate.c:939-994 | The size charged for a description is its size in bits plus the number of repeats by symbol 16 |
| `Deflate.CountedEncodable` | libflate/deflate.c:443-445 | Every token of the block has a codeword in codes made from its counts |
| `Deflate.LastAdded` | libflate/deflate.c:523-526 | After the final block and the padding, reading stops at the byte boundary before whatever follows |
| `Fill.FillBlock` | libflate/deflate.c:363-436 | The read loop terminates, loses no input, and never has more than the ring can hold; between reads little is left unparsed; every block but the last covers at least 32744 bytes |
| `Fill.Room` | libflate/deflate.c:383-402 | The source arithmetic always leaves at least HistSlop bytes, and as many whole blocks as fit |
| `Fill.ReadHolds` | libflate/deflate.c:404-416 | After every read the ring agrees with the stream on all bytes it still holds and its first 512 bytes equal their mirror |
| `Fill.ReadMore` | libflate/deflate.c:382-426 | Reading appends to the stream what the reader gave, keeps the ring invariant, and finds eof exactly at the end |
| `Fill.ParseMore` | libflate/deflate.c:427-435 | Parsing up to the limits set by the ring and the block size moves bytes from available to encoded and leaves a bounded rest |
| `Fill.Source.ZlRead` | libflate/deflatezlib.c:15-26 | The running checksum is that of everything given so far |
| `Ring.ReadsStream` | libflate/deflate.c:671-690 | An index, wrapped or in the mirror, reads the stream byte it stands for |
| `Ring.MoveOn` | libflate/deflate.c:671-690 | Advancing an index without wrapping stays on the stream as far as the mirror reaches |
| `Matcher.OffsetInStream` | libflate/deflate.c:667-670 | No chain entry leads back before the start of the stream |
| `Matcher.RingMatch` | libflate/deflate.c:671-692 | Equal ring bytes are a true match in the stream |
| `Matcher.LzMatch` | libflate/deflate.c:654-699 | The backward comparison and its early exits compute the plain search of the chain: offset by offset, every longer match |
| `Matcher.FoundLongest` | libflate/deflate.c:645-695 | The match found is the longest of the chain entries looked at and of those the closest; entries are left out only after a match that is as long as can be or longer than the number of checks |
| `Matcher.TryOffset` | libflate/deflate.c:671-694 | The length at one offset is exactly that of the common bytes, if it is longer than what there was |
| `LzComp.State.LzComp` | libflate/deflate.c:701-902 | For any hash and chain tables that lead to earlier positions only (Links, which every call keeps) the parse stays sound, the consumed bytes are exactly those covered, a deferred match is a true match, and with finish everything is consumed and nothing is pending |
| `LzComp.WideHashIff` | libflate/deflate.c:85 | With a wider ulong the hash indexes the table if and only if the three bytes make a number of at most 2 |
| `LzComp.State.Turn` | libflate/deflate.c:760-862 | Lazy matching: the old match if it is as good, a literal if there is none, else the new match, deferred if it is short; how far to move, what is pending, and the tokens added |
| `LzComp.State.Advance` | libflate/deflate.c:872-881 | Every position passed whose three bytes are there is put at the head of the chain of their hash, in order; the rolling value stays that of the next three bytes |
| `LzComp.State.Rehash` | libflate/deflate.c:723-746 | The hanging positions are entered under the hash of their three bytes unless the chain has them already |
| `LzComp.Present` | libflate/deflate.c:735-742 | Whether the chain, followed while its entries get older, has the position |
| `LzComp.ShiftThree` | libflate/deflate.c:872-881 | Shifting in a byte moves the three hashed bytes on by one |
| `LzBlock.Block.PutLit` | libflate/deflate.c:813-818 | Recording a literal extends the packed parse, the tokens and the counts by exactly it |
| `LzBlock.Block.PutMatch` | libflate/deflate.c:787-804 | Recording a match extends the packed parse, the tokens and the counts by exactly it |
| `LzBlock.ParsedHit` | libflate/deflate.c:787-804 | The same on values: soundness, packing, capacity of two bytes a word, and exact symbol counts |
| `LzBlock.Counted` | libflate/deflate.c:795-803 | Every token of a block has its symbols counted |
| `Parse.ParseReplay` | libflate/deflate.c:654-699 | Replaying a sound parse after the bytes before it gives exactly the bytes it covers |
| `Parse.TokensGrow` | libflate/deflate.c:884-899 | A parse stays valid when more input arrives, so deferred matches survive calls and blocks |
| `BlockWriter.Unpack` | libflate/deflate.c:609-628 | The packed words give back run, length and offset of every item |
| `BlockWriter.WrBlock` | libflate/deflate.c:577-644 | Writes exactly the bits of the tokens that the packed parse stands for |
| `BlockWriter.PutPair` | libflate/deflate.c:630-642 | Writes the two codewords and extra bits of a match |
| `BlockFormat.FixedBlock` | libflate/deflate.c:516-521 | A fixed block reads back as its tokens, replayed |
| `BlockFormat.DynamicBlock` | libflate/deflate.c:498-503 | Header, tokens and end mark read back as the tokens, replayed |
| `BlockFormat.StoredBlock` | libflate/deflate.c:486-497 | Padding, length, complement and bytes read back as the bytes |
| `BlockFormat.EncodesMore` | libflate/deflate.c:339-343 | Blocks compose: after a block whatever follows is read with its output produced |
| `BlockFormat.FixedOffSame` | libflate/deflate.c:248-256 | The encoder's 30 fixed offset codewords are those of the decoder's 32-symbol code |
| `BitWriter.Out.LzPut` | libflate/deflate.c:552-564 | Appends exactly the given bits, least significant first |
| `BitWriter.Out.LzFlushBits` | libflate/deflate.c:566-571 | Pads with zero bits to a byte boundary |
| `BitWriter.Out.LzFlush` | libflate/deflate.c:545-550 | Hands the buffer on without changing what has been written |
| `BitWriter.Out.LzWrite` | libflate/deflate.c:530-543 | Appends whole bytes to the output |
| `DynCode.HuffCodes` | libflate/deflate.c:908-995 | The description made stands for exactly the two given codes; the size returned is right if and only if no length but 0 occurs four times in a row, and otherwise too large by the number of repeats |
| `DynCode.FixedOvercharged` | libflate/deflate.c:968-975 | The lengths of the fixed literal code are such a case |
| `DynCode.WrDynCode` | libflate/deflate.c:997-1031 | Writes the header bits of the description; from bit 14 on, three bits for each symbol in the order 16, 17, 18, 0, 8, 7, 9, ... |
| `DynHeader.HeaderGroups` | libflate/deflate.c:1005-1014 | Where each length of the code length code is in a written header |
| `DynHeader.HeaderInverse` | libflate/inflate.c:264-377 | Reading a written header gives the two codes back and stops after it |
| `DynHeader.ReadOps` | libflate/inflate.c:307-371 | Decoding the run-length symbols gives the expanded lengths |
| `RunLength.Compress` | libflate/deflate.c:931-978 | In place, never overwriting an unread length: the codes expand to the original lengths, across the boundary between the two tables; a repeat is used if and only if a length but 0 occurs four times in a row |
| `DynCode.BitCost` | libflate/deflate.c:1033-1043 | The sum of count times length over all symbols |
| `EncodeTables.InitLenTable` | libflate/deflate.c:263-273 | The table gives every match length its code and base, with the special case of 258 |
| `EncodeTables.InitOffTable` | libflate/deflate.c:275-289 | The two tables give every offset up to 32768 its code and base |
| `DeflateInit.DeflateInit` | libflate/deflate.c:217-291 | All tables are valid: reversal, fixed codes, match tables and the empty offset code |
| `HuffEncoder.MkPrecode` | libflate/deflate.c:1133-1209 | For two to 2^(maxbits-1) used symbols: lengths 1..maxbits-1 for used symbols only, Kraft sum exactly 1, rarer symbols never shorter, and least total cost among all prefix codes within the limit |
| `CodeLengths.Optimal` | libflate/deflate.c:1133-1208 | Lengths read off the package-merge chain cost no more than any other length-limited prefix code |
| `CodeLengths.KraftAlong` | libflate/deflate.c:1196-1206 | The lengths fill the code space exactly |
| `PackageMerge.SplitMinimal` | libflate/deflate.c:1255-1277 | Among all ways to take k items from leaves and packages the list prefix is cheapest |
| `PackageMerge.LowerBound` | libflate/deflate.c:1133-1208 | No length-limited code costs less than the first 2m-2 items of the last list |
| `PackageMerge.CostOfTops` | libflate/deflate.c:1196-1206 | The code read from the leaf counts along the chain costs exactly that much |
| `Chains.NextChain` | libflate/deflate.c:1215-1282 | Lazy generation yields the next item of the list; the k-th chain with a leaves has its up at position 2(k-a) below |
| `Chains.TopChain` | libflate/deflate.c:1186-1194 | After the loop the last slot is item 2m-2 of the top list |
| `Chains.PoolSuffices` | libflate/deflate.c:1239-1253 | Whatever levels are being worked on, at most 240 chains are in use, so collecting the pool of 480 always frees one |
| `LeafSort.LeafSort` | libflate/deflate.c:1310-1364 | In place: the leaves are permuted and ordered by count, then by symbol |
| `HuffEncoder.HuffTabInit` | libflate/deflate.c:1074-1096 | Succeeds exactly when the lengths are not oversubscribed, and then every entry is the canonical codeword, bit-reversed |
| `HuffEncoder.MkGzPrecode` | libflate/deflate.c:1045-1072 | Never fails; used symbols have codewords, also for one or no used symbol |
| `Inflate.Inflater.Inflate` | libflate/inflate.c:147-213 | For every byte string: FlateOk exactly when the format gives it a meaning, with that output and the input position just after the last block; otherwise exactly FlateInputFail, FlateCorrupted or FlateInternal as the reference says; or undefined exactly when the lookup meets an entry that was never set |
| `Inflate.Inflater.Block` | libflate/inflate.c:167-196 | The three block types dispatch and refine the reference block, errors included |
| `Inflate.Inflater.constructor` | libflate/inflate.c:95-145 | Reversal, base and fixed decode tables are right |
| `Inflate.Decode` | libflate/inflate.c:394-523 | The body of a compressed block as the reference reads it, with the same error; with no literal codewords it fails by the old entry of its table |
| `Inflate.GetHeader` | libflate/inflate.c:264-377 | The header of a dynamic block is read as the reference reads it, with the lengths of the code length code in the order 16, 17, 18, 0, 8, 7, 9, ...; on failure with the same error |
| `Inflate.GetClens` | libflate/inflate.c:291-301 | Group i of three bits becomes the length of the symbol that is i-th in the order 16, 17, 18, 0, 8, 7, 9, 6, 10, 5, 11, 4, 12, 3, 13, 2, 14, 1, 15 |
| `Format.ClensInOrder` | libflate/inflate.c:76-79 | The same for the reference |
| `Inflate.MakeTables` | libflate/inflate.c:373-377 | Both tables of a dynamic block are right, or one code is oversubscribed; a literal table without codewords keeps the entry of the code length code |
| `BlockFormat.NoLiterals` | libflate/inflate.c:373-377 | A dynamic block with all literal lengths 0 fails whatever follows: at the end of the input, or at once if the code length code has only codewords of seven bits |
| `Inflate.GetLens` | libflate/inflate.c:307-371 | Run-length coded code lengths read as the reference reads them |
| `Inflate.UncBlock` | libflate/inflate.c:216-256 | Stored block read as the reference reads it, including the tolerance for a cut-off complement of an empty block |
| `Strict.StoredIff` | libflate/inflate.c:217-231 | uncblock reads a stored block as section 3.2.4 of RFC 1951 has it if and only if the input does not end after a size of 0 or after that and one byte 255 |
| `Strict.InflatedIff` | libflate/inflate.c:217-231 | The decoder gives a whole stream the meaning that the strict format gives it if and only if the stream does not end in a final block cut off like that; such a stream it accepts |
| `Strict.CutStream` | libflate/inflate.c:217-231 | The three bytes 1, 0, 0 are such a stream |
| `SymbolDecoder.NextSym` | libflate/inflate.c:406-427 | Reads what the canonical code says; without a codeword fails for lack of input exactly if fewer bits are left than the longest has, or is undefined exactly when the search strays or flat[0] was never written; with an old entry only, reads by that |
| `SymbolDecoder.OldSym` | libflate/inflate.c:406-427 | In a table left over from another code, with no codeword of its own: the symbol of the old entry and its bits, or a failure |
| `SymbolDecoder.HdecSym` | libflate/inflate.c:643-669 | The search by length finds the codeword that canonical decoding finds, fails when there is none, and is undefined exactly from the entry ~0 |
| `HuffDecoder.Huff.HuffTab` | libflate/inflate.c:548-641 | Succeeds exactly when the lengths are not oversubscribed, and then the tables describe the canonical code; without any codeword they stay as they were |
| `HuffDecoder.FirstEntry` | libflate/inflate.c:599-640 | The entry for the index 0 is set in every table with a codeword; it is a long one exactly if all codewords are longer than the index |
| `DecodeTable.LongSound` | libflate/inflate.c:600-620 | A flat entry for long codewords gives a length no codeword with that prefix is shorter than |
| `DecodeTable.LengthHit` | libflate/inflate.c:655-664 | A value in range at some length is the codeword there |
| `RevTab.RevCodeReverses` | libflate/inflate.c:525-532 | The table-driven reversal reverses the code |
| `BitReader.Input.SregFill` | libflate/inflate.c:671-686 | Fetches bytes until n bits are present without changing the bits still to be read |
| `BitReader.Input.SregUnget` | libflate/inflate.c:688-700 | Drops the rest of the current byte |
| `Window.History.Put` | libflate/inflate.c:429-440 | Flushed bytes plus the live part of the circular buffer are the whole output, one byte longer |
| `Window.History.CopyMatch` | libflate/inflate.c:491-516 | Copies as an unbounded output would, overlapping and at distance 32768 included; a distance is rejected exactly when it exceeds what was produced |
| `Window.History.ZlWrite` | libflate/inflatezlib.c:15-26 | The running checksum is that of everything written |
| `Canonical.PrefixFree` | libflate/inflate.c:579-592 | No codeword of a code that is not oversubscribed is a prefix of another |
| `Canonical.DecodeCodeword` | libflate/inflate.c:406-425 | Decoding a codeword followed by anything gives its symbol and stops after it |
| `Canonical.TrimmedCodeword` | libflate/deflate.c:923-926 | Dropping trailing unused symbols changes no codeword |
| `Tokens.TokensInverse` | libflate/inflate.c:394-523 | Decoding encoded tokens replays them and stops after the end mark |
| `Standard.LengthTable` | libflate/inflate.c:55-63 | Bases and extra bits of the twenty-nine length codes, as the standard prints them |
| `Standard.DistanceTable` | libflate/inflate.c:66-73 | Bases and extra bits of the thirty distance codes, as the standard prints them |
| `Standard.MatchByTables` | libflate/inflate.c:449-487 | The codes and extra bits of every match, by these tables alone |
| `Standard.RepeatTable` | libflate/inflate.c:329-360 | What the code length symbols 16, 17 and 18 repeat, and how often |
| `Standard.FixedLitCode` | libflate/inflate.c:119-141 | The fixed literal codewords are 00110000 to 10111111, 110010000 to 111111111, 0000000 to 0010111 and 11000000 to 11000111 |
| `Standard.FixedOffCode` | libflate/inflate.c:119-141 | The fixed distance codewords are the numbers of five bits |
| `Standard.InOrder` | libflate/deflate.c:1074-1090 | Shorter codewords come before longer ones, and those of one length are consecutive in the order of their symbols |
| `Standard.ExampleCode` | libflate/deflate.c:1074-1090 | The example code of the standard |
| `Standard.AstrayTables` | libflate/inflate.c:643-669 | Which codes can be led astray, with first tables of 7, 6 and 6 bits |
| `Streams.RunStream` | libflate/inflate.c:147-214 | The bytes 75, 196, 6, 0 mean twenty-one times the letter a: a literal and a match with extra bits in the fixed codes |
| `Streams.DynamicStream` | libflate/inflate.c:147-214 | The bytes 5, 192, 129, 0, 0, 0, 0, 0, 144, 86, 255, 19, 8, a dynamic block with its own codes, mean the letter a |
| `Streams.StoredStream` | libflate/inflate.c:147-214 | The bytes 1, 1, 0, 254, 255, 97 mean the letter a |
| `Streams.ZlibAb` | libflate/inflatezlib.c:28-66 | The zlib stream 78 9c 4b 4c 02 00 01 26 00 c4 means ab |
| `Streams.EmptyStream` | libflate/inflate.c:147-214 | Nothing at all fails for lack of input |
| `Streams.BadType` | libflate/inflate.c:147-214 | A block of type 3 is corrupt |
| `Streams.MissingByte` | libflate/inflate.c:237-240 | A stored block whose bytes are cut off ends with FlateInternal, no error having been set |
| `Adler.Adler32` | libflate/adler.c:11-72 | In 32-bit sums and batches of up to 5552 bytes, from any starting value: the low half adds up the bytes, the high half every byte times its distance from the end, both modulo 65521 |
| `Adler.AdlerHalves` | libflate/adler.c:11-72 | The two halves of the checksum in closed form |
| `Adler.AdlerAb` | libflate/adler.c:11-72 | The checksum of the bytes ab is 0x012600C4 |
| `Adler.NoOverflow` | libflate/adler.c:5-9 | Neither sum reaches 2^32 within a batch |
| `Adler.AdlerAppend` | libflate/adler.c:11-72 | Checksumming in pieces is checksumming the whole |
| `Adler.SumsClosed` | libflate/adler.c:11-72 | Reducing at every byte is reducing the plain sums once at the end |
| `Zlib.InflateZlib` | libflate/inflatezlib.c:28-65 | Header, body and trailer: FlateOk exactly for a stream that means something, else exactly the error of the part that fails first |
| `Zlib.DeflateZlib` | libflate/deflatezlib.c:28-59 | The output is a stream with a good header (78 01, 78 5e, 78 9c or 78 da by the level) and checksum that means the input, at most six bytes longer than the compressed data may be |
| `Zlib.TrailerValue` | libflate/deflatezlib.c:51-56 | The big-endian trailer reads back as the checksum |
| `QLock.ActKeeps` | lib9/lock.c:40-93 | Every atomic action of qlock, canqlock and qunlock keeps the lock invariant; ownership is moved, never doubled |
| `QLock.HandOffKeeps` | lib9/lock.c:82-89 | Unlocking hands the lock to the head of the queue |
| `QLockRuns.RunSafe` | lib9/lock.c:40-93 | In every state of every run of any number of processes: one owner at most, locked exactly while there is one, unlocked means empty queue, wakeups in queue order and once each |
| `RWLock.RunSafe` | lib9/lock.c:95-141 | In every state of every run: a writer is alone, readers counts the readers, k belongs to the readers exactly when there are any (without readers it is locked exactly while one process owns it, and that is a writer), and the ignored canqlock(&l->k) never fails through a busy spin lock |
| `RWLock.ReaderAtK` | lib9/lock.c:101-114 | At canqlock(&l->k) the spin lock of k is free and k is locked exactly when there are other readers |
| `RWLock.StepKeeps` | lib9/lock.c:95-141 | Every step of every process keeps the invariant of the two queueing locks, the spin lock and the count |
| `WaitQueue.Queue.Enqueue` | lib9/lock.c:51-57 | The linked queue gains the process at its end |
| `WaitQueue.Queue.Dequeue` | lib9/lock.c:82-86 | The linked queue loses its head, or nil if empty |
| `AmlHeap.Interp.Gc` | libaml/aml.c:226-279 | Exactly the objects reachable from pinned objects, frames and root remain, in order; no pointer field of a survivor (next too, in a namespace in order), of a frame or of the root leads out of the heap |
| `AmlHeap.OutIs` | libaml/aml.c:171-224 | What the collector follows is what the pointer fields of each kind of object hold |
| `AmlHeap.HeapPointers` | libaml/aml.c:171-224 | In a heap in order every pointer field of every object, named one by one, leads to an object of the heap |
| `AmlHeap.Interp.NothingSpare` | libaml/aml.c:227-252 | What remains is in every set that holds the pinned objects, what the frames and the root point to, and what its objects point to |
| `AmlHeap.GcMark` | libaml/aml.c:170-224 | Marks only what every closed set around the start contains, closes what it marks, and terminates on cyclic graphs by the number of unmarked objects |
| `AmlHeap.ReachLeast` | libaml/aml.c:233-248 | Reachability is the least closed set containing the roots |
| `AmlHeap.Interp.MarkAll` | libaml/aml.c:233-248 | The marked objects are exactly the reachable ones |
| `AmlHeap.Interp.Sweep` | libaml/aml.c:250-277 | Unlinking through the list keeps exactly the marked and pinned objects in order |
| `AmlHeap.NextSurvives` | libaml/aml.c:198-205 | The sibling link, which the collector does not follow, never leads from a survivor to a freed name |
| `AmlHeap.Interp.Mk` | libaml/aml.c:281-295 | Allocation keeps heap and namespace in order |
| `AmlNames.Collect` | libaml/aml.c:226-279 | A collection keeps the namespace in order |
| `AmlNames.GetSeg` | libaml/aml.c:367-391 | Finds the first child with the segment of the first scope, among dot and what it was forked from, that has one; with new set, an existing one changes nothing and a missing one becomes the last child of the scope, its own value and with nothing below it, with only the link to it changed |
| `AmlNames.ForkName` | libaml/aml.c:347-365 | Copies a scope and all above it: the copies point up to each other as the originals do, each with its original as fork; every existing object is unchanged and the namespace stays in order |
| `AmlField.StoreField` | libaml/aml.c:638-692 | Exactly the field bits change, as far as whole units of 1, 2, 4 or 8 bytes (by the flags) reach in the memory; they become those of the value, or, if the value is the very buffer that the field lies in, those that the loop finds there after having overwritten part of it |
| `AmlField.WriteOwn` | libaml/aml.c:648-692 | The loop on the buffer of the field itself: bit j of the field becomes bit Origin(j) of the old buffer, found by going back by the offset of the field as long as that bit has been overwritten by an earlier unit |
| `AmlField.LoadField` | libaml/aml.c:638-699 | The bits of the field as an integer or buffer, in units of 2, 4 and 8 bytes for flags 2, 3 and 4 and of one byte for all others; bits beyond the last whole unit of the memory read as ones |
| `AmlField.Units` | libaml/aml.c:593-612 | The unit of each access type, and how far whole units reach |
| `AmlField.LoadsWord` | libaml/aml.c:638-699 | The bytes 0x34, 0x12 as a word are 0x1234 |
| `AmlField.WriteUnit` | libaml/aml.c:668-686 | Read-modify-write of one unit changes only the bits written |
| `AmlField.StoreLoad` | libaml/aml.c:638-699 | Storing an integer and loading it gives it back, cut to the field and the integer width |
| `AmlField.WriteThenRead` | libaml/aml.c:638-699 | A field inside the memory reads back the bits written |
| `AmlField.DisjointCommute` | libaml/aml.c:638-699 | Writes to disjoint fields commute whatever their widths, even within one unit |
| `AmlOverlap.OwnStoreIff` | libaml/aml.c:648-692 | Storing a buffer in a field of itself does the same as storing a copy, for all contents, if and only if the field begins the buffer, or takes no more bits than precede it, or lies in one access unit |
| `AmlOverlap.Smear` | libaml/aml.c:648-692 | With byte access a buffer stored in all of itself but its first byte is filled with that byte |
| `AmlOverlap.Smeared` | libaml/aml.c:648-692 | The buffer 1, 2, 3, 4 becomes 1, 1, 1, 1 |
| `AmlOverlap.SwapIff` | libaml/aml.c:638-692 | Two stores to disjoint fields, of any values and widths, can be swapped for all contents if and only if neither changes bits that the other takes from the buffer itself |
| `AmlOverlap.StoreTwice` | libaml/aml.c:638-692 | The same for two calls of the store |
| `AmlField.GetLe` | libaml/aml.c:465-475 | Bytes as a number, least significant first |
| `AmlField.PutLe` | libaml/aml.c:477-486 | A number as little-endian bytes, nothing else touched |
| `AmlField.WriteReg` | libaml/aml.c:487-556 | Writes inside the memory only, otherwise nothing |
| `AmlField.ReadReg` | libaml/aml.c:487-556 | Reads inside the memory, otherwise all ones |
| `Utf8.CharToRune` | lib9/rune.c:25-72 | Computes the decoding function |
| `Utf8.DecodeEncoded` | lib9/rune.c:25-72 | Every scalar value is decoded from its encoding, whatever follows |
| `Utf8.DecodedIsEncoded` | lib9/rune.c:25-72 | What is decoded without error is the shortest encoding of a scalar value; everything else is the error rune of length 1 |
| `Utf8.Examples` | lib9/rune.c:25-116 | Encodings of one, two, three and four bytes |
| `Utf8.Malformed` | lib9/rune.c:25-72 | Overlong forms, surrogate halves and stray bytes give the error rune and take one byte |
| `Utf8.RuneToChar` | lib9/rune.c:74-116 | Writes the encoding of the rune, or of the error rune for surrogates and values out of range |
| `Utf8.RuneLen` | lib9/rune.c:118-126 | The length of what runetochar writes |
| `Utf8.RuneNLen` | lib9/rune.c:128-148 | The sum of the sizes by magnitude |
| `Utf8.SizeAgrees` | lib9/rune.c:128-148 | runenlen and runetochar agree on a rune exactly when it is at most Runemax |
| `Utf8.SizesOfEncoding` | lib9/rune.c:128-148 | For scalar values runenlen is the length of the encoded string |
| `Utf8.FullRune` | lib9/rune.c:150-165 | True exactly when the bytes announced by the lead byte are there |
| `Utf8.FullIsEnough` | lib9/rune.c:150-165 | With a full rune, the decoding depends on the first n bytes only |
| `Utf8.Utfecpy` | lib9/utfecpy.c:3-20 | Copies the whole string if it fits, else the bytes before the last lead byte among those copied, always NUL-terminated within the buffer |
| `Utf8.KeepsWholeRunes` | lib9/utfecpy.c:3-20 | On valid input that is the longest prefix of whole runes that leaves room for the NUL |
| `NineP.PackUnpack` | lib9/convM2S.c:49-314 | Packing any sendable message and unpacking it in place gives fields that stand for exactly what was sent |
| `NineP.UnpackPack` | lib9/convM2S.c:49-314 | Every sendable message is recovered from its packing, whatever follows it |
| `NineP.ConvM2S` | lib9/convM2S.c:49-314 | For every buffer: fails exactly when there is no well-formed message; otherwise the fields stand for it and the bytes after the message are untouched |
| `NineP.GString` | lib9/convM2S.c:4-22 | The in-place shift leaves the C string at the returned place and all bytes outside the field intact |
| `NineP.GQid` | lib9/convM2S.c:24-37 | A qid, or failure when fewer than 13 bytes are left |
| `NineP.ConvS2M` | lib9/convS2M.c:192-385 | Undefined exactly for a walk with too many names or a size that wraps below the buffer size; otherwise writes exactly the packed message and nothing beyond, or fails exactly for an unknown type, too small a buffer or too many qids |
| `NineWire.OnTheWire` | lib9/convS2M.c:192-385 | For every message of each of the twenty-seven types: which fields it has, and its bytes on the wire field by field |
| `NineWire.LittleEndian` | lib9/convS2M.c:192-385 | Numbers of one, two, four and eight bytes are sent least significant byte first |
| `NineWire.TreadBytes` | lib9/convS2M.c:275-282 | The bytes of a read of 8192 bytes at offset 0 |
| `NineWire.Limits` | lib9/convS2M.c:248-343 | Too many names or qids means more than sixteen, in a Twalk or an Rwalk |
| `NineP.SizeS2M` | lib9/convS2M.c:47-190 | The length of the packed message modulo 2^32, right exactly for messages of less than 2^32 bytes; undefined exactly for a walk with more than 16 names |
| `NineP.PString` | lib9/convS2M.c:4-23 | Length and bytes of a string are placed, nothing else |
| `NineP.PQid` | lib9/convS2M.c:25-35 | A qid is placed, nothing else |
| `Chains.ExtendList` | libflate/deflate.c:1239-1282 | At the allocation fewer chains are in use than the pool has; then the list is extended by its next item |
| `DecodeTable.UnclaimedBeyond` | libflate/inflate.c:600-620 | A flat entry stays ~0 exactly when its index lies beyond all codewords, that is when no codeword shares its bits |
| `DecodeTable.AstrayIff` | libflate/inflate.c:643-669 | Some input leads the lookup in a table of its own to an unset entry if and only if the code has no codeword or leaves the last flat index unused |
| `Canonical.CompleteAnswers` | libflate/inflate.c:534-547 | With a complete code every lookup is defined |
| `Canonical.LoneStrays` | libflate/inflate.c:643-669 | With a single codeword of one bit the other bit leads to the entry ~0 |
| `Format.CompleteTokens` | libflate/inflate.c:394-523 | With two complete codes decoding a block body is always defined |
| `Format.FixedAnswers` | libflate/inflate.c:258-262 | Decoding a block in the fixed codes is always defined |
| `Format.LoneDistance` | libflate/inflate.c:643-669 | A match in a block with a single distance codeword followed by the other bit makes the outcome undefined |
| `Format.NoDistance` | libflate/inflate.c:457-477 | A match in a block with all distance lengths 0 reads an entry that was never written |
| `BlockFormat.StrayBlock` | libflate/inflate.c:643-669 | The same for a whole dynamic block, header included |
| `QLockRuns.RunLive` | lib9/lock.c:40-93 | In every state of every run in which a process is in a call, a process in a call or owning the lock can take a step |
| `RWLock.RunLive` | lib9/lock.c:95-141 | In every state of every run in which a process is in a call or holds the lock, such a process can take a step |
| `NineP.WrappedWrite` | lib9/convS2M.c:192-204 | A Twrite of 2^32 - 22 bytes gets the size 1 and passes the check against any buffer |

## Findings

- `inflate.c` looks up bits that belong to no codeword.  A flat entry left at ~0 sends `hdecsym` off with a length of
  -1, before the start of its tables; with no codeword at all, a table that has not been used before is read unset.
  `DecodeTable.AstrayIff` says exactly which codes can get there, `Canonical.Lost` exactly on which bits, and
  `BlockFormat.StrayBlock` gives a family of inputs: a dynamic block with the single distance codeword that the encoder's
  own repair makes, a match, and then the other bit (`Format.NoDistance` has no distance codeword).  All-zero literal
  lengths are harmless: their table has held the code length code, and its old entry leads to a failure
  (`BlockFormat.NoLiterals`).  Complete codes (`Canonical.CompleteAnswers`), the fixed codes and everything
  that `deflate` writes are never undefined.
- `huffcodes` does not return the number of bits of the description, as its comment says: it charges three bits for the
  repeat count of symbol 16, which takes two.  `DynCode.HuffCodes` says exactly for which codes the result is wrong and
  by how much, and `DynCode.FixedOvercharged` names one.
- `uncblock` accepts a stored block of length 0 whose complement is cut off by the end of the input, because a missing
  byte reads as all ones; RFC 1951 does not.  `Strict.StoredIff` and `Strict.InflatedIff` say exactly for which blocks and
  streams, and `Strict.CutStream` is one.
- `rwfield` stores a buffer without copying it.  If the field lies in that buffer, later bits are read after they have
  been overwritten.  `AmlOverlap.OwnStoreIff` says exactly for which fields the result is wrong, `AmlField.WriteOwn` what
  it is, and `AmlOverlap.Smeared` shows one.
- On hosts where `ulong` has more than 32 bits `hashit` is not cut to the size of the table (`LzComp.WideHashIff`).
- `sizeS2M` adds in 32 bits and walks the names before `convS2M` checks their number.  `NineP.ConvS2M` says exactly when
  that goes wrong; `NineP.WrappedWrite` is a message for which any buffer seems large enough.
- `runenlen` counts four bytes for values above Runemax, for which `runetochar` writes three (`Utf8.SizeAgrees`).
- `uncblock` sets no error when the bytes of a stored block are cut off, so that `inflate` returns FlateInternal where it
  returns FlateInputFail for every other input that ends too early (`Format.ReadStored`, `Streams.MissingByte`).
- The two exits of `deflateb` for reads that are too small are never taken (`Fill.Room`), and no block ever makes
  `deflate` return FlateInternal (`Deflate.Deflate`).

## Left out

- Chains.NextChain: chains are immutable values; of the pool, its marks and their wrapping byte only the number of chains in use is modelled.
- Fill.Source.ZlRead: read errors (FlateInputFail) and failing writers (FlateOutputFail) are not modelled.
- Deflate.Deflate: levels above 30, for which the source shifts an int too far.
- LzComp.State.LzComp: the position counter is unbounded, so inputs beyond 2 GB do not wrap it.
- Memory exhaustion (FlateNoMem), debug output and the block variants `deflateblock`, `inflateblock`, `deflatezlibblock`, `inflatezlibblock`.
- Compression ratio beyond the bounds of `Deflate.EncodeBlock` and `Deflate.Deflate`, hash quality and the tuning of `maxcheck`.
- QLock.ActKeeps: `_tas`, `osblock` and `osready` are taken as atomic, with a wakeup remembered until its process sleeps; spin back-off and fairness are not modelled.
- AmlHeap.Interp.Gc: unmapping of regions and the interior pointer of a reference are not modelled; which frames are live is given.
- AmlNames.ForkName: the chain of scopes above the name is given as finite, as the source's recursion needs.
- AmlField.StoreField: index and bank fields and region callbacks are not modelled; memory is a buffer or directly mapped.
- AML opcode dispatch, name paths and printing.
- NineP.ConvS2M: the two switches are one table of field kinds; a nil string is represented by an empty one, which is packed alike.
- Directory entries (`convM2D`, `convD2M`), libbio, formatted printing, drawing and platform code.
