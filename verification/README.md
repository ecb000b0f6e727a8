# Compression and flash images: a verified model

This project models the data formats that the board support package carries with it: zlib 1.2.3 (deflate, inflate
and their checksums) and the JFFS2 image builder of mtd-utils, and proves what they promise.

The centre is `Format`, the deflate format of RFC 1951 as a deterministic machine over a bit stream, in steps as large
as the states of `inflate()`. Everything that writes or reads a stream is related to its runs:

- **Codes.** `Canonical` has the canonical codes of section 3.2.2, `InfTreesSpec` and `InfTrees` the two-level
  decoding tables of `inflate_table`, `Lookup` the lookups in them. `Heap`, `HuffmanQueue`, `Forest` and `Huffman`
  build the tree of `build_tree` and show that it is optimal among all prefix codes; `TreeDepth` says when it is too
  deep, `BitLengths` limits the lengths (`gen_bitlen`), `DynTree` assigns the codes.
- **Blocks.** `BlockCode`, `RunLength` and `BlockRoundTrip` say what bits a block is and that the machine reads them
  back; `BitWriter`, `TreeSending`, `DynamicTrees`, `BlockWriter`, `BlockState` send them; `BlockLength` and
  `StaticTables` account for their sizes and tables.
- **Encoder.** `Hashing`, `LzWindow` and `Deflate` are the sliding window, the hash chains and the three compression
  functions, `DeflateStream` is `deflate()`.
- **Decoder.** `BitReader`, `InflateState` and `Decoder` read the bits and the symbols; `Window` and `Inflate` make
  `inflate()` of them, with `updatewindow` and `inflate_fast`, and `InfBack` makes `inflateBack()`, whose window is
  its output buffer. `RoundTrip` joins encoder and decoders; `FarDistance` is about the streams on which the two
  decoders differ.
- **Checksums.** `Crc32` and `Adler32`.
- **JFFS2.** `Rtime` is a compressor, `Compressors` the choice among several; `JffsNodes` has the nodes and the scan of
  a block, `JffsImage` writes them into erase blocks and reads an image back.

Objects whose fields the C code updates are classes with the same fields; ghost fields hold the abstraction (bits sent,
the state of the machine, the input so far). A method is proved against a specification function or the machine, and
the lemmas say what that is worth.

## Findings

- `adler32_combine` gives a half of 65521 where the checksum of the concatenation has a half of 0. It is right exactly
  when neither of the two sums that it reduces is a multiple of 65521 (`Adler32.CombinedHalves`); 256 bytes 255
  followed by a byte 240 are a case where it is not (`Adler32.CombineFails`).
- Neither of the two tests in `inflate_table` that return 1 for too large a table ever fires for the lengths that
  `inflate` can give it (the assertion before the loop in `InfTrees.FillTable` and the one in `InfTrees.MoveOn`), and
  the code that drops back from a sub-table to the root table is never reached (the assertion in `InfTrees.FillRest`).
- `inflateBack` decodes everything that `inflate` decodes (`BackInflating.BackAgrees`), but not the other way round:
  in the first round of the window its fast loop compares a distance with `whave`, the fill when the loop began, on top
  of what has been written, so a distance that reaches back before the first byte can pass and copy what the window held
  before. What it decodes to the end is a stream that `inflate` decodes if and only if there is no such distance
  (`BackInflating.BackEndMeans`). With all input at hand and the ends of stream and window not near, a distance passes
  if it is no more than the output together with the output at every earlier symbol with the same codes, one of which
  is where the fast loop began (`FarDistances.LetPass`). `inflate` rejects an 18-byte stream that `inflateBack` decodes
  to its end (`FarDistances.DecodersDiffer`).
- `fill_window` never needs a second turn of its loop: one read fills the window or uses up the input.
- When the code length code has no codes at all, `inflate` reads every bit as the length 0 (`Format.DecodeLength`);
  section 3.2.7 of RFC 1951 does not provide for it. `inflate` of this version also does not ask for a code for
  the end of the block.
- A comment in `build_tree` says that the forced codes are 0 or 1; 2 is forced exactly when symbol 1 is the only one
  that occurs (`HuffmanQueue.TwoIsForced`).

## Model

| member | source | states |
|---|---|---|
| Canonical.PrefixFree | 14th_nand/zlib-1.2.3/trees.c:577-609 | for lengths that are not over-subscribed, no canonical code, sent from its high bit on, begins another one |
| Canonical.Covered | 14th_nand/zlib-1.2.3/inftrees.c:106-328 | with a complete set of lengths every bit buffer begins with the code of some symbol |
| DynTree.BiReverse | 14th_nand/zlib-1.2.3/trees.c:1146-1156 | the low bits of the code in the opposite order |
| DynTree.GenCodes | 14th_nand/zlib-1.2.3/trees.c:577-609 | every symbol with a length gets the reversed canonical code of that length, and no other entry changes |
| InfTrees.InflateTable | 14th_nand/zlib-1.2.3/inftrees.c:32-329 | returns 0 exactly for no codes, a complete set, or a single length-1 code that is not for code lengths; then the table leads every code to its symbol and the unused bit of a lone code to the invalid entry |
| InfTreesSpec.FindsSymbol | 14th_nand/zlib-1.2.3/inftrees.c:220-300 | a buffer that begins with the code of a symbol reaches that symbol's entry in at most two steps and takes exactly its length in bits |
| InfTreesSpec.FindsInvalid | 14th_nand/zlib-1.2.3/inftrees.c:120-135 | a buffer that begins with no code can only occur for an incomplete set, and reaches the invalid-code entry |
| Lookup.Exact | 14th_nand/zlib-1.2.3/inflate.c:957-971 | whatever number of bits is held, the entry found means what decoding by the codes means if it takes no more bits than are held, and otherwise more bits are needed |
| Lookup.GetEntry | 14th_nand/zlib-1.2.3/inflate.c:957-971 | the lookup loop pulls no byte more than the symbol needs and ends with its entry, or with too few bits for any symbol |
| Huffman.PrefixCodesAdmissible | 14th_nand/zlib-1.2.3/trees.c:611-618 | the lengths of every prefix code obey the Kraft inequality, so a lower bound over such lengths is one over all prefix codes |
| Heap.PqDownHeap | 14th_nand/zlib-1.2.3/trees.c:455-478 | restores the heap order from node k on, keeps the elements, and touches nothing outside the heap |
| HuffmanQueue.JoinAll | 14th_nand/zlib-1.2.3/trees.c:668-690 | the join loop records a forest of the queue's nodes in non-decreasing frequency, each father weighing as much as its sons |
| HuffmanQueue.ForceCodes | 14th_nand/zlib-1.2.3/trees.c:650-657 | puts into the heap, with frequency 1, exactly the symbols that bring their number to two |
| HuffmanQueue.TwoIsForced | 14th_nand/zlib-1.2.3/trees.c:650-657 | 2 is among the forced symbols if and only if 1 is the only symbol that occurs |
| TreeDepth.CutIfDeep | 14th_nand/zlib-1.2.3/trees.c:513-530 | the first pass finds an overflow if and only if some leaf of the tree lies deeper than max_length |
| TreeDepth.DeepIsHeavy | 14th_nand/zlib-1.2.3/trees.c:532-535 | a tree with a leaf deeper than max_length weighs at least the Fibonacci number of max_length + 3 |
| BitLengths.Repair | 14th_nand/zlib-1.2.3/trees.c:532-547 | the overflow loop always finds a shorter leaf to move down, ends, keeps the number of leaves and makes the Kraft sum exactly 1 |
| BitLengths.Reassign | 14th_nand/zlib-1.2.3/trees.c:549-566 | the leaves get the repaired lengths, rarer ones the longer ones, and the counter changes by exactly the change in size |
| BitLengths.GenBitlen | 14th_nand/zlib-1.2.3/trees.c:490-567 | lengths of at most max_length, Kraft sum exactly 1, no more frequent symbol with a longer code, exact counters, and the least total of all prefix codes unless some leaf of the recorded tree lies deeper than max_length |
| DynTree.BuildTree | 14th_nand/zlib-1.2.3/trees.c:619-701 | from any frequencies: a complete code for all occurring symbols, exact counters for both encodings, fairness, and the least total of all prefix codes when two symbols occur and no leaf of their tree is deeper than max_length, which is so whenever the frequencies add up to less than a Fibonacci number; codes are forced only when at most one symbol occurs |
| StaticTables.TrStaticInit | 14th_nand/zlib-1.2.3/trees.c:238-318 | the constant tables are the tables of the format: lengths, distances, bases and the fixed codes |
| RunLength.ReadAll | 14th_nand/zlib-1.2.3/trees.c:707-797 | the run-length symbols for a list of code lengths read back to that list, and every repeat count fits its extra bits |
| RunLength.ReadOpsBits | 14th_nand/zlib-1.2.3/inflate.c:876-923 | the bits of those symbols, read by the state CODELENS, give the same lengths and stop exactly behind them |
| TreeSending.ScanTree | 14th_nand/zlib-1.2.3/trees.c:707-746 | counts exactly the run-length symbols of the lengths, and sets the guard behind the last one |
| TreeSending.SendTree | 14th_nand/zlib-1.2.3/trees.c:752-797 | sends exactly the bits of those symbols |
| BitWriting.BitWriter.SendBits | 14th_nand/zlib-1.2.3/trees.c:188-215 | appends the bits of the value, lowest first, across the 16-bit buffer |
| BitWriting.BitWriter.BiWindup | 14th_nand/zlib-1.2.3/trees.c:1178-1191 | fills up the last byte with zero bits |
| BitWriting.BitWriter.CopyBlock | 14th_nand/zlib-1.2.3/trees.c:1197-1219 | aligns, and sends the length, its complement and the bytes |
| BlockRoundTrip.ReadStatic | 14th_nand/zlib-1.2.3/inflate.c:775-1031 | for every list of tokens the machine reads a block with the fixed codes back to the same tokens and stops behind its end |
| BlockRoundTrip.ReadDynamic | 14th_nand/zlib-1.2.3/inflate.c:775-1031 | the same for a block with codes of its own, the transmitted trees included |
| BlockRoundTrip.ReadStored | 14th_nand/zlib-1.2.3/inflate.c:806-845 | the same for the bytes of a stored block |
| BlockLength.BodyLength | 14th_nand/zlib-1.2.3/trees.c:527-530 | the sums of frequency times length are the number of bits of the tokens |
| BlockLength.LensLength | 14th_nand/zlib-1.2.3/trees.c:826 | and those over the run-length symbols the number of bits of the transmitted lengths |
| BlockWriting.CompressBlock | 14th_nand/zlib-1.2.3/trees.c:1072-1118 | sends exactly the bits of the buffered tokens and of the end-of-block code |
| DynamicTrees.BuildBlTree | 14th_nand/zlib-1.2.3/trees.c:803-831 | builds the code for the code lengths and adds exactly the size of the transmitted trees to opt_len |
| DynamicTrees.SendAllTrees | 14th_nand/zlib-1.2.3/trees.c:838-862 | sends exactly the bits of the transmitted trees |
| BlockStates.BlockState.Tally | 14th_nand/zlib-1.2.3/trees.c:1016-1066 | one more token, counted once; true when the buffer is full |
| BlockStates.BlockState.BuildTrees | 14th_nand/zlib-1.2.3/trees.c:935-951 | opt_len and static_len are the sizes of the two encodings, 3 bits of header aside, and the codes of a block of fewer than 2583 tokens are the cheapest of all prefix codes |
| BlockStates.BlockState.TrFlushBlock | 14th_nand/zlib-1.2.3/trees.c:921-1010 | sends the cheapest of the three encodings, of the size accounted for, and the stream then decodes to what it decoded to before followed by the block |
| BlockStates.BlockState.TrStoredBlock | 14th_nand/zlib-1.2.3/trees.c:867-877 | sends a stored block that decodes to its bytes |
| BlockStates.BlockState.TrAlign | 14th_nand/zlib-1.2.3/trees.c:892-915 | one or two empty blocks that decode to nothing |
| Hashing.ThirdByte | 14th_nand/zlib-1.2.3/deflate.c:1121-1131 | two strings with the same hash and the same first two bytes have the same third byte |
| LzWindow.Inserted | 14th_nand/zlib-1.2.3/deflate.c:189-193 | INSERT_STRING keeps the chains: they lead to earlier inserted positions with the same hash |
| LzWindow.SlideKeeps | 14th_nand/zlib-1.2.3/deflate.c:1293-1325 | so does sliding the window with all entries of head and prev |
| LzWindow.CopyIsInput | 14th_nand/zlib-1.2.3/deflate.c:1232-1250 | copying a match reproduces the input |
| Deflating.Deflater.LongestMatch | 14th_nand/zlib-1.2.3/deflate.c:1027-1167 | a true match within the lookahead, and no string visited on the chain has a longer one; the search ends at the limit of the chain or of the distance, or with a match that is long enough |
| Deflating.Deflater.FillWindow | 14th_nand/zlib-1.2.3/deflate.c:1266-1376 | window, chains and hash stay right across slides; positions in the input stay what they are |
| Deflating.Deflater.DeflateFast | 14th_nand/zlib-1.2.3/deflate.c:1448-1547 | at every return the blocks sent and the tokens tallied stand for the input up to strstart, every distance being at most MAX_DIST; at the end the stream decodes to the whole input |
| Deflating.Deflater.DeflateSlow | 14th_nand/zlib-1.2.3/deflate.c:1554-1674 | the same with lazy matching, the pending literal counted |
| Deflating.Deflater.DeflateStored | 14th_nand/zlib-1.2.3/deflate.c:1390-1438 | the same for stored blocks |
| DeflateStreams.DeflateStream.Deflate | 14th_nand/zlib-1.2.3/deflate.c:552-856 | which code is returned, as an if-and-only-if for each; with Z_STREAM_END the bytes handed out decode to all input taken; after a sync or full flush that left room they decode to all of it so far; Z_OK with room left has taken all input; Finish with room left ends the stream, and without room every call is nearer to the end; no distance exceeds MAX_DIST |
| FormatFacts.ReachLonger | 14th_nand/zlib-1.2.3/inflate.c:466-480 | what was read from a stream is read from every longer stream as well |
| Windows.Window.UpdateWindow | 14th_nand/zlib-1.2.3/inflate.c:323-371 | the circular window holds the last 32K of all output |
| Inflating.Inflater.Inflate | 14th_nand/zlib-1.2.3/inflate.c:554-1152 | any call takes and gives what the machine reading the whole stream takes and gives, stops only where it must, and returns stream end or data error exactly when the machine does |
| Inflating.Inflater.InflateFast | 14th_nand/zlib-1.2.3/inffast.c:67-305 | stays within input and output, ends where the slow path is after the same symbols, and holds fewer than 8 bits after giving bytes back |
| Inflating.ChunksDoNotMatter | 14th_nand/zlib-1.2.3/inflate.c:482-541 | two runs over prefixes of one stream that have ended are in the same state: bytes, bits consumed, and end or error |
| Inflating.NothingIsMissed | 14th_nand/zlib-1.2.3/inflate.c:482-541 | a run that has had all of a stream and could not go on has ended where the stream ends |
| RoundTrips.InflatePieces | 14th_nand/zlib-1.2.3/inflate.c:482-541 | any sequence of calls with any pieces of input and room is one run over the stream |
| RoundTrips.RunsAgree | 14th_nand/zlib-1.2.3/inflate.c:482-541 | two such runs never contradict each other, and once ended have given the same bytes and result |
| RoundTrips.InflateTwice | 14th_nand/zlib-1.2.3/inflate.c:482-541 | chunk independence for two schedules of calls |
| RoundTrips.Recovered | 14th_nand/zlib-1.2.3/inflate.c:1133-1152 | inflating a stream that decodes to some data gives a beginning of the data and never an error, and all of it at the end |
| RoundTrips.DeflateInflate | 14th_nand/zlib-1.2.3/deflate.c:552-856 | data deflated at any level and strategy in any pieces inflates to the data in any other pieces; a last call that asks for the end and has room to spare ends the stream with all data taken |
| RoundTrips.DeflateRest | 14th_nand/zlib-1.2.3/zlib.h:296-302 | calls with Finish and any room, over and over, come to the end of the stream, which then decodes to all of the data |
| RoundTrips.InflateRest | 14th_nand/zlib-1.2.3/inflate.c:1133-1152 | calls of inflate with any room, over and over, come to the end of a stream that decodes, with all of its bytes |
| RoundTrips.RoundTrip | 14th_nand/zlib-1.2.3/zlib.h:296-302 | any data at any level and strategy, after any calls of deflate and of inflate, comes back as it was |
| BackInflating.BackInflater.Room | 14th_nand/zlib-1.2.3/infback.c:201-212 | hands a full window out, loses no output, and keeps the end of what was handed out readable behind the new output |
| BackInflating.BackInflater.TurnMatch | 14th_nand/zlib-1.2.3/infback.c:568-586 | a pass of a match that wraps around the window continues the match of the stream |
| BackInflating.BackInflater.FastTurn | 14th_nand/zlib-1.2.3/inffast.c:186-193 | a turn that goes on adds one token, whose distance is at most the bytes written and whave; a turn that rejects a distance has found one that is more |
| BackInflating.BackInflater.InflateFast | 14th_nand/zlib-1.2.3/inffast.c:67-305 | with the window as output buffer the fast loop ends where the slow path is after the same symbols, or at a distance that reaches back before the first byte |
| BackInflating.BackInflater.InflateBack | 14th_nand/zlib-1.2.3/infback.c:241-612 | ends with all output handed out and the unused input exactly behind the stream, with a data error only for a format error or a distance before the first byte, and with a buffer error only if a callback failed; out() gets full windows and at last the rest; with all input at hand a distance is only rejected where it is more than the output and the output at the entry of the fast loop, or near the ends of stream and window |
| BackInflating.BackAgrees | 14th_nand/zlib-1.2.3/infback.c:281-596 | a stream that inflate decodes to the end is decoded by inflateBack to the same bytes whenever out() succeeds, whatever the window held; and it succeeds if it takes as many windows as the output fills |
| BackInflating.BackEndMeans | 14th_nand/zlib-1.2.3/infback.c:560-565 | a stream that inflateBack decodes to the end is one that inflate decodes if and only if no distance reaches back before the first byte |
| FarDistances.LetPass | 14th_nand/zlib-1.2.3/inffast.c:186-193 | with all input at hand a stream is decoded to its end, even where inflate rejects it, if each distance that reaches back before the first byte is no more than the output together with the output at every earlier symbol with the same codes, and is not near the ends of stream and window |
| FarDistances.SampleNotNear | 14th_nand/zlib-1.2.3/inffast.c:186-193 | the sample stream has a distance that reaches back before the first byte |
| FarDistances.DecodersDiffer | 14th_nand/zlib-1.2.3/infback.c:466-473 | for the sample stream inflate returns a data error, and inflateBack the end, with bytes of the old window in the output |
| RoundTrips.InflateBoth | 14th_nand/zlib-1.2.3/infback.c:241-612 | a run of inflate and a call of inflateBack over one stream, each in its own pieces, give the same bytes |
| Crc32.MakeCrcTable | 14th_nand/zlib-1.2.3/crc32.c:106-146 | table k holds the register after a byte and k zero bytes, table k + 4 the same with its bytes reversed |
| Crc32.SerialIs | 14th_nand/zlib-1.2.3/crc32.c:84-105 | feeding a byte bit by bit is adding it to the register and eight zero steps |
| Crc32.SlicedStep | 14th_nand/zlib-1.2.3/crc32.c:254-259 | 32 steps of the register are four lookups, one for each byte |
| Crc32.Crc32 | 14th_nand/zlib-1.2.3/crc32.c:219-249 | on every machine and for every buffer at every address the bit-at-a-time CRC; 0 for no buffer |
| Crc32.Crc32Little | 14th_nand/zlib-1.2.3/crc32.c:262-294 | the same for the little-endian loops |
| Crc32.Crc32Big | 14th_nand/zlib-1.2.3/crc32.c:302-335 | the same for the big-endian loops on the byte-reversed register |
| Crc32.OperatorTimes | 14th_nand/zlib-1.2.3/crc32.c:342-356 | the matrix of k zero bits times a vector is the register after k zero bits |
| Crc32.Crc32Combine | 14th_nand/zlib-1.2.3/crc32.c:370-423 | the first CRC after as many zero bytes as the second block has, plus the second CRC |
| Crc32.Combined | 14th_nand/zlib-1.2.3/crc32.c:370-423 | and that is the CRC of the concatenation, for all blocks |
| Adler32.Update | 14th_nand/zlib-1.2.3/adler32.c:57-125 | the checksum of section 2.2 of RFC 1950 for every length, no sum exceeding 32 bits, with or without division |
| Adler32.NmaxFits | 14th_nand/zlib-1.2.3/adler32.c:12-14 | NMAX is the largest number of bytes without overflow |
| Adler32.LateIsEarly | 14th_nand/zlib-1.2.3/adler32.c:92-120 | reducing late is reducing at every step |
| Adler32.Combine | 14th_nand/zlib-1.2.3/adler32.c:128-148 | both halves are the numbers in 1..65521 congruent to the two sums over the arguments |
| Adler32.CombinedHalves | 14th_nand/zlib-1.2.3/adler32.c:128-148 | for the checksums of two blocks both halves are congruent to those of the concatenation, and the result is its checksum if and only if neither sum over the arguments is a multiple of 65521 |
| Adler32.CombineFails | 14th_nand/zlib-1.2.3/adler32.c:128-148 | a concatenation whose checksum adler32_combine can never give |
| Rtime.Compress | 14th_nand/mtd-utils-05.07.23/util/compr_rtime.c:29-66 | writes the pairs for a prefix of the source, nothing behind them, and fails exactly if they are not shorter |
| Rtime.Decompress | 14th_nand/mtd-utils-05.07.23/util/compr_rtime.c:69-101 | writes what the pairs stand for, the byte loop and the memcpy branch alike |
| Rtime.RunIsLongest | 14th_nand/mtd-utils-05.07.23/util/compr_rtime.c:50-54 | each run is as long as it can be, up to 255 |
| Rtime.RoundTrip | 14th_nand/mtd-utils-05.07.23/util/compr_rtime.c:29-101 | the pairs fit the room, and decompressing them to the length of the prefix gives back exactly that prefix |
| Compressors.Registry.Register | 14th_nand/mtd-utils-05.07.23/util/compr.c:304-329 | the compressor goes behind all of at least its priority and before all of less, and the list stays sorted |
| Compressors.Registry.SetPriority | 14th_nand/mtd-utils-05.07.23/util/compr.c:441-466 | the first compressor of the name moves to where its new priority belongs; the others keep order and priority; 1 if there is none |
| Compressors.Registry.SetDisabled | 14th_nand/mtd-utils-05.07.23/util/compr.c:419-429 | switches the first compressor of the name and no other; 1 if there is none |
| Compressors.Registry.Compress | 14th_nand/mtd-utils-05.07.23/util/compr.c:187-301 | the result fits the room and unpacks to the part of the data reported; by priority it is the first compressor that packs, by size the first of the shortest; the data as it is if none packs |
| Compressors.RtimeInit | 14th_nand/mtd-utils-05.07.23/util/compr_rtime.c:105-117 | rtime meets the contract of a compressor |
| JffsNodes.TiledAppend | 14th_nand/mtd-utils-05.07.23/util/mkfs.jffs2.c:695-742 | nodes and padding written one after the other stay readable one after the other |
| JffsNodes.TiledScan | 14th_nand/mtd-utils-05.07.23/util/mkfs.jffs2.c:1218-1319 | a scan of a block visits exactly the nodes in it, whatever the rest of the buffer holds |
| JffsImages.ProcessBuffer | 14th_nand/mtd-utils-05.07.23/util/mkfs.jffs2.c:1218-1319 | visits the nodes of that scan and keeps the largest inode number, though it changes the buffer on the way |
| JffsImages.ParseImage | 14th_nand/mtd-utils-05.07.23/util/mkfs.jffs2.c:1321-1341 | block by block it sees the nodes of every block of an image and nothing else |
| JffsImages.LargestNumber | 14th_nand/mtd-utils-05.07.23/util/mkfs.jffs2.c:1265-1266 | the number it ends with is the largest inode number in the image, so an appended image can use the numbers behind it |
| JffsImages.Reread | 14th_nand/mtd-utils-05.07.23/util/mkfs.jffs2.c:1321-1341 | over what any of the writers have written it sees the nodes of the log in order, and ends with the largest inode number among them |
| JffsImages.NodeInImage | 14th_nand/mtd-utils-05.07.23/util/mkfs.jffs2.c:716-742 | every node is in the image on a word boundary, inside one erase block, behind the node before it, with the right checksums; every block begins with a clean marker if there are any |
| JffsImages.Image.PadBlockIfLessThan | 14th_nand/mtd-utils-05.07.23/util/mkfs.jffs2.c:723-742 | afterwards the request fits the current block behind its clean marker, and no node has been lost |
| JffsImages.Image.WriteDirent | 14th_nand/mtd-utils-05.07.23/util/mkfs.jffs2.c:744-773 | adds the directory entry of the next version, laid out as all others |
| JffsImages.Image.WriteSingle | 14th_nand/mtd-utils-05.07.23/util/mkfs.jffs2.c:939-1019 | adds the directory entry and the one node of a directory, pipe or special file, with the next inode number |
| JffsImages.Image.WriteSymlink | 14th_nand/mtd-utils-05.07.23/util/mkfs.jffs2.c:891-937 | the same for a link, of which no more than 254 bytes are kept |
| JffsImages.Image.WriteRegularFile | 14th_nand/mtd-utils-05.07.23/util/mkfs.jffs2.c:775-889 | adds nodes of versions 1..n that tile the content without gap and unpack to it; one empty node for an empty file, nothing for a file that is too large |
| JffsImages.FileRoundTrip | 14th_nand/mtd-utils-05.07.23/util/mkfs.jffs2.c:825-867 | unpacking these nodes in the order of their versions gives the content back |
| JffsImages.Image.PadImage | 14th_nand/mtd-utils-05.07.23/util/mkfs.jffs2.c:1127-1143 | the padding at the end reaches the size asked for and keeps the image readable, wherever it ends |

## Left out

- The zlib and gzip wrappers, preset dictionaries, Z_BLOCK, deflateParams, deflateTune, deflateCopy, deflatePrime,
  inflatePrime, inflateSync, allocation, version checks and messages: plumbing around the raw stream.
- deflateBound and compressBound: their argument is not in the code.
- gzio.c, minigzip.c, the examples, tslib, the kernel drivers and the flash utilities: input and output only.
- Build variants FASTEST, UNALIGNED_OK, INFLATE_STRICT, PKZIP_BUG_WORKAROUND, TRUNCATE_BLOCK and BUILDFIXED. The tables
  of the fixed codes are built by `inflate_table` where inffixed.h lists them.
- inflateBack's window size is fixed to 32K as well, and its state is new for each call. The decoder modes inside its
  LEN state are named in the state; in infback.c they are places in the code.
- inflate's window size is fixed to 32K (wbits 15); it is allocated with the state, not on first use.
- The decoding tables are separate sequences, not parts of one array of ENOUGH entries.
- The scalar fields of struct inflate_state are one record that the methods replace.
- pending_buf, d_buf and l_buf are three buffers; that they overlay each other is not modelled.
- The counters opt_len and static_len are unbounded; prev starts as zeros; set_data_type is left out.
- longest_match compares one byte at a time where the C code unrolls eight comparisons; the buffers it may read beyond
  the lookahead are part of the window.
- JffsImages.Image: erase block sizes that are not a multiple of 4, and clean markers so large that the largest node
  does not fit a block beside one, are excluded, and so are inode numbers beyond 32 bits. crc32 of mtd-utils is a
  parameter that is 0 for no bytes. The walk over the directories, the device table and the options are left out.
- Compressors.Registry: the circular list is a sequence, so the pointer updates of list_add and list_del are not
  modelled. zlib as a compressor is any function that meets the contract of a compressor; buffers, the compression check
  and the statistics other than the counters are left out.
- Compressors.RtimeInit: rtime is taken to fail with less than 2 bytes of room and for more than 32767 bytes.
- Rtime.Compress: a destination of fewer than 2 bytes is excluded, because the C code's unsigned subtraction then
  wraps around and it writes beyond the buffer.
- Adler32.Combine: a negative length is excluded; Crc32.Crc32Combine likewise does not end on one in C.
