# A verified model of the relay's codec, cryptography and transfer protocol

The server relays file chunks from a sender to receivers. It encodes captcha images as PNG and
seals its tokens. This project models, in Dafny, the code that does so, and proves what it
promises.

- **DEFLATE and zlib** (`lodepng.c`): bit writer and reader, canonical Huffman codes and their
  two-level lookup table, length-limited code construction by boundary package-merge over its
  garbage-collected node pool, LZ77 with hash chains, the run-length form of code lengths, stored,
  fixed and dynamic blocks in both directions, Adler-32.
- **PNG scanlines** (`lodepng.c`): the five filters and their inverses in place, padding bits,
  Adam7 interlacing, and the 32-bit sizes these are computed with.
- **Cryptography** (`portable8439.c`, `sha256.cpp`): Poly1305 on 44/44/42-bit limbs, ChaCha20, their
  combination as AEAD, and streaming SHA-256.
- **The relay protocol** (`buffer.cpp`, `chunk.cpp`, `atomicset.h`, `transfersession.cpp`,
  `client.cpp`): each public method is one atomic step of a state machine; classes refine the
  steps, and runs of steps carry ghost records of who confirmed what.

The model takes the source's form: objects with fields are classes, loops are loops over arrays
and mutable state, and each method is proved against a specification. Bytes are integers from 0 to 255
and bit strings are sequences. Machine words are natural numbers whose wrap-around is written out
where it can happen. Where the code goes on outside its bounds, or the PNG code with sizes that have wrapped
around, the model stops and says so in a result (`outside`, `Overrun`, `wrapped`); when this
happens is stated exactly.

Ghost parameters name what an input may encode, so that one method states both what happens on
any input and what happens on an encoding.

## Main results

- Deflating and inflating are inverse exactly where the decoder reads all distances right:
  `DeflateStream.RoundTrip`, `Zlib.RoundTrip`; conversely whatever `Inflate.Inflate` accepts are blocks
  that stand in its input, and where their distances can be read (`SeenBlocks.FoundStand`) the output
  is what they stand for.
- `CodeLengths.HuffmanCodeLengths`: the node pool never runs out, the Kraft sum is one, and no code
  within the length limit is cheaper.
- `Lz77.EncodeLZ77`: whatever the hash chains hold, the tokens replay to the data.
- `HuffmanTable.MakeTable`, `HuffmanTree.MakeFromLengths`: lookup tables are built exactly for complete
  codes and for codes of at most one symbol, and decode them.
- `PngPostProcess.PostProcess` and `PngScanlines.EncodingDeterminesImage`: every encoding of an image
  gives the image back.
- `Poly1305.Context.Finish`, `ChaCha20.XorStream`, `Aead.OpensExactlyTheSealed`, `Sha256Stream.HashOf`:
  the fast forms compute what RFC 8439 and FIPS 180-4 define.
- `RelayBuffer.EveryRun`, `RelayBuffer.RemovedWhenConfirmed`, `RelaySession.CompletionIsNoticed`,
  `RelaySession.SuccessIsDelivery`, `ClientAcks.AllRunInTheEnd`: safety over all runs.

## Findings

Properties that the code does not have, each with an input or a run and the exact condition.

- The 32-bit look-ahead splices its fifth byte one bit too low (lodepng.c:587). n bits are right for
  all inputs exactly if n <= 31 - bp % 8 (`BitStream.EnsureBits32Exact`); for a given input, more bits
  are right exactly under the condition of `LookAhead.SeenExact`. So there are valid dynamic blocks that
  the decoder misreads (`Misread.MisreadStream`). It decodes a stream as what it stands for exactly
  under `LookAhead.BlocksRight` (`Inflate.Inflate`); windows up to 2048 guarantee that.
- A fixed block for no data divides by zero (`DeflateStream.Deflate`).
- Stored blocks are written with a 32-bit read position (lodepng.c:1763). All data of n bytes come back
  exactly if n <= 2^32 (`StoredData.SentExact`; `StoredData.SentDiffers` names the data that do not), and
  the output goes on after the last block exactly for 2^32 to 2^32 + 65533 bytes
  (`DeflateStream.DeflateNoCompression`).
- The zlib checksum is computed for the size in 32 bits (lodepng.c:2219, 2258). It covers all data of n
  bytes exactly if n < 2^32 (`Adler32.SummedExact`); when a round trip still succeeds is
  `Zlib.SumKept`.
- The zlib decompressor reads before its input exactly for a valid header followed by the single byte
  3, if the checksum is wanted (`Zlib.Decompress`, `Zlib.SomeReadOutside`).
- The code length function writes outside its result exactly for alphabets of one symbol
  (`CodeLengths.HuffmanCodeLengths`). No caller in the repository passes such an alphabet.
- Encryption refuses an empty plain text whose address lies inside the cipher buffer, although no byte is
  shared; otherwise the overlap test is exact (`Aead.OverlapExact`).
- Decryption computes a wrapped text size exactly for less than sixteen bytes
  (`Aead.TextSizeFits`, `Aead.Decrypt`). Its one caller in the repository rejects these first
  (skaptcha_tools.cpp:92).
- PNG sizes are computed in 32 bits. For plain images the decoder is right exactly if
  w * bpp + 7 < 2^32; 2^28 pixels of 16 bits in one line is an image that the overflow check admits and
  the decoder loses (`PngScanlines.PlainExact`, `PngScanlines.WideImageWraps`). The conditions for
  Adam7 are `PngWords.PassesFit` and `PngWords.PixelsFit`, exact by `Adam7Pixels.GetPassValues` and
  `PngWords.PixelsExact`.
- A chunk counts its confirmations instead of recording who confirmed. A repeated confirmation, or a
  departure after one, removes a chunk that some consumer never confirmed
  (`RelayBuffer.DoubleConfirmationLoses`, `RelayBuffer.DepartureLoses`); the counter is right exactly
  under `RelayBuffer.ReceiveCounts` and `RelayBuffer.DepartCounts`, and a step loses a chunk exactly
  under `RelayBuffer.MayLose` (`RelayBuffer.LosesExactly`).
- A departure can complete a session without anyone noticing (`RelaySession.StalledSession`), exactly
  under the condition of `RelaySession.DepartureStalls`.
- Once the sender's client is destroyed no departure takes effect, neither the destruction of a receiver
  nor a kick (`RelaySession.DepartureIgnored`). A receiver that leaves then with an unconfirmed chunk keeps
  the session listed until its time is up (`RelaySession.WaitsForTimeout`, `RelaySession.AbandonedSession`).
- `searchCodeIndex` returns 0, not the array size that its comment announces, for values below all
  entries (`Tokens.SearchCodeIndex`). The model follows the code.

## Model

| member | source | states |
|---|---|---|
| `BitStream.BitWriter.WriteBits` | src/captcha/skaptcha_backend/lodepng.c:465-475 | the written bit string grows by the bits of the value, least-significant bit first |
| `BitStream.BitWriter.WriteBitsReversed` | src/captcha/skaptcha_backend/lodepng.c:478-484 | the same, most-significant bit first |
| `BitStream.BitReader.EnsureBits9` | src/captcha/skaptcha_backend/lodepng.c:527-540 | the look-ahead word agrees with the stream in nine bits from any position, with zeros beyond the end; the result says exactly when the bits are there |
| `BitStream.BitReader.EnsureBits17` | src/captcha/skaptcha_backend/lodepng.c:543-558 | the same for 17 bits |
| `BitStream.BitReader.EnsureBits25` | src/captcha/skaptcha_backend/lodepng.c:561-577 | the same for 25 bits |
| `BitStream.BitReader.EnsureBits32` | src/captcha/skaptcha_backend/lodepng.c:580-598 | the look-ahead word is computed as the code does, wrongly spliced fifth byte included; it agrees with the stream only in the 31 - bp % 8 low bits |
| `BitStream.EnsureBits32Exact` | src/captcha/skaptcha_backend/lodepng.c:580-598 | for every position in a byte: n bits are right for all inputs if and only if n <= 31 - bp % 8 |
| `LookAhead.SeenExact` | src/captcha/skaptcha_backend/lodepng.c:580-616 | n bits behind a code are read right, although the last e of them are not reliable, if and only if the e stream bits after the first unreliable one are zeros, or they and it all are ones; with or without a fifth byte of input |
| `BitStream.BitReader.ReadBits` | src/captcha/skaptcha_backend/lodepng.c:612-616 | returns the next bits of the stream as a number and moves on by as many |
| `CanonicalCode.AssignCodes` | src/captcha/skaptcha_backend/lodepng.c:822-856 | counting and next-code tables give every symbol the canonical code of its length (section 3.2.2 of RFC 1951) |
| `CanonicalCode.PrefixFree` | src/captcha/skaptcha_backend/lodepng.c:822-856 | with a Kraft sum of at most one no codeword is a prefix of another |
| `CanonicalCode.Exhaustive` | src/captcha/skaptcha_backend/lodepng.c:822-856 | with a Kraft sum of one every bit string starts with a codeword |
| `CanonicalCode.CodeFits` | src/captcha/skaptcha_backend/lodepng.c:822-856 | every assigned code fits its length |
| `HuffmanTable.MakeTable` | src/captcha/skaptcha_backend/lodepng.c:702-815 | for every prefix-free alphabet the two-level table is built if and only if every 15-bit window starts with a codeword or fewer than two symbols are present; then each lookup finds the symbol whose codeword comes and its length, and the invalid symbol where none comes; any table accepted keeps lookups inside it, and no short code shares its head entry with another |
| `HuffmanTable.ReverseBits` | src/captcha/skaptcha_backend/lodepng.c:619-624 | the bits of a code in the order in which the reader sees them |
| `HuffmanTable.Spread` | src/captcha/skaptcha_backend/lodepng.c:754-785 | a code of l bits fills exactly the entries whose low bits are the code, or stops at one in use |
| `HuffmanTree.MakeFromLengths` | src/captcha/skaptcha_backend/lodepng.c:863-872 | of all alphabets of up to 1024 symbols exactly those with a Kraft sum of one or with at most one symbol are accepted, and the tree writes and reads their canonical code and reads the invalid symbol where no codeword comes |
| `HuffmanTree.MakeFromFrequencies` | src/captcha/skaptcha_backend/lodepng.c:1058-1073 | a complete code for all occurring symbols; absent symbols at the end are dropped down to mincodes |
| `HuffmanTree.FixedTrees` | src/captcha/skaptcha_backend/lodepng.c:1085-1114 | the fixed trees write and read the codes of section 3.2.6 of RFC 1951 |
| `HuffmanTree.DecodeSymbol` | src/captcha/skaptcha_backend/lodepng.c:1121-1135 | through both table levels, returns the symbol whose codeword comes next and consumes its length, at most 15 bits |
| `HuffmanTree.CodewordLookup` | src/captcha/skaptcha_backend/lodepng.c:1121-1135 | where the stream continues with the codeword of a symbol, the lookup finds that symbol and its length |
| `GreedyMerge.ItemsAscend` | src/captcha/skaptcha_backend/lodepng.c:954-977 | leaves and packages of every list come in ascending weight |
| `GreedyMerge.GreedyCheapest` | src/captcha/skaptcha_backend/lodepng.c:954-977 | whatever selection of leaves is as wide as t items of a list weighs at least as much as its first t items |
| `GreedyMerge.NoCodeCheaper` | src/captcha/skaptcha_backend/lodepng.c:954-1055 | no code within the length limit, complete or not, costs less than the first 2n - 2 items of the last list |
| `GreedyMerge.SumsFit` | src/captcha/skaptcha_backend/lodepng.c:962-966 | the sum that boundaryPM computes in list c is positive and at most c times the sum of all weights, so the source's int holds it while that is below 2^31 |
| `PackageMerge.StepOk` | src/captcha/skaptcha_backend/lodepng.c:954-977 | every boundaryPM call keeps the invariant of all lists it touches: which chain each look-ahead is, that weights ascend, that it takes the items of greedy merging |
| `PackageMerge.CompleteLengths` | src/captcha/skaptcha_backend/lodepng.c:1040-1044 | the chain of 2n - 2 items gives every leaf a length from 1 to the limit, with Kraft sum exactly one |
| `PackageMerge.FinalChain` | src/captcha/skaptcha_backend/lodepng.c:954-977 | the last call, which does not recurse, makes the chain of the first 2n - 2 items |
| `PackageMerge.ChainCost` | src/captcha/skaptcha_backend/lodepng.c:1042-1044 | the lengths read off a chain cost as much as the items of the chain weigh |
| `NodePool.SomeCellFree` | src/captcha/skaptcha_backend/lodepng.c:902-928 | with 2 L (L + 1) cells at most half are ever reachable from a chain, so collecting finds a free one |
| `NodePool.TakeOk` | src/captcha/skaptcha_backend/lodepng.c:902-928 | building a node in a free cell changes no live chain |
| `BoundaryPM.BPMLists.constructor` | src/captcha/skaptcha_backend/lodepng.c:1013-1037 | the pool and the look-ahead heads start as the chains of one and of two leaves in every list |
| `BoundaryPM.BPMLists.Create` | src/captcha/skaptcha_backend/lodepng.c:902-928 | the new node heads the intended chain, all live chains are as before, and its cell is no longer free |
| `BoundaryPM.BPMLists.Collect` | src/captcha/skaptcha_backend/lodepng.c:906-922 | mark and collect: the free list is exactly the cells reachable from no chain, and is not empty |
| `BoundaryPM.BPMLists.Advance` | src/captcha/skaptcha_backend/lodepng.c:954-977 | on the pool, one list takes the leaf or package that the specification takes |
| `BoundaryPM.BPMLists.Step` | src/captcha/skaptcha_backend/lodepng.c:954-977 | boundaryPM over the pool with its recycled nodes refines the step on chains as values |
| `LeafSort.Sort` | src/captcha/skaptcha_backend/lodepng.c:931-951 | the bottom-up merge sort between two buffers sorts by weight and permutes |
| `CodeLengths.HuffmanCodeLengths` | src/captcha/skaptcha_backend/lodepng.c:979-1055 | error 80 exactly for no symbols or too many for the limit; otherwise a complete code of at most maxbitlen bits for exactly the present symbols, such that no prefix code within the limit takes fewer bits for the message; fewer than two present symbols get two one-bit codes; for an alphabet of one symbol, and only then, it writes outside the lengths |
| `CodeLengths.TotalPermuted` | src/captcha/skaptcha_backend/lodepng.c:979-1055 | sums over the leaves, of Kraft terms or of costs, do not depend on their order |
| `CodeLengths.ChainIsCheapest` | src/captcha/skaptcha_backend/lodepng.c:1042-1044 | lengths read off the final chain make a code of least cost for the frequencies |
| `Tokens.ReplayConcat` | src/captcha/skaptcha_backend/lodepng.c:1333-1366 | replaying two token sequences one after the other is replaying their concatenation |
| `Tokens.CopyContinues` | src/captcha/skaptcha_backend/lodepng.c:1341-1357 | a byte-by-byte, possibly overlapping copy of repeated data continues the data |
| `Tokens.SearchCodeIndex` | src/captcha/skaptcha_backend/lodepng.c:1471-1483 | the binary search finds the last table entry not above the value, and 0 for a value below all entries |
| `Tokens.AddLengthDistance` | src/captcha/skaptcha_backend/lodepng.c:1485-1501 | the four pushed numbers are the codes and extra bits of exactly this length and distance |
| `Lz77.CountZeros` | src/captcha/skaptcha_backend/lodepng.c:1577-1585 | the length of the run of zeros, at most 258 |
| `Lz77.Hash.Update` | src/captcha/skaptcha_backend/lodepng.c:1588-1596 | all chain heads, links and zero counts still describe positions inside the window or none |
| `Lz77.FindMatch` | src/captcha/skaptcha_backend/lodepng.c:1657-1703 | whatever the chains hold, a match that is found repeats the data at a distance within the window and the data before the position |
| `Lz77.EncodeLZ77` | src/captcha/skaptcha_backend/lodepng.c:1607-1754 | the errors are exactly those of the window size; the tokens replay to the data from inpos to insize, with lengths 3 to 258 and distances at most the window and the position, in spite of lazy matching, zero-run skipping and stale chains; the loop that steps back ends |
| `CodeLengthRle.Encode` | src/captcha/skaptcha_backend/lodepng.c:1919-1951 | expanding the symbols 16, 17 and 18 gives back every sequence of lengths up to 15, with all repeat counts in range |
| `DynamicTrees.ReadLengths` | src/captcha/skaptcha_backend/lodepng.c:1203-1263 | the decoder's loop reads the expansion of any coded symbol sequence into both alphabets, runs across the boundary included |
| `DynamicTrees.ReadTrees` | src/captcha/skaptcha_backend/lodepng.c:1152-1282 | on the bits of any valid description, codes of one or no symbol included, the trees are those described, and exactly these bits are consumed; conversely whatever is accepted are the bits of a valid description, and the trees are those of its codes; on any bits it stays in bounds |
| `DynamicTrees.TreesFromLengths` | src/captcha/skaptcha_backend/lodepng.c:1265-1276 | two sets of lengths are accepted if and only if there is an end code and each is complete or has at most one symbol |
| `DeflateFormat.FixedComplete` | src/captcha/skaptcha_backend/lodepng.c:1085-1114 | the fixed code lengths have Kraft sum one |
| `DeflateFormat.OneMoreBlock` | src/captcha/skaptcha_backend/lodepng.c:2089-2127 | a block written after others stands behind them in the stream |
| `Inflate.CopyMatch` | src/captcha/skaptcha_backend/lodepng.c:1341-1357 | block copies and single bytes together are the overlapping byte-by-byte copy |
| `Inflate.DecodeTokens` | src/captcha/skaptcha_backend/lodepng.c:1285-1376 | on the bits of any token sequence: its replay, consuming exactly these bits, if every match copies the right bytes at the distance that the look-ahead shows; if some match does not, an error or different output; conversely what is accepted is the replay, with the distances that the look-ahead shows, of tokens whose bits were read, only the end code reaching past the input |
| `Inflate.ReadPair` | src/captcha/skaptcha_backend/lodepng.c:1311-1357 | on the bits of any length and distance pair the copy is made at the distance that the look-ahead shows, or error 52 says that this is larger than the output; what is accepted is a pair whose bits were read, copied at the distance shown |
| `Inflate.InflateHuffmanBlock` | src/captcha/skaptcha_backend/lodepng.c:1285-1376 | the same for whole fixed and dynamic blocks, in both directions; fixed blocks are always read right |
| `Inflate.InflateNoCompression` | src/captcha/skaptcha_backend/lodepng.c:1378-1409 | accepts exactly the stored blocks, except that it refuses an empty one at the end of the input |
| `Inflate.Inflate` | src/captcha/skaptcha_backend/lodepng.c:1411-1435 | delivers what the blocks at the start of the input stand for if and only if their distances are read right and they do not end the input with an empty stored block; conversely whatever it accepts, dynamic blocks included, are blocks standing in the input, and the output is what they give with the distances that are read, at most part of the last end code being read beyond the input; of one-byte inputs it accepts exactly the byte 3 |
| `SeenBlocks.FoundStand` | src/captcha/skaptcha_backend/lodepng.c:1285-1435 | where the distances of the blocks that were found fit the reliable bits, the output is exactly what the blocks stand for |
| `SeenBlocks.PlainReadable` | src/captcha/skaptcha_backend/lodepng.c:1285-1435 | which they always do in stored and fixed blocks |
| `SeenBlocks.NextFound` | src/captcha/skaptcha_backend/lodepng.c:1422-1432 | a block that is read after others stands behind them, and goes on from their output |
| `LookAhead.DistanceExact` | src/captcha/skaptcha_backend/lodepng.c:1305-1333 | at every position of every input a distance is read right if and only if its code and extra bits are within the reliable bits or the stream bits from the first unreliable one on are alike |
| `LookAhead.ReadableBlocksRight` | src/captcha/skaptcha_backend/lodepng.c:1305-1333 | blocks whose distance codes and extra bits fit the reliable bits where they stand are read right |
| `Misread.MisreadStream` | src/captcha/skaptcha_backend/lodepng.c:1305-1341 | a valid stream of one dynamic block, in which a 12-bit distance code with 13 extra bits starts at the last bit of a byte, is not read right: the distance is read at least 4096 too long |
| `ZeroPadding.ShowsAt` | src/captcha/skaptcha_backend/lodepng.c:527-598 | what the look-ahead delivers is exactly the input followed by zero bits |
| `ZeroPadding.LookupShows` | src/captcha/skaptcha_backend/lodepng.c:1121-1135 | with a complete code some codeword always comes next, zeros beyond the end included, and the lookup finds it |
| `SeenBlocks.OneByte` | src/captcha/skaptcha_backend/lodepng.c:1411-1435 | of one-byte inputs only the byte 3 holds blocks of any type |
| `DeflateWriter.WriteLZ77Data` | src/captcha/skaptcha_backend/lodepng.c:1797-1820 | writes the codewords and extra bits of the tokens, in order |
| `DeflateWriter.DeflateFixed` | src/captcha/skaptcha_backend/lodepng.c:2046-2087 | appends one fixed block that stands for the data of its range; errors exactly as the window size demands |
| `DeflateDynamic.DeflateBlockDynamic` | src/captcha/skaptcha_backend/lodepng.c:1823-2044 | appends one dynamic block, with its own codes in run-length form, that stands for the data of its range; readable for windows up to 2048 |
| `DeflateDynamic.NearReadable` | src/captcha/skaptcha_backend/lodepng.c:1305-1333 | with distances up to 2048, code and extra bits fit the reliable bits of the look-ahead at every position |
| `DeflateStream.DeflateNoCompression` | src/captcha/skaptcha_backend/lodepng.c:1758-1790 | with its 32-bit read position, stored blocks that stand for the data with the bytes from 2^32 on replaced by those from the start; they end with the output if and only if the size is not from 2^32 to 2^32 + 65533; none for no data |
| `StoredData.SentExact` | src/captcha/skaptcha_backend/lodepng.c:1758-1790 | all data of n bytes are what their stored blocks stand for if and only if n <= 2^32 |
| `StoredData.BlockFacts` | src/captcha/skaptcha_backend/lodepng.c:1776-1786 | LEN is the number of bytes that are copied in every block, but for the last block of sizes from 2^32 to 2^32 + 65533, where more are copied |
| `DeflateStream.Deflate` | src/captcha/skaptcha_backend/lodepng.c:2089-2127 | for all block types, settings and data, error exactly when the settings are invalid, otherwise blocks, only the last one final, that stand for the data, or for what stored blocks carry of them; a division by zero exactly for no data in a fixed block |
| `DeflateStream.RoundTrip` | src/captcha/skaptcha_backend/lodepng.c:1411-2127 | for all data and settings, inflating what deflate wrote gives back what is carried, which is the data for all settings and sizes but stored blocks over 2^32 bytes, if and only if the distances in it are read right, and it does for all settings but dynamic blocks with windows over 2048; no data without compression are refused; no data in a fixed block divide by zero |
| `Adler32.UpdateAdler32` | src/captcha/skaptcha_backend/lodepng.c:2157-2175 | with reductions every 5552 bytes equals the byte-by-byte definition of section 8.2 of RFC 1950 |
| `Adler32.AddBytes` | src/captcha/skaptcha_backend/lodepng.c:2163-2172 | neither 32-bit sum wraps around between two reductions |
| `Adler32.Continued` | src/captcha/skaptcha_backend/lodepng.c:2157-2180 | updating the checksum of a with b gives the checksum of a + b |
| `Adler32.SummedExact` | src/captcha/skaptcha_backend/lodepng.c:2219-2219 | with the size passed on in 32 bits (and at 2258), the checksum covers all data of n bytes if and only if n < 2^32 |
| `Zlib.Decompress` | src/captcha/skaptcha_backend/lodepng.c:2188-2226 | header errors and the checksum check exactly; on blocks that stand for a goal, delivers the goal if and only if their distances are read right and the checksum at the end is that of its size modulo 2^32 bytes; what it accepts are blocks standing in the input and has that checksum at the end of the input; it reads before the input if and only if that is a valid header and the byte 3, with the checksum wanted |
| `Zlib.SomeReadOutside` | src/captcha/skaptcha_backend/lodepng.c:2188-2226 | the input 120, 1, 3 is read outside its bounds |
| `Zlib.Compress` | src/captcha/skaptcha_backend/lodepng.c:2241-2276 | for all settings and data the header, blocks that stand for what is carried, and the big-endian checksum of the first size modulo 2^32 bytes |
| `Zlib.RoundTrip` | src/captcha/skaptcha_backend/lodepng.c:2188-2276 | for all data and settings, decompressing what was compressed gives back what is carried if and only if the distances are read right and the checksum is kept or not looked at; for data up to 2^32 bytes, and always with compression, that is the data |
| `PngFilter.Paeth` | src/captcha/skaptcha_backend/lodepng.c:3904-3911 | the predictor of section 6.6 of RFC 2083, with its order of ties |
| `PngFilter.FilterScanline` | src/captcha/skaptcha_backend/lodepng.c:5301-5343 | every byte is the raw byte less its prediction for the filter type; an unknown type writes nothing |
| `PngFilter.FilterInjective` | src/captcha/skaptcha_backend/lodepng.c:4031-4126 | a filtered line with its type determines the line |
| `PngUnfilter.UnfilterScanline` | src/captcha/skaptcha_backend/lodepng.c:4031-4126 | in place over an overlapping buffer and with unrolled Paeth loops, gives the line that filters to the input; error 36 exactly for unknown types |
| `PngRows.Filter` | src/captcha/skaptcha_backend/lodepng.c:5365-5551 | all rows with any choice of types per row; nothing else is written |
| `PngRows.Unfilter` | src/captcha/skaptcha_backend/lodepng.c:4128-4155 | the image that filters to the data, out of place or in place towards the front; error 36 exactly if some type is unknown |
| `PngRows.DataDetermineImage` | src/captcha/skaptcha_backend/lodepng.c:4128-4155 | filtered data determine the image |
| `PngBits.SetBit` | src/captcha/skaptcha_backend/lodepng.c:2437-2442 | changes exactly one bit |
| `PngBits.ReadBit` | src/captcha/skaptcha_backend/lodepng.c:2420-2424 | the bit at the position, most-significant first in a byte |
| `PngBits.CopyBits` | src/captcha/skaptcha_backend/lodepng.c:4222-4226 | copying bit by bit within one buffer, forwards, equals copying from the original |
| `PngPadding.RemovePaddingBits` | src/captcha/skaptcha_backend/lodepng.c:4207-4229 | in place over an overlapping buffer: the rows without their padding, all other bits unchanged |
| `PngPadding.AddPaddingBits` | src/captcha/skaptcha_backend/lodepng.c:5553-5570 | the rows, each filled up with zero bits |
| `PngPadding.UnpadPadded` | src/captcha/skaptcha_backend/lodepng.c:4207-4229 | removing the padding of padded rows gives the rows back |
| `PngWords.LineExact` | src/captcha/skaptcha_backend/lodepng.c:4142-4142 | the 32-bit line length is right if and only if w * bpp + 7 < 2^32 |
| `PngWords.LinesExact` | src/captcha/skaptcha_backend/lodepng.c:5636-5636 | the 32-bit size of all lines is right if and only if it is below 2^32 |
| `PngWords.DimensionExact` | src/captcha/skaptcha_backend/lodepng.c:3941-3946 | exactly when the 32-bit width and height of a pass are right |
| `PngWords.SizesExact` | src/captcha/skaptcha_backend/lodepng.c:3948-3957 | exactly when the three 32-bit sizes of a pass are right |
| `PngWords.PixelsExact` | src/captcha/skaptcha_backend/lodepng.c:4181-4197 | all 32-bit pixel addresses of an image are right if and only if its last one is |
| `Adam7.Partition` | src/captcha/skaptcha_backend/lodepng.c:3916-3919 | every pixel lies in exactly one pass at exactly one in-range pass coordinate, and every in-range coordinate is a pixel |
| `Adam7Pixels.GetPassValues` | src/captcha/skaptcha_backend/lodepng.c:3935-3958 | computed in 32 bits, all dimensions and starts are right if and only if no value of a pass wraps around |
| `Adam7Pixels.PixelsApart` | src/captcha/skaptcha_backend/lodepng.c:3935-3958 | no two pixels overlap in the plain or in the interlaced layout |
| `Adam7Pixels.Reorder` | src/captcha/skaptcha_backend/lodepng.c:4168-4205 | interlacing (5583-5620) and deinterlacing give every pixel its place in the other layout, by bytes or by bits, unless a size or address wraps around |
| `Adam7Pixels.InterlaceRoundTrip` | src/captcha/skaptcha_backend/lodepng.c:4168-4205 | deinterlacing what was interlaced gives back every bit |
| `PngScanlines.PreProcess` | src/captcha/skaptcha_backend/lodepng.c:5624-5695 | for every size, depth, interlacing and choice of filter types the output encodes the image; error 31 exactly for depth 0; stops exactly where 32-bit values wrap around |
| `PngScanlines.EncodingDeterminesImage` | src/captcha/skaptcha_backend/lodepng.c:4234-4275 | no two images have an encoding in common |
| `PngScanlines.PlainExact` | src/captcha/skaptcha_backend/lodepng.c:4142-4142 | for plain images the computed sizes are right exactly under the conditions that encoder and decoder are stated with |
| `PngScanlines.WideImageWraps` | src/captcha/skaptcha_backend/lodepng.c:4142-4142 | a line of 2^28 pixels of 16 bits has 2^29 bytes, for which the source computes 0 |
| `PngScanlines.WrappedLosesBytes` | src/captcha/skaptcha_backend/lodepng.c:4128-4155 | whenever the line length wraps around, the lines that unfiltering writes are shorter than the image |
| `PngPostProcess.PostProcess` | src/captcha/skaptcha_backend/lodepng.c:4234-4275 | plain or interlaced, error 36 if and only if some line has an unknown filter type; from any data that encode an image, with unfiltering, unpadding and moving of passes in the input buffer, every bit of the image comes back; stops exactly where 32-bit values wrap around |
| `PngPostProcess.StartsOrdered` | src/captcha/skaptcha_backend/lodepng.c:4252-4270 | every step moves a pass towards the front, so the passes never overwrite what is still to be read |
| `PolyArithmetic.MultiplyBlock` | src/captcha/chacha20_backend/portable8439.c:995-1044 | one block on 44/44/42-bit limbs is addition and multiplication modulo 2^130 - 5, and the limbs stay in their bounds |
| `PolyArithmetic.ProductBounds` | src/captcha/chacha20_backend/portable8439.c:1010-1034 | no 64-bit factor and no 128-bit sum of products overflows |
| `PolyFinish.FullCarry` | src/captcha/chacha20_backend/portable8439.c:1062-1073 | the carries keep the value modulo p and bring every limb into its width |
| `PolyFinish.Select` | src/captcha/chacha20_backend/portable8439.c:1075-1088 | the masked selection gives the canonical residue |
| `PolyFinish.AddPad` | src/captcha/chacha20_backend/portable8439.c:1090-1103 | the sum with the pad modulo 2^128 |
| `Poly1305.ClampLimbs` | src/captcha/chacha20_backend/portable8439.c:970-993 | the three masks are the clamp of section 2.5 of RFC 8439, limb by limb |
| `Poly1305.Context.constructor` | src/captcha/chacha20_backend/portable8439.c:970-993 | a context for the key with no message |
| `Poly1305.Context.Update` | src/captcha/chacha20_backend/portable8439.c:1118-1152 | the message grows by the bytes, so every split of a message gives the same state |
| `Poly1305.Context.Finish` | src/captcha/chacha20_backend/portable8439.c:1046-1114 | the tag is the polynomial in the clamped key modulo 2^130 - 5 plus the pad modulo 2^128, for every message length |
| `Poly1305.Authenticate` | src/captcha/chacha20_backend/portable8439.c:1154-1159 | the one-shot tag of section 2.5 of RFC 8439 |
| `ChaCha20.DoubleRound` | src/captcha/chacha20_backend/portable8439.c:164-185 | the macro's eight quarter rounds on a column and a diagonal pattern |
| `ChaCha20.CoreBlock` | src/captcha/chacha20_backend/portable8439.c:164-185 | twenty rounds and the feed-forward of section 2.3 of RFC 8439 |
| `ChaCha20.WordwiseIsBytewise` | src/captcha/chacha20_backend/portable8439.c:210-233 | exclusive or by words is exclusive or by little-endian bytes |
| `ChaCha20.XorBlock` | src/captcha/chacha20_backend/portable8439.c:210-233 | whole words and the tail of a block: byte i with pad byte i, the rest of the buffer unchanged |
| `ChaCha20.XorStream` | src/captcha/chacha20_backend/portable8439.c:235-260 | byte i is combined with keystream byte i for every length, block boundaries and partial tail included |
| `Aead.KeyGen` | src/captcha/chacha20_backend/portable8439.c:277-287 | the one-time key of section 2.6 of RFC 8439 |
| `Aead.CalculateMac` | src/captcha/chacha20_backend/portable8439.c:1199-1231 | the tag of associated data and text, padded and followed by both sizes as in section 2.8 of RFC 8439 |
| `Aead.Verify` | src/captcha/chacha20_backend/portable8439.c:1161-1168 | one exactly when all sixteen bytes agree |
| `Aead.OverlapExact` | src/captcha/chacha20_backend/portable8439.c:1235-1241 | for buffers in the address space the test finds exactly those that share a byte, and besides an empty first buffer strictly inside the second |
| `Aead.WrappedOverlap` | src/captcha/chacha20_backend/portable8439.c:1272-1275 | with the size wrapped around for a cipher text of n < 16 bytes the test finds exactly the plain text buffers that start inside it, more than 16 - n bytes after its start |
| `Aead.Encrypt` | src/captcha/chacha20_backend/portable8439.c:1243-1259 | refuses, and leaves the buffer alone, exactly if the addresses overlap by the code's test; otherwise the buffer holds the sealed text and nothing else changes |
| `Aead.Decrypt` | src/captcha/chacha20_backend/portable8439.c:1261-1285 | refuses overlapping addresses; otherwise opens what is sealed, leaves the buffer alone if the tag is wrong, and goes beyond the cipher text if and only if that is shorter than a tag |
| `Aead.TextSizeFits` | src/captcha/chacha20_backend/portable8439.c:1272-1272 | the size without the tag wraps around exactly for less than sixteen bytes |
| `Aead.OpensExactlyTheSealed` | src/captcha/chacha20_backend/portable8439.c:1243-1285 | a cipher text opens to a plain text if and only if it is that text sealed |
| `Sha256.MajorityIsMaj` | src/captcha/sha256_backend/sha256.cpp:62-64 | the expression used is Maj of section 4.1.2 of FIPS 180-4 |
| `Sha256.RoundStep` | src/captcha/sha256_backend/sha256.cpp:90-110 | one iteration is one round of section 6.2.2 of FIPS 180-4 |
| `Sha256.ExtendBlock` | src/captcha/sha256_backend/sha256.cpp:82-84 | the message schedule |
| `Sha256.Transform` | src/captcha/sha256_backend/sha256.cpp:74-115 | the compression function on the block in the buffer |
| `Sha256Stream.Stream.constructor` | src/captcha/sha256_backend/sha256.cpp:12-21 | an object that has seen nothing, with the initial hash value |
| `Sha256Stream.Stream.UpdateByte` | src/captcha/sha256_backend/sha256.cpp:24-33 | the message grows by the byte; whole blocks are folded as they fill |
| `Sha256Stream.Stream.Update` | src/captcha/sha256_backend/sha256.cpp:23-34 | the message grows by the bytes, so every split gives the same state |
| `Sha256Stream.Stream.Pad` | src/captcha/sha256_backend/sha256.cpp:117-143 | the state becomes the fold over the padded message, on both sides of 56 bytes |
| `Sha256Stream.Stream.Revert` | src/captcha/sha256_backend/sha256.cpp:145-153 | the eight words in big-endian order |
| `Sha256Stream.Stream.Finish` | src/captcha/sha256_backend/sha256.cpp:45-52 | the digest of everything that was added |
| `Sha256Stream.PaddedShort` | src/captcha/sha256_backend/sha256.cpp:117-143 | the standard's padding where the length fits the last block |
| `Sha256Stream.PaddedLong` | src/captcha/sha256_backend/sha256.cpp:117-143 | the standard's padding where the length needs a block of its own |
| `Sha256Stream.HashOf` | src/captcha/sha256_backend/sha256.cpp:12-52 | an object of the code computes the hash of section 6.2 of FIPS 180-4 |
| `Sha256Constants.RoundConstantsAreCubeRoots` | src/captcha/sha256_backend/sha256.h:29-46 | each of the 64 round constants is the first 32 bits of the fraction of a prime's cube root |
| `Sha256Constants.InitialIsSquareRoots` | src/captcha/sha256_backend/sha256.cpp:12-21 | each initial word is the first 32 bits of the fraction of a prime's square root |
| `RelayBuffer.EveryRun` | src/buffer.cpp:22-253 | after every run: live and reported indices partition 1 to the maximum, each reported once; the removal flag is right; a frozen buffer has lost nothing; the queue and consumer bounds hold; live chunks are those of the stream; unfrozen, each live chunk has fewer uses than there are consumers, or none |
| `RelayBuffer.JoinerReadsAll` | src/buffer.cpp:168-185 | who can join finds every chunk of the stream so far, with its data |
| `RelayBuffer.BytesConserved` | src/buffer.cpp:22-57 | the bytes taken in are those of the live and of the removed chunks |
| `RelayBuffer.ReceiveCounts` | src/chunk.cpp:41-49 | a confirmation keeps the counter equal to the set of confirmers if and only if the consumer had not confirmed the chunk, or the counter is full |
| `RelayBuffer.DepartCounts` | src/buffer.cpp:187-193 | a departure keeps it so if and only if the consumer had not confirmed the chunk |
| `RelayBuffer.LosesExactly` | src/buffer.cpp:76-253 | in every run, a step removes a chunk that a remaining consumer has not confirmed if and only if it is a confirmation of the chunk or a departure after the freeze with the counter at most one below the number of consumers, or the end of the freeze with the counter reached, while another consumer has not confirmed |
| `RelayBuffer.FairRunDelivers` | src/buffer.cpp:76-253 | over every run where only consumers confirm, each chunk at most once, and nobody leaves after confirming a held chunk: the counter is the number of confirmers, and removed chunks were confirmed by all current consumers |
| `RelayBuffer.RemovedWhenConfirmed` | src/buffer.cpp:226-253 | in such runs a chunk leaves the buffer only in a step after which every consumer has confirmed it |
| `RelayBuffer.WholeStreamConfirmed` | src/buffer.cpp:226-253 | in such runs, with an empty buffer, every consumer has confirmed every chunk of the stream |
| `RelayBuffer.DoubleConfirmationLoses` | src/chunk.cpp:41-49 | a run with a repeated confirmation that removes a chunk a consumer never confirmed |
| `RelayBuffer.DepartureLoses` | src/buffer.cpp:187-193 | a run with a departure after a confirmation that does the same |
| `RelayObjects.AtomicSet.Size` | src/atomicset.h:17-21 | the number of members |
| `RelayObjects.AtomicSet.Remove` | src/atomicset.h:23-27 | removes the member and says whether it was one |
| `RelayObjects.AtomicSet.Add` | src/atomicset.h:29-34 | adds the member and says whether it is new |
| `RelayObjects.Chunk.HowMuchIsLeft` | src/chunk.cpp:18-29 | zero exactly when the uses reach the size of the shared consumer set |
| `RelayObjects.Chunk.IncrementUses` | src/chunk.cpp:41-49 | counts up to the size of the shared consumer set |
| `RelayObjects.Buffer.AddChunk` | src/buffer.cpp:22-57 | on the object with its map of chunks, the step of the specification and its index |
| `RelayObjects.Buffer.SetChunkAsReceived` | src/buffer.cpp:76-91 | the step of the specification; the removed indices in ascending order |
| `RelayObjects.Buffer.SetEndOfFile` | src/buffer.cpp:148-159 | the step of the specification |
| `RelayObjects.Buffer.AddNewToExpectedConsumers` | src/buffer.cpp:168-185 | the step of the specification, accepted exactly when joining is possible |
| `RelayObjects.Buffer.RemoveOneFromExpectedConsumers` | src/buffer.cpp:187-193 | the step of the specification; the removed indices in ascending order |
| `RelayObjects.Buffer.SetInitialChunksFreezingDropped` | src/buffer.cpp:202-217 | the step of the specification; true exactly if the buffer was frozen |
| `RelayObjects.Buffer.SanitizeChunks` | src/buffer.cpp:226-253 | erasing while walking the map removes exactly the chunks that wait for nobody and reports them in ascending order |
| `RelaySession.CompletionIsNoticed` | src/transfersession.cpp:314-475 | over session runs in which no receiver leaves, no listed session has an end of file and an empty buffer, in whatever order end of file, confirmations, automatic and manual drop of the freeze arrive |
| `RelaySession.SuccessIsComplete` | src/transfersession.cpp:314-475 | over every run, a session without automatic drop that ended in success has an end of file and an empty buffer |
| `RelaySession.DepartureStalls` | src/transfersession.cpp:201-225 | a departure, by itself or by a kick, leaves a completed session listed if and only if the sender exists, the session has its end of file, is not frozen, other receivers remain, and every held chunk lacks at most one confirmation |
| `RelaySession.StalledSession` | src/transfersession.cpp:201-225 | a run in which that happens |
| `RelaySession.DepartureIgnored` | src/transfersession.cpp:484-517 | once the sender's client is destroyed, neither the destruction of a receiver nor a kick changes receivers, buffer or events |
| `RelaySession.ReceiversStay` | src/transfersession.cpp:484-517 | in every continuation of such a run all receivers are waited for that were there when the sender went |
| `RelaySession.WaitsForTimeout` | src/transfersession.cpp:484-517 | in every fair continuation a session whose upload is over, whose sender is gone and which holds a chunk that some receiver never confirms stays listed until its time is up |
| `RelaySession.AbandonedSession` | src/transfersession.cpp:484-517 | a fair run to such a session, in which that receiver has left |
| `RelaySession.SessionRunsBuffer` | src/transfersession.cpp:59-475 | the buffer of every session run is that of a buffer run |
| `RelaySession.SuccessIsDelivery` | src/transfersession.cpp:314-475 | after a successful session with a fair buffer run every remaining receiver has confirmed every chunk |
| `RelaySession.CompleteIsDelivery` | src/transfersession.cpp:314-475 | the same for sessions that drop the freeze automatically |
| `TransferSession.TransferSession.AddReceiver` | src/transfersession.cpp:59-118 | on the object: receivers, buffer and events in order are those of the specification; accepted exactly when new and able to join |
| `TransferSession.TransferSession.RemoveReceiver` | src/transfersession.cpp:120-226 | the step of the specification, events in order; only a receiver that still exists is told |
| `TransferSession.TransferSession.Update` | src/transfersession.cpp:484-517 | the destruction of a client: removes the receiver if the sender exists, else ends the session before the end of the upload or without receivers, and does nothing otherwise |
| `TransferSession.TransferSession.SenderDestroyed` | src/transfersession.cpp:484-517 | from then on the sender does not exist: the session ends before the end of the upload or without receivers, and goes on otherwise |
| `TransferSession.TransferSession.AddChunk` | src/transfersession.cpp:261-289 | the step of the specification, events in order |
| `TransferSession.TransferSession.SetChunkAsReceived` | src/transfersession.cpp:314-390 | the step of the specification, events in order, with the end of the session |
| `TransferSession.TransferSession.SetEndOfFile` | src/transfersession.cpp:404-419 | the step of the specification, events in order |
| `TransferSession.TransferSession.DropInitialChunksFreeze` | src/transfersession.cpp:421-475 | the step of the specification, events in order |
| `ClientAcks.AlwaysExactlyOnce` | src/client.cpp:25-101 | in every interleaving of sends, acknowledgements, also unknown or repeated ones, timeouts and destruction, every issued callback is pending exactly while it has not run and has run at most once |
| `ClientAcks.AllRunInTheEnd` | src/client.cpp:397-424 | after destruction every issued callback has run exactly once |
| `ClientAcks.Client.SendTextWithAck` | src/client.cpp:25-77 | the step of the specification on the object's map and counter |
| `ClientAcks.Client.ResolveAck` | src/client.cpp:84-101 | runs and forgets a pending callback, ignores other ids |
| `ClientAcks.Client.Destruct` | src/client.cpp:397-424 | runs all pending callbacks, each once |

## Left out

- Inflate.Inflate: with the complement of stored lengths ignored, what is accepted is not stated; a stored block may then contradict itself.
- DeflateStream.RoundTrip: for dynamic blocks with windows over 2048 the condition is on the blocks that were written, not on the data; no data are given for which the encoder itself writes a block that is misread.
- DeflateDynamic.DeflateBlockDynamic: that the source's error 64 for a missing end code cannot occur is part of the proof, not a result.
- Lz77.EncodeLZ77: the errors 81 and 86 do not exist in the model, because they cannot occur.
- CodeLengths.HuffmanCodeLengths: weights are unbounded; the source sums them in int. GreedyMerge.SumsFit says when no sum wraps around; what happens when one does is not modelled.
- CodeLengths.HuffmanCodeLengths: 1u << maxbitlen is modelled for shifts below 32.
- PngRows.Filter: the strategies that choose filter types (minimum sum, entropy, brute force) are represented by the types they choose.
- PngScanlines.PreProcess: where a 32-bit value wraps around the model stops; what the source then does to memory is not modelled.
- PngPostProcess.PostProcess: the same.
- Adam7Pixels.Reorder: the source's two functions are one method with a direction.
- Aead.Encrypt: buffers are different arrays with addresses; that those which share a byte are refused is proved, their contents as shared memory are not modelled.
- Aead.Decrypt: what the source reads after the size has wrapped around is not modelled.
- Sha256Stream.Stream.Finish: a second digest of the same object is not modelled.
- RelayObjects.Buffer.AddChunk: the index of a chunk is unbounded.
- TransferSession.TransferSession.RemoveReceiver: re-entrance through a callback that runs at once is not modelled.
- TransferSession.TransferSession.Update: of the weak pointers only whether the sender and the receiver in question still exist is modelled.
- ClientAcks.Client.SendTextWithAck: ids do not wrap around at 2^64; timers are steps.
- Allocation failures, and 64-bit sizes other than those above; the block counter of stored blocks is unbounded.
- Custom deflate, inflate and zlib callbacks in the settings.
- PNG chunks, checksums of chunks, colour conversion, palettes, and statistics of colours.
- The 8, 16 and 32-bit variants of Poly1305 and platforms that are not little-endian.
- Conversion of a SHA-256 hash to hexadecimal text.
- Locks, threads and real time: every public method is one atomic step.
- The JSON text of events: only which events are sent, and in which order.
- The total of bytes sent out, which the source counts on download and on confirmation alike.
- Captcha drawing, random numbers, base64, the configuration parser, the web API and the front end.
- The strength of the cryptography: only what is computed is stated.
