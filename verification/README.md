# Verified model of an embedded support library

Dafny models of the parts of the nklabs library and its Raspberry Pi Pico port that carry the hardest
promises, and proofs of those promises:

- **DEFLATE and zlib** (`Bits`, `BitIO`, `Huffman`, `HuffmanTable`, `LeafSort`, `PackageItems`,
  `PackageMerge`, `LZ77`, `MatchSearch`, `LZ77Encoder`, `RunLength`, `Inflate`, `Refill`, `SpoiltStream`, `DeflateFormat`,
  `FixedCodes`, `DynamicExample`, `BlockSize`, `Deflate`, `Zlib`): bit reader and writer, canonical codes, the two-level
  decoding table, best length-limited codes by boundary package-merge, the LZ77 encoder with hash chains, inflate and
  deflate. `Inflated` is the meaning of a stream, one bit at a time; `InflateStream` equals it on every input, and
  `DeflateStream` writes streams whose meaning is the data: blocks of the type asked for, with the tokens that the match
  rules choose, each dynamic block with the best codes for them. `Searched` and `Parsed` are the match rules, without tables.
- **PNG scanlines** (`Buffers`, `Bitwise`, `Bitmap`, `Filter`, `FilterImage`, `Adam7`, `Scanlines`): the five
  filters, padding of rows, Adam7, and the two pipelines, with everything that works in place in place.
- **Two-bank flash database** (`Flash`, `EraseBlocks`, `Crc32`, `Checked`, `EraseMask`, `Database`, `UnevenBanks`):
  programming ANDs, erasing sets 0xFF, and power may fail between any two operations. `Durable` and `LastIsWritten` are
  the safety theorems over whole runs.
- **AES-128, CBC and CTR** (`AesField`, `AesTables`, `AesSbox`, `Aes`, `AesExample`, `AesModes`).
- **Calendar** (`DateTime`) and **console receive ring with one-shot wakeup** (`Uart`).

Code that changes buffers, tables or counters step by step is modelled by methods and classes that do so too; each
is proved against a function of its inputs, and the laws are lemmas about these functions. I/O, the serializer and
the scheduler are parameters or logs. Values published for checksums, ciphers, codes and filters are proved of the
definitions (`FixedCodes`, `DynamicExample`, `AesExample`, `KnownAnswers`). `dafny verify dfyconfig.toml` checks everything.

Where the code and its documentation disagree the model follows the code:

- `ensureBits32` (libnklabs/src/lodepng.c:580-598) shifts the fifth byte by 7 - bp%8 instead of 8 - bp%8. A distance
  whose code and extra bits need more than 31 - bp%8 bits can be misread. `BitIO.Refill32`,
  `Refill.DistanceExact` and `Refill.ReadersAgree` say exactly when it is not, for one refill, one distance and a
  whole stream; `BitIO.RefillFails` and `SpoiltStream.StreamFails` give inputs for which it is.
- The write loop of nkchecked.c finds block starts with `address & (erase_size - 1)` (libnklabs/src/nkchecked.c:129-133),
  which is the remainder only for powers of two; libnklabs/inc/nkchecked.h:46 does not ask for one. `EraseMask.MaskExact`
  says exactly for which areas this works; `UnevenBanks.BothLost` shows a database it destroys.
- The `ensureBits` functions answer "no" also when exactly enough bits are left.
- While code lengths are read, errors 13, 14 and 15 only leave the inner loop and may be replaced by 50
  (libnklabs/src/lodepng.c:1202-1263).
- The end code of a block is accepted even if its bits lie behind the end of the input
  (libnklabs/src/lodepng.c:1358-1368).

## Model

| member | source | states |
|---|---|---|
| `BitIO.BitWriter.WriteBit` | libnklabs/src/lodepng.c:457-463 | appends one bit to the stream, least significant bit of each byte first; a new byte is begun when the last one is full |
| `BitIO.BitWriter.WriteBits` | libnklabs/src/lodepng.c:465-475 | appends the low n bits of a number, lowest first |
| `BitIO.BitWriter.WriteBitsReversed` | libnklabs/src/lodepng.c:478-484 | appends n bits of a number, highest first (Huffman codes) |
| `BitIO.BitReader.EnsureBits9` | libnklabs/src/lodepng.c:527-540 | the low 9 bits of the buffer are then the next 9 bits of the stream, zeros behind its end; "yes" means enough bits are left, and with exactly enough the answer can be "no" |
| `BitIO.BitReader.EnsureBits17` | libnklabs/src/lodepng.c:543-558 | as EnsureBits9, for 17 bits |
| `BitIO.BitReader.EnsureBits25` | libnklabs/src/lodepng.c:561-577 | as EnsureBits9, for 25 bits |
| `BitIO.BitReader.EnsureBits32` | libnklabs/src/lodepng.c:580-598 | the buffer is the word with the fifth byte one place too low; it holds the next n bits if and only if Intact32 holds |
| `BitIO.Refill32` | libnklabs/src/lodepng.c:580-598 | for every position and every n up to 32: the first n bits of the 32-bit refill are the next n bits of the stream if and only if Intact32 holds (fewer than five bytes left, or n at most 31 - bp%8, or the misplaced bits happen to agree) |
| `BitIO.RefillFails` | libnklabs/src/lodepng.c:580-598 | a refill that does not deliver 25 bits: bytes 0, 0, 0, 0, 1 from bit 7 on |
| `BitIO.BitReader.ReadBits` | libnklabs/src/lodepng.c:612-616 | returns the next n bits of the stream as a number and moves behind them |
| `Huffman.PrefixFree` | libnklabs/src/lodepng.c:834-848 | canonical codes of RFC 1951 section 3.2.2 are prefix-free whenever the Kraft sum is at most 1: no bit sequence starts with the codes of two symbols |
| `Huffman.DecodeMatch` | libnklabs/src/lodepng.c:1121-1135 | a bit sequence that starts with the code of a symbol decodes to that symbol |
| `Huffman.CompleteDecodes` | libnklabs/src/lodepng.c:702-815 | with Kraft sum exactly 1 every bit sequence starts with some code |
| `Huffman.IncompleteStuck` | libnklabs/src/lodepng.c:702-815 | with Kraft sum below 1 the sequence of ones starts with no code |
| `Huffman.OverfullCollides` | libnklabs/src/lodepng.c:702-815 | with Kraft sum above 1 some symbol has a code that, cut to its length, is 0 again, like that of the first symbol |
| `HuffmanTable.MakeCodes` | libnklabs/src/lodepng.c:822-848 | the codes built without resetting blcount[0] are, after masking, the canonical codes |
| `HuffmanTable.MakeTable` | libnklabs/src/lodepng.c:702-815 | for at most 288 symbols the two-level table is refused (error 55) if and only if two or more symbols are present and the Kraft sum is not 1; otherwise every 9-bit head and every second-level entry means what prefix decoding means |
| `HuffmanTable.HuffmanTree.MakeFromLengths2` | libnklabs/src/lodepng.c:822-856 | codes and table of the stored lengths, with MakeTable's error |
| `HuffmanTable.HuffmanTree.MakeFromLengths` | libnklabs/src/lodepng.c:863-872 | stores lengths and builds the tree |
| `HuffmanTable.DecodeSymbol` | libnklabs/src/lodepng.c:1121-1135 | on every buffer, lookup in the two-level table gives the symbol of plain prefix decoding and advances by exactly its length; INVALIDSYMBOL if and only if no code matches |
| `LeafSort.SortLeaves` | libnklabs/src/lodepng.c:931-951 | the bottom-up merge sort sorts by weight, permutes, and keeps leaves of equal weight in order |
| `PackageItems.MergeLightest` | libnklabs/src/lodepng.c:954-977 | taking the lighter of the next leaf and the next package, always, gives the lightest choice of r items among all splits into leaves and packages |
| `PackageItems.Lightest` | libnklabs/src/lodepng.c:979-1055 | every vector of lengths up to c + 1 that is worth r items of list c weighs at least as much as its first r items |
| `PackageMerge.Lists.AddItem` | libnklabs/src/lodepng.c:954-977 | one item for list c, a leaf or a package of two chains of the list below: the two chains kept stand for exactly the first items of the full list (ListOk), the other lists are untouched, and a package carries the weight of both its chains |
| `PackageMerge.Lists.BoundaryPM` | libnklabs/src/lodepng.c:954-977 | asking list c for one more chain answers exactly one request more and leaves the lists above alone; while more items are to come, the lists below are kept ready |
| `PackageMerge.ChainKraft` | libnklabs/src/lodepng.c:1034-1040 | the Kraft sum of the code lengths that a chain of list c stands for is 2^c (2 a - r), a being the leaves it covers and r the requests answered |
| `PackageMerge.CodeLengths` | libnklabs/src/lodepng.c:979-1055 | for every frequency vector with 2^maxbitlen >= numcodes: every symbol in use gets a length in 1..maxbitlen, the Kraft sum is exactly 1, with two or more symbols in use the others get 0, and no length vector with Kraft sum at most 1 and lengths up to maxbitlen has a smaller weighted sum; error 80 otherwise |
| `PackageMerge.OtherCode` | libnklabs/src/lodepng.c:979-1055 | every code for the symbols in use, with lengths up to maxbitlen, weighs at least as much as the first 2n - 2 items of the last list |
| `PackageMerge.ChainOptimal` | libnklabs/src/lodepng.c:1031-1045 | a chain that weighs as much as those items gives code lengths of least weighted sum |
| `LZ77.SearchCodeIndex` | libnklabs/src/lodepng.c:1471-1483 | the largest index whose table value does not exceed the value |
| `LZ77.AddLengthDistance` | libnklabs/src/lodepng.c:1485-1501 | appends code and extra bits of a length and a distance |
| `LZ77.CopyCodes` | libnklabs/src/lodepng.c:1485-1501 | for every length 3..258 and distance 1..32768 the extra values fit their extra bits, and base plus extra is the value again |
| `LZ77.LengthTable` | libnklabs/src/lodepng.c:639-647 | the length codes in closed form: from 3 on each base follows the range of the code before it, four codes for each number of extra bits, 258 on its own |
| `LZ77.DistanceTable` | libnklabs/src/lodepng.c:649-657 | the distance codes in closed form: from 1 on, two codes for each number of extra bits from the fifth code on |
| `MatchSearch.CountZeros` | libnklabs/src/lodepng.c:1577-1585 | the exact zero run at a position, capped at 258 and at the end of the input |
| `MatchSearch.UpdateZeros` | libnklabs/src/lodepng.c:1640-1645 | whenever the hash is 0 the running zero count is the exact zero run at this position, also after a step back |
| `MatchSearch.Hash.UpdateHashChain` | libnklabs/src/lodepng.c:1588-1596 | after a position is entered the tables describe exactly the positions entered, with their hashes and zero counts: heads lead to the newest position of each key, links to the one before, until the slot is used again; entering a position again after its heads were forgotten changes nothing |
| `MatchSearch.LinkLeads` | libnklabs/src/lodepng.c:1588-1596 | if the window has an earlier position with the same key, the link of a position leads to the newest such position |
| `MatchSearch.LedIsLast` | libnklabs/src/lodepng.c:1653-1703 | a link that leads to an earlier position of the window with the same key leads to the newest one, however stale the tables |
| `MatchSearch.MatchLength` | libnklabs/src/lodepng.c:1667-1683 | skipping min(zeros there, zeros here) bytes gives the same match length as comparing every byte |
| `MatchSearch.LongestMatch` | libnklabs/src/lodepng.c:1653-1703 | equal to a search that knows no tables (Searched): the candidates compared are the positions of the window with the same hash, newest first, or those with the same number of zeros once the match is longer than the zeros; the search ends when the chain, the allowed number of candidates or a good enough match ends it; the match taken is the first of the longest ones |
| `MatchSearch.SearchedMeans` | libnklabs/src/lodepng.c:1653-1703 | the newest position of the window with the same hash is always compared, if there is one; the match taken is a candidate compared, and none of them matches longer |
| `MatchSearch.StepByHash` | libnklabs/src/lodepng.c:1699-1702 | a slot reached on the hash chain holds the newest position before the last candidate with the same hash |
| `MatchSearch.MoreByHash` | libnklabs/src/lodepng.c:1699-1702 | if the window has a further position with the same hash, the hash chain does not end before it |
| `MatchSearch.StepByZeros` | libnklabs/src/lodepng.c:1695-1697 | a slot reached on the chain of zero counts holds the newest position before the last candidate with as many zeros |
| `MatchSearch.MoreByZeros` | libnklabs/src/lodepng.c:1695-1697 | if the window has a further position with as many zeros, that chain does not end before it |
| `LZ77Encoder.EncodeLZ77` | libnklabs/src/lodepng.c:1607-1754 | expanding the output after the bytes before inpos gives back exactly data[..insize]; every token is the one that the rules choose (Parsed): the longest match found there if it is worth its bits, else the byte, with lazy matching the byte when the next position matches longer by more than one; distances stay within 1..windowsize-1, the hash has exactly the positions entered, and errors 60 and 90 occur exactly for bad windows |
| `LZ77Encoder.TokenChosen` | libnklabs/src/lodepng.c:1705-1754 | each token of the output is chosen by the rules at the place where it starts |
| `LZ77Encoder.LiteralMeans` | libnklabs/src/lodepng.c:1729-1735 | a byte is emitted, unless to put off a match, only if every candidate compared matches less than 3 bytes or less than minmatch, or the longest match has 3 bytes and is more than 4096 bytes away |
| `LZ77Encoder.CopyMeans` | libnklabs/src/lodepng.c:1729-1737 | a copy is the longest match of the candidates compared, of at least 3 and minmatch bytes, and not of 3 bytes from more than 4096 bytes away |
| `LZ77Encoder.EqualBytes` | libnklabs/src/lodepng.c:1607-1754 | n equal bytes, n >= 4, windowsize >= 8, minmatch <= 3: a literal, then a copy of min(n - 1, 258) bytes from one byte back, and nothing more up to n = 259 |
| `RunLength.PackLengths` | libnklabs/src/lodepng.c:1919-1951 | replaying the run-length symbols 16, 17 and 18 (RFC 1951 section 3.2.7) from the first one on gives back exactly the length sequence, every repeat count fits its extra bits, and the runs are exactly those of the rule RunsFrom: repeats as long as possible, of zeros from three on, of others from four on |
| `Inflate.CopyMatch` | libnklabs/src/lodepng.c:1347-1357 | copying the first `distance` bytes at once and the rest one by one is the byte-by-byte copy, also when source and target overlap |
| `Inflate.ReadCopy` | libnklabs/src/lodepng.c:1307-1357 | length, distance and copy of one match, with the errors 16, 18 and 52 |
| `Inflate.ReadSymbols` | libnklabs/src/lodepng.c:1285-1376 | the symbol loop computes the function Symbols, which reads one symbol at a time from the bits |
| `Inflate.GetTreeInflateDynamic` | libnklabs/src/lodepng.c:1152-1282 | reads the trees of a dynamic block; equal to the function DynamicTrees with all its errors, including runs across the boundary of the two alphabets |
| `Inflate.GetTreeInflateFixed` | libnklabs/src/lodepng.c:1145-1149 | the fixed trees, which are complete; FixedCodeIs and FixedDistanceIs say which codes they give |
| `FixedCodes.FixedCodeIs` | libnklabs/src/lodepng.c:1085-1101 | the literal/length codes of RFC 1951 section 3.2.6 as numbers: 8 bits from 0x30, 9 bits from 0x190, 7 bits from 0, 8 bits from 0xc0 |
| `FixedCodes.FixedDistanceIs` | libnklabs/src/lodepng.c:1103-1116 | the distance codes are the five bits of the symbol |
| `FixedCodes.OneByte` | libnklabs/src/lodepng.c:1285-1376 | the three bytes 75, 4, 0 inflate to the one byte 97 |
| `FixedCodes.Example` | libnklabs/src/lodepng.c:1285-1376 | a fixed block of ten bytes, seven literals and a copy of 17 from 6 bytes back, inflates to "abcdef" four times |
| `DynamicExample.ClclOrder` | libnklabs/src/lodepng.c:659-662 | the order of the code length code lengths in closed form |
| `DynamicExample.Example` | libnklabs/src/lodepng.c:1152-1282 | a dynamic block of thirteen bytes, with runs of zeros in its code lengths and no distance code, inflates to the one byte 97 |
| `Inflate.InflateHuffmanBlock` | libnklabs/src/lodepng.c:1285-1376 | one fixed or dynamic block, equal to the function Block |
| `Inflate.InflateNoCompression` | libnklabs/src/lodepng.c:1378-1409 | one stored block: errors 52, 21 and 23, else its bytes |
| `Inflate.InflateStream` | libnklabs/src/lodepng.c:1411-1435 | on every input, valid or not, the reader with its buffer, tables and chunked copies returns exactly what the function Inflated says: the same bytes or the same error |
| `Refill.DistanceExact` | libnklabs/src/lodepng.c:1322-1339 | the reader gets the distance that RFC 1951 says if and only if the refill delivered all bits of its code and extra bits (Intact32); for all streams, positions and trees |
| `Refill.SymbolsAgree` | libnklabs/src/lodepng.c:1285-1376 | over one block's symbols: the reader reads the same distances as RFC 1951 if and only if every refill met on the way is intact, and then both readings are equal |
| `Refill.ReadersAgree` | libnklabs/src/lodepng.c:580-598 | for every byte sequence: the reader reads the same distances as RFC 1951 if and only if the stream is intact, and on intact streams it returns exactly what RFC 1951 says, bytes or error |
| `SpoiltStream.StreamFails` | libnklabs/src/lodepng.c:580-598 | for any 2049 bytes a whole stream, a stored block and a dynamic one, that RFC 1951 reads as those bytes and three more and that the reader refuses with 52 |
| `DeflateFormat.TokensSent` | libnklabs/src/lodepng.c:1797-1820 | the bits of any usable tokens, followed by the end code, decode to their expansion: by RFC 1951 always, by the reader if the distances are short enough or intact where they stand |
| `DeflateFormat.RunsSent` | libnklabs/src/lodepng.c:1202-1263 | the bits of any valid runs decode to the lengths they stand for |
| `DeflateFormat.HeaderSent` | libnklabs/src/lodepng.c:1152-1282 | the header of a dynamic block decodes to its two trees |
| `DeflateFormat.StreamSent` | libnklabs/src/lodepng.c:1411-1435 | any sequence of valid blocks decodes to their expansions, one after the other: by RFC 1951 always, by the reader if the distances are short enough or the stream is intact |
| `BlockSize.TokensSize` | libnklabs/src/lodepng.c:1797-1820 | the tokens of a block take as many bits as the weighted sum of the code lengths by the numbers of uses, and their extra bits |
| `BlockSize.BestCodes` | libnklabs/src/lodepng.c:1888-1909 | codes of least weighted sum for the exact numbers of uses make a block that spends no more bits on its tokens than any other block with the same tokens, fixed or dynamic |
| `Deflate.MakeFromFrequencies` | libnklabs/src/lodepng.c:1058-1073 | a complete tree within the bit limit that has a code for every symbol in use, of least weighted length |
| `Deflate.WriteLZ77Data` | libnklabs/src/lodepng.c:1797-1820 | appends the bits of the tokens that the encoded values stand for |
| `Deflate.CountFrequencies` | libnklabs/src/lodepng.c:1892-1902 | every symbol is counted exactly as often as the tokens use it, the end code once |
| `Deflate.WriteRuns` | libnklabs/src/lodepng.c:2010-2018 | appends the bits of the packed code lengths |
| `Deflate.WriteClcl` | libnklabs/src/lodepng.c:2007-2008 | appends the code length code lengths in their permuted order |
| `Deflate.CountClcl` | libnklabs/src/lodepng.c:1967-1975 | drops trailing zeros of the permuted order, never below four |
| `Deflate.DeflateFixed` | libnklabs/src/lodepng.c:2046-2087 | appends the bits of a valid fixed block that expands to data[start..end], with the tokens that the match rules choose |
| `Deflate.DeflateDynamic` | libnklabs/src/lodepng.c:1823-2044 | appends the bits of a valid dynamic block that expands to data[start..end], with the tokens that the match rules choose; no block with the same tokens spends fewer bits on them, and the header is trimmed: alphabets end with a symbol in use, code lengths are packed by the rule with a best code for the runs |
| `Deflate.DeflateNoCompression` | libnklabs/src/lodepng.c:1758-1790 | stored blocks of at most 65535 bytes each |
| `Deflate.DeflateBlock` | libnklabs/src/lodepng.c:2108-2123 | block k of the data is of the type asked for, stands for its piece of the data, and has the tokens chosen with the hash that the pieces before it left (BlockIs) |
| `Deflate.DeflateStream` | libnklabs/src/lodepng.c:2089-2127 | for every input, block type, window and match setting: the bytes are exactly those of the stored stream, or of one block for each piece of the data, each of the type asked for, with the chosen tokens and, if dynamic, best codes and trimmed header (Emitted); so bits 1 and 2 are the block type. The stream, whatever follows it, inflates to the data when read by RFC 1951, and with the reader of this library whenever what is read is intact; with safe settings or at most 2051 bytes without any further condition; error 61, 60 or 90 exactly for bad settings |
| `Deflate.DeflateBlocks` | libnklabs/src/lodepng.c:2108-2123 | the same for several blocks that share one hash |
| `Deflate.FirstType` | libnklabs/src/lodepng.c:2089-2127 | an emitted stream begins with the block type asked for |
| `Deflate.PiecesAre` | libnklabs/src/lodepng.c:2098-2110 | the number and the edges of the pieces |
| `Deflate.EqualBytesPacked` | libnklabs/src/lodepng.c:2089-2127 | 4 to 259 equal bytes become one block with two tokens, a literal and a copy |
| `Zlib.UpdateAdler32` | libnklabs/src/lodepng.c:2157-2175 | one reduction per 5552 bytes gives the checksum of RFC 1950 section 8.2 that reduces after every byte, from every starting value |
| `Zlib.AddBytes` | libnklabs/src/lodepng.c:2166-2169 | 5552 additions with 32-bit wrap-around never wrap |
| `Zlib.ZlibDecompress` | libnklabs/src/lodepng.c:2188-2226 | errors 53, 24, 25, 26, those of inflate, and 58 for a wrong checksum; else the data; for all inputs but those of ReadsBefore |
| `Zlib.ThreeBytes` | libnklabs/src/lodepng.c:2219-2223 | an input for which the source reads its checksum from before the input: 120, 1, 3 |
| `Zlib.WrongChecksum` | libnklabs/src/lodepng.c:2219-2223 | a stream that unpacks is refused with 58 exactly when its last four bytes are not the checksum of its data |
| `Zlib.ZlibCompress` | libnklabs/src/lodepng.c:2241-2276 | 0x78, 0x01, the deflated bytes as DeflateStream emits them, and the Adler-32 checksum, highest byte first; a packed stream unpacks to the data although the deflate reader also sees the checksum: by RFC 1951 always, by the reader of this library when intact or safe |
| `KnownAnswers.WikipediaAdler` | libnklabs/src/lodepng.c:2157-2175 | the checksum of "Wikipedia" is 0x11e60398 |
| `KnownAnswers.ZlibExample` | libnklabs/src/lodepng.c:2188-2226 | a zlib stream of nine bytes unpacks to the one byte 97 |
| `Filter.PaethPredictorIsPaeth` | libnklabs/src/lodepng.c:3904-3911 | the two-comparison form is the Paeth predictor of PNG section 9.4; with only one neighbour it is that neighbour |
| `Filter.UnfilterFiltered` | libnklabs/src/lodepng.c:4031-4126 | unfiltering undoes filtering for every filter type, line above and pixel width |
| `KnownAnswers.FilterExample` | libnklabs/src/lodepng.c:5301-5343 | a line filtered with each of the five kinds, as PNG section 9.2 has it |
| `Filter.FilterScanline` | libnklabs/src/lodepng.c:5301-5343 | each filtered byte is the byte less its prediction, for all five filters, with and without a line above |
| `Filter.UnfilterScanline` | libnklabs/src/lodepng.c:4031-4126 | all five filters, with the Paeth loop unrolled two, three and four times: equal to the byte-at-a-time definition also when input and output overlap in one buffer; nothing else changes; error 36 exactly for unknown filters |
| `Filter.UnfilterPaethByFour` | libnklabs/src/lodepng.c:4075-4087 | the loop in steps of four bytes keeps the byte-at-a-time meaning |
| `FilterImage.UnfilterFilteredRows` | libnklabs/src/lodepng.c:4128-4155 | unfiltering an image undoes any row-by-row choice of filters |
| `FilterImage.Unfilter` | libnklabs/src/lodepng.c:4128-4155 | unfilters an image, in place too, although rows move towards the start of the buffer as filter bytes are dropped; error 36 exactly when some filter byte is unknown |
| `FilterImage.BestFilter` | libnklabs/src/lodepng.c:5423-5446 | the filter with the smallest sum of absolute differences, the first one among equals |
| `FilterImage.FilterWith` | libnklabs/src/lodepng.c:5365-5551 | filters every row with the kind that the strategy asks for, behind the byte that names it; with the minimum-sum strategy the kind is the best of each row (ByStrategy) |
| `Bitmap.SetBitOfReversedStream` | libnklabs/src/lodepng.c:2437-2442 | sets one bit, most significant first, and no other |
| `Bitmap.RemovePaddingBits` | libnklabs/src/lodepng.c:4207-4229 | copies the lines without their padding, in place too when the input is not before the output; no other bit changes |
| `Bitmap.AddPaddingBits` | libnklabs/src/lodepng.c:5553-5570 | copies the lines and fills each up with zeros |
| `Bitmap.DropPutPadding` | libnklabs/src/lodepng.c:5553-5570 | removing the padding gives back the lines |
| `Adam7.Covered` | libnklabs/src/lodepng.c:3914-3958 | every pixel of the image lies in one of the seven passes at a place within it |
| `Adam7.Unique` | libnklabs/src/lodepng.c:3914-3958 | every place of a pass is a pixel of the image, and that pixel lies in no other pass or place |
| `Adam7.GetPassValues` | libnklabs/src/lodepng.c:3935-3958 | widths, heights and the three kinds of start positions |
| `Adam7.FormsShrink` | libnklabs/src/lodepng.c:3946-3957 | packed, padded and filtered forms of a pass grow in this order; packed and padded are equal for whole-byte pixels |
| `Adam7.ExpectedSizeIs` | libnklabs/src/lodepng.c:4854-4867 | the size the decoder predicts is filter_passstart[7] of the encoder, for every image |
| `Adam7.InterlaceBytes` | libnklabs/src/lodepng.c:5590-5602 | every cell of every pixel is stored at its place in its pass (whole-byte pixels) |
| `Adam7.InterlaceBits` | libnklabs/src/lodepng.c:5603-5619 | the same for pixels of less than a byte |
| `Adam7.DeinterlaceBytes` | libnklabs/src/lodepng.c:4175-4187 | every cell of every pixel is fetched from its place in its pass (whole-byte pixels) |
| `Adam7.DeinterlaceBits` | libnklabs/src/lodepng.c:4188-4204 | the same for pixels of less than a byte |
| `Adam7.AgreeUnique` | libnklabs/src/lodepng.c:4168-4205 | packed images that agree on their passes show the same image: deinterlacing undoes interlacing |
| `Scanlines.DecodePass` | libnklabs/src/lodepng.c:4258-4270 | unfiltering and padding removal of one pass within one buffer: the pass is packed, everything before it and behind it is untouched |
| `Scanlines.DecodedMore` | libnklabs/src/lodepng.c:4258-4270 | after a pass the earlier packed passes and the later filtered ones are intact |
| `Scanlines.PostProcessScanlines` | libnklabs/src/lodepng.c:4234-4275 | error 31 or 36, else the image that the scanlines show, with and without interlacing |
| `Scanlines.PreProcessScanlines` | libnklabs/src/lodepng.c:5624-5695 | scanlines that show the image, of exactly the predicted size: the rows of the image or of its seven passes, padded with zero bits and filtered as the strategy asks, with filter 0 for palettes and small pixels if so set (FilteredImage) |
| `Scanlines.RowsNamed` | libnklabs/src/lodepng.c:5401-5409 | with one filter for all rows, every row of the scanlines names that filter |
| `Scanlines.ShowsOne` | libnklabs/src/lodepng.c:4234-4275 | scanlines show one image only |
| `Scanlines.ShownIsGood` | libnklabs/src/lodepng.c:4234-4275 | scanlines that show an image are decoded without error |
| `Scanlines.RoundTrip` | libnklabs/src/lodepng.c:4234-4275 | decoding after encoding gives back all w*h*bpp bits, for all sizes, colour types, depths, interlace methods and choices of filters |
| `Flash.ReadModifyWrite` | nkarch_pico.c:88-128 | programming a page that was read back with some bytes replaced writes exactly those bytes, although programming can only clear bits |
| `Flash.Chip.McuWrite` | nkarch_pico.c:88-128 | writes any byte range at any alignment, page by page; the contents after every operation are those of the page steps |
| `Flash.Chip.McuErase` | nkarch_pico.c:74-86 | erases whole sectors, refuses anything else with -1 |
| `Flash.PagesPrefix` | nkarch_pico.c:88-128 | a write interrupted after any number of pages has written a first part of the data, an uninterrupted one all of it |
| `Flash.StateIs` | nkarch_pico.c:88-128 | the state after each operation is what the steps up to it make |
| `Crc32.EntryIs` | libnklabs/src/nkcrclib.c:46-112 | every entry of the table is eight steps of division by the polynomial 0x04C11DB7, for all 256 indices |
| `Crc32.UpdateIsDivision` | libnklabs/src/nkcrclib.c:114-117 | the table step is eight steps of the bitwise division, for every accumulator and byte |
| `Crc32.CrcIsDivision` | libnklabs/src/nkcrclib.c:114-126 | the running CRC is the remainder that bit-by-bit division leaves, for all data from every start |
| `Crc32.Crc32Check` | libnklabs/src/nkcrclib.c:119-126 | the running CRC of the bytes, one table step each |
| `Crc32.CrcAppend` | libnklabs/src/nkcrclib.c:114-126 | the CRC of a concatenation continues the CRC of its first part |
| `KnownAnswers.DigitsCrc` | libnklabs/src/nkcrclib.c:114-126 | the CRC of the digits 1 to 9 is 0x89a1897f, and the header of a file with them is their number and this CRC, lowest byte first |
| `Checked.CheckedFile.WriteOpen` | libnklabs/src/nkchecked.c:89-108 | erases the first block and starts an empty file |
| `Checked.CheckedFile.Write` | libnklabs/src/nkchecked.c:111-148 | appends a buffer: as much at a time as the mask leaves of a block, with an erase wherever the masked address is zero, for every erase size and also beyond the end of the area; size and CRC follow |
| `EraseBlocks.MaskIsRemainder` | libnklabs/src/nkchecked.c:129-133 | for powers of two the mask `address & (erase_size - 1)` is the remainder, for every address |
| `EraseBlocks.Neighbour` | libnklabs/src/nkchecked.c:129-133 | for every other erase size each address with masked value zero has another one less than a block away |
| `Checked.OneBlock` | libnklabs/src/nkchecked.c:129-133 | an area whose blocks the mask finds has a power of two as erase size or only one block |
| `Checked.OverrunErases` | libnklabs/src/nkchecked.c:127-145 | a write past the end of the area erases the block behind it (erase size a power of two) |
| `Checked.CheckedFile.WriteClose` | libnklabs/src/nkchecked.c:151-158 | writes the header in one operation |
| `Checked.CheckedFile.ReadOpen` | libnklabs/src/nkchecked.c:27-68 | accepts exactly the files whose size fits the area and whose CRC is right, with any buffer of at least 8 bytes |
| `Checked.CheckedFile.Read` | libnklabs/src/nkchecked.c:71-85 | the bytes of a block of the file, fewer at its end |
| `Checked.FileWritten` | libnklabs/src/nkchecked.c:89-158 | for any split of data that fits an area whose blocks the mask finds (MaskFits): the file is good and holds the concatenation, nothing outside the area changes, and every write goes to erased cells |
| `EraseMask.MaskExact` | libnklabs/src/nkchecked.c:111-148 | every file that fits, in any pieces, on any flash, comes out right if and only if the mask is zero at the starts of the area's blocks and nowhere else in it |
| `EraseMask.Astray` | libnklabs/src/nkchecked.c:126-145 | started where the mask is zero within a block, a write to the end of the area erases the cell behind it or leaves a cell of it unerased |
| `Checked.FileTorn` | libnklabs/src/nkchecked.c:89-158 | interrupted after the first and before the last operation, the file reads bad and nothing outside the area has changed (areas as in FileWritten) |
| `Checked.TornIsBad` | libnklabs/src/nkchecked.c:41-43 | an erased header is rejected by the size check alone |
| `Database.Save` | libnklabs/src/nkdbase.c:51-101 | writes the next revision to the bank of its parity and bumps the revision; its flash operations are exactly SaveSteps, whatever the erase sizes |
| `Database.Load` | libnklabs/src/nkdbase.c:105-158 | yields the newer good bank by signed comparison of the revisions, or -1 when neither is good |
| `Database.ConsistentLoads` | libnklabs/src/nkdbase.c:123-134 | two good banks whose revisions differ by one modulo 256: the newer one is chosen, also at wrap-around |
| `Database.SaveKeeps` | libnklabs/src/nkdbase.c:51-101 | with banks whose blocks the mask finds, a completed save becomes the current revision and never touches the bank that held the one before |
| `Database.CutKeeps` | libnklabs/src/nkdbase.c:51-101 | with such banks, a save cut off after any number of flash operations before the header leaves the current revision |
| `Database.HistoryIsCuts` | libnklabs/src/nkdbase.c:51-101 | what a power loss can leave behind is what some first part of the operations makes |
| `Database.Durable` | libnklabs/src/nkdbase.c:51-158 | with such banks, after any run of saves, loads and power losses between flash operations, load yields the last save whose header was written |
| `Database.LastIsWritten` | libnklabs/src/nkdbase.c:51-158 | after any such run that starts with a current revision: load yields the data of the last save that got as far as its header, and the revision counts those saves modulo 256 |
| `UnevenBanks.MaskParts` | libnklabs/src/nkchecked.c:129-133 | erase size 0x3000: the mask is 0x2000 at the start of the second block and 0 at 0x4000 and 0x8000, within blocks |
| `UnevenBanks.OneBlockFits` | libnklabs/src/nkchecked.c:129-133 | an area of one block at 0x9000 with that erase size works all the same: the condition is wider than powers of two |
| `UnevenBanks.BothLost` | libnklabs/src/nkdbase.c:51-158 | two adjacent banks of that erase size: whatever the flash holds, a save of more than 0x7ff8 bytes into the first bank, cut off before its header, leaves nothing to load |
| `Database.ErasedIsConsistent` | libnklabs/src/nkdbase.c:105-158 | erased flash is a valid start, whatever the revision in memory |
| `AesTables.SboxInverse` | libnklabs/src/aes.c:81-117 | the inverse S-box undoes the S-box, for all 256 bytes |
| `AesSbox.SboxIs` | libnklabs/src/aes.c:81-95 | FIPS 197 section 5.1.1: each byte is substituted by the affine image of its inverse in GF(2^8), and 0 by that of 0, bit by bit |
| `AesField.XtimeXor` | libnklabs/src/aes.c:301-304 | xtime is linear |
| `AesField.MultiplyIs` | libnklabs/src/aes.c:327-346 | the macro multiplies by every constant below 32 in GF(2^8) |
| `AesField.ProductIsIdentity` | libnklabs/src/aes.c:307-366 | the product of the matrices of MixColumns and InvMixColumns is the identity |
| `AesField.UnmixMixed` | libnklabs/src/aes.c:307-366 | unmixing a mixed column gives back the column |
| `Aes.AddRoundKey` | libnklabs/src/aes.c:244-254 | adds the round key to the block in place; the rest of the buffer is untouched |
| `Aes.SubBytes` | libnklabs/src/aes.c:258-268 | substitutes every byte of the block |
| `Aes.ShiftRows` | libnklabs/src/aes.c:273-299 | the assignments shift row j left by j (FIPS 197 section 5.1.2) |
| `Aes.MixColumns` | libnklabs/src/aes.c:307-320 | the xtime form multiplies every column by the matrix of FIPS 197 section 5.1.3 |
| `Aes.InvSubBytes` | libnklabs/src/aes.c:370-380 | substitutes every byte back |
| `Aes.InvShiftRows` | libnklabs/src/aes.c:382-408 | the assignments shift row j right by j |
| `Aes.InvMixColumns` | libnklabs/src/aes.c:353-366 | multiplies every column by the matrix of FIPS 197 section 5.3.3 |
| `Aes.KeyExpansion` | libnklabs/src/aes.c:153-224 | all 44 words of the key schedule (FIPS 197 section 5.2) |
| `Aes.Cipher` | libnklabs/src/aes.c:412-435 | enciphers the block in place: ten rounds of substitution, shift, mix and round key, the last one without mixing |
| `AesExample.ExampleIs` | libnklabs/src/aes.c:412-435 | with the round keys that KeyExpansion makes of 000102..0f, the block 00112233..ff is enciphered to 69c4e0d86a7b0430d8cdb78070b4c55a (FIPS 197 appendix C.1) |
| `Aes.InvCipher` | libnklabs/src/aes.c:438-461 | deciphers the block in place |
| `Aes.DecipherEnciphered` | libnklabs/src/aes.c:412-461 | InvCipher undoes Cipher for every block and every round-key array |
| `AesModes.Context.CbcEncryptBuffer` | libnklabs/src/aes.c:501-515 | CBC encryption in place of all blocks that the length begins; the last ciphertext block becomes the IV |
| `AesModes.Context.CbcDecryptBuffer` | libnklabs/src/aes.c:517-530 | CBC decryption in place of all blocks that the length begins; the last ciphertext block becomes the IV |
| `AesModes.CbcRoundTrip` | libnklabs/src/aes.c:501-530 | decryption undoes encryption for any number of blocks |
| `AesModes.CbcBlock` | libnklabs/src/aes.c:501-515 | every block of ciphertext is the block of data, combined with the ciphertext before it or the IV, enciphered |
| `AesModes.CbcEncryptSplit` | libnklabs/src/aes.c:501-515 | any block-aligned split into calls with the saved IV encrypts the same |
| `AesModes.CbcDecryptSplit` | libnklabs/src/aes.c:517-530 | any block-aligned split into calls with the saved IV decrypts the same |
| `AesModes.Context.Increment` | libnklabs/src/aes.c:554-564 | the carry loop adds one to the counter |
| `AesModes.Context.CtrXcryptBuffer` | libnklabs/src/aes.c:539-570 | xors every byte with the key stream for any length and advances the IV by ceil(length/16) |
| `AesModes.ValueIncBy` | libnklabs/src/aes.c:554-564 | advancing n times adds n modulo 2^128 |
| `AesModes.CtrTwice` | libnklabs/src/aes.c:539-570 | applied twice from the same IV it is the identity |
| `DateTime.DatetimeToUnix` | libnklabs/src/nkdatetime.c:148-205 | seconds since 1970 for every valid date, -1 for every other |
| `DateTime.UnixToDatetime` | libnklabs/src/nkdatetime.c:207-251 | for every time: the result is a valid date with exactly these seconds if and only if the time is from 1970 on and before the year 65536; the month never leaves 0..11, and the weekday is (days + 4) mod 7 as long as the days fit 31 bits |
| `DateTime.SplitDays` | libnklabs/src/nkdatetime.c:230-240 | year, month and day of a number of days; the month never leaves 0..11 |
| `DateTime.SecondsWrap` | libnklabs/src/nkdatetime.c:221-223 | the second of the day is right although the 32-bit product wraps from day 24856 on |
| `DateTime.UnixUnique` | libnklabs/src/nkdatetime.c:148-205 | valid dates with the same seconds are equal but for the weekday: the conversions are inverse to each other |
| `DateTime.DaysBeforeYearIs` | libnklabs/src/nkdatetime.c:138-144 | days before a year in closed form |
| `DateTime.WeekdayIs` | libnklabs/src/nkdatetime.c:40-47 | the closed formula is (days since epoch + 4) mod 7 for every date from 1970 on |
| `KnownAnswers.LastSecond` | libnklabs/src/nkdatetime.c:148-205 | 2^31 - 1 seconds are Tuesday, 19 January 2038, 03:14:07 |
| `Uart.Receiver.RxTurn` | nkuart_pico.c:114-122 | one turn of the loop: accepts the byte if the ring has room, else changes nothing |
| `Uart.Receiver.OnUartRx` | nkuart_pico.c:127-134 | a completed interrupt appends its bytes and submits a waiting task |
| `Uart.Receiver.GetChar` | nkuart_pico.c:136-145 | returns the oldest byte and takes it out of the ring, or returns -1 and changes nothing if there is none |
| `Uart.Receiver.KeyboardHit` | nkuart_pico.c:147-158 | tells whether there is a byte to read |
| `Uart.Receiver.SetUartCallback` | nkuart_pico.c:55-69 | submits at once when there is something to read, else waits |
| `Uart.CellWraps` | nkuart_pico.c:114-145 | free-running 32-bit counters select the same cells across their wrap-around |
| `Uart.StepSound` | nkuart_pico.c:55-158 | every step keeps the order and number of bytes, the bound of 2048, and that a pending callback implies an empty ring |
| `Uart.RunSound` | nkuart_pico.c:55-158 | so does every interleaving of interrupts and foreground calls |
| `Uart.RunConserves` | nkuart_pico.c:114-145 | over any run: what waited and what arrived is what the getc calls returned, in that order, and what waits now |
| `Uart.Fifo` | nkuart_pico.c:114-145 | from the start, whatever the interleaving: the bytes returned are the first ones that arrived, in order and each once, and the next getc returns the one after them, or -1 exactly if all have been returned |
| `Uart.OneShot` | nkuart_pico.c:55-134 | tasks are submitted at most as often as they were asked for |
| `Uart.ExactlyOnce` | nkuart_pico.c:55-134 | a task that is asked for is submitted exactly once: at once if there is data, else with the next interrupt |

## Left out

- MatchSearch.LongestMatch: when the window has no position with the same hash, the first candidate may be any position of the window, because a stale slot can match by chance; what is compared with it is exact.
- PackageMerge.CodeLengths: which of several best codes is chosen is not said.
- Deflate.DeflateStream: with the reader of this library the round trip holds on streams that are intact, because ensureBits32 misplaces its fifth byte; what a caller can see before the call (block type 0 or 1, no LZ77, a window of at most 2048 as by default, or at most 2051 bytes) is enough for that. Which other data make the encoder emit a distance that is not intact is not characterised.
- Deflate.DeflateStream: block type 1 requires data, because the source divides by the number of bytes; with block type 0 and no data it emits no bytes, which inflate rejects with 52.
- Zlib.ZlibDecompress: the case ReadsBefore is excluded (three bytes, valid header, last byte inflates), because the source would read the checksum from before its input.
- PackageMerge.CodeLengths: one-element frequency vectors are excluded (the source writes lengths[1]); overflow of 32-bit weights, the node pool and its garbage collection are not modelled.
- Checked.CheckedFile.Write: all operations must stay on the chip; flash operations always succeed, as those of the Pico do for whole sectors.
- Checked.FileWritten: areas are whole erase blocks; erase sizes for which the mask misses blocks are excluded, and `EraseMask.MaskExact` says that these are exactly the areas where it fails. The repository uses 4096 and 65536.
- Database.Durable: the same condition on both banks is sufficient; that it is necessary is shown for single files only, with `UnevenBanks.BothLost` as the instance for the database.
- Checked.CheckedFile.WriteOpen: flash without erase is not modelled; the flash of the Pico has it.
- Database.Save: the serializer is opaque and succeeds; the buffers of the output file are any split of the record.
- FilterImage.FilterWith: the entropy and brute-force strategies are not modelled; they differ only in how a filter among 0..4 is scored.
- Scanlines.PostProcessScanlines: sizes are unbounded integers; the overflow check on image dimensions is not modelled.
- DateTime.UnixToDatetime: signed overflow of 32-bit products is taken as wrap-around.
- Uart.Receiver.OnUartRx: only handlers that complete are modelled; with a full ring and more bytes in the UART the source loops without reading.
- Allocation failures, custom zlib callbacks, PNG chunks, colour conversion and automatic colour choice of lodepng.c.
- The engines of nkinfile.c, nkoutfile.c, nkserialize.c, nkscan.c, nksched.c and nkymodem.c, and nkdirect.c.
- Hardware drivers, CLI, pin tables, other ports (ATSAM, STM32, ZynqMP), CRC-16, CRC-8 and SHA-256: easy members or the same page loop again.
