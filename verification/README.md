# QR Code generator

A model of the QR Code generator in `src/include/qrcodegen.cpp` (ISO/IEC 18004:2015), with proofs that
its symbols can be read, survive the documented damage, and are the ones the interface promises.

The generator turns text into segments, segments into a padded bit stream, the stream into data bytes, and
the data bytes into interleaved Reed-Solomon blocks. It then draws function patterns, places the codewords
along a zigzag scan, and tries eight masks to find the one with the least penalty.

The loops of the source are methods with loops here, and the object that the source draws on is the class
`QrCode` with the grids as fields. Each method is proved against a function that describes its result in closed
form, and the functions have a second, independent characterization:

- `Galois`, `Reduction`, `Polynomials`, `ReedSolomon`, `MinimumDistance`: bytes as a field, the two polynomial loops
  against products and unique remainders, and the distance of the code.
- `Interleave`, `Codewords`: blocks and bits, with a de-interleaver and an unpacker as inverses.
- `Bits`, `BitBuffers`, `RadixGroups`, `Segments`, `Contents`, `BitStream`, `TextSegments`: segments and their
  stream, with a parser as inverse, and the shortest segment for a text.
- `Grids`, `FunctionPatterns`, `InformationWords`, `Capacity`, `Zigzag`: what is drawn where, how many modules
  remain, and in which order they are filled. The capacity formula is proved by counting a partition of the function
  modules into ten regions.
- `PatternPictures`, `AlignmentTable`, `WordTables`, `MaskPatterns`: pictures and tables of the standard, and that the
  formulas give them.
- `RunLengths`, `FinderWindows`, `LinePenalty`, `Penalty`: the penalty from run lengths and counted features, the
  streaming computation that equals it, and the score read off the modules that equals both.
- `Symbols`, `FinishedSymbols`, `SymbolPictures`, `Masking`, `QrCodes`: the finished symbol as composed, module by
  module and as pictured, the trials, and the class that draws it.
- `Reader`: an independent reader, and the end-to-end theorems.
- `Limits`, `Encoder`: the choice of version and level, and the high-level factories.
- `Tables`, `Arithmetic`, `BitVectors`, `Counting`, `Seqs`, `Results`: constants and general facts.

The central result is the contract of `Encoder.EncodeText`: for every text, encoding succeeds exactly when the
text fits the largest version; the modules are then the whole symbol, at the least version, with the best mask, and
the reader in `Reader` gets exactly that text back from them.

`dafny verify dfyconfig.toml` checks everything.

## Model

| member | source | states |
|---|---|---|
| `Encoder.EncodeText` | src/include/qrcodegen.cpp:247-250 | Succeeds exactly when the largest version can hold the text in its shortest mode, always at the low level for 2953 characters or fewer, and fails with the right exception otherwise; a reader gets the text back from the modules, which are the whole symbol of the segments at the smallest version, the highest level that fits it, and the best mask; no version below could hold the text in any single segment |
| `Encoder.EncodeBinary` | src/include/qrcodegen.cpp:253-256 | The same for bytes: exactly 2953 is the maximum at the low level, a reader gets the bytes back, and the modules are the whole symbol at the smallest version, highest level and best mask |
| `Encoder.EncodeSegments` | src/include/qrcodegen.cpp:259-317 | Invalid arguments are refused; otherwise success if and only if the largest version of the range, or version 9 or 26 within it, holds the segments, which over the full range means version 40; the version is the least one that does, the level never drops below the request and is the highest fitting one when boosted, and the modules are the symbol of the segments under the chosen mask |
| `Encoder.FindVersion` | src/include/qrcodegen.cpp:264-282 | The search stops at the least version in the range that holds the segments, and fails only if none does |
| `Encoder.BoostLevel` | src/include/qrcodegen.cpp:284-288 | The loop over levels ends at the highest level at which the data fits, never below the requested one |
| `Encoder.FitsBelow` | src/include/qrcodegen.cpp:284-288 | Whatever fits at a level fits at every lower level, so boosting cannot lower it |
| `Limits.TextHeld` | src/include/qrcodegen.hpp:259-265 | A text fits some version if and only if its exact bit length in its shortest mode fits version 40 |
| `Limits.FitsLargest` | src/include/qrcodegen.cpp:266-281 | If any version holds a list of segments then version 40 does: capacity grows faster than the count fields |
| `Limits.RangeDecides` | src/include/qrcodegen.cpp:266-281 | Some version of a range holds the segments if and only if its largest does, or version 9 or 26 within it |
| `Limits.NextHolds` | src/include/qrcodegen.cpp:266-281 | Except after versions 9 and 26, the next version holds whatever the last one does |
| `Limits.NextVersionMayLose` | src/include/qrcodegen.cpp:266-281 | The next version holds everything that a version does, for all lists and levels, if and only if the version is neither 9 nor 26 |
| `Limits.ChoiceFits` | src/include/qrcodegen.cpp:125-140 | If a version holds any single segment that spells the text, it holds the chosen one, count field included |
| `Limits.LowHolds` | src/include/qrcodegen.hpp:261-262 | Texts of up to 2953 characters always fit at the low level |
| `Limits.BinaryMaximum` | src/include/qrcodegen.hpp:270-272 | Byte data fits if and only if it is at most capacity minus 3 bytes, at most 2953 at any level and exactly 2953 at the low level |
| `Limits.MostCharacters` | src/include/qrcodegen.hpp:42-43 | No symbol of any version and level holds more than 7089 characters, in whatever list of segments |
| `Limits.MostReached` | src/include/qrcodegen.hpp:42-43 | Every string of 7089 digits is held by version 40 at the low level |
| `Reader.TextRead` | src/include/qrcodegen.cpp:247-359 | End to end: reading level and mask from the format bits, unmasking, scanning, de-interleaving and parsing gives the text back, for every text, version, level and mask that fit |
| `Reader.ContentsRead` | src/include/qrcodegen.cpp:259-359 | The same for every list of segments made by the factories |
| `Reader.DataRead` | src/include/qrcodegen.cpp:320-359 | For all data bytes, the finished symbol determines version and data, whatever the mask |
| `Reader.CodewordsRead` | src/include/qrcodegen.cpp:336-359 | Unmasking and scanning a finished symbol returns all codewords in order |
| `Reader.ScanPlaced` | src/include/qrcodegen.cpp:536-560 | All codeword bits are placed; the 0 to 7 remainder modules stay light |
| `Reader.FormatRead` | src/include/qrcodegen.cpp:416-440 | The first copy of the format bits tells level and mask |
| `Reader.DamageCorrectable` | src/include/qrcodegen.hpp:243-248 | A grid whose blocks are each within half the error correction codewords of two symbols: the two encode the same data |
| `Reader.FormatDetermined` | src/include/qrcodegen.cpp:416-440 | With at most three wrong modules in one copy of the format bits, or six in both together, level and mask are still determined |
| `Reader.SymbolDetermined` | src/include/qrcodegen.hpp:243-248 | Both kinds of damage together: two symbols of a version that a damaged grid could come from have the same level, mask and data |
| `Reader.TextDetermined` | src/include/qrcodegen.hpp:243-248 | A grid within the documented damage of the symbols of two texts, with legible format bits, forces the texts to be equal |
| `Reader.DocumentedIsCorrectable` | src/include/qrcodegen.hpp:243-248 | The documented 7, 15, 25 and 30 percent of wrong codewords per block are within that bound for every version |
| `QrCodes.QrCode.constructor` | src/include/qrcodegen.cpp:320-359 | Draws the symbol that encodes the data under the mask; mask -1 gives the lowest-numbered mask of least penalty among the eight finished candidates |
| `QrCodes.QrCode.Create` | src/include/qrcodegen.cpp:320-327 | The public constructor with its argument checks: out-of-range version or mask, wrong number of data bytes |
| `QrCodes.QrCode.ChooseMask` | src/include/qrcodegen.cpp:339-351 | The trial loop leaves only format bits changed and returns the lowest-numbered minimizer, each candidate scored with its own format bits |
| `QrCodes.QrCode.DoMasking` | src/include/qrcodegen.cpp:338-355 | Exactly one mask ends up applied, with the format bits that say so |
| `QrCodes.QrCode.DrawData` | src/include/qrcodegen.cpp:333-336 | From an all-light grid: function patterns plus interleaved codewords along the scan |
| `QrCodes.QrCode.GetModule` | src/include/qrcodegen.cpp:382-384 | The module at column x of row y, light outside the symbol |
| `QrCodes.QrCode.ApplyMask` | src/include/qrcodegen.cpp:563-584 | The double loop inverts the modules outside the function modules where the picture of the mask is dark, and nothing else |
| `MaskPatterns.InvertsAsPictured` | src/include/qrcodegen.cpp:571-578 | Each of the eight mask formulas is the repetition of its picture, for all coordinates |
| `FinishedSymbols.SymbolModule` | src/include/qrcodegen.cpp:320-359 | Every module of the finished symbol: function modules as drawn, with the format bits of the mask; elsewhere the codeword bit of that turn of the scan, or light, inverted where the picture of the mask is dark |
| `FinishedSymbols.SymbolShown` | src/include/qrcodegen.cpp:320-359 | The finished symbol is the only grid with these modules |
| `SymbolPictures.FinderShown` | src/include/qrcodegen.cpp:394-397 | Every finished symbol shows the three finder patterns with their separators as pictured, drawn over by nothing |
| `SymbolPictures.AlignmentShown` | src/include/qrcodegen.cpp:399-408 | It shows the pictured alignment pattern at every pair of table positions but the three at finder patterns |
| `SymbolPictures.TimingShown` | src/include/qrcodegen.cpp:388-392 | Between the separators row and column 6 alternate, dark on even places, also through alignment patterns |
| `SymbolPictures.FormatShown` | src/include/qrcodegen.cpp:416-440 | Both copies show the tabled word of level and mask, bit by bit at listed modules, and the dark module is dark |
| `SymbolPictures.VersionShown` | src/include/qrcodegen.cpp:443-462 | From version 7 on, both blocks show the tabled version word in six rows of three bits, one turned over |
| `Masking.TrialLeavesNoTrace` | src/include/qrcodegen.cpp:341-350 | Mask, format bits, mask again: every module but the format bits is as before |
| `Masking.SameCandidate` | src/include/qrcodegen.cpp:341-355 | Format bits drawn for earlier trials do not influence a candidate |
| `Masking.BestIsBest` | src/include/qrcodegen.cpp:339-353 | The running minimum over masks is the minimum over complete symbols |
| `Symbols.MaskTwice` | src/include/qrcodegen.hpp:422-423 | Applying the same mask twice restores the grid |
| `QrCodes.QrCode.DrawFunctionPatterns` | src/include/qrcodegen.cpp:387-413 | After drawing, exactly the function modules of the version are marked, with the colors of the closed form in which later layers win, and everything else is light |
| `QrCodes.QrCode.DrawTiming` | src/include/qrcodegen.cpp:388-392 | Paints row and column 6 alternating and nothing else |
| `QrCodes.QrCode.DrawFinderPattern` | src/include/qrcodegen.cpp:465-474 | Draws the picture of the finder pattern with its separator, clipped to the symbol, and changes nothing else |
| `QrCodes.QrCode.DrawAlignmentPattern` | src/include/qrcodegen.cpp:477-482 | Draws the picture of the alignment pattern and changes nothing else |
| `PatternPictures.NormBall` | src/include/qrcodegen.cpp:465-482 | The Chebyshev balls are the centered squares, for every radius |
| `PatternPictures.FinderLayer` | src/include/qrcodegen.cpp:465-474 | Coverage and colors of the finder layer are those of the picture |
| `PatternPictures.AlignmentLayer` | src/include/qrcodegen.cpp:477-482 | Coverage and colors of the alignment layer are those of the picture |
| `QrCodes.QrCode.DrawAlignmentPatterns` | src/include/qrcodegen.cpp:399-408 | Covers exactly the modules near two alignment positions, the three finder corners left out |
| `QrCodes.QrCode.GetAlignmentPatternPositions` | src/include/qrcodegen.cpp:664-676 | Returns the positions of annex E of the standard, in ascending order |
| `AlignmentTable.PositionsAsTabled` | src/include/qrcodegen.cpp:668-674 | The step formula gives the positions of annex E for all 40 versions |
| `FunctionPatterns.PositionsApart` | src/include/qrcodegen.cpp:668-674 | Alignment positions ascend, at least 12 apart, with the last at size - 7 |
| `FunctionPatterns.PositionsInside` | src/include/qrcodegen.hpp:436-437 | Every alignment position keeps its pattern within the symbol |
| `FunctionPatterns.PatternCovers` | src/include/qrcodegen.cpp:402-407 | Alignment patterns never overlap: a module belongs to the pattern of the one pair of positions it is near |
| `QrCodes.QrCode.DrawFormatBits` | src/include/qrcodegen.cpp:416-440 | Paints both copies of the tabled format word, which has 15 bits, and the dark module, all other modules unchanged |
| `WordTables.FormatWordAsTabled` | src/include/qrcodegen.cpp:417-422 | The 32 format words are those of annex C |
| `InformationWords.FormatWordsFarApart` | src/include/qrcodegen.cpp:417-422 | The format words of any two different pairs of level and mask differ in at least 7 bits |
| `InformationWords.VersionWordsFarApart` | src/include/qrcodegen.cpp:448-451 | The version words of any two different versions differ in at least 8 bits |
| `InformationWords.FormatWordSmall` | src/include/qrcodegen.cpp:422-423 | The format word has 15 bits |
| `InformationWords.VersionWordSmall` | src/include/qrcodegen.cpp:451-452 | The version word has 18 bits |
| `QrCodes.QrCode.DrawVersion` | src/include/qrcodegen.cpp:443-462 | Nothing below version 7; otherwise both copies of the tabled version word, which has 18 bits, and nothing else |
| `WordTables.VersionWordAsTabled` | src/include/qrcodegen.cpp:448-451 | The 34 version words are those of annex D |
| `QrCodes.QrCode.DrawCodewords` | src/include/qrcodegen.cpp:536-560 | The scan loops place all bits of the codewords; the result is the grid in which the r-th free module of the scan holds bit r |
| `Zigzag.Visited` | src/include/qrcodegen.cpp:542-549 | Every module outside column 6 is visited, at a step given in closed form |
| `Zigzag.VisitedOnce` | src/include/qrcodegen.cpp:542-549 | Every step stays inside the symbol, off column 6, and no module is visited twice |
| `Zigzag.DirectionsAlternate` | src/include/qrcodegen.cpp:542-549 | The scan direction changes from each column pair to the next, also across column 6 |
| `Zigzag.Directions` | src/include/qrcodegen.cpp:542-549 | In a symbol the even column pairs are scanned upward and the odd ones downward |
| `Zigzag.ScanBegins` | src/include/qrcodegen.cpp:539-549 | The scan begins in the lower right corner |
| `Zigzag.ScanMoves` | src/include/qrcodegen.cpp:539-549 | Every step of the scan: left, then back to the right one row on, up in even column pairs and down in odd ones, turning at the edges and stepping over column 6 |
| `Zigzag.DrawnStep` | src/include/qrcodegen.cpp:546-553 | One pass of the loop body places the next bit or leaves the grid alone |
| `Zigzag.ScanReads` | src/include/qrcodegen.cpp:542-558 | For any odd size and any function grid, scanning in the same order returns the written bits, and untouched modules after them |
| `Capacity.CapacityIsRank` | src/include/qrcodegen.hpp:442-444 | The number of modules that the function patterns leave free equals the closed form, for every version |
| `Tables.RawModulesRange` | src/include/qrcodegen.cpp:689 | The closed form stays within 208 and 29648 |
| `Tables.CapacityDecreases` | src/include/qrcodegen.cpp:694-698 | A higher level strictly lowers the data capacity, which stays positive |
| `Tables.BlocksSound` | src/include/qrcodegen.cpp:792-808 | The tables never ask for an empty block or one of more than 255 codewords |
| `Tables.BlocksAsTabled` | src/include/qrcodegen.cpp:792-808 | A short block has the data bytes of table 9 of the standard, for all versions and levels; from version 4 on the error correction codewords per block are even in number |
| `Tables.CapacityGrows` | src/include/qrcodegen.cpp:694-698 | A larger version holds strictly more data at every level |
| `Tables.LargestVersion` | src/include/qrcodegen.cpp:792-808 | Version 40 has the largest capacity at each level: 2956, 2334, 1666 and 1276 bytes, and exceeds by fixed ratios the versions with narrower count fields |
| `QrCodes.QrCode.AddEccAndInterleave` | src/include/qrcodegen.cpp:498-533 | Splits, protects and interleaves the data with the numbers of the tables, giving all raw codewords, each data byte and error correction byte at its place in numbers |
| `Interleave.MakeBlocks` | src/include/qrcodegen.cpp:509-520 | The split loop yields consecutive blocks of the data, each with padding if short and its Reed-Solomon remainder |
| `Interleave.InterleaveBlocks` | src/include/qrcodegen.cpp:522-531 | The double loop emits the blocks row by row without the padding bytes |
| `Interleave.LayoutTotals` | src/include/qrcodegen.cpp:503-507 | Block lengths add up to the data capacity, and rows to the raw codewords |
| `Interleave.EmitAt` | src/include/qrcodegen.cpp:524-530 | Every byte of every block that is not padding appears at its computed place in the result |
| `Interleave.InterleavedInOrder` | src/include/qrcodegen.cpp:509-532 | Byte i of block j goes to i times the number of blocks plus j, the extra bytes of the long blocks last, and the error correction bytes after them in the same order |
| `Symbols.LayoutAsTabled` | src/include/qrcodegen.cpp:503-507 | The layout of every symbol in numbers: as many long blocks as data bytes do not divide evenly |
| `Interleave.BlockRecovered` | src/include/qrcodegen.cpp:509-532 | The de-interleaver recovers every block, data and error correction, without padding |
| `Interleave.DataRecovered` | src/include/qrcodegen.cpp:498-533 | De-interleaving gives the data back, and the result has exactly the raw number of codewords |
| `Interleave.SymbolCorrectable` | src/include/qrcodegen.hpp:243-248 | If each block of a received sequence is within half the error correction bytes of two interleavings, their data are equal |
| `Galois.ReedSolomonMultiply` | src/include/qrcodegen.cpp:739-748 | The loop never exceeds 8 bits and computes the field product |
| `Reduction.MulIsReducedProduct` | src/include/qrcodegen.cpp:739-748 | The product differs from carry-less multiplication by a carry-less multiple of 0x11D |
| `Reduction.ReductionUnique` | src/include/qrcodegen.cpp:739-748 | A carry-less product has at most one quotient and one remainder of eight bits |
| `Reduction.ProductIsResidue` | src/include/qrcodegen.cpp:739-748 | The product is the carry-less product modulo 0x11D: the only byte that differs from it by a multiple |
| `Galois.MulComm` | src/include/qrcodegen.hpp:463-464 | Multiplication is commutative |
| `Galois.MulAssoc` | src/include/qrcodegen.hpp:463-464 | Multiplication is associative |
| `Galois.MulAddRight` | src/include/qrcodegen.hpp:463-464 | Multiplication distributes over XOR |
| `Galois.NoZeroDivisors` | src/include/qrcodegen.hpp:463-464 | A product is zero only if a factor is |
| `Galois.Inverse` | src/include/qrcodegen.hpp:463-464 | Every nonzero byte has an inverse |
| `Galois.OrderOfTwo` | src/include/qrcodegen.cpp:712 | 2 has order 255: no smaller power is 1 |
| `Galois.NonzeroIsPower` | src/include/qrcodegen.cpp:712 | 2 generates the field: every nonzero byte is one of its powers |
| `ReedSolomon.ReedSolomonComputeDivisor` | src/include/qrcodegen.cpp:701-723 | The in-place double loop computes the coefficients of the product of (x - 2^i) without the leading 1, for degrees 1 to 255 |
| `ReedSolomon.GeneratorMonic` | src/include/qrcodegen.cpp:709-711 | The dropped leading coefficient is 1 |
| `ReedSolomon.GeneratorRoots` | src/include/qrcodegen.cpp:709-711 | The product vanishes at 2^0 to 2^(degree-1) |
| `ReedSolomon.ReedSolomonComputeRemainder` | src/include/qrcodegen.cpp:726-736 | The shifting loop keeps the remainder of every prefix of the data |
| `ReedSolomon.Division` | src/include/qrcodegen.cpp:726-736 | Data times x^degree is quotient times divisor plus the remainder |
| `ReedSolomon.RemainderUnique` | src/include/qrcodegen.cpp:726-736 | No other remainder of that degree exists |
| `ReedSolomon.CodewordRoots` | src/include/qrcodegen.cpp:701-736 | Data followed by the remainder evaluates to zero at 2^0 to 2^(degree-1) |
| `MinimumDistance.SmallWeightVanishes` | src/include/qrcodegen.cpp:701-748 | An error with no more nonzero entries than vanishing power sums is zero |
| `MinimumDistance.CodewordsFarApart` | src/include/qrcodegen.cpp:701-748 | Codewords of different data of equal length, at most 255 in all, differ in at least degree + 1 places |
| `MinimumDistance.DistanceIsCount` | src/include/qrcodegen.cpp:701-748 | The distance is the number of differing positions |
| `MinimumDistance.ErrorsCorrectable` | src/include/qrcodegen.hpp:243-248 | With at most half the redundancy wrong, only one data string can have been sent |
| `BitStream.GetTotalBits` | src/include/qrcodegen.cpp:179-193 | The exact length of the stream, in header lengths of 4 to 20 bits spelled out by mode and version; -1 exactly when a count reaches the limit of its field, likewise in numbers, or the length exceeds 2^31 - 1 |
| `BitStream.StreamInNumbers` | src/include/qrcodegen.cpp:179-193 | For every list of segments: the counts fit exactly below 1024, 4096, 16384 (numeric), 512, 2048, 8192 (alphanumeric), 256 and 65536 (byte), and the length adds headers of 14, 16, 18; 13, 15, 17; 12, 20 and 4 bits to the payloads |
| `BitStream.HeaderIs` | src/include/qrcodegen.cpp:290-296 | A header begins with the four bits of the mode, as literal bits, and the rest denotes the count |
| `BitStream.MakeDataCodewords` | src/include/qrcodegen.cpp:290-313 | The bytes are the stream, terminated, aligned, padded and packed, exactly as many as the capacity |
| `BitStream.AppendTerminator` | src/include/qrcodegen.cpp:299-304 | At most four zero bits, then zero bits up to a whole byte |
| `BitStream.AppendPadBytes` | src/include/qrcodegen.cpp:306-308 | Alternating bytes up to the capacity |
| `BitStream.PaddingAlternates` | src/include/qrcodegen.cpp:306-308 | Byte i after the terminator is 0xEC for even i and 0x11 for odd i |
| `BitStream.PaddedInBits` | src/include/qrcodegen.cpp:299-308 | Every bit after the stream: zeros up to byte (length + 11) / 8, then the bits of two bytes in turn |
| `BitStream.PadCodewords` | src/include/qrcodegen.cpp:299-313 | The data bytes from byte (length + 11) / 8 of the stream on are 0xEC and 0x11 in turn |
| `BitStream.ParseStream` | src/include/qrcodegen.cpp:290-296 | Parsing any stream followed by a terminator, also a cut one, gives the segments back |
| `BitStream.DataRoundTrip` | src/include/qrcodegen.cpp:290-313 | Parsing the padded stream gives the segments back |
| `Codewords.PackBits` | src/include/qrcodegen.cpp:310-313 | Packing in big endian, undone by unpacking |
| `Codewords.PackedByte` | src/include/qrcodegen.cpp:310-313 | Of eight bits the first is worth 128 and the last 1 |
| `Codewords.PackUnpack` | src/include/qrcodegen.cpp:310-313 | Packing what drawCodewords unpacks gives the bytes back |
| `BitBuffers.BitBuffer.AppendBits` | src/include/qrcodegen.cpp:822-827 | Appends the low bits of the value, most significant first; a value within the documented bound passes the range check |
| `Segments.MakeNumeric` | src/include/qrcodegen.cpp:79-99 | Digits 3i to 3i + 2 become the ten bits of their number, one or two at the end four or seven bits; failure exactly if a character is no digit |
| `Segments.MakeAlphanumeric` | src/include/qrcodegen.cpp:102-122 | Characters 2i and 2i + 1 become the eleven bits of 45 times the first number plus the second, a last single one six bits, with the 45 numbers spelled out; failure exactly if a character has none |
| `Segments.CharsetIndexIs` | src/include/qrcodegen.cpp:108-111 | Searching the set gives 0 to 9 for digits, 10 to 35 for capital letters, 36 to 44 for the nine symbols in their order, and nothing for any other character |
| `Segments.MakeBytes` | src/include/qrcodegen.cpp:69-76 | Byte i becomes bits 8i to 8i + 7; failure exactly from 2^31 bytes on |
| `Segments.MakeEci` | src/include/qrcodegen.cpp:143-158 | One, two or three bytes by range, or failure outside 0 to 999999 |
| `Segments.CheckNumeric` | src/include/qrcodegen.cpp:196-203 | True if and only if every character is one of the ten with numbers below 10 |
| `Segments.CheckAlphanumeric` | src/include/qrcodegen.cpp:206-212 | True if and only if every character has a number below 45 |
| `TextSegments.MakeSegments` | src/include/qrcodegen.cpp:125-140 | No segment for the empty text, else one, and no single segment that spells the text is shorter at any version; fails exactly for byte text beyond INT_MAX |
| `TextSegments.ChoiceShortest` | src/include/qrcodegen.cpp:125-140 | The chosen mode takes the fewest bits of all modes that can spell the text, header included |
| `TextSegments.ChoiceKeepsText` | src/include/qrcodegen.cpp:125-140 | The chosen segments spell the text |
| `Contents.PayloadRoundTrip` | src/include/qrcodegen.cpp:69-158 | Decoding the payload of any segment, whatever follows it, returns the content |
| `Contents.EciRoundTrip` | src/include/qrcodegen.cpp:143-158 | Designators are a prefix code on 0 to 999999 |
| `Contents.EciShortest` | src/include/qrcodegen.cpp:143-158 | No shorter designator denotes the same value |
| `RadixGroups.DecodeEncode` | src/include/qrcodegen.cpp:79-122 | Grouped digits decode to the same digits |
| `RadixGroups.EncodeLength` | src/include/qrcodegen.cpp:79-122 | Exact lengths: 10 bits for three digits with 0, 4 or 7 more, 11 bits for two characters with 0 or 6 more |
| `RadixGroups.FieldFits` | src/include/qrcodegen.cpp:90-121 | A group of digits never exceeds its field, so no append can fail |
| `Penalty.ComputePenaltyScore` | src/include/qrcodegen.cpp:587-661 | The streaming computation equals the score read off the modules: the scores of rows and columns, 3 for each block of one color, 10 for each step of imbalance; it stays within 0 and 2568888 |
| `Penalty.PenaltyIsScore` | src/include/qrcodegen.cpp:587-658 | The score from run lengths is the score from the modules, for every grid |
| `Penalty.ScoreBound` | src/include/qrcodegen.cpp:654-659 | Both assertions of the source hold for every grid of odd size up to 177 |
| `Penalty.SmallestBalance` | src/include/qrcodegen.cpp:654-657 | k is the least non-negative integer that fits the percentages, and at most 9 |
| `Penalty.ScoreBlocks` | src/include/qrcodegen.cpp:635-644 | 3 points for each 2 by 2 block of one color, counted as a set |
| `Penalty.CountDark` | src/include/qrcodegen.cpp:646-653 | The number of dark modules, counted as a set |
| `LinePenalty.ScoreLine` | src/include/qrcodegen.cpp:592-610 | The run automaton equals the score read off the modules of the line: 3 points where five modules of one color first end, 1 at each further one, and 40 for each finder-like pattern between the light borders, on either side |
| `LinePenalty.ScoreInModules` | src/include/qrcodegen.cpp:592-610 | For every line, the score from run lengths is the score from the modules |
| `LinePenalty.FinderPenaltyCountPatterns` | src/include/qrcodegen.cpp:751-757 | Run-history entries stay within three times the size; the count is one for each side on which the line so far shows dark n, light n, dark 3n, light n, dark n with 4n light there and n light on the other side, for some n |
| `FinderWindows.FinderLikeRuns` | src/include/qrcodegen.cpp:751-757 | A line shows such a pattern at a place exactly if the seven runs there have its lengths |
| `FinderWindows.PlacesAreWindows` | src/include/qrcodegen.cpp:751-768 | The patterns closed by light runs are all that the line shows |
| `LinePenalty.FinderPenaltyAddHistory` | src/include/qrcodegen.cpp:771-776 | The history holds the latest runs, newest first, the first one with its border |
| `LinePenalty.FinderPenaltyTerminateAndCount` | src/include/qrcodegen.cpp:760-768 | Ending a line completes the last run with the right border |
| `LinePenalty.NotTwiceInARow` | src/include/qrcodegen.cpp:751-757 | Two consecutive light runs cannot both close a finder-like window |
| `LinePenalty.LineScoreBound` | src/include/qrcodegen.cpp:659 | The bound on a line's score from which the bound of the source follows |
| `RunLengths.RunsSound` | src/include/qrcodegen.cpp:592-609 | The run lengths spell the line, and are maximal |
| `RunLengths.RunsUnique` | src/include/qrcodegen.cpp:592-609 | No other run lengths do |
| `RunLengths.BorderedRuns` | src/include/qrcodegen.cpp:760-776 | Borders only lengthen the outer light runs, or add them |

## Left out

- Exceptions: thrown errors are `Err` results of the public operations; private methods have the thrown condition as
  a precondition. Message texts are left out.
- BitBuffers.BitBuffer.AppendBits: the documented bounds on value and length are a precondition, met at every call; so
  is the range of the degree in ReedSolomon.ReedSolomonComputeDivisor.
- QrCodes.QrCode.ApplyMask: the check of its argument is a precondition, since the constructor only passes 0 to 7.
- Segments.MakeNumeric: character counts are unbounded integers; the overflow of an int count for texts beyond INT_MAX
  characters is not modelled. The same holds for Segments.MakeAlphanumeric.
- Segments with a negative character count, which the low-level segment constructor refuses: counts are naturals.
- Kanji mode has its mode and count widths, but the source has no factory for it, and the reader rejects it.
- QrCodes.QrCode.constructor: the grids are sequences of rows in fields that the methods reassign, not vectors updated
  in place; shrinking and moving storage is left out.
- Bytes are `Byte` (eight bits) where they are field elements and codewords, and `uint8` (a number below 256) where they
  are characters and payload.
- Masking.BestIsBest: LONG_MAX is its smallest permitted value, 2^31 - 1; every penalty is far below it.
- LinePenalty.ScoreLine: rows and columns have the same loop in the source, here one method on a line.
- Some long methods of the source are split: the constructor, encodeSegments, getPenaltyScore, drawFunctionPatterns,
  drawFormatBits and addEccAndInterleave call helpers for their parts.
- Reader.FormatRead: the reader takes the format bits from one copy without correcting them, and the version from the
  size.
- Reader.SymbolDetermined: states that the symbol is determined, not an algorithm that finds it. The same holds for
  Reader.DamageCorrectable.
- getVersion, getSize, getErrorCorrectionLevel and getMask: plain accessors.
- Everything outside the generator: user interface, sockets, database, HTTP, JSON, hashing and vector geometry.
