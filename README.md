# QR decoder back half, modelled in Dafny

This project models the integer and bit-level half of the QR Code decoder in
`src/QRFocus.Library/QRDecoder.cs`. That half starts from the pixel bytes of an
image and from a sampled module grid, and ends with the payload bytes of the
symbol. The stages, in pipeline order:

1. **Binarizer.** Each pixel gets the weighted gray level `(30·b0 + 59·b1 + 11·b2)/100`. A 256-bin histogram follows. A pixel is black when its gray level lies below the midpoint between the darkest level present and one past the lightest.
2. **Metadata recovery.** A 15-bit format word is matched against the 32 BCH(15,5) format words. An 18-bit version word is matched against the 34 version words. In both cases the decoder takes the exact hit, or else the first nearest word within 3 differing bits. The format index is split into an error correction level and a mask number.
3. **Base matrix and fixed-module check.** The decoder lays out the finder, separator, format, timing, alignment and version areas of a version, with their flag bits. It then writes the sampled colours into the non-fixed modules. It rejects the sample when too many fixed modules disagree with the layout.
4. **Mask, zigzag unload and de-interleave.** The data mask is applied. The codewords are read off the matrix in the two-column zigzag. The block interleave of ISO/IEC 18004:2015 section 7.6 is then undone.
5. **Reed–Solomon over GF(256).** Field arithmetic comes from the exponent and logarithm tables of the primitive polynomial 0x11D. Each block is checked by polynomial division by the generator. A block with a non-zero remainder is corrected. Correction runs syndromes, the modified Berlekamp–Massey algorithm, a Chien search and the Forney magnitudes.
6. **Bit stream.** A 32-bit sliding buffer over the data codewords feeds the segment parser. The parser handles the numeric, alphanumeric, byte and ECI modes of section 7.4.

The decoder's state lives in the class `Decoder.QRDecoder`, which has the
source's fields:

- `BaseMatrix` and `MaskMatrix` are `array2`s of flag bytes.
- `CodewordsArray` is an `array`.
- `BitBuffer`, `BitBufferLen` and `CodewordsPtr` form the bit reader.
- The layout fields are set by `SetDataCodewordsLength`.

Each method that changes these fields is proved against a specification
function. The properties of that function are proved as lemmas beside it.
The source throws an `ApplicationException` on every failure, and its caller
catches it and abandons the decoding attempt. Here each such failure is a
`false` result, or `None` in the specification functions.

The model keeps these quirks of the source:

- `CountBits` looks only at bits 0–14, so the version match measures distance on the low 15 bits of the 18-bit words (`Metadata.TestVersionCode`).
- A mode read that runs out of bits ends the data normally.
- A numeric group above 999 indexes the character table beyond its digits and yields letters.
- An alphanumeric index of 45 or more is an error.
- The ECI designator is read through the decoder's own bit tests. `Segments.EciAssignmentIsDesignator` shows that these tests accept exactly the designators of section 7.4.2.2.
- The Chien search takes the last error position from `sigma[1]` without checking that it is a root.

## Model

| member | source | states |
|---|---|---|
| Decoder.QRDecoder.ConvertImageToBlackAndWhite | src/QRFocus.Library/QRDecoder.cs:255-322 | fails exactly on a negative stride or when fewer than two gray levels occur; otherwise `BlackWhiteImage` is a new height × width grid in which a pixel is black exactly when its gray level lies below the cutoff |
| Binarizer.ToBlackAndWhite | src/QRFocus.Library/QRDecoder.cs:264-318 | the same conversion on plain values: failure exactly on a negative stride or a spread below 2, otherwise black ⇔ gray < (lowest + highest + 1) / 2 |
| Binarizer.GrayLevels | src/QRFocus.Library/QRDecoder.cs:281-298 | the gray image holds the weighted gray level of every pixel, skipping the padding at the end of each scan line; histogram bin k is non-zero exactly when some pixel has gray level k |
| Binarizer.LevelRange | src/QRFocus.Library/QRDecoder.cs:300-305 | `levelStart` is the darkest level present; `levelEnd - levelStart < 2` exactly when the spread is below 2, and otherwise `levelEnd` is one past the lightest level present |
| Binarizer.Threshold | src/QRFocus.Library/QRDecoder.cs:314-318 | a new boolean image of the same size that is true exactly where the gray level is below the cutoff |
| Binarizer.FailsIffUniform | src/QRFocus.Library/QRDecoder.cs:307-310 | the spread is below 2 exactly when every pixel has the same gray level |
| Binarizer.ExtremesSeparate | src/QRFocus.Library/QRDecoder.cs:312-318 | when the conversion succeeds, every darkest pixel is black, every lightest pixel is white, and every gray level lies between the two |
| Binarizer.LowestIsLeast | src/QRFocus.Library/QRDecoder.cs:303 | the level found by the upward scan occurs in the image and no pixel is darker |
| Binarizer.HighestIsGreatest | src/QRFocus.Library/QRDecoder.cs:304 | the level found by the downward scan occurs in the image and no pixel is lighter |
| Binarizer.PixelGray | src/QRFocus.Library/QRDecoder.cs:292 | a weighted gray level is never above 255, so it always has a histogram bin |
| Metadata.TestFormatInfo | src/QRFocus.Library/QRDecoder.cs:1233-1258 | returns −1 or 0..31: the exact table hit when there is one, otherwise the first index at minimum 15-bit distance when that distance is at most 3, and −1 exactly when every format word is more than 3 bits away |
| Metadata.TestVersionCode | src/QRFocus.Library/QRDecoder.cs:1162-1194 | returns 0 or 7..40: the version of an exact table hit, otherwise the first version at minimum distance over bits 0–14 when that distance is at most 3, and 0 exactly when every version word is more than 3 such bits away |
| Metadata.CountBits | src/QRFocus.Library/QRDecoder.cs:1265-1270 | the number of set bits among bits 0–14 of the value |
| Metadata.PopCountOfXor | src/QRFocus.Library/QRDecoder.cs:1249 | counting the set bits of `a ^ b` counts the bit positions where a and b differ |
| Metadata.BitDistanceZero | src/QRFocus.Library/QRDecoder.cs:1238-1242 | two words within the width are at distance 0 exactly when they are equal |
| Metadata.ExactFormatMatch | src/QRFocus.Library/QRDecoder.cs:1236-1242 | a received format word that is table entry i is at distance 0 from i only, and no other entry equals it |
| Metadata.FormatInfoToErrCode | src/QRFocus.Library/QRDecoder.cs:1760-1763 | the level read from the top two bits of a format index is always one of the four levels |
| Decoder.QRDecoder.SetFormat | src/QRFocus.Library/QRDecoder.cs:800-802 | `ErrorCorrection` is M, L, H or Q for format indices 0–7, 8–15, 16–23 and 24–31, `MaskCode` is the index's low three bits, and nothing else changes |
| Metadata.FormatIndexSplit | src/QRFocus.Library/QRDecoder.cs:801-802 | indices 0–7 are level M, 8–15 L, 16–23 H and 24–31 Q; the low three bits are the mask, and index = 8·(index >> 3) + mask |
| CodeTables.FormatInfoHighBits | src/QRFocus.Library/QRDecoder.cs:1236-1239 | the top five bits of format word i determine i, so the look-up by the high bits finds every exact hit |
| CodeTables.FormatInfoDistinct | src/QRFocus.Library/QRDecoder.cs:2947-2953 | the 32 format words are pairwise distinct |
| CodeTables.VersionCodeHighBits | src/QRFocus.Library/QRDecoder.cs:1165-1168 | the top six bits of version word i are its version i + 7, so `VersionCode >> 12` finds every exact hit |
| Decoder.QRDecoder.BuildBaseMatrix | src/QRFocus.Library/QRDecoder.cs:1768-1832 | `BaseMatrix` becomes a new (dim+5) × (dim+5) matrix whose every module is the layout module of the version |
| Layout.BuildBase | src/QRFocus.Library/QRDecoder.cs:1768-1832 | the built matrix equals the layout function `BaseModule` at every module, margin included |
| Layout.PlaceFinders | src/QRFocus.Library/QRDecoder.cs:1773-1787 | the matrix becomes the three finder corner tables over a white background |
| Layout.PlaceTiming | src/QRFocus.Library/QRDecoder.cs:1789-1791 | row 6 and column 6 between the finders alternate fixed black and fixed white, starting black at an even index; every other module is unchanged |
| Layout.PlaceAlignment | src/QRFocus.Library/QRDecoder.cs:1793-1812 | every alignment area not at a finder corner holds the 5 × 5 alignment pattern; every other module is unchanged |
| Layout.PlaceVersionBlocks | src/QRFocus.Library/QRDecoder.cs:1814-1829 | for version 7 and up the two 6 × 3 version areas are reserved as format white; every other module is unchanged |
| Layout.FinderPatterns | src/QRFocus.Library/QRDecoder.cs:1773-1787 | the base matrix holds the 7 × 7 finder pattern at the top left, top right and bottom left corners |
| Layout.Separators | src/QRFocus.Library/QRDecoder.cs:2986-3022 | the one-module separators around the three finders are fixed white |
| Layout.FormatAreas | src/QRFocus.Library/QRDecoder.cs:2986-3022 | the format information modules beside the finders are reserved as format white |
| Layout.DarkModule | src/QRFocus.Library/QRDecoder.cs:3012-3022 | module (4·version + 9, 8) is fixed black |
| Layout.TimingPatterns | src/QRFocus.Library/QRDecoder.cs:1789-1791 | in the base matrix, row 6 and column 6 between the finders alternate, dark at even indices |
| Layout.AlignmentPatterns | src/QRFocus.Library/QRDecoder.cs:1793-1812 | around every alignment centre not at a finder corner, the base matrix holds the ring pattern (dark centre, light ring, dark border) |
| Layout.AlignmentOnTimingRow | src/QRFocus.Library/QRDecoder.cs:1790-1809 | where an alignment pattern covers row 6, it agrees with the timing pattern, so the order of the two writes does not matter |
| Layout.AlignmentOnTimingColumn | src/QRFocus.Library/QRDecoder.cs:1790-1809 | the same for column 6 |
| Layout.AlignmentSpaced | src/QRFocus.Library/QRDecoder.cs:2399-2442 | the alignment centres of a version number version / 7 + 2, are even and lie at least 12 apart, so no two patterns overlap |
| Layout.TableRowIs | src/QRFocus.Library/QRDecoder.cs:2399-2442 | the alignment centre table row of every version equals the closed form used by the layout |
| Layout.VersionAreas | src/QRFocus.Library/QRDecoder.cs:1814-1829 | for version 7 and up both version areas are format white in the base matrix |
| Layout.Margin | src/QRFocus.Library/QRDecoder.cs:1771 | the five extra rows and columns of the matrix stay white |
| Layout.BaseFlags | src/QRFocus.Library/QRDecoder.cs:2975-2984 | every base module is one of the six flag combinations; a fixed module is also non-data, and a module that is not fixed starts white |
| Decoder.QRDecoder.ConvertImageToMatrix | src/QRFocus.Library/QRDecoder.cs:1276-1304 | a non-fixed module of the symbol is set black when its sample is dark and is otherwise kept; fixed modules are kept; success exactly when the wrong fixed modules are at most the level's percentage of the fixed ones, rounded down |
| Sampler.CheckFixedModules | src/QRFocus.Library/QRDecoder.cs:1276-1304 | the same check on a matrix and a sample grid, with the counts of fixed and of wrong fixed modules defined independently of the loop |
| Sampler.SampleRow | src/QRFocus.Library/QRDecoder.cs:1282-1298 | one row is sampled and its fixed and wrong fixed modules are counted; the rows below it are untouched |
| Sampler.MismatchesBounded | src/QRFocus.Library/QRDecoder.cs:1290-1297 | there are never more wrong fixed modules than fixed modules |
| Sampler.PerfectSamplePasses | src/QRFocus.Library/QRDecoder.cs:1301-1302 | a sample that agrees with the layout on every fixed module passes at every level |
| Sampler.SampledBase | src/QRFocus.Library/QRDecoder.cs:1284-1298 | over the base matrix, a data module becomes dark exactly when sampled dark and keeps its flags, and a fixed module is unchanged |
| Sampler.SampledModule | src/QRFocus.Library/QRDecoder.cs:1285-1287 | sampling only ever changes the colour bit of a module |
| QRConstants.ErrorTolerancePercent | src/QRFocus.Library/QRConstants.cs:47 | the tolerance of every level is a percentage strictly between 0 and 100 |
| Decoder.QRDecoder.ApplyMask | src/QRFocus.Library/QRDecoder.cs:1838-1876 | `MaskMatrix` becomes a new matrix of the size of `BaseMatrix` holding every base module with the mask applied |
| Masks.ApplyTiles | src/QRFocus.Library/QRDecoder.cs:1882-2102 | the periodic tiles of the mask flip the colour of exactly the modules the mask condition selects inside the symbol |
| Masks.MaskBand | src/QRFocus.Library/QRDecoder.cs:1882-2102 | one band of tile rows is masked and all other rows are kept |
| Masks.MaskTile | src/QRFocus.Library/QRDecoder.cs:1882-2102 | one tile is masked at the offsets of the mask's tile table and all other modules are kept |
| Masks.TileIsCondition | src/QRFocus.Library/QRDecoder.cs:1878-2102 | for each of the eight masks, the module offsets the decoder flips in its period tile are exactly where the condition of ISO/IEC 18004:2015 table 10 holds |
| Masks.MaskedModuleInside | src/QRFocus.Library/QRDecoder.cs:1887-1890 | inside the symbol a module changes exactly when the mask condition holds and its non-data flag is clear, and its flag bits never change |
| Masks.MaskTwice | src/QRFocus.Library/QRDecoder.cs:1838-2102 | applying the same mask twice restores every module |
| Masks.MaskKeepsFlags | src/QRFocus.Library/QRDecoder.cs:1887-1888 | masking never changes the flag bits, and a non-data module is never changed |
| Masks.Masked | src/QRFocus.Library/QRDecoder.cs:1887-1888 | flipping a data module inverts its colour and keeps its flags, and a non-data module is kept |
| Masks.Clone | src/QRFocus.Library/QRDecoder.cs:1840 | the copy is new and equal to the original at every module |
| Decoder.QRDecoder.UnloadDataFromMatrix | src/QRFocus.Library/QRDecoder.cs:1309-1384 | `CodewordsArray` becomes a new array of `MaxCodewords` bytes whose bit stream, MSB first, is the data modules met in zigzag order; failure exactly when the zigzag runs off the symbol first |
| Placement.Unload | src/QRFocus.Library/QRDecoder.cs:1309-1384 | the same on a matrix: success exactly when the zigzag walk finds 8·n data modules, and then the bytes hold those bits |
| Placement.UnloadModule | src/QRFocus.Library/QRDecoder.cs:1324-1381 | one step of the state machine keeps the packed prefix equal to the walk so far, and the walk makes progress toward the left edge |
| Placement.Advance | src/QRFocus.Library/QRDecoder.cs:1336-1381 | the next position of the zigzag is a valid position, either further along the same two-column strip or in a strip further left, so the walk ends |
| Placement.StoreBit | src/QRFocus.Library/QRDecoder.cs:1328 | setting bit 7 − (k & 7) of byte k >> 3 appends the module's bit to the packed stream |
| Placement.StreamOfPacked | src/QRFocus.Library/QRDecoder.cs:1328 | bytes that pack a bit sequence eight bits at a time, MSB first, have exactly that sequence as their bit stream |
| Placement.WalkOff | src/QRFocus.Library/QRDecoder.cs:1355-1357 | a walk that has left the symbol on the left finds no more bits |
| BitStream.StreamBit | src/QRFocus.Library/QRDecoder.cs:1328 | stream bit 8i + j is bit 7 − j of codeword i |
| Decoder.QRDecoder.SetDataCodewordsLength | src/QRFocus.Library/QRDecoder.cs:1724-1753 | the four block fields come from the table row (version − 1)·4 + level, `MaxCodewords` from the version table, and `MaxDataBits` is 8 times the data codewords; the layout is then consistent; only the eight layout fields change, so the sampled `BaseMatrix` and every other field are kept |
| Decoder.LookupLayout | src/QRFocus.Library/QRDecoder.cs:1727-1749 | the block layout read from the table row of a version and level is consistent and covers exactly `MaxCodewordsArray[version]` codewords |
| Decoder.TableLayout | src/QRFocus.Library/QRDecoder.cs:1727-1749 | for every version and level, the table row gives at least one block, a generator of the right length and codeword counts that add up |
| CodeTables.BlockGroups | src/QRFocus.Library/QRDecoder.cs:2540-2703 | every table row has at least one group-1 block, a group-2 length of 0 or one more than group 1, and blocks of at most 255 codewords |
| CodeTables.BlockQuotient | src/QRFocus.Library/QRDecoder.cs:1742-1749 | for every row, `MaxCodewords − (B1·D1 + B2·D2)` is the error correction count times B1 + B2, so the division is exact |
| CodeTables.BlockGenerator | src/QRFocus.Library/QRDecoder.cs:1465 | for every row the error correction count is between 7 and 30 and `GenArray[ecc − 7]` has exactly ecc entries |
| Decoder.QRDecoder.RestoreBlocks | src/QRFocus.Library/QRDecoder.cs:1390-1452 | `CodewordsArray` becomes a new array holding the received codewords de-interleaved block by block; only `CodewordsArray` changes, every other field is kept |
| Restore.DataBlockStarts | src/QRFocus.Library/QRDecoder.cs:1398-1401 | block b's data starts after the data of all earlier blocks |
| Restore.DataRounds | src/QRFocus.Library/QRDecoder.cs:1403-1415 | after the round-robin over the group-1 length, byte j < D1 of every block is codeword j·T + b |
| Restore.ExtraDataRound | src/QRFocus.Library/QRDecoder.cs:1417-1431 | when group-2 blocks are longer, their extra codewords come next in block order, which completes the data part of every block |
| Restore.EccBlockStarts | src/QRFocus.Library/QRDecoder.cs:1433-1436 | block b's check bytes start at `MaxDataCodewords` + b·ecc |
| Restore.EccRounds | src/QRFocus.Library/QRDecoder.cs:1438-1447 | check byte k of block b is codeword `MaxDataCodewords` + k·T + b, which completes the restored array |
| Interleave.RestoredUnique | src/QRFocus.Library/QRDecoder.cs:1390-1452 | the restored array is determined by the received one |
| Interleave.RestoredKeepsAll | src/QRFocus.Library/QRDecoder.cs:1390-1452 | every received codeword appears in the restored array, so the restoration is a permutation |
| Interleave.DataSourceInverse | src/QRFocus.Library/QRDecoder.cs:1403-1431 | the source of data byte j of block b is a data position that maps back to block b and offset j |
| Interleave.DataSourceOnto | src/QRFocus.Library/QRDecoder.cs:1403-1431 | every received data position is the source of exactly one block byte |
| Interleave.EccSourceInverse | src/QRFocus.Library/QRDecoder.cs:1433-1447 | the source of check byte k of block b maps back to block b and offset k |
| Interleave.EccSourceOnto | src/QRFocus.Library/QRDecoder.cs:1433-1447 | every received check position is the source of exactly one block check byte |
| Interleave.SeparateDataBlocks | src/QRFocus.Library/QRDecoder.cs:1398-1401 | the data ranges of different blocks do not overlap |
| Interleave.SeparateDataFromEcc | src/QRFocus.Library/QRDecoder.cs:1433-1436 | all data ranges lie before `MaxDataCodewords` and all check ranges after it |
| Galois.Multiply | src/QRFocus.Library/QRDecoder.cs:2350-2355 | a product is zero exactly when a factor is zero |
| Galois.MultiplyIntByExp | src/QRFocus.Library/QRDecoder.cs:2357-2362 | multiplying by a power of α is zero exactly for zero |
| Galois.DivideIntByExp | src/QRFocus.Library/QRDecoder.cs:2372-2378 | dividing by a power of α is zero exactly for zero |
| Galois.MultiplyDivide | src/QRFocus.Library/QRDecoder.cs:2364-2370 | a·b / c is zero exactly when a or b is zero |
| Galois.MultiplyIntByExpIsProduct | src/QRFocus.Library/QRDecoder.cs:2357-2362 | multiplying by exponent e is the field product with α^e |
| Galois.DivideUndoesMultiply | src/QRFocus.Library/QRDecoder.cs:2372-2378 | dividing by α^e undoes multiplying by α^e |
| Galois.MultiplyDivideIsQuotient | src/QRFocus.Library/QRDecoder.cs:2364-2370 | for c ≠ 0, (a·b / c)·c = a·b |
| Galois.MultiplyByOne | src/QRFocus.Library/QRDecoder.cs:2350-2355 | 1 is the unit of the field product |
| GaloisTables.LogThenExp | src/QRFocus.Library/QRDecoder.cs:2890-2945 | `ExpToInt[IntToExp[x]] == x` for every x in 1..255 |
| GaloisTables.ExpThenLog | src/QRFocus.Library/QRDecoder.cs:2890-2945 | `IntToExp[ExpToInt[k]] == k` for every k in 0..254 |
| GaloisTables.ExpPeriod | src/QRFocus.Library/QRDecoder.cs:2890-2925 | the exponent table repeats with period 255 |
| GaloisTables.ExpRecurrence | src/QRFocus.Library/QRDecoder.cs:2890-2925 | each entry is the previous one times α, reduced by the primitive polynomial 0x11D (so `ExpToInt[8] == 29`) |
| ReedSolomon.PolynominalDivision | src/QRFocus.Library/QRDecoder.cs:2327-2348 | the buffer ends as the long division of the block by the generator: quotient in the data part, remainder in the check part, the rest kept |
| ReedSolomon.DivisionIdentity | src/QRFocus.Library/QRDecoder.cs:2327-2348 | the received block equals quotient × g(x) + remainder coefficient by coefficient, with g(x) = x^ecc + Σ α^gen[j] x^(ecc−1−j) and a remainder of degree below ecc |
| ReedSolomon.RemainderOfBlock | src/QRFocus.Library/QRDecoder.cs:2327-2348 | the remainder of data followed by check bytes is the check bytes XOR the check bytes the data should have |
| ReedSolomon.CheckPassesIffEncoded | src/QRFocus.Library/QRDecoder.cs:1499-1506 | the remainder is all zero exactly when the check bytes are the encoder's check bytes for the data |
| Decoder.BlockPassesIffEncoded | src/QRFocus.Library/QRDecoder.cs:1499-1506 | a block of the codeword array passes the check exactly when its check bytes encode its data |
| Decoder.LoadBlock | src/QRFocus.Library/QRDecoder.cs:1492-1494 | the buffer starts with the block's data codewords followed by its check codewords |
| Decoder.FirstNonZero | src/QRFocus.Library/QRDecoder.cs:1503-1505 | the scan reaches the end exactly when the range is all zero |
| Decoder.DivideBlock | src/QRFocus.Library/QRDecoder.cs:1499-1506 | no error exactly when the block's remainder is all zero |
| Decoder.CheckBlock | src/QRFocus.Library/QRDecoder.cs:1492-1519 | a block passes exactly when its remainder is zero; otherwise the error count and the corrected data are those of the correction of the block |
| Decoder.CopyBack | src/QRFocus.Library/QRDecoder.cs:1517-1518 | the corrected data replaces the block's data range and every other codeword is kept |
| ReedSolomon.CalculateSyndrome | src/QRFocus.Library/QRDecoder.cs:2156-2187 | syndrome e is the received polynomial evaluated at α^e for every e < ecc, and the error flag is set exactly when some syndrome is non-zero |
| ReedSolomon.SumOfCodewords | src/QRFocus.Library/QRDecoder.cs:2167-2172 | syndrome 0 is the XOR of all codewords |
| ReedSolomon.PolynomialAt | src/QRFocus.Library/QRDecoder.cs:2175-2182 | the Horner loop evaluates the block at α^index |
| ReedSolomon.HornerAtOne | src/QRFocus.Library/QRDecoder.cs:2167-2180 | the special case for syndrome 0 agrees with the general evaluation at α^0 |
| ReedSolomon.CalculateSigmaMBM | src/QRFocus.Library/QRDecoder.cs:2197-2246 | returns −1 exactly when the Berlekamp–Massey iteration stops on a degree above ecc/2, and otherwise its degree in 0..ecc/2; non-zero syndromes never give 0; sigma is the iteration's locator with sigma[0] = 1 and omega is sigma × syndromes truncated |
| ReedSolomon.LocatorLoop | src/QRFocus.Library/QRDecoder.cs:2203-2239 | the initialisation and the loop: after every syndrome the state is `Locate`'s with the loop's bookkeeping kept, or the step at `errCorrIndex` is the one that stops the algorithm |
| ReedSolomon.LocatorSteps | src/QRFocus.Library/QRDecoder.cs:2203-2241 | the loop computes the Berlekamp–Massey specification `Locate` over all ecc syndromes |
| ReedSolomon.Advance | src/QRFocus.Library/QRDecoder.cs:2213-2240 | one iteration performs exactly one step of the specification, and stops exactly when the step overflows ecc/2 |
| ReedSolomon.Discrepancy | src/QRFocus.Library/QRDecoder.cs:2214-2216 | the discrepancy is the syndrome plus the locator-weighted earlier syndromes |
| ReedSolomon.NextPolyB | src/QRFocus.Library/QRDecoder.cs:2221-2223 | the corrected locator adds the scaled correction polynomial and keeps its leading 1 |
| ReedSolomon.ScaledPolyB | src/QRFocus.Library/QRDecoder.cs:2230-2231 | the new correction polynomial is the old locator divided by the discrepancy |
| ReedSolomon.ShiftRight | src/QRFocus.Library/QRDecoder.cs:2238-2239 | the correction polynomial is multiplied by x |
| ReedSolomon.LocateBounded | src/QRFocus.Library/QRDecoder.cs:2229 | a locator that survives the iteration has degree between 0 and ecc/2 |
| ReedSolomon.PolynomialMultiply | src/QRFocus.Library/QRDecoder.cs:2380-2395 | every coefficient of the result is the truncated product coefficient of the two polynomials |
| ReedSolomon.ChienSearch | src/QRFocus.Library/QRDecoder.cs:2258-2302 | success exactly when the scan finds count − 1 roots of sigma inside the block and the position derived from sigma[1] lies inside too; the positions are then that derived position followed by the roots, highest first |
| ReedSolomon.FindRoots | src/QRFocus.Library/QRDecoder.cs:2278-2301 | the scan completes exactly when count − 1 roots have been found; the roots' positions, highest first, follow the position derived from `sigma[1]` |
| ReedSolomon.RootsAreTheZeros | src/QRFocus.Library/QRDecoder.cs:2280-2286 | the roots are increasing and are exactly the data indices d at which sigma(α^(255−d)) is zero |
| ReedSolomon.ApplyCorrection | src/QRFocus.Library/QRDecoder.cs:2304-2325 | the block becomes the received block with each error magnitude XORed in at its position, and nothing else changes |
| ReedSolomon.ErrorValue | src/QRFocus.Library/QRDecoder.cs:2314-2322 | the magnitude is the Forney quotient of the truncated evaluator and the odd part of sigma at the position |
| ReedSolomon.AddErrorValue | src/QRFocus.Library/QRDecoder.cs:2322 | exactly one codeword, at DataLength − 1 − log(position), is XORed with the magnitude |
| ReedSolomon.PatchedConfined | src/QRFocus.Library/QRDecoder.cs:2312-2323 | positions that are not error positions, and everything from DataLength on, are never changed |
| ReedSolomon.CorrectionOf | src/QRFocus.Library/QRDecoder.cs:2113-2143 | the correction of a block keeps its length and tail, returns −1 or 0..ecc/2, returns 0 exactly when every syndrome is zero, and changes nothing unless it returns a positive count |
| ReedSolomon.CorrectionChangesAtMostErrors | src/QRFocus.Library/QRDecoder.cs:2113-2143 | a correction changes at most as many codewords as the count it returns (none for −1 or 0), all of them below DataLength |
| ReedSolomon.CorrectData | src/QRFocus.Library/QRDecoder.cs:2113-2143 | the count and the new block are those of `CorrectionOf` on the received block: −1 when Berlekamp–Massey or the Chien search fails, 0 exactly when every syndrome is zero, otherwise a count up to ecc/2 with only that many codewords below DataLength changed |
| Decoder.QRDecoder.CalculateErrorCorrection | src/QRFocus.Library/QRDecoder.cs:1459-1529 | the check bytes are kept; success exactly when every block passes or its correction returns a positive count, and then every block's data is the received data or its correction; on failure the blocks before the first uncorrectable one are corrected and the rest are as received |
| Decoder.CorrectBlocks | src/QRFocus.Library/QRDecoder.cs:1464-1528 | the per-block correction on a layout and an array, with the specified result, using the generator of the layout's table row |
| Decoder.CorrectBlocksWith | src/QRFocus.Library/QRDecoder.cs:1481-1526 | the per-block correction with a given generator, with the specified result |
| Decoder.BlockLoop | src/QRFocus.Library/QRDecoder.cs:1481-1526 | the loop over the blocks in block order: on success every block passed or was corrected and holds its expected data; on failure the loop ended as `Corrected` states with failure |
| Decoder.CorrectBlock | src/QRFocus.Library/QRDecoder.cs:1485-1525 | one block: it passes exactly when its remainder is zero; otherwise the count is that of its correction, and the data is replaced only when that count is positive |
| Decoder.CorrectedWhenDone | src/QRFocus.Library/QRDecoder.cs:1481-1528 | the state after the block loop is the specified result, whether the loop completed or stopped at the first uncorrectable block |
| Decoder.QRDecoder.ReadBitsFromCodewordsArray | src/QRFocus.Library/QRDecoder.cs:1679-1691 | returns the next n bits of the data codewords MSB first and advances past them, or −1 without advancing when fewer than n bits remain |
| Decoder.QRDecoder.TakeBits | src/QRFocus.Library/QRDecoder.cs:1681-1684 | the top n bits of the buffer are the next n stream bits, and the position moves on by n |
| Decoder.QRDecoder.Refill | src/QRFocus.Library/QRDecoder.cs:1685-1689 | the refill loop keeps the buffer a window on the stream at the same position |
| Decoder.QRDecoder.LoadCodeword | src/QRFocus.Library/QRDecoder.cs:1687-1688 | ORing the next codeword below the buffered bits extends the window by 8 bits |
| Decoder.QRDecoder.LoadStream | src/QRFocus.Library/QRDecoder.cs:1539-1542 | the bit stream of the data codewords is loaded with the first four codewords in the 32-bit buffer, and the reader stands at bit 0 |
| BitStream.Read | src/QRFocus.Library/QRDecoder.cs:1679-1691 | a read returns −1 exactly when fewer than n bits remain, and otherwise a value below 2^n |
| BitStream.TakeFromWindow | src/QRFocus.Library/QRDecoder.cs:1682-1683 | shifting the 32-bit buffer right yields the next bits, and shifting it left (mod 2^32) leaves the window on the rest |
| BitStream.OrIntoWindow | src/QRFocus.Library/QRDecoder.cs:1687 | ORing a codeword shifted by 24 − len bits appends its 8 bits to the window |
| BitStream.FirstCodewords | src/QRFocus.Library/QRDecoder.cs:1540 | the initial buffer is the first 32 bits of the stream |
| Segments.DataLengthBitsShape | src/QRFocus.Library/QRDecoder.cs:1699-1719 | exactly numeric, alphanumeric and byte modes have a count field; it is 8 to 16 bits wide and never narrows as the version grows |
| Decoder.QRDecoder.ReadCountField | src/QRFocus.Library/QRDecoder.cs:1584-1589 | the count field width is that of the mode and version, present only for numeric, alphanumeric and byte mode, and the count is the next that many bits |
| Decoder.QRDecoder.DecodeData | src/QRFocus.Library/QRDecoder.cs:1537-1671 | success exactly when the data stream decodes, and then the payload and the last ECI assignment are those of `Decode` on the stream |
| Decoder.QRDecoder.ReadEciAssignment | src/QRFocus.Library/QRDecoder.cs:1562-1564 | the first designator byte is read and the value and position are those of the ECI specification |
| Decoder.QRDecoder.ReadEciSecondByte | src/QRFocus.Library/QRDecoder.cs:1566-1572 | the second designator byte is read per the specification |
| Decoder.QRDecoder.ReadEciThirdByte | src/QRFocus.Library/QRDecoder.cs:1574-1581 | the third designator byte is read per the specification, and a fourth-form designator fails |
| Segments.EciAssignmentIsDesignator | src/QRFocus.Library/QRDecoder.cs:1560-1582 | the bit tests of the decoder read exactly the one-, two- and three-byte ECI designators of ISO/IEC 18004:2015 section 7.4.2.2 |
| Decoder.QRDecoder.DecodeSegment | src/QRFocus.Library/QRDecoder.cs:1584-1666 | a segment of a counted mode yields the specified bytes and position; a mode without a count, or a short read, fails |
| Decoder.QRDecoder.DecodeNumeric | src/QRFocus.Library/QRDecoder.cs:1599-1627 | a numeric segment yields the specified digits, or fails exactly when the specification does |
| Decoder.QRDecoder.DecodeAlphaNumeric | src/QRFocus.Library/QRDecoder.cs:1630-1648 | an alphanumeric segment yields the specified characters, or fails exactly when the specification does |
| Decoder.QRDecoder.DecodeBytes | src/QRFocus.Library/QRDecoder.cs:1651-1659 | a byte segment yields the specified bytes, or fails exactly when the specification does |
| Segments.NumericGroups | src/QRFocus.Library/QRDecoder.cs:1601-1609 | the groups of three digits succeed exactly when 10 bits per group remain, and then add three characters per group |
| Segments.NumericGroupDigits | src/QRFocus.Library/QRDecoder.cs:1604-1608 | a group value below 1000 yields its three decimal digits in ASCII |
| Segments.NumericRestDigits | src/QRFocus.Library/QRDecoder.cs:1611-1626 | the one- or two-digit rest yields its decimal digits in ASCII |
| Segments.AlnumPairs | src/QRFocus.Library/QRDecoder.cs:1632-1639 | the pairs fail when fewer than 11 bits per pair remain; on success they consume 11 bits and add two characters per pair |
| Segments.ByteRun | src/QRFocus.Library/QRDecoder.cs:1653-1658 | the bytes succeed exactly when 8 bits per byte remain, and then add one byte each |
| Segments.ByteRunFields | src/QRFocus.Library/QRDecoder.cs:1655-1657 | byte i of the run is the 8 stream bits at position 8·i |
| Segments.Segment | src/QRFocus.Library/QRDecoder.cs:1594-1666 | a segment of n characters appends exactly n bytes, so the length check at the end never fails |
| Segments.SegmentLength | src/QRFocus.Library/QRDecoder.cs:1594-1659 | a segment consumes exactly the bits the mode assigns to n characters |
| Segments.DecodeFrom | src/QRFocus.Library/QRDecoder.cs:1551-1667 | the decoded payload extends what was decoded before |

## Left out

- Image loading and the `LockBits`/`Marshal.Copy` transfer are not modelled. The binarizer starts from the locked pixel bytes and the stride.
- Binarizer.ToBlackAndWhite: the source indexes past the end of the pixel bytes when the stride is non-negative but shorter than three bytes per pixel. The lock never hands over such a stride, and the model requires that a non-negative stride covers the pixels.
- The floating-point geometry is not modelled: the finder and alignment searches, the corner transforms, `GetModule`, and the sampling of the format and version words through it. The model takes the sampled module colours as an input grid. It takes the received format and version words as integers.
- The orchestration loop in `ImageDecoder` is not modelled. It tries finder triples and catches exceptions, so failures in the modelled stages become a `false` result here.
- The PDF service, the result object's text decoding, the settings singleton and the demo UI are not modelled. They hold I/O, foreign calls or global state.
- ReedSolomon.CorrectData: two things are not proved. The first is that it corrects every error pattern of at most ecc/2 codewords. The second is that a positive count leaves a block whose syndromes are all zero. The model proves only what the source itself checks: the count, the bound, and which codewords may change. The source takes the last error position from `sigma[1]` without testing that it is a root of sigma. The model keeps that.
- ReedSolomon.CalculateSigmaMBM: sigma and omega are proved equal to the specified Berlekamp–Massey iteration and its product with the syndromes. It is not proved that sigma's roots are the error positions.
- ReedSolomon.PolynominalDivision: the remainder is proved to satisfy block = quotient × g(x) + remainder. It is not proved that a zero remainder is the same as zero syndromes for the table generators. That would need the roots of each generator to be α^0 … α^(ecc−1).
- Decoder.QRDecoder.CalculateErrorCorrection: the total error count is summed but never read in the source, so it is not modelled.
- The optional finder run-length extraction and finder reduction are not modelled, because they depend on the floating-point signature tests.
