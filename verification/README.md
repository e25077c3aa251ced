# Verified model of an ERP core

This project models the exact parts of the ERP server: the QR encoder that its labels use, the inventory engine, money
with taxes and payments, document numbering, record rules, the closure of a database reset, and CSV. It proves what
these parts promise for all inputs, all runs or all interleavings.

`dafny verify dfyconfig.toml` checks everything.

## What is modelled

**QR encoder.** A text becomes segments (`QrSegments`), data codewords of the least version that holds it
(`QrEncoding`), blocks with Reed-Solomon error correction (`GaloisField`, `ReedSolomon`, `Interleave`), modules along
a zigzag around the function patterns (`Zigzag`, `FunctionModules`, `QrDrawing`), and a masked symbol (`QrSymbol`,
`QrPatterns`). `MaskPatterns`, `QrInformation`, `SymbolPictures` and `ScanOrder` say what a finished symbol looks
like, `QrModes` what the bit stream does. Each stage has an inverse, and `QrRoundTrip` composes them: a reader that
sees only the modules of a finished symbol gets the text back. `FieldPowers` and `ErrorDistance` show what the error
correction is worth: how many errors still leave only one data. The class `QrCode` has the two grids of the original
as fields, and its methods write them in the order of the original. The penalty score is an unknown function of the
grid, within the range that the code asserts.

**Inventory.** `Inventory.StockQuant` is the engine with its tables as fields; `Valuation` has the three cost methods
as functions of one product's ledger and the loops that compute them. `CostFlows` says what each event is worth;
`FifoCosting`, `AverageCosting` and `StandardCosting` prove what holds after any run, and `Inventory` carries it over
to runs of the whole engine, in which other products' moves are interleaved.

**Money, tax, payments.** Amounts are signed 64-bit counts of micro-units; intermediate results are unbounded, and
every place where the original clamps, refuses or narrows is explicit (`Moneys`, `MoneyText`, `TaxEngine`). C++
division truncates and Dafny's does not, so `Rounding.TruncDiv` spells it out. `PaymentAllocation.Ledger` has the
payment, invoice and reconcile tables as fields. `LineAmounts`, `TaxColumns`, `AllocationTargets` and `AmountText`
state results by prices, rates, partners and digits alone.

**Closure, numbering, rules, CSV.** `ResetClosure` is the foreign-key loop over any tables and keys.
`DocumentSequence` is a system of transactions with row locks, private row versions, commits and aborts; the period
key comes from a clock that each step supplies; `SequenceClocks` follows the clocks through a run and `SequenceTexts`
the texts that callers receive. `RecordRules` has the prefix combinators and the stack parser, `PrefixNotation` its
grammar, `DocumentedRules` what the rules say together, and `RuleNarrowing` what becomes of the rules behind a
request. `CsvCodec` has the parser's state machine and the printer.

## Where the code falls short of its promise

The model follows the code. Where a promise does not hold for all inputs, the exact condition is proved.

- `Money::toString` of INT64_MIN at full scale cannot be parsed back (`MoneyText.ParseToString`).
- Allocating a payment that already has rows starts again from its full amount (`PaymentAllocation.ReportedCredit`,
  `UnallocateUndoes`, `AllocatedKeepsCovered`, `SecondAllocationOverspends`).
- `TaxEngine.hpp` line 90 says that with inclusive taxes the total equals the gross passed in; the code's total equals
  the gross *rounded* to dp, which is the same exactly for multiples of the unit (`TaxEngine.TotalIsGrossExactly`,
  `TotalIsNotGross`). Inclusive percentages of minus one hundred divide by zero (`TaxEngine.DividesByZeroExactly`).
- Lines 26 to 29 there say that each line's tax is rounded to dp. With inclusive fixed taxes and no percentages neither
  base nor tax is rounded (`TaxColumns.FixedTaxKeepsItsPlaces`; exactly when, in `TaxColumns.PrintsExactlyWhen`).
- `domainOr_` counts items instead of terms and drops empty operands (`RecordRules.RuleMeaning`,
  `RecordRules.DocumentedExactly`, `RuleExamples`).
- `mergeRuleDomain_` appends the rules to a request that need not parse by itself, and an or- or not-operator of the
  request may then take a term of the rules: the whole can pass a record that the rules forbid
  (`RuleNarrowing.OrTakesTheRule`; exactly when, in `RuleNarrowing.NarrowingOfShape` and `NarrowingOfDifferent`).
- A crossing move of a negative quantity changes stock but not its valuation (`Inventory.RunOnHand`), and a move may
  take what is reserved (exactly when, in `Inventory.ReservationsStayCovered`).
- A FIFO shortfall is never made up: from then on the layers hold more than the cached quantity (`FifoCosting.FifoRun`).
- Quoted CSV text with CR CR LF parses to a field with CR LF, which does not survive the next round trip
  (`CsvCodec.Reparse`).
- `CsvParser.hpp` line 22 says that a trailing newline is ignored. A last record of one empty field is lost without it
  (`CsvCodec.LastEmptyFieldIsLost`; exactly when, in `CsvCodec.TrailingLineEnd` and `WithoutLastLineEnd`).
- A clock that goes back to an earlier period makes numbers repeat (`DocumentSequence.ClockGoingBackRepeats`; exactly
  when, in `DocumentSequence.RepeatsExactly` by the numbers and in `SequenceClocks` by the clocks).

## Model

| member | source | states |
|---|---|---|
| GaloisField.Multiply | 3rdparty/qrcodegen/qrcodegen.cpp:739-748 | The bit loop returns the product in GF(2^8/0x11D) as Horner evaluation over the bits of y; the laws below make it the field product |
| GaloisField.MulDistributes | 3rdparty/qrcodegen/qrcodegen.cpp:739-748 | The product distributes over XOR on both sides, for all bytes |
| GaloisField.MulCommutes | 3rdparty/qrcodegen/qrcodegen.cpp:739-748 | The product does not depend on the order of its operands |
| GaloisField.MulAssociates | 3rdparty/qrcodegen/qrcodegen.cpp:739-748 | The product is associative, for all bytes |
| GaloisField.MulOneLeft | 3rdparty/qrcodegen/qrcodegen.cpp:739-748 | One is neutral |
| ReedSolomon.ComputeDivisor | 3rdparty/qrcodegen/qrcodegen.cpp:701-723 | Refuses degrees outside 1..255 and otherwise returns the generator |
| ReedSolomon.DivisorIsRootProduct | 3rdparty/qrcodegen/qrcodegen.cpp:707-720 | The generator is exactly (x - 2^0)(x - 2^1)...(x - 2^(n-1)) at every point x |
| ReedSolomon.ComputeRemainder | 3rdparty/qrcodegen/qrcodegen.cpp:726-736 | The register loop computes the remainder of the data times x^n |
| ReedSolomon.DivisionIdentity | 3rdparty/qrcodegen/qrcodegen.cpp:726-736 | Data followed by the remainder equals quotient times divisor, at every point and for every divisor |
| ReedSolomon.CodewordVanishesAtRoots | 3rdparty/qrcodegen/qrcodegen.cpp:701-748 | For every degree and every byte string, data followed by its remainder is zero at 2^i for every i below the degree (section 7.5 of ISO/IEC 18004:2015) |
| QrTables.TablesFit | 3rdparty/qrcodegen/qrcodegen.cpp:792-808 | In every row of the ECC tables each block has 7 to 30 error correction codewords, at least one data codeword, and at most 255 codewords in all |
| FieldPowers.TwoHasOrder255 | 3rdparty/qrcodegen/qrcodegen.cpp:711-720 | The root that the divisor loop doubles comes back to one after 255 doublings |
| FieldPowers.PowersDiffer | 3rdparty/qrcodegen/qrcodegen.cpp:711-720 | The roots of the generator all differ, up to the greatest degree |
| FieldPowers.EveryByteIsAPower | 3rdparty/qrcodegen/qrcodegen.cpp:739-748 | Every byte but zero is a power of two |
| FieldPowers.NoZeroDivisors | 3rdparty/qrcodegen/qrcodegen.cpp:739-748 | A product is zero only if a factor is |
| ErrorDistance.CodewordsDiffer | 3rdparty/qrcodegen/qrcodegen.cpp:701-748 | For every degree n and blocks of at most 255 codewords in all, different data gives codewords that differ in at least n + 1 places |
| ErrorDistance.CorrectionIsUnique | 3rdparty/qrcodegen/qrcodegen.cpp:701-748 | A received block is within n/2 errors of the codeword of one data only |
| ErrorDistance.DataIsUnique | 3rdparty/qrcodegen/qrcodegen.cpp:498-533 | For every version and level: received codewords, with errors in at most half as many places of a block as it has error correction codewords, stand for one data only |
| Interleave.ShapeOf | 3rdparty/qrcodegen/qrcodegen.cpp:503-508 | The short and long blocks of a version hold exactly its data codewords, and with their error correction exactly its raw codewords |
| Interleave.AddEccAndInterleave | 3rdparty/qrcodegen/qrcodegen.cpp:498-533 | Refuses data of a wrong length; otherwise exactly getNumRawDataModules/8 codewords, the columns of the padded blocks without the padding |
| Interleave.SplitIntoBlocks | 3rdparty/qrcodegen/qrcodegen.cpp:510-521 | Block j is its stretch of the data, a padding byte when short, and the remainder of that stretch |
| Interleave.InterleaveBlocks | 3rdparty/qrcodegen/qrcodegen.cpp:523-533 | The blocks are read column by column, the padding of short blocks left out |
| Interleave.DeinterleaveBlock | 3rdparty/qrcodegen/qrcodegen.cpp:498-533 | From the interleaved codewords each block gets back its data and its error correction, short and long alike |
| Interleave.DeinterleaveData | 3rdparty/qrcodegen/qrcodegen.cpp:498-533 | De-interleaving with the same shape recovers all data codewords in order |
| Interleave.BlocksAreCodewords | 3rdparty/qrcodegen/qrcodegen.cpp:509-521 | Every block read back from the interleaved codewords is zero at the roots of its generator |
| Interleave.Reinterleave | 3rdparty/qrcodegen/qrcodegen.cpp:523-533 | Every codeword sequence of the right length is the interleaving of the blocks read from it: each position is used once |
| Interleave.DataPlace | 3rdparty/qrcodegen/qrcodegen.cpp:523-533 | Codeword i of block j, counted in data codewords, comes out at position i times the number of blocks plus j |
| Interleave.LastDataPlace | 3rdparty/qrcodegen/qrcodegen.cpp:523-533 | The last data codeword of each long block follows after those, in the order of the blocks |
| Interleave.EccPlace | 3rdparty/qrcodegen/qrcodegen.cpp:523-533 | The error correction follows all data in the same order, and ends the sequence |
| Zigzag.ScanCoversDataOnce | 3rdparty/qrcodegen/qrcodegen.cpp:536-560 | With column 6 all function modules the scan visits every other module exactly once and no function module |
| ScanOrder.ScanInOrder | 3rdparty/qrcodegen/qrcodegen.cpp:540-557 | The scan goes through strips of two columns from right to left, left of the timing line shifted by one, up and down by turns, and from right to left in a row |
| FunctionModules.ComputeAlignPositions | 3rdparty/qrcodegen/qrcodegen.cpp:664-676 | The positions inserted from the far end are 6 and then equally spaced up to size - 7 |
| FunctionModules.FunctionSetMembers | 3rdparty/qrcodegen/qrcodegen.cpp:387-413 | A set of disjoint rectangles contains exactly the modules that the drawing code marks as function modules |
| FunctionModules.FunctionSetSize | 3rdparty/qrcodegen/qrcodegen.cpp:387-413 | The number of function modules of each version |
| FunctionModules.DataPlacesCount | 3rdparty/qrcodegen/qrcodegen.cpp:679-691 | For every version the scan visits exactly getNumRawDataModules modules |
| MaskPatterns.MaskPicture | 3rdparty/qrcodegen/qrcodegen.cpp:570-578 | For all x and y each of the eight masks is its picture (table 10 of ISO/IEC 18004:2015), repeated in both directions |
| MaskPatterns.StripedMasks | 3rdparty/qrcodegen/qrcodegen.cpp:571-574 | Mask 0 changes with every step, mask 1 with every row, mask 2 inverts one column in three, mask 3 one diagonal in three |
| MaskPatterns.BlockMask | 3rdparty/qrcodegen/qrcodegen.cpp:575 | Mask 4 is constant on blocks of three by two, and neighbouring blocks differ |
| MaskPatterns.SymmetricMasks | 3rdparty/qrcodegen/qrcodegen.cpp:576-578 | Masks 5 to 7 are symmetric |
| QrInformation.FormatTable | 3rdparty/qrcodegen/qrcodegen.cpp:417-423 | The computed format information is that of table C.1 of ISO/IEC 18004:2015, for every level and mask |
| QrInformation.VersionTable | 3rdparty/qrcodegen/qrcodegen.cpp:448-453 | The computed version information is that of table D.1, for every version from 7 on |
| SymbolPictures.FinderShown | 3rdparty/qrcodegen/qrcodegen.cpp:465-474 | Every finished symbol shows the picture of a finder pattern with its separator in three corners |
| SymbolPictures.AlignmentShown | 3rdparty/qrcodegen/qrcodegen.cpp:477-482 | And the picture of an alignment pattern at every pair of centre coordinates but those three |
| SymbolPictures.AlignmentPositions | 3rdparty/qrcodegen/qrcodegen.cpp:664-676 | The centre coordinates are 6, and from seven modules before the border down equally spaced by table E.1 |
| SymbolPictures.TimingShown | 3rdparty/qrcodegen/qrcodegen.cpp:389-392 | Between the finders row and column 6 are dark at even coordinates, alignment patterns on them included |
| SymbolPictures.FormatShown | 3rdparty/qrcodegen/qrcodegen.cpp:425-439 | Both copies of the format information show the code of the level and the mask, bit by bit at their places, beside the module that is always dark |
| SymbolPictures.VersionShown | 3rdparty/qrcodegen/qrcodegen.cpp:455-461 | Both copies of the version information show the code of the version |
| QrSymbol.MaskTwice | 3rdparty/qrcodegen/qrcodegen.cpp:563-584 | Masking twice with the same mask is the identity |
| QrSymbol.ReadSymbolBits | 3rdparty/qrcodegen/qrcodegen.cpp:536-584 | Unmasking a finished symbol and reading along the scan returns the codewords bit for bit |
| QrSymbol.ReadFormat | 3rdparty/qrcodegen/qrcodegen.cpp:416-440 | Error correction level and mask are read back from the format bits of a finished symbol |
| QrDrawing.QrCode.constructor | 3rdparty/qrcodegen/qrcodegen.cpp:320-333 | A blank grid of the size of the version, nothing marked |
| QrDrawing.QrCode.SetFunctionModule | 3rdparty/qrcodegen/qrcodegen.cpp:485-489 | Sets one module and marks it, and nothing else |
| QrDrawing.QrCode.DrawTimingPatterns | 3rdparty/qrcodegen/qrcodegen.cpp:389-392 | Row and column 6 alternate and are marked; nothing else changes |
| QrDrawing.QrCode.DrawFinderPattern | 3rdparty/qrcodegen/qrcodegen.cpp:465-474 | The 9 by 9 finder square, cut at the border: rings by distance, all marked; nothing else changes |
| QrDrawing.QrCode.DrawAlignmentPatterns | 3rdparty/qrcodegen/qrcodegen.cpp:399-408 | All alignment patterns but the three under finders; they do not overlap, so each keeps its rings |
| QrDrawing.QrCode.DrawFormatBits | 3rdparty/qrcodegen/qrcodegen.cpp:416-440 | Both copies of the 15 format bits and the dark module; nothing else changes |
| QrDrawing.QrCode.DrawVersion | 3rdparty/qrcodegen/qrcodegen.cpp:443-462 | Both copies of the 18 version bits from version 7 on; nothing else changes |
| QrDrawing.QrCode.DrawFunctionPatterns | 3rdparty/qrcodegen/qrcodegen.cpp:387-413 | Marks exactly the function modules of the version, with the colours of its patterns for mask 0 |
| QrDrawing.QrCode.DrawCodewords | 3rdparty/qrcodegen/qrcodegen.cpp:536-560 | Refuses a wrong number of codewords; otherwise puts bit k in the k-th module of the scan and changes no other module |
| QrDrawing.QrCode.ApplyMask | 3rdparty/qrcodegen/qrcodegen.cpp:563-584 | Inverts exactly the modules where the repeated picture of the mask is dark and which are not function modules |
| QrDrawing.QrCode.DrawMasked | 3rdparty/qrcodegen/qrcodegen.cpp:342-343 | Mask and format bits drawn on an unmasked grid give the symbol of that mask |
| QrDrawing.QrCode.Unmask | 3rdparty/qrcodegen/qrcodegen.cpp:349 | Applying the mask again restores the grid's data modules after each trial |
| QrDrawing.QrCode.DoMasking | 3rdparty/qrcodegen/qrcodegen.cpp:338-355 | The trials leave the data unchanged; the mask kept is the least index of minimal penalty, and the final grid is the symbol of that mask |
| QrDrawing.Create | 3rdparty/qrcodegen/qrcodegen.cpp:320-359 | The constructor refuses a bad version, mask or data length and otherwise yields the symbol of the interleaved codewords under the best or the given mask |
| QrSegments.BitBuffer.AppendBits | 3rdparty/qrcodegen/qrcodegen.cpp:822-827 | Refuses a length outside 0..31 or a value that does not fit; otherwise appends its bits, most significant first |
| QrSegments.FromBitsInverse | 3rdparty/qrcodegen/qrcodegen.cpp:822-827 | The appended bits read back as the value |
| QrSegments.MakeNumeric | 3rdparty/qrcodegen/qrcodegen.cpp:79-99 | Refuses a character that is no digit; otherwise groups of three digits in 10 bits, the rest in 4 or 7 |
| QrSegments.MakeAlphanumeric | 3rdparty/qrcodegen/qrcodegen.cpp:102-122 | Refuses a character outside the set; otherwise pairs in 11 bits, a last one in 6 |
| QrSegments.MakeBytes | 3rdparty/qrcodegen/qrcodegen.cpp:69-76 | Refuses more than INT_MAX bytes; otherwise 8 bits a byte |
| QrSegments.MakeSegments | 3rdparty/qrcodegen/qrcodegen.cpp:125-140 | No segment for the empty text, otherwise one in the first mode of numeric, alphanumeric, byte that can hold it |
| QrModes.ChosenModeIsShortest | 3rdparty/qrcodegen/qrcodegen.cpp:125-140 | No mode that can hold the text needs fewer bits than the one chosen, in any version |
| QrModes.ModeIndicators | 3rdparty/qrcodegen/qrcodegen.cpp:62-64 | The mode indicators are 0001, 0010 and 0100 |
| QrModes.CountWidths | 3rdparty/qrcodegen/qrcodegen.cpp:62-64 | The widths of the character count in the three ranges of versions |
| QrModes.CharacterNumbers | 3rdparty/qrcodegen/qrcodegen.cpp:230 | Digits count as 0 to 9, letters as 10 to 35, the nine symbols as 36 to 44, and no other character is in the set |
| QrEncoding.GetTotalBits | 3rdparty/qrcodegen/qrcodegen.cpp:179-193 | The bits needed, or -1 when a count field or an int is too narrow |
| QrModes.LengthExactly | 3rdparty/qrcodegen/qrcodegen.cpp:179-193 | The length is that of the bits written, exactly when all counts fit their fields and it fits an int |
| QrModes.FitsExactly | 3rdparty/qrcodegen/qrcodegen.cpp:264-281 | Segments fit a version exactly when their counts fit their fields and their bits its data codewords |
| QrModes.LevelsInOrder | 3rdparty/qrcodegen/qrcodegen.cpp:284-288 | In the order of the levels more error correction leaves less data, in every version |
| QrEncoding.FindVersion | 3rdparty/qrcodegen/qrcodegen.cpp:264-281 | The least version of the range that holds the segments, none when no version does |
| QrEncoding.Boost | 3rdparty/qrcodegen/qrcodegen.cpp:284-288 | The highest level at which the data still fits, never below the requested one |
| QrEncoding.SegmentBitsLength | 3rdparty/qrcodegen/qrcodegen.cpp:290-297 | The bits written are exactly the bits counted |
| QrEncoding.PackSegments | 3rdparty/qrcodegen/qrcodegen.cpp:290-313 | The codewords are exactly the capacity, and their bits are the segments, a terminator, zeros to the byte and alternating pad bytes |
| QrModes.PaddedZeros | 3rdparty/qrcodegen/qrcodegen.cpp:301-307 | Up to four bits after the data, and up to the next whole byte, the stream is zero |
| QrModes.PaddedBytes | 3rdparty/qrcodegen/qrcodegen.cpp:309-311 | From there on the codewords are 0xEC and 0x11 by turns |
| QrEncoding.EncodeSegments | 3rdparty/qrcodegen/qrcodegen.cpp:259-317 | Succeeds exactly when a version of the range fits; gives the least one, the boosted level and the packed bits |
| QrDecoding.NumericRoundTrip | 3rdparty/qrcodegen/qrcodegen.cpp:79-99 | Decoding the numeric payload gives every digit string back |
| QrDecoding.AlphanumericRoundTrip | 3rdparty/qrcodegen/qrcodegen.cpp:102-122 | Decoding the alphanumeric payload gives the text back |
| QrDecoding.ByteRoundTrip | 3rdparty/qrcodegen/qrcodegen.cpp:69-76 | Decoding the byte payload gives the text back |
| QrDecoding.TextRoundTrip | 3rdparty/qrcodegen/qrcodegen.cpp:125-140 | Decoding mode, count and payload gives every text that fits back, in all three modes |
| QrDecoding.PackedTextRoundTrip | 3rdparty/qrcodegen/qrcodegen.cpp:259-317 | The same from the padded bit stream, the empty text included |
| QrRoundTrip.EncodeText | 3rdparty/qrcodegen/qrcodegen.cpp:247-250 | Succeeds exactly when some version holds the text; the symbol has the least version, the highest level that fits and the best mask, and the text can be read from its modules alone |
| QrRoundTrip.SymbolReads | 3rdparty/qrcodegen/qrcodegen.cpp:247-359 | Reading size, format, mask, scan, blocks and bit stream of a finished symbol gives the text back |
| Rounding.RoundsToNearest | core/Money.cpp:29-36 | Rounding picks a nearest integer, ties away from zero, for either sign of both operands |
| Rounding.NearestIsUnique | core/Money.cpp:29-36 | Only one integer fits that description |
| Rounding.TruncDivFacts | core/StockQuant.cpp:42-48 | The C++ division: the remainder is smaller than the divisor and never of the opposite sign |
| Moneys.OperationsAreNearest | core/Money.cpp:182-198 | Products, percentages, conversions (249-253) and derived rates (255-259) are within half a unit of the exact result |
| Moneys.RoundToNearest | core/Money.cpp:229-236 | A rounded amount is a multiple of the unit at dp within half a unit |
| Moneys.RoundToFixesMultiples | core/Money.cpp:229-236 | Rounding leaves multiples of the unit alone |
| Moneys.Split | core/Money.cpp:206-224 | n > 0 parts that sum exactly to the amount and differ by at most one micro, the larger ones first, for either sign; otherwise refused |
| MoneyText.ParseText | core/Money.cpp:51-95 | Trims, reads a sign, guards the digit run, discards places beyond the sixth, and refuses anything left over |
| MoneyText.FormatRoundTrip | core/Money.cpp:127-151 | A rounded amount prints and parses to itself, unless its magnitude has no positive counterpart |
| MoneyText.ParseToString | core/Money.cpp:51-151 | parse(toString(dp)) equals roundTo(dp) for every amount whose rounding fits, exactly except INT64_MIN shown at full scale |
| AmountText.AmountIsRead | core/Money.cpp:51-95 | Digits with or without a point, six places of them counting, a sign before and spaces around them, are read at their worth or refused as out of range |
| AmountText.OnlyAmountsAreRead | core/Money.cpp:51-95 | Nothing else is read, but for blank text |
| AmountText.PrintedAmount | core/Money.cpp:127-151 | A printed amount has a minus sign if negative, whole units without needless zeros, and exactly dp digits after the point, with their values |
| TaxEngine.Compute | core/TaxEngine.cpp:10-132 | The loops compute the line function, every refusal in the order of the code |
| LineAmounts.GrossIsDiscounted | core/TaxEngine.cpp:34-37 | For every line base and inclusive taxes together are price times quantity less the discount percentage, to within the three roundings |
| LineAmounts.AmountsOfLine | core/TaxEngine.cpp:52-127 | For every line, with rates and fixed amounts added up from the taxes as given: the base is what they leave of the gross, each inclusive tax but the last is a fixed amount or its proportion, each exclusive one its rate of the base or its fixed amount, all rounded |
| LineAmounts.ComponentOrder | core/TaxEngine.cpp:48-66 | The taxes of each kind in the order of their components: all of them, by sequence number, equal numbers in the order given |
| TaxEngine.NoMicroIsLost | core/TaxEngine.cpp:52-131 | For every line and every mix of taxes the inclusive components sum exactly to gross minus base; the total is the rounded gross plus the exclusive taxes, and the rounded gross itself when all are inclusive |
| TaxEngine.TotalIsGrossExactly | core/TaxEngine.hpp:89-90 | When all taxes are inclusive the total is the gross as it was before rounding, exactly when that is a multiple of the unit at dp |
| TaxEngine.TotalIsNotGross | core/TaxEngine.hpp:89-90 | A line of 10.005 at two places with an inclusive tax comes to 10.01 |
| TaxEngine.DividesByZeroExactly | core/TaxEngine.cpp:77-83 | The line divides by zero exactly when the inclusive percentages add up to minus one hundred and nothing before the division refuses |
| TaxEngine.FullRebateDividesByZero | core/TaxEngine.cpp:77-83 | A line of 10 with an included tax of minus one hundred percent divides by zero |
| TaxColumns.PrintsExactlyWhen | core/TaxEngine.hpp:26-29 | Base, every tax and both totals of a line are multiples of the unit at dp, exactly when the inclusive percentages do not add up to zero or the inclusive fixed amounts add up to a multiple of the unit |
| TaxColumns.FixedTaxKeepsItsPlaces | core/TaxEngine.cpp:69-87 | A line of 10.00 at two places with a fixed tax of 0.005 included gets the base 9.995 and the tax 0.005 |
| TaxEngine.ComponentsFollowTaxes | core/TaxEngine.cpp:92-127 | One component a tax, inclusive ones first, all on the same base; each exclusive tax is its own rounded amount |
| TaxEngine.StableSortFacts | core/TaxEngine.cpp:48-50 | Sorting keeps the taxes, orders them by sequence, and keeps the given order of equals |
| TaxEngine.UnwoundBaseAccuracy | core/TaxEngine.cpp:77-83 | With a positive divisor the base is within one micro plus half a unit at dp of the exact quotient, when the cast to 64 bits loses nothing |
| TaxEngine.ShareIsProportional | core/TaxEngine.cpp:102-106 | An inclusive percentage tax other than the last is within one micro plus half a unit at dp of its proportion |
| TaxEngine.NonNegativeRatesFit | core/TaxEngine.cpp:34-37 | With rates that are not negative the unwound base always fits 64 bits |
| PaymentAllocation.Ledger.RefreshResidual | core/PaymentAllocation.cpp:26-44 | Residual and state of one invoice are recomputed from its rows; an unknown one is ignored |
| PaymentAllocation.SortOldestFirst | core/PaymentAllocation.cpp:103-104 | ORDER BY date, id: every selected invoice once, the oldest first |
| PaymentAllocation.OldestFirstOrdered | core/PaymentAllocation.cpp:103-104 | Of two selected invoices the earlier listed is not younger |
| PaymentAllocation.Ledger.QueryOpen | core/PaymentAllocation.cpp:91-116 | The open posted documents of the partner and the payment type, restricted to the given ids, oldest first |
| AllocationTargets.SettlesOwnDocuments | core/PaymentAllocation.cpp:83-101 | Whatever is applied goes to a posted document of the payment's partner, of the kind it settles, and named in the request if any are |
| AllocationTargets.LeftOverMeansSettled | core/PaymentAllocation.cpp:91-122 | While anything of the payment is left over, nothing is owed on any such document afterwards |
| AllocationTargets.RowsAreSlices | core/PaymentAllocation.cpp:136-151 | One row a slice is added with its amount, base amount and difference; only residual and state of the invoices named change |
| AllocationTargets.ConvertedAtRate | core/PaymentAllocation.cpp:69-74 | Every slice is converted at one rate: the payment's own, or the received amount by the payment's to within half a unit |
| PaymentAllocation.Ledger.ApplyPayment | core/PaymentAllocation.cpp:118-156 | The loop records what the successive rounds compute and refreshes each invoice touched; a failing round leaves the tables as they were |
| PaymentAllocation.Ledger.Allocate | core/PaymentAllocation.cpp:46-163 | Refuses an unknown or draft payment, one without partner, or amounts out of range; otherwise the tables are those of the allocation |
| PaymentAllocation.Ledger.Unallocate | core/PaymentAllocation.cpp:165-177 | Deletes the rows of the payment and recomputes the invoices they touched |
| PaymentAllocation.AllocationIsGreedy | core/PaymentAllocation.cpp:118-162 | Applied plus left over is the payment; each invoice reached but the last is settled in full, and none is over-applied |
| PaymentAllocation.OlderInvoicesArePaid | core/PaymentAllocation.cpp:118-156 | An invoice is touched only when every older one that was selected ends up paid |
| PaymentAllocation.AllocatedKeepsInvariant | core/PaymentAllocation.cpp:118-156 | Allocating a payment that is not negative keeps that state |
| PaymentAllocation.UnallocatedKeepsInvariant | core/PaymentAllocation.cpp:165-177 | So does unallocating |
| PaymentAllocation.RunKeepsInvariant | core/PaymentAllocation.cpp:46-177 | So does every run of both, whatever is refused on the way: of each invoice the residual is the total less what its rows apply, it is neither negative nor above the total, and the state is the one that follows from it |
| PaymentAllocation.UnallocateUndoes | core/PaymentAllocation.cpp:165-177 | Unallocating restores the state before allocating, exactly when the payment had no rows then |
| PaymentAllocation.ReportedCredit | core/MoneyMigrations.cpp:368-379 | The credit that allocate reports equals the one the unallocated view derives, exactly when the payment had no rows before; otherwise the view is lower by what was applied earlier |
| PaymentAllocation.RemainingIsLeftOver | core/PaymentAllocation.cpp:118-162 | What a payment leaves over is what it has beyond everything that the selected invoices owe, or nothing |
| PaymentAllocation.AllocatedKeepsCovered | core/PaymentAllocation.cpp:118-162 | An allocation keeps every payment covered by its amount, exactly when the payment has no rows yet, or its rows and all that the selected invoices owe are within its amount |
| PaymentAllocation.RunKeepsCovered | core/PaymentAllocation.cpp:46-177 | Over any run in which payments are allocated only while they have no rows, no payment applies more than its amount |
| PaymentAllocation.SecondAllocationOverspends | core/PaymentAllocation.cpp:118 | A concrete payment of 100 applied twice: 200 is spent |
| PaymentAllocation.SettlementBound | core/PaymentAllocation.cpp:69-74 | When a payment is used up at the rate derived from what was received, 2·10^6 times the distance of the sum of the base amounts from what was received is at most 10^6·n plus the size of the payment, for every slicing |
| PaymentAllocation.RealisedFx | core/PaymentAllocation.cpp:131-154 | Each slice's FX difference is its amount times the difference of the rates to within one micro, zero when they agree; the total is their sum |
| Valuation.ConsumeLayers | core/StockQuant.cpp:184-201 | The FIFO loop takes from the oldest open layers until the need is covered |
| Valuation.SpreadValue | core/StockQuant.cpp:300-319 | The two loops add truncated shares to the open layers, the last one taking the remainder |
| Valuation.CachesFollowLedger | core/StockQuant.cpp:139-219 | Over any run, for every cost method, quantity_svl and value_svl equal the sums of the ledger rows |
| Valuation.IssueLayer | core/StockQuant.cpp:206-213 | The row of an issue has the negated quantity and value, and a unit cost right to within a unit |
| CostFlows.ReceiptWorth | core/StockQuant.cpp:158-173 | By every cost method a receipt is worth its quantity at the cost named, or at the standard price, to within a micro; its layer records that, and for FIFO holds all of it |
| CostFlows.ReceiptPrice | core/StockQuant.cpp:174-181 | The price of an average product becomes its value by its quantity; no other price changes |
| CostFlows.IssueWorth | core/StockQuant.cpp:203-216 | An issue of a standard or average product is worth its quantity at the price, to within a micro |
| CostFlows.FifoIssueWorth | core/StockQuant.cpp:184-216 | An issue of a FIFO product is worth what it takes out of the layers, and the standard price for the units beyond them |
| CostFlows.RevaluationLayers | core/StockQuant.cpp:282-319 | A revaluation is recorded as a layer; each open FIFO layer but the last gets its share by quantity, to within a micro, and no other layer changes |
| CostFlows.ValueIsFlow | core/StockQuant.cpp:158-219 | Over any run, by every cost method, the value is what was received at cost, less what was issued, plus what was revalued, to within a micro a move |
| CostFlows.FifoValueIsNewestCost | core/StockQuant.cpp:158-219 | Over any run without revaluations whose issues are covered, FIFO stock is worth what its newest units cost, to within a micro a move |
| FifoCosting.DrawnConserves | core/StockQuant.cpp:184-201 | Consumption neither loses nor creates quantity or value |
| FifoCosting.IssueTakesProportion | core/StockQuant.cpp:194-196 | Each layer gives the share of its value that goes with the units taken, to within a micro |
| FifoCosting.SpreadConserves | core/StockQuant.cpp:300-319 | A revaluation lands on the open layers to the last micro, if there are any, and changes no quantity |
| FifoCosting.SharesAreProportional | core/StockQuant.cpp:308-316 | Before the remainder each open layer gets its share by quantity, to within a micro |
| FifoCosting.FifoRun | core/StockQuant.cpp:158-219 | Over any run of moves and revaluations the layers before a cut are used up, those after it untouched; sum(remaining_qty) - quantity_svl is the total shortfall, and sum(remaining_value) - value_svl its value less the revaluations that found no open layer |
| FifoCosting.ShortfallIsLeft | core/StockQuant.cpp:184-202 | What consumption leaves for the standard price is what the issue exceeds the remaining quantity by, or nothing |
| FifoCosting.NeverShortExactly | core/StockQuant.cpp:184-202 | The layers of a new product never run short exactly when every issue is covered by the cached quantity it finds |
| FifoCosting.EmptyStockIsWorthless | core/StockQuant.cpp:184-216 | When every issue was covered by the cached quantity, stock back at zero is worth exactly what was revalued at zero quantity |
| AverageCosting.ValueCoversPrice | core/StockQuant.cpp:172-216 | In every state reached by issues that the quantity covers and revaluations that leave the value non-negative, standard_price·quantity_svl <= value_svl·10^6, so the value is never negative |
| AverageCosting.GapIsBounded | core/StockQuant.cpp:172-216 | Under the same conditions, and unless empty stock is revalued, the gap stays within the quantity at the last re-pricing plus 10^6 for each issue since |
| StandardCosting.ValueIsExplained | core/StockQuant.cpp:158-216 | The value is the quantity at standard price plus the variances of receipts that named a cost plus the revaluations, to within one micro a move |
| Inventory.StockQuant.UpsertDelta | core/StockQuant.cpp:17-26 | Adds to the quant, creating it if absent |
| Inventory.StockQuant.OnHandInternal | core/StockQuant.cpp:324-331 | The sum of the quants of the product in internal locations, over all lots |
| Inventory.StockQuant.RefreshProductOnHand | core/StockQuant.cpp:31-39 | Sets the cached quantity of the product to that sum |
| Inventory.StockQuant.ValuateReceipt | core/StockQuant.cpp:158-181 | A receipt at the input cost, or the standard price when none is given |
| Inventory.StockQuant.ValuateIssue | core/StockQuant.cpp:182-218 | An issue by the cost method of the product, shortfalls at standard price |
| Inventory.StockQuant.ValuateMove | core/StockQuant.cpp:139-219 | Values exactly the moves of positive quantity with an internal location on one side only |
| Inventory.StockQuant.ApplyMove | core/StockQuant.cpp:221-230 | Ignores nothing-moves, is refused for unknown references, and otherwise updates both quants, the cached quantity and the valuation |
| Inventory.StockQuant.Reserve | core/StockQuant.cpp:242-256 | Reserves the part that is available and returns it |
| Inventory.StockQuant.Release | core/StockQuant.cpp:258-267 | Lowers the reservation, not below zero |
| Inventory.StockQuant.Revalue | core/StockQuant.cpp:269-322 | Adds the value, re-prices an average product with stock, and spreads the value over open FIFO layers |
| Inventory.TotalWithout | core/StockQuant.cpp:31-39 | The sum over quants does not depend on the order of the rows |
| Inventory.MoveConserves | core/StockQuant.cpp:221-230 | No move changes the quantity of any product over all locations and lots |
| Inventory.MoveShifts | core/StockQuant.cpp:221-230 | The quantity leaves the source and arrives at the destination in the same lot; no other quant and no reservation changes |
| Inventory.MoveIsValued | core/StockQuant.cpp:139-147 | A positive move into owned stock is a receipt at the cost given, one out of it an issue, and no other move changes a value or another product |
| Inventory.ProductValueIsFlow | core/StockQuant.cpp:139-322 | The value of a product over any run of the whole engine is what came in and was revalued less what went out |
| Inventory.FifoProductIsNewestCost | core/StockQuant.cpp:158-219 | The newest-cost result for a product over any run of the whole engine |
| Inventory.RunOnHand | core/StockQuant.cpp:221-230 | Over any run the cached quantity is what is on hand, and it differs from quantity_svl by exactly the crossing moves of negative quantities |
| Inventory.CostingFollowsHistory | core/StockQuant.cpp:139-322 | What a run does to a product's costing is what the product's own history does |
| Inventory.FifoProductRun | core/StockQuant.cpp:158-219 | The FIFO shape and totals for a product over any run of the whole engine |
| Inventory.FifoProductEmpties | core/StockQuant.cpp:184-216 | The zero-stock result for a product over any run of the whole engine |
| Inventory.AverageProductRun | core/StockQuant.cpp:172-216 | The value of an average-cost product covers its quantity at its price over any run of the whole engine with covered issues and values kept non-negative |
| Inventory.AverageProductGap | core/StockQuant.cpp:172-216 | The gap bound for such a product over any run of the whole engine that does not revalue it empty |
| Inventory.StandardProductRun | core/StockQuant.cpp:158-216 | The value of a standard-cost product is explained to within one micro a move over any run of the whole engine |
| Inventory.ReserveLimits | core/StockQuant.cpp:242-256 | Never reserves more than is available; what it does not reserve was not available |
| Inventory.ReleaseUndoesReserve | core/StockQuant.cpp:258-267 | Releasing what was reserved undoes the reservation, exactly when the row had no negative one |
| Inventory.StepKeepsCovered | core/StockQuant.cpp:221-267 | Where every reservation is covered by its quant, a step keeps it so exactly when a move takes only what is available |
| Inventory.ReservationsStayCovered | core/StockQuant.cpp:221-267 | Over any run reservations are covered throughout exactly when every move takes only what is available |
| Inventory.RunKeepsReservations | core/StockQuant.cpp:242-267 | Reservations are never negative, over any run |
| CsvCodec.ParseCsv | core/infrastructure/CsvParser.hpp:28-95 | The state machine: quotes, doubled quotes, CR LF, LF and bare CR, and a last record without line end |
| CsvLines.PlainTextIsRead | core/infrastructure/CsvParser.hpp:69-93 | Text without quotes is read as its lines and the fields between their commas, with LF, CR LF and bare CR as line ends |
| CsvCodec.BuildCsv | core/infrastructure/CsvParser.hpp:109-135 | Fields joined by commas, quoted when they need it, each record ended by CR LF |
| CsvLines.PlainTableIsPrinted | core/infrastructure/CsvParser.hpp:117-134 | A table whose fields need no quotes is printed as they are, with commas and CR LF |
| CsvCodec.ParsePrinted | core/infrastructure/CsvParser.hpp:28-135 | Every table reads back with CR LF in fields folded to LF and empty records as one empty field (section 2 of RFC 4180) |
| CsvCodec.RoundTrip | core/infrastructure/CsvParser.hpp:28-135 | A table reads back unchanged exactly when no record is empty and no field holds CR LF |
| CsvCodec.Reparse | core/infrastructure/CsvParser.hpp:46-63 | What was parsed from any text prints and parses to itself, exactly when the text has no CR CR LF inside quotes |
| CsvCodec.TrailingLineEnd | core/infrastructure/CsvParser.hpp:22 | A line end after the last record is ignored, exactly when the text ends outside quotes and its last record has several fields or one that is not empty, or the line end is the LF of a CR LF begun |
| CsvCodec.WithoutLastLineEnd | core/infrastructure/CsvParser.hpp:87-93 | A printed table reads the same without its last CR LF, exactly when its last record is neither empty nor one empty field |
| CsvCodec.LastEmptyFieldIsLost | core/infrastructure/CsvParser.hpp:87-93 | A quoted empty field alone parses to no record, and to one with a line end after it |
| CsvCodec.CrCrLfInQuotes | core/infrastructure/CsvParser.hpp:54-58 | Such a text: its field comes out holding CR LF, which the next parse folds |
| ResetClosure.Close | core/infrastructure/JsonRpcDispatcher.hpp:1059-1075 | Terminates with the least closed superset of the wanted tables, that is everything that references one directly or through others; refuses exactly when a protected table that was not wanted is among them; what was pulled is listed once, each after what pulled it |
| ResetClosure.Pass | core/infrastructure/JsonRpcDispatcher.hpp:1061-1074 | One pass either refuses, or adds referencing tables only, or finds the set closed |
| ResetClosure.OrderDoesNotMatter | core/infrastructure/JsonRpcDispatcher.hpp:1059-1075 | Neither the decision nor the final set depends on the order of the foreign keys |
| DocumentSequence.Sequences.Next | core/IrSequence.cpp:93-151 | Locks the company's row or the shared one, waits if another transaction holds it, computes the next number and writes back only when consuming |
| SequenceTexts.RowThatServes | core/IrSequence.cpp:97-124 | The active row of the company serves a request, or else the one for all companies; without either there is no number |
| SequenceTexts.AnswerIsRecorded | core/IrSequence.cpp:126-150 | The text answered shows the number taken: where the row stands, or 1 in a new year or month; the row then stands one increment further |
| SequenceTexts.FormatReads | core/IrSequence.cpp:81-87 | A text is the prefix, digits of that value, padded to the width and without other leading zeros, and the suffix |
| SequenceTexts.WaitEnds | core/IrSequence.cpp:93-110 | A request that waits is answered once the transaction that holds the row has ended |
| DocumentSequence.Sequences.NextByCode | core/IrSequence.cpp:154-157 | The allocation in the caller's transaction |
| DocumentSequence.Sequences.NextByCodeAlone | core/IrSequence.cpp:159-165 | The allocation in a transaction of its own, which commits at once |
| DocumentSequence.Sequences.Peek | core/IrSequence.cpp:167-177 | A preview changes nothing, locks included |
| DocumentSequence.PeekPredicts | core/IrSequence.cpp:167-177 | It shows what the next allocation gives |
| DocumentSequence.CommittedSeries | core/IrSequence.cpp:93-151 | In any interleaving of allocations, commits and aborts the committed numbers of a row are those it gives one after the other, and the committed row is where they lead |
| DocumentSequence.NextInSeries | core/IrSequence.cpp:134-149 | Each committed number is the one before plus the increment, or 1 when a new period has begun |
| DocumentSequence.GaplessWithinPeriod | core/IrSequence.cpp:93-151 | In any stretch of one period the committed numbers go up by the increment with no gap and no two documents read the same; the first stretch starts where the row stood, every later one of a dated period at 1 |
| SequenceTexts.CommittedTexts | core/IrSequence.cpp:93-151 | The texts that committed transactions were given show the committed series, number by number, in any interleaving |
| SequenceTexts.TextsAreGapless | core/IrSequence.cpp:93-151 | In any stretch of one period the numbers in the texts given go up by the increment, and no two texts are the same |
| SequenceTexts.TextsNeverRepeat | core/IrSequence.cpp:93-151 | With clocks that never enter a period again no text is given twice in a period |
| DocumentSequence.RepeatsExactly | core/IrSequence.cpp:134-149 | Over any interleaving and for every row no number is committed twice in a period if no period is left and entered again, and only if, when the row is new in its first period or never starts over |
| SequenceClocks.OrderedClocksNeverRepeat | core/IrSequence.cpp:93-151 | If the periods in which a row is asked for numbers, in the order of the requests, never leave a period and enter it again, no number is committed twice in a period, for every row and any interleaving |
| SequenceClocks.ClocksDecide | core/IrSequence.cpp:159-165 | For calls in transactions of their own, one after the other, and a row new in the first period asked for or never starting over: no number repeats in a period exactly when the periods asked for never leave one and enter it again |
| DocumentSequence.ClockGoingBackRepeats | core/IrSequence.cpp:138-140 | A run of three transactions whose clock goes back a year commits the first number of that year twice |
| DocumentSequence.FormatTellsApart | core/IrSequence.cpp:81-87 | Padded numbers of one row read the same only if they are the same |
| RecordRules.ParseDomain | modules/base/Domain.hpp:288-340 | The stack parser: items from the right, operators on the top terms, leftover terms joined by AND, errors for missing operands and unknown items |
| PrefixNotation.PrefixMeansAll | modules/base/Domain.hpp:288-340 | Expressions of and, or, not and conditions in prefix notation, one after the other, parse and mean that all of them hold |
| PrefixNotation.ParsesIsPrefix | modules/base/Domain.hpp:288-340 | Nothing else parses |
| RecordRules.DomainAnd | core/RuleEngine.cpp:185-192 | Concatenation, an empty side dropped |
| RecordRules.DomainOr | core/RuleEngine.cpp:206-222 | An or-operator and both sides, each preceded by one and-operator less than it has items; an empty side dropped |
| RecordRules.SubstituteVars | core/RuleEngine.cpp:155-168 | Replaces the three user variables in the value position and nothing else |
| RecordRules.BuildRuleDomain | core/RuleEngine.cpp:39-87 | Selects active rules of the operation, global ones and those of the user's groups, and folds the combinators; nothing for an administrator |
| RecordRules.AndMeansBoth | core/RuleEngine.cpp:185-192 | The conjunction of filters that parse parses and means both, operators included |
| RecordRules.OrMeansEither | core/RuleEngine.cpp:206-222 | The disjunction of two filters made of conditions parses and means either |
| RecordRules.OrNeedsLeaves | core/RuleEngine.cpp:211-220 | With an operator on either side the disjunction does not parse, because it counts items and not terms |
| RecordRules.RuleMeaning | core/RuleEngine.cpp:58-86 | For any rules that parse by themselves: the combined filter parses exactly when at most one matching group filter is non-empty, or two are and hold conditions only; it then passes a record exactly when all global rules do and, if there is such a group rule, one of them does |
| RecordRules.DocumentedExactly | core/RuleEngine.hpp:9-12 | The combined filter does what is documented, exactly except where an unconditional matching group rule is overridden by the others |
| DocumentedRules.DocumentedByRules | core/RuleEngine.hpp:9-12 | Over the rules themselves, with their flags, groups and the values of the user: the filter does what is documented, exactly on the records on which no unconditional group rule is overridden |
| DocumentedRules.SubstitutedMeans | core/RuleEngine.cpp:155-168 | A filter with its user variables replaced means the filter read with the values of the user |
| RuleExamples.ThreeGroupRules | core/RuleEngine.cpp:206-222 | Three matching group rules of one condition each give a filter that does not parse |
| RuleExamples.UnconditionalRuleIsLost | core/RuleEngine.cpp:206-222 | With a matching group rule without conditions and one with a condition, a record failing the condition is forbidden, though documented to pass |
| RecordRules.SubstitutionKeepsShape | core/RuleEngine.cpp:155-168 | Substitution changes nothing about parsing |
| RecordRules.DocumentedForUniformGroups | core/RuleEngine.hpp:9-12 | Code and documentation agree on every record when the matching group rules are all unconditional or none is |
| RuleNarrowing.MergeRuleDomain | modules/base/BaseModel.hpp:905-915 | The items of the rules after those of the request, or the request alone when there are no rules |
| RuleNarrowing.RequestIsNarrowed | modules/base/BaseModel.hpp:905-915 | For every request: the whole parses only if the rules do; a request that keeps the terms of the rules lets no record through that they forbid; one that parses by itself keeps them, and the whole then means both |
| RuleNarrowing.NarrowingOfShape | modules/base/BaseModel.hpp:905-915 | A request keeps k terms exactly when every request with its operators at the same places is narrowed by all rules of k terms on all records |
| RuleNarrowing.NarrowingOfDifferent | modules/base/BaseModel.hpp:905-915 | When no condition occurs twice, a request is narrowed by the rules on all records exactly when it keeps their terms |
| RuleNarrowing.ConjunctionKeeps | modules/base/BaseModel.hpp:905-915 | A request of conditions and and-operators keeps the terms of the rules, whether it parses by itself or not |
| RuleNarrowing.OrTakesTheRule | modules/base/BaseModel.hpp:905-915 | A request of an or-operator and one condition takes the only term of the rules as its other operand, and a record that the rules forbid passes |

## Left out

- The penalty score of a QR symbol: an unknown function of the grid with values between 0 and 2568888, as asserted.
- Kanji and ECI segments, explicit segment lists of mixed modes beyond what `EncodeSegments` takes, and the meaning of
  bytes as UTF-8: texts are strings of characters 1 to 255.
- Overflow of the `int` character counters in `makeNumeric` and `makeAlphanumeric` for texts longer than INT_MAX.
- The largest sizes that memory allows: sequences, maps and texts are unbounded.
- Valuation.ConsumeLayers: the quantities and values of the inventory are unbounded integers, because `mulMicros`,
  `divMicros` and the column updates narrow and add without a check; the results hold for runs whose amounts fit 64 bits.
- Inventory.StockQuant.ApplyMove: company columns, write dates, descriptions and layer links are not modelled, and a
  product's layers are a sequence in id order instead of rows of one table.
- FifoCosting.FifoRun: the cost method of a product is fixed during a run; changing it by hand in between is not modelled.
- AverageCosting.ValueCoversPrice: nor is changing `standard_price` by hand during a run, for any cost method.
- General ledger posting of valuation layers: each entry has one line on either side with the same amount.
- PaymentAllocation.Ledger.Allocate: dates are numbers, company and currency columns are not modelled, and an exception
  rolls the tables back, which the caller's transaction does.
- `Money::fromJson`, `toJson`, `fromDb`, `prorate`, `mulInt` and rounding to a currency's own step.
- DocumentSequence.Sequences.Next: date placeholders in prefix and suffix stay as they are, numbers are unbounded, and
  nobody edits a sequence row while transactions run.
- DocumentSequence.Sequences.Peek: waiting for a lock is an answer of its own; which of several waiting transactions
  goes first is left open.
- `IrSequence::has`, which does not take the lock.
- ResetClosure.Close: which tables exist, the catalogue query and the truncation itself; the wanted and the protected
  tables are parameters.
- RecordRules.RuleMeaning: rules whose own filter does not parse; JSON that is not an array, which the combinators treat
  as empty; conditions are either true or false of a record, while SQL also has unknown.
- RecordRules.ParseDomain: the compilation of the parsed filter to SQL and its list of allowed columns.
- Sessions, connection pools, web sockets, caches, cron, login limits, migrations, views, modules, the REST interface.
