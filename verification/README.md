# Proofs about the boot loader's arithmetic, decoders, sort, hash and item store

These Dafny files model six pieces of C from the repository and prove what they are for. Code that updates state in C
updates state here: digit arrays, the window, the probability array, the hash context and the item buffer are arrays
and fields that methods change in place, and every method is proved against a specification function whose own
properties are lemmas. `dafny verify dfyconfig.toml` checks everything.

The six parts, each with its main results:

* **Multi-precision arithmetic** (`apiRSA.c`; modules Digits, SinglePrecision, MultiPrecision, Division, Square,
  ModExp). Numbers are arrays of 32-bit digits, and `Val` is the number that digits stand for. Division is the
  in-place Algorithm D of Knuth, section 4.3.1, with the top digit of the dividend kept outside the array; squaring
  carries one bit outside the array. Main results: `MpDivide`, `MpSquare`, `MpMultiply` and `MpModExp` compute
  quotient and remainder, square, product and power. `SpDivide` is exact, its add-back branches are unreachable, and
  the carry that `_spMultSub` may lose never matters.
* **Building Huffman tables** (`zlib.c`; modules BitStrings, HuffmanCode to HuffmanPlacing, HuftCounts, HuftTables,
  HuftBuild, HuftCalls, InflateTrees). Codes are intervals of 15-bit strings; the invariant says that all strings
  before the current one are looked up correctly. Main results: the verdict of `huft_build` is a condition on the
  Kraft sum, and its tables decode exactly the canonical codes.
* **Inflate** (`zlib.c`; modules Adler32, Window, BitBuffer, InflateSpec, InflateModes, InflateCopy, InflateFast,
  InflateCodes, DeflateLengths, InflateTokens, InflateExample). The reference is a run of tokens over the bits of the input. Main results: both
  loops follow it, suspended anywhere; the window delivers it in order with its Adler-32; and blocks that are
  spelled as RFC 1951 says, with canonical codes and extra bits, decode to what their lengths and distances mean.
* **LZMA** (`lzmadec.c`; modules Lz77 and LzmaCoder to LzmaTables). A symbol is read by a machine of phases, one bit
  each; the reference run is a sequence of symbols. Apart from the machine, the bits that spell a symbol are defined
  from the symbol alone. Main results: the bits that are read are that spelling; a stream that spells a list of symbols
  decodes to their LZ77 expansion, and every list that makes sense has such a stream (`StreamIsComplete`,
  `RoundTrip`); a symbol takes at most 20 bytes; the dry run predicts the decoder; and decoding in pieces gives what
  decoding at once gives, error or not.
* **qsort** (`qsort.c`; module QuickSort). Main result: sorted, a permutation, and it ends, for every comparison that
  is a total preorder.
* **SHA-2** (`apiSHA.c`; modules Pieces, ShaStream, ShaRounds, Sha256,
  ShaStandard) and the **item store**
  (`cmd_idme_v2_0.c`; modules IdmeFormat, IdmeTable, IdmeUpdate). Main results: any split of a message has the digest
  of the whole, and the compression function and its constants are those of FIPS 180-2; the update of a table keeps what survives and has nothing to do the second time.

## What the proofs found

Some things that the code or its comments suggest hold only under a condition.

* `mpModExp` returns x itself for the exponent 1, so it computes x^e mod m if and only if x < m or e is not 1
  (`ResultIsModularPower`). For the exponent 0 it reads below the array, so the model requires e >= 1.
* `huft_build` leaves slots unwritten when a code skips a whole table level, because the first of
  the two tables it then makes is sized by all the bits that the code has left. Its tables have no holes if and only if
  no code skips a level (`HuftBuild`), and a complete set is decoded as it should be under just that condition
  (`CompleteDecodes`). `SkippingTables` gives lengths for which it is not. No call that inflate makes can skip a level
  (`InflateNeverSkips`).
* The length symbols 286 and 287 become entries with no extra bits, because 192 wraps in a byte (`ExopOfExtra`).
* `inflate_codes` returns Z_STREAM_END with output still pending in the window if and only if the fast loop has found
  the end of the block in this call and the block's output is longer than the caller has room for (`Codes`).
  `EndsWithOutputPending` is such a call. When the end is found the slow way, Z_STREAM_END means that everything has
  been delivered.
* In LZMA the code word does not always stay below the range: a direct bit can make them equal, exactly when the code
  was the last one below an odd range (`DirectKeepsCodeBelow`). That a stream leads there is not claimed; the proofs
  do not need the code to stay below, and so the first code word may be anything.
* A symbol may read 23 bits with a probability (`TwentyThreeBits`), one more than the count of 22 behind
  LZMA_REQUIRED_INPUT_MAX, but then it has so few direct bits that 20 bytes are enough all the same (`AfterCosts`,
  `TwentyBytes`).
* The length that `sha256_final` appends has only 32 bits: what is appended is the padding of the standard if and only
  if the message is below 2^29 bytes (`AppendedIsPadding`).

## Model

| member | source | states |
|---|---|---|
| Digits.ValInjective | uboot-mstar/t22/sboot/src/apiRSA.c:312-321 | a number has one representation in a given number of digits, so statements about values fix the digits |
| SinglePrecision.SpMultiply | uboot-mstar/t22/sboot/src/apiRSA.c:76-140 | the two result digits are exactly x times y; no carry between the four half-digit products is lost |
| SinglePrecision.SpMultSub | uboot-mstar/t22/sboot/src/apiRSA.c:142-160 | the result modulo two digits, and exactly when the addition inside wraps and loses a carry |
| SinglePrecision.ExactSubtraction | uboot-mstar/t22/sboot/src/apiRSA.c:142-160 | when the true difference fits one digit the lost carry is harmless: the low digit is right and the high half that the callers test stays clear |
| SinglePrecision.EstimateRange | uboot-mstar/t22/sboot/src/apiRSA.c:244-255 | dividing by the upper half of v overestimates a half-digit of the quotient by at most two |
| SinglePrecision.CorrectedEstimate | uboot-mstar/t22/sboot/src/apiRSA.c:244-255 | after the two corrections the estimate is the exact half-digit quotient, so the add-back branches cannot be reached |
| SinglePrecision.DivideRound | uboot-mstar/t22/sboot/src/apiRSA.c:239-302 | one half-digit round: quotient and remainder of one and a half digits by v, without add-back |
| SinglePrecision.SpDivide | uboot-mstar/t22/sboot/src/apiRSA.c:162-310 | for v with its top bit set: exact quotient, with its overflow digit, and remainder below v; otherwise the error values |
| MultiPrecision.MpSizeof | uboot-mstar/t22/sboot/src/apiRSA.c:312-321 | the number of digits up to the highest nonzero one, which alone make up the value |
| MultiPrecision.MpSetEqual | uboot-mstar/t22/sboot/src/apiRSA.c:323-332 | copies digits, and touches nothing above them |
| MultiPrecision.MpSetZero | uboot-mstar/t22/sboot/src/apiRSA.c:334-346 | clears digits, and touches nothing above them |
| MultiPrecision.MpSetDigit | uboot-mstar/t22/sboot/src/apiRSA.c:348-358 | a number of one digit, with zeros above it |
| MultiPrecision.MpCompare | uboot-mstar/t22/sboot/src/apiRSA.c:549-566 | the sign of the difference of the two numbers |
| MultiPrecision.MpShiftLeft | uboot-mstar/t22/sboot/src/apiRSA.c:360-404 | a with the carry above it is b times 2^shift, also in place |
| MultiPrecision.MpShiftRight | uboot-mstar/t22/sboot/src/apiRSA.c:406-451 | a is b divided by 2^shift, and the carry holds exactly the remainder, also in place |
| MultiPrecision.Normalisation | uboot-mstar/t22/sboot/src/apiRSA.c:503-509 | the shift that brings the top bit of a nonzero digit to the top |
| MultiPrecision.MpShortDiv | uboot-mstar/t22/sboot/src/apiRSA.c:477-530 | u = q * v + r with r < v for any nonzero digit v; nothing changes when there is nothing to do |
| MultiPrecision.DivideDigits | uboot-mstar/t22/sboot/src/apiRSA.c:515-524 | the loop of short division, on a normalised divisor and with a digit above the dividend |
| MultiPrecision.MpAdd | uboot-mstar/t22/sboot/src/apiRSA.c:568-603 | w plus the carry is u + v, also when w and u are the same place |
| MultiPrecision.MultiplyAddDigit | uboot-mstar/t22/sboot/src/apiRSA.c:638-646 | u * v + w + k is exactly the two digits that are left |
| MultiPrecision.MultiplyRow | uboot-mstar/t22/sboot/src/apiRSA.c:636-650 | one row of Algorithm M: w grows by u times a digit, and the carry always fits a digit |
| MultiPrecision.MpMultiply | uboot-mstar/t22/sboot/src/apiRSA.c:605-657 | the value of w is the product of the values of u and v |
| Division.MpMultSub | uboot-mstar/t22/sboot/src/apiRSA.c:659-690 | w minus q times v with the borrow taken from the digit that is not stored |
| Division.QhatTooBig | uboot-mstar/t22/sboot/src/apiRSA.c:692-708 | compares qhat * v(n-2) with b * rhat + u(j+n-2) exactly |
| Division.EstimateDigit | uboot-mstar/t22/sboot/src/apiRSA.c:807-836 | the corrected estimate is the largest digit whose product with the top two digits of v does not exceed the top three of u |
| Division.QhatWithinOne | uboot-mstar/t22/sboot/src/apiRSA.c:807-836 | Theorem B of Knuth, section 4.3.1: the corrected estimate is the true quotient digit or one more |
| Division.BorrowDecides | uboot-mstar/t22/sboot/src/apiRSA.c:839-849 | the digit returned by the subtraction is zero exactly when the product could be subtracted |
| Division.SubtractWindow | uboot-mstar/t22/sboot/src/apiRSA.c:839-849 | whatever the estimate, the window is q_j * v + remainder afterwards, with remainder < v |
| Division.DivideRound | uboot-mstar/t22/sboot/src/apiRSA.c:805-853 | one round: the quotient digit is stored and the top digit of the remainder handed to the next round |
| Division.ShiftBack | uboot-mstar/t22/sboot/src/apiRSA.c:855-862 | remainder and divisor are divided by the power of two that normalised them |
| Division.DivideStep | uboot-mstar/t22/sboot/src/apiRSA.c:805-851 | one quotient digit with multiply, subtract and add back: window = q_j * v + remainder, remainder < v |
| Division.DivideLoop | uboot-mstar/t22/sboot/src/apiRSA.c:804-853 | all quotient digits: the normalised dividend with its extra top digit is q * v + r, r < v |
| Division.MpDivide | uboot-mstar/t22/sboot/src/apiRSA.c:710-865 | u = q * v + r and r < v for all digit lengths; v is back as it was; -1 exactly for v = 0, with q and r cleared |
| Square.CrossStep | uboot-mstar/t22/sboot/src/apiRSA.c:922-963 | one inner step of squaring on three digits: nothing is lost |
| Square.SquareRow | uboot-mstar/t22/sboot/src/apiRSA.c:889-970 | one outer round; the carry above the array is at most 1 and is absorbed a digit later |
| Square.NoFinalCarry | uboot-mstar/t22/sboot/src/apiRSA.c:965-976 | the carry is 0 after the last round |
| Square.MpSquare | uboot-mstar/t22/sboot/src/apiRSA.c:867-977 | the value of w is the square of the value of x, hence what mpMultiply(x, x) gives |
| ModExp.ModuloTemp | uboot-mstar/t22/sboot/src/apiRSA.c:984-1002 | r = u mod v, and v is unchanged |
| ModExp.Exponentiator.ModSquareTemp | uboot-mstar/t22/sboot/src/apiRSA.c:1019-1032 | y becomes y * y mod m, m unchanged |
| ModExp.Exponentiator.ModMultTemp | uboot-mstar/t22/sboot/src/apiRSA.c:1004-1017 | y becomes y * x mod m, m unchanged |
| ModExp.Exponentiator.NextBitMask | uboot-mstar/t22/sboot/src/apiRSA.c:73-73 | the mask goes from bit to bit and from the lowest bit to the top bit of the next lower digit |
| ModExp.NextBit | uboot-mstar/t22/sboot/src/apiRSA.c:1076-1088 | every step of the mask appends exactly one bit to the part of the exponent that has been seen |
| ModExp.TopBit | uboot-mstar/t22/sboot/src/apiRSA.c:1062-1068 | the mask of the highest bit of a nonzero digit |
| ModExp.RoundResult | uboot-mstar/t22/sboot/src/apiRSA.c:1078-1084 | squaring and multiplying take the result for exponent p to those for 2p and 2p + 1 |
| ModExp.Exponentiator.Round | uboot-mstar/t22/sboot/src/apiRSA.c:1078-1084 | one turn of the loop does that on the digit arrays |
| ModExp.Exponentiator.MpModExp | uboot-mstar/t22/sboot/src/apiRSA.c:1034-1094 | for every x, nonzero e and m the result is the function Result of them, and the loop ends |
| ModExp.ResultIsModularPower | uboot-mstar/t22/sboot/src/apiRSA.c:1040-1094 | that is x^e mod m if and only if x < m or e is not 1 |
| HuffmanCode.FirstCodeStarts | uboot-mstar/t22/sboot/src/zlib.c:1791-1792 | the first canonical code of each length starts where the intervals of the shorter codes end |
| HuffmanCode.TakenIsKraft | uboot-mstar/t22/sboot/src/zlib.c:1766-1772 | counting codes by length or by symbol gives the same Kraft sum |
| HuftCounts.CountLengths | uboot-mstar/t22/sboot/src/zlib.c:1731-1740 | the counts of all lengths |
| HuftCounts.Extremes | uboot-mstar/t22/sboot/src/zlib.c:1749-1763 | the shortest and the longest length in use |
| HuftCounts.FillOut | uboot-mstar/t22/sboot/src/zlib.c:1766-1772 | fails exactly when the Kraft sum exceeds 1, and otherwise fills the set out to exactly 1 |
| HuftCounts.Offsets | uboot-mstar/t22/sboot/src/zlib.c:1775-1780 | for each length the number of shorter codes |
| HuftCounts.SortValues | uboot-mstar/t22/sboot/src/zlib.c:1783-1788 | every used symbol stands at its place by length and then by number |
| HuftTables.BackwardsIncrement | uboot-mstar/t22/sboot/src/zlib.c:1880-1883 | on the bit-reversed code: the next code in order, or all zeros after the last |
| HuftTables.ChooseBits | uboot-mstar/t22/sboot/src/zlib.c:1813-1827 | the size of a new table covers all codes of its subtree, unless it is the full size |
| HuftTables.MakeRoot | uboot-mstar/t22/sboot/src/zlib.c:1808-1855 | the first table is the root of the tree, and the invariant holds before any code |
| HuftTables.MakeTable | uboot-mstar/t22/sboot/src/zlib.c:1808-1855 | a new table is linked at the prefix of the code and the invariant of the table stack is kept |
| HuftTables.MakeTablesFor | uboot-mstar/t22/sboot/src/zlib.c:1806-1855 | afterwards the innermost table is one that the code fits in; a skipped level has been noticed |
| HuftTables.FillSlots | uboot-mstar/t22/sboot/src/zlib.c:1875-1878 | exactly the slots whose low bits are the code get the entry |
| HuftTables.PlaceCode | uboot-mstar/t22/sboot/src/zlib.c:1857-1878 | entering a code keeps the invariant and settles exactly its interval of bit strings |
| HuftTables.CloseTables | uboot-mstar/t22/sboot/src/zlib.c:1885-1892 | only tables that are complete are left |
| HuftTables.EnterCode | uboot-mstar/t22/sboot/src/zlib.c:1804-1893 | one code and the step to the next |
| HuftTables.MakeTables | uboot-mstar/t22/sboot/src/zlib.c:1791-1894 | after all codes the invariant covers all 15-bit strings |
| HuffmanInvariant.OpenKeeps | uboot-mstar/t22/sboot/src/zlib.c:1808-1855 | opening a table keeps every lookup, and notices a code that skips that level |
| HuffmanPlacing.PlaceKeeps | uboot-mstar/t22/sboot/src/zlib.c:1857-1878 | the strings of a code lead to its entry, and no earlier lookup changes |
| HuffmanPlacing.CloseKeeps | uboot-mstar/t22/sboot/src/zlib.c:1885-1892 | a table whose prefix the next code does not have is full |
| HuffmanPlacing.SkipLeavesHole | uboot-mstar/t22/sboot/src/zlib.c:1808-1855 | after a skipped level there is a bit string whose lookup reads a slot that was never written |
| HuffmanPlacing.NoUnsetSlot | uboot-mstar/t22/sboot/src/zlib.c:1875-1878 | otherwise every slot of every table has been written |
| HuftBuild.HuftBuild | uboot-mstar/t22/sboot/src/zlib.c:1693-1899 | Z_DATA_ERROR if and only if the Kraft sum exceeds 1; Z_BUF_ERROR if and only if it is below 1 and the longest code has more than one bit; every string that starts with a code leads to its symbol and uses its length; no holes if and only if no code skips a level |
| HuftBuild.FilledCodes | uboot-mstar/t22/sboot/src/zlib.c:1770-1772 | filling out an incomplete set gives every symbol the code of section 3.2.2 of RFC 1951 all the same |
| HuftBuild.SymbolDecoded | uboot-mstar/t22/sboot/src/zlib.c:1791-1894 | from intervals of strings to symbols: the r-th code of a length is the r-th symbol of that length |
| HuftBuild.StringHasSymbol | uboot-mstar/t22/sboot/src/zlib.c:1791-1894 | in a complete set every string of 15 bits begins with the code of a symbol |
| HuftBuild.CompleteDecodes | uboot-mstar/t22/sboot/src/zlib.c:1808-1855 | a complete set is decoded as RFC 1951 says if and only if no code skips a level |
| HuftCalls.SkipTakesManyCodes | uboot-mstar/t22/sboot/src/zlib.c:1808-1855 | skipping a level takes at least 2^(l+1) codes |
| HuftCalls.InflateNeverSkips | uboot-mstar/t22/sboot/src/zlib.c:1935-1951 | none of the calls that inflate makes can skip a level when the set is complete |
| HuftCalls.SkippingExample | uboot-mstar/t22/sboot/src/zlib.c:1808-1855 | lengths 1, 3, 3, 3, 3 with one bit per table skip a level |
| HuftCalls.SkippingTables | uboot-mstar/t22/sboot/src/zlib.c:1693-1899 | huft_build on those lengths reports success with tables that do not decode the codes |
| InflateTrees.Dynamic | uboot-mstar/t22/sboot/src/zlib.c:1923-1970 | success exactly for sets that are complete, unused or of too few one-bit codes; then the tables decode the canonical codes of the lengths, with the bases and extra bits of TablesAreStandard, and lookups never fail |
| InflateTrees.Fixed | uboot-mstar/t22/sboot/src/zlib.c:2006-2054 | the same for the fixed codes, whose distance set is incomplete |
| InflateTrees.FixedKraft | uboot-mstar/t22/sboot/src/zlib.c:2027-2043 | the fixed literal codes are complete, the fixed distance codes are not |
| InflateTrees.LengthTableFits | uboot-mstar/t22/sboot/src/zlib.c:1631-1640 | no length entry has more than 5 extra bits or gives more than 258, even with the invalid symbols |
| InflateTrees.TablesAreStandard | uboot-mstar/t22/sboot/src/zlib.c:1632-1650 | the tables of lengths, distances and extra bits hold the values of section 3.2.5 of RFC 1951, given by formula |
| DeflateLengths.LengthsAdjoin | uboot-mstar/t22/sboot/src/zlib.c:1632-1640 | lengths begin at 3 and each symbol begins where the one before ends |
| DeflateLengths.DistancesAdjoin | uboot-mstar/t22/sboot/src/zlib.c:1641-1650 | distances begin at 1 and each symbol begins where the one before ends |
| DeflateLengths.DistanceSpelledOnce | uboot-mstar/t22/sboot/src/zlib.c:1641-1650 | every distance from 1 to 32768 is spelled by exactly one symbol and extra value |
| DeflateLengths.LengthSpelledOnce | uboot-mstar/t22/sboot/src/zlib.c:1632-1640 | every length from 3 to 258 is spelled by exactly one of the symbols 257 to 284 and extra value; symbol 285 is 258 again |
| InflateTrees.FixedCodesAre | uboot-mstar/t22/sboot/src/zlib.c:2027-2043 | the fixed codes, symbol by symbol, are those of section 3.2.6 of RFC 1951 |
| Adler32.AddChunk | uboot-mstar/t22/sboot/src/zlib.c:2768-2776 | the sums of at most 5552 bytes without reduction: the first grows by the sum of the bytes, the second by n times the first and by each byte as often as there are bytes from it on |
| Adler32.NoWrap | uboot-mstar/t22/sboot/src/zlib.c:2749-2750 | NMAX is small enough: neither sum reaches 2^32 |
| Adler32.ReduceLate | uboot-mstar/t22/sboot/src/zlib.c:2777-2778 | reducing late gives the sums that are reduced at every byte |
| Adler32.Adler32 | uboot-mstar/t22/sboot/src/zlib.c:2759-2781 | the checksum of section 8.2 of RFC 1950, from any start and for any length, in closed form: both halves modulo 65521 |
| Adler32.ChecksumConcat | uboot-mstar/t22/sboot/src/zlib.c:2759-2781 | checksumming x and then y is checksumming their concatenation |
| Adler32.ClosedForm | uboot-mstar/t22/sboot/src/zlib.c:2752-2752 | updating byte by byte with reductions comes to the closed form, in which neither the update nor the reduction occurs |
| Window.RingWindow.Deliver | uboot-mstar/t22/sboot/src/zlib.c:2508-2524 | the first part of a flush: delivered plus pending bytes stay the same, the check follows |
| Window.RingWindow.DeliverFromStart | uboot-mstar/t22/sboot/src/zlib.c:2526-2551 | the second part, after the pointers wrap |
| Window.RingWindow.Flush | uboot-mstar/t22/sboot/src/zlib.c:2499-2559 | delivers as many pending bytes as there is room for, in order, with their Adler-32; history is kept; Z_BUF_ERROR turns to Z_OK if anything was delivered |
| Window.RingWindow.CheckIs | uboot-mstar/t22/sboot/src/zlib.c:2517-2519 | the check of a window is the closed form over all that has been delivered |
| Window.RingWindow.Wrap | uboot-mstar/t22/sboot/src/zlib.c:828-828 | wrapping changes neither what is pending nor what lies any distance back |
| Window.RingWindow.NeedOut | uboot-mstar/t22/sboot/src/zlib.c:830-830 | room for a byte, or leaving because there is no output space |
| Window.RingWindow.OutByte | uboot-mstar/t22/sboot/src/zlib.c:831-831 | one byte is produced, and still the byte at any distance back is the one produced that long ago |
| BitBuffer.GrabHolds | uboot-mstar/t22/sboot/src/zlib.c:2575-2575 | a byte can be read into the 32-bit buffer when 24 bits or fewer are there, even over stale bits |
| BitBuffer.ReturnHolds | uboot-mstar/t22/sboot/src/zlib.c:2576-2576 | returning bytes leaves bits in the buffer that equal the input that is read again |
| BitBuffer.ShiftHolds | uboot-mstar/t22/sboot/src/zlib.c:824-824 | dropping bits moves on in the input, also for the stale bits above |
| BitBuffer.BitReader.TakeByte | uboot-mstar/t22/sboot/src/zlib.c:822-823 | a byte more in the buffer; the bit position does not move |
| BitBuffer.BitReader.NeedBits | uboot-mstar/t22/sboot/src/zlib.c:823-823 | enough bits, or all input taken; the bit position does not move |
| BitBuffer.BitReader.GrabBits | uboot-mstar/t22/sboot/src/zlib.c:2575-2575 | enough bits from at most three bytes, without overflow; the bit position does not move |
| BitBuffer.BitReader.DumpBits | uboot-mstar/t22/sboot/src/zlib.c:824-824 | the bit position moves on by as many bits |
| BitBuffer.BitReader.LowIsInput | uboot-mstar/t22/sboot/src/zlib.c:2364-2365 | the masked low bits are the next bits of the input |
| BitBuffer.BitReader.Ungrab | uboot-mstar/t22/sboot/src/zlib.c:2576-2576 | the bit position 8 * p - k does not move, and fewer than 8 bits stay |
| InflateCopy.CopyRun | uboot-mstar/t22/sboot/src/zlib.c:2657-2667 | one stretch of a copy |
| InflateCopy.FastCopy | uboot-mstar/t22/sboot/src/zlib.c:2644-2667 | appends the bytes found that distance back, overlapping or across the end of the window |
| Lz77.CopiedByte | uboot-mstar/t22/sboot/src/zlib.c:2657-2667 | every byte of a copy is the one its distance before, where the copy has come to by then |
| InflateFast.FastFind | uboot-mstar/t22/sboot/src/zlib.c:2609-2623 | following links comes to the entry that the walk over the whole input finds |
| InflateFast.FastDistance | uboot-mstar/t22/sboot/src/zlib.c:2630-2679 | a distance with its extra bits and the copy, from at most three more bytes |
| InflateFast.FastToken | uboot-mstar/t22/sboot/src/zlib.c:2608-2709 | one turn emits exactly the token at the bit position, with 20 bits buffered, 7 bytes and 258 places guaranteed |
| InflateFast.InflateFast | uboot-mstar/t22/sboot/src/zlib.c:2583-2716 | same bytes, bit position and verdict as that many tokens of the reference run; only the guaranteed input is read; it stops early only with less than 258 places or 14 bytes left |
| InflateModes.LenTurn | uboot-mstar/t22/sboot/src/zlib.c:2362-2399 | where a lookup of a literal or length code may go, by the entry found |
| InflateModes.DistTurn | uboot-mstar/t22/sboot/src/zlib.c:2409-2431 | where a lookup of a distance code may go |
| InflateModes.CopyByteTurn | uboot-mstar/t22/sboot/src/zlib.c:2449-2456 | each byte of a copy keeps the relation between a partial copy and the token |
| InflateModes.EndsOnce | uboot-mstar/t22/sboot/src/zlib.c:2464-2474 | a run of tokens ends in one way only |
| InflateModes.WrittenSoFar | uboot-mstar/t22/sboot/src/zlib.c:2439-2463 | what has been written in the middle of a token is the beginning of what the run ends with |
| InflateCodes.Inflater.NextSlot | uboot-mstar/t22/sboot/src/zlib.c:2363-2366 | NEEDBITS and one lookup: the slot on the way of the walk over the input, never one that was not written |
| InflateCodes.Inflater.LenStep | uboot-mstar/t22/sboot/src/zlib.c:2362-2399 | one lookup, suspended without loss when input is short |
| InflateCodes.Inflater.LenExtStep | uboot-mstar/t22/sboot/src/zlib.c:2400-2408 | the extra bits of a length |
| InflateCodes.Inflater.DistStep | uboot-mstar/t22/sboot/src/zlib.c:2409-2431 | one lookup of a distance code |
| InflateCodes.Inflater.DistExtStep | uboot-mstar/t22/sboot/src/zlib.c:2432-2438 | the extra bits of a distance |
| InflateCodes.Inflater.CopyStep | uboot-mstar/t22/sboot/src/zlib.c:2439-2458 | the copy through the ring, suspended for output space at any byte |
| InflateCodes.Inflater.LitStep | uboot-mstar/t22/sboot/src/zlib.c:2459-2463 | a literal, suspended for output space |
| InflateCodes.Inflater.StartStep | uboot-mstar/t22/sboot/src/zlib.c:2345-2361 | the fast loop when there is plenty of both, and the start of a token; the fast loop finds the end of a block that ends with 14 bytes and 258 places to spare |
| InflateCodes.Inflater.WashStep | uboot-mstar/t22/sboot/src/zlib.c:2464-2468 | the rest is delivered before the block counts as ended; leaves if and only if there is no room for all of it |
| InflateCodes.Inflater.Leave | uboot-mstar/t22/sboot/src/zlib.c:818-818 | delivers what there is room for |
| InflateCodes.Inflater.Turn | uboot-mstar/t22/sboot/src/zlib.c:2343-2478 | one turn of the loop, by mode; it makes progress or leaves with a reason; Z_STREAM_END before delivery comes from the fast loop alone |
| InflateCodes.Inflater.Codes | uboot-mstar/t22/sboot/src/zlib.c:2147-2483 | a call, from any suspended state: delivered and pending bytes are those of the reference run; the return code says why it came back; Z_STREAM_END comes with output pending if and only if the fast loop found the end in this call and the block is longer than the room |
| InflateExample.EndsWithOutputPending | uboot-mstar/t22/sboot/src/zlib.c:2348-2357 | a block of one byte, with no room for it, for which the call returns Z_STREAM_END with the byte pending |
| InflateCodes.Inflater.Supply | uboot-mstar/t22/sboot/src/zlib.c:813-820 | between calls the caller adds input and output space |
| InflateCodes.CutsDoNotMatter | uboot-mstar/t22/sboot/src/zlib.c:2147-2483 | however input and output space were cut, what is written is a prefix of, and at the end equal to, what any other cutting gives |
| InflateCodes.NotStarving | uboot-mstar/t22/sboot/src/zlib.c:821-823 | once all the input of a block that ends is there, no call comes back for want of input |
| InflateTokens.OpToken | uboot-mstar/t22/sboot/src/zlib.c:2362-2438 | a literal or match spelled with canonical codes and extra bits as in section 3.2.5 of RFC 1951 is read as that |
| InflateTokens.MatchAppends | uboot-mstar/t22/sboot/src/zlib.c:2439-2458 | what a match means, byte by byte: as many bytes as its length, each the one its distance back |
| InflateTokens.BlockDecodes | uboot-mstar/t22/sboot/src/zlib.c:2343-2478 | the reference run over a block spelled like this ends with the output that the block means |
| InflateTokens.BlockInflates | uboot-mstar/t22/sboot/src/zlib.c:2147-2483 | inflate_codes on a block of literals and matches, given by lengths and distances and spelled as in RFC 1951, never reports bad data, never writes anything else, delivers all of it by the end, and with all the input at hand only ever waits for output space |
| LzmaCoder.BoundInRange | uboot-mstar/t22/sboot/src/lzmadec.c:90-92 | for probabilities from 31 to 2017 the bound lies strictly inside the range and leaves at least 2/133 of it on either side |
| LzmaCoder.DecideKeepsCodeBelow | uboot-mstar/t22/sboot/src/lzmadec.c:90-92 | a bit with a probability keeps the code below the range |
| LzmaCoder.DirectKeepsCodeBelow | uboot-mstar/t22/sboot/src/lzmadec.c:396-405 | a direct bit does so if and only if the code was not the last one below an odd range |
| LzmaCoder.DirectBelowExample | uboot-mstar/t22/sboot/src/lzmadec.c:396-405 | a code and range for which it does not |
| LzmaCoder.AllowanceFits | uboot-mstar/t22/sboot/src/lzmadec.h:98-99 | 22 bits with a probability and 26 direct ones take off a normalised range by less than 2^160 |
| LzmaGrammar.AfterOk | uboot-mstar/t22/sboot/src/lzmadec.c:231-447 | every phase of reading a symbol leads to a well-formed phase; a distance fits 32 bits |
| LzmaGrammar.SlotInRange | uboot-mstar/t22/sboot/src/lzmadec.c:131-184 | the probabilities of all phases lie within the array, whatever lc, lp and pb |
| LzmaGrammar.MarkGrows | uboot-mstar/t22/sboot/src/lzmadec.c:231-447 | no probability is read twice within a symbol |
| LzmaGrammar.AfterCosts | uboot-mstar/t22/sboot/src/lzmadec.h:98-99 | every bit is paid for out of the allowance of 22 and 26 |
| LzmaGrammar.TwentyThreeBits | uboot-mstar/t22/sboot/src/lzmadec.h:98-99 | one symbol can take 23 bits with a probability, one more than the count of 22 |
| LzmaSymbol.TwentyBytes | uboot-mstar/t22/sboot/src/lzmadec.h:98-101 | one symbol never takes more than 20 bytes, and 20 bytes are always enough, with or without adaptation |
| LzmaSymbol.DryRunAgrees | uboot-mstar/t22/sboot/src/lzmadec.c:558-746 | a run that does not adapt comes to the same symbol and place, or to the end of the input, as one that does |
| LzmaSymbol.MoreInput | uboot-mstar/t22/sboot/src/lzmadec.c:558-746 | a complete symbol does not depend on what follows it |
| LzmaSymbol.LessInput | uboot-mstar/t22/sboot/src/lzmadec.c:558-746 | nor on input behind its end |
| LzmaSymbol.NormFirst | uboot-mstar/t22/sboot/src/lzmadec.c:483-483 | normalising at the end of a symbol or at the beginning of the next is the same |
| LzmaSymbol.RunKind | uboot-mstar/t22/sboot/src/lzmadec.c:550-556 | literal, match or repeat is decided by the first bits |
| LzmaSpelling.SaidGrows | uboot-mstar/t22/sboot/src/lzmadec.c:231-431 | every bit that is read is the next one of the spelling of the symbol, which is defined from the symbol alone: kind, length by group, distance by slot and low bits |
| LzmaSpelling.DistanceParts | uboot-mstar/t22/sboot/src/lzmadec.c:370-431 | a distance is made of its two highest bits and those that follow |
| LzmaPrefix.PrefixFree | uboot-mstar/t22/sboot/src/lzmadec.c:231-431 | no symbol is spelled by the beginning of the spelling of another |
| LzmaPrefix.SpellingLeads | uboot-mstar/t22/sboot/src/lzmadec.c:231-431 | in every context, following the bits that spell a symbol ends in just that symbol |
| LzmaMeaning.ReadIsSpelled | uboot-mstar/t22/sboot/src/lzmadec.c:231-431 | the bits that are read for a symbol are the spelling of it and of no other |
| LzmaMeaning.ApplyPerforms | uboot-mstar/t22/sboot/src/lzmadec.c:264-480 | a symbol does to output and distances what LZ77 copying and a move-to-front list of four distances say, and is an error exactly when there is nothing to repeat or the distance is too far |
| LzmaMeaning.PerformedBytes | uboot-mstar/t22/sboot/src/lzmadec.c:449-478 | the bytes that a symbol appends: as many as its length, each the one its distance back |
| LzmaMeaning.RunExpands | uboot-mstar/t22/sboot/src/lzmadec.c:224-481 | a stream whose decisions spell a list of symbols that make sense expands to what the list stands for |
| LzmaMeaning.RunIsSpelled | uboot-mstar/t22/sboot/src/lzmadec.c:224-481 | and every run without a fault is spelled by such a list |
| LzmaMeaning.CompleteRests | uboot-mstar/t22/sboot/src/lzmadec.c:968-998 | decoding a stream that is such a list, up to its end mark or until the room is full, does not fail and gives just these bytes |
| LzmaEncode.DecideSplit | uboot-mstar/t22/sboot/src/lzmadec.c:90-92 | a bit is told by the side of the split that the code is on, and the code keeps its distance from the lower end |
| LzmaEncode.DirectSplit | uboot-mstar/t22/sboot/src/lzmadec.c:396-405 | the same for a direct bit |
| LzmaEncode.BitWorks | uboot-mstar/t22/sboot/src/lzmadec.c:88-95 | for any bit and any code below the share of the range that it leaves, there are a code and input before it from which reading gives that bit and comes to that code |
| LzmaEncode.AllWorks | uboot-mstar/t22/sboot/src/lzmadec.c:231-431 | the same for all the bits of a symbol |
| LzmaEncode.StreamIsComplete | uboot-mstar/t22/sboot/src/lzmadec.c:968-998 | every list of symbols that makes sense has a stream that is complete: its decisions spell the list and the code left is 0 |
| LzmaEncode.RoundTrip | uboot-mstar/t22/sboot/src/lzmadec.c:968-998 | LzmaDecode on that stream puts out exactly what the list stands for |
| LzmaTables.StateIsTable | uboot-mstar/t22/sboot/src/lzmadec.c:241-252 | the state after any list of symbols is found in a table by the last symbol that is no literal, what was before it, and how many literals came after it |
| LzmaTables.Moves | uboot-mstar/t22/sboot/src/lzmadec.c:91-92 | a probability moves by 1/32 of its distance from the end, rounded down |
| LzmaTables.Layout | uboot-mstar/t22/sboot/src/lzmadec.c:131-176 | every bit has its probability in the place that the chained constants give it |
| LzmaTables.LayoutSize | uboot-mstar/t22/sboot/src/lzmadec.c:178-181 | the literals come after all other probabilities, and the array ends with the last set of them |
| LzmaTables.LiteralSetParts | uboot-mstar/t22/sboot/src/lzmadec.c:236-239 | the literal set: the low bits of the position above the high bits of the byte before |
| LzmaTables.MatchedSlot | uboot-mstar/t22/sboot/src/lzmadec.c:247-263 | a literal after a match is read in another tree as long as its bits are those of the byte at the last distance, by the next bit of that byte |
| LzmaTables.MatchedOn | uboot-mstar/t22/sboot/src/lzmadec.c:247-263 | and every bit of the literal keeps track of that |
| LzmaTables.MatchedStart | uboot-mstar/t22/sboot/src/lzmadec.c:249-250 | at its start nothing of it differs from that byte |
| LzmaState.ContextIs | uboot-mstar/t22/sboot/src/lzmadec.c:229-258 | the context a symbol is read with: state, position bits, literal set, byte at the last distance |
| LzmaState.RepsOk | uboot-mstar/t22/sboot/src/lzmadec.c:433-443 | all four last distances lead to bytes of the output, within the dictionary size, in every state |
| LzmaReader.RangeDecoder.Normalize | uboot-mstar/t22/sboot/src/lzmadec.c:88-88 | a byte is read when the range has become small |
| LzmaReader.RangeDecoder.GetBit | uboot-mstar/t22/sboot/src/lzmadec.c:90-95 | one bit on the range, code and probability fields |
| LzmaReader.RangeDecoder.GetDirectBit | uboot-mstar/t22/sboot/src/lzmadec.c:396-405 | the sign trick decides and restores the code |
| LzmaReader.RangeDecoder.PlainLiteral | uboot-mstar/t22/sboot/src/lzmadec.c:241-246 | a literal by its tree |
| LzmaReader.RangeDecoder.MatchedLiteral | uboot-mstar/t22/sboot/src/lzmadec.c:247-263 | a literal by the tree that follows the matched byte |
| LzmaReader.RangeDecoder.ReadLength | uboot-mstar/t22/sboot/src/lzmadec.c:332-363 | a length by one of three trees |
| LzmaReader.RangeDecoder.ReadDistance | uboot-mstar/t22/sboot/src/lzmadec.c:365-431 | a distance: slot, then reversed bits, or direct bits and align bits |
| LzmaReader.RangeDecoder.ReadSlot | uboot-mstar/t22/sboot/src/lzmadec.c:368-370 | the distance slot, by one of four trees |
| LzmaReader.RangeDecoder.ReadSpec | uboot-mstar/t22/sboot/src/lzmadec.c:376-390 | the low bits of a short distance, lowest first |
| LzmaReader.RangeDecoder.ReadAlign | uboot-mstar/t22/sboot/src/lzmadec.c:416-425 | the lowest four bits of a long distance |
| LzmaDictionary.Dictionary.ByteBack | uboot-mstar/t22/sboot/src/lzmadec.c:249-249 | finds the byte produced that long ago, around the end of the dictionary |
| LzmaDictionary.Dictionary.Put | uboot-mstar/t22/sboot/src/lzmadec.c:264-264 | one byte is produced, and the history is kept |
| LzmaDictionary.Dictionary.CopyByte | uboot-mstar/t22/sboot/src/lzmadec.c:291-291 | a byte from a distance back in the ring |
| LzmaDictionary.Dictionary.CopyBytes | uboot-mstar/t22/sboot/src/lzmadec.c:516-520 | byte by byte, what the LZ77 copy appends |
| LzmaDictionary.Dictionary.CopyMatch | uboot-mstar/t22/sboot/src/lzmadec.c:449-478 | both copy loops append what the LZ77 copy appends, overlapping or wrapped |
| LzmaDecoder.LzmaDec.LiteralBase | uboot-mstar/t22/sboot/src/lzmadec.c:236-239 | the probabilities for a literal are those of the context, although the position counter wraps |
| LzmaDecoder.LzmaDec.ReadLiteral | uboot-mstar/t22/sboot/src/lzmadec.c:241-263 | the literal of the reference run |
| LzmaDecoder.LzmaDec.LiteralTurn | uboot-mstar/t22/sboot/src/lzmadec.c:233-267 | a literal: output, state and counters |
| LzmaDecoder.LzmaDec.RepeatTurn | uboot-mstar/t22/sboot/src/lzmadec.c:278-331 | a repeat: rotated distances, the short form, or an error before any output |
| LzmaDecoder.LzmaDec.ReadRepeat | uboot-mstar/t22/sboot/src/lzmadec.c:283-328 | which of the last distances is meant, by the bits that LzmaSpelling gives it; it moves to the front |
| LzmaDecoder.LzmaDec.ShortTurn | uboot-mstar/t22/sboot/src/lzmadec.c:288-296 | a repeat of one byte |
| LzmaDecoder.LzmaDec.CheckDistance | uboot-mstar/t22/sboot/src/lzmadec.c:437-443 | the two comparisons refuse exactly the distances that do not lead into the output and the dictionary |
| LzmaDecoder.LzmaDec.FreshTurn | uboot-mstar/t22/sboot/src/lzmadec.c:332-480 | a match or the end mark |
| LzmaDecoder.LzmaDec.CopyOut | uboot-mstar/t22/sboot/src/lzmadec.c:447-479 | as much of a copy as there is room for, the rest in remainLen |
| LzmaDecoder.LzmaDec.DecodeOne | uboot-mstar/t22/sboot/src/lzmadec.c:224-481 | one turn takes the decoder from a state of the reference run to the next, or reports an error that is one |
| LzmaDecoder.LzmaDec.DecodeReal | uboot-mstar/t22/sboot/src/lzmadec.c:202-497 | any number of turns; the limit is never passed; only complete symbols are read |
| LzmaDecoder.LzmaDec.WriteRem | uboot-mstar/t22/sboot/src/lzmadec.c:499-523 | finishes a cut copy with the bytes that the whole copy would have written, and notices a full dictionary |
| LzmaDecoder.LzmaDec.CountRem | uboot-mstar/t22/sboot/src/lzmadec.c:511-514 | the counters for the bytes about to be written |
| LzmaDecoder.LzmaDec.Settle | uboot-mstar/t22/sboot/src/lzmadec.c:537-539 | between two stretches: the full dictionary is noticed and a cut copy goes on |
| LzmaDecoder.LzmaDec.DecodeReal2 | uboot-mstar/t22/sboot/src/lzmadec.c:525-548 | stops at the dictionary size so that distances are checked against it from there on; end marks are normalised |
| LzmaDummy.TryDummy | uboot-mstar/t22/sboot/src/lzmadec.c:558-746 | DUMMY_ERROR exactly when the input ends inside the symbol, and otherwise the kind of symbol that the decoder will come to |
| LzmaDummy.DryIsReal | uboot-mstar/t22/sboot/src/lzmadec.c:558-746 | the dry run and the decoder report the same |
| LzmaDummy.DryDecoder.NormalizeCheck | uboot-mstar/t22/sboot/src/lzmadec.c:118-118 | normalises, or finds that the input has ended inside the symbol |
| LzmaDummy.DryDecoder.GetBitCheck | uboot-mstar/t22/sboot/src/lzmadec.c:120-126 | one bit as the decoder reads it, without adapting |
| LzmaDummy.DryDecoder.DirectCheck | uboot-mstar/t22/sboot/src/lzmadec.c:721-728 | the masked form of a direct bit decides as the decoder does |
| LzmaDummy.DryDecoder.LengthCheck | uboot-mstar/t22/sboot/src/lzmadec.c:668-699 | a length |
| LzmaDummy.DryDecoder.DistanceCheck | uboot-mstar/t22/sboot/src/lzmadec.c:701-741 | a distance |
| LzmaDummy.LiteralDry | uboot-mstar/t22/sboot/src/lzmadec.c:574-609 | a literal |
| LzmaDummy.RepeatDry | uboot-mstar/t22/sboot/src/lzmadec.c:623-667 | which of the last distances is meant, by the same bits |
| LzmaRun.OneVerdict | uboot-mstar/t22/sboot/src/lzmadec.c:792-911 | the bytes at hand and the room for output determine whether decoding comes to rest or meets a fault, never both, and after how many symbols, in both finish modes |
| LzmaRun.RestsWithMore | uboot-mstar/t22/sboot/src/lzmadec.c:821-840 | once no symbol is wanted more input changes nothing |
| LzmaRun.WrongWithMore | uboot-mstar/t22/sboot/src/lzmadec.c:849-865 | a fault found in some of the input is there in all of it |
| LzmaStream.LzmaStream.constructor | uboot-mstar/t22/sboot/src/lzmadec.c:758-778 | a fresh decoder is valid at the start of its stream |
| LzmaStream.LzmaStream.TakeHeader | uboot-mstar/t22/sboot/src/lzmadec.c:805-813 | the first five bytes, in any number of calls |
| LzmaStream.LzmaStream.InitRc | uboot-mstar/t22/sboot/src/lzmadec.c:749-754 | the coder starts with the code word of the header |
| LzmaStream.LzmaStream.InitStateReal | uboot-mstar/t22/sboot/src/lzmadec.c:780-790 | probabilities, distances and state of the reference run |
| LzmaStream.LzmaStream.StartOver | uboot-mstar/t22/sboot/src/lzmadec.h:216-218 | setting dicPos back when the dictionary is full keeps the decoder valid, if the dictionary is as large as the stream asks for |
| LzmaStream.LzmaStream.WriteRest | uboot-mstar/t22/sboot/src/lzmadec.c:797-797 | what every call begins with |
| LzmaStream.LzmaStream.Begin | uboot-mstar/t22/sboot/src/lzmadec.c:805-819 | the header, when it has not been read; a first byte other than 0 is an error |
| LzmaStream.LzmaStream.Ask | uboot-mstar/t22/sboot/src/lzmadec.c:849-866 | the dry run on the input at hand; it never reports an error with 20 bytes at hand |
| LzmaStream.LzmaStream.NoEndMark | uboot-mstar/t22/sboot/src/lzmadec.c:860-864 | without room a symbol that is no match is a fault |
| LzmaStream.LzmaStream.Keep | uboot-mstar/t22/sboot/src/lzmadec.c:852-859 | the input of an incomplete symbol goes to the buffer whole |
| LzmaStream.LzmaStream.FromPiece | uboot-mstar/t22/sboot/src/lzmadec.c:845-876 | from the input at hand: the dry run decides whether the next symbol is complete, and if not the input is kept, at most 19 bytes |
| LzmaStream.LzmaStream.FromBuffer | uboot-mstar/t22/sboot/src/lzmadec.c:877-906 | from the lookahead buffer: what is given back is never more than was taken from the piece |
| LzmaStream.LzmaStream.CheckLimit | uboot-mstar/t22/sboot/src/lzmadec.c:821-840 | what a call does when there is no room, by finish mode |
| LzmaStream.LzmaStream.LoopTurn | uboot-mstar/t22/sboot/src/lzmadec.c:801-907 | one turn keeps the relation to the reference run; an error means that the first fault, within the input at hand and the room, has been met |
| LzmaStream.LzmaStream.DecodeToDic | uboot-mstar/t22/sboot/src/lzmadec.c:792-911 | a call, from any state between calls and in either finish mode: bytes taken, symbols decoded, output and status agree with the reference run; an error means the first fault within the bytes fed and the room |
| LzmaPieces.Feed | uboot-mstar/t22/sboot/src/lzmadec.c:792-911 | one call of many: another symbol is wanted, or decoding has come to its end, or has met the first fault |
| LzmaPieces.DecodePieces | uboot-mstar/t22/sboot/src/lzmadec.c:792-911 | a stream in any pieces has the outcome, with or without error, that all its bytes and the room determine |
| LzmaPieces.CutsDoNotMatter | uboot-mstar/t22/sboot/src/lzmadec.c:792-911 | of two ways of cutting both fail, after the same symbol, or neither does, and then symbols, dictionary contents and bytes accounted for are the same |
| LzmaPieces.DistancesInOutput | uboot-mstar/t22/sboot/src/lzmadec.c:433-443 | in every reachable state all four distances point at bytes already produced |
| LzmaPieces.DecodeProps | uboot-mstar/t22/sboot/src/lzmadec.c:919-943 | refuses exactly short or out-of-range properties, and otherwise recovers lc, lp, pb from their byte |
| LzmaPieces.PropsBack | uboot-mstar/t22/sboot/src/lzmadec.c:919-943 | any lc, lp, pb and dictionary size are recovered from the five bytes that hold them |
| LzmaPieces.LzmaDecode | uboot-mstar/t22/sboot/src/lzmadec.c:968-998 | the whole stream in one call, in either finish mode: fails exactly at a fault, lacks input exactly when a symbol is wanted, and else dest is the output of the run, srcLen its end, and the status tells how it ended; a stream whose decisions spell a list of symbols decodes to the LZ77 expansion of that list |
| QuickSort.VecSwap | ufbl-features/features/libtomcrypt/qsort.c:73-73 | two stretches of equal length change places |
| QuickSort.Med3 | ufbl-features/features/libtomcrypt/qsort.c:75-81 | the place of the median of three elements |
| QuickSort.ChoosePivot | ufbl-features/features/libtomcrypt/qsort.c:99-110 | the middle element, the median of three, or the median of the medians of nine |
| QuickSort.Insert | ufbl-features/features/libtomcrypt/qsort.c:93-96 | an element moves to its place among the sorted ones before it |
| QuickSort.InsertionSort | ufbl-features/features/libtomcrypt/qsort.c:139-144 | sorted, and a permutation |
| QuickSort.ScanLeft | ufbl-features/features/libtomcrypt/qsort.c:116-123 | equal elements go to the left end; stops at a larger one |
| QuickSort.ScanRight | ufbl-features/features/libtomcrypt/qsort.c:124-131 | equal elements go to the right end; stops at a smaller one |
| QuickSort.Partition | ufbl-features/features/libtomcrypt/qsort.c:112-138 | equal, smaller, larger, equal: a permutation with nothing left between |
| QuickSort.LeftHalf | ufbl-features/features/libtomcrypt/qsort.c:147-149 | swapping the shorter of the two stretches brings the equal elements to the middle |
| QuickSort.EqualToMiddle | ufbl-features/features/libtomcrypt/qsort.c:147-151 | smaller, equal, larger: a permutation |
| QuickSort.SplitOrSort | ufbl-features/features/libtomcrypt/qsort.c:99-151 | a split, or the sorted stretch when partitioning moved nothing |
| QuickSort.LeftDone | ufbl-features/features/libtomcrypt/qsort.c:152-153 | when the smaller elements are sorted all but the larger ones are settled |
| QuickSort.QSort | ufbl-features/features/libtomcrypt/qsort.c:83-161 | for every length and every total preorder: sorted, a permutation of the stretch, nothing else touched, and it ends |
| ShaRounds.MakeSchedule | uboot-mstar/t22/sboot/src/apiSHA.c:241-247 | the message schedule of section 6.2.2 of FIPS 180-2 |
| ShaRounds.TransfLoop | uboot-mstar/t22/sboot/src/apiSHA.c:240-269 | the loop form computes the compression function |
| ShaRounds.Exp | uboot-mstar/t22/sboot/src/apiSHA.c:112-119 | a round that renames the variables instead of moving them |
| ShaRounds.TransfUnrolled | uboot-mstar/t22/sboot/src/apiSHA.c:271-334 | the unrolled form computes the same function |
| Sha256.TransfBlock | uboot-mstar/t22/sboot/src/apiSHA.c:224-337 | both forms, with the operations and constants of SHA-256, on big-endian words |
| ShaStandard.CompressIs | uboot-mstar/t22/sboot/src/apiSHA.c:224-337 | for every hash and block the compression function is that of section 6.2.2 of FIPS 180-2, given as recurrences for the schedule and for two shift registers |
| ShaStandard.ChChooses | uboot-mstar/t22/sboot/src/apiSHA.c:45-45 | Ch takes each bit from y where x is one and from z where it is zero |
| ShaStandard.MajIsMajority | uboot-mstar/t22/sboot/src/apiSHA.c:46-46 | Maj is x where x and y agree and z where they do not |
| ShaStandard.AddIs | uboot-mstar/t22/sboot/src/apiSHA.c:252-262 | words are added as 32-bit words |
| ShaStandard.F1Bits | uboot-mstar/t22/sboot/src/apiSHA.c:48-48 | each bit is the exclusive or of the bits 2, 13 and 22 places on |
| ShaStandard.F2Bits | uboot-mstar/t22/sboot/src/apiSHA.c:49-49 | each bit is the exclusive or of the bits 6, 11 and 25 places on |
| ShaStandard.F3Bits | uboot-mstar/t22/sboot/src/apiSHA.c:50-50 | the bits 7 and 18 places on, and the bit 3 places on where there is one |
| ShaStandard.F4Bits | uboot-mstar/t22/sboot/src/apiSHA.c:51-51 | the bits 17 and 19 places on, and the bit 10 places on where there is one |
| ShaStandard.KIsCubeRoot | uboot-mstar/t22/sboot/src/apiSHA.c:150-166 | the round constants are the first 32 bits of the fractional parts of the cube roots of the first 64 primes |
| ShaStandard.H256IsSquareRoot | uboot-mstar/t22/sboot/src/apiSHA.c:134-136 | the start of SHA-256 is the first 32 bits of the fractional parts of the square roots of the first 8 primes |
| ShaStandard.H224IsSquareRoot | uboot-mstar/t22/sboot/src/apiSHA.c:130-132 | the start of SHA-224 is the second 32 bits for the next 8 primes |
| ShaStandard.Pack32Bytes | uboot-mstar/t22/sboot/src/apiSHA.c:66-72 | a word holds its four bytes, the first one highest |
| ShaStandard.BigEndianNumber | uboot-mstar/t22/sboot/src/apiSHA.c:58-64 | a number is written highest byte first |
| ShaStandard.DigestBytes | uboot-mstar/t22/sboot/src/apiSHA.c:427-435 | the digest is the words of the hash, each highest byte first |
| ShaStream.GapFills | uboot-mstar/t22/sboot/src/apiSHA.c:410-414 | the padding is the least that makes whole blocks |
| ShaStandard.PaddingIs | uboot-mstar/t22/sboot/src/apiSHA.c:406-422 | the padding of section 5.1 of FIPS 180-2, byte by byte: 0x80, zeros, the length in bits; it fills whole blocks and is the least that does |
| ShaStream.FoldConcat | uboot-mstar/t22/sboot/src/apiSHA.c:237-238 | folding the blocks of x and then those of y is folding those of both |
| ShaStream.AppendedIsPadding | uboot-mstar/t22/sboot/src/apiSHA.c:410-418 | what is appended is the padding of section 5.1 of FIPS 180-2 if and only if the length in bits is below 2^32 |
| ShaStream.ShaContext.Transf | uboot-mstar/t22/sboot/src/apiSHA.c:237-238 | block after block into the hash |
| ShaStream.ShaContext.CopyIn | uboot-mstar/t22/sboot/src/apiSHA.c:376-376 | bytes at the end of the buffer |
| ShaStream.ShaContext.Update | uboot-mstar/t22/sboot/src/apiSHA.c:366-398 | the context stands for the message so far with the new bytes at its end |
| ShaStream.ShaContext.Refill | uboot-mstar/t22/sboot/src/apiSHA.c:391-397 | the rest goes to the buffer; the counters stand for the message |
| ShaStream.ShaContext.Final | uboot-mstar/t22/sboot/src/apiSHA.c:400-436 | the digest is that of the message with the appended bytes, in one more block or two |
| ShaStream.HashPieces | uboot-mstar/t22/sboot/src/apiSHA.c:339-436 | below 2^29 bytes any split into updates gives the digest that the standard defines for the whole |
| Sha256.Sha | uboot-mstar/t22/sboot/src/apiSHA.c:339-436 | the same with the digest as bytes, for any start values and number of words |
| Sha256.Sha256Of | uboot-mstar/t22/sboot/src/apiSHA.c:339-346 | sha256: 32 bytes from its start values |
| Sha256.Sha224Of | uboot-mstar/t22/sboot/src/apiSHA.c:737-834 | sha224: 28 bytes from its start values |
| IdmeFormat.WordBack | ufbl-features/include/idme.h:202-207 | an unsigned int is read back as it was written |
| IdmeFormat.WordPlaces | ufbl-features/include/idme.h:202-207 | what each byte of an unsigned int counts for |
| IdmeFormat.HeaderSpells | ufbl-features/include/idme.h:70-70 | the magic number is the characters of "beefdeed" |
| IdmeFormat.CStringOfPadded | ufbl-features/features/idme/cmd_idme_v2_0.c:94-95 | a name is read back as it was written |
| IdmeFormat.Fields | ufbl-features/features/idme/cmd_idme_v2_0.c:92-98 | all fields of a record are read back as they were written |
| IdmeFormat.NameField | ufbl-features/features/idme/cmd_idme_v2_0.c:94-95 | the name field byte by byte: the name, and 0 from its end on |
| IdmeFormat.Apart | ufbl-features/features/idme/cmd_idme_v2_0.c:101-104 | records are 4-aligned and each ends before the next begins |
| IdmeFormat.HoldsMore | ufbl-features/features/idme/cmd_idme_v2_0.c:84-104 | a record written at the end extends the list |
| IdmeTable.InitItem | ufbl-features/features/idme/cmd_idme_v2_0.c:84-99 | the bytes of a record, and no others |
| IdmeTable.AddItem | ufbl-features/features/idme/cmd_idme_v2_0.c:84-104 | one more record at the end of the list, and the header as it was |
| IdmeTable.InitVar | ufbl-features/features/idme/cmd_idme_v2_0.c:230-263 | the table of all template items with their defaults: byte by byte the value and then 0; every byte outside header and records is 0 |
| IdmeTable.Search | ufbl-features/features/idme/cmd_idme_v2_0.c:283-292 | stops at the first record of the name, or finds none |
| IdmeTable.GetVar | ufbl-features/features/idme/cmd_idme_v2_0.c:265-297 | succeeds if and only if the magic number is there and the name occurs; returns the first bytes of that item |
| IdmeTable.UpdateVar | ufbl-features/features/idme/cmd_idme_v2_0.c:299-332 | byte by byte: the data of that item is the first length bytes of the value and 0 from there on, no other byte of the buffer changes; or nothing changes at all |
| IdmeTable.FoundWhereItWas | ufbl-features/features/idme/cmd_idme_v2_0.c:316-322 | after new data for an item every name is found where it was |
| IdmeTable.ReplacedHolds | ufbl-features/features/idme/cmd_idme_v2_0.c:322-323 | all other records stay where and what they are |
| IdmeUpdate.ReadItem | ufbl-features/features/idme/cmd_idme_v2_0.c:158-191 | the fields of the record that was found |
| IdmeUpdate.Overlay | ufbl-features/features/idme/cmd_idme_v2_0.c:192-195 | old data over the beginning of the new record |
| IdmeUpdate.MergeItem | ufbl-features/features/idme/cmd_idme_v2_0.c:151-214 | one template entry: the record that becomes of it, and what is counted |
| IdmeUpdate.MergeAll | ufbl-features/features/idme/cmd_idme_v2_0.c:151-214 | the whole template: the new records in order, and the two counts |
| IdmeUpdate.UpdateTable | ufbl-features/features/idme/cmd_idme_v2_0.c:107-227 | -1 exactly without a table of this version; 0 exactly when there is something to do, and then the table is the merged one; otherwise nothing changes |
| IdmeUpdate.UpToDate | ufbl-features/features/idme/cmd_idme_v2_0.c:216-222 | there is nothing to do if and only if the table has the items of the template in their sizes and no others |
| IdmeUpdate.Survivors | ufbl-features/features/idme/cmd_idme_v2_0.c:179-212 | an item that has not shrunk keeps its old bytes at its beginning; every other byte is that of the default value, or 0 behind its end |
| IdmeUpdate.SecondRun | ufbl-features/features/idme/cmd_idme_v2_0.c:107-227 | with distinct names a second run finds nothing to do |

## Left out

Multi-precision arithmetic:

- MultiPrecision.MpShiftLeft: shifts of a whole digit or more are never asked for and are not modelled. For a shift of 0 the C code shifts by 32, which C leaves open; the carry is taken to be 0 then, as the mask is 0.
- MultiPrecision.MpShiftRight: the same.
- Division.MpDivide: requires the arrays to be distinct and the quotient to have a digit at least, as the comment in the source demands.
- ModExp.Exponentiator.MpModExp: e must not be 0, since the code reads below the array otherwise. The static temporaries are fields of a class; 256 digits is the size of RSA_KEY_DIGI_LEN as assumed here, since its definition is not part of this model.
- SinglePrecision.DivideRound: rounds 2 and 3 of `spDivide` are the same code and share one method, and inner loops and repeated steps are methods of their own.
- `mpBitLength`, `mpEqual`, the conversions to and from octets, and `rsa_main`.

Inflate:

- HuftBuild.HuftBuild: the memory of the tables is a sequence of tables found by number; the link entry before each table, failing allocation (Z_MEM_ERROR) and freeing are left out. The base of an entry for an invalid code is never used and is 0. The first turn of the loop that makes tables comes before the loop over codes.
- HuftBuild.DecodesCanonical: speaks of at least 15 bits; with fewer bits left the slow loop waits for as many as the root table looks up, as the C code does.
- InflateTokens.BlockInflates: asks for 15 bits of input from the last code on, whether or not the block needs them, for the same reason; in a zlib stream the check value follows.
- InflateTokens.BlockDecodes: the same.
- InflateTokens.OpToken: the same.
- InflateTrees.Dynamic: when one of the two sets has no codes at all, `huft_build` succeeds without a table and the decoding loops would follow a null pointer; nothing is said about that case but the verdict. The bit length code (`inflate_trees_bits`) is an instance of HuftBuild. Messages are left out.
- InflateCodes.Inflater.Valid: requires every copy of the input to have a length of at least 3 and a distance within what has been produced and within the window. The C code checks none of this; section 3.2.5 of RFC 1951 demands it.
- InflateCodes.Inflater.Codes: the local copies of the stream and window fields are the fields themselves, and a case that falls through is another turn of the loop. The input of all calls is one sequence of which more and more becomes available.
- InflateFast.FastFind: the two loops that follow links, for lengths and for distances, share one method.
- The `__AEONR2__` form of the loop, which is the same cases as if-statements; block headers, stored blocks, the zlib header, `inflateSync` and `inflateIncomp`.

LZMA:

- The fields of CLzmaDec are spread over a range decoder, a dictionary, the decoder and the stream; range and code are updated in place, while the C code leaves the fields as they were when it reports a data error. Unrolled trees are loops. Allocation always succeeds.
- LzmaDecoder.LzmaDec.DecodeOne: is only asked for symbols that are complete in the input, which its callers prove.
- LzmaEncode.Stream: the repository has no encoder; this one works back from the last bit and is only there to show that every list of symbols that makes sense can come out of LzmaDecode.
- LzmaPieces.DecodePieces: all calls of a stream are made with the same limit and the same finish mode; a caller that changes them in between is covered call by call by DecodeToDic. The buffered interface that the header declares is not part of this model.

Sorting:

- QuickSort.QSort: elements are values of any type; the widths of elements, the three ways of swapping, and the int variables that would overflow for arrays of 2 GB are left out.

SHA-2:

- ShaStream.ShaContext.Update: requires that the buffered bytes and the new ones together stay below 2^32, since their sum wraps in C.
- The compression function is a parameter of the streaming context; the loops that compute it are proved for any word size, and SHA-256 and SHA-224 are instances with their constants. The constant tables of SHA-384 and SHA-512 are left out.
- ShaStandard.KIsCubeRoot: the 64 primes are a list of numbers; that they are the first primes is not proved.
- ShaRounds.UnrolledRounds: the 64 unrolled lines are a loop of eight rounds.

Item store:

- IdmeTable.InitItem: requires the record to fit; the C code prints a message and loops forever otherwise. Integers are stored lowest byte first, the layout of the target.
- IdmeUpdate.UpdateTable: names have 1 to 15 characters, so that comparing strings and comparing fields is the same, and values hold no zero byte. A table that differs from the template only in order counts as up to date, as in the code. Failing allocation and messages are left out.
- Printing, device tree and atag functions, and the platform files that load and store the buffer.
