# Verified models of OpenRTX

OpenRTX is firmware for digital radios. This project models six of its cores in Dafny and proves what
they promise. `dafny verify dfyconfig.toml` checks everything.

Code that works in place is modelled in place: the QR encoder's bit buffers and its Reed-Solomon registers,
the codeplug file with its cursor, the audio arbiter, the two ends of an XMODEM transfer, the flash writer,
the filters, the frame buffer and the date structure are classes and arrays that methods update with loops.
Each method is proved against a specification function or predicate, and the properties below are proved of
the specification, for all inputs and over all runs. Where a specification and the code share a table, a constant
or a formula, a further result compares it with an independent form: the standard's tables, bytes at literal
positions, published check values, or a closed formula.

| Files | What they model |
|---|---|
| `Gf256`, `ReedSolomon`, `RsDistance`, `RsEncoder` | the field GF(2^8) modulo 0x11D, generator polynomials, the strided division, and the distance of the code |
| `QrStandard` | what a reader goes by after ISO/IEC 18004:2015, independent of the encoder: mask patterns, format words and places, the path, the order of interleaved bytes |
| `BitBucket`, `TextEncoding`, `Interleaving`, `Placement`, `Masking`, `QrSymbol` | the QR encoder of that standard from text to finished symbol (sections 7.4 to 7.9), with a scanner that reads symbols back |
| `Bytes`, `CpsFile`, `CodeplugFormat`, `Codeplug`, `CodeplugStore`, `CodeplugLaws` | the codeplug file: its bytes, its layout, the lists it stands for, and the functions that edit it in place |
| `CodeplugBytes` | the same file by byte positions, and byte for byte what an insertion changes |
| `AudioPaths`, `AudioPlatforms` | the priority arbiter for audio paths with the connections it makes, and the compatibility tables of seven platforms |
| `Crc`, `FlashMemory`, `Xmodem`, `XmodemTranscripts`, `XmodemLink`, `Backup` | the two CRCs, the flash and its two transfer callbacks, XMODEM packets and both ends of a transfer, the joined system over a line that damages packets, and the flash backup |
| `Dsp`, `Fir`, `Iir`, `Goertzel` | the DC blocker and decimator on C integers, the three floating-point filters on real numbers |
| `Graphics`, `Datetime`, `Gregorian` | line and circle rasterising; calendar realignment and time zones; the calendar by a closed formula |
| `NonLinear` | facts about products and quotients |

The main results:

- **QR.** Whatever text fits the version, scanning the symbol that `InitBytes` draws gives the text back. The scanner
  starts from the finished grid: it reads the mask number from the format bits, unmasks by the standard's patterns,
  follows the standard's path, undoes the interleaving and parses mode, length and groups. The mask is the first of
  the least penalty. The blocks are Reed-Solomon code words, any two of which differ in more than `d` bytes, and no
  other check bytes would do.
- **Codeplug.** Every insertion turns the file of a codeplug into the file of the codeplug with that element inserted,
  with offsets pointing at their banks and cross-references renumbered, byte for byte; and the file determines the
  codeplug. The block move underneath is exact for every offset and amount.
- **Audio paths.** The invariant of the suspend graph holds over every run. For every platform table, active routes
  stay compatible over all runs if and only if conflict is symmetric and transitive, and the hardware's connections
  are those of the active routes over all runs if and only if conflict is an equivalence relation; in a single run
  they are throughout if and only if no release cuts off a route with the same ends, and so on any platform if no
  request names the ends of a live route.
- **XMODEM.** Over every run with noticed damage the receiver gets a prefix of the data, each block once; transfers
  complete in every run if and only if they consist of whole blocks; a dump that is restored reproduces the flash.
- **Filters.** The DC blocker's state just fits 32 bits; its `prevOut` adds up to a bounded sum over every run, and the
  samples it returns do for inputs up to 0x3FFF, the largest amplitude at which all of them are `prevOut`; FIR, IIR
  and Goertzel equal their mathematical definitions on every run.

Where the code does not do what its callers may expect, the model keeps the code, and a result says exactly when it does:

- `cps_writeBankData` compares the entry's position with the number of banks (`cps_io_libc.c:361`), so a channel
  insertion leaves some entries of long banks behind (`EntryStaysNamed`, `EntryGoesAstray`).
- `cps_insertBankData` raises offsets before it checks the position (`cps_io_libc.c:463-479`): `RefusedEntryHarms`.
- The resend loop adds the padding again each time (`xmodem.c:153`): `CompletesExactlyIfWhole`, `PaddedTransferStarves`.
- `cps_writeBankData` does not check the bank (`cps_io_libc.c:363-376`): `WriteBankData` says which missing banks it
  refuses, `MisledExactlyIf` and `MisledWrite` which it takes for another. `cps_insertBankHeader` accepts a header that announces entries: `HeaderPutIn`.
- The DC blocker returns `prevOut` cut to 16 bits, which it can exceed (`dsp.cpp:24`): `SampleIsExactIf` and
  `ExactUpToQuarterScale` say when it does not, `HalfSwingWraps` and `FullSwingWraps` that it happens.
- `realignTimeInfo` carries the year at month -1 instead of 0 (`datetime.c:127`), reads in front of its table before
  that, and never realigns month 0, to which it brings some other months, correctly: `Realign`, `NewYearGoesAstray`.
- `audio_disconnect` is given only the ends of a connection (`audio_path.cpp:47-56`), so releasing one of two routes
  with the same ends cuts off the other, and the arbiter still calls it open: `ReleaseKeepsHardware` and
  `MatchesExactlyIf` say when, `TwinTrapCutsOff` that it happens.
- All audio tables but the stub let incompatible routes be open together and open routes be cut off:
  `Cs7000OpensIncompatibles`, `Cs7000CutsOffTheReceiver`, `TtwrPlusOpensIncompatibles`, `TtwrPlusCutsOffTheReceiver`,
  `MatricesFail`.

Conventions: a `ghost` parameter such as the layout or codeplug of the file says what the caller knows and is no
argument of the original function. A method that waits on a serial line returns `false` where the original would wait
forever. `hide` statements keep proofs small and assume nothing.

## Model

| member | source | states |
|---|---|---|
| `Gf256.MulCommutes` | lib/QRCode/qrcode.c:572-581 | the product of rs_multiply is commutative |
| `Gf256.MulAssociates` | lib/QRCode/qrcode.c:572-581 | and associative |
| `Gf256.MulAddsRight` | lib/QRCode/qrcode.c:572-581 | and distributes over the exclusive or: GF(2^8) |
| `Gf256.MulOne` | lib/QRCode/qrcode.c:572-581 | 1 is its unit |
| `Gf256.NoZeroDivisors` | lib/QRCode/qrcode.c:572-581 | and it has no zero divisors |
| `Gf256.MulIsPolynomialRemainder` | lib/QRCode/qrcode.c:572-581 | it is the carry-less 16-bit product reduced modulo 0x11D: the two differ by a carry-less multiple of that polynomial |
| `Gf256.RsMultiply` | lib/QRCode/qrcode.c:572-581 | the shift-and-add loop, kept in 16 bits and cut to 8, computes the field product for all pairs of bytes |
| `ReedSolomon.GeneratorIsRootProduct` | lib/QRCode/qrcode.c:583-601 | the generator evaluates to the product of (x - 2^i) at every x |
| `ReedSolomon.GeneratorVanishes` | lib/QRCode/qrcode.c:583-601 | it vanishes at 2^0 .. 2^(d-1) |
| `ReedSolomon.GeneratorIsMonic` | lib/QRCode/qrcode.c:583-601 | it has degree d and leading coefficient 1, which is why rs_init can leave that out |
| `RsEncoder.RsInit` | lib/QRCode/qrcode.c:583-601 | the in-place loops leave the coefficients of that generator without the leading one, for every degree |
| `RsEncoder.WindowStepMultiplies` | lib/QRCode/qrcode.c:591-600 | one round of the loops is a multiplication by (x - root) inside a window of the right length |
| `ReedSolomon.DivideVanishes` | lib/QRCode/qrcode.c:603-620 | if the data so far and the register vanish at a root of the generator, they do so after one more round |
| `ReedSolomon.RemainderVanishes` | lib/QRCode/qrcode.c:603-620 | data followed by its remainder vanishes wherever the generator does |
| `ReedSolomon.EncodingIsCodeword` | lib/QRCode/qrcode.c:603-620 | for every block and degree, data followed by its check bytes vanishes at 2^0 .. 2^(d-1) |
| `RsEncoder.RsGetRemainder` | lib/QRCode/qrcode.c:603-620 | at every start and stride the in-place shifts and subtractions leave exactly the remainder on the stride and touch nothing off it |
| `RsEncoder.ShiftStrided` | lib/QRCode/qrcode.c:611-614 | the register shift on a stride |
| `RsEncoder.SubtractMultiple` | lib/QRCode/qrcode.c:616-618 | the subtraction of the generator's multiple on a stride |
| `RsDistance.AlphaIsInjective` | lib/QRCode/qrcode.c:583-601 | the powers 2^0 .. 2^254 are different, so the code really has d roots |
| `RsDistance.VanishingSumsAreZero` | lib/QRCode/qrcode.c:583-620 | fewer than d+1 terms at different powers cannot vanish at d roots unless all are zero |
| `RsDistance.MinimumDistance` | lib/QRCode/qrcode.c:583-620 | two different code words of up to 255 bytes differ in more than d places |
| `RsDistance.CheckBytesAreUnique` | lib/QRCode/qrcode.c:603-620 | the bytes of rs_getRemainder are the only d bytes that complete the data to a code word |
| `Interleaving.Layout.SlotIsValid` | lib/QRCode/qrcode.c:699-753 | every byte of every block and its check bytes has a place inside the buffer |
| `Interleaving.Layout.UnslotIsValid` | lib/QRCode/qrcode.c:699-753 | every place of the buffer belongs to a byte of some block |
| `Interleaving.SlotsAreABijection` | lib/QRCode/qrcode.c:699-753 | the two maps undo each other: each output slot is used exactly once, for every split into short and long blocks |
| `Interleaving.CollectIsCodeword` | lib/QRCode/qrcode.c:685-757 | picking a block's slots out of the output gives its data followed by its own check bytes |
| `Interleaving.DeinterleaveRestores` | lib/QRCode/qrcode.c:685-757 | de-interleaving returns all the data |
| `Interleaving.LayoutFillsSymbol` | lib/QRCode/qrcode.c:689-703 | the block sizes computed from the tables fill the symbol's bytes exactly |
| `Interleaving.InterleaveRows` | lib/QRCode/qrcode.c:715-727 | the loop over the common length of all blocks |
| `Interleaving.InterleaveLongBlocks` | lib/QRCode/qrcode.c:729-742 | the loop that appends the last byte of the long blocks |
| `Interleaving.AppendCheckBytes` | lib/QRCode/qrcode.c:744-753 | the loop that appends each block's check bytes, strided across the blocks |
| `Interleaving.PerformErrorCorrection` | lib/QRCode/qrcode.c:685-757 | the whole function leaves the interleaved code words in the buffer and the offset at the number of modules |
| `Interleaving.InterleavedInTurns` | lib/QRCode/qrcode.c:685-757 | what it leaves is what section 7.6 of the standard says: the data blocks byte by byte in turn, then their check bytes byte by byte in turn |
| `Interleaving.BlocksInData` | lib/QRCode/qrcode.c:689-713 | the blocks are consecutive pieces of the data, short ones first, long ones one byte longer |
| `BitBuckets.RaiseBitTests` | lib/QRCode/qrcode.c:223-231 | setting one bit of a byte sets that bit and no other |
| `BitBuckets.LowerBitTests` | lib/QRCode/qrcode.c:223-231 | likewise clearing |
| `QrSymbol.BitsOfMask` | lib/QRCode/qrcode.c:217-247 | the bits of a byte are counted from the most significant one |
| `BitBuckets.ValueBitsReadBack` | lib/QRCode/qrcode.c:209-215 | a number that fits its field is read back from its bits |
| `BitBuckets.BitBucket.AppendBits` | lib/QRCode/qrcode.c:209-215 | appends exactly the bits of the value, most significant first |
| `BitBuckets.BitBucket.SetBit` | lib/QRCode/qrcode.c:223-231 | changes one cell of the grid |
| `BitBuckets.BitBucket.InvertBit` | lib/QRCode/qrcode.c:233-242 | inverts one cell of the grid or leaves it |
| `BitBuckets.BitBucket.GetBit` | lib/QRCode/qrcode.c:244-247 | reads one cell of the grid |
| `BitBuckets.IndexIsInjective` | lib/QRCode/qrcode.c:223-231 | different modules have different cells |
| `TextEncoding.IsNumeric` | lib/QRCode/qrcode.c:132-141 | true exactly for texts of digits |
| `TextEncoding.IsAlphanumeric` | lib/QRCode/qrcode.c:124-131 | true exactly for texts of the 45 characters |
| `TextEncoding.AlphanumericReadBack` | lib/QRCode/qrcode.c:104-122 | the 45 character codes are inverted by the standard's table |
| `TextEncoding.AlphanumericExactlyIf` | lib/QRCode/qrcode.c:104-122 | exactly digits, capitals and the nine other characters of table 5 have a code |
| `TextEncoding.ModeIs` | lib/QRCode/qrcode.c:625-683 | digits go in numeric mode, other texts of the 45 characters in alphanumeric mode, all others in byte mode |
| `TextEncoding.ModeBitsAreStandard` | lib/QRCode/qrcode.c:147-164 | the packed constant yields the length-field widths of table 3 of ISO/IEC 18004:2015 |
| `TextEncoding.NumericReadBack` | lib/QRCode/qrcode.c:628-648 | groups of three digits, with a shorter last group, are read back |
| `TextEncoding.AlphanumericTextReadBack` | lib/QRCode/qrcode.c:650-670 | pairs of characters, with a single last one, are read back |
| `TextEncoding.TextReadBack` | lib/QRCode/qrcode.c:625-683 | a reader of mode, length and groups recovers every text whose length fits the field, whatever follows it |
| `TextEncoding.EncodeDigits` | lib/QRCode/qrcode.c:633-648 | the digit loop with its accumulator appends exactly those groups |
| `TextEncoding.EncodeAlphanumerics` | lib/QRCode/qrcode.c:655-670 | the character loop likewise |
| `TextEncoding.EncodeDataCodewords` | lib/QRCode/qrcode.c:625-683 | appends mode, length and payload and returns the mode |
| `TextEncoding.PaddingFills` | lib/QRCode/qrcode.c:798-807 | terminator, alignment and alternating pad bytes fill the data capacity exactly |
| `TextEncoding.PaddingBegins` | lib/QRCode/qrcode.c:798-802 | it begins with up to four zero bits and zero bits to the next byte boundary |
| `TextEncoding.PadsAlternate` | lib/QRCode/qrcode.c:804-807 | and goes on with 11101100 and 00010001 in turn |
| `TextEncoding.PadCodewords` | lib/QRCode/qrcode.c:798-807 | the padding code appends exactly these |
| `Placement.CellThenVisit` | lib/QRCode/qrcode.c:452-459 | each step of the zigzag is recovered from the cell it visits |
| `Placement.VisitThenCell` | lib/QRCode/qrcode.c:452-459 | each cell outside column 6 is visited by the step computed from it |
| `Placement.VisitIsStep` | lib/QRCode/qrcode.c:440-468 | the scan is the path of section 7.7.3: up from the lower right corner in pairs of columns, right module first, turning at the edges, past column 6, and over all other modules |
| `Placement.PosIsInjective` | lib/QRCode/qrcode.c:451-467 | no cell is visited twice |
| `Placement.PlacedKeeps` | lib/QRCode/qrcode.c:459-462 | function modules are untouched |
| `Placement.PlacedHolds` | lib/QRCode/qrcode.c:459-462 | a placed bit stays where it was put |
| `Placement.ReadBackPlaced` | lib/QRCode/qrcode.c:440-468 | reading in the same order returns the placed bits, if the free cells suffice |
| `Placement.DrawCodewords` | lib/QRCode/qrcode.c:440-468 | the nested loops place exactly these bits |
| `Masking.MaskedTwice` | lib/QRCode/qrcode.c:255-276 | applying a mask twice undoes it |
| `Masking.MaskedKeepsFunctionModules` | lib/QRCode/qrcode.c:255-276 | no mask changes a function module |
| `Masking.PatternIs` | lib/QRCode/qrcode.c:264-273 | the eight conditions are the patterns of section 7.8.2, given by the remainders of column and row |
| `Masking.ApplyMask` | lib/QRCode/qrcode.c:255-276 | for every column x and row y the module is inverted if and only if it is free and the standard's pattern has it, and every other bit stays |
| `Masking.MaskedIsStandard` | lib/QRCode/qrcode.c:255-276 | so masking is what a reader of the standard undoes |
| `Masking.FormatFieldsReadBack` | lib/QRCode/qrcode.c:313-321 | error correction level and mask are read back from the 15-bit format word |
| `Masking.FormatWordsAreStandard` | lib/QRCode/qrcode.c:313-321 | for every level and mask the word is that of table C.1 of the standard |
| `Masking.FormatDistance` | lib/QRCode/qrcode.c:313-321 | any two format words differ in at least seven bits |
| `Masking.FormatIsSeen` | lib/QRCode/qrcode.c:323-343 | each format bit is found in both of its places |
| `Masking.FormatIsStandard` | lib/QRCode/qrcode.c:323-345 | both copies have that table's bits in the standard's places, and the dark module is dark |
| `Masking.FormatRedrawn` | lib/QRCode/qrcode.c:309-346 | drawing another format over one leaves no trace of the first |
| `Masking.FormatStaysReserved` | lib/QRCode/qrcode.c:278-282 | drawing the format marks its modules as function modules |
| `Masking.DrawFormatBits` | lib/QRCode/qrcode.c:309-346 | draws exactly the two copies and the dark module |
| `Masking.ChooseMask` | lib/QRCode/qrcode.c:821-841 | the trial loop restores the data modules each round; the final mask is the first of minimum penalty, for every penalty function |
| `QrSymbol.SeenMaskIsApplied` | lib/QRCode/qrcode.c:821-841 | the mask number read from the finished symbol is the one that was applied |
| `QrSymbol.TrialIsReadBack` | lib/QRCode/qrcode.c:440-468 | unmasking a finished symbol and scanning it returns the placed bits |
| `QrSymbol.TrialHasFormat` | lib/QRCode/qrcode.c:821-841 | and they are there in the finished, masked symbol |
| `QrSymbol.FunctionModulesStay` | lib/QRCode/qrcode.c:814-841 | of the function modules only those of the format are redrawn |
| `QrSymbol.ScanRecoversText` | lib/QRCode/qrcode.c:770-844 | reading a finished symbol by the standard's rules for mask number, masks and path, then de-interleaving and parsing, recovers the text, under any mask |
| `QrSymbol.TrialUnderMask` | lib/QRCode/qrcode.c:821-841 | taking the mask off a finished symbol and applying another gives the symbol that the other would have given in the first place |
| `QrSymbol.InitBytes` | lib/QRCode/qrcode.c:770-844 | the whole encoder: for every text that fits, a reader that goes by the standard's masks and path gets the text from the symbol, the format is the standard's, and of the eight symbols that differ from it in the mask none has a smaller penalty and none before it an equal one |
| `CpsFiles.CpsFile.PushDown` | platform/drivers/CPS/cps_io_libc.c:59-83 | the backward chunk loop is an exact block move, for every offset and amount, and leaves the cursor at the hole |
| `CpsFiles.MoveStep` | platform/drivers/CPS/cps_io_libc.c:69-75 | moving one more chunk keeps what has been moved and what has not been reached |
| `CodeplugFormat.HeaderReadBack` | openrtx/include/core/cps.h:292-304 | a header is read back from its 88 bytes |
| `CodeplugFormat.BankHeaderReadBack` | openrtx/include/core/cps.h:277-282 | a bank header is read back from its 34 bytes |
| `CodeplugFormat.InsertRecord` | platform/drivers/CPS/cps_io_libc.c:380-413 | putting a record into a list in the middle of a file inserts it into the list |
| `CodeplugFormat.WriteRecord` | platform/drivers/CPS/cps_io_libc.c:310-335 | overwriting a record in place replaces it in the list |
| `CodeplugLaws.EncodingIsInjective` | openrtx/include/core/cps.h:284-304 | no two well-formed codeplugs have the same file, so all that is not edited reads back unchanged |
| `CodeplugBytes.HeaderInFile` | openrtx/include/core/cps.h:284-304 | a file begins with RTXC and four zeros, version, author, description and time, and at byte 82 the three counts, low bytes first |
| `CodeplugBytes.AcceptedExactlyIf` | platform/drivers/CPS/cps_io_libc.c:24-38 | a header is accepted if and only if it begins with RTXC and four zeros and has version 0.0 or 0.1 |
| `CodeplugBytes.RecordsInFile` | openrtx/include/core/cps.h:284-304 | contacts of 39 bytes follow from byte 88 on, then channels of 94 |
| `CodeplugBytes.BankInFile` | openrtx/include/core/cps.h:277-304 | then for each bank four bytes with its distance, at which its name, count and entries lie |
| `CodeplugBytes.ContactInsertionChanges` | platform/drivers/CPS/cps_io_libc.c:92-119 | of every channel record only the two bytes of the index change, and only for M17 and DMR channels that name a contact at or behind the place; contacts are the old ones with the new one at the place |
| `CodeplugBytes.ChannelInsertionChanges` | platform/drivers/CPS/cps_io_libc.c:128-151 | of the banks only the entries change that name a channel at or behind the place as signed numbers and whose position is at most the number of banks, by one |
| `CodeplugBytes.BankInsertionChanges` | platform/drivers/CPS/cps_io_libc.c:415-447 | a bank insertion moves the later banks up by one and changes nothing else |
| `CodeplugBytes.EntryInsertionChanges` | platform/drivers/CPS/cps_io_libc.c:356-378 | so does an entry insertion in its bank; overwriting changes one entry |
| `CodeplugLaws.ContactKeepsForm` | platform/drivers/CPS/cps_io_libc.c:380-395 | a contact makes the file longer by one record and keeps it well-formed |
| `CodeplugLaws.ChannelKeepsForm` | platform/drivers/CPS/cps_io_libc.c:397-413 | so does a channel |
| `CodeplugLaws.BankKeepsForm` | platform/drivers/CPS/cps_io_libc.c:415-447 | so does a bank |
| `CodeplugLaws.EntryKeepsForm` | platform/drivers/CPS/cps_io_libc.c:449-488 | so does a bank entry |
| `CodeplugLaws.RefusedEntryHarms` | platform/drivers/CPS/cps_io_libc.c:463-479 | an entry refused for its position leaves the file as it was if and only if it was meant for the last bank |
| `CodeplugStores.BankOfFile` | platform/drivers/CPS/cps_io_libc.c:266-283 | each offset entry points at its bank, whose header is found there |
| `CodeplugStores.EntryOfFile` | platform/drivers/CPS/cps_io_libc.c:285-308 | each bank entry is found where the reading code looks |
| `Codeplugs.OffsetsInserted` | platform/drivers/CPS/cps_io_libc.c:432-441 | inserting a bank moves exactly the later offsets by its size |
| `Codeplugs.OffsetsReplaced` | platform/drivers/CPS/cps_io_libc.c:463-472 | a longer bank moves exactly the later offsets by the difference |
| `Codeplugs.BankPutIn` | platform/drivers/CPS/cps_io_libc.c:430-445 | with the table adjusted and the header rewritten, inserting the header of an empty bank at its offset gives the codeplug with the bank |
| `Codeplugs.HeaderPutIn` | platform/drivers/CPS/cps_io_libc.c:430-445 | inserting any bank header there gives that file with the empty bank's header overwritten, and the same file if and only if the header announces no entries |
| `Codeplugs.EntryPutIn` | platform/drivers/CPS/cps_io_libc.c:473-486 | with the later offsets raised, rewriting the bank header and inserting the word gives the codeplug with the entry |
| `Codeplugs.EntrySet` | platform/drivers/CPS/cps_io_libc.c:356-378 | overwriting an entry's word sets that entry and moves nothing |
| `Codeplugs.ContactsStayNamed` | platform/drivers/CPS/cps_io_libc.c:92-119 | after an insertion every M17 or DMR channel that named a live contact names the same contact |
| `Codeplugs.EntryStaysNamed` | platform/drivers/CPS/cps_io_libc.c:361-378 | after a channel insertion a bank entry names the same channel if and only if that channel did not move or the entry's position is at most the number of banks |
| `Codeplugs.EntryGoesAstray` | platform/drivers/CPS/cps_io_libc.c:361-378 | a well-formed codeplug with one bank whose third entry ends up naming another channel |
| `CodeplugStores.CodeplugStore.ReadContact` | platform/drivers/CPS/cps_io_libc.c:239-249 | returns the contact, or -1 beyond the last |
| `CodeplugStores.CodeplugStore.ReadChannel` | platform/drivers/CPS/cps_io_libc.c:251-264 | returns the channel, or -1 beyond the last |
| `CodeplugStores.CodeplugStore.ReadBankHeader` | platform/drivers/CPS/cps_io_libc.c:266-283 | returns the bank's name and entry count, or -1 beyond the last |
| `CodeplugStores.CodeplugStore.ReadBankData` | platform/drivers/CPS/cps_io_libc.c:285-308 | returns the entry as a signed 32-bit number, or -1 |
| `CodeplugStores.CodeplugStore.WriteContact` | platform/drivers/CPS/cps_io_libc.c:310-320 | replaces one contact, or returns -1 and changes nothing |
| `CodeplugStores.CodeplugStore.WriteChannel` | platform/drivers/CPS/cps_io_libc.c:322-335 | replaces one channel, or returns -1 and changes nothing |
| `CodeplugStores.CodeplugStore.SeekBank` | platform/drivers/CPS/cps_io_libc.c:363-370 | where the bank's header is looked for: at its offset, and for a missing bank at what the bytes behind the offset table give when taken for one |
| `CodeplugStores.CodeplugStore.WriteBankData` | platform/drivers/CPS/cps_io_libc.c:356-378 | replaces one entry, or returns -1, also for positions beyond the number of banks, and changes nothing; a missing bank is refused if and only if the position exceeds the number of banks or is not below the count found where its header is looked for, and otherwise exactly the four bytes of that position behind it are overwritten |
| `CodeplugStores.MisledExactlyIf` | platform/drivers/CPS/cps_io_libc.c:363-370 | a missing bank is taken for bank j if and only if the word found is the offset of j; behind the last bank that word begins the name of the first, and zeros lead to the first |
| `CodeplugStores.MisledWrite` | platform/drivers/CPS/cps_io_libc.c:371-376 | then the entry is written into bank j |
| `CodeplugStores.CodeplugStore.GetBankDataOffset` | platform/drivers/CPS/cps_io_libc.c:159-197 | the position of a bank, or where a new one at the end begins, or -1 |
| `CodeplugStores.CodeplugStore.UpdateCtNumbering` | platform/drivers/CPS/cps_io_libc.c:92-119 | renumbers exactly the channels' contact indices at or after the position; ContactInsertionChanges says what that does to every byte |
| `CodeplugStores.CodeplugStore.UpdateChNumbering` | platform/drivers/CPS/cps_io_libc.c:128-151 | renumbers exactly the bank entries the write guard lets through |
| `CodeplugStores.CodeplugStore.InsertContact` | platform/drivers/CPS/cps_io_libc.c:380-395 | the file becomes that of the codeplug with the contact inserted, every channel otherwise byte for byte the same, or -1 and no change beyond the end |
| `CodeplugStores.CodeplugStore.InsertChannel` | platform/drivers/CPS/cps_io_libc.c:397-413 | the file becomes that of the codeplug with the channel inserted, or -1 and no change |
| `CodeplugStores.CodeplugStore.InsertBankHeader` | platform/drivers/CPS/cps_io_libc.c:415-447 | the file becomes that of the codeplug with an empty bank inserted, with the given header at the bank's place; it is the file of that codeplug if and only if the header announces no entries; -1 and no change beyond the end |
| `CodeplugStores.CodeplugStore.InsertBankData` | platform/drivers/CPS/cps_io_libc.c:449-488 | the file becomes that of the codeplug with the entry inserted; -1 and no change for a missing bank; -1 with raised offsets for a bad position |
| `AudioPaths.RequestKeepsInv` | openrtx/src/core/audio_path.cpp:103-147 | every request keeps the invariant: the suspend graph's two directions agree and name live routes only, suspenders are younger and of strictly higher priority, a route is active exactly if nobody suspends it, and the calls made for one route alternate between connect and disconnect |
| `AudioPaths.ReleaseKeepsInv` | openrtx/src/core/audio_path.cpp:184-241 | every release keeps it, so no lookup of a route fails |
| `AudioPaths.Run` | openrtx/src/core/audio_path.cpp:103-241 | hence it holds after every sequence of requests and releases |
| `AudioPaths.SuspendedHasActiveAbove` | openrtx/src/core/audio_path.cpp:184-241 | every suspended route has an active route above it, up a chain of suspenders of rising priority |
| `AudioPaths.LastRouteIsOpen` | openrtx/src/core/audio_path.cpp:184-241 | once all other routes are released, in any order, the remaining one is open, and the last call made for it is to connect |
| `AudioPaths.RequestKeepsHardware` | openrtx/src/core/audio_path.cpp:103-147 | the hardware is told source and sink only: if its connections are those of the active routes, they still are after any request, on any platform |
| `AudioPaths.ReleaseKeepsHardware` | openrtx/src/core/audio_path.cpp:184-241 | and after a release if and only if it is not one of an active route whose ends another active route has and no resumed route gets |
| `AudioPaths.MatchesExactlyIf` | openrtx/src/core/audio_path.cpp:36-241 | for every platform table, the connections are those of the active routes in every state of a run if and only if none of its releases is of that kind |
| `AudioPaths.FreeEndsAreConnected` | openrtx/src/core/audio_path.cpp:36-241 | for every platform table, they are in every run in which no request names the ends of a live route |
| `AudioPaths.RequestKeepsCompatible` | openrtx/src/core/audio_path.cpp:112-143 | for a symmetric platform table a request keeps the active routes pairwise compatible |
| `AudioPaths.ReleaseKeepsChained` | openrtx/src/core/audio_path.cpp:184-241 | if conflict is transitive, after every release a route is suspended exactly by the next route above it that it conflicts with |
| `AudioPaths.CompatibleExactlyIf` | openrtx/src/core/audio_path.cpp:112-240 | for every platform table, the active routes are pairwise compatible after every run if and only if conflict between paths is symmetric and transitive |
| `AudioPaths.ConnectedExactlyIf` | openrtx/src/core/audio_path.cpp:36-240 | for every platform table, exactly the connections of the active routes are there after every run if and only if conflict between paths is an equivalence relation |
| `AudioPaths.LastRouteIsConnected` | openrtx/src/core/audio_path.cpp:184-241 | after such a run, or any run if conflict is an equivalence relation, releasing all other routes leaves the connection of the remaining one and no other |
| `AudioPaths.TwinTrapCutsOff` | openrtx/src/core/audio_path.cpp:184-241 | for every table with three paths that conflict in a row but not at the ends: seven calls after which a route is open and active and its connection is not there |
| `AudioPlatforms.StubIsAlwaysRight` | platform/drivers/stubs/audio_stub.c:45-57 | the platform without audio meets both conditions |
| `AudioPlatforms.Cs7000OpensIncompatibles` | platform/drivers/audio/audio_CS7000.cpp:199-212 | a run of three requests and a release that leaves incompatible routes open on the CS7000 |
| `AudioPlatforms.Cs7000CutsOffTheReceiver` | platform/drivers/audio/audio_CS7000.cpp:199-212 | four requests and three releases after which the receiver's path to the speaker is open and alone, and nothing is connected |
| `AudioPlatforms.TtwrPlusOpensIncompatibles` | platform/drivers/audio/audio_ttwrplus.c:56-78 | such a run of three requests and a release on the T-TWR Plus |
| `AudioPlatforms.TtwrPlusCutsOffTheReceiver` | platform/drivers/audio/audio_ttwrplus.c:56-78 | and such a run of four requests and three releases |
| `AudioPlatforms.SwappedMatrixFails` | platform/drivers/audio/audio_MDx.cpp:27-39 | every matrix whose first two rows are in the opposite order to its columns fails both: MIC to RTX and then RTX to SPK, both at the lowest priority, are left open together though incompatible one way round |
| `AudioPlatforms.MatricesFail` | platform/drivers/audio/audio_linux.c:12-23 | the matrix of the Linux target, which audio_GDx.c:14-26 and audio_Mod17.c:14-26 share, and that of the MDx are of this kind |
| `AudioPlatforms.LinuxMatrixIs` | platform/drivers/audio/audio_linux.c:12-23 | that matrix lets connections go together that share no end, with the first one's speaker and transmitter exchanged for the microphone |
| `AudioPlatforms.MdxMatrixIs` | platform/drivers/audio/audio_MDx.cpp:27-39 | the MDx matrix takes two pairs away |
| `AudioPlatforms.TtwrPlusIs` | platform/drivers/audio/audio_ttwrplus.c:56-78 | only receiving to the speaker and transmitting from the microphone go together |
| `AudioPaths.RequestMeans` | openrtx/src/core/audio_path.cpp:103-147 | in every reachable state a request is accepted if and only if no field is -1 and every active route is compatible with it or has a lower priority; then exactly the incompatible active routes are suspended, by it alone, and leave the active set |
| `AudioPaths.Arbiter.Request` | openrtx/src/core/audio_path.cpp:103-147 | the code of a request: an id if and only if that holds, a fresh one, with those effects, on calls and connections as well; or -1 and no change |
| `AudioPaths.Arbiter.FindLosers` | openrtx/src/core/audio_path.cpp:110-127 | finds exactly the active routes that the platform does not let be open with the new path, unless one of them has no lower priority |
| `AudioPaths.ReleaseMeans` | openrtx/src/core/audio_path.cpp:184-241 | a release lets whoever suspended the route suspend what it suspended, lets exactly those resume that only it had suspended, if it was active, and changes no path |
| `AudioPaths.Arbiter.Release` | openrtx/src/core/audio_path.cpp:184-241 | the code of a release, with its loops over both sides of the suspend graph, has exactly these effects and those on calls and connections |
| `AudioPaths.Arbiter.GetStatus` | openrtx/src/core/audio_path.cpp:171-182 | open exactly for the members of the active set, closed exactly for unknown routes; a suspended route waits for an active one of higher priority; and where the hardware matches the active set an open route is connected |
| `Crc.CrcCcitt` | openrtx/src/core/crc.c:27-40 | the shift trick equals the bit-by-bit register with generator 0x1021 on every message |
| `Crc.CrcM17` | openrtx/src/core/crc.c:9-25 | the nibble table equals the register with generator 0x5935 started at 0xFFFF |
| `Crc.CcittIsLinear` | openrtx/src/core/crc.c:27-40 | on messages of equal length the CRC of a sum is the sum of the CRCs |
| `Crc.CrcAppendedIsZero` | openrtx/src/core/crc.c:27-40 | a message followed by two bytes leaves the register at zero if and only if the bytes are its CRC |
| `Crc.BurstChangesCrc` | openrtx/src/core/crc.c:27-40 | no two messages that differ in a burst of at most 16 bits have the same CRC, wherever the burst lies |
| `Crc.BurstIsDetected` | openrtx/src/core/crc.c:27-40 | also when the burst reaches into the CRC itself |
| `Crc.CcittCheckValue` | openrtx/src/core/crc.c:27-40 | the published check value: the characters 1 to 9 give 0x31C3 |
| `Crc.M17CheckValue` | openrtx/src/core/crc.c:9-25 | and 0x772B |
| `Xmodem.PacketIsAccepted` | openrtx/src/core/xmodem.c:43-105 | what xmodem_sendPacket sends is accepted if and only if it has the expected number |
| `Xmodem.BurstIsRefused` | openrtx/src/core/xmodem.c:96-102 | a packet with a burst of at most 16 bits in payload or CRC is refused |
| `Xmodem.NumberIsChecked` | openrtx/src/core/xmodem.c:96-98 | a packet whose number bytes are altered is refused |
| `Xmodem.SendPacket` | openrtx/src/core/xmodem.c:43-72 | puts the packet on the line, and nothing for sizes other than 128 and 1024 |
| `Xmodem.ReceivePacket` | openrtx/src/core/xmodem.c:74-105 | skips to the next header byte and returns the frame's payload and verdict, or waits forever |
| `Xmodem.SendData` | openrtx/src/core/xmodem.c:107-178 | for every input the code, which fetches each block from the flash by the callback, sends and returns what the sender's step function says of the flash's contents |
| `Xmodem.ReceiveData` | openrtx/src/core/xmodem.c:180-227 | for every input the code, which writes each block by the callback before it acknowledges it, replies, writes and returns what the receiver's step function says |
| `XmodemTranscripts.PacketBytes` | openrtx/src/core/xmodem.c:43-72 | a packet is 01 or 02, the number, 255 minus the number, 128 or 1024 bytes and the CRC, high byte first |
| `XmodemTranscripts.OneBlockIsSent` | openrtx/src/core/xmodem.c:107-178 | after 43 the first block goes out with number 1, filled up with 1A, after 06 the byte 04, and the next 06 ends the transfer |
| `XmodemTranscripts.FailureIsSent` | openrtx/src/core/xmodem.c:128-133 | if the source fails, 18 goes out and the result is -1 |
| `XmodemTranscripts.OthersAreIgnored` | openrtx/src/core/xmodem.c:107-178 | 15 repeats the block, and all other bytes are ignored |
| `XmodemTranscripts.OneBlockIsReceived` | openrtx/src/core/xmodem.c:180-227 | the receiver sends 43, answers a good packet with 06 and the 04 after the last one with 06 |
| `XmodemTranscripts.OtherNumberIsRefused` | openrtx/src/core/xmodem.c:180-227 | and a packet with another number with 15 |
| `XmodemLink.StepKeepsInv` | openrtx/src/core/xmodem.c:107-227 | every step of the two ends, with any damage that the receiver notices, keeps the invariant of the joined system |
| `XmodemLink.TransferIsSafe` | openrtx/src/core/xmodem.c:107-227 | in every run the receiver has been given a prefix of the source, block by block, each once; block numbers agree; ends that finish have handled all the bytes |
| `XmodemLink.SettledStates` | openrtx/src/core/xmodem.c:107-227 | a run can only end done, with a failed source, or waiting for a padded block that is not sent again |
| `XmodemLink.WholeTransferCompletes` | openrtx/src/core/xmodem.c:107-227 | a transfer of whole blocks ends after 2*(size/1024) + 3 + 2*damages moves, with both ends done |
| `XmodemLink.PaddedTransferStarves` | openrtx/src/core/xmodem.c:149-163 | if the last block is padded, damaging it once leaves both ends waiting forever |
| `XmodemLink.CompletesExactlyIfWhole` | openrtx/src/core/xmodem.c:107-227 | every run comes to its end if and only if the size is a multiple of 1024 |
| `XmodemLink.ReceiverIsTheProgram` | openrtx/src/core/xmodem.c:180-227 | in every run the receiving end is where xmodem_receiveData is after the same bytes |
| `XmodemLink.SenderIsTheProgram` | openrtx/src/core/xmodem.c:107-178 | and the sending end is where xmodem_sendData is |
| `FlashMemory.Flash.GetData` | openrtx/src/core/backup.c:20-26 | reads the next bytes of the flash and moves on, or fails beyond its end |
| `FlashMemory.Flash.WritePage` | platform/drivers/NVM/W25Qx.c:231-274 | clears exactly the bits that are clear in the data, in the bytes that lie in the page of 256 bytes that the address is in |
| `FlashMemory.Flash.WriteData` | openrtx/src/core/backup.c:28-45 | erases the sector at each 4 kB boundary and writes the block page by page |
| `Backup.Dump` | openrtx/src/core/backup.c:47-52 | sends the flash from its beginning; memAddr is at its end if the transfer succeeds |
| `Backup.Restore` | openrtx/src/core/backup.c:54-59 | whatever arrives, the flash is what writing the delivered blocks in order makes of it, memAddr is the number of bytes received, and the replies are the receiver's |
| `Backup.AlignedPages` | openrtx/src/core/backup.c:36-44 | from a page boundary on the page loop writes every byte |
| `Backup.BlockBytes` | openrtx/src/core/backup.c:28-45 | byte by byte what a block does: erase the sector of 4096 bytes that it begins, else clear bits where it goes |
| `Backup.BlockRestored` | openrtx/src/core/backup.c:28-45 | every block lands in an erased sector, whose rest stays erased |
| `Backup.DeliveredIsRestored` | openrtx/src/core/backup.c:28-45 | an image delivered block by block is restored whatever the flash held before |
| `Backup.DumpThenRestore` | openrtx/src/core/backup.c:20-59 | however packets are damaged, a dump that is restored ends, both ends report the flash's size, and the written flash equals the one that was read |
| `Dsp.DcStepKeepsInv` | openrtx/src/core/dsp.cpp:18-22 | accum - prevIn stays in [-2^30, 2^30 + 2^15) under every 16-bit sample, and every intermediate sum fits 32 bits |
| `Dsp.DcRunKeepsInv` | openrtx/src/core/dsp.cpp:9-25 | for every run from reset |
| `Dsp.PrevOutInClosedForm` | openrtx/src/core/dsp.cpp:18-22 | each output is the sample less 164 / 2^15 of the sum of all outputs before, rounded down |
| `Dsp.PrevOutsAddUpToLittle` | openrtx/src/core/dsp.cpp:9-25 | the sum of prevOut over any run is bounded by a constant |
| `Dsp.SampleIsExactIf` | openrtx/src/core/dsp.cpp:18-24 | a sample is returned uncut if and only if the carry after it plus 2^15 times the sample lies in [-2^30, 2^30) |
| `Dsp.ExactUpToQuarterScale` | openrtx/src/core/dsp.cpp:9-25 | for every amplitude, all runs of such inputs return prevOut uncut if and only if the amplitude is at most 0x3FFF |
| `Dsp.ReturnedAddUpToLittle` | openrtx/src/core/dsp.cpp:9-25 | no DC at the output: up to that amplitude the returned samples of every run add up to a sum bounded in terms of the amplitude |
| `Dsp.HalfSwingWraps` | openrtx/src/core/dsp.cpp:24 | a run of amplitude 0x4000 after which the returned sample is -0x8000 where prevOut is 0x8000 |
| `Dsp.FullSwingWraps` | openrtx/src/core/dsp.cpp:24 | a run after which the returned sample is -1 where prevOut is 65535 |
| `Dsp.DcBlock.Filter` | openrtx/src/core/dsp.cpp:9-25 | the code on 32-bit integers, without overflow, does the specified step and returns prevOut cut to 16 bits |
| `Dsp.DcBlock.RemoveOffset` | openrtx/include/core/dsp.h:56-61 | filters a buffer in place |
| `Dsp.Decimator.Decimate` | openrtx/src/core/dsp.cpp:27-42 | for every 16-bit ratio: the call that makes the pending samples as many as the ratio yields their truncated average, without overflow; a ratio that has become smaller yields their sum over it, cut to 16 bits |
| `Dsp.AverageFits` | openrtx/src/core/dsp.cpp:35 | the average fits 16 bits |
| `Dsp.TruncatedExactlyIf` | openrtx/src/core/dsp.cpp:35 | the division is towards zero |
| `Fir.Fir.Filter` | openrtx/include/core/fir.hpp:50-72 | the doubled buffer and the loop unrolled by four give the convolution of the taps with all inputs so far |
| `Fir.ConvolutionAdds` | openrtx/include/core/fir.hpp:50-72 | a sum of inputs gives the sum of the outputs |
| `Fir.ConvolutionScales` | openrtx/include/core/fir.hpp:50-72 | a multiple of the input gives that multiple of the output |
| `Fir.ImpulseGivesTaps` | openrtx/include/core/fir.hpp:50-72 | the answer to an impulse is the taps in their order and then nothing |
| `Iir.Iir.Filter` | openrtx/include/core/iir.hpp:51-69 | the code on its circular history computes the direct-form-II values |
| `Iir.DoubleIsSymmetric` | openrtx/include/core/iir.hpp:51-69 | weighting by two coefficient lists in either order gives the same |
| `Iir.DifferenceEquation` | openrtx/include/core/iir.hpp:51-69 | the outputs satisfy sum a[i]*y[n-i] = sum b[i]*x[n-i] with a[0] = 1 and zero history, for every order, run and step |
| `Iir.SecondOrder` | openrtx/include/core/iir.hpp:51-69 | for three coefficients: y[k] + a1*y[k-1] + a2*y[k-2] = b0*x[k] + b1*x[k-1] + b2*x[k-2] |
| `Goertzel.StatesAreLags` | openrtx/include/core/goertzel.hpp:44-52 | the two states are correlations of the samples with the Chebyshev sequence T |
| `Goertzel.PowerIsDoubleSum` | openrtx/include/core/goertzel.hpp:67-80 | power equals the double sum of x[i]*x[j]*T(|i-j|) |
| `Goertzel.PowerOfTwo` | openrtx/include/core/goertzel.hpp:44-80 | for two samples that is a^2 + b^2 + k*a*b |
| `Goertzel.SilenceKeepsPower` | openrtx/include/core/goertzel.hpp:44-80 | feeding zeros leaves power unchanged |
| `Goertzel.Goertzel.Sample` | openrtx/include/core/goertzel.hpp:44-52 | updates every tone of the bank |
| `Goertzel.Goertzel.Samples` | openrtx/include/core/goertzel.hpp:60-64 | feeds a buffer of samples |
| `Goertzel.Goertzel.PowerOf` | openrtx/include/core/goertzel.hpp:67-80 | returns that double sum, or 0 for a tone outside the bank |
| `Graphics.Canvas.SetPixel` | openrtx/src/core/graphics.c:195-225 | cell k of the buffer is the pixel in column k % width and row k / width; that of the pixel gets the colour if it is on the screen, and all others stay |
| `Graphics.Canvas.DrawLine` | openrtx/src/core/graphics.c:227-280 | in the same cells: exactly the line's pixels get the colour |
| `Graphics.MinorIs` | openrtx/src/core/graphics.c:259-279 | the error accumulator is the remainder of a rounded division |
| `Graphics.MinorExactlyIf` | openrtx/src/core/graphics.c:259-279 | that division rounds to the nearest number, and halves down |
| `Graphics.LineIsStraight` | openrtx/src/core/graphics.c:227-280 | one pixel per step along the longer side, at most one step aside each, both ends included, none further than half a cell from the ideal line, and the same pixels when drawn from the other end |
| `Graphics.Canvas.DrawCircle` | openrtx/src/core/graphics.c:311-366 | in the same cells: exactly the pixels of the circle of some arc get the colour |
| `Graphics.CircleIs` | openrtx/src/core/graphics.c:318-358 | a pixel is on it if and only if its distances from the centre along the axes are 0 and r or those of an offset of the arc, in either order |
| `Graphics.PointStep` | openrtx/src/core/graphics.c:330-339 | every offset (x, y) of the loop has |x^2 + y^2 - r^2| <= y |
| `Graphics.ArcStep` | openrtx/src/core/graphics.c:330-339 | the loop keeps its accumulators exact and in 16 bits, and before the diagonal y is the whole number nearest to the circle |
| `Datetime.TimeInfo.Realign` | openrtx/src/core/datetime.c:66-151 | on 8-bit fields and for every month: reads in front of the month table if and only if the time, after carrying, lies before its year, or in month 0 not in the year before; otherwise a normal date, which is the meant one if and only if the month is not 0, no field wraps and the year 2256 is not reached |
| `Datetime.TimeInfo.RealignTimeOfDay` | openrtx/src/core/datetime.c:71-105 | seconds, minutes and hours are brought into range, and the time stays the same if and only if no field wraps |
| `Datetime.TimeInfo.RealignMonth` | openrtx/src/core/datetime.c:107-117 | months out of range are brought into 0 to 11 carrying into the year, which is cut to 8 bits |
| `Datetime.TimeInfo.EarlierMonths` | openrtx/src/core/datetime.c:122-136 | the loop back over the months ends in front of the table if and only if the time is not readable; otherwise at a normal date of the same day |
| `Datetime.TimeInfo.LaterMonths` | openrtx/src/core/datetime.c:138-151 | the loop over later months ends at a date within its month, on the same day up to the wraps of the year field |
| `Datetime.YearIsTwelveMonths` | openrtx/src/core/datetime.c:24-33 | the months of a year add up to its days, leap years included |
| `Gregorian.SecondsAreCivil` | openrtx/src/core/datetime.c:11-33 | days and seconds are those of the Gregorian calendar by its closed formula, for every date from 2000 on |
| `Gregorian.MonthLengthIsCivil` | openrtx/src/core/datetime.c:11-33 | thirty days have April, June, September and November; February has 29 in years divisible by 4 but not by 100, or by 400; the others 31 |
| `Gregorian.NormalExactlyIf` | openrtx/src/core/datetime.c:66-151 | a date is normal if and only if it is a second of a day that this calendar has |
| `Datetime.SecondsAreUnique` | openrtx/src/core/datetime.c:66-151 | two normal dates at the same second are the same |
| `Datetime.UtcToLocalTime` | openrtx/src/core/datetime.c:37-46 | in bounds if and only if the shift does not lead back past 1 January; then a normal date, which is 30 minutes per zone away if and only if that is before 2256 |
| `Datetime.LocalTimeToUtc` | openrtx/src/core/datetime.c:48-57 | likewise in the other direction |
| `Datetime.ThereAndBack` | openrtx/src/core/datetime.c:37-57 | going there and back gives the same date, and works if and only if the shifted time lies in the same year |
| `Datetime.NewYearGoesAstray` | openrtx/src/core/datetime.c:124-135 | midnight of any 1 January shifted one zone west reads outside the table |

## Left out

- QrSymbol.InitBytes: the version tables, drawFunctionPatterns and the penalty score are not modelled; what the encoder needs of a row of the tables is a precondition, the two bits of the error correction level are a parameter, the grids start with function patterns drawn that leave as many free modules as the table says and reserve those of the format, and the penalty is any function of the symbol.
- QrSymbol.InitBytes: a text that is too long is excluded by a precondition, since the original leaves that case open (line 769); text bytes are unsigned, and only their low eight bits reach the symbol in byte mode.
- Masking.ChooseMask: penalties are below INT32_MAX, as the original's initial minimum requires.
- Builds with a fixed LOCK_VERSION of the QR encoder, which differ in two stride adjustments.
- CodeplugStores.CodeplugStore.InsertContact: as in the other insertions, counts stay below 65536 and the file below 2^32 bytes; beyond that the original's counters wrap.
- CodeplugStores.CodeplugStore.WriteBankData: a short read at the end of the file is taken to leave the rest of its structure zero, and a position is a 64-bit long.
- Codeplug files that are not well-formed, errors and buffering of stdio, cps_create and cps_open, cps_writeBankHeader (its seek at line 351 does not follow the layout), and the deletion functions, which have no body here.
- AudioPaths.Arbiter.Request: path identifiers do not run out; the original's counter is a C int.
- AudioPaths.CompatibleExactlyIf: as in ConnectedExactlyIf, runs and tables are those of the three sources, three sinks and four priorities of the original's enumerations; the invariants hold for any path.
- audioPath_getInfo, which adds nothing to the status.
- Xmodem.SendData: the callback is that of the flash backup, as is the one of ReceiveData; no other caller is modelled.
- XmodemLink.TransferIsSafe: damage that turns a packet into another acceptable one, that alters its first byte or its length, and damaged or lost control bytes are outside the model; BurstIsRefused and NumberIsChecked say which damage is noticed.
- The flash driver's waiting, busy checks and sleep commands; erasing a sector sets all its bits, a page write clears bits.
- Rounding of floating point in the filters: Fir, Iir and Goertzel work on real numbers. A Goertzel sample is any whole number.
- Graphics.Canvas.SetPixel: opaque colours in a 16-bit frame buffer; blending, the black-and-white buffer and the conversion of colours are left out.
- Graphics.Canvas.DrawCircle: the radius is at most 16384, beyond which -2 * r leaves 16 bits, and the circle's coordinates fit 16 bits, as do a line's coordinates and differences in DrawLine; the accumulators of the circle are proved to fit, and those of the line stay between minus and plus its length.
- Datetime.TimeInfo.Realign: which second is meant is not said of months that carry the year out of 2000 to 2255.
- The day of the week, which the original does not realign either.
- Hardware drivers, USB, codec, voice prompts, user interface, text rendering, M17 frames and modulation, queues and channels, scripts.
