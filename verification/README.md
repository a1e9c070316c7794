# Verification of Leave

Leave lets a phone drive a coding agent on a host through an untrusted relay. These Dafny modules
model the parts of it that are easy to get subtly wrong and prove what they promise. `dafny verify
dfyconfig.toml` checks everything.

**QR codes** (`Bytes`, `Arithmetic`, `Sequences`, `BitStrings`, `Gf256`, `GaloisPowers`,
`GaloisTables`, `ReedSolomon`, `ErrorCorrection`, `Bch`, `Qr*`). The pairing code is drawn by an
encoder written from scratch: byte mode, level M, versions 1 to 10 of ISO/IEC 18004:2015. `Gf256`
defines the field by shift and reduce; `GaloisPowers` shows that 2 generates it, which is why the
logarithm tables of `GaloisTables` work. `ReedSolomon` proves the shift register against polynomial
division, and `ErrorCorrection` what its words are good for: up to n damaged words show, up to n / 2
can be repaired in only one way. `Bch` and `QrWords` do the same for the words that name version and
mask. `QrFraming`, `QrBlocks`, `QrLayout`, `QrCapacity`, `QrReserved`, `QrPatterns`, `QrPlacement`,
`QrFormat` and `QrPenalty` follow the source's functions, with their loops over arrays and matrices.
`QrEncoder` adds a reader as a specification and proves that every symbol, whichever mask won, reads
back to the data, and that a damaged one still determines mask and data.

**Codecs** (`Base64`, `Codec`, `Provider`, `Vectors`, `Pairing`). Base64 with its 32-bit
accumulator, the length-prefixed state encoding, the sorted export of key storage, interoperability
vectors and pairing frames. Each reader is characterised exactly. Those of values, vectors and
pairing frames accept a byte string if and only if it starts with the encoding of something within
the 32-bit limits; the one of key storage also takes entries out of order or repeated.

**Host protocols** (`EventLog`, `LiveMerge`, `Permissions`, `Prompts`). The append-only event log
with cursor replay, the client's merge of live events, permission requests raced by decisions,
cancellations and timeouts, and prompts claimed by command identifier. Where tasks interleave, a
step is one stretch of code between two awaits or locks, a time-out being two of them, and the
theorems hold at every moment of every run.

**Relay and serve loop** (`RateLimit`, `RelayRoute`, `Protocol`, `Tunnel`, `RouteService`). The ring
buffer of a route, its fan-out and rate limit, the classification of tunnelled requests, and the
host's loop over opened frames with pairing and revocation.

**Text** (`LineEndings`, `Timeline`). Saving without changing line endings, and the bubbles of a
session.

Code that changes state is a class or a method with loops, proved against a function or predicate
about values; the lemmas are about those.

Eight statements one might expect are false of the code. The model has a run or an input that shows
it, and says exactly when they hold:

- "A session with a live turn is marked working, so it has one turn at a time." Cancel, resume and
  create set it idle. `Prompts.CancelAllowsTwoTurns` is a run, `Prompts.CancelNeedsQuiet` the exact
  condition.
- "A working session has a live turn or is about to get one." Failing to log a prompt, to spawn its task
  or to save the end of its turn leaves a session working, and it refuses every further prompt until it
  is cancelled, resumed or taken offline. `Prompts.UnloggedPromptStrands` is a run, `Prompts.StuckExactly`
  the exact condition.
- "A decision that is reported as a success is what the agent gets." `Permissions.LateDecisionIsLost`
  and `Permissions.InTimeDecisionIsLost` are runs in which it is not. `Permissions.DecisionIsHonoured`
  is the exact condition: an answer is sent at all (the waiter is spawned and responding succeeds), and
  the decision came before the waiter's time-out or says nothing.
- "A paired phone can answer ordinary approvals", as apps/leave/src/relay_tunnel.rs:41-42 says.
  The local API decides permissions at a path of their own (apps/leave/src/local_server.rs:336-339),
  which the tunnel classifies as an edit: `Tunnel.DecidingIsEditing` says who may do it,
  `RouteService.PhonesDecideNothing` that no phone ever does.
- "An owner can revoke a phone", as apps/leave/src/relay_tunnel.rs:197-201 says. No device ever becomes
  an owner: `RouteService.RevocationsAreRefused`. `RouteService.OnlyOwnersRevoke` says what it would
  take.
- "Following the cursor of a page brings only new events." An empty page reports cursor 0:
  `EventLog.EmptyPageRepeats` is a run, and `EventLog.EmptyPageCursor` says that following it repeats
  events exactly when the client's own cursor was beyond 0.
- "At most 100 frames in every half-open second are never too many." The rate limit reads the clock
  twice for the first frame of a window: `RateLimit.SlowClockCutsOff` shows an endpoint within the
  rate that is cut off, for any gap of up to two seconds between the readings, and
  `RateLimit.NeverCutExactly` is the exact condition.
- "Saving what was saved changes nothing." `LineEndings.SecondSaveChanges` is a text for which it
  does, `LineEndings.LfIsStable` the exact condition, and for CR LF files it holds
  (`LineEndings.CrlfIsStable`).

## Model

| member | source | states |
|---|---|---|
| `Gf256.MulAssociates` | apps/web/src/lib/qr.ts:178-181 | multiplication of bytes modulo 0x11d is associative |
| `Gf256.MulCommutes` | apps/web/src/lib/qr.ts:178-181 | multiplication of bytes modulo 0x11d is commutative |
| `Gf256.MulAddLeft` | apps/web/src/lib/qr.ts:178-181 | multiplication distributes over exclusive or |
| `GaloisPowers.OrderIs255` | apps/web/src/lib/qr.ts:165-176 | no exponent between 0 and 255 gives 1, so 2 generates the field |
| `GaloisPowers.PowerInjective` | apps/web/src/lib/qr.ts:167-176 | the 255 values stored in the antilog table are different |
| `GaloisPowers.EveryByteIsPower` | apps/web/src/lib/qr.ts:167-176 | every non-zero byte is in the antilog table, so every logarithm is set |
| `GaloisPowers.NoZeroDivisors` | apps/web/src/lib/qr.ts:178-181 | a product is zero only if a factor is |
| `GaloisTables.Tables.constructor` | apps/web/src/lib/qr.ts:165-176 | the table loops leave exp[i] = 2^i for all 512 entries and log as its inverse |
| `GaloisTables.Tables.Multiply` | apps/web/src/lib/qr.ts:178-181 | the sum-of-logarithms lookup is field multiplication for all 65536 pairs |
| `ReedSolomon.ValueProduct` | apps/web/src/lib/qr.ts:185-193 | evaluating a product polynomial is multiplying the values, so roots of the generator are roots of every multiple |
| `ReedSolomon.GeneratorRoots` | apps/web/src/lib/qr.ts:184-193 | the generator of degree n vanishes at 2^0, ..., 2^(n-1) |
| `ReedSolomon.NextGenerator` | apps/web/src/lib/qr.ts:186-191 | one round of the generator loop multiplies the polynomial by x - root, in place on a fresh array |
| `ReedSolomon.Feed` | apps/web/src/lib/qr.ts:195-201 | one byte through the shift register keeps "data = quotient times generator plus register" |
| `ReedSolomon.Encode` | apps/web/src/lib/qr.ts:183-203 | for every data list and every length from 1 to 255 the shift register ends with the remainder of D(x) x^n by the generator (section 7.5.2 of ISO/IEC 18004:2015) |
| `ReedSolomon.CodewordIsMultiple` | apps/web/src/lib/qr.ts:183-203 | data followed by its remainder is a multiple of the generator |
| `ReedSolomon.SyndromesVanish` | apps/web/src/lib/qr.ts:183-203 | data followed by its remainder is zero at 2^0, ..., 2^(n-1) |
| `ReedSolomon.FewRoots` | apps/web/src/lib/qr.ts:183-203 | a polynomial with n coefficients that vanishes at n different powers is zero |
| `ReedSolomon.SyndromesDetermine` | apps/web/src/lib/qr.ts:183-203 | the remainder is the only tail with vanishing syndromes, so any change confined to it is detected |
| `ErrorCorrection.MomentsDetermine` | apps/web/src/lib/qr.ts:183-203 | as many vanishing power sums as distinct points leave no coefficient but zero |
| `ErrorCorrection.ValueIsMoment` | apps/web/src/lib/qr.ts:183-203 | a syndrome is a power sum over the damaged positions |
| `ErrorCorrection.CodewordsAreFarApart` | apps/web/src/lib/qr.ts:183-203 | two different blocks of at most 255 words with vanishing syndromes differ in more than n words, n being the number of error correction words |
| `ErrorCorrection.DamageShows` | apps/web/src/lib/qr.ts:183-203 | damage to one up to n words of a block shows in a syndrome |
| `ErrorCorrection.RepairIsUnique` | apps/web/src/lib/qr.ts:183-203 | at most one block is within n / 2 words of what was read |
| `ErrorCorrection.EncodedIsCodeword` | apps/web/src/lib/qr.ts:183-203 | what the encoder appends makes such a block |
| `QrVersions.DataCapacities` | apps/web/src/lib/qr.ts:25-36 | the block table gives the published level M data capacities |
| `QrVersions.BlocksAreEven` | apps/web/src/lib/qr.ts:25-36 | the published numbers of blocks, among which the data is shared out evenly, the longer blocks last and one codeword longer |
| `QrVersions.AlignmentCentres` | apps/web/src/lib/qr.ts:25-36 | the alignment centres run evenly from module 6 to the seventh from the end |
| `QrVersions.ChooseVersion` | apps/web/src/lib/qr.ts:105-112 | the least version that fits, and no version exactly above 213 bytes |
| `QrFraming.PushBits` | apps/web/src/lib/qr.ts:205-207 | appends the binary digits, the highest first |
| `QrFraming.Terminate` | apps/web/src/lib/qr.ts:127-128 | at most four zero bits, then zero bits to the byte boundary, never beyond the capacity |
| `QrFraming.PackBits` | apps/web/src/lib/qr.ts:129-132 | every eight bits become the byte they spell |
| `QrFraming.PadWords` | apps/web/src/lib/qr.ts:133-135 | alternating 0xec and 0x11 up to exactly the capacity |
| `QrFraming.FrameSegment` | apps/web/src/lib/qr.ts:122-135 | the stream is the segment, terminator, zero bits and pad bytes, and fills the capacity exactly |
| `QrFraming.BuildWords` | apps/web/src/lib/qr.ts:122-135 | header, data, terminator and padding of the version |
| `QrFraming.CodewordsAre` | apps/web/src/lib/qr.ts:114-135 | every codeword in plain arithmetic: 4, then the count in one byte or two and the data, all half a codeword on, a clear half, and 0xec and 0x11 in turn to the end |
| `QrFraming.ParseUndoesFraming` | apps/web/src/lib/qr.ts:122-135 | parsing the byte-mode header of the padded stream returns the data |
| `QrBlocks.SplitBlocks` | apps/web/src/lib/qr.ts:137-146 | the blocks cut the codewords, in order and without loss, into the prescribed lengths |
| `QrBlocks.Interleave` | apps/web/src/lib/qr.ts:149-163 | all data columns, then all error correction columns, with one remainder per block |
| `QrBlocks.PushColumns` | apps/web/src/lib/qr.ts:154-161 | the nested loops append the words column by column |
| `QrBlocks.ColumnsAt` | apps/web/src/lib/qr.ts:154-161 | word i of block j stands at its computed position of the stream |
| `QrBlocks.DeinterleaveUndoes` | apps/web/src/lib/qr.ts:149-163 | deinterleaving returns the blocks for any block list, of equal lengths or not, whatever follows |
| `QrBlocks.WordsBeforeTotal` | apps/web/src/lib/qr.ts:153-161 | the stream has exactly as many words as the blocks |
| `QrLayout.WalkVisits` | apps/web/src/lib/qr.ts:297-314 | the column walk with its jump at column 6 reaches exactly the modules outside column 6 |
| `QrLayout.ZigzagVisitsOnce` | apps/web/src/lib/qr.ts:290-316 | for every size 17 + 4v each module outside column 6 is visited exactly once (section 7.7.3 of ISO/IEC 18004:2015) |
| `QrLayout.WalkEntry` | apps/web/src/lib/qr.ts:297-314 | the closed form of the walk: row step s of pair p stands at 2 (size p + s), the right module first, at columns counted by twos from the right edge with column 6 left out, upward in even pairs and downward in odd ones |
| `QrCapacity.DataPathInOrder` | apps/web/src/lib/qr.ts:290-316 | the data modules are strictly ordered: pairs of columns from right to left, rows along the direction of the pair, right before left |
| `QrCapacity.DataPathIsFree` | apps/web/src/lib/qr.ts:298-312 | the data modules in walk order are exactly the unreserved modules, each once |
| `QrCapacity.TotalCodewordsTable` | apps/web/src/lib/qr.ts:25-36 | data and error correction words together are the published totals |
| `QrCapacity.CapacitySuffices` | apps/web/src/lib/qr.ts:290-316 | every codeword bit of the version has a data module of its own |
| `QrReserved.ReservedMatrix` | apps/web/src/lib/qr.ts:252-279 | marks exactly finders with format areas, timing, drawn alignment patterns and version information |
| `QrPatterns.FunctionPatterns` | apps/web/src/lib/qr.ts:213-231 | the colour of every module of finders, timing, alignment, dark module and version information, all others light |
| `QrPatterns.DrawVersionInfo` | apps/web/src/lib/qr.ts:382-391 | both copies of the version word, and nothing else changes |
| `Bch.RemainderIs` | apps/web/src/lib/qr.ts:340-380 | for any generator and any data below its degree, the division loop ends with the one remainder that makes data and remainder a multiple of the generator over GF(2) |
| `Bch.WordAdd` | apps/web/src/lib/qr.ts:340-380 | the words of such a code add: the exclusive or of two words is the word of the exclusive or of their data |
| `QrWords.VersionWordIs` | apps/web/src/lib/qr.ts:373-380 | a number is the version word exactly when it is a multiple of 0x1f25 with the version above its twelve low bits |
| `QrWords.FormatWordIs` | apps/web/src/lib/qr.ts:340-348 | a number is the unmasked format word exactly when it is a multiple of 0x537 with the mask number above its ten low bits |
| `QrWords.VersionDistance` | apps/web/src/lib/qr.ts:373-380 | different version words differ in at least eight modules |
| `QrWords.FormatDistance` | apps/web/src/lib/qr.ts:340-348 | the format words of different masks differ in at least seven modules |
| `QrWords.VersionCorrectsThree` | apps/web/src/lib/qr.ts:373-391 | up to three wrong modules in a copy leave only one version possible |
| `QrWords.FormatCorrectsThree` | apps/web/src/lib/qr.ts:340-370 | up to three wrong modules in a copy leave only one mask possible |
| `QrPatterns.VersionBits` | apps/web/src/lib/qr.ts:373-380 | the loop yields the multiple of 0x1f25 that has the version in its high bits |
| `QrPatterns.PatternsAreReserved` | apps/web/src/lib/qr.ts:213-279 | every dark function module is reserved, so data never covers it |
| `QrPatterns.TimingAlternates` | apps/web/src/lib/qr.ts:218-227 | alignment patterns that cross a timing pattern agree with it, so timing alternates throughout |
| `QrPatterns.FindersAreSeen` | apps/web/src/lib/qr.ts:215-217 | each corner shows a complete finder pattern with a light separator, untouched by what is drawn later |
| `QrPatterns.VersionPlaces` | apps/web/src/lib/qr.ts:382-391 | version bit 3 r + c stands in line r at place c of either copy, one by rows and one by columns |
| `QrPlacement.ProductMasks` | apps/web/src/lib/qr.ts:330-335 | the three product masks, restated by the remainder of the product |
| `QrPlacement.PlainMasks` | apps/web/src/lib/qr.ts:320-327 | masks 0 to 3 by their corner and how they repeat: chessboard, rows, every third column, every third diagonal |
| `QrPlacement.TileMask` | apps/web/src/lib/qr.ts:328-329 | mask 4 is constant on tiles of 2 x 3, alternates between neighbouring tiles and is set on the first |
| `QrPlacement.CodewordBitIsStreamBit` | apps/web/src/lib/qr.ts:305-306 | the shift expression reads bit k of the codeword stream |
| `QrPlacement.PlaceData` | apps/web/src/lib/qr.ts:290-316 | codeword bit k, masked, lands in the k-th unreserved module of the walk; every reserved module is unchanged |
| `QrFormat.FormatBits` | apps/web/src/lib/qr.ts:340-348 | unmasked with 0x5412, the bits are the multiple of 0x537 that has the mask number in its high bits |
| `QrFormat.WordMask` | apps/web/src/lib/qr.ts:340-348 | the mask can be read back off the format word |
| `QrFormat.PlaceFormat` | apps/web/src/lib/qr.ts:350-370 | both copies of the format word and the dark module, and nothing else changes |
| `QrFormat.FormatIsReserved` | apps/web/src/lib/qr.ts:350-370 | format modules are reserved |
| `QrFormat.ReadMaskFinds` | apps/web/src/lib/qr.ts:340-370 | a reader of the first copy finds the mask that was used |
| `QrFormat.CopiesInOrder` | apps/web/src/lib/qr.ts:350-370 | bit by bit both copies run one way, diagonal after diagonal, the first around its corner and the second along the opposite edges |
| `QrPenalty.RunPenaltyGrows` | apps/web/src/lib/qr.ts:398-407 | appending a module adds to the sum over maximal runs what the running counter adds |
| `QrPenalty.OneColourPenalty` | apps/web/src/lib/qr.ts:398-407 | a line of one colour costs its length less two from five modules on |
| `QrPenalty.PenaltiesAddUp` | apps/web/src/lib/qr.ts:398-407 | lines that meet in different colours add up, which with the former determines the run penalty |
| `QrPenalty.LookalikeShape` | apps/web/src/lib/qr.ts:423-438 | a lookalike module by module, with its four light modules on either side |
| `QrPenalty.ScanLines` | apps/web/src/lib/qr.ts:397-408 | the two running counters add L - 2 for every maximal run of length L >= 5, for lines of any length |
| `QrPenalty.CountBlocks` | apps/web/src/lib/qr.ts:410-421 | counts exactly the 2 x 2 blocks of one colour |
| `QrPenalty.CountLookalikes` | apps/web/src/lib/qr.ts:423-438 | counts exactly the finder lookalikes with a light side |
| `QrPenalty.Score` | apps/web/src/lib/qr.ts:393-443 | the whole scan: runs, three for every block, forty for every lookalike, and the balance term |
| `QrPenalty.BalanceSteps` | apps/web/src/lib/qr.ts:440-442 | the balance term is 10 k exactly when the imbalance is between k and k + 1 steps of five percent, in whole numbers |
| `QrEncoder.StreamParts` | apps/web/src/lib/qr.ts:149-163 | the stream has the length of the version, and both kinds of blocks can be picked out of it |
| `QrEncoder.CandidateWords` | apps/web/src/lib/qr.ts:290-370 | whatever the mask, unmasking along the walk gives the codeword stream |
| `QrEncoder.CandidateReads` | apps/web/src/lib/qr.ts:64-81 | every candidate, whichever mask it uses, reads back to the data |
| `QrEncoder.CandidateHasNoErrors` | apps/web/src/lib/qr.ts:149-203 | every syndrome of every block read out of a candidate is zero |
| `QrEncoder.DamagedSymbolDeterminesData` | apps/web/src/lib/qr.ts:64-81 | a damaged matrix determines mask and data, if at most three format modules of the first copy are wrong and, unmasked along the walk, every block has at most half as many wrong words as it has error correction words |
| `QrEncoder.CandidateSurvives` | apps/web/src/lib/qr.ts:64-81 | every candidate meets that condition |
| `QrEncoder.CandidateIsUnique` | apps/web/src/lib/qr.ts:71-78 | stream and mask determine every module of the candidate |
| `QrEncoder.Candidate` | apps/web/src/lib/qr.ts:73-76 | data and format placed on a copy of the function patterns make a candidate |
| `QrEncoder.ChooseMask` | apps/web/src/lib/qr.ts:71-79 | the candidate of least penalty, the lowest mask on ties |
| `QrEncoder.EncodeQr` | apps/web/src/lib/qr.ts:64-81 | refuses exactly the data above 213 bytes; otherwise the least version, the best mask and a symbol that reads back to the data |
| `Base64.PositionOf` | crates/leave-protocol/src/tunnel.rs:208-208 | the position of a character is the one of its letter |
| `Base64.LettersAreListed` | crates/leave-protocol/src/tunnel.rs:208-208 | the 64 letters are the entries of the table in its order, and positions invert it |
| `Base64.Encode` | crates/leave-protocol/src/tunnel.rs:210-228 | the text spells the bits of the bytes and zero bits, padded to a multiple of four characters (section 4 of RFC 4648) |
| `Base64.EncodeChunk` | crates/leave-protocol/src/tunnel.rs:212-226 | one chunk of one to three bytes through a 24-bit value |
| `Base64.EncodingIsUnique` | crates/leave-protocol/src/tunnel.rs:210-228 | the encoding is determined by that description |
| `Base64.ShiftIn` | crates/leave-protocol/src/tunnel.rs:242-243 | shifting a letter into the 32-bit accumulator keeps every bit that is still to be output, although the shift drops high bits |
| `Base64.BytesOf` | crates/leave-protocol/src/tunnel.rs:230-251 | k letters hold exactly floor(6 k / 8) bytes |
| `Base64.Decode` | crates/leave-protocol/src/tunnel.rs:230-251 | an error exactly when a character before the first padding is no letter; otherwise the bytes those letters hold |
| `Base64.RoundTrip` | crates/leave-protocol/src/tunnel.rs:210-251 | decoding undoes encoding for every byte string |
| `Base64.RoundTripRuns` | crates/leave-protocol/src/tunnel.rs:210-251 | the two loops one after the other return the bytes |
| `Codec.LengthRoundTrip` | crates/leave-crypto/src/codec.rs:16-38 | a length below 2^32 survives its four bytes |
| `Codec.BytesInOrder` | crates/leave-crypto/src/codec.rs:16-20 | the smaller length has the smaller byte where the two first differ, so the bytes come highest first |
| `Codec.TakenIsPrefixed` | crates/leave-crypto/src/codec.rs:16-42 | a value is read exactly when the input starts with its encoding and its length fits 32 bits |
| `Codec.TakeUndoesPut` | crates/leave-crypto/src/codec.rs:16-42 | reading undoes writing, whatever follows, exactly for lengths below 2^32 |
| `Codec.PrefixIsRejected` | crates/leave-crypto/src/codec.rs:28-42 | no strict prefix of an encoding is read |
| `Codec.Buffer.PutBytes` | crates/leave-crypto/src/codec.rs:16-20 | appends the saturated length and the bytes |
| `Codec.Buffer.PutCount` | crates/leave-crypto/src/codec.rs:44-47 | appends the saturated count |
| `Codec.Buffer.PutHeader` | crates/leave-crypto/src/codec.rs:88-91 | appends the magic and the version |
| `Codec.Cursor.TakeBytes` | crates/leave-crypto/src/codec.rs:28-42 | returns the value at the front and moves past it, or fails and stays |
| `Codec.Cursor.TakeCount` | crates/leave-crypto/src/codec.rs:54-63 | returns the count and moves past it, or fails and stays |
| `Codec.Cursor.TakeHeader` | crates/leave-crypto/src/codec.rs:71-85 | succeeds exactly on the header, moving past it |
| `Provider.SortedIsUnique` | crates/leave-crypto/src/provider.rs:65-66 | there is only one sorted list of the keys |
| `Provider.BelowIs` | crates/leave-crypto/src/provider.rs:65-66 | one key is below another exactly when at the first difference it ends or has the smaller byte |
| `Provider.EntryLayout` | crates/leave-crypto/src/provider.rs:67-70 | length and bytes of the key, then length and bytes of the value |
| `Provider.ExportIsStable` | crates/leave-crypto/src/provider.rs:58-72 | the exported bytes depend only on the map |
| `Provider.ExportIsInjective` | crates/leave-crypto/src/provider.rs:58-72 | different maps have different exports, and none is the start of another |
| `Provider.RestoreUndoesExport` | crates/leave-crypto/src/provider.rs:29-72 | restoring an export followed by anything returns the map and what follows, exactly when count and lengths fit 32 bits |
| `Provider.RestoredIsListed` | crates/leave-crypto/src/provider.rs:29-49 | any bytes are accepted exactly when they are a count below 2^32, that many entries of such lengths in any order and with repetitions, and a rest; the map is what those entries insert |
| `Provider.LastPairWins` | crates/leave-crypto/src/provider.rs:37-41 | of the entries with the same key the last one counts |
| `Provider.ReadsAreBounded` | crates/leave-crypto/src/provider.rs:36-41 | arbitrary bytes yield at most |input| / 8 entries, whatever count they declare |
| `Provider.LeaveProvider.Export` | crates/leave-crypto/src/provider.rs:58-72 | appends an export of the stored map |
| `Provider.LeaveProvider.Restore` | crates/leave-crypto/src/provider.rs:29-49 | returns the map the bytes describe and leaves the rest, or fails; reads at most |input| / 8 entries |
| `Provider.SortedKeys` | crates/leave-crypto/src/provider.rs:64-66 | the keys in lexicographic order, whatever order the map lists them in |
| `Vectors.DecodedIsEncoded` | crates/leave-crypto/src/vectors.rs:79-108 | the decoder accepts exactly the byte strings that start with the encoding of a vector within the limits |
| `Vectors.DecodeUndoesEncode` | crates/leave-crypto/src/vectors.rs:79-108 | decoding undoes encoding with any trailing bytes, exactly for vectors within the limits |
| `Vectors.TruncationIsRejected` | crates/leave-crypto/src/vectors.rs:94-108 | every strict prefix of an encoding is refused |
| `Vectors.VectorLayout` | crates/leave-crypto/src/vectors.rs:79-87 | where header, receiver state, sealed frame, plaintext and sender stand |
| `Vectors.Encode` | crates/leave-crypto/src/vectors.rs:79-87 | writes the header and the four values |
| `Vectors.Decode` | crates/leave-crypto/src/vectors.rs:94-108 | reads the header and four values and checks the sender |
| `Pairing.AcceptedIsRequest` | crates/leave-crypto/src/pairing.rs:85-125 | a request is accepted exactly when it carries a key package and the tag the secret gives it |
| `Pairing.RequestIsAccepted` | crates/leave-crypto/src/pairing.rs:85-125 | a written request is accepted, and one tagged with another secret is refused unless the tags coincide |
| `Pairing.AcceptedIsWelcome` | crates/leave-crypto/src/pairing.rs:144-153 | a frame is accepted as a welcome exactly when it starts with the frame of a welcome whose length fits 32 bits |
| `Pairing.WelcomeRoundTrip` | crates/leave-crypto/src/pairing.rs:131-153 | reading a welcome undoes writing it, whatever follows |
| `Pairing.KindsAreDistinct` | crates/leave-crypto/src/pairing.rs:85-166 | both kinds are recognised as pairing frames and neither is ever accepted for the other |
| `Pairing.RequestLayout` | crates/leave-crypto/src/pairing.rs:85-92 | where magic, version, kind, key package and tag stand |
| `Pairing.WelcomeLayout` | crates/leave-crypto/src/pairing.rs:131-137 | where magic, version, kind and welcome stand |
| `Pairing.AcceptedIsRecognised` | crates/leave-crypto/src/pairing.rs:103-166 | whatever either reader accepts is recognised, and no frame is accepted by both |
| `Pairing.PairingRequest` | crates/leave-crypto/src/pairing.rs:85-92 | the bytes of a request |
| `Pairing.CheckRequest` | crates/leave-crypto/src/pairing.rs:108-124 | the checks that come before the group is touched |
| `Pairing.PairingWelcome` | crates/leave-crypto/src/pairing.rs:131-137 | the bytes of a welcome |
| `Pairing.ReadPairingWelcome` | crates/leave-crypto/src/pairing.rs:144-153 | reads the welcome or names the error |
| `EventLog.EventStore.UpsertWorkspace` | crates/leave-core/src/event_store.rs:122-143 | registers the workspace or changes its path, unless another workspace has that path |
| `EventLog.EventStore.AppendEvent` | crates/leave-core/src/event_store.rs:300-332 | appends with a sequence never used before, or refuses a duplicate identifier or a workspace that is not registered |
| `EventLog.EventStore.RemoveWorkspace` | crates/leave-core/src/event_store.rs:166-172 | removes the workspace and exactly its events, says whether it was there, and never gives a sequence back |
| `EventLog.EventStore.EventsAfter` | crates/leave-core/src/event_store.rs:339-382 | an ascending page of events after the cursor that belong to the workspace and, if one is named, to the session, at most limit and at most 1000, with none left out up to its last |
| `EventLog.PollAdvances` | crates/leave-core/src/event_store.rs:339-360 | a page brings as many matching events as the limit allows, and a client that gets none although it asked has them all |
| `EventLog.ReplayIsExact` | crates/leave-core/src/event_store.rs:300-382 | in every run with interleaved appends, removals, pages and sends the client holds all matching events of the log up to its cursor, in order, none twice, and nothing is sent twice; unless the followed workspace is removed it holds nothing else, and what was broadcast is in the log |
| `EventLog.EmptyPageCursor` | apps/leave/src/local_server.rs:921-931 | in every run in which the workspace is not removed, a client that follows the cursor 0 of an empty page is sent an event it holds exactly when its own cursor was beyond 0 |
| `EventLog.FirstPageRepeats` | apps/leave/src/local_server.rs:921-931 | whatever was removed: exactly when some matching event up to its cursor is still in the log |
| `EventLog.EmptyPageRepeats` | apps/leave/src/local_server.rs:921-931 | the run: one event appended, a page, an empty page, and after cursor 0 the same event again |
| `EventLog.StepKeeps` | apps/leave/src/acp.rs:711-726 | append and send are two steps; each step of host and client keeps the invariant behind the replay |
| `LiveMerge.AppendKeeps` | apps/web/src/lib/api.ts:305-312 | a live event is inserted once, in order, and the cursor stays the last sequence |
| `LiveMerge.MergeKeeps` | apps/web/src/lib/api.ts:305-312 | a merged page holds exactly the old and the arrived events |
| `LiveMerge.MergeIgnoresOrder` | apps/web/src/lib/api.ts:305-312 | any order and any repetition of the same arrivals gives the same strictly sorted page |
| `Permissions.PermissionsAreSafe` | apps/leave/src/acp.rs:253-413 | in every interleaving of requests, decisions, cancellations and timeouts: one answer per request and only with an offered option; one successful decision, which the answer follows exactly unless it came after the time was up, and then the answer is that of a time-out; logged before pending and before resolved; resolved once, with the answer |
| `Permissions.DecisionIsHonoured` | apps/leave/src/acp.rs:253-413 | at every moment of every run the agent has been told what a successful decision says exactly when an answer was sent and the decision was in time or says nothing |
| `Permissions.DecisionReachesAgent` | apps/leave/src/acp.rs:253-413 | from any state of any run: request, registration, decision for an offered option, wake-up, answer and log entry are all possible, and the agent and the log then have that option |
| `Permissions.WaitersHaveSenders` | apps/leave/src/acp.rs:253-413 | in every run the sender of a waiter that has been told nothing is pending or about to be used, so nobody is left waiting for a lost channel |
| `Permissions.InTimeDecisionIsLost` | apps/leave/src/acp.rs:363-411 | a run in which a decision is sent before the waiter is spawned and the spawn fails: the caller sees success, the agent nothing |
| `Permissions.AbandonedStays` | apps/leave/src/acp.rs:377-411 | a request whose waiter could not be spawned is never answered |
| `Permissions.LateDecisionIsLost` | apps/leave/src/acp.rs:378-382 | a run in which a decision is sent between the time-out and the drop of the receiver: the caller sees success, the agent a cancellation |
| `Permissions.GoodKept` | apps/leave/src/acp.rs:253-413 | each step keeps the invariant behind that |
| `Permissions.PermissionDesk.Receive` | apps/leave/src/acp.rs:330-361 | the request is logged, or refused when it cannot be |
| `Permissions.PermissionDesk.Register` | apps/leave/src/acp.rs:363-371 | the request becomes pending with its options |
| `Permissions.PermissionDesk.TakeForDecision` | apps/leave/src/acp.rs:258-271 | under the lock: not pending, option not offered, or the sender is taken |
| `Permissions.PermissionDesk.Deliver` | apps/leave/src/acp.rs:272-275 | the send succeeds exactly while the receiver has not been dropped, and is late after the time-out |
| `Permissions.PermissionDesk.DecidePermission` | apps/leave/src/acp.rs:253-276 | succeeds exactly for a pending request, an offered option and a receiver that has not been dropped |
| `Permissions.PermissionDesk.CancelPending` | apps/leave/src/acp.rs:685-697 | removes exactly the pending requests of the session and sends a cancellation to each waiter whose channel is open; all other tasks stay as they are |
| `Permissions.PermissionDesk.Wake` | apps/leave/src/acp.rs:378-378 | the waiter takes what was sent, or its time is up while the channel stays open |
| `Permissions.PermissionDesk.DropReceiver` | apps/leave/src/acp.rs:378-382 | the receiver is dropped and nothing is selected; only now does a send fail |
| `Permissions.PermissionDesk.Clear` | apps/leave/src/acp.rs:383-383 | the request is no longer pending |
| `Permissions.PermissionDesk.Answer` | apps/leave/src/acp.rs:384-392 | the agent gets the choice, or a cancellation |
| `Permissions.PermissionDesk.Publish` | apps/leave/src/acp.rs:393-410 | the outcome is logged |
| `Prompts.EachCommandPromptsOnce` | apps/leave/src/acp.rs:588-665 | in every run, across cancellations and restarts, each command causes at most one prompt however often it is retried |
| `Prompts.OneTurnPerSession` | apps/leave/src/acp.rs:588-665 | if cancel, resume and create only meet sessions without a live turn, a live turn means state working and no session has two |
| `Prompts.CancelNeedsQuiet` | apps/leave/src/acp.rs:538-709 | the condition is exact: at every moment of a run up to the k-th the invariant holds if and only if no cancel, resume or create before set a session with a live turn idle |
| `Prompts.CancelAllowsTwoTurns` | apps/leave/src/acp.rs:673-709 | without the condition: prompt, cancel, prompt gives two live turns |
| `Prompts.AcceptRuns` | apps/leave/src/acp.rs:588-665 | a fresh command for a session that is not working becomes a live turn |
| `Prompts.SettleFrees` | apps/leave/src/acp.rs:646-651 | the end of a turn removes that turn and makes its session idle, unless the update fails; nothing else changes |
| `Prompts.PromptAgain` | apps/leave/src/acp.rs:588-665 | prompt, reply, end of turn and a second prompt are possible from every state in which a prompt is, and leave exactly the second turn live |
| `Prompts.StuckExactly` | apps/leave/src/acp.rs:588-665 | at every moment of a run a working session has a live turn or is about to get one, if and only if no failure before left a working session without another turn |
| `Prompts.UnloggedPromptStrands` | apps/leave/src/acp.rs:613-624 | a run in which the prompt cannot be logged: the session stays working without a turn and refuses further prompts |
| `Prompts.Host.ClaimCommand` | crates/leave-core/src/event_store.rs:280-293 | new exactly once; a second claim changes nothing |
| `Prompts.Host.UpdateSessionState` | crates/leave-core/src/event_store.rs:246-260 | changes the row if there is one and says so |
| `Prompts.Host.AcceptPrompt` | apps/leave/src/acp.rs:588-665 | which prompts are refused, duplicates or accepted; refusals and duplicates prompt nothing, and a failure after the claim leaves the session working |
| `Prompts.Host.SettleTurn` | apps/leave/src/acp.rs:646-651 | the turn is gone and its session is idle unless the update fails |
| `Prompts.Host.CancelSession` | apps/leave/src/acp.rs:698-698 | the session becomes idle at once |
| `Prompts.Host.ResumeSession` | apps/leave/src/acp.rs:575-575 | the session becomes idle at once |
| `Prompts.Host.CreateSession` | apps/leave/src/acp.rs:538-546 | the session the agent names becomes idle |
| `Prompts.Host.Start` | crates/leave-core/src/event_store.rs:267-273 | a restart takes the sessions of the workspace offline and keeps the claims |
| `RateLimit.Limiter.Admit` | apps/relay/src/lib.rs:414-421 | counts the frame, in a new window once a second has passed |
| `RateLimit.ReadAll` | apps/relay/src/lib.rs:408-433 | forwards until the stream ends or a window exceeds 100 frames |
| `RateLimit.RateIsBounded` | apps/relay/src/lib.rs:408-421 | for every ordered arrival sequence any half-open span of t seconds forwards at most 100 (ceiling(t) + 1) frames |
| `RateLimit.NeverCutExactly` | apps/relay/src/lib.rs:408-421 | an endpoint that sends at most 100 frames in every half-open second is never cut off exactly when at most 100 frames come until a second after the later reading of any frame |
| `RateLimit.SteadySenderIsNeverCut` | apps/relay/src/lib.rs:408-421 | in particular if the clock never advances between its two readings for a frame |
| `RateLimit.RateKeeperIsNeverCut` | apps/relay/src/lib.rs:414-416 | that condition suffices without the bound on the rate |
| `RateLimit.SlowClockCutsOff` | apps/relay/src/lib.rs:414-416 | any gap of up to two seconds between the two readings of the first frame cuts off an endpoint within the rate |
| `RelayRoute.Channel.Send` | apps/relay/src/routes.rs:38-58 | the newest frame overwrites the oldest slot |
| `RelayRoute.Channel.Receive` | apps/relay/src/routes.rs:38-52 | the ring buffer of 256 slots behaves like the whole history with all but the last 256 frames forgotten |
| `RelayRoute.OverrunCloses` | apps/relay/src/lib.rs:391-406 | in every run, a turn of an endpoint more than 256 frames behind closes it for good and nothing more is ever delivered to it; any other turn brings the next frame of another endpoint |
| `RelayRoute.ClosedStays` | apps/relay/src/lib.rs:391-406 | in every run, an endpoint once closed never changes again |
| `RelayRoute.FanOutIsFaithful` | apps/relay/src/lib.rs:381-433 | in every run an endpoint has received, in order and without gaps, the frames since it attached minus its own, all of them routable envelopes of this route |
| `RelayRoute.OthersAre` | apps/relay/src/lib.rs:391-406 | the frames minus an endpoint's own are those at exactly the positions that others published, in order |
| `RelayRoute.Socket.Write` | apps/relay/src/lib.rs:391-406 | one turn of the writer |
| `RelayRoute.Socket.Read` | apps/relay/src/lib.rs:422-431 | a frame is forwarded exactly if it decodes to a routable envelope of this route |
| `Protocol.ValidateEnvelope` | crates/leave-protocol/src/lib.rs:46-65 | accepts exactly the envelopes that meet every rule |
| `Protocol.AuthorityIsMonotone` | crates/leave-protocol/src/lib.rs:122-147 | a higher role and more grants never lose an action |
| `Protocol.RoleAllows` | crates/leave-protocol/src/lib.rs:122-147 | role by role: everything for owners, all but managing members for maintainers, for operators no editing, Git writes, customization or members, and viewing only for viewers |
| `Protocol.GrantOpens` | crates/leave-protocol/src/lib.rs:122-147 | a further grant opens its own action, for everyone but viewers, and no other |
| `Tunnel.Validate` | crates/leave-protocol/src/tunnel.rs:89-113 | accepts exactly the requests that meet every rule |
| `Tunnel.QueryFindsFirst` | crates/leave-protocol/src/tunnel.rs:176-182 | in a query made of pairs, the value of the first pair with the name |
| `Tunnel.QueryDoesNotMatter` | crates/leave-protocol/src/tunnel.rs:123-173 | outside customization the query cannot change the action |
| `Tunnel.ViewersOnlyRead` | crates/leave-protocol/src/tunnel.rs:123-173 | a viewer's request that is not a read is authorized exactly for three Git queries |
| `Tunnel.OperatorsDrive` | crates/leave-protocol/src/tunnel.rs:123-173 | an operator without capabilities may read, ask the three Git queries and post to sessions, and nothing else |
| `Tunnel.DecidingIsEditing` | crates/leave-protocol/src/tunnel.rs:123-173 | posting to the permissions path of the local API is authorized exactly for owners and maintainers, although it is no edit |
| `Tunnel.TerminalsNeedTheirGrant` | crates/leave-protocol/src/tunnel.rs:129-131 | terminals need the capability whatever the verb |
| `Tunnel.CustomizationIsGlobalByDefault` | crates/leave-protocol/src/tunnel.rs:135-148 | without the global grant, only a first category of rules or skills passes, and only for roles that edit |
| `Tunnel.CustomizationWithGrant` | crates/leave-protocol/src/tunnel.rs:135-148 | with the global grant all but viewers pass, except that a first category of rules or skills needs a role that edits |
| `Tunnel.PreviewsNeedTheirGrant` | crates/leave-protocol/src/tunnel.rs:132-134 | previews need their capability whatever the verb |
| `Tunnel.RoleDecides` | crates/leave-protocol/src/tunnel.rs:149-173 | outside those surfaces: owners and maintainers may do everything, operators what counts as driving, viewers reads and the three Git queries |
| `Tunnel.SessionWrites` | crates/leave-protocol/src/tunnel.rs:162-169 | of the writes one segment below a session, itself not called permissions, exactly the one to its permissions is an approval; the others are prompts |
| `Tunnel.PermissionWrites` | crates/leave-protocol/src/tunnel.rs:162-169 | every write below the permissions of a session is an approval |
| `RouteService.NewestDevice` | apps/leave/src/relay_tunnel.rs:256-262 | the first member without a grant that is not the host |
| `RouteService.ServingIsSafe` | apps/leave/src/relay_tunnel.rs:294-353 | over every frame sequence registry keys stay members, at most one device is admitted, grants are old ones or that of a new phone, and every routed request was acceptable and authorized |
| `RouteService.CallsNeedAGrant` | apps/leave/src/relay_tunnel.rs:81-138 | a call reaches the router only for a sender that holds an authorizing grant at that moment |
| `RouteService.RequestIsHandled` | apps/leave/src/relay_tunnel.rs:92-138 | a request that revokes nobody is routed exactly when it decodes, is acceptable and its sender is authorized; 400, 403, the status of the router or 500 is answered, and nothing else changes |
| `RouteService.EveryCallIsMade` | apps/leave/src/relay_tunnel.rs:294-353 | over every frame sequence the router gets exactly the acceptable requests that were authorized at their moment, in order |
| `RouteService.RevocationIs` | apps/leave/src/relay_tunnel.rs:188-195 | a message revokes a device exactly when it decodes to a DELETE of the path of that device, whose name is one non-empty segment |
| `RouteService.RevocationIsHandled` | apps/leave/src/relay_tunnel.rs:202-253 | 204 for an owner that revokes another member, which then is the only one gone from members and registry; otherwise 403, 400 for itself or 404, and nothing changes |
| `RouteService.UnopenedFramesDoNotMatter` | apps/leave/src/relay_tunnel.rs:322-331 | frames that do not open can be left out of any run without changing its outcome |
| `RouteService.EveryRequestIsAnswered` | apps/leave/src/relay_tunnel.rs:294-353 | over every frame sequence, as long as the loop runs the answers sent are those to all requests so far, in order |
| `RouteService.RepliesMatchRequests` | apps/leave/src/relay_tunnel.rs:332-350 | there is one answer per request, under the exchange identifier of that request |
| `RouteService.RunEndsWhen` | apps/leave/src/relay_tunnel.rs:294-353 | the loop ends exactly when an answer cannot be sealed or sent or a welcome cannot be sent, and then it has answered the requests before that frame |
| `RouteService.EndedStays` | apps/leave/src/relay_tunnel.rs:294-353 | a loop that has ended changes nothing, whatever arrives |
| `RouteService.OnlyOwnersRevoke` | apps/leave/src/relay_tunnel.rs:202-253 | membership or registry shrinks only when an owner revokes another device |
| `RouteService.PairedDevicesAreOperators` | apps/leave/src/relay_tunnel.rs:42-51 | starting from an empty registry, every request ever routed reads, asks a Git query or posts to sessions |
| `RouteService.PhonesDecideNothing` | apps/leave/src/relay_tunnel.rs:42-51 | so in no run does a paired phone decide a permission, since no session path of the local API does |
| `RouteService.NobodyIsRemoved` | apps/leave/src/relay_tunnel.rs:294-410 | in every run from a fresh group the members are the host and the device that was admitted, if any |
| `RouteService.RevocationsAreRefused` | apps/leave/src/relay_tunnel.rs:202-410 | in every run from a fresh group every revocation is refused with 403 and changes nothing, because no device ever becomes an owner |
| `RouteService.AloneWhilePairing` | apps/leave/src/relay_tunnel.rs:300-320 | in every run from a fresh group, while the code shows the host is the only member and nothing is registered |
| `RouteService.AdmittedGetsGrant` | apps/leave/src/relay_tunnel.rs:309-314 | so in every run the new grant goes to the device that joined and to no other, unless it took the name of the host |
| `RouteService.Service.Pair` | apps/leave/src/relay_tunnel.rs:302-320 | one pairing frame |
| `RouteService.Service.Revoke` | apps/leave/src/relay_tunnel.rs:202-253 | one revocation and its answer |
| `RouteService.Service.Handle` | apps/leave/src/relay_tunnel.rs:92-138 | one request and its answer |
| `RouteService.Service.Serve` | apps/leave/src/relay_tunnel.rs:294-353 | the loop over all frames |
| `LineEndings.CollapseUndoesExpand` | crates/leave-core/src/guarded_fs.rs:306-314 | collapsing CR LF undoes expanding LF for every text |
| `LineEndings.LinesAreKept` | crates/leave-core/src/guarded_fs.rs:306-314 | saving keeps the number of LF in both modes |
| `LineEndings.SavedToItself` | crates/leave-core/src/guarded_fs.rs:306-314 | a text is a fixed point of saving to itself exactly when it has no CR LF or each LF follows a CR |
| `LineEndings.CrlfIsStable` | crates/leave-core/src/guarded_fs.rs:306-314 | what was saved to a CR LF file is saved to that unchanged, and each of its LF follows a CR |
| `LineEndings.LfIsStable` | crates/leave-core/src/guarded_fs.rs:306-314 | what was saved to a file without CR LF is saved to that unchanged exactly when the content has no CR CR LF or each of its LF follows two CRs |
| `LineEndings.SecondSaveChanges` | crates/leave-core/src/guarded_fs.rs:306-314 | CR CR LF LF changes when it is saved a second time |
| `LineEndings.GuardedFile.Prepare` | crates/leave-core/src/guarded_fs.rs:238-252 | refuses a caller whose hash is not that of the file |
| `LineEndings.GuardedFile.Commit` | crates/leave-core/src/guarded_fs.rs:259-281 | replaces the text exactly if it still has that hash, and changes nothing otherwise |
| `Timeline.CollectResolutions` | apps/web/src/screens/session-screen.tsx:342-347 | the last outcome of every request |
| `Timeline.LastStatus` | apps/web/src/screens/session-screen.tsx:342-347 | the status of the resolution that no later one of the request follows, or none if there is none |
| `Timeline.BuildTimeline` | apps/web/src/screens/session-screen.tsx:340-386 | by kind of event: a prompt, request, tool update or notice has a bubble of its own, of that kind, with its identifier and text; a chunk with text is in one of its speaker; other events show nothing. Every bubble is the texts of its events in order, bubbles are in order of their first event, approvals show their outcome |
| `Timeline.AppendEvent` | apps/web/src/screens/session-screen.tsx:392-431 | finds the bubble to append to or adds one |
| `Timeline.SameMessageSameBubble` | apps/web/src/screens/session-screen.tsx:400-410 | chunks with message identifiers share a bubble exactly when speaker and identifier agree |
| `Timeline.StreamStaysTogether` | apps/web/src/screens/session-screen.tsx:411-419 | two chunks without identifier share a bubble exactly when they have one speaker and no bubble was added between them |
| `Timeline.TextIsConserved` | apps/web/src/screens/session-screen.tsx:340-420 | every character occurs as often in the bubbles as in the events that show |

## Left out

- OpenMLS, key derivation, tags and hashes: the group is abstract (members; a frame opens or not; add and remove are atomic), tags and hashes are given functions.
- JSON, Protobuf and UTF-8: decoding of requests and envelopes, UUID syntax and UTF-8 validity are given functions; the QR encoder starts from bytes; text is a sequence of characters that stand for its bytes.
- HTTP, websockets, SQLite, processes, terminals, previews and the setup wizard. The tables of the store are sequences, sets and maps; a write that fails is a flag of the step.
- A decoder that locates and repairs damaged modules or words: only that the repair is unique.
- Clocks, random identifiers and results of the environment are parameters. Identifiers that the source draws at random are required to be fresh.
- React components, the service worker and reconnection (`connectLocalEvents`).
- QrPenalty.BalanceSteps: computed with real numbers instead of floating point. On a step boundary the ratio is a whole number, which the division returns exactly, and anywhere else it is too far from a boundary for rounding to matter.
- The heartbeat of the relay's writer, route tokens and the origin check.
- RouteService.Service.Revoke: an answer is its exchange identifier and its status; headers and bodies are left out.
- RouteService.Service.Handle: likewise.
- Member identities that are not readable text, for which the source finds no newest device.
- Other members' view of the group after an add or a remove, since the commits are not sent to them.
- Path resolution, permissions of files and the lock around `write_text`; the two checks are separate methods so that anything may happen between them.
- Timeline.BuildTimeline: leaves out the option lists and the times of the messages.
- The time stamps of events and sessions, and the order in which sessions are listed.
- RelayRoute.FanOutIsFaithful: does not include the rate limit, which only decides when an endpoint stops publishing and is modelled in its own module.
- RouteService.ServingIsSafe: does not tell apart two group members that claim the same device identifier, since the registry is keyed by it.
- Permissions.PermissionsAreSafe: does not say that a request is answered eventually; the agent connection may fail.
- Provider.SortedKeys: sorts by insertion, because the library sort the source calls is not part of this model.
- Pairing.CheckRequest: compares tags by equality; that the comparison takes constant time is not modelled.
- EventLog.EventStore.UpsertWorkspace: leaves out the name and the exposure flags of the row.
