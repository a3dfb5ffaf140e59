# mfst core logic in Dafny

mfst (Mikaey's Flash Stress Test) destructively stress-tests flash media. It
splits the device into 16 slices and fills every sector with pseudo-random
data. Each sector carries its own sector number, the round number, the device
UUID and a CRC-32C. Every round, the program writes the slices in a random
order and then reads them back. It tracks each sector in a one-byte flag map
and counts bad sectors until half the device has failed.

This project models the deterministic logic inside that program. One Dafny
module corresponds to one part of the C sources:

- `Flags` holds the shared sector-map flag bits:
  - FAILED 0x01, WRITTEN_THIS_ROUND 0x02, READ_THIS_ROUND 0x04, DO_NOT_USE 0x08, FAILED_THIS_ROUND 0x10;
  - the FAILED count `CountFailed`.

  The header that defines the bits is not part of this model. The values follow their uses in mfst.c, device.c, state.c and sql.c.
- `SectorMap` (mfst.c) is the sector map of the endurance test: an `array<bv8>` plus the bad-sector counter. It covers range marking, marking sectors bad and unwritable, the per-round reset, and the writable and unwritable run lengths.
- `Codec` (mfst.c) covers the per-sector embedding. The sector number, round number and UUID are XOR-keyed with the sector's own key bytes, and the CRC sits in the last four bytes. It also covers `prepare_endurance_test_block`.
- `Slices` (mfst.c) covers:
  - the 16-way slice partition;
  - the `random_list` shuffle over its `source`/`temp`/`list` arrays;
  - the per-slice seeds;
  - the block walk of a slice.
- `BodMod` (mfst.c) covers the clipped copies of written data into the BOD and MOD buffers. BOD is the beginning of the device and MOD the middle of the device.
- `RoundSummary` (mfst.c) covers the 10% and 25% failure thresholds, the once-only round milestones and the abort-reason labels.
- `CommandLine` (mfst.c) covers the post-processing of `parse_command_line_arguments` over already-split options: defaults, duplicate rejection and the required device or state file.
- `StateFile` (state.c) covers:
  - MSB-first packing of the FAILED bits, 8 sectors per byte;
  - the table-driven validation of a loaded JSON document;
  - the populate pass, which writes nothing until everything has been validated.
- `Consolidated` (sql.c) covers the 10000-entry, 4-bit consolidated sector map sent to the database, and the return code of `sql_thread_update_sector_map`.
- `Display` (ncurses.c) covers `wordwrap` on a working copy, the sector-map block geometry, cell placement, and block colour classification in `draw_sectors`.
- `DeviceCompare` and `DeviceSearch` (device.c) cover the decision rules for recognising a reconnected device:
  - the BOD/MOD partial-match threshold;
  - UUID sampling with early termination;
  - `are_devices_identical`;
  - the match collection and disambiguation of `find_device`.
- `TestingContext` (device_testing_context.c) covers the device testing context record and its small setters.
- `Rng` (rng.c) covers the seeding, the top-bit mixing of `rng_get_random_number`, and `rng_fill_buffer`.
- `Util` (util.c) covers `timediff`.
- `BlockSize` (block_size_test.c) covers the power-of-two range and the "5% faster" selection rule of the optimal block size probe.
- `SpeedTest` (device_speed_test.c) covers the speed-mark qualification rules, the random sector choice (including the sign extension of its second draw), and the pass bookkeeping of `probe_device_speeds`.

Foreign algorithms appear as function-typed parameters: CRC-32C, base64, the libc generator behind `random_r`, and json-c. Device I/O results, clocks and `stat` results are inputs, and so are the allocation outcomes of the members whose "## Left out" line does not say otherwise. Code that works in place is modelled as classes and arrays, with `modifies` clauses. webmonitor/data.php passes the sector map through as an opaque blob; sql.c defines its layout, and the model follows sql.c.

## Model

| member | source | states |
|---|---|---|
| SectorMap.WithFlagInRangeOnlyOwnBit | mfst.c:306-338 | marking a range touches only the marked bit, and that bit is set exactly for sectors in the range or already carrying it |
| SectorMap.WithFlagKeepsFailedCount | mfst.c:306-338 | marking sectors written or read never changes how many sectors are FAILED |
| SectorMap.ResetKeepsOnlyPersistent | mfst.c:2078-2099 | a reset clears every non-persistent flag in the range, keeps FAILED and DO_NOT_USE, and leaves sectors outside the range untouched |
| SectorMap.ResetIdempotent | mfst.c:2078-2099 | resetting twice is the same as resetting once |
| SectorMap.ResetKeepsFailedCount | mfst.c:2078-2099 | a reset keeps the number of FAILED sectors, so the bad-sector counter stays right |
| SectorMap.EnduranceSectorMap.constructor | mfst.c:3825-3826 | a new map is all zero, the counter is 0, and the counter equals the FAILED count |
| SectorMap.EnduranceSectorMap.MarkSectorsWritten | mfst.c:306-314 | the map becomes the old map with WRITTEN_THIS_ROUND set on [start, end); the counter invariant is kept |
| SectorMap.EnduranceSectorMap.MarkSectorsRead | mfst.c:330-338 | the map becomes the old map with READ_THIS_ROUND set on [start, end); the counter invariant is kept |
| SectorMap.EnduranceSectorMap.MarkSectorBad | mfst.c:363-368 | the counter goes up exactly when the sector was not already FAILED; FAILED and FAILED_THIS_ROUND are set on that sector only; the invariant is kept |
| SectorMap.EnduranceSectorMap.IsSectorBad | mfst.c:383-385 | true exactly when the sector's FAILED bit is set |
| SectorMap.EnduranceSectorMap.ResetSectorMap | mfst.c:2078-2082 | the whole map is reset to its persistent flags; the counter invariant is kept |
| SectorMap.EnduranceSectorMap.ResetSectorMapPartial | mfst.c:2095-2099 | only [start, end) is reset to its persistent flags |
| SectorMap.EnduranceSectorMap.MaxWritableSectors | mfst.c:2517-2522 | the returned run is at most the maximum, has no DO_NOT_USE sector, and stops only at the maximum or at a DO_NOT_USE sector |
| SectorMap.EnduranceSectorMap.MaxUnwritableSectors | mfst.c:2539-2544 | the returned run is at most the maximum, is all DO_NOT_USE, and stops only at the maximum or at a writable sector |
| SectorMap.EnduranceSectorMap.MarkSectorUnwritable | mfst.c:2555-2557 | DO_NOT_USE is added to that sector only; the counter invariant is kept |
| SectorMap.EnduranceSectorMap.RecountBadSectors | mfst.c:3855-3860 | the counter grows by the number of FAILED sectors, so a recount from zero restores the invariant |
| Codec.Le64RoundTrip | mfst.c:2238-2264 | storing a 64-bit value little-endian and loading it back gives the value, and loading then storing 8 bytes gives the bytes |
| Codec.Le32RoundTrip | mfst.c:2286-2301 | storing a 32-bit value little-endian and loading it back gives the value, and loading then storing 4 bytes gives the bytes |
| Codec.DecodeEmbeddedSectorNumber | mfst.c:2163-2264 | decoding a sector whose sector number was embedded returns that number, and the embedding changes only the first 8 bytes |
| Codec.DecodeEmbeddedRoundNumber | mfst.c:2187-2276 | decoding a sector whose round number was embedded returns that number, and the embedding changes only bytes 8 to 15 |
| Codec.ExtractEmbeddedUuid | mfst.c:2208-2228 | extracting the UUID after embedding it returns that UUID, and the embedding changes only bytes 16 to 31 |
| Codec.DecodersReadKeyAreaOnly | mfst.c:2163-2276 | two sectors that agree on the key area (the bytes the keys and fields come from) decode to the same sector number, round number and UUID |
| Codec.EmbedUuidKeepsNumbers | mfst.c:2208-2213 | embedding the UUID keeps the embedded sector and round numbers decodable |
| Codec.EmbedRoundKeepsSectorNumber | mfst.c:2250-2252 | embedding the round number keeps the embedded sector number decodable |
| Codec.EmbedCrcFrame | mfst.c:2286-2301 | embedding the CRC leaves the key area alone, and the CRC read back is the CRC of all but the last four bytes |
| Codec.PreparedSectorDecodes | mfst.c:3125-3130 | a prepared sector decodes to its sector number, round number and UUID, and carries the CRC of its first bytes |
| Codec.EmbedSectorNumberAt | mfst.c:2238-2240 | the sector in the buffer becomes the sector with its number embedded; other bytes are unchanged |
| Codec.EmbedRoundNumberAt | mfst.c:2250-2252 | the sector in the buffer becomes the sector with the round number embedded; other bytes are unchanged |
| Codec.EmbedUuidAt | mfst.c:2208-2213 | the sector in the buffer becomes the sector with the UUID embedded; other bytes are unchanged |
| Codec.EmbedCrcAt | mfst.c:2286-2288 | the sector in the buffer gets the CRC of its first bytes in its last four bytes |
| Codec.PrepareSectorAt | mfst.c:3126-3129 | one sector of the buffer is prepared in place |
| Codec.PrepareEnduranceTestBlock | mfst.c:3117-3131 | sector j of the block becomes the old sector j prepared for sector number start + j (modulo 2^64); bytes after the block are unchanged |
| Codec.PreparedBlockDecodes | mfst.c:3117-3131 | each sector of a prepared block decodes to its own number, the round and the UUID |
| Codec.PreparedViewDecodes | mfst.c:3126-3129 | a sector prepared for index j of a block decodes to sector number start + j modulo 2^64, the round and the UUID, and carries its CRC |
| Slices.SlicesContiguous | mfst.c:1226-1228 | the 16 slices start at 0, end at the device size, and each ends where the next starts |
| Slices.SliceOf | mfst.c:1226-1228 | every sector lies in a slice |
| Slices.SliceUnique | mfst.c:3166-3170 | that slice is unique, the last slice included |
| Slices.ShuffleIsPermutation | mfst.c:1197-1211 | drawing and removing entries yields a permutation of the source |
| Slices.SliceOrderIsPermutation | mfst.c:1187-1214 | the slice order names each of the 16 slices exactly once |
| Slices.Pick | mfst.c:1199 | the drawn index is below the number of entries left |
| Slices.RandomList | mfst.c:1187-1214 | the returned list is the shuffle of 0..15 driven by the next 16 draws, and exactly 16 draws are used |
| Slices.FillIdentity | mfst.c:1193-1195 | the source array becomes 0, 1, 2, ... |
| Slices.PickAll | mfst.c:1197-1211 | the list is the shuffle of the source by the draws |
| Slices.PickNext | mfst.c:1198-1210 | one draw moves the chosen entry to the list and leaves the rest to shuffle |
| Slices.TakeAt | mfst.c:1200-1207 | the chosen entry is appended and removed from the source |
| Slices.RemoveInto | mfst.c:1203-1207 | temp holds the source without the chosen entry, in order |
| Slices.CopyBack | mfst.c:1210 | the first m entries of temp are copied back to the source |
| Slices.SliceSeed | mfst.c:3936-3937 | the seed passed when a slice is written (and, by the same expression at 3962, when it is read back) is initial + slice + 16 * round, taken modulo 2^32 |
| Slices.SeedsDistinct | mfst.c:3962 | for rounds less than 2^28 apart, different (slice, round) pairs get different seeds, so each slice of each round has its own stream |
| Slices.SliceBlocks | mfst.c:3181-3193 | the blocks tile the slice exactly, each at most the sectors per block |
| BodMod.MissedAreaUnchanged | mfst.c:2898-2958 | a write that does not overlap an area leaves it unchanged |
| BodMod.UpdateBodBuffer | mfst.c:2898-2914 | the BOD buffer becomes its old contents overwritten by the part of the write inside it |
| BodMod.UpdateModBuffer | mfst.c:2930-2958 | corrected: with the real overlap test of the mfst.c:2881-2883 Findings row, the MOD buffer becomes its old contents overwritten by the part of the write inside the MOD area |
| BodMod.UpdateBodModBuffers | mfst.c:2974-2977 | both buffers are updated as above, the MOD buffer with the corrected overlap test |
| BodMod.WriteEnd | mfst.c:2935 | the last byte of a write is start + length - 1 when that fits in 64 bits |
| BodMod.ModTestMissesSpanningWrites | mfst.c:2881-2883 | the two-endpoint test agrees with real overlap except for writes that span the whole MOD area |
| BodMod.SpanningWriteLeavesModStale | mfst.c:2881-2883 | a write covering the whole MOD area leaves the buffer stale under the endpoint test |
| RoundSummary.CeilDiv | mfst.c:3841-3849 | the result is the least r with r * d at least n |
| RoundSummary.ComputeFailureThresholds | mfst.c:3841-3849 | the thresholds are ceil(n / 10) and ceil(n / 4) |
| RoundSummary.ThresholdsOrdered | mfst.c:3841-3849 | for a non-empty device, 1 <= 10% threshold <= 25% threshold |
| RoundSummary.PerformEndOfRoundSummary | mfst.c:3287-3313 | each milestone is set once, to the current round, when its bad-sector count is first reached, and is never changed again; milestone order is kept |
| RoundSummary.CompleteRound | mfst.c:3895 | the round counter goes up by one and the milestone order is kept |
| RoundSummary.FreshMilestonesOrdered | device_testing_context.c:19-22 | a fresh context satisfies the milestone order |
| RoundSummary.AbortReasonLabel | mfst.c:1243-1256 | reason 0 and reasons above 5 read "(unknown)", and no other reason does |
| RoundSummary.AbortReasonLabelsDistinct | mfst.c:1243-1256 | the known reasons have distinct labels |
| CommandLine.LastTextOfCount | mfst.c:1485-1511 | an option has a value exactly when it was given at least once |
| CommandLine.SetText | mfst.c:1485-1511 | setting a text option changes that option only |
| CommandLine.SetNumber | mfst.c:1446-1513 | setting a numeric option changes that option only |
| CommandLine.AppliedIsFromOptions | mfst.c:1446-1513 | applying the options one at a time gives the declarative result: the last value of each option over the defaults |
| CommandLine.RepeatRefused | mfst.c:1485-1511 | a single-use option given twice is counted as repeated |
| CommandLine.ApplyOptions | mfst.c:1446-1513 | -1 exactly on help or a repeated single-use option; otherwise the options are the declarative result |
| CommandLine.ParseCommandLineArguments | mfst.c:1418-1539 | -1 exactly when refused (help, a repeat, a bad operand count, or neither device nor state file); otherwise the lock file and the database port get their defaults |
| Rng.Mix | rng.c:18-27 | the low 31 bits are the generator's value, and the top bit is the mixing rule |
| Rng.TopBitRule | rng.c:26 | the mixed number is at least 2^31 exactly when the bit rule on the seed and value says so |
| Rng.FillBytesConcat | rng.c:30-36 | filling a buffer in two parts gives the same bytes as filling it at once |
| Rng.RngState.Init | rng.c:7-11 | the seed is set and the draw count restarts |
| Rng.RngState.Reseed | rng.c:13-16 | the seed is replaced and the draw count restarts |
| Rng.RngState.GetRandomNumber | rng.c:18-28 | the result is the mixed next draw, and exactly one draw is used |
| Rng.RngState.FillBuffer | rng.c:30-36 | the whole 32-bit words of the buffer are the next draws in little-endian order, the tail bytes are untouched, and one draw is used per word |
| Util.TimeDiff | util.c:29-31 | the result is the difference in microseconds |
| Util.TimeDiffSelf | util.c:29-31 | the difference from a time to itself is 0 |
| Util.TimeDiffAntisymmetric | util.c:29-31 | swapping the arguments negates the difference |
| Util.TimeDiffAdditive | util.c:29-31 | consecutive differences add up |
| Util.TimeDiffNonNegative | util.c:29-31 | for normalised times the difference is non-negative exactly when the end is not earlier |
| TestingContext.DeviceTestingContext.constructor | device_testing_context.c:8-38 | every counter is zero, milestones are unset, the file handle is -1, and two distinct BOD/MOD buffers of the given size exist |
| TestingContext.NewDeviceTestingContext | device_testing_context.c:8-38 | a context exists exactly when all three allocations succeed, and then it is fresh |
| TestingContext.DeviceTestingContext.InvalidateFileHandle | device_testing_context.c:95-100 | the handle becomes -1 |
| TestingContext.SetDeviceName | device_testing_context.c:80-93 | with no context returns 0; otherwise the name is the copy on success, or none with -1 |
| TestingContext.ResetPerRoundCounters | device_testing_context.c:102-108 | the three per-round counters become 0 |
| StateFile.PackedLength | state.c:233 | ceil(n / 8) bytes: enough for n bits, and no more |
| StateFile.PackedLayout | state.c:233-243 | bit idx % 8, counted from the top, of byte idx / 8 is the sector's FAILED bit, and 0 past the end |
| StateFile.PackSectorMap | state.c:233-243 | the packed array is the MSB-first packing of the FAILED bits |
| StateFile.PackUnpackRoundTrip | state.c:793-799 | unpacking the packed map restores every sector's FAILED bit |
| StateFile.UnpackSectorMapAsWritten | state.c:793-799 | the loop as written restores only the sectors its guard lets through |
| StateFile.UnpackAsWrittenSkipsSectors | state.c:793-799 | for 16 sectors the guard restores exactly sectors 0, 1 and 8, and skips 2 to 7 and 9 to 15 |
| StateFile.UnpackAsWrittenSkipsOnlyTail | state.c:793-799 | in byte k of n packed bytes only the first n - k sectors are restored, so every byte before the last seven is restored in full |
| StateFile.UnpackSectorMap | state.c:793-799 | corrected: with the guard 8k + l < number of sectors in place of the written k + l < n (the state.c:793-799 Findings row), every sector gets its packed FAILED bit |
| StateFile.Base64Properties | state.c:494-518 | exactly the sector map and the BOD and MOD buffers are base64 strings |
| StateFile.Uint64Of | state.c:659 | the conversion is 0 exactly for non-positive values |
| StateFile.Int32Of | state.c:775 | the value is narrowed to 32 bits and kept when it fits |
| StateFile.CheckProperty | state.c:631-709 | accepted exactly when the property passes the table rules, and then returns its decoded buffer |
| StateFile.ValidateProperties | state.c:631-710 | accepted exactly when every property passes, with all buffers and the recorded sizes |
| StateFile.RecordedSize | state.c:703-707 | a present integer property replaces the size, otherwise the current one stays |
| StateFile.CheckLengths | state.c:740-748 | accepted exactly when every decoded buffer has its expected length |
| StateFile.MissingRequiredRejected | state.c:633-638 | a missing required property rejects the file |
| StateFile.NullSkipped | state.c:642-645 | a null property passes and is not populated |
| StateFile.NonPositiveIntegerRejected | state.c:658-673 | an integer that must be positive and is not rejects the file |
| StateFile.TypeRule | state.c:647-654 | a double property also takes a positive integer, any other property needs its declared type, and objects and arrays never pass |
| StateFile.AcceptedTypes | state.c:647-654 | every property of an accepted file has a type that the populate pass converts |
| StateFile.SavedMapLengthAccepted | state.c:729 | a map packed by save_state has the length the loader expects |
| StateFile.StateDestinations.constructor | state.c:764-806 | the destinations start with the given values and buffers and no sector map |
| StateFile.PopulateOne | state.c:764-806 | one property is stored, converted or copied, or skipped when null or missing; the sector map is unpacked with the corrected `UnpackSectorMap` of the state.c:793-799 Findings row |
| StateFile.Populate | state.c:764-806 | all values are the populated ones, and each buffer takes its decoded bytes only when present; the sector map goes through the corrected unpack |
| StateFile.ValidateStateFile | state.c:630-748 | accepted exactly when every property and every length passes |
| StateFile.LoadDocument | state.c:630-806 | success exactly when validation and the map allocation succeed; on failure nothing is written; on success everything is populated, the sector map through the corrected unpack |
| StateFile.LoadState | state.c:609-806 | not specified, does not exist, load error and success cases as load_state decides them, with nothing written unless it succeeds; the sector map goes through the corrected unpack |
| StateFile.SaveState | state.c:33-245 | without a state file, 0 and nothing written; otherwise the packed map is what is saved |
| Consolidated.FoldBits | sql.c:57-59 | folding a sector into an entry ORs FAILED and DO_NOT_USE and ANDs WRITTEN and READ |
| Consolidated.AccumulatedBits | sql.c:55-59 | an entry is FAILED or DO_NOT_USE exactly when some sector is, and WRITTEN or READ exactly when all sectors are |
| Consolidated.BlockInsideMap | sql.c:34-55 | each entry's sectors lie inside the device |
| Consolidated.SmallDeviceEntries | sql.c:34-55 | on a device with fewer sectors than entries, every entry keeps its initial value |
| Consolidated.EvenUpdate | sql.c:57 | an even entry updates the high nibble only |
| Consolidated.OddUpdate | sql.c:59 | an odd entry updates the low nibble only |
| Consolidated.FoldBlock | sql.c:55-61 | one map byte takes the folded block in its nibble; other bytes are unchanged |
| Consolidated.MapByteEntries | sql.c:51-60 | each nibble of a map byte is the entry it stands for |
| Consolidated.ConsolidateEntry | sql.c:50-61 | one entry is consolidated in place |
| Consolidated.ConsolidateSectorMap | sql.c:43-62 | the new map's bytes are the consolidated entries |
| Consolidated.ConsolidatedEntries | sql.c:50-62 | every stored entry is the consolidation of its block |
| Consolidated.ReturnCodeMatchesStatus | sql.c:126-183 | the code is -1, 0 or 1; 0 exactly when execution succeeds, and then the status is connected; a newly lost connection gives 1, and 1 means disconnected; -1 leaves the status as it was or sets it to error |
| Consolidated.ExecuteFailureReportedAsSuccess | sql.c:169-187 | as written, a lost connection during execution still returns 0 |
| Consolidated.ReturnCodesAgreeElsewhere | sql.c:169-187 | the written and the corrected return codes differ only when execution fails |
| Consolidated.SqlThread.UpdateSectorMap | sql.c:22-188 | the return code and status follow the corrected ladder; the map sent is the consolidated map |
| Consolidated.SqlThread.UpdateSectorMapAsWritten | sql.c:22-188 | the return code follows the ladder as written |
| Display.Separated | ncurses.c:86-90 | every newline becomes a terminator, and the copy is terminated |
| Display.LastBreak | ncurses.c:100-105 | the last space or tab within the window, or none |
| Display.BreakAtWord | ncurses.c:94-106 | a line that fits is kept; a longer one is ended at its last break, or kept for cutting |
| Display.BrokenOnlyTerminates | ncurses.c:94-107 | breaking only replaces characters with terminators |
| Display.EmittedLinesFit | ncurses.c:113-146 | every emitted line is at most max characters and has no newline |
| Display.WordwrapLinesFit | ncurses.c:71-151 | every line of wordwrap is at most max characters and has no newline |
| Display.LineThatFitsIsKept | ncurses.c:71-151 | a short line without newlines comes back unchanged as one line |
| Display.WordwrapAsWrittenDropsCutCharacter | ncurses.c:129-145 | as written, "abc" wrapped at 2 gives "ab" and "" and loses the "c" |
| Display.WordwrapCorrectedKeepsText | ncurses.c:113-146 | the corrected wrap keeps all the text of the broken copy in order, and its lines fit |
| Display.WordwrapCorrectedSplitsMidWord | ncurses.c:129-145 | the corrected wrap gives "ab" and "c" |
| Display.FindBreak | ncurses.c:100-105 | the scan finds the last break |
| Display.SeparateLines | ncurses.c:86-90 | the working copy becomes the separated text |
| Display.BreakOne | ncurses.c:95-106 | one piece is broken in place and the next piece found |
| Display.BreakLines | ncurses.c:94-107 | the whole copy is broken as specified |
| Display.EmitOne | ncurses.c:114-145 | one line is emitted and the working copy cut as written |
| Display.EmitLines | ncurses.c:113-146 | all lines are emitted as specified |
| Display.Wordwrap | ncurses.c:71-151 | the lines and count are wordwrap's, and each line fits with no newline |
| Display.Layout | ncurses.c:429-433 | the grid is (cols - 41) by (lines - 8) blocks and covers every sector |
| Display.CellOf | ncurses.c:331-338 | a sector's cell is its block's row and column, and late sectors fall in the last cell |
| Display.BlockInsideDevice | ncurses.c:387-396 | each block's sectors lie within the device |
| Display.SectorDrawnInItsBlock | ncurses.c:331-338 | draw_sector places a sector in the cell of the block that holds it |
| Display.CountersMeaning | ncurses.c:396-402 | the counters say whether any sector is bad, new-bad or unwritable, and whether all are written or read |
| Display.BlockColourByFlags | ncurses.c:404-418 | the block colour follows the flag priorities |
| Display.BlockDrawnInPlace | ncurses.c:324-351 | a block is drawn at its cell with the glyph for its counters |
| Display.BlockRange | ncurses.c:371-380 | the blocks touched by a sector range are within the grid |
| Display.AccumulateBlock | ncurses.c:396-402 | the loop yields the counters of the block's sectors |
| Display.DrawBlock | ncurses.c:383-420 | one block is drawn as specified |
| Display.DrawSectors | ncurses.c:363-422 | each block in the range is drawn as specified, in order |
| DeviceCompare.AllMatchIffEqual | device.c:217-290 | every sector matches exactly when the buffers are equal |
| DeviceCompare.CountMatchingSectors | device.c:217-290 | the loop counts the matching sectors |
| DeviceCompare.CompareBodModData | device.c:153-300 | -1 exactly on a failed BOD read, or a failed MOD read after a BOD mismatch; 0 exactly on a full match of either area or on at least half of the sectors matching; else 1 |
| DeviceCompare.PartialMatchIsHalf | device.c:292-299 | the partial-match total is between 0 and all sectors, and reaching half decides 0 |
| DeviceCompare.CountBadSectors | device.c:343-347 | the loop counts the FAILED sectors |
| DeviceCompare.Selected | device.c:364-388 | the chosen sectors are distinct, not FAILED, inside the device, and at most the sample size |
| DeviceCompare.AlreadyExcluded | device.c:374-383 | a draw is refused exactly when its sector is FAILED or already chosen |
| DeviceCompare.ChooseNext | device.c:367-385 | one draw appends its sector exactly when it is neither FAILED nor already chosen, keeping the chosen sectors equal to the selection so far |
| DeviceCompare.SelectSectorsToCheck | device.c:364-388 | the loop picks the full sample as specified |
| DeviceCompare.MatchesGrow | device.c:391-433 | the match count never falls and grows by at most one per sample |
| DeviceCompare.FirstSeekError | device.c:391-433 | the first seek error, or the end |
| DeviceCompare.CheckSamples | device.c:391-433 | 0 exactly when the samples match, -1 exactly when the scan fails, else 1 |
| DeviceCompare.CompareDeviceUuids | device.c:319-434 | -1 without a sector size, enough good sectors or the sector buffer; otherwise the sample check's verdict |
| DeviceSearch.AreDevicesIdenticalAsWritten | device.c:98-132 | as written, the result is never 0 |
| DeviceSearch.AsWrittenRejectsSameDevice | device.c:118 | a block device compared with itself is "not identical" as written, and identical when corrected |
| DeviceSearch.AreDevicesIdentical | device.c:98-132 | corrected: with the type test of the device.c:118 Findings row, 0 exactly for two devices of the same kind and number, -1 exactly on a stat error |
| DeviceSearch.IdentityIsEquivalence | device.c:98-132 | the corrected identity is reflexive on devices, symmetric and transitive |
| DeviceSearch.MatchedNamesAreAccepted | device.c:650-750 | a name is collected exactly when some candidate with that node passes every rule |
| DeviceSearch.SizeMismatchRejected | device.c:670-677 | a candidate of the wrong size is never collected |
| DeviceSearch.CollectMatches | device.c:650-750 | the loop collects the matched names |
| DeviceSearch.FindMatchIndex | device.c:770-789 | -1 exactly when no match is the preferred device, otherwise the last one that is |
| DeviceSearch.FindDevice | device.c:469-815 | EFAULT without parameters, EINVAL when a required preferred name is missing, and otherwise the unique, the preferred or no match, with the corrected identity test `AreDevicesIdentical` of the device.c:118 Findings row |
| BlockSize.MinPow | block_size_test.c:92 | the first size covering the request, with every smaller size below it |
| BlockSize.MaxPowFrom | block_size_test.c:93 | counting down stops at a size within the request, or at min + 1; every power passed over exceeds the request and min + 1 |
| BlockSize.FindMinPow | block_size_test.c:92 | the loop finds MinPow |
| BlockSize.FindMaxPow | block_size_test.c:93 | the loop finds MaxPow |
| BlockSize.TriedPowers | block_size_test.c:90-93 | the range tried is the two smallest covering sizes, only the largest, or empty |
| BlockSize.TriedPowersCovering | block_size_test.c:92-93 | when a size below the largest covers the request, the count-down stops at the next size up |
| BlockSize.BestProperties | block_size_test.c:116-241 | the running choice is power 0 at rate 0, or a tried power whose rate was more than 5% above the choice before it; every earlier size is slower, and no tried size is more than 5% faster |
| BlockSize.WithinFivePercentKeepsEarlier | block_size_test.c:237-240 | rates 10 and 10.4 keep the first size, since 10.4 is within 5% of 10 |
| BlockSize.ChooseBestPow | block_size_test.c:118-241 | fails exactly when a size fails; otherwise the choice is the running best `Best` after every tried size |
| BlockSize.OptimalBlockSizeTestInfo.ProbeForOptimalBlockSize | block_size_test.c:39-250 | 0 exactly with lock, buffer and every rate; then the block size of the running best `Best` over the tried powers is recorded, 512 when nothing was tried; -1 leaves the record alone |
| SpeedTest.ClassThresholds | device_speed_test.c:75-137 | Class 2/4/6/10 show Yes exactly from 2, 4, 6 and 10 MB/s; all sequential marks are Unknown exactly when the write speed is 0 |
| SpeedTest.SharedThresholdsAgree | device_speed_test.c:88-124 | V6 agrees with Class 6, U1 and V10 with Class 10, V30 with U3 |
| SpeedTest.AppMarkThresholds | device_speed_test.c:139-154 | A1 and A2 are Unknown unless both random rates are non-zero; A1 needs 2000/500 and A2 4000/2000 operations per second |
| SpeedTest.SequentialMarksMonotone | device_speed_test.c:75-137 | a faster card keeps every sequential mark a slower one has |
| SpeedTest.LogAgreesOnSequentialMarks | device_speed_test.c:322-334 | for sequential marks the log says Yes exactly when the screen does |
| SpeedTest.A1ScreenAndLogDisagree | device_speed_test.c:336-339 | the A1 screen and log verdicts can each say Yes where the other says No |
| SpeedTest.JoinDraws | device_speed_test.c:234 | the low word is the second draw; the high word is the first draw, or all ones when the second draw has bit 31 set |
| SpeedTest.SampleRange | device_speed_test.c:235 | the sector count less one 4 KiB block, wrapping past the device when the device is smaller than one block |
| SpeedTest.RandomSector | device_speed_test.c:234-235 | the sector is a multiple of 8, below the sample range, and the largest such multiple not above the joined draws (sign bit dropped) modulo that range |
| SpeedTest.SecondDrawSignHidesFirst | device_speed_test.c:234 | when the second draw has bit 31 set, the first draw does not affect the sector |
| SpeedTest.SignExtendedSector | device_speed_test.c:234-235 | draws 0 and 0x8000_0000 on 2^40 + 8 sectors of 512 bytes give sector 0xFF_8000_0000 |
| SpeedTest.SmallDeviceRangeWraps | device_speed_test.c:235 | a 4-sector device of 512-byte sectors gets a range of 2^64 - 4 |
| SpeedTest.DoneIndex | device_speed_test.c:224-230 | the first transfer at or after 30 seconds |
| SpeedTest.RunPass | device_speed_test.c:207-300 | fails exactly on the pass's failure rule, and otherwise returns its rate |
| SpeedTest.DeviceSpeeds.constructor | device_speed_test.c:168-171 | the four speeds start at 0 |
| SpeedTest.DeviceSpeeds.ProbeDeviceSpeeds | device_speed_test.c:158-344 | 0 exactly when the lock, the buffer and all four passes succeed; each speed is set only when its pass and all earlier ones succeed |

## Left out

- Device I/O, udev, `ioctl`, `stat`, `lseek`, `posix_memalign` and `malloc` are not modelled as calls. Their outcomes are inputs: a read result, a seek error, and, where the member takes one, whether an allocation succeeded. The members named below assume their allocations succeed.
- Threads and the MariaDB client plumbing of `sql_thread_main` are left out: this is concurrency plus a foreign library. Only the return-code ladder and the map sent are modelled.
- ncurses drawing, windows and key handling are left out. Only the arithmetic that chooses cells, glyphs and colours is modelled.
- Logging, wall-clock loops, rate formatting and floating point are left out. Rates are exact reals, and the clock readings are inputs.
- CRC-32C, base64, `random_r`/`initstate_r` and json-c parsing are function parameters; their source is not part of this model.
- webmonitor/data.php is left out: it is a thin query-and-serialise endpoint with no logic of its own.
- lockfile.c is left out: it is a thin wrapper over `lockf`, and holding the lock is an input.
- The raw I/O and retry/reset ladders of mfst.c are not modelled. This covers `endurance_test_read_block`, `endurance_test_write_block`, `*_or_retry`, `*_or_reset_device`, device reconnection and `main`. Only the rules they call are modelled.
- strdup, realloc and malloc failures inside `wordwrap` are not modelled: the model assumes these allocations succeed.
- DeviceCompare.CompareBodModData: the source frees the read buffer before its sector-by-sector MOD comparison (device.c:278-285), so that count reads freed memory. The model counts the sectors of the data that was read.
- DeviceCompare.CompareDeviceUuids: each draw is the already-combined 64-bit value. The model does not rebuild it from the three `random()` results (device.c:367-370), and it does not model the wrap of that 64-bit value. The free of the still-unallocated buffer on the `ioctl` error path (device.c:334) is not modelled.
- SpeedTest.RunPass: the partial-transfer bookkeeping and buffer refill are not modelled. A pass fails or succeeds per transfer, and its rate is computed over exact reals.
- SpeedTest.DeviceSpeeds.ProbeDeviceSpeeds: the lock held after a failed starting seek (device_speed_test.c:211-219) is not modelled, because the lock is outside the model.
- CommandLine.ParseCommandLineArguments: `-b` is accepted by getopt, but the switch handles `'p'`, so the probe flag is never set (mfst.c:1423, 1447, 1496). This is modelled as written.
- Rng.RngState.FillBuffer: rng.h:46-48 says a size that is not a multiple of 4 is rounded up. The code at rng.c:33 fills only size / 4 whole words and leaves the tail bytes untouched, and the model follows the code.
- StateFile.LoadState: a saved `rounds_completed` of 0 is rejected by the positive-integer rule. This is modelled as written.
- The signatures in device.h do not match device.c:469, and device.c:186 calls a two-argument `get_max_writable_sectors` where mfst.c:2517 defines three arguments. Each file's logic is modelled over its own abstract inputs.
- BlockSize.TriedPowers: the comment at block_size_test.c:26-29 bounds the range below by the device's optimal block size. The loop at line 92 uses the largest request size for both bounds, and the model follows the loops.
- DeviceSearch.FindDevice: when the preferred device must match, the code returns it even when its data does not match. The code is followed.
- StateFile.ValidateStateFile, StateFile.LoadDocument and StateFile.LoadState: they require a positive sector size. In the source `sector_size` is an uninitialised local (state.c:387); a null sector size property passes the null skip, and the division at state.c:729 then uses an indeterminate value.
- StateFile.Populate, StateFile.PopulateOne, StateFile.LoadDocument and StateFile.LoadState: they use the corrected unpack. As written (state.c:793-799), the sectors of the last seven packed bytes with k + l ≥ n keep what the fresh allocation held; `UnpackSectorMapAsWritten` models that loop.
- DeviceSearch.FindDevice: it uses the corrected identity test. As written (device.c:118), the preferred device is never recognised among several matches, so `find_device` fails with ENOTUNIQ (device.c:783).
- Display.CellOf and Display.DrawSectors: they require a nonzero sectors-per-block count. A device with fewer sectors than grid cells gets 0 at ncurses.c:432, and the source then divides by zero.
- SpeedTest.RandomSector: it requires a nonzero sector size and a sample range other than 0. The source divides by zero there.
- BodMod.UpdateBodBuffer and BodMod.UpdateModBuffer: the `save_state` call each makes after copying (mfst.c:2910, 2954) is not modelled.
- Util.TimeDiff: the overflow of `time_t` on the multiplication by 1000000 is not modelled; the difference is exact.
- BodMod.UpdateModBuffer and BodMod.UpdateBodModBuffers: they use the corrected overlap test. As written, `was_mod_area_affected` (mfst.c:2881-2883) misses a write that spans the whole MOD area, and `update_mod_buffer` then copies nothing; `WasModAreaAffectedAsWritten` and `SpanningWriteLeavesModStale` model that test.
- Slices.SliceBlocks: it requires a positive number of sectors per block. At mfst.c:3163 an optimal block size below the sector size gives 0, and the loop at mfst.c:3181 then advances by 0 sectors and never ends.
- Display.Layout: it requires more than 41 columns and more than 8 lines. With exactly 41 columns or 8 lines the grid has no blocks and ncurses.c:432 divides by zero; a smaller terminal gives a negative grid size.
- DeviceCompare.CompareDeviceUuids: it requires a positive sector size from the `ioctl`. With 0, device.c:340 divides by zero.
- DeviceSearch.FindDevice: the allocation failures at device.c:447-458 (`create_device_search_result`), 579-590 and 722-745, which make `find_device` fail with ENOMEM, are not modelled.
- StateFile.CheckProperty and StateFile.ValidateProperties: the failure of the string-copy `malloc` at state.c:676-683, which makes `load_state` return LOAD_STATE_LOAD_ERROR, is not modelled.
- CommandLine.ParseCommandLineArguments: the asserted `strdup` copies (mfst.c:1456-1532) are assumed to succeed. The overwriting of the database password in argv with '*' (mfst.c:1463-1466) is not modelled, because argv is outside the model.
- Slices.SeedsDistinct: distinctness is stated for rounds less than 2^28 apart. Beyond that the 32-bit seed wraps and seeds repeat.

## Findings

| source | as written | input that shows it | evidently intended | confidence | as-written member | corrected member |
|---|---|---|---|---|---|---|
| mfst.c:2881-2883 | `was_mod_area_affected` tests only whether the first or the last byte of a write falls inside the MOD area | a 12288-byte write from byte 0 over a 4096-byte MOD area at byte 4096 | any overlap updates the MOD buffer | not executed | BodMod.SpanningWriteLeavesModStale | BodMod.UpdateModBuffer |
| state.c:793-799 | the unpack loop's guard compares k + l with the number of packed bytes n, so in each of the last seven bytes the sectors with k + l ≥ n are never restored (28 sectors once n ≥ 7) | 16 sectors packed into 2 bytes: sectors 2 to 7 and 9 to 15 are skipped | every sector's FAILED bit is restored | not executed | StateFile.UnpackAsWrittenSkipsSectors | StateFile.PackUnpackRoundTrip |
| sql.c:169-187 | the execute path sets `ret` to 1 or -1 on failure, but the function returns 0 | execution losing the connection | 1 for a lost connection, -1 for another failure | not executed | Consolidated.ExecuteFailureReportedAsSuccess | Consolidated.ReturnCodeMatchesStatus |
| ncurses.c:129-145 | an over-long piece is cut with a terminator at cur+max and the scan resumes after it, dropping that character | "abc" wrapped at 2 gives "ab", "" | "ab", "c" | not executed | Display.WordwrapAsWrittenDropsCutCharacter | Display.WordwrapCorrectedKeepsText |
| device.c:118 | the identity test needs both files to be block devices and character devices at once, which no file is | a block device compared with itself | 0 for the same device node | not executed | DeviceSearch.AsWrittenRejectsSameDevice | DeviceSearch.IdentityIsEquivalence |
