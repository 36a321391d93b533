# Verified model of the galcore HAL macros

The Vivante NPU driver under `drivers/npu/aw_nna_galcore` builds command streams for the hardware with
macros rather than functions. This project models that executable macro code, and the kernel routines that
consume its state delta, in Dafny 4.11, and proves what the code keeps over whole runs. Paths below are
relative to the root of the repository.

`dafny verify dfyconfig.toml` checks everything.

## What is modelled

**The command stream** (`gc_hal_base.h` 4053-4569).

| file | content |
|---|---|
| `Bits.dfy`, `BitLaws.dfy` | C bit operators on words of any width, and what they do bit by bit |
| `CommandWord.dfy`, `FieldMacros.dfy` | `gcmSETFIELD` and `gcmGETFIELD`; the LOAD_STATE, NOP and STALL words |
| `CommandStream.dfy` | build switches, assertions, kinds of state write, the delta log |
| `FrontEnd.dfy` | the reader of a stream, one word at a time |
| `StateBatch.dfy`, `StateBatchRoundTrip.dfy`, `StateBatchInvariants.dfy`, `LogAgreement.dfy`, `ReserveAccounting.dfy` | the tracked macros as a state machine, and its theorems |
| `CommandBuffer.dfy` | the same macros in place: a class over a word array and a cursor, proved against `StateBatch` |
| `WriteLog.dfy`, `StreamCodec.dfy` | state writes among events and the log they leave; which sequences of events survive being written and read back |
| `TempBatch.dfy`, `TempRoundTrip.dfy`, `SectionChaining.dfy`, `BlockStates.dfy`, `FastForms.dfy`, `OldAndNew.dfy` | the `_NEW` and `_NEW_FAST` macros and their theorems |
| `AskedFor.dfy` | both families against the plain numbers that callers pass: words and log |
| `TempBuffer.dfy` | those macros in place, with the `OutSide` cursor and the block loops |
| `StateDelta.dfy`, `ContextDeltas.dfy` | the kernel's state delta in place: O(1) reset, copy, merge; the deltas of a context over any number of updates |
| `DeltaReplay.dfy`, `CopiedRecords.dfy`, `WordSets.dfy` | what a delta means when it is replayed, and when merging keeps that meaning; words as sets of one bits |
| `ContextReplay.dfy` | stream and delta together |

A macro is a function from state to `Outcome`; a failing `gcmASSERT` is `AssertFailed` and stops the run. A
run is an arbitrary sequence of macros. `Build(tracking, asserts)` stands for the two switches
`gcdDEBUG_CODE` and `gcdDEBUG_ASSERT`; `FULL_DEBUG` has both.

The words are real 32-bit words. The field positions come from the expanded headers in
`kernel/arch/gc_hal_kernel_context.c` 1320-1347 (OPCODE 31:27, FLOAT 26, COUNT 25:16, ADDRESS 15:0) and from
the expanded semaphore-stall in `kernel/arch/gc_hal_kernel_hardware_func.c` 2735-2750. COUNT has ten bits and
the assertion admits 1024, so a zero COUNT field is read as 1024.

The reader takes one word at a time: it neither needs nor checks the 64-bit alignment of commands, which is
stated separately. It knows the three commands that the macros write. The context buffers that the kernel
builds itself, padded with the word 0xDEADDEAD, are not streams for this reader, which calls that word illegal.

**Companions.** `Alignment.dfy` (the `gcmALIGN` family), `UscCache.dfy` (`gcmCONFIGUSC` and
`gcmCONFIGUSC2`), `TlsSwitch.dfy` (the `clm` switch and restore macros), `FeatureDatabase.dfy`
(`gcQueryFeatureDB`), `TileStatus.dfy` (the multi-slice tile-status macros), `ProfileTick.dfy`
(`_gcmPROFILE_QUERY`).

## Where the code does less than it seems to promise

Each is proved as an exact condition, with a concrete input where the condition fails.

- A batch with Count 0, or with an address above 16 bits, passes every assertion and is read differently from
  what was asked (`StateBatchRoundTrip.RoundTrip`, `EmptyBatchIsMisread`, `WideAddressIsMisread`). The delta
  log parts from the words under a slightly weaker condition (`LogAgreement.LogAgreesExactly`,
  `WideControlStateIsHarmless`).
- The `_NEW` macros keep no count and no address. A batch closed early or continued at another address passes;
  what is asked for is what is read exactly when the caller keeps the protocol (`TempRoundTrip.RoundTrip`,
  `ShortBatchPasses`, `StrayAddressPasses`).
- The block macros trip their own closing check for every even Count
  (`BlockStates.BlockPassesExactlyOnOddCounts`, `BlockOfTwoTrips`).
- `gcmSETSTATEDATAWITHMASK_NEW_FAST` drops the range check of the macro it replaces
  (`FastForms.FastRefines`, `FastMaskedTruncates`).
- A section with an odd number of words can pass all checks and leaves the next one misaligned
  (`SectionChaining.SectionsAlignedExactlyWhenEven`, `TrailingFillerMisaligns`).
- Mask 0 means "all bits" in a delta record, yet `_MergeDelta` or-s masks: a plain write followed by a write
  under a partial mask loses the plain one; and the bits of state 0x0595 that complete records clear get
  cleared once partial masks add up to a complete one (`DeltaReplay.MergeEntryIsExact`, `MergingIsExact`,
  `PlainIsForgotten`, `LitBitIsForgotten`). A newer delta that records a state and its mirror image runs into
  this by itself (`StateDelta.MirrorPairIsForgotten`).
- The first user's delta is copied into the context without mirroring: if it records a state before one that
  it mirrors, a later plain write to that state is lost (`CopiedRecords.CopyKeepsOrder`,
  `CopiedPairLosesLaterWrite`).
- Entry 4 of `s_uscCacheRatio` is 62500 where its comment says 0.0625 (`UscCache.CommentedBestFit`,
  `CommentMissed`); the search serves every budget with its best fit up to a cache of 21474 and for no larger
  one (`UscCache.SearchLimit`, `PastTheLimit`).
- `gcmCanTileStatusEnabledForMultiSlice` starts at slice 0 instead of `firstSlice`
  (`TileStatus.TrustworthyViews`, `ExactViews`, `ShiftedViewIsMisjudged`, `ShiftedViewIsRefused`).
- `gcmALIGN_NP2_SAFE` returns n although the rounded value fits (`Alignment.Np2SafeRounds`,
  `Np2SafeFallsBackNeedlessly`).

## Model

| member | source | states |
|---|---|---|
| CommandWord.SetFieldInZero | drivers/npu/aw_nna_galcore/inc/shared/gc_hal_types_shared.h:420-488 | a field set in a zero word holds the value reduced to the field's width, at the field's position, for every field of a 32-bit word |
| CommandWord.GetFieldMeaning | drivers/npu/aw_nna_galcore/inc/shared/gc_hal_types_shared.h:464-468 | gcmGETFIELD extracts exactly those bits |
| FieldMacros.SetFieldBits | drivers/npu/aw_nna_galcore/inc/shared/gc_hal_types_shared.h:420-488 | bit by bit, gcmSETFIELD on any word puts the bits of the value inside the field and keeps those of the word outside it |
| FieldMacros.GetAfterSet | drivers/npu/aw_nna_galcore/inc/shared/gc_hal_types_shared.h:464-488 | gcmGETFIELD after gcmSETFIELD on any word yields the value reduced to the width of the field |
| FieldMacros.OtherFieldsStay | drivers/npu/aw_nna_galcore/inc/shared/gc_hal_types_shared.h:464-488 | fields that do not overlap the one set keep their values |
| CommandWord.HeaderFromFields | drivers/npu/aw_nna_galcore/inc/gc_hal_base.h:4147-4150 | the four or-ed fields of a header do not overlap: their or is the word layout that the decoder takes apart |
| CommandWord.OpcodeFields | drivers/npu/aw_nna_galcore/inc/gc_hal_base.h:4218-4260 | the opcode field alone gives the filler 0x18000000 for NOP, opcode 3, and the word 0x48000000 for STALL, opcode 9 |
| CommandWord.DecodeReadsFields | drivers/npu/aw_nna_galcore/kernel/arch/gc_hal_kernel_context.c:1320-1347 | the decoder reads the same fields that the header is built from |
| CommandWord.HeaderRoundTrip | drivers/npu/aw_nna_galcore/inc/gc_hal_base.h:4141-4150 | a header of at most 1024 states reads back as itself exactly when its count is at least 1 and its address has 16 bits |
| StateBatchRoundTrip.RunFollows | drivers/npu/aw_nna_galcore/inc/gc_hal_base.h:4055-4072 | after every accepted run, also in the middle of a batch, the reader of the emitted words stands where the three tracking fields say and has seen exactly the intended events |
| StateBatchRoundTrip.RoundTrip | drivers/npu/aw_nna_galcore/inc/gc_hal_base.h:4137-4267 | the stream of an accepted run decodes to the headers, writes, fillers and stalls that were asked for, in order, exactly when every header is readable |
| AskedFor.OldReadsWhatWasAsked | drivers/npu/aw_nna_galcore/inc/gc_hal_base.h:4137-4267 | the round trip in the numbers that the caller passed: the reader sees the very addresses and data, in order, exactly when every header announces 1 to 1024 states at a 16-bit address |
| AskedFor.OldReadsInAnyBuild | drivers/npu/aw_nna_galcore/inc/gc_hal_base.h:4137-4267 | in any build, tracked or not, the reader sees what was asked for, up to the low 32 bits of the data, exactly when the run keeps the protocol |
| StateBatchRoundTrip.EmptyBatchIsMisread | drivers/npu/aw_nna_galcore/inc/gc_hal_base.h:4141-4144 | a batch of no states passes all assertions and is read as a load of 1024 |
| StateBatchRoundTrip.WideAddressIsMisread | drivers/npu/aw_nna_galcore/inc/gc_hal_base.h:4141-4150 | state 0x10000 passes all assertions; the hardware loads state 0 and the log records 0x10000 |
| StateBatchRoundTrip.DeltaLogMatchesStream | drivers/npu/aw_nna_galcore/inc/gc_hal_base.h:4163-4212 | the UpdateDelta log equals the decoded writes less the control writes, with their masks |
| AskedFor.OldLogsWhatWasAsked | drivers/npu/aw_nna_galcore/inc/gc_hal_base.h:4163-4252 | in any build the log holds address, mask and data of each plain or masked state asked for, in order: mask 0 for plain ones, the given mask for masked ones, nothing for control states; the data themselves where they are asserted, their low 32 bits elsewhere |
| LogAgreement.LogAgreesExactly | drivers/npu/aw_nna_galcore/inc/gc_hal_base.h:4163-4212 | throughout an accepted run the log is what the words written so far load, less the control writes, exactly when no word follows a header of no states and every logged write stands under a header with a 16-bit address |
| LogAgreement.WideControlStateIsHarmless | drivers/npu/aw_nna_galcore/inc/gc_hal_base.h:4198-4212 | a control state at 0x10000 is accepted and keeps the log in agreement, though its header is misread |
| StateBatchInvariants.Erasure | drivers/npu/aw_nna_galcore/inc/gc_hal_base.h:4053-4105 | a run that full debugging accepts is accepted by every build, with the same words, cursor and log, and the same tracking fields where they are kept |
| StateBatchInvariants.BuildsAgree | drivers/npu/aw_nna_galcore/inc/gc_hal_base.h:4094-4105 | builds without assertions never stop, and any two builds that finish agree whatever their tracking fields held |
| StateBatchInvariants.BatchInvariant | drivers/npu/aw_nna_galcore/inc/gc_hal_base.h:4055-4072 | in every reachable state data written plus lastLoadStateCount is the announced Count, and the header and data stand at lastLoadStatePtr |
| StateBatchInvariants.AcceptsExactlyTheProtocol | drivers/npu/aw_nna_galcore/inc/gc_hal_base.h:4137-4220 | from every reachable state the next macro is accepted exactly when the protocol told from the history allows it: next address in turn, no filler or batch before the count is used up, alignment, ranges |
| StateBatchInvariants.AcceptsExactlyIn | drivers/npu/aw_nna_galcore/inc/gc_hal_base.h:4055-4220 | the same in every build: without assertions nothing is refused, with assertions alone the 64-bit boundary, the count and the range of the data are checked |
| StateBatchInvariants.UncheckedInvariant | drivers/npu/aw_nna_galcore/inc/gc_hal_base.h:4055-4072 | in every build that tracks, over any run it lets through, lastLoadStateCount is the announced count less the data since, modulo 2^32, and the header stands at lastLoadStatePtr |
| StateBatchInvariants.WordsConserved | drivers/npu/aw_nna_galcore/inc/gc_hal_base.h:4137-4267 | words written plus words still owed equal what headers, fillers and stalls announced, in every reachable state |
| ReserveAccounting.ClosedReservation | drivers/npu/aw_nna_galcore/inc/gc_hal_base.h:4118-4133 | closing a buffer succeeds exactly when ReserveSize is four bytes for each announced word, less what an open batch owes |
| ReserveAccounting.SlotsAreAligned | drivers/npu/aw_nna_galcore/inc/gc_hal_base.h:4137-4159 | a batch of Count states takes gcmALIGN(1 + Count, 2) words |
| ReserveAccounting.ItemsRun | drivers/npu/aw_nna_galcore/inc/gc_hal_base.h:4214-4267 | batches with minimal filler, single states and semaphore-stalls run through exactly when each is acceptable by itself, and leave the sum of their slots |
| ReserveAccounting.ReserveConservation | drivers/npu/aw_nna_galcore/inc/gc_hal_base.h:4118-4267 | such a buffer passes all assertions from reservation to end exactly when its items are acceptable and ReserveSize is four times their slots, a multiple of 8 |
| CommandBuffer.CommandBuffer.BeginStateBuffer | drivers/npu/aw_nna_galcore/inc/gc_hal_base.h:4118-4127 | the cursor and lastReserve move to the reserved place and the stream is empty; the tracking fields stay as they were |
| CommandBuffer.CommandBuffer.EndStateBuffer | drivers/npu/aw_nna_galcore/inc/gc_hal_base.h:4129-4133 | in place, agrees with the specification of closing |
| CommandBuffer.CommandBuffer.BeginStateBatch | drivers/npu/aw_nna_galcore/inc/gc_hal_base.h:4137-4151 | in place, reaches the specified state or trips with nothing changed; earlier words are never rewritten |
| CommandBuffer.CommandBuffer.EndStateBatch | drivers/npu/aw_nna_galcore/inc/gc_hal_base.h:4153-4159 | passes exactly when specified |
| CommandBuffer.CommandBuffer.SetState | drivers/npu/aw_nna_galcore/inc/gc_hal_base.h:4163-4212 | in place, appends the word, counts down and logs as specified, or trips without writing |
| CommandBuffer.CommandBuffer.SetFiller | drivers/npu/aw_nna_galcore/inc/gc_hal_base.h:4214-4220 | in place, appends the filler or trips with nothing changed |
| CommandBuffer.CommandBuffer.SetSingleState | drivers/npu/aw_nna_galcore/inc/gc_hal_base.h:4224-4252 | in place, the three single-state macros reach the specified state |
| CommandBuffer.CommandBuffer.SetSemaStallPipe | drivers/npu/aw_nna_galcore/inc/gc_hal_base.h:4254-4267 | in place, appends the four words of a semaphore-stall |
| CommandBuffer.CommandBuffer.Execute | drivers/npu/aw_nna_galcore/inc/gc_hal_base.h:4137-4267 | any sequence of macros, in place and in any build, reaches what the run of the specification reaches, or trips where it does; the words before the cursor are kept |
| SectionChaining.SectionsConcatenate | drivers/npu/aw_nna_galcore/inc/gc_hal_base.h:4299-4331 | sections through one OutSide cursor pass exactly when each passes alone, and write the concatenation of their separate streams and logs |
| SectionChaining.SectionsAlignedExactlyWhenEven | drivers/npu/aw_nna_galcore/inc/gc_hal_base.h:4077-4092 | from an even cursor, in any build, every section and whatever follows the last starts on a 64-bit boundary exactly when each section's number of words is even |
| SectionChaining.SectionsStartAligned | drivers/npu/aw_nna_galcore/inc/gc_hal_base.h:4077-4092 | under full debugging it is enough that every section ends with a closing macro |
| SectionChaining.AcceptsExactlyTheLegal | drivers/npu/aw_nna_galcore/inc/gc_hal_base.h:4359-4534 | anywhere in a section the next macro is accepted exactly when it is legal at that distance from the section's start: headers and closings on 64-bit boundaries, counts up to 1024, odd blocks, data in range |
| SectionChaining.AcceptsExactlyIn | drivers/npu/aw_nna_galcore/inc/gc_hal_base.h:4359-4534 | the same in every build, the checks as numbers |
| SectionChaining.NeverStops | drivers/npu/aw_nna_galcore/inc/gc_hal_base.h:4359-4534 | builds without assertions let every run of the new macros through |
| SectionChaining.TrailingFillerMisaligns | drivers/npu/aw_nna_galcore/inc/gc_hal_base.h:4415-4419 | a lone filler passes and leaves the next start misaligned; two of them, not closed, are even |
| StreamCodec.EncodedReadsBack | drivers/npu/aw_nna_galcore/inc/gc_hal_base.h:4359-4491 | any sequence of events, written as words, is read back as itself exactly when it keeps the protocol of batches |
| TempRoundTrip.RoundTrip | drivers/npu/aw_nna_galcore/inc/gc_hal_base.h:4359-4534 | for every accepted run of all ten new macros, in any build: the words read back as the headers, writes, fillers and stalls asked for exactly when the headers are readable and data words come in turn, in number and nowhere else |
| AskedFor.ReadsWhatWasAsked | drivers/npu/aw_nna_galcore/inc/gc_hal_base.h:4359-4534 | the round trip in the numbers that the caller passed, in any build: asserted data arrive unchanged, data that nothing asserts as their low 32 bits |
| TempRoundTrip.ShortBatchPasses | drivers/npu/aw_nna_galcore/inc/gc_hal_base.h:4359-4372 | a batch of three states closed after one passes full debugging and leaves the reader inside the batch |
| TempRoundTrip.StrayAddressPasses | drivers/npu/aw_nna_galcore/inc/gc_hal_base.h:4376-4387 | a data word for another state than the next passes; the hardware loads 0x0E00, the log records 0x1234 |
| TempRoundTrip.LogMatchesStream | drivers/npu/aw_nna_galcore/inc/gc_hal_base.h:4376-4534 | for accepted runs that keep the protocol the UpdateDelta log equals the decoded writes less control, array and fast ones |
| AskedFor.LogsWhatWasAsked | drivers/npu/aw_nna_galcore/inc/gc_hal_base.h:4376-4534 | for every accepted run in any build the log holds address, mask and data of each plain or masked state asked for, in order; control, array and fast forms log nothing |
| TempRoundTrip.SectionsDecode | drivers/npu/aw_nna_galcore/inc/gc_hal_base.h:4299-4372 | behind any well-formed stream, accepted sections through one cursor read back as what each asked for exactly when the whole keeps the protocol |
| TempRoundTrip.SectionsCompose | drivers/npu/aw_nna_galcore/inc/gc_hal_base.h:4299-4372 | sections that keep the protocol by themselves and close their last batch read back in any number |
| BlockStates.CtrlStatesDecode | drivers/npu/aw_nna_galcore/inc/gc_hal_base.h:4466-4477 | a header with its array reads back as the array at consecutive addresses, for 1 to 1024 states |
| BlockStates.BlockPassesExactlyOnOddCounts | drivers/npu/aw_nna_galcore/inc/gc_hal_base.h:4359-4372 | from an aligned cursor a block passes exactly when its count is odd, at most 1024, and all data fit; in every build an accepted block emits the header and the data in order |
| BlockStates.BlockOfTwoTrips | drivers/npu/aw_nna_galcore/inc/gc_hal_base.h:4453-4464 | a block of two copies on a boundary trips the closing check under full debugging, and only the tracking one |
| BlockStates.BlockDecodes | drivers/npu/aw_nna_galcore/inc/gc_hal_base.h:4453-4464 | an accepted block decodes to one header and Count writes of the value |
| FastForms.FastRefines | drivers/npu/aw_nna_galcore/inc/gc_hal_base.h:4493-4534 | replacing the data macros of any run by their fast forms keeps words and cursor and leaves the log alone; the plain run passes exactly when the fast one does and no masked value is too wide |
| FastForms.FastMaskedTruncates | drivers/npu/aw_nna_galcore/inc/gc_hal_base.h:4505-4515 | a masked value of 33 bits is refused by the plain macro and truncated by the fast one |
| OldAndNew.NewMacrosReplaceOld | drivers/npu/aw_nna_galcore/inc/gc_hal_base.h:4359-4491 | a run the tracked macros accept under full debugging is accepted by the new macros in every build, with the same words and log |
| OldAndNew.RetailWritesTheSame | drivers/npu/aw_nna_galcore/inc/gc_hal_base.h:4359-4491 | what any build of the tracked macros lets through the new ones write in a build without tracking and assertions, with the same words and log |
| OldAndNew.NewStreamDecodes | drivers/npu/aw_nna_galcore/inc/gc_hal_base.h:4359-4491 | runs that the tracked macros accept under full debugging, moved to the new macros in any build, read back as intended exactly when every header is readable |
| TempBuffer.TempBuffer.BeginStateBuffer | drivers/npu/aw_nna_galcore/inc/gc_hal_base.h:4299-4314 | the cursor and LoadStateBase start at the caller's cursor, or at the start of the owned buffer |
| TempBuffer.TempBuffer.EndStateBuffer | drivers/npu/aw_nna_galcore/inc/gc_hal_base.h:4316-4331 | the caller's cursor moves behind the words, or currentByteSize is four times their number |
| TempBuffer.TempBuffer.SetState | drivers/npu/aw_nna_galcore/inc/gc_hal_base.h:4376-4413 | in place, appends and logs as specified or trips with nothing changed |
| TempBuffer.TempBuffer.SetStateFast | drivers/npu/aw_nna_galcore/inc/gc_hal_base.h:4493-4515 | in place, appends without logging |
| TempBuffer.TempBuffer.SetCtrlStates | drivers/npu/aw_nna_galcore/inc/gc_hal_base.h:4466-4477 | the loop writes the header and the array, or trips, as specified without a loop |
| TempBuffer.TempBuffer.SetBlockCtrlState | drivers/npu/aw_nna_galcore/inc/gc_hal_base.h:4453-4464 | the loop writes the header and Count copies, or trips, as specified without a loop |
| TempBuffer.TempBuffer.SetSemaStallPipe | drivers/npu/aw_nna_galcore/inc/gc_hal_base.h:4479-4491 | in place, appends the four words of a semaphore-stall |
| TempBuffer.TempBuffer.Execute | drivers/npu/aw_nna_galcore/inc/gc_hal_base.h:4359-4534 | any sequence of the new macros, in place and in any build, reaches what the run of the specification reaches, or trips where it does |
| TempBuffer.TempBuffer.ExecuteSections | drivers/npu/aw_nna_galcore/inc/gc_hal_base.h:4299-4331 | opening, running and ending any list of sections through one caller's cursor does in place what the specification of chained sections says, and leaves that cursor behind the words |
| StateDelta.StateDelta.ResetDelta | drivers/npu/aw_nna_galcore/kernel/arch/gc_hal_kernel_context.c:1126-1149 | the delta is empty after a reset and counts no vertex elements, also when the 32-bit ID overflows: then it restarts at 1 over a cleared map; otherwise no map entry is touched |
| StateDelta.StateDelta.CopyDelta | drivers/npu/aw_nna_galcore/kernel/arch/gc_hal_kernel_context.c:3714-3737 | records, map, ID and element count of the source, in its order |
| StateDelta.StateDelta.MergeDelta | drivers/npu/aw_nna_galcore/kernel/arch/gc_hal_kernel_context.c:3739-3806 | the state's record is changed in its place or a new one comes last, at the canonical address; the structure holds the old contents with one merged entry, one record for each state; records stay canonical |
| StateDelta.FindMirror | drivers/npu/aw_nna_galcore/kernel/arch/gc_hal_kernel_context.c:3763-3769 | the loop yields the mirror image in the first range that holds the state, by the offsets +0x300, +0x100 and -0x800, and the state itself elsewhere and on hardware where no range is in use |
| StateDelta.MirroredRanges | drivers/npu/aw_nna_galcore/kernel/arch/gc_hal_kernel_context.c:1118-1122 | state 0x5800 + k stands at 0x5B00 + k for k < 0x300, 0x5600 + k at 0x5700 + k for k < 0x100, 0xD800 + k at 0xD000 + k for k < 0x140, every other state at itself |
| StateDelta.SharedRecords | drivers/npu/aw_nna_galcore/kernel/arch/gc_hal_kernel_context.c:3763-3769 | two states share a record exactly when they are the same or one is the image of the other |
| StateDelta.StatesKeepTheirRecords | drivers/npu/aw_nna_galcore/kernel/arch/gc_hal_kernel_context.c:3763-3783 | two different states merged into an empty delta leave two records, each with its own mask and data, exactly when neither is the image of the other |
| StateDelta.MergeNewerDelta | drivers/npu/aw_nna_galcore/kernel/arch/gc_hal_kernel_context.c:3857-3883 | the records of the newer delta are merged in order, its element count taken over, the delta reset; for any newer delta, replaying the result is replaying the previous one and making the recorded writes exactly when no state is forgotten; for one with canonical records it is replaying both exactly when no state clashes |
| ContextDeltas.Context.constructor | drivers/npu/aw_nna_galcore/kernel/arch/gc_hal_kernel_context.c:3167-3191 | fresh, empty deltas, the head current |
| ContextDeltas.Context.UpdateDelta | drivers/npu/aw_nna_galcore/kernel/arch/gc_hal_kernel_context.c:3839-3884 | the first user's delta is copied into the head; every later one is copied into the delta next to it and merged from there, and that delta is empty again; no other delta of the ring is used |
| ContextDeltas.HeadReplaysAll | drivers/npu/aw_nna_galcore/kernel/arch/gc_hal_kernel_context.c:3933-4013 | after any number of updates, replaying the head record by record, a state and its mirror image sharing a slot, is replaying every user's delta in turn, for all values of the slots, exactly when no state is forgotten; the first delta being canonical |
| CopiedRecords.CopyKeepsOrder | drivers/npu/aw_nna_galcore/kernel/arch/gc_hal_kernel_context.c:3839-3841 | whatever plain writes later deltas record, merging them into a copied first delta replays as both in turn exactly when the copy records no state before one that it mirrors |
| CopiedRecords.CopiedPairLosesLaterWrite | drivers/npu/aw_nna_galcore/kernel/arch/gc_hal_kernel_context.c:3839-3841 | a first delta recording 0x5B00 and then 0x5800 loses a later write to 0x5800 |
| StateDelta.CanonicalRecordsReplay | drivers/npu/aw_nna_galcore/kernel/arch/gc_hal_kernel_context.c:3381-3436 | canonical records may be replayed by state: their order does not matter |
| StateDelta.RecordsAreContents | drivers/npu/aw_nna_galcore/kernel/arch/gc_hal_kernel_context.c:3763-3783 | a delta whose records are canonical holds each state once, and its records compact to its contents |
| StateDelta.MirrorPairIsForgotten | drivers/npu/aw_nna_galcore/kernel/arch/gc_hal_kernel_context.c:3763-3805 | a newer delta holding a state and its mirror image, each once, loses the plain one when merged |
| DeltaReplay.MergeEntryIsExact | drivers/npu/aw_nna_galcore/kernel/arch/gc_hal_kernel_context.c:3771-3805 | merging two writes keeps their joint effect on every value exactly unless a plain write is followed by one under a partial mask, or a bit that complete writes clear is lit when the masks become complete |
| DeltaReplay.MergePreservesReplay | drivers/npu/aw_nna_galcore/kernel/arch/gc_hal_kernel_context.c:3381-3436 | replaying a merged delta is replaying both in turn, for all values of the states, exactly when no state recorded by both clashes so |
| DeltaReplay.MergesAsWhole | drivers/npu/aw_nna_galcore/kernel/arch/gc_hal_kernel_context.c:3868-3874 | merging write by write is merging the compacted delta, when each state is written once |
| DeltaReplay.MergingIsExact | drivers/npu/aw_nna_galcore/kernel/arch/gc_hal_kernel_context.c:3739-3806 | for whatever a delta holds and whatever log is merged into it, replaying the result is replaying the delta and making the writes, for all values of the states, exactly when no state is left with a plain write under a partial mask or a lit bit under a complete one |
| DeltaReplay.CompactionIsExact | drivers/npu/aw_nna_galcore/kernel/arch/gc_hal_kernel_context.c:3739-3806 | the same for compacting a log from nothing |
| DeltaReplay.OrdinaryStates | drivers/npu/aw_nna_galcore/kernel/arch/gc_hal_kernel_context.c:3414-3435 | in every state but 0x0595 only a plain write under a partial mask is forgotten |
| DeltaReplay.PlainIsForgotten | drivers/npu/aw_nna_galcore/kernel/arch/gc_hal_kernel_context.c:3789-3805 | a plain write of bit 0, then bit 1 under a mask: the record restores bit 1 alone |
| DeltaReplay.LitBitIsForgotten | drivers/npu/aw_nna_galcore/kernel/arch/gc_hal_kernel_context.c:3414-3435 | bit 4 of state 0x0595 set under a mask, then the others under theirs: the merged record clears it |
| WordSets.OperatorsOnSets | drivers/npu/aw_nna_galcore/kernel/arch/gc_hal_kernel_context.c:3789-3805 | and, or and complement of 32-bit words are intersection, union and complement of their sets of one bits |
| BitLaws.BitAtMeaning | drivers/npu/aw_nna_galcore/kernel/arch/gc_hal_kernel_context.c:3789-3805 | bit i of a word is its shift by i, modulo 2 |
| WordSets.BitsDetermineWord | drivers/npu/aw_nna_galcore/kernel/arch/gc_hal_kernel_context.c:3789-3805 | two words are equal exactly when their sets are |
| WordSets.EverySetIsAWord | drivers/npu/aw_nna_galcore/kernel/arch/gc_hal_kernel_context.c:3789-3805 | every set of bits is the set of some word |
| WordSets.KernelExpressions | drivers/npu/aw_nna_galcore/kernel/arch/gc_hal_kernel_context.c:3433-3434 | the masked updates of the kernel, computed on words, are the blend that the theorems speak of |
| WordSets.EffectOnWords | drivers/npu/aw_nna_galcore/kernel/arch/gc_hal_kernel_context.c:3414-3435 | what the kernel computes for one record, the three cleared fields of state 0x0595 included, is the effect that the replay theorems speak of, for all 32-bit words |
| WordSets.MergeOnWords | drivers/npu/aw_nna_galcore/kernel/arch/gc_hal_kernel_context.c:3789-3805 | what _MergeDelta computes for a state that has a record is the merge that the theorems speak of, for all 32-bit words |
| ContextReplay.ReplayMatchesExecution | drivers/npu/aw_nna_galcore/kernel/arch/gc_hal_kernel_context.c:3360-3436 | for accepted, readable runs without masked states and any states that their control writes leave alone, executing the decoded words and replaying the compacted delta give the same values, on hardware with and without mirrored states, but for the bits of state 0x0595 that the kernel forces off |
| ContextReplay.NewReplayMatchesExecution | drivers/npu/aw_nna_galcore/kernel/arch/gc_hal_kernel_context.c:3360-3436 | the same for the new macros in any build, for runs that keep the protocol; fast and array writes count as control writes |
| ContextReplay.MaskedStateRestores | drivers/npu/aw_nna_galcore/kernel/arch/gc_hal_kernel_context.c:3414-3435 | the log of one masked state, merged and replayed, restores the bits of the data under the mask and keeps the others; an empty or full mask restores them all, but for the bits of state 0x0595 that the kernel forces off |
| Alignment.AlignUpMeaning | drivers/npu/aw_nna_galcore/inc/gc_hal.h:43-52 | at every width gcmALIGN equals gcmALIGN_NP2 on a power of two, and is the true rounded value exactly when that fits, else 0 |
| Alignment.AlignUpIsLeastMultiple | drivers/npu/aw_nna_galcore/inc/gc_hal.h:52 | the least multiple not below n whenever the sum does not wrap |
| Alignment.AlignNp2IsLeastMultiple | drivers/npu/aw_nna_galcore/inc/gc_hal.h:43 | the same for gcmALIGN_NP2 and every nonzero alignment |
| Alignment.AlignBaseMeaning | drivers/npu/aw_nna_galcore/inc/gc_hal.h:66-69 | the greatest multiple not above n |
| Alignment.AlignUpIdempotentMonotone | drivers/npu/aw_nna_galcore/inc/gc_hal.h:52 | gcmALIGN is idempotent, monotone and never below n, as long as the sum does not wrap |
| Alignment.AlignBaseIdempotentMonotone | drivers/npu/aw_nna_galcore/inc/gc_hal.h:66-69 | gcmALIGN_BASE is idempotent, monotone and never above n, on every value of the width |
| Alignment.SafeIsExact | drivers/npu/aw_nna_galcore/inc/gc_hal.h:54-64 | overflow is reported, and n returned instead, exactly when the true rounded value needs a 33rd bit |
| Alignment.Np2SafeIsExact | drivers/npu/aw_nna_galcore/inc/gc_hal.h:45-49 | the fallback is taken exactly when the sum before rounding needs a 33rd bit |
| Alignment.Np2SafeRounds | drivers/npu/aw_nna_galcore/inc/gc_hal.h:45-49 | the result is the rounded value exactly when the sum before rounding has 32 bits or n is a multiple already |
| Alignment.Np2SafeFallsBackNeedlessly | drivers/npu/aw_nna_galcore/inc/gc_hal.h:45-49 | 2^32 - 2 is returned for alignment 3 although 2^32 - 1 is a multiple that fits |
| UscCache.SearchRatio | drivers/npu/aw_nna_galcore/inc/gc_hal_base.h:4892-4904 | the loop computes the fold over the eight entries, in 32-bit arithmetic |
| UscCache.SearchIsFirstMinimum | drivers/npu/aw_nna_galcore/inc/gc_hal_base.h:4892-4904 | for every cache and budget, wrapped or not, the search ends at the first of the entries at least distance among those within the wrapped budget, and at -1 exactly when there is none |
| UscCache.OverflowLimit | drivers/npu/aw_nna_galcore/inc/gc_hal_base.h:4892-4903 | no product or difference leaves 32 bits exactly when the cache is at most 21474 |
| UscCache.PastTheLimit | drivers/npu/aw_nna_galcore/inc/gc_hal_base.h:4892-4903 | with 21475 the wrapped search takes the whole cache for a budget of 1 |
| UscCache.SearchLimit | drivers/npu/aw_nna_galcore/inc/gc_hal_base.h:4892-4906 | every budget is served with its best fit exactly by caches of at most 21474 |
| UscCache.WrappedBudgetAsserts | drivers/npu/aw_nna_galcore/inc/gc_hal_base.h:4892-4906 | a budget that wraps to a negative number ends in -1, and so in the assertion of both macros, exactly when no wrapped product is as low |
| UscCache.SearchIsBestFit | drivers/npu/aw_nna_galcore/inc/gc_hal_base.h:4882-4906 | the index ends in 1 to 7 and is the one entry of largest coded capacity within the budget |
| UscCache.BestFitIsUnique | drivers/npu/aw_nna_galcore/inc/gc_hal_base.h:4882-4906 | no two entries are best |
| UscCache.SearchIsMonotone | drivers/npu/aw_nna_galcore/inc/gc_hal_base.h:4892-4904 | a larger budget never selects a smaller capacity |
| UscCache.Utilisation | drivers/npu/aw_nna_galcore/inc/gc_hal_base.h:4882-4906 | more than a quarter of the budget is used exactly when it reaches 1/32 of the cache; the commented fraction fits too |
| UscCache.CommentedBestFit | drivers/npu/aw_nna_galcore/inc/gc_hal_base.h:4882-4891 | the choice is best for the commented fractions exactly outside two ranges of the budget |
| UscCache.CommentMissed | drivers/npu/aw_nna_galcore/inc/gc_hal_base.h:4882-4891 | a budget of 2 in a cache of 32 gets the fraction 0.03125 although the commented 0.0625 fits |
| UscCache.ConfigUsc | drivers/npu/aw_nna_galcore/inc/gc_hal_base.h:4843-4910 | step by step, agrees with its specification, with and without the assertions; its local shares are those of Split |
| UscCache.ConfigUsc2 | drivers/npu/aw_nna_galcore/inc/gc_hal_base.h:4912-4996 | the same for the second macro |
| UscCache.AttribRatios | drivers/npu/aw_nna_galcore/inc/gc_hal_base.h:4926-4952 | attribCacheRatio is 7 exactly for compute-only parts, 3 exactly for tessellation parts with the 8800, 4 exactly for the other tessellation parts, else 2 |
| UscCache.OtherRatios | drivers/npu/aw_nna_galcore/inc/gc_hal_base.h:4843-4996 | the first macro always leaves 2; without a USC both leave 2 and the old L1 ratio, with a separate LS 2 and 0 |
| UscCache.SharesInNumbers | drivers/npu/aw_nna_galcore/inc/gc_hal_base.h:4849-4874 | the shares are 0 and the whole cache on compute-only parts, else 42 or 8 and the remaining pages, or 40 or 6 and 2 when the pages do not exceed them |
| UscCache.L1RatioIsBestFit | drivers/npu/aw_nna_galcore/inc/gc_hal_base.h:4954-4993 | within the limit the L1 ratio is 0 for a share that covers the cache and else the one best fit for the share |
| UscCache.L1RatioInNumbers | drivers/npu/aw_nna_galcore/inc/gc_hal_base.h:4882-4993 | within the limit the entry is told by which of 1/32, 1/8, 1/4, 1/2, 5/8 and 3/4 of the cache the share reaches |
| UscCache.SplitConserves | drivers/npu/aw_nna_galcore/inc/gc_hal_base.h:4857-4874 | attribute share plus L1 share is the larger of the initial attribute size and the pages |
| UscCache.MacrosAgree | drivers/npu/aw_nna_galcore/inc/gc_hal_base.h:4843-4996 | the first macro passes exactly when the second does and two further assertions hold, and then both leave the same L1 ratio |
| UscCache.UncheckedMacros | drivers/npu/aw_nna_galcore/inc/gc_hal_base.h:4843-4996 | builds without assertions always finish, both macros with the same L1 ratio, and leave what the asserting build leaves wherever that passes |
| UscCache.UncheckedRatio | drivers/npu/aw_nna_galcore/inc/gc_hal_base.h:4892-4906 | within the limit such a build never leaves -1: it leaves 0 for a share that covers the cache and else the one best fit |
| UscCache.ZeroMeansWholeCache | drivers/npu/aw_nna_galcore/inc/gc_hal_base.h:4954-4993 | within the limit the macro fails only for an empty compute-only cache, and a ratio of 0 always means the whole cache |
| TlsSwitch.SwitchVars.SwitchToHw | drivers/npu/aw_nna_galcore/inc/gc_hal_cl.h:418-431 | the five fields are saved and set to the hardware; no other field changes |
| TlsSwitch.SwitchVars.SwitchToNull | drivers/npu/aw_nna_galcore/inc/gc_hal_cl.h:434-447 | the five fields are saved and cleared; no other field changes |
| TlsSwitch.SwitchVars.RestoreHw | drivers/npu/aw_nna_galcore/inc/gc_hal_cl.h:449-459 | whatever happened to the fields meanwhile, they come back once; without a pending switch nothing happens |
| TlsSwitch.SwitchingIsLexical | drivers/npu/aw_nna_galcore/inc/gc_hal_cl.h:409-459 | for every tree of scopes the five fields come back, and every probe sees the innermost enclosing switch |
| TlsSwitch.ProbeSeesTarget | drivers/npu/aw_nna_galcore/inc/gc_hal_cl.h:418-447 | a probe in a scope sees the hardware twice, its type twice and its device index; or null twice, the invalid type twice and index 0 |
| TlsSwitch.ExtraRestoresDoNothing | drivers/npu/aw_nna_galcore/inc/gc_hal_cl.h:449-459 | any number of further restores changes nothing |
| TlsSwitch.ReusedLocalsForgetTheEntry | drivers/npu/aw_nna_galcore/inc/gc_hal_cl.h:409-447 | one set of locals serves one switch: a second switch before the restore makes it return to the first target |
| TlsSwitch.Execute | drivers/npu/aw_nna_galcore/inc/gc_hal_cl.h:409-459 | the macros, executed on the real fields over any tree of scopes, meet the above; other fields never change |
| FeatureDatabase.QueryFeatureDB | drivers/npu/aw_nna_galcore/inc/gc_feature_database.h:4470-4515 | the first exact formal row, else the first informal row equal under the mask, else none |
| FeatureDatabase.AnswersIsLookup | drivers/npu/aw_nna_galcore/inc/gc_feature_database.h:4479-4514 | any result with that contract is the row of the recursive lookup |
| FeatureDatabase.AnswerInNumbers | drivers/npu/aw_nna_galcore/inc/gc_feature_database.h:4479-4514 | without the match predicates: none exactly when no row is an exact formal match and none is an informal one that agrees in bits 4 to 15 of the version; the first exact formal row whenever there is one; else the first such informal row |
| FeatureDatabase.NearVersionsAgree | drivers/npu/aw_nna_galcore/inc/gc_feature_database.h:4496-4514 | versions that agree in bits 4 to 15 and match no formal row get the same row |
| FeatureDatabase.NearRowIsFound | drivers/npu/aw_nna_galcore/inc/gc_feature_database.h:4503 | a query for version 0x7120 gets the informal row of 0x7121 |
| FeatureDatabase.OrderIndependence | drivers/npu/aw_nna_galcore/inc/gc_feature_database.h:4479-4514 | the result is the same for all permutations of the table exactly when all competing rows are equal |
| FeatureDatabase.DistinctKeysSuffice | drivers/npu/aw_nna_galcore/inc/gc_feature_database.h:4479-4514 | keys distinct within their classes make every query independent of the order |
| FeatureDatabase.VersionMaskMeaning | drivers/npu/aw_nna_galcore/inc/gc_feature_database.h:4502 | the mask drops the lowest hexadecimal digit and everything above bit 15 |
| TileStatus.AnyTileStatusEnableForFullMultiSlice | drivers/npu/aw_nna_galcore/inc/gc_hal_base.h:4788-4798 | sets the flag exactly when some slice of 0 to requestD is enabled: the ranged macro on that range |
| TileStatus.AnyTileStatusEnableForMultiSlice | drivers/npu/aw_nna_galcore/inc/gc_hal_base.h:4800-4810 | sets the flag exactly when some slice of the view is enabled |
| TileStatus.CanTileStatusEnabledForMultiSlice | drivers/npu/aw_nna_galcore/inc/gc_hal_base.h:4812-4841 | clears the flag exactly when a slice it looks at is disabled or differs from slice 0 |
| TileStatus.CanEnableIsExact | drivers/npu/aw_nna_galcore/inc/gc_hal_base.h:4812-4841 | for views from slice 0 the macro says yes exactly for uniform views, and then some slice is enabled |
| TileStatus.JudgesFromSliceZero | drivers/npu/aw_nna_galcore/inc/gc_hal_base.h:4812-4841 | for every view: with several slices the answer is the uniformity of the first numSlices slices of the surface, otherwise whether the slice where the view starts is enabled |
| TileStatus.TrustworthyViews | drivers/npu/aw_nna_galcore/inc/gc_hal_base.h:4816-4829 | a yes implies a uniform view, for all contents, exactly when the view starts at slice 0 or holds one slice |
| TileStatus.ExactViews | drivers/npu/aw_nna_galcore/inc/gc_hal_base.h:4816-4829 | on the same views, and on no others, the answer is exact: a no can be trusted as well |
| TileStatus.ShiftedViewIsMisjudged | drivers/npu/aw_nna_galcore/inc/gc_hal_base.h:4816-4829 | two slices from slice 1 on, the last disabled: the macro says yes |
| TileStatus.ShiftedViewIsRefused | drivers/npu/aw_nna_galcore/inc/gc_hal_base.h:4816-4829 | a uniform view from slice 1 on, slice 0 disabled: the macro says no |
| ProfileTick.ProfileQuery | drivers/npu/aw_nna_galcore/inc/gc_hal_base.h:1544-1549 | both branches yield the difference modulo 2^64, also for equal samples |
| ProfileTick.IntervalIsElapsedTime | drivers/npu/aw_nna_galcore/inc/gc_hal_base.h:1544-1549 | the interval is the true elapsed time exactly when fewer than 2^64 ticks have passed |
| ProfileTick.IntervalsTelescope | drivers/npu/aw_nna_galcore/inc/gc_hal_base.h:1544-1549 | over any samples the intervals add up, modulo 2^64, to the one from first to last |

## Left out

- `gcoBUFFER_Reserve`, `gcoBUFFER_StartTEMPCMDBUF`, `gcoBUFFER_EndTEMPCMDBUF` and `gcoHARDWARE_UpdateTempDelta`: they are not in the repository. A reservation is a parameter, and room for the words is a precondition, since no macro checks it.
- `gcoHARDWARE_UpdateDelta`: not in the repository; each call appends to a log. What becomes of such a log is modelled with the kernel's own merge.
- `gcmSETSTARTDECOMMAND`, dump and trace macros, `gcmSETLOADSTATEBASE` in builds that do not track: they add no state.
- What a run does after a failing assertion: the debug macro breaks into the debugger; here the run ends.
- StateBatchRoundTrip.RoundTrip: runs start in a fresh reservation with no batch left open by the one before; the same holds for the other theorems on whole runs of the tracked macros.
- 32-bit builds, where `gcmSAFECASTSIZET` asserts nothing: data have 64 bits here.
- ProfileTick.ProfileQuery: the sample of `gcoOS_GetProfileTick` is a parameter.
- UscCache.SearchRatio: signed overflow, undefined in C, is taken to wrap.
- StateDelta.StateDelta.MergeDelta: the source does not check that the record array has room or that a mirror image is in the map, so both are preconditions.
- ContextDeltas.Context.UpdateDelta: the null checks on the deltas and the kDelta fields of the context buffers, which point to the head, are not modelled.
- ContextDeltas.HeadReplaysAll: a first delta with records under mirrored addresses is judged for later plain writes only (`CopiedRecords.CopyKeepsOrder`).
- DeltaReplay.MergePreservesReplay: slots that the context shares beyond the mirrored ranges (`_StateMirror` in lines 2518 and 2578 of `gc_hal_kernel_context.c`), and what the element count does to the vertex attributes, are not modelled.
- TempRoundTrip.LogMatchesStream: one way only, for runs that keep the protocol; outside it the words of one macro can be read as those of another and agree with the log by chance.
- ContextReplay.ReplayMatchesExecution: runs with masked states are left to the compaction theorems, because how the hardware applies a mask is not in the repository; a mapped state that a control write loads is excluded, because the log does not record it.
- TlsSwitch.Execute: every scope runs on one thread; `gcoOS_GetTLS` always returns the same storage.
- TileStatus.CanTileStatusEnabledForMultiSlice: gctBOOL entries other than 0 and 1 are not modelled, and one entry for each slice is a precondition.
- The rest of the driver: memory pools, MMU, events, command queues, the contents of the feature table, `gcmCONFIGUREUNIFORMS`, `_gcmCHECK_ADD_OVERFLOW`, option and enumeration headers.
