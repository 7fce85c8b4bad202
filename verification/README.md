# QEMU migration, block layer and AES in Dafny

A model of the parts of QEMU whose correctness spans many steps: live migration of RAM and of block
devices, the transformations of the block layer, the AES cipher with CBC, the buffered migration file,
bottom halves and AIO handlers, and word-packed bitmaps.  `dafny verify dfyconfig.toml` checks all of it.

The main results:

- **RAM migration** (`RamState`, `RamStream`, `RamMigration`, `RamSaver`, `RamReceiver`, `RamEndToEnd`).  For every
  interleaving of guest writes and rate-limited calls, followed by stage 3, the receiver accepts the byte
  stream and its RAM equals the source's.  The inductive invariant is that every page is dirty or its last
  replayed copy is current, and that the receiver's remembered block is the sender's.
- **Block migration** (`DirtyBitmap`, `BlockDirty`, `BlockState`, `BlockInvariant`, `BlockMigration`, `BlockStream`,
  `BlockRun`, `BlockSaver`, `BlockReceiver`, `BlockEndToEnd`, `BlockLimits`).  Reads in flight sample the disk
  byte by byte while guest writes change it byte by byte and mark chunks only when they complete.  Every byte is unsent, in a dirty
  chunk, under a guest write, or its newest copy among stream, queue and reads in flight is current.  From
  this follows delivery over bytes, for several devices, with and without a shared base.  A whole migration
  is a function of the drives, of what the guest and the reads do between the calls, and of the limits; the
  code is proved to perform that run.  For reads that finish out of
  order and for a rate-limited flush, runs show what is lost.
- **Multiwrite** (`Iovec`, `Multiwrite`, `MultiwriteExact`, `MultiwriteMerge`, `MultiwriteCompletion`).
  Merging is not always meaning-preserving: a
  request that starts inside a run and ends before it cuts off the run's tail, and a gap filled with zeros
  may cover bytes of a request that was left unmerged because of the io vector limit.  Both have
  concrete requests.  `Faithful` is the exact condition.  The completion counter is proved for every interleaving.
- **Byte I/O and commit** (`ByteIo`, `Commit`): sector requests refine a flat byte array, and committing an
  overlay never changes what the guest reads.
- **AES** (`Gf256`, `SboxOrigin`, `AesSpec`, `AesKeys`, `AesTables`, `Aes`, `AesCbc`, `AesEndToEnd`): the S-box is
  the affine map of the field inverse, the table-driven cipher refines FIPS 197, the equivalent inverse cipher
  inverts it, and CBC round-trips and chains, from the user key on and in place.
- **Bottom halves** (`IdLists`, `BottomHalves`, `AsyncPolls`, `PollVisits`, `AsyncContexts`, `BottomHalfLimits`).
  Polls, their callbacks, the contexts these push and the polls in them interleave as on a C stack.  A poll
  visits the bottom halves of its context once each, runs what is scheduled when its turn comes, and returns
  whether something not idle ran; in no run is a freed one followed.
- **AIO handlers** (`AioHandlers`, `AioWalk`).  Walks survive any handlers that callbacks add and delete; a
  queue walk calls deleted handlers too.
- **Buffered file and bitmaps** (`BufferedFile`, `Bits`, `Bitmap`, `Words`), with what goes wrong when a sum
  wraps round or a file is closed twice.

How the world is modelled.  A driver is a sequence of bytes or sectors, a file a sequence of bytes.
Rate-limit answers, driver answers and backend return values are parameters that range over everything.
Where a list of answers is used up, a driver or backend succeeds and a rate limit stays tripped.  Code that other threads or callbacks interrupt
is a state machine over its steps, and the classes beside it run the source's loops as runs of that machine.
`long` has 32 bits and a page 4096 bytes.

Where code and documentation disagree, the code is followed.  The comment of `bdrv_aio_multiwrite` says that
after -1 some callbacks may still be called; in the code none is.  The comment in stage 3 of
`block_save_live` says that all reads have completed, but nothing guarantees that the rate-limited flush has
emptied the queue; `SendAllExact` says what is then lost.

## Model

| member | source | states |
|---|---|---|
| RamState.NextDirtyComplete | qemu/arch_init.c:113-175 | A full turn of the scan finds nothing exactly when no page of any block is dirty |
| RamState.ScanNearest | qemu/arch_init.c:125-172 | The page the scan stops at is the nearest dirty one in the cyclic order of blocks and pages |
| RamState.ClearDirtyExact | qemu/cpu-all.h:1005-1022 | Masking one page's migration flag makes that page clean and leaves every other page's dirtiness |
| RamState.DirtyCountZero | qemu/arch_init.c:179-195 | The remaining-page count is 0 exactly when no page is dirty |
| RamSaver.IsDupPage | qemu/arch_init.c:95-108 | The 32-bit comparison loop says yes exactly when all 4096 bytes equal the given byte of the page |
| RamSaver.Saver.MaskDirtyRange | qemu/cpu-all.h:1005-1022 | The loop clears the given flag bits of exactly the pages of the range |
| RamSaver.Saver.MaskPage | qemu/arch_init.c:130-132 | The dirty page's flag is masked and nothing else changes |
| RamSaver.Saver.BuildRecord | qemu/arch_init.c:134-156 | The record of a page: word with flags, name unless the block is the last one sent, one byte or the page |
| RamSaver.Saver.ScanDirty | qemu/arch_init.c:120-172 | The scan loop terminates and returns the next dirty page from the cursor, or reports a clean turn that ended on the cursor |
| RamSaver.Saver.SendPage | qemu/arch_init.c:126-158 | One dirty page is masked, its record appended, and the cursor moved to it |
| RamSaver.Saver.MarkBlock | qemu/arch_init.c:278-283 | The page loop marks exactly the pages of a block that are not dirty |
| RamSaver.Saver.MarkPages | qemu/arch_init.c:275-284 | The loops over blocks and pages mark exactly the pages that are not dirty |
| RamSaver.Saver.SaveBlock | qemu/arch_init.c:113-175 | Returns 0 exactly when nothing is dirty; otherwise the state and the stream are those of sending the next dirty page |
| RamSaver.Saver.MarkAllDirty | qemu/arch_init.c:275-284 | After the loops of stage 1 every page of every block is dirty, and every flag bit that was set still is |
| RamSaver.Saver.Begin | qemu/arch_init.c:268-296 | Stage 1 rewinds the cursor, marks all pages and writes the total and the block table |
| RamSaver.Saver.SaveSome | qemu/arch_init.c:301-309 | The rate-limited loop sends next dirty pages until limited or clean |
| RamSaver.Saver.SaveAll | qemu/arch_init.c:321-329 | The stage 3 loop terminates on the dirty-page count, sends every dirty page and leaves nothing dirty |
| RamSaver.Saver.SaveSection | qemu/arch_init.c:298-331 | The pages of a call followed by the EOS word |
| RamSaver.Saver.SaveLive | qemu/arch_init.c:251-336 | A call of stage 1, 2 or 3 changes flags, cursor and stream as the specification of the call, and keeps the cursor invariant |
| RamSaver.Saver.Remaining | qemu/arch_init.c:179-195 | The counting loops return the number of dirty pages |
| RamSaver.Saver.GuestStore | qemu/exec.c:3321-3340 | A guest write changes the page and sets every flag of it but the code flag |
| RamEndToEnd.SendEvents | qemu/arch_init.c:251-336 | Guest writes and stage 2 calls in turn produce the specified run |
| RamEndToEnd.Send | qemu/arch_init.c:251-336 | Stage 1, the events and stage 3 leave the RAM and the stream of the specified migration |
| RamEndToEnd.LoadEvents | qemu/arch_init.c:368-458 | One load per section follows the run of the receiver, or stops at its first failure |
| RamEndToEnd.Receive | qemu/arch_init.c:368-458 | The loads of a whole migration, with their first failure |
| RamEndToEnd.Migrate | qemu/arch_init.c:251-458 | Sender and receiver code together: the receiver accepts every byte and ends with the source's RAM, whatever the guest wrote and the limits were |
| RamMigration.SaveBlockKeepsReady | qemu/arch_init.c:113-175 | Sending keeps the cursor invariant (a null cursor only while every page is dirty) and clears exactly one page |
| RamMigration.NullCursorStopsAtOnce | qemu/arch_init.c:113-126 | With a null last_block the very first page is dirty, so the loop test never uses the null cursor |
| RamMigration.ScanAdvances | qemu/arch_init.c:160-172 | Past a clean page the cursor is real, and the scan is one page further or back where it began |
| RamMigration.NothingSentOnlyWhenClean | qemu/arch_init.c:113-175 | No bytes are produced exactly when no page is dirty, and then nothing changes |
| RamMigration.ReceiveCopies | qemu/arch_init.c:422-451 | Replaying a page record copies that page and disturbs no other |
| RamMigration.SaveBlockInStep | qemu/arch_init.c:113-158 | Sending and replaying one page keeps the invariant: each page is dirty or its last replayed copy is current, and the remembered block is the sender's |
| RamMigration.SectionLoads | qemu/arch_init.c:298-331 | Replaying one section, across its EOS, leaves the receiver in step with the sender; after stage 3 nothing is dirty |
| RamMigration.StageOneLoads | qemu/arch_init.c:268-331 | Stage 1 brings a receiver with arbitrary contents into step |
| RamMigration.GuestWriteDirties | qemu/exec.c:3321-3340 | After a guest write a page is dirty exactly when it was dirty or was written |
| RamMigration.GuestWriteInStep | qemu/exec.c:3321-3340 | A guest write at any moment keeps the two sides in step |
| RamMigration.RunLoads | qemu/arch_init.c:251-458 | For every interleaving of guest writes and rate-limited calls the replayed receiver is in step |
| RamMigration.MigrationDelivers | qemu/arch_init.c:251-458 | End to end: for every run followed by stage 3, the receiver accepts the whole stream and its RAM equals the source's |
| RamStream.WordDecodes | qemu/arch_init.c:136-153 | Page offset and flags packed by bitwise or come back unchanged from the big-endian word |
| RamStream.DupFill | qemu/arch_init.c:434-435 | A page sent as one repeated byte is restored exactly |
| RamStream.PageRecordLoads | qemu/arch_init.c:128-158 | A page record, with or without CONTINUE, is consumed exactly and stores exactly the page sent in the block of that name |
| RamStream.HeaderLoads | qemu/arch_init.c:289-296 | The stage 1 header passes the receiver's check of names and lengths and is consumed exactly |
| RamStream.EosLoads | qemu/arch_init.c:331-331 | The EOS word ends the section and changes nothing |
| RamReceiver.Receiver.FindBlock | qemu/arch_init.c:359-362 | The first block with the given name, or none |
| RamReceiver.Receiver.CheckBlocks | qemu/arch_init.c:389-418 | The table loop accepts exactly the tables whose names and lengths match, with unsigned subtraction |
| RamReceiver.Receiver.LoadPage | qemu/arch_init.c:422-451 | Writes the page to the named or remembered block, or reports an error or a wild pointer, for every byte sequence |
| RamReceiver.Receiver.LoadRecord | qemu/arch_init.c:378-451 | One iteration of ram_load on every byte sequence, including failures |
| RamReceiver.Receiver.Load | qemu/arch_init.c:368-458 | ram_load stops at the first EOS record with the specified memory, remembered block and rest |
| DirtyBitmap.VisitsIsTouches | qemu/block.c:955-958 | For a nonempty range the chunks visited are exactly those holding one of its sectors |
| DirtyBitmap.VisitsOfEmpty | qemu/block.c:955-958 | An empty range still visits its chunk, except at a chunk boundary past the first |
| DirtyBitmap.LastWroteMeans | qemu/block.c:949-975 | With nonempty ranges: dirty means a write touched the chunk and nothing has touched it since |
| DirtyBitmap.Device.constructor | qemu/block.c:2848-2869 | A device starts untracked, with no history and count 0 |
| DirtyBitmap.Device.Flip | qemu/block.c:960-973 | Setting or clearing one bit changes that bit only and keeps the count equal to the number of set bits |
| DirtyBitmap.Device.SetDirtyBitmap | qemu/block.c:949-975 | Exactly the visited chunks are set or cleared; bits agree with the history and the count with the bits |
| DirtyBitmap.Device.SetDirtyTracking | qemu/block.c:2848-2869 | Count and bits agree afterwards if and only if tracking was not enabled over existing dirty chunks |
| DirtyBitmap.EnableTwice | qemu/block.c:2848-2869 | Concrete run: enabling twice with a write in between leaves the count at 0 with a dirty chunk |
| DirtyBitmap.Device.GetDirty | qemu/block.c:2871-2883 | True exactly for tracked sectors inside the device whose chunk was last written, not reset |
| DirtyBitmap.Device.GetDirtyCount | qemu/block.c:2891-2894 | The count is 0 exactly when no chunk is dirty |
| DirtyBitmap.RemainingDirty | qemu/block-migration.c:495-505 | The sum over devices is 0 exactly when no device has a dirty chunk |
| BlockDirty.StepKeepsChunks | qemu/block.c:949-975 | Every step of the migration machine changes the set of dirty chunks as its calls of set_dirty_bitmap change the chunks last written |
| BlockDirty.RunKeepsChunks | qemu/block.c:949-975 | So does every run, and all its calls lie inside the device |
| BlockDirty.SendKeepsChunks | qemu/block-migration.c:421-431 | So does sending a dirty chunk in stage 3 |
| BlockDirty.TrackRun | qemu/block.c:949-975 | A clean bitmap that sees the calls of a run ends with exactly the bits of the machine's set |
| BlockDirty.GetDirty | qemu/block.c:2871-2883 | bdrv_get_dirty on such a bitmap answers membership in the set |
| BlockInvariant.NewestAfterDone | qemu/block-migration.c:186-203 | A read that finishes in order moves to the queue without changing any byte's newest copy |
| BlockInvariant.NewestAfterFlush | qemu/block-migration.c:471-488 | Moving the head of the queue to the stream changes no byte's newest copy |
| BlockInvariant.LatestReadSampled | qemu/block-migration.c:241-246 | A sampled byte of a read in flight is the disk's byte; no other newest copy changes |
| BlockInvariant.GuestSettles | qemu/block.c:2176-2188 | Guest writes, byte by byte and at completion, keep every byte unsent, dirty, under a write or current |
| BlockInvariant.BulkDeviceSettles | qemu/block-migration.c:205-262 | A bulk read, with or without a shared base, keeps the per-byte invariant |
| BlockInvariant.DirtySettles | qemu/block-migration.c:405-433 | An asynchronous dirty read keeps the per-byte invariant |
| BlockInvariant.PercentBound | qemu/block-migration.c:347-358 | Reported progress never exceeds 100 |
| BlockInvariant.CompletedAtMostTotal | qemu/block-migration.c:107-132 | Completed sectors never exceed total sectors |
| BlockInvariant.StepKeepsValid | qemu/block-migration.c:186-493 | Every step keeps submitted equal to the reads in flight, read_done equal to the queue length, and cursors and buffers well formed |
| BlockInvariant.StepSettles | qemu/block-migration.c:186-493 | Every step of the thread, the guest and the reads keeps the per-byte invariant, unless a read failed |
| BlockMigration.StepKeepsInv | qemu/block-migration.c:186-493 | Every orderly step keeps the invariant of the whole state |
| BlockMigration.RunKeepsInv | qemu/block-migration.c:557-612 | So does every run in which same-chunk reads finish in order |
| BlockMigration.SendAllKeeps | qemu/block-migration.c:614-621 | The stage 3 pass leaves no chunk dirty and keeps the invariant and the disks |
| BlockMigration.ReplayAt | qemu/block-migration.c:639-713 | What the destination holds at a byte after replay is the last block covering it |
| BlockMigration.MigrationDelivers | qemu/block-migration.c:557-713 | End to end: after any orderly run with the bulk phase over and everything drained, stage 3 and replay make every device equal its source |
| BlockMigration.SendAllExact | qemu/block-migration.c:548-552 | Exactly when a byte survives stage 3: its chunk is dirty or the last copy already sent is current, since queued blocks are dropped |
| BlockMigration.RunKeepsValid | qemu/block-migration.c:118-203 | Over every run the counters count what they should and bytes remaining cannot underflow |
| BlockMigration.BulkAdvances | qemu/block-migration.c:205-262 | A bulk step moves cur_sector strictly forward or finishes the device; completed_sectors does not go back |
| BlockMigration.StepCompletedMonotone | qemu/block-migration.c:205-262 | No step moves completed_sectors back |
| BlockLimits.OutOfOrderIsStale | qemu/block-migration.c:225-250 | A read that finishes before an earlier one of its chunk makes the earlier one's bytes the newest copy; a sent, clean byte stays settled exactly when these bytes are not read yet or current |
| BlockLimits.OutOfOrderArrives | qemu/block-migration.c:186-203 | When both have finished, the older copy is the last to be sent |
| BlockLimits.SwappedReadsLoseAWrite | qemu/block-migration.c:205-262 | A migration of a one-sector disk, in two rounds and for every environment, with two swapped reads, drained and with the bulk phase over, after which the destination keeps the overwritten byte |
| BlockLimits.LimitedFlushLosesABlock | qemu/block-migration.c:614-634 | A migration of a one-sector disk whose scripts are orderly and whose rate-limited last flush loses the queued block |
| BlockLimits.SomeEnvironmentFlushes | qemu/block-migration.c:388-390 | From every state all reads in flight can succeed in order, so that a flush can always return |
| BlockRun.BulkProgress | qemu/block-migration.c:586-593 | Each bulk step submits a read, gets past a device or ends the phase, so the stage 2 loop ends |
| BlockRun.EnvRunKeeps | qemu/block-migration.c:186-203 | Completions keep submitted plus read_done; guest and read steps touch nothing else of the thread |
| BlockRun.ScanDeviceKeeps | qemu/block-migration.c:379-438 | A pass over a device is an orderly run that raises submitted plus read_done by one exactly when it found a dirty chunk |
| BlockRun.SubmitKeeps | qemu/block-migration.c:582-601 | The submitting loop is an orderly run that ends at the limit or with the bulk phase over |
| BlockRun.FlushRunKeeps | qemu/block-migration.c:463-493 | A flush keeps disks and reads in flight, fails only at a failed read, and empties the queue when it is not limited |
| BlockRun.Stage2Keeps | qemu/block-migration.c:572-612 | A stage 2 call is an orderly run that ends its section, or stops at a failed read |
| BlockRun.MigrationRunKeeps | qemu/block-migration.c:557-637 | Every migration keeps the state well formed, fails only at a failed read or with reads in flight, and is orderly exactly when the environment was between the calls |
| BlockStream.WordDecodes | qemu/block-migration.c:91-93 | Sector and flag packed by bitwise or come back unchanged, as an arithmetic shift of the signed word |
| BlockStream.RecordLoads | qemu/block-migration.c:86-100 | Each record decodes to exactly its effect and is consumed exactly |
| BlockStream.StreamLoads | qemu/block-migration.c:639-713 | Loading whole sections replays exactly the blocks carried, onto the devices of those names and no others |
| BlockStream.StreamDelivers | qemu/block-migration.c:557-713 | End to end over bytes: loading the migration's stream leaves each migrated device equal to its source and all others unchanged |
| BlockReceiver.Receiver.WriteBlock | qemu/block-migration.c:657-692 | A device block is written to the named device, cut at its end, or refused |
| BlockReceiver.Receiver.LoadOne | qemu/block-migration.c:651-709 | One iteration of block_load on every byte sequence |
| BlockReceiver.Receiver.Load | qemu/block-migration.c:639-713 | block_load stops at the first EOS record with the specified devices and rest |
| BlockSaver.IsAllocated | qemu/block.c:1662-1676 | A positive run of sectors in the same allocation state |
| BlockSaver.SkipUnallocated | qemu/block-migration.c:214-220 | The skipping loop ends at the first allocated sector or at the end of the disk |
| BlockSaver.Saver.constructor | qemu/block-migration.c:281-330 | Stage 1 takes the writable, nonempty drives with all cursors and counters at the start |
| BlockSaver.Saver.BytesRemaining | qemu/block-migration.c:107-132 | Bytes remaining are total minus completed and never negative |
| BlockSaver.Saver.SaveDeviceBulk | qemu/block-migration.c:205-262 | Submits the read of the next chunk or reports the device done, as the specified step |
| BlockSaver.Saver.SaveFirstUnfinished | qemu/block-migration.c:339-350 | The device loop serves the first unfinished device and sums completed sectors up to it |
| BlockSaver.Saver.SaveBulkedBlock | qemu/block-migration.c:332-368 | One bulk step with its progress report; false exactly when all devices are done |
| BlockSaver.Saver.RunEnvironment | qemu/block-migration.c:186-203 | Guest steps and read completions in any order are a run of the machine |
| BlockSaver.Saver.AwaitChunk | qemu/block-migration.c:388-390 | The flush before a chunk marked in flight is the run the environment gives, and leaves nothing in flight |
| BlockSaver.Saver.SubmitChunk | qemu/block-migration.c:405-433 | A dirty chunk's read is submitted, its dirty mark cleared and its in-flight mark set |
| BlockSaver.Saver.SaveDeviceDirty | qemu/block-migration.c:379-438 | From the cursor on the first chunk found dirty is submitted, after the waits for marked chunks; done exactly when the cursor passed the end |
| BlockSaver.Saver.SaveDirtyBlock | qemu/block-migration.c:448-461 | The pass over all devices is the specified one; true exactly when one more read is outstanding or queued |
| BlockSaver.Saver.SendHead | qemu/block-migration.c:471-487 | The head of the queue is sent and the counters moved |
| BlockSaver.Saver.FlushBlks | qemu/block-migration.c:463-493 | Sends in queue order exactly until limited, failed or empty; unlimited and without failed reads it empties the queue |
| BlockSaver.Saver.SubmitReads | qemu/block-migration.c:582-601 | The stage 2 loop terminates, is the specified run, and stops only at the rate limit or with the bulk phase over and every dirty cursor at its end |
| BlockSaver.Saver.SubmitStage2 | qemu/block-migration.c:574-601 | The first flush and the submitting loop from cursors at zero, with the loop's stopping condition |
| BlockSaver.Saver.SaveStage2 | qemu/block-migration.c:572-612 | A stage 2 call is exactly the run determined by the state, the limits and the environment; it ends its section, or reports a failed read |
| BlockSaver.Saver.SendDeviceDirty | qemu/block-migration.c:379-438 | The synchronous scan sends the device's first dirty chunk or finds none |
| BlockSaver.Saver.SendDirtyBlock | qemu/block-migration.c:448-461 | The first dirty chunk of the first device that has one is sent; false exactly when none is dirty |
| BlockSaver.Saver.SendAllDirty | qemu/block-migration.c:619-621 | The stage 3 loop terminates on the number of dirty chunks and sends them all |
| BlockSaver.Saver.PutClosing | qemu/block-migration.c:625-634 | The progress record of 100 percent and the EOS record |
| BlockSaver.Saver.SaveStage3 | qemu/block-migration.c:614-634 | Stage 3 flushes as far as the limits allow, sends all dirty chunks, drops the rest and writes the closing records |
| BlockEndToEnd.DoRound | qemu/block-migration.c:572-612 | A stage 2 call after the environment moved, as the run of that round |
| BlockEndToEnd.DoRounds | qemu/block-migration.c:572-612 | The rounds in turn up to the first failure |
| BlockEndToEnd.SendBeforeStage3 | qemu/block-migration.c:557-612 | Stage 1 and the rounds are the run up to stage 3 |
| BlockEndToEnd.Send | qemu/block-migration.c:557-637 | Stages 1 to 3 write the stream of the run determined by drives, rounds, environment and limits; they fail exactly when that run does, and then a read failed or was still in flight |
| BlockEndToEnd.Receive | qemu/block-migration.c:639-713 | Repeated block_load consumes the stream section by section |
| BlockEndToEnd.Migrate | qemu/block-migration.c:557-713 | Sender and receiver code together: a migration whose run is orderly, past the bulk phase and drained succeeds and leaves the destination with the source's disks and its other devices untouched; one whose run fails reports failure |
| Iovec.TakeIsPrefix | qemu/cutils.c:178-209 | The io vectors copied hold exactly the given prefix of the data |
| Iovec.Concat | qemu/cutils.c:178-214 | The copy loop appends those io vectors |
| Multiwrite.JoinedAt | qemu/block.c:2343-2364 | A joined request has the run's bytes before the request, zeros in the gap, and the request's bytes |
| Multiwrite.MergePreserves | qemu/block.c:2309-2378 | If every join is faithful, the merged requests write what the sorted ones write, zeros in approved gaps and nothing else |
| Multiwrite.MergeOnDisk | qemu/block.c:2309-2378 | The same as contents of a disk |
| MultiwriteExact.MergeExact | qemu/block.c:2309-2378 | On labelled payloads the merged requests mean the same if and only if every join is faithful |
| MultiwriteExact.FaithfulIffSameSource | qemu/block.c:2309-2378 | For any payloads: faithful if and only if every byte comes from the request the sorted order takes it from |
| MultiwriteExact.FaithfulAlike | qemu/block.c:2309-2378 | Faithfulness depends only on sectors, lengths and io vector counts |
| Multiwrite.EndsSuffice | qemu/block.c:2309-2378 | If no sorted request ends before an earlier one, merging is faithful for every driver |
| MultiwriteExact.CutTailIsLost | qemu/block.c:2343-2346 | Concrete requests: a shorter request with the same start loses the longer one's second sector |
| MultiwriteExact.GapOverLongRequest | qemu/block.c:2319-2364 | Concrete requests: zeros for an approved gap overwrite data of a request left unmerged by the io vector limit |
| MultiwriteMerge.SortRequests | qemu/block.c:2288-2303 | A permutation sorted by start sector |
| MultiwriteMerge.ShouldMerge | qemu/block.c:2319-2341 | The three tests decide as specified, including the io vector limit |
| MultiwriteMerge.Join | qemu/block.c:2343-2367 | Builds the joined request |
| MultiwriteMerge.MergeRequests | qemu/block.c:2309-2378 | The array's first n entries become the merge of a sorted permutation of the requests |
| MultiwriteCompletion.RunKeepsInv | qemu/block.c:2257-2286 | In every interleaving: freed at most once and never used afterwards; callbacks fire once each, after the loop and all requests, with the first negative result or 0; after -1 none fires |
| MultiwriteCompletion.StepKeepsInv | qemu/block.c:2394-2480 | num_requests is the requests in flight plus the dummy and the one being submitted |
| MultiwriteCompletion.FirstNegativeMeans | qemu/block.c:2277-2279 | The recorded error is the first negative result |
| MultiwriteCompletion.Multiwrite.constructor | qemu/block.c:2412-2447 | The control block starts with the dummy request |
| MultiwriteCompletion.Multiwrite.Callback | qemu/block.c:2271-2286 | Records the first error, counts down, and at 0 fires the callbacks and frees the block |
| MultiwriteCompletion.Multiwrite.UserCallbacks | qemu/block.c:2257-2269 | Every callback once, in order, with the recorded error |
| MultiwriteCompletion.Multiwrite.SubmitOne | qemu/block.c:2450-2466 | One turn of the loop is the run of the early results given and the driver's answer |
| MultiwriteCompletion.Multiwrite.Drive | qemu/block.c:2271-2286 | Completions with the results given, as long as requests are in flight |
| MultiwriteCompletion.Multiwrite.Submit | qemu/block.c:2447-2480 | The run is that of the answers given, up to the first refusal, then the dummy; returns -1 exactly when the first submission is refused, and never touches a freed block |
| ByteIo.Device.Read | qemu/block.c:935-947 | Returns the sectors asked for exactly when they lie in the device and the driver succeeds |
| ByteIo.Device.Write | qemu/block.c:983-1003 | Replaces exactly the sectors given; a failing write changes at most these |
| ByteIo.Device.WriteWithin | qemu/block.c:1061-1070 | Read, modify, write replaces exactly the bytes given within a sector; failing, it changes at most that sector |
| ByteIo.Device.Pread | qemu/block.c:1005-1045 | On success exactly the requested slice, for every offset and length; it succeeds on slices inside the device |
| ByteIo.Device.Pwrite | qemu/block.c:1047-1097 | On success exactly the slice is replaced; on failure a prefix of the data was written and beyond it only sectors of the slice may have changed, none if failing requests leave the disk alone |
| ByteIo.Device.WriteThenRead | qemu/block.c:1005-1097 | What was written is read back |
| Commit.WriteUnderAllocated | qemu/block.c:827-841 | Whatever happens to backing sectors under allocated ones, the guest reads the same |
| Commit.CopyShows | qemu/block.c:827-841 | Copying a run down extends what the backing file alone shows |
| Commit.EmptyKeepsView | qemu/block.c:845-848 | Once the backing file shows everything, dropping any overlay sectors changes nothing |
| Commit.Image.IsAllocated | qemu/block.c:1662-1676 | Any sound answer with a positive run length |
| Commit.Image.CopyRun | qemu/block.c:828-840 | Succeeds exactly when the drivers work and the run fits; the guest's view is kept even by a failed write |
| Commit.Image.CopyAll | qemu/block.c:827-842 | The view is the same after every turn and after an abort; without one the backing file shows it |
| Commit.Image.Commit | qemu/block.c:824-852 | The view is preserved throughout; without an abort the backing file alone equals it, also after emptying |
| Gf256.InvSboxSbox | qemu/aes.c:325-720 | The inverse S-box undoes the S-box on every byte |
| SboxOrigin.SboxOfInverse | qemu/aes.c:325-390 | For the multiplicative inverse y of x, and for no other y, the affine map of section 5.1.1 of FIPS 197 takes y to the S-box at x |
| SboxOrigin.SboxIsAffineOfInverse | qemu/aes.c:325-390 | Every element of the field has exactly one inverse, with 0 for 0, which the S-box determines |
| SboxOrigin.InverseIsUnique | qemu/aes.c:325-390 | No element of the field has two inverses |
| SboxOrigin.SboxGivesInverse | qemu/aes.c:325-390 | Undoing the affine map on a table entry gives the inverse of its index |
| Gf256.Times2Conditional | qemu/aes.c:46-58 | Multiplication by 02 in the conditional form of section 4.2.1 of FIPS 197 |
| Gf256.InvMixMix | qemu/aes.c:46-58 | InvMixColumns undoes MixColumns on every column |
| AesTables.TeRoundsIsRound | qemu/aes.c:980-1036 | Sixteen table lookups are one round of the cipher of section 5.1 of FIPS 197 |
| AesTables.TeFinalIsFinalRound | qemu/aes.c:1038-1069 | The masked Te4 lookups are the final round |
| AesTables.TdRoundsIsInvRound | qemu/aes.c:1171-1227 | Sixteen inverse lookups are one round of the equivalent inverse cipher of section 5.3.5 of FIPS 197 |
| AesTables.TdFinalIsInvFinalRound | qemu/aes.c:1229-1260 | The masked Td4 lookups are its final round |
| AesTables.InvMixQuadIsInvMixColumns | qemu/aes.c:853-876 | Td lookups of Te4 bytes are InvMixColumns of a round key |
| AesTables.SubRotWordIsSubRot | qemu/aes.c:758-764 | The key expansion's masked lookups are SubWord of RotWord |
| AesSpec.InvRoundUndoesRound | qemu/aes.c:1076-1261 | One inverse round with a transformed key undoes one round |
| AesSpec.EqInvCipherInverts | qemu/aes.c:832-1261 | The equivalent inverse cipher with the transformed, reversed schedule inverts the cipher |
| Aes.Key.Expand128 | qemu/aes.c:756-773 | The 128-bit loop fills the schedule with the key expansion of section 5.2 of FIPS 197 |
| Aes.Key.Expand192 | qemu/aes.c:774-795 | The 192-bit loop does, with its short last group |
| Aes.Key.Expand256 | qemu/aes.c:796-825 | The 256-bit loop does, with its second substitution |
| Aes.Key.SetEncryptKey | qemu/aes.c:731-827 | For 128, 192 and 256 bits the schedule is the key expansion; other sizes return -2 |
| Aes.Key.ReverseRoundKeys | qemu/aes.c:846-852 | The round keys are reversed in place |
| Aes.Key.SetDecryptKey | qemu/aes.c:832-878 | The schedule becomes the decryption schedule of the same key |
| Aes.Key.Encrypt | qemu/aes.c:885-1069 | The table cipher equals the round-by-round cipher for every block and schedule |
| Aes.Key.Decrypt | qemu/aes.c:1076-1261 | The table decryptor equals the equivalent inverse cipher |
| Aes.DecryptUndoesEncrypt | qemu/aes.c:885-1261 | Decryption undoes encryption for every block and every schedule |
| AesCbc.CbcRoundTrip | qemu/aes.c:1265-1314 | Decrypting what was encrypted from the same IV returns the data, for every length |
| AesCbc.CbcEncryptChains | qemu/aes.c:1265-1294 | On whole blocks, encrypting a then b through the updated IV is encrypting a + b |
| AesCbc.CbcDecryptChains | qemu/aes.c:1295-1314 | The same for decryption |
| AesCbc.CbcIvsAgree | qemu/aes.c:1265-1314 | On whole blocks both directions leave the same IV |
| AesCbc.CbcIvsAfterPartial | qemu/aes.c:1286-1312 | After a partial block the two directions leave different IVs, unless the cipher maps the filled block to itself |
| AesCbc.Encrypt | qemu/aes.c:1276-1294 | The in-place encryption loop, with a filled last block, computes the CBC of SP 800-38A, also when input and output are one buffer |
| AesCbc.Decrypt | qemu/aes.c:1295-1313 | The in-place decryption loop computes its inverse, also when input and output are one buffer |
| AesEndToEnd.MakeKeys | qemu/aes.c:731-878 | From one user key, an encryption schedule and the decryption schedule that belongs to it; other sizes return -2 |
| AesEndToEnd.BlockThereAndBack | qemu/aes.c:731-1261 | Encrypting a block under a user key and decrypting it under the same gives the block back, for all three sizes |
| AesEndToEnd.BufferThereAndBack | qemu/aes.c:731-1314 | A buffer of any length encrypted in place and decrypted in place from the same IV is as before |
| Bits.FirstBit | qemu/bitops.h:31-61 | The halving search returns the lowest set bit |
| Bitmap.FindNextBit | qemu/bitops.c:21-64 | The first set bit at or after the offset, or size |
| Bitmap.FindNextZeroBit | qemu/bitops.c:70-113 | The first clear bit at or after the offset, or size |
| Bitmap.Fill | qemu/bitmap.c:160-198 | Exactly the bits of the range get the value |
| Words.AlignIsLeast | qemu/bitmap.c:224-225 | The align expression gives the least multiple of 2^k at or above the index |
| Bitmap.FindNextZeroArea | qemu/bitmap.c:214-237 | On 32-bit words: the least aligned start of nr zero bits inside the map, or a value above size when none exists, if and only if the end of the last candidate does not wrap round |
| Bitmap.FirstCandidate | qemu/bitmap.c:222-230 | For an area larger than the map the first aligned zero bit decides whether the end wraps |
| Bitmap.WrappedEndIsWrong | qemu/bitmap.c:227-236 | Concrete input: an end that wraps to 0, so that a start is returned whose area leaves the map |
| Bitmap.AlignWordExact | qemu/bitmap.c:224-225 | The 32-bit align expression is the alignment if and only if its sum stays below 2^32 |
| Bitmap.WrappedAlignment | qemu/bitmap.c:221-236 | Concrete inputs: with the largest mask the search returns a bit before its start, or goes round for ever |
| BufferedFile.QEMUFileBuffered.constructor | qemu/buffered_file.c:253-281 | An empty file with a tenth of the rate as limit |
| BufferedFile.QEMUFileBuffered.Append | qemu/buffered_file.c:48-70 | The buffer grows by the bytes and the size stays within the capacity |
| BufferedFile.QEMUFileBuffered.Offer | qemu/buffered_file.c:83-103 | The loop hands over a prefix, and stops early only by freezing or failing |
| BufferedFile.QEMUFileBuffered.Flush | qemu/buffered_file.c:72-107 | Accepted bytes followed by the buffer stay the same, even on an error |
| BufferedFile.QEMUFileBuffered.PutDirectly | qemu/buffered_file.c:127-152 | Direct writes accept a prefix and stop at a freeze, the rate limit or an error |
| BufferedFile.QEMUFileBuffered.PutBuffer | qemu/buffered_file.c:109-167 | Without an error all bytes are accepted or queued behind everything put before |
| BufferedFile.QEMUFileBuffered.Close | qemu/buffered_file.c:169-190 | An error-free close delivers everything that was put; after an error nothing more is delivered |
| BufferedFile.QEMUFileBuffered.RateTick | qemu/buffered_file.c:231-251 | Nothing is lost; the client is notified exactly when neither failed nor frozen, and after an error the file is closed |
| BufferedFile.QEMUFileBuffered.TickThenClose | qemu/buffered_file.c:169-251 | A close after a tick uses the freed file exactly when there had been an error at the tick |
| BufferedFile.QEMUFileBuffered.RateLimited | qemu/buffered_file.c:192-206 | Limited exactly when frozen or over the limit, and never after an error |
| BottomHalves.StepKeepsInv | qemu/async.c:65-196 | Every step of callbacks and polls keeps lists, nesting and counters consistent |
| BottomHalves.RunKeepsInv | qemu/async.c:65-196 | In every run with nested polls only in pushed contexts: no freed bottom half is followed, callbacks run only in their context, one run per scheduling, and only contexts with idle bottom halves abandon scheduled ones |
| BottomHalfLimits.DeletedNeverRuns | qemu/async.c:138-196 | In every run, a deleted bottom half is never run again |
| BottomHalfLimits.NestedEndFollowsFreed | qemu/async.c:144-164 | Whatever a poll nested in a poll of the same context did: the outer poll then follows a freed pointer exactly when its saved next was deleted |
| BottomHalfLimits.NestedPollFollowsFreed | qemu/async.c:138-167 | The same for a complete nested poll that finds nothing to run |
| BottomHalfLimits.NestedPollRun | qemu/async.c:138-167 | A run of the main loop that ends in such a freed pointer |
| BottomHalfLimits.PopAbandonsScheduled | qemu/async.c:85-105 | When the last pass ran at most idle bottom halves the context abandons exactly those scheduled by then, and there are none unless idle ones were about |
| BottomHalfLimits.PopLosesARun | qemu/async.c:85-105 | A run in which an idle bottom half that schedules itself again is lost with its context |
| PollVisits.VisitsAll | qemu/async.c:138-153 | Over any stretch of a poll, with any nested polls in pushed contexts: what it visits and what is then ahead of it is what was ahead of it, and its return value tells whether it ran something not idle |
| PollVisits.VisitsRun | qemu/async.c:144-153 | Every bottom half ahead that is to run is run when its turn comes, unless cancelled or deleted before |
| PollVisits.PollRunsScheduled | qemu/async.c:138-167 | qemu_bh_poll visits each bottom half of its context once and in order, returns true exactly when one that was not idle ran, and runs all that were scheduled unless withdrawn before their turn |
| PollVisits.PopRunsScheduled | qemu/async.c:85-91 | async_context_pop begins with a pass over the whole context that runs all that were scheduled when it was called, idle or not, unless withdrawn before their turn |
| AsyncPolls.PassEnds | qemu/async.c:91-105 | A pass that ran something leaves less for callbacks to do or fewer bottom halves to run, so the pop loop ends; one that ran nothing pops the context |
| AsyncContexts.Async.constructor | qemu/async.c:58-59 | One context, nothing in it |
| AsyncContexts.Async.PushContext | qemu/async.c:65-71 | A new empty context on top |
| AsyncContexts.Async.NewBh | qemu/async.c:127-136 | A fresh bottom half at the head of the current list |
| AsyncContexts.Async.ScheduleBh | qemu/async.c:177-185 | Scheduling takes effect once until it runs or is cancelled |
| AsyncContexts.Async.ScheduleBhIdle | qemu/async.c:169-175 | The same for idle scheduling |
| AsyncContexts.Async.CancelBh | qemu/async.c:187-196 | Cancel and delete clear the schedule; delete marks |
| AsyncContexts.Async.EnterPoll | qemu/async.c:138-145 | A poll starts at the head of the current list |
| AsyncContexts.Async.VisitNext | qemu/async.c:144-153 | Runs the next bottom half exactly when it is scheduled and not deleted |
| AsyncContexts.Async.ReturnToPoll | qemu/async.c:151-153 | A callback returns to its poll |
| AsyncContexts.Async.RemoveDeleted | qemu/async.c:155-164 | The sweep frees exactly the deleted ones and keeps the order of the rest |
| AsyncContexts.Async.LeaveContext | qemu/async.c:93-105 | Back to the parent, where a bottom half is created and scheduled |
| AsyncContexts.Async.FinishWalk | qemu/async.c:85-105 | After the sweep the poll returns, is repeated, or the context is popped and a completion bottom half scheduled |
| AsyncContexts.Async.RunActions | qemu/async.c:65-196 | What a callback does, including polls in contexts it pushes, is the specified run and leaves the polls around it where they were |
| AsyncContexts.Async.TurnOnce | qemu/async.c:144-153 | One turn of the loop with its callback |
| AsyncContexts.Async.WalkList | qemu/async.c:144-153 | The loop over the saved next pointer terminates and is the specified walk |
| AsyncContexts.Async.PollBh | qemu/async.c:138-167 | qemu_bh_poll as above, with what the callbacks do given in advance |
| AsyncContexts.Async.PollAndPop | qemu/async.c:91-105 | The loop of polls ends, and the context is left |
| AsyncContexts.Async.PopContext | qemu/async.c:85-105 | async_context_pop polls until a poll runs nothing, and runs everything scheduled at the call unless withdrawn |
| AioHandlers.StepKeepsInv | qemu/aio.c:42-99 | Setting handlers and walking keep the list consistent |
| AioHandlers.RunKeepsInv | qemu/aio.c:42-228 | In every run at most one handler per descriptor is not deleted, no walk touches a freed node, and no dispatch walk calls a deleted handler |
| AioHandlers.WalkVisitsAll | qemu/aio.c:199-228 | A finished walk visited each node of the initial list once, in order, and none inserted since |
| AioWalk.Aio.constructor | qemu/aio.c:20-28 | No handlers, no walk |
| AioWalk.Aio.FindHandler | qemu/aio.c:42-53 | The first undeleted handler of the descriptor |
| AioWalk.Aio.SetFdHandler | qemu/aio.c:55-99 | Adds, updates, marks or frees the handler as specified |
| AioWalk.Aio.Callback | qemu/aio.c:55-99 | A callback sets exactly the handlers given |
| AioWalk.Aio.CallIfDue | qemu/aio.c:204-213 | Calls exactly what is due at a node, and then sets exactly what the callback sets |
| AioWalk.Aio.LeaveNode | qemu/aio.c:215-221 | Moves past the node and frees it if deleted |
| AioWalk.Aio.VisitNode | qemu/aio.c:204-221 | Read callback, write callback and the move past the node, in that order |
| AioWalk.Aio.WalkHandlers | qemu/aio.c:199-228 | Both walks come to their end, visiting the initial list exactly once and in order for every behaviour of the callbacks; the calls returned are those of the walk, none twice, and only to initial nodes |
| AioWalk.WalkFinishes | qemu/aio.c:199-228 | The walk ends with every initial node visited and its calls recorded |
| AioWalk.CallsOnce | qemu/aio.c:199-228 | No callback is called twice in a walk, and none that was added during it |
| AioWalk.UntouchedIsCalled | qemu/aio.c:204-213 | A handler whose descriptor no callback touches is called exactly when it is ready and not deleted |
| AioWalk.QueueCalledEvenIfDeleted | qemu/aio.c:123-141 | A queue walk calls the queue callback of a node exactly when it has one, whatever was deleted before or during the walk |
| AioWalk.DeletedQueueRun | qemu/aio.c:123-141 | A run in which a queue callback deletes another handler whose queue callback is then called |
| Words.BigEndianRoundTrip | qemu/arch_init.c:289-294 | Big-endian words read back the value written |
| Words.OrAligned | qemu/arch_init.c:136-153 | Flags below an aligned offset are added by bitwise or |

## Left out

- BlockMigration.MigrationDelivers: assumes that no guest write was in flight when tracking was switched on, that reads of one chunk finish in submission order (bulk reads never set the in-flight mark), and that stage 3 finds nothing in flight and drains the queue; `OutOfOrderIsStale`, `SwappedReadsLoseAWrite`, `SendAllExact` and `LimitedFlushLosesABlock` show what happens otherwise.
- BlockSaver.Saver.SaveDeviceBulk: a refused submission (`bdrv_aio_readv` returning NULL) is not modelled; a read that completes with an error is.
- BlockSaver.Saver.SaveDeviceDirty: a refused submission is not modelled.
- BlockSaver.Saver.SendDeviceDirty: a failing synchronous read, on which the stage 3 loop of the source tries again without end, is not modelled.
- BlockSaver.Saver.SubmitChunk: a refused submission is not modelled; the in-flight bitmap is a set of chunks; its word loop is that of the dirty bitmap.
- DirtyBitmap.Device.SetDirtyTracking: the bitmap has one word per 32 chunks, rounded up; the source allocates it in bytes, which can be fewer than its word accesses touch.
- BlockSaver.Saver.SaveStage2: the estimate that ends stage 2 uses floating-point bandwidth and is an arbitrary choice; the `transferred` and timing counters have no effect and are not kept.
- RamSaver.Saver.SaveLive: KVM synchronisation, `qemu_madvise`, transfer statistics and the bandwidth estimate are not modelled; blocks may be in any order, so `sort_ram_list` is not needed.
- RamReceiver.Receiver.Load: stream version 3 and the section headers around a section are not modelled; every way in which a stream can be too short is one failure.
- MultiwriteCompletion.Multiwrite.Submit: the requests' `error` fields, a missing medium and an empty list of requests are not modelled.
- MultiwriteMerge.MergeRequests: which vectors and buffers are freed with which callback is not modelled.
- ByteIo.Device.Read: a device that can grow, a missing medium and a read-only device are not modelled; the disk is a whole number of sectors.
- Commit.Image.Commit: reopening the backing file read-write and read-only is not modelled.
- Bitmap.FindNextZeroArea: size and mask together stay below 2^32, since otherwise the search need not end (`WrappedAlignment`); the length is at least 1.
- Aes.Key.SetEncryptKey: null pointers are not modelled; the S-boxes are the byte columns of the tables Te4 and Td4, and the other tables are derived from them.
- BufferedFile.QEMUFileBuffered.RateTick: the timer and what the client does when notified are not modelled; sizes do not wrap.
- AsyncContexts.Async.RunActions: what the callbacks do is a finite list of actions given in advance, so a pop whose callbacks schedule for ever is not modelled; an action on a bottom half that was freed has no effect.
- AsyncContexts.Async.FinishWalk: `qemu_bh_update_timeout` and the AIO completions run by the scheduled bottom half are not modelled.
- AioWalk.Aio.WalkHandlers: filling the descriptor sets, `select` and waits entered from callbacks are not modelled.
- `find_last_bit`, `bitops_flsl`, `hweight_long` and the set operations on bitmaps would only add easier members.
- Image opening, probing, snapshots, geometry guessing and monitor output of the block layer are driver plumbing.
- Disassemblers, option parsing, access lists, user interface and operating-system shims are not modelled.
