# EloqStore in Dafny

A model of the parts of EloqStore whose correctness rests on state carried across many operations, with
proofs that hold for every input, every run and every interleaving. `dafny verify dfyconfig.toml` checks
the whole project.

**Hashing (`external/xxhash.h`).** `Xxh3Spec` defines XXH3 on byte sequences, with the accumulate,
scramble, short-input and final-mix routines as parameters, as the source passes them around. `Xxh3` has the
stripe and block loops, `Xxh3State` the streaming state updated in place, `Xxh3Session` whole sessions of
resets, updates and digests. The invariant says which stripes are in the accumulators, which bytes are in the
buffer, and that the stale end of the buffer still shows the last consumed stripe, which the digest needs to
rebuild an overlapping last stripe. `XxhClassic` does the same for XXH32 and XXH64; `XxhMix` has the portable
wide multiply and the final mix, with an explicit inverse.

**Segment free list (`GlobalRegisteredMemory`).** `SegmentStack` models every atomic access of
TryGetSegment and Recycle as one step, including spurious failures of the weak CAS. `SegmentRuns` proves that
every interleaving from construction on is a run of a sequential stack, `SegmentMemory` covers construction,
index maps and the free counter, and `SegmentLimits` shows two limits by concrete runs: with 2^32 operations
between a pop's load and its CAS the list can be corrupted, and the free counter can pass through 2^64 - 1.
`SegmentProgress` proves lock-freedom from any state, with no such window.

**Stress-test oracle (`db_stress/`).** `ExpectedValue` has the bit fields, `Oracle` the judgement of a read
that overlaps writes, `Recovery` crash recovery by trace replay and merge, torn trace lines included,
`ThreadState` the table updated in place by prepare, commit, replay and merge, `StressSession` whole lives of a
test: batches, crash, start-up, again and again. The database is a map on which a batch takes effect at once.

**Data pages (`src/storage/data_page.cpp`, `src/storage/data_page_builder.cpp`).** `Coding` has the
variable-length integers, `PageEntry` the prefix-compressed entry with its one-byte fast path, `PageLayout` the
bytes of a page for any list of entries and any restart points, `DataPageBuilder` the builder, `DataPageIter` the
iterator with its binary search over restart points and its linear search inside a region, `DataPageRuns` the way
from a list of entries to a page and back. Iterator positions are indices into the list of entries; the invariant
ties byte offset, restart index, carried-over key and timestamp to the index.

**Branch metadata and file names (`include/common.h`).** `BranchCodec`, `FileNames` and `BranchFiles`.

**Containers.** `CircularQueue` (`include/circular_queue.h`); `LruList` and `LruCache`, the intrusive list of
cached files and the cache kept on it, with the file cleaner that unlinks files while other tasks go on using the
cache. `CleanerPlan` says which files it takes if nobody interferes and what is left afterwards, `CleanerRuns` what
it does when every request may suspend it and other tasks close, open and schedule files meanwhile.

**Arithmetic.** `StorePathLut` and `StorePaths` (`include/utils.h`); `Lehmer`, `LehmerPeriod`,
`LehmerCertificate` and `LehmerCycle` (`external/random.h`), which prove the promise in the source that the
generator cycles through every number in [1, 2^31 - 2], by Lucas's criterion with addition chains.

`Bits`, `Bytes`, `Divisors`, `Modular`, `Options`, `Primes`, `Sequences` and `Strings` hold what the others share.

## What the proofs found

- After SeekFloor the large-value flag and the expiry are those of the entry after the floor, unless the search key
  is a restart key, the floor is the last entry of its region or both entries agree in them (`SeekFloor`,
  `FloorGet`, and `FloorOfTwo` on a page built for it); the floor read of the store hands both on (`FloorRead`).
- The store-path lookup table divides by zero for some weights whose sum fits in 64 bits
  (`WrappedScaleExample`): the sum that rounds the scale up wraps. `CountsDefined` gives the exact condition.
- The slots of the lookup table are summed in 64 bits. The sum is right exactly when it stays below 2^64
  (`SlotsExactly`), and proportions survive exactly when it does not wrap to zero (`CountsProportional`); two
  weights with sum 2^64 get one slot each (`WrappedTotalExample`).
- The table is sorted exactly for at most 2^32 paths, where the cast of the index does not wrap (`SortedExactly`).
- Start-up after a crash aborts exactly when, of some key in the database, an upsert that was traced and lost wrapped
  the value base from 2^15 - 1 to 0, was replayed twice, or was followed by a replayed delete (`RecoveryTheorem`).
  With whole trace lines only the wrap can happen (`WholeLines`, `WrapLostExample`); a line cut inside a number
  can name another key and so bring about the other two (`TornExample`).
- The comment in the segment allocator that a stale CAS always fails holds for fewer than 2^32 operations. Beyond
  that a stale CAS wins exactly when the operations since the load are a multiple of 2^32 and the same segment is on
  top again (`PopWinsExactly`), and does harm exactly when that segment's successor is another one by then
  (`WinKeepsExactly`); `WindowIsExact` runs into it. Pushes need no version at all (`WinningPushIsExact`).
- The cleaner's loop over the scheduled files keeps an iterator across a suspension. The iterator dangles when the
  schedule is rehashed meanwhile or the file it stands at is opened (`DanglingRun`); it holds whenever nothing of
  the kind happens (`GatherHolds`). The walk along the list is safe, since the file it stands on is marked.
- Outside its windows of 2^15 puts and 2^14 deletes the oracle's answer depends on the true counts modulo these
  numbers alone (`OracleVerdict`), so a correct read is rejected after exactly 2^15 puts (`PutWindowIsExact`) or 2^14
  deletes (`DelWindowIsExact`).
- A manifest or archive name can be read back exactly when its branch does not pass for a number and its tag
  is not empty (`RoundTrip`). "Purely numeric" in the source also covers a hyphen before the digits, and does
  not cover numbers of 2^64 or more (`NumericBranch`).
- Metadata whose mapping was cut short is accepted with an empty mapping (`MetadataPrefix`).
- The generator's seed 2^31 - 1, which GoodSeed lets through, is a fixed point (`Random.Next`).

## Model

| member | source | states |
|---|---|---|
| `Xxh3Spec.FeedSplit` | external/xxhash.h:6412-6446 | absorbing n + m stripes is absorbing n and then m, across block ends |
| `Xxh3.Accumulate` | external/xxhash.h:4894-4910 | the stripe loop is the fold of single accumulations with the secret sliding by eight bytes |
| `Xxh3.ConsumeStripes` | external/xxhash.h:6412-6446 | from any position in a block, any number of stripes leaves the accumulators and block position that absorbing them one by one would, and the pointer moves by their length |
| `Xxh3.HashLongLoop` | external/xxhash.h:5987-6018 | whole blocks, partial block and overlapping last stripe give every stripe but the last one by one and then the last 64 bytes |
| `Xxh3.HashOnce` | external/xxhash.h:6159-6210 | the four entry points choose secret, seed and path as the one-shot definition says |
| `Xxh3.HashLongWith` | external/xxhash.h:6067-6081 | the long path is the final mix of the block loop's accumulators |
| `Xxh3Spec.ZeroSeedSecret` | external/xxhash.h:5858-5918 | the secret derived from seed 0 is the default secret, through the little-endian reads and writes |
| `Xxh3Spec.GeneratedSecretAndSeed` | external/xxhash.h:1967-1969 | for every input, length and seed, hashing with a seed and the secret generated from it is hashing with the seed |
| `Xxh3State.HoldsAppend` | external/xxhash.h:6456-6533 | bytes that fit the buffer keep the streaming invariant |
| `Xxh3State.LastStripe` | external/xxhash.h:6544-6579 | the last 64 bytes of everything given can be rebuilt from the buffer, from its stale end when fewer than 64 are buffered |
| `Xxh3State.FillAndConsume` | external/xxhash.h:6456-6533 | completing and consuming a partly filled buffer leaves exactly the rest of the input to take in |
| `Xxh3State.ConsumeDirect` | external/xxhash.h:6456-6533 | consuming from the input keeps back at least one byte and at most a buffer, and keeps the last consumed stripe at the buffer's end |
| `Xxh3State.Ingest` | external/xxhash.h:6456-6533 | update keeps the streaming invariant for every input and every fill of the buffer |
| `Xxh3State.DigestLong` | external/xxhash.h:6544-6579 | the accumulators of a digest are those of the one-shot loop on all bytes given |
| `Xxh3State.State.constructor` | external/xxhash.h:6291-6297 | a created state has a sound secret cache before any reset |
| `Xxh3State.State.ResetInternal` | external/xxhash.h:6324-6349 | clears the counters, installs seed, secret and lane constants, and sizes the block by a wrapping subtraction |
| `Xxh3State.State.Reset` | external/xxhash.h:6353-6359 | ready in the default mode with nothing given |
| `Xxh3State.State.InitCustomSecret` | external/xxhash.h:5858-5918 | the loop writes the derived secret |
| `Xxh3State.State.ResetWithSeed` | external/xxhash.h:6373-6382 | ready in the seeded mode; the cached secret is the derived one even when deriving is skipped |
| `Xxh3State.State.ResetWithSecret` | external/xxhash.h:6362-6370 | succeeds exactly for a secret of at least 136 bytes; a refused call still keeps the cache sound |
| `Xxh3State.State.ResetWithSecretAndSeed` | external/xxhash.h:6385-6393 | succeeds exactly for a secret of at least 136 bytes; a refused call changes nothing |
| `Xxh3State.State.Update` | external/xxhash.h:6456-6533 | appends the input to what the state stands for, whatever the chunk sizes |
| `Xxh3State.State.Digest` | external/xxhash.h:6581-6595 | the streaming digest is the one-shot hash of all bytes given, in the mode of the last reset |
| `Xxh3Session.Perform` | external/xxhash.h:6353-6595 | one call of any kind moves the state as the caller's view of it moves |
| `Xxh3Session.RunSession` | external/xxhash.h:6291-6595 | in every session of resets, updates and digests in any order, every digest is the one-shot hash since the last reset |
| `XxhClassic.FoldAppend` | external/xxhash.h:3536-3566 | cutting the input anywhere and carrying the unfinished stripe over changes neither lanes nor tail |
| `XxhClassic.ConsumeLong` | external/xxhash.h:3017-3038 | the loop consumes every whole stripe and stops at the tail |
| `XxhClassic.HashOnce` | external/xxhash.h:3156-3177 | the one-shot routine computes lanes, merge, length and tail as defined |
| `XxhClassic.Ingest` | external/xxhash.h:3240-3274 | update of lanes and buffer is the fold and the tail of buffered bytes plus input |
| `XxhClassic.Xxh64State.Update` | external/xxhash.h:3727-3770 | appends the input to what the state stands for |
| `XxhClassic.Xxh64State.Digest` | external/xxhash.h:3773-3786 | the digest is the one-shot hash of all bytes given |
| `XxhClassic.HashChunks64` | external/xxhash.h:3718-3786 | for every cut of fewer than 2^64 bytes, streaming XXH64 is one-shot XXH64 |
| `XxhClassic.LargeFlag` | external/xxhash.h:3240-3241 | the test on the wrapped 32-bit length still tells whether 16 bytes were ever given |
| `XxhClassic.Xxh32State.Update` | external/xxhash.h:3231-3275 | appends the input and keeps the flag right although the counter wraps |
| `XxhClassic.Xxh32State.Digest` | external/xxhash.h:3278-3291 | the digest is the one-shot hash of all bytes given, at any length |
| `XxhClassic.HashChunks32` | external/xxhash.h:3221-3291 | for every cut of any number of bytes, streaming XXH32 is one-shot XXH32 |
| `XxhMix.Mult64To128` | external/xxhash.h:4537-4551 | no intermediate sum overflows and the halves are those of the 128-bit product, for all operands |
| `XxhMix.AvalancheBijective` | external/xxhash.h:3503-3511 | the final mix and an explicit inverse undo each other, both ways round |
| `XxhMix.NoShortCollision` | external/xxhash.h:4640-4660 | for every secret and seed, no two inputs of one to three bytes share a hash |
| `SegmentStack.DecodeEncode` | include/global_registered_memory.h:189-201 | the packed head gives back its version and index |
| `SegmentStack.PopWinsExactly` | include/global_registered_memory.h:229-232 | in every state of the invariant a pop CAS wins exactly when the operations since its load are a multiple of 2^32 and the segment it loaded is on top |
| `SegmentStack.WinKeepsExactly` | src/global_registered_memory.cpp:78-109 | a pop that wins, stale or not, keeps list and ownership intact exactly when the successor it read is still that of the top |
| `SegmentStack.WinningPopIsExact` | src/global_registered_memory.cpp:78-109 | a pop CAS that wins inside the version window saw the current top and its true successor |
| `SegmentStack.WinningPushIsExact` | src/global_registered_memory.cpp:111-135 | a push CAS that wins publishes a segment that is in no one else's hands and points at the current top, with no window |
| `SegmentStack.StepKeeps` | src/global_registered_memory.cpp:78-135 | every atomic access of every thread keeps the chain finite and repeat-free and every segment with exactly one owner |
| `SegmentRuns.RunKeeps` | src/global_registered_memory.cpp:78-135 | so does every interleaving |
| `SegmentRuns.AccessesInRange` | src/global_registered_memory.cpp:94-123 | the successor array is never indexed out of range |
| `SegmentRuns.Linearizable` | include/global_registered_memory.h:30-72 | every interleaving performs a run of a sequential stack: each winning CAS is one atomic pop or push, and an empty result means the stack was empty |
| `SegmentRuns.NoDoublePop` | include/global_registered_memory.h:30-72 | between two hand-outs of a segment it was given back |
| `SegmentRuns.PushedBeforePopped` | include/global_registered_memory.h:30-72 | a segment that is not on the list is given back before it is handed out |
| `SegmentRuns.HandOut` | src/global_registered_memory.cpp:97-104 | what a pop returns is held by no caller, on no list and in no other thread's hands |
| `SegmentRuns.EveryRun` | src/global_registered_memory.cpp:12-135 | from construction with any number of segments and threads, every timely interleaving is a stack run, shares out all segments and keeps the counter in step |
| `SegmentMemory.BuildFreeList` | src/global_registered_memory.cpp:38-63 | the constructor's loops chain every segment to the one before it |
| `SegmentMemory.InitialInv` | src/global_registered_memory.cpp:38-63 | the constructed list satisfies the invariant |
| `SegmentMemory.IndexOfPtr` | include/global_registered_memory.h:203-223 | SegmentIndex undoes SegmentPtr with ChunkIdxOf, for every index |
| `SegmentMemory.SegmentsDisjoint` | include/global_registered_memory.h:210-219 | different indices are disjoint memory |
| `SegmentMemory.CountKeeps` | src/global_registered_memory.cpp:102-130 | the free counter is the list length corrected by the operations whose count is still to be booked, modulo 2^64 |
| `SegmentMemory.CountWhenQuiet` | src/global_registered_memory.cpp:102-130 | between operations the free counter is the length of the list |
| `SegmentLimits.WindowIsExact` | include/global_registered_memory.h:229-232 | an example of such a win: a legal run after which 2^32 operations separate a load from its CAS, the stale CAS wins and a held segment becomes the top |
| `SegmentLimits.FreeCountWraps` | src/global_registered_memory.cpp:102-130 | a legal run in which the free counter reads 2^64 - 1 |
| `SegmentProgress.LossesAreWon` | src/global_registered_memory.cpp:78-135 | a CAS is lost only by a thread whose snapshot a winning CAS has made stale, and losing makes it current again |
| `SegmentProgress.Progress` | src/global_registered_memory.cpp:78-135 | for every run from any state, bounds on lost CASes by winning ones, on calls that returned and on accesses by both |
| `SegmentProgress.LossesAreBounded` | include/global_registered_memory.h:31 | from construction on, the CASes lost are at most the winning ones times the number of other threads |
| `SegmentProgress.LockFree` | include/global_registered_memory.h:31 | in any state and under any schedule without spurious failures some call returns within 3 T (T + 1) + 1 accesses of T threads |
| `ExpectedValue.PackUnpack` | db_stress/expected_value.h:160-173 | every 32-bit record is its five fields packed |
| `ExpectedValue.UnpackPack` | db_stress/expected_value.h:160-173 | packing loses nothing |
| `ExpectedValue.Getters` | db_stress/expected_value.h:72-138 | each masked getter reads its own field and no other |
| `ExpectedValue.Increments` | db_stress/expected_value.h:180-187 | the counters advance and wrap inside their fields |
| `ExpectedValue.PutFields` | db_stress/expected_value.cpp:7-19 | a pending put sets one flag; a final one advances the base and clears deleted and pending, leaving the rest |
| `ExpectedValue.DeleteFields` | db_stress/expected_value.cpp:21-38 | a pending delete sets one flag; a final one advances the delete counter, sets deleted and clears pending, leaving the rest |
| `ExpectedValue.FinalParts` | db_stress/expected_value.cpp:66-74 | the final base and counter are those the pending operation will leave |
| `Oracle.StepKeeps` | db_stress/db_stress_shared_state.cpp:65-114 | prepare, write, commit and rollback keep the record equal to the true history modulo the counter widths |
| `Oracle.RunKeeps` | db_stress/db_stress_shared_state.cpp:65-114 | so does every run, and a key appears only by an applied put and disappears only by an applied delete |
| `Oracle.SnapshotCounts` | db_stress/expected_value.cpp:66-74 | what a snapshot shows of the true counts, and how the database stands to them |
| `Oracle.RangeIsExact` | db_stress/expected_value.cpp:94-111 | the range test holds exactly for the bases written between the snapshots, as a cyclic interval |
| `Oracle.OracleVerdict` | db_stress/expected_value.cpp:76-111 | for every run, however long, the answer is given by the true numbers of puts, deletes and puts seen between the samples, modulo 2^15 and 2^14 |
| `Oracle.OracleAccepts` | db_stress/expected_value.cpp:76-111 | whatever a read overlapping fewer than 2^15 puts and 2^14 deletes could return is accepted |
| `Oracle.EveryReadIsAccepted` | db_stress/db_stress_test_base.cpp:481-560 | the same for every run from a reset table on |
| `Oracle.PutWindowIsExact` | db_stress/expected_value.cpp:76-84 | example: a run of exactly 2^15 puts after which a correct read is rejected |
| `Oracle.DelWindowIsExact` | db_stress/expected_value.cpp:86-92 | example: a run with exactly 2^14 deletes after which a correct read is rejected |
| `Recovery.ReplayTracksCommit` | db_stress/db_stress_shared_state.cpp:226-240 | replaying an operation keeps base and deleted flag equal to committing it |
| `Recovery.ReplayMoreAt` | db_stress/db_stress_shared_state.cpp:204-243 | replaying a trace with any further upserts and deletes, repeated keys included, gives the live table with those operations committed as often |
| `Recovery.BatchKeepsLive` | db_stress/non_batched_ops_stress.cpp:106-190 | a finished batch keeps table, database and trace in step |
| `Recovery.SyncedConsistent` | db_stress/db_stress_test_base.cpp:619-669 | a key that passes its CHECK is left with the database's existence and base and nothing pending |
| `Recovery.RecoveryTheorem` | db_stress/db_stress_test_base.cpp:608-671 | after any run of batches and any crash point, torn trace lines included, the CHECKs pass exactly when every lost operation is forgiven, and then table and database agree on every key |
| `Recovery.WholeLines` | db_stress/non_batched_ops_stress.cpp:167-178 | without a torn line that fails only for a lost upsert of a present key whose base wrapped |
| `Recovery.AtMostTwice` | db_stress/db_stress_shared_state.cpp:224-241 | a torn line replays no upsert more than twice |
| `Recovery.TornExample` | db_stress/db_stress_shared_state.cpp:189-202 | keys 1 and 12 with the line cut inside 12: key 1 is replayed twice, and no database that has it passes |
| `Recovery.EpochTheorem` | db_stress/db_stress_test_base.cpp:598-671 | the same for one whole run from a consistent start |
| `Recovery.EveryRestart` | db_stress/db_stress_test_base.cpp:598-671 | and for any number of runs and crashes one after another |
| `Recovery.ResetIsConsistent` | db_stress/db_stress_shared_state.cpp:43-53 | a reset table agrees with an empty database |
| `Recovery.WrapLostExample` | db_stress/db_stress_test_base.cpp:631-634 | base 2^15 - 1, one upsert traced and lost: start-up aborts |
| `ThreadState.Table.ResetValues` | db_stress/db_stress_shared_state.cpp:43-53 | every cell of every partition becomes absent |
| `ThreadState.Table.Prepare` | db_stress/db_stress_shared_state.cpp:55-114 | shows the pending record in one cell and remembers the old and the final one |
| `ThreadState.Table.PrepareBatch` | db_stress/non_batched_ops_stress.cpp:128-164 | prepares every key of a batch and splits the keys into upserts and deletes in batch order |
| `ThreadState.Table.CommitAll` | db_stress/db_stress_test_base.cpp:303-322 | every pending record is replaced by its final one |
| `ThreadState.Table.WriteBatch` | db_stress/non_batched_ops_stress.cpp:128-190 | a whole batch commits in its partition, leaves the others alone, and writes the trace lines and entry values recovery relies on |
| `ThreadState.SortKeys` | db_stress/non_batched_ops_stress.cpp:127 | the keys in ascending order, none lost and none added |
| `ThreadState.Table.MixedOps` | db_stress/non_batched_ops_stress.cpp:106-190 | any distinct keys and any outcome of the dice: the sorted keys with those operations are committed, traced and handed to the store |
| `ThreadState.Table.ReplayLine` | db_stress/db_stress_shared_state.cpp:226-241 | replays the keys of a line in place, in its partition only |
| `ThreadState.Table.ReplayTrace` | db_stress/db_stress_shared_state.cpp:204-243 | every partition becomes what replaying its own lines gives |
| `ThreadState.Table.SyncPartition` | db_stress/db_stress_test_base.cpp:617-669 | the single merge pass succeeds exactly when every key passes its CHECK, and then leaves the synced table |
| `ThreadState.Table.SyncAllPartitions` | db_stress/db_stress_test_base.cpp:598-671 | start-up succeeds exactly when every key of every partition passes, and then every partition is synced |
| `ThreadState.Table.Restart` | db_stress/db_stress_test_base.cpp:598-671 | replay and merge in place after a crash of every partition go through exactly when every lost operation of every partition is forgiven, and then the table agrees with the database everywhere |
| `ThreadState.VerifyScan` | db_stress/db_stress_test_base.cpp:496-534 | the merge of a scan accepts exactly when every key alone would be accepted |
| `ThreadState.OverlapVerdict` | db_stress/db_stress_test_base.cpp:481-560 | the samples and the read of one key are accepted exactly as its true counts say, and always inside the windows |
| `ThreadState.VerifyOverlapping` | db_stress/db_stress_test_base.cpp:496-534 | a scan that overlaps writes passes exactly when the verdict on every key's true counts does, and always when every key stays inside the windows |
| `StressSession.Store` | db_stress/non_batched_ops_stress.cpp:179-190 | the entries of a batch, taken one by one, give the database recovery reckons with |
| `StressSession.Work` | db_stress/non_batched_ops_stress.cpp:106-190 | any jobs on any partitions: table, databases and trace stay what the batches of each partition make of them |
| `StressSession.Crash` | db_stress/db_stress_shared_state.cpp:189-202 | the batches in flight leave in trace and databases what their crash points say |
| `StressSession.StartUp` | db_stress/db_stress_shared_state.h:133-144 | loading the saved table, replaying the trace and merging with the scans succeeds exactly when every partition is recoverable, and then table and databases agree |
| `StressSession.LiveOnce` | db_stress/db_stress_test_base.cpp:598-671 | the same from one start-up over jobs and crash to the next |
| `StressSession.Life` | db_stress/db_stress_test_base.cpp:598-671 | a whole life from empty databases on, any runs of any jobs with any crashes: it ends well exactly when every crash of every partition can be recovered from, and then the databases are what the last crash left |
| `Coding.VarintRoundTrip` | src/coding.cpp:98-204 | a written number reads back, whatever follows, if the byte limit allows its size |
| `Coding.EncodeVarint32IsVarint` | src/coding.cpp:29-65 | the unrolled 32-bit encoder writes what the loop writes |
| `Coding.Varint32SizeIsLength` | src/coding.cpp:67-89 | the size function is the length written |
| `PageEntry.FastHead` | src/storage/data_page.cpp:483-503 | three bytes below 128 are the three numbers the slow path would read |
| `PageEntry.EntryRoundTrip` | src/storage/data_page.cpp:383-457 | an entry reads back with its timestamp cut to 63 bits, whatever follows it, from the key and timestamp before it or at a restart from nothing |
| `PageLayout.OffsetOrder` | src/storage/data_page_builder.cpp:157-252 | byte offsets order entries as their indices do |
| `PageLayout.ParseAt` | src/storage/data_page.cpp:383-457 | parsing where an entry begins gives that entry and leads to where the next begins |
| `PageLayout.KeyAtRestart` | src/storage/data_page.cpp:333-350 | at a restart point the whole key follows the three lengths |
| `DataPageBuilder.SharedPrefix` | src/storage/data_page_builder.cpp:96-103 | the loop finds the longest common prefix |
| `DataPageBuilder.FitsExactly` | src/storage/data_page_builder.cpp:194-211 | the size test is exact: it passes exactly when the finished page would fit, also for lengths that 32 bits would cut |
| `DataPageBuilder.Builder.Add` | src/storage/data_page_builder.cpp:157-252 | takes the entry exactly when the finished page would fit and otherwise changes nothing |
| `DataPageBuilder.Builder.Finish` | src/storage/data_page_builder.cpp:137-155 | the finished page holds exactly the accepted entries and their restart points |
| `DataPageIter.Iter.ParseNextKey` | src/storage/data_page.cpp:383-457 | shows exactly the entry it stands before and moves to the next, across region ends; false exactly at the end |
| `DataPageIter.Iter.SearchRegion` | src/storage/data_page.cpp:320-366 | the binary search finds the restart key equal to the search key, or splits the restart keys around it |
| `DataPageIter.Iter.Seek` | src/storage/data_page.cpp:284-318 | stops at the first entry whose key is not less than the search key, and fails exactly if there is none |
| `DataPageIter.Iter.SeekFloor` | src/storage/data_page.cpp:233-282 | finds the last entry whose key is not greater than the search key, restores its key, value, overflow, compression and timestamp, says whose large-value flag and expiry are left, and exactly when all fields are the floor's |
| `DataPageRuns.BuildAndScan` | src/storage/data_page.cpp:146-457 | for every list of entries, page size and restart interval, scanning the built page gives the accepted entries in order |
| `DataPageRuns.PointGet` | src/tasks/read_task.cpp:59-64 | on its page a point read finds the entry with that key, and nothing exactly if there is none |
| `DataPageRuns.FloorGet` | src/tasks/read_task.cpp:219-255 | on its page a floor read gives nothing exactly if every key is greater, and the floor exactly as stored if and only if the stated condition holds |
| `DataPageRuns.FloorRead` | src/tasks/read_task.cpp:219-255 | over the page and the one before it the floor is found exactly if there is one, exactly as stored if and only if the condition holds on its page; otherwise the answer is not-found without a previous page and a failed CHECK with one |
| `DataPageRuns.FloorOfTwo` | src/storage/data_page.cpp:253-281 | builds a page of two entries, reads the floor of a key between them and gets the first entry with the second one's expiry |
| `BranchCodec.MappingRoundTrip` | include/common.h:695-773 | a serialized mapping followed by any bytes reads back as itself exactly when every name is shorter than 2^32 |
| `BranchCodec.MappingPrefix` | include/common.h:726-773 | every strict prefix of a serialized mapping reads back as the empty mapping |
| `BranchCodec.MappingCanonical` | include/common.h:726-773 | whatever bytes gave a non-empty mapping begin with its serialization |
| `BranchCodec.MetadataRoundTrip` | include/common.h:777-835 | serialized metadata followed by any bytes reads back as itself exactly when all names are shorter than 2^32 |
| `BranchCodec.MetadataPrefix` | include/common.h:803-835 | cut inside name or term it is rejected; cut later it reads back without its whole mapping |
| `BranchCodec.RangeRoundTrip` | include/common.h:703-769 | one entry reads back exactly when the length of its name fits the field |
| `BranchCodec.SerializeMapping` | include/common.h:695-723 | the appending loop gives the count and the entries in order |
| `BranchCodec.DeserializeMapping` | include/common.h:726-773 | the reading loop stops with the empty mapping at the first entry that does not fit |
| `FileNames.ParseDecimal` | include/common.h:568-594 | the digit loop with its overflow test accepts exactly the digit strings up to the maximum and returns their value |
| `FileNames.TermRoundTrip` | include/common.h:568-600 | a printed term reads back |
| `FileNames.ParsePrinted` | include/common.h:55-69 | a printed number reads back through strtoull |
| `FileNames.NormalizeBranchName` | include/common.h:76-109 | one pass gives the lower-case name if every character is allowed and nothing otherwise |
| `FileNames.NormalizedIsStable` | include/common.h:76-135 | a normalized name is valid, has no separator and normalizes to itself |
| `FileNames.NumericBranch` | include/common.h:247-253 | the branch names taken for numbers are digits, or a hyphen and digits, below 2^64 |
| `BranchFiles.NumberedRoundTrip` | include/common.h:143-205 | a data or segment suffix gives back id, branch and term |
| `BranchFiles.ManifestRoundTrip` | include/common.h:215-286 | a manifest suffix gives back branch and term exactly when the branch is not taken for a number |
| `BranchFiles.ArchiveRoundTrip` | include/common.h:215-286 | an archive suffix gives back its tag, separators included, exactly when moreover the tag is not empty |
| `BranchFiles.CurrentTermRoundTrip` | include/common.h:406-467 | a CURRENT_TERM name gives back branch and partition group |
| `BranchFiles.RoundTrip` | include/common.h:478-563 | all five printers: parsing gives the fields with the branch normalized, or nothing exactly for the names listed above |
| `BranchFiles.NamesNeverCollide` | include/common.h:478-563 | two files have the same name exactly when they are equal once normalized, whether or not the name can be read back |
| `BranchFiles.OldNamesAreRefused` | include/common.h:311-381 | every name in the format without branches is refused |
| `BranchFiles.OldArchiveCollides` | include/common.h:371-381 | an old archive has the name of exactly one new file, the manifest of a branch that is a number |
| `BranchFiles.Classified` | include/common.h:603-650 | the name predicates hold of the readable printed names of their own kind and of no others |
| `CircularQueue.PowerOfTwoTest` | include/circular_queue.h:10-17 | the capacity test accepts exactly the powers of two |
| `CircularQueue.MaskWraps` | include/circular_queue.h:72-76 | masking is wrapping around |
| `CircularQueue.CircularQueue.Create` | include/circular_queue.h:10-30 | succeeds exactly for a power of two, with an empty queue |
| `CircularQueue.CircularQueue.Reset` | include/circular_queue.h:58-66 | empties the queue, also when the new capacity is refused |
| `CircularQueue.CircularQueue.Unwound` | include/circular_queue.h:116-134 | the two copy loops lay the queue out from the start |
| `CircularQueue.CircularQueue.Enqueue` | include/circular_queue.h:68-143 | appends, doubling exactly when full |
| `CircularQueue.CircularQueue.EnqueueAsFirst` | include/circular_queue.h:145-189 | prepends, doubling exactly when full |
| `CircularQueue.CircularQueue.Dequeue` | include/circular_queue.h:191-196 | removes the first element |
| `CircularQueue.CircularQueue.Get` | include/circular_queue.h:218-221 | reads by position |
| `CircularQueue.CircularQueue.Peek` | include/circular_queue.h:198-201 | reads the first element |
| `CircularQueue.CircularQueue.Erase` | include/circular_queue.h:223-235 | removes by position, and the last element for a position past the end |
| `CircularQueue.RunQueue` | include/circular_queue.h:58-235 | every legal run of enqueues at either end, dequeues, erasures, resets and reads, from any power-of-two capacity, answers what the same run on a sequence answers |
| `LruList.CachedFile.Deque` | include/async_io_manager.h:1430-1436 | removes exactly that node and keeps the chain linked both ways |
| `LruList.CachedFile.EnqueNext` | include/async_io_manager.h:1437-1443 | inserts exactly there and keeps the chain linked both ways |
| `LruList.BackwardIsReverse` | include/async_io_manager.h:1425-1446 | walking back visits what walking forward visits, in the opposite order |
| `LruList.TrimEvictsOldest` | src/async_io_manager.cpp:4085-4130 | trimming keeps the most recently closed files, reports the bytes removed, accounts for them and removes nothing that need not go |
| `LruCache.ClosedFiles.Enque` | src/async_io_manager.cpp:5826-5834 | the file becomes the newest; map, list, per-table counts and requests in flight stay in step |
| `LruCache.ClosedFiles.Drop` | src/async_io_manager.cpp:5841-5850 | unlinks one file; the two CHECKs of the decrement hold |
| `LruCache.ClosedFiles.Deque` | src/async_io_manager.cpp:5810-5824 | once nobody evicts the file its scheduled cleanup is cancelled and exactly that file leaves the list, or it is reported as not cached; requests in flight keep their files |
| `LruCache.ClosedFiles.ScheduleCleanup` | src/async_io_manager.cpp:4933-4955 | exactly the cached files that nobody evicts are noted, and the answer tells whether any is new |
| `LruCache.ClosedFiles.HasEvictable` | src/async_io_manager.cpp:5876-5879 | the sentinel test tells whether any file is cached |
| `LruCache.ClosedFiles.Trim` | src/async_io_manager.cpp:4085-4130 | the loop evicts as the specification of trimming says |
| `CleanerPlan.OldestIsComplete` | src/async_io_manager.cpp:6802-6835 | victims are eligible and no eligible file is spared unless the batch is full |
| `CleanerPlan.OldestIsOldest` | src/async_io_manager.cpp:6802-6835 | no eligible file is spared for one closed later |
| `CleanerPlan.OldestFirst` | src/async_io_manager.cpp:6802-6835 | victims come oldest first |
| `CleanerPlan.CollectedIsComplete` | src/async_io_manager.cpp:6758-6799 | scheduled files are taken if cached and not being evicted, and none is passed over unless the batch is full |
| `CleanerPlan.SurvivorsAre` | src/async_io_manager.cpp:6857-6886 | what stays is what was not unlinked |
| `LruCache.ClosedFiles.Suspend` | src/async_io_manager.cpp:3034-3041 | whatever other tasks do while the cleaner waits for a slot, requests and marks stay and every requested file stays in the list |
| `CleanerRuns.ActsSettle` | src/async_io_manager.cpp:3034-3041 | marked files stay and nothing comes to stand behind them; files nobody touches stay as they are |
| `LruCache.ClosedFiles.CollectGarbage` | src/async_io_manager.cpp:6758-6799 | with any suspensions the loop over the scheduled files takes, marks and unschedules what the plan says, and tells whether its iterator held |
| `CleanerRuns.GatherSound` | src/async_io_manager.cpp:6758-6799 | what it takes is distinct, was not marked before and stays cached |
| `CleanerRuns.GatherComplete` | src/async_io_manager.cpp:6758-6799 | if the iterator holds, a scheduled, cached and free file that nobody touches is taken unless the batch is full |
| `CleanerRuns.GatherQuiet` | src/async_io_manager.cpp:6758-6799 | undisturbed, it takes the first scheduled files that are cached and free |
| `CleanerRuns.GatherHolds` | src/async_io_manager.cpp:6758-6799 | the iterator holds if no suspension rehashes the schedule or opens a scheduled file |
| `LruCache.DanglingRun` | src/async_io_manager.cpp:6786-6797 | two scheduled files, the second opened while the first request waits: the iterator dangles |
| `LruCache.ClosedFiles.PickVictims` | src/async_io_manager.cpp:6802-6835 | with any suspensions the backward walk stays on linked files and takes and marks what the plan says |
| `CleanerRuns.SweepSound` | src/async_io_manager.cpp:6802-6835 | what it takes is distinct, was not marked before and stays in the list |
| `CleanerRuns.SweepComplete` | src/async_io_manager.cpp:6802-6835 | a free file that nobody touches is taken unless the batch is full |
| `CleanerRuns.SweepQuiet` | src/async_io_manager.cpp:6802-6835 | undisturbed, it takes the oldest files that are neither scheduled nor being evicted |
| `LruCache.ClosedFiles.Complete` | src/async_io_manager.cpp:6857-6886 | every request still points at a file of the list, whatever other tasks did meanwhile; unlinked files and their space go, the others keep their order, every mark goes |
| `StorePathLut.ComputeStorePathLut` | include/utils.h:218-284 | the loops compute the table of the specified counts, or stop where the scale is divided by while zero |
| `StorePathLut.TableHolds` | include/utils.h:275-283 | for up to 2^32 paths the table is sorted and holds each index exactly as often as its count, and nothing else |
| `StorePathLut.SortedExactly` | include/utils.h:275-283 | with positive counts it is sorted exactly when there are at most 2^32 paths |
| `StorePathLut.SlotsExactly` | include/utils.h:250-262 | the 64-bit total is the true sum exactly when that is below 2^64, and the branch for a zero total is entered only by wrapping |
| `StorePathLut.CountsDefined` | include/utils.h:264-274 | the scale is divided by while zero exactly when scaling is due and total and limit together pass 2^64 |
| `StorePathLut.CountsOrdered` | include/utils.h:218-284 | every path has a slot and a larger weight has no fewer |
| `StorePathLut.CountsProportional` | include/utils.h:237-262 | unscaled, every count times the greatest common divisor is the weight exactly when the sum is not a multiple of 2^64 |
| `StorePathLut.GcdAllIsGreatest` | include/utils.h:237-241 | every common divisor of the weights divides the number they are divided by |
| `StorePathLut.TableFits` | include/utils.h:264-274 | the table has at most the limit and one slot per path if the sum fits in 64 bits or wraps to zero, and as many slots as the true sum if it is not scaled |
| `StorePathLut.CountsScale` | include/utils.h:237-249 | positive weights may be multiplied by a constant |
| `StorePathLut.WrappedTotalExample` | include/utils.h:250-262 | two weights whose sum is 2^64 get one slot each |
| `StorePathLut.WrappedScaleExample` | include/utils.h:264-267 | weights with sum 2^64 - 1 make the scale zero |
| `StorePaths.ParseStorePathListWithWeights` | include/utils.h:115-188 | the loops parse as specified; a failure leaves nothing behind |
| `StorePaths.ParseGivesPaths` | include/utils.h:115-188 | for every input, success gives trimmed non-empty paths without commas and colons and no weights or one per path, failure gives nothing |
| `StorePaths.RoundTrip` | include/utils.h:115-216 | a built list parses to itself exactly when every path is such and there are no weights or one per path |
| `StorePaths.ParseCsvStringList` | include/utils.h:99-113 | the getline loop gives the trimmed non-empty tokens |
| `StorePaths.BuildStorePathListWithWeights` | include/utils.h:190-216 | the loops join with commas and put weights after a colon |
| `Lehmer.StepPermutes` | external/random.h:44-61 | the recurrence is injective and never leads to zero from elsewhere |
| `Lehmer.GoodSeeds` | external/random.h:34 | a seed in range is kept and 2^31 - 1 is let through |
| `Lehmer.Random.Next` | external/random.h:44-61 | shift, mask and one subtraction compute seed * 16807 mod (2^31 - 1); the state stays in range; 2^31 - 1 is a fixed point reached only from itself |
| `LehmerCycle.OrderIsFull` | external/random.h:48-50 | no power of 16807 short of the (2^31 - 2)-th is one |
| `LehmerCycle.FullCycle` | external/random.h:48-50 | from any seed in [1, 2^31 - 2] the generator reaches every number in that range and first returns after 2^31 - 2 calls |
| `LehmerCycle.Draw` | external/random.h:44-61 | any number of calls of Next from a seed in range deliver the orbit of the seed |
| `LehmerCycle.DrawnOnce` | external/random.h:48-50 | up to 2^31 - 2 consecutive draws are distinct, and that many are all the numbers in the range |

## Left out

- Round, accumulate, scramble, short-input and merge arithmetic of xxHash: parameters of the model, apart from the wide multiply, the final mix and the hash of one to three bytes; the lane constants are parameters too.
- SIMD variants, prefetching, alignment and allocation failure in `external/xxhash.h`: only the scalar path is modelled.
- Weak memory order in the segment allocator: steps are sequentially consistent; the waiting loop of GetSegment and the eviction callback are not modelled.
- SegmentStack.StepKeeps: assumes fewer than 2^32 successful operations between a pop's load and its CAS; PopWinsExactly and WinKeepsExactly say what happens beyond.
- ExpectedValue.PutFields: the record is a word and its mutators return the new word, so updating the C++ object in place is not modelled; the table that stores the words is updated in place.
- Recovery.RecoveryTheorem: trace lines are lists of keys, and a torn line is a prefix of them with perhaps a number that lost its last digits; the text before the keys is not modelled, since a line cut there replays nothing.
- ThreadState.VerifyScan: floor reads, scans outside the key range and the batched variant of the test are not modelled, nor are the text of keys and values and the state files.
- ThreadState.Table.MixedOps: the random keys and the outcome of the dice are parameters, and the library sort is an insertion sort.
- FileNames.ParsePrinted: strtoull is modelled on the parsed piece alone, which in every caller is followed by a separator or the end of the string.
- LruCache.ClosedFiles.Trim: file removal and file size are parameters.
- LruCache.ClosedFiles.CollectGarbage: the hash set is the order in which it is listed; once the iterator dangles nothing is said of what the loop does next.
- LruCache.ClosedFiles.Deque: the waiting itself is not modelled, only what follows it; the results of the unlink requests are a parameter of Complete.
- CircularQueue.CircularQueue.Erase: needs a non-empty queue, since the source's loop bound underflows on an empty one.
- StorePathLut.ComputeStorePathLut: reserving capacity is not modelled; division by zero is the result None.
- LruList.CachedFile.Deque: the key of a node is fixed when it is made, where the source sets it right after.
- DataPageIter.Iter.ParseNextKey: pages that no builder made are not modelled, so the branches for malformed entries are dead.
- DataPageBuilder.Builder.Add: the builder does not need the keys to be in order, so the source's assertion on it is not a precondition; seeking does.
- DataPageRuns.PointGet: the index search that picks the page is not modelled, here and in FloorRead.
- StressSession.Work: batches of different partitions follow each other, where the source lets them overlap; partitions share no cells and no lines, and at the crash every partition may have a batch in flight.
- DataPageRuns.BuildAndScan: the caller that fills pages from the write path is not modelled, only its calls of Add and Finish.
- FindBranchRange and the id lookups on it: a library binary search over sorted fields, which would add easy members.
- The rest of the storage engine: index pages, overflow and large-value content, page mapper, manifest log, file collection, io_uring, cloud and standby code.
- Benchmarks, options, metrics, error codes, compression and the floating-point key distributions.
