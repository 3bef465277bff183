# FishStore in Dafny

A model of FishStore's concurrent core and proofs about it. FishStore ingests semi-structured records into a
paged hybrid log. Every record carries one key pointer per property (a PSF and its value), threaded onto
lock-free hash chains. Epochs defer page closing and flushing; a phase machine coordinates checkpoints, index
growth and PSF registration across sessions.

Concurrent parts are step relations: one atomic load, store, compare-and-swap or fetch-and-add per step, a
program counter per thread, any number of threads, any interleaving. Each has an invariant proved inductive and
theorems about every state of every run. Sequential parts are methods and classes with loops, proved against
specifications. History variables are ordinary fields, marked as history where they are declared.

| file | what it covers |
|---|---|
| `EpochSpec`, `LightEpoch` | deferred actions: a ticket specification, and the epoch table, cached safe epoch and drain list that implement it |
| `EpochDrain` | what one drain gets done: refreshing or bumping, alone, runs everything that may run |
| `HybridLog` | tail, read-only, head and flushed addresses over the circular page buffer, built on `EpochSpec` |
| `TailAllocator` | the packed page/offset tail word |
| `PageFlush` | who flushes which page, and how flushed-until moves; built on `EpochSpec` |
| `FlushedBytes` | `HybridLog`, `PageFlush` and the device side by side: what the disk holds |
| `BucketEntry` | the tentative-bit protocol for bucket entries |
| `HashChain` | linking key pointers, and scanning beside inserters |
| `PhaseSpec`, `PhaseMachine` | the phase protocol on positions, and the code's states, contexts and acknowledgements that implement it |
| `Checkpoint` | CPR checkpoints and the fuzzy index snapshot while sessions insert; built on `PhaseSpec` |
| `CheckpointRuns` | what an insert, the two checkpoint addresses and an index copy come to over a run of `Checkpoint` |
| `Recovery` | replaying the log over a fuzzy index |
| `RunRecovery` | from a run of `Checkpoint`, `HashChain` and `TailAllocator`, and the disk of `FlushedBytes`, through `Recovery` to what scans find |
| `CrashWitness` | an execution and a crash that `RunRecovery` applies to |
| `ParserShift` | registering and deregistering PSFs; built on `PhaseSpec` |
| `ShiftMachine` | the same on the states of `PhaseMachine`, and what happens if a shift starts too early |
| `DiskScan` | the adaptive-prefetch disk scan against a plain chain walk |
| `ChainScan` | index scan against full scan, on the log of `Recovery` |
| `IndexSplit`, `GrowMachine` | doubling the hash table: one bucket, and many threads sharing out the buckets |
| `RecordLayout` | bit fields, bytes of a record, layout of PSF results |
| `LssAllocator` | the segment allocator |

The pieces are stacked. `HybridLog` and `PageFlush` use only what `EpochSpec` allows and `LightEpoch` refines
`EpochSpec`. `Checkpoint` and `ParserShift` use only what `PhaseSpec` allows and `PhaseMachine` refines `PhaseSpec`.
`ShiftMachine` refines `ParserShift`. `FlushedBytes` couples `HybridLog` and `PageFlush`. `RunRecovery.RecoverRun`
starts from any execution: runs of `Checkpoint` (versions, entries, snapshot), `HashChain` (chains, inserts in flight
included) and `TailAllocator` (byte addresses) whose states at the crash describe one log. Chains, layout and
consistency of the checkpoints are derived from the runs, not assumed. What recovery gets to see is that log below
final_address; `RunRecovery.RecoverDisk` reads it from the disk of a `FlushedBytes` run.

## Premises

- Sequential consistency. Threads have ids in the range the epoch scans cover (entries 1 to num_entries_).
- The sessions do not change during an action, and an action starts only when every session is back at REST. The code
  does not check the latter; `ShiftMachine.SafeExactly` says that it is needed.
- Field widths hold: ptr_cnt, payload_size, optional_size and checkpoint_version fit their bits.
- No garbage collection runs beside insertion. OnPagesClosed is one step.
- Serial numbers given to one session's inserts increase.
- In `RunRecovery`, records take multiples of 8 bytes, as Record::size makes them.

## What turned out false or odd

- ShiftFlushedUntilAddress is safe if and only if completion callbacks run on epoch-protected threads and page 0 is
  the first page to complete (`PageFlush.SafeExactly`). Without protection a stalled callback can take a status of the
  next page in the same frame for its own (`PageFlush.UnprotectedPassesUnwritten`). If another page completes before
  page 0, page 0's status, still 0, is not below flushed_until, which is 0 too, and counts as flushed
  (`PageFlush.UnorderedPassesUnwritten`).
- The safe register address does not cover records that a session parsed before it changed parsers and inserts after.
  The Refresh in BlockAllocate (src/core/fishstore.h:1834) lets a session change parsers inside a batch; such a record
  lacks the key pointer of the newly registered PSF (`ParserShift.RefreshInBatchLosesPointer`). Which records are
  indexed is stated exactly (`ParserShift.IndexedExactly`), and records are inserted under another parser than they
  were parsed with if and only if a session has changed parsers with records of its batch still to insert
  (`ParserShift.StaleExactly`).
- GetTailAddress reports a full page's tail as the page's last byte, which is not a header address. Recovery copes when
  checkpoint_start_address is such an address, except when final_address is the start of the very next page: then the
  first header read runs over the end of the page (`Recovery.StartableExact`), and the tail can be reported like that
  (`TailAllocator.TailsMeet`). Besides, RecoverFromPage asserts in debug builds that its two addresses share a page,
  which fails on the last page whenever final_address has offset 0 (`Recovery.SharedPage`).
- ApplyParserShift looks at system_state_ alone, and CompleteAction returns before other sessions have refreshed. A
  session still in PS_PENDING from one shift acknowledges the next without changing parsers, and its parser state is
  changed under it (`ShiftMachine.LateSessionDisturbed`). Parser states in use stay as they are in all runs if and only
  if shifts start with all sessions at REST (`ShiftMachine.SafeExactly`).
- BatchInsert decides from a result's start alone that it lies in the payload (src/core/fishstore.h:969). A result
  that starts in the payload or right behind it and ends outside is not copied and reads back wrong
  (`RecordLayout.CleanIsExact`, `RecordLayout.AdjacentBuffer`).
- The tutorial promises the records between the start and the end address for both kinds of scan, but an index scan
  goes by the key pointer's address and a full scan by the record's (`ChainScan.ScansCompare`). They agree if and only
  if neither end of the range falls between a selected record and its key pointer (`ChainScan.ScansAgree`,
  `ChainScan.ScansDiffer`); on the default range they do (`ChainScan.WholeRangeAgrees`).
- A disk scan that is still above the range hands out the first record of the range without looking whether it has
  all of it (src/core/fishstore.h:2014-2036). If the end of the range lies inside a record, between two neighbours of
  one chain, and the record reaches beyond the bytes read, it reads behind its buffer (`DiskScan.CutOverruns`).
  `DiskScan.Overruns` says exactly when (`DiskScan.Scan`); never if no record is cut like that (`DiskScan.UncutFits`),
  so never on the default range.
- The disk scan asks for too few bytes at prefetch level 0 (src/core/fishstore.h:2110); it costs another read and
  changes nothing else.

## Model

| member | source | states |
|---|---|---|
| LightEpoch.InvInductive | src/core/light_epoch.h:62-103 | the slot locks, drain list and per-thread views stay consistent under every step of TryPop, TryPush, TrySwap, Protect and Drain |
| LightEpoch.Refines | src/core/light_epoch.h:177-283 | every step of the epoch table, racy cached safe epoch and drain list is a step of the ticket specification or invisible to it |
| LightEpoch.RunsLate | src/core/light_epoch.h:220-283 | an action runs only after every thread protected when the epoch was bumped has stored a fresh epoch or unprotected |
| LightEpoch.RunsAtMostOnce | src/core/light_epoch.h:62-103 | no action runs twice, and only actions that were registered run |
| EpochDrain.DrainRunsAll | src/core/light_epoch.h:220-283 | a thread that scans and drains alone leaves the safe epoch one below the oldest of its own and the protected epochs, and every action in the drain list older than all of them has run |
| EpochDrain.RefreshDrains | src/core/light_epoch.h:185-193 | ProtectAndDrain, alone, runs every action of the drain list that all protected threads have outlived |
| EpochDrain.BumpDrains | src/core/light_epoch.h:235-270 | so does BumpCurrentEpoch before it registers its own action, at the epoch it bumped from |
| EpochSpec.InvInductive | src/core/light_epoch.h:237-283 | a ticket waits only for threads that are inside, and its waiting set only shrinks |
| HybridLog.InvInductive | src/core/persistent_memory_malloc.h:603-714 | address order, thread obligations and residency of every unclosed page survive every step |
| HybridLog.ResidentInductive | src/core/persistent_memory_malloc.h:679-702 | every allocated address at or above safe_head is in its frame, through closing, wrapping and writing |
| HybridLog.NoWriteBelow | src/core/fishstore.h:1825-1847 | no step writes below safe_read_only_address, which never moves back |
| HybridLog.Immutable | src/core/persistent_memory_malloc.h:1004-1020 | once safe_read_only_address has passed an address it never changes again |
| HybridLog.FlushedImageIsFinal | src/core/persistent_memory_malloc.h:705-714 | whatever moment a flush copies a page below safe_read_only_address, it copies the final bytes |
| HybridLog.ReadSafe | src/core/persistent_memory_malloc.h:329-336 | a thread that loaded head_address in its protected section reads the right page's frame at or above it; tail page <= safe_head page + buffer_size - 2 |
| HybridLog.WriterReadSafe | src/core/fishstore.h:1364-1486 | so does an inserter for everything at or above its own record |
| HybridLog.ReadSafeSince | src/core/persistent_memory_malloc.h:329-336 | from loading head_address until the thread refreshes or stops, reading at or above what it loaded gives the log, whatever the others do |
| HybridLog.AddressesHaveSources | src/core/persistent_memory_malloc.h:603-714 | safe_read_only_address and safe_head_address are the highest targets of the actions that have run; read_only_address and head_address are targets of actions registered or about to be |
| HybridLog.FlushedIsLast | src/core/persistent_memory_malloc.h:510-527 | flushed_until_address is what the flush last stored |
| HybridLog.NoGaps | src/core/persistent_memory_malloc.h:587-600 | a block starts where the one before it ended or with a page, and ends in its page |
| HybridLog.OvershotStays | src/core/persistent_memory_malloc.h:587-600 | once an allocation has overshot a page nothing more is allocated in it |
| TailAllocator.NoCarry | src/core/persistent_memory_malloc.h:190-194 | the 41-bit offset never carries into the page bits and stays below 2^32 |
| TailAllocator.WordInductive | src/core/persistent_memory_malloc.h:190-213 | offset of the tail word bounded by the page size plus one overshoot per thread, under Reserve and NewPage |
| TailAllocator.Allocations | src/core/persistent_memory_malloc.h:587-600 | concurrent blocks are disjoint, inside one page, ascending in allocation order and below GetTailAddress |
| TailAllocator.ReserveExactly | src/core/persistent_memory_malloc.h:190-194 | a reservation gets a block if and only if it fits what is left of the page, and then the front of that |
| TailAllocator.NoGaps | src/core/persistent_memory_malloc.h:587-600 | every block follows the one before it or starts a page |
| TailAllocator.TailSeparates | src/core/persistent_memory_malloc.h:352-358 | a reported tail lies at or above every block allocated by then, up to the clamp, and at or below every later one |
| TailAllocator.TailGrows | src/core/persistent_memory_malloc.h:352-358 | reported tails never move back |
| TailAllocator.BlocksAligned | src/core/record.h:159-168 | with sizes that are multiples of 8 every block starts at a multiple of 8 |
| TailAllocator.TailsMeet | src/core/persistent_memory_malloc.h:352-358 | a run in which the last byte of a page and the start of the next are reported with nothing allocated in between |
| TailAllocator.OvershootsOnce | src/core/fishstore.h:1825-1847 | a thread runs past a given page at most once |
| BucketEntry.TagsUnique | src/core/fishstore.h:685-818 | a bucket chain, overflow buckets included, never holds two non-tentative entries with one tag |
| BucketEntry.FinalStays | src/core/hash_bucket.h:97-102 | a non-tentative entry keeps its slot and tag |
| BucketEntry.CallsAgree | src/core/fishstore.h:779-818 | any two FindOrCreateEntry calls for a tag return the same slot |
| BucketEntry.FindsAgain | src/core/fishstore.h:685-818 | a call for a tag that is there makes no entry and can only return that one, whatever runs beside it |
| BucketEntry.MakesAlone | src/core/fishstore.h:779-818 | a call, alone, for a tag that nobody has never backs off, makes one entry and leaves all other slots as they were |
| BucketEntry.AddressIsLast | src/core/fishstore.h:1447-1481 | an entry's address is the last one swapped in |
| HashChain.InvInductive | src/core/fishstore.h:1362-1486 | chains descend and hold exactly the linked key pointers, under every interleaved insertion step |
| HashChain.ChainsExact | src/core/fishstore.h:1384-1486 | walking a chain meets exactly the key pointers whose linking compare-and-swap succeeded, strictly descending |
| HashChain.VisibleMeansLinked | src/core/fishstore.h:1484-1486 | a record is on all its chains before its invalid bit clears |
| HashChain.InvalidExactly | src/core/fishstore.h:1364-1486 | a record is invalid if and only if some thread is inserting it |
| HashChain.InsertFinished | src/core/fishstore.h:1321-1486 | an insert that has finished has left a new record with exactly its keys, visible and on the chain of each |
| HashChain.WritesAbove | src/core/record.h:102-109 | an inserter writes nothing below its own record |
| HashChain.ScanComplete | src/core/fishstore.h:1512-1560 | a chain scan beside inserters meets every key pointer linked before it began, each once, in descending order |
| HashChain.RunHomes | src/core/record.h:102-109 | in every run each constructed key pointer is one of a record's, for the key the record has there, and records do not overlap |
| PhaseSpec.InvInductive | src/core/fishstore.h:3261-3502 | the position protocol's invariant: barriers, winners, acknowledgements and catch-up positions |
| PhaseSpec.BarrierWaits | src/core/light_epoch.h:308-320 | a barrier position is left only when every session has acknowledged exactly it |
| PhaseSpec.TransitionsOnce | src/core/fishstore.h:3031-3035 | within an action a transition is taken at most once |
| PhaseSpec.LastFinishes | src/core/light_epoch.h:308-320 | once all have acknowledged, the last acknowledger alone, by its own steps, moves the system on |
| PhaseSpec.CatchesUp | src/core/fishstore.h:3269-3501 | each own step of a session in the catch-up loop lowers a well-founded measure, and it leaves at the state it loaded |
| PhaseSpec.VersionGap | src/core/fishstore.h:3327-3346 | a session's version is the system's or one less, and the system's outside the shift position |
| PhaseMachine.TableIsTable | src/core/state_transitions.h:56-158 | the states of each action form a table of PhaseSpec: distinct phases from and to REST, the version moving at one position |
| PhaseMachine.FullPhases | src/core/state_transitions.h:56-105 | GetNextState, from REST, takes a full checkpoint through PREP_INDEX_CHKPT, INDEX_CHKPT, PREPARE, IN_PROGRESS, WAIT_PENDING, WAIT_FLUSH, PERSISTENCE_CALLBACK and REST, in this order, the version one higher from IN_PROGRESS on |
| PhaseMachine.LogPhases | src/core/state_transitions.h:56-158 | and a log checkpoint from PREPARE on likewise |
| PhaseMachine.OtherPhases | src/core/state_transitions.h:56-158 | the phases of index checkpoint, garbage collection, growing and parser shift, each in order, the version unchanged |
| PhaseMachine.TableIsLater | src/core/state_transitions.h:56-158 | position k of an action is the state k applications of GetNextState lead to |
| PhaseMachine.NoDeadEnd | src/core/fishstore.h:3261-3502 | no action has a dead end: every state on the way is acknowledged by the sessions that reach it or needs no acknowledgement, and the last is REST |
| PhaseMachine.Refines | src/core/fishstore.h:3261-3502 | every step on system_state_, contexts and phase_finished is a step of the position protocol or invisible to it |
| PhaseMachine.BarrierWaits | src/core/light_epoch.h:308-320 | in every run, the system leaves a barrier phase only when every phase_finished entry holds that phase |
| PhaseMachine.NoLostBarrier | src/core/light_epoch.h:308-320 | when every entry holds the present barrier phase, some session is comparing or swapping to leave it |
| PhaseMachine.TakenOnce | src/core/fishstore.h:3031-3035 | within an action a state once left is never the system state again, so exactly one session takes each transition |
| PhaseMachine.VersionGap | src/core/fishstore.h:3261-3502 | session version is the system's or one less, different only in IN_PROGRESS; the unreachable branches of GetNextState are not reached |
| Checkpoint.ShapesCovered | src/core/state_transitions.h:56-158 | what the model does at a position is what the code does in the phase GetNextState reaches there: contexts saved on IN_PROGRESS, final_address taken into WAIT_FLUSH, contexts written in WAIT_FLUSH, the index copied in INDEX_CHKPT |
| Checkpoint.VersionMoves | src/core/fishstore.h:3327-3346 | a session's version changes only by acknowledging IN_PROGRESS |
| Checkpoint.SwapMover | src/core/fishstore.h:3333-3340 | at the context swap the saved (serial_num, offset) splits the session's records by version |
| Checkpoint.InvInductive | src/core/fishstore.h:1321-1486 | contexts, versions, entries, snapshot and checkpoint metadata stay consistent under inserts interleaved with phases |
| Checkpoint.WaitFlushPrefix | src/core/fishstore.h:3083-3090 | once final_address is taken, each session's records of version <= v are exactly its inserts up to its previous context's (serial_num, offset), finished and below final_address |
| Checkpoint.PersistedPrefix | src/core/fishstore.h:2459-2479 | the written contexts delimit the same set ever after, through later inserts and actions |
| Checkpoint.CallbackAfterContexts | src/core/fishstore.h:3358-3397 | when the persistence phase is reached every session's context is written |
| Checkpoint.CopyTaken | src/core/fishstore.h:2517-2534 | an entry copied during INDEX_CHKPT misses no key pointer below checkpoint_start_address and shows none of a later version |
| Checkpoint.CheckpointRecoverable | src/core/fishstore.h:3505-3573 | an index and a log checkpoint of equal version, from one action or two, satisfy everything recovery needs |
| CheckpointRuns.InsertFinished | src/core/fishstore.h:1321-1486 | a finished insert, beside phases and other inserts, has left one new valid record with its serial number and keys, every entry at or above it, and is what its session has inserted last |
| CheckpointRuns.ValidStays | src/core/fishstore.h:1484-1486 | a valid record stays as it is |
| CheckpointRuns.StartIsTail | src/core/fishstore.h:3526-3536 | checkpoint_start_address is the tail when it was taken |
| CheckpointRuns.FinalIsTail | src/core/fishstore.h:3083-3095 | final_address is the tail when it was taken |
| CheckpointRuns.CopiesEntry | src/core/fishstore.h:2517-2534 | a copied entry is the entry as it was at that moment |
| Recovery.Store.StorePointers | src/core/fishstore.h:2780-2797 | resets entries to the record's key pointers in order, so each key ends at its last one |
| Recovery.StoredLast | src/core/fishstore.h:2780-2797 | each key of a record ends at the record's highest key pointer for it, other keys keep their entry |
| Recovery.Store.RecoverRecord | src/core/fishstore.h:2767-2801 | one record: invalid skipped, old versions replayed, later versions marked invalid |
| Recovery.StartableExact | src/core/fishstore.h:2646-2769 | of the addresses GetTailAddress can report, exactly those other than a full page's last byte before an empty next page let the replay start without reading a header across a page end |
| Recovery.SharedPage | src/core/fishstore.h:2646-2766 | the debug assertion that both addresses of RecoverFromPage share a page holds of every call but the last, and of that if and only if final_address is not a page start |
| Recovery.Store.RecoverFromPage | src/core/fishstore.h:2765-2805 | the scan by header over a page replays exactly the range: highest committed key pointer per key, later versions invalidated, nothing else changed; an empty range may start anywhere |
| Recovery.Store.RecoverHybridLog | src/core/fishstore.h:2635-2665 | the page loop, with its first, last and inner page bounds, replays [checkpoint_start_address, final_address), a start clamped to a page's last byte included |
| Recovery.Store.Recover | src/core/fishstore.h:3673-3694 | refuses checkpoints of different versions and otherwise replays over the snapshot |
| Recovery.Adjacent | src/core/fishstore.h:2646-2665 | replaying adjacent ranges one after the other replays both |
| Recovery.EntriesHighest | src/core/fishstore.h:2765-2805 | every entry ends at the highest key pointer of version <= v, and exists if and only if there is one |
| Recovery.WalkExact | src/core/fishstore.h:1645-1661 | from a linked key pointer a chain walk meets exactly the linked ones of its key at or below it, descending, whatever unlinked ones hold |
| Recovery.RecoveredExactly | src/core/fishstore.h:2765-2805 | after recovery a chain scan touches, once each and descending, exactly the key pointers of version <= v, with inserts in flight at the crash |
| RunRecovery.ImageChained | src/core/fishstore.h:1362-1486 | the log of any state of any run of interleaved inserters has the chains recovery relies on |
| RunRecovery.LogLaid | src/core/persistent_memory_malloc.h:587-600 | records placed where the tail allocator put them are aligned, disjoint and inside one page |
| RunRecovery.TailSplits | src/core/fishstore.h:3526-3536 | an address read off the tail splits the records of every later moment by whether they were allocated before |
| RunRecovery.TailStartable | src/core/fishstore.h:3526-3536 | such an address is a record boundary or the last byte of a full page |
| RunRecovery.CheckpointConsistent | src/core/fishstore.h:3505-3573 | what a run of Checkpoint guarantees about slots is what recovery needs, on byte addresses |
| RunRecovery.CrashLeaves | src/core/fishstore.h:3505-3573 | at any crash with matching checkpoints complete, layout, chains, address order and consistency hold |
| RunRecovery.CutLeaves | src/core/fishstore.h:2635-2636 | all that holds of the log below final_address as well, which loses nothing of the checkpoint's version |
| RunRecovery.ReplayRecovers | src/core/fishstore.h:2765-2805 | after the replay of the log below final_address a scan of any key touches exactly the key pointers of the durable records |
| RunRecovery.RecoverRun | src/core/fishstore.h:3655-3694 | for any execution and crash, Recover on the log below final_address and the checkpoints' data succeeds and every scan then touches exactly the durable records, descending |
| RunRecovery.DiskHoldsLog | src/core/fishstore.h:3360-3372 | once flushed_until has reached final_address, reading the disk at the records' addresses up to there gives the log |
| RunRecovery.RecoverDisk | src/core/fishstore.h:3655-3694 | end to end: the same from what the disk holds at the crash |
| CrashWitness.Checkpointed | src/core/fishstore.h:3505-3544 | a run of one session through a full checkpoint with a finished record, a complete index copy, final_address and a written context |
| CrashWitness.Crashes | src/core/fishstore.h:3655-3694 | an execution and a crash that meet RecoverRun's premises, with a durable record in the range to be replayed |
| RunRecovery.DurableIsPrefix | src/core/fishstore.h:2459-2479 | a record is durable if and only if its insert is at or before the (serial_num, offset) its session is told to continue from |
| ParserShift.InvInductive | src/core/fishstore.h:4172-4206 | generations of sessions, records and the two parser states stay consistent under batches and phases |
| ParserShift.IndexedExactly | src/core/fishstore.h:4172-4206 | a record between the safe register and a later safe unregister address with a value carries the PSF's key pointer if and only if it was parsed after its session moved to the new parser, or with an older one that had the PSF too |
| ParserShift.StillIndexedExactly | src/core/fishstore.h:3210-3217 | the same from the safe register address on, while the PSF stays registered |
| ParserShift.StaleExactly | src/core/fishstore.h:1825-1847 | some record is inserted under another parser than it was parsed with if and only if a session has changed parsers with records of its batch still to insert |
| ParserShift.WindowIndexed | src/core/fishstore.h:4172-4206 | if no session has, every record of the window with a value is indexed |
| ParserShift.StillIndexed | src/core/fishstore.h:3210-3217 | and so is every one from the safe register address on, while the PSF stays registered |
| ParserShift.UnusedWhenChanged | src/core/fishstore.h:4127-4169 | no parser state is changed while a session is on it |
| ShiftMachine.Refines | src/core/fishstore.h:3464-3486 | with actions started at REST, every step on system_state_, contexts, phase_finished and parser numbers is a step of ParserShift or invisible to it |
| ShiftMachine.LateSessionDisturbed | src/core/fishstore.h:4172-4206 | without, a run in which a second shift changes the parser state a session is on |
| ShiftMachine.SafeExactly | src/core/fishstore.h:4127-4206 | in all runs no parser state in use is changed, if and only if actions start with all sessions at REST |
| ParserShift.EqualAtRest | src/core/fishstore.h:3210-3222 | when no action is open both parser states are equal, and hold the outcome of applying all shifts in turn |
| ParserShift.RefreshInBatchLosesPointer | src/core/fishstore.h:1825-1847 | a run in which a session changes parsers inside a batch and a record behind the safe register address has no key pointer for the registered PSF |
| ParserShift.ApplyRegisters | src/core/fishstore.h:4131-4148 | a PSF whose last action is a registration ends registered |
| ParserShift.ApplyExactly | src/core/fishstore.h:4127-4148 | a PSF is registered afterwards if and only if its last action registers it, or there is none and it was registered before |
| ParserShift.ApplyDeregisters | src/core/fishstore.h:4127-4148 | a PSF whose last action deregisters it ends unregistered |
| ParserShift.PointersExactly | src/core/fishstore.h:4172-4206 | in every run a record has key pointers for exactly those PSFs with a value that the parser it was parsed with has, which is the outcome of the shifts its session had moved past |
| ParserShift.GoneUnindexed | src/core/fishstore.h:4172-4206 | a record parsed after its session moved past a deregistration, and before another registration, has no key pointer for the PSF |
| ParserShift.DeregisteredWindow | src/core/fishstore.h:4172-4206 | so none behind the address reported by that shift has, if no session changed parsers with records of its batch still to insert |
| ParserShift.ShiftApplies | src/core/fishstore.h:4127-4206 | the changes given to a shift are pending until it completes and are then exactly the ones recorded as applied |
| ParserShift.AddressesAreTails | src/core/fishstore.h:4172-4206 | the addresses a shift reports are the tail of the log when they are taken |
| ParserShift.RecordsConserved | src/core/fishstore.h:1825-1847 | what a session has parsed is, in order, what it has inserted and what is left of its batch: nothing lost or doubled by phases inside a batch |
| PageFlush.InvInductive | src/core/persistent_memory_malloc.h:705-790 | statuses, issue intervals, tickets and shifting threads stay consistent, callbacks protected and page 0 first |
| PageFlush.FrameHolds | src/core/persistent_memory_malloc.h:510-527 | a status at or above the loaded address, read while safe_head has not passed it, is that page's own despite frame wrap |
| PageFlush.FlushedIsWritten | src/core/persistent_memory_malloc.h:510-527 | flushed_until never passes a page whose write has not completed, callbacks protected and page 0 first |
| PageFlush.SafeExactly | src/core/persistent_memory_malloc.h:510-527 | that holds of all runs if and only if callbacks are protected and page 0 completes first |
| PageFlush.UnprotectedPassesUnwritten | src/core/persistent_memory_malloc.h:510-527 | a run in which one unprotected callback moves flushed_until past unwritten pages, everything else protected |
| PageFlush.UnorderedPassesUnwritten | src/core/persistent_memory_malloc.h:510-527 | a run in which page 1 completes before page 0 and flushed_until passes page 0 |
| PageFlush.IssuedOnce | src/core/persistent_memory_malloc.h:705-790 | a page is handed to the disk at most once, in whatever order marked-read-only actions and completions run |
| PageFlush.AllIssued | src/core/persistent_memory_malloc.h:764-790 | when no thread is in AsyncFlushPages exactly the pages below safe_read_only have been handed out |
| PageFlush.MarkedRuns | src/core/persistent_memory_malloc.h:705-714 | safe_read_only is at or above every target whose action no longer waits |
| PageFlush.SafeIsMarked | src/core/persistent_memory_malloc.h:705-714 | it is one of those targets, and never above read_only |
| PageFlush.ClosedExactly | src/core/persistent_memory_malloc.h:679-702 | safe_head is the highest target of the closing actions that have run |
| PageFlush.HeadShifts | src/core/persistent_memory_malloc.h:977-1000 | the head is at or above every target it was to be shifted to |
| PageFlush.ShiftReaches | src/core/persistent_memory_malloc.h:510-527 | ShiftFlushedUntilAddress, run alone, moves flushed_until past every page that has been written, up to the first that has not |
| FlushedBytes.InFlightResident | src/core/persistent_memory_malloc.h:764-790 | while a page is being written its frame still holds it, and nobody writes there |
| FlushedBytes.InvInductive | src/core/persistent_memory_malloc.h:705-790 | log, flushing and disk stay consistent under every joint step, bytes written in any order |
| FlushedBytes.FlushedOnDisk | src/core/persistent_memory_malloc.h:510-527 | below flushed_until the disk holds the log |
| FlushedBytes.FlushedIsFinal | src/core/persistent_memory_malloc.h:510-527 | and what it holds never changes, nor does the log there |
| FlushedBytes.EvictedOnDisk | src/core/persistent_memory_malloc.h:679-702 | every allocated address reads the log's value from its frame or, below the head page, from disk |
| DiskScan.PlainWalkExact | src/core/fishstore.h:1645-1661 | the plain walk touches exactly the key pointers that following prev from the start reaches at or above begin, whose address is in [start, end], whose record matches and is not invalid, descending |
| DiskScan.LevelsExactly | src/core/internal_contexts.h:366-374 | gaps within tolerance raise the prefetch level one by one to the top; one above tolerance resets it |
| DiskScan.PageSizes | src/core/constants.h:27-32 | a level reads one byte, 4 KB, and four times as much with every further level |
| DiskScan.Read | src/core/persistent_memory_malloc.h:449-462 | a sector-aligned read covers the bytes asked for |
| DiskScan.ScanPageFacts | src/core/address.h:115-129 | scan page, head and offset arithmetic at each prefetch level |
| DiskScan.ScanIo.PointerFetched | src/core/fishstore.h:2076-2120 | the window that starts at a key pointer: explore, or fetch header or record, touching what the walk touches |
| DiskScan.ScanIo.RecordFetched | src/core/fishstore.h:2193-2215 | the window that starts at a record |
| DiskScan.ScanIo.Follow | src/core/fishstore.h:2005-2036 | the chain loop: touches what the plain walk touches, every look inside the window, until the chain ends, leaves the scan page, loses a header, or overruns as predicted |
| DiskScan.ScanIo.Explore | src/core/fishstore.h:2004-2074 | following the chain inside the window touches what the plain walk touches and reads only bytes inside, or overruns as predicted |
| DiskScan.ScanIo.Callback | src/core/fishstore.h:1969-2266 | one callback keeps the scan equal to the plain walk, keeps the prediction, and lowers (chain address, fetch stage) |
| DiskScan.Scan | src/core/fishstore.h:1792-1822 | for every chain, range and sequence of levels the adaptive scan ends; it hands out a record beyond its window if and only if Overruns holds of its start, and otherwise touches exactly the selected key pointers, descending, as the plain walk does |
| DiskScan.UncutFits | src/core/fishstore.h:2004-2036 | nothing is overrun if the end of the range lies between no two neighbours of a chain in one record |
| DiskScan.CutOverruns | src/core/fishstore.h:2004-2036 | a log and range on which the scan hands out a record that ends 152 bytes behind its window, for every sector size that divides 4096 |
| ChainScan.TraceBackForMatch | src/core/fishstore.h:1645-1661 | stops at the next matching key pointer of a valid record, losing none |
| ChainScan.InternalScan | src/core/fishstore.h:1492-1577 | touches exactly the matching key pointers of the chain in the range, in chain order |
| ChainScan.ScanPage | src/core/fishstore.h:1597-1617 | a header-by-header page scan selects each qualifying record once |
| ChainScan.InternalFullScan | src/core/fishstore.h:1581-1641 | the backward page loop selects exactly the qualifying records of the range, each once |
| ChainScan.IndexTouches | src/core/fishstore.h:1492-1577 | the index scan touches exactly the valid records with a matching key pointer whose own address is in the range |
| ChainScan.ScansCompare | src/core/fishstore.h:1492-1641 | for every range: a selected record is touched by the index scan if and only if its key pointer is in the range, by the full scan if and only if it is itself |
| ChainScan.ScansAgree | src/core/fishstore.h:1492-1641 | the two touch the same records if and only if no end of the range cuts a selected record before its key pointer |
| ChainScan.WholeRangeAgrees | src/core/fishstore.h:283-289 | they agree on ranges from a record boundary to beyond the log, as the default range is |
| ChainScan.ScansDiffer | src/core/fishstore.h:1492-1641 | a record that only the full scan touches, and one that only the index scan does |
| ChainScan.TouchedOnce | src/core/fishstore.h:1548-1560 | on every range the index scan touches each record once, from high to low |
| IndexSplit.TraceBack | src/core/fishstore.h:2914-2928 | skips only key pointers of one side, as far as memory reaches |
| IndexSplit.SplitEntry | src/core/fishstore.h:2959-2993 | one old entry becomes at most one entry per side, every hash finds the same key pointers through its side, and entries in memory are on the side their hash belongs to |
| IndexSplit.AddHashEntry | src/core/fishstore.h:2899-2911 | appends, opening an overflow bucket exactly when the last is full |
| IndexSplit.SplitBucket | src/core/fishstore.h:2948-3003 | one bucket chain becomes two that keep lookup for every hash and unique tags, with every entry in memory on its side |
| IndexSplit.ChunksPartition | src/core/fishstore.h:2935-2947 | every bucket lies in exactly one chunk |
| IndexSplit.SplitChunk | src/core/fishstore.h:2935-3003 | splits its own buckets and leaves the others alone |
| IndexSplit.SplitTable | src/core/fishstore.h:2931-3010 | a thread that gets all the chunks splits every bucket |
| GrowMachine.InvInductive | src/core/fishstore.h:2935-3013 | chunk counter, pending counter, threads and new table stay consistent however threads take chunks |
| GrowMachine.SplitOnce | src/core/fishstore.h:2935-2957 | no bucket is split twice, by two threads, or out of a freed table |
| GrowMachine.FreedWhenSplit | src/core/fishstore.h:3007-3013 | the old table is freed only when every bucket is split and no thread is at work on it |
| GrowMachine.LeftWhenSplit | src/core/fishstore.h:3014-3026 | when every thread has left the loop the new table is complete and the old one freed |
| IndexSplit.TwiceTheSize | src/core/key_hash.h:35-38 | a hash keeps its bucket or moves up by the old size |
| IndexSplit.IdxExactly | src/core/key_hash.h:35-38 | the bucket depends on the address bits alone: addresses below the size are their own bucket, addresses a multiple of the size apart share one |
| IndexSplit.GrowKeepsLookup | src/core/fishstore.h:2931-3028 | for every hash the key pointers found at or above begin are the same before and after, tags still unique |
| RecordLayout.FieldsRoundTrip | src/core/record.h:36-49 | every bit field of a word reads back, cut to its width |
| RecordLayout.HeaderRoundTrip | src/core/record.h:36-49 | a header whose fields fit reads back from its word |
| RecordLayout.PointerRoundTrip | src/core/record.h:111-142 | a key pointer whose fields fit reads back from its two words |
| RecordLayout.HeaderBits | src/core/record.h:36-49 | the bit positions of the header fields: 0, 15, 40, 48, 61, 62, 63 |
| RecordLayout.PointerBits | src/core/record.h:111-142 | the bit positions of the fields of the two kinds of key pointer |
| RecordLayout.RecordRoundTrip | src/core/record.h:84-201 | header, each key pointer, payload and optional bytes read back from the log; get_record inverts get_ptr; size() is the length written |
| RecordLayout.WalkBySize | src/core/record.h:159-168 | walking by size() visits exactly the records laid one after another |
| RecordLayout.LayOut | src/core/fishstore.h:912-980 | one key pointer per non-null result, in order: inside the payload at the result's own offset, otherwise behind the payload and the copies before it; each reads back its bytes if the result is clean, and nothing else is copied |
| RecordLayout.ValueReadsBack | src/core/record.h:198-201 | key pointer j in the log reads exactly the bytes PSF j returned |
| RecordLayout.CleanIsExact | src/core/fishstore.h:967-976 | for a result starting inside, reading back holds for all memories if and only if it also ends inside |
| RecordLayout.UncleanMisreads | src/core/fishstore.h:967-976 | whatever follows the payload, an unclean result has a memory on which it is misread |
| RecordLayout.UncleanLaidOut | src/core/fishstore.h:912-980 | and then LayOut's own key pointer for it reads back other bytes, whatever the other results are |
| RecordLayout.AdjacentBuffer | src/core/fishstore.h:967-976 | a one-byte buffer right behind the payload is misread |
| LssAllocator.PadAlignment | src/core/auto_ptr.h:46-52 | the padding arithmetic gives the first multiple at or above its argument |
| LssAllocator.PlacesExactly | src/core/lss_allocator.cc:120-125 | the header's place as specified is exactly the one user_offset computes |
| LssAllocator.PlaceFits | src/core/lss_allocator.cc:95-136 | header and user bytes fit the block and the user bytes are aligned as asked |
| LssAllocator.BlockSizeExactly | src/core/lss_allocator.cc:107-111 | a block is the smallest multiple of 16 that holds user bytes, header and the largest fill |
| LssAllocator.FreeFindsSegment | src/core/lss_allocator.cc:157-164 | from the user pointer of any block ever handed out, Free gets back to its segment through the 16-bit offset in the header |
| LssAllocator.InvInductive | src/core/lss_allocator.cc:34-92 | packed counter, live blocks and pending frees stay consistent under every interleaving |
| LssAllocator.FreedOnce | src/core/lss_allocator.cc:34-55 | a segment is freed once, sealed and with no live block |
| LssAllocator.NoUseAfterFree | src/core/lss_allocator.cc:34-92 | no step touches a freed segment |
| LssAllocator.LastOneFrees | src/core/lss_allocator.cc:34-55 | a sealed segment with no live block is freed, or exactly one thread is about to free it |
| LssAllocator.BlocksDisjoint | src/core/lss_allocator.h:176-183 | blocks of a segment are disjoint, inside the buffer and aligned |

## Left out

- Memory models weaker than sequential consistency, sessions joining or leaving during an action, and thread id 0, which the epoch scans skip.
- Garbage collection: CleanHashTableBuckets and its race with insertion.
- HeavyEnter: helping with a split or waiting for GROW_PREPARE from inside an operation.
- Snapshot-file checkpoints, metadata and naming files, GUIDs, I/O errors, and the restoring of memory pages after recovery.
- RecoverFuzzyIndexComplete: a tentative entry counts as unused in the snapshot; the clearing loop itself adds only an easy member.
- Recovery.Store.RecoverHybridLog: reading and writing back pages asynchronously is not modelled, only the order of scanning.
- RunRecovery.RecoverRun: the one start address Recovery.StartableExact singles out is excluded; that records, key pointers and slots of the three models describe one log at the crash is its premise, not a joint run.
- RunRecovery.RecoverDisk: flushing goes by whole pages, so the last page counts as flushed once all of it is; the record addresses are taken from the log.
- FlushedBytes.InvInductive: the two parts keep their own epoch tables, which allows more interleavings than the shared one.
- ChainScan.InternalFullScan: the part of the log on disk and the Refresh between pages are left out; the log lies in memory.
- ChainScan.InternalScan: the hand-over of the chain below head_address is left to DiskScan.
- Read and its disk callback, a chain walk to the first match that adds nothing to the two scans.
- Checkpoint locks and pending I/O during WAIT_PENDING: inserts of FishStore never wait for I/O.
- GC_IO_PENDING swaps contexts as well; it does not change versions and is not modelled.
- PhaseMachine.Refines: liveness of handlers that wait for I/O, flushing or other threads is not claimed.
- TailAllocator.Allocations: sessions spinning in NewPage are not shown to make progress.
- IndexSplit.SplitTable: one thread on its own; the shared chunk counter and many threads are in GrowMachine, a bucket per step.
- LssAllocator.FreedOnce: the debug build's larger header and the Windows segment size.
- RecordLayout.LayOut: hashing, and the need_free bookkeeping of result buffers.
- Adapters, parsers, PSF libraries and the JIT: a PSF is a function from payload to optional value.
