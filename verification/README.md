# Storage core of the slab store, modelled and proved in Dafny

This project models the parts of the store that decide where bytes live and when they are safe:

* the **slot allocator**: a hybrid freelist (a sorted vector, or two ordered indexes), best-fit reservation with packed
  placement, coalescing free, batches with rollback, the redo journal and its replay, the on-device header;
* the **block cache**: sharded residency with two intrusive recency lists, prefer-clean eviction, reads and writes over
  many blocks, coalesced flushing, and the unlocked snapshot / write / clear protocol between them;
* the **checkpoint**: sampling a fence against concurrent mutations, snapshotting, flushing, syncing, fencing and
  reclaiming the redo log, and restarting after a crash;
* the **device** underneath: short transfers, exact-transfer loops, a volatile write cache.

Code that updates fields in place is a class whose methods are proved against a plain value (a free map, two
sequences, a flat byte array). What holds over whole runs is stated on those values.

## How the files fit

| file | contents |
|---|---|
| `Prelude.dfy`, `Rounding.dfy`, `BlockMath.dfy`, `Regions.dfy` | results and integers; rounding; block arithmetic; byte sets of free maps |
| `Freelist.dfy` | both freelist forms against one map |
| `RedoLog.dfy`, `Device.dfy` | the journal's interface; the device |
| `AllocatorSpec.dfy`, `SlotAllocator.dfy`, `HeaderCodec.dfy` | allocator operations on values; the allocator class; the header |
| `AllocatorRuns.dfy`, `AllocatorRecovery.dfy` | runs with crashes and restarts; what replay means, reconciliation |
| `FuzzyCheckpoint.dfy`, `FuzzyExample.dfy` | replay over a header written after the fence; a run where it goes wrong |
| `Shard.dfy`, `Recency.dfy` | one shard; which blocks reads, writes and flushes leave resident, and in which order |
| `CacheSpec.dfy`, `Cache.dfy`, `FlushRuns.dfy` | the cache on values; the cache class; coalescing |
| `FlushProtocol.dfy` | interleavings of reads, writes, evictions and flushes |
| `Checkpoint.dfy` | the checkpoint protocol, crashes and restarts |

## Main results

* **Allocator crash safety** (`FenceRestart`): recovery boots the durable header and replays the log from the redo fence,
  which was sampled before that header was written. In any run, restarts included, with a crash at any point and any part
  of a failed flush on disk, this gives the live state, advanced by the entries that reached the disk, exactly when every
  replayed entry lasts: an allocation overlaps at most one free region where it is replayed or is freed again, a free
  overlaps none or leaves nothing to free. `FenceRestartRight` is a condition on the allocations between fence and header
  alone; it holds outright when nothing was journaled there, as under a blocking checkpoint. Replaying from the header's
  own log position, which the code does not record, is always exact (`AllocatorRuns.CrashRecovery`, `TornRecovery`). The
  durable header must be whole; it is unless a sync fell between a failed header write and the next successful one
  (`TornSync`), and such a sync can make the store unrecoverable (`TornHeaderRefused`).
* **Allocation safety** (`FenceRunSound`): in every state of every run, before and after any number of crashes whose
  recoveries replay from a fence, live regions are disjoint from each other and from free space and lie in the data region,
  and placement obeys the packing rules, as long as the entries each recovery replays last. Without that condition a
  recovery can leave a live byte free (`FenceRestartUnsafe`; `FenceRestartCanFreeLiveSpace` is a run that does). Runs
  without such recoveries need no condition (`RunSound`).
* **Where reservations go** (`ReserveWhere`, `BatchItem`): best fit among the free regions that can hold the request, else
  the first placeable point past the high-water mark; failure exactly when that ends past the device.
* **Records survive** (`RecordSurvives`): a record stored and synced is still there after any steps and crashes while its
  reservation is live and it is not stored to again.
* **Headers** (`DecodeExact`, `TamperedRefused`): a device opens with a header if and only if it starts with that header's
  encoding, checksum included.
* **Exact rollback** (`RollbackExact`, `ReserveAllUndoes`): undoing any batch restores the state and merges nothing.
* **Replay over a later header**, as after a fuzzy checkpoint, recovers the live state whenever every allocation journaled
  between fence and header overlaps at most one free region where it is replayed (`FuzzyRecovery`). An allocation that
  overlaps two, and whose reservation is still live, leaves a live byte free (`FuzzyLeavesLiveFree`), and reconciling with
  the live records does not take it back (`ReconcileCannotRepair`). Exactly when replay is right is `FuzzyExactIff`. The
  source documents replay as idempotent over a later header, but the code carves one overlapping region only:
  `FuzzyReplayCanFreeLiveSpace` is a run in which live space ends up free.
* **The cache is a flat array** (`CacheState.Pread`, `Pwrite`, `EvictIfFull`, `FlushAllDirty`, `Sync`), for every device
  that transfers short, stalls or fails. A request's blocks end up most recently used, in order (`RequestMostRecent`),
  and room is made by the least recently used clean block, else the least recently used dirty one (`LeastRecentlyUsed`).
* **Exact transfers** (`PreadExactAt`, `PwriteAllAt`, `DeliverIs`): the retry loops end as the first transfer decides that
  does not move whole blocks; a device that always moves whole blocks completes every request (`ReliableCompletes`). Such
  a device, itself of whole blocks, is called healthy below.
* **Coalescing** issues the fewest possible writes (`FewestWrites`) and any grouping in any order leaves the same device
  (`AnyGroupingAnyOrder`).
* **Interleaved flushing** is right exactly under a guard per step (`StepExact`, `RunExact`), and the guards hold in every
  run of a schedule with one flusher per block, no eviction of a block being loaded and no eviction of a dirty block
  being flushed (`ScheduledRun`), whatever writes fail part-way. The code does not enforce that schedule; `StaleLoad`,
  `StaleCleanLoad`, `LostWrite` and `TwoFlushers` are runs that break one rule each and lose a write, evicting only as the
  code does.
* **Checkpoint crash safety** (`Checkpoints.CrashRecovery`, `FenceOrdering`, `UnfencedKeepsLog`, `BlockingDrains`) over
  all interleavings, failures and crashes. Restarting is safe for the mined index exactly when its snapshot's fence is
  not beyond the durable log (`RestartExact`): always so under strict durability (`StrictRestarts`), not under buffered
  durability (`UnsafeRestartReachable`). What the snapshots hold, what is reclaimed and what a restart shows is stated
  exactly (`SnapshotExact`, `ReclaimExact`, `RestartShows`, `CheckpointAlone`).

## Model

| member | source | states |
|---|---|---|
| Freelist.FreelistBackend.constructor | src/allocator.rs:424-426 | a new backend is valid and holds nothing |
| Freelist.FreelistBackend.Len | src/allocator.rs:428-433 | the number of free regions, in either form |
| Freelist.FreelistBackend.Largest | src/allocator.rs:443-450 | the size of a largest region, zero when there is none |
| Freelist.FreelistBackend.BestFit | src/allocator.rs:463-528 | both forms take the head of the same region: least (size, offset) among those that are large enough and well placed; None only if no region qualifies |
| Freelist.FreelistBackend.BestFitSmall | src/allocator.rs:479-505 | the scan with early exit of the vector form finds that region and updates the vector to the map with its head taken |
| Freelist.FreelistBackend.BestFitLarge | src/allocator.rs:506-524 | the first qualifying pair in the order of the size index is that region, and both indexes stay consistent |
| Freelist.FreelistBackend.LeastWaste | src/allocator.rs:480-494 | the scan's candidate is first in (size, offset) order among the entries seen |
| Freelist.FreelistBackend.Insert | src/allocator.rs:532-546 | adds one region to the map, whichever form and promotion apply |
| Freelist.FreelistBackend.Remove | src/allocator.rs:549-564 | removes one region and returns its size, or None and no change |
| Freelist.FreelistBackend.NextFrom | src/allocator.rs:586-598 | the region with the least offset at or after a point, or that there is none |
| Freelist.FreelistBackend.PrevBefore | src/allocator.rs:601-618 | the region with the greatest offset before a point, or that there is none |
| Freelist.FreelistBackend.InOffsetOrder | src/allocator.rs:436-441 | all regions sorted by offset, each exactly once |
| Freelist.FreelistBackend.MaybePromote | src/allocator.rs:621-633 | promotion keeps the map and happens exactly above its threshold |
| Freelist.FreelistBackend.MaybeDemote | src/allocator.rs:636-647 | demotion keeps the map and happens exactly below its threshold |
| AllocatorSpec.AlignUpWraps | src/allocator.rs:1817-1820 | rounding up is the least multiple that holds the size, except that within one block of the 64-bit limit it wraps to zero |
| AllocatorSpec.ReservationHolds | src/allocator.rs:1832-1844 | a reservation holds its request exactly when rounding did not wrap, and is a whole number of units |
| AllocatorSpec.ReservationLeast | src/allocator.rs:1817-1844 | without overflow the reservation is the least whole number of records, when packed and at most one block, else of blocks, that holds the request |
| AllocatorSpec.AlignReservationIdempotent | src/allocator.rs:1832-1844 | freeing by reserved size frees the same extent as freeing by requested size |
| AllocatorSpec.AppendPointPlaced | src/allocator.rs:1112-1131 | the append point is the high-water mark rounded up by less than a block so that the placement rule holds |
| AllocatorSpec.WithinMeans | src/allocator.rs:463-477 | packed placement: a small reservation has no block boundary inside it, a large one starts at one |
| AllocatorSpec.AppendPointLeast | src/allocator.rs:1112-1131 | it is the first point from the high-water mark on that the placement rule accepts |
| AllocatorSpec.ReserveWhere | src/allocator.rs:1081-1156 | which space a reservation takes: unless append-only, the head of the least (size, offset) region that can hold it and exactly its bytes; with none, the first placeable point past the high-water mark; it fails exactly when that would end past the device |
| AllocatorSpec.ReserveTakes | src/allocator.rs:1081-1156 | a reservation takes exactly its bytes from one free region, or fresh bytes past the high-water mark; it lies in the data region and obeys placement |
| AllocatorSpec.ReserveGranular | src/allocator.rs:1081-1156 | every region handed out, and everything left free, stays on unit boundaries |
| AllocatorSpec.RollbackExact | src/allocator.rs:1158-1225 | rolling back the last reservation restores the free map and high-water mark exactly, and no neighbour is merged |
| AllocatorSpec.ReserveAllUndoes | src/allocator.rs:893-960 | a batch of any sizes, whatever mix of splits, exact fits, appends and misses, can be undone to the state before it |
| AllocatorSpec.BatchItem | src/allocator.rs:893-931 | each request of a batch is granted exactly as one made alone after those before it, whatever became of them |
| AllocatorSpec.BatchJournal | src/allocator.rs:893-931 | the journal of a batch lists exactly the regions it got, in order |
| AllocatorSpec.ReleaseKeeps | src/allocator.rs:1048-1069 | coalescing free keeps the map sorted, disjoint and without adjacent regions |
| AllocatorSpec.ReleaseGranular | src/allocator.rs:1048-1069 | coalescing free keeps everything on unit boundaries |
| AllocatorSpec.CarveFirstBytes | src/allocator.rs:1360-1396 | carving never frees a byte and never removes a byte outside the range |
| AllocatorSpec.ReplayKeeps | src/allocator.rs:1276-1521 | no redo entry, however corrupt, breaks the free map |
| AllocatorSpec.ReclaimKeeps | src/allocator.rs:1889-1919 | reconciling a record removes exactly its bytes if it lies in one free region, and otherwise changes nothing |
| Regions.CanonicalUnique | src/allocator.rs:396-404 | a sorted, disjoint, non-adjacent free map is determined by its set of free bytes |
| Regions.AddRangeCorrect | src/allocator.rs:1048-1069 | merging with the left and right neighbour adds exactly the freed bytes |
| Regions.CutCorrect | src/allocator.rs:1360-1396 | splitting one region around a range removes exactly their overlap |
| SlotAllocators.PrevDecides | src/allocator.rs:1858-1865 | one predecessor lookup decides whether a byte is free |
| SlotAllocators.NeighboursDecide | src/allocator.rs:990-1023 | the predecessor and successor lookups decide whether a range is disjoint from all free space |
| SlotAllocators.SlotAllocator.constructor | src/allocator.rs:652-672 | a fresh allocator has nothing free and its high-water mark at the data region |
| SlotAllocators.SlotAllocator.ReserveAligned | src/allocator.rs:1081-1156 | the state becomes the specified reservation's; a full device changes nothing and reports the largest free region |
| SlotAllocators.SlotAllocator.CoalesceAdjacent | src/allocator.rs:1202-1225 | merges with whichever neighbours touch the region |
| SlotAllocators.SlotAllocator.RollbackReservation | src/allocator.rs:1158-1191 | undoes one reservation |
| SlotAllocators.SlotAllocator.Allocate | src/allocator.rs:764-797 | journals and commits one reservation, or rolls back to the state before when the journal refuses |
| SlotAllocators.SlotAllocator.ReserveBatch | src/allocator.rs:893-931 | reserves each size in turn, with a gap where the device is full |
| SlotAllocators.SlotAllocator.RollbackPending | src/allocator.rs:953-960 | restores the state before the batch exactly |
| SlotAllocators.SlotAllocator.AllocateBatch | src/allocator.rs:810-869 | all of the batch is journaled and committed, or none of it |
| SlotAllocators.SlotAllocator.FreeRegionContaining | src/allocator.rs:1858-1865 | finds the free region that holds a byte exactly when the byte is free |
| SlotAllocators.SlotAllocator.Free | src/allocator.rs:970-1079 | succeeds exactly when the range is in the data region, disjoint from every free region and journaled, and then frees exactly the reserved extent; otherwise nothing changes and the error names the range or a free region it overlaps |
| SlotAllocators.SlotAllocator.CarveAllocation | src/allocator.rs:1360-1396 | carves the first overlapping free region and reports whether anything changed |
| SlotAllocators.SlotAllocator.ReplayRedo | src/allocator.rs:1276-1300 | replays one entry and reports a change exactly when the state changed |
| SlotAllocators.SlotAllocator.ReplayAllocateEntry | src/allocator.rs:1302-1354 | replays an allocation: raises the high-water mark to its end and carves it out of the first free region it overlaps, if any; an empty entry or one outside the data region changes nothing |
| SlotAllocators.SlotAllocator.ReplayFreeEntry | src/allocator.rs:1398-1521 | replays a free: a range disjoint from free space is freed and coalesced; one that overlaps free space, is empty or lies outside the data region is dropped |
| SlotAllocators.SlotAllocator.ReserveRecoveredLiveRegion | src/allocator.rs:1889-1919 | carves a live record out of free space exactly when it lies wholly in one free region |
| SlotAllocators.SlotAllocator.IsAllocatedRange | src/allocator.rs:1927-1950 | answers exactly whether a range is inside the used extent and touches no free byte |
| SlotAllocators.SlotAllocator.Stats | src/allocator.rs:1984-2012 | region count, free bytes as the size of the free byte set, largest region, bytes in use |
| SlotAllocators.SlotAllocator.PersistHeaderNoSync | src/allocator.rs:1584-1654 | writes the encoded header and nothing beyond it, or refuses a freelist above the cap; on a healthy device, however short its transfers, it succeeds exactly below the cap |
| SlotAllocators.SlotAllocator.Persist | src/allocator.rs:1563-1571 | as above, then synced |
| SlotAllocators.SlotAllocator.Recover | src/allocator.rs:1672-1814 | opens exactly the state the device's header decodes to, or fails closed; on a healthy device it fails only if the header does not decode |
| SlotAllocators.SlotAllocator.PersistAndReopen | src/allocator.rs:1563-1814 | persisting, losing power and recovering gives the same free map, high-water mark, identity and mode; on a healthy device it never fails below the cap |
| SlotAllocators.SlotAllocator.ReadHeader | src/allocator.rs:1672-1814 | the field-by-field reader agrees with the decoder on every device content, and on a healthy device always answers |
| HeaderCodec.DecodeEncode | src/allocator.rs:1584-1814 | decoding what was encoded gives it back, whatever follows on the device |
| HeaderCodec.EncodeDecode | src/allocator.rs:1711-1814 | what decodes encodes to the bytes it came from, checksum included |
| HeaderCodec.DecodeExact | src/allocator.rs:1711-1814 | a device opens with a header if and only if it starts with that header's encoding and holds its last block |
| HeaderCodec.DecodeAccepts | src/allocator.rs:1711-1773 | field by field: magic number, version, count, length and a checksum equal to that of the header with its own slot zeroed, all of them needed |
| HeaderCodec.DecodeRefuses | src/allocator.rs:1676-1773 | which refusal means what: checksum mismatch with both values, unknown version, corrupted header |
| HeaderCodec.TamperedRefused | src/allocator.rs:1750-1773 | an encoded header changed outside its checksum is refused unless both byte strings have the same checksum |
| HeaderCodec.Layout | src/allocator.rs:1610-1647 | where each field, the checksum and each region entry are stored |
| HeaderCodec.PaddedZero | src/allocator.rs:1602-1611 | the header is padded with zeros to the least whole number of blocks |
| HeaderCodec.DecodeLocal | src/allocator.rs:1672-1814 | the decoder reads nothing beyond the header region |
| HeaderCodec.FreshMeansZero | src/allocator.rs:1676-1695 | only an all-zero first block counts as a fresh device |
| HeaderCodec.HeaderFits | src/allocator.rs:58-71 | every persistable header stays below the data region exactly when the alignment divides that region's offset |
| HeaderCodec.HeaderBelowData | src/allocator.rs:1602-1611 | the padded header of a persistable state never reaches the data region |
| HeaderCodec.BuildHeader | src/allocator.rs:1610-1647 | filling the zeroed buffer field by field and patching the checksum gives the encoded header |
| HeaderCodec.PersistRecover | src/allocator.rs:1584-1814 | recovering what was persisted gives the same free map, high-water mark, identity and mode, whatever is later written to the data region |
| Redo.RedoLog.AppendBatchAndFlush | src/redo.rs:4490-4502 | success: the durable entries grew by exactly the batch; failure: they did not change, and the log is as it was or poisoned with this batch torn; a poisoned log never changes |
| Redo.AppendHistory | src/redo.rs:4218-4265 | over any sequence of appends the log holds exactly the batches flushed before the first failed flush, whole and in order, and is poisoned exactly when there was one |
| AllocatorRuns.SafeReserve | src/allocator.rs:1081-1156 | a reservation keeps live regions disjoint, placed and outside free space |
| AllocatorRuns.ReserveApart | src/allocator.rs:1081-1156 | a fresh reservation overlaps no live one |
| AllocatorRuns.SafeRelease | src/allocator.rs:970-1079 | freeing a live region is accepted and keeps the others safe |
| AllocatorRuns.UsedBytesExact | src/allocator.rs:1984-2012 | without packing, live bytes are exactly the used extent minus the free bytes |
| AllocatorRuns.ReplayReserve | src/allocator.rs:1302-1354 | replaying the entry of a reservation repeats the reservation |
| AllocatorRuns.ReplayBatch | src/allocator.rs:810-931 | a batch keeps the allocator safe and its entries replay to the state it left |
| AllocatorRuns.ReplayRelease | src/allocator.rs:1398-1521 | replaying the entry of a free repeats the free |
| AllocatorRuns.ExecSound | src/allocator.rs:764-1079 | every step, with every journal outcome, keeps the live regions safe and the durable header plus the journal sufficient to rebuild the state |
| AllocatorRuns.RunSound | src/allocator.rs:764-1814 | every state of every run is safe and can be rebuilt from the durable header; restarts replay from the header's log position |
| AllocatorRuns.RestartingSound | src/allocator.rs:1672-1814 | power loss with any part of a failed flush on disk, then recovery from the header's log position, leaves a safe store whose live reservations are those the entries on disk describe |
| AllocatorRuns.LandedSafe | src/allocator.rs:810-931 | whatever part of an interrupted operation landed, the reservations it left live are safe |
| AllocatorRuns.TornSync | src/allocator.rs:1563-1654 | the durable header is torn only by a sync that falls between a failed header write and the next successful one |
| AllocatorRuns.TornHeaderRefused | src/allocator.rs:1711-1735 | on every fresh device a header write that stops between magic number and version, once synced, is refused by recovery |
| AllocatorRuns.InFlight | src/allocator.rs:810-931 | the entries of an interrupted operation take effect one by one |
| AllocatorRuns.CrashRecovery | src/allocator.rs:764-1814 | in any run, the durable header with the entries journaled since it was written gives the live state, with any part of the operation in flight |
| AllocatorRuns.TornRecovery | src/redo.rs:4218-4265 | the same after a failed flush left part of a batch on disk |
| AllocatorRuns.RecordKept | src/allocator.rs:1584-1611 | no step but a store to the record itself, or a crash, changes the bytes of a live record |
| AllocatorRuns.RecordSurvives | src/allocator.rs:764-1814 | in any run, a record stored and synced is still there after any further steps and crashes while its reservation stays live and it is not stored to again |
| AllocatorRecovery.CarveExactIff | src/allocator.rs:1363-1380 | carving one region removes the whole range exactly when no second region overlaps it |
| AllocatorRecovery.ReplayExactIff | src/allocator.rs:1276-1521 | an entry has its intended effect on the free bytes exactly when it is clean |
| AllocatorRecovery.ReplayMeaning | src/allocator.rs:1276-1521 | a clean stream replays to its set-level meaning and highest extent |
| AllocatorRecovery.ReplayRepeat | src/allocator.rs:1276-1521 | replaying a stream over the state after one of its prefixes gives the same result when both replays are clean |
| FuzzyCheckpoints.RunBetween | src/allocator.rs:764-1079 | the entries journaled between two points of a run, restarts included, lead from one state and one set of live reservations to the other |
| FuzzyCheckpoints.JournalMeaning | src/allocator.rs:764-1521 | between two points of a run the free bytes, the high-water mark and the live reservations changed exactly as the journal says |
| FuzzyCheckpoints.WholeOrNothing | src/allocator.rs:970-1079 | since any earlier point of a run a live reservation was touched by the journal whole or not at all |
| FuzzyCheckpoints.WindowExact | src/allocator.rs:1276-1521 | replaying the entries since the fence over the state they led to changes nothing, if each allocation overlaps at most one free region; frees that find part of their range free are skipped rightly |
| FuzzyCheckpoints.FuzzyRecovery | src/checkpoint.rs:806-923 | replaying from a fence over a header written later recovers the live state at every later crash, under that condition on the allocations between fence and header |
| FuzzyCheckpoints.FuzzyLeavesLiveFree | src/allocator.rs:1363-1380 | an allocation replayed over two free regions whose reservation is still live leaves one of its bytes free, so recovery is wrong |
| FuzzyCheckpoints.FuzzyExactIff | src/checkpoint.rs:806-923 | replay over the later header is right exactly when each replayed allocation overlaps at most one free region or is freed again, and each replayed free overlaps none or leaves nothing to free |
| FuzzyCheckpoints.ReconcileCannotRepair | src/allocator.rs:1889-1919 | whatever live records recovery reconciles with, in any order, the byte such an allocation left free stays free |
| FuzzyCheckpoints.HeaderFrom | src/allocator.rs:1563-1654 | the header on the device and the durable one each describe the state and log length of an earlier world of the run |
| FuzzyCheckpoints.FenceRestart | src/checkpoint.rs:806-923 | booting the durable header and replaying from the fence gives the live state, advanced by the entries of a failed flush on disk, exactly when every replayed entry lasts |
| FuzzyCheckpoints.FenceRestartRight | src/checkpoint.rs:806-923 | they all last if each allocation between fence and header overlaps at most one free region, in particular if nothing was journaled there |
| FuzzyCheckpoints.FenceRestartIs | src/recovery.rs:986-996 | a recovery from the fence whose entries last is the recovery from the header's log position |
| FuzzyCheckpoints.FenceRestartUnsafe | src/allocator.rs:1363-1380 | a recovery from the fence that replays a still live allocation over two free regions leaves a live byte free, so the store is not safe |
| FuzzyCheckpoints.FenceRunSound | src/recovery.rs:986-996 | every world of every run whose recoveries replay from a fence is safe and can be rebuilt, if the entries each recovery replays last |
| FuzzyExample.FenceRestartCanFreeLiveSpace | src/allocator.rs:1363-1380 | a run with a durable header from which recovery from the fence leaves a byte both live and free |
| FuzzyExample.FuzzyReplayCanFreeLiveSpace | src/allocator.rs:1363-1380 | a run whose entries since the fence, replayed over the header it wrote, leave a byte of a live reservation free |
| AllocatorRecovery.ReclaimAllBytes | src/allocator.rs:1889-1919 | reconciling disjoint records removes exactly the bytes of those in free space |
| AllocatorRecovery.ReclaimAnyOrder | src/allocator.rs:1889-1919 | the order of the records does not matter |
| AllocatorRecovery.ReclaimTwice | src/allocator.rs:1889-1950 | doing it twice changes nothing |
| Device.BlockDevice.Volatile | src/device.rs:713-719 | a volatile device starts zeroed, live and durable |
| Device.BlockDevice.Pread | src/device.rs:782-815 | one aligned, in-range read that moves what the device moves; any other request is refused |
| Device.BlockDevice.Pwrite | src/device.rs:817-850 | one aligned, in-range write that moves what the device moves; any other request is refused |
| Device.BlockDevice.PreadExactAt | src/device.rs:409-439 | retries short reads to the outcome of `Deliver`; success is exactly the requested range; a failure reports exactly the prefix that arrived and leaves the rest of the buffer alone |
| Device.BlockDevice.PwriteAllAt | src/device.rs:460-484 | retries short writes to the outcome of `Deliver`; success stores exactly the request; a failure stored exactly the reported prefix and nothing else |
| Device.DeliverIs | src/device.rs:409-484 | a request completes, stalls, breaks or ends inside a block exactly as the first transfer decides that does not move a positive whole number of blocks short of the rest |
| Device.ReliableCompletes | src/device.rs:409-484 | a device whose every transfer moves whole blocks completes every request, however short the transfers |
| Device.BlockDevice.Sync | src/device.rs:862-875 | the durable copy becomes the live bytes |
| Device.BlockDevice.SimulatePowerLoss | src/device.rs:735-747 | the live bytes become those of the last sync |
| Shards.Shard.constructor | src/cache.rs:340-352 | a new shard is valid and empty |
| Shards.Shard.Unlink | src/cache.rs:168-191 | takes a block out of the sequence its dirty flag selects; links elsewhere still thread both lists |
| Shards.Shard.PushBack | src/cache.rs:196-216 | appends a block at the most recently used end |
| Shards.Shard.Touch | src/cache.rs:221-227 | moves a block to the end of its sequence |
| Shards.Shard.TouchOnWrite | src/cache.rs:233-248 | in write-back mode a clean block moves to the dirty sequence and the worklist |
| Shards.Shard.MarkClean | src/cache.rs:255-262 | moves a block to the clean sequence and off the worklist |
| Shards.Shard.InsertBlock | src/cache.rs:591-601 | adds a block at the recent end, with its worklist entry when dirty |
| Shards.Shard.RemoveBlock | src/cache.rs:516-531 | unlinks and drops a block |
| Shards.DetachTwo | src/cache.rs:168-191 | relinking around a block keeps both lists well formed and partitioning the rest |
| Shards.AttachTwo | src/cache.rs:196-216 | linking a loose block behind the tail keeps both lists well formed |
| Shards.Shard.Counted | src/cache.rs:117-140 | the two lists together have exactly one entry per resident block |
| BlockMath.BlockSpan | src/cache.rs:551-559 | the part of a byte range that lies in a block, and that consecutive spans tile the range |
| BlockMath.SpansCover | src/cache.rs:567-571 | the blocks from first to last cover the whole range |
| BlockMath.SpanWhole | src/cache.rs:665-676 | an aligned range meets every block in full |
| CacheSpec.DropClean | src/cache.rs:514-520 | dropping a clean block leaves the flat contents |
| CacheSpec.LoadClean | src/cache.rs:587-601 | so does inserting what the device holds |
| CacheSpec.DirtyStore | src/cache.rs:526-537 | a device write that touches only addresses of dirty blocks is invisible |
| CacheSpec.WriteResident | src/cache.rs:694-704 | rewriting part of a block rewrites exactly that part of the flat contents |
| CacheSpec.WriteFresh | src/cache.rs:705-746 | so does inserting a written block over the device's bytes |
| CacheSpec.WriteThrough | src/cache.rs:665-670 | a device write behind the cache leaves only its own addresses in doubt |
| CacheSpec.RunStored | src/cache.rs:879-908 | one write of a run stores every block at its own address, so all become clean |
| CacheSpec.RunPrefix | src/cache.rs:879-891 | a run write that stops anywhere is invisible |
| CacheSpec.StoreRunsAt | src/cache.rs:824-845 | after the run writes every flushed block's address holds its byte and every other address what it held |
| CacheSpec.AnyGroupingAnyOrder | src/cache.rs:819-845 | any grouping into runs, written in any order, leaves the same device: a coalesced flush equals a per-block flush |
| CacheSpec.AllClean | src/cache.rs:752-755 | with nothing dirty the device is the flat contents |
| FlushRuns.MergeIntoRuns | src/cache.rs:851-873 | the runs concatenate to the snapshot, each is contiguous and within the byte cap, and none could have taken the next block |
| FlushRuns.FewestWrites | src/cache.rs:809-817 | no cut of the snapshot into legal writes has fewer |
| FlushRuns.FullWriteCount | src/cache.rs:33-47 | consecutive full blocks take their number over the blocks per write, rounded up |
| Caches.CacheState.constructor | src/cache.rs:380-387 | an empty cache reads as the device |
| Caches.CacheState.LoadFromInner | src/cache.rs:486-492 | the block's bytes on the device; a healthy device always delivers them |
| Caches.CacheState.EvictOne | src/cache.rs:514-537 | drops the least recently used clean block; without one, stores and drops the least recently used dirty block; a block that cannot be stored stays, dirty and most recent |
| Caches.CacheState.EvictIfFull | src/cache.rs:512-540 | ends with room or an error, contents unchanged, nothing lost, and exactly the least recent clean block, else the least recent dirty one, gone if the shard was full; the exits for empty lists cannot be reached |
| Caches.CacheState.ReadBlock | src/cache.rs:572-609 | the block's flat contents, from cache or device; a hit becomes the most recent of its order and nothing else changes; a miss evicts at most one block and becomes the most recent clean one; an error leaves residency alone |
| Caches.CacheState.MissBlock | src/cache.rs:584-601 | a miss makes room and inserts the device's bytes clean, as the most recent |
| Caches.CacheState.Pread | src/cache.rs:563-612 | returns the bytes of the flat array and keeps it; in every shard the request's blocks end up most recent, in order; a healthy device never fails it |
| Caches.CacheState.PreadNocache | src/cache.rs:619-659 | the same bytes without touching residency or recency |
| Caches.CacheState.WriteBlock | src/cache.rs:675-747 | one block of a write: the flat contents change in exactly that piece; the block becomes the most recent dirty one in write-back mode, the most recent clean one otherwise |
| Caches.CacheState.FreshBlock | src/cache.rs:705-746 | a write that misses takes untouched bytes from the device and needs room |
| Caches.CacheState.Pwrite | src/cache.rs:661-750 | success stores exactly the request and leaves its blocks most recent, in order; a failure stored a reported prefix; write-through also stores it on the device; a healthy device never fails it |
| Caches.CacheState.TakeSnapshot | src/cache.rs:793-816 | exactly the dirty blocks of all shards, in ascending order, with their buffers |
| Caches.CacheState.FlushOneRun | src/cache.rs:879-908 | returns what the one device write returns; success makes exactly the run's blocks clean and most recent, a failure changes none, the contents stay either way |
| Caches.CacheState.FlushAllDirty | src/cache.rs:789-845 | every run is attempted and flagged by what its own write returned; blocks of stored runs are clean, of failed runs untouched; Ok exactly when all were stored, else the first error |
| Caches.CacheState.FlushEach | src/cache.rs:818-845 | one write per run whatever becomes of the others; the flags, the error returned and what the device has left are those of the successive writes |
| Caches.CacheState.Sync | src/cache.rs:752-755 | afterwards the device, and its durable copy, equal the flat contents and nothing is dirty; an error leaves the durable copy as it was; a healthy device never fails it |
| Caches.CacheState.OrdersHold | src/cache.rs:117-140 | the two orders of a shard list exactly its clean and its dirty resident blocks |
| Recency.RequestMostRecent | src/cache.rs:512-601 | after a read or write of any blocks, whatever was resident and however small the shard, the request's blocks come last in both orders, ascending, and the last of them is resident |
| Recency.AccessedMostRecent | src/cache.rs:563-747 | the same for all shards of a request |
| Recency.FlushedMostRecent | src/cache.rs:255-262 | flushed blocks leave the dirty order and become the most recent clean ones, in the order they were flushed |
| Recency.LeastRecentlyUsed | src/cache.rs:512-531 | over any history of reads, writes and flushes both orders are by last use, so the block that makes room was used before every other block of its order |
| Recency.OnlyVictimLeaves | src/cache.rs:512-601 | accessing an absent block of a full shard drops exactly that block; with room, or on a hit, nothing is dropped |
| FlushProtocol.KeepsWellFormed | src/cache.rs:694-704 | whatever the interleaving, a buffer shared with a flusher never changes and the worklist is the dirty set |
| FlushProtocol.WriteBuffer | src/cache.rs:694-704 | a write keeps a resident block's buffer exactly when no flusher shares it, and otherwise takes one never used before |
| FlushProtocol.StepExact | src/cache.rs:587-908 | a step keeps every block's contents and every clean block in step with the device exactly under its guard |
| FlushProtocol.RunExact | src/cache.rs:587-908 | a run is faithful throughout exactly when every step was taken under its guard |
| FlushProtocol.KeepsOrderly | src/cache.rs:777-788 | the schedule keeps blocks in flight resident and dirty, and loads up to date |
| FlushProtocol.ScheduledRun | src/cache.rs:777-788 | under the schedule every read of every run returns what was last written |
| FlushProtocol.ClearDecides | src/cache.rs:893-906 | a block rewritten since its snapshot stays dirty and on the worklist; otherwise it is clean and its bytes are on the device |
| FlushProtocol.StaleLoad | src/cache.rs:584-601 | a run in which evicting a dirty block for room lets an older load insert out-of-date bytes |
| FlushProtocol.StaleCleanLoad | src/cache.rs:514-520 | the same with a block that was flushed and evicted clean |
| FlushProtocol.LostWrite | src/cache.rs:526-537 | a run in which a dirty eviction and an older flush lose a write |
| FlushProtocol.TwoFlushers | src/cache.rs:879-908 | a run in which two flushers leave a block clean with out-of-date bytes on the device |
| Checkpoints.ReplayCovers | src/checkpoint.rs:810-815 | replaying the durable entries above a fence over a store that covers it leaves no key older than its newest durable mutation |
| Checkpoints.ReplayExact | src/checkpoint.rs:810-815 | a key with durable entries above the fence gets the newest of them, any other keeps its value |
| Checkpoints.FenceSample | src/checkpoint.rs:801-808 | when the fence is sampled every covered mutation is visible in all stores |
| Checkpoints.CaptureShard | src/checkpoint.rs:858-865 | a shard serialized at any later time covers the fence |
| Checkpoints.KeepsStores | src/checkpoint.rs:863-1051 | every step keeps each durable store covering its fence and the fences ordered |
| Checkpoints.KeepsProgress | src/checkpoint.rs:806-1016 | every step keeps what the running checkpoint has established |
| Checkpoints.KeepsInv | src/checkpoint.rs:801-1051 | every interleaved step keeps the whole invariant, safe restarts included |
| Checkpoints.CrashRecovery | src/checkpoint.rs:801-1051 | at every crash point, restoring the snapshots and the surviving device and replaying leaves no key older than its newest durable mutation |
| Checkpoints.FenceOrdering | src/checkpoint.rs:867-1051 | reclaimed prefix, redo fence, mined fence and durable end are ordered at every point, and a running checkpoint's fence was applied before its snapshot |
| Checkpoints.UnfencedKeepsLog | src/checkpoint.rs:863-1016 | a checkpoint that fails before its fence leaves fence and reclaimed prefix as they were |
| Checkpoints.BlockingDrains | src/checkpoint.rs:817-825 | a blocking checkpoint that reclaims leaves nothing to replay |
| Checkpoints.OnlyBy | src/checkpoint.rs:801-1051 | which step can change which store, fence or log, and what a flush, a sync and a failure leave |
| Checkpoints.CaptureOrigin | src/checkpoint.rs:858-865 | while a snapshot is taken each shard in it is the live one where it was last captured |
| Checkpoints.SnapshotExact | src/checkpoint.rs:858-899 | a published index or mined snapshot holds, key by key, exactly what the live index or mined index held where this checkpoint last captured the key's shard |
| Checkpoints.ReclaimExact | src/checkpoint.rs:1028-1043 | after a reclaim of either kind the reclaimed prefix and the fence are the log as it was when that checkpoint started |
| Checkpoints.MinedFenceExact | src/checkpoint.rs:894-899 | the mined snapshot carries the length of the log when its checkpoint started |
| Checkpoints.CheckpointAlone | src/checkpoint.rs:801-1051 | from any quiet node a checkpoint of either kind can be taken, and leaves snapshots and devices equal to what readers see and the log durable, fenced and reclaimed to its end |
| Checkpoints.RestartShows | src/checkpoint.rs:810-815 | after a restart each store shows, key by key, the newest durable entry above its own fence, and without one what its snapshot or device held |
| Checkpoints.RestartExact | src/checkpoint.rs:881-893 | after a restart the next mutation of every key survives the next crash exactly when the mined snapshot's fence was not beyond the durable log |
| Checkpoints.UnsafeRestartReachable | src/checkpoint.rs:894-975 | with buffered durability a run reaches a state where it is beyond |
| Checkpoints.StrictRestarts | src/checkpoint.rs:801-805 | when mutations hold the barrier until their entry is durable, every restart of every run is safe |

## Left out

- Threads, mutexes, condition variables and the flush pool: operations are atomic steps, or the steps between locks in `FlushProtocol` and `Checkpoints`.
- Operating system calls, aligned buffers and raw memory.
- Checksum internals and random identities: any checksum function and any identity.
- The redo log's own layout, segments and group commit: a log accepts a batch, refuses it, or tears it and is poisoned.
- The segment allocator, defragmentation and the compaction budget.
- The checkpoint loop's timing, back-off and escalation decisions: they choose when a checkpoint runs, not what it does.
- Metrics, tracing, fault injection, statistics formatting and trait forwarding.
- Ordered maps and sets of the large freelist form: that their iteration and range lookups follow the key order is taken as given.
- Header bytes that reach the disk without a sync: a header write becomes durable at the next sync.
- Switching packed placement on a running allocator.
- Cache constructor sizing and the background writeback thread's lifecycle.
- The reload of a block evicted between a partial write's residency check and its lock: it needs an interleaving, and `FlushProtocol` treats whole-block writes only.
- Devices stacked under the cache: a cache-bypassing read of the device is a plain read.
- Checkpoint steps with no effect on the three stores (allocator header, tombstones, height, index flush), and deletions: a mutation is an upsert.
- Single allocations in runs: an allocation is a batch of one.
- FuzzyCheckpoints.FuzzyRecovery: its condition is sufficient; the exact one, which also admits bad allocations that are freed again, is in `FuzzyExactIff`.
- AllocatorRuns.RunSound: its restarts replay from the header's log position, which the code does not record; `FuzzyCheckpoints.FenceRunSound` is the statement for the fence.
- AllocatorRuns.RestartingSound: the same; `FuzzyCheckpoints.FenceRestartIs` says when recovery from the fence is that restart.
- AllocatorRuns.CrashRecovery: replays from the header's log position, where `FuzzyCheckpoints.FenceRestart` has the fence; requires the durable header to be whole; what a torn header decodes to depends on the checksum, so only `TornHeaderRefused` speaks of it.
- SlotAllocators.SlotAllocator.Recover: requires that a header with a valid checksum lists its regions in order and disjoint, as every header written by the allocator does; the source opens others too.
- Freelist.FreelistBackend.Insert: requires the offset to be absent, as every caller ensures.
- Caches.CacheState.Pwrite: in write-back mode requires the range to lie on the device, where the source would panic; after a failed write-through the addresses of that request are in doubt until written again.
- Caches.CacheState.Pread: requires the range to lie on the device, where the source would panic.
- Checkpoints.CrashRecovery: states freshness by mutation tickets; replay of an entry sets its key, as the source assumes of redo replay.
