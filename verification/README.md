# MVisor in Dafny

A Dafny model of the parts of the MVisor virtual machine monitor whose correctness depends on many
pieces of state agreeing with each other, with proofs of what they promise.

**The QCOW2 image engine** (`Qcow2*.dfy`, `HostFile.dfy`, `LruCache.dfy`). `Qcow2Image` is a class with the
fields of an open image; its methods follow the operations of `images/qcow2.cc` step by step, including the
loops of the cluster search, of the transfers and of the flush, and the write-back of tables when the two
bounded caches evict them. They are specified on snapshots of the image (`Img`), and the snapshots are
related to metadata without caches and without encodings (`Meta`) by the function `Abs`, which reads
every table through its cache. On that ground the project proves exact ownership of host clusters,
transparency of the caches, first-fit allocation, the effect of every transfer on the disk as a flat
array of bytes over a backing chain of any depth, and that a flushed file reopens as the same image.

**Guest memory** (`FlatView.dfy`, `MemorySlots.dfy`, `MemoryManager.dfy`). The flattening of overlapping
regions, the two-iterator comparison of the flat view with the slots in force, the commit, the pool of
slot ids and the two address translations.

**Live migration** (`MigrationStream.dfy`, `MigrationSteps.dfy`, `Confluence.dfy`, `Handshake.dfy`,
`MigrationProtocol.dfy`). The tagged stream with the cache of the reader, memory pages with elided zero
pages, and the nine-signal protocol of two machines as interleaved steps over two FIFO channels.

**Pausing vCPUs** (`VcpuPause.dfy`). Counted guards of many threads, the vCPU threads and the machine's
Pause and Resume as interleaved steps, one per mutex-protected section.

## How to read the contracts

Large invariants are kept folded: a predicate such as `Holds(claim)`, `Done(deed)`, `Happened(act)` or
`Performed(transfer)` is the corresponding `Meaning` under an unknown number of folds (`Common.VEIL`), and a
lemma named `Open` after it (`OpenClaim`, `OpenDeed`, `OpenAct`, `OpenTransfer`, `OpenGood`) opens it. Methods
hand such facts to each other whole. What they mean is spelled out in the predicates they fold: `Sane` (the invariant of a writable
image: coherent caches and root tables, plain entries, consistent metadata, clusters in bounds),
`AllocateOutcome`, `L2Ready`, `Written`, `Discarded`, `WrittenTo`, `DiscardedTo`, `FlushesTo`, `SuppliedTo`.

What a writable image needs and the code does not establish by itself is part of `Sane`, of
`Qcow2Image.Chained` or of `StandardLayout`: every cluster in use lies below the virtual disk size, where
`WriteFile` accepts writes; the L1 table covers the disk; entries of a writable image are unallocated or
plain; backing layers are read-only and share disk size and cluster size. When an allocation leaves the
whole clusters below the virtual size, the result is `Lost` and nothing is claimed any more.
`View(h, s).supply(k)` says of an image that its next `k` allocations stay below; `Fate` and `Affords`
decide with it, on the image before a write or a list of writes, whether it succeeds.

## Where the code does not do what one would expect

- A partial write to a cluster that neither the image nor a backing layer has fills only the bytes
  written; the rest shows what the host cluster held before. `WriteIsExactIff` says, on the image before the
  write, exactly when a write changes only its bytes, `WrittenExactly` and `RunRefinesFlatArray` that this is
  always so while free clusters are zero, `DiscardKeepsClearIff` when a discard ends it, `StaleByteShows` is a concrete disk where it fails.
- Host clusters at or beyond the virtual size are never written, and metadata needs host clusters too, so
  no disk can be written completely (`FullDiskImpossible`).
- `CreateImageWithBackingFile` copies the header of the backing file but always lays out the same four clusters
  (`FreshIsGoodIff`); `CreateEmptyImage` rounds the L1 size down (`EmptyImageCoversDisk`).
- An end point inside the region on top, where another region is covered too, makes the `continue` in the
  flattening loop pick the lower region (`ViewCorrectIff`, `ContinueShowsWrongRegion`).
- The comparison ends with the new view, so slots above its highest key stay (`CommitExactIff`,
  `UnmapLeavesTranslation`, `EmptyViewLeavesSlots`) and may overlap the last new one (`CommitFlatIff`); a slot may reach past its region
  (`OvershootIff`); the id of a removed slot that KVM never had is never reused (`RemoveOne`).
- `ReadRawWithLimit` leaves the rest of a longer body on the wire, where the next header is expected
  (`MigrationStream.NetworkReader.ReadRawWithLimit`).
- `LoadDiskImage` reads every image, `SaveDiskImage` passes over those that are read-only or no snapshot, and
  with one of these both machines wait for ever (`SkippedImageHangs`).

## Model

| member | source | states |
|---|---|---|
| `LruCache.SimpleLRUCache.Get` | include/lru_cache.h:73-87 | a hit returns the value and makes the key the most recent; nothing leaves |
| `LruCache.SimpleLRUCache.Put` | include/lru_cache.h:89-106 | a present key is refused; otherwise the key becomes the most recent and, past capacity, the one entry handed to the callback is the least recently touched |
| `LruCache.SimpleLRUCache.Remove` | include/lru_cache.h:108-122 | exactly the entry of the key leaves through the callback, the order of the rest stays |
| `LruCache.SimpleLRUCache.Clear` | include/lru_cache.h:58-63 | the callback sees every entry exactly once |
| `LruCache.BackIsLeastRecent` | include/lru_cache.h:99-103 | the back of the recency list is the key touched longest ago |
| `LruCache.TouchKeepsOrder` | include/lru_cache.h:81-84 | moving a key to the front keeps the list duplicate-free, equal to the map's keys and sorted by recency |
| `HostFile.TableRoundTrip` | images/qcow2.cc:233-242 | a table written big-endian to its cluster reads back entry by entry |
| `HostFile.SpanRoundTrip` | images/qcow2.cc:206-231 | the same for the L1 and refcount tables, which span clusters |
| `Qcow2Layout.EntryRoundTrip` | images/qcow2.cc:403-405 | the entry written for a host cluster decodes to that cluster as L1, L2 and refcount table entry, with its flags |
| `Qcow2Layout.EntryIsItsParts` | include/qcow2.h:26-29 | an entry is bit 63, bit 62 and its descriptor, as numbers |
| `Qcow2Layout.OffsetIsMiddle` | include/qcow2.h:30 | the host offset of a descriptor is its bits 9 to 55 |
| `HostFile.EightBytes` | include/qcow2.h:90-102 | a table entry is its eight bytes, the highest first |
| `HostFile.TwoBytes` | include/qcow2.h:90-105 | a refcount is its two bytes, the highest first |
| `Qcow2State.EvictL2Keeps` | images/qcow2.cc:253-260 | evicting an L2 table, with write-back if dirty, keeps the invariant and every table as the image sees it |
| `Qcow2State.EvictBlockKeeps` | images/qcow2.cc:245-252 | the same for refcount blocks |
| `Qcow2Disk.ReadStepKeeps` | images/qcow2.cc:363-374 | ReadL2Table leaves the table cached and the logical image unchanged, hit or miss, with or without a victim |
| `Qcow2Disk.BlockStepKeeps` | images/qcow2.cc:302-309 | the same for reading a refcount block |
| `Qcow2Disk.SameLogicalSameGuest` | images/qcow2.cc:244-265 | traffic in the caches changes no byte the guest reads |
| `Qcow2Image.Qcow2Image.constructor` | images/qcow2.cc:206-219 | opening reads the two root tables from the file, with empty caches and the scan at the start |
| `Qcow2Image.Qcow2Image.WriteTable` | images/qcow2.cc:190-198 | a table goes to its cluster, unless the cluster is at or beyond the virtual size |
| `Qcow2Image.Qcow2Image.PutBlock` | images/qcow2.cc:245-252 | inserting a block evicts at most one other block, written back if dirty |
| `Qcow2Image.Qcow2Image.PutL2` | images/qcow2.cc:253-260 | the same for L2 tables |
| `Qcow2Image.Qcow2Image.GetRefcountBlock` | images/qcow2.cc:276-311 | the block of a cluster is cached afterwards, or made out of the cluster itself, or there is none, exactly as table and flag say |
| `Qcow2Image.Qcow2Image.AllocateCluster` | images/qcow2.cc:330-352 | the outcome of the search is the cacheless first fit `Took`; it terminates on the distance to the table's capacity |
| `Qcow2Search.AllocationIsFirstFit` | images/qcow2.cc:330-352 | it fails exactly if the whole capacity is in use, and otherwise takes a cluster nobody owned and leaves none free below |
| `Qcow2Meta.TookKeepsConsistent` | images/qcow2.cc:286-300 | taking the cluster, and its refcount block where one had to be made, keeps ownership disjoint and refcounts exact |
| `Qcow2Meta.DropDataKeepsConsistent` | images/qcow2.cc:559-561 | dropping a data cluster keeps them exact and frees exactly that cluster |
| `Qcow2Search.OwnershipIsExact` | images/qcow2.cc:276-352 | between operations header, tables, blocks and data are on different clusters and a refcount is 1 if owned, 0 if not |
| `Qcow2Image.Qcow2Image.ReadL2Table` | images/qcow2.cc:363-374 | the table is cached afterwards, loaded before a victim is written back |
| `Qcow2Image.Qcow2Image.FindEntry` | images/qcow2.cc:376-392 | the entry of a guest cluster as the image holds it, the guest undisturbed |
| `Qcow2Image.Qcow2Image.ReadCluster` | images/qcow2.cc:413-476 | the chunk is what the guest sees over the whole backing chain, and what the bits of the nearest nonzero entry say (`DecodedFrom`): decompressed bytes for bit 62, else zeros for bit 0, else the file from the offset in bits 9 to 55 on, zeros without such an entry; no layer's contents change; -2 exactly from a bottom layer without the cluster that was asked for no zeros |
| `Qcow2Disk.GuestDecodes` | images/qcow2.cc:425-474 | whatever the cache holds, the bytes the guest sees are those that the nearest nonzero entry describes, bit by bit |
| `Qcow2Disk.StoredEntryIs` | images/qcow2.cc:382-392 | the entry of a layer is the eight big-endian bytes at its place in the table to which an L1 entry with bit 63 points, and 0 without that bit |
| `Qcow2Disk.NearestLayerDecides` | images/qcow2.cc:416-424 | the first layer that has the cluster gives the bytes, zeros if none has it |
| `Qcow2Image.Qcow2Image.GetL2TableForWrite` | images/qcow2.cc:386-405 | the table is cached afterwards, allocated if need be, the guest undisturbed; whether it succeeds, panics or leaves the reach of WriteFile is a function of the image before (`TableFate`) |
| `Qcow2Image.Qcow2Image.CopyUp` | images/qcow2.cc:508-521 | the whole old cluster with the new bytes spliced in, or the assurance that the chain is zero there |
| `Qcow2Image.Qcow2Image.WriteCluster` | images/qcow2.cc:479-531 | the result is a function of the image before (`Fate`): a cluster the image has is always written, otherwise the L2 table, if missing, and the data must find clusters below the limit; exactly the chunk's bytes change if and only if the image before the write says so (`WillBeExact`), otherwise the rest of the cluster shows the host cluster that was next; invariant, zeroed free clusters and all lower layers are kept |
| `Qcow2Guest.WrittenExactly` | images/qcow2.cc:523-528 | with free clusters zero a write changes exactly its bytes |
| `Qcow2Guest.WriteIsExactIff` | images/qcow2.cc:508-528 | in general it does exactly if, before it, the image has the cluster, or all of it is written, or the layers below supply the rest (the one right below has it or is not the last), or the free cluster it will get is zero outside the bytes written |
| `Qcow2Guest.AllocationIsNext` | images/qcow2.cc:330-352 | the cluster an allocation takes, 0 for none, and the metadata it leaves are functions of the metadata before |
| `Qcow2Meta.TookIsNext` | images/qcow2.cc:330-352 | the same for the cacheless first fit |
| `Qcow2Meta.SupplyForData` | images/qcow2.cc:394-405 | a first write finds its clusters exactly if one allocation succeeds, or two in a row where the L2 table is missing |
| `Qcow2Supply.FateIffAfforded` | images/qcow2.cc:479-531 | a write of one cluster succeeds exactly if as many allocations in a row as it needs find clusters |
| `Qcow2Supply.AllocsJoin` | images/qcow2.cc:565-599 | writes to two sets of clusters, one after the other, allocate together one cluster for each guest cluster without one and one for each missing L2 table |
| `Qcow2Supply.TooMany` | images/qcow2.cc:565-599 | if after some writes the next ones are too many, then all of them were at the start |
| `Qcow2Supply.CoveredRangeIsFree` | images/qcow2.cc:491-494 | a range that has host clusters everywhere can always be written, however full the disk is |
| `Qcow2Image.Qcow2Image.FreeCluster` | images/qcow2.cc:313-327 | the refcount goes down by one in 16 bits, the scan goes back to a cluster that became free; fails exactly without a block |
| `Qcow2Image.Qcow2Image.DiscardCluster` | images/qcow2.cc:536-563 | a cluster covered completely loses its host cluster and reads as the chain, one covered in part is untouched |
| `Qcow2Image.Qcow2Image.BlockRead` | images/qcow2.cc:565-599 | the bytes of the flat disk from the position on, as far as the loop goes |
| `Qcow2Image.Qcow2Image.BlockWrite` | images/qcow2.cc:565-599 | the range holds the data; outside of it nothing changes, but that with free clusters not zero, bytes that read as zero may change in clusters that the range reaches and the image did not have; it succeeds exactly if the image before affords the allocations for all clusters of the range (`Affords`), otherwise stops exactly where they end (`StopsAt`), and never fails where the image has all clusters |
| `Qcow2Image.Qcow2Image.BlockDiscard` | images/qcow2.cc:565-599 | exactly the clusters inside the range read as the chain, their refcounts are 0, all other guest bytes and refcounts stay, and host clusters without a table keep their bytes |
| `Qcow2Transfer.MovedInside` | images/qcow2.cc:569-598 | a transfer inside the disk is moved completely |
| `Qcow2Transfer.MovedShort` | images/qcow2.cc:570-572 | the loop stops early only at the end of the disk |
| `Qcow2Image.Qcow2Image.HandleRead` | images/qcow2.cc:629-642 | the buffers together are the flat disk from the position on; inside the disk all are filled |
| `Qcow2Image.Qcow2Image.HandleWrite` | images/qcow2.cc:629-642 | a prefix of the buffers' bytes is written at the position; inside the disk it is all of them, and that exactly if the image before affords the allocations for the whole range |
| `Qcow2Image.Qcow2Image.FlushL2Tables` | images/qcow2.cc:601-611 | no cached L2 table is dirty afterwards, the logical image is the same |
| `Qcow2Image.Qcow2Image.FlushRefcountBlocks` | images/qcow2.cc:613-623 | the same for refcount blocks |
| `Qcow2Image.Qcow2Image.FlushAll` | images/qcow2.cc:657-672 | nothing is dirty afterwards, the logical image is the same; a read-only image is left alone |
| `Qcow2Image.Qcow2Image.ReleaseImage` | images/qcow2.cc:39-48 | closing empties both caches through their callbacks and leaves nothing dirty, the logical image is the same |
| `Qcow2Flush.ReopenAfterFlush` | images/qcow2.cc:601-672 | the flushed file, opened with empty caches, is an image in order with the same metadata, free clusters and guest bytes |
| `Qcow2Runs.RunRefinesFlatArray` | images/qcow2.cc:565-672 | every run of reads, writes, flushes and reopenings behaves like a flat array of bytes, if free clusters are zero at the start |
| `Qcow2Server.Serve` | images/qcow2.cc:625-655 | an image driven through any list of requests gives the answers and the disk of a flat array, and serves them all exactly if the image at the start affords the allocations for everything that is stored |
| `Qcow2Server.StoresAreFree` | images/qcow2.cc:491-494 | requests that only store into clusters the image has are always served |
| `Qcow2Runs.RunKeepsOwnership` | images/qcow2.cc:276-352 | after every request of every run, discards included, ownership and refcounts are exact |
| `Qcow2Runs.DiscardKeepsClearIff` | images/qcow2.cc:559-561 | after a discard free clusters are zero exactly if they were before and every host cluster it freed held only zeros |
| `Qcow2Runs.FullDiskImpossible` | images/qcow2.cc:190-194 | some guest cluster always lacks a host cluster |
| `Qcow2Examples.StaleByteShows` | images/qcow2.cc:523-528 | on a concrete disk, writing one byte makes its neighbour read 7 instead of 0 |
| `Qcow2Overlay.LayOut` | images/qcow2_create.cc:172-186 | the sequential writes produce the file described by `FreshFile` |
| `Qcow2Overlay.FreshOverlay` | images/qcow2_create.cc:172-186 | a fresh file with the standard layout opens as a writable image without clusters of its own: it reads as its backing chain, and all reachable clusters from the fourth on are free |
| `Qcow2Overlay.FreshIsGoodIff` | images/qcow2_create.cc:162-186 | the new file is an image in order exactly if the copied header places one cluster of refcount table at 1 and one cluster of L1 table at 3, and all four clusters lie below the virtual size |
| `Qcow2Overlay.EmptyImageCoversDisk` | images/qcow2_create.cc:62-64 | the L1 table of a new image covers the disk exactly if the disk fills whole L2 tables |
| `FlatView.ViewCorrectIff` | core/memory_manager.cc:193-213 | the flat view is right on every covered address exactly if no end point is shadowed |
| `FlatView.NestedViewIsCorrect` | core/memory_manager.cc:202-213 | it is right whenever each region lies inside or apart from the earlier ones |
| `FlatView.ContinueShowsWrongRegion` | core/memory_manager.cc:206-208 | three regions for which it is wrong |
| `MemoryManager.MemoryManager.constructor` | core/memory_manager.cc:41-45 | all slot ids are free at the start |
| `MemoryManager.MemoryManager.AllocateSlotId` | core/memory_manager.cc:169-175 | the lowest free id is drawn, none exactly if none is free |
| `MemoryManager.MemoryManager.FlattenRegions` | core/memory_manager.cc:194-213 | the loops over points and regions compute the view |
| `MemoryManager.MemoryManager.Compare` | core/memory_manager.cc:215-265 | the two-iterator loop ends and finds exactly (`Sifted`) the keys of the view that no slot serves as it is, and the slots that do not serve it, but for those beyond the view; each new slot has an id of its own; it succeeds exactly if there are ids for all such keys (`Needs`) |
| `MemorySlots.PairStays` | core/memory_manager.cc:237-258 | what the loop keeps is a slot with a key of the view, the same region, and the same next key in both or none in either |
| `MemoryManager.MemoryManager.RemoveOne` | core/memory_manager.cc:270-279 | the id of a RAM or ROM slot returns to the pool, that of another slot is retired; KVM is told |
| `MemoryManager.KvmIsRamAndRom` | include/memory_region.h:59-59 | KVM holds exactly the slots whose region is RAM or ROM |
| `MemoryManager.MemoryManager.AddSlots` | core/memory_manager.cc:280-287 | all new slots are in force, KVM knows those of RAM and ROM |
| `MemoryManager.MemoryManager.Commit` | core/memory_manager.cc:193-288 | the slots are those of the view, kept where they serve it, plus the old ones beyond the view; exactly the others are removed and added (`Sifted`), with the lowest free ids in the order of keys; KVM holds exactly the RAM and ROM slots; every id is free, live or retired, in one place only; it fails exactly if new slots outnumber free ids |
| `MemoryManager.MemoryManager.Map` | core/memory_manager.cc:297-311 | the region is the latest and the slots are committed; it fails exactly for an empty region or with too few ids |
| `MemoryManager.MemoryManager.Unmap` | core/memory_manager.cc:314-329 | the region is gone and the slots are committed; it fails exactly for an unknown region or with too few ids |
| `MemorySlots.CommitExactIff` | core/memory_manager.cc:220-265 | over exact slots a commit is exact if and only if no old key lies beyond the new view |
| `MemorySlots.CommitFlatIff` | core/memory_manager.cc:220-265 | after a commit over exact slots none overlap if and only if the last new slot ends before the first old slot beyond the view |
| `MemorySlots.KeptIsUntouched` | core/memory_manager.cc:242-254 | a slot whose key is in the view with the same region, and whose next key is the same in both or missing in both, is neither removed nor added, and is the same slot after the commit |
| `MemorySlots.ExactIsFlat` | core/memory_manager.cc:226-234 | exact slots do not overlap |
| `MemoryManager.MemoryManager.GuestToHostAddress` | core/memory_manager.cc:383-403 | the highest slot that begins at or below the address gives its host address plus the distance, exactly if the address lies below its end; none where the original panics |
| `MemoryManager.MemoryManager.HostToGuestAddress` | core/memory_manager.cc:406-425 | the address in the lowest RAM slot that holds the host address, which leads back to it if slots do not overlap; none exactly if no RAM slot holds it |
| `MemorySlots.ExactTranslates` | core/memory_manager.cc:226-234 | on exact slots of a correct view a covered address leads to the latest region there |
| `MemoryManager.RunTranslates` | core/memory_manager.cc:297-329 | the same in every state of every run of Map and Unmap that keeps regions nested and the highest key |
| `MemoryManager.RunTranslatesIff` | core/memory_manager.cc:383-403 | in such runs any address is translated exactly if the slot of the entry in force there reaches it, and none at or beyond the end of every slot |
| `MemoryManager.EmptyViewLeavesSlots` | core/memory_manager.cc:218-220 | unmapping the last region removes no slot |
| `MemoryManager.UnmappedRegionStillTranslates` | core/memory_manager.cc:220-265 | a concrete region that still translates after it was unmapped |
| `MemoryExamples.UnmapLeavesTranslation` | core/memory_manager.cc:297-329 | the same on the class: Map, Map, Unmap with eight ids, then the translation of an address in the unmapped region |
| `MemoryExamples.NeedsAtMost` | core/memory_manager.cc:194-213 | a commit needs at most two ids per region |
| `MemoryManager.BookedCount` | core/memory_manager.cc:169-175 | free ids, live slots and retired ids add up to all ids |
| `MemoryManager.OvershootIff` | core/memory_manager.cc:227-231 | when a slot reaches past the end of its region |
| `MigrationStream.NetworkWriter.WriteRaw` | migration/network_writer.cc:93-107 | one more message is on the wire |
| `MigrationStream.NetworkWriter.WriteMemoryPages` | migration/network_writer.cc:120-138 | one message per page, without a body for pages of zeros |
| `MigrationStream.TestZero` | utilities/zero.cc:31-45 | the block-wise test is true exactly if every byte is zero |
| `MigrationStream.NetworkReader.ReadFromCache` | migration/network_reader.cc:105-121 | the oldest cached message of the tag, no empty queue left behind |
| `MigrationStream.NetworkReader.WaitForDataHeader` | migration/network_reader.cc:123-144 | the next header of the tag, everything before it cached, what is pending by other tags unchanged |
| `MigrationStream.NetworkReader.ReadMessage` | migration/network_reader.cc:182-195 | the first pending message of the tag and nothing else is taken; waits exactly if there is none |
| `MigrationStream.NetworkReader.ReadRaw` | migration/network_reader.cc:165-180 | the same, with a panic exactly if the size differs |
| `MigrationStream.NetworkReader.ReadRawWithLimit` | migration/network_reader.cc:146-163 | at most `limit` bytes; the reader is at a message boundary afterwards exactly if the message was cached or short enough |
| `MigrationStream.NetworkReader.ReadMemoryPages` | migration/network_reader.cc:197-246 | the pages of the first pending messages; from the cache it succeeds exactly if the cache has them all |
| `MigrationStream.PagesRoundTrip` | migration/network_writer.cc:120-138 | the messages of a memory, read into zeroed memory, give the memory |
| `MigrationStream.SentPagesReadBack` | migration/network_reader.cc:202-239 | the same for the pending messages a reader counts off |
| `MigrationStream.SendMemory` | migration/network_reader.cc:197-246 | a writer and a reader put together copy any whole number of pages |
| `MigrationStream.PerTagFifo` | migration/network_reader.cc:105-195 | in every run of reads, the messages read with a tag are the first ones sent with it, the others are still pending |
| `MigrationStream.OnlyNext` | migration/network_reader.cc:105-121 | the messages of a tag are those with the tag, in order |
| `MigrationStream.AllReadLeavesNothing` | migration/network_reader.cc:105-144 | when as many were read as sent, wire and cache map are empty |
| `MigrationSteps.SaveBackingDiskImage` | core/io_thread.cc:389-413 | per image its descriptors and files in turn and a closing descriptor |
| `MigrationSteps.SaveDiskImage` | core/io_thread.cc:333-368 | one message per image, without those that are read-only or no snapshot |
| `MigrationSteps.SaveBlock` | core/memory_manager.cc:577-600 | descriptors and bodies in turn, then the closing descriptor |
| `MigrationSteps.LoadBlock` | core/memory_manager.cc:607-624 | the descriptors up to the first that closes, each with a body, are taken in order; waits only for a missing message |
| `Confluence.EveryRunEndsTheSame` | core/machine.cc:295-523 | for two deterministic processes whose steps commute, one run that ends decides how every run ends |
| `Handshake.Diamond` | migration/network_reader.cc:123-144 | a step of one machine neither disables nor changes a step of the other |
| `Handshake.RunConserves` | migration/network_reader.cc:105-144 | in every run every message is read, in store or still to be sent, tag by tag in order |
| `MigrationProtocol.ReadsSucceedIff` | core/device_manager.cc:747-759 | reads by tag succeed, in whatever order, exactly if no tag is read more often than it was sent |
| `MigrationProtocol.LoopEatsBlock` | core/memory_manager.cc:611-620 | a descriptor loop takes exactly its block, whatever other messages were sent before it |
| `MigrationProtocol.DevicesRun` | core/machine.cc:402-422 | device states sent before the DMA memory are read after it, out of the cache, with both signals matched |
| `MigrationProtocol.EveryMigrationCompletes` | core/machine.cc:295-523 | between machines built alike every interleaving of Save, PostSave and Load ends with both at their end, all signals matched, channels and cache empty, and the target has read with every tag exactly the parts of the machine that belong to it (`Expected`), index by index |
| `MigrationProtocol.ScriptCarries` | core/machine.cc:295-440 | what Save and PostSave send with a tag are the parts of the machine with that tag, in order |
| `MigrationProtocol.ExpectedByTag` | core/machine.cc:425-430 | tag by tag: backing files, BIOS, RAM, images, the three lists of dirty memory and, by index, current and default state of the vCPUs |
| `MigrationProtocol.NineSignals` | core/machine.cc:295-523 | both sides go through the same nine signals in the same order |
| `MigrationProtocol.SkippedImageHangs` | core/io_thread.cc:333-454 | with an image that is read-only or no snapshot every interleaving is bounded and ends with the source waiting for ImageComplete |
| `VcpuPause.StepKeeps` | include/vcpu.h:152-178 | every step of every thread keeps the counts equal to what the guards hold, and what they hold paused |
| `VcpuPause.GuardedIsOutOfGuest` | include/vcpu.h:152-178 | in every run, no vCPU of a guard is inside KVM_RUN from the return of PauseAll until ResumeAll reaches it |
| `VcpuPause.PausedMachineIsOutOfGuest` | core/machine.cc:231-250 | while the machine is paused no vCPU is inside KVM_RUN or on its way there |
| `VcpuPause.PauseReturnsPaused` | core/machine.cc:231-250 | when Pause returns, the machine is paused |
| `VcpuPause.CountsAreExact` | include/vcpu.h:170-178 | with no guard under way every wait count is zero |
| `VcpuPause.FreeCpuEnters` | core/vcpu.cc:535-546 | a vCPU outside of a running machine, for which nobody waits, is let in |
| `VcpuPause.ResumeLetsIn` | core/machine.cc:210-228 | after Resume the machine is not paused and, with no guard under way, every vCPU outside is let in |
| `VcpuPause.EveryGuardCanHold` | include/vcpu.h:152-168 | from every state of every run a guard under way can still come to hold its vCPUs, by its own steps and theirs |
| `VcpuPause.EveryPauseCanReturn` | core/machine.cc:231-250 | from every state of every run a Pause under way can still return, and then the machine is paused |

## Left out

- Host file: addressed by cluster and offset, reads as zero wherever nothing was written; short reads, failing system calls and fsync are not modelled.
- Header parsing, version checks, header extensions and the path of the backing file: a `Header` value stands for the parsed header.
- Compressed and zero-flagged clusters in a writable image: its entries are unallocated or plain, also where it is only read; backing layers may have both kinds.
- L2 tables and refcount blocks at offsets that are no multiple of the cluster size; data of read-only layers may be at any.
- Compressed clusters: decompression is a function of the descriptor that yields a whole cluster; its errors and its cache of decompressed clusters are not modelled.
- Write-zeros requests are discards in the code; that they read back as zero is not claimed.
- Crash consistency between the single writes of a flush.
- Reset and CreateSnapshot as operations on an open image; allocation is first fit per opened image.
- Qcow2Image.Qcow2Image.GetL2TableForWrite: claims nothing once the search returned a cluster that is not one of the whole clusters below the virtual size (`Lost`): a table there is never written back.
- Qcow2Image.Qcow2Image.WriteCluster: the same for data, where the original panics because `WriteFile` wrote nothing.
- Writing or discarding through an image that was opened read-only.
- Wrap-around of 64-bit guest addresses, and of sizes when a page count of zero meets cached pages beyond 2^52 reads.
- `flags`, `is_system` and the per-region sets of slots, the memory listeners, and dirty logging of slots; KVM is a set of the slots it was told.
- MigrationStream.NetworkReader.ReadMemoryPages: only for pending messages of zero or one page, the only ones that are sent; for other sizes the original copies past the body or loses its place on the wire.
- The wire is a sequence of header structs and body bytes; the tag field's terminator and sockets that fail are not modelled.
- Protobuf contents: a message is its bytes, and which descriptor closes a list is a function of the message.
- Which dirty pages are sent, and that both sides agree on the size of BIOS and RAM, are taken from outside; the RAM pages of the protocol are single reads by tag, since nothing of that tag is cached when they begin.
- The order of devices: per tag, the target's devices are assumed to read as many messages as the source's devices send.
- Failing local steps of Save and PostSave, and the file-based form of saving and loading.
- That the scheduler lets threads make the steps that lead on (`EveryGuardCanHold`, `EveryPauseCanReturn`), and the I/O thread's own lock in Pause.
- Device emulation, ACPI and SMBIOS tables, configuration, user interface, CPUID and MSR setup.
