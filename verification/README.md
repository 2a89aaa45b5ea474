# x49gp: a verified model

x49gp emulates a pocket calculator built around a Samsung S3C2410. This project
models the parts of it whose correctness is hardest to see from one function,
and proves what they promise. `dafny verify dfyconfig.toml` checks everything.

- **QCOW images** (`Qcow*.dfy`, `HostFile.dfy`, `Arith.dfy`, `Bytes.dfy`). The
  two-level map is read directly off the bytes of the file (`QcowMap`), and so is
  how far it can still grow (`QcowRoom`); the allocator is a function from file to
  file (`QcowAlloc`), the sixteen-slot L2 cache and the decompression cache are
  predicates that relate memory to file (`QcowCache`), and the guest disk is a flat
  array defined from the file alone (`QcowDisk`). `QcowRewrite` is about compressed
  writes over clusters that are already mapped. The class `Qcow.Qcow` has the
  fields of the driver and its methods follow the C code; each is proved against
  those definitions. `QcowImage` creates and opens image files, `QcowReplay` is
  about runs of requests from `qcow_create` on, compressed writes included, and
  `QcowRuns` holds short runs that show when compressed clusters do not read back.
  `QcowFormat` ties all of it to the file format: the bytes of a created header,
  which files open, and where each byte of the guest lies.
  `cluster_bits >= 9` and `l2_bits` are symbolic throughout.
- **Block layer** (`Block.dfy`, `Replay.dfy`). Byte reads and writes by
  read-modify-write of sectors, and runs of requests over the whole stack, from
  `qcow_create` through any number of open sessions.
- **Timer queue** (`TimerSpec.dfy`, `Timer.dfy`, `Seqs.dfy`). A linked list of
  objects, edited in place, and the loop whose callbacks re-arm timers in it.
- **Interrupt controller** (`Arbiter.dfy`, `IntcState.dfy`, `IntcDelivery.dfy`,
  `Intc.dfy`). The arbitration tables, the controller as a state machine over
  assertions, releases and register writes, what every step leaves in each
  register and how an interrupt reaches the CPU, and the device class. A register
  is the set of its one bits.
- **NOR flash** (`FlashSpec.dfy`, `Flash.dfy`). Thirteen states over an array of
  bytes; statements over whole traces of bus cycles.
- **SD transfer engine** (`SdiSpec.dfy`, `SdiSingle.dfy`, `Sdi.dfy`). Block buffers
  and the 32-bit data port, over the byte device of the block layer; multi-block
  and single-block transfers and what stops them.
- **Smaller parts.** The kernel-style list and the module teardown (`List.dfy`,
  `Modules.dfy`), the PWM timers and the clock generator behind them (`Pwm.dfy`,
  `PwmRuns.dfy`, `Power.dfy`), GDB packets (`GdbSpec.dfy`, `Gdb.dfy`), and the calendar formula
  (`Calendar.dfy`).

Where a class and a `...Spec` or `...State` module stand side by side, the
methods of the class are tied to the functions of the other module by their
contracts, and the properties are lemmas about those functions.

## What the code does not promise

Some expected properties are false of the code. A lemma says exactly when each
holds, or shows the input that breaks it.

- A partial write to an unallocated cluster does not copy the surrounding bytes
  from a backing image: it zeroes them. `QcowDisk.FlatExactly` gives the exact
  condition, `QcowDisk.CowUnsafeLosesData` the loss; `qcow_create` avoids it by
  choosing one-sector clusters (`QcowDisk.CowSafeIsFlat`).
- `qcow_write_compressed` over a cluster that is already mapped keeps the old
  entry. Over a normal cluster it stores the raw stream in it, so the write takes
  effect only if stream and old tail are the new content
  (`QcowDisk.CompressedOverNormal`). Over a compressed one the new stream with the
  tail of the old one has to inflate to the new content, and the decompression
  cache must not still hold the old one (`QcowRewrite.CompressedOverCompressed`).
  A longer stream is cut off where the entry says the old one ends, and takes
  effect only if that part of it inflates to the new content
  (`QcowRewrite.StoredOverAny`); the rest overwrites what lies behind
  (`QcowRewrite.LongStreamDamages`, `QcowRuns.DamageRun`,
  `QcowRuns.LongStreamLosesNeighbour`). `Qcow.Qcow.WriteCompressed` states the
  condition for each case, for a longer stream if it hits no table.
- `qcow_make_empty` does not reset the tag of the decompression cache. The driver
  is right afterwards all the same, but the next compressed write may land at the
  tagged offset and then reads as the old content: `QcowRuns.EmptyStoreRead` says
  exactly when, `QcowRuns.StaleRun` shows it from `qcow_create` on. Nothing else
  lets the tag run ahead of the file: every other operation keeps
  `Qcow.Qcow.Behind`, under which a stream in an unmapped cluster always reads back.
- A stream that does not inflate leaves the decompression cache overwritten under
  its old tag (`Qcow.Qcow.DecompressCluster`); one that is cut short by the end of
  the file does not. The tagged cluster still reads as its content if and only if
  the bytes written by the failed inflate are how that content begins
  (`QcowRuns.FailThenRead`, and from `qcow_create` on `QcowRuns.SpoilRun`).
- `qcow_create` makes images that `qcow_open` refuses: those without a sector, and
  those whose L1 table has 2^28 entries or more (`QcowImage.CreatedOpens`).
- A SRCPND write that clears the last FIQ request does not arbitrate again, so
  the CPU lines no longer agree with the registers (`IntcState.SettledStep`,
  `IntcState.LinesCanDisagree`).
- The CFI query compares a number of entries with a byte offset, so about half
  of the table cannot be read (`FlashSpec.CfiReadable`).
- The two levels of arbiters are not fair together, although each arbiter is
  (`Arbiter.HeldRequestWins`). Among constant requests a source is served at all
  if and only if one of the next four selections falls on it
  (`IntcState.ServedExactly`); `IntcState.CanStarve` is a case where none does.
- An edge of a masked sub-source is forgotten (`IntcState.MaskedEdgeForgotten`).
- An expired one-shot PWM timer does not start again until its start bit has
  been written as zero (`Pwm.OneShotRestart`).
- The counter of a one-shot PWM timer that has run out does not read as 0 but as it
  was last read (`PwmRuns.OneShot`), and a TCFG write lets a running timer begin
  again from that count (`PwmRuns.Reconfigure`).
- The block region in the CFI table of the flash covers twice the chip
  (`FlashSpec.CfiGeometry`), and a 32-bit write programs only its upper halfword
  (`Flash.LongProgramsUpper`).
- A single-block SD command after a multi-block one moves one block only if CMD12
  came between (`SdiSingle.SingleOnlyIfStopped`).
- SD block sizes that are not a multiple of 4 lose the end of a word that is not
  zero there (`SdiSpec.ComesBackExactly`, `SdiSpec.SixByteBlocks`).
- `mktimegm` multiplies in an `int`, which holds the product exactly for the dates
  from 1901-12-14 to 2038-01-19 (`Calendar.ProductFits`).

## Model

| member | source | states |
|---|---|---|
| Replay.Lifetime | block-qcow.c:437-489 | From `qcow_create` on, over any number of sessions that each open the file, make any run of byte reads and writes of any length, and drop the driver, every read answers as one flat mutable byte array would that at first shows the backing image, or zeros |
| Replay.Session | block.c:588-613 | One session on a created image: answers and final contents are those of the flat array, the header stays readable, and the file can be mounted again with exactly those contents |
| Replay.Run | block.c:588-613 | Any run of byte reads and writes on a writable device answers as a flat array, for every alignment and length |
| Replay.LastWriteWins | block.c:492-583 | Every byte of that flat array is the last value written to its position, or the original if there was none |
| Replay.Remount | block-qcow.c:95-173 | A created image that was only written through the driver opens again, with the same geometry and the same contents, however its caches stood |
| Replay.CreatedIsBlank | block-qcow.c:437-489 | A created image mounts, reaches every requested sector and reads as the backing image, or zeros, in all of them |
| QcowReplay.RunImage | block-qcow.c:359-569 | From `qcow_create` on, over any run of sector reads and writes, compressed writes, emptyings and reopenings in which every stream goes to a cluster not written since the image was last emptied, and none right after that, every request is answered as by one flat array that at first shows the backing image, or zeros |
| QcowReplay.StepRead | block-qcow.c:359-395 | In such a run a read delivers its piece of the array and keeps the driver right, its cache tag below the end of the file, and the map |
| QcowReplay.StepWrite | block-qcow.c:397-425 | A write overlays the array, and maps nothing outside the clusters it reaches |
| QcowReplay.StepCluster | block-qcow.c:513-569 | A compressed write overlays the array whether or not it compresses, always finds an offset that fits its entry, and maps no other cluster |
| QcowReplay.StepEmpty | block-qcow.c:491-509 | Emptying leaves the bare array and room for every cluster again, but may leave the cache tag ahead of the file |
| QcowReplay.StepReopen | block-qcow.c:95-173 | The file of a created image opens again with the same contents, and with the cache untagged |
| Block.BlockDriverState.Read | block.c:424-455 | Whole sectors of the byte array the caller sees, the boot sector copy overriding sector 0, over a backing image that covers the disk |
| Block.BlockDriverState.Write | block.c:463-490 | Exactly the written sectors of that array change; a read-only device refuses with -EACCES and changes nothing |
| Block.BlockDriverState.PreadEm | block.c:492-534 | The result is exactly the byte slice [offset, offset + count) of the sector device, for every alignment and length, and nothing changes |
| Block.BlockDriverState.PwriteEm | block.c:536-583 | Exactly that slice changes; -EIO and no change on a read-only device unless nothing is written |
| Block.BlockDriverState.ModifySector | block.c:550-555 | Read-modify-write of one sector changes only the given bytes of it |
| Block.BlockDriverState.PwriteAligned | block.c:563-582 | Whole sectors in place and a partial last sector together overlay exactly the buffer |
| Block.BlockDriverState.Pread | block.c:588-598 | `bdrv_pread` over a driver that only knows sectors; -ENOMEDIUM without a driver |
| Block.BlockDriverState.Pwrite | block.c:603-613 | `bdrv_pwrite` over a driver that only knows sectors: the flat overlay, the return code for a read-only device, and the header of the image file kept |
| Qcow.Qcow.Read | block-qcow.c:359-395 | While the memory of the driver is right, a read fails exactly where the backing image is too short, and otherwise delivers the flat contents, through the caches, across clusters, with decompression and fall-through; in any case a read within one cluster delivers what the decompression cache, or else the file, has, and leaves the tag and bytes of that cache as stated; a tag below the end of the file stays so; the file does not change |
| Qcow.Qcow.Write | block-qcow.c:397-425 | For every geometry the new contents are determined byte by byte; they are the flat overlay whenever a backing image comes with one-sector clusters; all caches stay right and the header is kept |
| Qcow.Qcow.GetClusterOffset | block-qcow.c:188-293 | The result is what an uncached two-level walk of the file returns; `allocate == 0` leaves the file unchanged; 1 and 2 leave exactly the file the specification functions describe; the caches stay in step with the file |
| Qcow.Qcow.FindTable | block-qcow.c:199-250 | The L2 table of an L1 entry is in the returned cache slot, made and zeroed on disk if it was missing |
| Qcow.Qcow.LookupSlot | block-qcow.c:217-228 | First slot with the tag, its count raised and all counts halved at the limit |
| Qcow.Qcow.Victim | block-qcow.c:229-237 | With all counts below 0xffffffff the slot chosen is a true minimum, the first one |
| Qcow.Qcow.LoadTable | block-qcow.c:238-250 | Exactly the victim slot is replaced, and a new table is zeroed on disk |
| Qcow.Qcow.NewEntry | block-qcow.c:254-291 | A fresh cluster (with the decompressed old content when it is partly overwritten) or a reserved compressed extent, entered in the file and in the cached table alike |
| Qcow.Qcow.DecompressCluster | block-qcow.c:338-357 | The tag alone decides: on a hit the cache answers, whatever it holds; on a miss it is loaded with the inflated stream and tagged; a stream that is cut short leaves the cache alone, and one that does not inflate leaves what was inflated of it over the old bytes, under the old tag, with -1 either way |
| Qcow.Qcow.WriteTurn | block-qcow.c:404-423 | One loop turn stores its chunk, stays in one cluster, and ends at a cluster boundary unless it is the last |
| Qcow.Qcow.ReadTurn | block-qcow.c:366-393 | One loop turn delivers exactly what can be seen of its sectors through the decompression cache, or fails and leaves the buffer |
| Qcow.Qcow.IsAllocated | block-qcow.c:295-309 | Whether the cluster has data of its own, and a run length inside that cluster for which the answer holds |
| Qcow.Qcow.WriteCompressed | block-qcow.c:513-569 | -EINVAL unless exactly one cluster is given; an incompressible cluster is written normally. A compressible one is what the guest then reads: if the cluster was unmapped, always from the file, and with a right driver if and only if the decompression cache was not tagged with the new offset or held the same content, which is the case whenever its tag was below the end of the file, where it stays; if it was normal, if and only if the stream followed by the old tail is the new content; if it was compressed with a stream at least as long, if and only if the new stream followed by the old tail inflates to the new content and the cache does not hold anything else for it, all other clusters being unchanged; with a longer stream that hits no table, if and only if the beginning of it that the entry covers inflates to the new content and the cache does not hold anything else, every cluster apart from the stream being unchanged |
| Qcow.Qcow.StoreStream | block-qcow.c:557-565 | The file after the compressed branch: a new stream at the end of it, or the stream over whatever lies where the entry points, however long it is; what still holds of the memory |
| Qcow.Qcow.MakeEmpty | block-qcow.c:491-509 | The file shrinks to header and empty L1 table, everything reads as the backing image, and memory agrees with the file, whatever the decompression cache holds; that cache keeps its tag |
| QcowMap.OpenedShape | block-qcow.c:115-131 | The geometry of any image that opens: powers of two that fit, and an offset mask that leaves room for the size field |
| QcowMap.WellFormedStep | block-qcow.c:199-291 | A step that moves one object to space past the old end of the file keeps the image sound |
| QcowMap.DataWriteStep | block-qcow.c:397-425 | Overwriting part of one normal cluster changes no map entry and no other cluster |
| QcowMap.NewTableStep | block-qcow.c:202-243 | An all-zero table for an empty L1 entry changes no cluster |
| QcowMap.AttachStep | block-qcow.c:254-291 | Storing data past the end and pointing one L2 entry at it changes the mapping of exactly that guest cluster |
| QcowMap.ContentKeeps | block-qcow.c:311-357 | A change outside the extent of an entry leaves what the entry denotes alone, compressed entries included |
| QcowMap.SparedTables | block-qcow.c:199-291 | A change of the file that hits neither header nor L1 table nor any L2 table changes no map entry, and the image stays laid out soundly |
| QcowRoom.RoomForOne | block-qcow.c:258-291 | While file and possible growth together stay below 2^63, every allocation that a cluster can still need fits |
| QcowRoom.RoomyWithTable | block-qcow.c:202-243 | Making an L2 table uses up at least as much of the possible growth as it adds to the file |
| QcowRoom.RoomyWithEntry | block-qcow.c:254-291 | Mapping a cluster, or making a compressed one normal, does so too; nothing else grows the file, so runs of any length stay below the bound |
| QcowRoom.EmptyIsRoomy | block-qcow.c:491-509 | For an emptied image the bound is a condition on the geometry alone |
| QcowAlloc.EntryFields | block-qcow.c:338-357 | The masks and shifts of `decompress_cluster` select the offset and size of an entry |
| QcowAlloc.PackUnpack | block-qcow.c:274-283 | Offset and size packed into the L2 word unpack to the same pair, for every offset below the mask and size below a cluster |
| QcowAlloc.AllocatedSound | block-qcow.c:199-291 | `allocate == 1` maps exactly one cluster, to aligned fresh space unless it had a normal one, with the content its caller relies on, and keeps the image sound |
| QcowAlloc.CompressedSound | block-qcow.c:513-569 | `allocate == 2` on an unmapped cluster followed by storing the stream: the stream inflates to the original and no other cluster changes |
| QcowAlloc.WithTableStep | block-qcow.c:202-243 | The file after making an L2 table is sound and every cluster keeps its entry and content |
| QcowCache.TouchedBelowLimit | block-qcow.c:219-224 | Hit counts stay below 0xffffffff |
| QcowCache.CacheLoads | block-qcow.c:238-250 | Loading a table into a slot keeps every nonzero tag distinct and every slot equal to its table on disk |
| QcowCache.CachedWord | block-qcow.c:252-253 | The cached copy of a table tells the same entries as the file |
| QcowCache.CacheWritesThrough | block-qcow.c:285-290 | Writing one entry to the file and to the cached table keeps the whole cache right |
| QcowCache.ClusterCacheKeeps | block-qcow.c:338-357 | A step that moves only one cluster, and not to the cached offset as a compressed one, never leaves the decompression cache stale |
| QcowCache.CacheAfterStore | block-qcow.c:557-565 | After a stream is stored in an unmapped cluster the decompression cache is right if and only if it is not tagged with the offset of the stream, or holds the new content |
| QcowCache.DriverDecompresses | block-qcow.c:338-357 | Tagging the cache with one entry is right for all entries, since no two streams begin at the same offset; and where the tag matches, a right cache holds what the stream inflates to |
| QcowCache.DriverAllocates | block-qcow.c:254-291 | A fresh cluster keeps L1 copy, L2 cache and decompression cache in step with the file |
| QcowCache.DriverGainsTable | block-qcow.c:202-243 | A new table keeps them in step, and no slot is tagged with its offset yet |
| QcowCache.DriverEmpties | block-qcow.c:491-509 | After emptying the image, memory and file agree for every tag and content of the decompression cache |
| QcowDisk.SplitIsShifts | block-qcow.c:199-252 | The shifts and masks of the L1/L2/offset split are the divisions of the model |
| QcowDisk.CapacityBound | block-qcow.c:199-200 | The L1 index is in bounds exactly for positions below the capacity |
| QcowDisk.SplitInjective | block-qcow.c:199-252 | L1 index, L2 index and offset give the guest position back |
| QcowDisk.SameCluster | block-qcow.c:199-252 | Two positions have the same indices exactly when they share a cluster |
| QcowDisk.ChunkStep | block-qcow.c:404-423 | One turn of the write loop: every guest byte afterwards |
| QcowDisk.ProgressChains | block-qcow.c:397-425 | Multi-cluster writes compose with no gap or overlap |
| QcowDisk.FlatExactly | block-qcow.c:397-425 | A write is the flat one if and only if every byte of a reached, unallocated cluster outside the written range was zero before |
| QcowDisk.CowSafeIsFlat | block-qcow.c:454-463 | With the cluster size that `qcow_create` chooses for a backing image, whole-sector writes are always flat |
| QcowDisk.CowUnsafeLosesData | block-qcow.c:274-279 | With larger clusters over a backing image, a partial first write turns nonzero backing bytes beside it into zeros |
| QcowDisk.StoredIsFlat | block-qcow.c:513-569 | A stored compressed cluster reads as the original content and leaves all other bytes alone |
| QcowDisk.WholeClusterIsFlat | block-qcow.c:554-556 | Writing one whole aligned cluster is always flat |
| QcowDisk.CompressedOverNormal | block-qcow.c:557-565 | A compressed write over a normal cluster stores the raw stream there: the guest reads the stream and then the old tail, which is what was written if and only if the two are the same |
| QcowDisk.SeenIsFlat | block-qcow.c:359-395 | Where memory agrees with the file, what a read sees through the decompression cache are the bytes of the guest, and it fails exactly where the backing image is too short |
| QcowRewrite.RewriteStep | block-qcow.c:557-565 | A stream stored over another one, of whatever length, that hits no table changes no map entry and no cluster that it does not hit |
| QcowRewrite.ShortRewrite | block-qcow.c:557-565 | A stream no longer than the one it replaces: the cluster denotes what the new stream and the rest of the old one inflate to, and no other cluster changes |
| QcowRewrite.ShortRewriteCache | block-qcow.c:338-357 | After that the decompression cache, which is not reset, is right if and only if it is not tagged with this stream or holds what it now inflates to |
| QcowRewrite.CompressedOverCompressed | block-qcow.c:557-565 | The new content is what is read, from the file and through the cache, if and only if the new stream with the old tail inflates to it and the cache holds nothing else for it |
| QcowRewrite.LongStreamDamages | block-qcow.c:557-565 | A cluster in the way of a longer stream shows bytes of that stream if it is normal, and inflates what is left of its own if it is compressed |
| QcowRewrite.StoredOverAny | block-qcow.c:557-565 | A stream of any length over a compressed cluster that hits no table: the cluster denotes what the part of it that the entry covers, with the old tail if it is shorter, inflates to, and every cluster apart from it keeps entry and content |
| QcowRewrite.StreamFits | block-qcow.c:268-283 | While file and possible growth together stay below the offset bits of a compressed entry, the stream of every unmapped cluster gets an offset that fits |
| QcowRuns.StoreAndRead | block-qcow.c:513-569 | A compressed write to an unmapped cluster, read back at once, gives what was written unless the decompression cache was tagged with the offset the stream got, which it is not while its tag is below the end of the file |
| QcowRuns.EmptyStoreRead | block-qcow.c:491-569 | `qcow_make_empty`, a compressed write and a read: what was written comes back if and only if the decompression cache was not tagged with that offset, or already held the same content |
| QcowRuns.StaleRun | block-qcow.c:491-569 | The run from `qcow_create` on: write a compressed, read, make empty, write b compressed in the same place, read; the answer is a |
| QcowRuns.RewriteAndRead | block-qcow.c:513-569 | A compressed write over a compressed cluster, not longer, read back at once: the cache answers if it is tagged with the stream, and else the new stream with the old tail is inflated, and the read fails if it does not inflate |
| QcowRuns.DamageRun | block-qcow.c:513-569 | The run from `qcow_create` on: two clusters compressed, then the first again with a longer stream; the second reads as what its overwritten stream inflates to |
| QcowRuns.LongStreamLosesNeighbour | block-qcow.c:513-569 | A lossless codec and three blocks for which that run leaves the second cluster unreadable, the failed read leaving one byte with which the content of a fourth block does not begin |
| QcowRuns.Damage | block-qcow.c:513-569 | Three compressed writes that leave the entry of the second cluster naming the end of the third stream and the rest of its own |
| QcowRuns.FailThenRead | block-qcow.c:338-357 | After a read of a cluster that does not inflate, the cluster in the decompression cache reads as its content with what the failed inflate wrote over it, which is its content if and only if those bytes are how it begins |
| QcowRuns.SpoilRun | block-qcow.c:338-357 | The run from `qcow_create` on: a third cluster compressed and read, the second one damaged, a failed read of it, and the third one read again: the answer is its content with the bytes of the failed inflate over it |
| QcowDisk.EmptyReads | block-qcow.c:359-395 | Where nothing is allocated every byte reads from the backing image, or as zero |
| QcowImage.HeaderRoundTrip | block-qcow.c:437-489 | The big-endian header reads back field by field |
| QcowFormat.HeaderBytes | block-qcow.c:437-489 | The 48 bytes of the header of a created image: 51 46 49 fb 00 00 00 01, and then backing offset, name length, time, size in bytes, cluster and L2 bits and encryption as big-endian numbers at their places; the backing name behind them |
| QcowFormat.TableBytes | block-qcow.c:468-487 | Behind header and name only zeros follow: padding to the next multiple of 8, which is where the header says the L1 table begins, and one entry for every 2 MB of disk |
| QcowFormat.OpensExactly | block-qcow.c:95-173 | A file opens if and only if it begins with those eight bytes and its fields, read at their places, name at least 2 bytes of disk, at least 9 cluster bits, a known encryption, an L1 table of fewer than 2^28 entries inside the file and a backing name inside it; the geometry, the number of sectors and the name it then gets |
| QcowFormat.GuestByteIs | block-qcow.c:188-357 | Every byte of the guest, read off the file by shifts and masks: an entry 0 leaves it to the backing image, one without bit 63 is the offset of its cluster, and one with it names a stream by offset and length |
| QcowImage.Create | block-qcow.c:437-489 | The file `qcow_create` leaves, byte for byte as `QcowFormat.HeaderBytes` and `TableBytes` give it, with the number of L1 entries as a C `int` holds it |
| QcowImage.CreatedOpens | block-qcow.c:95-173 | Opening a created image succeeds exactly when it has at least one sector and fewer than 2^28 L1 entries, with the geometry and the backing name it was created with |
| QcowImage.CreatedGeometry | block-qcow.c:115-131 | The capacity reaches every requested sector, the fully allocated image stays below 2^63 bytes and below the offset bits of compressed entries, and a backing image gives one-sector clusters |
| QcowImage.CreatedIsSound | block-qcow.c:437-489 | A created image is sound, empty, and safe for copy on write |
| QcowImage.CreatedReopens | block-qcow.c:95-173 | As long as the bytes before the L1 table are kept, the image opens with the same geometry |
| QcowImage.Open | block-qcow.c:95-173 | `qcow_open` gives a driver whose memory agrees with the file and whose cache is untagged, or fails exactly on the headers that the code refuses, tables of 2^31 bytes or more among them |
| Timer.TimerList.Del | timer.c:84-101 | Exactly this timer leaves the list; a timer that is not on it changes nothing; the list stays acyclic, duplicate-free and sorted |
| Timer.TimerList.Mod | timer.c:104-124 | The queue becomes the old one without the timer and with its new entry inserted after all equal expiries; no other timer changes |
| Timer.TimerList.Pending | timer.c:127-137 | True exactly when the timer is on the list |
| Timer.TimerList.Expired | timer.c:146-151 | Looking at the head alone decides whether any timer is due |
| Timer.RunTimers | timer.c:190-209 | The loop ends, leaves the queue that the specification describes, and runs the callbacks in that order, for any callbacks that arm timers only later than the current time |
| TimerSpec.WithoutKeeps | timer.c:84-101 | Removal keeps order and distinctness and drops exactly one entry |
| TimerSpec.InsertKeeps | timer.c:104-124 | Insertion keeps order; the new entry stands after every entry due no later and before every later one; all others stay |
| TimerSpec.HeadDecides | timer.c:146-151 | In a sorted queue some entry is due exactly when the head is |
| TimerSpec.DrainedKeeps | timer.c:190-209 | Whatever the callbacks do within their contract, the loop leaves a sorted queue with nothing due |
| TimerSpec.RunExactly | timer.c:190-209 | If each callback only re-arms its own timer, strictly later, exactly the timers due at the start fire, each once and in queue order, and the rest plus the re-armed ones remain |
| TimerSpec.NoProgressUnlessLater | timer.c:190-209 | A callback that re-arms its timer no later than the current time leaves as many timers due as before, so that condition is needed |
| Arbiter.ArbitrationIsFlat | s3c2410_intc.c:228-254 | Two-level arbitration equals a flat scan of the order made by composing ARB6 with the present order of each group |
| Arbiter.AlwaysAWinner | s3c2410_intc.c:321-364 | There is a winner exactly when some bit other than 6 and 24 requests service, and the winner is one of the requests |
| Arbiter.ChoiceIsFirst | s3c2410_intc.c:30-36 | An arbiter picks the request at an input exactly if every other request is at a later one: input 0 before all, input 5 after all, and among the others the one cyclically next after `sel` first |
| Arbiter.LowestWins | s3c2410_intc.c:38-54 | With all arbiters in their first positions the lowest-numbered request wins |
| Arbiter.HeldRequestWins | s3c2410_intc.c:228-254 | Over any run of selections of a rotating arbiter, a request held at position 1 to 4 while position 0 is idle wins at least once in every four |
| Arbiter.HeldRotates | s3c2410_intc.c:244-246 | While such a request is held, `sel` advances by one, modulo 4, at each selection |
| Arbiter.SelAfter | s3c2410_intc.c:236-250 | `sel` never leaves 0..3 |
| IntcState.StepKeeps | s3c2410_intc.c:119-474 | Every step keeps the invariant (INTPND empty or exactly the source INTOFFSET names, with IRQ asserted; held sources stay pending; an FIQ request keeps FIQ asserted), only acknowledged bits leave INTPND, and what newly appears is unmasked, pending and not in FIQ mode |
| IntcState.Reachable | s3c2410_intc.c:375-453 | That invariant holds in every state reachable from reset |
| IntcState.PendingStays | s3c2410_intc.c:304-366 | Over any run without an acknowledgement of it, the interrupt shown in INTPND stays; no new assertion, mask, mode or priority displaces it |
| IntcState.HeldStays | s3c2410_intc.c:119-128 | A source held at its level stays pending over any run until released; if the lines agreed with the registers at the start and no step was such a SRCPND write, an unmasked one keeps IRQ asserted once no FIQ intervenes |
| IntcState.SharedHeldStays | s3c2410_intc.c:417-453 | The same for the four sources that sub-sources share, as long as one enabled sub-source is held and neither is released or masked |
| IntcState.RunSettles | s3c2410_intc.c:119-128 | Over any run without such a write the CPU lines go on agreeing with the registers |
| IntcState.CanStarve | s3c2410_intc.c:228-350 | Two levels of rotating arbiters are not fair together: with sources 5, 11 and 12 requesting from reset on, no number of selections ever chooses 11 |
| IntcState.ServedExactly | s3c2410_intc.c:304-350 | Among constant requests, from any arbiters in any modes, a source is ever chosen if and only if it is chosen in one of the next four selections, and then in every fourth one |
| IntcState.FourSelections | s3c2410_intc.c:304-350 | Among constant requests all seven arbiters come back to where they were after four selections |
| IntcState.AckShows | s3c2410_intc.c:304-366 | While no FIQ is requested and the requests stay, acknowledging INTPND again and again makes it show the winners of consecutive selections |
| IntcState.ShownExactly | s3c2410_intc.c:304-366 | So a pending source is ever shown in INTPND if and only if it is after one of the next four acknowledgements |
| IntcState.MaskedEdgeForgotten | s3c2410_intc.c:417-453 | An edge of a sub-source that is masked is dropped at once: it drives no source, now or after unmasking |
| IntcDelivery.MasksAfter | s3c2410_intc.c:130-159 | INTMOD, INTMSK and INTSUBMSK after any register write, bit by bit |
| IntcDelivery.PendingAfter | s3c2410_intc.c:119-226 | SRCPND, SUBSRCPND and the held levels after any register write, bit by bit |
| IntcDelivery.PriorityAfter | s3c2410_intc.c:161-199 | Mode bits and positions of the arbiters after a register write, by the bits of PRIORITY |
| IntcDelivery.LinesAfterWrite | s3c2410_intc.c:275-366 | FIQ, IRQ, INTPND and INTOFFSET after a register write: FIQ exactly if a pending source is in FIQ mode, and then IRQ and INTPND stand; otherwise what INTPND shows stays, or the winner among the unmasked pending sources comes in, and IRQ is up exactly if INTPND shows something; a SRCPND write that touches no held source moves neither |
| IntcDelivery.LinesAfterAssert | s3c2410_intc.c:375-401 | The same after the edge or level of a source |
| IntcDelivery.AssertedIs | s3c2410_intc.c:375-416 | An edge sets its SRCPND bit, a level also holds the source, and a release only ends the hold |
| IntcDelivery.SubAssertedIs | s3c2410_intc.c:417-474 | The same for a sub-source: it is latched if it is a level, and what was pending and enabled makes its shared source pending |
| IntcDelivery.StepWakes | s3c2410_intc.c:298-400 | Whatever brings up FIQ or IRQ or fills INTPND leaves the CPU awake, no step puts it to sleep, and EINT0 and the real time clock wake it from idle state 2 even when masked |
| IntcDelivery.UnmaskedDelivers | s3c2410_intc.c:137-159 | Unmasking any pending source, with INTPND empty and no FIQ requested, puts one pending and unmasked source into INTPND, with IRQ up and the CPU awake |
| IntcDelivery.ResetRegisters | s3c2410_intc.c:80-115 | Every register after reset |
| IntcDelivery.ResetMasksAll | s3c2410_intc.c:80-115 | After reset no source reaches INTPND or a line |
| IntcDelivery.FromReset | s3c2410_intc.c:119-400 | From reset, unmasking one source and asserting it puts it alone into INTPND and INTOFFSET, with IRQ up |
| IntcDelivery.FiqFromReset | s3c2410_intc.c:129-135 | From reset, a source set to FIQ mode raises FIQ when asserted, masked as it is, and never shows in INTPND |
| IntcDelivery.SubFromReset | s3c2410_intc.c:417-474 | From reset, unmasking a sub-source and its source and asserting the sub-source delivers the source: sub-sources 0 to 2, 3 to 5, 6 to 8 and 9 to 10 are sources 28, 23, 15 and 31 |
| IntcDelivery.Serviced | s3c2410_intc.c:119-207 | Clearing the delivered source in SRCPND and then in INTPND takes IRQ down; a source that is still held is delivered again |
| IntcState.SettledStep | s3c2410_intc.c:119-128 | From agreement between registers and CPU lines, a step keeps the agreement if and only if it is not a SRCPND write that clears the last FIQ request and touches no held source |
| IntcState.LinesCanDisagree | s3c2410_intc.c:119-128 | Such a write is reachable: FIQ stays asserted with nothing pending |
| IntcState.SubSourcesDrive | s3c2410_intc.c:417-453 | Each shared source is held exactly when one of its enabled sub-sources was pending, and no other level changes |
| IntcState.PriorityRoundTrip | s3c2410_intc.c:161-199 | PRIORITY reads back the 21 bits written, and writing what was read restores every arbiter |
| Intc.Controller.SelectInt | s3c2410_intc.c:228-254 | One arbiter chooses what the order of its `sel` says, and turns exactly if it chose and its mode bit is set |
| Intc.Controller.SelectSource | s3c2410_intc.c:332-350 | Both levels of arbiters: the winner, and every arbiter that chose something turned |
| Intc.Controller.GenInt | s3c2410_intc.c:270-373 | Lines, INTPND, INTOFFSET, idle state and arbiters become those of the flat-scan specification |
| Intc.Controller.AssertInt | s3c2410_intc.c:376-399 | The assertion step, level or edge, and waking from power-off by EINT0 or the RTC |
| Intc.Controller.DeassertInt | s3c2410_intc.c:402-414 | The release step |
| Intc.Controller.GenIntFromSubInt | s3c2410_intc.c:417-453 | The four shared sources are driven from the sub-sources |
| Intc.Controller.SubAssertInt | s3c2410_intc.c:456-474 | The sub-source assertion step |
| Intc.Controller.SubDeassertInt | s3c2410_intc.c:477-489 | The sub-source release step |
| Intc.Controller.GetPriority | s3c2410_intc.c:162-179 | PRIORITY is put together from `sel` and `mode` of all seven arbiters |
| Intc.Controller.PutPriority | s3c2410_intc.c:182-199 | The arbiters take `sel` and `mode` from the word, then arbitration runs |
| Intc.Controller.Put | s3c2410_intc.c:526-571 | Each register write is the step of the state machine |
| FlashSpec.ChangesNeedUnlock | flash.c:146-314 | Over every trace from the normal state the array changes only on a write right after the full program unlock or the full erase unlock, and then by the AND of one halfword or by 0xff over the chip, one sector or one block |
| FlashSpec.ReadyToProgram | flash.c:159-180 | The chip is ready to program if and only if the last three cycles were the program unlock, with no read between, begun in the normal state |
| FlashSpec.ReadyToErase | flash.c:159-212 | The same for the five-write erase unlock |
| FlashSpec.EraseAligned | flash.c:274-309 | What an erase covers is aligned, contains the address and lies inside the chip |
| FlashSpec.ClearedStays | flash.c:262-312 | Over any trace a cleared bit stays cleared until an erase covers it |
| FlashSpec.ProgramWorks | flash.c:262-272 | From the normal state the unlock and a write program one halfword and return to the normal state |
| FlashSpec.EraseWorks | flash.c:274-313 | The unlock sequence and an erase command give the array of the erase function and lead back to the normal state; `ChipErase`, `SectorErase`, `BlockErase` and `NoErase` give its bytes |
| FlashSpec.ChipErase | flash.c:274-280 | The unlock and 0x10 leave all 2 MB as 0xff |
| FlashSpec.SectorErase | flash.c:282-299 | The unlock and 0x30 leave 0xff exactly in the 4 KB sector of the address |
| FlashSpec.BlockErase | flash.c:300-306 | The unlock and 0x50 leave 0xff exactly in the 64 KB block of the address |
| FlashSpec.NoErase | flash.c:307-313 | Any other command byte after the unlock leaves the array as it was |
| FlashSpec.ProgramBits | flash.c:262-272 | The program command ands the low byte of the data into the addressed byte and the high byte into the next, and nothing else changes |
| FlashSpec.Identifies | flash.c:126-132 | After the identify command even words read 0x00bf and odd words 0x2782, reads do not leave the mode, and the array is kept |
| FlashSpec.Queries | flash.c:134-140 | After the query command the chip reads as QRY, two more entries, and zeros |
| FlashSpec.Leaves | flash.c:213-260 | Both modes are left by 0xf0 at any address, or by the three-write exit, whose last write counts at its address only |
| FlashSpec.ReadAborts | flash.c:113-124 | A read in the middle of any sequence gives it up |
| FlashSpec.WrongWrite | flash.c:144-260 | What a write outside its sequence does, in every state that has one |
| FlashSpec.CfiGeometry | flash.c:56-99 | The CFI table gives the size of the chip and its sectors, but a region of blocks that covers twice the chip |
| Flash.LongIsFourBytes | flash.c:366-387 | A 32-bit read is its four bytes, the first in the lowest place |
| Flash.LongProgramsUpper | flash.c:437-454 | A 32-bit write to a chip that is ready to program programs its upper halfword only |
| FlashSpec.EraseThenProgram | flash.c:262-313 | Erase and program store any value; the rest of the sector reads 0xff and nothing outside changes |
| FlashSpec.TwoResetsRecover | flash.c:146-260 | Two writes of 0xf0 return to the normal state with the array unchanged from every state but the one about to program |
| FlashSpec.CfiReadable | flash.c:134-140 | The guard compares the table length with a byte offset: an entry comes back if and only if it is one of the first 27 or is zero anyway |
| FlashSpec.LongReadOrder | flash.c:378-379 | The two halves of a long read do not depend on their order of evaluation |
| Flash.ByteProgramClearsNeighbour | flash.c:408-414 | Programming one byte clears the other byte of its halfword |
| Flash.Device.GetHalfword | flash.c:111-144 | Value and next state of a halfword read in each of the thirteen states |
| Flash.Device.PutHalfword | flash.c:146-314 | State and array after a halfword write in each of the thirteen states |
| Flash.Device.ReadB | flash.c:316-341 | A byte read is a read cycle of its halfword |
| Flash.Device.ReadW | flash.c:343-364 | A halfword read is one read cycle |
| Flash.Device.ReadL | flash.c:366-388 | A word read returns both halves, upper half from offset + 2 |
| Flash.Device.WriteB | flash.c:390-415 | A byte write is a halfword write on its lane |
| Flash.Device.WriteW | flash.c:417-435 | A halfword write is one write cycle |
| Flash.Device.WriteL | flash.c:437-454 | A word write is two write cycles, the upper half first |
| SdiSpec.ReadSpells | s3c2410_sdi.c:231-265 | After CMD18 the reads of SDIDAT spell out, high byte first and across block reloads, the card bytes from the argument address on, for every block size and up to the last block of the card |
| SdiSpec.SingleRead | s3c2410_sdi.c:231-443 | After CMD17 they spell out one block, and then change nothing and return the last word again |
| SdiSpec.WriteStores | s3c2410_sdi.c:427-508 | After CMD25 the words written lie on the card in order, without a gap, as soon as the last block is full, and nothing else changes, up to the end of the card |
| SdiSpec.RoundTrip | s3c2410_sdi.c:427-508 | What is written through CMD25 is read back through CMD18, each word without the bytes its block had no room for |
| SdiSpec.KeptExactly | s3c2410_sdi.c:480-489 | A word comes back unchanged if and only if the bytes left out of it are zero |
| SdiSpec.ComesBackExactly | s3c2410_sdi.c:427-508 | Written through CMD25 and read through CMD18, a word comes back if and only if the bytes that its block had no room for are zero |
| SdiSpec.SixByteBlocks | s3c2410_sdi.c:480-489 | With blocks of 6 bytes the second word of a block keeps only its upper half |
| SdiSpec.WholeBlocksComeBack | s3c2410_sdi.c:427-508 | For block sizes that are a multiple of 4 every word comes back |
| SdiSpec.WholeWords | s3c2410_sdi.c:231-244 | Such block sizes make every word a full one |
| SdiSpec.StepsKeep | s3c2410_sdi.c:231-508 | Indices never pass their lengths and no used-up block is left, after every operation |
| SdiSpec.NoCardNoData | s3c2410_sdi.c:111-116 | Without a card no data moves |
| SdiSpec.NoGap | s3c2410_sdi.c:231-265 | Each word moves the bytes right after those of the words before it |
| SdiSingle.SingleWrite | s3c2410_sdi.c:445-506 | After CMD24 the card stays as it is until the block is in; the word that completes it puts its bytes, the highest of each word first, at the argument address, or loses them if the card is read-only or too short; further words only pass through the data register |
| SdiSingle.SingleReadBytes | s3c2410_sdi.c:427-443 | After CMD17 word n of the data port is bytes 4n to 4n + 3 of the block, the first in the highest place and zeros past the end; then the port repeats its last word |
| SdiSingle.NothingRead | s3c2410_sdi.c:97-146 | A block that the card does not have is not delivered, and the data register keeps its word |
| SdiSingle.SingleRoundTrip | s3c2410_sdi.c:427-506 | What CMD24 stored CMD17 brings back, word by word, the last one without the bytes for which the block had no room |
| SdiSingle.StopCommand | s3c2410_sdi.c:418-425 | CMD12 ends a multi-block transfer and changes nothing else |
| SdiSingle.StoppedRead | s3c2410_sdi.c:418-443 | From any state, also inside a multi-block transfer, CMD12 and CMD17 deliver exactly one block |
| SdiSingle.StoppedWrite | s3c2410_sdi.c:418-460 | From any state CMD12 and CMD24 store exactly one block |
| SdiSingle.SingleOnlyIfStopped | s3c2410_sdi.c:427-460 | A single-block command acts as the multi-block one of its kind if and only if a multi-block transfer was not stopped |
| SdiSingle.OtherCommands | s3c2410_sdi.c:338-472 | A command is started by bits 8 and 9 together, and only five of them move data |
| SdiSingle.CountAtStart | s3c2410_sdi.c:427-460 | SDIDCNT after a transfer command |
| SdiSingle.CountAfterRead | s3c2410_sdi.c:232-266 | SDIDCNT after a word read, and the block that follows one that is used up, if the card has it |
| SdiSingle.CountAfterWrite | s3c2410_sdi.c:480-512 | SDIDCNT after a word written, and the block that follows a full one |
| Sdi.Controller.CardRead | s3c2410_sdi.c:97-146 | The next block of the card is in the buffer, and 0 is returned, if the card has it; otherwise the buffer is empty and the result is -ENODEV without a card, or minus what errno holds |
| Sdi.Controller.PreadCard | s3c2410_sdi.c:122-139 | A read of the card delivers its bytes, or fails past its end |
| Sdi.Controller.WritePrepare | s3c2410_sdi.c:148-165 | An empty block of the size asked for, or none and -ENODEV without a card |
| Sdi.Controller.CardWrite | s3c2410_sdi.c:167-212 | The full block is on the card, and 0 is returned, if the card is writable and long enough, else it is lost and the result is minus what errno holds; the buffer is freed either way |
| Sdi.Controller.PutCcon | s3c2410_sdi.c:340-460 | Which commands start a transfer, and that only CMD12 ends a multi-block one |
| Sdi.Controller.ReadDat | s3c2410_sdi.c:231-265 | A read of SDIDAT is the read step: word, index, reload and count |
| Sdi.Controller.WriteDat | s3c2410_sdi.c:475-508 | A write of SDIDAT is the write step: bytes, flush to the card, next block and count |
| List.NextPrevInverse | include/list.h:44-55 | In a ring `next` and `prev` undo each other at every node |
| List.ListAddTail | include/list.h:63-97 | The ring with the new node at its end |
| List.ListDel | include/list.h:106-123 | The ring without the node, whose links are poisoned |
| List.ListSplice | include/list.h:185-208 | The nodes of one list right after the head of the other, in order; an empty list changes nothing |
| Modules.Register | module.c:205-217 | Registration appends to the ring |
| Modules.Unregister | module.c:219-228 | Unregistration removes one module and keeps the order of the others |
| Modules.ModulesExit | module.c:56-73 | The safe reverse traversal runs the exits in reverse registration order although exits delete their own node, stops at the first error, and leaves exactly the modules that were not unregistered |
| Modules.CleanTeardown | module.c:56-73 | When no exit fails every module is visited once, in reverse order, and if all unregister the ring is empty |
| Modules.StopsAtError | module.c:64-69 | An error is returned exactly when some exit that ran reported it, and that exit is the last that ran |
| Modules.RemainingExactly | module.c:55-73 | What stays registered is every module but those whose exit ran and unregistered it, in the order of registration |
| Modules.ReversedAt | module.c:64-69 | Reversal visits each module once |
| Power.PllRange | s3c2410_power.c:147-155 | Every PLL setting gives a clock above 184 kHz that fits 32 bits |
| Power.PclkPositive | s3c2410_power.c:157-195 | PCLK is at least 46153 Hz for every setting of the registers |
| Power.PllIs | s3c2410_power.c:147-155 | The clock of a PLL is 12 MHz times the main divider + 8 over the pre divider + 2 and the power of two of the post divider, rounded down, by the bits of its register |
| Power.FclkIs | s3c2410_power.c:157-166 | FCLK by the bits of the slow-clock register |
| Power.RatiosAre | s3c2410_power.c:168-195 | The divisions of FCLK for every setting of CLKDIVN |
| Power.Clocks.Recompute | s3c2410_power.c:147-195 | All six clocks agree with the registers, PCLK is FCLK divided by the stored ratio, and positive |
| Power.Clocks.Write | s3c2410_power.c:142-195 | A write of a clock register changes only that register and brings the clocks in step |
| Pwm.CountTracks | s3c2410_timer.c:270-292 | At any time after a start the count read is never above the exact one and below it by less than PCLK / (10^6 * interval) + 1 |
| Pwm.CountAtStart | s3c2410_timer.c:253-292 | At the start the count read is at most the loaded one and short by less than that bound |
| Pwm.CountFalls | s3c2410_timer.c:280-291 | Reading a running counter is non-increasing in time |
| Pwm.Countdown | s3c2410_timer.c:229-292 | A timer that a TCON write starts and that is then read twice: the count never exceeds the one loaded, never rises, and is within that bound of the exact one |
| Pwm.ProductsFit | s3c2410_timer.c:255-288 | For 16-bit counts no product of the conversions leaves 63 bits |
| Pwm.OneShotRestart | s3c2410_timer.c:229-268 | An expired one-shot timer is running again after a run of TCON writes if and only if the last word has its start bit and some word of the run lacks it, because the copy of TCON that changes are computed from keeps the bit |
| Pwm.BitsApart | s3c2410_timer.c:57-79 | The start, update and reload bits of the five timers are all different |
| PwmRuns.TconBits | s3c2410_timer.c:57-79 | The start, update and reload bits of the five timers by number |
| PwmRuns.IntervalIs | s3c2410_timer.c:200-211 | The clocks per count from the prescaler byte and the divider nibble |
| PwmRuns.Reload | s3c2410_timer.c:119-146 | The expiry of a timer with its reload bit: its interrupt, the next expiry one period later, the start bit kept, and a counter that counts down from the buffer, within the bracket of the exact count |
| PwmRuns.Periodic | s3c2410_timer.c:119-146 | Over any number of expiries, each with its own delay, every one raises the interrupt and the next comes after that many periods and the delays so far |
| PwmRuns.OneShot | s3c2410_timer.c:119-139 | The expiry of a one-shot timer: its interrupt, and it stops; its counter reads as what it was last read as, not as 0 |
| PwmRuns.Reconfigure | s3c2410_timer.c:192-227 | A TCFG write lets a running timer count down anew from the count last read, with the new interval |
| PwmRuns.ReconfigureIdle | s3c2410_timer.c:216-225 | A TCFG write leaves a timer that does not run stopped |
| PwmRuns.Stop | s3c2410_timer.c:240-266 | Clearing the start bit stops the timer; what its counter then reads |
| PwmRuns.Unchanged | s3c2410_timer.c:240-266 | A TCON write that leaves the start bit as it was moves no expiry, even with the update bit set |
| Pwm.Timers.UpdateTcfg | s3c2410_timer.c:192-227 | Intervals from prescaler and divider for all five timers, and pending ones armed anew |
| Pwm.Timers.UpdateTcon | s3c2410_timer.c:229-268 | Manual update, start and stop for all five timers from the change of TCON |
| Pwm.Timers.ReadTcnt | s3c2410_timer.c:270-292 | The count from the time left; an overdue counter reads 0; nothing but the stored count changes |
| Pwm.Timers.TimerTimeout | s3c2410_timer.c:119-146 | Reload and arm again, or stop and clear the start bit |
| GdbSpec.FrameRoundTrip | gdbstub.c:461-500 | From idle, the frame that `put_packet` builds is acknowledged and gives back exactly its payload |
| GdbSpec.AcceptedExactly | gdbstub.c:471-479 | A payload free of framing characters is accepted if and only if it has at most 4095 bytes |
| GdbSpec.SubstitutionRejected | gdbstub.c:485-495 | Any single payload byte replaced by another, not by a #, is rejected |
| GdbSpec.SubstitutionShows | gdbstub.c:191-197 | Changing one byte changes the checksum, with chars summed as signed values |
| GdbSpec.ChecksumIsByteSum | gdbstub.c:191-194 | The checksum is the sum of the bytes as unsigned numbers modulo 256, although the code adds signed chars |
| GdbSpec.FrameIs | gdbstub.c:186-199 | A frame is a dollar sign, the payload, a hash sign and two lower-case digits of that sum, the higher first |
| GdbSpec.PacketAnswered | gdbstub.c:461-504 | A packet is handed over and answered with a plus sign if and only if its two digits are that sum, else it is dropped and answered with a minus sign |
| GdbSpec.InterruptAnswered | gdbstub.c:454-460 | An interrupt character between packets is answered with the bytes of $S02#b5 |
| GdbSpec.DigitsRead | gdbstub.c:132-142 | Digits are taken in either case, and anything else as 0 |
| GdbSpec.DumpDigit | gdbstub.c:152-163 | Digit k of a dump is a half of byte k / 2, the higher first |
| GdbSpec.SentUntilPlus | gdbstub.c:176-209 | The frame is sent once, and once more for every byte before the acknowledgement, and nothing past that is read |
| GdbSpec.UndumpDump | gdbstub.c:152-173 | `hextomem` undoes `memtohex` |
| GdbSpec.FromToHex | gdbstub.c:132-150 | `fromhex` undoes `tohex` |
| Gdb.MemToHex | gdbstub.c:152-163 | The buffer holds the hex dump and a terminator |
| Gdb.HexToMem | gdbstub.c:165-173 | The memory holds what the digits describe |
| Gdb.GdbState.PutPacket | gdbstub.c:176-209 | The payload is the string in the buffer up to its first NUL; 0 exactly when an acknowledgement comes, -1 when the connection ends first; what is sent and read |
| Gdb.GdbState.ReadByte | gdbstub.c:451-504 | One byte moves the receiving state machine |
| Calendar.Mktimegm | qemu/qemu-git/cutils.c:99-111 | For every valid date from year 1 on the closed formula, over exact integers, is the day-by-day Gregorian count since 1970, in seconds |
| Calendar.FormulaDays | qemu/qemu-git/cutils.c:102-108 | The day formula, with March as first month, is that count |
| Calendar.SecondsOrder | qemu/qemu-git/cutils.c:99-111 | The order of these exact counts is the order of dates and times, in both directions |
| Calendar.ProductFits | qemu/qemu-git/cutils.c:107-108 | The product that the code forms in an `int` fits one if and only if the date lies between 1901-12-14 and 2038-01-19 |
| Calendar.SumFits | qemu/qemu-git/cutils.c:107-109 | With a `time_t` of 32 bits nothing is lost if and only if the time lies between 1901-12-14 00:00:00 and 2038-01-19 03:14:07 |
| Calendar.NextDay | qemu/qemu-git/cutils.c:99-111 | The recursive count gives consecutive days consecutive numbers, across months and years |
| Replay.Step | block.c:588-613 | One byte request answers and changes the contents as the flat array does |
| Replay.Attach | block-qcow.c:95-173 | A device over a sound image shows exactly its contents |
| Block.BlockDriverState.PreadAligned | block.c:516-533 | Whole sectors in place and a partial last sector together deliver exactly the slice |
| Qcow.Qcow.constructor | block-qcow.c:129-153 | After the header is read, the L1 copy equals the file and all caches are empty and right |
| Qcow.Qcow.PlaceTable | block-qcow.c:205-215 | The L1 entry of a table to come, in memory and on disk, at the rounded end of the file |
| Qcow.Qcow.EnterWord | block-qcow.c:285-290 | One L2 entry in the cached table and in the file alike |
| Qcow.Qcow.ReadChunk | block-qcow.c:370-388 | The bytes of one cluster: backing image, zeros, decompressed, or raw, and -1 where the backing image ends or a stream does not inflate |
| HostFile.HostFile.Pread | block-qcow.c:344-346 | The bytes of the host file that are there; a read that meets its end is short |
| HostFile.HostFile.Pwrite | block-qcow.c:212-213 | A host write changes exactly its range and fills a gap with zeros |
| HostFile.HostFile.Truncate | block-qcow.c:279-279 | The host file cut or grown with zeros |
| HostFile.BytesAfter | block-qcow.c:212-213 | Every byte of the file after a write and after a truncation, gaps being zeros |
| Timer.TimerList.WalkTo | timer.c:89-100 | The link to the timer, or the end of the list |
| Timer.TimerList.WalkPast | timer.c:111-119 | The link after every timer due no later |
| Timer.TimerList.Unlink | timer.c:94-98 | Changing one link takes exactly one timer out of an acyclic list |
| Timer.TimerList.Arm | timer.c:121-123 | Changing one link puts exactly one timer in |
| Timer.TimerList.Pop | timer.c:200-201 | The head leaves the list |
| Timer.Fire | timer.c:200-204 | The head leaves the list before its callback runs |
| Intc.Controller.constructor | s3c2410_intc.c:635-659 | The controller after a reset |
| TimerSpec.DueInFront | timer.c:195-198 | In a sorted queue the due timers are exactly the ones in front |
| Intc.Controller.SelectGroups | s3c2410_intc.c:332-341 | Each first-level arbiter that has a request makes its choice and turns |
| Intc.Controller.LoadPriority | s3c2410_intc.c:188-196 | `sel` and `mode` of all arbiters are taken out of the word |
| Flash.Device.Program | flash.c:262-272 | The AND of the halfword and the data, byte by byte |
| Flash.Device.Erase | flash.c:274-313 | 0xff over exactly the chip, sector or block, or nothing for an unknown command |
| Sdi.Controller.StartRead | s3c2410_sdi.c:427-443 | CMD17 and CMD18 set the address, fetch the first block and the count |
| Sdi.Controller.StartWrite | s3c2410_sdi.c:445-460 | CMD24 and CMD25 set the address and prepare a block |
| Sdi.Controller.GetWord | s3c2410_sdi.c:232-243 | Up to four bytes of the block, the first in the highest place |
| Sdi.Controller.Reload | s3c2410_sdi.c:245-263 | A used-up block is freed, and followed by the next one in a multi-block read |
| Sdi.Controller.PutWord | s3c2410_sdi.c:480-489 | Up to four bytes into the block, the highest first |
| Sdi.Controller.Flush | s3c2410_sdi.c:491-506 | A full block goes to the card, and a new one is prepared in a multi-block write |
| List.Splice | include/list.h:185-198 | Exactly the four links of the splice change |
| Modules.RunExit | module.c:66-66 | One exit deletes its own node, or leaves the ring alone |
| Power.Clocks.constructor | s3c2410_power.c:32-53 | The reset values of the clock registers, with the clocks in step |
| Power.Clocks.ComputeFclk | s3c2410_power.c:157-166 | FCLK from the slow-clock register |
| Gdb.CharSum | gdbstub.c:191-194 | The sum of a buffer of chars |
| Gdb.GdbState.BuildFrame | gdbstub.c:186-199 | The frame of the payload in the packet buffer |

## Left out

- Host I/O: writes, truncation and length queries of the host file always succeed, reads deliver all bytes there are, and growth fills with zeros; the error returns of the QCOW functions that depend on them, and crash ordering, are not modelled.
- Replay.Lifetime: requires the image to be creatable, that is fewer than 2^28 L1 entries, and its backing image to be at least as long; for other images the constructor of the driver asks that the fully allocated image stay below 2^63 bytes (`Fills`, `Roomy`), which the code does not check.
- Qcow.Qcow.WriteCompressed: requires, for a stream in an unmapped cluster, that its offset fits the offset bits of a compressed entry, which the code does not check and which every creatable image meets (`QcowReplay.StepCluster`); for a normal cluster at or beyond that limit, and for a longer stream that hits a table, only the file is stated.
- QcowReplay.RunImage: a stream goes to a cluster that was not written since the image was last emptied, and not before the next plain write or reopening after that; `Qcow.Qcow.WriteCompressed` and `QcowRuns` say what happens otherwise.
- Qcow.Qcow.Write: requires the memory of the driver to be right; writes and further compressed writes of a driver whose decompression cache is stale, or whose image has a stream that no longer inflates, are not modelled (reads and `qcow_make_empty` are).
- Qcow.Qcow.Read: requires the sectors to lie inside the capacity of the map, as the code indexes the L1 table without a check; the same holds for the other sector requests. The byte requests of the block layer lie inside the sectors of the device.
- QcowImage.Open: requires `cluster_bits` to be at most 30 and `l2_bits` at most 26, because the code shifts an `int` by them and multiplies the size of an L2 table by 16, and sound tables in an existing image; a damaged image is not modelled.
- Qcow.Qcow.MakeEmpty: the size of the L1 table fits its `uint32_t`, as the tables of all images that open do.
- Encryption (AES) in QCOW images, `qcow_probe`, `qcow_flush` and `qcow_get_info`.
- zlib: deflate and inflate are an abstract pair in which inflating undoes deflating, gives as many bytes as asked for or fails after writing some number of bytes no greater than that, and gets nothing out of nothing; that inflating stops at the end of a stream is not assumed.
- The backing image is a fixed sequence of bytes, and a read that passes its end fails; chains of drivers, snapshots and `bdrv_commit` are not modelled.
- `block-raw.c`, `block-vvfat.c`, protocols, file opening and path lookup; the SD card in the model is any device of the block layer, and the plain file descriptor of the SD controller is absent.
- Sdi.Controller.PreadCard: the card fails past its end, as `block-vvfat.c` does; a QCOW card, whose driver does not check, is not modelled there.
- Sdi.Controller.CardWrite: a block that reaches past the end of the card is refused as a whole; a card driver that stores the part of it that fits before it fails is not modelled.
- The SD command and response registers, SDIFSTA, SDIDSTA and the card identification commands, which only store constants.
- The two timer lists are two objects of one class; the callback is a script of calls to `mod_timer` and `del_timer`; the clock is a parameter.
- Intc.Controller.GenInt: the last branch of the code, a service request without a winner, cannot be reached while bits 6 and 24 are masked, and is absent.
- The halted flag of the CPU follows the idle state and is not kept separately; loading and saving the interrupt controller, which set `srcpnd` and `src_pending` apart.
- Remapping of flash memory between direct and handled access, and addresses relative to the emulated RAM base.
- Flash accesses that would run past the end of the chip, and undefined state numbers.
- Power-off and idle through CLKCON, and all registers that only store a value.
- The clock does not advance during one PWM register write; the PWM timers keep their own queue entry in place of the shared list.
- What the packet handler of the GDB stub does with an accepted packet, and partial sends on its socket.
- `mktimegm` on dates that are not valid, and leap seconds.
- User interface, LCD, ADC, NAND, memory controller, SPI, USB and UART register files, the CPU core and the disassemblers.
