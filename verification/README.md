# FluxThroughput, modelled and proved

FluxThroughput takes writes off a caller's hot path. A request goes into a lock-free ring; a worker drains
the ring into a last-write-wins cache, stages dirty entries in batches, appends each batch to a write-ahead
log, persists it to a store with retries, and then checkpoints the log below a floor set by durable writes
still on their way. This project models that pipeline in Dafny and proves what it keeps.

| file | models |
|---|---|
| `RingProtocol.dfy` | the ring as a machine of single atomic steps, any number of threads |
| `Ring.dfy` | the ring run alone: stamps, slots, bit mask, counters, refining a bounded queue |
| `Crc.dfy`, `Frame.dfy`, `Segment.dfy` | the checksum, the frame codec of both files, streams of frames and their scan |
| `Disk.dfy`, `Wal.dfy`, `WalFile.dfy` | a buffered file with a crash trace; the log as bytes; the log object |
| `DiskKv.dfy`, `Redis.dfy`, `Store.dfy` | the append-then-index store, the SET store, the last-write-wins table |
| `Calls.dfy` | the trace of calls into log and store, and the protocol they follow |
| `Lsn.dfy`, `Cache.dfy`, `Log.dfy` | the LSN authority and floor, the cache and its dirty index, the log as a list |
| `Pipeline.dfy` | all actors interleaved at lock-call grain, with failures, kills and restarts |
| `PipelineFloor.dfy`, `PipelineNoLoss.dfy`, `PipelineDurability.dfy`, `PipelineSet.dfy`, `PipelineRedis.dfy` | theorems over every run of that machine |
| `PipelinePlayers.dfy` | runs whose players are limited: what stays confined to them, and when every batch is whole |
| `PipelineProgress.dfy` | what holds under no hypotheses: the ring's bound, and that every call can end |
| `PipelineBytes.dfy` | the log file's bytes under that machine: its operations and kills are the machine's steps, over whole runs |
| `PipelineWitness.dfy` | runs that break a promise when a hypothesis is dropped, and the exact conditions |
| `Worker.dfy` | the flushing loops as imperative code, run without interference |

How the parts fit. `Pipeline.Next` has one labelled step per lock-protected call; a `Crash` step lets any number
of whole frames of one thread's append reach the log. `PipelineBytes.KillIsCrash` and `PipelineBytes.CrashIsKill`
prove that these are exactly the kills the bytes of `WalFile` allow. The loops of `Worker.Engine` run over the real
ring, cache and LSN objects, and a ghost trace shared by log and store (`Calls`) records each call they make.
The hypotheses some theorems need are fields of `Pipeline.Mode`:

- `atomicRegister` — `alloc` and `note_pending` of a durable submit are one step (two calls at src/api.rs:284 and 293);
- `atomicCheckpoint` — reading the watermark and checkpointing are one step (two calls at src/worker.rs:412-413);
- `soleFlusher` — only the worker flushes; `wholeDirty` — every `take_dirty` takes the whole dirty set;
- `plainSet` — the store is the unconditional SET of examples/redis_store.rs; `mayCrash` — kills and restarts occur;
- `players` — the players that may be written, when they are limited (the source has no such limit: `None`).

Where code and documentation disagree the model follows the code:

- README.md:128-134 promises that a checkpoint never discards a record the store has not absorbed. The floor is
  lifted when a request is drained into the cache (src/worker.rs:295-297), not when it is stored, and the two
  pairs of calls above can interleave. `PipelineWitness.FloorHoldsExactly` and `PipelineWitness.DurabilityHoldsExactly`
  say exactly which hypotheses make the promise true; each dropped one has a run that breaks it.
- src/ring.rs:135-137 accepts capacity 1. Then the published stamp equals the next lap's free stamp:
  `RingProtocol.CapacityOneOverruns`, `RingProtocol.BoundedIffTwoCells`.
- src/cache.rs:237-248 says a requeue never clobbers a newer write; at equal versions it puts an older blob back:
  `Cache.EqualVersionsRegress`, with the exact condition in `Cache.OrderIrrelevantExactly`.

## Model

| member | source | states |
|---|---|---|
| RingProtocol.RingIsSafe | src/ring.rs:165-295 | for capacity >= 2, any threads and any interleaving of single atomic steps: `deq <= enq <= deq+cap`, no two threads own the same cell, whatever laps their positions are on, every payload access hits memory in the right state, each position is returned at most once with its producer's payload, and every claimed request is in exactly one place |
| RingProtocol.Quiescent | src/ring.rs:165-295 | with all threads idle, exactly the positions below the consumer counter were returned and exactly the others wait in their cells |
| RingProtocol.RefinesFifo | src/ring.rs:183-223 | every single step refines a bounded FIFO: the winning producer CAS appends, the winning consumer CAS removes the head, nothing else changes the queue |
| RingProtocol.RetryMeansProgress | src/ring.rs:212-226 | whatever step a call takes before its claim: it gives up, claims the position the shared counter shows, or goes on with the same request, closer to its claim or back because of a spurious failure or because another thread won its position; a lost race never ends a call |
| RingProtocol.FullAndEmptyExactly | src/ring.rs:165-295 | over every step of a call that has claimed nothing: it ends if and only if it is at its stamp load with the current position and `cap` items are held or a previous-lap consumer is mid-read (Full), or the ring is empty or the next producer has not published (None) |
| RingProtocol.CapacityOneOverruns | src/ring.rs:134-137 | the concrete run in which a one-cell ring overwrites an unread request |
| RingProtocol.BoundedIffTwoCells | src/ring.rs:134-156 | the capacity bound holds in every run if and only if the ring has at least two cells |
| RingProtocol.EnqueueAlone | src/ring.rs:165-210 | an undisturbed enqueue on a free cell claims one position, writes its payload and publishes stamp `pos+1` |
| RingProtocol.DequeueAlone | src/ring.rs:235-295 | an undisturbed dequeue on a published cell claims one position, moves its payload out and publishes the stamp of the next lap |
| Ring.MaskIsModulus | src/ring.rs:137-151 | `pos & (cap-1)` equals `pos mod cap` because `cap` is a power of two |
| Ring.NextPowerOfTwo | src/ring.rs:135-137 | the capacity is the smallest power of two at or above the request |
| Ring.RingBuffer.constructor | src/ring.rs:134-156 | every request whose next power of two is a usize is accepted and rounded up to the least one; from two cells on, the ring starts as a valid empty queue |
| Ring.RingBuffer.TryEnqueue | src/ring.rs:165-229 | refused, with the request handed back, exactly when `capacity` items are held; otherwise appended |
| Ring.RingBuffer.TryDequeue | src/ring.rs:235-295 | None exactly when empty; otherwise the oldest item, removed |
| Ring.RingBuffer.DrainInto | src/ring.rs:303-315 | moves the oldest `min(max, length)` items out in order and reports how many |
| Ring.RingBuffer.Len | src/ring.rs:324-339 | the clamped counter difference is the number of queued items |
| Ring.RingBuffer.Drop | src/ring.rs:355-381 | the freed cells are exactly the initialised ones, each once, and none is left initialised |
| Ring.DroppedExactly | src/ring.rs:355-381 | a walk over `[deq, enq)` visits distinct cells, and they are all the cells in use |
| Crc.TableStep | src/domain.rs:241-263 | one table lookup and shift equals eight bit steps, by linearity of the bit step |
| Crc.BuildTable | src/domain.rs:241-263 | the built table holds the eight-fold bit step of every index |
| Crc.RegisterDivides | src/domain.rs:226-234 | the byte-wise register is the remainder of the bit-serial reflected division (section 3.2.9 of IEEE 802.3, section 8 of RFC 1952) for every byte string |
| Crc.ComputeCrc32 | src/domain.rs:226-234 | the table-driven loop returns exactly that bit-serial checksum |
| Crc.GeneratorIsIeee | src/domain.rs:241-263 | the polynomial constant is the reflected IEEE 802.3 generator, coefficient by coefficient |
| Crc.CheckValue | src/domain.rs:380 | the checksum of the ASCII digits 1 to 9 is 0xCBF43926 |
| Crc.RegisterInjective | src/domain.rs:226-234 | feeding the same bytes never makes two different registers equal: the bit step is invertible |
| Crc.WindowInjective | src/domain.rs:226-234 | four bytes are determined by the registers before and after them |
| Crc.Residue | src/domain.rs:146-148 | bytes followed by four more leave the constant residue if and only if the four are their checksum |
| Frame.EncodeFrame | src/domain.rs:133-152 | the buffer grown field by field is the frame, with the truncated length fields and the checksum of all before it |
| Frame.Layout | src/domain.rs:133-152 | where each field of an encoded frame sits |
| Frame.LittleEndian | src/domain.rs:138-143 | byte `i` of an encoded integer is its digit `i` in base 256 |
| Frame.RoundTrip | src/domain.rs:163-214 | decoding an in-range frame followed by any bytes returns it and its length |
| Frame.Canonical | src/domain.rs:163-214 | a successful decode consumed exactly the encoding of what it returned, which is in range |
| Frame.RoundTripExactly | src/domain.rs:139 | the round trip holds if and only if the fields fit their widths, the frame length its 32-bit cast included |
| Frame.PrefixTruncated | src/domain.rs:163-187 | every strict prefix of a frame is reported as truncated |
| Frame.LengthSurvives | src/domain.rs:176-194 | no four-byte change can move the frame end without being noticed: the two length fields check each other |
| Frame.FrameResidue | src/domain.rs:146-148 | every frame drives the checksum register to the same residue |
| Frame.BurstRejected | src/domain.rs:163-214 | any change confined to four consecutive bytes of a frame, across field boundaries and with arbitrary bytes following, is rejected |
| Frame.BurstNamed | src/domain.rs:163-214 | which error such a change gives: a changed magic BadMagic, a changed length field Truncated, any other change BadCrc |
| Segment.ScanSound | src/wal.rs:502-519 | what the scan consumed is the encoding of what it returned, and no frame starts after it |
| Segment.ScanComplete | src/wal.rs:502-519 | frames followed by bytes that start no frame scan to exactly those frames |
| Segment.ScanExactly | src/wal.rs:484-522 | the scan result is characterised by an if and only if: exact, maximal, unambiguous |
| Segment.RescanStable | src/wal.rs:425-443 | scanning the truncated file gives the same result |
| Segment.EncodingInjective | src/wal.rs:484-522 | concatenated encodings decode in one way only |
| Segment.CutStream | src/wal.rs:502-519 | frames cut at any byte are whole frames and a tail that does not decode |
| Segment.PrefixUndecodable | src/wal.rs:502-519 | bytes that start no frame do not start one when cut short either |
| Segment.TornAppend | src/wal.rs:267-307 | old frames and a batch cut at any byte scan to the old ones and a whole-frame prefix of the batch |
| Disk.BufferedFile.Drain | src/wal.rs:290-292 | a flush delivers all buffered bytes, in chunks of any size, every image in between a prefix of the result |
| Disk.BufferedFile.Put | src/wal.rs:281-288 | a buffered write may pass any part of what is held on to the file |
| Disk.BufferedFile.Replace | src/wal.rs:376-378 | a rename replaces the whole file at once |
| Disk.BufferedFile.Overwrite | src/wal.rs:183-185 | writing a header over a shorter file leaves, at every moment before the last byte, a file that is still too short |
| Wal.RecoveredMeaning | src/wal.rs:484-522 | a segment up to its good end is the header and the encoding of the recovered records, all in range |
| Wal.CutRecovers | src/wal.rs:409-450 | a clean log plus an append, cut at any byte, recovers to a prefix of the records holding every one before the cut |
| Wal.CutAny | src/wal.rs:409-450 | any segment image, torn tail or not, cut anywhere past its header recovers to a prefix of its records, all of them when the cut is past the good end |
| Wal.AppendRecovers | src/wal.rs:267-307 | appending frames to a clean log appends the records, and the log stays clean |
| Wal.RewrittenClean | src/wal.rs:342-374 | a rewritten segment is clean and recovers to the list it was written from |
| Wal.TruncationIdempotent | src/wal.rs:425-443 | truncating at the good end keeps the recovered list and leaves nothing more to cut |
| Wal.RecordLayout | src/domain.rs:133-152 | the bytes of an encoded record: magic, frame length, LSN at 8, player at 16, version at 24, blob length at 32, blob at 36 |
| Wal.HeaderName | src/wal.rs:94 | the file header is the eight letters FLUXWAL1 |
| WalFile.DecodeSegment | src/wal.rs:484-522 | the scan loop computes the recovered records and the good end for arbitrary bytes, short and foreign files included |
| WalFile.AppendCrash | src/wal.rs:267-307 | a kill at any moment of an append reopens and recovers to whole records in order, with at least every record in the forced part of the file |
| WalFile.ChoiceOfTwo | src/wal.rs:330-398 | a kill around a rename recovers to the new list, or to the old one less unforced records; to exactly the old one when it was forced |
| WalFile.CutCrash | src/wal.rs:425-443 | a kill while a torn tail is being cut off keeps every record in the forced part |
| WalFile.RotationMeaning | src/wal.rs:330-374 | the rewritten segment recovers to the log with exactly the records at or below `up_to` taken out, the others in file order |
| WalFile.WriteTemp | src/wal.rs:352-374 | the temporary segment holds header and survivors and is forced before use |
| WalFile.LogFile.Open | src/wal.rs:157-219 | short files get a header, foreign ones are refused, all others kept byte for byte; a kill while the header is written leaves a file the next open treats the same way |
| WalFile.LogFile.AppendBatch | src/wal.rs:267-307 | the file grows by the encoded batch, `last_lsn` becomes the maximum, fsync forces it all, and a kill at any step keeps a whole-record prefix with every forced record |
| WalFile.LogFile.Checkpoint | src/wal.rs:330-398 | the file becomes exactly the survivors in file order, forced, with `last_lsn` at least `up_to`; a kill at any step, fsync on or off, recovers to the survivors or to the old list less unforced records |
| WalFile.LogFile.Recover | src/wal.rs:409-450 | returns the recovered records, cuts the torn tail and leaves a clean file; a kill inside recovers a prefix of those records with every forced one, so all of them when the good part was forced |
| WalFile.LogFile.Flush | src/wal.rs:453-458 | forces the file without changing it |
| DiskKv.CutReplays | examples/disk_kv_store.rs:314-358 | a whole file and a batch cut at any byte replay to the old records and a prefix of the batch |
| DiskKv.TruncationKeeps | examples/disk_kv_store.rs:278-293 | truncating to the good length changes neither the replay nor the length |
| DiskKv.WholeAgrees | examples/disk_kv_store.rs:372-422 | after a whole batch the file's replay is the upserted old replay, with no torn tail |
| DiskKv.RebuildIndex | examples/disk_kv_store.rs:314-358 | the replay loop computes the last-write-wins fold of the file and its good length |
| DiskKv.AppendCrash | examples/disk_kv_store.rs:372-422 | a kill at any byte of a batch rebuilds the old index with a whole-record prefix of the batch |
| DiskKv.RecordLayout | examples/disk_kv_store.rs:98-115 | the bytes of an encoded record: magic, frame length, player at 8, version at 16, blob length at 24, blob at 28 |
| DiskKv.DiskKvStore.constructor | examples/disk_kv_store.rs:268-305 | reopening rebuilds exactly the replayed index and trims the file to its good length |
| DiskKv.DiskKvStore.PersistBatch | examples/disk_kv_store.rs:372-422 | the index becomes the upserted one and still equals the replay of the file; kills inside keep a whole-record prefix |
| Redis.KeysDistinct | examples/redis_store.rs:120-122 | two players share a key if and only if they are the same player |
| Redis.KeyShape | examples/redis_store.rs:120-122 | a key is `player:` followed by the player's number in decimal, without leading zeros |
| Redis.ValueRoundTrip | examples/redis_store.rs:126-142 | a value round trips if and only if its version is a 64-bit number |
| Redis.ValueCanonical | examples/redis_store.rs:135-142 | decoding succeeds exactly from eight bytes on, and then re-encoding gives the value back |
| Redis.ValueLayout | examples/redis_store.rs:126-131 | a value is eight little-endian bytes of version and then the blob |
| Redis.RedisStore.PersistBatch | examples/redis_store.rs:193-213 | the keyspace goes on representing the table with every state SET in order, or on an error is unchanged |
| Redis.RedisStore.Load | examples/redis_store.rs:217-226 | a load returns exactly the row represented, or None, also when the connection does not answer |
| Store.UpsertMeaning | src/store.rs:250-265 | every row is an old one or one of the batch, none goes back, and every state of the batch is covered |
| Store.UpsertConcat | src/store.rs:250-265 | two batches in a row upsert like their concatenation |
| Store.UpsertNewest | src/store.rs:250-265 | a row not newer than the batch becomes the newest state of the batch, at equal versions the incoming and the later one |
| Store.SetIsUpsert | examples/redis_store.rs:99-107 | SET and upsert agree on a batch nowhere behind the table |
| Store.SetMeaning | examples/redis_store.rs:99-107 | a SET batch with one state per player writes exactly those rows and leaves the others alone |
| Store.SetConcat | examples/redis_store.rs:193-213 | SETs happen in batch order: two batches in a row SET like their concatenation |
| Store.Backend.PersistBatch | src/store.rs:207-272 | one call upserts the whole batch or fails, retryably or for good, without touching the table |
| Lsn.Watermark | src/lsn.rs:130-146 | the clamp is the largest LSN at most the proposal and below every pending one, absent exactly when 0 is pending |
| Lsn.LsnState.Alloc | src/lsn.rs:90-92 | hands out the next number |
| Lsn.LsnState.AllocBlock | src/lsn.rs:99-101 | reserves a contiguous block and returns its first number |
| Lsn.LsnState.NotePending | src/lsn.rs:105-110 | adds exactly this LSN to the floor |
| Lsn.LsnState.NoteDrained | src/lsn.rs:116-121 | removes exactly this LSN from the floor |
| Lsn.LsnState.CheckpointWatermark | src/lsn.rs:130-146 | the method computes the watermark |
| Cache.WriteBehindCache.Apply | src/cache.rs:132-156 | last-write-wins, equal versions re-arm, and the dirty index stays equal to the dirty bits |
| Cache.WriteBehindCache.TakeDirty | src/cache.rs:172-198 | hands out `min(max, dirty)` distinct dirty entries as copies and cleans exactly those |
| Cache.WriteBehindCache.RequeueDirty | src/cache.rs:230-258 | puts states back entry by entry, index and bits in step |
| Cache.RequeueKeeps | src/cache.rs:230-258 | putting taken states back moves no version and touches no other player |
| Cache.RequeueRearms | src/cache.rs:230-258 | no dirty bit is lost, and entries still at the version put back are dirty again |
| Cache.CacheAgrees | src/cache.rs:132-258 | over any run of applies, takes and requeues of taken states, each entry holds the maximum version applied, so requeue's vacant and strictly-older branches are dead |
| Cache.OrderIrrelevantExactly | src/cache.rs:132-258 | runs that applied the same states agree on content if and only if each player's highest version names one blob |
| Cache.EqualVersionsRegress | src/cache.rs:237-248 | the run in which a requeue puts an older blob back at an equal version |
| Log.SurvivorsMeaning | src/wal.rs:342-349 | a checkpoint keeps exactly the records above its LSN, and distinctness with them |
| Log.SurvivorsInOrder | src/wal.rs:342-349 | what a checkpoint keeps is the log with records taken out: the kept ones sit at strictly increasing places of it, which are exactly the places of records above its LSN |
| Log.HighestMeaning | src/wal.rs:446-447 | the recovered high-water mark is the maximum LSN |
| Log.ReplayMeaning | src/api.rs:159-175 | replay leaves every player's newest frame in the cache, every entry dirty |
| Log.ReplayNewest | src/api.rs:159-175 | replay serves each player's frame of the highest version, at equal versions the one later in the file |
| PipelineFloor.LogLsnsDistinct | src/lsn.rs:90-101 | LSNs of all frames in the log are distinct and below the allocator in every state, across appenders, checkpoints and restarts |
| PipelineFloor.InvRun | src/api.rs:276-327 | with either pair of calls atomic, every pending durable append keeps its frame in the log, for any mix of actors and any batch size |
| PipelineFloor.ShedWriteSurvives | src/api.rs:284-324 | from any start and after any run, shed a logged record's ring copy: without a crash its frame stays in the log under a pending LSN, and a kill at any later moment, cutting any append anywhere, rebuilds the write |
| PipelineFloor.LoggedStep | src/api.rs:303-324 | in every state a thread that has logged its record holds its only copy, and the record is pending |
| PipelineFloor.ShedStrands | src/api.rs:312-324 | shedding that copy is always possible and leaves the record pending with no copy anywhere |
| PipelineNoLoss.TakenBatch | src/cache.rs:172-198 | a batch is one copy of each chosen entry |
| PipelineNoLoss.NothingLostInMemory | src/worker.rs:283-432 | for every interleaving and failure pattern, each accepted write is queued, popped, or cached at its version or newer with the entry dirty, in flight or matched by the store |
| PipelineNoLoss.StoreConverges | src/api.rs:421-516 | at rest the store covers every accepted write and every row it had at the last start, and each of its rows is one of those |
| PipelineNoLoss.StoreIsNewest | src/store.rs:250-265 | at rest, whatever log and store the starts found: a player has a row if and only if a write of its was accepted or it had one at the last start, and the row is the newest of these |
| PipelineDurability.DurableWritesSurvive | src/worker.rs:342-432 | across any number of crashes, every durable write is covered by a frame or a row in every reachable state, under the hypotheses |
| PipelineSet.CurrentStep | src/worker.rs:318-332 | with a sole flusher every clean entry of a player in the batch has the batch's version, in every state |
| PipelineSet.SettledSet | examples/redis_store.rs:193-213 | so a SET of the batch leaves every clean entry in the store or in flight |
| PipelineSet.EitherStoreConverges | examples/redis_store.rs:187-226 | with a sole flusher every accepted write is in the store at rest, SET or upsert, whatever the starts found and however often the process was killed |
| PipelineSet.DurableWithoutCrash | src/worker.rs:342-432 | without restarts no durable write is lost even when the store SETs without comparing |
| PipelineBytes.AppendIsStep | src/wal.rs:267-307 | a completed append to a file that holds the machine's log is the machine's append step |
| PipelineBytes.KillIsCrash | src/wal.rs:267-307 | a kill at any moment of an append recovers to the log of a `Crash` step: the log and the first so many records of the batch |
| PipelineBytes.CrashIsKill | src/wal.rs:267-307 | every such `Crash` step is the kill at some byte of the append |
| PipelineBytes.CheckpointIsStep | src/wal.rs:330-398 | a completed checkpoint is the machine's, and a kill inside recovers to the log before or after it |
| PipelineBytes.RecoveryIsStart | src/api.rs:159-181 | the file after recovery holds the log the machine starts from, and the allocator starts past its highest LSN |
| PipelineBytes.FileHolds | src/wal.rs:267-450 | over any run, kills and restarts included, the file the operations leave is clean and recovers to exactly the machine's log |
| PipelineBytes.FileFollows | src/wal.rs:267-450 | every run whose records fit their fields is one the file can go through: each crash step is a kill at some byte |
| PipelineBytes.DurableOnDisk | src/wal.rs:267-450 | from any start, after any run that meets the durability condition and a kill inside its next step (mid-append at any byte, around a checkpoint's rename, or at rest), the file reopens and its recovered records and the store cover every durable write |
| PipelinePlayers.ConfinedRun | src/worker.rs:283-432 | when log and submits name only allowed players, every ring slot, cache entry, frame, batch, accepted and durable write names one, in every state of every run |
| PipelinePlayers.TakesAll | src/cache.rs:172-198 | with at most `flush_max_batch` players, every `take_dirty` takes the whole dirty set |
| PipelinePlayers.WholeRun | src/worker.rs:318-332 | so every such run is a run of the machine that must take whole dirty sets, through the same states |
| PipelineProgress.CallsCanEnd | src/worker.rs:283-432 | in every state of every run, from any start and under any hypotheses, the ring is within its capacity and every thread can end its call by its own steps alone, even if every call into log and store fails from there on |
| PipelineProgress.WayOutCloser | src/worker.rs:370-430 | the failing step is always open to a thread in a call, and takes it closer to the end |
| PipelineWitness.LateRegistration | src/api.rs:284-293 | the run that checkpoints a durable write away between `alloc` and `note_pending` |
| PipelineWitness.SecondFlusher | src/api.rs:352-373 | the run in which a second flusher's checkpoint drops the frame of a newer write another thread still has in hand |
| PipelineWitness.PartialBatch | src/worker.rs:295-297 | the run in which a partial batch's checkpoint drops a frame whose content is only in the cache |
| PipelineWitness.PlainSetForgets | examples/redis_store.rs:193-213 | the run in which a SET store goes back to an older version after a restart |
| PipelineWitness.FloorHoldsExactly | src/worker.rs:412-413 | the floor promise holds in every run if and only if one of the two call pairs is atomic, or nobody may be written |
| PipelineWitness.DurabilityHoldsExactly | src/worker.rs:342-432 | for every mode with a ring and a batch: durability holds in every run if and only if nobody may be written, or a call pair is atomic, the worker is sole flusher, the store compares versions or the process is never restarted, and batches are whole: because takes are made so, or because the players number at most `flush_max_batch` |
| PipelineRedis.BatchStoredAlike | examples/redis_store.rs:193-213 | under a sole flusher no batch is behind the store, so SET and upsert agree on it |
| PipelineRedis.SameRun | examples/redis_store.rs:187-226 | from a start on an empty store, on any log, a schedule is a run against the SET store if and only if it is one against the comparing store, and both end in the same state |
| PipelineRedis.SetConvergesExactly | examples/redis_store.rs:187-226 | the SET store holds every accepted write at rest, in every run from any log and store and across restarts, if and only if the worker flushes alone, or nobody may be written |
| Worker.AppliedMeaning | src/worker.rs:283-300 | applying drained requests takes no entry back, covers every request and dirties at most one entry each |
| Worker.RequeueUndoesTake | src/worker.rs:417-430 | without interference, putting a failed batch back restores the cache exactly, dirty bits included |
| Worker.PersistSettles | src/worker.rs:318-332 | a persisted batch leaves every clean entry covered by the store |
| Worker.AllDelivered | src/worker.rs:491-535 | once ring and dirty set are empty, everything cached or queued at the start is in the store |
| Calls.AttemptWritesAhead | src/worker.rs:342-432 | one attempt at a batch calls the store only after the append of that batch succeeded, at most `limit` times, and checkpoints only right after a successful store call |
| Calls.WriteAheadConcat | src/worker.rs:318-332 | that order is kept over any sequence of attempts |
| Calls.FlushSized | src/worker.rs:318-332 | a flush hands the store between one and `flush_max_batch` states a call |
| Worker.RecordLog.AppendBatch | src/domain.rs:307 | the log trait's append: all records and the new maximum, or nothing |
| Worker.RecordLog.Checkpoint | src/domain.rs:311 | the log trait's checkpoint: exactly the survivors in order, or nothing |
| Worker.Engine.Start | src/api.rs:123-209 | refused exactly for a zero ring, batch, flush interval or retry limit or a log that cannot be opened; otherwise the engine has the given batch size and retry limit and the least power of two of cells, the cache is the replay of the log, all dirty, the allocator starts past the highest LSN, and from two cells on the engine is valid |
| Worker.Engine.Submit | src/api.rs:231-265 | enqueued exactly when the ring has room, otherwise shed; one number drawn either way |
| Worker.Engine.SubmitDurable | src/api.rs:276-327 | one append call; on success the frame is logged under a pending LSN even when the ring sheds the copy; on failure log and floor are as before |
| Worker.Engine.CacheGet | src/api.rs:339-341 | serves the cached state, and what it serves that the store lacks is still dirty |
| Worker.Engine.DrainRingIntoCache | src/worker.rs:283-300 | the oldest four batches' worth leave the ring, reach the cache in order, and lift exactly their floors |
| Worker.Engine.PersistWithRetry | src/worker.rs:441-473 | makes `attempts` store calls, between one and `store_retry_limit`: all but the last failed retryably, and a retryable last one means the limit was used up |
| Worker.Engine.LogAndStore | src/worker.rs:370-399 | the store is called only after the append succeeded, and the log gains the batch exactly then |
| Worker.Engine.FlushBatch | src/worker.rs:342-432 | the calls made are one attempt: append, then at most `store_retry_limit` store calls, then the cut at the clamped watermark if there is one; success stores the batch, failure requeues it; every record under a pending LSN stays in the log, and after a cut that succeeded nothing else is left of the batch or of anything older |
| Worker.Engine.Flush | src/worker.rs:318-332 | its calls are attempts at `min(flush_max_batch, dirty)` entries each until nothing is dirty or a batch is refused, and nothing is dirty at the end if and only if the last call did not refuse one; no row goes back; every record under a pending LSN stays in the log, and when the last call is a cut that succeeded no other record is left |
| Worker.Engine.FinalDrain | src/worker.rs:491-535 | ends by the measure (2*ring + dirty, 64 - stalled) with the ring empty, turn after turn of draining four batches' worth and flushing what is dirty; the dirty set is empty, and everything delivered, if and only if the last call did not refuse a batch; otherwise its last calls are 64 failed attempts in a row and nothing else; every record whose LSN is still pending at the end is still in the log |
| Worker.Engine.Turn | src/worker.rs:241-272 | one turn of the worker's loop: exactly the oldest `min(4*flush_max_batch, ring)` requests reach the cache; then, exactly when a batch is dirty or the interval is over and anything is, the dirty entries are flushed batch by batch, to the end or to the first refused batch |
| Worker.Engine.Run | src/worker.rs:235-276 | for any readings of the clock, every turn of the loop is such a turn, with the interval counted from the end of the last turn that flushed, and the final drain ends as above; the cache holds exactly what the drained requests give, and every record whose LSN is still pending is still in the log |
| Worker.Engine.DrainWholeRing | src/api.rs:421-441 | empties the ring batch by batch into the cache, in order |
| Worker.Engine.FlushStates | src/api.rs:449-516 | the calls made are one attempt; it reports success if and only if the last call succeeded, and then the log is the appended one cut at the watermark, with nothing left of the batch or of anything older but what a pending LSN holds back; a refused batch is back in the cache |
| Worker.Engine.FlushNow | src/api.rs:352-373 | ends, and succeeds if and only if its last call did; its calls are batches of `min(flush_max_batch, dirty)` entries, and only its last checkpoint may have failed; on success ring and dirty set are empty, the count is the number of players dirty after the drain, the store covers every entry and request, and of the log only what a pending LSN holds back is left; exactly the drained requests leave the floor, and every record whose LSN is still pending is still in the log |

## Left out

- Weak memory: atomic loads, stores and compare-and-swaps interleave under sequential consistency; `Send`, `Sync` and cache-line padding are not modelled.
- Counter wrap-around: protocol positions and LSNs are unbounded, and `Ring.RingBuffer` requires positions below 2^63, so what happens after 2^63 enqueues or 2^64 LSNs is not stated.
- Ring capacity 1 in the sequential ring: its operations require two cells, because `RingProtocol.CapacityOneOverruns` shows the source breaks on one.
- Appending to a log opened with a torn tail before recovering it: the append's effect on recovery is stated for a clean file, which every recovery leaves.
- Real files, directories and power loss: a file is bytes with a forced prefix, a rename is atomic, and a kill keeps some prefix of the bytes that includes the forced part.
- Log and disk-store appends that fail part-way with an I/O error and then go on: `WalFile` and `DiskKv` appends complete or are killed; `Worker.RecordLog` appends fail as a whole.
- A checkpoint that fails after its rename, which would leave the source's writer on the replaced file.
- Time: idle sleep, backoff and latency; the worker's clock is a parameter, one reading when a turn decides and one after it flushed.
- `MockDb` fault knobs as counters: a store call succeeds, fails retryably or fails for good, nondeterministically.
- Metrics, error formatting, configuration beyond batch, retry, flush interval and capacity values, thread spawning and joining, `src/bin`, tests and the examples' `main`.
- Threads beside the loops of `Worker.Engine`: they run alone there; `Pipeline` models the interleavings, at the grain of lock-protected calls.
- PipelineRedis.SameRun: covers one life of the process, from a start on an empty store; across a restart the SET store may differ for a while (`PipelineWitness.PlainSetForgets`), and what still holds then is `PipelineSet.EitherStoreConverges`.
- Redis.RedisStore.PersistBatch: versions are assumed to be 64-bit numbers, which the source's types guarantee.
