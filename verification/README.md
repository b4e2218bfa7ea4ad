# save: a verified model of the object store's core

`save` is an S3-style object store. Its metadata (buckets, objects, locks, multipart records) lives in one
ordered string-keyed database that a Raft log feeds; its bytes live in files that a coordinator replicates
with a two-phase write. This project models that logic in Dafny and proves what it keeps over whole runs.

| file | models |
|---|---|
| `Text.dfy` | byte-ordered keys, "seek to the prefix, stop at the first mismatch", decimal numbers |
| `Locks.dfy`, `Lifecycle.dfy` | the replicated per-key lock; every interleaving of the handlers that hold it |
| `MetadataDb.dfy`, `StateMachine.dfy`, `Replay.dfy`, `LockReplay.dfy` | commands on the table, batches, snapshot restore, replay after a crash for data and for locks |
| `RaftLog.dfy` | the log store as a refinement of a contiguous sequence |
| `Replica.dfy`, `ReplicaRuns.dfy` | a node's temp objects (pending prepares and writes of its own) and their files, and all their runs with stale cleanup and the collector |
| `Client.dfy`, `Coordinator.dfy`, `Interleaving.dfy` | chunking and retries; one quorum write over several replicas, alone and amid other requests |
| `Framing.dfy`, `StreamedPrepare.dfy`, `Streaming.dfy` | gRPC frames, a streaming prepare end to end, a streamed read |
| `Listing.dfy` | the prefix scan and the pages of the list handler |
| `UploadKeys.dfy`, `Multipart.dfy`, `Gc.dfy` | the multipart key space, its records, the temp-file collector |
| `Assembly.dfy`, `UploadRuns.dfy`, `UploadLimits.dfy`, `PartHandlers.dfy` | receiving and assembling parts, all runs of the multipart handlers, where their promise ends, and the handlers on the flat table |
| `Cluster.dfy` | node health and the cached quorum view |
| `QueryString.dfy` | the canonical query string of request signatures |

Code that updates state in place is a class whose methods are proved against functions on values
(`ReplicationService`, `ReplicationCoordinator`, `Storage`, `LogStore`, `UploadStore`, `TempDir`,
`PartHandler`, `ClusterManager`, `StreamingReader`); the theorems are about those functions and their runs.
I/O outcomes, clocks, lost messages, the split of a file into reads and the order of a hash map are
parameters, so every theorem holds for all of them.

Where a promise does not hold of the code, the model keeps the code and states exactly when it does:

- A prepare sent twice under one request id answers yes twice and can then never commit; the client's retry
  loop does this after a lost answer (`Client.RetriedPrepareCommits`, `ReplicaRuns.CoherenceIsExact`).
- Two prepares pending for one key share one temp file (`ReplicaRuns.SharedTempFile`), and the collector takes
  the temp file of a pending prepare once it is old (`ReplicaRuns.CoherenceIsExact`, `Gc.StagedFileSpared`).
- An empty object is never prepared on any replica by a streamed write (`Coordinator.EmptyObjectNeedsNoReplicas`).
- A write answered as failed is visible on the local node if the directory sync after its rename is what failed
  (`Coordinator.FailedWriteExactly`, `Coordinator.FailedWriteIsVisible`), and shows through on a replica that had
  a temp object for the key (`Interleaving.HarmlessExactly`, `Interleaving.FailedWriteShowsThrough`).
- A prepare counted as a success may be one that can never be committed, because the retry loop delivered it twice
  (`Coordinator.QuorumPublishes`).
- A streaming prepare whose body breaks off is refused, but one whose body ends short is accepted, unchecked,
  with the bytes that arrived (`StreamedPrepare.CutPrepare`).
- A transport error reaches the reader of a stream only if it comes before the flagged last chunk
  (`Streaming.StreamVerdict`); a read error on the replica looks like the end of the file
  (`Streaming.ReadErrorLooksLikeEnd`).
- A batch repeated after a crash fails if it re-creates a bucket (`Replay.CrashReplay`). Its locks come out the
  same exactly as far as refused acquisitions are refused again (`LockReplay.RepetitionExactly`); one that the
  repetition admits leaves a lock that the other nodes do not have (`LockReplay.AdmittedNewcomerDiverges`).
- A writer that stops between storage commit and metadata write leaves metadata describing other bytes until
  somebody publishes again (`Lifecycle.TornObject`, `Lifecycle.PublishingClearsTheMark`).
- A page size of 0 says that more is left but gives no token (`Listing.PagesCoverListing`).
- A range read whose bound is the greatest 64-bit index wraps around, and an unbounded one leaves that index out
  (`RaftLog.ReadIsWhatWasAsked`).
- Multipart uploads in a bucket named `part`, or with `part` as a colon-separated word of the key, are
  invisible to listings, and the collector takes their files (`UploadKeys.HiddenExactly`, `Gc.PartFileSpared`).
- An upload whose key spells out another's part prefix is read as a part of it, spoils its completion, and goes
  when the other is removed (`UploadKeys.NestedExactly`, `UploadLimits.HistoryExactly`,
  `UploadLimits.StrangerSpoilsCompletion`, `Multipart.RemoveRefines`).
- A failed completion removes the part directory but not the upload; from then on no part can be sent again and
  no completion succeeds until the upload is removed (`UploadLimits.FailedCompletionExactly`,
  `UploadLimits.StuckWithoutDirectory`).
- A failed re-upload spoils a recorded part silently (`UploadRuns.PartFileExactly`,
  `UploadRuns.FailedReuploadIsAssembled`).
- With a failure threshold of 0 or 1 the cached quorum flag goes stale (`Cluster.CachedQuorumIsSafe`), and
  nodes that join do not lift a Minority verdict (`Cluster.MinorityLingers`).

## Model

| member | source | states |
|---|---|---|
| `Text.ScanPrefix` | crates/save-metadata/src/object.rs:120-131 | seeking to a prefix and stopping at the first key without it finds all and only the keys that carry it, in ascending order |
| `Text.StopsAtTheRightKey` | crates/save-metadata/src/object.rs:122-126 | no key carrying the prefix lies beyond the first one that does not |
| `Text.AscendingIsUnique` | crates/save-metadata/src/object.rs:120-122 | a key set has one ascending listing |
| `Text.LessExactly` | crates/save-metadata/src/object.rs:120-122 | the key order is decided at the first place where two keys differ: the one that ends there or has the smaller character comes first |
| `Text.DecimalIsInjective` | crates/save-metadata/src/multipart.rs:71-73 | formatted part numbers differ when the numbers differ |
| `Text.DecimalExactly` | crates/save-metadata/src/multipart.rs:71-73 | a text is a formatted number if and only if it is all digits without a leading zero |
| `Text.Utf8LenExactly` | crates/save-common/src/validation.rs:12-12 | the length in bytes adds up over the characters, one to four bytes each |
| `Locks.LockLogKeepsValid` | crates/save-metadata/src/lock.rs:53-107 | after every command log each lock record has holders, none twice, and exactly one if it is a write lock |
| `Locks.AdmissionIsExact` | crates/save-metadata/src/lock.rs:20-87 | a newcomer gets the lock if and only if it is vacant or both are readers, and the answer says so |
| `Locks.HolderIsAdmittedAgain` | crates/save-metadata/src/lock.rs:53-87 | whoever holds the lock is told yes again and nothing changes |
| `Locks.CheckForesees` | crates/save-metadata/src/lock.rs:20-35 | the local check says yes exactly to whoever the command would admit |
| `Locks.OthersKeepHolding` | crates/save-metadata/src/lock.rs:53-107 | no command of another holder ends a hold or changes its type |
| `Locks.ReleaseIsExact` | crates/save-metadata/src/lock.rs:89-107 | a release ends exactly the released hold |
| `Locks.ReleaseUndoesAcquire` | crates/save-metadata/src/lock.rs:53-107 | acquiring and releasing gives back the table, for every newcomer, admitted or refused |
| `Locks.WriterIsAlone` | crates/save-metadata/src/lock.rs:20-35 | two holders of one record are readers |
| `Lifecycle.MutualExclusion` | crates/save-metadata/src/lock.rs:179-254 | over every interleaving of requests on any nodes, a live write guard is the only guard on its key although pre-check and verification read stale copies |
| `Lifecycle.NoPhantomObjects` | crates/save-api/src/handlers/multipart/complete.rs:35-140 | over every interleaving of reading, writing and deleting requests, each free to stop for good anywhere, every metadata entry has committed bytes, on the node of the request that last published it |
| `Lifecycle.MetadataDescribesBytes` | crates/save-api/src/handlers/multipart/complete.rs:114-140 | in every run a metadata entry gives digest and size of the bytes on its publisher's node, unless a storage commit touched the key since it was last published |
| `Lifecycle.PublishingClearsTheMark` | crates/save-api/src/handlers/multipart/complete.rs:134-140 | every metadata write makes the entry accurate again, whatever failed before |
| `Lifecycle.ReadersSeeOneVersion` | crates/save-api/src/handlers/objects/get.rs:33-46 | in strong consistency mode: until a reader's release commits, no step of anybody changes bytes or metadata of its object |
| `Lifecycle.CommitTearsExactlyWhen` | crates/save-api/src/handlers/multipart/complete.rs:120-140 | a storage commit over an existing object leaves metadata describing no copy, except exactly when the bytes are the described ones or an untouched node has those |
| `Lifecycle.TornObject` | crates/save-api/src/handlers/multipart/complete.rs:114-140 | for every bucket, key and pair of different contents some run ends with metadata that describes no copy |
| `Lifecycle.StepKeepsInv` | crates/save-api/src/handlers/objects/delete.rs:27-75 | every step of every handler keeps the lock, log and data invariants; the delete handler removes metadata before bytes |
| `Lifecycle.CheckIsExact` | crates/save-api/src/handlers/objects/delete.rs:33-41 | a delete ends as not found if and only if what its node has applied of the log holds no entry for the key, and goes on otherwise |
| `Lifecycle.DeleterDeletes` | crates/save-api/src/handlers/objects/delete.rs:51-75 | from every reachable world with a guarded deleter whose node has applied the entry: the three steps take the key out of the committed objects and out of the bytes of exactly the nodes told, and leave every other key as it was |
| `Lifecycle.DeleterFinishes` | crates/save-api/src/handlers/objects/delete.rs:27-75 | a delete of an existing object on a vacant key can run from its first step to its release, and then the object is gone and the lock free |
| `Lifecycle.NothingToDelete` | crates/save-api/src/handlers/objects/delete.rs:33-41 | a delete of a key without an entry changes no object and no bytes |
| `Lifecycle.WriterFinishes` | crates/save-api/src/handlers/multipart/complete.rs:35-146 | a write on a vacant key can run from its first step to its release, and then its node shows the content, the metadata describe it and the lock is free |
| `Lifecycle.ReaderFinishes` | crates/save-api/src/handlers/objects/get.rs:33-46 | a locked read of a vacant key can run to its release and changes nothing |
| `Lifecycle.CommitSpreads` | crates/save-api/src/handlers/multipart/complete.rs:126-130 | a storage commit, answered as done or as failed, shows the content exactly on the nodes it got to |
| `Lifecycle.PreCheckExactly` | crates/save-metadata/src/lock.rs:186-215 | a request may ask for its lock exactly while it tries and its node knows of none, of its own, or of a shared one it wants to share |
| `Lifecycle.VerifyExactly` | crates/save-metadata/src/lock.rs:219-247 | the verification lets a request go on exactly if its node shows its hold, and sends it back to try again otherwise |
| `Lifecycle.LateExactly` | crates/save-metadata/src/lock.rs:179-254 | after giving up, a lock can still arrive exactly if the Raft write was under way |
| `Lifecycle.AppliedExactly` | crates/save-metadata/src/raft/storage.rs:154-190 | a node reads what it has applied: catching up moves its own position and nothing else moves any |
| `Lifecycle.StopsAnywhere` | crates/save-metadata/src/lock.rs:179-254 | a request may give up exactly while it has no guard and may drop its guard at any point |
| `Lifecycle.BucketsChange` | crates/save-metadata/src/bucket.rs:8-45 | bucket commands take effect in the committed state |
| `Lifecycle.HeldIsStable` | crates/save-metadata/src/lock.rs:226-254 | a lock seen on any applied prefix is still held at the end of the log while its holder has not released |
| `MetadataDb.ApplyRefines` | crates/save-metadata/src/raft/state_machine.rs:10-47 | every command on the one string-keyed table does to buckets, objects and locks what it does to three separate maps, with the same outcome |
| `MetadataDb.CommandExactly` | crates/save-metadata/src/raft/state_machine.rs:10-47 | for every command: when it is refused and with which error, and which buckets and objects are there afterwards |
| `MetadataDb.LockCommandExactly` | crates/save-metadata/src/raft/state_machine.rs:10-47 | the lock commands change the locks as specified, no other command does |
| `MetadataDb.BucketNameExactly` | crates/save-common/src/validation.rs:35-62 | a bucket name is valid if and only if it has 3 to 63 of the allowed characters and begins and ends with a letter or a digit |
| `MetadataDb.ObjectKeyExactly` | crates/save-common/src/validation.rs:7-33 | an object key is valid if and only if it has 1 to 1024 bytes, no NUL, no two dots in a row and no slash at either end |
| `MetadataDb.FullKeyIsInjective` | crates/save-common/src/validation.rs:35-62 | with slash-free buckets, `bucket/key` tells bucket and key |
| `StateMachine.Storage.ApplyCommand` | crates/save-metadata/src/raft/state_machine.rs:10-47 | the dispatch changes the table as specified for each command, error cases included |
| `StateMachine.Storage.CreateBucket` | crates/save-metadata/src/bucket.rs:8-22 | validates, refuses an existing bucket, stamps the local clock |
| `StateMachine.Storage.DeleteBucket` | crates/save-metadata/src/bucket.rs:39-45 | validates and deletes, whether or not the bucket exists |
| `StateMachine.Storage.AcquireLock` | crates/save-metadata/src/lock.rs:53-87 | rewrites the stored record as specified and answers whether it was granted |
| `StateMachine.Storage.ReleaseLock` | crates/save-metadata/src/lock.rs:89-107 | removes the holder, and the record with its last holder |
| `StateMachine.Storage.ApplyToStateMachine` | crates/save-metadata/src/raft/storage.rs:154-190 | a batch is the fold of its commands up to the first failure; the applied position is stored only after the last entry; the membership is that of the last applied entry that carries one; multipart records are untouched |
| `StateMachine.Storage.ApplyEntry` | crates/save-metadata/src/raft/storage.rs:161-178 | a command entry is applied, a membership entry is stored with its position, a blank one does nothing |
| `StateMachine.RepeatedMembership` | crates/save-metadata/src/raft/storage.rs:167-176 | across a crash and repetition the membership is that of one run whenever the repetition gets as far as the first run or comes to a membership itself; otherwise that of the first run stays |
| `StateMachine.LatestIsUnique` | crates/save-metadata/src/raft/storage.rs:167-176 | the latest membership of a batch is determined |
| `StateMachine.Storage.RestoreDefaultCf` | crates/save-metadata/src/raft/snapshot.rs:223-250 | deleting and copying prefix by prefix gives the source's data keys and the target's other keys |
| `StateMachine.Storage.InstallSnapshot` | crates/save-metadata/src/raft/snapshot.rs:175-213 | restores the data keys and takes over applied position and membership |
| `StateMachine.UploadsUntouched` | crates/save-metadata/src/raft/state_machine.rs:10-47 | no command touches multipart records |
| `Replay.RestoreRefines` | crates/save-metadata/src/raft/snapshot.rs:223-250 | a restore replaces buckets, objects and multipart records and keeps exactly the locks |
| `Replay.SnapshotEqualsReplay` | crates/save-metadata/src/raft/snapshot.rs:223-272 | snapshot at i over any target, then the rest of the log, gives the verdict, bucket names and objects of the whole log on an empty store, for all clocks |
| `Replay.CrashReplay` | crates/save-metadata/src/raft/storage.rs:154-190 | a batch cut anywhere and repeated runs through if and only if no bucket it is first to create was left existing, and then bucket names and objects are those of one run |
| `Replay.WithoutCreateAlwaysSafe` | crates/save-metadata/src/raft/storage.rs:154-190 | batches without bucket creation can be repeated after a crash at any point |
| `LockReplay.RepetitionExactly` | crates/save-metadata/src/raft/storage.rs:154-190 | for every table and every list of commands whose holder ids are not reused, repeating what had run before the crash leaves the lock table as it was if and only if every acquisition that left no trace is refused again |
| `LockReplay.CrashKeepsLocks` | crates/save-metadata/src/raft/storage.rs:154-190 | then a batch cut anywhere and repeated ends with the lock table of one run |
| `LockReplay.NoRefusalNoDivergence` | crates/save-metadata/src/lock.rs:53-107 | a batch that refused no acquisition can be repeated after a crash at any point with the same lock table |
| `LockReplay.AdmittedNewcomerDiverges` | crates/save-metadata/src/lock.rs:53-107 | a refused newcomer that the batch does not release and the repetition admits makes the tables differ, for every batch and cut |
| `LockReplay.LockReplayDiverges` | crates/save-metadata/src/lock.rs:53-107 | it happens for every bucket and key: a writer refused because of a holder released later in the batch |
| `RaftLog.LogStore.AppendToLog` | crates/save-metadata/src/raft/log_store.rs:125-151 | stores every entry under its index and moves the last position to the last one |
| `RaftLog.LogStore.GetEntries` | crates/save-metadata/src/raft/log_store.rs:90-123 | returns the stored entries of the index range in order, for every kind of bound, with bounds that wrap around at the 64-bit maximum |
| `RaftLog.LogStore.DeleteRangeOf` | crates/save-metadata/src/raft/log_store.rs:153-164 | deletes exactly the inclusive index range |
| `RaftLog.LogStore.DeleteConflictLogsSince` | crates/save-metadata/src/raft/storage.rs:99-119 | deletes the tail and rewrites the last position |
| `RaftLog.LogStore.PurgeLogsUpto` | crates/save-metadata/src/raft/storage.rs:121-133 | deletes the head after the previous purge and records the new purge point |
| `RaftLog.AppendRefines` | crates/save-metadata/src/raft/log_store.rs:125-151 | appending what continues a contiguous log is concatenation |
| `RaftLog.TruncateIsExact` | crates/save-metadata/src/raft/storage.rs:99-119 | truncation leaves a contiguous log if and only if it starts inside the log or right after it, resets the store, or there is nothing |
| `RaftLog.PurgeIsExact` | crates/save-metadata/src/raft/storage.rs:121-133 | purging leaves a contiguous log if and only if there is no last position or it goes no further than the last entry and not back |
| `RaftLog.PurgeOfNothing` | crates/save-metadata/src/raft/storage.rs:121-133 | purging a store without a last position just moves its start |
| `RaftLog.DeletedExactly` | crates/save-metadata/src/raft/storage.rs:99-133 | which entries truncation and purge delete, in any tables |
| `RaftLog.PositionsExactly` | crates/save-metadata/src/raft/storage.rs:99-133 | which last and purged positions they record |
| `RaftLog.LogRunRefines` | crates/save-metadata/src/raft/storage.rs:91-133 | in every run of allowed appends, truncations and purges, of a fresh store too, the tables are exactly a contiguous sequence |
| `RaftLog.SliceIsExact` | crates/save-metadata/src/raft/log_store.rs:90-123 | reading any range of a contiguous log is exactly the slice of the sequence |
| `RaftLog.ReadsAfterRun` | crates/save-metadata/src/raft/log_store.rs:90-123 | after every such run, every read returns exactly the slice between the bounds it computes, which is what was asked for if and only if no wrap-around makes a difference |
| `RaftLog.ReadIsWhatWasAsked` | crates/save-metadata/src/raft/log_store.rs:95-110 | for every log of 64-bit indices and every pair of bounds: the read is what the bounds ask for if and only if no bound at the maximum wraps into the log and an unbounded end misses no greatest index |
| `Replica.ReplicationService.PrepareObject` | crates/save-storage/src/replication/service.rs:73-124 | checks, stages and registers as specified; a replaced entry takes its temp file with it |
| `Replica.ReplicationService.StreamPrepareObject` | crates/save-storage/src/replication/service.rs:127-244 | the chunk loop stages the joined chunks and checks the last flagged checksum |
| `Replica.ReplicationService.CommitObject` | crates/save-storage/src/replication/service.rs:247-272 | consumes the entry and renames its temp file, with failing rename and failing sync told apart |
| `Replica.ReplicationService.AbortObject` | crates/save-storage/src/replication/service.rs:275-296 | consumes the entry and its temp file |
| `Replica.ReplicationService.CleanupStalePrepares` | crates/save-storage/src/replication/service.rs:415-436 | drops exactly the prepares at least as old as the limit, with their files, and none of the node's own writes |
| `Replica.ReplicationService.CommitTempObject` | crates/save-storage/src/lib.rs:230-258 | renames onto the object path, or lets the drop remove the temp file |
| `Replica.ReplicationService.WriteTempObject` | crates/save-storage/src/lib.rs:201-226 | validates the key and writes the temp file of that key; a failure leaves none |
| `Replica.ReplicationService.WriteObject` | crates/save-storage/src/replication/service.rs:38-70 | a direct write is a staging and a commit in one |
| `Replica.ReplicationService.HoldObject` | crates/save-storage/src/replicated_backend.rs:185-195 | a request of the node itself stages its temp object at the same path as a prepare would |
| `Replica.ReplicationService.CommitOwned` | crates/save-storage/src/lib.rs:230-258 | the owner's temp object is consumed and its file renamed, with failing rename and failing sync told apart |
| `Replica.ReplicationService.DeleteObject` | crates/save-storage/src/replication/service.rs:368-392 | removes the visible object only; success for a missing one, failure and no change if the file cannot be removed, and says whether it was there |
| `ReplicaRuns.StepRefines` | crates/save-storage/src/replication/service.rs:73-296 | a request, a step of the node's own write or a collector cycle that disturbs no temp object does exactly what it means for a table of staged contents |
| `ReplicaRuns.CoherenceIsExact` | crates/save-storage/src/layout.rs:18-37 | temp files stay one to one with pending prepares and own writes if and only if the step writes at no path that is taken and the collector finds none of their files old |
| `ReplicaRuns.CollectRefines` | crates/save-api/src/gc.rs:98-139 | a collector cycle that takes no temp object's file means nothing to the staged contents |
| `ReplicaRuns.RunRefines` | crates/save-storage/src/replication/service.rs:73-436 | in every run that disturbs no temp object, on nodes that coordinate writes too, visible bytes are exactly those of committed prepares, own and direct writes and deletes |
| `ReplicaRuns.RunFromEmpty` | crates/save-storage/src/replication/service.rs:73-436 | from an empty replica, in every such run, every temp file has exactly one prepare or own write and the other way round |
| `ReplicaRuns.VisibleChanges` | crates/save-storage/src/replication/service.rs:247-296 | in any state only commits, direct and own writes and deletes change visible bytes; a commit publishes exactly its temp file |
| `ReplicaRuns.AnswersExactly` | crates/save-storage/src/replication/service.rs:38-70 | when a prepare, a streamed prepare, a direct write, a delete and an own staging answer success, in any state |
| `ReplicaRuns.ExpectedExactly` | crates/save-storage/src/replication/service.rs:184-223 | a stream is held to the checksum of its last chunk that is flagged and carries one |
| `ReplicaRuns.ConsumedOnce` | crates/save-storage/src/replication/service.rs:247-272 | a temp id is consumed at most once, over every later run that does not hand it out again |
| `ReplicaRuns.RepeatedPrepareCannotCommit` | crates/save-storage/src/replication/service.rs:108-124 | the same prepare delivered twice can never be committed |
| `ReplicaRuns.SharedTempFile` | crates/save-storage/src/layout.rs:35-37 | of two prepares of one key the first commit publishes the second's bytes |
| `Client.SendChunks` | crates/save-storage/src/replication/client.rs:283-332 | nothing for a file that does not open; otherwise first chunk with key and request id, one chunk per successful read, final chunk with the checksum, also after a failed read |
| `Client.ChunksCarry` | crates/save-storage/src/replication/client.rs:283-332 | the chunks carry the bytes read in order; only the first names key and request, only the last is flagged and carries the checksum |
| `Client.StreamIsPrepare` | crates/save-storage/src/replication/client.rs:283-332 | streaming a nonempty file equals a one-shot prepare for every split into reads; an empty file is refused |
| `Client.CutReadIsRefused` | crates/save-storage/src/replication/client.rs:295-332 | a sender stopped by a failed read is always refused, for every split and cut, and leaves nothing on a replica without a temp object for the key |
| `Client.AnsweredExactly` | crates/save-storage/src/replication/client.rs:520-548 | the retry loop gets an answer if and only if it comes to an answered attempt within its retries and the key is valid; it was delivered once if and only if no attempt before that got there |
| `Client.RetriedPrepareCommits` | crates/save-storage/src/replication/client.rs:520-548 | a retried prepare that was answered can be committed if and only if it was delivered once |
| `Coordinator.ReplicationCoordinator.SyncNodes` | crates/save-storage/src/replication/coordinator.rs:167-185 | the client table becomes exactly the members without the local node, known ones keep their address |
| `Coordinator.ReplicationCoordinator.SelectReplicaNodes` | crates/save-storage/src/replication/coordinator.rs:195-216 | distinct healthy remote nodes, at most one fewer than asked, and all of them if fewer |
| `Coordinator.ReplicationCoordinator.PrepareAll` | crates/save-storage/src/replication/coordinator.rs:411-487 | every chosen node that still has a client is prepared once, streamed or through the retry loop, and reported in order |
| `Coordinator.ReplicationCoordinator.ProcessPrepareResults` | crates/save-storage/src/replication/coordinator.rs:551-588 | splits the reports into temp ids, successes and failures, the local node first |
| `Coordinator.ReplicationCoordinator.CommitAll` | crates/save-storage/src/replication/coordinator.rs:489-517 | commits each prepared node that the message reaches and leaves the others |
| `Coordinator.ReplicationCoordinator.AbortAll` | crates/save-storage/src/replication/coordinator.rs:519-548 | aborts each prepared node that the message reaches and leaves the others |
| `Coordinator.ReplicationCoordinator.Complete2pcWrite` | crates/save-storage/src/replication/coordinator.rs:592-638 | quorum check, commit of the node's own temp object with failing rename and failing sync told apart, then commit or abort, with the answer's counts |
| `Coordinator.ReplicationCoordinator.ReplicateWrite` | crates/save-storage/src/replication/coordinator.rs:273-349 | both whole writes are prepare, tally and completion on the selected nodes |
| `Coordinator.CountsAreExact` | crates/save-storage/src/replication/coordinator.rs:551-638 | successes are the local node and the prepared ones, each once; successes plus failures stay within the replication factor; quorum is exactly successes reaching the write quorum |
| `Coordinator.LearnedExactly` | crates/save-storage/src/replication/client.rs:339-353 | the coordinator learns a temp id if and only if the stream got there, carried the whole nonempty file, was written and answered, or the retry loop came to an answered attempt |
| `Coordinator.CountedExactly` | crates/save-storage/src/replication/coordinator.rs:480-588 | a node is counted as prepared, or as failed, if and only if it was asked, its worker lived and its prepare succeeded, or did not |
| `Coordinator.AnswerExactly` | crates/save-storage/src/replication/coordinator.rs:551-638 | the answer of a write by what happened on the way: its counts and lists are the local node and exactly the prepares that succeeded, and quorum is exactly these being enough |
| `Coordinator.EnoughIsQuorum` | crates/save-storage/src/replication/coordinator.rs:592-638 | enough prepares that succeed and a local commit that works make a quorum write |
| `Coordinator.NoQuorumNoChange` | crates/save-storage/src/replication/coordinator.rs:592-622 | a write that fails, below quorum or at the local commit, changes no replica's visible bytes, for every pattern of failures |
| `Coordinator.FailedWriteLeavesNothing` | crates/save-storage/src/replication/coordinator.rs:519-548 | a failed write leaves the whole store of a replica that its abort reaches as it was, temp file and pending prepare included |
| `Coordinator.LocalWriteExactly` | crates/save-storage/src/replication/coordinator.rs:604-621 | the local node shows the new bytes if and only if there was a quorum and the rename worked; the answer is a failed local write if and only if there was a quorum and the commit did not go through; no temp file stays |
| `Coordinator.FailedWriteExactly` | crates/save-storage/src/lib.rs:230-258 | a failed write changes nothing visible anywhere if and only if it was not the sync after the local rename that failed, or the bytes were there before |
| `Coordinator.FailedWriteIsVisible` | crates/save-storage/src/lib.rs:244-248 | for every key and content a write on a single node is answered as failed and visible |
| `Coordinator.LocalWriteNeedsQuorum` | crates/save-storage/src/replication/coordinator.rs:592-622 | the local node changes only after local plus prepared nodes reach the write quorum |
| `Coordinator.QuorumPublishes` | crates/save-storage/src/replication/coordinator.rs:623-638 | with quorum the new bytes are visible exactly on the local node and on each prepared node whose prepare was delivered once and whose commit arrived and renamed |
| `Coordinator.PublishesExactly` | crates/save-storage/src/replication/coordinator.rs:489-517 | exactly the nodes prepared, known to be, delivered once and reached by a commit that renamed publish |
| `Coordinator.CopiesAfterQuorum` | crates/save-storage/src/replication/coordinator.rs:623-638 | the replicas left with a copy are exactly those, so the count of prepares is not a count of copies |
| `Coordinator.WriteKeepsReplicasCoherent` | crates/save-storage/src/replication/coordinator.rs:592-638 | every node in order before the write, the local one included, is in order after it, whatever was lost, unless its prepare was delivered twice |
| `Coordinator.EmptyObjectNeedsNoReplicas` | crates/save-storage/src/replication/client.rs:295-331 | a streamed empty object reaches quorum exactly when the local node alone is a quorum |
| `Interleaving.NoQuorumNoChangeAmid` | crates/save-storage/src/replication/coordinator.rs:592-622 | with others' requests, cleanups and collector cycles between the two phases: after a failed write a replica shows exactly what the others alone would have made of it, without this write's prepare |
| `Interleaving.HarmlessExactly` | crates/save-storage/src/layout.rs:35-37 | an accepted prepare is without effect on what all others show, whatever they do, if and only if the replica had no temp object for the key |
| `Interleaving.FailedWriteShowsThrough` | crates/save-storage/src/replication/service.rs:108-124 | with a prepare of the key pending, its commit publishes the bytes of this write although this write fails |
| `Interleaving.QuorumPublishesAmid` | crates/save-storage/src/replication/coordinator.rs:623-638 | with quorum a replica shows what the others alone would have made of it, plus the new bytes exactly if its commit arrived and renamed before the prepare was taken away |
| `Interleaving.StagedIsInvisible` | crates/save-storage/src/replication/service.rs:73-124 | over every run of others, a staged prepare changes nothing of what they see and publish |
| `Framing.WriteFrames` | crates/save-common/src/grpc.rs:244-251 | flag 0, length as four big-endian bytes, message, for each message |
| `Framing.FrameLayout` | crates/save-common/src/grpc.rs:244-251 | one flag byte, the length in four bytes, most significant first, then the message |
| `Framing.ParseLenient` | crates/save-storage/src/replication/server.rs:362-389 | decodes the maximal run of complete frames, or fails on one that does not decode |
| `Framing.ParseStrict` | crates/save-metadata/src/raft/server.rs:284-315 | succeeds, with the same messages, exactly when that run covers the whole body |
| `Framing.RunSpellsBody` | crates/save-metadata/src/raft/server.rs:290-312 | the run and what is left spell the body |
| `Framing.RunIsMaximal` | crates/save-storage/src/replication/server.rs:362-389 | what is left starts no complete frame |
| `Framing.RunIsUnique` | crates/save-common/src/grpc.rs:244-251 | every spelling of a body as frames and an incomplete rest is the run found by the parsers |
| `Framing.RoundTripExactly` | crates/save-common/src/grpc.rs:244-251 | writing and parsing gives the list back if and only if every message has fewer than 2^32 bytes |
| `Framing.SingleRoundTrip` | crates/save-common/src/grpc.rs:187-200 | the single-frame parser gives the message back if and only if it fits the length field |
| `Framing.CutStream` | crates/save-storage/src/replication/server.rs:362-389 | of a stream cut off anywhere exactly the frames that arrived whole are found |
| `StreamedPrepare.HandleStreamPrepare` | crates/save-storage/src/replication/server.rs:120-130 | a body that cannot be collected or parsed changes nothing; otherwise the service gets the chunks of its complete frames |
| `StreamedPrepare.CutPrepare` | crates/save-storage/src/replication/server.rs:358-392 | what a replica makes of a chunk stream after any first n bytes: if it breaks off, nothing; if it ends there, nothing, the checked file, or unchecked the part that arrived |
| `StreamedPrepare.CutLosesBytes` | crates/save-storage/src/replication/service.rs:184-223 | the prepared bytes are the file if and only if all data chunks arrived |
| `Streaming.ReadObject` | crates/save-storage/src/replication/service.rs:300-346 | one chunk per read, total in the first, flag on the last, one empty chunk for an empty file |
| `Streaming.ResponsesExactly` | crates/save-storage/src/replication/service.rs:300-346 | the chunks are the reads; only the first says the length of the file, only the last is flagged |
| `Streaming.ForwardsArrived` | crates/save-storage/src/replication/client.rs:397-416 | the forwarder passes on exactly the nonempty chunks that arrived, and an error exactly if it came before a flagged chunk |
| `Streaming.StreamingReader.PollRead` | crates/save-storage/src/replication/client.rs:428-459 | buffered bytes first, then the next chunk, keeping what does not fit |
| `Streaming.PollIsLossless` | crates/save-storage/src/replication/client.rs:428-459 | a poll with room hands out the next bytes and keeps the rest, and comes back empty exactly at the end |
| `Streaming.StreamIsLossless` | crates/save-storage/src/replication/client.rs:387-459 | for every split into reads, every point at which the transport breaks and every run of polls: delivered bytes are a prefix of what the server read, an end seen first means all of it, and an error means exactly the pieces that had arrived |
| `Streaming.StreamVerdict` | crates/save-storage/src/replication/client.rs:387-459 | after enough answered polls the reader has seen an error if and only if the transport broke before the flagged chunk, and an end otherwise |
| `Streaming.StreamEnds` | crates/save-storage/src/replication/client.rs:387-459 | as many answered polls as bytes, and one more, deliver everything forwarded and bring the end or the error |
| `Streaming.ReadErrorLooksLikeEnd` | crates/save-storage/src/replication/service.rs:330-346 | a server read error cannot be told from the end of the file: the reader sees a normal end and has the file exactly when the error came after the last byte |
| `Listing.ListObjects` | crates/save-metadata/src/object.rs:110-134 | with a slash-free bucket, exactly that bucket's objects under the prefix, ascending by key |
| `Listing.CommandKeepsFiling` | crates/save-metadata/src/object.rs:40-58 | every command keeps object records filed under their own bucket and key |
| `Listing.LogKeepsFiling` | crates/save-metadata/src/object.rs:40-58 | after every log of commands from an empty table, object records are filed under their own bucket and key |
| `Listing.ListPage` | crates/save-api/src/handlers/objects/list.rs:48-59 | the page of the retained objects, whether more is left, and the next token |
| `Listing.PageIsAStretch` | crates/save-common/src/s3_responses.rs:253-289 | a page is the stretch of the listing right after the token, at most the limit long, truncated exactly when something is left, with the last key as token |
| `Listing.PageByRequest` | crates/save-api/src/handlers/objects/list.rs:48-59 | by the request alone: the first objects beyond the token of a version 2 or the marker of a version 1 request, at most 1000 and at most as many as asked for, cut short only by these limits, with a token only in version 2 |
| `Listing.PagesCoverListing` | crates/save-common/src/s3_responses.rs:261-266 | following the tokens of an unchanged bucket ends, with full pages before the last, and the pages join to the listing if and only if a page may hold a key or nothing is left |
| `Listing.PagesUnderChange` | crates/save-api/src/handlers/objects/list.rs:48-59 | if the bucket changes between requests, keys still ascend without repeats and no object that stays throughout is missed |
| `UploadKeys.DbKeyIsInjective` | crates/save-metadata/src/multipart.rs:67-69 | bucket, key and upload id can be read back from a metadata key |
| `UploadKeys.ClashExactly` | crates/save-metadata/src/multipart.rs:67-73 | two well-formed uploads disturb each other if and only if they share the bucket and one's key spells the other's part prefix, or one's key and numeric id spell a part of the other |
| `UploadKeys.NestedExactly` | crates/save-metadata/src/multipart.rs:131-143 | an upload's records lie among another's parts if and only if both are in one bucket and its key spells out the other's part prefix |
| `UploadKeys.PartKeysDiffer` | crates/save-metadata/src/multipart.rs:71-73 | upload and number can be read back from a part key |
| `UploadKeys.MetadataIsNoPart` | crates/save-metadata/src/multipart.rs:67-73 | the metadata key of an upload with an issued id is nobody's part key |
| `UploadKeys.PlainUploadsApart` | crates/save-metadata/src/multipart.rs:67-73 | metadata and part keys of different visible uploads never collide nor lie under each other's part prefix |
| `UploadKeys.HiddenExactly` | crates/save-metadata/src/multipart.rs:264-267 | an upload is skipped by listings if and only if its bucket is `part` or `part` is a colon-separated word of its key |
| `UploadKeys.ClashesAreHidden` | crates/save-metadata/src/multipart.rs:264-267 | of two uploads that clash one is hidden from listings |
| `UploadKeys.HiddenUploadsMayClash` | crates/save-metadata/src/multipart.rs:131-143 | for every upload there is one whose key spells out its part prefix and puts its metadata among that upload's parts |
| `UploadKeys.BucketPrefixIsExact` | crates/save-metadata/src/multipart.rs:302-308 | a metadata key lies under `mpu:bucket:` exactly when it is that bucket's |
| `Multipart.UnderPartPrefix` | crates/save-metadata/src/multipart.rs:131-143 | under an upload's part prefix lie exactly its own part records and the records of the uploads nested in it |
| `Multipart.CollectedIsParts` | crates/save-metadata/src/multipart.rs:131-143 | reading fails if and only if a nested upload does not decode as a part; otherwise it finds the upload's own numbers and the stray ones, and exactly its parts if nothing is nested, although the keys sort as text |
| `Multipart.InitiateRefines` | crates/save-metadata/src/multipart.rs:76-105 | initiating under any key adds an upload without parts and changes nothing else |
| `Multipart.RecordRefines` | crates/save-metadata/src/multipart.rs:155-185 | recording sets that part of that upload and nothing else |
| `Multipart.RemoveRefines` | crates/save-metadata/src/multipart.rs:220-249 | aborting removes the upload with all its parts, exactly the uploads nested in it, and nothing else |
| `Multipart.RunFromEmpty` | crates/save-metadata/src/multipart.rs:76-249 | in every run from an empty table of changes to issued uploads, however they are named, the flat table is the map from uploads to numbered parts |
| `Multipart.GetMeans` | crates/save-metadata/src/multipart.rs:107-153 | reading any issued upload: invalid, not found, undecodable exactly with an undecodable nested upload, or the own and stray numbers, and exactly the parts if nothing is nested |
| `Multipart.ListMeans` | crates/save-metadata/src/multipart.rs:251-300 | the listing fails if and only if some visible upload under the prefix cannot be read; otherwise it gives exactly the visible ones, each with what reading it gives, once, in key order |
| `Multipart.PlainIsUndisturbed` | crates/save-metadata/src/multipart.rs:264-267 | where no upload is hidden none is disturbed |
| `Multipart.RequestExactly` | crates/save-metadata/src/multipart.rs:7-22 | a request is valid if and only if its key is and its upload id has 1 to 256 bytes |
| `Multipart.UploadStore.Initiate` | crates/save-metadata/src/multipart.rs:76-105 | refuses an invalid request, otherwise stores the record; that adds an upload without parts and changes nothing else |
| `Multipart.UploadStore.ScanParts` | crates/save-metadata/src/multipart.rs:131-143 | decodes what lies under the part prefix and collects it by number; one record that does not decode fails it |
| `Multipart.UploadStore.Get` | crates/save-metadata/src/multipart.rs:107-153 | invalid, not found, undecodable, or the record with what its part prefix holds, with the meaning above |
| `Multipart.UploadStore.RecordPart` | crates/save-metadata/src/multipart.rs:155-185 | records if and only if the request is valid and the upload exists; that sets this part alone |
| `Multipart.UploadStore.Abort` | crates/save-metadata/src/multipart.rs:220-249 | removes the upload's records, existing or not, and those of the uploads nested in it |
| `Multipart.UploadStore.Complete` | crates/save-metadata/src/multipart.rs:187-218 | returns what a read gives and removes the records |
| `Multipart.UploadStore.DeleteRecords` | crates/save-metadata/src/multipart.rs:229-246 | deletes the metadata key and everything under the part prefix |
| `Multipart.UploadStore.ListWithPrefix` | crates/save-metadata/src/multipart.rs:251-300 | skips every key with `:part:` in it, decodes the others and looks up their parts; one undecodable record fails the whole listing |
| `Multipart.UploadStore.List` | crates/save-metadata/src/multipart.rs:302-308 | that scan of the bucket: fails exactly with an unreadable visible upload of it, otherwise exactly its visible uploads |
| `Multipart.UploadStore.ListAll` | crates/save-metadata/src/multipart.rs:310-312 | that scan of everything: fails exactly with an unreadable visible upload, otherwise exactly the visible uploads |
| `Gc.GetActiveUploadIds` | crates/save-api/src/gc.rs:164-171 | the ids in the listing, none if it fails |
| `Gc.ActiveSeenExactly` | crates/save-api/src/gc.rs:164-171 | the listing fails if and only if some visible upload cannot be read; otherwise these are the ids of exactly the visible uploads |
| `Gc.TempDir.RunGcCycle` | crates/save-api/src/gc.rs:66-162 | does nothing if the listing or the scan of the directory fails; otherwise removes exactly the old files outside the directories of active uploads, apart from those whose removal fails, and counts both |
| `Gc.TempDir.SweepFiles` | crates/save-api/src/gc.rs:98-142 | the loop over the files, in any order |
| `Gc.KeepExactly` | crates/save-api/src/gc.rs:173-182 | a file is kept for an active upload if and only if the directory it lies in has that upload's id as its name |
| `Gc.PartFileSpared` | crates/save-api/src/gc.rs:102-116 | a part file survives a cycle if and only if its age is below the limit, counted from its last modification, or a visible upload has its id |
| `Gc.StagedFileSpared` | crates/save-api/src/gc.rs:102-116 | a staged object's temp file survives a cycle if and only if its age is below the limit, pending prepare or not |
| `PartHandlers.PartHandler.InitiateUpload` | crates/save-api/src/handlers/multipart/initiate.rs:29-55 | refuses bad names, records the upload, then makes its part directory; if that fails the upload stays recorded without one |
| `PartHandlers.PartHandler.UploadPart` | crates/save-api/src/handlers/multipart/upload_part.rs:32-113 | a part is stored if and only if names, number and upload are valid and readable, the directory is there, the body arrived whole within 5 GiB and every write went through; each refusal has its own condition; whatever fails later leaves what had been written and no new record |
| `PartHandlers.PartIsRight` | crates/save-api/src/handlers/multipart/upload_part.rs:32-113 | when the part handler gives each of its answers |
| `PartHandlers.PartHandler.AbortUpload` | crates/save-api/src/handlers/multipart/abort.rs:20-56 | refuses what cannot be read; otherwise drops the records, then the part files |
| `PartHandlers.PartHandler.CompleteUpload` | crates/save-api/src/handlers/multipart/complete.rs:32-157 | each answer has its own if-and-only-if: completed exactly if the upload is found, has parts, none is missing, and output file, storage commit, metadata write and record removal all worked, then with the joined parts; the missing part named is the smallest; the records are gone exactly on success, and the directory is swept exactly once the output file existed |
| `PartHandlers.OutcomeIsRight` | crates/save-api/src/handlers/multipart/complete.rs:52-146 | these conditions, for every table, upload and outcome of the calls |
| `PartHandlers.FlatStepMeans` | crates/save-api/src/handlers/multipart/upload_part.rs:41-113 | every step of a handler or the collector does to the flat table, the files and the directories exactly what it means for uploads and parts, whatever upload a client names in a part upload |
| `PartHandlers.TableCompletes` | crates/save-api/src/handlers/multipart/complete.rs:41-112 | end to end: after every run of the handlers and the collector, with initiations under any keys, completing a visible upload gives from the flat table and the files exactly what its history and the uploads nested in it say |
| `Assembly.ReceivePart` | crates/save-api/src/handlers/multipart/upload_part.rs:66-98 | the receive loop: bytes written, digest input and size, and which failure ended it, for every split of the body |
| `Assembly.TakeExactly` | crates/save-api/src/handlers/multipart/upload_part.rs:71-94 | the receive loop takes the whole body if and only if it is not too large and no write fails |
| `Assembly.WrittenExactly` | crates/save-api/src/handlers/multipart/upload_part.rs:71-94 | what is in the file when the loop ends, for each way of ending |
| `Assembly.WalkAscending` | crates/save-api/src/handlers/multipart/complete.rs:79-79 | the part table is walked in ascending number |
| `Assembly.CopyPart` | crates/save-api/src/handlers/multipart/complete.rs:87-104 | file, hash input and size all grow by exactly the part, for every split into reads |
| `Assembly.AssembleParts` | crates/save-api/src/handlers/multipart/complete.rs:52-112 | no parts, the first missing part, or the joined parts with their size and digest |
| `UploadRuns.StepKeepsAccount` | crates/save-api/src/handlers/multipart/upload_part.rs:62-113 | what the history of a visible upload says of its records and part files stays true across every step of anybody, the collector and clashing uploads included |
| `UploadRuns.PartFileExactly` | crates/save-api/src/handlers/multipart/upload_part.rs:62-98 | for every run since a part was stored, its file holds the recorded content if and only if the last failed attempt or failed completion that touched it since, if any, left exactly those bytes |
| `UploadRuns.CompletionExactly` | crates/save-api/src/handlers/multipart/complete.rs:52-112 | after every run, completing a visible upload cannot read it if and only if a nested upload does not decode; otherwise it gives no parts, the first lost part, or what the part files were left with, joined in ascending order of the recorded and the stray numbers |
| `UploadRuns.CompletionJoinsLastParts` | crates/save-api/src/handlers/multipart/complete.rs:74-112 | where nothing is nested and every recorded part file holds what was recorded, that is the last content of each part in ascending number, with that size and digest |
| `UploadRuns.UploadCompletes` | crates/save-api/src/handlers/multipart/complete.rs:52-112 | initiating an upload, sending its parts in any order and completing it gives the parts joined in ascending number |
| `UploadLimits.HiddenUploadLosesParts` | crates/save-api/src/gc.rs:66-118 | a cycle costs a hidden upload with old parts its completion if and only if it gets to sweep |
| `UploadLimits.FailedCompletionExactly` | crates/save-api/src/handlers/multipart/mod.rs:83-95 | after a failed completion every later completion fails, whatever anybody does until the upload is removed, if and only if the part directory was removed |
| `UploadLimits.StuckWithoutDirectory` | crates/save-api/src/handlers/multipart/upload_part.rs:62-64 | without its directory, over every run that does not remove the upload, each part upload is refused, records stay and no completion succeeds |
| `UploadRuns.FailedReuploadIsAssembled` | crates/save-api/src/handlers/multipart/upload_part.rs:62-98 | for every recorded part and every failed re-upload: completion takes the bytes it left, under the unchanged record |
| `UploadLimits.HistoryExactly` | crates/save-metadata/src/multipart.rs:131-143 | for every upload, decoder and state: completing gives the upload's own history if and only if all nested uploads decode as parts and the numbers they bring change nothing |
| `UploadLimits.NestingDecides` | crates/save-metadata/src/multipart.rs:131-143 | with nothing nested completing gives the history; if the decoder tells the records apart, or nothing is recorded, only then |
| `UploadLimits.StrangerSpoilsCompletion` | crates/save-api/src/handlers/multipart/initiate.rs:29-47 | whoever initiates an upload of a spelled-out key decides by what its metadata decode to whether the other can still be completed |
| `Cluster.ClusterManager.AddNode` | crates/save-storage/src/cluster/manager.rs:198-246 | refuses itself and unreachable peers; otherwise first health check and quorum flag, not the partition status |
| `Cluster.ClusterManager.RemoveNode` | crates/save-storage/src/cluster/manager.rs:249-271 | removes the node and refreshes both caches |
| `Cluster.ClusterManager.DiscoverPeers` | crates/save-storage/src/cluster/manager.rs:140-195 | adds reachable peers, registers the others as unknown, then refreshes the quorum flag |
| `Cluster.ClusterManager.HeartbeatNode` | crates/save-storage/src/cluster/manager.rs:427-489 | one node's health check, with the reconnect path that skips the refresh |
| `Cluster.HealthIsWhatChecksSaid` | crates/save-storage/src/cluster/manager.rs:198-489 | over every run: a node is a member exactly if it entered and has not left; available exactly if heard at its last check; Degraded exactly if that was late or unwell; Unknown exactly if only registered; its failure count is the number of checks missed in a row, in 32 bits |
| `Cluster.CachedQuorumIsSafe` | crates/save-storage/src/cluster/manager.rs:427-489 | over all runs the cached flag implies a real majority if and only if the failure threshold is at least 2 |
| `Cluster.RunKeepsSound` | crates/save-storage/src/cluster/state.rs:63-85 | in every reachable state only unreachable nodes carry failures and no node is its own peer |
| `Cluster.WritesNeedMajority` | crates/save-storage/src/cluster/state.rs:193-195 | in every reachable state writes are accepted only if more than half of the members, the node included, were heard at their last check |
| `Cluster.WritesFollowMajority` | crates/save-storage/src/cluster/manager.rs:477-489 | right after a removal, or a heartbeat that does not go to reconnect, writes are accepted if and only if a majority was heard |
| `Cluster.FormingFollowsMajority` | crates/save-storage/src/cluster/manager.rs:140-246 | while a cluster forms, right after a peer joined or peers were discovered, writes are accepted if and only if a majority was heard |
| `Cluster.RefreshIsExact` | crates/save-storage/src/cluster/manager.rs:478-484 | after a refreshing step writes are accepted if and only if there is a majority |
| `Cluster.MinorityLingers` | crates/save-storage/src/cluster/manager.rs:198-246 | over every run of joins, discoveries and reconnects a Minority verdict stays and writes are refused, however many nodes come back |
| `Cluster.MinorityExactly` | crates/save-storage/src/cluster/state.rs:158-179 | the detector says Minority if and only if the majority check fails, and Connected otherwise |
| `Cluster.RemovalIsExact` | crates/save-storage/src/cluster/manager.rs:274-290 | removal is allowed if and only if the node is unknown, unavailable, or the majority check holds afterwards |
| `Cluster.MajoritiesMeet` | crates/save-storage/src/cluster/state.rs:111-128 | two nodes with one member set that both see a majority reach a common node |
| `Cluster.NoSplitBrain` | crates/save-storage/src/cluster/state.rs:111-195 | two managers of one member set, after any runs, that both accept writes have a node available to both |
| `QueryString.Canonicalize` | crates/save-api/src/auth.rs:257-285 | returns the sorted parameters, formatted and joined |
| `QueryString.CanonicalExactly` | crates/save-api/src/auth.rs:257-285 | two queries get one canonical string if and only if both are empty or both hold the same parameters equally often |
| `QueryString.CanonicalIsIdempotent` | crates/save-api/src/auth.rs:257-285 | canonicalizing a canonical string gives it back |
| `QueryString.ReorderingIsInvisible` | crates/save-api/src/auth.rs:262-270 | reordering the `&`-separated pieces changes nothing |
| `QueryString.ParamsRoundTrip` | crates/save-api/src/auth.rs:262-284 | parsing a formatted parameter list gives it back |
| `QueryString.SortedIsUnique` | crates/save-api/src/auth.rs:272-272 | a multiset of parameters has one sorted order |
| `QueryString.PrecedesExactly` | crates/save-api/src/auth.rs:272-272 | of two parameters the one with the smaller name at the first difference comes first, then the one with the smaller value |
| `QueryString.FormatExactly` | crates/save-api/src/auth.rs:274-284 | how parameters are written and put together |
| `QueryString.ParamExactly` | crates/save-api/src/auth.rs:262-269 | a piece is cut at its first equals sign and has no value without one |

## Left out

- openraft itself: elections, membership changes and log replication. Committed log order and atomic Raft writes are taken as given.
- RocksDB, bincode, JSON, protobuf, tar and gzip: the database is an ordered map, encodings are injective, SHA-256 is an injective digest.
- Sockets, TLS, HTTP routing, XML, configuration, metrics, health endpoints, CLI and the scaling loops: I/O plumbing.
- The put handler: its storage and metadata steps come in the order of complete-multipart, which stands for every writing request in `Lifecycle`.
- `Lifecycle`: storage calls and Raft writes are atomic steps. A Raft write of a request that gave up may still land, but not after that request's own release; holder ids are never reused, so the counter's reset at restart is outside the model.
- Lock records across snapshot install: the code does not carry them over; `Replay.RestoreRefines` says what happens instead.
- `RaftLog.LogStore.GetEntries`: a bound beyond 64 bits wraps around, as in a build without overflow checks; a build with them would panic there.
- `Interleaving.QuorumPublishesAmid`: stated for others that disturb no temp object (`ReplicaRuns.CoherenceIsExact` says what happens when they do), prepares delivered once, and request ids not reused; the counters of different coordinators do not exclude the latter.
- `Interleaving.NoQuorumNoChangeAmid`: stated under the same conditions; `Interleaving.HarmlessExactly` says exactly when a prepare in place does harm.
- `Replica`: a restart, which loses the table of pending prepares but not their temp files.
- `Replica`: dropping a temp object is taken to remove its file; a directory sync that fails after the rename is modelled.
- `Client`: the retry loop's waiting times; only the number of attempts and what happened to each matter here.
- `Listing`, `Multipart`: text is compared by code point, which is the byte order of UTF-8; timestamps and content types are not stored.
- `Multipart`: upload ids are issued by the initiate handler, as UUIDs; `UploadKeys.ClashExactly` covers the key space for numeric ids too.
- `PartHandlers`: an abort or completion that names a known upload by another split of its key at the colons.
- `Multipart`: what the decoder makes of a record of another kind is a parameter, because the serialized form is not modelled.
- `Lifecycle.ReadersSeeOneVersion`: in eventual consistency mode a read takes no lock and has no such promise.
- `PartHandlers.PartHandler.UploadPart`: its writes are one step, so two uploads of one part number do not overlap.
- `Gc`: a file that something else removes between the directory listing and its own removal.
- `UploadRuns`: part uploads of one number that overlap in time.
- `Cluster`: discovery is one step; between its inserts the cached flag may be ahead of the refresh that ends it. Events and latencies are not kept.
- `Streaming`: the bounded channel between forwarder and reader appears only as polls that find nothing yet.
- Authentication beyond the canonical query string, ranges, and version 1 listings beyond their marker and page.
