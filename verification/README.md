# Verified model of a partitioned-log broker

This project models, in Dafny, the parts of the broker where durable state, concurrency and crash recovery
meet, and proves what they promise. `dafny verify dfyconfig.toml` checks everything.

## What is modelled

**Consumer-group coordinator.** `Coordinator.dfy` is the coordinator as a class with its metadata topic; lifecycle
changes take the three steps begin, persist and finish because the record is written outside the lock. Its
invariant (`CoordinatorInvariant.dfy`) ties the live groups to the records stored in the topic, and replay
(`Replay.dfy`, the separate code that runs at start-up) is proved to rebuild exactly the durable view from those
records, in any order, on any spread over partitions, and after key compaction (`MetadataTopic.dfy`). Range
assignment, fenced commits and snapshots of the replicated log are in `RangeAssignment.dfy`, `GroupState.dfy`
and `GroupSnapshot.dfy`. `Coordinator.Run` serves any sequence of requests, crashes and restarts.

**Segmented disk log.** `RecordCodec.dfy` and `Frames.dfy` are the record format, `Recovery.dfy` tail recovery,
`Index.dfy` the sparse index, and `DiskLog.dfy` the handler as a class over log, index and marker files. Its
meaning is a plain sequence of records (`SegmentStore.dfy`, `StoreChanges.dfy`): writes append, truncation drops a
suffix, compaction selects, a crash leaves a prefix, and a read is a scan of the sequence. Stale index entries
are allowed as long as no payload embeds bytes that pass for the record such an entry names. `LogRuns.dfy` puts this
together: any run of operations, crashes and restarts is a run of the plain sequence with the same answers.
`RangeInstall.dfy` and `CompactionSwap.dfy` model the multi-file protocols with a crash possible between any two file
operations.

**Replication.** `ReplicationLane.dfy` is the bounded per-partition lane as an interleaving of callers, worker and
shutdown, together with the replicas it writes to (`ReplicaSet.dfy`): their logs, how much of the cluster metadata
each has applied, the cut of an uncommitted tail when a leader epoch begins, the gap and conflict checks of an append,
new leaders, restarts of followers and the committed watermark. `LaneHistory.dfy` proves over whole histories why a task
is given up and that it is tried again otherwise, and `LaneRuns.dfy` holds runs that show where the promises end.
`Catchup.dfy` is replica catch-up between two disk logs.

**Self-contained parts.** `ReaderCache.dfy` is the reference-counted reader cache, `Saga.dfy` the saga manager
with its transaction, `HashRing.dfy` the consistent hash ring.

Outside calls become parameters: whether a publish or a save succeeds, the partition a key hashes to, the
answers of the cluster metadata, the size of a JSON document, hash values, and how far the files of a crashed
process got. SHA-256 checksums are taken as injective and renames as atomic. A leadership fence (leader, leader epoch,
lifecycle epoch) never returns once it has been replaced.

## Where the code does less than it says

- Group and topic names are joined with NUL into keys and identities. Two pairs that run together through a NUL in a topic
  name make replay refuse a history of ordinary commits. No request can do that, because topics pass `ValidateName`; only a
  direct call of the coordinator package with such a topic can. Replay is right for every history exactly if the joined forms
  of the pairs differ (`NameClash`), and so for every group name once topics are valid.
- `ValidateImportState` refuses a member with the empty name, which a direct `AddConsumer` accepts. Requests never join such a
  member, so every snapshot of a coordinator that served requests is accepted (`Coordinator.Run`).
- A comment in pkg/disk/recovery.go calls the log authoritative over a corrupt index. An index entry that points at a
  record embedded in a payload is followed all the same (`Recovery.ForgedEntryKeepsTornRecord`).
- The lane gives a task up for good when a replica answers with a fence error, although its own metadata still matches. A
  barrier behind it then succeeds with those records uncommitted (`LaneRuns.BarrierPassesRefusedTask`), or a later watermark
  covers records whose caller was told of a failure (`LaneRuns.RefusedTaskIsCommitted`). Whatever is committed is held by
  every broker of the set used all the same.
- A follower cuts its log to the committed watermark it knows of when it prepares, which may be later than the one the leader
  epoch began with. It then keeps records of an older leader where the new one has committed others
  (`LaneRuns.DivergingFollower`), and no accepted append and no catch-up makes the two agree
  (`ReplicationLane.FollowingIsDecidedByTheCut`). The cut is right for every log exactly if the known watermark is still the
  epoch's first (`ReplicaSet.CutIsSafeExactlyAtBase`).
- A restarted follower has forgotten that it prepared and cuts again. If it has not learned of the last commit yet, it loses
  acknowledged records (`LaneRuns.RestartLosesAcknowledgedRecord`); the cut keeps what was committed exactly if the known
  watermark covers it (`ReplicaSet.RepeatedCutKeepsExactly`).
- `TruncateTo` removes later segments before it cuts the target, oldest first, so a crash in between can leave a log with its
  middle missing (`LogRuns.LostMiddle`; exactly when, `DiskLog.CrashedTruncation`). It also refuses a target segment that has
  been compacted.
- The active index may outgrow its preallocated size, by one batch that alone needs more (`LogRuns.OutgrownIndex`). Reads at
  the end of the log then fail, and they do so exactly then (`DiskLog.ReadMessages`).
- A comment in sdk/saga_effects.go says the command id fences acknowledgements of older attempts. The id is the same for every
  attempt (`Saga.FenceHoldsExactlyForOneAttempt`). It can even be that of an effect of another saga, exactly if one key
  continues the other after a colon (`Saga.CommandsOfTwoSagas`).

## Model

| member | source | states |
|---|---|---|
| MetadataRecord.NulFreeTopicsAreApart | pkg/coordinator/metadata_record.go:208-217 | Topics without NUL keep all (group, topic) pairs apart, whatever the groups are called. |
| MetadataRecord.ValidRecordMeans | pkg/coordinator/metadata_record.go:140-206 | A record is accepted exactly if its names are there, epoch, revision and partition count are positive, a snapshot has offsets and none of a negative partition, and initial offsets belong to matching topics and declared partitions. |
| MetadataRecord.ValidateName | pkg/topic/metadata.go:81-103 | Accepts exactly the portable topic names. |
| MetadataRecord.PortableMatchesItself | pkg/coordinator/coordinator_offset.go:231-242 | A group registered for a portable name matches that topic only, and it has no NUL. |
| MetadataRecord.TopicMatchesMeans | pkg/coordinator/coordinator_offset.go:231-242 | A topic matches a pattern exactly if it is the pattern or falls into parts, one for each character: any text without a line feed for a star, one such character for a question mark, the character itself for any other. |
| DurableView.EnabledIsNewest | pkg/coordinator/metadata_record.go:458-558 | While the pairs written can be told apart, a record the write path may append now is newer, by epoch and revision, than every stored record of its key. |
| DurableView.AppendKeepsConsistent | pkg/coordinator/coordinator_offset.go:124-168 | While the pairs written can be told apart, appending an enabled record moves the stored records from consistent with a view to consistent with the view the write path then holds. |
| DurableView.DropKeepsConsistent | pkg/disk/compaction.go:100-214 | Dropping stored records that each have a newer record of the same key keeps the rest consistent with the same view. |
| DurableView.ApplyCommutes | pkg/coordinator/rebalancer.go:100-149 | Changes of different groups commute, so a commit may run while the lifecycle change of another group is in flight. |
| DurableView.HistorySwaps | pkg/coordinator/coordinator_offset.go:124-168 | In any history two neighbouring records of different groups, each of which could be written first, may change places: the history stays possible and leads to the same view. |
| Replay.AbsorbBatch | pkg/coordinator/metadata_record.go:375-440 | One read batch adds exactly its records to the candidates. It fails only if a record is malformed, misfiled or conflicts with another; on success all are well keyed, no two snapshots of an identity differ and the newest lifecycle record of every group is the only one of its epoch. |
| Replay.ScanPartition | pkg/coordinator/metadata_record.go:349-440 | The same for a partition read in batches: every record at or after its first offset, whatever offsets compaction removed. |
| Replay.Scan | pkg/coordinator/metadata_record.go:349-456 | The same for all partitions: on success the candidates are those of exactly the stored records, whatever their order and spread. |
| Replay.MaterializeGroups | pkg/coordinator/metadata_record.go:458-500 | The first loop registers exactly the groups whose newest lifecycle record is a registration, with all epochs. |
| Replay.AcceptsExactly | pkg/coordinator/metadata_record.go:505-558 | A snapshot is refused exactly when it is out of place among the earlier snapshots of its group and topic. |
| Replay.Materialize | pkg/coordinator/metadata_record.go:458-558 | The materialization succeeds if and only if the candidates are replayable, and then gives each topic its newest snapshot. |
| Replay.ConsistentIsClashFree | pkg/coordinator/metadata_record.go:394-416 | Records consistent with a view never conflict. |
| Replay.ConsistentIsReplayable | pkg/coordinator/metadata_record.go:458-558 | Records consistent with a view are never refused as a regression or a dropped key. |
| Replay.RebuiltIsView | pkg/coordinator/metadata_record.go:458-558 | Whatever view the stored records are consistent with, replay rebuilds exactly that view. |
| Replay.Recover | pkg/coordinator/metadata_record.go:349-558 | On success, what start-up replay rebuilds depends only on which records are stored; for records consistent with a view it succeeds and rebuilds that view: groups, epochs, offsets and revisions. |
| GroupState.ValidateBatch | pkg/coordinator/coordinator_offset.go:204-222 | A batch is allowed exactly if its topic matches, no partition occurs twice and no stored offset would regress. |
| GroupState.MergedSnapshot | pkg/coordinator/coordinator_offset.go:244-259 | The durable snapshot of a commit is the stored offsets of the topic overlaid by the batch. |
| GroupState.ChecksOwner | pkg/coordinator/coordinator.go:542-570 | The owner check passes exactly if every partition of the batch is in the member's assignment. |
| RangeAssignment.AssignRanges | pkg/coordinator/rebalancer.go:332-381 | The moving partition index hands out consecutive ranges that cover all partitions, without overlap, the first ones one longer; the k-th name gets the k-th range. |
| RangeAssignment.RebalanceRange | pkg/coordinator/rebalancer.go:332-381 | A member with k smaller names in the group owns the k-th range: with n partitions for m members it starts at k times n/m plus the smaller of k and n mod m, and has n/m partitions, one more if k is below n mod m. Each partition has exactly one owner. |
| RangeAssignment.RankIsIndex | pkg/coordinator/rebalancer.go:339-343 | In the sorted member list a name stands at its rank. |
| Sorting.StringLessIsLexicographic | pkg/coordinator/rebalancer.go:339-343 | The order of names is lexicographic: at the first difference one has ended or has the smaller character. |
| MetadataTopic.PublishAdvancesView | pkg/coordinator/metadata_record.go:279-288 | Publishing an enabled record to any partition of the topic advances the view the stored records stand for, while the pairs written can be told apart. |
| MetadataTopic.CompactionKeepsView | pkg/disk/compaction.go:100-214 | Compacting any closed part of a metadata partition, finished or interrupted after any number of messages, leaves the rest consistent with the same view. |
| MetadataTopic.KeysMean | pkg/coordinator/metadata_record.go:208-217 | Lifecycle records of one group share a key, snapshots of one group and topic do, and nothing else does, for pairs that can be told apart. |
| MetadataTopic.CompactedKeepsNewest | pkg/disk/compaction.go:206-214 | Of the rewritten messages exactly those stay whose key no later closed message has. |
| MetadataTopic.ReplayIsLegal | pkg/coordinator/metadata_record.go:458-558 | Groups rebuilt by replay satisfy the invariant of live groups. |
| CoordinatorInvariant.BeginKeeps | pkg/coordinator/rebalancer.go:13-99 | Announcing a lifecycle change keeps the coordinator invariant. |
| CoordinatorInvariant.PersistKeeps | pkg/coordinator/rebalancer.go:100-118 | Writing the announced record keeps the invariant while commits of other groups go on. |
| CoordinatorInvariant.FinishKeeps | pkg/coordinator/rebalancer.go:119-149 | Finishing a written lifecycle change makes the live state equal the durable view. |
| CoordinatorInvariant.RegroupKeeps | pkg/coordinator/rebalancer.go:219-381 | A new membership keeps the invariant and changes nothing durable. |
| CoordinatorInvariant.CommittedOffsets | pkg/coordinator/coordinator_offset.go:124-168 | After a commit every offset of the batch is stored, and every other partition and topic holds what it held. |
| CoordinatorInvariant.CommitAgainGoesThrough | pkg/coordinator/coordinator_offset.go:204-222 | Committing stored offsets again always goes through, whatever the metadata topic would answer, and changes nothing. |
| CoordinatorInvariant.PortableIsApart | pkg/topic/metadata.go:81-103 | If every registered topic passed ValidateName, the pairs offsets were written for can be told apart, whatever the groups are called. |
| CoordinatorInvariant.DurableCommit | pkg/coordinator/coordinator_offset.go:124-168 | Writing the merged snapshot and then storing it keeps live and durable offsets in step. |
| CoordinatorInvariant.ApplyKeeps | pkg/coordinator/coordinator_offset.go:172-202 | Applying a replicated commit keeps the invariant. |
| CoordinatorInvariant.CompactKeeps | pkg/disk/compaction.go:100-214 | A compaction pass over a metadata partition keeps the coordinator invariant. |
| CoordinatorInvariant.ScaleKeeps | pkg/coordinator/coordinator_offset.go:299-322 | Adding a metadata partition keeps the invariant. |
| CoordinatorInvariant.Boot | pkg/coordinator/coordinator.go:163-230 | Booting from the metadata topic always succeeds for pairs that can be told apart and gives the durable groups without members. |
| Coordinator.Coordinator.constructor | pkg/coordinator/coordinator.go:153-230 | A new coordinator with an empty metadata topic satisfies the invariant. |
| Coordinator.Coordinator.BeginRegister | pkg/coordinator/rebalancer.go:13-99 | Decides a registration: a write starts exactly for a new name with a positive count and an epoch left; a repeated registration must agree. |
| Coordinator.Coordinator.BeginDelete | pkg/coordinator/rebalancer.go:160-190 | Decides a deletion: a write starts exactly for a group without members, with the next epoch. |
| Coordinator.Coordinator.Publish | pkg/coordinator/coordinator_offset.go:261-272 | A standalone publish appends the record or fails without effect. |
| Coordinator.Coordinator.PersistLifecycle | pkg/coordinator/rebalancer.go:100-118 | The durable write of the lifecycle change in flight. |
| Coordinator.Coordinator.FinishLifecycle | pkg/coordinator/rebalancer.go:119-149 | A lifecycle change becomes visible if and only if its record was written, and the live view then equals the durable one; a new group has no members and generation zero, and no other group changes. |
| Coordinator.Coordinator.Regroup | pkg/coordinator/rebalancer.go:332-381 | A membership change gives every member the range of its rank and raises the generation by one. |
| Coordinator.Coordinator.AddConsumer | pkg/coordinator/rebalancer.go:219-246 | A join succeeds exactly for a registered group with no lifecycle change in flight and returns the consecutive partitions that the member's rank among all names gives it. |
| Coordinator.Coordinator.RemoveConsumer | pkg/coordinator/rebalancer.go:248-261 | A leave removes exactly a present member, one generation later. |
| Coordinator.Coordinator.RemoveConsumerForGeneration | pkg/coordinator/rebalancer.go:263-281 | A fenced leave succeeds exactly for a member of the current generation; a negative generation skips that check. |
| Coordinator.Coordinator.ExpireConsumers | pkg/coordinator/rebalancer.go:283-308 | Expiry removes all listed members in one generation change, or none if the generation moved. |
| Coordinator.Coordinator.CommitDurably | pkg/coordinator/coordinator_offset.go:124-168 | The standalone commit stores offsets exactly if nothing changes or its snapshot record was written. |
| Coordinator.Coordinator.CommitLocally | pkg/coordinator/coordinator_offset.go:172-202 | The distributed commit stores exactly the batch. |
| Coordinator.Coordinator.CommitBatch | pkg/coordinator/coordinator_offset.go:124-168 | A batch commit goes through exactly if it is allowed, in range and, when it changes something, durably written; all or nothing. |
| Coordinator.Coordinator.CommitOffset | pkg/coordinator/coordinator_offset.go:16-74 | The single commit goes through exactly if the group exists with no lifecycle change in flight and the batch commit would. |
| Coordinator.Coordinator.CommitOffsetsBulk | pkg/coordinator/coordinator_offset.go:76-97 | The bulk commit, with the empty batch accepted unchanged. |
| Coordinator.Coordinator.ValidateAndCommitOffsetsBulk | pkg/coordinator/coordinator_offset.go:99-116 | A fenced batch commits exactly if its member owns all its partitions in the given generation and the commit itself goes through. |
| Coordinator.Coordinator.ValidateAndCommit | pkg/coordinator/coordinator_offset.go:324-338 | The fenced single commit, by the same condition. |
| Coordinator.Coordinator.ApplyFencedOffsetUpdate | pkg/coordinator/coordinator_offset.go:172-202 | The replicated commit is fenced when applied: it stores offsets exactly for the current owner and an allowed batch. |
| Coordinator.Coordinator.OneCommitter | pkg/coordinator/coordinator.go:542-570 | At any time one member only passes the owner check for a partition, whatever generations are claimed. |
| Coordinator.Coordinator.CompactPartition | pkg/disk/compaction.go:41-172 | A compaction pass over a metadata partition, finished or interrupted, keeps of what it rewrote exactly the messages whose key no later closed message has, and leaves what must survive a crash unchanged. |
| Coordinator.Coordinator.ScaleOffsetTopic | pkg/coordinator/coordinator_offset.go:299-322 | The metadata topic has at least four partitions, and one for every ten groups up to fifty; it grows no further than that needs, never shrinks, and keeps what it holds. |
| Coordinator.Coordinator.Restart | pkg/coordinator/coordinator.go:163-230 | After a crash at any moment, with topics that passed ValidateName, start-up succeeds whatever the groups are called and brings back exactly the durable groups, epochs, offsets and revisions. |
| Coordinator.Coordinator.Reboot | pkg/coordinator/coordinator.go:163-230 | Start-up on the files alone: success installs the view they stand for, failure changes nothing. |
| Coordinator.Coordinator.CrashInCommits | pkg/coordinator/coordinator_offset.go:124-168 | A crash in the middle of any number of commits of different groups, their records in the topic and none of their offsets stored in memory: start-up finds all of them made, in whatever order the records came. |
| Coordinator.Coordinator.ExportState | pkg/coordinator/coordinator.go:613-659 | Importing what was exported gives the exported state back, epochs of deleted groups included. |
| Coordinator.Coordinator.ImportState | pkg/coordinator/coordinator.go:661-712 | An import replaces the whole state exactly if every snapshot is valid, else nothing; importing an export keeps the invariant. |
| Coordinator.Coordinator.ServeLifecycle | pkg/coordinator/rebalancer.go:13-216 | Registering, deleting, writing and finishing keep the invariant, valid topic names and named members, and regress nothing. |
| Coordinator.Coordinator.ServeMembers | pkg/cluster/replication/fsm/fsm_command.go:714-760 | Joins, which need a member name, leaves and expiry do the same. |
| Coordinator.Coordinator.ServeCommits | pkg/coordinator/coordinator_offset.go:76-202 | So do commits, fenced or not, successful or not. |
| Coordinator.Coordinator.ServeStorage | pkg/coordinator/coordinator.go:163-230 | So do compaction, growth of the topic, restoring an own snapshot and restarts, which keep offsets and epochs. |
| Coordinator.Coordinator.RestoreOwnSnapshot | pkg/coordinator/coordinator.go:613-802 | The snapshot of a distributed coordinator after any run of requests is accepted, and restoring it changes nothing. |
| Coordinator.Coordinator.Run | pkg/coordinator/coordinator_offset.go:204-222 | Over every run of requests, restarts included, no offset of a registration falls or vanishes and epochs never fall; without a restart one generation has one membership; a snapshot taken at the end is accepted. |
| Coordinator.NamelessJoinIsRefused | pkg/coordinator/rebalancer.go:219-246 | A direct call may join a member without a name, and the snapshot is then refused. |
| GroupSnapshot.ImportUndoesExport | pkg/coordinator/coordinator.go:613-712 | Import undoes export for every live state. |
| GroupSnapshot.ValidateImportState | pkg/coordinator/coordinator.go:714-802 | Validation accepts exactly the importable snapshots. |
| GroupSnapshot.ExportAcceptedExactly | pkg/coordinator/coordinator.go:714-802 | The export of a live state is accepted if and only if no member has the empty name. |
| NameClash.HistoryIsConsistent | pkg/coordinator/metadata_record.go:208-217 | Every history of writes over pairs that can be told apart is consistent with the view it leads to. |
| NameClash.ClashingHistoryIsRefused | pkg/coordinator/metadata_record.go:394-416 | For any two different pairs of one joined form, replay refuses the records of two ordinary commits in every order. |
| NameClash.ConsistentIsReplayed | pkg/coordinator/metadata_record.go:458-558 | Records consistent with a view are replayed to it. |
| NameClash.ApartIsExact | pkg/coordinator/metadata_record.go:208-217 | Replay rebuilds the outcome of every history over a set of (group, topic) pairs if and only if their joined forms differ. |
| NameClash.PortablePairsAreRecovered | pkg/topic/metadata.go:81-103 | For topics that pass ValidateName it always does, whatever the groups are called. |
| Compaction.ScanLatest | pkg/disk/compaction.go:100-117 | The first scan finds for every key and producer in use the offset of its last record. |
| Compaction.RemovesExactlySuperseded | pkg/disk/compaction.go:206-214 | A record is removed exactly if a later closed record has its key and, when it has a producer, one has its producer. |
| Compaction.KeepsLatest | pkg/disk/compaction.go:100-214 | Over the whole log a pass keeps every unkeyed or transactional record, the last value of every key and the last record of every producer. |
| Compaction.RemovedHasSuccessor | pkg/disk/compaction.go:206-214 | Every removed record leaves a later record of its key behind. |
| Compaction.SecondPassRemovesNothing | pkg/disk/compaction.go:100-214 | A second pass over the same closed segments removes nothing. |
| Fields.ReadValue | util/serialize.go:479-509 | Reading a field gives the unique value encoded at the cursor, or fails exactly if no value is. |
| RecordCodec.SerializeDiskMessage | util/serialize.go:153-328 | A message is accepted exactly if partition and epoch are not negative, the payload is below 4 GiB and every other text below 64 KiB; the bytes are its encoding, as long as the estimate. |
| RecordCodec.DeserializeDiskMessage | util/serialize.go:330-477 | Bytes are accepted exactly if they encode a message, and re-encoding the result gives them back. |
| RecordCodec.EncodeInjective | util/serialize.go:160-328 | Different messages have different bytes. |
| Frames.FrameReadsOneWay | pkg/disk/flush_common.go:237-244 | A length-prefixed record reads the same whatever follows it. |
| Frames.ReadFrame | pkg/disk/recovery.go:97-130 | Reading at a position finds the end, a partial record, a malformed one, or the record that starts there. |
| Index.LastUsableIndexEntry | pkg/disk/index.go:186-226 | The backward scan returns the last entry that is not padding and points into the log. |
| Index.IndexEntryMatchesRecord | pkg/disk/recovery.go:138-170 | An entry passes exactly if a record with its offset starts at its position. |
| Index.MatchedRecord | pkg/disk/recovery.go:138-170 | An entry that passes at the first byte of a record names that record. |
| Index.IndexValidEntries | pkg/disk/index.go:413-437 | The longest prefix of increasing non-zero entries. |
| Index.ValidIndexPrefix | pkg/disk/index.go:102-134 | The longest such prefix within the capacity and inside the log, with its last position. |
| Index.FindIndexEntry | pkg/disk/index.go:369-411 | The bisection returns the last entry not above the offset. It fails only if entries lie past the mapped part; for an offset at or above all entries exactly then, and for every offset once the middle entry does. |
| Recovery.ScanSegmentTail | pkg/disk/recovery.go:75-136 | The scan accepts exactly bytes that are whole contiguous records followed by nothing or part of one record, and says where they end. |
| Recovery.StartDoesNotMatter | pkg/disk/recovery.go:44-58 | Scanning from any record an honest index names ends as scanning from byte zero does. |
| Recovery.CutIsTail | pkg/disk/recovery.go:75-136 | A segment cut at any byte is its whole records and, off a record boundary, a partial one. |
| Recovery.RecoverActiveSegment | pkg/disk/recovery.go:30-73 | For a segment cut at any byte, recovery keeps exactly the whole records, sets the next offset to base plus their count, and strict mode rejects exactly the cuts inside a record. |
| Recovery.ForgedEntryKeepsTornRecord | pkg/disk/recovery.go:44-58 | Where a payload embeds a record, an index entry pointing at it makes recovery keep a torn record: the condition on index entries is needed. |
| LogReader.SelectConcat | pkg/disk/handler.go:461-541 | Selecting from a concatenation continues where the first part left off. |
| LogReader.ReadMessagesFromPosition | pkg/disk/handler.go:552-639 | From the first byte of any record of a sound segment, the read returns the first records at or after the target offset, skipping an allowed torn tail; on any other bytes it fails or the orderly records before the flaw were enough. |
| SegmentStore.EntryIsReadable | pkg/disk/index.go:314-361 | A stale index entry that passes the record check never skips a wanted record. |
| SegmentStore.FindOffsetPosition | pkg/disk/index.go:314-361 | The position found skips only records below the offset. It fails only if the index outgrew its mapping; for an offset at or above all entries exactly then, and for every offset once the middle entry lies outside. |
| SegmentStore.SkipSegments | pkg/disk/index.go:278-312 | Earlier segments hold nothing at or after the offset. |
| StoreChanges.AppendKeeps | pkg/disk/flush_common.go:217-246 | Appending a record, with or without an index entry, keeps the files meaning the log plus that record. |
| StoreChanges.RotateKeeps | pkg/disk/flush_common.go:404-469 | Rolling keeps the records. |
| StoreChanges.TruncateKeeps | pkg/disk/truncate.go:18-148 | Cutting a segment without gaps and removing the later ones drops exactly the records at or after the cut. |
| StoreChanges.ReplaceKeeps | pkg/disk/compaction.go:276-432 | A closed segment may be replaced by any selection of its records in order. |
| StoreChanges.TrueIndexSurvivesCut | pkg/disk/recovery.go:44-58 | What a crash leaves of the writer's index cannot mislead recovery. |
| StoreChanges.ReopenKeeps | pkg/disk/handler.go:193-310 | Reopening with a prefix of the active records keeps exactly those. |
| StoreChanges.RangeKeeps | pkg/disk/compacted_replication.go:37-93 | An installed compacted range keeps the files meaning the log plus the range. |
| SegmentCompaction.ScanCompactionSegment | pkg/disk/compaction.go:216-274 | Succeeds exactly on whole records in an allowed order, and returns them with their bytes. |
| SegmentCompaction.RemovableBytes | pkg/disk/compaction.go:119-136 | Removable bytes are exactly the difference to the rewritten log, and zero exactly if nothing is removed. |
| SegmentCompaction.RewriteSegment | pkg/disk/compaction.go:315-346 | The rewritten log is byte for byte the survivors; every fresh index entry names one of them, entries are at least an interval apart, and no record starts an interval or more after the last entry before it. |
| SegmentCompaction.KeptIsSound | pkg/disk/compaction.go:324-343 | Survivors keep their offsets and order. |
| SegmentCompaction.StaysUnlessSuperseded | pkg/disk/compaction.go:187-214 | By the fields of a record: it stays exactly if it has no key, has a transaction or control field, is the last ordinary record of its key, or the last of its producer. |
| SegmentCompaction.SurvivorsStay | pkg/disk/compaction.go:187-214 | What a rewrite leaves is exactly what must stay, in order. |
| SegmentCompaction.RewriteShrinks | pkg/disk/compaction.go:347-349 | A rewrite that removes a record makes the log shorter. |
| DiskLog.SpacedFew | pkg/disk/flush_common.go:204-206 | Positions an interval apart inside a batch are at most its size divided by the interval, plus one. |
| DiskLog.FindTruncatePosition | pkg/disk/truncate.go:150-186 | On any bytes, success means whole records below the cut up to the position and a record at or after it, or the end, there; on a sound segment it always succeeds. |
| DiskLog.ReopenSame | pkg/disk/index.go:102-134 | Without a crash, reopening finds the whole index prefix again. |
| DiskLog.ValidateCompactedReplicaRange | pkg/disk/compacted_replication.go:95-110 | Accepts exactly non-empty ranges with strictly increasing offsets inside. |
| DiskLog.StageRange | pkg/disk/compacted_replication.go:154-192 | The staged log holds exactly the batch with an index spaced by the interval, or staging fails exactly if a record cannot be stored. |
| DiskLog.DiskLog.constructor | pkg/disk/handler.go:165-310 | A new handler holds no records, in one segment at offset zero with an empty index. |
| DiskLog.DiskLog.RotateSegment | pkg/disk/flush_common.go:404-469 | Closes the active segment unless it is empty; the records stay and the new index is empty. |
| DiskLog.DiskLog.AppendRecord | pkg/disk/flush_common.go:217-246 | Adds one record and, exactly when the interval is reached, the entry for its first byte; no record starts an interval after the last entry before it. |
| DiskLog.DiskLog.WriteFrames | pkg/disk/flush_common.go:215-276 | Adds the batch and at most size over interval plus one index entries, and keeps their spread. |
| DiskLog.DiskLog.WriteBatch | pkg/disk/flush_common.go:156-281 | A batch is appended exactly if every message can be stored; it rolls exactly if the bytes exceed the segment or the entries it might need exceed the index, and the index outgrows its size only if the batch alone would. Segments are only added. |
| DiskLog.DiskLog.WriteDirect | pkg/disk/flush_common.go:284-401 | The single write, which rolls exactly if the record or an index entry due for it does not fit, and never lets the index outgrow its size. |
| DiskLog.DiskLog.FindSegmentForOffset | pkg/disk/index.go:278-312 | The segment that covers an offset, exactly for offsets between the first base and the end; the active one exactly from its base on. |
| DiskLog.DiskLog.FindPosition | pkg/disk/index.go:314-361 | A start position in that segment that skips nothing wanted; always in a closed segment, and past the last entry of the active one exactly if its index fits. |
| DiskLog.DiskLog.ReadFrom | pkg/disk/handler.go:458-541 | Reading on over the segments gives the first records at or after the offset. |
| DiskLog.DiskLog.ReadMessages | pkg/disk/handler.go:430-549 | The read returns exactly the first max retained records at or after the offset. It succeeds for every covered offset while the active index fits, for offsets in closed segments always, and at the end exactly if the index fits. |
| DiskLog.DiskLog.TruncateTo | pkg/disk/truncate.go:18-148 | Drops exactly the offsets at or above the cut; refused exactly with active readers, outside the log, or when the segment to cut is compacted. Segments are only removed from the end, and an index that fits goes on to fit. |
| DiskLog.DiskLog.CutSegment | pkg/disk/truncate.go:70-147 | The cut itself: exactly the records at or above it are gone, and with them the later segments. |
| DiskLog.CrashedTruncation | pkg/disk/truncate.go:93-131 | A crash after k of the later segments were removed leaves a prefix of the log if and only if none of the removed segments or none of those still there holds a record. |
| DiskLog.DiskLog.Reopen | pkg/disk/handler.go:193-310 | A restart that finds any prefix of the active files brings back exactly the whole records in it, with an index that fits; with whole files it changes nothing, and strict mode refuses exactly a torn record and then changes nothing. |
| DiskLog.DiskLog.CompactClosedSegment | pkg/disk/compaction.go:276-432 | Replaces one closed segment by exactly the records that must stay by their fields; leaves everything as it was when readers appear or marker or log cannot be replaced; and keeps the old index when only that cannot be replaced. |
| DiskLog.DiskLog.Evaluate | pkg/disk/compaction.go:119-136 | The removable bytes per segment and in total. |
| DiskLog.DiskLog.EnforceCompaction | pkg/disk/compaction.go:41-172 | A pass is skipped exactly if it is disabled, readers are active or too little is removable, by the given ratio or one half if that is not between zero and one. A completed pass leaves of the closed records exactly those without a key, with a transaction or control field, last of their key among the ordinary ones or last of their producer; an interrupted one has done so for a first part of the segments. Active segment, bases and active index stay. |
| DiskLog.DiskLog.WriteCompactedReplicaRange | pkg/disk/compacted_replication.go:37-93 | A range is installed exactly if it is valid and starts at the end; the end moves to its end, records keep their offsets, and an index that fits goes on to fit. |
| LogRuns.DoesStaysKnown | pkg/disk/compaction.go:366-432 | No operation brings in messages beyond those written, so a condition on the messages of a run holds for its log throughout. |
| LogRuns.ServeWrite | pkg/disk/flush_common.go:156-401 | A write to the log is a write to the plain sequence with the same answer, and keeps the index within its size. |
| LogRuns.ServeCompact | pkg/disk/compaction.go:41-172 | A pass, complete or interrupted, with an index file left behind or not, leaves of a first part of the sequence exactly the records that must stay by their fields. |
| LogRuns.ServeRest | pkg/disk/handler.go:193-549 | So with rolling, truncation, range installation, a crash and restart, and reads. |
| LogRuns.Serve | pkg/disk/handler.go:165-549 | Every operation on the log does to the plain sequence what it says there, with the same answer. |
| LogRuns.Run | pkg/disk/handler.go:165-549 | Refinement over every run: whatever is written, rolled, truncated, compacted, installed, crashed and restarted, the log goes through the states of a plain sequence of records, and every read of a covered offset succeeds with the first records at or after it. Asked for is only that no batch alone outgrows an index file and, if an old index file may stay behind a compaction, that no payload embeds bytes that pass for a record. |
| LogRuns.OutgrownIndex | pkg/disk/index.go:369-411 | For every size of the index files, a run after which a read at the end fails: one batch with more records than entries fit. |
| LogRuns.LostMiddle | pkg/disk/truncate.go:93-131 | A run after which a truncation that crashes after one removal leaves the first and the third of three records. |
| CompactionSwap.SwapKeeps | pkg/disk/compaction.go:366-432 | Every step of replacing marker, log and index keeps the marker invariant. |
| CompactionSwap.RestartKeeps | pkg/disk/compaction.go:462-519 | So does every step of loading markers. |
| CompactionSwap.GapsExactlyIfCompacted | pkg/disk/compaction.go:366-519 | At every crash point of every run, a restart allows offset gaps exactly if the log file is a compacted one, over any number of compactions. |
| RangeInstall.StagingKeeps | pkg/disk/compacted_replication.go:112-221 | Staging never changes what the partition reads as. |
| RangeInstall.AchievedIsInstalled | pkg/disk/compacted_replication.go:298-332 | Once every completion step is done the partition reads as the one with the range in it. |
| RangeInstall.CompletionKeeps | pkg/disk/compacted_replication.go:298-391 | Every completion step, live or in recovery, keeps the install recoverable and never fails its validation. |
| RangeInstall.LoadKeeps | pkg/disk/handler.go:174-188 | Dropping markers that do not match their log changes nothing readable. |
| RangeInstall.StepKeeps | pkg/disk/compacted_replication.go:112-391 | Every step and every crash keeps the install invariant, and a placed manifest is never undone. |
| RangeInstall.AllOrNothing | pkg/disk/compacted_replication.go:112-391 | At every point of every run with any number of crashes: before the manifest is in place the partition reads as before; afterwards, whenever it is ready, it reads with the range, its gap marker and an empty tail. |
| RangeInstall.RecoveryAdvances | pkg/disk/compacted_replication.go:280-332 | Every recovery step reaches a later stage or removes a file. |
| RangeInstall.RecoveryGoesOn | pkg/disk/compacted_replication.go:280-391 | Recovery is never stuck. |
| RangeInstall.RecoveryEnds | pkg/disk/compacted_replication.go:280-391 | From any crash point recovery left alone ends with the whole range or without it. |
| ReplicaSet.AcceptedHolds | pkg/topic/partition.go:524-577 | A follower that takes a range holds all of its records afterwards, content for content, and loses nothing. |
| ReplicaSet.AcceptsExactly | pkg/topic/partition.go:524-577 | Under its fence a replica takes a range exactly if its log can be continued, by records of the range only, to one that holds it: no gap and no conflict. |
| ReplicaSet.ChangeKeepsPinned | pkg/controller/cluster_handler.go:573-631 | Whatever leaders, catch-up, restarts and cuts of uncommitted tails come, a replica keeps what it held below a watermark committed under a fence it took part in, unless a restart made it cut again for that fence. |
| ReplicaSet.ChangeKeepsTentative | pkg/controller/cluster_handler.go:573-631 | An uncommitted range stays on a replica while its fence lasts there, with the same exception. |
| ReplicaSet.CommitPins | pkg/cluster/replication/fsm/fsm_command.go:615-670 | A commit under the current fence makes it permanent on every replica that was not cut twice. |
| ReplicaSet.RepeatedCutKeepsExactly | pkg/controller/cluster_handler.go:618-631 | A cut keeps a committed log exactly if the replica has learned of a watermark that covers it; a second cut for one fence is told from the first. |
| ReplicaSet.CutDecidesAgreement | pkg/controller/cluster_handler.go:573-631 | A follower that agrees with its leader below the watermark the epoch began with agrees after its cut if and only if the records it keeps above that watermark are the leader's. |
| ReplicaSet.CutIsSafeExactlyAtBase | pkg/controller/cluster_handler.go:618-631 | What a broker can check before it prepares: the cut is right for every such log if and only if the watermark it knows of is still the one the epoch began with. |
| ReplicaSet.AcceptKeepsAgreement | pkg/topic/partition.go:524-577 | An accepted range makes no difference to whether a follower agrees with its leader. |
| ReplicationLane.SlotsKept | pkg/controller/replication_queue.go:128-198 | Every event keeps the slot account and the shutdown order. |
| ReplicationLane.TasksKept | pkg/controller/produce_handler.go:258-358 | Every event keeps: tasks are queued in the order of their offsets and fences, and the leader holds what it has queued while the fence lasts. |
| ReplicationLane.OrderKept | pkg/controller/replication_queue.go:252-311 | Every event keeps: all earlier tasks of the fence of a commit or a good barrier were committed or given up on a refusal. |
| ReplicationLane.CommitsKept | pkg/controller/replication_queue.go:266-292 | Every event keeps what each commit stands for on the brokers it was replicated to. |
| ReplicationLane.AcksKept | pkg/controller/replication_queue.go:252-292 | Every event keeps the calls that precede a good answer. |
| ReplicationLane.SlotsAreAccountedFor | pkg/controller/replication_queue.go:128-181 | In every interleaving held slots are open reservations plus queued tasks plus the one in process, within capacity, so a reserved submit never blocks. |
| ReplicationLane.NewHasRoom | pkg/controller/replication_queue.go:111-145 | A lane of any configured capacity has room for a first caller. |
| ReplicationLane.CloseLeavesNothing | pkg/controller/replication_queue.go:183-224 | Once close returns nothing is queued or in process and every waiting caller has a result. |
| ReplicationLane.CommittedIsHeld | pkg/controller/replication_queue.go:252-292 | At every point of every run, every broker of the set a watermark was committed with holds a record at every offset below it, the committed task's own among them, and what it held there then: whatever tasks were dropped, brokers refused, leaders followed or brokers restarted, except on a broker whose restart made it cut again for a fence it had cut for. |
| ReplicationLane.WatermarkCutsBetweenTasks | pkg/controller/replication_queue.go:252-311 | A committed watermark has every other task of its fence wholly below or wholly above it, in submission order; those below were committed or given up on a refusal. |
| ReplicationLane.BarrierMeansCommitted | pkg/controller/replication_queue.go:261-265 | A good barrier means every earlier task of its fence is below a watermark committed before it, if and only if not all tasks from that one on were refused. |
| ReplicationLane.AckMeansReplicated | pkg/controller/replication_queue.go:252-292 | An acks=all success was preceded, in order and with no failure between, by a matching snapshot, a replication to exactly its in-sync set, a matching snapshot, the commit and a matching snapshot; and every broker of the set that was not cut twice for one fence holds its records for good. |
| ReplicationLane.AgreementIsDecidedAtTheStart | pkg/controller/cluster_handler.go:573-631 | While a follower stays with a leader, its log is a prefix of the leader's at any point exactly if it was at the start. |
| ReplicationLane.AgreeingCopyIsTheLeaders | pkg/controller/replication_queue.go:266-292 | What an agreeing broker held at a commit is the leader's log below the watermark. |
| ReplicationLane.FollowingIsDecidedByTheCut | pkg/controller/cluster_handler.go:573-631 | At any point of the time a follower stays with a leader it agrees exactly if the records its cut kept above the epoch's first watermark were the leader's. |
| ReplicationLane.CutAtBaseFollowsForGood | pkg/controller/cluster_handler.go:618-631 | A follower that prepares while it knows of no later watermark than the epoch's first agrees throughout, and what it held at any commit is the leader's log below the watermark. |
| LaneHistory.GivenUpForItsFence | pkg/controller/replication_queue.go:252-322 | Over every run: if the worker is done with records that are not committed and the lane was not cancelled, then earlier, while it was at them, the leader, a broker they were sent to or the cluster had another fence. No timeout or failed call costs a task its records. |
| LaneHistory.BarrierPassesForAFence | pkg/controller/replication_queue.go:261-265 | So a good barrier passes uncommitted records of its own fence only if another fence was met while they were tried. |
| LaneHistory.FailedTaskIsTriedAgain | pkg/controller/replication_queue.go:298-321 | After a failure that is none of the fence, report and back-off bring the worker to the top of its loop with the same task; nothing is refused, and a waiting caller has been told of the failure. |
| LaneHistory.FencedTaskEnds | pkg/controller/replication_queue.go:298-311 | After a failure of the fence the worker is done with it and a waiting caller has been told. |
| LaneHistory.FailedTaskCanCommit | pkg/controller/replication_queue.go:252-322 | From any state in which an attempt has failed for another reason there is a continuation that commits its records, as long as leader and cluster are at its fence and the brokers it needs would take it. |
| LaneRuns.BarrierPassesRefusedTask | pkg/cluster/controller/controller.go:363-376 | A reachable run: a follower knows of a new leader before the old one does and refuses a task, and the barrier of the producer's second try succeeds with nothing committed. |
| LaneRuns.RefusedTaskIsCommitted | pkg/controller/replication_queue.go:324-336 | A reachable run: a follower that has not heard of the new leader refuses a task, the in-sync set shrinks, and a later watermark covers the records whose caller was told of a failure. |
| LaneRuns.DivergingFollower | pkg/controller/cluster_handler.go:618-631 | A reachable run: a follower holds an uncommitted record of an older leader, prepares after the new leader has committed another in its place, and from then on differs from it below the watermark. |
| LaneRuns.RestartLosesAcknowledgedRecord | pkg/controller/cluster_handler.go:618-631 | A reachable run: a follower restarts before it learns of a commit, cuts its log again at the next request, and an acknowledged record is gone from it. |
| Catchup.BetweenJoin | pkg/controller/replica_catchup.go:60-90 | Adjacent offset ranges of a log join. |
| Catchup.BoundedRead | pkg/cluster/replication/fsm/isr_catchup.go:384-417 | A bounded read below a watermark is a whole range: it ends at the watermark, or after its last record when it is full. |
| Catchup.PresentRange | pkg/cluster/replication/fsm/isr_catchup.go:344-366 | A bounded read of a log with all its offsets has no gap and is not empty. |
| Catchup.ReadCommittedLogRange | pkg/cluster/replication/fsm/isr_catchup.go:384-417 | The leader reads exactly that. |
| Catchup.FetchReplicaCatchup | pkg/cluster/replication/fsm/isr_catchup.go:303-379 | The answer is exactly the retained records of its range, marked compacted exactly if it has a gap; it succeeds for a range with all its offsets, and for any range of a compacted topic. |
| Catchup.HalfIsFaithful | pkg/cluster/server.go:203-208 | Cutting a batch at the first record left out keeps it exact. |
| Catchup.FitReplicaCatchupBatchToLimit | pkg/cluster/server.go:192-210 | The fitted batch fits, never skips an unsent record, is no shorter than half of a first part that was too large, and fails only if a first part of at most one record does not fit. |
| Catchup.CheckOffsets | pkg/controller/replica_catchup.go:70-80 | The offset loop passes exactly orderly batches. |
| Catchup.Replica.constructor | pkg/topic/partition.go:1087-1118 | A replica starts without a watermark. |
| Catchup.Replica.ApplyReplicaHWM | pkg/topic/partition.go:1108-1118 | The watermark never falls and never passes the log end. |
| Catchup.Replica.ApplyReplicaCatchup | pkg/controller/replica_catchup.go:15-109 | An applied batch appends exactly its records and moves the end; the watermark follows only when the whole committed range is present; what is not applicable changes nothing. |
| Catchup.FaithfulIsOrderly | pkg/controller/replica_catchup.go:60-80 | No honest batch is refused for its range or order. |
| Catchup.Round | pkg/cluster/controller/replica_catchup.go:64-82 | One round moves the replica's end and leaves it with exactly the leader's records below it. |
| Catchup.Produce | pkg/disk/flush_common.go:156-281 | A leader's append makes no difference below the replica's end. |
| Catchup.CatchUp | pkg/cluster/controller/replica_catchup.go:59-84 | While the leader goes on appending, the replica holds exactly the leader's records below its end after every round, and at the end has the watermark; if nothing refuses it gets there, whether or not the topic is compacted. |
| ReaderCache.LeasedIsOpen | pkg/disk/segment_reader_cache.go:54-91 | A leased reader is not closed. |
| ReaderCache.NothingLeftOpen | pkg/disk/segment_reader_cache.go:164-222 | After close and the last lease every reader ever opened has been closed exactly once. |
| ReaderCache.FindOldestIdle | pkg/disk/segment_reader_cache.go:93-105 | The least recently used entry without leases. |
| ReaderCache.OldestIsLeastRecent | pkg/disk/segment_reader_cache.go:54-105 | The idle entry with the oldest clock reading is the one whose last lease was granted first. |
| ReaderCache.ReaderCache.Acquire | pkg/disk/segment_reader_cache.go:54-91 | A cached reader is shared; a new one is cached exactly if there is room or an idle entry to evict; a closed cache grants nothing. The granted entry becomes the one used last, every other stays as it was, and only the idle entry whose last grant is earliest in the history of grants may go. |
| ReaderCache.ReaderCache.EvictOldestIdle | pkg/disk/segment_reader_cache.go:93-110 | Evicts and closes the idle reader whose last grant is the earliest, or nothing if all are leased. |
| ReaderCache.ReaderCache.CloseLease | pkg/disk/segment_reader_cache.go:112-124 | Ending a lease twice is harmless, and the last lease of a closed cache closes the reader. |
| ReaderCache.ReaderCache.Invalidate | pkg/disk/segment_reader_cache.go:126-141 | Drops a segment's reader exactly if nobody uses it. |
| ReaderCache.ReaderCache.InvalidateAll | pkg/disk/segment_reader_cache.go:143-162 | Drops all readers exactly if nobody uses any. |
| ReaderCache.ReaderCache.Close | pkg/disk/segment_reader_cache.go:164-186 | Keeps only readers in use, as stale. |
| ReaderCache.ReaderCache.Run | pkg/disk/segment_reader_cache.go:54-186 | Over every run of calls, what leaves the cache for another reader is the idle entry whose last lease was granted first, and nothing leased leaves before it is given back. |
| ReaderCache.UsedAgainStays | pkg/disk/segment_reader_cache.go:54-110 | With room for two: of two segments used in turn and the first again, a third takes the place of the second. |
| Saga.AttemptsAreSends | sdk/saga.go:146-170 | Attempts equal the commands sent and exceed the recorded failures by at most one, exactly while not failed; the version counts the saves. |
| Saga.NotSentAgain | sdk/saga.go:146-170 | Between any two states of a run an effect that has succeeded is unchanged and has not been sent again. |
| Saga.FenceHoldsExactlyForOneAttempt | sdk/saga.go:186-199 | An acknowledgement of an older attempt is fenced off if and only if there was one attempt: the command id does not depend on it. |
| Saga.StaleAcknowledgementPasses | sdk/saga_effects.go:33-69 | A run of two events and a failure in between after which the first attempt's acknowledgement is taken for the second's. |
| Saga.EnqueueAll | sdk/saga.go:146-170 | The loop sends, in their order, exactly the commands whose effect is neither under way nor done nor asked for by an earlier one, as they were asked for; it fails only on a command without type or a refusing outbox. A given effect id is kept, a missing one becomes the event id, a colon and the number of the command. |
| Saga.KeyOf | sdk/saga.go:96-105 | The association key, else the correlation id, else the aggregate id; empty only if all are. |
| Saga.MadeUpIdsDiffer | sdk/saga.go:150-153 | Effect ids made up for commands differ unless event and number are the same. |
| Saga.DueIsOneForOne | sdk/saga.go:146-170 | If every command has an effect of its own that is neither under way nor done, there is one send for each, of its type and payload and for its effect. |
| Saga.CommandsOfOneSaga | sdk/saga.go:186-199 | The effects of one saga have commands of different identities. |
| Saga.CommandsOfTwoSagas | sdk/saga.go:186-199 | Effects of two sagas can share a command identity if and only if one key continues the other after a colon. |
| Saga.SagaManager.constructor | sdk/saga.go:80-88 | A manager with an empty repository. |
| Saga.SagaManager.Handle | sdk/saga.go:92-184 | One event changes state and outbox together or not at all; states the whole new state, when it is rolled back, and which commands were sent with which effect ids. In a saga without effects every command is sent, one for one, as long as no two ask for the same effect by name. |
| Saga.SagaManager.UpdateEffect | sdk/saga_effects.go:48-83 | Only an effect under way changes, and only to the given answer; a repeated answer changes nothing. |
| Saga.SagaManager.StartCompensation | sdk/saga_effects.go:85-115 | Starts or restarts compensation without touching effects. |
| Saga.SagaManager.UpdateCompensation | sdk/saga_effects.go:131-153 | Ends an active compensation without touching effects. |
| Saga.SagaManager.Run | sdk/saga.go:92-184 | Over every run of calls with any failures, sagas stay, attempts and versions never fall, and an effect that has succeeded stays as it is and is never sent again. |
| HashRing.RemoveKeepsOrder | util/consistent_hash.go:45-57 | Removing a node takes it out of every key's preference list and changes nothing else in it. |
| HashRing.OnceIsEnough | util/consistent_hash.go:34-43 | A key meets the nodes in the same order however often their hashes are on the ring. |
| HashRing.OnlyItsKeysMove | util/consistent_hash.go:45-110 | Only the removed node's keys move, each to the node that was second in its list. |
| HashRing.Search | util/consistent_hash.go:74-77 | The bisection finds where the ring is entered. |
| HashRing.Ring.Get | util/consistent_hash.go:67-80 | The owner of the first hash at or after the key, or of the first of all: the first node of the preference list. |
| HashRing.Ring.GetN | util/consistent_hash.go:84-110 | The first n distinct nodes, or all. |
| HashRing.Ring.Add | util/consistent_hash.go:34-43 | Puts exactly the node's virtual nodes on the ring, also if it is there already or a hash is taken. |
| HashRing.Ring.Remove | util/consistent_hash.go:45-57 | Takes exactly the given hashes off the ring; unless another node's is among them every key's preference list loses the node and nothing else changes. |

## Left out

- Transactions, topics, the wire protocol, the Raft state machine and the cluster router, except for the answers they give to the parts modelled here.
- The asynchronous write channel, linger timers and time-based rolling: only ordered writes are modelled, each starting at the log end as the partition code guarantees.
- Retention by time and size, which depends on file modification times.
- I/O errors in the middle of a write, and with them the fail-stop write flag: a crash may leave any prefix of the active files, but a running process does not see a half-failed write. Close errors of readers are ignored as in the code.
- Durability below the file interface: completed writes are taken as durable in order.
- 64-bit wrap-around of byte positions, generations and saga versions; epochs and revisions of groups do wrap as in the code.
- The zero padding of index files is stored as absent, and index entries are pairs rather than 16 bytes; the scans over index files still treat zero pairs as the code does.
- JSON and UTF-8 details, timestamps, last-error texts, counters and logging.
- Existing groups whose registration epoch is zero, which a coordinator of this version never creates.
- A restart of the leader's own process ends its lane. Metadata a broker has applied stays applied across its restart, and how brokers enter the in-sync set is left to the metadata.
- Compaction of the logs under the lane: there a log has a record at every offset.
- Compaction of the leader's log during a catch-up; appends are allowed.
- Event-sourcing indexes that follow the watermark.
- The inbox of the saga manager is reduced to its answer to a claim, and the application's handlers to functions that leave identity, version and effects alone.
- Hash functions: nodes and keys come as hash values.
- Restart: a start-up that fails leaves the old fields in place, where the code has no coordinator at all.
- GetN: a negative count is not modelled.
