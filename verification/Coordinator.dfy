/**
 * The consumer-group coordinator (pkg/coordinator/coordinator.go, coordinator_offset.go, rebalancer.go) together with
 * its durable metadata topic. Lifecycle changes take three steps - begin, persist, finish - because the record is
 * written outside the coordinator lock; other operations may run in between. Where the source publishes a message,
 * `p` is the partition its key hashes to and `ok` says whether the append succeeded; a failed append leaves no trace.
 */
module Coordinator {
  import opened Common
  import opened MetadataRecord
  import opened DurableView
  import opened Replay
  import opened GroupState
  import opened RangeAssignment
  import opened MetadataTopic
  import opened CoordinatorInvariant
  import opened GroupSnapshot

  /** What a lifecycle operation has decided before its record is written. */
  datatype Begun = Finished | Rejected(reason: string) | Writing

  /** `calculateOffsetPartitionCount`: one partition for ten groups, at least four and at most fifty. */
  function OffsetPartitionCount(groupCount: nat): (r: nat)
    ensures 4 <= r <= 50 && (r > 4 ==> 10 * r <= groupCount) && (r < 50 ==> groupCount < 10 * (r + 1))
  {
    var wanted := groupCount / 10;
    if wanted < 4 then 4 else if wanted > 50 then 50 else wanted
  }

  /** The requests a broker passes on, as commands, applied log entries, timers and restarts make them. */
  datatype Op =
    | Register(topic: string, name: string, count: int)
    | Delete(name: string)
    | Persist(p: nat, ok: bool)
    | FinishChange
    | Join(name: string, member: string)
    | Leave(name: string, member: string, generation: int)
    | Expire(name: string, expected: int, members: seq<string>)
    | Commit(name: string, topic: string, items: seq<OffsetItem>, p: nat, ok: bool)
    | CommitFenced(
        name: string, topic: string, member: string, generation: int, items: seq<OffsetItem>, p: nat, ok: bool)
    | ApplyFenced(name: string, topic: string, member: string, generation: int, items: seq<OffsetItem>)
    | Compact(p: nat, done: nat, closed: nat)
    | Scale
    | SnapshotAndRestore
    | CrashAndRestart

  class Coordinator {
    const standalone: bool
    var groups: map<string, Group>
    var groupEpochs: map<string, u64>
    var lifecyclePending: set<string>
    /** The lifecycle operation holding the lifecycle lock, if any. */
    var lifecycle: Option<PendingWrite>
    /** Partitions of the metadata topic, with the offsets they start and end at. */
    var logs: seq<seq<Message>>
    var starts: seq<nat>
    var ends: seq<nat>
    /** Every topic a group was registered for, and every group and topic offsets were written for. */
    ghost var topics: set<string>
    ghost var pairs: set<(string, string)>

    ghost function Now(): State
      reads this
    {
      State(groups, groupEpochs)
    }

    ghost function Configuration(): Config
      reads this
    {
      Config(standalone, Now(), lifecycle, logs, starts, ends, topics, pairs)
    }

    /** What must survive a crash now. */
    ghost function Durable(): View
      reads this
    {
      DurableOf(Now(), lifecycle)
    }

    ghost predicate Valid()
      reads this
    {
      Inv(Configuration()) && lifecyclePending == (if lifecycle.Some? then {lifecycle.value.record.group} else {})
    }

    constructor (standalone: bool)
      ensures Valid() && this.standalone == standalone
      ensures groups == map[] && groupEpochs == map[] && topics == {} && pairs == {} && lifecycle.None?
    {
      this.standalone := standalone;
      groups, groupEpochs, lifecyclePending, lifecycle := map[], map[], {}, None;
      logs, starts, ends := [[], [], [], []], [0, 0, 0, 0], [0, 0, 0, 0];
      topics, pairs := {}, {};
      new;
      assert StoredRecords(logs) == {};
      assert ViewOf(Now()) == View(map[], map[]);
      ConsistentInitially();
    }

    // -------------------------------------------------------------------------------------------
    // Lifecycle

    /** `RegisterGroup` up to its durable write. */
    method BeginRegister(topic: string, name: string, count: int) returns (r: Begun)
      requires Valid() && lifecycle.None?
      modifies `lifecycle, `lifecyclePending, `topics
      ensures Valid()
      ensures r.Writing? <==> topic != "" && name != "" && count > 0 && name !in groups
                              && GetOrZero(groupEpochs, name) != MAX_U64
      ensures r.Writing? ==> lifecycle == Some(PendingWrite(
                Registration(name, topic, count, IncWrap(GetOrZero(groupEpochs, name)), map[]), false))
      ensures !r.Writing? ==> lifecycle.None?
      ensures r.Finished? <==>
                topic != "" && name in groups && groups[name].topic == topic && |groups[name].partitions| == count
      ensures topics == old(topics) + (if r.Writing? then {topic} else {})
    {
      hide SplitEvenly, ByRank;
      if topic == "" || name == "" { return Rejected("topic and group names must not be empty"); }
      if count <= 0 { return Rejected("invalid partition count"); }
      if name in groups {
        var existing := groups[name];
        if existing.topic != topic { return Rejected("topic mismatch"); }
        if |existing.partitions| != count { return Rejected("partition count mismatch"); }
        return Finished;
      }
      var epoch := IncWrap(GetOrZero(groupEpochs, name));
      if epoch == 0 { return Rejected("group lifecycle epoch overflow"); }
      var record := Registration(name, topic, count, epoch, map[]);
      BeginKeeps(Configuration(), record);
      lifecyclePending := lifecyclePending + {name};
      lifecycle := Some(PendingWrite(record, false));
      topics := topics + {topic};
      return Writing;
    }

    /** `DeleteGroup` up to its durable write. */
    method BeginDelete(name: string) returns (r: Begun)
      requires Valid() && lifecycle.None?
      modifies `lifecycle, `lifecyclePending
      ensures Valid()
      ensures r.Writing? <==> name in groups && groups[name].members == map[] && groupEpochs[name] != MAX_U64
      ensures r.Writing? ==> lifecycle == Some(PendingWrite(
                Tombstone(name, groups[name].topic, IncWrap(groupEpochs[name])), false))
      ensures !r.Writing? ==> lifecycle.None?
      ensures r.Finished? <==> name != "" && name !in groups
    {
      hide SplitEvenly, ByRank;
      if name == "" { return Rejected("group name must not be empty"); }
      if name !in groups { return Finished; }
      var group := groups[name];
      if group.members != map[] { return Rejected("cannot delete group with active members"); }
      var epoch := GetOrZero(groupEpochs, name);
      if group.registrationEpoch > epoch { epoch := group.registrationEpoch; }
      epoch := IncWrap(epoch);
      if epoch == 0 { return Rejected("group lifecycle epoch overflow"); }
      var record := Tombstone(name, group.topic, epoch);
      BeginKeeps(Configuration(), record);
      lifecyclePending := lifecyclePending + {name};
      lifecycle := Some(PendingWrite(record, false));
      return Writing;
    }

    /** Appends a record to the metadata topic; distributed coordinators keep no such topic. */
    method Publish(record: Record, p: nat, ok: bool) returns (done: bool)
      requires p < |logs| == |ends|
      modifies `logs, `ends, `pairs
      ensures done <==> !standalone || (ok && ValidRecord(record))
      ensures Configuration() == if done then Append(old(Configuration()), p, record) else old(Configuration())
    {
      if !standalone { return true; }
      if !ValidRecord(record) || !ok { return false; }
      logs, ends := logs[p := logs[p] + [Message(ends[p], RecordKey(record), record)]], ends[p := ends[p] + 1];
      pairs := PairsWith(pairs, record);
      return true;
    }

    /** The durable write of the lifecycle operation in flight. */
    method PersistLifecycle(p: nat, ok: bool) returns (written: bool)
      requires Valid() && lifecycle.Some? && !lifecycle.value.persisted && p < |logs|
      modifies `lifecycle, `logs, `ends, `pairs
      ensures Valid()
      ensures written <==> !standalone || ok
      ensures lifecycle == Some(old(lifecycle.value).(persisted := written))
    {
      hide SplitEvenly, ByRank;
      PersistKeeps(Configuration(), p);
      written := Publish(lifecycle.value.record, p, ok);
      if written {
        lifecycle := Some(lifecycle.value.(persisted := true));
      }
    }

    /** The end of a lifecycle operation: its change becomes visible if and only if its record was written. */
    method FinishLifecycle()
      requires Valid() && lifecycle.Some?
      modifies `lifecycle, `lifecyclePending, `groups, `groupEpochs
      ensures Valid() && lifecycle.None?
      ensures ViewOf(Now()) == old(Durable())
      ensures var w := old(lifecycle).value;
              && (w.persisted && w.record.Registration? ==>
                    && w.record.group in groups && groups[w.record.group].members == map[]
                    && groups[w.record.group].generation == 0
                    && groups == old(groups)[w.record.group := groups[w.record.group]])
              && (w.persisted && w.record.Tombstone? ==> groups == old(groups) - {w.record.group})
              && (!w.persisted ==> groups == old(groups))
      ensures Advances(old(Now()), Now()) && (Named(old(Now())) ==> Named(Now()))
    {
      hide Advances, LogsOk, Named, TopicStands, LiveGroups;
      if lifecycle.value.persisted {
        FinishKeeps(Configuration());
        var after := Completed(State(groups, groupEpochs), lifecycle.value.record);
        groups, groupEpochs := after.groups, after.epochs;
        assert Now() == after;
      } else {
        AbandonKeeps(Configuration());
      }
      lifecyclePending := lifecyclePending - {lifecycle.value.record.group};
      lifecycle := None;
    }

    // -------------------------------------------------------------------------------------------
    // Membership

    /** Replaces the members of a group by a new assignment, one generation later. */
    method Regroup(name: string, members: set<string>)
      requires Valid() && name in groups && name !in lifecyclePending
      modifies `groups
      ensures Valid()
      ensures name in groups && groups[name].members.Keys == members
      ensures groups == old(groups)[name := Regrouped(old(groups)[name], groups[name].members)]
      ensures ByRank(groups[name].members, old(groups)[name].partitions)
      ensures groups[name].generation == old(groups)[name].generation + 1
      ensures Advances(old(Now()), Now())
    {
      hide Inv, Advances, Regrouped, ByRank, SplitEvenly;
      var group := groups[name];
      var assignments: map<string, seq<int>> := map[];
      RegroupedMembers(group);
      NobodyByRank(group.partitions);
      if members != {} {
        DistinctPartitions(Configuration(), name);
        assignments := RebalanceRange(members, group.partitions);
      }
      RegroupKeeps(Configuration(), name, assignments);
      groups := groups[name := Regrouped(group, assignments)];
    }

    /** A joined member gets its share of the new generation. */
    method AddConsumer(name: string, member: string) returns (r: Result<seq<int>>)
      requires Valid()
      modifies `groups
      ensures Valid()
      ensures r.Ok? <==> name !in lifecyclePending && name in old(groups)
      ensures r.Ok? ==>
                && name in groups && groups[name].members.Keys == old(groups)[name].members.Keys + {member}
                && groups == old(groups)[name := Regrouped(old(groups)[name], groups[name].members)]
                && r.value == groups[name].members[member]
      ensures r.Ok? ==>
                var all := old(groups)[name].members.Keys + {member};
                && groups[name].generation == old(groups)[name].generation + 1
                && ShareOf(old(groups)[name].partitions, |all|, Rank(all, member), r.value)
                && forall i | 0 <= i < |old(groups)[name].partitions| :: old(groups)[name].partitions[i] == i
      ensures r.Err? ==> groups == old(groups)
      ensures Advances(old(Now()), Now())
    {
      hide Inv, Regrouped, ByRank, ShareOf, Rank;
      if name in lifecyclePending { return Err("group lifecycle update in progress"); }
      if name !in groups { return Err("group not found"); }
      DistinctPartitions(Configuration(), name);
      Regroup(name, groups[name].members.Keys + {member});
      RankedShare(groups[name].members, old(groups)[name].partitions, member);
      return Ok(groups[name].members[member]);
    }

    method RemoveConsumer(name: string, member: string) returns (ok: bool)
      requires Valid()
      modifies `groups
      ensures Valid()
      ensures ok <==> name in old(groups) && member in old(groups)[name].members
      ensures ok ==>
                && name in groups && groups[name].members.Keys == old(groups)[name].members.Keys - {member}
                && groups == old(groups)[name := Regrouped(old(groups)[name], groups[name].members)]
      ensures !ok ==> groups == old(groups)
      ensures Advances(old(Now()), Now())
    {
      if name !in groups || member !in groups[name].members { return false; }
      Regroup(name, groups[name].members.Keys - {member});
      return true;
    }

    /** `validateMemberGenerationLocked`: a negative generation skips the generation check. */
    predicate MemberOf(name: string, member: string, generation: int)
      reads this
    {
      && name in groups && member != "" && member in groups[name].members
      && (generation >= 0 ==> groups[name].generation == generation)
    }

    /** A stale session cannot remove a current member. */
    method RemoveConsumerForGeneration(name: string, member: string, generation: int) returns (ok: bool)
      requires Valid()
      modifies `groups
      ensures Valid()
      ensures ok <==>
                && name in old(groups) && member != "" && member in old(groups)[name].members
                && (generation >= 0 ==> generation == old(groups)[name].generation)
      ensures ok ==>
                && name in groups && groups[name].members.Keys == old(groups)[name].members.Keys - {member}
                && groups == old(groups)[name := Regrouped(old(groups)[name], groups[name].members)]
      ensures !ok ==> groups == old(groups)
      ensures Advances(old(Now()), Now())
    {
      if !MemberOf(name, member, generation) { return false; }
      ok := RemoveConsumer(name, member);
    }

    /** Removes all listed members in one generation change, or none. */
    method ExpireConsumers(name: string, expected: int, members: seq<string>) returns (ok: bool)
      requires Valid()
      modifies `groups
      ensures Valid()
      ensures ok <==> name in old(groups) && old(groups)[name].generation == expected
      ensures ok && (forall m | m in members :: m !in old(groups)[name].members) ==> groups == old(groups)
      ensures ok && !(forall m | m in members :: m !in old(groups)[name].members) ==>
                && name in groups
                && groups[name].members.Keys == old(groups)[name].members.Keys - (set m | m in members)
                && groups == old(groups)[name := Regrouped(old(groups)[name], groups[name].members)]
      ensures !ok ==> groups == old(groups)
      ensures Advances(old(Now()), Now())
    {
      hide SplitEvenly, ByRank;
      if name !in groups || groups[name].generation != expected { return false; }
      var all := groups[name].members.Keys;
      var remaining := all;
      var removed := 0;
      for i := 0 to |members|
        invariant remaining == all - (set m | m in members[..i])
        invariant removed == 0 <==> forall m | m in members[..i] :: m !in all
      {
        assert members[..i + 1] == members[..i] + [members[i]];
        if members[i] in remaining {
          remaining := remaining - {members[i]};
          removed := removed + 1;
        }
      }
      assert members[..|members|] == members;
      if removed != 0 {
        Regroup(name, remaining);
      }
      return true;
    }

    // -------------------------------------------------------------------------------------------
    // Offset commits

    /** The standalone branch of a commit: the merged snapshot is written before any offset is stored. */
    method CommitDurably(name: string, topic: string, items: seq<OffsetItem>, p: nat, ok: bool) returns (done: bool)
      requires Valid() && standalone && name in groups && name !in lifecyclePending && p < |logs|
      requires Committable(Configuration(), name, topic, items)
      modifies `groups, `logs, `ends, `pairs
      ensures Valid()
      ensures done <==>
                (Changes(TopicOffsets(old(groups)[name], topic), items) ==> ok && Encodable(old(groups)[name], topic))
      ensures Now() == if done then Committed(old(Configuration()), name, topic, items) else old(Now())
    {
      hide Inv, Encodable;
      ghost var before := Configuration();
      InvShape(before);
      DurableCommit(before, p, name, topic, items);
      var changed, record, after := PrepareCommit(name, groups[name], topic, items);
      if !changed { return true; }
      ghost var next := Append(before, p, record).(state := Committed(before, name, topic, items));
      done := Publish(record, p, ok);
      if !done { return; }
      assert Inv(next);
      groups := groups[name := after];
      assert Configuration() == next;
    }

    /** The distributed branch: the batch is already durable in the replicated log. */
    method CommitLocally(name: string, topic: string, items: seq<OffsetItem>)
      requires Valid() && !standalone && name in groups && name !in lifecyclePending
      requires Committable(Configuration(), name, topic, items)
      modifies `groups
      ensures Valid()
      ensures Now() == Committed(old(Configuration()), name, topic, items)
    {
      hide Inv;
      ApplyKeeps(Configuration(), name, topic, items);
      groups := groups[name := Store(groups[name], topic, items)];
    }

    /** `commitOffsetsBulkForGroupLocked`: all offsets of an allowed batch are committed, or none. */
    method CommitBatch(name: string, topic: string, items: seq<OffsetItem>, p: nat, ok: bool) returns (done: bool)
      requires Valid() && name in groups && name !in lifecyclePending && p < |logs|
      modifies `groups, `logs, `ends, `pairs
      ensures Valid()
      ensures done <==> CanCommit(old(Configuration()), name, topic, items, ok)
      ensures Now() == if done then Committed(old(Configuration()), name, topic, items) else old(Now())
      ensures done ==> Advances(old(Now()), Now())
    {
      var allowed := ValidateBatch(groups[name], topic, items);
      if !allowed { return false; }
      var inRange := PartitionsInRange(items, |groups[name].partitions|);
      if !inRange { return false; }
      if Writable(Configuration(), name, topic, items) {
        CommitAdvances(Configuration(), name, topic, items);
      }
      if standalone {
        done := CommitDurably(name, topic, items, p, ok);
      } else {
        CommitLocally(name, topic, items);
        done := true;
      }
    }

    /** `CommitOffset`, the unfenced commit of one offset. */
    method CommitOffset(name: string, topic: string, partition: int, offset: u64, p: nat, ok: bool) returns (done: bool)
      requires Valid() && p < |logs|
      modifies `groups, `logs, `ends, `pairs
      ensures Valid()
      ensures done <==>
                name !in lifecyclePending
                && CanCommit(old(Configuration()), name, topic, [OffsetItem(partition, offset)], ok)
      ensures done ==> Now() == Committed(old(Configuration()), name, topic, [OffsetItem(partition, offset)])
      ensures !done ==> Now() == old(Now())
      ensures done ==> Advances(old(Now()), Now())
    {
      if name in lifecyclePending || name !in groups { return false; }
      done := CommitBatch(name, topic, [OffsetItem(partition, offset)], p, ok);
    }

    /** `CommitOffsetsBulk`, the unfenced commit of a batch. */
    method CommitOffsetsBulk(name: string, topic: string, items: seq<OffsetItem>, p: nat, ok: bool) returns (done: bool)
      requires Valid() && p < |logs|
      modifies `groups, `logs, `ends, `pairs
      ensures Valid()
      ensures done <==>
                items == [] || (name !in lifecyclePending && CanCommit(old(Configuration()), name, topic, items, ok))
      ensures done && items != [] ==> Now() == Committed(old(Configuration()), name, topic, items)
      ensures !done || items == [] ==> Now() == old(Now())
      ensures done && items != [] ==> Advances(old(Now()), Now())
    {
      if items == [] { return true; }
      if name in lifecyclePending || name !in groups { return false; }
      done := CommitBatch(name, topic, items, p, ok);
    }

    /** The member owns every partition of the batch, in the given generation unless that is negative. */
    ghost predicate Owns(name: string, member: string, generation: int, items: seq<OffsetItem>)
      reads this
    {
      && name in groups && member != "" && member in groups[name].members
      && (generation >= 0 ==> generation == groups[name].generation)
      && forall item | item in items :: item.partition in groups[name].members[member]
    }

    /** At any time a partition can be committed by one member only, whatever generations are claimed. */
    lemma OneCommitter(name: string, m: string, n: string, a: seq<OffsetItem>, b: seq<OffsetItem>, g: int, h: int)
      requires Valid() && Owns(name, m, g, a) && Owns(name, n, h, b)
      requires exists x, y | x in a && y in b :: x.partition == y.partition
      ensures m == n
    {
      assert Legal(name, groups[name]);
      var x, y :| x in a && y in b && x.partition == y.partition;
      assert x.partition in groups[name].members[m] && y.partition in groups[name].members[n];
    }

    /** `ValidateAndCommitOffsetsBulk`: only the current owner of all its partitions commits a batch. */
    method ValidateAndCommitOffsetsBulk(
      name: string, topic: string, member: string, generation: int, items: seq<OffsetItem>, p: nat, ok: bool)
      returns (done: bool)
      requires Valid() && p < |logs|
      modifies `groups, `logs, `ends, `pairs
      ensures Valid()
      ensures done <==> name !in lifecyclePending && old(Owns(name, member, generation, items))
                        && CanCommit(old(Configuration()), name, topic, items, ok)
      ensures done ==> Now() == Committed(old(Configuration()), name, topic, items)
      ensures !done ==> Now() == old(Now())
      ensures done ==> Advances(old(Now()), Now())
    {
      if name in lifecyclePending || !MemberOf(name, member, generation) { return false; }
      var owner := ChecksOwner(groups[name].members[member], items);
      if !owner { return false; }
      done := CommitBatch(name, topic, items, p, ok);
    }

    /** `ValidateAndCommit`: the fenced commit of one offset. */
    method ValidateAndCommit(
      name: string, topic: string, member: string, generation: int, partition: int, offset: u64, p: nat, ok: bool)
      returns (done: bool)
      requires Valid() && p < |logs|
      modifies `groups, `logs, `ends, `pairs
      ensures Valid()
      ensures done <==>
                name !in lifecyclePending && old(Owns(name, member, generation, [OffsetItem(partition, offset)]))
                        && CanCommit(old(Configuration()), name, topic, [OffsetItem(partition, offset)], ok)
      ensures done ==> Now() == Committed(old(Configuration()), name, topic, [OffsetItem(partition, offset)])
      ensures !done ==> Now() == old(Now())
      ensures done ==> Advances(old(Now()), Now())
    {
      done := ValidateAndCommitOffsetsBulk(name, topic, member, generation, [OffsetItem(partition, offset)], p, ok);
    }

    /** `ApplyFencedOffsetUpdateFromFSM`: ownership is checked when the replicated command is applied. */
    method ApplyFencedOffsetUpdate(name: string, topic: string, member: string, generation: int, items: seq<OffsetItem>)
      returns (done: bool)
      requires Valid() && !standalone
      modifies `groups
      ensures Valid()
      ensures done <==> name !in lifecyclePending && old(Owns(name, member, generation, items))
                        && BatchAllowed(old(groups)[name], topic, items)
      ensures done ==> Now() == Committed(old(Configuration()), name, topic, items) && Advances(old(Now()), Now())
      ensures !done ==> Now() == old(Now())
    {
      hide SplitEvenly, ByRank;
      if name in lifecyclePending || !MemberOf(name, member, generation) { return false; }
      var owner := ChecksOwner(groups[name].members[member], items);
      if !owner { return false; }
      var allowed := ValidateBatch(groups[name], topic, items);
      if !allowed { return false; }
      OwnedIsInRange(Configuration(), name, member, items);
      CommitAdvances(Configuration(), name, topic, items);
      CommitLocally(name, topic, items);
      return true;
    }

    // -------------------------------------------------------------------------------------------
    // The metadata topic over time

    /**
     * A compaction pass over the first `closed` messages of a partition, the ones in closed segments, that ends or is
     * interrupted after the first `done` of them.
     */
    method CompactPartition(p: nat, done: nat, closed: nat)
      requires Valid() && p < |logs| && done <= closed <= |logs[p]|
      modifies `logs
      ensures Valid()
      ensures Durable() == old(Durable())
      ensures |logs| == |old(logs)| && forall q | 0 <= q < |logs| && q != p :: logs[q] == old(logs)[q]
      ensures logs[p] == Compacted(old(logs)[p], done, Compaction.LatestOf(old(logs)[p][..closed], MessageHeader))
      ensures KeepsNewest(old(logs)[p], done, closed, logs[p])
    {
      hide Compacted, KeepsNewest, SplitEvenly, ByRank;
      ClosedIsOrdered(Configuration(), p, closed);
      CompactedKeepsNewest(logs[p], done, closed, Compaction.LatestOf(logs[p][..closed], MessageHeader));
      var latest := Compaction.ScanLatest(logs[p][..closed], MessageHeader);
      CompactKeeps(Configuration(), p, done, closed, latest);
      logs := logs[p := Compacted(logs[p], done, latest)];
    }

    /** `updateOffsetPartitionCount`: the topic only ever grows. */
    method ScaleOffsetTopic()
      requires Valid()
      modifies `logs, `starts, `ends
      ensures Valid()
      ensures Durable() == old(Durable())
      ensures |logs|
              == if OffsetPartitionCount(|groups|) > |old(logs)| then OffsetPartitionCount(|groups|) else |old(logs)|
      ensures |logs| >= 4 && (|logs| < 50 ==> |groups| < 10 * (|logs| + 1))
      ensures |logs| == |old(logs)| || |logs| == 4 || (|logs| <= 50 && 10 * |logs| <= |groups|)
      ensures forall p | 0 <= p < |old(logs)| :: logs[p] == old(logs)[p]
      ensures forall p | |old(logs)| <= p < |logs| :: logs[p] == []
    {
      hide Inv;
      var count := OffsetPartitionCount(|groups|);
      while |logs| < count
        invariant Valid() && |old(logs)| <= |logs| && (|logs| <= count || |logs| == |old(logs)|)
        invariant forall p | 0 <= p < |logs| :: logs[p] == if p < |old(logs)| then old(logs)[p] else []
      {
        ScaleKeeps(Configuration());
        logs, starts, ends := logs + [[]], starts + [0], ends + [0];
      }
    }

    /** The pairs written so far can be told apart, for one because every registered topic passed `ValidateName`. */
    ghost predicate ToldApart()
      reads this
    {
      Apart(pairs) || forall t | t in topics :: PortableName(t)
    }

    lemma ToldApartIsApart()
      requires Valid() && standalone && ToldApart()
      ensures Apart(pairs)
    {
      if !Apart(pairs) { PortableIsApart(pairs, topics); }
    }

    /**
     * A crash at any moment and the start-up that follows. With topics that exist, replay always succeeds, whatever
     * the groups are called, and brings back exactly the durable groups, epochs, offsets and revisions; members are
     * gone.
     */
    method Restart() returns (ok: bool)
      requires Valid() && standalone
      modifies `groups, `groupEpochs, `lifecycle, `lifecyclePending, `topics
      ensures Valid() && old(topics) <= topics
      ensures old(ToldApart()) ==>
                && ok && ViewOf(Now()) == old(Durable()) && topics == old(topics)
                && lifecycle.None? && Memberless(Now()) && OffsetsAdvance(old(Now()), Now())
    {
      hide Inv, Apart;
      if ToldApart() { ToldApartIsApart(); }
      InvShape(Configuration());
      ok := Reboot(Configuration());
    }

    /** Start-up on what the metadata topic holds, which stands for the configuration `c`. */
    method Reboot(ghost c: Config) returns (ok: bool)
      requires Inv(c) && c.standalone && c.logs == logs && c.starts == starts && c.ends == ends
      requires c.topics == topics && c.pairs == pairs && standalone
      modifies `groups, `groupEpochs, `lifecycle, `lifecyclePending, `topics
      ensures ok ==> Valid() && lifecycle.None? && lifecyclePending == {}
      ensures !ok ==> Configuration() == old(Configuration()) && lifecyclePending == old(lifecyclePending)
      ensures old(topics) <= topics
      ensures Apart(pairs) ==>
                && ok && ViewOf(Now()) == DurableOf(c.state, c.lifecycle) && topics == old(topics)
                && Memberless(Now()) && OffsetsAdvance(c.state, Now())
    {
      hide Inv, Apart;
      var booted := Boot(logs, starts, c);
      if booted.Err? { return false; }
      groups, groupEpochs := booted.value.groups, booted.value.epochs;
      lifecycle, lifecyclePending := None, {};
      topics := topics + TopicsOf(booted.value);
      assert Now() == booted.value;
      return true;
    }

    /**
     * A crash in the middle of any number of commits, each of another group: their records are in the topic, in any
     * order, and none of their offsets has been stored. Start-up finds all of them made, whatever the lifecycle
     * change of another group in flight.
     */
    method CrashInCommits(commits: seq<InFlight>) returns (ok: bool)
      requires Valid() && standalone && forall i | 0 <= i < |commits| :: Ready(Configuration(), commits[i])
      requires forall i, j | 0 <= i < j < |commits| :: commits[i].name != commits[j].name
      modifies this
      ensures ok ==> Valid()
      ensures Apart(pairs) || (forall t | t in old(topics) :: PortableName(t)) ==>
                && ok && History(old(Durable()), FlightRecords(old(Now()), commits))
                && ViewOf(Now()) == Outcome(old(Durable()), FlightRecords(old(Now()), commits))
    {
      hide Inv, Apart, Ready, History, Outcome, PortableName, FlightRecord, Landed, ValidRecord;
      hide Enabled, Apply, DurableOf;
      ghost var c, view := Configuration(), Durable();
      ghost var records := FlightRecords(Now(), commits);
      EmptyHistory(view);
      forall j | 0 <= j < |commits| ensures Untouched(c, Now(), commits[j].name) { ReadyHasGroup(c, commits[j]); }
      assert records[..0] == [];
      for i := 0 to |commits|
        invariant Inv(c) && c.standalone && c.logs == logs && c.starts == starts && c.ends == ends
        invariant c.topics == topics == old(topics) && c.pairs == pairs && c.lifecycle == old(lifecycle)
        invariant groups == old(groups) && History(view, records[..i])
        invariant DurableOf(c.state, c.lifecycle) == Outcome(view, records[..i])
        invariant forall j | i <= j < |commits| :: Ready(c, commits[j]) && Untouched(c, old(Now()), commits[j].name)
      {
        ghost var before := c;
        LandedKeeps(c, commits[i]);
        SameFlight(c, old(Now()), commits[i]);
        HistorySnoc(view, records[..i], records[i]);
        assert records[..i + 1] == records[..i] + [records[i]];
        WriteFlight(c, commits[i]);
        c := Landed(c, commits[i]);
        forall j | i < j < |commits| ensures Ready(c, commits[j]) && Untouched(c, old(Now()), commits[j].name) {
          OthersStayReady(before, commits[i], commits[j]);
        }
      }
      assert records[..|commits|] == records;
      if forall t | t in topics :: PortableName(t) { PairsAreApart(c); }
      ok := Reboot(c);
    }

    /** The durable half of a commit. */
    method WriteFlight(ghost c: Config, f: InFlight)
      requires Inv(c) && Ready(c, f) && ValidRecord(FlightRecord(c.state, f)) && |c.ends| == |c.logs|
      requires c.logs == logs && c.ends == ends && c.pairs == pairs && standalone && Untouched(c, Now(), f.name)
      modifies `logs, `ends, `pairs
      ensures logs == Landed(c, f).logs && ends == Landed(c, f).ends && pairs == Landed(c, f).pairs
    {
      hide Inv, ValidRecord, Encodable, Changes, Committable;
      var _, record, _ := PrepareCommit(f.name, groups[f.name], f.topic, f.items);
      var done := Publish(record, f.p, true);
    }

    // -------------------------------------------------------------------------------------------
    // Snapshots for the replicated log

    method ExportState() returns (snapshots: map<string, Snapshot>)
      requires Valid()
      ensures snapshots == Export(Now())
      ensures Import(snapshots) == Now()
    {
      ImportUndoesExport(Now(), standalone, topics);
      snapshots := Export(State(groups, groupEpochs));
    }

    /** Replaces the whole state, or nothing. Importing the export of a live coordinator keeps the invariant. */
    method ImportState(snapshots: map<string, Snapshot>) returns (ok: bool)
      requires Valid() && !standalone
      modifies `groups, `groupEpochs, `lifecycle, `lifecyclePending, `topics
      ensures ok <==> forall name | name in snapshots :: Importable(name, snapshots[name])
      ensures ok ==> Now() == Import(snapshots) && lifecycle.None? && lifecyclePending == {}
      ensures ok ==> topics == old(topics) + TopicsOf(Now())
      ensures !ok ==> Now() == old(Now()) && Valid()
      ensures ok && (exists s, known :: LiveGroups(s, false, known) && Export(s) == snapshots) ==> Valid()
    {
      hide Inv, LiveGroups, Export, Import, Importable;
      ok := ValidateImportState(snapshots);
      if !ok { return; }
      var after := Import(snapshots);
      forall s, known | LiveGroups(s, false, known) && Export(s) == snapshots
        ensures Inv(ImportedConfig(Configuration(), after))
      {
        ImportKeeps(Configuration(), s, known, after);
      }
      groups, groupEpochs, lifecycle, lifecyclePending := after.groups, after.epochs, None, {};
      topics := topics + TopicsOf(after);
    }

    // -------------------------------------------------------------------------------------------
    // Runs

    /** What holds before and after every request: the invariant, topics that exist and members with names. */
    ghost predicate Served()
      reads this
    {
      Valid() && (forall t | t in topics :: PortableName(t)) && Named(Now())
    }

    /** Requests that begin, write or end a lifecycle change. A topic has passed `ValidateName` before it exists. */
    method ServeLifecycle(op: Op)
      requires Served() && (op.Register? || op.Delete? || op.Persist? || op.FinishChange?)
      modifies this
      ensures Served() && Advances(old(Now()), Now())
    {
      hide Inv, Advances, PortableName, Named;
      StandsStill(Now());
      match op
      case Register(topic, name, count) =>
        var known := ValidateName(topic);
        if known && lifecycle.None? { var _ := BeginRegister(topic, name, count); }
      case Delete(name) =>
        if lifecycle.None? { var _ := BeginDelete(name); }
      case Persist(p, ok) =>
        if lifecycle.Some? && !lifecycle.value.persisted && p < |logs| { var _ := PersistLifecycle(p, ok); }
      case FinishChange =>
        if lifecycle.Some? { FinishLifecycle(); }
    }

    /** Requests that change members. A join without a member name is refused before it gets here. */
    method ServeMembers(op: Op)
      requires Served() && (op.Join? || op.Leave? || op.Expire?)
      modifies this
      ensures Served() && Advances(old(Now()), Now())
    {
      hide Inv, Advances, PortableName, Named;
      StandsStill(Now());
      ghost var before := Now();
      match op
      case Join(name, member) =>
        if member != "" {
          NamedMembers(before);
          var r := AddConsumer(name, member);
          if r.Ok? { RegroupedIsNamed(before, name, groups[name].members); }
        }
      case Leave(name, member, generation) =>
        NamedMembers(before);
        var ok := RemoveConsumerForGeneration(name, member, generation);
        if ok { RegroupedIsNamed(before, name, groups[name].members); }
      case Expire(name, expected, members) =>
        NamedMembers(before);
        var ok := ExpireConsumers(name, expected, members);
        if ok && groups != before.groups { RegroupedIsNamed(before, name, groups[name].members); }
    }

    method ServeCommits(op: Op)
      requires Served() && (op.Commit? || op.CommitFenced? || op.ApplyFenced?)
      modifies this
      ensures Served() && Advances(old(Now()), Now())
    {
      hide Inv, Advances, PortableName, Named, Committed, BatchAllowed;
      StandsStill(Now());
      ghost var before := Configuration();
      match op
      case Commit(name, topic, items, p, ok) =>
        if p < |logs| {
          var done := CommitOffsetsBulk(name, topic, items, p, ok);
          if done && items != [] { CommittedIsNamed(before, name, topic, items); }
        }
      case CommitFenced(name, topic, member, generation, items, p, ok) =>
        if p < |logs| {
          var done := ValidateAndCommitOffsetsBulk(name, topic, member, generation, items, p, ok);
          if done { CommittedIsNamed(before, name, topic, items); }
        }
      case ApplyFenced(name, topic, member, generation, items) =>
        if !standalone {
          var done := ApplyFencedOffsetUpdate(name, topic, member, generation, items);
          if done { CommittedIsNamed(before, name, topic, items); }
        }
    }

    /** Compaction and growth of the metadata topic, snapshots of the replicated log, and restarts. */
    method ServeStorage(op: Op)
      requires Served() && (op.Compact? || op.Scale? || op.SnapshotAndRestore? || op.CrashAndRestart?)
      modifies this
      ensures Served() && OffsetsAdvance(old(Now()), Now()) && (!op.CrashAndRestart? ==> Advances(old(Now()), Now()))
    {
      hide Inv, PortableName, Named, OffsetsAdvance, MembershipAdvances, Export, Import, Importable, ToldApart;
      StandsStill(Now());
      match op
      case Compact(p, done, closed) =>
        if p < |logs| && done <= closed <= |logs[p]| { CompactPartition(p, done, closed); }
      case Scale => ScaleOffsetTopic();
      case SnapshotAndRestore =>
        if !standalone { RestoreOwnSnapshot(); }
      case CrashAndRestart =>
        if standalone {
          TopicsToldApart();
          var ok := Restart();
          MemberlessIsNamed(Now());
        }
    }

    lemma TopicsToldApart()
      requires Served()
      ensures ToldApart()
    {
    }

    /**
     * The snapshot of a distributed coordinator that has served any run is accepted, and restoring it changes
     * nothing.
     */
    method RestoreOwnSnapshot()
      requires Served() && !standalone
      modifies this
      ensures Served() && Now() == old(Now())
    {
      hide Inv, PortableName, Named, Export, Import, Importable, LiveGroups;
      SnapshotIsAccepted();
      var snapshots := ExportState();
      ghost var before := Now();
      var ok := ImportState(snapshots);
      assert topics == old(topics) by { TopicsKnown(before, old(topics)); }
    }

    lemma SnapshotIsAccepted()
      requires Served() && !standalone
      ensures LiveGroups(Now(), false, topics) && TopicsOf(Now()) <= topics
      ensures forall name | name in Export(Now()) :: Importable(name, Export(Now())[name])
    {
      ExportAcceptedExactly(Now(), false, topics);
    }

    /** One request. */
    method Serve(op: Op)
      requires Served()
      modifies this
      ensures Served() && OffsetsAdvance(old(Now()), Now()) && (!op.CrashAndRestart? ==> Advances(old(Now()), Now()))
    {
      hide Inv, PortableName, Named, OffsetsAdvance, MembershipAdvances;
      if op.Register? || op.Delete? || op.Persist? || op.FinishChange? {
        ServeLifecycle(op);
      } else if op.Join? || op.Leave? || op.Expire? {
        ServeMembers(op);
      } else if op.Commit? || op.CommitFenced? || op.ApplyFenced? {
        ServeCommits(op);
      } else {
        ServeStorage(op);
      }
    }

    /**
     * Any run of requests. Within a registration no offset falls or vanishes, restarts included; epochs never fall;
     * and without a restart one generation has one membership. A snapshot taken at the end would be accepted.
     */
    method Run(ops: seq<Op>)
      requires Served()
      modifies this
      ensures Served() && OffsetsAdvance(old(Now()), Now())
      ensures (forall op | op in ops :: !op.CrashAndRestart?) ==> MembershipAdvances(old(Now()), Now())
      ensures !standalone ==> forall name | name in Export(Now()) :: Importable(name, Export(Now())[name])
    {
      hide Inv, PortableName, Named, OffsetsAdvance, MembershipAdvances, Export, Importable, LiveGroups;
      StandsStill(Now());
      for i := 0 to |ops|
        invariant Served() && OffsetsAdvance(old(Now()), Now())
        invariant (forall op | op in ops[..i] :: !op.CrashAndRestart?) ==> MembershipAdvances(old(Now()), Now())
      {
        ghost var before := Now();
        Serve(ops[i]);
        assert ops[..i + 1] == ops[..i] + [ops[i]];
        OffsetsAdvanceTransitive(old(Now()), before, Now());
        if forall op | op in ops[..i + 1] :: !op.CrashAndRestart? {
          assert forall op | op in ops[..i] :: op in ops[..i + 1];
          MembershipAdvancesTransitive(old(Now()), before, Now());
        }
      }
      assert ops[..|ops|] == ops;
      if !standalone { SnapshotIsAccepted(); }
    }
  }

  /** The records of commits as each finds its group. */
  ghost function FlightRecords(s: State, commits: seq<InFlight>): seq<Record> {
    seq(|commits|, i requires 0 <= i < |commits| =>
      if commits[i].name in s.groups then FlightRecord(s, commits[i]) else Tombstone("", "", 0))
  }

  ghost predicate Untouched(c: Config, s: State, name: string) {
    name in c.state.groups && name in s.groups && c.state.groups[name] == s.groups[name]
  }

  lemma ReadyHasGroup(c: Config, f: InFlight)
    requires Ready(c, f)
    ensures Untouched(c, c.state, f.name)
  {
  }

  lemma SameFlight(c: Config, s: State, f: InFlight)
    requires Untouched(c, s, f.name)
    ensures FlightRecord(c.state, f) == FlightRecord(s, f)
  {
  }

  lemma EmptyHistory(v: View)
    ensures History(v, []) && Outcome(v, []) == v
  {
  }

  lemma PairsAreApart(c: Config)
    requires Inv(c) && c.standalone && forall t | t in c.topics :: PortableName(t)
    ensures Apart(c.pairs)
  {
    PortableIsApart(c.pairs, c.topics);
  }

  lemma NamedMembers(s: State)
    requires Named(s)
    ensures forall g | g in s.groups :: "" !in s.groups[g].members
  {
  }

  lemma MemberlessIsNamed(s: State)
    requires Memberless(s)
    ensures Named(s)
  {
  }

  lemma TopicsKnown(s: State, topics: set<string>)
    requires LiveGroups(s, false, topics)
    ensures topics + TopicsOf(s) == topics
  {
  }

  /** A direct call may join a member without a name, and then the snapshot is refused; no request does that. */
  method NamelessJoinIsRefused() returns (accepted: bool)
    ensures !accepted
  {
    var c := new Coordinator(false);
    var begun := c.BeginRegister("t", "g", 1);
    var _ := c.PersistLifecycle(0, true);
    c.FinishLifecycle();
    assert "g" in ViewOf(c.Now()).groups;
    var joined := c.AddConsumer("g", "");
    assert "" in c.groups["g"].members;
    var snapshots := c.ExportState();
    ExportAcceptedExactly(c.Now(), false, c.topics);
    accepted := ValidateImportState(snapshots);
  }

  lemma RegroupedMembers(g: Group)
    ensures forall a :: Regrouped(g, a).members == a && Regrouped(g, a).generation == g.generation + 1
  {
  }

  lemma DistinctPartitions(c: Config, name: string)
    requires Inv(c) && name in c.state.groups
    ensures Distinct(c.state.groups[name].partitions)
    ensures forall i | 0 <= i < |c.state.groups[name].partitions| :: c.state.groups[name].partitions[i] == i
  {
    assert Legal(name, c.state.groups[name]);
    MadePartitions(|c.state.groups[name].partitions|);
  }

  ghost function ImportedConfig(c: Config, after: State): Config {
    c.(state := after, lifecycle := None, topics := c.topics + TopicsOf(after))
  }

  lemma ImportKeeps(c: Config, s: State, known: set<string>, after: State)
    requires Inv(c) && !c.standalone && LiveGroups(s, false, known) && after == Import(Export(s))
    ensures Inv(ImportedConfig(c, after))
  {
    ImportUndoesExport(s, false, known);
  }
}
