/**
 * The partitions of the internal metadata topic: appends, and key compaction of their closed segments as
 * pkg/disk/compaction.go performs it. Both are related to the view the stored records stand for.
 */
module MetadataTopic {
  import opened Common
  import opened MetadataRecord
  import opened DurableView
  import opened Replay
  import Compaction
  import Filtering

  /** What compaction sees of a metadata message: keyed, outside any transaction, without a producer. */
  function MessageHeader(m: Message): Compaction.Header<Key> {
    Compaction.Header(m.offset, Some(m.key), None)
  }

  /** Later messages of a key are newer records of it. */
  ghost predicate KeyOrdered(log: seq<Message>) {
    forall i, j | 0 <= i < j < |log| && log[i].key == log[j].key :: Newer(log[j].record, log[i].record)
  }

  predicate PlainRecord(r: Record) {
    ValidRecord(r) && (r.Registration? ==> r.initial == map[])
  }

  ghost predicate StoredLog(log: seq<Message>, start: nat, end: nat) {
    && Increasing(log)
    && (forall m | m in log :: start <= m.offset < end && m.key == RecordKey(m.record) && PlainRecord(m.record))
  }

  lemma AppendToLog(logs: seq<seq<Message>>, p: nat, m: Message)
    requires p < |logs|
    ensures StoredRecords(logs[p := logs[p] + [m]]) == StoredRecords(logs) + {m.record}
  {
    var after: seq<seq<Message>> := logs[p := logs[p] + [m]];
    forall r | r in StoredRecords(logs) ensures r in StoredRecords(after) {
      var i, n :| 0 <= i < |logs| && n in logs[i] && n.record == r;
      assert n in after[i];
    }
    assert m in after[p];
    forall r | r in StoredRecords(after) ensures r in StoredRecords(logs) + {m.record} {
      var i, n :| 0 <= i < |after| && n in after[i] && n.record == r;
      assert n in logs[i] || n == m;
    }
  }

  lemma AppendKeepsKeyOrder(logs: seq<seq<Message>>, p: nat, m: Message, v: View)
    requires p < |logs| && KeyOrdered(logs[p])
    requires forall n | n in logs[p] :: n.key == RecordKey(n.record)
    requires m.key == RecordKey(m.record)
    requires Consistent(StoredRecords(logs), v) && Enabled(v, m.record)
    requires Apart(PairsOf(StoredRecords(logs) + {m.record}))
    ensures KeyOrdered(logs[p] + [m])
  {
    var log := logs[p] + [m];
    forall i | 0 <= i < |logs[p]| && log[i].key == m.key ensures Newer(m.record, log[i].record) {
      assert logs[p][i] in logs[p];
      EnabledIsNewest(StoredRecords(logs), v, m.record, log[i].record);
    }
  }

  /** Appending an enabled record to any partition advances the view the topic stands for. */
  lemma PublishAdvancesView(logs: seq<seq<Message>>, p: nat, m: Message, v: View)
    requires p < |logs| && (forall i | 0 <= i < |logs| :: KeyOrdered(logs[i]))
    requires forall n | n in logs[p] :: n.key == RecordKey(n.record)
    requires m.key == RecordKey(m.record)
    requires Consistent(StoredRecords(logs), v) && Enabled(v, m.record)
    requires Apart(PairsOf(StoredRecords(logs) + {m.record}))
    ensures var after := logs[p := logs[p] + [m]];
            Consistent(StoredRecords(after), Apply(v, m.record)) && forall i | 0 <= i < |after| :: KeyOrdered(after[i])
  {
    AppendToLog(logs, p, m);
    AppendKeepsKeyOrder(logs, p, m, v);
    AppendKeepsConsistent(StoredRecords(logs), v, m.record);
  }

  /** The log of a partition once compaction has rewritten its first `done` messages. */
  function Compacted(log: seq<Message>, done: nat, latest: Compaction.Latest<Key>): seq<Message>
    requires done <= |log|
  {
    Compaction.Survivors(log[..done], MessageHeader, latest) + log[done..]
  }

  /** Of the first `done` messages exactly those stay whose key no later one of the `closed` messages has. */
  ghost predicate KeepsNewest(log: seq<Message>, done: nat, closed: nat, after: seq<Message>)
    requires done <= closed <= |log|
  {
    && (forall m | m in after :: m in log) && (forall m | m in log[done..] :: m in after)
    && forall i | 0 <= i < done :: log[i] in after <==> forall j | i < j < closed :: log[j].key != log[i].key
  }

  lemma CompactedKeepsNewest(log: seq<Message>, done: nat, closed: nat, latest: Compaction.Latest<Key>)
    requires done <= closed <= |log| && Compaction.Ordered(log, MessageHeader)
    requires Compaction.IsLatest(log[..closed], MessageHeader, latest)
    ensures KeepsNewest(log, done, closed, Compacted(log, done, latest))
  {
    hide Compaction.IsLatest;
    var head, after := log[..closed], Compacted(log, done, latest);
    assert log == log[..done] + log[done..];
    forall i | 0 <= i < done ensures log[i] in after <==> forall j | i < j < closed :: log[j].key != log[i].key {
      assert head[i] == log[i] && log[..done][i] == log[i];
      assert forall j | i < j < closed :: head[j] == log[j];
      Compaction.RemovesExactlySuperseded(head, MessageHeader, latest, i);
      assert log[i] in log[..done];
      assert log[i] !in log[done..] by { NotLater(log, done, i); }
      if j :| i < j < closed && log[j].key == log[i].key {
        assert Compaction.KeyOf(MessageHeader(head[j])) == Compaction.KeyOf(MessageHeader(head[i]));
      }
    }
  }

  lemma NotLater(log: seq<Message>, done: nat, i: nat)
    requires i < done <= |log| && Compaction.Ordered(log, MessageHeader)
    ensures log[i] !in log[done..]
  {
    forall j | done <= j < |log| ensures log[j] != log[i] {
      assert MessageHeader(log[i]).offset < MessageHeader(log[j]).offset;
    }
  }

  /** Lifecycle records of one group share a key, snapshots of one group and topic do, and nothing else does. */
  lemma KeysMean(r: Record, s: Record)
    requires r.OffsetSnapshot? && s.OffsetSnapshot? ==> Apart({(r.group, r.topic), (s.group, s.topic)})
    ensures RecordKey(r) == RecordKey(s) <==>
              r.OffsetSnapshot? == s.OffsetSnapshot? && r.group == s.group && (r.OffsetSnapshot? ==> r.topic == s.topic)
  {
  }

  lemma CompactedIsStored(log: seq<Message>, closed: nat, latest: Compaction.Latest<Key>, start: nat, end: nat)
    requires closed <= |log| && StoredLog(log, start, end)
    ensures StoredLog(Compacted(log, closed, latest), start, end)
    ensures KeyOrdered(log) ==> KeyOrdered(Compacted(log, closed, latest))
  {
    var keep := Compaction.Keeper(MessageHeader, latest);
    var before := (m: Message, n: Message) => m.offset < n.offset;
    var newer := (m: Message, n: Message) => m.key == n.key ==> Newer(n.record, m.record);
    assert log == log[..closed] + log[closed..];
    assert Filtering.Chain(log, before);
    Filtering.FilterPrefixKeepsChain(log[..closed], log[closed..], keep, before);
    if KeyOrdered(log) {
      assert Filtering.Chain(log, newer);
      Filtering.FilterPrefixKeepsChain(log[..closed], log[closed..], keep, newer);
    }
  }

  /** A message dropped from the first part of the closed messages is one a whole pass would drop. */
  lemma DroppedAnyway(log: seq<Message>, done: nat, closed: nat, latest: Compaction.Latest<Key>, n: Message)
    requires done <= closed <= |log| && n in log && n !in Compacted(log, done, latest)
    ensures n in log[..closed] && n !in Compaction.Survivors(log[..closed], MessageHeader, latest)
  {
    assert log == log[..done] + log[done..] && log[..done] == log[..closed][..done];
  }

  lemma DroppedHasNewer(log: seq<Message>, done: nat, closed: nat, latest: Compaction.Latest<Key>, n: Message)
    requires done <= closed <= |log| && Increasing(log) && KeyOrdered(log)
    requires Compaction.IsLatest(log[..closed], MessageHeader, latest)
    requires n in log && n !in Compacted(log, done, latest)
    ensures exists m :: m in log && Newer(m.record, n.record)
  {
    hide Compaction.IsLatest, Compaction.Survivors, Compacted;
    DroppedAnyway(log, done, closed, latest, n);
    var head := log[..closed];
    var k :| 0 <= k < |head| && head[k] == n;
    Compaction.RemovedHasSuccessor(head, MessageHeader, latest, k);
    var j :| k < j < |head| && MessageHeader(head[j]).key == MessageHeader(head[k]).key;
    assert log[k] == n && log[j] == head[j];
    assert log[j] in log && Newer(log[j].record, n.record);
  }

  lemma CompactedWithin(log: seq<Message>, closed: nat, latest: Compaction.Latest<Key>, m: Message)
    requires closed <= |log| && m in Compacted(log, closed, latest)
    ensures m in log
  {
    assert log == log[..closed] + log[closed..];
  }

  lemma CompactedRecords(logs: seq<seq<Message>>, p: nat, closed: nat, latest: Compaction.Latest<Key>)
    requires p < |logs| && closed <= |logs[p]|
    ensures StoredRecords(logs[p := Compacted(logs[p], closed, latest)]) <= StoredRecords(logs)
  {
    var after: seq<seq<Message>> := logs[p := Compacted(logs[p], closed, latest)];
    forall r | r in StoredRecords(after) ensures r in StoredRecords(logs) {
      var i, n :| 0 <= i < |after| && n in after[i] && n.record == r;
      if i == p { CompactedWithin(logs[p], closed, latest, n); }
      assert n in logs[i];
    }
  }

  /**
   * Compaction of any closed part of one partition, finished or interrupted after its first `done` messages, keeps
   * the stored records consistent with the same view.
   */
  lemma CompactionKeepsView(
    logs: seq<seq<Message>>, p: nat, done: nat, closed: nat, latest: Compaction.Latest<Key>, v: View)
    requires p < |logs| && done <= closed <= |logs[p]| && Increasing(logs[p]) && KeyOrdered(logs[p])
    requires Compaction.IsLatest(logs[p][..closed], MessageHeader, latest)
    requires Consistent(StoredRecords(logs), v)
    ensures Consistent(StoredRecords(logs[p := Compacted(logs[p], done, latest)]), v)
  {
    var after: seq<seq<Message>> := logs[p := Compacted(logs[p], done, latest)];
    CompactedRecords(logs, p, done, latest);
    forall r | r in StoredRecords(logs) && r !in StoredRecords(after)
      ensures exists s :: s in StoredRecords(logs) && Newer(s, r)
    {
      var i, n :| 0 <= i < |logs| && n in logs[i] && n.record == r;
      assert n !in after[i];
      DroppedHasNewer(logs[p], done, closed, latest, n);
      var m :| m in logs[p] && Newer(m.record, r);
      assert m.record in StoredRecords(logs);
    }
    DropKeepsConsistent(StoredRecords(logs), StoredRecords(after), v);
  }

  lemma RebuiltTopicIsLegal(stored: set<Record>, c: Candidates, v: View, g: string, t: string)
    requires CandidatesOf(stored, c) && Replayable(c, c.snapshots.Values) && Materialized(c, c.snapshots.Values, v)
    requires g in v.groups && (t in v.groups[g].offsets || t in v.groups[g].revisions)
    requires forall r | r in stored :: PlainRecord(r)
    ensures t in v.groups[g].offsets && t in v.groups[g].revisions && v.groups[g].revisions[t] != 0
    ensures PartitionsBelow(v.groups[g].offsets[t], v.groups[g].partitionCount) && TopicMatches(v.groups[g].topic, t)
  {
    assert Newest(c, c.snapshots.Values, g, v.groups[g], t);
    var r :| r in c.snapshots.Values && Current(c, r) && r.group == g && r.topic == t
             && r.revision == GetOrZero(v.groups[g].revisions, t) && r.offsets == CurrentOffsets(v.groups[g], t);
    assert Acceptable(c, r) && ValidRecord(r);
  }

  /** Whatever replay rebuilds from stored records is well formed, even for names that run together. */
  lemma ReplayIsLegal(stored: set<Record>, v: View)
    requires ReplayOf(stored, v) && forall r | r in stored :: PlainRecord(r)
    ensures v.groups.Keys <= v.epochs.Keys
    ensures forall g | g in v.epochs :: g != "" && v.epochs[g] != 0
    ensures forall g | g in v.groups :: WellFormedGroup(g, v.groups[g]) && v.groups[g].epoch == v.epochs[g]
  {
    var c :| CandidatesOf(stored, c) && Replayable(c, c.snapshots.Values) && Materialized(c, c.snapshots.Values, v);
    forall g | g in v.groups ensures WellFormedGroup(g, v.groups[g]) {
      forall t | t in v.groups[g].offsets || t in v.groups[g].revisions
        ensures t in v.groups[g].offsets && t in v.groups[g].revisions && v.groups[g].revisions[t] != 0
        ensures PartitionsBelow(v.groups[g].offsets[t], v.groups[g].partitionCount)
        ensures TopicMatches(v.groups[g].topic, t)
      {
        RebuiltTopicIsLegal(stored, c, v, g, t);
      }
    }
  }
}
