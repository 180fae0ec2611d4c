/** What every coordinator operation keeps, stated over values. */
module CoordinatorInvariant {
  import opened Common
  import opened MetadataRecord
  import opened DurableView
  import opened Replay
  import opened GroupState
  import opened RangeAssignment
  import opened MetadataTopic

  /** A lifecycle operation whose record is about to be written, or has been. */
  datatype PendingWrite = PendingWrite(record: Record, persisted: bool)

  ghost predicate LiveGroups(s: State, standalone: bool, topics: set<string>) {
    && s.groups.Keys <= s.epochs.Keys
    && (forall g | g in s.epochs :: g != "" && s.epochs[g] != 0)
    && (forall g | g in s.groups ::
          Legal(g, s.groups[g]) && s.groups[g].registrationEpoch == s.epochs[g] && s.groups[g].topic in topics)
    && (standalone ==> forall g | g in s.groups :: s.groups[g].offsets.Keys == s.groups[g].revisions.Keys)
  }

  ghost predicate LifecycleOk(s: State, lifecycle: Option<PendingWrite>, topics: set<string>) {
    lifecycle.Some? ==>
      var r := lifecycle.value.record;
      && r.Lifecycle() && Enabled(ViewOf(s), r) && (r.Registration? ==> r.topic in topics)
      && (r.Tombstone? ==> s.groups[r.group].members == map[])
  }

  /** What must survive a crash: the live state, or what it becomes once a persisted lifecycle change finishes. */
  ghost function DurableOf(s: State, lifecycle: Option<PendingWrite>): View {
    if lifecycle.Some? && lifecycle.value.persisted && Enabled(ViewOf(s), lifecycle.value.record)
    then Apply(ViewOf(s), lifecycle.value.record)
    else ViewOf(s)
  }

  ghost predicate LogsOk(logs: seq<seq<Message>>, starts: seq<nat>, ends: seq<nat>) {
    && |logs| == |starts| == |ends| && |logs| > 0
    && forall p | 0 <= p < |logs| :: starts[p] <= ends[p] && StoredLog(logs[p], starts[p], ends[p])
  }

  /** The stored records stand for a view, and compaction finds the records of a key in order. */
  ghost predicate Stands(logs: seq<seq<Message>>, v: View) {
    Consistent(StoredRecords(logs), v) && forall p | 0 <= p < |logs| :: KeyOrdered(logs[p])
  }

  lemma AppendKeepsLogs(logs: seq<seq<Message>>, starts: seq<nat>, ends: seq<nat>, p: nat, r: Record)
    requires LogsOk(logs, starts, ends) && p < |logs| && PlainRecord(r)
    ensures LogsOk(logs[p := logs[p] + [Message(ends[p], RecordKey(r), r)]], starts, ends[p := ends[p] + 1])
  {
    var m := Message(ends[p], RecordKey(r), r);
    assert StoredLog(logs[p] + [m], starts[p], ends[p] + 1) by {
      assert forall i | 0 <= i < |logs[p]| :: logs[p][i] in logs[p];
    }
  }

  /** Publishing an enabled record of a group with no lifecycle change in flight advances the durable view. */
  lemma PublishAdvances(logs: seq<seq<Message>>, starts: seq<nat>, ends: seq<nat>, p: nat, m: Message, v: View)
    requires LogsOk(logs, starts, ends) && p < |logs| && m.key == RecordKey(m.record)
    requires Stands(logs, v) && Enabled(v, m.record)
    requires Apart(PairsOf(StoredRecords(logs) + {m.record}))
    ensures Stands(logs[p := logs[p] + [m]], Apply(v, m.record))
  {
    PublishAdvancesView(logs, p, m, v);
  }

  // ---------------------------------------------------------------------------------------------
  // Finishing a lifecycle change

  function Completed(s: State, r: Record): State
    requires r.Lifecycle() && (r.Registration? ==> r.partitionCount >= 0)
  {
    if r.Registration?
    then State(s.groups[r.group := Group(r.topic, map[], 0, MakePartitions(r.partitionCount), map[], r.epoch, map[])],
               s.epochs[r.group := r.epoch])
    else State(s.groups - {r.group}, s.epochs[r.group := r.epoch])
  }

  lemma CompletedView(s: State, r: Record)
    requires r.Lifecycle() && Enabled(ViewOf(s), r)
    ensures ViewOf(Completed(s, r)) == Apply(ViewOf(s), r)
  {
    assert ViewOf(Completed(s, r)).groups == Apply(ViewOf(s), r).groups;
  }

  lemma CompletedIsLive(s: State, r: Record, standalone: bool, topics: set<string>)
    requires LiveGroups(s, standalone, topics) && r.Lifecycle() && Enabled(ViewOf(s), r)
    requires r.Registration? ==> r.topic in topics
    ensures LiveGroups(Completed(s, r), standalone, topics)
  {
    hide SplitEvenly, ByRank;
    if r.Registration? {
      assert Legal(r.group, Completed(s, r).groups[r.group]);
    }
  }

  lemma CompletedAdvances(s: State, r: Record)
    requires s.groups.Keys <= s.epochs.Keys && r.Lifecycle() && Enabled(ViewOf(s), r)
    ensures OffsetsAdvance(s, Completed(s, r)) && MembershipAdvances(s, Completed(s, r))
  {
  }

  // ---------------------------------------------------------------------------------------------
  // Changing one live group

  function Replace(s: State, name: string, h: Group): State {
    s.(groups := s.groups[name := h])
  }

  lemma ReplaceKeeps(s: State, name: string, h: Group, standalone: bool, topics: set<string>)
    requires LiveGroups(s, standalone, topics) && name in s.groups
    requires Legal(name, h) && h.registrationEpoch == s.groups[name].registrationEpoch
    requires h.topic == s.groups[name].topic
    requires standalone ==> h.offsets.Keys == h.revisions.Keys
    requires OffsetsKept(s.groups[name], h) && MembershipKept(s.groups[name], h)
    ensures LiveGroups(Replace(s, name, h), standalone, topics)
    ensures OffsetsAdvance(s, Replace(s, name, h)) && MembershipAdvances(s, Replace(s, name, h))
  {
    hide Legal, OffsetsKept, MembershipKept;
    SameIsKept();
  }

  lemma SameIsKept()
    ensures forall g :: OffsetsKept(g, g) && MembershipKept(g, g)
  {
  }

  /** Changing members changes nothing durable. */
  lemma MembersAreNotDurable(s: State, name: string, h: Group, lifecycle: Option<PendingWrite>, topics: set<string>)
    requires name in s.groups && ToDurable(h) == ToDurable(s.groups[name])
    requires LifecycleOk(s, lifecycle, topics)
    requires lifecycle.Some? ==> lifecycle.value.record.group != name
    ensures ViewOf(Replace(s, name, h)) == ViewOf(s)
    ensures LifecycleOk(Replace(s, name, h), lifecycle, topics)
    ensures DurableOf(Replace(s, name, h), lifecycle) == DurableOf(s, lifecycle)
  {
    assert ViewOf(Replace(s, name, h)).groups == ViewOf(s).groups;
  }

  /** A commit while another group's lifecycle change is in flight. */
  lemma CommitIsDurable(s: State, name: string, h: Group, r: Record, lifecycle: Option<PendingWrite>,
                        topics: set<string>)
    requires r.OffsetSnapshot? && r.group == name && Enabled(ViewOf(s), r)
    requires name in s.groups && ToDurable(h) == Apply(ViewOf(s), r).groups[name]
    requires h.members == s.groups[name].members
    requires LifecycleOk(s, lifecycle, topics)
    requires lifecycle.Some? ==> lifecycle.value.record.group != name
    ensures LifecycleOk(Replace(s, name, h), lifecycle, topics)
    ensures Enabled(DurableOf(s, lifecycle), r)
    ensures DurableOf(Replace(s, name, h), lifecycle) == Apply(DurableOf(s, lifecycle), r)
  {
    var v := ViewOf(s);
    assert ViewOf(Replace(s, name, h)) == Apply(v, r) by {
      assert ViewOf(Replace(s, name, h)).groups == Apply(v, r).groups;
    }
    if lifecycle.Some? {
      ApplyCommutes(v, lifecycle.value.record, r);
    }
  }

  /** The topics of the durable view are known. */
  lemma DurableTopics(s: State, lifecycle: Option<PendingWrite>, standalone: bool, topics: set<string>)
    requires LiveGroups(s, standalone, topics) && LifecycleOk(s, lifecycle, topics)
    ensures forall g | g in DurableOf(s, lifecycle).groups :: DurableOf(s, lifecycle).groups[g].topic in topics
  {
  }

  // ---------------------------------------------------------------------------------------------
  // Offset commits

  /** The snapshot record of a batch. */
  function SnapshotRecord(name: string, g: Group, topic: string, items: seq<OffsetItem>): Record {
    OffsetSnapshot(name, topic, g.registrationEpoch, IncWrap(GetOrZero(g.revisions, topic)),
                   TopicOffsets(g, topic) + ItemMap(items))
  }

  /** A standalone group stores only what it has written; a distributed one stores what the metadata log applied. */
  function CommittedGroup(g: Group, topic: string, items: seq<OffsetItem>, standalone: bool): Group {
    if !standalone then Store(g, topic, items)
    else if !Changes(TopicOffsets(g, topic), items) then g
    else Store(g, topic, items).(revisions := g.revisions[topic := IncWrap(GetOrZero(g.revisions, topic))])
  }

  /** The snapshot of a changing batch can be encoded. */
  predicate Encodable(g: Group, topic: string) {
    topic != "" && GetOrZero(g.revisions, topic) != MAX_U64
  }

  lemma SnapshotIsValid(name: string, g: Group, topic: string, items: seq<OffsetItem>)
    requires Legal(name, g) && Changes(TopicOffsets(g, topic), items) && InRange(items, |g.partitions|)
    ensures ValidRecord(SnapshotRecord(name, g, topic, items)) <==> Encodable(g, topic)
  {
    hide SplitEvenly, ByRank;
    ItemMapMembers(items);
    var merged := TopicOffsets(g, topic) + ItemMap(items);
    var item :| item in items;
    assert item.partition in merged;
    assert forall q | q in merged :: q >= 0;
  }

  lemma SnapshotIsEnabled(s: State, name: string, topic: string, items: seq<OffsetItem>, topics: set<string>)
    requires LiveGroups(s, true, topics) && name in s.groups
    requires BatchAllowed(s.groups[name], topic, items) && InRange(items, |s.groups[name].partitions|)
    requires Changes(TopicOffsets(s.groups[name], topic), items)
    requires ValidRecord(SnapshotRecord(name, s.groups[name], topic, items))
    ensures Enabled(ViewOf(s), SnapshotRecord(name, s.groups[name], topic, items))
    ensures ToDurable(CommittedGroup(s.groups[name], topic, items, true))
            == Apply(ViewOf(s), SnapshotRecord(name, s.groups[name], topic, items)).groups[name]
  {
    hide SplitEvenly, ByRank;
    var g := s.groups[name];
    assert Legal(name, g);
    MergeDominates(TopicOffsets(g, topic), items);
    ItemMapMembers(items);
    assert CurrentOffsets(ToDurable(g), topic) == TopicOffsets(g, topic);
    assert PartitionsBelow(TopicOffsets(g, topic) + ItemMap(items), |g.partitions|);
  }

  lemma CommittedKeeps(name: string, g: Group, topic: string, items: seq<OffsetItem>, standalone: bool)
    requires Legal(name, g) && BatchAllowed(g, topic, items) && InRange(items, |g.partitions|)
    requires standalone && Changes(TopicOffsets(g, topic), items) ==> Encodable(g, topic)
    requires standalone ==> g.offsets.Keys == g.revisions.Keys
    ensures Legal(name, CommittedGroup(g, topic, items, standalone))
    ensures OffsetsKept(g, CommittedGroup(g, topic, items, standalone))
    ensures MembershipKept(g, CommittedGroup(g, topic, items, standalone))
    ensures standalone ==> CommittedGroup(g, topic, items, standalone).offsets.Keys
                           == CommittedGroup(g, topic, items, standalone).revisions.Keys
  {
    hide SplitEvenly, ByRank;
    StoreKeepsLegal(name, g, topic, items);
    MergeDominates(TopicOffsets(g, topic), items);
  }

  /** The stored offset of a partition, if there is one. */
  function OffsetAt(g: Group, topic: string, partition: int): Option<u64> {
    if topic in g.offsets && partition in g.offsets[topic] then Some(g.offsets[topic][partition]) else None
  }

  /** A completed commit leaves the requested offsets in its partitions and everything else as it was. */
  lemma CommittedOffsets(g: Group, topic: string, items: seq<OffsetItem>, standalone: bool, t: string, p: int)
    requires NoDuplicates(items)
    ensures forall item | item in items ::
              OffsetAt(CommittedGroup(g, topic, items, standalone), topic, item.partition) == Some(item.offset)
    ensures t != topic || (forall item | item in items :: item.partition != p) ==>
              OffsetAt(CommittedGroup(g, topic, items, standalone), t, p) == OffsetAt(g, t, p)
  {
    ItemMapMembers(items);
    forall item | item in items
      ensures OffsetAt(CommittedGroup(g, topic, items, standalone), topic, item.partition) == Some(item.offset)
    {
      ItemMapValues(items, item);
    }
  }

  // ---------------------------------------------------------------------------------------------
  // The whole coordinator

  datatype Config = Config(
    standalone: bool, state: State, lifecycle: Option<PendingWrite>,
    logs: seq<seq<Message>>, starts: seq<nat>, ends: seq<nat>,
    topics: set<string>,             // every topic a group was registered for
    pairs: set<(string, string)>)    // every group and topic offsets were written for

  /**
   * The invariant. For a standalone coordinator whose (group, topic) pairs can be told apart, the stored records
   * always stand for the durable view.
   */
  ghost predicate Inv(c: Config) {
    && LiveGroups(c.state, c.standalone, c.topics)
    && LifecycleOk(c.state, c.lifecycle, c.topics)
    && LogsOk(c.logs, c.starts, c.ends)
    && TopicStands(c)
  }

  lemma InvShape(c: Config)
    requires Inv(c)
    ensures |c.ends| == |c.logs| == |c.starts|
  {
  }

  ghost predicate TopicStands(c: Config) {
    c.standalone ==>
      && PairsOf(StoredRecords(c.logs)) <= c.pairs && PairsMatch(c.pairs, c.topics)
      && (Apart(c.pairs) ==> Stands(c.logs, DurableOf(c.state, c.lifecycle)))
  }

  /** Offsets are written only for topics some registration matches. */
  ghost predicate PairsMatch(pairs: set<(string, string)>, topics: set<string>) {
    forall x | x in pairs :: exists t :: t in topics && TopicMatches(t, x.1)
  }

  /** With topics that exist, no two pairs run together, whatever the groups are called. */
  lemma PortableIsApart(pairs: set<(string, string)>, topics: set<string>)
    requires PairsMatch(pairs, topics) && forall t | t in topics :: PortableName(t)
    ensures Apart(pairs)
  {
    forall x | x in pairs ensures NUL !in x.1 {
      var t :| t in topics && TopicMatches(t, x.1);
      PortableMatchesItself(t, x.1);
    }
    NulFreeTopicsAreApart(pairs);
  }

  lemma MorePairs(pairs: set<(string, string)>, topics: set<string>, x: (string, string), more: set<string>)
    requires PairsMatch(pairs, topics) && topics <= more && exists t :: t in topics && TopicMatches(t, x.1)
    ensures PairsMatch(pairs + {x}, more) && PairsMatch(pairs, more)
  {
    forall y | y in pairs + {x} ensures exists t :: t in more && TopicMatches(t, y.1) {
      var t :| t in topics && TopicMatches(t, y.1);
      assert t in more;
    }
  }

  lemma MoreTopics(pairs: set<(string, string)>, topics: set<string>, more: set<string>)
    requires PairsMatch(pairs, topics) && topics <= more
    ensures PairsMatch(pairs, more)
  {
    forall y | y in pairs ensures exists t :: t in more && TopicMatches(t, y.1) {
      var t :| t in topics && TopicMatches(t, y.1);
      assert t in more;
    }
  }

  ghost predicate Advances(s: State, t: State) {
    OffsetsAdvance(s, t) && MembershipAdvances(s, t)
  }

  lemma StandsStill(s: State)
    ensures Advances(s, s)
  {
  }

  /** Every member has a name. */
  ghost predicate Named(s: State) {
    forall g | g in s.groups :: "" !in s.groups[g].members
  }

  lemma RegroupedIsNamed(s: State, name: string, assignments: map<string, seq<int>>)
    requires Named(s) && name in s.groups && "" !in assignments
    ensures Named(Replace(s, name, Regrouped(s.groups[name], assignments)))
  {
  }

  /** Appends a record to a partition, unless the coordinator keeps no metadata topic. */
  function Append(c: Config, p: nat, r: Record): Config
    requires p < |c.logs| && |c.ends| == |c.logs|
  {
    if !c.standalone then c
    else c.(logs := c.logs[p := c.logs[p] + [Message(c.ends[p], RecordKey(r), r)]], ends := c.ends[p := c.ends[p] + 1],
            pairs := PairsWith(c.pairs, r))
  }

  function PairsWith(pairs: set<(string, string)>, r: Record): set<(string, string)> {
    if r.OffsetSnapshot? then pairs + {(r.group, r.topic)} else pairs
  }

  lemma PairsOfMore(stored: set<Record>, r: Record, pairs: set<(string, string)>)
    requires PairsOf(stored) <= pairs
    ensures PairsOf(stored + {r}) <= PairsWith(pairs, r)
  {
  }

  lemma BeginKeeps(c: Config, r: Record)
    requires Inv(c) && c.lifecycle.None? && r.Lifecycle() && Enabled(ViewOf(c.state), r)
    requires r.Tombstone? ==> c.state.groups[r.group].members == map[]
    ensures Inv(c.(lifecycle := Some(PendingWrite(r, false)), topics := TopicsWith(c.topics, r)))
  {
    if c.standalone { MoreTopics(c.pairs, c.topics, TopicsWith(c.topics, r)); }
  }

  function TopicsWith(topics: set<string>, r: Record): set<string> {
    if r.Registration? then topics + {r.topic} else topics
  }

  lemma AppendKeepsConfigLogs(c: Config, p: nat, r: Record)
    requires LogsOk(c.logs, c.starts, c.ends) && c.standalone && p < |c.logs| && PlainRecord(r)
    ensures LogsOk(Append(c, p, r).logs, c.starts, Append(c, p, r).ends)
  {
    AppendKeepsLogs(c.logs, c.starts, c.ends, p, r);
  }

  lemma AppendStands(c: Config, p: nat, r: Record, v: View)
    requires LogsOk(c.logs, c.starts, c.ends) && c.standalone && p < |c.logs|
    requires Stands(c.logs, v) && Enabled(v, r) && PairsOf(StoredRecords(c.logs)) <= c.pairs
    requires Apart(PairsWith(c.pairs, r))
    ensures Stands(Append(c, p, r).logs, Apply(v, r))
  {
    PairsOfMore(StoredRecords(c.logs), r, c.pairs);
    FewerApart(PairsOf(StoredRecords(c.logs) + {r}), PairsWith(c.pairs, r));
    PublishAdvances(c.logs, c.starts, c.ends, p, Message(c.ends[p], RecordKey(r), r), v);
  }

  /** The pairs of a lengthened log. */
  lemma AppendKeepsPairs(c: Config, p: nat, r: Record)
    requires c.standalone && p < |c.logs| == |c.ends| && PairsOf(StoredRecords(c.logs)) <= c.pairs
    ensures PairsOf(StoredRecords(Append(c, p, r).logs)) <= Append(c, p, r).pairs
  {
    AppendToLog(c.logs, p, Message(c.ends[p], RecordKey(r), r));
    PairsOfMore(StoredRecords(c.logs), r, c.pairs);
  }

  /** Appending the record that takes one durable view to the next. */
  lemma AppendKeepsTopic(c: Config, d: Config, p: nat, r: Record)
    requires Inv(c) && c.standalone && p < |c.logs| && PlainRecord(r)
    requires r.OffsetSnapshot? ==> exists t :: t in c.topics && TopicMatches(t, r.topic)
    requires Enabled(DurableOf(c.state, c.lifecycle), r)
    requires DurableOf(d.state, d.lifecycle) == Apply(DurableOf(c.state, c.lifecycle), r)
    requires d.standalone && d.topics == c.topics && d.pairs == Append(c, p, r).pairs
    requires d.logs == Append(c, p, r).logs && d.starts == c.starts && d.ends == Append(c, p, r).ends
    ensures TopicStands(d) && LogsOk(d.logs, d.starts, d.ends)
  {
    hide Stands, Apart, Enabled, Apply, DurableOf, PairsMatch, PairsOf, StoredRecords;
    AppendKeepsConfigLogs(c, p, r);
    AppendKeepsPairs(c, p, r);
    if r.OffsetSnapshot? { MorePairs(c.pairs, c.topics, (r.group, r.topic), c.topics); }
    if Apart(d.pairs) {
      FewerApart(c.pairs, d.pairs);
      AppendStands(c, p, r, DurableOf(c.state, c.lifecycle));
    }
  }

  lemma PersistKeeps(c: Config, p: nat)
    requires Inv(c) && c.lifecycle.Some? && !c.lifecycle.value.persisted && p < |c.logs|
    ensures Inv(Append(c, p, c.lifecycle.value.record).(lifecycle := Some(c.lifecycle.value.(persisted := true))))
  {
    var r := c.lifecycle.value.record;
    var d := Append(c, p, r).(lifecycle := Some(c.lifecycle.value.(persisted := true)));
    assert LifecycleOk(d.state, d.lifecycle, d.topics);
    if c.standalone {
      AppendKeepsTopic(c, d, p, r);
    }
  }

  lemma FinishKeeps(c: Config)
    requires Inv(c) && c.lifecycle.Some? && c.lifecycle.value.persisted
    ensures Inv(c.(state := Completed(c.state, c.lifecycle.value.record), lifecycle := None))
    ensures ViewOf(Completed(c.state, c.lifecycle.value.record)) == DurableOf(c.state, c.lifecycle)
    ensures Advances(c.state, Completed(c.state, c.lifecycle.value.record))
    ensures Named(c.state) ==> Named(Completed(c.state, c.lifecycle.value.record))
  {
    var r := c.lifecycle.value.record;
    CompletedView(c.state, r);
    CompletedIsLive(c.state, r, c.standalone, c.topics);
    CompletedAdvances(c.state, r);
  }

  lemma AbandonKeeps(c: Config)
    requires Inv(c) && c.lifecycle.Some? && !c.lifecycle.value.persisted
    ensures Inv(c.(lifecycle := None)) && Advances(c.state, c.state)
    ensures ViewOf(c.state) == DurableOf(c.state, c.lifecycle)
  {
  }

  function Regrouped(g: Group, assignments: map<string, seq<int>>): Group {
    g.(members := assignments, generation := g.generation + 1)
  }

  lemma RegroupKeeps(c: Config, name: string, assignments: map<string, seq<int>>)
    requires Inv(c) && name in c.state.groups && (c.lifecycle.Some? ==> c.lifecycle.value.record.group != name)
    requires assignments != map[] ==>
               SplitEvenly(assignments, c.state.groups[name].partitions)
               && ByRank(assignments, c.state.groups[name].partitions)
    ensures Inv(c.(state := Replace(c.state, name, Regrouped(c.state.groups[name], assignments))))
    ensures Advances(c.state, Replace(c.state, name, Regrouped(c.state.groups[name], assignments)))
  {
    var h := Regrouped(c.state.groups[name], assignments);
    assert Legal(name, c.state.groups[name]);
    ReplaceKeeps(c.state, name, h, c.standalone, c.topics);
    MembersAreNotDurable(c.state, name, h, c.lifecycle, c.topics);
  }

  /** The state after an accepted batch. */
  function Committed(c: Config, name: string, topic: string, items: seq<OffsetItem>): State
    requires name in c.state.groups
  {
    Replace(c.state, name, CommittedGroup(c.state.groups[name], topic, items, c.standalone))
  }

  lemma CommittedIsNamed(c: Config, name: string, topic: string, items: seq<OffsetItem>)
    requires Named(c.state) && name in c.state.groups
    ensures Named(Committed(c, name, topic, items))
  {
  }

  /** A batch that has to be written and cannot be encoded is refused. */
  predicate Writable(c: Config, name: string, topic: string, items: seq<OffsetItem>)
    requires name in c.state.groups
  {
    c.standalone && Changes(TopicOffsets(c.state.groups[name], topic), items) ==> Encodable(c.state.groups[name], topic)
  }

  predicate Committable(c: Config, name: string, topic: string, items: seq<OffsetItem>)
    requires name in c.state.groups
  {
    BatchAllowed(c.state.groups[name], topic, items) && InRange(items, |c.state.groups[name].partitions|)
  }

  /** Exactly when a commit goes through; `ok` is the answer of the metadata topic, asked only for a change. */
  predicate CanCommit(c: Config, name: string, topic: string, items: seq<OffsetItem>, ok: bool) {
    && name in c.state.groups && Committable(c, name, topic, items)
    && (c.standalone && Changes(TopicOffsets(c.state.groups[name], topic), items) ==>
          ok && Encodable(c.state.groups[name], topic))
  }

  /** Committing stored offsets again goes through, whatever the metadata topic would answer, and changes nothing. */
  lemma CommitAgainGoesThrough(c: Config, name: string, topic: string, items: seq<OffsetItem>, ok: bool)
    requires Inv(c) && name in c.state.groups && topic in c.state.groups[name].offsets && NoDuplicates(items)
    requires forall item | item in items ::
               item.partition in c.state.groups[name].offsets[topic]
               && c.state.groups[name].offsets[topic][item.partition] == item.offset
    ensures CanCommit(c, name, topic, items, ok) && Committed(c, name, topic, items) == c.state
  {
    hide SplitEvenly, ByRank;
    var g := c.state.groups[name];
    assert Legal(name, g);
    ItemMapMembers(items);
    forall p | p in ItemMap(items) ensures p in g.offsets[topic] && g.offsets[topic][p] == ItemMap(items)[p] {
      var item :| item in items && item.partition == p && item.offset == ItemMap(items)[p];
    }
    assert g.offsets[topic] + ItemMap(items) == g.offsets[topic];
    assert g.offsets[topic := g.offsets[topic]] == g.offsets;
    assert c.state.groups[name := g] == c.state.groups;
  }

  lemma CommitAdvances(c: Config, name: string, topic: string, items: seq<OffsetItem>)
    requires Inv(c) && name in c.state.groups && Committable(c, name, topic, items) && Writable(c, name, topic, items)
    ensures LiveGroups(Committed(c, name, topic, items), c.standalone, c.topics)
    ensures Advances(c.state, Committed(c, name, topic, items))
  {
    CommittedKeeps(name, c.state.groups[name], topic, items, c.standalone);
    ReplaceKeeps(c.state, name, CommittedGroup(c.state.groups[name], topic, items, c.standalone), c.standalone,
                 c.topics);
  }

  /** The record of a changing batch is the next one of its group, whatever other lifecycle change is in flight. */
  lemma CommitRecord(c: Config, name: string, topic: string, items: seq<OffsetItem>)
    requires Inv(c) && c.standalone
    requires name in c.state.groups && (c.lifecycle.Some? ==> c.lifecycle.value.record.group != name)
    requires Committable(c, name, topic, items) && Writable(c, name, topic, items)
    requires Changes(TopicOffsets(c.state.groups[name], topic), items)
    ensures PlainRecord(SnapshotRecord(name, c.state.groups[name], topic, items))
    ensures Enabled(DurableOf(c.state, c.lifecycle), SnapshotRecord(name, c.state.groups[name], topic, items))
    ensures LifecycleOk(Committed(c, name, topic, items), c.lifecycle, c.topics)
    ensures DurableOf(Committed(c, name, topic, items), c.lifecycle)
            == Apply(DurableOf(c.state, c.lifecycle), SnapshotRecord(name, c.state.groups[name], topic, items))
  {
    var g := c.state.groups[name];
    SnapshotIsValid(name, g, topic, items);
    SnapshotIsEnabled(c.state, name, topic, items, c.topics);
    CommitIsDurable(c.state, name, CommittedGroup(g, topic, items, true), SnapshotRecord(name, g, topic, items),
                    c.lifecycle, c.topics);
  }

  lemma CommitRecordMade(c: Config, name: string, topic: string, items: seq<OffsetItem>)
    requires Inv(c) && c.standalone && name in c.state.groups && Committable(c, name, topic, items)
    requires c.lifecycle.Some? ==> c.lifecycle.value.record.group != name
    requires Encodable(c.state.groups[name], topic) && Changes(TopicOffsets(c.state.groups[name], topic), items)
    ensures ValidRecord(SnapshotRecord(name, c.state.groups[name], topic, items))
    ensures Enabled(DurableOf(c.state, c.lifecycle), SnapshotRecord(name, c.state.groups[name], topic, items))
    ensures DurableOf(Committed(c, name, topic, items), c.lifecycle)
            == Apply(DurableOf(c.state, c.lifecycle), SnapshotRecord(name, c.state.groups[name], topic, items))
  {
    CommitRecord(c, name, topic, items);
  }

  /** A commit whose record goes to partition `p` of the metadata topic. */
  datatype InFlight = InFlight(name: string, topic: string, items: seq<OffsetItem>, p: nat)

  /** The commit changes something and may be written. */
  ghost predicate Ready(c: Config, f: InFlight) {
    && c.standalone && f.p < |c.logs| && f.name in c.state.groups && Committable(c, f.name, f.topic, f.items)
    && (c.lifecycle.Some? ==> c.lifecycle.value.record.group != f.name)
    && Encodable(c.state.groups[f.name], f.topic) && Changes(TopicOffsets(c.state.groups[f.name], f.topic), f.items)
  }

  function FlightRecord(s: State, f: InFlight): Record
    requires f.name in s.groups
  {
    SnapshotRecord(f.name, s.groups[f.name], f.topic, f.items)
  }

  /** The commit is written and stored. */
  function Landed(c: Config, f: InFlight): Config
    requires f.p < |c.logs| == |c.ends| && f.name in c.state.groups
  {
    Append(c, f.p, FlightRecord(c.state, f)).(state := Committed(c, f.name, f.topic, f.items))
  }

  lemma LandedKeeps(c: Config, f: InFlight)
    requires Inv(c) && Ready(c, f)
    ensures |c.ends| == |c.logs| > f.p && Inv(Landed(c, f)) && ValidRecord(FlightRecord(c.state, f))
    ensures Landed(c, f) == c.(state := Landed(c, f).state, logs := Landed(c, f).logs, ends := Landed(c, f).ends,
                               pairs := Landed(c, f).pairs)
    ensures Enabled(DurableOf(c.state, c.lifecycle), FlightRecord(c.state, f))
    ensures DurableOf(Landed(c, f).state, c.lifecycle)
            == Apply(DurableOf(c.state, c.lifecycle), FlightRecord(c.state, f))
  {
    hide Inv, Encodable, Changes, Committable, Enabled, Apply, DurableOf;
    InvShape(c);
    DurableCommit(c, f.p, f.name, f.topic, f.items);
    CommitRecordMade(c, f.name, f.topic, f.items);
  }

  /** A commit of another group makes no difference to one that is ready. */
  lemma OthersStayReady(c: Config, f: InFlight, g: InFlight)
    requires Ready(c, f) && Ready(c, g) && f.name != g.name && |c.ends| == |c.logs|
    ensures g.name in c.state.groups && g.name in Landed(c, f).state.groups
    ensures Ready(Landed(c, f), g) && Landed(c, f).state.groups[g.name] == c.state.groups[g.name]
  {
    hide Encodable, Changes;
  }

  /** A written batch. */
  lemma CommitKeeps(c: Config, p: nat, name: string, topic: string, items: seq<OffsetItem>)
    requires Inv(c) && c.standalone && p < |c.logs|
    requires name in c.state.groups && (c.lifecycle.Some? ==> c.lifecycle.value.record.group != name)
    requires Committable(c, name, topic, items) && Writable(c, name, topic, items)
    requires Changes(TopicOffsets(c.state.groups[name], topic), items)
    ensures Inv(Append(c, p,
        SnapshotRecord(name, c.state.groups[name], topic, items)).(state := Committed(c, name, topic, items)))
  {
    var r := SnapshotRecord(name, c.state.groups[name], topic, items);
    var d := Append(c, p, r).(state := Committed(c, name, topic, items));
    CommitRecord(c, name, topic, items);
    assert c.state.groups[name].topic in c.topics && TopicMatches(c.state.groups[name].topic, topic);
    AppendKeepsTopic(c, d, p, r);
    CommitAdvances(c, name, topic, items);
  }

  /** All a standalone commit relies on. */
  lemma DurableCommit(c: Config, p: nat, name: string, topic: string, items: seq<OffsetItem>)
    requires Inv(c) && c.standalone && p < |c.logs| && name in c.state.groups && Committable(c, name, topic, items)
    requires c.lifecycle.Some? ==> c.lifecycle.value.record.group != name
    ensures !Changes(TopicOffsets(c.state.groups[name], topic), items) ==> Committed(c, name, topic, items) == c.state
    ensures Changes(TopicOffsets(c.state.groups[name], topic), items) ==>
              (ValidRecord(SnapshotRecord(name, c.state.groups[name], topic, items)) <==>
                 Encodable(c.state.groups[name], topic))
    ensures Changes(TopicOffsets(c.state.groups[name], topic), items) && Encodable(c.state.groups[name], topic) ==>
              Inv(Append(c, p, SnapshotRecord(name, c.state.groups[name], topic, items)).(state := Committed(c, name,
                  topic, items)))
  {
    var g := c.state.groups[name];
    assert Legal(name, g);
    if Changes(TopicOffsets(g, topic), items) {
      SnapshotIsValid(name, g, topic, items);
      if Encodable(g, topic) {
        CommitKeeps(c, p, name, topic, items);
      }
    } else {
      assert c.state.groups[name := g] == c.state.groups;
    }
  }

  /** The snapshot a batch has to write, if it changes anything, and the group it leaves. */
  method PrepareCommit(name: string, g: Group, topic: string, items: seq<OffsetItem>)
    returns (changed: bool, record: Record, after: Group)
    ensures changed <==> Changes(TopicOffsets(g, topic), items)
    ensures record == SnapshotRecord(name, g, topic, items)
    ensures after == CommittedGroup(g, topic, items, true)
  {
    var current := TopicOffsets(g, topic);
    changed := AnyChange(current, items);
    var merged := MergedSnapshot(current, items);
    var revision := IncWrap(GetOrZero(g.revisions, topic));
    record := OffsetSnapshot(name, topic, g.registrationEpoch, revision, merged);
    after := g;
    if changed {
      after := g.(offsets := g.offsets[topic := merged], revisions := g.revisions[topic := revision]);
    }
  }

  /** A batch applied by a distributed coordinator, which keeps no metadata topic. */
  lemma ApplyKeeps(c: Config, name: string, topic: string, items: seq<OffsetItem>)
    requires Inv(c) && !c.standalone && name in c.state.groups && Committable(c, name, topic, items)
    requires c.lifecycle.Some? ==> c.lifecycle.value.record.group != name
    ensures Inv(c.(state := Committed(c, name, topic, items)))
  {
    CommitAdvances(c, name, topic, items);
    var h := CommittedGroup(c.state.groups[name], topic, items, false);
    if c.lifecycle.Some? {
      var r := c.lifecycle.value.record;
      assert SameAt(ViewOf(c.state), ViewOf(Replace(c.state, name, h)), r.group);
      ApplyIsLocal(ViewOf(c.state), ViewOf(Replace(c.state, name, h)), r);
    }
  }

  /** What a member owns are partitions of its group. */
  lemma OwnedIsInRange(c: Config, name: string, member: string, items: seq<OffsetItem>)
    requires Inv(c) && name in c.state.groups && member in c.state.groups[name].members
    requires OwnsAll(c.state.groups[name].members[member], items)
    ensures InRange(items, |c.state.groups[name].partitions|)
  {
    var g := c.state.groups[name];
    assert Legal(name, g);
    MadePartitions(|g.partitions|);
    assert g.members != map[];
    assert forall item | item in items :: item.partition in g.partitions;
  }

  // ---------------------------------------------------------------------------------------------
  // Compaction and restart

  lemma ClosedIsOrdered(c: Config, p: nat, closed: nat)
    requires Inv(c) && p < |c.logs| && closed <= |c.logs[p]|
    ensures Compaction.Ordered(c.logs[p][..closed], MessageHeader) && Compaction.Ordered(c.logs[p], MessageHeader)
    ensures Compaction.IsLatest(c.logs[p][..closed], MessageHeader,
                                Compaction.LatestOf(c.logs[p][..closed], MessageHeader))
  {
    hide SplitEvenly, ByRank;
    assert StoredLog(c.logs[p], c.starts[p], c.ends[p]);
    Compaction.LatestIsLatest(c.logs[p][..closed], MessageHeader);
  }

  /** What start-up replay may rely on. */
  lemma StoredIsReadable(c: Config)
    requires Inv(c)
    ensures |c.starts| == |c.logs|
    ensures forall i | 0 <= i < |c.logs| ::
                Increasing(c.logs[i]) && forall m | m in c.logs[i] :: m.offset >= c.starts[i]
    ensures forall i | 0 <= i < |c.logs| :: WellKeyed(c.logs[i])
    ensures forall r | r in StoredRecords(c.logs) :: PlainRecord(r)
    ensures c.standalone && Apart(c.pairs) ==> Consistent(StoredRecords(c.logs), DurableOf(c.state, c.lifecycle))
  {
  }

  lemma CompactKeeps(c: Config, p: nat, done: nat, closed: nat, latest: Compaction.Latest<Key>)
    requires Inv(c) && p < |c.logs| && done <= closed <= |c.logs[p]|
    requires Compaction.IsLatest(c.logs[p][..closed], MessageHeader, latest)
    ensures Inv(c.(logs := c.logs[p := Compacted(c.logs[p], done, latest)]))
  {
    CompactedIsStored(c.logs[p], done, latest, c.starts[p], c.ends[p]);
    CompactedPairs(c.logs, p, done, latest);
    if c.standalone && Apart(c.pairs) {
      CompactionKeepsView(c.logs, p, done, closed, latest, DurableOf(c.state, c.lifecycle));
    }
  }

  lemma CompactedPairs(logs: seq<seq<Message>>, p: nat, closed: nat, latest: Compaction.Latest<Key>)
    requires p < |logs| && closed <= |logs[p]|
    ensures PairsOf(StoredRecords(logs[p := Compacted(logs[p], closed, latest)])) <= PairsOf(StoredRecords(logs))
  {
    CompactedRecords(logs, p, closed, latest);
  }

  lemma ScaleKeeps(c: Config)
    requires Inv(c)
    ensures Inv(c.(logs := c.logs + [[]], starts := c.starts + [0], ends := c.ends + [0]))
  {
    NewPartitionIsEmpty(c.logs);
  }

  lemma NewPartitionIsEmpty(logs: seq<seq<Message>>)
    ensures StoredRecords(logs + [[]]) == StoredRecords(logs)
  {
    var more: seq<seq<Message>> := logs + [[]];
    forall r | r in StoredRecords(logs) ensures r in StoredRecords(more) {
      var i, m :| 0 <= i < |logs| && m in logs[i] && m.record == r;
      assert more[i] == logs[i];
    }
    forall r | r in StoredRecords(more) ensures r in StoredRecords(logs) {
      var i, m :| 0 <= i < |more| && m in more[i] && m.record == r;
      assert more[i] == logs[i];
    }
  }

  /** The live state start-up builds from a view. */
  function Booted(v: View): State
    requires forall g | g in v.groups :: v.groups[g].partitionCount >= 0
  {
    State(map g | g in v.groups :: Restored(v.groups[g]), v.epochs)
  }

  lemma BootedView(v: View)
    requires forall g | g in v.groups :: v.groups[g].partitionCount >= 0
    ensures ViewOf(Booted(v)) == v
  {
    assert ViewOf(Booted(v)).groups == v.groups;
  }

  lemma BootKeeps(c: Config, v: View)
    requires Inv(c) && c.standalone
    requires v.groups.Keys <= v.epochs.Keys && forall g | g in v.epochs :: g != "" && v.epochs[g] != 0
    requires forall g | g in v.groups :: WellFormedGroup(g, v.groups[g]) && v.groups[g].epoch == v.epochs[g]
    requires Apart(c.pairs) ==> v == DurableOf(c.state, c.lifecycle)
    ensures forall g | g in v.groups :: v.groups[g].partitionCount >= 0
    ensures Inv(c.(state := Booted(v), lifecycle := None, topics := c.topics + TopicsOf(Booted(v))))
    ensures Apart(c.pairs) ==> TopicsOf(Booted(v)) <= c.topics && OffsetsAdvance(c.state, Booted(v))
  {
    assert forall g | g in v.groups :: WellFormedGroup(g, v.groups[g]) ==> v.groups[g].partitionCount >= 0;
    BootedView(v);
    forall g | g in v.groups ensures Legal(g, Restored(v.groups[g])) {
      assert WellFormedGroup(g, v.groups[g]);
    }
    if Apart(c.pairs) {
      DurableTopics(c.state, c.lifecycle, c.standalone, c.topics);
      BootKeepsOffsets(c.state, c.lifecycle, c.standalone, c.topics);
    }
    MoreTopics(c.pairs, c.topics, c.topics + TopicsOf(Booted(v)));
  }

  /** A restart keeps every offset of the registrations that are live in the durable view. */
  lemma BootKeepsOffsets(s: State, lifecycle: Option<PendingWrite>, standalone: bool, topics: set<string>)
    requires LiveGroups(s, standalone, topics) && LifecycleOk(s, lifecycle, topics)
    requires forall g | g in DurableOf(s, lifecycle).groups :: DurableOf(s, lifecycle).groups[g].partitionCount >= 0
    ensures OffsetsAdvance(s, Booted(DurableOf(s, lifecycle)))
  {
    var v, t := DurableOf(s, lifecycle), Booted(DurableOf(s, lifecycle));
    forall g | g in s.epochs
      ensures g in t.epochs && s.epochs[g] <= t.epochs[g]
      ensures s.epochs[g] == t.epochs[g] ==> SameAt(ViewOf(s), v, g)
    {
      if lifecycle.Some? && g != lifecycle.value.record.group && Enabled(ViewOf(s), lifecycle.value.record) {
        ApplyElsewhere(ViewOf(s), lifecycle.value.record, g);
      }
    }
    forall g | g in s.epochs && g in s.groups && g in t.groups && s.epochs[g] == t.epochs[g]
      ensures OffsetsKept(s.groups[g], t.groups[g])
    {
      assert Legal(g, s.groups[g]);
      assert v.groups[g] == ToDurable(s.groups[g]);
    }
  }

  ghost function TopicsOf(s: State): set<string> {
    set g | g in s.groups :: s.groups[g].topic
  }

  /** No group has members: the state right after start-up. */
  ghost predicate Memberless(s: State) {
    forall g | g in s.groups :: s.groups[g].members == map[] && s.groups[g].generation == 0
  }

  /** Replays the stored records of a stopped coordinator into a new live state. */
  method Boot(logs: seq<seq<Message>>, starts: seq<nat>, ghost c: Config) returns (r: Result<State>)
    requires Inv(c) && c.standalone && c.logs == logs && c.starts == starts
    ensures r.Ok? ==> Inv(c.(state := r.value, lifecycle := None, topics := c.topics + TopicsOf(r.value)))
    ensures Apart(c.pairs) ==>
              && r.Ok? && ViewOf(r.value) == DurableOf(c.state, c.lifecycle) && Memberless(r.value)
              && TopicsOf(r.value) <= c.topics && OffsetsAdvance(c.state, r.value)
  {
    StoredIsReadable(c);
    var replayed := Recover(logs, starts);
    if replayed.Err? { return Err(replayed.reason); }
    var v := replayed.value;
    ReplayIsLegal(StoredRecords(logs), v);
    BootKeeps(c, v);
    BootedView(v);
    r := Ok(State(map g | g in v.groups :: Restored(v.groups[g]), v.epochs));
    assert r.value == Booted(v);
  }
}
