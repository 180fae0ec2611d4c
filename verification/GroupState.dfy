/** Consumer groups as values: offset batches, durable projection, and what a run may change. */
module GroupState {
  import opened Common
  import opened MetadataRecord
  import opened DurableView
  import opened RangeAssignment

  /** Member -> assigned partitions; heartbeat and activity times are left out. */
  datatype Group = Group(
    topic: string, members: map<string, seq<int>>, generation: int, partitions: seq<int>,
    offsets: map<string, Offsets>, registrationEpoch: u64, revisions: map<string, u64>)

  datatype OffsetItem = OffsetItem(partition: int, offset: u64)

  function MakePartitions(count: nat): seq<int> {
    seq(count, i => i)
  }

  function ToDurable(g: Group): DurableGroup {
    DurableGroup(g.topic, |g.partitions|, g.registrationEpoch, g.offsets, g.revisions)
  }

  /** A group as start-up recreates it: no members and generation zero. */
  function Restored(d: DurableGroup): Group
    requires d.partitionCount >= 0
  {
    Group(d.topic, map[], 0, MakePartitions(d.partitionCount), d.offsets, d.epoch, d.revisions)
  }

  function TopicOffsets(g: Group, topic: string): Offsets {
    if topic in g.offsets then g.offsets[topic] else map[]
  }

  /** What every operation keeps of every live group. */
  ghost predicate Legal(name: string, g: Group) {
    && name != "" && g.topic != "" && g.partitions != [] && g.registrationEpoch != 0 && g.generation >= 0
    && g.partitions == MakePartitions(|g.partitions|)
    && (g.members != map[] ==> SplitEvenly(g.members, g.partitions) && ByRank(g.members, g.partitions))
    && (forall t | t in g.offsets :: TopicMatches(g.topic, t) && PartitionsBelow(g.offsets[t], |g.partitions|))
    && (forall t | t in g.revisions :: t in g.offsets && g.revisions[t] != 0)
  }

  lemma MadePartitions(count: nat)
    ensures Distinct(MakePartitions(count))
    ensures forall p :: p in MakePartitions(count) <==> 0 <= p < count
    ensures forall i | 0 <= i < count :: MakePartitions(count)[i] == i
  {
    forall p | 0 <= p < count ensures p in MakePartitions(count) {
      assert MakePartitions(count)[p] == p;
    }
  }

  // ---------------------------------------------------------------------------------------------
  // Offset batches

  /** The offsets a batch writes, later items winning. */
  function ItemMap(items: seq<OffsetItem>): Offsets {
    if items == [] then map[]
    else
      var last := items[|items| - 1];
      ItemMap(items[..|items| - 1])[last.partition := last.offset]
  }

  predicate NoDuplicates(items: seq<OffsetItem>) {
    forall i, j | 0 <= i < j < |items| :: items[i].partition != items[j].partition
  }

  predicate NoRegression(current: Offsets, items: seq<OffsetItem>) {
    forall item | item in items :: item.partition in current ==> item.offset >= current[item.partition]
  }

  predicate InRange(items: seq<OffsetItem>, count: nat) {
    forall item | item in items :: 0 <= item.partition < count
  }

  /** The batches a group accepts on a topic. */
  predicate BatchAllowed(g: Group, topic: string, items: seq<OffsetItem>) {
    TopicMatches(g.topic, topic) && NoDuplicates(items) && NoRegression(TopicOffsets(g, topic), items)
  }

  predicate Changes(current: Offsets, items: seq<OffsetItem>) {
    exists item :: item in items && !(item.partition in current && current[item.partition] == item.offset)
  }

  lemma {:induction false} ItemMapMembers(items: seq<OffsetItem>)
    ensures forall p | p in ItemMap(items) ::
                exists item :: item in items && item.partition == p && item.offset == ItemMap(items)[p]
    ensures forall item | item in items :: item.partition in ItemMap(items)
    ensures items == [] <==> ItemMap(items) == map[]
  {
    if items != [] {
      var n := |items| - 1;
      ItemMapMembers(items[..n]);
      assert items == items[..n] + [items[n]];
      assert items[n].partition in ItemMap(items);
    }
  }

  lemma {:induction false} ItemMapValues(items: seq<OffsetItem>, item: OffsetItem)
    requires NoDuplicates(items) && item in items
    ensures item.partition in ItemMap(items) && ItemMap(items)[item.partition] == item.offset
  {
    var n := |items| - 1;
    assert items == items[..n] + [items[n]];
    if item != items[n] {
      ItemMapValues(items[..n], item);
      var i :| 0 <= i < n && items[i] == item;
    }
  }

  /** An allowed batch never drops a committed key or moves an offset backwards. */
  lemma MergeDominates(current: Offsets, items: seq<OffsetItem>)
    requires NoRegression(current, items)
    ensures Dominates(current, current + ItemMap(items))
  {
    ItemMapMembers(items);
  }

  /** The duplicate and regression checks of a batch. */
  method ValidateBatch(g: Group, topic: string, items: seq<OffsetItem>) returns (ok: bool)
    ensures ok <==> BatchAllowed(g, topic, items)
  {
    if !TopicMatches(g.topic, topic) { return false; }
    var current := TopicOffsets(g, topic);
    var seen: set<int> := {};
    for i := 0 to |items|
      invariant seen == set j | 0 <= j < i :: items[j].partition
      invariant forall j, k | 0 <= j < k < i :: items[j].partition != items[k].partition
      invariant forall j | 0 <= j < i ::
                  items[j].partition in current ==> items[j].offset >= current[items[j].partition]
    {
      var item := items[i];
      if item.partition in seen { return false; }
      seen := seen + {item.partition};
      if item.partition in current && item.offset < current[item.partition] { assert item in items; return false; }
    }
    return true;
  }

  method PartitionsInRange(items: seq<OffsetItem>, count: nat) returns (ok: bool)
    ensures ok <==> InRange(items, count)
  {
    for i := 0 to |items|
      invariant forall j | 0 <= j < i :: 0 <= items[j].partition < count
    {
      if items[i].partition < 0 || items[i].partition >= count { assert items[i] in items; return false; }
    }
    return true;
  }

  method AnyChange(current: Offsets, items: seq<OffsetItem>) returns (changed: bool)
    ensures changed <==> Changes(current, items)
  {
    for i := 0 to |items|
      invariant forall j | 0 <= j < i :: items[j].partition in current && current[items[j].partition] == items[j].offset
    {
      if items[i].partition !in current || current[items[i].partition] != items[i].offset {
        assert items[i] in items;
        return true;
      }
    }
    return false;
  }

  /** `mergedOffsetSnapshot`: the current offsets overwritten by the batch. */
  method MergedSnapshot(current: Offsets, items: seq<OffsetItem>) returns (merged: Offsets)
    ensures merged == current + ItemMap(items)
  {
    merged := current;
    for i := 0 to |items|
      invariant merged == current + ItemMap(items[..i])
    {
      assert items[..i + 1][..i] == items[..i];
      merged := merged[items[i].partition := items[i].offset];
    }
    assert items[..|items|] == items;
  }

  /** Every partition of a batch is assigned to a member. */
  predicate OwnsAll(assignments: seq<int>, items: seq<OffsetItem>) {
    forall item | item in items :: item.partition in assignments
  }

  method ChecksOwner(assignments: seq<int>, items: seq<OffsetItem>) returns (ok: bool)
    ensures ok <==> OwnsAll(assignments, items)
  {
    for i := 0 to |items|
      invariant forall j | 0 <= j < i :: items[j].partition in assignments
    {
      if items[i].partition !in assignments { assert items[i] in items; return false; }
    }
    return true;
  }

  /** The group after its batch has been stored. */
  function Store(g: Group, topic: string, items: seq<OffsetItem>): Group {
    if items == [] then g else g.(offsets := g.offsets[topic := TopicOffsets(g, topic) + ItemMap(items)])
  }

  lemma StoreKeepsLegal(name: string, g: Group, topic: string, items: seq<OffsetItem>)
    requires Legal(name, g) && BatchAllowed(g, topic, items) && InRange(items, |g.partitions|)
    ensures Legal(name, Store(g, topic, items))
  {
    hide SplitEvenly, ByRank;
    ItemMapMembers(items);
  }

  // ---------------------------------------------------------------------------------------------
  // Runs

  datatype State = State(groups: map<string, Group>, epochs: map<string, u64>)

  function ViewOf(s: State): View {
    View(map g | g in s.groups :: ToDurable(s.groups[g]), s.epochs)
  }

  /** Same registration: the topic and partitions stay, committed offsets never regress or vanish. */
  predicate OffsetsKept(g: Group, h: Group) {
    && g.topic == h.topic && g.partitions == h.partitions
    && forall t | t in g.offsets :: t in h.offsets && Dominates(g.offsets[t], h.offsets[t])
  }

  /**
   * Same registration: generations grow, every membership change raises them, and one generation has one assignment.
   */
  predicate MembershipKept(g: Group, h: Group) {
    && g.generation <= h.generation
    && (g.members.Keys != h.members.Keys ==> g.generation < h.generation)
    && (g.generation == h.generation ==> g.members == h.members)
  }

  /** Lifecycle epochs only grow, and one epoch is either live or deleted. */
  ghost predicate EpochsAdvance(s: State, t: State) {
    forall g | g in s.epochs ::
      && g in t.epochs && s.epochs[g] <= t.epochs[g]
      && (s.epochs[g] == t.epochs[g] ==> (g in s.groups <==> g in t.groups))
  }

  ghost predicate OffsetsAdvance(s: State, t: State) {
    && EpochsAdvance(s, t)
    && forall g | g in s.epochs && g in s.groups && g in t.epochs && g in t.groups && s.epochs[g] == t.epochs[g] ::
         OffsetsKept(s.groups[g], t.groups[g])
  }

  ghost predicate MembershipAdvances(s: State, t: State) {
    && EpochsAdvance(s, t)
    && forall g | g in s.epochs && g in s.groups && g in t.epochs && g in t.groups && s.epochs[g] == t.epochs[g] ::
         MembershipKept(s.groups[g], t.groups[g])
  }

  lemma OffsetsAdvanceTransitive(s: State, t: State, u: State)
    requires OffsetsAdvance(s, t) && OffsetsAdvance(t, u)
    ensures OffsetsAdvance(s, u)
  {
    forall g | g in s.epochs && g in s.groups && g in u.epochs && g in u.groups && s.epochs[g] == u.epochs[g]
      ensures OffsetsKept(s.groups[g], u.groups[g])
    {
      assert OffsetsKept(s.groups[g], t.groups[g]) && OffsetsKept(t.groups[g], u.groups[g]);
    }
  }

  lemma MembershipAdvancesTransitive(s: State, t: State, u: State)
    requires MembershipAdvances(s, t) && MembershipAdvances(t, u)
    ensures MembershipAdvances(s, u)
  {
    forall g | g in s.epochs && g in s.groups && g in u.epochs && g in u.groups && s.epochs[g] == u.epochs[g]
      ensures MembershipKept(s.groups[g], u.groups[g])
    {
      assert MembershipKept(s.groups[g], t.groups[g]) && MembershipKept(t.groups[g], u.groups[g]);
    }
  }
}
