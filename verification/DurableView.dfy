/**
 * What the durable consumer metadata means: the view a sequence of records builds up, and the relation between a view
 * and the set of records still stored. Offsets of deleted registrations, superseded snapshots and compaction only
 * change which records are stored, never the view.
 */
module DurableView {
  import opened Common
  import opened MetadataRecord

  datatype DurableGroup = DurableGroup(
    topic: string, partitionCount: int, epoch: u64,
    offsets: map<string, Offsets>, revisions: map<string, u64>)

  /** Live groups, and the last lifecycle epoch of every group ever registered. */
  datatype View = View(groups: map<string, DurableGroup>, epochs: map<string, u64>)

  /** Every committed key is kept and no offset moves backwards. */
  predicate Dominates(before: Offsets, after: Offsets) {
    forall p | p in before :: p in after && before[p] <= after[p]
  }

  function CurrentOffsets(g: DurableGroup, topic: string): Offsets {
    if topic in g.offsets then g.offsets[topic] else map[]
  }

  /** The records the coordinator may write next. */
  predicate Enabled(v: View, r: Record) {
    ValidRecord(r) &&
    match r
    case Registration(group, topic, count, epoch, initial) =>
      group !in v.groups && epoch == IncWrap(GetOrZero(v.epochs, group)) && initial == map[]
    case Tombstone(group, _, epoch) =>
      group in v.groups && group in v.epochs && epoch == IncWrap(v.epochs[group])
    case OffsetSnapshot(group, topic, epoch, revision, offsets) =>
      && group in v.groups && group in v.epochs && epoch == v.groups[group].epoch == v.epochs[group]
      && TopicMatches(v.groups[group].topic, topic)
      && revision == IncWrap(GetOrZero(v.groups[group].revisions, topic))
      && PartitionsBelow(offsets, v.groups[group].partitionCount)
      && Dominates(CurrentOffsets(v.groups[group], topic), offsets)
  }

  function Apply(v: View, r: Record): View
    requires Enabled(v, r)
  {
    match r
    case Registration(group, topic, count, epoch, _) =>
      View(v.groups[group := DurableGroup(topic, count, epoch, map[], map[])], v.epochs[group := epoch])
    case Tombstone(group, _, epoch) =>
      View(v.groups - {group}, v.epochs[group := epoch])
    case OffsetSnapshot(group, topic, _, revision, offsets) =>
      var g := v.groups[group];
      v.(groups := v.groups[group :=
        g.(offsets := g.offsets[topic := offsets], revisions := g.revisions[topic := revision])])
  }

  // ---------------------------------------------------------------------------------------------
  // Records that agree with a view

  /** The registration record of a live group. */
  function RegistrationOf(name: string, g: DurableGroup): Record {
    Registration(name, g.topic, g.partitionCount, g.epoch, map[])
  }

  /** The newest snapshot of one topic of a live group. */
  function SnapshotOf(name: string, g: DurableGroup, topic: string): Record
    requires topic in g.offsets && topic in g.revisions
  {
    OffsetSnapshot(name, topic, g.epoch, g.revisions[topic], g.offsets[topic])
  }

  /** Shape of every view the coordinator can reach. */
  predicate WellFormedGroup(name: string, g: DurableGroup) {
    && name != "" && g.topic != "" && g.partitionCount > 0 && g.epoch != 0
    && g.offsets.Keys == g.revisions.Keys
    && forall t | t in g.offsets :: g.revisions[t] != 0 && PartitionsBelow(g.offsets[t], g.partitionCount)
                                    && TopicMatches(g.topic, t)
  }

  ghost predicate WellFormed(v: View) {
    && v.groups.Keys <= v.epochs.Keys
    && forall g | g in v.groups :: WellFormedGroup(g, v.groups[g]) && v.groups[g].epoch == v.epochs[g]
  }

  /** A stored record is explained by the view: it is current or it is older. */
  ghost predicate Explained(r: Record, v: View) {
    && ValidRecord(r)
    && r.group in v.epochs && r.epoch <= v.epochs[r.group]
    && (r.Registration? ==> r.initial == map[])
    && (r.Lifecycle() && r.epoch == v.epochs[r.group] ==>
          (r.Registration? <==> r.group in v.groups)
          && (r.group in v.groups ==> r == RegistrationOf(r.group, v.groups[r.group])))
    && (r.OffsetSnapshot? && r.group in v.groups && r.epoch == v.epochs[r.group] ==>
          var g := v.groups[r.group];
          && r.topic in g.offsets && r.topic in g.revisions && r.revision <= g.revisions[r.topic]
          && (r.revision == g.revisions[r.topic] ==> r.offsets == g.offsets[r.topic])
          && TopicMatches(g.topic, r.topic)
          && PartitionsBelow(r.offsets, g.partitionCount)
          && Dominates(r.offsets, g.offsets[r.topic]))
  }

  /** No two stored records disagree, and snapshots of one registration grow with their revision. */
  predicate Agree(r: Record, s: Record) {
    && (r.Lifecycle() && s.Lifecycle() && r.group == s.group && r.epoch == s.epoch ==> r == s)
    && (r.OffsetSnapshot? && s.OffsetSnapshot? && r.group == s.group && r.topic == s.topic && r.epoch == s.epoch ==>
          && (r.revision == s.revision ==> r == s)
          && (r.revision < s.revision ==> Dominates(r.offsets, s.offsets))
          && (s.revision < r.revision ==> Dominates(s.offsets, r.offsets)))
  }

  /** The records that must be stored for the view to be rebuilt. */
  ghost predicate HoldsCurrent(stored: set<Record>, v: View) {
    && (forall g | g in v.epochs :: exists r :: r in stored && r.Lifecycle() && r.group == g && r.epoch == v.epochs[g])
    && (forall g, t | g in v.groups && t in v.groups[g].offsets && t in v.groups[g].revisions ::
          SnapshotOf(g, v.groups[g], t) in stored)
  }

  ghost predicate AllExplained(stored: set<Record>, v: View) {
    forall r | r in stored :: Explained(r, v)
  }

  ghost predicate AllAgree(stored: set<Record>) {
    forall r, s | r in stored && s in stored :: Agree(r, s)
  }

  /** The (group, topic) pairs of the stored snapshots. */
  ghost function PairsOf(stored: set<Record>): set<(string, string)> {
    set r | r in stored && r.OffsetSnapshot? :: (r.group, r.topic)
  }

  ghost predicate Consistent(stored: set<Record>, v: View) {
    && WellFormed(v) && AllExplained(stored, v) && AllAgree(stored) && HoldsCurrent(stored, v)
    && Apart(PairsOf(stored))
  }

  lemma StoredApart(stored: set<Record>, r: Record, s: Record)
    requires Apart(PairsOf(stored)) && r in stored && s in stored && r.OffsetSnapshot? && s.OffsetSnapshot?
    requires Join(r.group, r.topic) == Join(s.group, s.topic)
    ensures r.group == s.group && r.topic == s.topic
  {
    assert (r.group, r.topic) in PairsOf(stored) && (s.group, s.topic) in PairsOf(stored);
  }

  lemma FewerApart(fewer: set<(string, string)>, pairs: set<(string, string)>)
    requires Apart(pairs) && fewer <= pairs
    ensures Apart(fewer)
  {
  }

  /** Later in the life of one key. */
  predicate Newer(r: Record, s: Record) {
    RecordKey(r) == RecordKey(s) &&
    (r.epoch > s.epoch || (r.epoch == s.epoch && r.OffsetSnapshot? && s.OffsetSnapshot? && r.revision > s.revision))
  }

  lemma ConsistentInitially()
    ensures Consistent({}, View(map[], map[]))
  {
  }

  /** An enabled record is newer than every stored record of its key. */
  lemma EnabledIsNewest(stored: set<Record>, v: View, r: Record, s: Record)
    requires Consistent(stored, v) && Enabled(v, r) && s in stored
    requires Apart(PairsOf(stored + {r}))
    requires RecordKey(r) == RecordKey(s)
    ensures Newer(r, s)
  {
    assert Explained(s, v);
    if r.OffsetSnapshot? {
      StoredApart(stored + {r}, r, s);
    }
  }

  lemma AppendKeepsExplained(stored: set<Record>, v: View, r: Record)
    requires WellFormed(v) && AllExplained(stored, v) && Enabled(v, r)
    requires Explained(r, Apply(v, r))
    ensures AllExplained(stored + {r}, Apply(v, r))
  {
    forall s | s in stored ensures Explained(s, Apply(v, r)) {
      assert Explained(s, v);
    }
  }

  lemma AppendKeepsAgreement(stored: set<Record>, v: View, r: Record)
    requires WellFormed(v) && AllExplained(stored, v) && AllAgree(stored) && Enabled(v, r)
    ensures AllAgree(stored + {r})
  {
    forall s | s in stored ensures Agree(r, s) && Agree(s, r) {
      assert Explained(s, v);
    }
  }

  lemma AppendHoldsCurrent(stored: set<Record>, v: View, r: Record)
    requires WellFormed(v) && HoldsCurrent(stored, v) && Enabled(v, r)
    ensures HoldsCurrent(stored + {r}, Apply(v, r))
  {
    var w := Apply(v, r);
    forall g | g in w.epochs
      ensures exists s :: s in stored + {r} && s.Lifecycle() && s.group == g && s.epoch == w.epochs[g]
    {
      if r.Lifecycle() && g == r.group {
        assert r in stored + {r};
      } else {
        var s :| s in stored && s.Lifecycle() && s.group == g && s.epoch == v.epochs[g];
        assert s in stored + {r};
      }
    }
  }

  lemma ApplyKeepsWellFormed(v: View, r: Record)
    requires WellFormed(v) && Enabled(v, r)
    ensures WellFormed(Apply(v, r))
    ensures Explained(r, Apply(v, r))
  {
  }

  /** Writing an enabled record keeps the store and the advanced view consistent. */
  lemma AppendKeepsConsistent(stored: set<Record>, v: View, r: Record)
    requires Consistent(stored, v) && Enabled(v, r)
    requires Apart(PairsOf(stored + {r}))
    ensures Consistent(stored + {r}, Apply(v, r))
  {
    ApplyKeepsWellFormed(v, r);
    AppendHoldsCurrent(stored, v, r);
    AppendKeepsExplained(stored, v, r);
    AppendKeepsAgreement(stored, v, r);
  }

  /** Dropping records that have a newer stored record of their key keeps the same view consistent. */
  lemma DropKeepsConsistent(stored: set<Record>, kept: set<Record>, v: View)
    requires Consistent(stored, v) && kept <= stored
    requires forall r | r in stored && r !in kept :: exists s :: s in stored && Newer(s, r)
    ensures Consistent(kept, v)
  {
    forall r | r in stored && r !in kept
      ensures r.Lifecycle() ==> r.epoch < v.epochs[r.group]
      ensures r.OffsetSnapshot? && r.group in v.groups && r.epoch == v.epochs[r.group] ==>
                (r.topic in v.groups[r.group].revisions ==> r.revision < v.groups[r.group].revisions[r.topic])
    {
      var s :| s in stored && Newer(s, r);
      assert Explained(s, v) && Explained(r, v);
      if r.OffsetSnapshot? {
        StoredApart(stored, r, s);
      }
    }
    forall g | g in v.epochs
      ensures exists r :: r in kept && r.Lifecycle() && r.group == g && r.epoch == v.epochs[g]
    {
      var r :| r in stored && r.Lifecycle() && r.group == g && r.epoch == v.epochs[g];
      assert r in kept;
    }
    FewerApart(PairsOf(kept), PairsOf(stored));
  }

  // ---------------------------------------------------------------------------------------------
  // Records of different groups do not interfere

  predicate SameAt(v: View, w: View, g: string) {
    && (g in v.groups <==> g in w.groups) && (g in v.groups ==> v.groups[g] == w.groups[g])
    && (g in v.epochs <==> g in w.epochs) && (g in v.epochs ==> v.epochs[g] == w.epochs[g])
  }

  lemma SameEverywhere(v: View, w: View)
    requires forall g :: SameAt(v, w, g)
    ensures v == w
  {
    assert forall g :: SameAt(v, w, g) ==> (g in v.groups <==> g in w.groups) && (g in v.epochs <==> g in w.epochs);
    assert v.groups == w.groups && v.epochs == w.epochs;
  }

  lemma ApplyElsewhere(v: View, r: Record, g: string)
    requires Enabled(v, r) && g != r.group
    ensures SameAt(v, Apply(v, r), g)
  {
  }

  lemma ApplyIsLocal(v: View, w: View, r: Record)
    requires SameAt(v, w, r.group)
    ensures Enabled(v, r) <==> Enabled(w, r)
    ensures Enabled(v, r) ==> SameAt(Apply(v, r), Apply(w, r), r.group)
  {
  }

  /** Records of different groups may be written in either order. */
  lemma ApplyCommutes(v: View, r: Record, s: Record)
    requires Enabled(v, r) && Enabled(v, s) && r.group != s.group
    ensures Enabled(Apply(v, r), s) && Enabled(Apply(v, s), r)
    ensures Apply(Apply(v, r), s) == Apply(Apply(v, s), r)
  {
    ApplyElsewhere(v, r, s.group);
    ApplyElsewhere(v, s, r.group);
    ApplyIsLocal(v, Apply(v, r), s);
    ApplyIsLocal(v, Apply(v, s), r);
    forall g ensures SameAt(Apply(Apply(v, r), s), Apply(Apply(v, s), r), g) {
      if g != s.group { ApplyElsewhere(Apply(v, r), s, g); }
      if g != r.group { ApplyElsewhere(Apply(v, s), r, g); }
      if g != s.group && g != r.group {
        ApplyElsewhere(v, r, g);
        ApplyElsewhere(v, s, g);
      }
    }
    SameEverywhere(Apply(Apply(v, r), s), Apply(Apply(v, s), r));
  }

  // ---------------------------------------------------------------------------------------------
  // Histories

  /** Records written one after the other by a standalone coordinator. */
  ghost predicate History(v: View, records: seq<Record>)
    decreases |records|
  {
    records == [] || (Enabled(v, records[0]) && History(Apply(v, records[0]), records[1..]))
  }

  ghost function Outcome(v: View, records: seq<Record>): View
    requires History(v, records)
    decreases |records|
  {
    if records == [] then v else Outcome(Apply(v, records[0]), records[1..])
  }

  lemma {:induction false} HistorySnoc(v: View, records: seq<Record>, r: Record)
    requires History(v, records) && Enabled(Outcome(v, records), r)
    ensures History(v, records + [r]) && Outcome(v, records + [r]) == Apply(Outcome(v, records), r)
    decreases |records|
  {
    hide Enabled, Apply;
    var all := records + [r];
    if records == [] {
      assert all[0] == r && all[1..] == [];
    } else {
      assert all[0] == records[0] && all[1..] == records[1..] + [r];
      HistorySnoc(Apply(v, records[0]), records[1..], r);
    }
  }

  /** Two neighbouring records of different groups that could each be written first may change places. */
  lemma {:induction false} HistorySwaps(v: View, before: seq<Record>, r: Record, s: Record, after: seq<Record>)
    requires History(v, before + [r, s] + after) && r.group != s.group
    requires History(v, before) && Enabled(Outcome(v, before), s)
    ensures History(v, before + [s, r] + after)
    ensures Outcome(v, before + [s, r] + after) == Outcome(v, before + [r, s] + after)
    decreases |before|
  {
    hide Enabled, Apply;
    var x, y := before + [r, s] + after, before + [s, r] + after;
    if before == [] {
      assert x[0] == r && x[1..] == [s] + after && x[1..][0] == s && x[1..][1..] == after;
      assert y[0] == s && y[1..] == [r] + after && y[1..][0] == r && y[1..][1..] == after;
      ApplyCommutes(v, r, s);
    } else {
      assert x[0] == before[0] && x[1..] == before[1..] + [r, s] + after;
      assert y[0] == before[0] && y[1..] == before[1..] + [s, r] + after;
      HistorySwaps(Apply(v, before[0]), before[1..], r, s, after);
    }
  }
}
