/**
 * Exactly which (group, topic) pairs make every history of writes replayable. The metadata keys join group and topic
 * with a NUL character, so pairs that run together can be mistaken for each other.
 */
module NameClash {
  import opened Common
  import opened MetadataRecord
  import opened DurableView
  import opened Replay

  const EMPTY := View(map[], map[])

  ghost function Elements(records: seq<Record>): set<Record> {
    set r | r in records
  }

  /** Offsets are committed only for the given (group, topic) pairs. */
  ghost predicate Over(records: seq<Record>, pairs: set<(string, string)>) {
    PairsOf(Elements(records)) <= pairs
  }

  lemma FirstAndRest(stored: set<Record>, records: seq<Record>)
    requires records != []
    ensures stored + Elements(records) == stored + {records[0]} + Elements(records[1..])
  {
    assert records == [records[0]] + records[1..];
  }

  lemma {:induction false} HistoryExtends(stored: set<Record>, v: View, records: seq<Record>)
    requires Consistent(stored, v) && History(v, records) && Apart(PairsOf(stored + Elements(records)))
    ensures Consistent(stored + Elements(records), Outcome(v, records))
    decreases |records|
  {
    hide Consistent, Enabled, Apply;
    if records == [] {
      assert stored + Elements(records) == stored;
    } else {
      FirstAndRest(stored, records);
      FewerApart(PairsOf(stored + {records[0]}), PairsOf(stored + Elements(records)));
      AppendKeepsConsistent(stored, v, records[0]);
      HistoryExtends(stored + {records[0]}, Apply(v, records[0]), records[1..]);
    }
  }

  /**
   * Pairs kept apart: the records of any history, in any order, are consistent with its outcome, so replay rebuilds
   * it.
   */
  lemma HistoryIsConsistent(records: seq<Record>, pairs: set<(string, string)>)
    requires Apart(pairs) && History(EMPTY, records) && Over(records, pairs)
    ensures Consistent(Elements(records), Outcome(EMPTY, records))
  {
    ConsistentInitially();
    FewerApart(PairsOf(Elements(records)), pairs);
    assert {} + Elements(records) == Elements(records);
    HistoryExtends({}, EMPTY, records);
  }

  /** Two groups whose joined keys meet, each committing one offset. */
  function ClashingHistory(x: (string, string), y: (string, string)): seq<Record> {
    [Registration(x.0, x.1, 1, 1, map[]), Registration(y.0, y.1, 1, 1, map[]),
     OffsetSnapshot(x.0, x.1, 1, 1, map[0 := 1]), OffsetSnapshot(y.0, y.1, 1, 1, map[0 := 2])]
  }

  /** Different pairs of one joined form. */
  predicate RunTogether(x: (string, string), y: (string, string)) {
    x != y && Join(x.0, x.1) == Join(y.0, y.1)
  }

  lemma ClashingGroupsDiffer(x: (string, string), y: (string, string))
    requires RunTogether(x, y)
    ensures x.0 != y.0
  {
    assert x.1 == Join(x.0, x.1)[|x.0| + 1..] && y.1 == Join(y.0, y.1)[|y.0| + 1..];
  }

  lemma ClashingHistoryIsHistory(x: (string, string), y: (string, string))
    requires RunTogether(x, y) && x.0 != "" && x.1 != "" && y.0 != "" && y.1 != ""
    ensures History(EMPTY, ClashingHistory(x, y))
  {
    ClashingGroupsDiffer(x, y);
    var q := ClashingHistory(x, y);
    assert q[2].offsets[0] == 1 && q[3].offsets[0] == 2;
    var v1 := Apply(EMPTY, q[0]);
    var v2 := Apply(v1, q[1]);
    var v3 := Apply(v2, q[2]);
    assert Enabled(v2, q[2]) && Enabled(v3, q[3]);
    assert q[1..][0] == q[1] && q[1..][1..][0] == q[2] && q[1..][1..][1..][0] == q[3];
    assert History(v3, q[1..][1..][1..]);
    assert History(v2, q[1..][1..]);
    assert History(v1, q[1..]);
  }

  /** A successful replay has seen no two different snapshots of one identity. */
  lemma ReplayTellsApart(stored: set<Record>, v: View, r: Record, s: Record)
    requires ReplayOf(stored, v) && r in stored && s in stored
    requires r.OffsetSnapshot? && s.OffsetSnapshot? && RecordIdentity(r) == RecordIdentity(s)
    ensures r == s
  {
    var c :| CandidatesOf(stored, c) && Replayable(c, c.snapshots.Values) && Materialized(c, c.snapshots.Values, v);
    assert c.snapshots[RecordIdentity(r)] == r;
    assert c.snapshots[RecordIdentity(s)] == s;
  }

  /** Replay refuses the clashing records in every order and spread, whatever else is stored. */
  lemma ClashingHistoryIsRefused(x: (string, string), y: (string, string), stored: set<Record>, v: View)
    requires RunTogether(x, y) && forall r | r in ClashingHistory(x, y) :: r in stored
    ensures !ReplayOf(stored, v)
  {
    ClashingGroupsDiffer(x, y);
    var q := ClashingHistory(x, y);
    assert q[2] in q && q[3] in q && q[2].group != q[3].group;
    if ReplayOf(stored, v) {
      ReplayTellsApart(stored, v, q[2], q[3]);
    }
  }

  // ---------------------------------------------------------------------------------------------
  // Consistent records are replayable, without running the replay

  ghost predicate IsCurrentLifecycle(stored: set<Record>, v: View, g: string, r: Record)
    requires g in v.epochs
  {
    r in stored && r.Lifecycle() && r.group == g && r.epoch == v.epochs[g]
  }

  ghost predicate HasIdentity(stored: set<Record>, id: Identity, r: Record) {
    r in stored && r.OffsetSnapshot? && RecordIdentity(r) == id
  }

  ghost function CandidatesIn(stored: set<Record>, v: View): Candidates
    requires HoldsCurrent(stored, v)
  {
    assert forall g | g in v.epochs :: exists r :: IsCurrentLifecycle(stored, v, g, r) by { CurrentExists(stored, v); }
    Candidates(map g | g in v.epochs :: (var r :| IsCurrentLifecycle(stored, v, g, r); r),
               map id | id in Identities(stored) :: (var r :| HasIdentity(stored, id, r); r))
  }

  lemma CurrentExists(stored: set<Record>, v: View)
    requires HoldsCurrent(stored, v)
    ensures forall g | g in v.epochs :: exists r :: IsCurrentLifecycle(stored, v, g, r)
  {
    forall g | g in v.epochs ensures exists r :: IsCurrentLifecycle(stored, v, g, r) {
      var r :| r in stored && r.Lifecycle() && r.group == g && r.epoch == v.epochs[g];
      assert IsCurrentLifecycle(stored, v, g, r);
    }
  }

  ghost function Identities(stored: set<Record>): (ids: set<Identity>)
    ensures forall id | id in ids :: exists r :: HasIdentity(stored, id, r)
  {
    var ids := set r | r in stored && r.OffsetSnapshot? :: RecordIdentity(r);
    assert forall id | id in ids :: exists r :: HasIdentity(stored, id, r) by {
      forall id | id in ids ensures exists r :: HasIdentity(stored, id, r) {
        var r :| r in stored && r.OffsetSnapshot? && RecordIdentity(r) == id;
        assert HasIdentity(stored, id, r);
      }
    }
    ids
  }

  lemma CandidatesFound(stored: set<Record>, v: View)
    requires Consistent(stored, v)
    ensures CandidatesOf(stored, CandidatesIn(stored, v))
  {
    var c := CandidatesIn(stored, v);
    ConsistentIsClashFree(stored, v);
    forall g | g in c.lifecycles ensures IsCurrentLifecycle(stored, v, g, c.lifecycles[g]) {}
    forall id | id in c.snapshots ensures HasIdentity(stored, id, c.snapshots[id]) {}
    forall r | r in stored
      ensures ValidRecord(r)
      ensures r.Lifecycle() ==>
                r.group in c.lifecycles && (r.epoch < c.lifecycles[r.group].epoch || r == c.lifecycles[r.group])
      ensures r.OffsetSnapshot? ==> RecordIdentity(r) in c.snapshots && c.snapshots[RecordIdentity(r)] == r
    {
      assert Explained(r, v);
      if r.Lifecycle() {
        assert IsCurrentLifecycle(stored, v, r.group, c.lifecycles[r.group]);
        assert Agree(r, c.lifecycles[r.group]);
      } else {
        assert HasIdentity(stored, RecordIdentity(r), c.snapshots[RecordIdentity(r)]);
        assert !Clash(r, c.snapshots[RecordIdentity(r)]);
      }
    }
  }

  lemma NewestIsCurrent(stored: set<Record>, v: View, c: Candidates, g: string, t: string)
    requires Consistent(stored, v) && CandidatesOf(stored, c) && g in v.groups
    ensures Live(c, g) && Newest(c, c.snapshots.Values, g, v.groups[g], t)
  {
    hide CandidatesOf;
    CandidateIsCurrent(stored, v, c, g);
    assert WellFormedGroup(g, v.groups[g]);
    forall r | r in c.snapshots.Values && Current(c, r) && r.group == g && r.topic == t
      ensures r.revision <= GetOrZero(v.groups[g].revisions, t) && Dominates(r.offsets, CurrentOffsets(v.groups[g], t))
    {
      SnapshotsAreStored(stored, c, r);
      assert Explained(r, v);
    }
    if t in v.groups[g].offsets {
      var current := SnapshotOf(g, v.groups[g], t);
      SnapshotsAreStored(stored, c, current);
      assert Current(c, current);
    }
  }

  lemma ConsistentIsReplayed(stored: set<Record>, v: View)
    requires Consistent(stored, v)
    ensures ReplayOf(stored, v)
  {
    hide CandidatesOf, Replayable, Newest, CandidatesIn, Consistent;
    CandidatesExist(stored, v);
    var c :| CandidatesOf(stored, c);
    ConsistentIsReplayable(stored, v, c);
    forall g ensures (g in c.lifecycles <==> g in v.epochs) && (g in v.epochs ==> c.lifecycles[g].epoch == v.epochs[g])
      ensures Live(c, g) <==> g in v.groups
      ensures g in v.groups ==> c.lifecycles[g] == RegistrationOf(g, v.groups[g])
    {
      CandidateIsCurrent(stored, v, c, g);
    }
    forall g, t | g in v.groups ensures Live(c, g) && Newest(c, c.snapshots.Values, g, v.groups[g], t) {
      NewestIsCurrent(stored, v, c, g, t);
    }
    assert v.epochs == (map g | g in c.lifecycles :: c.lifecycles[g].epoch);
    assert v.groups.Keys == (set g | g in c.lifecycles && c.lifecycles[g].Registration?);
    assert Materialized(c, c.snapshots.Values, v);
  }

  lemma CandidatesExist(stored: set<Record>, v: View)
    requires Consistent(stored, v)
    ensures exists c :: CandidatesOf(stored, c)
  {
    CandidatesFound(stored, v);
  }

  /** Every history over the pairs is rebuilt from its records as what it led to. */
  ghost predicate AlwaysRecovered(pairs: set<(string, string)>) {
    forall records, v | History(EMPTY, records) && Over(records, pairs) ::
      ReplayOf(Elements(records), v) <==> v == Outcome(EMPTY, records)
  }

  lemma ConsistentIsRebuilt(stored: set<Record>, v: View, w: View)
    requires Consistent(stored, v) && ReplayOf(stored, w)
    ensures w == v
  {
    hide Consistent, CandidatesOf, Materialized, Replayable;
    var c :| CandidatesOf(stored, c) && Replayable(c, c.snapshots.Values) && Materialized(c, c.snapshots.Values, w);
    RebuiltIsView(stored, v, c, w);
  }

  /**
   * Recovery is right for every history over a set of (group, topic) pairs if and only if their joined forms differ.
   * For topics that pass ValidateName they always do.
   */
  lemma ApartIsExact(pairs: set<(string, string)>)
    requires forall x | x in pairs :: x.0 != "" && x.1 != ""
    ensures AlwaysRecovered(pairs) <==> Apart(pairs)
  {
    if Apart(pairs) {
      forall records, v | History(EMPTY, records) && Over(records, pairs)
        ensures ReplayOf(Elements(records), v) <==> v == Outcome(EMPTY, records)
      {
        HistoryIsConsistent(records, pairs);
        if ReplayOf(Elements(records), v) { ConsistentIsRebuilt(Elements(records), Outcome(EMPTY, records), v); }
        ConsistentIsReplayed(Elements(records), Outcome(EMPTY, records));
      }
    } else {
      var x, y :| x in pairs && y in pairs && Join(x.0, x.1) == Join(y.0, y.1) && x != y;
      var records := ClashingHistory(x, y);
      ClashingHistoryIsHistory(x, y);
      assert Over(records, pairs);
      ClashingHistoryIsRefused(x, y, Elements(records), Outcome(EMPTY, records));
    }
  }

  lemma PortablePairsAreRecovered(pairs: set<(string, string)>)
    requires forall x | x in pairs :: x.0 != "" && PortableName(x.1)
    ensures AlwaysRecovered(pairs)
  {
    assert !PortableChar(NUL);
    NulFreeTopicsAreApart(pairs);
    ApartIsExact(pairs);
  }
}
