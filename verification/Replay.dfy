/**
 * Start-up replay of the internal metadata topic (recoverConsumerMetadata and materializeConsumerMetadata,
 * pkg/coordinator/metadata_record.go).
 */
module Replay {
  import opened Common
  import opened Sorting
  import opened MetadataRecord
  import opened DurableView

  /** One stored message. Encoding a record as JSON and back is the identity. */
  datatype Message = Message(offset: nat, key: Key, record: Record)

  const BATCH_SIZE := 1024

  predicate Increasing(log: seq<Message>) {
    forall i, j | 0 <= i < j < |log| :: log[i].offset < log[j].offset
  }

  ghost function RecordsOf(log: seq<Message>): set<Record> {
    set m | m in log :: m.record
  }

  /** All records of all partitions, whatever partition or position they are in. */
  ghost function StoredRecords(logs: seq<seq<Message>>): set<Record> {
    set i, m | 0 <= i < |logs| && m in logs[i] :: m.record
  }

  /** `ReadTopicPartition`: the first `max` messages at or after an offset. */
  function ReadFrom(log: seq<Message>, next: nat, max: nat): seq<Message> {
    if log == [] then []
    else if log[0].offset < next then ReadFrom(log[1..], next, max)
    else log[..if max < |log| then max else |log|]
  }

  /** The log is split where the next read starts: `past` has been read, `rest` has not. */
  ghost predicate Positioned(log: seq<Message>, past: seq<Message>, rest: seq<Message>, next: nat) {
    && log == past + rest
    && Increasing(log)
    && (forall m | m in past :: m.offset < next)
    && (forall m | m in rest :: m.offset >= next)
  }

  lemma {:induction false} ReadFromAt(past: seq<Message>, rest: seq<Message>, next: nat, max: nat)
    requires forall m | m in past :: m.offset < next
    requires forall m | m in rest :: m.offset >= next
    ensures ReadFrom(past + rest, next, max) == rest[..if max < |rest| then max else |rest|]
  {
    if past == [] {
      assert past + rest == rest;
    } else {
      assert (past + rest)[1..] == past[1..] + rest;
      ReadFromAt(past[1..], rest, next, max);
    }
  }

  lemma AroundLast(lo: seq<Message>, hi: seq<Message>)
    requires Increasing(lo + hi) && |lo| > 0
    ensures forall m | m in lo :: m.offset < lo[|lo| - 1].offset + 1
    ensures forall m | m in hi :: m.offset >= lo[|lo| - 1].offset + 1
  {
    var log := lo + hi;
    assert log[|lo| - 1] == lo[|lo| - 1];
    forall i | 0 <= i < |lo| ensures lo[i].offset <= lo[|lo| - 1].offset {
      assert log[i] == lo[i];
    }
    forall i | 0 <= i < |hi| ensures hi[i].offset > lo[|lo| - 1].offset {
      assert log[|lo| + i] == hi[i];
    }
  }

  /** Reading on after the last message of a batch neither skips nor repeats a message. */
  lemma BatchAdvances(log: seq<Message>, past: seq<Message>, rest: seq<Message>, next: nat, max: nat,
                      batch: seq<Message>)
    requires Positioned(log, past, rest, next) && max > 0
    requires batch == ReadFrom(log, next, max)
    ensures batch <= rest
    ensures |batch| < max ==> batch == rest
    ensures |batch| > 0 ==> Positioned(log, past + batch, rest[|batch|..], batch[|batch| - 1].offset + 1)
  {
    ReadFromAt(past, rest, next, max);
    if |batch| > 0 {
      assert log == (past + batch) + rest[|batch|..];
      AroundLast(past + batch, rest[|batch|..]);
    }
  }

  // ---------------------------------------------------------------------------------------------
  // Scan: one lifecycle candidate per group, one snapshot per identity

  datatype Candidates = Candidates(lifecycles: map<string, Record>, snapshots: map<Identity, Record>)

  /** One record of the scan loop; an error is a conflict of two records of the same identity. */
  function Absorb(c: Candidates, r: Record): Result<Candidates> {
    if r.OffsetSnapshot? then
      var id := RecordIdentity(r);
      if id in c.snapshots then
        if c.snapshots[id] != r then Err("conflicting offset snapshots") else Ok(c)
      else Ok(c.(snapshots := c.snapshots[id := r]))
    else if r.group !in c.lifecycles || r.epoch > c.lifecycles[r.group].epoch then
      Ok(c.(lifecycles := c.lifecycles[r.group := r]))
    else if r.epoch < c.lifecycles[r.group].epoch then Ok(c)
    else if c.lifecycles[r.group] != r then Err("conflicting lifecycle records")
    else Ok(c)
  }

  /** The candidates of a set of records: newest lifecycle record per group and every snapshot. */
  ghost predicate CandidatesOf(seen: set<Record>, c: Candidates) {
    && (forall g | g in c.lifecycles ::
          c.lifecycles[g] in seen && c.lifecycles[g].Lifecycle() && c.lifecycles[g].group == g)
    && (forall id | id in c.snapshots ::
          c.snapshots[id] in seen && c.snapshots[id].OffsetSnapshot? && RecordIdentity(c.snapshots[id]) == id)
    && (forall r | r in seen :: ValidRecord(r))
    && (forall r | r in seen && r.Lifecycle() ::
          r.group in c.lifecycles && (r.epoch < c.lifecycles[r.group].epoch || r == c.lifecycles[r.group]))
    && (forall r | r in seen && r.OffsetSnapshot? ::
          RecordIdentity(r) in c.snapshots && c.snapshots[RecordIdentity(r)] == r)
  }

  /** Two records the scan would report as a conflict in some order. */
  predicate Clash(r: Record, s: Record) {
    || (r.Lifecycle() && s.Lifecycle() && r.group == s.group && r.epoch == s.epoch && r != s)
    || (r.OffsetSnapshot? && s.OffsetSnapshot? && RecordIdentity(r) == RecordIdentity(s) && r != s)
  }

  ghost predicate ClashFree(stored: set<Record>) {
    forall r, s | r in stored && s in stored :: !Clash(r, s)
  }

  /** Every message decodes to a valid record stored under its own key. */
  ghost predicate WellKeyed(log: seq<Message>) {
    forall m | m in log :: ValidRecord(m.record) && m.key == RecordKey(m.record)
  }

  lemma AbsorbStep(seen: set<Record>, c: Candidates, r: Record)
    requires CandidatesOf(seen, c) && ValidRecord(r)
    ensures Absorb(c, r).Ok? ==> CandidatesOf(seen + {r}, Absorb(c, r).value)
    ensures Absorb(c, r).Err? ==> exists s :: s in seen && Clash(r, s)
  {
    hide ValidRecord, RecordIdentity;
    if Absorb(c, r).Err? {
      var s := if r.OffsetSnapshot? then c.snapshots[RecordIdentity(r)] else c.lifecycles[r.group];
      assert s in seen && Clash(r, s);
    }
  }

  lemma RecordsOneMore(log: seq<Message>, k: nat)
    requires k < |log|
    ensures RecordsOf(log[..k + 1]) == RecordsOf(log[..k]) + {log[k].record}
    ensures RecordsOf(log[..k + 1]) <= RecordsOf(log)
  {
    assert log[..k + 1] == log[..k] + [log[k]];
  }

  /** One message of a batch. */
  lemma AbsorbNext(seen: set<Record>, batch: seq<Message>, k: nat, c: Candidates)
    requires k < |batch| && CandidatesOf(seen + RecordsOf(batch[..k]), c) && WellKeyed(batch[..k])
    requires ValidRecord(batch[k].record) && batch[k].key == RecordKey(batch[k].record)
    ensures WellKeyed(batch[..k + 1])
    ensures Absorb(c, batch[k].record).Ok? ==>
              CandidatesOf(seen + RecordsOf(batch[..k + 1]), Absorb(c, batch[k].record).value)
    ensures Absorb(c, batch[k].record).Err? ==> !ClashFree(seen + RecordsOf(batch))
  {
    hide CandidatesOf, Absorb, ValidRecord, Clash;
    var now, r := seen + RecordsOf(batch[..k]), batch[k].record;
    RecordsOneMore(batch, k);
    AbsorbStep(now, c, r);
    assert seen + RecordsOf(batch[..k + 1]) == now + {r} && batch[..k + 1] == batch[..k] + [batch[k]];
    assert now + {r} <= seen + RecordsOf(batch);
  }

  /** Absorbs one batch of messages. */
  method AbsorbBatch(batch: seq<Message>, before: Candidates, ghost seen: set<Record>) returns (r: Result<Candidates>)
    requires CandidatesOf(seen, before)
    ensures r.Ok? ==> WellKeyed(batch) && CandidatesOf(seen + RecordsOf(batch), r.value)
    ensures r.Err? ==> !WellKeyed(batch) || !ClashFree(seen + RecordsOf(batch))
  {
    hide CandidatesOf, ClashFree, Absorb, RecordsOf, WellKeyed, ValidRecord;
    var c := before;
    NothingAbsorbed(seen, batch);
    for k := 0 to |batch|
      invariant CandidatesOf(seen + RecordsOf(batch[..k]), c) && WellKeyed(batch[..k])
    {
      var m := batch[k];
      if !ValidRecord(m.record) {
        Misfiled(batch, m);
        return Err("decode internal metadata");
      }
      if m.key != RecordKey(m.record) {
        Misfiled(batch, m);
        return Err("internal metadata key mismatch");
      }
      AbsorbNext(seen, batch, k, c);
      var absorbed := Absorb(c, m.record);
      if absorbed.Err? { return Err(absorbed.reason); }
      c := absorbed.value;
    }
    assert batch[..|batch|] == batch;
    return Ok(c);
  }

  lemma NothingAbsorbed(seen: set<Record>, batch: seq<Message>)
    ensures seen + RecordsOf(batch[..0]) == seen && WellKeyed(batch[..0])
  {
  }

  lemma Misfiled(batch: seq<Message>, m: Message)
    requires m in batch && !(ValidRecord(m.record) && m.key == RecordKey(m.record))
    ensures !WellKeyed(batch)
  {
  }

  lemma BatchRecords(seen: set<Record>, log: seq<Message>, past: seq<Message>, batch: seq<Message>)
    requires past + batch <= log
    ensures seen + RecordsOf(past + batch) == seen + RecordsOf(past) + RecordsOf(batch)
    ensures ClashFree(seen + RecordsOf(log)) ==> ClashFree(seen + RecordsOf(past) + RecordsOf(batch))
    ensures WellKeyed(log) ==> WellKeyed(batch)
  {
    assert forall m | m in past + batch :: m in log;
    assert seen + RecordsOf(past) + RecordsOf(batch) <= seen + RecordsOf(log);
  }

  /** Reads one partition in batches and absorbs every message of it exactly once. */
  method ScanPartition(log: seq<Message>, start: nat, before: Candidates, ghost seen: set<Record>)
    returns (r: Result<Candidates>)
    requires Increasing(log) && forall m | m in log :: m.offset >= start
    requires CandidatesOf(seen, before)
    ensures r.Ok? ==> WellKeyed(log) && CandidatesOf(seen + RecordsOf(log), r.value)
    ensures r.Err? ==> !WellKeyed(log) || !ClashFree(seen + RecordsOf(log))
  {
    var c := before;
    var next: nat := start;
    ghost var past, rest := [], log;
    assert seen + RecordsOf(past) == seen;
    while true
      invariant Positioned(log, past, rest, next)
      invariant CandidatesOf(seen + RecordsOf(past), c) && WellKeyed(past)
      decreases |rest|
    {
      var batch := ReadFrom(log, next, BATCH_SIZE);
      BatchAdvances(log, past, rest, next, BATCH_SIZE, batch);
      BatchRecords(seen, log, past, batch);
      var absorbed := AbsorbBatch(batch, c, seen + RecordsOf(past));
      if absorbed.Err? { return Err(absorbed.reason); }
      c := absorbed.value;
      past := past + batch;
      if |batch| < BATCH_SIZE { break; }
      rest := rest[|batch|..];
      next := batch[|batch| - 1].offset + 1;
    }
    assert past == log;
    return Ok(c);
  }

  lemma StoredOneMore(logs: seq<seq<Message>>, p: nat)
    requires p < |logs|
    ensures StoredRecords(logs[..p + 1]) == StoredRecords(logs[..p]) + RecordsOf(logs[p])
    ensures StoredRecords(logs[..p + 1]) <= StoredRecords(logs)
  {
    forall r | r in RecordsOf(logs[p]) ensures r in StoredRecords(logs[..p + 1]) {
      var m :| m in logs[p] && m.record == r;
      assert logs[..p + 1][p] == logs[p];
    }
    forall r | r in StoredRecords(logs[..p]) ensures r in StoredRecords(logs[..p + 1]) {
      var i, m :| 0 <= i < p && m in logs[..p][i] && m.record == r;
      assert logs[..p + 1][i] == logs[i];
    }
    forall r | r in StoredRecords(logs[..p + 1]) ensures r in StoredRecords(logs) {
      var i, m :| 0 <= i < p + 1 && m in logs[..p + 1][i] && m.record == r;
      assert logs[..p + 1][i] == logs[i];
    }
  }

  lemma NothingScanned()
    ensures CandidatesOf({}, Candidates(map[], map[]))
  {
  }

  /** Scans all partitions in order. */
  method Scan(logs: seq<seq<Message>>, starts: seq<nat>) returns (r: Result<Candidates>)
    requires |starts| == |logs|
    requires forall i | 0 <= i < |logs| :: Increasing(logs[i]) && forall m | m in logs[i] :: m.offset >= starts[i]
    ensures r.Ok? ==> CandidatesOf(StoredRecords(logs), r.value) && forall i | 0 <= i < |logs| :: WellKeyed(logs[i])
    ensures r.Err? ==> (exists i :: 0 <= i < |logs| && !WellKeyed(logs[i])) || !ClashFree(StoredRecords(logs))
  {
    hide CandidatesOf, WellKeyed;
    var c := Candidates(map[], map[]);
    assert StoredRecords(logs[..0]) == {};
    NothingScanned();
    for p := 0 to |logs|
      invariant CandidatesOf(StoredRecords(logs[..p]), c) && forall i | 0 <= i < p :: WellKeyed(logs[i])
    {
      var scanned := ScanPartition(logs[p], starts[p], c, StoredRecords(logs[..p]));
      StoredOneMore(logs, p);
      if scanned.Err? { return Err(scanned.reason); }
      c := scanned.value;
    }
    assert logs[..|logs|] == logs;
    return Ok(c);
  }

  // ---------------------------------------------------------------------------------------------
  // Materialization

  /** Offsets a registration starts a topic with. */
  function BaseOf(c: Candidates, g: string, t: string): TopicSnapshot
    requires g in c.lifecycles && c.lifecycles[g].Registration?
  {
    if t in c.lifecycles[g].initial then c.lifecycles[g].initial[t] else TopicSnapshot(0, map[])
  }

  predicate Live(c: Candidates, g: string) {
    g in c.lifecycles && c.lifecycles[g].Registration?
  }

  /** A snapshot taken under the registration that is live now. */
  predicate Current(c: Candidates, r: Record) {
    r.OffsetSnapshot? && Live(c, r.group) && r.epoch == c.lifecycles[r.group].epoch
  }

  /** A single current snapshot that replay accepts. */
  predicate Acceptable(c: Candidates, r: Record)
    requires Current(c, r)
  {
    var base := BaseOf(c, r.group, r.topic);
    && TopicMatches(c.lifecycles[r.group].topic, r.topic)
    && (r.revision >= base.revision ==> PartitionsBelow(r.offsets, c.lifecycles[r.group].partitionCount))
    && (r.revision == base.revision && base.revision != 0 ==> r.offsets == base.offsets)
    && (r.revision > base.revision ==> Dominates(base.offsets, r.offsets))
  }

  /** Exactly the sets of snapshots replay accepts: none is out of place and none regresses. */
  ghost predicate Replayable(c: Candidates, snapshots: set<Record>) {
    && (forall r | r in snapshots && Current(c, r) :: Acceptable(c, r))
    && (forall r, s | r in snapshots && s in snapshots && Current(c, r) && Current(c, s)
                      && r.group == s.group && r.topic == s.topic
                      && BaseOf(c, r.group, r.topic).revision <= r.revision < s.revision ::
          Dominates(r.offsets, s.offsets))
  }

  /** The group holds the newest of the given snapshots of a topic, or what it was registered with. */
  ghost predicate Newest(c: Candidates, snapshots: set<Record>, name: string, g: DurableGroup, t: string)
    requires Live(c, name)
  {
    var base := BaseOf(c, name, t);
    var revision, offsets := GetOrZero(g.revisions, t), CurrentOffsets(g, t);
    && (t in g.offsets <==> t in g.revisions)
    && base.revision <= revision && Dominates(base.offsets, offsets)
    && (forall r | r in snapshots && Current(c, r) && r.group == name && r.topic == t ::
          r.revision <= revision && (r.revision >= base.revision ==> Dominates(r.offsets, offsets)))
    && (|| (revision == base.revision && offsets == base.offsets
            && (t in g.offsets <==> t in c.lifecycles[name].initial))
        || (t in g.offsets
            && exists r :: r in snapshots && Current(c, r) && r.group == name && r.topic == t
                           && r.revision == revision && r.offsets == offsets))
  }

  ghost predicate Materialized(c: Candidates, snapshots: set<Record>, v: View) {
    && v.epochs == (map g | g in c.lifecycles :: c.lifecycles[g].epoch)
    && v.groups.Keys == (set g | g in c.lifecycles && c.lifecycles[g].Registration?)
    && (forall g | g in v.groups ::
          && v.groups[g].topic == c.lifecycles[g].topic
          && v.groups[g].partitionCount == c.lifecycles[g].partitionCount
          && v.groups[g].epoch == c.lifecycles[g].epoch
          && forall t :: Newest(c, snapshots, g, v.groups[g], t))
  }

  predicate RecordLess(r: Record, s: Record)
  {
    r.OffsetSnapshot? && s.OffsetSnapshot? &&
    if r.group != s.group then StringLess(r.group, s.group)
    else if r.topic != s.topic then StringLess(r.topic, s.topic)
    else if r.epoch != s.epoch then r.epoch < s.epoch
    else r.revision < s.revision
  }

  lemma SnapshotsStrictTotal(s: set<Record>)
    requires forall r | r in s :: r.OffsetSnapshot?
    requires forall r, q | r in s && q in s && RecordIdentity(r) == RecordIdentity(q) :: r == q
    ensures StrictTotalOn(s, RecordLess)
  {
    forall x, y | x in s && y in s
      ensures !RecordLess(x, x) && (x != y ==> RecordLess(x, y) || RecordLess(y, x))
    {
      StringLessTotal(x.group, y.group);
      StringLessTotal(x.topic, y.topic);
    }
    forall x, y, z | x in s && y in s && z in s && RecordLess(x, y) && RecordLess(y, z)
      ensures RecordLess(x, z)
    {
      StringLessTotal(x.group, x.group);
      StringLessTotal(x.topic, x.topic);
      StringLessTotal(y.group, z.group);
      StringLessTotal(y.topic, z.topic);
      if x.group != y.group && y.group != z.group { StringLessTransitive(x.group, y.group, z.group); }
      if x.topic != y.topic && y.topic != z.topic && StringLess(x.topic, y.topic) && StringLess(y.topic, z.topic) {
        StringLessTransitive(x.topic, y.topic, z.topic);
      }
    }
  }

  /** The group a registration record stands for. */
  function Registered(r: Record): DurableGroup
    requires r.Registration?
  {
    DurableGroup(r.topic, r.partitionCount, r.epoch,
                 map t | t in r.initial :: r.initial[t].offsets,
                 map t | t in r.initial :: r.initial[t].revision)
  }

  /** Epochs of the given groups, and those of them that are registered. */
  ghost predicate GroupsOf(lifecycles: map<string, Record>, names: set<string>, v: View)
    requires names <= lifecycles.Keys
  {
    && v.epochs.Keys == names
    && (forall g | g in names :: v.epochs[g] == lifecycles[g].epoch)
    && (forall g :: g in v.groups <==> g in names && lifecycles[g].Registration?)
    && (forall g | g in v.groups :: v.groups[g] == Registered(lifecycles[g]))
  }

  lemma GroupsOneMore(lifecycles: map<string, Record>, done: set<string>, v: View, name: string, w: View)
    requires done <= lifecycles.Keys && name in lifecycles && name !in done
    requires GroupsOf(lifecycles, done, v)
    requires w.epochs == v.epochs[name := lifecycles[name].epoch]
    requires w.groups
            == if lifecycles[name].Registration? then v.groups[name := Registered(lifecycles[name])] else v.groups
    ensures GroupsOf(lifecycles, done + {name}, w)
  {
  }

  lemma NoGroups(lifecycles: map<string, Record>)
    ensures GroupsOf(lifecycles, {}, View(map[], map[]))
  {
  }

  lemma {:induction false} NameIsNew(names: seq<string>, i: nat)
    requires Sorted(names, StringLess) && i < |names|
    ensures names[i] !in names[..i]
  {
    forall j | 0 <= j < i ensures names[j] != names[i] {
      StringLessTotal(names[j], names[i]);
    }
  }

  /** First loop of materialization, over the group names in order. */
  method MaterializeGroups(lifecycles: map<string, Record>) returns (v: View)
    ensures GroupsOf(lifecycles, lifecycles.Keys, v)
  {
    hide GroupsOf, Registered;
    var names := SortStrings(lifecycles.Keys);
    v := View(map[], map[]);
    NoGroups(lifecycles);
    ghost var done: set<string> := {};
    for i := 0 to |names|
      invariant done <= lifecycles.Keys
      invariant forall g :: g in done <==> g in names[..i]
      invariant GroupsOf(lifecycles, done, v)
    {
      NameIsNew(names, i);
      var name, before := names[i], v;
      var record := lifecycles[name];
      v := v.(epochs := v.epochs[name := record.epoch]);
      if record.Registration? {
        v := v.(groups := v.groups[name := Registered(record)]);
      }
      GroupsOneMore(lifecycles, done, before, name, v);
      done := done + {name};
    }
    assert done == lifecycles.Keys;
  }

  /** Shape of the candidates of any scan. */
  ghost predicate WellShaped(c: Candidates) {
    && (forall g | g in c.lifecycles ::
          c.lifecycles[g].Lifecycle() && c.lifecycles[g].group == g && ValidRecord(c.lifecycles[g]))
    && (forall id | id in c.snapshots ::
          c.snapshots[id].OffsetSnapshot? && RecordIdentity(c.snapshots[id]) == id && ValidRecord(c.snapshots[id]))
  }

  /** Replay of one snapshot onto the view, in the order of the checks of the source. */
  function ReplayOne(v: View, r: Record): Result<View>
    requires r.OffsetSnapshot?
  {
    if r.group !in v.groups || v.groups[r.group].epoch != r.epoch then Ok(v)
    else
      var g := v.groups[r.group];
      var revision, offsets := GetOrZero(g.revisions, r.topic), CurrentOffsets(g, r.topic);
      if !TopicMatches(g.topic, r.topic) then Err("offset snapshot topic does not match group topic")
      else if r.revision < revision then Ok(v)
      else if exists p :: p in r.offsets && p >= g.partitionCount then Err("offset snapshot partition exceeds count")
      else if r.revision == revision && revision != 0 then
        if offsets != r.offsets then Err("conflicting offset snapshots during replay") else Ok(v)
      else if !Dominates(offsets, r.offsets) then Err("offset snapshot dropped or regressed a committed key")
      else Ok(v.(groups := v.groups[r.group :=
             g.(offsets := g.offsets[r.topic := r.offsets], revisions := g.revisions[r.topic := r.revision])]))
  }

  /** No earlier snapshot of the same registration and topic has a revision as high. */
  ghost predicate AfterAll(done: set<Record>, r: Record)
    requires r.OffsetSnapshot?
  {
    forall s | s in done && s.OffsetSnapshot? && s.group == r.group && s.topic == r.topic && s.epoch == r.epoch ::
      s.revision < r.revision
  }

  lemma NewestStep(c: Candidates, done: set<Record>, v: View, r: Record, t: string)
    requires Materialized(c, done, v)
    requires r.OffsetSnapshot? && ValidRecord(r) && AfterAll(done, r)
    requires Current(c, r) && r.topic == t
    requires ReplayOne(v, r).Ok?
    ensures r.group in v.groups && r.group in ReplayOne(v, r).value.groups
    ensures Newest(c, done + {r}, r.group, ReplayOne(v, r).value.groups[r.group], t)
  {
    var earlier := v.groups[r.group];
    var g := ReplayOne(v, r).value.groups[r.group];
    assert Newest(c, done, r.group, earlier, t);
    if g != earlier {
      assert g.offsets[t] == r.offsets && g.revisions[t] == r.revision;
      assert r in done + {r};
    }
  }

  lemma NewestElsewhere(c: Candidates, done: set<Record>, r: Record, name: string, g: DurableGroup, h: DurableGroup,
                        t: string)
    requires Live(c, name) && Newest(c, done, name, g, t)
    requires !(Current(c, r) && r.group == name && r.topic == t)
    requires (t in g.offsets <==> t in h.offsets) && (t in g.revisions <==> t in h.revisions)
    requires GetOrZero(g.revisions, t) == GetOrZero(h.revisions, t) && CurrentOffsets(g, t) == CurrentOffsets(h, t)
    ensures Newest(c, done + {r}, name, h, t)
  {
  }

  lemma MaterializedStep(c: Candidates, done: set<Record>, v: View, r: Record)
    requires Materialized(c, done, v)
    requires r.OffsetSnapshot? && ValidRecord(r) && AfterAll(done, r) && ReplayOne(v, r).Ok?
    ensures Materialized(c, done + {r}, ReplayOne(v, r).value)
  {
    var w := ReplayOne(v, r).value;
    assert w.groups.Keys == v.groups.Keys;
    forall name, t | name in w.groups ensures Newest(c, done + {r}, name, w.groups[name], t) {
      if Current(c, r) && r.group == name && r.topic == t {
        NewestStep(c, done, v, r, t);
      } else {
        assert Newest(c, done, name, v.groups[name], t);
        NewestElsewhere(c, done, r, name, v.groups[name], w.groups[name], t);
      }
    }
  }

  /** The checks of replay fail exactly when the snapshot is out of place among the earlier ones. */
  lemma AcceptsExactly(c: Candidates, done: set<Record>, v: View, r: Record)
    requires Materialized(c, done, v) && Replayable(c, done)
    requires r.OffsetSnapshot? && ValidRecord(r) && AfterAll(done, r)
    ensures ReplayOne(v, r).Ok? <==> Replayable(c, done + {r})
  {
    if Current(c, r) {
      assert Newest(c, done, r.group, v.groups[r.group], r.topic);
    }
  }

  lemma {:induction false} RegisteredIsMaterialized(c: Candidates, v: View)
    requires WellShaped(c) && GroupsOf(c.lifecycles, c.lifecycles.Keys, v)
    ensures Materialized(c, {}, v) && Replayable(c, {})
  {
    forall name, t | name in v.groups ensures Newest(c, {}, name, v.groups[name], t) {
      assert v.groups[name] == Registered(c.lifecycles[name]);
    }
  }

  method SortSnapshots(s: set<Record>) returns (q: seq<Record>)
    requires forall r | r in s :: r.OffsetSnapshot?
    requires forall r, q | r in s && q in s && RecordIdentity(r) == RecordIdentity(q) :: r == q
    ensures Sorted(q, RecordLess)
    ensures forall r :: r in q <==> r in s
  {
    SnapshotsStrictTotal(s);
    q := Sort(s, RecordLess);
  }

  /** Second loop of materialization, over the snapshots by group, topic, epoch and revision. */
  method Materialize(c: Candidates) returns (r: Result<View>)
    requires WellShaped(c)
    ensures r.Ok? <==> Replayable(c, c.snapshots.Values)
    ensures r.Ok? ==> Materialized(c, c.snapshots.Values, r.value)
  {
    hide Materialized, ReplayOne, AfterAll;
    var v := MaterializeGroups(c.lifecycles);
    RegisteredIsMaterialized(c, v);
    var ordered := SortSnapshots(c.snapshots.Values);
    ghost var done: set<Record> := {};
    for i := 0 to |ordered|
      invariant forall q :: q in done <==> q in ordered[..i]
      invariant Materialized(c, done, v) && Replayable(c, done)
    {
      var snapshot := ordered[i];
      assert snapshot in c.snapshots.Values;
      AcceptsExactly(c, done, v, snapshot);
      var next := ReplayOne(v, snapshot);
      if next.Err? {
        assert done + {snapshot} <= c.snapshots.Values;
        return Err(next.reason);
      }
      MaterializedStep(c, done, v, snapshot);
      v := next.value;
      done := done + {snapshot};
    }
    assert done == c.snapshots.Values;
    return Ok(v);
  }

  // ---------------------------------------------------------------------------------------------
  // Replay of consistent records

  lemma ConsistentIsClashFree(stored: set<Record>, v: View)
    requires Consistent(stored, v)
    ensures ClashFree(stored)
  {
    forall r, s | r in stored && s in stored ensures !Clash(r, s) {
      assert Explained(r, v) && Explained(s, v) && Agree(r, s);
      if r.OffsetSnapshot? && s.OffsetSnapshot? && RecordIdentity(r) == RecordIdentity(s) {
        StoredApart(stored, r, s);
      }
    }
  }

  lemma CandidateIsCurrent(stored: set<Record>, v: View, c: Candidates, g: string)
    requires Consistent(stored, v) && CandidatesOf(stored, c)
    ensures g in c.lifecycles <==> g in v.epochs
    ensures g in v.epochs ==> c.lifecycles[g].epoch == v.epochs[g]
    ensures Live(c, g) <==> g in v.groups
    ensures g in v.groups ==> c.lifecycles[g] == RegistrationOf(g, v.groups[g])
  {
    if g in c.lifecycles {
      assert Explained(c.lifecycles[g], v);
    }
    if g in v.epochs {
      var r :| r in stored && r.Lifecycle() && r.group == g && r.epoch == v.epochs[g];
      assert Explained(r, v);
    }
  }

  lemma SnapshotsAreStored(stored: set<Record>, c: Candidates, r: Record)
    requires CandidatesOf(stored, c)
    ensures r in c.snapshots.Values <==> r in stored && r.OffsetSnapshot?
  {
    if r in stored && r.OffsetSnapshot? {
      assert c.snapshots[RecordIdentity(r)] == r;
    }
  }

  lemma ConsistentIsReplayable(stored: set<Record>, v: View, c: Candidates)
    requires Consistent(stored, v) && CandidatesOf(stored, c)
    ensures Replayable(c, c.snapshots.Values)
  {
    forall r | r in c.snapshots.Values && Current(c, r) ensures Acceptable(c, r) {
      SnapshotsAreStored(stored, c, r);
      CandidateIsCurrent(stored, v, c, r.group);
      assert Explained(r, v);
    }
    forall r, s | r in c.snapshots.Values && s in c.snapshots.Values && Current(c, r) && Current(c, s)
                  && r.group == s.group && r.topic == s.topic && r.revision < s.revision
      ensures Dominates(r.offsets, s.offsets)
    {
      SnapshotsAreStored(stored, c, r);
      SnapshotsAreStored(stored, c, s);
      assert Agree(r, s);
    }
  }

  /** Two groups hold the same offsets and revision of a topic. */
  predicate SameTopic(g: DurableGroup, h: DurableGroup, t: string) {
    && (t in g.offsets <==> t in h.offsets) && (t in g.revisions <==> t in h.revisions)
    && (t in g.offsets ==> g.offsets[t] == h.offsets[t])
    && (t in g.revisions ==> g.revisions[t] == h.revisions[t])
  }

  lemma RebuiltTopic(stored: set<Record>, v: View, c: Candidates, w: View, name: string, t: string)
    requires Consistent(stored, v) && CandidatesOf(stored, c) && Materialized(c, c.snapshots.Values, w)
    requires name in v.groups && name in w.groups
    ensures SameTopic(w.groups[name], v.groups[name], t)
  {
    hide CandidatesOf;
    CandidateIsCurrent(stored, v, c, name);
    assert Newest(c, c.snapshots.Values, name, w.groups[name], t);
    if t in v.groups[name].offsets {
      var current := SnapshotOf(name, v.groups[name], t);
      SnapshotsAreStored(stored, c, current);
      assert Current(c, current);
    }
    if t in w.groups[name].offsets {
      var r :| r in c.snapshots.Values && Current(c, r) && r.group == name && r.topic == t
               && r.revision == GetOrZero(w.groups[name].revisions, t)
               && r.offsets == CurrentOffsets(w.groups[name], t);
      SnapshotsAreStored(stored, c, r);
      assert Explained(r, v);
    }
  }

  lemma RebuiltGroup(stored: set<Record>, v: View, c: Candidates, w: View, name: string)
    requires Consistent(stored, v) && CandidatesOf(stored, c) && Materialized(c, c.snapshots.Values, w)
    requires name in v.groups && name in w.groups
    ensures w.groups[name] == v.groups[name]
  {
    var g, h := w.groups[name], v.groups[name];
    assert g.topic == h.topic && g.partitionCount == h.partitionCount && g.epoch == h.epoch by {
      CandidateIsCurrent(stored, v, c, name);
    }
    forall t ensures SameTopic(g, h, t) {
      RebuiltTopic(stored, v, c, w, name, t);
    }
    SameTopicsSameGroup(g, h);
  }

  lemma SameTopicsSameGroup(g: DurableGroup, h: DurableGroup)
    requires g.topic == h.topic && g.partitionCount == h.partitionCount && g.epoch == h.epoch
    requires forall t :: SameTopic(g, h, t)
    ensures g == h
  {
    forall t
      ensures (t in g.offsets <==> t in h.offsets) && (t in g.offsets ==> g.offsets[t] == h.offsets[t])
      ensures (t in g.revisions <==> t in h.revisions) && (t in g.revisions ==> g.revisions[t] == h.revisions[t])
    {
      assert SameTopic(g, h, t);
    }
    assert g.offsets == h.offsets && g.revisions == h.revisions;
  }

  lemma RebuiltIsView(stored: set<Record>, v: View, c: Candidates, w: View)
    requires Consistent(stored, v) && CandidatesOf(stored, c) && Materialized(c, c.snapshots.Values, w)
    ensures w == v
  {
    hide Consistent, CandidatesOf;
    forall g ensures g in w.epochs <==> g in v.epochs {
      CandidateIsCurrent(stored, v, c, g);
    }
    forall g ensures g in w.groups <==> g in v.groups {
      CandidateIsCurrent(stored, v, c, g);
    }
    forall g | g in v.epochs ensures w.epochs[g] == v.epochs[g] {
      CandidateIsCurrent(stored, v, c, g);
    }
    forall g | g in v.groups ensures w.groups[g] == v.groups[g] {
      RebuiltGroup(stored, v, c, w, g);
    }
    assert w.epochs == v.epochs && w.groups == v.groups;
  }

  /** What any successful replay means: the newest lifecycle record and newest snapshots win. */
  ghost predicate ReplayOf(stored: set<Record>, v: View) {
    exists c :: CandidatesOf(stored, c) && Replayable(c, c.snapshots.Values) && Materialized(c, c.snapshots.Values, v)
  }

  /**
   * Start-up replay. What it rebuilds depends only on which records are stored, not on their partitions or order, and
   * it rebuilds every view the stored records are consistent with.
   */
  method Recover(logs: seq<seq<Message>>, starts: seq<nat>) returns (r: Result<View>)
    requires |starts| == |logs|
    requires forall i | 0 <= i < |logs| :: Increasing(logs[i]) && forall m | m in logs[i] :: m.offset >= starts[i]
    ensures r.Ok? ==> ReplayOf(StoredRecords(logs), r.value) && forall i | 0 <= i < |logs| :: WellKeyed(logs[i])
    ensures (forall i | 0 <= i < |logs| :: WellKeyed(logs[i])) ==>
              forall v :: Consistent(StoredRecords(logs), v) ==> r == Ok(v)
  {
    ghost var stored := StoredRecords(logs);
    var scanned := Scan(logs, starts);
    if scanned.Err? {
      forall v | Consistent(stored, v) ensures ClashFree(stored) {
        ConsistentIsClashFree(stored, v);
      }
      return Err(scanned.reason);
    }
    var c := scanned.value;
    r := Materialize(c);
    forall v | Consistent(stored, v) ensures r == Ok(v) {
      ConsistentIsReplayable(stored, v, c);
      RebuiltIsView(stored, v, c, r.value);
    }
  }
}
