/**
 * Whole runs of the disk log against a plain sequence of records: whatever is written, rolled, truncated, compacted,
 * installed, crashed and restarted, every read answers as a scan of the sequence would.
 */
module LogRuns {
  import opened Common
  import opened Bytes
  import opened Fields
  import opened RecordCodec
  import opened Frames
  import opened Index
  import opened Recovery
  import opened LogReader
  import opened SegmentStore
  import opened StoreChanges
  import opened Filtering
  import opened Compaction
  import opened SegmentCompaction
  import opened DiskLog

  /** The retained records, the first offset the log covers, and the offset after the last. */
  datatype Plain = Plain(records: seq<DiskMessage>, first: nat, end: nat)

  datatype Op =
    | Write(batch: seq<DiskMessage>)
    | WriteOne(message: DiskMessage)
    | Roll
    | Truncate(n: nat, readers: nat)
    | Compact(enabled: bool, readers: nat, ratio: real, outcome: nat -> Swap)
    | Install(start: nat, next: nat, range: seq<DiskMessage>, readers: nat)
    | Crash(cut: nat, indexed: nat, strict: bool)   // what is found of the active log and index files
    | Read(from: nat, max: nat)

  datatype Answer = Done | Refused | Half | Got(messages: seq<DiskMessage>)

  /**
   * A pass over the closed records `head + mid` has rewritten `head` to `kept`: what must stay among all of them.
   * What follows is as it was.
   */
  ghost predicate Compacts(a: seq<DiskMessage>, b: seq<DiskMessage>, whole: bool) {
    exists head, mid, tail, kept :: Rewrites(a, b, head, mid, tail, kept) && (whole ==> mid == [])
  }

  ghost predicate Rewrites(a: seq<DiskMessage>, b: seq<DiskMessage>, head: seq<DiskMessage>, mid: seq<DiskMessage>,
                           tail: seq<DiskMessage>, kept: seq<DiskMessage>) {
    a == head + (mid + tail) && b == kept + (mid + tail) && StayExactly(head + mid, head, kept)
  }

  /** What an operation does to the plain sequence, and what it answers. */
  ghost predicate Does(op: Op, a: Plain, b: Plain, r: Answer) {
    match op
    case Write(batch) =>
      if Contiguous(batch, a.end) && AllStorable(batch)
      then r == Done && b == Plain(a.records + batch, a.first, a.end + |batch|) else r == Refused && b == a
    case WriteOne(m) =>
      if m.offset == a.end && Storable(m)
      then r == Done && b == Plain(a.records + [m], a.first, a.end + 1) else r == Refused && b == a
    case Roll => r == Done && b == a
    case Truncate(n, readers) =>
      || (r == Refused && b == a)
      || (r == Done && readers == 0 && n <= a.end && (n < a.end ==> a.first <= n)
          && b.first == a.first && b.end == n && DropsFrom(a.records, n, b.records))
    case Compact(enabled, readers, _, _) =>
      || (r == Refused && b == a)
      || ((r == Done || r == Half) && enabled && readers == 0 && b.first == a.first && b.end == a.end
          && Compacts(a.records, b.records, r == Done))
    case Install(start, next, range, readers) =>
      if start < next && Ascending(range) && Within(range, start, next) && readers == 0 && start == a.end
         && AllStorable(range)
      then r == Done && b == Plain(a.records + range, a.first, next) else r == Refused && b == a
    case Crash(_, _, strict) =>
      || (r == Refused && strict && b == a)
      || (r == Done && b.first == a.first && b.end <= a.end && DropsFrom(a.records, b.end, b.records))
    case Read(from, max) =>
      && b == a
      && r == if max == 0 then Got([])
              else if a.first <= from <= a.end then Got(Select(a.records, from, max))
              else Refused
  }

  ghost function PlainOf(log: DiskLog): Plain
    reads log
  {
    Plain(log.Records(), if log.segments == [] then 0 else log.segments[0], log.end)
  }

  // ---------------------------------------------------------------------------------------------
  // What a run may ask for

  /** No batch alone outgrows the index of a segment. */
  ghost predicate Fits(log: DiskLog, op: Op)
    reads log
  {
    op.Write? ==> ENTRY_SIZE * (|Log(op.batch)| / log.Interval() + 1) <= log.indexSize
  }

  /** The log of a segment was replaced and its old index file may stay. */
  ghost predicate MayLoseIndex(op: Op) {
    op.Compact? && exists i :: op.outcome(i).IndexLost?
  }

  ghost predicate AllIn(ms: seq<DiskMessage>, known: iset<DiskMessage>) {
    forall m | m in ms :: m in known
  }

  function MessagesOf(op: Op): seq<DiskMessage> {
    match op
    case Write(batch) => batch
    case WriteOne(m) => [m]
    case Install(_, _, range, _) => range
    case _ => []
  }

  /** No payload of these messages embeds bytes that pass for a record, so a stale index entry cannot mislead a read. */
  ghost predicate Unambiguous(known: iset<DiskMessage>) {
    forall ms, e {:trigger Matches(Log(ms), e)} | AllIn(ms, known) && Matches(Log(ms), e) :: AtRecord(ms, e.position)
  }

  /** Either no index file stays behind, or none that does could mislead. */
  ghost predicate Harmless(op: Op, records: seq<DiskMessage>, known: iset<DiskMessage>) {
    !MayLoseIndex(op) || (Unambiguous(known) && AllIn(records, known))
  }

  lemma DoesStaysKnown(op: Op, a: Plain, b: Plain, r: Answer, known: iset<DiskMessage>)
    requires Does(op, a, b, r) && AllIn(a.records, known) && AllIn(MessagesOf(op), known)
    ensures AllIn(b.records, known)
  {
    hide LatestOf, Storable, Select;
    if (op.Truncate? || op.Crash?) && b != a {
      var dropped :| a.records == b.records + dropped;
      assert forall m | m in b.records :: m in a.records;
    } else if op.Compact? && b != a {
      var head, mid, tail, kept :| Rewrites(a.records, b.records, head, mid, tail, kept);
      assert forall m | m in b.records :: m in head || m in mid + tail;
    }
  }

  lemma SurvivorsServe(log: DiskLog, known: iset<DiskMessage>, latest: Latest<seq<byte>>, i: nat)
    requires log.Valid() && Unambiguous(known) && AllIn(log.Records(), known) && i < |log.closed|
    ensures IndexServes(log.Now(), log.closed[i].base, None, Kept(log.closed[i].records, latest))
  {
    hide Matches, AtRecord, Log;
    var kept := Kept(log.closed[i].records, latest);
    PartIsRetained(log.closed, log.active, i);
    assert AllIn(kept, known);
  }

  lemma PartIsRetained(closed: seq<Part>, active: Part, i: nat)
    requires i < |closed|
    ensures forall m | m in closed[i].records :: m in Retained(closed, active)
  {
    assert (closed + [active])[i] == closed[i];
    PartIsFlat(closed + [active], 0, i);
  }

  // ---------------------------------------------------------------------------------------------
  // One operation

  lemma FewerRewritten(s: Store, closed: seq<Part>, active: Part, n: nat, latest: Latest<seq<byte>>)
    requires Holds(s, closed, active) && n <= |closed| && IsLatest(Flat(closed, 0), Head, latest)
    ensures Rewrites(Retained(closed, active), Retained(KeptFirst(closed, n, latest), active),
                     Flat(closed[..n], 0), Flat(closed[n..], 0), active.records,
                     Survivors(Flat(closed[..n], 0), Head, latest))
  {
    hide Holds, Flat, IsLatest, Survivors, StayExactly;
    var head, mid := closed[..n], closed[n..];
    assert closed == head + mid && KeptFirst(closed, n, latest) == KeptFirst(head, n, latest) + mid;
    FlatJoin(head, mid);
    FlatJoin(KeptFirst(head, n, latest), mid);
    KeptFirstAll(head, latest);
    FlatSnoc(closed, active, 0);
    FlatSnoc(KeptFirst(closed, n, latest), active, 0);
    Assoc(Flat(head, 0), Flat(mid, 0), active.records);
    Assoc(Survivors(Flat(head, 0), Head, latest), Flat(mid, 0), active.records);
    ClosedOrdered(s, closed, active);
    FrontAscends(Flat(head, 0), Flat(mid, 0));
    SurvivorsStay(Flat(closed, 0), latest, Flat(head, 0));
  }

  lemma FrontAscends(a: seq<DiskMessage>, b: seq<DiskMessage>)
    requires Ascending(a + b)
    ensures Ascending(a) && forall m | m in a :: m in a + b
  {
    assert forall i | 0 <= i < |a| :: (a + b)[i] == a[i];
  }

  lemma WholeRewritten(closed: seq<Part>, active: Part, kept: seq<DiskMessage>)
    requires StayExactly(Flat(closed, 0), Flat(closed, 0), kept)
    ensures Rewrites(Retained(closed, active), kept + active.records, Flat(closed, 0), [], active.records, kept)
  {
    hide Flat, StayExactly;
    FlatSnoc(closed, active, 0);
    assert [] + active.records == active.records && Flat(closed, 0) + [] == Flat(closed, 0);
  }

  lemma LatestOfClosed(s: Store, closed: seq<Part>, active: Part)
    requires Holds(s, closed, active)
    ensures IsLatest(Flat(closed, 0), Head, LatestOf(Flat(closed, 0), Head))
  {
    hide Holds, Flat, IsLatest;
    ClosedOrdered(s, closed, active);
    LatestIsLatest(Flat(closed, 0), Head);
  }

  lemma CoversSome(log: DiskLog)
    requires log.Valid()
    ensures log.segments != []
  {
    SegmentsIncrease(log.Now(), log.closed, log.active);
  }

  /** Writing and rolling. */
  method ServeWrite(log: DiskLog, op: Op) returns (r: Answer)
    requires log.Valid() && log.IndexFits() && Fits(log, op) && (op.Write? || op.WriteOne? || op.Roll?)
    modifies log
    ensures log.Valid() && log.IndexFits() && Does(op, old(PlainOf(log)), PlainOf(log), r)
  {
    hide Holds, Storable, AllStorable, Log, Frame, Retained, DropsFrom;
    CoversSome(log);
    match op
    case Write(batch) =>
      if !Contiguous(batch, log.end) { return Refused; }
      var done := log.WriteBatch(batch);
      if batch == [] { assert log.Records() + batch == log.Records(); }
      return if done.Ok? then Done else Refused;
    case WriteOne(m) =>
      if m.offset != log.end { return Refused; }
      var done := log.WriteDirect(m);
      return if done.Ok? then Done else Refused;
    case Roll =>
      log.RotateSegment(log.end);
      return Done;
  }

  /** A compaction pass. */
  method ServeCompact(log: DiskLog, op: Op, ghost known: iset<DiskMessage>) returns (r: Answer)
    requires log.Valid() && log.IndexFits() && op.Compact? && Harmless(op, log.Records(), known)
    modifies log
    ensures log.Valid() && log.IndexFits() && Does(op, old(PlainOf(log)), PlainOf(log), r)
  {
    hide Holds, Flat, LatestOf, Survivors, Rewrites, IndexServes, Kept, Unambiguous, KeptFirst, WorthCompacting;
    hide StayExactly, PartsStay, IsLatest;
    CoversSome(log);
    ghost var s, closed, active, latest := log.Now(), log.closed, log.active, LatestOf(log.ClosedRecords(), Head);
    LatestOfClosed(s, closed, active);
    forall i | 0 <= i < |closed| && op.outcome(i).IndexLost?
      ensures IndexServes(log.Now(), closed[i].base, None, Kept(closed[i].records, latest))
    {
      SurvivorsServe(log, known, latest, i);
    }
    var pass := log.EnforceCompaction(op.enabled, op.readers, op.ratio, op.outcome);
    if pass.Ok? && pass.value.Skipped? { return Refused; }
    if pass == Ok(Completed) {
      WholeRewritten(closed, active, log.ClosedRecords());
      return Done;
    }
    ghost var n :| 0 <= n <= |closed| && log.closed == KeptFirst(closed, n, latest);
    FewerRewritten(s, closed, active, n, latest);
    return Half;
  }

  /** Everything else. */
  method ServeRest(log: DiskLog, op: Op) returns (r: Answer)
    requires log.Valid() && log.IndexFits() && (op.Truncate? || op.Install? || op.Crash? || op.Read?)
    modifies log
    ensures log.Valid() && log.IndexFits() && Does(op, old(PlainOf(log)), PlainOf(log), r)
  {
    hide Holds, Storable, AllStorable, Log, Frame, Retained, DropsFrom, Select, Ascending, Within, CutTail;
    CoversSome(log);
    match op
    case Truncate(n, readers) =>
      var done := log.TruncateTo(n, readers);
      return if done.Ok? then Done else Refused;
    case Install(start, next, range, readers) =>
      var done := log.WriteCompactedReplicaRange(start, next, range, readers);
      return if done.Ok? then Done else Refused;
    case Crash(cut, indexed, strict) =>
      var bytes := if cut <= log.size then cut else log.size;
      var entries := if indexed <= |log.ActiveIndex()| then indexed else |log.ActiveIndex()|;
      var done := log.Reopen(bytes, entries, strict);
      return if done.Ok? then Done else Refused;
    case Read(from, max) =>
      var read := log.ReadMessages(from, max);
      return if read.Ok? then Got(read.value) else Refused;
  }

  method Serve(log: DiskLog, op: Op, ghost known: iset<DiskMessage>) returns (r: Answer)
    requires log.Valid() && log.IndexFits() && Fits(log, op) && Harmless(op, log.Records(), known)
    modifies log
    ensures log.Valid() && log.IndexFits() && Does(op, old(PlainOf(log)), PlainOf(log), r)
  {
    hide Holds, Does, Unambiguous;
    if op.Write? || op.WriteOne? || op.Roll? {
      r := ServeWrite(log, op);
    } else if op.Compact? {
      r := ServeCompact(log, op, known);
    } else {
      r := ServeRest(log, op);
    }
  }

  // ---------------------------------------------------------------------------------------------
  // Every run

  /** A run of the plain machine with the given answers. */
  ghost predicate PlainRun(ops: seq<Op>, trace: seq<Plain>, answers: seq<Answer>) {
    && |trace| == |ops| + 1 && |answers| == |ops|
    && forall i | 0 <= i < |ops| :: Does(ops[i], trace[i], trace[i + 1], answers[i])
  }

  lemma PlainRunNext(ops: seq<Op>, i: nat, trace: seq<Plain>, answers: seq<Answer>, b: Plain, r: Answer)
    requires i < |ops| && PlainRun(ops[..i], trace, answers) && Does(ops[i], trace[i], b, r)
    ensures PlainRun(ops[..i + 1], trace + [b], answers + [r])
  {
    hide Does;
    assert ops[..i + 1] == ops[..i] + [ops[i]];
  }

  /**
   * Any run of operations whose batches each fit a segment's index. The log goes through the states of a plain
   * sequence of records, every operation does there what it says, and every read of a covered offset succeeds with
   * the first records at or after it.
   */
  method Run(log: DiskLog, ops: seq<Op>, ghost known: iset<DiskMessage>)
    returns (answers: seq<Answer>, ghost trace: seq<Plain>)
    requires log.Valid() && log.IndexFits()
    requires forall op | op in ops :: Fits(log, op)
    requires (forall op | op in ops :: !MayLoseIndex(op))
             || (&& Unambiguous(known) && AllIn(log.Records(), known)
                 && forall op | op in ops :: AllIn(MessagesOf(op), known))
    modifies log
    ensures log.Valid() && log.IndexFits()
    ensures PlainRun(ops, trace, answers) && trace[0] == old(PlainOf(log)) && trace[|ops|] == PlainOf(log)
  {
    hide Holds, Does, Unambiguous, Log, MayLoseIndex;
    ghost var tame := forall op | op in ops :: !MayLoseIndex(op);
    answers, trace := [], [PlainOf(log)];
    for i := 0 to |ops|
      invariant log.Valid() && log.IndexFits() && PlainRun(ops[..i], trace, answers)
      invariant trace[0] == old(PlainOf(log)) && trace[i] == PlainOf(log)
      invariant tame || AllIn(log.Records(), known)
    {
      assert ops[i] in ops;
      ghost var before := PlainOf(log);
      var r := Serve(log, ops[i], known);
      if !tame { DoesStaysKnown(ops[i], before, PlainOf(log), r, known); }
      PlainRunNext(ops, i, trace, answers, PlainOf(log), r);
      answers, trace := answers + [r], trace + [PlainOf(log)];
    }
    assert ops[..|ops|] == ops;
  }

  // ---------------------------------------------------------------------------------------------
  // Where the promises end

  /** A message with nothing in it. */
  function Blank(offset: u64): DiskMessage {
    DiskMessage([], 0, offset, [], 0, 0, [], [], [], 0, 0, [], [], [], [], [], 0, 0, [], [])
  }

  method BlankIsStorable(offset: u64) returns (m: DiskMessage)
    ensures m == Blank(offset) && Storable(m)
  {
    m := Blank(offset);
    var bytes := SerializeDiskMessage(m);
  }

  method Blanks(n: nat) returns (batch: seq<DiskMessage>)
    requires n < 0x1_0000_0000_0000_0000
    ensures |batch| == n && Contiguous(batch, 0) && AllStorable(batch)
  {
    hide Storable;
    batch := [];
    for i := 0 to n
      invariant |batch| == i && Contiguous(batch, 0) && AllStorable(batch)
    {
      var m := BlankIsStorable(i);
      batch := batch + [m];
    }
  }

  lemma StartsLater(ms: seq<DiskMessage>, k: nat)
    requires 0 < k <= |ms| && AllStorable(ms)
    ensures |Log(ms[..k - 1])| < |Log(ms[..k])|
  {
    hide Log, Storable, Frame;
    assert ms[k - 1] in ms && ms[..k] == ms[..k - 1] + [ms[k - 1]];
    LogSnoc(ms[..k - 1], ms[k - 1]);
    FrameSize(ms[k - 1]);
  }

  lemma EntryAt(index: seq<IndexEntry>, ms: seq<DiskMessage>, k: nat) returns (i: nat)
    requires 0 < k < |ms| && Spread(index, ms, 1) && |Log(ms[..k])| > 0
    ensures i < |index| && index[i].position == |Log(ms[..k])|
  {
    hide Log;
    var p := |Log(ms[..k])|;
    assert Near(index, p, 1);
    i :| 0 <= i < |index| && index[i].position <= p < index[i].position + 1;
  }

  lemma EntriesRise(index: seq<IndexEntry>, i: nat, j: nat)
    requires Increasing(index) && i < |index| && j < |index| && index[i].position < index[j].position
    ensures i < j
  {
  }

  /** With an interval of one byte every record but the first has an entry of its own. */
  lemma {:induction false} EntryOf(index: seq<IndexEntry>, ms: seq<DiskMessage>, k: nat) returns (i: nat)
    requires 0 < k < |ms| && Spread(index, ms, 1) && Increasing(index) && AllStorable(ms)
    ensures k - 1 <= i < |index| && index[i].position == |Log(ms[..k])| > 0
    decreases k
  {
    hide Log, Storable, Spread, Increasing;
    StartsLater(ms, k);
    i := EntryAt(index, ms, k);
    if k > 1 {
      var j := EntryOf(index, ms, k - 1);
      EntriesRise(index, j, i);
    }
  }

  lemma ActiveIsIncreasing(log: DiskLog)
    requires log.Valid()
    ensures Increasing(log.ActiveIndex())
  {
    SegmentsIncrease(log.Now(), log.closed, log.active);
    SegmentBasics(log.Now(), log.closed, log.active, |log.closed|, log.active);
    assert log.ActiveIndex()[..|log.ActiveIndex()|] == log.ActiveIndex();
  }

  lemma OnlyActive(log: DiskLog)
    requires log.closed == []
    ensures log.Records() == log.active.records
  {
    FlatSnoc([], log.active, 0);
    assert [] + [log.active] == [log.active] && [] + log.active.records == log.active.records;
  }

  /** However large the index files are: one batch with more records than entries fit, and a read at the end fails. */
  method OutgrownIndex(indexSize: nat) returns (log: DiskLog, r: Result<seq<DiskMessage>>)
    requires indexSize < 0x8000_0000_0000_0000
    ensures fresh(log) && log.Valid() && log.indexSize == indexSize
    ensures |log.Records()| == log.end == indexSize / ENTRY_SIZE + 2
    ensures !log.IndexFits() && r.Err?
  {
    hide Holds, Spread, Log, Storable, Retained;
    var n := indexSize / ENTRY_SIZE + 2;
    log := new DiskLog(0, indexSize, 1);
    var batch := Blanks(n);
    var done := log.WriteBatch(batch);
    assert [] + batch == batch;
    OnlyActive(log);
    ActiveIsIncreasing(log);
    ghost var i := EntryOf(log.ActiveIndex(), log.active.records, n - 1);
    r := log.ReadMessages(log.end, 1);
  }

  lemma ActiveIsLast(log: DiskLog, before: seq<DiskMessage>, m: DiskMessage)
    requires log.Records() == before + [m] && before == Flat(log.closed, 0)
    ensures log.active.records == [m]
  {
    FlatSnoc(log.closed, log.active, 0);
    var all := log.Records();
    assert all[|before|..] == [m] && all[|before|..] == log.active.records;
  }

  /** A record that goes to a segment of its own. */
  method WriteAlone(log: DiskLog, m: DiskMessage)
    requires log.Valid() && log.segmentSize == 1 && Storable(m) && m.offset == log.end
    modifies log
    ensures log.Valid() && log.Records() == old(log.Records()) + [m] && log.end == old(log.end) + 1 && log.size > 0
    ensures log.closed == if old(log.size) == 0 then old(log.closed) else old(log.closed) + [old(log.active)]
    ensures log.active.records == [m]
  {
    hide Holds, Storable, Frame, Flat, LogFrom;
    ghost var before, closed, active := log.Records(), log.closed, log.active;
    HoldsBasics(log.Now(), closed, active);
    FrameSize(m);
    FlatSnoc(closed, active, 0);
    assert active.records == [] ==> before == Flat(closed, 0);
    var done := log.WriteDirect(m);
    ActiveIsLast(log, before, m);
    HoldsBasics(log.Now(), log.closed, log.active);
  }

  lemma TwoParts(p: Part, q: Part)
    ensures Flat([p, q], 0) == p.records + q.records
  {
    assert Flat([p, q], 2) == [] && Flat([p, q], 1) == q.records + [];
  }

  /**
   * Three records in three segments. A truncation to the first that crashes after one removal leaves the first and
   * the third: not a prefix of what was there.
   */
  method LostMiddle() returns (log: DiskLog)
    ensures fresh(log) && log.Valid() && |log.closed| == 2 && log.Records() == [Blank(0), Blank(1), Blank(2)]
    ensures Flat([log.closed[0], log.active], 0) == [Blank(0), Blank(2)]
    ensures !(Flat([log.closed[0], log.active], 0) <= log.Records())
  {
    hide Holds, Storable, Frame, Flat, Retained;
    log := new DiskLog(1, 1024, 4096);
    var m0 := BlankIsStorable(0);
    var m1 := BlankIsStorable(1);
    var m2 := BlankIsStorable(2);
    WriteAlone(log, m0);
    WriteAlone(log, m1);
    WriteAlone(log, m2);
    TwoParts(log.closed[0], log.active);
    assert log.Records()[1] == m1 && m1.offset != m2.offset;
  }
}
