/**
 * Replica catch-up: the leader's bounded read of its committed log, fitting the answer into a frame, and applying it
 * on the replica (isr_catchup.go, pkg/cluster/server.go, pkg/controller/replica_catchup.go).
 */
module Catchup {
  import opened Common
  import opened RecordCodec
  import opened Frames
  import opened Recovery
  import opened LogReader
  import opened SegmentStore
  import opened DiskLog

  /** `MaxReplicaCatchupRecords`. */
  const MAX_RECORDS := 1024

  /** The range `[start, end)` of the committed log; `end` may be zero on the wire. */
  datatype Batch = Batch(start: nat, end: nat, committedHWM: nat, compacted: bool, messages: seq<DiskMessage>)

  // ---------------------------------------------------------------------------------------------
  // The retained records of an offset range

  function Between(ms: seq<DiskMessage>, low: nat, high: nat): seq<DiskMessage> {
    if ms == [] then []
    else if low <= ms[0].offset < high then [ms[0]] + Between(ms[1..], low, high)
    else Between(ms[1..], low, high)
  }

  lemma {:induction false} BetweenNone(ms: seq<DiskMessage>, low: nat, high: nat)
    requires AllBelow(ms, low) || AllFrom(ms, high)
    ensures Between(ms, low, high) == []
  {
    if ms != [] {
      assert ms[0] in ms;
      BetweenNone(ms[1..], low, high);
    }
  }

  lemma AscendingTail(ms: seq<DiskMessage>)
    requires Ascending(ms) && ms != []
    ensures Ascending(ms[1..]) && AllFrom(ms[1..], ms[0].offset + 1)
  {
    forall m | m in ms[1..] ensures m.offset >= ms[0].offset + 1 {
      var i :| 0 <= i < |ms[1..]| && ms[1..][i] == m;
      assert ms[i + 1] == m;
    }
  }

  /** Adjacent ranges join. */
  lemma {:induction false} BetweenJoin(ms: seq<DiskMessage>, a: nat, b: nat, c: nat)
    requires Ascending(ms) && a <= b <= c
    ensures Between(ms, a, c) == Between(ms, a, b) + Between(ms, b, c)
  {
    if ms != [] {
      AscendingTail(ms);
      if ms[0].offset < b {
        BetweenJoin(ms[1..], a, b, c);
      } else {
        BetweenNone(ms[1..], a, b);
        BetweenJoin(ms[1..], a, b, c);
      }
    }
  }

  lemma {:induction false} BetweenPart(ms: seq<DiskMessage>, low: nat, high: nat)
    ensures Within(Between(ms, low, high), low, high) && forall m | m in Between(ms, low, high) :: m in ms
  {
    if ms != [] { BetweenPart(ms[1..], low, high); }
  }

  lemma {:induction false} BetweenAscends(ms: seq<DiskMessage>, low: nat, high: nat)
    requires Ascending(ms)
    ensures Ascending(Between(ms, low, high))
  {
    if ms != [] {
      AscendingTail(ms);
      BetweenAscends(ms[1..], low, high);
      BetweenPart(ms[1..], low, high);
      assert AllFrom(Between(ms[1..], low, high), ms[0].offset + 1);
    }
  }

  /** The records below `e` of a bounded read. */
  function Until(ms: seq<DiskMessage>, e: nat): seq<DiskMessage> {
    if ms == [] || ms[0].offset >= e then [] else [ms[0]] + Until(ms[1..], e)
  }

  /** `r` is a whole range of the records: it ends at the watermark, or after its last record when it is full. */
  ghost predicate IsRange(ms: seq<DiskMessage>, from: nat, max: nat, hwm: nat, r: seq<DiskMessage>) {
    && |r| <= max && (|r| < max ==> r == Between(ms, from, hwm))
    && (|r| == max && max > 0 ==> r[max - 1].offset < hwm && r == Between(ms, from, r[max - 1].offset + 1))
  }

  lemma RangeOfOne(m: DiskMessage, rest: seq<DiskMessage>, from: nat, hwm: nat)
    requires from <= m.offset < hwm && AllFrom(rest, m.offset + 1)
    ensures IsRange([m] + rest, from, 1, hwm, [m])
  {
    assert ([m] + rest)[1..] == rest;
    BetweenNone(rest, from, m.offset + 1);
  }

  lemma RangeGrows(m: DiskMessage, rest: seq<DiskMessage>, from: nat, max: nat, hwm: nat, later: seq<DiskMessage>)
    requires from <= m.offset < hwm && max > 1 && IsRange(rest, from, max - 1, hwm, later)
    requires AllFrom(later, m.offset + 1)
    ensures IsRange([m] + rest, from, max, hwm, [m] + later)
  {
    assert ([m] + rest)[1..] == rest;
    if |later| == max - 1 {
      assert ([m] + later)[max - 1] == later[max - 2] && later[max - 2] in later;
    }
  }

  lemma RangeSkips(m: DiskMessage, rest: seq<DiskMessage>, from: nat, max: nat, hwm: nat, r: seq<DiskMessage>)
    requires m.offset < from && IsRange(rest, from, max, hwm, r)
    ensures IsRange([m] + rest, from, max, hwm, r)
  {
    assert ([m] + rest)[1..] == rest;
  }

  lemma RangeStops(m: DiskMessage, rest: seq<DiskMessage>, from: nat, max: nat, hwm: nat)
    requires m.offset >= hwm && max > 0 && AllFrom(rest, m.offset + 1)
    ensures IsRange([m] + rest, from, max, hwm, [])
  {
    assert ([m] + rest)[1..] == rest;
    BetweenNone(rest, from, hwm);
  }

  function BoundedReadOf(ms: seq<DiskMessage>, from: nat, max: nat, hwm: nat): seq<DiskMessage> {
    Until(Select(ms, from, max), hwm)
  }

  lemma ReadUnfolds(m: DiskMessage, rest: seq<DiskMessage>, from: nat, max: nat, hwm: nat)
    requires max > 0
    ensures m.offset < from ==> BoundedReadOf([m] + rest, from, max, hwm) == BoundedReadOf(rest, from, max, hwm)
    ensures from <= m.offset && m.offset >= hwm ==> BoundedReadOf([m] + rest, from, max, hwm) == []
    ensures from <= m.offset < hwm ==>
              BoundedReadOf([m] + rest, from, max, hwm) == [m] + BoundedReadOf(rest, from, max - 1, hwm)
    ensures BoundedReadOf(rest, from, 0, hwm) == []
  {
    assert ([m] + rest)[1..] == rest;
    var later := Select(rest, from, max - 1);
    if from <= m.offset { assert ([m] + later)[1..] == later; }
  }

  /** A bounded read, cut at a watermark, is a whole range. */
  lemma {:induction false} BoundedRead(ms: seq<DiskMessage>, from: nat, max: nat, hwm: nat)
    requires Ascending(ms) && max > 0
    ensures IsRange(ms, from, max, hwm, BoundedReadOf(ms, from, max, hwm))
  {
    if ms == [] {
    } else {
      hide IsRange, Ascending, AllFrom, Between, BoundedReadOf;
      var m, rest := ms[0], ms[1..];
      assert ms == [m] + rest;
      AscendingTail(ms);
      ReadUnfolds(m, rest, from, max, hwm);
      if m.offset < from {
        BoundedRead(rest, from, max, hwm);
        RangeSkips(m, rest, from, max, hwm, BoundedReadOf(rest, from, max, hwm));
      } else if m.offset >= hwm {
        RangeStops(m, rest, from, max, hwm);
      } else if max == 1 {
        assert [m] + [] == [m];
        RangeOfOne(m, rest, from, hwm);
      } else {
        BoundedRead(rest, from, max - 1, hwm);
        LaterOnes(rest, from, max - 1, hwm, m.offset + 1);
        RangeGrows(m, rest, from, max, hwm, BoundedReadOf(rest, from, max - 1, hwm));
      }
    }
  }

  lemma {:induction false} UntilPart(ms: seq<DiskMessage>, e: nat)
    ensures |Until(ms, e)| <= |ms| && forall m | m in Until(ms, e) :: m in ms && m.offset < e
  {
    if ms != [] { UntilPart(ms[1..], e); }
  }

  lemma LaterOnes(ms: seq<DiskMessage>, from: nat, max: nat, hwm: nat, low: nat)
    requires AllFrom(ms, low)
    ensures AllFrom(BoundedReadOf(ms, from, max, hwm), low)
  {
    UntilPart(Select(ms, from, max), hwm);
  }

  // ---------------------------------------------------------------------------------------------
  // Ranges without a gap

  ghost predicate Has(ms: seq<DiskMessage>, o: nat) {
    exists i | 0 <= i < |ms| :: ms[i].offset == o
  }

  /** Every offset of the range has a record, as in a topic that is not compacted. */
  ghost predicate AllPresent(ms: seq<DiskMessage>, low: nat, high: nat) {
    forall o: nat | low <= o < high :: Has(ms, o)
  }

  lemma {:induction false} BetweenOne(ms: seq<DiskMessage>, o: nat) returns (m: DiskMessage)
    requires Ascending(ms) && Has(ms, o)
    ensures Between(ms, o, o + 1) == [m] && m.offset == o
  {
    var i :| 0 <= i < |ms| && ms[i].offset == o;
    AscendingTail(ms);
    if i == 0 {
      m := ms[0];
      BetweenNone(ms[1..], o, o + 1);
    } else {
      assert ms[1..][i - 1].offset == o;
      m := BetweenOne(ms[1..], o);
    }
  }

  lemma {:induction false} PresentIsContiguous(ms: seq<DiskMessage>, low: nat, high: nat)
    requires Ascending(ms) && AllPresent(ms, low, high) && low <= high
    ensures Contiguous(Between(ms, low, high), low) && |Between(ms, low, high)| == high - low
    decreases high - low
  {
    if low == high {
      BetweenEmpty(ms, low);
    } else {
      PresentIsContiguous(ms, low, high - 1);
      BetweenJoin(ms, low, high - 1, high);
      assert Has(ms, high - 1);
      var m := BetweenOne(ms, high - 1);
    }
  }

  lemma {:induction false} BetweenEmpty(ms: seq<DiskMessage>, low: nat)
    ensures Between(ms, low, low) == []
  {
    if ms != [] { BetweenEmpty(ms[1..], low); }
  }

  /** A whole range of such a log has no gap and is never empty. */
  lemma PresentRange(ms: seq<DiskMessage>, from: nat, max: nat, hwm: nat, r: seq<DiskMessage>)
    requires Ascending(ms) && IsRange(ms, from, max, hwm, r) && AllPresent(ms, from, hwm) && from < hwm && max > 0
    ensures r != [] && Contiguous(r, from) && (|r| < max ==> from + |r| == hwm)
  {
    if |r| < max {
      PresentIsContiguous(ms, from, hwm);
    } else {
      BetweenPart(ms, from, r[max - 1].offset + 1);
      assert r[max - 1] in r;
      PresentIsContiguous(ms, from, r[max - 1].offset + 1);
    }
  }

  // ---------------------------------------------------------------------------------------------
  // The leader's answer

  /** The batch is exactly the leader's retained records of its range, below the committed watermark. */
  ghost predicate Faithful(b: Batch, leader: seq<DiskMessage>) {
    && b.start < b.end <= b.committedHWM && b.messages == Between(leader, b.start, b.end) && |b.messages| <= MAX_RECORDS
    && (!b.compacted ==> Contiguous(b.messages, b.start) && b.end == b.start + |b.messages|)
  }

  lemma {:induction false} UntilSnoc(ms: seq<DiskMessage>, k: nat, e: nat)
    requires k <= |ms| && forall i | 0 <= i < k :: ms[i].offset < e
    ensures k < |ms| && ms[k].offset >= e ==> Until(ms, e) == ms[..k]
    ensures k == |ms| ==> Until(ms, e) == ms
  {
    if k > 0 {
      UntilSnoc(ms[1..], k - 1, e);
      assert ms[..k] == [ms[0]] + ms[1..][..k - 1];
    }
  }

  /** The leader's log covers the offset and its active index is readable. */
  ghost predicate Serves(leader: DiskLog, next: nat)
    reads leader
  {
    leader.IndexFits() && leader.segments != [] && leader.segments[0] <= next <= leader.end
  }

  /** Every raw record at or after `next` below the watermark, at most `max` of them. */
  method ReadCommittedLogRange(leader: DiskLog, localHWM: nat, next: nat, hwm: nat,
                               max: nat) returns (r: Result<seq<DiskMessage>>)
    requires leader.Valid()
    ensures r.Ok? && max > 0 && next < hwm ==>
              r.value == BoundedReadOf(leader.Records(), next, max, hwm) && hwm <= localHWM
    ensures max == 0 || next >= hwm ==> r == Ok([])
    ensures Serves(leader, next) && hwm <= localHWM ==> r.Ok?
  {
    hide Holds, Select, Until, Flat;
    if max == 0 || next >= hwm { return Ok([]); }
    if localHWM < hwm { return Err("local committed HWM is behind catch-up boundary"); }
    var read := leader.ReadMessages(next, max);
    if read.Err? { return read; }
    var k := 0;
    while k < |read.value| && read.value[k].offset < hwm
      invariant k <= |read.value| && forall i | 0 <= i < k :: read.value[i].offset < hwm
    {
      k := k + 1;
    }
    UntilSnoc(read.value, k, hwm);
    assert k == |read.value| ==> read.value[..k] == read.value;
    return Ok(read.value[..k]);
  }

  lemma {:induction false} FlatStorable(s: Store, parts: seq<Part>, i: nat)
    requires AllReadOk(s, parts)
    ensures AllStorable(Flat(parts, i))
    decreases |parts| - i
  {
    hide Storable;
    if i < |parts| {
      FlatStorable(s, parts, i + 1);
      assert ReadOk(s, parts[i]);
    }
  }

  lemma RecordsStorable(s: Store, closed: seq<Part>, active: Part)
    requires Holds(s, closed, active)
    ensures AllStorable(Retained(closed, active))
  {
    HoldsIsReadable(s, closed, active);
    FlatStorable(s, closed + [active], 0);
  }

  /** Whether offsets are missing, and the offset after the last record. */
  method ScanGaps(messages: seq<DiskMessage>, next: nat) returns (gaps: bool, expected: nat)
    ensures !gaps <==> Contiguous(messages, next)
    ensures expected == if messages == [] then next else messages[|messages| - 1].offset + 1
  {
    gaps, expected := false, next;
    for i := 0 to |messages|
      invariant !gaps <==> Contiguous(messages[..i], next)
      invariant expected == if i == 0 then next else messages[i - 1].offset + 1
    {
      assert messages[..i + 1] == messages[..i] + [messages[i]];
      if i > 0 { assert messages[..i][i - 1] == messages[i - 1]; }
      if messages[i].offset != expected { gaps := true; }
      expected := messages[i].offset + 1;
      assert messages[..i + 1][i] == messages[i];
      assert Contiguous(messages[..i + 1], next) ==> Contiguous(messages[..i], next) by {
        if Contiguous(messages[..i + 1], next) {
          forall j | 0 <= j < i
            ensures messages[..i][j].offset == next + j
          {
            assert messages[..i + 1][j] == messages[..i][j];
          }
        }
      }
    }
    assert messages[..|messages|] == messages;
  }

  /**
   * The range the leader answers with never skips a retained record: it ends at the watermark or after its last
   * record.
   */
  method FetchReplicaCatchup(leader: DiskLog, localHWM: nat, hwm: nat, next: nat, max: nat,
                             compactionEnabled: bool) returns (r: Result<Batch>)
    requires leader.Valid()
    ensures r.Ok? ==> 0 < max <= MAX_RECORDS && next <= hwm && r.value.start == next && r.value.committedHWM == hwm
    ensures r.Ok? && next < hwm ==> Faithful(r.value, leader.Records()) && (r.value.compacted ==> compactionEnabled)
    ensures r.Ok? ==>
              (!r.value.compacted <==> Contiguous(r.value.messages, next) && r.value.end == next + |r.value.messages|)
    ensures 0 < max <= MAX_RECORDS && next <= hwm <= localHWM && Serves(leader, next) ==>
              (compactionEnabled || AllPresent(leader.Records(), next, hwm) ==> r.Ok?)
    ensures r.Ok? && next < hwm ==> hwm <= localHWM
  {
    hide Holds, Between, BoundedReadOf;
    if max == 0 || max > MAX_RECORDS { return Err("invalid replica catch-up limit"); }
    if next > hwm { return Err("catch-up offset exceeds committed HWM"); }
    var read := ReadCommittedLogRange(leader, localHWM, next, hwm, max);
    if read.Err? { return Err(read.reason); }
    var messages := read.value;
    if next < hwm {
      RecordsAscend(leader.Now(), leader.closed, leader.active);
      BoundedRead(leader.Records(), next, max, hwm);
      if AllPresent(leader.Records(), next, hwm) { PresentRange(leader.Records(), next, max, hwm, messages); }
    }
    if messages == [] {
      if next < hwm && !compactionEnabled { return Err("committed catch-up range is unavailable"); }
      return Ok(if next < hwm then Batch(next, hwm, hwm, true, messages) else Batch(next, next, hwm, false, messages));
    }
    var compacted, end := ScanGaps(messages, next);
    if |messages| < max && end < hwm { compacted, end := true, hwm; }
    if compacted && !compactionEnabled { return Err("non-contiguous committed range for uncompacted topic"); }
    if next < hwm { FetchIsFaithful(leader.Records(), next, max, hwm, messages, compacted, end); }
    return Ok(Batch(next, end, hwm, compacted, messages));
  }

  lemma FetchIsFaithful(ms: seq<DiskMessage>, next: nat, max: nat, hwm: nat, r: seq<DiskMessage>, compacted: bool,
                        end: nat)
    requires Ascending(ms) && 0 < max <= MAX_RECORDS && next < hwm && IsRange(ms, next, max, hwm, r) && r != []
    requires end == if |r| < max && r[|r| - 1].offset + 1 < hwm then hwm else r[|r| - 1].offset + 1
    requires !compacted ==> Contiguous(r, next) && end == r[|r| - 1].offset + 1
    ensures Faithful(Batch(next, end, hwm, compacted, r), ms)
  {
    var last := r[|r| - 1];
    assert last in r;
    BetweenPart(ms, next, if |r| < max then hwm else last.offset + 1);
  }

  // ---------------------------------------------------------------------------------------------
  // Fitting into a frame

  lemma {:induction false} BetweenFirst(ms: seq<DiskMessage>, low: nat, high: nat, k: nat)
    requires Ascending(ms) && k < |Between(ms, low, high)|
    ensures Between(ms, low, Between(ms, low, high)[k].offset) == Between(ms, low, high)[..k]
  {
    var all := Between(ms, low, high);
    var cut := all[k].offset;
    assert all[k] in all;
    BetweenPart(ms, low, high);
    BetweenAscends(ms, low, high);
    BetweenJoin(ms, low, cut, high);
    BetweenPart(ms, low, cut);
    BetweenPart(ms, cut, high);
    SplitPoint(Between(ms, low, cut), Between(ms, cut, high), all, k, cut);
  }

  lemma SplitPoint(a: seq<DiskMessage>, b: seq<DiskMessage>, all: seq<DiskMessage>, k: nat, cut: nat)
    requires all == a + b && Ascending(all) && k < |all| && all[k].offset == cut && AllBelow(a, cut) && AllFrom(b, cut)
    ensures a == all[..k]
  {
    assert forall i | 0 <= i < |a| :: all[i] == a[i] && a[i] in a;
    assert forall i | |a| <= i < |all| :: all[i] == b[i - |a|] && b[i - |a|] in b;
    assert |a| <= k;
    assert all[|a|].offset >= cut;
  }

  lemma HalfIsFaithful(b: Batch, leader: seq<DiskMessage>, k: nat)
    requires Ascending(leader) && Faithful(b, leader) && 0 < k < |b.messages|
    ensures Faithful(b.(end := b.messages[k].offset, messages := b.messages[..k]), leader)
  {
    BetweenFirst(leader, b.start, b.end, k);
    BetweenPart(leader, b.start, b.end);
    BetweenAscends(leader, b.start, b.end);
    assert b.messages[k] in b.messages && b.messages[0] in b.messages;
  }

  /** A first part of the batch that does not fit. */
  ghost predicate TooLarge(b: Batch, batch: Batch, size: Batch -> nat, limit: nat) {
    b.start == batch.start && b.messages <= batch.messages && size(b) > limit
  }

  /** Halves the batch until it fits. The first record left out bounds the range, so it is not skipped. */
  method FitReplicaCatchupBatchToLimit(batch: Batch, limit: nat, size: Batch -> nat,
                                       ghost leader: seq<DiskMessage>) returns (r: Result<Batch>)
    ensures r.Ok? ==> size(r.value) <= limit && r.value.start == batch.start && r.value.messages <= batch.messages
    ensures r.Ok? && r.value.messages == batch.messages ==> r.value == batch
    ensures r.Ok? && Ascending(leader) && Faithful(batch, leader) ==> Faithful(r.value, leader)
    ensures size(batch) <= limit ==> r == Ok(batch)
    ensures r.Err? ==> exists b :: TooLarge(b, batch, size, limit) && |b.messages| <= 1
    ensures r.Ok? && r.value != batch ==>
              exists b :: TooLarge(b, batch, size, limit) && |b.messages| / 2 == |r.value.messages|
    ensures r.Ok? ==> r.value.compacted == batch.compacted && r.value.committedHWM == batch.committedHWM
  {
    hide Faithful, Ascending;
    var b := batch;
    while size(b) > limit
      invariant b.start == batch.start && b.compacted == batch.compacted && b.committedHWM == batch.committedHWM
      invariant b.messages <= batch.messages && (b == batch || (|b.messages| < |batch.messages| && size(batch) > limit))
      invariant Ascending(leader) && Faithful(batch, leader) ==> Faithful(b, leader)
      invariant b == batch || exists c :: TooLarge(c, batch, size, limit) && |c.messages| / 2 == |b.messages|
      decreases |b.messages|
    {
      assert TooLarge(b, batch, size, limit);
      if |b.messages| <= 1 { return Err("replica catch-up record exceeds frame limit"); }
      var k := |b.messages| / 2;
      if Ascending(leader) && Faithful(b, leader) { HalfIsFaithful(b, leader, k); }
      b := b.(end := b.messages[k].offset, messages := b.messages[..k]);
    }
    return Ok(b);
  }

  // ---------------------------------------------------------------------------------------------
  // The replica

  /** The end a batch stands for; older leaders leave it zero. */
  function EndOf(b: Batch): (end: nat)
    ensures b.end > 0 || b.messages == [] ==> end == b.end
    ensures b.end == 0 && b.messages != [] && Contiguous(b.messages, b.start) ==> end == b.start + |b.messages|
    ensures b.end == 0 && b.messages != [] && Ascending(b.messages) ==>
              (forall m | m in b.messages :: m.offset < end) && exists m | m in b.messages :: m.offset + 1 == end
  {
    if b.end == 0 && b.messages != [] then b.messages[|b.messages| - 1].offset + 1 else b.end
  }

  /** The order a batch's records must have. */
  ghost predicate Orderly(b: Batch) {
    && (forall m | m in b.messages :: m.offset < EndOf(b))
    && if b.compacted then Ascending(b.messages) && AllFrom(b.messages, b.start) else Contiguous(b.messages, b.start)
  }

  /** The offset check loop. */
  method CheckOffsets(b: Batch, admits: DiskMessage -> bool) returns (ok: bool)
    ensures ok <==> Orderly(b) && forall m | m in b.messages :: admits(m)
  {
    var next := b.start;
    for i := 0 to |b.messages|
      invariant forall j | 0 <= j < i :: b.messages[j].offset < EndOf(b) && admits(b.messages[j])
      invariant if b.compacted then forall j | 0 <= j < i :: b.start <= b.messages[j].offset < next
                else next == b.start + i
      invariant if b.compacted then (forall j, k | 0 <= j < k < i :: b.messages[j].offset < b.messages[k].offset)
                else forall j | 0 <= j < i :: b.messages[j].offset == b.start + j
      invariant b.compacted ==> next == if i == 0 then b.start else b.messages[i - 1].offset + 1
    {
      var m := b.messages[i];
      assert m in b.messages;
      if m.offset >= EndOf(b) || (!b.compacted && m.offset != next) || (b.compacted && m.offset < next) {
        return false;
      }
      if !admits(m) { return false; }
      next := m.offset + 1;
    }
    return true;
  }

  class Replica {
    const log: DiskLog
    var hwm: nat

    constructor (log: DiskLog)
      requires log.Valid()
      ensures this.log == log && Valid() && hwm == 0
    {
      this.log, hwm := log, 0;
    }

    /** The watermark never passes the log end. */
    ghost predicate Valid()
      reads this, log
    {
      log.Valid() && hwm <= log.end
    }

    /** `ApplyReplicaHWM`. */
    method ApplyReplicaHWM(n: nat) returns (ok: bool)
      requires Valid()
      modifies this
      ensures Valid() && ok == (n <= log.end) && hwm == if ok && n > old(hwm) then n else old(hwm)
    {
      if n > log.end { return false; }
      if n > hwm { hwm := n; }
      return true;
    }

    /**
     * The batch may be applied here: `fenceOk` is the comparison of leader, epochs and replica set with the metadata.
     */
    ghost predicate Applicable(b: Batch, fenceOk: bool, committedHWM: nat, compactionEnabled: bool,
                               admits: DiskMessage -> bool)
      reads this, log
    {
      && fenceOk && b.committedHWM == committedHWM && b.start == log.end && b.start < EndOf(b) <= committedHWM
      && |b.messages| <= MAX_RECORDS && (!b.compacted ==> b.messages != []) && Orderly(b) && AllStorable(b.messages)
      && (forall m | m in b.messages :: admits(m)) && (b.compacted ==> compactionEnabled)
    }

    /**
     * Appends the range and moves the end past it; the watermark follows only once the whole committed range is
     * present.
     */
    method ApplyReplicaCatchup(b: Batch, fenceOk: bool, committedHWM: nat, compactionEnabled: bool,
                               admits: DiskMessage -> bool) returns (r: Result<()>)
      requires Valid()
      modifies this, log
      ensures Valid()
      ensures r.Ok? ==> old(Applicable(b, fenceOk, committedHWM, compactionEnabled, admits))
      ensures old(Applicable(b, fenceOk, committedHWM, compactionEnabled, admits)) ==>
                (b.compacted || EndOf(b) == b.start + |b.messages| ==> r.Ok?)
      ensures r.Ok? ==> log.Records() == old(log.Records()) + b.messages && log.end > old(log.end)
      ensures r.Ok? ==> log.end == if b.compacted then EndOf(b) else b.start + |b.messages|
      ensures r.Ok? ==> hwm == if EndOf(b) == committedHWM && committedHWM > old(hwm) then committedHWM else old(hwm)
      ensures r.Ok? && hwm != old(hwm) ==> hwm == committedHWM == log.end
      ensures r.Err? ==> hwm == old(hwm)
      ensures !old(Applicable(b, fenceOk, committedHWM, compactionEnabled, admits)) ==>
                log.Records() == old(log.Records()) && log.end == old(log.end)
    {
      hide Holds, Flat, Storable, Orderly, Contiguous, Ascending, Within, Retained;
      if |b.messages| > MAX_RECORDS || (!b.compacted && b.messages == []) {
        return Err("invalid replica catch-up batch size");
      }
      if !fenceOk { return Err("stale replica catch-up fence"); }
      if committedHWM != b.committedHWM { return Err("replica catch-up HWM changed"); }
      if log.end != b.start { return Err("replica catch-up local LEO changed"); }
      var end := EndOf(b);
      if end <= b.start || end > b.committedHWM { return Err("invalid replica catch-up range"); }
      var ok := CheckOffsets(b, admits);
      if !ok { return Err("invalid replica catch-up offset"); }
      OrderlyMeans(b);
      if b.compacted {
        if !compactionEnabled { return Err("compacted replica catch-up is not allowed"); }
        r := log.WriteCompactedReplicaRange(b.start, end, b.messages, 0);
      } else {
        r := log.WriteBatch(b.messages);
      }
      if r.Err? { return; }
      if end != committedHWM { return; }
      ok := ApplyReplicaHWM(committedHWM);
      if !ok { return Err("commit watermark ahead of local LEO"); }
    }
  }

  lemma OrderlyMeans(b: Batch)
    requires Orderly(b)
    ensures b.compacted ==> Ascending(b.messages) && Within(b.messages, b.start, EndOf(b))
    ensures !b.compacted ==>
              Contiguous(b.messages, b.start) && (b.messages != [] ==> b.start + |b.messages| <= EndOf(b))
  {
    if b.messages != [] { assert b.messages[|b.messages| - 1] in b.messages; }
  }

  // ---------------------------------------------------------------------------------------------
  // Catching up

  /** The replica holds exactly the leader's records below its own end. */
  ghost predicate Synced(leader: seq<DiskMessage>, replica: seq<DiskMessage>, end: nat) {
    replica == Between(leader, 0, end)
  }

  lemma FaithfulEnd(b: Batch, leader: seq<DiskMessage>)
    requires Faithful(b, leader)
    ensures EndOf(b) == b.end && (!b.compacted ==> b.end == b.start + |b.messages|)
  {
  }

  /** The replica refuses no honest batch for its range or its order. */
  lemma FaithfulIsOrderly(b: Batch, leader: seq<DiskMessage>)
    requires Faithful(b, leader) && Ascending(leader) && AllStorable(leader)
    ensures Orderly(b) && b.start < EndOf(b) <= b.committedHWM && |b.messages| <= MAX_RECORDS && AllStorable(b.messages)
    ensures !b.compacted ==> b.messages != []
  {
    hide Storable;
    BetweenPart(leader, b.start, b.end);
    BetweenAscends(leader, b.start, b.end);
  }

  lemma SyncGrows(leader: seq<DiskMessage>, replica: seq<DiskMessage>, b: Batch)
    requires Ascending(leader) && Synced(leader, replica, b.start) && Faithful(b, leader)
    ensures Synced(leader, replica + b.messages, b.end)
  {
    BetweenJoin(leader, 0, b.start, b.end);
  }

  lemma {:induction false} BetweenConcat(a: seq<DiskMessage>, b: seq<DiskMessage>, low: nat, high: nat)
    ensures Between(a + b, low, high) == Between(a, low, high) + Between(b, low, high)
  {
    if a == [] {
      assert a + b == b;
    } else {
      assert (a + b)[0] == a[0] && (a + b)[1..] == a[1..] + b;
      BetweenConcat(a[1..], b, low, high);
    }
  }

  /** New records of the leader make no difference below the replica's end, and fill no gap. */
  lemma SyncSurvivesAppend(leader: seq<DiskMessage>, batch: seq<DiskMessage>, replica: seq<DiskMessage>, end: nat)
    requires Synced(leader, replica, end) && AllFrom(batch, end)
    ensures Synced(leader + batch, replica, end)
  {
    BetweenConcat(leader, batch, 0, end);
    BetweenNone(batch, 0, end);
  }

  lemma PresentStays(leader: seq<DiskMessage>, batch: seq<DiskMessage>, low: nat, next: nat, high: nat)
    requires AllPresent(leader, low, high) && low <= next
    ensures AllPresent(leader + batch, next, high)
  {
    forall o: nat | next <= o < high ensures Has(leader + batch, o) {
      assert Has(leader, o);
      var i :| 0 <= i < |leader| && leader[i].offset == o;
      assert (leader + batch)[i].offset == o;
    }
  }

  /** No batch alone outgrows the index of a segment. */
  ghost predicate SmallBatch(leader: DiskLog, batch: seq<DiskMessage>)
    reads leader
  {
    ENTRY_SIZE * (|Log(batch)| / leader.Interval() + 1) <= leader.indexSize
  }

  ghost predicate SmallBatches(leader: DiskLog, produced: seq<seq<DiskMessage>>)
    reads leader
  {
    forall i | 0 <= i < |produced| :: SmallBatch(leader, produced[i])
  }

  /**
   * What the leader has for the range it is asked for: all of it, or what compaction has left and is known to have
   * left.
   */
  ghost predicate Offers(leader: DiskLog, from: nat, next: nat, hwm: nat, compactionEnabled: bool)
    reads leader
  {
    && leader.IndexFits() && leader.segments != [] && leader.segments[0] <= from
    && (compactionEnabled || AllPresent(leader.Records(), next, hwm))
  }

  /** The replica takes whatever comes, and one record fits a frame. */
  ghost predicate Accepting(max: nat, limit: nat, size: Batch -> nat, admits: DiskMessage -> bool) {
    0 < max <= MAX_RECORDS && (forall m :: admits(m)) && (forall b: Batch | |b.messages| <= 1 :: size(b) <= limit)
  }

  /** The leader goes on appending. */
  method Produce(leader: DiskLog, batch: seq<DiskMessage>, ghost from: nat, ghost next: nat, ghost hwm: nat,
                 ghost compactionEnabled: bool, ghost replica: seq<DiskMessage>)
    requires leader.Valid() && next <= leader.end && Synced(leader.Records(), replica, next)
    modifies leader
    ensures leader.Valid() && leader.end >= old(leader.end) && Synced(leader.Records(), replica, next)
    ensures old(Offers(leader, from, next, hwm, compactionEnabled)) && old(SmallBatch(leader, batch)) ==>
              Offers(leader, from, next, hwm, compactionEnabled)
  {
    hide Holds, Flat, Synced, Log, AllPresent, Storable;
    if !Contiguous(batch, leader.end) { return; }
    ghost var before := leader.Records();
    SyncSurvivesAppend(before, batch, replica, next);
    if AllPresent(before, next, hwm) { PresentStays(before, batch, next, next, hwm); }
    var r := leader.WriteBatch(batch);
  }

  /** One round: fetch, fit and apply. The replica holds the leader's records below its end before and after. */
  method Round(leader: DiskLog, localHWM: nat, replica: Replica, hwm: nat, max: nat, limit: nat, size: Batch -> nat,
               compactionEnabled: bool, admits: DiskMessage -> bool, ghost from: nat)
    returns (r: Result<()>)
    requires leader.Valid() && replica.Valid() && replica.log != leader && localHWM <= leader.end
    requires Synced(leader.Records(), replica.log.Records(), replica.log.end) && from <= replica.log.end < hwm
    modifies replica, replica.log
    ensures replica.Valid() && Synced(leader.Records(), replica.log.Records(), replica.log.end)
    ensures replica.log.end >= old(replica.log.end)
    ensures r.Ok? ==> old(replica.log.end) < replica.log.end <= hwm <= localHWM
    ensures r.Ok? && replica.log.end == hwm ==> replica.hwm >= hwm
    ensures Offers(leader, from, old(replica.log.end), hwm, compactionEnabled)
            && Accepting(max, limit, size, admits) ==>
              (hwm <= localHWM ==> r.Ok?) && Offers(leader, from, replica.log.end, hwm, compactionEnabled)
  {
    hide Holds, Flat, Synced, Faithful, Ascending, Orderly, AllPresent, Log;
    ghost var records, next := leader.Records(), replica.log.end;
    RecordsAscend(leader.Now(), leader.closed, leader.active);
    RecordsStorable(leader.Now(), leader.closed, leader.active);
    if AllPresent(records, next, hwm) { PresentBelow(records, next, hwm); }
    var fetched := FetchReplicaCatchup(leader, localHWM, hwm, replica.log.end, max, compactionEnabled);
    if fetched.Err? { return Err(fetched.reason); }
    var fitted := FitReplicaCatchupBatchToLimit(fetched.value, limit, size, records);
    if fitted.Err? { return Err(fitted.reason); }
    var b := fitted.value;
    FaithfulEnd(b, records);
    FaithfulIsOrderly(b, records);
    SyncGrows(records, replica.log.Records(), b);
    r := replica.ApplyReplicaCatchup(b, true, hwm, compactionEnabled, admits);
  }

  lemma PresentBelow(ms: seq<DiskMessage>, low: nat, high: nat)
    requires AllPresent(ms, low, high)
    ensures forall next: nat | low <= next :: AllPresent(ms, next, high)
  {
  }

  /**
   * Rounds until the committed watermark, while the leader goes on appending. However the answers are cut, the
   * replica holds the leader's records below its end after every round, every round moves the end, and at the end the
   * watermark is there. If nothing on either side refuses it gets there, whether or not the topic is compacted.
   */
  method CatchUp(leader: DiskLog, localHWM: nat, replica: Replica, hwm: nat, max: nat, limit: nat, size: Batch -> nat,
                 compactionEnabled: bool, admits: DiskMessage -> bool, produced: seq<seq<DiskMessage>>)
    returns (r: Result<()>)
    requires leader.Valid() && replica.Valid() && replica.log != leader && localHWM <= leader.end
    requires Synced(leader.Records(), replica.log.Records(), replica.log.end)
    modifies replica, replica.log, leader
    ensures leader.Valid() && replica.Valid()
    ensures Synced(leader.Records(), replica.log.Records(), replica.log.end) && replica.log.end >= old(replica.log.end)
    ensures r.Ok? && old(replica.log.end) < hwm ==> replica.log.end == hwm && replica.hwm >= hwm
    ensures old(Offers(leader, replica.log.end, replica.log.end, hwm, compactionEnabled))
              && Accepting(max, limit, size, admits) && hwm <= localHWM && old(SmallBatches(leader, produced)) ==>
              r.Ok?
  {
    hide Holds, Flat, Synced, AllPresent, Log, Accepting;
    ghost var from := replica.log.end;
    ghost var free := Offers(leader, from, from, hwm, compactionEnabled) && Accepting(max, limit, size, admits)
                      && hwm <= localHWM && SmallBatches(leader, produced);
    var round := 0;
    while replica.log.end < hwm
      invariant leader.Valid() && replica.Valid() && localHWM <= leader.end && replica.log.end >= from
      invariant Synced(leader.Records(), replica.log.Records(), replica.log.end)
      invariant replica.log.end >= hwm && from < hwm ==> replica.log.end == hwm && replica.hwm >= hwm
      invariant free ==> Offers(leader, from, replica.log.end, hwm, compactionEnabled)
      decreases hwm - replica.log.end
    {
      var applied := Round(leader, localHWM, replica, hwm, max, limit, size, compactionEnabled, admits, from);
      if applied.Err? { return applied; }
      if round < |produced| {
        assert free ==> SmallBatch(leader, produced[round]);
        Produce(leader, produced[round], from, replica.log.end, hwm, compactionEnabled, replica.log.Records());
        round := round + 1;
      }
    }
    return Ok(());
  }
}
