/**
 * The segment files of one partition as values: what a store of log, index and compaction marker files means as a
 * plain sequence of records, and which changes keep that meaning (pkg/disk).
 */
module SegmentStore {
  import opened Common
  import opened Bytes
  import opened Fields
  import opened RecordCodec
  import opened Frames
  import opened Index
  import opened Recovery
  import opened LogReader

  /** A segment's records, for the offsets from `base` up to `next`. */
  datatype Part = Part(base: nat, records: seq<DiskMessage>, next: nat)

  /**
   * The handler's fields and files. `compacted` holds the size a compacted segment was written with, `size` is
   * `CurrentOffset`, `end` is `AbsoluteOffset`. Index files are held without their zero padding.
   */
  datatype Store = Store(
    logs: map<nat, seq<byte>>, indexes: map<nat, seq<IndexEntry>>, compacted: map<nat, nat>,
    segments: seq<nat>, current: nat, size: nat, end: nat, lastIndexed: nat)

  /** An entry that names the record with its offset. */
  ghost predicate PointsAt(e: IndexEntry, base: nat, ms: seq<DiskMessage>) {
    base <= e.offset < base + |ms| && e.position == |Log(ms[..e.offset - base])|
  }

  /** The index the writer keeps: increasing, never zero, every entry at its record's first byte. */
  ghost predicate TrueIndex(index: seq<IndexEntry>, base: nat, ms: seq<DiskMessage>) {
    Increasing(index) && forall e | e in index :: PointsAt(e, base, ms)
  }

  function LastPosition(index: seq<IndexEntry>): nat {
    if index == [] then 0 else index[|index| - 1].position
  }

  ghost predicate Within(ms: seq<DiskMessage>, low: nat, high: nat) {
    forall m | m in ms :: low <= m.offset < high
  }

  ghost predicate ClosedOk(s: Store, p: Part) {
    && p.base < p.next && p.base in s.logs && s.logs[p.base] == Log(p.records)
    && Sound(p.records, p.base, p.base in s.compacted) && Within(p.records, p.base, p.next)
    && (if p.base in s.compacted then s.compacted[p.base] == |s.logs[p.base]| else p.base + |p.records| == p.next)
    && (p.base in s.indexes ==> Honest(s.indexes[p.base], s.logs[p.base], p.records))
  }

  ghost predicate ActiveOk(s: Store, p: Part) {
    && s.current == p.base && p.base in s.logs && s.logs[p.base] == Log(p.records)
    && Sound(p.records, p.base, false) && s.size == |Log(p.records)| && s.end == p.next == p.base + |p.records|
    && p.base !in s.compacted && p.base in s.indexes
    && TrueIndex(s.indexes[p.base], p.base, p.records) && s.lastIndexed == LastPosition(s.indexes[p.base])
  }

  function Bases(parts: seq<Part>): seq<nat> {
    seq(|parts|, i requires 0 <= i < |parts| => parts[i].base)
  }

  /** Each part ends where the following one starts. */
  ghost predicate Linked(parts: seq<Part>) {
    forall i {:trigger parts[i].next} | 0 <= i < |parts| - 1 :: parts[i].base < parts[i].next == parts[i + 1].base
  }

  ghost predicate ClosedAll(s: Store, closed: seq<Part>) {
    forall p | p in closed :: ClosedOk(s, p)
  }

  /** The files hold the records of the closed parts, then those of the active part. */
  ghost predicate Holds(s: Store, closed: seq<Part>, active: Part) {
    && s.segments == Bases(closed + [active]) && Linked(closed + [active])
    && ClosedAll(s, closed) && ActiveOk(s, active) && Tracked(s)
  }

  /** Compaction is remembered only for closed segments. */
  ghost predicate Tracked(s: Store) {
    forall b | b in s.compacted :: b in s.segments && b < s.current
  }

  /** The records of the parts from `i` on. */
  ghost function Flat(parts: seq<Part>, i: nat): seq<DiskMessage>
    decreases |parts| - i
  {
    if i >= |parts| then [] else parts[i].records + Flat(parts, i + 1)
  }

  lemma {:induction false} FlatSnoc(parts: seq<Part>, p: Part, i: nat)
    requires i <= |parts|
    ensures Flat(parts + [p], i) == Flat(parts, i) + p.records
    decreases |parts| - i
  {
    if i < |parts| {
      FlatSnoc(parts, p, i + 1);
      Assoc(parts[i].records, Flat(parts, i + 1), p.records);
    } else {
      assert Flat(parts + [p], i + 1) == [];
    }
  }

  /** The partition's retained records. */
  ghost function Retained(closed: seq<Part>, active: Part): seq<DiskMessage> {
    Flat(closed + [active], 0)
  }

  // ---------------------------------------------------------------------------------------------
  // Finding the place to read from

  /** Byte position `p` of a segment skips only records below `offset`. */
  ghost predicate ReadableFrom(ms: seq<DiskMessage>, p: nat, offset: nat) {
    exists past, rest :: ms == past + rest && p == |Log(past)| && AllBelow(past, offset)
  }

  ghost predicate AllBelow(ms: seq<DiskMessage>, offset: nat) {
    forall m | m in ms :: m.offset < offset
  }

  lemma ZeroIsReadable(ms: seq<DiskMessage>, offset: nat)
    ensures ReadableFrom(ms, 0, offset)
  {
    assert ms == [] + ms && AllBelow([], offset);
  }

  /** A stale entry is harmless: where it passes the record check, reading from it skips nothing wanted. */
  lemma EntryIsReadable(data: seq<byte>, ms: seq<DiskMessage>, e: IndexEntry, offset: nat)
    requires data == Log(ms) && AllStorable(ms) && Ascending(ms)
    requires Matches(data, e) && AtRecord(ms, e.position) && e.offset <= offset
    ensures ReadableFrom(ms, e.position, offset)
  {
    var past, rest := SplitAt(ms, e.position);
    assert rest[0] in ms;
    MatchedRecord(data, past, rest, e);
    forall m | m in past ensures m.offset < offset {
      var i :| 0 <= i < |past| && past[i] == m;
      assert ms[i] == m && ms[|past|] == rest[0];
    }
    assert AllBelow(past, offset);
  }

  lemma TrueIsHonest(index: seq<IndexEntry>, base: nat, ms: seq<DiskMessage>, data: seq<byte>)
    requires TrueIndex(index, base, ms)
    ensures Honest(index, data, ms)
  {
    forall e | e in index && Matches(data, e) ensures AtRecord(ms, e.position) {
      assert PointsAt(e, base, ms);
    }
  }

  /** `findOffsetPosition`: the byte position a read of `offset` starts from in one segment. */
  method FindOffsetPosition(log: seq<byte>, index: seq<IndexEntry>, count: nat, readable: nat, offset: nat,
                            ghost ms: seq<DiskMessage>) returns (r: Result<nat>)
    requires log == Log(ms) && AllStorable(ms) && Ascending(ms) && Honest(index, log, ms)
    requires count <= |index| && Increasing(index[..count])
    ensures r.Ok? ==> ReadableFrom(ms, r.value, offset)
    ensures count <= readable ==> r.Ok?
    ensures (forall i | 0 <= i < count :: index[i].offset <= offset) ==> (r.Ok? <==> count <= readable)
    ensures readable <= (count - 1) / 2 && count > 0 ==> r.Err?
  {
    ZeroIsReadable(ms, offset);
    var found := FindIndexEntry(index, count, readable, offset);
    if found.Err? { return Err(found.reason); }
    if found.value.None? { return Ok(0); }
    var e := found.value.value;
    var ok := IndexEntryMatchesRecord(log, e);
    if !ok { return Ok(0); }
    EntryIsReadable(log, ms, e, offset);
    return Ok(e.position);
  }

  // ---------------------------------------------------------------------------------------------
  // Reading across segments

  ghost predicate ReadOk(s: Store, p: Part) {
    && p.base <= p.next && Within(p.records, p.base, p.next)
    && p.base in s.logs && s.logs[p.base] == Log(p.records) && Sound(p.records, p.base, AllowsGaps(s, p.base))
  }

  /** `segmentAllowsOffsetGaps`, which is not asked for the active segment. */
  predicate AllowsGaps(s: Store, base: nat) {
    base != s.current && base in s.compacted && base in s.logs && s.compacted[base] == |s.logs[base]|
  }

  ghost predicate AllReadOk(s: Store, parts: seq<Part>) {
    Linked(parts) && forall p | p in parts :: ReadOk(s, p)
  }

  lemma ClosedBases(closed: seq<Part>, active: Part, p: Part)
    requires Linked(closed + [active]) && p in closed
    ensures p.base < active.base
  {
    var i :| 0 <= i < |closed| && closed[i] == p;
    assert (closed + [active])[i] == p;
    StartsIncrease(closed + [active], i, |closed|);
  }

  lemma HoldsIsReadable(s: Store, closed: seq<Part>, active: Part)
    requires Holds(s, closed, active)
    ensures AllReadOk(s, closed + [active])
  {
    forall p | p in closed + [active] ensures ReadOk(s, p) {
      if p in closed {
        ClosedBases(closed, active, p);
        assert ClosedOk(s, p);
      } else {
        ActiveWithin(active);
      }
    }
  }

  lemma ActiveWithin(p: Part)
    requires Contiguous(p.records, p.base) && p.next == p.base + |p.records|
    ensures Within(p.records, p.base, p.next)
  {
  }

  lemma {:induction false} StartsIncrease(parts: seq<Part>, i: nat, j: nat)
    requires Linked(parts) && i < j < |parts|
    ensures parts[i].base < parts[i].next <= parts[j].base
  {
    if i + 1 < j {
      StartsIncrease(parts, i, j - 1);
      assert parts[j - 1].next == parts[j].base;
    }
  }

  /** Records of a segment lie below the base of every later one. */
  lemma RecordsBelow(s: Store, parts: seq<Part>, i: nat, j: nat)
    requires AllReadOk(s, parts) && i < j < |parts|
    ensures AllBelow(parts[i].records, parts[j].base)
  {
    assert ReadOk(s, parts[i]);
    StartsIncrease(parts, i, j);
  }

  lemma {:induction false} FlatFrom(s: Store, parts: seq<Part>, j: nat, offset: nat)
    requires AllReadOk(s, parts) && (j < |parts| ==> offset <= parts[j].base)
    ensures AllFrom(Flat(parts, j), offset)
    decreases |parts| - j
  {
    if j < |parts| {
      assert ReadOk(s, parts[j]);
      if j + 1 < |parts| { StartsIncrease(parts, j, j + 1); }
      FlatFrom(s, parts, j + 1, offset);
    }
  }

  lemma SkipRecords(ms: seq<DiskMessage>, rest: seq<DiskMessage>, offset: nat, max: nat)
    requires AllBelow(ms, offset)
    ensures Select(ms + rest, offset, max) == Select(rest, offset, max)
  {
    SelectNone(ms, offset, max);
    SelectConcat(ms, rest, offset, max);
  }

  /** Reading may start in segment `t` when no earlier segment holds a wanted record. */
  lemma {:induction false} SkipSegments(s: Store, parts: seq<Part>, t: nat, i: nat, offset: nat, max: nat)
    requires AllReadOk(s, parts) && i <= t < |parts| && parts[t].base <= offset
    ensures Select(Flat(parts, i), offset, max) == Select(Flat(parts, t), offset, max)
    decreases t - i
  {
    if i < t {
      RecordsBelow(s, parts, i, t);
      SkipRecords(parts[i].records, Flat(parts, i + 1), offset, max);
      SkipSegments(s, parts, t, i + 1, offset, max);
    }
  }

  /** The read loop: the segments from `j` on still have to give what completes the result. */
  ghost predicate Gathered(parts: seq<Part>, j: nat, offset: nat, max: nat, messages: seq<DiskMessage>,
                           result: seq<DiskMessage>) {
    |messages| <= max && messages + Select(Flat(parts, j), offset, max - |messages|) == result
  }

  lemma GatherStarts(parts: seq<Part>, j: nat, offset: nat, max: nat)
    ensures Gathered(parts, j, offset, max, [], Select(Flat(parts, j), offset, max))
  {
    assert [] + Select(Flat(parts, j), offset, max) == Select(Flat(parts, j), offset, max);
  }

  lemma GatherEnds(parts: seq<Part>, j: nat, offset: nat, max: nat, messages: seq<DiskMessage>,
                   result: seq<DiskMessage>)
    requires Gathered(parts, j, offset, max, messages, result) && (|messages| >= max || j >= |parts|)
    ensures messages == result
  {
    assert Select(Flat(parts, j), offset, max - |messages|) == [];
  }

  lemma GatherLast(ms: seq<DiskMessage>, offset: nat, max: nat, m: DiskMessage)
    requires m in Select(ms, offset, max)
    ensures m in ms && m.offset >= offset
  {
  }

  lemma GatherSegment(parts: seq<Part>, j: nat, offset: nat, max: nat, messages: seq<DiskMessage>,
                      result: seq<DiskMessage>, batch: seq<DiskMessage>)
    requires Gathered(parts, j, offset, max, messages, result) && j < |parts|
    requires batch == Select(parts[j].records, offset, max - |messages|)
    ensures |messages + batch| <= max && Gathered(parts, j + 1, offset, max, messages + batch, result)
  {
    SelectConcat(parts[j].records, Flat(parts, j + 1), offset, max - |messages|);
    Assoc(messages, batch, Select(Flat(parts, j + 1), offset, max - |messages| - |batch|));
  }

  /** Moving the start past the last message read loses nothing. */
  lemma GatherMoves(s: Store, parts: seq<Part>, j: nat, offset: nat, max: nat, messages: seq<DiskMessage>,
                    result: seq<DiskMessage>, last: DiskMessage)
    requires AllReadOk(s, parts) && j < |parts| && last in parts[j].records && last.offset >= offset
    requires Gathered(parts, j + 1, offset, max, messages, result)
    ensures Gathered(parts, j + 1, last.offset + 1, max, messages, result)
  {
    hide Flat, Select;
    assert ReadOk(s, parts[j]);
    if j + 1 < |parts| { StartsIncrease(parts, j, j + 1); }
    FlatFrom(s, parts, j + 1, last.offset + 1);
    FlatFrom(s, parts, j + 1, offset);
    SelectAny(Flat(parts, j + 1), offset, last.offset + 1, max - |messages|);
  }
}
