/**
 * The segmented disk log of one partition (DiskHandler, pkg/disk): ordered writes, rolling, reading, truncation and
 * reopening. Its meaning is the plain sequence of retained records.
 */
module DiskLog {
  import opened Common
  import opened Bytes
  import opened Fields
  import opened RecordCodec
  import opened Frames
  import opened Index
  import opened Recovery
  import opened LogReader
  import opened SegmentStore
  import opened StoreChanges
  import opened Filtering
  import opened Compaction
  import opened SegmentCompaction

  /** `IndexEntrySize`. */
  const ENTRY_SIZE := 16

  // ---------------------------------------------------------------------------------------------
  // How many index entries one batch needs

  /** `cnt` positions at least `interval` apart, from `start` on, the last of them `last` and below `size`. */
  ghost predicate Spaced(cnt: nat, interval: nat, start: nat, last: nat, size: nat) {
    cnt == 0 || start + (cnt - 1) * interval <= last < size
  }

  lemma SpacedNone(interval: nat, start: nat, last: nat, size: nat)
    ensures Spaced(0, interval, start, last, size)
  {
  }

  lemma SpacedNext(cnt: nat, interval: nat, start: nat, last: nat, size: nat, more: nat)
    requires Spaced(cnt, interval, start, last, size) && start <= size && size < more
    ensures Spaced(cnt, interval, start, last, more)
    ensures last + interval <= size ==> Spaced(cnt + 1, interval, start, size, more)
  {
    if cnt > 0 {
      assert cnt * interval == (cnt - 1) * interval + interval;
    }
  }

  lemma SpacedFew(cnt: nat, interval: nat, start: nat, last: nat, size: nat)
    requires Spaced(cnt, interval, start, last, size) && interval > 0 && start <= size
    ensures cnt <= (size - start) / interval + 1
  {
    if cnt > 0 {
      var total := size - start;
      var q := total / interval;
      assert total == q * interval + total % interval;
      assert (q + 1) * interval == q * interval + interval;
      if cnt - 1 > q { MulGrows(q + 1, cnt - 1, interval); }
    }
  }

  lemma MulGrows(a: nat, b: nat, c: nat)
    requires a <= b
    ensures a * c <= b * c
  {
  }

  // ---------------------------------------------------------------------------------------------
  // Serializing before anything is written

  /** One message as a length-prefixed record, if the log can hold it. */
  method FrameBytes(m: DiskMessage) returns (r: Option<seq<byte>>)
    ensures r.Some? <==> Storable(m)
    ensures r.Some? ==> r.value == Frame(m)
  {
    var body := SerializeDiskMessage(m);
    if body.None? || |body.value| > MAX_MESSAGE_SIZE { return None; }
    return Some(BE(|body.value|, 4) + body.value);
  }

  method SerializeBatch(batch: seq<DiskMessage>) returns (r: Option<seq<seq<byte>>>, total: nat)
    ensures r.Some? <==> AllStorable(batch)
    ensures r.Some? ==>
              |r.value| == |batch| && total == |Log(batch)|
              && forall i | 0 <= i < |batch| :: r.value[i] == Frame(batch[i])
  {
    hide Storable, Frame, LogFrom;
    var frames: seq<seq<byte>> := [];
    total := 0;
    LogNothing();
    for i := 0 to |batch|
      invariant AllStorable(batch[..i]) && |frames| == i && total == |Log(batch[..i])|
      invariant forall j | 0 <= j < i :: frames[j] == Frame(batch[j])
    {
      var frame := FrameBytes(batch[i]);
      if frame.None? { return None, total; }
      assert batch[..i + 1] == batch[..i] + [batch[i]];
      LogSnoc(batch[..i], batch[i]);
      frames := frames + [frame.value];
      total := total + |frame.value|;
    }
    assert batch[..|batch|] == batch;
    return Some(frames), total;
  }

  lemma LogEmpty(ms: seq<DiskMessage>)
    requires AllStorable(ms)
    ensures |Log(ms)| == 0 ==> ms == []
  {
    if ms != [] {
      assert ms == [ms[0]] + ms[1..] && ms[0] in ms;
      LogFirst(ms[0], ms[1..]);
      FrameSize(ms[0]);
    }
  }

  /** What the methods use of a store's invariant. */
  lemma HoldsBasics(s: Store, closed: seq<Part>, active: Part)
    requires Holds(s, closed, active)
    ensures s.current in s.logs && s.current in s.indexes && s.lastIndexed <= s.size == |s.logs[s.current]|
    ensures s.current <= s.end
    ensures s.size == 0 ==> s.end == s.current && s.indexes[s.current] == [] && s.lastIndexed == 0
    ensures s.size == 0 ==> active.records == []
    ensures s.size > 0 ==> s.current < s.end
  {
    hide Log, Frame, Storable, Linked;
    LogNothing();
    LogEmpty(active.records);
    var index := s.indexes[s.current];
    if index != [] {
      var e := index[|index| - 1];
      assert PointsAt(e, active.base, active.records);
      LogGrows(active.records, e.offset - active.base, |active.records|);
      assert active.records[..|active.records|] == active.records;
    }
  }

  ghost predicate Rising(segments: seq<nat>) {
    forall i, j | 0 <= i < j < |segments| :: segments[i] < segments[j]
  }

  /** `sort.Search` for the first base above `offset`. */
  method SearchAbove(segments: seq<nat>, offset: nat) returns (k: nat)
    requires Rising(segments)
    ensures k <= |segments| && (k > 0 ==> segments[k - 1] <= offset) && (k < |segments| ==> segments[k] > offset)
  {
    var low, high := 0, |segments|;
    while low < high
      invariant 0 <= low <= high <= |segments|
      invariant (low > 0 ==> segments[low - 1] <= offset) && (high < |segments| ==> segments[high] > offset)
    {
      var mid := (low + high) / 2;
      if segments[mid] > offset { high := mid; } else { low := mid + 1; }
    }
    return low;
  }

  lemma SegmentsIncrease(s: Store, closed: seq<Part>, active: Part)
    requires Holds(s, closed, active)
    ensures |s.segments| == |closed| + 1 && s.segments[|closed|] == s.current
    ensures Rising(s.segments) && s.segments == Bases(closed + [active]) && Linked(closed + [active])
  {
    var parts := closed + [active];
    forall i, j | 0 <= i < j < |s.segments| ensures s.segments[i] < s.segments[j] {
      StartsIncrease(parts, i, j);
    }
  }

  /** What the methods use of one segment's files. */
  lemma SegmentBasics(s: Store, closed: seq<Part>, active: Part, i: nat, p: Part)
    requires Holds(s, closed, active) && i < |s.segments| && p == if i < |closed| then closed[i] else active
    ensures |s.segments| == |closed| + 1 && s.segments[i] == p.base && p == (closed + [active])[i] && p.base in s.logs
    ensures s.logs[p.base] == Log(p.records) && Sound(p.records, p.base, AllowsGaps(s, p.base))
    ensures p.base in s.indexes ==> Honest(s.indexes[p.base], s.logs[p.base], p.records)
    ensures p.base == s.current ==> p.base in s.indexes && Increasing(s.indexes[p.base][..|s.indexes[p.base]|])
  {
    HoldsIsReadable(s, closed, active);
    assert (closed + [active])[i] == p && p in closed + [active];
    assert ReadOk(s, p);
    if i < |closed| {
      assert ClosedOk(s, p);
      ClosedBases(closed, active, p);
    } else {
      var index := s.indexes[p.base];
      assert index[..|index|] == index;
      TrueIsHonest(index, p.base, p.records, s.logs[p.base]);
    }
  }

  lemma OnlyActiveIsCurrent(s: Store, closed: seq<Part>, active: Part, i: nat)
    requires Holds(s, closed, active) && i < |s.segments|
    ensures |s.segments| == |closed| + 1 && (s.segments[i] == s.current <==> i == |closed|)
  {
    SegmentsIncrease(s, closed, active);
  }

  /** No entry of the active index is at or above the end. */
  lemma EndIsPastTheIndex(s: Store, closed: seq<Part>, active: Part)
    requires Holds(s, closed, active)
    ensures s.current in s.indexes && forall e | e in s.indexes[s.current] :: e.offset <= s.end
    ensures |s.segments| == |closed| + 1 && s.segments[0] <= s.current <= s.end
  {
    SegmentsIncrease(s, closed, active);
    HoldsBasics(s, closed, active);
    forall e | e in s.indexes[s.current] ensures e.offset <= s.end {
      assert PointsAt(e, active.base, active.records);
    }
  }

  lemma LaidFrom(data: seq<byte>, past: seq<DiskMessage>, rest: seq<DiskMessage>)
    requires data == Log(past + rest)
    ensures Laid(data, |Log(past)|, past, rest, [])
  {
    LogConcat(past, rest);
    assert Log(rest) + [] == Log(rest);
  }

  // ---------------------------------------------------------------------------------------------
  // Where to truncate

  lemma ReplaceIsThere<V>(files: map<nat, V>, removed: set<nat>, base: nat, content: V)
    ensures base in Replace(files, removed, base, content) && Replace(files, removed, base, content)[base] == content
  {
  }

  /** The segment to cut: the last one based at or below `n`. */
  method LastAtOrBelow(segments: seq<nat>, n: nat) returns (t: nat)
    requires Rising(segments) && segments != [] && segments[0] <= n
    ensures t < |segments| && segments[t] <= n && (t + 1 < |segments| ==> n < segments[t + 1])
  {
    t := 0;
    while t + 1 < |segments| && segments[t + 1] <= n
      invariant t < |segments| && segments[t] <= n
    {
      t := t + 1;
    }
  }

  lemma RecordsAscend(s: Store, closed: seq<Part>, active: Part)
    requires Holds(s, closed, active)
    ensures Ascending(Retained(closed, active))
  {
    HoldsIsReadable(s, closed, active);
    FlatAscends(s, closed + [active], 0);
  }

  // ---------------------------------------------------------------------------------------------
  // A crash in the middle of a truncation

  lemma {:induction false} FlatJoin(a: seq<Part>, b: seq<Part>)
    ensures Flat(a + b, 0) == Flat(a, 0) + Flat(b, 0)
    decreases |b|
  {
    if b == [] {
      assert a + b == a && Flat(b, 0) == [];
    } else {
      var front, last := b[..|b| - 1], b[|b| - 1];
      assert b == front + [last] && a + b == (a + front) + [last];
      FlatJoin(a, front);
      FlatSnoc(a + front, last, 0);
      FlatSnoc(front, last, 0);
      Assoc(Flat(a, 0), Flat(front, 0), last.records);
    }
  }

  lemma SkipsARecord(a: seq<DiskMessage>, b: seq<DiskMessage>, c: seq<DiskMessage>)
    requires Ascending(a + (b + c)) && b != [] && c != []
    ensures !(a + c <= a + (b + c))
  {
    var all := a + (b + c);
    assert all[|a|] == b[0] && all[|a| + |b|] == c[0] && (a + c)[|a|] == c[0];
  }

  /**
   * The segments after the cut are removed first, oldest first, and the target is cut last. A crash after `k`
   * removals leaves a prefix of the log if and only if none of the removed segments or none of those still to be
   * removed holds a record; in all other cases the middle is missing.
   */
  lemma CrashedTruncation(s: Store, closed: seq<Part>, active: Part, parts: seq<Part>, t: nat, k: nat)
    requires Holds(s, closed, active) && parts == closed + [active] && t + 1 + k <= |parts|
    ensures Flat(parts[..t + 1] + parts[t + 1 + k..], 0) <= Retained(closed, active)
            <==> Flat(parts[t + 1..t + 1 + k], 0) == [] || Flat(parts[t + 1 + k..], 0) == []
  {
    hide Holds, Flat, Ascending;
    var a, b, c := parts[..t + 1], parts[t + 1..t + 1 + k], parts[t + 1 + k..];
    assert parts == a + (b + c);
    FlatJoin(a, c);
    FlatJoin(b, c);
    FlatJoin(a, b + c);
    RecordsAscend(s, closed, active);
    var x, y, z := Flat(a, 0), Flat(b, 0), Flat(c, 0);
    if y != [] && z != [] {
      SkipsARecord(x, y, z);
    } else if y == [] {
      assert y + z == z;
    } else {
      assert x + z == x && x <= x + (y + z);
    }
  }

  /** The scan is at the first byte of `mid + back`, where `mid` is what is left of `front`. */
  ghost predicate Scanning(data: seq<byte>, pos: nat, before: seq<DiskMessage>, mid: seq<DiskMessage>,
                           front: seq<DiskMessage>, back: seq<DiskMessage>) {
    front == before + mid && Laid(data, pos, before, mid + back, []) && AllStorable(mid + back)
  }

  lemma ScanningReads(data: seq<byte>, pos: nat, before: seq<DiskMessage>, mid: seq<DiskMessage>,
                      front: seq<DiskMessage>, back: seq<DiskMessage>, r: FrameRead)
    requires Scanning(data, pos, before, mid, front, back) && pos <= |data| && ReadsAs(data[pos..], pos, r)
    ensures mid == [] ==>
              pos == |Log(front)| && (if back == [] then r == End else r == Found(back[0], pos + |Frame(back[0])|))
    ensures mid != [] ==> r == Found(mid[0], pos + |Frame(mid[0])|)
  {
    LaidReads(data, pos, before, mid + back, [], r);
    if mid == [] { assert before + mid == before && mid + back == back; }
  }

  lemma ScanningNext(data: seq<byte>, pos: nat, before: seq<DiskMessage>, m: DiskMessage, mid: seq<DiskMessage>,
                     front: seq<DiskMessage>, back: seq<DiskMessage>)
    requires Scanning(data, pos, before, [m] + mid, front, back)
    ensures Scanning(data, pos + |Frame(m)|, before + [m], mid, front, back)
  {
    Assoc([m], mid, back);
    Assoc(before, [m], mid);
    LaidNext(data, pos, before, m, mid + back, []);
    StorableRest([m], mid + back);
  }

  lemma ScanningStarts(data: seq<byte>, front: seq<DiskMessage>, back: seq<DiskMessage>)
    requires data == Log(front + back) && AllStorable(front + back)
    ensures Scanning(data, 0, [], front, front, back)
  {
    assert [] + front == front && [] + (front + back) == front + back;
    LogNothing();
    LaidFrom(data, [], front + back);
  }

  /** The records before byte `pos`, all below `n`. */
  ghost predicate PassedBelow(data: seq<byte>, pos: nat, n: nat, front: seq<DiskMessage>) {
    pos == |Log(front)| && Log(front) <= data && AllStorable(front) && AllBelow(front, n)
  }

  ghost predicate StartsFrom(rest: seq<byte>, n: nat) {
    rest == [] || exists m :: Storable(m) && Frame(m) <= rest && m.offset >= n
  }

  lemma NothingPassed(data: seq<byte>, n: nat)
    ensures PassedBelow(data, 0, n, [])
  {
    LogNothing();
  }

  lemma BelowRest(ms: seq<DiskMessage>, n: nat)
    requires AllBelow(ms, n) && ms != []
    ensures AllBelow(ms[1..], n)
  {
  }

  lemma PassedNext(data: seq<byte>, pos: nat, n: nat, front: seq<DiskMessage>, m: DiskMessage)
    requires PassedBelow(data, pos, n, front) && pos <= |data| && Storable(m) && Frame(m) <= data[pos..] && m.offset < n
    ensures PassedBelow(data, pos + |Frame(m)|, n, front + [m])
  {
    hide Log, LogFrom, Frame, Storable;
    LogSnoc(front, m);
    assert data == Log(front) + data[pos..];
  }

  /** Scans for the first record at or after `n`. */
  method FindTruncatePosition(data: seq<byte>, n: nat, ghost front: seq<DiskMessage>,
                              ghost back: seq<DiskMessage>) returns (r: Result<nat>)
    ensures data == Log(front + back) && AllStorable(front + back) && AllBelow(front, n) && AllFrom(back, n) ==>
              r == Ok(|Log(front)|)
    ensures r.Ok? ==>
              r.value <= |data| && StartsFrom(data[r.value..], n)
              && exists passed :: PassedBelow(data, r.value, n, passed)
  {
    hide Scanning, Log, Frame, Storable, PassedBelow;
    ghost var passed: seq<DiskMessage> := [];
    NothingPassed(data, n);
    ghost var good := data == Log(front + back) && AllStorable(front + back) && AllBelow(front, n) && AllFrom(back, n);
    ghost var before, mid := [], front;
    var pos := 0;
    if good { ScanningStarts(data, front, back); }
    while true
      invariant pos <= |data| && (good ==> Scanning(data, pos, before, mid, front, back) && AllBelow(mid, n))
      invariant PassedBelow(data, pos, n, passed)
      decreases |data| - pos
    {
      var frame := ReadFrame(data, pos);
      if good { ScanningReads(data, pos, before, mid, front, back, frame); }
      if frame.End? { return Ok(pos); }
      if !frame.Found? { return Err("invalid record"); }
      if frame.message.offset >= n { return Ok(pos); }
      FrameSize(frame.message);
      PassedNext(data, pos, n, passed, frame.message);
      passed := passed + [frame.message];
      if good {
        HeadTail(mid);
        BelowRest(mid, n);
        ScanningNext(data, pos, before, mid[0], mid[1..], front, back);
        before, mid := before + [mid[0]], mid[1..];
      }
      pos := frame.next;
    }
  }

  lemma SplitRecords(ms: seq<DiskMessage>, base: nat, n: nat) returns (front: seq<DiskMessage>, back: seq<DiskMessage>)
    requires Contiguous(ms, base) && base <= n <= base + |ms|
    ensures ms == front + back && n == base + |front| && AllBelow(front, n) && AllFrom(back, n)
  {
    front, back := ms[..n - base], ms[n - base..];
    HalvesSplit(front, back, base, n);
  }

  /** The records to keep and to drop of the segment to cut. */
  lemma CutPlan(s: Store, closed: seq<Part>, active: Part, t: nat, n: nat) returns (front: seq<DiskMessage>,
                back: seq<DiskMessage>)
    requires Holds(s, closed, active) && t < |s.segments| && s.segments[t] <= n < s.end && s.segments[t] !in s.compacted
    requires t + 1 < |s.segments| ==> n < s.segments[t + 1]
    ensures t < |closed + [active]| == |s.segments| && (closed + [active])[t].base == s.segments[t]
    ensures t + 1 < |s.segments| ==> (closed + [active])[t + 1].base == s.segments[t + 1]
    ensures (closed + [active])[t].records == front + back && n == s.segments[t] + |front|
    ensures s.segments[t] in s.logs && s.logs[s.segments[t]] == Log(front + back) && AllStorable(front + back)
    ensures AllBelow(front, n) && AllFrom(back, n)
  {
    var parts := closed + [active];
    TargetIsWhole(s, closed, active, t, parts[t]);
    front, back := SplitRecords(parts[t].records, s.segments[t], n);
  }

  function Above(segments: seq<nat>, base: nat): set<nat> {
    set b | b in segments && b > base
  }

  lemma LaterBases(parts: seq<Part>, t: nat, removed: set<nat>)
    requires Linked(parts) && t < |parts| && removed == Above(Bases(parts), parts[t].base)
    ensures Later(parts, t, removed)
  {
    forall b | b in removed ensures exists i | t < i < |parts| :: b == parts[i].base {
      var i :| 0 <= i < |parts| && Bases(parts)[i] == b;
      assert parts[i].base == b;
      if i < t { StartsIncrease(parts, i, t); }
    }
    forall i | t < i < |parts| ensures parts[i].base in removed {
      StartsIncrease(parts, t, i);
      assert Bases(parts)[i] == parts[i].base;
    }
  }

  lemma RemovedAreLater(s: Store, closed: seq<Part>, active: Part, t: nat, removed: set<nat>)
    requires Holds(s, closed, active) && t < |s.segments| && removed == Above(s.segments, s.segments[t])
    ensures Later(closed + [active], t, removed)
  {
    SegmentsIncrease(s, closed, active);
    LaterBases(closed + [active], t, removed);
  }

  /** Losing the last records of the active segment drops what is at or after the new end. */
  lemma CutDrops(s: Store, closed: seq<Part>, active: Part, front: seq<DiskMessage>, back: seq<DiskMessage>)
    requires Holds(s, closed, active) && active.records == front + back
    ensures DropsFrom(Retained(closed, active), active.base + |front|,
                      Retained(closed, Part(active.base, front, active.base + |front|)))
  {
    var parts := closed + [active];
    HoldsIsReadable(s, closed, active);
    assert parts[|closed|] == active && parts[..|closed|] == closed;
    TruncateDrops(s, parts, |closed|, active.base + |front|, front, back);
    FlatSnoc(closed, Part(active.base, front, active.base + |front|), 0);
  }

  lemma NothingToDrop(s: Store, closed: seq<Part>, active: Part)
    requires Holds(s, closed, active)
    ensures DropsFrom(Retained(closed, active), s.end, Retained(closed, active))
  {
    var parts := closed + [active];
    HoldsIsReadable(s, closed, active);
    assert parts[|closed|] == active && parts[..|closed|] == closed;
    assert active.records + [] == active.records;
    TruncateDrops(s, parts, |closed|, s.end, active.records, []);
    FlatSnoc(closed, active, 0);
  }

  // ---------------------------------------------------------------------------------------------
  // Restart

  lemma ReopenPlan(s: Store, closed: seq<Part>, active: Part, cut: nat,
                   index: seq<IndexEntry>) returns (front: seq<DiskMessage>, back: seq<DiskMessage>)
    requires Holds(s, closed, active) && cut <= s.size && s.current in s.indexes && index <= s.indexes[s.current]
    ensures active.base == s.current && active.records == front + back && front == KeptRecords(active.records, cut)
    ensures s.current in s.logs && cut <= |s.logs[s.current]|
    ensures CutOf(s.logs[s.current][..cut], active.records, s.current, cut)
    ensures Honest(index, s.logs[s.current][..cut], front)
    ensures |Log(front)| <= cut && s.logs[s.current][..cut][..|Log(front)|] == Log(front)
    ensures CutTail(active.records, s.current, cut).validBytes == |Log(front)|
    ensures CutTail(active.records, s.current, cut).nextOffset == s.current + |front|
    ensures cut == s.size ==> front == active.records && !CutTail(active.records, s.current, cut).partial
  {
    hide LogFrom, Frame, Storable, Increasing;
    var ms := active.records;
    var k := Whole(ms, cut, |ms|);
    assert ms[..|ms|] == ms;
    front, back := ms[..k], ms[k..];
    assert ms == front + back;
    LogConcat(front, back);
    TrueIndexSurvivesCut(index, active.base, ms, cut, s.logs[s.current][..cut]);
  }

  /** Recovery of a log cut at `cut`, with an index that does not mislead. */
  method RecoverCut(data: seq<byte>, index: seq<IndexEntry>, base: nat, strict: bool, ghost ms: seq<DiskMessage>,
                    ghost cut: nat)
    returns (r: Result<Tail>, kept: seq<byte>)
    requires CutOf(data, ms, base, cut) && Honest(index, data, KeptRecords(ms, cut))
    ensures Recovers(data, CutTail(ms, base, cut), strict, r, kept)
  {
    hide CutOf, Honest, KeptRecords, CutTail, Recovers, TailAt;
    r, kept := RecoverActiveSegment(data, index, base, strict);
  }

  lemma RecordStartsBelow(ms: seq<DiskMessage>, k: nat)
    requires k < |ms| && Storable(ms[k])
    ensures |Log(ms[..k])| < |Log(ms)|
  {
    hide LogFrom, Frame, Storable;
    Around(ms, k);
    LogSnoc(ms[..k], ms[k]);
    FrameSize(ms[k]);
    LogGrows(ms, k + 1, |ms|);
    assert ms[..|ms|] == ms;
  }

  lemma TrueIndexBelow(index: seq<IndexEntry>, base: nat, ms: seq<DiskMessage>)
    requires TrueIndex(index, base, ms) && AllStorable(ms)
    ensures Below(index, |Log(ms)|)
  {
    hide Log, Storable;
    forall e | e in index ensures e.position < |Log(ms)| {
      assert PointsAt(e, base, ms);
      assert ms[e.offset - base] in ms;
      RecordStartsBelow(ms, e.offset - base);
    }
  }

  lemma IncreasingPrefix(index: seq<IndexEntry>, n: nat, size: nat)
    requires Increasing(index) && Below(index, size) && n <= |index|
    ensures Increasing(index[..n]) && Below(index[..n], size)
  {
    forall i | 0 <= i < n ensures index[..n][i] in index {}
  }

  /** Without a crash everything is found again, the index prefix included. */
  lemma ReopenSame(s: Store, closed: seq<Part>, active: Part, index: seq<IndexEntry>, capacity: nat, n: nat)
    requires Holds(s, closed, active) && s.current in s.indexes && index == s.indexes[s.current]
    requires n <= |index| <= capacity
    requires n < |index| && n < capacity ==> !(Increasing(index[..n + 1]) && Below(index[..n + 1], s.size))
    ensures n == |index| && index[..n] == index && LastPosition(index) == s.lastIndexed
    ensures s.end == active.base + |active.records|
  {
    hide Log;
    TrueIndexBelow(index, active.base, active.records);
    if n < |index| { IncreasingPrefix(index, n + 1, s.size); }
  }

  lemma HoldsActive(s: Store, closed: seq<Part>, active: Part)
    requires Holds(s, closed, active)
    ensures active.base == s.current && s.end == active.base + |active.records|
    ensures s.current in s.logs && s.current in s.indexes && s.logs[s.current] == Log(active.records)
    ensures s.size == |Log(active.records)|
    ensures s.lastIndexed == LastPosition(s.indexes[s.current]) && (s.size == 0 ==> active.records == [])
  {
    LogEmpty(active.records);
  }

  // ---------------------------------------------------------------------------------------------
  // Compaction

  /** How putting a rewritten segment in place goes. */
  datatype Swap = Swapped | ReadersActive | NotReplaced | IndexLost

  ghost function KeptPart(p: Part, latest: Latest<seq<byte>>): Part {
    Part(p.base, Kept(p.records, latest), p.next)
  }

  /** A selection as long as its source is its source. */
  lemma {:induction false} KeptAll(ms: seq<DiskMessage>, latest: Latest<seq<byte>>)
    ensures |Kept(ms, latest)| <= |ms| && (|Kept(ms, latest)| == |ms| ==> Kept(ms, latest) == ms)
  {
    if ms != [] {
      KeptAll(ms[1..], latest);
    }
  }

  lemma KeptWhole(p: Part, latest: Latest<seq<byte>>)
    ensures |Kept(p.records, latest)| == |p.records| ==> KeptPart(p, latest) == p
  {
    KeptAll(p.records, latest);
  }

  lemma CompactedPart(s: Store, closed: seq<Part>, active: Part, i: nat, latest: Latest<seq<byte>>,
                      index: seq<IndexEntry>)
    requires Holds(s, closed, active) && i < |closed| && IndexNames(index, Kept(closed[i].records, latest))
    ensures AllStorable(Kept(closed[i].records, latest)) && Ascending(Kept(closed[i].records, latest))
    ensures Within(Kept(closed[i].records, latest), closed[i].base, closed[i].next)
    ensures Honest(index, Log(Kept(closed[i].records, latest)), Kept(closed[i].records, latest))
  {
    assert ClosedOk(s, closed[i]);
    KeptIsSound(closed[i].records, latest, closed[i].base, closed[i].next);
    IndexNamesIsHonest(index, Kept(closed[i].records, latest), Log(Kept(closed[i].records, latest)));
  }

  datatype Pass = Skipped(reason: string) | Stopped | Completed

  /** Bytes of the first `n` parts' logs, and what a rewrite would leave of them. */
  ghost function LogBytes(parts: seq<Part>, n: nat): nat
    requires n <= |parts|
  {
    if n == 0 then 0 else LogBytes(parts, n - 1) + |Log(parts[n - 1].records)|
  }

  ghost function KeptBytes(parts: seq<Part>, latest: Latest<seq<byte>>, n: nat): nat
    requires n <= |parts|
  {
    if n == 0 then 0 else KeptBytes(parts, latest, n - 1) + |Log(Kept(parts[n - 1].records, latest))|
  }

  function DirtyRatio(ratio: real): real {
    if ratio <= 0.0 || ratio >= 1.0 then 0.5 else ratio
  }

  /** Enough of the closed bytes can go. */
  ghost predicate WorthCompacting(closed: seq<Part>, latest: Latest<seq<byte>>, ratio: real) {
    var before, after := LogBytes(closed, |closed|), KeptBytes(closed, latest, |closed|);
    after < before && (before - after) as real / before as real >= if 0.0 < ratio < 1.0 then ratio else 0.5
  }

  /** The closed parts after the first `n` of them were rewritten. */
  ghost function KeptFirst(closed: seq<Part>, n: nat, latest: Latest<seq<byte>>): seq<Part> {
    seq(|closed|, i requires 0 <= i < |closed| => if i < n then KeptPart(closed[i], latest) else closed[i])
  }

  lemma KeptFirstNone(closed: seq<Part>, latest: Latest<seq<byte>>)
    ensures KeptFirst(closed, 0, latest) == closed
  {
  }

  lemma KeptFirstNext(closed: seq<Part>, n: nat, latest: Latest<seq<byte>>)
    requires n < |closed|
    ensures |KeptFirst(closed, n, latest)| == |closed| && KeptFirst(closed, n, latest)[n] == closed[n]
    ensures KeptFirst(closed, n + 1, latest) == KeptFirst(closed, n, latest)[n := KeptPart(closed[n], latest)]
  {
  }

  lemma KeptFirstLater(closed: seq<Part>, n: nat, j: nat, latest: Latest<seq<byte>>)
    requires n <= j < |closed|
    ensures KeptFirst(closed, n, latest)[j] == closed[j]
  {
  }

  lemma ServesStill(s: Store, closed: seq<Part>, active: Part, i: nat, j: nat, t: Store, kept: seq<DiskMessage>)
    requires Holds(s, closed, active) && i < j < |closed| && IndexServes(s, closed[j].base, None, kept)
    requires forall b | b in t.indexes && b != closed[i].base :: b in s.indexes && t.indexes[b] == s.indexes[b]
    ensures IndexServes(t, closed[j].base, None, kept)
  {
    OtherBases(closed, active, i, j);
  }

  lemma {:induction false} KeptFlat(closed: seq<Part>, latest: Latest<seq<byte>>, i: nat)
    ensures Flat(KeptFirst(closed, |closed|, latest), i) == Survivors(Flat(closed, i), Head, latest)
    decreases |closed| - i
  {
    if i < |closed| {
      KeptFlat(closed, latest, i + 1);
      FilterConcat(closed[i].records, Flat(closed, i + 1), Keeper(Head, latest));
    }
  }

  lemma KeptFirstAll(closed: seq<Part>, latest: Latest<seq<byte>>)
    ensures Flat(KeptFirst(closed, |closed|, latest), 0) == Survivors(Flat(closed, 0), Head, latest)
  {
    KeptFlat(closed, latest, 0);
  }

  lemma ClosedStorable(s: Store, closed: seq<Part>, active: Part, i: nat)
    requires Holds(s, closed, active) && i < |closed|
    ensures AllStorable(closed[i].records)
  {
    assert ClosedOk(s, closed[i]);
  }

  lemma {:induction false} FlatAscends(s: Store, parts: seq<Part>, i: nat)
    requires AllReadOk(s, parts)
    ensures Ascending(Flat(parts, i))
    decreases |parts| - i
  {
    if i < |parts| {
      FlatAscends(s, parts, i + 1);
      assert ReadOk(s, parts[i]);
      if i + 1 < |parts| { StartsIncrease(parts, i, i + 1); }
      FlatFrom(s, parts, i + 1, parts[i].next);
      AscendingJoin(parts[i].records, Flat(parts, i + 1), parts[i].next);
    }
  }

  lemma AscendingJoin(a: seq<DiskMessage>, b: seq<DiskMessage>, n: nat)
    requires Ascending(a) && Ascending(b) && AllBelow(a, n) && AllFrom(b, n)
    ensures Ascending(a + b)
  {
    var all := a + b;
    forall i, j | 0 <= i < j < |all| ensures all[i].offset < all[j].offset {
      if i < |a| <= j { assert all[i] in a && all[j] in b; }
    }
  }

  lemma ClosedOrdered(s: Store, closed: seq<Part>, active: Part)
    requires Holds(s, closed, active)
    ensures Ordered(Flat(closed, 0), Head) && Ascending(Flat(closed, 0))
  {
    HoldsIsReadable(s, closed, active);
    FlatAscends(s, closed + [active], 0);
    FlatSnoc(closed, active, 0);
    var all := Flat(closed + [active], 0);
    forall i, j | 0 <= i < j < |Flat(closed, 0)|
      ensures Head(Flat(closed, 0)[i]).offset < Head(Flat(closed, 0)[j]).offset
    {
      assert all[i] == Flat(closed, 0)[i] && all[j] == Flat(closed, 0)[j];
    }
  }

  lemma {:induction false} PartIsFlat(parts: seq<Part>, k: nat, i: nat)
    requires k <= i < |parts|
    ensures forall m | m in parts[i].records :: m in Flat(parts, k)
    decreases i - k
  {
    if k < i { PartIsFlat(parts, k + 1, i); }
  }

  /** What a pass over the closed segments leaves of one of them. */
  lemma PartStays(s: Store, closed: seq<Part>, active: Part, i: nat, latest: Latest<seq<byte>>)
    requires Holds(s, closed, active) && i < |closed| && IsLatest(Flat(closed, 0), Head, latest)
    ensures StayExactly(Flat(closed, 0), closed[i].records, KeptPart(closed[i], latest).records)
  {
    hide IsLatest, StayExactly, Flat;
    ClosedOrdered(s, closed, active);
    assert ClosedOk(s, closed[i]);
    PartIsFlat(closed, 0, i);
    SurvivorsStay(Flat(closed, 0), latest, closed[i].records);
  }

  /** Every segment is as it was, or rewritten with exactly what must stay. */
  ghost predicate PartsStay(before: seq<Part>, after: seq<Part>, n: nat) {
    && |after| == |before|
    && forall i | 0 <= i < |before| ::
         && after[i].base == before[i].base && after[i].next == before[i].next
         && if i < n then StayExactly(Flat(before, 0), before[i].records, after[i].records) else after[i] == before[i]
  }

  lemma KeptFirstStays(s: Store, closed: seq<Part>, active: Part, n: nat, latest: Latest<seq<byte>>)
    requires Holds(s, closed, active) && n <= |closed| && IsLatest(Flat(closed, 0), Head, latest)
    ensures PartsStay(closed, KeptFirst(closed, n, latest), n)
  {
    hide Holds, IsLatest, StayExactly, Flat, Kept;
    forall i: nat | i < n ensures StayExactly(Flat(closed, 0), closed[i].records, KeptPart(closed[i], latest).records) {
      PartStays(s, closed, active, i, latest);
    }
  }

  lemma NothingStays(closed: seq<Part>)
    ensures PartsStay(closed, closed, 0)
  {
  }

  lemma AllStay(s: Store, closed: seq<Part>, active: Part, latest: Latest<seq<byte>>)
    requires Holds(s, closed, active) && IsLatest(Flat(closed, 0), Head, latest)
    ensures StayExactly(Flat(closed, 0), Flat(closed, 0), Flat(KeptFirst(closed, |closed|, latest), 0))
  {
    hide Holds, IsLatest, StayExactly, Flat, KeptFirst;
    ClosedOrdered(s, closed, active);
    KeptFirstAll(closed, latest);
    SurvivorsStay(Flat(closed, 0), latest, Flat(closed, 0));
  }

  method Messages(frames: seq<ScannedFrame>, ghost ms: seq<DiskMessage>) returns (r: seq<DiskMessage>)
    requires FramesOf(frames, ms)
    ensures r == ms
  {
    r := seq(|frames|, i requires 0 <= i < |frames| => frames[i].message);
  }

  // ---------------------------------------------------------------------------------------------
  // A compacted range from the leader

  method ValidateCompactedReplicaRange(start: nat, end: nat, batch: seq<DiskMessage>) returns (ok: bool)
    ensures ok <==> start < end && Ascending(batch) && Within(batch, start, end)
  {
    if end <= start { return false; }
    for i := 0 to |batch|
      invariant Ascending(batch[..i]) && Within(batch[..i], start, end)
    {
      assert batch[i] in batch && batch[..i + 1] == batch[..i] + [batch[i]];
      if batch[i].offset < start || batch[i].offset >= end { return false; }
      if i > 0 && batch[i].offset <= batch[i - 1].offset { return false; }
      forall j | 0 <= j < i ensures batch[j].offset < batch[i].offset {
        assert batch[..i][j] == batch[j] && batch[..i][i - 1] == batch[i - 1];
      }
    }
    assert batch[..|batch|] == batch;
    return true;
  }

  /** The staged log and index files of a range. */
  method StageRange(batch: seq<DiskMessage>, interval: nat) returns (r: Option<(seq<byte>, seq<IndexEntry>)>)
    requires interval > 0
    ensures r.Some? <==> AllStorable(batch)
    ensures r.Some? ==> r.value.0 == Log(batch) && IndexNames(r.value.1, batch) && Spread(r.value.1, batch, interval)
  {
    hide Log, Frame, Storable, Spread;
    NothingSpread(interval);
    var log: seq<byte>, index: seq<IndexEntry>, lastIndexed := [], [], 0;
    LogNothing();
    for i := 0 to |batch|
      invariant AllStorable(batch[..i]) && log == Log(batch[..i]) && IndexNames(index, batch[..i])
      invariant lastIndexed == LastPosition(index) <= |log| && Spread(index, batch[..i], interval)
    {
      assert batch[i] in batch && batch[..i + 1] == batch[..i] + [batch[i]];
      var frame := FrameBytes(batch[i]);
      if frame.None? { return None; }
      NamesSnoc(index, batch[..i], batch[i]);
      SpreadSnoc(index, batch[..i], batch[i], interval);
      LogSnoc(batch[..i], batch[i]);
      if |log| - lastIndexed >= interval {
        index := index + [IndexEntry(batch[i].offset, |log|)];
        lastIndexed := |log|;
      }
      log := log + frame.value;
    }
    assert batch[..|batch|] == batch;
    return Some((log, index));
  }

  lemma BatchNext(before: seq<DiskMessage>, batch: seq<DiskMessage>, base: nat, i: nat)
    requires i < |batch| && Contiguous(batch, base) && AllStorable(batch)
    ensures Storable(batch[i]) && batch[i].offset == base + i
    ensures before + batch[..i + 1] == before + batch[..i] + [batch[i]]
    ensures Log(batch[..i + 1]) == Log(batch[..i]) + Frame(batch[i])
  {
    hide Log, Frame, Storable;
    assert batch[i] in batch && batch[..i + 1] == batch[..i] + [batch[i]];
    LogSnoc(batch[..i], batch[i]);
  }

  class DiskLog {
    const segmentSize: nat
    const indexSize: nat
    const indexInterval: nat

    var logs: map<nat, seq<byte>>
    var indexes: map<nat, seq<IndexEntry>>
    var compacted: map<nat, nat>
    var segments: seq<nat>
    var current: nat
    var size: nat
    var end: nat
    var lastIndexed: nat
    ghost var closed: seq<Part>
    ghost var active: Part

    ghost function Now(): Store
      reads this
    {
      Store(logs, indexes, compacted, segments, current, size, end, lastIndexed)
    }

    ghost predicate Valid()
      reads this
    {
      Holds(Now(), closed, active)
    }

    /** The log as a plain sequence. */
    ghost function Records(): seq<DiskMessage>
      reads this
    {
      Retained(closed, active)
    }

    /** The entries written to the active index. */
    function ActiveIndex(): seq<IndexEntry>
      reads this
    {
      if current in indexes then indexes[current] else []
    }

    /** The mapped part of the active index covers every entry. */
    predicate IndexFits()
      reads this
    {
      ENTRY_SIZE * |ActiveIndex()| <= indexSize
    }

    /** The entries of the active segment are an interval or more apart, and no record is further from one. */
    ghost predicate IndexSpread()
      reads this
    {
      Spread(ActiveIndex(), active.records, Interval())
    }

    function Interval(): nat
      ensures Interval() > 0
    {
      if indexInterval == 0 then 4096 else indexInterval
    }

    constructor (segmentSize: nat, indexSize: nat, indexInterval: nat)
      ensures Valid() && Records() == [] && end == 0 && segments == [0] && closed == [] && size == 0
      ensures IndexFits() && ActiveIndex() == [] && IndexSpread()
      ensures this.segmentSize == segmentSize && this.indexSize == indexSize && this.indexInterval == indexInterval
      ensures Interval() == if indexInterval > 0 then indexInterval else 4096
    {
      this.segmentSize, this.indexSize, this.indexInterval := segmentSize, indexSize, indexInterval;
      logs, indexes, compacted, segments := map[0 := []], map[0 := []], map[], [0];
      current, size, end, lastIndexed := 0, 0, 0, 0;
      closed, active := [], Part(0, [], 0);
      new;
      assert closed + [active] == [active];
      EmptyIsActive(Now(), 0);
      assert Flat([active], 0) == active.records + Flat([active], 1);
    }

    /** Takes over files and fields at once. */
    method Become(s: Store, ghost parts: seq<Part>, ghost last: Part)
      requires Holds(s, parts, last)
      modifies this
      ensures Valid() && Now() == s && closed == parts && active == last
    {
      hide Holds;
      logs, indexes, compacted, segments := s.logs, s.indexes, s.compacted, s.segments;
      current, size, end, lastIndexed := s.current, s.size, s.end, s.lastIndexed;
      closed, active := parts, last;
    }

    // -------------------------------------------------------------------------------------------
    // Writing

    /** Closes the active segment unless it is still empty. */
    method RotateSegment(next: nat)
      requires Valid() && next == end
      modifies this
      ensures Valid() && Records() == old(Records())
      ensures Now() == if old(size) == 0 then old(Now()) else Rotated(old(Now()))
      ensures closed == if old(size) == 0 then old(closed) else old(closed) + [old(active)]
      ensures ActiveIndex() == [] && size == 0 && lastIndexed == 0 && IndexSpread() && old(segments) <= segments
    {
      hide Holds, Spread;
      HoldsBasics(Now(), closed, active);
      NothingSpread(Interval());
      if next <= current && size == 0 { return; }
      RotateKeeps(Now(), closed, active);
      Become(Store(logs[next := []], indexes[next := []], compacted, segments + [next], next, 0, end, 0),
             closed + [active], Part(next, [], next));
    }

    /** Writes one record at the end of the active segment, with an index entry if it is due. */
    method AppendRecord(m: DiskMessage, frame: seq<byte>)
      requires Valid() && Storable(m) && frame == Frame(m) && m.offset == end
      modifies this
      ensures Valid() && Records() == old(Records()) + [m] && end == old(end) + 1 && size == old(size) + |frame|
      ensures closed == old(closed) && segments == old(segments)
      ensures old(size) - old(lastIndexed) >= Interval() ==>
                ActiveIndex() == old(ActiveIndex()) + [IndexEntry(m.offset, old(size))] && lastIndexed == old(size)
      ensures old(size) - old(lastIndexed) < Interval() ==>
                ActiveIndex() == old(ActiveIndex()) && lastIndexed == old(lastIndexed)
      ensures old(IndexSpread()) ==> IndexSpread()
    {
      hide Holds, Spread, Frame, Storable, Retained;
      HoldsBasics(Now(), closed, active);
      HoldsActive(Now(), closed, active);
      var due := size - lastIndexed >= Interval();
      var entry := if due then Some(IndexEntry(m.offset, size)) else None;
      AppendKeeps(Now(), closed, active, m, entry);
      if IndexSpread() { SpreadSnoc(ActiveIndex(), active.records, m, Interval()); }
      Become(Store(logs[current := logs[current] + frame],
                   if due then indexes[current := indexes[current] + [entry.value]] else indexes,
                   compacted, segments, current, size + |frame|, end + 1, if due then size else lastIndexed),
             closed, Grown(active, m));
    }

    /** Data or index might outgrow the segment. */
    predicate BatchRolls(total: nat)
      reads this
    {
      size + total > segmentSize || ENTRY_SIZE * |ActiveIndex()| + ENTRY_SIZE * (total / Interval() + 1) > indexSize
    }

    /**
     * Appends a batch, rolling first if the data or the index might outgrow the segment. A message the log cannot
     * hold rejects the whole batch.
     */
    method WriteBatch(batch: seq<DiskMessage>) returns (r: Result<()>)
      requires Valid() && Contiguous(batch, end)
      modifies this
      ensures Valid() && (r.Ok? <==> AllStorable(batch))
      ensures r.Ok? ==> Records() == old(Records()) + batch && end == old(end) + |batch|
      ensures r.Err? || batch == [] ==> Now() == old(Now()) && Records() == old(Records())
      ensures old(segments) <= segments
      ensures r.Ok? && batch != [] ==>
                var total := |Log(batch)|;
                var entries := |old(ActiveIndex())| + total / Interval() + 1;
                closed == if old(size) > 0 && (old(size) + total > segmentSize || ENTRY_SIZE * entries > indexSize)
                          then old(closed) + [old(active)] else old(closed)
      ensures r.Ok? && batch != [] ==> size <= segmentSize || size == |Log(batch)|
      ensures r.Ok? && batch != [] && ENTRY_SIZE * (|Log(batch)| / Interval() + 1) <= indexSize ==> IndexFits()
      ensures old(IndexSpread()) ==> IndexSpread()
    {
      hide Holds, Storable, Frame, LogFrom, Spread;
      if batch == [] { return Ok(()); }
      HoldsBasics(Now(), closed, active);
      var frames, total := SerializeBatch(batch);
      if frames.None? { return Err("serialize failed"); }
      if BatchRolls(total) {
        RotateSegment(batch[0].offset);
      }
      WriteFrames(batch, frames.value);
      return Ok(());
    }

    method WriteFrames(batch: seq<DiskMessage>, frames: seq<seq<byte>>)
      requires Valid() && Contiguous(batch, end) && AllStorable(batch) && batch != []
      requires |frames| == |batch| && forall i | 0 <= i < |batch| :: frames[i] == Frame(batch[i])
      modifies this
      ensures Valid() && Records() == old(Records()) + batch && end == old(end) + |batch|
      ensures closed == old(closed) && segments == old(segments)
      ensures size == old(size) + |Log(batch)| && old(ActiveIndex()) <= ActiveIndex()
      ensures |ActiveIndex()| <= |old(ActiveIndex())| + |Log(batch)| / Interval() + 1
      ensures old(IndexSpread()) ==> IndexSpread()
    {
      hide Storable, Frame, Log, Spaced, Contiguous, AllStorable, Valid, Records, IndexSpread;
      ghost var before, start, n := Records(), size, |ActiveIndex()|;
      LogNothing();
      SpacedNone(Interval(), start, lastIndexed, size);
      for i := 0 to |batch|
        invariant Valid() && Records() == before + batch[..i] && end == old(end) + i
        invariant size == start + |Log(batch[..i])|
        invariant closed == old(closed) && segments == old(segments) && (old(IndexSpread()) ==> IndexSpread())
        invariant old(ActiveIndex()) <= ActiveIndex()
        invariant Spaced(|ActiveIndex()| - n, Interval(), start, lastIndexed, size)
      {
        BatchNext(before, batch, old(end), i);
        FrameSize(batch[i]);
        SpacedNext(|ActiveIndex()| - n, Interval(), start, lastIndexed, size, size + |frames[i]|);
        AppendRecord(batch[i], frames[i]);
      }
      assert batch[..|batch|] == batch;
      SpacedFew(|ActiveIndex()| - n, Interval(), start, lastIndexed, size);
    }

    /** The record, or the index entry due for it, does not fit. */
    predicate DirectRolls(total: nat)
      reads this
    {
      size + total > segmentSize || (size - lastIndexed >= Interval() && ENTRY_SIZE * (|ActiveIndex()| + 1) > indexSize)
    }

    /** Appends one message, rolling first if the data or a due index entry does not fit. */
    method WriteDirect(m: DiskMessage) returns (r: Result<()>)
      requires Valid() && m.offset == end
      modifies this
      ensures Valid() && (r.Ok? <==> Storable(m))
      ensures r.Ok? ==> Records() == old(Records()) + [m] && end == old(end) + 1
      ensures r.Err? ==> Now() == old(Now()) && Records() == old(Records())
      ensures r.Ok? ==>
                var due := old(size) - old(lastIndexed) >= Interval();
                var entries := |old(ActiveIndex())| + 1;
                closed == if old(size) > 0 && (old(size) + |Frame(m)| > segmentSize
                                               || (due && ENTRY_SIZE * entries > indexSize))
                          then old(closed) + [old(active)] else old(closed)
      ensures r.Ok? ==> size <= segmentSize || size == |Frame(m)|
      ensures old(IndexFits()) ==> IndexFits()
      ensures old(segments) <= segments && (old(IndexSpread()) ==> IndexSpread())
    {
      hide Holds, Storable, Frame, LogFrom, Retained, Spread;
      var frame := FrameBytes(m);
      if frame.None? { return Err("serialize failed"); }
      HoldsBasics(Now(), closed, active);
      if DirectRolls(|frame.value|) {
        RotateSegment(m.offset);
      }
      AppendRecord(m, frame.value);
      return Ok(());
    }

    // -------------------------------------------------------------------------------------------
    // Reading

    /** The segment that covers `offset`: the last one based at or below it. */
    method FindSegmentForOffset(offset: nat) returns (r: Result<nat>)
      requires Valid()
      ensures r.Ok? <==> |segments| > 0 && segments[0] <= offset <= end
      ensures r.Ok? ==>
                r.value < |segments| && segments[r.value] <= offset
                && (r.value + 1 < |segments| ==> offset < segments[r.value + 1])
      ensures r.Ok? ==> (r.value == |closed| <==> current <= offset)
    {
      hide Holds, Rising, Bases;
      SegmentsIncrease(Now(), closed, active);
      HoldsBasics(Now(), closed, active);
      if offset < segments[0] || offset > end { return Err("offset out of range"); }
      if offset >= current { return Ok(|segments| - 1); }
      var k := SearchAbove(segments, offset);
      return Ok(k - 1);
    }

    /** The records of the segment with number `i`. */
    ghost function PartAt(i: nat): Part
      reads this
    {
      if i < |closed| then closed[i] else active
    }

    /** Where a read of `offset` starts in segment `i`. */
    method FindPosition(i: nat, offset: nat) returns (r: Result<nat>)
      requires Valid() && i < |segments|
      ensures r.Ok? ==> ReadableFrom(PartAt(i).records, r.value, offset)
      ensures IndexFits() || i < |closed| ==> r.Ok?
      ensures i == |closed| && (forall e | e in ActiveIndex() :: e.offset <= offset) ==> (r.Ok? <==> IndexFits())
    {
      hide Holds;
      SegmentBasics(Now(), closed, active, i, PartAt(i));
      OnlyActiveIsCurrent(Now(), closed, active, i);
      var base := segments[i];
      if base == current {
        r := FindOffsetPosition(logs[base], indexes[base], |indexes[base]|, indexSize / ENTRY_SIZE, offset,
                                PartAt(i).records);
      } else if base !in indexes {
        ZeroIsReadable(PartAt(i).records, offset);
        return Ok(0);
      } else {
        var n := IndexValidEntries(indexes[base]);
        r := FindOffsetPosition(logs[base], indexes[base], n, |indexes[base]|, offset, PartAt(i).records);
      }
    }

    method ReadSegment(i: nat, position: nat, max: nat, offset: nat) returns (r: Result<seq<DiskMessage>>)
      requires Valid() && i < |segments| && ReadableFrom(PartAt(i).records, position, offset)
      ensures r == Ok(Select(PartAt(i).records, offset, max))
    {
      hide Holds;
      SegmentBasics(Now(), closed, active, i, PartAt(i));
      var base := segments[i];
      var data := logs[base];
      if data == [] {
        LogEmpty(PartAt(i).records);
        return Ok([]);
      }
      var gaps := base != current && base in compacted && compacted[base] == |data|;
      ghost var past, rest :| PartAt(i).records == past + rest && position == |Log(past)| && AllBelow(past, offset);
      LaidFrom(data, past, rest);
      SkipRecords(past, rest, offset, max);
      r := ReadMessagesFromPosition(data, position, max, offset, base, base == current, gaps, past, rest, []);
    }

    /** Reads on from segment `target`, starting there at byte `position`. */
    method ReadFrom(target: nat, position: nat, from: nat, max: nat) returns (r: Result<seq<DiskMessage>>)
      requires Valid() && target < |segments| && ReadableFrom(PartAt(target).records, position, from)
      ensures r == Ok(Select(Flat(closed + [active], target), from, max))
    {
      hide Holds, Gathered, Select, Flat, AllReadOk, ReadableFrom, Bases;
      ghost var parts, result := closed + [active], Select(Flat(closed + [active], target), from, max);
      SegmentsIncrease(Now(), closed, active);
      HoldsIsReadable(Now(), closed, active);
      GatherStarts(parts, target, from, max);
      var offset: nat, messages: seq<DiskMessage>, start: nat := from, [], position;
      for j := target to |segments|
        invariant |messages| <= max && Gathered(parts, j, offset, max, messages, result)
        invariant j < |segments| ==> ReadableFrom(PartAt(j).records, start, offset)
      {
        var batch := ReadSegment(j, start, max - |messages|, offset);
        assert PartAt(j) == parts[j];
        GatherSegment(parts, j, offset, max, messages, result, batch.value);
        if batch.value != [] {
          ghost var last := batch.value[|batch.value| - 1];
          GatherLast(parts[j].records, offset, max - |messages|, last);
          GatherMoves(Now(), parts, j, offset, max, messages + batch.value, result, last);
          offset := batch.value[|batch.value| - 1].offset + 1;
        }
        messages := messages + batch.value;
        if |messages| >= max {
          GatherEnds(parts, j + 1, offset, max, messages, result);
          return Ok(messages);
        }
        start := 0;
        ZeroIsReadable(PartAt(j + 1).records, offset);
      }
      GatherEnds(parts, |segments|, offset, max, messages, result);
      return Ok(messages);
    }

    /** The first `max` retained records at or after `from`, for every offset the log covers. */
    method ReadMessages(from: nat, max: nat) returns (r: Result<seq<DiskMessage>>)
      requires Valid()
      ensures max == 0 ==> r == Ok([])
      ensures max > 0 && r.Ok? ==>
                r.value == Select(Records(), from, max) && segments != [] && segments[0] <= from <= end
      ensures max > 0 && IndexFits() && segments != [] && segments[0] <= from <= end ==> r.Ok?
      ensures max > 0 && segments != [] && segments[0] <= from < current ==> r.Ok?
      ensures max > 0 && from == end ==> (r.Ok? <==> IndexFits())
    {
      hide Holds, Flat, AllReadOk, ReadableFrom, Bases, Linked, Select;
      EndIsPastTheIndex(Now(), closed, active);
      if max == 0 { return Ok([]); }
      var found := FindSegmentForOffset(from);
      if found.Err? { return Err(found.reason); }
      var target := found.value;
      var position := FindPosition(target, from);
      if position.Err? { return Err(position.reason); }
      r := ReadFrom(target, position.value, from, max);
      SegmentBasics(Now(), closed, active, target, PartAt(target));
      HoldsIsReadable(Now(), closed, active);
      SkipSegments(Now(), closed + [active], target, 0, from, max);
    }

    // -------------------------------------------------------------------------------------------
    // Truncation

    /** The segment that would become the active one is a compacted one. */
    predicate TargetIsCompacted(n: nat)
      reads this
    {
      exists i | 0 <= i < |segments| ::
        segments[i] in compacted && segments[i] <= n && (i + 1 < |segments| ==> n < segments[i + 1])
    }

    /**
     * Drops exactly the records at or after `n`. Refused while readers are active, beyond either end of the log, and
     * when the segment to cut is a compacted one.
     */
    method TruncateTo(n: nat, readers: nat) returns (r: Result<()>)
      requires Valid()
      modifies this
      ensures Valid()
      ensures r.Ok? <==>
                readers == 0 && n <= old(end) && (n < old(end) ==> old(segments[0] <= n && !TargetIsCompacted(n)))
      ensures r.Ok? ==> end == n && DropsFrom(old(Records()), n, Records())
      ensures r.Err? || n == old(end) ==> Now() == old(Now()) && Records() == old(Records())
      ensures r.Ok? && n < old(end) ==> ActiveIndex() == [] && lastIndexed == 0
      ensures segments != [] && segments <= old(segments) && (old(IndexFits()) ==> IndexFits())
    {
      hide Holds, DropsFrom, Retained, Bases, Linked;
      SegmentsIncrease(Now(), closed, active);
      if readers != 0 { return Err("active readers"); }
      if n > end { return Err("ahead of durable tail"); }
      if n == end {
        NothingToDrop(Now(), closed, active);
        return Ok(());
      }
      if n < segments[0] { return Err("precedes retained offset"); }
      var t := LastAtOrBelow(segments, n);
      if segments[t] in compacted { return Err("cannot truncate compacted segment"); }
      CutSegment(t, n);
      return Ok(());
    }

    method CutSegment(t: nat, n: nat)
      requires Valid() && t < |segments| && segments[t] <= n < end && (t + 1 < |segments| ==> n < segments[t + 1])
      requires segments[t] !in compacted
      modifies this
      ensures Valid() && end == n && DropsFrom(old(Records()), n, Records())
      ensures ActiveIndex() == [] && lastIndexed == 0 && segments == old(segments)[..t + 1]
    {
      hide Holds, DropsFrom, Retained, Flat, Log, Frame, Storable, AllStorable, AllBelow, AllFrom, Later, Above, Bases,
           Linked, Replace, PassedBelow, StartsFrom;
      ghost var parts := closed + [active];
      ghost var front, back := CutPlan(Now(), closed, active, t, n);
      var target := segments[t];
      var position := FindTruncatePosition(logs[target], n, front, back);
      var removed := Above(segments, target);
      RemovedAreLater(Now(), closed, active, t, removed);
      TruncateKeeps(Now(), closed, active, parts, t, n, front, back, removed);
      var kept := logs[target][..position.value];
      var cutLogs, cutIndexes := Replace(logs, removed, target, kept), Replace(indexes, removed, target, []);
      ReplaceIsThere(indexes, removed, target, []);
      Become(Store(cutLogs, cutIndexes, compacted - removed, segments[..t + 1], target, position.value, n, 0),
             parts[..t], Part(target, front, n));
    }

    // -------------------------------------------------------------------------------------------
    // Restart

    /** What start-up recovery makes of the active log and index files found. */
    method RecoverFiles(cut: nat, indexed: nat, strict: bool)
      returns (r: Result<nat>, kept: seq<byte>, index: seq<IndexEntry>, last: nat, ghost front: seq<DiskMessage>,
          ghost back: seq<DiskMessage>)
      requires Valid() && cut <= size && indexed <= |ActiveIndex()|
      ensures active.records == front + back && front == KeptRecords(active.records, cut)
      ensures (cut == size ==> front == active.records)
      ensures r.Err? <==> strict && CutTail(active.records, current, cut).partial
      ensures cut == size ==> r.Ok?
      ensures r.Ok? ==> kept == Log(front) && r.value == current + |front|
      ensures r.Ok? ==>
                index <= ActiveIndex() && Increasing(index) && Below(index, |Log(front)|) && last == LastPosition(index)
      ensures r.Ok? && cut == size && indexed == |ActiveIndex()| && IndexFits() ==> index == ActiveIndex()
      ensures r.Ok? ==> ENTRY_SIZE * |index| <= indexSize
    {
      hide Holds, TrueIndex, Log, Honest, TailAt, CutOf, CutTail, Whole, KeptRecords, Increasing, Below;
      HoldsActive(Now(), closed, active);
      var data, found := logs[current][..cut], ActiveIndex()[..indexed];
      front, back := ReopenPlan(Now(), closed, active, cut, found);
      var tail;
      tail, kept := RecoverCut(data, found, current, strict, active.records, cut);
      if tail.Err? { return Err(tail.reason), kept, [], 0, front, back; }
      var n;
      n, last := ValidIndexPrefix(found, indexSize / ENTRY_SIZE, |kept|);
      if cut == size && indexed == |ActiveIndex()| && IndexFits() {
        ReopenSame(Now(), closed, active, found, indexSize / ENTRY_SIZE, n);
      }
      return Ok(tail.value.nextOffset), kept, found[..n], last, front, back;
    }

    /**
     * A restart that finds the first `cut` bytes of the active log and the first `indexed` entries of its index. The
     * whole records before the cut are back, and nothing after them; strict mode refuses a torn one.
     */
    method Reopen(cut: nat, indexed: nat, strict: bool) returns (r: Result<()>)
      requires Valid() && cut <= size && indexed <= |ActiveIndex()|
      modifies this
      ensures r.Err? <==> strict && CutTail(old(active).records, old(current), cut).partial
      ensures r.Ok? ==> Valid() && closed == old(closed) && active.records == KeptRecords(old(active).records, cut)
      ensures r.Ok? ==> end == current + |active.records| && Records() <= old(Records())
      ensures r.Ok? ==> end <= old(end) && DropsFrom(old(Records()), end, Records())
      ensures cut == old(size) && indexed == |old(ActiveIndex())| && old(IndexFits()) ==> r.Ok? && Now() == old(Now())
      ensures segments == old(segments) && (r.Ok? ==> IndexFits())
      ensures r.Ok? ==> ActiveIndex() <= old(ActiveIndex()) && lastIndexed == LastPosition(ActiveIndex())
      ensures r.Err? ==> Now() == old(Now()) && closed == old(closed) && active == old(active)
    {
      hide Holds, Retained, Flat, Log, LogFrom, CutTail, KeptRecords, Increasing, Below, DropsFrom;
      var next, kept, index, last, front, back := RecoverFiles(cut, indexed, strict);
      if next.Err? { return Err(next.reason); }
      HoldsActive(Now(), closed, active);
      ReopenKeeps(Now(), closed, active, front, back, index);
      CutDrops(Now(), closed, active, front, back);
      Become(Store(logs[current := kept], indexes[current := index], compacted, segments, current,
                   |kept|, next.value, last),
             closed, Part(active.base, front, active.base + |front|));
      return Ok(());
    }

    // -------------------------------------------------------------------------------------------
    // Compaction

    /** The records of the closed segments. */
    ghost function ClosedRecords(): seq<DiskMessage>
      reads this
    {
      Flat(closed, 0)
    }

    method ScanClosed() returns (scans: seq<seq<ScannedFrame>>, all: seq<DiskMessage>)
      requires Valid()
      ensures |scans| == |closed| && forall i | 0 <= i < |closed| :: FramesOf(scans[i], closed[i].records)
      ensures all == ClosedRecords() && |segments| == |closed| + 1
    {
      hide Holds, FramesOf, Sound, Log;
      SegmentsIncrease(Now(), closed, active);
      scans, all := [], [];
      for i := 0 to |segments| - 1
        invariant |scans| == i && forall j | 0 <= j < i :: FramesOf(scans[j], closed[j].records)
        invariant all + Flat(closed, i) == ClosedRecords()
      {
        SegmentBasics(Now(), closed, active, i, closed[i]);
        var base := segments[i];
        var gaps := base != current && base in compacted && compacted[base] == |logs[base]|;
        var scan := ScanCompactionSegment(logs[base], base, gaps, closed[i].records);
        scans := scans + [scan.value];
        Assoc(all, closed[i].records, Flat(closed, i + 1));
        var messages := Messages(scan.value, closed[i].records);
        all := all + messages;
      }
      assert all + [] == all;
    }

    /**
     * Rewrites one closed segment without its superseded records. `outcome` is how putting the files in place goes:
     * readers may have appeared, the marker or the log could not be replaced, or the log is replaced but the old
     * index file stays.
     */
    method CompactClosedSegment(i: nat, latest: Latest<seq<byte>>, outcome: Swap)
      requires Valid() && i < |closed| && |segments| == |closed| + 1
      requires outcome.IndexLost? ==> IndexServes(Now(), closed[i].base, None, Kept(closed[i].records, latest))
      modifies this
      ensures Valid() && active == old(active) && end == old(end) && segments == old(segments)
      ensures current == old(current)
      ensures closed == if outcome.ReadersActive? || outcome.NotReplaced? then old(closed)
                        else old(closed)[i := KeptPart(old(closed)[i], latest)]
      ensures outcome.ReadersActive? || outcome.NotReplaced? ==> Now() == old(Now())
      ensures (outcome.Swapped? || outcome.IndexLost?) && IsLatest(old(ClosedRecords()), Head, latest) ==>
                StayExactly(old(ClosedRecords()), old(closed)[i].records, closed[i].records)
      ensures ActiveIndex() == old(ActiveIndex())
      ensures forall b | b in indexes && b != old(closed)[i].base :: b in old(indexes) && indexes[b] == old(indexes)[b]
    {
      hide Holds, FramesOf, Sound, Log, Kept, IndexNames, Honest, AllStorable, Ascending, Within, StayExactly, IsLatest;
      if IsLatest(ClosedRecords(), Head, latest) { PartStays(Now(), closed, active, i, latest); }
      SegmentBasics(Now(), closed, active, i, closed[i]);
      var base := segments[i];
      var gaps := base != current && base in compacted && compacted[base] == |logs[base]|;
      var scan := ScanCompactionSegment(logs[base], base, gaps, closed[i].records);
      var log, index, removed := RewriteSegment(scan.value, latest, Interval(), closed[i].records);
      KeptWhole(closed[i], latest);
      OnlyActiveIsCurrent(Now(), closed, active, i);
      if removed == 0 || outcome.ReadersActive? || outcome.NotReplaced? { return; }
      var fresher := if outcome.IndexLost? then None else Some(index);
      CompactedPart(Now(), closed, active, i, latest, index);
      ReplaceKeeps(Now(), closed, active, i, Kept(closed[i].records, latest), fresher, KeptPart(closed[i], latest));
      Become(Store(logs[base := log], if outcome.IndexLost? then indexes else indexes[base := index],
                   compacted[base := |log|], segments, current, size, end, lastIndexed),
             closed[i := KeptPart(closed[i], latest)], active);
    }

    /** The second scan: bytes in the closed segments, and the removable bytes of each. */
    method Evaluate(scans: seq<seq<ScannedFrame>>, latest: Latest<seq<byte>>) returns (before: nat, removable: nat,
                    bySegment: seq<nat>)
      requires Valid() && |scans| == |closed| && forall i | 0 <= i < |closed| :: FramesOf(scans[i], closed[i].records)
      ensures |bySegment| == |closed| && before == LogBytes(closed, |closed|)
      ensures removable == before - KeptBytes(closed, latest, |closed|)
      ensures forall i | 0 <= i < |closed| :: bySegment[i] == 0 <==> KeptPart(closed[i], latest) == closed[i]
      ensures removable == 0 <==> forall i | 0 <= i < |closed| :: bySegment[i] == 0
    {
      hide Holds, FramesOf, Sound, Log, Kept;
      SegmentsIncrease(Now(), closed, active);
      before, removable, bySegment := 0, 0, [];
      for i := 0 to |scans|
        invariant |bySegment| == i && removable <= before == LogBytes(closed, i)
        invariant KeptBytes(closed, latest, i) == before - removable
        invariant forall j | 0 <= j < i :: bySegment[j] == 0 <==> KeptPart(closed[j], latest) == closed[j]
        invariant removable == 0 <==> forall j | 0 <= j < i :: bySegment[j] == 0
      {
        ClosedStorable(Now(), closed, active, i);
        var b, r := RemovableBytes(scans[i], latest, closed[i].records);
        before, removable, bySegment := before + b, removable + r, bySegment + [r];
      }
    }

    /**
     * One compaction pass. A completed pass leaves of the closed segments exactly the survivors, and a pass that
     * stops half-way has rewritten a first part of them; the active segment is never touched.
     */
    method EnforceCompaction(enabled: bool, readers: nat, ratio: real, outcome: nat -> Swap) returns (r: Result<Pass>)
      requires Valid()
      requires forall i | 0 <= i < |closed| && outcome(i).IndexLost? ::
                 IndexServes(Now(), closed[i].base, None, Kept(closed[i].records, LatestOf(ClosedRecords(), Head)))
      modifies this
      ensures Valid() && active == old(active) && end == old(end) && segments == old(segments)
      ensures ActiveIndex() == old(ActiveIndex())
      ensures exists n | 0 <= n <= |old(closed)| ::
                closed == KeptFirst(old(closed), n, LatestOf(old(ClosedRecords()), Head))
                && PartsStay(old(closed), closed, n)
      ensures Records() == ClosedRecords() + active.records
      ensures r == Ok(Completed) ==>
                StayExactly(old(ClosedRecords()), old(ClosedRecords()), ClosedRecords())
      ensures r == Ok(Completed) ==>
                Records() == Survivors(old(ClosedRecords()), Head,
                    LatestOf(old(ClosedRecords()), Head)) + active.records
      ensures r.Ok? && r.value.Skipped? ==> Now() == old(Now()) && closed == old(closed)
      ensures (r.Ok? && r.value.Skipped?) <==>
                !(enabled && readers == 0 && WorthCompacting(old(closed), LatestOf(old(ClosedRecords()), Head), ratio))
      ensures !(r.Ok? && r.value.Skipped?) && (forall i | 0 <= i < |old(closed)| :: outcome(i).Swapped?) ==>
                r == Ok(Completed)
    {
      hide Holds, FramesOf, Sound, Log, Kept, IndexServes, LatestOf, Survivors, Flat, KeptFirst, IsLatest, PartsStay;
      KeptFirstNone(closed, LatestOf(ClosedRecords(), Head));
      NothingStays(closed);
      FlatSnoc(closed, active, 0);
      if !enabled { return Ok(Skipped("policy_disabled")); }
      if readers > 0 { return Ok(Skipped("active_readers")); }
      var scans, all := ScanClosed();
      if |scans| == 0 { return Ok(Skipped("no_closed_segments")); }
      ClosedOrdered(Now(), closed, active);
      var latest := ScanLatest(all, Head);
      var before, removable, bySegment := Evaluate(scans, latest);
      if removable == 0 { return Ok(Skipped("no_superseded_records")); }
      if removable as real / before as real < DirtyRatio(ratio) { return Ok(Skipped("dirty_ratio")); }
      ghost var s := Now();
      r := RewriteClosed(latest, bySegment, outcome);
      FlatSnoc(closed, active, 0);
      ghost var n :| 0 <= n <= |old(closed)| && closed == KeptFirst(old(closed), n, latest);
      KeptFirstStays(s, old(closed), active, n, latest);
      if r == Ok(Completed) {
        KeptFirstAll(old(closed), latest);
        AllStay(s, old(closed), active, latest);
      }
    }

    method RewriteClosed(latest: Latest<seq<byte>>, bySegment: seq<nat>, outcome: nat -> Swap) returns (r: Result<Pass>)
      requires Valid() && |bySegment| == |closed| && |segments| == |closed| + 1
      requires forall i | 0 <= i < |closed| :: bySegment[i] == 0 <==> KeptPart(closed[i], latest) == closed[i]
      requires forall i | 0 <= i < |closed| && outcome(i).IndexLost? ::
                  IndexServes(Now(), closed[i].base, None, Kept(closed[i].records, latest))
      modifies this
      ensures Valid() && active == old(active) && end == old(end) && segments == old(segments)
      ensures ActiveIndex() == old(ActiveIndex())
      ensures exists n | 0 <= n <= |old(closed)| :: closed == KeptFirst(old(closed), n, latest)
      ensures r == Ok(Completed) ==> closed == KeptFirst(old(closed), |old(closed)|, latest)
      ensures r.Ok? ==> !r.value.Skipped?
      ensures (forall i | 0 <= i < |old(closed)| :: outcome(i).Swapped?) ==> r == Ok(Completed)
    {
      hide Holds, Kept, IndexServes;
      ghost var start := closed;
      KeptFirstNone(start, latest);
      for i := 0 to |bySegment|
        invariant Valid() && active == old(active) && end == old(end) && segments == old(segments)
        invariant ActiveIndex() == old(ActiveIndex())
        invariant closed == KeptFirst(start, i, latest)
        invariant forall j | i <= j < |start| && outcome(j).IndexLost? ::
                    IndexServes(Now(), start[j].base, None, Kept(start[j].records, latest))
      {
        KeptFirstNext(start, i, latest);
        if bySegment[i] != 0 {
          ghost var s, c := Now(), closed;
          CompactClosedSegment(i, latest, outcome(i));
          forall j | i < j < |start| && outcome(j).IndexLost?
            ensures IndexServes(Now(), start[j].base, None, Kept(start[j].records, latest))
          {
            KeptFirstLater(start, i, j, latest);
            ServesStill(s, c, active, i, j, Now(), Kept(start[j].records, latest));
          }
          if outcome(i) == ReadersActive { return Ok(Stopped); }
          if outcome(i) == NotReplaced { return Err("replace compacted segment"); }
          if outcome(i) == IndexLost { return Err("replace compacted index"); }
        }
      }
      return Ok(Completed);
    }

    // -------------------------------------------------------------------------------------------
    // A compacted range from the leader

    /**
     * Appends a committed range whose superseded offsets the leader has compacted away. The records keep their
     * offsets, and the end moves to the end of the range, also past offsets that hold no record.
     */
    method WriteCompactedReplicaRange(start: nat, endOffset: nat, batch: seq<DiskMessage>,
                                      readers: nat) returns (r: Result<()>)
      requires Valid()
      modifies this
      ensures Valid()
      ensures r.Ok? <==>
                start < endOffset && Ascending(batch) && Within(batch, start, endOffset) && readers == 0
                && start == old(end) && AllStorable(batch)
      ensures r.Ok? ==> Records() == old(Records()) + batch && end == endOffset
      ensures r.Ok? ==> ActiveIndex() == [] && size == 0 && lastIndexed == 0 && current == endOffset
      ensures r.Err? ==> Records() == old(Records()) && end == old(end)
      ensures old(segments) <= segments && (old(IndexFits()) ==> IndexFits())
    {
      hide Holds, Log, Frame, Storable, AllStorable, Retained, IndexNames, Honest, Ascending, Within;
      var ok := ValidateCompactedReplicaRange(start, endOffset, batch);
      if !ok { return Err("invalid compacted replica range"); }
      if readers > 0 { return Err("compaction deferred while readers are active"); }
      if end != start { return Err("does not start at local tail"); }
      RotateSegment(start);
      var staged := StageRange(batch, Interval());
      if staged.None? { return Err("stage compacted replica range"); }
      PlaceRange(batch, staged.value.0, staged.value.1, endOffset);
      return Ok(());
    }

    /** The handler's fields once the staged range is in place of the empty active segment. */
    method PlaceRange(batch: seq<DiskMessage>, log: seq<byte>, index: seq<IndexEntry>, endOffset: nat)
      requires Valid() && size == 0 && end < endOffset && AllStorable(batch) && Ascending(batch)
      requires Within(batch, end, endOffset)
      requires log == Log(batch) && IndexNames(index, batch)
      modifies this
      ensures Valid() && Records() == old(Records()) + batch && end == endOffset
      ensures ActiveIndex() == [] && size == 0 && lastIndexed == 0 && current == endOffset && old(segments) <= segments
    {
      hide Holds, Log, AllStorable, Retained, IndexNames, Honest, Ascending, Within;
      HoldsActive(Now(), closed, active);
      HoldsBasics(Now(), closed, active);
      IndexNamesIsHonest(index, batch, log);
      RangeKeeps(Now(), closed, active, batch, index, endOffset);
      Become(Store(logs[current := log][endOffset := []], indexes[current := index][endOffset := []],
                   compacted[current := |log|], segments + [endOffset], endOffset, 0, endOffset, 0),
             closed + [Part(end, batch, endOffset)], Part(endOffset, [], endOffset));
    }
  }
}
