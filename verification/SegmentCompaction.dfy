/**
 * Scanning and rewriting one closed segment (scanCompactionSegment and compactClosedSegment, pkg/disk/compaction.go).
 */
module SegmentCompaction {
  import opened Common
  import opened Bytes
  import opened RecordCodec
  import opened Frames
  import opened Index
  import opened LogReader
  import opened SegmentStore
  import opened Filtering
  import opened Compaction

  predicate HasTransactionMetadata(m: DiskMessage) {
    || m.transactionalId != [] || m.transactionState != [] || m.transactionMarker != [] || m.controlType != []
    || m.controlVersion != 0 || m.controlEpoch != 0 || m.controlKey != [] || m.controlValue != []
  }

  /** What compaction looks at. */
  function Head(m: DiskMessage): Header<seq<byte>> {
    Header(m.offset,
           if m.key != [] && !HasTransactionMetadata(m) then Some(m.key) else None,
           if m.producerId != [] then Some(m.producerId) else None)
  }

  datatype ScannedFrame = ScannedFrame(message: DiskMessage, raw: seq<byte>)

  ghost predicate FramesOf(frames: seq<ScannedFrame>, ms: seq<DiskMessage>) {
    |frames| == |ms| && forall i | 0 <= i < |ms| :: frames[i] == ScannedFrame(ms[i], Frame(ms[i]))
  }

  lemma ScanStep(data: seq<byte>, pos: nat, base: nat, gaps: bool, before: seq<DiskMessage>, after: seq<DiskMessage>,
                 prev: Previous, r: FrameRead)
    requires Well(data, pos, base, false, gaps, before, after, []) && Remembers(prev, before) && pos <= |data|
    requires ReadsAs(data[pos..], pos, r)
    ensures after == [] ==> r == End
    ensures after != [] ==> r == Found(after[0], pos + |Frame(after[0])|) && InOrder(prev, pos, after[0], base, gaps)
    ensures after != [] ==> Well(data, pos + |Frame(after[0])|, base, false, gaps, before + [after[0]], after[1..], [])
  {
    hide LogFrom, Frame, Storable;
    StorableRest(before, after);
    LaidReads(data, pos, before, after, [], r);
    if after != [] {
      HeadTail(after);
      SoundIsInOrder(before, after[0], after[1..], prev, pos, base, gaps);
      WellStep(data, pos, base, false, gaps, before, after[0], after[1..], []);
    }
  }

  lemma ScanStarts(data: seq<byte>, base: nat, gaps: bool, ms: seq<DiskMessage>)
    requires data == Log(ms) && Sound(ms, base, gaps)
    ensures Well(data, 0, base, false, gaps, [], ms, [])
  {
    hide LogFrom, Sound;
    LogNothing();
    assert [] + ms == ms && [] + (Log(ms) + []) == Log(ms);
  }

  lemma RawFrame(data: seq<byte>, pos: nat, m: DiskMessage, next: nat)
    requires pos <= |data| && ReadsAs(data[pos..], pos, Found(m, next))
    ensures pos < next <= |data| && data[pos..next] == Frame(m) && next == pos + |Frame(m)|
    ensures Storable(m) && Frame(m) <= data[pos..]
  {
    FrameSize(m);
  }

  lemma EndOfBytes(data: seq<byte>, pos: nat, r: FrameRead)
    requires pos <= |data| && ReadsAs(data[pos..], pos, r) && r.End?
    ensures data[pos..] == []
  {
  }

  lemma WholeIsSound(data: seq<byte>, pos: nat, base: nat, gaps: bool, read: seq<DiskMessage>, prev: Previous)
    requires Reached(data, 0, pos, base, gaps, read, prev) && pos <= |data| && data[pos..] == []
    ensures data == Log(read) && Sound(read, base, gaps)
  {
    assert data[0..] == data;
  }

  /** Reads a whole segment; a torn, malformed or misordered record is an error, and nothing else is. */
  method ScanCompactionSegment(data: seq<byte>, base: nat, gaps: bool,
                               ghost ms: seq<DiskMessage>) returns (r: Result<seq<ScannedFrame>>)
    ensures data == Log(ms) && Sound(ms, base, gaps) ==> r.Ok? && FramesOf(r.value, ms)
    ensures r.Ok? ==> exists read :: data == Log(read) && Sound(read, base, gaps) && FramesOf(r.value, read)
  {
    hide Well, ReadsAs, Frame, Log, Sound, Reached, InOrder;
    ghost var read: seq<DiskMessage> := [];
    ReachedStarts(data, 0, base, gaps, 0, 0);
    ghost var good := data == Log(ms) && Sound(ms, base, gaps);
    ghost var before, after := [], ms;
    var frames: seq<ScannedFrame> := [];
    var pos, prev := 0, Nothing;
    if good { ScanStarts(data, base, gaps, ms); }
    while true
      invariant pos <= |data|
      invariant good ==>
                Well(data, pos, base, false, gaps, before, after, []) && Remembers(prev, before) && before + after == ms
                && FramesOf(frames, before)
      invariant Reached(data, 0, pos, base, gaps, read, prev) && FramesOf(frames, read)
      decreases |data| - pos
    {
      var frame := ReadFrame(data, pos);
      if good { ScanStep(data, pos, base, gaps, before, after, prev, frame); }
      if frame.End? {
        assert good ==> before == ms;
        EndOfBytes(data, pos, frame);
        WholeIsSound(data, pos, base, gaps, read, prev);
        return Ok(frames);
      }
      if !frame.Found? { return Err("invalid record"); }
      var m, next := frame.message, frame.next;
      if !InOrder(prev, pos, m, base, gaps) { return Err("offset out of order"); }
      RawFrame(data, pos, m, next);
      ReachedNext(data, 0, pos, base, gaps, read, m, prev);
      read, frames := read + [m], frames + [ScannedFrame(m, data[pos..next])];
      if good {
        assert before + after == (before + [m]) + after[1..];
        before, after := before + [m], after[1..];
      }
      pos, prev := next, At(m.offset);
    }
  }

  ghost predicate Tally(ms: seq<DiskMessage>, latest: Latest<seq<byte>>, before: nat, removable: nat) {
    && removable <= before == |Log(ms)| && |Log(Kept(ms, latest))| == before - removable && |Kept(ms, latest)| <= |ms|
    && (removable == 0 ==> Kept(ms, latest) == ms) && (removable > 0 ==> |Kept(ms, latest)| < |ms|)
  }

  lemma TallyNext(ms: seq<DiskMessage>, m: DiskMessage, latest: Latest<seq<byte>>, before: nat, removable: nat)
    requires Tally(ms, latest, before, removable) && Storable(m)
    ensures Tally(ms + [m], latest, before + |Frame(m)|,
        removable + if ShouldRemove(Head(m), latest) then |Frame(m)| else 0)
  {
    hide Log, Frame, Kept, ShouldRemove, Storable, Head;
    KeptSnoc(ms, m, latest);
    LogSnoc(ms, m);
    LogSnoc(Kept(ms, latest), m);
    FrameSize(m);
  }

  lemma NoTally(latest: Latest<seq<byte>>)
    ensures Tally([], latest, 0, 0)
  {
    KeptNothing(latest);
    LogNothing();
  }

  lemma TallyMeans(ms: seq<DiskMessage>, latest: Latest<seq<byte>>, before: nat, removable: nat)
    requires Tally(ms, latest, before, removable)
    ensures removable <= before == |Log(ms)| && |Log(Kept(ms, latest))| == before - removable
    ensures removable == 0 <==> Kept(ms, latest) == ms
  {
  }

  /** Bytes of a segment, and how many of them a pass could remove. */
  method RemovableBytes(frames: seq<ScannedFrame>, latest: Latest<seq<byte>>,
                        ghost ms: seq<DiskMessage>) returns (before: nat, removable: nat)
    requires FramesOf(frames, ms) && AllStorable(ms)
    ensures removable <= before == |Log(ms)| && |Log(Kept(ms, latest))| == before - removable
    ensures removable == 0 <==> Kept(ms, latest) == ms
  {
    hide Log, Frame, Kept, ShouldRemove, Storable, Head, Tally;
    before, removable := 0, 0;
    NoTally(latest);
    for i := 0 to |frames|
      invariant Tally(ms[..i], latest, before, removable)
    {
      assert ms[i] in ms && ms[..i + 1] == ms[..i] + [ms[i]];
      TallyNext(ms[..i], ms[i], latest, before, removable);
      before := before + |frames[i].raw|;
      if ShouldRemove(Head(frames[i].message), latest) { removable := removable + |frames[i].raw|; }
    }
    assert ms[..|ms|] == ms;
    TallyMeans(ms, latest, before, removable);
  }

  // ---------------------------------------------------------------------------------------------
  // Rewriting

  /** Every entry names a record by its offset and first byte. */
  ghost predicate IndexNames(index: seq<IndexEntry>, ms: seq<DiskMessage>) {
    forall e | e in index :: Names(e, ms)
  }

  ghost predicate Names(e: IndexEntry, ms: seq<DiskMessage>) {
    exists k | 0 <= k < |ms| :: ms[k].offset == e.offset && e.position == |Log(ms[..k])|
  }

  lemma IndexNamesIsHonest(index: seq<IndexEntry>, ms: seq<DiskMessage>, data: seq<byte>)
    requires IndexNames(index, ms)
    ensures Honest(index, data, ms)
  {
    forall e | e in index && Matches(data, e) ensures AtRecord(ms, e.position) {
      assert Names(e, ms);
    }
  }

  lemma NamesSnoc(index: seq<IndexEntry>, ms: seq<DiskMessage>, m: DiskMessage)
    requires IndexNames(index, ms)
    ensures IndexNames(index, ms + [m]) && Names(IndexEntry(m.offset, |Log(ms)|), ms + [m])
  {
    forall e | e in index ensures Names(e, ms + [m]) {
      assert Names(e, ms);
      var k :| 0 <= k < |ms| && ms[k].offset == e.offset && e.position == |Log(ms[..k])|;
      assert (ms + [m])[..k] == ms[..k];
    }
    assert (ms + [m])[|ms|] == m && (ms + [m])[..|ms|] == ms;
  }

  ghost function Kept(ms: seq<DiskMessage>, latest: Latest<seq<byte>>): seq<DiskMessage> {
    Survivors(ms, Head, latest)
  }

  lemma KeptSnoc(ms: seq<DiskMessage>, m: DiskMessage, latest: Latest<seq<byte>>)
    ensures Kept(ms + [m], latest) == if ShouldRemove(Head(m), latest) then Kept(ms, latest) else Kept(ms, latest) + [m]
  {
    var keep := Keeper(Head, latest);
    FilterConcat(ms, [m], keep);
    if keep(m) { FilterAll([m], keep); } else { FilterNone([m], keep); }
  }

  /** An entry, or the start of the log, lies less than an interval before the position. */
  ghost predicate Near(index: seq<IndexEntry>, p: nat, interval: nat) {
    p < interval || exists i | 0 <= i < |index| :: index[i].position <= p < index[i].position + interval
  }

  /** Entries are an interval or more apart, and no record starts an interval or more after the last entry before it. */
  ghost predicate Spread(index: seq<IndexEntry>, ms: seq<DiskMessage>, interval: nat) {
    && (forall i | 0 <= i < |index| :: index[i].position >= interval + LastPosition(index[..i]))
    && (forall k | 0 <= k < |ms| :: Near(index, |Log(ms[..k])|, interval))
  }

  lemma NearMore(index: seq<IndexEntry>, e: IndexEntry, p: nat, interval: nat)
    requires Near(index, p, interval)
    ensures Near(index + [e], p, interval)
  {
    if p >= interval {
      var i :| 0 <= i < |index| && index[i].position <= p < index[i].position + interval;
      assert (index + [e])[i] == index[i];
    }
  }

  lemma SpreadSnoc(index: seq<IndexEntry>, ms: seq<DiskMessage>, m: DiskMessage, interval: nat)
    requires Spread(index, ms, interval) && LastPosition(index) <= |Log(ms)| && interval > 0
    ensures |Log(ms)| - LastPosition(index) < interval ==> Spread(index, ms + [m], interval)
    ensures |Log(ms)| - LastPosition(index) >= interval ==>
              Spread(index + [IndexEntry(m.offset, |Log(ms)|)], ms + [m], interval)
  {
    hide Log;
    var p, e := |Log(ms)|, IndexEntry(m.offset, |Log(ms)|);
    var due := p - LastPosition(index) >= interval;
    var after := if due then index + [e] else index;
    forall k | 0 <= k < |ms + [m]| ensures Near(after, |Log((ms + [m])[..k])|, interval) {
      assert (ms + [m])[..k] == if k < |ms| then ms[..k] else ms;
      if k < |ms| {
        if due { NearMore(index, e, |Log(ms[..k])|, interval); }
      } else if due {
        assert after[|index|].position == p;
      } else if index != [] {
        assert index[|index| - 1].position == LastPosition(index);
      }
    }
    forall i | 0 <= i < |after| ensures after[i].position >= interval + LastPosition(after[..i]) {
      assert after[..i] == index[..i];
    }
    assert index[..|index|] == index;
  }

  /** Writes the records a pass keeps, byte for byte, and a fresh index. */
  method RewriteSegment(frames: seq<ScannedFrame>, latest: Latest<seq<byte>>, interval: nat, ghost ms: seq<DiskMessage>)
    returns (log: seq<byte>, index: seq<IndexEntry>, removed: nat)
    requires FramesOf(frames, ms) && interval > 0
    ensures log == Log(Kept(ms, latest)) && IndexNames(index, Kept(ms, latest))
    ensures Spread(index, Kept(ms, latest), interval)
    ensures removed == |ms| - |Kept(ms, latest)|
  {
    hide Log, Frame, Kept, ShouldRemove, Spread;
    log, index, removed := [], [], 0;
    NothingSpread(interval);
    var lastIndexed := 0;
    KeptNothing(latest);
    for i := 0 to |frames|
      invariant log == Log(Kept(ms[..i], latest)) && IndexNames(index, Kept(ms[..i], latest))
      invariant lastIndexed == LastPosition(index) <= |log| && Spread(index, Kept(ms[..i], latest), interval)
      invariant removed + |Kept(ms[..i], latest)| == i
    {
      var m := frames[i].message;
      assert ms[..i + 1] == ms[..i] + [ms[i]];
      KeptSnoc(ms[..i], ms[i], latest);
      if ShouldRemove(Head(m), latest) {
        removed := removed + 1;
      } else {
        NamesSnoc(index, Kept(ms[..i], latest), m);
        SpreadSnoc(index, Kept(ms[..i], latest), m, interval);
        LogSnoc(Kept(ms[..i], latest), m);
        if |log| - lastIndexed >= interval {
          index := index + [IndexEntry(m.offset, |log|)];
          lastIndexed := |log|;
        }
        log := log + frames[i].raw;
      }
    }
    assert ms[..|ms|] == ms;
  }

  lemma NothingSpread(interval: nat)
    ensures Spread([], [], interval)
  {
  }

  lemma KeptNothing(latest: Latest<seq<byte>>)
    ensures Kept([], latest) == [] && Log([]) == []
  {
  }

  /** What is kept of a segment is again what a segment may hold, with gaps. */
  lemma KeptIsSound(ms: seq<DiskMessage>, latest: Latest<seq<byte>>, low: nat, high: nat)
    requires AllStorable(ms) && Ascending(ms) && Within(ms, low, high)
    ensures AllStorable(Kept(ms, latest)) && Ascending(Kept(ms, latest)) && Within(Kept(ms, latest), low, high)
  {
    var before := (a: DiskMessage, b: DiskMessage) => a.offset < b.offset;
    assert Chain(ms, before);
    FilterKeepsChain(ms, Keeper(Head, latest), before);
  }

  // ---------------------------------------------------------------------------------------------
  // What stays, by the fields of the records

  /** A keyed record without any transaction or control field. */
  ghost predicate Ordinary(m: DiskMessage) {
    && m.key != [] && m.transactionalId == [] && m.transactionState == [] && m.transactionMarker == []
    && m.controlType == [] && m.controlVersion == 0 && m.controlEpoch == 0 && m.controlKey == [] && m.controlValue == []
  }

  /** No ordinary record, or the last ordinary one of its key, or the last one of its producer. */
  ghost predicate MustStay(all: seq<DiskMessage>, m: DiskMessage) {
    || !Ordinary(m)
    || (forall o | o in all && o.offset > m.offset && Ordinary(o) :: o.key != m.key)
    || (m.producerId != [] && forall o | o in all && o.offset > m.offset :: o.producerId != m.producerId)
  }

  /** Of the records `some`, exactly those are kept, in their order, that must stay among `all`. */
  ghost predicate StayExactly(all: seq<DiskMessage>, some: seq<DiskMessage>, kept: seq<DiskMessage>) {
    && Ascending(kept) && (forall m | m in kept :: m in some)
    && forall m | m in some :: m in kept <==> MustStay(all, m)
  }

  /** A later record with the same key, and with the same producer, by offsets instead of positions. */
  lemma LaterByOffset(all: seq<DiskMessage>, i: nat)
    requires Ascending(all) && i < |all|
    ensures Ordinary(all[i]) ==>
              (CarriedLater(all, Head, KeyOf, i) <==>
                 exists o | o in all :: o.offset > all[i].offset && Ordinary(o) && o.key == all[i].key)
    ensures all[i].producerId != [] ==>
              (CarriedLater(all, Head, ProducerOf, i) <==>
                 exists o | o in all :: o.offset > all[i].offset && o.producerId == all[i].producerId)
  {
    if o :| o in all && o.offset > all[i].offset && Ordinary(o) && o.key == all[i].key && Ordinary(all[i]) {
      var j :| 0 <= j < |all| && all[j] == o;
      assert i < j && KeyOf(Head(all[j])) == KeyOf(Head(all[i]));
    }
    if o :| o in all && o.offset > all[i].offset && o.producerId == all[i].producerId && all[i].producerId != [] {
      var j :| 0 <= j < |all| && all[j] == o;
      assert i < j && ProducerOf(Head(all[j])) == ProducerOf(Head(all[i]));
    }
  }

  lemma StaysUnlessSuperseded(all: seq<DiskMessage>, latest: Latest<seq<byte>>, m: DiskMessage)
    requires Ascending(all) && IsLatest(all, Head, latest) && m in all
    ensures ShouldRemove(Head(m), latest) <==> !MustStay(all, m)
  {
    hide IsLatest, CarriedLater;
    var i :| 0 <= i < |all| && all[i] == m;
    RemovesExactlySuperseded(all, Head, latest, i);
    LaterByOffset(all, i);
  }

  /** What a pass over `all` leaves of some of them. */
  lemma SurvivorsStay(all: seq<DiskMessage>, latest: Latest<seq<byte>>, some: seq<DiskMessage>)
    requires Ascending(all) && IsLatest(all, Head, latest) && Ascending(some) && forall m | m in some :: m in all
    ensures StayExactly(all, some, Survivors(some, Head, latest))
  {
    hide MustStay, IsLatest;
    var before := (a: DiskMessage, b: DiskMessage) => a.offset < b.offset;
    assert Chain(some, before);
    FilterKeepsChain(some, Keeper(Head, latest), before);
    forall m | m in some ensures m in Survivors(some, Head, latest) <==> MustStay(all, m) {
      StaysUnlessSuperseded(all, latest, m);
    }
  }

  /** A rewrite that drops a record makes the log file shorter. */
  lemma {:induction false} RewriteShrinks(ms: seq<DiskMessage>, latest: Latest<seq<byte>>)
    requires AllStorable(ms)
    ensures |Log(Kept(ms, latest))| <= |Log(ms)| && |Kept(ms, latest)| <= |ms|
    ensures |Kept(ms, latest)| < |ms| ==> |Log(Kept(ms, latest))| < |Log(ms)|
  {
    hide Log, Frame, Storable, Kept, ShouldRemove;
    if ms == [] {
      KeptNothing(latest);
    } else {
      var front, m := ms[..|ms| - 1], ms[|ms| - 1];
      assert ms == front + [m] && m in ms;
      RewriteShrinks(front, latest);
      KeptSnoc(front, m, latest);
      LogSnoc(front, m);
      LogSnoc(Kept(front, latest), m);
      FrameSize(m);
    }
  }
}
