/** The sparse offset index of a segment (pkg/disk/index.go). Entries are 16-byte pairs; zero pairs pad the file. */
module Index {
  import opened Common
  import opened Bytes
  import opened RecordCodec
  import opened Frames

  datatype IndexEntry = IndexEntry(offset: nat, position: nat)

  predicate Usable(e: IndexEntry, logSize: nat) {
    e != IndexEntry(0, 0) && e.position < logSize
  }

  ghost predicate IsLastUsable(index: seq<IndexEntry>, logSize: nat, r: Option<IndexEntry>) {
    match r
    case None => forall e | e in index :: !Usable(e, logSize)
    case Some(e) =>
      && Usable(e, logSize)
      && exists i | 0 <= i < |index| :: index[i] == e && forall j | i < j < |index| :: !Usable(index[j], logSize)
  }

  /** Scans backwards over the zero padding and over entries that point past the log. */
  method LastUsableIndexEntry(index: seq<IndexEntry>, logSize: nat) returns (r: Option<IndexEntry>)
    ensures IsLastUsable(index, logSize, r)
  {
    var i := |index|;
    while i > 0
      invariant 0 <= i <= |index| && forall j | i <= j < |index| :: !Usable(index[j], logSize)
    {
      i := i - 1;
      if index[i].offset == 0 && index[i].position == 0 { continue; }
      if index[i].position < logSize { return Some(index[i]); }
    }
    return None;
  }

  /** A record with the entry's offset starts at the entry's position. */
  ghost predicate Matches(data: seq<byte>, e: IndexEntry) {
    e.position <= |data| && exists m :: Storable(m) && Frame(m) <= data[e.position..] && m.offset == e.offset
  }

  method IndexEntryMatchesRecord(data: seq<byte>, e: IndexEntry) returns (ok: bool)
    ensures ok <==> Matches(data, e)
  {
    if e.position > |data| { return false; }
    var frame := ReadFrame(data, e.position);
    forall m | Storable(m) && Frame(m) <= data[e.position..]
      ensures frame == Found(m, e.position + |Frame(m)|)
    {
      ReadsOneWay(data[e.position..], e.position, frame, Found(m, e.position + |Frame(m)|));
    }
    return frame.Found? && frame.message.offset == e.offset;
  }

  /** Position `p` is the first byte of one of the records. */
  ghost predicate AtRecord(ms: seq<DiskMessage>, p: nat) {
    exists k | 0 <= k < |ms| :: p == |Log(ms[..k])|
  }

  /**
   * An entry may be stale, but where the bytes at its position look like a record with its offset, a record of the
   * segment starts there. It fails only if a payload holds bytes that pass for that record.
   */
  ghost predicate Honest(index: seq<IndexEntry>, data: seq<byte>, ms: seq<DiskMessage>) {
    forall e | e in index && Matches(data, e) :: AtRecord(ms, e.position)
  }

  /** An entry that matches at a record's first byte names that record. */
  lemma MatchedRecord(data: seq<byte>, front: seq<DiskMessage>, back: seq<DiskMessage>, e: IndexEntry)
    requires back != [] && Storable(back[0]) && Log(front + back) <= data
    requires Matches(data, e) && e.position == |Log(front)|
    ensures e.offset == back[0].offset
  {
    hide Log, Frame, Storable, PartialFrame;
    var m := back[0];
    assert Log(back) == Frame(m) + Log(back[1..]) by {
      assert back == [m] + back[1..];
      LogFirst(m, back[1..]);
    }
    LogConcat(front, back);
    FrameInside(data, Log(front), Frame(m), Log(back[1..]));
    var n :| Storable(n) && Frame(n) <= data[e.position..] && n.offset == e.offset;
    ReadsOneWay(data[e.position..], 0, Found(n, |Frame(n)|), Found(m, |Frame(m)|));
  }

  lemma FrameInside(data: seq<byte>, a: seq<byte>, f: seq<byte>, b: seq<byte>)
    requires a + (f + b) <= data
    ensures |a| <= |data| && f <= data[|a|..]
  {
    assert f == (a + (f + b))[|a|..|a| + |f|];
  }

  // ---------------------------------------------------------------------------------------------
  // The usable prefix of an index file

  /** The entries increase in offset and position, and none is zero. */
  ghost predicate Increasing(index: seq<IndexEntry>) {
    && (forall e | e in index :: e != IndexEntry(0, 0))
    && (forall i, j | 0 <= i < j < |index| ::
          index[i].offset < index[j].offset && index[i].position < index[j].position)
  }

  predicate Continues(index: seq<IndexEntry>, e: IndexEntry) {
    e != IndexEntry(0, 0)
    && (index == [] || (index[|index| - 1].offset < e.offset && index[|index| - 1].position < e.position))
  }

  lemma ContinuesIncreases(index: seq<IndexEntry>, e: IndexEntry)
    requires Increasing(index) && Continues(index, e)
    ensures Increasing(index + [e])
  {
  }

  lemma LastContinues(index: seq<IndexEntry>, n: nat)
    requires n < |index| && Increasing(index[..n + 1])
    ensures Continues(index[..n], index[n]) && index[n] in index[..n + 1]
  {
    assert index[..n + 1][n] == index[n] && index[..n + 1][n] in index[..n + 1];
    assert n > 0 ==> index[..n + 1][n - 1] == index[..n][n - 1];
  }

  /** `indexValidBytes`: the longest increasing prefix of the whole file. */
  method IndexValidEntries(index: seq<IndexEntry>) returns (n: nat)
    ensures n <= |index| && Increasing(index[..n])
    ensures n < |index| ==> !Increasing(index[..n + 1])
  {
    n := 0;
    while n < |index| && Continues(index[..n], index[n])
      invariant n <= |index| && Increasing(index[..n])
    {
      assert index[..n + 1] == index[..n] + [index[n]];
      ContinuesIncreases(index[..n], index[n]);
      n := n + 1;
    }
    if n < |index| && Increasing(index[..n + 1]) {
      LastContinues(index, n);
    }
  }

  ghost predicate Below(index: seq<IndexEntry>, size: nat) {
    forall e | e in index :: e.position < size
  }

  /** `validIndexPrefix`: of the entries within the index capacity, the longest increasing prefix inside the log. */
  method ValidIndexPrefix(index: seq<IndexEntry>, capacity: nat, logSize: nat) returns (n: nat, lastPosition: nat)
    ensures n <= |index| && n <= capacity && Increasing(index[..n]) && Below(index[..n], logSize)
    ensures n < |index| && n < capacity ==> !(Increasing(index[..n + 1]) && Below(index[..n + 1], logSize))
    ensures lastPosition == if n == 0 then 0 else index[n - 1].position
  {
    n := 0;
    lastPosition := 0;
    while n < |index| && n < capacity && Continues(index[..n], index[n]) && index[n].position < logSize
      invariant n <= |index| && n <= capacity && Increasing(index[..n]) && Below(index[..n], logSize)
      invariant lastPosition == if n == 0 then 0 else index[n - 1].position
    {
      assert index[..n + 1] == index[..n] + [index[n]];
      ContinuesIncreases(index[..n], index[n]);
      lastPosition := index[n].position;
      n := n + 1;
    }
    if n < |index| && n < capacity && Increasing(index[..n + 1]) && Below(index[..n + 1], logSize) {
      LastContinues(index, n);
    }
  }

  // ---------------------------------------------------------------------------------------------
  // Bisection

  /** The last of the first `count` entries whose offset is not above `offset`. */
  ghost predicate Floor(index: seq<IndexEntry>, count: nat, offset: nat, r: Option<IndexEntry>)
    requires count <= |index|
  {
    match r
    case None => forall i | 0 <= i < count :: index[i].offset > offset
    case Some(e) =>
      exists i | 0 <= i < count ::
        index[i] == e && e.offset <= offset && forall j | i < j < count :: index[j].offset > offset
  }

  /** `findIndexEntry`; only the first `readable` entries of the mapped file can be read. */
  method FindIndexEntry(index: seq<IndexEntry>, count: nat, readable: nat,
                        offset: nat) returns (r: Result<Option<IndexEntry>>)
    requires count <= |index| && Increasing(index[..count])
    ensures r.Ok? ==> Floor(index, count, offset, r.value)
    ensures count <= readable ==> r.Ok?
    ensures (forall i | 0 <= i < count :: index[i].offset <= offset) ==> (r.Ok? <==> count <= readable)
    ensures readable <= (count - 1) / 2 && count > 0 ==> r.Err?
  {
    ghost var above := forall i | 0 <= i < count :: index[i].offset <= offset;
    var low, high := 0, count - 1;
    var candidate: Option<IndexEntry> := None;
    while low <= high
      invariant 0 <= low <= high + 1 <= count
      invariant forall i | 0 <= i < low :: index[i].offset < offset
      invariant forall i | high < i < count :: index[i].offset > offset
      invariant candidate == if low == 0 then None else Some(index[low - 1])
      invariant above && count > readable ==> high == count - 1 && low <= readable
      invariant count > 0 && readable <= (count - 1) / 2 ==> low == 0 && high == count - 1
    {
      var mid := (low + high) / 2;
      if mid >= readable { return Err("index read beyond mapping"); }
      forall i, j | 0 <= i < j < count ensures index[i].offset < index[j].offset {
        assert index[..count][i] == index[i] && index[..count][j] == index[j];
      }
      if index[mid].offset == offset {
        assert mid < count - 1 ==> index[mid].offset < index[count - 1].offset;
        assert index[mid] == index[mid] && forall j | mid < j < count :: index[j].offset > offset;
        return Ok(Some(index[mid]));
      } else if index[mid].offset < offset {
        candidate := Some(index[mid]);
        low := mid + 1;
      } else {
        high := mid - 1;
      }
    }
    return Ok(candidate);
  }
}
