/** Start-up recovery of the active segment (pkg/disk/recovery.go). */
module Recovery {
  import opened Common
  import opened Bytes
  import opened Fields
  import opened RecordCodec
  import opened Frames
  import opened Index

  /** What a scan keeps: the whole records before `validBytes`; `partial` if bytes of a cut record follow. */
  datatype Tail = Tail(validBytes: nat, nextOffset: nat, partial: bool)

  predicate Contiguous(ms: seq<DiskMessage>, base: nat) {
    forall i | 0 <= i < |ms| :: ms[i].offset == base + i
  }

  /** The bytes from `pos` on are whole contiguous records followed by nothing or by part of one record. */
  ghost predicate TailAt(rest: seq<byte>, pos: nat, expected: nat, t: Tail, ms: seq<DiskMessage>) {
    && AllStorable(ms) && Contiguous(ms, expected) && Log(ms) <= rest
    && t.validBytes == pos + |Log(ms)| && t.nextOffset == expected + |ms|
    && Ends(rest[|Log(ms)|..], t.partial)
  }

  predicate Ends(rest: seq<byte>, partial: bool) {
    if partial then PartialFrame(rest) else rest == []
  }

  /** Some reading of the bytes from `start` on, as records from offset `expected`, ends at `t`. */
  ghost predicate Reading(data: seq<byte>, start: nat, expected: nat, t: Tail) {
    start <= |data| && exists ms :: TailAt(data[start..], start, expected, t, ms)
  }

  lemma TailEmpty(rest: seq<byte>, pos: nat, expected: nat, t: Tail, r: FrameRead)
    requires TailAt(rest, pos, expected, t, []) && ReadsAs(rest, pos, r)
    ensures (r.End? || r.Partial?) && t == Tail(pos, expected, r.Partial?)
  {
    assert rest[|Log([])|..] == rest;
    ReadsOneWay(rest, pos, r, if t.partial then Partial else End);
  }

  lemma FirstOf(f: seq<byte>, later: seq<byte>, rest: seq<byte>)
    requires f + later <= rest
    ensures f <= rest && rest == f + rest[|f|..]
  {
    assert f == (f + later)[..|f|];
  }

  lemma LogStarts(m: DiskMessage, later: seq<DiskMessage>, rest: seq<byte>)
    requires Log([m] + later) <= rest
    ensures Frame(m) <= rest && rest == Frame(m) + rest[|Frame(m)|..]
  {
    LogFirst(m, later);
    FirstOf(Frame(m), Log(later), rest);
  }

  lemma TailFirst(rest: seq<byte>, pos: nat, expected: nat, t: Tail, ms: seq<DiskMessage>, r: FrameRead)
    requires TailAt(rest, pos, expected, t, ms) && ReadsAs(rest, pos, r) && ms != []
    ensures Storable(ms[0]) && Frame(ms[0]) <= rest
    ensures r == Found(ms[0], pos + |Frame(ms[0])|) && ms[0].offset == expected
  {
    assert ms[0] in ms;
    assert ms == [ms[0]] + ms[1..];
    LogStarts(ms[0], ms[1..], rest);
    ReadsWhole(ms[0], rest[|Frame(ms[0])|..], pos);
    ReadsOneWay(rest, pos, r, Found(ms[0], pos + |Frame(ms[0])|));
  }

  lemma SkipFirst(rest: seq<byte>, f: seq<byte>, later: seq<byte>)
    requires f + later <= rest
    ensures later <= rest[|f|..] && rest[|f + later|..] == rest[|f|..][|later|..]
  {
    assert later == (f + later)[|f|..];
  }

  lemma TailRest(rest: seq<byte>, pos: nat, expected: nat, t: Tail, ms: seq<DiskMessage>)
    requires TailAt(rest, pos, expected, t, ms) && ms != []
    ensures |Frame(ms[0])| <= |rest|
    ensures TailAt(rest[|Frame(ms[0])|..], pos + |Frame(ms[0])|, expected + 1, t, ms[1..])
  {
    assert ms == [ms[0]] + ms[1..];
    LogFirst(ms[0], ms[1..]);
    SkipFirst(rest, Frame(ms[0]), Log(ms[1..]));
  }

  /** Every reading of the whole range goes through the records already passed. */
  ghost predicate Passed(data: seq<byte>, start: nat, expected: nat, done: seq<DiskMessage>, pos: nat) {
    && start <= pos <= |data| && AllStorable(done) && Contiguous(done, expected)
    && data[start..] == Log(done) + data[pos..] && pos == start + |Log(done)|
    && forall t, ms | TailAt(data[start..], start, expected, t, ms) ::
         done <= ms && TailAt(data[pos..], pos, expected + |done|, t, ms[|done|..])
  }

  lemma Steps(data: seq<byte>, pos: nat, f: seq<byte>, next: nat)
    requires pos <= |data| && f <= data[pos..] && next == pos + |f|
    ensures next <= |data| && data[pos..] == f + data[next..]
  {
  }

  lemma PassedBytes(data: seq<byte>, start: nat, done: seq<DiskMessage>, pos: nat, m: DiskMessage, next: nat)
    requires start <= pos <= |data| && data[start..] == Log(done) + data[pos..] && pos == start + |Log(done)|
    requires ReadsAs(data[pos..], pos, Found(m, next))
    ensures pos <= next <= |data| && data[pos..] == Frame(m) + data[next..]
    ensures data[start..] == Log(done + [m]) + data[next..] && next == start + |Log(done + [m])|
  {
    Steps(data, pos, Frame(m), next);
    LogSnoc(done, m);
    Assoc(Log(done), Frame(m), data[next..]);
  }

  lemma PassedReading(data: seq<byte>, expected: nat, done: seq<DiskMessage>, pos: nat, m: DiskMessage, next: nat,
                      t: Tail, ms: seq<DiskMessage>)
    requires pos <= next <= |data| && data[pos..] == Frame(m) + data[next..]
    requires ReadsAs(data[pos..], pos, Found(m, next))
    requires done <= ms && TailAt(data[pos..], pos, expected + |done|, t, ms[|done|..])
    ensures done + [m] <= ms && TailAt(data[next..], next, expected + |done| + 1, t, ms[|done| + 1..])
  {
    var later := ms[|done|..];
    if later == [] {
      TailEmpty(data[pos..], pos, expected + |done|, t, Found(m, next));
    } else {
      TailFirst(data[pos..], pos, expected + |done|, t, later, Found(m, next));
      TailRest(data[pos..], pos, expected + |done|, t, later);
      assert later[1..] == ms[|done| + 1..];
      assert data[pos..][|Frame(m)|..] == data[next..];
    }
  }

  lemma PassOne(data: seq<byte>, start: nat, expected: nat, done: seq<DiskMessage>, pos: nat, m: DiskMessage, next: nat)
    requires Passed(data, start, expected, done, pos)
    requires ReadsAs(data[pos..], pos, Found(m, next)) && m.offset == expected + |done|
    ensures Passed(data, start, expected, done + [m], next)
  {
    PassedBytes(data, start, done, pos, m, next);
    forall t, ms | TailAt(data[start..], start, expected, t, ms)
      ensures done + [m] <= ms && TailAt(data[next..], next, expected + |done + [m]|, t, ms[|done + [m]|..])
    {
      PassedReading(data, expected, done, pos, m, next, t, ms);
    }
  }

  /** The record at the cursor is the next one of every reading. */
  lemma ReadingGoesOn(data: seq<byte>, start: nat, expected: nat, done: seq<DiskMessage>, pos: nat, r: FrameRead,
                      t: Tail, ms: seq<DiskMessage>)
    requires Passed(data, start, expected, done, pos) && ReadsAs(data[pos..], pos, r)
    requires TailAt(data[start..], start, expected, t, ms)
    ensures r.Found? || ((r.End? || r.Partial?) && t == Tail(pos, expected + |done|, r.Partial?))
    ensures r.Found? ==> r.message.offset == expected + |done|
  {
    var later := ms[|done|..];
    if later == [] {
      TailEmpty(data[pos..], pos, expected + |done|, t, r);
    } else {
      TailFirst(data[pos..], pos, expected + |done|, t, later, r);
    }
  }

  lemma Stops(data: seq<byte>, start: nat, expected: nat, done: seq<DiskMessage>, pos: nat, r: FrameRead)
    requires Passed(data, start, expected, done, pos) && ReadsAs(data[pos..], pos, r)
    requires r.End? || r.Partial?
    ensures TailAt(data[start..], start, expected, Tail(pos, expected + |done|, r.Partial?), done)
  {
    assert data[start..][|Log(done)|..] == data[pos..];
  }

  /** Accepts exactly the bytes that are whole contiguous records and possibly part of one more. */
  method ScanSegmentTail(data: seq<byte>, start: nat, expected: nat) returns (r: Result<Tail>)
    ensures r.Ok? ==> Reading(data, start, expected, r.value)
    ensures forall t | Reading(data, start, expected, t) :: r == Ok(t)
  {
    if start > |data| { return Err("invalid scan position"); }
    var pos, next := start, expected;
    ghost var done: seq<DiskMessage> := [];
    assert Passed(data, start, expected, [], start) by {
      assert forall ms: seq<DiskMessage> :: ms[|done|..] == ms;
    }
    while true
      invariant Passed(data, start, expected, done, pos) && next == expected + |done|
      decreases |data| - pos
    {
      var frame := ReadFrame(data, pos);
      forall t, ms | TailAt(data[start..], start, expected, t, ms)
        ensures frame.Found? || ((frame.End? || frame.Partial?) && t == Tail(pos, next, frame.Partial?))
        ensures frame.Found? ==> frame.message.offset == next
      {
        ReadingGoesOn(data, start, expected, done, pos, frame, t, ms);
      }
      match frame {
        case End =>
          Stops(data, start, expected, done, pos, frame);
          return Ok(Tail(pos, next, false));
        case Partial =>
          Stops(data, start, expected, done, pos, frame);
          return Ok(Tail(pos, next, true));
        case Corrupt =>
          return Err("corrupt record");
        case Found(m, after) =>
          if m.offset != next { return Err("non-contiguous offset"); }
          PassOne(data, start, expected, done, pos, m, after);
          FrameSize(m);
          done := done + [m];
          pos, next := after, next + 1;
      }
    }
  }

  // ---------------------------------------------------------------------------------------------
  // Starting from an index entry

  lemma PartsFit(front: seq<DiskMessage>, back: seq<DiskMessage>, base: nat)
    requires AllStorable(front + back) && Contiguous(front + back, base)
    ensures AllStorable(front) && AllStorable(back) && Contiguous(front, base) && Contiguous(back, base + |front|)
  {
    forall i | 0 <= i < |back| ensures back[i].offset == base + |front| + i {
      assert (front + back)[|front| + i] == back[i];
    }
    forall i | 0 <= i < |front| ensures front[i].offset == base + i {
      assert (front + back)[i] == front[i];
    }
  }

  /** A scan from the start of any record of a segment ends as the scan from byte zero does. */
  lemma TailFromRecord(data: seq<byte>, base: nat, t: Tail, front: seq<DiskMessage>, back: seq<DiskMessage>, pos: nat)
    requires TailAt(data, 0, base, t, front + back) && pos == |Log(front)|
    ensures Reading(data, pos, base + |front|, t)
  {
    var f, b := Log(front), Log(back);
    assert Log(front + back) == f + b by { LogConcat(front, back); }
    PartsFit(front, back, base);
    SkipFirst(data, f, b);
    assert TailAt(data[pos..], pos, base + |front|, t, back);
  }

  /** What recovery leaves of a segment whose whole records end at `t`. */
  ghost predicate Recovers(data: seq<byte>, t: Tail, strict: bool, r: Result<Tail>, kept: seq<byte>) {
    if t.partial && strict then r.Err? && kept == data
    else r == Ok(t) && t.validBytes <= |data| && kept == data[..t.validBytes]
  }

  /** Where the scan starts: at a record an index entry names, or at byte zero. */
  ghost predicate Startable(data: seq<byte>, index: seq<IndexEntry>, base: nat, start: nat, expected: nat) {
    (start == 0 && expected == base)
    || (IndexEntry(expected, start) in index && Matches(data, IndexEntry(expected, start)))
  }

  method ChooseStart(data: seq<byte>, index: seq<IndexEntry>, base: nat) returns (start: nat, expected: nat)
    ensures Startable(data, index, base, start, expected)
    ensures forall e | IsLastUsable(index, |data|, Some(e)) && Matches(data, e) ::
                start == e.position && expected == e.offset
  {
    start, expected := 0, base;
    var entry := LastUsableIndexEntry(index, |data|);
    if entry.Some? {
      var ok := IndexEntryMatchesRecord(data, entry.value);
      if ok { start, expected := entry.value.position, entry.value.offset; }
    }
  }

  lemma ReadingFromRecord(data: seq<byte>, base: nat, e: IndexEntry, t: Tail, front: seq<DiskMessage>,
                          back: seq<DiskMessage>)
    requires TailAt(data, 0, base, t, front + back) && back != [] && Matches(data, e) && e.position == |Log(front)|
    ensures Reading(data, e.position, e.offset, t)
  {
    hide LogFrom, Frame, PartialFrame;
    PartsFit(front, back, base);
    assert back[0] in back;
    MatchedRecord(data, front, back, e);
    TailFromRecord(data, base, t, front, back, e.position);
  }

  lemma StartDoesNotMatter(data: seq<byte>, index: seq<IndexEntry>, base: nat, start: nat, expected: nat, t: Tail,
                           ms: seq<DiskMessage>)
    requires Startable(data, index, base, start, expected)
    requires TailAt(data, 0, base, t, ms) && Honest(index, data, ms)
    ensures Reading(data, start, expected, t) && Reading(data, 0, base, t)
  {
    assert data[0..] == data;
    if start != 0 || expected != base {
      var front, back := SplitAt(ms, start);
      ReadingFromRecord(data, base, IndexEntry(expected, start), t, front, back);
    }
  }

  lemma SplitAt(ms: seq<DiskMessage>, p: nat) returns (front: seq<DiskMessage>, back: seq<DiskMessage>)
    requires AtRecord(ms, p)
    ensures ms == front + back && back != [] && p == |Log(front)|
  {
    var k :| 0 <= k < |ms| && p == |Log(ms[..k])|;
    front, back := ms[..k], ms[k..];
  }

  lemma TailWithin(data: seq<byte>, start: nat, expected: nat, t: Tail)
    requires Reading(data, start, expected, t)
    ensures t.validBytes <= |data| && (!t.partial ==> t.validBytes == |data|)
  {
  }

  // ---------------------------------------------------------------------------------------------
  // A segment cut at any byte

  /** How many of the first `n` records are whole in the first `cut` bytes. */
  ghost function Whole(ms: seq<DiskMessage>, cut: nat, n: nat): (k: nat)
    requires n <= |ms|
    ensures k <= n && |Log(ms[..k])| <= cut && (k < n ==> cut < |Log(ms[..k + 1])|)
  {
    if n == 0 || |Log(ms[..n])| <= cut then n else Whole(ms, cut, n - 1)
  }

  lemma CutBytes(a: seq<byte>, f: seq<byte>, b: seq<byte>, cut: nat)
    requires |a| <= cut < |a| + |f|
    ensures a <= (a + f + b)[..cut] && (a + f + b)[..cut][|a|..] == f[..cut - |a|]
  {
  }

  /** The bytes are those of a segment of contiguous records from `base`, cut at `cut`. */
  ghost predicate CutOf(data: seq<byte>, ms: seq<DiskMessage>, base: nat, cut: nat) {
    AllStorable(ms) && Contiguous(ms, base) && cut <= |Log(ms)| && data == Log(ms)[..cut]
  }

  ghost function KeptRecords(ms: seq<DiskMessage>, cut: nat): seq<DiskMessage> {
    ms[..Whole(ms, cut, |ms|)]
  }

  ghost function CutTail(ms: seq<DiskMessage>, base: nat, cut: nat): Tail {
    var kept := KeptRecords(ms, cut);
    Tail(|Log(kept)|, base + |kept|, cut != |Log(kept)|)
  }

  lemma CutInside(front: seq<DiskMessage>, m: DiskMessage, back: seq<DiskMessage>, cut: nat)
    requires Storable(m) && |Log(front)| <= cut < |Log(front + [m])| && cut <= |Log(front + [m] + back)|
    ensures Log(front) <= Log(front + [m] + back)[..cut]
    ensures Ends(Log(front + [m] + back)[..cut][|Log(front)|..], cut != |Log(front)|)
  {
    LogAround(front, m, back);
    LogSnoc(front, m);
    CutBytes(Log(front), Frame(m), Log(back), cut);
    if cut != |Log(front)| {
      ReadsCut(m, Frame(m)[..cut - |Log(front)|], |Log(front)|);
    }
  }

  /** Cut anywhere, a segment is its whole records and, off a record boundary, part of the next one. */
  lemma CutIsTail(data: seq<byte>, ms: seq<DiskMessage>, base: nat, cut: nat)
    requires CutOf(data, ms, base, cut)
    ensures TailAt(data, 0, base, CutTail(ms, base, cut), KeptRecords(ms, cut))
  {
    hide LogFrom, Frame, Storable, PartialFrame;
    var k := Whole(ms, cut, |ms|);
    if k == |ms| {
      assert ms[..k] == ms;
    } else {
      assert ms[..k + 1] == ms[..k] + [ms[k]];
      assert ms == ms[..k] + [ms[k]] + ms[k + 1..];
      CutInside(ms[..k], ms[k], ms[k + 1..], cut);
    }
  }

  /**
   * Recovery of the active segment: the last index entry that names a record saves scanning from byte zero, a torn
   * last record is cut off or, in strict mode, refused. `kept` is the file afterwards.
   */
  method RecoverActiveSegment(data: seq<byte>, index: seq<IndexEntry>, base: nat,
                              strict: bool) returns (r: Result<Tail>, kept: seq<byte>)
    ensures forall t, ms | TailAt(data, 0, base, t, ms) && Honest(index, data, ms) :: Recovers(data, t, strict, r, kept)
    ensures forall ms, cut | CutOf(data, ms, base, cut) && Honest(index, data, KeptRecords(ms, cut)) ::
              Recovers(data, CutTail(ms, base, cut), strict, r, kept)
    ensures r.Ok? && (forall e | e in index :: !Matches(data, e)) ==> Reading(data, 0, base, r.value)
    ensures forall e, t | IsLastUsable(index, |data|, Some(e)) && Matches(data, e)
                          && Reading(data, e.position, e.offset, t) ::
              Recovers(data, t, strict, r, kept)
    ensures r.Err? ==> kept == data
  {
    forall ms, cut | CutOf(data, ms, base, cut)
      ensures TailAt(data, 0, base, CutTail(ms, base, cut), KeptRecords(ms, cut))
    {
      CutIsTail(data, ms, base, cut);
    }
    kept := data;
    var start, expected := ChooseStart(data, index, base);
    var scan := ScanSegmentTail(data, start, expected);
    forall t, ms | TailAt(data, 0, base, t, ms) && Honest(index, data, ms)
      ensures scan == Ok(t)
    {
      StartDoesNotMatter(data, index, base, start, expected, t, ms);
    }
    if scan.Err? && start != 0 {
      scan := ScanSegmentTail(data, 0, base);
      start, expected := 0, base;
    }
    if scan.Err? { return scan, kept; }
    TailWithin(data, start, expected, scan.value);
    if scan.value.partial {
      if strict { return Err("truncated internal metadata record"), kept; }
      kept := data[..scan.value.validBytes];
    }
    return scan, kept;
  }

  // ---------------------------------------------------------------------------------------------
  // An entry that points into a payload

  lemma EventPart(r: DiskMessage) returns (later: seq<byte>)
    requires Encodable(r)
    ensures EncodeAll(EventCells(r)) == BE(|r.payload|, 4) + r.payload + later && later != []
  {
    var cells := EventCells(r)[1..];
    later := EncodeAll(cells);
    assert cells[0] == Cell(TEXT, Text(r.eventType));
    assert |EncodeValue(cells[0].kind, cells[0].value)| >= 2;
  }

  lemma Regroup(a: seq<byte>, b: seq<byte>, p: seq<byte>, l: seq<byte>, t: seq<byte>)
    ensures a + (b + p + l) + t == (a + b) + p + (l + t)
  {
  }

  lemma PayloadInside(r: DiskMessage) returns (front: seq<byte>, back: seq<byte>)
    requires Encodable(r)
    ensures Encode(r) == front + r.payload + back && |front| >= 4 && back != []
  {
    EncodeIsGrouped(r);
    var later := EventPart(r);
    var a, t, c := MAGIC + EncodeAll(OriginCells(r)), EncodeAll(TransactionCells(r)), EncodeAll(ControlCells(r));
    front, back := a + BE(|r.payload|, 4), later + t + c;
    Regroup(a, BE(|r.payload|, 4), r.payload, later, t);
    Assoc(front + r.payload, later + t, c);
  }

  /**
   * The condition on index entries is needed: where a payload holds the bytes of a record and the crash cut falls
   * right behind it, an entry that points at the inner record makes recovery keep the torn outer one.
   */
  lemma ForgedEntryKeepsTornRecord(outer: DiskMessage, inner: DiskMessage) returns (data: seq<byte>, e: IndexEntry)
    requires Storable(outer) && Storable(inner) && outer.payload == Frame(inner)
    ensures CutOf(data, [outer], outer.offset, |data|)
    ensures CutTail([outer], outer.offset, |data|) == Tail(0, outer.offset, true)
    ensures Usable(e, |data|) && IsLastUsable([e], |data|, Some(e)) && Matches(data, e)
    ensures Reading(data, e.position, e.offset, Tail(|data|, inner.offset + 1, false))
  {
    hide BE, Val, CellsOf, EncodeAll, Encodable;
    var front, back := PayloadInside(outer);
    FrameSize(outer);
    FrameSize(inner);
    LogOne(outer);
    LogOne(inner);
    var p := 4 + |front|;
    e := IndexEntry(inner.offset, p);
    data := Frame(outer)[..p + |Frame(inner)|];
    InnerFrame(BE(|Encode(outer)|, 4), front, Frame(inner), back);
    assert data[p..] == Frame(inner);
    assert [e][0] == e;
    assert TailAt(data[p..], p, inner.offset, Tail(|data|, inner.offset + 1, false), [inner]);
    assert [outer][..1] == [outer] && [outer][..0] == [];
  }

  lemma InnerFrame(h: seq<byte>, front: seq<byte>, f: seq<byte>, back: seq<byte>)
    requires |h| == 4
    ensures |(h + (front + f + back))| == 4 + |front| + |f| + |back|
    ensures (h + (front + f + back))[..4 + |front| + |f|][4 + |front|..] == f
  {
  }
}
