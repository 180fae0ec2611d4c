/** Reading records from a byte position of one segment (readMessagesFromPosition, pkg/disk/handler.go). */
module LogReader {
  import opened Common
  import opened Bytes
  import opened Fields
  import opened RecordCodec
  import opened Frames
  import opened Recovery

  // ---------------------------------------------------------------------------------------------
  // The specification: a scan of a plain sequence of records

  /** The first `max` records at or after `offset`. */
  function Select(ms: seq<DiskMessage>, offset: nat, max: nat): (r: seq<DiskMessage>)
    ensures |r| <= max
    ensures forall m | m in r :: m in ms && m.offset >= offset
  {
    if ms == [] || max == 0 then []
    else if ms[0].offset >= offset then [ms[0]] + Select(ms[1..], offset, max - 1)
    else Select(ms[1..], offset, max)
  }

  lemma {:induction false} SelectConcat(a: seq<DiskMessage>, b: seq<DiskMessage>, offset: nat, max: nat)
    ensures Select(a + b, offset, max) == Select(a, offset, max) + Select(b, offset, max - |Select(a, offset, max)|)
  {
    if a == [] {
      assert a + b == b;
    } else if max > 0 {
      assert (a + b)[0] == a[0] && (a + b)[1..] == a[1..] + b;
      if a[0].offset >= offset {
        SelectConcat(a[1..], b, offset, max - 1);
        var x := Select(a[1..], offset, max - 1);
        Assoc([a[0]], x, Select(b, offset, max - 1 - |x|));
      } else {
        SelectConcat(a[1..], b, offset, max);
      }
    }
  }

  lemma {:induction false} SelectNone(ms: seq<DiskMessage>, offset: nat, max: nat)
    requires forall m | m in ms :: m.offset < offset
    ensures Select(ms, offset, max) == []
  {
    if ms != [] {
      assert ms[0] in ms;
      SelectNone(ms[1..], offset, max);
    }
  }

  ghost predicate AllFrom(ms: seq<DiskMessage>, offset: nat) {
    forall m | m in ms :: m.offset >= offset
  }

  /** A start offset below every record makes no difference. */
  lemma {:induction false} SelectAny(ms: seq<DiskMessage>, o: nat, p: nat, max: nat)
    requires AllFrom(ms, o) && AllFrom(ms, p)
    ensures Select(ms, o, max) == Select(ms, p, max)
  {
    if ms != [] && max > 0 {
      assert ms[0] in ms;
      SelectAny(ms[1..], o, p, max - 1);
    }
  }

  // ---------------------------------------------------------------------------------------------
  // The reader

  ghost predicate Ascending(ms: seq<DiskMessage>) {
    forall i, j | 0 <= i < j < |ms| :: ms[i].offset < ms[j].offset
  }

  /** Records a segment may hold: without gaps from its base, or merely ascending where gaps are allowed. */
  ghost predicate Sound(ms: seq<DiskMessage>, base: nat, gaps: bool) {
    AllStorable(ms) && Ascending(ms) && (gaps || Contiguous(ms, base))
  }

  /** The bytes are the records `past` up to `pos`, then the records `rest`, then nothing or a torn record. */
  ghost predicate Laid(data: seq<byte>, pos: nat, past: seq<DiskMessage>, rest: seq<DiskMessage>, tail: seq<byte>) {
    pos == |Log(past)| && data == Log(past) + (Log(rest) + tail)
  }

  lemma LaidRest(data: seq<byte>, pos: nat, past: seq<DiskMessage>, rest: seq<DiskMessage>, tail: seq<byte>)
    requires Laid(data, pos, past, rest, tail)
    ensures pos <= |data| && data[pos..] == Log(rest) + tail
  {
  }

  lemma LaidNext(data: seq<byte>, pos: nat, past: seq<DiskMessage>, m: DiskMessage, rest: seq<DiskMessage>,
                 tail: seq<byte>)
    requires Laid(data, pos, past, [m] + rest, tail)
    ensures Laid(data, pos + |Frame(m)|, past + [m], rest, tail)
  {
    LogFirst(m, rest);
    LogSnoc(past, m);
    Assoc(Frame(m), Log(rest), tail);
    Assoc(Log(past), Frame(m), Log(rest) + tail);
  }

  /** What the reader finds at the cursor. */
  lemma LaidReads(data: seq<byte>, pos: nat, past: seq<DiskMessage>, rest: seq<DiskMessage>, tail: seq<byte>,
                  r: FrameRead)
    requires Laid(data, pos, past, rest, tail) && AllStorable(rest) && (tail == [] || PartialFrame(tail))
    requires pos <= |data| && ReadsAs(data[pos..], pos, r)
    ensures rest == [] ==> r == if tail == [] then End else Partial
    ensures rest != [] ==> r == Found(rest[0], pos + |Frame(rest[0])|)
  {
    hide Frame, Storable, PartialFrame;
    LaidRest(data, pos, past, rest, tail);
    if rest == [] {
      assert data[pos..] == tail;
      ReadsOneWay(data[pos..], pos, r, if tail == [] then End else Partial);
    } else {
      assert rest[0] in rest && rest == [rest[0]] + rest[1..];
      LogFirst(rest[0], rest[1..]);
      Assoc(Frame(rest[0]), Log(rest[1..]), tail);
      ReadsWhole(rest[0], Log(rest[1..]) + tail, pos);
      ReadsOneWay(data[pos..], pos, r, Found(rest[0], pos + |Frame(rest[0])|));
    }
  }

  datatype Previous = Nothing | At(offset: nat)

  /** The order checks on a decoded record. */
  predicate InOrder(prev: Previous, pos: nat, m: DiskMessage, base: nat, gaps: bool) {
    match prev
    case Nothing => pos != 0 || gaps || m.offset == base
    case At(offset) => offset < m.offset && (gaps || m.offset == offset + 1)
  }

  /** What was read before the cursor, as the checks remember it. */
  ghost predicate Remembers(prev: Previous, past: seq<DiskMessage>) {
    prev.At? ==> past != [] && past[|past| - 1].offset == prev.offset
  }

  lemma SoundIsInOrder(past: seq<DiskMessage>, m: DiskMessage, rest: seq<DiskMessage>, prev: Previous, pos: nat,
                       base: nat, gaps: bool)
    requires Sound(past + ([m] + rest), base, gaps) && Remembers(prev, past) && pos == |Log(past)|
    ensures InOrder(prev, pos, m, base, gaps)
  {
    var all := past + ([m] + rest);
    assert all[|past|] == m;
    if past != [] {
      assert all[|past| - 1] == past[|past| - 1] && all[0] == past[0] && past[0] in all;
      assert past == [past[0]] + past[1..];
      LogFirst(past[0], past[1..]);
      FrameSize(past[0]);
    }
  }

  /** The arguments of a read, with how the bytes are laid out around its start. */
  ghost predicate Well(data: seq<byte>, position: nat, base: nat, allowPartial: bool, gaps: bool,
                       past: seq<DiskMessage>, rest: seq<DiskMessage>, tail: seq<byte>) {
    && Laid(data, position, past, rest, tail) && Sound(past + rest, base, gaps)
    && (tail == [] || (allowPartial && PartialFrame(tail)))
  }

  /** The loop's state: `after` is still to be read, and what it will add completes the result. */
  ghost predicate Cursor(data: seq<byte>, pos: nat, base: nat, allowPartial: bool, gaps: bool,
                         before: seq<DiskMessage>, after: seq<DiskMessage>, tail: seq<byte>,
                         prev: Previous, messages: seq<DiskMessage>, target: nat, max: nat, result: seq<DiskMessage>) {
    && Well(data, pos, base, allowPartial, gaps, before, after, tail) && Remembers(prev, before)
    && |messages| <= max && messages + Select(after, target, max - |messages|) == result
  }

  lemma CursorStops(data: seq<byte>, pos: nat, base: nat, allowPartial: bool, gaps: bool,
                    before: seq<DiskMessage>, after: seq<DiskMessage>, tail: seq<byte>,
                    prev: Previous, messages: seq<DiskMessage>, target: nat, max: nat, result: seq<DiskMessage>,
                    r: FrameRead)
    requires Cursor(data, pos, base, allowPartial, gaps, before, after, tail, prev, messages, target, max, result)
    requires pos <= |data| && ReadsAs(data[pos..], pos, r)
    ensures after == [] ==> (r.End? || (r.Partial? && allowPartial)) && messages == result
    ensures after != [] ==> r == Found(after[0], pos + |Frame(after[0])|)
  {
    StorableRest(before, after);
    LaidReads(data, pos, before, after, tail, r);
  }

  lemma StorableRest(a: seq<DiskMessage>, b: seq<DiskMessage>)
    requires AllStorable(a + b)
    ensures AllStorable(b)
  {
    forall m | m in b ensures Storable(m) { assert m in a + b; }
  }

  lemma HeadTail(ms: seq<DiskMessage>)
    requires ms != []
    ensures ms == [ms[0]] + ms[1..]
  {
  }

  lemma CursorStarts(data: seq<byte>, pos: nat, base: nat, allowPartial: bool, gaps: bool,
                     before: seq<DiskMessage>, after: seq<DiskMessage>, tail: seq<byte>, target: nat, max: nat)
    requires Well(data, pos, base, allowPartial, gaps, before, after, tail)
    ensures Cursor(data, pos, base, allowPartial, gaps, before, after, tail, Nothing, [], target, max,
        Select(after, target, max))
  {
    assert [] + Select(after, target, max) == Select(after, target, max);
  }

  lemma CursorFull(data: seq<byte>, pos: nat, base: nat, allowPartial: bool, gaps: bool,
                   before: seq<DiskMessage>, after: seq<DiskMessage>, tail: seq<byte>,
                   prev: Previous, messages: seq<DiskMessage>, target: nat, max: nat, result: seq<DiskMessage>)
    requires Cursor(data, pos, base, allowPartial, gaps, before, after, tail, prev, messages, target, max, result)
    requires |messages| >= max
    ensures messages == result
  {
    assert Select(after, target, 0) == [];
  }

  function Collect(messages: seq<DiskMessage>, m: DiskMessage, target: nat): seq<DiskMessage> {
    if m.offset >= target then messages + [m] else messages
  }

  lemma SelectStep(messages: seq<DiskMessage>, m: DiskMessage, later: seq<DiskMessage>, target: nat, max: nat)
    requires |messages| < max
    ensures |Collect(messages, m, target)| <= max
    ensures Collect(messages, m, target) + Select(later, target, max - |Collect(messages, m, target)|)
         == messages + Select([m] + later, target, max - |messages|)
  {
    assert ([m] + later)[1..] == later;
  }

  lemma WellStep(data: seq<byte>, pos: nat, base: nat, allowPartial: bool, gaps: bool,
                 before: seq<DiskMessage>, m: DiskMessage, later: seq<DiskMessage>, tail: seq<byte>)
    requires Well(data, pos, base, allowPartial, gaps, before, [m] + later, tail)
    ensures Well(data, pos + |Frame(m)|, base, allowPartial, gaps, before + [m], later, tail)
  {
    LaidNext(data, pos, before, m, later, tail);
    Assoc(before, [m], later);
  }

  lemma CursorStep(data: seq<byte>, pos: nat, base: nat, allowPartial: bool, gaps: bool,
                   before: seq<DiskMessage>, m: DiskMessage, later: seq<DiskMessage>, tail: seq<byte>,
                   prev: Previous, messages: seq<DiskMessage>, target: nat, max: nat, result: seq<DiskMessage>)
    requires Cursor(data, pos, base, allowPartial, gaps, before, [m] + later, tail, prev, messages, target, max, result)
    requires |messages| < max
    ensures InOrder(prev, pos, m, base, gaps)
    ensures Cursor(data, pos + |Frame(m)|, base, allowPartial, gaps, before + [m], later, tail, At(m.offset),
                   Collect(messages, m, target), target, max, result)
  {
    SoundIsInOrder(before, m, later, prev, pos, base, gaps);
    WellStep(data, pos, base, allowPartial, gaps, before, m, later, tail);
    SelectStep(messages, m, later, target, max);
  }

  // ---------------------------------------------------------------------------------------------
  // What a read may return on any bytes at all

  /** Whole records from byte `position` in an order the checks let through. */
  ghost predicate InSequence(data: seq<byte>, position: nat, base: nat, gaps: bool, read: seq<DiskMessage>) {
    && position <= |data| && Log(read) <= data[position..] && AllStorable(read) && Ascending(read)
    && (!gaps && read != [] ==> Contiguous(read, read[0].offset) && (position == 0 ==> read[0].offset == base))
  }

  /** The read went on until it had enough, or to the end of the bytes up to a torn record where that is allowed. */
  ghost predicate Answers(data: seq<byte>, position: nat, base: nat, allowPartial: bool, gaps: bool,
                          read: seq<DiskMessage>,
                          target: nat, max: nat, result: seq<DiskMessage>) {
    && InSequence(data, position, base, gaps, read) && result == Select(read, target, max)
    && (|result| < max ==> Log(read) == data[position..] || (allowPartial
                                                             && PartialFrame(data[position..][|Log(read)|..])))
  }

  ghost predicate Reached(data: seq<byte>, position: nat, pos: nat, base: nat, gaps: bool, read: seq<DiskMessage>,
                          prev: Previous) {
    && InSequence(data, position, base, gaps, read) && pos == position + |Log(read)|
    && (read == [] <==> prev.Nothing?) && Remembers(prev, read)
  }

  lemma OrderlyNext(data: seq<byte>, position: nat, base: nat, gaps: bool, read: seq<DiskMessage>, m: DiskMessage,
                    prev: Previous)
    requires Reached(data, position, position + |Log(read)|, base, gaps, read, prev) && Storable(m)
    requires InOrder(prev, position + |Log(read)|, m, base, gaps)
    ensures Ascending(read + [m]) && AllStorable(read + [m])
    ensures !gaps ==>
              Contiguous(read + [m], (read + [m])[0].offset) && (position == 0 ==> (read + [m])[0].offset == base)
  {
    LogNothing();
    var all := read + [m];
    forall i, j | 0 <= i < j < |all| ensures all[i].offset < all[j].offset {
      assert i < |read| - 1 ==> read[i].offset < read[|read| - 1].offset;
    }
  }

  lemma ReachedNext(data: seq<byte>, position: nat, pos: nat, base: nat, gaps: bool, read: seq<DiskMessage>,
                    m: DiskMessage, prev: Previous)
    requires Reached(data, position, pos, base, gaps, read, prev) && pos <= |data| && Storable(m)
    requires Frame(m) <= data[pos..]
    requires InOrder(prev, pos, m, base, gaps)
    ensures Reached(data, position, pos + |Frame(m)|, base, gaps, read + [m], At(m.offset))
  {
    hide Log, Frame, Storable, Ascending, Contiguous, InOrder;
    OrderlyNext(data, position, base, gaps, read, m, prev);
    LogSnoc(read, m);
    assert data[position..] == Log(read) + data[pos..];
  }

  lemma ReachedStarts(data: seq<byte>, position: nat, base: nat, gaps: bool, target: nat, max: nat)
    requires position <= |data|
    ensures Reached(data, position, position, base, gaps, [], Nothing) && Select([], target, max) == []
  {
    LogNothing();
  }

  lemma BeyondIsNotWell(data: seq<byte>, position: nat, base: nat, allowPartial: bool, gaps: bool,
                        past: seq<DiskMessage>, rest: seq<DiskMessage>, tail: seq<byte>)
    requires position > |data|
    ensures !Well(data, position, base, allowPartial, gaps, past, rest, tail)
  {
  }

  lemma CollectIsSelect(read: seq<DiskMessage>, m: DiskMessage, target: nat, max: nat)
    requires |Select(read, target, max)| < max
    ensures Collect(Select(read, target, max), m, target) == Select(read + [m], target, max)
  {
    SelectConcat(read, [m], target, max);
  }

  lemma ReachedAnswers(data: seq<byte>, position: nat, pos: nat, base: nat, allowPartial: bool, gaps: bool,
                       read: seq<DiskMessage>, prev: Previous,
                       target: nat, max: nat)
    requires Reached(data, position, pos, base, gaps, read, prev) && pos <= |data|
    requires |Select(read, target, max)| < max ==> data[pos..] == [] || (allowPartial && PartialFrame(data[pos..]))
    ensures Answers(data, position, base, allowPartial, gaps, read, target, max, Select(read, target, max))
  {
    assert data[position..] == Log(read) + data[pos..];
  }

  /**
   * Reads from byte `position`. On a sound segment laid out around that position it returns the first `max` of the
   * records from there at or after `target`; a torn last record is skipped where it is allowed. On any other bytes it
   * fails, or the records before the first flaw were enough.
   */
  method ReadMessagesFromPosition(data: seq<byte>, position: nat, max: nat, target: nat, base: nat, allowPartial: bool,
                                  gaps: bool,
                                  ghost past: seq<DiskMessage>, ghost rest: seq<DiskMessage>, ghost tail: seq<byte>)
    returns (r: Result<seq<DiskMessage>>)
    ensures Well(data, position, base, allowPartial, gaps, past, rest, tail) ==> r == Ok(Select(rest, target, max))
    ensures r.Ok? && position <= |data| ==>
              exists read :: Answers(data, position, base, allowPartial, gaps, read, target, max, r.value)
    ensures position > |data| ==> r == Ok([])
  {
    hide Cursor, Reached, Answers, Select, PartialFrame, Storable, Well, InOrder, Collect, Log, LogFrom, Frame, Encode;
    if position > |data| {
      BeyondIsNotWell(data, position, base, allowPartial, gaps, past, rest, tail);
      return Ok([]);
    }
    ghost var read: seq<DiskMessage> := [];
    ReachedStarts(data, position, base, gaps, target, max);
    ghost var well, result := Well(data, position, base, allowPartial, gaps, past, rest, tail), Select(rest, target,
                                   max);
    ghost var before, after := past, rest;
    var messages: seq<DiskMessage> := [];
    var pos, prev := position, Nothing;
    if well { CursorStarts(data, position, base, allowPartial, gaps, past, rest, tail, target, max); }
    while |messages| < max
      invariant pos <= |data|
      invariant well ==>
                Cursor(data, pos, base, allowPartial, gaps, before, after, tail, prev, messages, target, max, result)
      invariant Reached(data, position, pos, base, gaps, read, prev) && messages == Select(read, target, max)
      decreases |data| - pos
    {
      var frame := ReadFrame(data, pos);
      if well {
        CursorStops(data, pos, base, allowPartial, gaps, before, after, tail, prev, messages, target, max, result,
                    frame);
      }
      if frame.End? {
        ReachedAnswers(data, position, pos, base, allowPartial, gaps, read, prev, target, max);
        return Ok(messages);
      }
      if frame.Partial? {
        if allowPartial {
          ReachedAnswers(data, position, pos, base, allowPartial, gaps, read, prev, target, max);
          return Ok(messages);
        }
        return Err("truncated record");
      }
      if frame.Corrupt? { return Err("corrupt record"); }
      var m := frame.message;
      if well {
        HeadTail(after);
        CursorStep(data, pos, base, allowPartial, gaps, before, m, after[1..], tail, prev, messages, target, max,
                   result);
        before, after := before + [m], after[1..];
      }
      if !InOrder(prev, pos, m, base, gaps) { return Err("offset out of order"); }
      ReachedNext(data, position, pos, base, gaps, read, m, prev);
      CollectIsSelect(read, m, target, max);
      read := read + [m];
      prev := At(m.offset);
      messages := Collect(messages, m, target);
      FrameSize(m);
      pos := frame.next;
    }
    if well {
      CursorFull(data, pos, base, allowPartial, gaps, before, after, tail, prev, messages, target, max, result);
    }
    ReachedAnswers(data, position, pos, base, allowPartial, gaps, read, prev, target, max);
    return Ok(messages);
  }
}
