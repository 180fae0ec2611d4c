/** Length-prefixed records of a segment file, and reading one at a byte position. */
module Frames {
  import opened Bytes
  import opened Fields
  import opened RecordCodec

  /** `MaxMessageSize`, 64 MiB. */
  const MAX_MESSAGE_SIZE := 0x400_0000

  /** The messages the write path accepts. */
  ghost predicate Storable(m: DiskMessage) {
    Encodable(m) && |Encode(m)| <= MAX_MESSAGE_SIZE
  }

  ghost function Frame(m: DiskMessage): seq<byte> {
    if Storable(m) then BE(|Encode(m)|, 4) + Encode(m) else []
  }

  ghost predicate AllStorable(ms: seq<DiskMessage>) {
    forall m | m in ms :: Storable(m)
  }

  /** The bytes of a segment that holds the given records. */
  ghost function Log(ms: seq<DiskMessage>): seq<byte> {
    LogFrom(ms, 0)
  }

  ghost function LogFrom(ms: seq<DiskMessage>, i: nat): seq<byte>
    decreases |ms| - i
  {
    if i >= |ms| then [] else Frame(ms[i]) + LogFrom(ms, i + 1)
  }

  lemma FrameSize(m: DiskMessage)
    requires Storable(m)
    ensures |Frame(m)| == 4 + |Encode(m)| && |Encode(m)| >= 4 && |Encode(m)| < Pow256(4)
  {
    Powers();
  }

  lemma {:induction false} LogFromLater(a: seq<DiskMessage>, b: seq<DiskMessage>, j: nat)
    ensures LogFrom(a + b, |a| + j) == LogFrom(b, j)
    decreases |b| - j
  {
    hide Frame;
    if j < |b| {
      assert (a + b)[|a| + j] == b[j];
      LogFromLater(a, b, j + 1);
    }
  }

  lemma {:induction false} LogFromConcat(a: seq<DiskMessage>, b: seq<DiskMessage>, i: nat)
    requires i <= |a|
    ensures LogFrom(a + b, i) == LogFrom(a, i) + Log(b)
    decreases |a| - i
  {
    hide Frame;
    if i == |a| {
      LogFromLater(a, b, 0);
    } else {
      assert (a + b)[i] == a[i];
      LogFromConcat(a, b, i + 1);
      Assoc(Frame(a[i]), LogFrom(a, i + 1), Log(b));
    }
  }

  lemma LogConcat(a: seq<DiskMessage>, b: seq<DiskMessage>)
    ensures Log(a + b) == Log(a) + Log(b)
  {
    LogFromConcat(a, b, 0);
  }

  lemma LogNothing()
    ensures Log([]) == []
  {
  }

  lemma LogOne(m: DiskMessage)
    ensures Log([m]) == Frame(m)
  {
    assert LogFrom([m], 0) == Frame(m) + LogFrom([m], 1);
  }

  lemma LogFirst(m: DiskMessage, later: seq<DiskMessage>)
    ensures Log([m] + later) == Frame(m) + Log(later)
  {
    LogConcat([m], later);
    LogOne(m);
  }

  lemma LogSnoc(front: seq<DiskMessage>, m: DiskMessage)
    ensures Log(front + [m]) == Log(front) + Frame(m)
  {
    LogConcat(front, [m]);
    LogOne(m);
  }

  lemma LogAround(front: seq<DiskMessage>, m: DiskMessage, back: seq<DiskMessage>)
    ensures Log(front + [m] + back) == Log(front) + Frame(m) + Log(back)
  {
    LogConcat(front + [m], back);
    LogSnoc(front, m);
  }

  /** A frame knows its own length: what follows cannot change how it reads. */
  lemma FrameReadsOneWay(m: DiskMessage, n: DiskMessage, a: seq<byte>, b: seq<byte>)
    requires Storable(m) && Storable(n) && Frame(m) + a == Frame(n) + b
    ensures m == n && a == b
  {
    FrameSize(m);
    FrameSize(n);
    var k := Prefixed(4);
    EncodeValueReadsOneWay(k, Text(Encode(m)), Text(Encode(n)), a, b);
    EncodeInjective(m, n);
  }

  // ---------------------------------------------------------------------------------------------
  // Reading at a position

  datatype FrameRead =
    | End                                   // nothing left
    | Partial                               // fewer bytes left than the record needs
    | Corrupt                               // impossible length, or bytes that are no record
    | Found(message: DiskMessage, next: nat)

  /** Bytes that start a record without finishing it. */
  predicate PartialFrame(rest: seq<byte>) {
    0 < |rest| && (|rest| < 4 || (0 < Val(rest[..4]) <= MAX_MESSAGE_SIZE && |rest| < 4 + Val(rest[..4])))
  }

  /** What reading at the start of some bytes gives. */
  ghost predicate ReadsAs(rest: seq<byte>, pos: nat, r: FrameRead) {
    match r
    case End => rest == []
    case Partial => PartialFrame(rest)
    case Found(m, next) => Storable(m) && next == pos + |Frame(m)| && Frame(m) <= rest
    case Corrupt => rest != [] && !PartialFrame(rest) && forall m | Storable(m) :: !(Frame(m) <= rest)
  }

  lemma FrameLength(m: DiskMessage, rest: seq<byte>)
    requires Storable(m) && Frame(m) <= rest
    ensures |rest| >= 4 && Val(rest[..4]) == |Encode(m)| && 4 + Val(rest[..4]) <= |rest|
    ensures rest[4..4 + Val(rest[..4])] == Encode(m)
    ensures 0 < Val(rest[..4]) <= MAX_MESSAGE_SIZE
  {
    FrameSize(m);
    ValOfBE(|Encode(m)|, 4);
    assert rest[..4] == BE(|Encode(m)|, 4);
    assert Frame(m)[4..] == Encode(m);
  }

  method ReadFrame(data: seq<byte>, pos: nat) returns (r: FrameRead)
    requires pos <= |data|
    ensures ReadsAs(data[pos..], pos, r)
  {
    hide BE, Val, CellsOf, EncodeAll, Encodable;
    var rest := data[pos..];
    if rest == [] { return End; }
    if |rest| < 4 { return Partial; }
    var n := Val(rest[..4]);
    forall m | Storable(m) && Frame(m) <= rest
      ensures n == |Encode(m)| && 4 + n <= |rest| && rest[4..4 + n] == Encode(m) && 0 < n <= MAX_MESSAGE_SIZE
    {
      FrameLength(m, rest);
    }
    if n == 0 || n > MAX_MESSAGE_SIZE { return Corrupt; }
    if 4 + n > |rest| { return Partial; }
    var decoded := DeserializeDiskMessage(rest[4..4 + n]);
    if decoded.None? { return Corrupt; }
    var m := decoded.value;
    BEOfVal(rest[..4]);
    assert rest[..4 + n] == rest[..4] + rest[4..4 + n];
    return Found(m, pos + 4 + n);
  }

  /** Reading has one answer. */
  lemma ReadsOneWay(rest: seq<byte>, pos: nat, r: FrameRead, s: FrameRead)
    requires ReadsAs(rest, pos, r) && ReadsAs(rest, pos, s)
    ensures r == s
  {
    forall m | Storable(m) && Frame(m) <= rest ensures !PartialFrame(rest) && rest != [] {
      FrameLength(m, rest);
    }
    if r.Found? && s.Found? {
      var a, b := rest[|Frame(r.message)|..], rest[|Frame(s.message)|..];
      assert rest == Frame(r.message) + a && rest == Frame(s.message) + b;
      FrameReadsOneWay(r.message, s.message, a, b);
    }
  }

  /** Reading whole records finds the first one; reading a cut record finds it partial. */
  lemma ReadsWhole(m: DiskMessage, more: seq<byte>, pos: nat)
    requires Storable(m)
    ensures ReadsAs(Frame(m) + more, pos, Found(m, pos + |Frame(m)|))
  {
  }

  lemma ReadsCut(m: DiskMessage, rest: seq<byte>, pos: nat)
    requires Storable(m) && rest < Frame(m) && rest != []
    ensures ReadsAs(rest, pos, Partial)
  {
    FrameSize(m);
    ValOfBE(|Encode(m)|, 4);
    if |rest| >= 4 {
      assert rest[..4] == Frame(m)[..4] == BE(|Encode(m)|, 4);
    }
  }
}
