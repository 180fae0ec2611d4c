/** The disk record codec (SerializeDiskMessage and DeserializeDiskMessage, util/serialize.go). */
module RecordCodec {
  import opened Common
  import opened Bytes
  import opened Fields

  type i16 = x: int | -0x8000 <= x < 0x8000
  type i32 = x: int | -0x8000_0000 <= x < 0x8000_0000
  type u32 = x: int | 0 <= x < 0x1_0000_0000
  type i64 = x: int | -0x8000_0000_0000_0000 <= x < 0x8000_0000_0000_0000

  /** Go strings are byte strings; an absent control key or value is the empty one. */
  datatype DiskMessage = DiskMessage(
    topic: seq<byte>, partition: i32, offset: u64, producerId: seq<byte>, seqNum: u64, epoch: i64,
    payload: seq<byte>, key: seq<byte>, eventType: seq<byte>, schemaVersion: u32, aggregateVersion: u64,
    metadata: seq<byte>, transactionalId: seq<byte>, transactionState: seq<byte>, transactionMarker: seq<byte>,
    controlType: seq<byte>, controlVersion: i16, controlEpoch: i64, controlKey: seq<byte>, controlValue: seq<byte>)

  /** "CDM2" */
  const MAGIC: seq<byte> := [67, 68, 77, 50]

  const TEXT := Prefixed(2)
  const LONG_TEXT := Prefixed(4)
  const U16 := Fixed(2, 0x1_0000)
  const U32 := Fixed(4, 0x1_0000_0000)
  const U64 := Fixed(8, 0x1_0000_0000_0000_0000)
  /** Signed fields the decoder only accepts when they are not negative. */
  const NAT32 := Fixed(4, 0x8000_0000)
  const NAT64 := Fixed(8, 0x8000_0000_0000_0000)

  /** The fields of a record in the order they are written. */
  const SCHEMA: seq<Kind> := [
    TEXT, NAT32, U64, TEXT, U64, NAT64, LONG_TEXT, TEXT, U32, U64,
    TEXT, TEXT, TEXT, TEXT, TEXT, TEXT, U16, U64, TEXT, TEXT]

  /** The two's complement bits of a signed number. */
  function Bits16(x: i16): nat { if x < 0 then x + 0x1_0000 else x }
  function Bits64(x: i64): nat { if x < 0 then x + 0x1_0000_0000_0000_0000 else x }

  predicate Short(s: seq<byte>) { |s| <= 0xFFFF }

  /** The messages the serializer accepts. */
  predicate Encodable(m: DiskMessage) {
    && m.partition >= 0 && m.epoch >= 0 && |m.payload| <= 0xFFFF_FFFF
    && Short(m.topic) && Short(m.producerId) && Short(m.eventType) && Short(m.metadata) && Short(m.key)
    && Short(m.transactionalId) && Short(m.transactionState) && Short(m.transactionMarker)
    && Short(m.controlType) && Short(m.controlKey) && Short(m.controlValue)
  }

  /** The cells for where a record belongs and which producer wrote it. */
  function OriginCells(m: DiskMessage): seq<Cell>
    requires Encodable(m)
  {
    [Cell(TEXT, Text(m.topic)),
     Cell(NAT32, Num(m.partition)),
     Cell(U64, Num(m.offset)),
     Cell(TEXT, Text(m.producerId)),
     Cell(U64, Num(m.seqNum)),
     Cell(NAT64, Num(m.epoch))]
  }

  /** The cells for payload, event-sourcing fields and key. */
  function EventCells(m: DiskMessage): seq<Cell>
    requires Encodable(m)
  {
    [Cell(LONG_TEXT, Text(m.payload)),
     Cell(TEXT, Text(m.eventType)),
     Cell(U32, Num(m.schemaVersion)),
     Cell(U64, Num(m.aggregateVersion)),
     Cell(TEXT, Text(m.metadata)),
     Cell(TEXT, Text(m.key))]
  }

  /** The cells for transaction metadata. */
  function TransactionCells(m: DiskMessage): seq<Cell>
    requires Encodable(m)
  {
    [Cell(TEXT, Text(m.transactionalId)),
     Cell(TEXT, Text(m.transactionState)),
     Cell(TEXT, Text(m.transactionMarker))]
  }

  /** The cells for control batch metadata. */
  function ControlCells(m: DiskMessage): seq<Cell>
    requires Encodable(m)
  {
    [Cell(TEXT, Text(m.controlType)),
     Cell(U16, Num(Bits16(m.controlVersion))),
     Cell(U64, Num(Bits64(m.controlEpoch))),
     Cell(TEXT, Text(m.controlKey)),
     Cell(TEXT, Text(m.controlValue))]
  }

  /** The fields of a record in the order they are written. */
  function CellsOf(m: DiskMessage): seq<Cell>
    requires Encodable(m)
  {
    OriginCells(m) + EventCells(m) + TransactionCells(m) + ControlCells(m)
  }

  /** The bytes of a record. */
  function Encode(m: DiskMessage): seq<byte>
    requires Encodable(m)
  {
    MAGIC + EncodeAll(CellsOf(m))
  }

  /** `EstimateDiskMessageSize`. */
  function EstimateSize(m: DiskMessage): nat {
    4 + 2 + |m.topic| + 4 + 8 + 2 + |m.producerId| + 8 + 8 +
    4 + |m.payload| + 2 + |m.key| +
    2 + |m.eventType| + 4 + 8 + 2 + |m.metadata| + 2 + |m.transactionalId| + 2 + |m.transactionState|
    + 2 + |m.transactionMarker| + 2 + |m.controlType| + 2 + 8 + 2 + |m.controlKey| + 2 + |m.controlValue|
  }

  lemma KindsAreWell()
    ensures AllWell(SCHEMA)
    ensures Pow256(2) == 0x1_0000 && Pow256(4) == 0x1_0000_0000
  {
    Powers();
  }

  lemma CellsAreGood(m: DiskMessage)
    requires Encodable(m)
    ensures AllGood(CellsOf(m)) && |CellsOf(m)| == |SCHEMA|
            && forall i | 0 <= i < |SCHEMA| :: CellsOf(m)[i].kind == SCHEMA[i]
  {
    KindsAreWell();
  }

  /** Different messages have different bytes, also when something follows them. */
  lemma EncodeInjective(m: DiskMessage, n: DiskMessage)
    requires Encodable(m) && Encodable(n) && Encode(m) == Encode(n)
    ensures m == n
  {
    CellsAreGood(m);
    CellsAreGood(n);
    var x, y := EncodeAll(CellsOf(m)), EncodeAll(CellsOf(n));
    assert (MAGIC + x)[4..] == x && (MAGIC + y)[4..] == y;
    EncodeAllReadsOneWay(CellsOf(m), CellsOf(n), [], []);
    CellsDetermine(m, n);
  }

  lemma CellsDetermine(m: DiskMessage, n: DiskMessage)
    requires Encodable(m) && Encodable(n) && CellsOf(m) == CellsOf(n)
    ensures m == n
  {
    var c, d := CellsOf(m), CellsOf(n);
    assert c[..6] == OriginCells(m) && d[..6] == OriginCells(n);
    assert c[6..12] == EventCells(m) && d[6..12] == EventCells(n);
    assert c[12..15] == TransactionCells(m) && d[12..15] == TransactionCells(n);
    assert c[15..] == ControlCells(m) && d[15..] == ControlCells(n);
  }

  method WriteOrigin(m: DiskMessage, start: seq<byte>) returns (buf: seq<byte>)
    requires Encodable(m)
    ensures buf == start + EncodeAll(OriginCells(m))
    ensures |buf| == |start| + 2 + |m.topic| + 4 + 8 + 2 + |m.producerId| + 8 + 8
  {
    hide BE, EncodeValue;
    ghost var cells := OriginCells(m);
    buf := start;
    assert start + EncodeAll(cells[..0]) == start;
    buf := AppendValue(buf, Cell(TEXT, Text(m.topic)), start, cells, 0);
    buf := AppendValue(buf, Cell(NAT32, Num(m.partition)), start, cells, 1);
    buf := AppendValue(buf, Cell(U64, Num(m.offset)), start, cells, 2);
    buf := AppendValue(buf, Cell(TEXT, Text(m.producerId)), start, cells, 3);
    buf := AppendValue(buf, Cell(U64, Num(m.seqNum)), start, cells, 4);
    buf := AppendValue(buf, Cell(NAT64, Num(m.epoch)), start, cells, 5);
    assert cells[..6] == cells;
  }

  method WriteEvent(m: DiskMessage, start: seq<byte>) returns (buf: seq<byte>)
    requires Encodable(m)
    ensures buf == start + EncodeAll(EventCells(m))
    ensures |buf| == |start| + 4 + |m.payload| + 2 + |m.eventType| + 4 + 8 + 2 + |m.metadata| + 2 + |m.key|
  {
    hide BE, EncodeValue;
    ghost var cells := EventCells(m);
    buf := start;
    assert start + EncodeAll(cells[..0]) == start;
    buf := AppendValue(buf, Cell(LONG_TEXT, Text(m.payload)), start, cells, 0);
    buf := AppendValue(buf, Cell(TEXT, Text(m.eventType)), start, cells, 1);
    buf := AppendValue(buf, Cell(U32, Num(m.schemaVersion)), start, cells, 2);
    buf := AppendValue(buf, Cell(U64, Num(m.aggregateVersion)), start, cells, 3);
    buf := AppendValue(buf, Cell(TEXT, Text(m.metadata)), start, cells, 4);
    buf := AppendValue(buf, Cell(TEXT, Text(m.key)), start, cells, 5);
    assert cells[..6] == cells;
  }

  method WriteTransaction(m: DiskMessage, start: seq<byte>) returns (buf: seq<byte>)
    requires Encodable(m)
    ensures buf == start + EncodeAll(TransactionCells(m))
    ensures |buf| == |start| + 2 + |m.transactionalId| + 2 + |m.transactionState| + 2 + |m.transactionMarker|
  {
    hide BE, EncodeValue;
    ghost var cells := TransactionCells(m);
    buf := start;
    assert start + EncodeAll(cells[..0]) == start;
    buf := AppendValue(buf, Cell(TEXT, Text(m.transactionalId)), start, cells, 0);
    buf := AppendValue(buf, Cell(TEXT, Text(m.transactionState)), start, cells, 1);
    buf := AppendValue(buf, Cell(TEXT, Text(m.transactionMarker)), start, cells, 2);
    assert cells[..3] == cells;
  }

  method WriteControl(m: DiskMessage, start: seq<byte>) returns (buf: seq<byte>)
    requires Encodable(m)
    ensures buf == start + EncodeAll(ControlCells(m))
    ensures |buf| == |start| + 2 + |m.controlType| + 2 + 8 + 2 + |m.controlKey| + 2 + |m.controlValue|
  {
    hide BE, EncodeValue;
    ghost var cells := ControlCells(m);
    buf := start;
    assert start + EncodeAll(cells[..0]) == start;
    buf := AppendValue(buf, Cell(TEXT, Text(m.controlType)), start, cells, 0);
    buf := AppendValue(buf, Cell(U16, Num(Bits16(m.controlVersion))), start, cells, 1);
    buf := AppendValue(buf, Cell(U64, Num(Bits64(m.controlEpoch))), start, cells, 2);
    buf := AppendValue(buf, Cell(TEXT, Text(m.controlKey)), start, cells, 3);
    buf := AppendValue(buf, Cell(TEXT, Text(m.controlValue)), start, cells, 4);
    assert cells[..5] == cells;
  }

  /** Appends the fields one by one; refuses a message that has a field out of range. */
  method SerializeDiskMessage(m: DiskMessage) returns (r: Option<seq<byte>>)
    ensures r.Some? <==> Encodable(m)
    ensures r.Some? <==>
              && m.partition >= 0 && m.epoch >= 0 && |m.payload| < 0x1_0000_0000
              && forall text | text in {m.topic, m.producerId, m.eventType, m.metadata, m.key, m.transactionalId,
                                        m.transactionState, m.transactionMarker, m.controlType, m.controlKey,
                                        m.controlValue} :: |text| < 0x1_0000
    ensures r.Some? ==> r.value == Encode(m) && |r.value| == EstimateSize(m)
  {
    if !Encodable(m) { return None; }
    var origin := WriteOrigin(m, MAGIC);
    var event := WriteEvent(m, origin);
    var transaction := WriteTransaction(m, event);
    var buf := WriteControl(m, transaction);
    EncodeIsGrouped(m);
    return Some(buf);
  }

  lemma EncodeIsGrouped(m: DiskMessage)
    requires Encodable(m)
    ensures Encode(m) == MAGIC + EncodeAll(OriginCells(m)) + EncodeAll(EventCells(m))
                         + EncodeAll(TransactionCells(m)) + EncodeAll(ControlCells(m))
  {
    EncodeFourParts(MAGIC, OriginCells(m), EventCells(m), TransactionCells(m), ControlCells(m));
  }

  function Signed16(n: nat): i16
    requires n < 0x1_0000
  {
    if n < 0x8000 then n else n - 0x1_0000
  }

  function Signed64(n: nat): i64
    requires n < 0x1_0000_0000_0000_0000
  {
    if n < 0x8000_0000_0000_0000 then n else n - 0x1_0000_0000_0000_0000
  }

  /** Cells of the schema carry values of the right shape. */
  lemma ConformingShape(cells: seq<Cell>, i: nat)
    requires Conforms(SCHEMA, cells) && i < |SCHEMA|
    ensures Fits(SCHEMA[i], cells[i].value)
  {
    assert cells[i] in cells;
  }

  lemma ConformingShapes(cells: seq<Cell>)
    requires Conforms(SCHEMA, cells)
    ensures forall i | 0 <= i < |SCHEMA| :: Fits(SCHEMA[i], cells[i].value)
  {
    forall i | 0 <= i < |SCHEMA| ensures Fits(SCHEMA[i], cells[i].value) { ConformingShape(cells, i); }
  }

  /** The message a full row of cells stands for. */
  method Assemble(cells: seq<Cell>) returns (m: DiskMessage)
    requires Conforms(SCHEMA, cells)
    ensures Encodable(m) && CellsOf(m) == cells
  {
    ConformingShapes(cells);
    KindsAreWell();
    m := DiskMessage(
      cells[0].value.b, cells[1].value.n, cells[2].value.n, cells[3].value.b, cells[4].value.n, cells[5].value.n,
      cells[6].value.b, cells[11].value.b, cells[7].value.b, cells[8].value.n, cells[9].value.n, cells[10].value.b,
      cells[12].value.b, cells[13].value.b, cells[14].value.b,
      cells[15].value.b, Signed16(cells[16].value.n), Signed64(cells[17].value.n), cells[18].value.b,
      cells[19].value.b);
  }

  /** The bytes are the encoding of no message. */
  ghost predicate NoMessage(data: seq<byte>) {
    forall m | Encodable(m) :: Encode(m) != data
  }

  lemma NothingEncodes(data: seq<byte>)
    requires |data| >= 4 && Unreadable(SCHEMA, data[4..])
    ensures NoMessage(data)
  {
    forall m | Encodable(m) ensures Encode(m) != data {
      CellsAreGood(m);
      assert Conforms(SCHEMA, CellsOf(m));
      assert Encode(m)[4..] == EncodeAll(CellsOf(m));
    }
  }

  lemma FullRowIsWhole(data: seq<byte>, cells: seq<Cell>, pos: nat, m: DiskMessage)
    requires 4 <= pos <= |data| && Reading(SCHEMA, data, 4, cells, pos) && |cells| == |SCHEMA|
    requires Encodable(m) && Encode(m) == data
    ensures pos == |data|
  {
    CellsAreGood(m);
    assert data[4..] == EncodeAll(CellsOf(m));
    ReadingIsForced(SCHEMA, data, 4, cells, pos, CellsOf(m));
    assert CellsOf(m)[..|cells|] == CellsOf(m);
  }

  lemma TrailingBytes(data: seq<byte>, cells: seq<Cell>, pos: nat)
    requires 4 <= pos < |data| && Reading(SCHEMA, data, 4, cells, pos) && |cells| == |SCHEMA|
    ensures NoMessage(data)
  {
    forall m | Encodable(m) ensures Encode(m) != data {
      if Encode(m) == data { FullRowIsWhole(data, cells, pos, m); }
    }
  }

  /** Topic, partition, offset, producer, sequence number and epoch. */
  method ReadOrigin(data: seq<byte>, row: seq<Cell>, start: nat) returns (ok: bool, cells: seq<Cell>, pos: nat)
    requires Reading(SCHEMA, data, 4, row, start) && |row| == 0
    ensures ok ==> Reading(SCHEMA, data, 4, cells, pos) && |cells| == 6
    ensures !ok ==> Unreadable(SCHEMA, data[4..])
  {
    KindsAreWell();
    ok, cells, pos := ReadNext(SCHEMA, data, 4, row, start);
    if !ok { return; }
    ok, cells, pos := ReadNext(SCHEMA, data, 4, cells, pos);
    if !ok { return; }
    ok, cells, pos := ReadNext(SCHEMA, data, 4, cells, pos);
    if !ok { return; }
    ok, cells, pos := ReadNext(SCHEMA, data, 4, cells, pos);
    if !ok { return; }
    ok, cells, pos := ReadNext(SCHEMA, data, 4, cells, pos);
    if !ok { return; }
    ok, cells, pos := ReadNext(SCHEMA, data, 4, cells, pos);
  }

  /** Payload, event type, schema and aggregate version, metadata and key. */
  method ReadEvent(data: seq<byte>, row: seq<Cell>, start: nat) returns (ok: bool, cells: seq<Cell>, pos: nat)
    requires Reading(SCHEMA, data, 4, row, start) && |row| == 6
    ensures ok ==> Reading(SCHEMA, data, 4, cells, pos) && |cells| == 12
    ensures !ok ==> Unreadable(SCHEMA, data[4..])
  {
    KindsAreWell();
    ok, cells, pos := ReadNext(SCHEMA, data, 4, row, start);
    if !ok { return; }
    ok, cells, pos := ReadNext(SCHEMA, data, 4, cells, pos);
    if !ok { return; }
    ok, cells, pos := ReadNext(SCHEMA, data, 4, cells, pos);
    if !ok { return; }
    ok, cells, pos := ReadNext(SCHEMA, data, 4, cells, pos);
    if !ok { return; }
    ok, cells, pos := ReadNext(SCHEMA, data, 4, cells, pos);
    if !ok { return; }
    ok, cells, pos := ReadNext(SCHEMA, data, 4, cells, pos);
  }

  /** Transactional id, state and marker. */
  method ReadTransaction(data: seq<byte>, row: seq<Cell>, start: nat) returns (ok: bool, cells: seq<Cell>, pos: nat)
    requires Reading(SCHEMA, data, 4, row, start) && |row| == 12
    ensures ok ==> Reading(SCHEMA, data, 4, cells, pos) && |cells| == 15
    ensures !ok ==> Unreadable(SCHEMA, data[4..])
  {
    KindsAreWell();
    ok, cells, pos := ReadNext(SCHEMA, data, 4, row, start);
    if !ok { return; }
    ok, cells, pos := ReadNext(SCHEMA, data, 4, cells, pos);
    if !ok { return; }
    ok, cells, pos := ReadNext(SCHEMA, data, 4, cells, pos);
  }

  /** Control batch type, version, coordinator epoch, key and value. */
  method ReadControl(data: seq<byte>, row: seq<Cell>, start: nat) returns (ok: bool, cells: seq<Cell>, pos: nat)
    requires Reading(SCHEMA, data, 4, row, start) && |row| == 15
    ensures ok ==> Reading(SCHEMA, data, 4, cells, pos) && |cells| == 20
    ensures !ok ==> Unreadable(SCHEMA, data[4..])
  {
    KindsAreWell();
    ok, cells, pos := ReadNext(SCHEMA, data, 4, row, start);
    if !ok { return; }
    ok, cells, pos := ReadNext(SCHEMA, data, 4, cells, pos);
    if !ok { return; }
    ok, cells, pos := ReadNext(SCHEMA, data, 4, cells, pos);
    if !ok { return; }
    ok, cells, pos := ReadNext(SCHEMA, data, 4, cells, pos);
    if !ok { return; }
    ok, cells, pos := ReadNext(SCHEMA, data, 4, cells, pos);
  }

  /** Moves a cursor over the fields; accepts exactly the encodings of messages and returns the encoded one. */
  method DeserializeDiskMessage(data: seq<byte>) returns (r: Option<DiskMessage>)
    ensures r.Some? ==> Encodable(r.value) && Encode(r.value) == data
    ensures r.None? ==> NoMessage(data)
  {
    hide BE, EncodeValue, CellsOf;
    if |data| < 4 || data[..4] != MAGIC {
      assert forall m | Encodable(m) :: Encode(m)[..4] == MAGIC;
      return None;
    }
    assert Reading(SCHEMA, data, 4, [], 4);
    if Unreadable(SCHEMA, data[4..]) { NothingEncodes(data); }
    var ok, cells, pos := ReadOrigin(data, [], 4);
    if !ok { return None; }
    ok, cells, pos := ReadEvent(data, cells, pos);
    if !ok { return None; }
    ok, cells, pos := ReadTransaction(data, cells, pos);
    if !ok { return None; }
    ok, cells, pos := ReadControl(data, cells, pos);
    if !ok { return None; }
    if pos != |data| { TrailingBytes(data, cells, pos); return None; }
    var m := Assemble(cells);
    assert data == data[..4] + data[4..pos];
    return Some(m);
  }
}
