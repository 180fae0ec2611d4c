/** Sequences of fixed-width and length-prefixed fields, and when a byte string is such a sequence. */
module Fields {
  import opened Bytes

  datatype Value = Num(n: nat) | Text(b: seq<byte>)

  /** `limit` bounds the numbers the decoder accepts in a fixed-width field. */
  datatype Kind = Fixed(width: nat, limit: nat) | Prefixed(width: nat)

  predicate WellKind(k: Kind) {
    k.Fixed? ==> k.limit <= Pow256(k.width)
  }

  predicate Fits(k: Kind, v: Value) {
    match k
    case Fixed(_, limit) => v.Num? && v.n < limit
    case Prefixed(width) => v.Text? && |v.b| < Pow256(width)
  }

  function EncodeValue(k: Kind, v: Value): seq<byte> {
    match v
    case Num(n) => BE(n, k.width)
    case Text(b) => BE(|b|, k.width) + b
  }

  /** A value together with the kind of field it is written as. */
  datatype Cell = Cell(kind: Kind, value: Value)

  predicate Good(c: Cell) {
    WellKind(c.kind) && Fits(c.kind, c.value)
  }

  predicate AllGood(cells: seq<Cell>) {
    forall c | c in cells :: Good(c)
  }

  function EncodeAll(cells: seq<Cell>): seq<byte> {
    if cells == [] then [] else EncodeValue(cells[0].kind, cells[0].value) + EncodeAll(cells[1..])
  }

  /** A field knows its own length: what follows it cannot change how it reads. */
  lemma EncodeValueReadsOneWay(k: Kind, v: Value, w: Value, a: seq<byte>, b: seq<byte>)
    requires WellKind(k) && Fits(k, v) && Fits(k, w)
    requires EncodeValue(k, v) + a == EncodeValue(k, w) + b
    ensures v == w && a == b
  {
    var x, y := EncodeValue(k, v) + a, EncodeValue(k, w) + b;
    match k
    case Fixed(width, _) =>
      assert x[..width] == BE(v.n, width) && y[..width] == BE(w.n, width);
      BEInjective(v.n, w.n, width);
      assert x[width..] == a && y[width..] == b;
    case Prefixed(width) =>
      assert x[..width] == BE(|v.b|, width) && y[..width] == BE(|w.b|, width);
      BEInjective(|v.b|, |w.b|, width);
      var n := |v.b|;
      assert x[width..width + n] == v.b && y[width..width + n] == w.b;
      assert x[width + n..] == a && y[width + n..] == b;
  }

  predicate SameKinds(cs: seq<Cell>, ds: seq<Cell>) {
    |cs| == |ds| && forall i | 0 <= i < |cs| :: cs[i].kind == ds[i].kind
  }

  lemma Assoc<T>(a: seq<T>, b: seq<T>, c: seq<T>)
    ensures (a + b) + c == a + (b + c)
  {
  }

  lemma FirstReadsOneWay(cs: seq<Cell>, ds: seq<Cell>, a: seq<byte>, b: seq<byte>)
    requires cs != [] && ds != [] && Good(cs[0]) && Good(ds[0]) && cs[0].kind == ds[0].kind
    requires EncodeAll(cs) + a == EncodeAll(ds) + b
    ensures cs[0] == ds[0] && EncodeAll(cs[1..]) + a == EncodeAll(ds[1..]) + b
  {
    Assoc(EncodeValue(cs[0].kind, cs[0].value), EncodeAll(cs[1..]), a);
    Assoc(EncodeValue(ds[0].kind, ds[0].value), EncodeAll(ds[1..]), b);
    EncodeValueReadsOneWay(cs[0].kind, cs[0].value, ds[0].value, EncodeAll(cs[1..]) + a, EncodeAll(ds[1..]) + b);
  }

  lemma {:induction false} EncodeAllReadsOneWay(cs: seq<Cell>, ds: seq<Cell>, a: seq<byte>, b: seq<byte>)
    requires AllGood(cs) && AllGood(ds) && SameKinds(cs, ds)
    requires EncodeAll(cs) + a == EncodeAll(ds) + b
    ensures cs == ds && a == b
  {
    if cs == [] {
      assert [] + a == a && [] + b == b;
    } else {
      assert cs == [cs[0]] + cs[1..] && ds == [ds[0]] + ds[1..];
      FirstReadsOneWay(cs, ds, a, b);
      EncodeAllReadsOneWay(cs[1..], ds[1..], a, b);
    }
  }

  lemma {:induction false} EncodeAllConcat(cs: seq<Cell>, ds: seq<Cell>)
    ensures EncodeAll(cs + ds) == EncodeAll(cs) + EncodeAll(ds)
  {
    if cs == [] {
      assert cs + ds == ds;
    } else {
      assert (cs + ds)[1..] == cs[1..] + ds;
      EncodeAllConcat(cs[1..], ds);
    }
  }

  lemma EncodeFourParts(h: seq<byte>, a: seq<Cell>, b: seq<Cell>, c: seq<Cell>, d: seq<Cell>)
    ensures h + EncodeAll(a + b + c + d) == h + EncodeAll(a) + EncodeAll(b) + EncodeAll(c) + EncodeAll(d)
  {
    EncodeAllConcat(a + b + c, d);
    EncodeAllConcat(a + b, c);
    EncodeAllConcat(a, b);
    Assoc(h, EncodeAll(a + b + c), EncodeAll(d));
    Assoc(h, EncodeAll(a + b), EncodeAll(c));
    Assoc(h, EncodeAll(a), EncodeAll(b));
  }

  lemma EncodeOneMore(cs: seq<Cell>, c: Cell)
    ensures EncodeAll(cs + [c]) == EncodeAll(cs) + EncodeValue(c.kind, c.value)
  {
    EncodeAllConcat(cs, [c]);
    assert EncodeAll([c]) == EncodeValue(c.kind, c.value) + EncodeAll([]);
  }

  /** Bytes a field takes. */
  function SizeOf(c: Cell): nat {
    c.kind.width + (if c.value.Text? then |c.value.b| else 0)
  }

  /** Writes the i-th of the given cells at the end of a buffer that holds the earlier ones after a header. */
  method AppendValue(buf: seq<byte>, c: Cell, ghost header: seq<byte>, ghost cells: seq<Cell>,
                     ghost i: nat) returns (r: seq<byte>)
    requires i < |cells| && c == cells[i] && buf == header + EncodeAll(cells[..i])
    ensures r == header + EncodeAll(cells[..i + 1])
    ensures |r| == |buf| + SizeOf(c)
  {
    EncodeOneMore(cells[..i], c);
    assert cells[..i + 1] == cells[..i] + [c];
    Assoc(header, EncodeAll(cells[..i]), EncodeValue(c.kind, c.value));
    r := buf + EncodeValue(c.kind, c.value);
  }

  lemma SliceInTwo(data: seq<byte>, offset: nat, w: nat, n: nat)
    requires offset + w + n <= |data|
    ensures data[offset..offset + w + n] == data[offset..][..w] + data[offset..][w..w + n]
  {
  }

  /** Reads one field at a cursor: the unique value encoded there, or none if no value is. */
  method ReadValue(k: Kind, data: seq<byte>, offset: nat) returns (ok: bool, v: Value, next: nat)
    requires WellKind(k) && offset <= |data|
    ensures ok ==> offset <= next <= |data| && Fits(k, v) && data[offset..next] == EncodeValue(k, v)
    ensures !ok ==> forall w | Fits(k, w) :: !(EncodeValue(k, w) <= data[offset..])
  {
    hide BE, Val;
    var rest := data[offset..];
    ok, v, next := false, Num(0), offset;
    if k.width > |rest| { return; }
    var n := Val(rest[..k.width]);
    BEOfVal(rest[..k.width]);
    ValBound(rest[..k.width]);
    if k.Fixed? {
      forall w | Fits(k, w) && EncodeValue(k, w) <= rest ensures w.n == n {
        assert rest[..k.width] == BE(w.n, k.width);
        ValOfBE(w.n, k.width);
      }
      if n < k.limit {
        ok, v, next := true, Num(n), offset + k.width;
        assert data[offset..next] == rest[..k.width];
      }
    } else {
      forall w | Fits(k, w) && EncodeValue(k, w) <= rest ensures |w.b| == n && k.width + n <= |rest| {
        assert rest[..k.width] == BE(|w.b|, k.width);
        ValOfBE(|w.b|, k.width);
      }
      if k.width + n <= |rest| {
        ok, v, next := true, Text(rest[k.width..k.width + n]), offset + k.width + n;
        SliceInTwo(data, offset, k.width, n);
      }
    }
  }

  /** The cells read so far: the first kinds of a schema, encoded between the start and the cursor. */
  ghost predicate Reading(kinds: seq<Kind>, data: seq<byte>, start: nat, cells: seq<Cell>, pos: nat) {
    && start <= pos <= |data| && |cells| <= |kinds|
    && AllGood(cells) && (forall i | 0 <= i < |cells| :: cells[i].kind == kinds[i])
    && data[start..pos] == EncodeAll(cells)
  }

  ghost predicate AllWell(kinds: seq<Kind>) {
    forall k | k in kinds :: WellKind(k)
  }

  ghost predicate Conforms(kinds: seq<Kind>, cells: seq<Cell>) {
    |cells| == |kinds| && AllGood(cells) && forall i | 0 <= i < |kinds| :: cells[i].kind == kinds[i]
  }

  /** No cells of the schema are encoded at the start of the bytes. */
  ghost predicate Unreadable(kinds: seq<Kind>, rest: seq<byte>) {
    forall cells | Conforms(kinds, cells) :: !(EncodeAll(cells) <= rest)
  }

  lemma SplitCells(all: seq<Cell>, n: nat, rest: seq<byte>) returns (tail: seq<byte>)
    requires n <= |all| && EncodeAll(all) <= rest
    ensures rest == EncodeAll(all[..n]) + tail && EncodeAll(all[n..]) <= tail
  {
    var after := rest[|EncodeAll(all)|..];
    assert all == all[..n] + all[n..];
    EncodeAllConcat(all[..n], all[n..]);
    tail := EncodeAll(all[n..]) + after;
    Assoc(EncodeAll(all[..n]), EncodeAll(all[n..]), after);
  }

  lemma PrefixForced(first: seq<Cell>, cells: seq<Cell>, tail: seq<byte>, after: seq<byte>, last: seq<Cell>)
    requires AllGood(first) && AllGood(cells) && SameKinds(first, cells)
    requires EncodeAll(first) + tail == EncodeAll(cells) + after && EncodeAll(last) <= tail
    ensures first == cells && EncodeAll(last) <= after
  {
    EncodeAllReadsOneWay(first, cells, tail, after);
  }

  lemma FirstCells(kinds: seq<Kind>, all: seq<Cell>, n: nat)
    requires Conforms(kinds, all) && n <= |kinds|
    ensures AllGood(all[..n]) && |all[..n]| == n && forall i | 0 <= i < n :: all[..n][i].kind == kinds[i]
  {
  }

  lemma ReadingSplits(kinds: seq<Kind>, data: seq<byte>, start: nat, cells: seq<Cell>, pos: nat)
    requires Reading(kinds, data, start, cells, pos)
    ensures data[start..] == EncodeAll(cells) + data[pos..]
  {
    assert data[start..] == data[start..pos] + data[pos..];
  }

  /** Whatever the schema encodes at the start agrees with what has been read. */
  lemma ReadingIsForced(kinds: seq<Kind>, data: seq<byte>, start: nat, cells: seq<Cell>, pos: nat, all: seq<Cell>)
    requires Reading(kinds, data, start, cells, pos) && Conforms(kinds, all) && EncodeAll(all) <= data[start..]
    ensures all[..|cells|] == cells && EncodeAll(all[|cells|..]) <= data[pos..]
  {
    var tail := SplitCells(all, |cells|, data[start..]);
    ReadingSplits(kinds, data, start, cells, pos);
    FirstCells(kinds, all, |cells|);
    PrefixForced(all[..|cells|], cells, tail, data[pos..], all[|cells|..]);
  }

  lemma FieldUnreadable(kinds: seq<Kind>, data: seq<byte>, start: nat, cells: seq<Cell>, pos: nat)
    requires Reading(kinds, data, start, cells, pos) && |cells| < |kinds|
    requires forall w | Fits(kinds[|cells|], w) :: !(EncodeValue(kinds[|cells|], w) <= data[pos..])
    ensures Unreadable(kinds, data[start..])
  {
    forall all | Conforms(kinds, all) && EncodeAll(all) <= data[start..]
      ensures exists w :: Fits(kinds[|cells|], w) && EncodeValue(kinds[|cells|], w) <= data[pos..]
    {
      NextIsReadable(kinds, data, start, cells, pos, all);
    }
  }

  lemma NextIsReadable(kinds: seq<Kind>, data: seq<byte>, start: nat, cells: seq<Cell>, pos: nat, all: seq<Cell>)
    requires Reading(kinds, data, start, cells, pos) && |cells| < |kinds|
    requires Conforms(kinds, all) && EncodeAll(all) <= data[start..]
    ensures exists w :: Fits(kinds[|cells|], w) && EncodeValue(kinds[|cells|], w) <= data[pos..]
  {
    ReadingIsForced(kinds, data, start, cells, pos, all);
    FirstIsPrefix(all[|cells|..], data[pos..]);
    var c := all[|cells|];
    assert c in all && c.kind == kinds[|cells|];
    assert Fits(kinds[|cells|], c.value) && EncodeValue(kinds[|cells|], c.value) <= data[pos..];
  }

  lemma FirstIsPrefix(cells: seq<Cell>, rest: seq<byte>)
    requires cells != [] && EncodeAll(cells) <= rest
    ensures EncodeValue(cells[0].kind, cells[0].value) <= rest
  {
  }

  lemma ReadingExtends(kinds: seq<Kind>, data: seq<byte>, start: nat, cells: seq<Cell>, pos: nat, c: Cell, next: nat)
    requires Reading(kinds, data, start, cells, pos) && |cells| < |kinds| && c.kind == kinds[|cells|] && Good(c)
    requires pos <= next <= |data| && data[pos..next] == EncodeValue(c.kind, c.value)
    ensures Reading(kinds, data, start, cells + [c], next)
  {
    EncodeOneMore(cells, c);
    assert data[start..next] == data[start..pos] + data[pos..next];
  }

  /** Reads the next field of a schema at the cursor. */
  method ReadNext(kinds: seq<Kind>, data: seq<byte>, ghost start: nat, cells: seq<Cell>, pos: nat)
    returns (ok: bool, more: seq<Cell>, next: nat)
    requires AllWell(kinds) && Reading(kinds, data, start, cells, pos) && |cells| < |kinds|
    ensures ok ==> Reading(kinds, data, start, more, next) && |more| == |cells| + 1
    ensures !ok ==> Unreadable(kinds, data[start..])
  {
    var k := kinds[|cells|];
    assert k in kinds;
    var fine, v, after := ReadValue(k, data, pos);
    ok, more, next := fine, cells, pos;
    if !fine {
      FieldUnreadable(kinds, data, start, cells, pos);
      return;
    }
    more, next := cells + [Cell(k, v)], after;
    ReadingExtends(kinds, data, start, cells, pos, Cell(k, v), after);
  }
}
