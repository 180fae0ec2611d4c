/** What appending, rolling, truncating, rewriting and reopening do to a store (pkg/disk). */
module StoreChanges {
  import opened Common
  import opened Bytes
  import opened Fields
  import opened RecordCodec
  import opened Frames
  import opened Index
  import opened Recovery
  import opened LogReader
  import opened SegmentStore

  // ---------------------------------------------------------------------------------------------
  // Files other than the active segment's

  /** The closed segments of `s` are as they are in `t`. */
  ghost predicate SameClosed(s: Store, t: Store, closed: seq<Part>) {
    forall p | p in closed ::
      && p.base in s.logs && p.base in t.logs && t.logs[p.base] == s.logs[p.base]
      && (p.base in t.indexes ==> p.base in s.indexes && t.indexes[p.base] == s.indexes[p.base])
      && (p.base in t.compacted <==> p.base in s.compacted)
      && (p.base in s.compacted ==> t.compacted[p.base] == s.compacted[p.base])
  }

  lemma ClosedStay(s: Store, t: Store, closed: seq<Part>)
    requires ClosedAll(s, closed) && SameClosed(s, t, closed)
    ensures ClosedAll(t, closed)
  {
    forall p | p in closed ensures ClosedOk(t, p) {
      assert ClosedOk(s, p);
    }
  }

  // ---------------------------------------------------------------------------------------------
  // Appending a record to the active segment

  function Appended(s: Store, bytes: seq<byte>, entry: Option<IndexEntry>): Store
    requires s.current in s.logs && s.current in s.indexes
  {
    s.(logs := s.logs[s.current := s.logs[s.current] + bytes],
       indexes := if entry.Some? then s.indexes[s.current := s.indexes[s.current] + [entry.value]] else s.indexes,
       size := s.size + |bytes|, end := s.end + 1,
       lastIndexed := if entry.Some? then entry.value.position else s.lastIndexed)
  }

  lemma SoundSnoc(ms: seq<DiskMessage>, m: DiskMessage, base: nat)
    requires Sound(ms, base, false) && Storable(m) && m.offset == base + |ms|
    ensures Sound(ms + [m], base, false)
  {
  }

  lemma IndexStaysTrue(index: seq<IndexEntry>, base: nat, ms: seq<DiskMessage>, m: DiskMessage)
    requires TrueIndex(index, base, ms)
    ensures TrueIndex(index, base, ms + [m])
  {
    forall e | e in index ensures PointsAt(e, base, ms + [m]) {
      assert PointsAt(e, base, ms);
      assert (ms + [m])[..e.offset - base] == ms[..e.offset - base];
    }
  }

  lemma IndexGrowsTrue(index: seq<IndexEntry>, base: nat, ms: seq<DiskMessage>, m: DiskMessage, e: IndexEntry)
    requires TrueIndex(index, base, ms) && e == IndexEntry(base + |ms|, |Log(ms)|) && LastPosition(index) < e.position
    ensures TrueIndex(index + [e], base, ms + [m])
  {
    IndexStaysTrue(index, base, ms, m);
    assert (ms + [m])[..|ms|] == ms;
    if index != [] { assert PointsAt(index[|index| - 1], base, ms); }
    ContinuesIncreases(index, e);
  }

  ghost function Grown(p: Part, m: DiskMessage): Part {
    Part(p.base, p.records + [m], p.next + 1)
  }

  lemma AppendKeepsActive(s: Store, active: Part, m: DiskMessage, entry: Option<IndexEntry>)
    requires ActiveOk(s, active) && Storable(m) && m.offset == s.end
    requires entry.Some? ==> entry.value == IndexEntry(s.end, s.size) && s.lastIndexed < s.size
    ensures ActiveOk(Appended(s, Frame(m), entry), Grown(active, m))
  {
    LogSnoc(active.records, m);
    SoundSnoc(active.records, m, active.base);
    if entry.Some? {
      IndexGrowsTrue(s.indexes[s.current], active.base, active.records, m, entry.value);
    } else {
      IndexStaysTrue(s.indexes[s.current], active.base, active.records, m);
    }
  }

  lemma LinkedActive(closed: seq<Part>, p: Part, q: Part)
    requires Linked(closed + [p]) && q.base == p.base
    ensures Linked(closed + [q]) && Bases(closed + [q]) == Bases(closed + [p])
  {
    var a, b := closed + [p], closed + [q];
    forall i {:trigger b[i].next} | 0 <= i < |b| - 1 ensures b[i].base < b[i].next == b[i + 1].base {
      assert a[i].next == a[i + 1].base;
    }
  }

  lemma OthersStay(s: Store, t: Store, closed: seq<Part>, active: Part)
    requires Holds(s, closed, active) && t.compacted == s.compacted
    requires forall b | b in s.logs && b != s.current :: b in t.logs && t.logs[b] == s.logs[b]
    requires forall b | b in t.indexes && b != s.current :: b in s.indexes && t.indexes[b] == s.indexes[b]
    ensures ClosedAll(t, closed)
  {
    forall p | p in closed ensures p.base != s.current && p.base in s.logs {
      ClosedBases(closed, active, p);
      assert ClosedOk(s, p);
    }
    ClosedStay(s, t, closed);
  }

  lemma AppendKeeps(s: Store, closed: seq<Part>, active: Part, m: DiskMessage, entry: Option<IndexEntry>)
    requires Holds(s, closed, active) && Storable(m) && m.offset == s.end
    requires entry.Some? ==> entry.value == IndexEntry(s.end, s.size) && s.lastIndexed < s.size
    ensures Holds(Appended(s, Frame(m), entry), closed, Grown(active, m))
    ensures Retained(closed, Grown(active, m)) == Retained(closed, active) + [m]
  {
    AppendKeepsActive(s, active, m, entry);
    LinkedActive(closed, active, Grown(active, m));
    OthersStay(s, Appended(s, Frame(m), entry), closed, active);
    FlatSnoc(closed, active, 0);
    FlatSnoc(closed, Grown(active, m), 0);
    Assoc(Flat(closed, 0), active.records, [m]);
  }

  // ---------------------------------------------------------------------------------------------
  // Rolling to a new segment

  function Rotated(s: Store): Store {
    s.(logs := s.logs[s.end := []], indexes := s.indexes[s.end := []], segments := s.segments + [s.end],
       current := s.end, size := 0, lastIndexed := 0)
  }

  lemma LinkedSnoc(parts: seq<Part>, p: Part, q: Part)
    requires Linked(parts + [p]) && p.base < p.next == q.base
    ensures Linked(parts + [p] + [q]) && Bases(parts + [p] + [q]) == Bases(parts + [p]) + [q.base]
  {
    var a, b := parts + [p], parts + [p] + [q];
    forall i {:trigger b[i].next} | 0 <= i < |b| - 1 ensures b[i].base < b[i].next == b[i + 1].base {
      if i < |parts| { assert a[i].next == a[i + 1].base; }
    }
  }

  /** The active segment of a store that is not empty closes without gaps. */
  lemma ActiveCloses(s: Store, active: Part)
    requires ActiveOk(s, active) && s.size > 0
    ensures ClosedOk(s, active)
  {
    ActiveWithin(active);
    TrueIsHonest(s.indexes[active.base], active.base, active.records, s.logs[active.base]);
  }

  lemma EmptyIsActive(s: Store, base: nat)
    requires s.current == base == s.end && base in s.logs && s.logs[base] == [] && s.size == 0 && s.lastIndexed == 0
    requires base !in s.compacted && base in s.indexes && s.indexes[base] == []
    ensures ActiveOk(s, Part(base, [], base))
  {
  }

  lemma RotateKeeps(s: Store, closed: seq<Part>, active: Part)
    requires Holds(s, closed, active) && s.size > 0
    ensures Holds(Rotated(s), closed + [active], Part(s.end, [], s.end))
    ensures Retained(closed + [active], Part(s.end, [], s.end)) == Retained(closed, active)
  {
    var t, empty := Rotated(s), Part(s.end, [], s.end);
    LinkedSnoc(closed, active, empty);
    EmptyIsActive(t, s.end);
    ActiveCloses(s, active);
    forall p | p in closed + [active] ensures p.base < s.end && ClosedOk(s, p) {
      if p in closed { ClosedBases(closed, active, p); }
    }
    ClosedStay(s, t, closed + [active]);
    FlatSnoc(closed + [active], empty, 0);
  }

  // ---------------------------------------------------------------------------------------------
  // Truncation

  /** `kept` is what is left of the records when exactly those at or after `n` are dropped. */
  ghost predicate DropsFrom(ms: seq<DiskMessage>, n: nat, kept: seq<DiskMessage>) {
    exists dropped :: ms == kept + dropped && AllBelow(kept, n) && AllFrom(dropped, n)
  }

  function Replace<V>(files: map<nat, V>, removed: set<nat>, base: nat, content: V): map<nat, V> {
    (files - removed)[base := content]
  }

  function Truncated(s: Store, base: nat, position: nat, n: nat, kept: seq<nat>, removed: set<nat>): Store
    requires base in s.logs && position <= |s.logs[base]|
  {
    s.(logs := Replace(s.logs, removed, base, s.logs[base][..position]),
        indexes := Replace(s.indexes, removed, base, []),
       compacted := s.compacted - removed, segments := kept,
       current := base, size := position, end := n, lastIndexed := 0)
  }

  lemma {:induction false} FlatSplit(parts: seq<Part>, t: nat, i: nat)
    requires i <= t <= |parts|
    ensures Flat(parts, i) == Flat(parts[..t], i) + Flat(parts, t)
    decreases t - i
  {
    if i < t {
      assert parts[..t][i] == parts[i];
      FlatSplit(parts, t, i + 1);
      Assoc(parts[i].records, Flat(parts[..t], i + 1), Flat(parts, t));
    }
  }

  lemma {:induction false} FlatBelow(s: Store, parts: seq<Part>, t: nat, i: nat)
    requires AllReadOk(s, parts) && i <= t < |parts|
    ensures AllBelow(Flat(parts[..t], i), parts[t].base)
    decreases t - i
  {
    if i < t {
      assert parts[..t][i] == parts[i];
      RecordsBelow(s, parts, i, t);
      FlatBelow(s, parts, t, i + 1);
    }
  }

  lemma HalvesSplit(front: seq<DiskMessage>, back: seq<DiskMessage>, base: nat, n: nat)
    requires Contiguous(front + back, base) && n == base + |front|
    ensures AllBelow(front, n) && AllFrom(back, n)
  {
    var all := front + back;
    forall m | m in front ensures m.offset < n {
      var i :| 0 <= i < |front| && front[i] == m;
      assert all[i] == m;
    }
    forall m | m in back ensures m.offset >= n {
      var i :| 0 <= i < |back| && back[i] == m;
      assert all[|front| + i] == m;
    }
  }

  lemma TruncateDrops(s: Store, parts: seq<Part>, t: nat, n: nat, front: seq<DiskMessage>, back: seq<DiskMessage>)
    requires AllReadOk(s, parts) && t < |parts| && (t + 1 < |parts| ==> n <= parts[t + 1].base)
    requires parts[t].records == front + back && n == parts[t].base + |front| && Contiguous(front + back, parts[t].base)
    ensures DropsFrom(Flat(parts, 0), n, Flat(parts[..t], 0) + front)
  {
    hide Flat, DropsFrom, Contiguous, AllFrom;
    var before, after := Flat(parts[..t], 0), Flat(parts, t + 1);
    FlatAround(parts, t, front, back);
    FlatBelow(s, parts, t, 0);
    assert AllBelow(before, n);
    HalvesSplit(front, back, parts[t].base, n);
    FlatFrom(s, parts, t + 1, n);
    SidesJoin(before, front, back, after, n);
  }

  lemma SidesJoin(a: seq<DiskMessage>, b: seq<DiskMessage>, c: seq<DiskMessage>, d: seq<DiskMessage>, n: nat)
    requires AllBelow(a, n) && AllBelow(b, n) && AllFrom(c, n) && AllFrom(d, n)
    ensures DropsFrom((a + b) + (c + d), n, a + b)
  {
    assert AllBelow(a + b, n) && AllFrom(c + d, n);
  }

  lemma FlatAround(parts: seq<Part>, t: nat, front: seq<DiskMessage>, back: seq<DiskMessage>)
    requires t < |parts| && parts[t].records == front + back
    ensures Flat(parts, 0) == (Flat(parts[..t], 0) + front) + (back + Flat(parts, t + 1))
  {
    FlatSplit(parts, t, 0);
    FourWay(Flat(parts[..t], 0), front, back, Flat(parts, t + 1));
  }

  lemma FourWay(a: seq<DiskMessage>, b: seq<DiskMessage>, c: seq<DiskMessage>, d: seq<DiskMessage>)
    ensures a + ((b + c) + d) == (a + b) + (c + d)
  {
  }

  lemma LinkedPrefix(parts: seq<Part>, t: nat, p: Part)
    requires Linked(parts) && t < |parts| && p.base == parts[t].base
    ensures Linked(parts[..t] + [p]) && Bases(parts[..t] + [p]) == Bases(parts)[..t + 1]
  {
    var b := parts[..t] + [p];
    forall i {:trigger b[i].next} | 0 <= i < |b| - 1 ensures b[i].base < b[i].next == b[i + 1].base {
      assert parts[i].next == parts[i + 1].base;
    }
  }

  lemma PrefixIsSound(front: seq<DiskMessage>, back: seq<DiskMessage>, base: nat)
    requires Sound(front + back, base, false)
    ensures Sound(front, base, false) && Log(front) <= Log(front + back)
  {
    PartsFit(front, back, base);
    LogConcat(front, back);
  }

  /** A segment without gaps, cut after its records below `n`, can take appends again. */
  lemma CutIsActive(s: Store, base: nat, front: seq<DiskMessage>, back: seq<DiskMessage>, kept: seq<nat>,
                    removed: set<nat>)
    requires base in s.logs && s.logs[base] == Log(front + back) && Sound(front + back, base, false)
    requires base !in s.compacted
    ensures |Log(front)| <= |s.logs[base]|
    ensures ActiveOk(Truncated(s, base, |Log(front)|, base + |front|, kept, removed), Part(base, front, base + |front|))
  {
    PrefixIsSound(front, back, base);
  }

  /** `removed` are the bases of the parts after part `t`. */
  ghost predicate Later(parts: seq<Part>, t: nat, removed: set<nat>) {
    && (forall b | b in removed :: exists i | t < i < |parts| :: b == parts[i].base)
    && (forall i | t < i < |parts| :: parts[i].base in removed)
  }

  lemma TrackedAfterCut(s: Store, parts: seq<Part>, t: nat, removed: set<nat>, b: nat)
    requires s.segments == Bases(parts) && Linked(parts) && t < |parts| && Later(parts, t, removed)
    requires parts[t].base !in s.compacted
    requires Tracked(s) && b in s.compacted && b !in removed
    ensures b in s.segments[..t + 1] && b < parts[t].base
  {
    var i :| 0 <= i < |parts| && s.segments[i] == b;
    assert s.segments[i] == parts[i].base;
    assert s.segments[..t + 1][i] == b;
    StartsIncrease(parts, i, t);
  }

  lemma FrontStays(s: Store, t: Store, parts: seq<Part>, k: nat, removed: set<nat>)
    requires Linked(parts) && k < |parts| && ClosedAll(s, parts[..k]) && Later(parts, k, removed)
    requires t.compacted == s.compacted - removed
    requires forall b | b in s.logs && b !in removed && b != parts[k].base :: b in t.logs && t.logs[b] == s.logs[b]
    requires forall b | b in t.indexes && b != parts[k].base :: b in s.indexes && t.indexes[b] == s.indexes[b]
    ensures ClosedAll(t, parts[..k])
  {
    forall p | p in parts[..k] ensures p.base in s.logs && p.base < parts[k].base && p.base !in removed {
      var i :| 0 <= i < k && parts[..k][i] == p;
      StartsIncrease(parts, i, k);
      assert ClosedOk(s, p);
      if p.base in removed {
        var j :| k < j < |parts| && p.base == parts[j].base;
        StartsIncrease(parts, i, j);
      }
    }
    ClosedStay(s, t, parts[..k]);
  }

  lemma TargetIsWhole(s: Store, closed: seq<Part>, active: Part, t: nat, target: Part)
    requires Holds(s, closed, active) && t <= |closed| && target == (closed + [active])[t]
    requires target.base !in s.compacted
    ensures target.base in s.logs && s.logs[target.base] == Log(target.records)
    ensures Sound(target.records, target.base, false)
    ensures target.next == target.base + |target.records| && ClosedAll(s, (closed + [active])[..t])
    ensures t < |closed| ==> target.next == (closed + [active])[t + 1].base
    ensures t == |closed| ==> target.next == s.end
  {
    var parts := closed + [active];
    if t < |closed| {
      assert target in closed;
      assert ClosedOk(s, target);
      assert parts[t].next == parts[t + 1].base;
    }
    forall p | p in parts[..t] ensures ClosedOk(s, p) { assert parts[..t] == closed[..t]; }
  }

  lemma TruncateKeeps(s: Store, closed: seq<Part>, active: Part, parts: seq<Part>, t: nat, n: nat,
                      front: seq<DiskMessage>, back: seq<DiskMessage>, removed: set<nat>)
    requires Holds(s, closed, active) && parts == closed + [active] && t < |parts| && Later(parts, t, removed)
    requires parts[t].base !in s.compacted
    requires parts[t].records == front + back && n == parts[t].base + |front|
    requires (t + 1 < |parts| ==> n < parts[t + 1].base)
    ensures parts[t].base in s.logs && |Log(front)| <= |s.logs[parts[t].base]|
    ensures Holds(Truncated(s, parts[t].base, |Log(front)|, n, s.segments[..t + 1], removed), parts[..t],
        Part(parts[t].base, front, n))
    ensures DropsFrom(Retained(closed, active), n, Retained(parts[..t], Part(parts[t].base, front, n)))
  {
    var base, cut := parts[t].base, Part(parts[t].base, front, n);
    TargetIsWhole(s, closed, active, t, parts[t]);
    CutIsActive(s, base, front, back, s.segments[..t + 1], removed);
    forall b | b in s.compacted && b !in removed ensures b in s.segments[..t + 1] && b < base {
      TrackedAfterCut(s, parts, t, removed, b);
    }
    LinkedPrefix(parts, t, cut);
    FrontStays(s, Truncated(s, base, |Log(front)|, n, s.segments[..t + 1], removed), parts, t, removed);
    HoldsIsReadable(s, closed, active);
    TruncateDrops(s, parts, t, n, front, back);
    FlatSnoc(parts[..t], cut, 0);
  }

  // ---------------------------------------------------------------------------------------------
  // Rewriting a closed segment

  /** `index` is absent where the new index file could not be put in place and the old one stays. */
  function Replaced(s: Store, base: nat, log: seq<byte>, index: Option<seq<IndexEntry>>): Store {
    s.(logs := s.logs[base := log], compacted := s.compacted[base := |log|],
       indexes := if index.Some? then s.indexes[base := index.value] else s.indexes)
  }

  ghost predicate IndexServes(s: Store, base: nat, index: Option<seq<IndexEntry>>, kept: seq<DiskMessage>) {
    match index
    case Some(fresher) => Honest(fresher, Log(kept), kept)
    case None => base in s.indexes ==> Honest(s.indexes[base], Log(kept), kept)
  }

  lemma ReplaceLinked(closed: seq<Part>, active: Part, i: nat, q: Part)
    requires Linked(closed + [active]) && i < |closed| && q.base == closed[i].base && q.next == closed[i].next
    ensures Linked(closed[i := q] + [active]) && Bases(closed[i := q] + [active]) == Bases(closed + [active])
  {
    var a, b := closed + [active], closed[i := q] + [active];
    forall k {:trigger b[k].next} | 0 <= k < |b| - 1 ensures b[k].base < b[k].next == b[k + 1].base {
      assert a[k].next == a[k + 1].base;
    }
  }

  lemma OtherBases(closed: seq<Part>, active: Part, i: nat, k: nat)
    requires Linked(closed + [active]) && i < |closed| && k < |closed| && i != k
    ensures closed[i].base != closed[k].base
  {
    var parts := closed + [active];
    assert parts[i] == closed[i] && parts[k] == closed[k];
    if i < k { StartsIncrease(parts, i, k); } else { StartsIncrease(parts, k, i); }
  }

  lemma ReplaceKeepsClosed(s: Store, closed: seq<Part>, active: Part, i: nat, kept: seq<DiskMessage>,
                           index: Option<seq<IndexEntry>>, q: Part)
    requires Holds(s, closed, active) && i < |closed| && q == Part(closed[i].base, kept, closed[i].next)
    requires AllStorable(kept) && Ascending(kept) && Within(kept, q.base, q.next) && IndexServes(s, q.base, index, kept)
    ensures ClosedAll(Replaced(s, q.base, Log(kept), index), closed[i := q])
  {
    var t := Replaced(s, q.base, Log(kept), index);
    forall p | p in closed[i := q] ensures ClosedOk(t, p) {
      var k :| 0 <= k < |closed| && closed[i := q][k] == p;
      if k != i {
        OtherBases(closed, active, i, k);
        assert ClosedOk(s, closed[k]);
      } else {
        assert ClosedOk(s, closed[i]);
      }
    }
  }

  /** A closed segment may be replaced by any selection of its records in their order. */
  lemma ReplaceKeeps(s: Store, closed: seq<Part>, active: Part, i: nat, kept: seq<DiskMessage>,
                     index: Option<seq<IndexEntry>>, q: Part)
    requires Holds(s, closed, active) && i < |closed| && q == Part(closed[i].base, kept, closed[i].next)
    requires AllStorable(kept) && Ascending(kept) && Within(kept, q.base, q.next) && IndexServes(s, q.base, index, kept)
    ensures Holds(Replaced(s, q.base, Log(kept), index), closed[i := q], active)
  {
    ReplaceKeepsClosed(s, closed, active, i, kept, index, q);
    ReplaceLinked(closed, active, i, q);
    ClosedBases(closed, active, closed[i]);
    assert s.segments[i] == closed[i].base;
  }

  // ---------------------------------------------------------------------------------------------
  // Reopening after a crash

  function Reopened(s: Store, log: seq<byte>, index: seq<IndexEntry>, end: nat): Store {
    s.(logs := s.logs[s.current := log], indexes := s.indexes[s.current := index],
       size := |log|, end := end, lastIndexed := LastPosition(index))
  }

  lemma LogGrows(ms: seq<DiskMessage>, j: nat, k: nat)
    requires j <= k <= |ms|
    ensures |Log(ms[..j])| <= |Log(ms[..k])|
  {
    assert ms[..k] == ms[..j] + ms[j..k];
    LogConcat(ms[..j], ms[j..k]);
  }

  /** Entries inside the kept bytes point at kept records. */
  lemma IndexOfPrefix(index: seq<IndexEntry>, base: nat, front: seq<DiskMessage>, back: seq<DiskMessage>,
                      kept: seq<IndexEntry>)
    requires TrueIndex(index, base, front + back) && kept <= index && Increasing(kept) && Below(kept, |Log(front)|)
    ensures TrueIndex(kept, base, front)
  {
    var ms := front + back;
    forall e | e in kept ensures PointsAt(e, base, front) {
      assert e in index;
      assert PointsAt(e, base, ms);
      var k := e.offset - base;
      assert ms[..|front|] == front;
      if k >= |front| { LogGrows(ms, |front|, k); }
      assert ms[..k] == front[..k];
    }
  }

  lemma ReopenKeeps(s: Store, closed: seq<Part>, active: Part, front: seq<DiskMessage>, back: seq<DiskMessage>,
                    index: seq<IndexEntry>)
    requires Holds(s, closed, active) && active.records == front + back
    requires index <= s.indexes[s.current] && Increasing(index) && Below(index, |Log(front)|)
    ensures Holds(Reopened(s, Log(front), index, active.base + |front|), closed,
        Part(active.base, front, active.base + |front|))
    ensures Retained(closed, active) == Retained(closed, Part(active.base, front, active.base + |front|)) + back
  {
    var cut := Part(active.base, front, active.base + |front|);
    PrefixIsSound(front, back, active.base);
    IndexOfPrefix(s.indexes[s.current], active.base, front, back, index);
    LinkedActive(closed, active, cut);
    OthersStay(s, Reopened(s, Log(front), index, active.base + |front|), closed, active);
    FlatSnoc(closed, active, 0);
    FlatSnoc(closed, cut, 0);
    Assoc(Flat(closed, 0), front, back);
  }

  lemma PrefixTail(data: seq<byte>, whole: seq<byte>, k: nat)
    requires data <= whole && k <= |data|
    ensures data[k..] <= whole[k..]
  {
  }

  lemma AfterFirst(a: seq<byte>, f: seq<byte>, b: seq<byte>)
    ensures |a| <= |a + f + b| && (a + f + b)[|a|..] == f + b
  {
  }

  /** The record that matches an entry of a cut segment ends before the cut. */
  lemma FrameEnds(data: seq<byte>, front: seq<DiskMessage>, x: DiskMessage, back: seq<DiskMessage>, e: IndexEntry)
    requires Storable(x) && data <= Log(front + [x] + back) && Matches(data, e) && e.position == |Log(front)|
    ensures |Log(front + [x])| <= |data|
  {
    var m :| Storable(m) && Frame(m) <= data[e.position..] && m.offset == e.offset;
    LogAround(front, x, back);
    LogSnoc(front, x);
    SameFrame(data, Log(front), x, Log(back), m);
  }

  lemma SameFrame(data: seq<byte>, a: seq<byte>, x: DiskMessage, b: seq<byte>, m: DiskMessage)
    requires Storable(x) && Storable(m) && data <= a + Frame(x) + b && |a| <= |data| && Frame(m) <= data[|a|..]
    ensures m == x
  {
    PrefixTail(data, a + Frame(x) + b, |a|);
    AfterFirst(a, Frame(x), b);
    ReadsWhole(x, b, 0);
    ReadsOneWay(Frame(x) + b, 0, Found(x, |Frame(x)|), Found(m, |Frame(m)|));
  }

  lemma EntryFits(data: seq<byte>, ms: seq<DiskMessage>, k: nat, e: IndexEntry)
    requires k < |ms| && Storable(ms[k]) && data <= Log(ms) && Matches(data, e) && e.position == |Log(ms[..k])|
    ensures |Log(ms[..k + 1])| <= |data|
  {
    Around(ms, k);
    FrameEnds(data, ms[..k], ms[k], ms[k + 1..], e);
  }

  lemma Around(ms: seq<DiskMessage>, k: nat)
    requires k < |ms|
    ensures ms == ms[..k] + [ms[k]] + ms[k + 1..] && ms[..k + 1] == ms[..k] + [ms[k]]
  {
  }

  lemma FittingIsKept(ms: seq<DiskMessage>, k: nat, cut: nat)
    requires k < |ms| && |Log(ms[..k + 1])| <= cut
    ensures AtRecord(KeptRecords(ms, cut), |Log(ms[..k])|)
  {
    var n := Whole(ms, cut, |ms|);
    if k >= n { LogGrows(ms, n + 1, k + 1); }
    assert ms[..n][..k] == ms[..k];
  }

  lemma EntryIsKept(e: IndexEntry, base: nat, ms: seq<DiskMessage>, cut: nat, data: seq<byte>)
    requires PointsAt(e, base, ms) && CutOf(data, ms, base, cut) && Matches(data, e)
    ensures AtRecord(KeptRecords(ms, cut), e.position)
  {
    var k := e.offset - base;
    assert ms[k] in ms;
    EntryFits(data, ms, k, e);
    FittingIsKept(ms, k, cut);
  }

  /** What a crash leaves of the writer's index cannot mislead recovery. */
  lemma TrueIndexSurvivesCut(index: seq<IndexEntry>, base: nat, ms: seq<DiskMessage>, cut: nat, data: seq<byte>)
    requires (forall e | e in index :: PointsAt(e, base, ms)) && CutOf(data, ms, base, cut)
    ensures Honest(index, data, KeptRecords(ms, cut))
  {
    forall e | e in index && Matches(data, e) ensures AtRecord(KeptRecords(ms, cut), e.position) {
      EntryIsKept(e, base, ms, cut, data);
    }
  }

  // ---------------------------------------------------------------------------------------------
  // A compacted replica range

  /** The range `[s.end, end)` installed over the empty active segment, with an empty tail segment after it. */
  function WithRange(s: Store, log: seq<byte>, index: seq<IndexEntry>, end: nat): Store {
    Store(s.logs[s.current := log][end := []], s.indexes[s.current := index][end := []],
        s.compacted[s.current := |log|],
          s.segments + [end], end, 0, end, 0)
  }

  lemma RangeCloses(s: Store, active: Part, batch: seq<DiskMessage>, index: seq<IndexEntry>, end: nat)
    requires ActiveOk(s, active) && s.size == 0 && active.base < end
    requires AllStorable(batch) && Ascending(batch) && Within(batch, active.base, end)
    requires Honest(index, Log(batch), batch)
    ensures ClosedOk(WithRange(s, Log(batch), index, end), Part(active.base, batch, end))
  {
  }

  lemma RangeFlat(closed: seq<Part>, active: Part, range: Part, tail: Part)
    requires active.records == [] && tail.records == []
    ensures Retained(closed + [range], tail) == Retained(closed, active) + range.records
  {
    FlatSnoc(closed, active, 0);
    FlatSnoc(closed, range, 0);
    FlatSnoc(closed + [range], tail, 0);
    assert Flat(closed, 0) + [] == Flat(closed, 0);
    assert (Flat(closed, 0) + range.records) + [] == Flat(closed, 0) + range.records;
  }

  lemma RangeFiles(s: Store, closed: seq<Part>, active: Part, batch: seq<DiskMessage>, index: seq<IndexEntry>, end: nat,
                   t: Store)
    requires Holds(s, closed, active) && s.size == 0 && active.records == [] && s.end < end
    requires t == WithRange(s, Log(batch), index, end)
    requires AllStorable(batch) && Ascending(batch) && Within(batch, s.end, end) && Honest(index, Log(batch), batch)
    ensures ClosedAll(t, closed + [Part(s.end, batch, end)])
  {
    var range := Part(s.end, batch, end);
    RangeCloses(s, active, batch, index, end);
    forall p | p in closed ensures p.base < s.end && ClosedOk(s, p) {
      ClosedBases(closed, active, p);
    }
    ClosedStay(s, t, closed);
    forall p | p in closed + [range] ensures ClosedOk(t, p) {
      if p !in closed { assert p == range; }
    }
  }

  lemma RangeTracked(s: Store, closed: seq<Part>, active: Part, t: Store, end: nat)
    requires Holds(s, closed, active) && s.current < end && t.segments == s.segments + [end] && t.current == end
    requires forall b | b in t.compacted :: b in s.compacted || b == s.current
    ensures Tracked(t)
  {
    assert s.segments[|closed|] == s.current;
    forall b | b in t.compacted ensures b in t.segments && b < t.current {
      if b == s.current { assert t.segments[|closed|] == b; }
    }
  }

  lemma RangeKeeps(s: Store, closed: seq<Part>, active: Part, batch: seq<DiskMessage>, index: seq<IndexEntry>, end: nat)
    requires Holds(s, closed, active) && s.size == 0 && active.records == [] && s.end < end
    requires AllStorable(batch) && Ascending(batch) && Within(batch, s.end, end) && Honest(index, Log(batch), batch)
    ensures Holds(WithRange(s, Log(batch), index, end), closed + [Part(s.end, batch, end)], Part(end, [], end))
    ensures Retained(closed + [Part(s.end, batch, end)], Part(end, [], end)) == Retained(closed, active) + batch
  {
    hide ClosedAll, Log, Honest, Tracked, Linked, Flat, Retained, Bases;
    var range, tail := Part(s.end, batch, end), Part(end, [], end);
    var t := WithRange(s, Log(batch), index, end);
    LinkedActive(closed, active, range);
    LinkedSnoc(closed, range, tail);
    RangeFiles(s, closed, active, batch, index, end, t);
    RangeTracked(s, closed, active, t, end);
    NotTracked(s, closed, active, end);
    EmptyIsActive(t, end);
    RangeFlat(closed, active, range, tail);
  }

  lemma NotTracked(s: Store, closed: seq<Part>, active: Part, end: nat)
    requires Holds(s, closed, active) && s.current < end
    ensures end !in s.compacted
  {
  }
}
