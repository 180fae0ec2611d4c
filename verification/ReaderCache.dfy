/** The reference-counted cache of segment readers and its leases (pkg/disk/segment_reader_cache.go). */
module ReaderCache {
  import opened Common

  /** A cached reader; readers are numbered as they are opened. */
  datatype Entry = Entry(reader: nat, refs: nat, lastUsed: nat, stale: bool)

  /** A lease on the cached reader of a segment, or on a reader of its own. */
  datatype Lease = Lease(base: Option<nat>, reader: nat, open: bool)

  /** What has become of a reader: in the cache, held by one lease, or closed. */
  datatype Owner = OfSegment(base: nat) | OfLease(lease: nat) | Gone

  /** `readers` says of every reader ever opened who has it; `closes` lists the close calls. */
  datatype State = State(entries: map<nat, Entry>, leases: seq<Lease>, readers: seq<Owner>, closes: seq<nat>,
      closed: bool)

  /** The open leases on the cached reader of a segment. */
  function LeasesOn(leases: seq<Lease>, base: nat): set<nat> {
    set i | 0 <= i < |leases| && leases[i].open && leases[i].base == Some(base)
  }

  ghost predicate LeaseOk(s: State, i: nat)
    requires i < |s.leases|
  {
    var l := s.leases[i];
    l.open ==>
      && l.reader < |s.readers|
      && (match l.base
          case Some(b) => s.readers[l.reader] == OfSegment(b) && b in s.entries
          case None => s.readers[l.reader] == OfLease(i))
  }

  ghost predicate EntryOk(s: State, b: nat)
    requires b in s.entries
  {
    var e := s.entries[b];
    && e.reader < |s.readers| && s.readers[e.reader] == OfSegment(b) && e.refs == |LeasesOn(s.leases, b)|
    && (e.stale <==> s.closed) && (s.closed ==> e.refs > 0)
  }

  ghost predicate ReaderOk(s: State, r: nat)
    requires r < |s.readers|
  {
    match s.readers[r]
    case OfSegment(b) => b in s.entries && s.entries[b].reader == r && r !in s.closes
    case OfLease(i) => i < |s.leases| && s.leases[i] == Lease(None, r, true) && r !in s.closes
    case Gone => r in s.closes
  }

  ghost predicate ClosesOk(s: State) {
    && (forall i, j | 0 <= i < j < |s.closes| :: s.closes[i] != s.closes[j])
    && (forall r | r in s.closes :: r < |s.readers|)
  }

  ghost predicate LeasesOk(s: State) { forall i: nat | i < |s.leases| :: LeaseOk(s, i) }
  ghost predicate EntriesOk(s: State) { forall b | b in s.entries :: EntryOk(s, b) }
  ghost predicate ReadersOk(s: State) { forall r: nat | r < |s.readers| :: ReaderOk(s, r) }

  ghost predicate Inv(s: State, limit: nat) {
    LeasesOk(s) && EntriesOk(s) && ReadersOk(s) && ClosesOk(s) && |s.entries| <= limit
  }

  /** A leased reader is not closed, and a reader cached for a segment is the one its leases hold. */
  lemma LeasedIsOpen(s: State, limit: nat, i: nat)
    requires Inv(s, limit) && i < |s.leases| && s.leases[i].open
    ensures s.leases[i].reader !in s.closes
    ensures s.leases[i].base.Some? ==>
              s.leases[i].base.value in s.entries && s.entries[s.leases[i].base.value].reader == s.leases[i].reader
  {
    assert LeaseOk(s, i);
    assert ReaderOk(s, s.leases[i].reader);
  }

  /** After close and the last lease, nothing is cached and every reader ever opened has been closed, exactly once. */
  lemma NothingLeftOpen(s: State, limit: nat)
    requires Inv(s, limit) && s.closed && forall i | 0 <= i < |s.leases| :: !s.leases[i].open
    ensures s.entries == map[] && forall r: nat | r < |s.readers| :: r in s.closes
    ensures forall i, j | 0 <= i < j < |s.closes| :: s.closes[i] != s.closes[j]
  {
    forall b ensures b !in s.entries {
      if b in s.entries {
        UnusedEntry(s, b);
      }
    }
    forall r: nat | r < |s.readers| ensures r in s.closes {
      assert ReaderOk(s, r);
    }
  }

  lemma UnusedEntry(s: State, b: nat)
    requires b in s.entries && EntryOk(s, b) && forall i | 0 <= i < |s.leases| :: !s.leases[i].open
    ensures s.entries[b].refs == 0
  {
    assert LeasesOn(s.leases, b) == {};
  }

  // ---------------------------------------------------------------------------------------------
  // Which reader was used last

  /** The last lease granted on the cached reader of a segment. Leases are listed in the order they were granted. */
  function LastLease(leases: seq<Lease>, base: nat): (k: int)
    ensures -1 <= k < |leases| && (k >= 0 ==> leases[k].base == Some(base))
    ensures forall j | k < j < |leases| :: leases[j].base != Some(base)
  {
    if leases == [] then -1
    else if leases[|leases| - 1].base == Some(base) then |leases| - 1
    else LastLease(leases[..|leases| - 1], base)
  }

  /** The clock readings order the entries as the grants of their last leases do. */
  ghost predicate Recency(entries: map<nat, Entry>, leases: seq<Lease>, clock: nat) {
    && (forall b | b in entries :: entries[b].lastUsed <= clock && LastLease(leases, b) >= 0)
    && (forall b, c | b in entries && c in entries ::
          entries[b].lastUsed < entries[c].lastUsed <==> LastLease(leases, b) < LastLease(leases, c))
  }

  /** Nothing was used at the present reading of the clock. */
  ghost predicate Behind(entries: map<nat, Entry>, clock: nat) {
    forall b | b in entries :: entries[b].lastUsed < clock
  }

  lemma Ticked(entries: map<nat, Entry>, leases: seq<Lease>, clock: nat)
    requires Recency(entries, leases, clock)
    ensures Recency(entries, leases, clock + 1) && Behind(entries, clock + 1)
  {
    hide LastLease;
  }

  /** The same grants, whatever has been given back. */
  ghost predicate SameGrants(leases: seq<Lease>, after: seq<Lease>) {
    |leases| == |after| && forall i | 0 <= i < |leases| :: after[i].base == leases[i].base
  }

  lemma SameLast(leases: seq<Lease>, after: seq<Lease>, base: nat)
    requires SameGrants(leases, after)
    ensures LastLease(after, base) == LastLease(leases, base)
  {
    var k, l := LastLease(leases, base), LastLease(after, base);
    assert k >= 0 ==> after[k].base == Some(base);
    assert l >= 0 ==> leases[l].base == Some(base);
  }

  lemma LastOfMore(leases: seq<Lease>, l: Lease, base: nat)
    ensures LastLease(leases + [l], base) == if l.base == Some(base) then |leases| else LastLease(leases, base)
  {
    assert (leases + [l])[..|leases|] == leases;
  }

  /** Entries may go, and leases may be given back. */
  lemma RecencyKept(entries: map<nat, Entry>, leases: seq<Lease>, clock: nat, left: map<nat, Entry>, after: seq<Lease>,
                    later: nat)
    requires Recency(entries, leases, clock) && SameGrants(leases, after) && clock <= later
    requires forall b | b in left :: b in entries && left[b].lastUsed == entries[b].lastUsed
    ensures Recency(left, after, later)
  {
    hide LastLease;
    forall b ensures LastLease(after, b) == LastLease(leases, b) { SameLast(leases, after, b); }
  }

  lemma RecencyOwn(entries: map<nat, Entry>, leases: seq<Lease>, clock: nat, l: Lease)
    requires Recency(entries, leases, clock) && l.base.None?
    ensures Recency(entries, leases + [l], clock)
  {
    hide LastLease;
    forall b ensures LastLease(leases + [l], b) == LastLease(leases, b) { LastOfMore(leases, l, b); }
  }

  /** A grant on a segment's entry, new or cached, makes it the one used last. */
  lemma RecencyGrant(entries: map<nat, Entry>, leases: seq<Lease>, clock: nat, base: nat, e: Entry, l: Lease)
    requires Recency(entries, leases, clock) && l.base == Some(base) && e.lastUsed == clock && Behind(entries, clock)
    ensures Recency(entries[base := e], leases + [l], clock)
  {
    hide LastLease;
    forall b
      ensures LastLease(leases + [l], b) == if b == base then |leases| else LastLease(leases, b)
      ensures LastLease(leases, b) < |leases|
    {
      LastOfMore(leases, l, b);
      LastBelow(leases, b);
    }
  }

  lemma LastBelow(leases: seq<Lease>, base: nat)
    ensures LastLease(leases, base) < |leases|
  {
  }

  /** Of the idle entries, the one whose last lease was granted first. */
  ghost predicate LeastRecent(entries: map<nat, Entry>, leases: seq<Lease>, b: nat) {
    && b in entries && entries[b].refs == 0
    && forall c | c in entries && entries[c].refs == 0 && c != b :: LastLease(leases, b) < LastLease(leases, c)
  }

  lemma OldestIsLeastRecent(entries: map<nat, Entry>, leases: seq<Lease>, clock: nat, b: nat)
    requires Recency(entries, leases, clock) && OldestIdle(entries, b)
    ensures LeastRecent(entries, leases, b)
  {
    forall c | c in entries && entries[c].refs == 0 && c != b ensures LastLease(leases, b) < LastLease(leases, c) {
      assert leases[LastLease(leases, b)].base != leases[LastLease(leases, c)].base;
    }
  }

  // ---------------------------------------------------------------------------------------------
  // The changes of state

  lemma LeasesOnSnoc(leases: seq<Lease>, l: Lease, base: nat)
    ensures LeasesOn(leases + [l], base)
            == LeasesOn(leases, base) + (if l.open && l.base == Some(base) then {|leases|} else {})
    ensures |leases| !in LeasesOn(leases, base)
  {
    var all := leases + [l];
    forall i
      ensures i in LeasesOn(all, base) <==>
                i in LeasesOn(leases, base) + (if l.open && l.base == Some(base) then {|leases|} else {})
    {
      if 0 <= i < |leases| { assert all[i] == leases[i]; }
    }
  }

  /** A lease on a reader that is opened for it alone. */
  function WithOwnReader(s: State): State {
    s.(leases := s.leases + [Lease(None, |s.readers|, true)], readers := s.readers + [OfLease(|s.leases|)])
  }

  lemma OwnReaderKeeps(s: State, limit: nat)
    requires Inv(s, limit)
    ensures Inv(WithOwnReader(s), limit)
  {
    var t := WithOwnReader(s);
    forall i: nat | i < |t.leases| ensures LeaseOk(t, i) { if i < |s.leases| { assert LeaseOk(s, i); } }
    forall b | b in t.entries ensures EntryOk(t, b) {
      assert EntryOk(s, b);
      LeasesOnSnoc(s.leases, t.leases[|s.leases|], b);
    }
    forall r: nat | r < |t.readers| ensures ReaderOk(t, r) { if r < |s.readers| { assert ReaderOk(s, r); } }
  }

  /** Another lease on a cached reader. */
  function WithHit(s: State, base: nat, clock: nat): State
    requires base in s.entries
  {
    var e := s.entries[base];
    s.(entries := s.entries[base := e.(refs := e.refs + 1, lastUsed := clock)],
        leases := s.leases + [Lease(Some(base), e.reader, true)])
  }

  lemma HitKeeps(s: State, limit: nat, base: nat, clock: nat)
    requires Inv(s, limit) && base in s.entries
    ensures Inv(WithHit(s, base, clock), limit)
  {
    hide LeasesOk, ReadersOk, EntryOk, LeasesOn;
    var t := WithHit(s, base, clock);
    assert t.entries.Keys == s.entries.Keys && |t.entries| == |t.entries.Keys| && |s.entries| == |s.entries.Keys|;
    HitRest(s, base, clock);
    forall b | b in t.entries ensures EntryOk(t, b) { HitEntry(s, base, clock, b); }
  }

  lemma HitRest(s: State, base: nat, clock: nat)
    requires LeasesOk(s) && ReadersOk(s) && base in s.entries && EntryOk(s, base)
    ensures LeasesOk(WithHit(s, base, clock)) && ReadersOk(WithHit(s, base, clock))
  {
    var t := WithHit(s, base, clock);
    forall i: nat | i < |t.leases| ensures LeaseOk(t, i) { if i < |s.leases| { assert LeaseOk(s, i); } }
    forall r: nat | r < |t.readers| ensures ReaderOk(t, r) { assert ReaderOk(s, r); }
  }

  lemma HitEntry(s: State, base: nat, clock: nat, b: nat)
    requires base in s.entries && EntryOk(s, base) && b in s.entries && EntryOk(s, b)
    ensures EntryOk(WithHit(s, base, clock), b)
  {
    LeasesOnSnoc(s.leases, Lease(Some(base), s.entries[base].reader, true), b);
  }

  /** A new cached reader and its first lease. */
  function WithEntry(s: State, base: nat, clock: nat): State {
    s.(entries := s.entries[base := Entry(|s.readers|, 1, clock, false)],
       leases := s.leases + [Lease(Some(base), |s.readers|, true)], readers := s.readers + [OfSegment(base)])
  }

  lemma EntryKeeps(s: State, limit: nat, base: nat, clock: nat)
    requires Inv(s, limit) && base !in s.entries && !s.closed && |s.entries| < limit
    ensures Inv(WithEntry(s, base, clock), limit)
  {
    hide LeasesOk, ReadersOk, EntryOk;
    var t := WithEntry(s, base, clock);
    assert t.entries.Keys == s.entries.Keys + {base} && |t.entries| == |t.entries.Keys|
           && |s.entries| == |s.entries.Keys|;
    EnteredLeases(s, base, clock);
    forall b | b in t.entries ensures EntryOk(t, b) { EnteredEntry(s, limit, base, clock, b); }
  }

  lemma EnteredLeases(s: State, base: nat, clock: nat)
    requires LeasesOk(s) && ReadersOk(s) && ClosesOk(s) && base !in s.entries
    ensures LeasesOk(WithEntry(s, base, clock)) && ReadersOk(WithEntry(s, base, clock))
  {
    var t := WithEntry(s, base, clock);
    forall i: nat | i < |t.leases| ensures LeaseOk(t, i) { if i < |s.leases| { assert LeaseOk(s, i); } }
    forall r: nat | r < |t.readers| ensures ReaderOk(t, r) { if r < |s.readers| { assert ReaderOk(s, r); } }
  }

  lemma EnteredEntry(s: State, limit: nat, base: nat, clock: nat, b: nat)
    requires Inv(s, limit) && base !in s.entries && !s.closed && b in WithEntry(s, base, clock).entries
    ensures EntryOk(WithEntry(s, base, clock), b)
  {
    var t := WithEntry(s, base, clock);
    LeasesOnSnoc(s.leases, t.leases[|s.leases|], b);
    if b == base { NoLeases(s, base); } else { assert EntryOk(s, b); }
  }

  /** A segment without an entry has no leases. */
  lemma NoLeases(s: State, base: nat)
    requires LeasesOk(s) && base !in s.entries
    ensures LeasesOn(s.leases, base) == {}
  {
    forall i: nat | i < |s.leases| && s.leases[i].open ensures s.leases[i].base != Some(base) { assert LeaseOk(s, i); }
  }

  /** A cached reader nobody uses is dropped and closed. */
  function WithoutEntry(s: State, base: nat): State
    requires base in s.entries && s.entries[base].reader < |s.readers|
  {
    s.(entries := s.entries - {base}, readers := s.readers[s.entries[base].reader := Gone],
        closes := s.closes + [s.entries[base].reader])
  }

  lemma DropKeeps(s: State, limit: nat, base: nat)
    requires Inv(s, limit) && base in s.entries && s.entries[base].refs == 0
    ensures s.entries[base].reader < |s.readers| && s.entries[base].reader !in s.closes
    ensures Inv(WithoutEntry(s, base), limit) && |WithoutEntry(s, base).entries| == |s.entries| - 1
  {
    assert EntryOk(s, base);
    DropUnusedKeeps(s, limit, base);
  }

  // ---------------------------------------------------------------------------------------------
  // Giving leases back

  /** A lease on a cached reader ends; the reader stays. */
  function Released(s: State, i: nat): State
    requires i < |s.leases| && s.leases[i].base.Some? && s.leases[i].base.value in s.entries
    requires s.entries[s.leases[i].base.value].refs > 0
  {
    var b := s.leases[i].base.value;
    var e := s.entries[b];
    s.(entries := s.entries[b := e.(refs := e.refs - 1)], leases := s.leases[i := s.leases[i].(open := false)])
  }

  lemma LeasesOnEnd(leases: seq<Lease>, i: nat, base: nat)
    requires i < |leases|
    ensures LeasesOn(leases[i := leases[i].(open := false)], base) == LeasesOn(leases, base) - {i}
  {
  }

  /** Everything but the rule for a closed cache, which the end of a last lease may break for a moment. */
  ghost predicate InvBut(s: State, limit: nat, base: nat) {
    && LeasesOk(s) && ReadersOk(s) && ClosesOk(s) && |s.entries| <= limit
    && (forall b | b in s.entries && b != base :: EntryOk(s, b))
    && (base in s.entries ==> EntryButUnused(s, base))
  }

  ghost predicate EntryButUnused(s: State, b: nat)
    requires b in s.entries
  {
    var e := s.entries[b];
    e.reader < |s.readers| && s.readers[e.reader] == OfSegment(b) && e.refs == |LeasesOn(s.leases, b)|
    && (e.stale <==> s.closed)
  }

  lemma ReleasedHasEntry(s: State, i: nat, b: nat)
    requires LeasesOk(s) && EntriesOk(s) && i < |s.leases| && s.leases[i].open && s.leases[i].base == Some(b)
    ensures b in s.entries && s.entries[b].refs > 0 && Released(s, i).entries.Keys == s.entries.Keys
  {
    assert LeaseOk(s, i);
    assert EntryOk(s, b);
    assert i in LeasesOn(s.leases, b);
  }

  lemma ReleasedEntry(s: State, i: nat, b: nat, c: nat)
    requires EntriesOk(s) && i < |s.leases| && s.leases[i].open && s.leases[i].base == Some(b) && c in s.entries
    requires b in s.entries && s.entries[b].refs > 0
    ensures c in Released(s, i).entries && EntryButUnused(Released(s, i), c) && (c != b ==> EntryOk(Released(s, i), c))
  {
    assert EntryOk(s, c);
    LeasesOnEnd(s.leases, i, c);
    assert c != b ==> i !in LeasesOn(s.leases, c);
    assert i in LeasesOn(s.leases, b);
  }

  lemma ReleasedRest(s: State, i: nat, b: nat)
    requires LeasesOk(s) && ReadersOk(s) && i < |s.leases| && s.leases[i].open && s.leases[i].base == Some(b)
    requires b in s.entries && s.entries[b].refs > 0
    ensures LeasesOk(Released(s, i)) && ReadersOk(Released(s, i))
  {
    var t := Released(s, i);
    forall j: nat | j < |t.leases| ensures LeaseOk(t, j) { assert LeaseOk(s, j); }
    forall r: nat | r < |t.readers| ensures ReaderOk(t, r) { assert ReaderOk(s, r); }
  }

  lemma ReleaseKeeps(s: State, limit: nat, i: nat, b: nat)
    requires Inv(s, limit) && i < |s.leases| && s.leases[i].open && s.leases[i].base == Some(b)
    ensures b in s.entries && s.entries[b].refs > 0 && InvBut(Released(s, i), limit, b)
    ensures Released(s, i).entries[b].refs > 0 || !s.closed ==> Inv(Released(s, i), limit)
  {
    hide LeasesOk, ReadersOk, LeasesOn;
    ReleasedHasEntry(s, i, b);
    ReleasedRest(s, i, b);
    var t := Released(s, i);
    assert |t.entries| == |t.entries.Keys| == |s.entries.Keys| == |s.entries|;
    forall c | c in t.entries ensures EntryButUnused(t, c) && (c != b ==> EntryOk(t, c)) {
      ReleasedEntry(s, i, b, c);
    }
  }

  lemma DropUnusedKeeps(s: State, limit: nat, base: nat)
    requires InvBut(s, limit, base) && base in s.entries && s.entries[base].refs == 0
    ensures s.entries[base].reader < |s.readers| && s.entries[base].reader !in s.closes
    ensures Inv(WithoutEntry(s, base), limit) && |WithoutEntry(s, base).entries| == |s.entries| - 1
  {
    hide LeasesOk, ReadersOk, EntryOk, LeasesOn;
    UnusedReader(s, base);
    var t := WithoutEntry(s, base);
    assert t.entries.Keys == s.entries.Keys - {base} && |t.entries| == |t.entries.Keys|
           && |s.entries| == |s.entries.Keys|;
    DroppedRest(s, base);
    forall b | b in t.entries ensures EntryOk(t, b) { DroppedEntry(s, base, b); }
  }

  lemma UnusedReader(s: State, base: nat)
    requires ReadersOk(s) && base in s.entries && EntryButUnused(s, base)
    ensures s.entries[base].reader < |s.readers| && s.entries[base].reader !in s.closes
  {
    assert ReaderOk(s, s.entries[base].reader);
  }

  lemma DroppedRest(s: State, base: nat)
    requires LeasesOk(s) && ReadersOk(s) && base in s.entries && EntryButUnused(s, base) && s.entries[base].refs == 0
    ensures LeasesOk(WithoutEntry(s, base)) && ReadersOk(WithoutEntry(s, base))
  {
    var t := WithoutEntry(s, base);
    forall i: nat | i < |t.leases| ensures LeaseOk(t, i) {
      assert LeaseOk(s, i);
      assert i !in LeasesOn(s.leases, base);
    }
    forall r: nat | r < |t.readers| ensures ReaderOk(t, r) { assert ReaderOk(s, r); }
  }

  lemma DroppedEntry(s: State, base: nat, b: nat)
    requires base in s.entries && EntryButUnused(s, base) && b in s.entries && b != base && EntryOk(s, b)
    ensures EntryOk(WithoutEntry(s, base), b)
  {
  }

  /** A lease on its own reader ends, and closes it. */
  function OwnClosed(s: State, i: nat): State
    requires i < |s.leases| && s.leases[i].reader < |s.readers|
  {
    s.(leases := s.leases[i := s.leases[i].(open := false)], readers := s.readers[s.leases[i].reader := Gone],
        closes := s.closes + [s.leases[i].reader])
  }

  lemma OwnCloseKeeps(s: State, limit: nat, i: nat)
    requires Inv(s, limit) && i < |s.leases| && s.leases[i].open && s.leases[i].base.None?
    ensures s.leases[i].reader < |s.readers| && s.leases[i].reader !in s.closes && Inv(OwnClosed(s, i), limit)
  {
    assert LeaseOk(s, i);
    assert ReaderOk(s, s.leases[i].reader);
    var t := OwnClosed(s, i);
    forall j: nat | j < |t.leases| ensures LeaseOk(t, j) { assert LeaseOk(s, j); }
    forall b | b in t.entries ensures EntryOk(t, b) {
      assert EntryOk(s, b);
      LeasesOnEnd(s.leases, i, b);
      assert i !in LeasesOn(s.leases, b);
    }
    forall r: nat | r < |t.readers| ensures ReaderOk(t, r) { assert ReaderOk(s, r); }
  }

  // ---------------------------------------------------------------------------------------------
  // Closing

  function AllStale(entries: map<nat, Entry>): map<nat, Entry> {
    map b | b in entries :: entries[b].(stale := true)
  }

  lemma CloseKeeps(s: State, limit: nat)
    requires Inv(s, limit) && !s.closed && forall b | b in s.entries :: s.entries[b].refs > 0
    ensures Inv(s.(entries := AllStale(s.entries), closed := true), limit)
  {
    var t := s.(entries := AllStale(s.entries), closed := true);
    assert t.entries.Keys == s.entries.Keys && |t.entries| == |t.entries.Keys| && |s.entries| == |s.entries.Keys|;
    forall i: nat | i < |t.leases| ensures LeaseOk(t, i) { assert LeaseOk(s, i); }
    forall b | b in t.entries ensures EntryOk(t, b) { assert EntryOk(s, b); }
    forall r: nat | r < |t.readers| ensures ReaderOk(t, r) { assert ReaderOk(s, r); }
  }

  function InUse(entries: map<nat, Entry>): map<nat, Entry> {
    map b | b in entries && entries[b].refs > 0 :: entries[b]
  }

  /** An idle entry used no later than any other idle one. */
  ghost predicate OldestIdle(entries: map<nat, Entry>, b: nat) {
    && b in entries && entries[b].refs == 0
    && forall c | c in entries && entries[c].refs == 0 :: entries[b].lastUsed <= entries[c].lastUsed
  }

  method FindOldestIdle(entries: map<nat, Entry>) returns (r: Option<nat>)
    ensures r.Some? ==> OldestIdle(entries, r.value)
    ensures r.None? ==> forall b | b in entries :: entries[b].refs > 0
  {
    r := None;
    var left := entries.Keys;
    while left != {}
      invariant left <= entries.Keys
      invariant r.Some? ==> r.value in entries && entries[r.value].refs == 0
      invariant forall b | b in entries && b !in left && entries[b].refs == 0 ::
                  r.Some? && entries[r.value].lastUsed <= entries[b].lastUsed
      decreases |left|
    {
      var b :| b in left;
      left := left - {b};
      if entries[b].refs == 0 && (r.None? || entries[b].lastUsed < entries[r.value].lastUsed) { r := Some(b); }
    }
  }

  datatype Op =
    | Ask(base: nat, canOpen: bool)
    | GiveBack(lease: nat)
    | Forget(base: nat)
    | ForgetAll
    | Shut

  /**
   * What a call may do to a cache. The leases are the history of what was granted; whatever leaves the cache for
   * another reader is the idle entry whose last lease was granted first.
   */
  ghost predicate Follows(op: Op, s: State, t: State, maxEntries: int) {
    && |s.leases| <= |t.leases| <= |s.leases| + 1 && SameGrants(s.leases, t.leases[..|s.leases|])
    && (!op.Ask? ==> |t.leases| == |s.leases|)
    && (op.Ask? ==>
          && (|t.leases| > |s.leases| ==> t.leases[|s.leases|].base in {None, Some(op.base)})
          && (forall b | b in t.entries :: b == op.base || (b in s.entries && t.entries[b] == s.entries[b]))
          && (forall b | b in s.entries && b !in t.entries ::
                op.base !in s.entries && |s.entries| >= maxEntries && LeastRecent(s.entries, s.leases, b)))
    && (!op.Ask? ==> t.entries.Keys <= s.entries.Keys)
    && (forall b | b in s.entries && s.entries[b].refs > 0 && (op.GiveBack? ==> !s.closed) :: b in t.entries)
  }

  lemma InUseStays(before: map<nat, Entry>, after: map<nat, Entry>, leases: seq<Lease>)
    requires forall b | b in before && b !in after :: LeastRecent(before, leases, b)
    ensures forall b | b in before && before[b].refs > 0 :: b in after
  {
  }

  class ReaderCache {
    const maxEntries: int
    var entries: map<nat, Entry>
    var leases: seq<Lease>
    var readers: seq<Owner>
    var closes: seq<nat>
    var closed: bool
    var clock: nat

    ghost function Now(): State
      reads this
    {
      State(entries, leases, readers, closes, closed)
    }

    function Limit(): nat {
      if maxEntries > 0 then maxEntries else 0
    }

    ghost predicate Valid()
      reads this
    {
      Inv(Now(), Limit()) && Recency(entries, leases, clock)
    }

    constructor (maxEntries: int)
      ensures Valid() && this.maxEntries == maxEntries && leases == [] && entries == map[] && !closed
    {
      this.maxEntries := maxEntries;
      entries, leases, readers, closes, closed, clock := map[], [], [], [], false, 0;
    }

    /** A reader of the lease's own; opening the file may fail. */
    method OpenOwn(canOpen: bool) returns (r: Result<nat>)
      requires Valid()
      modifies this
      ensures Valid() && r.Ok? == canOpen && Now() == if canOpen then WithOwnReader(old(Now())) else old(Now())
      ensures clock == old(clock)
      ensures r.Ok? ==> r.value == |old(leases)|
    {
      hide Inv;
      if !canOpen { return Err("open"); }
      OwnReaderKeeps(Now(), Limit());
      RecencyOwn(entries, leases, clock, Lease(None, |readers|, true));
      leases, readers := leases + [Lease(None, |readers|, true)], readers + [OfLease(|leases|)];
      return Ok(|leases| - 1);
    }

    method EvictOldestIdle() returns (ok: bool)
      requires Valid()
      modifies this
      ensures Valid() && closed == old(closed) && leases == old(leases)
      ensures clock == old(clock)
      ensures ok ==> |entries| == |old(entries)| - 1
                     && exists b :: LeastRecent(old(entries), leases, b) && entries == old(entries) - {b}
                                    && closes == old(closes) + [old(entries)[b].reader]
      ensures !ok ==> Now() == old(Now()) && forall b | b in entries :: entries[b].refs > 0
    {
      hide Inv, Recency, LastLease;
      var oldest := FindOldestIdle(entries);
      if oldest.None? { return false; }
      OldestIsLeastRecent(entries, leases, clock, oldest.value);
      Drop(oldest.value);
      return true;
    }

    method Drop(base: nat)
      requires Valid() && base in entries && entries[base].refs == 0
      modifies this
      ensures Valid() && closed == old(closed) && leases == old(leases) && clock == old(clock)
      ensures entries == old(entries) - {base} && |entries| == |old(entries)| - 1
      ensures closes == old(closes) + [old(entries)[base].reader]
    {
      hide Inv, Recency;
      DropKeeps(Now(), Limit(), base);
      RecencyKept(entries, leases, clock, entries - {base}, leases, clock);
      var reader := entries[base].reader;
      entries, readers, closes := entries - {base}, readers[reader := Gone], closes + [reader];
    }

    /**
     * Shares a cached reader, or opens one: cached if there is room after evicting the oldest idle one, else on its
     * own.
     */
    method Acquire(base: nat, canOpen: bool) returns (r: Result<nat>)
      requires Valid()
      modifies this
      ensures Valid() && closed == old(closed)
      ensures r.Ok? ==>
                r.value == |old(leases)| && |leases| == r.value + 1 && leases[..r.value] == old(leases)
                && leases[r.value].open
      ensures r.Ok? && leases[r.value].base.Some? ==> leases[r.value].base == Some(base)
      ensures maxEntries > 0 && !old(closed) && base in old(entries) ==>
                r.Ok? && leases[r.value].base == Some(base) && readers == old(readers)
      ensures r.Err? ==> leases == old(leases)
      ensures maxEntries > 0 && !old(closed) && base !in old(entries) && canOpen ==>
                r.Ok? && (leases[r.value].base.Some? <==>
                  |old(entries)| < maxEntries || exists b | b in old(entries) :: old(entries)[b].refs == 0)
      ensures closes != old(closes) ==> |old(entries)| >= maxEntries
      ensures closes == old(closes)
              || exists b :: LeastRecent(old(entries), old(leases), b)
                             && closes == old(closes) + [old(entries)[b].reader]
      ensures forall c | c in old(entries) && c !in entries ::
                base !in old(entries) && |old(entries)| >= maxEntries && LeastRecent(old(entries), old(leases), c)
      ensures forall c | c in entries && c != base :: c in old(entries) && entries[c] == old(entries)[c]
      ensures r.Ok? && leases[r.value].base.Some? ==>
                && base in entries && entries[base].reader == leases[r.value].reader
                && entries[base].refs == (if base in old(entries) then old(entries)[base].refs else 0) + 1
                && forall c | c in entries && c != base :: entries[c].lastUsed < entries[base].lastUsed
      ensures r.Err? || leases[r.value].base.None? ==>
                base in entries ==> base in old(entries) && entries[base] == old(entries)[base]
      ensures maxEntries <= 0 ==> r.Ok? == canOpen
      ensures maxEntries > 0 && old(closed) ==> r.Err? && Now() == old(Now())
    {
      hide Inv, Limit, Recency, LastLease;
      if maxEntries <= 0 {
        r := OpenOwn(canOpen);
        return;
      }
      if closed { return Err("segment reader cache is closed"); }
      Ticked(entries, leases, clock);
      clock := clock + 1;
      NotStale(Now(), Limit());
      LimitOf();
      WithinLimit(Now(), Limit());
      if base in entries && !entries[base].stale {
        Share(base);
        return Ok(|leases| - 1);
      }
      if |entries| >= maxEntries {
        var evicted := EvictOldestIdle();
        if !evicted {
          r := OpenOwn(canOpen);
          return;
        }
      }
      if !canOpen { return Err("open"); }
      Open(base);
      return Ok(|leases| - 1);
    }

    /** Another lease on a cached reader, which becomes the one used last. */
    method Share(base: nat)
      requires Valid() && base in entries && Behind(entries, clock)
      modifies `entries, `leases
      ensures Valid()
      ensures entries == old(entries)[base :=
                old(entries)[base].(refs := old(entries)[base].refs + 1, lastUsed := clock)]
      ensures leases == old(leases) + [Lease(Some(base), old(entries)[base].reader, true)]
    {
      hide Inv, Limit, Recency;
      HitKeeps(Now(), Limit(), base, clock);
      var e := entries[base];
      var lease := Lease(Some(base), e.reader, true);
      RecencyGrant(entries, leases, clock, base, e.(refs := e.refs + 1, lastUsed := clock), lease);
      entries, leases := entries[base := e.(refs := e.refs + 1, lastUsed := clock)], leases + [lease];
    }

    /** The first lease on a reader that is opened for the cache. */
    method Open(base: nat)
      requires Valid() && !closed && base !in entries && |entries| < Limit() && Behind(entries, clock)
      modifies `entries, `leases, `readers
      ensures Valid()
      ensures entries == old(entries)[base := Entry(|old(readers)|, 1, clock, false)]
      ensures leases == old(leases) + [Lease(Some(base), |old(readers)|, true)]
    {
      hide Inv, Limit, Recency;
      EntryKeeps(Now(), Limit(), base, clock);
      var e, lease := Entry(|readers|, 1, clock, false), Lease(Some(base), |readers|, true);
      RecencyGrant(entries, leases, clock, base, e, lease);
      entries, leases, readers := entries[base := e], leases + [lease], readers + [OfSegment(base)];
    }

    lemma LimitOf()
      ensures maxEntries > 0 ==> Limit() == maxEntries
    {
    }

    /** Ends a lease; ending it again does nothing. The last lease of a stale reader closes it. */
    method CloseLease(i: nat)
      requires Valid() && i < |leases|
      modifies this
      ensures Valid() && closed == old(closed) && |leases| == |old(leases)|
      ensures leases == old(leases)[i := old(leases)[i].(open := false)]
      ensures !old(leases)[i].open ==> Now() == old(Now())
      ensures old(leases)[i].open && old(leases)[i].base.None? ==>
                closes == old(closes) + [old(leases)[i].reader] && entries == old(entries)
      ensures !closed && old(leases)[i].base.Some? ==> closes == old(closes) && entries.Keys == old(entries).Keys
      ensures old(leases)[i].open && old(leases)[i].base.Some? ==>
                && old(leases)[i].base.value in old(entries) && old(entries)[old(leases)[i].base.value].refs > 0
      ensures old(leases)[i].open && old(leases)[i].base.Some? ==>
                var b := old(leases)[i].base.value;
                var e := old(entries)[b];
                entries == if closed && e.refs == 1 then old(entries) - {b}
                           else old(entries)[b := e.(refs := e.refs - 1)]
      ensures old(leases)[i].open && old(leases)[i].base.Some? && closed
              && old(entries)[old(leases)[i].base.value].refs == 1 ==>
                entries == old(entries) - {old(leases)[i].base.value} && closes == old(closes) + [old(leases)[i].reader]
    {
      hide Inv, InvBut, Limit, Recency;
      if !leases[i].open { return; }
      if leases[i].base.None? {
        CloseOwn(i);
        return;
      }
      ghost var had, granted := entries, leases;
      var b := leases[i].base.value;
      LeasedIsOpen(Now(), Limit(), i);
      ReleaseKeeps(Now(), Limit(), i, b);
      var e := entries[b];
      var stale := e.stale || closed;
      StaleIfClosed(Now(), Limit(), b);
      ghost var released := Released(Now(), i);
      entries, leases := entries[b := e.(refs := e.refs - 1)], leases[i := leases[i].(open := false)];
      if entries[b].refs == 0 && stale {
        DropUnusedKeeps(released, Limit(), b);
        entries, readers, closes := entries - {b}, readers[e.reader := Gone], closes + [e.reader];
      }
      RecencyKept(had, granted, clock, entries, leases, clock);
    }

    /** The end of a lease on its own reader. */
    method CloseOwn(i: nat)
      requires Valid() && i < |leases| && leases[i].open && leases[i].base.None?
      modifies this
      ensures Valid() && closed == old(closed) && entries == old(entries) && clock == old(clock)
      ensures leases == old(leases)[i := old(leases)[i].(open := false)]
      ensures closes == old(closes) + [old(leases)[i].reader]
    {
      hide Inv, Limit, Recency;
      OwnCloseKeeps(Now(), Limit(), i);
      var reader, ended := leases[i].reader, leases[i := leases[i].(open := false)];
      RecencyKept(entries, leases, clock, entries, ended, clock);
      leases, readers, closes := ended, readers[reader := Gone], closes + [reader];
    }

    /** Refused while the segment's reader is in use. */
    method Invalidate(base: nat) returns (ok: bool)
      requires Valid()
      modifies this
      ensures Valid() && ok == (base in old(entries) ==> old(entries)[base].refs == 0)
      ensures ok ==> entries == old(entries) - {base} && leases == old(leases) && closed == old(closed)
      ensures ok ==> closes == old(closes) + if base in old(entries) then [old(entries)[base].reader] else []
      ensures !ok ==> Now() == old(Now())
    {
      hide Inv;
      if base !in entries { return true; }
      if entries[base].refs != 0 { return false; }
      Drop(base);
      return true;
    }

    /** All idle readers go; nothing happens if one is in use. */
    method InvalidateAll() returns (ok: bool)
      requires Valid()
      modifies this
      ensures Valid() && ok == forall b | b in old(entries) :: old(entries)[b].refs == 0
      ensures entries == (if ok then map[] else old(entries)) && leases == old(leases) && closed == old(closed)
      ensures !ok ==> Now() == old(Now())
    {
      hide Inv;
      if exists b | b in entries :: entries[b].refs != 0 { return false; }
      DropIdle();
      return true;
    }

    method DropIdle()
      requires Valid()
      modifies this
      ensures Valid() && closed == old(closed) && leases == old(leases) && entries == InUse(old(entries))
      ensures clock == old(clock)
    {
      hide Inv, Recency;
      var left := entries.Keys;
      while left != {}
        invariant Valid() && closed == old(closed) && leases == old(leases) && left <= old(entries.Keys)
        invariant clock == old(clock)
        invariant forall b | b in entries :: b in old(entries) && entries[b] == old(entries)[b]
        invariant forall b | b in old(entries) :: b in entries <==> (old(entries)[b].refs > 0 || b in left)
        decreases |left|
      {
        var b :| b in left;
        left := left - {b};
        if entries[b].refs == 0 { Drop(b); }
      }
    }

    /** Closes idle readers now; those in use go with their last lease. No lease is granted afterwards. */
    method Close()
      requires Valid()
      modifies this
      ensures Valid() && closed && leases == old(leases)
      ensures old(closed) ==> Now() == old(Now())
      ensures !old(closed) ==> entries == AllStale(InUse(old(entries)))
    {
      hide Inv, Recency;
      if closed { return; }
      DropIdle();
      CloseKeeps(Now(), Limit());
      RecencyKept(entries, leases, clock, AllStale(entries), leases, clock);
      entries, closed := AllStale(entries), true;
    }

    method Serve(op: Op)
      requires Valid()
      modifies this
      ensures Valid() && Follows(op, old(Now()), Now(), maxEntries)
    {
      hide Inv, Recency, LastLease, Follows;
      if op.Ask? {
        ServeAsk(op);
      } else if op.GiveBack? {
        ServeGiveBack(op);
      } else {
        ServeRest(op);
      }
    }

    method ServeAsk(op: Op)
      requires Valid() && op.Ask?
      modifies this
      ensures Valid() && Follows(op, old(Now()), Now(), maxEntries)
    {
      hide Inv, Recency, LastLease, LeastRecent;
      var r := Acquire(op.base, op.canOpen);
      assert r.Ok? ==> leases[..|old(leases)|] == old(leases);
      assert r.Err? ==> leases[..|old(leases)|] == leases;
      InUseStays(old(entries), entries, old(leases));
    }

    method ServeGiveBack(op: Op)
      requires Valid() && op.GiveBack?
      modifies this
      ensures Valid() && Follows(op, old(Now()), Now(), maxEntries)
    {
      hide Inv, Recency, LastLease, LeastRecent;
      if op.lease < |leases| { CloseLease(op.lease); }
      assert leases[..|old(leases)|] == leases;
    }

    method ServeRest(op: Op)
      requires Valid() && !op.Ask? && !op.GiveBack?
      modifies this
      ensures Valid() && Follows(op, old(Now()), Now(), maxEntries)
    {
      hide Inv, Recency, LastLease, LeastRecent;
      if op.Forget? {
        var _ := Invalidate(op.base);
      } else if op.ForgetAll? {
        var _ := InvalidateAll();
      } else {
        Close();
      }
      assert leases[..|old(leases)|] == leases;
    }

    /** Any run of calls. */
    method Run(ops: seq<Op>) returns (ghost trace: seq<State>)
      requires Valid()
      modifies this
      ensures Valid() && |trace| == |ops| + 1 && trace[0] == old(Now()) && trace[|ops|] == Now()
      ensures forall i | 0 <= i < |ops| :: Follows(ops[i], trace[i], trace[i + 1], maxEntries)
    {
      hide Inv, Recency, Follows;
      trace := [Now()];
      for i := 0 to |ops|
        invariant Valid() && |trace| == i + 1 && trace[0] == old(Now()) && trace[i] == Now()
        invariant forall j | 0 <= j < i :: Follows(ops[j], trace[j], trace[j + 1], maxEntries)
      {
        Serve(ops[i]);
        trace := trace + [Now()];
      }
    }
  }

  /** A use of a segment by a cache of two entries, all of them idle before and after. */
  method UseOnce(cache: ReaderCache, base: nat)
    requires cache.Valid() && cache.maxEntries == 2 && !cache.closed && AllIdle(cache.entries)
    modifies cache
    ensures cache.Valid() && !cache.closed && AllIdle(cache.entries) && base in cache.entries && |cache.entries| <= 2
    ensures |cache.leases| == |old(cache.leases)| + 1
    ensures forall i | 0 <= i < |old(cache.leases)| :: cache.leases[i].base == old(cache.leases)[i].base
    ensures cache.leases[|old(cache.leases)|].base == Some(base)
    ensures forall c | c in cache.entries :: c == base || c in old(cache.entries)
    ensures forall c | c in old(cache.entries) && c !in cache.entries ::
              && base !in old(cache.entries) && |old(cache.entries)| >= 2
              && LeastRecent(old(cache.entries), old(cache.leases), c)
  {
    hide Inv, Recency, LastLease, LeastRecent;
    if |cache.entries| >= 2 { SomeIdle(cache.entries); }
    var lease := cache.Acquire(base, true);
    cache.CloseLease(lease.value);
    WithinLimit(cache.Now(), cache.Limit());
  }

  ghost predicate AllIdle(entries: map<nat, Entry>) {
    forall b | b in entries :: entries[b].refs == 0
  }

  lemma SomeIdle(entries: map<nat, Entry>)
    requires AllIdle(entries) && |entries| > 0
    ensures exists b | b in entries :: entries[b].refs == 0
  {
    assert |entries.Keys| > 0;
    var b :| b in entries.Keys;
  }

  lemma LastOfThree(leases: seq<Lease>, a: nat, b: nat)
    requires |leases| == 3 && a != b
    requires leases[0].base == Some(a) && leases[1].base == Some(b) && leases[2].base == Some(a)
    ensures LastLease(leases, b) < LastLease(leases, a)
  {
    assert LastLease(leases, b) != 2 && LastLease(leases, a) == 2;
  }

  lemma NoMoreThanTwo(keys: set<nat>, a: nat, c: nat)
    requires a in keys && c in keys && a != c && |keys| <= 2
    ensures keys == {a, c}
  {
    assert {a, c} <= keys && |keys - {a, c}| == |keys| - |{a, c}|;
  }

  /** Uses two segments in turn, and the first again. */
  method UseTwo(a: nat, b: nat) returns (cache: ReaderCache)
    requires a != b
    ensures fresh(cache) && cache.Valid() && cache.maxEntries == 2 && !cache.closed && AllIdle(cache.entries)
    ensures cache.entries.Keys == {a, b} && LastLease(cache.leases, b) < LastLease(cache.leases, a)
  {
    hide Inv, Recency, LastLease, LeastRecent, AllIdle;
    cache := new ReaderCache(2);
    assert AllIdle(cache.entries) by { NothingCached(); }
    UseOnce(cache, a);
    assert cache.entries.Keys == {a} && |cache.entries| == |cache.entries.Keys|;
    UseOnce(cache, b);
    assert cache.entries.Keys == {a, b};
    UseOnce(cache, a);
    assert cache.entries.Keys == {a, b};
    LastOfThree(cache.leases, a, b);
  }

  lemma NothingCached()
    ensures AllIdle(map[])
  {
  }

  /** With room for two readers, a third takes the place of the one used longer ago. */
  method UsedAgainStays(a: nat, b: nat, c: nat) returns (cache: ReaderCache)
    requires a != b && a != c && b != c
    ensures fresh(cache) && cache.Valid() && cache.entries.Keys == {a, c}
  {
    hide Inv, Recency, LastLease;
    cache := UseTwo(a, b);
    assert !LeastRecent(cache.entries, cache.leases, a);
    UseOnce(cache, c);
    assert |cache.entries| == |cache.entries.Keys|;
    NoMoreThanTwo(cache.entries.Keys, a, c);
  }

  lemma NotStale(s: State, limit: nat)
    requires Inv(s, limit) && !s.closed
    ensures forall b | b in s.entries :: !s.entries[b].stale
  {
    forall b | b in s.entries ensures !s.entries[b].stale { assert EntryOk(s, b); }
  }

  lemma StaleIfClosed(s: State, limit: nat, base: nat)
    requires Inv(s, limit) && base in s.entries
    ensures s.entries[base].stale <==> s.closed
  {
    assert EntryOk(s, base);
  }

  lemma WithinLimit(s: State, limit: nat)
    requires Inv(s, limit)
    ensures |s.entries| <= limit
  {
  }
}
