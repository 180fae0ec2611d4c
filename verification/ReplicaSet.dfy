/**
 * The replicas of one partition as the leader's replication lane meets them: their logs, how much of the cluster
 * metadata each has applied, the cut of an uncommitted tail when a leader epoch begins (preparePartitionReplica and
 * preparePartitionLeaderSnapshot, pkg/controller/cluster_handler.go), the append of leader records
 * (ReplicaAppendWithMode, pkg/topic/partition.go) and the committed watermark (applyPartitionCommitCommand,
 * pkg/cluster/replication/fsm/fsm_command.go).
 *
 * A leadership fence never returns, so it is its position in the history of fences. A record is its content, all that
 * sameReplicatedMessage compares.
 */
module ReplicaSet {
  import opened Common

  type Broker = string
  type Fence = nat
  type Record = string
  type Log = seq<Record>

  /**
   * `view` and `known` are the fence and the watermark of the metadata it has applied; `prepared` is the last fence
   * its process has cut for. `joined` remembers that fence over restarts, and `torn` that a restarted process cut its
   * log again for a fence it had cut for before.
   */
  datatype Replica = Replica(
    log: Log, view: Fence, known: nat, prepared: Option<Fence>, joined: Option<Fence>, torn: bool)

  /** `leaders[f]` leads under fence `f`, and `bases[f]` was committed when it began; the last fence is current. */
  datatype Cluster = Cluster(leaders: seq<Broker>, bases: seq<nat>, hwm: nat, replicas: map<Broker, Replica>)
  {
    function Current(): int { |leaders| - 1 }
  }

  /** Records written from offset `start` on under `fence`. */
  datatype Range = Range(fence: Fence, start: nat, records: Log)
  {
    function End(): nat { start + |records| }
  }

  ghost predicate ReplicaOk(c: Cluster, r: Replica) {
    && r.view < |c.bases| && c.bases[r.view] <= r.known <= c.hwm
    && (r.prepared.Some? ==> r.joined == r.prepared)
  }

  ghost predicate ClusterOk(c: Cluster) {
    && |c.leaders| == |c.bases| > 0
    && (forall f, g | 0 <= f <= g < |c.bases| :: c.bases[f] <= c.bases[g])
    && (forall f | 0 <= f < |c.bases| :: c.bases[f] <= c.hwm)
    && (forall b | b in c.replicas :: ReplicaOk(c, c.replicas[b]))
  }

  ghost predicate HasRange(log: Log, x: Range) {
    x.End() <= |log| && forall o | x.start <= o < x.End() :: log[o] == x.records[o - x.start]
  }

  function With(c: Cluster, b: Broker, r: Replica): Cluster {
    c.(replicas := c.replicas[b := r])
  }

  // ---------------------------------------------------------------------------------------------
  // What happens around the lane

  datatype Change =
    | Elect(leader: Broker)                          // a new fence
    | Learn(broker: Broker, view: Fence, known: nat) // a broker applies metadata
    | Prepare(broker: Broker)                        // the first request of an epoch cuts the uncommitted tail
    | Restart(broker: Broker)                        // a process that no longer knows what it has cut for
    | Copy(broker: Broker, n: nat)                   // catch-up from the leader's log
    | Foreign(broker: Broker, records: Log)          // appends under another leader
    | CommitElsewhere(hwm: nat)                      // another leader's commit

  predicate CanChange(c: Cluster, self: Broker, e: Change) {
    && self in c.replicas
    && match e
       case Elect(_) => true
       case Learn(b, view, known) =>
         && b in c.replicas && c.replicas[b].view <= view < |c.bases|
         && c.replicas[b].known <= known <= c.hwm && c.bases[view] <= known
       case Prepare(b) =>
         && b in c.replicas && c.replicas[b].view < |c.leaders| && c.replicas[b].prepared != Some(c.replicas[b].view)
         && (c.leaders[c.replicas[b].view] == b ==> c.replicas[b].known <= |c.replicas[b].log|)
       case Restart(b) => b in c.replicas && b != self
       case Copy(b, n) => b in c.replicas && b != self && |c.replicas[b].log| + n <= |c.replicas[self].log|
       case Foreign(b, _) =>
         b in c.replicas && c.replicas[b].view < |c.leaders| && c.leaders[c.replicas[b].view] != self
       case CommitElsewhere(h) => c.leaders != [] && c.leaders[|c.leaders| - 1] != self && c.hwm <= h
  }

  /** Where a replica is cut: at the watermark it knows of, or nowhere if it is behind that. */
  function CutOf(r: Replica): nat {
    if r.known <= |r.log| then r.known else |r.log|
  }

  function Prepared(r: Replica): Replica {
    r.(prepared := Some(r.view), joined := Some(r.view), log := r.log[..CutOf(r)],
       torn := r.torn || (r.joined == Some(r.view) && CutOf(r) < |r.log|))
  }

  function Grown(r: Replica, records: Log): Replica {
    r.(log := r.log + records)
  }

  function DoChange(c: Cluster, self: Broker, e: Change): Cluster
    requires CanChange(c, self, e)
  {
    match e
    case Elect(leader) => c.(leaders := c.leaders + [leader], bases := c.bases + [c.hwm])
    case Learn(b, view, known) => With(c, b, c.replicas[b].(view := view, known := known))
    case Prepare(b) => With(c, b, Prepared(c.replicas[b]))
    case Restart(b) => With(c, b, c.replicas[b].(prepared := None))
    case Copy(b, n) =>
      var at := |c.replicas[b].log|;
      Grow(c, b, c.replicas[self].log[at..at + n])
    case Foreign(b, records) => Grow(c, b, records)
    case CommitElsewhere(h) => c.(hwm := h)
  }

  // ---------------------------------------------------------------------------------------------
  // What the lane does to them

  /** A follower takes a range: no gap before it, and what it holds of the range already is the same. */
  predicate CanAccept(r: Replica, x: Range) {
    && r.view == x.fence && r.prepared == Some(x.fence) && x.start <= |r.log|
    && forall o | x.start <= o < x.End() && o < |r.log| :: r.log[o] == x.records[o - x.start]
  }

  /** The part of a range a replica does not hold yet. */
  function Missing(r: Replica, x: Range): Log {
    if x.start <= |r.log| < x.End() then x.records[|r.log| - x.start..] else []
  }

  function Accepted(r: Replica, x: Range): Replica {
    Grown(r, Missing(r, x))
  }

  /** `log` is what the replica has, followed at most by records of the range, and holds the whole range. */
  ghost predicate CompletedTo(r: Replica, x: Range, log: Log) {
    r.log <= log && HasRange(log, x) && (|r.log| < |log| ==> x.start <= |r.log| && |log| <= x.End())
  }

  /** Under its fence a replica refuses a range exactly if no such log exists: there is a gap or a conflict. */
  lemma AcceptsExactly(r: Replica, x: Range)
    requires x.records != []
    ensures CanAccept(r, x) <==>
              r.view == x.fence && r.prepared == Some(x.fence) && exists log :: CompletedTo(r, x, log)
  {
    if CanAccept(r, x) {
      AcceptedHolds(r, x);
      assert CompletedTo(r, x, Accepted(r, x).log);
    }
    if log :| CompletedTo(r, x, log) {
      assert |log| >= x.End();
      assert forall o | x.start <= o < x.End() :: log[o] == x.records[o - x.start];
    }
  }

  lemma AcceptedHolds(r: Replica, x: Range)
    requires CanAccept(r, x)
    ensures HasRange(Accepted(r, x).log, x) && r.log <= Accepted(r, x).log
    ensures Accepted(r, x) == r.(log := Accepted(r, x).log)
  {
  }

  // ---------------------------------------------------------------------------------------------
  // What stays

  /** Every fence after `f` began with a watermark of at least `n`. */
  ghost predicate Floor(c: Cluster, f: Fence, n: nat) {
    n <= c.hwm && forall g | f < g < |c.bases| :: n <= c.bases[g]
  }

  /** A replica has taken part in fence `f` and is not cut for it again unless its process restarts. */
  predicate Joined(r: Replica, f: Fence) {
    f <= r.view && (r.view == f ==> r.joined == Some(f))
  }

  /** A replica holds `prefix` and will keep it unless it is torn, once every later fence begins above it. */
  ghost predicate Pinned(c: Cluster, b: Broker, f: Fence, prefix: Log) {
    b in c.replicas && Joined(c.replicas[b], f) && (c.replicas[b].torn || prefix <= c.replicas[b].log)
  }

  /** A replica holds an uncommitted range for as long as its fence lasts there and it is not torn. */
  ghost predicate Tentative(c: Cluster, b: Broker, x: Range) {
    b in c.replicas && Joined(c.replicas[b], x.fence)
    && (c.replicas[b].view == x.fence ==> c.replicas[b].torn || HasRange(c.replicas[b].log, x))
  }

  /**
   * The cut of a replica that has taken part in its fence before. It keeps what it holds of a committed log exactly
   * if it has learned of a watermark that covers it; one that is cut though nothing is torn is cut for the first
   * time.
   */
  lemma RepeatedCutKeepsExactly(r: Replica, prefix: Log)
    requires prefix <= r.log
    ensures prefix <= Prepared(r).log <==> |prefix| <= r.known
    ensures Prepared(r).torn <==> r.torn || (r.joined == Some(r.view) && r.known < |r.log|)
  {
  }

  lemma ChangeKeepsOk(c: Cluster, self: Broker, e: Change)
    requires ClusterOk(c) && CanChange(c, self, e)
    ensures ClusterOk(DoChange(c, self, e)) && c.replicas.Keys == DoChange(c, self, e).replicas.Keys
    ensures c.leaders <= DoChange(c, self, e).leaders && c.bases <= DoChange(c, self, e).bases
    ensures c.hwm <= DoChange(c, self, e).hwm
  {
    hide ReplicaOk, Prepared;
    var d := DoChange(c, self, e);
    forall b | b in d.replicas ensures ReplicaOk(d, d.replicas[b]) {
      ChangeKeepsReplica(c, self, e, b);
    }
  }

  lemma ChangeKeepsReplica(c: Cluster, self: Broker, e: Change, b: Broker)
    requires ClusterOk(c) && CanChange(c, self, e) && b in c.replicas
    ensures b in DoChange(c, self, e).replicas && ReplicaOk(DoChange(c, self, e), DoChange(c, self, e).replicas[b])
  {
    assert ReplicaOk(c, c.replicas[b]);
  }

  lemma ChangeKeepsFloor(c: Cluster, self: Broker, e: Change, f: Fence, n: nat)
    requires ClusterOk(c) && CanChange(c, self, e) && Floor(c, f, n)
    ensures Floor(DoChange(c, self, e), f, n)
  {
  }

  /** Nothing below a committed watermark of an earlier or the present fence is ever cut or overwritten. */
  lemma ChangeKeepsPinned(c: Cluster, self: Broker, e: Change, b: Broker, f: Fence, prefix: Log)
    requires ClusterOk(c) && CanChange(c, self, e) && Pinned(c, b, f, prefix)
    requires c.replicas[b].torn || Floor(c, f, |prefix|)
    ensures Pinned(DoChange(c, self, e), b, f, prefix)
    ensures c.replicas[b].torn ==> DoChange(c, self, e).replicas[b].torn
  {
    var r := c.replicas[b];
    assert ReplicaOk(c, r);
    if e.Prepare? && e.broker == b && r.joined != Some(r.view) && !r.torn {
      assert f < r.view && |prefix| <= c.bases[r.view] <= r.known;
    }
  }

  lemma ChangeKeepsTentative(c: Cluster, self: Broker, e: Change, b: Broker, x: Range)
    requires ClusterOk(c) && CanChange(c, self, e) && Tentative(c, b, x)
    ensures Tentative(DoChange(c, self, e), b, x)
  {
  }

  function Grow(c: Cluster, b: Broker, records: Log): Cluster
    requires b in c.replicas
  {
    With(c, b, Grown(c.replicas[b], records))
  }

  lemma GrowKeepsOk(c: Cluster, b: Broker, records: Log)
    requires ClusterOk(c) && b in c.replicas
    ensures ClusterOk(Grow(c, b, records)) && Grow(c, b, records).replicas.Keys == c.replicas.Keys
  {
    assert ReplicaOk(c, c.replicas[b]);
  }

  lemma GrowKeepsPinned(c: Cluster, b: Broker, records: Log, a: Broker, f: Fence, prefix: Log)
    requires b in c.replicas && Pinned(c, a, f, prefix)
    ensures Pinned(Grow(c, b, records), a, f, prefix)
    ensures Grow(c, b, records).replicas[a].torn == c.replicas[a].torn
  {
  }

  lemma GrowKeepsTentative(c: Cluster, b: Broker, records: Log, a: Broker, x: Range)
    requires b in c.replicas && Tentative(c, a, x)
    ensures Tentative(Grow(c, b, records), a, x)
  {
  }

  /** Under the current fence what is tentative is held; a commit there makes it permanent. */
  lemma CommitPins(c: Cluster, b: Broker, x: Range)
    requires ClusterOk(c) && Tentative(c, b, x) && x.fence == c.Current()
    ensures !c.replicas[b].torn ==>
              HasRange(c.replicas[b].log, x) && Pinned(c, b, x.fence, c.replicas[b].log[..x.End()])
  {
    assert ReplicaOk(c, c.replicas[b]);
  }

  // ---------------------------------------------------------------------------------------------
  // Agreement with the leader

  /** A follower and the leader are both prepared for a fence the leader leads, and the follower is not ahead. */
  ghost predicate Follows(c: Cluster, self: Broker, b: Broker, f: Fence) {
    && self in c.replicas && b in c.replicas && b != self && f < |c.leaders| && c.leaders[f] == self
    && c.replicas[self].view == f && c.replicas[self].prepared == Some(f)
    && c.replicas[b].view == f && c.replicas[b].prepared == Some(f)
    && |c.replicas[b].log| <= |c.replicas[self].log|
  }

  ghost predicate Agrees(c: Cluster, self: Broker, b: Broker) {
    self in c.replicas && b in c.replicas && c.replicas[b].log <= c.replicas[self].log
  }

  /** Nothing that happens while a follower stays with its leader makes a difference to whether their logs agree. */
  lemma ChangeKeepsAgreement(c: Cluster, self: Broker, e: Change, b: Broker, f: Fence)
    requires CanChange(c, self, e) && Follows(c, self, b, f) && Follows(DoChange(c, self, e), self, b, f)
    ensures Agrees(DoChange(c, self, e), self, b) <==> Agrees(c, self, b)
  {
    if e.Copy? && e.broker == b {
      var mine, theirs := c.replicas[b].log, c.replicas[self].log;
      var more := mine + theirs[|mine|..|mine| + e.n];
      assert mine <= theirs ==> more == theirs[..|mine| + e.n];
      assert more <= theirs ==> mine == more[..|mine|] && mine <= theirs;
    }
  }

  /** The records of `mine` from `low` on below `high` are those of `theirs`. */
  ghost predicate SameBetween(mine: Log, theirs: Log, low: nat, high: nat) {
    forall o | low <= o < high && o < |mine| :: o < |theirs| && mine[o] == theirs[o]
  }

  lemma SameAt(mine: Log, theirs: Log, low: nat, high: nat, o: nat)
    requires SameBetween(mine, theirs, low, high) && low <= o < high && o < |mine|
    ensures o < |theirs| && mine[o] == theirs[o]
  {
  }

  /**
   * A follower whose log agrees with the leader's below the watermark the epoch began with agrees after its cut if
   * and only if the records between that watermark and the cut are the leader's.
   */
  lemma CutDecidesAgreement(c: Cluster, self: Broker, b: Broker)
    requires ClusterOk(c) && CanChange(c, self, Prepare(b)) && b != self
    requires SameBetween(c.replicas[b].log, c.replicas[self].log, 0, c.bases[c.replicas[b].view])
    ensures Agrees(DoChange(c, self, Prepare(b)), self, b) <==>
              SameBetween(c.replicas[b].log, c.replicas[self].log, c.bases[c.replicas[b].view], CutOf(c.replicas[b]))
  {
    var r, theirs := c.replicas[b], c.replicas[self].log;
    var mine, n := r.log, CutOf(r);
    var base := c.bases[r.view];
    assert ReplicaOk(c, r);
    if SameBetween(mine, theirs, base, n) {
      if n > 0 {
        if n - 1 < base { SameAt(mine, theirs, 0, base, n - 1); } else { SameAt(mine, theirs, base, n, n - 1); }
      }
      forall o | 0 <= o < n ensures mine[o] == theirs[o] {
        if o < base { SameAt(mine, theirs, 0, base, o); } else { SameAt(mine, theirs, base, n, o); }
      }
      assert mine[..n] == theirs[..n];
    }
    assert mine[..n] <= theirs ==> forall o | 0 <= o < n :: mine[o] == mine[..n][o] == theirs[o];
  }

  /** Every follower that agrees below the watermark of the epoch's start agrees after its cut. */
  ghost predicate CutIsSafe(r: Replica, leader: Log, base: nat) {
    forall log | SameBetween(log, leader, 0, base) :: Prepared(r.(log := log)).log <= leader
  }

  /**
   * What a broker can check before it prepares: the cut is right for every such follower if and only if the watermark
   * it knows of is still the one the epoch began with.
   */
  lemma CutIsSafeExactlyAtBase(r: Replica, leader: Log, base: nat)
    requires base <= r.known && base <= |leader|
    ensures CutIsSafe(r, leader, base) <==> r.known == base
  {
    if r.known == base {
      forall log | SameBetween(log, leader, 0, base) ensures Prepared(r.(log := log)).log <= leader {
        var cut := Prepared(r.(log := log)).log;
        forall o | 0 <= o < |cut| ensures cut[o] == leader[o] { assert log[o] == leader[o]; }
      }
    } else {
      var other := if base < |leader| then leader[base] + "x" else "";
      var log := leader[..base] + seq(r.known - base, _ => other);
      assert SameBetween(log, leader, 0, base);
      assert Prepared(r.(log := log)).log == log && log[base] == other;
      assert base < |leader| ==> |other| == |leader[base]| + 1;
    }
  }

  lemma AcceptKeepsAgreement(leader: Log, r: Replica, x: Range)
    requires CanAccept(r, x) && HasRange(leader, x) && |r.log| <= |leader|
    ensures |Accepted(r, x).log| <= |leader| && (Accepted(r, x).log <= leader <==> r.log <= leader)
  {
    var log := Accepted(r, x).log;
    assert log <= leader ==> r.log == log[..|r.log|];
  }
}
