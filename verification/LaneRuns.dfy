/** Runs of the replication lane and its replicas that show where a promise ends. */
module LaneRuns {
  import opened Common
  import opened ReplicaSet
  import opened ReplicationLane

  lemma Extend(s: Lane, n: nat, e: Event)
    requires Reachable(s, n) && Enabled(s, e)
    ensures Reachable(Do(s, e), n + 1)
  {
  }

  /** Nobody is waiting and the queue has room. */
  predicate Quiet(s: Lane) {
    && s.flags == Flags(false, false, false, false) && s.counts.slots < s.capacity
    && |s.submitted| - s.taken < s.capacity
    && s.counts.entering == 0 && s.counts.open == 0 && s.counts.sending == 0
  }

  /** One caller's reservation, append and submission. */
  lemma SubmitOne(s: Lane, n: nat, e: Event) returns (t: Lane)
    requires Reachable(s, n) && Quiet(s) && e.Submit? && Leads(s.cluster, s.self) && s.self in e.isr
    requires if e.barrier then e.records == [] && e.acksAll else e.records != []
    ensures Reachable(t, n + 4)
    ensures t == s.(counts := s.counts.(slots := s.counts.slots + 1), submitted := s.submitted + [TaskOf(s, e)],
                    cluster := Grow(s.cluster, s.self, e.records))
  {
    hide Reachable, Grow;
    Extend(s, n, Enter);
    var a := Do(s, Enter);
    Extend(a, n + 1, Acquire);
    var b := Do(a, Acquire);
    Extend(b, n + 2, e);
    var c := Do(b, e);
    Extend(c, n + 3, SignOff);
    t := Do(c, SignOff);
  }

  lemma WorkOne(s: Lane, n: nat, e: Work) returns (t: Lane)
    requires Reachable(s, n) && Busy(s) && CanWork(s.cluster, s.self, s.worker, e, Last(s))
    ensures Reachable(t, n + 1) && t == Worked(s, e)
  {
    Extend(s, n, Step(e));
    t := Do(s, Step(e));
  }

  /** The worker takes a task and finds its fence in place. */
  lemma IsChecked(s: Lane, n: nat, isr: set<Broker>) returns (t: Lane)
    requires Reachable(s, n) && s.worker.stage.Idle? && s.taken < |s.submitted|
    requires s.flags == Flags(false, false, false, false)
    requires !s.submitted[s.taken].barrier && s.self in isr && Sees(s.cluster, s.self, s.submitted[s.taken].range.fence)
    ensures Reachable(t, n + 3)
    ensures t
            == s.(taken := s.taken + 1,
                worker := s.worker.(reported := false, calls := s.worker.calls + [Matched(s.taken)],
                 stage := Replicating(if s.submitted[s.taken].acksAll then s.submitted[s.taken].isr else isr, {})))
  {
    hide Reachable;
    Extend(s, n, Take);
    var a := Do(s, Take);
    var c := WorkOne(a, n + 1, Begin);
    t := WorkOne(c, n + 2, SnapshotOk(isr));
  }

  /** The worker gives a task up because a replica does not see its fence. */
  lemma IsRefused(s: Lane, n: nat, b: Broker) returns (t: Lane)
    requires Reachable(s, n) && Busy(s) && s.worker.stage.Replicating? && s.flags == Flags(false, false, false, false)
    requires s.counts.slots > 0 && Last(s).acksAll && !s.worker.reported
    requires s.taken - 1 !in s.worker.results && s.taken - 1 !in s.worker.committed
    requires b in s.worker.stage.isr && b != s.self && !Sees(s.cluster, b, Last(s).range.fence)
    ensures Reachable(t, n + 3)
    ensures t == s.(counts := s.counts.(slots := s.counts.slots - 1),
                    worker := s.worker.(stage := Idle, reported := true,
                        results := s.worker.results[s.taken - 1 := false],
                      refused := s.worker.refused + {s.taken - 1}, calls := s.worker.calls + [Failed(s.taken - 1)]))
  {
    hide Reachable;
    var f := WorkOne(s, n, ReplicateRefused(b));
    var g := WorkOne(f, n + 1, Report);
    Extend(g, n + 2, Finish);
    t := Do(g, Finish);
  }

  /** A task the leader alone has to hold is committed. */
  lemma IsCommittedAlone(s: Lane, n: nat) returns (t: Lane)
    requires Reachable(s, n) && Busy(s) && s.worker.stage == Replicating({s.self}, {})
    requires Sees(s.cluster, s.self, Last(s).range.fence) && Last(s).range.fence == s.cluster.Current()
    requires s.cluster.hwm <= Last(s).range.End()
    ensures Reachable(t, n + 3) && t.self == s.self && t.submitted == s.submitted
    ensures t.cluster == s.cluster.(hwm := Last(s).range.End())
    ensures t.worker.committed == s.worker.committed + {s.taken - 1}
    ensures t.worker.refused == s.worker.refused && t.worker.results == s.worker.results
  {
    hide Reachable;
    var a := WorkOne(s, n, ReplicateOk);
    var b := WorkOne(a, n + 1, SnapshotOk({s.self}));
    t := WorkOne(b, n + 2, CommitOk);
  }

  function Two(leaders: seq<Broker>, bases: seq<nat>, hwm: nat, a: Replica, c: Replica): Cluster {
    Cluster(leaders, bases, hwm, map["a" := a, "c" := c])
  }

  lemma OneOfTwo(leaders: seq<Broker>, bases: seq<nat>, hwm: nat, a: Replica, c: Replica, r: Replica)
    ensures With(Two(leaders, bases, hwm, a, c), "a", r) == Two(leaders, bases, hwm, r, c)
    ensures With(Two(leaders, bases, hwm, a, c), "c", r) == Two(leaders, bases, hwm, a, r)
  {
    assert map["a" := a, "c" := c]["a" := r] == map["a" := r, "c" := c];
    assert map["a" := a, "c" := c]["c" := r] == map["a" := a, "c" := r];
  }

  /** A leader `a` with one follower `c` and nothing written. */
  function Pair(leaders: seq<Broker>, views: (Fence, Fence)): Cluster {
    Two(leaders, seq(|leaders|, _ => 0), 0, Replica([], views.0, 0, Some(views.0), Some(views.0), false),
        Replica([], views.1, 0, None, None, false))
  }

  /**
   * A barrier may pass over an uncommitted task: the follower has learned of a new leader before the old one has, so
   * it refuses the task; the producer is told so, sends again, and the duplicate's barrier succeeds with nothing
   * committed.
   */
  lemma BarrierPassesRefusedTask() returns (s: Lane)
    ensures Reachable(s, 17) && |s.submitted| == 2 && Carries(s, 0) && s.worker.results == map[0 := false, 1 := true]
    ensures GoodBarrier(s, 1) && s.submitted[0].range.fence == s.submitted[1].range.fence
    ensures s.worker.committed == {} && TailRefused(s, 0, 1) && s.cluster.hwm < s.submitted[0].range.End()
  {
    hide Reachable;
    var s0 := FreshPair(["a", "b"], (0, 1));
    var s1 := SubmitOne(s0, 0, Submit(["m"], {"a", "c"}, true, false));
    var r := IsChecked(s1, 4, {"a", "c"});
    var s2 := IsRefused(r, 7, "c");
    var s3 := SubmitOne(s2, 10, Submit([], {"a", "c"}, true, true));
    s := BarrierPasses(s3, 14);
  }

  lemma BarrierPasses(s: Lane, n: nat) returns (t: Lane)
    requires Reachable(s, n) && s.worker.stage.Idle? && s.taken < |s.submitted|
    requires s.flags == Flags(false, false, false, false)
    requires s.submitted[s.taken].barrier && s.submitted[s.taken].acksAll && s.taken !in s.worker.results
    requires Sees(s.cluster, s.self, s.submitted[s.taken].range.fence)
    ensures Reachable(t, n + 3) && t.submitted == s.submitted && t.cluster == s.cluster
    ensures t.worker.results == s.worker.results[s.taken := true]
    ensures t.worker.committed == s.worker.committed && t.worker.refused == s.worker.refused
  {
    hide Reachable;
    Extend(s, n, Take);
    var a := Do(s, Take);
    var b := WorkOne(a, n + 1, Begin);
    t := WorkOne(b, n + 2, SnapshotOk({s.self}));
  }

  lemma PairIsOk(leaders: seq<Broker>, views: (Fence, Fence))
    requires leaders != [] && views.0 < |leaders| && views.1 < |leaders|
    ensures Fresh(Pair(leaders, views))
  {
  }

  /**
   * A task may be given up and its records be committed all the same: the follower has not heard of the new leader
   * yet and refuses, the in-sync set shrinks to the leader, and a later task's watermark covers both. The caller was
   * told of a failure.
   */
  lemma RefusedTaskIsCommitted() returns (s: Lane)
    ensures Reachable(s, 20) && |s.submitted| == 2 && Carries(s, 0)
    ensures 0 in s.worker.refused && s.worker.committed == {1}
    ensures 0 in s.worker.results && !s.worker.results[0]
    ensures s.submitted[0].range.fence == s.submitted[1].range.fence && s.submitted[0].range.End() < s.cluster.hwm
  {
    hide Reachable;
    var s0 := FreshPair(["b", "a"], (1, 0));
    var s1 := SubmitOne(s0, 0, Submit(["m"], {"a", "c"}, true, false));
    var r := IsChecked(s1, 4, {"a", "c"});
    var s2 := IsRefused(r, 7, "c");
    var s3 := SubmitOne(s2, 10, Submit(["m"], {"a"}, false, false));
    var s4 := IsChecked(s3, 14, {"a"});
    s := IsCommittedAlone(s4, 17);
  }

  lemma ChangeOne(s: Lane, n: nat, e: Change) returns (t: Lane)
    requires Reachable(s, n) && CanChange(s.cluster, s.self, e)
    ensures Reachable(t, n + 1) && t == s.(cluster := DoChange(s.cluster, s.self, e))
  {
    Extend(s, n, Around(e));
    t := Do(s, Around(e));
  }

  /** A change of one of two replicas. */
  lemma ChangeTwo(s: Lane, n: nat, e: Change, leaders: seq<Broker>, bases: seq<nat>, hwm: nat, a: Replica, c: Replica,
                  a': Replica, c': Replica) returns (t: Lane)
    requires Reachable(s, n) && s.cluster == Two(leaders, bases, hwm, a, c) && s.self == "a"
    requires CanChange(s.cluster, s.self, e) && !e.Elect? && !e.CommitElsewhere? && (e.broker == "a" || e.broker == "c")
    requires DoChange(s.cluster, s.self, e).replicas["a"] == a' && DoChange(s.cluster, s.self, e).replicas["c"] == c'
    ensures Reachable(t, n + 1) && t == s.(cluster := Two(leaders, bases, hwm, a', c'))
  {
    hide Reachable;
    t := ChangeOne(s, n, e);
    OneOfTwo(leaders, bases, hwm, a, c, if e.broker == "a" then a' else c');
  }

  lemma GrowTwo(leaders: seq<Broker>, bases: seq<nat>, hwm: nat, a: Replica, c: Replica, records: Log)
    ensures Grow(Two(leaders, bases, hwm, a, c), "a", records)
            == Two(leaders, bases, hwm, a.(log := a.log + records), c)
    ensures Grow(Two(leaders, bases, hwm, a, c), "c", records)
            == Two(leaders, bases, hwm, a, c.(log := c.log + records))
  {
    OneOfTwo(leaders, bases, hwm, a, c, a.(log := a.log + records));
    OneOfTwo(leaders, bases, hwm, a, c, c.(log := c.log + records));
  }

  lemma FreshPair(leaders: seq<Broker>, views: (Fence, Fence)) returns (s: Lane)
    requires leaders != [] && views.0 < |leaders| && views.1 < |leaders|
    ensures s == New("a", 2, Pair(leaders, views)) && Reachable(s, 0)
  {
    hide Reachable, Fresh;
    PairIsOk(leaders, views);
    s := New("a", 2, Pair(leaders, views));
    NewIsOk("a", 2, Pair(leaders, views));
  }

  /** A follower holds an uncommitted record of the leader `b`, and `a` is elected. */
  lemma OldRecord() returns (s: Lane)
    ensures Reachable(s, 2)
    ensures s == New("a", 2, Two(["b", "a"], [0, 0], 0, Replica([], 0, 0, Some(0), Some(0), false),
                                 Replica(["old"], 0, 0, None, None, false)))
  {
    hide Reachable;
    var s0 := FreshPair(["b"], (0, 0));
    var a, c := Replica([], 0, 0, Some(0), Some(0), false), Replica([], 0, 0, None, None, false);
    assert s0.cluster == Two(["b"], [0], 0, a, c);
    var held := Replica(["old"], 0, 0, None, None, false);
    assert c.log + ["old"] == ["old"];
    var s1 := ChangeTwo(s0, 0, Foreign("c", ["old"]), ["b"], [0], 0, a, c, a, held);
    s := ChangeOne(s1, 1, Elect("a"));
  }

  /** The new leader has learned of its election and cut its log; nothing is committed. */
  lemma NewLeader() returns (s: Lane)
    ensures Reachable(s, 4)
    ensures s == New("a", 2, Two(["b", "a"], [0, 0], 0, Replica([], 1, 0, Some(1), Some(1), false),
                                 Replica(["old"], 0, 0, None, None, false)))
  {
    hide Reachable;
    var s0 := OldRecord();
    var leaders, bases := ["b", "a"], [0, 0];
    var a, held := Replica([], 0, 0, Some(0), Some(0), false), Replica(["old"], 0, 0, None, None, false);
    var told, ready := a.(view := 1), Replica([], 1, 0, Some(1), Some(1), false);
    var s1 := ChangeTwo(s0, 2, Learn("a", 1, 0), leaders, bases, 0, a, held, told, held);
    assert told.log[..0] == [];
    s := ChangeTwo(s1, 3, Prepare("a"), leaders, bases, 0, told, held, ready, held);
  }

  /** A leader's task that it alone has to hold, from the submission to the commit. */
  lemma AloneFromStart(s: Lane, n: nat, e: Event) returns (t: Lane)
    requires Reachable(s, n) && Quiet(s) && e.Submit? && Leads(s.cluster, s.self)
    requires e.isr == {s.self} && e.records != [] && !e.barrier
    requires s.worker.stage.Idle? && s.taken == |s.submitted|
    requires s.cluster.replicas[s.self].view == s.cluster.Current() && s.cluster.hwm <= |s.cluster.replicas[s.self].log|
    ensures Reachable(t, n + 10) && t.self == s.self && t.submitted == s.submitted + [TaskOf(s, e)]
    ensures t.cluster == Grow(s.cluster, s.self, e.records).(hwm := |s.cluster.replicas[s.self].log| + |e.records|)
  {
    hide Reachable;
    var a := SubmitOne(s, n, e);
    var b := IsChecked(a, n + 4, {s.self});
    t := IsCommittedAlone(b, n + 7);
  }

  /**
   * A follower whose log differs from its leader's below the committed watermark: it holds an uncommitted record of
   * an older leader and prepares only after the new leader has committed another record in its place, so its cut
   * keeps the old one.
   */
  lemma DivergingFollower() returns (s: Lane)
    ensures Reachable(s, 16) && Follows(s.cluster, s.self, "c", 1) && !Agrees(s.cluster, s.self, "c")
    ensures s.cluster.hwm == 1 && s.cluster.replicas[s.self].log == ["new"] && s.cluster.replicas["c"].log == ["old"]
  {
    hide Reachable;
    var s0 := NewLeader();
    var leaders, bases := ["b", "a"], [0, 0];
    var ready, held := Replica([], 1, 0, Some(1), Some(1), false), Replica(["old"], 0, 0, None, None, false);
    var s1 := AloneFromStart(s0, 4, Submit(["new"], {"a"}, false, false));
    var a := ready.(log := ["new"]);
    assert ready.log + ["new"] == a.log;
    GrowTwo(leaders, bases, 0, ready, held, ["new"]);
    s := LateCut(s1, 14, a, held);
  }

  /** The follower learns of its leader and of the commit together, and prepares. */
  lemma LateCut(s: Lane, n: nat, a: Replica, held: Replica) returns (t: Lane)
    requires Reachable(s, n) && s.self == "a" && s.cluster == Two(["b", "a"], [0, 0], 1, a, held)
    requires a == Replica(["new"], 1, 0, Some(1), Some(1), false) && held == Replica(["old"], 0, 0, None, None, false)
    ensures Reachable(t, n + 2) && t.self == "a"
    ensures t.cluster == Two(["b", "a"], [0, 0], 1, a, Replica(["old"], 1, 1, Some(1), Some(1), false))
    ensures Follows(t.cluster, "a", "c", 1) && !Agrees(t.cluster, "a", "c")
  {
    hide Reachable;
    var leaders, bases := ["b", "a"], [0, 0];
    var told, cut := held.(view := 1, known := 1), Replica(["old"], 1, 1, Some(1), Some(1), false);
    var u := ChangeTwo(s, n, Learn("c", 1, 1), leaders, bases, 1, a, held, a, told);
    assert told.log[..1] == told.log;
    t := ChangeTwo(u, n + 1, Prepare("c"), leaders, bases, 1, a, told, a, cut);
    assert cut.log[0] != a.log[0];
  }

  /** A task that leader and follower have accepted is committed and answered. */
  lemma IsAnswered(s: Lane, n: nat, b: Broker) returns (t: Lane)
    requires Reachable(s, n) && Busy(s) && s.worker.stage == Replicating({s.self, b}, {}) && b != s.self
    requires b in s.cluster.replicas && CanAccept(s.cluster.replicas[b], Last(s).range)
    requires Sees(s.cluster, s.self, Last(s).range.fence) && Last(s).range.fence == s.cluster.Current()
    requires s.cluster.hwm <= Last(s).range.End() && Last(s).acksAll && s.taken - 1 !in s.worker.results
    ensures Reachable(t, n + 5) && t.self == s.self && t.submitted == s.submitted
    ensures t.worker.results == s.worker.results[s.taken - 1 := true]
    ensures t.cluster == Grow(s.cluster, b, Missing(s.cluster.replicas[b], Last(s).range)).(hwm := Last(s).range.End())
  {
    hide Reachable, CanAccept, Missing, Grow;
    var c := WorkOne(s, n, AcceptBy(b));
    var d := WorkOne(c, n + 1, ReplicateOk);
    GrowsOne(s.cluster, b, Missing(s.cluster.replicas[b], Last(s).range));
    t := IsHeldAndAnswered(d, n + 2, {s.self, b});
  }

  lemma GrowsOne(c: Cluster, b: Broker, records: Log)
    requires b in c.replicas
    ensures Grow(c, b, records).(replicas := c.replicas) == c
    ensures Grow(c, b, records).replicas.Keys == c.replicas.Keys
    ensures forall o | o in c.replicas :: Grow(c, b, records).replicas[o].view == c.replicas[o].view
  {
  }

  /** What its in-sync set holds is committed and answered. */
  lemma IsHeldAndAnswered(s: Lane, n: nat, isr: set<Broker>) returns (t: Lane)
    requires Reachable(s, n) && Busy(s) && s.worker.stage == BeforeCommit(isr) && s.self in isr
    requires Sees(s.cluster, s.self, Last(s).range.fence) && Last(s).range.fence == s.cluster.Current()
    requires s.cluster.hwm <= Last(s).range.End() && Last(s).acksAll && s.taken - 1 !in s.worker.results
    ensures Reachable(t, n + 3) && t.self == s.self && t.submitted == s.submitted
    ensures t.worker.results == s.worker.results[s.taken - 1 := true]
    ensures t.cluster == s.cluster.(hwm := Last(s).range.End())
  {
    hide Reachable;
    var a := WorkOne(s, n, SnapshotOk(isr));
    var b := WorkOne(a, n + 1, CommitOk);
    t := WorkOne(b, n + 2, SnapshotOk(isr));
  }

  /**
   * A restarted follower loses an acknowledged record: it has not learned of the commit yet, has forgotten that it
   * prepared for this leader, and cuts its log to the watermark it knows of at the next request.
   */
  lemma RestartLosesAcknowledgedRecord() returns (s: Lane)
    ensures Reachable(s, 15) && |s.submitted| == 1 && s.worker.results == map[0 := true]
    ensures "c" in s.submitted[0].isr && s.cluster.hwm == s.submitted[0].range.End() == 1
    ensures "c" in s.cluster.replicas && s.cluster.replicas["c"].torn && s.cluster.replicas["c"].log == []
  {
    hide Reachable, Grow;
    var s0 := FollowerReady();
    var r := Replica([], 0, 0, Some(0), Some(0), false);
    var s1 := SubmitOne(s0, 1, Submit(["m"], {"a", "c"}, true, false));
    var full := r.(log := ["m"]);
    assert r.log + ["m"] == full.log;
    GrowTwo(["a"], [0], 0, r, r, ["m"]);
    var s2 := IsChecked(s1, 5, {"a", "c"});
    GrowTwo(["a"], [0], 0, full, r, ["m"]);
    assert Missing(r, Range(0, 0, ["m"])) == ["m"];
    var s3 := IsAnswered(s2, 8, "c");
    s := RestartedAndCut(s3, 13, full);
  }

  lemma FollowerReady() returns (s: Lane)
    ensures Reachable(s, 1)
    ensures s == New("a", 2, Two(["a"], [0], 0, Replica([], 0, 0, Some(0), Some(0), false),
                                 Replica([], 0, 0, Some(0), Some(0), false)))
  {
    hide Reachable;
    var s0 := FreshPair(["a"], (0, 0));
    var a, c := Replica([], 0, 0, Some(0), Some(0), false), Replica([], 0, 0, None, None, false);
    assert s0.cluster == Two(["a"], [0], 0, a, c) && c.log[..0] == [];
    s := ChangeTwo(s0, 0, Prepare("c"), ["a"], [0], 0, a, c, a, a);
  }

  lemma RestartedAndCut(s: Lane, n: nat, r: Replica) returns (t: Lane)
    requires Reachable(s, n) && s.self == "a" && r == Replica(["m"], 0, 0, Some(0), Some(0), false)
    requires s.cluster == Two(["a"], [0], 1, r, r)
    ensures Reachable(t, n + 2)
    ensures t == s.(cluster := Two(["a"], [0], 1, r, Replica([], 0, 0, Some(0), Some(0), true)))
  {
    hide Reachable;
    var dazed, cut := r.(prepared := None), Replica([], 0, 0, Some(0), Some(0), true);
    var u := ChangeTwo(s, n, Restart("c"), ["a"], [0], 1, r, r, r, dazed);
    assert dazed.log[..0] == [];
    t := ChangeTwo(u, n + 1, Prepare("c"), ["a"], [0], 1, r, dazed, r, cut);
  }
}
