/**
 * Whole histories of the replication lane: what must have happened before a task is given up, and that a task whose
 * attempt failed for any other reason is tried again and can still be committed.
 */
module LaneHistory {
  import opened Common
  import opened ReplicaSet
  import opened ReplicationLane
  import opened LaneRuns

  /** A run from a fresh cluster, with every state in between. */
  ghost predicate Run(run: seq<Lane>) {
    && run != [] && Reachable(run[0], 0)
    && forall k | 0 <= k < |run| - 1 :: Next(run[k], run[k + 1])
  }

  lemma {:induction false} RunIsReachable(run: seq<Lane>, k: nat)
    requires Run(run) && k < |run|
    ensures Reachable(run[k], k) && Inv(run[k])
  {
    hide Inv, Enabled, Do;
    if k > 0 {
      RunIsReachable(run, k - 1);
      assert Next(run[k - 1], run[k - 1 + 1]);
      var e :| Enabled(run[k - 1], e) && run[k] == Do(run[k - 1], e);
      Extend(run[k - 1], k - 1, e);
    }
    RunKeeps(run[k], k);
  }

  // ---------------------------------------------------------------------------------------------
  // Giving up

  /** A broker other than the leader that the task is sent to has applied metadata of another fence. */
  ghost predicate BrokerDiffers(s: Lane)
    requires Busy(s)
  {
    s.worker.stage.Replicating?
    && exists b | b in s.worker.stage.isr :: b != s.self && !Sees(s.cluster, b, Last(s).range.fence)
  }

  /** The worker is at task `i`, and its fence is not the leader's, or not the cluster's, or not one of its brokers'. */
  ghost predicate FenceDiffers(s: Lane, i: nat) {
    && Busy(s) && s.taken - 1 == i
    && (|| !Sees(s.cluster, s.self, Last(s).range.fence)
        || Last(s).range.fence != s.cluster.Current()
        || BrokerDiffers(s))
  }

  /** Records the worker is done with although they are not committed and the lane still runs. */
  predicate GivenUp(s: Lane, i: nat) {
    Over(s, i) && Carries(s, i) && i !in s.worker.committed && !s.flags.cancelled
  }

  /** The attempt at task `i` has met another fence. */
  predicate MetFence(s: Lane, i: nat) {
    Busy(s) && s.taken - 1 == i && s.worker.stage.Failing? && !s.worker.stage.cause.Other?
  }

  lemma WorkMeetsFence(s: Lane, e: Work)
    requires Busy(s) && CanWork(s.cluster, s.self, s.worker, e, Last(s))
    requires Worked(s, e).worker.stage.Failing? && !Worked(s, e).worker.stage.cause.Other?
    ensures FenceDiffers(s, s.taken - 1)
  {
  }

  lemma WorkEnds(s: Lane, e: Work)
    requires Busy(s) && CanWork(s.cluster, s.self, s.worker, e, Last(s))
    requires StageOk(s.worker, s.self, Last(s), s.taken - 1)
    requires Worked(s, e).worker.stage.Finishing? && !Last(s).barrier && !s.flags.cancelled
    ensures s.taken - 1 in Worked(s, e).worker.committed || MetFence(s, s.taken - 1)
    ensures s.worker.committed <= Worked(s, e).worker.committed
  {
  }

  lemma TakenIsSubmitted(s: Lane)
    requires Inv(s)
    ensures s.taken <= |s.submitted|
  {
  }

  lemma StageIsOk(s: Lane)
    requires Inv(s) && Busy(s)
    ensures StageOk(s.worker, s.self, Last(s), s.taken - 1)
  {
    hide ShutdownOk, ResultsOk, TasksOk, NowOk, DropsOk, OrderOk, AcksOk, CommitsOk, StageOk;
  }

  /** A step gives nothing up unless the attempt has met another fence, and meets one only if there is one. */
  lemma StepGivesUp(s: Lane, e: Event, i: nat)
    requires Inv(s) && Enabled(s, e) && (GivenUp(Do(s, e), i) || MetFence(Do(s, e), i))
    ensures GivenUp(s, i) || MetFence(s, i) || FenceDiffers(s, i)
  {
    hide Inv, CanWork, DoWork, ClusterAfter, CanChange, DoChange, Leads, StageOk;
    TakenIsSubmitted(s);
    if e.Step? {
      StageIsOk(s);
      if i == s.taken - 1 {
        WorkGoesOn(s.cluster, s.self, s.worker, e.work, Last(s), i, s.flags.cancelled);
        if MetFence(Do(s, e), i) {
          WorkMeetsFence(s, e.work);
        } else {
          WorkEnds(s, e.work);
        }
      } else {
        EarlierStays(s, e.work, i);
      }
    }
  }

  lemma EarlierStays(s: Lane, e: Work, i: nat)
    requires Inv(s) && Busy(s) && CanWork(s.cluster, s.self, s.worker, e, Last(s)) && i != s.taken - 1
    ensures i in Worked(s, e).worker.committed <==> i in s.worker.committed
  {
    hide StageOk, CallsOk, CanWork;
    WorkFacts(s, e);
  }

  lemma StartsClean(s: Lane, i: nat)
    requires Reachable(s, 0)
    ensures !GivenUp(s, i) && !MetFence(s, i)
  {
  }

  lemma {:induction false} MetBefore(run: seq<Lane>, n: nat, i: nat) returns (k: nat)
    requires Run(run) && n < |run| && (GivenUp(run[n], i) || MetFence(run[n], i))
    ensures k < n && FenceDiffers(run[k], i)
  {
    hide Inv, Enabled, Do, GivenUp, MetFence, FenceDiffers, Reachable;
    if n == 0 {
      StartsClean(run[0], i);
      assert false;
    }
    RunIsReachable(run, n - 1);
    assert Next(run[n - 1], run[n - 1 + 1]);
    var e :| Enabled(run[n - 1], e) && run[n] == Do(run[n - 1], e);
    StepGivesUp(run[n - 1], e, i);
    if FenceDiffers(run[n - 1], i) {
      k := n - 1;
    } else {
      k := MetBefore(run, n - 1, i);
    }
  }

  /**
   * A task is given up only for its fence. Whatever timeouts, failed snapshots and failed commits there were: if the
   * worker is done with a task's records, has not committed them and the lane was not cancelled, then at some earlier
   * moment, while it was at this task, the leader, one of the brokers it sent it to or the cluster had another fence.
   */
  lemma GivenUpForItsFence(run: seq<Lane>, n: nat, i: nat)
    requires Run(run) && n < |run| && Over(run[n], i) && Carries(run[n], i) && i !in run[n].worker.committed
    ensures run[n].flags.cancelled || exists k | 0 <= k < n :: FenceDiffers(run[k], i)
  {
    if !run[n].flags.cancelled {
      var k := MetBefore(run, n, i);
    }
  }

  /** So a barrier passes uncommitted records of its own fence only if another fence was met while they were tried. */
  lemma BarrierPassesForAFence(run: seq<Lane>, n: nat, i: nat, k: nat)
    requires Run(run) && n < |run| && GoodBarrier(run[n], i) && k < i && Carries(run[n], k) && !run[n].flags.cancelled
    requires run[n].submitted[k].range.fence == run[n].submitted[i].range.fence
    ensures k in run[n].worker.committed || exists j | 0 <= j < n :: FenceDiffers(run[j], k)
  {
    hide Inv, FenceDiffers;
    RunIsReachable(run, n);
    if k !in run[n].worker.committed {
      BarrierIsTaken(run[n], i);
      GivenUpForItsFence(run, n, k);
    }
  }

  lemma BarrierIsTaken(s: Lane, i: nat)
    requires Inv(s) && GoodBarrier(s, i)
    ensures i < s.taken
  {
  }

  // ---------------------------------------------------------------------------------------------
  // Trying again

  /** Once a failed attempt has been reported, a waiting caller has its answer. */
  ghost predicate ToldOk(s: Lane) {
    Busy(s) && Active(s.worker.stage) && s.worker.reported && Last(s).acksAll ==> s.taken - 1 in s.worker.results
  }

  lemma WorkTells(s: Lane, e: Work)
    requires ToldOk(s) && Busy(s) && CanWork(s.cluster, s.self, s.worker, e, Last(s))
    ensures ToldOk(Worked(s, e))
  {
  }

  lemma StepTells(s: Lane, e: Event)
    requires ToldOk(s) && Enabled(s, e) && s.taken <= |s.submitted|
    ensures ToldOk(Do(s, e))
  {
    hide CanWork, DoWork, ClusterAfter, CanChange, DoChange, Leads;
    if e.Step? { WorkTells(s, e.work); }
  }

  lemma {:induction false} IsTold(s: Lane, n: nat)
    requires Reachable(s, n)
    ensures ToldOk(s)
    decreases n
  {
    hide Inv, Enabled, Do, ToldOk;
    if n == 0 {
      NobodyWaits(s);
    } else {
      var before, e :| Reachable(before, n - 1) && Enabled(before, e) && s == Do(before, e);
      IsTold(before, n - 1);
      RunKeeps(before, n - 1);
      TakenIsSubmitted(before);
      StepTells(before, e);
    }
  }

  lemma NobodyWaits(s: Lane)
    requires Reachable(s, 0)
    ensures ToldOk(s)
  {
  }

  /** No caller has a good answer while its task is in process. */
  lemma NotGood(s: Lane)
    requires Busy(s) && Active(s.worker.stage) && StageOk(s.worker, s.self, Last(s), s.taken - 1)
    ensures s.taken - 1 in s.worker.results ==> !s.worker.results[s.taken - 1]
  {
  }

  /** After a failure of another kind the worker is back at the top of its loop with the same task; nothing is lost. */
  lemma FailedTaskIsTriedAgain(s: Lane, n: nat) returns (t: Lane)
    requires Reachable(s, n) && Busy(s) && s.worker.stage == Failing(Other) && !s.flags.cancelled
    ensures Reachable(t, n + 2) && Busy(t) && t.worker.stage.Top? && t.self == s.self && t.flags == s.flags
    ensures t.taken == s.taken && t.submitted == s.submitted && t.cluster == s.cluster && t.commits == s.commits
    ensures t.worker.committed == s.worker.committed && t.worker.refused == s.worker.refused
    ensures t.worker.calls == s.worker.calls
    ensures t.worker.results == if Last(s).acksAll then s.worker.results[s.taken - 1 := false] else s.worker.results
  {
    hide Reachable, Inv, StageOk;
    IsTold(s, n);
    RunKeeps(s, n);
    StageIsOk(s);
    NotGood(s);
    var a := WorkOne(s, n, Report);
    t := WorkOne(a, n + 1, BackOff);
  }

  /** A task that has met another fence is not tried again: its caller is told, and the worker is done with it. */
  lemma FencedTaskEnds(s: Lane, n: nat, i: nat) returns (t: Lane)
    requires Reachable(s, n) && MetFence(s, i)
    ensures Reachable(t, n + 1) && Over(t, i) && t.taken == s.taken && t.submitted == s.submitted
    ensures t.cluster == s.cluster && t.worker.committed == s.worker.committed
    ensures t.submitted[i].acksAll ==>
              i in t.worker.results && !t.worker.results[i]
  {
    hide Reachable, Inv, StageOk;
    RunKeeps(s, n);
    StageIsOk(s);
    NotGood(s);
    t := WorkOne(s, n, Report);
  }

  /** Every broker of the set but the leader would take the task's records. */
  ghost predicate AllWouldAccept(s: Lane, isr: set<Broker>)
    requires Busy(s)
  {
    forall b | b in isr && b != s.self :: b in s.cluster.replicas && CanAccept(s.cluster.replicas[b], Last(s).range)
  }

  /** The leader and the cluster are at the task's fence, and the watermark has not passed the task. */
  predicate Timely(s: Lane)
    requires Busy(s)
  {
    && Sees(s.cluster, s.self, Last(s).range.fence) && Last(s).range.fence == s.cluster.Current()
    && s.cluster.hwm <= Last(s).range.End()
  }

  lemma AcceptKeepsTimely(s: Lane, b: Broker, isr: set<Broker>)
    requires Busy(s) && s.worker.stage.Replicating? && b in s.worker.stage.isr && b != s.self && Timely(s)
    requires b in s.cluster.replicas && CanAccept(s.cluster.replicas[b], Last(s).range) && AllWouldAccept(s, isr)
    ensures Timely(Worked(s, AcceptBy(b))) && AllWouldAccept(Worked(s, AcceptBy(b)), isr)
  {
    AcceptedHolds(s.cluster.replicas[b], Last(s).range);
  }

  /** One broker after the other takes the task. */
  lemma {:induction false} AllAccept(s: Lane, n: nat, left: set<Broker>) returns (t: Lane, m: nat)
    requires Reachable(s, n) && Busy(s) && s.worker.stage.Replicating? && Timely(s)
    requires left <= s.worker.stage.isr && AllWouldAccept(s, s.worker.stage.isr) && s.self !in left
    requires s.worker.stage.isr <= s.worker.stage.done + {s.self} + left
    ensures Reachable(t, m) && Busy(t) && t.worker.stage.Replicating? && Timely(t) && t.self == s.self
    ensures t.worker.stage.isr == s.worker.stage.isr <= t.worker.stage.done + {s.self}
    ensures t.submitted == s.submitted && t.taken == s.taken && t.flags == s.flags
    ensures t.worker.committed == s.worker.committed
    decreases left
  {
    hide Reachable, CanAccept, Timely, AllWouldAccept;
    if left == {} {
      t, m := s, n;
    } else {
      var b :| b in left;
      assert b in s.cluster.replicas && CanAccept(s.cluster.replicas[b], Last(s).range) by { WouldAccept(s, b); }
      AcceptKeepsTimely(s, b, s.worker.stage.isr);
      var u := WorkOne(s, n, AcceptBy(b));
      t, m := AllAccept(u, n + 1, left - {b});
    }
  }

  lemma WouldAccept(s: Lane, b: Broker)
    requires Busy(s) && s.worker.stage.Replicating? && b in s.worker.stage.isr && b != s.self
    requires AllWouldAccept(s, s.worker.stage.isr)
    ensures b in s.cluster.replicas && CanAccept(s.cluster.replicas[b], Last(s).range)
  {
  }

  /** From the top of its loop a task whose time has not passed can be committed, whatever failed before. */
  lemma TriedTaskCanCommit(s: Lane, n: nat, isr: set<Broker>) returns (t: Lane, m: nat)
    requires Reachable(s, n) && Busy(s) && s.worker.stage.Top? && !s.flags.cancelled && !Last(s).barrier && Timely(s)
    requires s.self in isr && (Last(s).acksAll ==> isr == Last(s).isr) && AllWouldAccept(s, isr)
    ensures Reachable(t, m) && t.submitted == s.submitted && t.taken == s.taken
    ensures s.taken - 1 in t.worker.committed && t.cluster.hwm == Last(s).range.End()
  {
    hide Reachable, CanAccept;
    var a := WorkOne(s, n, Begin);
    var b := WorkOne(a, n + 1, SnapshotOk(isr));
    assert AllWouldAccept(b, isr);
    var c, k := AllAccept(b, n + 2, isr - {s.self});
    t := HeldTaskCommits(c, k, isr);
    m := k + 3;
  }

  /** What its whole set holds is committed. */
  lemma HeldTaskCommits(s: Lane, n: nat, isr: set<Broker>) returns (t: Lane)
    requires Reachable(s, n) && Busy(s) && s.worker.stage.Replicating? && s.worker.stage.isr == isr && s.self in isr
    requires isr <= s.worker.stage.done + {s.self} && Timely(s)
    ensures Reachable(t, n + 3) && t.submitted == s.submitted && t.taken == s.taken
    ensures s.taken - 1 in t.worker.committed && t.cluster.hwm == Last(s).range.End()
  {
    hide Reachable;
    var a := WorkOne(s, n, ReplicateOk);
    var b := WorkOne(a, n + 1, SnapshotOk(isr));
    t := WorkOne(b, n + 2, CommitOk);
  }

  /**
   * No failure but one of the fence costs a task its chance: from any state in which an attempt has failed for
   * another reason there is a continuation that commits it, as long as leader and cluster are at its fence and the
   * brokers it needs would take it.
   */
  lemma FailedTaskCanCommit(s: Lane, n: nat, isr: set<Broker>) returns (t: Lane, m: nat)
    requires Reachable(s, n) && Busy(s) && s.worker.stage == Failing(Other) && !s.flags.cancelled && !Last(s).barrier
    requires Timely(s) && s.self in isr && (Last(s).acksAll ==> isr == Last(s).isr) && AllWouldAccept(s, isr)
    ensures Reachable(t, m) && t.submitted == s.submitted && t.taken == s.taken
    ensures s.taken - 1 in t.worker.committed && t.cluster.hwm == Last(s).range.End()
  {
    hide Reachable, CanAccept;
    var u := FailedTaskIsTriedAgain(s, n);
    t, m := TriedTaskCanCommit(u, n + 2, isr);
  }
}
