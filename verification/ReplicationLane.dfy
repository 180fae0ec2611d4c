/**
 * One partition's replication lane (pkg/controller/replication_queue.go) together with the replicas it writes to, as
 * a state machine: every step is one channel operation, flag change, executor call or append on a replica, and the
 * steps of callers, worker, shutdown and the rest of the cluster interleave.
 */
module ReplicationLane {
  import opened Common
  import opened ReplicaSet

  /** Only acks=all callers wait on a result channel, barriers among them. A barrier carries no records. */
  datatype Task = Task(range: Range, isr: set<Broker>, acksAll: bool, barrier: bool)

  /** The leader's own metadata has moved on, or only a replica or the commit refused the fence, or anything else. */
  datatype Cause = Moved | Refused | Other

  /** Where the worker is with the task it took last. */
  datatype Stage =
    | Idle
    | Top                                                  // top of the retry loop
    | Checking                                             // first snapshot
    | Replicating(isr: set<Broker>, done: set<Broker>)     // `done` have accepted
    | BeforeCommit(isr: set<Broker>)                       // second snapshot
    | Committing(isr: set<Broker>)
    | AfterCommit(isr: set<Broker>)                        // third snapshot
    | Failing(cause: Cause)
    | Waiting                                              // back-off
    | Finishing                                            // the slot is given back next

  /** Executor calls as they returned, and answers that were good. */
  datatype Call =
    | Matched(i: nat)
    | Replicated(i: nat, isr: set<Broker>)
    | Committed(i: nat, isr: set<Broker>)
    | Answered(i: nat)
    | Failed(i: nat)

  /**
   * The worker and what it has done, by position in the submission order. `results` holds the first value sent to
   * each result channel; `refused` are the tasks given up while the leader's own metadata still matched.
   */
  datatype Worker = Worker(
    stage: Stage, reported: bool, results: map<nat, bool>, committed: set<nat>, refused: set<nat>, calls: seq<Call>)

  /** A commit: the task, the set replicated to, and what each of its brokers held below the new watermark. */
  datatype Commit = Commit(i: nat, isr: set<Broker>, copies: map<Broker, Log>)

  /**
   * Slot tokens held, and the counted submissions: callers waiting for a slot, reservations, submits not signed off.
   */
  datatype Counts = Counts(slots: nat, entering: nat, open: nat, sending: nat)

  datatype Flags = Flags(closed: bool, cancelled: bool, exited: bool, returned: bool)

  /** `submitted` is every task ever queued, in order; the first `taken` have left the queue. */
  datatype Lane = Lane(
    self: Broker, capacity: nat, counts: Counts, flags: Flags, submitted: seq<Task>, taken: nat, worker: Worker,
    cluster: Cluster, commits: seq<Commit>)

  // ---------------------------------------------------------------------------------------------
  // The worker on one task

  datatype Work =
    | Begin
    | SnapshotOk(isr: set<Broker>) | SnapshotMoved | SnapshotFailed
    | AcceptBy(broker: Broker) | ReplicateOk | ReplicateMoved | ReplicateRefused(broker: Broker) | ReplicateFailed
    | CommitOk | CommitUnsure | CommitRefused | CommitFailed
    | Report | BackOff

  predicate HasSnapshot(s: Stage) {
    s.Checking? || s.BeforeCommit? || s.AfterCommit?
  }

  /** The fence of the metadata a broker has applied. */
  predicate Sees(c: Cluster, b: Broker, f: Fence) {
    b in c.replicas && c.replicas[b].view == f
  }

  /**
   * Snapshots read the leader's own metadata, replicas check against theirs, and a commit is checked where the
   * metadata is decided. `CommitUnsure` is a commit that went through and was reported as failed.
   */
  predicate CanWork(c: Cluster, self: Broker, w: Worker, e: Work, task: Task) {
    match e
    case Begin => w.stage.Top?
    case SnapshotOk(isr) => HasSnapshot(w.stage) && Sees(c, self, task.range.fence) && self in isr
    case SnapshotMoved => HasSnapshot(w.stage) && !Sees(c, self, task.range.fence)
    case SnapshotFailed => HasSnapshot(w.stage)
    case AcceptBy(b) =>
      w.stage.Replicating? && b in w.stage.isr && b != self && b in c.replicas && CanAccept(c.replicas[b], task.range)
    case ReplicateOk => w.stage.Replicating? && w.stage.isr <= w.stage.done + {self}
    case ReplicateMoved => w.stage.Replicating? && !Sees(c, self, task.range.fence)
    case ReplicateRefused(b) => w.stage.Replicating? && b in w.stage.isr && b != self && !Sees(c, b, task.range.fence)
    case ReplicateFailed => w.stage.Replicating?
    case CommitOk => w.stage.Committing? && task.range.fence == c.Current() && c.hwm <= task.range.End()
    case CommitUnsure => w.stage.Committing? && task.range.fence == c.Current() && c.hwm <= task.range.End()
    case CommitRefused => w.stage.Committing? && task.range.fence != c.Current()
    case CommitFailed => w.stage.Committing?
    case Report => w.stage.Failing?
    case BackOff => w.stage.Waiting?
  }

  /** `completeReplicationTask`: a result channel takes one value, later ones are dropped. */
  function Deliver(w: Worker, task: Task, i: nat, ok: bool): Worker {
    if task.acksAll && i !in w.results then w.(results := w.results[i := ok]) else w
  }

  function Fail(w: Worker, i: nat, cause: Cause): Worker {
    w.(stage := Failing(cause), calls := w.calls + [Failed(i)])
  }

  /** What follows a matching snapshot; acks=all keeps the in-sync set captured when it was submitted. */
  function Matches(w: Worker, task: Task, i: nat, isr: set<Broker>): Worker
    requires HasSnapshot(w.stage)
  {
    var v := w.(calls := w.calls + [Matched(i)]);
    match w.stage
    case Checking =>
      if task.barrier then Deliver(v, task, i, true).(stage := Finishing)
      else v.(stage := Replicating(if task.acksAll then task.isr else isr, {}))
    case BeforeCommit(used) => v.(stage := Committing(used))
    case AfterCommit(_) => Deliver(v, task, i, true).(stage := Finishing, calls := v.calls + [Answered(i)])
  }

  /** After a failed attempt: acks=all callers hear of the first failure, a refused fence ends the task. */
  function Reported(w: Worker, task: Task, i: nat, cancelled: bool): Worker
    requires w.stage.Failing?
  {
    if cancelled then Deliver(w, task, i, false).(stage := Finishing)
    else
      var told := if !w.reported then Deliver(w, task, i, false) else w;
      if w.stage.cause.Other? then told.(reported := true, stage := Waiting)
      else Deliver(told, task, i, false).(reported := true, stage := Finishing,
             refused := if w.stage.cause.Refused? then w.refused + {i} else w.refused)
  }

  function DoWork(w: Worker, e: Work, task: Task, i: nat, cancelled: bool): Worker
    requires exists c, self :: CanWork(c, self, w, e, task)
  {
    match e
    case Begin => if cancelled then Deliver(w, task, i, false).(stage := Finishing) else w.(stage := Checking)
    case SnapshotOk(isr) => Matches(w, task, i, isr)
    case SnapshotMoved => Fail(w, i, Moved)
    case SnapshotFailed => Fail(w, i, Other)
    case AcceptBy(b) => w.(stage := Replicating(w.stage.isr, w.stage.done + {b}))
    case ReplicateOk => w.(stage := BeforeCommit(w.stage.isr), calls := w.calls + [Replicated(i, w.stage.isr)])
    case ReplicateMoved => Fail(w, i, Moved)
    case ReplicateRefused(_) => Fail(w, i, Refused)
    case ReplicateFailed => Fail(w, i, Other)
    case CommitOk =>
      w.(committed := w.committed + {i}, stage := AfterCommit(w.stage.isr),
          calls := w.calls + [Committed(i, w.stage.isr)])
    case CommitUnsure => Fail(w.(committed := w.committed + {i}), i, Other)
    case CommitRefused => Fail(w, i, Refused)
    case CommitFailed => Fail(w, i, Other)
    case Report => Reported(w, task, i, cancelled)
    case BackOff => if cancelled then Deliver(w, task, i, false).(stage := Finishing) else w.(stage := Top)
  }

  predicate Commits(e: Work) {
    e.CommitOk? || e.CommitUnsure?
  }

  function ClusterAfter(c: Cluster, e: Work, task: Task): Cluster {
    if Commits(e) then c.(hwm := task.range.End())
    else if e.AcceptBy? && e.broker in c.replicas then Grow(c, e.broker, Missing(c.replicas[e.broker], task.range))
    else c
  }

  function CopyOf(c: Cluster, b: Broker, n: nat): Log {
    if b in c.replicas && n <= |c.replicas[b].log| then c.replicas[b].log[..n] else []
  }

  function CommitRecord(c: Cluster, isr: set<Broker>, task: Task, i: nat): Commit {
    Commit(i, isr, map b | b in isr :: CopyOf(c, b, task.range.End()))
  }

  // ---------------------------------------------------------------------------------------------
  // The lane

  datatype Event =
    | Enter | Acquire | GiveUp | SignOff | Release                                     // callers
    | Submit(records: Log, isr: set<Broker>, acksAll: bool, barrier: bool)
    | Close | Cancel | Return                                                          // shutdown
    | Take | Exit | Finish | Step(work: Work)                                          // worker
    | Around(change: Change)                                                           // the rest of the cluster

  predicate Busy(s: Lane) {
    !s.worker.stage.Idle? && 0 < s.taken <= |s.submitted|
  }

  function Last(s: Lane): Task
    requires Busy(s)
  {
    s.submitted[s.taken - 1]
  }

  /** The leader may append: it leads under the fence it sees and has cut its log for it. */
  predicate Leads(c: Cluster, self: Broker) {
    && self in c.replicas && c.replicas[self].view < |c.leaders| && c.leaders[c.replicas[self].view] == self
    && c.replicas[self].prepared == Some(c.replicas[self].view)
  }

  predicate CanSubmit(s: Lane, e: Event)
    requires e.Submit?
  {
    && s.counts.open > 0 && |s.submitted| - s.taken < s.capacity && Leads(s.cluster, s.self) && s.self in e.isr
    && (if e.barrier then e.records == [] && e.acksAll else e.records != [])
  }

  /** A caller's snapshot, append and submission: the partition's write lock is held from the first to the last. */
  function TaskOf(s: Lane, e: Event): Task
    requires e.Submit? && s.self in s.cluster.replicas
  {
    var r := s.cluster.replicas[s.self];
    Task(Range(r.view, |r.log|, e.records), e.isr, e.acksAll, e.barrier)
  }

  predicate Enabled(s: Lane, e: Event) {
    match e
    case Enter => !s.flags.closed
    case Acquire => s.counts.entering > 0 && s.counts.slots < s.capacity
    case GiveUp => s.counts.entering > 0
    case Submit(_, _, _, _) => CanSubmit(s, e)
    case SignOff => s.counts.sending > 0
    case Release => s.counts.open > 0 && s.counts.slots > 0
    case Close => !s.flags.closed
    case Cancel =>
      s.flags.closed && !s.flags.cancelled && s.counts.entering == 0 && s.counts.open == 0 && s.counts.sending == 0
    case Return => s.flags.cancelled && s.flags.exited
    case Take => s.worker.stage.Idle? && !s.flags.exited && s.taken < |s.submitted|
    case Exit => s.worker.stage.Idle? && s.flags.cancelled && s.taken == |s.submitted|
    case Finish => Busy(s) && s.worker.stage.Finishing? && s.counts.slots > 0
    case Step(work) => Busy(s) && CanWork(s.cluster, s.self, s.worker, work, Last(s))
    case Around(change) => CanChange(s.cluster, s.self, change)
  }

  function Taken(w: Worker, task: Task, i: nat, cancelled: bool): Worker {
    var t := w.(stage := Top, reported := false);
    if cancelled then Deliver(t, task, i, false).(stage := Finishing) else t
  }

  function Worked(s: Lane, e: Work): Lane
    requires Busy(s) && CanWork(s.cluster, s.self, s.worker, e, Last(s))
  {
    s.(worker := DoWork(s.worker, e, Last(s), s.taken - 1, s.flags.cancelled),
       cluster := ClusterAfter(s.cluster, e, Last(s)),
       commits := if Commits(e) then s.commits + [CommitRecord(s.cluster, s.worker.stage.isr, Last(s), s.taken - 1)]
                  else s.commits)
  }

  function Do(s: Lane, e: Event): Lane
    requires Enabled(s, e)
  {
    var c := s.counts;
    match e
    case Enter => s.(counts := c.(entering := c.entering + 1))
    case Acquire => s.(counts := c.(entering := c.entering - 1, open := c.open + 1, slots := c.slots + 1))
    case GiveUp => s.(counts := c.(entering := c.entering - 1))
    case Submit(_, _, _, _) =>
      s.(counts := c.(open := c.open - 1, sending := c.sending + 1), submitted := s.submitted + [TaskOf(s, e)],
         cluster := Grow(s.cluster, s.self, e.records))
    case SignOff => s.(counts := c.(sending := c.sending - 1))
    case Release => s.(counts := c.(open := c.open - 1, slots := c.slots - 1))
    case Close => s.(flags := s.flags.(closed := true))
    case Cancel => s.(flags := s.flags.(cancelled := true))
    case Return => s.(flags := s.flags.(returned := true))
    case Take => s.(taken := s.taken + 1, worker := Taken(s.worker, s.submitted[s.taken], s.taken, s.flags.cancelled))
    case Exit => s.(flags := s.flags.(exited := true))
    case Finish => s.(worker := s.worker.(stage := Idle), counts := c.(slots := c.slots - 1))
    case Step(work) => Worked(s, work)
    case Around(change) => s.(cluster := DoChange(s.cluster, s.self, change))
  }

  // ---------------------------------------------------------------------------------------------
  // Slots and shutdown

  ghost predicate SlotsOk(s: Lane) {
    && s.taken <= |s.submitted| && (s.worker.stage.Idle? || 0 < s.taken)
    && s.counts.slots == s.counts.open + (|s.submitted| - s.taken) + (if s.worker.stage.Idle? then 0 else 1)
    && s.counts.slots <= s.capacity
  }

  ghost predicate ShutdownOk(s: Lane) {
    && (s.flags.cancelled ==> s.flags.closed && s.counts.entering == 0 && s.counts.open == 0 && s.counts.sending == 0)
    && (s.flags.exited ==> s.flags.cancelled && s.worker.stage.Idle? && s.taken == |s.submitted|)
    && (s.flags.returned ==> s.flags.exited)
  }

  lemma WorkGoesOn(c: Cluster, self: Broker, w: Worker, e: Work, task: Task, i: nat, cancelled: bool)
    requires CanWork(c, self, w, e, task)
    ensures !w.stage.Idle? && !DoWork(w, e, task, i, cancelled).stage.Idle?
  {
  }

  lemma SlotsKept(s: Lane, e: Event)
    requires SlotsOk(s) && ShutdownOk(s) && Enabled(s, e)
    ensures SlotsOk(Do(s, e)) && ShutdownOk(Do(s, e))
  {
    hide DoWork, CanWork, CanChange, DoChange, ClusterAfter, Grow, Leads;
    if e.Step? {
      WorkGoesOn(s.cluster, s.self, s.worker, e.work, Last(s), s.taken - 1, s.flags.cancelled);
    }
  }

  /** Every waiting caller of a finished task has been given a result. */
  ghost predicate ResultsOk(s: Lane) {
    forall i | 0 <= i < |s.submitted| && s.submitted[i].acksAll && Over(s, i) :: i in s.worker.results
  }

  /** The worker is done with the task at position `i`. */
  predicate Over(s: Lane, i: nat) {
    i + 1 < s.taken || (i + 1 == s.taken && (s.worker.stage.Idle? || s.worker.stage.Finishing?))
  }

  lemma WorkDelivers(c: Cluster, self: Broker, w: Worker, e: Work, task: Task, i: nat, cancelled: bool)
    requires CanWork(c, self, w, e, task)
    ensures w.results.Keys <= DoWork(w, e, task, i, cancelled).results.Keys
    ensures DoWork(w, e, task, i, cancelled).stage.Finishing? && task.acksAll ==>
              i in DoWork(w, e, task, i, cancelled).results
  {
  }

  lemma ResultsKept(s: Lane, e: Event)
    requires SlotsOk(s) && ResultsOk(s) && Enabled(s, e)
    ensures ResultsOk(Do(s, e))
  {
    hide DoWork, CanWork, CanChange, DoChange, ClusterAfter, Grow, Leads;
    if e.Step? {
      WorkGoesOn(s.cluster, s.self, s.worker, e.work, Last(s), s.taken - 1, s.flags.cancelled);
      WorkDelivers(s.cluster, s.self, s.worker, e.work, Last(s), s.taken - 1, s.flags.cancelled);
    }
  }

  // ---------------------------------------------------------------------------------------------
  // The tasks and the leader's log

  /** A task was appended and submitted by the leader of its fence, who holds it while the fence lasts there. */
  ghost predicate TaskOk(c: Cluster, self: Broker, t: Task) {
    && t.range.fence < |c.leaders| && c.leaders[t.range.fence] == self && self in t.isr && (t.barrier ==> t.acksAll)
    && (!t.barrier ==> t.range.records != []) && Tentative(c, self, t.range)
  }

  /** Later tasks are of later fences, or of the same fence and at later offsets. */
  predicate InOrder(t: Task, u: Task) {
    t.range.fence <= u.range.fence && (t.range.fence == u.range.fence ==> t.range.End() <= u.range.start)
  }

  /** The leader's own process has not restarted: that would end the lane. */
  predicate Unharmed(r: Replica) {
    r.joined == r.prepared && !r.torn
  }

  ghost predicate TasksOk(s: Lane) {
    && ClusterOk(s.cluster) && s.self in s.cluster.replicas && Unharmed(s.cluster.replicas[s.self])
    && (forall k | 0 <= k < |s.submitted| :: TaskOk(s.cluster, s.self, s.submitted[k]))
    && (forall j, k | 0 <= k < j < |s.submitted| :: InOrder(s.submitted[k], s.submitted[j]))
  }

  lemma SubmittedIsOk(s: Lane, e: Event)
    requires TasksOk(s) && e.Submit? && CanSubmit(s, e)
    ensures TaskOk(Do(s, e).cluster, s.self, TaskOf(s, e)) && ClusterOk(Do(s, e).cluster)
    ensures forall k | 0 <= k < |s.submitted| :: InOrder(s.submitted[k], TaskOf(s, e))
  {
    GrowKeepsOk(s.cluster, s.self, e.records);
    forall k | 0 <= k < |s.submitted| ensures InOrder(s.submitted[k], TaskOf(s, e)) {
      assert TaskOk(s.cluster, s.self, s.submitted[k]);
    }
  }

  lemma TaskOkGrows(c: Cluster, self: Broker, t: Task, b: Broker, records: Log)
    requires TaskOk(c, self, t) && b in c.replicas
    ensures TaskOk(Grow(c, b, records), self, t)
  {
    GrowKeepsTentative(c, b, records, self, t.range);
  }

  lemma TaskOkCommits(c: Cluster, self: Broker, t: Task, h: nat)
    requires TaskOk(c, self, t)
    ensures TaskOk(c.(hwm := h), self, t)
  {
  }

  lemma TaskOkChanges(c: Cluster, self: Broker, t: Task, e: Change)
    requires ClusterOk(c) && TaskOk(c, self, t) && CanChange(c, self, e)
    ensures TaskOk(DoChange(c, self, e), self, t)
  {
    hide CanChange, DoChange, ClusterOk, Tentative;
    ChangeKeepsOk(c, self, e);
    ChangeKeepsTentative(c, self, e, self, t.range);
  }

  lemma RaiseKeepsOk(c: Cluster, h: nat)
    requires ClusterOk(c) && c.hwm <= h
    ensures ClusterOk(c.(hwm := h))
  {
    forall b | b in c.replicas ensures ReplicaOk(c.(hwm := h), c.replicas[b]) { assert ReplicaOk(c, c.replicas[b]); }
  }

  lemma WorkKeepsTask(c: Cluster, self: Broker, w: Worker, e: Work, task: Task, t: Task)
    requires ClusterOk(c) && CanWork(c, self, w, e, task) && TaskOk(c, self, t)
    ensures TaskOk(ClusterAfter(c, e, task), self, t)
  {
    hide ClusterOk, TaskOk, Grow;
    if Commits(e) {
      TaskOkCommits(c, self, t, task.range.End());
    } else if e.AcceptBy? {
      TaskOkGrows(c, self, t, e.broker, Missing(c.replicas[e.broker], task.range));
    }
  }

  lemma WorkKeepsCluster(c: Cluster, self: Broker, w: Worker, e: Work, task: Task)
    requires ClusterOk(c) && CanWork(c, self, w, e, task)
    ensures ClusterOk(ClusterAfter(c, e, task)) && ClusterAfter(c, e, task).replicas.Keys == c.replicas.Keys
    ensures self in c.replicas ==> ClusterAfter(c, e, task).replicas[self] == c.replicas[self]
  {
    if Commits(e) {
      RaiseKeepsOk(c, task.range.End());
    } else if e.AcceptBy? {
      GrowKeepsOk(c, e.broker, Missing(c.replicas[e.broker], task.range));
    }
  }

  /** A task stays well placed whatever happens. */
  lemma TaskKept(s: Lane, e: Event, t: Task)
    requires TasksOk(s) && Enabled(s, e) && TaskOk(s.cluster, s.self, t)
    ensures TaskOk(Do(s, e).cluster, s.self, t)
  {
    hide CanWork, CanChange, DoChange, ClusterAfter, Grow, TaskOk, ClusterOk;
    if e.Step? {
      WorkKeepsTask(s.cluster, s.self, s.worker, e.work, Last(s), t);
    } else if e.Around? {
      TaskOkChanges(s.cluster, s.self, t, e.change);
    } else if e.Submit? {
      TaskOkGrows(s.cluster, s.self, t, s.self, e.records);
    }
  }

  lemma ChangeKeepsUnharmed(c: Cluster, self: Broker, e: Change)
    requires CanChange(c, self, e) && Unharmed(c.replicas[self])
    ensures self in DoChange(c, self, e).replicas && Unharmed(DoChange(c, self, e).replicas[self])
  {
  }

  lemma ClusterKept(s: Lane, e: Event)
    requires TasksOk(s) && Enabled(s, e)
    ensures ClusterOk(Do(s, e).cluster) && s.self in Do(s, e).cluster.replicas
    ensures Unharmed(Do(s, e).cluster.replicas[s.self])
  {
    hide CanWork, CanChange, DoChange, ClusterAfter, ClusterOk, TaskOk;
    if e.Step? {
      WorkKeepsCluster(s.cluster, s.self, s.worker, e.work, Last(s));
    } else if e.Around? {
      ChangeKeepsOk(s.cluster, s.self, e.change);
      ChangeKeepsUnharmed(s.cluster, s.self, e.change);
    } else if e.Submit? {
      GrowKeepsOk(s.cluster, s.self, e.records);
    }
  }

  lemma TasksKept(s: Lane, e: Event)
    requires TasksOk(s) && Enabled(s, e)
    ensures TasksOk(Do(s, e))
  {
    var t := Do(s, e);
    ClusterKept(s, e);
    if e.Submit? { SubmittedIsOk(s, e); }
    hide CanWork, CanChange, DoChange, ClusterAfter, Grow, TaskOk, ClusterOk;
    assert t.submitted == s.submitted || (e.Submit? && t.submitted == s.submitted + [TaskOf(s, e)]);
    assert t.self == s.self;
    forall k | 0 <= k < |t.submitted| ensures TaskOk(t.cluster, t.self, t.submitted[k]) {
      if k < |s.submitted| { TaskKept(s, e, s.submitted[k]); }
    }
  }

  // ---------------------------------------------------------------------------------------------
  // The task in process

  predicate Active(w: Stage) {
    !w.Idle? && !w.Finishing?
  }

  /** The set the stage replicates to, and those of it that have the task already. */
  function Towards(w: Stage): set<Broker> {
    match w
    case Replicating(isr, _) => isr
    case BeforeCommit(isr) => isr
    case Committing(isr) => isr
    case AfterCommit(isr) => isr
    case _ => {}
  }

  function Reached(w: Stage): set<Broker> {
    if w.Replicating? then w.done else Towards(w)
  }

  /** The executor calls that led to a stage. */
  function Steps(w: Stage, i: nat): seq<Call> {
    match w
    case Replicating(_, _) => [Matched(i)]
    case BeforeCommit(isr) => [Matched(i), Replicated(i, isr)]
    case Committing(isr) => [Matched(i), Replicated(i, isr), Matched(i)]
    case AfterCommit(isr) => [Matched(i), Replicated(i, isr), Matched(i), Committed(i, isr)]
    case _ => []
  }

  ghost predicate EndsWith(calls: seq<Call>, tail: seq<Call>) {
    |tail| <= |calls| && calls[|calls| - |tail|..] == tail
  }

  lemma EndsWithMore(calls: seq<Call>, tail: seq<Call>, more: seq<Call>)
    requires EndsWith(calls, tail)
    ensures EndsWith(calls + more, tail + more)
  {
  }

  predicate Midway(w: Stage) {
    w.Replicating? || w.BeforeCommit? || w.Committing? || w.AfterCommit?
  }

  /** The stage says how far the current task has got. */
  ghost predicate StageOk(w: Worker, self: Broker, task: Task, i: nat) {
    && (Midway(w.stage) ==>
          !task.barrier && self in Towards(w.stage) && (task.acksAll ==> Towards(w.stage) == task.isr))
    && (w.stage.AfterCommit? ==> i in w.committed)
    && (w.stage == Failing(Refused) ==> !task.barrier)
    && (Active(w.stage) && i in w.results ==> !w.results[i])
  }

  ghost predicate CallsOk(w: Worker, i: nat) {
    EndsWith(w.calls, Steps(w.stage, i))
  }

  /** Whoever has accepted the task in process holds it while the fence lasts there. */
  ghost predicate ReachedOk(c: Cluster, w: Worker, task: Task) {
    forall b | b in Reached(w.stage) :: Tentative(c, b, task.range)
  }

  /** Committed, or given up on a refusal: nothing else can be behind a later success of the same fence. */
  predicate Settled(w: Worker, i: nat) {
    i in w.committed || i in w.refused
  }

  predicate Carries(s: Lane, i: nat) {
    i < |s.submitted| && !s.submitted[i].barrier
  }

  ghost predicate HistoryOk(s: Lane) {
    && (forall j | j in s.worker.committed :: j < s.taken && Carries(s, j))
    && (forall k | k in s.worker.refused :: Over(s, k) && Carries(s, k))
    && (forall i | i in s.worker.results :: i < s.taken)
    && (Busy(s) ==> StageOk(s.worker, s.self, Last(s), s.taken - 1) && CallsOk(s.worker, s.taken - 1))
  }

  /** The leader's own metadata has left the fence behind. */
  predicate Past(s: Lane, f: Fence) {
    s.self in s.cluster.replicas && f < s.cluster.replicas[s.self].view
  }

  /** A task the worker is done with was settled, or its fence is past, or the queue was closed. */
  ghost predicate DropsOk(s: Lane) {
    forall k: nat | Over(s, k) && Carries(s, k) ::
      Settled(s.worker, k) || Past(s, s.submitted[k].range.fence) || (s.flags.cancelled && !Active(s.worker.stage))
  }

  /** Everything before a commit or a good barrier under the same fence is settled. */
  ghost predicate BehindOk(s: Lane, i: nat) {
    forall k: nat | k < i && Carries(s, k) && i < |s.submitted|
                    && s.submitted[k].range.fence == s.submitted[i].range.fence ::
      Settled(s.worker, k)
  }

  predicate GoodBarrier(s: Lane, i: nat) {
    i in s.worker.results && s.worker.results[i] && i < |s.submitted| && s.submitted[i].barrier
  }

  ghost predicate OrderOk(s: Lane) {
    forall i: nat | i in s.worker.committed || GoodBarrier(s, i) :: BehindOk(s, i)
  }

  /** A good answer was preceded, without interruption, by the whole sequence of calls it stands for. */
  ghost predicate Answers(calls: seq<Call>, i: nat, isr: set<Broker>) {
    exists p: nat ::
      FoundAt(calls, p, [Matched(i), Replicated(i, isr), Matched(i), Committed(i, isr), Matched(i), Answered(i)])
  }

  predicate FoundAt(calls: seq<Call>, p: nat, part: seq<Call>) {
    p + |part| <= |calls| && calls[p..p + |part|] == part
  }

  ghost predicate AnswerOk(s: Lane, i: nat)
    requires i < |s.submitted|
  {
    i in s.worker.committed && Answers(s.worker.calls, i, s.submitted[i].isr)
  }

  ghost predicate AcksOk(s: Lane) {
    forall i | i in s.worker.results && s.worker.results[i] && Carries(s, i) :: s.submitted[i].acksAll && AnswerOk(s, i)
  }

  // ---------------------------------------------------------------------------------------------
  // What one step of the worker does to its record

  lemma WorkStage(c: Cluster, self: Broker, w: Worker, e: Work, task: Task, i: nat, cancelled: bool, v: Worker)
    requires CanWork(c, self, w, e, task) && StageOk(w, self, task, i) && v == DoWork(w, e, task, i, cancelled)
    requires self in task.isr && (task.barrier ==> task.acksAll)
    ensures StageOk(v, self, task, i) && Active(w.stage) && !v.stage.Idle?
  {
  }

  /** The calls a step of the worker adds. */
  function NewCalls(w: Worker, e: Work, i: nat): seq<Call> {
    match e
    case SnapshotOk(_) => if w.stage.AfterCommit? then [Matched(i), Answered(i)] else [Matched(i)]
    case ReplicateOk => [Replicated(i, Towards(w.stage))]
    case CommitOk => [Committed(i, Towards(w.stage))]
    case Begin => [] case AcceptBy(_) => [] case Report => [] case BackOff => []
    case _ => [Failed(i)]
  }

  lemma WorkCallsAre(c: Cluster, self: Broker, w: Worker, e: Work, task: Task, i: nat, cancelled: bool, v: Worker)
    requires CanWork(c, self, w, e, task) && v == DoWork(w, e, task, i, cancelled)
    ensures v.calls == w.calls + NewCalls(w, e, i)
    ensures Steps(v.stage, i) != [] ==> Steps(v.stage, i) == Steps(w.stage, i) + NewCalls(w, e, i)
  {
  }

  lemma WorkCalls(c: Cluster, self: Broker, w: Worker, e: Work, task: Task, i: nat, cancelled: bool, v: Worker)
    requires CanWork(c, self, w, e, task) && CallsOk(w, i) && v == DoWork(w, e, task, i, cancelled)
    ensures CallsOk(v, i) && w.calls <= v.calls
  {
    hide CanWork, DoWork, Steps, NewCalls, EndsWith;
    WorkCallsAre(c, self, w, e, task, i, cancelled, v);
    EndsWithMore(w.calls, Steps(w.stage, i), NewCalls(w, e, i));
    if Steps(v.stage, i) == [] { EndsWithNothing(v.calls); }
  }

  lemma EndsWithNothing(calls: seq<Call>)
    ensures EndsWith(calls, [])
  {
  }

  lemma WorkRecords(c: Cluster, self: Broker, w: Worker, e: Work, task: Task, i: nat, cancelled: bool, v: Worker)
    requires CanWork(c, self, w, e, task) && StageOk(w, self, task, i) && v == DoWork(w, e, task, i, cancelled)
    ensures w.committed <= v.committed <= w.committed + {i} && w.refused <= v.refused <= w.refused + {i}
    ensures v.committed != w.committed ==> Commits(e)
    ensures Commits(e) ==> i in v.committed && !task.barrier && Active(v.stage) && w.stage.Committing?
    ensures v.refused != w.refused ==> !task.barrier && v.stage.Finishing?
  {
  }

  lemma WorkAnswers(c: Cluster, self: Broker, w: Worker, e: Work, task: Task, i: nat, cancelled: bool, v: Worker)
    requires CanWork(c, self, w, e, task) && StageOk(w, self, task, i) && v == DoWork(w, e, task, i, cancelled)
    ensures v.results.Keys <= w.results.Keys + {i}
    ensures forall k | k in w.results :: k in v.results && v.results[k] == w.results[k]
    ensures i in v.results && v.results[i] && i !in w.results ==>
              Sees(c, self, task.range.fence) && task.acksAll && v.committed == w.committed && v.refused == w.refused
    ensures i in v.results && v.results[i] && i !in w.results && !task.barrier ==>
              w.stage.AfterCommit? && v.calls == w.calls + [Matched(i), Answered(i)]
  {
  }

  lemma TakeRecords(w: Worker, self: Broker, task: Task, i: nat, cancelled: bool, v: Worker)
    requires v == Taken(w, task, i, cancelled) && i !in w.results
    ensures StageOk(v, self, task, i) && CallsOk(v, i)
    ensures v.committed == w.committed && v.refused == w.refused && v.calls == w.calls
    ensures v.results.Keys <= w.results.Keys + {i}
    ensures (forall k | k in w.results :: k in v.results && v.results[k] == w.results[k])
    ensures i in v.results ==> !v.results[i]
    ensures v.stage == if cancelled then Finishing else Top
  {
  }

  lemma IdleIsOk(w: Worker, self: Broker, task: Task, i: nat)
    ensures StageOk(w.(stage := Idle), self, task, i) && CallsOk(w.(stage := Idle), i)
  {
  }

  // ---------------------------------------------------------------------------------------------
  // What every event keeps

  /** The task in process against the cluster. */
  ghost predicate NowOk(s: Lane) {
    Busy(s) ==>
      && ReachedOk(s.cluster, s.worker, Last(s))
      && (s.worker.stage == Failing(Moved) ==> Past(s, Last(s).range.fence))
  }

  /** All that is known of a step of the worker. */
  lemma WorkFacts(s: Lane, e: Work)
    requires SlotsOk(s) && TasksOk(s) && HistoryOk(s) && Busy(s) && CanWork(s.cluster, s.self, s.worker, e, Last(s))
    ensures var w, v, i := s.worker, Worked(s, e).worker, s.taken - 1;
            && StageOk(v, s.self, Last(s), i) && CallsOk(v, i) && Active(w.stage) && !v.stage.Idle?
            && w.committed <= v.committed <= w.committed + {i} && w.refused <= v.refused <= w.refused + {i}
            && w.calls <= v.calls
            && (v.refused != w.refused ==> Carries(s, i) && v.stage.Finishing?)
            && (v.committed != w.committed ==> Commits(e))
            && (Commits(e) ==> i in v.committed && Carries(s, i) && Active(v.stage) && w.stage.Committing?)
            && v.results.Keys <= w.results.Keys + {i}
            && (forall k | k in w.results :: k in v.results && v.results[k] == w.results[k])
            && (i in v.results && v.results[i] && i !in w.results ==>
                  Sees(s.cluster, s.self, Last(s).range.fence) && v.committed == w.committed && v.refused == w.refused)
            && (i in v.results && v.results[i] && i !in w.results && Carries(s, i) ==>
                  Last(s).acksAll && w.stage.AfterCommit? && v.calls == w.calls + [Matched(i), Answered(i)])
  {
    hide CanWork, DoWork, StageOk, CallsOk, ClusterOk, Tentative;
    var i := s.taken - 1;
    assert TaskOk(s.cluster, s.self, s.submitted[i]);
    WorkStage(s.cluster, s.self, s.worker, e, Last(s), i, s.flags.cancelled, Worked(s, e).worker);
    WorkCalls(s.cluster, s.self, s.worker, e, Last(s), i, s.flags.cancelled, Worked(s, e).worker);
    WorkRecords(s.cluster, s.self, s.worker, e, Last(s), i, s.flags.cancelled, Worked(s, e).worker);
    WorkAnswers(s.cluster, s.self, s.worker, e, Last(s), i, s.flags.cancelled, Worked(s, e).worker);
  }

  lemma HistoryKept(s: Lane, e: Event)
    requires SlotsOk(s) && TasksOk(s) && HistoryOk(s) && Enabled(s, e)
    ensures HistoryOk(Do(s, e))
  {
    hide DoWork, CanWork, Taken, StageOk, CallsOk, TasksOk, CanChange, DoChange, ClusterAfter, Grow, Leads;
    if e.Step? {
      WorkFacts(s, e.work);
    } else if e.Take? {
      TakeRecords(s.worker, s.self, s.submitted[s.taken], s.taken, s.flags.cancelled, Do(s, e).worker);
    } else if e.Finish? {
      IdleIsOk(s.worker, s.self, Last(s), s.taken - 1);
    }
  }

  /** What the leader sees never goes back. */
  lemma ViewKept(s: Lane, e: Event, f: Fence)
    requires TasksOk(s) && Enabled(s, e)
    ensures Past(s, f) ==> Past(Do(s, e), f)
  {
    hide CanWork, DoWork, TaskOk, Taken;
  }

  lemma WorkReaches(c: Cluster, self: Broker, w: Worker, e: Work, task: Task, i: nat, cancelled: bool, v: Worker)
    requires ClusterOk(c) && CanWork(c, self, w, e, task) && v == DoWork(w, e, task, i, cancelled)
    requires ReachedOk(c, w, task) && TaskOk(c, self, task)
    ensures ReachedOk(ClusterAfter(c, e, task), v, task)
  {
    hide Tentative, ClusterOk, Joined;
    if e.AcceptBy? {
      var r := c.replicas[e.broker];
      AcceptedHolds(r, task.range);
      assert Tentative(ClusterAfter(c, e, task), e.broker, task.range) by {
        AcceptedIsTentative(c, e.broker, task.range);
      }
      forall b | b in w.stage.done ensures Tentative(ClusterAfter(c, e, task), b, task.range) {
        GrowKeepsTentative(c, e.broker, Missing(r, task.range), b, task.range);
      }
    } else if Commits(e) {
      forall b | b in Reached(w.stage) ensures Tentative(c.(hwm := task.range.End()), b, task.range) {
        RaiseKeepsTentative(c, task.range.End(), b, task.range);
      }
    }
  }

  lemma AcceptedIsTentative(c: Cluster, b: Broker, x: Range)
    requires ClusterOk(c) && b in c.replicas && CanAccept(c.replicas[b], x)
    ensures Tentative(Grow(c, b, Missing(c.replicas[b], x)), b, x)
  {
    assert ReplicaOk(c, c.replicas[b]);
    AcceptedHolds(c.replicas[b], x);
  }

  lemma RaiseKeepsTentative(c: Cluster, h: nat, b: Broker, x: Range)
    requires Tentative(c, b, x)
    ensures Tentative(c.(hwm := h), b, x)
  {
  }

  lemma WorkMoves(s: Lane, e: Work)
    requires SlotsOk(s) && TasksOk(s) && NowOk(s) && Busy(s) && CanWork(s.cluster, s.self, s.worker, e, Last(s))
    ensures Worked(s, e).worker.stage == Failing(Moved) ==> Past(Worked(s, e), Last(s).range.fence)
  {
    hide ClusterOk;
    assert TaskOk(s.cluster, s.self, Last(s));
  }

  lemma ReachedChanges(s: Lane, e: Change)
    requires TasksOk(s) && Busy(s) && ReachedOk(s.cluster, s.worker, Last(s)) && CanChange(s.cluster, s.self, e)
    ensures ReachedOk(DoChange(s.cluster, s.self, e), s.worker, Last(s))
  {
    hide CanChange, DoChange, ClusterOk, Tentative;
    forall b | b in Reached(s.worker.stage) ensures Tentative(DoChange(s.cluster, s.self, e), b, Last(s).range) {
      ChangeKeepsTentative(s.cluster, s.self, e, b, Last(s).range);
    }
  }

  lemma ReachedGrows(c: Cluster, w: Worker, task: Task, a: Broker, records: Log)
    requires ReachedOk(c, w, task) && a in c.replicas
    ensures ReachedOk(Grow(c, a, records), w, task)
  {
    hide Grow, Tentative;
    forall b | b in Reached(w.stage) ensures Tentative(Grow(c, a, records), b, task.range) {
      GrowKeepsTentative(c, a, records, b, task.range);
    }
  }

  lemma NowKept(s: Lane, e: Event)
    requires SlotsOk(s) && TasksOk(s) && NowOk(s) && Enabled(s, e)
    ensures NowOk(Do(s, e))
  {
    hide DoWork, CanWork, CanChange, DoChange, ClusterAfter, Grow, ClusterOk, ReachedOk, Past, TaskOk;
    if Busy(s) { ViewKept(s, e, Last(s).range.fence); }
    if e.Step? {
      assert TaskOk(s.cluster, s.self, s.submitted[s.taken - 1]);
      WorkReaches(s.cluster, s.self, s.worker, e.work, Last(s), s.taken - 1, s.flags.cancelled, Do(s, e).worker);
      WorkMoves(s, e.work);
    } else if e.Around? && Busy(s) {
      ReachedChanges(s, e.change);
    } else if e.Submit? && Busy(s) {
      ReachedGrows(s.cluster, s.worker, Last(s), s.self, e.records);
    } else if e.Take? || e.Finish? {
      FreshIsOk(Do(s, e));
    }
  }

  lemma FreshIsOk(s: Lane)
    requires s.worker.stage.Top? || s.worker.stage.Finishing? || s.worker.stage.Idle?
    ensures NowOk(s)
  {
  }

  lemma WorkSettles(s: Lane, e: Work)
    requires SlotsOk(s) && TasksOk(s) && HistoryOk(s) && NowOk(s) && Busy(s)
    requires CanWork(s.cluster, s.self, s.worker, e, Last(s))
    ensures Worked(s, e).worker.stage.Finishing? && Carries(s, s.taken - 1) ==>
              Settled(Worked(s, e).worker, s.taken - 1) || Past(s, Last(s).range.fence) || s.flags.cancelled
  {
    hide ClusterOk, TasksOk, ReachedOk, CallsOk, Tentative;
  }

  lemma DropsKept(s: Lane, e: Event)
    requires SlotsOk(s) && TasksOk(s) && HistoryOk(s) && NowOk(s) && DropsOk(s) && Enabled(s, e)
    ensures DropsOk(Do(s, e))
  {
    hide DoWork, CanWork, Taken, StageOk, CallsOk, TasksOk, CanChange, DoChange, ClusterAfter, Grow, Leads, Past, NowOk;
    var t := Do(s, e);
    if e.Step? {
      WorkFacts(s, e.work);
      WorkSettles(s, e.work);
    } else if e.Take? {
      TakeRecords(s.worker, s.self, s.submitted[s.taken], s.taken, s.flags.cancelled, t.worker);
    }
    forall f ensures Past(s, f) ==> Past(t, f) { ViewKept(s, e, f); }
  }

  /** Under the fence it sees, or the current one, the leader has settled all it is done with. */
  lemma DoneIsSettled(s: Lane, k: nat)
    requires SlotsOk(s) && TasksOk(s) && DropsOk(s) && Busy(s) && Active(s.worker.stage) && k + 1 < s.taken
    requires Carries(s, k)
    requires s.submitted[k].range.fence == Last(s).range.fence
    requires Sees(s.cluster, s.self, Last(s).range.fence) || Last(s).range.fence == s.cluster.Current()
    ensures Settled(s.worker, k)
  {
    assert ReplicaOk(s.cluster, s.cluster.replicas[s.self]);
  }

  lemma OrderKept(s: Lane, e: Event)
    requires SlotsOk(s) && TasksOk(s) && HistoryOk(s) && NowOk(s) && DropsOk(s) && OrderOk(s) && Enabled(s, e)
    ensures OrderOk(Do(s, e))
  {
    hide DoWork, Taken, StageOk, CallsOk, TasksOk, CanChange, DoChange, ClusterAfter, Grow, Leads, Past, NowOk,
         DropsOk, CanAccept;
    var t := Do(s, e);
    if e.Step? {
      WorkFacts(s, e.work);
    } else if e.Take? {
      TakeRecords(s.worker, s.self, s.submitted[s.taken], s.taken, s.flags.cancelled, t.worker);
    }
    forall i: nat | i in t.worker.committed || GoodBarrier(t, i) ensures BehindOk(t, i) {
      if i in s.worker.committed || GoodBarrier(s, i) {
        assert BehindOk(s, i);
      } else {
        forall k: nat | k < i && Carries(t, k) && i < |t.submitted|
                        && t.submitted[k].range.fence == t.submitted[i].range.fence
          ensures Settled(t.worker, k)
        {
          DoneIsSettled(s, k);
        }
      }
    }
  }

  lemma AnswersStay(calls: seq<Call>, more: seq<Call>, i: nat, isr: set<Broker>)
    requires Answers(calls, i, isr) && calls <= more
    ensures Answers(more, i, isr)
  {
    var part := [Matched(i), Replicated(i, isr), Matched(i), Committed(i, isr), Matched(i), Answered(i)];
    var p: nat :| FoundAt(calls, p, part);
    assert more[p..p + 6] == calls[p..p + 6];
    assert FoundAt(more, p, part);
  }

  lemma AnswerCompletes(w: Worker, i: nat)
    requires w.stage.AfterCommit? && CallsOk(w, i)
    ensures Answers(w.calls + [Matched(i), Answered(i)], i, w.stage.isr)
  {
    var p: nat := |w.calls| - 4;
    var isr := w.stage.isr;
    var all := w.calls + [Matched(i), Answered(i)];
    var part := [Matched(i), Replicated(i, isr), Matched(i), Committed(i, isr), Matched(i), Answered(i)];
    assert Steps(w.stage, i) == [Matched(i), Replicated(i, isr), Matched(i), Committed(i, isr)];
    assert part == Steps(w.stage, i) + [Matched(i), Answered(i)];
    assert all[p..p + 6] == w.calls[p..] + [Matched(i), Answered(i)];
    assert FoundAt(all, p, part);
  }

  lemma AcksKept(s: Lane, e: Event)
    requires SlotsOk(s) && TasksOk(s) && HistoryOk(s) && AcksOk(s) && Enabled(s, e)
    ensures AcksOk(Do(s, e))
  {
    hide DoWork, CanWork, Taken, CallsOk, TasksOk, CanChange, DoChange, ClusterAfter, Grow, Leads, Answers;
    var t := Do(s, e);
    if e.Step? {
      WorkFacts(s, e.work);
    } else if e.Take? {
      TakeRecords(s.worker, s.self, s.submitted[s.taken], s.taken, s.flags.cancelled, t.worker);
    }
    forall i | i in t.worker.results && t.worker.results[i] && Carries(t, i)
      ensures t.submitted[i].acksAll && AnswerOk(t, i)
    {
      if i in s.worker.results {
        AnswersStay(s.worker.calls, t.worker.calls, i, s.submitted[i].isr);
      } else {
        AnswerCompletes(s.worker, i);
      }
    }
  }

  // ---------------------------------------------------------------------------------------------
  // Commits and the replicas

  /** What a broker held when a range was committed, it holds now. */
  ghost predicate CopyOk(c: Cluster, b: Broker, x: Range, copy: Log) {
    Pinned(c, b, x.fence, copy) && (c.replicas[b].torn || (|copy| == x.End() && HasRange(copy, x)))
  }

  ghost predicate CommitIsOk(c: Cluster, self: Broker, submitted: seq<Task>, committed: set<nat>, q: Commit) {
    && q.i in committed && q.i < |submitted| && !submitted[q.i].barrier
    && self in q.isr && q.copies.Keys == q.isr && (submitted[q.i].acksAll ==> q.isr == submitted[q.i].isr)
    && Floor(c, submitted[q.i].range.fence, submitted[q.i].range.End())
    && forall b | b in q.isr :: CopyOk(c, b, submitted[q.i].range, q.copies[b])
  }

  ghost predicate CommitsOk(s: Lane) {
    && (forall p | 0 <= p < |s.commits| :: CommitIsOk(s.cluster, s.self, s.submitted, s.worker.committed, s.commits[p]))
    && (forall i | i in s.worker.committed :: exists p :: 0 <= p < |s.commits| && s.commits[p].i == i)
  }

  lemma CopyChanges(c: Cluster, self: Broker, e: Change, b: Broker, x: Range, copy: Log)
    requires ClusterOk(c) && CanChange(c, self, e) && CopyOk(c, b, x, copy) && Floor(c, x.fence, x.End())
    ensures CopyOk(DoChange(c, self, e), b, x, copy)
  {
    hide CanChange, DoChange, ClusterOk, Pinned, Floor;
    ChangeKeepsPinned(c, self, e, b, x.fence, copy);
  }

  lemma CopyGrows(c: Cluster, a: Broker, records: Log, b: Broker, x: Range, copy: Log)
    requires a in c.replicas && CopyOk(c, b, x, copy)
    ensures CopyOk(Grow(c, a, records), b, x, copy)
  {
    hide Grow, Pinned;
    GrowKeepsPinned(c, a, records, b, x.fence, copy);
  }

  lemma CopyRaises(c: Cluster, h: nat, b: Broker, x: Range, copy: Log)
    requires CopyOk(c, b, x, copy)
    ensures CopyOk(c.(hwm := h), b, x, copy)
  {
  }

  /** A commit once made stays good whatever happens to the cluster. */
  lemma CommitStays(s: Lane, e: Event, q: Commit)
    requires TasksOk(s) && Enabled(s, e) && CommitIsOk(s.cluster, s.self, s.submitted, s.worker.committed, q)
    ensures CommitIsOk(Do(s, e).cluster, s.self, s.submitted, s.worker.committed, q)
  {
    hide DoWork, CanChange, DoChange, Grow, ClusterOk, CopyOk, CanAccept, Taken, TaskOk;
    var c, x, t := s.cluster, s.submitted[q.i].range, Do(s, e);
    FloorStays(s, e, x.fence, x.End());
    forall b | b in q.isr ensures CopyOk(t.cluster, b, x, q.copies[b]) {
      if e.Around? {
        CopyChanges(c, s.self, e.change, b, x, q.copies[b]);
      } else if e.Submit? {
        CopyGrows(c, s.self, e.records, b, x, q.copies[b]);
      } else if e.Step? && Commits(e.work) {
        CopyRaises(c, Last(s).range.End(), b, x, q.copies[b]);
      } else if e.Step? && e.work.AcceptBy? {
        CopyGrows(c, e.work.broker, Missing(c.replicas[e.work.broker], Last(s).range), b, x, q.copies[b]);
      }
    }
  }

  lemma FloorStays(s: Lane, e: Event, f: Fence, n: nat)
    requires TasksOk(s) && Enabled(s, e) && Floor(s.cluster, f, n)
    ensures Floor(Do(s, e).cluster, f, n)
  {
    hide DoWork, CanChange, DoChange, ClusterOk, CanAccept, Taken, TaskOk;
    if e.Around? { ChangeKeepsFloor(s.cluster, s.self, e.change, f, n); }
  }

  lemma CommitsMore(c: Cluster, self: Broker, submitted: seq<Task>, more: seq<Task>, committed: set<nat>,
                    done: set<nat>, q: Commit)
    requires CommitIsOk(c, self, submitted, committed, q) && submitted <= more && committed <= done
    ensures CommitIsOk(c, self, more, done, q)
  {
  }

  lemma CopyIsMade(c: Cluster, b: Broker, x: Range)
    requires ClusterOk(c) && Tentative(c, b, x) && x.fence == c.Current() && c.hwm <= x.End()
    ensures CopyOk(c.(hwm := x.End()), b, x, CopyOf(c, b, x.End()))
  {
    CommitPins(c, b, x);
  }

  /** The commit just made: every broker of the set held the whole range, without a gap below it. */
  lemma CommitIsMade(s: Lane, e: Work)
    requires SlotsOk(s) && TasksOk(s) && HistoryOk(s) && NowOk(s) && Busy(s)
    requires Commits(e) && CanWork(s.cluster, s.self, s.worker, e, Last(s))
    ensures CommitIsOk(Worked(s, e).cluster, s.self, s.submitted, Worked(s, e).worker.committed,
                       CommitRecord(s.cluster, s.worker.stage.isr, Last(s), s.taken - 1))
  {
    hide ClusterOk, Tentative, CopyOk, CopyOf, CallsOk, EndsWith;
    WorkFacts(s, e);
    var c, isr, x := s.cluster, s.worker.stage.isr, Last(s).range;
    forall b | b in isr ensures CopyOk(c.(hwm := x.End()), b, x, CopyOf(c, b, x.End())) {
      CopyIsMade(c, b, x);
    }
    CurrentFloor(c, x.fence, x.End());
  }

  lemma CurrentFloor(c: Cluster, f: Fence, n: nat)
    requires ClusterOk(c) && f == c.Current()
    ensures Floor(c.(hwm := n), f, n)
  {
  }

  lemma CommitsKept(s: Lane, e: Event)
    requires SlotsOk(s) && TasksOk(s) && HistoryOk(s) && NowOk(s) && CommitsOk(s) && Enabled(s, e)
    ensures CommitsOk(Do(s, e))
  {
    hide DoWork, CanWork, CanChange, DoChange, Grow, ClusterOk, Taken, TasksOk, CommitIsOk, HistoryOk, NowOk,
         ClusterAfter;
    var t := Do(s, e);
    if e.Step? { WorkFacts(s, e.work); }
    if e.Take? { TakeKeeps(s); }
    forall p | 0 <= p < |s.commits|
      ensures CommitIsOk(t.cluster, t.self, t.submitted, t.worker.committed, s.commits[p])
    {
      CommitStays(s, e, s.commits[p]);
      CommitsMore(t.cluster, s.self, s.submitted, t.submitted, s.worker.committed, t.worker.committed, s.commits[p]);
    }
    if e.Step? && Commits(e.work) {
      CommitIsMade(s, e.work);
      assert t.commits[|s.commits|].i == s.taken - 1;
    }
    forall i | i in t.worker.committed ensures exists p :: 0 <= p < |t.commits| && t.commits[p].i == i {
      if i in s.worker.committed {
        var p :| 0 <= p < |s.commits| && s.commits[p].i == i;
        assert t.commits[p].i == i;
      }
    }
  }

  lemma TakeKeeps(s: Lane)
    requires Enabled(s, Take)
    ensures Do(s, Take).worker.committed == s.worker.committed
  {
  }

  // ---------------------------------------------------------------------------------------------
  // Every run

  ghost predicate Inv(s: Lane) {
    && SlotsOk(s) && ShutdownOk(s) && ResultsOk(s) && TasksOk(s) && HistoryOk(s) && NowOk(s) && DropsOk(s)
    && OrderOk(s) && AcksOk(s) && CommitsOk(s)
  }

  function New(self: Broker, capacity: nat, cluster: Cluster): Lane {
    Lane(self, if capacity == 0 then 1 else capacity, Counts(0, 0, 0, 0), Flags(false, false, false, false), [], 0,
         Worker(Idle, false, map[], {}, {}, []), cluster, [])
  }

  /** Any cluster, with nothing remembered of the time before. */
  ghost predicate Fresh(c: Cluster) {
    ClusterOk(c) && forall b | b in c.replicas :: Unharmed(c.replicas[b])
  }

  /** `s` is the lane after some run of `n` events, in whatever interleaving, from any cluster. */
  ghost predicate Reachable(s: Lane, n: nat)
    decreases n
  {
    if n == 0 then exists self, capacity, c :: Fresh(c) && self in c.replicas && s == New(self, capacity, c)
    else exists before, e :: Reachable(before, n - 1) && Enabled(before, e) && s == Do(before, e)
  }

  lemma StepKeeps(s: Lane, e: Event)
    requires Inv(s) && Enabled(s, e)
    ensures Inv(Do(s, e))
  {
    hide SlotsOk, ShutdownOk, ResultsOk, TasksOk, HistoryOk, NowOk, DropsOk, OrderOk, AcksOk, CommitsOk, Do, Enabled;
    SlotsKept(s, e);
    ResultsKept(s, e);
    TasksKept(s, e);
    HistoryKept(s, e);
    NowKept(s, e);
    DropsKept(s, e);
    OrderKept(s, e);
    AcksKept(s, e);
    CommitsKept(s, e);
  }

  /** A lane of any configured capacity has room for the first caller. */
  lemma NewHasRoom(self: Broker, capacity: nat, c: Cluster)
    ensures New(self, capacity, c).capacity >= 1 && (capacity > 0 ==> New(self, capacity, c).capacity == capacity)
    ensures Enabled(New(self, capacity, c), Enter) && Enabled(Do(New(self, capacity, c), Enter), Acquire)
  {
  }

  lemma NewIsOk(self: Broker, capacity: nat, c: Cluster)
    requires Fresh(c) && self in c.replicas
    ensures Inv(New(self, capacity, c)) && Reachable(New(self, capacity, c), 0)
  {
    hide ClusterOk;
  }

  lemma {:induction false} RunKeeps(s: Lane, n: nat)
    requires Reachable(s, n)
    ensures Inv(s)
    decreases n
  {
    hide Inv, Do, Enabled, Fresh;
    if n == 0 {
      var self, capacity, c :| Fresh(c) && self in c.replicas && s == New(self, capacity, c);
      NewIsOk(self, capacity, c);
    } else {
      var before, e :| Reachable(before, n - 1) && Enabled(before, e) && s == Do(before, e);
      RunKeeps(before, n - 1);
      StepKeeps(before, e);
    }
  }

  /** Held slots are the reservations, the queued tasks and the one in process; a reserved submit never blocks. */
  lemma SlotsAreAccountedFor(s: Lane, n: nat)
    requires Reachable(s, n)
    ensures s.taken <= |s.submitted| && s.counts.slots <= s.capacity
    ensures s.counts.slots == s.counts.open + |s.submitted[s.taken..]| + if s.worker.stage.Idle? then 0 else 1
    ensures s.counts.open > 0 ==> |s.submitted| - s.taken < s.capacity && Enabled(s, Release)
  {
    RunKeeps(s, n);
    hide Reachable, ShutdownOk, ResultsOk, TasksOk, HistoryOk, NowOk, DropsOk, OrderOk, AcksOk, CommitsOk;
  }

  /**
   * Once close has returned nothing is queued, reserved or in process, and no waiting caller is left without a
   * result.
   */
  lemma CloseLeavesNothing(s: Lane, n: nat, i: nat)
    requires Reachable(s, n) && s.flags.returned
    ensures s.taken == |s.submitted| && s.worker.stage.Idle? && s.counts.slots == 0
    ensures i < |s.submitted| && s.submitted[i].acksAll ==> i in s.worker.results
  {
    RunKeeps(s, n);
    hide Reachable, TasksOk, HistoryOk, NowOk, DropsOk, OrderOk, AcksOk, CommitsOk;
  }

  /**
   * Whenever a watermark was committed, every broker of the set replicated to held a record at every offset below it,
   * the task's own records among them, and still does: whatever tasks were dropped before, whatever brokers refused,
   * and whatever leaders, catch-up and cuts came after. The one exception is a broker whose process restarted and
   * then cut its log again for a fence it had cut for before.
   */
  lemma CommittedIsHeld(s: Lane, n: nat, p: nat, b: Broker)
    requires Reachable(s, n) && p < |s.commits| && b in s.commits[p].isr
    ensures s.commits[p].i < |s.submitted| && s.self in s.commits[p].isr && b in s.commits[p].copies
    ensures b in s.cluster.replicas && s.self in s.cluster.replicas && !s.cluster.replicas[s.self].torn
    ensures s.submitted[s.commits[p].i].range.End() <= s.cluster.hwm
    ensures !s.cluster.replicas[b].torn ==> HoldsCopy(s, p, b)
  {
    RunKeeps(s, n);
    CopyIsHeld(s, p, b);
  }

  ghost predicate HoldsCopy(s: Lane, p: nat, b: Broker)
    requires p < |s.commits| && s.commits[p].i < |s.submitted| && b in s.commits[p].copies && b in s.cluster.replicas
  {
    && |s.commits[p].copies[b]| == s.submitted[s.commits[p].i].range.End()
    && HasRange(s.commits[p].copies[b], s.submitted[s.commits[p].i].range)
    && s.commits[p].copies[b] <= s.cluster.replicas[b].log
  }

  lemma CopyIsHeld(s: Lane, p: nat, b: Broker)
    requires Inv(s) && p < |s.commits| && b in s.commits[p].isr
    ensures s.commits[p].i < |s.submitted| && s.self in s.commits[p].isr && b in s.commits[p].copies
    ensures b in s.cluster.replicas && s.self in s.cluster.replicas && !s.cluster.replicas[s.self].torn
    ensures s.submitted[s.commits[p].i].range.End() <= s.cluster.hwm
    ensures !s.cluster.replicas[b].torn ==> HoldsCopy(s, p, b)
  {
    hide SlotsOk, ShutdownOk, ResultsOk, HistoryOk, NowOk, DropsOk, OrderOk, AcksOk, ClusterOk, HasRange, TaskOk;
    assert CommitIsOk(s.cluster, s.self, s.submitted, s.worker.committed, s.commits[p]);
    assert CopyOk(s.cluster, b, s.submitted[s.commits[p].i].range, s.commits[p].copies[b]);
  }

  /**
   * A watermark committed under a fence has every other task of the fence wholly below or wholly above it, in the
   * order of submission; those below were committed themselves or given up on a refusal.
   */
  lemma WatermarkCutsBetweenTasks(s: Lane, n: nat, j: nat, k: nat)
    requires Reachable(s, n) && j in s.worker.committed && Carries(s, k) && k != j
    ensures Carries(s, j)
    ensures s.submitted[k].range.fence == s.submitted[j].range.fence ==>
              (k < j <==> s.submitted[k].range.End() <= s.submitted[j].range.End()) && (k < j ==> Settled(s.worker, k))
              && (k > j ==> s.submitted[k].range.start >= s.submitted[j].range.End())
  {
    RunKeeps(s, n);
    hide Reachable, SlotsOk, ShutdownOk, ResultsOk, NowOk, DropsOk, AcksOk, CommitsOk, ClusterOk, StageOk, CallsOk,
         Tentative;
    assert BehindOk(s, j);
    assert TaskOk(s.cluster, s.self, s.submitted[k]) && TaskOk(s.cluster, s.self, s.submitted[j]);
    assert k < j ==> InOrder(s.submitted[k], s.submitted[j]);
    assert j < k ==> InOrder(s.submitted[j], s.submitted[k]);
  }

  /**
   * Some task of the barrier's fence, at or after the `k`th and before the barrier, was committed: the `k`th is below
   * that watermark.
   */
  ghost predicate CoveredBefore(s: Lane, k: nat, i: nat) {
    exists m: nat | k <= m < i :: m in s.worker.committed && m < |s.submitted| && k < |s.submitted|
      && s.submitted[m].range.fence == s.submitted[k].range.fence
  }

  /** Every task of the fence from the `k`th on up to the barrier was given up on a refusal. */
  ghost predicate TailRefused(s: Lane, k: nat, i: nat) {
    forall m: nat | k <= m < i && Carries(s, m) && k < |s.submitted|
                    && s.submitted[m].range.fence == s.submitted[k].range.fence ::
      m in s.worker.refused && m !in s.worker.committed
  }

  /**
   * A good barrier stands behind the commit of every earlier task of its fence, exactly unless all from it on were
   * refused.
   */
  lemma BarrierMeansCommitted(s: Lane, n: nat, i: nat, k: nat)
    requires Reachable(s, n) && GoodBarrier(s, i) && k < i && Carries(s, k)
    requires s.submitted[k].range.fence == s.submitted[i].range.fence
    ensures CoveredBefore(s, k, i) <==> !TailRefused(s, k, i)
  {
    RunKeeps(s, n);
    hide Reachable, SlotsOk, ShutdownOk, ResultsOk, TasksOk, NowOk, DropsOk, AcksOk, CommitsOk, StageOk, CallsOk;
    assert BehindOk(s, i);
    if !TailRefused(s, k, i) {
      var m: nat :| k <= m < i && Carries(s, m) && s.submitted[m].range.fence == s.submitted[k].range.fence
      && !(m in s.worker.refused && m !in s.worker.committed);
      assert Settled(s.worker, m);
    }
  }

  /**
   * An acks=all success: a matching snapshot, a replication to exactly the task's in-sync set, a matching snapshot,
   * the commit and a matching snapshot came before the answer, in this order and with no failure between; and every
   * broker of that set that is not torn holds the task's records for good.
   */
  lemma AckMeansReplicated(s: Lane, n: nat, i: nat, b: Broker)
    requires Reachable(s, n) && i in s.worker.results && s.worker.results[i] && Carries(s, i)
    ensures s.submitted[i].acksAll && Answers(s.worker.calls, i, s.submitted[i].isr)
    ensures s.submitted[i].range.End() <= s.cluster.hwm
    ensures b in s.submitted[i].isr ==> b in s.cluster.replicas
    ensures b in s.submitted[i].isr && !s.cluster.replicas[b].torn ==>
              HasRange(s.cluster.replicas[b].log, s.submitted[i].range)
  {
    hide Reachable, Inv, Answers, HasRange, Carries;
    RunKeeps(s, n);
    var p := AckHasCommit(s, i);
    CommittedIsHeld(s, n, p, s.self);
    if b in s.submitted[i].isr {
      CommittedIsHeld(s, n, p, b);
      if !s.cluster.replicas[b].torn {
        HeldInPrefix(s.commits[p].copies[b], s.cluster.replicas[b].log, s.submitted[i].range);
      }
    }
  }

  lemma AckHasCommit(s: Lane, i: nat) returns (p: nat)
    requires Inv(s) && i in s.worker.results && s.worker.results[i] && Carries(s, i)
    ensures s.submitted[i].acksAll && Answers(s.worker.calls, i, s.submitted[i].isr)
    ensures p < |s.commits| && s.commits[p].i == i && s.commits[p].isr == s.submitted[i].isr
    ensures s.self in s.commits[p].isr
  {
    hide SlotsOk, ShutdownOk, ResultsOk, TasksOk, HistoryOk, NowOk, DropsOk, OrderOk, ClusterOk, Answers, CopyOk, Floor;
    assert AnswerOk(s, i);
    p :| 0 <= p < |s.commits| && s.commits[p].i == i;
    assert CommitIsOk(s.cluster, s.self, s.submitted, s.worker.committed, s.commits[p]);
  }

  lemma HeldInPrefix(copy: Log, log: Log, x: Range)
    requires HasRange(copy, x) && copy <= log
    ensures HasRange(log, x)
  {
  }

  // ---------------------------------------------------------------------------------------------
  // Agreement with the leader

  lemma SubmitKeepsAgreement(c: Cluster, self: Broker, b: Broker, f: Fence, records: Log)
    requires Follows(c, self, b, f)
    ensures Agrees(Grow(c, self, records), self, b) <==> Agrees(c, self, b)
  {
    var mine, theirs := c.replicas[b].log, c.replicas[self].log;
    assert mine <= theirs + records ==> mine == (theirs + records)[..|mine|] == theirs[..|mine|];
  }

  lemma WorkKeepsAgreement(c: Cluster, self: Broker, w: Worker, e: Work, task: Task, b: Broker, f: Fence)
    requires CanWork(c, self, w, e, task) && TaskOk(c, self, task) && Follows(c, self, b, f)
    requires Unharmed(c.replicas[self])
    ensures Agrees(ClusterAfter(c, e, task), self, b) <==> Agrees(c, self, b)
  {
    if e.AcceptBy? && e.broker == b {
      AcceptKeepsAgreement(c.replicas[self].log, c.replicas[b], task.range);
    }
  }

  lemma StepKeepsAgreement(s: Lane, e: Event, b: Broker, f: Fence)
    requires SlotsOk(s) && TasksOk(s) && Enabled(s, e)
    requires Follows(s.cluster, s.self, b, f) && Follows(Do(s, e).cluster, s.self, b, f)
    ensures Agrees(Do(s, e).cluster, s.self, b) <==> Agrees(s.cluster, s.self, b)
  {
    hide DoWork, CanWork, CanChange, DoChange, Grow, ClusterOk, TaskOk, ClusterAfter, Follows, Agrees;
    if e.Step? {
      assert TaskOk(s.cluster, s.self, s.submitted[s.taken - 1]);
      WorkKeepsAgreement(s.cluster, s.self, s.worker, e.work, Last(s), b, f);
    } else if e.Around? {
      ChangeKeepsAgreement(s.cluster, s.self, e.change, b, f);
    } else if e.Submit? {
      SubmitKeepsAgreement(s.cluster, s.self, b, f, e.records);
    }
  }

  /** A part of a run in which a follower stays with the leader under one fence. */
  ghost predicate Together(run: seq<Lane>, b: Broker, f: Fence) {
    && run != [] && Inv(run[0]) && (forall i | 0 <= i < |run| :: Follows(run[i].cluster, run[0].self, b, f))
    && forall i | 0 <= i < |run| - 1 :: Next(run[i], run[i + 1])
  }

  ghost predicate Next(s: Lane, t: Lane) {
    exists e :: Enabled(s, e) && t == Do(s, e)
  }

  lemma SelfStays(s: Lane, e: Event)
    requires Enabled(s, e)
    ensures Do(s, e).self == s.self
  {
  }

  /**
   * Whether a follower's log agrees with its leader's is decided when it begins to follow: it agrees at any later
   * point of the fence exactly if it agreed at the start. No append, refusal or catch-up repairs or spoils it.
   */
  lemma {:induction false} AgreementIsDecidedAtTheStart(run: seq<Lane>, b: Broker, f: Fence, i: nat)
    requires Together(run, b, f) && i < |run|
    ensures Inv(run[i]) && run[i].self == run[0].self
    ensures Agrees(run[i].cluster, run[0].self, b) <==> Agrees(run[0].cluster, run[0].self, b)
  {
    hide Inv, Do, Enabled, Follows, Agrees;
    if i > 0 {
      AgreementIsDecidedAtTheStart(run, b, f, i - 1);
      assert Next(run[i - 1], run[i - 1 + 1]);
      var e :| Enabled(run[i - 1], e) && run[i] == Do(run[i - 1], e);
      StepKeeps(run[i - 1], e);
      SelfStays(run[i - 1], e);
      InvParts(run[i - 1]);
      assert Follows(run[i - 1].cluster, run[0].self, b, f) && Follows(run[i].cluster, run[0].self, b, f);
      StepKeepsAgreement(run[i - 1], e, b, f);
    }
  }

  lemma InvParts(s: Lane)
    requires Inv(s)
    ensures SlotsOk(s) && TasksOk(s) && CommitsOk(s)
  {
  }

  /** What an agreeing broker of the set held at a commit is the leader's log below the watermark. */
  lemma AgreeingCopyIsTheLeaders(s: Lane, p: nat, b: Broker)
    requires Inv(s) && p < |s.commits| && b in s.commits[p].isr && Agrees(s.cluster, s.self, b)
    requires !s.cluster.replicas[b].torn
    ensures b in s.commits[p].copies && s.self in s.commits[p].copies
    ensures s.commits[p].copies[b] == s.commits[p].copies[s.self]
  {
    hide Inv, HasRange;
    CopyIsHeld(s, p, b);
    CopyIsHeld(s, p, s.self);
    assert HoldsCopy(s, p, b) && HoldsCopy(s, p, s.self);
    var h := |s.commits[p].copies[b]|;
    var mine, theirs := s.cluster.replicas[b].log, s.cluster.replicas[s.self].log;
    assert s.commits[p].copies[b] == mine[..h] == theirs[..h] == s.commits[p].copies[s.self];
  }

  /**
   * The follower is about to be cut for a fence, and agrees with the leader below the watermark the fence began with.
   */
  ghost predicate Joins(s: Lane, b: Broker) {
    && Inv(s) && Enabled(s, Around(Prepare(b))) && b in s.cluster.replicas && b != s.self
    && var r := s.cluster.replicas[b];
       r.view < |s.cluster.bases| && SameBetween(r.log, s.cluster.replicas[s.self].log, 0, s.cluster.bases[r.view])
  }

  /**
   * The whole time a follower stays with a leader is decided by its cut: it agrees with the leader at any point
   * exactly if the records it kept above the watermark the fence began with were the leader's.
   */
  lemma FollowingIsDecidedByTheCut(s: Lane, run: seq<Lane>, b: Broker, f: Fence, i: nat)
    requires Joins(s, b) && Together(run, b, f) && run[0] == Do(s, Around(Prepare(b))) && i < |run|
    ensures run[i].self == s.self
    ensures Agrees(run[i].cluster, s.self, b) <==>
              SameBetween(s.cluster.replicas[b].log, s.cluster.replicas[s.self].log,
                          s.cluster.bases[s.cluster.replicas[b].view], CutOf(s.cluster.replicas[b]))
  {
    hide Inv, Do, Enabled, Follows, Agrees, SameBetween, CutOf;
    JoinStep(s, b);
    CutDecidesAgreement(s.cluster, s.self, b);
    AgreementIsDecidedAtTheStart(run, b, f, i);
  }

  lemma JoinStep(s: Lane, b: Broker)
    requires Joins(s, b)
    ensures ClusterOk(s.cluster) && CanChange(s.cluster, s.self, Prepare(b))
    ensures Do(s, Around(Prepare(b))) == s.(cluster := DoChange(s.cluster, s.self, Prepare(b)))
  {
  }

  /**
   * A follower cut at the watermark its fence began with agrees from then on, and what it held at any commit, while
   * it is not torn, is the leader's log below the watermark.
   */
  lemma CutAtBaseFollowsForGood(s: Lane, run: seq<Lane>, b: Broker, f: Fence, i: nat, p: nat)
    requires Joins(s, b) && Together(run, b, f) && run[0] == Do(s, Around(Prepare(b))) && i < |run|
    requires s.cluster.replicas[b].known == s.cluster.bases[s.cluster.replicas[b].view]
    ensures run[i].self == s.self && Agrees(run[i].cluster, s.self, b)
    ensures p < |run[i].commits| && b in run[i].commits[p].isr && !run[i].cluster.replicas[b].torn ==>
              b in run[i].commits[p].copies && s.self in run[i].commits[p].copies
              && run[i].commits[p].copies[b] == run[i].commits[p].copies[s.self]
  {
    hide Inv, Do, Enabled, Follows, Reachable;
    FollowingIsDecidedByTheCut(s, run, b, f, i);
    AgreementIsDecidedAtTheStart(run, b, f, i);
    if p < |run[i].commits| && b in run[i].commits[p].isr && !run[i].cluster.replicas[b].torn {
      AgreeingCopyIsTheLeaders(run[i], p, b);
    }
  }
}
