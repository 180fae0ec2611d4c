/**
 * Installing a compacted replica range over several files, with a crash possible between any two file operations
 * (pkg/disk/compacted_replication.go, and the start-up order of pkg/disk/handler.go).
 */
module RangeInstall {
  import opened Common
  import opened Bytes

  /** The pending manifest. A file's size and SHA-256 checksum stand for its content. */
  datatype Manifest = Manifest(start: nat, end: nat, log: seq<byte>, index: seq<byte>)

  /** A marker file's name: segment base and log size. */
  datatype Marker = Marker(base: nat, size: nat)

  datatype Disk = Disk(
    logs: map<nat, seq<byte>>, indexes: map<nat, seq<byte>>, markers: set<Marker>,
    stagedLogs: map<nat, seq<byte>>, stagedIndexes: map<nat, seq<byte>>, markerTemps: set<Marker>,
    pending: Option<Manifest>, pendingTemp: bool)

  /** What a reader of the reopened partition sees: the files, and which logs may have offset gaps. */
  datatype View = View(logs: map<nat, seq<byte>>, indexes: map<nat, seq<byte>>, gaps: set<nat>)

  function Gaps(d: Disk): set<nat> {
    set b | b in d.logs && Marker(b, |d.logs[b]|) in d.markers
  }

  function Readable(d: Disk): View {
    View(d.logs, d.indexes, Gaps(d))
  }

  /** Where the installing or recovering process is. */
  datatype Pc =
    | ClearStagedLog | ClearStagedIndex | ClearPendingTemp | StageLog | StageIndex | StagePending | PlacePending
    | InstallLog | InstallIndex | ClearMarkers | StageMarker | PlaceMarker | TailLog | TailIndex
    | DropPendingTemp | DropPending
    | Boot | CleanTemps | LoadMarkers
    | Ready     // the partition can be read and written
    | Failed    // a validation failed

  /** `restarted` if recovery is running; `committed` once the manifest has been put in place. */
  datatype Sys = Sys(disk: Disk, pc: Pc, restarted: bool, committed: bool)

  function Drop<V>(m: map<nat, V>, k: nat): map<nat, V> {
    m - {k}
  }

  function WithLog(d: Disk, base: nat, content: seq<byte>): Disk {
    d.(stagedLogs := d.stagedLogs[base := content])
  }

  function WithIndex(d: Disk, base: nat, content: seq<byte>): Disk {
    d.(stagedIndexes := d.stagedIndexes[base := content])
  }

  /** The file operations of staging, in order. A staged file may be caught half written. */
  ghost predicate StagingStep(s: Sys, t: Sys, m: Manifest) {
    var d := s.disk;
    match s.pc
    case ClearStagedLog => t == s.(disk := d.(stagedLogs := Drop(d.stagedLogs, m.start)), pc := ClearStagedIndex)
    case ClearStagedIndex => t == s.(disk := d.(stagedIndexes := Drop(d.stagedIndexes, m.start)),
        pc := ClearPendingTemp)
    case ClearPendingTemp => t == s.(disk := d.(pendingTemp := false), pc := StageLog)
    case StageLog =>
      || (exists part :: part <= m.log && t == s.(disk := WithLog(d, m.start, part)))
      || t == s.(disk := WithLog(d, m.start, m.log), pc := StageIndex)
    case StageIndex =>
      || (exists part :: part <= m.index && t == s.(disk := WithIndex(d, m.start, part)))
      || t == s.(disk := WithIndex(d, m.start, m.index), pc := StagePending)
    case StagePending => t == s.(disk := d.(pendingTemp := true), pc := PlacePending)
    case PlacePending => t == s.(disk := d.(pendingTemp := false, pending := Some(m)), pc := InstallLog,
        committed := true)
    case _ => false
  }

  /** `installCompactedRangeFile` on the log: rename a valid staged file, or accept a valid installed one. */
  ghost predicate InstallLogStep(s: Sys, t: Sys, m: Manifest) {
    var d := s.disk;
    if m.start in d.stagedLogs then
      if d.stagedLogs[m.start] == m.log
      then t == s.(disk := d.(logs := d.logs[m.start := m.log], stagedLogs := Drop(d.stagedLogs, m.start)),
          pc := InstallIndex)
      else t == s.(pc := Failed)
    else if m.start in d.logs && d.logs[m.start] == m.log then t == s.(pc := InstallIndex)
    else t == s.(pc := Failed)
  }

  ghost predicate InstallIndexStep(s: Sys, t: Sys, m: Manifest) {
    var d := s.disk;
    if m.start in d.stagedIndexes then
      if d.stagedIndexes[m.start] == m.index
      then t == s.(disk := d.(indexes := d.indexes[m.start := m.index],
          stagedIndexes := Drop(d.stagedIndexes, m.start)), pc := ClearMarkers)
      else t == s.(pc := Failed)
    else if m.start in d.indexes && d.indexes[m.start] == m.index then t == s.(pc := ClearMarkers)
    else t == s.(pc := Failed)
  }

  /** `ensureEmptyCompactedRangeTail`. */
  ghost predicate TailStep(files: map<nat, seq<byte>>, end: nat, after: map<nat, seq<byte>>, ok: bool) {
    if end !in files then after == files[end := []] && ok
    else after == files && ok == (files[end] == [])
  }

  /** `completeCompactedRangeTransaction`, for the manifest in place; the same code runs live and in recovery. */
  ghost predicate CompletionStep(s: Sys, t: Sys, m: Manifest) {
    var d := s.disk;
    match s.pc
    case InstallLog => InstallLogStep(s, t, m)
    case InstallIndex => InstallIndexStep(s, t, m)
    case ClearMarkers =>
      || (exists k | k in d.markers && k.base == m.start :: t == s.(disk := d.(markers := d.markers - {k})))
      || ((forall k | k in d.markers :: k.base != m.start) && t == s.(pc := StageMarker))
    case StageMarker => t == s.(disk := d.(markerTemps := d.markerTemps + {Marker(m.start, |m.log|)}),
        pc := PlaceMarker)
    case PlaceMarker =>
      t == s.(disk := d.(markerTemps := d.markerTemps - {Marker(m.start, |m.log|)},
          markers := d.markers + {Marker(m.start, |m.log|)}), pc := TailLog)
    case TailLog =>
      exists after, ok ::
        TailStep(d.logs, m.end, after, ok) && t == s.(disk := d.(logs := after), pc := if ok then TailIndex else Failed)
    case TailIndex =>
      exists after, ok ::
        TailStep(d.indexes, m.end, after, ok)
        && t == s.(disk := d.(indexes := after), pc := if ok then DropPendingTemp else Failed)
    case DropPendingTemp => t == s.(disk := d.(pendingTemp := false), pc := DropPending)
    case DropPending => t == s.(disk := d.(pending := None), pc := if s.restarted then CleanTemps else Ready)
    case _ => false
  }

  /** Start-up: finish a pending range, remove temporary files, drop markers that do not match their log. */
  ghost predicate BootStep(s: Sys, t: Sys) {
    var d := s.disk;
    match s.pc
    case Boot =>
      if d.pending.Some? then t == s.(pc := if d.pending.value.end <= d.pending.value.start then Failed else InstallLog)
      else t == s.(disk := d.(pendingTemp := false), pc := CleanTemps)
    case CleanTemps =>
      || (exists b | b in d.stagedLogs :: t == s.(disk := d.(stagedLogs := Drop(d.stagedLogs, b))))
      || (exists b | b in d.stagedIndexes :: t == s.(disk := d.(stagedIndexes := Drop(d.stagedIndexes, b))))
      || (exists k | k in d.markerTemps :: t == s.(disk := d.(markerTemps := d.markerTemps - {k})))
      || (d.stagedLogs == map[] && d.stagedIndexes == map[] && d.markerTemps == {} && t == s.(pc := LoadMarkers))
    case LoadMarkers =>
      || (exists k | k in d.markers && !(k.base in d.logs && |d.logs[k.base]| == k.size) ::
            t == s.(disk := d.(markers := d.markers - {k})))
      || ((forall k | k in d.markers :: k.base in d.logs && |d.logs[k.base]| == k.size) && t == s.(pc := Ready))
    case _ => false
  }

  /** A crash keeps the files and nothing else. */
  ghost predicate CrashStep(s: Sys, t: Sys) {
    t == s.(pc := Boot, restarted := true)
  }

  /** A partition that came up without the range is sent it again. */
  ghost predicate RetryStep(s: Sys, t: Sys) {
    s.pc == Ready && !s.committed && t == s.(pc := ClearStagedLog, restarted := false)
  }

  ghost predicate Step(s: Sys, t: Sys, m: Manifest) {
    StagingStep(s, t, m) || CompletionStep(s, t, m) || BootStep(s, t) || CrashStep(s, t) || RetryStep(s, t)
  }

  // ---------------------------------------------------------------------------------------------
  // What every step keeps

  /** The range continues the log: an empty active segment at `start`, nothing yet at `end`. */
  ghost predicate Fits(v: View, m: Manifest) {
    && m.start < m.end && m.start in v.logs && v.logs[m.start] == [] && m.start !in v.gaps
    && m.end !in v.logs && m.end !in v.indexes && v.gaps <= v.logs.Keys
  }

  /** The partition with the range in it: its records, its gap marker and an empty tail segment. */
  function Installed(v: View, m: Manifest): View {
    View(v.logs[m.start := m.log][m.end := []], v.indexes[m.start := m.index][m.end := []], v.gaps + {m.start})
  }

  ghost predicate SameElsewhere(files: map<nat, seq<byte>>, before: map<nat, seq<byte>>, m: Manifest) {
    forall b | b != m.start && b != m.end :: (b in files <==> b in before) && (b in files ==> files[b] == before[b])
  }

  ghost predicate NoMarkers(markers: set<Marker>, base: nat) {
    forall k | k in markers :: k.base != base
  }

  ghost predicate GapsElsewhere(d: Disk, v: View, m: Manifest) {
    forall b | b != m.start && b != m.end && b in d.logs :: Marker(b, |d.logs[b]|) in d.markers <==> b in v.gaps
  }

  /** A file of the range is either still staged, whole, or already in its place. */
  ghost predicate Recoverable(staged: map<nat, seq<byte>>, files: map<nat, seq<byte>>, base: nat, content: seq<byte>) {
    if base in staged then staged[base] == content else base in files && files[base] == content
  }

  ghost predicate InPlace(staged: map<nat, seq<byte>>, files: map<nat, seq<byte>>, base: nat, content: seq<byte>) {
    base !in staged && base in files && files[base] == content
  }

  ghost predicate EmptyOrAbsent(files: map<nat, seq<byte>>, base: nat) {
    base in files ==> files[base] == []
  }

  /** True at every moment the manifest is in place. */
  ghost predicate Pending(d: Disk, v: View, m: Manifest) {
    && d.pending == Some(m) && SameElsewhere(d.logs, v.logs, m) && SameElsewhere(d.indexes, v.indexes, m)
    && GapsElsewhere(d, v, m)
    && Recoverable(d.stagedLogs, d.logs, m.start, m.log) && Recoverable(d.stagedIndexes, d.indexes, m.start, m.index)
    && EmptyOrAbsent(d.logs, m.end) && EmptyOrAbsent(d.indexes, m.end) && NoMarkers(d.markers, m.end)
  }

  ghost predicate OnlyMarker(markers: set<Marker>, k: Marker) {
    k in markers && forall j | j in markers && j.base == k.base :: j == k
  }

  function Rank(pc: Pc): nat {
    match pc
    case Boot => 0
    case InstallLog => 1
    case InstallIndex => 2
    case ClearMarkers => 3
    case StageMarker => 4
    case PlaceMarker => 5
    case TailLog => 6
    case TailIndex => 7
    case DropPendingTemp => 8
    case DropPending => 9
    case CleanTemps => 10
    case LoadMarkers => 11
    case Ready => 12
    case _ => 13
  }

  /** What completion has achieved by the time it gets to a step. */
  ghost predicate Achieved(d: Disk, pc: Pc, m: Manifest) {
    && (Rank(pc) >= 2 ==> InPlace(d.stagedLogs, d.logs, m.start, m.log))
    && (Rank(pc) >= 3 ==> InPlace(d.stagedIndexes, d.indexes, m.start, m.index))
    && (4 <= Rank(pc) <= 5 ==> NoMarkers(d.markers, m.start))
    && (Rank(pc) >= 6 ==> OnlyMarker(d.markers, Marker(m.start, |m.log|)))
    && (Rank(pc) >= 7 ==> m.end in d.logs)
    && (Rank(pc) >= 8 ==> m.end in d.indexes)
  }

  /** Before the manifest is in place. */
  ghost predicate Untouched(s: Sys, v: View, m: Manifest) {
    && s.disk.pending.None? && Readable(s.disk) == v && NoMarkers(s.disk.markers, m.start)
    && NoMarkers(s.disk.markers, m.end)
    && (Rank(s.pc) == 13 || Rank(s.pc) == 0 || 10 <= Rank(s.pc) <= 12) && s.pc != Failed
    && (s.pc.StageIndex? || s.pc.StagePending? || s.pc.PlacePending? ==>
          m.start in s.disk.stagedLogs && s.disk.stagedLogs[m.start] == m.log)
    && (s.pc.StagePending? || s.pc.PlacePending? ==>
          m.start in s.disk.stagedIndexes && s.disk.stagedIndexes[m.start] == m.index)
  }

  ghost predicate Finished(s: Sys, v: View, m: Manifest) {
    && s.disk.pending.None? && Readable(s.disk) == Installed(v, m)
    && OnlyMarker(s.disk.markers, Marker(m.start, |m.log|))
    && NoMarkers(s.disk.markers, m.end) && (Rank(s.pc) == 0 || 10 <= Rank(s.pc) <= 12)
  }

  ghost predicate Inv(s: Sys, v: View, m: Manifest) {
    if !s.committed then Untouched(s, v, m)
    else if s.disk.pending.Some? then Pending(s.disk, v, m) && Rank(s.pc) <= 9 && Achieved(s.disk, s.pc, m)
    else Finished(s, v, m)
  }

  // ---------------------------------------------------------------------------------------------
  // Staging

  lemma StagingKeeps(s: Sys, t: Sys, v: View, m: Manifest)
    requires Fits(v, m) && Inv(s, v, m) && StagingStep(s, t, m)
    ensures Inv(t, v, m)
  {
    assert !s.committed;
    if s.pc == PlacePending {
      PlaceKeeps(s, t, v, m);
    }
  }

  lemma PlaceKeeps(s: Sys, t: Sys, v: View, m: Manifest)
    requires Fits(v, m) && Untouched(s, v, m) && s.pc == PlacePending && StagingStep(s, t, m)
    ensures Pending(t.disk, v, m)
  {
    assert Gaps(s.disk) == v.gaps;
  }

  // ---------------------------------------------------------------------------------------------
  // Completion

  lemma InstallLogKeeps(s: Sys, t: Sys, v: View, m: Manifest)
    requires Fits(v, m) && s.committed && Pending(s.disk, v, m) && s.pc == InstallLog && InstallLogStep(s, t, m)
    ensures t.pc == InstallIndex && Pending(t.disk, v, m) && Achieved(t.disk, t.pc, m) && t.committed
  {
  }

  lemma InstallIndexKeeps(s: Sys, t: Sys, v: View, m: Manifest)
    requires Fits(v, m) && s.committed && Pending(s.disk, v, m) && s.pc == InstallIndex && Achieved(s.disk, s.pc, m)
    requires InstallIndexStep(s, t, m)
    ensures t.pc == ClearMarkers && Pending(t.disk, v, m) && Achieved(t.disk, t.pc, m) && t.committed
  {
  }

  lemma MarkersKeep(s: Sys, t: Sys, v: View, m: Manifest)
    requires Fits(v, m) && s.committed && Pending(s.disk, v, m)
    requires (s.pc.ClearMarkers? || s.pc.StageMarker? || s.pc.PlaceMarker?)
    requires Achieved(s.disk, s.pc, m) && CompletionStep(s, t, m)
    ensures Pending(t.disk, v, m) && Achieved(t.disk, t.pc, m) && t.committed && 3 <= Rank(t.pc) <= 6
  {
  }

  lemma TailKeeps(s: Sys, t: Sys, v: View, m: Manifest)
    requires Fits(v, m) && s.committed && Pending(s.disk, v, m) && (s.pc.TailLog? || s.pc.TailIndex?)
    requires Achieved(s.disk, s.pc, m) && CompletionStep(s, t, m)
    ensures Pending(t.disk, v, m) && Achieved(t.disk, t.pc, m) && t.committed && 7 <= Rank(t.pc) <= 8
  {
  }

  /** With everything achieved, the partition reads as the one with the range in it. */
  lemma AchievedIsInstalled(d: Disk, v: View, m: Manifest)
    requires Fits(v, m) && Pending(d, v, m) && Achieved(d, DropPending, m)
    ensures Readable(d) == Installed(v, m)
  {
    var w := Installed(v, m);
    assert d.logs == w.logs;
    assert d.indexes == w.indexes;
    forall b ensures b in Gaps(d) <==> b in w.gaps {
      if b == m.end { assert Marker(b, 0) !in d.markers; }
    }
  }

  lemma DropKeeps(s: Sys, t: Sys, v: View, m: Manifest)
    requires Fits(v, m) && s.committed && Pending(s.disk, v, m) && (s.pc.DropPendingTemp? || s.pc.DropPending?)
    requires Achieved(s.disk, s.pc, m) && CompletionStep(s, t, m)
    ensures Inv(t, v, m) && t.committed
  {
    if s.pc.DropPending? {
      AchievedIsInstalled(s.disk, v, m);
      assert Readable(t.disk) == Readable(s.disk);
    }
  }

  lemma CompletionKeeps(s: Sys, t: Sys, v: View, m: Manifest)
    requires Fits(v, m) && Inv(s, v, m) && CompletionStep(s, t, m)
    ensures Inv(t, v, m) && t.committed == s.committed
  {
    hide Pending, Achieved, Untouched, Finished;
    OnlyPendingCompletes(s, t, v, m);
    match s.pc {
      case InstallLog => InstallLogKeeps(s, t, v, m); StillPending(t, v, m);
      case InstallIndex => InstallIndexKeeps(s, t, v, m); StillPending(t, v, m);
      case TailLog => TailKeeps(s, t, v, m); StillPending(t, v, m);
      case TailIndex => TailKeeps(s, t, v, m); StillPending(t, v, m);
      case DropPendingTemp => DropKeeps(s, t, v, m);
      case DropPending => DropKeeps(s, t, v, m);
      case _ => MarkersKeep(s, t, v, m); StillPending(t, v, m);
    }
  }

  lemma OnlyPendingCompletes(s: Sys, t: Sys, v: View, m: Manifest)
    requires Inv(s, v, m) && CompletionStep(s, t, m)
    ensures s.committed && s.disk.pending.Some? && 1 <= Rank(s.pc) <= 9
  {
  }

  lemma StillPending(t: Sys, v: View, m: Manifest)
    requires Pending(t.disk, v, m)
    ensures t.disk.pending.Some?
  {
  }

  // ---------------------------------------------------------------------------------------------
  // Start-up

  /** A marker that does not match its log says nothing about gaps. */
  lemma DropStaleMarker(d: Disk, k: Marker)
    requires !(k.base in d.logs && |d.logs[k.base]| == k.size)
    ensures Readable(d.(markers := d.markers - {k})) == Readable(d)
  {
    var e := d.(markers := d.markers - {k});
    forall b ensures b in Gaps(e) <==> b in Gaps(d) {}
  }

  lemma LoadKeeps(s: Sys, t: Sys, v: View, m: Manifest)
    requires Fits(v, m) && Inv(s, v, m) && s.pc.LoadMarkers? && BootStep(s, t)
    ensures Inv(t, v, m) && t.committed == s.committed
  {
    var d := s.disk;
    if t.pc != Ready {
      var k :| k in d.markers && !(k.base in d.logs && |d.logs[k.base]| == k.size)
               && t == s.(disk := d.(markers := d.markers - {k}));
      DropStaleMarker(d, k);
      if s.committed {
        assert m.start in Installed(v, m).gaps && d.logs == Installed(v, m).logs;
        assert k != Marker(m.start, |m.log|);
      }
    }
  }

  lemma CleanKeeps(s: Sys, t: Sys, v: View, m: Manifest)
    requires Fits(v, m) && Inv(s, v, m) && s.pc.CleanTemps? && BootStep(s, t)
    ensures Inv(t, v, m) && t.committed == s.committed
  {
    assert Readable(t.disk) == Readable(s.disk);
  }

  lemma StartKeeps(s: Sys, t: Sys, v: View, m: Manifest)
    requires Fits(v, m) && Inv(s, v, m) && s.pc.Boot? && BootStep(s, t)
    ensures Inv(t, v, m) && t.committed == s.committed
  {
    assert Readable(t.disk) == Readable(s.disk);
  }

  lemma CrashKeeps(s: Sys, t: Sys, v: View, m: Manifest)
    requires Inv(s, v, m) && CrashStep(s, t)
    ensures Inv(t, v, m) && t.committed == s.committed
  {
  }

  lemma StepKeeps(s: Sys, t: Sys, v: View, m: Manifest)
    requires Fits(v, m) && Inv(s, v, m) && Step(s, t, m)
    ensures Inv(t, v, m) && (s.committed ==> t.committed)
  {
    hide Inv, StagingStep, CompletionStep, BootStep;
    if CrashStep(s, t) {
      CrashKeeps(s, t, v, m);
    } else if StagingStep(s, t, m) {
      StagingKeeps(s, t, v, m);
      StagingCommits(s, t, m);
    } else if CompletionStep(s, t, m) {
      CompletionKeeps(s, t, v, m);
    } else if RetryStep(s, t) {
      RetryKeeps(s, t, v, m);
    } else {
      BootPhase(s, t);
      match s.pc {
        case Boot => StartKeeps(s, t, v, m);
        case CleanTemps => CleanKeeps(s, t, v, m);
        case _ => LoadKeeps(s, t, v, m);
      }
    }
  }

  lemma RetryKeeps(s: Sys, t: Sys, v: View, m: Manifest)
    requires Inv(s, v, m) && RetryStep(s, t)
    ensures Inv(t, v, m)
  {
  }

  lemma StagingCommits(s: Sys, t: Sys, m: Manifest)
    requires StagingStep(s, t, m)
    ensures s.committed ==> t.committed
  {
  }

  lemma BootPhase(s: Sys, t: Sys)
    requires BootStep(s, t)
    ensures s.pc.Boot? || s.pc.CleanTemps? || s.pc.LoadMarkers?
  {
  }

  // ---------------------------------------------------------------------------------------------
  // Whole runs

  /** A live partition about to install the range; leftovers of earlier attempts may lie around. */
  ghost predicate Begins(s: Sys, v: View, m: Manifest) {
    && s.pc == ClearStagedLog && !s.committed && !s.restarted && s.disk.pending.None? && Readable(s.disk) == v
    && NoMarkers(s.disk.markers, m.start) && NoMarkers(s.disk.markers, m.end)
  }

  ghost predicate Run(run: seq<Sys>, v: View, m: Manifest) {
    && run != [] && Begins(run[0], v, m)
    && forall i | 0 < i < |run| :: Step(run[i - 1], run[i], m)
  }

  /**
   * All or nothing, at every point of every run with any number of crashes: no validation ever fails; until the
   * manifest is in place the partition reads as before; after that, whenever the partition is ready it reads with the
   * whole range in it, and it is never undone.
   */
  lemma {:induction false} AllOrNothing(run: seq<Sys>, v: View, m: Manifest, i: nat)
    requires Fits(v, m) && Run(run, v, m) && i < |run|
    ensures Inv(run[i], v, m) && run[i].pc != Failed
    ensures !run[i].committed ==> Readable(run[i].disk) == v && run[i].disk.pending.None?
    ensures run[i].committed && run[i].pc == Ready ==>
              Readable(run[i].disk) == Installed(v, m) && run[i].disk.pending.None?
    ensures i > 0 && run[i - 1].committed ==> run[i].committed
  {
    hide Step, Inv, Readable, Installed;
    if i == 0 {
      BeginKeeps(run[0], v, m);
    } else {
      AllOrNothing(run, v, m, i - 1);
      assert Step(run[i - 1], run[i], m);
      StepKeeps(run[i - 1], run[i], v, m);
    }
    InvMeans(run[i], v, m);
  }

  lemma BeginKeeps(s: Sys, v: View, m: Manifest)
    requires Begins(s, v, m)
    ensures Inv(s, v, m)
  {
  }

  lemma InvMeans(s: Sys, v: View, m: Manifest)
    requires Inv(s, v, m)
    ensures s.pc != Failed
    ensures !s.committed ==> Readable(s.disk) == v && s.disk.pending.None?
    ensures s.committed && s.pc == Ready ==> Readable(s.disk) == Installed(v, m) && s.disk.pending.None?
  {
  }

  // ---------------------------------------------------------------------------------------------
  // Recovery ends

  /** Files still to be removed in the loops of recovery. */
  function Leftovers(d: Disk): nat {
    |d.markers| + |d.stagedLogs| + |d.stagedIndexes| + |d.markerTemps|
  }

  lemma DropShrinks(files: map<nat, seq<byte>>, b: nat)
    requires b in files
    ensures |Drop(files, b)| < |files|
  {
    assert Drop(files, b).Keys == files.Keys - {b};
    assert |Drop(files, b)| == |Drop(files, b).Keys| && |files| == |files.Keys|;
  }

  lemma CompletionAdvances(s: Sys, t: Sys, m: Manifest)
    requires CompletionStep(s, t, m) && s.restarted
    ensures Rank(s.pc) < Rank(t.pc) || (t.pc == s.pc && Leftovers(t.disk) < Leftovers(s.disk))
  {
    hide InstallLogStep, InstallIndexStep, TailStep, Leftovers;
    if s.pc == InstallLog || s.pc == InstallIndex { InstallAdvances(s, t, m); }
    if s.pc == ClearMarkers && t.pc == s.pc {
      var k :| k in s.disk.markers && k.base == m.start && t == s.(disk := s.disk.(markers := s.disk.markers - {k}));
      FewerMarkers(s.disk, k);
    }
  }

  lemma InstallAdvances(s: Sys, t: Sys, m: Manifest)
    requires (s.pc == InstallLog && InstallLogStep(s, t, m)) || (s.pc == InstallIndex && InstallIndexStep(s, t, m))
    ensures Rank(s.pc) < Rank(t.pc)
  {
  }

  lemma FewerMarkers(d: Disk, k: Marker)
    requires k in d.markers
    ensures Leftovers(d.(markers := d.markers - {k})) < Leftovers(d)
  {
  }

  lemma CleaningAdvances(s: Sys, t: Sys)
    requires s.pc == CleanTemps && BootStep(s, t)
    ensures t.pc == LoadMarkers || (t.pc == s.pc && Leftovers(t.disk) < Leftovers(s.disk))
  {
    var d := s.disk;
    if b :| b in d.stagedLogs && t == s.(disk := d.(stagedLogs := Drop(d.stagedLogs, b))) {
      DropShrinks(d.stagedLogs, b);
    } else if b :| b in d.stagedIndexes && t == s.(disk := d.(stagedIndexes := Drop(d.stagedIndexes, b))) {
      DropShrinks(d.stagedIndexes, b);
    }
  }

  lemma LoadingAdvances(s: Sys, t: Sys)
    requires s.pc == LoadMarkers && BootStep(s, t)
    ensures t.pc == Ready || (t.pc == s.pc && Leftovers(t.disk) < Leftovers(s.disk))
  {
    if t.pc != Ready {
      var k :| k in s.disk.markers && t == s.(disk := s.disk.(markers := s.disk.markers - {k}));
      FewerMarkers(s.disk, k);
    }
  }

  /** Every step of recovery goes on to a later stage, or removes a file: without crashes it ends. */
  lemma RecoveryAdvances(s: Sys, t: Sys, v: View, m: Manifest)
    requires Fits(v, m) && Inv(s, v, m) && s.restarted && Rank(s.pc) <= 11
    requires (CompletionStep(s, t, m) || BootStep(s, t))
    ensures Rank(s.pc) < Rank(t.pc) <= 12 || (t.pc == s.pc && Leftovers(t.disk) < Leftovers(s.disk))
  {
    hide Inv, CompletionStep, Leftovers, StagingStep;
    StepKeeps(s, t, v, m);
    InvMeans(t, v, m);
    if CompletionStep(s, t, m) {
      CompletionAdvances(s, t, m);
      CompletionStages(s, t, m);
    } else if s.pc == CleanTemps {
      CleaningAdvances(s, t);
    } else if s.pc == LoadMarkers {
      LoadingAdvances(s, t);
    }
  }

  lemma CompletionStages(s: Sys, t: Sys, m: Manifest)
    requires CompletionStep(s, t, m)
    ensures Rank(t.pc) <= 12 || t.pc == Failed
  {
  }

  /** And it is never stuck before the partition is ready. */
  lemma RecoveryGoesOn(s: Sys, v: View, m: Manifest) returns (t: Sys)
    requires Fits(v, m) && Inv(s, v, m) && Rank(s.pc) <= 11
    ensures CompletionStep(s, t, m) || BootStep(s, t)
  {
    var d := s.disk;
    match s.pc {
      case Boot =>
        t := if d.pending.Some? then s.(pc := InstallLog) else s.(disk := d.(pendingTemp := false), pc := CleanTemps);
      case InstallLog =>
        t := if m.start in d.stagedLogs
             then s.(disk := d.(logs := d.logs[m.start := m.log], stagedLogs := Drop(d.stagedLogs, m.start)),
                 pc := InstallIndex)
             else s.(pc := InstallIndex);
      case InstallIndex =>
        t := if m.start in d.stagedIndexes
             then s.(disk := d.(indexes := d.indexes[m.start := m.index],
                 stagedIndexes := Drop(d.stagedIndexes, m.start)), pc := ClearMarkers)
             else s.(pc := ClearMarkers);
      case ClearMarkers =>
        t := s.(pc := StageMarker);
        if k :| k in d.markers && k.base == m.start { t := s.(disk := d.(markers := d.markers - {k})); }
      case StageMarker => t := s.(disk := d.(markerTemps := d.markerTemps + {Marker(m.start, |m.log|)}),
          pc := PlaceMarker);
      case PlaceMarker =>
        var k := Marker(m.start, |m.log|);
        t := s.(disk := d.(markerTemps := d.markerTemps - {k}, markers := d.markers + {k}), pc := TailLog);
      case TailLog =>
        var after := if m.end in d.logs then d.logs else d.logs[m.end := []];
        assert TailStep(d.logs, m.end, after, true);
        t := s.(disk := d.(logs := after), pc := TailIndex);
      case TailIndex =>
        var after := if m.end in d.indexes then d.indexes else d.indexes[m.end := []];
        assert TailStep(d.indexes, m.end, after, true);
        t := s.(disk := d.(indexes := after), pc := DropPendingTemp);
      case DropPendingTemp => t := s.(disk := d.(pendingTemp := false), pc := DropPending);
      case DropPending => t := s.(disk := d.(pending := None), pc := if s.restarted then CleanTemps else Ready);
      case CleanTemps => t := NextClean(s);
      case LoadMarkers =>
        t := s.(pc := Ready);
        if k :| k in d.markers && !(k.base in d.logs && |d.logs[k.base]| == k.size) {
          t := s.(disk := d.(markers := d.markers - {k}));
        }
    }
  }

  lemma NextClean(s: Sys) returns (t: Sys)
    requires s.pc == CleanTemps
    ensures BootStep(s, t)
  {
    var d := s.disk;
    t := s.(pc := LoadMarkers);
    if b :| b in d.stagedLogs {
      t := s.(disk := d.(stagedLogs := Drop(d.stagedLogs, b)));
    } else if b :| b in d.stagedIndexes {
      t := s.(disk := d.(stagedIndexes := Drop(d.stagedIndexes, b)));
    } else if k :| k in d.markerTemps {
      t := s.(disk := d.(markerTemps := d.markerTemps - {k}));
    }
  }

  /** From any crash point, recovery left alone brings the partition up with or without the whole range. */
  lemma {:induction false} RecoveryEnds(s: Sys, v: View, m: Manifest) returns (t: Sys)
    requires Fits(v, m) && Inv(s, v, m) && s.restarted && Rank(s.pc) <= 12
    ensures t.pc == Ready && t.disk.pending.None? && Readable(t.disk) == if s.committed then Installed(v, m) else v
    decreases 12 - Rank(s.pc), Leftovers(s.disk)
  {
    if Rank(s.pc) == 12 {
      t := s;
    } else {
      var n := RecoveryGoesOn(s, v, m);
      RecoveryAdvances(s, n, v, m);
      StepKeeps(s, n, v, m);
      StepRestarted(s, n, m);
      t := RecoveryEnds(n, v, m);
    }
  }

  lemma StepRestarted(s: Sys, n: Sys, m: Manifest)
    requires CompletionStep(s, n, m) || BootStep(s, n)
    ensures n.restarted == s.restarted && n.committed == s.committed
  {
  }
}
