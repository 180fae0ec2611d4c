/**
 * Replacing a compacted segment's marker, log and index files, with a crash possible between any two
 * (compactClosedSegment and loadCompactionMarkers, pkg/disk/compaction.go).
 */
module CompactionSwap {
  import opened Common
  import opened Bytes

  /** One closed segment. `compacted` is the truth about the log file; markers are named by log size. */
  datatype Disk = Disk(log: seq<byte>, compacted: bool, markers: set<nat>, staged: set<nat>)

  datatype Pc =
    | Idle                            // open for readers
    | Swapping(after: seq<byte>)      // new log, index and marker are staged
    | MarkerPlaced(after: seq<byte>)
    | LogPlaced(after: seq<byte>)
    | Remembered                      // the handler knows the new size; the index is replaced next
    | CleanTemps | LoadMarkers

  /** `remembered` is the handler's compacted size for the segment. */
  datatype Sys = Sys(disk: Disk, remembered: Option<nat>, pc: Pc)

  /** `segmentAllowsOffsetGaps` with the handler's memory. */
  predicate AllowsGaps(s: Sys) {
    s.remembered == Some(|s.disk.log|)
  }

  /** What start-up will decide from the files. */
  predicate GapsAfterRestart(d: Disk) {
    |d.log| in d.markers
  }

  ghost predicate SwapStep(s: Sys, t: Sys) {
    var d := s.disk;
    match s.pc
    case Idle =>
      // Rewriting removed at least one record, so the new log is shorter.
      exists after :: |after| < |d.log| && t == s.(disk := d.(staged := d.staged + {|after|}), pc := Swapping(after))
    case Swapping(after) =>
      || t == s.(disk := d.(markers := d.markers + {|after|}), pc := MarkerPlaced(after))
      || t == s.(pc := Idle)
    case MarkerPlaced(after) =>
      || t == s.(disk := d.(log := after, compacted := true), pc := LogPlaced(after))
      // The log could not be replaced; removing the marker again may fail too.
      || t == s.(disk := d.(markers := d.markers - {|after|}), pc := Idle)
      || t == s.(pc := Idle)
    case LogPlaced(after) => t == s.(remembered := Some(|after|), pc := Remembered)
    case Remembered => t == s.(pc := Idle)
    case _ => false
  }

  ghost predicate RestartStep(s: Sys, t: Sys) {
    var d := s.disk;
    match s.pc
    case CleanTemps => t == s.(disk := d.(staged := {}), pc := LoadMarkers)
    case LoadMarkers =>
      || (exists size | size in d.markers && size != |d.log| :: t == s.(disk := d.(markers := d.markers - {size})))
      || ((forall size | size in d.markers :: size == |d.log|)
          && t == s.(remembered := if d.markers == {} then None else Some(|d.log|), pc := Idle))
    case _ => false
  }

  ghost predicate CrashStep(s: Sys, t: Sys) {
    t == s.(remembered := None, pc := CleanTemps)
  }

  ghost predicate Step(s: Sys, t: Sys) {
    SwapStep(s, t) || RestartStep(s, t) || CrashStep(s, t)
  }

  /** Sizes only fall, so a marker never comes to match a log it was not made for. */
  ghost predicate Inv(s: Sys) {
    && (if s.disk.compacted then |s.disk.log| in s.disk.markers
        else forall size | size in s.disk.markers :: size < |s.disk.log|)
    && (s.pc.Swapping? ==> |s.pc.after| < |s.disk.log|)
    && (s.pc.MarkerPlaced? ==> |s.pc.after| < |s.disk.log| && |s.pc.after| in s.disk.markers)
    && (s.pc.LogPlaced? ==> s.disk.compacted && s.disk.log == s.pc.after)
    && (s.pc.Idle? || s.pc.Swapping? || s.pc.MarkerPlaced? || s.pc.Remembered? ==>
          (AllowsGaps(s) <==> s.disk.compacted))
  }

  lemma SwapKeeps(s: Sys, t: Sys)
    requires Inv(s) && SwapStep(s, t)
    ensures Inv(t) && |t.disk.log| <= |s.disk.log| && (s.disk.compacted ==> t.disk.compacted)
  {
  }

  lemma RestartKeeps(s: Sys, t: Sys)
    requires Inv(s) && RestartStep(s, t)
    ensures Inv(t) && t.disk.log == s.disk.log && t.disk.compacted == s.disk.compacted
  {
    if s.pc.LoadMarkers? && t.pc.Idle? && !s.disk.compacted {
      assert s.disk.markers == {};
    }
  }

  /** A segment as the write path closed it: whole, with no marker. */
  ghost predicate Begins(s: Sys) {
    !s.disk.compacted && s.disk.markers == {} && s.remembered.None? && s.pc.Idle?
  }

  ghost predicate Run(run: seq<Sys>) {
    run != [] && Begins(run[0]) && forall i | 0 < i < |run| :: Step(run[i - 1], run[i])
  }

  /**
   * At every point of every run, over any number of compactions and crashes: a restart would allow offset gaps
   * exactly if the log file is a compacted one, and so does the running handler whenever the segment is open for
   * readers.
   */
  lemma {:induction false} GapsExactlyIfCompacted(run: seq<Sys>, i: nat)
    requires Run(run) && i < |run|
    ensures Inv(run[i]) && (GapsAfterRestart(run[i].disk) <==> run[i].disk.compacted)
    ensures run[i].pc.Idle? ==> (AllowsGaps(run[i]) <==> run[i].disk.compacted)
  {
    if i > 0 {
      GapsExactlyIfCompacted(run, i - 1);
      var s, t := run[i - 1], run[i];
      assert Step(s, t);
      if SwapStep(s, t) { SwapKeeps(s, t); } else if RestartStep(s, t) { RestartKeeps(s, t); }
    }
  }
}
