/**
 * Snapshots of the coordinator for the replicated log (ExportState, ImportState and ValidateImportState,
 * pkg/coordinator/coordinator.go). Activity times are left out.
 */
module GroupSnapshot {
  import opened Common
  import opened MetadataRecord
  import opened GroupState
  import opened RangeAssignment
  import opened CoordinatorInvariant

  datatype Snapshot = Snapshot(
    topic: string, generation: int, members: map<string, seq<int>>, partitions: seq<int>,
    offsets: map<string, Offsets>, registrationEpoch: u64, revisions: map<string, u64>, deleted: bool)

  // ---------------------------------------------------------------------------------------------
  // Export and import

  /** Live groups in full, deleted groups as their last epoch. */
  function Export(s: State): map<string, Snapshot> {
    map name | name in s.groups.Keys + s.epochs.Keys ::
      if name in s.groups then
        var g := s.groups[name];
        Snapshot(g.topic, g.generation, g.members, g.partitions, g.offsets, g.registrationEpoch, g.revisions, false)
      else Snapshot("", 0, map[], [], map[], s.epochs[name], map[], true)
  }

  function Import(snapshots: map<string, Snapshot>): State {
    State(
      map name | name in snapshots && !snapshots[name].deleted ::
        var x := snapshots[name];
        Group(x.topic, x.members, x.generation, x.partitions, x.offsets, x.registrationEpoch, x.revisions),
      map name | name in snapshots :: snapshots[name].registrationEpoch)
  }

  /** Importing an export restores groups, epochs and the epochs of deleted groups. */
  lemma ImportUndoesExport(s: State, standalone: bool, topics: set<string>)
    requires LiveGroups(s, standalone, topics)
    ensures Import(Export(s)) == s
  {
    hide SplitEvenly, ByRank;
    assert Import(Export(s)).groups == s.groups;
    assert Import(Export(s)).epochs == s.epochs;
  }

  // ---------------------------------------------------------------------------------------------
  // Validation

  /** The partitions are 0..n-1 in some order. */
  ghost predicate Contiguous(partitions: seq<int>) {
    && Distinct(partitions)
    && (forall p | p in partitions :: p >= 0)
    && (forall k | 0 <= k < |partitions| :: k in partitions)
  }

  /** No member is nameless, and no declared partition has two owners. */
  ghost predicate Assigned(members: map<string, seq<int>>, partitions: seq<int>) {
    && "" !in members
    && (forall m | m in members :: Distinct(members[m]) && forall p | p in members[m] :: p in partitions)
    && (forall m, n, p | m in members && n in members && m != n && p in members[m] :: p !in members[n])
  }

  predicate OffsetsDeclared(x: Snapshot) {
    && (forall t | t in x.offsets :: TopicMatches(x.topic, t) && forall p | p in x.offsets[t] :: p in x.partitions)
    && (forall t | t in x.revisions :: TopicMatches(x.topic, t) && x.revisions[t] != 0)
  }

  ghost predicate Importable(name: string, x: Snapshot) {
    && name != "" && x.registrationEpoch != 0
    && if x.deleted
       then x.topic == "" && x.generation == 0 && x.members == map[] && x.partitions == [] && x.offsets == map[]
       && x.revisions == map[]
       else x.topic != "" && x.generation >= 0 && x.partitions != [] && Contiguous(x.partitions)
            && Assigned(x.members, x.partitions)
            && (forall t, p | t in x.offsets && p in x.offsets[t] :: p in x.partitions)
            && (forall t | t in x.offsets.Keys + x.revisions.Keys :: TopicMatches(x.topic, t))
            && (forall t | t in x.revisions :: x.revisions[t] > 0)
  }

  /** The declared-partition loops. */
  method ValidatePartitions(partitions: seq<int>) returns (ok: bool, declared: set<int>)
    ensures ok <==> Contiguous(partitions)
    ensures ok ==> declared == set p | p in partitions
  {
    declared := {};
    for i := 0 to |partitions|
      invariant declared == set p | p in partitions[..i]
      invariant Distinct(partitions[..i]) && forall p | p in partitions[..i] :: p >= 0
    {
      var p := partitions[i];
      assert p in partitions && partitions[..i + 1] == partitions[..i] + [p];
      if p < 0 { return false, declared; }
      if p in declared {
        var j :| 0 <= j < i && partitions[j] == p;
        return false, declared;
      }
      declared := declared + {p};
    }
    assert partitions[..|partitions|] == partitions;
    for k := 0 to |partitions|
      invariant forall j | 0 <= j < k :: j in declared
    {
      if k !in declared { return false, declared; }
    }
    assert forall k | 0 <= k < |partitions| :: k in partitions by {
      forall k | 0 <= k < |partitions| ensures k in partitions { assert k in declared; }
    }
    return true, declared;
  }

  /** One member's assignments against what other members already own. */
  method ValidateAssignments(assignments: seq<int>, declared: set<int>, taken: set<int>) returns (ok: bool,
                             owned: set<int>)
    ensures ok <==> Distinct(assignments) && forall p | p in assignments :: p in declared && p !in taken
    ensures ok ==> owned == taken + set p | p in assignments
  {
    var mine: set<int> := {};
    for i := 0 to |assignments|
      invariant mine == set p | p in assignments[..i]
      invariant Distinct(assignments[..i]) && forall p | p in assignments[..i] :: p in declared && p !in taken
    {
      var p := assignments[i];
      assert p in assignments && assignments[..i + 1] == assignments[..i] + [p];
      if p !in declared || p in taken { return false, taken; }
      if p in mine {
        var j :| 0 <= j < i && assignments[j] == p;
        return false, taken;
      }
      mine := mine + {p};
    }
    assert assignments[..|assignments|] == assignments;
    return true, taken + mine;
  }

  /** Every partition in `taken` is owned by one of the members in `done`, and only by one. */
  ghost predicate OwnedSoFar(members: map<string, seq<int>>, done: set<string>, partitions: seq<int>, taken: set<int>) {
    && "" !in done && done <= members.Keys
    && (forall m | m in done :: Distinct(members[m]) && forall p | p in members[m] :: p in partitions)
    && (forall m, n, p | m in done && n in done && m != n && p in members[m] :: p !in members[n])
    && (forall p :: p in taken <==> exists m :: m in done && p in members[m])
  }

  method ValidateMembers(members: map<string, seq<int>>, partitions: seq<int>, declared: set<int>) returns (ok: bool)
    requires declared == set p | p in partitions
    ensures ok <==> Assigned(members, partitions)
  {
    var rest := members.Keys;
    ghost var done: set<string> := {};
    var taken: set<int> := {};
    while rest != {}
      invariant rest + done == members.Keys && rest !! done
      invariant OwnedSoFar(members, done, partitions, taken)
      decreases rest
    {
      var m :| m in rest;
      if m == "" { return false; }
      var fine, owned := ValidateAssignments(members[m], declared, taken);
      if !fine {
        return false;
      }
      taken := owned;
      rest := rest - {m};
      done := done + {m};
    }
    assert done == members.Keys;
    return true;
  }

  method ValidateSnapshot(name: string, x: Snapshot) returns (ok: bool)
    ensures ok <==> Importable(name, x)
  {
    if name == "" || x.registrationEpoch == 0 { return false; }
    if x.deleted {
      return x.topic == "" && x.generation == 0 && x.members == map[] && x.partitions == [] && x.offsets == map[]
             && x.revisions == map[];
    }
    if x.topic == "" || x.generation < 0 || x.partitions == [] { return false; }
    var contiguous, declared := ValidatePartitions(x.partitions);
    if !contiguous { return false; }
    var owners := ValidateMembers(x.members, x.partitions, declared);
    return owners && OffsetsDeclared(x);
  }

  method ValidateImportState(snapshots: map<string, Snapshot>) returns (ok: bool)
    ensures ok <==> forall name | name in snapshots :: Importable(name, snapshots[name])
  {
    var rest := snapshots.Keys;
    while rest != {}
      invariant rest <= snapshots.Keys
      invariant forall name | name in snapshots && name !in rest :: Importable(name, snapshots[name])
      decreases rest
    {
      var name :| name in rest;
      var fine := ValidateSnapshot(name, snapshots[name]);
      if !fine { return false; }
      rest := rest - {name};
    }
    return true;
  }

  // ---------------------------------------------------------------------------------------------
  // Which exports are accepted

  lemma LegalIsImportable(name: string, g: Group)
    requires Legal(name, g)
    ensures Contiguous(g.partitions)
    ensures Assigned(g.members, g.partitions) <==> "" !in g.members
    ensures (forall t | t in g.offsets :: TopicMatches(g.topic, t) && forall p | p in g.offsets[t] :: p in g.partitions)
    ensures (forall t | t in g.revisions :: TopicMatches(g.topic, t) && g.revisions[t] != 0)
  {
    MadePartitions(|g.partitions|);
  }

  /** The export of a live state is accepted if and only if no group has a member without a name. */
  lemma ExportAcceptedExactly(s: State, standalone: bool, topics: set<string>)
    requires LiveGroups(s, standalone, topics)
    ensures (forall name | name in Export(s) :: Importable(name, Export(s)[name]))
            <==> (forall g | g in s.groups :: "" !in s.groups[g].members)
  {
    forall name | name in Export(s)
      ensures Importable(name, Export(s)[name]) <==> (name in s.groups ==> "" !in s.groups[name].members)
    {
      if name in s.groups { LegalIsImportable(name, s.groups[name]); }
    }
    forall g | g in s.groups ensures g in Export(s) {}
  }
}
