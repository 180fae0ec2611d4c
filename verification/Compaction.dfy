/**
 * Key compaction of closed segments (EnforceCompaction and shouldRemoveCompactionRecord, pkg/disk/compaction.go),
 * over the part of a record compaction looks at.
 */
module Compaction {
  import opened Common
  import opened Filtering

  /** `key` is absent for a record that is not an ordinary keyed one. */
  datatype Header<K> = Header(offset: nat, key: Option<K>, producer: Option<K>)

  datatype Latest<K> = Latest(keys: map<K, nat>, producers: map<K, nat>)

  function Lookup<K>(m: map<K, nat>, k: K): nat {
    if k in m then m[k] else 0
  }

  predicate ShouldRemove<K>(h: Header<K>, latest: Latest<K>) {
    && h.key.Some?
    && Lookup(latest.keys, h.key.value) != h.offset
    && (h.producer.None? || Lookup(latest.producers, h.producer.value) != h.offset)
  }

  ghost predicate Ordered<T(!new), K>(log: seq<T>, head: T -> Header<K>) {
    forall i, j | 0 <= i < j < |log| :: head(log[i]).offset < head(log[j]).offset
  }

  // ---------------------------------------------------------------------------------------------
  // First pass: the latest offset of every key and producer

  function KeyOf<K>(h: Header<K>): Option<K> { h.key }
  function ProducerOf<K>(h: Header<K>): Option<K> { h.producer }

  /** `m` maps exactly the tags in use to the offset of the last record that carries them. */
  ghost predicate LastOffsets<T(!new), K>(log: seq<T>, head: T -> Header<K>, tag: Header<K> -> Option<K>,
                                m: map<K, nat>) {
    && (forall i | 0 <= i < |log| && tag(head(log[i])).Some? ::
          tag(head(log[i])).value in m && head(log[i]).offset <= m[tag(head(log[i])).value])
    && (forall k | k in m :: exists i :: 0 <= i < |log| && tag(head(log[i])) == Some(k) && head(log[i]).offset == m[k])
  }

  ghost predicate IsLatest<T(!new), K>(log: seq<T>, head: T -> Header<K>, latest: Latest<K>) {
    LastOffsets(log, head, KeyOf, latest.keys) && LastOffsets(log, head, ProducerOf, latest.producers)
  }

  function Put<K>(m: map<K, nat>, k: Option<K>, offset: nat): map<K, nat> {
    if k.Some? then m[k.value := offset] else m
  }

  lemma PutKeepsLast<T(!new), K>(log: seq<T>, x: T, head: T -> Header<K>, tag: Header<K> -> Option<K>, m: map<K, nat>)
    requires LastOffsets(log, head, tag, m) && Ordered(log + [x], head)
    ensures LastOffsets(log + [x], head, tag, Put(m, tag(head(x)), head(x).offset))
  {
    var all, n := log + [x], Put(m, tag(head(x)), head(x).offset);
    assert all[|log|] == x;
    forall i | 0 <= i < |log| ensures all[i] == log[i] && head(all[i]).offset < head(x).offset {
      assert head(all[i]).offset < head(all[|log|]).offset;
    }
    forall k | k in n
      ensures exists i :: 0 <= i < |all| && tag(head(all[i])) == Some(k) && head(all[i]).offset == n[k]
    {
      if tag(head(x)) == Some(k) {
        assert tag(head(all[|log|])) == Some(k);
      } else {
        var i :| 0 <= i < |log| && tag(head(log[i])) == Some(k) && head(log[i]).offset == m[k];
        assert all[i] == log[i];
      }
    }
  }

  function Note<K>(latest: Latest<K>, h: Header<K>): Latest<K> {
    Latest(Put(latest.keys, h.key, h.offset), Put(latest.producers, h.producer, h.offset))
  }

  /** The result of the first scan loop. */
  ghost function LatestOf<T, K>(log: seq<T>, head: T -> Header<K>): Latest<K> {
    if log == [] then Latest(map[], map[])
    else Note(LatestOf(log[..|log| - 1], head), head(log[|log| - 1]))
  }

  lemma {:induction false} LatestIsLatest<T(!new), K>(log: seq<T>, head: T -> Header<K>)
    requires Ordered(log, head)
    ensures IsLatest(log, head, LatestOf(log, head))
  {
    if log != [] {
      var front, x := log[..|log| - 1], log[|log| - 1];
      assert log == front + [x] && forall i | 0 <= i < |front| :: front[i] == log[i];
      LatestIsLatest(front, head);
      PutKeepsLast(front, x, head, KeyOf, LatestOf(front, head).keys);
      PutKeepsLast(front, x, head, ProducerOf, LatestOf(front, head).producers);
    }
  }

  /** The first scan loop over the closed segments. */
  method ScanLatest<T(!new), K(==)>(log: seq<T>, head: T -> Header<K>) returns (latest: Latest<K>)
    requires Ordered(log, head)
    ensures IsLatest(log, head, latest) && latest == LatestOf(log, head)
  {
    latest := Latest(map[], map[]);
    for i := 0 to |log|
      invariant IsLatest(log[..i], head, latest) && latest == LatestOf(log[..i], head)
    {
      assert log[..i + 1] == log[..i] + [log[i]];
      assert log[..i + 1][..i] == log[..i];
      PutKeepsLast(log[..i], log[i], head, KeyOf, latest.keys);
      PutKeepsLast(log[..i], log[i], head, ProducerOf, latest.producers);
      latest := Note(latest, head(log[i]));
    }
    assert log[..|log|] == log;
  }

  // ---------------------------------------------------------------------------------------------
  // What is removed

  ghost predicate CarriedLater<T(!new), K>(log: seq<T>, head: T -> Header<K>, tag: Header<K> -> Option<K>, i: nat)
    requires i < |log|
  {
    exists j :: i < j < |log| && tag(head(log[j])) == tag(head(log[i]))
  }

  /** An ordinary keyed record with a later record of its key, that is not its producer's last record. */
  ghost predicate Superseded<T(!new), K>(log: seq<T>, head: T -> Header<K>, i: nat)
    requires i < |log|
  {
    && head(log[i]).key.Some? && CarriedLater(log, head, KeyOf, i)
    && (head(log[i]).producer.Some? ==> CarriedLater(log, head, ProducerOf, i))
  }

  lemma LastIsLast<T(!new), K>(log: seq<T>, head: T -> Header<K>, tag: Header<K> -> Option<K>, m: map<K, nat>, i: nat)
    requires Ordered(log, head) && LastOffsets(log, head, tag, m) && i < |log| && tag(head(log[i])).Some?
    ensures Lookup(m, tag(head(log[i])).value) != head(log[i]).offset <==> CarriedLater(log, head, tag, i)
  {
    var k := tag(head(log[i])).value;
    var last :| 0 <= last < |log| && tag(head(log[last])) == Some(k) && head(log[last]).offset == m[k];
    if m[k] != head(log[i]).offset {
      assert i < last;
    }
  }

  /** Compaction removes exactly the superseded records of the closed segments. */
  lemma RemovesExactlySuperseded<T(!new), K>(log: seq<T>, head: T -> Header<K>, latest: Latest<K>, i: nat)
    requires Ordered(log, head) && IsLatest(log, head, latest) && i < |log|
    ensures ShouldRemove(head(log[i]), latest) <==> Superseded(log, head, i)
  {
    if head(log[i]).key.Some? {
      LastIsLast(log, head, KeyOf, latest.keys, i);
      if head(log[i]).producer.Some? {
        LastIsLast(log, head, ProducerOf, latest.producers, i);
      }
    }
  }

  // ---------------------------------------------------------------------------------------------
  // Second pass: the rewritten log

  function Keeper<T, K>(head: T -> Header<K>, latest: Latest<K>): T -> bool {
    x => !ShouldRemove(head(x), latest)
  }

  /** The records a rewritten segment keeps, with their offsets and in their order. */
  function Survivors<T(!new), K>(log: seq<T>, head: T -> Header<K>, latest: Latest<K>): seq<T> {
    Filter(log, Keeper(head, latest))
  }

  /**
   * Over the whole log, a compaction of the closed part keeps every record that is not keyed, the last record of
   * every key and the last record of every producer.
   */
  lemma KeepsLatest<T(!new), K>(closed: seq<T>, active: seq<T>, head: T -> Header<K>, latest: Latest<K>, i: nat)
    requires Ordered(closed, head) && IsLatest(closed, head, latest) && i < |closed + active|
    requires var log := closed + active;
             || head(log[i]).key.None?
             || !CarriedLater(log, head, KeyOf, i)
             || (head(log[i]).producer.Some? && !CarriedLater(log, head, ProducerOf, i))
    ensures (closed + active)[i] in Survivors(closed, head, latest) + active
  {
    var log := closed + active;
    if i < |closed| {
      assert log[i] == closed[i];
      forall j | i < j < |closed| ensures log[j] == closed[j] {}
      assert !Superseded(closed, head, i);
      RemovesExactlySuperseded(closed, head, latest, i);
    } else {
      assert log[i] == active[i - |closed|];
    }
  }

  /** A removed record leaves behind a later record of its key. */
  lemma RemovedHasSuccessor<T(!new), K>(closed: seq<T>, head: T -> Header<K>, latest: Latest<K>, i: nat)
    requires Ordered(closed, head) && IsLatest(closed, head, latest) && i < |closed|
    requires closed[i] !in Survivors(closed, head, latest)
    ensures exists j :: i < j < |closed| && head(closed[j]).key == head(closed[i]).key
  {
    RemovesExactlySuperseded(closed, head, latest, i);
  }

  /** The survivors of a pass have the same latest offsets as the log they come from. */
  lemma LatestSurvives<T(!new), K>(log: seq<T>, head: T -> Header<K>, latest: Latest<K>, tag: Header<K> -> Option<K>,
                         m: map<K, nat>)
    requires LastOffsets(log, head, tag, m)
    requires forall i | 0 <= i < |log| && tag(head(log[i])).Some?
                        && head(log[i]).offset == m[tag(head(log[i])).value] ::
               !ShouldRemove(head(log[i]), latest)
    ensures LastOffsets(Survivors(log, head, latest), head, tag, m)
  {
    var kept := Survivors(log, head, latest);
    forall k | k in m
      ensures exists i :: 0 <= i < |kept| && tag(head(kept[i])) == Some(k) && head(kept[i]).offset == m[k]
    {
      var i :| 0 <= i < |log| && tag(head(log[i])) == Some(k) && head(log[i]).offset == m[k];
      assert log[i] in kept;
    }
    forall i | 0 <= i < |kept| && tag(head(kept[i])).Some?
      ensures tag(head(kept[i])).value in m && head(kept[i]).offset <= m[tag(head(kept[i])).value]
    {
      assert kept[i] in log;
    }
  }

  lemma LastOffsetsUnique<T(!new), K>(log: seq<T>, head: T -> Header<K>, tag: Header<K> -> Option<K>, m: map<K, nat>,
                            n: map<K, nat>)
    requires LastOffsets(log, head, tag, m) && LastOffsets(log, head, tag, n)
    ensures m == n
  {
    forall k | k in m ensures k in n && m[k] <= n[k] {
      var i :| 0 <= i < |log| && tag(head(log[i])) == Some(k) && head(log[i]).offset == m[k];
    }
    forall k | k in n ensures k in m && n[k] <= m[k] {
      var i :| 0 <= i < |log| && tag(head(log[i])) == Some(k) && head(log[i]).offset == n[k];
    }
  }

  /** A second pass over the same closed segments removes nothing. */
  lemma SecondPassRemovesNothing<T(!new), K>(log: seq<T>, head: T -> Header<K>, latest: Latest<K>, again: Latest<K>)
    requires Ordered(log, head) && IsLatest(log, head, latest)
    requires IsLatest(Survivors(log, head, latest), head, again)
    ensures Survivors(Survivors(log, head, latest), head, again) == Survivors(log, head, latest)
  {
    var kept := Survivors(log, head, latest);
    LatestSurvives(log, head, latest, KeyOf, latest.keys);
    LatestSurvives(log, head, latest, ProducerOf, latest.producers);
    LastOffsetsUnique(kept, head, KeyOf, latest.keys, again.keys);
    LastOffsetsUnique(kept, head, ProducerOf, latest.producers, again.producers);
    FilterAll(kept, Keeper(head, again));
  }
}
