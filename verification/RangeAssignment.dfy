/** Range assignment of partitions to group members (rebalanceRange, pkg/coordinator/rebalancer.go). */
module RangeAssignment {
  import opened Sorting

  ghost predicate Distinct<T>(q: seq<T>) {
    forall i, j | 0 <= i < j < |q| :: q[i] != q[j]
  }

  /** The assignments split the partitions: no gap, no overlap, sizes within one. */
  ghost predicate SplitEvenly(a: map<string, seq<int>>, partitions: seq<int>) {
    && (forall m, p | m in a && p in a[m] :: p in partitions)
    && (forall p | p in partitions :: exists m :: m in a && p in a[m])
    && (forall m, n, p | m in a && n in a && m != n && p in a[m] :: p !in a[n])
    && (forall m | m in a :: Distinct(a[m]))
    && (forall m, n | m in a && n in a :: |a[m]| <= |a[n]| + 1)
  }

  /** How many of the names come before `name`. */
  ghost function Rank(names: set<string>, name: string): nat {
    |set x | x in names && StringLess(x, name)|
  }

  /** Where the range of the k-th member begins if the first `extra` ranges are one longer than `per`. */
  function StartOf(k: nat, per: nat, extra: nat): nat {
    k * per + if k < extra then k else extra
  }

  /** The share of the k-th of `n` members: a consecutive range, one longer for the first ones. */
  ghost predicate ShareOf(partitions: seq<int>, n: nat, k: nat, share: seq<int>)
    requires n > 0
  {
    var per, extra := |partitions| / n, |partitions| % n;
    var start, size := k * per + (if k < extra then k else extra), per + if k < extra then 1 else 0;
    start + size <= |partitions| && share == partitions[start..start + size]
  }

  /** Every member owns the range its rank among the member names gives it. */
  ghost predicate ByRank(a: map<string, seq<int>>, partitions: seq<int>) {
    forall m | m in a :: |a| > 0 && ShareOf(partitions, |a|, Rank(a.Keys, m), a[m])
  }

  lemma RankedShare(a: map<string, seq<int>>, partitions: seq<int>, m: string)
    requires ByRank(a, partitions) && m in a
    ensures |a.Keys| > 0 && ShareOf(partitions, |a.Keys|, Rank(a.Keys, m), a[m])
  {
    assert |a| == |a.Keys|;
  }

  lemma NobodyByRank(partitions: seq<int>)
    ensures ByRank(map[], partitions)
  {
  }

  /** The names own the consecutive ranges of partitions between the cuts, each of size `per` or one more. */
  ghost predicate Ranges(names: seq<string>, cuts: seq<nat>, per: nat, partitions: seq<int>, a: map<string, seq<int>>) {
    && |cuts| == |names| + 1 && cuts[0] == 0
    && (forall i, j | 0 <= i <= j < |cuts| :: cuts[i] <= cuts[j] <= |partitions|)
    && (forall m :: m in a <==> m in names)
    && (forall i | 0 <= i < |names| ::
          && per <= |a[names[i]]| <= per + 1
          && a[names[i]] == partitions[cuts[i]..cuts[i + 1]])
  }

  lemma {:induction false} FindCut(cuts: seq<nat>, k: nat, i: nat) returns (j: nat)
    requires 0 < i < |cuts| && cuts[0] <= k < cuts[i]
    ensures j < i && cuts[j] <= k < cuts[j + 1]
  {
    if cuts[i - 1] > k {
      j := FindCut(cuts, k, i - 1);
    } else {
      j := i - 1;
    }
  }

  /** An element of a range, as an index of the partitions. */
  lemma IndexOf(names: seq<string>, cuts: seq<nat>, per: nat, partitions: seq<int>, a: map<string, seq<int>>, i: nat,
                p: int)
    returns (k: nat)
    requires Ranges(names, cuts, per, partitions, a) && i < |names| && p in a[names[i]]
    ensures cuts[i] <= k < cuts[i + 1] && partitions[k] == p
  {
    var x :| 0 <= x < |a[names[i]]| && a[names[i]][x] == p;
    k := cuts[i] + x;
  }

  lemma RangesCover(names: seq<string>, cuts: seq<nat>, per: nat, partitions: seq<int>, a: map<string, seq<int>>,
                    k: nat)
    requires Ranges(names, cuts, per, partitions, a) && cuts[|names|] == |partitions| && k < |partitions|
    ensures exists m :: m in a && partitions[k] in a[m]
  {
    var j := FindCut(cuts, k, |names|);
    assert a[names[j]][k - cuts[j]] == partitions[k];
    assert names[j] in a;
  }

  lemma RangesDisjoint(names: seq<string>, cuts: seq<nat>, per: nat, partitions: seq<int>, a: map<string, seq<int>>,
                       i: nat, j: nat, p: int)
    requires Ranges(names, cuts, per, partitions, a) && Distinct(partitions)
    requires i < |names| && j < |names| && p in a[names[i]] && p in a[names[j]]
    ensures i == j
  {
    var k := IndexOf(names, cuts, per, partitions, a, i, p);
    var l := IndexOf(names, cuts, per, partitions, a, j, p);
    assert k == l;
    CutOrder(names, cuts, per, partitions, a, i, j, k);
  }

  lemma CutOrder(names: seq<string>, cuts: seq<nat>, per: nat, partitions: seq<int>, a: map<string, seq<int>>,
                 i: nat, j: nat, k: nat)
    requires Ranges(names, cuts, per, partitions, a) && i < |names| && j < |names|
    requires cuts[i] <= k < cuts[i + 1] && cuts[j] <= k < cuts[j + 1]
    ensures i == j
  {
  }

  lemma RangeWithin(names: seq<string>, cuts: seq<nat>, per: nat, partitions: seq<int>, a: map<string, seq<int>>,
                    i: nat)
    requires Ranges(names, cuts, per, partitions, a) && Distinct(partitions) && i < |names|
    ensures Distinct(a[names[i]]) && forall p | p in a[names[i]] :: p in partitions
  {
    forall p | p in a[names[i]] ensures p in partitions {
      var k := IndexOf(names, cuts, per, partitions, a, i, p);
    }
  }

  lemma RangesSplit(names: seq<string>, cuts: seq<nat>, per: nat, partitions: seq<int>, a: map<string, seq<int>>)
    requires Ranges(names, cuts, per, partitions, a) && Distinct(partitions)
    requires cuts[|names|] == |partitions|
    ensures SplitEvenly(a, partitions)
  {
    forall p | p in partitions ensures exists m :: m in a && p in a[m] {
      var k :| 0 <= k < |partitions| && partitions[k] == p;
      RangesCover(names, cuts, per, partitions, a, k);
    }
    forall m | m in a ensures Distinct(a[m]) && forall p | p in a[m] :: p in partitions {
      var i :| 0 <= i < |names| && names[i] == m;
      RangeWithin(names, cuts, per, partitions, a, i);
    }
    forall m, n, p | m in a && n in a && p in a[m] && p in a[n] ensures m == n {
      var i :| 0 <= i < |names| && names[i] == m;
      var j :| 0 <= j < |names| && names[j] == n;
      RangesDisjoint(names, cuts, per, partitions, a, i, j, p);
    }
  }

  lemma {:induction false} AsManyAsNames(names: seq<string>)
    requires forall i | 0 <= i < |names| :: names[i] !in names[..i]
    ensures |set x | x in names| == |names|
  {
    if names != [] {
      var n := |names| - 1;
      var front := names[..n];
      assert forall i | 0 <= i < n :: names[i] !in names[..i] && front[..i] == names[..i] && front[i] == names[i];
      AsManyAsNames(front);
      assert names == front + [names[n]];
      assert (set x | x in names) == (set x | x in front) + {names[n]};
    }
  }

  /** In the sorted list a name stands at its rank. */
  lemma RankIsIndex(names: seq<string>, members: set<string>, i: nat)
    requires Sorted(names, StringLess) && i < |names| && (forall x :: x in names <==> x in members)
    requires forall j | 0 <= j < |names| :: names[j] !in names[..j]
    ensures Rank(members, names[i]) == i
  {
    var before := names[..i];
    forall x ensures x in before <==> x in members && StringLess(x, names[i]) {
      if x in members && StringLess(x, names[i]) {
        var j :| 0 <= j < |names| && names[j] == x;
        StringLessTotal(x, x);
        if j > i { StringLessTransitive(x, names[i], x); }
        assert before[j] == x;
      }
    }
    assert (set x | x in members && StringLess(x, names[i])) == set x | x in before;
    assert forall j | 0 <= j < i :: before[..j] == names[..j] && before[j] == names[j];
    AsManyAsNames(before);
  }

  /** The member names in order. */
  method SortedMembers(members: set<string>) returns (names: seq<string>)
    ensures |names| == |members|
    ensures forall x :: x in names <==> x in members
    ensures forall i | 0 <= i < |names| :: names[i] !in names[..i]
    ensures forall i | 0 <= i < |names| :: Rank(members, names[i]) == i
  {
    names := SortStrings(members);
    forall i, j | 0 <= j < i < |names| ensures names[j] != names[i] {
      StringLessTotal(names[j], names[i]);
    }
    forall i | 0 <= i < |names| ensures Rank(members, names[i]) == i { RankIsIndex(names, members, i); }
  }

  /** Partitions the members from the i-th on take together. */
  function LeftFor(i: nat, members: nat, per: nat, extra: nat): nat
    decreases members - i
  {
    if i >= members then 0 else per + (if i < extra then 1 else 0) + LeftFor(i + 1, members, per, extra)
  }

  lemma {:induction false} LeftIsSum(i: nat, members: nat, per: nat, extra: nat)
    requires i <= members && extra <= members
    ensures LeftFor(i, members, per, extra) == (members - i) * per + (if i < extra then extra - i else 0)
    decreases members - i
  {
    if i < members {
      LeftIsSum(i + 1, members, per, extra);
      assert (members - i) * per == (members - (i + 1)) * per + per;
    }
  }

  lemma AllAreTaken(members: nat, partitions: nat)
    requires members > 0
    ensures LeftFor(0, members, partitions / members, partitions % members) == partitions
  {
    LeftIsSum(0, members, partitions / members, partitions % members);
  }

  lemma LeftAndStart(i: nat, members: nat, per: nat, extra: nat)
    requires i < members
    ensures LeftFor(i, members, per, extra)
            == (if i < extra then per + 1 else per) + LeftFor(i + 1, members, per, extra)
    ensures StartOf(i + 1, per, extra) == StartOf(i, per, extra) + if i < extra then per + 1 else per
  {
    assert (i + 1) * per == i * per + per;
  }

  lemma StartsAtZero(per: nat, extra: nat)
    ensures StartOf(0, per, extra) == 0
  {
  }

  lemma NothingLeft(members: nat, per: nat, extra: nat)
    ensures LeftFor(members, members, per, extra) == 0
  {
  }

  /** The k-th range of the loop. */
  ghost predicate Dealt(partitions: seq<int>, per: nat, extra: nat, k: nat, range: seq<int>) {
    var start, next := StartOf(k, per, extra), StartOf(k + 1, per, extra);
    start <= next <= |partitions| && range == partitions[start..next]
  }

  lemma {:induction false} StartsRise(i: nat, j: nat, per: nat, extra: nat)
    requires i <= j
    ensures StartOf(i, per, extra) <= StartOf(j, per, extra)
    decreases j - i
  {
    if i < j {
      StartsRise(i + 1, j, per, extra);
      LeftAndStart(i, j, per, extra);
    }
  }

  lemma DealtIsSplit(names: seq<string>, partitions: seq<int>, per: nat, extra: nat, a: map<string, seq<int>>)
    requires Distinct(partitions) && (forall m :: m in a <==> m in names)
    requires StartOf(|names|, per, extra) == |partitions|
    requires forall i: nat | i < |names| :: Dealt(partitions, per, extra, i, a[names[i]])
    ensures SplitEvenly(a, partitions)
  {
    hide StartOf, SplitEvenly;
    var cuts := seq(|names| + 1, i requires 0 <= i => StartOf(i, per, extra));
    StartsAtZero(per, extra);
    forall i, j | 0 <= i <= j < |cuts| ensures cuts[i] <= cuts[j] <= |partitions| {
      StartsRise(i, j, per, extra);
      StartsRise(j, |names|, per, extra);
    }
    forall i | 0 <= i < |names|
      ensures per <= |a[names[i]]| <= per + 1 && a[names[i]] == partitions[cuts[i]..cuts[i + 1]]
    {
      assert Dealt(partitions, per, extra, i, a[names[i]]);
      LeftAndStart(i, |names|, per, extra);
    }
    RangesSplit(names, cuts, per, partitions, a);
  }

  /** The assignment loop, given the size of a range and the number of ranges that are one longer. */
  method AssignRanges(names: seq<string>, partitions: seq<int>, per: nat, extra: nat) returns (a: map<string, seq<int>>)
    requires Distinct(partitions)
    requires forall i | 0 <= i < |names| :: names[i] !in names[..i]
    requires LeftFor(0, |names|, per, extra) == |partitions|
    ensures forall m :: m in a <==> m in names
    ensures SplitEvenly(a, partitions)
    ensures forall i: nat | i < |names| :: Dealt(partitions, per, extra, i, a[names[i]])
  {
    hide StartOf, LeftFor, Dealt, SplitEvenly, DealtFirst;
    a := map[];
    var idx := 0;
    StartsAtZero(per, extra);
    NoneDealt(names, partitions, per, extra);
    for i := 0 to |names|
      invariant idx == StartOf(i, per, extra)
      invariant |partitions| == idx + LeftFor(i, |names|, per, extra)
      invariant DealtFirst(names, partitions, per, extra, i, a)
    {
      var count := if i < extra then per + 1 else per;
      var range := [];
      if idx < |partitions| {
        var end := idx + count;
        if end > |partitions| { end := |partitions|; }
        range := partitions[idx..end];
      }
      DealtNext(partitions, |names|, per, extra, i, range);
      DealtMore(names, partitions, per, extra, i, a, range);
      a := a[names[i] := range];
      idx := idx + |range|;
    }
    AllDealt(names, partitions, per, extra, a);
    NothingLeft(|names|, per, extra);
    DealtIsSplit(names, partitions, per, extra, a);
  }

  /** The first `n` names have their ranges. */
  ghost predicate DealtFirst(names: seq<string>, partitions: seq<int>, per: nat, extra: nat, n: nat,
                             a: map<string, seq<int>>)
    requires n <= |names|
  {
    && (forall m :: m in a <==> m in names[..n])
    && forall j: nat | j < n :: names[j] in a && Dealt(partitions, per, extra, j, a[names[j]])
  }

  lemma DealtMore(names: seq<string>, partitions: seq<int>, per: nat, extra: nat, i: nat, a: map<string, seq<int>>,
                  range: seq<int>)
    requires i < |names| && names[i] !in names[..i] && DealtFirst(names, partitions, per, extra, i, a)
    requires Dealt(partitions, per, extra, i, range)
    ensures DealtFirst(names, partitions, per, extra, i + 1, a[names[i] := range])
  {
    hide Dealt;
    assert names[..i + 1] == names[..i] + [names[i]];
    assert forall j | 0 <= j < i :: names[j] in names[..i];
  }

  lemma NoneDealt(names: seq<string>, partitions: seq<int>, per: nat, extra: nat)
    ensures DealtFirst(names, partitions, per, extra, 0, map[])
  {
  }

  lemma AllDealt(names: seq<string>, partitions: seq<int>, per: nat, extra: nat, a: map<string, seq<int>>)
    requires DealtFirst(names, partitions, per, extra, |names|, a)
    ensures forall m :: m in a <==> m in names
    ensures forall i: nat | i < |names| :: Dealt(partitions, per, extra, i, a[names[i]])
  {
    hide Dealt;
    assert names[..|names|] == names;
  }

  /** What the loop cuts off is the whole range: the end is never met before it. */
  lemma DealtNext(partitions: seq<int>, members: nat, per: nat, extra: nat, i: nat, range: seq<int>)
    requires i < members && |partitions| == StartOf(i, per, extra) + LeftFor(i, members, per, extra)
    requires var idx, end := StartOf(i, per, extra), StartOf(i, per, extra) + if i < extra then per + 1 else per;
             var cut := if end > |partitions| then |partitions| else end;
             range == if idx < |partitions| then partitions[idx..cut] else []
    ensures Dealt(partitions, per, extra, i, range) && |range| == if i < extra then per + 1 else per
    ensures StartOf(i + 1, per, extra) == StartOf(i, per, extra) + |range|
    ensures |partitions| == StartOf(i + 1, per, extra) + LeftFor(i + 1, members, per, extra)
  {
    hide StartOf, LeftFor;
    LeftAndStart(i, members, per, extra);
  }

  /** Hands the sorted members consecutive ranges; earlier members take the remainder. */
  method RebalanceRange(members: set<string>, partitions: seq<int>) returns (a: map<string, seq<int>>)
    requires members != {} && Distinct(partitions)
    ensures a.Keys == members
    ensures SplitEvenly(a, partitions) && ByRank(a, partitions)
  {
    hide Rank, SplitEvenly, Dealt, ShareOf, LeftFor;
    var names := SortedMembers(members);
    AllAreTaken(|names|, |partitions|);
    a := AssignRanges(names, partitions, |partitions| / |names|, |partitions| % |names|);
    assert |a| == |a.Keys| && a.Keys == members;
    forall m | m in a ensures ShareOf(partitions, |a|, Rank(a.Keys, m), a[m]) {
      var k :| 0 <= k < |names| && names[k] == m;
      ShareIsDealt(partitions, |names|, k, a[m]);
    }
  }

  lemma ShareIsDealt(partitions: seq<int>, n: nat, k: nat, share: seq<int>)
    requires k < n && Dealt(partitions, |partitions| / n, |partitions| % n, k, share)
    ensures ShareOf(partitions, n, k, share)
  {
    LeftAndStart(k, n, |partitions| / n, |partitions| % n);
  }
}
