/** Order-preserving selection from a sequence. */
module Filtering {

  function Filter<T(!new)>(q: seq<T>, keep: T -> bool): (r: seq<T>)
    ensures forall x :: x in r <==> x in q && keep(x)
    ensures |r| <= |q|
  {
    if q == [] then []
    else
      var rest := Filter(q[1..], keep);
      assert q == [q[0]] + q[1..];
      if keep(q[0]) then [q[0]] + rest else rest
  }

  lemma {:induction false} FilterConcat<T(!new)>(a: seq<T>, b: seq<T>, keep: T -> bool)
    ensures Filter(a + b, keep) == Filter(a, keep) + Filter(b, keep)
  {
    if a == [] {
      assert a + b == b;
    } else {
      assert (a + b)[1..] == a[1..] + b;
      FilterConcat(a[1..], b, keep);
    }
  }

  lemma {:induction false} FilterAll<T(!new)>(q: seq<T>, keep: T -> bool)
    requires forall x | x in q :: keep(x)
    ensures Filter(q, keep) == q
  {
    if q != [] {
      assert q == [q[0]] + q[1..];
      FilterAll(q[1..], keep);
    }
  }

  lemma {:induction false} FilterNone<T(!new)>(q: seq<T>, keep: T -> bool)
    requires forall x | x in q :: !keep(x)
    ensures Filter(q, keep) == []
  {
    if q != [] {
      assert q == [q[0]] + q[1..];
      FilterNone(q[1..], keep);
    }
  }

  /** Every pair related in order before selection is related in order after it. */
  ghost predicate Chain<T(!new)>(q: seq<T>, rel: (T, T) -> bool) {
    forall i, j | 0 <= i < j < |q| :: rel(q[i], q[j])
  }

  lemma {:induction false} FilterKeepsChain<T(!new)>(q: seq<T>, keep: T -> bool, rel: (T, T) -> bool)
    requires Chain(q, rel)
    ensures Chain(Filter(q, keep), rel)
  {
    if q != [] {
      FilterKeepsChain(q[1..], keep, rel);
      var rest := Filter(q[1..], keep);
      forall j | 0 <= j < |rest| ensures rel(q[0], rest[j]) {
        assert rest[j] in q[1..];
      }
    }
  }

  lemma ChainJoin<T(!new)>(a: seq<T>, b: seq<T>, rel: (T, T) -> bool)
    requires Chain(a, rel) && Chain(b, rel)
    requires forall x, y | x in a && y in b :: rel(x, y)
    ensures Chain(a + b, rel)
  {
  }

  lemma ChainSplit<T(!new)>(a: seq<T>, b: seq<T>, rel: (T, T) -> bool)
    requires Chain(a + b, rel)
    ensures Chain(a, rel) && Chain(b, rel)
    ensures forall x, y | x in a && y in b :: rel(x, y)
  {
    var q := a + b;
    assert forall i | 0 <= i < |a| :: q[i] == a[i];
    assert forall i | 0 <= i < |b| :: q[|a| + i] == b[i];
  }

  /** Selecting from the first part only. */
  lemma FilterPrefixKeepsChain<T(!new)>(a: seq<T>, b: seq<T>, keep: T -> bool, rel: (T, T) -> bool)
    requires Chain(a + b, rel)
    ensures Chain(Filter(a, keep) + b, rel)
  {
    ChainSplit(a, b, rel);
    FilterKeepsChain(a, keep, rel);
    ChainJoin(Filter(a, keep), b, rel);
  }
}
