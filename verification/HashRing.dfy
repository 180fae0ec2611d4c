/** The consistent hash ring (util/consistent_hash.go). Nodes and keys come with their hash values. */
module HashRing {
  import opened Filtering
  import opened Sorting

  predicate Less(a: int, b: int) { a < b }
  predicate AtMost(a: int, b: int) { a <= b }

  lemma LessIsTotal(s: set<int>)
    ensures StrictTotalOn(s, Less)
  {
  }

  /** The hashes in order, each owned by a node; adding a node again leaves its hashes there more than once. */
  ghost predicate RingOk(keys: seq<int>, owners: map<int, string>) {
    Sorted(keys, AtMost) && forall h :: h in keys <==> h in owners
  }

  function AtOrAfter(h: int): int -> bool { (k: int) => k >= h }
  function Ahead(h: int): int -> bool { (k: int) => k < h }
  function Other(x: string): string -> bool { (y: string) => y != x }

  /** The ring from a position on, once around. */
  ghost function Walk(keys: seq<int>, h: int): seq<int> {
    Filter(keys, AtOrAfter(h)) + Filter(keys, Ahead(h))
  }

  function OwnerOf(owners: map<int, string>, k: int): string {
    if k in owners then owners[k] else ""
  }

  ghost function OwnersAlong(walk: seq<int>, owners: map<int, string>): seq<string> {
    seq(|walk|, i requires 0 <= i < |walk| => OwnerOf(owners, walk[i]))
  }

  /** First occurrences. */
  function Firsts(q: seq<string>): (r: seq<string>)
    ensures forall x :: x in r <==> x in q
    ensures |r| <= |q|
  {
    if q == [] then []
    else
      var front, last := q[..|q| - 1], q[|q| - 1];
      assert q == front + [last];
      if last in Firsts(front) then Firsts(front) else Firsts(front) + [last]
  }

  lemma FirstsSnoc(q: seq<string>, x: string)
    ensures Firsts(q + [x]) == if x in Firsts(q) then Firsts(q) else Firsts(q) + [x]
  {
    assert (q + [x])[..|q|] == q;
  }

  ghost predicate Distinct(q: seq<string>) {
    forall i, j | 0 <= i < j < |q| :: q[i] != q[j]
  }

  function Names(q: seq<string>): set<string> {
    set x | x in q
  }

  lemma DistinctSnoc(q: seq<string>, x: string)
    requires Distinct(q) && x !in q
    ensures Distinct(q + [x])
  {
    forall i | 0 <= i < |q| ensures q[i] != x { assert q[i] in q; }
  }

  lemma NamesSnoc(q: seq<string>, x: string)
    ensures |Names(q + [x])| == |Names(q)| + if x in q then 0 else 1
  {
    assert Names(q + [x]) == Names(q) + {x};
    if x in q { assert Names(q) + {x} == Names(q); }
  }

  lemma {:induction false} FirstsDistinct(q: seq<string>)
    ensures Distinct(Firsts(q)) && |Firsts(q)| == |Names(q)|
  {
    if q == [] {
      assert Names(q) == {};
    } else {
      hide Distinct, Names;
      var front, last := q[..|q| - 1], q[|q| - 1];
      assert q == front + [last];
      FirstsDistinct(front);
      FirstsSnoc(front, last);
      NamesSnoc(front, last);
      if last !in Firsts(front) { DistinctSnoc(Firsts(front), last); }
    }
  }

  /** Taking out one name commutes with keeping first occurrences. */
  lemma {:induction false} FirstsWithout(q: seq<string>, x: string)
    ensures Firsts(Filter(q, Other(x))) == Filter(Firsts(q), Other(x))
  {
    var keep := Other(x);
    if q != [] {
      var front, last := q[..|q| - 1], q[|q| - 1];
      assert q == front + [last];
      FirstsWithout(front, x);
      FilterSnoc(front, last, keep);
      FilterSnoc(Firsts(front), last, keep);
      if keep(last) { FirstsSnoc(Filter(front, keep), last); }
    }
  }

  lemma FilterSnoc<T(!new)>(q: seq<T>, x: T, keep: T -> bool)
    ensures Filter(q + [x], keep) == if keep(x) then Filter(q, keep) + [x] else Filter(q, keep)
  {
    FilterConcat(q, [x], keep);
    if keep(x) { FilterAll([x], keep); } else { FilterNone([x], keep); }
  }

  // ---------------------------------------------------------------------------------------------
  // Removing a node

  /** Two sorted sequences of the same hashes are the same. */
  lemma {:induction false} SortedUnique(a: seq<int>, b: seq<int>)
    requires Sorted(a, Less) && Sorted(b, Less) && forall h :: h in a <==> h in b
    ensures a == b
  {
    assert a != [] ==> a[0] in a && a[0] in b;
    assert b != [] ==> b[0] in b && b[0] in a;
    if a != [] && b != [] {
      assert a[0] in b && b[0] in a;
      assert a[0] == b[0];
      forall h ensures h in a[1..] <==> h in b[1..] {
        if h in a[1..] { assert h in a && h > a[0]; }
        if h in b[1..] { assert h in b && h > b[0]; }
      }
      SortedUnique(a[1..], b[1..]);
    }
  }

  lemma {:induction false} FilterSwap<T(!new)>(q: seq<T>, f: T -> bool, g: T -> bool)
    ensures Filter(Filter(q, f), g) == Filter(Filter(q, g), f)
  {
    if q != [] {
      FilterSwap(q[1..], f, g);
    }
  }

  lemma FilterCons<T(!new)>(x: T, rest: seq<T>, keep: T -> bool)
    ensures Filter([x] + rest, keep) == if keep(x) then [x] + Filter(rest, keep) else Filter(rest, keep)
  {
    assert ([x] + rest)[1..] == rest;
  }

  lemma OwnersCons(k: int, rest: seq<int>, owners: map<int, string>)
    ensures OwnersAlong([k] + rest, owners) == [OwnerOf(owners, k)] + OwnersAlong(rest, owners)
  {
  }

  lemma {:induction false} OwnersFilter(walk: seq<int>, owners: map<int, string>, x: string, keep: int -> bool,
                                        left: map<int, string>)
    requires forall h | h in walk :: h in owners && keep(h) == (owners[h] != x)
    requires forall h | h in owners && owners[h] != x :: h in left && left[h] == owners[h]
    ensures OwnersAlong(Filter(walk, keep), left) == Filter(OwnersAlong(walk, owners), Other(x))
  {
    if walk == [] {
      assert Filter(walk, keep) == [];
    } else {
      hide Filter, OwnersAlong;
      var k, rest := walk[0], walk[1..];
      assert walk == [k] + rest && k in walk;
      OwnersFilter(rest, owners, x, keep, left);
      FilterCons(k, rest, keep);
      OwnersCons(k, rest, owners);
      OwnersCons(k, Filter(rest, keep), left);
      FilterCons(OwnerOf(owners, k), OwnersAlong(rest, owners), Other(x));
    }
  }

  function Without(owners: map<int, string>, x: string): map<int, string> {
    map k | k in owners && owners[k] != x :: owners[k]
  }

  /** The nodes in the order a key meets them: the preference list behind `Get` and `GetN`. */
  ghost function Preference(keys: seq<int>, owners: map<int, string>, h: int): seq<string>
    requires RingOk(keys, owners)
  {
    Firsts(OwnersAlong(Walk(keys, h), owners))
  }

  // ---------------------------------------------------------------------------------------------
  // Hashes that are on the ring more than once

  /** Each hash once. */
  function Once(keys: seq<int>): (r: seq<int>)
    ensures forall h :: h in r <==> h in keys
    ensures keys != [] ==> r != [] && r[|r| - 1] == keys[|keys| - 1]
  {
    if keys == [] then []
    else
      var front, last := keys[..|keys| - 1], keys[|keys| - 1];
      assert keys == front + [last];
      if front != [] && front[|front| - 1] == last then Once(front) else Once(front) + [last]
  }

  lemma {:induction false} OnceIsStrict(keys: seq<int>)
    requires Sorted(keys, AtMost)
    ensures Sorted(Once(keys), Less)
  {
    if keys != [] {
      var front, last := keys[..|keys| - 1], keys[|keys| - 1];
      assert keys == front + [last];
      OnceIsStrict(front);
      var r := Once(front);
      if front != [] && front[|front| - 1] != last {
        forall i | 0 <= i < |r| ensures r[i] < last {
          assert r[i] <= r[|r| - 1] == front[|front| - 1] == keys[|keys| - 2] <= last;
        }
      }
    }
  }

  lemma OwnersSnoc(q: seq<int>, k: int, owners: map<int, string>)
    ensures OwnersAlong(q + [k], owners) == OwnersAlong(q, owners) + [OwnerOf(owners, k)]
  {
  }

  lemma OwnerIsMet(q: seq<int>, k: int, owners: map<int, string>)
    requires k in q
    ensures OwnerOf(owners, k) in OwnersAlong(q, owners)
  {
    var i :| 0 <= i < |q| && q[i] == k;
    assert OwnersAlong(q, owners)[i] == OwnerOf(owners, k);
  }

  lemma OnceSnoc(front: seq<int>, last: int)
    ensures Once(front + [last]) == if front != [] && front[|front| - 1] == last then Once(front)
                                    else Once(front) + [last]
  {
    assert (front + [last])[..|front|] == front;
  }

  lemma {:induction false} OnceKeepsFirsts(keys: seq<int>, keep: int -> bool, owners: map<int, string>)
    ensures Firsts(OwnersAlong(Filter(keys, keep), owners)) == Firsts(OwnersAlong(Filter(Once(keys), keep), owners))
  {
    if keys == [] {
      assert Once(keys) == [];
    } else {
      hide Filter, Firsts, OwnersAlong, Once;
      var front, last := keys[..|keys| - 1], keys[|keys| - 1];
      assert keys == front + [last];
      OnceSnoc(front, last);
      OnceKeepsFirsts(front, keep, owners);
      FilterSnoc(front, last, keep);
      FilterSnoc(Once(front), last, keep);
      if keep(last) {
        var a, b := Filter(front, keep), Filter(Once(front), keep);
        OwnersSnoc(a, last, owners);
        OwnersSnoc(b, last, owners);
        FirstsSnoc(OwnersAlong(a, owners), OwnerOf(owners, last));
        FirstsSnoc(OwnersAlong(b, owners), OwnerOf(owners, last));
        if front != [] && front[|front| - 1] == last { OwnerIsMet(a, last, owners); }
      }
    }
  }

  lemma {:induction false} FirstsJoin(a: seq<string>, b: seq<string>)
    ensures Firsts(a + b) == Firsts(Firsts(a) + Firsts(b))
  {
    if b == [] {
      assert a + b == a && Firsts(a) + Firsts(b) == Firsts(a);
      FirstsDistinct(a);
      FirstsOfDistinct(Firsts(a));
    } else {
      var front, last := b[..|b| - 1], b[|b| - 1];
      assert b == front + [last] && a + b == (a + front) + [last];
      FirstsJoin(a, front);
      FirstsSnoc(a + front, last);
      FirstsSnoc(front, last);
      if last !in Firsts(front) {
        assert Firsts(a) + Firsts(b) == (Firsts(a) + Firsts(front)) + [last];
        FirstsSnoc(Firsts(a) + Firsts(front), last);
      }
    }
  }

  lemma {:induction false} FirstsOfDistinct(q: seq<string>)
    requires Distinct(q)
    ensures Firsts(q) == q
  {
    if q != [] {
      var front, last := q[..|q| - 1], q[|q| - 1];
      assert q == front + [last];
      FirstsOfDistinct(front);
      assert last !in front;
    }
  }

  lemma OwnersConcat(a: seq<int>, b: seq<int>, owners: map<int, string>)
    ensures OwnersAlong(a + b, owners) == OwnersAlong(a, owners) + OwnersAlong(b, owners)
  {
  }

  /** A key meets the nodes in the same order however often their hashes are on the ring. */
  lemma OnceIsEnough(keys: seq<int>, owners: map<int, string>, h: int)
    requires RingOk(keys, owners)
    ensures RingOk(Once(keys), owners) && Sorted(Once(keys), Less)
    ensures Preference(keys, owners, h) == Preference(Once(keys), owners, h)
  {
    hide Filter, Firsts, OwnersAlong, Once;
    OnceIsStrict(keys);
    var high, low := AtOrAfter(h), Ahead(h);
    OnceKeepsFirsts(keys, high, owners);
    OnceKeepsFirsts(keys, low, owners);
    WalkFirsts(keys, owners, h);
    WalkFirsts(Once(keys), owners, h);
  }

  lemma WalkFirsts(keys: seq<int>, owners: map<int, string>, h: int)
    ensures Firsts(OwnersAlong(Walk(keys, h), owners))
            == Firsts(Firsts(OwnersAlong(Filter(keys, AtOrAfter(h)), owners))
                      + Firsts(OwnersAlong(Filter(keys, Ahead(h)), owners)))
  {
    hide Filter, Firsts, OwnersAlong;
    OwnersConcat(Filter(keys, AtOrAfter(h)), Filter(keys, Ahead(h)), owners);
    FirstsJoin(OwnersAlong(Filter(keys, AtOrAfter(h)), owners), OwnersAlong(Filter(keys, Ahead(h)), owners));
  }

  /** Removing a node takes it out of every key's preference list and changes nothing else in it. */
  lemma RemoveKeepsOrder(keys: seq<int>, owners: map<int, string>, x: string, keys': seq<int>, left: map<int, string>,
                         h: int)
    requires RingOk(keys, owners) && RingOk(keys', left) && left == Without(owners, x)
    ensures Preference(keys', left, h) == Filter(Preference(keys, owners, h), Other(x))
  {
    hide Preference, Filter, Without, Once;
    OnceIsEnough(keys, owners, h);
    OnceIsEnough(keys', left, h);
    RemoveFromStrict(Once(keys), owners, x, Once(keys'), left, h);
  }

  lemma RemoveFromStrict(keys: seq<int>, owners: map<int, string>, x: string, keys': seq<int>, left: map<int, string>,
                         h: int)
    requires RingOk(keys, owners) && RingOk(keys', left) && left == Without(owners, x)
    requires Sorted(keys, Less) && Sorted(keys', Less)
    ensures Preference(keys', left, h) == Filter(Preference(keys, owners, h), Other(x))
  {
    var keep := (k: int) => k in owners && owners[k] != x;
    var low, high := Ahead(h), AtOrAfter(h);
    FilterKeepsChain(keys, keep, Less);
    SortedUnique(keys', Filter(keys, keep));
    FilterSwap(keys, keep, high);
    FilterSwap(keys, keep, low);
    FilterConcat(Filter(keys, high), Filter(keys, low), keep);
    assert Walk(keys', h) == Filter(Walk(keys, h), keep);
    OwnersFilter(Walk(keys, h), owners, x, keep, left);
    FirstsWithout(OwnersAlong(Walk(keys, h), owners), x);
  }

  // ---------------------------------------------------------------------------------------------
  // Looking up

  /** `sort.Search` for the first hash at or after `h`. */
  method Search(keys: seq<int>, h: int) returns (p: nat)
    requires Sorted(keys, AtMost)
    ensures p <= |keys| && Walk(keys, h) == keys[p..] + keys[..p]
  {
    var low, high := 0, |keys|;
    while low < high
      invariant 0 <= low <= high <= |keys|
      invariant (low > 0 ==> keys[low - 1] < h) && (high < |keys| ==> keys[high] >= h)
    {
      var mid := (low + high) / 2;
      if keys[mid] >= h { high := mid; } else { low := mid + 1; }
    }
    WalkIsRotation(keys, h, low);
    return low;
  }

  /** The first hash at or after `h`, or the first of all if there is none. */
  ghost predicate NextOnRing(owners: map<int, string>, h: int, k: int) {
    && k in owners
    && if k >= h then forall x | x in owners && x >= h :: k <= x
       else (forall x | x in owners :: x < h) && (forall x | x in owners :: k <= x)
  }

  lemma WalkStartsNext(keys: seq<int>, owners: map<int, string>, h: int)
    requires RingOk(keys, owners) && keys != []
    ensures Walk(keys, h) != [] && NextOnRing(owners, h, Walk(keys, h)[0])
  {
    var ahead, behind := Filter(keys, AtOrAfter(h)), Filter(keys, Ahead(h));
    SmallestFirst(keys, AtOrAfter(h));
    SmallestFirst(keys, Ahead(h));
    assert keys[0] in ahead + behind;
    var k := Walk(keys, h)[0];
    assert k in ahead || k in behind;
    forall x | x in owners ensures x in ahead || x in behind { assert x in keys; }
  }

  lemma SmallestFirst(keys: seq<int>, keep: int -> bool)
    requires Sorted(keys, AtMost)
    ensures forall x | x in Filter(keys, keep) :: Filter(keys, keep)[0] <= x
  {
    assert forall i, j | 0 <= i < j < |keys| :: AtMost(keys[i], keys[j]);
    assert Chain(keys, AtMost);
    FilterKeepsChain(keys, keep, AtMost);
    var kept := Filter(keys, keep);
    forall x | x in kept ensures kept[0] <= x {
      var i :| 0 <= i < |kept| && kept[i] == x;
      assert 0 < i ==> AtMost(kept[0], kept[i]);
    }
  }

  lemma AllAhead(keys: seq<int>, h: int, p: nat, a: seq<int>, b: seq<int>)
    requires Sorted(keys, AtMost) && p <= |keys| && (p > 0 ==> keys[p - 1] < h) && (p < |keys| ==> keys[p] >= h)
    requires a == keys[..p] && b == keys[p..]
    ensures (forall k | k in a :: k < h) && (forall k | k in b :: k >= h)
  {
    forall i | 0 <= i < |keys| ensures keys[i] < h <==> i < p {}
  }

  lemma WalkOfParts(a: seq<int>, b: seq<int>, h: int)
    requires (forall k | k in a :: k < h) && (forall k | k in b :: k >= h)
    ensures Walk(a + b, h) == b + a
  {
    hide Filter;
    var low, high := Ahead(h), AtOrAfter(h);
    FilterConcat(a, b, low);
    FilterConcat(a, b, high);
    FilterAll(a, low);
    FilterNone(b, low);
    FilterNone(a, high);
    FilterAll(b, high);
  }

  lemma WalkIsRotation(keys: seq<int>, h: int, p: nat)
    requires Sorted(keys, AtMost) && p <= |keys| && (p > 0 ==> keys[p - 1] < h) && (p < |keys| ==> keys[p] >= h)
    ensures Walk(keys, h) == keys[p..] + keys[..p]
  {
    hide Walk, Sorted;
    assert keys == keys[..p] + keys[p..];
    AllAhead(keys, h, p, keys[..p], keys[p..]);
    WalkOfParts(keys[..p], keys[p..], h);
  }

  lemma WalkCovers(keys: seq<int>, h: int)
    ensures forall k :: k in Walk(keys, h) <==> k in keys
  {
  }

  lemma {:induction false} FirstsGrow(q: seq<string>, i: nat)
    requires i <= |q|
    ensures Firsts(q[..i]) <= Firsts(q) && (i == |q| ==> Firsts(q[..i]) == Firsts(q))
  {
    if i == |q| {
      assert q[..i] == q;
    } else {
      var front := q[..|q| - 1];
      assert q == front + [q[|q| - 1]] && q[..i] == front[..i];
      FirstsGrow(front, i);
      FirstsSnoc(front, q[|q| - 1]);
    }
  }

  lemma FirstIsFirst(q: seq<string>)
    requires q != []
    ensures Firsts(q) != [] && Firsts(q)[0] == q[0]
  {
    assert q[..1] == [] + [q[0]];
    FirstsSnoc([], q[0]);
    FirstsGrow(q, 1);
  }

  lemma AllAreMet(keys: seq<int>, owners: map<int, string>, h: int)
    requires RingOk(keys, owners)
    ensures |Preference(keys, owners, h)| == |set k | k in owners :: owners[k]|
  {
    hide Firsts, Filter, Walk;
    WalkCovers(keys, h);
    var along := OwnersAlong(Walk(keys, h), owners);
    FirstsDistinct(along);
    forall k | k in owners ensures owners[k] in along {
      assert k in Walk(keys, h);
      var i :| 0 <= i < |Walk(keys, h)| && Walk(keys, h)[i] == k;
      assert along[i] == owners[k];
    }
    forall y | y in along ensures exists k :: k in owners && owners[k] == y {
      var i :| 0 <= i < |along| && along[i] == y;
      assert Walk(keys, h)[i] in Walk(keys, h);
    }
    assert Names(along) == (set k | k in owners :: owners[k]);
  }

  lemma PreferenceIs(keys: seq<int>, owners: map<int, string>, h: int)
    requires RingOk(keys, owners)
    ensures |Walk(keys, h)| == |keys| && forall k | k in Walk(keys, h) :: k in owners
    ensures keys == [] ==> Preference(keys, owners, h) == []
    ensures keys != [] ==>
              Preference(keys, owners, h) != [] && Preference(keys, owners, h)[0] == OwnerOf(owners, Walk(keys, h)[0])
  {
    WalkLength(keys, h);
    var along := OwnersAlong(Walk(keys, h), owners);
    if keys != [] { FirstIsFirst(along); }
  }

  lemma {:induction false} WalkLength(keys: seq<int>, h: int)
    ensures |Walk(keys, h)| == |keys|
  {
    if keys != [] {
      WalkLength(keys[1..], h);
    }
  }

  lemma Wraps(k: nat, n: nat)
    requires k < 2 * n
    ensures k % n == if k < n then k else k - n
  {
    if k >= n { assert k == n + (k - n); }
  }

  lemma RotationAt(keys: seq<int>, p: nat, i: nat)
    requires p <= |keys| && i < |keys|
    ensures (keys[p..] + keys[..p])[i] == keys[(p + i) % |keys|]
  {
    Wraps(p + i, |keys|);
  }

  lemma LeftIsWithout(owners: map<int, string>, left: map<int, string>, node: string, hashes: seq<int>)
    requires forall h | h in owners :: owners[h] == node <==> h in hashes
    requires (forall h :: h in left <==> h in owners && h !in hashes) && forall h | h in left :: left[h] == owners[h]
    ensures left == Without(owners, node)
  {
    var other := Without(owners, node);
    forall h ensures h in left <==> h in other {
      if h in owners { assert owners[h] == node <==> h in hashes; }
    }
    forall h | h in left ensures left[h] == other[h] {
      assert h in other && other[h] == owners[h];
    }
  }

  /** Keys and virtual nodes come as their hash values. */
  class Ring {
    var keys: seq<int>
    var owners: map<int, string>

    ghost predicate Valid()
      reads this
    {
      RingOk(keys, owners)
    }

    constructor ()
      ensures Valid() && keys == [] && owners == map[]
    {
      keys, owners := [], map[];
    }

    /** The preferred node of the key with hash `h`. */
    method Get(h: int) returns (node: string)
      requires Valid()
      ensures node == if Preference(keys, owners, h) == [] then "" else Preference(keys, owners, h)[0]
      ensures if owners == map[] then node == "" else exists k :: NextOnRing(owners, h, k) && node == owners[k]
    {
      hide Firsts, Filter, Walk, NextOnRing, Sorted;
      PreferenceIs(keys, owners, h);
      if keys == [] { assert forall k :: k !in owners; return ""; }
      var p := Search(keys, h);
      WalkStartsNext(keys, owners, h);
      RotationAt(keys, p, 0);
      return owners[keys[p % |keys|]];
    }

    method Members() returns (n: nat)
      requires Valid()
      ensures n == |set h | h in owners :: owners[h]|
    {
      return |set h | h in owners :: owners[h]|;
    }

    /** The first `n` preferred nodes, or all of them. */
    method GetN(h: int, n: nat) returns (result: seq<string>)
      requires Valid()
      ensures result == if n <= |Preference(keys, owners, h)| then Preference(keys, owners, h)[..n]
                        else Preference(keys, owners, h)
    {
      hide Firsts, Filter, Walk;
      PreferenceIs(keys, owners, h);
      if keys == [] { return []; }
      var members := Members();
      var wanted := if n > members then members else n;
      var p := Search(keys, h);
      ghost var along := OwnersAlong(Walk(keys, h), owners);
      AllAreMet(keys, owners, h);
      result := [];
      ghost var i := 0;
      var idx := p;
      while |result| < wanted
        invariant i <= |along| && idx == p + i && result == Firsts(along[..i]) && |result| <= wanted
        decreases |along| - i
      {
        FirstsGrow(along, i);
        var node := owners[keys[idx % |keys|]];
        RotationAt(keys, p, i);
        assert along[..i + 1] == along[..i] + [node];
        FirstsSnoc(along[..i], node);
        if node !in result { result := result + [node]; }
        idx, i := idx + 1, i + 1;
      }
      FirstsGrow(along, i);
    }

    /** Puts a node's virtual nodes on the ring, also if it is there already or a hash is taken. */
    method Add(node: string, hashes: seq<int>)
      requires Valid()
      modifies this
      ensures Valid() && forall h :: h in owners <==> h in old(owners) || h in hashes
      ensures forall h | h in owners :: owners[h] == if h in hashes then node else old(owners)[h]
    {
      hide Sorted;
      var added, all := owners, keys;
      for i := 0 to |hashes|
        invariant forall h :: h in added <==> h in owners || h in hashes[..i]
        invariant forall h | h in added :: added[h] == if h in hashes[..i] then node else owners[h]
        invariant all == keys + hashes[..i]
      {
        assert hashes[..i + 1] == hashes[..i] + [hashes[i]];
        all := all + [hashes[i]];
        added := added[hashes[i] := node];
      }
      assert hashes[..|hashes|] == hashes;
      keys, owners := SortInts(all), added;
    }

    /**
     * Takes a node's virtual nodes off the ring. Unless a hash of another node is among them, every key's preference
     * list loses the node and is otherwise unchanged.
     */
    method Remove(node: string, hashes: seq<int>)
      requires Valid()
      modifies this
      ensures Valid() && forall h :: h in owners <==> h in old(owners) && h !in hashes
      ensures forall h | h in owners :: owners[h] == old(owners)[h]
      ensures (forall h | h in old(owners) :: old(owners)[h] == node <==> h in hashes) ==>
                forall h :: Preference(keys, owners, h) == Filter(old(Preference(keys, owners, h)), Other(node))
    {
      hide Sorted, Preference, Filter;
      var left := owners;
      for i := 0 to |hashes|
        invariant forall h :: h in left <==> h in owners && h !in hashes[..i]
        invariant forall h | h in left :: left[h] == owners[h]
      {
        assert hashes[..i + 1] == hashes[..i] + [hashes[i]];
        left := left - {hashes[i]};
      }
      assert hashes[..|hashes|] == hashes;
      LessIsTotal(left.Keys);
      var sorted := Sort(left.Keys, Less);
      StrictIsSorted(sorted);
      if forall h | h in owners :: owners[h] == node <==> h in hashes {
        LeftIsWithout(owners, left, node, hashes);
        forall h ensures Preference(sorted, left, h) == Filter(Preference(keys, owners, h), Other(node)) {
          RemoveKeepsOrder(keys, owners, node, sorted, left, h);
        }
      }
      owners, keys := left, sorted;
    }
  }

  lemma StrictIsSorted(keys: seq<int>)
    requires Sorted(keys, Less)
    ensures Sorted(keys, AtMost)
  {
  }

  function Insert(keys: seq<int>, h: int): (r: seq<int>)
    requires Sorted(keys, AtMost)
    ensures Sorted(r, AtMost) && forall k :: k in r <==> k in keys || k == h
  {
    if keys == [] || keys[|keys| - 1] <= h then keys + [h]
    else
      var front, last := keys[..|keys| - 1], keys[|keys| - 1];
      assert keys == front + [last];
      var r := Insert(front, h);
      assert forall i | 0 <= i < |r| :: r[i] in r && (r[i] in front || r[i] == h);
      assert forall k | k in front :: k <= last;
      r + [last]
  }

  /** `sort.Ints`. */
  function SortInts(q: seq<int>): (r: seq<int>)
    ensures Sorted(r, AtMost) && forall k :: k in r <==> k in q
  {
    if q == [] then []
    else
      assert q == q[..|q| - 1] + [q[|q| - 1]];
      Insert(SortInts(q[..|q| - 1]), q[|q| - 1])
  }

  /** Only the removed node's keys move, each to the node that was second in its list. */
  lemma OnlyItsKeysMove(keys: seq<int>, owners: map<int, string>, x: string, keys': seq<int>, left: map<int, string>,
                        h: int)
    requires RingOk(keys, owners) && RingOk(keys', left) && left == Without(owners, x) && keys != []
    ensures Preference(keys, owners, h) != []
    ensures Preference(keys, owners, h)[0] != x ==>
              Preference(keys', left, h) != [] && Preference(keys', left, h)[0] == Preference(keys, owners, h)[0]
    ensures Preference(keys, owners, h)[0] == x ==> Preference(keys', left, h) == Preference(keys, owners, h)[1..]
  {
    PreferenceIs(keys, owners, h);
    RemoveKeepsOrder(keys, owners, x, keys', left, h);
    FirstsDistinct(OwnersAlong(Walk(keys, h), owners));
    WithoutFirst(Preference(keys, owners, h), x);
  }

  lemma WithoutFirst(q: seq<string>, x: string)
    requires q != [] && Distinct(q)
    ensures q[0] != x ==> Filter(q, Other(x)) != [] && Filter(q, Other(x))[0] == q[0]
    ensures q[0] == x ==> Filter(q, Other(x)) == q[1..]
  {
    assert q == [q[0]] + q[1..];
    FilterCons(q[0], q[1..], Other(x));
    if q[0] == x { FilterAll(q[1..], Other(x)); }
  }
}
