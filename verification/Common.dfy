/** Result types and Go's fixed-width unsigned integer, shared by every module. */
module Common {

  datatype Option<+T> = None | Some(value: T)

  datatype Result<+T> = Ok(value: T) | Err(reason: string)

  const MAX_U64: nat := 0xFFFF_FFFF_FFFF_FFFF

  /** Go's `uint64`. Increments that may wrap are written out with `IncWrap`. */
  type u64 = x: int | 0 <= x <= 0xFFFF_FFFF_FFFF_FFFF

  /** `x + 1` on `uint64`: the largest value wraps to zero. */
  function IncWrap(x: u64): (r: u64)
    ensures r == 0 <==> x == MAX_U64
    ensures r != 0 ==> r == x + 1
  {
    if x == MAX_U64 then 0 else x + 1
  }

  /** A map read with Go's zero default. */
  function GetOrZero<K>(m: map<K, u64>, k: K): u64 {
    if k in m then m[k] else 0
  }
}

/** Sorting as Go's `sort` package is used here: by a strict total order. */
module Sorting {

  ghost predicate StrictTotalOn<T>(s: set<T>, less: (T, T) -> bool) {
    && (forall x | x in s :: !less(x, x))
    && (forall x, y | x in s && y in s && x != y :: less(x, y) || less(y, x))
    && (forall x, y, z | x in s && y in s && z in s && less(x, y) && less(y, z) :: less(x, z))
  }

  ghost predicate Sorted<T>(q: seq<T>, less: (T, T) -> bool) {
    forall i, j | 0 <= i < j < |q| :: less(q[i], q[j])
  }

  /** Lexicographic order on strings, the order of `sort.Strings`. */
  predicate StringLess(a: string, b: string) {
    if b == "" then false
    else if a == "" then true
    else if a[0] != b[0] then a[0] < b[0]
    else StringLess(a[1..], b[1..])
  }

  /** At the first place where they differ `a` has ended or has the smaller character. */
  ghost predicate DifferAt(a: string, b: string, k: nat) {
    k <= |a| && k < |b| && a[..k] == b[..k] && (k == |a| || a[k] < b[k])
  }

  lemma {:induction false} StringLessIsLexicographic(a: string, b: string)
    ensures StringLess(a, b) <==> exists k: nat :: DifferAt(a, b, k)
  {
    if b == "" || a == "" {
      assert b != "" ==> DifferAt(a, b, 0);
    } else if a[0] != b[0] {
      assert a[0] < b[0] ==> DifferAt(a, b, 0);
      forall k: nat | k > 0 && k <= |a| && k <= |b| ensures a[..k] != b[..k] { assert a[..k][0] != b[..k][0]; }
    } else {
      var x, y := a[1..], b[1..];
      StringLessIsLexicographic(x, y);
      assert a == [a[0]] + x && b == [a[0]] + y;
      forall k: nat ensures DifferAt(a, b, k + 1) <==> DifferAt(x, y, k) { DifferLater(a[0], x, y, k); }
      if k: nat :| DifferAt(a, b, k) {
        assert k > 0 && DifferAt(x, y, k - 1);
      }
      if k: nat :| DifferAt(x, y, k) {
        assert DifferAt(a, b, k + 1);
      }
    }
  }

  lemma DifferLater(c: char, x: string, y: string, k: nat)
    ensures DifferAt([c] + x, [c] + y, k + 1) <==> DifferAt(x, y, k)
  {
    var a, b := [c] + x, [c] + y;
    if k <= |x| && k <= |y| {
      assert a[..k + 1] == [c] + x[..k] && b[..k + 1] == [c] + y[..k];
      assert a[..k + 1][1..] == x[..k] && b[..k + 1][1..] == y[..k];
    }
  }

  lemma {:induction false} StringLessTotal(a: string, b: string)
    ensures !StringLess(a, a)
    ensures a != b ==> StringLess(a, b) || StringLess(b, a)
    decreases |a| + |b|
  {
    if a != "" {
      StringLessTotal(a[1..], if b == "" then b else b[1..]);
      if b != "" && a[0] == b[0] && a != b {
        assert a == [a[0]] + a[1..] && b == [b[0]] + b[1..];
      }
    }
  }

  lemma {:induction false} StringLessTransitive(a: string, b: string, c: string)
    requires StringLess(a, b) && StringLess(b, c)
    ensures StringLess(a, c)
  {
    if a != "" && a[0] == b[0] == c[0] {
      StringLessTransitive(a[1..], b[1..], c[1..]);
    }
  }

  lemma StringsStrictTotal(s: set<string>)
    ensures StrictTotalOn(s, StringLess)
  {
    forall x, y | x in s && y in s
      ensures !StringLess(x, x) && (x != y ==> StringLess(x, y) || StringLess(y, x))
    {
      StringLessTotal(x, y);
    }
    forall x, y, z | x in s && y in s && z in s && StringLess(x, y) && StringLess(y, z)
      ensures StringLess(x, z)
    {
      StringLessTransitive(x, y, z);
    }
  }

  lemma SplitIsSorted<T>(lo: seq<T>, x: T, hi: seq<T>, less: (T, T) -> bool)
    requires Sorted(lo, less) && Sorted(hi, less)
    requires forall y | y in lo :: less(y, x)
    requires forall y | y in hi :: less(x, y)
    requires forall y, z | y in lo && z in hi :: less(y, z)
    ensures Sorted(lo + [x] + hi, less)
  {
  }

  /** Insertion of one element into a sorted sequence. */
  method Insert<T(==)>(q: seq<T>, x: T, less: (T, T) -> bool) returns (r: seq<T>)
    requires Sorted(q, less) && x !in q
    requires StrictTotalOn((set y | y in q) + {x}, less)
    ensures Sorted(r, less)
    ensures |r| == |q| + 1
    ensures forall y :: y in r <==> y in q || y == x
  {
    var k := 0;
    while k < |q| && less(q[k], x)
      invariant 0 <= k <= |q|
      invariant forall i | 0 <= i < k :: less(q[i], x)
    {
      k := k + 1;
    }
    var lo, hi := q[..k], q[k..];
    r := lo + [x] + hi;
    assert q == lo + hi;
    forall y | y in hi ensures less(x, y) {
      assert q[k] in q && y in q;
    }
    SplitIsSorted(lo, x, hi, less);
  }

  /** The elements of a set, each once, in increasing order. */
  method Sort<T(==)>(s: set<T>, less: (T, T) -> bool) returns (q: seq<T>)
    requires StrictTotalOn(s, less)
    ensures Sorted(q, less)
    ensures |q| == |s|
    ensures forall x :: x in q <==> x in s
  {
    q := [];
    var rest := s;
    while rest != {}
      invariant rest <= s
      invariant Sorted(q, less)
      invariant |q| == |s| - |rest|
      invariant forall x :: x in q <==> x in s && x !in rest
      decreases rest
    {
      var x :| x in rest;
      assert (set y | y in q) + {x} <= s;
      q := Insert(q, x, less);
      rest := rest - {x};
    }
  }

  method SortStrings(s: set<string>) returns (q: seq<string>)
    ensures Sorted(q, StringLess)
    ensures |q| == |s|
    ensures forall x :: x in q <==> x in s
  {
    StringsStrictTotal(s);
    q := Sort(s, StringLess);
  }
}

/** Numbers as `%d` and `strconv.Itoa` print them. */
module Numerals {

  function Decimal(n: nat): string {
    if n < 10 then ["0123456789"[n]] else Decimal(n / 10) + ["0123456789"[n % 10]]
  }

  predicate Digits(s: string) {
    forall i | 0 <= i < |s| :: '0' <= s[i] <= '9'
  }

  /** The number a string of digits stands for. */
  function Value(s: string): nat
    requires Digits(s)
  {
    if s == "" then 0 else 10 * Value(s[..|s| - 1]) + (s[|s| - 1] as int - '0' as int)
  }

  /** `s` is how `n` is written: no leading zero. */
  predicate Numeral(s: string, n: nat) {
    s != "" && Digits(s) && Value(s) == n && (|s| > 1 ==> s[0] != '0')
  }

  lemma DigitOf(n: nat)
    requires n < 10
    ensures "0123456789"[n] as int == '0' as int + n && '0' <= "0123456789"[n] <= '9'
  {
  }

  lemma {:induction false} DecimalIsNumeral(n: nat)
    ensures Numeral(Decimal(n), n) && (n > 0 ==> Decimal(n)[0] != '0')
  {
    DigitOf(n % 10);
    if n >= 10 {
      DecimalIsNumeral(n / 10);
      assert Decimal(n)[..|Decimal(n)| - 1] == Decimal(n / 10);
    } else {
      assert Decimal(n)[..0] == "";
    }
  }
}
