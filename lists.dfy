/**
 * Sequence operations that the storefront code takes from JavaScript's
 * arrays: `filter`, `reduce` with a numeric accumulator starting at 0, and
 * the stable `sort` with a numeric comparator. Each is given here once, with
 * the facts the cart and catalog models rely on.
 */
module Lists {

  /** The absent/present result of `find` and of the reductions without an initial value. */
  datatype Option<T> = None | Some(value: T)

  // ---------------------------------------------------------------------------
  // Subsequences

  /** `a` is obtained from `b` by deleting elements, keeping the order of the rest. */
  predicate IsSubsequence<T(==)>(a: seq<T>, b: seq<T>)
    decreases |b|
  {
    a == [] ||
    (b != [] &&
     ((a[0] == b[0] && IsSubsequence(a[1..], b[1..])) || IsSubsequence(a, b[1..])))
  }

  // ---------------------------------------------------------------------------
  // Array.prototype.filter

  /** `s.filter(p)`: the elements of `s` that satisfy `p`, in their original order. */
  function Filter<T(!new)>(p: T -> bool, s: seq<T>): (r: seq<T>)
    ensures |r| <= |s|
    ensures forall x :: x in r <==> x in s && p(x)
  {
    if s == [] then []
    else
      assert forall x :: x in s <==> x == s[0] || x in s[1..];
      (if p(s[0]) then [s[0]] else []) + Filter(p, s[1..])
  }

  lemma {:induction false} FilterIsSubsequence<T(!new)>(p: T -> bool, s: seq<T>)
    ensures IsSubsequence(Filter(p, s), s)
  {
    if s != [] {
      var r := Filter(p, s[1..]);
      FilterIsSubsequence(p, s[1..]);
      if p(s[0]) {
        assert Filter(p, s) == [s[0]] + r;
        assert ([s[0]] + r)[0] == s[0] && ([s[0]] + r)[1..] == r;
      } else {
        assert Filter(p, s) == r;
      }
    }
  }

  /** `filter` keeps every copy of a passing element and no copy of a failing one. */
  lemma {:induction false} FilterMultiset<T(!new)>(p: T -> bool, s: seq<T>)
    ensures forall x :: multiset(Filter(p, s))[x] == if p(x) then multiset(s)[x] else 0
  {
    if s != [] {
      FilterMultiset(p, s[1..]);
      assert s == [s[0]] + s[1..];
    }
  }

  /** Filtering a concatenation filters each part. */
  lemma {:induction false} FilterAppend<T(!new)>(p: T -> bool, a: seq<T>, b: seq<T>)
    ensures Filter(p, a + b) == Filter(p, a) + Filter(p, b)
  {
    if a == [] {
      assert a + b == b;
    } else {
      assert (a + b)[0] == a[0];
      assert (a + b)[1..] == a[1..] + b;
      FilterAppend(p, a[1..], b);
    }
  }

  /** A filter that every element passes returns its input unchanged. */
  lemma {:induction false} FilterKeepsAll<T(!new)>(p: T -> bool, s: seq<T>)
    requires forall x :: x in s ==> p(x)
    ensures Filter(p, s) == s
  {
    if s != [] {
      assert s[0] in s;
      assert forall x :: x in s[1..] ==> x in s;
      FilterKeepsAll(p, s[1..]);
      assert [s[0]] + s[1..] == s;
    }
  }

  /** A filter that no element passes returns the empty sequence. */
  lemma {:induction false} FilterDropsAll<T(!new)>(p: T -> bool, s: seq<T>)
    requires forall x :: x in s ==> !p(x)
    ensures Filter(p, s) == []
  {
    if s != [] {
      assert s[0] in s;
      assert forall x :: x in s[1..] ==> x in s;
      FilterDropsAll(p, s[1..]);
    }
  }

  /** Filters by predicates that agree everywhere give the same result. */
  lemma {:induction false} FilterExtensional<T(!new)>(p: T -> bool, q: T -> bool, s: seq<T>)
    requires forall x :: p(x) == q(x)
    ensures Filter(p, s) == Filter(q, s)
  {
    if s != [] {
      FilterExtensional(p, q, s[1..]);
    }
  }

  // ---------------------------------------------------------------------------
  // Array.prototype.reduce((acc, x) => acc + f(x), 0)

  /** The mathematical sum of `f` over `s`: the reference the reductions are measured against. */
  function Sum<T>(s: seq<T>, f: T -> int): int
  {
    if s == [] then 0 else f(s[0]) + Sum(s[1..], f)
  }

  /** The left fold `reduce((acc, x) => acc + f(x), acc)`, element by element from the front. */
  function Reduce<T>(acc: int, s: seq<T>, f: T -> int): (r: int)
    ensures r == acc + Sum(s, f)
    decreases s
  {
    if s == [] then acc else Reduce(acc + f(s[0]), s[1..], f)
  }

  lemma {:induction false} SumAppend<T>(a: seq<T>, b: seq<T>, f: T -> int)
    ensures Sum(a + b, f) == Sum(a, f) + Sum(b, f)
  {
    if a == [] {
      assert a + b == b;
    } else {
      assert (a + b)[0] == a[0];
      assert (a + b)[1..] == a[1..] + b;
      SumAppend(a[1..], b, f);
    }
  }

  /** Deleting position `k` takes its term out of the sum. */
  lemma SumWithout<T>(s: seq<T>, k: int, f: T -> int)
    requires 0 <= k < |s|
    ensures Sum(s[..k] + s[k + 1..], f) == Sum(s, f) - f(s[k])
  {
    assert s == s[..k] + ([s[k]] + s[k + 1..]);
    SumAppend(s[..k], [s[k]] + s[k + 1..], f);
    SumAppend([s[k]], s[k + 1..], f);
    SumAppend(s[..k], s[k + 1..], f);
  }

  /** Replacing position `k` by `y` replaces its term in the sum. */
  lemma SumUpdate<T>(s: seq<T>, k: int, y: T, f: T -> int)
    requires 0 <= k < |s|
    ensures Sum(s[k := y], f) == Sum(s, f) - f(s[k]) + f(y)
  {
    assert s == s[..k] + ([s[k]] + s[k + 1..]);
    assert s[k := y] == s[..k] + ([y] + s[k + 1..]);
    SumAppend(s[..k], [s[k]] + s[k + 1..], f);
    SumAppend([s[k]], s[k + 1..], f);
    SumAppend(s[..k], [y] + s[k + 1..], f);
    SumAppend([y], s[k + 1..], f);
  }

  /** Every term at least `lo` makes the sum at least `|s| * lo`. */
  lemma {:induction false} SumAtLeast<T>(s: seq<T>, f: T -> int, lo: int)
    requires forall x :: x in s ==> f(x) >= lo
    ensures Sum(s, f) >= |s| * lo
  {
    if s != [] {
      var t := s[1..];
      assert s[0] in s;
      forall x | x in t ensures f(x) >= lo {
        assert x in s;
      }
      SumAtLeast(t, f, lo);
      assert Sum(s, f) == f(s[0]) + Sum(t, f);
      assert |s| * lo == (|t| + 1) * lo == |t| * lo + lo;
    }
  }

  /** Every term at most `hi` makes the sum at most `|s| * hi`. */
  lemma {:induction false} SumAtMost<T>(s: seq<T>, f: T -> int, hi: int)
    requires forall x :: x in s ==> f(x) <= hi
    ensures Sum(s, f) <= |s| * hi
  {
    if s != [] {
      var t := s[1..];
      assert s[0] in s;
      forall x | x in t ensures f(x) <= hi {
        assert x in s;
      }
      SumAtMost(t, f, hi);
      assert Sum(s, f) == f(s[0]) + Sum(t, f);
      assert |s| * hi == (|t| + 1) * hi == |t| * hi + hi;
    }
  }

  // ---------------------------------------------------------------------------
  // Distinct elements and first positions

  predicate NoDuplicates<T(==)>(s: seq<T>)
  {
    forall i, j :: 0 <= i < j < |s| ==> s[i] != s[j]
  }

  /** The position of the first `x` in `s`, or `|s|` when there is none. */
  function IndexOf<T(==)>(s: seq<T>, x: T): (r: nat)
    ensures r <= |s|
    ensures r < |s| ==> s[r] == x
    ensures forall j :: 0 <= j < r ==> s[j] != x
  {
    if s == [] then 0
    else if s[0] == x then 0
    else 1 + IndexOf(s[1..], x)
  }

  // ---------------------------------------------------------------------------
  // [...s].sort((a, b) => key(a) - key(b)), a stable sort

  predicate SortedByKey<T>(s: seq<T>, key: T -> int)
  {
    forall i, j :: 0 <= i < j < |s| ==> key(s[i]) <= key(s[j])
  }

  /** The elements of `s` whose key is `v`, in the order of `s`. */
  function WithKey<T(!new)>(s: seq<T>, key: T -> int, v: int): seq<T>
  {
    Filter((x: T) => key(x) == v, s)
  }

  /** `WithKey` is the filter by any predicate that holds exactly at key `v`. */
  lemma WithKeyIsFilter<T(!new)>(s: seq<T>, key: T -> int, v: int, p: T -> bool)
    requires forall x :: p(x) == (key(x) == v)
    ensures WithKey(s, key, v) == Filter(p, s)
  {
    FilterExtensional((x: T) => key(x) == v, p, s);
  }

  /** Places `x` in front of the first element whose key is not smaller. */
  function InsertByKey<T(!new)>(x: T, s: seq<T>, key: T -> int): (r: seq<T>)
    ensures multiset(r) == multiset(s) + multiset{x}
  {
    if s == [] || key(x) <= key(s[0]) then [x] + s
    else
      assert s == [s[0]] + s[1..];
      [s[0]] + InsertByKey(x, s[1..], key)
  }

  lemma {:induction false} InsertByKeyMembers<T(!new)>(x: T, s: seq<T>, key: T -> int)
    ensures forall y :: y in InsertByKey(x, s, key) <==> y == x || y in s
  {
    if s != [] && key(x) > key(s[0]) {
      InsertByKeyMembers(x, s[1..], key);
      assert forall y :: y in s <==> y == s[0] || y in s[1..];
    }
  }

  lemma {:induction false} InsertByKeySorted<T(!new)>(x: T, s: seq<T>, key: T -> int)
    requires SortedByKey(s, key)
    ensures SortedByKey(InsertByKey(x, s, key), key)
  {
    if s != [] && key(x) > key(s[0]) {
      var rest := InsertByKey(x, s[1..], key);
      InsertByKeySorted(x, s[1..], key);
      InsertByKeyMembers(x, s[1..], key);
      forall y | y in s[1..] ensures key(s[0]) <= key(y) {
        var j :| 0 <= j < |s[1..]| && s[1..][j] == y;
        assert s[j + 1] == y;
      }
      assert InsertByKey(x, s, key) == [s[0]] + rest;
    }
  }

  /** Insertion sort: the sorted tail, with the head inserted before its equals. */
  function SortByKey<T(!new)>(s: seq<T>, key: T -> int): (r: seq<T>)
    ensures multiset(r) == multiset(s)
    ensures SortedByKey(r, key)
  {
    if s == [] then []
    else
      assert s == [s[0]] + s[1..];
      InsertByKeySorted(s[0], SortByKey(s[1..], key), key);
      InsertByKey(s[0], SortByKey(s[1..], key), key)
  }

  lemma {:induction false} InsertByKeyStable<T(!new)>(x: T, s: seq<T>, key: T -> int, v: int)
    ensures WithKey(InsertByKey(x, s, key), key, v)
            == (if key(x) == v then [x] else []) + WithKey(s, key, v)
  {
    var r := InsertByKey(x, s, key);
    if s == [] || key(x) <= key(s[0]) {
      assert r[0] == x && r[1..] == s;
    } else {
      var rest := InsertByKey(x, s[1..], key);
      assert r[0] == s[0] && r[1..] == rest;
      InsertByKeyStable(x, s[1..], key, v);
      assert WithKey(r, key, v) == (if key(s[0]) == v then [s[0]] else []) + WithKey(rest, key, v);
      assert WithKey(s, key, v) == (if key(s[0]) == v then [s[0]] else []) + WithKey(s[1..], key, v);
    }
  }

  /** Elements with equal keys leave the sort in the order they entered it. */
  lemma {:induction false} SortByKeyStable<T(!new)>(s: seq<T>, key: T -> int, v: int)
    ensures WithKey(SortByKey(s, key), key, v) == WithKey(s, key, v)
  {
    if s != [] {
      SortByKeyStable(s[1..], key, v);
      InsertByKeyStable(s[0], SortByKey(s[1..], key), key, v);
      FilterAppend((y: T) => key(y) == v, [s[0]], s[1..]);
      assert s == [s[0]] + s[1..];
    }
  }
}
