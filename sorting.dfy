/** `DataFrame.sort(col)` followed by `.head()`. pandas' sort is not stable,
    so what is claimed of a sorted table is only that it is ordered by the
    sort column and is a permutation of its input; `SortBy` is one such
    ordering. */
module Sorting {

  /** `le` is total and transitive: ties allowed, as with a sort column. */
  ghost predicate TotalPreorder<T(!new)>(le: (T, T) -> bool)
  {
    && (forall a, b :: le(a, b) || le(b, a))
    && (forall a, b, c :: le(a, b) && le(b, c) ==> le(a, c))
  }

  predicate SortedBy<T>(s: seq<T>, le: (T, T) -> bool)
  {
    forall i, j :: 0 <= i < j < |s| ==> le(s[i], s[j])
  }

  function InsertBy<T(!new)>(x: T, s: seq<T>, le: (T, T) -> bool): (r: seq<T>)
    requires TotalPreorder(le)
    requires SortedBy(s, le)
    ensures SortedBy(r, le)
    ensures multiset(r) == multiset(s) + multiset{x}
  {
    if s == [] then [x]
    else if le(x, s[0]) then [x] + s
    else
      var rest := InsertBy(x, s[1..], le);
      InsertedAfterHead(x, s, rest, le);
      [s[0]] + rest
  }

  lemma {:induction false} InsertedAfterHead<T(!new)>(x: T, s: seq<T>, rest: seq<T>, le: (T, T) -> bool)
    requires TotalPreorder(le)
    requires s != [] && SortedBy(s, le) && !le(x, s[0])
    requires SortedBy(rest, le) && multiset(rest) == multiset(s[1..]) + multiset{x}
    ensures SortedBy([s[0]] + rest, le)
    ensures multiset([s[0]] + rest) == multiset(s) + multiset{x}
  {
    assert s == [s[0]] + s[1..];
    forall j | 0 <= j < |rest| ensures le(s[0], rest[j]) {
      assert rest[j] in multiset(rest);
      if rest[j] != x {
        assert rest[j] in multiset(s[1..]);
        var k :| 0 <= k < |s[1..]| && s[1..][k] == rest[j];
        assert s[k + 1] == rest[j];
      }
    }
    var r := [s[0]] + rest;
    forall i, j | 0 <= i < j < |r| ensures le(r[i], r[j]) {
      if i > 0 { assert r[i] == rest[i - 1] && r[j] == rest[j - 1]; }
      else { assert r[j] == rest[j - 1]; }
    }
  }

  /** Some ordering of `s` by `le` (insertion sort). */
  function SortBy<T(!new)>(s: seq<T>, le: (T, T) -> bool): (r: seq<T>)
    requires TotalPreorder(le)
    ensures SortedBy(r, le)
    ensures multiset(r) == multiset(s)
  {
    if s == [] then []
    else
      assert s == [s[0]] + s[1..];
      InsertBy(s[0], SortBy(s[1..], le), le)
  }

  /** `DataFrame.head(n)`: the first `n` rows, or all of them when fewer. */
  function Take<T>(s: seq<T>, n: nat): (r: seq<T>)
    ensures |r| == if |s| < n then |s| else n
    ensures r == s[..|r|]
  {
    if |s| < n then s else s[..n]
  }

  /** Cutting a sorted table to its first `n` rows keeps rows that rank no
      later than every row it leaves out. */
  lemma {:induction false} TakeKeepsLeast<T>(s: seq<T>, n: nat, le: (T, T) -> bool)
    requires SortedBy(s, le)
    ensures forall x, y :: x in Take(s, n) && y in multiset(s) - multiset(Take(s, n)) ==> le(x, y)
  {
    var t := Take(s, n);
    var d := s[|t|..];
    assert s == t + d;
    assert multiset(s) - multiset(t) == multiset(d);
    forall x, y | x in t && y in multiset(s) - multiset(t) ensures le(x, y) {
      var i :| 0 <= i < |t| && t[i] == x;
      assert y in d;
      var j :| 0 <= j < |d| && d[j] == y;
      assert s[i] == x && s[|t| + j] == y;
    }
  }

  /** `df[mask]`: the elements satisfying `p`, in order. */
  function Filter<T(!new)>(s: seq<T>, p: T -> bool): (r: seq<T>)
    ensures forall x :: x in r <==> x in s && p(x)
    ensures forall x :: multiset(r)[x] == if p(x) then multiset(s)[x] else 0
    ensures |r| <= |s|
  {
    if s == [] then []
    else
      var init := s[..|s| - 1];
      var last := s[|s| - 1];
      assert s == init + [last];
      Filter(init, p) + (if p(last) then [last] else [])
  }

  /** Filtering one more element. */
  lemma {:induction false} FilterStep<T(!new)>(s: seq<T>, i: nat, p: T -> bool)
    requires i < |s|
    ensures Filter(s[..i + 1], p) == Filter(s[..i], p) + (if p(s[i]) then [s[i]] else [])
  {
    assert s[..i + 1][..i] == s[..i];
  }

  /** Two sequences that agree position by position on their tests keep
      equally many elements when filtered. */
  lemma {:induction false} FilterCountsAgree<A(!new), B(!new)>(s: seq<A>, t: seq<B>, p: A -> bool, q: B -> bool)
    requires |s| == |t| && forall i :: 0 <= i < |s| ==> (p(s[i]) <==> q(t[i]))
    ensures |Filter(s, p)| == |Filter(t, q)|
  {
    if s != [] {
      FilterCountsAgree(s[..|s| - 1], t[..|t| - 1], p, q);
    }
  }

  /** Filtering by `p` and then by `q` is filtering by both at once. */
  lemma {:induction false} FilterTwice<T(!new)>(s: seq<T>, p: T -> bool, q: T -> bool)
    ensures Filter(Filter(s, p), q) == Filter(s, Both(p, q))
  {
    if s != [] {
      var init := s[..|s| - 1];
      var last := s[|s| - 1];
      var f := Filter(init, p);
      FilterTwice(init, p, q);
      assert Filter(s, Both(p, q)) == Filter(init, Both(p, q)) + (if p(last) && q(last) then [last] else []);
      if p(last) {
        assert Filter(s, p) == f + [last];
        FilterSnoc(f, last, q);
      } else {
        assert Filter(s, p) == f;
      }
    }
  }

  function Both<T>(p: T -> bool, q: T -> bool): T -> bool
  {
    (x: T) => p(x) && q(x)
  }

  lemma {:induction false} FilterSnoc<T(!new)>(s: seq<T>, x: T, p: T -> bool)
    ensures Filter(s + [x], p) == Filter(s, p) + (if p(x) then [x] else [])
  {
    assert (s + [x])[..|s|] == s;
  }

  /** Filtering a sorted sequence leaves it sorted. */
  lemma {:induction false} FilterSorted<T(!new)>(s: seq<T>, p: T -> bool, le: (T, T) -> bool)
    requires SortedBy(s, le)
    ensures SortedBy(Filter(s, p), le)
  {
    if s != [] {
      var init := s[..|s| - 1];
      var last := s[|s| - 1];
      FilterSorted(init, p, le);
      var f := Filter(init, p);
      forall x | x in f ensures le(x, last) {
        var i :| 0 <= i < |init| && init[i] == x;
        assert s[i] == x;
      }
      var r := f + (if p(last) then [last] else []);
      forall i, j | 0 <= i < j < |r| ensures le(r[i], r[j]) {
        if j == |f| { assert r[i] in f; }
      }
    }
  }

  /** Filtering two permutations of each other gives two permutations of
      each other. */
  lemma {:induction false} FilterPermutation<T(!new)>(a: seq<T>, b: seq<T>, p: T -> bool)
    requires multiset(a) == multiset(b)
    ensures multiset(Filter(a, p)) == multiset(Filter(b, p))
    ensures |Filter(a, p)| == |Filter(b, p)|
  {
    assert multiset(Filter(a, p)) == multiset(Filter(b, p));
    assert |multiset(Filter(a, p))| == |Filter(a, p)|;
  }

  /** The first `n` elements and the rest make up the whole. */
  lemma {:induction false} TakeSplits<T>(s: seq<T>, n: nat)
    ensures multiset(s) == multiset(Take(s, n)) + multiset(s[|Take(s, n)|..])
    ensures multiset(Take(s, n)) <= multiset(s)
    ensures multiset(s) - multiset(Take(s, n)) == multiset(s[|Take(s, n)|..])
    ensures forall x :: x in Take(s, n) ==> x in s
  {
    var r := Take(s, n);
    assert s == r + s[|r|..];
  }

  /** Sorting, filtering and cutting to `n` rows keeps the first min(n, m) of
      the m matching elements in `le` order: the result is drawn from them,
      and none left out ranks before one kept. */
  lemma {:induction false} TopOfFiltered<T(!new)>(s: seq<T>, p: T -> bool, le: (T, T) -> bool, n: nat)
    requires TotalPreorder(le)
    ensures var r := Take(Filter(SortBy(s, le), p), n);
            var q := Filter(s, p);
            && SortedBy(r, le)
            && (forall x :: x in r ==> x in s && p(x))
            && multiset(r) <= multiset(q)
            && |r| == (if |q| < n then |q| else n)
            && forall x, y :: x in r && y in multiset(q) - multiset(r) ==> le(x, y)
  {
    TopOfFilteredSorted(s, SortBy(s, le), p, le, n);
  }

  lemma {:induction false} TopOfFilteredSorted<T(!new)>(s: seq<T>, sorted: seq<T>, p: T -> bool, le: (T, T) -> bool, n: nat)
    requires SortedBy(sorted, le) && multiset(sorted) == multiset(s)
    ensures var r := Take(Filter(sorted, p), n);
            var q := Filter(s, p);
            && SortedBy(r, le)
            && (forall x :: x in r ==> x in s && p(x))
            && multiset(r) <= multiset(q)
            && |r| == (if |q| < n then |q| else n)
            && forall x, y :: x in r && y in multiset(q) - multiset(r) ==> le(x, y)
  {
    var mine := Filter(sorted, p);
    FilterSorted(sorted, p, le);
    FilterPermutation(sorted, s, p);
    forall x | x in mine ensures x in s && p(x) {
      assert x in multiset(sorted);
    }
    TakeOfPermutation(mine, Filter(s, p), n, le);
  }

  /** Cutting a sorted rearrangement of `q` to `n` rows keeps rows of `q`
      that rank no later than every row of `q` it leaves out. */
  lemma {:induction false} TakeOfPermutation<T>(mine: seq<T>, q: seq<T>, n: nat, le: (T, T) -> bool)
    requires SortedBy(mine, le) && multiset(mine) == multiset(q)
    ensures var r := Take(mine, n);
            && SortedBy(r, le)
            && (forall x :: x in r ==> x in mine)
            && multiset(r) <= multiset(q)
            && |r| == (if |q| < n then |q| else n)
            && forall x, y :: x in r && y in multiset(q) - multiset(r) ==> le(x, y)
  {
    TakeKeepsLeast(mine, n, le);
    TakeSplits(mine, n);
    assert |multiset(mine)| == |mine| && |multiset(q)| == |q|;
  }

  /** Sorting and cutting to `n` rows keeps the first min(n, |s|) elements of
      `s` in `le` order: the result is drawn from `s`, and none left out
      ranks before one kept. */
  lemma {:induction false} TopOf<T(!new)>(s: seq<T>, le: (T, T) -> bool, n: nat)
    requires TotalPreorder(le)
    ensures var r := Take(SortBy(s, le), n);
            && SortedBy(r, le)
            && (forall x :: x in r ==> x in s)
            && multiset(r) <= multiset(s)
            && |r| == (if |s| < n then |s| else n)
            && forall x, y :: x in r && y in multiset(s) - multiset(r) ==> le(x, y)
  {
    TopOfSorted(s, SortBy(s, le), le, n);
  }

  lemma {:induction false} TopOfSorted<T>(s: seq<T>, sorted: seq<T>, le: (T, T) -> bool, n: nat)
    requires SortedBy(sorted, le) && multiset(sorted) == multiset(s)
    ensures var r := Take(sorted, n);
            && SortedBy(r, le)
            && (forall x :: x in r ==> x in s)
            && multiset(r) <= multiset(s)
            && |r| == (if |s| < n then |s| else n)
            && forall x, y :: x in r && y in multiset(s) - multiset(r) ==> le(x, y)
  {
    TakeKeepsLeast(sorted, n, le);
    TakeSplits(sorted, n);
    var r := Take(sorted, n);
    assert |s| == |sorted| by {
      assert |multiset(s)| == |s| && |multiset(sorted)| == |sorted|;
    }
    forall x | x in r ensures x in s {
      assert x in multiset(sorted);
    }
    forall i, j | 0 <= i < j < |r| ensures le(r[i], r[j]) {
      assert r[i] == sorted[i] && r[j] == sorted[j];
    }
  }

  /** No element occurs twice. */
  predicate NoDuplicates<T(==)>(s: seq<T>)
  {
    forall i, j :: 0 <= i < j < |s| ==> s[i] != s[j]
  }

  /** In a sequence without duplicates every element occurs once. */
  lemma {:induction false} OccursOnce<T>(s: seq<T>)
    requires NoDuplicates(s)
    ensures forall x :: multiset(s)[x] <= 1
  {
    if s != [] {
      var init := s[..|s| - 1];
      var last := s[|s| - 1];
      OccursOnce(init);
      assert s == init + [last];
      forall i | 0 <= i < |init| ensures init[i] != last {
        assert s[i] == init[i];
      }
    }
  }

  /** Drawing from a sequence without duplicates gives none either. */
  lemma {:induction false} SubNoDuplicates<T>(t: seq<T>, s: seq<T>)
    requires NoDuplicates(s) && multiset(t) <= multiset(s)
    ensures NoDuplicates(t)
  {
    OccursOnce(s);
    forall i, j | 0 <= i < j < |t| ensures t[i] != t[j] {
      assert t == t[..j] + [t[j]] + t[j + 1..];
      assert t[i] in t[..j];
      assert multiset(t[..j])[t[i]] >= 1;
      assert multiset(t)[t[j]] >= multiset(t[..j])[t[j]] + 1;
    }
  }
}
