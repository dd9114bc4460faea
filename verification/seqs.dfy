/**
 Sequence helpers that the library gets from Python builtins: list
 comprehensions with a condition, `dict` built by repeated assignment,
 `collections.Counter` key order, and `Series.dropna()`.

 The recursive definitions peel off the LAST element, so that a loop that
 scans a list left to right extends them one step at a time.
 */
module Seqs {
  import opened Base

  /** `a` is an order-preserving subsequence of `b` (greedy matching from
      the right end, which finds a embedding whenever one exists). */
  predicate IsSubsequence<T(==)>(a: seq<T>, b: seq<T>)
    decreases |b|
  {
    if |a| == 0 then true
    else if |b| == 0 then false
    else if a[|a| - 1] == b[|b| - 1] then IsSubsequence(a[..|a| - 1], b[..|b| - 1])
    else IsSubsequence(a, b[..|b| - 1])
  }

  /** `[x for x in xs if p(x)]`. */
  function Filter<T>(xs: seq<T>, p: T -> bool): (r: seq<T>)
    ensures |r| <= |xs|
    ensures forall i :: 0 <= i < |r| ==> p(r[i])
    decreases |xs|
  {
    if |xs| == 0 then []
    else
      var init := Filter(xs[..|xs| - 1], p);
      if p(xs[|xs| - 1]) then init + [xs[|xs| - 1]] else init
  }

  /** The filter keeps every occurrence of a selected value and no
      occurrence of any other value, in the original order: together the
      two facts pin the result down completely. */
  lemma {:induction false} FilterSpec<T>(xs: seq<T>, p: T -> bool)
    ensures IsSubsequence(Filter(xs, p), xs)
    ensures forall x :: multiset(Filter(xs, p))[x] == if p(x) then multiset(xs)[x] else 0
    decreases |xs|
  {
    if |xs| > 0 {
      var last := xs[|xs| - 1];
      var init := Filter(xs[..|xs| - 1], p);
      FilterSpec(xs[..|xs| - 1], p);
      assert xs == xs[..|xs| - 1] + [last];
      if !p(last) && |init| > 0 {
        assert p(init[|init| - 1]);
      }
    }
  }

  /** Membership in a filtered list, both directions. */
  lemma FilterMembership<T>(xs: seq<T>, p: T -> bool, x: T)
    ensures x in Filter(xs, p) <==> x in xs && p(x)
  {
    FilterSpec(xs, p);
    assert x in Filter(xs, p) <==> multiset(Filter(xs, p))[x] > 0;
    assert x in xs <==> multiset(xs)[x] > 0;
  }

  /** Filtering twice by the same condition changes nothing. */
  lemma {:induction false} FilterIdempotent<T>(xs: seq<T>, p: T -> bool)
    ensures Filter(Filter(xs, p), p) == Filter(xs, p)
    decreases |xs|
  {
    if |xs| > 0 {
      var init := Filter(xs[..|xs| - 1], p);
      FilterIdempotent(xs[..|xs| - 1], p);
      if p(xs[|xs| - 1]) {
        var r := init + [xs[|xs| - 1]];
        assert r[..|r| - 1] == init;
      }
    }
  }

  /** A condition that holds of every element keeps the whole list. */
  lemma {:induction false} FilterKeepsAll<T>(xs: seq<T>, p: T -> bool)
    requires forall i :: 0 <= i < |xs| ==> p(xs[i])
    ensures Filter(xs, p) == xs
    decreases |xs|
  {
    if |xs| > 0 {
      FilterKeepsAll(xs[..|xs| - 1], p);
      assert xs == xs[..|xs| - 1] + [xs[|xs| - 1]];
    }
  }

  /** Two conditions that agree on every element select the same list. */
  lemma {:induction false} FilterCongruent<T>(xs: seq<T>, p: T -> bool, q: T -> bool)
    requires forall i :: 0 <= i < |xs| ==> p(xs[i]) == q(xs[i])
    ensures Filter(xs, p) == Filter(xs, q)
    decreases |xs|
  {
    if |xs| > 0 {
      FilterCongruent(xs[..|xs| - 1], p, q);
    }
  }

  /** Filtering by `p` and then by `q` is filtering by `both`, any
      predicate that holds exactly when `p` and `q` do. */
  lemma {:induction false} FilterFilter<T>(xs: seq<T>, p: T -> bool, q: T -> bool, both: T -> bool)
    requires forall x :: both(x) == (p(x) && q(x))
    ensures Filter(Filter(xs, p), q) == Filter(xs, both)
    decreases |xs|
  {
    if |xs| > 0 {
      var init := Filter(xs[..|xs| - 1], p);
      FilterFilter(xs[..|xs| - 1], p, q, both);
      if p(xs[|xs| - 1]) {
        var r := init + [xs[|xs| - 1]];
        assert r[..|r| - 1] == init;
      }
    }
  }

  /** Filtering commutes with appending one element at the end. */
  lemma FilterSnoc<T>(xs: seq<T>, x: T, p: T -> bool)
    ensures Filter(xs + [x], p) == if p(x) then Filter(xs, p) + [x] else Filter(xs, p)
  {
    assert (xs + [x])[..|xs + [x]| - 1] == xs;
  }

  /** No value occurs twice. */
  predicate NoDuplicates<T(==)>(xs: seq<T>) {
    forall i, j :: 0 <= i < j < |xs| ==> xs[i] != xs[j]
  }

  /** Position of the first occurrence of `x`. */
  function IndexOf<T(==)>(xs: seq<T>, x: T): (k: nat)
    requires x in xs
    ensures k < |xs| && xs[k] == x
    ensures forall j :: 0 <= j < k ==> xs[j] != x
  {
    if xs[0] == x then 0 else 1 + IndexOf(xs[1..], x)
  }

  /** The first occurrence of a value inside a prefix is its first
      occurrence in the whole list. */
  lemma IndexOfPrefix<T>(xs: seq<T>, n: nat, x: T)
    requires n <= |xs| && x in xs[..n]
    ensures IndexOf(xs[..n], x) == IndexOf(xs, x)
  {
    var a := IndexOf(xs[..n], x);
    var b := IndexOf(xs, x);
    assert xs[a] == xs[..n][a] == x;
    assert b <= a < n;
    assert xs[..n][b] == xs[b] == x;
  }

  /** Distinct values in order of first appearance: the key order of a
      `collections.Counter` or of a `dict` filled left to right. */
  function Distinct<T(==,!new)>(xs: seq<T>): (r: seq<T>)
    ensures forall x :: x in r <==> x in xs
    ensures NoDuplicates(r)
    decreases |xs|
  {
    if |xs| == 0 then []
    else
      var init := Distinct(xs[..|xs| - 1]);
      if xs[|xs| - 1] in xs[..|xs| - 1] then init
      else
        assert xs == xs[..|xs| - 1] + [xs[|xs| - 1]];
        init + [xs[|xs| - 1]]
  }

  /** `Distinct` lists values strictly by the position of their first
      occurrence. */
  lemma {:induction false} DistinctOrder<T(!new)>(xs: seq<T>)
    ensures forall i, j :: 0 <= i < j < |Distinct(xs)| ==>
      IndexOf(xs, Distinct(xs)[i]) < IndexOf(xs, Distinct(xs)[j])
    decreases |xs|
  {
    if |xs| > 0 {
      var n := |xs| - 1;
      var init := Distinct(xs[..n]);
      var d := Distinct(xs);
      DistinctOrder(xs[..n]);
      forall i | 0 <= i < |init|
        ensures IndexOf(xs, init[i]) == IndexOf(xs[..n], init[i]) < n
      {
        assert init[i] in xs[..n];
        IndexOfPrefix(xs, n, init[i]);
      }
      if xs[n] in xs[..n] {
        assert d == init;
      } else {
        assert d == init + [xs[n]];
        forall j | 0 <= j < n
          ensures xs[j] != xs[n]
        {
          assert xs[..n][j] == xs[j];
        }
        assert IndexOf(xs, xs[n]) == n;
        forall i, j | 0 <= i < j < |d|
          ensures IndexOf(xs, d[i]) < IndexOf(xs, d[j])
        {
          assert d[i] == init[i];
          if j == |init| {
            assert d[j] == xs[n];
          } else {
            assert d[j] == init[j];
          }
        }
      }
    }
  }

  /** `Distinct` of a one-element extension. */
  lemma DistinctSnoc<T(!new)>(xs: seq<T>, x: T)
    ensures Distinct(xs + [x]) == if x in xs then Distinct(xs) else Distinct(xs) + [x]
  {
    assert (xs + [x])[..|xs + [x]| - 1] == xs;
  }

  /** `list(pd.Series(xs).dropna())`: the present values, in order. */
  function Present<T(!new)>(xs: seq<Option<T>>): (r: seq<T>)
    ensures |r| <= |xs|
    ensures forall x :: x in r <==> Some(x) in xs
    ensures |r| == 0 <==> forall i :: 0 <= i < |xs| ==> xs[i].None?
    decreases |xs|
  {
    if |xs| == 0 then []
    else
      var init := Present(xs[..|xs| - 1]);
      assert xs == xs[..|xs| - 1] + [xs[|xs| - 1]];
      match xs[|xs| - 1]
      case None => init
      case Some(x) => init + [x]
  }

  /** The map a `dict` holds after assigning each pair in turn. */
  function LastWins<K(!new), V>(pairs: seq<(K, V)>): (m: map<K, V>)
    ensures forall k :: k in m <==> exists i :: 0 <= i < |pairs| && pairs[i].0 == k
    decreases |pairs|
  {
    if |pairs| == 0 then map[]
    else
      var n := |pairs| - 1;
      assert forall i :: 0 <= i < n ==> pairs[..n][i] == pairs[i];
      LastWins(pairs[..n])[pairs[n].0 := pairs[n].1]
  }

  /** Every key holds the value of its LAST pair. */
  lemma {:induction false} LastWinsValue<K(!new), V>(pairs: seq<(K, V)>, i: nat)
    requires i < |pairs|
    requires forall j :: i < j < |pairs| ==> pairs[j].0 != pairs[i].0
    ensures pairs[i].0 in LastWins(pairs) && LastWins(pairs)[pairs[i].0] == pairs[i].1
    decreases |pairs|
  {
    var n := |pairs| - 1;
    if i < n {
      assert forall j :: i < j < n ==> pairs[..n][j] == pairs[j];
      LastWinsValue(pairs[..n], i);
    }
  }

  /** `[f(x) for x in xs]`. */
  function Map<T, U>(xs: seq<T>, f: T -> U): (r: seq<U>)
    ensures |r| == |xs|
    ensures forall i :: 0 <= i < |xs| ==> r[i] == f(xs[i])
  {
    seq(|xs|, i requires 0 <= i < |xs| => f(xs[i]))
  }

  /** Mapping commutes with appending one element at the end. */
  lemma MapSnoc<T, U>(xs: seq<T>, x: T, f: T -> U)
    ensures Map(xs + [x], f) == Map(xs, f) + [f(x)]
  {
  }

  /** Filtering mapped values is mapping the values whose image passes. */
  lemma {:induction false} FilterMap<T, U>(xs: seq<T>, f: T -> U, q: U -> bool)
    ensures Filter(Map(xs, f), q) == Map(Filter(xs, x => q(f(x))), f)
    decreases |xs|
  {
    if |xs| > 0 {
      var n := |xs| - 1;
      FilterMap(xs[..n], f, q);
      assert Map(xs, f)[..n] == Map(xs[..n], f);
      assert Map(xs, f)[n] == f(xs[n]);
      var init := Filter(xs[..n], x => q(f(x)));
      if q(f(xs[n])) {
        MapSnoc(init, xs[n], f);
      }
    }
  }

  /** A list has no repeated value exactly when every value occurs at most once. */
  lemma {:induction false} NoDuplicatesCounts<T>(xs: seq<T>)
    ensures NoDuplicates(xs) <==> forall x :: multiset(xs)[x] <= 1
    decreases |xs|
  {
    if |xs| > 0 {
      var n := |xs| - 1;
      NoDuplicatesCounts(xs[..n]);
      assert xs == xs[..n] + [xs[n]];
      assert forall x :: multiset(xs)[x] == multiset(xs[..n])[x] + (if x == xs[n] then 1 else 0);
      if NoDuplicates(xs) {
        assert NoDuplicates(xs[..n]);
        forall j | 0 <= j < n
          ensures xs[..n][j] != xs[n]
        {
          assert xs[..n][j] == xs[j];
        }
        assert xs[n] !in xs[..n];
      } else {
        var i, j :| 0 <= i < j < |xs| && xs[i] == xs[j];
        if j < n {
          assert xs[..n][i] == xs[..n][j];
          assert !NoDuplicates(xs[..n]);
        } else {
          assert xs[..n][i] == xs[n];
          assert multiset(xs[..n])[xs[n]] >= 1;
          assert multiset(xs)[xs[n]] >= 2;
        }
      }
    }
  }

  /** Filtering keeps a list free of repeats. */
  lemma FilterNoDuplicates<T>(xs: seq<T>, p: T -> bool)
    requires NoDuplicates(xs)
    ensures NoDuplicates(Filter(xs, p))
  {
    NoDuplicatesCounts(xs);
    FilterSpec(xs, p);
    NoDuplicatesCounts(Filter(xs, p));
  }

  /** `len(np.unique(xs)) > 1`: the list holds two different values. */
  lemma DistinctMoreThanOne<T(!new)>(xs: seq<T>)
    ensures |Distinct(xs)| > 1 <==> exists i, j :: 0 <= i < |xs| && 0 <= j < |xs| && xs[i] != xs[j]
  {
    var d := Distinct(xs);
    if |d| > 1 {
      assert d[0] != d[1];
      assert d[0] in xs && d[1] in xs;
      var i := IndexOf(xs, d[0]);
      var j := IndexOf(xs, d[1]);
      assert xs[i] != xs[j];
    }
    if exists i, j :: 0 <= i < |xs| && 0 <= j < |xs| && xs[i] != xs[j] {
      var i, j :| 0 <= i < |xs| && 0 <= j < |xs| && xs[i] != xs[j];
      assert xs[i] in d && xs[j] in d;
      var a := IndexOf(d, xs[i]);
      var b := IndexOf(d, xs[j]);
      assert a != b;
    }
  }

  /** Some element satisfies `p`. */
  predicate Any<T>(xs: seq<T>, p: T -> bool) {
    exists i :: 0 <= i < |xs| && p(xs[i])
  }

  /** `Any` over a one-element extension. */
  lemma AnySnoc<T>(xs: seq<T>, p: T -> bool)
    requires |xs| > 0
    ensures Any(xs, p) <==> Any(xs[..|xs| - 1], p) || p(xs[|xs| - 1])
  {
    var n := |xs| - 1;
    if Any(xs, p) {
      var i :| 0 <= i < |xs| && p(xs[i]);
      if i < n {
        assert xs[..n][i] == xs[i];
      }
    }
    if Any(xs[..n], p) {
      var i :| 0 <= i < n && p(xs[..n][i]);
      assert xs[..n][i] == xs[i];
    }
  }

  /** A filter keeps nothing exactly when no element passes, and keeps
      two or more exactly when two different positions pass. */
  lemma {:induction false} FilterCount<T>(xs: seq<T>, p: T -> bool)
    ensures |Filter(xs, p)| == 0 <==> forall i :: 0 <= i < |xs| ==> !p(xs[i])
    ensures |Filter(xs, p)| >= 2 <==> exists i, j :: 0 <= i < j < |xs| && p(xs[i]) && p(xs[j])
    decreases |xs|
  {
    if |xs| > 0 {
      var n := |xs| - 1;
      var init := Filter(xs[..n], p);
      FilterCount(xs[..n], p);
      assert forall i :: 0 <= i < n ==> xs[..n][i] == xs[i];
      if |init| > 0 {
        var i :| 0 <= i < n && p(xs[..n][i]);
        assert p(xs[i]);
      }
      if exists i, j :: 0 <= i < j < |xs| && p(xs[i]) && p(xs[j]) {
        var i, j :| 0 <= i < j < |xs| && p(xs[i]) && p(xs[j]);
        assert p(xs[..n][i]);
        if j < n {
          assert p(xs[..n][j]);
        }
      }
      if p(xs[n]) && |init| > 0 {
        var i :| 0 <= i < n && p(xs[..n][i]);
        assert i < n && p(xs[i]) && p(xs[n]);
      }
    }
  }

  /** Projecting the kept elements yields `u` once for every element that
      is kept and projects to `u`: no occurrence is lost or added. */
  lemma {:induction false} MapFilterCount<T, U>(xs: seq<T>, keep: T -> bool, project: T -> U, u: U, both: T -> bool)
    requires forall x :: both(x) == (keep(x) && project(x) == u)
    ensures multiset(Map(Filter(xs, keep), project))[u] == |Filter(xs, both)|
    decreases |xs|
  {
    if |xs| > 0 {
      var n := |xs| - 1;
      MapFilterCount(xs[..n], keep, project, u, both);
      if keep(xs[n]) {
        MapSnoc(Filter(xs[..n], keep), xs[n], project);
      }
    }
  }

  /** Mapping both sides keeps a subsequence a subsequence. */
  lemma {:induction false} MapSubsequence<T, U>(a: seq<T>, b: seq<T>, f: T -> U)
    requires IsSubsequence(a, b)
    ensures IsSubsequence(Map(a, f), Map(b, f))
    decreases |b|
  {
    if |a| > 0 {
      var fa := Map(a, f);
      var fb := Map(b, f);
      assert fa[..|fa| - 1] == Map(a[..|a| - 1], f);
      assert fb[..|fb| - 1] == Map(b[..|b| - 1], f);
      if a[|a| - 1] == b[|b| - 1] {
        MapSubsequence(a[..|a| - 1], b[..|b| - 1], f);
      } else {
        MapSubsequence(a, b[..|b| - 1], f);
        SubsequenceOfInit(fa, fb);
      }
    }
  }

  /** Dropping the last element of a subsequence leaves a subsequence. */
  lemma {:induction false} SubsequenceDropLast<T>(a: seq<T>, c: seq<T>)
    requires |a| > 0 && IsSubsequence(a, c)
    ensures IsSubsequence(a[..|a| - 1], c)
    decreases |c|, 1
  {
    var m := |c| - 1;
    if a[|a| - 1] != c[m] {
      SubsequenceDropLast(a, c[..m]);
    }
    SubsequenceOfInit(a[..|a| - 1], c);
  }

  /** A subsequence of `b` minus its last element is a subsequence of `b`. */
  lemma {:induction false} SubsequenceOfInit<T>(a: seq<T>, b: seq<T>)
    requires |b| > 0 && IsSubsequence(a, b[..|b| - 1])
    ensures IsSubsequence(a, b)
    decreases |b|, 0
  {
    var n := |b| - 1;
    if |a| > 0 && a[|a| - 1] == b[n] {
      SubsequenceDropLast(a, b[..n]);
    }
  }

  /** Projecting a filtered list: the result is an order-preserving
      subsequence of the projected list, and holds exactly the projections
      of the kept records. */
  lemma FilterProjected<T(!new), U>(xs: seq<T>, keep: T -> bool, project: T -> U)
    ensures IsSubsequence(Map(Filter(xs, keep), project), Map(xs, project))
    ensures forall u :: u in Map(Filter(xs, keep), project) <==>
      exists a :: a in xs && keep(a) && project(a) == u
  {
    var kept := Filter(xs, keep);
    FilterSpec(xs, keep);
    MapSubsequence(kept, xs, project);
    forall u
      ensures u in Map(kept, project) <==> exists a :: a in xs && keep(a) && project(a) == u
    {
      if u in Map(kept, project) {
        var i :| 0 <= i < |kept| && Map(kept, project)[i] == u;
        FilterMembership(xs, keep, kept[i]);
      }
      if exists a :: a in xs && keep(a) && project(a) == u {
        var a :| a in xs && keep(a) && project(a) == u;
        FilterMembership(xs, keep, a);
        var i := IndexOf(kept, a);
        assert Map(kept, project)[i] == u;
      }
    }
  }

  /** The position of the first element satisfying `p`, if any. */
  function FirstIndex<T>(xs: seq<T>, p: T -> bool): (k: Option<nat>)
    ensures k.Some? ==> k.value < |xs| && p(xs[k.value]) && forall j :: 0 <= j < k.value ==> !p(xs[j])
    ensures k.None? <==> forall j :: 0 <= j < |xs| ==> !p(xs[j])
    decreases |xs|
  {
    if |xs| == 0 then None
    else
      var n := |xs| - 1;
      assert forall j :: 0 <= j < n ==> xs[..n][j] == xs[j];
      match FirstIndex(xs[..n], p)
      case Some(k) => Some(k)
      case None => if p(xs[n]) then Some(n) else None
  }

  /** Searching a filtered list for the first element passing `q` finds
      the same element as searching the whole list for the first element
      passing both filters. */
  lemma {:induction false} FirstIndexFilter<T>(xs: seq<T>, p: T -> bool, q: T -> bool, both: T -> bool)
    requires forall x :: both(x) == (p(x) && q(x))
    ensures FirstIndex(Filter(xs, p), q).None? <==> FirstIndex(xs, both).None?
    ensures FirstIndex(Filter(xs, p), q).Some? ==>
      Filter(xs, p)[FirstIndex(Filter(xs, p), q).value] == xs[FirstIndex(xs, both).value]
    decreases |xs|
  {
    if |xs| > 0 {
      var n := |xs| - 1;
      var f := Filter(xs, p);
      var init := Filter(xs[..n], p);
      FirstIndexFilter(xs[..n], p, q, both);
      if p(xs[n]) {
        assert f == init + [xs[n]];
        assert f[..|f| - 1] == init;
        if FirstIndex(init, q).Some? {
          assert f[FirstIndex(init, q).value] == init[FirstIndex(init, q).value];
        }
      }
    }
  }
}
