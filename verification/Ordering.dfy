/** Sorting a finite set under a strict total order: what a query's ORDER BY delivers. */
module Ordering {

  ghost predicate StrictTotal<T(!new)>(less: (T, T) -> bool) {
    && (forall x :: !less(x, x))
    && (forall x, y, z :: less(x, y) && less(y, z) ==> less(x, z))
    && (forall x, y :: x == y || less(x, y) || less(y, x))
  }

  ghost predicate Sorted<T(!new)>(s: seq<T>, less: (T, T) -> bool) {
    forall i, j :: 0 <= i < j < |s| ==> less(s[i], s[j])
  }

  function Elements<T>(s: seq<T>): set<T> {
    set x | x in s
  }

  ghost predicate IsMin<T(!new)>(m: T, s: set<T>, less: (T, T) -> bool) {
    m in s && forall y :: y in s && y != m ==> less(m, y)
  }

  lemma MinExists<T(!new)>(s: set<T>, less: (T, T) -> bool)
    requires StrictTotal(less) && s != {}
    ensures exists m :: IsMin(m, s, less)
  {
    var x :| x in s;
    if s == {x} {
      assert IsMin(x, s, less);
    } else {
      var rest := s - {x};
      MinExists(rest, less);
      var m :| IsMin(m, rest, less);
      if less(x, m) {
        forall y | y in s && y != x ensures less(x, y) {
          assert y == m || less(m, y);
        }
        assert IsMin(x, s, less);
      } else {
        assert IsMin(m, s, less);
      }
    }
  }

  lemma PutFirst<T(!new)>(m: T, rest: seq<T>, less: (T, T) -> bool, s: set<T>)
    requires IsMin(m, s, less) && Elements(rest) == s - {m} && Sorted(rest, less)
    ensures Elements([m] + rest) == s && Sorted([m] + rest, less)
  {
    assert forall y :: y in rest <==> y in Elements(rest);
    forall y | y in s ensures y in [m] + rest {
      assert y == m || y in rest;
    }
  }

  /** The elements of `s` in increasing order. */
  ghost function SortSet<T(!new)>(s: set<T>, less: (T, T) -> bool): (r: seq<T>)
    requires StrictTotal(less)
    ensures Elements(r) == s && Sorted(r, less) && |r| == |s|
  {
    if s == {} then [] else
      MinExists(s, less);
      var m :| IsMin(m, s, less);
      var rest := SortSet(s - {m}, less);
      PutFirst(m, rest, less, s);
      [m] + rest
  }

  lemma NoElements<T>(s: seq<T>)
    ensures s == [] || exists x :: x in s
  {
    if s != [] {
      assert s[0] in s;
    }
  }

  /** Two sorted listings of one set are the same listing. */
  lemma {:induction false} SortedUnique<T(!new)>(a: seq<T>, b: seq<T>, less: (T, T) -> bool)
    requires StrictTotal(less) && Sorted(a, less) && Sorted(b, less)
    requires forall x :: x in a <==> x in b
    ensures a == b
  {
    if a == [] {
      NoElements(b);
    } else {
      assert a[0] in b && b != [];
      assert b[0] in a;
      assert a[0] == b[0] by {
        var j :| 0 <= j < |b| && b[j] == a[0];
        var i :| 0 <= i < |a| && a[i] == b[0];
      }
      forall x ensures x in a[1..] <==> x in b[1..] {
        assert x in a <==> x == a[0] || x in a[1..];
        assert x in b <==> x == b[0] || x in b[1..];
        assert a[0] !in a[1..] && b[0] !in b[1..];
      }
      SortedUnique(a[1..], b[1..], less);
      assert a == [a[0]] + a[1..] && b == [b[0]] + b[1..];
    }
  }

  /** Takes one occurrence of the last element of `a` out of a permutation of it. */
  lemma TakeOut<T>(a: seq<T>, b: seq<T>) returns (l: seq<T>, h: seq<T>)
    requires a != [] && multiset(a) == multiset(b)
    ensures b == l + [a[|a| - 1]] + h && multiset(a[..|a| - 1]) == multiset(l + h)
  {
    var n := |a| - 1;
    assert a == a[..n] + [a[n]];
    assert a[n] in multiset(b);
    var i :| 0 <= i < |b| && b[i] == a[n];
    l, h := b[..i], b[i + 1..];
    assert b == l + [b[i]] + h;
    assert multiset(a[..n]) == multiset(a) - multiset{a[n]};
    assert multiset(l + h) == multiset(b) - multiset{a[n]};
  }

  lemma SameLength<T>(a: seq<T>, b: seq<T>)
    requires multiset(a) == multiset(b)
    ensures |a| == |b|
  {
    assert |multiset(a)| == |a| && |multiset(b)| == |b|;
  }

  /** Selection of the smallest element, over and over. */
  method SortInto<T(==, !new)>(s: set<T>, less: (T, T) -> bool) returns (r: seq<T>)
    requires StrictTotal(less)
    ensures r == SortSet(s, less)
  {
    r := [];
    var left := s;
    while left != {}
      invariant left <= s && Elements(r) == s - left
      invariant Sorted(r, less)
      invariant forall x, y | x in r && y in left :: less(x, y)
      decreases left
    {
      MinExists(left, less);
      var m :| m in left && forall y | y in left && y != m :: less(m, y);
      assert Elements(r + [m]) == Elements(r) + {m};
      r, left := r + [m], left - {m};
    }
    assert forall x :: x in r <==> x in Elements(r);
    assert forall x :: x in SortSet(s, less) <==> x in Elements(SortSet(s, less));
    SortedUnique(r, SortSet(s, less), less);
  }

  // ---- Numbers and sets of them ----

  function Min(a: int, b: int): int {
    if a < b then a else b
  }

  function Max(a: int, b: int): int {
    if a < b then b else a
  }

  /** The `n` numbers from `lo` on. */
  function Numbers(lo: nat, n: nat): (r: set<nat>)
    ensures |r| == n && forall k: nat :: k in r <==> lo <= k < lo + n
  {
    if n == 0 then {} else Numbers(lo, n - 1) + {lo + n - 1}
  }

  lemma Subset<T>(a: set<T>, b: set<T>)
    requires a <= b
    ensures |a| <= |b|
    ensures |a| == |b| ==> a == b
  {
    if a != {} {
      var x :| x in a;
      Subset(a - {x}, b - {x});
    }
  }
}
