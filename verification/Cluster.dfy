/** The densest window of a caller's deactivations, found by two pointers over a sorted copy. */
module Cluster {
  import opened Text
  import opened Ordering

  type Times = seq<int>

  datatype Span = Span(count: nat, start: int, end: int)

  // ---- Sorting ----

  predicate Ascending(s: Times) {
    forall i, j :: 0 <= i < j < |s| ==> s[i] <= s[j]
  }

  function Insert(s: Times, x: int): (r: Times)
    requires Ascending(s)
    ensures Ascending(r) && |r| == |s| + 1
    ensures r[|s|] == if s != [] && s[|s| - 1] > x then s[|s| - 1] else x
  {
    if s == [] || s[|s| - 1] <= x then s + [x]
    else Insert(s[..|s| - 1], x) + [s[|s| - 1]]
  }

  lemma {:induction false} InsertSplits(s: Times, x: int) returns (i: nat)
    requires Ascending(s)
    ensures i <= |s| && Insert(s, x) == s[..i] + [x] + s[i..]
  {
    if s == [] || s[|s| - 1] <= x {
      i := |s|;
      assert s[..i] == s && s[i..] == [];
    } else {
      var n := |s| - 1;
      i := InsertSplits(s[..n], x);
      assert s[..n][..i] == s[..i] && s[..n][i..] + [s[n]] == s[i..];
    }
  }

  lemma InsertKeeps(s: Times, x: int)
    requires Ascending(s)
    ensures multiset(Insert(s, x)) == multiset(s) + multiset{x}
  {
    var i := InsertSplits(s, x);
    SplitKeeps(s, x, i);
  }

  lemma SplitKeeps(s: Times, x: int, i: nat)
    requires i <= |s|
    ensures multiset(s[..i] + [x] + s[i..]) == multiset(s) + multiset{x}
  {
    assert s == s[..i] + s[i..];
  }

  /** The sorted copy. */
  function SortTimes(times: Times): (r: Times)
    ensures Ascending(r) && |r| == |times|
  {
    if times == [] then [] else Insert(SortTimes(times[..|times| - 1]), times[|times| - 1])
  }

  lemma {:induction false} SortKeeps(times: Times)
    ensures multiset(SortTimes(times)) == multiset(times)
  {
    if times != [] {
      var n := |times| - 1;
      SortKeeps(times[..n]);
      InsertKeeps(SortTimes(times[..n]), times[n]);
      assert times == times[..n] + [times[n]];
    }
  }

  lemma FrontOf(s: Times)
    requires s != [] && Ascending(s)
    ensures Ascending(s[..|s| - 1]) && multiset(s[..|s| - 1]) == multiset(s) - multiset{s[|s| - 1]}
  {
    assert s == s[..|s| - 1] + [s[|s| - 1]];
  }

  lemma SameLast(a: Times, b: Times)
    requires Ascending(a) && Ascending(b) && |a| == |b| > 0 && multiset(a) == multiset(b)
    ensures a[|a| - 1] == b[|b| - 1]
  {
    var x, y := a[|a| - 1], b[|b| - 1];
    assert x in multiset(b) && y in multiset(a);
    var i :| 0 <= i < |b| && b[i] == x;
    var j :| 0 <= j < |a| && a[j] == y;
  }

  lemma {:induction false} AscendingUnique(a: Times, b: Times, n: nat)
    requires Ascending(a) && Ascending(b) && |a| == |b| == n && multiset(a) == multiset(b)
    ensures a == b
  {
    if n > 0 {
      SameLast(a, b);
      FrontOf(a);
      FrontOf(b);
      AscendingUnique(a[..n - 1], b[..n - 1], n - 1);
      assert a == a[..n - 1] + [a[n - 1]] == b;
    }
  }

  /** The order the times come in does not matter. */
  lemma SortForgetsOrder(a: Times, b: Times)
    requires multiset(a) == multiset(b)
    ensures SortTimes(a) == SortTimes(b)
  {
    SortKeeps(a);
    SortKeeps(b);
    SameLength(a, b);
    AscendingUnique(SortTimes(a), SortTimes(b), |a|);
  }

  // ---- The simple form: for each end, walk back over the window ----

  /** The first index not more than `window` before the one at `i`, searching upwards from `j`. */
  function First(s: Times, window: nat, i: nat, j: nat): (r: nat)
    requires j <= i < |s|
    ensures j <= r <= i && s[i] - s[r] <= window
    ensures forall k :: j <= k < r ==> s[i] - s[k] > window
    decreases i - j
  {
    if s[i] - s[j] > window then First(s, window, i, j + 1) else j
  }

  /** How many times, up to the one at `i`, lie within the window that ends there. */
  function Run(s: Times, window: nat, i: nat): (r: nat)
    requires i < |s|
    ensures 1 <= r <= i + 1
  {
    i + 1 - First(s, window, i, 0)
  }

  /** The densest run among those ending at the first `n` times, the earliest of equals. */
  function Scan(s: Times, window: nat, n: nat): Span
    requires n <= |s|
  {
    if n == 0 then Span(0, 0, 0)
    else
      var best, run := Scan(s, window, n - 1), Run(s, window, n - 1);
      if run > best.count then Span(run, s[n - run], s[n - 1]) else best
  }

  function ClusterOf(times: Times, window: nat, minCount: int): Option<Span> {
    var best := Scan(SortTimes(times), window, |times|);
    if |times| >= minCount && best.count >= minCount then Some(best) else None
  }

  // ---- The two pointers ----

  /** Where the left pointer stands before the end moves to `i`. */
  function Left(s: Times, window: nat, i: nat): (j: nat)
    requires i <= |s|
    ensures j <= i
  {
    if i == 0 then 0 else First(s, window, i - 1, 0)
  }

  /** It never has to move back. */
  lemma FirstMovesOn(s: Times, window: nat, i: nat)
    requires Ascending(s) && i < |s|
    ensures First(s, window, i, Left(s, window, i)) == First(s, window, i, 0) == Left(s, window, i + 1)
  {
    if i > 0 {
      assert s[i - 1] <= s[i];
    }
  }

  /** The inner loop. */
  method Advance(s: Times, window: nat, i: nat, from: nat) returns (j: nat)
    requires from <= i < |s|
    ensures j == First(s, window, i, from)
  {
    j := from;
    while s[i] - s[j] > window
      invariant from <= j <= i
      invariant First(s, window, i, j) == First(s, window, i, from)
      decreases i - j
    {
      j := j + 1;
    }
  }

  /** One end further: the run up to it replaces the best so far when it is longer. */
  lemma ScanNext(s: Times, window: nat, i: nat)
    requires i < |s|
    ensures var best, j := Scan(s, window, i), Left(s, window, i + 1);
            Scan(s, window, i + 1) == if i - j + 1 > best.count then Span(i - j + 1, s[j], s[i]) else best
  {
    assert Run(s, window, i) == i + 1 - Left(s, window, i + 1);
  }

  /** The outer loop. */
  method ScanSorted(s: Times, window: nat) returns (best: Span)
    requires Ascending(s)
    ensures best == Scan(s, window, |s|)
  {
    var j := 0;
    best := Span(0, 0, 0);
    for i := 0 to |s|
      invariant j == Left(s, window, i) && best == Scan(s, window, i)
    {
      FirstMovesOn(s, window, i);
      ScanNext(s, window, i);
      j := Advance(s, window, i, j);
      if i - j + 1 > best.count {
        best := Span(i - j + 1, s[j], s[i]);
      }
    }
  }

  method MaxCluster(times: Times, window: nat, minCount: int) returns (r: Option<Span>)
    ensures r == ClusterOf(times, window, minCount)
  {
    if |times| < minCount {
      return None;
    }
    var best := ScanSorted(SortTimes(times), window);
    r := if best.count >= minCount then Some(best) else None;
  }

  // ---- It is the densest window ----

  /** How many of the times lie in a closed interval. */
  function CountIn(times: Times, lo: int, hi: int): nat {
    if times == [] then 0
    else
      var n := |times| - 1;
      CountIn(times[..n], lo, hi) + (if lo <= times[n] <= hi then 1 else 0)
  }

  lemma {:induction false} CountConcat(a: Times, b: Times, lo: int, hi: int)
    ensures CountIn(a + b, lo, hi) == CountIn(a, lo, hi) + CountIn(b, lo, hi)
  {
    if b == [] {
      assert a + b == a;
    } else {
      var n := |b| - 1;
      assert (a + b)[..|a| + n] == a + b[..n];
      CountConcat(a, b[..n], lo, hi);
    }
  }

  lemma {:induction false} CountForgetsOrder(a: Times, b: Times, lo: int, hi: int)
    requires multiset(a) == multiset(b)
    ensures CountIn(a, lo, hi) == CountIn(b, lo, hi)
  {
    SameLength(a, b);
    if a != [] {
      var n := |a| - 1;
      var l, h := TakeOut(a, b);
      var m := [a[n]];
      CountForgetsOrder(a[..n], l + h, lo, hi);
      CountConcat(l, h, lo, hi);
      CountConcat(l + m, h, lo, hi);
      CountConcat(l, m, lo, hi);
      assert m[..0] == [];
    }
  }

  /** When the times in the interval are those at a range of indices, the range counts them. */
  lemma {:induction false} CountIsRange(s: Times, lo: int, hi: int, a: nat, b: nat)
    requires a <= b <= |s|
    requires forall i :: 0 <= i < |s| ==> (lo <= s[i] <= hi <==> a <= i < b)
    ensures CountIn(s, lo, hi) == b - a
  {
    if s != [] {
      var n := |s| - 1;
      if b <= n {
        CountIsRange(s[..n], lo, hi, a, b);
      } else if a <= n {
        CountIsRange(s[..n], lo, hi, a, n);
      } else {
        CountIsRange(s[..n], lo, hi, n, n);
      }
    }
  }

  /** In sorted times an interval is a range of indices. */
  lemma IntervalIsRange(s: Times, lo: int, hi: int) returns (a: nat, b: nat)
    requires Ascending(s) && lo <= hi
    ensures a <= b <= |s| && forall i :: 0 <= i < |s| ==> (lo <= s[i] <= hi <==> a <= i < b)
  {
    a := 0;
    while a < |s| && s[a] < lo
      invariant 0 <= a <= |s| && forall i :: 0 <= i < a ==> s[i] < lo
    {
      a := a + 1;
    }
    b := a;
    while b < |s| && s[b] <= hi
      invariant a <= b <= |s| && forall i :: a <= i < b ==> lo <= s[i] <= hi
    {
      b := b + 1;
    }
  }

  /** The scan is at least as good as every run it has passed. */
  lemma {:induction false} ScanDominates(s: Times, window: nat, n: nat, k: nat)
    requires k < n <= |s|
    ensures Run(s, window, k) <= Scan(s, window, n).count
  {
    if k < n - 1 {
      ScanDominates(s, window, n - 1, k);
    }
  }

  /** The scan's best is one of those runs, the first that is as long. */
  lemma {:induction false} ScanAttains(s: Times, window: nat, n: nat) returns (k: nat)
    requires 0 < n <= |s|
    ensures k < n && Scan(s, window, n) == Span(Run(s, window, k), s[k + 1 - Run(s, window, k)], s[k])
    ensures forall j :: 0 <= j < k ==> Run(s, window, j) < Run(s, window, k)
  {
    if Run(s, window, n - 1) > Scan(s, window, n - 1).count {
      k := n - 1;
      forall j | 0 <= j < k ensures Run(s, window, j) < Run(s, window, k) {
        ScanDominates(s, window, n - 1, j);
      }
    } else {
      k := ScanAttains(s, window, n - 1);
    }
  }

  /** No interval of the given length holds more times than the scan's best. */
  lemma ScanIsOptimal(s: Times, window: nat, lo: int, hi: int)
    requires Ascending(s) && lo <= hi <= lo + window
    ensures CountIn(s, lo, hi) <= Scan(s, window, |s|).count
  {
    var a, b := IntervalIsRange(s, lo, hi);
    CountIsRange(s, lo, hi, a, b);
    if a < b {
      var f := First(s, window, b - 1, 0);
      assert s[b - 1] - s[a] <= hi - lo <= window;
      assert f <= a;
      ScanDominates(s, window, |s|, b - 1);
    }
  }

  /** The best run holds every time between its bounds, so its count is exact. */
  lemma BoundsAreExact(s: Times, window: nat)
    requires Ascending(s) && s != []
    ensures var best := Scan(s, window, |s|);
            && best.start in s && best.end in s && best.start <= best.end <= best.start + window
            && CountIn(s, best.start, best.end) == best.count > 0
  {
    var best := Scan(s, window, |s|);
    var k := ScanAttains(s, window, |s|);
    var f := First(s, window, k, 0);
    var a, b := IntervalIsRange(s, best.start, best.end);
    CountIsRange(s, best.start, best.end, a, b);
    assert a <= f && k < b;
    ScanIsOptimal(s, window, best.start, best.end);
  }

  /** No interval of the given length that ends before the best run does holds as many times. */
  lemma EarlierIsSparser(s: Times, window: nat, lo: int, hi: int)
    requires Ascending(s) && s != [] && lo <= hi <= lo + window && hi < Scan(s, window, |s|).end
    ensures CountIn(s, lo, hi) < Scan(s, window, |s|).count
  {
    var k := ScanAttains(s, window, |s|);
    var a, b := IntervalIsRange(s, lo, hi);
    CountIsRange(s, lo, hi, a, b);
    assert Run(s, window, k) >= 1;
    if a < b {
      var f := First(s, window, b - 1, 0);
      assert s[b - 1] - s[a] <= hi - lo <= window;
      assert f <= a;
      assert b - 1 < k && Run(s, window, b - 1) < Run(s, window, k);
    }
  }

  /** No closed interval of the window's length holds more. */
  ghost predicate AtMost(times: Times, window: nat, count: nat) {
    forall lo, hi | lo <= hi <= lo + window :: CountIn(times, lo, hi) <= count
  }

  /** Some closed interval of the window's length holds that many. */
  ghost predicate AtLeast(times: Times, window: nat, count: int) {
    exists lo, hi :: lo <= hi <= lo + window && CountIn(times, lo, hi) >= count
  }

  lemma {:induction false} ScanAtMost(s: Times, window: nat, n: nat)
    requires n <= |s|
    ensures Scan(s, window, n).count <= n
  {
    if n > 0 {
      ScanAtMost(s, window, n - 1);
    }
  }

  lemma BestOfTimes(times: Times, window: nat)
    ensures AtMost(times, window, Scan(SortTimes(times), window, |times|).count)
  {
    var s := SortTimes(times);
    SortKeeps(times);
    forall lo, hi | lo <= hi <= lo + window ensures CountIn(times, lo, hi) <= Scan(s, window, |s|).count {
      CountForgetsOrder(times, s, lo, hi);
      ScanIsOptimal(s, window, lo, hi);
    }
  }

  lemma BestIsThere(times: Times, window: nat)
    requires times != []
    ensures var best := Scan(SortTimes(times), window, |times|);
            && best.start in times && best.end in times && best.start <= best.end <= best.start + window
            && CountIn(times, best.start, best.end) == best.count > 0
            && forall lo, hi | lo <= hi <= lo + window && hi < best.end :: CountIn(times, lo, hi) < best.count
  {
    var s := SortTimes(times);
    var best := Scan(s, window, |s|);
    SortKeeps(times);
    BoundsAreExact(s, window);
    assert best.start in multiset(s) && best.end in multiset(s);
    CountForgetsOrder(times, s, best.start, best.end);
    forall lo, hi | lo <= hi <= lo + window && hi < best.end ensures CountIn(times, lo, hi) < best.count {
      CountForgetsOrder(times, s, lo, hi);
      EarlierIsSparser(s, window, lo, hi);
    }
  }

  /**
   The search succeeds exactly when some closed interval of the window's length holds `minCount` times,
   and then reports the most any such interval holds, with bounds that hold that many, the first to end.
   */
  lemma ClusterIsDensest(times: Times, window: nat, minCount: int)
    ensures var r := ClusterOf(times, window, minCount);
            && (r.Some? <==> AtLeast(times, window, minCount))
            && (r.Some? ==>
                  && AtMost(times, window, r.value.count)
                  && r.value.start <= r.value.end <= r.value.start + window
                  && CountIn(times, r.value.start, r.value.end) == r.value.count
                  && (times != [] ==>
                        && r.value.start in times && r.value.end in times
                        && forall lo, hi | lo <= hi <= lo + window && hi < r.value.end ::
                             CountIn(times, lo, hi) < r.value.count))
  {
    var best := Scan(SortTimes(times), window, |times|);
    BestOfTimes(times, window);
    ScanAtMost(SortTimes(times), window, |times|);
    if times != [] {
      BestIsThere(times, window);
    }
    assert CountIn(times, best.start, best.end) == best.count;
    if AtLeast(times, window, minCount) {
      var lo, hi :| lo <= hi <= lo + window && CountIn(times, lo, hi) >= minCount;
      assert CountIn(times, lo, hi) <= best.count;
    }
  }
}
