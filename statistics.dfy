/**
 * `getMetricStats`: the values of one metric sorted ascending, then minimum,
 * maximum, mean, median and the two quartiles read off by position (the
 * element at index `floor(n/4)` and at `floor(3n/4)`, with no interpolation).
 */
module Statistics {
  import opened Asteroids

  /** The values of metric `m`, in list order (the source's `map(a => a[metric])`). */
  function Values(s: seq<Asteroid>, m: Metric): (v: seq<real>)
    ensures |v| == |s|
    ensures forall i :: 0 <= i < |s| ==> v[i] == Key(s[i], m)
  {
    if s == [] then [] else Values(s[..|s| - 1], m) + [Key(s[|s| - 1], m)]
  }

  predicate Ascending(v: seq<real>)
  {
    forall i :: 0 < i < |v| ==> v[i - 1] <= v[i]
  }

  /** Puts `x` in front of the first value not below it. */
  function InsertAsc(x: real, t: seq<real>): seq<real>
  {
    if t == [] || x <= t[0] then [x] + t else [t[0]] + InsertAsc(x, t[1..])
  }

  /** Ascending sort (the source's `sort((a, b) => a - b)`). */
  function SortAsc(v: seq<real>): seq<real>
  {
    if v == [] then [] else InsertAsc(v[0], SortAsc(v[1..]))
  }

  lemma {:induction false} InsertAscSorted(x: real, t: seq<real>)
    requires Ascending(t)
    ensures Ascending(InsertAsc(x, t))
    ensures |InsertAsc(x, t)| == |t| + 1
    ensures InsertAsc(x, t)[0] == x || (t != [] && InsertAsc(x, t)[0] == t[0])
  {
    if t != [] && x > t[0] {
      InsertAscSorted(x, t[1..]);
    }
  }

  lemma {:induction false} InsertAscPermutes(x: real, t: seq<real>)
    ensures multiset(InsertAsc(x, t)) == multiset([x] + t)
  {
    if t != [] && x > t[0] {
      InsertAscPermutes(x, t[1..]);
      assert t == [t[0]] + t[1..];
    }
  }

  /** The sorted values are ascending and are the same values. */
  lemma {:induction false} SortAscCorrect(v: seq<real>)
    ensures Ascending(SortAsc(v))
    ensures multiset(SortAsc(v)) == multiset(v)
    ensures |SortAsc(v)| == |v|
  {
    if v != [] {
      SortAscCorrect(v[1..]);
      InsertAscSorted(v[0], SortAsc(v[1..]));
      InsertAscPermutes(v[0], SortAsc(v[1..]));
      assert v == [v[0]] + v[1..];
    }
  }

  lemma {:induction false} AscendingPairwise(v: seq<real>, i: nat, j: nat)
    requires Ascending(v)
    requires i <= j < |v|
    ensures v[i] <= v[j]
    decreases j - i
  {
    if i < j {
      AscendingPairwise(v, i + 1, j);
    }
  }

  /** The running total from the left (the source's `reduce((sum, v) => sum + v, 0)`). */
  function Sum(v: seq<real>): real
  {
    if v == [] then 0.0 else Sum(v[..|v| - 1]) + v[|v| - 1]
  }

  lemma {:induction false} SumCons(x: real, t: seq<real>)
    ensures Sum([x] + t) == x + Sum(t)
  {
    if t != [] {
      assert ([x] + t)[..|[x] + t| - 1] == [x] + t[..|t| - 1];
      SumCons(x, t[..|t| - 1]);
    } else {
      assert [x] + t == [x];
      assert [x][..0] == [];
    }
  }

  lemma {:induction false} SumInsertAsc(x: real, t: seq<real>)
    ensures Sum(InsertAsc(x, t)) == x + Sum(t)
  {
    if t == [] || x <= t[0] {
      SumCons(x, t);
    } else {
      SumInsertAsc(x, t[1..]);
      SumCons(t[0], InsertAsc(x, t[1..]));
      SumCons(t[0], t[1..]);
      assert t == [t[0]] + t[1..];
    }
  }

  /** Sorting does not change the total, so the mean is that of the unsorted values. */
  lemma {:induction false} SumSortAsc(v: seq<real>)
    ensures Sum(SortAsc(v)) == Sum(v)
  {
    if v != [] {
      SumSortAsc(v[1..]);
      SumInsertAsc(v[0], SortAsc(v[1..]));
      SumCons(v[0], v[1..]);
      assert v == [v[0]] + v[1..];
    }
  }

  /** A total of values between `lo` and `hi` lies between `n * lo` and `n * hi`. */
  lemma {:induction false} SumBounds(v: seq<real>, lo: real, hi: real)
    requires forall i :: 0 <= i < |v| ==> lo <= v[i] <= hi
    ensures (|v| as real) * lo <= Sum(v) <= (|v| as real) * hi
  {
    if v != [] {
      SumBounds(v[..|v| - 1], lo, hi);
    }
  }

  /** The record `getMetricStats` returns. */
  datatype Stats = Stats(min: real, max: real, mean: real, median: real, q1: real, q3: real)

  /**
   * The statistics of a non-empty list of values. Minimum and maximum are
   * values of the list that bound all the others; the mean is the total over
   * the count and lies between them; the quartiles and the median are ordered.
   */
  function StatsOf(v: seq<real>): (r: Stats)
    requires |v| > 0
    ensures r.min in v && r.max in v
    ensures forall x :: x in v ==> r.min <= x <= r.max
    ensures r.mean == Sum(v) / (|v| as real)
    ensures r.min <= r.mean <= r.max
    ensures r.min <= r.q1 <= r.median <= r.q3 <= r.max
  {
    var sorted := SortAsc(v);
    SortAscCorrect(v);
    var n := |sorted|;
    var median := if n % 2 == 0 then (sorted[n / 2 - 1] + sorted[n / 2]) / 2.0 else sorted[n / 2];
    MeanOfSorted(v);
    PositionsOrdered(sorted);
    Stats(sorted[0], sorted[n - 1], Sum(sorted) / (n as real), median, sorted[n / 4], sorted[(3 * n) / 4])
  }

  /** In an ascending list the positional quartiles and the median are ordered. */
  lemma PositionsOrdered(w: seq<real>)
    requires Ascending(w) && |w| > 0
    ensures var n := |w|;
      var median := if n % 2 == 0 then (w[n / 2 - 1] + w[n / 2]) / 2.0 else w[n / 2];
      w[0] <= w[n / 4] <= median <= w[(3 * n) / 4] <= w[n - 1]
  {
    var n := |w|;
    AscendingPairwise(w, 0, n / 4);
    AscendingPairwise(w, (3 * n) / 4, n - 1);
    if n % 2 == 0 {
      AscendingPairwise(w, n / 4, n / 2 - 1);
      AscendingPairwise(w, n / 2 - 1, n / 2);
      AscendingPairwise(w, n / 2, (3 * n) / 4);
    } else {
      AscendingPairwise(w, n / 4, n / 2);
      AscendingPairwise(w, n / 2, (3 * n) / 4);
    }
  }

  /** The first and last sorted values are values of the list that bound all of it. */
  lemma SortedEnds(v: seq<real>)
    requires |v| > 0
    ensures |SortAsc(v)| == |v|
    ensures SortAsc(v)[0] in v && SortAsc(v)[|v| - 1] in v
    ensures forall x :: x in v ==> SortAsc(v)[0] <= x <= SortAsc(v)[|v| - 1]
  {
    var sorted := SortAsc(v);
    SortAscCorrect(v);
    var n := |sorted|;
    assert sorted[0] in multiset(v) && sorted[n - 1] in multiset(v);
    forall x | x in v
      ensures sorted[0] <= x <= sorted[n - 1]
    {
      assert x in multiset(sorted);
      var i :| 0 <= i < n && sorted[i] == x;
      AscendingPairwise(sorted, 0, i);
      AscendingPairwise(sorted, i, n - 1);
    }
  }

  /** The mean of the sorted values is the mean of the values and lies between the ends. */
  lemma MeanOfSorted(v: seq<real>)
    requires |v| > 0
    ensures |SortAsc(v)| == |v|
    ensures SortAsc(v)[0] in v && SortAsc(v)[|v| - 1] in v
    ensures forall x :: x in v ==> SortAsc(v)[0] <= x <= SortAsc(v)[|v| - 1]
    ensures Sum(SortAsc(v)) == Sum(v)
    ensures SortAsc(v)[0] <= Sum(v) / (|v| as real) <= SortAsc(v)[|v| - 1]
  {
    SortedEnds(v);
    SumSortAsc(v);
    var lo, hi := SortAsc(v)[0], SortAsc(v)[|v| - 1];
    forall i | 0 <= i < |v|
      ensures lo <= v[i] <= hi
    {
      assert v[i] in v;
    }
    MeanBounds(v, lo, hi);
  }

  /** The mean of values between `lo` and `hi` is between them too. */
  lemma MeanBounds(v: seq<real>, lo: real, hi: real)
    requires |v| > 0
    requires forall i :: 0 <= i < |v| ==> lo <= v[i] <= hi
    ensures lo <= Sum(v) / (|v| as real) <= hi
  {
    SumBounds(v, lo, hi);
    MeanBetween(Sum(v), |v|, lo, hi);
  }

  lemma MeanBetween(total: real, n: nat, lo: real, hi: real)
    requires n > 0
    requires (n as real) * lo <= total <= (n as real) * hi
    ensures lo <= total / (n as real) <= hi
  {
  }

  /**
   * `getMetricStats(metric)` on a non-empty list: the minimum and maximum are
   * attained by some asteroid and bound every asteroid's value, and the mean
   * is the total of the metric's values over their count.
   */
  function MetricStats(s: seq<Asteroid>, m: Metric): (r: Stats)
    requires |s| > 0
    ensures r.mean == Sum(Values(s, m)) / (|s| as real)
    ensures exists a :: a in s && Key(a, m) == r.min
    ensures exists a :: a in s && Key(a, m) == r.max
    ensures forall a :: a in s ==> r.min <= Key(a, m) <= r.max
    ensures r.min <= r.mean <= r.max
    ensures r.min <= r.q1 <= r.median <= r.q3 <= r.max
  {
    var v := Values(s, m);
    var r := StatsOf(v);
    var i :| 0 <= i < |v| && v[i] == r.min;
    var j :| 0 <= j < |v| && v[j] == r.max;
    assert s[i] in s && s[j] in s;
    forall a | a in s
      ensures r.min <= Key(a, m) <= r.max
    {
      var k :| 0 <= k < |s| && s[k] == a;
      assert v[k] in v;
    }
    r
  }

  /** How many values lie strictly below `x`. */
  function CountBelow(v: seq<real>, x: real): nat
  {
    if v == [] then 0 else (if v[0] < x then 1 else 0) + CountBelow(v[1..], x)
  }

  /** How many values lie at or below `x`. */
  function CountAtMost(v: seq<real>, x: real): nat
  {
    if v == [] then 0 else (if v[0] <= x then 1 else 0) + CountAtMost(v[1..], x)
  }

  lemma {:induction false} CountsInsertAsc(a: real, t: seq<real>, x: real)
    ensures CountBelow(InsertAsc(a, t), x) == CountBelow([a] + t, x)
    ensures CountAtMost(InsertAsc(a, t), x) == CountAtMost([a] + t, x)
  {
    if t != [] && a > t[0] {
      CountsInsertAsc(a, t[1..], x);
      assert ([a] + t)[1..] == t;
      assert ([a] + t[1..])[1..] == t[1..];
      assert ([t[0]] + InsertAsc(a, t[1..]))[1..] == InsertAsc(a, t[1..]);
    }
  }

  /** Sorting does not change how many values lie below a bound. */
  lemma {:induction false} CountsSortAsc(v: seq<real>, x: real)
    ensures CountBelow(SortAsc(v), x) == CountBelow(v, x)
    ensures CountAtMost(SortAsc(v), x) == CountAtMost(v, x)
  {
    if v != [] {
      CountsSortAsc(v[1..], x);
      CountsInsertAsc(v[0], SortAsc(v[1..]), x);
      assert ([v[0]] + SortAsc(v[1..]))[1..] == SortAsc(v[1..]);
    }
  }

  lemma {:induction false} CountBelowNone(w: seq<real>, x: real)
    requires forall i :: 0 <= i < |w| ==> x <= w[i]
    ensures CountBelow(w, x) == 0
  {
    if w != [] {
      CountBelowNone(w[1..], x);
    }
  }

  /**
   * In an ascending list the value at position `k` has at most `k` values
   * below it and at least `k + 1` at or below it.
   */
  lemma {:induction false} RankInSorted(w: seq<real>, k: nat)
    requires Ascending(w) && k < |w|
    ensures CountBelow(w, w[k]) <= k < CountAtMost(w, w[k])
  {
    if k == 0 {
      forall i | 0 <= i < |w|
        ensures w[0] <= w[i]
      {
        AscendingPairwise(w, 0, i);
      }
      CountBelowNone(w, w[0]);
    } else {
      RankInSorted(w[1..], k - 1);
      AscendingPairwise(w, 0, k);
    }
  }

  /**
   * The quartiles and the median are positional (nearest-rank) statistics:
   * at most `floor(n/4)` values lie below `q1` and more lie at or below it,
   * likewise `floor(3n/4)` for `q3` and, for an odd count, `floor(n/2)` for
   * the median. For an even count the median is the mean of the values of
   * rank `n/2 - 1` and `n/2`.
   */
  lemma QuartileRanks(v: seq<real>)
    requires |v| > 0
    ensures var r, n := StatsOf(v), |v|;
      && CountBelow(v, r.q1) <= n / 4 < CountAtMost(v, r.q1)
      && CountBelow(v, r.q3) <= (3 * n) / 4 < CountAtMost(v, r.q3)
      && (n % 2 == 1 ==> CountBelow(v, r.median) <= n / 2 < CountAtMost(v, r.median))
      && (n % 2 == 0 ==>
            exists x, y :: && CountBelow(v, x) <= n / 2 - 1 < CountAtMost(v, x)
                           && CountBelow(v, y) <= n / 2 < CountAtMost(v, y)
                           && r.median == (x + y) / 2.0)
  {
    var w, n := SortAsc(v), |v|;
    SortAscCorrect(v);
    var r := StatsOf(v);
    assert r.q1 == w[n / 4] && r.q3 == w[(3 * n) / 4];
    RankOfSorted(v, n / 4);
    RankOfSorted(v, (3 * n) / 4);
    RankOfSorted(v, n / 2);
    if n % 2 == 0 {
      RankOfSorted(v, n / 2 - 1);
      assert r.median == (w[n / 2 - 1] + w[n / 2]) / 2.0;
    } else {
      assert r.median == w[n / 2];
    }
  }

  /** The `k`-th sorted value has at most `k` values below it and more at or below it. */
  lemma RankOfSorted(v: seq<real>, k: nat)
    requires k < |v|
    ensures |SortAsc(v)| == |v|
    ensures CountBelow(v, SortAsc(v)[k]) <= k < CountAtMost(v, SortAsc(v)[k])
  {
    SortAscCorrect(v);
    RankInSorted(SortAsc(v), k);
    CountsSortAsc(v, SortAsc(v)[k]);
  }

  /** Values 10, 30, 20, 40: quartiles by position give 20 and 40, the median 25. */
  lemma StatsExample()
    ensures StatsOf([10.0, 30.0, 20.0, 40.0]) == Stats(10.0, 40.0, 25.0, 25.0, 20.0, 40.0)
  {
    var v := [10.0, 30.0, 20.0, 40.0];
    assert SortAsc(v[3..]) == [40.0];
    assert SortAsc(v[2..]) == [20.0, 40.0];
    assert InsertAsc(30.0, [40.0]) == [30.0, 40.0];
    assert InsertAsc(30.0, [20.0, 40.0]) == [20.0] + InsertAsc(30.0, [40.0]);
    assert SortAsc(v[1..]) == [20.0, 30.0, 40.0];
    assert SortAsc(v) == [10.0, 20.0, 30.0, 40.0];
    assert v[..3][..2][..1] == [10.0] && v[..3][..2] == [10.0, 30.0] && v[..3] == [10.0, 30.0, 20.0];
    assert [10.0][..0] == [];
    assert Sum([10.0]) == 10.0;
    assert Sum([10.0, 30.0]) == 40.0;
    assert Sum([10.0, 30.0, 20.0]) == 60.0;
    assert Sum(v) == 100.0;
  }
}
