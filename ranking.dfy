/**
 * `getTopAsteroids`: a copy of the list sorted by a metric, largest first,
 * then its first `n` records. The sort is stable, as `Array.prototype.sort`
 * is: asteroids with equal values keep their list order.
 */
module Ranking {
  import opened Asteroids

  /** Each asteroid's metric value is at least the next one's. */
  predicate NonIncreasing(s: seq<Asteroid>, m: Metric)
  {
    forall i :: 0 < i < |s| ==> Key(s[i - 1], m) >= Key(s[i], m)
  }

  /** Puts `x` in front of the first asteroid whose value does not exceed its own. */
  function Insert(x: Asteroid, t: seq<Asteroid>, m: Metric): seq<Asteroid>
  {
    if t == [] || Key(t[0], m) <= Key(x, m) then [x] + t
    else [t[0]] + Insert(x, t[1..], m)
  }

  /** Stable descending sort by metric `m`. */
  function SortDesc(s: seq<Asteroid>, m: Metric): seq<Asteroid>
  {
    if s == [] then [] else Insert(s[0], SortDesc(s[1..], m), m)
  }

  lemma {:induction false} InsertSorted(x: Asteroid, t: seq<Asteroid>, m: Metric)
    requires NonIncreasing(t, m)
    ensures NonIncreasing(Insert(x, t, m), m)
    ensures |Insert(x, t, m)| == |t| + 1
    ensures Insert(x, t, m)[0] == x || (t != [] && Insert(x, t, m)[0] == t[0])
  {
    if t != [] && Key(t[0], m) > Key(x, m) {
      InsertSorted(x, t[1..], m);
    }
  }

  lemma {:induction false} InsertPermutes(x: Asteroid, t: seq<Asteroid>, m: Metric)
    ensures multiset(Insert(x, t, m)) == multiset([x] + t)
  {
    if t != [] && Key(t[0], m) > Key(x, m) {
      InsertPermutes(x, t[1..], m);
      assert t == [t[0]] + t[1..];
    }
  }

  /** Filtering a sequence with a first element. */
  lemma FilterCons(a: Asteroid, t: seq<Asteroid>, c: Criterion)
    ensures Filter([a] + t, c) == (if Meets(a, c) then [a] else []) + Filter(t, c)
  {
    FilterConcat([a], t, c);
    FilterSingleton(a, c);
  }

  /** Inserting keeps the order among asteroids of equal value. */
  lemma {:induction false} InsertStable(x: Asteroid, t: seq<Asteroid>, m: Metric, v: real)
    ensures Filter(Insert(x, t, m), KeyIs(m, v)) == Filter([x] + t, KeyIs(m, v))
  {
    if t != [] && Key(t[0], m) > Key(x, m) {
      var c, head, tail := KeyIs(m, v), t[0], t[1..];
      var keepHead := if Meets(head, c) then [head] else [];
      var keepX := if Meets(x, c) then [x] else [];
      assert keepHead == [] || keepX == [];
      assert Insert(x, t, m) == [head] + Insert(x, tail, m);
      InsertStable(x, tail, m, v);
      FilterCons(head, Insert(x, tail, m), c);
      FilterCons(x, tail, c);
      assert Filter(Insert(x, t, m), c) == keepHead + (keepX + Filter(tail, c));
      FilterCons(head, tail, c);
      assert t == [head] + tail;
      FilterCons(x, t, c);
      assert Filter([x] + t, c) == keepX + (keepHead + Filter(tail, c));
    }
  }

  /** The sorted copy is sorted, largest first. */
  lemma {:induction false} SortDescSorted(s: seq<Asteroid>, m: Metric)
    ensures NonIncreasing(SortDesc(s, m), m)
    ensures |SortDesc(s, m)| == |s|
  {
    if s != [] {
      SortDescSorted(s[1..], m);
      InsertSorted(s[0], SortDesc(s[1..], m), m);
    }
  }

  /** The sorted copy holds the same asteroids. */
  lemma {:induction false} SortDescPermutes(s: seq<Asteroid>, m: Metric)
    ensures multiset(SortDesc(s, m)) == multiset(s)
  {
    if s != [] {
      SortDescPermutes(s[1..], m);
      InsertPermutes(s[0], SortDesc(s[1..], m), m);
      assert s == [s[0]] + s[1..];
    }
  }

  /** Stability: the asteroids of each value appear in the sorted copy in their list order. */
  lemma {:induction false} SortDescStable(s: seq<Asteroid>, m: Metric, v: real)
    ensures Filter(SortDesc(s, m), KeyIs(m, v)) == Filter(s, KeyIs(m, v))
  {
    if s != [] {
      SortDescStable(s[1..], m, v);
      InsertStable(s[0], SortDesc(s[1..], m), m, v);
      FilterCons(s[0], SortDesc(s[1..], m), KeyIs(m, v));
      FilterCons(s[0], s[1..], KeyIs(m, v));
      assert s == [s[0]] + s[1..];
    }
  }

  /** Neighbour ordering extends to every pair of positions. */
  lemma {:induction false} NonIncreasingPairwise(s: seq<Asteroid>, m: Metric, i: nat, j: nat)
    requires NonIncreasing(s, m)
    requires i <= j < |s|
    ensures Key(s[i], m) >= Key(s[j], m)
    decreases j - i
  {
    if i < j {
      NonIncreasingPairwise(s, m, i + 1, j);
    }
  }

  /** The default count of `getTopAsteroids`. */
  const DefaultTopCount: nat := 10

  /**
   * The `n` asteroids with the largest value of metric `m`: the first
   * `min(n, |s|)` records of the stable descending sort. No asteroid left out
   * has a larger value than one kept.
   */
  function TopAsteroids(s: seq<Asteroid>, m: Metric, n: nat := DefaultTopCount): (r: seq<Asteroid>)
    ensures |r| == if n < |s| then n else |s|
    ensures NonIncreasing(r, m)
    ensures r <= SortDesc(s, m)
    ensures multiset(r) <= multiset(s)
    ensures forall a, b :: a in r && b in multiset(s) - multiset(r) ==> Key(b, m) <= Key(a, m)
  {
    var sorted := SortDesc(s, m);
    SortDescSorted(s, m);
    SortDescPermutes(s, m);
    var k := if n < |s| then n else |s|;
    var r := sorted[..k];
    assert sorted == r + sorted[k..];
    forall a, b | a in r && b in multiset(s) - multiset(r)
      ensures Key(b, m) <= Key(a, m)
    {
      var i :| 0 <= i < k && r[i] == a;
      assert b in multiset(sorted[k..]);
      var j :| k <= j < |sorted| && sorted[j] == b by {
        assert b in sorted[k..];
      }
      NonIncreasingPairwise(sorted, m, i, j);
    }
    r
  }
}
