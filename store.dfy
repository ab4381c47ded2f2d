/**
 * The module-level `asteroidData` of the data module and the five queries
 * that read it. `None` stands for `null`: nothing loaded yet.
 */
module DataFetcher {
  import opened Wrappers
  import opened Asteroids
  import opened Processing
  import opened Grouping
  import opened Ranking
  import opened Statistics

  class NeoStore {
    var asteroidData: Option<Dataset>

    /** A loaded data set is always a consistent one. */
    ghost predicate Valid()
      reads this
    {
      asteroidData.Some? ==> Consistent(asteroidData.value)
    }

    /** The page starts with no data loaded. */
    constructor ()
      ensures asteroidData == None
      ensures Valid()
    {
      asteroidData := None;
    }

    /**
     * The effect of a successful `fetchAsteroidData`: the stored data set is
     * replaced as a whole by the processed feed, which is also returned.
     */
    method Load(raw: map<string, seq<RawNeo>>) returns (ds: Dataset)
      modifies this
      ensures ProcessedFrom(ds, raw)
      ensures asteroidData == Some(ds)
      ensures Valid()
    {
      ds := ProcessNeoData(raw);
      ProcessedConsistent(ds, raw);
      asteroidData := Some(ds);
    }

    /**
     * `getAsteroidsByDate`: `None` exactly when nothing is loaded; otherwise
     * the date grouping of the loaded asteroids.
     */
    method GetAsteroidsByDate() returns (r: Option<map<string, seq<Asteroid>>>)
      ensures r.None? <==> asteroidData.None?
      ensures r.Some? ==> IsDateGrouping(asteroidData.value.asteroids, r.value)
    {
      if asteroidData.None? {
        return None;
      }
      var grouped := GroupByDate(asteroidData.value.asteroids);
      r := Some(grouped);
    }

    /**
     * `getAsteroidsBySizeCategory`: `None` exactly when nothing is loaded;
     * otherwise four buckets that split the loaded asteroids by size class.
     */
    method GetAsteroidsBySizeCategory() returns (r: Option<SizeCategories>)
      ensures r.None? <==> asteroidData.None?
      ensures r.Some? ==>
                && (forall k :: Bucket(r.value, k) == Filter(asteroidData.value.asteroids, InSize(k)))
                && multiset(r.value.small) + multiset(r.value.medium)
                   + multiset(r.value.large) + multiset(r.value.veryLarge)
                   == multiset(asteroidData.value.asteroids)
    {
      if asteroidData.None? {
        return None;
      }
      var c := CategorizeBySize(asteroidData.value.asteroids);
      r := Some(c);
    }

    /**
     * `getTopAsteroids(metric, n = 10)`: `None` exactly when nothing is
     * loaded; otherwise the first `min(n, count)` asteroids of the stable
     * descending sort, taken from a copy so the stored list is not touched.
     */
    function GetTopAsteroids(metric: Metric, n: nat := DefaultTopCount): (r: Option<seq<Asteroid>>)
      reads this
      ensures r.None? <==> asteroidData.None?
      ensures r.Some? ==>
                var s := asteroidData.value.asteroids;
                && |r.value| == (if n < |s| then n else |s|)
                && NonIncreasing(r.value, metric)
                && r.value <= SortDesc(s, metric)
    {
      if asteroidData.None? then None else Some(TopAsteroids(asteroidData.value.asteroids, metric, n))
    }

    /**
     * `getMetricStats(metric)`: `None` exactly when nothing is loaded;
     * otherwise the statistics of the metric over the loaded asteroids: the
     * minimum and maximum are attained and bound every value, and the mean is
     * the total over the count.
     */
    function GetMetricStats(metric: Metric): (r: Option<Stats>)
      reads this
      requires asteroidData.Some? ==> |asteroidData.value.asteroids| > 0
      ensures r.None? <==> asteroidData.None?
      ensures r.Some? ==>
                var s := asteroidData.value.asteroids;
                && (exists a :: a in s && Key(a, metric) == r.value.min)
                && (exists a :: a in s && Key(a, metric) == r.value.max)
                && (forall a :: a in s ==> r.value.min <= Key(a, metric) <= r.value.max)
                && r.value.mean == Sum(Values(s, metric)) / (|s| as real)
                && r.value.min <= r.value.q1 <= r.value.median <= r.value.q3 <= r.value.max
    {
      if asteroidData.None? then None else Some(MetricStats(asteroidData.value.asteroids, metric))
    }

    /**
     * `getDailyCounts`: `None` exactly when nothing is loaded; otherwise one
     * row per stored date, in order, counted from that date's group; it fails
     * exactly when some stored date has no asteroids. On a consistent data set
     * the totals add up to the cached total count.
     */
    method GetDailyCounts() returns (r: Option<Result<seq<DailyCount>, QueryError>>)
      ensures r.None? <==> asteroidData.None?
      ensures r.Some? ==>
                var s, dates := asteroidData.value.asteroids, asteroidData.value.dates;
                && (r.value.Success? <==> forall d :: d in dates ==> Filter(s, OnDate(d)) != [])
                && (r.value.Success? ==>
                      && |r.value.value| == |dates|
                      && (forall i :: 0 <= i < |dates| ==>
                            r.value.value[i] == CountRow(dates[i], Filter(s, OnDate(dates[i]))))
                      && (Valid() ==> SumTotals(r.value.value) == asteroidData.value.totalCount))
    {
      if asteroidData.None? {
        return None;
      }
      var ds := asteroidData.value;
      var byDate := GroupByDate(ds.asteroids);
      var rows := DailyCounts(byDate, ds.dates);
      if rows.Success? && Valid() {
        DailyTotalsSum(ds, byDate);
      }
      r := Some(rows);
    }
  }
}
