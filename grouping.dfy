/**
 * The grouping queries of the data module: asteroids by date, asteroids by
 * size bucket, and the per-date hazard counts built on the date grouping.
 */
module Grouping {
  import opened Wrappers
  import opened DateOrder
  import opened Asteroids
  import opened Processing

  /**
   * `grouped` is the date grouping of `s`: a key for exactly the dates some
   * asteroid carries (so no group is empty), and under each key the asteroids
   * of that date in their order in `s`.
   */
  ghost predicate IsDateGrouping(s: seq<Asteroid>, grouped: map<string, seq<Asteroid>>)
  {
    && (forall d :: d in grouped <==> Filter(s, OnDate(d)) != [])
    && (forall d :: d in grouped ==> grouped[d] == Filter(s, OnDate(d)))
  }

  /**
   * `getAsteroidsByDate`: walks the list once, creating a key on first sight
   * of a date and appending each asteroid to its date's group.
   */
  method GroupByDate(s: seq<Asteroid>) returns (grouped: map<string, seq<Asteroid>>)
    ensures IsDateGrouping(s, grouped)
  {
    grouped := map[];
    var i := 0;
    while i < |s|
      invariant 0 <= i <= |s|
      invariant forall d :: d in grouped <==> Filter(s[..i], OnDate(d)) != []
      invariant forall d :: d in grouped ==> grouped[d] == Filter(s[..i], OnDate(d))
    {
      var a := s[i];
      if a.date !in grouped {
        grouped := grouped[a.date := []];
      }
      grouped := grouped[a.date := grouped[a.date] + [a]];
      assert s[..i + 1][..i] == s[..i];
      i := i + 1;
    }
    assert s[..i] == s;
  }

  /** A date is a key of the grouping exactly when some asteroid carries it. */
  lemma GroupKeys(s: seq<Asteroid>, grouped: map<string, seq<Asteroid>>, d: string)
    requires IsDateGrouping(s, grouped)
    ensures d in grouped <==> exists a :: a in s && a.date == d
  {
    FilterEmpty(s, OnDate(d));
  }

  /** Every asteroid occurs in the group of its own date as often as in `s`, and in no other group. */
  lemma GroupedExactlyOnce(s: seq<Asteroid>, grouped: map<string, seq<Asteroid>>, a: Asteroid)
    requires IsDateGrouping(s, grouped)
    requires a in s
    ensures a.date in grouped && multiset(grouped[a.date])[a] == multiset(s)[a]
    ensures forall d :: d in grouped && d != a.date ==> a !in grouped[d]
  {
    FilterCount(s, OnDate(a.date), a);
    forall d | d in grouped && d != a.date
      ensures a !in grouped[d]
    {
      FilterMeets(s, OnDate(d));
    }
  }

  /** The total size of the groups of the dates in `ds`. */
  function GroupSizes(s: seq<Asteroid>, ds: seq<string>): nat
  {
    if ds == [] then 0 else |Filter(s, OnDate(ds[0]))| + GroupSizes(s, ds[1..])
  }

  /** How many times `d` is listed in `ds`. */
  function Occurrences(ds: seq<string>, d: string): nat
  {
    if ds == [] then 0 else (if ds[0] == d then 1 else 0) + Occurrences(ds[1..], d)
  }

  lemma {:induction false} OccurrencesOnce(ds: seq<string>, d: string)
    requires d in ds
    requires forall i, j :: 0 <= i < j < |ds| ==> ds[i] != ds[j]
    ensures Occurrences(ds, d) == 1
  {
    if ds[0] == d {
      OccurrencesNone(ds[1..], d);
    } else {
      OccurrencesOnce(ds[1..], d);
    }
  }

  lemma {:induction false} OccurrencesNone(ds: seq<string>, d: string)
    requires d !in ds
    ensures Occurrences(ds, d) == 0
  {
    if ds != [] {
      OccurrencesNone(ds[1..], d);
    }
  }

  lemma {:induction false} GroupSizesAppend(s: seq<Asteroid>, a: Asteroid, ds: seq<string>)
    ensures GroupSizes(s + [a], ds) == GroupSizes(s, ds) + Occurrences(ds, a.date)
  {
    if ds != [] {
      GroupSizesAppend(s, a, ds[1..]);
      assert (s + [a])[..|s + [a]| - 1] == s;
    }
  }

  /**
   * The groups of a list of dates that holds every asteroid's date once
   * together hold every asteroid: their sizes add up to the total.
   */
  lemma {:induction false} GroupSizesTotal(s: seq<Asteroid>, ds: seq<string>)
    requires forall i, j :: 0 <= i < j < |ds| ==> ds[i] != ds[j]
    requires forall a :: a in s ==> a.date in ds
    ensures GroupSizes(s, ds) == |s|
  {
    if s == [] {
      GroupSizesEmpty(ds);
    } else {
      var init, last := s[..|s| - 1], s[|s| - 1];
      assert s == init + [last];
      GroupSizesTotal(init, ds);
      GroupSizesAppend(init, last, ds);
      OccurrencesOnce(ds, last.date);
    }
  }

  lemma {:induction false} GroupSizesEmpty(ds: seq<string>)
    ensures GroupSizes([], ds) == 0
  {
    if ds != [] {
      GroupSizesEmpty(ds[1..]);
    }
  }

  /** The four lists returned by `getAsteroidsBySizeCategory`. */
  datatype SizeCategories = SizeCategories(
    small: seq<Asteroid>,
    medium: seq<Asteroid>,
    large: seq<Asteroid>,
    veryLarge: seq<Asteroid>)

  /** The asteroids of bucket `k`. */
  function Bucket(c: SizeCategories, k: SizeClass): seq<Asteroid>
  {
    match k
    case Small => c.small
    case Medium => c.medium
    case Large => c.large
    case VeryLarge => c.veryLarge
  }

  /**
   * `getAsteroidsBySizeCategory`: one pass that appends each asteroid to the
   * bucket of its average diameter. Each bucket keeps the asteroids of its
   * size class in list order; the buckets together hold every asteroid once.
   */
  method CategorizeBySize(s: seq<Asteroid>) returns (c: SizeCategories)
    ensures forall k :: Bucket(c, k) == Filter(s, InSize(k))
    ensures forall k, a :: a in Bucket(c, k) ==> SizeClassOf(a.diameterAvg) == k
    ensures multiset(c.small) + multiset(c.medium) + multiset(c.large) + multiset(c.veryLarge)
         == multiset(s)
    ensures |c.small| + |c.medium| + |c.large| + |c.veryLarge| == |s|
  {
    var small, medium, large, veryLarge := [], [], [], [];
    var i := 0;
    while i < |s|
      invariant 0 <= i <= |s|
      invariant small == Filter(s[..i], InSize(Small))
      invariant medium == Filter(s[..i], InSize(Medium))
      invariant large == Filter(s[..i], InSize(Large))
      invariant veryLarge == Filter(s[..i], InSize(VeryLarge))
    {
      var a := s[i];
      var size := a.diameterAvg;
      if size < 0.1 {
        small := small + [a];
      } else if size < 0.5 {
        medium := medium + [a];
      } else if size < 1.0 {
        large := large + [a];
      } else {
        veryLarge := veryLarge + [a];
      }
      assert s[..i + 1][..i] == s[..i];
      i := i + 1;
    }
    assert s[..i] == s;
    c := SizeCategories(small, medium, large, veryLarge);
    SizePartition(s);
    forall k: SizeClass {
      FilterMeets(s, InSize(k));
    }
  }

  /** One row of `getDailyCounts`. */
  datatype DailyCount = DailyCount(date: string, hazardous: nat, nonHazardous: nat, total: nat)

  /** A listed date without a group: the source throws when it reads `byDate[date]`. */
  datatype QueryError = MissingDate(date: string)

  /** The row for a date group. */
  function CountRow(date: string, group: seq<Asteroid>): (row: DailyCount)
    ensures row.date == date && row.total == |group|
    ensures row.hazardous + row.nonHazardous == row.total
  {
    HazardSplit(group);
    DailyCount(date, |Filter(group, Hazard(true))|, |Filter(group, Hazard(false))|, |group|)
  }

  /**
   * `getDailyCounts` over a date grouping: one row per listed date, in list
   * order; fails at the first listed date that has no group.
   */
  function DailyCounts(grouped: map<string, seq<Asteroid>>, dates: seq<string>)
    : (r: Result<seq<DailyCount>, QueryError>)
    ensures r.Success? <==> forall d :: d in dates ==> d in grouped
    ensures r.Success? ==>
              && |r.value| == |dates|
              && forall i :: 0 <= i < |dates| ==>
                   && dates[i] in grouped
                   && r.value[i] == CountRow(dates[i], grouped[dates[i]])
    ensures r.Failure? ==>
              exists k :: 0 <= k < |dates| && dates[k] == r.error.date && dates[k] !in grouped
                          && forall j :: 0 <= j < k ==> dates[j] in grouped
  {
    if dates == [] then Success([])
    else if dates[0] !in grouped then Failure(MissingDate(dates[0]))
    else
      match DailyCounts(grouped, dates[1..])
      case Success(rows) => Success([CountRow(dates[0], grouped[dates[0]])] + rows)
      case Failure(e) =>
        assert exists k :: 0 <= k < |dates[1..]| && dates[1..][k] == e.date && dates[1..][k] !in grouped
                           && forall j :: 0 <= j < k ==> dates[1..][j] in grouped;
        var k :| 0 <= k < |dates[1..]| && dates[1..][k] == e.date && dates[1..][k] !in grouped
                 && forall j :: 0 <= j < k ==> dates[1..][j] in grouped;
        assert dates[k + 1] == e.date;
        Failure(e)
  }

  /** The sum of the `total` column. */
  function SumTotals(rows: seq<DailyCount>): nat
  {
    if rows == [] then 0 else rows[0].total + SumTotals(rows[1..])
  }

  /**
   * For a consistent data set whose every listed date has asteroids, the
   * daily totals add up to the cached total count.
   */
  lemma DailyTotalsSum(ds: Dataset, grouped: map<string, seq<Asteroid>>)
    requires Consistent(ds)
    requires IsDateGrouping(ds.asteroids, grouped)
    requires DailyCounts(grouped, ds.dates).Success?
    ensures SumTotals(DailyCounts(grouped, ds.dates).value) == ds.totalCount
  {
    StrictlySortedDistinct(ds.dates);
    GroupSizesTotal(ds.asteroids, ds.dates);
    SumTotalsIsGroupSizes(ds.asteroids, grouped, ds.dates);
  }

  lemma {:induction false} SumTotalsIsGroupSizes(s: seq<Asteroid>, grouped: map<string, seq<Asteroid>>, ds: seq<string>)
    requires IsDateGrouping(s, grouped)
    requires DailyCounts(grouped, ds).Success?
    ensures SumTotals(DailyCounts(grouped, ds).value) == GroupSizes(s, ds)
  {
    if ds != [] {
      SumTotalsIsGroupSizes(s, grouped, ds[1..]);
    }
  }

  /**
   * For a processed feed: the daily counts succeed exactly when no date of
   * the feed has an empty list, and then each row's total is the length of
   * that date's list in the feed.
   */
  lemma DailyCountsOfFeed(ds: Dataset, raw: map<string, seq<RawNeo>>, grouped: map<string, seq<Asteroid>>)
    requires ProcessedFrom(ds, raw)
    requires IsDateGrouping(ds.asteroids, grouped)
    ensures DailyCounts(grouped, ds.dates).Success? <==> forall d :: d in raw ==> raw[d] != []
    ensures DailyCounts(grouped, ds.dates).Success? ==>
              forall i :: 0 <= i < |ds.dates| ==>
                DailyCounts(grouped, ds.dates).value[i].total == |raw[ds.dates[i]]|
  {
    forall d | d in raw
      ensures d in grouped <==> raw[d] != []
      ensures d in grouped ==> |grouped[d]| == |raw[d]|
    {
      ProcessedOnDate(ds, raw, d);
      ToAsteroidsRecords(d, raw[d]);
    }
  }
}
