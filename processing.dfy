/**
 * `processNEOData`: flattens the feed's per-date lists into one list of
 * asteroid records and caches the sorted dates and the counts beside it.
 */
module Processing {
  import opened DateOrder
  import opened Asteroids

  /** The processed data set the queries read. */
  datatype Dataset = Dataset(
    asteroids: seq<Asteroid>,
    dates: seq<string>,
    totalCount: nat,
    hazardousCount: nat,
    nonHazardousCount: nat)

  /** The flattened record for a raw object listed under `date`. */
  function ToAsteroid(date: string, r: RawNeo): Asteroid
  {
    Asteroid(r.id, r.name, date, r.diameterMin, r.diameterMax,
             (r.diameterMin + r.diameterMax) / 2.0,
             r.isHazardous, r.velocity, r.missDistance, r.absoluteMagnitude)
  }

  /** The records for the raw objects listed under `date`, in feed order. */
  function ToAsteroids(date: string, rs: seq<RawNeo>): seq<Asteroid>
  {
    if rs == [] then []
    else ToAsteroids(date, rs[..|rs| - 1]) + [ToAsteroid(date, rs[|rs| - 1])]
  }

  /** The per-date record lists of `dates`, concatenated in the order of `dates`. */
  function Flatten(raw: map<string, seq<RawNeo>>, dates: seq<string>): seq<Asteroid>
    requires forall d :: d in dates ==> d in raw
  {
    if dates == [] then []
    else Flatten(raw, dates[..|dates| - 1]) + ToAsteroids(dates[|dates| - 1], raw[dates[|dates| - 1]])
  }

  /** `ds` is what `processNEOData` returns for the feed `raw`. */
  ghost predicate ProcessedFrom(ds: Dataset, raw: map<string, seq<RawNeo>>)
  {
    && StrictlySorted(ds.dates)
    && (forall d :: d in ds.dates <==> d in raw)
    && ds.asteroids == Flatten(raw, ds.dates)
    && ds.totalCount == |ds.asteroids|
    && ds.hazardousCount == |Filter(ds.asteroids, Hazard(true))|
    && ds.nonHazardousCount == |Filter(ds.asteroids, Hazard(false))|
  }

  /**
   * What every processed data set satisfies, whatever the feed: the part of
   * `ProcessedFrom` that can be stated without the feed (the same three count
   * equations, sorted dates), plus what follows from it: the counts add up,
   * every record carries a listed date, and every average diameter is the
   * midpoint. `ProcessedConsistent` proves it of every processed data set.
   */
  ghost predicate Consistent(ds: Dataset)
  {
    && ds.totalCount == |ds.asteroids|
    && ds.hazardousCount == |Filter(ds.asteroids, Hazard(true))|
    && ds.nonHazardousCount == |Filter(ds.asteroids, Hazard(false))|
    && ds.hazardousCount + ds.nonHazardousCount == ds.totalCount
    && StrictlySorted(ds.dates)
    && (forall a :: a in ds.asteroids ==> a.date in ds.dates)
    && (forall a :: a in ds.asteroids ==> a.diameterAvg == (a.diameterMin + a.diameterMax) / 2.0)
  }

  /**
   * Builds the data set as the source does: sort the date keys, then push one
   * record per raw object, date by date, and count at the end.
   */
  method ProcessNeoData(raw: map<string, seq<RawNeo>>) returns (ds: Dataset)
    ensures ProcessedFrom(ds, raw)
  {
    var dates := SortDates(raw.Keys);
    var asteroids: seq<Asteroid> := [];
    var i := 0;
    while i < |dates|
      invariant 0 <= i <= |dates|
      invariant asteroids == Flatten(raw, dates[..i])
    {
      var date := dates[i];
      var records := raw[date];
      var j := 0;
      while j < |records|
        invariant 0 <= j <= |records|
        invariant asteroids == Flatten(raw, dates[..i]) + ToAsteroids(date, records[..j])
      {
        assert records[..j + 1][..j] == records[..j];
        asteroids := asteroids + [ToAsteroid(date, records[j])];
        j := j + 1;
      }
      assert records[..j] == records;
      assert dates[..i + 1][..i] == dates[..i];
      i := i + 1;
    }
    assert dates[..i] == dates;
    ds := Dataset(asteroids, dates, |asteroids|,
                  |Filter(asteroids, Hazard(true))|, |Filter(asteroids, Hazard(false))|);
  }

  /** Every record of a date group carries that date and the midpoint diameter. */
  lemma {:induction false} ToAsteroidsRecords(date: string, rs: seq<RawNeo>)
    ensures |ToAsteroids(date, rs)| == |rs|
    ensures forall i :: 0 <= i < |rs| ==> ToAsteroids(date, rs)[i] == ToAsteroid(date, rs[i])
    ensures forall a :: a in ToAsteroids(date, rs) ==>
              a.date == date && a.diameterAvg == (a.diameterMin + a.diameterMax) / 2.0
  {
    if rs != [] {
      ToAsteroidsRecords(date, rs[..|rs| - 1]);
    }
  }

  /** Every flattened record carries one of the listed dates and the midpoint diameter. */
  lemma {:induction false} FlattenRecords(raw: map<string, seq<RawNeo>>, dates: seq<string>)
    requires forall d :: d in dates ==> d in raw
    ensures forall a :: a in Flatten(raw, dates) ==>
              a.date in dates && a.diameterAvg == (a.diameterMin + a.diameterMax) / 2.0
  {
    if dates != [] {
      var init, last := dates[..|dates| - 1], dates[|dates| - 1];
      FlattenRecords(raw, init);
      ToAsteroidsRecords(last, raw[last]);
      forall a | a in Flatten(raw, dates)
        ensures a.date in dates
      {
        if a in Flatten(raw, init) {
          var k :| 0 <= k < |init| && init[k] == a.date;
          assert dates[k] == a.date;
        }
      }
    }
  }

  /** Keeping one date of a single date group keeps all of it or nothing. */
  lemma {:induction false} ToAsteroidsOnDate(date: string, rs: seq<RawNeo>, d: string)
    ensures Filter(ToAsteroids(date, rs), OnDate(d)) == if date == d then ToAsteroids(date, rs) else []
  {
    if rs != [] {
      ToAsteroidsOnDate(date, rs[..|rs| - 1], d);
    }
  }

  /**
   * Selecting one date of the flattened list gives back exactly that date's
   * raw group, in feed order, provided the dates are listed once each.
   */
  lemma {:induction false} FlattenOnDate(raw: map<string, seq<RawNeo>>, dates: seq<string>, d: string)
    requires forall d :: d in dates ==> d in raw
    requires forall i, j :: 0 <= i < j < |dates| ==> dates[i] != dates[j]
    ensures Filter(Flatten(raw, dates), OnDate(d)) == if d in dates then ToAsteroids(d, raw[d]) else []
  {
    if dates != [] {
      var init, last := dates[..|dates| - 1], dates[|dates| - 1];
      FlattenOnDate(raw, init, d);
      FilterConcat(Flatten(raw, init), ToAsteroids(last, raw[last]), OnDate(d));
      ToAsteroidsOnDate(last, raw[last], d);
      assert dates == init + [last];
      if last == d {
        assert d !in init;
      }
    }
  }

  /** A processed data set is consistent. */
  lemma ProcessedConsistent(ds: Dataset, raw: map<string, seq<RawNeo>>)
    requires ProcessedFrom(ds, raw)
    ensures Consistent(ds)
  {
    HazardSplit(ds.asteroids);
    FlattenRecords(raw, ds.dates);
  }

  /** The feed determines the processed data set: nothing depends on key order. */
  lemma ProcessedUnique(raw: map<string, seq<RawNeo>>, ds1: Dataset, ds2: Dataset)
    requires ProcessedFrom(ds1, raw) && ProcessedFrom(ds2, raw)
    ensures ds1 == ds2
  {
    SortedKeysUnique(ds1.dates, ds2.dates);
  }

  /**
   * In a processed data set the records of date `d` are exactly the raw
   * objects listed under `d`, in feed order.
   */
  lemma ProcessedOnDate(ds: Dataset, raw: map<string, seq<RawNeo>>, d: string)
    requires ProcessedFrom(ds, raw)
    ensures Filter(ds.asteroids, OnDate(d)) == if d in raw then ToAsteroids(d, raw[d]) else []
  {
    StrictlySortedDistinct(ds.dates);
    FlattenOnDate(raw, ds.dates, d);
  }
}
