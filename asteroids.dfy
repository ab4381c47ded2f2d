/**
 * The asteroid record of the data module (workshop_1/js/data_fetcher.js),
 * its numeric metrics, its size class, and one order-preserving filter that
 * every query selects with.
 */
module Asteroids {

  /** One near-Earth object as the feed lists it under a date, fields already numeric. */
  datatype RawNeo = RawNeo(
    id: string,
    name: string,
    diameterMin: real,
    diameterMax: real,
    isHazardous: bool,
    velocity: real,
    missDistance: real,
    absoluteMagnitude: real)

  /** One flattened asteroid record. */
  datatype Asteroid = Asteroid(
    id: string,
    name: string,
    date: string,
    diameterMin: real,
    diameterMax: real,
    diameterAvg: real,
    isHazardous: bool,
    velocity: real,
    missDistance: real,
    absoluteMagnitude: real)

  /** The numeric fields a query may rank or summarise by. */
  datatype Metric = DiameterAvg | Velocity | MissDistance | AbsoluteMagnitude

  /** The value of metric `m` on asteroid `a` (the source's `a[metric]`). */
  function Key(a: Asteroid, m: Metric): real
  {
    match m
    case DiameterAvg => a.diameterAvg
    case Velocity => a.velocity
    case MissDistance => a.missDistance
    case AbsoluteMagnitude => a.absoluteMagnitude
  }

  /** The four size buckets of `getAsteroidsBySizeCategory`. */
  datatype SizeClass = Small | Medium | Large | VeryLarge

  /**
   * The bucket for an average diameter in kilometres, thresholds compared in the source's
   * order; each bucket is closed on the left, so a boundary value belongs to
   * the larger bucket.
   */
  function SizeClassOf(avg: real): (c: SizeClass)
    ensures c == Small <==> avg < 0.1
    ensures c == Medium <==> 0.1 <= avg < 0.5
    ensures c == Large <==> 0.5 <= avg < 1.0
    ensures c == VeryLarge <==> 1.0 <= avg
  {
    if avg < 0.1 then Small
    else if avg < 0.5 then Medium
    else if avg < 1.0 then Large
    else VeryLarge
  }

  /** What a filter keeps: one date, one size bucket, one hazard flag, or one metric value. */
  datatype Criterion =
    | OnDate(date: string)
    | InSize(size: SizeClass)
    | Hazard(flag: bool)
    | KeyIs(metric: Metric, value: real)

  predicate Meets(a: Asteroid, c: Criterion)
  {
    match c
    case OnDate(d) => a.date == d
    case InSize(k) => SizeClassOf(a.diameterAvg) == k
    case Hazard(h) => a.isHazardous == h
    case KeyIs(m, v) => Key(a, m) == v
  }

  /** The asteroids of `s` that meet `c`, in their order in `s`. */
  function Filter(s: seq<Asteroid>, c: Criterion): seq<Asteroid>
  {
    if s == [] then []
    else Filter(s[..|s| - 1], c) + (if Meets(s[|s| - 1], c) then [s[|s| - 1]] else [])
  }

  /** Every kept asteroid meets the criterion. */
  lemma {:induction false} FilterMeets(s: seq<Asteroid>, c: Criterion)
    ensures forall a :: a in Filter(s, c) ==> a in s && Meets(a, c)
  {
    if s != [] {
      FilterMeets(s[..|s| - 1], c);
    }
  }

  /**
   * Filtering keeps the relative order: what is kept from an earlier part of
   * the sequence comes before what is kept from a later part.
   */
  lemma {:induction false} FilterConcat(s: seq<Asteroid>, t: seq<Asteroid>, c: Criterion)
    ensures Filter(s + t, c) == Filter(s, c) + Filter(t, c)
    decreases |t|
  {
    if t != [] {
      assert (s + t)[..|s + t| - 1] == s + t[..|t| - 1];
      FilterConcat(s, t[..|t| - 1], c);
    } else {
      assert s + t == s;
    }
  }

  /** Filtering a one-element sequence. */
  lemma FilterSingleton(a: Asteroid, c: Criterion)
    ensures Filter([a], c) == if Meets(a, c) then [a] else []
  {
  }

  /** Each occurrence that meets `c` is kept exactly as often as it occurs; nothing else is kept. */
  lemma {:induction false} FilterCount(s: seq<Asteroid>, c: Criterion, a: Asteroid)
    ensures multiset(Filter(s, c))[a] == if Meets(a, c) then multiset(s)[a] else 0
  {
    if s != [] {
      FilterCount(s[..|s| - 1], c, a);
      assert s == s[..|s| - 1] + [s[|s| - 1]];
    }
  }

  /** The filter is empty exactly when no asteroid meets the criterion. */
  lemma {:induction false} FilterEmpty(s: seq<Asteroid>, c: Criterion)
    ensures Filter(s, c) == [] <==> forall a :: a in s ==> !Meets(a, c)
  {
    if s != [] {
      FilterEmpty(s[..|s| - 1], c);
      assert s == s[..|s| - 1] + [s[|s| - 1]];
    }
  }

  /** Hazardous and non-hazardous asteroids together are all of them. */
  lemma {:induction false} HazardSplit(s: seq<Asteroid>)
    ensures |Filter(s, Hazard(true))| + |Filter(s, Hazard(false))| == |s|
  {
    if s != [] {
      HazardSplit(s[..|s| - 1]);
    }
  }

  /**
   * The four size buckets partition the asteroids: every occurrence lands in
   * exactly one bucket, so the bucket contents add up to the whole.
   */
  lemma SizePartition(s: seq<Asteroid>)
    ensures multiset(Filter(s, InSize(Small))) + multiset(Filter(s, InSize(Medium)))
          + multiset(Filter(s, InSize(Large))) + multiset(Filter(s, InSize(VeryLarge)))
         == multiset(s)
    ensures |Filter(s, InSize(Small))| + |Filter(s, InSize(Medium))|
          + |Filter(s, InSize(Large))| + |Filter(s, InSize(VeryLarge))| == |s|
  {
    var small, medium, large, veryLarge :=
      Filter(s, InSize(Small)), Filter(s, InSize(Medium)),
      Filter(s, InSize(Large)), Filter(s, InSize(VeryLarge));
    var whole := multiset(small) + multiset(medium) + multiset(large) + multiset(veryLarge);
    forall y
      ensures whole[y] == multiset(s)[y]
    {
      FilterCount(s, InSize(Small), y);
      FilterCount(s, InSize(Medium), y);
      FilterCount(s, InSize(Large), y);
      FilterCount(s, InSize(VeryLarge), y);
    }
    assert whole == multiset(s);
    assert |whole| == |small| + |medium| + |large| + |veryLarge|;
  }
}
