# NEO data module, modelled and verified in Dafny

This project models the analytical core of the NASA near-Earth-object data
module of a D3 visualisation workshop (`workshop_1/js/data_fetcher.js`).
The module keeps one process-wide data set (`asteroidData`, `null` until the
feed has been loaded). `processNEOData` builds that data set from the feed's
per-date lists. Five read-only queries derive chart data from it: by date,
by size bucket, top N by a metric, summary statistics of a metric, and daily
hazard counts.

Files, one module each:

- `wrappers.dfy` (`Wrappers`): `Option` for the source's `null`, `Result` for a query that throws.
- `date_order.dfy` (`DateOrder`): the string order of `Array.prototype.sort()`, and `SortDates`. `SortDates` is the sorting of the feed's date keys.
- `asteroids.dfy` (`Asteroids`): raw and flattened records and the enumerated `Metric`. Also the size buckets and one order-preserving `Filter` by a `Criterion` (a date, a size bucket, a hazard flag or a metric value).
- `processing.dfy` (`Processing`): `processNEOData` as the method `ProcessNeoData`, with nested loops. It is proved against the specification function `Flatten`.
- `grouping.dfy` (`Grouping`): `getAsteroidsByDate` and `getAsteroidsBySizeCategory` as loop methods, and `getDailyCounts` as a function.
- `ranking.dfy` (`Ranking`): `getTopAsteroids`, built on a stable descending insertion sort.
- `statistics.dfy` (`Statistics`): `getMetricStats`, built on an ascending sort, a left-to-right sum and positional quartiles.
- `store.dfy` (`DataFetcher`): the class `NeoStore`. Its field `asteroidData: Option<Dataset>` is the module-level variable. `Load` has the effect of a successful fetch, and the five queries are its members.

Choices that follow the code:

- Size buckets are closed on the left: 0.1 is medium, 0.5 is large and 1.0 is very large. The comment at `data_fetcher.js:145` says "> 1 km", but the comparison at line 161 puts exactly 1.0 in `very_large`. The model follows the comparison.
- Quartiles are positional. `q1` is the sorted value at index `floor(n/4)` and `q3` the one at `floor(3n/4)`, with no interpolation. For the values 10, 30, 20, 40 this gives q1 = 20, median = 25 and q3 = 40 (`StatsExample`).
- `getDailyCounts` reads `byDate[date]` for every stored date. A date whose feed list is empty has no group, and the source then throws. The model returns `Failure(MissingDate(d))` for the first such date. `DailyCountsOfFeed` proves that this happens exactly when some feed list is empty.
- The sort in `getTopAsteroids` is stable. Stability is stated as follows: for each metric value, the asteroids with that value appear in the sorted copy in their list order (`SortDescStable`).

## Model

| member | source | states |
|---|---|---|
| `DateOrder.SortDates` | workshop_1/js/data_fetcher.js:70 | the dates come out strictly ascending, and they are exactly the feed's keys |
| `DateOrder.SortedKeysUnique` | workshop_1/js/data_fetcher.js:70 | two strictly sorted lists with the same elements are equal, so the sorted key list depends only on the key set |
| `DateOrder.StrLessTotal` | workshop_1/js/data_fetcher.js:70 | the default sort order ranks any two different keys one way or the other |
| `Asteroids.SizeClassOf` | workshop_1/js/data_fetcher.js:158-162 | small iff avg < 0.1; medium iff 0.1 <= avg < 0.5; large iff 0.5 <= avg < 1; very large iff avg >= 1 |
| `Asteroids.FilterConcat` | workshop_1/js/data_fetcher.js:124-129 | a selection keeps list order: what it keeps from an earlier part comes first |
| `Asteroids.FilterCount` | workshop_1/js/data_fetcher.js:124-129 | a selection keeps each matching asteroid as often as it occurs, and nothing else |
| `Asteroids.HazardSplit` | workshop_1/js/data_fetcher.js:95-96 | the hazardous and non-hazardous counts add up to the length of the list |
| `Asteroids.SizePartition` | workshop_1/js/data_fetcher.js:157-163 | the four size buckets together hold exactly the asteroids of the list: equal multisets and sizes that add up |
| `Processing.ProcessNeoData` | workshop_1/js/data_fetcher.js:68-98 | the dates are the feed's keys, strictly sorted; the records are the per-date lists concatenated in date order; the counts are the list length and the hazardous and non-hazardous counts |
| `Processing.ToAsteroidsRecords` | workshop_1/js/data_fetcher.js:74-87 | each raw object gives one record, in feed order, carrying its group's date and the midpoint of its diameters |
| `Processing.FlattenRecords` | workshop_1/js/data_fetcher.js:73-89 | every flattened record carries one of the listed dates, and its average diameter is (min + max) / 2 |
| `Processing.FlattenOnDate` | workshop_1/js/data_fetcher.js:73-89 | when each date is listed once, selecting date d of the flattened list gives back d's raw list converted in order, or nothing if d is not listed |
| `Processing.ProcessedConsistent` | workshop_1/js/data_fetcher.js:91-97 | a processed data set has total = number of records, hazardous + non-hazardous = total, sorted distinct dates covering every record, and midpoint diameters |
| `Processing.ProcessedUnique` | workshop_1/js/data_fetcher.js:68-98 | the processed data set is determined by the feed alone |
| `Processing.ProcessedOnDate` | workshop_1/js/data_fetcher.js:73-89 | in a processed data set, the records of date d are exactly the feed's list for d, in order |
| `Grouping.GroupByDate` | workshop_1/js/data_fetcher.js:123-131 | there is a key exactly for the dates that some asteroid carries, so no group is empty; each group is that date's asteroids in list order |
| `Grouping.GroupKeys` | workshop_1/js/data_fetcher.js:125-127 | a date is a key of the grouping exactly when some asteroid carries it |
| `Grouping.GroupedExactlyOnce` | workshop_1/js/data_fetcher.js:124-129 | each asteroid occurs in its own date's group as often as in the list, and in no other group |
| `Grouping.GroupSizesTotal` | workshop_1/js/data_fetcher.js:124-129 | over a list that holds every asteroid's date once, the group sizes add up to the number of asteroids |
| `Grouping.CategorizeBySize` | workshop_1/js/data_fetcher.js:150-165 | each bucket holds the asteroids of its size class in list order and no others; the buckets together are the whole list |
| `Grouping.CountRow` | workshop_1/js/data_fetcher.js:246-249 | a row's total is its group's size, and hazardous + non-hazardous = total |
| `Grouping.DailyCounts` | workshop_1/js/data_fetcher.js:245-250 | it succeeds iff every listed date has a group; then there is one row per date in order, each counted from that date's group; otherwise it fails at the first date without a group |
| `Grouping.DailyTotalsSum` | workshop_1/js/data_fetcher.js:241-251 | on a consistent data set the daily totals add up to the cached total count |
| `Grouping.DailyCountsOfFeed` | workshop_1/js/data_fetcher.js:245-250 | for a processed feed, the daily counts succeed iff no feed list is empty; each row's total is then the length of that date's feed list |
| `Ranking.SortDescSorted` | workshop_1/js/data_fetcher.js:189 | the sorted copy is non-increasing in the metric and as long as the list |
| `Ranking.SortDescPermutes` | workshop_1/js/data_fetcher.js:188-189 | the sorted copy holds the same asteroids (equal multisets) |
| `Ranking.SortDescStable` | workshop_1/js/data_fetcher.js:189 | asteroids with equal metric values keep their list order |
| `Ranking.TopAsteroids` | workshop_1/js/data_fetcher.js:185-191 | the length is min(n, count); the result is non-increasing and a prefix of the stable descending sort; no asteroid left out has a larger value than one kept; the default n is 10 |
| `Statistics.SortAscCorrect` | workshop_1/js/data_fetcher.js:214 | the sorted values are ascending and are the same multiset of values |
| `Statistics.SumSortAsc` | workshop_1/js/data_fetcher.js:220 | summing the sorted values gives the total of the unsorted ones |
| `Statistics.MeanBounds` | workshop_1/js/data_fetcher.js:220 | the mean of values between lo and hi lies between lo and hi |
| `Statistics.StatsOf` | workshop_1/js/data_fetcher.js:214-224 | min and max are values of the list that bound every value; mean = sum / n and lies between them; min <= q1 <= median <= q3 <= max (which values q1, q3 and the median are is stated by `QuartileRanks`) |
| `Statistics.QuartileRanks` | workshop_1/js/data_fetcher.js:221-223 | q1, q3 and an odd count's median are nearest-rank statistics: at most floor(n/4) (floor(3n/4), floor(n/2)) values lie below each, and more lie at or below it; for an even count the median is the mean of the values of rank n/2 - 1 and n/2 |
| `Statistics.MetricStats` | workshop_1/js/data_fetcher.js:211-225 | on a non-empty list, min and max are attained by some asteroid and bound every asteroid's value; the mean is the total of the metric's values over the count; the order of the quartiles holds |
| `Statistics.StatsExample` | workshop_1/js/data_fetcher.js:217-224 | the values 10, 30, 20, 40 give min 10, max 40, mean 25, median 25, q1 20, q3 40 |
| `DataFetcher.NeoStore.constructor` | workshop_1/js/data_fetcher.js:7 | no data is loaded at the start |
| `DataFetcher.NeoStore.Load` | workshop_1/js/data_fetcher.js:38 | the stored data set is replaced as a whole by the processed feed, and it stays consistent |
| `DataFetcher.NeoStore.GetAsteroidsByDate` | workshop_1/js/data_fetcher.js:120-132 | it returns None exactly when nothing is loaded; otherwise the date grouping of the stored asteroids |
| `DataFetcher.NeoStore.GetAsteroidsBySizeCategory` | workshop_1/js/data_fetcher.js:147-166 | it returns None exactly when nothing is loaded; otherwise the four buckets, which partition the stored asteroids |
| `DataFetcher.NeoStore.GetTopAsteroids` | workshop_1/js/data_fetcher.js:185-191 | it returns None exactly when nothing is loaded; otherwise min(n, count) asteroids, non-increasing, a prefix of the stable sort; the default n is 10 |
| `DataFetcher.NeoStore.GetMetricStats` | workshop_1/js/data_fetcher.js:211-225 | it returns None exactly when nothing is loaded; otherwise min and max are attained by stored asteroids and bound every stored value, the mean is the total over the count, and the quartiles are ordered |
| `DataFetcher.NeoStore.GetDailyCounts` | workshop_1/js/data_fetcher.js:241-251 | it returns None exactly when nothing is loaded; it fails iff a stored date has no asteroids; otherwise one row per date, counted from that date's asteroids; on a consistent data set the totals add up to the total count |

## Left out

- Network fetch and start-up (`fetchAsteroidData`, `initializeData`): the HTTP request, JSON parsing, the API-key lookup and console logging are not modelled. `Load` models only their effect, which is replacing `asteroidData` with the processed feed. A failed fetch does not assign, so it leaves the store unchanged and needs no operation.
- Raw input shape: the feed's nested JSON and the `parseFloat` of velocity and miss distance are not modelled. The feed is taken as a map from date to a list of `RawNeo` records whose fields are already numbers. Only the first close-approach record is read, so it is that record's values that `RawNeo` carries.
- Floating point: numeric fields are Dafny `real`s, so rounding, NaN and `Infinity` are not modelled. `floor(n * 0.25)` and `floor(n * 0.75)` are the integer divisions `n / 4` and `(3 * n) / 4`. These agree for every JavaScript array length (any count below 2^32), where `n * 0.75` is computed exactly.
- Metric names: a metric is one of the four fields named in the source's documentation (average diameter, velocity, miss distance, absolute magnitude). An unknown name, which gives NaN comparisons in the source, cannot be expressed. Neither can `diameter_min` or `diameter_max`.
- Statistics.MetricStats: requires a non-empty list. On an empty list the source returns `undefined` for min, max, median and the quartiles and NaN for the mean; this is not modelled.
- DataFetcher.NeoStore.GetMetricStats: requires the loaded list, if any, to be non-empty, for the reason just given.
- Ranking.TopAsteroids: `n` is a natural number. A negative `n`, which `slice(0, n)` reads as counting from the end, is not modelled.
- Inherited property names as dates: a date such as `constructor` or `toString` finds `grouped[date]` already truthy, so the source's `push` throws; `GroupByDate` groups such a date normally. The feed's keys are always `YYYY-MM-DD` dates.
- String order: the date keys are compared character by character. JavaScript compares UTF-16 code units; the two orders agree on the ASCII `YYYY-MM-DD` keys of the feed.
- Chart rendering and the chart registry (`examples/js/*`): these are presentation code over the query results and are not part of this model.
