# Mumbai weather dashboard — verified model of the data layer

The dashboard (`script.js`) loads a CSV of hourly weather observations for
Mumbai into one module-level array, `weatherData`, and draws charts and a
map from it. Almost all of the file is D3 and Leaflet drawing; this project
models the data logic underneath the drawing and proves what it promises:

- **Rainfall estimate** (`Rainfall`): the weather phrase is lower-cased and
  matched by substring against keyword categories in a fixed priority
  order ("heavy rain"/"thunder", then "rain", then "shower"/"drizzle", then
  "cloudy"); each category draws from its own band.
- **Calendar keys** (`Calendar`): month to season, year to decade.
- **Records and the load filter** (`Records`, `Dashboard`): a CSV row
  becomes a record unless its date is invalid or its temperature empty, and
  only records with a temperature above zero are kept, in row order.
  `Dashboard.Dashboard` is the class holding `weatherData`.
- **Group, reduce, sort** (`Grouping`, `Statistics`, `Charts`,
  `Variability`): every chart groups the records by year, month, hour,
  decade or season, reduces each group to a mean, a sum, min/mean/max or a
  box of R-7 quartiles, and sorts the result by key. The box plot can be
  restricted to one decade.
- **Map lookup** (`Lookup`): the record nearest in time to the selected
  date (first one on a tie), shifted by a linear coastal gradient in
  longitude, with humidity clamped to [0, 100].
- **Correlation matrix** (`Correlation`): Pearson correlation of two
  columns over their common length, 0 for a zero denominator, diagonal
  fixed at 1.

Arithmetic is exact (`real`); timestamps are integer milliseconds.
`Math.random()` is a parameter `r` with `0 <= r < 1` (one draw per row,
carried in the row), and `Math.sqrt` is a parameter `sqrt`.
`ChartsExample` works one small data set through the yearly mean and the yearly trend chart.

## Model

| member | source | states |
|---|---|---|
| Rainfall.EstimateRainfall | script.js:77-85 | An absent or empty phrase gives 0; otherwise the result lies in the band of the first matching category: [35,100) for heavy rain/thunder, [12,40) for rain, [3,15) for shower/drizzle, [0,2) for cloudy, 0 when nothing matches; always 0 <= mm < 100 |
| Rainfall.Contains | script.js:80-83 | `includes`: a contained keyword is never longer than the phrase, and the empty keyword is contained in every phrase |
| Rainfall.EstimateIgnoresCase | script.js:79 | Matching is case-insensitive: a lower-cased phrase gives the same estimate as the original |
| Rainfall.ToLowerIdempotent | script.js:79 | Lower-casing twice equals lower-casing once |
| Rainfall.EstimateMonotoneInDraw | script.js:80-83 | A larger random draw never gives a smaller estimate |
| Rainfall.ThunderstormsAreHeavy | script.js:80 | "Thunderstorms likely" falls in the heavy band [35,100) whatever the draw, because the thunder keyword is tested first |
| Rainfall.ClearIsDry | script.js:78-84 | "Clear", the empty phrase and a missing phrase all give 0 |
| Calendar.GetSeason | script.js:259-264 | Months 3-5 are Summer, 6-9 Monsoon, 10-11 Post-Monsoon, every other month Winter (each direction of each case) |
| Calendar.WinterMonths | script.js:263 | Among months 1..12, Winter is exactly December, January and February |
| Calendar.SeasonOrderIsComplete | script.js:273 | The legend's season list names every season exactly once |
| Calendar.GetDecade | script.js:303 | The decade is a multiple of 10 with decade <= y < decade + 10 |
| Calendar.DecadeIsUnique | script.js:303 | Any multiple of 10 within 10 years below y is y's decade |
| Calendar.DecadeOfDecade | script.js:303 | A decade is its own decade |
| Records.OrZero | script.js:55-61 | A field that parses keeps its value, any other becomes 0 |
| Records.OrElse | script.js:51 | A present non-empty string is kept, an absent or empty one becomes the fallback |
| Records.Kept | script.js:44-67 | A row is kept exactly when it parsed and its temperature, with a missing or non-numeric value read as 0, is above zero: a non-numeric temperature is never kept |
| Records.ToRecord | script.js:45-64 | The record copies the parsed date fields, temperature, humidity and pressure; day/night defaults to "D", the numeric fields that do not parse to 0, and wind cardinal and phrase to the empty string; it carries the rainfall estimate of the row's phrase, in [0,100) |
| Records.FilterRows | script.js:67 | Never more records than rows; every kept record has temperature > 0 and rainfall in [0,100) |
| Records.FilterPicksKeptRows | script.js:44-67 | The i-th kept record is the record built from the i-th row that parses and has a temperature above zero |
| Records.KeptIndicesIncrease | script.js:67 | The kept positions are valid and strictly increasing: the filter preserves row order |
| Records.KeptIndicesComplete | script.js:44-67 | Every row with a valid date and a temperature above zero is kept |
| Dashboard.Dashboard.constructor | script.js:2 | weatherData starts empty |
| Dashboard.Dashboard.LoadCsvData | script.js:39-75 | A failed fetch leaves weatherData unchanged; otherwise weatherData becomes the filtered rows; success is reported exactly when data was read and the filtered list is non-empty, with its length; every held record stays valid |
| Dashboard.Dashboard.WeatherAt | script.js:824-846 | The popup reading is the adjusted record that is first closest to the resolved target among the held records; since every held temperature is positive, the popup temperature exceeds the location's temperature offset |
| Statistics.Sum | script.js:510 | d3.sum: a sum of non-negative values (rainfall estimates) is non-negative |
| Statistics.Mean | script.js:207 | d3.mean of a non-empty group: the mean times the group size is the group's sum |
| Statistics.Min | script.js:209 | d3.min of a non-empty group is a member no member undercuts |
| Statistics.Max | script.js:208 | d3.max of a non-empty group is a member no member exceeds |
| Statistics.SumBetween | script.js:207 | A sum of n values each in [lo, hi] lies between n copies of lo and n copies of hi |
| Statistics.RepeatIsProduct | script.js:207 | n copies of x add up to n * x |
| Statistics.MeanBetweenMinAndMax | script.js:207-209 | min <= mean <= max for any non-empty group |
| Statistics.SumAppend | script.js:510 | The sum of a concatenation is the sum of the sums |
| Statistics.Insert | script.js:600 | Inserting into an ascending list gives an ascending list one longer, holding exactly the old values and the new one |
| Statistics.ConsAscending | script.js:600 | A value no larger than any element of an ascending list can be put in front of it and the list stays ascending |
| Statistics.InsertPermutes | script.js:600 | Inserting adds exactly one occurrence of the new value (multiset) |
| Statistics.SortAscending | script.js:600 | The sorted values are ascending and a permutation of the input |
| Statistics.AscendingEnds | script.js:606-607 | In an ascending list the first element is the minimum and the last the maximum |
| Statistics.Lerp | script.js:603-605 | Linear interpolation stays between its two end points |
| Statistics.Position | script.js:603-605 | For 0 < p < 1 the R-7 position p*(n-1) lies strictly inside (0, n-1) |
| Statistics.Quantile | script.js:603-605 | The R-7 quantile of ascending values lies between the first and last value, and is the first for p <= 0 and the last for p >= 1 |
| Statistics.LerpMonotone | script.js:603-605 | Interpolation is monotone in the fraction |
| Statistics.PositionMonotone | script.js:603-605 | The R-7 position is monotone in p |
| Statistics.QuantileMonotone | script.js:603-605 | The quantile is monotone in p |
| Statistics.QuartilesOrdered | script.js:600-607 | first <= q1 <= median <= q3 <= last on ascending values |
| Grouping.InsertKey | script.js:212 | Inserting a key keeps the key list strictly ascending and adds exactly that key |
| Grouping.SortedKeys | script.js:599-609 | The distinct keys, strictly ascending, and a key is listed exactly when some record has it |
| Grouping.Group | script.js:599 | A record is in a group exactly when it is in the input and has the group's key |
| Grouping.GroupCounts | script.js:599 | A group holds each record of its key as many times as the input does, and no other record |
| Grouping.GroupAppend | script.js:599 | The group of a concatenation is the group of the first part followed by the group of the second: grouping keeps the input order |
| Grouping.GroupSorted | script.js:599-609 | Buckets come out with strictly ascending keys, each holding its non-empty group, and every record's key has a bucket |
| Grouping.KeysHaveGroups | script.js:599 | Every listed key has a non-empty group, and every record's key is listed |
| Grouping.TotalByKeysPeel | script.js:510 | Summing group by group can peel off the first record |
| Grouping.GroupsPartition | script.js:510 | Summing over the groups of distinct keys that cover all records equals summing over all records |
| Grouping.EmptyGroupsTotal | script.js:510 | Groups of no records sum to 0 |
| Grouping.GroupSortedConserves | script.js:510-512 | Grouping neither loses nor duplicates records: the group totals add up to the overall total |
| Charts.Values | script.js:600 | The mapped values, one per record in order |
| Charts.ValueHasMember | script.js:600 | Every mapped value comes from some record |
| Charts.MemberValue | script.js:600 | Every record's value is among the mapped values |
| Charts.MeanRow | script.js:207 | A group's point carries its key and the mean of its values, which lies between two members' values |
| Charts.MeanBy | script.js:375-377 | One point per bucket of the sorted grouping, each the mean of that bucket |
| Charts.PointKeys | script.js:377 | The keys of the chart points, in order |
| Charts.MeanByKeys | script.js:375-377 | Mean-by-key points (hourly and monthly patterns, decadal trend, monthly rainfall) have exactly the records' distinct keys, strictly ascending |
| Charts.MeanByGroupMeans | script.js:447-449 | Each point is the mean of the records with its key and lies between two of their values |
| Charts.MeanByMeansByKey | script.js:374-377 | Every mean-by-key chart has one point per distinct key, keys strictly ascending, each the mean of the records with its key |
| Charts.DecadalTrend | script.js:304-307 | Decadal chart: one point per decade present, ascending, each the mean temperature of that decade's records |
| Charts.HourlyPattern | script.js:374-377 | Diurnal chart: one point per hour present, ascending, each the mean of the selected metric over that hour's records |
| Charts.MonthlyPattern | script.js:446-449 | Monthly chart: one point per month present, ascending, each the mean of the selected metric over that month's records |
| Charts.MonthlyRainfall | script.js:550-553 | Monthly rainfall chart: one point per month present, ascending, each the mean rainfall of that month's records |
| Charts.DecadalTrendKeys | script.js:303-307 | Decade points are multiples of 10, at least 10 apart, ascending, and every record's decade has one |
| Charts.TenApart | script.js:307 | Distinct ascending multiples of 10 are at least 10 apart |
| Charts.YearRow | script.js:206-210 | A year's row carries the mean temperature of the year's records, with min <= mean <= max, every member's temperature lies in [min, max], and min and max are attained |
| Charts.YearlyTrend | script.js:206-212 | One row per bucket of the sorted grouping by year |
| Charts.YearlyTrendSpec | script.js:206-212 | Years strictly ascending, every record's year present, and every record of a year within that year's [min, max] |
| Charts.YearlyTrendMeans | script.js:206-212 | The yearly trend's mean line is the yearly mean-temperature rollup, year by year |
| Charts.RainTotals | script.js:510-512 | One point per given year, with that year as its key and the sum of that year's rainfall as its value |
| Charts.YearlyRainfall | script.js:509-512 | Yearly rainfall chart: one point per year present, ascending, each the total rainfall of that year's records |
| Charts.TotalIsSum | script.js:510 | A year's rainfall total, as the yearly chart computes it, is the d3.sum of the group's rainfall values |
| Charts.YearlyRainfallNonNegative | script.js:509-512 | When every rainfall estimate is non-negative (as every held record's is), every yearly rainfall total is non-negative |
| Charts.RainTotalsSum | script.js:510 | The points add up to the group-by-group total of rainfall |
| Charts.YearlyRainfallConserves | script.js:510-512 | The yearly rainfall totals add up to the rainfall of all records |
| Charts.YearlyRainfallKeys | script.js:510-512 | The yearly rainfall points have exactly the records' years, strictly ascending |
| Charts.InSeason | script.js:267-268 | A record is in a season's subset exactly when its month maps to that season |
| Charts.InSeasonCounts | script.js:267-268 | The season's subset holds each record of that season as many times as the data does, and no other record |
| Charts.SeasonalSeries | script.js:266-287 | A season's line: one point per year with records of that season, ascending, each the mean temperature of that season's records in that year |
| Charts.SeasonalSeriesYears | script.js:267-287 | A season's line has one point per year that has records of that season, years strictly ascending |
| ChartsExample.GroupOfOneYear | script.js:206 | Records all of year k form their own year-k group |
| ChartsExample.GroupOfOtherYears | script.js:206 | Records none of which is of year k have an empty year-k group |
| ChartsExample.TwoYearsKeys | script.js:212 | Records of 1991, 1991, 1992, 1992 have the sorted years [1991, 1992] |
| ChartsExample.TwoYearsFirstGroup | script.js:206 | Their 1991 group is the first two records |
| ChartsExample.TwoYearsSecondGroup | script.js:206 | Their 1992 group is the last two records |
| ChartsExample.TwoYearsBuckets | script.js:206-212 | Their sorted grouping is those two buckets in year order |
| ChartsExample.TwoYearsMeans | script.js:207 | Temperatures 25 and 30 average 27.5, 28 and 32 average 30 |
| ChartsExample.YearlyMeansExample | script.js:206-212 | Yearly mean temperatures of that data are 1991: 27.5 and 1992: 30, in year order |
| ChartsExample.YearlyTrendExample | script.js:206-212 | The yearly trend chart's mean line for that data passes through 1991: 27.5 and 1992: 30 |
| Variability.BoxRow | script.js:599-608 | A year's box holds the R-7 quantiles at 0.25, 0.5 and 0.75 of the year's sorted rainfall; it has min <= q1 <= median <= q3 <= max, every member's rainfall lies in [min, max], and min and max are attained |
| Variability.YearlyBoxStats | script.js:599-609 | One box per bucket of the sorted grouping by year |
| Variability.YearlyBoxStatsYears | script.js:609 | Box years strictly ascending and every record's year present |
| Variability.YearlyBoxStatsBrackets | script.js:599-609 | Every box is ordered and brackets the rainfall of every record of its year |
| Variability.FilterDecade | script.js:613 | Keeps exactly the boxes whose decade is the selected one |
| Variability.DecadeSelection | script.js:612-614 | No selection (null, NaN or 0) keeps all boxes; a selected decade keeps exactly the boxes of that decade |
| Variability.FilterDecadeKeepsOrder | script.js:613 | The decade filter keeps the year order |
| Variability.DecadeSelectionInRange | script.js:612-614 | A selected decade's boxes are in year order and within [decade, decade + 10) |
| Variability.DecadeSelectionComplete | script.js:612-614 | Every year with records in the selected decade keeps its box |
| Lookup.Abs | script.js:831 | The absolute value is x or -x and non-negative |
| Lookup.ClosestIndex | script.js:829-834 | The returned index is in range, as close to the target as every record, and strictly closer than every earlier record |
| Lookup.ResolveTarget | script.js:826-827 | A valid target is kept, an invalid one becomes the first record's date |
| Lookup.CoastalOffset | script.js:818-822 | Humidity shift is -2 times the temperature shift; the coast end gives (-1.5, +3), the inland end (+1.5, -3), and longitudes between stay within those |
| Lookup.CoastalOffsetLinear | script.js:818-822 | The temperature shift is linear in longitude: 3 degrees across the band from the coast to inland |
| Lookup.CoastalOffsetMonotone | script.js:818-822 | Further east is warmer and drier |
| Lookup.ClampHumidity | script.js:839 | The result lies in [0, 100], equals h inside that range and the nearer bound outside |
| Lookup.WeatherForLocationAndTime | script.js:824-846 | The reading is the adjusted first-closest record to the resolved target, with humidity in [0, 100] |
| Lookup.ClosestIsUnique | script.js:832 | Only one index is first-closest: the lookup is deterministic |
| Lookup.SingleRecordIsClosest | script.js:829-834 | With a single record, that record is the answer for every target |
| Lookup.Adjusted | script.js:836-845 | Temperature and feels-like shift by the temperature offset, humidity is the clamped shifted value, pressure, date and wind are copied, and an empty phrase reads "Clear" |
| Lookup.MissingPhraseReadsClear | script.js:841 | A row without a weather phrase (stored as the empty string by the row parser) reads "Clear" in the popup at every location |
| Correlation.SquareSumNonNegative | script.js:1033-1034 | Sums of squared deviations are never negative |
| Correlation.Pearson | script.js:1027-1038 | The correlation is 0 when either column is constant over the common prefix (zero sum of squares, with sqrt(0) = 0) and when the co-deviation sum is 0 |
| Correlation.CalculateCorrelation | script.js:1027-1038 | The loop computes exactly the Pearson correlation over the common prefix |
| Correlation.CoSumSymmetric | script.js:1033-1034 | The co-deviation sum is symmetric in the two columns |
| Correlation.PearsonSymmetric | script.js:1027-1038 | Correlation of x with y equals correlation of y with x |
| Correlation.CoSumPrefix | script.js:1028 | The co-deviation sum reads only the first k positions |
| Correlation.SquareSumPrefix | script.js:1028 | The square sum reads only the first k positions |
| Correlation.PearsonReadsCommonPrefix | script.js:1028-1030 | Truncating both columns to the shorter length changes nothing |
| Correlation.CoSumIsSquareSum | script.js:1033-1034 | A column's co-deviation with itself is its square sum |
| Correlation.RatioOfItself | script.js:1036-1037 | d / sqrt(d * d) is 1 when the square root gives back d |
| Correlation.PearsonSelf | script.js:1027-1038 | A non-constant column correlates with itself at exactly 1 |
| Correlation.Column | script.js:940 | One value per record: the i-th value is the variable's field of the i-th record |
| Correlation.CorrelationMatrix | script.js:942-944 | The matrix is 6 by 6 and each off-diagonal cell is the Pearson correlation of the two variables' columns |
| Correlation.CorrelationMatrixShape | script.js:942-944 | The diagonal is exactly 1 and the matrix is symmetric |

## Left out

- Drawing: SVG and D3 scales, axes, paths, legends, tooltips, the DOM navigation and control wiring, timers and error banners. They only present the values modelled here.
- The Leaflet map: tiles, the city outline, markers, popups, `updateMarkers` and the district table; only the lookup behind a popup is modelled.
- CSV fetching and parsing (`d3.csv`, `new Date`, `parseFloat`): a row arrives already typed, with the date as an optional value and each numeric field as missing, not-a-number or a number.
- `updateHeaderStats` (header figures and their formatting): display only.
- Floating point: values are exact reals, so rounding is not modelled. Humidity and pressure are taken as given numbers: a missing humidity or pressure (NaN after `parseFloat`) would be skipped by `d3.mean` in the hourly and monthly charts, would make `calculateCorrelation` return NaN for its column, and would make the map popup's humidity NaN (`Math.min(100, Math.max(0, NaN))` is NaN), where the model proves it lies in [0, 100]; none of this is modelled.
- The d3 library internals: `d3.group`/`d3.rollup` plus the sort are modelled by their meaning (partition by key, keys ascending), `d3.quantile` by the R-7 rule on sorted values.
- Rainfall.EstimateRainfall: `Math.random()` is a parameter in [0, 1), so the estimate is a function of the phrase and the draw.
- Rainfall.ToLower: lower-cases the ASCII letters only; JavaScript's full Unicode case mapping is not modelled.
- Correlation.CalculateCorrelation: the result is not shown to lie in [-1, 1], which needs the Cauchy-Schwarz inequality and a real square root; `Math.sqrt` is a parameter.
- Correlation.PearsonSelf: holds under the assumption that the square-root parameter returns d for d * d.
- Charts.SeasonalSeriesYears: the drawing order of the four season lines (map insertion order) is not modelled; each line's points are.
- Dashboard.Dashboard.LoadCsvData: the error banner and alert are reduced to the `LoadFailed` outcome.
- Statistics.Mean: only defined for non-empty groups, which is every group the charts form; `d3.mean` of an empty list (undefined) is not modelled.
