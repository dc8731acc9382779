/**
 * The data behind each chart: a rollup of `weatherData` by a calendar key,
 * reduced to a mean, a sum or a five-number box, and sorted ascending by key.
 */
module Charts {
  import opened Records
  import opened Grouping
  import Statistics
  import Calendar

  /** The metric a chart's toggle selects (`d[prop.key]`). */
  datatype Metric = Temperature | Humidity | Pressure

  function MetricOf(m: Metric): WeatherRecord -> real {
    match m
    case Temperature => (r: WeatherRecord) => r.temperature
    case Humidity => (r: WeatherRecord) => r.humidity
    case Pressure => (r: WeatherRecord) => r.pressure
  }

  function YearKey(r: WeatherRecord): int { r.year }
  function MonthKey(r: WeatherRecord): int { r.month }
  function HourKey(r: WeatherRecord): int { r.hour }
  function DecadeKey(r: WeatherRecord): int { Calendar.GetDecade(r.year) }
  function TemperatureOf(r: WeatherRecord): real { r.temperature }
  function RainfallOf(r: WeatherRecord): real { r.rainfall }

  /** `group.map(field)`. */
  function Values(g: seq<WeatherRecord>, f: WeatherRecord -> real): (v: seq<real>)
    ensures |v| == |g|
    ensures forall i :: 0 <= i < |g| ==> v[i] == f(g[i])
  {
    seq(|g|, i requires 0 <= i < |g| => f(g[i]))
  }

  lemma ValueHasMember(g: seq<WeatherRecord>, f: WeatherRecord -> real, x: real)
    requires x in Values(g, f)
    ensures exists a :: a in g && f(a) == x
  {
    var i :| 0 <= i < |g| && Values(g, f)[i] == x;
    assert g[i] in g;
  }

  /** One chart point: a key and the value its group reduces to. */
  datatype KeyedValue = KeyedValue(key: int, value: real)

  /** A bucket reduced to the mean of a field; the mean lies between two members' values. */
  function MeanRow(b: Bucket, f: WeatherRecord -> real): (row: KeyedValue)
    requires |b.members| > 0
    ensures row.key == b.key
    ensures row.value == Statistics.Mean(Values(b.members, f))
    ensures exists a :: a in b.members && f(a) <= row.value
    ensures exists a :: a in b.members && row.value <= f(a)
  {
    var v := Values(b.members, f);
    Statistics.MeanBetweenMinAndMax(v);
    ValueHasMember(b.members, f, Statistics.Min(v));
    ValueHasMember(b.members, f, Statistics.Max(v));
    KeyedValue(b.key, Statistics.Mean(v))
  }

  /**
   * `Array.from(d3.rollup(data, v => d3.mean(v, f), key)).sort(by key)`:
   * one point per distinct key, in ascending key order.
   */
  function MeanBy(data: seq<WeatherRecord>, key: WeatherRecord -> int, f: WeatherRecord -> real): (rows: seq<KeyedValue>)
    ensures |rows| == |GroupSorted(data, key)|
    ensures forall i :: 0 <= i < |rows| ==> rows[i] == MeanRow(GroupSorted(data, key)[i], f)
  {
    var bs := GroupSorted(data, key);
    seq(|bs|, i requires 0 <= i < |bs| => MeanRow(bs[i], f))
  }

  /** The keys of a list of chart points, in order. */
  function PointKeys(rows: seq<KeyedValue>): (ks: seq<int>)
    ensures |ks| == |rows|
    ensures forall i :: 0 <= i < |rows| ==> ks[i] == rows[i].key
  {
    seq(|rows|, i requires 0 <= i < |rows| => rows[i].key)
  }

  /**
   * The points' keys are exactly the distinct keys of the records, strictly
   * ascending.
   */
  lemma MeanByKeys(data: seq<WeatherRecord>, key: WeatherRecord -> int, f: WeatherRecord -> real)
    ensures var ks := PointKeys(MeanBy(data, key, f));
            ks == SortedKeys(data, key) &&
            StrictlyAscending(ks) &&
            forall k :: k in ks <==> exists x :: x in data && key(x) == k
  {
    var bs, rows := GroupSorted(data, key), MeanBy(data, key, f);
    var ks := SortedKeys(data, key);
    assert |bs| == |ks|;
    forall i | 0 <= i < |rows| ensures PointKeys(rows)[i] == ks[i] {
      assert rows[i] == MeanRow(bs[i], f);
    }
  }

  /**
   * Each point is the mean of its key's group (the records with that key),
   * and lies between the values of two records of the group.
   */
  lemma MeanByGroupMeans(data: seq<WeatherRecord>, key: WeatherRecord -> int, f: WeatherRecord -> real)
    ensures var rows := MeanBy(data, key, f);
            forall i :: 0 <= i < |rows| ==>
              var g := Group(data, key, rows[i].key);
              |g| > 0 && rows[i].value == Statistics.Mean(Values(g, f)) &&
              (exists a :: a in data && key(a) == rows[i].key && f(a) <= rows[i].value) &&
              (exists a :: a in data && key(a) == rows[i].key && rows[i].value <= f(a))
  {
    var bs, rows := GroupSorted(data, key), MeanBy(data, key, f);
    forall i | 0 <= i < |rows|
      ensures var g := Group(data, key, rows[i].key);
              |g| > 0 && rows[i].value == Statistics.Mean(Values(g, f)) &&
              (exists a :: a in data && key(a) == rows[i].key && f(a) <= rows[i].value) &&
              (exists a :: a in data && key(a) == rows[i].key && rows[i].value <= f(a))
    {
      var g := bs[i].members;
      assert rows[i] == MeanRow(bs[i], f);
      assert g == Group(data, key, rows[i].key);
      var a :| a in g && f(a) <= rows[i].value;
      var b :| b in g && rows[i].value <= f(b);
    }
  }

  /**
   * What every mean chart shows: one point per distinct key, keys strictly
   * ascending, each point the mean of f over the records with its key.
   */
  predicate MeansByKey(data: seq<WeatherRecord>, key: WeatherRecord -> int, f: WeatherRecord -> real, rows: seq<KeyedValue>) {
    PointKeys(rows) == SortedKeys(data, key) &&
    forall i :: 0 <= i < |rows| ==>
      var g := Group(data, key, rows[i].key);
      |g| > 0 && rows[i].value == Statistics.Mean(Values(g, f))
  }

  lemma MeanByMeansByKey(data: seq<WeatherRecord>, key: WeatherRecord -> int, f: WeatherRecord -> real)
    ensures MeansByKey(data, key, f, MeanBy(data, key, f))
  {
    MeanByKeys(data, key, f);
    MeanByGroupMeans(data, key, f);
  }

  /** Mean temperature per decade (decadal chart). */
  function DecadalTrend(data: seq<WeatherRecord>): (rows: seq<KeyedValue>)
    ensures MeansByKey(data, DecadeKey, TemperatureOf, rows)
  {
    MeanByMeansByKey(data, DecadeKey, TemperatureOf);
    MeanBy(data, DecadeKey, TemperatureOf)
  }

  /**
   * The decadal chart's keys are multiples of ten, strictly ascending and
   * therefore at least ten apart, and every record's decade has a bar.
   */
  lemma DecadalTrendKeys(data: seq<WeatherRecord>)
    ensures var ks := PointKeys(DecadalTrend(data));
            (forall i :: 0 <= i < |ks| ==> ks[i] % 10 == 0) &&
            (forall i, j :: 0 <= i < j < |ks| ==> ks[i] + 10 <= ks[j]) &&
            (forall x :: x in data ==> Calendar.GetDecade(x.year) in ks)
  {
    MeanByKeys(data, DecadeKey, TemperatureOf);
    var ks := PointKeys(DecadalTrend(data));
    forall i | 0 <= i < |ks| ensures ks[i] % 10 == 0 {
      assert ks[i] in ks;
      var x :| x in data && DecadeKey(x) == ks[i];
    }
    forall i, j | 0 <= i < j < |ks| ensures ks[i] + 10 <= ks[j] {
      assert ks[i] in ks && ks[j] in ks;
      var x :| x in data && DecadeKey(x) == ks[i];
      var y :| y in data && DecadeKey(y) == ks[j];
      TenApart(ks[i], ks[j]);
    }
    forall x | x in data ensures Calendar.GetDecade(x.year) in ks {
      assert DecadeKey(x) == Calendar.GetDecade(x.year);
    }
  }

  lemma TenApart(a: int, b: int)
    requires a % 10 == 0 && b % 10 == 0 && a < b
    ensures a + 10 <= b
  {
    assert (b - a) % 10 == 0;
  }

  /** Mean of the selected metric per hour of day, pooled over all days (diurnal chart). */
  function HourlyPattern(data: seq<WeatherRecord>, m: Metric): (rows: seq<KeyedValue>)
    ensures MeansByKey(data, HourKey, MetricOf(m), rows)
  {
    MeanByMeansByKey(data, HourKey, MetricOf(m));
    MeanBy(data, HourKey, MetricOf(m))
  }

  /** Mean of the selected metric per calendar month, pooled over all years (monthly chart). */
  function MonthlyPattern(data: seq<WeatherRecord>, m: Metric): (rows: seq<KeyedValue>)
    ensures MeansByKey(data, MonthKey, MetricOf(m), rows)
  {
    MeanByMeansByKey(data, MonthKey, MetricOf(m));
    MeanBy(data, MonthKey, MetricOf(m))
  }

  /** Mean estimated rainfall per calendar month (monthly rainfall chart). */
  function MonthlyRainfall(data: seq<WeatherRecord>): (rows: seq<KeyedValue>)
    ensures MeansByKey(data, MonthKey, RainfallOf, rows)
  {
    MeanByMeansByKey(data, MonthKey, RainfallOf);
    MeanBy(data, MonthKey, RainfallOf)
  }

  /** One point of the yearly trend chart: the mean, hottest and coldest temperature of a year. */
  datatype YearTemp = YearTemp(year: int, mean: real, max: real, min: real)

  lemma MemberValue(g: seq<WeatherRecord>, f: WeatherRecord -> real, a: WeatherRecord)
    requires a in g
    ensures f(a) in Values(g, f)
  {
    var k :| 0 <= k < |g| && g[k] == a;
    assert Values(g, f)[k] == f(a);
  }

  /** A year's bucket reduced to mean, max and min temperature. */
  function YearRow(b: Bucket): (row: YearTemp)
    requires |b.members| > 0
    ensures row.year == b.key
    ensures row.mean == Statistics.Mean(Values(b.members, TemperatureOf))
    ensures row.min <= row.mean <= row.max
    ensures forall a :: a in b.members ==> row.min <= a.temperature <= row.max
    ensures exists a :: a in b.members && a.temperature == row.min
    ensures exists a :: a in b.members && a.temperature == row.max
  {
    var v := Values(b.members, TemperatureOf);
    Statistics.MeanBetweenMinAndMax(v);
    ValueHasMember(b.members, TemperatureOf, Statistics.Min(v));
    ValueHasMember(b.members, TemperatureOf, Statistics.Max(v));
    assert forall a :: a in b.members ==> TemperatureOf(a) in v by {
      forall a | a in b.members ensures TemperatureOf(a) in v {
        MemberValue(b.members, TemperatureOf, a);
      }
    }
    YearTemp(b.key, Statistics.Mean(v), Statistics.Max(v), Statistics.Min(v))
  }

  /** Yearly trend chart: mean, max and min temperature per year, years ascending. */
  function YearlyTrend(data: seq<WeatherRecord>): (rows: seq<YearTemp>)
    ensures |rows| == |GroupSorted(data, YearKey)|
    ensures forall i :: 0 <= i < |rows| ==> rows[i] == YearRow(GroupSorted(data, YearKey)[i])
  {
    var bs := GroupSorted(data, YearKey);
    seq(|bs|, i requires 0 <= i < |bs| => YearRow(bs[i]))
  }

  /**
   * The yearly trend has one point per year present, years strictly
   * ascending, and each point brackets every temperature of its year.
   */
  lemma YearlyTrendSpec(data: seq<WeatherRecord>)
    ensures var rows := YearlyTrend(data);
            (forall i, j :: 0 <= i < j < |rows| ==> rows[i].year < rows[j].year) &&
            (forall x :: x in data ==> exists i :: 0 <= i < |rows| && rows[i].year == x.year) &&
            (forall i, x :: 0 <= i < |rows| && x in data && x.year == rows[i].year ==>
               rows[i].min <= x.temperature <= rows[i].max)
  {
    var bs, rows := GroupSorted(data, YearKey), YearlyTrend(data);
    forall i, j | 0 <= i < j < |rows| ensures rows[i].year < rows[j].year {
      assert rows[i].year == bs[i].key && rows[j].year == bs[j].key;
    }
    forall x | x in data ensures exists i :: 0 <= i < |rows| && rows[i].year == x.year {
      var i :| 0 <= i < |bs| && bs[i].key == YearKey(x);
      assert rows[i].year == bs[i].key;
    }
    forall i, x | 0 <= i < |rows| && x in data && x.year == rows[i].year
      ensures rows[i].min <= x.temperature <= rows[i].max
    {
      assert rows[i] == YearRow(bs[i]);
      assert x in bs[i].members;
    }
  }

  /** The yearly trend's mean line is the yearly mean-temperature rollup. */
  lemma YearlyTrendMeans(data: seq<WeatherRecord>)
    ensures var rows, means := YearlyTrend(data), MeanBy(data, YearKey, TemperatureOf);
            |rows| == |means| &&
            forall i :: 0 <= i < |rows| ==> rows[i].year == means[i].key && rows[i].mean == means[i].value
  {
  }

  /** The rainfall totals of the given years, in the given order. */
  function RainTotals(ks: seq<int>, data: seq<WeatherRecord>): (rows: seq<KeyedValue>)
    ensures |rows| == |ks|
    ensures forall i :: 0 <= i < |ks| ==> rows[i].key == ks[i]
    ensures forall i :: 0 <= i < |ks| ==> rows[i].value == Total(Group(data, YearKey, ks[i]), RainfallOf)
  {
    if ks == [] then []
    else [KeyedValue(ks[0], Total(Group(data, YearKey, ks[0]), RainfallOf))] + RainTotals(ks[1..], data)
  }

  /** Yearly rainfall chart: `d3.rollup(data, v => d3.sum(v, d => d.rainfall), d => d.year)`, years ascending. */
  function YearlyRainfall(data: seq<WeatherRecord>): (rows: seq<KeyedValue>)
    ensures PointKeys(rows) == SortedKeys(data, YearKey)
    ensures forall i :: 0 <= i < |rows| ==> rows[i].value == Total(Group(data, YearKey, rows[i].key), RainfallOf)
  {
    RainTotals(SortedKeys(data, YearKey), data)
  }

  function SumOfPoints(rows: seq<KeyedValue>): real {
    if rows == [] then 0.0 else rows[0].value + SumOfPoints(rows[1..])
  }

  /** A group total is the d3.sum of the group's mapped values. */
  lemma {:induction false} TotalIsSum(xs: seq<WeatherRecord>, w: WeatherRecord -> real)
    ensures Total(xs, w) == Statistics.Sum(Values(xs, w))
  {
    if xs != [] {
      TotalIsSum(xs[1..], w);
      assert Values(xs, w)[1..] == Values(xs[1..], w);
    }
  }

  /** With non-negative rainfall estimates, every yearly rainfall total is non-negative. */
  lemma YearlyRainfallNonNegative(data: seq<WeatherRecord>)
    requires forall r :: r in data ==> r.rainfall >= 0.0
    ensures forall i :: 0 <= i < |YearlyRainfall(data)| ==> YearlyRainfall(data)[i].value >= 0.0
  {
    var rows := YearlyRainfall(data);
    forall i | 0 <= i < |rows| ensures rows[i].value >= 0.0 {
      var g := Group(data, YearKey, rows[i].key);
      TotalIsSum(g, RainfallOf);
      var v := Values(g, RainfallOf);
      forall j | 0 <= j < |v| ensures v[j] >= 0.0 {
        assert g[j] in g;
      }
    }
  }

  lemma {:induction false} RainTotalsSum(ks: seq<int>, data: seq<WeatherRecord>)
    ensures SumOfPoints(RainTotals(ks, data)) == TotalByKeys(ks, data, YearKey, RainfallOf)
  {
    if ks != [] {
      RainTotalsSum(ks[1..], data);
    }
  }

  /**
   * Summing the yearly totals gives the rainfall of the whole record set:
   * grouping by year loses and duplicates no record.
   */
  lemma {:induction false} YearlyRainfallConserves(data: seq<WeatherRecord>)
    ensures SumOfPoints(YearlyRainfall(data)) == Total(data, RainfallOf)
  {
    var ks := SortedKeys(data, YearKey);
    RainTotalsSum(ks, data);
    forall x | x in data ensures YearKey(x) in ks {
    }
    GroupsPartition(ks, data, YearKey, RainfallOf);
  }

  /** The yearly rainfall points have strictly ascending years, one for each year present. */
  lemma YearlyRainfallKeys(data: seq<WeatherRecord>)
    ensures var ks := PointKeys(YearlyRainfall(data));
            StrictlyAscending(ks) &&
            forall y :: y in ks <==> exists x :: x in data && x.year == y
  {
    var ks := SortedKeys(data, YearKey);
    assert PointKeys(YearlyRainfall(data)) == ks;
    forall y ensures y in ks <==> exists x :: x in data && x.year == y {
      if y in ks {
        var x :| x in data && YearKey(x) == y;
      }
      if exists x :: x in data && x.year == y {
        var x :| x in data && x.year == y;
        assert YearKey(x) == y;
      }
    }
  }

  /** The records of one season, in input order. */
  function InSeason(data: seq<WeatherRecord>, s: Calendar.Season): (out: seq<WeatherRecord>)
    ensures forall r :: r in out <==> r in data && Calendar.GetSeason(r.month) == s
  {
    if data == [] then []
    else
      assert forall r :: r in data <==> r == data[0] || r in data[1..];
      (if Calendar.GetSeason(data[0].month) == s then [data[0]] else []) + InSeason(data[1..], s)
  }

  /** The season's records keep their multiplicity: a repeated reading is not dropped. */
  lemma {:induction false} InSeasonCounts(data: seq<WeatherRecord>, s: Calendar.Season)
    ensures forall r :: multiset(InSeason(data, s))[r] == if Calendar.GetSeason(r.month) == s then multiset(data)[r] else 0
  {
    if data != [] {
      InSeasonCounts(data[1..], s);
      assert data == [data[0]] + data[1..];
    }
  }

  /**
   * One line of the seasonal trend chart: for one season, the mean
   * temperature of that season in each year, years ascending.
   */
  function SeasonalSeries(data: seq<WeatherRecord>, s: Calendar.Season): (rows: seq<KeyedValue>)
    ensures MeansByKey(InSeason(data, s), YearKey, TemperatureOf, rows)
  {
    MeanByMeansByKey(InSeason(data, s), YearKey, TemperatureOf);
    MeanBy(InSeason(data, s), YearKey, TemperatureOf)
  }

  /**
   * A season's line has a point for exactly the years in which that season
   * has records, years strictly ascending.
   */
  lemma SeasonalSeriesYears(data: seq<WeatherRecord>, s: Calendar.Season)
    ensures var ks := PointKeys(SeasonalSeries(data, s));
            StrictlyAscending(ks) &&
            forall y :: y in ks <==> exists x :: x in data && Calendar.GetSeason(x.month) == s && x.year == y
  {
    var sd := InSeason(data, s);
    MeanByKeys(sd, YearKey, TemperatureOf);
    var ks := PointKeys(SeasonalSeries(data, s));
    forall y ensures y in ks <==> exists x :: x in data && Calendar.GetSeason(x.month) == s && x.year == y {
      if y in ks {
        var x :| x in sd && YearKey(x) == y;
      }
      if exists x :: x in data && Calendar.GetSeason(x.month) == s && x.year == y {
        var x :| x in data && Calendar.GetSeason(x.month) == s && x.year == y;
        assert x in sd && YearKey(x) == y;
      }
    }
  }
}
