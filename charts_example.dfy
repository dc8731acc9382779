/**
 * A worked example of the yearly mean temperature: two readings in 1991
 * (25 and 30 degrees) followed by two in 1992 (28 and 32) give the points
 * 1991: 27.5 and 1992: 30, in year order. The other fields of the records
 * are left arbitrary.
 */
module ChartsExample {
  import opened Records
  import opened Grouping
  import opened Charts
  import Statistics

  predicate TwoYears(data: seq<WeatherRecord>) {
    |data| == 4 &&
    data[0].year == 1991 && data[1].year == 1991 && data[2].year == 1992 && data[3].year == 1992 &&
    data[0].temperature == 25.0 && data[1].temperature == 30.0 &&
    data[2].temperature == 28.0 && data[3].temperature == 32.0
  }

  /** Records all of year k form their own year-k group. */
  lemma {:induction false} GroupOfOneYear(xs: seq<WeatherRecord>, k: int)
    requires forall i :: 0 <= i < |xs| ==> xs[i].year == k
    ensures Group(xs, YearKey, k) == xs
  {
    if xs != [] {
      GroupOfOneYear(xs[1..], k);
      assert xs == [xs[0]] + xs[1..];
    }
  }

  /** Records none of which is of year k have an empty year-k group. */
  lemma {:induction false} GroupOfOtherYears(xs: seq<WeatherRecord>, k: int)
    requires forall i :: 0 <= i < |xs| ==> xs[i].year != k
    ensures Group(xs, YearKey, k) == []
  {
    if xs != [] {
      GroupOfOtherYears(xs[1..], k);
    }
  }

  lemma TwoYearsKeys(data: seq<WeatherRecord>)
    requires TwoYears(data)
    ensures SortedKeys(data, YearKey) == [1991, 1992]
  {
    assert data[1..][1..] == data[2..] && data[2..][1..] == data[3..] && data[3..][1..] == [];
    assert SortedKeys(data[3..], YearKey) == [1992];
    assert SortedKeys(data[2..], YearKey) == [1992];
    assert SortedKeys(data[1..], YearKey) == [1991, 1992];
  }

  lemma TwoYearsFirstGroup(data: seq<WeatherRecord>)
    requires TwoYears(data)
    ensures Group(data, YearKey, 1991) == data[..2]
  {
    var a, b := data[..2], data[2..];
    assert data == a + b;
    calc {
      Group(data, YearKey, 1991);
      Group(a + b, YearKey, 1991);
      { GroupAppend(a, b, YearKey, 1991); }
      Group(a, YearKey, 1991) + Group(b, YearKey, 1991);
      { GroupOfOneYear(a, 1991); GroupOfOtherYears(b, 1991); }
      a + [];
      a;
    }
  }

  lemma TwoYearsSecondGroup(data: seq<WeatherRecord>)
    requires TwoYears(data)
    ensures Group(data, YearKey, 1992) == data[2..]
  {
    var a, b := data[..2], data[2..];
    assert data == a + b;
    calc {
      Group(data, YearKey, 1992);
      Group(a + b, YearKey, 1992);
      { GroupAppend(a, b, YearKey, 1992); }
      Group(a, YearKey, 1992) + Group(b, YearKey, 1992);
      { GroupOfOtherYears(a, 1992); GroupOfOneYear(b, 1992); }
      [] + b;
      b;
    }
  }

  lemma TwoYearsBuckets(data: seq<WeatherRecord>)
    requires TwoYears(data)
    ensures var bs := GroupSorted(data, YearKey);
            |bs| == 2 && bs[0] == Bucket(1991, data[..2]) && bs[1] == Bucket(1992, data[2..])
  {
    TwoYearsKeys(data);
    TwoYearsFirstGroup(data);
    TwoYearsSecondGroup(data);
  }

  lemma TwoYearsMeans(data: seq<WeatherRecord>)
    requires TwoYears(data)
    ensures MeanRow(Bucket(1991, data[..2]), TemperatureOf) == KeyedValue(1991, 27.5)
    ensures MeanRow(Bucket(1992, data[2..]), TemperatureOf) == KeyedValue(1992, 30.0)
  {
    assert Values(data[..2], TemperatureOf) == [25.0, 30.0];
    assert Values(data[2..], TemperatureOf) == [28.0, 32.0];
    assert Statistics.Sum([25.0, 30.0]) == 55.0;
    assert Statistics.Sum([28.0, 32.0]) == 60.0;
  }

  /** The yearly mean temperatures of that data are 27.5 for 1991 and 30 for 1992, in year order. */
  lemma YearlyMeansExample(data: seq<WeatherRecord>)
    requires TwoYears(data)
    ensures var rows := MeanBy(data, YearKey, TemperatureOf);
            |rows| == 2 && rows[0] == KeyedValue(1991, 27.5) && rows[1] == KeyedValue(1992, 30.0)
  {
    TwoYearsBuckets(data);
    TwoYearsMeans(data);
  }

  /** The yearly trend chart draws that data's mean line through 1991: 27.5 and 1992: 30. */
  lemma YearlyTrendExample(data: seq<WeatherRecord>)
    requires TwoYears(data)
    ensures var rows := YearlyTrend(data);
            |rows| == 2 && rows[0].year == 1991 && rows[0].mean == 27.5 &&
            rows[1].year == 1992 && rows[1].mean == 30.0
  {
    YearlyMeansExample(data);
    YearlyTrendMeans(data);
  }
}
