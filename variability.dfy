/**
 * The rainfall variability boxplot: per year, the estimated rainfall values
 * sorted ascending, their quartiles, minimum and maximum; then an optional
 * decade selector that keeps only the years of one decade.
 */
module Variability {
  import opened Wrappers
  import opened Records
  import opened Grouping
  import Statistics
  import Calendar
  import opened Charts

  /** One box of the boxplot. */
  datatype BoxStat = BoxStat(year: int, q1: real, median: real, q3: real, min: real, max: real)

  /**
   * `rf = vals.map(d => d.rainfall).sort(d3.ascending)`, then quantiles 0.25,
   * 0.5 and 0.75 and `rf[0]`, `rf[rf.length - 1]`: the box is ordered and its
   * ends are the year's least and greatest rainfall.
   */
  function BoxRow(b: Bucket): (s: BoxStat)
    requires |b.members| > 0
    ensures s.year == b.key
    ensures var rf := Statistics.SortAscending(Values(b.members, RainfallOf));
            s.q1 == Statistics.Quantile(rf, 0.25) && s.median == Statistics.Quantile(rf, 0.5) &&
            s.q3 == Statistics.Quantile(rf, 0.75)
    ensures s.min <= s.q1 <= s.median <= s.q3 <= s.max
    ensures forall a :: a in b.members ==> s.min <= a.rainfall <= s.max
    ensures exists a :: a in b.members && a.rainfall == s.min
    ensures exists a :: a in b.members && a.rainfall == s.max
  {
    var v := Values(b.members, RainfallOf);
    var rf := Statistics.SortAscending(v);
    assert |rf| == |v| by {
      assert |multiset(rf)| == |multiset(v)|;
    }
    var n := |rf|;
    Statistics.QuartilesOrdered(rf);
    assert rf[0] in multiset(v) && rf[n - 1] in multiset(v) by {
      assert rf[0] in multiset(rf) && rf[n - 1] in multiset(rf);
    }
    ValueHasMember(b.members, RainfallOf, rf[0]);
    ValueHasMember(b.members, RainfallOf, rf[n - 1]);
    assert forall a :: a in b.members ==> rf[0] <= a.rainfall <= rf[n - 1] by {
      forall a | a in b.members ensures rf[0] <= a.rainfall <= rf[n - 1] {
        MemberValue(b.members, RainfallOf, a);
        assert a.rainfall in multiset(rf);
        var k :| 0 <= k < n && rf[k] == a.rainfall;
        Statistics.AscendingAt(rf, 0, k);
        Statistics.AscendingAt(rf, k, n - 1);
      }
    }
    BoxStat(b.key, Statistics.Quantile(rf, 0.25), Statistics.Quantile(rf, 0.5), Statistics.Quantile(rf, 0.75),
            rf[0], rf[n - 1])
  }

  /** `allYearlyStats`: one box per year, years ascending. */
  function YearlyBoxStats(data: seq<WeatherRecord>): (stats: seq<BoxStat>)
    ensures |stats| == |GroupSorted(data, YearKey)|
    ensures forall i :: 0 <= i < |stats| ==> stats[i] == BoxRow(GroupSorted(data, YearKey)[i])
  {
    var bs := GroupSorted(data, YearKey);
    seq(|bs|, i requires 0 <= i < |bs| => BoxRow(bs[i]))
  }

  predicate YearsAscending(stats: seq<BoxStat>) {
    forall i, j :: 0 <= i < j < |stats| ==> stats[i].year < stats[j].year
  }

  /** The boxes' years strictly ascend and each year present has a box. */
  lemma YearlyBoxStatsYears(data: seq<WeatherRecord>)
    ensures var stats := YearlyBoxStats(data);
            YearsAscending(stats) &&
            (forall x :: x in data ==> exists i :: 0 <= i < |stats| && stats[i].year == x.year)
  {
    var bs, stats := GroupSorted(data, YearKey), YearlyBoxStats(data);
    forall i, j | 0 <= i < j < |stats| ensures stats[i].year < stats[j].year {
      assert stats[i].year == bs[i].key && stats[j].year == bs[j].key;
    }
    forall x | x in data ensures exists i :: 0 <= i < |stats| && stats[i].year == x.year {
      var i :| 0 <= i < |bs| && bs[i].key == YearKey(x);
      assert stats[i].year == bs[i].key;
    }
  }

  /** Every box is ordered and brackets every rainfall value of its year. */
  lemma YearlyBoxStatsBrackets(data: seq<WeatherRecord>)
    ensures var stats := YearlyBoxStats(data);
            (forall i :: 0 <= i < |stats| ==>
               stats[i].min <= stats[i].q1 <= stats[i].median <= stats[i].q3 <= stats[i].max) &&
            (forall i, x :: 0 <= i < |stats| && x in data && x.year == stats[i].year ==>
               stats[i].min <= x.rainfall <= stats[i].max)
  {
    var bs, stats := GroupSorted(data, YearKey), YearlyBoxStats(data);
    forall i, x | 0 <= i < |stats| && x in data && x.year == stats[i].year
      ensures stats[i].min <= x.rainfall <= stats[i].max
    {
      assert stats[i] == BoxRow(bs[i]);
      assert x in bs[i].members;
    }
  }

  /** The box belongs to the selected decade: `Math.floor(d.year / 10) * 10 === selectedDecade`. */
  predicate InDecade(s: BoxStat, decade: int) {
    Calendar.GetDecade(s.year) == decade
  }

  /** The boxes of one decade, in their original order. */
  function FilterDecade(stats: seq<BoxStat>, decade: int): (out: seq<BoxStat>)
    ensures |out| <= |stats|
    ensures forall s :: s in out <==> s in stats && InDecade(s, decade)
  {
    if stats == [] then []
    else
      assert forall s :: s in stats <==> s == stats[0] || s in stats[1..];
      (if InDecade(stats[0], decade) then [stats[0]] else []) + FilterDecade(stats[1..], decade)
  }

  /**
   * `selectedDecade ? allYearlyStats.filter(...) : allYearlyStats`. The
   * selection is the parsed `data-decade` attribute. None stands for both a
   * missing selection (null) and a `parseInt` that gives NaN; these and a
   * decade of 0 are falsy and select every year.
   */
  function DecadeSelection(stats: seq<BoxStat>, selected: Option<int>): (out: seq<BoxStat>)
    ensures selected.None? || selected.value == 0 ==> out == stats
    ensures selected.Some? && selected.value != 0 ==>
              forall s :: s in out <==> s in stats && Calendar.GetDecade(s.year) == selected.value
  {
    if selected.Some? && selected.value != 0 then FilterDecade(stats, selected.value) else stats
  }

  /** Filtering keeps the boxes in year order. */
  lemma {:induction false} FilterDecadeKeepsOrder(stats: seq<BoxStat>, decade: int)
    requires YearsAscending(stats)
    ensures YearsAscending(FilterDecade(stats, decade))
  {
    if stats != [] {
      var rest := stats[1..];
      assert YearsAscending(rest);
      FilterDecadeKeepsOrder(rest, decade);
      var tail := FilterDecade(rest, decade);
      forall j | 0 <= j < |tail| ensures stats[0].year < tail[j].year {
        assert tail[j] in rest;
      }
    }
  }

  /** The selected boxes are the years of that decade, in ascending order. */
  lemma DecadeSelectionInRange(stats: seq<BoxStat>, decade: int)
    requires decade != 0 && YearsAscending(stats)
    ensures var out := DecadeSelection(stats, Some(decade));
            YearsAscending(out) &&
            (forall i :: 0 <= i < |out| ==> decade <= out[i].year < decade + 10)
  {
    var out := DecadeSelection(stats, Some(decade));
    FilterDecadeKeepsOrder(stats, decade);
    forall i | 0 <= i < |out| ensures decade <= out[i].year < decade + 10 {
      assert out[i] in out;
    }
  }

  /** Every year of the selected decade that has data keeps its box. */
  lemma DecadeSelectionComplete(data: seq<WeatherRecord>, decade: int)
    requires decade != 0
    ensures var out := DecadeSelection(YearlyBoxStats(data), Some(decade));
            forall x :: x in data && Calendar.GetDecade(x.year) == decade ==>
              exists i :: 0 <= i < |out| && out[i].year == x.year
  {
    var stats := YearlyBoxStats(data);
    var out := DecadeSelection(stats, Some(decade));
    YearlyBoxStatsYears(data);
    forall x | x in data && Calendar.GetDecade(x.year) == decade
      ensures exists i :: 0 <= i < |out| && out[i].year == x.year
    {
      var i :| 0 <= i < |stats| && stats[i].year == x.year;
      assert stats[i] in stats;
      assert stats[i] in out;
      var k :| 0 <= k < |out| && out[k] == stats[i];
    }
  }
}
