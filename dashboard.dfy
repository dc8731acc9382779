/**
 * The dashboard's one piece of mutable state: the module-level
 * `weatherData` array, filled once by loadCSVData and read by every chart
 * and by the map lookup.
 */
module Dashboard {
  import opened Wrappers
  import opened Records
  import Lookup

  /** What loadCSVData reports: the number of records kept, or the error banner. */
  datatype LoadOutcome = Loaded(count: nat) | LoadFailed

  class Dashboard {
    var weatherData: seq<WeatherRecord>

    /** Every record held has a positive temperature and a rainfall estimate in [0, 100). */
    predicate Valid()
      reads this
    {
      forall r :: r in weatherData ==> r.temperature > 0.0 && 0.0 <= r.rainfall < 100.0
    }

    /** `let weatherData = [];` */
    constructor()
      ensures weatherData == []
      ensures Valid()
    {
      weatherData := [];
    }

    /**
     * loadCSVData. `csv` is the parsed file, or None when fetching or
     * parsing it failed; then weatherData keeps its value. Otherwise
     * weatherData becomes the filtered rows, and an empty result is
     * reported as a failure after the assignment.
     */
    method LoadCsvData(csv: Option<seq<RawRow>>) returns (outcome: LoadOutcome)
      requires Valid()
      requires csv.Some? ==> DrawsInRange(csv.value)
      modifies this
      ensures csv.None? ==> weatherData == old(weatherData)
      ensures csv.Some? ==> weatherData == FilterRows(csv.value)
      ensures outcome.Loaded? <==> csv.Some? && weatherData != []
      ensures outcome.Loaded? ==> outcome.count == |weatherData|
      ensures Valid()
    {
      if csv.None? {
        return LoadFailed;
      }
      weatherData := FilterRows(csv.value);
      if |weatherData| == 0 {
        return LoadFailed;
      }
      return Loaded(|weatherData|);
    }

    /**
     * The popup reading for a map location: the held record nearest the
     * selected time, adjusted for the location. The map exists only once
     * data has loaded. Since every held temperature is positive, the popup
     * temperature exceeds the location's offset.
     */
    method WeatherAt(loc: Lookup.Location, target: Option<int>) returns (wx: Lookup.LocationWeather)
      requires Valid() && weatherData != []
      ensures exists k :: 0 <= k < |weatherData| &&
                Lookup.IsClosest(weatherData, Lookup.ResolveTarget(weatherData, target), k) &&
                wx == Lookup.Adjusted(weatherData[k], Lookup.CoastalOffset(loc.lon))
      ensures wx.temp > Lookup.CoastalOffset(loc.lon).temp
    {
      wx := Lookup.WeatherForLocationAndTime(weatherData, loc, target);
      ghost var k :| 0 <= k < |weatherData| &&
                Lookup.IsClosest(weatherData, Lookup.ResolveTarget(weatherData, target), k) &&
                wx == Lookup.Adjusted(weatherData[k], Lookup.CoastalOffset(loc.lon));
      assert weatherData[k] in weatherData;
    }
  }
}
