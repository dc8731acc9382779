/**
 * The record model and the load-time filter. A CSV row arrives already split
 * into typed fields (the date parser and parseFloat are outside the model);
 * rows with an invalid date or an empty temperature are dropped by the row
 * parser, and rows whose temperature is not above zero by the filter after it.
 */
module Records {
  import opened Wrappers
  import Rainfall

  /** A parsed `Time` column: epoch milliseconds and the local calendar fields derived from it. */
  datatype DateTime = DateTime(millis: int, year: int, month: int, day: int, hour: int)

  /** A numeric CSV field: the column is empty/absent, holds text parseFloat rejects, or holds a number. */
  datatype Reading = Missing | NotANumber | Number(v: real)

  /** One CSV row as the CSV reader hands it over, plus the random draw the rainfall estimate uses. */
  datatype RawRow = RawRow(
    time: Option<DateTime>,       // None: `new Date(d.Time)` is an invalid date
    temperature: Reading,
    humidity: real,
    pressure: real,
    dewPoint: Reading,
    heatIndex: Reading,
    feelsLike: Reading,
    visibility: Reading,
    windDirection: Reading,
    uvIndex: Reading,
    day: Option<string>,
    windCardinal: Option<string>,
    weatherPhrase: Option<string>,
    rainDraw: real)               // the value Math.random() returns for this row

  /** One observation kept in `weatherData`. */
  datatype WeatherRecord = WeatherRecord(
    date: int,
    year: int,
    month: int,
    day: int,
    hour: int,
    dayNight: string,
    temperature: real,
    humidity: real,
    pressure: real,
    dewPoint: real,
    heatIndex: real,
    feelsLike: real,
    visibility: real,
    windDirection: real,
    windCardinal: string,
    uvIndex: real,
    weatherPhrase: string,
    rainfall: real)

  /** `parseFloat(x) || 0`: a field that does not parse becomes 0. */
  function OrZero(x: Reading): (v: real)
    ensures x.Number? ==> v == x.v
    ensures !x.Number? ==> v == 0.0
  {
    if x.Number? then x.v else 0.0
  }

  /** `s || fallback`: an absent or empty string becomes the fallback. */
  function OrElse(s: Option<string>, fallback: string): (t: string)
    ensures s.Some? && s.value != "" ==> t == s.value
    ensures s.None? || s.value == "" ==> t == fallback
  {
    if s.Some? && s.value != "" then s.value else fallback
  }

  /** The row parser returns null for an invalid date or an empty temperature column. */
  predicate Parses(row: RawRow) {
    row.time.Some? && !row.temperature.Missing?
  }

  /**
   * Rows the filter keeps: the row parsed and its temperature is a number
   * above zero (a temperature parseFloat rejects is NaN, and NaN > 0 is false).
   */
  predicate Kept(row: RawRow)
    ensures Kept(row) <==> Parses(row) && OrZero(row.temperature) > 0.0
  {
    Parses(row) && row.temperature.Number? && row.temperature.v > 0.0
  }

  /** The record the row parser builds from a row that parsed with a numeric temperature. */
  function ToRecord(row: RawRow): (r: WeatherRecord)
    requires Parses(row) && row.temperature.Number?
    requires 0.0 <= row.rainDraw < 1.0
    ensures r.date == row.time.value.millis && r.year == row.time.value.year
    ensures r.month == row.time.value.month && r.day == row.time.value.day && r.hour == row.time.value.hour
    ensures r.temperature == row.temperature.v
    ensures r.dayNight == OrElse(row.day, "D")
    ensures r.humidity == row.humidity && r.pressure == row.pressure
    ensures r.dewPoint == OrZero(row.dewPoint) && r.heatIndex == OrZero(row.heatIndex)
    ensures r.feelsLike == OrZero(row.feelsLike) && r.visibility == OrZero(row.visibility)
    ensures r.windDirection == OrZero(row.windDirection) && r.uvIndex == OrZero(row.uvIndex)
    ensures r.windCardinal == OrElse(row.windCardinal, "") && r.weatherPhrase == OrElse(row.weatherPhrase, "")
    ensures r.rainfall == Rainfall.EstimateRainfall(row.weatherPhrase, row.rainDraw)
    ensures 0.0 <= r.rainfall < 100.0
  {
    var t := row.time.value;
    WeatherRecord(
      t.millis, t.year, t.month, t.day, t.hour,
      OrElse(row.day, "D"),
      row.temperature.v,
      row.humidity,
      row.pressure,
      OrZero(row.dewPoint),
      OrZero(row.heatIndex),
      OrZero(row.feelsLike),
      OrZero(row.visibility),
      OrZero(row.windDirection),
      OrElse(row.windCardinal, ""),
      OrZero(row.uvIndex),
      OrElse(row.weatherPhrase, ""),
      Rainfall.EstimateRainfall(row.weatherPhrase, row.rainDraw))
  }

  /** Math.random() always lies in [0, 1). */
  predicate DrawsInRange(rows: seq<RawRow>) {
    forall i :: 0 <= i < |rows| ==> 0.0 <= rows[i].rainDraw < 1.0
  }

  /** `data.filter(d => d !== null && d.temperature > 0)`, in row order. */
  function FilterRows(rows: seq<RawRow>): (out: seq<WeatherRecord>)
    requires DrawsInRange(rows)
    ensures |out| <= |rows|
    ensures forall r :: r in out ==> r.temperature > 0.0 && 0.0 <= r.rainfall < 100.0
  {
    if rows == [] then []
    else
      var last := rows[|rows| - 1];
      FilterRows(rows[..|rows| - 1]) + (if Kept(last) then [ToRecord(last)] else [])
  }

  /** The positions of the kept rows, in increasing order. */
  function KeptIndices(rows: seq<RawRow>): seq<int> {
    if rows == [] then []
    else KeptIndices(rows[..|rows| - 1]) + (if Kept(rows[|rows| - 1]) then [|rows| - 1] else [])
  }

  /** The i-th kept record is the record built from the row at the i-th kept position. */
  lemma {:induction false} FilterPicksKeptRows(rows: seq<RawRow>)
    requires DrawsInRange(rows)
    ensures |KeptIndices(rows)| == |FilterRows(rows)|
    ensures forall i :: 0 <= i < |KeptIndices(rows)| ==>
              var k := KeptIndices(rows)[i];
              0 <= k < |rows| && Kept(rows[k]) && FilterRows(rows)[i] == ToRecord(rows[k])
  {
    if rows != [] {
      var init := rows[..|rows| - 1];
      assert DrawsInRange(init);
      FilterPicksKeptRows(init);
      forall i | 0 <= i < |KeptIndices(init)|
        ensures rows[KeptIndices(init)[i]] == init[KeptIndices(init)[i]]
      {
      }
    }
  }

  /** The kept positions strictly increase: the filter preserves row order. */
  lemma {:induction false} KeptIndicesIncrease(rows: seq<RawRow>)
    ensures forall i :: 0 <= i < |KeptIndices(rows)| ==> 0 <= KeptIndices(rows)[i] < |rows|
    ensures forall i, j :: 0 <= i < j < |KeptIndices(rows)| ==> KeptIndices(rows)[i] < KeptIndices(rows)[j]
  {
    if rows != [] {
      KeptIndicesIncrease(rows[..|rows| - 1]);
    }
  }

  /** No row that passes the filter is lost. */
  lemma {:induction false} KeptIndicesComplete(rows: seq<RawRow>)
    ensures forall k :: 0 <= k < |rows| && Kept(rows[k]) ==> k in KeptIndices(rows)
  {
    if rows != [] {
      var init := rows[..|rows| - 1];
      KeptIndicesComplete(init);
      forall k | 0 <= k < |init| ensures rows[k] == init[k] {
      }
    }
  }
}
