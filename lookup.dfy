/**
 * The map's weather lookup: find the record whose timestamp is closest to a
 * selected date and time, then shift its temperature and humidity by a
 * coastal gradient that depends on the location's longitude.
 */
module Lookup {
  import opened Wrappers
  import opened Records

  function Abs(x: int): (a: nat)
    ensures a == x || a == -x
  {
    if x < 0 then -x else x
  }

  /** `Math.abs(record.date - target)` in milliseconds. */
  function Distance(r: WeatherRecord, target: int): nat {
    Abs(r.date - target)
  }

  /**
   * The scan in getWeatherForLocationAndTime: start from the first record and
   * replace the current best only on a strictly smaller distance. The result
   * is as close as any record, and strictly closer than every earlier one, so
   * the first of several equally close records wins.
   */
  method ClosestIndex(data: seq<WeatherRecord>, target: int) returns (best: nat)
    requires |data| > 0
    ensures best < |data|
    ensures forall j :: 0 <= j < |data| ==> Distance(data[best], target) <= Distance(data[j], target)
    ensures forall j :: 0 <= j < best ==> Distance(data[best], target) < Distance(data[j], target)
  {
    best := 0;
    var minDiff := Distance(data[0], target);
    for i := 1 to |data|
      invariant best < i
      invariant minDiff == Distance(data[best], target)
      invariant forall j :: 0 <= j < i ==> minDiff <= Distance(data[j], target)
      invariant forall j :: 0 <= j < best ==> minDiff < Distance(data[j], target)
    {
      var diff := Distance(data[i], target);
      if diff < minDiff {
        minDiff := diff;
        best := i;
      }
    }
  }

  /** An unparseable target date falls back to the first record's date. */
  function ResolveTarget(data: seq<WeatherRecord>, target: Option<int>): (t: int)
    requires |data| > 0
    ensures target.Some? ==> t == target.value
    ensures target.None? ==> t == data[0].date
  {
    if target.Some? then target.value else data[0].date
  }

  /** A map location (district). */
  datatype Location = Location(name: string, lat: real, lon: real, zone: string)

  /** The temperature and humidity shifts of getCoastalOffset. */
  datatype Offset = Offset(temp: real, humid: real)

  const MinLon: real := 72.81
  const MaxLon: real := 73.12

  /**
   * getCoastalOffset(lon): t is the longitude's position between MinLon and
   * MaxLon; the temperature shift runs linearly from -1.5 at the coast to
   * +1.5 inland and the humidity shift from +3 to -3. The humidity shift is
   * always -2 times the temperature shift.
   */
  function CoastalOffset(lon: real): (o: Offset)
    ensures o.humid == -2.0 * o.temp
    ensures lon == MinLon ==> o == Offset(-1.5, 3.0)
    ensures lon == MaxLon ==> o == Offset(1.5, -3.0)
    ensures MinLon <= lon <= MaxLon ==> -1.5 <= o.temp <= 1.5 && -3.0 <= o.humid <= 3.0
  {
    var t := (lon - MinLon) / (MaxLon - MinLon);
    Offset(-1.5 + t * 3.0, 3.0 - t * 6.0)
  }

  /**
   * The gradient is linear: the temperature shift between two longitudes is
   * their distance times 3 degrees over the width of the band.
   */
  lemma CoastalOffsetLinear(a: real, b: real)
    ensures CoastalOffset(b).temp - CoastalOffset(a).temp == (b - a) * (3.0 / (MaxLon - MinLon))
  {
  }

  /** Further inland (east) is warmer and drier. */
  lemma CoastalOffsetMonotone(lon1: real, lon2: real)
    requires lon1 <= lon2
    ensures CoastalOffset(lon1).temp <= CoastalOffset(lon2).temp
    ensures CoastalOffset(lon1).humid >= CoastalOffset(lon2).humid
  {
  }

  /** `Math.min(100, Math.max(0, h))`. */
  function ClampHumidity(h: real): (c: real)
    ensures 0.0 <= c <= 100.0
    ensures 0.0 <= h <= 100.0 ==> c == h
    ensures h < 0.0 ==> c == 0.0
    ensures h > 100.0 ==> c == 100.0
  {
    if h > 100.0 then 100.0 else if h < 0.0 then 0.0 else h
  }

  /** What a map marker's popup shows. */
  datatype LocationWeather = LocationWeather(
    temp: real,
    humidity: real,
    pressure: real,
    feelsLike: real,
    weather: string,
    dataDate: int,
    windCardinal: string)

  /**
   * getWeatherForLocationAndTime: the reading nearest the selected time,
   * adjusted for the location. Called only once the data has loaded.
   */
  method WeatherForLocationAndTime(data: seq<WeatherRecord>, loc: Location, target: Option<int>)
    returns (wx: LocationWeather)
    requires |data| > 0
    ensures exists k :: 0 <= k < |data| && IsClosest(data, ResolveTarget(data, target), k) &&
              wx == Adjusted(data[k], CoastalOffset(loc.lon))
    ensures 0.0 <= wx.humidity <= 100.0
  {
    var t := ResolveTarget(data, target);
    var k := ClosestIndex(data, t);
    wx := Adjusted(data[k], CoastalOffset(loc.lon));
  }

  /** k is the first record at minimal distance from t. */
  predicate IsClosest(data: seq<WeatherRecord>, t: int, k: int) {
    0 <= k < |data| &&
    (forall j :: 0 <= j < |data| ==> Distance(data[k], t) <= Distance(data[j], t)) &&
    (forall j :: 0 <= j < k ==> Distance(data[k], t) < Distance(data[j], t))
  }

  /** The first closest record is unique: the lookup is deterministic. */
  lemma ClosestIsUnique(data: seq<WeatherRecord>, t: int, k1: int, k2: int)
    requires IsClosest(data, t, k1) && IsClosest(data, t, k2)
    ensures k1 == k2
  {
    var d1, d2 := Distance(data[k1], t), Distance(data[k2], t);
  }

  /** With a single record, that record is the closest to any target. */
  lemma SingleRecordIsClosest(r: WeatherRecord, t: int)
    ensures IsClosest([r], t, 0)
    ensures forall k :: IsClosest([r], t, k) ==> k == 0
  {
  }

  /** A row without a weather phrase reads 'Clear' in the popup, whatever the location. */
  lemma MissingPhraseReadsClear(row: RawRow, o: Offset)
    requires Parses(row) && row.temperature.Number? && 0.0 <= row.rainDraw < 1.0
    requires row.weatherPhrase.None? || row.weatherPhrase == Some("")
    ensures Adjusted(ToRecord(row), o).weather == "Clear"
  {
  }

  /** The reading of a record shifted by a coastal offset, humidity clamped; an empty phrase reads 'Clear'. */
  function Adjusted(r: WeatherRecord, o: Offset): (wx: LocationWeather)
    ensures wx.temp - r.temperature == o.temp && wx.feelsLike - r.feelsLike == o.temp
    ensures wx.humidity == ClampHumidity(r.humidity + o.humid)
    ensures wx.pressure == r.pressure && wx.dataDate == r.date && wx.windCardinal == r.windCardinal
    ensures wx.weather == (if r.weatherPhrase == "" then "Clear" else r.weatherPhrase)
  {
    LocationWeather(
      r.temperature + o.temp,
      ClampHumidity(r.humidity + o.humid),
      r.pressure,
      r.feelsLike + o.temp,
      if r.weatherPhrase == "" then "Clear" else r.weatherPhrase,
      r.date,
      r.windCardinal)
  }
}
