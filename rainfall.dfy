/**
 * The rainfall estimator: a weather phrase is lower-cased and tested against
 * keyword categories in a fixed priority order; the first category that
 * matches picks a band [lo, lo + span) and the estimate is lo + r * span for a
 * uniform draw r in [0, 1). The draw is a parameter here.
 */
module Rainfall {
  import opened Wrappers

  /** Lower-casing of one character (ASCII letters only). */
  function LowerChar(c: char): char {
    if 'A' <= c <= 'Z' then (c as int + 32) as char else c
  }

  function ToLower(s: string): string {
    seq(|s|, i requires 0 <= i < |s| => LowerChar(s[i]))
  }

  /** k occurs in s starting at position i. */
  predicate OccursAt(s: string, k: string, i: int) {
    0 <= i <= |s| - |k| && s[i..i + |k|] == k
  }

  /** `s.includes(k)`: k occurs in s as a contiguous substring. */
  predicate Contains(s: string, k: string)
    ensures Contains(s, k) ==> |k| <= |s|
    ensures k == [] ==> Contains(s, k)
  {
    assert k == [] ==> OccursAt(s, k, 0);
    exists i | 0 <= i <= |s| :: OccursAt(s, k, i)
  }

  /** The keyword categories, in the order the estimator tests them. */
  datatype Category = HeavyRain | Rain | Shower | Cloudy | Dry

  /** The category of an already lower-cased phrase: the first keyword group that occurs. */
  function Classify(p: string): Category {
    if Contains(p, "heavy rain") || Contains(p, "thunder") then HeavyRain
    else if Contains(p, "rain") then Rain
    else if Contains(p, "shower") || Contains(p, "drizzle") then Shower
    else if Contains(p, "cloudy") then Cloudy
    else Dry
  }

  /** Lower bound of a category's band, in millimetres. */
  function BandLow(c: Category): real {
    match c
    case HeavyRain => 35.0
    case Rain => 12.0
    case Shower => 3.0
    case Cloudy => 0.0
    case Dry => 0.0
  }

  /** Width of a category's band; the dry category has none. */
  function BandSpan(c: Category): real {
    match c
    case HeavyRain => 65.0
    case Rain => 28.0
    case Shower => 12.0
    case Cloudy => 2.0
    case Dry => 0.0
  }

  /** The estimate for a category and a draw r in [0, 1): the band swept from its low end. */
  function Band(c: Category, r: real): real {
    BandLow(c) + r * BandSpan(c)
  }

  /** The phrase is absent or empty (falsy in the source). */
  predicate Blank(phrase: Option<string>) {
    phrase.None? || phrase.value == ""
  }

  /** The lower-cased phrase mentions one of `keys`. */
  predicate Mentions(phrase: Option<string>, keys: seq<string>) {
    phrase.Some? && exists k :: k in keys && Contains(ToLower(phrase.value), k)
  }

  /**
   * estimateRainfall(weatherPhrase) with Math.random() replaced by r.
   * The keyword groups are tested in priority order, so a phrase mentioning
   * "thunder" lands in the heavy band even if it also says "rain" or "cloudy".
   */
  function EstimateRainfall(phrase: Option<string>, r: real): (mm: real)
    requires 0.0 <= r < 1.0
    ensures 0.0 <= mm < 100.0
    ensures Blank(phrase) ==> mm == 0.0
    ensures !Blank(phrase) ==>
              var c := Classify(ToLower(phrase.value));
              BandLow(c) <= mm && (c == Dry ==> mm == 0.0) && (c != Dry ==> mm < BandLow(c) + BandSpan(c))
    ensures Mentions(phrase, ["heavy rain", "thunder"]) ==> 35.0 <= mm < 100.0
    ensures !Mentions(phrase, ["heavy rain", "thunder"]) && Mentions(phrase, ["rain"]) ==> 12.0 <= mm < 40.0
    ensures !Mentions(phrase, ["heavy rain", "thunder", "rain"]) && Mentions(phrase, ["shower", "drizzle"]) ==>
              3.0 <= mm < 15.0
    ensures !Mentions(phrase, ["heavy rain", "thunder", "rain", "shower", "drizzle"]) && Mentions(phrase, ["cloudy"]) ==>
              0.0 <= mm < 2.0
    ensures !Mentions(phrase, ["heavy rain", "thunder", "rain", "shower", "drizzle", "cloudy"]) ==> mm == 0.0
  {
    if Blank(phrase) then 0.0
    else
      Band(Classify(ToLower(phrase.value)), r)
  }

  lemma {:induction false} ToLowerIdempotent(s: string)
    ensures ToLower(ToLower(s)) == ToLower(s)
  {
    var t := ToLower(s);
    assert |ToLower(t)| == |t|;
    forall i | 0 <= i < |t| ensures ToLower(t)[i] == t[i] {
      assert t[i] == LowerChar(s[i]);
    }
  }

  /** Matching is case-insensitive: lower-casing the phrase first changes nothing. */
  lemma {:induction false} EstimateIgnoresCase(p: string, r: real)
    requires 0.0 <= r < 1.0
    ensures EstimateRainfall(Some(ToLower(p)), r) == EstimateRainfall(Some(p), r)
  {
    ToLowerIdempotent(p);
    assert |ToLower(p)| == |p|;
  }

  /** The estimate grows with the draw: the band is swept from its low end upwards. */
  lemma {:induction false} EstimateMonotoneInDraw(phrase: Option<string>, r1: real, r2: real)
    requires 0.0 <= r1 <= r2 < 1.0
    ensures EstimateRainfall(phrase, r1) <= EstimateRainfall(phrase, r2)
  {
  }

  /** "Thunderstorms likely" falls in the heavy band, not the generic rain band. */
  lemma ThunderstormsAreHeavy(r: real)
    requires 0.0 <= r < 1.0
    ensures 35.0 <= EstimateRainfall(Some("Thunderstorms likely"), r) < 100.0
  {
    var p := ToLower("Thunderstorms likely");
    assert OccursAt(p, "thunder", 0);
  }

  /** A phrase with no keyword, such as "Clear", gives no rain. */
  lemma ClearIsDry(r: real)
    requires 0.0 <= r < 1.0
    ensures EstimateRainfall(Some("Clear"), r) == 0.0
    ensures EstimateRainfall(Some(""), r) == 0.0 && EstimateRainfall(None, r) == 0.0
  {
    var p := ToLower("Clear");
    assert p == "clear";
    assert !Contains(p, "heavy rain") && !Contains(p, "thunder") && !Contains(p, "shower");
    assert !Contains(p, "drizzle") && !Contains(p, "cloudy");
    assert !Contains(p, "rain") by {
      assert p[0..4] == "clea" && p[1..5] == "lear";
    }
  }
}
