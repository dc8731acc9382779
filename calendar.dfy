/**
 * Calendar keys used to group observations: the Indian seasons of the
 * seasonal trend chart and the decade of the decadal chart and the
 * rainfall boxplot's decade selector.
 */
module Calendar {

  datatype Season = Winter | Summer | Monsoon | PostMonsoon

  /** getSeason(m): March-May is summer, June-September the monsoon, October-November post-monsoon, anything else winter. */
  function GetSeason(m: int): (s: Season)
    ensures s == Summer <==> 3 <= m <= 5
    ensures s == Monsoon <==> 6 <= m <= 9
    ensures s == PostMonsoon <==> 10 <= m <= 11
    ensures s == Winter <==> m < 3 || 11 < m
  {
    if 3 <= m <= 5 then Summer
    else if 6 <= m <= 9 then Monsoon
    else if 10 <= m <= 11 then PostMonsoon
    else Winter
  }

  /** On real months the winter months are exactly December, January and February. */
  lemma WinterMonths(m: int)
    requires 1 <= m <= 12
    ensures GetSeason(m) == Winter <==> m == 12 || m == 1 || m == 2
  {
  }

  /** The fixed order in which the seasons are listed in the legend. */
  const SeasonOrder: seq<Season> := [Winter, Summer, Monsoon, PostMonsoon]

  /** Every season is listed exactly once. */
  lemma SeasonOrderIsComplete(s: Season)
    ensures s in SeasonOrder
    ensures forall i, j :: 0 <= i < j < |SeasonOrder| ==> SeasonOrder[i] != SeasonOrder[j]
  {
  }

  /** getDecade(y) = Math.floor(y / 10) * 10: the multiple of ten at or just below y. */
  function GetDecade(y: int): (d: int)
    ensures d % 10 == 0
    ensures d <= y < d + 10
  {
    (y / 10) * 10
  }

  /** The decade is the only multiple of ten within ten years at or below y. */
  lemma {:induction false} DecadeIsUnique(y: int, d: int)
    requires d % 10 == 0 && d <= y < d + 10
    ensures d == GetDecade(y)
  {
    var g := GetDecade(y);
    assert (d - g) % 10 == 0;
    assert -10 < d - g < 10;
  }

  /** Years of one decade share its key; GetDecade is idempotent. */
  lemma {:induction false} DecadeOfDecade(y: int)
    ensures GetDecade(GetDecade(y)) == GetDecade(y)
  {
    DecadeIsUnique(GetDecade(y), GetDecade(y));
  }
}
