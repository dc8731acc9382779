/**
 * d3.group / d3.rollup followed by a sort on the numeric key: the records
 * are partitioned by an integer key, each group keeps the records in input
 * order, and the groups come out with their keys strictly ascending.
 */
module Grouping {
  import opened Records

  predicate StrictlyAscending(ks: seq<int>) {
    forall i, j :: 0 <= i < j < |ks| ==> ks[i] < ks[j]
  }

  /** Adds k to a strictly ascending key list, keeping it strictly ascending. */
  function InsertKey(ks: seq<int>, k: int): (out: seq<int>)
    requires StrictlyAscending(ks)
    ensures StrictlyAscending(out)
    ensures forall x :: x in out <==> x in ks || x == k
  {
    if ks == [] then [k]
    else if k < ks[0] then [k] + ks
    else if k == ks[0] then ks
    else
      var tail := InsertKey(ks[1..], k);
      assert ks == [ks[0]] + ks[1..];
      assert forall x :: x in ks[1..] ==> ks[0] < x;
      assert forall j :: 0 <= j < |tail| ==> tail[j] in tail && ks[0] < tail[j];
      [ks[0]] + tail
  }

  /** The distinct keys of xs in ascending order. */
  function SortedKeys(xs: seq<WeatherRecord>, key: WeatherRecord -> int): (ks: seq<int>)
    ensures StrictlyAscending(ks)
    ensures forall k :: k in ks <==> exists x :: x in xs && key(x) == k
  {
    if xs == [] then []
    else
      assert forall x :: x in xs <==> x == xs[0] || x in xs[1..];
      InsertKey(SortedKeys(xs[1..], key), key(xs[0]))
  }

  /** The members of xs with key k, in input order. */
  function Group(xs: seq<WeatherRecord>, key: WeatherRecord -> int, k: int): (g: seq<WeatherRecord>)
    ensures |g| <= |xs|
    ensures forall x :: x in g <==> x in xs && key(x) == k
  {
    if xs == [] then []
    else
      assert forall x :: x in xs <==> x == xs[0] || x in xs[1..];
      (if key(xs[0]) == k then [xs[0]] else []) + Group(xs[1..], key, k)
  }

  /** A group holds each record of its key as many times as xs does, and no other record. */
  lemma {:induction false} GroupCounts(xs: seq<WeatherRecord>, key: WeatherRecord -> int, k: int)
    ensures forall x :: multiset(Group(xs, key, k))[x] == if key(x) == k then multiset(xs)[x] else 0
  {
    if xs != [] {
      GroupCounts(xs[1..], key, k);
      assert xs == [xs[0]] + xs[1..];
    }
  }

  /**
   * Grouping keeps the input order: the group of a concatenation is the
   * group of the first part followed by the group of the second.
   */
  lemma {:induction false} GroupAppend(xs: seq<WeatherRecord>, ys: seq<WeatherRecord>, key: WeatherRecord -> int, k: int)
    ensures Group(xs + ys, key, k) == Group(xs, key, k) + Group(ys, key, k)
  {
    if xs != [] {
      GroupAppend(xs[1..], ys, key, k);
      assert xs + ys == [xs[0]] + (xs[1..] + ys);
      assert (xs + ys)[1..] == xs[1..] + ys;
    } else {
      assert xs + ys == ys;
    }
  }

  datatype Bucket = Bucket(key: int, members: seq<WeatherRecord>)

  /**
   * `Array.from(d3.group(xs, key)).sort((a, b) => a[0] - b[0])`: one bucket
   * per distinct key, keys ascending, each holding its non-empty group.
   */
  function GroupSorted(xs: seq<WeatherRecord>, key: WeatherRecord -> int): (bs: seq<Bucket>)
    ensures forall i, j :: 0 <= i < j < |bs| ==> bs[i].key < bs[j].key
    ensures forall i :: 0 <= i < |bs| ==> |bs[i].members| > 0 && bs[i].members == Group(xs, key, bs[i].key)
    ensures forall x :: x in xs ==> exists i :: 0 <= i < |bs| && bs[i].key == key(x)
  {
    var ks := SortedKeys(xs, key);
    KeysHaveGroups(xs, key);
    var bs := seq(|ks|, i requires 0 <= i < |ks| => Bucket(ks[i], Group(xs, key, ks[i])));
    assert forall i :: 0 <= i < |bs| ==> bs[i].key == ks[i];
    bs
  }

  /** Every listed key has a non-empty group, and every member's key is listed. */
  lemma KeysHaveGroups(xs: seq<WeatherRecord>, key: WeatherRecord -> int)
    ensures forall i :: 0 <= i < |SortedKeys(xs, key)| ==> |Group(xs, key, SortedKeys(xs, key)[i])| > 0
    ensures forall x :: x in xs ==> exists i :: 0 <= i < |SortedKeys(xs, key)| && SortedKeys(xs, key)[i] == key(x)
  {
    var ks := SortedKeys(xs, key);
    forall i | 0 <= i < |ks| ensures |Group(xs, key, ks[i])| > 0 {
      assert ks[i] in ks;
      var x :| x in xs && key(x) == ks[i];
      assert x in Group(xs, key, ks[i]);
    }
    forall x | x in xs ensures exists i :: 0 <= i < |ks| && ks[i] == key(x) {
      assert key(x) in ks;
    }
  }

  /** The weighted sum of a sequence of members. */
  function Total(xs: seq<WeatherRecord>, w: WeatherRecord -> real): real {
    if xs == [] then 0.0 else w(xs[0]) + Total(xs[1..], w)
  }

  /** The sum, over a list of keys, of each key's group total. */
  function TotalByKeys(ks: seq<int>, xs: seq<WeatherRecord>, key: WeatherRecord -> int, w: WeatherRecord -> real): real {
    if ks == [] then 0.0 else Total(Group(xs, key, ks[0]), w) + TotalByKeys(ks[1..], xs, key, w)
  }

  /** Peeling the first member off xs peels w(x0) off the group of its key and nothing else. */
  lemma {:induction false} TotalByKeysPeel(ks: seq<int>, xs: seq<WeatherRecord>, key: WeatherRecord -> int, w: WeatherRecord -> real)
    requires xs != []
    requires forall i, j :: 0 <= i < j < |ks| ==> ks[i] != ks[j]
    ensures TotalByKeys(ks, xs, key, w) ==
            (if key(xs[0]) in ks then w(xs[0]) else 0.0) + TotalByKeys(ks, xs[1..], key, w)
  {
    if ks != [] {
      TotalByKeysPeel(ks[1..], xs, key, w);
      var g, g' := Group(xs, key, ks[0]), Group(xs[1..], key, ks[0]);
      if key(xs[0]) == ks[0] {
        assert g == [xs[0]] + g';
        assert g[1..] == g';
        assert Total(g, w) == w(xs[0]) + Total(g', w);
        assert key(xs[0]) !in ks[1..];
      } else {
        assert g == g';
      }
    }
  }

  /**
   * Grouping neither loses nor duplicates a member: summing the group totals
   * over any duplicate-free key list that covers every key gives the total.
   */
  lemma {:induction false} GroupsPartition(ks: seq<int>, xs: seq<WeatherRecord>, key: WeatherRecord -> int, w: WeatherRecord -> real)
    requires forall i, j :: 0 <= i < j < |ks| ==> ks[i] != ks[j]
    requires forall x :: x in xs ==> key(x) in ks
    ensures TotalByKeys(ks, xs, key, w) == Total(xs, w)
  {
    if xs == [] {
      EmptyGroupsTotal(ks, xs, key, w);
    } else {
      TotalByKeysPeel(ks, xs, key, w);
      assert xs[0] in xs;
      assert forall x :: x in xs[1..] ==> x in xs;
      GroupsPartition(ks, xs[1..], key, w);
    }
  }

  lemma {:induction false} EmptyGroupsTotal(ks: seq<int>, xs: seq<WeatherRecord>, key: WeatherRecord -> int, w: WeatherRecord -> real)
    requires xs == []
    ensures TotalByKeys(ks, xs, key, w) == 0.0
  {
    if ks != [] {
      EmptyGroupsTotal(ks[1..], xs, key, w);
    }
  }

  /** The bucket totals of GroupSorted add up to the total of all members. */
  lemma {:induction false} GroupSortedConserves(xs: seq<WeatherRecord>, key: WeatherRecord -> int, w: WeatherRecord -> real)
    ensures var bs := GroupSorted(xs, key);
            TotalByKeys(seq(|bs|, i requires 0 <= i < |bs| => bs[i].key), xs, key, w) == Total(xs, w)
  {
    var bs := GroupSorted(xs, key);
    var ks := SortedKeys(xs, key);
    assert seq(|bs|, i requires 0 <= i < |bs| => bs[i].key) == ks;
    forall x | x in xs ensures key(x) in ks {
    }
    GroupsPartition(ks, xs, key, w);
  }
}
