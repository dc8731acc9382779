/**
 * The reducers the charts apply to a group of values: d3.sum, d3.mean,
 * d3.min, d3.max, an ascending sort, and d3.quantile's linear (R-7)
 * interpolation on sorted values. Arithmetic is exact (`real`).
 */
module Statistics {

  /** d3.sum: a sum of non-negative values is non-negative. */
  function Sum(v: seq<real>): (s: real)
    ensures (forall i :: 0 <= i < |v| ==> v[i] >= 0.0) ==> s >= 0.0
  {
    if v == [] then 0.0 else v[0] + Sum(v[1..])
  }

  /** d3.mean of a non-empty group: the value whose |v| copies add up to the sum. */
  function Mean(v: seq<real>): (m: real)
    requires |v| > 0
    ensures m * (|v| as real) == Sum(v)
  {
    Sum(v) / (|v| as real)
  }

  /** d3.min of a non-empty group: a member that no member undercuts. */
  function Min(v: seq<real>): (m: real)
    requires |v| > 0
    ensures m in v
    ensures forall x :: x in v ==> m <= x
  {
    if |v| == 1 then v[0]
    else
      var rest := Min(v[1..]);
      assert forall x :: x in v ==> x == v[0] || x in v[1..];
      if v[0] <= rest then v[0] else rest
  }

  /** d3.max of a non-empty group: a member that no member exceeds. */
  function Max(v: seq<real>): (m: real)
    requires |v| > 0
    ensures m in v
    ensures forall x :: x in v ==> x <= m
  {
    if |v| == 1 then v[0]
    else
      var rest := Max(v[1..]);
      assert forall x :: x in v ==> x == v[0] || x in v[1..];
      if v[0] >= rest then v[0] else rest
  }

  /** n copies of x added up. */
  function Repeat(n: nat, x: real): real {
    if n == 0 then 0.0 else Repeat(n - 1, x) + x
  }

  /** Adding up n copies of x is multiplying x by n. */
  lemma {:induction false} RepeatIsProduct(n: nat, x: real)
    ensures Repeat(n, x) == (n as real) * x
  {
    if n > 0 {
      RepeatIsProduct(n - 1, x);
      assert (n as real) * x == ((n - 1) as real) * x + x;
    }
  }

  /** A sum of values that lie in [lo, hi] lies between |v| copies of lo and |v| copies of hi. */
  lemma {:induction false} SumBetween(v: seq<real>, lo: real, hi: real)
    requires forall x :: x in v ==> lo <= x <= hi
    ensures Repeat(|v|, lo) <= Sum(v) <= Repeat(|v|, hi)
  {
    if v != [] {
      assert v[0] in v;
      assert forall x :: x in v[1..] ==> x in v;
      SumBetween(v[1..], lo, hi);
    }
  }

  /** The mean of a group lies between its minimum and its maximum. */
  lemma {:induction false} MeanBetweenMinAndMax(v: seq<real>)
    requires |v| > 0
    ensures Min(v) <= Mean(v) <= Max(v)
  {
    SumBetween(v, Min(v), Max(v));
    DivideBounds(Sum(v), |v|, Min(v), Max(v));
  }

  /** A total between n copies of lo and n copies of hi, divided by n > 0, lies in [lo, hi]. */
  lemma DivideBounds(a: real, n: nat, lo: real, hi: real)
    requires n > 0 && Repeat(n, lo) <= a <= Repeat(n, hi)
    ensures lo <= a / (n as real) <= hi
  {
    RepeatIsProduct(n, lo);
    RepeatIsProduct(n, hi);
    var d := n as real;
    var m := a / d;
    assert a == d * m;
    if m < lo { ScaleStrict(m, lo, d); }
    if m > hi { ScaleStrict(hi, m, d); }
  }

  lemma ScaleStrict(a: real, b: real, n: real)
    requires a < b && n > 0.0
    ensures n * a < n * b
  {
    assert n * b - n * a == n * (b - a);
  }

  /** A positive fraction strictly below 1 keeps a positive a strictly between 0 and a. */
  lemma ScaleBelow(a: real, t: real)
    requires a > 0.0 && 0.0 < t < 1.0
    ensures 0.0 < a * t < a
  {
    assert a - a * t == a * (1.0 - t);
  }

  /** The floor of a position in [0, m) is an index in [0, m). */
  lemma FloorInRange(x: real, m: int)
    requires 0.0 <= x < m as real
    ensures 0 <= x.Floor < m
    ensures 0.0 <= x - x.Floor as real < 1.0
  {
  }

  /** 0 <= t <= 1 scales a non-negative a to somewhere in [0, a]. */
  lemma ScaleFraction(a: real, t: real)
    requires a >= 0.0 && 0.0 <= t <= 1.0
    ensures 0.0 <= a * t <= a
  {
    assert a - a * t == a * (1.0 - t);
  }

  /** Sum distributes over concatenation. */
  lemma {:induction false} SumAppend(a: seq<real>, b: seq<real>)
    ensures Sum(a + b) == Sum(a) + Sum(b)
  {
    if a == [] {
      assert a + b == b;
    } else {
      assert (a + b)[1..] == a[1..] + b;
      SumAppend(a[1..], b);
    }
  }

  predicate Ascending(v: seq<real>) {
    forall i, j :: 0 <= i < j < |v| ==> v[i] <= v[j]
  }

  lemma AscendingAt(v: seq<real>, i: int, j: int)
    requires Ascending(v) && 0 <= i <= j < |v|
    ensures v[i] <= v[j]
  {
  }

  /** Putting a value no larger than any element in front of an ascending sequence keeps it ascending. */
  lemma ConsAscending(a: real, rest: seq<real>)
    requires Ascending(rest)
    requires forall y :: y in rest ==> a <= y
    ensures Ascending([a] + rest)
  {
    var w := [a] + rest;
    forall i, j | 0 <= i < j < |w| ensures w[i] <= w[j] {
      assert w[j] == rest[j - 1] && rest[j - 1] in rest;
      if i > 0 {
        assert w[i] == rest[i - 1];
      }
    }
  }

  /** Inserts x into an ascending sequence, before the first element larger than it. */
  function Insert(v: seq<real>, x: real): (w: seq<real>)
    requires Ascending(v)
    ensures |w| == |v| + 1
    ensures forall y :: y in w <==> y in v || y == x
    ensures Ascending(w)
  {
    if v == [] then [x]
    else if x <= v[0] then [x] + v
    else
      var rest := Insert(v[1..], x);
      assert v == [v[0]] + v[1..];
      assert forall y :: y in v[1..] ==> v[0] <= y;
      ConsAscending(v[0], rest);
      [v[0]] + rest
  }

  /** Inserting adds exactly one occurrence of x. */
  lemma {:induction false} InsertPermutes(v: seq<real>, x: real)
    requires Ascending(v)
    ensures multiset(Insert(v, x)) == multiset(v) + multiset{x}
  {
    if v != [] && x > v[0] {
      InsertPermutes(v[1..], x);
      assert v == [v[0]] + v[1..];
    }
  }

  /** `values.sort(d3.ascending)`: an ascending permutation of the values. */
  function SortAscending(v: seq<real>): (w: seq<real>)
    ensures Ascending(w)
    ensures multiset(w) == multiset(v)
  {
    if v == [] then []
    else
      var sorted := SortAscending(v[1..]);
      InsertPermutes(sorted, v[0]);
      assert v == [v[0]] + v[1..];
      Insert(sorted, v[0])
  }

  /** The first and last elements of an ascending sequence are its minimum and maximum. */
  lemma {:induction false} AscendingEnds(v: seq<real>)
    requires |v| > 0 && Ascending(v)
    ensures v[0] == Min(v) && v[|v| - 1] == Max(v)
  {
    var lo, hi := Min(v), Max(v);
    assert v[0] in v && v[|v| - 1] in v;
    var i :| 0 <= i < |v| && v[i] == lo;
    var j :| 0 <= j < |v| && v[j] == hi;
    assert v[0] <= v[i] && v[j] <= v[|v| - 1];
  }

  /** Linear interpolation between lo and hi at fraction t. */
  function Lerp(lo: real, hi: real, t: real): (r: real)
    requires lo <= hi && 0.0 <= t <= 1.0
    ensures lo <= r <= hi
  {
    var d := hi - lo;
    ScaleFraction(d, t);
    lo + d * t
  }

  /** The R-7 position (n - 1) * p of quantile p among n values. */
  function Position(n: nat, p: real): (i: real)
    requires n >= 2 && 0.0 < p < 1.0
    ensures 0.0 < i < (n - 1) as real
  {
    ScaleBelow((n - 1) as real, p);
    (n - 1) as real * p
  }

  /**
   * d3.quantile(values, p) on ascending values: p <= 0 or fewer than two
   * values gives the first, p >= 1 the last; otherwise the position
   * (n - 1) * p is split into its floor i0 and fraction, and the result
   * interpolates linearly between values[i0] and values[i0 + 1].
   */
  function Quantile(v: seq<real>, p: real): (q: real)
    requires |v| > 0 && Ascending(v)
    ensures v[0] <= q <= v[|v| - 1]
    ensures p <= 0.0 ==> q == v[0]
    ensures p >= 1.0 ==> q == v[|v| - 1]
  {
    var n := |v|;
    if p <= 0.0 || n < 2 then v[0]
    else if p >= 1.0 then v[n - 1]
    else
      var i := Position(n, p);
      FloorInRange(i, n - 1);
      var i0 := i.Floor;
      AscendingAt(v, 0, i0);
      AscendingAt(v, i0, i0 + 1);
      AscendingAt(v, i0 + 1, n - 1);
      Lerp(v[i0], v[i0 + 1], i - i0 as real)
  }

  lemma LerpMonotone(lo: real, hi: real, t1: real, t2: real)
    requires lo <= hi && 0.0 <= t1 <= t2 <= 1.0
    ensures Lerp(lo, hi, t1) <= Lerp(lo, hi, t2)
  {
    var d := hi - lo;
    assert d * t2 - d * t1 == d * (t2 - t1);
    ScaleFraction(d, t2 - t1);
  }

  lemma PositionMonotone(n: nat, p1: real, p2: real)
    requires n >= 2 && 0.0 < p1 <= p2 < 1.0
    ensures Position(n, p1) <= Position(n, p2)
  {
    var m := (n - 1) as real;
    assert m * p2 - m * p1 == m * (p2 - p1);
    ScaleFraction(m, p2 - p1);
  }

  /** A larger fraction never gives a smaller quantile. */
  lemma {:induction false} QuantileMonotone(v: seq<real>, p1: real, p2: real)
    requires |v| > 0 && Ascending(v)
    requires p1 <= p2
    ensures Quantile(v, p1) <= Quantile(v, p2)
  {
    var n := |v|;
    if n >= 2 && 0.0 < p1 && p2 < 1.0 {
      var i1, i2 := Position(n, p1), Position(n, p2);
      PositionMonotone(n, p1, p2);
      FloorInRange(i1, n - 1);
      FloorInRange(i2, n - 1);
      var f1, f2 := i1.Floor, i2.Floor;
      AscendingAt(v, f1, f1 + 1);
      AscendingAt(v, f2, f2 + 1);
      if f1 == f2 {
        LerpMonotone(v[f1], v[f1 + 1], i1 - f1 as real, i2 - f2 as real);
      } else {
        assert f1 < f2;
        AscendingAt(v, f1 + 1, f2);
      }
    }
  }

  /**
   * The five numbers of a box: on ascending values, first <= lower quartile
   * <= median <= upper quartile <= last.
   */
  lemma {:induction false} QuartilesOrdered(v: seq<real>)
    requires |v| > 0 && Ascending(v)
    ensures v[0] <= Quantile(v, 0.25) <= Quantile(v, 0.5) <= Quantile(v, 0.75) <= v[|v| - 1]
  {
    QuantileMonotone(v, 0.25, 0.5);
    QuantileMonotone(v, 0.5, 0.75);
  }
}
