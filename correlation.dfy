/**
 * The correlation matrix: Pearson's product-moment correlation of two
 * columns, truncated to the shorter column, defined as 0 when either column
 * is constant; the matrix diagonal is fixed at 1.
 *
 * Math.sqrt is a parameter `sqrt`; all that is assumed of it is sqrt(0) = 0.
 */
module Correlation {
  import opened Records
  import Statistics

  /** The arithmetic mean of the first n values (d3.mean(x.slice(0, n))); 0 when n is 0, where it is never used. */
  function MeanOfPrefix(x: seq<real>, n: nat): real
    requires n <= |x|
  {
    if n == 0 then 0.0 else Statistics.Mean(x[..n])
  }

  /** Sum over i < k of (x[i] - mx) * (y[i] - my). */
  function CoSum(x: seq<real>, y: seq<real>, mx: real, my: real, k: nat): real
    requires k <= |x| && k <= |y|
  {
    if k == 0 then 0.0 else CoSum(x, y, mx, my, k - 1) + Product(x[k - 1] - mx, y[k - 1] - my)
  }

  /** Sum over i < k of (x[i] - mx) squared. */
  function SquareSum(x: seq<real>, mx: real, k: nat): real
    requires k <= |x|
  {
    if k == 0 then 0.0 else SquareSum(x, mx, k - 1) + Product(x[k - 1] - mx, x[k - 1] - mx)
  }

  /** One term of the sums: the product of two deviations. */
  function Product(a: real, b: real): real {
    a * b
  }

  /** A sum of squared deviations is never negative. */
  lemma {:induction false} SquareSumNonNegative(x: seq<real>, mx: real, k: nat)
    requires k <= |x|
    ensures SquareSum(x, mx, k) >= 0.0
  {
    if k > 0 {
      SquareSumNonNegative(x, mx, k - 1);
      var d := x[k - 1] - mx;
      assert Product(d, d) >= 0.0;
    }
  }

  function MinLen(x: seq<real>, y: seq<real>): nat {
    if |x| < |y| then |x| else |y|
  }

  /** num / sqrt(dx2 * dy2), or 0 when the square root is 0. */
  function Ratio(num: real, dx2: real, dy2: real, sqrt: real -> real): real {
    var denom := sqrt(Product(dx2, dy2));
    if denom == 0.0 then 0.0 else num / denom
  }

  /**
   * The correlation calculateCorrelation computes, as a function of the two
   * columns. A constant column (zero sum of squared deviations) gives 0
   * rather than a division by zero, and so do uncorrelated deviations.
   */
  function Pearson(x: seq<real>, y: seq<real>, sqrt: real -> real): (r: real)
    ensures var n := MinLen(x, y);
            (sqrt(0.0) == 0.0 &&
             (SquareSum(x, MeanOfPrefix(x, n), n) == 0.0 || SquareSum(y, MeanOfPrefix(y, n), n) == 0.0)) ==> r == 0.0
    ensures var n := MinLen(x, y); CoSum(x, y, MeanOfPrefix(x, n), MeanOfPrefix(y, n), n) == 0.0 ==> r == 0.0
  {
    var n := MinLen(x, y);
    var mx, my := MeanOfPrefix(x, n), MeanOfPrefix(y, n);
    var dx2, dy2 := SquareSum(x, mx, n), SquareSum(y, my, n);
    assert dx2 == 0.0 || dy2 == 0.0 ==> Product(dx2, dy2) == 0.0;
    Ratio(CoSum(x, y, mx, my, n), dx2, dy2, sqrt)
  }

  /**
   * calculateCorrelation(x, y): accumulates num, dx2 and dy2 over the first
   * min(|x|, |y|) positions and divides num by sqrt(dx2 * dy2), or returns 0
   * when that is 0.
   */
  method CalculateCorrelation(x: seq<real>, y: seq<real>, sqrt: real -> real) returns (r: real)
    ensures r == Pearson(x, y, sqrt)
  {
    var n := if |x| < |y| then |x| else |y|;
    var mx, my := MeanOfPrefix(x, n), MeanOfPrefix(y, n);
    var num, dx2, dy2 := 0.0, 0.0, 0.0;
    for i := 0 to n
      invariant num == CoSum(x, y, mx, my, i)
      invariant dx2 == SquareSum(x, mx, i)
      invariant dy2 == SquareSum(y, my, i)
    {
      var a, b := x[i] - mx, y[i] - my;
      num := num + Product(a, b);
      dx2 := dx2 + Product(a, a);
      dy2 := dy2 + Product(b, b);
    }
    assert n == MinLen(x, y);
    r := Ratio(num, dx2, dy2, sqrt);
  }

  lemma {:induction false} CoSumSymmetric(x: seq<real>, y: seq<real>, mx: real, my: real, k: nat)
    requires k <= |x| && k <= |y|
    ensures CoSum(x, y, mx, my, k) == CoSum(y, x, my, mx, k)
  {
    if k > 0 {
      CoSumSymmetric(x, y, mx, my, k - 1);
    }
  }

  /** Correlation is symmetric in its two columns. */
  lemma PearsonSymmetric(x: seq<real>, y: seq<real>, sqrt: real -> real)
    ensures Pearson(x, y, sqrt) == Pearson(y, x, sqrt)
  {
    var n := MinLen(x, y);
    assert MinLen(y, x) == n;
    var mx, my := MeanOfPrefix(x, n), MeanOfPrefix(y, n);
    CoSumSymmetric(x, y, mx, my, n);
    var dx2, dy2 := SquareSum(x, mx, n), SquareSum(y, my, n);
    assert dx2 * dy2 == dy2 * dx2;
    assert Pearson(x, y, sqrt) == Ratio(CoSum(x, y, mx, my, n), dx2, dy2, sqrt);
    assert Pearson(y, x, sqrt) == Ratio(CoSum(y, x, my, mx, n), dy2, dx2, sqrt);
  }

  lemma {:induction false} CoSumPrefix(x: seq<real>, y: seq<real>, mx: real, my: real, k: nat, n: nat)
    requires k <= n <= |x| && n <= |y|
    ensures CoSum(x, y, mx, my, k) == CoSum(x[..n], y[..n], mx, my, k)
  {
    if k > 0 {
      CoSumPrefix(x, y, mx, my, k - 1, n);
    }
  }

  lemma {:induction false} SquareSumPrefix(x: seq<real>, mx: real, k: nat, n: nat)
    requires k <= n <= |x|
    ensures SquareSum(x, mx, k) == SquareSum(x[..n], mx, k)
  {
    if k > 0 {
      SquareSumPrefix(x, mx, k - 1, n);
    }
  }

  /**
   * Only positions below min(|x|, |y|) are read: truncating both columns to
   * the shorter length changes nothing.
   */
  lemma PearsonReadsCommonPrefix(x: seq<real>, y: seq<real>, sqrt: real -> real)
    ensures var n := MinLen(x, y); Pearson(x, y, sqrt) == Pearson(x[..n], y[..n], sqrt)
  {
    var n := MinLen(x, y);
    var x', y' := x[..n], y[..n];
    assert MinLen(x', y') == n;
    assert x'[..n] == x[..n] && y'[..n] == y[..n];
    var mx, my := MeanOfPrefix(x, n), MeanOfPrefix(y, n);
    assert MeanOfPrefix(x', n) == mx && MeanOfPrefix(y', n) == my;
    CoSumPrefix(x, y, mx, my, n, n);
    SquareSumPrefix(x, mx, n, n);
    SquareSumPrefix(y, my, n, n);
    assert Pearson(x, y, sqrt) == Ratio(CoSum(x, y, mx, my, n), SquareSum(x, mx, n), SquareSum(y, my, n), sqrt);
    assert Pearson(x', y', sqrt) == Ratio(CoSum(x', y', mx, my, n), SquareSum(x', mx, n), SquareSum(y', my, n), sqrt);
  }

  /** A column correlates perfectly with itself when it is not constant (and sqrt(v * v) = v). */
  lemma PearsonSelf(x: seq<real>, sqrt: real -> real)
    requires var d := SquareSum(x, MeanOfPrefix(x, |x|), |x|); d != 0.0 && sqrt(Product(d, d)) == d
    ensures Pearson(x, x, sqrt) == 1.0
  {
    var n := |x|;
    var mx := MeanOfPrefix(x, n);
    CoSumIsSquareSum(x, mx, n);
    assert MinLen(x, x) == n;
    var d := SquareSum(x, mx, n);
    assert Pearson(x, x, sqrt) == Ratio(d, d, d, sqrt);
    RatioOfItself(d, sqrt);
  }

  lemma RatioOfItself(d: real, sqrt: real -> real)
    requires d != 0.0 && sqrt(Product(d, d)) == d
    ensures Ratio(d, d, d, sqrt) == 1.0
  {
    assert d / d == 1.0;
  }

  lemma {:induction false} CoSumIsSquareSum(x: seq<real>, mx: real, k: nat)
    requires k <= |x|
    ensures CoSum(x, x, mx, mx, k) == SquareSum(x, mx, k)
  {
    if k > 0 {
      CoSumIsSquareSum(x, mx, k - 1);
    }
  }

  /** The variables of the correlation matrix, in display order. */
  datatype Variable = Temp | Humid | Press | DewPoint | HeatIndex | UvIndex

  const Variables: seq<Variable> := [Temp, Humid, Press, DewPoint, HeatIndex, UvIndex]

  function Field(v: Variable, r: WeatherRecord): real {
    match v
    case Temp => r.temperature
    case Humid => r.humidity
    case Press => r.pressure
    case DewPoint => r.dewPoint
    case HeatIndex => r.heatIndex
    case UvIndex => r.uvIndex
  }

  /** `weatherData.map(d => d[v.key])`. */
  function Column(data: seq<WeatherRecord>, v: Variable): (c: seq<real>)
    ensures |c| == |data|
    ensures forall i :: 0 <= i < |data| ==> c[i] == Field(v, data[i])
  {
    seq(|data|, i requires 0 <= i < |data| => Field(v, data[i]))
  }

  /** `i === j ? 1.0 : calculateCorrelation(...)` for every pair of variables. */
  function CorrelationMatrix(data: seq<WeatherRecord>, sqrt: real -> real): (m: seq<seq<real>>)
    ensures |m| == |Variables|
    ensures forall i :: 0 <= i < |m| ==> |m[i]| == |Variables|
    ensures forall i, j :: 0 <= i < |m| && 0 <= j < |m| && i != j ==>
              m[i][j] == Pearson(Column(data, Variables[i]), Column(data, Variables[j]), sqrt)
  {
    seq(|Variables|, i requires 0 <= i < |Variables| =>
      seq(|Variables|, j requires 0 <= j < |Variables| =>
        if i == j then 1.0 else Pearson(Column(data, Variables[i]), Column(data, Variables[j]), sqrt)))
  }

  /** The diagonal is exactly 1 and the matrix is symmetric. */
  lemma CorrelationMatrixShape(data: seq<WeatherRecord>, sqrt: real -> real)
    ensures var m := CorrelationMatrix(data, sqrt);
            (forall i :: 0 <= i < |m| ==> m[i][i] == 1.0) &&
            (forall i, j :: 0 <= i < |m| && 0 <= j < |m| ==> m[i][j] == m[j][i])
  {
    var m := CorrelationMatrix(data, sqrt);
    forall i, j | 0 <= i < |m| && 0 <= j < |m| ensures m[i][j] == m[j][i] {
      if i != j {
        PearsonSymmetric(Column(data, Variables[i]), Column(data, Variables[j]), sqrt);
      }
    }
  }
}
