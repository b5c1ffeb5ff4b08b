/**
 * The performance metrics of backtester.py (`calculate_metrics`) as pure
 * functions of the equity curve (the `Total_Portfolio` column).
 * pandas' NaN is a datatype case; the square root in the volatility is not
 * computed, so a defined Sharpe ratio is kept as its numerator and the
 * sample variance under the root.
 */
module Metrics {
  import opened Wrappers

  /** A pandas scalar: NaN or a real number. */
  datatype Stat = NaN | Num(value: real)

  /**
   * The Sharpe ratio: NaN, or `annualReturn / sqrt(252 * variance)`, where
   * `variance` is the sample variance (ddof = 1) of the daily returns.
   */
  datatype Sharpe = SharpeNaN | Ratio(annualReturn: real, variance: real)

  datatype MetricsRecord = MetricsRecord(
    initialCapital: real,
    finalValue: real,
    totalReturn: real,
    maxDrawdown: real,
    annualizedReturn: Stat,
    sharpe: Sharpe)

  /** `iloc[-1]` on an empty column raises IndexError. */
  datatype MetricsError = EmptyCurve

  /** Trading days per year used to annualise. */
  const TradingDays: real := 252.0

  predicate AllPositive(v: seq<real>)
  {
    forall i :: 0 <= i < |v| ==> v[i] > 0.0
  }

  predicate NonDecreasing(v: seq<real>)
  {
    forall i, j :: 0 <= i <= j < |v| ==> v[i] <= v[j]
  }

  predicate Constant(s: seq<real>)
  {
    forall i, j :: 0 <= i < |s| && 0 <= j < |s| ==> s[i] == s[j]
  }

  function Max(a: real, b: real): real { if a >= b then a else b }

  function Min(a: real, b: real): real { if a <= b then a else b }

  /** The running peak (`cummax`): each entry is at least the value on that day. */
  function CumMax(v: seq<real>): (peak: seq<real>)
    ensures |peak| == |v|
    ensures forall i :: 0 <= i < |v| ==> v[i] <= peak[i]
  {
    if v == [] then []
    else
      var prev := CumMax(v[..|v| - 1]);
      var x := v[|v| - 1];
      prev + [if prev == [] then x else Max(prev[|prev| - 1], x)]
  }

  /** The last entry of the running peak is the larger of the previous peak and the new value. */
  lemma CumMaxSnoc(v: seq<real>)
    requires v != []
    ensures var prev := CumMax(v[..|v| - 1]);
            CumMax(v) == prev + [if prev == [] then v[|v| - 1] else Max(prev[|prev| - 1], v[|v| - 1])]
  {
  }

  /** Every entry of the running peak bounds the values so far. */
  lemma {:induction false} CumMaxBounds(v: seq<real>)
    ensures forall i, j :: 0 <= j <= i < |v| ==> v[j] <= CumMax(v)[i]
  {
    if v != [] {
      var init := v[..|v| - 1];
      CumMaxBounds(init);
      CumMaxSnoc(v);
      var prev := CumMax(init);
      forall i, j | 0 <= j <= i < |v|
        ensures v[j] <= CumMax(v)[i]
      {
        if j < |v| - 1 {
          assert v[j] == init[j];
          if i == |v| - 1 {
            assert v[j] <= prev[|prev| - 1];
          }
        }
      }
    }
  }

  /** A day, at or before day `i`, whose value is entry `i` of the running peak. */
  lemma {:induction false} CumMaxWitness(v: seq<real>, i: nat) returns (j: nat)
    requires i < |v|
    ensures j <= i && CumMax(v)[i] == v[j]
  {
    var init := v[..|v| - 1];
    CumMaxSnoc(v);
    var prev := CumMax(init);
    if i < |v| - 1 {
      j := CumMaxWitness(init, i);
      assert CumMax(v)[i] == prev[i];
    } else if prev != [] && prev[|prev| - 1] >= v[|v| - 1] {
      j := CumMaxWitness(init, i - 1);
    } else {
      j := i;
    }
  }

  /** Every entry of the running peak is one of the values so far. */
  lemma {:induction false} CumMaxAttained(v: seq<real>)
    ensures forall i :: 0 <= i < |v| ==> exists j :: 0 <= j <= i && CumMax(v)[i] == v[j]
  {
    var peak := CumMax(v);
    forall i | 0 <= i < |v|
      ensures exists j :: 0 <= j <= i && peak[i] == v[j]
    {
      var j := CumMaxWitness(v, i);
      assert 0 <= j <= i && peak[i] == v[j];
    }
  }

  /** The relative distance `(x - p) / p` of a value below a positive peak. */
  lemma DrawdownSign(x: real, p: real)
    requires 0.0 < x <= p
    ensures (x - p) / p <= 0.0
    ensures (x - p) / p == 0.0 <==> x == p
  {
    var d := (x - p) / p;
    assert d * p == x - p;
    if d > 0.0 {
      Positive(d, p);
    }
    if d < 0.0 {
      Positive(-d, p);
      assert (-d) * p == -(d * p);
    }
  }

  lemma Positive(a: real, b: real)
    requires a > 0.0 && b > 0.0
    ensures a * b > 0.0
  {
  }

  /** `a * b`, named so that a square `Product(d, d)` reaches the solver as a product rather than a power. */
  function Product(a: real, b: real): real
  {
    a * b
  }

  lemma ProductPositive(a: real, b: real)
    requires a > 0.0 && b > 0.0
    ensures Product(a, b) > 0.0
  {
  }

  lemma Square(x: real)
    ensures Product(x, x) >= 0.0
    ensures x != 0.0 ==> Product(x, x) > 0.0
  {
    if x > 0.0 {
      ProductPositive(x, x);
    } else if x < 0.0 {
      ProductPositive(-x, -x);
      assert Product(-x, -x) == Product(x, x);
    }
  }

  /** The relative distances `(v[i] - peak[i]) / peak[i]` of positive values below their peaks. */
  function Relative(v: seq<real>, peak: seq<real>): (dd: seq<real>)
    requires |v| == |peak|
    requires AllPositive(v)
    requires forall i :: 0 <= i < |v| ==> v[i] <= peak[i]
    ensures |dd| == |v|
    ensures forall i :: 0 <= i < |v| ==> dd[i] <= 0.0 && (dd[i] == 0.0 <==> v[i] == peak[i])
  {
    if v == [] then []
    else
      DrawdownSign(v[0], peak[0]);
      [(v[0] - peak[0]) / peak[0]] + Relative(v[1..], peak[1..])
  }

  /** The drawdown column `(value - peak) / peak`: never positive, and zero exactly where the value is at its peak. */
  function Drawdowns(v: seq<real>): (dd: seq<real>)
    requires AllPositive(v)
    ensures |dd| == |v|
    ensures forall i :: 0 <= i < |v| ==> dd[i] <= 0.0
    ensures forall i :: 0 <= i < |v| ==> (dd[i] == 0.0 <==> v[i] == CumMax(v)[i])
  {
    Relative(v, CumMax(v))
  }

  /** `min()` of a non-empty column. */
  function MinOf(s: seq<real>): (m: real)
    requires s != []
    ensures forall i :: 0 <= i < |s| ==> m <= s[i]
    ensures exists i :: 0 <= i < |s| && m == s[i]
  {
    if |s| == 1 then s[0] else Min(MinOf(s[..|s| - 1]), s[|s| - 1])
  }

  /** The maximum drawdown, the smallest entry of the drawdown column. */
  function MaxDrawdown(v: seq<real>): (m: real)
    requires v != [] && AllPositive(v)
    ensures m <= 0.0
  {
    MinOf(Drawdowns(v))
  }

  /** The running peak equals the curve exactly when the curve never falls. */
  lemma PeakIsValueIff(v: seq<real>)
    ensures (forall i :: 0 <= i < |v| ==> CumMax(v)[i] == v[i]) <==> NonDecreasing(v)
  {
    var peak := CumMax(v);
    CumMaxBounds(v);
    CumMaxAttained(v);
    if NonDecreasing(v) {
      forall i | 0 <= i < |v| ensures peak[i] == v[i] {
        var j :| 0 <= j <= i && peak[i] == v[j];
      }
    }
    if forall i :: 0 <= i < |v| ==> peak[i] == v[i] {
      forall i, j | 0 <= i <= j < |v| ensures v[i] <= v[j] {
        assert v[i] <= peak[j];
      }
    }
  }

  /** The minimum of non-positive entries is zero exactly when every entry is zero. */
  lemma MinOfZeroIff(s: seq<real>)
    requires s != []
    requires forall i :: 0 <= i < |s| ==> s[i] <= 0.0
    ensures MinOf(s) == 0.0 <==> forall i :: 0 <= i < |s| ==> s[i] == 0.0
  {
    var k :| 0 <= k < |s| && MinOf(s) == s[k];
  }

  /** The maximum drawdown is zero exactly when the equity curve never falls. */
  lemma MaxDrawdownZeroIff(v: seq<real>)
    requires v != [] && AllPositive(v)
    ensures MaxDrawdown(v) == 0.0 <==> NonDecreasing(v)
  {
    var dd := Drawdowns(v);
    MinOfZeroIff(dd);
    PeakIsValueIff(v);
    assert (forall i :: 0 <= i < |v| ==> dd[i] == 0.0) <==> (forall i :: 0 <= i < |v| ==> CumMax(v)[i] == v[i]);
  }

  /** The growth factor `b / a` of positive values is positive, and at least one exactly when `b` is not below `a`. */
  lemma RatioSign(a: real, b: real)
    requires a > 0.0 && b > 0.0
    ensures b / a > 0.0
    ensures b / a >= 1.0 <==> a <= b
  {
    var q := b / a;
    assert q * a == b;
    if q < 0.0 {
      Positive(-q, a);
    }
    if q > 1.0 {
      Positive(q - 1.0, a);
    } else if q < 1.0 {
      Positive(1.0 - q, a);
    }
  }

  /** `pct_change().dropna()`: one return per consecutive pair of values. */
  function DailyReturns(v: seq<real>): (r: seq<real>)
    requires AllPositive(v)
    ensures |r| == if v == [] then 0 else |v| - 1
    ensures forall i :: 0 <= i < |r| ==> r[i] == v[i + 1] / v[i] - 1.0
    ensures forall i :: 0 <= i < |r| ==> r[i] > -1.0 && (r[i] >= 0.0 <==> v[i] <= v[i + 1])
  {
    if |v| < 2 then []
    else
      var rest := DailyReturns(v[1..]);
      RatioSign(v[0], v[1]);
      [v[1] / v[0] - 1.0] + rest
  }

  function Sum(s: seq<real>): real
  {
    if s == [] then 0.0 else s[0] + Sum(s[1..])
  }

  /** `mean()`: NaN on an empty column. */
  function Mean(s: seq<real>): (m: Stat)
    ensures m.NaN? <==> s == []
    ensures m.Num? ==> m.value * |s| as real == Sum(s)
  {
    if s == [] then NaN else Num(Sum(s) / |s| as real)
  }

  /** The annualised return `mean(daily returns) * 252`. */
  function AnnualizedReturn(daily: seq<real>): (a: Stat)
    ensures a.NaN? <==> daily == []
    ensures a.Num? ==> (a.value > 0.0 <==> Sum(daily) > 0.0)
  {
    match Mean(daily)
    case NaN => NaN
    case Num(m) => Num(m * TradingDays)
  }

  /** Sum of squared deviations from `m`. */
  function SquaredDeviation(s: seq<real>, m: real): (d: real)
    ensures d >= 0.0
  {
    if s == [] then 0.0
    else
      Square(s[0] - m);
      Product(s[0] - m, s[0] - m) + SquaredDeviation(s[1..], m)
  }

  /** Sample variance (pandas `std()` squared, ddof = 1). */
  function SampleVariance(s: seq<real>): (v: real)
    requires |s| >= 2
    ensures v >= 0.0
  {
    SquaredDeviation(s, Sum(s) / |s| as real) / (|s| - 1) as real
  }

  /** One entry away from `m` makes the squared deviation positive. */
  lemma {:induction false} SquaredDeviationPositive(s: seq<real>, m: real, k: nat)
    requires k < |s| && s[k] != m
    ensures SquaredDeviation(s, m) > 0.0
  {
    Square(s[0] - m);
    if k > 0 {
      assert s[1..][k - 1] == s[k];
      SquaredDeviationPositive(s[1..], m, k - 1);
    }
  }

  lemma {:induction false} SquaredDeviationZero(s: seq<real>, m: real)
    ensures SquaredDeviation(s, m) == 0.0 <==> forall i :: 0 <= i < |s| ==> s[i] == m
  {
    if forall i :: 0 <= i < |s| ==> s[i] == m {
      if s != [] {
        assert forall i :: 0 <= i < |s[1..]| ==> s[1..][i] == s[i + 1];
        SquaredDeviationZero(s[1..], m);
      }
    } else {
      var k :| 0 <= k < |s| && s[k] != m;
      SquaredDeviationPositive(s, m, k);
    }
  }

  lemma {:induction false} SumConstant(s: seq<real>, c: real)
    requires forall i :: 0 <= i < |s| ==> s[i] == c
    ensures Sum(s) == |s| as real * c
  {
    if s != [] {
      assert forall i :: 0 <= i < |s[1..]| ==> s[1..][i] == s[i + 1];
      SumConstant(s[1..], c);
    }
  }

  /** The sample variance is zero exactly when every entry is the same. */
  lemma VarianceZeroIff(s: seq<real>)
    requires |s| >= 2
    ensures SampleVariance(s) == 0.0 <==> Constant(s)
  {
    var m := Sum(s) / |s| as real;
    SquaredDeviationZero(s, m);
    if Constant(s) {
      SumConstant(s, s[0]);
      assert m == s[0];
    }
  }

  /**
   * The Sharpe ratio with a zero risk-free rate: NaN when the volatility is
   * NaN (fewer than two returns) or zero, and the ratio otherwise.
   */
  function SharpeRatio(daily: seq<real>): (r: Sharpe)
    ensures r.Ratio? ==> r.variance > 0.0 && AnnualizedReturn(daily) == Num(r.annualReturn)
  {
    if |daily| < 2 then SharpeNaN
    else
      var variance := SampleVariance(daily);
      if variance == 0.0 then SharpeNaN
      else Ratio(AnnualizedReturn(daily).value, variance)
  }

  /** The NaN sentinel appears exactly when there are fewer than two returns or they are all equal. */
  lemma SharpeNaNIff(daily: seq<real>)
    ensures SharpeRatio(daily).SharpeNaN? <==> |daily| < 2 || Constant(daily)
  {
    if |daily| >= 2 {
      VarianceZeroIff(daily);
    }
  }

  /** The growth `final / initial - 1` scaled back by the initial capital is the gain, and its sign is the gain's. */
  lemma ReturnSign(finalValue: real, initialCapital: real)
    requires initialCapital > 0.0
    ensures (finalValue / initialCapital - 1.0) * initialCapital == finalValue - initialCapital
    ensures finalValue / initialCapital - 1.0 >= 0.0 <==> finalValue >= initialCapital
  {
    var q := finalValue / initialCapital;
    assert q * initialCapital == finalValue;
    assert (q - 1.0) * initialCapital == q * initialCapital - initialCapital;
    if q < 1.0 {
      Positive(1.0 - q, initialCapital);
    } else if q > 1.0 {
      Positive(q - 1.0, initialCapital);
    }
  }

  /** The total return `final / initial - 1`: the gain as a fraction of the initial capital. */
  function TotalReturn(finalValue: real, initialCapital: real): (t: real)
    requires initialCapital > 0.0
    ensures t * initialCapital == finalValue - initialCapital
    ensures t >= 0.0 <==> finalValue >= initialCapital
  {
    ReturnSign(finalValue, initialCapital);
    finalValue / initialCapital - 1.0
  }

  /** The metrics of a finished equity curve; an empty curve is an error. */
  function CalculateMetrics(initialCapital: real, totals: seq<real>): (r: Result<MetricsRecord, MetricsError>)
    requires initialCapital > 0.0 && AllPositive(totals)
    ensures r.Err? <==> totals == []
    ensures r.Ok? ==>
              var m := r.value;
              m.initialCapital == initialCapital &&
              m.finalValue == totals[|totals| - 1] &&
              (m.totalReturn >= 0.0 <==> m.finalValue >= initialCapital) &&
              m.maxDrawdown <= 0.0 &&
              (m.maxDrawdown == 0.0 <==> NonDecreasing(totals)) &&
              (m.annualizedReturn.NaN? <==> |totals| == 1) &&
              (m.sharpe.SharpeNaN? <==> |totals| < 3 || Constant(DailyReturns(totals)))
  {
    if totals == [] then Err(EmptyCurve)
    else
      var finalValue := totals[|totals| - 1];
      var daily := DailyReturns(totals);
      MaxDrawdownZeroIff(totals);
      SharpeNaNIff(daily);
      Ok(MetricsRecord(
        initialCapital,
        finalValue,
        TotalReturn(finalValue, initialCapital),
        MaxDrawdown(totals),
        AnnualizedReturn(daily),
        SharpeRatio(daily)))
  }

  /**
   * Each field of the record is the metric of the curve it names: the total
   * return of the last value, the maximum drawdown of the curve, and the
   * annualised return and Sharpe ratio of its daily returns.
   */
  lemma MetricsFields(initialCapital: real, totals: seq<real>)
    requires initialCapital > 0.0 && AllPositive(totals) && totals != []
    ensures var m := CalculateMetrics(initialCapital, totals).value;
            m.totalReturn == TotalReturn(totals[|totals| - 1], initialCapital) &&
            m.totalReturn == m.finalValue / initialCapital - 1.0 &&
            m.maxDrawdown == MaxDrawdown(totals) &&
            m.annualizedReturn == AnnualizedReturn(DailyReturns(totals)) &&
            m.sharpe == SharpeRatio(DailyReturns(totals))
  {
  }
}
