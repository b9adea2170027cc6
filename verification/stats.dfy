/** The statistics behind the threshold lines: `mean` and `sd` (identical
    in epicurve/app.js and epicurve/foodpoisoning/app.js) and the mean,
    alert and action lines `m`, `m + s` and `m + 2 * s`.

    Arithmetic is exact; JavaScript's NaN is kept where the code divides
    zero by zero. `Math.sqrt` is not computed: the standard deviation is a
    number the caller supplies, related to the variance by `IsSqrtOf`. */
module Stats {
  import opened JsValues

  /** `arr.reduce((a, b) => a + b, 0)`, adding from the left. */
  function Sum(xs: seq<nat>): nat {
    if |xs| == 0 then 0 else Sum(xs[..|xs| - 1]) + xs[|xs| - 1]
  }

  /** `mean(arr)`: the sum divided by the length; for an empty series
      this is 0 / 0, which is NaN. */
  function Mean(xs: seq<nat>): (m: Number)
    ensures m.NaN? <==> |xs| == 0
    ensures m.Real? ==> m.r * |xs| as real == Sum(xs) as real
  {
    if |xs| == 0 then NaN else Real(Sum(xs) as real / |xs| as real)
  }

  /** `n` copies of `a` added up. */
  function Times(a: real, n: nat): real {
    if n == 0 then 0.0 else Times(a, n - 1) + a
  }

  lemma {:induction false} TimesIsProduct(a: real, n: nat)
    ensures Times(a, n) == a * n as real
    decreases n
  {
    if n > 0 {
      TimesIsProduct(a, n - 1);
      OneMore(a, (n - 1) as real, n as real);
    }
  }

  lemma OneMore(a: real, n: real, n1: real)
    requires n1 == n + 1.0
    ensures a * n1 == a * n + a
  {
  }

  /** A sum of terms between `lo` and `hi` lies between `n` times each. */
  lemma {:induction false} SumBounds(xs: seq<nat>, lo: real, hi: real)
    requires forall i :: 0 <= i < |xs| ==> lo <= xs[i] as real <= hi
    ensures Times(lo, |xs|) <= Sum(xs) as real <= Times(hi, |xs|)
    decreases |xs|
  {
    if |xs| > 0 {
      var n := |xs| - 1;
      var init := xs[..n];
      assert forall i :: 0 <= i < n ==> init[i] == xs[i];
      SumBounds(init, lo, hi);
    }
  }

  lemma QuotientBounds(s: real, n: real, lo: real, hi: real)
    requires n > 0.0 && lo * n <= s <= hi * n
    ensures lo <= s / n <= hi
  {
  }

  /** The mean of a non-empty series lies between its smallest and its
      largest value. */
  lemma MeanWithin(xs: seq<nat>, lo: real, hi: real)
    requires |xs| > 0
    requires forall i :: 0 <= i < |xs| ==> lo <= xs[i] as real <= hi
    ensures lo <= Mean(xs).r <= hi
  {
    SumBounds(xs, lo, hi);
    TimesIsProduct(lo, |xs|);
    TimesIsProduct(hi, |xs|);
    QuotientBounds(Sum(xs) as real, |xs| as real, lo, hi);
  }

  lemma ProductPositive(a: real, b: real, p: real)
    requires a > 0.0 && b > 0.0 && p == a * b
    ensures p > 0.0
  {
  }

  /** A square is never negative, and is zero only for zero. */
  lemma SquareSign(d: real, sq: real)
    requires sq == d * d
    ensures sq >= 0.0
    ensures d != 0.0 ==> sq > 0.0
    ensures d == 0.0 ==> sq == 0.0
  {
    if d < 0.0 {
      ProductPositive(-d, -d, sq);
    } else if d > 0.0 {
      ProductPositive(d, d, sq);
    }
  }

  /** `arr.reduce((s, x) => s + Math.pow(x - m, 2), 0)`. */
  function SquaredDeviations(xs: seq<nat>, m: real): (q: real)
    ensures q >= 0.0
  {
    if |xs| == 0 then 0.0
    else
      var d := xs[|xs| - 1] as real - m;
      SquareSign(d, d * d);
      SquaredDeviations(xs[..|xs| - 1], m) + d * d
  }

  /** The quantity `sd` takes the square root of: the squared deviations
      over `arr.length - 1`. An empty series gives 0 / -1, which is (minus)
      zero; a single value gives 0 / 0, which is NaN. */
  function Variance(xs: seq<nat>): (v: Number)
    ensures v.NaN? <==> |xs| == 1
    ensures v.Real? ==> v.r >= 0.0
  {
    if |xs| == 0 then Real(0.0)
    else if |xs| == 1 then NaN
    else Real(SquaredDeviations(xs, Mean(xs).r) / (|xs| - 1) as real)
  }

  /** `s` is `Math.sqrt(v)`: NaN for NaN, otherwise the non-negative root. */
  predicate IsSqrtOf(s: Number, v: Number) {
    match v
    case NaN => s.NaN?
    case Real(x) => s.Real? && s.r >= 0.0 && s.r * s.r == x
  }

  lemma {:induction false} SquaredDeviationsZero(xs: seq<nat>, m: real)
    ensures SquaredDeviations(xs, m) == 0.0 <==> forall i :: 0 <= i < |xs| ==> xs[i] as real == m
    decreases |xs|
  {
    if |xs| > 0 {
      var n := |xs| - 1;
      var d := xs[n] as real - m;
      SquaredDeviationsZero(xs[..n], m);
      var sq := d * d;
      SquareSign(d, sq);
      var q0 := SquaredDeviations(xs[..n], m);
      assert SquaredDeviations(xs, m) == q0 + sq;
      assert sq >= 0.0 && q0 >= 0.0;
      if d == 0.0 {
        assert sq == 0.0;
      } else {
        assert sq > 0.0;
      }
      assert forall i :: 0 <= i < n ==> xs[..n][i] == xs[i];
    }
  }

  /** For two or more values the standard deviation is zero exactly when
      every value is the same. */
  lemma VarianceZeroIff(xs: seq<nat>)
    requires |xs| >= 2
    ensures Variance(xs) == Real(0.0) <==> forall i :: 0 <= i < |xs| ==> xs[i] == xs[0]
  {
    var m := Mean(xs).r;
    SquaredDeviationsZero(xs, m);
    if forall i :: 0 <= i < |xs| ==> xs[i] == xs[0] {
      MeanWithin(xs, xs[0] as real, xs[0] as real);
    }
  }

  /** The three horizontal lines. */
  datatype Lines = Lines(mean: Number, alert: Number, action: Number)

  /** Mean, alert (`m + s`) and action (`m + 2 * s`) lines. The lines are
      evenly spaced, one standard deviation apart; NaN in either input
      makes both thresholds NaN. */
  function ThresholdLines(m: Number, s: Number): (l: Lines)
    ensures l.mean == m
    ensures l.alert.Real? <==> m.Real? && s.Real?
    ensures l.action.Real? <==> m.Real? && s.Real?
    ensures l.alert.Real? ==> l.alert.r - l.mean.r == s.r && l.action.r - l.alert.r == s.r
  {
    Lines(m, Add(m, s), Add(m, Scale(2.0, s)))
  }
}
