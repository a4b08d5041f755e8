/** Per-player trailing-window signals of the feature table: rolling mean and
    standard deviation, benching probability and risk score. */
module Signals {
  import opened Common

  /** `rolling_mean`: the mean of the last `n` values, 0 when there is no window. */
  function RollingMean(values: seq<real>, n: int): (r: real)
    ensures n <= 0 || values == [] ==> r == 0.0
    ensures n > 0 && values != [] ==>
      var w := TakeLast(values, n);
      |w| > 0 && r * (|w| as real) == Sum(w)
  {
    if n <= 0 then 0.0
    else
      var w := TakeLast(values, n);
      if w == [] then 0.0 else Sum(w) / (|w| as real)
  }

  /** The rolling mean lies between the bounds of the values. */
  lemma {:induction false} RollingMeanBounds(values: seq<real>, n: int, lo: real, hi: real)
    requires lo <= 0.0 <= hi
    requires forall i :: 0 <= i < |values| ==> lo <= values[i] <= hi
    ensures lo <= RollingMean(values, n) <= hi
  {
    if n > 0 && values != [] {
      var w := TakeLast(values, n);
      assert forall i :: 0 <= i < |w| ==> w[i] == values[|values| - |w| + i];
      MeanBounds(w, lo, hi);
    }
  }

  lemma {:induction false} RollingMeanExample()
    ensures RollingMean([1.0, 2.0, 3.0], 2) == 2.5
  {
    assert TakeLast([1.0, 2.0, 3.0], 2) == [2.0, 3.0];
    assert Sum([2.0, 3.0]) == 5.0 by {
      assert [2.0, 3.0][..1] == [2.0];
      assert [2.0][..0] == [];
    }
  }

  /** Squared deviations of a window from a centre. */
  function SquaredDeviations(w: seq<real>, m: real): (d: seq<real>)
    ensures |d| == |w|
    ensures forall i :: 0 <= i < |w| ==> d[i] == (w[i] - m) * (w[i] - m) && d[i] >= 0.0
  {
    seq(|w|, i requires 0 <= i < |w| => (w[i] - m) * (w[i] - m))
  }

  /** Population variance of the trailing window, 0 when the window has at most
      one value. */
  function RollingVariance(values: seq<real>, n: int): (v: real)
    ensures v >= 0.0
  {
    if n <= 0 then 0.0
    else
      var w := TakeLast(values, n);
      if |w| <= 1 then 0.0
      else
        var d := SquaredDeviations(w, Mean(w));
        SumNonNegative(d);
        Sum(d) / (|w| as real)
  }

  /** What the model needs of `math.sqrt`: zero at zero and never negative. */
  ghost predicate SqrtOk(sqrt: real -> real)
  {
    sqrt(0.0) == 0.0 && forall x :: x >= 0.0 ==> sqrt(x) >= 0.0
  }

  /** `rolling_std`: the square root of the rolling variance, 0 without a window. */
  function RollingStd(values: seq<real>, n: int, sqrt: real -> real): (r: real)
    requires SqrtOk(sqrt)
    ensures r >= 0.0
    ensures n <= 0 || |TakeLast(values, n)| <= 1 ==> r == 0.0
  {
    if n <= 0 || |TakeLast(values, n)| <= 1 then 0.0
    else sqrt(RollingVariance(values, n))
  }

  /** A window of equal values has mean equal to that value and no spread. */
  lemma {:induction false} ConstantWindow(w: seq<real>, c: real)
    requires |w| > 0
    requires forall i :: 0 <= i < |w| ==> w[i] == c
    ensures Mean(w) == c
    ensures Sum(SquaredDeviations(w, c)) == 0.0
  {
    SumConstant(w, c);
    var n := |w| as real;
    assert (n * c) / n == c;
    var d := SquaredDeviations(w, c);
    forall i | 0 <= i < |d| ensures d[i] == 0.0 {
      var x := w[i] - c;
      assert x == 0.0;
      assert d[i] == x * x;
    }
    SumConstant(d, 0.0);
  }

  /** A trailing window of equal values has no spread. */
  lemma {:induction false} RollingStdConstant(values: seq<real>, n: int, c: real, sqrt: real -> real)
    requires SqrtOk(sqrt)
    requires forall i :: 0 <= i < |values| ==> values[i] == c
    ensures RollingVariance(values, n) == 0.0
    ensures RollingStd(values, n, sqrt) == 0.0
  {
    if n > 0 {
      var w := TakeLast(values, n);
      if |w| > 1 {
        assert forall i :: 0 <= i < |w| ==> w[i] == values[|values| - |w| + i];
        ConstantWindow(w, c);
      }
    }
  }

  lemma {:induction false} RollingStdExample(sqrt: real -> real)
    requires SqrtOk(sqrt)
    ensures RollingStd([2.0, 2.0, 2.0], 3, sqrt) == 0.0
  {
    RollingStdConstant([2.0, 2.0, 2.0], 3, 2.0, sqrt);
  }

  /** Appearances of at least 60 minutes. */
  function StartCount(ms: seq<real>): (k: nat)
    ensures k <= |ms|
  {
    if ms == [] then 0
    else StartCount(ms[..|ms| - 1]) + (if ms[|ms| - 1] >= 60.0 then 1 else 0)
  }

  /** Appearances of more than 0 and fewer than 60 minutes. */
  function CameoCount(ms: seq<real>): (k: nat)
    ensures k <= |ms|
  {
    if ms == [] then 0
    else CameoCount(ms[..|ms| - 1]) + (if 0.0 < ms[|ms| - 1] < 60.0 then 1 else 0)
  }

  /** Matches with exactly 0 minutes. */
  function DnpCount(ms: seq<real>): (k: nat)
    ensures k <= |ms|
  {
    if ms == [] then 0
    else DnpCount(ms[..|ms| - 1]) + (if ms[|ms| - 1] == 0.0 then 1 else 0)
  }

  /** With no negative minutes every match is exactly one of start, cameo or
      did-not-play. */
  lemma {:induction false} CountsPartition(ms: seq<real>)
    requires forall i :: 0 <= i < |ms| ==> ms[i] >= 0.0
    ensures StartCount(ms) + CameoCount(ms) + DnpCount(ms) == |ms|
  {
    if ms != [] {
      var ms' := ms[..|ms| - 1];
      assert forall i :: 0 <= i < |ms'| ==> ms'[i] == ms[i];
      CountsPartition(ms');
    }
  }

  /** `compute_benching_probability`, before clamping. */
  function BenchingRaw(ms: seq<real>): real
    requires ms != []
  {
    var n := |ms| as real;
    var startRate := StartCount(ms) as real / n;
    var cameoRate := CameoCount(ms) as real / n;
    var dnpRate := DnpCount(ms) as real / n;
    0.6 * dnpRate + 0.3 * cameoRate + 0.1 * (1.0 - startRate)
  }

  /** `compute_benching_probability`: 1 without history, otherwise the weighted
      did-not-play / cameo / non-start rates clamped to [0, 1]. */
  function BenchingProbability(ms: seq<real>): (r: real)
    ensures 0.0 <= r <= 1.0
    ensures ms == [] ==> r == 1.0
  {
    if ms == [] then 1.0 else Clamp(BenchingRaw(ms), 0.0, 1.0)
  }

  /** 0.7 per did-not-play plus 0.4 per cameo, averaged over the matches. */
  function WeightedAbsence(dnp: nat, cameo: nat, n: nat): real
    requires n > 0
  {
    (0.7 * (dnp as real) + 0.4 * (cameo as real)) / (n as real)
  }

  /** For real minute counts (none negative) the clamp never bites: the
      probability is (0.7 * did-not-play + 0.4 * cameos) / matches, between 0
      and 0.7. */
  lemma {:induction false} BenchingClosedForm(ms: seq<real>)
    requires ms != []
    requires forall i :: 0 <= i < |ms| ==> ms[i] >= 0.0
    ensures BenchingProbability(ms) == WeightedAbsence(DnpCount(ms), CameoCount(ms), |ms|)
    ensures BenchingProbability(ms) <= 0.7
  {
    CountsPartition(ms);
    BenchingFromCounts(|ms| as real, StartCount(ms) as real, CameoCount(ms) as real, DnpCount(ms) as real,
      BenchingRaw(ms), BenchingProbability(ms));
  }

  /** The arithmetic behind `BenchingClosedForm`, over the counts as numbers. */
  lemma {:induction false} BenchingFromCounts(n: real, s: real, c: real, d: real, raw: real, p: real)
    requires n > 0.0 && s + c + d == n && s >= 0.0 && c >= 0.0 && d >= 0.0
    requires raw == 0.6 * (d / n) + 0.3 * (c / n) + 0.1 * (1.0 - s / n)
    requires p == Clamp(raw, 0.0, 1.0)
    ensures p == (0.7 * d + 0.4 * c) / n && p <= 0.7
  {
    RatesClosedForm(n, s, c, d);
  }

  /** The arithmetic behind `BenchingClosedForm`. */
  lemma {:induction false} RatesClosedForm(n: real, s: real, c: real, d: real)
    requires n > 0.0 && s + c + d == n && s >= 0.0 && c >= 0.0 && d >= 0.0
    ensures Clamp(0.6 * (d / n) + 0.3 * (c / n) + 0.1 * (1.0 - s / n), 0.0, 1.0) == (0.7 * d + 0.4 * c) / n
    ensures (0.7 * d + 0.4 * c) / n <= 0.7
  {
    DivBounds(0.7 * d + 0.4 * c, n, 0.0, 0.7);
    var a, b, e := d / n, c / n, s / n;
    assert a * n == d && b * n == c && e * n == s;
    var lhs := 0.6 * a + 0.3 * b + 0.1 * (1.0 - e);
    calc {
      lhs * n;
      0.6 * (a * n) + 0.3 * (b * n) + 0.1 * (n - e * n);
      0.6 * d + 0.3 * c + 0.1 * (n - s);
      0.7 * d + 0.4 * c;
    }
    assert lhs == (lhs * n) / n;
  }

  /** A player who started every recent match has benching probability 0. */
  lemma {:induction false} BenchingAllStarts(ms: seq<real>)
    requires ms != []
    requires forall i :: 0 <= i < |ms| ==> ms[i] >= 60.0
    ensures BenchingProbability(ms) == 0.0
  {
    NoCameoNoDnp(ms);
    BenchingClosedForm(ms);
  }

  lemma {:induction false} NoCameoNoDnp(ms: seq<real>)
    requires forall i :: 0 <= i < |ms| ==> ms[i] >= 60.0
    ensures CameoCount(ms) == 0 && DnpCount(ms) == 0
  {
    if ms != [] {
      var ms' := ms[..|ms| - 1];
      assert forall i :: 0 <= i < |ms'| ==> ms'[i] == ms[i];
      NoCameoNoDnp(ms');
    }
  }

  /** A player who played in none of the recent matches has probability 0.7. */
  lemma {:induction false} BenchingAllDnp(ms: seq<real>)
    requires ms != []
    requires forall i :: 0 <= i < |ms| ==> ms[i] == 0.0
    ensures BenchingProbability(ms) == 0.7
  {
    AllDnpCounts(ms);
    BenchingClosedForm(ms);
  }

  lemma {:induction false} AllDnpCounts(ms: seq<real>)
    requires forall i :: 0 <= i < |ms| ==> ms[i] == 0.0
    ensures CameoCount(ms) == 0 && DnpCount(ms) == |ms|
  {
    if ms != [] {
      var ms' := ms[..|ms| - 1];
      assert forall i :: 0 <= i < |ms'| ==> ms'[i] == ms[i];
      AllDnpCounts(ms');
    }
  }

  /** `compute_risk_score`: 0.55 benching + 0.30 clamped volatility + 0.15 injury,
      clamped to [0, 1]. */
  function RiskScore(benching: real, volatility: real, injuryFlag: int): (r: real)
    ensures 0.0 <= r <= 1.0
  {
    var vol := Clamp(volatility, 0.0, 1.0);
    Clamp(0.55 * benching + 0.30 * vol + 0.15 * (injuryFlag as real), 0.0, 1.0)
  }

  /** The risk score never decreases when any of its inputs grows. */
  lemma {:induction false} RiskScoreMonotone(b1: real, v1: real, i1: int, b2: real, v2: real, i2: int)
    requires b1 <= b2 && v1 <= v2 && i1 <= i2
    ensures RiskScore(b1, v1, i1) <= RiskScore(b2, v2, i2)
  {
    ClampMonotone(v1, v2, 0.0, 1.0);
    var x1 := 0.55 * b1 + 0.30 * Clamp(v1, 0.0, 1.0) + 0.15 * (i1 as real);
    var x2 := 0.55 * b2 + 0.30 * Clamp(v2, 0.0, 1.0) + 0.15 * (i2 as real);
    ClampMonotone(x1, x2, 0.0, 1.0);
  }

  /** The weights sum to 1, so for a probability and a 0/1 flag the outer clamp
      never bites. */
  lemma {:induction false} RiskScoreUnclamped(benching: real, volatility: real, injuryFlag: int)
    requires 0.0 <= benching <= 1.0
    requires injuryFlag == 0 || injuryFlag == 1
    ensures RiskScore(benching, volatility, injuryFlag)
         == 0.55 * benching + 0.30 * Clamp(volatility, 0.0, 1.0) + 0.15 * (injuryFlag as real)
  {
  }
}
