// sdk/ta/indicators.py (ema, rsi, vwap) and sentinel_domain/features/indicators.py (ema, rsi), over
// exact reals: the series forms, the scalar forms, and how they relate.

module RealSums {

  function Sum(s: seq<real>): real {
    if s == [] then 0.0 else Sum(s[..|s| - 1]) + s[|s| - 1]
  }

  lemma {:induction false} SumBetween(s: seq<real>, lo: real, hi: real)
    requires forall i | 0 <= i < |s| :: lo <= s[i] <= hi
    ensures |s| as real * lo <= Sum(s) <= |s| as real * hi
  {
    if s != [] {
      var n := |s| - 1;
      SumBetween(s[..n], lo, hi);
      assert |s| as real * lo == n as real * lo + lo;
      assert |s| as real * hi == n as real * hi + hi;
    }
  }

  lemma DivBetween(x: real, n: real, lo: real, hi: real)
    requires n > 0.0 && n * lo <= x <= n * hi
    ensures lo <= x / n <= hi
  {
    var q := x / n;
    assert q * n == x;
    if q < lo { MulLess(n, q, lo); }
    if q > hi { MulLess(n, hi, q); }
  }

  lemma MulLess(n: real, x: real, y: real)
    requires n > 0.0 && x < y
    ensures n * x < n * y
  {
    assert n * (y - x) > 0.0;
  }

  lemma MulNotNegative(a: real, b: real)
    requires a >= 0.0 && b >= 0.0
    ensures a * b >= 0.0
  {
  }

  // A weighted mean lies between its two values.
  lemma MixBetween(a: real, x: real, y: real, lo: real, hi: real)
    requires 0.0 <= a <= 1.0 && lo <= x <= hi && lo <= y <= hi
    ensures lo <= a * x + (1.0 - a) * y <= hi
  {
    var b := 1.0 - a;
    MulNotNegative(a, x - lo);
    MulNotNegative(b, y - lo);
    MulNotNegative(a, hi - x);
    MulNotNegative(b, hi - y);
    assert a * (x - lo) == a * x - a * lo && b * (y - lo) == b * y - b * lo;
    assert a * (hi - x) == a * hi - a * x && b * (hi - y) == b * hi - b * y;
    assert a * lo + b * lo == lo && a * hi + b * hi == hi;
  }
}

module Ema {
  import opened Basics
  import opened RealSums

  function Alpha(period: int): real
    requires period > 0
  {
    2.0 / (period as real + 1.0)
  }

  predicate Long(series: seq<real>, period: int) {
    0 < period <= |series|
  }

  function Mean(total: real, period: int): real
    requires period > 0
  {
    total / period as real
  }

  function Seed(series: seq<real>, period: int): real
    requires Long(series, period)
  {
    Mean(Sum(series[..period]), period)
  }

  function Mix(alpha: real, x: real, previous: real): real {
    alpha * x + (1.0 - alpha) * previous
  }

  // The value the series form writes at position i.
  function EmaAt(series: seq<real>, period: int, i: int): real
    requires Long(series, period) && period - 1 <= i < |series|
    decreases i
  {
    if i == period - 1 then Seed(series, period)
    else Mix(Alpha(period), series[i], EmaAt(series, period, i - 1))
  }

  // What the series form writes: nothing before the first full window.
  function EmaValue(series: seq<real>, period: int, i: int): Option<real>
    requires period > 0 && 0 <= i < |series|
  {
    if i < period - 1 then None else Some(EmaAt(series, period, i))
  }

  method SumOf(s: seq<real>) returns (r: real)
    ensures r == Sum(s)
  {
    r := 0.0;
    for i := 0 to |s|
      invariant r == Sum(s[..i])
    {
      assert s[..i + 1][..i] == s[..i];
      r := r + s[i];
    }
    assert s[..|s|] == s;
  }

  // ema of sdk/ta; Err is the ValueError
  method Series(series: seq<real>, period: int) returns (r: Result<seq<Option<real>>>)
    ensures r.Err? <==> period <= 0
    ensures r.Ok? ==> |r.value| == |series|
    ensures r.Ok? ==> forall i | 0 <= i < |series| :: r.value[i] == EmaValue(series, period, i)
  {
    if period <= 0 {
      return Err;
    }
    var n := |series|;
    if n == 0 {
      return Ok([]);
    }
    var out := new Option<real>[n](_ => None);
    if period > n {
      return Ok(out[..]);
    }
    var total := SumOf(series[..period]);
    var seed := Mean(total, period);
    out[period - 1] := Some(seed);
    var alpha := Alpha(period);
    var prev := seed;
    for i := period to n
      invariant prev == EmaAt(series, period, i - 1)
      invariant forall j | 0 <= j < n :: out[j] == if j < i then EmaValue(series, period, j) else None
    {
      hide Mix, Alpha, EmaValue;
      prev := Mix(alpha, series[i], prev);
      EmaStep(series, period, i);
      out[i] := Some(prev);
    }
    return Ok(out[..]);
  }

  lemma {:induction false} EmaStep(series: seq<real>, period: int, i: int)
    requires Long(series, period) && period <= i < |series|
    ensures EmaValue(series, period, i) == Some(Mix(Alpha(period), series[i], EmaAt(series, period, i - 1)))
    ensures EmaAt(series, period, i) == Mix(Alpha(period), series[i], EmaAt(series, period, i - 1))
  {
  }

  // One step of the scalar form.
  function ScalarMix(current: real, v: real, k: real): real {
    v * k + current * (1.0 - k)
  }

  // What the scalar form has after some more values.
  function Fold(current: real, values: seq<real>, k: real): real
    decreases |values|
  {
    if values == [] then current else Fold(ScalarMix(current, values[0], k), values[1..], k)
  }

  // ema of sentinel_domain
  method Scalar(values: seq<real>, period: int) returns (r: Option<real>)
    ensures r == if Long(values, period) then Some(Fold(Seed(values, period), values[period..], Alpha(period))) else None
  {
    if period <= 0 || |values| < period {
      return None;
    }
    var k := Alpha(period);
    var total := SumOf(values[..period]);
    var current := Mean(total, period);
    var rest := values[period..];
    for i := 0 to |rest|
      invariant Fold(Seed(values, period), rest, k) == Fold(current, rest[i..], k)
    {
      assert rest[i..][1..] == rest[i + 1..];
      current := ScalarMix(current, rest[i], k);
    }
    return Some(current);
  }

  lemma SameMix(a: real, x: real, previous: real)
    ensures ScalarMix(previous, x, a) == Mix(a, x, previous)
  {
  }

  lemma {:induction false} FoldStep(current: real, values: seq<real>, k: real)
    requires values != []
    ensures Fold(current, values, k) == Fold(Mix(k, values[0], current), values[1..], k)
  {
    SameMix(k, values[0], current);
  }

  lemma {:induction false} FoldFollows(series: seq<real>, period: int, i: int)
    requires Long(series, period) && period - 1 <= i < |series|
    ensures Fold(EmaAt(series, period, i), series[i + 1..], Alpha(period)) == EmaAt(series, period, |series| - 1)
    decreases |series| - i
  {
    var rest := series[i + 1..];
    if i + 1 < |series| {
      FoldFollows(series, period, i + 1);
      assert rest[0] == series[i + 1] && rest[1..] == series[i + 2..];
      FoldStep(EmaAt(series, period, i), rest, Alpha(period));
    }
  }

  // The scalar form gives the last value of the series form, and gives one exactly when that exists.
  lemma {:induction false} ScalarIsLast(series: seq<real>, period: int)
    requires Long(series, period)
    ensures Fold(Seed(series, period), series[period..], Alpha(period)) == EmaAt(series, period, |series| - 1)
  {
    FoldFollows(series, period, period - 1);
  }

  lemma AlphaIsWeight(period: int)
    requires period > 0
    ensures 0.0 < Alpha(period) <= 1.0
  {
    DivBetween(2.0, period as real + 1.0, 0.0, 1.0);
    assert Alpha(period) * (period as real + 1.0) == 2.0;
  }

  // Every value lies between any bounds of the prices it was made from.
  lemma {:induction false} EmaBetween(series: seq<real>, period: int, i: int, lo: real, hi: real)
    requires Long(series, period) && period - 1 <= i < |series|
    requires forall j | 0 <= j <= i :: lo <= series[j] <= hi
    ensures lo <= EmaAt(series, period, i) <= hi
    decreases i
  {
    if i == period - 1 {
      SumBetween(series[..period], lo, hi);
      DivBetween(Sum(series[..period]), period as real, lo, hi);
    } else {
      EmaBetween(series, period, i - 1, lo, hi);
      AlphaIsWeight(period);
      MixBetween(Alpha(period), series[i], EmaAt(series, period, i - 1), lo, hi);
    }
  }

  // ----- the lag -----

  function Lag(period: int): real {
    (period as real - 1.0) / 2.0
  }

  lemma AlphaLag(period: int)
    requires period > 0
    ensures (1.0 - Alpha(period)) * (1.0 + Lag(period)) == Lag(period)
  {
    var n, a := period as real, Alpha(period);
    assert a * (n + 1.0) == 2.0;
    assert (1.0 - a) * (n + 1.0) == n - 1.0;
    assert 1.0 + Lag(period) == (n + 1.0) / 2.0;
  }

  lemma {:induction false} SumOfLine(s: seq<real>, p: real, q: real)
    requires forall j | 0 <= j < |s| :: s[j] == p * j as real + q
    ensures Sum(s) == |s| as real * (p * ((|s| as real - 1.0) / 2.0) + q)
  {
    if s != [] {
      var k := |s| as real;
      SumOfLine(s[..|s| - 1], p, q);
      assert (|s| - 1) as real == k - 1.0;
      LineStep(k, p, q);
    }
  }

  lemma LineStep(k: real, p: real, q: real)
    ensures (k - 1.0) * (p * ((k - 2.0) / 2.0) + q) + (p * (k - 1.0) + q) == k * (p * ((k - 1.0) / 2.0) + q)
  {
  }

  lemma LagStep(a: real, lag: real, x: real, v: real, previous: real, p: real, q: real)
    requires (1.0 - a) * (1.0 + lag) == lag
    requires v == p * x + q && previous == p * (x - 1.0 - lag) + q
    ensures Mix(a, v, previous) == p * (x - lag) + q
  {
    var b := 1.0 - a;
    assert previous == v - p * (1.0 + lag);
    assert b * (p * (1.0 + lag)) == p * (b * (1.0 + lag)) == p * lag;
    assert b * (v - p * (1.0 + lag)) == b * v - b * (p * (1.0 + lag));
    assert a * v + b * v == v;
    assert p * (x - lag) == p * x - p * lag;
  }

  lemma SeedOnLine(total: real, period: int, y: real)
    requires period > 0 && total == period as real * y
    ensures Mean(total, period) == y
  {
  }

  lemma {:induction false} SeedLags(series: seq<real>, period: int, p: real, q: real)
    requires Long(series, period)
    requires forall j | 0 <= j < period :: series[j] == p * j as real + q
    ensures Seed(series, period) == p * ((period - 1) as real - Lag(period)) + q
  {
    hide Mean;
    var n := period as real;
    SumOfLine(series[..period], p, q);
    SeedOnLine(Sum(series[..period]), period, p * ((n - 1.0) / 2.0) + q);
    assert (period - 1) as real - Lag(period) == (n - 1.0) / 2.0;
  }

  // On prices that move along a line every value trails by exactly half the period less a half: the
  // seed and the weight 2 / (period + 1) are chosen for each other.
  lemma {:induction false} EmaLagsLines(series: seq<real>, period: int, i: int, p: real, q: real)
    requires Long(series, period) && period - 1 <= i < |series|
    requires forall j | 0 <= j <= i :: series[j] == p * j as real + q
    ensures EmaAt(series, period, i) == p * (i as real - Lag(period)) + q
    decreases i
  {
    hide Mix, Alpha, Lag, Mean, Sum;
    if i == period - 1 {
      SeedLags(series, period, p, q);
    } else {
      EmaLagsLines(series, period, i - 1, p, q);
      AlphaLag(period);
      LagStep(Alpha(period), Lag(period), i as real, series[i], EmaAt(series, period, i - 1), p, q);
    }
  }
}

module Rsi {
  import opened Basics
  import opened RealSums
  import opened Ema

  function Gain(series: seq<real>, i: int): real
    requires 0 < i < |series|
  {
    if series[i] - series[i - 1] > 0.0 then series[i] - series[i - 1] else 0.0
  }

  function Loss(series: seq<real>, i: int): real
    requires 0 < i < |series|
  {
    if series[i] - series[i - 1] < 0.0 then -(series[i] - series[i - 1]) else 0.0
  }

  // The sums over the first k differences.
  function Gains(series: seq<real>, k: nat): real
    requires k < |series|
  {
    if k == 0 then 0.0 else Gains(series, k - 1) + Gain(series, k)
  }

  function Losses(series: seq<real>, k: nat): real
    requires k < |series|
  {
    if k == 0 then 0.0 else Losses(series, k - 1) + Loss(series, k)
  }

  // One step of the smoothed average.
  function Smooth(average: real, period: int, x: real): real
    requires period > 0
  {
    (average * (period - 1) as real + x) / period as real
  }

  predicate Defined(series: seq<real>, period: int, i: int) {
    0 < period <= i < |series|
  }

  function AvgGain(series: seq<real>, period: int, i: int): real
    requires Defined(series, period, i)
    decreases i
  {
    if i == period then Gains(series, period) / period as real
    else Smooth(AvgGain(series, period, i - 1), period, Gain(series, i))
  }

  function AvgLoss(series: seq<real>, period: int, i: int): real
    requires Defined(series, period, i)
    decreases i
  {
    if i == period then Losses(series, period) / period as real
    else Smooth(AvgLoss(series, period, i - 1), period, Loss(series, i))
  }

  lemma {:induction false} SumsNotNegative(series: seq<real>, k: nat)
    requires k < |series|
    ensures Gains(series, k) >= 0.0 && Losses(series, k) >= 0.0
  {
    if k > 0 { SumsNotNegative(series, k - 1); }
  }

  lemma QuotientNotNegative(x: real, n: real)
    requires x >= 0.0 && n > 0.0
    ensures x / n >= 0.0 && (x / n == 0.0 <==> x == 0.0)
  {
    assert (x / n) * n == x;
  }

  lemma SmoothNotNegative(average: real, period: int, x: real)
    requires period > 0 && average >= 0.0 && x >= 0.0
    ensures Smooth(average, period, x) >= 0.0
    ensures Smooth(average, period, x) == 0.0 <==> x == 0.0 && (period == 1 || average == 0.0)
  {
    var m := (period - 1) as real;
    assert average * m >= 0.0;
    if average > 0.0 && m > 0.0 { assert average * m > 0.0; }
    QuotientNotNegative(average * m + x, period as real);
  }

  lemma {:induction false} AveragesNotNegative(series: seq<real>, period: int, i: int)
    requires Defined(series, period, i)
    ensures AvgGain(series, period, i) >= 0.0 && AvgLoss(series, period, i) >= 0.0
    decreases i
  {
    if i == period {
      SumsNotNegative(series, period);
      QuotientNotNegative(Gains(series, period), period as real);
      QuotientNotNegative(Losses(series, period), period as real);
    } else {
      AveragesNotNegative(series, period, i - 1);
      SmoothNotNegative(AvgGain(series, period, i - 1), period, Gain(series, i));
      SmoothNotNegative(AvgLoss(series, period, i - 1), period, Loss(series, i));
    }
  }

  // ----- the value -----

  function Strength(gain: real, loss: real): real
    requires gain >= 0.0 && loss > 0.0
  {
    QuotientNotNegative(gain, loss);
    100.0 - 100.0 / (1.0 + gain / loss)
  }

  // The series form: 50 when nothing moved.
  function SeriesValue(gain: real, loss: real): real
    requires gain >= 0.0 && loss >= 0.0
  {
    if loss == 0.0 && gain == 0.0 then 50.0 else if loss == 0.0 then 100.0 else Strength(gain, loss)
  }

  // The scalar form: 100 whenever nothing fell.
  function ScalarValue(gain: real, loss: real): real
    requires gain >= 0.0 && loss >= 0.0
  {
    if loss == 0.0 then 100.0 else Strength(gain, loss)
  }

  function RsiAt(series: seq<real>, period: int, i: int): real
    requires Defined(series, period, i)
  {
    AveragesNotNegative(series, period, i);
    SeriesValue(AvgGain(series, period, i), AvgLoss(series, period, i))
  }

  function ScalarAt(series: seq<real>, period: int, i: int): real
    requires Defined(series, period, i)
  {
    AveragesNotNegative(series, period, i);
    ScalarValue(AvgGain(series, period, i), AvgLoss(series, period, i))
  }

  // ----- the code -----

  // The first loop of the series form.
  method SeedSums(series: seq<real>, period: int) returns (gains: real, losses: real)
    requires 0 < period < |series|
    ensures gains == Gains(series, period) && losses == Losses(series, period)
  {
    gains, losses := 0.0, 0.0;
    for i := 1 to period + 1
      invariant gains == Gains(series, i - 1) && losses == Losses(series, i - 1)
    {
      var diff := series[i] - series[i - 1];
      if diff > 0.0 {
        gains := gains + diff;
      } else if diff < 0.0 {
        losses := losses + -diff;
      }
    }
  }

  method ValueOf(gain: real, loss: real) returns (r: real)
    requires gain >= 0.0 && loss >= 0.0
    ensures r == SeriesValue(gain, loss)
  {
    if loss == 0.0 && gain == 0.0 {
      return 50.0;
    } else if loss == 0.0 {
      return 100.0;
    }
    QuotientNotNegative(gain, loss);
    var rs := gain / loss;
    return 100.0 - (100.0 / (1.0 + rs));
  }

  // rsi of sdk/ta; Err is the ValueError
  method Series(series: seq<real>, period: int) returns (r: Result<seq<Option<real>>>)
    ensures r.Err? <==> period <= 0
    ensures r.Ok? ==> |r.value| == |series|
    ensures r.Ok? ==> forall i | 0 <= i < |series| ::
              r.value[i] == if i < period then None else Some(RsiAt(series, period, i))
  {
    if period <= 0 {
      return Err;
    }
    var n := |series|;
    if n == 0 {
      return Ok([]);
    }
    var out := new Option<real>[n](_ => None);
    if n <= period {
      return Ok(out[..]);
    }
    var gains, losses := SeedSums(series, period);
    var avgGain, avgLoss := gains / period as real, losses / period as real;
    AveragesNotNegative(series, period, period);
    var first := ValueOf(avgGain, avgLoss);
    out[period] := Some(first);
    for i := period + 1 to n
      invariant avgGain == AvgGain(series, period, i - 1) && avgLoss == AvgLoss(series, period, i - 1)
      invariant forall j | 0 <= j < n :: out[j] == if j < period || j >= i then None else Some(RsiAt(series, period, j))
    {
      var diff := series[i] - series[i - 1];
      var gain := if diff > 0.0 then diff else 0.0;
      var loss := if diff < 0.0 then -diff else 0.0;
      avgGain := Smooth(avgGain, period, gain);
      avgLoss := Smooth(avgLoss, period, loss);
      AveragesNotNegative(series, period, i);
      var value := ValueOf(avgGain, avgLoss);
      out[i] := Some(value);
    }
    return Ok(out[..]);
  }

  function Max(x: real, y: real): real {
    if x >= y then x else y
  }

  // The first loop of the scalar form, with its two lists.
  method SeedLists(values: seq<real>, period: int) returns (gains: seq<real>, losses: seq<real>)
    requires 0 < period < |values|
    ensures Sum(gains) == Gains(values, period) && Sum(losses) == Losses(values, period)
  {
    gains, losses := [], [];
    for i := 1 to period + 1
      invariant Sum(gains) == Gains(values, i - 1) && Sum(losses) == Losses(values, i - 1)
    {
      var delta := values[i] - values[i - 1];
      assert (gains + [Max(delta, 0.0)])[..|gains|] == gains;
      assert (losses + [Max(-delta, 0.0)])[..|losses|] == losses;
      gains := gains + [Max(delta, 0.0)];
      losses := losses + [Max(-delta, 0.0)];
    }
  }

  // rsi of sentinel_domain
  method Scalar(values: seq<real>, period: int) returns (r: Option<real>)
    ensures r == if 0 < period < |values| then Some(ScalarAt(values, period, |values| - 1)) else None
  {
    if period <= 0 || |values| < period + 1 {
      return None;
    }
    var gains, losses := SeedLists(values, period);
    var gainSum := SumOf(gains);
    var lossSum := SumOf(losses);
    var avgGain, avgLoss := gainSum / period as real, lossSum / period as real;
    for i := period + 1 to |values|
      invariant avgGain == AvgGain(values, period, i - 1) && avgLoss == AvgLoss(values, period, i - 1)
    {
      var delta := values[i] - values[i - 1];
      var gain, loss := Max(delta, 0.0), Max(-delta, 0.0);
      avgGain := Smooth(avgGain, period, gain);
      avgLoss := Smooth(avgLoss, period, loss);
    }
    AveragesNotNegative(values, period, |values| - 1);
    if avgLoss == 0.0 {
      return Some(100.0);
    }
    QuotientNotNegative(avgGain, avgLoss);
    var rs := avgGain / avgLoss;
    return Some(100.0 - (100.0 / (1.0 + rs)));
  }

  // ----- bounds -----

  lemma StrengthBetween(gain: real, loss: real)
    requires gain >= 0.0 && loss > 0.0
    ensures 0.0 <= Strength(gain, loss) < 100.0
  {
    QuotientNotNegative(gain, loss);
    var d := 1.0 + gain / loss;
    QuotientNotNegative(100.0, d);
    assert d * 0.0 <= 100.0 <= d * 100.0;
    DivBetween(100.0, d, 0.0, 100.0);
  }

  lemma {:induction false} RsiBetween(series: seq<real>, period: int, i: int)
    requires Defined(series, period, i)
    ensures 0.0 <= RsiAt(series, period, i) <= 100.0
  {
    AveragesNotNegative(series, period, i);
    if AvgLoss(series, period, i) > 0.0 { StrengthBetween(AvgGain(series, period, i), AvgLoss(series, period, i)); }
  }

  lemma TimesStep(k: nat, x: real)
    requires k > 0
    ensures k as real * x == (k - 1) as real * x + x
  {
  }

  lemma {:induction false} GainsBetween(series: seq<real>, k: nat, lo: real, hi: real)
    requires k < |series| && forall j | 1 <= j <= k :: lo <= Gain(series, j) <= hi
    ensures k as real * lo <= Gains(series, k) <= k as real * hi
  {
    hide Gain;
    if k > 0 {
      GainsBetween(series, k - 1, lo, hi);
      TimesStep(k, lo);
      TimesStep(k, hi);
    }
  }

  lemma SmoothBetween(average: real, period: int, x: real, lo: real, hi: real)
    requires period > 0 && lo <= average <= hi && lo <= x <= hi
    ensures lo <= Smooth(average, period, x) <= hi
  {
    var m := (period - 1) as real;
    MulNotNegative(m, average - lo);
    MulNotNegative(m, hi - average);
    assert period as real * lo == m * lo + lo && period as real * hi == m * hi + hi;
    DivBetween(average * m + x, period as real, lo, hi);
  }

  // ----- the two forms -----

  // No price has moved within the reach of the averages: with period 1 they only see the last step.
  predicate Quiet(series: seq<real>, period: int, i: int)
    requires Defined(series, period, i)
  {
    forall j | (if period == 1 then i else 1) <= j <= i :: series[j] == series[j - 1]
  }

  lemma {:induction false} SumsZero(series: seq<real>, k: nat)
    requires k < |series|
    ensures Gains(series, k) == 0.0 && Losses(series, k) == 0.0 <==> forall j | 1 <= j <= k :: series[j] == series[j - 1]
  {
    if k > 0 {
      SumsZero(series, k - 1);
      SumsNotNegative(series, k - 1);
    }
  }

  lemma {:induction false} AveragesZero(series: seq<real>, period: int, i: int)
    requires Defined(series, period, i)
    ensures AvgGain(series, period, i) == 0.0 && AvgLoss(series, period, i) == 0.0 <==> Quiet(series, period, i)
    decreases i
  {
    if i == period {
      SumsNotNegative(series, period);
      SumsZero(series, period);
      QuotientNotNegative(Gains(series, period), period as real);
      QuotientNotNegative(Losses(series, period), period as real);
    } else {
      AveragesNotNegative(series, period, i - 1);
      AveragesZero(series, period, i - 1);
      SmoothNotNegative(AvgGain(series, period, i - 1), period, Gain(series, i));
      SmoothNotNegative(AvgLoss(series, period, i - 1), period, Loss(series, i));
    }
  }

  // The series form and the scalar form agree exactly when some price moved; on a quiet series one
  // says 50 and the other 100.
  lemma {:induction false} FormsAgree(series: seq<real>, period: int, i: int)
    requires Defined(series, period, i)
    ensures RsiAt(series, period, i) == ScalarAt(series, period, i) <==> !Quiet(series, period, i)
    ensures Quiet(series, period, i) ==> RsiAt(series, period, i) == 50.0 && ScalarAt(series, period, i) == 100.0
  {
    AveragesNotNegative(series, period, i);
    AveragesZero(series, period, i);
  }

  // ----- mirroring -----

  function Negated(series: seq<real>): seq<real> {
    seq(|series|, i requires 0 <= i < |series| => -series[i])
  }

  lemma {:induction false} SumsSwap(series: seq<real>, k: nat)
    requires k < |series|
    ensures Gains(Negated(series), k) == Losses(series, k) && Losses(Negated(series), k) == Gains(series, k)
  {
    if k > 0 { SumsSwap(series, k - 1); }
  }

  lemma {:induction false} AveragesSwap(series: seq<real>, period: int, i: int)
    requires Defined(series, period, i)
    ensures AvgGain(Negated(series), period, i) == AvgLoss(series, period, i)
    ensures AvgLoss(Negated(series), period, i) == AvgGain(series, period, i)
    decreases i
  {
    if i == period {
      SumsSwap(series, period);
    } else {
      AveragesSwap(series, period, i - 1);
      assert Gain(Negated(series), i) == Loss(series, i) && Loss(Negated(series), i) == Gain(series, i);
    }
  }

  lemma {:induction false} AvgGainBetween(series: seq<real>, period: int, i: int, lo: real, hi: real)
    requires Defined(series, period, i) && forall j | 1 <= j <= i :: lo <= Gain(series, j) <= hi
    ensures lo <= AvgGain(series, period, i) <= hi
    decreases i
  {
    hide Gain, Smooth, Gains;
    if i == period {
      GainsBetween(series, period, lo, hi);
      DivBetween(Gains(series, period), period as real, lo, hi);
    } else {
      AvgGainBetween(series, period, i - 1, lo, hi);
      SmoothBetween(AvgGain(series, period, i - 1), period, Gain(series, i), lo, hi);
    }
  }

  // The averages are averages: they lie between the smallest and the largest rise, or fall, so far.
  lemma {:induction false} AveragesBetween(series: seq<real>, period: int, i: int, lo: real, hi: real)
    requires Defined(series, period, i)
    ensures (forall j | 1 <= j <= i :: lo <= Gain(series, j) <= hi) ==> lo <= AvgGain(series, period, i) <= hi
    ensures (forall j | 1 <= j <= i :: lo <= Loss(series, j) <= hi) ==> lo <= AvgLoss(series, period, i) <= hi
  {
    if forall j | 1 <= j <= i :: lo <= Gain(series, j) <= hi { AvgGainBetween(series, period, i, lo, hi); }
    if forall j | 1 <= j <= i :: lo <= Loss(series, j) <= hi {
      forall j | 1 <= j <= i ensures lo <= Gain(Negated(series), j) <= hi {
        assert Gain(Negated(series), j) == Loss(series, j);
      }
      AvgGainBetween(Negated(series), period, i, lo, hi);
      AveragesSwap(series, period, i);
    }
  }

  // 100 / (1 + g / l) is the share of l.
  lemma Share(g: real, l: real)
    requires g >= 0.0 && l > 0.0
    ensures g + l > 0.0 && 1.0 + g / l > 0.0
    ensures 100.0 / (1.0 + g / l) == 100.0 * l / (g + l)
  {
    QuotientNotNegative(g, l);
    var r := 1.0 + g / l;
    var q := 100.0 / r;
    assert (g / l) * l == g;
    assert r * l == l + g;
    assert q * r == 100.0;
    assert q * (g + l) == q * (r * l) == (q * r) * l == 100.0 * l;
    Divide(q, g + l, 100.0 * l);
  }

  lemma Divide(q: real, d: real, x: real)
    requires d != 0.0 && q * d == x
    ensures q == x / d
  {
  }

  lemma SharesAddUp(g: real, l: real)
    requires g > 0.0 && l > 0.0
    ensures Strength(g, l) + Strength(l, g) == 100.0
  {
    Share(g, l);
    Share(l, g);
    var x, y := 100.0 * l / (g + l), 100.0 * g / (l + g);
    assert x * (g + l) == 100.0 * l && y * (g + l) == 100.0 * g;
    assert (x + y) * (g + l) == 100.0 * (g + l);
    Divide(x + y, g + l, 100.0 * (g + l));
    Divide(100.0, g + l, 100.0 * (g + l));
  }

  // Mirroring the prices mirrors the index: rises become falls.
  lemma {:induction false} NegatedMirrors(series: seq<real>, period: int, i: int)
    requires Defined(series, period, i)
    ensures Defined(Negated(series), period, i)
    ensures RsiAt(Negated(series), period, i) == 100.0 - RsiAt(series, period, i)
  {
    var g, l := AvgGain(series, period, i), AvgLoss(series, period, i);
    AveragesNotNegative(series, period, i);
    AveragesSwap(series, period, i);
    if g > 0.0 && l > 0.0 { SharesAddUp(g, l); }
  }
}

module Vwap {
  import opened Basics
  import opened RealSums

  // One row; a missing volume is None.
  datatype Row = Row(high: real, low: real, close: real, volume: Option<real>)

  function Typical(row: Row): real {
    (row.high + row.low + row.close) / 3.0
  }

  predicate Traded(row: Row) {
    row.volume.Some? && row.volume.value > 0.0
  }

  function Turnover(rows: seq<Row>): real {
    if rows == [] then 0.0 else
    var row := rows[|rows| - 1];
    Turnover(rows[..|rows| - 1]) + (if Traded(row) then Typical(row) * row.volume.value else 0.0)
  }

  function Volume(rows: seq<Row>): real {
    if rows == [] then 0.0 else
    var row := rows[|rows| - 1];
    Volume(rows[..|rows| - 1]) + (if Traded(row) then row.volume.value else 0.0)
  }

  lemma {:induction false} VolumePositive(rows: seq<Row>)
    ensures Volume(rows) >= 0.0
    ensures rows != [] && Traded(rows[|rows| - 1]) ==> Volume(rows) > 0.0
  {
    if rows != [] { VolumePositive(rows[..|rows| - 1]); }
  }

  function Average(turnover: real, volume: real): real
    requires volume > 0.0
  {
    turnover / volume
  }

  // The value written for row i: none without volume.
  function VwapAt(rows: seq<Row>, i: int): Option<real>
    requires 0 <= i < |rows|
  {
    if !Traded(rows[i]) then None else
    VolumePositive(rows[..i + 1]);
    Some(Average(Turnover(rows[..i + 1]), Volume(rows[..i + 1])))
  }

  lemma TradedValue(rows: seq<Row>, i: int)
    requires 0 <= i < |rows| && Traded(rows[i])
    ensures Turnover(rows[..i + 1]) == Turnover(rows[..i]) + Typical(rows[i]) * rows[i].volume.value
    ensures Volume(rows[..i + 1]) == Volume(rows[..i]) + rows[i].volume.value > 0.0
    ensures VwapAt(rows, i) == Some(Average(Turnover(rows[..i + 1]), Volume(rows[..i + 1])))
  {
    assert rows[..i + 1][..i] == rows[..i] && rows[..i + 1][i] == rows[i];
    VolumePositive(rows[..i + 1]);
  }

  lemma NothingYet(rows: seq<Row>)
    ensures Turnover(rows[..0]) == 0.0 && Volume(rows[..0]) == 0.0
  {
  }

  lemma UntradedValue(rows: seq<Row>, i: int)
    requires 0 <= i < |rows| && !Traded(rows[i])
    ensures Turnover(rows[..i + 1]) == Turnover(rows[..i]) && Volume(rows[..i + 1]) == Volume(rows[..i])
    ensures VwapAt(rows, i) == None
  {
    assert rows[..i + 1][..i] == rows[..i] && rows[..i + 1][i] == rows[i];
  }

  // vwap; Err is the ValueError
  method Series(rows: seq<Row>) returns (r: Result<seq<Option<real>>>)
    ensures r.Err? <==> exists i :: 0 <= i < |rows| && rows[i].volume.Some? && rows[i].volume.value < 0.0
    ensures r.Ok? ==> |r.value| == |rows| && forall i | 0 <= i < |rows| :: r.value[i] == VwapAt(rows, i)
  {
    hide Typical, Average, Turnover, Volume, VwapAt;
    var out: seq<Option<real>>, turnover, volume := [], 0.0, 0.0;
    assert turnover == Turnover(rows[..0]) && volume == Volume(rows[..0]) by { NothingYet(rows); }
    for i := 0 to |rows|
      invariant |out| == i && forall j | 0 <= j < i :: !(rows[j].volume.Some? && rows[j].volume.value < 0.0) && out[j] == VwapAt(rows, j)
      invariant turnover == Turnover(rows[..i]) && volume == Volume(rows[..i])
    {
      var row := rows[i];
      if !Traded(row) { UntradedValue(rows, i); } else { TradedValue(rows, i); }
      if row.volume.None? {
        out := out + [None];
        continue;
      }
      var vol := row.volume.value;
      if vol < 0.0 {
        return Err;
      }
      if vol == 0.0 {
        out := out + [None];
        continue;
      }
      turnover := turnover + Typical(row) * vol;
      volume := volume + vol;
      out := out + [Some(Average(turnover, volume))];
    }
    return Ok(out);
  }

  // Close is within the range of the row, and the range within the bounds.
  predicate Within(row: Row, lo: real, hi: real) {
    lo <= row.low <= row.close <= row.high <= hi
  }

  lemma AddBetween(turnover: real, volume: real, tp: real, v: real, lo: real, hi: real)
    requires volume * lo <= turnover <= volume * hi && v > 0.0 && lo <= tp <= hi
    ensures (volume + v) * lo <= turnover + tp * v <= (volume + v) * hi
  {
    assert v * (tp - lo) >= 0.0 && v * (hi - tp) >= 0.0;
    assert (volume + v) * lo == volume * lo + v * lo;
    assert (volume + v) * hi == volume * hi + v * hi;
  }

  lemma TypicalWithin(row: Row, lo: real, hi: real)
    requires Within(row, lo, hi)
    ensures lo <= Typical(row) <= hi
  {
  }

  lemma {:induction false} TurnoverBetween(rows: seq<Row>, lo: real, hi: real)
    requires forall i | 0 <= i < |rows| && Traded(rows[i]) :: Within(rows[i], lo, hi)
    ensures Volume(rows) * lo <= Turnover(rows) <= Volume(rows) * hi
  {
    hide Typical, Within;
    if rows != [] {
      var front, row := rows[..|rows| - 1], rows[|rows| - 1];
      TurnoverBetween(front, lo, hi);
      if Traded(row) {
        TypicalWithin(row, lo, hi);
        AddBetween(Turnover(front), Volume(front), Typical(row), row.volume.value, lo, hi);
      }
    }
  }

  // The average lies between the lowest low and the highest high of the rows traded so far.
  lemma {:induction false} VwapBetween(rows: seq<Row>, i: int, lo: real, hi: real)
    requires 0 <= i < |rows| && Traded(rows[i])
    requires forall j | 0 <= j <= i && Traded(rows[j]) :: Within(rows[j], lo, hi)
    ensures VwapAt(rows, i).Some? && lo <= VwapAt(rows, i).value <= hi
  {
    var seen := rows[..i + 1];
    TurnoverBetween(seen, lo, hi);
    VolumePositive(seen);
    DivBetween(Turnover(seen), Volume(seen), lo, hi);
  }
}
