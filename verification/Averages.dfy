// sdk/ta/indicators.py and sentinel_domain/features/indicators.py: the averages in closed form, every
// price with its weight.

module Averages {
  import opened RealSums
  import opened Ema
  import opened Rsi
  import opened Vwap

  function Pow(r: real, k: nat): real {
    if k == 0 then 1.0 else r * Pow(r, k - 1)
  }

  // The values behind start up to i, each with weight b and fading by r per step.
  function Faded(x: int -> real, r: real, b: real, start: int, i: int): seq<real>
    requires start <= i
  {
    seq(i - start, k requires 0 <= k < i - start => b * Pow(r, i - start - 1 - k) * x(start + 1 + k))
  }

  lemma {:induction false} SumScaled(s: seq<real>, t: seq<real>, r: real)
    requires |s| == |t| && forall k | 0 <= k < |s| :: t[k] == r * s[k]
    ensures Sum(t) == r * Sum(s)
  {
    if s != [] {
      var n := |s| - 1;
      SumScaled(s[..n], t[..n], r);
      assert r * (Sum(s[..n]) + s[n]) == r * Sum(s[..n]) + r * s[n];
    }
  }

  lemma FadedFades(x: int -> real, r: real, b: real, start: int, i: int, k: int)
    requires start < i && 0 <= k < i - 1 - start
    ensures Faded(x, r, b, start, i)[k] == r * Faded(x, r, b, start, i - 1)[k]
  {
    var p := Pow(r, i - 1 - start - 1 - k);
    assert Pow(r, i - start - 1 - k) == r * p;
    assert b * (r * p) * x(start + 1 + k) == r * (b * p * x(start + 1 + k));
  }

  lemma {:induction false} FadedStep(x: int -> real, r: real, b: real, start: int, i: int)
    requires start < i
    ensures Sum(Faded(x, r, b, start, i)) == r * Sum(Faded(x, r, b, start, i - 1)) + b * x(i)
  {
    var t, n := Faded(x, r, b, start, i), i - start - 1;
    forall k | 0 <= k < n ensures t[..n][k] == r * Faded(x, r, b, start, i - 1)[k] { FadedFades(x, r, b, start, i, k); }
    SumScaled(Faded(x, r, b, start, i - 1), t[..n], r);
    assert t[n] == b * Pow(r, 0) * x(i) == b * x(i);
  }

  // y follows x with weight b and keeps r of itself.
  ghost predicate Follows(y: int -> real, x: int -> real, r: real, b: real, start: int, i: int) {
    forall j | start < j <= i :: y(j) == r * y(j - 1) + b * x(j)
  }

  lemma {:induction false} ClosedForm(y: int -> real, x: int -> real, r: real, b: real, start: int, i: int)
    requires start <= i && Follows(y, x, r, b, start, i)
    ensures y(i) == Pow(r, i - start) * y(start) + Sum(Faded(x, r, b, start, i))
    decreases i - start
  {
    hide Faded, Sum;
    if i == start {
      NothingFaded(x, r, b, start);
    } else {
      ClosedForm(y, x, r, b, start, i - 1);
      FadedStep(x, r, b, start, i);
      var p, q := Pow(r, i - 1 - start) * y(start), Sum(Faded(x, r, b, start, i - 1));
      assert y(i) == r * y(i - 1) + b * x(i);
      assert r * (p + q) == r * p + r * q;
      assert r * p == Pow(r, i - start) * y(start);
    }
  }

  lemma NothingFaded(x: int -> real, r: real, b: real, start: int)
    ensures Sum(Faded(x, r, b, start, start)) == 0.0
  {
  }

  // ----- the exponential average -----

  function Prices(series: seq<real>): int -> real {
    (j: int) => if 0 <= j < |series| then series[j] else 0.0
  }

  function EmaOf(series: seq<real>, period: int): int -> real {
    (j: int) => if Long(series, period) && period - 1 <= j < |series| then EmaAt(series, period, j) else 0.0
  }

  lemma EmaFollows(series: seq<real>, period: int, j: int)
    requires Long(series, period) && period - 1 < j < |series|
    ensures var n := period as real;
            EmaOf(series, period)(j) == (n - 1.0) / (n + 1.0) * EmaOf(series, period)(j - 1) + 2.0 / (n + 1.0) * Prices(series)(j)
  {
    Complement(period as real);
    EmaStep(series, period, j);
  }

  // The mean of the first window, and every later price with weight 2 / (period + 1), fading by
  // (period - 1) / (period + 1) per step.
  lemma {:induction false} EmaClosedForm(series: seq<real>, period: int, i: int)
    requires Long(series, period) && period - 1 <= i < |series|
    ensures var n := period as real;
            EmaAt(series, period, i)
            == Pow((n - 1.0) / (n + 1.0), i - (period - 1)) * (Sum(series[..period]) / n)
               + Sum(Faded(Prices(series), (n - 1.0) / (n + 1.0), 2.0 / (n + 1.0), period - 1, i))
  {
    hide Follows, Prices, EmaAt, Sum, Faded, Pow;
    EmaStarts(series, period);
    EmaFollowsUpTo(series, period, i);
    var n := period as real;
    ClosedForm(EmaOf(series, period), Prices(series), (n - 1.0) / (n + 1.0), 2.0 / (n + 1.0), period - 1, i);
  }

  lemma EmaFollowsUpTo(series: seq<real>, period: int, i: int)
    requires Long(series, period) && period - 1 <= i < |series|
    ensures var n := period as real;
            Follows(EmaOf(series, period), Prices(series), (n - 1.0) / (n + 1.0), 2.0 / (n + 1.0), period - 1, i)
  {
    hide Prices, EmaOf;
    forall j | period - 1 < j <= i
      ensures var n := period as real;
              EmaOf(series, period)(j) == (n - 1.0) / (n + 1.0) * EmaOf(series, period)(j - 1) + 2.0 / (n + 1.0) * Prices(series)(j)
    {
      EmaFollows(series, period, j);
    }
  }

  lemma EmaStarts(series: seq<real>, period: int)
    requires Long(series, period)
    ensures EmaOf(series, period)(period - 1) == Sum(series[..period]) / period as real
  {
  }

  lemma Complement(n: real)
    requires n >= 1.0
    ensures 1.0 - 2.0 / (n + 1.0) == (n - 1.0) / (n + 1.0)
  {
    var q := 2.0 / (n + 1.0);
    assert q * (n + 1.0) == 2.0;
    assert (1.0 - q) * (n + 1.0) == n - 1.0;
    Divide(1.0 - q, n + 1.0, n - 1.0);
  }

  // ----- the averages of the relative strength index -----

  // A move is a rise or a fall, not both, and their difference is the move.
  lemma MoveParts(series: seq<real>, j: int)
    requires 0 < j < |series|
    ensures Gain(series, j) - Loss(series, j) == series[j] - series[j - 1]
    ensures Gain(series, j) >= 0.0 && Loss(series, j) >= 0.0 && (Gain(series, j) == 0.0 || Loss(series, j) == 0.0)
  {
  }

  function Rises(series: seq<real>): int -> real {
    (j: int) => if 0 < j < |series| then Gain(series, j) else 0.0
  }

  function Falls(series: seq<real>): int -> real {
    (j: int) => if 0 < j < |series| then Loss(series, j) else 0.0
  }

  function FirstMoves(x: int -> real, k: nat): seq<real> {
    seq(k, j requires 0 <= j < k => x(j + 1))
  }

  lemma {:induction false} FirstSums(series: seq<real>, k: nat)
    requires k < |series|
    ensures Gains(series, k) == Sum(FirstMoves(Rises(series), k)) && Losses(series, k) == Sum(FirstMoves(Falls(series), k))
  {
    if k > 0 {
      FirstSums(series, k - 1);
      assert FirstMoves(Rises(series), k)[..k - 1] == FirstMoves(Rises(series), k - 1);
      assert FirstMoves(Falls(series), k)[..k - 1] == FirstMoves(Falls(series), k - 1);
    }
  }

  // The mean of the first moves, and every later one with weight 1 / period, fading by
  // (period - 1) / period per step.
  function Smoothed(x: int -> real, period: int, i: int): real
    requires 0 < period <= i
  {
    var n := period as real;
    Pow((n - 1.0) / n, i - period) * (Sum(FirstMoves(x, period)) / n) + Sum(Faded(x, (n - 1.0) / n, 1.0 / n, period, i))
  }

  lemma SmoothSplits(average: real, period: int, x: real)
    requires period > 0
    ensures var n := period as real;
            Smooth(average, period, x) == (n - 1.0) / n * average + 1.0 / n * x && n * Smooth(average, period, x) == (n - 1.0) * average + x
  {
    var n := period as real;
    assert n - 1.0 == (period - 1) as real;
    var r, b := (n - 1.0) / n, 1.0 / n;
    assert r * n == n - 1.0 && b * n == 1.0;
    assert (r * average + b * x) * n == (r * n) * average + (b * n) * x;
    Divide(r * average + b * x, n, (n - 1.0) * average + x);
  }

  function GainOf(series: seq<real>, period: int): int -> real {
    (j: int) => if Defined(series, period, j) then AvgGain(series, period, j) else 0.0
  }

  function LossOf(series: seq<real>, period: int): int -> real {
    (j: int) => if Defined(series, period, j) then AvgLoss(series, period, j) else 0.0
  }

  lemma AveragesFollow(series: seq<real>, period: int, j: int)
    requires Defined(series, period, j) && period < j
    ensures var n := period as real;
            && GainOf(series, period)(j) == (n - 1.0) / n * GainOf(series, period)(j - 1) + 1.0 / n * Rises(series)(j)
            && LossOf(series, period)(j) == (n - 1.0) / n * LossOf(series, period)(j - 1) + 1.0 / n * Falls(series)(j)
  {
    hide Smooth, Gain, Loss;
    SmoothSplits(AvgGain(series, period, j - 1), period, Gain(series, j));
    SmoothSplits(AvgLoss(series, period, j - 1), period, Loss(series, j));
  }

  lemma AveragesStart(series: seq<real>, period: int)
    requires Defined(series, period, period)
    ensures GainOf(series, period)(period) == Sum(FirstMoves(Rises(series), period)) / period as real
    ensures LossOf(series, period)(period) == Sum(FirstMoves(Falls(series), period)) / period as real
  {
    FirstSums(series, period);
  }

  lemma {:induction false} AveragesClosedForm(series: seq<real>, period: int, i: int)
    requires Defined(series, period, i)
    ensures AvgGain(series, period, i) == Smoothed(Rises(series), period, i)
    ensures AvgLoss(series, period, i) == Smoothed(Falls(series), period, i)
  {
    hide Follows, Rises, Falls, AvgGain, AvgLoss, Sum, Faded, Pow, FirstMoves;
    AveragesStart(series, period);
    AveragesFollowUpTo(series, period, i);
    var n := period as real;
    ClosedForm(GainOf(series, period), Rises(series), (n - 1.0) / n, 1.0 / n, period, i);
    ClosedForm(LossOf(series, period), Falls(series), (n - 1.0) / n, 1.0 / n, period, i);
  }

  lemma AveragesFollowUpTo(series: seq<real>, period: int, i: int)
    requires Defined(series, period, i)
    ensures var n := period as real;
            && Follows(GainOf(series, period), Rises(series), (n - 1.0) / n, 1.0 / n, period, i)
            && Follows(LossOf(series, period), Falls(series), (n - 1.0) / n, 1.0 / n, period, i)
  {
    hide Rises, Falls, GainOf, LossOf;
    forall j | period < j <= i
      ensures var n := period as real;
              && GainOf(series, period)(j) == (n - 1.0) / n * GainOf(series, period)(j - 1) + 1.0 / n * Rises(series)(j)
              && LossOf(series, period)(j) == (n - 1.0) / n * LossOf(series, period)(j - 1) + 1.0 / n * Falls(series)(j)
    {
      AveragesFollow(series, period, j);
    }
  }

  // The index is the share of the rises in the averages, in percent.
  lemma {:induction false} RsiIsShare(series: seq<real>, period: int, i: int)
    requires Defined(series, period, i)
    ensures var g, l := Smoothed(Rises(series), period, i), Smoothed(Falls(series), period, i);
            && g >= 0.0 && l >= 0.0
            && RsiAt(series, period, i) == (if g + l == 0.0 then 50.0 else 100.0 * g / (g + l))
            && ScalarAt(series, period, i) == (if l == 0.0 then 100.0 else 100.0 * g / (g + l))
  {
    hide Smoothed;
    AveragesClosedForm(series, period, i);
    AveragesNotNegative(series, period, i);
    var g, l := AvgGain(series, period, i), AvgLoss(series, period, i);
    if l > 0.0 {
      Share(g, l);
      var q := 100.0 * l / (g + l);
      assert q * (g + l) == 100.0 * l;
      assert (100.0 - q) * (g + l) == 100.0 * g;
      Divide(100.0 - q, g + l, 100.0 * g);
    } else if g > 0.0 {
      Divide(100.0, g + l, 100.0 * g);
    }
  }

  // ----- the volume-weighted average -----

  function Volumes(rows: seq<Row>, i: nat): seq<real>
    requires i <= |rows|
  {
    seq(i, k requires 0 <= k < i => if rows[k].volume.Some? && rows[k].volume.value > 0.0 then rows[k].volume.value else 0.0)
  }

  function Worths(rows: seq<Row>, i: nat): seq<real>
    requires i <= |rows|
  {
    seq(i, k requires 0 <= k < i =>
      if rows[k].volume.Some? && rows[k].volume.value > 0.0
      then (rows[k].high + rows[k].low + rows[k].close) / 3.0 * rows[k].volume.value else 0.0)
  }

  lemma {:induction false} SumsUpTo(rows: seq<Row>, i: nat)
    requires i <= |rows|
    ensures Volume(rows[..i]) == Sum(Volumes(rows, i)) && Turnover(rows[..i]) == Sum(Worths(rows, i))
  {
    if i > 0 {
      SumsUpTo(rows, i - 1);
      assert rows[..i][..i - 1] == rows[..i - 1];
      assert Volumes(rows, i)[..i - 1] == Volumes(rows, i - 1) && Worths(rows, i)[..i - 1] == Worths(rows, i - 1);
    }
  }

  // The mean of the typical prices so far, each weighted with its volume.
  lemma {:induction false} VwapIsWeighted(rows: seq<Row>, i: int)
    requires 0 <= i < |rows|
    ensures VwapAt(rows, i).Some? <==> rows[i].volume.Some? && rows[i].volume.value > 0.0
    ensures VwapAt(rows, i).Some? ==> Sum(Volumes(rows, i + 1)) > 0.0
                                      && VwapAt(rows, i).value == Sum(Worths(rows, i + 1)) / Sum(Volumes(rows, i + 1))
  {
    SumsUpTo(rows, i + 1);
    VolumePositive(rows[..i + 1]);
  }
}
