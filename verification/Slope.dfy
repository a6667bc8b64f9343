// sdk/ta/indicators.py, slope: the trend of the last values of a series, over exact reals.

module Slope {
  import opened Basics
  import opened RealSums
  import opened Ema

  // [float(v) for v in series if v is not None]
  function Present(series: seq<Option<real>>): seq<real> {
    if series == [] then [] else
    Present(series[..|series| - 1])
      + (match series[|series| - 1]
         case Some(v) => [v]
         case None => [])
  }

  // The mean of 0, 1, ..., n - 1.
  function MeanX(n: nat): real {
    (n as real - 1.0) / 2.0
  }

  function MeanY(ys: seq<real>): real
    requires ys != []
  {
    Mean(Sum(ys), |ys|)
  }

  // The sum over the first k points of (x - mx) * (y - my).
  function Cross(ys: seq<real>, mx: real, my: real, k: nat): real
    requires k <= |ys|
  {
    if k == 0 then 0.0 else Cross(ys, mx, my, k - 1) + ((k - 1) as real - mx) * (ys[k - 1] - my)
  }

  function Square(x: real): real {
    x * x
  }

  // The sum over the first k points of (x - mx) squared.
  function Spread(mx: real, k: nat): real {
    if k == 0 then 0.0 else Spread(mx, k - 1) + Square((k - 1) as real - mx)
  }

  function Numerator(ys: seq<real>): real
    requires ys != []
  {
    Cross(ys, MeanX(|ys|), MeanY(ys), |ys|)
  }

  function Denominator(n: nat): real {
    Spread(MeanX(n), n)
  }

  function Times(x: real, y: real): real {
    x * y
  }

  lemma TimesSameSign(x: real, y: real)
    requires (x < 0.0 && y < 0.0) || (x > 0.0 && y > 0.0)
    ensures Times(x, y) > 0.0
  {
  }

  lemma TimesZero(x: real, y: real)
    requires x == 0.0
    ensures Times(x, y) == 0.0
  {
  }

  lemma SquareIsTimes(x: real)
    ensures Square(x) == Times(x, x)
  {
  }

  lemma SquarePositive(x: real)
    ensures Square(x) >= 0.0 && (Square(x) == 0.0 <==> x == 0.0)
  {
    hide *;
    SquareIsTimes(x);
    if x == 0.0 {
      TimesZero(x, x);
    } else {
      TimesSameSign(x, x);
    }
  }

  lemma {:induction false} SpreadPositive(mx: real, k: nat)
    ensures Spread(mx, k) >= 0.0
    ensures k > 0 && mx != 0.0 ==> Spread(mx, k) > 0.0
  {
    hide Square;
    if k > 0 {
      SpreadPositive(mx, k - 1);
      SquarePositive((k - 1) as real - mx);
    }
  }

  // The check for a zero denominator never fires.
  lemma DenominatorPositive(n: nat)
    requires n >= 2
    ensures Denominator(n) > 0.0
  {
    SpreadPositive(MeanX(n), n);
  }

  function LastOf(ys: seq<real>, window: nat): seq<real>
    requires window <= |ys|
  {
    ys[|ys| - window..]
  }

  function SlopeOf(ys: seq<real>): real
    requires |ys| >= 2
  {
    DenominatorPositive(|ys|);
    Numerator(ys) / Denominator(|ys|)
  }

  function Intercept(ys: seq<real>): real
    requires |ys| >= 2
  {
    MeanY(ys) - SlopeOf(ys) * MeanX(|ys|)
  }

  method Drop(series: seq<Option<real>>) returns (values: seq<real>)
    ensures values == Present(series)
  {
    values := [];
    for i := 0 to |series|
      invariant values == Present(series[..i])
    {
      assert series[..i + 1][..i] == series[..i];
      if series[i].Some? {
        values := values + [series[i].value];
      }
    }
    assert series[..|series|] == series;
  }

  lemma {:induction false} PresentAppend(a: seq<Option<real>>, b: seq<Option<real>>)
    ensures Present(a + b) == Present(a) + Present(b)
  {
    if b == [] {
      assert a + b == a;
    } else {
      var n := |b| - 1;
      PresentAppend(a, b[..n]);
      assert (a + b)[..|a| + n] == a + b[..n];
    }
  }

  // A missing value does not count, whatever stands around it; another is kept in its place.
  lemma PresentExact(a: seq<Option<real>>, x: Option<real>, b: seq<Option<real>>)
    ensures Present(a + [x] + b) == Present(a) + (if x.Some? then [x.value] else []) + Present(b)
    ensures Present([]) == []
  {
    PresentAppend(a + [x], b);
    PresentAppend(a, [x]);
    assert [x][..0] == [] && Present([x]) == if x.Some? then [x.value] else [];
  }

  // Of the values that are there only the last ones count, whatever stands before them.
  lemma OnlyLastCount(before: seq<Option<real>>, series: seq<Option<real>>)
    ensures |Present(before + series)| >= |Present(series)|
    ensures LastOf(Present(before + series), |Present(series)|) == Present(series)
  {
    PresentAppend(before, series);
    hide Present;
    var all, late := Present(before + series), Present(series);
    assert all == Present(before) + late;
    assert all[|all| - |late|..] == late;
  }

  // slope; Err is the ValueError
  method Trend(series: seq<Option<real>>, window: int) returns (r: Result<real>)
    ensures r.Ok? <==> window >= 2 && |Present(series)| >= window
    ensures r.Ok? ==> r.value == SlopeOf(LastOf(Present(series), window))
  {
    if window < 2 {
      return Err;
    }
    var values := Drop(series);
    if |values| < window {
      return Err;
    }
    var ys := values[|values| - window..];
    var xMean := MeanX(window);
    var total := SumOf(ys);
    var yMean := Mean(total, window);
    var numerator, denominator := 0.0, 0.0;
    for i := 0 to |ys|
      invariant numerator == Cross(ys, xMean, yMean, i) && denominator == Spread(xMean, i)
    {
      numerator := numerator + (i as real - xMean) * (ys[i] - yMean);
      denominator := denominator + Square(i as real - xMean);
    }
    DenominatorPositive(window);
    if denominator == 0.0 {
      return Err;
    }
    return Ok(numerator / denominator);
  }

  // ----- least squares -----

  // How far a point is above the line a * x + b.
  function Residual(x: int, y: real, a: real, b: real): real {
    y - (a * x as real + b)
  }

  // The squared residuals of the first k points about the line a * x + b.
  function Residuals(ys: seq<real>, a: real, b: real, k: nat): real
    requires k <= |ys|
  {
    if k == 0 then 0.0 else
    var e := Residual(k - 1, ys[k - 1], a, b);
    Residuals(ys, a, b, k - 1) + Square(e)
  }

  function Error(ys: seq<real>, a: real, b: real): real {
    Residuals(ys, a, b, |ys|)
  }

  // Sums of the deviations themselves.
  function DevX(mx: real, k: nat): real {
    if k == 0 then 0.0 else DevX(mx, k - 1) + ((k - 1) as real - mx)
  }

  function DevY(ys: seq<real>, my: real, k: nat): real
    requires k <= |ys|
  {
    if k == 0 then 0.0 else DevY(ys, my, k - 1) + (ys[k - 1] - my)
  }

  function SpreadY(ys: seq<real>, my: real, k: nat): real
    requires k <= |ys|
  {
    if k == 0 then 0.0 else SpreadY(ys, my, k - 1) + Square(ys[k - 1] - my)
  }

  lemma {:induction false} DevXClosed(mx: real, k: nat)
    ensures DevX(mx, k) == k as real * ((k as real - 1.0) / 2.0 - mx)
  {
    if k > 0 {
      DevXClosed(mx, k - 1);
      var n := k as real;
      assert (k - 1) as real == n - 1.0;
      assert (n - 1.0) * ((n - 2.0) / 2.0 - mx) + (n - 1.0 - mx) == n * ((n - 1.0) / 2.0 - mx);
    }
  }

  lemma {:induction false} DevYClosed(ys: seq<real>, my: real, k: nat)
    requires k <= |ys|
    ensures DevY(ys, my, k) == Sum(ys[..k]) - k as real * my
  {
    if k > 0 {
      DevYClosed(ys, my, k - 1);
      assert ys[..k][..k - 1] == ys[..k - 1];
      assert k as real * my == (k - 1) as real * my + my;
    }
  }

  // About the means the deviations cancel.
  lemma {:induction false} DeviationsCancel(ys: seq<real>)
    requires ys != []
    ensures DevX(MeanX(|ys|), |ys|) == 0.0 && DevY(ys, MeanY(ys), |ys|) == 0.0
  {
    DevXClosed(MeanX(|ys|), |ys|);
    DevYClosed(ys, MeanY(ys), |ys|);
    assert ys[..|ys|] == ys;
    assert MeanY(ys) * |ys| as real == Sum(ys);
  }

  // The error of a line from the sums of the deviations: a is its slope, c its height above the
  // point of the means.
  function Expanded(a: real, c: real, n: real, syy: real, sxy: real, sxx: real, sy: real, sx: real): real {
    syy - 2.0 * a * sxy + a * a * sxx + n * (c * c) - 2.0 * c * sy + 2.0 * a * c * sx
  }

  // One residual, about the means.
  lemma ResidualSquare(dx: real, dy: real, a: real, c: real)
    ensures Square(dy - a * dx - c) == Expanded(a, c, 1.0, Square(dy), dx * dy, Square(dx), dy, dx)
  {
    var u := a * dx;
    assert (dy - u - c) * (dy - u - c) == dy * dy + u * u + c * c - 2.0 * (u * dy) - 2.0 * (c * dy) + 2.0 * (u * c);
    assert u * u == a * a * (dx * dx);
    assert u * dy == a * (dx * dy);
    assert u * c == a * c * dx;
  }

  lemma ExpandedAdds(a: real, c: real, n: real, syy: real, sxy: real, sxx: real, sy: real, sx: real,
                     m: real, tyy: real, txy: real, txx: real, ty: real, tx: real)
    ensures Expanded(a, c, n, syy, sxy, sxx, sy, sx) + Expanded(a, c, m, tyy, txy, txx, ty, tx)
            == Expanded(a, c, n + m, syy + tyy, sxy + txy, sxx + txx, sy + ty, sx + tx)
  {
    assert 2.0 * a * (sxy + txy) == 2.0 * a * sxy + 2.0 * a * txy;
    assert a * a * (sxx + txx) == a * a * sxx + a * a * txx;
    assert (n + m) * (c * c) == n * (c * c) + m * (c * c);
    assert 2.0 * c * (sy + ty) == 2.0 * c * sy + 2.0 * c * ty;
    assert 2.0 * a * c * (sx + tx) == 2.0 * a * c * sx + 2.0 * a * c * tx;
  }

  lemma ShiftedResidual(x: int, y: real, a: real, b: real, mx: real, my: real, c: real, dx: real, dy: real)
    requires c == b + a * mx - my && dx == x as real - mx && dy == y - my
    ensures Residual(x, y, a, b) == dy - a * dx - c
  {
    assert a * (x as real - mx) == a * x as real - a * mx;
  }

  // One more point.
  lemma Unroll(ys: seq<real>, a: real, b: real, mx: real, my: real, k: nat, dx: real, dy: real)
    requires 0 < k <= |ys| && dx == (k - 1) as real - mx && dy == ys[k - 1] - my
    ensures && Residuals(ys, a, b, k) == Residuals(ys, a, b, k - 1) + Square(Residual(k - 1, ys[k - 1], a, b))
            && SpreadY(ys, my, k) == SpreadY(ys, my, k - 1) + Square(dy)
            && Cross(ys, mx, my, k) == Cross(ys, mx, my, k - 1) + dx * dy
            && Spread(mx, k) == Spread(mx, k - 1) + Square(dx)
            && DevY(ys, my, k) == DevY(ys, my, k - 1) + dy
            && DevX(mx, k) == DevX(mx, k - 1) + dx
            && k as real == (k - 1) as real + 1.0
  {
    hide Square, Residual;
  }

  lemma ExpandNothing(ys: seq<real>, a: real, b: real, mx: real, my: real, c: real)
    ensures Residuals(ys, a, b, 0)
            == Expanded(a, c, 0 as real, SpreadY(ys, my, 0), Cross(ys, mx, my, 0), Spread(mx, 0), DevY(ys, my, 0), DevX(mx, 0))
  {
  }

  lemma {:induction false} ResidualsExpand(ys: seq<real>, a: real, b: real, mx: real, my: real, c: real, k: nat)
    requires k <= |ys| && c == b + a * mx - my
    ensures Residuals(ys, a, b, k)
            == Expanded(a, c, k as real, SpreadY(ys, my, k), Cross(ys, mx, my, k), Spread(mx, k), DevY(ys, my, k), DevX(mx, k))
  {
    hide *;
    if k == 0 {
      ExpandNothing(ys, a, b, mx, my, c);
    } else {
      var dx, dy := (k - 1) as real - mx, ys[k - 1] - my;
      ResidualsExpand(ys, a, b, mx, my, c, k - 1);
      Unroll(ys, a, b, mx, my, k, dx, dy);
      ShiftedResidual(k - 1, ys[k - 1], a, b, mx, my, c, dx, dy);
      ResidualSquare(dx, dy, a, c);
      ExpandedAdds(a, c, (k - 1) as real, SpreadY(ys, my, k - 1), Cross(ys, mx, my, k - 1), Spread(mx, k - 1),
                   DevY(ys, my, k - 1), DevX(mx, k - 1),
                   1.0, Square(dy), dx * dy, Square(dx), dy, dx);
    }
  }

  // The error of a line, by its slope and its height above the point of the means.
  function AboutMeans(a: real, c: real, n: real, syy: real, num: real, den: real): real {
    Expanded(a, c, n, syy, num, den, 0.0, 0.0)
  }

  function Height(ys: seq<real>, a: real, b: real): real
    requires ys != []
  {
    b + a * MeanX(|ys|) - MeanY(ys)
  }

  lemma {:induction false} ErrorByMeans(ys: seq<real>, a: real, b: real)
    requires ys != []
    ensures Error(ys, a, b)
            == AboutMeans(a, Height(ys, a, b), |ys| as real, SpreadY(ys, MeanY(ys), |ys|), Numerator(ys), Denominator(|ys|))
  {
    hide Expanded, Residuals, Cross, Spread, SpreadY, DevX, DevY, MeanX, MeanY;
    ResidualsExpand(ys, a, b, MeanX(|ys|), MeanY(ys), Height(ys, a, b), |ys|);
    DeviationsCancel(ys);
  }

  // Completing the square at the vertex num / den.
  lemma Complete(a: real, s: real, num: real, den: real)
    requires s * den == num
    ensures a * a * den - 2.0 * a * num - (s * s * den - 2.0 * s * num) == Square(a - s) * den
  {
    assert 2.0 * a * num == 2.0 * a * s * den && 2.0 * s * num == 2.0 * s * s * den;
    assert (a - s) * (a - s) == a * a - 2.0 * a * s + s * s;
    assert (a * a - 2.0 * a * s + s * s) * den == a * a * den - 2.0 * a * s * den + s * s * den;
  }

  lemma SlopeTimesDenominator(ys: seq<real>)
    requires |ys| >= 2
    ensures SlopeOf(ys) * Denominator(|ys|) == Numerator(ys)
  {
    DenominatorPositive(|ys|);
  }

  // How much worse a line is than the one at the vertex.
  lemma AboveVertex(a: real, c: real, s: real, n: real, syy: real, num: real, den: real)
    requires s * den == num
    ensures AboutMeans(a, c, n, syy, num, den) - AboutMeans(s, 0.0, n, syy, num, den) == Square(a - s) * den + n * Square(c)
  {
    Complete(a, s, num, den);
    assert n * (0.0 * 0.0) == 0.0;
  }

  lemma {:induction false} BestHeight(ys: seq<real>)
    requires |ys| >= 2
    ensures Height(ys, SlopeOf(ys), Intercept(ys)) == 0.0
  {
  }

  lemma {:induction false} ErrorAboveBest(ys: seq<real>, a: real, b: real)
    requires |ys| >= 2
    ensures Error(ys, a, b) - Error(ys, SlopeOf(ys), Intercept(ys))
            == Square(a - SlopeOf(ys)) * Denominator(|ys|) + |ys| as real * Square(Height(ys, a, b))
  {
    hide *;
    ErrorByMeans(ys, a, b);
    ErrorByMeans(ys, SlopeOf(ys), Intercept(ys));
    BestHeight(ys);
    SlopeTimesDenominator(ys);
    AboveVertex(a, Height(ys, a, b), SlopeOf(ys), |ys| as real, SpreadY(ys, MeanY(ys), |ys|), Numerator(ys), Denominator(|ys|));
  }

  lemma Positive(x: real, y: real)
    requires x >= 0.0 && y > 0.0
    ensures x * y >= 0.0 && (x * y == 0.0 <==> x == 0.0)
  {
  }

  lemma SumOfSquares(d: real, den: real, n: real, c: real)
    requires den > 0.0 && n > 0.0
    ensures Square(d) * den + n * Square(c) >= 0.0
    ensures Square(d) * den + n * Square(c) == 0.0 <==> d == 0.0 && c == 0.0
  {
    hide *;
    SquarePositive(d);
    SquarePositive(c);
    Positive(Square(d), den);
    Positive(Square(c), n);
  }

  lemma {:induction false} SameLine(ys: seq<real>, a: real, b: real)
    requires |ys| >= 2
    ensures a - SlopeOf(ys) == 0.0 && Height(ys, a, b) == 0.0 <==> a == SlopeOf(ys) && b == Intercept(ys)
  {
    BestHeight(ys);
  }

  // The slope is the least-squares slope: no line has a smaller error over the window than the one
  // with this slope through the means, and no other line has the same.
  lemma {:induction false} LeastSquares(ys: seq<real>, a: real, b: real)
    requires |ys| >= 2
    ensures Error(ys, SlopeOf(ys), Intercept(ys)) <= Error(ys, a, b)
    ensures Error(ys, a, b) == Error(ys, SlopeOf(ys), Intercept(ys)) <==> a == SlopeOf(ys) && b == Intercept(ys)
  {
    hide *;
    ErrorAboveBest(ys, a, b);
    DenominatorPositive(|ys|);
    SumOfSquares(a - SlopeOf(ys), Denominator(|ys|), |ys| as real, Height(ys, a, b));
    SameLine(ys, a, b);
  }

  lemma {:induction false} ResidualsNotNegative(ys: seq<real>, a: real, b: real, k: nat)
    requires k <= |ys|
    ensures Residuals(ys, a, b, k) >= 0.0
    ensures (forall i | 0 <= i < k :: Residual(i, ys[i], a, b) == 0.0) ==> Residuals(ys, a, b, k) == 0.0
  {
    if k > 0 {
      ResidualsNotNegative(ys, a, b, k - 1);
      hide Square, Residual;
      SquarePositive(Residual(k - 1, ys[k - 1], a, b));
    }
  }

  // Data on a line gives back the line exactly.
  lemma {:induction false} ExactOnLines(ys: seq<real>, p: real, q: real)
    requires |ys| >= 2 && forall i | 0 <= i < |ys| :: ys[i] == p * i as real + q
    ensures SlopeOf(ys) == p && Intercept(ys) == q
  {
    forall i | 0 <= i < |ys| ensures Residual(i, ys[i], p, q) == 0.0 {}
    ResidualsNotNegative(ys, p, q, |ys|);
    ResidualsNotNegative(ys, SlopeOf(ys), Intercept(ys), |ys|);
    LeastSquares(ys, p, q);
  }
}
