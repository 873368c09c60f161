/**
 One-dimensional piecewise-linear interpolation as the noise blocks build it
 with scipy's `interp1d(x, y, kind='linear', fill_value=nan,
 bounds_error=False, assume_sorted=True)`: exact arithmetic over `real`, and
 `None` for the NaN returned outside the sampled range.
 */
module Interp {
  import opened Wrappers

  /** Sample coordinates strictly increase (what `assume_sorted=True` takes for granted). */
  predicate Increasing(xs: seq<int>) {
    forall i, j :: 0 <= i < j < |xs| ==> xs[i] < xs[j]
  }

  /** The straight line through (x0, y0) and (x1, y1), evaluated at q. */
  function Lerp(x0: int, y0: real, x1: int, y1: real, q: int): real
    requires x0 < x1
  {
    y0 + (y1 - y0) * ((q - x0) as real / (x1 - x0) as real)
  }

  /** Walks the segments left to right and interpolates on the first one that reaches q. */
  function Walk(xs: seq<int>, ys: seq<real>, q: int): real
    requires |xs| == |ys| > 0
    decreases |xs|
  {
    if |xs| == 1 || q <= xs[0] then ys[0]
    else if q <= xs[1] then Lerp(xs[0], ys[0], xs[1], ys[1], q)
    else Walk(xs[1..], ys[1..], q)
  }

  /**
   The interpolant of the samples (xs, ys) at q: NaN (`None`) strictly below
   the first or strictly above the last sample coordinate, a value otherwise.
   */
  function Linear(xs: seq<int>, ys: seq<real>, q: int): (r: Option<real>)
    requires |xs| == |ys| > 0
    ensures r.Some? <==> xs[0] <= q <= xs[|xs| - 1]
  {
    if q < xs[0] || xs[|xs| - 1] < q then None else Some(Walk(xs, ys, q))
  }

  lemma LerpEnds(x0: int, y0: real, x1: int, y1: real)
    requires x0 < x1
    ensures Lerp(x0, y0, x1, y1, x0) == y0
    ensures Lerp(x0, y0, x1, y1, x1) == y1
  {
  }

  /** A value interpolated inside a segment never leaves the range of its two end values. */
  lemma LerpBetween(x0: int, y0: real, x1: int, y1: real, q: int)
    requires x0 <= q <= x1 && x0 < x1
    ensures y0 <= y1 ==> y0 <= Lerp(x0, y0, x1, y1, q) <= y1
    ensures y1 <= y0 ==> y1 <= Lerp(x0, y0, x1, y1, q) <= y0
  {
    var d := (x1 - x0) as real;
    var t := (q - x0) as real / d;
    FractionAtMostOne((q - x0) as real, d);
    ScaleBetween(y1 - y0, t);
  }

  lemma FractionAtMostOne(n: real, d: real)
    requires 0.0 <= n <= d && 0.0 < d
    ensures 0.0 <= n / d <= 1.0
  {
    var t := n / d;
    assert t * d == n;
  }

  /** For 0 <= t <= 1, u * t lies between 0 and u. */
  lemma ScaleBetween(u: real, t: real)
    requires 0.0 <= t <= 1.0
    ensures 0.0 <= u ==> 0.0 <= u * t <= u
    ensures u <= 0.0 ==> u <= u * t <= 0.0
  {
    assert u - u * t == u * (1.0 - t);
  }

  lemma {:induction false} WalkAtSample(xs: seq<int>, ys: seq<real>, k: int)
    requires |xs| == |ys| > 0 && Increasing(xs) && 0 <= k < |xs|
    ensures Walk(xs, ys, xs[k]) == ys[k]
    decreases k
  {
    if k == 0 {
    } else if k == 1 {
      LerpEnds(xs[0], ys[0], xs[1], ys[1]);
    } else {
      assert xs[1] < xs[k];
      WalkAtSample(xs[1..], ys[1..], k - 1);
    }
  }

  /** Round trip: interpolating at a sample coordinate gives back that sample's value. */
  lemma LinearAtSample(xs: seq<int>, ys: seq<real>, k: int)
    requires |xs| == |ys| > 0 && Increasing(xs) && 0 <= k < |xs|
    ensures Linear(xs, ys, xs[k]) == Some(ys[k])
  {
    WalkAtSample(xs, ys, k);
  }

  /**
   Reference definition: between two consecutive samples the interpolant is
   the straight line through them.
   */
  lemma {:induction false} LinearOnSegment(xs: seq<int>, ys: seq<real>, k: int, q: int)
    requires |xs| == |ys| > 0 && Increasing(xs)
    requires 0 <= k < |xs| - 1 && xs[k] <= q <= xs[k + 1]
    ensures Linear(xs, ys, q) == Some(Lerp(xs[k], ys[k], xs[k + 1], ys[k + 1], q))
    decreases k
  {
    LerpEnds(xs[k], ys[k], xs[k + 1], ys[k + 1]);
    if k == 0 {
    } else if q == xs[1] {
      LerpEnds(xs[0], ys[0], xs[1], ys[1]);
    } else {
      assert xs[1] < q;
      LinearOnSegment(xs[1..], ys[1..], k - 1, q);
    }
  }
}
