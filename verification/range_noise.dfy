/**
 `noise_lut_range`: one block per range noise vector. Vector i was sampled at
 line a[i] and holds pixel coordinates xs[i] with noise values ls[i]; its
 block applies to the lines between the midpoints towards its neighbours and
 to the pixels between its first and last sample.
 */
module RangeNoise {
  import opened Wrappers
  import opened Geometry
  import opened Interp
  import opened Blocks
  import opened NoiseLut

  datatype BuildError =
    | NoLines          // the line sequence is empty (its last element is read)
    | NoVectors        // nothing to zip: an empty table cannot be assembled
    | MalformedVector  // a vector without pixels, or with pixels and values of different lengths

  /** First line of vector i's interval: `int((a[i-1] + a[i]) / 2)`, with a[-1] = 0. */
  function Start(a: seq<int>, i: nat): (r: int)
    requires i < |a|
    ensures var m := (if i == 0 then 0 else a[i - 1]) + a[i];
            (0 <= m ==> 2 * r <= m <= 2 * r + 1) && (m < 0 ==> 2 * r - 1 <= m <= 2 * r)
  {
    TruncHalf((if i == 0 then 0 else a[i - 1]) + a[i])
  }

  /**
   End of vector i's interval: `ceil((a[i] + a[i+1]) / 2)`, with a[last+1] = a[last] + 1.
   Declared excluded, yet the query's selection includes it.
   */
  function Stop(a: seq<int>, i: nat): (r: int)
    requires i < |a|
    ensures var m := a[i] + (if i == |a| - 1 then a[i] + 1 else a[i + 1]);
            2 * r - 1 <= m <= 2 * r
  {
    CeilHalf(a[i] + (if i == |a| - 1 then a[i] + 1 else a[i + 1]))
  }

  /** Sample lines as the metadata lists them: non-negative and strictly increasing. */
  predicate SampleLines(a: seq<int>) {
    |a| > 0 && 0 <= a[0] && Increasing(a)
  }

  /** Every sample line lies in its own interval: start_i <= a_i < stop_i. */
  lemma SampleInsideInterval(a: seq<int>, i: nat)
    requires SampleLines(a) && i < |a|
    ensures Start(a, i) <= a[i] < Stop(a, i)
  {
    if 0 < i {
      assert a[i - 1] < a[i];
    }
    if i < |a| - 1 {
      assert a[i] < a[i + 1];
    }
  }

  /**
   Consecutive intervals leave no gap; they share one line exactly when
   a_i + a_{i+1} is odd (`stop_i - start_{i+1}` is 0 or 1).
   */
  lemma ConsecutiveIntervals(a: seq<int>, i: nat)
    requires SampleLines(a) && i + 1 < |a|
    ensures Stop(a, i) - Start(a, i + 1) == (a[i] + a[i + 1]) % 2
  {
    assert a[0] <= a[i];
  }

  lemma StartsMonotone(a: seq<int>, i: nat, j: nat)
    requires SampleLines(a) && i <= j < |a|
    ensures Start(a, i) <= Start(a, j)
  {
    if i < j {
      assert a[0] <= a[j - 1];
      if 0 < i {
        assert a[i - 1] <= a[j - 1];
      }
      assert a[i] <= a[j];
      TruncHalfMonotone((if i == 0 then 0 else a[i - 1]) + a[i], (if j == 0 then 0 else a[j - 1]) + a[j]);
    }
  }

  lemma StopsMonotone(a: seq<int>, i: nat, j: nat)
    requires SampleLines(a) && i <= j < |a|
    ensures Stop(a, i) <= Stop(a, j)
  {
    if i < j {
      assert a[i] < a[j];
      if j < |a| - 1 {
        assert a[i + 1] <= a[j + 1];
      }
    }
  }

  lemma {:induction false} CoverUpTo(a: seq<int>, n: nat, y: int)
    requires SampleLines(a) && 0 < n <= |a|
    requires Start(a, 0) <= y < Stop(a, n - 1)
    ensures exists i :: 0 <= i < n && Start(a, i) <= y < Stop(a, i)
    decreases n
  {
    if Start(a, n - 1) <= y {
      assert Start(a, n - 1) <= y < Stop(a, n - 1);
    } else {
      ConsecutiveIntervals(a, n - 2);
      CoverUpTo(a, n - 1, y);
    }
  }

  /**
   The intervals tile the lines from the first start to the last stop: a line
   lies in that range exactly when some vector's interval holds it.
   */
  lemma Coverage(a: seq<int>, y: int)
    requires SampleLines(a)
    ensures (Start(a, 0) <= y < Stop(a, |a| - 1)) <==>
            exists i :: 0 <= i < |a| && Start(a, i) <= y < Stop(a, i)
  {
    if Start(a, 0) <= y < Stop(a, |a| - 1) {
      CoverUpTo(a, |a|, y);
    }
    if exists i :: 0 <= i < |a| && Start(a, i) <= y < Stop(a, i) {
      var i :| 0 <= i < |a| && Start(a, i) <= y < Stop(a, i);
      StartsMonotone(a, 0, i);
      StopsMonotone(a, i, |a| - 1);
    }
  }

  /** `zip` stops at the shortest of its inputs. */
  function VectorCount(a: seq<int>, xs: seq<seq<int>>, ls: seq<seq<real>>): (n: nat)
    ensures n <= |a| && n <= |xs| && n <= |ls|
    ensures n == |a| || n == |xs| || n == |ls|
  {
    Min(|a|, Min(|xs|, |ls|))
  }

  /** A vector from which `Lut_box_range` can be built (`x[0]` exists, `interp1d` accepts the pair). */
  predicate GoodVector(x: seq<int>, l: seq<real>) {
    |x| > 0 && |x| == |l|
  }

  /** `box(a_start, x[0], a_stop, x[-1])`, doubled. */
  function RangeArea(start: int, stop: int, x: seq<int>): (r: Rect)
    requires |x| > 0
    ensures WellFormed(r)
    ensures start <= stop && x[0] <= x[|x| - 1] ==>
              forall l, p :: Covers(r, l, p) <==> 2 * start <= l <= 2 * stop && 2 * x[0] <= p <= 2 * x[|x| - 1]
  {
    Box(2 * start, 2 * x[0], 2 * stop, 2 * x[|x| - 1])
  }

  /**
   `noise_lut_range(atracks, xtracks, noiseLuts)`: the block table, one block
   per zipped vector in vector order, or the error `noise_lut_range` raises.
   */
  function BuildRange(a: seq<int>, xs: seq<seq<int>>, ls: seq<seq<real>>): (r: Result<seq<Block>, BuildError>)
    ensures r.Ok? <==>
              |a| > 0 && VectorCount(a, xs, ls) > 0 &&
              forall i :: 0 <= i < VectorCount(a, xs, ls) ==> GoodVector(xs[i], ls[i])
    ensures |a| == 0 ==> r == Err(NoLines)
    ensures r.Ok? ==> |r.value| == VectorCount(a, xs, ls)
    ensures r.Ok? ==>
              forall i :: 0 <= i < |r.value| ==>
                && Valid(r.value[i]) && r.value[i].RangeBlock?
                && r.value[i].pixels == xs[i] && r.value[i].values == ls[i]
                && r.value[i].area == RangeArea(Start(a, i), Stop(a, i), xs[i])
  {
    var n := VectorCount(a, xs, ls);
    if |a| == 0 then Err(NoLines)
    else if exists i :: 0 <= i < n && !GoodVector(xs[i], ls[i]) then Err(MalformedVector)
    else if n == 0 then Err(NoVectors)
    else
      Ok(seq(n, i requires 0 <= i < n =>
             RangeBlock(RangeArea(Start(a, i), Stop(a, i), xs[i]), xs[i], ls[i])))
  }

  /**
   Inside a query window, range block i writes exactly the lines from start_i
   to stop_i (both included) and the pixels from its first to its last sample.
   */
  lemma RangeFootprint(a: seq<int>, xs: seq<seq<int>>, ls: seq<seq<real>>, bs: seq<Block>, i: nat,
                       lines: seq<int>, pixels: seq<int>, p: nat, q: nat)
    requires BuildRange(a, xs, ls) == Ok(bs) && SampleLines(a)
    requires i < |bs| && Increasing(xs[i]) && 0 <= xs[i][0]
    requires Window(lines) && Window(pixels) && p < |lines| && q < |pixels|
    ensures Writes(bs[i], AskedBox(lines, pixels), lines[p], pixels[q]) <==>
              Start(a, i) <= lines[p] <= Stop(a, i) && xs[i][0] <= pixels[q] <= xs[i][|xs[i]| - 1]
  {
    SampleInsideInterval(a, i);
    StartsMonotone(a, 0, i);
    assert 0 <= Start(a, 0);
    var x := xs[i];
    assert x[0] <= x[|x| - 1];
    assert bs[i].area == Rect(2 * Start(a, i), 2 * x[0], 2 * Stop(a, i), 2 * x[|x| - 1]);
    WritesInWindow(bs[i], lines, pixels, p, q);
  }

  /** A range block's value at (line, pixel): its vector interpolated at the pixel, whatever the line. */
  lemma RangeBlockValue(a: seq<int>, xs: seq<seq<int>>, ls: seq<seq<real>>, bs: seq<Block>, i: nat,
                        line: int, k: nat)
    requires BuildRange(a, xs, ls) == Ok(bs) && i < |bs| && Increasing(xs[i]) && k < |xs[i]|
    ensures PointValue(bs[i], line, xs[i][k]) == Some(ls[i][k])
  {
    LinearAtSample(xs[i], ls[i], k);
  }

  /**
   Round trip through the query: at a sample line a_i and a sample pixel of
   vector i, the query returns that vector's sample value, provided the next
   vector's line is at least two lines further (otherwise see
   `QueryAtSharedLine`).
   */
  lemma QueryAtSample(a: seq<int>, xs: seq<seq<int>>, ls: seq<seq<real>>, bs: seq<Block>, i: nat, k: nat,
                      lines: seq<int>, pixels: seq<int>, p: nat, q: nat)
    requires BuildRange(a, xs, ls) == Ok(bs) && SampleLines(a)
    requires forall v :: 0 <= v < |bs| ==> Increasing(xs[v]) && 0 <= xs[v][0]
    requires i < |bs| && k < |xs[i]|
    requires i + 1 == |bs| || a[i] + 2 <= a[i + 1]
    requires Window(lines) && Window(pixels) && p < |lines| && q < |pixels|
    requires lines[p] == a[i] && pixels[q] == xs[i][k]
    ensures Query(bs, lines, pixels).Ok? && Query(bs, lines, pixels).value.Grid?
    ensures Query(bs, lines, pixels).value.cells[p][q] == Some(ls[i][k])
  {
    var asked := AskedBox(lines, pixels);
    var x := xs[i];
    assert x[0] <= x[k] <= x[|x| - 1];
    SampleInsideInterval(a, i);
    RangeFootprint(a, xs, ls, bs, i, lines, pixels, p, q);
    if i + 1 < |bs| {
      LaterBlocksMiss(a, xs, ls, bs, i, lines, pixels, p, q);
    }
    RangeQueryGrid(a, xs, ls, bs, lines, pixels);
    OverlayLastWriter(bs, asked, lines[p], pixels[q], None, i);
    RangeBlockValue(a, xs, ls, bs, i, a[i], k);
  }

  /** A range table answers every window with a grid. */
  lemma RangeQueryGrid(a: seq<int>, xs: seq<seq<int>>, ls: seq<seq<real>>, bs: seq<Block>,
                       lines: seq<int>, pixels: seq<int>)
    requires BuildRange(a, xs, ls) == Ok(bs) && |lines| > 0 && |pixels| > 0
    ensures Query(bs, lines, pixels).Ok? && Query(bs, lines, pixels).value.Grid?
  {
    assert forall v :: 0 <= v < |bs| ==> bs[v].RangeBlock?;
  }

  /** Blocks after i do not write a line that lies before the start of interval i+1. */
  lemma LaterBlocksMiss(a: seq<int>, xs: seq<seq<int>>, ls: seq<seq<real>>, bs: seq<Block>, i: nat,
                        lines: seq<int>, pixels: seq<int>, p: nat, q: nat)
    requires BuildRange(a, xs, ls) == Ok(bs) && SampleLines(a)
    requires forall v :: 0 <= v < |bs| ==> Increasing(xs[v]) && 0 <= xs[v][0]
    requires i + 1 < |bs|
    requires Window(lines) && Window(pixels) && p < |lines| && q < |pixels|
    requires lines[p] < Start(a, i + 1)
    ensures forall v :: i < v < |bs| ==> !Writes(bs[v], AskedBox(lines, pixels), lines[p], pixels[q])
  {
    forall v | i < v < |bs|
      ensures !Writes(bs[v], AskedBox(lines, pixels), lines[p], pixels[q])
    {
      StartsMonotone(a, i + 1, v);
      RangeFootprint(a, xs, ls, bs, v, lines, pixels, p, q);
    }
  }

  /**
   When two vectors sit on consecutive lines (a_{i+1} = a_i + 1), their
   intervals share the line a_i and the later vector wins it: the query at
   the sample line a_i answers vector i+1's interpolated values.
   */
  lemma QueryAtSharedLine(a: seq<int>, xs: seq<seq<int>>, ls: seq<seq<real>>, bs: seq<Block>, i: nat,
                          lines: seq<int>, pixels: seq<int>, p: nat, q: nat)
    requires BuildRange(a, xs, ls) == Ok(bs) && SampleLines(a)
    requires forall v :: 0 <= v < |bs| ==> Increasing(xs[v]) && 0 <= xs[v][0]
    requires i + 1 < |bs| && a[i + 1] == a[i] + 1
    requires Window(lines) && Window(pixels) && p < |lines| && q < |pixels|
    requires lines[p] == a[i] && xs[i + 1][0] <= pixels[q] <= xs[i + 1][|xs[i + 1]| - 1]
    ensures Query(bs, lines, pixels).Ok? && Query(bs, lines, pixels).value.Grid?
    ensures Query(bs, lines, pixels).value.cells[p][q] == Linear(xs[i + 1], ls[i + 1], pixels[q])
  {
    var asked := AskedBox(lines, pixels);
    SampleInsideInterval(a, i + 1);
    assert Start(a, i + 1) == a[i];
    RangeFootprint(a, xs, ls, bs, i + 1, lines, pixels, p, q);
    if i + 2 < |bs| {
      SampleInsideInterval(a, i + 2);
      assert a[i + 1] < a[i + 2];
      LaterBlocksMiss(a, xs, ls, bs, i + 1, lines, pixels, p, q);
    }
    RangeQueryGrid(a, xs, ls, bs, lines, pixels);
    OverlayLastWriter(bs, asked, lines[p], pixels[q], None, i + 1);
  }
}
