/**
 `annotation_angle`: the flat list of geolocation-grid angles is reshaped,
 row-major, into one row per grid line before the bilinear spline is built
 over it.
 */
module Annotation {
  import opened Wrappers

  datatype ShapeError = SizeMismatch  // numpy cannot reshape to the requested shape

  lemma RowFits(m: nat, n: nat, i: nat)
    requires i < m
    ensures i * n + n <= m * n
  {
    assert (m - i - 1) * n >= 0;
    assert m * n == i * n + n + (m - i - 1) * n;
  }

  /** Row i of the row-major m x n reading of `angle`. */
  function Row(angle: seq<real>, m: nat, n: nat, i: nat): (row: seq<real>)
    requires |angle| == m * n && i < m
    ensures |row| == n
  {
    RowFits(m, n, i);
    angle[i * n..i * n + n]
  }

  /** `angle.reshape(m, n)`: row i holds the entries i*n .. i*n + n - 1. */
  function Reshape(angle: seq<real>, m: nat, n: nat): (r: Result<seq<seq<real>>, ShapeError>)
    ensures r.Ok? <==> |angle| == m * n
    ensures r.Ok? ==> |r.value| == m && forall i :: 0 <= i < m ==> |r.value[i]| == n
  {
    if |angle| != m * n then Err(SizeMismatch)
    else
      Ok(seq(m, i requires 0 <= i < m => Row(angle, m, n, i)))
  }

  /** The rows of a grid laid end to end. */
  function Flatten(g: seq<seq<real>>): seq<real>
    decreases |g|
  {
    if |g| == 0 then [] else g[0] + Flatten(g[1..])
  }

  lemma RowShift(angle: seq<real>, m: nat, n: nat, i: nat)
    requires |angle| == m * n && i + 1 < m
    ensures |angle[n..]| == (m - 1) * n
    ensures Row(angle[n..], m - 1, n, i) == Row(angle, m, n, i + 1)
  {
    MulStep(m - 1, n);
    MulStep(i, n);
    RowFits(m - 1, n, i);
    RowFits(m, n, i + 1);
    var k := i * n;
    assert angle[n..][k..k + n] == angle[n + k..n + k + n];
  }

  lemma MulStep(a: nat, n: nat)
    ensures (a + 1) * n == a * n + n
  {
  }

  /** Reshaping loses nothing: flattening the grid gives back the flat list. */
  lemma {:induction false} FlattenReshape(angle: seq<real>, m: nat, n: nat)
    requires |angle| == m * n
    ensures Flatten(Reshape(angle, m, n).value) == angle
    decreases m
  {
    var g := Reshape(angle, m, n).value;
    if m == 0 {
      assert |angle| == 0;
    } else {
      RowFits(m, n, 0);
      assert (m - 1) * n == m * n - n;
      var rest := angle[n..];
      var h := Reshape(rest, m - 1, n).value;
      forall i | 0 <= i < m - 1
        ensures g[1..][i] == h[i]
      {
        RowShift(angle, m, n, i);
      }
      assert g[1..] == h;
      FlattenReshape(rest, m - 1, n);
      assert g[0] == angle[..n];
      assert angle == angle[..n] + rest;
    }
  }
}
