/** Worked queries on small tables, each following from the general lemmas. */
module Scenarios {
  import opened Wrappers
  import opened Interp
  import opened Blocks
  import opened NoiseLut
  import opened RangeNoise
  import opened AzimuthNoise

  /**
   One range vector at line 100 with values 1, 2, 3 at pixels 0, 10, 20:
   the noise at line 100, pixel 5 is halfway between the first two values.
   */
  lemma RangeHalfway()
    ensures BuildRange([100], [[0, 10, 20]], [[1.0, 2.0, 3.0]]).Ok?
    ensures Query(BuildRange([100], [[0, 10, 20]], [[1.0, 2.0, 3.0]]).value, [100], [5])
            == Ok(Grid([[Some(1.5)]]))
  {
    var bs := BuildRange([100], [[0, 10, 20]], [[1.0, 2.0, 3.0]]).value;
    assert Start([100], 0) == 50 && Stop([100], 0) == 101;
    RangeFootprint([100], [[0, 10, 20]], [[1.0, 2.0, 3.0]], bs, 0, [100], [5], 0, 0);
    OverlayLastWriter(bs, AskedBox([100], [5]), 100, 5, None, 0);
    LinearOnSegment([0, 10, 20], [1.0, 2.0, 3.0], 0, 5);
    RangeQueryGrid([100], [[0, 10, 20]], [[1.0, 2.0, 3.0]], bs, [100], [5]);
    OneCell(Query(bs, [100], [5]), Some(1.5));
  }

  /** A grid answer of one cell, given that cell. */
  lemma OneCell(r: Result<Answer, QueryError>, v: Option<real>)
    requires r.Ok? && r.value.Grid? && IsGrid(r.value.cells, 1, 1) && r.value.cells[0][0] == v
    ensures r == Ok(Grid([[v]]))
  {
    assert r.value.cells[0] == [v];
    assert r.value.cells == [[v]];
    assert r == Ok(Grid(r.value.cells));
  }

  /** Without azimuth vectors, lines 10, 20, 30 by pixels 5, 15 answer a 3 x 2 grid of 1s. */
  lemma FallbackGrid()
    ensures BuildAzimuth([], [], [], [], [], [], []) == Ok([Fallback()])
    ensures Query([Fallback()], [10, 20, 30], [5, 15])
            == Ok(Grid([[Some(1.0), Some(1.0)], [Some(1.0), Some(1.0)], [Some(1.0), Some(1.0)]]))
  {
    FallbackFillsWindow([], [], [], [], [], [], [], [10, 20, 30], [5, 15]);
    OnesGrid(Query([Fallback()], [10, 20, 30], [5, 15]).value.cells);
  }

  /** A 3 x 2 grid of 1s, given cell by cell. */
  lemma OnesGrid(g: Matrix)
    requires IsGrid(g, 3, 2)
    requires forall i, j :: 0 <= i < 3 && 0 <= j < 2 ==> g[i][j] == Some(1.0)
    ensures g == [[Some(1.0), Some(1.0)], [Some(1.0), Some(1.0)], [Some(1.0), Some(1.0)]]
  {
    assert g[0] == [Some(1.0), Some(1.0)];
    assert g[1] == [Some(1.0), Some(1.0)];
    assert g[2] == [Some(1.0), Some(1.0)];
  }

  /**
   A single-value azimuth block declared over lines 10..20 and pixels 0..5,
   worth 4: line 9 lies outside the declared lines but inside the truncated
   bounds, so the query still answers 4 there.
   */
  lemma SingleValueBlockReachesLineBelow()
    ensures BuildAzimuth([[15]], [10], [20], [0], [5], [[4.0]], ["IW1"]).Ok?
    ensures Query(BuildAzimuth([[15]], [10], [20], [0], [5], [[4.0]], ["IW1"]).value, [9], [3])
            == Ok(Grid([[Some(4.0)]]))
  {
    var bs := BuildAzimuth([[15]], [10], [20], [0], [5], [[4.0]], ["IW1"]).value;
    assert bs[0] == AzimuthBlockOf([15], 10, 20, 0, 5, [4.0]);
    AzimuthFootprint(bs[0], 10, 20, 0, 5, [9], [3], 0, 0);
    OverlayLastWriter(bs, AskedBox([9], [3]), 9, 3, None, 0);
    OneCell(Query(bs, [9], [3]), Some(4.0));
  }
}
