/**
 The spatial query over a table of noise blocks: given the requested line and
 pixel coordinates, return the grid of noise values for that window, or the
 scalar 1 when the table is empty.

 The query is modelled step by step as xsar performs it (window box,
 block selection by intersection, integer bounds of each intersection, the
 block's own answer for the selected coordinates, placement by label with
 numpy broadcasting) and is then proved equal, cell by cell, to a pointwise
 rule: the last block in table order that writes a cell decides its value.
 */
module NoiseLut {
  import opened Wrappers
  import opened Geometry
  import opened Interp
  import opened Blocks

  /** The query's answer: the scalar 1, or a grid with one row per line and one column per pixel. */
  datatype Answer = One | Grid(cells: Matrix)

  datatype QueryError =
    | EmptyWindow     // the first requested line or pixel does not exist
    | ShapeMismatch   // a block's answer cannot be broadcast onto its cells

  /** Inclusive integer bounds along one axis. */
  datatype Span = Span(lo: int, hi: int)

  predicate InSpan(v: int, s: Span) {
    s.lo <= v <= s.hi
  }

  /** `coords[(coords >= lo) & (coords <= hi)]`: the coordinates inside the span, in their order. */
  function Select(coords: seq<int>, span: Span): (r: seq<int>)
    ensures |r| <= |coords|
    ensures forall v :: v in r ==> v in coords && InSpan(v, span)
    decreases |coords|
  {
    if |coords| == 0 then []
    else (if InSpan(coords[0], span) then [coords[0]] else []) + Select(coords[1..], span)
  }

  lemma {:induction false} SelectAppend(s: seq<int>, t: seq<int>, span: Span)
    ensures Select(s + t, span) == Select(s, span) + Select(t, span)
    decreases |s|
  {
    if |s| == 0 {
      assert s + t == t;
    } else {
      assert (s + t)[1..] == s[1..] + t;
      SelectAppend(s[1..], t, span);
    }
  }

  /** Where the coordinate at position i lands among the selected ones. */
  function Rank(coords: seq<int>, span: Span, i: nat): nat
    requires i <= |coords|
  {
    |Select(coords[..i], span)|
  }

  /** Label placement: a selected coordinate sits at its rank in the selection. */
  lemma SelectAtRank(coords: seq<int>, span: Span, i: nat)
    requires i < |coords| && InSpan(coords[i], span)
    ensures Rank(coords, span, i) < |Select(coords, span)|
    ensures Select(coords, span)[Rank(coords, span, i)] == coords[i]
  {
    assert coords == coords[..i] + coords[i..];
    SelectAppend(coords[..i], coords[i..], span);
    assert coords[i..][1..] == coords[i + 1..];
  }

  lemma SelectAtRankAll(coords: seq<int>, span: Span)
    ensures forall i :: 0 <= i < |coords| && InSpan(coords[i], span) ==>
              Rank(coords, span, i) < |Select(coords, span)| &&
              Select(coords, span)[Rank(coords, span, i)] == coords[i]
  {
    forall i | 0 <= i < |coords| && InSpan(coords[i], span)
      ensures Rank(coords, span, i) < |Select(coords, span)|
      ensures Select(coords, span)[Rank(coords, span, i)] == coords[i]
    {
      SelectAtRank(coords, span, i);
    }
  }

  predicate IsGrid(g: Matrix, k: nat, m: nat) {
    |g| == k && forall i :: 0 <= i < k ==> |g[i]| == m
  }

  /** The integer line bounds of a rectangle: Python's `int()` of its doubled bounds. */
  function LineSpan(t: Rect): Span {
    Span(TruncHalf(t.a0), TruncHalf(t.a1))
  }

  function PixelSpan(t: Rect): Span {
    Span(TruncHalf(t.x0), TruncHalf(t.x1))
  }

  /**
   The window box of a query: half a pixel beyond the first and last requested
   line and pixel, the low sides clamped at 0.
   */
  function AskedBox(lines: seq<int>, pixels: seq<int>): (r: Rect)
    requires |lines| > 0 && |pixels| > 0
    ensures WellFormed(r)
  {
    Box(Max(0, 2 * lines[0] - 1), Max(0, 2 * pixels[0] - 1),
        2 * lines[|lines| - 1] + 1, 2 * pixels[|pixels| - 1] + 1)
  }

  /**
   Block `b` writes the cell at (line, pixel): its rectangle meets the window
   box, and the point lies within the integer bounds of the intersection.
   */
  predicate Writes(b: Block, asked: Rect, line: int, pixel: int)
    requires Valid(b) && WellFormed(asked)
  {
    && Meets(b.area, asked)
    && var t := Intersect(b.area, asked);
       InSpan(line, LineSpan(t)) && InSpan(pixel, PixelSpan(t))
  }

  /**
   The write of block `b` fails: its answer is an empty table, which numpy
   cannot broadcast onto the non-empty set of lines it selects.
   */
  predicate Blocked(b: Block, asked: Rect, lines: seq<int>) {
    && Valid(b) && WellFormed(asked) && Meets(b.area, asked) && EmptyConst(b)
    && |Select(lines, LineSpan(Intersect(b.area, asked)))| > 0
  }

  /**
   One step of the fill: select the requested coordinates within the block's
   integer bounds, ask the block for their values, and write them by label.
   Fails when the block's answer cannot be broadcast onto the selected cells.
   */
  function Paste(g: Matrix, b: Block, asked: Rect, lines: seq<int>, pixels: seq<int>)
    : (r: Result<Matrix, QueryError>)
    requires Valid(b) && WellFormed(asked) && Meets(b.area, asked)
    requires IsGrid(g, |lines|, |pixels|)
    ensures r.Ok? <==> !Blocked(b, asked, lines)
    ensures r.Ok? ==> IsGrid(r.value, |lines|, |pixels|)
    ensures r.Ok? ==>
              forall i, j :: 0 <= i < |lines| && 0 <= j < |pixels| ==>
                r.value[i][j] ==
                  if Writes(b, asked, lines[i], pixels[j]) then PointValue(b, lines[i], pixels[j])
                  else g[i][j]
  {
    var t := Intersect(b.area, asked);
    var la := LineSpan(t);
    var lx := PixelSpan(t);
    var subA := Select(lines, la);
    var subX := Select(pixels, lx);
    var patch := Evaluate(b, subA, subX);
    if !Fits(patch, |subA|, |subX|) then Err(ShapeMismatch)
    else
      SelectAtRankAll(lines, la);
      SelectAtRankAll(pixels, lx);
      Ok(seq(|lines|, i requires 0 <= i < |lines| =>
           seq(|pixels|, j requires 0 <= j < |pixels| =>
             if InSpan(lines[i], la) && InSpan(pixels[j], lx)
             then Broadcast(patch, |subA|, |subX|, Rank(lines, la, i), Rank(pixels, lx, j))
             else g[i][j])))
  }

  /**
   The pointwise rule: scan the blocks in table order, each writer replacing
   the value held so far by its own value at the point.
   */
  function Overlay(bs: seq<Block>, asked: Rect, line: int, pixel: int, prior: Option<real>): Option<real>
    requires WellFormed(asked) && forall k :: 0 <= k < |bs| ==> Valid(bs[k])
    decreases |bs|
  {
    if |bs| == 0 then prior
    else
      Overlay(bs[1..], asked, line, pixel,
              if Writes(bs[0], asked, line, pixel) then PointValue(bs[0], line, pixel) else prior)
  }

  /** A cell that no block writes keeps its prior value (NaN in a fresh grid). */
  lemma {:induction false} OverlayNoWriter(bs: seq<Block>, asked: Rect, line: int, pixel: int, prior: Option<real>)
    requires WellFormed(asked) && forall k :: 0 <= k < |bs| ==> Valid(bs[k])
    requires forall k :: 0 <= k < |bs| ==> !Writes(bs[k], asked, line, pixel)
    ensures Overlay(bs, asked, line, pixel, prior) == prior
    decreases |bs|
  {
    if |bs| > 0 {
      OverlayNoWriter(bs[1..], asked, line, pixel, prior);
    }
  }

  /** Overlapping blocks: the last one in table order that writes a cell wins it. */
  lemma {:induction false} OverlayLastWriter(bs: seq<Block>, asked: Rect, line: int, pixel: int,
                                             prior: Option<real>, j: nat)
    requires WellFormed(asked) && forall k :: 0 <= k < |bs| ==> Valid(bs[k])
    requires j < |bs| && Writes(bs[j], asked, line, pixel)
    requires forall k :: j < k < |bs| ==> !Writes(bs[k], asked, line, pixel)
    ensures Overlay(bs, asked, line, pixel, prior) == PointValue(bs[j], line, pixel)
    decreases |bs|
  {
    if j == 0 {
      OverlayNoWriter(bs[1..], asked, line, pixel, PointValue(bs[0], line, pixel));
    } else {
      var next := if Writes(bs[0], asked, line, pixel) then PointValue(bs[0], line, pixel) else prior;
      OverlayLastWriter(bs[1..], asked, line, pixel, next, j - 1);
    }
  }

  /** `match_blocks`: the blocks whose rectangle meets the window box, in table order. */
  function Matching(bs: seq<Block>, asked: Rect): (r: seq<Block>)
    ensures |r| <= |bs|
    ensures forall b :: b in r <==> b in bs && Meets(b.area, asked)
    decreases |bs|
  {
    if |bs| == 0 then []
    else (if Meets(bs[0].area, asked) then [bs[0]] else []) + Matching(bs[1..], asked)
  }

  /** Dropping the blocks that miss the window box changes no cell. */
  lemma {:induction false} OverlayMatching(bs: seq<Block>, asked: Rect, line: int, pixel: int, prior: Option<real>)
    requires WellFormed(asked) && forall k :: 0 <= k < |bs| ==> Valid(bs[k])
    ensures forall k :: 0 <= k < |Matching(bs, asked)| ==> Valid(Matching(bs, asked)[k])
    ensures Overlay(Matching(bs, asked), asked, line, pixel, prior) == Overlay(bs, asked, line, pixel, prior)
    decreases |bs|
  {
    var m := Matching(bs, asked);
    assert forall k :: 0 <= k < |m| ==> m[k] in bs;
    if |bs| > 0 {
      var next := if Writes(bs[0], asked, line, pixel) then PointValue(bs[0], line, pixel) else prior;
      OverlayMatching(bs[1..], asked, line, pixel, next);
      if Meets(bs[0].area, asked) {
        assert m[1..] == Matching(bs[1..], asked);
      } else {
        assert m == Matching(bs[1..], asked);
      }
    }
  }

  /** Writes every matched block in turn; the first failing write aborts the query. */
  function Fill(g: Matrix, matched: seq<Block>, asked: Rect, lines: seq<int>, pixels: seq<int>)
    : (r: Result<Matrix, QueryError>)
    requires WellFormed(asked) && IsGrid(g, |lines|, |pixels|)
    requires forall k :: 0 <= k < |matched| ==> Valid(matched[k]) && Meets(matched[k].area, asked)
    ensures r.Ok? <==> forall k :: 0 <= k < |matched| ==> !Blocked(matched[k], asked, lines)
    ensures r.Ok? ==> IsGrid(r.value, |lines|, |pixels|)
    ensures r.Ok? ==>
              forall i, j :: 0 <= i < |lines| && 0 <= j < |pixels| ==>
                r.value[i][j] == Overlay(matched, asked, lines[i], pixels[j], g[i][j])
    decreases |matched|
  {
    if |matched| == 0 then Ok(g)
    else
      match Paste(g, matched[0], asked, lines, pixels)
      case Err(e) => Err(e)
      case Ok(g') =>
        var r := Fill(g', matched[1..], asked, lines, pixels);
        assert forall k :: 1 <= k < |matched| ==> matched[k] == matched[1..][k - 1];
        r
  }

  function NaNs(k: nat, m: nat): (g: Matrix)
    ensures IsGrid(g, k, m)
    ensures forall i, j :: 0 <= i < k && 0 <= j < m ==> g[i][j] == None
  {
    seq(k, _ => seq(m, _ => None))
  }

  /** The fill of a NaN grid by the matched blocks gives every cell its pointwise value. */
  lemma FillAgreesWithOverlay(blocks: seq<Block>, lines: seq<int>, pixels: seq<int>)
    requires forall k :: 0 <= k < |blocks| ==> Valid(blocks[k])
    requires |lines| > 0 && |pixels| > 0
    requires forall k :: 0 <= k < |Matching(blocks, AskedBox(lines, pixels))| ==>
               Valid(Matching(blocks, AskedBox(lines, pixels))[k])
               && Meets(Matching(blocks, AskedBox(lines, pixels))[k].area, AskedBox(lines, pixels))
    requires Fill(NaNs(|lines|, |pixels|), Matching(blocks, AskedBox(lines, pixels)), AskedBox(lines, pixels),
                  lines, pixels).Ok?
    ensures forall i, j :: 0 <= i < |lines| && 0 <= j < |pixels| ==>
              Fill(NaNs(|lines|, |pixels|), Matching(blocks, AskedBox(lines, pixels)), AskedBox(lines, pixels),
                   lines, pixels).value[i][j]
              == Overlay(blocks, AskedBox(lines, pixels), lines[i], pixels[j], None)
  {
    var asked := AskedBox(lines, pixels);
    var n := NaNs(|lines|, |pixels|);
    var g := Fill(n, Matching(blocks, asked), asked, lines, pixels).value;
    forall i, j | 0 <= i < |lines| && 0 <= j < |pixels|
      ensures g[i][j] == Overlay(blocks, asked, lines[i], pixels[j], None)
    {
      assert n[i][j] == None;
      OverlayMatching(blocks, asked, lines[i], pixels[j], None);
    }
  }

  /** The matched blocks are valid table blocks meeting the window box. */
  lemma MatchedBlocks(blocks: seq<Block>, asked: Rect)
    requires forall k :: 0 <= k < |blocks| ==> Valid(blocks[k])
    ensures forall k :: 0 <= k < |Matching(blocks, asked)| ==>
              && Matching(blocks, asked)[k] in blocks
              && Valid(Matching(blocks, asked)[k])
              && Meets(Matching(blocks, asked)[k].area, asked)
    ensures (forall k :: 0 <= k < |blocks| ==> !EmptyConst(blocks[k])) ==>
              forall k :: 0 <= k < |Matching(blocks, asked)| ==> !EmptyConst(Matching(blocks, asked)[k])
  {
    var matched := Matching(blocks, asked);
    forall k | 0 <= k < |matched|
      ensures matched[k] in blocks && Valid(matched[k]) && Meets(matched[k].area, asked)
    {
      assert matched[k] in matched;
    }
  }

  /**
   The grid branch of the query: a NaN grid over the window, filled by the
   blocks that meet the window box. It fails only through an empty
   single-value block, and each cell of a result is the last writer's value.
   */
  function FillWindow(blocks: seq<Block>, lines: seq<int>, pixels: seq<int>): (r: Result<Matrix, QueryError>)
    requires forall k :: 0 <= k < |blocks| ==> Valid(blocks[k])
    requires |lines| > 0 && |pixels| > 0
    ensures (forall k :: 0 <= k < |blocks| ==> !EmptyConst(blocks[k])) ==> r.Ok?
    ensures r.Ok? ==> IsGrid(r.value, |lines|, |pixels|)
    ensures r.Ok? ==>
              forall i, j :: 0 <= i < |lines| && 0 <= j < |pixels| ==>
                r.value[i][j] == Overlay(blocks, AskedBox(lines, pixels), lines[i], pixels[j], None)
  {
    var asked := AskedBox(lines, pixels);
    var matched := Matching(blocks, asked);
    MatchedBlocks(blocks, asked);
    assert (forall k :: 0 <= k < |blocks| ==> !EmptyConst(blocks[k])) ==>
             forall k :: 0 <= k < |matched| ==> !Blocked(matched[k], asked, lines);
    var r := Fill(NaNs(|lines|, |pixels|), matched, asked, lines, pixels);
    if r.Ok? then
      FillAgreesWithOverlay(blocks, lines, pixels);
      r
    else r
  }

  /**
   `_NoiseLut.__call__(atracks, xtracks)`. An empty table answers the scalar 1.
   Otherwise the answer is a grid of exactly one row per requested line and one
   column per requested pixel, each cell holding the value of the last block
   in table order that writes it, NaN when none does.
   */
  function Query(blocks: seq<Block>, lines: seq<int>, pixels: seq<int>): (r: Result<Answer, QueryError>)
    requires forall k :: 0 <= k < |blocks| ==> Valid(blocks[k])
    ensures |blocks| == 0 <==> r == Ok(One)
    ensures |blocks| > 0 && (|lines| == 0 || |pixels| == 0) ==> r == Err(EmptyWindow)
    ensures (|blocks| > 0 && |lines| > 0 && |pixels| > 0 &&
             forall k :: 0 <= k < |blocks| ==> !EmptyConst(blocks[k])) ==> r.Ok? && r.value.Grid?
    ensures r.Ok? && r.value.Grid? ==> IsGrid(r.value.cells, |lines|, |pixels|)
    ensures r.Ok? && r.value.Grid? ==>
              forall i, j :: 0 <= i < |lines| && 0 <= j < |pixels| ==>
                r.value.cells[i][j] == Overlay(blocks, AskedBox(lines, pixels), lines[i], pixels[j], None)
  {
    if |blocks| == 0 then Ok(One)
    else if |lines| == 0 || |pixels| == 0 then Err(EmptyWindow)
    else
      match FillWindow(blocks, lines, pixels)
      case Err(e) => Err(e)
      case Ok(g) => Ok(Grid(g))
  }

  /**
   A window of requested coordinates as callers pass it: non-negative, with
   the first and last coordinates the smallest and largest (increasing
   coordinates, for one).
   */
  predicate Window(coords: seq<int>) {
    && |coords| > 0 && 0 <= coords[0]
    && forall i :: 0 <= i < |coords| ==> coords[0] <= coords[i] <= coords[|coords| - 1]
  }

  /**
   Fill region: inside a window, a block with non-negative corners writes
   exactly the cells whose line and pixel lie within the `int()`-truncated
   bounds of its own rectangle, both ends included.
   */
  lemma WritesInWindow(b: Block, lines: seq<int>, pixels: seq<int>, i: nat, j: nat)
    requires Valid(b) && 0 <= b.area.a0 && 0 <= b.area.x0
    requires Window(lines) && Window(pixels) && i < |lines| && j < |pixels|
    ensures Writes(b, AskedBox(lines, pixels), lines[i], pixels[j]) <==>
              InSpan(lines[i], LineSpan(b.area)) && InSpan(pixels[j], PixelSpan(b.area))
  {
    var asked := AskedBox(lines, pixels);
    assert asked == Rect(Max(0, 2 * lines[0] - 1), Max(0, 2 * pixels[0] - 1),
                         2 * lines[|lines| - 1] + 1, 2 * pixels[|pixels| - 1] + 1);
    AxisInWindow(b.area.a0, b.area.a1, lines[0], lines[|lines| - 1], lines[i]);
    AxisInWindow(b.area.x0, b.area.x1, pixels[0], pixels[|pixels| - 1], pixels[j]);
  }

  /**
   One axis of the fill region: for a coordinate inside the window, the
   truncated bounds of the block's overlap with the window box hold it exactly
   when the truncated bounds of the block itself do.
   */
  lemma AxisInWindow(lo: int, hi: int, first: int, last: int, v: int)
    requires 0 <= lo <= hi && 0 <= first <= v <= last
    ensures (&& lo <= 2 * last + 1 && Max(0, 2 * first - 1) <= hi
             && TruncHalf(Max(lo, Max(0, 2 * first - 1))) <= v <= TruncHalf(Min(hi, 2 * last + 1)))
            <==> TruncHalf(lo) <= v <= TruncHalf(hi)
  {
    var wlo, whi := Max(0, 2 * first - 1), 2 * last + 1;
    if TruncHalf(lo) <= v <= TruncHalf(hi) {
      TruncHalfMonotone(wlo, 2 * v);
      TruncHalfMonotone(2 * v, whi);
    }
    if lo <= whi && wlo <= hi && TruncHalf(Max(lo, wlo)) <= v <= TruncHalf(Min(hi, whi)) {
      TruncHalfMonotone(lo, Max(lo, wlo));
      TruncHalfMonotone(Min(hi, whi), hi);
    }
  }
}
