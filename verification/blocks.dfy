/**
 The blocks of the noise index: each pairs the rectangle where it applies
 with the rule that evaluates it. The four variants are what the two noise
 producers put in their tables: a range vector (interpolated along pixels), an
 azimuth vector (interpolated along lines), an azimuth vector with a single
 value (constant), and the whole-image constant-one block used when a product
 has no azimuth vectors.
 */
module Blocks {
  import opened Wrappers
  import opened Geometry
  import opened Interp

  /** A value grid; `None` is NaN. Row index = line position, column index = pixel position. */
  type Matrix = seq<seq<Option<real>>>

  datatype Block =
    | RangeBlock(area: Rect, pixels: seq<int>, values: seq<real>)
    | AzimuthBlock(area: Rect, lines: seq<int>, values: seq<real>)
    | AzimuthConstBlock(area: Rect, lut: seq<real>)
    | ConstOneBlock(area: Rect)

  /** What the block constructors guarantee (the interpolants exist). */
  predicate Valid(b: Block) {
    && WellFormed(b.area)
    && match b
       case RangeBlock(_, xs, ys) => |xs| == |ys| > 0
       case AzimuthBlock(_, ls, ys) => |ls| == |ys| > 1
       case AzimuthConstBlock(_, lut) => |lut| <= 1
       case ConstOneBlock(_) => true
  }

  /** An azimuth block whose lookup table is empty: its answer has no row to broadcast. */
  predicate EmptyConst(b: Block) {
    b.AzimuthConstBlock? && |b.lut| == 0
  }

  /** The value the block stands for at one (line, pixel) point. */
  function PointValue(b: Block, line: int, pixel: int): Option<real>
    requires Valid(b)
  {
    match b
    case RangeBlock(_, xs, ys) => Linear(xs, ys, pixel)
    case AzimuthBlock(_, ls, ys) => Linear(ls, ys, line)
    case AzimuthConstBlock(_, lut) => if |lut| == 1 then Some(lut[0]) else None
    case ConstOneBlock(_) => Some(1.0)
  }

  /**
   numpy broadcasting of `patch` onto a `k` x `m` target: each dimension of
   the patch equals the target's or is 1.
   */
  predicate Fits(patch: Matrix, k: nat, m: nat) {
    && (|patch| == k || |patch| == 1)
    && forall r :: 0 <= r < |patch| ==> |patch[r]| == m || |patch[r]| == 1
  }

  /** The entry of the broadcast patch at target position (p, q). */
  function Broadcast(patch: Matrix, k: nat, m: nat, p: nat, q: nat): Option<real>
    requires Fits(patch, k, m) && p < k && q < m
  {
    var row := patch[if |patch| == 1 then 0 else p];
    row[if |row| == 1 then 0 else q]
  }

  /**
   The block's answer to `lut_f(lines, pixels)`:
   - a range block tiles its interpolated pixel row once per requested line;
   - an azimuth block tiles its interpolated line column once per requested
     pixel and transposes, so every row is constant;
   - a single-value azimuth block returns its stored table, tiled per pixel and
     transposed: one row whatever the lines asked for;
   - the fallback block returns the scalar 1 (a 1 x 1 patch).
   */
  function Evaluate(b: Block, lines: seq<int>, pixels: seq<int>): (r: Matrix)
    requires Valid(b)
    ensures Fits(r, |lines|, |pixels|) <==> !EmptyConst(b) || |lines| == 0
    ensures Fits(r, |lines|, |pixels|) ==>
              forall p, q :: 0 <= p < |lines| && 0 <= q < |pixels| ==>
                Broadcast(r, |lines|, |pixels|, p, q) == PointValue(b, lines[p], pixels[q])
  {
    match b
    case RangeBlock(_, xs, ys) =>
      var row := seq(|pixels|, q requires 0 <= q < |pixels| => Linear(xs, ys, pixels[q]));
      seq(|lines|, _ => row)
    case AzimuthBlock(_, ls, ys) =>
      seq(|lines|, p requires 0 <= p < |lines| => seq(|pixels|, _ => Linear(ls, ys, lines[p])))
    case AzimuthConstBlock(_, lut) =>
      seq(|lut|, i requires 0 <= i < |lut| => seq(|pixels|, _ => Some(lut[i])))
    case ConstOneBlock(_) =>
      [[Some(1.0)]]
  }

  /** A range block answers one identical row per requested line, of one entry per requested pixel. */
  lemma RangeRowsIdentical(b: Block, lines: seq<int>, pixels: seq<int>)
    requires Valid(b) && b.RangeBlock?
    ensures |Evaluate(b, lines, pixels)| == |lines|
    ensures forall p :: 0 <= p < |lines| ==> |Evaluate(b, lines, pixels)[p]| == |pixels|
    ensures forall p, p' :: 0 <= p < |lines| && 0 <= p' < |lines| ==>
              Evaluate(b, lines, pixels)[p] == Evaluate(b, lines, pixels)[p']
  {
  }

  /** An azimuth block answers a full grid whose every row is constant along pixels. */
  lemma AzimuthRowsConstant(b: Block, lines: seq<int>, pixels: seq<int>)
    requires Valid(b) && b.AzimuthBlock?
    ensures |Evaluate(b, lines, pixels)| == |lines|
    ensures forall p :: 0 <= p < |lines| ==> |Evaluate(b, lines, pixels)[p]| == |pixels|
    ensures forall p, q, q' :: 0 <= p < |lines| && 0 <= q < |pixels| && 0 <= q' < |pixels| ==>
              Evaluate(b, lines, pixels)[p][q] == Evaluate(b, lines, pixels)[p][q']
  {
  }
}
