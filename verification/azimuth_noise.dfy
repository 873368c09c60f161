/**
 `noise_lut_azi`: one block per azimuth noise vector. Vector i covers the
 lines aStart[i]..aStop[i] and the pixels xStart[i]..xStop[i] given by the
 metadata, and holds noise values luts[i] sampled at the lines lines[i].
 A product without azimuth vectors gets a single whole-image block worth 1.
 */
module AzimuthNoise {
  import opened Wrappers
  import opened Geometry
  import opened Interp
  import opened Blocks
  import opened NoiseLut

  datatype BuildError =
    | MalformedVector  // more than one value, but not as many sample lines as values

  /** Side of the fallback block: larger than any image. */
  const FallbackSide: int := 65535

  /** `box(0, 0, 65535, 65535)` worth 1 everywhere, used when there is no azimuth vector. */
  function Fallback(): (b: Block)
    ensures Valid(b) && b.area == Rect(0, 0, 2 * FallbackSide, 2 * FallbackSide)
    ensures forall l, p :: PointValue(b, l, p) == Some(1.0)
  {
    ConstOneBlock(Box(0, 0, 2 * FallbackSide, 2 * FallbackSide))
  }

  /** `box(max(0, a_start - 0.5), max(0, x_start - 0.5), a_stop + 0.5, x_stop + 0.5)`, doubled. */
  function AzimuthArea(aStart: int, aStop: int, xStart: int, xStop: int): (r: Rect)
    ensures WellFormed(r)
    ensures 0 <= aStart <= aStop && 0 <= xStart <= xStop ==>
              forall l, p :: Covers(r, l, p) <==>
                Max(0, 2 * aStart - 1) <= l <= 2 * aStop + 1 && Max(0, 2 * xStart - 1) <= p <= 2 * xStop + 1
  {
    Box(Max(0, 2 * aStart - 1), Max(0, 2 * xStart - 1), 2 * aStop + 1, 2 * xStop + 1)
  }

  /** A vector from which `Lut_box_azi` can be built: `interp1d` needs as many lines as values. */
  predicate GoodVector(a: seq<int>, lut: seq<real>) {
    |lut| <= 1 || |a| == |lut|
  }

  /**
   `Lut_box_azi`: interpolates along lines when it has more than one value;
   otherwise it keeps its table as a constant.
   */
  function AzimuthBlockOf(a: seq<int>, aStart: int, aStop: int, xStart: int, xStop: int, lut: seq<real>)
    : (b: Block)
    requires GoodVector(a, lut)
    ensures Valid(b)
    ensures b.area == AzimuthArea(aStart, aStop, xStart, xStop)
    ensures |lut| > 1 <==> b.AzimuthBlock?
  {
    var area := AzimuthArea(aStart, aStop, xStart, xStop);
    if |lut| > 1 then AzimuthBlock(area, a, lut) else AzimuthConstBlock(area, lut)
  }

  /** `zip` over the seven inputs stops at the shortest. */
  function VectorCount(lines: seq<seq<int>>, aStart: seq<int>, aStop: seq<int>, xStart: seq<int>,
                       xStop: seq<int>, luts: seq<seq<real>>, swaths: seq<string>): (n: nat)
    ensures n <= |lines| && n <= |aStart| && n <= |aStop| && n <= |xStart|
    ensures n <= |xStop| && n <= |luts| && n <= |swaths|
    ensures n == |lines| || n == |aStart| || n == |aStop| || n == |xStart| ||
            n == |xStop| || n == |luts| || n == |swaths|
  {
    Min(|lines|, Min(|aStart|, Min(|aStop|, Min(|xStart|, Min(|xStop|, Min(|luts|, |swaths|))))))
  }

  /**
   `noise_lut_azi(...)`: the block table, one block per zipped vector in
   vector order, never empty thanks to the fallback; or the error `noise_lut_azi`
   raises. The swath names only take part in the zip.
   */
  function BuildAzimuth(lines: seq<seq<int>>, aStart: seq<int>, aStop: seq<int>, xStart: seq<int>,
                        xStop: seq<int>, luts: seq<seq<real>>, swaths: seq<string>)
    : (r: Result<seq<Block>, BuildError>)
    ensures r.Ok? <==>
              forall i :: 0 <= i < VectorCount(lines, aStart, aStop, xStart, xStop, luts, swaths) ==>
                GoodVector(lines[i], luts[i])
    ensures VectorCount(lines, aStart, aStop, xStart, xStop, luts, swaths) == 0 ==> r == Ok([Fallback()])
    ensures r.Ok? ==> |r.value| == Max(1, VectorCount(lines, aStart, aStop, xStart, xStop, luts, swaths))
    ensures r.Ok? ==> forall k :: 0 <= k < |r.value| ==> Valid(r.value[k])
    ensures r.Ok? && VectorCount(lines, aStart, aStop, xStart, xStop, luts, swaths) > 0 ==>
              forall i :: 0 <= i < |r.value| ==>
                r.value[i] == AzimuthBlockOf(lines[i], aStart[i], aStop[i], xStart[i], xStop[i], luts[i])
  {
    var n := VectorCount(lines, aStart, aStop, xStart, xStop, luts, swaths);
    if exists i :: 0 <= i < n && !GoodVector(lines[i], luts[i]) then Err(MalformedVector)
    else if n == 0 then Ok([Fallback()])
    else
      Ok(seq(n, i requires 0 <= i < n =>
             AzimuthBlockOf(lines[i], aStart[i], aStop[i], xStart[i], xStop[i], luts[i])))
  }

  /**
   Inside a query window, azimuth block i writes the lines from
   max(0, aStart - 1) to aStop and the pixels from max(0, xStart - 1) to
   xStop: truncating the half-pixel margin of the low sides reaches one line
   and one pixel below the block's declared extent.
   */
  lemma AzimuthFootprint(b: Block, aStart: int, aStop: int, xStart: int, xStop: int,
                         lines: seq<int>, pixels: seq<int>, p: nat, q: nat)
    requires Valid(b) && b.area == AzimuthArea(aStart, aStop, xStart, xStop)
    requires 0 <= aStart <= aStop && 0 <= xStart <= xStop
    requires Window(lines) && Window(pixels) && p < |lines| && q < |pixels|
    ensures Writes(b, AskedBox(lines, pixels), lines[p], pixels[q]) <==>
              Max(0, aStart - 1) <= lines[p] <= aStop && Max(0, xStart - 1) <= pixels[q] <= xStop
  {
    assert b.area == Rect(Max(0, 2 * aStart - 1), Max(0, 2 * xStart - 1), 2 * aStop + 1, 2 * xStop + 1);
    assert TruncHalf(Max(0, 2 * aStart - 1)) == Max(0, aStart - 1);
    assert TruncHalf(Max(0, 2 * xStart - 1)) == Max(0, xStart - 1);
    WritesInWindow(b, lines, pixels, p, q);
  }

  /**
   An interpolating azimuth block is worth its vector interpolated at the
   line, whatever the pixel; at a sample line that is the sample's value.
   */
  lemma InterpolatingValue(a: seq<int>, aStart: int, aStop: int, xStart: int, xStop: int, lut: seq<real>,
                           line: int, pixel: int)
    requires GoodVector(a, lut) && |lut| > 1
    ensures PointValue(AzimuthBlockOf(a, aStart, aStop, xStart, xStop, lut), line, pixel) == Linear(a, lut, line)
    ensures Increasing(a) ==>
              forall k :: 0 <= k < |a| ==>
                PointValue(AzimuthBlockOf(a, aStart, aStop, xStart, xStop, lut), a[k], pixel) == Some(lut[k])
  {
    if Increasing(a) {
      forall k | 0 <= k < |a|
        ensures PointValue(AzimuthBlockOf(a, aStart, aStop, xStart, xStop, lut), a[k], pixel) == Some(lut[k])
      {
        LinearAtSample(a, lut, k);
      }
    }
  }

  /** A single-value azimuth block is worth that value at every point, even away from its sample line. */
  lemma ConstantValue(a: seq<int>, aStart: int, aStop: int, xStart: int, xStop: int, lut: seq<real>,
                      line: int, pixel: int)
    requires |lut| == 1
    ensures PointValue(AzimuthBlockOf(a, aStart, aStop, xStart, xStop, lut), line, pixel) == Some(lut[0])
  {
  }

  /**
   Without azimuth vectors the table still answers every window inside the
   65535 x 65535 square with a grid of 1s, never NaN.
   */
  lemma FallbackFillsWindow(lines: seq<seq<int>>, aStart: seq<int>, aStop: seq<int>, xStart: seq<int>,
                            xStop: seq<int>, luts: seq<seq<real>>, swaths: seq<string>,
                            window: seq<int>, pixels: seq<int>)
    requires VectorCount(lines, aStart, aStop, xStart, xStop, luts, swaths) == 0
    requires Window(window) && Window(pixels)
    requires window[|window| - 1] <= FallbackSide && pixels[|pixels| - 1] <= FallbackSide
    ensures BuildAzimuth(lines, aStart, aStop, xStart, xStop, luts, swaths) == Ok([Fallback()])
    ensures Query([Fallback()], window, pixels).Ok? && Query([Fallback()], window, pixels).value.Grid?
    ensures forall i, j :: 0 <= i < |window| && 0 <= j < |pixels| ==>
              Query([Fallback()], window, pixels).value.cells[i][j] == Some(1.0)
  {
    var bs := [Fallback()];
    var asked := AskedBox(window, pixels);
    var r := Query(bs, window, pixels);
    assert r.Ok? && r.value.Grid?;
    forall i, j | 0 <= i < |window| && 0 <= j < |pixels|
      ensures r.value.cells[i][j] == Some(1.0)
    {
      WritesInWindow(bs[0], window, pixels, i, j);
      OverlayLastWriter(bs, asked, window[i], pixels[j], None, 0);
    }
  }
}
