# Sentinel-1 noise lookup tables, modelled in Dafny

This project models the thermal-noise lookup-table engine of xsar's Sentinel-1 metadata reader (`src/xsar/sentinel1_xml_mappings.py`). The engine turns noise vectors from the product metadata into a table of blocks. It then answers queries for rectangular windows of lines and pixels. It has four parts:

- **Range noise** (`noise_lut_range`, `Lut_box_range`). Each range vector is sampled at one line. It is valid over an interval of lines bounded by the midpoints to its neighbouring vectors. Along pixels it is interpolated linearly and is NaN outside its sampled pixels.
- **Azimuth noise** (`noise_lut_azi`, `Lut_box_azi`). Each azimuth vector covers a rectangle given by the metadata, widened by half a pixel on every side. Inside it the vector is interpolated along lines, or is constant when it has a single value. A product with no azimuth vectors gets a single 65535 × 65535 block whose value is 1.
- **The window query** (`_NoiseLut.__call__`). An empty table answers the scalar 1. Otherwise the query builds a NaN grid indexed by the requested coordinates. It keeps the blocks whose rectangles meet the half-pixel-padded window box, truncates each intersection's bounds to integers, and lets each kept block write its cells by label, in table order.
- **`or_ipf28`**. This adds the legacy spelling to a noise XPath, for metadata written by processor versions before 2.9.

The reshape step of `annotation_angle` is modelled too.

Modelling choices:
- Rectangles store every coordinate doubled, so the ±0.5 margins are exact integers. Python's `int()` of a bound is `TruncHalf` (truncation toward zero), and `np.ceil` is `CeilHalf`.
- Values are `real`, and NaN is `None`.
- A block is a tagged variant (`RangeBlock`, `AzimuthBlock`, `AzimuthConstBlock`, `ConstOneBlock`). Each pairs a rectangle with its evaluation rule.
- The query is modelled step by step:
  - the window box;
  - selection of the blocks that meet it;
  - the integer bounds of each intersection;
  - the block's own answer for the selected coordinates (`np.tile` shapes included);
  - placement by label with numpy broadcasting.

  It is then proved equal, cell by cell, to a pointwise rule (`NoiseLut.Overlay`): the last block in table order that writes a cell decides its value.

Behaviour worth knowing (each follows from the code as written):
- **Range intervals overlap.** A midpoint rule would give disjoint intervals that start at line 0. The code truncates each start (line 207) and takes the ceiling of each stop (line 208). So intervals i and i+1 share one line whenever `a[i] + a[i+1]` is odd (`RangeNoise.ConsecutiveIntervals`), and the first interval starts at `int(a[0] / 2)` (the floor of `a[0] / 2`, since lines are non-negative), not at 0. Because the later block wins a shared line, a sample line `a[i]` followed directly by `a[i] + 1` is answered with vector i+1's values (`RangeNoise.QueryAtSharedLine`).
- **Range stops are inclusive in the query.** The comment at line 209 calls the range stop excluded. The query's selection at lines 165-166 includes both ends, so a range block also writes line `stop_i`.
- **Azimuth blocks reach one step lower.** An azimuth block's low margin `a_start - 0.5` (line 251) truncates to `a_start - 1` at line 164. So the block writes one line below, and one pixel to the left of, its declared extent (`AzimuthNoise.AzimuthFootprint`).
- **Range tables are never empty.** `_NoiseLut.__call__` answers 1 for an empty table (lines 143-145, "no noise"). `noise_lut_range` never builds one: it reads `atracks[-1]` (line 208), and `pd.concat` of no blocks raises (line 218). So an empty range input is an error (`RangeNoise.BuildRange`).

## Model

| member | source | states |
|---|---|---|
| `Geometry.TruncHalf` | src/xsar/sentinel1_xml_mappings.py:164 | `int()` of a half-integer bound truncates toward zero: the result is within half a unit of the bound, on the side of 0 |
| `Geometry.CeilHalf` | src/xsar/sentinel1_xml_mappings.py:208 | the ceiling of a half-integer: the least integer not below it |
| `Geometry.Box` | src/xsar/sentinel1_xml_mappings.py:157-158 | `box(...)` is the same rectangle whatever the order of its corners; its bounds are those corners, ordered |
| `Geometry.MeetsIffCommonPoint` | src/xsar/sentinel1_xml_mappings.py:159-162 | a block survives the emptiness filter exactly when its closed rectangle shares a point with the window box; touching edges count |
| `Geometry.Intersect` | src/xsar/sentinel1_xml_mappings.py:161 | the intersection holds exactly the points common to both rectangles |
| `Interp.Linear` | src/xsar/sentinel1_xml_mappings.py:199 | `interp1d(..., fill_value=nan, bounds_error=False)` gives a value exactly between the first and last sample coordinate, NaN elsewhere |
| `Interp.LinearAtSample` | src/xsar/sentinel1_xml_mappings.py:199 | at a sample coordinate the interpolant returns that sample's value |
| `Interp.LinearOnSegment` | src/xsar/sentinel1_xml_mappings.py:253 | between two consecutive samples the interpolant is the straight line through them |
| `Interp.LerpBetween` | src/xsar/sentinel1_xml_mappings.py:199 | an interpolated value never leaves the range of its segment's two end values |
| `Blocks.PointValue` | src/xsar/sentinel1_xml_mappings.py:199-277 | bare definition of each block's `lut_f` at one point: the pixel interpolant of a range block (line 199), the line interpolant of an azimuth block (line 253), the stored value of a single-value block (line 257; NaN for an empty table), 1 for the fallback (line 277). Given meaning by `Evaluate`, `RangeBlockValue`, `InterpolatingValue`, `ConstantValue`, `Fallback` |
| `Blocks.Fits` | src/xsar/sentinel1_xml_mappings.py:167 | bare definition of numpy's broadcasting rule for the write: each dimension of the answer equals the selection's or is 1. Given meaning by `Evaluate` and `Paste` (the `ShapeMismatch` path) |
| `Blocks.Broadcast` | src/xsar/sentinel1_xml_mappings.py:167 | bare definition of the entry a broadcast answer puts at a selected cell, reading index 0 along a dimension of size 1. Given meaning by `Evaluate` and `Paste` |
| `Blocks.Evaluate` | src/xsar/sentinel1_xml_mappings.py:201-203 | a block's answer can be broadcast onto the selected cells unless it is an empty single-value table on a non-empty selection; each broadcast entry is the block's value at that cell's line and pixel |
| `Blocks.RangeRowsIdentical` | src/xsar/sentinel1_xml_mappings.py:202 | a range block answers one row per requested line, one entry per pixel, all rows identical |
| `Blocks.AzimuthRowsConstant` | src/xsar/sentinel1_xml_mappings.py:260 | an interpolating azimuth block answers a full grid whose rows are constant along pixels |
| `NoiseLut.AskedBox` | src/xsar/sentinel1_xml_mappings.py:157-158 | `asked_box`: half a pixel beyond the first and last requested line and pixel, low sides clamped at 0; a well-formed rectangle. Its meaning is given by `WritesInWindow` and `AxisInWindow` |
| `NoiseLut.Writes` | src/xsar/sentinel1_xml_mappings.py:164-166 | bare definition of the fill region: the block meets the window box and the point lies within the `int()`-truncated bounds of the intersection. Characterised by `WritesInWindow`, `RangeFootprint`, `AzimuthFootprint`; used by `Paste` and `Overlay` |
| `NoiseLut.LineSpan` | src/xsar/sentinel1_xml_mappings.py:164 | bare definition of `int()` of the intersection's line bounds. Given meaning by `WritesInWindow` and `AxisInWindow` |
| `NoiseLut.PixelSpan` | src/xsar/sentinel1_xml_mappings.py:164 | bare definition of `int()` of the intersection's pixel bounds. Given meaning by `WritesInWindow` and `AxisInWindow` |
| `NoiseLut.Select` | src/xsar/sentinel1_xml_mappings.py:165-166 | the selection keeps only requested coordinates within the integer bounds |
| `NoiseLut.SelectAtRank` | src/xsar/sentinel1_xml_mappings.py:167 | writing by label: the coordinate at position i sits at its rank in the selection, so its cell gets the block's value for that coordinate |
| `NoiseLut.Paste` | src/xsar/sentinel1_xml_mappings.py:164-167 | one block's write fails exactly when its answer cannot be broadcast; otherwise it changes exactly the cells it writes, to its own values there |
| `NoiseLut.Matching` | src/xsar/sentinel1_xml_mappings.py:160-162 | the matched blocks are exactly the table's blocks whose rectangle meets the window box |
| `NoiseLut.OverlayMatching` | src/xsar/sentinel1_xml_mappings.py:160-163 | iterating over the matched blocks only gives the same cells as iterating over the whole table |
| `NoiseLut.Fill` | src/xsar/sentinel1_xml_mappings.py:163-167 | the fill succeeds exactly when no matched block's write fails; each cell then holds the pointwise last-writer value |
| `NoiseLut.NaNs` | src/xsar/sentinel1_xml_mappings.py:148-152 | the fresh result grid has the window's shape and is NaN everywhere |
| `NoiseLut.FillWindow` | src/xsar/sentinel1_xml_mappings.py:148-167 | the grid branch of a query fails only through an empty single-value block; otherwise every cell of the window holds the last writer's value, NaN where none writes |
| `NoiseLut.Query` | src/xsar/sentinel1_xml_mappings.py:141-170 | an empty table answers the scalar 1 (and only then); a non-empty table with an empty window fails; a table without empty single-value blocks answers a grid; every grid answer has exactly one row per line and one column per pixel, each cell holding the last writer's value |
| `NoiseLut.OverlayNoWriter` | src/xsar/sentinel1_xml_mappings.py:148-167 | a cell that no block writes stays NaN |
| `NoiseLut.OverlayLastWriter` | src/xsar/sentinel1_xml_mappings.py:163-167 | where blocks overlap, the last writer in table order decides the cell |
| `NoiseLut.WritesInWindow` | src/xsar/sentinel1_xml_mappings.py:157-166 | inside the window a block writes exactly the cells within the `int()`-truncated bounds of its rectangle, both ends included |
| `NoiseLut.AxisInWindow` | src/xsar/sentinel1_xml_mappings.py:164-166 | along one axis, a coordinate inside the window lies within the truncated bounds of the block's overlap with the window box exactly when it lies within the truncated bounds of the block |
| `RangeNoise.Start` | src/xsar/sentinel1_xml_mappings.py:207 | the interval start: `int()` of the midpoint to the previous sample line, with 0 before the first; its midpoint bounds are stated in its contract. See `SampleInsideInterval`, `ConsecutiveIntervals`, `StartsMonotone`, `Coverage` |
| `RangeNoise.Stop` | src/xsar/sentinel1_xml_mappings.py:208 | the interval stop: the ceiling of the midpoint to the next sample line, with `a_last + 1` after the last; its midpoint bounds are stated in its contract. See `SampleInsideInterval`, `ConsecutiveIntervals`, `StopsMonotone`, `Coverage` |
| `RangeNoise.RangeArea` | src/xsar/sentinel1_xml_mappings.py:198 | the range block rectangle `[a_start, a_stop] x [x[0], x[-1]]`; for ordered bounds it holds a doubled point exactly when the point lies within those bounds. Used by `BuildRange`, characterised inside a window by `RangeFootprint` |
| `RangeNoise.SampleInsideInterval` | src/xsar/sentinel1_xml_mappings.py:207-209 | every sample line lies in its own interval: `start_i <= a_i < stop_i` |
| `RangeNoise.ConsecutiveIntervals` | src/xsar/sentinel1_xml_mappings.py:207-209 | consecutive intervals leave no gap and share exactly `(a_i + a_{i+1}) mod 2` lines |
| `RangeNoise.StartsMonotone` | src/xsar/sentinel1_xml_mappings.py:207 | interval starts never decrease along the vectors |
| `RangeNoise.StopsMonotone` | src/xsar/sentinel1_xml_mappings.py:208 | interval stops never decrease along the vectors |
| `RangeNoise.Coverage` | src/xsar/sentinel1_xml_mappings.py:207-209 | a line lies between the first start and the last stop exactly when some vector's interval holds it |
| `RangeNoise.VectorCount` | src/xsar/sentinel1_xml_mappings.py:210 | `zip` yields as many vectors as its shortest input |
| `RangeNoise.BuildRange` | src/xsar/sentinel1_xml_mappings.py:205-221 | the table is built exactly when there are lines, at least one zipped vector, and every zipped vector has pixels matching its values; it then has one valid range block per zipped vector, in order; empty lines fail |
| `RangeNoise.RangeFootprint` | src/xsar/sentinel1_xml_mappings.py:198 | inside a window, range block i writes exactly lines `start_i..stop_i` and the pixels from its first to its last sample |
| `RangeNoise.RangeBlockValue` | src/xsar/sentinel1_xml_mappings.py:199-203 | a range block is worth its sample value at each sample pixel, on every line |
| `RangeNoise.RangeQueryGrid` | src/xsar/sentinel1_xml_mappings.py:201-203 | a range table answers every non-empty window with a grid: range blocks always broadcast |
| `RangeNoise.LaterBlocksMiss` | src/xsar/sentinel1_xml_mappings.py:207-209 | a line before the start of interval i+1 is written by no later range block |
| `RangeNoise.QueryAtSample` | src/xsar/sentinel1_xml_mappings.py:163-209 | at a sample line and sample pixel, the query returns that vector's sample, unless the next vector sits on the very next line |
| `RangeNoise.QueryAtSharedLine` | src/xsar/sentinel1_xml_mappings.py:163-209 | when the next vector sits on the very next line, the query at sample line `a_i` answers the next vector's values |
| `AzimuthNoise.AzimuthArea` | src/xsar/sentinel1_xml_mappings.py:251 | the azimuth block rectangle, half a pixel beyond the declared lines and pixels with the low sides clamped at 0; for non-negative, ordered declared bounds it holds a doubled point exactly when the point lies within those widened bounds. Characterised inside a window by `AzimuthFootprint` |
| `AzimuthNoise.Fallback` | src/xsar/sentinel1_xml_mappings.py:272-278 | the fallback block: the square `box(0, 0, 65535, 65535)`, worth 1 at every point. See `BuildAzimuth`, `FallbackFillsWindow` |
| `AzimuthNoise.AzimuthBlockOf` | src/xsar/sentinel1_xml_mappings.py:248-257 | the block covers the widened metadata rectangle, and interpolates exactly when it has more than one value |
| `AzimuthNoise.VectorCount` | src/xsar/sentinel1_xml_mappings.py:263-265 | `zip` over the seven inputs yields as many vectors as the shortest |
| `AzimuthNoise.BuildAzimuth` | src/xsar/sentinel1_xml_mappings.py:262-284 | the table is built exactly when every interpolating vector has as many lines as values; with no vector it is the single fallback block; otherwise one block per zipped vector, in order |
| `AzimuthNoise.AzimuthFootprint` | src/xsar/sentinel1_xml_mappings.py:251 | inside a window, an azimuth block writes lines `max(0, a_start-1)..a_stop` and pixels `max(0, x_start-1)..x_stop` |
| `AzimuthNoise.InterpolatingValue` | src/xsar/sentinel1_xml_mappings.py:252-260 | an interpolating azimuth block is worth its vector interpolated at the line, whatever the pixel; at sample lines, the sample's value |
| `AzimuthNoise.ConstantValue` | src/xsar/sentinel1_xml_mappings.py:254-257 | a single-value block is worth that value at every point |
| `AzimuthNoise.FallbackFillsWindow` | src/xsar/sentinel1_xml_mappings.py:272-278 | with no azimuth vectors, every window inside the 65535 square is answered with 1s, never NaN |
| `XPath.Replace` | src/xsar/sentinel1_xml_mappings.py:41 | bare definition of `str.replace`: occurrences replaced left to right without overlap. Given meaning by `ReplaceAbsent`, `ReplaceNoLonger`, `ReplaceShrinks`, `ReplaceChanges` |
| `XPath.LegacyPath` | src/xsar/sentinel1_xml_mappings.py:41 | bare definition of `xpath28`: `noiseRange`, then `noiseAzimuth`, replaced by `noise`. Given meaning by `LegacyDiffers` and `OrIpf28` |
| `XPath.ReplaceAbsent` | src/xsar/sentinel1_xml_mappings.py:41 | `str.replace` of a pattern that does not occur leaves the string unchanged |
| `XPath.ReplaceNoLonger` | src/xsar/sentinel1_xml_mappings.py:41 | replacing by something no longer never lengthens the string |
| `XPath.ReplaceShrinks` | src/xsar/sentinel1_xml_mappings.py:41 | replacing an occurring pattern by something shorter shortens the string |
| `XPath.ReplaceChanges` | src/xsar/sentinel1_xml_mappings.py:41 | a shortening replacement changes the string exactly when the pattern occurs |
| `XPath.LegacyDiffers` | src/xsar/sentinel1_xml_mappings.py:41-42 | the legacy spelling differs from the path exactly when it names `noiseRange` or `noiseAzimuth` |
| `XPath.OrIpf28` | src/xsar/sentinel1_xml_mappings.py:39-44 | such a path becomes `path + " \| " + legacy`; any other path is unchanged; the path is always a prefix of the result |
| `Annotation.Reshape` | src/xsar/sentinel1_xml_mappings.py:287 | the reshape succeeds exactly when the flat list has `M·N` entries, giving M rows of N |
| `Annotation.FlattenReshape` | src/xsar/sentinel1_xml_mappings.py:287 | the reshape is row-major and loses nothing: laying the rows end to end gives back the flat list |
| `Scenarios.RangeHalfway` | src/xsar/sentinel1_xml_mappings.py:194-203 | one range vector with values 1, 2, 3 at pixels 0, 10, 20: the query at its line, pixel 5 answers the 1 × 1 grid 1.5 |
| `Scenarios.FallbackGrid` | src/xsar/sentinel1_xml_mappings.py:272-278 | no azimuth vectors: lines 10, 20, 30 by pixels 5, 15 answer a 3 × 2 grid of 1s |
| `Scenarios.SingleValueBlockReachesLineBelow` | src/xsar/sentinel1_xml_mappings.py:251-257 | a single-value block declared from line 10 answers its value at line 9 too |

## Left out

- `signal_lut` and the spline of `annotation_angle` (lines 129-131, 286-289): they are scipy's floating-point `RectBivariateSpline`. Only the row-major reshape is modelled.
- The `xpath_mappings` table, its decoders and `list_poly_from_list_string_coords` (lines 16-37, 46-124): these do XML, string, date and polygon parsing. The model takes the decoded integer and real sequences as inputs.
- `df_files`, `compounds_vars` and `datetime64_array` (lines 291-374): file-name parsing and declarative wiring, with no noise logic.
- `src/xsar/xsar.py`: configuration loading, dataset dispatch, attribute tagging and test-data download are plumbing around the core.
- Floating point: values are exact reals, and NaN is `None`. Rounding in `interp1d` and in the float midpoint arithmetic of lines 207-208 is not modelled. Integers are unbounded, so int64 overflow is not modelled.
- Exception kinds: every exception the Python code raises becomes an `Err` constructor. The exception classes and messages are not modelled.
- Query coordinates are integers. Non-integer `atracks`/`xtracks` are not modelled.
- `NoiseLut.Query`: duplicate coordinates in a query are written by position. xarray rejects non-unique labels, so the two agree only when the labels are distinct.
- `NoiseLut.Query`: the grid answer is guaranteed only when no block is a single-value azimuth block with an empty table. With such a block, success depends on whether its selection is empty, and `Fill` states that condition exactly.
- Degenerate rectangles: a range vector with a single pixel gives a zero-width `box`. The model treats it as the closed segment it spans. GEOS's treatment of collapsed polygons is not modelled.
- `interp1d` with unsorted coordinates (`assume_sorted=True`): `Interp.Linear` is defined for any input. The interpolation lemmas assume strictly increasing coordinates, as the metadata provides.
- The unused `atracks`/`xtracks` attributes of the block classes (lines 196-197, 249-250) and the swath names: they take no part in any query. The swath names only bound the `zip`.
- The stored table is never modified by a query, and repeated queries agree. Both hold by construction: tables are immutable values and `Query` is a function, so no member states them.
