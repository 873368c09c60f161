/**
 Axis-aligned rectangles in (line, pixel) space, as the block index and the
 query window use them. Every coordinate is stored DOUBLED: the stored integer
 `d` stands for the coordinate `d / 2`, so the half-pixel margins used by
 xsar stay exact integers.
 */
module Geometry {

  function Min(a: int, b: int): int { if a <= b then a else b }
  function Max(a: int, b: int): int { if a <= b then b else a }

  /** Python's `int()` applied to the half-integer `d / 2`: truncation toward zero. */
  function TruncHalf(d: int): (r: int)
    ensures 0 <= d ==> 0 <= r && 2 * r <= d <= 2 * r + 1
    ensures d < 0 ==> r <= 0 && 2 * r - 1 <= d <= 2 * r
  {
    if 0 <= d then d / 2 else -((-d) / 2)
  }

  /** `math.ceil` / `np.ceil` applied to the half-integer `d / 2`. */
  function CeilHalf(d: int): (r: int)
    ensures 2 * r - 1 <= d <= 2 * r
  {
    (d + 1) / 2
  }

  /** Truncation toward zero never reverses the order of two bounds. */
  lemma TruncHalfMonotone(d: int, e: int)
    requires d <= e
    ensures TruncHalf(d) <= TruncHalf(e)
  {
  }

  /** The closed rectangle [a0/2, a1/2] x [x0/2, x1/2] (lines x pixels). */
  datatype Rect = Rect(a0: int, x0: int, a1: int, x1: int)

  predicate WellFormed(r: Rect) {
    r.a0 <= r.a1 && r.x0 <= r.x1
  }

  /**
   shapely's `box(minx, miny, maxx, maxy)`: the same rectangle whatever the
   order of the given corners; its bounds are the ordered corners.
   */
  function Box(a0: int, x0: int, a1: int, x1: int): (r: Rect)
    ensures WellFormed(r)
    ensures {r.a0, r.a1} == {a0, a1} && {r.x0, r.x1} == {x0, x1}
  {
    Rect(Min(a0, a1), Min(x0, x1), Max(a0, a1), Max(x0, x1))
  }

  /** The doubled point (a, x) lies in the closed rectangle `r`. */
  predicate Covers(r: Rect, a: int, x: int) {
    r.a0 <= a <= r.a1 && r.x0 <= x <= r.x1
  }

  /** The closed rectangles meet: their intersection is not empty (touching edges count). */
  predicate Meets(r: Rect, s: Rect) {
    r.a0 <= s.a1 && s.a0 <= r.a1 && r.x0 <= s.x1 && s.x0 <= r.x1
  }

  /** Meeting is exactly having a common point. */
  lemma MeetsIffCommonPoint(r: Rect, s: Rect)
    requires WellFormed(r) && WellFormed(s)
    ensures Meets(r, s) <==> exists a, x :: Covers(r, a, x) && Covers(s, a, x)
  {
    if Meets(r, s) {
      assert Covers(r, Max(r.a0, s.a0), Max(r.x0, s.x0));
      assert Covers(s, Max(r.a0, s.a0), Max(r.x0, s.x0));
    }
  }

  /** The intersection of two meeting rectangles; its bounds are what shapely's `bounds` reports. */
  function Intersect(r: Rect, s: Rect): (t: Rect)
    requires WellFormed(r) && WellFormed(s) && Meets(r, s)
    ensures WellFormed(t)
    ensures forall a, x :: Covers(t, a, x) <==> Covers(r, a, x) && Covers(s, a, x)
  {
    Rect(Max(r.a0, s.a0), Max(r.x0, s.x0), Min(r.a1, s.a1), Min(r.x1, s.x1))
  }
}
