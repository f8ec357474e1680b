/** Planar and spatial points, the square-root law, convex-polygon containment
    and linear interpolation: the geometric vocabulary the modifier engine uses. */
module Geometry {

  datatype Point2 = Point2(x: real, y: real)
  datatype Point3 = Point3(x: real, y: real, z: real)

  /** Squared planar Euclidean distance. */
  function DistSq2(a: Point2, b: Point2): (d: real)
    ensures 0.0 <= d
    ensures a == b ==> d == 0.0
  {
    SquaresNonNegative(a.x - b.x, a.y - b.y);
    (a.x - b.x) * (a.x - b.x) + (a.y - b.y) * (a.y - b.y)
  }

  /** Squared spatial Euclidean distance from (x, y, z) to c. */
  function DistSq3(x: real, y: real, z: real, c: Point3): (d: real)
    ensures 0.0 <= d
    ensures Point3(x, y, z) == c ==> d == 0.0
  {
    SquaresNonNegative(x - c.x, y - c.y);
    SquareNonNegative(z - c.z);
    (x - c.x) * (x - c.x) + (y - c.y) * (y - c.y) + (z - c.z) * (z - c.z)
  }

  lemma ProductPositive(a: real, b: real)
    requires 0.0 < a && 0.0 < b
    ensures 0.0 < a * b
  {
  }

  lemma SquareNonNegative(u: real)
    ensures 0.0 <= u * u
    ensures u != 0.0 ==> 0.0 < u * u
  {
    if u > 0.0 {
      ProductPositive(u, u);
    } else if u < 0.0 {
      var v := -u;
      ProductPositive(v, v);
      assert v * v == u * u;
    }
  }

  lemma SquaresNonNegative(u: real, v: real)
    ensures 0.0 <= u * u + v * v
    ensures u != 0.0 || v != 0.0 ==> 0.0 < u * u + v * v
  {
    SquareNonNegative(u);
    SquareNonNegative(v);
  }

  /** The square-root function handed to the engine (math.sqrt on reals): for every
      non-negative argument it returns the non-negative root, and the root of zero
      is zero. */
  ghost predicate IsSqrt(sqrt: real -> real) {
    && sqrt(0.0) == 0.0
    && forall v :: 0.0 <= v ==> 0.0 <= sqrt(v) && sqrt(v) * sqrt(v) == v
  }

  /** Length below which a segment counts as degenerate (a single point). */
  const MinSegmentLength: real := 0.000001

  /** Comparing a root with a bound is comparing the squares. */
  lemma SqrtExceeds(sqrt: real -> real, v: real, b: real)
    requires IsSqrt(sqrt)
    requires 0.0 <= v && 0.0 <= b
    ensures sqrt(v) > b <==> v > b * b
  {
    var s := sqrt(v);
    assert 0.0 <= s && s * s == v;
    if s > b {
      SquaresOrdered(b, s);
    } else if s < b {
      SquaresOrdered(s, b);
    }
  }

  lemma SquaresOrdered(a: real, b: real)
    requires 0.0 <= a < b
    ensures a * a < b * b
  {
    DifferenceOfSquares(b, a);
    ProductPositive(b - a, b + a);
  }

  lemma DifferenceOfSquares(a: real, b: real)
    ensures a * a - b * b == (a - b) * (a + b)
  {
  }

  /** Orientation of p relative to the directed edge a -> b (twice the signed area). */
  function Cross(a: Point2, b: Point2, p: Point2): real {
    (b.x - a.x) * (p.y - a.y) - (b.y - a.y) * (p.x - a.x)
  }

  /** Strict-interior containment of p in the convex polygon whose vertices are
      listed in boundary order (either orientation, no closing repeat): p lies
      strictly on the same side of every edge. Points on the boundary are not
      contained, and a polygon with fewer than three vertices contains nothing. */
  predicate Contains(polygon: seq<Point2>, p: Point2) {
    |polygon| >= 3 &&
    ((forall i :: 0 <= i < |polygon| ==> EdgeSide(polygon, i, p) > 0.0) ||
     (forall i :: 0 <= i < |polygon| ==> EdgeSide(polygon, i, p) < 0.0))
  }

  /** Orientation of p relative to the i-th edge, which closes back to vertex 0. */
  function EdgeSide(polygon: seq<Point2>, i: nat, p: Point2): real
    requires i < |polygon|
  {
    Cross(polygon[i], polygon[(i + 1) % |polygon|], p)
  }

  /** A vertex lies on the boundary, so no polygon contains its own vertices. */
  lemma VertexNotContained(polygon: seq<Point2>, k: nat)
    requires k < |polygon|
    ensures !Contains(polygon, polygon[k])
  {
    if |polygon| >= 3 {
      assert EdgeSide(polygon, k, polygon[k]) == 0.0;
    }
  }

  /** Containment in the union of the given polygons: strictly inside at least one. */
  predicate UnionContains(polygons: seq<seq<Point2>>, p: Point2) {
    exists i :: 0 <= i < |polygons| && Contains(polygons[i], p)
  }

  /** The point at fraction t of the way from a to b (interpolation along a
      two-point line with a normalised distance). */
  function Interpolate(a: Point2, b: Point2, t: real): (p: Point2)
    ensures t == 0.0 ==> p == a
    ensures t == 1.0 ==> p == b
    ensures a == b ==> p == a
    ensures DistSq2(a, p) == t * t * DistSq2(a, b)
  {
    var p := Point2(a.x + t * (b.x - a.x), a.y + t * (b.y - a.y));
    assert p.x - a.x == t * (b.x - a.x) && p.y - a.y == t * (b.y - a.y);
    p
  }
}
