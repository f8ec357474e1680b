/** A single extrusion modifier: a planar footprint or a bounding sphere with a
    radial gradient from a centre multiplier to an edge multiplier. */
module Modifiers {
  import opened Geometry

  /** The two kinds of region. A planar modifier carries the convex hull of its
      mesh projected on the XY plane and that polygon's centroid; a volumetric
      one carries the mean of its mesh vertices. */
  datatype Region =
    | Planar(polygon: seq<Point2>, centroid2: Point2)
    | Volumetric(centroid3: Point3)

  /** rMax is the normalisation radius (largest centroid-to-vertex distance),
      center and edge the multipliers at radius 0 and at rMax, exponent shapes
      the falloff, and minLayer is the height below which the modifier is off. */
  datatype Modifier = Modifier(
    region: Region,
    rMax: real,
    center: real,
    edge: real,
    exponent: nat,
    minLayer: real)

  /** The radius is divided by unguarded, so it must be positive. */
  predicate WellFormed(m: Modifier) {
    m.rMax > 0.0
  }

  function Min(a: real, b: real): (r: real)
    ensures r <= a && r <= b && (r == a || r == b)
  {
    if a <= b then a else b
  }

  /** v lies between a and b, in whichever order they come. */
  predicate Between(v: real, a: real, b: real) {
    (a <= v <= b) || (b <= v <= a)
  }

  /** b raised to a natural power. */
  function Pow(b: real, k: nat): (r: real)
    ensures 0.0 <= b ==> 0.0 <= r
    ensures 0.0 <= b <= 1.0 ==> r <= 1.0
    ensures k == 0 ==> r == 1.0
    ensures k > 0 && b == 0.0 ==> r == 0.0
    ensures b == 1.0 ==> r == 1.0
    decreases k
  {
    if k == 0 then 1.0
    else
      var q := Pow(b, k - 1);
      assert 0.0 <= b <= 1.0 ==> b * q <= q by {
        if 0.0 <= b <= 1.0 {
          assert q - b * q == (1.0 - b) * q;
          ProductNonNegative(1.0 - b, q);
        }
      }
      assert 0.0 <= b ==> 0.0 <= b * q by {
        if 0.0 <= b { ProductNonNegative(b, q); }
      }
      b * q
  }

  lemma ProductNonNegative(a: real, b: real)
    requires 0.0 <= a && 0.0 <= b
    ensures 0.0 <= a * b
  {
  }

  /** The power is monotone in its base on the non-negative reals. */
  lemma {:induction false} PowMonotone(a: real, b: real, k: nat)
    requires 0.0 <= a <= b
    ensures Pow(a, k) <= Pow(b, k)
    decreases k
  {
    if k > 0 {
      PowMonotone(a, b, k - 1);
      var pa, pb := Pow(a, k - 1), Pow(b, k - 1);
      assert b * pb - a * pa == (b - a) * pb + a * (pb - pa);
      ProductNonNegative(b - a, pb);
      ProductNonNegative(a, pb - pa);
    }
  }

  /** The warped, clamped radius: min(r / rMax, 1) raised to the exponent. */
  function Normalized(m: Modifier, r: real): (t: real)
    requires WellFormed(m)
    ensures 0.0 <= r ==> 0.0 <= t <= 1.0
  {
    var ratio := Min(r / m.rMax, 1.0);
    assert 0.0 <= r ==> 0.0 <= r / m.rMax;
    Pow(ratio, m.exponent)
  }

  /** The multiplier at radius r: center - (center - edge) * Normalized(r). */
  function Gradient(m: Modifier, r: real): (g: real)
    requires WellFormed(m)
    ensures 0.0 <= r ==> Between(g, m.center, m.edge)
  {
    var t := Normalized(m, r);
    assert 0.0 <= r ==> Between(m.center - (m.center - m.edge) * t, m.center, m.edge) by {
      if 0.0 <= r { BlendBetween(m.center, m.edge, t); }
    }
    m.center - (m.center - m.edge) * t
  }

  /** Blending with a weight in [0, 1] stays between the two ends. */
  lemma BlendBetween(c: real, e: real, t: real)
    requires 0.0 <= t <= 1.0
    ensures Between(c - (c - e) * t, c, e)
  {
    if c >= e {
      ProductNonNegative(c - e, t);
      ProductNonNegative(c - e, 1.0 - t);
      assert (c - e) - (c - e) * t == (c - e) * (1.0 - t);
    } else {
      ProductNonNegative(e - c, t);
      ProductNonNegative(e - c, 1.0 - t);
      assert (e - c) - (e - c) * t == (e - c) * (1.0 - t);
    }
  }

  /** Distance from the evaluated point to the modifier's centroid: planar for a
      planar modifier, spatial for a volumetric one. */
  function Radius(m: Modifier, sqrt: real -> real, x: real, y: real, z: real): real {
    match m.region
    case Planar(_, c) => sqrt(DistSq2(Point2(x, y), c))
    case Volumetric(c) => sqrt(DistSq3(x, y, z, c))
  }

  /** The point lies in the modifier's region: strictly inside the polygon for a
      planar modifier, within the bounding sphere for a volumetric one. */
  predicate InRegion(m: Modifier, sqrt: real -> real, x: real, y: real, z: real) {
    match m.region
    case Planar(polygon, _) => Contains(polygon, Point2(x, y))
    case Volumetric(c) => !(sqrt(DistSq3(x, y, z, c)) > m.rMax)
  }

  /** The modifier is active at the point: at or above its minimum layer and
      inside its region. */
  predicate Active(m: Modifier, sqrt: real -> real, x: real, y: real, z: real) {
    z >= m.minLayer && InRegion(m, sqrt, x, y, z)
  }

  /** The multiplier one modifier contributes at (x, y, z). */
  function ModifierMultiplier(m: Modifier, sqrt: real -> real, x: real, y: real, z: real): real
    requires WellFormed(m)
  {
    if z < m.minLayer then 1.0
    else
      match m.region
      case Planar(polygon, centroid) =>
        var p := Point2(x, y);
        if !Contains(polygon, p) then 1.0
        else Gradient(m, sqrt(DistSq2(p, centroid)))
      case Volumetric(centroid) =>
        var r3d := sqrt(DistSq3(x, y, z, centroid));
        if r3d > m.rMax then 1.0
        else Gradient(m, r3d)
  }

  /** Wherever the modifier is not active it is neutral: its multiplier is 1.0. */
  lemma NeutralWhereInactive(m: Modifier, sqrt: real -> real, x: real, y: real, z: real)
    requires WellFormed(m)
    requires !Active(m, sqrt, x, y, z)
    ensures ModifierMultiplier(m, sqrt, x, y, z) == 1.0
  {
  }

  /** Where the modifier is active it follows the radial gradient. */
  lemma ActiveFollowsGradient(m: Modifier, sqrt: real -> real, x: real, y: real, z: real)
    requires WellFormed(m)
    requires Active(m, sqrt, x, y, z)
    ensures ModifierMultiplier(m, sqrt, x, y, z) == Gradient(m, Radius(m, sqrt, x, y, z))
  {
  }

  /** Where the modifier is active its value lies between the centre and edge
      multipliers, since the radius is never negative. */
  lemma MultiplierBetween(m: Modifier, sqrt: real -> real, x: real, y: real, z: real)
    requires WellFormed(m) && IsSqrt(sqrt)
    requires Active(m, sqrt, x, y, z)
    ensures Between(ModifierMultiplier(m, sqrt, x, y, z), m.center, m.edge)
  {
    ActiveFollowsGradient(m, sqrt, x, y, z);
    RadiusNonNegative(m, sqrt, x, y, z);
  }

  lemma RadiusNonNegative(m: Modifier, sqrt: real -> real, x: real, y: real, z: real)
    requires IsSqrt(sqrt)
    ensures 0.0 <= Radius(m, sqrt, x, y, z)
  {
    match m.region
    case Planar(_, c) => assert 0.0 <= DistSq2(Point2(x, y), c);
    case Volumetric(c) => assert 0.0 <= DistSq3(x, y, z, c);
  }

  /** Below its minimum layer a modifier is neutral, wherever the point is. */
  lemma NeutralBelowMinLayer(m: Modifier, sqrt: real -> real, x: real, y: real, z: real)
    requires WellFormed(m)
    requires z < m.minLayer
    ensures ModifierMultiplier(m, sqrt, x, y, z) == 1.0
  {
  }

  /** A planar modifier is neutral at every point its polygon does not contain,
      including the polygon's own boundary. */
  lemma NeutralOutsidePolygon(m: Modifier, sqrt: real -> real, x: real, y: real, z: real)
    requires WellFormed(m) && m.region.Planar?
    requires !Contains(m.region.polygon, Point2(x, y))
    ensures ModifierMultiplier(m, sqrt, x, y, z) == 1.0
  {
  }

  /** A volumetric modifier is neutral strictly outside its bounding sphere; the
      test on the root agrees with the test on the squared distance. */
  lemma NeutralOutsideSphere(m: Modifier, sqrt: real -> real, x: real, y: real, z: real)
    requires WellFormed(m) && m.region.Volumetric? && IsSqrt(sqrt)
    requires DistSq3(x, y, z, m.region.centroid3) > m.rMax * m.rMax
    ensures !InRegion(m, sqrt, x, y, z)
    ensures ModifierMultiplier(m, sqrt, x, y, z) == 1.0
  {
    SqrtExceeds(sqrt, DistSq3(x, y, z, m.region.centroid3), m.rMax);
  }

  /** Inside the bounding sphere (squared distance at most rMax squared) a
      volumetric modifier at or above its layer is active. */
  lemma ActiveInsideSphere(m: Modifier, sqrt: real -> real, x: real, y: real, z: real)
    requires WellFormed(m) && m.region.Volumetric? && IsSqrt(sqrt)
    requires z >= m.minLayer
    requires DistSq3(x, y, z, m.region.centroid3) <= m.rMax * m.rMax
    ensures Active(m, sqrt, x, y, z)
  {
    SqrtExceeds(sqrt, DistSq3(x, y, z, m.region.centroid3), m.rMax);
  }

  /** Normalized radius 0 gives the centre multiplier, 1 the edge multiplier. */
  lemma GradientEnds(m: Modifier, r: real)
    requires WellFormed(m)
    ensures Normalized(m, r) == 0.0 ==> Gradient(m, r) == m.center
    ensures Normalized(m, r) == 1.0 ==> Gradient(m, r) == m.edge
  {
  }

  /** At the centroid of an active volumetric modifier with a positive exponent
      the multiplier is the centre multiplier. */
  lemma CenterAtCentroid(m: Modifier, sqrt: real -> real)
    requires WellFormed(m) && m.region.Volumetric? && IsSqrt(sqrt)
    requires m.exponent > 0
    requires m.region.centroid3.z >= m.minLayer
    ensures ModifierMultiplier(m, sqrt, m.region.centroid3.x, m.region.centroid3.y, m.region.centroid3.z) == m.center
  {
    var c := m.region.centroid3;
    assert DistSq3(c.x, c.y, c.z, c) == 0.0;
    assert Normalized(m, sqrt(0.0)) == 0.0;
  }

  /** At or beyond the normalisation radius, an active modifier gives its edge
      multiplier (the ratio is clamped to 1). */
  lemma EdgeAtRim(m: Modifier, sqrt: real -> real, x: real, y: real, z: real)
    requires WellFormed(m)
    requires Active(m, sqrt, x, y, z)
    requires Radius(m, sqrt, x, y, z) >= m.rMax
    ensures ModifierMultiplier(m, sqrt, x, y, z) == m.edge
  {
    var r := Radius(m, sqrt, x, y, z);
    RatioAtLeastOne(r, m.rMax);
    assert Min(r / m.rMax, 1.0) == 1.0;
  }

  /** The gradient moves monotonically from the centre multiplier toward the
      edge multiplier as the radius grows. */
  lemma GradientMonotone(m: Modifier, r1: real, r2: real)
    requires WellFormed(m)
    requires 0.0 <= r1 <= r2
    ensures m.center >= m.edge ==> Gradient(m, r2) <= Gradient(m, r1)
    ensures m.center <= m.edge ==> Gradient(m, r1) <= Gradient(m, r2)
  {
    NormalizedMonotone(m, r1, r2);
    BlendMonotone(m.center, m.edge, Normalized(m, r1), Normalized(m, r2), Gradient(m, r1), Gradient(m, r2));
  }

  /** The normalized radius grows with the radius. */
  lemma NormalizedMonotone(m: Modifier, r1: real, r2: real)
    requires WellFormed(m)
    requires 0.0 <= r1 <= r2
    ensures Normalized(m, r1) <= Normalized(m, r2)
  {
    if r1 < r2 {
      RatioStrictlyMonotone(r1, r2, m.rMax);
    }
    RatioAtLeastZero(r1, m.rMax);
    PowMonotone(Min(r1 / m.rMax, 1.0), Min(r2 / m.rMax, 1.0), m.exponent);
  }

  lemma RatioAtLeastZero(r: real, b: real)
    requires 0.0 <= r && 0.0 < b
    ensures 0.0 <= r / b
  {
    var q := r / b;
    assert q * b == r;
  }

  /** Blending moves monotonically from c toward e as the weight grows. */
  lemma BlendMonotone(c: real, e: real, t1: real, t2: real, g1: real, g2: real)
    requires t1 <= t2
    requires g1 == c - (c - e) * t1 && g2 == c - (c - e) * t2
    ensures c >= e ==> g2 <= g1
    ensures c <= e ==> g1 <= g2
  {
    assert g1 - g2 == (c - e) * (t2 - t1);
    if c >= e {
      ProductNonNegative(c - e, t2 - t1);
    } else {
      ProductNonNegative(e - c, t2 - t1);
      assert (e - c) * (t2 - t1) == -((c - e) * (t2 - t1));
    }
  }

  lemma RatioAtLeastOne(r: real, b: real)
    requires 0.0 < b <= r
    ensures r / b >= 1.0
  {
    var q := r / b;
    assert q * b == r;
  }

  lemma RatioAtMostOne(r: real, b: real)
    requires 0.0 <= r <= b && 0.0 < b
    ensures r / b <= 1.0
  {
    var q := r / b;
    assert q * b == r;
  }

  lemma RatioStrictlyMonotone(r1: real, r2: real, b: real)
    requires r1 < r2 && 0.0 < b
    ensures r1 / b < r2 / b
  {
    var q1, q2 := r1 / b, r2 / b;
    assert q1 * b == r1 && q2 * b == r2;
  }

  /** With a linear falloff the normalized radius is the plain ratio r / rMax. */
  lemma LinearNormalized(m: Modifier, r: real)
    requires WellFormed(m) && m.exponent == 1
    requires 0.0 <= r <= m.rMax
    ensures Normalized(m, r) == r / m.rMax
  {
    RatioAtMostOne(r, m.rMax);
    assert Pow(r / m.rMax, 1) == r / m.rMax * Pow(r / m.rMax, 0);
  }

  /** With a linear falloff the gradient is strictly monotone inside rMax when
      the centre and edge multipliers differ. */
  lemma LinearGradientStrict(m: Modifier, r1: real, r2: real)
    requires WellFormed(m) && m.exponent == 1
    requires 0.0 <= r1 < r2 <= m.rMax
    requires m.center != m.edge
    ensures m.center > m.edge ==> Gradient(m, r2) < Gradient(m, r1)
    ensures m.center < m.edge ==> Gradient(m, r1) < Gradient(m, r2)
  {
    LinearNormalized(m, r1);
    LinearNormalized(m, r2);
    var t1, t2 := r1 / m.rMax, r2 / m.rMax;
    RatioStrictlyMonotone(r1, r2, m.rMax);
    StrictBlend(m.center, m.edge, t1, t2);
  }

  /** Blending is strictly monotone in the weight when the ends differ. */
  lemma StrictBlend(c: real, e: real, t1: real, t2: real)
    requires c != e && t1 < t2
    ensures c > e ==> c - (c - e) * t2 < c - (c - e) * t1
    ensures c < e ==> c - (c - e) * t1 < c - (c - e) * t2
  {
    assert (c - e) * t2 - (c - e) * t1 == (c - e) * (t2 - t1);
    if c > e {
      ProductPositive(c - e, t2 - t1);
    } else {
      ProductPositive(e - c, t2 - t1);
      assert (e - c) * (t2 - t1) == -((c - e) * (t2 - t1));
    }
  }

  /** Monotonicity in distance for two points where a modifier is active: the
      farther point's multiplier is no closer to the centre multiplier. */
  lemma MultiplierMonotoneInDistance(m: Modifier, sqrt: real -> real,
                                     x1: real, y1: real, z1: real,
                                     x2: real, y2: real, z2: real)
    requires WellFormed(m) && IsSqrt(sqrt)
    requires Active(m, sqrt, x1, y1, z1) && Active(m, sqrt, x2, y2, z2)
    requires Radius(m, sqrt, x1, y1, z1) <= Radius(m, sqrt, x2, y2, z2)
    ensures m.center >= m.edge ==>
      ModifierMultiplier(m, sqrt, x2, y2, z2) <= ModifierMultiplier(m, sqrt, x1, y1, z1)
    ensures m.center <= m.edge ==>
      ModifierMultiplier(m, sqrt, x1, y1, z1) <= ModifierMultiplier(m, sqrt, x2, y2, z2)
  {
    var r1, r2 := Radius(m, sqrt, x1, y1, z1), Radius(m, sqrt, x2, y2, z2);
    RadiusNonNegative(m, sqrt, x1, y1, z1);
    ActiveFollowsGradient(m, sqrt, x1, y1, z1);
    ActiveFollowsGradient(m, sqrt, x2, y2, z2);
    GradientMonotone(m, r1, r2);
  }
}
