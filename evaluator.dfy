/** The modifier set: the point multiplier (product over all modifiers), the
    midpoint-rule average along a move, and the effective multiplier of a move
    with its boundary-crossing policy. Each operation is a specification
    function and, where the program accumulates in a loop, a method proved
    against it. */
module Evaluator {
  import opened Geometry
  import opened Modifiers

  /** A modifier whose normalisation radius can be divided by. */
  type WfModifier = m: Modifier | WellFormed(m)
    witness Modifier(Volumetric(Point3(0.0, 0.0, 0.0)), 1.0, 1.0, 1.0, 0, 0.0)

  /** No modifier of the set is active at the point. */
  predicate NoneActive(mods: seq<WfModifier>, sqrt: real -> real, x: real, y: real, z: real) {
    forall i :: 0 <= i < |mods| ==> !Active(mods[i], sqrt, x, y, z)
  }

  // ---------------------------------------------------------------------------
  // Products of reals

  /** The product of a sequence of reals, multiplied in from the front. */
  function Product(s: seq<real>): real
    decreases |s|
  {
    if |s| == 0 then 1.0 else Product(s[..|s| - 1]) * s[|s| - 1]
  }

  /** A product of ones is one. */
  lemma {:induction false} ProductOfOnes(s: seq<real>)
    requires forall i :: 0 <= i < |s| ==> s[i] == 1.0
    ensures Product(s) == 1.0
    decreases |s|
  {
    if |s| > 0 {
      ProductOfOnes(s[..|s| - 1]);
    }
  }

  lemma ProductSnoc(s: seq<real>, v: real)
    ensures Product(s + [v]) == Product(s) * v
  {
    assert (s + [v])[..|s|] == s;
  }

  /** When every factor but the k-th is one, the product is the k-th factor. */
  lemma {:induction false} ProductOfOnesExcept(s: seq<real>, k: nat)
    requires k < |s|
    requires forall i :: 0 <= i < |s| && i != k ==> s[i] == 1.0
    ensures Product(s) == s[k]
    decreases |s|
  {
    var init := s[..|s| - 1];
    if k == |s| - 1 {
      ProductOfOnes(init);
    } else {
      ProductOfOnesExcept(init, k);
    }
  }

  // ---------------------------------------------------------------------------
  // Point multiplier

  /** The per-modifier multipliers at a point, in list order. */
  function Multipliers(mods: seq<WfModifier>, sqrt: real -> real, x: real, y: real, z: real): seq<real> {
    seq(|mods|, i requires 0 <= i < |mods| => ModifierMultiplier(mods[i], sqrt, x, y, z))
  }

  lemma MultipliersSnoc(a: seq<WfModifier>, m: WfModifier, sqrt: real -> real, x: real, y: real, z: real)
    ensures Multipliers(a + [m], sqrt, x, y, z) == Multipliers(a, sqrt, x, y, z) + [ModifierMultiplier(m, sqrt, x, y, z)]
  {
    var c := Multipliers(a + [m], sqrt, x, y, z);
    forall i | 0 <= i < |a| ensures c[i] == Multipliers(a, sqrt, x, y, z)[i] {
      assert (a + [m])[i] == a[i];
    }
  }

  /** The product of the per-modifier multipliers, taken in list order. */
  function PointMultiplier(mods: seq<WfModifier>, sqrt: real -> real, x: real, y: real, z: real): real {
    Product(Multipliers(mods, sqrt, x, y, z))
  }

  /** Where no modifier is active the point multiplier is exactly 1.0. */
  lemma NeutralWhereNoneActive(mods: seq<WfModifier>, sqrt: real -> real, x: real, y: real, z: real)
    requires NoneActive(mods, sqrt, x, y, z)
    ensures PointMultiplier(mods, sqrt, x, y, z) == 1.0
  {
    var factors := Multipliers(mods, sqrt, x, y, z);
    forall i | 0 <= i < |mods| ensures factors[i] == 1.0 {
      NeutralWhereInactive(mods[i], sqrt, x, y, z);
    }
    ProductOfOnes(factors);
  }

  /** The loop that multiplies the per-modifier values into an overall multiplier. */
  method ComputeMultiplierMultiple(mods: seq<WfModifier>, sqrt: real -> real, x: real, y: real, z: real)
    returns (overall: real)
    ensures overall == PointMultiplier(mods, sqrt, x, y, z)
  {
    overall := 1.0;
    for i := 0 to |mods|
      invariant overall == PointMultiplier(mods[..i], sqrt, x, y, z)
    {
      var m := ModifierMultiplier(mods[i], sqrt, x, y, z);
      assert mods[..i + 1] == mods[..i] + [mods[i]];
      PointMultiplierSnoc(mods[..i], mods[i], sqrt, x, y, z);
      overall := overall * m;
    }
    assert mods[..|mods|] == mods;
  }

  /** Appending one modifier multiplies in its value. */
  lemma PointMultiplierSnoc(a: seq<WfModifier>, m: WfModifier, sqrt: real -> real, x: real, y: real, z: real)
    ensures PointMultiplier(a + [m], sqrt, x, y, z)
         == PointMultiplier(a, sqrt, x, y, z) * ModifierMultiplier(m, sqrt, x, y, z)
  {
    MultipliersSnoc(a, m, sqrt, x, y, z);
    ProductSnoc(Multipliers(a, sqrt, x, y, z), ModifierMultiplier(m, sqrt, x, y, z));
  }

  /** Composition law: when every modifier but one is inactive at the point, the
      set's multiplier is that one modifier's own multiplier. */
  lemma SingleActiveModifier(mods: seq<WfModifier>, k: nat,
                                                 sqrt: real -> real, x: real, y: real, z: real)
    requires k < |mods|
    requires forall i :: 0 <= i < |mods| && i != k ==> !Active(mods[i], sqrt, x, y, z)
    ensures PointMultiplier(mods, sqrt, x, y, z) == ModifierMultiplier(mods[k], sqrt, x, y, z)
  {
    var factors := Multipliers(mods, sqrt, x, y, z);
    forall i | 0 <= i < |mods| && i != k ensures factors[i] == 1.0 {
      NeutralWhereInactive(mods[i], sqrt, x, y, z);
    }
    ProductOfOnesExcept(factors, k);
  }

  // ---------------------------------------------------------------------------
  // Average along a move

  /** The i-th of n midpoint-rule fractions, (i + 0.5) / n: always strictly
      between the two endpoints of the move. */
  function SampleFraction(i: nat, n: nat): (t: real)
    requires i < n
    ensures 0.0 < t < 1.0
  {
    FractionInside(i as real + 0.5, n as real);
    (i as real + 0.5) / n as real
  }

  lemma FractionInside(a: real, b: real)
    requires 0.0 < a < b
    ensures 0.0 < a / b < 1.0
  {
    var q := a / b;
    assert q * b == a;
    PositiveFactor(q, b, a);
    BelowOneFactor(q, b, a);
  }

  lemma PositiveFactor(q: real, b: real, a: real)
    requires 0.0 < b && q * b == a && 0.0 < a
    ensures 0.0 < q
  {
  }

  lemma BelowOneFactor(q: real, b: real, a: real)
    requires 0.0 < b && q * b == a && a < b
    ensures q < 1.0
  {
  }

  /** The i-th sample point along the move from start to end. */
  function SamplePoint(start: Point2, end: Point2, i: nat, n: nat): Point2
    requires i < n
  {
    Interpolate(start, end, SampleFraction(i, n))
  }

  /** The set's multipliers at the n sample points of the move, at height z. */
  function SampleValues(mods: seq<WfModifier>, sqrt: real -> real, start: Point2, end: Point2,
                        z: real, n: nat): seq<real>
  {
    seq(n, i requires 0 <= i < n =>
      PointMultiplier(mods, sqrt, SamplePoint(start, end, i, n).x, SamplePoint(start, end, i, n).y, z))
  }

  /** The sum of a sequence of reals, added in from the front. */
  function Sum(s: seq<real>): real
    decreases |s|
  {
    if |s| == 0 then 0.0 else Sum(s[..|s| - 1]) + s[|s| - 1]
  }

  lemma SumSnoc(s: seq<real>, v: real)
    ensures Sum(s + [v]) == Sum(s) + v
  {
    assert (s + [v])[..|s|] == s;
  }

  /** The arithmetic mean of the n sample values. */
  function SegmentAverage(mods: seq<WfModifier>, sqrt: real -> real, start: Point2, end: Point2,
                          z: real, n: nat): real
    requires n > 0
  {
    Sum(SampleValues(mods, sqrt, start, end, z, n)) / n as real
  }

  /** The loop that sums the multipliers at the sample points and divides by
      their number. */
  method ComputeAverageMultiplier(mods: seq<WfModifier>, sqrt: real -> real, start: Point2, end: Point2,
                                  z: real, numSamples: nat)
    returns (avg: real)
    requires numSamples > 0
    ensures avg == SegmentAverage(mods, sqrt, start, end, z, numSamples)
  {
    ghost var values := SampleValues(mods, sqrt, start, end, z, numSamples);
    var total := 0.0;
    for i := 0 to numSamples
      invariant total == Sum(values[..i])
    {
      var frac := (i as real + 0.5) / numSamples as real;
      var pt := Interpolate(start, end, frac);
      var m := ComputeMultiplierMultiple(mods, sqrt, pt.x, pt.y, z);
      assert values[..i + 1] == values[..i] + [m];
      SumSnoc(values[..i], m);
      total := total + m;
    }
    assert values[..numSamples] == values;
    avg := total / numSamples as real;
  }

  /** When every element lies in [lo, hi], the sum lies between |s| * lo and |s| * hi. */
  lemma {:induction false} SumBounds(s: seq<real>, lo: real, hi: real)
    requires forall i :: 0 <= i < |s| ==> lo <= s[i] <= hi
    ensures |s| as real * lo <= Sum(s) <= |s| as real * hi
    decreases |s|
  {
    if |s| > 0 {
      var init := s[..|s| - 1];
      SumBounds(init, lo, hi);
      ScaleStep(|s| as real, |init| as real, lo);
      ScaleStep(|s| as real, |init| as real, hi);
    }
  }

  lemma ScaleStep(n: real, k: real, v: real)
    requires n == k + 1.0
    ensures n * v == k * v + v
  {
  }

  /** The mean of n values that all lie in [lo, hi] lies in [lo, hi]. */
  lemma MeanBounds(s: seq<real>, lo: real, hi: real)
    requires |s| > 0
    requires forall i :: 0 <= i < |s| ==> lo <= s[i] <= hi
    ensures lo <= Sum(s) / |s| as real <= hi
  {
    SumBounds(s, lo, hi);
    DivideBounds(Sum(s), |s| as real, lo, hi);
  }

  lemma DivideBounds(total: real, n: real, lo: real, hi: real)
    requires 0.0 < n && n * lo <= total <= n * hi
    ensures lo <= total / n <= hi
  {
    var q := total / n;
    assert q * n == total;
    assert (q - lo) * n == total - n * lo;
    assert (hi - q) * n == n * hi - total;
  }

  /** The average along a move lies between the least and the greatest value
      the set takes at the sample points. */
  lemma AverageBounds(mods: seq<WfModifier>, sqrt: real -> real, start: Point2, end: Point2,
                      z: real, n: nat, lo: real, hi: real)
    requires n > 0
    requires forall i :: 0 <= i < n ==> lo <= SampleValues(mods, sqrt, start, end, z, n)[i] <= hi
    ensures lo <= SegmentAverage(mods, sqrt, start, end, z, n) <= hi
  {
    MeanBounds(SampleValues(mods, sqrt, start, end, z, n), lo, hi);
  }

  /** The average of a constant multiplier is that constant. */
  lemma AverageOfConstant(mods: seq<WfModifier>, sqrt: real -> real, start: Point2, end: Point2,
                          z: real, n: nat, c: real)
    requires n > 0
    requires forall i :: 0 <= i < n ==> SampleValues(mods, sqrt, start, end, z, n)[i] == c
    ensures SegmentAverage(mods, sqrt, start, end, z, n) == c
  {
    AverageBounds(mods, sqrt, start, end, z, n, c, c);
  }

  // ---------------------------------------------------------------------------
  // Effective multiplier of a move

  /** A planar modifier that is on at height z. */
  predicate ActivePlanar(m: Modifier, z: real) {
    m.region.Planar? && z >= m.minLayer
  }

  /** The polygons of the planar modifiers on at height z, in list order. */
  function ActivePolygons(mods: seq<WfModifier>, z: real): seq<seq<Point2>>
    decreases |mods|
  {
    if |mods| == 0 then []
    else
      var last := mods[|mods| - 1];
      var rest := ActivePolygons(mods[..|mods| - 1], z);
      if ActivePlanar(last, z) then rest + [last.region.polygon] else rest
  }

  /** Every active polygon belongs to a planar modifier on at height z. */
  lemma {:induction false} ActivePolygonsSound(mods: seq<WfModifier>, z: real, j: nat)
    requires j < |ActivePolygons(mods, z)|
    ensures exists i :: 0 <= i < |mods| && ActivePlanar(mods[i], z) && mods[i].region.polygon == ActivePolygons(mods, z)[j]
    decreases |mods|
  {
    var init := mods[..|mods| - 1];
    var rest := ActivePolygons(init, z);
    if j < |rest| {
      ActivePolygonsSound(init, z, j);
      var i :| 0 <= i < |init| && ActivePlanar(init[i], z) && init[i].region.polygon == rest[j];
      assert mods[i] == init[i];
    } else {
      assert mods[|mods| - 1].region.polygon == ActivePolygons(mods, z)[j];
    }
  }

  /** The polygon of every planar modifier on at height z is active. */
  lemma {:induction false} ActivePolygonsComplete(mods: seq<WfModifier>, z: real, i: nat)
    requires i < |mods| && ActivePlanar(mods[i], z)
    ensures mods[i].region.polygon in ActivePolygons(mods, z)
    decreases |mods|
  {
    var init := mods[..|mods| - 1];
    if i < |init| {
      ActivePolygonsComplete(init, z, i);
      assert init[i] == mods[i];
    }
  }

  /** Some planar modifier on at height z strictly contains p. */
  predicate InActiveFootprint(mods: seq<WfModifier>, z: real, p: Point2) {
    exists i :: 0 <= i < |mods| && ActivePlanar(mods[i], z) && Contains(mods[i].region.polygon, p)
  }

  /** The move from start to end enters or leaves the union of the active
      planar footprints. With no active planar modifier nothing is crossed. */
  predicate CrossesFootprint(mods: seq<WfModifier>, z: real, start: Point2, end: Point2) {
    InActiveFootprint(mods, z, start) != InActiveFootprint(mods, z, end)
  }

  /** The union of the active polygons contains exactly the points of the
      active footprints. */
  lemma UnionMatchesFootprint(mods: seq<WfModifier>, z: real, p: Point2)
    ensures UnionContains(ActivePolygons(mods, z), p) <==> InActiveFootprint(mods, z, p)
  {
    var polys := ActivePolygons(mods, z);
    if UnionContains(polys, p) {
      var j :| 0 <= j < |polys| && Contains(polys[j], p);
      ActivePolygonsSound(mods, z, j);
      var i :| 0 <= i < |mods| && ActivePlanar(mods[i], z) && mods[i].region.polygon == polys[j];
    }
    if InActiveFootprint(mods, z, p) {
      var i :| 0 <= i < |mods| && ActivePlanar(mods[i], z) && Contains(mods[i].region.polygon, p);
      ActivePolygonsComplete(mods, z, i);
      var j :| 0 <= j < |polys| && polys[j] == mods[i].region.polygon;
    }
  }

  /** The multiplier applied to a whole non-degenerate move: 1.0 when the
      endpoints differ in containment in the union of the active polygons (with
      no active polygon both count as inside), otherwise the sampled average. */
  function SegmentMultiplier(mods: seq<WfModifier>, sqrt: real -> real, start: Point2, end: Point2,
                             z: real, n: nat): real
    requires n > 0
  {
    var polys := ActivePolygons(mods, z);
    var startInside := if |polys| > 0 then UnionContains(polys, start) else true;
    var endInside := if |polys| > 0 then UnionContains(polys, end) else true;
    if startInside == endInside then SegmentAverage(mods, sqrt, start, end, z, n)
    else 1.0
  }

  /** Exactly 1.0 when the move crosses a footprint boundary, otherwise the
      sampled average. */
  lemma SegmentMultiplierCases(mods: seq<WfModifier>, sqrt: real -> real, start: Point2, end: Point2,
                               z: real, n: nat)
    requires n > 0
    ensures CrossesFootprint(mods, z, start, end) ==> SegmentMultiplier(mods, sqrt, start, end, z, n) == 1.0
    ensures !CrossesFootprint(mods, z, start, end) ==>
      SegmentMultiplier(mods, sqrt, start, end, z, n) == SegmentAverage(mods, sqrt, start, end, z, n)
  {
    UnionMatchesFootprint(mods, z, start);
    UnionMatchesFootprint(mods, z, end);
    if |ActivePolygons(mods, z)| == 0 {
      assert !InActiveFootprint(mods, z, start) && !InActiveFootprint(mods, z, end);
    }
  }

  /** The boundary-crossing decision followed by the averaging loop. */
  method ComputeEffectiveMultiplier(mods: seq<WfModifier>, sqrt: real -> real, start: Point2, end: Point2,
                                    z: real, numSamples: nat)
    returns (m: real)
    requires numSamples > 0
    ensures m == SegmentMultiplier(mods, sqrt, start, end, z, numSamples)
  {
    var applicablePolys := ActivePolygons(mods, z);
    var startInside, endInside;
    if |applicablePolys| > 0 {
      startInside := UnionContains(applicablePolys, start);
      endInside := UnionContains(applicablePolys, end);
    } else {
      startInside, endInside := true, true;
    }
    if startInside == endInside {
      m := ComputeAverageMultiplier(mods, sqrt, start, end, z, numSamples);
    } else {
      m := 1.0;
    }
  }

  /** A move from inside an active planar footprint to a point outside every
      active footprint (or back) gets exactly 1.0, whatever the sample count. */
  lemma CrossingMoveIsNeutral(mods: seq<WfModifier>, sqrt: real -> real, start: Point2, end: Point2,
                              z: real, n: nat, k: nat)
    requires n > 0 && k < |mods|
    requires ActivePlanar(mods[k], z) && Contains(mods[k].region.polygon, start)
    requires forall i :: 0 <= i < |mods| && ActivePlanar(mods[i], z) ==> !Contains(mods[i].region.polygon, end)
    ensures SegmentMultiplier(mods, sqrt, start, end, z, n) == 1.0
  {
    assert InActiveFootprint(mods, z, start);
    SegmentMultiplierCases(mods, sqrt, start, end, z, n);
  }

  /** With no planar modifier on at height z the move is never a crossing: the
      effective multiplier is the average. */
  lemma NoFootprintMeansAverage(mods: seq<WfModifier>, sqrt: real -> real, start: Point2, end: Point2,
                                z: real, n: nat)
    requires n > 0
    requires forall i :: 0 <= i < |mods| ==> !ActivePlanar(mods[i], z)
    ensures SegmentMultiplier(mods, sqrt, start, end, z, n) == SegmentAverage(mods, sqrt, start, end, z, n)
  {
    assert !InActiveFootprint(mods, z, start) && !InActiveFootprint(mods, z, end);
    SegmentMultiplierCases(mods, sqrt, start, end, z, n);
  }

  /** A move along which no modifier is active at any sample point gets 1.0. */
  lemma SegmentNeutralWhereNoneActive(mods: seq<WfModifier>, sqrt: real -> real, start: Point2, end: Point2,
                                      z: real, n: nat)
    requires n > 0
    requires forall i :: 0 <= i < n ==>
      NoneActive(mods, sqrt, SamplePoint(start, end, i, n).x, SamplePoint(start, end, i, n).y, z)
    ensures SegmentMultiplier(mods, sqrt, start, end, z, n) == 1.0
  {
    var values := SampleValues(mods, sqrt, start, end, z, n);
    forall i | 0 <= i < n ensures values[i] == 1.0 {
      var p := SamplePoint(start, end, i, n);
      NeutralWhereNoneActive(mods, sqrt, p.x, p.y, z);
    }
    AverageOfConstant(mods, sqrt, start, end, z, n, 1.0);
    SegmentMultiplierCases(mods, sqrt, start, end, z, n);
  }
}
