# Spatial extrusion modulation for G-code: a Dafny model

This project models the core of `gcode_post_processor.py`. That script rewrites a G-code stream. Each extrusion move's E delta is scaled by a multiplier that depends on where the move lies relative to a set of modifier regions.

The model has five modules, one per file.

- `Geometry` (`geometry.dfy`) supplies the geometric vocabulary:
  - planar and spatial points;
  - squared distances;
  - the square-root law the engine relies on;
  - strict-interior containment in a convex polygon;
  - containment in a union of polygons;
  - linear interpolation along a two-point line.
- `Modifiers` (`modifiers.dfy`) covers a single modifier (`compute_multiplier_for_modifier`). It is neutral (1.0) below its minimum layer and outside its region. Inside, it follows `center - (center - edge) * min(r / rMax, 1) ^ exponent`. The region is a planar convex footprint or a volumetric bounding sphere.
- `Evaluator` (`evaluator.dfy`) covers three functions:
  - `compute_multiplier_multiple`: the product of the per-modifier values at a point, as a loop method proved against `PointMultiplier`;
  - `compute_average_multiplier`: the midpoint-rule mean over `n` samples at fractions `(i + 0.5) / n`, as a loop method proved against `SegmentAverage`;
  - `compute_effective_multiplier`: exactly 1.0 when the start and end of a move differ in containment in the union of the active planar polygons, and the average otherwise.
- `LineMachine` (`line_machine.dfy`) is the specification of the streaming rewriter:
  - `Step` handles one line, over the state `newE`, `lastE`, `lastX`, `lastY` and `lastZ`;
  - `Run` handles a whole file.
- `StreamRewriter` (`stream_rewriter.dfy`) holds the class `Rewriter`, whose fields are those state variables plus the position log and the output written so far.
  - `ProcessLine` updates the fields for one line, proved equal to `Step`. Its extrusion branch runs on a snapshot of the state (`ExtrudeOnce`), which it then writes back.
  - `RewriteStream` feeds a fresh rewriter every input line and is proved equal to `Run`.

Inputs the model takes as given:
- The square-root function is a parameter `sqrt`. The lemmas that need it assume `IsSqrt(sqrt)`: the root of a non-negative number is non-negative and squares back to it.
- Modifier polygons and centroids are given values.
- Input lines arrive already tokenised (`LineMachine.Line`): the text plus the optional numbers after the first X, Y, Z and E fields.
- The prefix tests (`startswith("G1")`, `startswith("G92")`) and the test whether the line holds an `E` anywhere are computed from the text itself.

Three facts about the code shape the model:
- `compute_multiplier_for_modifier` divides by `r_max` with no guard against zero (`gcode_post_processor.py:125`), so the model requires `rMax > 0` of every modifier.
- A `G92` line with an `E` is copied through before the Z update (`gcode_post_processor.py:170-179`), so a Z on such a line does not set the layer height.
- With no modifiers, every extrusion line's E is re-printed from the accumulator with five decimals (`gcode_post_processor.py:208`, `:215`), so the output need not be byte-identical to the input. What holds, and is proved, is that each rewritten E value equals the E value read from that line.

`ExtrudeOnce`, `ResolveMove` and `MoveMultiplierOf` in `StreamRewriter` compute the extrusion branch on plain values, mirroring `LineMachine.Extrude`, `MoveOf` and `MoveMultiplier`. They exist to keep the proof of `ProcessLine` small: reasoning about the heap and the multiplier definitions together is expensive for the verifier.

## Model

| member | source | states |
|---|---|---|
| Geometry.DistSq2 | gcode_post_processor.py:113 | the squared planar distance is non-negative and zero between equal points |
| Geometry.DistSq3 | gcode_post_processor.py:118 | the squared spatial distance under the root is non-negative and zero at the centroid itself |
| Geometry.SqrtExceeds | gcode_post_processor.py:118-119 | the test `r3d > r_max` on the root agrees with comparing the squared distance with `r_max` squared |
| Geometry.VertexNotContained | gcode_post_processor.py:111 | containment is strict: no polygon contains one of its own vertices |
| Geometry.Interpolate | gcode_post_processor.py:143 | interpolation at fraction 0 is the start, at 1 the end, a degenerate line stays put, and the squared distance from the start scales with the fraction squared |
| Modifiers.Pow | gcode_post_processor.py:125 | a natural power of a base in [0, 1] stays in [0, 1]; power 0 is 1, a positive power of 0 is 0, any power of 1 is 1 |
| Modifiers.PowMonotone | gcode_post_processor.py:125 | the power is monotone in its base on the non-negative reals |
| Modifiers.Normalized | gcode_post_processor.py:125 | `min(r / rMax, 1) ^ exponent` lies in [0, 1] for every non-negative radius |
| Modifiers.NormalizedMonotone | gcode_post_processor.py:125 | the normalized radius does not decrease as the radius grows |
| Modifiers.LinearNormalized | gcode_post_processor.py:125 | with exponent 1 and r within rMax, the normalized radius is the plain ratio r / rMax |
| Modifiers.Gradient | gcode_post_processor.py:126 | the blended multiplier at a non-negative radius lies between the centre and the edge multipliers |
| Modifiers.GradientEnds | gcode_post_processor.py:125-126 | normalized 0 gives exactly the centre multiplier, normalized 1 exactly the edge multiplier |
| Modifiers.GradientMonotone | gcode_post_processor.py:125-126 | as the radius grows the multiplier moves monotonically from the centre value toward the edge value, in either order of the two |
| Modifiers.LinearGradientStrict | gcode_post_processor.py:125-126 | with exponent 1 and distinct centre and edge values the multiplier is strictly monotone in the radius inside rMax |
| Modifiers.NeutralBelowMinLayer | gcode_post_processor.py:107-108 | below the minimum layer a modifier returns exactly 1.0, wherever the point is |
| Modifiers.NeutralOutsidePolygon | gcode_post_processor.py:109-112 | a planar modifier returns exactly 1.0 at every point its polygon does not contain, the boundary included |
| Modifiers.NeutralOutsideSphere | gcode_post_processor.py:115-120 | a volumetric modifier returns exactly 1.0 when the squared distance to its centroid exceeds rMax squared |
| Modifiers.ActiveInsideSphere | gcode_post_processor.py:115-122 | at or above its layer, a volumetric modifier is active whenever the squared distance is at most rMax squared |
| Modifiers.NeutralWhereInactive | gcode_post_processor.py:106-124 | wherever a modifier is not active (below its layer or outside its region) it returns 1.0 |
| Modifiers.ActiveFollowsGradient | gcode_post_processor.py:106-127 | where a modifier is active its value is the gradient at the distance to its centroid, planar or spatial by kind |
| Modifiers.RadiusNonNegative | gcode_post_processor.py:113-121 | the distance a modifier feeds its gradient is never negative |
| Modifiers.MultiplierBetween | gcode_post_processor.py:125-127 | where a modifier is active its value lies between its centre and edge multipliers |
| Modifiers.CenterAtCentroid | gcode_post_processor.py:115-127 | at its own centroid an active volumetric modifier with a positive exponent returns the centre multiplier |
| Modifiers.EdgeAtRim | gcode_post_processor.py:125-126 | at or beyond rMax the ratio is clamped to 1 and an active modifier returns the edge multiplier |
| Modifiers.MultiplierMonotoneInDistance | gcode_post_processor.py:106-127 | of two points where a modifier is active, the farther one's value is no closer to the centre multiplier |
| Evaluator.ProductOfOnes | gcode_post_processor.py:131-135 | a product of ones is 1.0 |
| Evaluator.ProductOfOnesExcept | gcode_post_processor.py:131-135 | a product whose factors are all 1.0 but one equals that one factor |
| Evaluator.PointMultiplierSnoc | gcode_post_processor.py:132-134 | adding one more modifier to the list multiplies the composed value by that modifier's value |
| Evaluator.ComputeMultiplierMultiple | gcode_post_processor.py:130-135 | the accumulating loop returns the product of the per-modifier values over the whole list |
| Evaluator.NeutralWhereNoneActive | gcode_post_processor.py:130-135 | if no modifier is active at a point the composed multiplier is exactly 1.0 (so also for an empty list) |
| Evaluator.SingleActiveModifier | gcode_post_processor.py:130-135 | if only one modifier is active at a point the composed multiplier is that modifier's value |
| Evaluator.SampleFraction | gcode_post_processor.py:141-142 | every midpoint fraction (i + 0.5) / n lies strictly inside (0, 1) |
| Evaluator.ComputeAverageMultiplier | gcode_post_processor.py:138-145 | the summing loop returns the arithmetic mean of the n sample values |
| Evaluator.AverageBounds | gcode_post_processor.py:138-145 | if every sample value lies in [lo, hi] so does the average |
| Evaluator.AverageOfConstant | gcode_post_processor.py:138-145 | if every sample value is the constant c the average is exactly c |
| Evaluator.ActivePolygonsSound | gcode_post_processor.py:150 | every collected polygon belongs to a planar modifier on at the move's height |
| Evaluator.ActivePolygonsComplete | gcode_post_processor.py:150 | the polygon of every planar modifier on at the move's height is collected |
| Evaluator.UnionMatchesFootprint | gcode_post_processor.py:150-154 | a point is in the union of the collected polygons exactly when some active planar modifier contains it |
| Evaluator.SegmentMultiplierCases | gcode_post_processor.py:148-160 | the effective multiplier is exactly 1.0 when the endpoints differ in footprint containment and the sampled average otherwise, including when no planar modifier is active |
| Evaluator.ComputeEffectiveMultiplier | gcode_post_processor.py:148-160 | the branching method returns the effective multiplier of the move |
| Evaluator.CrossingMoveIsNeutral | gcode_post_processor.py:153-160 | a move from inside an active footprint to a point outside all of them gets exactly 1.0, whatever the sample count |
| Evaluator.NoFootprintMeansAverage | gcode_post_processor.py:155-158 | with no planar modifier on at the height the effective multiplier is the average |
| Evaluator.SegmentNeutralWhereNoneActive | gcode_post_processor.py:138-160 | a move along which no modifier is active at any sample point gets exactly 1.0 |
| LineMachine.Step | gcode_post_processor.py:169-221 | every line yields one output line carrying that line's text |
| LineMachine.Run | gcode_post_processor.py:168-221 | a file yields exactly as many output lines as it has input lines |
| LineMachine.RunKeepsLineOrder | gcode_post_processor.py:168-221 | output line i carries the text of input line i, and at most one position is logged per line |
| LineMachine.RunSnoc | gcode_post_processor.py:168-169 | the run over one more line is the previous run followed by that line's step |
| LineMachine.OnlyExtrusionsRewritten | gcode_post_processor.py:170-221 | a line is rewritten and logged exactly when it is a G1 line with an E that carries a number; G92 lines, other lines and G1 lines without an E number are emitted unchanged |
| LineMachine.ResetResynchronises | gcode_post_processor.py:170-178 | a G92 line with an E value sets both accumulators to it, changes nothing else (not even the layer height) and is emitted unchanged |
| LineMachine.ResetWithoutValueIsNoOp | gcode_post_processor.py:170-178 | a G92 line containing E but no E number changes no state and is emitted unchanged |
| LineMachine.ZSetsLayer | gcode_post_processor.py:179-181 | any line other than such a G92 line that has a Z sets the layer height to it |
| LineMachine.ExtrusionDeltaLaw | gcode_post_processor.py:186-217 | afterwards lastE is the line's E, newE grows by (E - lastE) times the move's multiplier at the line's own height, the E field receives the new newE, and the move's end and multiplier are logged |
| LineMachine.ZeroDeltaKeepsAccumulator | gcode_post_processor.py:186-214 | a move that repeats the last E leaves newE unchanged |
| LineMachine.UnitMultiplierKeepsOffset | gcode_post_processor.py:186-214 | with a multiplier of 1.0 an extrusion line keeps the offset newE - lastE |
| LineMachine.PartialXYKeepsPosition | gcode_post_processor.py:195-197 | a move missing X or Y stays at the last position, leaves it as it was and gets the point multiplier there |
| LineMachine.FirstXYMoveUsesPointMultiplier | gcode_post_processor.py:190-207 | the first move with X and Y starts at its own target, gets the point multiplier and becomes the last position |
| LineMachine.ColdStartAtOrigin | gcode_post_processor.py:198-207 | before any position is known a move missing X or Y is taken at the origin and leaves no last position |
| LineMachine.LongMoveUsesSegmentMultiplier | gcode_post_processor.py:190-217 | a move of at least the minimum length from a known position gets the effective multiplier of that segment |
| LineMachine.NoModifiersNeutralMove | gcode_post_processor.py:130-160 | with no modifiers every move's multiplier is 1.0, short or long |
| LineMachine.UnitMultipliersKeepAccumulatorsEqual | gcode_post_processor.py:164-217 | whenever every move's multiplier is 1.0, newE == lastE after every line of a run that starts with them equal, and every rewritten E field receives exactly the E value read from its line |
| LineMachine.NoModifiersKeepAccumulatorsEqual | gcode_post_processor.py:164-217 | the empty modifier list is one case of the unit-multiplier invariant: newE == lastE after every line, and every rewritten E field receives exactly the E value read from its line |
| StreamRewriter.Rewriter.constructor | gcode_post_processor.py:163-166 | both accumulators 0, no last position, layer height 0, empty log and output |
| StreamRewriter.Rewriter.ProcessLine | gcode_post_processor.py:169-221 | the fields after one line are the line step's new state; one output line and at most one log entry are appended |
| StreamRewriter.ExtrudeOnce | gcode_post_processor.py:186-217 | the extrusion branch computes the delta, the endpoints, the multiplier, the new accumulator, the rewritten line and the log entry the extrusion step specifies |
| StreamRewriter.ResolveMove | gcode_post_processor.py:190-201 | the three position cases yield the start, the end and the last position of the move |
| StreamRewriter.MoveMultiplierOf | gcode_post_processor.py:203-213 | a move shorter than 1e-6 gets the point multiplier at its end, any other the effective multiplier with five samples |
| StreamRewriter.RewriteStream | gcode_post_processor.py:168-221 | driving the rewriter over a file yields exactly the run of the line step: one output line per input line, in order, and the same position log |

## Left out

- Mesh loading, convex hull, centroid and `r_max` computation (`gcode_post_processor.py:14-38`, `:57-103`): library calls and file access. Each modifier's polygon, centroid and radius are given values.
- Polygon union (`unary_union`): modelled as "strictly inside at least one active polygon". This can differ from a real union on boundaries shared by two touching polygons.
- Polygon containment: modelled as the strict interior of a convex polygon given in boundary order, which is what a convex hull is. General simple polygons are not modelled.
- `math.sqrt`: a parameter constrained by `IsSqrt`. Float rounding in general is not modelled: all arithmetic is on exact reals.
- The `gradient_exponent`: restricted to a natural number, because real-valued `**` is not modelled. The configured values 1.0 and 2 are naturals.
- The unknown-modifier-type branch (`:123-124`): it cannot be represented, since a region is planar or volumetric. The loader skips unknown types.
- Modifiers.WellFormed: demands `rMax > 0` of every modifier, including where the code would not reach the division (say, outside a planar polygon). A zero radius there would be harmless in the code.
- Regex parsing of X/Y/Z/E (`:41-44`, `:171-187`): input lines arrive tokenised.
- The `f"{new_E:.5f}"` formatting and `re.sub` (`:208`, `:215`): the rewritten line is `Rewritten(text, e)`, meaning the text with every E field replaced by `e` printed to five decimals. No character-level output is produced.
- LineMachine.UnitMultipliersKeepAccumulatorsEqual: proves that every E value is preserved, not that the output is byte-identical. The code does not promise that either, because of the reformatting.
- Opening and writing the files, and the `print` of each reset (`:168`, `:176`).
- The position-range report, downsampling and the 3D plot with its slider (`:223-311`): diagnostics and user interface.
- Evaluator.PointMultiplier: its independence of modifier order and its splitting over concatenated modifier lists are not proved. Only one-modifier extension, all-neutral and single-active composition are.
