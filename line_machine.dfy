/** The line-by-line transition of the G-code rewriter as a specification: one
    step per input line over the accumulator state, and the run over a whole
    file. The rewriter class is proved against these functions. */
module LineMachine {
  import opened Geometry
  import opened Modifiers
  import opened Evaluator

  datatype Option<T> = None | Some(value: T)

  /** One input line, already tokenised: its text and, for each of X, Y, Z and E,
      the number in the first place where that letter is directly followed by a
      number (None when there is no such place). */
  datatype Line = Line(text: string, x: Option<real>, y: Option<real>, z: Option<real>, e: Option<real>)

  /** One output line: either the input text as it was, or the input text with
      every E field replaced by the given extrusion value. */
  datatype OutLine = Verbatim(text: string) | Rewritten(text: string, e: real)

  /** The rewriter's variables: the rewritten and the original extrusion
      accumulators, the last planar position and the current layer height. */
  datatype State = State(newE: real, lastE: real, lastX: Option<real>, lastY: Option<real>, lastZ: real)

  /** One entry of the position log: where a move ended and the multiplier it got. */
  datatype Sample = Sample(x: real, y: real, z: real, multiplier: real)

  /** What one line produces: the new state, the output line and possibly a log entry. */
  datatype Outcome = Outcome(state: State, out: OutLine, logged: Option<Sample>)

  /** The state before the first line. */
  const Initial: State := State(0.0, 0.0, None, None, 0.0)

  /** Samples taken along a non-degenerate move. */
  const NumSamples: nat := 5

  predicate StartsWith(s: string, prefix: string) {
    |prefix| <= |s| && s[..|prefix|] == prefix
  }

  /** A set-position line naming E (the letter anywhere in the line). */
  predicate IsResetLine(l: Line) {
    StartsWith(l.text, "G92") && 'E' in l.text
  }

  /** A line that opens with "G1" (so also G10, G11, ...) and has an E anywhere in it. */
  predicate IsMoveLine(l: Line) {
    StartsWith(l.text, "G1") && 'E' in l.text
  }

  /** A move line whose E field carries a number: the only lines that are rewritten. */
  predicate IsExtrusion(l: Line) {
    !IsResetLine(l) && IsMoveLine(l) && l.e.Some?
  }

  function LastPosition(s: State): Option<Point2> {
    if s.lastX.Some? && s.lastY.Some? then Some(Point2(s.lastX.value, s.lastY.value)) else None
  }

  /** Where a move starts and ends, and the last position it leaves behind. */
  datatype Move = Move(start: Point2, end: Point2, lastX: Option<real>, lastY: Option<real>)

  /** The planar geometry of a move line. A line with both X and Y moves to them,
      starting from the last position if there is one and from the target
      otherwise, and becomes the last position. A line missing X or Y stays at the
      last position, or at the origin when there is none; neither case changes the
      last position. */
  function MoveOf(s: State, l: Line): Move {
    if l.x.Some? && l.y.Some? then
      var target := Point2(l.x.value, l.y.value);
      Move(if LastPosition(s).Some? then LastPosition(s).value else target, target, l.x, l.y)
    else if LastPosition(s).Some? then
      Move(LastPosition(s).value, LastPosition(s).value, s.lastX, s.lastY)
    else
      Move(Point2(0.0, 0.0), Point2(0.0, 0.0), s.lastX, s.lastY)
  }

  /** The multiplier of a move at height z: the point multiplier at the end when
      the move is shorter than the minimum segment length, otherwise the
      effective multiplier of the segment. */
  function MoveMultiplier(mods: seq<WfModifier>, sqrt: real -> real, start: Point2, end: Point2, z: real): real {
    if sqrt(DistSq2(start, end)) < MinSegmentLength then PointMultiplier(mods, sqrt, end.x, end.y, z)
    else SegmentMultiplier(mods, sqrt, start, end, z, NumSamples)
  }

  /** The layer height after a line that is not a reset: its Z if it has one. */
  function WithLayer(s: State, l: Line): State {
    if l.z.Some? then s.(lastZ := l.z.value) else s
  }

  /** An extrusion line: the original delta is scaled by the move's multiplier and
      added to the rewritten accumulator, whose new value replaces the E field. */
  function Extrude(mods: seq<WfModifier>, sqrt: real -> real, s: State, l: Line): Outcome
    requires l.e.Some?
  {
    var currentE := l.e.value;
    var deltaE := currentE - s.lastE;
    var mv := MoveOf(s, l);
    var m := MoveMultiplier(mods, sqrt, mv.start, mv.end, s.lastZ);
    var newE := s.newE + deltaE * m;
    Outcome(State(newE, currentE, mv.lastX, mv.lastY, s.lastZ),
            Rewritten(l.text, newE),
            Some(Sample(mv.end.x, mv.end.y, s.lastZ, m)))
  }

  /** One line of the rewriter. */
  function Step(mods: seq<WfModifier>, sqrt: real -> real, s: State, l: Line): (o: Outcome)
    ensures o.out.text == l.text
  {
    if IsResetLine(l) then
      var s' := if l.e.Some? then s.(newE := l.e.value, lastE := l.e.value) else s;
      Outcome(s', Verbatim(l.text), None)
    else
      var s1 := WithLayer(s, l);
      if IsMoveLine(l) && l.e.Some? then Extrude(mods, sqrt, s1, l)
      else Outcome(s1, Verbatim(l.text), None)
  }

  function Logged(o: Outcome): seq<Sample> {
    if o.logged.Some? then [o.logged.value] else []
  }

  /** What the rewriter has produced after a sequence of lines. */
  datatype Trace = Trace(state: State, out: seq<OutLine>, positions: seq<Sample>)

  /** The rewriter over a whole file: one output line per input line. */
  function Run(mods: seq<WfModifier>, sqrt: real -> real, s: State, lines: seq<Line>): (t: Trace)
    ensures |t.out| == |lines|
    decreases |lines|
  {
    if |lines| == 0 then Trace(s, [], [])
    else
      var prev := Run(mods, sqrt, s, lines[..|lines| - 1]);
      var o := Step(mods, sqrt, prev.state, lines[|lines| - 1]);
      Trace(o.state, prev.out + [o.out], prev.positions + Logged(o))
  }

  // ---------------------------------------------------------------------------
  // Properties of one step

  /** Only extrusion lines are rewritten and logged; reset lines, lines that are
      not G1 moves with an E, and such moves whose E carries no number are copied
      through. */
  lemma OnlyExtrusionsRewritten(mods: seq<WfModifier>, sqrt: real -> real, s: State, l: Line)
    ensures var o := Step(mods, sqrt, s, l);
      (o.out.Rewritten? <==> IsExtrusion(l)) && (o.logged.Some? <==> IsExtrusion(l))
    ensures IsResetLine(l) || !IsMoveLine(l) || l.e.None? ==> Step(mods, sqrt, s, l).out == Verbatim(l.text)
  {
  }

  /** A reset with a value sets both accumulators to it and resynchronises them;
      nothing else changes, not even the layer height when the line has a Z. */
  lemma ResetResynchronises(mods: seq<WfModifier>, sqrt: real -> real, s: State, l: Line)
    requires IsResetLine(l) && l.e.Some?
    ensures Step(mods, sqrt, s, l) == Outcome(s.(newE := l.e.value, lastE := l.e.value), Verbatim(l.text), None)
  {
  }

  /** A reset line whose E carries no number changes no state. */
  lemma ResetWithoutValueIsNoOp(mods: seq<WfModifier>, sqrt: real -> real, s: State, l: Line)
    requires IsResetLine(l) && l.e.None?
    ensures Step(mods, sqrt, s, l) == Outcome(s, Verbatim(l.text), None)
  {
  }

  /** Any line other than a reset that has a Z sets the layer height. */
  lemma ZSetsLayer(mods: seq<WfModifier>, sqrt: real -> real, s: State, l: Line)
    requires !IsResetLine(l) && l.z.Some?
    ensures Step(mods, sqrt, s, l).state.lastZ == l.z.value
  {
  }

  /** The extrusion law: the original accumulator takes the line's E, and the
      rewritten one grows by the original delta times the move's multiplier,
      evaluated at the layer height the same line sets. */
  lemma ExtrusionDeltaLaw(mods: seq<WfModifier>, sqrt: real -> real, s: State, l: Line)
    requires IsExtrusion(l)
    ensures var o := Step(mods, sqrt, s, l);
      var z := WithLayer(s, l).lastZ;
      var mv := MoveOf(s, l);
      && o.state.lastE == l.e.value
      && o.state.lastZ == z
      && o.state.newE == s.newE + (l.e.value - s.lastE) * MoveMultiplier(mods, sqrt, mv.start, mv.end, z)
      && o.out == Rewritten(l.text, o.state.newE)
      && o.logged == Some(Sample(mv.end.x, mv.end.y, z, MoveMultiplier(mods, sqrt, mv.start, mv.end, z)))
  {
    assert MoveOf(WithLayer(s, l), l) == MoveOf(s, l);
  }

  /** An extrusion line that repeats the last E leaves the rewritten accumulator unchanged. */
  lemma ZeroDeltaKeepsAccumulator(mods: seq<WfModifier>, sqrt: real -> real, s: State, l: Line)
    requires IsExtrusion(l) && l.e.value == s.lastE
    ensures Step(mods, sqrt, s, l).state.newE == s.newE
  {
    ExtrusionDeltaLaw(mods, sqrt, s, l);
  }

  /** With a multiplier of 1.0, the offset between the two accumulators survives
      an extrusion line. */
  lemma UnitMultiplierKeepsOffset(mods: seq<WfModifier>, sqrt: real -> real, s: State, l: Line)
    requires IsExtrusion(l)
    requires var mv := MoveOf(s, l); MoveMultiplier(mods, sqrt, mv.start, mv.end, WithLayer(s, l).lastZ) == 1.0
    ensures var o := Step(mods, sqrt, s, l); o.state.newE - o.state.lastE == s.newE - s.lastE
  {
    ExtrusionDeltaLaw(mods, sqrt, s, l);
  }

  /** A move that lacks X or Y stays at the last position, which it leaves as it
      was, and is degenerate: it gets the point multiplier there. */
  lemma PartialXYKeepsPosition(mods: seq<WfModifier>, sqrt: real -> real, s: State, l: Line)
    requires IsSqrt(sqrt)
    requires IsExtrusion(l) && !(l.x.Some? && l.y.Some?) && LastPosition(s).Some?
    ensures var o := Step(mods, sqrt, s, l); var p := LastPosition(s).value;
      && o.state.lastX == s.lastX && o.state.lastY == s.lastY
      && o.logged.value.x == p.x && o.logged.value.y == p.y
      && o.logged.value.multiplier == PointMultiplier(mods, sqrt, p.x, p.y, WithLayer(s, l).lastZ)
  {
    var p := LastPosition(s).value;
    ExtrusionDeltaLaw(mods, sqrt, s, l);
    assert DistSq2(p, p) == 0.0;
  }

  /** The first move with both X and Y starts at its own target, so it is
      degenerate and gets the point multiplier; it becomes the last position. */
  lemma FirstXYMoveUsesPointMultiplier(mods: seq<WfModifier>, sqrt: real -> real, s: State, l: Line)
    requires IsSqrt(sqrt)
    requires IsExtrusion(l) && l.x.Some? && l.y.Some? && LastPosition(s).None?
    ensures var o := Step(mods, sqrt, s, l);
      && o.state.lastX == l.x && o.state.lastY == l.y
      && o.logged.value.multiplier == PointMultiplier(mods, sqrt, l.x.value, l.y.value, WithLayer(s, l).lastZ)
  {
    var p := Point2(l.x.value, l.y.value);
    ExtrusionDeltaLaw(mods, sqrt, s, l);
    assert DistSq2(p, p) == 0.0;
  }

  /** Before any position is known, a move missing X or Y is taken at the origin
      and still leaves no last position behind. */
  lemma ColdStartAtOrigin(mods: seq<WfModifier>, sqrt: real -> real, s: State, l: Line)
    requires IsSqrt(sqrt)
    requires IsExtrusion(l) && !(l.x.Some? && l.y.Some?) && LastPosition(s).None?
    ensures var o := Step(mods, sqrt, s, l);
      && LastPosition(o.state).None?
      && o.logged.value.x == 0.0 && o.logged.value.y == 0.0
      && o.logged.value.multiplier == PointMultiplier(mods, sqrt, 0.0, 0.0, WithLayer(s, l).lastZ)
  {
    ExtrusionDeltaLaw(mods, sqrt, s, l);
    assert DistSq2(Point2(0.0, 0.0), Point2(0.0, 0.0)) == 0.0;
  }

  /** A move with both X and Y from a known position at least the minimum length
      away gets the effective multiplier of the segment between them. */
  lemma LongMoveUsesSegmentMultiplier(mods: seq<WfModifier>, sqrt: real -> real, s: State, l: Line)
    requires IsExtrusion(l) && l.x.Some? && l.y.Some? && LastPosition(s).Some?
    requires sqrt(DistSq2(LastPosition(s).value, Point2(l.x.value, l.y.value))) >= MinSegmentLength
    ensures var o := Step(mods, sqrt, s, l);
      && LastPosition(o.state) == Some(Point2(l.x.value, l.y.value))
      && o.logged.value.multiplier ==
         SegmentMultiplier(mods, sqrt, LastPosition(s).value, Point2(l.x.value, l.y.value), WithLayer(s, l).lastZ, NumSamples)
  {
    ExtrusionDeltaLaw(mods, sqrt, s, l);
  }

  // ---------------------------------------------------------------------------
  // Properties of a run

  /** The run is built line by line: the trace after one more line is the trace
      before it followed by that line's step. */
  lemma RunSnoc(mods: seq<WfModifier>, sqrt: real -> real, s: State, lines: seq<Line>, l: Line)
    ensures var prev := Run(mods, sqrt, s, lines);
      var o := Step(mods, sqrt, prev.state, l);
      Run(mods, sqrt, s, lines + [l]) == Trace(o.state, prev.out + [o.out], prev.positions + Logged(o))
  {
    assert (lines + [l])[..|lines|] == lines;
  }

  /** The output keeps the order of the input: output line i carries the text of
      input line i, and at most one position is logged per line. */
  lemma {:induction false} RunKeepsLineOrder(mods: seq<WfModifier>, sqrt: real -> real, s: State, lines: seq<Line>)
    ensures var t := Run(mods, sqrt, s, lines);
      && (forall i :: 0 <= i < |lines| ==> t.out[i].text == lines[i].text)
      && |t.positions| <= |lines|
    decreases |lines|
  {
    if |lines| > 0 {
      var init := lines[..|lines| - 1];
      RunKeepsLineOrder(mods, sqrt, s, init);
      assert forall i :: 0 <= i < |init| ==> init[i] == lines[i];
    }
  }

  /** Without modifiers every move's multiplier is 1.0. */
  lemma NoModifiersNeutralMove(sqrt: real -> real, start: Point2, end: Point2, z: real)
    ensures MoveMultiplier([], sqrt, start, end, z) == 1.0
  {
    var none: seq<WfModifier> := [];
    assert Multipliers(none, sqrt, end.x, end.y, z) == [];
    forall i | 0 <= i < NumSamples
      ensures NoneActive(none, sqrt, SamplePoint(start, end, i, NumSamples).x, SamplePoint(start, end, i, NumSamples).y, z)
    {
    }
    SegmentNeutralWhereNoneActive(none, sqrt, start, end, z, NumSamples);
  }

  /** When every move's multiplier is 1.0 (no modifiers, or modifiers whose
      centre and edge values are both 1.0) the two accumulators stay equal after
      every line, so every rewritten E field receives exactly the E value read
      from that line. */
  lemma {:induction false} UnitMultipliersKeepAccumulatorsEqual(mods: seq<WfModifier>, sqrt: real -> real, s: State, lines: seq<Line>)
    requires s.newE == s.lastE
    requires forall p, q, z :: MoveMultiplier(mods, sqrt, p, q, z) == 1.0
    ensures var t := Run(mods, sqrt, s, lines);
      && t.state.newE == t.state.lastE
      && forall i :: 0 <= i < |lines| && t.out[i].Rewritten? ==> lines[i].e == Some(t.out[i].e)
    decreases |lines|
  {
    if |lines| > 0 {
      var init, l := lines[..|lines| - 1], lines[|lines| - 1];
      assert init + [l] == lines;
      UnitMultipliersKeepAccumulatorsEqual(mods, sqrt, s, init);
      RunSnoc(mods, sqrt, s, init, l);
      var prev := Run(mods, sqrt, s, init);
      if IsExtrusion(l) {
        UnitMultiplierKeepsOffset(mods, sqrt, prev.state, l);
        ExtrusionDeltaLaw(mods, sqrt, prev.state, l);
      }
      OnlyExtrusionsRewritten(mods, sqrt, prev.state, l);
    }
  }

  /** Without modifiers the two accumulators stay equal after every line. */
  lemma NoModifiersKeepAccumulatorsEqual(sqrt: real -> real, s: State, lines: seq<Line>)
    requires s.newE == s.lastE
    ensures var t := Run([], sqrt, s, lines);
      && t.state.newE == t.state.lastE
      && forall i :: 0 <= i < |lines| && t.out[i].Rewritten? ==> lines[i].e == Some(t.out[i].e)
  {
    forall p, q, z | true
      ensures MoveMultiplier([], sqrt, p, q, z) == 1.0
    {
      NoModifiersNeutralMove(sqrt, p, q, z);
    }
    UnitMultipliersKeepAccumulatorsEqual([], sqrt, s, lines);
  }
}
