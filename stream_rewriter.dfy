/** The streaming rewriter: an object holding the accumulators, the last
    position, the layer height, the position log and the output written so far,
    updated one input line at a time, and the loop that feeds it a whole file. */
module StreamRewriter {
  import opened Geometry
  import opened Evaluator
  import opened LineMachine

  class Rewriter {
    const modifiers: seq<WfModifier>
    const sqrt: real -> real
    var newE: real
    var lastE: real
    var lastX: Option<real>
    var lastY: Option<real>
    var lastZ: real
    var positions: seq<Sample>
    var output: seq<OutLine>

    /** The variables the line step reads and writes. */
    function Current(): State
      reads this
    {
      State(newE, lastE, lastX, lastY, lastZ)
    }

    /** Both accumulators at zero, no position yet, layer height zero, nothing written. */
    constructor (modifiers: seq<WfModifier>, sqrt: real -> real)
      ensures this.modifiers == modifiers && this.sqrt == sqrt
      ensures Current() == Initial
      ensures positions == [] && output == []
    {
      this.modifiers := modifiers;
      this.sqrt := sqrt;
      newE, lastE := 0.0, 0.0;
      lastX, lastY := None, None;
      lastZ := 0.0;
      positions, output := [], [];
    }

    /** Handles one input line: writes exactly one output line, logs the move of
      an extrusion line, and updates the variables as the line step says. */
    method ProcessLine(l: Line)
      modifies this
      ensures var o := Step(modifiers, sqrt, old(Current()), l);
        && Current() == o.state
        && output == old(output) + [o.out]
        && positions == old(positions) + Logged(o)
    {
      if StartsWith(l.text, "G92") && 'E' in l.text {
        if l.e.Some? {
          var resetVal := l.e.value;
          lastE := resetVal;
          newE := resetVal;
        }
        output := output + [Verbatim(l.text)];
        return;
      }
      if l.z.Some? {
        lastZ := l.z.value;
      }
      if StartsWith(l.text, "G1") && 'E' in l.text {
        if l.e.Some? {
          var o := ExtrudeOnce(modifiers, sqrt, Current(), l);
          newE, lastE := o.state.newE, o.state.lastE;
          lastX, lastY := o.state.lastX, o.state.lastY;
          output := output + [o.out];
          positions := positions + [o.logged.value];
        } else {
          output := output + [Verbatim(l.text)];
        }
      } else {
        output := output + [Verbatim(l.text)];
      }
    }
  }

  /** The extrusion branch of the rewriter on the variables of state s: the E
      delta against the original accumulator, the move's endpoints, its
      multiplier, the new rewritten accumulator, the rewritten line and the log
      entry. */
  method ExtrudeOnce(modifiers: seq<WfModifier>, sqrt: real -> real, s: State, l: Line) returns (o: Outcome)
    requires l.e.Some?
    ensures o == Extrude(modifiers, sqrt, s, l)
  {
    var currentE := l.e.value;
    var deltaE := currentE - s.lastE;
    var x, y, startPt, lastX, lastY := ResolveMove(s, l);
    var endPt := Point2(x, y);
    var z := s.lastZ;
    var m := MoveMultiplierOf(modifiers, sqrt, startPt, endPt, z);
    var newE := s.newE + deltaE * m;
    o := Outcome(State(newE, currentE, lastX, lastY, z), Rewritten(l.text, newE), Some(Sample(x, y, z, m)));
  }

  /** The planar endpoints of a move line and the last position it leaves: the
      target becomes the last position only when the line has both X and Y. */
  method ResolveMove(s: State, l: Line)
    returns (x: real, y: real, startPt: Point2, lastX: Option<real>, lastY: Option<real>)
    ensures MoveOf(s, l) == Move(startPt, Point2(x, y), lastX, lastY)
  {
    lastX, lastY := s.lastX, s.lastY;
    if l.x.Some? && l.y.Some? {
      x, y := l.x.value, l.y.value;
      startPt := if lastX.Some? && lastY.Some? then Point2(lastX.value, lastY.value) else Point2(x, y);
      lastX, lastY := Some(x), Some(y);
    } else if lastX.Some? && lastY.Some? {
      x, y := lastX.value, lastY.value;
      startPt := Point2(lastX.value, lastY.value);
    } else {
      x, y := 0.0, 0.0;
      startPt := Point2(0.0, 0.0);
    }
  }

  /** A move shorter than the minimum segment length gets the point multiplier
      at its end, any other move the effective multiplier of its segment. */
  method MoveMultiplierOf(modifiers: seq<WfModifier>, sqrt: real -> real, startPt: Point2, endPt: Point2, z: real)
    returns (m: real)
    ensures m == MoveMultiplier(modifiers, sqrt, startPt, endPt, z)
  {
    var totalLength := sqrt(DistSq2(startPt, endPt));
    if totalLength < MinSegmentLength {
      m := ComputeMultiplierMultiple(modifiers, sqrt, endPt.x, endPt.y, z);
    } else {
      m := ComputeEffectiveMultiplier(modifiers, sqrt, startPt, endPt, z, NumSamples);
    }
  }

  /** Feeds every line of a file to a fresh rewriter, in order, and returns what
      it wrote and logged: exactly one output line per input line, equal to the
      run of the line step from the initial state. */
  method RewriteStream(modifiers: seq<WfModifier>, sqrt: real -> real, lines: seq<Line>)
    returns (out: seq<OutLine>, positions: seq<Sample>)
    ensures var t := Run(modifiers, sqrt, Initial, lines); out == t.out && positions == t.positions
    ensures |out| == |lines|
    ensures forall i :: 0 <= i < |lines| ==> out[i].text == lines[i].text
  {
    var r := new Rewriter(modifiers, sqrt);
    for i := 0 to |lines|
      invariant r.modifiers == modifiers && r.sqrt == sqrt
      invariant var t := Run(modifiers, sqrt, Initial, lines[..i]);
        r.Current() == t.state && r.output == t.out && r.positions == t.positions
    {
      RunSnoc(modifiers, sqrt, Initial, lines[..i], lines[i]);
      assert lines[..i + 1] == lines[..i] + [lines[i]];
      r.ProcessLine(lines[i]);
    }
    assert lines[..|lines|] == lines;
    RunKeepsLineOrder(modifiers, sqrt, Initial, lines);
    out, positions := r.output, r.positions;
  }
}
