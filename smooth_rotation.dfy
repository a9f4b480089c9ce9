/** The arithmetic of `smoothRotate`: the shortest signed turn from the current angle to
    the target, the number of 20 ms ticks, and the angle written at each tick. */
module SmoothRotation {
  import opened Numbers

  /** The pause between two ticks of an animation, in milliseconds. */
  const TickMs: int := 20

  function Abs(x: real): real {
    if x < 0.0 then -x else x
  }

  /** `target - start`, moved by one turn when it exceeds half a turn either way. */
  function ShortestDelta(start: real, target: real): (delta: real)
    requires 0.0 <= start < 360.0 && 0.0 <= target < 360.0
    ensures -180.0 <= delta <= 180.0
    ensures delta == target - start || delta == target - start - 360.0 || delta == target - start + 360.0
  {
    var delta := target - start;
    var delta' := if delta > 180.0 then delta - 360.0 else delta;
    if delta' < -180.0 then delta' + 360.0 else delta'
  }

  /** Turning by the delta from `start` faces the target. */
  lemma ShortestDeltaReachesTarget(start: real, target: real)
    requires 0.0 <= start < 360.0 && 0.0 <= target < 360.0
    ensures NormalizeAngle(start + ShortestDelta(start, target)) == target
  {
    var delta := ShortestDelta(start, target);
    NormalizeAngleFixes(target);
    if delta == target - start - 360.0 {
      NormalizeAnglePeriodic(target, -1);
    } else if delta == target - start + 360.0 {
      NormalizeAnglePeriodic(target, 1);
    }
  }

  /** No turn that faces the target is shorter: the animation never goes the long way round. */
  lemma ShortestDeltaIsShortest(start: real, target: real, other: real)
    requires 0.0 <= start < 360.0 && 0.0 <= target < 360.0
    requires NormalizeAngle(start + other) == target
    ensures Abs(ShortestDelta(start, target)) <= Abs(other)
  {
    var delta := ShortestDelta(start, target);
    ShortestDeltaReachesTarget(start, target);
    SameDirection(start + other, start + delta);
    var k := ((start + other) / 360.0).Floor - ((start + delta) / 360.0).Floor;
    assert other == delta + 360.0 * k as real;
    if k >= 1 {
      assert other >= 180.0;
    } else if k <= -1 {
      assert other <= -180.0;
    }
  }

  /** `Math.max(1, Math.idiv(duration, interval))`: the number of ticks. */
  function RotationSteps(duration: int): (steps: int)
    ensures steps >= 1
    ensures 0 < duration < TwoTo31 ==> steps == Max(1, duration / TickMs)
  {
    Max(1, Idiv(duration, TickMs))
  }

  /** The angle passed to `setRotation` at tick `i`: `start + delta * (i / steps)`. */
  function StepAngle(start: real, delta: real, i: int, steps: int): real
    requires steps >= 1
  {
    start + delta * (i as real / steps as real)
  }

  /** The last tick lands exactly on `start + delta`. */
  lemma LastStepArrives(start: real, delta: real, steps: int)
    requires steps >= 1
    ensures StepAngle(start, delta, steps, steps) == start + delta
  {
    assert steps as real / steps as real == 1.0;
  }

  /** Every tick advances by the same `delta / steps`, at most 180 / steps degrees. */
  lemma StepsAreEven(start: real, delta: real, i: int, steps: int)
    requires steps >= 1 && -180.0 <= delta <= 180.0
    ensures StepAngle(start, delta, i + 1, steps) - StepAngle(start, delta, i, steps) == delta / steps as real
    ensures Abs(delta / steps as real) <= 180.0 / steps as real
  {
    var n := steps as real;
    calc {
      StepAngle(start, delta, i + 1, steps) - StepAngle(start, delta, i, steps);
      delta * ((i as real + 1.0) / n) - delta * (i as real / n);
      { assert (i as real + 1.0) / n == i as real / n + 1.0 / n; }
      delta * (1.0 / n);
      delta / n;
    }
    if delta < 0.0 {
      assert -delta / n <= 180.0 / n;
    }
  }

  /** Every tick from 0 to `steps` lies on the short arc between `start` and `start + delta`. */
  lemma StepStaysOnArc(start: real, delta: real, i: int, steps: int)
    requires steps >= 1 && 0 <= i <= steps
    ensures Abs(StepAngle(start, delta, i, steps) - start) <= Abs(delta)
  {
    var f := i as real / steps as real;
    assert 0.0 <= f <= 1.0;
    if delta >= 0.0 {
      assert 0.0 <= delta * f <= delta;
    } else {
      assert delta <= delta * f <= 0.0;
    }
  }

  /** The angles written at ticks 1 to `steps`. */
  function TickAngles(start: real, delta: real, steps: int): (angles: seq<real>)
    requires steps >= 1
    ensures |angles| == steps
    ensures forall i :: 0 <= i < steps ==> angles[i] == StepAngle(start, delta, i + 1, steps)
  {
    seq(steps, i => StepAngle(start, delta, i + 1, steps))
  }

  /** The arguments of the successive `setRotation` calls of a `smoothRotate` task started at
      `start`: one per tick, then the normalised target. */
  function RotationPlan(start: real, targetAngle: real, duration: int): (plan: seq<real>)
    requires 0.0 <= start < 360.0
    ensures |plan| == RotationSteps(duration) + 1
    ensures plan[|plan| - 1] == NormalizeAngle(targetAngle)
  {
    var target := NormalizeAngle(targetAngle);
    var delta := ShortestDelta(start, target);
    var steps := RotationSteps(duration);
    TickAngles(start, delta, steps) + [target]
  }

  /** The last tick already faces the target, so the final forced write changes nothing in
      exact arithmetic; it only removes rounding drift. */
  lemma PlanLastTickFacesTarget(start: real, targetAngle: real, duration: int)
    requires 0.0 <= start < 360.0
    ensures var plan := RotationPlan(start, targetAngle, duration);
      NormalizeAngle(plan[|plan| - 2]) == plan[|plan| - 1]
  {
    var target := NormalizeAngle(targetAngle);
    var steps := RotationSteps(duration);
    LastStepArrives(start, ShortestDelta(start, target), steps);
    ShortestDeltaReachesTarget(start, target);
  }

  /** From 350 degrees to 10 over 500 ms: 25 ticks of +0.8 degrees each, ending at 10. */
  lemma SmoothRotateExample()
    ensures ShortestDelta(350.0, 10.0) == 20.0
    ensures RotationSteps(500) == 25
    ensures RotationPlan(350.0, 10.0, 500)[25] == 10.0
    ensures forall i :: 0 <= i < 25 ==> RotationPlan(350.0, 10.0, 500)[i] == 350.0 + 0.8 * (i + 1) as real
  {
    NormalizeAngleFixes(10.0);
    var plan := RotationPlan(350.0, 10.0, 500);
    forall i | 0 <= i < 25
      ensures plan[i] == 350.0 + 0.8 * (i + 1) as real
    {
      assert plan[i] == StepAngle(350.0, 20.0, i + 1, 25);
    }
  }
}
