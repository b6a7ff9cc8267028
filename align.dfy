/**
 * Align: the angular controller that turns a character towards its target's
 * orientation. It follows the logic of both Align implementations, which
 * compute the same result. The one in `utils/align.py` imports
 * `utils.physics`, which cannot run as written, so only its logic is
 * modelled. Python's `ZeroDivisionError`s are the `ZeroDivision` outcome.
 */
module Align {
  import opened Wrappers
  import opened Vectors
  import opened Trigonometry
  import opened Physics

  datatype Outcome = Steering(output: SteeringOutput) | ZeroDivision

  /** -1, 0 or 1 by the sign of `a` (what `a / abs(a)` gives for `a != 0`). */
  function Sign(a: real): real { if a > 0.0 then 1.0 else if a < 0.0 then -1.0 else 0.0 }

  /**
   * The target rotation speed in the direction of `rotation`: full
   * `maxRotation` outside `slowRadius`, scaled down linearly inside it.
   * `None` is a division by zero.
   */
  function TargetRotation(rotation: real, maxRotation: real, slowRadius: real): (r: Option<real>)
    ensures r.None? <==> rotation == 0.0 || (Abs(rotation) <= slowRadius && slowRadius == 0.0)
    ensures r.Some? ==> Sign(r.value) == Sign(rotation) * Sign(maxRotation)
    ensures r.Some? && Abs(rotation) > slowRadius ==> r.value == Sign(rotation) * maxRotation
    ensures r.Some? ==> Abs(r.value) <= Abs(maxRotation)
  {
    var size := Abs(rotation);
    if size <= slowRadius && slowRadius == 0.0 then None
    else
      var speed := if size > slowRadius then maxRotation else maxRotation * size / slowRadius;
      if size == 0.0 then None
      else
        ScaledSpeed(maxRotation, size, slowRadius);
        assert rotation / size == Sign(rotation);
        Some(speed * (rotation / size))
  }

  lemma ScaledSpeed(maxRotation: real, size: real, slowRadius: real)
    requires 0.0 < size
    ensures size <= slowRadius ==> Abs(maxRotation * size / slowRadius) <= Abs(maxRotation)
    ensures size <= slowRadius ==> Sign(maxRotation * size / slowRadius) == Sign(maxRotation)
  {
    if size <= slowRadius {
      var f := size / slowRadius;
      assert 0.0 < f <= 1.0;
      assert maxRotation * size / slowRadius == maxRotation * f;
      if maxRotation > 0.0 {
        MulPositive(maxRotation, f);
        MulWeak(f, 1.0, maxRotation);
        assert f * maxRotation == maxRotation * f;
      } else if maxRotation < 0.0 {
        var n := -maxRotation;
        MulPositive(n, f);
        MulWeak(f, 1.0, n);
        assert f * n == n * f;
        assert maxRotation * f == -(n * f);
        assert Abs(maxRotation * f) == n * f;
      }
    }
  }

  lemma MulWeak(a: real, b: real, c: real)
    requires a <= b && c > 0.0
    ensures a * c <= b * c
  {
    assert b * c - a * c == (b - a) * c;
    MulPositive(c, b - a);
    assert c * (b - a) == (b - a) * c;
  }

  /**
   * Limits an acceleration to `maxAngularAcceleration` in size, keeping its
   * sign. `None` is the division by zero that a negative limit and a zero
   * acceleration cause.
   */
  function Clip(angular: real, maxAngularAcceleration: real): (r: Option<real>)
    ensures r.None? <==> angular == 0.0 && maxAngularAcceleration < 0.0
    ensures Abs(angular) <= maxAngularAcceleration ==> r == Some(angular)
    ensures r.Some? && maxAngularAcceleration >= 0.0 ==> Abs(r.value) <= maxAngularAcceleration
    ensures r.Some? && maxAngularAcceleration > 0.0 ==> Sign(r.value) == Sign(angular)
  {
    if Abs(angular) > maxAngularAcceleration then
      if Abs(angular) == 0.0 then None
      else
        assert angular / Abs(angular) == Sign(angular);
        assert maxAngularAcceleration * angular / Abs(angular)
            == maxAngularAcceleration * (angular / Abs(angular));
        Some(maxAngularAcceleration * angular / Abs(angular))
    else Some(angular)
  }

  /**
   * The whole controller on the orientations and the character's angular
   * velocity.
   */
  function AlignSteering(targetOrientation: real, characterOrientation: real, angularVelocity: real,
                         maxAngularAcceleration: real, maxRotation: real, targetRadius: real,
                         slowRadius: real, timeToTarget: real): (r: Outcome)
    ensures r.Steering? ==> r.output.linear == Zero
    ensures var rotation := MapToRange(targetOrientation - characterOrientation);
      Abs(rotation) < targetRadius ==> r == Steering(SteeringOutput(Zero, 0.0))
    ensures r.Steering? && maxAngularAcceleration >= 0.0 ==> Abs(r.output.angular) <= maxAngularAcceleration
    ensures targetRadius > 0.0 && slowRadius > 0.0 && timeToTarget != 0.0 && maxAngularAcceleration >= 0.0
      ==> r.Steering?
  {
    var rotation := MapToRange(targetOrientation - characterOrientation);
    if Abs(rotation) < targetRadius then Steering(SteeringOutput(Zero, 0.0))
    else
      match TargetRotation(rotation, maxRotation, slowRadius)
      case None => ZeroDivision
      case Some(targetRotation) =>
        if timeToTarget == 0.0 then ZeroDivision
        else
          match Clip((targetRotation - angularVelocity) / timeToTarget, maxAngularAcceleration)
          case None => ZeroDivision
          case Some(angular) => Steering(SteeringOutput(Zero, angular))
  }

  /**
   * Outside the target radius the result is the clipped acceleration that
   * would reach the target rotation in `timeToTarget`.
   */
  lemma AlignAccelerates(targetOrientation: real, characterOrientation: real, angularVelocity: real,
                         maxAngularAcceleration: real, maxRotation: real, targetRadius: real,
                         slowRadius: real, timeToTarget: real)
    requires targetRadius > 0.0 && slowRadius > 0.0 && timeToTarget != 0.0 && maxAngularAcceleration > 0.0
    requires Abs(MapToRange(targetOrientation - characterOrientation)) >= targetRadius
    ensures var rotation := MapToRange(targetOrientation - characterOrientation);
      var r := AlignSteering(targetOrientation, characterOrientation, angularVelocity,
                             maxAngularAcceleration, maxRotation, targetRadius, slowRadius, timeToTarget);
      var desired := (TargetRotation(rotation, maxRotation, slowRadius).value - angularVelocity) / timeToTarget;
      r.Steering?
      && (Abs(desired) <= maxAngularAcceleration ==> r.output.angular == desired)
      && (Abs(desired) > maxAngularAcceleration ==> r.output.angular == maxAngularAcceleration * Sign(desired))
  {
    var rotation := MapToRange(targetOrientation - characterOrientation);
    var desired := (TargetRotation(rotation, maxRotation, slowRadius).value - angularVelocity) / timeToTarget;
    if Abs(desired) > maxAngularAcceleration {
      assert desired / Abs(desired) == Sign(desired);
      assert maxAngularAcceleration * desired / Abs(desired) == maxAngularAcceleration * (desired / Abs(desired));
    }
  }

  /** An Align behaviour: `get_steering` only reads the two characters. */
  datatype Align = Align(character: Kinematic, target: Kinematic, maxAngularAcceleration: real,
                         maxRotation: real, targetRadius: real, slowRadius: real, timeToTarget: real)
  {
    function GetSteering(): (r: Outcome)
      reads character, target
      ensures r.Steering? ==> r.output.linear == Zero
      ensures Abs(MapToRange(target.orientation - character.orientation)) < targetRadius
        ==> r == Steering(SteeringOutput(Zero, 0.0))
      ensures r.Steering? && maxAngularAcceleration >= 0.0 ==> Abs(r.output.angular) <= maxAngularAcceleration
    {
      AlignSteering(target.orientation, character.orientation, character.angularVelocity,
                    maxAngularAcceleration, maxRotation, targetRadius, slowRadius, timeToTarget)
    }
  }
}
