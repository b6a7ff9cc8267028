/**
 * KinematicFlee: run away from a target at full speed, pushed back from the
 * screen edges. Both implementations compute the same thing.
 */
module KinematicFlee {
  import opened Vectors
  import opened Trigonometry
  import opened Physics

  /** Distance from a screen edge at which the repulsion starts. */
  const EDGE_DISTANCE: real := 50.0

  /**
   * The repulsion along one axis at coordinate `c` of a screen `size`
   * pixels long: positive near the low edge, negative near the high one
   * (the low edge wins on a screen narrower than two margins).
   */
  function EdgePush(c: real, size: real, maxSpeed: real): real {
    if c < EDGE_DISTANCE then maxSpeed * (1.0 - c / EDGE_DISTANCE)
    else if c > size - EDGE_DISTANCE then -(maxSpeed * (1.0 - (size - c) / EDGE_DISTANCE))
    else 0.0
  }

  function EdgeForce(position: Vec2, width: real, height: real, maxSpeed: real): Vec2 {
    Vec2(EdgePush(position.x, width, maxSpeed), EdgePush(position.y, height, maxSpeed))
  }

  /** No push inside the margin box. */
  lemma EdgeForceZeroInside(position: Vec2, width: real, height: real, maxSpeed: real)
    requires EDGE_DISTANCE <= position.x <= width - EDGE_DISTANCE
    requires EDGE_DISTANCE <= position.y <= height - EDGE_DISTANCE
    ensures EdgeForce(position, width, height, maxSpeed) == Zero
  {
  }

  /**
   * On the screen the push never exceeds `maxSpeed` and points away from
   * the nearer edge: into the screen at the low edge, back at the high one.
   */
  lemma {:induction false} EdgePushBounded(c: real, size: real, maxSpeed: real)
    requires 0.0 <= c <= size && maxSpeed >= 0.0
    ensures Abs(EdgePush(c, size, maxSpeed)) <= maxSpeed
    ensures c < EDGE_DISTANCE ==> EdgePush(c, size, maxSpeed) >= 0.0
    ensures EDGE_DISTANCE <= c && c > size - EDGE_DISTANCE ==> EdgePush(c, size, maxSpeed) <= 0.0
  {
    if c < EDGE_DISTANCE {
      Fraction(maxSpeed, 1.0 - c / EDGE_DISTANCE);
    } else if c > size - EDGE_DISTANCE {
      Fraction(maxSpeed, 1.0 - (size - c) / EDGE_DISTANCE);
    }
  }

  lemma Fraction(s: real, f: real)
    requires s >= 0.0 && 0.0 <= f <= 1.0
    ensures 0.0 <= s * f <= s
  {
    assert s - s * f == s * (1.0 - f);
    if s > 0.0 {
      MulPositive(s, 1.0 - f);
      MulPositive(s, f);
    }
  }

  /** `new_orientation` of the flee behaviour: `math.atan2(v.y, v.x)` unless `v` is zero. */
  function FleeOrientation(current: real, velocity: Vec2, m: Maths): real {
    if m.Magnitude(velocity) > 0.0 then m.atan2(velocity.y, velocity.x) else current
  }

  /** The orientation is kept for a zero velocity and is the velocity's angle otherwise. */
  lemma FleeOrientationMeans(current: real, velocity: Vec2, m: Maths)
    requires m.Valid()
    ensures velocity == Zero ==> FleeOrientation(current, velocity, m) == current
    ensures velocity != Zero ==>
      FleeOrientation(current, velocity, m) == m.atan2(velocity.y, velocity.x) && -PI < FleeOrientation(current, velocity, m) <= PI
  {
    m.MagnitudeIsRoot(velocity);
  }

  /**
   * The flee velocity before the orientation update: full speed along the
   * unit vector away from the target (nothing when the two coincide) plus
   * the edge push.
   */
  function FleeVelocity(direction: Vec2, edge: Vec2, maxSpeed: real, m: Maths): Vec2 {
    Add(if direction == Zero then Zero else Scale(m.Normalize(direction), maxSpeed), edge)
  }

  /**
   * When the character sits on its target the velocity is the edge push
   * alone; away from the screen edges the character runs at exactly
   * `maxSpeed`, straight along the direction away from the target.
   */
  lemma FleeVelocityMeans(direction: Vec2, position: Vec2, width: real, height: real, maxSpeed: real, m: Maths)
    requires m.Valid()
    ensures var edge := EdgeForce(position, width, height, maxSpeed);
      var v := FleeVelocity(direction, edge, maxSpeed, m);
      (direction == Zero ==> v == edge)
      && (direction != Zero && EDGE_DISTANCE <= position.x <= width - EDGE_DISTANCE
          && EDGE_DISTANCE <= position.y <= height - EDGE_DISTANCE ==>
            v == Scale(direction, maxSpeed / m.Magnitude(direction)) && LengthSq(v) == maxSpeed * maxSpeed)
  {
    if direction != Zero && EDGE_DISTANCE <= position.x <= width - EDGE_DISTANCE
       && EDGE_DISTANCE <= position.y <= height - EDGE_DISTANCE {
      EdgeForceZeroInside(position, width, height, maxSpeed);
      m.NormalizeUnit(direction);
      var magnitude := m.Magnitude(direction);
      var unit := m.Normalize(direction);
      ScaleTwice(direction, 1.0 / magnitude, maxSpeed);
      assert (1.0 / magnitude) * maxSpeed == maxSpeed / magnitude;
      assert FleeVelocity(direction, Zero, maxSpeed, m) == Scale(unit, maxSpeed);
      ScaledLength(unit, maxSpeed);
      assert LengthSq(unit) * (maxSpeed * maxSpeed) == maxSpeed * maxSpeed;
    }
  }

  class KinematicFlee {
    const character: Static
    const target: Static
    const maxSpeed: real
    const maxDistance: real
    const screenWidth: int
    const screenHeight: int

    constructor (character: Static, target: Static, maxSpeed: real, maxDistance: real,
                 screenWidth: int, screenHeight: int)
      ensures this.character == character && this.target == target
      ensures this.maxSpeed == maxSpeed && this.maxDistance == maxDistance
      ensures this.screenWidth == screenWidth && this.screenHeight == screenHeight
    {
      this.character := character;
      this.target := target;
      this.maxSpeed := maxSpeed;
      this.maxDistance := maxDistance;
      this.screenWidth := screenWidth;
      this.screenHeight := screenHeight;
    }

    /** `get_edge_force`: accumulates the push of each axis into a zero vector. */
    method GetEdgeForce() returns (force: Vec2)
      ensures force == EdgeForce(character.position.Value(), screenWidth as real, screenHeight as real, maxSpeed)
    {
      force := Zero;
      var position := character.position;
      if position.x < EDGE_DISTANCE {
        force := force.(x := force.x + maxSpeed * (1.0 - position.x / EDGE_DISTANCE));
      } else if position.x > screenWidth as real - EDGE_DISTANCE {
        force := force.(x := force.x - maxSpeed * (1.0 - (screenWidth as real - position.x) / EDGE_DISTANCE));
      }
      if position.y < EDGE_DISTANCE {
        force := force.(y := force.y + maxSpeed * (1.0 - position.y / EDGE_DISTANCE));
      } else if position.y > screenHeight as real - EDGE_DISTANCE {
        force := force.(y := force.y - maxSpeed * (1.0 - (screenHeight as real - position.y) / EDGE_DISTANCE));
      }
    }

    /**
     * `get_steering`: full speed directly away from the target (nothing when
     * the two coincide) plus the edge push; rotation 0; the character's
     * orientation is turned to the new velocity. Positions are not touched.
     */
    method GetSteering(m: Maths) returns (result: KinematicSteeringOutput)
      requires m.Valid()
      modifies character`orientation
      ensures result.rotation == 0.0
      ensures result.velocity == FleeVelocity(
        Sub(old(character.position.Value()), old(target.position.Value())),
        EdgeForce(old(character.position.Value()), screenWidth as real, screenHeight as real, maxSpeed),
        maxSpeed, m)
      ensures character.orientation == FleeOrientation(old(character.orientation), result.velocity, m)
    {
      result := KinematicSteeringOutput(Zero, 0.0);
      var direction := Sub(character.position.Value(), target.position.Value());
      var distance := m.Magnitude(direction);
      m.MagnitudeIsRoot(direction);
      if distance > 0.0 {
        result := result.(velocity := Scale(m.Normalize(direction), maxSpeed));
      }
      var edgeForce := GetEdgeForce();
      result := result.(velocity := Add(result.velocity, edgeForce));
      assert result.velocity == FleeVelocity(direction, edgeForce, maxSpeed, m);
      var orientation := FleeOrientation(character.orientation, result.velocity, m);
      character.orientation := orientation;
      result := result.(rotation := 0.0);
    }
  }
}
