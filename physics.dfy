/**
 * The movement state of characters: pygame's mutable `Vector2`, the
 * `Static` and `Kinematic` classes with their setters and Euler integrator,
 * and the two steering-output records. Positions and velocities are
 * `Vector2` objects, so a shallow `copy` shares them exactly as the
 * original does; the steering outputs are plain values.
 */
module Physics {
  import opened Wrappers
  import opened Vectors

  /** A pygame `Vector2`: a mutable pair. */
  class Vector2 {
    var x: real
    var y: real

    constructor (x: real, y: real)
      ensures this.x == x && this.y == y
    {
      this.x := x;
      this.y := y;
    }

    function Value(): Vec2
      reads this
    {
      Vec2(x, y)
    }
  }

  datatype SteeringOutput = SteeringOutput(linear: Vec2, angular: real)

  datatype KinematicSteeringOutput = KinematicSteeringOutput(velocity: Vec2, rotation: real)

  /** A position and an orientation. */
  class Static {
    var position: Vector2
    var orientation: real

    constructor (position: Vector2, orientation: real)
      ensures this.position == position && this.orientation == orientation
    {
      this.position := position;
      this.orientation := orientation;
    }

    /**
     * Replaces the position by a new pair, so a copy made earlier no longer
     * shares it (the original stores a tuple here).
     */
    method SetPosition(x: real, y: real)
      modifies this`position
      ensures fresh(position) && position.Value() == Vec2(x, y)
    {
      position := new Vector2(x, y);
    }

    method SetOrientation(angle: real)
      modifies this`orientation
      ensures orientation == angle
    {
      orientation := angle;
    }

    function GetPosition(): Vector2 reads this { position }

    function GetOrientation(): real reads this { orientation }

    method Copy() returns (c: Static)
      ensures fresh(c) && c.position == position && c.orientation == orientation
    {
      c := new Static(position, orientation);
    }
  }

  /** Position, orientation, velocity and angular velocity of a character. */
  class Kinematic {
    var position: Vector2
    var orientation: real
    var velocity: Vector2
    var angularVelocity: real

    constructor (position: Vector2, orientation: real, velocity: Vector2, angularVelocity: real)
      ensures this.position == position && this.orientation == orientation
      ensures this.velocity == velocity && this.angularVelocity == angularVelocity
    {
      this.position := position;
      this.orientation := orientation;
      this.velocity := velocity;
      this.angularVelocity := angularVelocity;
    }

    /** Overwrites both coordinates of the position object in place. */
    method SetPosition(x: real, y: real)
      modifies position
      ensures position.Value() == Vec2(x, y)
    {
      position.x := x;
      position.y := y;
    }

    method SetOrientation(angle: real)
      modifies this`orientation
      ensures orientation == angle
    {
      orientation := angle;
    }

    /** Writes only the components that are given (`None` leaves one alone). */
    method SetVelocity(x: Option<real>, y: Option<real>)
      modifies velocity
      ensures velocity.x == (if x.Some? then x.value else old(velocity.x))
      ensures velocity.y == (if y.Some? then y.value else old(velocity.y))
    {
      if x.Some? {
        velocity.x := x.value;
      }
      if y.Some? {
        velocity.y := y.value;
      }
    }

    method SetAngularVelocity(angularVelocity: real)
      modifies this`angularVelocity
      ensures this.angularVelocity == angularVelocity
    {
      this.angularVelocity := angularVelocity;
    }

    function GetPosition(): Vector2 reads this { position }

    function GetX(): real reads this, position { position.x }

    function GetY(): real reads this, position { position.y }

    function GetOrientation(): real reads this { orientation }

    function GetVelocity(): Vector2 reads this { velocity }

    function GetAngularVelocity(): real reads this { angularVelocity }

    /** Adds the deltas to the position object in place (0 leaves a coordinate alone). */
    method AddPosition(dx: real, dy: real)
      modifies position
      ensures position.Value() == Add(old(position.Value()), Vec2(dx, dy))
    {
      position.x := position.x + dx;
      position.y := position.y + dy;
    }

    /** A shallow copy: the new character shares both vector objects. */
    method Copy() returns (c: Kinematic)
      ensures fresh(c) && c.position == position && c.velocity == velocity
      ensures c.orientation == orientation && c.angularVelocity == angularVelocity
    {
      c := new Kinematic(position, orientation, velocity, angularVelocity);
    }

    /** The first half of both integrators: move with the current velocities. */
    method Advance(dt: real)
      requires position != velocity
      modifies this`orientation, position
      ensures position.Value() == Add(old(position.Value()), Scale(old(velocity.Value()), dt))
      ensures velocity.Value() == old(velocity.Value())
      ensures orientation == old(orientation) + old(angularVelocity) * dt
    {
      position.x := position.x + velocity.x * dt;
      position.y := position.y + velocity.y * dt;
      orientation := orientation + angularVelocity * dt;
    }

    /**
     * One Euler step: position and orientation advance with the old
     * velocities, then the velocities take the steering accelerations.
     */
    method Update(steering: SteeringOutput, dt: real)
      requires position != velocity
      modifies this`orientation, this`angularVelocity, position, velocity
      ensures position.Value() == Add(old(position.Value()), Scale(old(velocity.Value()), dt))
      ensures orientation == old(orientation) + old(angularVelocity) * dt
      ensures velocity.Value() == Add(old(velocity.Value()), Scale(steering.linear, dt))
      ensures angularVelocity == old(angularVelocity) + steering.angular * dt
    {
      Advance(dt);
      velocity.x := velocity.x + steering.linear.x * dt;
      velocity.y := velocity.y + steering.linear.y * dt;
      angularVelocity := angularVelocity + steering.angular * dt;
    }

    /**
     * The kinematic step: the position moves with the velocity before it is
     * clipped; a velocity longer than `maxSpeed` is replaced by a new vector
     * of that length in the same direction. The steering's velocity is never
     * read, only its rotation.
     */
    method UpdateWithMaxSpeed(steering: KinematicSteeringOutput, dt: real, maxSpeed: real, m: Maths)
      requires position != velocity
      modifies this`orientation, this`angularVelocity, this`velocity, position
      ensures position.Value() == Add(old(position.Value()), Scale(old(velocity.Value()), dt))
      ensures orientation == old(orientation) + old(angularVelocity) * dt
      ensures angularVelocity == old(angularVelocity) + steering.rotation * dt
      ensures if TooFast(old(velocity.Value()), maxSpeed, m) then
          fresh(velocity) && velocity.Value() == Clipped(old(velocity.Value()), maxSpeed, m)
        else
          velocity == old(velocity) && velocity.Value() == old(velocity.Value())
    {
      Advance(dt);
      var v := velocity.Value();
      assert v == old(velocity.Value());
      if TooFast(v, maxSpeed, m) {
        var clipped := Clipped(v, maxSpeed, m);
        velocity := new Vector2(clipped.x, clipped.y);
        assert velocity.Value() == clipped;
      }
      angularVelocity := angularVelocity + steering.rotation * dt;
    }
  }

  /** `magnitude(v) > max_speed`, exactly, without the square root. */
  predicate TooFast(v: Vec2, maxSpeed: real, m: Maths) {
    m.Magnitude(v) > maxSpeed
  }

  /** Too fast exactly when the squared length exceeds the squared limit (or the limit is negative). */
  lemma TooFastMeans(v: Vec2, maxSpeed: real, m: Maths)
    requires m.Valid()
    ensures TooFast(v, maxSpeed, m) <==> !(maxSpeed >= 0.0 && LengthSq(v) <= maxSpeed * maxSpeed)
  {
    m.MagnitudeIsRoot(v);
    RootAtMost(m.Magnitude(v), LengthSq(v), maxSpeed);
  }

  /** The replacement velocity: `normalize(v) * max_speed`. */
  function Clipped(v: Vec2, maxSpeed: real, m: Maths): Vec2 {
    Scale(m.Normalize(v), maxSpeed)
  }

  /** A non-zero velocity is rescaled to length `maxSpeed` along its own line. */
  lemma ClippedLength(v: Vec2, maxSpeed: real, m: Maths)
    requires m.Valid() && v != Zero
    ensures LengthSq(Clipped(v, maxSpeed, m)) == maxSpeed * maxSpeed
    ensures Clipped(v, maxSpeed, m) == Scale(v, maxSpeed / m.Magnitude(v))
  {
    var magnitude, n := m.Magnitude(v), m.Normalize(v);
    m.MagnitudeIsRoot(v);
    m.NormalizeUnit(v);
    ScaledLength(n, maxSpeed);
    ScaleTwice(v, 1.0 / magnitude, maxSpeed);
    assert (1.0 / magnitude) * maxSpeed == maxSpeed / magnitude;
  }

  lemma ScaleTwice(v: Vec2, a: real, b: real)
    ensures Scale(Scale(v, a), b) == Scale(v, a * b)
  {
    assert (v.x * a) * b == v.x * (a * b);
    assert (v.y * a) * b == v.y * (a * b);
  }

  lemma ScaledLength(v: Vec2, k: real)
    ensures LengthSq(Scale(v, k)) == LengthSq(v) * (k * k)
  {
    assert (v.x * k) * (v.x * k) == (v.x * v.x) * (k * k);
    assert (v.y * k) * (v.y * k) == (v.y * v.y) * (k * k);
  }

  /**
   * A shallow copy and its original share the position object: moving the
   * copy moves the original.
   */
  method CopySharesPosition(k: Kinematic, x: real, y: real) returns (c: Kinematic)
    modifies k.position
    ensures fresh(c) && c.position == k.position && k.GetX() == x && k.GetY() == y
  {
    c := k.Copy();
    c.SetPosition(x, y);
  }
}
