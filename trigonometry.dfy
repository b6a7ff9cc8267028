/**
 * The angle helpers of the trigonometry module (the tuple and the `Vector2`
 * variants are the same functions over `Vec2`). `magnitude` and `normalize`
 * are `Maths.Magnitude` and `Maths.Normalize` in module Vectors.
 */
module Trigonometry {
  import opened Vectors

  /** Python's float `%`: the remainder takes the sign of the divisor. */
  function PyMod(a: real, m: real): (r: real)
    requires m > 0.0
    ensures 0.0 <= r < m
  {
    FloorBounds(a, m);
    a - m * ((a / m).Floor as real)
  }

  lemma FloorBounds(a: real, m: real)
    requires m > 0.0
    ensures m * ((a / m).Floor as real) <= a < m * ((a / m).Floor as real) + m
  {
    var q := a / m;
    var f := q.Floor as real;
    ProductBelow(m, f, q);
    ProductBelow(m, q, f + 1.0);
    assert m * (f + 1.0) == m * f + m;
    assert m * q == a;
  }

  /** Multiplying by a positive factor keeps the order. */
  lemma ProductBelow(m: real, x: real, y: real)
    requires m > 0.0 && x <= y
    ensures m * x <= m * y
    ensures x < y ==> m * x < m * y
  {
    MulPositive(m, y - x);
    assert m * (y - x) == m * y - m * x;
  }

  /** `map_to_range`: wraps an angle by `(a + pi) % (2 pi) - pi`. */
  function MapToRange(angle: real): (r: real)
    ensures -PI <= r < PI
  {
    PyMod(angle + PI, 2.0 * PI) - PI
  }

  /** `a` and `b` differ by `k` full turns. */
  ghost predicate DiffersByTurns(a: real, b: real, k: int) {
    a - b == 2.0 * PI * (k as real)
  }

  /** The wrapped angle names the same direction as the input. */
  lemma MapToRangeCongruent(angle: real)
    ensures exists k: int :: DiffersByTurns(MapToRange(angle), angle, k)
  {
    var k := -(((angle + PI) / (2.0 * PI)).Floor);
    assert DiffersByTurns(MapToRange(angle), angle, k);
  }

  /**
   * `[-pi, pi)` holds exactly one representative of each direction, and
   * `map_to_range` returns it; in particular wrapping twice changes nothing.
   */
  lemma MapToRangeCanonical(angle: real, b: real, k: int)
    requires -PI <= b < PI && DiffersByTurns(b, angle, k)
    ensures MapToRange(angle) == b
  {
    var q := (angle + PI) / (2.0 * PI);
    assert q == (b + PI) / (2.0 * PI) - k as real;
    assert 0.0 <= (b + PI) / (2.0 * PI) < 1.0;
    assert q.Floor == -k;
  }

  lemma MapToRangeIdempotent(angle: real)
    ensures MapToRange(MapToRange(angle)) == MapToRange(angle)
  {
    MapToRangeCanonical(MapToRange(angle), MapToRange(angle), 0);
  }

  /** `in_radius`: the strict squared comparison. */
  function InRadius(v: Vec2, radius: real): bool {
    LengthSq(v) < radius * radius
  }

  /** `in_radius` holds exactly when the vector is shorter than `|radius|`. */
  lemma InRadiusMeansShorter(v: Vec2, radius: real, length: real)
    requires IsRoot(length, LengthSq(v))
    ensures InRadius(v, radius) <==> length < Abs(radius)
  {
    RootBelow(length, LengthSq(v), Abs(radius));
    assert Abs(radius) * Abs(radius) == radius * radius;
    RootOfZero(length, LengthSq(v));
  }

  function Abs(a: real): real { if a < 0.0 then -a else a }

  /**
   * The custom `atan2(x, y)`: the angle of the point `(x, y)`, special-cased
   * on the vertical axis and shifted by pi on the left half-plane.
   */
  function Atan2(x: real, y: real, m: Maths): (r: real)
    requires m.Valid()
    ensures -PI / 2.0 <= r < 3.0 * PI / 2.0
  {
    if x == 0.0 then
      if y > 0.0 then PI / 2.0 else if y < 0.0 then -PI / 2.0 else 0.0
    else
      var angle := m.atan(y / x);
      if x > 0.0 then angle else angle + PI
  }

  /** The four axis directions of the custom `atan2`. */
  lemma Atan2OnAxes(t: real, m: Maths)
    requires m.Valid() && t > 0.0
    ensures Atan2(0.0, t, m) == PI / 2.0 && Atan2(0.0, -t, m) == -PI / 2.0
    ensures Atan2(t, 0.0, m) == 0.0 && Atan2(-t, 0.0, m) == PI
    ensures Atan2(0.0, 0.0, m) == 0.0
  {
    assert 0.0 / t == 0.0 && 0.0 / -t == 0.0;
  }

  /**
   * `new_orientation`: keeps the orientation for a zero velocity, else
   * `atan2(velocity.y, velocity.x)` -- the components go to the custom
   * `atan2(x, y)` in swapped order.
   */
  function NewOrientation(orientation: real, velocity: Vec2, m: Maths): (r: real)
    requires m.Valid()
    ensures velocity == Zero ==> r == orientation
    ensures velocity != Zero ==> -PI / 2.0 <= r < 3.0 * PI / 2.0
  {
    if velocity.x == 0.0 && velocity.y == 0.0 then orientation
    else Atan2(velocity.y, velocity.x, m)
  }

  /**
   * Because of the swap, moving along +x is reported as pi/2 and moving
   * along +y as 0, the mirror image of the usual convention.
   */
  lemma NewOrientationSwapsAxes(orientation: real, t: real, m: Maths)
    requires m.Valid() && t > 0.0
    ensures NewOrientation(orientation, Vec2(t, 0.0), m) == PI / 2.0
    ensures NewOrientation(orientation, Vec2(0.0, t), m) == 0.0
    ensures NewOrientation(orientation, Vec2(-t, 0.0), m) == -PI / 2.0
    ensures NewOrientation(orientation, Vec2(0.0, -t), m) == PI
  {
    Atan2OnAxes(t, m);
  }
}
