/**
 * Two-dimensional vectors as values (pygame's `Vector2` and the `(x, y)`
 * tuples the game code passes around), together with the square-root,
 * arctangent and two-argument arctangent functions the code takes from
 * `math` and pygame. Those cannot be defined over `real`, so every operation
 * that needs them receives them in a `Maths` record whose `Valid` predicate
 * states what the model relies on.
 */
module Vectors {
  datatype Vec2 = Vec2(x: real, y: real)

  const Zero := Vec2(0.0, 0.0)

  function Add(a: Vec2, b: Vec2): Vec2 { Vec2(a.x + b.x, a.y + b.y) }

  function Sub(a: Vec2, b: Vec2): Vec2 { Vec2(a.x - b.x, a.y - b.y) }

  function Scale(a: Vec2, k: real): Vec2 { Vec2(a.x * k, a.y * k) }

  /** The squared Euclidean length. */
  function LengthSq(a: Vec2): (r: real)
    ensures r >= 0.0
    ensures r == 0.0 <==> a == Zero
  {
    SquareNonNegative(a.x);
    SquareNonNegative(a.y);
    a.x * a.x + a.y * a.y
  }

  /** `root` is the (non-negative) square root of `x`. */
  ghost predicate IsRoot(root: real, x: real) {
    0.0 <= root && root * root == x
  }

  /** pi as Python's `math.pi`. */
  const PI: real := 3.141592653589793

  /** The library functions the code calls, as function values. */
  datatype Maths = Maths(sqrt: real -> real, atan: real -> real, atan2: (real, real) -> real)
  {
    ghost predicate Valid() {
      (forall x :: 0.0 <= x ==> IsRoot(sqrt(x), x))
      && atan(0.0) == 0.0
      && (forall t :: -PI / 2.0 < atan(t) < PI / 2.0)
      && (forall y, x :: -PI < atan2(y, x) <= PI)
    }

    /** pygame's `Vector2.magnitude()` / `length()`. */
    function Magnitude(v: Vec2): real {
      sqrt(LengthSq(v))
    }

    /** The magnitude is the Euclidean length, zero exactly for the zero vector. */
    lemma MagnitudeIsRoot(v: Vec2)
      requires Valid()
      ensures IsRoot(Magnitude(v), LengthSq(v))
      ensures Magnitude(v) == 0.0 <==> v == Zero
    {
      RootOfZero(Magnitude(v), LengthSq(v));
    }

    /** pygame's `Vector2.normalize()`, total here: the zero vector maps to itself. */
    function Normalize(v: Vec2): Vec2 {
      var m := Magnitude(v);
      if m == 0.0 then Zero else Scale(v, 1.0 / m)
    }

    /** A non-zero vector normalizes to the unit vector along it. */
    lemma NormalizeUnit(v: Vec2)
      requires Valid() && v != Zero
      ensures LengthSq(Normalize(v)) == 1.0
      ensures Normalize(v) == Scale(v, 1.0 / Magnitude(v))
    {
      MagnitudeIsRoot(v);
      UnitLength(v, Magnitude(v));
    }
  }

  lemma SquareNonNegative(t: real)
    ensures t * t >= 0.0
    ensures t * t == 0.0 <==> t == 0.0
  {
    if t < 0.0 {
      SquareStrict(0.0, -t);
      assert (-t) * (-t) == t * t;
    } else if t > 0.0 {
      SquareStrict(0.0, t);
    }
  }

  /** A product of a positive and a non-negative number. */
  lemma MulPositive(a: real, b: real)
    requires a > 0.0 && b >= 0.0
    ensures a * b >= 0.0
    ensures b > 0.0 ==> a * b > 0.0
  {
  }

  /** Squaring is strictly monotone on non-negative numbers. */
  lemma SquareStrict(a: real, b: real)
    requires 0.0 <= a < b
    ensures a * a < b * b
  {
    var low, middle, high := a * a, b * a, b * b;
    assert low <= middle by { assert middle - low == (b - a) * a; }
    assert middle < high by { assert high - middle == (b - a) * b; }
  }

  /** Squaring is monotone on non-negative numbers. */
  lemma SquareWeak(a: real, b: real)
    requires 0.0 <= a <= b
    ensures a * a <= b * b
  {
    if a < b {
      SquareStrict(a, b);
    }
  }

  lemma RootOfZero(root: real, x: real)
    requires IsRoot(root, x)
    ensures root == 0.0 <==> x == 0.0
  {
    SquareNonNegative(root);
  }

  lemma UnitLength(v: Vec2, m: real)
    requires IsRoot(m, LengthSq(v)) && m != 0.0
    ensures LengthSq(Scale(v, 1.0 / m)) == 1.0
  {
    var k := 1.0 / m;
    assert k * m == 1.0;
    calc {
      LengthSq(Scale(v, k));
      (v.x * k) * (v.x * k) + (v.y * k) * (v.y * k);
      (v.x * v.x + v.y * v.y) * (k * k);
      (m * m) * (k * k);
      (m * k) * (m * k);
      1.0;
    }
  }

  /** A root below a bound: the exact translation of `sqrt(x) <= r`. */
  lemma RootAtMost(root: real, x: real, bound: real)
    requires IsRoot(root, x)
    ensures root <= bound <==> (bound >= 0.0 && x <= bound * bound)
  {
    if root <= bound {
      SquareWeak(root, bound);
    } else if bound >= 0.0 {
      SquareStrict(bound, root);
    }
  }

  /** The exact translation of `sqrt(x) < r`. */
  lemma RootBelow(root: real, x: real, bound: real)
    requires IsRoot(root, x)
    ensures root < bound <==> (bound > 0.0 && x < bound * bound)
  {
    if root < bound {
      SquareStrict(root, bound);
    } else if bound > 0.0 {
      SquareWeak(bound, root);
    }
  }
}
