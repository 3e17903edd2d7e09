/** Two- and three-component vectors over the reals, standing in for the
    engine's single-precision Vector2 and Vector3. Lengths are never
    computed here: a square root is not available over `real`, so a caller
    that needs `v.magnitude` supplies a number `m` with `IsMagnitude(m, v)`.
 */
module Vectors {

  datatype Vec2 = Vec2(x: real, y: real)

  datatype Vec3 = Vec3(x: real, y: real, z: real)

  const Zero: Vec2 := Vec2(0.0, 0.0)

  /** World up, the engine's `Vector2.up`. */
  const Up: Vec2 := Vec2(0.0, 1.0)

  function Abs(a: real): (r: real)
    ensures r >= 0.0
    ensures r == a || r == -a
  {
    if a < 0.0 then -a else a
  }

  lemma AbsSquared(a: real)
    ensures Abs(a) * Abs(a) == a * a
  {
    if a < 0.0 {
      assert (-a) * (-a) == a * a;
    }
  }

  function Add(a: Vec2, b: Vec2): Vec2 {
    Vec2(a.x + b.x, a.y + b.y)
  }

  function Sub(a: Vec2, b: Vec2): Vec2 {
    Vec2(a.x - b.x, a.y - b.y)
  }

  function Neg(a: Vec2): Vec2 {
    Vec2(-a.x, -a.y)
  }

  function Scale(k: real, a: Vec2): Vec2 {
    Vec2(k * a.x, k * a.y)
  }

  function Dot(a: Vec2, b: Vec2): real {
    a.x * b.x + a.y * b.y
  }

  /** `m` is the Euclidean length of `v`. */
  predicate IsMagnitude(m: real, v: Vec2) {
    m >= 0.0 && m * m == Dot(v, v)
  }

  predicate IsUnit(v: Vec2) {
    Dot(v, v) == 1.0
  }

  /** The engine's `v.normalized`, given the length `m` of `v`. */
  function Normalized(v: Vec2, m: real): (r: Vec2)
    ensures m <= 0.0 || v == Zero ==> r == Zero
  {
    if m > 0.0 then Scale(1.0 / m, v) else Zero
  }

  /** Normalising gives a unit vector, and scaling it back by the length
      recovers the original vector. */
  lemma NormalizedRoundTrip(v: Vec2, m: real)
    ensures IsMagnitude(m, v) && m > 0.0 ==> IsUnit(Normalized(v, m))
    ensures IsMagnitude(m, v) && m > 0.0 ==> Scale(m, Normalized(v, m)) == v
  {
    if IsMagnitude(m, v) && m > 0.0 {
      var k := 1.0 / m;
      assert k * m == 1.0;
      DotScaled(k, v);
      assert (k * k) * (m * m) == (k * m) * (k * m);
    }
  }

  lemma PositiveProduct(a: real, b: real)
    requires a > 0.0 && b > 0.0
    ensures a * b > 0.0
  {
  }

  lemma NegativeFactor(a: real, b: real)
    requires a > 0.0 && a * b < 0.0
    ensures b < 0.0
  {
  }

  /** Squaring is monotone on non-negative numbers, read backwards. */
  lemma SquareBelow(a: real, b: real)
    requires a >= 0.0 && b >= 0.0 && a * a < b * b
    ensures a < b
  {
  }

  lemma DotScaled(k: real, v: Vec2)
    ensures Dot(Scale(k, v), Scale(k, v)) == (k * k) * Dot(v, v)
  {
  }

  /** Scaling a vector by `k` scales its length by `|k|`. */
  lemma ScaledMagnitude(k: real, m: real, v: Vec2)
    requires IsMagnitude(m, v)
    ensures IsMagnitude(Abs(k) * m, Scale(k, v))
  {
    DotScaled(k, v);
    AbsSquared(k);
    assert (Abs(k) * m) * (Abs(k) * m) == (Abs(k) * Abs(k)) * (m * m);
  }
}
