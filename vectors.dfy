/** Three-component vectors over the reals, standing in for the f32 vector type
    the renderer imports. Only the operations the core uses are defined, with
    their usual meaning; square roots are never computed here. */
module Vectors {

  datatype Vec3 = Vec3(x: real, y: real, z: real)

  /** An index 0, 1 or 2 selecting the x, y or z component. */
  type Axis = a: int | 0 <= a < 3

  const Zero := Vec3(0.0, 0.0, 0.0)
  const Ones := Vec3(1.0, 1.0, 1.0)

  function Add(u: Vec3, v: Vec3): Vec3 { Vec3(u.x + v.x, u.y + v.y, u.z + v.z) }

  function Sub(u: Vec3, v: Vec3): Vec3 { Vec3(u.x - v.x, u.y - v.y, u.z - v.z) }

  /** `v * k` */
  function Scale(v: Vec3, k: real): Vec3 { Vec3(v.x * k, v.y * k, v.z * k) }

  /** `v / k` */
  function Div(v: Vec3, k: real): Vec3
    requires k != 0.0
  {
    Vec3(v.x / k, v.y / k, v.z / k)
  }

  function Dot(u: Vec3, v: Vec3): real { u.x * v.x + u.y * v.y + u.z * v.z }

  function Cross(u: Vec3, v: Vec3): Vec3
  {
    Vec3(u.y * v.z - u.z * v.y, u.z * v.x - u.x * v.z, u.x * v.y - u.y * v.x)
  }

  /** The element-wise (direct) product. */
  function Mul(u: Vec3, v: Vec3): Vec3 { Vec3(u.x * v.x, u.y * v.y, u.z * v.z) }

  function SquareLength(v: Vec3): real { Dot(v, v) }

  /** `v.get(axis)` */
  function Get(v: Vec3, axis: Axis): real
  {
    if axis == 0 then v.x else if axis == 1 then v.y else v.z
  }

  /** A square-root function that is exact on the non-negative reals. */
  ghost predicate IsSqrt(sqrt: real -> real)
  {
    forall d :: 0.0 <= d ==> 0.0 <= sqrt(d) && sqrt(d) * sqrt(d) == d
  }

  /** Every component lies in the closed unit interval. */
  predicate InUnitCube(v: Vec3)
  {
    0.0 <= v.x <= 1.0 && 0.0 <= v.y <= 1.0 && 0.0 <= v.z <= 1.0
  }

  lemma MulNonNegative(a: real, b: real)
    requires a >= 0.0 && b >= 0.0
    ensures a * b >= 0.0
  {
  }

  lemma MulPositive(a: real, b: real)
    requires a > 0.0 && b > 0.0
    ensures a * b > 0.0
  {
  }

  lemma SquareLengthNonNegative(v: Vec3)
    ensures SquareLength(v) >= 0.0
  {
  }

  lemma ZeroSquare(x: real)
    ensures x == 0.0 ==> x * x == 0.0
  {
  }

  /** Lagrange's identity in three dimensions. */
  lemma Lagrange(u: Vec3, v: Vec3)
    ensures SquareLength(u) * SquareLength(v) == Dot(u, v) * Dot(u, v) + SquareLength(Cross(u, v))
  {
  }

  lemma CauchySchwarz(u: Vec3, v: Vec3)
    ensures Dot(u, v) * Dot(u, v) <= SquareLength(u) * SquareLength(v)
  {
    Lagrange(u, v);
    SquareLengthNonNegative(Cross(u, v));
  }

  lemma SquareStrictlyMonotonic(a: real, b: real)
    requires 0.0 <= a < b
    ensures a * a < b * b
  {
    MulPositive(b - a, b + a);
    assert b * b - a * a == (b - a) * (b + a);
  }

  /** If `x * x <= r * r` and `r` is not negative, then `-r <= x <= r`. */
  lemma SquareBound(x: real, r: real)
    requires 0.0 <= r && x * x <= r * r
    ensures -r <= x <= r
  {
    if r < x {
      SquareStrictlyMonotonic(r, x);
    }
    if x < -r {
      SquareStrictlyMonotonic(r, -x);
    }
  }

  lemma MulAtMost(a: real, b: real)
    requires a <= 1.0 && 0.0 <= b
    ensures a * b <= b
  {
  }

  /** The product of two values of the unit interval stays in it. */
  lemma UnitProduct(a: real, b: real)
    requires 0.0 <= a <= 1.0 && 0.0 <= b <= 1.0
    ensures 0.0 <= a * b <= 1.0
  {
    MulAtMost(a, b);
    MulNonNegative(a, b);
  }

  lemma MulInUnitCube(u: Vec3, v: Vec3)
    requires InUnitCube(u) && InUnitCube(v)
    ensures InUnitCube(Mul(u, v))
  {
    UnitProduct(u.x, v.x);
    UnitProduct(u.y, v.y);
    UnitProduct(u.z, v.z);
  }

  lemma DivTimes(x: real, k: real)
    requires k != 0.0
    ensures (x / k) * k == x
  {
  }

  lemma DivScale(v: Vec3, k: real)
    requires k != 0.0
    ensures Scale(Div(v, k), k) == v
  {
    DivTimes(v.x, k);
    DivTimes(v.y, k);
    DivTimes(v.z, k);
  }

  /** |v k|^2 == |v|^2 m, where m names k * k. */
  lemma SquareLengthScale(v: Vec3, k: real, m: real)
    requires m == k * k
    ensures SquareLength(Scale(v, k)) == SquareLength(v) * m
  {
  }

  lemma SquareNonZero(k: real, m: real)
    requires k != 0.0 && m == k * k
    ensures m != 0.0
  {
    if m == 0.0 {
      ZeroFactor(k, k);
    }
  }

  lemma ZeroFactor(x: real, y: real)
    requires x * y == 0.0
    ensures x == 0.0 || y == 0.0
  {
  }

  lemma CancelFactor(w: real, m: real, s: real)
    requires m != 0.0 && s == w * m && s == m
    ensures w == 1.0
  {
  }

  /** Dividing a vector of length |k| by k gives a unit vector. */
  lemma UnitNormal(d: Vec3, k: real)
    requires k != 0.0 && SquareLength(d) == k * k
    ensures SquareLength(Div(d, k)) == 1.0
  {
    var m := k * k;
    var n := Div(d, k);
    DivScale(d, k);
    SquareLengthScale(n, k, m);
    SquareNonZero(k, m);
    CancelFactor(SquareLength(n), m, SquareLength(d));
  }
}
