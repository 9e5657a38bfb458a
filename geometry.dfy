/**
 * Three-dimensional vectors over the reals and the few engine primitives
 * (square root, normalisation, reflection) that the simulation relies on.
 * The primitives are not computed: they travel as parameters in a
 * Numerics record, so every property proved about the simulation holds
 * for any implementation of them that meets the stated assumptions.
 */
module Geometry {

  datatype Vec3 = Vec3(x: real, y: real, z: real)

  const Zero := Vec3(0.0, 0.0, 0.0)

  function Add(u: Vec3, v: Vec3): Vec3 {
    Vec3(u.x + v.x, u.y + v.y, u.z + v.z)
  }

  function Sub(u: Vec3, v: Vec3): Vec3 {
    Vec3(u.x - v.x, u.y - v.y, u.z - v.z)
  }

  /** `v * s` */
  function Scale(v: Vec3, s: real): Vec3 {
    Vec3(v.x * s, v.y * s, v.z * s)
  }

  /** `v / s`, component by component. */
  function Divide(v: Vec3, s: real): Vec3
    requires s != 0.0
  {
    Vec3(v.x / s, v.y / s, v.z / s)
  }

  function Dot(u: Vec3, v: Vec3): real {
    u.x * v.x + u.y * v.y + u.z * v.z
  }

  /** The right-handed cross product, component order as in the engine. */
  function Cross(u: Vec3, v: Vec3): Vec3 {
    Vec3(u.y * v.z - u.z * v.y, u.z * v.x - u.x * v.z, u.x * v.y - u.y * v.x)
  }

  function SqrMagnitude(v: Vec3): real {
    Dot(v, v)
  }

  type NonNegReal = r: real | 0.0 <= r

  /**
   * The engine's numerical primitives: `Mathf.Sqrt`, `Vector3.normalized`
   * and `Vector3.Reflect(direction, normal)`. Only the sign of the square
   * root is built in (through its result type); anything more is asked for
   * explicitly with ExactSqrt or IsMirror.
   */
  datatype Numerics = Numerics(
    sqrt: real -> NonNegReal,
    normalize: Vec3 -> Vec3,
    reflect: (Vec3, Vec3) -> Vec3)

  /** The square root is exact on the non-negative reals. */
  ghost predicate ExactSqrt(m: Numerics) {
    forall x: real :: 0.0 <= x ==> Sq(m.sqrt(x)) == x
  }

  /** `Vector3.magnitude` and `Vector3.Distance`. */
  function Magnitude(m: Numerics, v: Vec3): NonNegReal {
    m.sqrt(SqrMagnitude(v))
  }

  /**
   * `Vector3.normalized` as documented: the vector divided by its magnitude,
   * or the zero vector when the magnitude is at most 1e-5.
   */
  ghost predicate ExactNormalize(m: Numerics) {
    forall v: Vec3 :: m.normalize(v) == if Magnitude(m, v) > 0.00001 then Divide(v, Magnitude(m, v)) else Zero
  }

  /** The documented reflection formula `d - 2 (d . n) n`. */
  function Mirror(d: Vec3, n: Vec3): Vec3 {
    Sub(d, Scale(n, 2.0 * Dot(d, n)))
  }

  ghost predicate IsMirror(m: Numerics) {
    forall d: Vec3, n: Vec3 :: m.reflect(d, n) == Mirror(d, n)
  }

  function Sq(x: real): real {
    x * x
  }

  /** `Mathf.Min(a, b)` */
  function MinOf(a: real, b: real): (r: real)
    ensures r <= a && r <= b
    ensures r == a || r == b
  {
    if a < b then a else b
  }

  /** `Mathf.Max(a, b)` */
  function MaxOf(a: real, b: real): (r: real)
    ensures a <= r && b <= r
    ensures r == a || r == b
  {
    if a > b then a else b
  }

  /** A non-zero real has a positive square. */
  lemma SquarePositive(x: real)
    requires x != 0.0
    ensures Sq(x) > 0.0
  {
    if x > 0.0 {
      calc { Sq(x); x * x; > 0.0; }
    } else {
      calc { Sq(x); (-x) * (-x); > 0.0; }
    }
  }

  lemma SquareNonNegative(x: real)
    ensures !(Sq(x) < 0.0)
  {
    if x != 0.0 {
      SquarePositive(x);
    }
  }

  lemma SqrMagnitudeSquares(v: Vec3)
    ensures SqrMagnitude(v) == Sq(v.x) + Sq(v.y) + Sq(v.z)
  {
  }

  /** The squared magnitude is never negative and vanishes only on the zero vector. */
  lemma SqrMagnitudeSign(v: Vec3)
    ensures !(SqrMagnitude(v) < 0.0)
    ensures v == Zero || SqrMagnitude(v) > 0.0
  {
    SqrMagnitudeSquares(v);
    SquareNonNegative(v.x);
    SquareNonNegative(v.y);
    SquareNonNegative(v.z);
    if v.x != 0.0 { SquarePositive(v.x); }
    if v.y != 0.0 { SquarePositive(v.y); }
    if v.z != 0.0 { SquarePositive(v.z); }
  }

  /** Lagrange's identity: |u|^2 |v|^2 - (u . v)^2 == |u x v|^2. */
  lemma DivideDot(u: Vec3, s: real, v: Vec3)
    requires s != 0.0
    ensures Dot(Divide(u, s), v) == Dot(u, v) / s
  {
  }

  lemma DivideSqrMagnitude(u: Vec3, s: real)
    requires s != 0.0
    ensures SqrMagnitude(Divide(u, s)) * Sq(s) == SqrMagnitude(u)
  {
    var w := Divide(u, s);
    assert w.x * s == u.x && w.y * s == u.y && w.z * s == u.z;
    assert SqrMagnitude(w) * Sq(s) == Sq(w.x * s) + Sq(w.y * s) + Sq(w.z * s);
  }

  lemma Lagrange(u: Vec3, v: Vec3)
    ensures SqrMagnitude(u) * SqrMagnitude(v) - Sq(Dot(u, v)) == SqrMagnitude(Cross(u, v))
  {
  }

  /** The Cauchy-Schwarz inequality, from Lagrange's identity. */
  lemma CauchySchwarz(u: Vec3, v: Vec3)
    ensures !(SqrMagnitude(u) * SqrMagnitude(v) < Sq(Dot(u, v)))
  {
    Lagrange(u, v);
    SqrMagnitudeSign(Cross(u, v));
  }

  lemma MirrorSqrMagnitude(d: Vec3, n: Vec3)
    ensures SqrMagnitude(Mirror(d, n)) == SqrMagnitude(d) + 4.0 * Sq(Dot(d, n)) * (SqrMagnitude(n) - 1.0)
  {
  }

  lemma MirrorIncidence(d: Vec3, n: Vec3)
    ensures Dot(d, Mirror(d, n)) == SqrMagnitude(d) - 2.0 * Sq(Dot(d, n))
  {
  }

  /**
   * Mirroring a unit vector in a unit normal gives a unit vector, and the
   * cosine between the two lies in [-1, 1].
   */
  lemma UnitMirror(d: Vec3, n: Vec3)
    requires SqrMagnitude(d) == 1.0 && SqrMagnitude(n) == 1.0
    ensures -1.0 <= Dot(d, Mirror(d, n)) <= 1.0
    ensures SqrMagnitude(Mirror(d, n)) == 1.0
  {
    MirrorIncidence(d, n);
    MirrorSqrMagnitude(d, n);
    CauchySchwarz(d, n);
    SquareNonNegative(Dot(d, n));
  }

  /** Two non-negative reals with equal squares are equal. */
  lemma EqualSquares(t: real, s: real)
    requires 0.0 <= t && 0.0 <= s
    requires Sq(t) == Sq(s)
    ensures t == s
  {
    if t > s {
      calc { Sq(t); t * t; > s * t; >= s * s; Sq(s); }
    } else if t < s {
      calc { Sq(s); s * s; > t * s; >= t * t; Sq(t); }
    }
  }

  /** Under an exact square root, sqrt(s * s) is s for non-negative s. */
  lemma SqrtOfSquare(m: Numerics, s: real)
    requires ExactSqrt(m)
    requires 0.0 <= s
    ensures m.sqrt(Sq(s)) == s
  {
    var t := m.sqrt(Sq(s));
    assert Sq(t) == Sq(s);
    EqualSquares(t, s);
  }

  lemma ProductPositive(x: real, y: real)
    requires x > 0.0 && y > 0.0
    ensures x * y > 0.0
  {
  }

  /** Multiplying both sides by a positive factor keeps a strict order. */
  lemma ScaleStrict(x: real, y: real, k: real)
    requires k > 0.0
    ensures x < y <==> x * k < y * k
  {
    if x < y {
      ProductPositive(y - x, k);
      assert (y - x) * k == y * k - x * k;
    } else if y < x {
      ProductPositive(x - y, k);
      assert (x - y) * k == x * k - y * k;
    }
  }

  lemma CancelDivision(x: real, y: real, k: real)
    requires k != 0.0
    ensures (x - y / k) * k == x * k - y
  {
  }

  /** A quotient by a positive number is at most 1 when the numerator is at most the divisor. */
  lemma FractionAtMostOne(t: real, k: real)
    requires k > 0.0 && t <= k
    ensures t / k <= 1.0
  {
  }

  lemma ScaleOfQuotient(v: Vec3, k: real, t: real)
    requires k != 0.0
    ensures Scale(Divide(v, k), t) == Scale(v, t / k)
  {
    QuotientProduct(v.x, k, t);
    QuotientProduct(v.y, k, t);
    QuotientProduct(v.z, k, t);
  }

  lemma QuotientProduct(x: real, k: real, t: real)
    requires k != 0.0
    ensures (x / k) * t == x * (t / k)
  {
  }
}
