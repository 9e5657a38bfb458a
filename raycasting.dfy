/**
 * Ray and point queries against a capped cylinder (the segment A-B swept by
 * a radius), as used by the chime tubes: a ray against the lateral surface,
 * a variant that also accepts hits behind a ray origin lying inside the
 * cylinder, a segment query, and a point-in-cylinder test.
 */
module Raycasting {
  import opened Geometry

  /** A value the engine's single-precision arithmetic can produce. */
  datatype FloatValue = Finite(value: real) | NaN

  datatype InsideResult = InsideResult(inside: bool, distanceFromAxis: FloatValue)

  /**
   * The reference definition: the projection of `p` onto the axis falls
   * between the two end points, and the squared distance of `p` from the
   * axis line, |(p - A) x (B - A)|^2 / |B - A|^2, is below radius^2.
   */
  ghost predicate InCylinder(p: Vec3, A: Vec3, B: Vec3, radius: real) {
    var d := Sub(B, A);
    var pd := Sub(p, A);
    SqrMagnitude(d) > 0.0 &&
    0.0 <= Dot(pd, d) <= SqrMagnitude(d) &&
    SqrMagnitude(Cross(pd, d)) < Sq(radius) * SqrMagnitude(d)
  }

  /**
   * The squared distance from the axis line of a point whose offset from A
   * has squared length `x2` and dot product `dot` with an axis of squared
   * length `length2`: Pythagoras on the projection.
   */
  function ProjectedSqrDistance(x2: real, dot: real, length2: real): real
    requires length2 != 0.0
  {
    x2 - dot * dot / length2
  }

  /**
   * The point-in-cylinder test with the distance of the point from the axis
   * as second output. A point beyond either cap gives (false, 0). When A and
   * B coincide the test divides zero by zero: the comparison with NaN fails
   * and the distance is NaN.
   */
  function InsideWithDistance(m: Numerics, p: Vec3, A: Vec3, B: Vec3, radius: real): (r: InsideResult)
    ensures var dot := Dot(Sub(p, A), Sub(B, A));
      dot < 0.0 || dot > SqrMagnitude(Sub(A, B)) ==> r == InsideResult(false, Finite(0.0))
    ensures r.inside ==> r.distanceFromAxis.Finite?
  {
    var length2 := SqrMagnitude(Sub(A, B));
    var radius2 := radius * radius;
    var d := Sub(B, A);
    var pd := Sub(p, A);
    var dot := Dot(pd, d);
    if dot < 0.0 || dot > length2 then
      InsideResult(false, Finite(0.0))
    else if length2 == 0.0 then
      InsideResult(false, NaN)
    else
      var dsq := ProjectedSqrDistance(SqrMagnitude(pd), dot, length2);
      InsideResult(dsq < radius2, Finite(m.sqrt(dsq)))
  }

  /**
   * With an exact square root, the distance output of a point reported
   * inside is its distance from the axis line: its square times |B - A|^2
   * is |(p - A) x (B - A)|^2, the quantity InCylinder compares.
   */
  lemma InsideDistance(m: Numerics, p: Vec3, A: Vec3, B: Vec3, radius: real)
    requires ExactSqrt(m)
    ensures var r := InsideWithDistance(m, p, A, B, radius);
      r.inside ==>
        r.distanceFromAxis.Finite? &&
        Sq(r.distanceFromAxis.value) * SqrMagnitude(Sub(B, A)) == SqrMagnitude(Cross(Sub(p, A), Sub(B, A)))
  {
    var r := InsideWithDistance(m, p, A, B, radius);
    if r.inside {
      var d := Sub(B, A);
      var pd := Sub(p, A);
      InsideDistanceTerms(m, p, A, B, radius);
      CrossDistance(m, pd, d, r.distanceFromAxis.value);
    }
  }

  /** The projected distance from the axis, squared back, is the cross-product distance. */
  lemma CrossDistance(m: Numerics, pd: Vec3, d: Vec3, distance: real)
    requires ExactSqrt(m)
    requires SqrMagnitude(d) > 0.0
    requires distance == m.sqrt(ProjectedSqrDistance(SqrMagnitude(pd), Dot(pd, d), SqrMagnitude(d)))
    ensures Sq(distance) * SqrMagnitude(d) == SqrMagnitude(Cross(pd, d))
  {
    Lagrange(pd, d);
    SqrMagnitudeSign(Cross(pd, d));
    ProjectedDistance(m, SqrMagnitude(pd), Dot(pd, d), SqrMagnitude(d), SqrMagnitude(Cross(pd, d)), distance);
  }

  /** The distance output of a point reported inside, on the scalar quantities. */
  lemma InsideDistanceTerms(m: Numerics, p: Vec3, A: Vec3, B: Vec3, radius: real)
    requires InsideWithDistance(m, p, A, B, radius).inside
    ensures var d := Sub(B, A);
      var pd := Sub(p, A);
      SqrMagnitude(d) > 0.0 &&
      InsideWithDistance(m, p, A, B, radius).distanceFromAxis
        == Finite(m.sqrt(ProjectedSqrDistance(SqrMagnitude(pd), Dot(pd, d), SqrMagnitude(d))))
  {
    assert SqrMagnitude(Sub(A, B)) != 0.0;
    ReverseSqrMagnitude(A, B);
    SqrMagnitudeSign(Sub(B, A));
  }

  /**
   * The scalar core of InsideDistance: the projected squared distance times
   * the squared axis length is the squared cross product, so its exact
   * square root squares back to it.
   */
  lemma ProjectedDistance(m: Numerics, x2: real, dot: real, length2: real, cross2: real, distance: real)
    requires ExactSqrt(m)
    requires length2 > 0.0 && 0.0 <= cross2
    requires cross2 == x2 * length2 - Sq(dot)
    requires distance == m.sqrt(ProjectedSqrDistance(x2, dot, length2))
    ensures Sq(distance) * length2 == cross2
  {
    var dsq := ProjectedSqrDistance(x2, dot, length2);
    CancelDivision(x2, Sq(dot), length2);
    assert dsq * length2 == cross2;
    ScaleStrict(dsq, 0.0, length2);
    assert Sq(distance) == dsq;
  }

  /** The test without the distance output. */
  function Inside(m: Numerics, p: Vec3, A: Vec3, B: Vec3, radius: real): (inside: bool)
    ensures inside == InsideWithDistance(m, p, A, B, radius).inside
  {
    InsideWithDistance(m, p, A, B, radius).inside
  }

  /** The test agrees with the cross-product definition, in both directions. */
  lemma InsideIsInCylinder(m: Numerics, p: Vec3, A: Vec3, B: Vec3, radius: real)
    ensures Inside(m, p, A, B, radius) <==> InCylinder(p, A, B, radius)
  {
    var d := Sub(B, A);
    var pd := Sub(p, A);
    InsideTerms(m, p, A, B, radius);
    InCylinderTerms(p, A, B, radius);
    Lagrange(pd, d);
    SqrMagnitudeSign(d);
    TestsAgree(SqrMagnitude(pd), Dot(pd, d), SqrMagnitude(d), SqrMagnitude(Cross(pd, d)), Sq(radius));
  }

  /** The source's test on the scalars: squared distance from the axis by projection. */
  predicate ProjectedWithin(x2: real, dot: real, length2: real, radius2: real) {
    0.0 <= dot <= length2 && length2 != 0.0 && ProjectedSqrDistance(x2, dot, length2) < radius2
  }

  /** The reference test on the scalars: squared distance from the axis by the cross product. */
  predicate CrossWithin(dot: real, length2: real, cross2: real, radius2: real) {
    length2 > 0.0 && 0.0 <= dot <= length2 && cross2 < radius2 * length2
  }

  /** Inside spelled out on the scalar quantities. */
  lemma InsideTerms(m: Numerics, p: Vec3, A: Vec3, B: Vec3, radius: real)
    ensures var d := Sub(B, A);
      var pd := Sub(p, A);
      Inside(m, p, A, B, radius) <==> ProjectedWithin(SqrMagnitude(pd), Dot(pd, d), SqrMagnitude(d), Sq(radius))
  {
    assert SqrMagnitude(Sub(A, B)) == SqrMagnitude(Sub(B, A)) by {
      ReverseSqrMagnitude(A, B);
    }
  }

  /** InCylinder spelled out on the same scalar quantities. */
  lemma InCylinderTerms(p: Vec3, A: Vec3, B: Vec3, radius: real)
    ensures var d := Sub(B, A);
      var pd := Sub(p, A);
      InCylinder(p, A, B, radius) <==> CrossWithin(Dot(pd, d), SqrMagnitude(d), SqrMagnitude(Cross(pd, d)), Sq(radius))
  {
  }

  /** The two tests on the scalars, related through Lagrange's identity. */
  lemma TestsAgree(x2: real, dot: real, length2: real, cross2: real, radius2: real)
    requires cross2 == x2 * length2 - Sq(dot)
    requires !(length2 < 0.0)
    ensures ProjectedWithin(x2, dot, length2, radius2) <==> CrossWithin(dot, length2, cross2, radius2)
  {
    if length2 > 0.0 {
      DistanceTest(x2, dot, length2, cross2, radius2);
    }
  }

  lemma ReverseSqrMagnitude(A: Vec3, B: Vec3)
    ensures SqrMagnitude(Sub(A, B)) == SqrMagnitude(Sub(B, A))
  {
  }

  lemma DistanceTest(x2: real, dot: real, length2: real, cross2: real, radius2: real)
    requires length2 > 0.0
    requires cross2 == x2 * length2 - Sq(dot)
    ensures ProjectedSqrDistance(x2, dot, length2) < radius2 <==> cross2 < radius2 * length2
  {
    var dsq := ProjectedSqrDistance(x2, dot, length2);
    CancelDivision(x2, Sq(dot), length2);
    ScaleStrict(dsq, radius2, length2);
  }

  const Epsilon: real := 0.00001

  /**
   * The quadratic a t^2 + b t + c whose roots are the parameters t at which
   * the ray start + t dir meets the infinite cylinder of radius r around the
   * line through A and B; d is its discriminant.
   */
  datatype Quadratic = Quadratic(ab: Vec3, ab2: real, a: real, b: real, c: real, d: real)

  function Coefficients(start: Vec3, dir: Vec3, A: Vec3, B: Vec3, r: real): Quadratic {
    var ab := Sub(B, A);
    var aoxab := Cross(Sub(start, A), ab);
    var vxab := Cross(dir, ab);
    var ab2 := Dot(ab, ab);
    var a := Dot(vxab, vxab);
    var b := 2.0 * Dot(vxab, aoxab);
    var c := Dot(aoxab, aoxab) - r * r * ab2;
    Quadratic(ab, ab2, a, b, c, Discriminant(a, b, c))
  }

  function Discriminant(a: real, b: real, c: real): real {
    b * b - 4.0 * a * c
  }

  /** The cross product with a zero axis, or a zero cross product, makes the coefficients vanish. */
  lemma ZeroAxis(dir: Vec3, ab: Vec3)
    requires Dot(ab, ab) == 0.0
    ensures Dot(Cross(dir, ab), Cross(dir, ab)) == 0.0
  {
    SqrMagnitudeSign(ab);
    assert ab == Zero;
  }

  lemma ZeroCross(vxab: Vec3, aoxab: Vec3)
    requires Dot(vxab, vxab) == 0.0
    ensures Dot(vxab, aoxab) == 0.0
  {
    assert vxab == Zero by {
      SqrMagnitudeSign(vxab);
    }
    DotZero(aoxab);
  }

  lemma DotZero(u: Vec3)
    ensures Dot(Zero, u) == 0.0
  {
  }

  lemma DiscriminantZero(a: real, b: real, c: real)
    requires a == 0.0 && b == 0.0
    ensures Discriminant(a, b, c) == 0.0
  {
  }

  /**
   * A ray parallel to the axis, or an axis of zero length, gives a == 0, and
   * then b and the discriminant vanish too.
   */
  lemma ParallelCoefficients(start: Vec3, dir: Vec3, A: Vec3, B: Vec3, r: real)
    ensures var q := Coefficients(start, dir, A, B, r);
      (q.ab2 == 0.0 ==> q.a == 0.0) && (q.a == 0.0 ==> q.b == 0.0 && q.d == 0.0)
  {
    var ab := Sub(B, A);
    var vxab := Cross(dir, ab);
    var aoxab := Cross(Sub(start, A), ab);
    var q := Coefficients(start, dir, A, B, r);
    if Dot(ab, ab) == 0.0 {
      ZeroAxis(dir, ab);
    }
    if Dot(vxab, vxab) == 0.0 {
      ZeroCross(vxab, aoxab);
      DiscriminantZero(q.a, q.b, q.c);
    }
  }

  /** The outputs of a ray query: the returned flag and the three out parameters. */
  datatype RayHit = RayHit(hit: bool, intersection: Vec3, normal: Vec3, distance: real)

  const Miss := RayHit(false, Zero, Zero, 0.0)

  /** `point` projected onto the line through A and B. */
  function Projection(A: Vec3, B: Vec3, point: Vec3): Vec3
    requires SqrMagnitude(Sub(B, A)) != 0.0
  {
    var ab := Sub(B, A);
    Add(A, Scale(ab, Dot(ab, Sub(point, A)) / Dot(ab, ab)))
  }

  /**
   * The normal reported with a hit: the normalised offset of the point from
   * its projection onto the axis.
   */
  function SurfaceNormal(m: Numerics, A: Vec3, B: Vec3, point: Vec3): Vec3
    requires SqrMagnitude(Sub(B, A)) != 0.0
  {
    m.normalize(Sub(point, Projection(A, B, point)))
  }

  lemma UnitFactor(x: real, k: real, y: real)
    requires k != 0.0 && x * k == y && y == k
    ensures x == 1.0
  {
    assert (x - 1.0) * k == 0.0;
  }

  /** The offset of a point from its projection is perpendicular to the axis. */
  lemma OffsetPerpendicular(A: Vec3, B: Vec3, point: Vec3)
    requires SqrMagnitude(Sub(B, A)) != 0.0
    ensures Dot(Sub(point, Projection(A, B, point)), Sub(B, A)) == 0.0
  {
    var ab := Sub(B, A);
    var k := Dot(ab, Sub(point, A)) / Dot(ab, ab);
    assert Sub(point, Projection(A, B, point)) == Sub(Sub(point, A), Scale(ab, k));
    assert Dot(Sub(Sub(point, A), Scale(ab, k)), ab) == Dot(Sub(point, A), ab) - k * Dot(ab, ab);
    assert k * Dot(ab, ab) == Dot(ab, Sub(point, A));
  }

  /**
   * With the documented normalisation, the normal is perpendicular to the
   * axis, and, with an exact square root, it is a unit vector whenever the
   * point is farther than 1e-5 from the axis.
   */
  lemma SurfaceNormalPerpendicular(m: Numerics, A: Vec3, B: Vec3, point: Vec3)
    requires ExactNormalize(m)
    requires SqrMagnitude(Sub(B, A)) != 0.0
    ensures Dot(SurfaceNormal(m, A, B, point), Sub(B, A)) == 0.0
    ensures var offset := Sub(point, Projection(A, B, point));
      ExactSqrt(m) && Magnitude(m, offset) > 0.00001 ==> SqrMagnitude(SurfaceNormal(m, A, B, point)) == 1.0
  {
    var offset := Sub(point, Projection(A, B, point));
    var length := Magnitude(m, offset);
    OffsetPerpendicular(A, B, point);
    if length > 0.00001 {
      assert SurfaceNormal(m, A, B, point) == Divide(offset, length);
      DivideDot(offset, length, Sub(B, A));
      DivideSqrMagnitude(offset, length);
      if ExactSqrt(m) {
        SqrMagnitudeSign(offset);
        assert Sq(length) == SqrMagnitude(offset);
        SquarePositive(length);
        UnitFactor(SqrMagnitude(Divide(offset, length)), Sq(length), SqrMagnitude(offset));
      }
    } else {
      assert SurfaceNormal(m, A, B, point) == Zero;
    }
  }

  /**
   * The segment test on the projection: |projection - A| + |B - projection|
   * does not exceed |B - A| by more than Epsilon.
   */
  predicate BetweenEnds(m: Numerics, A: Vec3, B: Vec3, projection: Vec3) {
    Magnitude(m, Sub(projection, A)) + Magnitude(m, Sub(B, projection)) <= Magnitude(m, Sub(B, A)) + Epsilon
  }

  /** The tail shared by both ray queries, once a distance is accepted. */
  function ProjectionTest(m: Numerics, start: Vec3, dir: Vec3, A: Vec3, B: Vec3, distance: real): (h: RayHit)
    requires SqrMagnitude(Sub(B, A)) != 0.0
    ensures h.intersection == Add(start, Scale(dir, distance)) && h.distance == distance
    ensures h.hit <==> BetweenEnds(m, A, B, Projection(A, B, h.intersection))
    ensures h.normal == if h.hit then SurfaceNormal(m, A, B, h.intersection) else Zero
  {
    var intersection := Add(start, Scale(dir, distance));
    var projection := Projection(A, B, intersection);
    if !BetweenEnds(m, A, B, projection) then
      RayHit(false, intersection, Zero, distance)
    else
      RayHit(true, intersection, SurfaceNormal(m, A, B, intersection), distance)
  }

  /** The nearer root of the quadratic, with a discriminant within Epsilon below zero read as zero. */
  function NearRoot(m: Numerics, q: Quadratic): real
    requires q.a != 0.0
  {
    (-q.b - m.sqrt(MaxOf(q.d, 0.0))) / (2.0 * q.a)
  }

  /**
   * Intersects the ray start + t dir with the lateral surface of the capped
   * cylinder A-B of radius r (the caps are not tested). On a miss with a
   * negative discriminant every output is zero; a hit behind the origin
   * keeps only its distance; a hit beyond the ends keeps the intersection
   * and the distance.
   */
  function Ray(m: Numerics, start: Vec3, dir: Vec3, A: Vec3, B: Vec3, r: real): (h: RayHit)
    ensures Coefficients(start, dir, A, B, r).d < -Epsilon ==> h == Miss
    ensures h.hit ==> Coefficients(start, dir, A, B, r).a != 0.0 && h.distance == NearRoot(m, Coefficients(start, dir, A, B, r))
    ensures h.hit ==> -Epsilon <= h.distance && h.intersection == Add(start, Scale(dir, h.distance))
    ensures h.hit ==>
      SqrMagnitude(Sub(B, A)) != 0.0 &&
      BetweenEnds(m, A, B, Projection(A, B, h.intersection)) &&
      h.normal == SurfaceNormal(m, A, B, h.intersection)
    ensures !h.hit ==> h.normal == Zero
  {
    var q := Coefficients(start, dir, A, B, r);
    if q.d < -Epsilon || q.a == 0.0 then
      Miss
    else
      ParallelCoefficients(start, dir, A, B, r);
      var distance := NearRoot(m, q);
      if distance < -Epsilon then
        RayHit(false, Zero, Zero, distance)
      else
        ProjectionTest(m, start, dir, A, B, distance)
  }

  /**
   * Like Ray, but a root behind the origin is rejected only when the origin
   * lies outside the cylinder, so a ray starting inside reports the wall
   * behind it with a negative distance.
   */
  function RayBacktracking(m: Numerics, start: Vec3, dir: Vec3, A: Vec3, B: Vec3, r: real): (h: RayHit)
    ensures Coefficients(start, dir, A, B, r).d < -Epsilon ==> h == Miss
    ensures h.hit ==> Coefficients(start, dir, A, B, r).a != 0.0 && h.distance == NearRoot(m, Coefficients(start, dir, A, B, r))
    ensures h.hit ==> h.intersection == Add(start, Scale(dir, h.distance))
    ensures h.hit ==>
      SqrMagnitude(Sub(B, A)) != 0.0 &&
      BetweenEnds(m, A, B, Projection(A, B, h.intersection)) &&
      h.normal == SurfaceNormal(m, A, B, h.intersection)
    ensures !h.hit ==> h.normal == Zero
  {
    var q := Coefficients(start, dir, A, B, r);
    if q.d < -Epsilon || q.a == 0.0 then
      Miss
    else
      ParallelCoefficients(start, dir, A, B, r);
      var distance := NearRoot(m, q);
      if distance < -Epsilon && !Inside(m, start, A, B, r) then
        RayHit(false, Zero, Zero, distance)
      else
        ProjectionTest(m, start, dir, A, B, distance)
  }

  /** The two queries agree except on a root behind an origin inside the cylinder. */
  lemma BacktrackingExtendsRay(m: Numerics, start: Vec3, dir: Vec3, A: Vec3, B: Vec3, r: real)
    ensures Ray(m, start, dir, A, B, r).hit ==> RayBacktracking(m, start, dir, A, B, r) == Ray(m, start, dir, A, B, r)
    ensures !Inside(m, start, A, B, r) ==> RayBacktracking(m, start, dir, A, B, r) == Ray(m, start, dir, A, B, r)
    ensures RayBacktracking(m, start, dir, A, B, r).hit && !Ray(m, start, dir, A, B, r).hit ==>
      RayBacktracking(m, start, dir, A, B, r).distance < -Epsilon && Inside(m, start, A, B, r)
  {
  }

  /**
   * The keep direction of the backtracking query: from an origin inside the
   * cylinder, the near root is reported whatever its sign, and it is a hit
   * exactly when its projection lies between the ends.
   */
  lemma BacktrackingAcceptsInside(m: Numerics, start: Vec3, dir: Vec3, A: Vec3, B: Vec3, r: real)
    requires Coefficients(start, dir, A, B, r).a != 0.0 && -Epsilon <= Coefficients(start, dir, A, B, r).d
    requires Inside(m, start, A, B, r)
    ensures var t := NearRoot(m, Coefficients(start, dir, A, B, r));
      var h := RayBacktracking(m, start, dir, A, B, r);
      h.distance == t && h.intersection == Add(start, Scale(dir, t)) &&
      SqrMagnitude(Sub(B, A)) != 0.0 && (h.hit <==> BetweenEnds(m, A, B, Projection(A, B, h.intersection)))
  {
    ParallelCoefficients(start, dir, A, B, r);
  }

  /**
   * The segment query from start to end: the ray along the normalised
   * direction, accepted only up to the segment length (plus 1e-5, which also
   * keeps the division defined for a zero-length segment).
   */
  function Line(m: Numerics, start: Vec3, end: Vec3, A: Vec3, B: Vec3, r: real): (h: RayHit)
    ensures h.hit ==> h.distance <= Magnitude(m, Sub(end, start)) + 0.00001
    ensures var length := Magnitude(m, Sub(end, start)) + 0.00001;
      var ray := Ray(m, start, Divide(Sub(end, start), length), A, B, r);
      (h.hit <==> ray.hit && ray.distance <= length) &&
      h.intersection == ray.intersection && h.normal == ray.normal && h.distance == ray.distance
  {
    var length := Magnitude(m, Sub(end, start)) + 0.00001;
    var dir := Divide(Sub(end, start), length);
    var ray := Ray(m, start, dir, A, B, r);
    RayHit(ray.hit && ray.distance <= length, ray.intersection, ray.normal, ray.distance)
  }

  /** The quadratic a t^2 + b t + c at t. */
  function Polynomial(a: real, b: real, c: real, t: real): real {
    a * t * t + b * t + c
  }

  /** The root formula (-b - s) / 2a, with s a square root of the discriminant, is a root. */
  lemma NearRootIsRoot(a: real, b: real, c: real, s: real, t: real)
    requires a != 0.0
    requires Sq(s) == Discriminant(a, b, c)
    requires t == (-b - s) / (2.0 * a)
    ensures Polynomial(a, b, c, t) == 0.0
  {
    var u := 2.0 * a * t;
    assert u == -b - s;
    assert s * s == b * b - 4.0 * a * c;
    assert 4.0 * a * (a * t * t + b * t + c) == u * u + 2.0 * b * u + 4.0 * a * c;
    assert u * u + 2.0 * b * u + 4.0 * a * c == s * s - b * b + 4.0 * a * c;
  }

  /**
   * Along the ray, the squared distance from the axis line times |B - A|^2
   * is the quadratic plus r^2 |B - A|^2.
   */
  lemma SurfaceIdentity(start: Vec3, dir: Vec3, A: Vec3, B: Vec3, r: real, t: real)
    ensures var q := Coefficients(start, dir, A, B, r);
      SqrMagnitude(Cross(Sub(Add(start, Scale(dir, t)), A), Sub(B, A))) ==
      Polynomial(q.a, q.b, q.c, t) + r * r * SqrMagnitude(Sub(B, A))
  {
    var ab := Sub(B, A);
    var aoxab := Cross(Sub(start, A), ab);
    var vxab := Cross(dir, ab);
    var q := Coefficients(start, dir, A, B, r);
    var k := r * r * SqrMagnitude(ab);
    assert Sub(Add(start, Scale(dir, t)), A) == Add(Sub(start, A), Scale(dir, t));
    CrossAlong(Sub(start, A), dir, ab, t);
    SqrMagnitudeAlong(aoxab, vxab, t);
    assert q.a == Dot(vxab, vxab);
    assert q.b == 2.0 * Dot(vxab, aoxab);
    assert q.c == Dot(aoxab, aoxab) - k;
    PolynomialShift(q.a, q.b, Dot(aoxab, aoxab), k, t);
  }

  /** The cross product is linear in its first argument. */
  lemma CrossAlong(u: Vec3, v: Vec3, w: Vec3, t: real)
    ensures Cross(Add(u, Scale(v, t)), w) == Add(Cross(u, w), Scale(Cross(v, w), t))
  {
    CrossAlongX(u, v, w, t);
    CrossAlongY(u, v, w, t);
    CrossAlongZ(u, v, w, t);
  }

  lemma CrossAlongX(u: Vec3, v: Vec3, w: Vec3, t: real)
    ensures Cross(Add(u, Scale(v, t)), w).x == Add(Cross(u, w), Scale(Cross(v, w), t)).x
  {
    calc {
      Cross(Add(u, Scale(v, t)), w).x;
      (u.y + v.y * t) * w.z - (u.z + v.z * t) * w.y;
      (u.y * w.z - u.z * w.y) + (v.y * w.z - v.z * w.y) * t;
      Add(Cross(u, w), Scale(Cross(v, w), t)).x;
    }
  }

  lemma CrossAlongY(u: Vec3, v: Vec3, w: Vec3, t: real)
    ensures Cross(Add(u, Scale(v, t)), w).y == Add(Cross(u, w), Scale(Cross(v, w), t)).y
  {
    calc {
      Cross(Add(u, Scale(v, t)), w).y;
      (u.z + v.z * t) * w.x - (u.x + v.x * t) * w.z;
      (u.z * w.x - u.x * w.z) + (v.z * w.x - v.x * w.z) * t;
      Add(Cross(u, w), Scale(Cross(v, w), t)).y;
    }
  }

  lemma CrossAlongZ(u: Vec3, v: Vec3, w: Vec3, t: real)
    ensures Cross(Add(u, Scale(v, t)), w).z == Add(Cross(u, w), Scale(Cross(v, w), t)).z
  {
    calc {
      Cross(Add(u, Scale(v, t)), w).z;
      (u.x + v.x * t) * w.y - (u.y + v.y * t) * w.x;
      (u.x * w.y - u.y * w.x) + (v.x * w.y - v.y * w.x) * t;
      Add(Cross(u, w), Scale(Cross(v, w), t)).z;
    }
  }

  lemma SqrMagnitudeAlong(u: Vec3, v: Vec3, t: real)
    ensures SqrMagnitude(Add(u, Scale(v, t))) == Polynomial(Dot(v, v), 2.0 * Dot(v, u), Dot(u, u), t)
  {
    calc {
      SqrMagnitude(Add(u, Scale(v, t)));
      (u.x + v.x * t) * (u.x + v.x * t) + (u.y + v.y * t) * (u.y + v.y * t) + (u.z + v.z * t) * (u.z + v.z * t);
      (v.x * v.x + v.y * v.y + v.z * v.z) * t * t + 2.0 * (v.x * u.x + v.y * u.y + v.z * u.z) * t +
        (u.x * u.x + u.y * u.y + u.z * u.z);
      Polynomial(v.x * v.x + v.y * v.y + v.z * v.z, 2.0 * (v.x * u.x + v.y * u.y + v.z * u.z),
        u.x * u.x + u.y * u.y + u.z * u.z, t);
    }
  }

  lemma PolynomialShift(a: real, b: real, c: real, k: real, t: real)
    ensures Polynomial(a, b, c - k, t) == Polynomial(a, b, c, t) - k
  {
  }

  /**
   * With an exact square root and a non-negative discriminant, a point that
   * Ray reports lies on the cylinder wall: its distance from the axis line
   * is r.
   */
  lemma RayHitOnSurface(m: Numerics, start: Vec3, dir: Vec3, A: Vec3, B: Vec3, r: real)
    requires ExactSqrt(m)
    requires Coefficients(start, dir, A, B, r).d >= 0.0
    ensures var h := Ray(m, start, dir, A, B, r);
      h.hit ==> SqrMagnitude(Cross(Sub(h.intersection, A), Sub(B, A))) == r * r * SqrMagnitude(Sub(B, A))
  {
    var h := Ray(m, start, dir, A, B, r);
    if h.hit {
      OnSurface(m, start, dir, A, B, r, h.distance);
    }
  }

  /** The same for the backtracking query, whose hit may lie behind the origin. */
  lemma BacktrackingHitOnSurface(m: Numerics, start: Vec3, dir: Vec3, A: Vec3, B: Vec3, r: real)
    requires ExactSqrt(m)
    requires Coefficients(start, dir, A, B, r).d >= 0.0
    ensures var h := RayBacktracking(m, start, dir, A, B, r);
      h.hit ==> SqrMagnitude(Cross(Sub(h.intersection, A), Sub(B, A))) == r * r * SqrMagnitude(Sub(B, A))
  {
    var h := RayBacktracking(m, start, dir, A, B, r);
    if h.hit {
      OnSurface(m, start, dir, A, B, r, h.distance);
    }
  }

  lemma OnSurface(m: Numerics, start: Vec3, dir: Vec3, A: Vec3, B: Vec3, r: real, t: real)
    requires ExactSqrt(m)
    requires Coefficients(start, dir, A, B, r).d >= 0.0
    requires Coefficients(start, dir, A, B, r).a != 0.0
    requires t == NearRoot(m, Coefficients(start, dir, A, B, r))
    ensures SqrMagnitude(Cross(Sub(Add(start, Scale(dir, t)), A), Sub(B, A))) == r * r * SqrMagnitude(Sub(B, A))
  {
    var q := Coefficients(start, dir, A, B, r);
    var s := m.sqrt(MaxOf(q.d, 0.0));
    assert MaxOf(q.d, 0.0) == q.d;
    assert Sq(s) == q.d;
    assert q.d == Discriminant(q.a, q.b, q.c);
    NearRootIsRoot(q.a, q.b, q.c, s, t);
    SurfaceIdentity(start, dir, A, B, r, t);
  }

  /**
   * A hit reported by Line lies on the line through start and end, at most
   * one segment length (plus the 1e-5 padding) from start.
   */
  lemma LineHitOnSegment(m: Numerics, start: Vec3, end: Vec3, A: Vec3, B: Vec3, r: real)
    ensures var h := Line(m, start, end, A, B, r);
      var length := Magnitude(m, Sub(end, start)) + 0.00001;
      h.hit ==> h.intersection == Add(start, Scale(Sub(end, start), h.distance / length)) &&
                -Epsilon / length <= h.distance / length <= 1.0
  {
    var h := Line(m, start, end, A, B, r);
    var length := Magnitude(m, Sub(end, start)) + 0.00001;
    if h.hit {
      ScaleOfQuotient(Sub(end, start), length, h.distance);
      FractionAtMostOne(h.distance, length);
      DivideMonotone(-Epsilon, h.distance, length);
    }
  }

  /**
   * With an exact square root, a segment hit lies on the lateral surface: its
   * distance from the axis line is r.
   */
  lemma LineHitOnSurface(m: Numerics, start: Vec3, end: Vec3, A: Vec3, B: Vec3, r: real)
    requires ExactSqrt(m)
    requires Coefficients(start, Divide(Sub(end, start), Magnitude(m, Sub(end, start)) + 0.00001), A, B, r).d >= 0.0
    ensures var h := Line(m, start, end, A, B, r);
      h.hit ==> SqrMagnitude(Cross(Sub(h.intersection, A), Sub(B, A))) == r * r * SqrMagnitude(Sub(B, A))
  {
    RayHitOnSurface(m, start, Divide(Sub(end, start), Magnitude(m, Sub(end, start)) + 0.00001), A, B, r);
  }

  lemma DivideMonotone(x: real, y: real, k: real)
    requires k > 0.0 && x <= y
    ensures x / k <= y / k
  {
  }

  /** The flag and distance of a ray query as the engine's floating point computes them. */
  datatype FloatRayHit = FloatRayHit(hit: bool, distance: FloatValue)

  /**
   * Ray as written: the distance is (-b - Sqrt(d)) / 2a with no guard on
   * a == 0 and with Sqrt applied to discriminants in [-Epsilon, 0). In the
   * first case b and d are 0 as well (ParallelCoefficients), so the distance
   * is 0 / 0; in the second the square root of a negative number. Both give
   * NaN, every comparison with NaN is false, so neither rejection fires and
   * the ray is reported as a hit.
   */
  function RayAsWritten(m: Numerics, start: Vec3, dir: Vec3, A: Vec3, B: Vec3, r: real): (h: FloatRayHit)
    ensures var q := Coefficients(start, dir, A, B, r);
      -Epsilon <= q.d && (q.d < 0.0 || q.a == 0.0) ==> h == FloatRayHit(true, NaN)
  {
    var q := Coefficients(start, dir, A, B, r);
    if q.d < -Epsilon then
      FloatRayHit(false, Finite(0.0))
    else if q.d < 0.0 || q.a == 0.0 then
      FloatRayHit(true, NaN)
    else
      ParallelCoefficients(start, dir, A, B, r);
      var distance := (-q.b - m.sqrt(q.d)) / (2.0 * q.a);
      if distance < -Epsilon then
        FloatRayHit(false, Finite(distance))
      else
        FloatRayHit(ProjectionTest(m, start, dir, A, B, distance).hit, Finite(distance))
  }

  /** Away from the two NaN cases, the source and the corrected Ray agree. */
  lemma AsWrittenAgreesWithRay(m: Numerics, start: Vec3, dir: Vec3, A: Vec3, B: Vec3, r: real)
    requires Coefficients(start, dir, A, B, r).d < -Epsilon ||
             (Coefficients(start, dir, A, B, r).d >= 0.0 && Coefficients(start, dir, A, B, r).a != 0.0)
    ensures RayAsWritten(m, start, dir, A, B, r).hit == Ray(m, start, dir, A, B, r).hit
    ensures RayAsWritten(m, start, dir, A, B, r).distance == Finite(Ray(m, start, dir, A, B, r).distance)
  {
    var q := Coefficients(start, dir, A, B, r);
    if q.d >= 0.0 {
      assert MaxOf(q.d, 0.0) == q.d;
    }
  }

  /**
   * A ray parallel to the axis, outside the cylinder: the source reports a
   * hit with a NaN distance; the corrected Ray reports a miss.
   */
  lemma ParallelRayFinding(m: Numerics, start: Vec3, dir: Vec3, A: Vec3, B: Vec3, r: real)
    requires start == Vec3(2.0, 0.0, 0.0) && dir == Vec3(0.0, 1.0, 0.0)
    requires A == Zero && B == Vec3(0.0, 1.0, 0.0) && r == 1.0
    ensures RayAsWritten(m, start, dir, A, B, r) == FloatRayHit(true, NaN)
    ensures !Ray(m, start, dir, A, B, r).hit
  {
    ParallelExample(start, dir, A, B, r);
  }

  lemma ParallelExample(start: Vec3, dir: Vec3, A: Vec3, B: Vec3, r: real)
    requires start == Vec3(2.0, 0.0, 0.0) && dir == Vec3(0.0, 1.0, 0.0)
    requires A == Zero && B == Vec3(0.0, 1.0, 0.0) && r == 1.0
    ensures Coefficients(start, dir, A, B, r).a == 0.0
    ensures Coefficients(start, dir, A, B, r).d == 0.0
  {
    assert Sub(B, A) == B;
    assert Cross(dir, B) == Zero;
    DotZero(Zero);
    ParallelCoefficients(start, dir, A, B, r);
  }

  /**
   * Once the discriminant passes the tolerance and the ray is not parallel,
   * Ray reports the near root with its intersection point, and it is a hit
   * exactly when the projection passes the segment test: the converse of
   * Ray's postconditions.
   */
  lemma RayAccepts(m: Numerics, start: Vec3, dir: Vec3, A: Vec3, B: Vec3, r: real)
    requires Coefficients(start, dir, A, B, r).a != 0.0 && -Epsilon <= Coefficients(start, dir, A, B, r).d
    requires -Epsilon <= NearRoot(m, Coefficients(start, dir, A, B, r))
    ensures var t := NearRoot(m, Coefficients(start, dir, A, B, r));
      var h := Ray(m, start, dir, A, B, r);
      h.distance == t && h.intersection == Add(start, Scale(dir, t)) &&
      SqrMagnitude(Sub(B, A)) != 0.0 && (h.hit <==> BetweenEnds(m, A, B, Projection(A, B, h.intersection)))
  {
    ParallelCoefficients(start, dir, A, B, r);
  }

  /**
   * A ray passing 1e-6 outside the wall of the unit cylinder around the y
   * axis: the discriminant is -8.000004e-6, within the tolerance, so the
   * source accepts the ray with a NaN distance, while the corrected Ray
   * reads the discriminant as zero and reports the tangent point at
   * distance 5.
   */
  lemma GrazingRayFinding(m: Numerics, start: Vec3, dir: Vec3, A: Vec3, B: Vec3, r: real)
    requires ExactSqrt(m)
    requires start == Vec3(-5.0, 0.5, 1.000001) && dir == Vec3(1.0, 0.0, 0.0)
    requires A == Zero && B == Vec3(0.0, 1.0, 0.0) && r == 1.0
    ensures -Epsilon <= Coefficients(start, dir, A, B, r).d < 0.0
    ensures RayAsWritten(m, start, dir, A, B, r) == FloatRayHit(true, NaN)
    ensures Ray(m, start, dir, A, B, r).distance == 5.0
  {
    GrazingCoefficients();
    GrazingAsWritten(m, start, dir, A, B, r);
    GrazingRay(m, start, dir, A, B, r);
  }

  lemma GrazingAsWritten(m: Numerics, start: Vec3, dir: Vec3, A: Vec3, B: Vec3, r: real)
    requires Coefficients(start, dir, A, B, r) ==
      Quadratic(Vec3(0.0, 1.0, 0.0), 1.0, 1.0, -10.0, 25.000002000001, -0.000008000004)
    ensures -Epsilon <= Coefficients(start, dir, A, B, r).d < 0.0
    ensures RayAsWritten(m, start, dir, A, B, r) == FloatRayHit(true, NaN)
  {
  }

  lemma GrazingRay(m: Numerics, start: Vec3, dir: Vec3, A: Vec3, B: Vec3, r: real)
    requires ExactSqrt(m)
    requires Coefficients(start, dir, A, B, r) ==
      Quadratic(Vec3(0.0, 1.0, 0.0), 1.0, 1.0, -10.0, 25.000002000001, -0.000008000004)
    ensures Ray(m, start, dir, A, B, r).distance == 5.0
  {
    GrazingNearRoot(m);
    RayAccepts(m, start, dir, A, B, r);
  }

  lemma GrazingCoefficients()
    ensures Coefficients(Vec3(-5.0, 0.5, 1.000001), Vec3(1.0, 0.0, 0.0), Zero, Vec3(0.0, 1.0, 0.0), 1.0) ==
      Quadratic(Vec3(0.0, 1.0, 0.0), 1.0, 1.0, -10.0, 25.000002000001, -0.000008000004)
  {
    GrazingAxis();
    GrazingOffset();
    GrazingOffsetCross();
    GrazingDirCross();
    GrazingAxisSquare();
    GrazingDirSquare();
    GrazingMixed();
    GrazingOffsetSquare();
    GrazingDiscriminant();
  }

  // The arithmetic of the grazing example, one step per lemma.
  lemma GrazingAxis() ensures Sub(Vec3(0.0, 1.0, 0.0), Zero) == Vec3(0.0, 1.0, 0.0) {}
  lemma GrazingOffset() ensures Sub(Vec3(-5.0, 0.5, 1.000001), Zero) == Vec3(-5.0, 0.5, 1.000001) {}
  lemma GrazingOffsetCross()
    ensures Cross(Vec3(-5.0, 0.5, 1.000001), Vec3(0.0, 1.0, 0.0)) == Vec3(-1.000001, 0.0, -5.0) {}
  lemma GrazingDirCross() ensures Cross(Vec3(1.0, 0.0, 0.0), Vec3(0.0, 1.0, 0.0)) == Vec3(0.0, 0.0, 1.0) {}
  lemma GrazingAxisSquare() ensures Dot(Vec3(0.0, 1.0, 0.0), Vec3(0.0, 1.0, 0.0)) == 1.0 {}
  lemma GrazingDirSquare() ensures Dot(Vec3(0.0, 0.0, 1.0), Vec3(0.0, 0.0, 1.0)) == 1.0 {}
  lemma GrazingMixed() ensures Dot(Vec3(0.0, 0.0, 1.0), Vec3(-1.000001, 0.0, -5.0)) == -5.0 {}
  lemma GrazingOffsetSquare()
    ensures Dot(Vec3(-1.000001, 0.0, -5.0), Vec3(-1.000001, 0.0, -5.0)) == 26.000002000001 {}
  lemma GrazingDiscriminant() ensures Discriminant(1.0, -10.0, 25.000002000001) == -0.000008000004 {}

  lemma GrazingNearRoot(m: Numerics)
    requires ExactSqrt(m)
    ensures NearRoot(m, Quadratic(Vec3(0.0, 1.0, 0.0), 1.0, 1.0, -10.0, 25.000002000001, -0.000008000004)) == 5.0
  {
    SqrtOfSquare(m, 0.0);
    calc {
      NearRoot(m, Quadratic(Vec3(0.0, 1.0, 0.0), 1.0, 1.0, -10.0, 25.000002000001, -0.000008000004));
      (10.0 - m.sqrt(MaxOf(-0.000008000004, 0.0))) / 2.0;
      (10.0 - m.sqrt(Sq(0.0))) / 2.0;
    }
  }
}
