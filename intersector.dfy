/**
 * org.rajawali3d.util.Intersector: static ray tests against a plane, a triangle, a sphere
 * and an axis-aligned box. A ray is given by a start point and an end point; the tests
 * that take a square root receive it as the parameter `sqrt`.
 *
 * Where the Java methods write an optional `hitPoint` out-parameter, the model returns the
 * point as a value (`Option<Vec3>`): `None` is the Java result `false`, `Some(p)` is `true`
 * together with `hitPoint.setAll(p)`.
 */
module Intersector {
  import opened Wrappers
  import opened Geometry

  /* ---------------------------------------------------------------- plane */

  /** org.rajawali3d.math.Plane: the points p with normal·p + d == 0. */
  datatype Plane = Plane(normal: Vec3, d: real)

  /** Plane.PlaneSide. */
  datatype PlaneSide = Back | OnPlane | Front

  function SignedDistance(plane: Plane, p: Vec3): real {
    Dot(plane.normal, p) + plane.d
  }

  /** The exact classification of a point against a plane, by the sign of SignedDistance. */
  function ExactSide(plane: Plane, p: Vec3): PlaneSide {
    var s := SignedDistance(plane, p);
    if s < 0.0 then Back else if s > 0.0 then Front else OnPlane
  }

  /** `p` lies on the half-line that starts at `start` and passes through `end`. */
  ghost predicate OnRay(start: Vec3, end: Vec3, p: Vec3) {
    exists t: real {:trigger PointAt(start, Sub(end, start), t)} ::
      NonNeg(t) && p == PointAt(start, Sub(end, start), t)
  }

  /**
   * intersectRayPlane. `startSide` is what plane.getPointSide(rayStart) answers; that
   * method is consulted only when the ray runs parallel to the plane.
   */
  function IntersectRayPlane(rayStart: Vec3, rayEnd: Vec3, plane: Plane, startSide: PlaneSide): (r: Option<Vec3>)
    ensures r.Some? ==> OnRay(rayStart, rayEnd, r.value)
    ensures Dot(Sub(rayEnd, rayStart), plane.normal) != 0.0 && r.Some? ==> SignedDistance(plane, r.value) == 0.0
    ensures Dot(Sub(rayEnd, rayStart), plane.normal) == 0.0 ==>
              (r.Some? <==> startSide == OnPlane) && (r.Some? ==> r.value == rayStart)
  {
    var rayDir := Sub(rayEnd, rayStart);
    var denorm := Dot(rayDir, plane.normal);
    if denorm != 0.0 then
      var t := -(Dot(rayStart, plane.normal) + plane.d) / denorm;
      if t < 0.0 then None
      else
        PlaneParameter(rayStart, rayDir, plane, t);
        Some(Add(rayStart, Scale(rayDir, t)))
    else if startSide == OnPlane then
      assert rayStart == PointAt(rayStart, rayDir, 0.0);
      Some(rayStart)
    else
      None
  }

  /** The signed distance is affine along a line. */
  lemma SignedDistanceAlong(p: Vec3, dir: Vec3, plane: Plane, t: real)
    ensures SignedDistance(plane, PointAt(p, dir, t))
         == SignedDistance(plane, p) + t * Dot(dir, plane.normal)
  {
  }

  lemma PlaneParameter(rayStart: Vec3, rayDir: Vec3, plane: Plane, t: real)
    requires Dot(rayDir, plane.normal) != 0.0
    requires t == -(Dot(rayStart, plane.normal) + plane.d) / Dot(rayDir, plane.normal)
    ensures SignedDistance(plane, PointAt(rayStart, rayDir, t)) == 0.0
  {
    var denorm := Dot(rayDir, plane.normal);
    SignedDistanceAlong(rayStart, rayDir, plane, t);
    assert t * denorm == -(Dot(rayStart, plane.normal) + plane.d);
  }

  /**
   * A non-parallel ray reports every point of the plane it reaches at a parameter t >= 0,
   * however far beyond rayEnd.
   */
  lemma PlaneHitComplete(rayStart: Vec3, rayEnd: Vec3, plane: Plane, startSide: PlaneSide, t: real)
    requires Dot(Sub(rayEnd, rayStart), plane.normal) != 0.0
    requires 0.0 <= t && SignedDistance(plane, PointAt(rayStart, Sub(rayEnd, rayStart), t)) == 0.0
    ensures IntersectRayPlane(rayStart, rayEnd, plane, startSide) == Some(PointAt(rayStart, Sub(rayEnd, rayStart), t))
  {
    var dir := Sub(rayEnd, rayStart);
    var denorm := Dot(dir, plane.normal);
    SignedDistanceAlong(rayStart, dir, plane, t);
    assert t * denorm == -(Dot(rayStart, plane.normal) + plane.d);
    assert t == -(Dot(rayStart, plane.normal) + plane.d) / denorm;
  }

  /** A ray parallel to the plane keeps the signed distance of its start point. */
  lemma ParallelRayKeepsDistance(rayStart: Vec3, rayEnd: Vec3, plane: Plane, t: real)
    requires Dot(Sub(rayEnd, rayStart), plane.normal) == 0.0
    ensures SignedDistance(plane, PointAt(rayStart, Sub(rayEnd, rayStart), t)) == SignedDistance(plane, rayStart)
  {
    SignedDistanceAlong(rayStart, Sub(rayEnd, rayStart), plane, t);
  }

  /**
   * With the exact side classification, intersectRayPlane answers true exactly when the
   * ray reaches the plane at some parameter t >= 0.
   */
  lemma PlaneHitExact(rayStart: Vec3, rayEnd: Vec3, plane: Plane)
    ensures IntersectRayPlane(rayStart, rayEnd, plane, ExactSide(plane, rayStart)).Some?
        <==> exists t: real {:trigger PointAt(rayStart, Sub(rayEnd, rayStart), t)} ::
               0.0 <= t && SignedDistance(plane, PointAt(rayStart, Sub(rayEnd, rayStart), t)) == 0.0
  {
    var dir := Sub(rayEnd, rayStart);
    var r := IntersectRayPlane(rayStart, rayEnd, plane, ExactSide(plane, rayStart));
    if Dot(dir, plane.normal) != 0.0 {
      if r.Some? {
        var t: real :| 0.0 <= t && r.value == PointAt(rayStart, dir, t);
        assert SignedDistance(plane, PointAt(rayStart, dir, t)) == 0.0;
      }
      if exists t: real {:trigger PointAt(rayStart, dir, t)} :: 0.0 <= t && SignedDistance(plane, PointAt(rayStart, dir, t)) == 0.0 {
        var t: real :| 0.0 <= t && SignedDistance(plane, PointAt(rayStart, dir, t)) == 0.0;
        PlaneHitComplete(rayStart, rayEnd, plane, ExactSide(plane, rayStart), t);
      }
    } else {
      if r.Some? {
        ParallelRayKeepsDistance(rayStart, rayEnd, plane, 0.0);
        assert SignedDistance(plane, PointAt(rayStart, dir, 0.0)) == 0.0;
      }
      if exists t: real {:trigger PointAt(rayStart, dir, t)} :: 0.0 <= t && SignedDistance(plane, PointAt(rayStart, dir, t)) == 0.0 {
        var t: real :| 0.0 <= t && SignedDistance(plane, PointAt(rayStart, dir, t)) == 0.0;
        ParallelRayKeepsDistance(rayStart, rayEnd, plane, t);
      }
    }
  }

  /** The plane z == 5 is reported for the segment from the origin to (0, 0, 1): t is not bounded by 1. */
  lemma PlaneHitBeyondEnd()
    ensures IntersectRayPlane(Zero, Vec3(0.0, 0.0, 1.0), Plane(Vec3(0.0, 0.0, 1.0), -5.0), Back)
         == Some(Vec3(0.0, 0.0, 5.0))
  {
  }

  /* ------------------------------------------------------------- triangle */

  /** Barycentric coordinates: `u` weighs the edge t3 - t1 and `v` the edge t2 - t1. */
  datatype UV = UV(u: real, v: real)

  /** The point t1 + u·(t3 - t1) + v·(t2 - t1) of the triangle's plane. */
  function TrianglePoint(t1: Vec3, t2: Vec3, t3: Vec3, uv: UV): Vec3 {
    Add(t1, Add(Scale(Sub(t3, t1), uv.u), Scale(Sub(t2, t1), uv.v)))
  }

  predicate InUnitTriangle(uv: UV) {
    uv.u >= 0.0 && uv.v >= 0.0 && uv.u + uv.v <= 1.0
  }

  /** dot00·dot11 - dot01², the determinant of the Gram matrix of the two edges. */
  function GramDeterminant(v0: Vec3, v1: Vec3): real {
    Dot(v0, v0) * Dot(v1, v1) - Dot(v0, v1) * Dot(v0, v1)
  }

  /**
   * The (u, v) of intersectRayTriangle: Cramer's rule on the Gram system; no solution is
   * reported when the determinant is zero.
   */
  function SolveBarycentric(v0: Vec3, v1: Vec3, v2: Vec3): (r: Option<UV>)
    ensures r.None? <==> GramDeterminant(v0, v1) == 0.0
    ensures r.Some? ==> r.value.u * Dot(v0, v0) + r.value.v * Dot(v0, v1) == Dot(v0, v2)
    ensures r.Some? ==> r.value.u * Dot(v0, v1) + r.value.v * Dot(v1, v1) == Dot(v1, v2)
  {
    SolveGram(Dot(v0, v0), Dot(v0, v1), Dot(v1, v1), Dot(v0, v2), Dot(v1, v2))
  }

  /** Lines 90-94 over the five dot products dot00, dot01, dot11, dot02 and dot12. */
  function SolveGram(dot00: real, dot01: real, dot11: real, dot02: real, dot12: real): (r: Option<UV>)
    ensures r.None? <==> dot00 * dot11 - dot01 * dot01 == 0.0
    ensures r.Some? ==> r.value.u * dot00 + r.value.v * dot01 == dot02
    ensures r.Some? ==> r.value.u * dot01 + r.value.v * dot11 == dot12
  {
    var denom := dot00 * dot11 - dot01 * dot01;
    if denom == 0.0 then None
    else
      var u := (dot11 * dot02 - dot01 * dot12) / denom;
      var v := (dot00 * dot12 - dot01 * dot02) / denom;
      Cramer(dot00, dot01, dot11, dot02, dot12, u, v);
      Some(UV(u, v))
  }

  /** Cramer's rule for the symmetric system [a b; b c]·(u, v) = (e, f). */
  lemma Cramer(a: real, b: real, c: real, e: real, f: real, u: real, v: real)
    requires a * c - b * b != 0.0
    requires u == (c * e - b * f) / (a * c - b * b)
    requires v == (a * f - b * e) / (a * c - b * b)
    ensures u * a + v * b == e && u * b + v * c == f
  {
    var det := a * c - b * b;
    assert Mul(u, det) == c * e - b * f;
    assert Mul(v, det) == a * f - b * e;
    assert Mul(u * a + v * b - e, det) == a * Mul(u, det) + b * Mul(v, det) - e * det;
    assert Mul(u * b + v * c - f, det) == b * Mul(u, det) + c * Mul(v, det) - f * det;
    MulZero(u * a + v * b - e, det);
    MulZero(u * b + v * c - f, det);
  }

  /** Proof helper: a zero product with a non-zero factor has a zero other factor. */
  lemma MulZero(x: real, y: real)
    requires Mul(x, y) == 0.0 && y != 0.0
    ensures x == 0.0
  {
  }

  /** Lagrange's identity: the Gram determinant is the squared length of the edges' cross product. */
  lemma GramIsCrossLength(v0: Vec3, v1: Vec3)
    ensures GramDeterminant(v0, v1) == LengthSq(Cross(v0, v1))
    ensures GramDeterminant(v0, v1) == 0.0 <==> Cross(v0, v1) == Zero
  {
  }

  /**
   * The Gram system has one solution when the determinant is non-zero, so a point of the
   * triangle's plane gets back the coordinates it was built from.
   */
  lemma SolveBarycentricRecovers(t1: Vec3, t2: Vec3, t3: Vec3, uv: UV)
    requires GramDeterminant(Sub(t3, t1), Sub(t2, t1)) != 0.0
    ensures SolveBarycentric(Sub(t3, t1), Sub(t2, t1), Sub(TrianglePoint(t1, t2, t3, uv), t1)) == Some(uv)
  {
    var v0, v1 := Sub(t3, t1), Sub(t2, t1);
    var v2 := Sub(TrianglePoint(t1, t2, t3, uv), t1);
    assert v2 == Add(Scale(v0, uv.u), Scale(v1, uv.v));
    assert Dot(v0, v2) == uv.u * Dot(v0, v0) + uv.v * Dot(v0, v1);
    assert Dot(v1, v2) == uv.u * Dot(v0, v1) + uv.v * Dot(v1, v1);
    var r := SolveBarycentric(v0, v1, v2);
    GramUnique(Dot(v0, v0), Dot(v0, v1), Dot(v1, v1), r.value.u - uv.u, r.value.v - uv.v);
  }

  /** The homogeneous Gram system with a non-zero determinant has only the zero solution. */
  lemma GramUnique(a: real, b: real, c: real, x: real, y: real)
    requires a * c - b * b != 0.0
    requires x * a + y * b == 0.0 && x * b + y * c == 0.0
    ensures x == 0.0 && y == 0.0
  {
    var det := a * c - b * b;
    assert Mul(x, det) == c * (x * a + y * b) - b * (x * b + y * c);
    assert Mul(y, det) == a * (x * b + y * c) - b * (x * a + y * b);
    MulZero(x, det);
    MulZero(y, det);
  }

  /**
   * intersectRayTriangle. Plane.set(t1, t2, t3) is not part of this model: the caller
   * passes the plane through the three vertices and the side of rayStart against it.
   */
  function IntersectRayTriangle(rayStart: Vec3, rayEnd: Vec3, t1: Vec3, t2: Vec3, t3: Vec3,
                                plane: Plane, startSide: PlaneSide): (r: Option<Vec3>)
    ensures IntersectRayPlane(rayStart, rayEnd, plane, startSide).None? ==> r.None?
    ensures GramDeterminant(Sub(t3, t1), Sub(t2, t1)) == 0.0 ==> r.None?
    ensures r.Some? ==> r == IntersectRayPlane(rayStart, rayEnd, plane, startSide)
    ensures r.Some? ==> exists uv :: InUnitTriangle(uv) && ProjectsTo(t1, t2, t3, r.value, uv)
  {
    match IntersectRayPlane(rayStart, rayEnd, plane, startSide)
    case None => None
    case Some(i) =>
      match SolveBarycentric(Sub(t3, t1), Sub(t2, t1), Sub(i, t1))
      case None => None
      case Some(uv) =>
        if uv.u >= 0.0 && uv.v >= 0.0 && uv.u + uv.v <= 1.0 then
          ProjectionOfSolution(t1, t2, t3, i, uv);
          Some(i)
        else
          None
  }

  /**
   * The point of the triangle's plane with coordinates `uv` is the orthogonal projection of
   * `p`: what remains of p is perpendicular to both edges.
   */
  ghost predicate ProjectsTo(t1: Vec3, t2: Vec3, t3: Vec3, p: Vec3, uv: UV) {
    var rest := Sub(p, TrianglePoint(t1, t2, t3, uv));
    Dot(Sub(t3, t1), rest) == 0.0 && Dot(Sub(t2, t1), rest) == 0.0
  }

  lemma ProjectionOfSolution(t1: Vec3, t2: Vec3, t3: Vec3, p: Vec3, uv: UV)
    requires SolveBarycentric(Sub(t3, t1), Sub(t2, t1), Sub(p, t1)) == Some(uv)
    ensures ProjectsTo(t1, t2, t3, p, uv)
  {
    var v0, v1, v2 := Sub(t3, t1), Sub(t2, t1), Sub(p, t1);
    var rest := Sub(p, TrianglePoint(t1, t2, t3, uv));
    assert rest == Sub(v2, Add(Scale(v0, uv.u), Scale(v1, uv.v)));
    DotResidual(v0, v2, v0, v1, uv.u, uv.v);
    DotResidual(v1, v2, v0, v1, uv.u, uv.v);
    assert Dot(v1, v0) == Dot(v0, v1);
  }

  lemma DotResidual(a: Vec3, w: Vec3, c: Vec3, d: Vec3, u: real, v: real)
    ensures Dot(a, Sub(w, Add(Scale(c, u), Scale(d, v)))) == Dot(a, w) - u * Dot(a, c) - v * Dot(a, d)
  {
  }

  /**
   * For a plane hit that lies in the triangle's plane, at coordinates `uv`, of a
   * non-degenerate triangle: intersectRayTriangle accepts it exactly when it lies in the
   * closed triangle.
   */
  lemma TriangleHitExact(rayStart: Vec3, rayEnd: Vec3, t1: Vec3, t2: Vec3, t3: Vec3,
                         plane: Plane, startSide: PlaneSide, uv: UV)
    requires IntersectRayPlane(rayStart, rayEnd, plane, startSide) == Some(TrianglePoint(t1, t2, t3, uv))
    requires GramDeterminant(Sub(t3, t1), Sub(t2, t1)) != 0.0
    ensures IntersectRayTriangle(rayStart, rayEnd, t1, t2, t3, plane, startSide).Some? <==> InUnitTriangle(uv)
  {
    SolveBarycentricRecovers(t1, t2, t3, uv);
  }

  /* --------------------------------------------------------------- sphere */

  /** The coefficients a·t² + b·t + c of the squared distance to the sphere, less radius². */
  datatype Quadratic = Quadratic(a: real, b: real, c: real)

  function Eval(qd: Quadratic, t: real): real {
    qd.a * Sq(t) + qd.b * t + qd.c
  }

  function Discriminant(qd: Quadratic): real {
    Sq(qd.b) - 4.0 * qd.a * qd.c
  }

  /** The quadratic of intersectRaySphere for direction `dir` (normalised by the caller). */
  function SphereQuadratic(rayStart: Vec3, dir: Vec3, center: Vec3, radius: real): Quadratic {
    Quadratic(Dot(dir, dir),
              2.0 * Dot(dir, Sub(rayStart, center)),
              Dot(center, center) + Dot(rayStart, rayStart) - 2.0 * Dot(center, rayStart) - Sq(radius))
  }

  /** The quadratic measures how far the squared distance to the center exceeds radius². */
  lemma SphereQuadraticEval(rayStart: Vec3, dir: Vec3, center: Vec3, radius: real, t: real)
    ensures Eval(SphereQuadratic(rayStart, dir, center, radius), t)
         == LengthSq(Sub(PointAt(rayStart, dir, t), center)) - Sq(radius)
  {
    DistanceSqAlongLine(rayStart, dir, center, t);
  }

  /** The root -b ∓ sqrt(disc) over two whose sign avoids cancellation (libGDX). */
  function StableRoot(b: real, root: real): real {
    if b < 0.0 then (-b - root) / 2.0 else (-b + root) / 2.0
  }

  /**
   * Lines 135-163 over the quadratic's b and c and the root of its discriminant: the
   * distance at which intersectRaySphere reports a hit, or None for false. When the stable
   * root q is 0 (only possible when c is 0 or, for a degenerate ray, whatever c is), Java's
   * t0 = q is 0 and c / q is not a finite number: +Infinity keeps t0 = 0 as the reported
   * distance; -Infinity is swapped below t0, so t1 = 0 is reported by the t0 < 0 branch; NaN
   * makes every comparison false and t0 = 0 is reported. In all three cases the hit is at
   * distance 0, which the model writes out as its own branch.
   */
  function NearestRoot(b: real, c: real, root: real): (r: Option<real>)
    ensures r.Some? ==> 0.0 <= r.value
  {
    var q := StableRoot(b, root);
    if q == 0.0 then Some(0.0)
    else
      var t0 := if q > c / q then c / q else q;
      var t1 := if q > c / q then q else c / q;
      if t1 < 0.0 then None
      else if t0 < 0.0 then Some(t1)
      else Some(t0)
  }

  /** The outcome of intersectRaySphere: the boolean, and the parameter and point it computes. */
  datatype SphereHit = SphereMiss | SphereHit(t: real, point: Vec3)

  /**
   * intersectRaySphere. The direction is normalised, so `t` is a distance from rayStart.
   * The hit point is returned here although Java only assigns it to its own parameter, so
   * no caller ever sees it.
   */
  function IntersectRaySphere(rayStart: Vec3, rayEnd: Vec3, center: Vec3, radius: real,
                              sqrt: real -> real): (r: SphereHit)
    requires IsSqrt(sqrt)
    ensures r.SphereHit? ==> 0.0 <= r.t
    ensures r.SphereHit? ==> r.point == PointAt(rayStart, Normalize(Sub(rayEnd, rayStart), sqrt).unit, r.t)
  {
    SphereAlong(rayStart, Normalize(Sub(rayEnd, rayStart), sqrt).unit, center, radius, sqrt)
  }

  /** Lines 125-165 once the direction `dir` has been normalised. */
  function SphereAlong(rayStart: Vec3, dir: Vec3, center: Vec3, radius: real, sqrt: real -> real): (r: SphereHit)
    ensures r.SphereHit? ==> 0.0 <= r.t && r.point == PointAt(rayStart, dir, r.t)
  {
    var qd := SphereQuadratic(rayStart, dir, center, radius);
    var disc := Discriminant(qd);
    if disc < 0.0 then SphereMiss
    else
      match NearestRoot(qd.b, qd.c, sqrt(disc))
      case None => SphereMiss
      case Some(t) => SphereHit(t, PointAt(rayStart, dir, t))
  }

  /** SphereAlong when NearestRoot reports distance `t`. */
  lemma SphereAlongHit(rayStart: Vec3, dir: Vec3, center: Vec3, radius: real, sqrt: real -> real, t: real)
    requires 0.0 <= Discriminant(SphereQuadratic(rayStart, dir, center, radius))
    requires NearestRoot(SphereQuadratic(rayStart, dir, center, radius).b, SphereQuadratic(rayStart, dir, center, radius).c,
                         sqrt(Discriminant(SphereQuadratic(rayStart, dir, center, radius)))) == Some(t)
    ensures SphereAlong(rayStart, dir, center, radius, sqrt) == SphereHit(t, PointAt(rayStart, dir, t))
  {
  }

  /** A direction normalised from a non-zero vector has length one, so a == 1. */
  lemma UnitDirection(rayStart: Vec3, rayEnd: Vec3, sqrt: real -> real)
    requires IsSqrt(sqrt) && rayStart != rayEnd
    ensures Dot(Normalize(Sub(rayEnd, rayStart), sqrt).unit, Normalize(Sub(rayEnd, rayStart), sqrt).unit) == 1.0
  {
    assert Sub(rayEnd, rayStart) != Zero;
  }

  /**
   * For a == 1 the stable root q and c / q are the two roots of t² + b·t + c: their
   * product is c and their sum is -b (Vieta).
   */
  lemma StableRoots(b: real, c: real, root: real)
    requires 0.0 <= root && Sq(root) == Sq(b) - 4.0 * c
    requires StableRoot(b, root) != 0.0
    ensures var q := StableRoot(b, root);
            Sq(q) + b * q + c == 0.0 && Sq(c / q) + b * (c / q) + c == 0.0
            && q * (c / q) == c && q + c / q == -b
  {
    var q := StableRoot(b, root);
    if b < 0.0 {
      assert root == -b - 2.0 * q;
      assert Sq(-b - 2.0 * q) == Sq(b) + 4.0 * (b * q) + 4.0 * Sq(q);
    } else {
      assert root == b + 2.0 * q;
      assert Sq(b + 2.0 * q) == Sq(b) + 4.0 * (b * q) + 4.0 * Sq(q);
    }
    assert Sq(q) + b * q + c == 0.0;
    var s := c / q;
    assert Mul(s, q) == c;
    assert Mul(q + s + b, q) == Sq(q) + b * q + Mul(s, q);
    MulZero(q + s + b, q);
    assert s == -b - q;
    assert Sq(-b - q) + b * (-b - q) == Sq(q) + b * q;
  }

  /** Proof helper: a zero product has a zero factor. */
  lemma MulZeroEither(x: real, y: real)
    requires Mul(x, y) == 0.0
    ensures x == 0.0 || y == 0.0
  {
    if x != 0.0 {
      assert Mul(y, x) == Mul(x, y);
      MulZero(y, x);
    }
  }

  /** The stable root is zero exactly when c is, for a == 1. */
  lemma StableRootZero(b: real, c: real, root: real)
    requires 0.0 <= root && Sq(root) == Sq(b) - 4.0 * c
    requires StableRoot(b, root) == 0.0
    ensures c == 0.0
  {
    if b < 0.0 {
      assert root == -b;
    } else {
      assert root == b;
    }
    assert Sq(root) == Sq(b);
  }

  /** The reported distance is a root of t² + b·t + c. */
  lemma NearestRootIsRoot(b: real, c: real, root: real, t: real)
    requires 0.0 <= root && Sq(root) == Sq(b) - 4.0 * c
    requires NearestRoot(b, c, root) == Some(t)
    ensures Sq(t) + b * t + c == 0.0
  {
    if StableRoot(b, root) == 0.0 {
      StableRootZero(b, c, root);
    } else {
      StableRoots(b, c, root);
    }
  }

  /** Every root t >= 0 of t² + b·t + c lets NearestRoot report a distance no larger than t. */
  lemma NearestRootIsNearest(b: real, c: real, root: real, t: real)
    requires 0.0 <= root && Sq(root) == Sq(b) - 4.0 * c
    requires 0.0 <= t && Sq(t) + b * t + c == 0.0
    ensures NearestRoot(b, c, root).Some? && NearestRoot(b, c, root).value <= t
  {
    var q := StableRoot(b, root);
    if q != 0.0 {
      StableRoots(b, c, root);
      var s := c / q;
      assert Mul(t - q, t - s) == Sq(t) - (q + s) * t + q * s;
      assert Mul(t - q, t - s) == 0.0;
      MulZeroEither(t - q, t - s);
    }
  }

  /** Every reported sphere hit of a proper ray lies on the sphere. */
  lemma SphereHitOnSurface(rayStart: Vec3, rayEnd: Vec3, center: Vec3, radius: real, sqrt: real -> real)
    requires IsSqrt(sqrt) && rayStart != rayEnd
    ensures IntersectRaySphere(rayStart, rayEnd, center, radius, sqrt).SphereHit? ==>
              LengthSq(Sub(IntersectRaySphere(rayStart, rayEnd, center, radius, sqrt).point, center)) == Sq(radius)
  {
    var dir := Normalize(Sub(rayEnd, rayStart), sqrt).unit;
    UnitDirection(rayStart, rayEnd, sqrt);
    var disc := Discriminant(SphereQuadratic(rayStart, dir, center, radius));
    assert NonNeg(disc) ==> NonNeg(sqrt(disc)) && Sq(sqrt(disc)) == disc;
    AlongOnSurface(rayStart, dir, center, radius, sqrt);
  }

  /** Along a unit direction, a reported hit lies on the sphere. */
  lemma AlongOnSurface(rayStart: Vec3, dir: Vec3, center: Vec3, radius: real, sqrt: real -> real)
    requires Dot(dir, dir) == 1.0
    requires var disc := Discriminant(SphereQuadratic(rayStart, dir, center, radius));
             NonNeg(disc) ==> NonNeg(sqrt(disc)) && Sq(sqrt(disc)) == disc
    ensures SphereAlong(rayStart, dir, center, radius, sqrt).SphereHit? ==>
              LengthSq(Sub(SphereAlong(rayStart, dir, center, radius, sqrt).point, center)) == Sq(radius)
  {
    var qd := SphereQuadratic(rayStart, dir, center, radius);
    var r := SphereAlong(rayStart, dir, center, radius, sqrt);
    if r.SphereHit? {
      var root := sqrt(Discriminant(qd));
      assert 0.0 <= root && Sq(root) == Sq(qd.b) - 4.0 * qd.c;
      assert NearestRoot(qd.b, qd.c, root) == Some(r.t);
      NearestRootIsRoot(qd.b, qd.c, root, r.t);
      RootOnSurface(rayStart, dir, center, radius, r.t);
    }
  }

  /** A root of the sphere's quadratic for a unit direction is a point on the sphere. */
  lemma RootOnSurface(rayStart: Vec3, dir: Vec3, center: Vec3, radius: real, t: real)
    requires Dot(dir, dir) == 1.0
    requires Sq(t) + SphereQuadratic(rayStart, dir, center, radius).b * t + SphereQuadratic(rayStart, dir, center, radius).c == 0.0
    ensures LengthSq(Sub(PointAt(rayStart, dir, t), center)) == Sq(radius)
  {
    var qd := SphereQuadratic(rayStart, dir, center, radius);
    MonicEval(qd, t);
    assert Eval(qd, t) == 0.0;
    SphereQuadraticEval(rayStart, dir, center, radius, t);
  }

  lemma MonicEval(qd: Quadratic, t: real)
    requires qd.a == 1.0
    ensures Eval(qd, t) == Sq(t) + qd.b * t + qd.c
  {
  }

  /**
   * intersectRaySphere finds the nearest point: if a proper ray meets the sphere at distance
   * t >= 0, the test reports a hit at a distance no larger than t.
   */
  lemma SphereHitNearest(rayStart: Vec3, rayEnd: Vec3, center: Vec3, radius: real, sqrt: real -> real, t: real)
    requires IsSqrt(sqrt) && rayStart != rayEnd && 0.0 <= t
    requires LengthSq(Sub(PointAt(rayStart, Normalize(Sub(rayEnd, rayStart), sqrt).unit, t), center)) == Sq(radius)
    ensures IntersectRaySphere(rayStart, rayEnd, center, radius, sqrt).SphereHit?
    ensures IntersectRaySphere(rayStart, rayEnd, center, radius, sqrt).t <= t
  {
    var dir := Normalize(Sub(rayEnd, rayStart), sqrt).unit;
    UnitDirection(rayStart, rayEnd, sqrt);
    var qd := SphereQuadratic(rayStart, dir, center, radius);
    SphereQuadraticEval(rayStart, dir, center, radius, t);
    assert Eval(qd, t) == 0.0;
    assert Sq(t) + qd.b * t + qd.c == 0.0;
    assert Discriminant(qd) == Sq(2.0 * t + qd.b);
    SqSign(2.0 * t + qd.b);
    NearestRootIsNearest(qd.b, qd.c, sqrt(Discriminant(qd)), t);
  }

  /** A ray whose start and end coincide has no direction, and it hits every sphere at its start. */
  lemma SphereDegenerateRay(rayStart: Vec3, center: Vec3, radius: real, sqrt: real -> real)
    requires IsSqrt(sqrt)
    ensures IntersectRaySphere(rayStart, rayStart, center, radius, sqrt) == SphereHit(0.0, rayStart)
  {
    NoDirection(rayStart, sqrt);
    SqrtOf(sqrt, 0.0, 0.0);
    ZeroDirectionHits(rayStart, center, radius, sqrt);
  }

  /** Normalising the zero vector leaves the zero vector. */
  lemma NoDirection(rayStart: Vec3, sqrt: real -> real)
    requires IsSqrt(sqrt)
    ensures Normalize(Sub(rayStart, rayStart), sqrt).unit == Zero
  {
    assert Sub(rayStart, rayStart) == Zero;
  }

  /** Along the zero direction a = b = 0 and the discriminant is 0, so q = 0 and the hit is at the start. */
  lemma ZeroDirectionHits(rayStart: Vec3, center: Vec3, radius: real, sqrt: real -> real)
    requires sqrt(0.0) == 0.0
    ensures SphereAlong(rayStart, Zero, center, radius, sqrt) == SphereHit(0.0, rayStart)
  {
    var qd := SphereQuadratic(rayStart, Zero, center, radius);
    assert qd.a == 0.0 && qd.b == 0.0;
    assert Discriminant(qd) == 0.0;
    PointAtStart(rayStart, Zero);
  }

  /**
   * The segment from (0, 0, 10) to (0, 0, -10) meets the unit sphere at distances 9 and 11;
   * the nearer one, at (0, 0, 1), is reported.
   */
  lemma SphereHitExample(sqrt: real -> real)
    requires IsSqrt(sqrt)
    ensures IntersectRaySphere(Vec3(0.0, 0.0, 10.0), Vec3(0.0, 0.0, -10.0), Zero, 1.0, sqrt)
         == SphereHit(9.0, Vec3(0.0, 0.0, 1.0))
  {
    DownwardDirection(sqrt);
    SqrtOf(sqrt, 4.0, 2.0);
    DownwardAlong(sqrt);
  }

  /**
   * From inside the sphere the far intersection is reported: from the center (0, 0, 5) of
   * the unit sphere towards (0, 0, 7) the hit is (0, 0, 6), at distance 1.
   */
  lemma SphereHitFromInside(sqrt: real -> real)
    requires IsSqrt(sqrt)
    ensures IntersectRaySphere(Vec3(0.0, 0.0, 5.0), Vec3(0.0, 0.0, 7.0), Vec3(0.0, 0.0, 5.0), 1.0, sqrt)
         == SphereHit(1.0, Vec3(0.0, 0.0, 6.0))
  {
    UpwardDirection(sqrt);
    SqrtOf(sqrt, 4.0, 2.0);
    UpwardAlong(sqrt);
  }

  /*
   * Proof scaffolding for the two examples above: each step evaluates one part of the
   * sphere test on the example's literals, in a lemma of its own so that the solver sees
   * one small arithmetic fact at a time. They state nothing beyond the two examples.
   */

  /** SphereAlong evaluated from its quadratic, the root of its discriminant and the nearest root. */
  lemma SphereAlongFrom(rayStart: Vec3, dir: Vec3, center: Vec3, radius: real, sqrt: real -> real,
                        qd: Quadratic, root: real, t: real)
    requires SphereQuadratic(rayStart, dir, center, radius) == qd
    requires 0.0 <= Discriminant(qd) && sqrt(Discriminant(qd)) == root
    requires NearestRoot(qd.b, qd.c, root) == Some(t)
    ensures SphereAlong(rayStart, dir, center, radius, sqrt) == SphereHit(t, PointAt(rayStart, dir, t))
  {
  }

  lemma DownwardDirection(sqrt: real -> real)
    requires IsSqrt(sqrt)
    ensures Normalize(Sub(Vec3(0.0, 0.0, -10.0), Vec3(0.0, 0.0, 10.0)), sqrt).unit == Vec3(0.0, 0.0, -1.0)
  {
    var v := Sub(Vec3(0.0, 0.0, -10.0), Vec3(0.0, 0.0, 10.0));
    assert v == Vec3(0.0, 0.0, -20.0);
    assert Sq(20.0) == LengthSq(v);
    NormalizeBy(v, sqrt, 20.0);
  }

  lemma DownwardAlong(sqrt: real -> real)
    requires sqrt(4.0) == 2.0
    ensures SphereAlong(Vec3(0.0, 0.0, 10.0), Vec3(0.0, 0.0, -1.0), Zero, 1.0, sqrt) == SphereHit(9.0, Vec3(0.0, 0.0, 1.0))
  {
    DownwardQuadratic();
    DownwardDiscriminant();
    DownwardRoot();
    DownwardPoint();
    SphereAlongFrom(Vec3(0.0, 0.0, 10.0), Vec3(0.0, 0.0, -1.0), Zero, 1.0, sqrt, Quadratic(1.0, -20.0, 99.0), 2.0, 9.0);
  }

  lemma DownwardQuadratic()
    ensures SphereQuadratic(Vec3(0.0, 0.0, 10.0), Vec3(0.0, 0.0, -1.0), Zero, 1.0) == Quadratic(1.0, -20.0, 99.0)
  {
  }

  lemma DownwardDiscriminant()
    ensures Discriminant(Quadratic(1.0, -20.0, 99.0)) == 4.0
  {
  }

  lemma DownwardRoot()
    ensures NearestRoot(-20.0, 99.0, 2.0) == Some(9.0)
  {
  }

  lemma DownwardPoint()
    ensures PointAt(Vec3(0.0, 0.0, 10.0), Vec3(0.0, 0.0, -1.0), 9.0) == Vec3(0.0, 0.0, 1.0)
  {
  }

  lemma UpwardDirection(sqrt: real -> real)
    requires IsSqrt(sqrt)
    ensures Normalize(Sub(Vec3(0.0, 0.0, 7.0), Vec3(0.0, 0.0, 5.0)), sqrt).unit == Vec3(0.0, 0.0, 1.0)
  {
    var v := Sub(Vec3(0.0, 0.0, 7.0), Vec3(0.0, 0.0, 5.0));
    assert v == Vec3(0.0, 0.0, 2.0);
    assert Sq(2.0) == LengthSq(v);
    NormalizeBy(v, sqrt, 2.0);
  }

  lemma UpwardAlong(sqrt: real -> real)
    requires sqrt(4.0) == 2.0
    ensures SphereAlong(Vec3(0.0, 0.0, 5.0), Vec3(0.0, 0.0, 1.0), Vec3(0.0, 0.0, 5.0), 1.0, sqrt)
         == SphereHit(1.0, Vec3(0.0, 0.0, 6.0))
  {
    UpwardQuadratic();
    UpwardDiscriminant();
    UpwardRoot();
    UpwardPoint();
    SphereAlongFrom(Vec3(0.0, 0.0, 5.0), Vec3(0.0, 0.0, 1.0), Vec3(0.0, 0.0, 5.0), 1.0, sqrt, Quadratic(1.0, 0.0, -1.0), 2.0, 1.0);
  }

  lemma UpwardQuadratic()
    ensures SphereQuadratic(Vec3(0.0, 0.0, 5.0), Vec3(0.0, 0.0, 1.0), Vec3(0.0, 0.0, 5.0), 1.0) == Quadratic(1.0, 0.0, -1.0)
  {
  }

  lemma UpwardDiscriminant()
    ensures Discriminant(Quadratic(1.0, 0.0, -1.0)) == 4.0
  {
  }

  lemma UpwardRoot()
    ensures NearestRoot(0.0, -1.0, 2.0) == Some(1.0)
  {
  }

  lemma UpwardPoint()
    ensures PointAt(Vec3(0.0, 0.0, 5.0), Vec3(0.0, 0.0, 1.0), 1.0) == Vec3(0.0, 0.0, 6.0)
  {
  }

  /* ------------------------------------------------------------------ box */

  /** The transformed corners of a BoundingBox, as getTransformedMin and getTransformedMax give them. */
  datatype Box = Box(min: Vec3, max: Vec3)

  /** A box whose minimum corner lies below its maximum corner on every axis. */
  predicate WellFormed(box: Box) {
    box.min.x <= box.max.x && box.min.y <= box.max.y && box.min.z <= box.max.z
  }

  /** The slab of the box on axis `i` holds coordinate `i` of `p`. */
  predicate AxisInRange(box: Box, p: Vec3, i: Axis) {
    box.min.At(i) <= p.At(i) <= box.max.At(i)
  }

  predicate InBox(box: Box, p: Vec3) {
    AxisInRange(box, p, 0) && AxisInRange(box, p, 1) && AxisInRange(box, p, 2)
  }

  /** QUAD_LEFT, QUAD_RIGHT and QUAD_MIDDLE: where the ray origin lies against a slab. */
  datatype Quadrant = Left | Right | Middle

  /*
   * One axis at a time: `o` is the origin's coordinate, `d` the direction's, and [lo, hi]
   * the slab of the box on that axis.
   */

  /** Lines 191-204: the quadrant of the origin against one slab. */
  function SlabQuadrant(o: real, lo: real, hi: real): (r: Quadrant)
    ensures r == Middle <==> lo <= o <= hi
  {
    if o < lo then Left else if o > hi then Right else Middle
  }

  /** The face of the slab the ray must cross; a fresh Java array holds 0 for a middle axis. */
  function SlabCandidate(o: real, lo: real, hi: real): real {
    match SlabQuadrant(o, lo, hi)
    case Left => lo
    case Right => hi
    case Middle => 0.0
  }

  /** Lines 217-220: the distance along the ray to the candidate face, or -1 when there is none. */
  function SlabMaxT(o: real, d: real, lo: real, hi: real): real {
    if SlabQuadrant(o, lo, hi) != Middle && d != 0.0 then (SlabCandidate(o, lo, hi) - o) / d
    else -1.0
  }

  function QuadrantAt(box: Box, origin: Vec3, i: Axis): (r: Quadrant)
    ensures r == Middle <==> AxisInRange(box, origin, i)
  {
    SlabQuadrant(origin.At(i), box.min.At(i), box.max.At(i))
  }

  function CandidateAt(box: Box, origin: Vec3, i: Axis): real {
    SlabCandidate(origin.At(i), box.min.At(i), box.max.At(i))
  }

  function MaxTAt(box: Box, origin: Vec3, dir: Vec3, i: Axis): real {
    SlabMaxT(origin.At(i), dir.At(i), box.min.At(i), box.max.At(i))
  }

  /** The array maxT once lines 215-221 have filled it. */
  function EntryTimes(box: Box, origin: Vec3, dir: Vec3): (r: seq<real>)
    ensures |r| == 3 && forall i: Axis :: r[i] == MaxTAt(box, origin, dir, i)
  {
    [MaxTAt(box, origin, dir, 0), MaxTAt(box, origin, dir, 1), MaxTAt(box, origin, dir, 2)]
  }

  /**
   * Lines 224-228: the index of the largest entry, the first one among equals, as the scan
   * that replaces its candidate only on a strictly larger value finds it.
   */
  function FirstMax(ts: seq<real>): (r: nat)
    requires |ts| > 0
    ensures r < |ts|
    ensures forall j :: 0 <= j < |ts| ==> ts[j] <= ts[r]
    ensures forall j :: 0 <= j < r ==> ts[j] < ts[r]
  {
    if |ts| == 1 then 0
    else
      var w := FirstMax(ts[..|ts| - 1]);
      if ts[w] < ts[|ts| - 1] then |ts| - 1 else w
  }

  /** Lines 234-245: coordinate `i` of the candidate point at distance `t`, face `which`. */
  function BoxCoord(box: Box, origin: Vec3, dir: Vec3, which: Axis, t: real, i: Axis): real {
    if i == which then CandidateAt(box, origin, i) else PointAt(origin, dir, t).At(i)
  }

  function BoxPoint(box: Box, origin: Vec3, dir: Vec3, which: Axis, t: real): (r: Vec3)
    ensures forall i: Axis :: r.At(i) == BoxCoord(box, origin, dir, which, t, i)
  {
    Vec3(BoxCoord(box, origin, dir, which, t, 0), BoxCoord(box, origin, dir, which, t, 1),
         BoxCoord(box, origin, dir, which, t, 2))
  }

  /** Every axis but `which` has `p` inside its slab. */
  predicate OffAxesInRange(box: Box, p: Vec3, which: Axis) {
    forall i: Axis :: i != which ==> AxisInRange(box, p, i)
  }

  /**
   * intersectRayBox (Woo's algorithm) as a function: the point written to hitPoint, or
   * None for false. The method IntersectRayBox below follows the Java loops over arrays.
   */
  function RayBox(box: Box, rayStart: Vec3, rayEnd: Vec3, sqrt: real -> real): Option<Vec3>
    requires IsSqrt(sqrt)
  {
    var n := Normalize(Sub(rayEnd, rayStart), sqrt);
    WooAlong(box, rayStart, n.unit, n.magnitude, sqrt)
  }

  /** Lines 186-255 once the direction has been normalised and its length kept in rayLength. */
  function WooAlong(box: Box, rayStart: Vec3, dir: Vec3, rayLength: real, sqrt: real -> real): Option<Vec3>
    requires IsSqrt(sqrt)
  {
    if InBox(box, rayStart) then Some(rayStart)
    else
      var ts := EntryTimes(box, rayStart, dir);
      var w := FirstMax(ts);
      if ts[w] < 0.0 then None
      else
        var p := BoxPoint(box, rayStart, dir, w, ts[w]);
        if !OffAxesInRange(box, p, w) then None
        else if rayLength < Distance(rayStart, p, sqrt) then None
        else Some(p)
  }

  /**
   * intersectRayBox, lines 169-256, over the Java working arrays. Each of its four loops is
   * one of the methods below.
   */
  method IntersectRayBox(box: Box, rayStart: Vec3, rayEnd: Vec3, hitPoint: Vec3, sqrt: real -> real)
    returns (hit: bool, newHitPoint: Vec3)
    requires IsSqrt(sqrt)
    ensures hit == RayBox(box, rayStart, rayEnd, sqrt).Some?
    ensures newHitPoint == if hit then RayBox(box, rayStart, rayEnd, sqrt).value else hitPoint
  {
    var n := Normalize(Sub(rayEnd, rayStart), sqrt);
    var dir, rayLength := n.unit, n.magnitude;
    var quadrant, candidatePlane, inside := FindCandidatePlanes(box, rayStart);
    if inside {
      return true, rayStart;
    }
    var maxT := DistancesToPlanes(box, rayStart, dir, quadrant, candidatePlane);
    var whichPlane := LargestDistance(maxT);
    if maxT[whichPlane] < 0.0 {
      return false, hitPoint;
    }
    var intersect := CandidatePoint(box, rayStart, dir, whichPlane, maxT[whichPlane], candidatePlane);
    if intersect.None? {
      return false, hitPoint;
    }
    if rayLength < Distance(rayStart, intersect.value, sqrt) {
      return false, hitPoint;
    }
    return true, intersect.value;
  }

  /** Lines 189-205: the quadrant and candidate plane of every axis, and whether the origin is inside. */
  method FindCandidatePlanes(box: Box, origin: Vec3) returns (quadrant: array<Quadrant>, candidatePlane: array<real>, inside: bool)
    ensures fresh(quadrant) && fresh(candidatePlane)
    ensures quadrant.Length == 3 && candidatePlane.Length == 3
    ensures forall j: Axis :: quadrant[j] == QuadrantAt(box, origin, j)
    ensures forall j: Axis :: candidatePlane[j] == CandidateAt(box, origin, j)
    ensures inside == InBox(box, origin)
  {
    inside := true;
    quadrant := new Quadrant[3](_ => Left);
    candidatePlane := new real[3](_ => 0.0);
    for i := 0 to 3
      invariant forall j: Axis :: j < i ==> quadrant[j] == QuadrantAt(box, origin, j)
      invariant forall j: Axis :: j < i ==> candidatePlane[j] == CandidateAt(box, origin, j)
      invariant forall j: Axis :: i <= j ==> candidatePlane[j] == 0.0
      invariant inside <==> forall j: Axis :: j < i ==> AxisInRange(box, origin, j)
    {
      if origin.At(i) < box.min.At(i) {
        quadrant[i] := Left;
        candidatePlane[i] := box.min.At(i);
        inside := false;
        assert !AxisInRange(box, origin, i);
      } else if origin.At(i) > box.max.At(i) {
        quadrant[i] := Right;
        candidatePlane[i] := box.max.At(i);
        inside := false;
        assert !AxisInRange(box, origin, i);
      } else {
        quadrant[i] := Middle;
        assert AxisInRange(box, origin, i);
      }
    }
  }

  /** Lines 215-221: the distance to each candidate plane, -1 where there is none. */
  method DistancesToPlanes(box: Box, origin: Vec3, dir: Vec3, quadrant: array<Quadrant>, candidatePlane: array<real>)
    returns (maxT: array<real>)
    requires quadrant.Length == 3 && candidatePlane.Length == 3
    requires forall j: Axis :: quadrant[j] == QuadrantAt(box, origin, j)
    requires forall j: Axis :: candidatePlane[j] == CandidateAt(box, origin, j)
    ensures fresh(maxT) && maxT[..] == EntryTimes(box, origin, dir)
  {
    maxT := new real[3](_ => 0.0);
    for i := 0 to 3
      invariant forall j: Axis :: j < i ==> maxT[j] == MaxTAt(box, origin, dir, j)
    {
      if quadrant[i] != Middle && dir.At(i) != 0.0 {
        maxT[i] := (candidatePlane[i] - origin.At(i)) / dir.At(i);
      } else {
        maxT[i] := -1.0;
      }
    }
    assert maxT[..] == [maxT[0], maxT[1], maxT[2]];
  }

  /** Lines 224-228: the first axis with the largest distance. */
  method LargestDistance(maxT: array<real>) returns (whichPlane: Axis)
    requires maxT.Length == 3
    ensures whichPlane == FirstMax(maxT[..])
  {
    whichPlane := 0;
    for i := 1 to 3
      invariant whichPlane == FirstMax(maxT[..i])
    {
      assert maxT[..i + 1][..i] == maxT[..i];
      if maxT[whichPlane] < maxT[i] {
        whichPlane := i;
      }
    }
    assert maxT[..3] == maxT[..];
  }

  /**
   * Lines 234-247: the point at distance `t` on face `whichPlane`, or None as soon as one of
   * the other coordinates leaves its slab.
   */
  method CandidatePoint(box: Box, origin: Vec3, dir: Vec3, whichPlane: Axis, t: real, candidatePlane: array<real>)
    returns (intersect: Option<Vec3>)
    requires candidatePlane.Length == 3
    requires forall j: Axis :: candidatePlane[j] == CandidateAt(box, origin, j)
    ensures intersect == if OffAxesInRange(box, BoxPoint(box, origin, dir, whichPlane, t), whichPlane)
                         then Some(BoxPoint(box, origin, dir, whichPlane, t)) else None
  {
    var along := PointAt(origin, dir, t);
    var coord := new real[3](_ => 0.0);
    for i := 0 to 3
      invariant forall j: Axis :: j < i ==> coord[j] == BoxCoord(box, origin, dir, whichPlane, t, j)
      invariant forall j: Axis :: j < i && j != whichPlane ==> box.min.At(j) <= coord[j] <= box.max.At(j)
    {
      if whichPlane != i {
        coord[i] := along.At(i);
        if coord[i] < box.min.At(i) || coord[i] > box.max.At(i) {
          assert BoxPoint(box, origin, dir, whichPlane, t).At(i) == coord[i];
          assert !AxisInRange(box, BoxPoint(box, origin, dir, whichPlane, t), i);
          return None;
        }
      } else {
        coord[i] := candidatePlane[i];
      }
    }
    intersect := Some(Vec3(coord[0], coord[1], coord[2]));
    assert intersect.value == BoxPoint(box, origin, dir, whichPlane, t);
  }

  /* Properties of the box test. */

  predicate Within(lo: real, x: real, hi: real) {
    lo <= x <= hi
  }

  /** `p` lies on the segment from `start` to `end`, at most the fraction `upTo` of the way along. */
  ghost predicate OnSegmentUpTo(start: Vec3, end: Vec3, p: Vec3, upTo: real) {
    exists mu: real {:trigger PointAt(start, Sub(end, start), mu)} ::
      Within(0.0, mu, upTo) && p == PointAt(start, Sub(end, start), mu)
  }

  ghost predicate OnSegment(start: Vec3, end: Vec3, p: Vec3) {
    OnSegmentUpTo(start, end, p, 1.0)
  }

  /**
   * Every point the box test reports lies on the segment and inside the box. (For the face
   * the point is placed on, this needs the box's minimum corner below its maximum corner.)
   */
  lemma BoxHitSound(box: Box, rayStart: Vec3, rayEnd: Vec3, sqrt: real -> real, p: Vec3)
    requires IsSqrt(sqrt) && WellFormed(box)
    requires RayBox(box, rayStart, rayEnd, sqrt) == Some(p)
    ensures InBox(box, p) && OnSegment(rayStart, rayEnd, p)
  {
    var v := Sub(rayEnd, rayStart);
    if InBox(box, rayStart) {
      PointAtStart(rayStart, v);
      assert Within(0.0, 0.0, 1.0);
    } else {
      var n := Normalize(v, sqrt);
      var t := WooSound(box, rayStart, n.unit, n.magnitude, sqrt, p);
      assert v != Zero;
      Whole(n.magnitude);
      SegmentFraction(rayStart, rayEnd, n.unit, n.magnitude, t, n.magnitude);
    }
  }

  /**
   * Woo's test misses no box: when some point of the segment lies in the box, the test
   * reports a hit, and the reported point is no farther along the segment than that point.
   */
  lemma BoxHitComplete(box: Box, rayStart: Vec3, rayEnd: Vec3, sqrt: real -> real, lambda: real)
    requires IsSqrt(sqrt) && 0.0 <= lambda <= 1.0
    requires InBox(box, PointAt(rayStart, Sub(rayEnd, rayStart), lambda))
    ensures RayBox(box, rayStart, rayEnd, sqrt).Some?
    ensures OnSegmentUpTo(rayStart, rayEnd, RayBox(box, rayStart, rayEnd, sqrt).value, lambda)
  {
    var v := Sub(rayEnd, rayStart);
    if InBox(box, rayStart) {
      PointAtStart(rayStart, v);
      assert Within(0.0, 0.0, lambda);
    } else {
      var n := Normalize(v, sqrt);
      if v == Zero {
        NoStep(rayStart, v, lambda);
        assert false;
      }
      var s := SegmentToLine(rayStart, v, n.unit, n.magnitude, lambda);
      var t := WooComplete(box, rayStart, n.unit, n.magnitude, sqrt, s);
      SegmentFraction(rayStart, rayEnd, n.unit, n.magnitude, t, s);
    }
  }

  /** Proof helper: a zero direction goes nowhere. */
  lemma NoStep(origin: Vec3, v: Vec3, lambda: real)
    requires v == Zero
    ensures PointAt(origin, v, lambda) == origin
  {
  }

  /** The point a fraction lambda along v is the point lambda·len along dir, when v == len·dir. */
  lemma SegmentToLine(origin: Vec3, v: Vec3, dir: Vec3, len: real, lambda: real) returns (s: real)
    requires 0.0 < len && v == Scale(dir, len) && 0.0 <= lambda <= 1.0
    ensures 0.0 <= s <= len && s / len == lambda
    ensures PointAt(origin, v, lambda) == PointAt(origin, dir, s)
  {
    s := lambda * len;
    MulMono(lambda, 1.0, len);
    MulMono(0.0, lambda, len);
  }

  /** The point t along dir, for 0 <= t <= s, is at most the fraction s / len of the segment. */
  lemma SegmentFraction(start: Vec3, end: Vec3, dir: Vec3, len: real, t: real, s: real)
    requires 0.0 < len && Sub(end, start) == Scale(dir, len) && 0.0 <= t <= s <= len
    ensures OnSegmentUpTo(start, end, PointAt(start, dir, t), s / len)
  {
    var mu := t / len;
    FractionAtMost(t, s, len);
    assert mu * len == t;
    assert PointAt(start, Sub(end, start), mu) == PointAt(start, dir, t);
    assert Within(0.0, mu, s / len);
  }

  /** Proof helper: a non-zero length divided by itself is 1. */
  lemma Whole(len: real)
    requires 0.0 < len
    ensures len / len == 1.0
  {
  }

  /** 0 <= a <= b and 0 < c give 0 <= a / c <= b / c. */
  lemma FractionAtMost(a: real, b: real, c: real)
    requires 0.0 <= a <= b && 0.0 < c
    ensures 0.0 <= a / c <= b / c
  {
    MulMono(a, b, 1.0 / c);
    MulMono(0.0, a, 1.0 / c);
  }

  /** The start is at distance t from the point t along a unit direction. */
  lemma DistanceAlong(origin: Vec3, dir: Vec3, t: real, sqrt: real -> real)
    requires IsSqrt(sqrt) && LengthSq(dir) == 1.0 && 0.0 <= t
    ensures Distance(origin, PointAt(origin, dir, t), sqrt) == t
  {
    LengthAlong(origin, dir, t);
    SqrtOf(sqrt, Sq(t), t);
  }

  lemma LengthAlong(origin: Vec3, dir: Vec3, t: real)
    requires LengthSq(dir) == 1.0
    ensures LengthSq(Sub(origin, PointAt(origin, dir, t))) == Sq(t)
  {
    assert Sub(origin, PointAt(origin, dir, t)) == Scale(dir, -t);
    ScaleLengthSq(dir, -t);
  }

  /**
   * What a hit from outside the box is made of: the point at some distance t along the
   * direction, no farther than rayLength, inside the box.
   */
  lemma WooSound(box: Box, origin: Vec3, dir: Vec3, rayLength: real, sqrt: real -> real, p: Vec3) returns (t: real)
    requires IsSqrt(sqrt) && WellFormed(box) && !InBox(box, origin)
    requires dir != Zero ==> LengthSq(dir) == 1.0
    requires WooAlong(box, origin, dir, rayLength, sqrt) == Some(p)
    ensures dir != Zero && 0.0 <= t <= rayLength
    ensures p == PointAt(origin, dir, t) && InBox(box, p)
  {
    var ts := EntryTimes(box, origin, dir);
    var w := FirstMax(ts);
    t := ts[w];
    PointOnFace(box, origin, dir, w, t);
    DistanceAlong(origin, dir, t, sqrt);
    SlabFace(origin.At(w), box.min.At(w), box.max.At(w));
    assert AxisInRange(box, p, w);
    assert OffAxesInRange(box, p, w);
  }

  /**
   * From outside the box, a point of the box at distance s <= rayLength along a unit
   * direction makes the test report the point at some distance t <= s.
   */
  lemma WooComplete(box: Box, origin: Vec3, dir: Vec3, rayLength: real, sqrt: real -> real, s: real) returns (t: real)
    requires IsSqrt(sqrt) && LengthSq(dir) == 1.0 && !InBox(box, origin)
    requires 0.0 <= s <= rayLength && InBox(box, PointAt(origin, dir, s))
    ensures 0.0 <= t <= s && WooAlong(box, origin, dir, rayLength, sqrt) == Some(PointAt(origin, dir, t))
  {
    var ts := EntryTimes(box, origin, dir);
    var w := FirstMax(ts);
    t := ts[w];
    AllAxesEntry(box, origin, dir, s);
    var k: Axis :| !AxisInRange(box, origin, k);
    assert QuadrantAt(box, origin, k) != Middle;
    assert 0.0 < MaxTAt(box, origin, dir, k) == ts[k] <= t;
    assert t == MaxTAt(box, origin, dir, w) <= s;
    PointOnFace(box, origin, dir, w, t);
    var p := PointAt(origin, dir, t);
    forall i: Axis | i != w
      ensures AxisInRange(box, p, i)
    {
      AxisStays(box, origin, dir, s, t, i);
    }
    assert OffAxesInRange(box, BoxPoint(box, origin, dir, w, t), w);
    DistanceAlong(origin, dir, t, sqrt);
  }

  /**
   * When the point at distance s >= 0 lies in the box, no face is farther than s, and the
   * face of every axis whose slab misses the origin is at a positive distance.
   */
  lemma AllAxesEntry(box: Box, origin: Vec3, dir: Vec3, s: real)
    requires 0.0 <= s && InBox(box, PointAt(origin, dir, s))
    ensures forall i: Axis :: MaxTAt(box, origin, dir, i) <= s
    ensures forall i: Axis :: QuadrantAt(box, origin, i) != Middle ==> 0.0 < MaxTAt(box, origin, dir, i)
  {
    AxisEntry(box, origin, dir, s, 0);
    AxisEntry(box, origin, dir, s, 1);
    AxisEntry(box, origin, dir, s, 2);
  }

  lemma AxisEntry(box: Box, origin: Vec3, dir: Vec3, s: real, i: Axis)
    requires 0.0 <= s && AxisInRange(box, PointAt(origin, dir, s), i)
    ensures MaxTAt(box, origin, dir, i) <= s
    ensures QuadrantAt(box, origin, i) != Middle ==> 0.0 < MaxTAt(box, origin, dir, i)
  {
    PointAtAxis(origin, dir, s, i);
    SlabEntry(origin.At(i), dir.At(i), box.min.At(i), box.max.At(i), s);
  }

  /** The slab of axis i keeps the point from distance s back to any t >= its face distance. */
  lemma AxisStays(box: Box, origin: Vec3, dir: Vec3, s: real, t: real, i: Axis)
    requires 0.0 <= t <= s && MaxTAt(box, origin, dir, i) <= t
    requires AxisInRange(box, PointAt(origin, dir, s), i)
    ensures AxisInRange(box, PointAt(origin, dir, t), i)
  {
    PointAtAxis(origin, dir, s, i);
    PointAtAxis(origin, dir, t, i);
    SlabStays(origin.At(i), dir.At(i), box.min.At(i), box.max.At(i), s, t);
  }

  /**
   * A non-negative largest distance belongs to a face the ray crosses, and the candidate
   * point is then the point at that distance.
   */
  lemma PointOnFace(box: Box, origin: Vec3, dir: Vec3, w: Axis, t: real)
    requires 0.0 <= t && t == MaxTAt(box, origin, dir, w)
    ensures QuadrantAt(box, origin, w) != Middle && dir.At(w) != 0.0
    ensures BoxPoint(box, origin, dir, w, t) == PointAt(origin, dir, t)
  {
    SlabCrossing(origin.At(w), dir.At(w), box.min.At(w), box.max.At(w));
    var p, q := BoxPoint(box, origin, dir, w, t), PointAt(origin, dir, t);
    PointAtAxis(origin, dir, t, w);
    assert p.At(w) == q.At(w);
    assert forall i: Axis :: p.At(i) == q.At(i);
  }

  /** A non-negative distance to a face comes from an outside origin and a crossing direction. */
  lemma SlabCrossing(o: real, d: real, lo: real, hi: real)
    requires 0.0 <= SlabMaxT(o, d, lo, hi)
    ensures SlabQuadrant(o, lo, hi) != Middle && d != 0.0
    ensures o + SlabMaxT(o, d, lo, hi) * d == SlabCandidate(o, lo, hi)
  {
  }

  /** The candidate face of a slab with lo <= hi lies in the slab. */
  lemma SlabFace(o: real, lo: real, hi: real)
    requires lo <= hi && SlabQuadrant(o, lo, hi) != Middle
    ensures lo <= SlabCandidate(o, lo, hi) <= hi
  {
  }

  /**
   * When the coordinate at distance s >= 0 lies in the slab, the distance to the candidate
   * face is at most s, and positive when the origin is outside the slab.
   */
  lemma SlabEntry(o: real, d: real, lo: real, hi: real, s: real)
    requires 0.0 <= s && lo <= o + s * d <= hi
    ensures SlabMaxT(o, d, lo, hi) <= s
    ensures SlabQuadrant(o, lo, hi) != Middle ==> 0.0 < SlabMaxT(o, d, lo, hi)
  {
    if o < lo {
      EnterFromBelow(o, d, lo, s);
    } else if o > hi {
      EnterFromAbove(o, d, hi, s);
    }
  }

  /** A coordinate below lo that reaches lo by distance s crosses lo at a distance in (0, s]. */
  lemma EnterFromBelow(o: real, d: real, lo: real, s: real)
    requires o < lo <= o + s * d && 0.0 <= s
    ensures 0.0 < d && 0.0 < (lo - o) / d <= s
  {
    if d <= 0.0 {
      MulMono(d, 0.0, s);
    }
    var e := (lo - o) / d;
    assert Mul(e, d) == lo - o;
    if s < e {
      MulStrict(s, e, d);
    }
    if e <= 0.0 {
      MulMono(e, 0.0, d);
    }
  }

  lemma EnterFromAbove(o: real, d: real, hi: real, s: real)
    requires o + s * d <= hi < o && 0.0 <= s
    ensures d < 0.0 && 0.0 < (hi - o) / d <= s
  {
    EnterFromBelow(-o, -d, -hi, s);
    assert (-hi - -o) / -d == (hi - o) / d;
  }

  /** A coordinate in [lo, hi] at two distances lies there at every distance between them. */
  lemma AxisConvex(o: real, d: real, t0: real, t: real, t1: real, lo: real, hi: real)
    requires t0 <= t <= t1
    requires lo <= o + t0 * d <= hi && lo <= o + t1 * d <= hi
    ensures lo <= o + t * d <= hi
  {
    if 0.0 <= d {
      MulMono(t0, t, d);
      MulMono(t, t1, d);
    } else {
      MulMono(t0, t, -d);
      MulMono(t, t1, -d);
    }
  }

  /**
   * The slab that holds the coordinate at distance s also holds it at any distance t <= s
   * no smaller than the distance to its candidate face.
   */
  lemma SlabStays(o: real, d: real, lo: real, hi: real, s: real, t: real)
    requires 0.0 <= t <= s && SlabMaxT(o, d, lo, hi) <= t
    requires lo <= o + s * d <= hi
    ensures lo <= o + t * d <= hi
  {
    SlabEntry(o, d, lo, hi, s);
    if SlabQuadrant(o, lo, hi) == Middle {
      AxisConvex(o, d, 0.0, t, s, lo, hi);
    } else {
      var e := SlabMaxT(o, d, lo, hi);
      SlabCrossing(o, d, lo, hi);
      AxisConvex(o, d, e, t, s, lo, hi);
    }
  }
}
