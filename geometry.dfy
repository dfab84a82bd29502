/** Option, the stand-in for a Java reference that may be null. */
module Wrappers {
  datatype Option<+T> = None | Some(value: T)
}

/**
 * Exact three-dimensional vectors over the reals (org.rajawali3d.math.vector.Vector3
 * without rounding), and the square root the intersection tests take from java.lang.Math.
 *
 * Squares are written `Sq(e)` and sign facts about products are derived from MulMono and
 * MulStrict, whose factors are distinct parameters.
 */
module Geometry {

  /** An axis index: 0 is x, 1 is y, 2 is z (the order of Vector3.toArray). */
  type Axis = i: nat | i < 3

  datatype Vec3 = Vec3(x: real, y: real, z: real) {
    /** The coordinate on axis `i`, as `toArray()[i]`. */
    function At(i: Axis): real {
      if i == 0 then x else if i == 1 then y else z
    }
  }

  const Zero := Vec3(0.0, 0.0, 0.0)

  function Add(a: Vec3, b: Vec3): Vec3 {
    Vec3(a.x + b.x, a.y + b.y, a.z + b.z)
  }

  function Sub(a: Vec3, b: Vec3): Vec3 {
    Vec3(a.x - b.x, a.y - b.y, a.z - b.z)
  }

  function Scale(a: Vec3, k: real): Vec3 {
    Vec3(k * a.x, k * a.y, k * a.z)
  }

  function Dot(a: Vec3, b: Vec3): real {
    a.x * b.x + a.y * b.y + a.z * b.z
  }

  function Cross(a: Vec3, b: Vec3): Vec3 {
    Vec3(a.y * b.z - a.z * b.y, a.z * b.x - a.x * b.z, a.x * b.y - a.y * b.x)
  }

  /** The point at parameter `t` along the line through `origin` with direction `dir`. */
  function PointAt(origin: Vec3, dir: Vec3, t: real): Vec3 {
    Add(origin, Scale(dir, t))
  }

  /** Parameter 0 is the origin of the line. */
  lemma PointAtStart(origin: Vec3, dir: Vec3)
    ensures PointAt(origin, dir, 0.0) == origin
  {
  }

  /** Coordinate i of a point on a line. */
  lemma PointAtAxis(origin: Vec3, dir: Vec3, t: real, i: Axis)
    ensures PointAt(origin, dir, t).At(i) == origin.At(i) + t * dir.At(i)
  {
  }

  function Mul(a: real, b: real): real {
    a * b
  }

  function Sq(a: real): real {
    a * a
  }

  lemma MulMono(a: real, b: real, c: real)
    requires a <= b && 0.0 <= c
    ensures Mul(a, c) <= Mul(b, c)
  {
  }

  lemma MulStrict(a: real, b: real, c: real)
    requires a < b && 0.0 < c
    ensures Mul(a, c) < Mul(b, c)
  {
  }

  lemma SqSign(s: real)
    ensures 0.0 <= Sq(s)
    ensures s != 0.0 ==> 0.0 < Sq(s)
  {
    assert Sq(s) == Mul(s, s);
    if s > 0.0 {
      MulStrict(0.0, s, s);
    } else if s < 0.0 {
      MulStrict(s, 0.0, -s);
      assert Mul(s, -s) == -Mul(s, s);
    }
  }

  /** Squaring is strictly increasing on the non-negative reals. */
  lemma SqLess(s: real, r: real)
    requires 0.0 <= s < r
    ensures Sq(s) < Sq(r)
  {
    MulMono(s, r, s);
    MulStrict(s, r, r);
    assert Mul(r, s) == Mul(s, r);
  }

  function LengthSq(v: Vec3): (r: real)
    ensures 0.0 <= r
    ensures r == 0.0 <==> v == Zero
  {
    SqSign(v.x);
    SqSign(v.y);
    SqSign(v.z);
    assert Dot(v, v) == Sq(v.x) + Sq(v.y) + Sq(v.z);
    Dot(v, v)
  }

  /**
   * `sqrt` behaves as Math.sqrt does on exact reals: on a non-negative argument it
   * returns the non-negative number whose square is that argument.
   */
  ghost predicate IsSqrt(sqrt: real -> real) {
    forall x: real {:trigger sqrt(x)} :: NonNeg(x) ==> NonNeg(sqrt(x)) && Sq(sqrt(x)) == x
  }

  /** `0.0 <= a`, named so that quantified formulas mention no comparison of their own. */
  predicate NonNeg(a: real) {
    0.0 <= a
  }

  /** The non-negative square root is unique. */
  lemma SqrtOf(sqrt: real -> real, x: real, r: real)
    requires IsSqrt(sqrt)
    requires 0.0 <= r && Sq(r) == x
    ensures sqrt(x) == r
  {
    var s := sqrt(x);
    assert 0.0 <= s && Sq(s) == x;
    if s < r {
      SqLess(s, r);
    } else if r < s {
      SqLess(r, s);
    }
  }

  /** Square roots of non-negative numbers keep their order. */
  lemma SqrtLess(sqrt: real -> real, x: real, y: real)
    requires IsSqrt(sqrt)
    requires 0.0 <= x && 0.0 <= y
    ensures sqrt(x) < sqrt(y) <==> x < y
  {
    var a, b := sqrt(x), sqrt(y);
    assert 0.0 <= a && Sq(a) == x;
    assert 0.0 <= b && Sq(b) == y;
    if a < b {
      SqLess(a, b);
    } else if b < a {
      SqLess(b, a);
    }
  }

  /** The result of Vector3.normalize: the direction it leaves behind and the magnitude it returns. */
  datatype Normalized = Normalized(unit: Vec3, magnitude: real)

  /**
   * Vector3.normalize: divides by the magnitude unless that is zero, in which case the
   * vector is left as it is (dividing by a magnitude of one changes nothing either).
   */
  function Normalize(v: Vec3, sqrt: real -> real): (r: Normalized)
    requires IsSqrt(sqrt)
    ensures 0.0 <= r.magnitude && Sq(r.magnitude) == LengthSq(v)
    ensures v == Zero ==> r.unit == Zero && r.magnitude == 0.0
    ensures v != Zero ==> 0.0 < r.magnitude && LengthSq(r.unit) == 1.0 && v == Scale(r.unit, r.magnitude)
  {
    var mag := sqrt(LengthSq(v));
    assert 0.0 <= mag && Sq(mag) == LengthSq(v);
    SqSign(mag);
    if mag != 0.0 then
      UnitLength(v, mag);
      Normalized(Scale(v, 1.0 / mag), mag)
    else
      Normalized(v, mag)
  }

  /** Normalize divides by the given root of the squared length. */
  lemma NormalizeBy(v: Vec3, sqrt: real -> real, mag: real)
    requires IsSqrt(sqrt)
    requires 0.0 < mag && Sq(mag) == LengthSq(v)
    ensures Normalize(v, sqrt) == Normalized(Scale(v, 1.0 / mag), mag)
  {
    SqrtOf(sqrt, LengthSq(v), mag);
  }

  lemma UnitLength(v: Vec3, mag: real)
    requires mag != 0.0 && Sq(mag) == LengthSq(v)
    ensures LengthSq(Scale(v, 1.0 / mag)) == 1.0
    ensures v == Scale(Scale(v, 1.0 / mag), mag)
  {
    var k := 1.0 / mag;
    assert Mul(k, mag) == 1.0;
    ScaleLengthSq(v, k);
    SquareOfProduct(k, mag);
    assert Sq(mag) == Mul(mag, mag);
    Unscale(v.x, k, mag);
    Unscale(v.y, k, mag);
    Unscale(v.z, k, mag);
  }

  lemma ScaleLengthSq(v: Vec3, k: real)
    ensures LengthSq(Scale(v, k)) == Mul(Mul(k, k), LengthSq(v))
  {
  }

  lemma SquareOfProduct(k: real, m: real)
    ensures Mul(Mul(k, k), Mul(m, m)) == Mul(Mul(k, m), Mul(k, m))
  {
  }

  lemma Unscale(a: real, k: real, m: real)
    requires Mul(k, m) == 1.0
    ensures m * (k * a) == a
  {
    assert m * (k * a) == Mul(k, m) * a;
  }

  /** Vector3.distanceTo. */
  function Distance(a: Vec3, b: Vec3, sqrt: real -> real): (r: real)
    requires IsSqrt(sqrt)
    ensures 0.0 <= r && Sq(r) == LengthSq(Sub(a, b))
  {
    sqrt(LengthSq(Sub(a, b)))
  }

  /** |p + t·d - c|² expands to a quadratic in t. */
  lemma DistanceSqAlongLine(p: Vec3, d: Vec3, c: Vec3, t: real)
    ensures LengthSq(Sub(PointAt(p, d, t), c))
         == Sq(t) * Dot(d, d) + t * (2.0 * Dot(d, Sub(p, c))) + LengthSq(Sub(p, c))
  {
  }
}
