/** The sphere cases of hittable_object.rs's tests, and the general facts
    behind them, evaluated with their ideal real values. The undocumented
    lemmas after each test only split its literal arithmetic into steps the
    solver takes one at a time; merged, the solver does not finish them. */
module SphereCases {

  import opened Reals
  import opened Geometry
  import opened Materials
  import opened Options
  import opened Hittables

  /** The two coefficients in terms of the offset `v = O - C` and the direction. */
  lemma CoefficientsOf(center: Point3, radius: real, ray: Ray, v: Vec3, d: Vec3)
    requires ray.origin.Subtract(center) == v && ray.direction.Inject() == d
    ensures BHalf(center, ray) == v.Dot(d)
    ensures CTerm(center, radius, ray) == v.LengthSquared() - radius * radius
  {
  }

  /** The accepted root computed from the two coefficients and the square
      root of the discriminant, whatever their concrete values. */
  lemma SphereRootFromCoefficients(center: Point3, radius: real, ray: Ray, sqrt: real -> real, b: real, c: real, s: real)
    requires IsSqrt(sqrt)
    requires ray.direction.IsUnit()
    requires BHalf(center, ray) == b && CTerm(center, radius, ray) == c
    requires 0.0 <= s && s * s == b * b - c
    ensures SphereRoot(center, radius, ray, sqrt)
         == if -b - s >= TMin then Some(-b - s) else if -b + s >= TMin then Some(-b + s) else None
  {
    assert DiscriminantQuarter(center, radius, ray) == s * s;
    SquareFacts(s);
    SqrtOf(sqrt, s * s, s);
  }

  /** `Sphere::hit` evaluated from the coefficients: given `b_half`, `c`, the
      square root `s` of the discriminant and the unit vector the radius at
      the accepted root normalises to, the hit is fully determined. */
  lemma SphereHitFrom(center: Point3, radius: real, m: Material, ray: Ray, sqrt: real -> real,
                      b: real, c: real, s: real, t: real, n: UnitVec3)
    requires IsSqrt(sqrt)
    requires ray.direction.IsUnit()
    requires 0.0 < radius
    requires BHalf(center, ray) == b && CTerm(center, radius, ray) == c
    requires 0.0 <= s && s * s == b * b - c
    requires t == (if -b - s >= TMin then -b - s else -b + s) && TMin <= t
    requires ray.At(t).Subtract(center).Scale(1.0 / radius) == n.Inject()
    ensures SphereHit(center, radius, m, ray, sqrt) == Some(HitResult(HitRecord(t, n), m))
  {
    SphereRootFromCoefficients(center, radius, ray, sqrt, b, c, s);
  }

  /** The coefficients of a head-on approach: the origin lies `dist` back
      from the centre along the unit direction. */
  lemma HeadOnCoefficients(center: Point3, radius: real, dist: real, d: UnitVec3)
    requires d.IsUnit()
    ensures BHalf(center, Ray(center.Add(d.Inject().Scale(-dist)), d)) == -dist
    ensures CTerm(center, radius, Ray(center.Add(d.Inject().Scale(-dist)), d)) == dist * dist - radius * radius
  {
    var ray := Ray(center.Add(d.Inject().Scale(-dist)), d);
    var v := ray.origin.Subtract(center);
    var u := d.Inject();
    assert v == u.Scale(-dist);
    assert v.Dot(u) == -dist * u.LengthSquared();
    assert v.LengthSquared() == dist * dist * u.LengthSquared();
    CoefficientsOf(center, radius, ray, v, u);
  }

  /** On a head-on ray, the point `t = dist + s` along it lies `s` along the
      direction from the centre. */
  lemma HeadOnRadial(center: Point3, dist: real, d: UnitVec3, t: real, s: real)
    requires t == dist + s
    ensures Ray(center.Add(d.Inject().Scale(-dist)), d).At(t).Subtract(center) == d.Inject().Scale(s)
  {
  }

  /** The discriminant of a head-on approach is the squared radius. */
  lemma HeadOnDiscriminant(dist: real, radius: real)
    ensures radius * radius == (-dist) * (-dist) - (dist * dist - radius * radius)
  {
  }

  /** Dividing `s` times a vector by `r` gives the vector back when `s = r`
      and its negation when `s = -r`. */
  lemma ScaleBack(u: Vec3, s: real, r: real, w: Vec3)
    requires r != 0.0
    requires (s == r && w == u) || (s == -r && w == Vec3(-u.x, -u.y, -u.z))
    ensures u.Scale(s).Scale(1.0 / r) == w
  {
    var k := 1.0 / r;
    assert r * k == 1.0;
    assert u.Scale(s).Scale(k) == Vec3(u.x * (s * k), u.y * (s * k), u.z * (s * k));
  }

  /** A ray aimed at the centre of a sphere from a distance `dist` outside it
      hits at `dist - radius`, where the outward normal points straight back
      along the ray. */
  lemma SphereHitHeadOn(center: Point3, radius: real, dist: real, d: UnitVec3, m: Material, sqrt: real -> real)
    requires IsSqrt(sqrt)
    requires d.IsUnit()
    requires 0.0 < radius && TMin <= dist - radius
    ensures SphereHit(center, radius, m, Ray(center.Add(d.Inject().Scale(-dist)), d), sqrt)
         == Some(HitResult(HitRecord(dist - radius, UnitVec3(-d.x, -d.y, -d.z)), m))
  {
    var t, n := dist - radius, UnitVec3(-d.x, -d.y, -d.z);
    HeadOnCoefficients(center, radius, dist, d);
    HeadOnDiscriminant(dist, radius);
    HeadOnRadial(center, dist, d, t, -radius);
    ScaleBack(d.Inject(), -radius, radius, n.Inject());
    SphereHitFrom(center, radius, m, Ray(center.Add(d.Inject().Scale(-dist)), d), sqrt,
                  -dist, dist * dist - radius * radius, radius, t, n);
  }

  /** `SphereHitHeadOn` for a ray given by name. */
  lemma SphereHitHeadOnRay(center: Point3, radius: real, dist: real, ray: Ray, m: Material, sqrt: real -> real,
                           t: real, n: UnitVec3)
    requires IsSqrt(sqrt)
    requires ray.direction.IsUnit()
    requires ray == Ray(center.Add(ray.direction.Inject().Scale(-dist)), ray.direction)
    requires 0.0 < radius && TMin <= dist - radius
    requires t == dist - radius
    requires n == UnitVec3(-ray.direction.x, -ray.direction.y, -ray.direction.z)
    ensures SphereHit(center, radius, m, ray, sqrt) == Some(HitResult(HitRecord(t, n), m))
  {
    SphereHitHeadOn(center, radius, dist, ray.direction, m, sqrt);
  }

  /** A ray aimed at the centre of a sphere from inside it, at distance
      `dist` from the centre: the root behind the origin is skipped and the
      ray hits at `dist + radius`, where the outward normal is the ray's own
      direction. */
  lemma SphereHitHeadOnFromInside(center: Point3, radius: real, dist: real, d: UnitVec3, m: Material, sqrt: real -> real)
    requires IsSqrt(sqrt)
    requires d.IsUnit()
    requires 0.0 < radius && dist - radius < TMin <= dist + radius
    ensures SphereHit(center, radius, m, Ray(center.Add(d.Inject().Scale(-dist)), d), sqrt)
         == Some(HitResult(HitRecord(dist + radius, d), m))
  {
    var t := dist + radius;
    HeadOnCoefficients(center, radius, dist, d);
    HeadOnDiscriminant(dist, radius);
    HeadOnRadial(center, dist, d, t, radius);
    ScaleBack(d.Inject(), radius, radius, d.Inject());
    SphereHitFrom(center, radius, m, Ray(center.Add(d.Inject().Scale(-dist)), d), sqrt,
                  -dist, dist * dist - radius * radius, radius, t, d);
  }

  /** A ray starting at the centre of a sphere hits at `t = radius`, and the
      normal there is the ray's own direction. */
  lemma SphereHitFromCenter(center: Point3, radius: real, d: UnitVec3, m: Material, sqrt: real -> real)
    requires IsSqrt(sqrt)
    requires d.IsUnit()
    requires TMin <= radius
    ensures SphereHit(center, radius, m, Ray(center, d), sqrt)
         == Some(HitResult(HitRecord(radius, d), m))
  {
    NoDisplacement(center, d);
    SphereHitHeadOnFromInside(center, radius, 0.0, d, m, sqrt);
  }

  lemma NoDisplacement(p: Point3, d: UnitVec3)
    ensures p.Add(d.Inject().Scale(-0.0)) == p
  {
  }

  /** sphere_test1: from the origin along the normalised `(0, 0, -1)`, the unit sphere centred at
      `(0, 0, -3)` is hit at `t = 2` with normal `(0, 0, 1)`. */
  lemma SphereHitFromOutside(center: Point3, ray: Ray, m: Material, sqrt: real -> real)
    requires IsSqrt(sqrt)
    requires center == Point3(0.0, 0.0, -3.0)
    requires ray == Ray(Point3(0.0, 0.0, 0.0), Normalize(Vec3(0.0, 0.0, -1.0), sqrt))
    ensures SphereHit(center, 1.0, m, ray, sqrt) == Some(HitResult(HitRecord(2.0, UnitVec3(0.0, 0.0, 1.0)), m))
  {
    MinusZNormalized(sqrt);
    MinusZ(ray.direction);
    OutsideRay(center, ray);
    SphereHitHeadOnRay(center, 1.0, 3.0, ray, m, sqrt, 2.0, UnitVec3(0.0, 0.0, 1.0));
  }

  /** sphere_test3: from the centre of the sphere of radius 5 at the origin,
      along the normalised `(0, 0, -1)`, the hit is at `t = 5` with normal `(0, 0, -1)`. */
  lemma SphereHitFromInside(center: Point3, ray: Ray, m: Material, sqrt: real -> real)
    requires IsSqrt(sqrt)
    requires center == Point3(0.0, 0.0, 0.0)
    requires ray == Ray(Point3(0.0, 0.0, 0.0), Normalize(Vec3(0.0, 0.0, -1.0), sqrt))
    ensures SphereHit(center, 5.0, m, ray, sqrt) == Some(HitResult(HitRecord(5.0, UnitVec3(0.0, 0.0, -1.0)), m))
  {
    MinusZNormalized(sqrt);
    MinusZ(ray.direction);
    SphereHitFromCenter(center, 5.0, ray.direction, m, sqrt);
  }

  lemma OutsideRay(center: Point3, ray: Ray)
    requires center == Point3(0.0, 0.0, -3.0)
    requires ray == Ray(Point3(0.0, 0.0, 0.0), UnitVec3(0.0, 0.0, -1.0))
    ensures ray == Ray(center.Add(ray.direction.Inject().Scale(-3.0)), ray.direction)
  {
    MinusZ(ray.direction);
  }

  /** Facts about the direction `-z` the two tests above use. */
  lemma MinusZ(d: UnitVec3)
    requires d == UnitVec3(0.0, 0.0, -1.0)
    ensures d.IsUnit()
    ensures Point3(0.0, 0.0, -3.0).Add(d.Inject().Scale(-3.0)) == Point3(0.0, 0.0, 0.0)
    ensures UnitVec3(-d.x, -d.y, -d.z) == UnitVec3(0.0, 0.0, 1.0)
  {
    MinusZIsUnit(d);
    MinusZBack(d);
    MinusZNegated(d);
  }

  /** The tests build their direction by normalising `(0, 0, -1)`, which is
      already of unit length and so comes back unchanged. */
  lemma MinusZNormalized(sqrt: real -> real)
    requires IsSqrt(sqrt)
    ensures Vec3(0.0, 0.0, -1.0) != Zero
    ensures Normalize(Vec3(0.0, 0.0, -1.0), sqrt) == UnitVec3(0.0, 0.0, -1.0)
  {
    var u := UnitVec3(0.0, 0.0, -1.0);
    MinusZIsUnit(u);
    NormalizeUnit(u, sqrt);
  }

  // Each fact below gets a lemma of its own; stated together they do not close.
  lemma MinusZNegated(d: UnitVec3)
    requires d == UnitVec3(0.0, 0.0, -1.0)
    ensures UnitVec3(-d.x, -d.y, -d.z) == UnitVec3(0.0, 0.0, 1.0)
  {
  }

  lemma MinusZIsUnit(d: UnitVec3)
    requires d == UnitVec3(0.0, 0.0, -1.0)
    ensures d.IsUnit()
  {
  }

  lemma MinusZBack(d: UnitVec3)
    requires d == UnitVec3(0.0, 0.0, -1.0)
    ensures Point3(0.0, 0.0, -3.0).Add(d.Inject().Scale(-3.0)) == Point3(0.0, 0.0, 0.0)
  {
  }

  /** sphere_test2: an oblique ray along the normalised `(-0.6, 0, -0.8)` hits the sphere of
      radius 5 centred at `(0, 0, -8)` at `t = 5`, with normal `(-0.6, 0, 0.8)`. */
  lemma SphereHitOblique(center: Point3, ray: Ray, m: Material, sqrt: real -> real)
    requires IsSqrt(sqrt)
    requires center == Point3(0.0, 0.0, -8.0)
    requires ray == Ray(Point3(0.0, 0.0, 0.0), Normalize(Vec3(-0.6, 0.0, -0.8), sqrt))
    ensures SphereHit(center, 5.0, m, ray, sqrt) == Some(HitResult(HitRecord(5.0, UnitVec3(-0.6, 0.0, 0.8)), m))
  {
    ObliqueNormalized(sqrt);
    var b, c := ObliqueGeometry(center, ray);
    var s := ObliqueArithmetic(b, c);
    ObliqueHit(center, ray, m, sqrt, b, c, s);
  }

  /** The oblique case once its coefficients are known by name. */
  lemma ObliqueHit(center: Point3, ray: Ray, m: Material, sqrt: real -> real, b: real, c: real, s: real)
    requires IsSqrt(sqrt)
    requires ray.direction.IsUnit()
    requires BHalf(center, ray) == b && CTerm(center, 5.0, ray) == c
    requires 0.0 <= s && s * s == b * b - c
    requires 5.0 == (if -b - s >= TMin then -b - s else -b + s) && TMin <= 5.0
    requires ray.At(5.0).Subtract(center).Scale(1.0 / 5.0) == UnitVec3(-0.6, 0.0, 0.8).Inject()
    ensures SphereHit(center, 5.0, m, ray, sqrt) == Some(HitResult(HitRecord(5.0, UnitVec3(-0.6, 0.0, 0.8)), m))
  {
    SphereHitFrom(center, 5.0, m, ray, sqrt, b, c, s, 5.0, UnitVec3(-0.6, 0.0, 0.8));
  }

  /** The coefficients of the oblique case, handed back by name. */
  lemma ObliqueGeometry(center: Point3, ray: Ray) returns (b: real, c: real)
    requires center == Point3(0.0, 0.0, -8.0)
    requires ray == Ray(Point3(0.0, 0.0, 0.0), UnitVec3(-0.6, 0.0, -0.8))
    ensures ray.direction.IsUnit()
    ensures BHalf(center, ray) == b && CTerm(center, 5.0, ray) == c
    ensures b == -6.4 && c == 39.0
    ensures ray.At(5.0).Subtract(center).Scale(1.0 / 5.0) == UnitVec3(-0.6, 0.0, 0.8).Inject()
  {
    ObliqueCoefficients(center, ray);
    b, c := -6.4, 39.0;
  }

  /** The discriminant of the oblique case is `1.4^2` and its near root is 5. */
  lemma ObliqueArithmetic(b: real, c: real) returns (s: real)
    requires b == -6.4 && c == 39.0
    ensures 0.0 <= s && s * s == b * b - c
    ensures 5.0 == (if -b - s >= TMin then -b - s else -b + s) && TMin <= 5.0
  {
    s := 1.4;
  }

  lemma ObliqueCoefficients(center: Point3, ray: Ray)
    requires center == Point3(0.0, 0.0, -8.0)
    requires ray == Ray(Point3(0.0, 0.0, 0.0), UnitVec3(-0.6, 0.0, -0.8))
    ensures ray.direction.IsUnit()
    ensures BHalf(center, ray) == -6.4 && CTerm(center, 5.0, ray) == 39.0
    ensures ray.At(5.0).Subtract(center).Scale(1.0 / 5.0) == Vec3(-0.6, 0.0, 0.8)
  {
    ObliqueOffset(center, ray);
    ObliqueRadial(center, ray);
  }

  lemma ObliqueOffset(center: Point3, ray: Ray)
    requires center == Point3(0.0, 0.0, -8.0)
    requires ray == Ray(Point3(0.0, 0.0, 0.0), UnitVec3(-0.6, 0.0, -0.8))
    ensures BHalf(center, ray) == -6.4 && CTerm(center, 5.0, ray) == 39.0
  {
    assert ray.origin.Subtract(center) == Vec3(0.0, 0.0, 8.0);
  }

  lemma ObliqueRadial(center: Point3, ray: Ray)
    requires center == Point3(0.0, 0.0, -8.0)
    requires ray == Ray(Point3(0.0, 0.0, 0.0), UnitVec3(-0.6, 0.0, -0.8))
    ensures ray.direction.IsUnit()
    ensures ray.At(5.0).Subtract(center).Scale(1.0 / 5.0) == Vec3(-0.6, 0.0, 0.8)
  {
    ObliqueUnit(ray.direction);
    ObliqueRadius(center, ray);
  }

  /** `(-0.6, 0, -0.8)` is already of unit length, so normalising it is the identity. */
  lemma ObliqueNormalized(sqrt: real -> real)
    requires IsSqrt(sqrt)
    ensures Vec3(-0.6, 0.0, -0.8) != Zero
    ensures Normalize(Vec3(-0.6, 0.0, -0.8), sqrt) == UnitVec3(-0.6, 0.0, -0.8)
  {
    var u := UnitVec3(-0.6, 0.0, -0.8);
    ObliqueUnit(u);
    NormalizeUnit(u, sqrt);
  }

  lemma ObliqueUnit(d: UnitVec3)
    requires d == UnitVec3(-0.6, 0.0, -0.8)
    ensures d.IsUnit()
  {
  }

  lemma ObliqueRadius(center: Point3, ray: Ray)
    requires center == Point3(0.0, 0.0, -8.0)
    requires ray == Ray(Point3(0.0, 0.0, 0.0), UnitVec3(-0.6, 0.0, -0.8))
    ensures ray.At(5.0).Subtract(center).Scale(1.0 / 5.0) == Vec3(-0.6, 0.0, 0.8)
  {
    ObliqueHitPoint(center, ray);
    ObliqueNormal();
  }

  lemma ObliqueHitPoint(center: Point3, ray: Ray)
    requires center == Point3(0.0, 0.0, -8.0)
    requires ray == Ray(Point3(0.0, 0.0, 0.0), UnitVec3(-0.6, 0.0, -0.8))
    ensures ray.At(5.0).Subtract(center) == Vec3(-3.0, 0.0, 4.0)
  {
  }

  lemma ObliqueNormal()
    ensures Vec3(-3.0, 0.0, 4.0).Scale(1.0 / 5.0) == Vec3(-0.6, 0.0, 0.8)
  {
  }
}
