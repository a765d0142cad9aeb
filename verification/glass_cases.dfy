/** The glass tests of hittable_object.rs that go through refraction,
    evaluated with their ideal real values (`sqrt 3` is any positive `s` with
    `s * s == 3`), and the general fact behind them: once the oriented
    normal, the tangential part and the square root of the normal coefficient
    are known, the scattered ray is fixed for every draw. The small lemmas
    after each test only split its literal arithmetic into steps the solver
    takes one at a time. */
module GlassCases {

  import opened Reals
  import opened Geometry
  import opened Colors
  import opened Materials

  /** The intermediate values of `Glass::scatter` for one ray and hit: the
      oriented normal `o`, the cosine and index ratio the reflectance is
      taken at, the tangential part `t`, a root `q` of the normal
      coefficient, the refracted and mirrored directions and the hit point. */
  predicate GlassValues(eta: real, rayIn: Ray, hit: HitRecord, o: Orientation, t: Vec3, q: real,
                        cosine: real, ratio: real, origin: Point3, refracted: UnitVec3, mirrored: UnitVec3)
  {
    && 0.0 < eta && rayIn.direction.IsUnit() && hit.surfaceNormal.IsUnit()
    && Orient(hit.surfaceNormal.Inject(), rayIn.direction.Inject(), eta) == o
    && cosine == -o.inprod && ratio == o.etaIn / o.etaOut
    && Tangential(o, rayIn.direction.Inject()) == t
    && 0.0 <= q && q * q == 1.0 - t.LengthSquared()
    && t.Sub(o.normal.Scale(q)) == refracted.Inject()
    && Reflect(rayIn.direction, hit.surfaceNormal) == mirrored
    && rayIn.At(hit.t) == origin
  }

  /** `Glass::scatter` from its intermediate values: with the oriented normal
      `o`, the tangential part `t` and the root `q` of the normal coefficient,
      the glass refracts to `t - q n` when the draw is at least the
      reflectance and mirrors the ray when it is below; either way the child
      ray starts at the hit point and carries the albedo. */
  lemma GlassScatterFrom(eta: real, albedo: Attenuation, rayIn: Ray, hit: HitRecord, randomUnit: UnitVec3,
                         draw: real, sqrt: real -> real,
                         o: Orientation, t: Vec3, q: real, cosine: real, ratio: real,
                         origin: Point3, refracted: UnitVec3, mirrored: UnitVec3)
    requires IsSqrt(sqrt)
    requires GlassValues(eta, rayIn, hit, o, t, q, cosine, ratio, origin, refracted, mirrored)
    ensures CanScatter(Glass(eta, albedo), rayIn, hit, randomUnit)
    ensures ratio != -1.0
    ensures Reflectance(cosine, ratio) <= draw ==>
      Scatter(Glass(eta, albedo), rayIn, hit, randomUnit, draw, sqrt) == Scattered(albedo, Ray(origin, refracted))
    ensures draw < Reflectance(cosine, ratio) ==>
      Scatter(Glass(eta, albedo), rayIn, hit, randomUnit, draw, sqrt) == Scattered(albedo, Ray(origin, mirrored))
  {
    var d, n := rayIn.direction, hit.surfaceNormal;
    SquareFacts(q);
    SqrtOf(sqrt, CoeffNormal(o, d.Inject()), q);
    if Reflectance(cosine, ratio) <= draw {
      var u := GlassDirection(eta, d, n, draw, sqrt);
      assert u.Inject() == refracted.Inject();
    }
  }

  /** Glass scatters any unit ray off any unit normal. */
  lemma GlassCanScatter(eta: real, albedo: Attenuation, rayIn: Ray, hit: HitRecord, randomUnit: UnitVec3)
    requires 0.0 < eta && rayIn.direction.IsUnit() && hit.surfaceNormal.IsUnit()
    ensures CanScatter(Glass(eta, albedo), rayIn, hit, randomUnit)
  {
  }

  /** `GlassScatterFrom` when the draw is at least the reflectance. */
  lemma GlassRefractsFrom(eta: real, albedo: Attenuation, rayIn: Ray, hit: HitRecord, randomUnit: UnitVec3,
                         draw: real, sqrt: real -> real,
                         o: Orientation, t: Vec3, q: real, cosine: real, ratio: real,
                         origin: Point3, refracted: UnitVec3, mirrored: UnitVec3)
    requires IsSqrt(sqrt)
    requires GlassValues(eta, rayIn, hit, o, t, q, cosine, ratio, origin, refracted, mirrored)
    requires Reflectance(cosine, ratio) <= draw
    ensures Scatter(Glass(eta, albedo), rayIn, hit, randomUnit, draw, sqrt) == Scattered(albedo, Ray(origin, refracted))
  {
    GlassScatterFrom(eta, albedo, rayIn, hit, randomUnit, draw, sqrt, o, t, q, cosine, ratio, origin, refracted, mirrored);
  }

  /** `GlassScatterFrom` when the draw is below the reflectance. */
  lemma GlassMirrorsFrom(eta: real, albedo: Attenuation, rayIn: Ray, hit: HitRecord, randomUnit: UnitVec3,
                         draw: real, sqrt: real -> real,
                         o: Orientation, t: Vec3, q: real, cosine: real, ratio: real,
                         origin: Point3, refracted: UnitVec3, mirrored: UnitVec3)
    requires IsSqrt(sqrt)
    requires GlassValues(eta, rayIn, hit, o, t, q, cosine, ratio, origin, refracted, mirrored)
    requires draw < Reflectance(cosine, ratio)
    ensures Scatter(Glass(eta, albedo), rayIn, hit, randomUnit, draw, sqrt) == Scattered(albedo, Ray(origin, mirrored))
  {
    GlassScatterFrom(eta, albedo, rayIn, hit, randomUnit, draw, sqrt, o, t, q, cosine, ratio, origin, refracted, mirrored);
  }

  /** The unit vector `(0, 1, 0)` both glass tests use as the surface normal. */
  lemma UpNormal(sqrt: real -> real) returns (n: UnitVec3)
    requires IsSqrt(sqrt)
    ensures n == UnitVec3(0.0, 1.0, 0.0) && n.IsUnit()
    ensures Normalize(Vec3(0.0, 1.0, 0.0), sqrt) == n
  {
    n := UnitVec3(0.0, 1.0, 0.0);
    NormalizeUnit(n, sqrt);
  }

  /** `(a, b, 0)` with `a^2 + b^2 = 4` normalises to half of itself: the
      `unit_vector()` of both tests' incoming directions. */
  lemma HalfLength(a: real, b: real, sqrt: real -> real) returns (d: UnitVec3)
    requires IsSqrt(sqrt)
    requires a * a + b * b == 4.0
    ensures d == UnitVec3(0.5 * a, 0.5 * b, 0.0) && d.IsUnit()
    ensures Vec3(a, b, 0.0) != Zero && Normalize(Vec3(a, b, 0.0), sqrt) == d
  {
    var v := Vec3(a, b, 0.0);
    assert v.LengthSquared() == 4.0;
    ZeroLengthSquared(v);
    SqrtOf(sqrt, 4.0, 2.0);
    assert v.Length(sqrt) == 2.0;
    d := UnitVec3(0.5 * a, 0.5 * b, 0.0);
    assert v.Divide(2.0) == d.Inject();
  }

  // ---------------------------------------------------------------------------
  // glass_scatter_test2: a ray entering glass of index sqrt(3) at 60 degrees
  //
  // The lemmas below hand each other named values only: the solver loses its
  // way when literal vectors meet fresh arithmetic in one proof.

  /** glass_scatter_test2: the ray from `(-sqrt 3, 1, 0)` along
      `(sqrt 3, -1, 0)`, whose unit vector is `(sqrt(3)/2, -1/2, 0)` by
      `HalfLength`, enters glass of index `sqrt 3` through the plane `y = 0`
      at `t = 2`, and glass scatters it. */
  lemma GlassScatterEntering(s: real, rayIn: Ray, hit: HitRecord, randomUnit: UnitVec3, draw: real,
                             albedo: Attenuation, sqrt: real -> real)
    requires IsSqrt(sqrt)
    requires 0.0 < s && s * s == 3.0
    requires rayIn == Ray(Point3(-s, 1.0, 0.0), Normalize(Vec3(s, -1.0, 0.0), sqrt))
    requires hit == HitRecord(2.0, Normalize(Vec3(0.0, 1.0, 0.0), sqrt))
    ensures CanScatter(Glass(s, albedo), rayIn, hit, randomUnit)
  {
    EnteringInputs(s, rayIn, hit, sqrt);
    var d, n := EnteringDirections(s, rayIn, hit, sqrt);
    GlassCanScatter(s, albedo, rayIn, hit, randomUnit);
  }

  /** glass_scatter_test2 when the draw is at least the reflectance: the ray
      refracts to `(1/2, -sqrt(3)/2, 0)`, 30 degrees from the normal, and
      leaves from the origin. */
  lemma GlassEnteringRefracts(s: real, rayIn: Ray, hit: HitRecord, randomUnit: UnitVec3, draw: real,
                              albedo: Attenuation, sqrt: real -> real)
    requires IsSqrt(sqrt)
    requires 0.0 < s && s * s == 3.0
    requires rayIn == Ray(Point3(-s, 1.0, 0.0), Normalize(Vec3(s, -1.0, 0.0), sqrt))
    requires hit == HitRecord(2.0, Normalize(Vec3(0.0, 1.0, 0.0), sqrt))
    requires Reflectance(0.5, s / 3.0) <= draw
    ensures Scatter(Glass(s, albedo), rayIn, hit, randomUnit, draw, sqrt)
        == Scattered(albedo, Ray(Point3(0.0, 0.0, 0.0), UnitVec3(0.5, -0.5 * s, 0.0)))
  {
    EnteringInputs(s, rayIn, hit, sqrt);
    var o, t, q, cosine, ratio, origin, refracted, mirrored := EnteringSetup(s, rayIn, hit, sqrt);
    EnteringThreshold(s, cosine, ratio, draw);
    GlassRefractsFrom(s, albedo, rayIn, hit, randomUnit, draw, sqrt, o, t, q, cosine, ratio, origin, refracted, mirrored);
  }

  /** glass_scatter_test2 when the draw is below the reflectance: the ray is
      mirrored to `(sqrt(3)/2, 1/2, 0)` and leaves from the origin. */
  lemma GlassEnteringMirrors(s: real, rayIn: Ray, hit: HitRecord, randomUnit: UnitVec3, draw: real,
                             albedo: Attenuation, sqrt: real -> real)
    requires IsSqrt(sqrt)
    requires 0.0 < s && s * s == 3.0
    requires rayIn == Ray(Point3(-s, 1.0, 0.0), Normalize(Vec3(s, -1.0, 0.0), sqrt))
    requires hit == HitRecord(2.0, Normalize(Vec3(0.0, 1.0, 0.0), sqrt))
    requires draw < Reflectance(0.5, s / 3.0)
    ensures Scatter(Glass(s, albedo), rayIn, hit, randomUnit, draw, sqrt)
        == Scattered(albedo, Ray(Point3(0.0, 0.0, 0.0), UnitVec3(0.5 * s, 0.5, 0.0)))
  {
    EnteringInputs(s, rayIn, hit, sqrt);
    var o, t, q, cosine, ratio, origin, refracted, mirrored := EnteringSetup(s, rayIn, hit, sqrt);
    EnteringThreshold(s, cosine, ratio, draw);
    GlassMirrorsFrom(s, albedo, rayIn, hit, randomUnit, draw, sqrt, o, t, q, cosine, ratio, origin, refracted, mirrored);
  }

  /** The tests build the incoming direction and the normal with
      `unit_vector()`; normalised, they are the unit vectors the lemmas below
      start from. */
  lemma EnteringInputs(s: real, rayIn: Ray, hit: HitRecord, sqrt: real -> real)
    requires IsSqrt(sqrt)
    requires 0.0 < s && s * s == 3.0
    requires rayIn == Ray(Point3(-s, 1.0, 0.0), Normalize(Vec3(s, -1.0, 0.0), sqrt))
    requires hit == HitRecord(2.0, Normalize(Vec3(0.0, 1.0, 0.0), sqrt))
    ensures rayIn == Ray(Point3(-s, 1.0, 0.0), UnitVec3(0.5 * s, -0.5, 0.0))
    ensures hit == HitRecord(2.0, UnitVec3(0.0, 1.0, 0.0))
  {
    var d := EnteringUnit(s, sqrt);
    var n := UpNormal(sqrt);
  }

  /** The reflectance threshold of glass_scatter_test2, `cosine = 1/2` and `ratio = sqrt(3)/3`. */
  lemma EnteringThreshold(s: real, cosine: real, ratio: real, draw: real)
    requires 0.0 < s && cosine == 0.5 && ratio == s / 3.0
    ensures ratio != -1.0
    ensures Reflectance(0.5, s / 3.0) <= draw ==> Reflectance(cosine, ratio) <= draw
    ensures draw < Reflectance(0.5, s / 3.0) ==> draw < Reflectance(cosine, ratio)
  {
  }

  /** The intermediate values of glass_scatter_test2, in the form `GlassScatterFrom` takes them. */
  lemma EnteringSetup(s: real, rayIn: Ray, hit: HitRecord, sqrt: real -> real)
    returns (o: Orientation, t: Vec3, q: real, cosine: real, ratio: real,
             origin: Point3, refracted: UnitVec3, mirrored: UnitVec3)
    requires IsSqrt(sqrt)
    requires 0.0 < s && s * s == 3.0
    requires rayIn == Ray(Point3(-s, 1.0, 0.0), UnitVec3(0.5 * s, -0.5, 0.0))
    requires hit == HitRecord(2.0, UnitVec3(0.0, 1.0, 0.0))
    ensures GlassValues(s, rayIn, hit, o, t, q, cosine, ratio, origin, refracted, mirrored)
    ensures cosine == 0.5 && ratio == s / 3.0 && origin == Point3(0.0, 0.0, 0.0)
    ensures refracted == UnitVec3(0.5, -0.5 * s, 0.0) && mirrored == UnitVec3(0.5 * s, 0.5, 0.0)
  {
    var d, n := EnteringDirections(s, rayIn, hit, sqrt);
    origin := EnteringOrigin(s, rayIn, hit);
    o, t, q, cosine, ratio, refracted := EnteringParts(s, d, n);
    mirrored := EnteringMirror(s, d, n);
  }

  /** The unit direction and normal of glass_scatter_test2. */
  lemma EnteringDirections(s: real, rayIn: Ray, hit: HitRecord, sqrt: real -> real) returns (d: UnitVec3, n: UnitVec3)
    requires IsSqrt(sqrt)
    requires 0.0 < s && s * s == 3.0
    requires rayIn == Ray(Point3(-s, 1.0, 0.0), UnitVec3(0.5 * s, -0.5, 0.0))
    requires hit == HitRecord(2.0, UnitVec3(0.0, 1.0, 0.0))
    ensures rayIn.direction == d && hit.surfaceNormal == n && d.IsUnit() && n.IsUnit()
    ensures d == UnitVec3(0.5 * s, -0.5, 0.0) && n == UnitVec3(0.0, 1.0, 0.0)
  {
    d := EnteringUnit(s, sqrt);
    n := UpNormal(sqrt);
  }

  /** The unit vector of the incoming direction of glass_scatter_test2. */
  lemma EnteringUnit(s: real, sqrt: real -> real) returns (d: UnitVec3)
    requires IsSqrt(sqrt)
    requires s * s == 3.0
    ensures d == UnitVec3(0.5 * s, -0.5, 0.0) && d.IsUnit()
    ensures Vec3(s, -1.0, 0.0) != Zero && Normalize(Vec3(s, -1.0, 0.0), sqrt) == d
  {
    d := HalfLength(s, -1.0, sqrt);
  }

  /** The hit point of glass_scatter_test2 is the origin. */
  lemma EnteringOrigin(s: real, rayIn: Ray, hit: HitRecord) returns (origin: Point3)
    requires rayIn == Ray(Point3(-s, 1.0, 0.0), UnitVec3(0.5 * s, -0.5, 0.0))
    requires hit == HitRecord(2.0, UnitVec3(0.0, 1.0, 0.0))
    ensures rayIn.At(hit.t) == origin && origin == Point3(0.0, 0.0, 0.0)
  {
    origin := Point3(0.0, 0.0, 0.0);
  }

  /** The oriented normal, the threshold inputs, the tangential part
      `(1/2, 0, 0)`, the root `sqrt(3)/2` of the normal coefficient `3/4` and
      the refracted direction for glass_scatter_test2. */
  lemma EnteringParts(s: real, d: UnitVec3, n: UnitVec3)
    returns (o: Orientation, t: Vec3, q: real, cosine: real, ratio: real, refracted: UnitVec3)
    requires 0.0 < s && s * s == 3.0
    requires d == UnitVec3(0.5 * s, -0.5, 0.0) && n == UnitVec3(0.0, 1.0, 0.0)
    ensures Orient(n.Inject(), d.Inject(), s) == o
    ensures cosine == -o.inprod && ratio == o.etaIn / o.etaOut
    ensures cosine == 0.5 && ratio == s / 3.0
    ensures Tangential(o, d.Inject()) == t
    ensures 0.0 <= q && q * q == 1.0 - t.LengthSquared()
    ensures t.Sub(o.normal.Scale(q)) == refracted.Inject() && refracted == UnitVec3(0.5, -0.5 * s, 0.0)
  {
    o := EnteringOrient(s, d, n);
    cosine, ratio := EnteringRatio(s, o);
    t := EnteringTangential(s, d, o);
    q := EnteringRoot(s, t);
    refracted := EnteringRefraction(s, o, t, q);
  }

  lemma EnteringOrient(s: real, d: UnitVec3, n: UnitVec3) returns (o: Orientation)
    requires d == UnitVec3(0.5 * s, -0.5, 0.0) && n == UnitVec3(0.0, 1.0, 0.0)
    ensures Orient(n.Inject(), d.Inject(), s) == o
    ensures o == Orientation(Vec3(0.0, 1.0, 0.0), -0.5, 1.0, s)
  {
    assert n.Inject().Dot(d.Inject()) == -0.5;
    o := Orientation(Vec3(0.0, 1.0, 0.0), -0.5, 1.0, s);
  }

  /** Entering glass of index `sqrt 3`, the cosine is `1/2` and the index ratio `1 / sqrt 3 = sqrt(3)/3`. */
  lemma EnteringRatio(s: real, o: Orientation) returns (cosine: real, ratio: real)
    requires 0.0 < s && s * s == 3.0
    requires o == Orientation(Vec3(0.0, 1.0, 0.0), -0.5, 1.0, s)
    ensures cosine == -o.inprod && ratio == o.etaIn / o.etaOut
    ensures cosine == 0.5 && ratio == s / 3.0
  {
    cosine, ratio := -o.inprod, o.etaIn / o.etaOut;
    assert s * (s / 3.0) == 1.0;
    assert s * ratio == 1.0;
  }

  lemma EnteringTangential(s: real, d: UnitVec3, o: Orientation) returns (t: Vec3)
    requires 0.0 < s
    requires d == UnitVec3(0.5 * s, -0.5, 0.0)
    requires o == Orientation(Vec3(0.0, 1.0, 0.0), -0.5, 1.0, s)
    ensures Tangential(o, d.Inject()) == t && t == Vec3(0.5, 0.0, 0.0)
  {
    var v := EnteringInPlane(s, d, o);
    var k := o.etaIn / o.etaOut;
    assert s * k == 1.0;
    t := OnAxisScale(0.5 * s, k, 0.5);
  }

  lemma EnteringInPlane(s: real, d: UnitVec3, o: Orientation) returns (v: Vec3)
    requires d == UnitVec3(0.5 * s, -0.5, 0.0)
    requires o == Orientation(Vec3(0.0, 1.0, 0.0), -0.5, 1.0, s)
    ensures d.Inject().Sub(o.normal.Scale(o.inprod)) == v && v == Vec3(0.5 * s, 0.0, 0.0)
  {
    v := Vec3(0.5 * s, 0.0, 0.0);
  }

  lemma EnteringRoot(s: real, t: Vec3) returns (q: real)
    requires 0.0 < s && s * s == 3.0
    requires t == Vec3(0.5, 0.0, 0.0)
    ensures q == 0.5 * s && 0.0 <= q && q * q == 1.0 - t.LengthSquared()
  {
    assert t.LengthSquared() == 0.25;
    q := 0.5 * s;
    assert q * q == 0.25 * (s * s);
  }

  lemma EnteringRefraction(s: real, o: Orientation, t: Vec3, q: real) returns (refracted: UnitVec3)
    requires o == Orientation(Vec3(0.0, 1.0, 0.0), -0.5, 1.0, s)
    requires t == Vec3(0.5, 0.0, 0.0) && q == 0.5 * s
    ensures t.Sub(o.normal.Scale(q)) == refracted.Inject() && refracted == UnitVec3(0.5, -0.5 * s, 0.0)
  {
    refracted := UnitVec3(0.5, -0.5 * s, 0.0);
  }

  /** `(a, 0, 0)` scaled by `k` is `(b, 0, 0)` when `a k = b`. */
  lemma OnAxisScale(a: real, k: real, b: real) returns (t: Vec3)
    requires a * k == b
    ensures Vec3(a, 0.0, 0.0).Scale(k) == t && t == Vec3(b, 0.0, 0.0)
  {
    t := Vec3(b, 0.0, 0.0);
  }

  /** The mirror direction of glass_scatter_test2. */
  lemma EnteringMirror(s: real, d: UnitVec3, n: UnitVec3) returns (mirrored: UnitVec3)
    requires d == UnitVec3(0.5 * s, -0.5, 0.0) && n == UnitVec3(0.0, 1.0, 0.0)
    ensures Reflect(d, n) == mirrored && mirrored == UnitVec3(0.5 * s, 0.5, 0.0)
  {
    assert d.Inject().Dot(n.Inject()) == -0.5;
    mirrored := UnitVec3(0.5 * s, 0.5, 0.0);
  }

  // ---------------------------------------------------------------------------
  // glass_scatter_test3: a ray leaving glass of index sqrt(3) at 30 degrees

  /** glass_scatter_test3: the ray from `(-1, -sqrt 3, 0)` along
      `(1, sqrt 3, 0)`, whose unit vector is `(1/2, sqrt(3)/2, 0)` by
      `HalfLength`, leaves glass of index `sqrt 3` through the plane `y = 0`
      at `t = 2`, the normal `(0, 1, 0)` pointing outwards, and glass
      scatters it. */
  lemma GlassScatterLeaving(s: real, rayIn: Ray, hit: HitRecord, randomUnit: UnitVec3, draw: real,
                            albedo: Attenuation, sqrt: real -> real)
    requires IsSqrt(sqrt)
    requires 0.0 < s && s * s == 3.0
    requires rayIn == Ray(Point3(-1.0, -s, 0.0), Normalize(Vec3(1.0, s, 0.0), sqrt))
    requires hit == HitRecord(2.0, Normalize(Vec3(0.0, 1.0, 0.0), sqrt))
    ensures CanScatter(Glass(s, albedo), rayIn, hit, randomUnit)
  {
    LeavingInputs(s, rayIn, hit, sqrt);
    var d, n := LeavingDirections(s, rayIn, hit, sqrt);
    GlassCanScatter(s, albedo, rayIn, hit, randomUnit);
  }

  /** glass_scatter_test3 when the draw is at least the reflectance: the ray
      refracts to `(sqrt(3)/2, 1/2, 0)`, 60 degrees from the normal, and
      leaves from the origin. */
  lemma GlassLeavingRefracts(s: real, rayIn: Ray, hit: HitRecord, randomUnit: UnitVec3, draw: real,
                             albedo: Attenuation, sqrt: real -> real)
    requires IsSqrt(sqrt)
    requires 0.0 < s && s * s == 3.0
    requires rayIn == Ray(Point3(-1.0, -s, 0.0), Normalize(Vec3(1.0, s, 0.0), sqrt))
    requires hit == HitRecord(2.0, Normalize(Vec3(0.0, 1.0, 0.0), sqrt))
    requires Reflectance(0.5 * s, s) <= draw
    ensures Scatter(Glass(s, albedo), rayIn, hit, randomUnit, draw, sqrt)
        == Scattered(albedo, Ray(Point3(0.0, 0.0, 0.0), UnitVec3(0.5 * s, 0.5, 0.0)))
  {
    LeavingInputs(s, rayIn, hit, sqrt);
    var o, t, q, cosine, ratio, origin, refracted, mirrored := LeavingSetup(s, rayIn, hit, sqrt);
    LeavingThreshold(s, cosine, ratio, draw);
    GlassRefractsFrom(s, albedo, rayIn, hit, randomUnit, draw, sqrt, o, t, q, cosine, ratio, origin, refracted, mirrored);
  }

  /** glass_scatter_test3 when the draw is below the reflectance: the ray is
      mirrored back into the glass along `(1/2, -sqrt(3)/2, 0)` from the origin. */
  lemma GlassLeavingMirrors(s: real, rayIn: Ray, hit: HitRecord, randomUnit: UnitVec3, draw: real,
                            albedo: Attenuation, sqrt: real -> real)
    requires IsSqrt(sqrt)
    requires 0.0 < s && s * s == 3.0
    requires rayIn == Ray(Point3(-1.0, -s, 0.0), Normalize(Vec3(1.0, s, 0.0), sqrt))
    requires hit == HitRecord(2.0, Normalize(Vec3(0.0, 1.0, 0.0), sqrt))
    requires draw < Reflectance(0.5 * s, s)
    ensures Scatter(Glass(s, albedo), rayIn, hit, randomUnit, draw, sqrt)
        == Scattered(albedo, Ray(Point3(0.0, 0.0, 0.0), UnitVec3(0.5, -0.5 * s, 0.0)))
  {
    LeavingInputs(s, rayIn, hit, sqrt);
    var o, t, q, cosine, ratio, origin, refracted, mirrored := LeavingSetup(s, rayIn, hit, sqrt);
    LeavingThreshold(s, cosine, ratio, draw);
    GlassMirrorsFrom(s, albedo, rayIn, hit, randomUnit, draw, sqrt, o, t, q, cosine, ratio, origin, refracted, mirrored);
  }

  /** The tests build the incoming direction and the normal with
      `unit_vector()`; normalised, they are the unit vectors the lemmas below
      start from. */
  lemma LeavingInputs(s: real, rayIn: Ray, hit: HitRecord, sqrt: real -> real)
    requires IsSqrt(sqrt)
    requires 0.0 < s && s * s == 3.0
    requires rayIn == Ray(Point3(-1.0, -s, 0.0), Normalize(Vec3(1.0, s, 0.0), sqrt))
    requires hit == HitRecord(2.0, Normalize(Vec3(0.0, 1.0, 0.0), sqrt))
    ensures rayIn == Ray(Point3(-1.0, -s, 0.0), UnitVec3(0.5, 0.5 * s, 0.0))
    ensures hit == HitRecord(2.0, UnitVec3(0.0, 1.0, 0.0))
  {
    var d := LeavingUnit(s, sqrt);
    var n := UpNormal(sqrt);
  }

  /** The reflectance threshold of glass_scatter_test3, `cosine = sqrt(3)/2` and `ratio = sqrt 3`. */
  lemma LeavingThreshold(s: real, cosine: real, ratio: real, draw: real)
    requires 0.0 < s && cosine == 0.5 * s && ratio == s
    ensures ratio != -1.0
    ensures Reflectance(0.5 * s, s) <= draw ==> Reflectance(cosine, ratio) <= draw
    ensures draw < Reflectance(0.5 * s, s) ==> draw < Reflectance(cosine, ratio)
  {
  }

  /** The intermediate values of glass_scatter_test3, in the form `GlassScatterFrom` takes them. */
  lemma LeavingSetup(s: real, rayIn: Ray, hit: HitRecord, sqrt: real -> real)
    returns (o: Orientation, t: Vec3, q: real, cosine: real, ratio: real,
             origin: Point3, refracted: UnitVec3, mirrored: UnitVec3)
    requires IsSqrt(sqrt)
    requires 0.0 < s && s * s == 3.0
    requires rayIn == Ray(Point3(-1.0, -s, 0.0), UnitVec3(0.5, 0.5 * s, 0.0))
    requires hit == HitRecord(2.0, UnitVec3(0.0, 1.0, 0.0))
    ensures GlassValues(s, rayIn, hit, o, t, q, cosine, ratio, origin, refracted, mirrored)
    ensures cosine == 0.5 * s && ratio == s && origin == Point3(0.0, 0.0, 0.0)
    ensures refracted == UnitVec3(0.5 * s, 0.5, 0.0) && mirrored == UnitVec3(0.5, -0.5 * s, 0.0)
  {
    var d, n := LeavingDirections(s, rayIn, hit, sqrt);
    origin := LeavingOrigin(s, rayIn, hit);
    o, t, q, cosine, ratio, refracted := LeavingParts(s, d, n);
    mirrored := LeavingMirror(s, d, n);
  }

  /** The unit direction and normal of glass_scatter_test3. */
  lemma LeavingDirections(s: real, rayIn: Ray, hit: HitRecord, sqrt: real -> real) returns (d: UnitVec3, n: UnitVec3)
    requires IsSqrt(sqrt)
    requires 0.0 < s && s * s == 3.0
    requires rayIn == Ray(Point3(-1.0, -s, 0.0), UnitVec3(0.5, 0.5 * s, 0.0))
    requires hit == HitRecord(2.0, UnitVec3(0.0, 1.0, 0.0))
    ensures rayIn.direction == d && hit.surfaceNormal == n && d.IsUnit() && n.IsUnit()
    ensures d == UnitVec3(0.5, 0.5 * s, 0.0) && n == UnitVec3(0.0, 1.0, 0.0)
  {
    d := LeavingUnit(s, sqrt);
    n := UpNormal(sqrt);
  }

  /** The unit vector of the incoming direction of glass_scatter_test3. */
  lemma LeavingUnit(s: real, sqrt: real -> real) returns (d: UnitVec3)
    requires IsSqrt(sqrt)
    requires s * s == 3.0
    ensures d == UnitVec3(0.5, 0.5 * s, 0.0) && d.IsUnit()
    ensures Vec3(1.0, s, 0.0) != Zero && Normalize(Vec3(1.0, s, 0.0), sqrt) == d
  {
    d := HalfLength(1.0, s, sqrt);
  }

  /** The hit point of glass_scatter_test3 is the origin. */
  lemma LeavingOrigin(s: real, rayIn: Ray, hit: HitRecord) returns (origin: Point3)
    requires rayIn == Ray(Point3(-1.0, -s, 0.0), UnitVec3(0.5, 0.5 * s, 0.0))
    requires hit == HitRecord(2.0, UnitVec3(0.0, 1.0, 0.0))
    ensures rayIn.At(hit.t) == origin && origin == Point3(0.0, 0.0, 0.0)
  {
    origin := Point3(0.0, 0.0, 0.0);
  }

  /** The flipped normal, the threshold inputs, the tangential part
      `(sqrt(3)/2, 0, 0)`, the root `1/2` of the normal coefficient `1/4` and
      the refracted direction for glass_scatter_test3. */
  lemma LeavingParts(s: real, d: UnitVec3, n: UnitVec3)
    returns (o: Orientation, t: Vec3, q: real, cosine: real, ratio: real, refracted: UnitVec3)
    requires 0.0 < s && s * s == 3.0
    requires d == UnitVec3(0.5, 0.5 * s, 0.0) && n == UnitVec3(0.0, 1.0, 0.0)
    ensures Orient(n.Inject(), d.Inject(), s) == o
    ensures cosine == -o.inprod && ratio == o.etaIn / o.etaOut
    ensures cosine == 0.5 * s && ratio == s
    ensures Tangential(o, d.Inject()) == t
    ensures 0.0 <= q && q * q == 1.0 - t.LengthSquared()
    ensures t.Sub(o.normal.Scale(q)) == refracted.Inject() && refracted == UnitVec3(0.5 * s, 0.5, 0.0)
  {
    o := LeavingOrient(s, d, n);
    cosine, ratio := LeavingRatio(s, o);
    t := LeavingTangential(s, d, o);
    q := LeavingRoot(s, t);
    refracted := LeavingRefraction(s, o, t, q);
  }

  lemma LeavingOrient(s: real, d: UnitVec3, n: UnitVec3) returns (o: Orientation)
    requires 0.0 < s
    requires d == UnitVec3(0.5, 0.5 * s, 0.0) && n == UnitVec3(0.0, 1.0, 0.0)
    ensures Orient(n.Inject(), d.Inject(), s) == o
    ensures o == Orientation(Vec3(0.0, -1.0, 0.0), -0.5 * s, s, 1.0)
  {
    assert n.Inject().Dot(d.Inject()) == 0.5 * s;
    assert n.Inject().Scale(-1.0) == Vec3(0.0, -1.0, 0.0);
    o := Orientation(Vec3(0.0, -1.0, 0.0), -0.5 * s, s, 1.0);
  }

  /** Leaving glass of index `sqrt 3` into the outside medium, the cosine is
      `sqrt(3)/2` and the index ratio is the glass's index. */
  lemma LeavingRatio(s: real, o: Orientation) returns (cosine: real, ratio: real)
    requires o == Orientation(Vec3(0.0, -1.0, 0.0), -0.5 * s, s, 1.0)
    ensures cosine == -o.inprod && ratio == o.etaIn / o.etaOut
    ensures cosine == 0.5 * s && ratio == s
  {
    cosine, ratio := -o.inprod, o.etaIn / o.etaOut;
  }

  lemma LeavingTangential(s: real, d: UnitVec3, o: Orientation) returns (t: Vec3)
    requires d == UnitVec3(0.5, 0.5 * s, 0.0)
    requires o == Orientation(Vec3(0.0, -1.0, 0.0), -0.5 * s, s, 1.0)
    ensures Tangential(o, d.Inject()) == t && t == Vec3(0.5 * s, 0.0, 0.0)
  {
    var v := d.Inject().Sub(o.normal.Scale(o.inprod));
    assert v == Vec3(0.5, 0.0, 0.0);
    t := OnAxisScale(0.5, s / 1.0, 0.5 * s);
  }

  lemma LeavingRoot(s: real, t: Vec3) returns (q: real)
    requires s * s == 3.0
    requires t == Vec3(0.5 * s, 0.0, 0.0)
    ensures q == 0.5 && 0.0 <= q && q * q == 1.0 - t.LengthSquared()
  {
    assert t.LengthSquared() == 0.25 * (s * s);
    q := 0.5;
  }

  lemma LeavingRefraction(s: real, o: Orientation, t: Vec3, q: real) returns (refracted: UnitVec3)
    requires o == Orientation(Vec3(0.0, -1.0, 0.0), -0.5 * s, s, 1.0)
    requires t == Vec3(0.5 * s, 0.0, 0.0) && q == 0.5
    ensures t.Sub(o.normal.Scale(q)) == refracted.Inject() && refracted == UnitVec3(0.5 * s, 0.5, 0.0)
  {
    refracted := UnitVec3(0.5 * s, 0.5, 0.0);
  }

  /** The mirror direction of glass_scatter_test3. */
  lemma LeavingMirror(s: real, d: UnitVec3, n: UnitVec3) returns (mirrored: UnitVec3)
    requires d == UnitVec3(0.5, 0.5 * s, 0.0) && n == UnitVec3(0.0, 1.0, 0.0)
    ensures Reflect(d, n) == mirrored && mirrored == UnitVec3(0.5, -0.5 * s, 0.0)
  {
    assert d.Inject().Dot(n.Inject()) == 0.5 * s;
    mirrored := UnitVec3(0.5, -0.5 * s, 0.0);
  }
}
