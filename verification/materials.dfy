/** Surface materials and how they scatter an incoming ray (the `Material`
    trait of hittable_object.rs and its three implementations). The trait
    objects become one closed datatype; the random unit vector and the random
    number each scatter draws are parameters. */
module Materials {

  import opened Reals
  import opened Geometry
  import opened Colors

  /** Where a ray meets a surface: the ray parameter and the surface normal
      there (hittable_object.rs `HitRecord`). */
  datatype HitRecord = HitRecord(t: real, surfaceNormal: UnitVec3)

  datatype Material =
    | Lambertian(albedo: Attenuation)
    | Metal(albedo: Attenuation, fuzz: real)
      /** `eta` is the refractive index; the Rust code asks in a comment for `eta >= 1`. */
    | Glass(eta: real, albedo: Attenuation)

  /** The pair a scatter returns: attenuation and the child ray. */
  datatype Scattered = Scattered(attenuation: Attenuation, ray: Ray)

  // ---------------------------------------------------------------------------
  // Lambertian and metal directions

  /** Direction of a diffuse bounce: the normal pushed by a random unit vector,
      renormalised. Also the integrator's bounce. */
  function DiffuseDirection(normal: UnitVec3, randomUnit: UnitVec3, sqrt: real -> real): (u: UnitVec3)
    requires IsSqrt(sqrt)
    requires normal.Inject().Add(randomUnit.Inject()) != Zero
    ensures u.IsUnit()
    ensures exists k: real :: 0.0 < k && u.Inject().Scale(k) == normal.Inject().Add(randomUnit.Inject())
  {
    var w := normal.Inject().Add(randomUnit.Inject());
    var u := Normalize(w, sqrt);
    assert u.Inject().Scale(w.Length(sqrt)) == w;
    u
  }

  /** Direction of a metal bounce: the mirror direction blurred by `fuzz`
      times a random unit vector, renormalised. */
  function MetalDirection(d: UnitVec3, normal: UnitVec3, fuzz: real, randomUnit: UnitVec3, sqrt: real -> real): (u: UnitVec3)
    requires IsSqrt(sqrt)
    requires Reflect(d, normal).Inject().Add(randomUnit.Inject().Scale(fuzz)) != Zero
    ensures u.IsUnit()
    ensures exists k: real :: 0.0 < k && u.Inject().Scale(k) == Reflect(d, normal).Inject().Add(randomUnit.Inject().Scale(fuzz))
  {
    var w := Reflect(d, normal).Inject().Add(randomUnit.Inject().Scale(fuzz));
    var u := Normalize(w, sqrt);
    assert u.Inject().Scale(w.Length(sqrt)) == w;
    u
  }

  /** A metal without fuzz is a perfect mirror: the random vector plays no part. */
  lemma MirrorMetal(d: UnitVec3, normal: UnitVec3, randomUnit: UnitVec3, sqrt: real -> real)
    requires IsSqrt(sqrt)
    requires d.IsUnit() && normal.IsUnit()
    ensures Reflect(d, normal).Inject().Add(randomUnit.Inject().Scale(0.0)) != Zero
    ensures MetalDirection(d, normal, 0.0, randomUnit, sqrt) == Reflect(d, normal)
  {
    var r := Reflect(d, normal);
    assert r.Inject().Add(randomUnit.Inject().Scale(0.0)) == r.Inject();
    NormalizeUnit(r, sqrt);
  }

  // ---------------------------------------------------------------------------
  // Schlick reflectance

  /** `x^5`, the grazing term of Schlick's approximation. */
  function Pow5(x: real): real {
    x * x * x * x * x
  }

  /** The fifth power maps [0, 1] into [0, 1]. */
  lemma Pow5Bound(x: real)
    requires 0.0 <= x <= 1.0
    ensures 0.0 <= Pow5(x) <= 1.0
  {
    FractionBelow(x, 1.0);
    FractionBelow(x, x);
    FractionBelow(x, x * x);
    FractionBelow(x, x * x * x);
    FractionBelow(x, x * x * x * x);
  }

  /** Schlick's approximation of the Fresnel reflectance for the cosine of the
      incidence angle and the ratio of refractive indices. Grazing incidence
      reflects everything; head-on incidence reflects `r0^2`; equal indices
      reduce it to the pure grazing term. */
  function Reflectance(cosine: real, ratio: real): (r: real)
    requires ratio != -1.0
    ensures cosine == 0.0 ==> r == 1.0
    ensures cosine == 1.0 ==> r == ((1.0 - ratio) / (1.0 + ratio)) * ((1.0 - ratio) / (1.0 + ratio))
    ensures ratio == 1.0 ==> r == Pow5(1.0 - cosine)
  {
    var r0 := (1.0 - ratio) / (1.0 + ratio);
    r0 * r0 + (1.0 - r0 * r0) * Pow5(1.0 - cosine)
  }

  /** For an angle of incidence between grazing and head-on and a positive
      index ratio, the reflectance is a probability. */
  lemma ReflectanceIsProbability(cosine: real, ratio: real)
    requires 0.0 <= cosine <= 1.0
    requires 0.0 < ratio
    ensures 0.0 <= Reflectance(cosine, ratio) <= 1.0
  {
    var r0 := (1.0 - ratio) / (1.0 + ratio);
    assert r0 * (1.0 + ratio) == 1.0 - ratio;
    assert -1.0 < r0 < 1.0;
    SquareFacts(r0);
    assert r0 * r0 < 1.0 by {
      if 0.0 <= r0 {
        FractionBelow(r0, r0);
      } else {
        FractionBelow(-r0, -r0);
        assert r0 * r0 == (-r0) * (-r0);
      }
    }
    Pow5Bound(1.0 - cosine);
    ConvexBound(r0 * r0, Pow5(1.0 - cosine));
  }

  // ---------------------------------------------------------------------------
  // Glass

  /** The normal, cosine term and refractive indices once the normal has been
      turned to face the incoming ray. */
  datatype Orientation = Orientation(normal: Vec3, inprod: real, etaIn: real, etaOut: real)

  /** Turn the surface normal against the incoming direction `d`. A ray meeting
      the outer side enters the glass (indices 1 then `eta`); otherwise it
      leaves it, the normal is flipped and the indices swap. The outside
      medium always has index 1. */
  function Orient(n: Vec3, d: Vec3, eta: real): (o: Orientation)
    ensures o.inprod == o.normal.Dot(d) && o.inprod <= 0.0
    ensures n.Dot(d) < 0.0 ==> o.normal == n && o.etaIn == 1.0 && o.etaOut == eta
    ensures 0.0 <= n.Dot(d) ==> o.normal == n.Scale(-1.0) && o.etaIn == eta && o.etaOut == 1.0
    ensures o.normal == n || o.normal == n.Scale(-1.0)
    ensures 0.0 < eta ==> 0.0 < o.etaOut && 0.0 < o.etaIn / o.etaOut
  {
    var inprodRaw := n.Dot(d);
    if inprodRaw < 0.0 then Orientation(n, inprodRaw, 1.0, eta)
    else Orientation(n.Scale(-1.0), -inprodRaw, eta, 1.0)
  }

  /** Whichever side the ray meets, the oriented normal of a unit normal is a unit vector. */
  lemma OrientedNormalIsUnit(n: Vec3, d: Vec3, eta: real)
    requires n.LengthSquared() == 1.0
    ensures Orient(n, d, eta).normal.LengthSquared() == 1.0
  {
    NegatedUnit(n);
  }

  /** The tangential part of `d` along the oriented surface, scaled by the index
      ratio: the tangential part of the refracted direction (`vp_out`). */
  function Tangential(o: Orientation, d: Vec3): Vec3
    requires o.etaOut != 0.0
  {
    d.Sub(o.normal.Scale(o.inprod)).Scale(o.etaIn / o.etaOut)
  }

  /** `1 - |vp_out|^2`: the squared normal component the refracted direction
      needs; negative means refraction is impossible. */
  function CoeffNormal(o: Orientation, d: Vec3): real
    requires o.etaOut != 0.0
  {
    1.0 - Tangential(o, d).LengthSquared()
  }

  /** Whether the glass reflects: always under total internal reflection,
      otherwise when the random draw falls below the reflectance. */
  predicate GlassReflects(eta: real, d: UnitVec3, n: UnitVec3, draw: real)
    requires 0.0 < eta
  {
    OrientedReflects(Orient(n.Inject(), d.Inject(), eta), d.Inject(), draw)
  }

  /** `GlassReflects` once the normal has been oriented. */
  predicate OrientedReflects(o: Orientation, d: Vec3, draw: real)
    requires 0.0 < o.etaOut && 0.0 < o.etaIn / o.etaOut
  {
    CoeffNormal(o, d) < 0.0 || Reflectance(-o.inprod, o.etaIn / o.etaOut) > draw
  }

  /** Flipping a unit vector keeps it a unit vector. */
  lemma NegatedUnit(n: Vec3)
    ensures n.Scale(-1.0).LengthSquared() == n.LengthSquared()
    ensures n.Scale(-1.0) != Zero <==> n != Zero
  {
    var m := n.Scale(-1.0);
    assert m == Vec3(-n.x, -n.y, -n.z);
    NegatedSquare(n.x);
    NegatedSquare(n.y);
    NegatedSquare(n.z);
  }

  lemma NegatedSquare(a: real)
    ensures (-a) * (-a) == a * a
  {
  }

  /** The tangential part is orthogonal to the oriented normal, so the refracted
      direction `vp_out - sqrt(c) n` has squared length `|vp_out|^2 + c = 1`. */
  lemma RefractedIsUnit(o: Orientation, d: Vec3, s: real)
    requires o.etaOut != 0.0
    requires o.normal.LengthSquared() == 1.0
    requires o.inprod == o.normal.Dot(d)
    requires s * s == CoeffNormal(o, d)
    ensures Tangential(o, d).Dot(o.normal) == 0.0
    ensures Tangential(o, d).Sub(o.normal.Scale(s)).LengthSquared() == 1.0
  {
    var k := o.etaIn / o.etaOut;
    var vin := d.Sub(o.normal.Scale(o.inprod));
    DotOfSub(d, o.normal, o.inprod);
    assert vin.Dot(o.normal) == 0.0;
    ScaledDot(vin, o.normal, k);
    var t := Tangential(o, d);
    assert t.Dot(o.normal) == 0.0;
    LengthSquaredOfSub(t, o.normal, s);
  }

  /** `vp_out - sqrt(c) n`, the refracted direction before it is normalised. */
  function RefractionVector(o: Orientation, d: Vec3, sqrt: real -> real): Vec3
    requires o.etaOut != 0.0
  {
    Tangential(o, d).Sub(o.normal.Scale(sqrt(CoeffNormal(o, d))))
  }

  /** The refracted direction `vp_out - sqrt(c) n`. It already has length 1,
      so the `unit_vector` call in `Glass::scatter` leaves it unchanged, and it
      points through the surface, against the oriented normal. */
  function Refracted(o: Orientation, d: Vec3, sqrt: real -> real): (u: UnitVec3)
    requires IsSqrt(sqrt)
    requires o.etaOut != 0.0
    requires o.normal.LengthSquared() == 1.0
    requires o.inprod == o.normal.Dot(d)
    requires 0.0 <= CoeffNormal(o, d)
    ensures u.IsUnit()
    ensures u.Inject() == RefractionVector(o, d, sqrt)
    ensures u.Inject().Dot(o.normal) <= 0.0
  {
    var s := sqrt(CoeffNormal(o, d));
    var w := Tangential(o, d).Sub(o.normal.Scale(s));
    assert 0.0 <= s;
    RefractedIsUnit(o, d, s);
    NormalizeIdentity(w, sqrt);
    DotOfSub(Tangential(o, d), o.normal, s);
    assert w.Dot(o.normal) == -s;
    Normalize(w, sqrt)
  }

  /** `Glass::scatter`'s choice of direction: a mirror reflection about the
      surface normal when `GlassReflects`, the refraction otherwise. */
  function GlassDirection(eta: real, d: UnitVec3, n: UnitVec3, draw: real, sqrt: real -> real): (u: UnitVec3)
    requires IsSqrt(sqrt)
    requires 0.0 < eta
    requires d.IsUnit() && n.IsUnit()
    ensures u.IsUnit()
    ensures GlassReflects(eta, d, n, draw) ==> u == Reflect(d, n)
    ensures !GlassReflects(eta, d, n, draw) ==> u.Inject() == RefractionVector(Orient(n.Inject(), d.Inject(), eta), d.Inject(), sqrt)
  {
    var o := Orient(n.Inject(), d.Inject(), eta);
    OrientedNormalIsUnit(n.Inject(), d.Inject(), eta);
    OrientedDirection(o, d, n, draw, sqrt)
  }

  /** The branches of `Glass::scatter` once the normal has been oriented:
      when refraction is possible (`coeff_normal >= 0`), the mirror if the
      draw falls below the reflectance and the refraction otherwise; under
      total internal reflection, the mirror. */
  function OrientedDirection(o: Orientation, d: UnitVec3, n: UnitVec3, draw: real, sqrt: real -> real): (u: UnitVec3)
    requires IsSqrt(sqrt)
    requires d.IsUnit() && n.IsUnit()
    requires 0.0 < o.etaOut && 0.0 < o.etaIn / o.etaOut
    requires o.normal == n.Inject() || o.normal == n.Inject().Scale(-1.0)
    requires o.normal.LengthSquared() == 1.0
    requires o.inprod == o.normal.Dot(d.Inject())
    ensures u.IsUnit()
    ensures OrientedReflects(o, d.Inject(), draw) ==> u == Reflect(d, n)
    ensures !OrientedReflects(o, d.Inject(), draw) ==> u.Inject() == RefractionVector(o, d.Inject(), sqrt)
  {
    if CoeffNormal(o, d.Inject()) >= 0.0 then
      if Reflectance(-o.inprod, o.etaIn / o.etaOut) > draw then
        OrientedMirror(d, n, o.normal, sqrt)
      else
        Refracted(o, d.Inject(), sqrt)
    else
      OrientedMirror(d, n, o.normal, sqrt)
  }

  /** `reflect_vector(&ray_in.direction, &normal.unit_vector())`: the mirror
      direction about the normalised oriented normal, which is the mirror
      direction about the surface normal itself. */
  function OrientedMirror(d: UnitVec3, n: UnitVec3, m: Vec3, sqrt: real -> real): (u: UnitVec3)
    requires IsSqrt(sqrt)
    requires n.IsUnit()
    requires m == n.Inject() || m == n.Inject().Scale(-1.0)
    ensures u == Reflect(d, n)
  {
    ReflectAboutOriented(d, n, m, sqrt);
    Reflect(d, Normalize(m, sqrt))
  }

  /** Reflecting about the oriented normal (either sign of the surface normal)
      is the same as reflecting about the surface normal itself. */
  lemma ReflectAboutOriented(d: UnitVec3, n: UnitVec3, m: Vec3, sqrt: real -> real)
    requires IsSqrt(sqrt)
    requires n.IsUnit()
    requires m == n.Inject() || m == n.Inject().Scale(-1.0)
    ensures m != Zero
    ensures Reflect(d, Normalize(m, sqrt)) == Reflect(d, n)
  {
    NegatedUnit(n.Inject());
    NormalizeIdentity(m, sqrt);
    var u := Normalize(m, sqrt);
    assert u.Inject() == m;
    if m == n.Inject() {
      assert u == n;
    } else {
      ReflectFlipped(d, n, u);
    }
  }

  /** Reflecting about `-n` is reflecting about `n`. */
  lemma ReflectFlipped(d: UnitVec3, n: UnitVec3, u: UnitVec3)
    requires u.Inject() == n.Inject().Scale(-1.0)
    ensures Reflect(d, u) == Reflect(d, n)
  {
    var k := d.Inject().Dot(n.Inject());
    assert d.Inject().Dot(u.Inject()) == -k;
    assert u.Inject().Scale(2.0 * -k) == n.Inject().Scale(2.0 * k);
  }

  /** Under total internal reflection the random draw plays no part: the
      glass acts as a mirror about its surface normal. */
  lemma TotalInternalReflection(eta: real, d: UnitVec3, n: UnitVec3, draw1: real, draw2: real, sqrt: real -> real)
    requires IsSqrt(sqrt)
    requires 0.0 < eta
    requires d.IsUnit() && n.IsUnit()
    requires CoeffNormal(Orient(n.Inject(), d.Inject(), eta), d.Inject()) < 0.0
    ensures GlassDirection(eta, d, n, draw1, sqrt) == GlassDirection(eta, d, n, draw2, sqrt) == Reflect(d, n)
  {
  }

  /** A ray entering glass whose index is at least that of the outside never
      meets total internal reflection. */
  lemma EnteringNeverReflectsTotally(eta: real, d: UnitVec3, n: UnitVec3)
    requires 1.0 <= eta
    requires d.IsUnit() && n.IsUnit()
    requires n.Inject().Dot(d.Inject()) < 0.0
    ensures 0.0 <= CoeffNormal(Orient(n.Inject(), d.Inject(), eta), d.Inject())
  {
    var o := Orient(n.Inject(), d.Inject(), eta);
    var vin := d.Inject().Sub(o.normal.Scale(o.inprod));
    LengthSquaredOfSub(d.Inject(), o.normal, o.inprod);
    assert vin.LengthSquared() == 1.0 - o.inprod * o.inprod;
    SquareFacts(o.inprod);
    var k := 1.0 / eta;
    assert 0.0 < k <= 1.0;
    assert Tangential(o, d.Inject()) == vin.Scale(k);
    assert vin.Scale(k).LengthSquared() == k * k * vin.LengthSquared();
    FractionBelow(k, 1.0);
    FractionBelow(k, k);
    FractionBelow(k * k, vin.LengthSquared());
  }

  /** Glass whose index matches the outside does not bend a ray it lets through. */
  lemma IndexMatchedGlassKeepsDirection(d: UnitVec3, n: UnitVec3, draw: real, sqrt: real -> real)
    requires IsSqrt(sqrt)
    requires d.IsUnit() && n.IsUnit()
    requires !GlassReflects(1.0, d, n, draw)
    ensures GlassDirection(1.0, d, n, draw, sqrt) == d
  {
    var o := Orient(n.Inject(), d.Inject(), 1.0);
    NegatedUnit(n.Inject());
    IndexMatchedRefraction(o, d.Inject(), sqrt);
    var u := Refracted(o, d.Inject(), sqrt);
    assert u.Inject() == d.Inject();
  }

  /** With equal indices the tangential part is the tangential part of `d`
      itself, and the normal part restored is exactly the one removed. */
  lemma IndexMatchedRefraction(o: Orientation, d: Vec3, sqrt: real -> real)
    requires IsSqrt(sqrt)
    requires o.etaIn == o.etaOut == 1.0
    requires d.LengthSquared() == 1.0 && o.normal.LengthSquared() == 1.0
    requires o.inprod == o.normal.Dot(d) && o.inprod <= 0.0
    ensures CoeffNormal(o, d) == o.inprod * o.inprod
    ensures Tangential(o, d).Sub(o.normal.Scale(sqrt(CoeffNormal(o, d)))) == d
  {
    var p := o.inprod;
    var vin := d.Sub(o.normal.Scale(p));
    assert Tangential(o, d) == vin by {
      assert o.etaIn / o.etaOut == 1.0;
    }
    LengthSquaredOfSub(d, o.normal, p);
    assert d.Dot(o.normal) == p;
    var c := CoeffNormal(o, d);
    assert c == p * p;
    SqrtOf(sqrt, c, -p);
    AddBack(d, o.normal, p, sqrt(c));
  }

  /** Taking `p n` away and adding it back leaves `d`. */
  lemma AddBack(d: Vec3, n: Vec3, p: real, q: real)
    requires q == -p
    ensures d.Sub(n.Scale(p)).Sub(n.Scale(q)) == d
  {
  }

  // ---------------------------------------------------------------------------
  // Scattering

  /** What each material needs for its direction to be defined: the diffuse and
      metal sums must not cancel to the zero vector (a degeneracy the Rust code
      leaves open), and glass needs a positive index and unit vectors. */
  predicate CanScatter(m: Material, rayIn: Ray, hit: HitRecord, randomUnit: UnitVec3) {
    match m
    case Lambertian(_) =>
      hit.surfaceNormal.Inject().Add(randomUnit.Inject()) != Zero
    case Metal(_, fuzz) =>
      Reflect(rayIn.direction, hit.surfaceNormal).Inject().Add(randomUnit.Inject().Scale(fuzz)) != Zero
    case Glass(eta, _) =>
      0.0 < eta && rayIn.direction.IsUnit() && hit.surfaceNormal.IsUnit()
  }

  /** `Material::scatter`: every material passes its albedo on unchanged and
      starts the child ray at the hit point, heading in a unit direction. */
  function Scatter(m: Material, rayIn: Ray, hit: HitRecord, randomUnit: UnitVec3, draw: real, sqrt: real -> real): (s: Scattered)
    requires IsSqrt(sqrt)
    requires CanScatter(m, rayIn, hit, randomUnit)
    ensures s.attenuation == m.albedo
    ensures s.ray.origin == rayIn.At(hit.t)
    ensures s.ray.direction.IsUnit()
  {
    var direction :=
      match m
      case Lambertian(_) => DiffuseDirection(hit.surfaceNormal, randomUnit, sqrt)
      case Metal(_, fuzz) => MetalDirection(rayIn.direction, hit.surfaceNormal, fuzz, randomUnit, sqrt)
      case Glass(eta, _) => GlassDirection(eta, rayIn.direction, hit.surfaceNormal, draw, sqrt);
    Scattered(m.albedo, Ray(rayIn.At(hit.t), direction))
  }
}
