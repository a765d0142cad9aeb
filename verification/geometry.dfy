/** Real-valued model of the vector algebra under the ray tracer: free vectors,
    unit vectors, points and rays. Every `f64` of the Rust code is a `real` here,
    so the algebraic identities hold exactly rather than up to rounding. */
module Geometry {

  import opened Reals

  /** A free vector (geometry.rs `Vec3`). */
  datatype Vec3 = Vec3(x: real, y: real, z: real) {

    function Add(v: Vec3): (r: Vec3)
      ensures r.Sub(v) == this
    {
      Vec3(x + v.x, y + v.y, z + v.z)
    }

    /** Component-wise difference; hittable_object.rs calls it on vectors although
        geometry.rs does not define it. */
    function Sub(v: Vec3): Vec3 {
      Vec3(x - v.x, y - v.y, z - v.z)
    }

    /** Scaling by 1 changes nothing. */
    function Scale(ratio: real): (r: Vec3)
      ensures ratio == 1.0 ==> r == this
    {
      Vec3(x * ratio, y * ratio, z * ratio)
    }

    /** Division by a scalar agrees with scaling by its inverse, and scaling
        back by `d` undoes it. */
    function Divide(d: real): (r: Vec3)
      requires d != 0.0
      ensures r == Scale(1.0 / d)
      ensures r.Scale(d) == this
    {
      Vec3(x / d, y / d, z / d)
    }

    function Dot(v: Vec3): real {
      x * v.x + y * v.y + z * v.z
    }

    /** The squared length is never negative. */
    function LengthSquared(): (r: real)
      ensures 0.0 <= r
      ensures r == Dot(this)
    {
      SquareFacts(x);
      SquareFacts(y);
      SquareFacts(z);
      x * x + y * y + z * z
    }

    /** The length is the non-negative square root of the squared length. */
    function Length(sqrt: real -> real): (r: real)
      requires IsSqrt(sqrt)
      ensures 0.0 <= r && r * r == LengthSquared()
    {
      var ls := LengthSquared();
      var s := sqrt(ls);
      assert 0.0 <= s && s * s == ls;
      s
    }
  }

  /** Only the zero vector has length zero. (Kept out of the contracts of
      `LengthSquared` and `Length`, where it would be instantiated at every
      use of either.) */
  lemma ZeroLengthSquared(v: Vec3)
    ensures v.LengthSquared() == 0.0 <==> v == Zero
  {
    SquareFacts(v.x);
    SquareFacts(v.y);
    SquareFacts(v.z);
  }

  lemma ZeroLength(v: Vec3, sqrt: real -> real)
    requires IsSqrt(sqrt)
    ensures v.Length(sqrt) == 0.0 <==> v == Zero
  {
    var len := v.Length(sqrt);
    var ls := v.LengthSquared();
    assert len * len == ls;
    SquareFacts(len);
    assert len == 0.0 <==> ls == 0.0;
    ZeroLengthSquared(v);
  }

  const Zero := Vec3(0.0, 0.0, 0.0)

  /** A vector of length 1 (geometry.rs `UnitVec3`). Its fields are private in
      the Rust code, so every value comes out of `Normalize`; `IsUnit` is the
      invariant that construction establishes. */
  datatype UnitVec3 = UnitVec3(x: real, y: real, z: real) {

    predicate IsUnit() {
      Inject().LengthSquared() == 1.0
    }

    /** The stored components as a free vector. */
    function Inject(): Vec3 {
      Vec3(x, y, z)
    }
  }

  /** `UnitVec3::new` (and `Vec3::unit_vector`): divide by the length. The zero
      vector has no direction and is excluded. */
  function Normalize(v: Vec3, sqrt: real -> real): (u: UnitVec3)
    requires IsSqrt(sqrt)
    requires v != Zero
    ensures u.IsUnit()
    ensures 0.0 < v.Length(sqrt) && u.Inject().Scale(v.Length(sqrt)) == v
  {
    var len := v.Length(sqrt);
    ZeroLength(v, sqrt);
    var w := v.Divide(len);
    UnitDivision(v, len);
    UnitVec3(w.x, w.y, w.z)
  }

  /** Dividing a vector by its own length leaves a vector of squared length 1. */
  lemma UnitDivision(v: Vec3, len: real)
    requires 0.0 < len && len * len == v.LengthSquared()
    ensures v.Divide(len).LengthSquared() == 1.0
  {
    var w := v.Divide(len);
    assert w.x * w.x == (v.x * v.x) / (len * len);
    assert w.y * w.y == (v.y * v.y) / (len * len);
    assert w.z * w.z == (v.z * v.z) / (len * len);
    assert w.LengthSquared() == v.LengthSquared() / (len * len);
  }

  /** Normalising a vector of length 1 returns its own components. */
  lemma NormalizeIdentity(w: Vec3, sqrt: real -> real)
    requires IsSqrt(sqrt)
    requires w.LengthSquared() == 1.0
    ensures w != Zero
    ensures Normalize(w, sqrt).Inject() == w
  {
    ZeroLengthSquared(w);
    SqrtOf(sqrt, 1.0, 1.0);
    assert w.Length(sqrt) == 1.0;
  }

  /** Normalising a vector that is already a unit vector gives it back. */
  lemma NormalizeUnit(u: UnitVec3, sqrt: real -> real)
    requires IsSqrt(sqrt)
    requires u.IsUnit()
    ensures u.Inject() != Zero
    ensures Normalize(u.Inject(), sqrt) == u
  {
    NormalizeIdentity(u.Inject(), sqrt);
  }

  /** An affine position (geometry.rs `Point3`). */
  datatype Point3 = Point3(x: real, y: real, z: real) {

    function Add(v: Vec3): Point3 {
      Point3(x + v.x, y + v.y, z + v.z)
    }

    /** The displacement from `pt` to this point: adding it to `pt` lands here. */
    function Subtract(pt: Point3): (v: Vec3)
      ensures pt.Add(v) == this
    {
      Vec3(x - pt.x, y - pt.y, z - pt.z)
    }
  }

  /** Moving a point by `v` and measuring back recovers `v`. */
  lemma PointAddSubtract(p: Point3, v: Vec3)
    ensures p.Add(v).Subtract(p) == v
  {
  }

  /** A half-line from `origin` along `direction` (geometry.rs `Ray`). */
  datatype Ray = Ray(origin: Point3, direction: UnitVec3) {

    /** The point at parameter `t`: its displacement from the origin is `t`
        times the direction, so `t = 0` is the origin itself. */
    function At(t: real): (p: Point3)
      ensures p.Subtract(origin) == direction.Inject().Scale(t)
      ensures t == 0.0 ==> p == origin
    {
      origin.Add(direction.Inject().Scale(t))
    }
  }

  /** `|a - s b|^2` expanded; the identity behind every length argument below. */
  lemma LengthSquaredOfSub(a: Vec3, b: Vec3, s: real)
    ensures a.Sub(b.Scale(s)).LengthSquared()
         == a.LengthSquared() - 2.0 * s * a.Dot(b) + s * s * b.LengthSquared()
  {
    var w := a.Sub(b.Scale(s));
    SquareOfDifference(w.x, a.x, b.x, s);
    SquareOfDifference(w.y, a.y, b.y, s);
    SquareOfDifference(w.z, a.z, b.z, s);
    Distribute3(2.0 * s, a.x * b.x, a.y * b.y, a.z * b.z);
    Distribute3(s * s, b.x * b.x, b.y * b.y, b.z * b.z);
  }

  lemma SquareOfDifference(w: real, a: real, b: real, s: real)
    requires w == a - b * s
    ensures w * w == a * a - 2.0 * s * (a * b) + s * s * (b * b)
  {
  }

  lemma Distribute3(k: real, p: real, q: real, r: real)
    ensures k * (p + q + r) == k * p + k * q + k * r
  {
  }

  /** The dot product of `a - s b` with `b`, expanded. */
  lemma DotOfSub(a: Vec3, b: Vec3, s: real)
    ensures a.Sub(b.Scale(s)).Dot(b) == a.Dot(b) - s * b.LengthSquared()
  {
  }

  /** Scaling one side of a dot product scales the product. */
  lemma ScaledDot(v: Vec3, n: Vec3, k: real)
    ensures v.Scale(k).Dot(n) == k * v.Dot(n)
  {
    Distribute3(k, v.x * n.x, v.y * n.y, v.z * n.z);
  }

  /** The dot product distributes over a sum on its left. */
  lemma SumDot(a: Vec3, b: Vec3, c: Vec3)
    ensures a.Add(b).Dot(c) == a.Dot(c) + b.Dot(c)
  {
  }

  /** A component of a unit vector lies in [-1, 1]. */
  lemma UnitComponentBound(u: UnitVec3)
    ensures u.IsUnit() ==> -1.0 <= u.x <= 1.0 && -1.0 <= u.y <= 1.0 && -1.0 <= u.z <= 1.0
  {
    if u.IsUnit() {
      SquareFacts(u.x);
      SquareFacts(u.y);
      SquareFacts(u.z);
      SquareBound(u.x);
      SquareBound(u.y);
      SquareBound(u.z);
    }
  }

  /** Mirror reflection `d - 2 (d.n) n` about the plane with normal `n`; it is
      imported by hittable_object.rs from geometry.rs, which does not define it, so
      it is defined here directly from that formula. */
  function Reflect(d: UnitVec3, n: UnitVec3): (r: UnitVec3)
    ensures d.IsUnit() && n.IsUnit() ==> r.IsUnit()
    ensures n.IsUnit() ==> r.Inject().Dot(n.Inject()) == -d.Inject().Dot(n.Inject())
  {
    var k := d.Inject().Dot(n.Inject());
    var w := d.Inject().Sub(n.Inject().Scale(2.0 * k));
    MirrorFacts(d.Inject(), n.Inject(), k, w);
    UnitVec3(w.x, w.y, w.z)
  }

  /** `w = d - 2 (d.n) n` flips the normal component and, about a unit
      normal, keeps the length. */
  lemma MirrorFacts(d: Vec3, n: Vec3, k: real, w: Vec3)
    requires k == d.Dot(n) && w == d.Sub(n.Scale(2.0 * k))
    ensures n.LengthSquared() == 1.0 ==> w.Dot(n) == -k
    ensures n.LengthSquared() == 1.0 ==> w.LengthSquared() == d.LengthSquared()
  {
    DotOfSub(d, n, 2.0 * k);
    LengthSquaredOfSub(d, n, 2.0 * k);
    if n.LengthSquared() == 1.0 {
      assert w.Dot(n) == k - 2.0 * k;
      assert w.LengthSquared() == d.LengthSquared() - 2.0 * (2.0 * k) * k + (2.0 * k) * (2.0 * k);
    }
  }

  /** Reflecting twice about the same unit normal returns the incoming direction. */
  lemma ReflectInvolution(d: UnitVec3, n: UnitVec3)
    requires n.IsUnit()
    ensures Reflect(Reflect(d, n), n) == d
  {
    var r := Reflect(d, n);
    ReflectIsMirror(d, n);
    ReflectIsMirror(r, n);
    MirrorInvolution(d.Inject(), n.Inject());
    assert Reflect(r, n).Inject() == d.Inject();
  }

  /** The mirror image `d - 2 (d.n) n` of a free vector. */
  function Mirror(d: Vec3, n: Vec3): Vec3 {
    d.Sub(n.Scale(2.0 * d.Dot(n)))
  }

  /** `Reflect` is the mirror image of the direction's components. */
  lemma ReflectIsMirror(d: UnitVec3, n: UnitVec3)
    ensures Reflect(d, n).Inject() == Mirror(d.Inject(), n.Inject())
  {
  }

  /** Mirroring twice about a unit normal is the identity. */
  lemma MirrorInvolution(d: Vec3, n: Vec3)
    requires n.LengthSquared() == 1.0
    ensures Mirror(Mirror(d, n), n) == d
  {
    var k := d.Dot(n);
    var w := Mirror(d, n);
    MirrorFacts(d, n, k, w);
    MirrorBack(w, d, n, k, w.Dot(n));
  }

  /** Moving `d` by `-2k n` and then by `2k n` returns to `d`. */
  lemma MirrorBack(w: Vec3, d: Vec3, n: Vec3, k: real, kw: real)
    requires w == d.Sub(n.Scale(2.0 * k)) && kw == -k
    ensures w.Sub(n.Scale(2.0 * kw)) == d
  {
    ShiftBack(w.x, d.x, n.x, k, kw);
    ShiftBack(w.y, d.y, n.y, k, kw);
    ShiftBack(w.z, d.z, n.z, k, kw);
  }

  /** Moving `a` by `-2k b` and then by `2k b` returns to `a`. */
  lemma ShiftBack(w: real, a: real, b: real, k: real, kr: real)
    requires w == a - b * (2.0 * k) && kr == -k
    ensures w - b * (2.0 * kr) == a
  {
  }

  /** Reflection preserves length (for any `d`, about a unit normal). */
  lemma ReflectPreservesLength(d: UnitVec3, n: UnitVec3)
    requires n.IsUnit()
    ensures Reflect(d, n).Inject().LengthSquared() == d.Inject().LengthSquared()
  {
    var k := d.Inject().Dot(n.Inject());
    LengthSquaredOfSub(d.Inject(), n.Inject(), 2.0 * k);
  }
}
