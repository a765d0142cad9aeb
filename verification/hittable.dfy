/** Ray intersection with spheres and with lists of objects (the `Hittable`
    trait of hittable_object.rs, with `Sphere` and `HittableList`). The trait
    objects become one closed datatype whose lists may nest. */
module Hittables {

  import opened Reals
  import opened Geometry
  import opened Materials
  import opened Options

  /** Roots closer than this are ignored, so that a ray scattered off a
      surface does not hit that surface again at its own origin. */
  const TMin: real := 0.01

  datatype Hittable =
    | Sphere(center: Point3, radius: real, material: Material)
    | HittableList(members: seq<Hittable>)
  {
    /** Every sphere in the object has a positive radius. */
    predicate WellFormed() {
      match this
      case Sphere(_, radius, _) => 0.0 < radius
      case HittableList(members) => forall i :: 0 <= i < |members| ==> members[i].WellFormed()
    }
  }

  /** What a successful hit reports: the hit record and the material there. */
  datatype HitResult = HitResult(hit: HitRecord, material: Material)

  // ---------------------------------------------------------------------------
  // Spheres

  /** With `v = O - C`: half the linear coefficient of the quadratic in `t`. */
  function BHalf(center: Point3, ray: Ray): real {
    ray.origin.Subtract(center).Dot(ray.direction.Inject())
  }

  /** The constant coefficient `|v|^2 - r^2`. */
  function CTerm(center: Point3, radius: real, ray: Ray): real {
    ray.origin.Subtract(center).LengthSquared() - radius * radius
  }

  /** A quarter of the discriminant, `b_half^2 - c`. */
  function DiscriminantQuarter(center: Point3, radius: real, ray: Ray): real {
    BHalf(center, ray) * BHalf(center, ray) - CTerm(center, radius, ray)
  }

  /** The point of the ray at `t` lies on the sphere. */
  ghost predicate OnSphere(center: Point3, radius: real, ray: Ray, t: real) {
    ray.At(t).Subtract(center).LengthSquared() == radius * radius
  }

  /** For a unit direction, `|O + t d - C|^2 - r^2 = (t + b_half)^2 - dq`. */
  lemma SphereEquation(center: Point3, radius: real, ray: Ray, t: real)
    requires ray.direction.IsUnit()
    ensures ray.At(t).Subtract(center).LengthSquared() - radius * radius
         == (t + BHalf(center, ray)) * (t + BHalf(center, ray)) - DiscriminantQuarter(center, radius, ray)
  {
    var v := ray.origin.Subtract(center);
    var d := ray.direction.Inject();
    assert ray.At(t).Subtract(center) == v.Sub(d.Scale(-t));
    LengthSquaredOfSub(v, d, -t);
  }

  /** `x^2 = s^2` with `s >= 0` leaves exactly `x = s` and `x = -s`. */
  lemma SquareRoots(x: real, s: real)
    requires 0.0 <= s
    ensures x * x == s * s <==> (x == s || x == -s)
  {
    assert x * x - s * s == (x - s) * (x + s);
    if x * x == s * s {
      SquareFacts(x - s);
      if x - s != 0.0 {
        assert (x - s) * (x + s) == 0.0;
        assert x + s == ((x - s) * (x + s)) / (x - s);
      }
    }
  }

  /** The ray meets the sphere exactly at the two roots `-b_half -+ sqrt(dq)`,
      and only when the discriminant is not negative. */
  lemma SphereRoots(center: Point3, radius: real, ray: Ray, t: real, sqrt: real -> real)
    requires IsSqrt(sqrt)
    requires ray.direction.IsUnit()
    ensures OnSphere(center, radius, ray, t) <==>
      && 0.0 <= DiscriminantQuarter(center, radius, ray)
      && (t == -BHalf(center, ray) - sqrt(DiscriminantQuarter(center, radius, ray))
          || t == -BHalf(center, ray) + sqrt(DiscriminantQuarter(center, radius, ray)))
  {
    OnSphereShifted(center, radius, ray, t);
    ShiftedRootsOf(center, radius, ray, t, sqrt);
  }

  /** `(t + b_half)^2 = dq` holds exactly at the two roots. */
  lemma ShiftedRootsOf(center: Point3, radius: real, ray: Ray, t: real, sqrt: real -> real)
    requires IsSqrt(sqrt)
    ensures (t + BHalf(center, ray)) * (t + BHalf(center, ray)) == DiscriminantQuarter(center, radius, ray) <==>
      && 0.0 <= DiscriminantQuarter(center, radius, ray)
      && (t == -BHalf(center, ray) - sqrt(DiscriminantQuarter(center, radius, ray))
          || t == -BHalf(center, ray) + sqrt(DiscriminantQuarter(center, radius, ray)))
  {
    var b := BHalf(center, ray);
    var dq := DiscriminantQuarter(center, radius, ray);
    ShiftedSquareRoots(t, b, dq, sqrt);
  }

  /** On the sphere means `(t + b_half)^2 = dq`. */
  lemma OnSphereShifted(center: Point3, radius: real, ray: Ray, t: real)
    requires ray.direction.IsUnit()
    ensures OnSphere(center, radius, ray, t) <==>
      (t + BHalf(center, ray)) * (t + BHalf(center, ray)) == DiscriminantQuarter(center, radius, ray)
  {
    SphereEquation(center, radius, ray, t);
  }

  /** `(t + b)^2 = dq` holds exactly at `t = -b -+ sqrt(dq)`, and only for `dq >= 0`. */
  lemma ShiftedSquareRoots(t: real, b: real, dq: real, sqrt: real -> real)
    requires IsSqrt(sqrt)
    ensures (t + b) * (t + b) == dq <==> 0.0 <= dq && (t == -b - sqrt(dq) || t == -b + sqrt(dq))
  {
    SquareFacts(t + b);
    if 0.0 <= dq {
      SquareRoots(t + b, sqrt(dq));
    }
  }

  /** The parameter the sphere test accepts: the near root if it is at least
      `TMin`, otherwise the far root if that is, otherwise none. */
  function SphereRoot(center: Point3, radius: real, ray: Ray, sqrt: real -> real): (r: Option<real>)
    requires IsSqrt(sqrt)
    requires ray.direction.IsUnit()
    ensures r.Some? ==> TMin <= r.value && OnSphere(center, radius, ray, r.value)
    ensures r.Some? ==> forall t :: TMin <= t < r.value ==> !OnSphere(center, radius, ray, t)
    ensures r.None? ==> forall t :: TMin <= t ==> !OnSphere(center, radius, ray, t)
  {
    var dq := DiscriminantQuarter(center, radius, ray);
    SphereRootsAll(center, radius, ray, sqrt);
    if dq < 0.0 then
      None
    else
      var tMinus := -BHalf(center, ray) - sqrt(dq);
      if tMinus >= TMin then
        Some(tMinus)
      else
        var tPlus := -BHalf(center, ray) + sqrt(dq);
        if tPlus >= TMin then Some(tPlus) else None
  }

  lemma SphereRootsAll(center: Point3, radius: real, ray: Ray, sqrt: real -> real)
    requires IsSqrt(sqrt)
    requires ray.direction.IsUnit()
    ensures forall t {:trigger OnSphere(center, radius, ray, t)} :: OnSphere(center, radius, ray, t) <==>
      && 0.0 <= DiscriminantQuarter(center, radius, ray)
      && (t == -BHalf(center, ray) - sqrt(DiscriminantQuarter(center, radius, ray))
          || t == -BHalf(center, ray) + sqrt(DiscriminantQuarter(center, radius, ray)))
  {
    forall t {
      SphereRoots(center, radius, ray, t, sqrt);
    }
  }

  /** `Sphere::hit` reports no hit exactly when the discriminant is negative or
      both roots fall below `TMin`. */
  lemma SphereMissesExactly(center: Point3, radius: real, ray: Ray, sqrt: real -> real)
    requires IsSqrt(sqrt)
    requires ray.direction.IsUnit()
    ensures SphereRoot(center, radius, ray, sqrt).None? <==>
      || DiscriminantQuarter(center, radius, ray) < 0.0
      || (&& -BHalf(center, ray) - sqrt(DiscriminantQuarter(center, radius, ray)) < TMin
          && -BHalf(center, ray) + sqrt(DiscriminantQuarter(center, radius, ray)) < TMin)
  {
  }

  /** `Sphere::hit`: the accepted root with the outward unit normal there,
      which is the radius vector to the hit point divided by the radius. */
  function SphereHit(center: Point3, radius: real, material: Material, ray: Ray, sqrt: real -> real): (h: Option<HitResult>)
    requires IsSqrt(sqrt)
    requires ray.direction.IsUnit()
    requires 0.0 < radius
    ensures h.Some? <==> SphereRoot(center, radius, ray, sqrt).Some?
    ensures h.Some? ==>
      && h.value.hit.t == SphereRoot(center, radius, ray, sqrt).value
      && h.value.material == material
      && h.value.hit.surfaceNormal.IsUnit()
      && h.value.hit.surfaceNormal.Inject() == ray.At(h.value.hit.t).Subtract(center).Scale(1.0 / radius)
  {
    match SphereRoot(center, radius, ray, sqrt)
    case None => None
    case Some(t) =>
      var radial := ray.At(t).Subtract(center);
      RadialLength(radial, radius, sqrt);
      Some(HitResult(HitRecord(t, Normalize(radial, sqrt)), material))
  }

  /** A radius vector of a sphere normalises to itself divided by the radius. */
  lemma RadialLength(radial: Vec3, radius: real, sqrt: real -> real)
    requires IsSqrt(sqrt)
    requires 0.0 < radius
    requires radial.LengthSquared() == radius * radius
    ensures radial != Zero
    ensures Normalize(radial, sqrt).Inject() == radial.Scale(1.0 / radius)
  {
    SquareFacts(radius);
    SqrtOf(sqrt, radius * radius, radius);
    assert radial.Length(sqrt) == radius;
  }

  // ---------------------------------------------------------------------------
  // Lists

  /** One step of `HittableList::hit`'s loop: a member's hit replaces the
      nearest so far only when there is none yet or it is strictly closer. */
  function Closer(nearest: Option<HitResult>, candidate: Option<HitResult>): Option<HitResult> {
    match candidate
    case None => nearest
    case Some(pair) =>
      if nearest.None? || pair.hit.t < nearest.value.hit.t then candidate else nearest
  }

  /** The loop of `HittableList::hit` over the members' results, in order. */
  function Nearest(results: seq<Option<HitResult>>): Option<HitResult>
    decreases |results|
  {
    if |results| == 0 then None
    else Closer(Nearest(results[..|results| - 1]), results[|results| - 1])
  }

  /** Member `k` reported a hit, no member reported a closer one, and every
      earlier member that hit is strictly farther. */
  ghost predicate FirstNearest(results: seq<Option<HitResult>>, k: int) {
    && 0 <= k < |results|
    && results[k].Some?
    && (forall j :: 0 <= j < |results| && results[j].Some? ==> results[k].value.hit.t <= results[j].value.hit.t)
    && (forall j :: 0 <= j < k && results[j].Some? ==> results[k].value.hit.t < results[j].value.hit.t)
  }

  /** The list reports no hit exactly when no member does; otherwise it reports
      the hit of the first member among those at minimal distance. */
  lemma {:induction false} NearestIsFirstMinimum(results: seq<Option<HitResult>>)
    ensures Nearest(results).None? <==> forall j :: 0 <= j < |results| ==> results[j].None?
    ensures Nearest(results).Some? ==>
      exists k :: FirstNearest(results, k) && results[k] == Nearest(results)
    decreases |results|
  {
    if |results| != 0 {
      var n := |results| - 1;
      var prefix := results[..n];
      NearestIsFirstMinimum(prefix);
      assert results == prefix + [results[n]];
      NearestStep(prefix, results[n]);
    }
  }

  /** One more member: the loop invariant carries over from the prefix. */
  lemma NearestStep(prefix: seq<Option<HitResult>>, x: Option<HitResult>)
    requires Nearest(prefix).None? <==> forall j :: 0 <= j < |prefix| ==> prefix[j].None?
    requires Nearest(prefix).Some? ==>
      exists k :: FirstNearest(prefix, k) && prefix[k] == Nearest(prefix)
    ensures Nearest(prefix + [x]).None? <==> forall j :: 0 <= j < |prefix + [x]| ==> (prefix + [x])[j].None?
    ensures Nearest(prefix + [x]).Some? ==>
      exists k :: FirstNearest(prefix + [x], k) && (prefix + [x])[k] == Nearest(prefix + [x])
  {
    var s := prefix + [x];
    assert s[..|prefix|] == prefix;
    var acc := Nearest(prefix);
    assert Nearest(s) == Closer(acc, x);
    if acc.Some? {
      var k :| FirstNearest(prefix, k) && prefix[k] == acc;
      if x.Some? && x.value.hit.t < acc.value.hit.t {
        NewNearest(prefix, x, k);
      } else {
        KeepNearest(prefix, x, k);
      }
    } else if x.Some? {
      FirstHit(prefix, x);
    }
  }

  /** A member strictly closer than the nearest so far becomes the nearest. */
  lemma NewNearest(prefix: seq<Option<HitResult>>, x: Option<HitResult>, k: int)
    requires FirstNearest(prefix, k)
    requires x.Some? && x.value.hit.t < prefix[k].value.hit.t
    ensures FirstNearest(prefix + [x], |prefix|)
  {
  }

  /** A member that misses, or is not strictly closer, leaves the nearest as it is. */
  lemma KeepNearest(prefix: seq<Option<HitResult>>, x: Option<HitResult>, k: int)
    requires FirstNearest(prefix, k)
    requires x.Some? ==> prefix[k].value.hit.t <= x.value.hit.t
    ensures FirstNearest(prefix + [x], k)
  {
  }

  /** The first member that hits, after members that all missed, is the nearest. */
  lemma FirstHit(prefix: seq<Option<HitResult>>, x: Option<HitResult>)
    requires forall j :: 0 <= j < |prefix| ==> prefix[j].None?
    requires x.Some?
    ensures FirstNearest(prefix + [x], |prefix|)
  {
  }

  /** `Hittable::hit` for any object: every reported hit lies at or beyond
      `TMin` and carries a unit normal. */
  function Hit(h: Hittable, ray: Ray, sqrt: real -> real): (r: Option<HitResult>)
    requires IsSqrt(sqrt)
    requires ray.direction.IsUnit()
    requires h.WellFormed()
    ensures r.Some? ==> TMin <= r.value.hit.t && r.value.hit.surfaceNormal.IsUnit()
    decreases h, 1
  {
    match h
    case Sphere(center, radius, material) => SphereHit(center, radius, material, ray, sqrt)
    case HittableList(members) =>
      var results := MemberHits(members, ray, sqrt);
      NearestIsFirstMinimum(results);
      Nearest(results)
  }

  /** The members' own results, in list order. */
  function MemberHits(members: seq<Hittable>, ray: Ray, sqrt: real -> real): (r: seq<Option<HitResult>>)
    requires IsSqrt(sqrt)
    requires ray.direction.IsUnit()
    requires HittableList(members).WellFormed()
    ensures |r| == |members|
    ensures forall i :: 0 <= i < |members| ==> r[i] == Hit(members[i], ray, sqrt)
    decreases HittableList(members), 0
  {
    PrefixHits(members, |members|, ray, sqrt)
  }

  /** The results of the first `n` members. */
  function PrefixHits(members: seq<Hittable>, n: nat, ray: Ray, sqrt: real -> real): (r: seq<Option<HitResult>>)
    requires IsSqrt(sqrt)
    requires ray.direction.IsUnit()
    requires HittableList(members).WellFormed()
    requires n <= |members|
    ensures |r| == n
    ensures forall i :: 0 <= i < n ==> r[i] == Hit(members[i], ray, sqrt)
    decreases HittableList(members), 0, n
  {
    if n == 0 then [] else PrefixHits(members, n - 1, ray, sqrt) + [Hit(members[n - 1], ray, sqrt)]
  }

  /** `HittableList::hit` in terms of its members: it misses exactly when every
      member misses, and otherwise reports the hit of some member `k` whose
      distance is minimal, with every earlier member that hit strictly
      farther away. */
  lemma ListHitIsFirstMinimum(members: seq<Hittable>, ray: Ray, sqrt: real -> real)
    requires IsSqrt(sqrt)
    requires ray.direction.IsUnit()
    requires HittableList(members).WellFormed()
    ensures Hit(HittableList(members), ray, sqrt).None? <==>
      forall i :: 0 <= i < |members| ==> Hit(members[i], ray, sqrt).None?
    ensures Hit(HittableList(members), ray, sqrt).Some? ==>
      exists k :: 0 <= k < |members| && Hit(members[k], ray, sqrt) == Hit(HittableList(members), ray, sqrt)
        && (forall j :: 0 <= j < |members| && Hit(members[j], ray, sqrt).Some? ==>
              Hit(members[k], ray, sqrt).value.hit.t <= Hit(members[j], ray, sqrt).value.hit.t)
        && (forall j :: 0 <= j < k && Hit(members[j], ray, sqrt).Some? ==>
              Hit(members[k], ray, sqrt).value.hit.t < Hit(members[j], ray, sqrt).value.hit.t)
  {
    ListMissesExactly(members, ray, sqrt);
    ListHitsFirstNearest(members, ray, sqrt);
  }

  /** The list misses exactly when every member misses. */
  lemma ListMissesExactly(members: seq<Hittable>, ray: Ray, sqrt: real -> real)
    requires IsSqrt(sqrt)
    requires ray.direction.IsUnit()
    requires HittableList(members).WellFormed()
    ensures Hit(HittableList(members), ray, sqrt).None? <==>
      forall i :: 0 <= i < |members| ==> Hit(members[i], ray, sqrt).None?
  {
    var results := MemberHits(members, ray, sqrt);
    assert Hit(HittableList(members), ray, sqrt) == Nearest(results);
    NearestIsFirstMinimum(results);
  }

  /** A list hit is the hit of the first member at minimal distance. */
  lemma ListHitsFirstNearest(members: seq<Hittable>, ray: Ray, sqrt: real -> real)
    requires IsSqrt(sqrt)
    requires ray.direction.IsUnit()
    requires HittableList(members).WellFormed()
    ensures Hit(HittableList(members), ray, sqrt).Some? ==>
      exists k :: 0 <= k < |members| && Hit(members[k], ray, sqrt) == Hit(HittableList(members), ray, sqrt)
        && (forall j :: 0 <= j < |members| && Hit(members[j], ray, sqrt).Some? ==>
              Hit(members[k], ray, sqrt).value.hit.t <= Hit(members[j], ray, sqrt).value.hit.t)
        && (forall j :: 0 <= j < k && Hit(members[j], ray, sqrt).Some? ==>
              Hit(members[k], ray, sqrt).value.hit.t < Hit(members[j], ray, sqrt).value.hit.t)
  {
    var results := MemberHits(members, ray, sqrt);
    var nearest := Hit(HittableList(members), ray, sqrt);
    assert nearest == Nearest(results);
    NearestIsFirstMinimum(results);
    if nearest.Some? {
      var k :| FirstNearest(results, k) && results[k] == nearest;
      assert Hit(members[k], ray, sqrt) == nearest;
    }
  }

}
