/** The integrator of main.rs: the sky gradient a ray sees when it escapes,
    and the recursive diffuse bounce that gathers a colour for a camera ray.
    The random vectors are handed in as raw samples, one per remaining
    depth. Where `ray_color` divides by a zero length its colour becomes
    NaN; the model returns `None` there. */
module Render {

  import opened Reals
  import opened Geometry
  import opened Colors
  import opened Options
  import opened Materials
  import opened Hittables

  const White := Color(1.0, 1.0, 1.0)
  const Sky := Color(0.5, 0.7, 1.0)

  // ---------------------------------------------------------------------------
  // Background

  /** `ray_background_color`: white straight down, sky blue straight up,
      and their blend in between. */
  function BackgroundColor(ray: Ray): (c: Color)
    ensures ray.direction.y == -1.0 ==> c == White
    ensures ray.direction.y == 1.0 ==> c == Sky
    ensures ray.direction.IsUnit() ==> c.InUnitRange()
  {
    var t := 0.5 * (ray.direction.y + 1.0);
    UnitComponentBound(ray.direction);
    White.Blend(t, Sky)
  }

  /** The higher a ray points, the less red and green it sees, while the blue
      channel is always full. */
  lemma BackgroundGradient(ray1: Ray, ray2: Ray)
    requires ray1.direction.y <= ray2.direction.y
    ensures BackgroundColor(ray2).r <= BackgroundColor(ray1).r
    ensures BackgroundColor(ray2).g <= BackgroundColor(ray1).g
    ensures BackgroundColor(ray1).b == 1.0 && BackgroundColor(ray2).b == 1.0
  {
    var t1 := 0.5 * (ray1.direction.y + 1.0);
    var t2 := 0.5 * (ray2.direction.y + 1.0);
    assert BackgroundColor(ray1).r == 1.0 - 0.5 * t1;
    assert BackgroundColor(ray2).r == 1.0 - 0.5 * t2;
    assert BackgroundColor(ray1).g == 1.0 - 0.3 * t1;
    assert BackgroundColor(ray2).g == 1.0 - 0.3 * t2;
  }

  // ---------------------------------------------------------------------------
  // Bounces

  /** `random_unit_vector` applied to a raw sample, and the bounce direction
      built from it: the normal plus that unit vector, renormalised. `None`
      when either length is zero, where the Rust vector has NaN
      components. */
  function BounceDirection(normal: UnitVec3, sample: Vec3, sqrt: real -> real): (u: Option<UnitVec3>)
    requires IsSqrt(sqrt)
    ensures u.Some? <==>
      sample != Zero && normal.Inject().Add(Normalize(sample, sqrt).Inject()) != Zero
    ensures u.Some? ==> u.value.IsUnit()
    ensures u.Some? && normal.IsUnit() ==> 0.0 <= u.value.Inject().Dot(normal.Inject())
  {
    if sample == Zero then None
    else
      var randomUnit := Normalize(sample, sqrt);
      if normal.Inject().Add(randomUnit.Inject()) == Zero then None
      else
        DiffuseStaysOutside(normal, randomUnit, sqrt);
        Some(DiffuseDirection(normal, randomUnit, sqrt))
  }

  /** For unit vectors, `|n + u|^2 = 2 + 2 n.u`, so `n.u >= -1`. */
  lemma UnitDotBound(n: UnitVec3, u: UnitVec3)
    requires n.IsUnit() && u.IsUnit()
    ensures -1.0 <= n.Inject().Dot(u.Inject())
  {
    var a := n.Inject();
    var b := u.Inject();
    LengthSquaredOfSub(a, b, -1.0);
    assert a.Sub(b.Scale(-1.0)).LengthSquared() == 2.0 + 2.0 * a.Dot(b);
  }

  /** A diffuse bounce never heads into the surface: its direction makes a
      non-negative dot product with the unit normal. */
  lemma DiffuseStaysOutside(normal: UnitVec3, randomUnit: UnitVec3, sqrt: real -> real)
    requires IsSqrt(sqrt)
    requires randomUnit.IsUnit()
    requires normal.Inject().Add(randomUnit.Inject()) != Zero
    ensures normal.IsUnit() ==> 0.0 <= DiffuseDirection(normal, randomUnit, sqrt).Inject().Dot(normal.Inject())
  {
    if !normal.IsUnit() { return; }
    var n := normal.Inject();
    var w := n.Add(randomUnit.Inject());
    var u := DiffuseDirection(normal, randomUnit, sqrt);
    var k :| 0.0 < k && u.Inject().Scale(k) == w;
    UnitDotBound(randomUnit, normal);
    SumDot(n, randomUnit.Inject(), n);
    assert n.Dot(n) == 1.0;
    var v := u.Inject();
    ScaledDot(v, n, k);
    PositiveFactor(k, v.Dot(n));
  }

  /** Half of a colour, for each bounce; NaN stays NaN. */
  function Halve(c: Option<Color>): (h: Option<Color>)
    ensures h.Some? <==> c.Some?
  {
    match c
    case None => None
    case Some(col) => Some(col.Scale(0.5))
  }

  /** `ray_color`: black once the depth is used up; the background where the
      ray escapes; otherwise half of what the bounced ray sees. `samples(d)`
      is the raw random vector drawn at remaining depth `d`. When the bounce
      direction is NaN the child ray still returns black if its depth is used
      up, and otherwise misses every sphere and sees a NaN background. */
  function RayColor(world: Hittable, ray: Ray, depth: int, samples: int -> Vec3, sqrt: real -> real): (c: Option<Color>)
    requires IsSqrt(sqrt)
    requires world.WellFormed()
    requires ray.direction.IsUnit()
    ensures depth <= 0 ==> c == Some(Black)
    ensures 0 < depth && Hit(world, ray, sqrt).None? ==> c == Some(BackgroundColor(ray))
    ensures c.Some? ==> c.value.InUnitRange()
    ensures 0 < depth && Hit(world, ray, sqrt).Some? && c.Some? ==>
      c.value.r <= 0.5 && c.value.g <= 0.5 && c.value.b <= 0.5
    decreases depth
  {
    if depth <= 0 then Some(Black)
    else
      match Hit(world, ray, sqrt)
      case None => Some(BackgroundColor(ray))
      case Some(result) =>
        var child :=
          match BounceDirection(result.hit.surfaceNormal, samples(depth), sqrt)
          case None => if depth - 1 <= 0 then Some(Black) else None
          case Some(direction) => RayColor(world, Ray(ray.At(result.hit.t), direction), depth - 1, samples, sqrt);
        HalfInRange(child);
        Halve(child)
  }

  /** Halving keeps a colour in range and brings every channel to at most 1/2. */
  lemma HalfInRange(c: Option<Color>)
    requires c.Some? ==> c.value.InUnitRange()
    ensures Halve(c).Some? ==> Halve(c).value.InUnitRange()
    ensures Halve(c).Some? ==>
      Halve(c).value.r <= 0.5 && Halve(c).value.g <= 0.5 && Halve(c).value.b <= 0.5
  {
  }

  // ---------------------------------------------------------------------------
  // The bounce loop unrolled

  /** A colour scaled by `f`; NaN stays NaN. */
  function Scaled(c: Option<Color>, f: real): (s: Option<Color>)
    ensures s.Some? <==> c.Some?
  {
    match c
    case None => None
    case Some(col) => Some(col.Scale(f))
  }

  /** Scaling by `f` after halving is scaling by `f / 2`. */
  lemma ScaledHalve(c: Option<Color>, f: real, g: real)
    requires g == 0.5 * f
    ensures Scaled(Halve(c), f) == Scaled(c, g)
  {
    match c
    case None =>
    case Some(col) =>
      assert Halve(c) == Some(col.Scale(0.5));
      assert (col.r * 0.5) * f == col.r * (0.5 * f);
      assert (col.g * 0.5) * f == col.g * (0.5 * f);
      assert (col.b * 0.5) * f == col.b * (0.5 * f);
      assert col.Scale(0.5).Scale(f) == col.Scale(g);
      assert Scaled(Halve(c), f) == Some(col.Scale(0.5).Scale(f));
  }

  /** One unfolding of `RayColor` at a bounce. */
  lemma RayColorBounce(world: Hittable, r: Ray, d: int, samples: int -> Vec3, sqrt: real -> real,
                       result: HitResult, bounce: Option<UnitVec3>)
    requires IsSqrt(sqrt)
    requires world.WellFormed()
    requires r.direction.IsUnit()
    requires 0 < d
    requires Hit(world, r, sqrt) == Some(result)
    requires bounce == BounceDirection(result.hit.surfaceNormal, samples(d), sqrt)
    ensures bounce.None? ==>
      RayColor(world, r, d, samples, sqrt) == Halve(if d - 1 <= 0 then Some(Black) else None)
    ensures bounce.Some? ==>
      RayColor(world, r, d, samples, sqrt)
        == Halve(RayColor(world, Ray(r.At(result.hit.t), bounce.value), d - 1, samples, sqrt))
  {
  }

  /** `ray_color` with its tail recursion turned into a loop: follow the
      bounces, halving a running factor at each, until the ray escapes, the
      depth runs out, or the bounce direction is NaN. It computes the same
      colour as the recursive definition. */
  method TraceRay(world: Hittable, ray: Ray, depth: int, samples: int -> Vec3, sqrt: real -> real)
    returns (c: Option<Color>)
    requires IsSqrt(sqrt)
    requires world.WellFormed()
    requires ray.direction.IsUnit()
    ensures c == RayColor(world, ray, depth, samples, sqrt)
  {
    ghost var goal := RayColor(world, ray, depth, samples, sqrt);
    var r := ray;
    var d := depth;
    var factor := 1.0;
    ScaledByOne(goal);
    while 0 < d && Hit(world, r, sqrt).Some?
      invariant TraceInvariant(world, goal, r, d, factor, samples, sqrt)
      decreases d
    {
      var stopped, last, next, nextFactor := TraceStep(world, goal, r, d, factor, samples, sqrt);
      if stopped {
        return last;
      }
      r, d, factor := next, d - 1, nextFactor;
    }
    c := FinishTrace(world, goal, r, d, factor, samples, sqrt);
  }

  /** Scaling by one changes nothing. */
  lemma ScaledByOne(c: Option<Color>)
    ensures Scaled(c, 1.0) == c
  {
  }

  /** The colour where the loop stops: black once the depth is used up,
      otherwise the background, scaled by the running factor. */
  method FinishTrace(world: Hittable, ghost goal: Option<Color>, r: Ray, d: int, factor: real,
                     samples: int -> Vec3, sqrt: real -> real)
    returns (c: Option<Color>)
    requires IsSqrt(sqrt)
    requires world.WellFormed()
    requires TraceInvariant(world, goal, r, d, factor, samples, sqrt)
    requires !(0 < d && Hit(world, r, sqrt).Some?)
    ensures c == goal
  {
    LoopExit(world, goal, r, d, factor, samples, sqrt);
    c := Some((if d <= 0 then Black else BackgroundColor(r)).Scale(factor));
  }

  /** One pass of the bounce loop: a NaN bounce direction ends the trace with
      the camera ray's colour; otherwise the invariant moves to the child ray. */
  method TraceStep(world: Hittable, ghost goal: Option<Color>, r: Ray, d: int, factor: real,
                   samples: int -> Vec3, sqrt: real -> real)
    returns (stopped: bool, c: Option<Color>, next: Ray, nextFactor: real)
    requires IsSqrt(sqrt)
    requires world.WellFormed()
    requires TraceInvariant(world, goal, r, d, factor, samples, sqrt)
    requires 0 < d && Hit(world, r, sqrt).Some?
    ensures stopped ==> c == goal
    ensures nextFactor == 0.5 * factor
    ensures !stopped ==> TraceInvariant(world, goal, next, d - 1, nextFactor, samples, sqrt)
  {
    nextFactor := 0.5 * factor;
    var result := Hit(world, r, sqrt).value;
    var bounce := BounceDirection(result.hit.surfaceNormal, samples(d), sqrt);
    if bounce.None? {
      NaNBounce(world, goal, r, d, factor, samples, sqrt, result);
      stopped, next := true, r;
      c := if d - 1 <= 0 then Some(Black.Scale(0.5 * factor)) else None;
    } else {
      BounceStep(world, goal, r, d, factor, samples, sqrt, result, bounce.value, nextFactor);
      stopped, c, next := false, None, Ray(r.At(result.hit.t), bounce.value);
    }
  }

  /** The loop's invariant: the colour the trace must produce is the colour of
      the current ray scaled by the running factor. */
  ghost predicate TraceInvariant(world: Hittable, goal: Option<Color>, r: Ray, d: int, factor: real,
                                 samples: int -> Vec3, sqrt: real -> real)
    requires IsSqrt(sqrt)
    requires world.WellFormed()
  {
    && r.direction.IsUnit()
    && goal == Scaled(RayColor(world, r, d, samples, sqrt), factor)
  }

  /** A bounce with a defined direction moves the invariant to the child ray. */
  lemma BounceStep(world: Hittable, goal: Option<Color>, r: Ray, d: int, factor: real,
                   samples: int -> Vec3, sqrt: real -> real, result: HitResult, direction: UnitVec3,
                   childFactor: real)
    requires IsSqrt(sqrt)
    requires world.WellFormed()
    requires TraceInvariant(world, goal, r, d, factor, samples, sqrt)
    requires 0 < d && Hit(world, r, sqrt) == Some(result)
    requires BounceDirection(result.hit.surfaceNormal, samples(d), sqrt) == Some(direction)
    requires childFactor == 0.5 * factor
    ensures TraceInvariant(world, goal, Ray(r.At(result.hit.t), direction), d - 1, childFactor, samples, sqrt)
  {
    var child := Ray(r.At(result.hit.t), direction);
    RayColorBounce(world, r, d, samples, sqrt, result, Some(direction));
    ScaledHalve(RayColor(world, child, d - 1, samples, sqrt), factor, childFactor);
  }

  /** A NaN bounce direction ends the trace: black if the child's depth is
      used up, NaN otherwise. */
  lemma NaNBounce(world: Hittable, goal: Option<Color>, r: Ray, d: int, factor: real,
                  samples: int -> Vec3, sqrt: real -> real, result: HitResult)
    requires IsSqrt(sqrt)
    requires world.WellFormed()
    requires TraceInvariant(world, goal, r, d, factor, samples, sqrt)
    requires 0 < d && Hit(world, r, sqrt) == Some(result)
    requires BounceDirection(result.hit.surfaceNormal, samples(d), sqrt).None?
    ensures goal == if d - 1 <= 0 then Some(Black.Scale(0.5 * factor)) else None
  {
    var bounce := BounceDirection(result.hit.surfaceNormal, samples(d), sqrt);
    RayColorBounce(world, r, d, samples, sqrt, result, bounce);
    ScaledHalve(if d - 1 <= 0 then Some(Black) else None, factor, 0.5 * factor);
  }

  /** Where the loop stops, the current ray is black or sees the background. */
  lemma LoopExit(world: Hittable, goal: Option<Color>, r: Ray, d: int, factor: real,
                 samples: int -> Vec3, sqrt: real -> real)
    requires IsSqrt(sqrt)
    requires world.WellFormed()
    requires TraceInvariant(world, goal, r, d, factor, samples, sqrt)
    requires !(0 < d && Hit(world, r, sqrt).Some?)
    ensures goal == Some((if d <= 0 then Black else BackgroundColor(r)).Scale(factor))
  {
  }
}
