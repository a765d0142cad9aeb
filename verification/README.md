# A verified model of a small Rust ray tracer

This project models the core of a small ray tracer in Dafny. That core covers:

- the vector algebra of `geometry.rs`;
- the hit test and the scattering of `hittable_object.rs`;
- colour blending from `color.rs`;
- the diffuse integrator `ray_color` from `main.rs`.

Every `f64` becomes a `real`, so the geometric identities hold exactly and the proofs speak about the ideal values.

The model does not assume that a square root exists. Every operation that takes a square root receives a function `sqrt: real -> real` as a parameter. It requires `IsSqrt(sqrt)` of that function: for `x >= 0`, `sqrt(x) >= 0` and `sqrt(x) * sqrt(x) == x`.

Randomness is handed in as parameters:

- the random unit vector and the random number each scatter draws;
- the raw random vectors of the integrator, one per remaining depth.

The `Material` and `Hittable` trait objects become closed datatypes, `Material` and `Hittable`.

Modules:

- `Reals`: the square-root hypothesis and small facts about real products.
- `Geometry`: `Vec3`, `UnitVec3`, `Point3`, `Ray`, normalisation and mirror reflection.
- `Colors`: `Color`, the channel interpolation behind `Color::blend`, and `Attenuation`.
- `Materials`: `HitRecord`, Lambertian, metal and glass scattering, and Schlick's reflectance.
- `Hittables`: the sphere test and the nearest-hit search of `HittableList`.
- `SphereCases`: closed forms of the sphere test, and the three sphere tests of `hittable_object.rs` with their ideal values.
- `GlassCases`: `Glass::scatter` from its intermediate values, and the two refracting glass tests of `hittable_object.rs` with their ideal values.
- `Render`: `ray_background_color` and `ray_color`, plus an iterative version of `ray_color` proved equal to the recursive one.
- `Options`: the `Option` datatype.

Some names the code imports do not exist in `geometry.rs` or `color.rs`. `geometry.rs` defines neither `inner_product`, `Vec3::subtract`, `reflect_vector` nor the random generators, and `color.rs` defines neither `Attenuation` nor `Color::scale`. The model defines them directly:

- the dot product;
- component-wise subtraction;
- reflection `d - 2 (d.n) n`;
- `Attenuation` as a `Color`;
- `Scale` channel by channel.

It assumes nothing else about them.

`main.rs` is older than the code it calls. It reads `hit.surface_normal` from what is now a `(HitRecord, material)` pair, and it builds spheres without a material. The model runs `ray_color` against the real `Hittable` model and uses the `HitRecord` half of the pair.

## Model

| member | source | states |
|---|---|---|
| Geometry.Vec3.Add | src/geometry.rs:9-15 | subtracting the added vector again returns the first vector |
| Geometry.Vec3.Scale | src/geometry.rs:17-23 | scaling by 1 returns the vector unchanged |
| Geometry.Vec3.Divide | src/geometry.rs:25-31 | for `d != 0`, dividing by `d` is scaling by `1/d`, and scaling the result back by `d` recovers the vector |
| Geometry.Vec3.LengthSquared | src/geometry.rs:33-35 | the squared length is never negative and is the vector's dot product with itself |
| Geometry.ZeroLengthSquared | src/geometry.rs:33-35 | the squared length is 0 exactly for the zero vector |
| Geometry.Vec3.Length | src/geometry.rs:37-39 | the length is non-negative and squares to the squared length |
| Geometry.ZeroLength | src/geometry.rs:37-39 | the length is 0 exactly for the zero vector |
| Geometry.Normalize | src/geometry.rs:54-61 | `UnitVec3::new` of a non-zero vector has length 1, and scaling it by the input's (positive) length gives the input back |
| Geometry.UnitDivision | src/geometry.rs:54-61 | dividing a vector by its length leaves squared length 1 |
| Geometry.NormalizeIdentity | src/geometry.rs:54-69 | a vector that already has length 1 is non-zero, and `unit_vector()` returns its own components |
| Geometry.NormalizeUnit | src/geometry.rs:54-69 | normalising a vector that already has length 1 returns the same unit vector |
| Geometry.UnitComponentBound | src/geometry.rs:46 | every component of a unit vector lies in [-1, 1] |
| Geometry.Point3.Subtract | src/geometry.rs:87-93 | adding `p.subtract(q)` to `q` lands on `p` |
| Geometry.PointAddSubtract | src/geometry.rs:79-93 | moving a point by `v` and subtracting the start point recovers `v` |
| Geometry.Ray.At | src/geometry.rs:103-105 | the point at `t` lies `t` times the direction away from the origin, and `at(0)` is the origin |
| Geometry.Reflect | src/hittable_object.rs:46 | reflecting a unit vector about a unit normal gives a unit vector, and its dot product with the normal changes sign |
| Geometry.ReflectInvolution | src/hittable_object.rs:46 | reflecting twice about the same unit normal returns the incoming direction |
| Geometry.MirrorInvolution | src/hittable_object.rs:46 | for any direction and any normal of length 1, applying `d - 2 (d.n) n` twice returns `d` |
| Geometry.ReflectPreservesLength | src/hittable_object.rs:46 | reflection about a unit normal keeps the squared length of any direction |
| Colors.Color.Blend | src/color.rs:16-22 | `blend(0, o)` is the colour itself, `blend(1, o)` is `o`, and blending a colour with itself gives it back; for `t` in [0, 1] it keeps colours inside [0, 1] |
| Colors.Lerp | src/color.rs:18-20 | one channel equals the first endpoint at `t = 0` and the second at `t = 1`, and lies between them for `t` in [0, 1] |
| Colors.BlendChannelwise | src/color.rs:17-21 | each output channel depends only on the same channel of the two inputs |
| Materials.DiffuseDirection | src/hittable_object.rs:26-33 | the Lambertian direction is a unit vector and a positive multiple of normal plus random unit vector |
| Materials.MetalDirection | src/hittable_object.rs:45-50 | the metal direction is a unit vector and a positive multiple of the mirror reflection plus `fuzz` times the random unit vector |
| Materials.MirrorMetal | src/hittable_object.rs:45-50 | with `fuzz = 0` the sum cannot vanish and the metal direction is the exact mirror reflection, whatever the random vector |
| Materials.Pow5Bound | src/hittable_object.rs:69 | the fifth power maps [0, 1] into [0, 1] |
| Materials.Reflectance | src/hittable_object.rs:66-70 | `reflectance(0, x) = 1`, `reflectance(1, x) = ((1-x)/(1+x))^2`, and `reflectance(c, 1) = (1-c)^5` |
| Materials.ReflectanceIsProbability | src/hittable_object.rs:66-70 | for a cosine in [0, 1] and a positive index ratio, the reflectance lies in [0, 1] |
| Materials.Orient | src/hittable_object.rs:81-94 | after orientation `normal . d = inprod <= 0`; an entering ray keeps the normal and has indices (1, eta), and a leaving ray gets the flipped normal and indices (eta, 1) |
| Materials.RefractedIsUnit | src/hittable_object.rs:96-115 | the scaled tangential part is orthogonal to the oriented normal, so `v' - sqrt(c) n` has squared length 1 |
| Materials.Refracted | src/hittable_object.rs:112-116 | the refracted direction is `v' - sqrt(c) n` itself, a unit vector on the far side of the oriented normal |
| Materials.NegatedUnit | src/hittable_object.rs:92 | flipping the normal keeps its squared length and keeps it non-zero |
| Materials.ReflectAboutOriented | src/hittable_object.rs:86-119 | reflecting about the normalised oriented normal equals reflecting about the surface normal |
| Materials.GlassDirection | src/hittable_object.rs:105-121 | the glass direction is a unit vector: the mirror reflection about the surface normal under total internal reflection or when the draw is below the reflectance, and the refraction otherwise |
| Materials.TotalInternalReflection | src/hittable_object.rs:117-120 | when `coeff_normal < 0` the output is the mirror reflection for every random draw |
| Materials.EnteringNeverReflectsTotally | src/hittable_object.rs:73-106 | a unit ray entering glass with `eta >= 1` always has `coeff_normal >= 0`, so the total-internal-reflection branch is never reached |
| Materials.IndexMatchedRefraction | src/hittable_object.rs:96-115 | with equal indices `c = inprod^2`, and `v' - sqrt(c) n` rebuilds the input direction exactly |
| Materials.IndexMatchedGlassKeepsDirection | src/hittable_object.rs:374-416 | glass with `eta = 1` that refracts leaves the unit direction unchanged (the ideal value of `glass_scatter_test1`) |
| Materials.Scatter | src/hittable_object.rs:26-127 | all three materials return their albedo unchanged, start the child ray at `ray_in.at(hit.t)`, and give it a unit direction |
| Hittables.SphereEquation | src/hittable_object.rs:153-165 | along a unit direction, `\|O + t d - C\|^2 - r^2 = (t + b_half)^2 - dq` |
| Hittables.SphereRoots | src/hittable_object.rs:159-181 | the ray meets the sphere at `t` exactly when `dq >= 0` and `t` is `-b_half - sqrt(dq)` or `-b_half + sqrt(dq)` |
| Hittables.SphereRoot | src/hittable_object.rs:166-186 | an accepted root is at least `t_min = 0.01` and lies on the sphere, no point of the sphere lies at an earlier `t >= t_min`, and when none is accepted no point at or beyond `t_min` lies on the sphere |
| Hittables.SphereMissesExactly | src/hittable_object.rs:166-186 | `Sphere::hit` misses exactly when `dq < 0` or both roots `-b_half -+ sqrt(dq)` are below `t_min` |
| Hittables.SphereHit | src/hittable_object.rs:146-195 | the hit is reported exactly when a root is accepted; then `t` is that root, the material is the sphere's, and the normal is a unit vector equal to `(at(t) - C) / radius` |
| Hittables.RadialLength | src/hittable_object.rs:188-192 | a radius vector is non-zero and normalises to itself divided by the radius |
| Hittables.NearestIsFirstMinimum | src/hittable_object.rs:201-218 | for any sequence of member results, the loop ends with nothing exactly when every result is empty; otherwise it ends with some result `k` whose `t` is at most every other result's and strictly below every earlier result's |
| Hittables.MemberHits | src/hittable_object.rs:205-214 | the loop visits the members in order: one result per member, the `i`-th being that member's own hit |
| Hittables.ListHitIsFirstMinimum | src/hittable_object.rs:201-218 | a list misses exactly when every member misses; otherwise it reports the hit of a member whose `t` is at most every member's `t`, and every earlier member that hit is strictly farther, so ties go to the first member |
| Hittables.Hit | src/hittable_object.rs:130-218 | every hit a sphere or a (nested) list reports lies at or beyond `t_min` and carries a unit normal |
| SphereCases.SphereRootFromCoefficients | src/hittable_object.rs:156-186 | from the coefficients and the root of the discriminant, the accepted root is the near root if it passes `t_min`, otherwise the far root if that passes |
| SphereCases.SphereHitFrom | src/hittable_object.rs:156-195 | from the coefficients, the accepted root and the normalised radius, `Sphere::hit` returns exactly that hit record |
| SphereCases.SphereHitHeadOn | src/hittable_object.rs:166-192 | a ray aimed at the centre from distance `dist` outside hits at `dist - radius`, with the normal pointing straight back along the ray |
| SphereCases.SphereHitHeadOnRay | src/hittable_object.rs:166-192 | the same head-on case, for a ray given by name |
| SphereCases.SphereHitHeadOnFromInside | src/hittable_object.rs:166-192 | from inside, the root behind the origin is skipped and the hit is at `dist + radius`, where the normal is the ray's own direction |
| SphereCases.SphereHitFromCenter | src/hittable_object.rs:172-192 | a ray from the centre hits at `t = radius`, with the ray's own direction as normal |
| SphereCases.SphereHitFromOutside | src/hittable_object.rs:237-277 | from the origin along the normalised `(0, 0, -1)`, the unit sphere at `(0, 0, -3)` is hit at `t = 2` with normal `(0, 0, 1)` |
| SphereCases.SphereHitOblique | src/hittable_object.rs:280-320 | the ray along the normalised `(-0.6, 0, -0.8)` hits the radius-5 sphere at `(0, 0, -8)` at the ideal `t = 5`, with normal `(-0.6, 0, 0.8)` |
| SphereCases.SphereHitFromInside | src/hittable_object.rs:322-363 | from the centre of the radius-5 sphere along the normalised `(0, 0, -1)`, the hit is at `t = 5` with normal `(0, 0, -1)` |
| GlassCases.GlassScatterFrom | src/hittable_object.rs:80-127 | given the oriented normal, the tangential part `t` and a root `q` of `coeff_normal`, glass scatters to `t - q n` when the draw is at least the reflectance and to the mirror reflection when it is below, from `ray_in.at(hit.t)` with the albedo unchanged |
| GlassCases.HalfLength | src/hittable_object.rs:430-435 | `(a, b, 0)` with `a^2 + b^2 = 4` has unit vector `(a/2, b/2, 0)`, the incoming directions of the two refracting glass tests |
| GlassCases.GlassScatterEntering | src/hittable_object.rs:418-445 | `glass_scatter_test2`: the normalised ray along `(sqrt 3, -1, 0)` and the normal `(0, 1, 0)` meet every condition glass scattering needs |
| GlassCases.GlassEnteringRefracts | src/hittable_object.rs:418-462 | `glass_scatter_test2`, draw at least the reflectance: the ray entering glass of index `sqrt 3` leaves the origin along the ideal `(1/2, -sqrt(3)/2, 0)` with the albedo unchanged |
| GlassCases.GlassEnteringMirrors | src/hittable_object.rs:418-462 | `glass_scatter_test2`, draw below the reflectance: the same ray is mirrored from the origin to `(sqrt(3)/2, 1/2, 0)` |
| GlassCases.GlassScatterLeaving | src/hittable_object.rs:463-490 | `glass_scatter_test3`: the normalised ray along `(1, sqrt 3, 0)` and the normal `(0, 1, 0)` meet every condition glass scattering needs |
| GlassCases.GlassLeavingRefracts | src/hittable_object.rs:463-506 | `glass_scatter_test3`, draw at least the reflectance: the ray leaving glass of index `sqrt 3` leaves the origin along the ideal `(sqrt(3)/2, 1/2, 0)` with the albedo unchanged |
| GlassCases.GlassLeavingMirrors | src/hittable_object.rs:463-506 | `glass_scatter_test3`, draw below the reflectance: the same ray is mirrored back into the glass from the origin along `(1/2, -sqrt(3)/2, 0)` |
| Render.BackgroundColor | src/main.rs:30-44 | `y = -1` gives white, `y = 1` gives sky blue (0.5, 0.7, 1), and every unit direction gives a colour inside [0, 1] |
| Render.BackgroundGradient | src/main.rs:30-44 | the higher the direction points, the less red and green the background has; its blue channel is always 1 |
| Render.BounceDirection | src/main.rs:56-61 | the bounce direction is defined exactly when the sample is non-zero and its normalisation does not cancel the normal; it is then a unit vector on the normal's side of the surface |
| Render.UnitDotBound | src/main.rs:56-61 | two unit vectors have a dot product of at least -1 |
| Render.DiffuseStaysOutside | src/main.rs:56-61 | a diffuse bounce about a unit normal makes a non-negative dot product with that normal |
| Render.HalfInRange | src/main.rs:62 | halving keeps a colour inside [0, 1] and brings each channel to at most 1/2 |
| Render.RayColor | src/main.rs:46-68 | depth `<= 0` gives black for any ray and world; a miss gives the background; every defined colour is inside [0, 1]; after a hit every channel is at most 1/2 |
| Render.ScaledHalve | src/main.rs:62 | halving and then scaling by `f` equals scaling by `f/2` |
| Render.BounceStep | src/main.rs:54-63 | one bounce moves the loop invariant from a ray to its child ray at depth minus one, with the factor halved |
| Render.NaNBounce | src/main.rs:54-63 | an undefined bounce direction ends the trace: black if the child's depth is used up, undefined otherwise |
| Render.LoopExit | src/main.rs:47-66 | where the loop stops, the colour is black or the background, scaled by the accumulated factor |
| Render.TraceRay | src/main.rs:46-68 | following the bounces in a loop and halving a running factor gives the same colour as the recursive `ray_color` |

## Left out

- `src/camera.rs` and `src/vector.rs` are not part of this model. The camera is a closed-form trigonometric construction, and `vector.rs` is not compiled into the crate.
- `main()`'s pixel loop, the PPM header and pixel output, progress messages, `Color::write`'s quantisation and `Color::average`: these are I/O or are absent from `color.rs`.
- The distributions of `random_double` and `random_unit_vector` are not modelled. The draws are parameters.
- The `dyn_clone` and `BoxedMaterial` cloning machinery: it is ownership plumbing, replaced by a `Material` datatype.
- Exact IEEE-754 results, such as the expected values `4.999999999999997` and `2.220446049250313e-16` in the tests. Over the reals only the ideal values (`5`, `0`, `sqrt(3)/2`) can be stated, and the test lemmas state those.
- GlassCases.GlassEnteringRefracts: `glass_scatter_test2` expects refraction whatever `random_double()` returns; the lemma requires the draw to be at least the reflectance, and GlassCases.GlassEnteringMirrors states the other outcome, because the range of that draw is not part of this model (see Materials.IndexMatchedGlassKeepsDirection below).
- GlassCases.GlassLeavingRefracts: the same for `glass_scatter_test3`, with GlassCases.GlassLeavingMirrors for a draw below the reflectance.
- Geometry.Normalize: requires a non-zero vector, where `unit_vector` divides by a zero length and produces NaN. `DiffuseDirection`, `MetalDirection` and `Scatter` require the same through `CanScatter`. For the Lambertian sum this is the degenerate case marked TODO at `src/hittable_object.rs:32`; the metal sum at `src/hittable_object.rs:47-50` can cancel in the same way, unmarked.
- Render.RayColor: the model returns `None` where `ray_color` produces a NaN colour, after a zero random sample or a sample that cancels the normal. It does not follow NaN arithmetic any further.
- Materials.Reflectance: requires `ratio != -1`, where `reflectance` divides by zero.
- Materials.GlassDirection: requires `eta > 0`. The Rust code only asks for `eta >= 1` in a comment.
- Hittables.SphereHit: requires a positive radius, which every sphere in main.rs has.
- Render.RayColor: the `i32` depth is an unbounded `int`. Decrementing a positive `i32` cannot overflow, so nothing is lost.
- Materials.IndexMatchedGlassKeepsDirection: covers only the refraction branch. With `eta = 1` the code still reflects whenever the draw is below the reflectance `(1 - cos)^5`, so "index-matched glass never bends a ray" holds only when the draw selects refraction. How often that happens depends on the range of `random_double`, which `geometry.rs` does not define; the only definition in the source, at `src/main.rs:15-19`, draws from [-0.5, 0.5), and under that range every negative draw reflects.
- A tangent ray (`dq = 0`) counts as a hit, because the code tests `discriminant_quarter < 0`. The model follows the code.
- `sqrt` is a hypothesis (`IsSqrt`) on a function parameter, not a definition. `powi(5)` is written out as a product.
- The doc comment in `color.rs` says channels lie in `[0, 1)`, but white and the sky's blue channel are exactly 1, so the model's range is the closed interval `[0, 1]`.
