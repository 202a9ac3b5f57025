# Ray tracer core in Dafny

A model of the geometric core of a small Rust path tracer
(jaskeerat789/ray-tracer): the vector kernel, rays, the sphere
primitive and its closed-form intersection, the hit record and its
face-normal rule, the scene list that keeps the nearest hit, the three
materials and their `scatter` dispatch with mirror reflection, and the
thin-lens camera that turns an image-plane point into a ray.

Numbers are Dafny `real`s rather than `f32`. The square root, `tan` and
`to_radians` are passed in as function-valued parameters. Where a proof
needs the square root, `Numeric.IsSqrt` states its two defining facts:
for `x >= 0`, `sqrt(x) >= 0` and `sqrt(x) * sqrt(x) == x`. Random draws
are parameters too: the sample `random_in_unit_sphere` would return in
`scatter`, the lens sample in `get_ray`, and the sequence of draws in
`random_in_unit_disk`.

Modules, one per file:

- `Numeric` (numeric.dfy): the square-root predicate and the real-number
  facts the geometry rests on (signs of products, roots of a quadratic).
- `Options` (options.dfy): `Option`.
- `Vectors` (vectors.dfy): `Vec3` and its operators, `dot`, `cross`,
  `squared_length`, `length`, `unit_vector`, and their algebra.
- `Rays` (rays.dfy): `Ray` and `point_at_parameter`.
- `Materials` (materials.dfy): the `Material` enum, its default, `reflect`.
- `Hittable` (hittable.dfy): `HitRecord`, `set_face_normal`, the default
  `Hittable::hit`.
- `Spheres` (spheres.dfy): `Sphere` and `Sphere::hit`.
- `HittableList` (hittable_list.dfy): the scene and its nearest-hit scan.
- `Scatter` (scatter.dfy): `scatter`. The Rust crate has `hittable.rs`
  and `material.rs` import each other. Dafny modules cannot form a cycle,
  so the enum and `reflect` sit in `Materials` and `scatter` sits here.
- `Camera` (camera.dfy): `Camera::new`, `get_ray`, `random_in_unit_disk`.

`scatter` returns `false` for `Dielectric` and writes neither
out-parameter (src/material.rs:35); refraction is not present in this
code.

Definitions the contracts below are stated over, with the lines they
model:

- `Materials.Reflect`: `reflect`, src/material.rs:39-42.
- `Vectors.Length`: `length`, src/vec3.rs:14-18.
- `Vectors.UnitVector`: `unit_vector`, src/vec3.rs:20-22.
- `Rays.Ray.At`: `point_at_parameter` as used at src/sphere.rs:38.
- `Camera.ViewportHeight`: `2 * tan(to_radians(vfov) / 2)`, src/camera.rs:25-27.
- `Camera.LensOffset`: `rd` and `off_set` of `get_ray`, src/camera.rs:52-53.
- `Spheres.A`, `Spheres.HalfB`, `Spheres.C`, `Spheres.Discriminant`: the
  coefficients of `Sphere::hit`, src/sphere.rs:24-29.
- `HittableList.MemberHits`: the reference the scan is specified
  against, one entry per member holding what that sphere reports on the
  whole interval `(t_min, t_max)`. The loop of src/hittable_list.rs:20-25
  never asks this; it asks each member with the shrinking bound
  `closest_so_far`, and `HittableList.Hit` proves that the answer is the
  same.

`Sphere::hit` divides by `a` and by the radius only after it has found a
positive discriminant, and a positive discriminant rules out both a zero
direction and a zero radius (`Spheres.PositiveDiscriminantIsProper`), so
the model of `hit` is defined for every sphere and ray and answers
`None` in those degenerate cases, as the source does.

## Model

| member | source | states |
|---|---|---|
| Vectors.NewStoresComponents | src/vec3.rs:10-34 | `new` stores its three arguments in order and `x`, `y`, `z` return them; this includes the equality checked by the unit test at line 82 |
| Vectors.AddSample | src/vec3.rs:84-87 | (1,2,3) + (4,5,6) = (5,7,9), as the unit test expects |
| Vectors.MulSample | src/vec3.rs:89-92 | (1,2,3) * 2 = (2,4,6), as the unit test expects |
| Vectors.DivSample | src/vec3.rs:93-96 | (1,2,3) / 2 = (0.5,1,1.5), as the unit test expects |
| Vectors.NegIsInverse | src/vec3.rs:49-56 | `v + (-v)` is the zero vector, subtraction adds the negation, and negating twice is the identity |
| Vectors.DivIsMulByInverse | src/vec3.rs:67-74 | for a non-zero divisor, componentwise division equals multiplication by the reciprocal |
| Vectors.DivExact | src/vec3.rs:67-74 | dividing `b * s` by a non-zero `s` gives back `b` |
| Vectors.SquaredLengthIsSelfDot | src/vec3.rs:14-18 | the squared length is the self dot product, never negative, and zero exactly for the zero vector |
| Vectors.LengthSquares | src/vec3.rs:14-18 | `length` is non-negative and its square is `x*x + y*y + z*z` |
| Vectors.LengthZeroIff | src/vec3.rs:14-18 | `length` is zero exactly for the zero vector |
| Vectors.UnitVectorIsUnit | src/vec3.rs:20-22 | for a non-zero vector the length is positive, so the division is defined, and `unit_vector` has length one |
| Vectors.MulSquaredLength | src/vec3.rs:58-65 | scaling by `s` multiplies the squared length by `s*s` |
| Vectors.DivSquaredLength | src/vec3.rs:67-74 | dividing by a non-zero `s` divides the squared length by `s*s` |
| Vectors.NegKeepsSquaredLength | src/vec3.rs:49-56 | negation keeps the squared length |
| Vectors.CrossOrthogonal | src/camera.rs:31-32 | the cross product used to build the camera frame is orthogonal to both its arguments |
| Vectors.CrossSquaredLength | src/camera.rs:31-32 | Lagrange's identity for the cross product that builds the frame |
| Vectors.CauchySchwarz | src/material.rs:22 | the squared dot product is at most the product of the squared lengths |
| Numeric.QuadraticRoots | src/sphere.rs:29-48 | for `a > 0` and `q*q == half_b*half_b - a*c`, the zeros of `a t² + 2 half_b t + c` are exactly `(-half_b ∓ q)/a`, the minus root first |
| Rays.AtIsOffsetFromOrigin | src/sphere.rs:38 | `point_at_parameter(0)` is the origin and `point_at_parameter(t)` lies `t` directions from it |
| Materials.DefaultIsBlackLambertian | src/material.rs:12-16 | the default material is Lambertian with zero albedo |
| Materials.ReflectFlipsNormalComponent | src/material.rs:39-42 | for a unit normal `n`, `dot(reflect(v, n), n) == -dot(v, n)` |
| Materials.ReflectKeepsLength | src/material.rs:39-42 | for a unit normal, reflection keeps the squared length |
| Materials.ReflectIsInvolution | src/material.rs:39-42 | for a unit normal, reflecting twice returns the original vector |
| Hittable.SetFaceNormal | src/hittable.rs:16-26 | `front_face` holds exactly when the ray direction and the outward normal have negative dot product; the normal is the outward one when `front_face`, its negation otherwise; afterwards the normal never points along the ray; its length is that of the outward normal; `t`, `p` and the material are unchanged |
| Hittable.DefaultHit | src/hittable.rs:29-32 | a hittable that does not override `hit` reports no hit for every ray and interval |
| Spheres.PositiveDiscriminantIsProper | src/sphere.rs:24-34 | a positive discriminant implies `a > 0` and a non-zero radius, so the divisions by `a` and by the radius that follow it are well defined |
| Spheres.ZeroDirectionMisses | src/sphere.rs:25-31 | a ray whose direction has squared length zero gives discriminant zero, so the branch at line 31 is not taken and `hit` returns `None` |
| Spheres.ZeroRadiusMisses | src/sphere.rs:24-31 | for radius zero the discriminant is never positive (by Cauchy-Schwarz), so `hit` returns `None` |
| Spheres.Record | src/sphere.rs:36-44 | the record built for a root `t` has that `t`, the point `r.at(t)`, the sphere's material, a normal equal to `±(p - center)/radius` that never points along the ray, and `front_face` exactly when the ray meets the outward side |
| Spheres.Hit | src/sphere.rs:23-63 | defined for every sphere, ray and interval; a hit needs a positive discriminant, hence `a > 0` and a non-zero radius, so neither division of the source is by zero; its `t` lies strictly inside `(t_min, t_max)` and is the near or the far root; its point, material and normal are those of `Spheres.Record` |
| Spheres.HitPrefersNearRoot | src/sphere.rs:31-62 | with a positive discriminant: the near root is returned whenever it is strictly in range; the far root only when the near one is not and it is; otherwise `None` |
| Spheres.RootsOfQuadratic | src/sphere.rs:24-48 | with a positive discriminant, the near and far roots are exactly the zeros of `a t² + 2 half_b t + c`, and near ≤ far |
| Spheres.HitIsNearestRoot | src/sphere.rs:23-63 | a returned `t` is a zero of the quadratic and no zero strictly inside the interval is smaller; there is no hit exactly when the discriminant is not positive (the tangent case included) or no zero lies strictly inside the interval |
| Spheres.HitShrinksWithBound | src/sphere.rs:35-49 | asking with a smaller upper bound `b` gives the same record when its `t` is below `b`, and `None` otherwise |
| Spheres.HitNormalIsUnit | src/sphere.rs:43-44 | the normal of any hit has unit length |
| Spheres.OutwardNormalAtCrossing | src/sphere.rs:43 | at a zero of the quadratic, `(p - center)/radius` has unit length |
| Spheres.CrossingIsOnSurface | src/sphere.rs:24-27 | at a zero of the quadratic the point is one radius from the centre |
| Spheres.SurfaceDistance | src/sphere.rs:24-27 | the squared length of `oc + t d` is `a t² + 2 half_b t + c + radius²` with `a`, `half_b`, `c` as the source computes them |
| Spheres.HitExample | src/sphere.rs:23-63 | a ray from the origin along -z hits the sphere of radius 0.5 at (0,0,-1) at `t = 0.5`, at point (0,0,-0.5), from the front, with normal (0,0,1) |
| HittableList.ScanStep | src/hittable_list.rs:20-25 | one iteration turns the nearest hit among the first `n` members into the nearest among the first `n + 1`, keeping the earlier member on a tie |
| HittableList.Hit | src/hittable_list.rs:15-27 | `None` exactly when no member reports a hit on `(t_min, t_max)` (so always for an empty list); otherwise the record of a member whose `t` is least, earlier members all missing or strictly farther; the returned `t` is at most every member's hit `t` and lies strictly in `(t_min, t_max)`; `closest_so_far` starts at `t_max`, never increases, and ends at the returned `t` (or `t_max`) |
| Scatter.Scatter | src/material.rs:18-37 | Lambertian always scatters, with the albedo, from `rec.p` towards `rec.normal + sample`; metal sets the albedo, reflects the unit incoming direction about the normal, and scatters exactly when the reflection has positive dot product with the normal; dielectric returns `false` and leaves both out-parameters as they were; a Lambertian ray with a unit normal and a sample inside the unit ball leaves the surface; with a unit normal a metal scatters exactly when the incoming ray travels against the normal |
| Scatter.LambertianLeavesSurface | src/material.rs:21-25 | for a unit normal and a sample strictly inside the unit ball, `normal + sample` has positive dot product with the normal |
| Scatter.MetalReflectsFrontFaces | src/material.rs:28-33 | for a unit normal, the reflected unit direction has positive dot product with the normal exactly when the incoming direction has negative |
| Camera.Viewport | src/camera.rs:34-37 | `horizontal = u * width`, `vertical = v * height`, and `lower_left_corner + horizontal/2 + vertical/2 = origin - focus_dist * w` |
| Camera.New | src/camera.rs:16-49 | `origin = look_from`, `lens_radius = aperture / 2`, `w`, `u`, `v` as the normalised and crossed vectors, `horizontal` spans `focus_dist * aspect_ratio * 2 tan(θ/2)` along `u`, `vertical` spans `focus_dist * 2 tan(θ/2)` along `v`, and the viewport is centred `focus_dist` in front of the origin |
| Camera.NewIsOrthonormal | src/camera.rs:30-32 | the frame `u`, `v`, `w` of every constructed camera is orthonormal |
| Vectors.UnitDotIsScaled | src/vec3.rs:20-22 | the dot product with `unit_vector(a)` is the plain dot product divided by `length(a)` |
| Camera.GetRay | src/camera.rs:51-60 | the ray starts at `origin + u * (lens_radius * d.x) + v * (lens_radius * d.y)` and `origin + direction` is `lower_left_corner + s * horizontal + t * vertical` whatever the lens sample |
| Camera.PinholeRaysStartAtOrigin | src/camera.rs:47-55 | with aperture zero every ray starts exactly at `look_from` |
| Camera.LensOffsetWithinAperture | src/camera.rs:52-53 | with an orthonormal frame the lens offset is orthogonal to `w` and has squared length `lens_radius² (d.x² + d.y²)`, so a sample from the unit disk keeps it strictly inside the aperture |
| Camera.OrthonormalCombination | src/camera.rs:53 | `a u + b v` for orthonormal `u`, `v` has squared length `a² + b²` and is orthogonal to whatever both are orthogonal to |
| Camera.RandomInUnitDisk | src/camera.rs:62-73 | a returned point has `z = 0` and squared length below one and is the first draw that does; `None` exactly when no draw falls inside the disk |

## Left out

- Floating point: `f32` rounding, overflow, NaN and infinities are not modelled; all arithmetic is exact over reals.
- `sqrt`, `tan` and `to_radians` are parameters. Only the two square-root facts of `Numeric.IsSqrt` are assumed of `sqrt`, and nothing of `tan` and `to_radians`.
- src/ray.rs is not part of this model; `Ray` and `point_at_parameter` follow their use at src/sphere.rs:38.
- `random_in_unit_sphere` is not part of this model; `Scatter.Scatter` takes its sample as the parameter `sample`.
- src/util.rs (the random number generator) is left out: draws are parameters.
- src/main.rs (image output) is left out.
- `Camera.RandomInUnitDisk` works on a finite sequence of draws and returns `None` when they run out; termination of the unbounded rejection loop is not modelled.
- `HittableList.Hit`: the members are spheres (`seq<Sphere>`) rather than `Box<dyn Hittable>` objects; dynamic dispatch is not modelled.
- `Hittable.SetFaceNormal` returns the updated record instead of writing `front_face` and `normal` through `&mut self`; its only caller applies it to a fresh local record, so no aliasing is lost.
- `Scatter.Scatter` requires a non-zero incoming direction for metal, because `unit_vector` divides by its length.
- `Spheres.HitExample` assumes only `sqrt(0.25) == 0.5` of the square root.
- `Sphere::sphere` and `HittableList::new` are the datatype constructors `Spheres.Sphere` and `HittableList.HittableList`; the derived `Default` of `HitRecord` is unused by the modelled code.
- Metal fuzz, dielectric refraction, the recursive colour estimator, gamma correction and sample averaging are not in this code and not in the model.
