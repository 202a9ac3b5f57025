/** The thin-lens camera: its derived frame, the ray through an image-plane
    point, and the lens sample drawn by rejection. */
module Camera {
  import opened Numeric
  import opened Options
  import opened Vectors
  import opened Rays

  /** The fields of `Camera`, all fixed by `Camera::new`. */
  datatype Camera = Camera(origin: Point3, lowerLeftCorner: Point3, horizontal: Vec3, vertical: Vec3,
                           u: Vec3, v: Vec3, w: Vec3, lensRadius: real)

  /** `2 * tan(to_radians(vfov) / 2)`: the height of the viewport at unit
      distance; `tan` and `toRadians` are supplied by the caller. */
  function ViewportHeight(vfov: real, tan: real -> real, toRadians: real -> real): real {
    var theta := toRadians(vfov);
    var h := tan(theta / 2.0);
    2.0 * h
  }

  /** The view direction and `vup x w` can both be normalised: `Camera::new`
      divides by their lengths. */
  predicate HasFrame(lookFrom: Point3, lookAt: Point3, vup: Vec3, sqrt: real -> real) {
    Length(Sub(lookFrom, lookAt), sqrt) != 0.0
    && Length(Cross(vup, UnitVector(Sub(lookFrom, lookAt), sqrt)), sqrt) != 0.0
  }

  /** The viewport placed in the frame `(u, v, w)`: `horizontal` and
      `vertical` span it, and `lowerLeftCorner` is its corner, so that the
      viewport is centred on the point `focusDist` in front of `origin`. */
  function Viewport(origin: Point3, u: Vec3, v: Vec3, w: Vec3, width: real, height: real, focusDist: real,
                    lensRadius: real): (cam: Camera)
    ensures cam.origin == origin && cam.u == u && cam.v == v && cam.w == w && cam.lensRadius == lensRadius
    ensures cam.horizontal == Mul(u, width) && cam.vertical == Mul(v, height)
    ensures Add(Add(cam.lowerLeftCorner, Div(cam.horizontal, 2.0)), Div(cam.vertical, 2.0))
            == Sub(origin, Mul(w, focusDist))
  {
    var horizontal := Mul(u, width);
    var vertical := Mul(v, height);
    var lowerLeftCorner := Sub(Sub(Sub(origin, Div(horizontal, 2.0)), Div(vertical, 2.0)), Mul(w, focusDist));
    Camera(origin, lowerLeftCorner, horizontal, vertical, u, v, w, lensRadius)
  }

  /** `Camera::new`: `w` points back from the target, `u` to the right, `v`
      up; the viewport, `aspectRatio` times as wide as it is high, spans
      `horizontal` by `vertical` at `focusDist` along `-w` and is centred
      there, and the lens radius is half the aperture. */
  function New(lookFrom: Point3, lookAt: Point3, vup: Vec3, vfov: real, aspectRatio: real, aperture: real,
               focusDist: real, sqrt: real -> real, tan: real -> real, toRadians: real -> real): (cam: Camera)
    requires HasFrame(lookFrom, lookAt, vup, sqrt)
    ensures cam.origin == lookFrom
    ensures cam.lensRadius == aperture / 2.0
    ensures cam.w == UnitVector(Sub(lookFrom, lookAt), sqrt)
    ensures cam.u == UnitVector(Cross(vup, cam.w), sqrt) && cam.v == Cross(cam.w, cam.u)
    ensures cam.horizontal == Mul(cam.u, focusDist * (aspectRatio * ViewportHeight(vfov, tan, toRadians)))
    ensures cam.vertical == Mul(cam.v, focusDist * ViewportHeight(vfov, tan, toRadians))
    ensures Add(Add(cam.lowerLeftCorner, Div(cam.horizontal, 2.0)), Div(cam.vertical, 2.0))
            == Sub(cam.origin, Mul(cam.w, focusDist))
  {
    var w := UnitVector(Sub(lookFrom, lookAt), sqrt);
    var u := UnitVector(Cross(vup, w), sqrt);
    var v := Cross(w, u);
    // viewport_width = aspect_ratio * viewport_height, both scaled by focus_dist
    Viewport(lookFrom, u, v, w,
             focusDist * (aspectRatio * ViewportHeight(vfov, tan, toRadians)),
             focusDist * ViewportHeight(vfov, tan, toRadians),
             focusDist, aperture / 2.0)
  }

  /** `u`, `v` and `w` form an orthonormal frame. */
  predicate Orthonormal(cam: Camera) {
    SquaredLength(cam.u) == 1.0 && SquaredLength(cam.v) == 1.0 && SquaredLength(cam.w) == 1.0
    && Dot(cam.u, cam.v) == 0.0 && Dot(cam.u, cam.w) == 0.0 && Dot(cam.v, cam.w) == 0.0
  }

  /** Every camera `Camera::new` builds has an orthonormal frame. */
  lemma NewIsOrthonormal(lookFrom: Point3, lookAt: Point3, vup: Vec3, vfov: real, aspectRatio: real,
                         aperture: real, focusDist: real, sqrt: real -> real, tan: real -> real,
                         toRadians: real -> real)
    requires IsSqrt(sqrt)
    requires HasFrame(lookFrom, lookAt, vup, sqrt)
    ensures Orthonormal(New(lookFrom, lookAt, vup, vfov, aspectRatio, aperture, focusDist, sqrt, tan, toRadians))
  {
    var cam := New(lookFrom, lookAt, vup, vfov, aspectRatio, aperture, focusDist, sqrt, tan, toRadians);
    var back := Sub(lookFrom, lookAt);
    LengthZeroIff(back, sqrt);
    UnitVectorIsUnit(back, sqrt);
    var w := cam.w;
    var side := Cross(vup, w);
    LengthZeroIff(side, sqrt);
    UnitVectorIsUnit(side, sqrt);
    var u := cam.u;
    assert u == UnitVector(side, sqrt);
    UnitDotIsScaled(side, w, sqrt);
    CrossOrthogonal(vup, w);
    DotSymmetric(u, w);
    CrossOrthogonal(w, u);
    CrossSquaredLength(w, u);
    DotSymmetric(cam.v, u);
    DotSymmetric(u, cam.v);
    DotSymmetric(cam.v, w);
  }

  /** `rd = lens_radius * sample`, `off_set = u * rd.x + v * rd.y`. */
  function LensOffset(cam: Camera, lensSample: Vec3): Vec3 {
    var rd := Mul(lensSample, cam.lensRadius);
    Add(Mul(cam.u, rd.X()), Mul(cam.v, rd.Y()))
  }

  /** `get_ray`: the ray from the lens point `origin + off_set` through the
      image-plane point at `(s, t)`; `lensSample` is the point
      `random_in_unit_disk` would have drawn. */
  function GetRay(cam: Camera, s: real, t: real, lensSample: Vec3): (r: Ray)
    ensures r.origin == Add(cam.origin, LensOffset(cam, lensSample))
    ensures Add(r.origin, r.direction)
            == Add(Add(cam.lowerLeftCorner, Mul(cam.horizontal, s)), Mul(cam.vertical, t))
  {
    var offSet := LensOffset(cam, lensSample);
    Ray(Add(cam.origin, offSet),
        Sub(Sub(Add(Add(cam.lowerLeftCorner, Mul(cam.horizontal, s)), Mul(cam.vertical, t)), cam.origin), offSet))
  }

  /** A pinhole camera (aperture zero) starts every ray at its origin. */
  lemma PinholeRaysStartAtOrigin(lookFrom: Point3, lookAt: Point3, vup: Vec3, vfov: real, aspectRatio: real,
                                 focusDist: real, sqrt: real -> real, tan: real -> real,
                                 toRadians: real -> real, s: real, t: real, lensSample: Vec3)
    requires HasFrame(lookFrom, lookAt, vup, sqrt)
    ensures GetRay(New(lookFrom, lookAt, vup, vfov, aspectRatio, 0.0, focusDist, sqrt, tan, toRadians),
                   s, t, lensSample).origin == lookFrom
  {
    var cam := New(lookFrom, lookAt, vup, vfov, aspectRatio, 0.0, focusDist, sqrt, tan, toRadians);
    assert cam.lensRadius == 0.0;
    assert LensOffset(cam, lensSample) == Zero;
  }

  /** With an orthonormal frame, the lens offset lies in the plane of `u`
      and `v` at distance `lensRadius * |(x, y)|` from the origin, so a disk
      sample keeps every ray start inside the aperture. */
  lemma LensOffsetWithinAperture(cam: Camera, lensSample: Vec3)
    requires Orthonormal(cam)
    ensures var d := lensSample;
            SquaredLength(LensOffset(cam, d))
            == cam.lensRadius * cam.lensRadius * (d.X() * d.X() + d.Y() * d.Y())
    ensures Dot(LensOffset(cam, lensSample), cam.w) == 0.0
    ensures lensSample.Z() == 0.0 && SquaredLength(lensSample) < 1.0 && cam.lensRadius != 0.0 ==>
              SquaredLength(LensOffset(cam, lensSample)) < cam.lensRadius * cam.lensRadius
  {
    var lr := cam.lensRadius;
    var x, y := lensSample.X(), lensSample.Y();
    var a, b := x * lr, y * lr;
    assert LensOffset(cam, lensSample) == Add(Mul(cam.u, a), Mul(cam.v, b));
    OrthonormalCombination(cam.u, cam.v, cam.w, a, b);
    ScaledSumOfSquares(x, y, lr);
    if lensSample.Z() == 0.0 && SquaredLength(lensSample) < 1.0 && lr != 0.0 {
      assert SquaredLength(lensSample) == x * x + y * y + 0.0 * 0.0;
      ShrinkBySquare(SquaredLength(LensOffset(cam, lensSample)), x * x + y * y, lr);
    }
  }

  lemma ShrinkBySquare(l: real, q: real, r: real)
    requires l == r * r * q && q < 1.0 && r != 0.0
    ensures l < r * r
  {
    ProductSign(r, r);
    ProductSign(r * r, 1.0 - q);
  }

  lemma ScaledSumOfSquares(x: real, y: real, r: real)
    ensures (x * r) * (x * r) + (y * r) * (y * r) == r * r * (x * x + y * y)
  {
    assert (x * r) * (x * r) == r * r * (x * x);
    assert (y * r) * (y * r) == r * r * (y * y);
  }

  /** A combination `a u + b v` of two orthonormal vectors has squared
      length `a*a + b*b` and stays orthogonal to whatever both are
      orthogonal to. */
  lemma OrthonormalCombination(u: Vec3, v: Vec3, w: Vec3, a: real, b: real)
    requires SquaredLength(u) == 1.0 && SquaredLength(v) == 1.0 && Dot(u, v) == 0.0
    requires Dot(u, w) == 0.0 && Dot(v, w) == 0.0
    ensures SquaredLength(Add(Mul(u, a), Mul(v, b))) == a * a + b * b
    ensures Dot(Add(Mul(u, a), Mul(v, b)), w) == 0.0
  {
    AddSquaredLength(Mul(u, a), Mul(v, b));
    MulSquaredLength(u, a);
    MulSquaredLength(v, b);
    DotLinear(u, u, Mul(v, b), a);
    DotSymmetric(u, Mul(v, b));
    DotLinear(v, v, u, b);
    DotSymmetric(v, u);
    DotLinear(Mul(u, a), Mul(v, b), w, 0.0);
    DotLinear(u, u, w, a);
    DotLinear(v, v, w, b);
  }

  /** Whether a drawn candidate lies strictly inside the unit disk. */
  predicate InUnitDisk(p: Vec3) {
    p.Z() == 0.0 && SquaredLength(p) < 1.0
  }

  /** `random_in_unit_disk`: the source redraws until a point falls inside
      the disk; here the successive `(x, y)` draws of `random_min_max(-1, 1)`
      are given as `draws`, and the result is the first candidate inside the
      disk, or `None` when the draws run out first. */
  method RandomInUnitDisk(draws: seq<(real, real)>) returns (p: Option<Vec3>)
    ensures p.Some? ==> InUnitDisk(p.value)
    ensures p.None? <==> forall i :: 0 <= i < |draws| ==> !InUnitDisk(Vectors.New(draws[i].0, draws[i].1, 0.0))
    ensures p.Some? ==> exists k :: 0 <= k < |draws| && p.value == Vectors.New(draws[k].0, draws[k].1, 0.0)
                                    && forall i :: 0 <= i < k ==> !InUnitDisk(Vectors.New(draws[i].0, draws[i].1, 0.0))
  {
    for n := 0 to |draws|
      invariant forall i :: 0 <= i < n ==> !InUnitDisk(Vectors.New(draws[i].0, draws[i].1, 0.0))
    {
      var candidate := Vectors.New(draws[n].0, draws[n].1, 0.0);
      if SquaredLength(candidate) < 1.0 {
        return Some(candidate);
      }
    }
    return None;
  }
}
