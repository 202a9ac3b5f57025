/** The sphere primitive and its closed-form ray intersection. */
module Spheres {
  import opened Numeric
  import opened Options
  import opened Vectors
  import opened Rays
  import opened Materials
  import opened Hittable

  /** `Sphere::sphere` stores its three arguments as they are; the radius is
      not validated there. `Hit` divides by it only after a positive
      discriminant, which rules out radius zero; the helpers that divide by
      it on their own ask for a non-zero radius. */
  datatype Sphere = Sphere(center: Point3, radius: real, material: Material)

  // The ray meets the sphere's surface where a*t*t + 2*halfB*t + c == 0.

  function A(r: Ray): real {
    SquaredLength(r.direction)
  }

  function HalfB(s: Sphere, r: Ray): real {
    Dot(Sub(r.origin, s.center), r.direction)
  }

  function C(s: Sphere, r: Ray): real {
    SquaredLength(Sub(r.origin, s.center)) - s.radius * s.radius
  }

  function Discriminant(s: Sphere, r: Ray): real {
    HalfB(s, r) * HalfB(s, r) - A(r) * C(s, r)
  }

  /** The value of the quadratic at `t`; its zeros are the surface crossings. */
  function Quadratic(s: Sphere, r: Ray, t: real): real {
    A(r) * t * t + 2.0 * HalfB(s, r) * t + C(s, r)
  }

  /** A positive discriminant needs a ray that moves and a sphere of
      non-zero radius: with `a == 0` the direction is zero, so `halfB` is
      zero and so is the discriminant; with radius zero the discriminant is
      `halfB^2 - |d|^2 |oc|^2`, never positive by Cauchy-Schwarz. So the
      source's divisions by `a` and by the radius, which it reaches only
      for a positive discriminant, never divide by zero. */
  lemma PositiveDiscriminantIsProper(s: Sphere, r: Ray)
    ensures Discriminant(s, r) > 0.0 ==> A(r) > 0.0 && s.radius != 0.0
  {
    SquaredLengthIsSelfDot(r.direction);
    ZeroDirectionMisses(s, r);
    ZeroRadiusMisses(s, r);
  }

  lemma ZeroDirectionMisses(s: Sphere, r: Ray)
    ensures A(r) == 0.0 ==> Discriminant(s, r) == 0.0
  {
    if A(r) == 0.0 {
      ZeroDirectionHalfB(s, r);
      DiscriminantVanishes(s, r);
    }
  }

  lemma ZeroDirectionHalfB(s: Sphere, r: Ray)
    requires A(r) == 0.0
    ensures HalfB(s, r) == 0.0
  {
    SquaredLengthIsSelfDot(r.direction);
    DotWithZero(Sub(r.origin, s.center));
  }

  lemma DiscriminantVanishes(s: Sphere, r: Ray)
    requires A(r) == 0.0 && HalfB(s, r) == 0.0
    ensures Discriminant(s, r) == 0.0
  {
  }

  lemma ZeroRadiusMisses(s: Sphere, r: Ray)
    ensures s.radius == 0.0 ==> Discriminant(s, r) <= 0.0
  {
    var oc := Sub(r.origin, s.center);
    CauchySchwarz(oc, r.direction);
    if s.radius == 0.0 {
      assert C(s, r) == SquaredLength(oc) - 0.0 * 0.0;
    }
  }

  function NearRoot(s: Sphere, r: Ray, sqrt: real -> real): real
    requires Discriminant(s, r) > 0.0
  {
    PositiveDiscriminantIsProper(s, r);
    (-HalfB(s, r) - sqrt(Discriminant(s, r))) / A(r)
  }

  function FarRoot(s: Sphere, r: Ray, sqrt: real -> real): real
    requires Discriminant(s, r) > 0.0
  {
    PositiveDiscriminantIsProper(s, r);
    (-HalfB(s, r) + sqrt(Discriminant(s, r))) / A(r)
  }

  /** `(p - center) / radius` */
  function OutwardNormal(s: Sphere, p: Point3): Vec3
    requires s.radius != 0.0
  {
    Div(Sub(p, s.center), s.radius)
  }

  /** The record built for an accepted root `t`: point, material, and the
      outward normal oriented by `SetFaceNormal`. */
  function Record(s: Sphere, r: Ray, t: real): (rec: HitRecord)
    requires s.radius != 0.0
    ensures rec.t == t && rec.p == r.At(t) && rec.material == s.material
    ensures rec.normal == OutwardNormal(s, rec.p) || rec.normal == Neg(OutwardNormal(s, rec.p))
    ensures rec.frontFace <==> Dot(r.direction, OutwardNormal(s, rec.p)) < 0.0
    ensures Dot(r.direction, rec.normal) <= 0.0
  {
    var p := r.At(t);
    SetFaceNormal(HitRecord(t, p, Zero, s.material, false), r, OutwardNormal(s, p))
  }

  /** `Sphere::hit`: a tangent or missing ray (discriminant not positive) is
      a miss; otherwise the near root is tried first, then the far root, and
      the first one strictly inside `(tMin, tMax)` is returned. */
  function Hit(s: Sphere, r: Ray, tMin: real, tMax: real, sqrt: real -> real): (res: Option<HitRecord>)
    ensures res.Some? ==> Discriminant(s, r) > 0.0 && A(r) > 0.0 && s.radius != 0.0
    ensures res.Some? ==> tMin < res.value.t < tMax
    ensures res.Some? ==> res.value.t == NearRoot(s, r, sqrt) || res.value.t == FarRoot(s, r, sqrt)
    ensures res.Some? ==> res.value.p == r.At(res.value.t) && res.value.material == s.material
    ensures res.Some? ==> res.value.normal == OutwardNormal(s, res.value.p)
                          || res.value.normal == Neg(OutwardNormal(s, res.value.p))
    ensures res.Some? ==> Dot(r.direction, res.value.normal) <= 0.0
  {
    var discriminant := Discriminant(s, r);
    if discriminant > 0.0 then
      PositiveDiscriminantIsProper(s, r);
      // near = (-half_b - sqrt(discriminant)) / a, far with + instead
      var near := NearRoot(s, r, sqrt);
      if near < tMax && near > tMin then
        Some(Record(s, r, near))
      else
        var far := FarRoot(s, r, sqrt);
        if far < tMax && far > tMin then
          Some(Record(s, r, far))
        else
          None
    else
      None
  }

  /** The near root wins whenever it is inside the interval; the far root is
      returned only when the near one is not. */
  lemma HitPrefersNearRoot(s: Sphere, r: Ray, tMin: real, tMax: real, sqrt: real -> real)
    requires Discriminant(s, r) > 0.0
    ensures A(r) > 0.0 && s.radius != 0.0
    ensures tMin < NearRoot(s, r, sqrt) < tMax ==>
              Hit(s, r, tMin, tMax, sqrt) == Some(Record(s, r, NearRoot(s, r, sqrt)))
    ensures !(tMin < NearRoot(s, r, sqrt) < tMax) && tMin < FarRoot(s, r, sqrt) < tMax ==>
              Hit(s, r, tMin, tMax, sqrt) == Some(Record(s, r, FarRoot(s, r, sqrt)))
    ensures !(tMin < NearRoot(s, r, sqrt) < tMax) && !(tMin < FarRoot(s, r, sqrt) < tMax) ==>
              Hit(s, r, tMin, tMax, sqrt) == None
  {
    PositiveDiscriminantIsProper(s, r);
  }

  /** With a positive discriminant, the two roots are exactly the zeros of
      the quadratic, and the near one comes first. */
  lemma RootsOfQuadratic(s: Sphere, r: Ray, t: real, sqrt: real -> real)
    requires IsSqrt(sqrt)
    requires Discriminant(s, r) > 0.0
    ensures Quadratic(s, r, t) == 0.0 <==> t == NearRoot(s, r, sqrt) || t == FarRoot(s, r, sqrt)
    ensures NearRoot(s, r, sqrt) <= FarRoot(s, r, sqrt)
  {
    PositiveDiscriminantIsProper(s, r);
    QuadraticRoots(A(r), HalfB(s, r), C(s, r), sqrt(Discriminant(s, r)), t);
  }

  /** The returned `t` is a crossing of the sphere's surface and no crossing
      inside `(tMin, tMax)` lies nearer; there is no hit exactly when the
      discriminant is not positive or no crossing lies inside the interval. */
  lemma HitIsNearestRoot(s: Sphere, r: Ray, tMin: real, tMax: real, sqrt: real -> real)
    requires IsSqrt(sqrt)
    ensures Hit(s, r, tMin, tMax, sqrt).Some? ==>
              Quadratic(s, r, Hit(s, r, tMin, tMax, sqrt).value.t) == 0.0
    ensures Hit(s, r, tMin, tMax, sqrt).Some? ==>
              forall t :: tMin < t < tMax && Quadratic(s, r, t) == 0.0 ==> Hit(s, r, tMin, tMax, sqrt).value.t <= t
    ensures Hit(s, r, tMin, tMax, sqrt).None? <==>
              Discriminant(s, r) <= 0.0 || forall t :: tMin < t < tMax ==> Quadratic(s, r, t) != 0.0
  {
    if Discriminant(s, r) > 0.0 {
      var res := Hit(s, r, tMin, tMax, sqrt);
      RootsOfQuadratic(s, r, NearRoot(s, r, sqrt), sqrt);
      RootsOfQuadratic(s, r, FarRoot(s, r, sqrt), sqrt);
      forall t | tMin < t < tMax && Quadratic(s, r, t) == 0.0
        ensures res.Some? && res.value.t <= t
      {
        RootsOfQuadratic(s, r, t, sqrt);
      }
    }
  }

  /** Asking the same sphere with a smaller upper bound `b` gives the same
      record when its `t` is below `b`, and no hit otherwise. This is what
      lets the scene scan shrink its bound without losing the nearest hit. */
  lemma HitShrinksWithBound(s: Sphere, r: Ray, tMin: real, b: real, tMax: real, sqrt: real -> real)
    requires IsSqrt(sqrt)
    requires b <= tMax
    ensures Hit(s, r, tMin, b, sqrt) ==
              if Hit(s, r, tMin, tMax, sqrt).Some? && Hit(s, r, tMin, tMax, sqrt).value.t < b
              then Hit(s, r, tMin, tMax, sqrt)
              else None
  {
    if Discriminant(s, r) > 0.0 {
      RootsOfQuadratic(s, r, 0.0, sqrt);
    }
  }

  /** Where the ray crosses the surface, the point is one radius from the
      centre, so the stored normal has unit length. */
  lemma HitNormalIsUnit(s: Sphere, r: Ray, tMin: real, tMax: real, sqrt: real -> real)
    requires IsSqrt(sqrt)
    ensures Hit(s, r, tMin, tMax, sqrt).Some? ==> SquaredLength(Hit(s, r, tMin, tMax, sqrt).value.normal) == 1.0
  {
    var res := Hit(s, r, tMin, tMax, sqrt);
    if res.Some? {
      HitIsNearestRoot(s, r, tMin, tMax, sqrt);
      OutwardNormalAtCrossing(s, r, res.value.t);
      NegKeepsSquaredLength(OutwardNormal(s, res.value.p));
    }
  }

  /** At a zero of the quadratic the outward normal has unit length. */
  lemma OutwardNormalAtCrossing(s: Sphere, r: Ray, t: real)
    requires s.radius != 0.0
    requires Quadratic(s, r, t) == 0.0
    ensures SquaredLength(OutwardNormal(s, r.At(t))) == 1.0
  {
    var d := Sub(r.At(t), s.center);
    CrossingIsOnSurface(s, r, t);
    DivSquaredLength(d, s.radius);
    ProductSign(s.radius, s.radius);
    SelfQuotient(s.radius * s.radius);
  }

  /** At a zero of the quadratic the point is one radius from the centre. */
  lemma CrossingIsOnSurface(s: Sphere, r: Ray, t: real)
    requires Quadratic(s, r, t) == 0.0
    ensures SquaredLength(Sub(r.At(t), s.center)) == s.radius * s.radius
  {
    var oc := Sub(r.origin, s.center);
    assert Sub(r.At(t), s.center) == Add(oc, Mul(r.direction, t));
    SurfaceDistance(oc, r.direction, t);
  }

  /** |oc + t d|^2 expanded as a quadratic in `t`. */
  lemma SurfaceDistance(oc: Vec3, d: Vec3, t: real)
    ensures SquaredLength(Add(oc, Mul(d, t))) ==
            SquaredLength(d) * t * t + 2.0 * Dot(oc, d) * t + SquaredLength(oc)
  {
  }

  /** A ray fired from the origin along -z at the sphere of radius 0.5
      centred at (0, 0, -1) hits its front at t = 0.5 with normal (0, 0, 1).
      The only square root needed is that of 0.25. */
  lemma HitExample(s: Sphere, r: Ray, sqrt: real -> real)
    requires s == Sphere(Vec3(0.0, 0.0, -1.0), 0.5, Lambertian(Vec3(0.5, 0.5, 0.5)))
    requires r == Ray(Zero, Vec3(0.0, 0.0, -1.0))
    requires sqrt(0.25) == 0.5
    ensures Hit(s, r, 0.0, 1000.0, sqrt)
            == Some(HitRecord(0.5, Vec3(0.0, 0.0, -0.5), Vec3(0.0, 0.0, 1.0), s.material, true))
  {
    ExampleRoots(s, r, sqrt);
    ExampleRecord(s, r);
  }

  lemma ExampleRoots(s: Sphere, r: Ray, sqrt: real -> real)
    requires s.center == Vec3(0.0, 0.0, -1.0) && s.radius == 0.5
    requires r == Ray(Zero, Vec3(0.0, 0.0, -1.0))
    requires sqrt(0.25) == 0.5
    ensures Discriminant(s, r) == 0.25
    ensures NearRoot(s, r, sqrt) == 0.5
  {
    assert A(r) == 1.0;
    assert HalfB(s, r) == -1.0;
    assert C(s, r) == 0.75;
    DiscriminantFrom(s, r, 1.0, -1.0, 0.75);
    NearRootFrom(s, r, sqrt, 1.0, -1.0, 0.25);
  }

  lemma NearRootFrom(s: Sphere, r: Ray, sqrt: real -> real, a: real, h: real, d: real)
    requires A(r) == a && HalfB(s, r) == h && Discriminant(s, r) == d && d > 0.0
    ensures a > 0.0
    ensures NearRoot(s, r, sqrt) == (-h - sqrt(d)) / a
  {
    PositiveDiscriminantIsProper(s, r);
  }

  lemma DiscriminantFrom(s: Sphere, r: Ray, a: real, h: real, c: real)
    requires A(r) == a && HalfB(s, r) == h && C(s, r) == c
    ensures Discriminant(s, r) == h * h - a * c
  {
  }

  lemma ExampleRecord(s: Sphere, r: Ray)
    requires s.center == Vec3(0.0, 0.0, -1.0) && s.radius == 0.5
    requires r == Ray(Zero, Vec3(0.0, 0.0, -1.0))
    ensures Record(s, r, 0.5) == HitRecord(0.5, Vec3(0.0, 0.0, -0.5), Vec3(0.0, 0.0, 1.0), s.material, true)
  {
    assert r.At(0.5) == Vec3(0.0, 0.0, -0.5);
    assert Sub(Vec3(0.0, 0.0, -0.5), s.center) == Vec3(0.0, 0.0, 0.5);
    DivExact(Vec3(0.0, 0.0, 0.5), 0.5, Vec3(0.0, 0.0, 1.0));
  }
}
