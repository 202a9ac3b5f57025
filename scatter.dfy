/** `scatter`: what each material does with a ray that hit it. It sits in its
    own module because the hit record refers to the material type and
    `scatter` refers to the hit record. */
module Scatter {
  import opened Numeric
  import opened Vectors
  import opened Rays
  import opened Materials
  import opened Hittable

  /** `scatter`. The two `&mut` out-parameters of the source are the inputs
      `attenuation` and `scattered` and the outputs `attenuationOut` and
      `scatteredOut`; `sample` is the point `random_in_unit_sphere` would
      have drawn. A Lambertian surface always scatters, towards the normal
      plus the sample; a metal reflects the unit incoming direction and
      scatters only if the reflection leaves the surface; a dielectric
      absorbs and leaves both out-parameters as they were. */
  method Scatter(material: Material, rIn: Ray, rec: HitRecord, attenuation: Color, scattered: Ray,
                 sample: Vec3, sqrt: real -> real)
    returns (scatters: bool, attenuationOut: Color, scatteredOut: Ray)
    requires material.Metal? ==> Length(rIn.direction, sqrt) != 0.0
    ensures material.Lambertian? ==>
              scatters && attenuationOut == material.albedo
              && scatteredOut == Ray(rec.p, Add(rec.normal, sample))
    ensures material.Metal? ==>
              attenuationOut == material.albedo
              && scatteredOut == Ray(rec.p, Reflect(UnitVector(rIn.direction, sqrt), rec.normal))
              && (scatters <==> Dot(scatteredOut.direction, rec.normal) > 0.0)
    ensures material.Dielectric? ==>
              !scatters && attenuationOut == attenuation && scatteredOut == scattered
    ensures material.Lambertian? && SquaredLength(rec.normal) == 1.0 && SquaredLength(sample) < 1.0 ==>
              Dot(scatteredOut.direction, rec.normal) > 0.0
    ensures material.Metal? && IsSqrt(sqrt) && SquaredLength(rec.normal) == 1.0 ==>
              (scatters <==> Dot(rIn.direction, rec.normal) < 0.0)
  {
    match material
    case Lambertian(albedo) =>
      var scatterDirection := Add(rec.normal, sample);
      scatteredOut := Ray(rec.p, scatterDirection);
      attenuationOut := albedo;
      scatters := true;
      if SquaredLength(rec.normal) == 1.0 && SquaredLength(sample) < 1.0 {
        LambertianLeavesSurface(rec.normal, sample);
      }
    case Metal(albedo) =>
      var reflected := Reflect(UnitVector(rIn.direction, sqrt), rec.normal);
      scatteredOut := Ray(rec.p, reflected);
      attenuationOut := albedo;
      scatters := Dot(scatteredOut.direction, rec.normal) > 0.0;
      if IsSqrt(sqrt) && SquaredLength(rec.normal) == 1.0 {
        MetalReflectsFrontFaces(rIn.direction, rec.normal, sqrt);
      }
    case Dielectric =>
      scatters, attenuationOut, scatteredOut := false, attenuation, scattered;
  }

  /** With a unit normal and a sample strictly inside the unit ball, the
      Lambertian direction leans away from the surface (and so is never the
      zero vector). */
  lemma LambertianLeavesSurface(normal: Vec3, sample: Vec3)
    requires SquaredLength(normal) == 1.0
    requires SquaredLength(sample) < 1.0
    ensures Dot(Add(normal, sample), normal) > 0.0
  {
    CauchySchwarz(sample, normal);
    SquaredLengthIsSelfDot(sample);
    SquaredLengthIsSelfDot(normal);
    SquareBelowOne(Dot(sample, normal));
    DotLinear(normal, sample, normal, 0.0);
  }

  /** For a unit normal, the mirror reflection of the unit incoming
      direction leaves the surface exactly when the incoming ray travels
      against the normal. */
  lemma MetalReflectsFrontFaces(direction: Vec3, normal: Vec3, sqrt: real -> real)
    requires IsSqrt(sqrt)
    requires SquaredLength(normal) == 1.0
    requires Length(direction, sqrt) != 0.0
    ensures Dot(Reflect(UnitVector(direction, sqrt), normal), normal) > 0.0 <==> Dot(direction, normal) < 0.0
  {
    var len := Length(direction, sqrt);
    LengthSquares(direction, sqrt);
    ReflectFlipsNormalComponent(UnitVector(direction, sqrt), normal);
    DivIsMulByInverse(direction, len);
    DotLinear(direction, direction, normal, 1.0 / len);
    ProductSign(1.0 / len, Dot(direction, normal));
  }
}
