/** The surface materials and the mirror reflection the metal uses. */
module Materials {
  import opened Numeric
  import opened Vectors

  /** The three variants; none of them carries more than an albedo. */
  datatype Material = Lambertian(albedo: Color) | Metal(albedo: Color) | Dielectric

  /** `Material::default()` */
  const DefaultMaterial := Lambertian(Zero)

  lemma DefaultIsBlackLambertian()
    ensures DefaultMaterial.Lambertian?
    ensures DefaultMaterial.albedo == Vec3(0.0, 0.0, 0.0)
  {
  }

  /** `reflect`: mirrors `v` in the plane whose normal is `n`. */
  function Reflect(v: Vec3, n: Vec3): Vec3 {
    Sub(v, Mul(n, 2.0 * Dot(v, n)))
  }

  /** For a unit normal, reflection flips the component along the normal. */
  lemma ReflectFlipsNormalComponent(v: Vec3, n: Vec3)
    requires SquaredLength(n) == 1.0
    ensures Dot(Reflect(v, n), n) == -Dot(v, n)
  {
    DotLinear(v, Mul(n, 2.0 * Dot(v, n)), n, 0.0);
    DotLinear(n, n, n, 2.0 * Dot(v, n));
    SquaredLengthIsSelfDot(n);
  }

  /** For a unit normal, reflection keeps the length of the vector. */
  lemma ReflectKeepsLength(v: Vec3, n: Vec3)
    requires SquaredLength(n) == 1.0
    ensures SquaredLength(Reflect(v, n)) == SquaredLength(v)
  {
    var k := 2.0 * Dot(v, n);
    SubSquaredLength(v, Mul(n, k));
    DotSymmetric(v, Mul(n, k));
    DotLinear(n, n, v, k);
    DotSymmetric(n, v);
    MulSquaredLength(n, k);
  }

  /** For a unit normal, reflecting twice gives back the original vector. */
  lemma ReflectIsInvolution(v: Vec3, n: Vec3)
    requires SquaredLength(n) == 1.0
    ensures Reflect(Reflect(v, n), n) == v
  {
    ReflectFlipsNormalComponent(v, n);
  }
}
