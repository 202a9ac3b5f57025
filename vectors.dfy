/** The vector kernel: a three-component vector of reals standing for the
    renderer's `Vec3` (also used as a point and as a colour), with the
    componentwise operators and the geometric helpers built on them. */
module Vectors {
  import opened Numeric

  /** `Vec3 { e: [f32; 3] }`; `e0`, `e1`, `e2` are the array's slots. */
  datatype Vec3 = Vec3(e0: real, e1: real, e2: real) {
    function X(): real { e0 }
    function Y(): real { e1 }
    function Z(): real { e2 }
  }

  type Point3 = Vec3
  type Color = Vec3

  /** `Vec3::new` */
  function New(e0: real, e1: real, e2: real): Vec3 {
    Vec3(e0, e1, e2)
  }

  /** `Vec3::default()`, the zero vector (black as a colour). */
  const Zero := Vec3(0.0, 0.0, 0.0)

  function Add(a: Vec3, b: Vec3): Vec3 {
    Vec3(a.e0 + b.e0, a.e1 + b.e1, a.e2 + b.e2)
  }

  function Neg(a: Vec3): Vec3 {
    Vec3(-a.e0, -a.e1, -a.e2)
  }

  function Sub(a: Vec3, b: Vec3): Vec3 {
    Vec3(a.e0 - b.e0, a.e1 - b.e1, a.e2 - b.e2)
  }

  /** `Vec3 * f32`; the renderer's `f32 * Vec3` is the same product. */
  function Mul(a: Vec3, s: real): Vec3 {
    Vec3(a.e0 * s, a.e1 * s, a.e2 * s)
  }

  function Div(a: Vec3, s: real): Vec3
    requires s != 0.0
  {
    Vec3(a.e0 / s, a.e1 / s, a.e2 / s)
  }

  function Dot(a: Vec3, b: Vec3): real {
    a.e0 * b.e0 + a.e1 * b.e1 + a.e2 * b.e2
  }

  function Cross(a: Vec3, b: Vec3): Vec3 {
    Vec3(a.e1 * b.e2 - a.e2 * b.e1,
         a.e2 * b.e0 - a.e0 * b.e2,
         a.e0 * b.e1 - a.e1 * b.e0)
  }

  function SquaredLength(a: Vec3): real {
    a.e0 * a.e0 + a.e1 * a.e1 + a.e2 * a.e2
  }

  /** `length`, with the square root supplied by the caller. */
  function Length(a: Vec3, sqrt: real -> real): real {
    sqrt(SquaredLength(a))
  }

  /** `unit_vector`: divides by the length, which the caller keeps non-zero. */
  function UnitVector(a: Vec3, sqrt: real -> real): Vec3
    requires Length(a, sqrt) != 0.0
  {
    Div(a, Length(a, sqrt))
  }

  // ---------------------------------------------------------------------
  // The unit tests of the vector kernel, as lemmas.

  lemma NewStoresComponents(e0: real, e1: real, e2: real)
    ensures New(e0, e1, e2) == Vec3(e0, e1, e2)
    ensures New(e0, e1, e2).X() == e0 && New(e0, e1, e2).Y() == e1 && New(e0, e1, e2).Z() == e2
  {
  }

  lemma AddSample()
    ensures Add(New(1.0, 2.0, 3.0), New(4.0, 5.0, 6.0)) == Vec3(5.0, 7.0, 9.0)
  {
  }

  lemma MulSample()
    ensures Mul(New(1.0, 2.0, 3.0), 2.0) == Vec3(2.0, 4.0, 6.0)
  {
  }

  lemma DivSample()
    ensures Div(New(1.0, 2.0, 3.0), 2.0) == Vec3(0.5, 1.0, 1.5)
  {
  }

  // ---------------------------------------------------------------------
  // Algebra of the operators.

  /** Negation is the additive inverse, and subtraction adds the negation. */
  lemma NegIsInverse(a: Vec3, b: Vec3)
    ensures Add(a, Neg(a)) == Zero
    ensures Sub(a, b) == Add(a, Neg(b))
    ensures Neg(Neg(a)) == a
  {
  }

  /** Division by a non-zero scalar is multiplication by its reciprocal. */
  lemma DivIsMulByInverse(a: Vec3, s: real)
    requires s != 0.0
    ensures Div(a, s) == Mul(a, 1.0 / s)
  {
    assert a.e0 / s == a.e0 * (1.0 / s);
    assert a.e1 / s == a.e1 * (1.0 / s);
    assert a.e2 / s == a.e2 * (1.0 / s);
  }

  /** Division recovers the vector that was scaled. */
  lemma DivExact(a: Vec3, s: real, b: Vec3)
    requires s != 0.0
    requires Mul(b, s) == a
    ensures Div(a, s) == b
  {
  }

  lemma DotWithZero(a: Vec3)
    ensures Dot(a, Zero) == 0.0
  {
  }

  lemma DotSymmetric(a: Vec3, b: Vec3)
    ensures Dot(a, b) == Dot(b, a)
  {
  }

  /** The dot product is linear in its first argument. */
  lemma DotLinear(a: Vec3, b: Vec3, c: Vec3, s: real)
    ensures Dot(Add(a, b), c) == Dot(a, c) + Dot(b, c)
    ensures Dot(Sub(a, b), c) == Dot(a, c) - Dot(b, c)
    ensures Dot(Neg(a), c) == -Dot(a, c)
    ensures Dot(Mul(a, s), c) == s * Dot(a, c)
  {
    assert Dot(Mul(a, s), c) == (a.e0 * s) * c.e0 + (a.e1 * s) * c.e1 + (a.e2 * s) * c.e2;
  }

  lemma SquaredLengthIsSelfDot(a: Vec3)
    ensures SquaredLength(a) == Dot(a, a)
    ensures SquaredLength(a) >= 0.0
    ensures SquaredLength(a) == 0.0 <==> a == Zero
  {
    ProductSign(a.e0, a.e0);
    ProductSign(a.e1, a.e1);
    ProductSign(a.e2, a.e2);
  }

  /** The squared length of a sum, expanded. */
  lemma AddSquaredLength(a: Vec3, b: Vec3)
    ensures SquaredLength(Add(a, b)) == SquaredLength(a) + 2.0 * Dot(a, b) + SquaredLength(b)
  {
  }

  /** The squared length of a difference, expanded. */
  lemma SubSquaredLength(a: Vec3, b: Vec3)
    ensures SquaredLength(Sub(a, b)) == SquaredLength(a) - 2.0 * Dot(a, b) + SquaredLength(b)
  {
  }

  /** Negation keeps the squared length. */
  lemma NegKeepsSquaredLength(a: Vec3)
    ensures SquaredLength(Neg(a)) == SquaredLength(a)
  {
  }

  /** Scaling by `s` scales the squared length by `s * s`. */
  lemma MulSquaredLength(a: Vec3, s: real)
    ensures SquaredLength(Mul(a, s)) == s * s * SquaredLength(a)
  {
    assert (a.e0 * s) * (a.e0 * s) == s * s * (a.e0 * a.e0);
    assert (a.e1 * s) * (a.e1 * s) == s * s * (a.e1 * a.e1);
    assert (a.e2 * s) * (a.e2 * s) == s * s * (a.e2 * a.e2);
  }

  /** Dividing by `s` divides the squared length by `s * s`. */
  lemma DivSquaredLength(a: Vec3, s: real)
    requires s != 0.0
    ensures SquaredLength(Div(a, s)) == SquaredLength(a) / (s * s)
  {
    DivIsMulByInverse(a, s);
    MulSquaredLength(a, 1.0 / s);
    assert (1.0 / s) * (1.0 / s) == 1.0 / (s * s);
  }

  /** The cross product is orthogonal to both of its arguments. */
  lemma CrossOrthogonal(a: Vec3, b: Vec3)
    ensures Dot(Cross(a, b), a) == 0.0
    ensures Dot(Cross(a, b), b) == 0.0
  {
  }

  /** Lagrange's identity: |a x b|^2 = |a|^2 |b|^2 - (a . b)^2. */
  lemma CrossSquaredLength(a: Vec3, b: Vec3)
    ensures SquaredLength(Cross(a, b)) == SquaredLength(a) * SquaredLength(b) - Dot(a, b) * Dot(a, b)
  {
  }

  /** Cauchy-Schwarz, squared: (a . b)^2 <= |a|^2 |b|^2. */
  lemma CauchySchwarz(a: Vec3, b: Vec3)
    ensures Dot(a, b) * Dot(a, b) <= SquaredLength(a) * SquaredLength(b)
  {
    CrossSquaredLength(a, b);
    SquaredLengthIsSelfDot(Cross(a, b));
  }

  // ---------------------------------------------------------------------
  // Length and normalisation.

  /** The length is non-negative and squares to the squared length. */
  lemma LengthSquares(a: Vec3, sqrt: real -> real)
    requires IsSqrt(sqrt)
    ensures Length(a, sqrt) >= 0.0
    ensures Length(a, sqrt) * Length(a, sqrt) == SquaredLength(a)
  {
    SquaredLengthIsSelfDot(a);
  }

  /** Only the zero vector has length zero. */
  lemma LengthZeroIff(a: Vec3, sqrt: real -> real)
    requires IsSqrt(sqrt)
    ensures Length(a, sqrt) == 0.0 <==> a == Zero
  {
    SquaredLengthIsSelfDot(a);
    RootZeroIff(SquaredLength(a), sqrt);
  }

  /** `unit_vector` of a non-zero vector has length one. */
  lemma UnitVectorIsUnit(a: Vec3, sqrt: real -> real)
    requires IsSqrt(sqrt)
    requires a != Zero
    ensures Length(a, sqrt) > 0.0
    ensures SquaredLength(UnitVector(a, sqrt)) == 1.0
    ensures Length(UnitVector(a, sqrt), sqrt) == 1.0
  {
    var len := Length(a, sqrt);
    LengthZeroIff(a, sqrt);
    LengthSquares(a, sqrt);
    SquaredLengthIsSelfDot(a);
    DivSquaredLength(a, len);
    assert SquaredLength(UnitVector(a, sqrt)) == SquaredLength(a) / SquaredLength(a);
    LengthSquares(UnitVector(a, sqrt), sqrt);
    RootUnique(1.0, Length(UnitVector(a, sqrt), sqrt), 1.0);
  }

  /** The dot product with a normalised vector is the plain dot product
      divided by the length. */
  lemma UnitDotIsScaled(a: Vec3, b: Vec3, sqrt: real -> real)
    requires Length(a, sqrt) != 0.0
    ensures Dot(UnitVector(a, sqrt), b) == Dot(a, b) / Length(a, sqrt)
  {
    var len := Length(a, sqrt);
    DivIsMulByInverse(a, len);
    DotLinear(a, a, b, 1.0 / len);
  }
}
