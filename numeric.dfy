/** Real-number stand-ins for the f32 functions the renderer calls and small
    algebraic facts about them. `sqrt`, `tan` and `to_radians` are not given a
    definition: every operation that needs one takes it as a parameter, and
    `IsSqrt` states the only two facts about square roots the proofs rely on. */
module Numeric {

  /** The square-root axioms: for a non-negative argument the root is
      non-negative and squares back to the argument. */
  ghost predicate IsSqrt(sqrt: real -> real) {
    (forall x :: 0.0 <= x ==> 0.0 <= sqrt(x))
    && (forall x :: 0.0 <= x ==> sqrt(x) * sqrt(x) == x)
  }

  /** The sign of a product follows the signs of its factors. */
  lemma ProductSign(a: real, b: real)
    ensures a > 0.0 && b > 0.0 ==> a * b > 0.0
    ensures a < 0.0 && b < 0.0 ==> a * b > 0.0
    ensures a > 0.0 && b < 0.0 ==> a * b < 0.0
    ensures a < 0.0 && b > 0.0 ==> a * b < 0.0
    ensures a * b == 0.0 <==> a == 0.0 || b == 0.0
  {
  }

  /** A non-negative square root is unique. */
  lemma RootUnique(x: real, r: real, q: real)
    requires 0.0 <= r && 0.0 <= q
    requires r * r == x && q * q == x
    ensures r == q
  {
    assert (r - q) * (r + q) == 0.0;
    ProductSign(r - q, r + q);
  }

  /** Two numbers with the same square are equal up to sign. */
  lemma SquareRootsOfSquare(x: real, r: real)
    requires x * x == r * r
    ensures x == r || x == -r
  {
    assert (x - r) * (x + r) == 0.0;
    ProductSign(x - r, x + r);
  }

  /** A square below one keeps the number strictly between minus one and one. */
  lemma SquareBelowOne(d: real)
    requires d * d < 1.0
    ensures -1.0 < d < 1.0
  {
    assert (d + 1.0) * (d - 1.0) < 0.0;
    ProductSign(d + 1.0, d - 1.0);
  }

  /** The root of a non-negative number is zero exactly when the number is. */
  lemma RootZeroIff(x: real, sqrt: real -> real)
    requires IsSqrt(sqrt)
    requires 0.0 <= x
    ensures sqrt(x) == 0.0 <==> x == 0.0
  {
    ProductSign(sqrt(x), sqrt(x));
  }

  /** For `a > 0` and `q` the root of the discriminant `h*h - a*c`, the
      solutions of `a*t*t + 2*h*t + c == 0` are exactly `(-h - q) / a` and
      `(-h + q) / a`, in that order. */
  lemma QuadraticRoots(a: real, h: real, c: real, q: real, t: real)
    requires a > 0.0 && q >= 0.0 && q * q == h * h - a * c
    ensures a * t * t + 2.0 * h * t + c == 0.0 <==> t == (-h - q) / a || t == (-h + q) / a
    ensures (-h - q) / a <= (-h + q) / a
  {
    var v := a * t * t + 2.0 * h * t + c;
    assert a * v == (a * t + h) * (a * t + h) - q * q;
    ProductSign(a, v);
    if v == 0.0 {
      SquareRootsOfSquare(a * t + h, q);
    }
    assert t == (-h - q) / a <==> a * t + h == -q;
    assert t == (-h + q) / a <==> a * t + h == q;
  }

  /** A non-zero number divided by itself is one. */
  lemma SelfQuotient(x: real)
    requires x != 0.0
    ensures x / x == 1.0
  {
  }
}
