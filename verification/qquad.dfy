/**
 * Roots of a·x² + b·x + c (qquad.cpp).  `sqrt` is a parameter; the
 * properties of the roots are proved where it is exact at the discriminant.
 */
module QQuad {
  import opened Wrappers

  /** The four out-parameters: real and imaginary parts of both roots. */
  datatype Roots = Roots(r1r: real, r1i: real, r2r: real, r2i: real)

  /** The square root returns non-negative values on non-negative arguments, as the C library's does. */
  ghost predicate NonNegativeSqrt(sqrt: real -> real)
  {
    forall x :: 0.0 <= x ==> 0.0 <= sqrt(x)
  }

  /** sqrt is exact at x. */
  predicate ExactAt(sqrt: real -> real, x: real)
  {
    0.0 <= sqrt(x) && sqrt(x) * sqrt(x) == x
  }

  /** The discriminant b² - 4ac. */
  function Discriminant(a: real, b: real, c: real): real
  {
    b * b - 4.0 * a * c
  }

  /** x solves a·x² + b·x + c = 0. */
  predicate IsRoot(a: real, b: real, c: real, x: real)
  {
    a * x * x + b * x + c == 0.0
  }

  /** Vieta's formulas for x and y: a·(x + y) = -b and a·x·y = c. */
  predicate Vieta(a: real, b: real, c: real, x: real, y: real)
  {
    a * (x + y) == -b && a * (x * y) == c
  }

  /**
   * The two real roots for a ≠ 0 from q = sqrt(b² - 4ac), each by whichever
   * form of the quadratic formula avoids cancellation: with y = -b ± q taking
   * the sign of -b, one root is y/(2a) and the other 2c/y.  When y is 0,
   * which happens for b = c = 0, the root the source divides by y is taken
   * from the other form, (-b + q)/(2a), instead.
   */
  function RealPair(a: real, b: real, c: real, q: real): (r: Roots)
    requires a != 0.0 && 0.0 <= q
    ensures r.r1i == 0.0 && r.r2i == 0.0
  {
    if b < 0.0 then
      var y := -b + q;
      Roots(y / (2.0 * a), 0.0, (2.0 * c) / y, 0.0)
    else
      var y := -b - q;
      var r1r := if y != 0.0 then (2.0 * c) / y else (-b + q) / (2.0 * a);
      Roots(r1r, 0.0, y / (2.0 * a), 0.0)
  }

  /** The complex-conjugate pair -b/2a ± i·q/2a for q = sqrt(4ac - b²). */
  function ComplexPair(a: real, b: real, q: real): (r: Roots)
    requires a != 0.0
    ensures r.r1r == r.r2r == -b / (2.0 * a) && r.r2i == -r.r1i
  {
    var den := 2.0 * a;
    var r1i := q / den;
    Roots(-b / den, r1i, -b / den, -r1i)
  }

  /**
   * `qquad`: None (false) when a = b = 0; the linear root -c/b when only a
   * is 0; otherwise the real pair when b² - 4ac ≥ 0 and the conjugate pair
   * when it is negative.
   */
  function QQuad(a: real, b: real, c: real, sqrt: real -> real): (q: Option<Roots>)
    requires NonNegativeSqrt(sqrt)
    ensures q.None? <==> a == 0.0 && b == 0.0
    ensures a == 0.0 && b != 0.0 ==> q == Some(Roots(-c / b, 0.0, 0.0, 0.0))
    ensures a != 0.0 && Discriminant(a, b, c) >= 0.0 ==> q.Some? && q.value.r1i == 0.0 && q.value.r2i == 0.0
    ensures a != 0.0 && Discriminant(a, b, c) < 0.0 ==>
      q.Some? && q.value.r1r == q.value.r2r == -b / (2.0 * a) && q.value.r2i == -q.value.r1i
  {
    if a == 0.0 then
      if b == 0.0 then None else Some(Roots(-c / b, 0.0, 0.0, 0.0))
    else
      var numi := Discriminant(a, b, c);
      if numi >= 0.0 then Some(RealPair(a, b, c, sqrt(numi)))
      else Some(ComplexPair(a, b, sqrt(-numi)))
  }

  /** The outcome of the source as written: it may divide by zero in the b ≥ 0 branch. */
  datatype Outcome = BadCoefficients | Solved(roots: Roots) | DividedByZero

  /** The real pair exactly as written: 2c is divided by y = -b - q without a guard. */
  function RealPairAsWritten(a: real, b: real, c: real, q: real): (r: Outcome)
    requires a != 0.0 && 0.0 <= q
    ensures r.DividedByZero? <==> b >= 0.0 && b + q == 0.0
  {
    if b < 0.0 then
      var y := -b + q;
      Solved(Roots(y / (2.0 * a), 0.0, (2.0 * c) / y, 0.0))
    else
      var y := -b - q;
      if y == 0.0 then DividedByZero else Solved(Roots((2.0 * c) / y, 0.0, y / (2.0 * a), 0.0))
  }

  /** `qquad` exactly as written. */
  function QQuadAsWritten(a: real, b: real, c: real, sqrt: real -> real): (q: Outcome)
    requires NonNegativeSqrt(sqrt)
    ensures q.DividedByZero? <==> a != 0.0 && b >= 0.0 && Discriminant(a, b, c) >= 0.0 && b + sqrt(Discriminant(a, b, c)) == 0.0
  {
    if a == 0.0 then
      if b == 0.0 then BadCoefficients else Solved(Roots(-c / b, 0.0, 0.0, 0.0))
    else
      var numi := Discriminant(a, b, c);
      if numi >= 0.0 then RealPairAsWritten(a, b, c, sqrt(numi))
      else Solved(ComplexPair(a, b, sqrt(-numi)))
  }

  /** x² = 0 (a = 1, b = c = 0) makes the source compute 0/0 for its first root. */
  lemma AsWrittenDividesZeroByZero(sqrt: real -> real)
    requires NonNegativeSqrt(sqrt) && sqrt(0.0) == 0.0
    ensures QQuadAsWritten(1.0, 0.0, 0.0, sqrt) == DividedByZero
  {
    assert Discriminant(1.0, 0.0, 0.0) == 0.0;
  }

  /** The corrected version gives the double root 0 of x² there. */
  lemma CorrectedDoubleRootAtZero(sqrt: real -> real)
    requires NonNegativeSqrt(sqrt) && sqrt(0.0) == 0.0
    ensures QQuad(1.0, 0.0, 0.0, sqrt) == Some(Roots(0.0, 0.0, 0.0, 0.0))
  {
    assert Discriminant(1.0, 0.0, 0.0) == 0.0;
  }

  /** Wherever the source does not divide by zero, the corrected version returns what it returns. */
  lemma CorrectionOnlyAtZeroDivisor(a: real, b: real, c: real, sqrt: real -> real)
    requires NonNegativeSqrt(sqrt) && !QQuadAsWritten(a, b, c, sqrt).DividedByZero?
    ensures QQuadAsWritten(a, b, c, sqrt).BadCoefficients? <==> QQuad(a, b, c, sqrt).None?
    ensures QQuadAsWritten(a, b, c, sqrt).Solved? ==> QQuad(a, b, c, sqrt) == Some(QQuadAsWritten(a, b, c, sqrt).roots)
  {
  }

  lemma MulCancel(x: real, y: real, d: real)
    requires d != 0.0 && x * d == y * d
    ensures x == y
  {
  }

  lemma DivTimes(x: real, d: real)
    requires d != 0.0
    ensures (x / d) * d == x
  {
  }

  lemma Assoc4(u: real, v: real, p: real, q: real)
    ensures (u * v) * (p * q) == (u * p) * (v * q)
  {
  }

  /** y·(-b - q) = b² - q² = 4ac when q is the exact square root of the discriminant. */
  lemma ConjugateProduct(a: real, b: real, c: real, q: real)
    requires q * q == b * b - 4.0 * a * c
    ensures (-b + q) * (-b - q) == 4.0 * a * c
    ensures (-b - q) * (-b + q) == 4.0 * a * c
  {
  }

  /**
   * For two numbers u = y/(2a) and v = 2c/y with y·z = 4ac: their product is
   * c/a and their sum is (y + z)/(2a), in multiplied-out form.
   */
  lemma QuotientPair(a: real, c: real, y: real, z: real, u: real, v: real)
    requires a != 0.0 && y != 0.0 && y * z == 4.0 * a * c
    requires u == y / (2.0 * a) && v == (2.0 * c) / y
    ensures a * (u * v) == c
    ensures 2.0 * a * (u + v) == y + z
  {
    DivTimes(y, 2.0 * a);
    DivTimes(2.0 * c, y);
    assert u * (2.0 * a) == y;
    assert v * y == 2.0 * c;
    Assoc4(u, v, 2.0 * a, y);
    assert (u * v) * ((2.0 * a) * y) == y * (2.0 * c);
    assert (a * (u * v)) * (2.0 * y) == c * (2.0 * y);
    MulCancel(a * (u * v), c, 2.0 * y);
    assert (v * (2.0 * a)) * y == (2.0 * c) * (2.0 * a);
    assert z * y == (2.0 * c) * (2.0 * a);
    MulCancel(v * (2.0 * a), z, y);
  }

  /** Vieta's formulas make each number a root of a·x² + b·x + c. */
  lemma VietaRoot(a: real, b: real, c: real, x: real, other: real)
    requires a * (x + other) == -b && a * (x * other) == c
    ensures a * x * x + b * x + c == 0.0
  {
    assert b * x == -(a * (x + other)) * x;
    assert a * (x * other) == (a * x) * other;
  }

  /** Vieta's formulas for the pair the source computes from y and z = the conjugate of y. */
  lemma PairVieta(a: real, b: real, c: real, y: real, z: real, u: real, v: real)
    requires a != 0.0 && y != 0.0 && y * z == 4.0 * a * c && y + z == -2.0 * b
    requires u == y / (2.0 * a) && v == (2.0 * c) / y
    ensures a * (u + v) == -b && a * (u * v) == c
  {
    QuotientPair(a, c, y, z, u, v);
    assert (2.0 * a) * (u + v) == 2.0 * (a * (u + v));
  }

  /** Both numbers satisfying Vieta's formulas are roots. */
  lemma VietaRoots(a: real, b: real, c: real, x: real, y: real)
    requires a * (x + y) == -b && a * (x * y) == c
    ensures a * x * x + b * x + c == 0.0 && a * y * y + b * y + c == 0.0
  {
    VietaRoot(a, b, c, x, y);
    assert y * x == x * y;
    VietaRoot(a, b, c, y, x);
  }

  /** The b < 0 branch: y = -b + q gives r1 = y/(2a) and r2 = 2c/y. */
  lemma VietaNegativeB(a: real, b: real, c: real, q: real, r1: real, r2: real)
    requires a != 0.0 && b < 0.0 && 0.0 <= q && q * q == b * b - 4.0 * a * c
    requires r1 == (-b + q) / (2.0 * a) && r2 == (2.0 * c) / (-b + q)
    ensures a * (r1 + r2) == -b && a * (r1 * r2) == c
  {
    ConjugateProduct(a, b, c, q);
    PairVieta(a, b, c, -b + q, -b - q, r1, r2);
  }

  /** The b ≥ 0 branch with y = -b - q ≠ 0: r1 = 2c/y and r2 = y/(2a). */
  lemma VietaNonNegativeB(a: real, b: real, c: real, q: real, r1: real, r2: real)
    requires a != 0.0 && -b - q != 0.0 && q * q == b * b - 4.0 * a * c
    requires r1 == (2.0 * c) / (-b - q) && r2 == (-b - q) / (2.0 * a)
    ensures a * (r1 + r2) == -b && a * (r1 * r2) == c
  {
    ConjugateProduct(a, b, c, q);
    PairVieta(a, b, c, -b - q, -b + q, r2, r1);
    assert r2 * r1 == r1 * r2;
  }

  /** The corrected case y = 0: b = 0 and q = 0, so c = 0 and both roots are 0. */
  lemma VietaDoubleZero(a: real, b: real, c: real, q: real, r1: real, r2: real)
    requires a != 0.0 && b >= 0.0 && 0.0 <= q && -b - q == 0.0 && q * q == b * b - 4.0 * a * c
    requires r1 == (-b + q) / (2.0 * a) && r2 == (-b - q) / (2.0 * a)
    ensures a * (r1 + r2) == -b && a * (r1 * r2) == c
  {
    assert b == 0.0 && q == 0.0;
    assert c * a == 0.0 * a;
    MulCancel(c, 0.0, a);
  }

  /** Vieta's formulas for the real pair, a·(r1 + r2) = -b and a·r1·r2 = c, when q² = b² - 4ac. */
  lemma RealPairVieta(a: real, b: real, c: real, q: real)
    requires a != 0.0 && 0.0 <= q && q * q == Discriminant(a, b, c)
    ensures var r := RealPair(a, b, c, q);
      a * (r.r1r + r.r2r) == -b && a * (r.r1r * r.r2r) == c
  {
    var r := RealPair(a, b, c, q);
    if b < 0.0 {
      VietaNegativeB(a, b, c, q, r.r1r, r.r2r);
    } else if -b - q != 0.0 {
      VietaNonNegativeB(a, b, c, q, r.r1r, r.r2r);
    } else {
      VietaDoubleZero(a, b, c, q, r.r1r, r.r2r);
    }
  }

  /** Each number of the real pair solves a·x² + b·x + c = 0 when q² = b² - 4ac. */
  lemma RealPairSolves(a: real, b: real, c: real, q: real, r1: real, r2: real)
    requires a != 0.0 && 0.0 <= q && q * q == Discriminant(a, b, c)
    requires r1 == RealPair(a, b, c, q).r1r && r2 == RealPair(a, b, c, q).r2r
    ensures Vieta(a, b, c, r1, r2) && IsRoot(a, b, c, r1) && IsRoot(a, b, c, r2)
  {
    RealPairVieta(a, b, c, q);
    VietaRoots(a, b, c, r1, r2);
  }

  /**
   * With sqrt exact at the discriminant, the real roots satisfy Vieta's
   * formulas and each solves a·x² + b·x + c = 0.
   */
  lemma RealRootsSolve(a: real, b: real, c: real, sqrt: real -> real)
    requires NonNegativeSqrt(sqrt) && a != 0.0 && Discriminant(a, b, c) >= 0.0
    requires ExactAt(sqrt, Discriminant(a, b, c))
    ensures var r := QQuad(a, b, c, sqrt).value;
      Vieta(a, b, c, r.r1r, r.r2r) && IsRoot(a, b, c, r.r1r) && IsRoot(a, b, c, r.r2r)
  {
    var q := sqrt(Discriminant(a, b, c));
    var r := RealPair(a, b, c, q);
    assert QQuad(a, b, c, sqrt) == Some(r);
    RealPairSolves(a, b, c, q, r.r1r, r.r2r);
  }

  /** The linear case solves b·x + c = 0. */
  lemma LinearRootSolves(b: real, c: real, sqrt: real -> real)
    requires NonNegativeSqrt(sqrt) && b != 0.0
    ensures b * QQuad(0.0, b, c, sqrt).value.r1r + c == 0.0
  {
    DivTimes(-c, b);
  }

  /**
   * The conjugate pair re1 ± i·im, re2 ± i·im solves a·z² + b·z + c = 0
   * over the complex numbers: a·(re1 + re2) = -b and a·|z|² = c.
   */
  predicate SolvesConjugate(a: real, b: real, c: real, re1: real, re2: real, im: real)
  {
    a * (re1 + re2) == -b && a * (re1 * re1 + im * im) == c
  }

  /** From u·2a = -b, v·2a = q and b² + q² = 4ac: a·(u² + v²) = c. */
  lemma ScaledModulus(a: real, b: real, c: real, q: real, u: real, v: real)
    requires a != 0.0 && u * (2.0 * a) == -b && v * (2.0 * a) == q && b * b + q * q == 4.0 * a * c
    ensures a * (u * u + v * v) == c
  {
    var den := 2.0 * a;
    assert (u * den) * (u * den) + (v * den) * (v * den) == 4.0 * a * c;
    Assoc4(u, u, den, den);
    Assoc4(v, v, den, den);
    assert (u * u + v * v) * (den * den) == 4.0 * a * c;
    assert (a * (u * u + v * v)) * (4.0 * a) == c * (4.0 * a);
    MulCancel(a * (u * u + v * v), c, 4.0 * a);
  }

  /** The pair -b/2a ± i·q/2a solves the equation when q² = 4ac - b². */
  lemma ComplexPairSolves(a: real, b: real, c: real, q: real)
    requires a != 0.0 && q * q == -Discriminant(a, b, c)
    ensures var r := ComplexPair(a, b, q); SolvesConjugate(a, b, c, r.r1r, r.r2r, r.r1i)
  {
    var den := 2.0 * a;
    var r := ComplexPair(a, b, q);
    DivTimes(-b, den);
    DivTimes(q, den);
    assert r.r1r * den == -b && r.r1i * den == q;
    ScaledModulus(a, b, c, q, r.r1r, r.r1i);
    assert a * (r.r1r + r.r2r) == -b by {
      assert (r.r1r + r.r2r) * a == r.r1r * den;
    }
  }

  /**
   * With sqrt exact at -(b² - 4ac) > 0, the conjugate pair has real parts
   * summing to -b/a and squared modulus c/a, so it solves the equation over
   * the complex numbers.
   */
  lemma ComplexRootsSolve(a: real, b: real, c: real, sqrt: real -> real)
    requires NonNegativeSqrt(sqrt) && a != 0.0 && Discriminant(a, b, c) < 0.0
    requires ExactAt(sqrt, -Discriminant(a, b, c))
    ensures var r := QQuad(a, b, c, sqrt).value; SolvesConjugate(a, b, c, r.r1r, r.r2r, r.r1i)
  {
    var q := sqrt(-Discriminant(a, b, c));
    assert QQuad(a, b, c, sqrt) == Some(ComplexPair(a, b, q));
    ComplexPairSolves(a, b, c, q);
  }
}
