/** The `complex` record of the simulator and the helper operations on it
    (src/include/comSim_types.h:32-35, src/include/comMath.h:57-103).
    Components are exact reals instead of doubles. */
module ComplexArith {

  datatype Complex = Complex(re: real, im: real)

  const Zero := Complex(0.0, 0.0)

  /** conjComp: negates the imaginary part. */
  function Conj(z: Complex): (r: Complex)
    ensures r.re == z.re && r.im == -z.im
  {
    Complex(z.re, -z.im)
  }

  /** genComp: builds a value from its two components. */
  function Gen(re: real, im: real): (r: Complex)
    ensures r.re == re && r.im == im
  {
    Complex(re, im)
  }

  /** addComp: component-wise sum. */
  function Add(a: Complex, b: Complex): (r: Complex)
    ensures r.re == a.re + b.re && r.im == a.im + b.im
  {
    Gen(a.re + b.re, a.im + b.im)
  }

  /** mulComp: (a.re*b.re - a.im*b.im, a.re*b.im + a.im*b.re). It extends
      the real product, with 1 as its identity and 0 absorbing. */
  function Mul(a: Complex, b: Complex): (r: Complex)
    ensures a.im == 0.0 && b.im == 0.0 ==> r == Complex(a.re * b.re, 0.0)
    ensures b == Complex(1.0, 0.0) ==> r == a
    ensures a == Zero || b == Zero ==> r == Zero
  {
    Complex(a.re * b.re - a.im * b.im, a.re * b.im + a.im * b.re)
  }

  /** absSqrComp: re^2 + im^2. */
  function AbsSqr(z: Complex): (r: real)
    ensures r >= 0.0
  {
    SquarePositive(z.re);
    SquarePositive(z.im);
    z.re * z.re + z.im * z.im
  }

  lemma SquarePositive(x: real)
    ensures x * x >= 0.0
    ensures x != 0.0 ==> x * x > 0.0
  {
    if x > 0.0 {
      assert x * x > 0.0 * x;
    } else if x < 0.0 {
      assert x * x == (-x) * (-x);
      assert (-x) * (-x) > 0.0 * (-x);
    }
  }

  lemma PositiveProduct(x: real, y: real)
    requires x > 0.0 && y > 0.0
    ensures x * y > 0.0
  {
  }

  /** Squaring is strictly monotone on the non-negative reals. */
  lemma SquareMonotone(small: real, large: real)
    requires 0.0 <= small < large
    ensures small * small < large * large
  {
    var d, t := large - small, large + small;
    assert d > 0.0 && t > 0.0;
    PositiveProduct(d, t);
    assert large * large - small * small == d * t;
  }

  /** The threshold test `absComp(z) > m` of the complex correlation,
      stated without the square root: |z| >= 0 always, so a negative
      bound is always exceeded, and otherwise |z| > m is |z|^2 > m^2. */
  predicate AbsExceeds(z: Complex, m: real)
  {
    m < 0.0 || AbsSqr(z) > m * m
  }

  /** AbsExceeds is exactly `magnitude > m` for the non-negative square root
      of AbsSqr(z), whatever that root is. */
  lemma AbsExceedsIsMagnitudeTest(z: Complex, m: real, magnitude: real)
    requires magnitude >= 0.0 && magnitude * magnitude == AbsSqr(z)
    ensures AbsExceeds(z, m) <==> magnitude > m
  {
    if m >= 0.0 {
      if magnitude > m {
        SquareMonotone(m, magnitude);
      } else if magnitude < m {
        SquareMonotone(magnitude, m);
      }
    }
  }

  /** Conjugation is an involution. */
  lemma ConjInvolutive(z: Complex)
    ensures Conj(Conj(z)) == z
  {
  }

  /** The product is commutative. */
  lemma MulCommutes(a: Complex, b: Complex)
    ensures Mul(a, b) == Mul(b, a)
  {
  }

  /** Conjugation distributes over the product. */
  lemma ConjOfMul(a: Complex, b: Complex)
    ensures Conj(Mul(a, b)) == Mul(Conj(a), Conj(b))
  {
  }

  /** z times its conjugate is the real number |z|^2. */
  lemma MulConjIsAbsSqr(z: Complex)
    ensures Mul(z, Conj(z)) == Complex(AbsSqr(z), 0.0)
  {
  }

  /** A value is rebuilt from its own components. */
  lemma GenOfParts(z: Complex)
    ensures Gen(z.re, z.im) == z
  {
  }

  /** The sum is commutative and associative, with Zero as its identity. */
  lemma AddCommutes(a: Complex, b: Complex)
    ensures Add(a, b) == Add(b, a)
  {
  }

  lemma AddAssociates(a: Complex, b: Complex, c: Complex)
    ensures Add(Add(a, b), c) == Add(a, Add(b, c))
  {
  }

  lemma AddZero(a: Complex)
    ensures Add(a, Zero) == a && Add(Zero, a) == a
  {
  }

  /** Conjugation distributes over the sum. */
  lemma ConjOfAdd(a: Complex, b: Complex)
    ensures Conj(Add(a, b)) == Add(Conj(a), Conj(b))
  {
  }

  /** The product distributes over the sum. */
  lemma MulDistributesOverAdd(a: Complex, b: Complex, c: Complex)
    ensures Mul(a, Add(b, c)) == Add(Mul(a, b), Mul(a, c))
  {
  }

  /** The correlation term with the roles of the signals swapped is the
      conjugate: a * conj(b) == conj(b * conj(a)). */
  lemma MulConjSwap(a: Complex, b: Complex)
    ensures Mul(a, Conj(b)) == Conj(Mul(b, Conj(a)))
  {
  }

  /** |ab|^2 == |a|^2 |b|^2. */
  lemma AbsSqrOfMul(a: Complex, b: Complex)
    ensures AbsSqr(Mul(a, b)) == AbsSqr(a) * AbsSqr(b)
  {
    var p, q, r, s := a.re, a.im, b.re, b.im;
    calc {
      AbsSqr(Mul(a, b));
      (p * r - q * s) * (p * r - q * s) + (p * s + q * r) * (p * s + q * r);
      (p * p + q * q) * (r * r + s * s);
    }
  }
}
