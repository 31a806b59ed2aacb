/** Complex numbers over exact reals, with the arithmetic that the transform uses. */
module ComplexNumbers {

  datatype Complex = Complex(re: real, im: real)

  const ZERO := Complex(0.0, 0.0)
  const ONE := Complex(1.0, 0.0)
  const MINUS_ONE := Complex(-1.0, 0.0)

  function Plus(a: Complex, b: Complex): Complex {
    Complex(a.re + b.re, a.im + b.im)
  }

  function Sub(a: Complex, b: Complex): Complex {
    Complex(a.re - b.re, a.im - b.im)
  }

  function Mul(a: Complex, b: Complex): Complex {
    Complex(a.re * b.re - a.im * b.im, a.re * b.im + a.im * b.re)
  }

  function Conj(a: Complex): Complex {
    Complex(a.re, -a.im)
  }

  /** Division of both parts by a real number. */
  function Over(a: Complex, d: real): Complex
    requires d != 0.0
  {
    Complex(a.re / d, a.im / d)
  }

  function Norm2(a: Complex): real {
    a.re * a.re + a.im * a.im
  }

  lemma MulAssoc(a: Complex, b: Complex, c: Complex)
    ensures Mul(Mul(a, b), c) == Mul(a, Mul(b, c))
  {
  }

  lemma MulComm(a: Complex, b: Complex)
    ensures Mul(a, b) == Mul(b, a)
  {
  }

  lemma MulDistrib(a: Complex, b: Complex, c: Complex)
    ensures Mul(a, Plus(b, c)) == Plus(Mul(a, b), Mul(a, c))
    ensures Mul(Plus(b, c), a) == Plus(Mul(b, a), Mul(c, a))
  {
  }

  /** The associative, commutative and unit laws of addition used in the sums below. */
  lemma PlusLaws(a: Complex, b: Complex, c: Complex, d: Complex)
    ensures Plus(Plus(a, b), Plus(c, d)) == Plus(Plus(a, c), Plus(b, d))
    ensures Plus(Plus(a, b), c) == Plus(a, Plus(b, c))
    ensures Plus(a, b) == Plus(b, a)
    ensures Plus(a, ZERO) == a == Plus(ZERO, a)
  {
  }

  lemma UnitLaws(a: Complex, b: Complex)
    ensures Mul(a, ONE) == a == Mul(ONE, a)
    ensures Mul(a, ZERO) == ZERO == Mul(ZERO, a)
    ensures Mul(MINUS_ONE, b) == Sub(ZERO, b)
    ensures Plus(a, Sub(ZERO, b)) == Sub(a, b)
    ensures Plus(a, Mul(MINUS_ONE, a)) == ZERO
  {
  }

  lemma ConjLaws(a: Complex, b: Complex)
    ensures Conj(Mul(a, b)) == Mul(Conj(a), Conj(b))
    ensures Conj(Plus(a, b)) == Plus(Conj(a), Conj(b))
    ensures Conj(Conj(a)) == a
    ensures Conj(ZERO) == ZERO
  {
  }

  lemma OverLaws(a: Complex, b: Complex, d: real)
    requires d != 0.0
    ensures Over(Plus(a, b), d) == Plus(Over(a, d), Over(b, d))
    ensures Mul(Over(a, d), b) == Over(Mul(a, b), d)
  {
    hide Mul;
    SumOfQuotients(a.re, b.re, d);
    SumOfQuotients(a.im, b.im, d);
    OverMul(a, b, d);
  }

  lemma OverMul(a: Complex, b: Complex, d: real)
    requires d != 0.0
    ensures Mul(Over(a, d), b) == Over(Mul(a, b), d)
  {
    QuotientOfProducts(a.re, b.re, a.im, -b.im, d);
    QuotientOfProducts(a.re, b.im, a.im, b.re, d);
    assert a.im / d * -b.im == -(a.im / d * b.im) && a.im * -b.im == -(a.im * b.im);
  }

  lemma SumOfQuotients(x: real, y: real, d: real)
    requires d != 0.0
    ensures (x + y) / d == x / d + y / d
  {
  }

  lemma QuotientOfProducts(x: real, u: real, y: real, v: real, d: real)
    requires d != 0.0
    ensures (x * u + y * v) / d == x / d * u + y / d * v
  {
    var p, q := x / d, y / d;
    assert x == p * d && y == q * d;
    assert x * u + y * v == (p * u + q * v) * d by {
      assert x * u == (p * u) * d && y * v == (q * v) * d;
    }
  }

  lemma OverTimes(a: Complex, d: real)
    requires d != 0.0
    ensures Over(Mul(a, Complex(d, 0.0)), d) == a
  {
  }

  /** A number of modulus one that is idempotent is one. */
  lemma UnitIdempotent(a: Complex)
    requires Mul(a, a) == a && Norm2(a) == 1.0
    ensures a == ONE
  {
    assert Mul(Conj(a), Mul(a, a)) == Mul(Mul(Conj(a), a), a) by { MulAssoc(Conj(a), a, a); }
    assert Mul(Conj(a), a) == ONE;
  }

  /** On the unit circle the conjugate is the only inverse. */
  lemma UnitInverse(a: Complex, b: Complex)
    requires Mul(a, b) == ONE && Norm2(a) == 1.0
    ensures b == Conj(a)
  {
    MulAssoc(Conj(a), a, b);
    assert Mul(Conj(a), a) == ONE;
  }
}
