/** The discrete Fourier transform as a plain sum, and its inverse. */
module FourierTransform {
  import opened ComplexNumbers
  import opened PowersOfTwo

  type Twiddle = int -> Complex

  /** What `Wn_i(n, i, ..)` = cos(2 pi i / n) - sin(2 pi i / n) i supplies, as laws:
      a unit-modulus homomorphism that is -1 half way round. */
  ghost predicate IsTwiddle(W: Twiddle, n: nat) {
    && (forall a, b :: Hom(W, a, b))
    && (forall a :: Norm2(W(a)) == 1.0)
    && W(n / 2) == MINUS_ONE
  }

  ghost predicate Hom(W: Twiddle, a: int, b: int) {
    W(a + b) == Mul(W(a), W(b))
  }

  /** Bin `k` of the transform of the first `n` samples: the sum of x[j] W(j k). */
  function Bin(x: seq<Complex>, n: nat, k: int, W: Twiddle): Complex
    requires n <= |x|
  {
    if n == 0 then ZERO else Plus(Bin(x, n - 1, k, W), Mul(x[n - 1], W((n - 1) * k)))
  }

  function Dft(x: seq<Complex>, W: Twiddle): seq<Complex> {
    seq(|x|, k => Bin(x, |x|, k, W))
  }

  /** The conjugate twiddle, which drives the inverse transform. */
  function Reverse(W: Twiddle): Twiddle {
    (a: int) => W(-a)
  }

  function InverseDft(x: seq<Complex>, W: Twiddle): seq<Complex> {
    seq(|x|, k requires 0 <= k < |x| => Over(Bin(x, |x|, k, Reverse(W)), |x| as real))
  }

  // ---------- laws of twiddles ----------

  lemma TwiddleAdd(W: Twiddle, n: nat, a: int, b: int)
    requires IsTwiddle(W, n)
    ensures W(a + b) == Mul(W(a), W(b))
  {
    assert Hom(W, a, b);
  }

  lemma TwiddleZero(W: Twiddle, n: nat)
    requires IsTwiddle(W, n)
    ensures W(0) == ONE
  {
    TwiddleAdd(W, n, 0, 0);
    UnitIdempotent(W(0));
  }

  /** Going round any whole number of half turns. */
  lemma {:induction false} TwiddleHalfTurns(W: Twiddle, n: nat, t: nat)
    requires IsTwiddle(W, n)
    ensures W(t * (n / 2)) == if t % 2 == 0 then ONE else MINUS_ONE
  {
    var h := n / 2;
    TwiddleZero(W, n);
    assert W(h) == MINUS_ONE;
    hide IsTwiddle, Hom;
    if t > 0 {
      TwiddleHalfTurns(W, n, t - 1);
      assert t * h == (t - 1) * h + h;
      TwiddleAdd(W, n, (t - 1) * h, h);
      assert Mul(ONE, MINUS_ONE) == MINUS_ONE && Mul(MINUS_ONE, MINUS_ONE) == ONE;
      assert (t % 2 == 0) == ((t - 1) % 2 == 1);
    }
  }

  lemma ConjTwiddle(W: Twiddle, n: nat, a: int)
    requires IsTwiddle(W, n)
    ensures W(-a) == Conj(W(a))
  {
    TwiddleZero(W, n);
    TwiddleAdd(W, n, a, -a);
    UnitInverse(W(a), W(-a));
  }

  lemma ReverseIsTwiddle(W: Twiddle, n: nat)
    requires IsTwiddle(W, n)
    ensures IsTwiddle(Reverse(W), n)
  {
    var R := Reverse(W);
    forall a, b ensures Hom(R, a, b) {
      TwiddleAdd(W, n, -a, -b);
      assert -(a + b) == -a + -b;
    }
    ConjTwiddle(W, n, n / 2);
  }

  /** The powers of z, backwards with the conjugate. */
  function Power(z: Complex, k: nat): Complex {
    if k == 0 then ONE else Mul(z, Power(z, k - 1))
  }

  function Turn(z: Complex, a: int): Complex {
    if a >= 0 then Power(z, a) else Power(Conj(z), -a)
  }

  function Turns(z: Complex): Twiddle {
    (a: int) => Turn(z, a)
  }

  lemma UnitCancels(z: Complex, w: Complex)
    requires Norm2(z) == 1.0
    ensures Mul(z, Mul(Conj(z), w)) == w == Mul(Conj(z), Mul(z, w))
  {
    assert Mul(z, Conj(z)) == ONE == Mul(Conj(z), z);
    hide Mul;
    MulAssoc(z, Conj(z), w);
    MulAssoc(Conj(z), z, w);
    UnitLaws(w, ZERO);
  }

  lemma TurnNext(z: Complex, a: int)
    requires Norm2(z) == 1.0
    ensures Turn(z, a + 1) == Mul(z, Turn(z, a)) && Turn(z, a) == Mul(Conj(z), Turn(z, a + 1))
  {
    hide Mul, Conj, Norm2;
    UnitCancels(z, Turn(z, a + 1));
    UnitCancels(z, Turn(z, a));
  }

  lemma {:induction false} TurnSum(z: Complex, a: int, b: int)
    requires Norm2(z) == 1.0
    ensures Turn(z, a + b) == Mul(Turn(z, a), Turn(z, b))
    decreases if b >= 0 then b else -b
  {
    hide Mul, Conj, Norm2;
    UnitLaws(Turn(z, a), ZERO);
    if b > 0 {
      TurnSum(z, a, b - 1);
      TurnNext(z, b - 1);
      TurnNext(z, a + b - 1);
      MoveIn(z, Turn(z, a), Turn(z, b - 1));
    } else if b < 0 {
      TurnSum(z, a, b + 1);
      TurnNext(z, b);
      TurnNext(z, a + b);
      MoveIn(Conj(z), Turn(z, a), Turn(z, b + 1));
    }
  }

  lemma MoveIn(x: Complex, y: Complex, z: Complex)
    ensures Mul(x, Mul(y, z)) == Mul(y, Mul(x, z))
  {
    hide Mul;
    MulAssoc(x, y, z);
    MulAssoc(y, x, z);
    MulComm(x, y);
  }

  lemma {:induction false} PowerNorm(z: Complex, k: nat)
    requires Norm2(z) == 1.0
    ensures Norm2(Power(z, k)) == 1.0
  {
    if k > 0 {
      PowerNorm(z, k - 1);
      hide Mul, Norm2;
      NormMul(z, Power(z, k - 1));
    }
  }

  lemma NormMul(a: Complex, b: Complex)
    ensures Norm2(Mul(a, b)) == Norm2(a) * Norm2(b)
  {
    var p, q, r, s := a.re * b.re, a.im * b.im, a.re * b.im, a.im * b.re;
    assert p * q == r * s;
    assert p * p == (a.re * a.re) * (b.re * b.re) && q * q == (a.im * a.im) * (b.im * b.im);
    assert r * r == (a.re * a.re) * (b.im * b.im) && s * s == (a.im * a.im) * (b.re * b.re);
  }

  /** The powers of any number of modulus one whose n/2-th power is -1 satisfy the laws, as those of
      cos(2 pi / n) - i sin(2 pi / n) do. */
  lemma RootIsTwiddle(z: Complex, n: nat)
    requires Norm2(z) == 1.0 && Power(z, n / 2) == MINUS_ONE
    ensures IsTwiddle(Turns(z), n)
  {
    assert Norm2(Conj(z)) == 1.0;
    hide Mul, Norm2, Conj, Power;
    forall a, b ensures Hom(Turns(z), a, b) {
      TurnSum(z, a, b);
    }
    forall a: int ensures Norm2(Turns(z)(a)) == 1.0 {
      if a >= 0 {
        PowerNorm(z, a);
      } else {
        PowerNorm(Conj(z), -a);
      }
    }
  }

  /** And every twiddle is of that form: the laws say no more than that. */
  lemma TwiddleIsRoot(W: Twiddle, n: nat, a: int)
    requires IsTwiddle(W, n)
    ensures Norm2(W(1)) == 1.0 && Power(W(1), n / 2) == MINUS_ONE
    ensures W(a) == Turn(W(1), a)
  {
    assert W(n / 2) == MINUS_ONE;
    hide IsTwiddle, Power, Norm2, Mul;
    TwiddleTurns(W, n, a);
    TwiddleTurns(W, n, n / 2);
    TwiddleNorm(W, n, 1);
  }

  lemma TwiddleNorm(W: Twiddle, n: nat, a: int)
    requires IsTwiddle(W, n)
    ensures Norm2(W(a)) == 1.0
  {
  }

  lemma {:induction false} TwiddleTurns(W: Twiddle, n: nat, a: int)
    requires IsTwiddle(W, n)
    ensures W(a) == Turn(W(1), a)
    decreases if a >= 0 then a else -a
  {
    TwiddleNorm(W, n, 1);
    hide IsTwiddle, Mul, Norm2, Conj;
    if a == 0 {
      TwiddleZero(W, n);
    } else if a > 0 {
      TwiddleTurns(W, n, a - 1);
      TwiddleAdd(W, n, 1, a - 1);
      TurnNext(W(1), a - 1);
    } else {
      TwiddleTurns(W, n, a + 1);
      TwiddleAdd(W, n, -1, a + 1);
      ConjTwiddle(W, n, 1);
      TurnNext(W(1), a);
    }
  }

  /** cos(2 pi a / 4) - sin(2 pi a / 4) i, exactly. */
  function QuarterTurns(a: int): Complex {
    Quarter(a % 4)
  }

  function Quarter(r: int): Complex
    requires 0 <= r < 4
  {
    if r == 0 then ONE else if r == 1 then Complex(0.0, -1.0) else if r == 2 then MINUS_ONE else Complex(0.0, 1.0)
  }

  /** The laws are those of the values the code computes, here for four points. */
  lemma QuarterTurnsAreTwiddle()
    ensures IsTwiddle(QuarterTurns, 4)
  {
    hide QuarterTurns, Mul;
    forall a, b ensures Hom(QuarterTurns, a, b) {
      QuarterTurnsAdd(a, b);
    }
    forall a: int ensures Norm2(QuarterTurns(a)) == 1.0 && QuarterTurns(2) == MINUS_ONE {
      QuarterTurnsAdd(a, a);
    }
  }

  lemma QuarterTurnsAdd(a: int, b: int)
    ensures QuarterTurns(a + b) == Mul(QuarterTurns(a), QuarterTurns(b))
    ensures Norm2(QuarterTurns(a)) == 1.0 && QuarterTurns(2) == MINUS_ONE
  {
    hide Mul, Norm2;
    var r, s := a % 4, b % 4;
    assert (a + b) % 4 == if r + s < 4 then r + s else r + s - 4;
    QuarterMul(r, s);
  }

  lemma QuarterMul(r: int, s: int)
    requires 0 <= r < 4 && 0 <= s < 4
    ensures Quarter(if r + s < 4 then r + s else r + s - 4) == Mul(Quarter(r), Quarter(s))
    ensures Norm2(Quarter(r)) == 1.0
  {
    hide Mul, Norm2;
    QuarterTimes(Quarter(s));
  }

  lemma QuarterTimes(z: Complex)
    ensures Mul(Quarter(0), z) == z && Mul(Quarter(2), z) == Complex(-z.re, -z.im)
    ensures Mul(Quarter(1), z) == Complex(z.im, -z.re) && Mul(Quarter(3), z) == Complex(-z.im, z.re)
    ensures forall r :: 0 <= r < 4 ==> Norm2(Quarter(r)) == 1.0
  {
  }

  // ---------- orthogonality ----------

  /** The sum of W(d t) over t < c. */
  function Geo(c: nat, d: int, W: Twiddle): Complex {
    if c == 0 then ZERO else Plus(Geo(c - 1, d, W), W(d * (c - 1)))
  }

  lemma {:induction false} GeoShift(c: nat, e: nat, d: int, W: Twiddle, n: nat)
    requires IsTwiddle(W, n)
    ensures Geo(c + e, d, W) == Plus(Geo(c, d, W), Mul(W(d * c), Geo(e, d, W)))
  {
    hide IsTwiddle, Plus, Mul;
    if e == 0 {
      UnitLaws(W(d * c), ZERO);
      PlusLaws(Geo(c, d, W), ZERO, ZERO, ZERO);
    } else {
      GeoShift(c, e - 1, d, W, n);
      var g := Geo(e - 1, d, W);
      assert d * (c + e - 1) == d * c + d * (e - 1);
      TwiddleAdd(W, n, d * c, d * (e - 1));
      MulDistrib(W(d * c), g, W(d * (e - 1)));
      PlusLaws(Geo(c, d, W), Mul(W(d * c), g), Mul(W(d * c), W(d * (e - 1))), ZERO);
    }
  }

  /** Doubling a sum whose step goes an odd number of half turns cancels it. */
  lemma GeoDouble(c: nat, d: int, W: Twiddle, n: nat)
    requires IsTwiddle(W, n)
    ensures W(d * c) == MINUS_ONE ==> Geo(2 * c, d, W) == ZERO
    ensures Geo(c, d, W) == ZERO ==> Geo(2 * c, d, W) == ZERO
  {
    hide IsTwiddle, Plus, Mul;
    GeoShift(c, c, d, W, n);
    UnitLaws(Geo(c, d, W), ZERO);
    UnitLaws(W(d * c), ZERO);
    PlusLaws(ZERO, ZERO, ZERO, ZERO);
  }

  lemma {:induction false} GeoVanishes(m: nat, s: nat, d: nat, W: Twiddle, n: nat)
    requires IsTwiddle(W, n) && n == Pow2(m) * s
    requires d % Pow2(m) != 0
    ensures Geo(Pow2(m), d * s, W) == ZERO
  {
    hide IsTwiddle;
    var h := Pow2(m - 1);
    GeoDouble(h, d * s, W, n);
    assert n == 2 * (h * s) by { assert (2 * h) * s == 2 * (h * s); }
    assert (d * s) * h == d * (h * s);
    if d % 2 == 1 {
      TwiddleHalfTurns(W, n, d);
    } else {
      var e := d / 2;
      assert e % h != 0 by {
        if e % h == 0 {
          var q := e / h;
          assert e == q * h;
          assert d == q * (2 * h);
          DivModUnique(q, 0, 2 * h);
        }
      }
      assert h * (2 * s) == 2 * (h * s);
      assert e * (2 * s) == (2 * e) * s;
      GeoVanishes(m - 1, 2 * s, e, W, n);
    }
  }

  lemma {:induction false} GeoReverse(c: nat, d: int, W: Twiddle, n: nat)
    requires IsTwiddle(W, n)
    ensures Geo(c, -d, W) == Conj(Geo(c, d, W))
  {
    hide IsTwiddle, Plus;
    if c == 0 {
      ConjLaws(ZERO, ZERO);
    } else {
      GeoReverse(c - 1, d, W, n);
      assert -d * (c - 1) == -(d * (c - 1));
      ConjTwiddle(W, n, d * (c - 1));
      ConjLaws(Geo(c - 1, d, W), W(d * (c - 1)));
    }
  }

  lemma {:induction false} GeoOnes(c: nat, W: Twiddle, n: nat)
    requires IsTwiddle(W, n)
    ensures Geo(c, 0, W) == Complex(c as real, 0.0)
  {
    hide IsTwiddle;
    if c > 0 {
      GeoOnes(c - 1, W, n);
      TwiddleZero(W, n);
      assert 0 * (c - 1) == 0;
    }
  }

  /** The powers of W at a non-zero difference |d| < N sum to zero, and at d = 0 to N. */
  lemma Orthogonality(m: nat, d: int, W: Twiddle)
    requires IsTwiddle(W, Pow2(m)) && 0 - Pow2(m) < d < Pow2(m)
    ensures Geo(Pow2(m), d, W) == if d == 0 then Complex(Pow2(m) as real, 0.0) else ZERO
  {
    hide *;
    var n := Pow2(m);
    if d == 0 {
      GeoOnes(n, W, n);
    } else if d > 0 {
      GeoVanishes(m, 1, d, W, n);
      assert d * 1 == d;
    } else {
      GeoVanishes(m, 1, -d, W, n);
      assert -d * 1 == -d;
      GeoReverse(n, -d, W, n);
      ConjLaws(ZERO, ZERO);
    }
  }

  // ---------- the inverse undoes the transform ----------

  /** The sum over bins k < c of (bin k of the first j samples) W(-k i). */
  function Resynth(x: seq<Complex>, j: nat, c: nat, i: int, W: Twiddle): Complex
    requires j <= |x|
  {
    if c == 0 then ZERO
    else Plus(Resynth(x, j, c - 1, i, W), Mul(Bin(x, j, c - 1, W), W(-((c - 1) * i))))
  }

  /** One more sample adds that sample times a sum of powers of W: the two sums change places. */
  lemma {:induction false} ResynthStep(x: seq<Complex>, j: nat, c: nat, i: int, W: Twiddle, n: nat)
    requires j < |x| && IsTwiddle(W, n)
    ensures Resynth(x, j + 1, c, i, W) == Plus(Resynth(x, j, c, i, W), Mul(x[j], Geo(c, j - i, W)))
  {
    hide IsTwiddle, Plus, Mul;
    if c == 0 {
      UnitLaws(x[j], ZERO);
      PlusLaws(ZERO, ZERO, ZERO, ZERO);
    } else {
      ResynthStep(x, j, c - 1, i, W, n);
      var k := c - 1;
      var w := W(-(k * i));
      var b := Bin(x, j, k, W);
      MulDistrib(w, b, Mul(x[j], W(j * k)));
      MulAssoc(x[j], W(j * k), w);
      TwiddleAdd(W, n, j * k, -(k * i));
      assert j * k + -(k * i) == (j - i) * k;
      MulDistrib(x[j], Geo(k, j - i, W), W((j - i) * k));
      PlusLaws(Resynth(x, j, k, i, W), Mul(x[j], Geo(k, j - i, W)), Mul(b, w), Mul(x[j], W((j - i) * k)));
    }
  }

  lemma {:induction false} ResynthValue(x: seq<Complex>, j: nat, i: nat, m: nat, W: Twiddle)
    requires j <= |x| == Pow2(m) && i < |x| && IsTwiddle(W, Pow2(m))
    ensures Resynth(x, j, Pow2(m), i, W) == if i < j then Mul(x[i], Complex(Pow2(m) as real, 0.0)) else ZERO
  {
    hide IsTwiddle, Plus, Mul, Geo, Resynth;
    if j == 0 {
      ResynthNone(x, Pow2(m), i, W);
    } else {
      ResynthValue(x, j - 1, i, m, W);
      ResynthStep(x, j - 1, Pow2(m), i, W, Pow2(m));
      Orthogonality(m, j - 1 - i, W);
      UnitLaws(x[j - 1], ZERO);
      PlusLaws(Resynth(x, j - 1, Pow2(m), i, W), ZERO, ZERO, ZERO);
      PlusLaws(Mul(x[j - 1], Geo(Pow2(m), j - 1 - i, W)), ZERO, ZERO, ZERO);
    }
  }

  lemma {:induction false} ResynthNone(x: seq<Complex>, c: nat, i: int, W: Twiddle)
    ensures Resynth(x, 0, c, i, W) == ZERO
  {
    if c > 0 {
      ResynthNone(x, c - 1, i, W);
    }
  }

  lemma {:induction false} ResynthIsBin(x: seq<Complex>, c: nat, i: int, W: Twiddle)
    requires c <= |x|
    ensures Bin(Dft(x, W), c, i, Reverse(W)) == Resynth(x, |x|, c, i, W)
  {
    hide Plus, Mul;
    if c > 0 {
      ResynthIsBin(x, c - 1, i, W);
    }
  }

  /** The inverse transform gives back every sample exactly. */
  lemma InverseUndoes(x: seq<Complex>, m: nat, W: Twiddle)
    requires |x| == Pow2(m) && IsTwiddle(W, Pow2(m))
    ensures InverseDft(Dft(x, W), W) == x
  {
    hide IsTwiddle, Plus, Mul, Over, Pow2;
    var y := InverseDft(Dft(x, W), W);
    forall i: nat | i < |x| ensures y[i] == x[i] {
      ResynthIsBin(x, |x|, i, W);
      ResynthValue(x, |x|, i, m, W);
      OverTimes(x[i], |x| as real);
    }
  }

  /** ... and the transform undoes the inverse: the two are a bijection on arrays of length 2^m. */
  lemma TransformUndoes(x: seq<Complex>, m: nat, W: Twiddle)
    requires |x| == Pow2(m) && IsTwiddle(W, Pow2(m))
    ensures Dft(InverseDft(x, W), W) == x
  {
    hide IsTwiddle, Over, Bin;
    var R, n := Reverse(W), |x| as real;
    ReverseIsTwiddle(W, Pow2(m));
    InverseUndoes(x, m, R);
    var y := InverseDft(x, W);
    forall i: nat | i < |x| ensures Dft(y, W)[i] == x[i] {
      BinScales(Dft(x, R), y, |x|, i, n, W);
      BinSameTwiddle(Dft(x, R), |x|, i, W, Reverse(R));
      assert InverseDft(Dft(x, R), R)[i] == x[i];
    }
  }

  lemma {:induction false} BinScales(x: seq<Complex>, y: seq<Complex>, c: nat, k: int, n: real, W: Twiddle)
    requires c <= |x| == |y| && n != 0.0
    requires forall j :: 0 <= j < |x| ==> y[j] == Over(x[j], n)
    ensures Bin(y, c, k, W) == Over(Bin(x, c, k, W), n)
  {
    if c > 0 {
      BinScales(x, y, c - 1, k, n, W);
      OverLaws(Bin(x, c - 1, k, W), Mul(x[c - 1], W((c - 1) * k)), n);
      OverLaws(x[c - 1], W((c - 1) * k), n);
    }
  }

  lemma {:induction false} BinSameTwiddle(x: seq<Complex>, c: nat, k: int, V: Twiddle, W: Twiddle)
    requires c <= |x| && forall a :: V(a) == W(a)
    ensures Bin(x, c, k, V) == Bin(x, c, k, W)
  {
    if c > 0 {
      BinSameTwiddle(x, c - 1, k, V, W);
    }
  }

  // ---------- two known spectra ----------

  function Impulse(n: nat, at: nat): (x: seq<Complex>)
    ensures |x| == n
  {
    seq(n, i => if i == at then ONE else ZERO)
  }

  lemma {:induction false} ImpulseBin(n: nat, at: nat, c: nat, k: int, W: Twiddle)
    requires at < n && c <= n
    ensures Bin(Impulse(n, at), c, k, W) == if at < c then W(at * k) else ZERO
  {
    hide Plus, Mul;
    if c > 0 {
      ImpulseBin(n, at, c - 1, k, W);
      UnitLaws(W((c - 1) * k), ZERO);
      PlusLaws(W(at * k), ZERO, ZERO, ZERO);
      PlusLaws(W((c - 1) * k), ZERO, ZERO, ZERO);
      PlusLaws(ZERO, ZERO, ZERO, ZERO);
    }
  }

  /** A single impulse at sample j has the spectrum W(j k). */
  lemma ImpulseSpectrum(n: nat, at: nat, k: nat, W: Twiddle)
    requires at < n && k < n
    ensures Dft(Impulse(n, at), W)[k] == W(at * k)
  {
    ImpulseBin(n, at, n, k, W);
  }

  function Tone(n: nat, f: nat, W: Twiddle): (x: seq<Complex>)
    ensures |x| == n
  {
    seq(n, j => W(-(j * f)))
  }

  lemma {:induction false} ToneBin(n: nat, f: nat, c: nat, k: int, W: Twiddle)
    requires IsTwiddle(W, n) && c <= n
    ensures Bin(Tone(n, f, W), c, k, W) == Geo(c, k - f, W)
  {
    hide IsTwiddle, Plus, Mul;
    if c > 0 {
      ToneBin(n, f, c - 1, k, W);
      TwiddleAdd(W, n, -((c - 1) * f), (c - 1) * k);
      assert -((c - 1) * f) + (c - 1) * k == (k - f) * (c - 1);
    }
  }

  /** A pure tone of frequency f has one line in its spectrum, at bin f. */
  lemma ToneSpectrum(m: nat, f: nat, k: nat, W: Twiddle)
    requires IsTwiddle(W, Pow2(m)) && f < Pow2(m) && k < Pow2(m)
    ensures Dft(Tone(Pow2(m), f, W), W)[k] == if k == f then Complex(Pow2(m) as real, 0.0) else ZERO
  {
    hide IsTwiddle, Bin, Pow2;
    ToneBin(Pow2(m), f, Pow2(m), k, W);
    Orthogonality(m, k - f, W);
  }
}
