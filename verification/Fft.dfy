/** Bit reversal, and the reversed-carry counter that enumerates it. */
module BitReversal {
  import opened PowersOfTwo

  /** The `m`-bit reversal of `i`: the lowest bit becomes the highest. */
  function Rev(m: nat, i: nat): (r: nat)
    ensures r < Pow2(m)
  {
    if m == 0 then 0 else Weight(i % 2, Pow2(m - 1)) + Rev(m - 1, i / 2)
  }

  /** The value of bit `b` at weight `w`. */
  function Weight(b: nat, w: nat): nat {
    if b == 0 then 0 else w
  }

  lemma WeightTwice(b: nat, w: nat)
    ensures Weight(b, 2 * w) == 2 * Weight(b, w) && (b < 2 ==> Weight(b, 1) == b)
  {
  }

  lemma LowBit(i: nat) returns (q: nat, b: nat)
    ensures i == 2 * q + b && b < 2
  {
    q, b := i / 2, i % 2;
  }

  /** Putting bit `b` below the bits `q` puts it above their reversal. */
  lemma RevPut(m: nat, b: nat, q: nat)
    requires m > 0 && b < 2
    ensures Rev(m, 2 * q + b) == Weight(b, Pow2(m - 1)) + Rev(m - 1, q)
  {
    assert (2 * q + b) / 2 == q && (2 * q + b) % 2 == b;
  }

  lemma RevBase(b: nat)
    requires b < 2
    ensures Pow2(0) == 1 && Rev(0, 0) == 0 && Rev(1, Weight(b, 1)) == b
  {
  }

  /** Seen from the top bit: the highest bit becomes the lowest. */
  lemma {:induction false} RevTop(m: nat, b: nat, r: nat)
    requires m > 0 && b < 2 && r < Pow2(m - 1)
    ensures Rev(m, Weight(b, Pow2(m - 1)) + r) == 2 * Rev(m - 1, r) + b
  {
    hide Rev, Pow2, Weight;
    if m == 1 {
      RevBase(b);
    } else {
      Pow2Next(m - 1);
      var q, c := LowBit(r);
      RevTop(m - 1, b, q);
      RevTopStep(m - 1, b, q, c, Weight(b, Pow2(m - 2)) + q);
    }
  }

  lemma RevTopStep(m: nat, b: nat, q: nat, c: nat, t: nat)
    requires m > 0 && c < 2 && t == Weight(b, Pow2(m - 1)) + q
    requires Rev(m, t) == 2 * Rev(m - 1, q) + b
    ensures Rev(m + 1, Weight(b, Pow2(m)) + (2 * q + c)) == 2 * Rev(m, 2 * q + c) + b
  {
    hide Rev, Pow2, Weight;
    Pow2Next(m);
    WeightTwice(b, Pow2(m - 1));
    WeightTwice(c, Pow2(m - 1));
    RevPut(m, c, q);
    RevPut(m + 1, c, t);
    assert Weight(b, Pow2(m)) + (2 * q + c) == 2 * t + c;
  }

  lemma {:induction false} RevInvolution(m: nat, i: nat)
    requires i < Pow2(m)
    ensures Rev(m, Rev(m, i)) == i
  {
    hide Rev, Pow2, Weight;
    if m == 0 {
      RevBase(0);
    } else {
      Pow2Next(m);
      var q, b := LowBit(i);
      var r := Rev(m - 1, q);
      RevPut(m, b, q);
      RevInvolution(m - 1, q);
      RevTop(m, b, r);
      assert Rev(m, i) == Weight(b, Pow2(m - 1)) + r;
      assert Rev(m - 1, r) == q;
    }
  }

  lemma {:induction false} RevZero(m: nat)
    ensures Rev(m, 0) == 0
  {
    if m > 0 {
      RevZero(m - 1);
    }
  }

  lemma {:induction false} RevOnes(m: nat)
    ensures Rev(m, Pow2(m) - 1) == Pow2(m) - 1
  {
    if m > 0 {
      RevOnes(m - 1);
      assert (Pow2(m) - 1) / 2 == Pow2(m - 1) - 1;
    }
  }

  /** One carry step of the counter, or its end. */
  lemma RevCarry(m: nat, i: nat)
    requires i + 1 < Pow2(m)
    ensures m >= 1
    ensures i % 2 == 0 ==> Rev(m, i) < Pow2(m - 1) && Rev(m, i + 1) == Rev(m, i) + Pow2(m - 1)
    ensures i % 2 == 1 ==>
      && Rev(m, i) == Pow2(m - 1) + Rev(m - 1, i / 2)
      && Rev(m, i + 1) == Rev(m - 1, i / 2 + 1)
      && i / 2 + 1 < Pow2(m - 1)
  {
    assert Pow2(0) == 1;
    Pow2Next(m);
    RevPut(m, i % 2, i / 2);
    RevPut(m, (i + 1) % 2, (i + 1) / 2);
    hide Rev, Pow2;
    assert (i + 1) / 2 == if i % 2 == 0 then i / 2 else i / 2 + 1;
  }

  /** The reordered array. */
  predicate IsBitReversed<T(==)>(m: nat, before: seq<T>, after: seq<T>) {
    |before| == |after| == Pow2(m) && forall p: nat :: p < |before| ==> after[p] == before[Rev(m, p)]
  }
}

module Fft {
  import opened ComplexNumbers
  import opened PowersOfTwo
  import opened FourierTransform
  import opened BitReversal

  // ---------- decimation in time ----------

  function At(x: seq<Complex>, i: int): Complex {
    if 0 <= i < |x| then x[i] else ZERO
  }

  /** The `count`-point transform of x[start], x[start + stride], ... at bin `k`;
      `stride` multiplies the exponents because W stays the N-point twiddle. */
  function SubBin(x: seq<Complex>, start: nat, stride: nat, count: nat, k: nat, W: Twiddle): Complex {
    if count == 0 then ZERO
    else Plus(SubBin(x, start, stride, count - 1, k, W),
              Mul(At(x, start + (count - 1) * stride), W((count - 1) * (k * stride))))
  }

  /** Splitting into even and odd samples. */
  lemma {:induction false} SplitEvenOdd(x: seq<Complex>, start: nat, s: nat, c: nat, k: nat, W: Twiddle, n: nat)
    requires IsTwiddle(W, n)
    ensures SubBin(x, start, s, 2 * c, k, W) ==
            Plus(SubBin(x, start, 2 * s, c, k, W), Mul(SubBin(x, start + s, 2 * s, c, k, W), W(k * s)))
  {
    hide IsTwiddle, Plus, Mul, At;
    if c == 0 {
      UnitLaws(W(k * s), ZERO);
      PlusLaws(ZERO, ZERO, ZERO, ZERO);
    } else {
      var d := c - 1;
      SplitEvenOdd(x, start, s, d, k, W, n);
      var even, odd := SubBin(x, start, 2 * s, d, k, W), SubBin(x, start + s, 2 * s, d, k, W);
      var e, o := At(x, start + d * (2 * s)), At(x, start + s + d * (2 * s));
      assert 2 * d * s == d * (2 * s) && (2 * d + 1) * s == s + d * (2 * s);
      assert 2 * d * (k * s) == d * (k * (2 * s)) by { assert k * (2 * s) == 2 * (k * s); }
      assert (2 * d + 1) * (k * s) == d * (k * (2 * s)) + k * s;
      var we, w1 := W(d * (k * (2 * s))), W(k * s);
      TwiddleAdd(W, n, d * (k * (2 * s)), k * s);
      assert SubBin(x, start, s, 2 * c, k, W) ==
             Plus(Plus(SubBin(x, start, s, 2 * d, k, W), Mul(e, we)), Mul(o, Mul(we, w1))) by {
        assert SubBin(x, start, s, 2 * d + 1, k, W) == Plus(SubBin(x, start, s, 2 * d, k, W), Mul(e, we));
      }
      MulAssoc(o, we, w1);
      MulDistrib(w1, odd, Mul(o, we));
      PlusLaws(Plus(even, Mul(odd, w1)), Mul(e, we), Mul(Mul(o, we), w1), ZERO);
      PlusLaws(even, Mul(odd, w1), Mul(e, we), Mul(Mul(o, we), w1));
      PlusLaws(even, Mul(e, we), Mul(odd, w1), Mul(Mul(o, we), w1));
    }
  }

  /** Bins repeat after `h` when h strides go round a whole number of turns. */
  lemma {:induction false} BinsRepeat(x: seq<Complex>, start: nat, s: nat, c: nat, k: nat, h: nat, W: Twiddle, n: nat)
    requires IsTwiddle(W, n) && n % 2 == 0 && h * s == n
    ensures SubBin(x, start, s, c, k + h, W) == SubBin(x, start, s, c, k, W)
  {
    hide IsTwiddle, Plus, Mul, At;
    if c > 0 {
      var d := c - 1;
      BinsRepeat(x, start, s, d, k, h, W, n);
      assert d * ((k + h) * s) == d * (k * s) + 2 * d * (n / 2) by {
        assert (k + h) * s == k * s + n;
        assert 2 * d * (n / 2) == d * n;
      }
      TwiddleAdd(W, n, d * (k * s), 2 * d * (n / 2));
      TwiddleHalfTurns(W, n, 2 * d);
      UnitLaws(W(d * (k * s)), ZERO);
    }
  }

  /** What position `p` holds after `s` stages: block p / 2^s has its own 2^s-point transform. */
  function Node(x: seq<Complex>, M: nat, s: nat, p: nat, W: Twiddle): Complex
    requires s <= M
  {
    SubBin(x, Rev(M - s, Block(p, s)), Pow2(M - s), Pow2(s), p % Pow2(s), W)
  }

  lemma NodeStart(x: seq<Complex>, M: nat, p: nat, W: Twiddle, n: nat)
    requires IsTwiddle(W, n) && |x| == Pow2(M) && p < Pow2(M)
    ensures Node(x, M, 0, p, W) == x[Rev(M, p)]
  {
    hide IsTwiddle;
    var r, s := Rev(M, p), Pow2(M);
    assert p / Pow2(0) == p && p % Pow2(0) == 0;
    TwiddleZero(W, n);
    assert SubBin(x, r, s, 1, 0, W) == Plus(SubBin(x, r, s, 0, 0, W), Mul(At(x, r), W(0))) by {
      assert 0 * s == 0;
    }
    UnitLaws(x[r], ZERO);
  }

  lemma {:induction false} SubBinIsBin(x: seq<Complex>, c: nat, k: nat, W: Twiddle)
    requires c <= |x|
    ensures SubBin(x, 0, 1, c, k, W) == Bin(x, c, k, W)
  {
    if c > 0 {
      SubBinIsBin(x, c - 1, k, W);
      assert k * 1 == k && 0 + (c - 1) * 1 == c - 1;
    }
  }

  lemma NodeEnd(x: seq<Complex>, M: nat, p: nat, W: Twiddle)
    requires |x| == Pow2(M) && p < Pow2(M)
    ensures Node(x, M, M, p, W) == Dft(x, W)[p]
  {
    DivModUnique(0, p, Pow2(M));
    SubBinIsBin(x, |x|, p, W);
  }

  lemma NodeAt(x: seq<Complex>, M: nat, s: nat, g: nat, q: nat, W: Twiddle)
    requires s <= M && q < Pow2(s)
    ensures g * Pow2(s) >= 0
    ensures Node(x, M, s, g * Pow2(s) + q, W) == SubBin(x, Rev(M - s, g), Pow2(M - s), Pow2(s), q, W)
  {
    DivModUnique(g, q, Pow2(s));
  }

  /** Both halves of a 2b-point transform from the two b-point transforms of even and odd samples. */
  lemma HalfBins(x: seq<Complex>, r: nat, st: nat, b: nat, q: nat, W: Twiddle, n: nat)
    requires IsTwiddle(W, n) && 2 * (b * st) == n
    ensures
      var e, t := SubBin(x, r, 2 * st, b, q, W), Mul(SubBin(x, r + st, 2 * st, b, q, W), W(q * st));
      && SubBin(x, r, st, 2 * b, q, W) == Plus(e, t)
      && SubBin(x, r, st, 2 * b, q + b, W) == Sub(e, t)
  {
    hide IsTwiddle, Mul, Plus, Sub, SubBin;
    SplitEvenOdd(x, r, st, b, q, W, n);
    SplitEvenOdd(x, r, st, b, q + b, W, n);
    assert b * (2 * st) == n by { assert b * (2 * st) == 2 * (b * st); }
    BinsRepeat(x, r, 2 * st, b, q, b, W, n);
    BinsRepeat(x, r + st, 2 * st, b, q, b, W, n);
    var e, o, w := SubBin(x, r, 2 * st, b, q, W), SubBin(x, r + st, 2 * st, b, q, W), W(q * st);
    assert W((q + b) * st) == Mul(w, MINUS_ONE) by {
      assert (q + b) * st == q * st + 1 * (n / 2);
      TwiddleAdd(W, n, q * st, 1 * (n / 2));
      TwiddleHalfTurns(W, n, 1);
    }
    MulComm(Mul(o, w), MINUS_ONE);
    MulAssoc(o, w, MINUS_ONE);
    UnitLaws(e, Mul(o, w));
  }

  /** The butterfly: positions n and n + 2^s of group g move from stage s to stage s + 1. */
  lemma Butterfly(x: seq<Complex>, M: nat, s: nat, g: nat, q: nat, W: Twiddle)
    requires s < M && q < Pow2(s) && IsTwiddle(W, Pow2(M))
    ensures g * Pow2(s + 1) >= 0
    ensures
      var n := g * Pow2(s + 1) + q;
      var t := Mul(Node(x, M, s, n + Pow2(s), W), W(q * Pow2(M - s - 1)));
      && Node(x, M, s + 1, n, W) == Plus(Node(x, M, s, n, W), t)
      && Node(x, M, s + 1, n + Pow2(s), W) == Sub(Node(x, M, s, n, W), t)
  {
    hide IsTwiddle, Mul, Plus, Sub, SubBin, Node, Rev;
    var b, st := Pow2(s), Pow2(M - s - 1);
    Halves(M, s, g);
    NodeAt(x, M, s, 2 * g, q, W);
    NodeAt(x, M, s, 2 * g + 1, q, W);
    NodeAt(x, M, s + 1, g, q, W);
    NodeAt(x, M, s + 1, g, q + b, W);
    HalfBins(x, Rev(M - s - 1, g), st, b, q, W, Pow2(M));
  }

  /** The sizes of a stage and of its groups, and the reversed indices of a group's two halves. */
  lemma Halves(M: nat, s: nat, g: nat)
    requires s < M
    ensures Pow2(s + 1) == 2 * Pow2(s) && Pow2(M - s) == 2 * Pow2(M - s - 1)
    ensures 2 * (Pow2(s) * Pow2(M - s - 1)) == Pow2(M)
    ensures g * Pow2(s + 1) == 2 * g * Pow2(s) && (2 * g + 1) * Pow2(s) == g * Pow2(s + 1) + Pow2(s)
    ensures Rev(M - s, 2 * g) == Rev(M - s - 1, g)
    ensures Rev(M - s, 2 * g + 1) == Rev(M - s - 1, g) + Pow2(M - s - 1)
  {
    Pow2Next(s + 1);
    Pow2Next(M - s);
    Pow2Sum(s, M - s);
    RevHalves(M - s, g);
    hide Rev, Pow2;
    Doubled(Pow2(s), Pow2(M - s - 1));
    Doubled(g, Pow2(s));
    OneMore(2 * g, Pow2(s));
  }

  lemma RevHalves(m: nat, g: nat)
    requires m > 0
    ensures Rev(m, 2 * g) == Rev(m - 1, g) && Rev(m, 2 * g + 1) == Rev(m - 1, g) + Pow2(m - 1)
  {
    RevPut(m, 0, g);
    RevPut(m, 1, g);
    hide Rev, Pow2;
    assert (2 * g + 1) / 2 == g && (2 * g + 1) % 2 == 1;
  }
}
