/** The in-place transform and its inverse, loop by loop. */
module FftInPlace {
  import opened ComplexNumbers
  import opened PowersOfTwo
  import opened FourierTransform
  import opened BitReversal
  import opened Fft

  /** The number of stages. The loop never ends for N = 1, so N is at least 2. */
  method Levels(N: nat, ghost m: nat) returns (M: nat)
    requires m >= 1 && N == Pow2(m)
    ensures M == m
  {
    var i := N;
    M := 1;
    i := i / 2;
    while i != 1
      invariant 1 <= M <= m && i == Pow2(m - M)
      decreases m - M
    {
      M := M + 1;
      i := i / 2;
    }
  }

  /** Adding one to a counter whose bits are stored highest first. */
  method ReversedIncrement(N: nat, j: nat, ghost m: nat, ghost i: nat) returns (r: nat)
    requires N == Pow2(m) && i + 1 < N && j == Rev(m, i)
    ensures r == Rev(m, i + 1)
  {
    hide Rev;
    r := j;
    var k := N / 2;
    ghost var m': nat, i': nat := m, i;
    RevCarry(m, i);
    while k <= r
      invariant i' + 1 < Pow2(m') && m' >= 1 && k == Pow2(m' - 1)
      invariant r == Rev(m', i') && Rev(m, i + 1) == Rev(m', i' + 1)
      decreases r
    {
      RevCarry(m', i');
      r := r - k;
      k := k / 2;
      m', i' := m' - 1, i' / 2;
      RevCarry(m', i');
    }
    RevCarry(m', i');
    r := r + k;
  }

  /** The array once the reordering loop has passed every index below `i`. */
  ghost predicate PartlyReversed(y: seq<Complex>, x: seq<Complex>, m: nat, i: nat) {
    && |y| == |x| == Pow2(m)
    && forall p: nat :: p < |y| ==> y[p] == if p < i || Rev(m, p) < i then x[Rev(m, p)] else x[p]
  }

  function Swapped(y: seq<Complex>, i: nat, j: nat): seq<Complex>
    requires i < |y| && j < |y|
  {
    y[j := y[i]][i := y[j]]
  }

  /** One position `p` under the guarded swap of `i` and its reversal `j`; `r` is the reversal of p. */
  lemma SwapAt(y: seq<Complex>, x: seq<Complex>, i: nat, j: nat, p: nat, r: nat)
    requires |y| == |x| && i < |y| && j < |y| && p < |y| && r < |y|
    requires y[p] == (if p < i || r < i then x[r] else x[p])
    requires y[i] == (if j < i then x[j] else x[i]) && y[j] == (if j < i then x[i] else x[j])
    requires (r == i <==> p == j) && (p == i <==> r == j)
    ensures (if i < j then Swapped(y, i, j) else y)[p] == if p < i + 1 || r < i + 1 then x[r] else x[p]
  {
  }

  lemma SwapStep(y: seq<Complex>, x: seq<Complex>, m: nat, i: nat)
    requires PartlyReversed(y, x, m, i) && i < Pow2(m)
    ensures PartlyReversed(if i < Rev(m, i) then Swapped(y, i, Rev(m, i)) else y, x, m, i + 1)
  {
    hide Rev, Pow2, Swapped;
    var j := Rev(m, i);
    RevInvolution(m, i);
    var z := if i < j then Swapped(y, i, j) else y;
    SwapKeepsLength(y, i, j);
    forall p: nat | p < |y|
      ensures z[p] == if p < i + 1 || Rev(m, p) < i + 1 then x[Rev(m, p)] else x[p]
    {
      RevInvolution(m, p);
      SwapAt(y, x, i, j, p, Rev(m, p));
    }
  }

  lemma SwapKeepsLength(y: seq<Complex>, i: nat, j: nat)
    requires i < |y| && j < |y|
    ensures |Swapped(y, i, j)| == |y|
  {
  }

  lemma SwapEnds(y: seq<Complex>, x: seq<Complex>, m: nat)
    requires |y| == |x| == Pow2(m)
    ensures y == x ==> PartlyReversed(y, x, m, 1)
    ensures PartlyReversed(y, x, m, Pow2(m) - 1) ==> IsBitReversed(m, x, y)
  {
    forall p: nat | p < |y| ensures Rev(m, p) < 1 ==> p == Rev(m, p) == 0 { RevInvolution(m, p); RevZero(m); }
    forall p: nat | p < |y| ensures p == |y| - 1 ==> Rev(m, p) == p { RevOnes(m); }
    RevZero(m);
  }

  lemma RevOne(m: nat)
    requires m >= 1
    ensures Rev(m, 1) == Pow2(m) / 2
  {
    RevZero(m - 1);
    assert 1 % 2 * Pow2(m - 1) == Pow2(m - 1);
  }

  /** The reordering loop: position p ends up with the sample at its reversed index. */
  method Reorder(N: nat, f: array<Complex>, ghost m: nat)
    requires m >= 1 && N == Pow2(m) <= f.Length
    modifies f
    ensures IsBitReversed(m, old(f[..N]), f[..N])
    ensures f[N..] == old(f[N..])
  {
    hide PartlyReversed, IsBitReversed, Rev;
    ghost var x := f[..N];
    var i, j := 1, N / 2;
    RevOne(m);
    SwapEnds(x, x, m);
    while i <= N - 2
      invariant 1 <= i <= N - 1 && j == Rev(m, i)
      invariant PartlyReversed(f[..N], x, m, i)
      invariant f[N..] == old(f[N..])
    {
      ghost var y := f[..N];
      SwapStep(y, x, m, i);
      if i < j {
        var t := f[j];
        f[j] := f[i];
        f[i] := t;
        assert f[..N] == Swapped(y, i, j);
      }
      j := ReversedIncrement(N, j, m, i);
      i := i + 1;
    }
    SwapEnds(f[..N], x, m);
  }

  /** Position p has been reached by the butterfly loops of stage s + 1 at offset q, group g. */
  predicate Reached(p: nat, s: nat, q: nat, g: nat) {
    p % Pow2(s) < q || (p % Pow2(s) == q && Block(p, s + 1) < g)
  }

  ghost predicate Between(y: seq<Complex>, x: seq<Complex>, M: nat, s: nat, q: nat, g: nat, W: Twiddle) {
    && s < M && |y| == |x| == Pow2(M)
    && forall p: nat :: p < |y| ==> y[p] == Node(x, M, if Reached(p, s, q, g) then s + 1 else s, p, W)
  }

  ghost predicate AtStage(y: seq<Complex>, x: seq<Complex>, M: nat, s: nat, W: Twiddle) {
    s <= M && |y| == |x| == Pow2(M) && forall p: nat :: p < |y| ==> y[p] == Node(x, M, s, p, W)
  }

  /** Any position is G * 2b + q or G * 2b + b + q for its group G = p / 2b and offset q = p % b. */
  lemma HalfBlock(p: nat, b: nat)
    requires b > 0
    ensures 0 <= p % b < b
    ensures p == p / (2 * b) * (2 * b) + p % b || p == p / (2 * b) * (2 * b) + p % b + b
  {
    var d := 2 * b;
    var B, R := p / d, p % d;
    assert p == B * d + R;
    assert B * d == 2 * B * b && (2 * B + 1) * b == 2 * B * b + b;
    if R < b {
      DivModUnique(2 * B, R, b);
    } else {
      DivModUnique(2 * B + 1, R - b, b);
    }
  }

  lemma Compose(s: nat, g: nat, q: nat)
    requires q < Pow2(s)
    ensures g * Pow2(s + 1) >= 0
    ensures var n := g * Pow2(s + 1) + q;
      n % Pow2(s) == q == (n + Pow2(s)) % Pow2(s) && Block(n, s + 1) == g == Block(n + Pow2(s), s + 1)
  {
    var b := Pow2(s);
    assert g * (2 * b) == 2 * g * b && (2 * g + 1) * b == 2 * g * b + b;
    DivModUnique(g, q, 2 * b);
    DivModUnique(g, q + b, 2 * b);
    DivModUnique(2 * g, q, b);
    DivModUnique(2 * g + 1, q, b);
  }

  /** One butterfly newly reaches exactly its two ends. */
  lemma ReachedStep(p: nat, s: nat, q: nat, g: nat)
    requires q < Pow2(s)
    ensures g * Pow2(s + 1) >= 0
    ensures var n := g * Pow2(s + 1) + q;
      Reached(p, s, q, g + 1) <==> Reached(p, s, q, g) || p == n || p == n + Pow2(s)
  {
    HalfBlock(p, Pow2(s));
    Compose(s, g, q);
  }

  lemma EndsNotReached(s: nat, q: nat, g: nat)
    requires q < Pow2(s)
    ensures g * Pow2(s + 1) >= 0
    ensures var n := g * Pow2(s + 1) + q; !Reached(n, s, q, g) && !Reached(n + Pow2(s), s, q, g)
  {
    Compose(s, g, q);
  }

  lemma ButterflyStep(y: seq<Complex>, x: seq<Complex>, M: nat, s: nat, q: nat, g: nat, W: Twiddle)
    requires IsTwiddle(W, Pow2(M)) && Between(y, x, M, s, q, g, W)
    requires q < Pow2(s) && 0 <= g * Pow2(s + 1) + q < Pow2(M) - Pow2(s)
    ensures
      var n, lc := g * Pow2(s + 1) + q, g * Pow2(s + 1) + q + Pow2(s);
      var t := Mul(y[lc], W(q * Pow2(M - s - 1)));
      Between(y[lc := Sub(y[n], t)][n := Plus(y[n], t)], x, M, s, q, g + 1, W)
  {
    hide IsTwiddle, Mul, Sub, Plus, Node, Reached;
    var n, lc := g * Pow2(s + 1) + q, g * Pow2(s + 1) + q + Pow2(s);
    Butterfly(x, M, s, g, q, W);
    EndsNotReached(s, q, g);
    forall p: nat | p < |y|
      ensures Reached(p, s, q, g + 1) <==> Reached(p, s, q, g) || p == n || p == lc
    {
      ReachedStep(p, s, q, g);
    }
  }

  /** A stage has 2^(M-s-1) groups of length 2^(s+1). */
  lemma GroupBound(M: nat, s: nat, g: nat)
    requires s < M
    ensures g * Pow2(s + 1) >= 0
    ensures g < Pow2(M - s - 1) ==> g * Pow2(s + 1) <= Pow2(M) - Pow2(s + 1)
    ensures g >= Pow2(M - s - 1) ==> g * Pow2(s + 1) >= Pow2(M)
  {
    var G, la := Pow2(M - s - 1), Pow2(s + 1);
    Pow2Sum(M - s - 1, s + 1);
    assert (g - G) * la == g * la - Pow2(M);
    MulOrder(g - G, la);
  }

  /** Finishing an offset, starting a stage and finishing a stage only rename what was reached. */
  lemma BetweenEdges(y: seq<Complex>, x: seq<Complex>, M: nat, s: nat, q: nat, W: Twiddle)
    requires s < M
    ensures AtStage(y, x, M, s, W) ==> Between(y, x, M, s, 0, 0, W)
    ensures Between(y, x, M, s, q, Pow2(M - s - 1), W) ==> Between(y, x, M, s, q + 1, 0, W)
    ensures Between(y, x, M, s, Pow2(s), 0, W) ==> AtStage(y, x, M, s + 1, W)
  {
    hide Node, Pow2;
    var G := Pow2(M - s - 1);
    forall p: nat | p < Pow2(M)
      ensures !Reached(p, s, 0, 0) && Reached(p, s, Pow2(s), 0)
      ensures Reached(p, s, q, G) <==> Reached(p, s, q + 1, 0)
    {
      HalfBlock(p, Pow2(s));
      var R := p % Pow2(s + 1);
      assert p == Block(p, s + 1) * Pow2(s + 1) + R;
      GroupBound(M, s, Block(p, s + 1));
    }
  }

  method ButterflyAt(f: array<Complex>, n: nat, lc: nat, wn: Complex)
    requires n < lc < f.Length
    modifies f
    ensures f[..] == old(f[..])[lc := Sub(old(f[n]), Mul(old(f[lc]), wn))][n := Plus(old(f[n]), Mul(old(f[lc]), wn))]
  {
    var t := Mul(f[lc], wn);
    f[lc] := Sub(f[n], t);
    f[n] := Plus(f[n], t);
  }

  /** Offset `l` of stage `m`: one butterfly in each group. */
  method AllGroups(N: nat, f: array<Complex>, M: nat, m: nat, l: nat, W: Twiddle, ghost x: seq<Complex>)
    requires 1 <= m <= M && N == Pow2(M) == |x| <= f.Length && IsTwiddle(W, N)
    requires 1 <= l <= Pow2(m - 1)
    requires Between(f[..N], x, M, m - 1, l - 1, 0, W)
    modifies f
    ensures Between(f[..N], x, M, m - 1, l, 0, W)
    ensures f[N..] == old(f[N..])
  {
    hide IsTwiddle, Between, Mul, Plus, Sub, Pow2;
    var la, lb := Pow2(m), Pow2(m) / 2;
    ghost var s := m - 1;
    Halves(M, s, 0);
    var r := (l - 1) * Pow2(M - m);
    var n := l - 1;
    ghost var g: nat := 0;
    while n < N - 1
      invariant g <= Pow2(M - m) && n == g * la + (l - 1)
      invariant Between(f[..N], x, M, s, l - 1, g, W)
      invariant f[N..] == old(f[N..])
      decreases N - n
    {
      GroupBound(M, s, g);
      ghost var y, all := f[..N], f[..];
      var lc := n + lb;
      ButterflyAt(f, n, lc, W(r));
      assert f[..N] == f[..][..N] && f[N..] == f[..][N..] == all[N..];
      assert f[..N] == y[lc := Sub(y[n], Mul(y[lc], W(r)))][n := Plus(y[n], Mul(y[lc], W(r)))];
      ButterflyStep(y, x, M, s, l - 1, g, W);
      assert (g + 1) * la == g * la + la;
      n := n + la;
      g := g + 1;
    }
    GroupBound(M, s, g);
    BetweenEdges(f[..N], x, M, s, l - 1, W);
  }

  method Stage(N: nat, f: array<Complex>, M: nat, m: nat, W: Twiddle, ghost x: seq<Complex>)
    requires 1 <= m <= M && N == Pow2(M) == |x| <= f.Length && IsTwiddle(W, N)
    requires AtStage(f[..N], x, M, m - 1, W)
    modifies f
    ensures AtStage(f[..N], x, M, m, W)
    ensures f[N..] == old(f[N..])
  {
    hide IsTwiddle, Between, AtStage;
    BetweenEdges(f[..N], x, M, m - 1, 0, W);
    var lb := Pow2(m) / 2;
    var l := 1;
    while l <= lb
      invariant 1 <= l <= lb + 1
      invariant Between(f[..N], x, M, m - 1, l - 1, 0, W)
      invariant f[N..] == old(f[N..])
    {
      AllGroups(N, f, M, m, l, W, x);
      l := l + 1;
    }
    BetweenEdges(f[..N], x, M, m - 1, 0, W);
  }

  lemma FirstStage(y: seq<Complex>, x: seq<Complex>, M: nat, W: Twiddle)
    requires IsTwiddle(W, Pow2(M)) && IsBitReversed(M, x, y)
    ensures AtStage(y, x, M, 0, W)
  {
    hide IsTwiddle, Node;
    forall p: nat | p < |y| ensures y[p] == Node(x, M, 0, p, W) {
      NodeStart(x, M, p, W, Pow2(M));
    }
  }

  lemma LastStage(y: seq<Complex>, x: seq<Complex>, M: nat, W: Twiddle)
    requires AtStage(y, x, M, M, W)
    ensures y == Dft(x, W)
  {
    hide Node;
    forall p: nat | p < |y| ensures y[p] == Dft(x, W)[p] {
      NodeEnd(x, M, p, W);
    }
  }

  /** `_fft`: every bin of the first N samples, in place and in order. */
  method Transform(N: nat, f: array<Complex>, W: Twiddle, ghost m: nat)
    requires m >= 1 && N == Pow2(m) <= f.Length && IsTwiddle(W, N)
    modifies f
    ensures f[..N] == Dft(old(f[..N]), W)
    ensures f[N..] == old(f[N..])
  {
    hide IsTwiddle, AtStage, IsBitReversed;
    ghost var x := f[..N];
    var M := Levels(N, m);
    Reorder(N, f, m);
    FirstStage(f[..N], x, M, W);
    for s := 1 to M + 1
      invariant AtStage(f[..N], x, M, s - 1, W)
      invariant f[N..] == old(f[N..])
    {
      Stage(N, f, M, s, W, x);
    }
    LastStage(f[..N], x, M, W);
  }

  function ConjAll(x: seq<Complex>): seq<Complex> {
    seq(|x|, i requires 0 <= i < |x| => Conj(x[i]))
  }

  /** `conjugate_complex`, also when both parameters name the same array. */
  method ConjugateComplex(n: nat, source: array<Complex>, target: array<Complex>)
    requires n <= source.Length && n <= target.Length
    modifies target
    ensures target[..n] == ConjAll(old(source[..n]))
    ensures target[n..] == old(target[n..])
  {
    for i := 0 to n
      invariant forall j :: 0 <= j < i ==> target[j] == Conj(old(source[j]))
      invariant forall j :: i <= j < n ==> source[j] == old(source[j])
      invariant target[n..] == old(target[n..])
    {
      target[i] := Conj(source[i]);
    }
  }

  lemma {:induction false} ConjBin(x: seq<Complex>, c: nat, k: int, W: Twiddle, n: nat)
    requires c <= |x| && IsTwiddle(W, n)
    ensures Conj(Bin(ConjAll(x), c, k, W)) == Bin(x, c, k, Reverse(W))
  {
    hide IsTwiddle, Plus, Mul;
    if c == 0 {
      ConjLaws(ZERO, ZERO);
    } else {
      ConjBin(x, c - 1, k, W, n);
      var w := W((c - 1) * k);
      ConjLaws(Bin(ConjAll(x), c - 1, k, W), Mul(Conj(x[c - 1]), w));
      ConjLaws(Conj(x[c - 1]), w);
      ConjLaws(x[c - 1], w);
      ConjTwiddle(W, n, (c - 1) * k);
    }
  }

  /** `ifft`: conjugate, transform, conjugate, divide by N. */
  method InverseTransform(N: nat, f: array<Complex>, W: Twiddle, ghost m: nat)
    requires m >= 1 && N == Pow2(m) <= f.Length && IsTwiddle(W, N)
    modifies f
    ensures f[..N] == InverseDft(old(f[..N]), W)
    ensures f[N..] == old(f[N..])
  {
    hide IsTwiddle, Over, Conj, Plus, Mul, Bin, Pow2;
    ghost var x := f[..N];
    ConjugateComplex(N, f, f);
    Transform(N, f, W, m);
    ConjugateComplex(N, f, f);
    ghost var y := f[..N];
    forall k: nat | k < N ensures y[k] == Bin(x, N, k, Reverse(W)) {
      ConjBin(x, N, k, W, N);
    }
    for i := 0 to N
      invariant forall j :: 0 <= j < i ==> f[j] == Over(y[j], N as real)
      invariant forall j :: i <= j < N ==> f[j] == y[j]
      invariant f[N..] == old(f[N..])
    {
      f[i] := Over(f[i], N as real);
    }
  }

  /** The inverse after the transform leaves every array exactly as it was. */
  method RoundTrip(N: nat, f: array<Complex>, W: Twiddle, ghost m: nat)
    requires m >= 1 && N == Pow2(m) <= f.Length && IsTwiddle(W, N)
    modifies f
    ensures f[..] == old(f[..])
  {
    InverseUndoes(f[..N], m, W);
    assert f[..] == f[..N] + f[N..];
    Transform(N, f, W, m);
    InverseTransform(N, f, W, m);
    assert f[..] == f[..N] + f[N..];
  }
}
