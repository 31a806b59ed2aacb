/** The polygon of all lines that fit the data, and the frequency shift found from its corners. */
module PhasePolygon {
  import opened PhaseGeometry

  const MIN_INIT := 20.0

  function FindShift(slope: real, offset: real): real {
    var shift, shift2 := slope - offset / 600.0, slope + 0.3 - offset / 6000.0;
    var least := if shift2 < shift then shift2 else shift;
    if least < 0.0 then 0.0 else least
  }

  /** A frequency that leads the phase back within ten minutes, or within a hundred minutes and 0.3 ppm faster. */
  predicate OnTarget(slope: real, offset: real) {
    600.0 * slope <= offset || 6000.0 * (slope + 0.3) <= offset
  }

  /** `find_shift` is the least amount by which the slope must be lowered to be on target. */
  lemma ShiftMeans(slope: real, offset: real)
    ensures var x := FindShift(slope, offset);
      && x >= 0.0 && OnTarget(slope - x, offset)
      && forall target :: OnTarget(target, offset) && target <= slope ==> target <= slope - x
  {
  }

  /** The shift to the left or to the right that a line asks for. */
  function Shift(left: bool, L: Line): real {
    if left then FindShift(-L.slope, L.offset) else FindShift(L.slope, -L.offset)
  }

  /** What `polygon_point` calls on `lines` leave in l_min (or r_min). */
  ghost predicate LeastShift(left: bool, least: real, lines: set<Line>) {
    && least <= MIN_INIT
    && (forall L :: L in lines ==> least <= Shift(left, L))
    && (least == MIN_INIT || exists L :: L in lines && least == Shift(left, L))
  }

  /** Segment slopes after the start line's and not after the stop line's. */
  predicate InRange(hi: bool, L: Line, start: Line, stop: Line) {
    Strictly(hi, start.slope, L.slope) && Inside(hi, L.slope, stop.slope)
  }

  /** Those of the first `n` segments that are in range. */
  ghost function RangeOf(hi: bool, segs: seq<Line>, n: nat, start: Line, stop: Line): set<Line>
    requires n <= |segs|
  {
    set i | 0 <= i < n && InRange(hi, segs[i], start, stop) :: segs[i]
  }

  /** The lines that pass 4 hands to `polygon_point`. */
  ghost function Corners(upper: seq<Line>, lower: seq<Line>, saveMin: Line, saveMax: Line): set<Line> {
    {saveMin, saveMax} + RangeOf(true, upper, |upper|, saveMin, saveMax)
    + RangeOf(false, lower, |lower|, saveMax, saveMin)
  }

  /** A finished chain with the crossing that its pass chose. */
  ghost predicate Pass(s: seq<Sample>, hi: bool, v: seq<nat>, segs: seq<Line>, C: Line) {
    WholeChain(s, hi, v, segs) && exists j, m :: Crossing(s, hi, C, j, m)
  }

  // ---------- a shift is the least of two planes, so it has no dip between two corners ----------

  lemma Pencil(left: bool, s: seq<Sample>, p: nat, A: Line, B: Line, K: Line, least: real)
    requires p < |s| && Value(A, s, p) == Value(B, s, p) == Value(K, s, p)
    requires A.slope <= K.slope <= B.slope
    requires least <= Shift(left, A) && least <= Shift(left, B)
    ensures least <= Shift(left, K)
  {
    hide Shift;
    var h := s[p].t - s[|s| - 1].t;
    var x, y := K.slope - A.slope, B.slope - K.slope;
    assert K.slope * h == A.slope * h + x * h && B.slope * h == K.slope * h + y * h;
    PencilPlane(x, y, h, 600.0);
    PencilPlane(x, y, h, 6000.0);
    PencilShift(left, A, B, K, x * h, y * h, least);
  }

  /** Along the pencil a plane slope + offset / d changes by x (1 - h / d): up or down, but never a dip. */
  lemma PencilPlane(x: real, y: real, h: real, d: real)
    requires x >= 0.0 && y >= 0.0 && d > 0.0
    ensures (x - x * h / d >= 0.0 && y - y * h / d >= 0.0) || (x - x * h / d <= 0.0 && y - y * h / d <= 0.0)
  {
    var k := 1.0 - h / d;
    PlaneStep(x, h, d);
    PlaneStep(y, h, d);
    if k >= 0.0 {
      assert x * k >= 0.0 && y * k >= 0.0;
    } else {
      assert x * k <= 0.0 && y * k <= 0.0;
    }
  }

  lemma PlaneStep(x: real, h: real, d: real)
    requires d > 0.0
    ensures x - x * h / d == x * (1.0 - h / d)
  {
    var q := h / d;
    assert h == q * d;
    assert x * h == (x * q) * d;
  }

  lemma PencilShift(left: bool, A: Line, B: Line, K: Line, xh: real, yh: real, least: real)
    requires K.offset == A.offset - xh && B.offset == K.offset - yh
    requires var x, y := K.slope - A.slope, B.slope - K.slope;
      && ((x >= xh / 600.0 && y >= yh / 600.0) || (x <= xh / 600.0 && y <= yh / 600.0))
      && ((x >= xh / 6000.0 && y >= yh / 6000.0) || (x <= xh / 6000.0 && y <= yh / 6000.0))
    requires least <= Shift(left, A) && least <= Shift(left, B)
    ensures least <= Shift(left, K)
  {
  }

  lemma Upright(left: bool, A: Line, B: Line, K: Line, least: real)
    requires A.slope == K.slope == B.slope && A.offset <= K.offset <= B.offset
    requires least <= Shift(left, A) && least <= Shift(left, B)
    ensures least <= Shift(left, K)
  {
  }

  // ---------- any convex combination of the points handed over ----------

  /** A convex combination of lines, point by point: `x` of the first and the rest of the second. */
  datatype Mix = Point(L: Line) | Blend(x: real, first: Mix, second: Mix)

  ghost predicate Weighted(m: Mix) {
    m.Blend? ==> 0.0 <= m.x <= 1.0 && Weighted(m.first) && Weighted(m.second)
  }

  ghost function Points(m: Mix): set<Line> {
    match m
    case Point(L) => {L}
    case Blend(_, a, b) => Points(a) + Points(b)
  }

  function Between(x: real, a: real, b: real): real {
    x * a + (1.0 - x) * b
  }

  function LineOf(m: Mix): Line {
    match m
    case Point(L) => L
    case Blend(x, a, b) =>
      Line(Between(x, LineOf(a).slope, LineOf(b).slope), Between(x, LineOf(a).offset, LineOf(b).offset))
  }

  /** The two planes of `find_shift`, for the shift to the left or to the right. */
  function Plane(left: bool, steep: bool, L: Line): real {
    var slope, offset := if left then -L.slope else L.slope, if left then L.offset else -L.offset;
    if steep then slope - offset / 600.0 else slope + 0.3 - offset / 6000.0
  }

  /** A positive bound below a shift is a bound below both planes. */
  lemma ShiftIsLeastPlane(left: bool, least: real, L: Line)
    requires least > 0.0
    ensures least <= Shift(left, L) <==> least <= Plane(left, true, L) && least <= Plane(left, false, L)
  {
  }

  lemma BetweenBounds(x: real, a: real, b: real, least: real)
    requires 0.0 <= x <= 1.0 && least <= a && least <= b
    ensures least <= Between(x, a, b)
  {
    var p, q, y := a - least, b - least, 1.0 - x;
    Product(x, p);
    Product(y, q);
    assert x * a == x * least + x * p && y * b == y * least + y * q;
    assert x * least + y * least == least;
  }

  lemma Product(u: real, v: real)
    requires u >= 0.0 && v >= 0.0
    ensures u * v >= 0.0
  {
  }

  lemma BetweenScales(x: real, a: real, b: real, c: real, d: real)
    ensures Between(x, a, b) - Between(x, c, d) / 600.0 == Between(x, a - c / 600.0, b - d / 600.0)
    ensures Between(x, a, b) - Between(x, c, d) / 6000.0 == Between(x, a - c / 6000.0, b - d / 6000.0)
    ensures Between(x, a + 0.3, b + 0.3) == Between(x, a, b) + 0.3
    ensures Between(x, -a, -b) == -Between(x, a, b)
  {
  }

  /** Both planes are affine. */
  lemma PlaneOfBlend(left: bool, steep: bool, x: real, a: Mix, b: Mix)
    ensures Plane(left, steep, LineOf(Blend(x, a, b))) ==
            Between(x, Plane(left, steep, LineOf(a)), Plane(left, steep, LineOf(b)))
  {
    hide Between;
    var A, B := LineOf(a), LineOf(b);
    BetweenScales(x, A.slope, B.slope, 0.0, 0.0);
    BetweenScales(x, A.offset, B.offset, 0.0, 0.0);
    var p, q := if left then -A.slope else A.slope, if left then -B.slope else B.slope;
    var u, v := if left then A.offset else -A.offset, if left then B.offset else -B.offset;
    BetweenScales(x, p, q, u, v);
    BetweenScales(x, p + 0.3, q + 0.3, u, v);
    BetweenScales(x, p, q, 0.0, 0.0);
  }

  lemma {:induction false} MixBound(left: bool, steep: bool, least: real, m: Mix)
    requires Weighted(m) && forall L :: L in Points(m) ==> least <= Plane(left, steep, L)
    ensures least <= Plane(left, steep, LineOf(m))
  {
    if m.Blend? {
      hide Plane, Between;
      MixBound(left, steep, least, m.first);
      MixBound(left, steep, least, m.second);
      PlaneOfBlend(left, steep, m.x, m.first, m.second);
      BetweenBounds(m.x, Plane(left, steep, LineOf(m.first)), Plane(left, steep, LineOf(m.second)), least);
    }
  }

  /** Whatever lines were handed to `polygon_point`, l_min (r_min) is a lower bound of the shifts at all of their convex
      combinations: the shift is a concave least of two planes, clipped at zero. */
  lemma MixesAreBounded(left: bool, least: real, lines: set<Line>, m: Mix)
    requires LeastShift(left, least, lines) && Weighted(m) && Points(m) <= lines
    ensures least <= Shift(left, LineOf(m))
  {
    if least > 0.0 {
      forall L | L in Points(m) ensures least <= Plane(left, true, L) && least <= Plane(left, false, L) {
        ShiftIsLeastPlane(left, least, L);
      }
      MixBound(left, true, least, m);
      MixBound(left, false, least, m);
      ShiftIsLeastPlane(left, least, LineOf(m));
    }
  }

  ghost predicate BoundsMixes(lMin: real, rMin: real, lines: set<Line>) {
    forall m :: Weighted(m) && Points(m) <= lines ==> lMin <= Shift(true, LineOf(m)) && rMin <= Shift(false, LineOf(m))
  }

  lemma LeastBoundsMixes(lMin: real, rMin: real, lines: set<Line>)
    requires LeastShift(true, lMin, lines) && LeastShift(false, rMin, lines)
    ensures BoundsMixes(lMin, rMin, lines)
  {
    hide Shift, LeastShift, Points, Weighted;
    forall m | Weighted(m) && Points(m) <= lines
      ensures lMin <= Shift(true, LineOf(m)) && rMin <= Shift(false, LineOf(m))
    {
      MixesAreBounded(true, lMin, lines, m);
      MixesAreBounded(false, rMin, lines, m);
    }
  }

  // ---------- the gross shift ----------

  /** A line after the frequency was changed by `d`. */
  function Moved(L: Line, d: real): Line {
    L.(slope := L.slope + d)
  }

  /** The line asks for no shift to either side. */
  predicate Settles(L: Line) {
    Shift(true, L) == 0.0 == Shift(false, L)
  }

  function FindDf(lMin: real, rMin: real): (real, bool) {
    if lMin == 0.0 then (if rMin == 0.0 then (0.0, false) else (-rMin, false))
    else if rMin == 0.0 then (lMin, false) else (0.0, true)
  }

  /** Moving a line by a shift that it asks for settles it, and a line asks for a shift to one side at most. */
  lemma MovedSettles(L: Line)
    ensures Shift(true, L) == 0.0 || Shift(false, L) == 0.0
    ensures Settles(Moved(L, Shift(true, L) - Shift(false, L)))
  {
  }

  /** A smaller move leaves a part of the shift. */
  lemma SmallerMove(left: bool, L: Line, least: real, d: real)
    requires 0.0 < least <= Shift(left, L) && -least < d < least
    ensures Shift(left, Moved(L, d)) > 0.0
  {
  }

  /** Between a line that asks for nothing to the left and one that asks for nothing to the right there is one that asks
      for nothing at all. */
  lemma SettledBetween(A: Line, B: Line) returns (x: real)
    requires Shift(true, A) == 0.0 && Shift(false, B) == 0.0
    ensures 0.0 <= x <= 1.0 && Settles(LineOf(Blend(x, Point(A), Point(B))))
  {
    hide Shift, Between, Plane;
    var a, b := Plane(false, true, A), Plane(false, true, B);
    if Shift(false, A) == 0.0 {
      x := 1.0;
      BlendEnds(A, B);
    } else if Shift(true, B) == 0.0 {
      x := 0.0;
      BlendEnds(A, B);
    } else {
      SteepSides(A);
      SteepSides(B);
      x := b / (b - a);
      WeightIsProper(a, b, x);
      PlaneOfBlend(false, true, x, Point(A), Point(B));
      SteepZeroSettles(LineOf(Blend(x, Point(A), Point(B))));
    }
  }

  lemma WeightIsProper(a: real, b: real, x: real)
    requires a > 0.0 > b && x == b / (b - a)
    ensures 0.0 <= x <= 1.0 && Between(x, a, b) == 0.0
  {
    var d := a - b;
    assert x * d == -b;
    if x < 0.0 {
      Product(-x, d);
    }
    if x > 1.0 {
      Product(x - 1.0, d);
    }
    assert x * a + (1.0 - x) * b == x * d + b;
  }

  lemma BlendEnds(A: Line, B: Line)
    ensures LineOf(Blend(1.0, Point(A), Point(B))) == A && LineOf(Blend(0.0, Point(A), Point(B))) == B
  {
  }

  /** On which side of the steep target line a line lies, from the shifts it asks for. */
  lemma SteepSides(L: Line)
    ensures Shift(false, L) != 0.0 ==> Plane(false, true, L) > 0.0
    ensures Shift(true, L) != 0.0 ==> Plane(false, true, L) < 0.0
  {
  }

  lemma SteepZeroSettles(L: Line)
    requires Plane(false, true, L) == 0.0
    ensures Settles(L)
  {
  }

  /** The gross shift does its job. Unless both sides ask for a shift, some line spanned by those handed over settles
      when it is moved by it; and no smaller move settles any line handed over. */
  lemma GrossShift(lines: set<Line>, lMin: real, rMin: real, deltaF: real, bothSides: bool)
    requires LeastShift(true, lMin, lines) && LeastShift(false, rMin, lines)
    requires (deltaF, bothSides) == FindDf(lMin, rMin) && !bothSides
    ensures lMin < MIN_INIT && rMin < MIN_INIT ==>
              exists m :: Weighted(m) && Points(m) <= lines && Settles(Moved(LineOf(m), deltaF))
    ensures forall L, d :: L in lines && (if deltaF >= 0.0 then -deltaF < d < deltaF else deltaF < d < -deltaF) ==>
                             !Settles(Moved(L, d))
  {
    hide Shift, Plane, Between;
    ShiftsAreNatural(lines, lMin, rMin);
    if lMin < MIN_INIT && rMin < MIN_INIT {
      var A :| A in lines && lMin == Shift(true, A);
      var B :| B in lines && rMin == Shift(false, B);
      if lMin == 0.0 && rMin == 0.0 {
        var x := SettledBetween(A, B);
        var m := Blend(x, Point(A), Point(B));
        assert Moved(LineOf(m), 0.0) == LineOf(m);
        assert Weighted(Point(A)) && Weighted(Point(B));
        assert Weighted(m) && Points(m) <= lines;
      } else {
        var m := if rMin == 0.0 then Point(A) else Point(B);
        MovedSettles(A);
        MovedSettles(B);
        assert Weighted(m) && Points(m) <= lines && LineOf(m) in {A, B};
      }
    }
    forall L, d | L in lines && (if deltaF >= 0.0 then -deltaF < d < deltaF else deltaF < d < -deltaF)
      ensures !Settles(Moved(L, d))
    {
      if deltaF > 0.0 {
        SmallerMove(true, L, lMin, d);
      } else {
        SmallerMove(false, L, rMin, d);
      }
    }
  }

  lemma ShiftsAreNatural(lines: set<Line>, lMin: real, rMin: real)
    requires LeastShift(true, lMin, lines) && LeastShift(false, rMin, lines)
    ensures lMin >= 0.0 && rMin >= 0.0
  {
  }

  /** A convex combination of fitting lines fits. */
  lemma {:induction false} MixFits(s: seq<Sample>, m: Mix)
    requires |s| > 0 && Weighted(m) && forall L :: L in Points(m) ==> Feasible(s, L)
    ensures Feasible(s, LineOf(m))
  {
    if m.Blend? {
      hide Value, Between;
      MixFits(s, m.first);
      MixFits(s, m.second);
      var A, B := LineOf(m.first), LineOf(m.second);
      forall p: nat | p < |s| ensures s[p].lo <= Value(LineOf(m), s, p) <= s[p].hi {
        ValueOfBlend(s, m.x, A, B, p);
        BetweenBounds(m.x, Value(A, s, p), Value(B, s, p), s[p].lo);
        BetweenBounds(m.x, -Value(A, s, p), -Value(B, s, p), -s[p].hi);
        BetweenScales(m.x, Value(A, s, p), Value(B, s, p), 0.0, 0.0);
      }
    }
  }

  lemma ValueOfBlend(s: seq<Sample>, x: real, A: Line, B: Line, p: nat)
    requires p < |s|
    ensures Value(LineOf(Blend(x, Point(A), Point(B))), s, p) == Between(x, Value(A, s, p), Value(B, s, p))
  {
    var h := s[p].t - s[|s| - 1].t;
    var y := 1.0 - x;
    assert (x * A.slope + y * B.slope) * h == x * (A.slope * h) + y * (B.slope * h);
  }

  // ---------- one side of the polygon ----------

  /** The vertex that supports slope `x`: the last segment before it is not steeper, the next one is. */
  lemma {:induction false} FindCorner(hi: bool, segs: seq<Line>, x: real, n: nat) returns (c: nat)
    requires n <= |segs| && (n < |segs| ==> Strictly(hi, x, segs[n].slope))
    ensures c <= n
    ensures c > 0 ==> Inside(hi, segs[c - 1].slope, x)
    ensures c < |segs| ==> Strictly(hi, x, segs[c].slope)
    decreases n
  {
    if n == 0 || Inside(hi, segs[n - 1].slope, x) {
      c := n;
    } else {
      c := FindCorner(hi, segs, x, n - 1);
    }
  }

  /** A line through that vertex with that slope never crosses the curve. */
  lemma Supports(s: seq<Sample>, hi: bool, v: seq<nat>, segs: seq<Line>, c: nat, K: Line, p: nat)
    requires WholeChain(s, hi, v, segs) && c <= |segs| && p < |s|
    requires c > 0 ==> Inside(hi, segs[c - 1].slope, K.slope)
    requires c < |segs| ==> Inside(hi, K.slope, segs[c].slope)
    requires Value(K, s, v[c]) == Curve(s, hi, v[c])
    ensures Inside(hi, Value(K, s, p), Curve(s, hi, p))
  {
    hide Value;
    if p < v[c] {
      Envelope(s, hi, v, segs, c - 1, p);
      assert Tangent(s, hi, segs[c - 1], v[c - 1], v[c]);
      Compare(K, segs[c - 1], s, p, v[c]);
    } else if v[c] < p {
      assert Tangent(s, hi, segs[c], v[c], v[c + 1]);
      Compare(K, segs[c], s, v[c], p);
    }
  }

  /** The start line of a side passes through the corner below its first steeper segment. */
  lemma StartAtCorner(s: seq<Sample>, hi: bool, v: seq<nat>, segs: seq<Line>, start: Line, x: real, c: nat)
    requires Pass(s, hi, v, segs, start) && c <= |segs| && Inside(hi, start.slope, x)
    requires c > 0 ==> Inside(hi, segs[c - 1].slope, start.slope)
    requires c < |segs| ==> Strictly(hi, x, segs[c].slope)
    ensures Value(start, s, v[c]) == Curve(s, hi, v[c])
  {
    hide Value;
    var j, m :| Crossing(s, hi, start, j, m);
    var i := CrossingAccepted(s, hi, v, segs, start, j, m);
    if i < c {
      Convex(s, hi, v, segs, i, c - 1);
    } else if c < i {
      Convex(s, hi, v, segs, c, i - 1);
    }
  }

  function Through(s: seq<Sample>, hi: bool, p: nat, slope: real): (K: Line)
    requires p < |s|
    ensures K.slope == slope && Value(K, s, p) == Curve(s, hi, p)
  {
    Line(slope, Curve(s, hi, p) - slope * (s[p].t - s[|s| - 1].t))
  }

  /** Of two parallel lines, the one further inside at one sample has the offset further inside. */
  lemma Parallel(s: seq<Sample>, hi: bool, p: nat, L: Line, K: Line)
    requires p < |s| && L.slope == K.slope && Inside(hi, Value(L, s, p), Value(K, s, p))
    ensures Inside(hi, L.offset, K.offset)
  {
    var x, y := L.slope * (s[p].t - s[|s| - 1].t), K.slope * (s[p].t - s[|s| - 1].t);
    assert x == y;
    assert Value(L, s, p) == L.offset + x && Value(K, s, p) == K.offset + y;
  }

  /** The stop line touches this curve somewhere, so it is the supporting line of its own slope. */
  lemma StopAtCorner(s: seq<Sample>, hi: bool, v: seq<nat>, segs: seq<Line>, stop: Line, m: nat, c: nat)
    requires WholeChain(s, hi, v, segs) && c <= |segs| && m < |s|
    requires Feasible(s, stop) && Value(stop, s, m) == Curve(s, hi, m)
    requires c > 0 ==> Inside(hi, segs[c - 1].slope, stop.slope)
    requires c < |segs| ==> Inside(hi, stop.slope, segs[c].slope)
    ensures Value(stop, s, v[c]) == Curve(s, hi, v[c])
  {
    hide Value, Through;
    var K := Through(s, hi, v[c], stop.slope);
    Supports(s, hi, v, segs, c, K, m);
    if m < v[c] {
      Compare(stop, K, s, m, v[c]);
    } else if v[c] < m {
      Compare(stop, K, s, v[c], m);
    }
  }

  /** The extreme line of slope x on this side is bounded by the corners it lies between. */
  lemma SideBound(s: seq<Sample>, hi: bool, v: seq<nat>, segs: seq<Line>, start: Line, stop: Line, m: nat,
                  left: bool, least: real, F: Line) returns (K: Line)
    requires Pass(s, hi, v, segs, start) && m < |s|
    requires Feasible(s, stop) && Value(stop, s, m) == Curve(s, hi, m)
    requires Feasible(s, F) && Inside(hi, start.slope, F.slope) && Inside(hi, F.slope, stop.slope)
    requires forall L :: L in {start, stop} + RangeOf(hi, segs, |segs|, start, stop) ==> least <= Shift(left, L)
    ensures K.slope == F.slope && Inside(hi, F.offset, K.offset) && least <= Shift(left, K)
  {
    var c := FindCorner(hi, segs, F.slope, |segs|);
    var p := v[c];
    K := Through(s, hi, p, F.slope);
    hide Value, Shift, Through;
    Parallel(s, hi, p, F, K);
    var A, B := start, stop;
    if c > 0 && Strictly(hi, start.slope, segs[c - 1].slope) {
      A := segs[c - 1];
      assert Tangent(s, hi, A, v[c - 1], p);
      assert A in RangeOf(hi, segs, |segs|, start, stop);
    } else {
      StartAtCorner(s, hi, v, segs, start, F.slope, c);
    }
    if c < |segs| && Inside(hi, segs[c].slope, stop.slope) {
      B := segs[c];
      assert Tangent(s, hi, B, p, v[c + 1]);
      assert B in RangeOf(hi, segs, |segs|, start, stop);
    } else {
      StopAtCorner(s, hi, v, segs, stop, m, c);
    }
    if hi {
      Pencil(left, s, p, A, B, K, least);
    } else {
      Pencil(left, s, p, B, A, K, least);
    }
  }

  /** A segment whose slope lies between two fitting lines' slopes is itself a fitting line. */
  lemma SegmentFits(s: seq<Sample>, hi: bool, v: seq<nat>, segs: seq<Line>, i: nat, start: Line, stop: Line)
    requires Chain(s, hi, v, segs) && i < |segs| && Feasible(s, start) && Feasible(s, stop)
    requires Inside(hi, start.slope, segs[i].slope) && Inside(hi, segs[i].slope, stop.slope)
    ensures Feasible(s, segs[i])
  {
    hide Value;
    var L, j := segs[i], v[i];
    assert Tangent(s, hi, L, j, v[i + 1]);
    forall p: nat | p < |s| ensures s[p].lo <= Value(L, s, p) <= s[p].hi {
      Envelope(s, hi, v, segs, i, p);
      if p < j {
        Compare(stop, L, s, p, j);
      } else if j < p {
        Compare(start, L, s, j, p);
      }
    }
  }

  /** Main result of pass 4: over ALL lines that fit the data, l_min (r_min) is the least shift asked for,
      capped at MIN_INIT, although only the corners were looked at. */
  lemma CornersDecide(s: seq<Sample>, up: seq<nat>, upper: seq<Line>, dn: seq<nat>, lower: seq<Line>,
                      saveMin: Line, saveMax: Line, left: bool, least: real, F: Line)
    requires Pass(s, true, up, upper, saveMin) && Pass(s, false, dn, lower, saveMax)
    requires LeastShift(left, least, Corners(upper, lower, saveMin, saveMax))
    requires Feasible(s, F)
    ensures least <= Shift(left, F)
    ensures least == MIN_INIT || exists L :: Feasible(s, L) && Shift(left, L) == least
  {
    hide Value, Shift;
    var j, m :| Crossing(s, true, saveMin, j, m);
    var j', m' :| Crossing(s, false, saveMax, j', m');
    CrossingIsExtreme(s, true, saveMin, j, m, F);
    CrossingIsExtreme(s, false, saveMax, j', m', F);
    var above := SideBound(s, true, up, upper, saveMin, saveMax, m', left, least, F);
    var below := SideBound(s, false, dn, lower, saveMax, saveMin, m, left, least, F);
    Upright(left, below, above, F, least);
    if least != MIN_INIT {
      var L :| L in Corners(upper, lower, saveMin, saveMax) && least == Shift(left, L);
      if L in RangeOf(true, upper, |upper|, saveMin, saveMax) {
        var i :| 0 <= i < |upper| && InRange(true, upper[i], saveMin, saveMax) && L == upper[i];
        SegmentFits(s, true, up, upper, i, saveMin, saveMax);
      } else if L in RangeOf(false, lower, |lower|, saveMax, saveMin) {
        var i :| 0 <= i < |lower| && InRange(false, lower[i], saveMax, saveMin) && L == lower[i];
        SegmentFits(s, false, dn, lower, i, saveMax, saveMin);
      }
    }
  }
}
