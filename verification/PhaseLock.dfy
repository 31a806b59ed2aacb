/** The phase lock itself: a ring of sixteen measurements, walked in place. */
module PhaseLock {
  import opened PhaseGeometry
  import opened PhasePolygon

  const RING_SIZE := 16

  /** A measurement as it arrives; `absolute` counts whole seconds and fits 32 bits. */
  datatype Reading = Reading(absolute: nat, skew: real, errorbar: real, freq: int)

  /** A ring entry: the reading and its bounds corrected to the present frequency. */
  datatype Datum = Datum(r: Reading, smin: real, smax: real)

  datatype Verdict = Filling | Inconsistent | Box(saveMin: Line, saveMax: Line, deltaF: real, bothSides: bool)

  function NextUp(i: nat): nat {
    if i + 1 >= RING_SIZE then 0 else i + 1
  }

  function NextDn(i: nat): nat {
    if i == 0 then RING_SIZE - 1 else i - 1
  }

  /** Where the sample at time position `p` sits when the newest one is at `rp`. */
  function Slot(rp: nat, p: nat): nat {
    Wrap(rp + 1 + p)
  }

  /** Where the i-th of the last n readings sits when the next one goes to `rp`. */
  function HistSlot(rp: nat, n: nat, i: nat): nat
    requires n <= RING_SIZE
  {
    Wrap(rp + RING_SIZE - n + i)
  }

  function Wrap(x: nat): nat {
    if x < RING_SIZE then x else if x < 2 * RING_SIZE then x - RING_SIZE else x - 2 * RING_SIZE
  }

  lemma SlotStep(rp: nat, p: nat)
    requires rp < RING_SIZE && p <= RING_SIZE
    ensures Slot(rp, p) < RING_SIZE && NextUp(Slot(rp, p)) == Slot(rp, p + 1)
    ensures Slot(rp, p) == NextUp(rp) <==> p == 0 || p == RING_SIZE
    ensures Slot(rp, p) == rp <==> p == RING_SIZE - 1
    ensures Slot(rp, RING_SIZE - 1) == rp && Slot(rp, 0) == NextUp(rp)
  {
  }

  /** The drift that frequencies other than `freq` caused after reading `i`. */
  function Drift(h: seq<Reading>, i: nat, freq: int): real
    requires i < |h|
    decreases |h| - i
  {
    if i + 1 == |h| then 0.0
    else Drift(h, i + 1, freq) + DriftTerm(h[i + 1], h[i], freq)
  }

  /** Between two readings the clock ran at the later one's frequency instead of `freq`. */
  function DriftTerm(later: Reading, earlier: Reading, freq: int): real {
    (later.absolute - earlier.absolute) as real * (later.freq - freq) as real / 65536.0
  }

  function CorrectedSample(h: seq<Reading>, i: nat, freq: int): Sample
    requires i < |h|
  {
    var mid := h[i].skew - Drift(h, i, freq);
    Sample(h[i].absolute as real, mid - h[i].errorbar, mid + h[i].errorbar)
  }

  function Corrected(h: seq<Reading>, freq: int): (s: seq<Sample>)
    ensures |s| == |h|
  {
    seq(|h|, i requires 0 <= i < |h| => CorrectedSample(h, i, freq))
  }

  // ---------- what the correction of pass 1 is for ----------

  /** The middle of the corrected bounds. */
  function Middle(s: Sample): real {
    (s.lo + s.hi) / 2.0
  }

  /** A clock that drifts by `c` parts per million against the server and whose frequency setting in force before a
      reading was that reading's: the phase moves by what is left of the drift. */
  ghost predicate DriftsBy(h: seq<Reading>, c: real) {
    forall k {:trigger h[k]} :: 0 < k < |h| ==> PhaseStep(h[k - 1], h[k], c)
  }

  predicate PhaseStep(earlier: Reading, later: Reading, c: real) {
    later.skew - earlier.skew ==
    (later.absolute - earlier.absolute) as real * (c - later.freq as real / 65536.0)
  }

  /** The law of pass 1: whatever the settings were, the corrected samples of such a clock lie on one line, the one it
      would have followed at the present setting throughout, up to the error bars. */
  lemma {:induction false} CorrectionStraightens(h: seq<Reading>, freq: int, c: real, i: nat)
    requires i < |h| && DriftsBy(h, c)
    ensures var s := Corrected(h, freq);
      && s[i].hi - s[i].lo == 2.0 * h[i].errorbar
      && Middle(s[i]) == Value(Line(c - freq as real / 65536.0, h[|h| - 1].skew), s, i)
    decreases |h| - i
  {
    hide Corrected, DriftTerm, Drift, Value, Middle;
    var L := Line(c - freq as real / 65536.0, h[|h| - 1].skew);
    MiddleIs(h, i, freq);
    if i + 1 < |h| {
      CorrectionStraightens(h, freq, c, i + 1);
      MiddleIs(h, i + 1, freq);
      StepOnLine(h, freq, c, i, L);
    } else {
      ValueAtEnd(L, Corrected(h, freq));
    }
  }

  /** From one reading to the next the corrected phase moves along the line. */
  lemma StepOnLine(h: seq<Reading>, freq: int, c: real, i: nat, L: Line)
    requires i + 1 < |h| && DriftsBy(h, c) && L.slope == c - freq as real / 65536.0
    ensures var s := Corrected(h, freq);
      h[i + 1].skew - h[i].skew + DriftTerm(h[i + 1], h[i], freq) == Value(L, s, i + 1) - Value(L, s, i)
  {
    hide Corrected, DriftTerm, Value, PhaseStep, Drift, Middle;
    var s := Corrected(h, freq);
    var d := TimeStep(h, freq, i);
    assert PhaseStep(h[i], h[i + 1], c);
    StepStraightens(h[i], h[i + 1], freq, c, d, L.slope);
    ValueStep(L, s, i, d);
  }

  lemma TimeStep(h: seq<Reading>, freq: int, i: nat) returns (d: real)
    requires i + 1 < |h|
    ensures d == (h[i + 1].absolute - h[i].absolute) as real == Corrected(h, freq)[i + 1].t - Corrected(h, freq)[i].t
  {
    hide Drift;
    d := (h[i + 1].absolute - h[i].absolute) as real;
    MiddleIs(h, i, freq);
    MiddleIs(h, i + 1, freq);
  }

  lemma MiddleIs(h: seq<Reading>, i: nat, freq: int)
    requires i < |h|
    ensures var s := Corrected(h, freq);
      && Middle(s[i]) == h[i].skew - Drift(h, i, freq) && s[i].t == h[i].absolute as real
      && s[i].hi - s[i].lo == 2.0 * h[i].errorbar
    ensures i + 1 < |h| ==> Drift(h, i, freq) == Drift(h, i + 1, freq) + DriftTerm(h[i + 1], h[i], freq)
    ensures i + 1 == |h| ==> Drift(h, i, freq) == 0.0
  {
    hide DriftTerm;
  }

  lemma ValueAtEnd(L: Line, s: seq<Sample>)
    requires |s| > 0
    ensures Value(L, s, |s| - 1) == L.offset
  {
  }

  lemma StepStraightens(earlier: Reading, later: Reading, freq: int, c: real, d: real, slope: real)
    requires PhaseStep(earlier, later, c) && d == (later.absolute - earlier.absolute) as real
    requires slope == c - freq as real / 65536.0
    ensures later.skew - earlier.skew + DriftTerm(later, earlier, freq) == slope * d
  {
    var f, g := later.freq as real, freq as real;
    assert (later.freq - freq) as real == f - g;
    Spread(d, f, g, c);
  }

  lemma Spread(d: real, f: real, g: real, c: real)
    ensures d * (c - f / 65536.0) + d * (f - g) / 65536.0 == (c - g / 65536.0) * d
  {
    var p, q := f / 65536.0, g / 65536.0;
    assert d * (f - g) / 65536.0 == d * (p - q) by {
      assert f - g == (p - q) * 65536.0;
      assert d * (f - g) == (d * (p - q)) * 65536.0;
    }
    assert d * (c - p) == d * c - d * p && d * (p - q) == d * p - d * q && (c - q) * d == c * d - q * d;
  }

  lemma ValueStep(L: Line, s: seq<Sample>, i: nat, d: real)
    requires i + 1 < |s| && d == s[i + 1].t - s[i].t
    ensures Value(L, s, i + 1) - Value(L, s, i) == L.slope * d
  {
    var T := s[|s| - 1].t;
    assert L.slope * (s[i + 1].t - T) - L.slope * (s[i].t - T) == L.slope * d;
  }

  /** Correcting to a setting that is lower by `k` turns the samples: each of them moves as a line does whose slope
      rises by `k` / 65536. */
  lemma {:induction false} DriftTurns(h: seq<Reading>, i: nat, freq: int, k: int)
    requires i < |h|
    ensures Drift(h, i, freq - k) ==
            Drift(h, i, freq) + (h[|h| - 1].absolute - h[i].absolute) as real * (k as real / 65536.0)
    decreases |h| - i
  {
    if i + 1 < |h| {
      DriftTurns(h, i + 1, freq, k);
      TermTurns(h[i + 1], h[i], freq, k);
      var x := k as real / 65536.0;
      var T: int, a: int, b: int := h[|h| - 1].absolute, h[i].absolute, h[i + 1].absolute;
      assert (T - a) as real == (T - b) as real + (b - a) as real;
      assert (T - a) as real * x == (T - b) as real * x + (b - a) as real * x;
    }
  }

  lemma TermTurns(later: Reading, earlier: Reading, freq: int, k: int)
    ensures DriftTerm(later, earlier, freq - k) ==
            DriftTerm(later, earlier, freq) + (later.absolute - earlier.absolute) as real * (k as real / 65536.0)
  {
    var d, f, x := (later.absolute - earlier.absolute) as real, (later.freq - freq) as real, k as real;
    assert (later.freq - (freq - k)) as real == f + x;
    var p, q := f / 65536.0, x / 65536.0;
    assert d * f / 65536.0 == d * p by { assert d * f == (d * p) * 65536.0; }
    assert d * (f + x) / 65536.0 == d * (p + q) by { assert d * (f + x) == (d * (p + q)) * 65536.0; }
    assert d * (p + q) == d * p + d * q;
  }

  /** So a line fits the samples exactly when the line turned by the same amount fits those of the lower setting. */
  lemma RetuningTurns(h: seq<Reading>, freq: int, k: int, L: Line)
    ensures Feasible(Corrected(h, freq), L) <==> Feasible(Corrected(h, freq - k), Moved(L, k as real / 65536.0))
  {
    var s, t, x := Corrected(h, freq), Corrected(h, freq - k), k as real / 65536.0;
    forall p: nat | p < |h|
      ensures t[p].lo - Value(Moved(L, x), t, p) == s[p].lo - Value(L, s, p)
      ensures t[p].hi - Value(Moved(L, x), t, p) == s[p].hi - Value(L, s, p)
    {
      DriftTurns(h, p, freq, k);
      var d := s[p].t - s[|s| - 1].t;
      assert (L.slope + x) * d == L.slope * d + x * d;
      assert (h[|h| - 1].absolute - h[p].absolute) as real * x == -(x * d);
    }
  }

  ghost predicate Increasing(h: seq<Reading>) {
    && (forall i :: 0 <= i < |h| ==> h[i].absolute < 0x1_0000_0000)
    && forall i, j :: 0 <= i < j < |h| ==> h[i].absolute < h[j].absolute
  }

  function LastOf(h: seq<Reading>): seq<Reading> {
    if |h| > RING_SIZE then h[|h| - RING_SIZE..] else h
  }

  /** What a pass must have chosen among the crossings that start before sample `n`. */
  ghost predicate Chosen(s: seq<Sample>, hi: bool, chosen: bool, save: Line, n: nat) {
    && (chosen ==> exists j, m :: Crossing(s, hi, save, j, m))
    && forall C, j: nat, m: nat :: Crossing(s, hi, C, j, m) && j < n ==> chosen && save.slope <= C.slope
  }

  /** The range loop of pass 4 reaches segment `i` and finds it after `start`. */
  ghost predicate MetAt(hi: bool, segs: seq<Line>, start: Line, stop: Line, i: nat) {
    && i < |segs| && Strictly(hi, start.slope, segs[i].slope)
    && forall k :: 0 <= k < i ==> !Strictly(hi, stop.slope, segs[k].slope)
  }

  ghost predicate Met(hi: bool, segs: seq<Line>, n: nat, start: Line, stop: Line) {
    exists i: nat :: i < n && MetAt(hi, segs, start, stop, i)
  }

  /** A line through the two given points: slope first, then the offset as `search` computes it. */
  lemma LineThrough(s: seq<Sample>, j: nat, n: nat, a: real, b: real, L: Line)
    requires Ordered(s) && j < n < |s|
    requires L.slope == (b - a) / (s[n].t - s[j].t)
    requires L.offset == b + L.slope * (s[|s| - 1].t - s[n].t)
    ensures Value(L, s, j) == a && Value(L, s, n) == b
  {
    var T, d := s[|s| - 1].t, s[n].t - s[j].t;
    assert L.slope * d == b - a;
    assert L.slope * (s[j].t - T) == L.slope * (s[n].t - T) - L.slope * d;
    assert L.slope * (s[n].t - T) == -(L.slope * (T - s[n].t));
  }

  /** L runs from curve `near` at pj to curve `far` at p. */
  ghost predicate Joins(s: seq<Sample>, near: bool, far: bool, pj: nat, p: nat, L: Line) {
    pj < p < |s| && Value(L, s, pj) == Curve(s, near, pj) && Value(L, s, p) == Curve(s, far, p)
  }

  /** A is extreme among the lines from pj to the samples before p; it ends at pn. */
  ghost predicate Best(s: seq<Sample>, near: bool, far: bool, least: bool, pj: nat, p: nat, A: Line, pn: nat) {
    && pn < p <= |s| && Joins(s, near, far, pj, pn, A)
    && forall q :: pj < q < p ==> Inside(least, Value(A, s, q), Curve(s, far, q))
  }

  lemma BestMeans(s: seq<Sample>, near: bool, far: bool, least: bool, pj: nat, p: nat, A: Line, pn: nat)
    requires Best(s, near, far, least, pj, p, A, pn)
    ensures Joins(s, near, far, pj, pn, A)
    ensures forall q :: pj < q < p ==> Inside(least, Value(A, s, q), Curve(s, far, q))
  {
  }

  lemma BestStep(s: seq<Sample>, near: bool, far: bool, least: bool, pj: nat, p: nat, A: Line, pn: nat, L: Line)
    requires Ordered(s) && Joins(s, near, far, pj, p, L)
    ensures p == pj + 1 ==> Best(s, near, far, least, pj, p + 1, L, p)
    ensures Best(s, near, far, least, pj, p, A, pn) ==>
      if (L.slope < A.slope) == least then Best(s, near, far, least, pj, p + 1, L, p)
      else Best(s, near, far, least, pj, p + 1, A, pn)
  {
    hide Value;
    if Best(s, near, far, least, pj, p, A, pn) {
      forall q | pj < q <= p
        ensures Value(L, s, q) < Value(A, s, q) <==> L.slope < A.slope
      {
        Compare(A, L, s, pj, q);
      }
    }
  }

  lemma ChainStep(s: seq<Sample>, hi: bool, v: seq<nat>, segs: seq<Line>, seg: Line, k: nat)
    requires Chain(s, hi, v, segs) && Best(s, hi, hi, hi, v[|segs|], |s|, seg, k)
    ensures Chain(s, hi, v + [k], segs + [seg])
  {
    hide Value;
    assert Tangent(s, hi, seg, v[|segs|], k);
  }

  /** One vertex of the walk: the new segment, its check line, and the test that may replace `save`. */
  lemma VertexStep(s: seq<Sample>, hi: bool, v: seq<nat>, segs: seq<Line>, seg: Line, k: nat, C: Line, e: nat,
                   chosen: bool, save: Line)
    requires Chain(s, hi, v, segs) && Best(s, hi, hi, hi, v[|segs|], |s|, seg, k)
    requires Best(s, hi, !hi, !hi, v[|segs|], |s|, C, e)
    requires Chosen(s, hi, chosen, save, v[|segs|])
    ensures Chain(s, hi, v + [k], segs + [seg])
    ensures var take := Accepted(hi, LastSlope(hi, segs, |segs|), seg, C) && (!chosen || C.slope < save.slope);
      Chosen(s, hi, chosen || take, if take then C else save, k)
  {
    hide Value, Accepted;
    var v', segs', i := v + [k], segs + [seg], |segs|;
    ChainStep(s, hi, v, segs, seg, k);
    assert LastSlope(hi, segs', i) == LastSlope(hi, segs, i);
    assert Check(s, hi, C, v[i]);
    if Accepted(hi, LastSlope(hi, segs, i), seg, C) {
      AcceptedCrosses(s, hi, v', segs', i, C);
    }
    forall D, j: nat, m: nat | Crossing(s, hi, D, j, m) && v[i] <= j < k
      ensures D.slope == C.slope && Accepted(hi, LastSlope(hi, segs, i), seg, C)
    {
      var i' := CrossingAccepted(s, hi, v', segs', D, j, m);
      if i' < i {
        ChainIncreases(s, hi, v', segs', i', i);
        assert false;
      }
      AcceptedBySlope(hi, LastSlope(hi, segs, i), seg, C, D);
    }
  }

  lemma ChosenNone(s: seq<Sample>, hi: bool, save: Line)
    requires Ordered(s)
    ensures Chosen(s, hi, false, save, 0) && Chain(s, hi, [0], [])
  {
  }

  lemma LastSlopeStep(hi: bool, segs: seq<Line>, seg: Line)
    ensures LastSlope(hi, [], 0) == if hi then -500.0 else 500.0
    ensures LastSlope(hi, segs + [seg], |segs| + 1) == seg.slope
  {
  }

  lemma LeastShiftAdd(left: bool, least: real, lines: set<Line>, L: Line)
    requires LeastShift(left, least, lines)
    ensures LeastShift(left, if Shift(left, L) < least then Shift(left, L) else least, lines + {L})
  {
    hide Shift;
    var x := if Shift(left, L) < least then Shift(left, L) else least;
    if x != MIN_INIT {
      var K :| K in lines + {L} && x == Shift(left, K);
    }
  }

  ghost predicate Monotone(hi: bool, segs: seq<Line>) {
    forall i, j :: 0 <= i <= j < |segs| ==> Inside(hi, segs[i].slope, segs[j].slope)
  }

  /** One segment of the range loop: it is handed on exactly when it is in range. */
  lemma RangeStep(hi: bool, segs: seq<Line>, n: nat, start: Line, stop: Line)
    requires n < |segs| && Monotone(hi, segs)
    requires forall k :: 0 <= k < n ==> !Strictly(hi, stop.slope, segs[k].slope)
    ensures var on := Met(hi, segs, n, start, stop) || Strictly(hi, start.slope, segs[n].slope);
      && (on <==> Met(hi, segs, n + 1, start, stop))
      && (on && !Strictly(hi, stop.slope, segs[n].slope) <==> InRange(hi, segs[n], start, stop))
    ensures RangeOf(hi, segs, n + 1, start, stop)
         == RangeOf(hi, segs, n, start, stop) + if InRange(hi, segs[n], start, stop) then {segs[n]} else {}
  {
    assert Strictly(hi, start.slope, segs[n].slope) <==> MetAt(hi, segs, start, stop, n);
    if Met(hi, segs, n, start, stop) {
      var i: nat :| i < n && MetAt(hi, segs, start, stop, i);
      assert Inside(hi, segs[i].slope, segs[n].slope);
    }
  }

  /** From the first segment beyond `stop` on nothing more is in range or met. */
  lemma RangeEnds(hi: bool, segs: seq<Line>, n: nat, start: Line, stop: Line)
    requires n < |segs| && Strictly(hi, stop.slope, segs[n].slope) && Monotone(hi, segs)
    ensures RangeOf(hi, segs, |segs|, start, stop) == RangeOf(hi, segs, n, start, stop)
    ensures Met(hi, segs, |segs|, start, stop) <==> Met(hi, segs, n + 1, start, stop)
  {
    forall i | n <= i < |segs| ensures !InRange(hi, segs[i], start, stop) {
      assert Inside(hi, segs[n].slope, segs[i].slope);
    }
  }

  lemma AllConvex(s: seq<Sample>, hi: bool, v: seq<nat>, segs: seq<Line>)
    requires Chain(s, hi, v, segs)
    ensures Monotone(hi, segs)
  {
    forall i, j | 0 <= i <= j < |segs| ensures Inside(hi, segs[i].slope, segs[j].slope) {
      Convex(s, hi, v, segs, i, j);
    }
  }

  lemma RangeNone(hi: bool, segs: seq<Line>, start: Line, stop: Line)
    ensures RangeOf(hi, segs, 0, start, stop) == {} && !Met(hi, segs, 0, start, stop)
  {
  }

  lemma CorrectedOrdered(h: seq<Reading>, freq: int)
    requires Increasing(h) && |h| == RING_SIZE
    ensures Ordered(Corrected(h, freq)) && |Corrected(h, freq)| == RING_SIZE
  {
    var s := Corrected(h, freq);
    forall i, j | 0 <= i < j < |s| ensures s[i].t < s[j].t {
      assert h[i].absolute < h[j].absolute;
    }
  }

  /** What a box says about every line that fits the sixteen samples. */
  ghost predicate BoxFits(s: seq<Sample>, saveMin: Line, saveMax: Line, lMin: real, rMin: real) {
    && Feasible(s, saveMin) && Feasible(s, saveMax)
    && (forall F :: Feasible(s, F) ==> saveMin.slope <= F.slope <= saveMax.slope)
    && (forall F :: Feasible(s, F) ==> lMin <= Shift(true, F) && rMin <= Shift(false, F))
    && (lMin == 20.0 || exists L :: Feasible(s, L) && Shift(true, L) == lMin)
    && (rMin == 20.0 || exists L :: Feasible(s, L) && Shift(false, L) == rMin)
  }

  /** Two crossings, one of each kind, already prove that the data are consistent. */
  lemma CrossingsFit(s: seq<Sample>, smin: Line, smax: Line)
    requires Ordered(s) && Proper(s)
    requires (exists j, m :: Crossing(s, true, smin, j, m)) && (exists j, m :: Crossing(s, false, smax, j, m))
    ensures Feasible(s, smin) && Feasible(s, smax)
    ensures forall F :: Feasible(s, F) ==> smin.slope <= F.slope <= smax.slope
  {
    hide Value, Feasible;
    var j, m :| Crossing(s, true, smin, j, m);
    var j', m' :| Crossing(s, false, smax, j', m');
    if j' <= j {
      LaterCrossingFits(s, true, smin, j, m, smax, j', m');
    } else {
      LaterCrossingFits(s, false, smax, j', m', smin, j, m);
    }
    var G := if j' <= j then smin else smax;
    CrossingIsExtreme(s, true, smin, j, m, G);
    CrossingIsExtreme(s, false, smax, j', m', G);
    forall F | Feasible(s, F) ensures smin.slope <= F.slope <= smax.slope {
      CrossingIsExtreme(s, true, smin, j, m, F);
      CrossingIsExtreme(s, false, smax, j', m', F);
    }
  }

  lemma BoxFitsAll(s: seq<Sample>, up: seq<nat>, upper: seq<Line>, dn: seq<nat>, lower: seq<Line>,
                   saveMin: Line, saveMax: Line, lMin: real, rMin: real)
    requires Pass(s, true, up, upper, saveMin) && Pass(s, false, dn, lower, saveMax)
    requires LeastShift(true, lMin, Corners(upper, lower, saveMin, saveMax))
    requires LeastShift(false, rMin, Corners(upper, lower, saveMin, saveMax)) && Proper(s)
    ensures BoxFits(s, saveMin, saveMax, lMin, rMin)
  {
    hide Value, Shift, LeastShift, Corners, Chain, WholeChain, Crossing, Feasible;
    ChainIsOrdered(s, true, up, upper);
    CrossingsFit(s, saveMin, saveMax);
    CornersDecide(s, up, upper, dn, lower, saveMin, saveMax, true, lMin, saveMin);
    CornersDecide(s, up, upper, dn, lower, saveMin, saveMax, false, rMin, saveMin);
    forall F | Feasible(s, F) ensures lMin <= Shift(true, F) && rMin <= Shift(false, F) {
      CornersDecide(s, up, upper, dn, lower, saveMin, saveMax, true, lMin, F);
      CornersDecide(s, up, upper, dn, lower, saveMin, saveMax, false, rMin, F);
    }
  }

  lemma ChainIsOrdered(s: seq<Sample>, hi: bool, v: seq<nat>, segs: seq<Line>)
    requires WholeChain(s, hi, v, segs)
    ensures Ordered(s)
  {
  }

  /** The range loops of pass 4 start whenever the crossings are in order. */
  lemma MetWhenOrdered(s: seq<Sample>, hi: bool, v: seq<nat>, segs: seq<Line>, start: Line, stop: Line)
    requires Pass(s, hi, v, segs, start) && Inside(hi, start.slope, stop.slope)
    ensures Met(hi, segs, |segs|, start, stop)
  {
    hide Value;
    var j, m :| Crossing(s, hi, start, j, m);
    var i := CrossingAccepted(s, hi, v, segs, start, j, m);
    forall k | 0 <= k < i ensures !Strictly(hi, stop.slope, segs[k].slope) {
      Convex(s, hi, v, segs, k, i - 1);
    }
    assert MetAt(hi, segs, start, stop, i);
  }

  lemma CrossingsChosen(s: seq<Sample>, hi: bool, chosen: bool, save: Line)
    requires Chosen(s, hi, chosen, save, |s|)
    ensures chosen <==> Crosses(s, hi)
  {
  }

  /** Pass 1 has corrected positions `from` .. 15 of the ring `r`, which was `before`. */
  ghost predicate Done(r: seq<Datum>, before: seq<Datum>, rp: nat, h: seq<Reading>, from: nat, freq: int) {
    && |r| == |before| == |h| == RING_SIZE && rp < RING_SIZE
    && (forall i :: 0 <= i < |r| ==> r[i].r == before[i].r)
    && (forall q :: 0 <= q < RING_SIZE ==> before[Slot(rp, q)].r == h[q])
    && forall q :: from <= q < RING_SIZE ==>
         var s := CorrectedSample(h, q, freq); r[Slot(rp, q)] == Datum(h[q], s.lo, s.hi)
  }

  lemma DoneNone(r: seq<Datum>, rp: nat, h: seq<Reading>, freq: int)
    requires |r| == |h| == RING_SIZE && rp < RING_SIZE
    requires forall q :: 0 <= q < RING_SIZE ==> r[Slot(rp, q)].r == h[q]
    ensures Done(r, r, rp, h, RING_SIZE, freq) && Drift(h, RING_SIZE - 1, freq) == 0.0
  {
  }

  lemma DoneStep(r: seq<Datum>, before: seq<Datum>, rp: nat, h: seq<Reading>, p: nat, freq: int)
    requires Done(r, before, rp, h, p + 1, freq) && p < RING_SIZE
    ensures var d, j := r[Slot(rp, p)].r, Slot(rp, p);
      var cum := Drift(h, p, freq);
      Done(r[j := Datum(d, d.skew - cum - d.errorbar, d.skew - cum + d.errorbar)], before, rp, h, p, freq)
  {
    hide Slot, Drift;
    SlotsDiffer(rp);
  }

  lemma DoneReads(r: seq<Datum>, before: seq<Datum>, rp: nat, h: seq<Reading>, p: nat, freq: int)
    requires Done(r, before, rp, h, p, freq) && 0 < p < RING_SIZE
    ensures Drift(h, p - 1, freq) == Drift(h, p, freq) + DriftTerm(r[Slot(rp, p)].r, r[Slot(rp, p - 1)].r, freq)
  {
    hide Slot, DriftTerm;
    SlotsDiffer(rp);
  }

  lemma DoneAll(r: seq<Datum>, before: seq<Datum>, rp: nat, h: seq<Reading>, freq: int)
    requires Done(r, before, rp, h, 0, freq)
    ensures forall i :: 0 <= i < RING_SIZE ==> r[i].r == before[i].r
    ensures forall q :: 0 <= q < RING_SIZE ==> r[Slot(rp, q)].r == h[q]
    ensures forall q :: 0 <= q < RING_SIZE ==>
      r[Slot(rp, q)].r.absolute as real == Corrected(h, freq)[q].t && r[Slot(rp, q)].smin == Corrected(h, freq)[q].lo
      && r[Slot(rp, q)].smax == Corrected(h, freq)[q].hi
  {
    hide Slot, Drift;
  }

  lemma NothingFed()
    ensures LeastShift(true, MIN_INIT, {}) && LeastShift(false, MIN_INIT, {})
  {
  }

  lemma LastOfAppend(h: seq<Reading>, r: Reading)
    requires Increasing(h) && |h| <= RING_SIZE && r.absolute < 0x1_0000_0000
    requires forall q :: q in h ==> q.absolute < r.absolute
    ensures LastOf(h + [r]) == (if |h| < RING_SIZE then h else h[1..]) + [r]
    ensures Increasing(LastOf(h + [r]))
  {
    assert LastOf(h + [r]) == (if |h| < RING_SIZE then h else h[1..]) + [r];
  }

  /** Writing at `rp` appends one reading and, in a full ring, drops the oldest. */
  lemma RecordSlots(rp: nat, next: nat, n: nat)
    requires rp < RING_SIZE && n <= RING_SIZE && next == rp + 1
    ensures forall i: nat :: i < n && 0 < RING_SIZE - n + i ==>
              HistSlot(rp, n, i) < RING_SIZE && HistSlot(rp, n, i) != rp
    ensures n < RING_SIZE ==> HistSlot(next, n + 1, n) == rp
    ensures n < RING_SIZE ==> forall i: nat :: i < n ==> HistSlot(next, n + 1, i) == HistSlot(rp, n, i)
    ensures n == RING_SIZE ==> HistSlot(next, n, n - 1) == rp
    ensures n == RING_SIZE ==> forall i: nat :: i < n - 1 ==> HistSlot(next, n, i) == HistSlot(rp, n, i + 1)
    ensures forall p: nat :: p < RING_SIZE ==> HistSlot(next, RING_SIZE, p) == Slot(rp, p)
  {
  }

  lemma NextSlots(rp: nat, next: nat, wrapped: nat)
    requires rp < RING_SIZE && next == rp + 1 && wrapped == next % RING_SIZE
    ensures forall k: nat, i: nat :: i < k <= RING_SIZE ==> HistSlot(wrapped, k, i) == HistSlot(next, k, i) < RING_SIZE
  {
  }

  lemma SlotsDiffer(rp: nat)
    requires rp < RING_SIZE
    ensures forall p: nat, q: nat :: p < RING_SIZE && q < RING_SIZE && Slot(rp, p) == Slot(rp, q) ==> p == q
    ensures forall p: nat :: p < RING_SIZE ==> Slot(rp, p) < RING_SIZE
    ensures rp == Slot(rp, RING_SIZE - 1)
  {
  }

  /** One step back from position p: to position p - 1, or from the oldest sample round to the newest. */
  lemma BackOne(rp: nat, p: nat)
    requires rp < RING_SIZE && p < RING_SIZE
    ensures if p == 0 then NextDn(Slot(rp, p)) == rp else NextDn(Slot(rp, p)) == Slot(rp, p - 1) != rp
  {
  }

  lemma AcceptedBySlope(hi: bool, last: real, seg: Line, C: Line, D: Line)
    requires C.slope == D.slope
    ensures Accepted(hi, last, seg, C) == Accepted(hi, last, seg, D)
  {
  }

  ghost predicate Crosses(s: seq<Sample>, hi: bool) {
    exists C, j: nat, m: nat :: Crossing(s, hi, C, j, m)
  }

  /** The verdict on sixteen samples, given the two envelopes that passes 2 and 3 built. */
  ghost predicate JudgedBy(s: seq<Sample>, up: seq<nat>, upper: seq<Line>, dn: seq<nat>, lower: seq<Line>,
                           verdict: Verdict, lMin: real, rMin: real) {
    && WholeChain(s, true, up, upper) && WholeChain(s, false, dn, lower) && !verdict.Filling?
    && (verdict.Box? ==>
          var smin, smax := verdict.saveMin, verdict.saveMax;
          && Chosen(s, true, true, smin, |s|) && Chosen(s, false, true, smax, |s|)
          && LeastShift(true, lMin, Corners(upper, lower, smin, smax))
          && LeastShift(false, rMin, Corners(upper, lower, smin, smax))
          && (verdict.deltaF, verdict.bothSides) == FindDf(lMin, rMin))
    && (verdict.Inconsistent? && Crosses(s, true) && Crosses(s, false) ==>
          exists smin, smax :: Chosen(s, true, true, smin, |s|) && Chosen(s, false, true, smax, |s|)
            && !(Met(true, upper, |upper|, smin, smax) && Met(false, lower, |lower|, smax, smin)))
  }

  ghost predicate Judged(s: seq<Sample>, verdict: Verdict, lMin: real, rMin: real) {
    exists up, upper, dn, lower :: JudgedBy(s, up, upper, dn, lower, verdict, lMin, rMin)
  }

  /** Main result. When no error bar is negative, the verdict is a box exactly when both kinds of crossing exist.
      A box is exact - the two saved lines fit all samples and have the extreme slopes of all lines that do, and
      the shifts are the least over all that do - if and only if no error bar is negative. */
  lemma VerdictMeaning(s: seq<Sample>, verdict: Verdict, lMin: real, rMin: real)
    requires Judged(s, verdict, lMin, rMin)
    ensures Proper(s) ==> (verdict.Box? <==> Crosses(s, true) && Crosses(s, false))
    ensures verdict.Box? ==> (BoxFits(s, verdict.saveMin, verdict.saveMax, lMin, rMin) <==> Proper(s))
  {
    hide Value, Crossing, WholeChain, LeastShift, Corners, Met;
    var up, upper, dn, lower :| JudgedBy(s, up, upper, dn, lower, verdict, lMin, rMin);
    ChainIsOrdered(s, true, up, upper);
    if Proper(s) {
      if verdict.Box? {
        BoxFitsAll(s, up, upper, dn, lower, verdict.saveMin, verdict.saveMax, lMin, rMin);
      } else if Crosses(s, true) && Crosses(s, false) {
        var smin, smax :| Chosen(s, true, true, smin, |s|) && Chosen(s, false, true, smax, |s|)
          && !(Met(true, upper, |upper|, smin, smax) && Met(false, lower, |lower|, smax, smin));
        CrossingsFit(s, smin, smax);
        MetWhenOrdered(s, true, up, upper, smin, smax);
        MetWhenOrdered(s, false, dn, lower, smax, smin);
      }
    }
  }

  /** Every box, exact or not: l_min and r_min bound the shifts over the whole polygon spanned by the crossings and the
      envelope segments between them. */
  lemma BoxBoundsPolygon(s: seq<Sample>, verdict: Verdict, lMin: real, rMin: real)
    requires Judged(s, verdict, lMin, rMin) && verdict.Box?
    ensures exists up, upper, dn, lower ::
              && WholeChain(s, true, up, upper) && WholeChain(s, false, dn, lower)
              && BoundsMixes(lMin, rMin, Corners(upper, lower, verdict.saveMin, verdict.saveMax))
  {
    hide WholeChain, LeastShift, Corners, BoundsMixes, Chosen;
    var up, upper, dn, lower :| JudgedBy(s, up, upper, dn, lower, verdict, lMin, rMin);
    LeastBoundsMixes(lMin, rMin, Corners(upper, lower, verdict.saveMin, verdict.saveMax));
  }

  /** What the gross shift of a box achieves on proper samples. Unless both sides ask for a shift, some fitting line
      settles when it is moved by it; and no fitting line settles by a smaller move. */
  lemma BoxShifts(s: seq<Sample>, verdict: Verdict, lMin: real, rMin: real)
    requires Judged(s, verdict, lMin, rMin) && verdict.Box? && !verdict.bothSides && Proper(s)
    ensures lMin < MIN_INIT && rMin < MIN_INIT ==>
              exists F :: Feasible(s, F) && Settles(Moved(F, verdict.deltaF))
    ensures forall F, d :: Feasible(s, F) && Smaller(d, verdict.deltaF) ==> !Settles(Moved(F, d))
  {
    hide JudgedBy, BoxFits, Feasible, Settles, Shift, Corners;
    VerdictMeaning(s, verdict, lMin, rMin);
    var up, upper, dn, lower :| JudgedBy(s, up, upper, dn, lower, verdict, lMin, rMin);
    BoxParts(s, up, upper, dn, lower, verdict, lMin, rMin);
    var lines := Corners(upper, lower, verdict.saveMin, verdict.saveMax);
    GrossShift(lines, lMin, rMin, verdict.deltaF, verdict.bothSides);
    ShiftsAreNatural(lines, lMin, rMin);
    FitsOf(s, verdict.saveMin, verdict.saveMax, lMin, rMin);
    CornersFit(s, up, upper, dn, lower, verdict.saveMin, verdict.saveMax);
    if lMin < MIN_INIT && rMin < MIN_INIT {
      var m :| Weighted(m) && Points(m) <= lines && Settles(Moved(LineOf(m), verdict.deltaF));
      MixFits(s, m);
    }
    forall F, d | Feasible(s, F) && Smaller(d, verdict.deltaF) ensures !Settles(Moved(F, d)) {
      FitBounds(s, verdict.saveMin, verdict.saveMax, lMin, rMin, F);
      if verdict.deltaF > 0.0 {
        SmallerMove(true, F, lMin, d);
      } else {
        SmallerMove(false, F, rMin, d);
      }
      SettlesBothWays(Moved(F, d));
    }
  }

  predicate Smaller(d: real, deltaF: real) {
    if deltaF >= 0.0 then -deltaF < d < deltaF else deltaF < d < -deltaF
  }

  lemma SettlesBothWays(L: Line)
    ensures Settles(L) ==> Shift(true, L) == 0.0 == Shift(false, L)
  {
  }

  lemma FitBounds(s: seq<Sample>, saveMin: Line, saveMax: Line, lMin: real, rMin: real, F: Line)
    requires BoxFits(s, saveMin, saveMax, lMin, rMin) && Feasible(s, F)
    ensures lMin <= Shift(true, F) && rMin <= Shift(false, F)
  {
  }

  lemma BoxParts(s: seq<Sample>, up: seq<nat>, upper: seq<Line>, dn: seq<nat>, lower: seq<Line>, verdict: Verdict,
                 lMin: real, rMin: real)
    requires JudgedBy(s, up, upper, dn, lower, verdict, lMin, rMin) && verdict.Box?
    ensures WholeChain(s, true, up, upper) && WholeChain(s, false, dn, lower)
    ensures LeastShift(true, lMin, Corners(upper, lower, verdict.saveMin, verdict.saveMax))
    ensures LeastShift(false, rMin, Corners(upper, lower, verdict.saveMin, verdict.saveMax))
    ensures (verdict.deltaF, verdict.bothSides) == FindDf(lMin, rMin) && |s| > 0
  {
    hide LeastShift, Corners, Chosen;
  }

  /** Every line handed over fits, when the two crossings do. */
  lemma CornersFit(s: seq<Sample>, up: seq<nat>, upper: seq<Line>, dn: seq<nat>, lower: seq<Line>,
                   saveMin: Line, saveMax: Line)
    requires WholeChain(s, true, up, upper) && WholeChain(s, false, dn, lower)
    requires Feasible(s, saveMin) && Feasible(s, saveMax)
    ensures forall L :: L in Corners(upper, lower, saveMin, saveMax) ==> Feasible(s, L)
  {
    hide Feasible, Value;
    forall L | L in Corners(upper, lower, saveMin, saveMax) ensures Feasible(s, L) {
      if L in RangeOf(true, upper, |upper|, saveMin, saveMax) {
        var i :| 0 <= i < |upper| && InRange(true, upper[i], saveMin, saveMax) && L == upper[i];
        SegmentFits(s, true, up, upper, i, saveMin, saveMax);
      } else if L in RangeOf(false, lower, |lower|, saveMax, saveMin) {
        var i :| 0 <= i < |lower| && InRange(false, lower[i], saveMax, saveMin) && L == lower[i];
        SegmentFits(s, false, dn, lower, i, saveMax, saveMin);
      }
    }
  }

  /** When no error bar is negative, the verdict is a box exactly when some line fits all samples and the two
      extreme fitting lines each touch their own curve only once. */
  lemma BoxExactlyWhen(s: seq<Sample>, verdict: Verdict, lMin: real, rMin: real)
    requires Judged(s, verdict, lMin, rMin) && Proper(s)
    ensures verdict.Box? <==> ClearExtreme(s, true) && ClearExtreme(s, false)
  {
    hide Value, Crossing, BoxFits, JudgedBy, TouchesOnce;
    VerdictMeaning(s, verdict, lMin, rMin);
    JudgedIsOrdered(s, verdict, lMin, rMin);
    if C :| Extreme(s, true, C) && TouchesOnce(s, true, C) {
      CrossesExactly(s, true, C);
      CrossesExactly(s, false, C);
    }
    if verdict.Box? {
      assert BoxFits(s, verdict.saveMin, verdict.saveMax, lMin, rMin);
      FitsOf(s, verdict.saveMin, verdict.saveMax, lMin, rMin);
      CrossesExactly(s, true, verdict.saveMin);
      CrossesExactly(s, false, verdict.saveMin);
    }
  }

  ghost predicate ClearExtreme(s: seq<Sample>, hi: bool) {
    exists C :: Extreme(s, hi, C) && TouchesOnce(s, hi, C)
  }

  lemma FitsOf(s: seq<Sample>, saveMin: Line, saveMax: Line, lMin: real, rMin: real)
    requires BoxFits(s, saveMin, saveMax, lMin, rMin)
    ensures Feasible(s, saveMin) && Feasible(s, saveMax)
  {
  }

  lemma JudgedIsOrdered(s: seq<Sample>, verdict: Verdict, lMin: real, rMin: real)
    requires Judged(s, verdict, lMin, rMin)
    ensures Ordered(s)
  {
  }

  /** Consistent data are rejected whenever the extreme fitting line of either kind meets its own curve twice. */
  lemma TwoTouchesRejected(s: seq<Sample>, verdict: Verdict, lMin: real, rMin: real, hi: bool, C: Line, j: nat, m: nat)
    requires Judged(s, verdict, lMin, rMin) && Proper(s) && Extreme(s, hi, C)
    requires j < |s| && m < |s| && j != m
    requires Value(C, s, j) == Curve(s, hi, j) && Value(C, s, m) == Curve(s, hi, m)
    ensures !verdict.Box?
  {
    hide Value, Extreme, TouchesOnce, Judged;
    JudgedIsOrdered(s, verdict, lMin, rMin);
    BoxExactlyWhen(s, verdict, lMin, rMin);
    TwoTouchesNoCrossing(s, hi, C, j, m);
  }

  /** Data without slack where it counts: the extreme line starts on its own curve and passes another sample at which
      both bounds coincide. */
  lemma NoSlackRejected(s: seq<Sample>, verdict: Verdict, lMin: real, rMin: real, hi: bool, C: Line, j: nat, m: nat)
    requires Judged(s, verdict, lMin, rMin) && Proper(s) && Extreme(s, hi, C)
    requires j < |s| && m < |s| && j != m
    requires Value(C, s, j) == Curve(s, hi, j) && s[m].lo == s[m].hi == Value(C, s, m)
    ensures !verdict.Box?
  {
    hide Value, Extreme, Judged;
    TwoTouchesRejected(s, verdict, lMin, rMin, hi, C, j, m);
  }

  // ---------- two inputs on which the verdict is wrong ----------

  /** While the frequency was never changed nothing is corrected. */
  lemma {:induction false} NoDrift(h: seq<Reading>, i: nat, freq: int)
    requires i < |h| && forall r <- h :: r.freq == freq
    ensures Drift(h, i, freq) == 0.0
    decreases |h| - i
  {
    if i + 1 < |h| {
      NoDrift(h, i + 1, freq);
    }
  }

  /** Sixteen readings one second apart, the oldest with error bar `first` and the others with `rest`. */
  function Steady(first: real, rest: real): (h: seq<Reading>)
    ensures |h| == RING_SIZE
  {
    seq(RING_SIZE, i requires 0 <= i < RING_SIZE => Reading(i, 0.0, if i == 0 then first else rest, 0))
  }

  lemma SteadySamples(first: real, rest: real)
    ensures Increasing(Steady(first, rest)) && Ordered(Corrected(Steady(first, rest), 0))
    ensures forall p :: 0 <= p < RING_SIZE ==> Corrected(Steady(first, rest), 0)[p] ==
                                               var e := if p == 0 then first else rest; Sample(p as real, -e, e)
  {
    var h := Steady(first, rest);
    CorrectedOrdered(h, 0);
    forall p: nat | p < RING_SIZE ensures Drift(h, p, 0) == 0.0 {
      NoDrift(h, p, 0);
    }
  }

  /** Samples without error: the line of slope 0 is the only one that fits. */
  lemma ExactSamples(s: seq<Sample>)
    requires Ordered(s) && forall p :: 0 <= p < |s| ==> s[p].lo == 0.0 == s[p].hi
    ensures Proper(s) && Extreme(s, true, Line(0.0, 0.0))
    ensures forall p :: 0 <= p < |s| ==> Value(Line(0.0, 0.0), s, p) == 0.0
  {
    var zero := Line(0.0, 0.0);
    forall p | 0 <= p < |s| ensures Value(zero, s, p) == 0.0 { }
    hide Value;
    forall F | Feasible(s, F) ensures F.slope == 0.0 {
      assert Value(F, s, 0) == 0.0 == Value(F, s, 1);
      Compare(F, zero, s, 0, 1);
    }
  }

  /** A consistent history that is rejected: readings without error, which the line of slope 0 fits exactly. */
  lemma ConsistentRejected(verdict: Verdict, lMin: real, rMin: real)
    requires Judged(Corrected(Steady(0.0, 0.0), 0), verdict, lMin, rMin)
    ensures Proper(Corrected(Steady(0.0, 0.0), 0)) && Feasible(Corrected(Steady(0.0, 0.0), 0), Line(0.0, 0.0))
    ensures verdict == Inconsistent
  {
    hide Judged, Corrected, Steady, Value;
    SteadySamples(0.0, 0.0);
    var s := Corrected(Steady(0.0, 0.0), 0);
    JudgedIsFull(s, verdict, lMin, rMin);
    ExactSamples(s);
    NoSlackRejected(s, verdict, lMin, rMin, true, Line(0.0, 0.0), 0, 1);
  }

  lemma JudgedIsFull(s: seq<Sample>, verdict: Verdict, lMin: real, rMin: real)
    requires Judged(s, verdict, lMin, rMin)
    ensures !verdict.Filling? && |s| >= 2
  {
    JudgedIsOrdered(s, verdict, lMin, rMin);
  }

  function SteadyCrossing(hi: bool): Line {
    if hi then Line(-4.0, -30.0) else Line(4.0, 30.0)
  }

  lemma SteadyCrosses(hi: bool)
    ensures Crossing(Corrected(Steady(30.0, 30.0), 0), hi, SteadyCrossing(hi), 0, 15)
  {
    hide Corrected, Steady;
    SteadySamples(30.0, 30.0);
    var s, L := Corrected(Steady(30.0, 30.0), 0), SteadyCrossing(hi);
    forall p: nat | p < RING_SIZE
      ensures Value(L, s, p) == (if hi then 30.0 - 4.0 * p as real else 4.0 * p as real - 30.0)
      ensures s[p].lo == -30.0 && s[p].hi == 30.0
    {
    }
    hide Value, SteadyCrossing;
    assert L.slope == if hi then -4.0 else 4.0 by { SteadySlope(hi); }
  }

  lemma SteadySlope(hi: bool)
    ensures SteadyCrossing(hi).slope == if hi then -4.0 else 4.0
  {
  }

  /** A history that is answered with an exact box: equal error bars and no drift. */
  lemma SteadyBoxed(verdict: Verdict, lMin: real, rMin: real)
    requires Judged(Corrected(Steady(30.0, 30.0), 0), verdict, lMin, rMin)
    ensures verdict.Box? && BoxFits(Corrected(Steady(30.0, 30.0), 0), verdict.saveMin, verdict.saveMax, lMin, rMin)
  {
    hide Corrected, Steady, Value, Crossing, Judged, BoxFits;
    SteadyCrosses(true);
    SteadyCrosses(false);
    SteadySamples(30.0, 30.0);
    VerdictMeaning(Corrected(Steady(30.0, 30.0), 0), verdict, lMin, rMin);
  }

  lemma SteadyIsImproper()
    ensures Corrected(Steady(-15.0, 30.0), 0) == ImproperSamples()
  {
    hide Corrected, Steady;
    SteadySamples(-15.0, 30.0);
  }

  /** A history that no line fits and that is answered with a box: the oldest error bar is below `min_delay`. */
  lemma ImproperBoxed(verdict: Verdict, lMin: real, rMin: real)
    requires Judged(Corrected(Steady(-15.0, 30.0), 0), verdict, lMin, rMin)
    ensures !exists F :: Feasible(Corrected(Steady(-15.0, 30.0), 0), F)
    ensures verdict.Box? && !BoxFits(Corrected(Steady(-15.0, 30.0), 0), verdict.saveMin, verdict.saveMax, lMin, rMin)
  {
    hide Corrected, Steady, Value, Crossing, Judged, ImproperSamples, BoxFits;
    SteadyIsImproper();
    var C, D := ImproperCrosses();
    ImproperIsOrdered();
    CrossedInOrderBoxed(verdict, lMin, rMin, C, D);
    VerdictMeaning(ImproperSamples(), verdict, lMin, rMin);
  }

  /** Their crossings are in order, so the verdict is a box. */
  lemma CrossedInOrderBoxed(verdict: Verdict, lMin: real, rMin: real, C: Line, D: Line)
    requires Judged(ImproperSamples(), verdict, lMin, rMin)
    requires Crossing(ImproperSamples(), true, C, 0, 15) && Crossing(ImproperSamples(), false, D, 0, 15)
    ensures verdict.Box?
  {
    var s := ImproperSamples();
    hide Value, Crossing, WholeChain, LeastShift, Corners, Met, ImproperSamples;
    var up, upper, dn, lower :| JudgedBy(s, up, upper, dn, lower, verdict, lMin, rMin);
    assert Crosses(s, true) && Crosses(s, false);
    if verdict.Inconsistent? {
      var smin, smax :| Chosen(s, true, true, smin, |s|) && Chosen(s, false, true, smax, |s|)
        && !(Met(true, upper, |upper|, smin, smax) && Met(false, lower, |lower|, smax, smin));
      var j, m :| Crossing(s, true, smin, j, m);
      var j', m' :| Crossing(s, false, smax, j', m');
      ImproperSlopes(true, smin, j, m);
      ImproperSlopes(false, smax, j', m');
      MetWhenOrdered(s, true, up, upper, smin, smax);
      MetWhenOrdered(s, false, dn, lower, smax, smin);
    }
  }

  /** The corrected samples of a history are proper when every reading's error bar reaches `min_delay`. */
  lemma ProperHistory(h: seq<Reading>, freq: int)
    ensures Proper(Corrected(h, freq)) <==> forall i :: 0 <= i < |h| ==> h[i].errorbar >= 0.0
  {
    var s := Corrected(h, freq);
    forall i | 0 <= i < |h| ensures s[i].hi - s[i].lo == 2.0 * h[i].errorbar { }
  }

  class PhaseLoop {
    const ring: array<Datum>
    const maxseg: array<Line>
    const minseg: array<Line>
    const minDelay: real
    var rp: nat
    var valid: nat
    var lMin: real
    var rMin: real
    ghost var history: seq<Reading>

    ghost predicate Valid()
      reads this, ring
    {
      && ring.Length == RING_SIZE && maxseg.Length == RING_SIZE + 1 == minseg.Length && maxseg != minseg
      && rp < RING_SIZE && valid == |history| <= RING_SIZE
      && Increasing(history)
      && forall i :: 0 <= i < |history| ==> ring[HistSlot(rp, |history|, i)].r == history[i]
    }

    /** The corrected bounds are in place for the sixteen samples `s`, newest at `rp`. */
    ghost predicate Holds(s: seq<Sample>)
      reads this, ring
    {
      && ring.Length == RING_SIZE == |s| && rp < RING_SIZE && Ordered(s)
      && forall p :: 0 <= p < RING_SIZE ==>
           ring[Slot(rp, p)].r.absolute as real == s[p].t && ring[Slot(rp, p)].smin == s[p].lo
           && ring[Slot(rp, p)].smax == s[p].hi
    }

    constructor (delay: real)
      ensures Valid() && history == [] && minDelay == delay
      ensures fresh(ring) && fresh(maxseg) && fresh(minseg)
    {
      ring := new Datum[RING_SIZE](_ => Datum(Reading(0, 0.0, 0.0, 0), 0.0, 0.0));
      maxseg := new Line[RING_SIZE + 1](_ => Line(0.0, 0.0));
      minseg := new Line[RING_SIZE + 1](_ => Line(0.0, 0.0));
      minDelay := delay;
      rp, valid, lMin, rMin := 0, 0, 0.0, 0.0;
      history := [];
    }

    function SS(n: nat, c: int): real
      requires n < ring.Length
      reads ring
    {
      if c == 0 then ring[n].smin else ring[n].smax
    }

    /** The line of one `search` iteration: from curve s1 at j to curve s0 at n. */
    method Candidate(j: nat, n: nat, s0: int, s1: int, ghost s: seq<Sample>, ghost pj: nat, ghost p: nat)
      returns (L: Line)
      requires Holds(s) && pj < p < RING_SIZE && j == Slot(rp, pj) && n == Slot(rp, p)
      ensures Joins(s, s1 != 0, s0 != 0, pj, p, L)
    {
      assert Slot(rp, RING_SIZE - 1) == rp;
      var dt := (ring[n].r.absolute - ring[j].r.absolute) as real;
      var slope := (SS(n, s0) - SS(j, s1)) / dt;
      L := Line(slope, SS(n, s0) + slope * (ring[rp].r.absolute - ring[n].r.absolute) as real);
      LineThrough(s, pj, p, Curve(s, s1 != 0, pj), Curve(s, s0 != 0, p), L);
    }

    /** `search`: among the lines from curve s1 at j to curve s0 at each later sample, the extreme one. */
    method Search(j: nat, s0: int, s1: int, sign: int, ghost s: seq<Sample>, ghost pj: nat)
      returns (nextj: nat, answer: Line, ghost pn: nat)
      requires Holds(s) && pj < RING_SIZE - 1 && j == Slot(rp, pj)
      ensures Best(s, s1 != 0, s0 != 0, sign == 0, pj, RING_SIZE, answer, pn) && nextj == Slot(rp, pn)
      ensures exists p: nat :: nextj == Slot(rp, p) && Joins(s, s1 != 0, s0 != 0, pj, p, answer)
      ensures forall q :: pj < q < RING_SIZE ==> Inside(sign == 0, Value(answer, s, q), Curve(s, s0 != 0, q))
    {
      hide Value, Best, Joins, Slot, NextUp;
      SlotStep(rp, pj);
      SlotStep(rp, pj + 1);
      var cinit := true;
      answer := Line(0.0, 0.0);
      nextj := 0;
      pn := 0;
      var n := NextUp(j);
      ghost var p := pj + 1;
      while n != NextUp(rp)
        invariant pj < p <= RING_SIZE && n == Slot(rp, p)
        invariant cinit <==> p == pj + 1
        invariant !cinit ==> Best(s, s1 != 0, s0 != 0, sign == 0, pj, p, answer, pn) && nextj == Slot(rp, pn)
        invariant p == RING_SIZE <==> n == NextUp(rp)
        decreases RING_SIZE - p
      {
        SlotStep(rp, p);
        SlotStep(rp, p + 1);
        var L := Candidate(j, n, s0, s1, s, pj, p);
        BestStep(s, s1 != 0, s0 != 0, sign == 0, pj, p, answer, pn, L);
        if cinit || (L.slope < answer.slope) != (sign != 0) {
          answer := L;
          cinit := false;
          nextj := n;
          pn := p;
        }
        n := NextUp(n);
        p := p + 1;
      }
      BestMeans(s, s1 != 0, s0 != 0, sign == 0, pj, RING_SIZE, answer, pn);
    }

    /** One turn of the loop of pass 2 (`hi`) or 3, at the vertex `j`. */
    method Vertex(hi: bool, j: nat, lastSlope: real, dinit: bool, save: Line,
                  ghost s: seq<Sample>, ghost v: seq<nat>, ghost segs: seq<Line>)
      returns (nextj: nat, answer: Line, dinit': bool, save': Line, ghost k: nat)
      requires Holds(s) && Chain(s, hi, v, segs) && v[|segs|] < RING_SIZE - 1 && j == Slot(rp, v[|segs|])
      requires lastSlope == LastSlope(hi, segs, |segs|) && Chosen(s, hi, !dinit, save, v[|segs|])
      ensures v[|segs|] < k < RING_SIZE && nextj == Slot(rp, k) && Chain(s, hi, v + [k], segs + [answer])
      ensures Chosen(s, hi, !dinit', save', k)
    {
      hide Value, Slot, NextUp, Chosen, LastSlope;
      ghost var pj := v[|segs|];
      var near, far := if hi then 1 else 0, if hi then 0 else 1;
      nextj, answer, k := Search(j, near, near, far, s, pj);
      var _, check, kc := Search(j, far, near, near, s, pj);
      VertexStep(s, hi, v, segs, answer, k, check, kc, !dinit, save);
      dinit', save' := dinit, save;
      if Accepted(hi, lastSlope, answer, check) && (dinit || check.slope < save.slope) {
        dinit', save' := false, check;
      }
    }

    /** Passes 2 (`hi`) and 3: the envelope of one curve, with the crossing of least slope along it. */
    method EnvelopePass(hi: bool, seg: array<Line>, ghost s: seq<Sample>)
      returns (dinit: bool, save: Line, avail: nat, ghost v: seq<nat>)
      requires Holds(s) && seg.Length == RING_SIZE + 1
      modifies seg
      ensures 2 <= avail <= RING_SIZE && WholeChain(s, hi, v, seg[1..avail])
      ensures Chosen(s, hi, !dinit, save, RING_SIZE)
    {
      assert rp < RING_SIZE == |s| && Ordered(s);
      hide Slot, NextUp, Holds, Chain, Chosen, LastSlope;
      dinit, save := true, Line(0.0, 0.0);
      var lastSlope := if hi then -500.0 else 500.0;
      var c, j := 1, NextUp(rp);
      SlotStep(rp, 0);
      v := [0];
      ChosenNone(s, hi, save);
      LastSlopeStep(hi, [], save);
      assert seg[1..1] == [];
      while true
        invariant 1 <= c == |v| && c - 1 <= v[c - 1] < RING_SIZE - 1 && j == Slot(rp, v[c - 1])
        invariant Chain(s, hi, v, seg[1..c]) && lastSlope == LastSlope(hi, seg[1..c], c - 1)
        invariant Chosen(s, hi, !dinit, save, v[c - 1])
        decreases RING_SIZE - v[c - 1]
      {
        ghost var segs := seg[1..c];
        var nextj, answer;
        ghost var k: nat;
        nextj, answer, dinit, save, k := Vertex(hi, j, lastSlope, dinit, save, s, v, segs);
        seg[c] := answer;
        lastSlope := answer.slope;
        c := c + 1;
        v := v + [k];
        assert seg[1..c] == segs + [answer];
        LastSlopeStep(hi, segs, answer);
        SlotStep(rp, k);
        if nextj == rp {
          break;
        }
        j := nextj;
      }
      avail := c;
    }

    /** `polygon_point`. */
    method PolygonPoint(L: Line, ghost fed: set<Line>)
      requires LeastShift(true, lMin, fed) && LeastShift(false, rMin, fed)
      modifies `lMin, `rMin
      ensures LeastShift(true, lMin, fed + {L}) && LeastShift(false, rMin, fed + {L})
      ensures BoundsMixes(lMin, rMin, fed + {L})
    {
      LeastShiftAdd(true, lMin, fed, L);
      LeastShiftAdd(false, rMin, fed, L);
      var l, r := FindShift(-L.slope, L.offset), FindShift(L.slope, -L.offset);
      if l < lMin { lMin := l; }
      if r < rMin { rMin := r; }
      LeastBoundsMixes(lMin, rMin, fed + {L});
    }

    /** The range loop of pass 4 over one envelope: hands on the segments between the two crossings. */
    method SpliceSide(hi: bool, seg: array<Line>, avail: nat, start: Line, stop: Line,
                      ghost s: seq<Sample>, ghost v: seq<nat>, ghost fed: set<Line>)
      returns (met: bool)
      requires 1 <= avail <= seg.Length && Chain(s, hi, v, seg[1..avail])
      requires LeastShift(true, lMin, fed) && LeastShift(false, rMin, fed)
      modifies `lMin, `rMin
      ensures var all := fed + RangeOf(hi, seg[1..avail], avail - 1, start, stop);
        LeastShift(true, lMin, all) && LeastShift(false, rMin, all)
      ensures met <==> Met(hi, seg[1..avail], avail - 1, start, stop)
    {
      hide RangeOf, LeastShift, Chain, Met, InRange, Monotone;
      ghost var segs := seg[1..avail];
      AllConvex(s, hi, v, segs);
      RangeNone(hi, segs, start, stop);
      met := false;
      var c := 1;
      assert fed + {} == fed;
      while c < avail
        invariant 1 <= c <= avail
        invariant met <==> Met(hi, segs, c - 1, start, stop)
        invariant forall k :: 0 <= k < c - 1 ==> !Strictly(hi, stop.slope, segs[k].slope)
        invariant var all := fed + RangeOf(hi, segs, c - 1, start, stop);
          LeastShift(true, lMin, all) && LeastShift(false, rMin, all)
      {
        RangeStep(hi, segs, c - 1, start, stop);
        ghost var fedNow := fed + RangeOf(hi, segs, c - 1, start, stop);
        assert fed + RangeOf(hi, segs, c, start, stop)
            == fedNow + if InRange(hi, seg[c], start, stop) then {seg[c]} else {};
        if Strictly(hi, start.slope, seg[c].slope) {
          met := true;
        }
        if Strictly(hi, stop.slope, seg[c].slope) {
          RangeEnds(hi, segs, c - 1, start, stop);
          return;
        }
        if met {
          PolygonPoint(seg[c], fedNow);
        } else {
          assert fedNow + {} == fedNow;
        }
        c := c + 1;
      }
    }

    /** The ring holds the sixteen readings `h`, oldest first, with the newest at `rp`. */
    ghost predicate Loaded(h: seq<Reading>)
      reads this, ring
    {
      && ring.Length == RING_SIZE == |h| && rp < RING_SIZE
      && forall p :: 0 <= p < RING_SIZE ==> ring[Slot(rp, p)].r == h[p]
    }

    method SetBounds(j: nat, cum: real)
      requires j < ring.Length
      modifies ring
      ensures var r := old(ring[j].r);
        ring[..] == old(ring[..])[j := Datum(r, r.skew - cum - r.errorbar, r.skew - cum + r.errorbar)]
    {
      ring[j] := ring[j].(smax := ring[j].r.skew - cum + ring[j].r.errorbar);
      ring[j] := ring[j].(smin := ring[j].r.skew - cum - ring[j].r.errorbar);
    }

    /** Pass 1: from the newest sample back, move the bounds to what they would have been at `freq`. */
    method CorrectBounds(freq: int, ghost h: seq<Reading>)
      requires Loaded(h)
      modifies ring
      ensures Done(ring[..], old(ring[..]), rp, h, 0, freq)
    {
      hide Slot, NextDn, DriftTerm, Done, Drift;
      ghost var before := ring[..];
      SlotStep(rp, RING_SIZE - 1);
      forall q: nat | q < RING_SIZE ensures Slot(rp, q) < RING_SIZE && before[Slot(rp, q)].r == h[q] {
        SlotStep(rp, q);
      }
      DoneNone(before, rp, h, freq);
      var cum := 0.0;
      var j := rp;
      ghost var p: nat := RING_SIZE - 1;
      while true
        invariant p < RING_SIZE && j == Slot(rp, p) && cum == Drift(h, p, freq)
        invariant Done(ring[..], before, rp, h, p + 1, freq)
        decreases p
      {
        BackOne(rp, p);
        SlotStep(rp, p);
        DoneStep(ring[..], before, rp, h, p, freq);
        SetBounds(j, cum);
        var n := NextDn(j);
        if n == rp {
          break;
        }
        SlotStep(rp, p - 1);
        DoneReads(ring[..], before, rp, h, p, freq);
        cum := cum + DriftTerm(ring[j].r, ring[n].r, freq);
        j := n;
        p := p - 1;
      }
    }

    /** After pass 1 the ring holds the corrected samples and the same readings as before. */
    lemma Corrects(before: seq<Datum>, h: seq<Reading>, freq: int)
      requires Done(ring[..], before, rp, h, 0, freq) && Increasing(h)
      ensures Holds(Corrected(h, freq))
      ensures forall i :: 0 <= i < RING_SIZE ==> ring[i].r == before[i].r
    {
      CorrectedOrdered(h, freq);
      hide Slot, Increasing, Corrected, Ordered, Done;
      var after := ring[..];
      DoneAll(after, before, rp, h, freq);
      forall q: nat | q < RING_SIZE ensures Slot(rp, q) < RING_SIZE && after[Slot(rp, q)] == ring[Slot(rp, q)] {
        SlotStep(rp, q);
      }
      forall i | 0 <= i < RING_SIZE ensures after[i] == ring[i] { }
    }

    /** Passes 2 to 5 on corrected bounds. */
    method Judge(ghost s: seq<Sample>) returns (verdict: Verdict)
      requires Holds(s) && maxseg.Length == RING_SIZE + 1 == minseg.Length && maxseg != minseg
      modifies `lMin, `rMin, maxseg, minseg
      ensures Judged(s, verdict, lMin, rMin) && !verdict.Filling?
    {
      hide Value, Crossing, Chain, Feasible, LeastShift, Shift, Met, RangeOf;
      var noMin, saveMin, maxAvail, up := EnvelopePass(true, maxseg, s);
      ghost var upper := maxseg[1..maxAvail];
      var noMax, saveMax, minAvail, dn := EnvelopePass(false, minseg, s);
      ghost var lower := minseg[1..minAvail];
      assert maxseg[1..maxAvail] == upper;
      verdict := Inconsistent;
      if !noMin && !noMax {
        lMin, rMin := MIN_INIT, MIN_INIT;
        NothingFed();
        PolygonPoint(saveMin, {});
        var met := SpliceSide(true, maxseg, maxAvail, saveMin, saveMax, s, up, {} + {saveMin});
        ghost var fed := {} + {saveMin} + RangeOf(true, upper, |upper|, saveMin, saveMax);
        PolygonPoint(saveMax, fed);
        var met' := SpliceSide(false, minseg, minAvail, saveMax, saveMin, s, dn, fed + {saveMax});
        assert fed + {saveMax} + RangeOf(false, lower, |lower|, saveMax, saveMin)
            == Corners(upper, lower, saveMin, saveMax);
        if met && met' {
          var (deltaF, bothSides) := FindDf(lMin, rMin);
          verdict := Box(saveMin, saveMax, deltaF, bothSides);
        }
      }
      CrossingsChosen(s, true, !noMin, saveMin);
      CrossingsChosen(s, false, !noMax, saveMax);
      assert JudgedBy(s, up, upper, dn, lower, verdict, lMin, rMin);
    }

    /** Stores a reading at `rp`; the ring then holds the last sixteen readings with the newest at `rp`. */
    method Record(r: Reading)
      requires Valid() && r.absolute < 0x1_0000_0000 && forall q :: q in history ==> q.absolute < r.absolute
      modifies this`valid, this`history, ring
      ensures history == LastOf(old(history) + [r]) && Increasing(history) && valid == |history| <= RING_SIZE
      ensures valid == RING_SIZE ==> Loaded(history)
      ensures forall i :: 0 <= i < |history| ==> ring[HistSlot(rp + 1, |history|, i)].r == history[i]
    {
      hide HistSlot, Slot, Increasing, LastOf;
      LastOfAppend(history, r);
      RecordSlots(rp, rp + 1, |history|);
      ghost var h := history;
      ring[rp] := ring[rp].(r := r);
      if valid < RING_SIZE {
        valid := valid + 1;
      }
      history := LastOf(h + [r]);
    }

    /** `contemplate_data`, up to the gross frequency shift. */
    method ContemplateData(absolute: nat, skew: real, errorbar: real, freq: int) returns (verdict: Verdict)
      requires Valid() && absolute < 0x1_0000_0000
      requires forall r :: r in history ==> r.absolute < absolute
      modifies this, ring, maxseg, minseg
      ensures Valid()
      ensures history == LastOf(old(history) + [Reading(absolute, skew, errorbar - minDelay, freq)])
      ensures verdict.Filling? <==> |history| < RING_SIZE
      ensures !verdict.Filling? ==> Judged(Corrected(history, freq), verdict, lMin, rMin)
    {
      hide Judged, Holds, Corrected, Increasing, HistSlot, LastOf, Done;
      NextSlots(rp, rp + 1, (rp + 1) % RING_SIZE);
      Record(Reading(absolute, skew, errorbar - minDelay, freq));
      verdict := Filling;
      if valid == RING_SIZE {
        ghost var before := ring[..];
        CorrectBounds(freq, history);
        Corrects(before, history, freq);
        verdict := Judge(Corrected(history, freq));
      }
      rp := (rp + 1) % RING_SIZE;
    }
  }

  /** Sixteen readings fed to a new loop without a minimal delay. */
  method Replay(h: seq<Reading>) returns (verdict: Verdict, ghost lMin: real, ghost rMin: real)
    requires |h| == RING_SIZE && Increasing(h)
    ensures Judged(Corrected(h, h[RING_SIZE - 1].freq), verdict, lMin, rMin)
  {
    hide Judged, Corrected;
    var lock := new PhaseLoop(0.0);
    verdict := Filling;
    assert h[..0] == [];
    for i := 0 to RING_SIZE
      invariant fresh(lock) && fresh(lock.ring) && fresh(lock.maxseg) && fresh(lock.minseg)
      invariant lock.Valid() && lock.minDelay == 0.0 && lock.history == h[..i]
      invariant i == RING_SIZE ==> Judged(Corrected(h, h[i - 1].freq), verdict, lock.lMin, lock.rMin)
    {
      var r := h[i];
      verdict := lock.ContemplateData(r.absolute, r.skew, r.errorbar, r.freq);
      assert h[..i] + [r] == h[..i + 1];
      assert r.(errorbar := r.errorbar - 0.0) == r;
      assert i + 1 == RING_SIZE ==> h[..i + 1] == h;
    }
    lMin, rMin := lock.lMin, lock.rMin;
  }

  /** The two wrong verdicts, as a loop gives them: consistent readings refused, contradictory ones boxed. */
  method WrongVerdicts() returns (consistent: Verdict, contradictory: Verdict)
    ensures consistent == Inconsistent && exists F :: Feasible(Corrected(Steady(0.0, 0.0), 0), F)
    ensures contradictory.Box? && !exists F :: Feasible(Corrected(Steady(-15.0, 30.0), 0), F)
  {
    hide Judged, Corrected, Feasible, Increasing, BoxFits;
    SteadySamples(0.0, 0.0);
    SteadySamples(-15.0, 30.0);
    ghost var l, r: real;
    assert Steady(0.0, 0.0)[15].freq == 0 == Steady(-15.0, 30.0)[15].freq;
    consistent, l, r := Replay(Steady(0.0, 0.0));
    ConsistentRejected(consistent, l, r);
    contradictory, l, r := Replay(Steady(-15.0, 30.0));
    ImproperBoxed(contradictory, l, r);
  }

  /** And a right one: readings with equal error bars get an exact box. */
  method RightVerdict() returns (verdict: Verdict)
    ensures verdict.Box? && Feasible(Corrected(Steady(30.0, 30.0), 0), verdict.saveMin)
    ensures Feasible(Corrected(Steady(30.0, 30.0), 0), verdict.saveMax)
  {
    hide Judged, Corrected, Feasible, Increasing, BoxFits;
    SteadySamples(30.0, 30.0);
    ghost var l, r: real;
    assert Steady(30.0, 30.0)[15].freq == 0;
    verdict, l, r := Replay(Steady(30.0, 30.0));
    SteadyBoxed(verdict, l, r);
    FitsOf(Corrected(Steady(30.0, 30.0), 0), verdict.saveMin, verdict.saveMax, l, r);
  }
}
