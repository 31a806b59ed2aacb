/** Lines, samples and envelopes of the phase lock, on a list of samples ordered by time. */
module PhaseGeometry {

  /** One measurement: at time `t` the skew lies between `lo` and `hi` (s.min and s.max). */
  datatype Sample = Sample(t: real, lo: real, hi: real)

  /** A frequency/offset pair; the offset is the line's value at the newest sample. */
  datatype Line = Line(slope: real, offset: real)

  ghost predicate Ordered(s: seq<Sample>) {
    |s| >= 2 && forall i, j :: 0 <= i < j < |s| ==> s[i].t < s[j].t
  }

  function Value(L: Line, s: seq<Sample>, p: nat): real
    requires p < |s|
  {
    L.offset + L.slope * (s[p].t - s[|s| - 1].t)
  }

  /** The upper bounds (`hi`) or the lower bounds of the samples. */
  function Curve(s: seq<Sample>, hi: bool, p: nat): real
    requires p < |s|
  {
    if hi then s[p].hi else s[p].lo
  }

  /** `a` is on the inner side of `b`: below an upper bound, above a lower one. */
  predicate Inside(hi: bool, a: real, b: real) {
    if hi then a <= b else a >= b
  }

  predicate Strictly(hi: bool, a: real, b: real) {
    if hi then a < b else a > b
  }

  ghost predicate Feasible(s: seq<Sample>, L: Line) {
    forall p :: 0 <= p < |s| ==> s[p].lo <= Value(L, s, p) <= s[p].hi
  }

  /** How the difference of two lines moves from an earlier to a later sample decides their slopes. */
  lemma Compare(L: Line, K: Line, s: seq<Sample>, p: nat, q: nat)
    requires Ordered(s) && p < q < |s|
    ensures var dp, dq := Value(L, s, p) - Value(K, s, p), Value(L, s, q) - Value(K, s, q);
      (L.slope > K.slope <==> dq > dp) && (L.slope == K.slope <==> dq == dp)
  {
    var d, h := L.slope - K.slope, s[q].t - s[p].t;
    var T := s[|s| - 1].t;
    assert L.slope * (s[q].t - T) - L.slope * (s[p].t - T) == L.slope * h;
    assert K.slope * (s[q].t - T) - K.slope * (s[p].t - T) == K.slope * h;
    assert L.slope * h - K.slope * h == d * h;
    assert h > 0.0;
    assert (d > 0.0 <==> d * h > 0.0) && (d == 0.0 <==> d * h == 0.0);
  }

  // ---------- the envelope chain ----------

  /** Segment `L` starts at sample `j`, ends on the curve at `k`, and the curve never crosses it later. */
  ghost predicate Tangent(s: seq<Sample>, hi: bool, L: Line, j: nat, k: nat) {
    && j < k < |s|
    && Value(L, s, j) == Curve(s, hi, j) && Value(L, s, k) == Curve(s, hi, k)
    && forall p :: j < p < |s| ==> Inside(hi, Value(L, s, p), Curve(s, hi, p))
  }

  /** The walk from the oldest sample: vertices v and the segments between them, up to vertex v[|segs|]. */
  ghost predicate Chain(s: seq<Sample>, hi: bool, v: seq<nat>, segs: seq<Line>) {
    && Ordered(s) && |v| == |segs| + 1 && v[0] == 0
    && (forall i :: 0 <= i < |v| ==> v[i] < |s|)
    && forall i :: 0 <= i < |segs| ==> Tangent(s, hi, segs[i], v[i], v[i + 1])
  }

  /** The chain reaches the newest sample. */
  ghost predicate WholeChain(s: seq<Sample>, hi: bool, v: seq<nat>, segs: seq<Line>) {
    Chain(s, hi, v, segs) && |segs| > 0 && v[|segs|] == |s| - 1
  }

  lemma {:induction false} ChainIncreases(s: seq<Sample>, hi: bool, v: seq<nat>, segs: seq<Line>, i: nat, j: nat)
    requires Chain(s, hi, v, segs) && i <= j < |v|
    ensures v[i] + (j - i) <= v[j]
    decreases j
  {
    if i < j {
      ChainIncreases(s, hi, v, segs, i, j - 1);
      assert Tangent(s, hi, segs[j - 1], v[j - 1], v[j]);
    }
  }

  /** Convexity, one corner: the next segment never turns back. */
  lemma Corner(s: seq<Sample>, hi: bool, v: seq<nat>, segs: seq<Line>, i: nat)
    requires Chain(s, hi, v, segs) && i + 1 < |segs|
    ensures Inside(hi, segs[i].slope, segs[i + 1].slope)
  {
    hide Value;
    assert Tangent(s, hi, segs[i], v[i], v[i + 1]) && Tangent(s, hi, segs[i + 1], v[i + 1], v[i + 2]);
    Compare(segs[i], segs[i + 1], s, v[i + 1], v[i + 2]);
  }

  lemma {:induction false} Convex(s: seq<Sample>, hi: bool, v: seq<nat>, segs: seq<Line>, i: nat, j: nat)
    requires Chain(s, hi, v, segs) && i <= j < |segs|
    ensures Inside(hi, segs[i].slope, segs[j].slope)
    decreases j
  {
    if i < j {
      Convex(s, hi, v, segs, i, j - 1);
      Corner(s, hi, v, segs, j - 1);
    }
  }

  /** Every bound lies on the outer side of every segment, also those before its start. */
  lemma {:induction false} Envelope(s: seq<Sample>, hi: bool, v: seq<nat>, segs: seq<Line>, i: nat, p: nat)
    requires Chain(s, hi, v, segs) && i < |segs| && p < |s|
    ensures Inside(hi, Value(segs[i], s, p), Curve(s, hi, p))
    decreases i
  {
    hide Value;
    assert Tangent(s, hi, segs[i], v[i], v[i + 1]);
    if p < v[i] {
      Envelope(s, hi, v, segs, i - 1, p);
      Corner(s, hi, v, segs, i - 1);
      assert Tangent(s, hi, segs[i - 1], v[i - 1], v[i]);
      Compare(segs[i - 1], segs[i], s, p, v[i]);
    }
  }

  // ---------- the crossing tangent ----------

  /** What passes 2 and 3 look for: a line that touches the near curve at `j` alone, never crosses it,
      and is tangent to the far curve at a later sample `m`. */
  ghost predicate Crossing(s: seq<Sample>, hi: bool, C: Line, j: nat, m: nat) {
    && j < m < |s|
    && Value(C, s, j) == Curve(s, hi, j) && Value(C, s, m) == Curve(s, !hi, m)
    && (forall p :: 0 <= p < |s| && p != j ==> Strictly(hi, Value(C, s, p), Curve(s, hi, p)))
    && (forall p :: j < p < |s| ==> Inside(!hi, Value(C, s, p), Curve(s, !hi, p)))
    && (j == 0 ==> Strictly(hi, StartSlope(hi), C.slope))
  }

  /** The greatest change of the clock's frequency, in parts per million. */
  const MAX_CORRECT := 250

  /** The initial `last_slope`: -2 * MAX_CORRECT or +2 * MAX_CORRECT. */
  function StartSlope(hi: bool): real {
    (if hi then -2 * MAX_CORRECT else 2 * MAX_CORRECT) as real
  }

  /** The line from the near curve at `j` that is tangent to the far curve: the second `search`. */
  ghost predicate Check(s: seq<Sample>, hi: bool, C: Line, j: nat) {
    && j < |s| && Value(C, s, j) == Curve(s, hi, j)
    && (exists m :: j < m < |s| && Value(C, s, m) == Curve(s, !hi, m))
    && forall p :: j < p < |s| ==> Inside(!hi, Value(C, s, p), Curve(s, !hi, p))
  }

  /** The test of the pass at vertex i: strictly between the previous slope and this one. */
  predicate Accepted(hi: bool, last: real, seg: Line, C: Line) {
    Strictly(hi, C.slope, seg.slope) && Strictly(hi, last, C.slope)
  }

  function LastSlope(hi: bool, segs: seq<Line>, i: nat): real
    requires i <= |segs|
  {
    if i == 0 then StartSlope(hi) else segs[i - 1].slope
  }

  /** An accepted check line is a crossing. */
  lemma AcceptedCrosses(s: seq<Sample>, hi: bool, v: seq<nat>, segs: seq<Line>, i: nat, C: Line)
    requires Chain(s, hi, v, segs) && i < |segs| && Check(s, hi, C, v[i])
    requires Accepted(hi, LastSlope(hi, segs, i), segs[i], C)
    ensures exists m :: Crossing(s, hi, C, v[i], m)
  {
    hide Value;
    var j := v[i];
    assert Tangent(s, hi, segs[i], j, v[i + 1]);
    forall p: nat | p < |s| && p != j
      ensures Strictly(hi, Value(C, s, p), Curve(s, hi, p))
    {
      if j < p {
        Compare(C, segs[i], s, j, p);
      } else {
        ChainIncreases(s, hi, v, segs, 0, i);
        Envelope(s, hi, v, segs, i - 1, p);
        assert Tangent(s, hi, segs[i - 1], v[i - 1], j);
        Compare(C, segs[i - 1], s, p, j);
      }
    }
    if i > 0 { ChainIncreases(s, hi, v, segs, 0, i); }
    var m :| j < m < |s| && Value(C, s, m) == Curve(s, !hi, m);
    assert Crossing(s, hi, C, j, m);
  }

  /** The vertex interval around a sample. */
  lemma {:induction false} FindVertex(s: seq<Sample>, hi: bool, v: seq<nat>, segs: seq<Line>, c: nat, j: nat)
    returns (i: nat)
    requires Chain(s, hi, v, segs) && c <= |segs| && j < v[c]
    ensures i < c && v[i] <= j < v[i + 1]
    decreases c
  {
    if v[c - 1] <= j {
      i := c - 1;
    } else {
      i := FindVertex(s, hi, v, segs, c - 1, j);
    }
  }

  /** Conversely, a crossing starts at a vertex of the chain and is accepted there, as that vertex's check line. */
  lemma CrossingAccepted(s: seq<Sample>, hi: bool, v: seq<nat>, segs: seq<Line>, C: Line, j: nat, m: nat)
    returns (i: nat)
    requires Chain(s, hi, v, segs) && j < v[|segs|]
    requires Crossing(s, hi, C, j, m)
    ensures i < |segs| && v[i] == j
    ensures forall K :: Check(s, hi, K, j) ==> K.slope == C.slope
    ensures Accepted(hi, LastSlope(hi, segs, i), segs[i], C)
  {
    hide Value;
    i := FindVertex(s, hi, v, segs, |segs|, j);
    assert Tangent(s, hi, segs[i], v[i], v[i + 1]);
    if v[i] < j {
      Compare(C, segs[i], s, v[i], j);
      Compare(C, segs[i], s, j, v[i + 1]);
      assert false;
    }
    Compare(C, segs[i], s, j, v[i + 1]);
    if i > 0 {
      assert Tangent(s, hi, segs[i - 1], v[i - 1], j);
      Compare(C, segs[i - 1], s, v[i - 1], j);
    }
    forall K | Check(s, hi, K, j) ensures K.slope == C.slope {
      Compare(K, C, s, j, m);
      var m' :| j < m' < |s| && Value(K, s, m') == Curve(s, !hi, m');
      Compare(K, C, s, j, m');
    }
  }

  /** When any line fits between all bounds, a crossing fits too, and no fitting line has a slope beyond it. */
  lemma CrossingIsExtreme(s: seq<Sample>, hi: bool, C: Line, j: nat, m: nat, F: Line)
    requires Ordered(s) && Crossing(s, hi, C, j, m) && Feasible(s, F)
    ensures Feasible(s, C)
    ensures Inside(hi, C.slope, F.slope)
  {
    hide Value;
    Compare(C, F, s, j, m);
    forall p: nat | p < |s| ensures s[p].lo <= Value(C, s, p) <= s[p].hi {
      if p < j {
        Compare(C, F, s, p, j);
      }
    }
  }

  /** No sample has a negative error bar: errorbar >= min_delay in every reading. */
  ghost predicate Proper(s: seq<Sample>) {
    forall p :: 0 <= p < |s| ==> s[p].lo <= s[p].hi
  }

  /** A crossing that starts no earlier than one of the other kind fits between all bounds. */
  lemma LaterCrossingFits(s: seq<Sample>, hi: bool, C: Line, j: nat, m: nat, D: Line, j': nat, m': nat)
    requires Ordered(s) && Crossing(s, hi, C, j, m) && Crossing(s, !hi, D, j', m') && j' <= j
    requires s[j].lo <= s[j].hi
    ensures Feasible(s, C)
  {
    hide Value;
    Compare(C, D, s, j, m);
    forall p: nat | p < |s| ensures s[p].lo <= Value(C, s, p) <= s[p].hi {
      if p < j {
        Compare(C, D, s, p, j);
      }
    }
  }

  // ---------- when a crossing exists ----------

  /** The line from the near curve at `j` to the far curve at `m`. */
  function PairLine(s: seq<Sample>, hi: bool, j: nat, m: nat): (L: Line)
    requires Ordered(s) && j < m < |s|
    ensures Value(L, s, j) == Curve(s, hi, j) && Value(L, s, m) == Curve(s, !hi, m)
  {
    var a, b, d := Curve(s, hi, j), Curve(s, !hi, m), s[m].t - s[j].t;
    var k := (b - a) / d;
    assert k * d == b - a;
    assert k * (s[j].t - s[|s| - 1].t) == k * (s[m].t - s[|s| - 1].t) - k * d;
    Line(k, b - k * (s[m].t - s[|s| - 1].t))
  }

  /** No pair before (a, b) in reading order gives a line beyond the slope of (j, m). */
  ghost predicate Leads(s: seq<Sample>, hi: bool, j: nat, m: nat, a: nat, b: nat)
    requires Ordered(s)
  {
    && j < m < |s|
    && forall j': nat, m': nat :: j' < m' < |s| && (j' < a || (j' == a && m' < b))
         ==> Inside(hi, PairLine(s, hi, j', m').slope, PairLine(s, hi, j, m).slope)
  }

  lemma {:induction false} LeadingPair(s: seq<Sample>, hi: bool, a: nat, b: nat) returns (j: nat, m: nat)
    requires Ordered(s) && a < |s| - 1 && a + 1 < b <= |s|
    ensures Leads(s, hi, j, m, a, b)
    decreases a, b
  {
    hide PairLine;
    if a == 0 && b == 2 {
      j, m := 0, 1;
    } else {
      if b > a + 2 {
        j, m := LeadingPair(s, hi, a, b - 1);
      } else {
        j, m := LeadingPair(s, hi, a - 1, |s|);
      }
      if Strictly(hi, PairLine(s, hi, j, m).slope, PairLine(s, hi, a, b - 1).slope) {
        j, m := a, b - 1;
      }
    }
  }

  /** A fitting line whose slope no fitting line goes beyond: the least slope (`hi`) or the largest. */
  ghost predicate Extreme(s: seq<Sample>, hi: bool, C: Line) {
    Feasible(s, C) && forall F :: Feasible(s, F) ==> Inside(hi, C.slope, F.slope)
  }

  /** If any line fits, an extreme one does, from the near curve to the far curve at a later sample. */
  lemma ExtremeExists(s: seq<Sample>, hi: bool, F: Line) returns (C: Line, j: nat, m: nat)
    requires Ordered(s) && Feasible(s, F)
    ensures Extreme(s, hi, C) && j < m < |s|
    ensures Value(C, s, j) == Curve(s, hi, j) && Value(C, s, m) == Curve(s, !hi, m)
  {
    j, m := LeadingPair(s, hi, |s| - 2, |s|);
    C := PairLine(s, hi, j, m);
    hide Value, PairLine;
    Compare(C, F, s, j, m);
    forall p: nat | p < |s| ensures s[p].lo <= Value(C, s, p) <= s[p].hi {
      if p < j {
        Compare(C, F, s, p, j);
      } else if j < p {
        Compare(C, PairLine(s, hi, j, p), s, j, p);
      }
      if p < m {
        Compare(C, PairLine(s, hi, p, m), s, p, m);
      } else if m < p {
        Compare(C, F, s, m, p);
      }
    }
    forall G | Feasible(s, G) ensures Inside(hi, C.slope, G.slope) {
      Compare(C, G, s, j, m);
    }
  }

  /** The line meets the near curve at one sample only; if that is the oldest, its slope is beyond the initial one. */
  ghost predicate TouchesOnce(s: seq<Sample>, hi: bool, C: Line) {
    exists j: nat :: OnlyAt(s, hi, C, j)
  }

  ghost predicate OnlyAt(s: seq<Sample>, hi: bool, C: Line, j: nat) {
    && j < |s| && Value(C, s, j) == Curve(s, hi, j)
    && (forall p :: 0 <= p < |s| && p != j ==> Value(C, s, p) != Curve(s, hi, p))
    && (j == 0 ==> if hi then C.slope > -500.0 else C.slope < 500.0)
  }

  /** There is a crossing exactly when the extreme fitting line touches its near curve once. */
  lemma CrossesExactly(s: seq<Sample>, hi: bool, F: Line)
    requires Ordered(s) && Feasible(s, F)
    ensures (exists C, j, m :: Crossing(s, hi, C, j, m)) <==> exists C :: Extreme(s, hi, C) && TouchesOnce(s, hi, C)
  {
    hide Value;
    if C, j, m :| Crossing(s, hi, C, j, m) {
      CrossingIsExtreme(s, hi, C, j, m, F);
      forall G | Feasible(s, G) ensures Inside(hi, C.slope, G.slope) {
        CrossingIsExtreme(s, hi, C, j, m, G);
      }
      assert OnlyAt(s, hi, C, j);
      assert Extreme(s, hi, C) && TouchesOnce(s, hi, C);
    }
    if C :| Extreme(s, hi, C) && TouchesOnce(s, hi, C) {
      var D, j, m := ExtremeExists(s, hi, F);
      Compare(C, D, s, j, m);
      var j' :| OnlyAt(s, hi, C, j');
      assert j' == j;
      assert Crossing(s, hi, C, j, m);
    }
  }

  /** There is only one extreme line: any two agree at every sample. */
  lemma ExtremeUnique(s: seq<Sample>, hi: bool, C: Line, D: Line, p: nat)
    requires Ordered(s) && Extreme(s, hi, C) && Extreme(s, hi, D) && p < |s|
    ensures Value(C, s, p) == Value(D, s, p)
  {
    hide Value;
    var E, j, m := ExtremeExists(s, hi, C);
    Compare(C, D, s, j, m);
    Compare(C, E, s, j, m);
    Compare(D, E, s, j, m);
    if p < j {
      Compare(C, D, s, p, j);
    } else if j < p {
      Compare(C, D, s, j, p);
    }
  }

  /** The extreme line that meets its near curve twice is no crossing, and no other line is one. */
  lemma TwoTouchesNoCrossing(s: seq<Sample>, hi: bool, C: Line, j: nat, m: nat)
    requires Ordered(s) && Extreme(s, hi, C) && j < |s| && m < |s| && j != m
    requires Value(C, s, j) == Curve(s, hi, j) && Value(C, s, m) == Curve(s, hi, m)
    ensures !exists D :: Extreme(s, hi, D) && TouchesOnce(s, hi, D)
    ensures !exists D, j', m' :: Crossing(s, hi, D, j', m')
  {
    hide Value;
    CrossesExactly(s, hi, C);
    if D :| Extreme(s, hi, D) && TouchesOnce(s, hi, D) {
      ExtremeUnique(s, hi, C, D, j);
      ExtremeUnique(s, hi, C, D, m);
    }
  }

  /** Sixteen samples whose oldest bounds are swapped. */
  function ImproperSamples(): (s: seq<Sample>)
    ensures |s| == 16
  {
    seq(16, i => if i == 0 then Sample(0.0, 15.0, -15.0) else Sample(i as real, -30.0, 30.0))
  }

  lemma ImproperIsOrdered()
    ensures Ordered(ImproperSamples()) && !Proper(ImproperSamples())
    ensures !exists F :: Feasible(ImproperSamples(), F)
  {
    var s := ImproperSamples();
    assert forall p :: 0 <= p < 16 ==> s[p].t == p as real;
    assert !(s[0].lo <= s[0].hi);
  }

  /** Both crossings exist on them. */
  lemma ImproperCrosses() returns (C: Line, D: Line)
    ensures Crossing(ImproperSamples(), true, C, 0, 15) && Crossing(ImproperSamples(), false, D, 0, 15)
  {
    C, D := Line(-1.0, -30.0), Line(1.0, 30.0);
  }

  /** Every crossing of the one kind falls on them and every one of the other kind rises. */
  lemma ImproperSlopes(hi: bool, L: Line, j: nat, m: nat)
    requires Crossing(ImproperSamples(), hi, L, j, m)
    ensures Strictly(hi, L.slope, 0.0)
  {
    ImproperIsOrdered();
    var s, zero := ImproperSamples(), Line(0.0, 0.0);
    assert Strictly(hi, Curve(s, !hi, m), Curve(s, hi, j));
    assert Value(zero, s, j) == 0.0 == Value(zero, s, m);
    hide Value, ImproperSamples;
    Compare(L, zero, s, j, m);
  }
}
