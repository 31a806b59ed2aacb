/** The new clock frequency that a box asks for. */
module PhaseFrequency {
  import opened PhaseGeometry
  import opened PhasePolygon
  import opened PhaseLock

  /** The greatest frequency, in units of 2^-16 parts per million. */
  const MAX_C := MAX_CORRECT * 65536

  const CRIT_TIME := 1000.0

  /** The spread of the box twenty minutes after the newest sample, added to the critical time. */
  function Spread(lo: Line, hi: Line): real {
    CRIT_TIME + (hi.offset - lo.offset) + (hi.slope - lo.slope) * 1200.0
  }

  /** The two crossings are in order at the newest sample and from there on. */
  predicate Opens(lo: Line, hi: Line) {
    lo.slope <= hi.slope && lo.offset <= hi.offset
  }

  /** The change of slope aimed at. */
  function Aim(slope: real, offset: real): real {
    var delta1, delta2 := -offset / 600.0 - slope, -offset / 1800.0 - slope;
    if offset >= 0.0 && delta2 < 0.0 then delta2
    else if offset >= 0.0 && delta1 > 0.0 then delta1
    else if offset < 0.0 && delta1 < 0.0 then delta1
    else if offset < 0.0 && delta2 > 0.0 then delta2
    else 0.0
  }

  /** The box is so far off that nothing fine is asked for. */
  predicate Far(lo: Line, hi: Line) {
    hi.offset < -CRIT_TIME || lo.offset > CRIT_TIME
  }

  /** The fine correction does not use a quotient by zero. */
  predicate Defined(lo: Line, hi: Line) {
    Far(lo, hi) || Spread(lo, hi) != 0.0
  }

  /** `find_df_center`. */
  function FindDfCenter(lo: Line, hi: Line, gross: real): real
    requires Defined(lo, hi)
  {
    if Far(lo, hi) then 0.0
    else CRIT_TIME / Spread(lo, hi) * Aim(MidSlope(lo, hi, gross), MidOffset(lo, hi))
  }

  function MidSlope(lo: Line, hi: Line, gross: real): real {
    0.5 * (hi.slope + lo.slope) + gross
  }

  function MidOffset(lo: Line, hi: Line): real {
    0.5 * (hi.offset + lo.offset)
  }

  /** The slopes that would cancel the present offset within ten to thirty minutes. */
  predicate InBand(offset: real, slope: real) {
    || (-offset <= 600.0 * slope && 1800.0 * slope <= -offset)
    || (-offset <= 1800.0 * slope && 600.0 * slope <= -offset)
  }

  /** The aim is the nearest slope in the band. */
  lemma AimsAtBand(slope: real, offset: real)
    ensures InBand(offset, slope + Aim(slope, offset))
    ensures InBand(offset, slope) ==> Aim(slope, offset) == 0.0
    ensures forall x :: InBand(offset, x) ==>
                          (slope <= slope + Aim(slope, offset) <= x) || (x <= slope + Aim(slope, offset) <= slope)
  {
  }

  lemma Scaled(f: real, x: real)
    requires 0.0 < f <= 1.0
    ensures x >= 0.0 ==> 0.0 <= f * x <= x
    ensures x <= 0.0 ==> x <= f * x <= 0.0
  {
  }

  lemma DampingFactor(lo: Line, hi: Line)
    requires Opens(lo, hi)
    ensures Spread(lo, hi) >= CRIT_TIME && 0.0 < CRIT_TIME / Spread(lo, hi) <= 1.0
  {
  }

  /** The fine correction is damped and never overshoots: it moves the slope towards the nearest slope in the band,
      at most up to it. */
  lemma CorrectionIsDamped(lo: Line, hi: Line, gross: real)
    requires Opens(lo, hi)
    ensures Defined(lo, hi)
    ensures var aim, r := Aim(MidSlope(lo, hi, gross), MidOffset(lo, hi)), FindDfCenter(lo, hi, gross);
      0.0 <= r <= aim || aim <= r <= 0.0
  {
    hide Aim, Spread, Far;
    DampingFactor(lo, hi);
    Scaled(CRIT_TIME / Spread(lo, hi), Aim(MidSlope(lo, hi, gross), MidOffset(lo, hi)));
  }

  /** How far the box is open twenty minutes after the newest sample. */
  function Opening(lo: Line, hi: Line): real {
    (hi.offset + hi.slope * 1200.0) - (lo.offset + lo.slope * 1200.0)
  }

  /** The fine correction takes the share of the aim that the critical time has of itself and the opening of the box:
      all of it when the box is a single line, half of it when it is open by 1000, and nothing when the whole box is
      further off than that. */
  lemma CorrectionShare(lo: Line, hi: Line, gross: real)
    requires Opens(lo, hi)
    ensures Opening(lo, hi) >= 0.0 && Defined(lo, hi)
    ensures var aim := Aim((lo.slope + hi.slope) / 2.0 + gross, (lo.offset + hi.offset) / 2.0);
      if hi.offset < -1000.0 || lo.offset > 1000.0 then FindDfCenter(lo, hi, gross) == 0.0
      else FindDfCenter(lo, hi, gross) * (1000.0 + Opening(lo, hi)) == 1000.0 * aim
           && (FindDfCenter(lo, hi, gross) == 0.0 <==> aim == 0.0)
  {
    hide Aim;
    DampingFactor(lo, hi);
    Share(CRIT_TIME / Spread(lo, hi), Spread(lo, hi), Aim(MidSlope(lo, hi, gross), MidOffset(lo, hi)));
  }

  lemma Share(f: real, d: real, a: real)
    requires d >= CRIT_TIME && f == CRIT_TIME / d
    ensures f * a * d == CRIT_TIME * a && (f * a == 0.0 <==> a == 0.0)
  {
    assert f * d == CRIT_TIME;
    assert f * a * d == (f * d) * a;
  }

  /** Conversion of a double to int: towards zero. */
  function Truncate(x: real): int {
    if x >= 0.0 then x.Floor else -(-x).Floor
  }

  /** The change that a box asks for, in parts per million. */
  function Wanted(verdict: Verdict): real
    requires verdict.Box? && Defined(verdict.saveMin, verdict.saveMax)
  {
    verdict.deltaF + FindDfCenter(verdict.saveMin, verdict.saveMax, verdict.deltaF)
  }

  /** `delta_freq`; where a box on improper samples leads to a quotient by zero, the conversion to int gives
      `anything`. */
  function DeltaFreq(verdict: Verdict, anything: int): int
    requires verdict.Box?
  {
    if !Defined(verdict.saveMin, verdict.saveMax) then anything else Truncate(Wanted(verdict) * 65536.0 + 0.5)
  }

  /** The frequency that `contemplate_data` returns. */
  function Retune(freq: int, verdict: Verdict, anything: int): int {
    if verdict.Box? then
      var computed := freq - DeltaFreq(verdict, anything);
      if computed < -MAX_C then -MAX_C else if computed > MAX_C then MAX_C else computed
    else freq
  }

  /** The change in units: rounded to the nearest, halves upwards, from -0.5 on; below that the conversion towards zero
      leaves it half to one and a half units too high. */
  lemma DeltaFreqMeans(verdict: Verdict, anything: int)
    requires verdict.Box? && Defined(verdict.saveMin, verdict.saveMax)
    ensures var x, k := Wanted(verdict) * 65536.0, DeltaFreq(verdict, anything) as real;
      if x >= -0.5 then x - 0.5 < k <= x + 0.5 else x + 0.5 <= k < x + 1.5
  {
    hide FindDfCenter, Wanted, Defined;
  }

  /** The two lines of a box on proper samples open towards the future, so the correction is well defined. */
  lemma BoxOpens(s: seq<Sample>, verdict: Verdict, lMin: real, rMin: real)
    requires Judged(s, verdict, lMin, rMin) && Proper(s) && verdict.Box?
    ensures Opens(verdict.saveMin, verdict.saveMax)
  {
    hide JudgedBy, BoxFits, Feasible, Crossing;
    VerdictMeaning(s, verdict, lMin, rMin);
    JudgedIsOrdered(s, verdict, lMin, rMin);
    var C, D := verdict.saveMin, verdict.saveMax;
    FitsOf(s, C, D, lMin, rMin);
    var j, m := BoxCrosses(s, verdict, lMin, rMin);
    CrossingOpens(s, C, D, j, m);
  }

  lemma BoxCrosses(s: seq<Sample>, verdict: Verdict, lMin: real, rMin: real) returns (j: nat, m: nat)
    requires Judged(s, verdict, lMin, rMin) && verdict.Box?
    ensures Crossing(s, true, verdict.saveMin, j, m)
  {
    hide Crossing;
    j, m :| Crossing(s, true, verdict.saveMin, j, m);
  }

  lemma CrossingOpens(s: seq<Sample>, C: Line, D: Line, j: nat, m: nat)
    requires Ordered(s) && Crossing(s, true, C, j, m) && Feasible(s, C) && Feasible(s, D)
    ensures Opens(C, D)
  {
    CrossingIsExtreme(s, true, C, j, m, D);
    var n := |s| - 1;
    assert Value(C, s, n) == C.offset && Value(D, s, n) == D.offset;
    hide Value;
    if m < n {
      Compare(D, C, s, m, n);
    }
  }

  /** A box always yields a frequency within 250 ppm, any other verdict keeps the frequency. Short of that limit the
      change is the one asked for to within 1.5 units, wherever that is defined. */
  lemma NewFrequency(verdict: Verdict, freq: int, anything: int)
    ensures !verdict.Box? ==> Retune(freq, verdict, anything) == freq
    ensures verdict.Box? ==> -16_384_000 <= Retune(freq, verdict, anything) <= 16_384_000
    ensures verdict.Box? && Defined(verdict.saveMin, verdict.saveMax) ==>
      var change := verdict.deltaF + FindDfCenter(verdict.saveMin, verdict.saveMax, verdict.deltaF);
      var r, want := Retune(freq, verdict, anything), freq as real - 65536.0 * change;
      && (-MAX_C < r < MAX_C ==> -1.5 < r as real - want < 1.5)
      && (r == MAX_C ==> want > MAX_C as real - 1.5) && (r == -MAX_C ==> want < -MAX_C as real + 1.5)
  {
    hide FindDfCenter, Defined;
  }

  /** The gross shift goes the right way. On proper samples of a box that is not pulled to both sides, take the setting
      that is lower by the gross shift, where that is a whole number of units: corrected to it, the same readings are
      fitted by a line that asks for no shift any more. */
  lemma GrossRetune(h: seq<Reading>, freq: int, verdict: Verdict, lMin: real, rMin: real, k: int)
    requires Judged(Corrected(h, freq), verdict, lMin, rMin) && Proper(Corrected(h, freq)) && verdict.Box?
    requires !verdict.bothSides && lMin < MIN_INIT && rMin < MIN_INIT
    requires k as real / 65536.0 == verdict.deltaF
    ensures exists F :: Feasible(Corrected(h, freq - k), F) && Settles(F)
  {
    hide Corrected, Feasible, Settles, Judged, Shift;
    BoxShifts(Corrected(h, freq), verdict, lMin, rMin);
    var F :| Feasible(Corrected(h, freq), F) && Settles(Moved(F, verdict.deltaF));
    RetuningTurns(h, freq, k, F);
    assert Feasible(Corrected(h, freq - k), Moved(F, verdict.deltaF));
  }

  /** What the caller of `contemplate_data` gets for a reading: the same frequency until sixteen readings are in and
      whenever they are inconsistent, and otherwise one within 250 ppm. When every error bar in the ring reaches
      `min_delay` the change is always defined. */
  method NextFrequency(lock: PhaseLoop, absolute: nat, skew: real, errorbar: real, freq: int, anything: int)
    returns (verdict: Verdict, computed: int)
    requires lock.Valid() && absolute < 0x1_0000_0000
    requires forall r :: r in lock.history ==> r.absolute < absolute
    modifies lock, lock.ring, lock.maxseg, lock.minseg
    ensures lock.Valid()
    ensures lock.history == LastOf(old(lock.history) + [Reading(absolute, skew, errorbar - lock.minDelay, freq)])
    ensures verdict.Filling? <==> |lock.history| < RING_SIZE
    ensures !verdict.Filling? ==> Judged(Corrected(lock.history, freq), verdict, lock.lMin, lock.rMin)
    ensures computed == Retune(freq, verdict, anything)
    ensures !verdict.Box? ==> computed == freq
    ensures verdict.Box? ==> -MAX_C <= computed <= MAX_C
    ensures verdict.Box? && Defined(verdict.saveMin, verdict.saveMax) && -MAX_C < computed < MAX_C ==>
              -1.5 < computed as real - (freq as real - 65536.0 * Wanted(verdict)) < 1.5
    ensures verdict.Box? && (forall i :: 0 <= i < |lock.history| ==> lock.history[i].errorbar >= 0.0) ==>
              Defined(verdict.saveMin, verdict.saveMax)
  {
    hide Judged, Spread, Far, DeltaFreq, Opens;
    verdict := lock.ContemplateData(absolute, skew, errorbar, freq);
    computed := Retune(freq, verdict, anything);
    NewFrequency(verdict, freq, anything);
    ghost var h := lock.history;
    ProperHistory(h, freq);
    if verdict.Box? && forall i :: 0 <= i < |h| ==> h[i].errorbar >= 0.0 {
      BoxOpens(Corrected(h, freq), verdict, lock.lMin, lock.rMin);
      DampingFactor(verdict.saveMin, verdict.saveMax);
    }
  }
}
