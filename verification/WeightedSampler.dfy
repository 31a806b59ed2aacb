/** The weighted sampler of one table cell: 41 byte counters that are drawn from, rewarded and renormalised. */
module WeightedSampler {

  const LEVELS := 41

  /** The sum of the first `k` counters. */
  function Prefix(sta: seq<nat>, k: nat): nat
    requires k <= |sta|
  {
    if k == 0 then 0 else Prefix(sta, k - 1) + sta[k - 1]
  }

  /** Counters between updates: never zero, and below the renormalisation limit. */
  predicate InRange(sta: seq<nat>) {
    |sta| == LEVELS && forall k :: 0 <= k < LEVELS ==> 1 <= sta[k] <= 244
  }

  /** Residue `y` is drawn from bucket `k`: 0..sta[0] from the first, then half-open from the left. */
  predicate Draws(sta: seq<nat>, k: nat, y: nat)
    requires k < |sta|
  {
    (k == 0 || Prefix(sta, k) < y) && y <= Prefix(sta, k + 1)
  }

  lemma {:induction false} PrefixGrows(sta: seq<nat>, j: nat, k: nat)
    requires j <= k <= |sta|
    ensures Prefix(sta, j) <= Prefix(sta, k)
    decreases k
  {
    if j < k {
      PrefixGrows(sta, j, k - 1);
    }
  }

  lemma {:induction false} PrefixBounds(sta: seq<nat>, k: nat)
    requires InRange(sta) && k <= LEVELS
    ensures k <= Prefix(sta, k) <= 244 * k
  {
    if k > 0 {
      PrefixBounds(sta, k - 1);
    }
  }

  lemma DrawnOnce(sta: seq<nat>, j: nat, k: nat, y: nat)
    requires j < |sta| && k < |sta| && Draws(sta, j, y) && Draws(sta, k, y)
    ensures j == k
  {
    if j < k {
      PrefixGrows(sta, j + 1, k);
    } else if k < j {
      PrefixGrows(sta, k + 1, j);
    }
  }

  /** The sampling loop: the modulus is positive and a bucket is always found. */
  method Sample(sta: array<nat>, r: nat) returns (dis: nat)
    requires InRange(sta[..])
    ensures dis < LEVELS && Prefix(sta[..], LEVELS) > 0 && Draws(sta[..], dis, r % Prefix(sta[..], LEVELS))
  {
    ghost var c := sta[..];
    PrefixBounds(c, LEVELS);
    var s := 0;
    for k := 0 to LEVELS
      invariant s == Prefix(c, k)
    {
      s := s + sta[k];
    }
    var y := r % s;
    ghost var y0 := y;
    for k := 0 to LEVELS
      invariant y + Prefix(c, k) == y0 && (k == 0 || y > 0)
    {
      if y > sta[k] {
        y := y - sta[k];
      } else {
        return k;
      }
    }
    assert false;
  }

  function Residues(sta: seq<nat>, k: nat): set<nat>
    requires k < |sta| == LEVELS
  {
    set y: nat | 0 <= y < Prefix(sta, LEVELS) && Draws(sta, k, y)
  }

  function Interval(a: nat, b: nat): (r: set<nat>)
    requires a <= b
    ensures forall y: nat :: y in r <==> a <= y < b
    ensures |r| == b - a
  {
    if a == b then {} else Interval(a, b - 1) + {b - 1}
  }

  lemma PrefixNext(sta: seq<nat>, k: nat)
    requires k < |sta|
    ensures Prefix(sta, 0) == 0 && Prefix(sta, k + 1) == Prefix(sta, k) + sta[k]
  {
  }

  /** The residues of a bucket lie between its two prefix sums; the last sum itself is not a residue. */
  lemma ResiduesAre(sta: seq<nat>, k: nat, a: nat, b: nat)
    requires k < |sta| == LEVELS && a <= b
    requires a == if k == 0 then 0 else Prefix(sta, k) + 1
    requires b == if k == LEVELS - 1 then Prefix(sta, LEVELS) else Prefix(sta, k + 1) + 1
    requires k < LEVELS - 1 ==> Prefix(sta, k + 1) < Prefix(sta, LEVELS)
    ensures Residues(sta, k) == Interval(a, b)
  {
    hide Prefix, Interval;
    forall y: nat ensures y in Residues(sta, k) <==> a <= y < b { }
  }

  /** Among all residues bucket k is hit as often as its counter says, but the first bucket takes one from the last. */
  lemma HitCounts(sta: seq<nat>, k: nat)
    requires InRange(sta) && k < LEVELS
    ensures |Residues(sta, k)| == if k == 0 then sta[k] + 1 else if k == LEVELS - 1 then sta[k] - 1 else sta[k]
  {
    hide Prefix, Residues, Interval;
    PrefixNext(sta, k);
    if k < LEVELS - 1 {
      PrefixNext(sta, k + 1);
      PrefixGrows(sta, k + 2, LEVELS);
    }
    var a := if k == 0 then 0 else Prefix(sta, k) + 1;
    var b := if k == LEVELS - 1 then Prefix(sta, LEVELS) else Prefix(sta, k + 1) + 1;
    ResiduesAre(sta, k, a, b);
  }

  // ---------- feedback ----------

  /** One counter after the reward `fb`, stored in an unsigned byte. */
  function Reward(x: nat, fb: int): nat {
    if x + fb >= 1 then (x + fb) % 256 else 1
  }

  function Largest(sta: seq<nat>, n: nat): nat
    requires n <= |sta|
  {
    if n == 0 then 0
    else var m := Largest(sta, n - 1); if m > sta[n - 1] then m else sta[n - 1]
  }

  /** Renormalisation: halved, rounding up, when the largest reaches 245; doubled when none exceeds 80. */
  function Renorm(x: nat, largest: nat): nat {
    if largest >= 245 then (x + 1) / 2 else if largest <= 80 then x * 2 % 256 else x
  }

  function Updated(sta: seq<nat>, dis: nat, fb: int): (r: seq<nat>)
    requires dis < |sta|
    ensures |r| == |sta|
  {
    if fb == 0 then sta
    else
      var t := sta[dis := Reward(sta[dis], fb)];
      seq(|t|, k requires 0 <= k < |t| => Renorm(t[k], Largest(t, |t|)))
  }

  lemma {:induction false} LargestIs(sta: seq<nat>, n: nat)
    requires n <= |sta|
    ensures forall k :: 0 <= k < n ==> sta[k] <= Largest(sta, n)
    ensures n > 0 ==> exists k :: 0 <= k < n && sta[k] == Largest(sta, n)
  {
    if n > 0 {
      LargestIs(sta, n - 1);
    }
  }

  /** The feedback of `output_none` on one cell, in place. */
  method Feedback(sta: array<nat>, dis: nat, fb: int)
    requires sta.Length == LEVELS && dis < LEVELS
    modifies sta
    ensures sta[..] == Updated(old(sta[..]), dis, fb)
  {
    if fb == 0 {
      return;
    }
    ghost var t := sta[..][dis := Reward(sta[dis], fb)];
    var tmp := sta[dis] + fb;
    if tmp >= 1 {
      sta[dis] := tmp % 256;
    } else {
      sta[dis] := 1;
    }
    assert sta[..] == t;
    var max := 0;
    for z := 0 to LEVELS
      invariant max == Largest(t, z)
    {
      max := if max > sta[z] then max else sta[z];
    }
    if max >= 245 {
      for z := 0 to LEVELS
        invariant forall k :: 0 <= k < LEVELS ==> sta[k] == if k < z then (t[k] + 1) / 2 else t[k]
      {
        sta[z] := (sta[z] + 1) / 2;
      }
    } else if max <= 80 {
      for z := 0 to LEVELS
        invariant forall k :: 0 <= k < LEVELS ==> sta[k] == if k < z then t[k] * 2 % 256 else t[k]
      {
        sta[z] := sta[z] * 2 % 256;
      }
    }
  }

  lemma RenormFits(x: nat, largest: nat)
    requires 1 <= x <= largest <= 255
    ensures 1 <= Renorm(x, largest) <= 244
  {
  }

  lemma RewardFits(x: nat, fb: int)
    requires 1 <= x <= 244 && -128 <= fb <= 11
    ensures 1 <= Reward(x, fb) <= 255
  {
  }

  lemma SmallFeedbackFits(sta: seq<nat>, dis: nat, fb: int)
    requires InRange(sta) && dis < LEVELS && -128 <= fb <= 11
    ensures InRange(Updated(sta, dis, fb))
  {
    hide Renorm, Reward, Largest;
    var t := sta[dis := Reward(sta[dis], fb)];
    RewardFits(sta[dis], fb);
    LargestIs(t, LEVELS);
    forall k | 0 <= k < LEVELS ensures 1 <= Renorm(t[k], Largest(t, LEVELS)) <= 244 {
      RenormFits(t[k], Largest(t, LEVELS));
    }
  }

  lemma LargeFeedbackWraps(fb: int) returns (sta: seq<nat>)
    requires 12 <= fb < 128
    ensures InRange(sta) && !InRange(Updated(sta, 0, fb))
  {
    sta := seq(LEVELS, _ => 256 - fb);
    assert Reward(sta[0], fb) == 0;
    assert Updated(sta, 0, fb)[0] == 0;
  }

  /** Every cell in range stays in range, whatever is rewarded, if and only if the feedback is at most 11; from 12 on
      some counter wraps to zero. */
  lemma FeedbackKeepsRange(fb: int)
    requires -128 <= fb < 128
    ensures fb <= 11 <==>
            forall sta: seq<nat>, dis: nat :: InRange(sta) && dis < LEVELS ==> InRange(Updated(sta, dis, fb))
  {
    if fb <= 11 {
      forall sta: seq<nat>, dis: nat | InRange(sta) && dis < LEVELS ensures InRange(Updated(sta, dis, fb)) {
        SmallFeedbackFits(sta, dis, fb);
      }
    } else {
      var sta := LargeFeedbackWraps(fb);
    }
  }

  // ---------- what feedback does to the draws ----------

  /** The drawn bucket's counter after the reward, not below 1, and the other counters as they were. */
  function Rewarded(sta: seq<nat>, dis: nat, fb: int, k: nat): int
    requires k < |sta|
  {
    if k != dis then sta[k] else if sta[k] + fb < 1 then 1 else sta[k] + fb
  }

  ghost predicate TooLarge(sta: seq<nat>, dis: nat, fb: int) {
    exists k: nat :: k < |sta| && Rewarded(sta, dis, fb, k) >= 245
  }

  ghost predicate AllSmall(sta: seq<nat>, dis: nat, fb: int) {
    forall k: nat :: k < |sta| ==> Rewarded(sta, dis, fb, k) <= 80
  }

  /** The counters after feedback: the drawn one is rewarded, and then all are halved, rounding up, when one has reached
      245, doubled when none exceeds 80, and left alone otherwise. */
  lemma FeedbackMeans(sta: seq<nat>, dis: nat, fb: int, k: nat)
    requires InRange(sta) && dis < LEVELS && -128 <= fb <= 11 && k < LEVELS
    ensures var t, r := Rewarded(sta, dis, fb, k), Updated(sta, dis, fb)[k];
      if fb == 0 then r == sta[k]
      else if TooLarge(sta, dis, fb) then 2 * r - 1 <= t <= 2 * r
      else if AllSmall(sta, dis, fb) then r == 2 * t
      else r == t
  {
    hide Reward, Largest, Renorm;
    if fb != 0 {
      var t := sta[dis := Reward(sta[dis], fb)];
      forall j: nat | j < LEVELS ensures t[j] == Rewarded(sta, dis, fb, j) {
        RewardMeans(sta[dis], fb);
      }
      LargestIs(t, LEVELS);
      RenormMeans(t[k], Largest(t, LEVELS));
      var j :| 0 <= j < LEVELS && t[j] == Largest(t, LEVELS);
      assert Rewarded(sta, dis, fb, j) == Largest(t, LEVELS);
    }
  }

  lemma RewardMeans(x: nat, fb: int)
    requires 1 <= x <= 244 && -128 <= fb <= 11
    ensures Reward(x, fb) == if x + fb < 1 then 1 else x + fb
  {
  }

  lemma RenormMeans(x: nat, largest: nat)
    requires 1 <= x <= largest <= 255
    ensures var r := Renorm(x, largest);
      if largest >= 245 then 2 * r - 1 <= x <= 2 * r else if largest <= 80 then r == 2 * x else r == x
  {
  }

  /** In the middle range the draws change by exactly the feedback: for the drawn bucket, and for no other. */
  lemma DrawsChange(sta: seq<nat>, dis: nat, fb: int, k: nat)
    requires InRange(sta) && dis < LEVELS && k < LEVELS && -128 <= fb <= 11 && sta[dis] + fb >= 1
    requires !TooLarge(sta, dis, fb) && !AllSmall(sta, dis, fb)
    ensures |Residues(Updated(sta, dis, fb), k)| == |Residues(sta, k)| + if k == dis then fb else 0
  {
    hide Updated, Residues, TooLarge, AllSmall;
    SmallFeedbackFits(sta, dis, fb);
    FeedbackMeans(sta, dis, fb, k);
    HitCounts(sta, k);
    HitCounts(Updated(sta, dis, fb), k);
  }

  /** Feedback keeps the order of the other buckets. */
  lemma OrderKept(sta: seq<nat>, dis: nat, fb: int, j: nat, k: nat)
    requires InRange(sta) && dis < LEVELS && -128 <= fb <= 11
    requires j < LEVELS && k < LEVELS && j != dis && k != dis && sta[j] <= sta[k]
    ensures Updated(sta, dis, fb)[j] <= Updated(sta, dis, fb)[k]
  {
    hide Updated, TooLarge, AllSmall;
    FeedbackMeans(sta, dis, fb, j);
    FeedbackMeans(sta, dis, fb, k);
  }

  /** How many of the first `n` rewarded counters are odd: halving rounds these up. */
  function Odds(sta: seq<nat>, dis: nat, fb: int, n: nat): nat
    requires n <= |sta|
  {
    if n == 0 then 0 else Odds(sta, dis, fb, n - 1) + Rewarded(sta, dis, fb, n - 1) % 2
  }

  lemma {:induction false} SumAfter(sta: seq<nat>, dis: nat, fb: int, n: nat)
    requires InRange(sta) && dis < LEVELS && 0 < fb <= 11 && n <= LEVELS
    ensures var r, t := Prefix(Updated(sta, dis, fb), n), Prefix(sta, n) + if dis < n then fb else 0;
      if TooLarge(sta, dis, fb) then 2 * r == t + Odds(sta, dis, fb, n)
      else if AllSmall(sta, dis, fb) then r == 2 * t
      else r == t
  {
    hide Updated, TooLarge, AllSmall, Prefix, Odds;
    if n == 0 {
      SumNone(sta, dis, fb);
    } else {
      SumAfter(sta, dis, fb, n - 1);
      FeedbackMeans(sta, dis, fb, n - 1);
      PrefixNext(sta, n - 1);
      PrefixNext(Updated(sta, dis, fb), n - 1);
      OddsNext(sta, dis, fb, n);
    }
  }

  lemma SumNone(sta: seq<nat>, dis: nat, fb: int)
    requires dis < |sta|
    ensures Prefix(sta, 0) == 0 == Prefix(Updated(sta, dis, fb), 0) && Odds(sta, dis, fb, 0) == 0
  {
    hide Updated;
  }

  lemma OddsNext(sta: seq<nat>, dis: nat, fb: int, n: nat)
    requires 0 < n <= |sta|
    ensures Odds(sta, dis, fb, n) == Odds(sta, dis, fb, n - 1) + Rewarded(sta, dis, fb, n - 1) % 2
  {
  }

  /** The share of the drawn bucket, in cross products, is not lowered. */
  predicate ShareNotLowered(sta: seq<nat>, dis: nat, fb: int)
    requires dis < |sta|
  {
    var r := Updated(sta, dis, fb);
    r[dis] * Prefix(sta, |sta|) >= sta[dis] * Prefix(r, |r|)
  }

  /** A positive reward never lowers the share of the drawn bucket unless the counters are halved, and then if and only
      if the rounding of the other counters outweighs it. */
  lemma RewardRaisesShare(sta: seq<nat>, dis: nat, fb: int)
    requires InRange(sta) && dis < LEVELS && 0 < fb <= 11
    ensures !TooLarge(sta, dis, fb) ==> ShareNotLowered(sta, dis, fb)
    ensures TooLarge(sta, dis, fb) ==>
              var sum, odd := Prefix(sta, LEVELS), (sta[dis] + fb) % 2;
              (ShareNotLowered(sta, dis, fb) <==>
               sta[dis] * (fb + Odds(sta, dis, fb, LEVELS)) <= (fb + odd) * sum)
  {
    hide TooLarge, AllSmall, Odds, Updated, Prefix, ShareNotLowered;
    var r, s, sum, odds := Updated(sta, dis, fb), sta[dis], Prefix(sta, LEVELS), Odds(sta, dis, fb, LEVELS);
    SumAfter(sta, dis, fb, LEVELS);
    FeedbackMeans(sta, dis, fb, dis);
    ShareOf(sta, dis);
    ShareMeans(sta, dis, fb);
    if TooLarge(sta, dis, fb) {
      Halved(r[dis], Prefix(r, LEVELS), s, sum, fb, (s + fb) % 2, odds);
    } else {
      Grown(r[dis], Prefix(r, LEVELS), s, sum, fb);
    }
  }

  lemma ShareMeans(sta: seq<nat>, dis: nat, fb: int)
    requires |sta| == LEVELS && dis < LEVELS
    ensures var r := Updated(sta, dis, fb);
      ShareNotLowered(sta, dis, fb) <==> r[dis] * Prefix(sta, LEVELS) >= sta[dis] * Prefix(r, LEVELS)
  {
    hide Prefix;
  }

  lemma {:induction false} ShareOf(sta: seq<nat>, dis: nat)
    requires InRange(sta) && dis < LEVELS
    ensures sta[dis] <= Prefix(sta, LEVELS)
  {
    PrefixGrows(sta, dis + 1, LEVELS);
  }

  lemma Grown(r: nat, rest: nat, s: nat, sum: nat, fb: nat)
    requires s <= sum
    requires (r == s + fb && rest == sum + fb) || (r == 2 * (s + fb) && rest == 2 * (sum + fb))
    ensures r * sum >= s * rest
  {
    RatioGrows(s, sum, fb);
    TwiceBoth(s + fb, sum, s, sum + fb);
  }

  lemma RatioGrows(s: nat, sum: nat, fb: nat)
    requires s <= sum
    ensures (s + fb) * sum >= s * (sum + fb)
  {
    var p, q, w := s * sum, fb * sum, s * fb;
    assert (s + fb) * sum == p + q && s * (sum + fb) == p + w;
    assert q - w == fb * (sum - s);
  }

  lemma TwiceBoth(a: int, b: int, c: int, d: int)
    ensures (2 * a) * b == 2 * (a * b) && c * (2 * d) == 2 * (c * d)
  {
  }

  lemma Halved(r: nat, rest: nat, s: nat, sum: nat, fb: nat, odd: nat, odds: nat)
    requires 2 * r == s + fb + odd && 2 * rest == sum + fb + odds
    ensures r * sum >= s * rest <==> s * (fb + odds) <= (fb + odd) * sum
  {
    assert 2 * (r * sum) == (s + fb + odd) * sum == s * sum + (fb + odd) * sum;
    assert 2 * (s * rest) == s * (sum + fb + odds) == s * sum + s * (fb + odds);
  }

  /** The share can be lowered: one counter at 244 and the others at 1, of which rounding keeps every one. */
  lemma RewardLowersShare() returns (sta: seq<nat>)
    ensures InRange(sta) && TooLarge(sta, 0, 1) && !ShareNotLowered(sta, 0, 1)
  {
    sta := [244] + seq(40, _ => 1);
    assert Rewarded(sta, 0, 1, 0) == 245;
    OnesAfter(sta, LEVELS);
    hide Prefix, Odds, ShareNotLowered;
    RewardRaisesShare(sta, 0, 1);
  }

  lemma {:induction false} OnesAfter(sta: seq<nat>, n: nat)
    requires |sta| == LEVELS && sta[0] == 244 && 1 <= n <= LEVELS && forall k :: 1 <= k < LEVELS ==> sta[k] == 1
    ensures Prefix(sta, n) == 243 + n && Odds(sta, 0, 1, n) == n
  {
    if n > 1 {
      OnesAfter(sta, n - 1);
    } else {
      assert Prefix(sta, 0) == 0 && Odds(sta, 0, 1, 0) == 0;
    }
  }

  /** One update of a cell: the bucket that was drawn and the feedback it earned. */
  datatype Reply = Reply(dis: nat, fb: int)

  function AllUpdates(sta: seq<nat>, log: seq<Reply>): (r: seq<nat>)
    requires forall e <- log :: e.dis < |sta|
    ensures |r| == |sta|
  {
    if log == [] then sta
    else Updated(AllUpdates(sta, log[..|log| - 1]), log[|log| - 1].dis, log[|log| - 1].fb)
  }

  /** However long the log, feedback of at most 11 keeps the sampler usable: every counter in range, a positive
      modulus, and every bucket reachable except that the last one needs a counter above 1. */
  lemma {:induction false} AlwaysUsable(sta: seq<nat>, log: seq<Reply>)
    requires InRange(sta) && forall e <- log :: e.dis < LEVELS && -128 <= e.fb <= 11
    ensures InRange(AllUpdates(sta, log))
    ensures Prefix(AllUpdates(sta, log), LEVELS) >= LEVELS
    ensures forall k: nat :: k < LEVELS ==>
                               (Residues(AllUpdates(sta, log), k) == {} <==>
                                k == LEVELS - 1 && AllUpdates(sta, log)[k] == 1)
  {
    var now := AllUpdates(sta, log);
    if log != [] {
      var before, e := log[..|log| - 1], log[|log| - 1];
      AlwaysUsable(sta, before);
      SmallFeedbackFits(AllUpdates(sta, before), e.dis, e.fb);
      assert now == Updated(AllUpdates(sta, before), e.dis, e.fb);
    }
    PrefixBounds(now, LEVELS);
    forall k: nat | k < LEVELS ensures Residues(now, k) == {} <==> k == LEVELS - 1 && now[k] == 1 {
      HitCounts(now, k);
    }
  }
}
