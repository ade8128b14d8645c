/**
 Heat-release-rate curves of the t-squared fire model: growth alpha·t² up to
 the peak, a constant plateau, then a linear decay clipped to [0, peak].
 Two instances are drawn, an OSB panel fire and a reference train-car fire,
 and their pointwise sum on one shared time grid is the cumulative curve.

 The time of peak is sqrt(peak / alpha), which is irrational for both
 instances; it is therefore a parameter of a profile, tied to the other
 figures by `alpha * tPeak * tPeak == peak`.
 */
module Hrr {

  datatype Profile = Profile(alpha: real, peak: real, tPeak: real, plateau: real, decay: real)
  {
    /** The figures of a well-formed profile; `tPeak` is the square root of peak / alpha. */
    predicate Valid()
    {
      && 0.0 <= alpha
      && 0.0 <= tPeak
      && alpha * tPeak * tPeak == peak
      && 0.0 <= plateau
      && 0.0 < decay
    }

    /** The instant the decay starts (s). */
    function PlateauEnd(): real
    {
      tPeak + plateau
    }

    /** The instant the curve reaches zero (s). */
    function End(): real
    {
      tPeak + plateau + decay
    }
  }

  /** `x` limited to the interval [lo, hi] (the upper limit wins if they cross). */
  function Clip(x: real, lo: real, hi: real): (r: real)
    ensures lo <= hi ==> lo <= r <= hi
    ensures lo <= x <= hi ==> r == x
    ensures lo <= hi && x <= lo ==> r == lo
    ensures lo <= hi && hi <= x ==> r == hi
  {
    var y := if x < lo then lo else x;
    if y > hi then hi else y
  }

  /** The growth law alpha·t². */
  function Growth(p: Profile, t: real): real
  {
    p.alpha * t * t
  }

  /** The unclipped decay line, equal to the peak when the plateau ends and falling by peak/decay per second. */
  function DecayLine(p: Profile, t: real): real
    requires 0.0 < p.decay
  {
    p.peak * (1.0 - (t - p.PlateauEnd()) / p.decay)
  }

  /** Squaring is monotone on the non-negative reals. */
  lemma SquareMonotone(a: real, b: real)
    requires 0.0 <= a <= b
    ensures a * a <= b * b
  {
    assert a * a <= a * b;
    assert a * b <= b * b;
  }

  /** On [0, tPeak] the growth law rises from 0 to the peak. */
  lemma GrowthMonotone(p: Profile, t1: real, t2: real)
    requires p.Valid()
    requires 0.0 <= t1 <= t2 <= p.tPeak
    ensures 0.0 <= Growth(p, t1) <= Growth(p, t2) <= p.peak
  {
    SquareMonotone(t1, t2);
    SquareMonotone(t2, p.tPeak);
    assert p.alpha * (t1 * t1) <= p.alpha * (t2 * t2);
    assert p.alpha * (t2 * t2) <= p.alpha * (p.tPeak * p.tPeak);
  }

  /** Scaling by a non-negative factor keeps the order. */
  lemma ScaleMonotone(k: real, x: real, y: real)
    requires 0.0 <= k && x <= y
    ensures k * x <= k * y
  {
    assert k * y - k * x == k * (y - x);
  }

  /** Dividing by a positive number keeps the order. */
  lemma RatioMonotone(a: real, b: real, d: real)
    requires a <= b && 0.0 < d
    ensures a / d <= b / d
    ensures d / d == 1.0 && 0.0 / d == 0.0
  {
    assert b / d - a / d == (b - a) / d;
  }

  /** The factor 1 - f scaled by a non-negative peak: falling in f, within [0, peak] for f in [0, 1]. */
  lemma ScaledFactor(peak: real, f1: real, f2: real)
    requires 0.0 <= peak && 0.0 <= f1 <= f2
    ensures peak * (1.0 - f2) <= peak * (1.0 - f1) <= peak
    ensures f1 <= 1.0 ==> 0.0 <= peak * (1.0 - f1)
    ensures 1.0 <= f1 ==> peak * (1.0 - f1) <= 0.0
  {
    ScaleMonotone(peak, 1.0 - f2, 1.0 - f1);
    ScaleMonotone(peak, 1.0 - f1, 1.0);
    if f1 <= 1.0 {
      ScaleMonotone(peak, 0.0, 1.0 - f1);
    }
    if 1.0 <= f1 {
      ScaleMonotone(peak, 1.0 - f1, 0.0);
    }
  }

  /** The elapsed share s/d of a decay of duration d: in [0, 1] while s <= d, at least 1 after. */
  lemma DecayFraction(s1: real, s2: real, d: real)
    requires 0.0 <= s1 <= s2 && 0.0 < d
    ensures 0.0 <= s1 / d <= s2 / d
    ensures s1 <= d ==> s1 / d <= 1.0
    ensures d <= s1 ==> 1.0 <= s1 / d
  {
    RatioMonotone(0.0, s1, d);
    RatioMonotone(s1, s2, d);
    if s1 <= d {
      RatioMonotone(s1, d, d);
    }
    if d <= s1 {
      RatioMonotone(d, s1, d);
    }
  }

  /** Past the plateau the decay line falls, and stays within [0, peak] until the end. */
  lemma DecayLineMonotone(p: Profile, t1: real, t2: real)
    requires p.Valid()
    requires p.PlateauEnd() <= t1 <= t2
    ensures DecayLine(p, t2) <= DecayLine(p, t1) <= p.peak
    ensures t1 <= p.End() ==> 0.0 <= DecayLine(p, t1)
    ensures p.End() <= t1 ==> DecayLine(p, t1) <= 0.0
  {
    var s1 := t1 - p.PlateauEnd();
    var s2 := t2 - p.PlateauEnd();
    DecayFraction(s1, s2, p.decay);
    assert 0.0 <= p.peak by { SquareMonotone(0.0, p.tPeak); }
    ScaledFactor(p.peak, s1 / p.decay, s2 / p.decay);
  }

  /** A well-formed profile has a non-negative peak. */
  lemma PeakNonNegative(p: Profile)
    ensures p.Valid() ==> 0.0 <= p.peak
  {
    if p.Valid() {
      SquareMonotone(0.0, p.tPeak);
    }
  }

  /** During growth a well-formed profile stays within [0, peak]. */
  lemma GrowthBounded(p: Profile, t: real)
    ensures p.Valid() && 0.0 <= t <= p.tPeak ==> 0.0 <= Growth(p, t) <= p.peak
  {
    if p.Valid() && 0.0 <= t <= p.tPeak {
      GrowthMonotone(p, t, t);
    }
  }

  /** Heat release rate (kW) of a profile at time t (s). */
  function Rate(p: Profile, t: real): (h: real)
    requires 0.0 < p.decay
    ensures p.Valid() && 0.0 <= t ==> 0.0 <= h <= p.peak
  {
    if t > p.PlateauEnd() then
      PeakNonNegative(p);
      Clip(DecayLine(p, t), 0.0, p.peak)
    else if t < p.tPeak then
      GrowthBounded(p, t);
      Growth(p, t)
    else p.peak
  }

  /** The four phases of the curve. */
  lemma HrrPhases(p: Profile, t: real)
    requires p.Valid()
    ensures t < p.tPeak ==> Rate(p, t) == Growth(p, t)
    ensures p.tPeak <= t <= p.PlateauEnd() ==> Rate(p, t) == p.peak
    ensures p.PlateauEnd() < t < p.End() ==> Rate(p, t) == DecayLine(p, t)
    ensures p.End() <= t ==> Rate(p, t) == 0.0
  {
    if p.PlateauEnd() < t {
      DecayLineMonotone(p, t, t);
    }
  }

  /**
   The phases join without a jump: growth reaches the plateau value at tPeak,
   the decay line starts at the plateau value and reaches zero exactly at the end.
   */
  lemma HrrContinuity(p: Profile)
    requires p.Valid()
    ensures Growth(p, p.tPeak) == Rate(p, p.tPeak) == p.peak
    ensures DecayLine(p, p.PlateauEnd()) == Rate(p, p.PlateauEnd()) == p.peak
    ensures DecayLine(p, p.End()) == Rate(p, p.End()) == 0.0
  {
    HrrPhases(p, p.End());
  }

  /** Up to the end of the plateau the curve never falls. */
  lemma HrrRising(p: Profile, t1: real, t2: real)
    requires p.Valid()
    requires 0.0 <= t1 <= t2 <= p.PlateauEnd()
    ensures Rate(p, t1) <= Rate(p, t2)
  {
    if t2 < p.tPeak {
      GrowthMonotone(p, t1, t2);
    }
  }

  /** From the end of the plateau on the curve never rises. */
  lemma HrrFalling(p: Profile, t1: real, t2: real)
    requires p.Valid()
    requires p.PlateauEnd() <= t1 <= t2
    ensures Rate(p, t2) <= Rate(p, t1)
  {
    DecayLineMonotone(p, t1, t2);
    if t1 > p.PlateauEnd() {
      DecayLineMonotone(p, t1, t1);
    }
  }

  /** Length of the simulated window (s). */
  const Window: real := 1200.0

  /** The OSB panel fire (100 m²): 10 MW peak, alpha 0.047 kW/s², 300 s plateau, 300 s decay. */
  function OsbProfile(tPeak: real): (p: Profile)
    ensures 0.0 < p.decay
    ensures p.Valid() <==> 0.0 <= tPeak && 0.047 * tPeak * tPeak == 10000.0
  {
    Profile(0.047, 10000.0, tPeak, 300.0, 300.0)
  }

  /** The reference train-car fire: 7 MW peak, alpha 0.012 kW/s², 400 s plateau, 400 s decay. */
  function RameProfile(tPeak: real): (p: Profile)
    ensures 0.0 < p.decay
    ensures p.Valid() <==> 0.0 <= tPeak && 0.012 * tPeak * tPeak == 7000.0
  {
    Profile(0.012, 7000.0, tPeak, 400.0, 400.0)
  }

  /** A non-negative t with alpha·t² between alpha·lo² and alpha·hi² lies between lo and hi. */
  lemma RootBetween(alpha: real, t: real, lo: real, hi: real)
    requires 0.0 < alpha && 0.0 <= lo <= hi && 0.0 <= t
    requires alpha * lo * lo < alpha * t * t < alpha * hi * hi
    ensures lo < t < hi
  {
    if t <= lo {
      SquareMonotone(t, lo);
    }
    if hi <= t {
      SquareMonotone(hi, t);
    }
  }

  /** The OSB fire peaks at about 461 s and is out before the 1200 s window closes. */
  lemma OsbOutWithinWindow(tPeak: real)
    requires OsbProfile(tPeak).Valid()
    ensures 461.0 < tPeak < 462.0
    ensures OsbProfile(tPeak).End() < Window
    ensures Rate(OsbProfile(tPeak), Window) == 0.0
  {
    RootBetween(0.047, tPeak, 461.0, 462.0);
    HrrPhases(OsbProfile(tPeak), Window);
  }

  /**
   The train-car fire peaks at about 764 s and is still decaying when the
   window closes, at about 6.4 MW.
   */
  lemma RameDecayingAtWindowEnd(tPeak: real)
    requires RameProfile(tPeak).Valid()
    ensures 763.7 < tPeak < 763.8
    ensures RameProfile(tPeak).PlateauEnd() < Window < RameProfile(tPeak).End()
    ensures 6364.0 < Rate(RameProfile(tPeak), Window) < 6367.0
  {
    RootBetween(0.012, tPeak, 763.7, 763.8);
    HrrPhases(RameProfile(tPeak), Window);
  }

  /** The contribution of one source to the cumulative curve: its curve when active, zero otherwise. */
  function Active(on: bool, p: Profile, t: real): (h: real)
    requires 0.0 < p.decay
    ensures !on ==> h == 0.0
    ensures on ==> h == Rate(p, t)
    ensures on && p.Valid() && 0.0 <= t ==> 0.0 <= h <= p.peak
  {
    if on then Rate(p, t) else 0.0
  }

  predicate NonNegativeGrid(grid: seq<real>)
  {
    forall i :: 0 <= i < |grid| ==> 0.0 <= grid[i]
  }

  /** `acc` with the curve of `p`, sampled on `grid`, added sample by sample. */
  method AddCurve(acc: seq<real>, p: Profile, grid: seq<real>) returns (r: seq<real>)
    requires 0.0 < p.decay
    requires |acc| == |grid|
    ensures |r| == |grid|
    ensures forall i :: 0 <= i < |grid| ==> r[i] == acc[i] + Rate(p, grid[i])
  {
    r := [];
    var i := 0;
    while i < |grid|
      invariant 0 <= i <= |grid|
      invariant |r| == i
      invariant forall k :: 0 <= k < i ==> r[k] == acc[k] + Rate(p, grid[k])
    {
      r := r + [acc[i] + Rate(p, grid[i])];
      i := i + 1;
    }
  }

  /**
   The cumulative curve on `grid`: zero, plus the OSB curve when that source
   is active, plus the train-car curve when that source is active.
   */
  method Cumulative(grid: seq<real>, osbOn: bool, rameOn: bool, osbTPeak: real, rameTPeak: real)
    returns (total: seq<real>)
    ensures |total| == |grid|
    ensures forall i :: 0 <= i < |grid| ==>
      total[i] == Active(osbOn, OsbProfile(osbTPeak), grid[i]) + Active(rameOn, RameProfile(rameTPeak), grid[i])
  {
    total := seq(|grid|, _ => 0.0);
    if osbOn {
      total := AddCurve(total, OsbProfile(osbTPeak), grid);
    }
    if rameOn {
      total := AddCurve(total, RameProfile(rameTPeak), grid);
    }
  }

  /** The sum of the peaks of the active sources (kW): 10000 for the OSB fire, 7000 for the train-car fire. */
  function ActivePeaks(osbOn: bool, rameOn: bool): real
  {
    (if osbOn then 10000.0 else 0.0) + (if rameOn then 7000.0 else 0.0)
  }

  /**
   At each instant the cumulative value is zero when no source is active,
   at least each active source's own value, and at most the sum of the active
   sources' peaks.
   */
  lemma CumulativeBounds(osbOn: bool, rameOn: bool, osbTPeak: real, rameTPeak: real, t: real)
    requires OsbProfile(osbTPeak).Valid() && RameProfile(rameTPeak).Valid()
    requires 0.0 <= t
    ensures var c := Active(osbOn, OsbProfile(osbTPeak), t) + Active(rameOn, RameProfile(rameTPeak), t);
      && (!osbOn && !rameOn ==> c == 0.0)
      && (osbOn ==> Rate(OsbProfile(osbTPeak), t) <= c)
      && (rameOn ==> Rate(RameProfile(rameTPeak), t) <= c)
      && 0.0 <= c <= ActivePeaks(osbOn, rameOn)
  {
  }

  /** Every sample of a cumulative curve on a non-negative grid obeys the bounds of CumulativeBounds. */
  lemma CumulativeSamplesBounded(grid: seq<real>, osbOn: bool, rameOn: bool, osbTPeak: real, rameTPeak: real,
                                 total: seq<real>)
    requires OsbProfile(osbTPeak).Valid() && RameProfile(rameTPeak).Valid()
    requires NonNegativeGrid(grid)
    requires |total| == |grid|
    requires forall i :: 0 <= i < |grid| ==>
      total[i] == Active(osbOn, OsbProfile(osbTPeak), grid[i]) + Active(rameOn, RameProfile(rameTPeak), grid[i])
    ensures forall i :: 0 <= i < |total| ==> 0.0 <= total[i] <= ActivePeaks(osbOn, rameOn)
    ensures !osbOn && !rameOn ==> forall i :: 0 <= i < |total| ==> total[i] == 0.0
    ensures osbOn ==> forall i :: 0 <= i < |total| ==> Rate(OsbProfile(osbTPeak), grid[i]) <= total[i]
    ensures rameOn ==> forall i :: 0 <= i < |total| ==> Rate(RameProfile(rameTPeak), grid[i]) <= total[i]
  {
    forall i | 0 <= i < |total|
      ensures 0.0 <= total[i] <= ActivePeaks(osbOn, rameOn)
      ensures osbOn ==> Rate(OsbProfile(osbTPeak), grid[i]) <= total[i]
      ensures rameOn ==> Rate(RameProfile(rameTPeak), grid[i]) <= total[i]
    {
      CumulativeBounds(osbOn, rameOn, osbTPeak, rameTPeak, grid[i]);
    }
  }
}
