/** getRandomValueFromInterval: the randomised delay around the current interval. */
module Jitter {
  import opened Rounding
  import opened Interval

  /** Lower end of the interval that is drawn from. */
  function Low(factor: real, current: int): real {
    current as real - factor * current as real
  }

  /** Upper end of the interval that is drawn from. */
  function High(factor: real, current: int): real {
    current as real + factor * current as real
  }

  /** A draw from [0, 1) is a position strictly inside an interval of the given width. */
  function Position(random: real, width: real): (p: real)
    ensures 0.0 <= random < 1.0 <= width ==> 0.0 <= p < width
  {
    assert 0.0 <= random < 1.0 <= width ==> 0.0 <= random * width && 0.0 < (1.0 - random) * width;
    random * width
  }

  function Draw(lo: real, hi: real, random: real): int {
    Truncate(lo + Position(random, hi - lo + 1.0))
  }

  function Delay(factor: real, random: real, current: int): int {
    if factor == 0.0 then current else Draw(Low(factor, current), High(factor, current), random)
  }

  lemma DrawWithin(lo: real, hi: real, random: real)
    requires 0.0 <= lo <= hi && 0.0 <= random < 1.0
    ensures lo.Floor <= Draw(lo, hi, random) <= Ceiling(hi)
    ensures 0 <= Draw(lo, hi, random)
  {
  }

  lemma PositionAtLeast(random: real, y: real, width: real)
    requires 1.0 <= width
    ensures y <= Position(random, width) <==> y / width <= random
  {
    DivBound(random, y, width);
  }

  lemma DrawIff(lo: real, hi: real, random: real, d: int)
    requires 0.0 <= lo <= hi && 0.0 <= random < 1.0
    ensures Draw(lo, hi, random) == d
       <==> (d as real - lo) / (hi - lo + 1.0) <= random < ((d + 1) as real - lo) / (hi - lo + 1.0)
  {
    hide Position;
    var w := hi - lo + 1.0;
    PositionAtLeast(random, d as real - lo, w);
    PositionAtLeast(random, (d + 1) as real - lo, w);
  }

  lemma Ends(factor: real, current: int)
    requires 0.0 <= factor <= 1.0 && 0 <= current
    ensures 0.0 <= Low(factor, current) <= current as real <= High(factor, current)
    ensures current as real - Low(factor, current) == factor * current as real
    ensures High(factor, current) - current as real == factor * current as real
  {
    MulKeepsOrder(factor, 1.0, current as real);
    MulKeepsOrder(0.0, factor, current as real);
  }

  /** Whatever is drawn, the delay stays between the two rounded ends of the interval. */
  lemma DelayWithinInterval(factor: real, random: real, current: int)
    requires 0.0 <= factor <= 1.0 && 0.0 <= random < 1.0 && 0 <= current
    ensures Low(factor, current).Floor <= Delay(factor, random, current) <= Ceiling(High(factor, current))
    ensures var delta := factor * current as real;
            (current as real - delta).Floor <= Delay(factor, random, current) <= Ceiling(current as real + delta)
    ensures 0 <= Delay(factor, random, current)
  {
    Ends(factor, current);
    DrawWithin(Low(factor, current), High(factor, current), random);
  }

  // ---- which draws give which delay -------------------------------------------------

  function Width(factor: real, current: int): (w: real)
    requires 0.0 < factor <= 1.0 && 0 <= current
    ensures 1.0 <= w
  {
    Ends(factor, current);
    High(factor, current) - Low(factor, current) + 1.0
  }

  /** The draw from which on the delay is at least d, moved into [0, 1]. */
  function Threshold(factor: real, current: int, d: int): (t: real)
    requires 0.0 < factor <= 1.0 && 0 <= current
    ensures 0.0 <= t <= 1.0
  {
    Ends(factor, current);
    var t := (d as real - Low(factor, current)) / Width(factor, current);
    if t <= 0.0 then 0.0 else if 1.0 <= t then 1.0 else t
  }

  /** The share of the draws in [0, 1) that give delay d: by DelayIffDraw they form one half-open interval. */
  function Share(factor: real, current: int, d: int): real
    requires 0.0 < factor <= 1.0 && 0 <= current
  {
    Threshold(factor, current, d + 1) - Threshold(factor, current, d)
  }

  /** The draws giving delay d are exactly the half-open interval between two consecutive thresholds. */
  lemma DelayIffDraw(factor: real, random: real, current: int, d: int)
    requires 0.0 < factor <= 1.0 && 0.0 <= random < 1.0 && 0 <= current
    ensures Delay(factor, random, current) == d
       <==> Threshold(factor, current, d) <= random < Threshold(factor, current, d + 1)
  {
    var lo, w := Low(factor, current), Width(factor, current);
    Ends(factor, current);
    DrawIff(lo, High(factor, current), random, d);
  }

  /** Where a quotient lies relative to 0 and 1. */
  lemma QuotientInUnit(y: real, w: real)
    requires 1.0 <= w
    ensures y / w <= 0.0 <==> y <= 0.0
    ensures 1.0 <= y / w <==> w <= y
    ensures y < w ==> y / w < 1.0
  {
    var t := y / w;
    assert t * w == y;
    CancelFactor(t, 0.0, w);
    CancelFactor(1.0, t, w);
  }

  lemma QuotientStep(x: real, y: real, w: real)
    requires x <= y && 1.0 <= w
    ensures x / w <= y / w
    ensures y / w - x / w == (y - x) / w
  {
    var s, t := x / w, y / w;
    assert s * w == x && t * w == y;
    CancelFactor(s, t, w);
    QuotientOfProduct(t - s, w);
    assert (t - s) * w == y - x;
  }

  /** The thresholds climb from 0 to 1, so those intervals partition [0, 1). */
  lemma ThresholdsPartition(factor: real, current: int, d: int)
    requires 0.0 < factor <= 1.0 && 0 <= current
    ensures Threshold(factor, current, Low(factor, current).Floor) == 0.0
    ensures Threshold(factor, current, Ceiling(High(factor, current)) + 1) == 1.0
    ensures Threshold(factor, current, d) <= Threshold(factor, current, d + 1)
  {
    var lo, w := Low(factor, current), Width(factor, current);
    QuotientInUnit(lo.Floor as real - lo, w);
    QuotientInUnit((Ceiling(High(factor, current)) + 1) as real - lo, w);
    QuotientStep(d as real - lo, (d + 1) as real - lo, w);
  }

  // ---- fairness ----------------------------------------------------------------------

  /** All delays that can come out are equally likely. */
  ghost predicate Fair(factor: real, current: int)
    requires 0.0 < factor <= 1.0 && 0 <= current
  {
    forall d, e :: Share(factor, current, d) > 0.0 && Share(factor, current, e) > 0.0
                   ==> Share(factor, current, d) == Share(factor, current, e)
  }

  /** A delay whose unit interval lies inside the stretched interval has share 1 / width. */
  lemma ShareInside(factor: real, current: int, d: int)
    requires 0.0 < factor <= 1.0 && 0 <= current
    requires Low(factor, current) <= d as real <= High(factor, current)
    ensures Share(factor, current, d) == 1.0 / Width(factor, current) > 0.0
  {
    var lo, w := Low(factor, current), Width(factor, current);
    QuotientInUnit(d as real - lo, w);
    QuotientInUnit((d + 1) as real - lo, w);
    QuotientStep(d as real - lo, (d + 1) as real - lo, w);
    QuotientInUnit(1.0, w);
  }

  /** A delay whose unit interval lies outside of it never comes out. */
  lemma ShareOutside(factor: real, current: int, d: int)
    requires 0.0 < factor <= 1.0 && 0 <= current
    requires d as real + 1.0 <= Low(factor, current) || High(factor, current) + 1.0 <= d as real
    ensures Share(factor, current, d) == 0.0
  {
    var lo, w := Low(factor, current), Width(factor, current);
    QuotientInUnit(d as real - lo, w);
    QuotientInUnit((d + 1) as real - lo, w);
  }

  /** With a fractional delta the lowest delay has a smaller, yet positive, share than the middle one. */
  lemma EndsAreLessLikely(factor: real, current: int)
    requires 0.0 < factor <= 1.0 && 0 <= current
    requires !IsInteger(factor * current as real)
    ensures !Fair(factor, current)
  {
    var lo, w := Low(factor, current), Width(factor, current);
    Ends(factor, current);
    ShareInside(factor, current, current);
    var d := lo.Floor;
    var part := (d + 1) as real - lo;
    assert part == 1.0 ==> (factor * current as real).Floor == current - d;
    assert 0.0 < part < 1.0;
    QuotientInUnit(d as real - lo, w);
    QuotientInUnit(part, w);
    CancelFactor(part / w, 1.0 / w, w);
    assert Share(factor, current, d) == part / w;
  }

  /** The draw is fair exactly when factor * current is an integer; then each delay of the closed
      range has share 1 / (max - min + 1), and no other delay comes out. */
  lemma FairIffDeltaIsInteger(factor: real, current: int)
    requires 0.0 < factor <= 1.0 && 0 <= current
    ensures Fair(factor, current) <==> IsInteger(factor * current as real)
    ensures IsInteger(factor * current as real) ==>
              var delta := (factor * current as real).Floor;
              forall d :: Share(factor, current, d)
                          == if current - delta <= d <= current + delta then 1.0 / (2 * delta + 1) as real else 0.0
  {
    Ends(factor, current);
    if IsInteger(factor * current as real) {
      var delta := (factor * current as real).Floor;
      forall d
        ensures Share(factor, current, d)
                == if current - delta <= d <= current + delta then 1.0 / (2 * delta + 1) as real else 0.0
      {
        if current - delta <= d <= current + delta {
          ShareInside(factor, current, d);
        } else {
          ShareOutside(factor, current, d);
        }
      }
    } else {
      EndsAreLessLikely(factor, current);
    }
  }

  /** With the default factor every odd interval is drawn from unfairly; around 1, the delays 0, 1 and 2 have
      shares 1/4, 1/2 and 1/4. */
  lemma DefaultFactorIsUnfair(current: nat)
    requires current % 2 == 1
    ensures !Fair(DEFAULT_CONFIG.randomizationFactor, current)
    ensures Share(DEFAULT_CONFIG.randomizationFactor, 1, 0) == 0.25
         && Share(DEFAULT_CONFIG.randomizationFactor, 1, 1) == 0.5
         && Share(DEFAULT_CONFIG.randomizationFactor, 1, 2) == 0.25
  {
    hide Fair;
    var half := current / 2;
    assert DEFAULT_CONFIG.randomizationFactor * current as real == half as real + 0.5;
    assert (half as real + 0.5).Floor == half;
    EndsAreLessLikely(DEFAULT_CONFIG.randomizationFactor, current);
  }
}
