/** The adaptive jitter target (crates/audio-core/src/stream_control.rs). Each adjustment moves
    a real-valued target from what a rounded copy of it says about the buffer. */
module JitterControl {
  const MIN_JITTER_TARGET_MS := 3.0
  const MAX_JITTER_TARGET_MS := 120.0
  const ADJUSTMENT_INTERVAL_MS: nat := 250

  function Clamp(x: real, low: real, high: real): real
    requires low <= high
  {
    if x < low then low else if x > high then high else x
  }

  function Lesser(x: real, y: real): real {
    if x < y then x else y
  }

  function Greater(x: real, y: real): real {
    if x > y then x else y
  }

  function FramesForMs(rate: nat, ms: real): real {
    rate as real * ms / 1000.0
  }

  ghost predicate InRange(rate: nat, t: real) {
    FramesForMs(rate, MIN_JITTER_TARGET_MS) <= t <= FramesForMs(rate, MAX_JITTER_TARGET_MS)
  }

  /** The whole-frame target: rounded half away from zero, at least one frame. */
  function TargetCount(t: real): nat
    requires t >= 0.0
  {
    var rounded := (t + 0.5).Floor;
    if rounded < 1 then 1 else rounded
  }

  /** Neither refilling nor shrinking is called for. */
  ghost predicate InBand(t: real, buffered: nat)
    requires t >= 0.0
  {
    TargetCount(t) / 2 <= buffered <= TargetCount(t) * 2
  }

  /** One adjustment, before the limits are applied. */
  function Moved(t: real, buffered: nat, underrun: bool, overrun: bool): real
    requires t >= 0.0
  {
    var target := TargetCount(t);
    if underrun || buffered < target / 2 then t * 1.15
    else if overrun || buffered > target * 2 then t * 0.92
    else t + (buffered as real - t) * 0.05
  }

  function Adjusted(rate: nat, t: real, buffered: nat, underrun: bool, overrun: bool): real
    requires t >= 0.0
  {
    Clamp(Moved(t, buffered, underrun, overrun),
          FramesForMs(rate, MIN_JITTER_TARGET_MS), FramesForMs(rate, MAX_JITTER_TARGET_MS))
  }

  class AdaptiveJitterController {
    const sampleRate: nat
    var targetFrames: real
    var underruns: nat
    var overruns: nat

    /** Every constructor and method keeps the target within 3 to 120 ms worth of frames, so
        every run does. */
    ghost predicate Valid()
      reads this
    {
      sampleRate > 0 && InRange(sampleRate, targetFrames)
    }

    constructor (sampleRate: nat, targetMs: real)
      ensures Valid() && this.sampleRate == (if sampleRate == 0 then 1 else sampleRate)
      ensures targetFrames
           == FramesForMs(this.sampleRate, Clamp(targetMs, MIN_JITTER_TARGET_MS, MAX_JITTER_TARGET_MS))
      ensures underruns == 0 && overruns == 0
    {
      this.sampleRate := if sampleRate == 0 then 1 else sampleRate;
      targetFrames, underruns, overruns := 0.0, 0, 0;
      new;
      SetTargetMs(targetMs);
    }

    method SetTargetMs(targetMs: real)
      requires sampleRate > 0
      modifies this`targetFrames
      ensures Valid()
      ensures targetFrames
           == FramesForMs(sampleRate, Clamp(targetMs, MIN_JITTER_TARGET_MS, MAX_JITTER_TARGET_MS))
    {
      targetFrames := FramesForMs(sampleRate, Clamp(targetMs, MIN_JITTER_TARGET_MS, MAX_JITTER_TARGET_MS));
    }

    /** `elapsedMs` is the time since the last adjustment; returns whether this call made one. */
    method Observe(bufferedFrames: nat, underrun: bool, overrun: bool, elapsedMs: nat) returns (adjusted: bool)
      requires Valid()
      modifies this
      ensures Valid()
      ensures underruns == old(underruns) + (if underrun then 1 else 0)
      ensures overruns == old(overruns) + (if overrun then 1 else 0)
      ensures adjusted <==> elapsedMs >= ADJUSTMENT_INTERVAL_MS
      ensures targetFrames == if adjusted
                              then Adjusted(sampleRate, old(targetFrames), bufferedFrames, underrun, overrun)
                              else old(targetFrames)
      ensures adjusted && underrun ==>
        targetFrames == Lesser(old(targetFrames) * 1.15, FramesForMs(sampleRate, MAX_JITTER_TARGET_MS))
      ensures adjusted && overrun && !underrun && bufferedFrames >= TargetCount(old(targetFrames)) / 2 ==>
        targetFrames == Greater(old(targetFrames) * 0.92, FramesForMs(sampleRate, MIN_JITTER_TARGET_MS))
    {
      underruns := underruns + if underrun then 1 else 0;
      overruns := overruns + if overrun then 1 else 0;
      if elapsedMs < ADJUSTMENT_INTERVAL_MS {
        return false;
      }
      var target := TargetCount(targetFrames);
      if underrun || bufferedFrames < target / 2 {
        targetFrames := targetFrames * 1.15;
      } else if overrun || bufferedFrames > target * 2 {
        targetFrames := targetFrames * 0.92;
      } else {
        var error := bufferedFrames as real - targetFrames;
        targetFrames := targetFrames + error * 0.05;
      }
      var minimum := FramesForMs(sampleRate, MIN_JITTER_TARGET_MS);
      var maximum := FramesForMs(sampleRate, MAX_JITTER_TARGET_MS);
      targetFrames := Clamp(targetFrames, minimum, maximum);
      return true;
    }
  }

  /** The whole-frame target is the nearest count to the target, halves up, and never none. */
  lemma TargetCountIsNearest(t: real)
    requires t >= 0.0
    ensures TargetCount(t) >= 1 && (t >= 0.5 ==> t - 0.5 < TargetCount(t) as real <= t + 0.5)
    ensures t < 0.5 ==> TargetCount(t) == 1
  {
  }

  /** A second is the sample rate's worth of frames, and times add up. */
  lemma FramesForMsAdds(rate: nat, x: real, y: real)
    ensures FramesForMs(rate, 1000.0) == rate as real
    ensures FramesForMs(rate, x + y) == FramesForMs(rate, x) + FramesForMs(rate, y)
  {
    assert rate as real * (x + y) == rate as real * x + rate as real * y;
  }

  /** What one due adjustment sees. */
  datatype Observation = Observation(buffered: nat, underrun: bool, overrun: bool)

  /** The target after a sequence of adjustments. */
  function Observed(rate: nat, t: real, observations: seq<Observation>): (r: real)
    requires rate > 0 && InRange(rate, t)
    ensures InRange(rate, r)
  {
    if observations == [] then t
    else
      var earlier, o := Observed(rate, t, observations[..|observations| - 1]), observations[|observations| - 1];
      Adjusted(rate, earlier, o.buffered, o.underrun, o.overrun)
  }

  /** A controller observed every 250 ms or later follows `Observed`. */
  method ObserveAll(controller: AdaptiveJitterController, observations: seq<Observation>, elapsedMs: nat)
    requires controller.Valid() && elapsedMs >= ADJUSTMENT_INTERVAL_MS
    modifies controller
    ensures controller.Valid()
    ensures controller.targetFrames == Observed(controller.sampleRate, old(controller.targetFrames), observations)
  {
    for n := 0 to |observations|
      invariant controller.Valid()
      invariant controller.targetFrames
             == Observed(controller.sampleRate, old(controller.targetFrames), observations[..n])
    {
      assert observations[..n + 1][..n] == observations[..n];
      var o := observations[n];
      var adjusted := controller.Observe(o.buffered, o.underrun, o.overrun, elapsedMs);
    }
    assert observations[..|observations|] == observations;
  }

  /** Underruns raise the target by 1.15 each, up to the limit, whatever else is observed. */
  lemma {:induction false} UnderrunsRaise(rate: nat, t: real, observations: seq<Observation>)
    requires rate > 0 && InRange(rate, t)
    requires forall i :: 0 <= i < |observations| ==> observations[i].underrun
    ensures Observed(rate, t, observations)
         == Clamp(Scaled(1.15, |observations|, t), t, FramesForMs(rate, MAX_JITTER_TARGET_MS))
    decreases |observations|
  {
    if observations != [] {
      UnderrunsRaise(rate, t, observations[..|observations| - 1]);
      AtLeastOnce(|observations| - 1, t);
    }
  }

  /** Overruns without underruns lower the target by 0.92 each, down to the limit, as long as at
      least half the first target is buffered. */
  lemma {:induction false} OverrunsLower(rate: nat, t: real, observations: seq<Observation>)
    requires rate > 0 && InRange(rate, t)
    requires forall i :: 0 <= i < |observations| ==>
      observations[i].overrun && !observations[i].underrun && observations[i].buffered >= TargetCount(t) / 2
    ensures Observed(rate, t, observations)
         == Clamp(Scaled(0.92, |observations|, t), FramesForMs(rate, MIN_JITTER_TARGET_MS), t)
    decreases |observations|
  {
    if observations != [] {
      var earlier := observations[..|observations| - 1];
      OverrunsLower(rate, t, earlier);
      AtMostOnce(|observations| - 1, t);
      MonotoneCount(Observed(rate, t, earlier), t);
    }
  }

  /** The target after n adjustments under a constant occupancy and no flags. */
  function Settled(rate: nat, t: real, buffered: nat, n: nat): (r: real)
    requires rate > 0 && InRange(rate, t)
    ensures InRange(rate, r)
  {
    if n == 0 then t else Adjusted(rate, Settled(rate, t, buffered, n - 1), buffered, false, false)
  }

  /** x multiplied n times by b. */
  function Scaled(b: real, n: nat, x: real): real {
    if n == 0 then x else b * Scaled(b, n - 1, x)
  }

  function Distance(a: real, b: real): real {
    if a < b then b - a else a - b
  }

  /** Rounding is monotone, so an in-band step cannot leave the band. */
  lemma StepInBand(rate: nat, t: real, buffered: nat)
    requires rate > 0 && InRange(rate, t) && InRange(rate, buffered as real) && InBand(t, buffered)
    ensures var t' := Adjusted(rate, t, buffered, false, false);
      InBand(t', buffered) && t' - buffered as real == 0.95 * (t - buffered as real)
  {
    var b := buffered as real;
    var t' := t + (b - t) * 0.05;
    assert if t <= b then t <= t' <= b else b <= t' <= t;
    assert buffered >= 1;
    assert TargetCount(b) == buffered;
    MonotoneCount(t, t');
    MonotoneCount(t', t);
    MonotoneCount(t', b);
    MonotoneCount(b, t');
  }

  lemma MonotoneCount(x: real, y: real)
    requires 0.0 <= x && 0.0 <= y
    ensures x <= y ==> TargetCount(x) <= TargetCount(y)
  {
  }

  /** In band, n adjustments shrink the distance to the occupancy by exactly 0.95 to the n. */
  lemma {:induction false} InBandConverges(rate: nat, t: real, buffered: nat, n: nat)
    requires rate > 0 && InRange(rate, t) && InRange(rate, buffered as real) && InBand(t, buffered)
    ensures var r := Settled(rate, t, buffered, n);
      InBand(r, buffered) && r - buffered as real == Scaled(0.95, n, t - buffered as real)
  {
    if n > 0 {
      InBandConverges(rate, t, buffered, n - 1);
      StepInBand(rate, Settled(rate, t, buffered, n - 1), buffered);
    }
  }

  /** Too little buffered: the target is raised, which leaves the occupancy further below it,
      until the upper limit is reached. */
  lemma StepBelowBand(rate: nat, t: real, buffered: nat)
    requires rate > 0 && InRange(rate, t) && buffered < TargetCount(t) / 2
    ensures var t' := Adjusted(rate, t, buffered, false, false);
      && buffered < TargetCount(t') / 2
      && t' == Clamp(1.15 * t, t, FramesForMs(rate, MAX_JITTER_TARGET_MS))
  {
    MonotoneCount(t, Adjusted(rate, t, buffered, false, false));
  }

  /** Too much buffered: the target is lowered, down to the lower limit. */
  lemma StepAboveBand(rate: nat, t: real, buffered: nat)
    requires rate > 0 && InRange(rate, t) && buffered > TargetCount(t) * 2
    ensures var t' := Adjusted(rate, t, buffered, false, false);
      && buffered > TargetCount(t') * 2
      && t' == Clamp(0.92 * t, FramesForMs(rate, MIN_JITTER_TARGET_MS), t)
  {
    MonotoneCount(Adjusted(rate, t, buffered, false, false), t);
  }

  lemma {:induction false} BelowBandRunsAway(rate: nat, t: real, buffered: nat, n: nat)
    requires rate > 0 && InRange(rate, t) && buffered < TargetCount(t) / 2
    ensures var r := Settled(rate, t, buffered, n);
      && buffered < TargetCount(r) / 2
      && r == Clamp(Scaled(1.15, n, t), t, FramesForMs(rate, MAX_JITTER_TARGET_MS))
  {
    if n > 0 {
      BelowBandRunsAway(rate, t, buffered, n - 1);
      StepBelowBand(rate, Settled(rate, t, buffered, n - 1), buffered);
      AtLeastOnce(n - 1, t);
    }
  }

  lemma {:induction false} AboveBandRunsAway(rate: nat, t: real, buffered: nat, n: nat)
    requires rate > 0 && InRange(rate, t) && buffered > TargetCount(t) * 2
    ensures var r := Settled(rate, t, buffered, n);
      && buffered > TargetCount(r) * 2
      && r == Clamp(Scaled(0.92, n, t), FramesForMs(rate, MIN_JITTER_TARGET_MS), t)
  {
    if n > 0 {
      AboveBandRunsAway(rate, t, buffered, n - 1);
      StepAboveBand(rate, Settled(rate, t, buffered, n - 1), buffered);
      AtMostOnce(n - 1, t);
    }
  }

  lemma {:induction false} AtLeastOnce(n: nat, t: real)
    requires t >= 0.0
    ensures Scaled(1.15, n, t) >= t
  {
    if n > 0 {
      AtLeastOnce(n - 1, t);
    }
  }

  lemma {:induction false} AtMostOnce(n: nat, t: real)
    requires t >= 0.0
    ensures 0.0 <= Scaled(0.92, n, t) <= t
  {
    if n > 0 {
      AtMostOnce(n - 1, t);
    }
  }

  /** Under a constant occupancy within the limits, the target approaches it at the rate 0.95
      exactly when it starts in band. */
  lemma ConvergesIffInBand(rate: nat, t: real, buffered: nat)
    requires rate > 0 && InRange(rate, t) && InRange(rate, buffered as real)
    ensures InBand(t, buffered) <==>
      forall n: nat :: Distance(Settled(rate, t, buffered, n), buffered as real)
                    == Scaled(0.95, n, Distance(t, buffered as real))
  {
    if InBand(t, buffered) {
      forall n: nat
        ensures Distance(Settled(rate, t, buffered, n), buffered as real)
             == Scaled(0.95, n, Distance(t, buffered as real))
      {
        InBandConverges(rate, t, buffered, n);
        Rescaled(n, t - buffered as real);
        Rescaled(n, buffered as real - t);
      }
    } else {
      OutOfBandStep(rate, t, buffered);
    }
  }

  lemma {:induction false} Rescaled(n: nat, x: real)
    ensures x >= 0.0 ==> Scaled(0.95, n, x) >= 0.0
    ensures Scaled(0.95, n, -x) == -Scaled(0.95, n, x)
  {
    if n > 0 { Rescaled(n - 1, x); }
  }

  /** Out of band the very first adjustment moves away, or stays at a limit. */
  lemma OutOfBandStep(rate: nat, t: real, buffered: nat)
    requires rate > 0 && InRange(rate, t) && InRange(rate, buffered as real) && !InBand(t, buffered)
    ensures Distance(Settled(rate, t, buffered, 1), buffered as real)
         != Scaled(0.95, 1, Distance(t, buffered as real))
  {
    assert Settled(rate, t, buffered, 1) == Adjusted(rate, Settled(rate, t, buffered, 0), buffered, false, false);
    var d := Distance(t, buffered as real);
    assert Scaled(0.95, 1, d) == 0.95 * Scaled(0.95, 0, d);
    if buffered < TargetCount(t) / 2 {
      StepBelowBand(rate, t, buffered);
      assert t > buffered as real;
    } else {
      StepAboveBand(rate, t, buffered);
      assert t < buffered as real;
    }
  }

  /** At 48 kHz with a 20 ms target and 200 frames buffered, the first adjustment moves the target
      from 960 frames to 1104. */
  lemma OutOfBandExample()
    ensures InRange(48_000, 960.0) && InRange(48_000, 200.0) && !InBand(960.0, 200)
    ensures Settled(48_000, 960.0, 200, 1) == 1104.0
    ensures Distance(1104.0, 200.0) > Distance(960.0, 200.0)
  {
    assert TargetCount(960.0) == 960;
    assert Settled(48_000, 960.0, 200, 1) == Adjusted(48_000, Settled(48_000, 960.0, 200, 0), 200, false, false);
  }
}
