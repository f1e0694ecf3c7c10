/** Linear resampling of interleaved audio (crates/audio-core/src/stream_control.rs): the
    one-shot conversion and the packet-by-packet one that carries a phase and a frame over.

    A source position is a whole number of units of 1/outputRate frames, so output frame k
    sits at position k * inputRate of a stream whose frame f sits at f * outputRate. */
module StreamResampler {
  import opened Interleaving
  import opened MachineIntegers
  import opened Wrappers

  const F64_EPSILON: real := 1.0 / 4503599627370496.0

  type SampleRate = r: nat | r < U32_LIMIT

  // ---------------------------------------------------------------- specification

  /** The fractional part of a position. */
  function Fraction(position: nat, out: nat): real
    requires out > 0
  {
    (position % out) as real / out as real
  }

  /** Linear interpolation between samples of two source frames. */
  function Between(s: seq<real>, channels: nat, first: nat, second: nat, fraction: real, c: nat): real
    requires c < channels && first < |s| / channels && second < |s| / channels
  {
    var a, b := Sample(s, channels, first, c), Sample(s, channels, second, c);
    a + (b - a) * fraction
  }

  /** The interpolated sample at a position; past the last frame the last frame is held. */
  function Interpolated(s: seq<real>, channels: nat, out: nat, position: nat, c: nat): real
    requires c < channels && out > 0 && position / out < |s| / channels
  {
    Between(s, channels, position / out, Min(position / out + 1, |s| / channels - 1), Fraction(position, out), c)
  }

  function FrameAt(s: seq<real>, channels: nat, out: nat, position: nat): seq<real>
    requires out > 0 && (channels > 0 ==> position / out < |s| / channels)
  {
    seq(channels, c requires 0 <= c < channels => Interpolated(s, channels, out, position, c))
  }

  /** The innermost loop of both conversions: one frame, channel by channel. */
  method RenderFrame(s: seq<real>, channels: nat, first: nat, second: nat, fraction: real) returns (frame: seq<real>)
    requires channels > 0 && first < |s| / channels && second < |s| / channels
    ensures |frame| == channels
    ensures forall c :: 0 <= c < channels ==> frame[c] == Between(s, channels, first, second, fraction, c)
  {
    frame := [];
    for channel := 0 to channels
      invariant |frame| == channel
      invariant forall c :: 0 <= c < channel ==> frame[c] == Between(s, channels, first, second, fraction, c)
    {
      IndexInBounds(|s|, channels, first, channel);
      IndexInBounds(|s|, channels, second, channel);
      var a := s[first * channels + channel];
      var b := s[second * channels + channel];
      frame := frame + [a + (b - a) * fraction];
    }
  }

  /** Positions 0, inRate, 2 * inRate, ... of the first `frames` output frames are all inside
      the source. */
  ghost predicate Covers(s: seq<real>, channels: nat, inRate: nat, out: nat, frames: nat)
    requires channels > 0 && out > 0
  {
    forall k :: 0 <= k < frames ==> (k * inRate) / out < |s| / channels
  }

  /** The first `frames` output frames, interleaved. */
  ghost function OutputPrefix(s: seq<real>, channels: nat, inRate: nat, out: nat, frames: nat): (r: seq<real>)
    requires channels > 0 && out > 0 && Covers(s, channels, inRate, out, frames)
    ensures |r| == frames * channels
  {
    if frames == 0 then []
    else OutputPrefix(s, channels, inRate, out, frames - 1) + FrameAt(s, channels, out, (frames - 1) * inRate)
  }

  /** How many output frames `n` source frames determine: those at or before the last one. */
  function StreamFrames(n: nat, inRate: nat, out: nat): nat
    requires inRate > 0
  {
    if n == 0 then 0 else ((n - 1) * out) / inRate + 1
  }

  lemma StreamFramesIff(n: nat, inRate: nat, out: nat, k: nat)
    requires n > 0 && inRate > 0 && out > 0
    ensures k < StreamFrames(n, inRate, out) <==> k * inRate <= (n - 1) * out
  {
    DivLe(k, (n - 1) * out, inRate);
  }

  lemma PositionInside(p: nat, n: nat, out: nat)
    requires n > 0 && out > 0 && p <= (n - 1) * out
    ensures p / out < n && (p / out == n - 1 ==> p % out == 0)
  {
    DivLe(n, p, out);
    assert n * out == (n - 1) * out + out;
  }

  lemma StreamCovers(s: seq<real>, channels: nat, inRate: nat, out: nat)
    requires channels > 0 && inRate > 0 && out > 0
    ensures Covers(s, channels, inRate, out, StreamFrames(|s| / channels, inRate, out))
  {
    forall k | 0 <= k < StreamFrames(|s| / channels, inRate, out)
      ensures (k * inRate) / out < |s| / channels
    {
      EmittedDetermined(|s| / channels, inRate, out, k);
    }
  }

  /** Everything a resampler has produced once it has been given `s`, however it was cut up. */
  ghost function StreamOutput(s: seq<real>, channels: nat, inRate: nat, out: nat): (r: seq<real>)
    requires channels > 0 && inRate > 0 && out > 0
    ensures |r| == StreamFrames(|s| / channels, inRate, out) * channels
  {
    StreamCovers(s, channels, inRate, out);
    OutputPrefix(s, channels, inRate, out, StreamFrames(|s| / channels, inRate, out))
  }

  // ---------------------------------------------------------------- laws of the specification

  /** Output frame k is the interpolation at k * inRate / out. */
  lemma {:induction false} OutputPrefixAt(s: seq<real>, channels: nat, inRate: nat, out: nat, frames: nat,
                                          k: nat, c: nat)
    requires c < channels && out > 0 && Covers(s, channels, inRate, out, frames) && k < frames
    ensures k * channels + c < frames * channels
    ensures OutputPrefix(s, channels, inRate, out, frames)[k * channels + c]
         == Interpolated(s, channels, out, k * inRate, c)
    decreases frames
  {
    MulLe(k + 1, frames, channels);
    assert (k + 1) * channels == k * channels + channels;
    assert (frames - 1) * channels == frames * channels - channels;
    if k < frames - 1 { OutputPrefixAt(s, channels, inRate, out, frames - 1, k, c); }
  }

  lemma OutputAt(s: seq<real>, channels: nat, inRate: nat, out: nat, k: nat, c: nat)
    requires c < channels && inRate > 0 && out > 0 && k < StreamFrames(|s| / channels, inRate, out)
    ensures (k * inRate) / out < |s| / channels
    ensures k * channels + c < |StreamOutput(s, channels, inRate, out)|
    ensures StreamOutput(s, channels, inRate, out)[k * channels + c]
         == Interpolated(s, channels, out, k * inRate, c)
  {
    StreamCovers(s, channels, inRate, out);
    OutputPrefixAt(s, channels, inRate, out, StreamFrames(|s| / channels, inRate, out), k, c);
  }

  /** x lies r/out of the way from a to b. */
  ghost predicate LiesBetween(x: real, a: real, b: real, r: nat, out: nat) {
    x * out as real == a * (out as real - r as real) + b * r as real
  }

  lemma TimesQuotient(x: real, n: real)
    requires n != 0.0
    ensures (x / n) * n == x
  {
  }

  lemma Weighted(a: real, b: real, fraction: real, r: nat, out: nat)
    requires fraction * out as real == r as real
    ensures LiesBetween(a + (b - a) * fraction, a, b, r, out)
  {
    assert ((b - a) * fraction) * out as real == (b - a) * (fraction * out as real);
  }

  lemma InterpolatedLies(s: seq<real>, channels: nat, out: nat, q: nat, r: nat, c: nat)
    requires c < channels && r < out && q < |s| / channels
    ensures (q * out + r) / out == q
    ensures LiesBetween(Interpolated(s, channels, out, q * out + r, c), Sample(s, channels, q, c),
                        Sample(s, channels, Min(q + 1, |s| / channels - 1), c), r, out)
  {
    DivModUnique(q * out + r, out, q, r);
    TimesQuotient(r as real, out as real);
    Weighted(Sample(s, channels, q, c), Sample(s, channels, Min(q + 1, |s| / channels - 1), c),
             Fraction(q * out + r, out), r, out);
  }

  lemma PositionOf(n: nat, inRate: nat, out: nat, k: nat, q: nat, r: nat)
    requires inRate > 0 && r < out && k * inRate == q * out + r && k < StreamFrames(n, inRate, out)
    ensures q < n && (r > 0 ==> q + 1 < n)
  {
    DivModUnique(k * inRate, out, q, r);
    EmittedDetermined(n, inRate, out, k);
  }

  /** Output frame k is the linear interpolation of the two source frames around k * inRate / out:
      where that is q + r/out, it lies r/out of the way from frame q to the next one. */
  lemma StreamInterpolates(s: seq<real>, channels: nat, inRate: nat, out: nat, k: nat, c: nat, q: nat, r: nat)
    requires c < channels && inRate > 0 && k < StreamFrames(|s| / channels, inRate, out)
    requires r < out && k * inRate == q * out + r
    ensures k * channels + c < |StreamOutput(s, channels, inRate, out)|
    ensures q < |s| / channels && (r > 0 ==> q + 1 < |s| / channels)
    ensures LiesBetween(StreamOutput(s, channels, inRate, out)[k * channels + c], Sample(s, channels, q, c),
                        Sample(s, channels, Min(q + 1, |s| / channels - 1), c), r, out)
  {
    PositionOf(|s| / channels, inRate, out, k, q, r);
    OutputAt(s, channels, inRate, out, k, c);
    InterpolatedLies(s, channels, out, q, r, c);
  }

  ghost predicate Ramp(s: seq<real>, channels: nat, c: nat, slope: real, start: real)
    requires c < channels
  {
    forall f :: 0 <= f < |s| / channels ==> Sample(s, channels, f, c) == slope * f as real + start
  }

  /** x is the value of a ramp at position p/out. */
  ghost predicate OnRamp(x: real, slope: real, start: real, p: nat, out: nat) {
    x * out as real == slope * p as real + start * out as real
  }

  lemma RampPoint(x: real, a: real, b: real, slope: real, start: real, q: nat, r: nat, p: nat, out: nat)
    requires LiesBetween(x, a, b, r, out) && p == q * out + r
    requires a == slope * q as real + start && (r == 0 || b == a + slope)
    ensures OnRamp(x, slope, start, p, out)
  {
    assert p as real == q as real * out as real + r as real;
    assert (slope * q as real) * out as real == slope * (q as real * out as real);
    if r != 0 { assert b * r as real == a * r as real + slope * r as real; }
  }

  lemma RampAt(s: seq<real>, channels: nat, inRate: nat, out: nat, k: nat, c: nat, slope: real, start: real,
               p: nat, q: nat, r: nat)
    requires c < channels && inRate > 0 && k < StreamFrames(|s| / channels, inRate, out)
    requires r < out && p == k * inRate && p == q * out + r && Ramp(s, channels, c, slope, start)
    ensures k * channels + c < |StreamOutput(s, channels, inRate, out)|
    ensures OnRamp(StreamOutput(s, channels, inRate, out)[k * channels + c], slope, start, p, out)
  {
    StreamInterpolates(s, channels, inRate, out, k, c, q, r);
    var a, b := Sample(s, channels, q, c), Sample(s, channels, Min(q + 1, |s| / channels - 1), c);
    RampNeighbours(s, channels, c, slope, start, q, r, a, b);
    RampPoint(StreamOutput(s, channels, inRate, out)[k * channels + c], a, b, slope, start, q, r, p, out);
  }

  /** A ramp comes out as the same ramp, read at the output's own positions k * inRate / out. */
  lemma RampStaysRamp(s: seq<real>, channels: nat, inRate: nat, out: nat, k: nat, c: nat, slope: real, start: real)
    requires c < channels && inRate > 0 && out > 0 && k < StreamFrames(|s| / channels, inRate, out)
    requires Ramp(s, channels, c, slope, start)
    ensures k * channels + c < |StreamOutput(s, channels, inRate, out)|
    ensures OnRamp(StreamOutput(s, channels, inRate, out)[k * channels + c], slope, start, k * inRate, out)
  {
    var p := k * inRate;
    RampAt(s, channels, inRate, out, k, c, slope, start, p, Quotient(p, out), p % out);
  }

  lemma RampNeighbours(s: seq<real>, channels: nat, c: nat, slope: real, start: real, q: nat, r: nat, a: real, b: real)
    requires c < channels && Ramp(s, channels, c, slope, start)
    requires q < |s| / channels && (r > 0 ==> q + 1 < |s| / channels)
    requires a == Sample(s, channels, q, c) && b == Sample(s, channels, Min(q + 1, |s| / channels - 1), c)
    ensures a == slope * q as real + start && (r == 0 || b == a + slope)
  {
    if r > 0 { RampSlope(slope, start, q); }
  }

  lemma RampSlope(slope: real, start: real, q: nat)
    ensures slope * (q + 1) as real + start == slope * q as real + start + slope
  {
  }

  /** Position p needs no source frame beyond the first n. */
  ghost predicate Determined(n: nat, out: nat, p: nat)
    requires out > 0
  {
    p / out < n && (p / out == n - 1 ==> p % out == 0)
  }

  /** A frame at or before the last source frame does not change when more source arrives. */
  lemma InterpolatedStable(s: seq<real>, t: seq<real>, channels: nat, out: nat, p: nat, c: nat)
    requires c < channels && out > 0 && |s| % channels == 0 && Determined(|s| / channels, out, p)
    ensures p / out < |s + t| / channels
    ensures Interpolated(s + t, channels, out, p, c) == Interpolated(s, channels, out, p, c)
  {
    var n, first := Quotient(|s|, channels), Quotient(p, out);
    FramesOfConcat(s, t, channels);
    SampleOfConcat(s, t, channels, first, c);
    if first + 1 < n {
      SampleOfConcat(s, t, channels, first + 1, c);
    } else {
      assert Fraction(p, out) == 0.0;
    }
  }

  lemma FrameStable(s: seq<real>, t: seq<real>, channels: nat, out: nat, p: nat)
    requires channels > 0 && out > 0 && |s| % channels == 0 && Determined(|s| / channels, out, p)
    ensures p / out < |s + t| / channels
    ensures FrameAt(s + t, channels, out, p) == FrameAt(s, channels, out, p)
  {
    InterpolatedStable(s, t, channels, out, p, 0);
    forall c | 0 <= c < channels
      ensures Interpolated(s + t, channels, out, p, c) == Interpolated(s, channels, out, p, c)
    {
      InterpolatedStable(s, t, channels, out, p, c);
    }
  }

  lemma EmittedDetermined(n: nat, inRate: nat, out: nat, k: nat)
    requires inRate > 0 && out > 0 && k < StreamFrames(n, inRate, out)
    ensures Determined(n, out, k * inRate)
  {
    StreamFramesIff(n, inRate, out, k);
    PositionInside(k * inRate, n, out);
  }

  lemma {:induction false} PrefixStable(s: seq<real>, t: seq<real>, channels: nat, inRate: nat, out: nat, frames: nat)
    requires channels > 0 && inRate > 0 && out > 0 && |s| % channels == 0
    requires frames <= StreamFrames(|s| / channels, inRate, out)
    ensures Covers(s, channels, inRate, out, frames) && Covers(s + t, channels, inRate, out, frames)
    ensures OutputPrefix(s + t, channels, inRate, out, frames) == OutputPrefix(s, channels, inRate, out, frames)
    decreases frames
  {
    if frames > 0 {
      PrefixStable(s, t, channels, inRate, out, frames - 1);
      EmittedDetermined(|s| / channels, inRate, out, frames - 1);
      FrameStable(s, t, channels, out, (frames - 1) * inRate);
      CoversOneMore(s, channels, inRate, out, frames);
      CoversOneMore(s + t, channels, inRate, out, frames);
    }
  }

  lemma CoversOneMore(s: seq<real>, channels: nat, inRate: nat, out: nat, frames: nat)
    requires channels > 0 && out > 0 && frames > 0
    requires Covers(s, channels, inRate, out, frames - 1) && ((frames - 1) * inRate) / out < |s| / channels
    ensures Covers(s, channels, inRate, out, frames)
  {
  }

  lemma StreamCountsMonotone(m: nat, n: nat, inRate: nat, out: nat)
    requires inRate > 0 && out > 0 && m <= n
    ensures StreamFrames(m, inRate, out) <= StreamFrames(n, inRate, out)
  {
    if m > 0 {
      var k := StreamFrames(m, inRate, out) - 1;
      StreamFramesIff(m, inRate, out, k);
      MulLe(m - 1, n - 1, out);
      StreamFramesIff(n, inRate, out, k);
    }
  }

  /** More source only ever extends the output: nothing already emitted is revised. */
  lemma StreamOutputExtends(s: seq<real>, t: seq<real>, channels: nat, inRate: nat, out: nat)
    requires channels > 0 && inRate > 0 && out > 0 && |s| % channels == 0
    ensures StreamOutput(s, channels, inRate, out) <= StreamOutput(s + t, channels, inRate, out)
  {
    var n, m := Quotient(|s|, channels), Quotient(|s + t|, channels);
    FramesOfConcat(s, t, channels);
    var a, b := StreamFrames(n, inRate, out), StreamFrames(m, inRate, out);
    StreamCountsMonotone(n, m, inRate, out);
    PrefixStable(s, t, channels, inRate, out, a);
    StreamCovers(s + t, channels, inRate, out);
    OutputPrefixNested(s + t, channels, inRate, out, a, b);
  }

  lemma {:induction false} OutputPrefixNested(s: seq<real>, channels: nat, inRate: nat, out: nat, a: nat, b: nat)
    requires channels > 0 && out > 0 && a <= b && Covers(s, channels, inRate, out, b)
    ensures OutputPrefix(s, channels, inRate, out, a) <= OutputPrefix(s, channels, inRate, out, b)
    decreases b
  {
    if a < b { OutputPrefixNested(s, channels, inRate, out, a, b - 1); }
  }

  lemma OnFrame(s: seq<real>, channels: nat, out: nat, f: nat, c: nat)
    requires c < channels && out > 0 && f < |s| / channels
    ensures (f * out) / out == f && Interpolated(s, channels, out, f * out, c) == Sample(s, channels, f, c)
  {
    MulDiv(f, out);
    assert Fraction(f * out, out) == 0.0;
  }

  lemma EqualRateCount(n: nat, rate: nat)
    requires rate > 0
    ensures StreamFrames(n, rate, rate) == n
  {
    if n > 0 { MulDiv(n - 1, rate); }
  }

  lemma EqualRateSample(s: seq<real>, channels: nat, rate: nat, x: nat)
    requires channels > 0 && rate > 0 && |s| % channels == 0 && x < |s|
    requires |StreamOutput(s, channels, rate, rate)| == |s|
    ensures StreamOutput(s, channels, rate, rate)[x] == s[x]
  {
    EqualRateCount(|s| / channels, rate);
    FrameOfIndex(|s|, channels, x);
    OutputAt(s, channels, rate, rate, x / channels, x % channels);
    OnFrame(s, channels, rate, x / channels, x % channels);
  }

  /** At equal rates the closed form is the input itself. */
  lemma EqualRatesIdentity(s: seq<real>, channels: nat, rate: nat)
    requires channels > 0 && rate > 0 && |s| % channels == 0
    ensures StreamOutput(s, channels, rate, rate) == s
  {
    EqualRateCount(|s| / channels, rate);
    forall x | 0 <= x < |s| ensures StreamOutput(s, channels, rate, rate)[x] == s[x] {
      EqualRateSample(s, channels, rate, x);
    }
  }

  /** The code compares the fraction with f64::EPSILON; for 32-bit rates that asks whether the
      position is a whole frame. */
  lemma EpsilonTestIsExact(position: nat, out: nat)
    requires 0 < out < U32_LIMIT
    ensures Fraction(position, out) > F64_EPSILON <==> position % out != 0
  {
    var r := position % out;
    if r != 0 {
      var e := F64_EPSILON;
      assert e * out as real < 1.0 by { assert e * out as real <= e * (U32_LIMIT as real); }
      assert r as real >= 1.0;
      assert (r as real / out as real) * out as real == r as real;
      if r as real / out as real <= e {
        assert (r as real / out as real) * out as real <= e * out as real;
      }
    }
  }

  // ---------------------------------------------------------------- the packet resampler

  /** The carried state is a function of what was accepted: the last frame is kept, and the
      phase says where the next output frame lies relative to it. */
  ghost predicate Carried(accepted: seq<real>, channels: nat, inRate: nat, out: nat, pending: seq<real>, phase: nat)
    requires channels > 0 && inRate > 0 && out > 0
  {
    var n := Quotient(|accepted|, channels);
    && n > 0 && (n - 1) * channels <= |accepted|
    && pending == accepted[(n - 1) * channels..]
    && (n - 1) * out + phase == StreamFrames(n, inRate, out) * inRate
  }

  lemma PhaseRange(n: nat, inRate: nat, out: nat, phase: nat)
    requires n > 0 && inRate > 0 && out > 0
    requires (n - 1) * out + phase == StreamFrames(n, inRate, out) * inRate
    ensures 0 < phase <= inRate
  {
    var k := StreamFrames(n, inRate, out);
    StreamFramesIff(n, inRate, out, k);
    StreamFramesIff(n, inRate, out, k - 1);
    LastFrameLength(k, inRate);
  }

  /** `pending` holds the frames of the stream from frame `base` on. */
  ghost predicate Retains(all: seq<real>, channels: nat, base: nat, pending: seq<real>) {
    && channels > 0 && base < |all| / channels
    && base * channels <= |all| && pending == all[base * channels..]
    && base + |pending| / channels == |all| / channels
  }

  /** Reading frame `first` of the retained tail is reading frame `base + first` of the stream. */
  lemma RetainedSample(all: seq<real>, channels: nat, base: nat, pending: seq<real>, first: nat, c: nat)
    requires c < channels && Retains(all, channels, base, pending) && first < |pending| / channels
    ensures Sample(pending, channels, first, c) == Sample(all, channels, base + first, c)
  {
    SampleOfSuffix(all, channels, base, first, c);
  }

  /** A frame rendered from the retained tail is the frame of the whole stream. */
  lemma RetainedFrame(all: seq<real>, channels: nat, base: nat, pending: seq<real>, out: nat, position: nat,
                      first: nat, second: nat, frame: seq<real>)
    requires out > 0 && Retains(all, channels, base, pending) && |frame| == channels
    requires first < |pending| / channels && second == Min(first + 1, |pending| / channels - 1)
    requires position / out == base + first
    requires forall c | 0 <= c < channels ::
      frame[c] == Between(pending, channels, first, second, Fraction(position, out), c)
    ensures frame == FrameAt(all, channels, out, position)
  {
    forall c | 0 <= c < channels ensures frame[c] == Interpolated(all, channels, out, position, c) {
      RetainedInterpolation(all, channels, base, pending, out, position, first, second, c);
    }
  }

  lemma RetainedInterpolation(all: seq<real>, channels: nat, base: nat, pending: seq<real>, out: nat, position: nat,
                              first: nat, second: nat, c: nat)
    requires c < channels && out > 0 && Retains(all, channels, base, pending)
    requires first < |pending| / channels && second == Min(first + 1, |pending| / channels - 1)
    requires position / out == base + first
    ensures Between(pending, channels, first, second, Fraction(position, out), c)
         == Interpolated(all, channels, out, position, c)
  {
    RetainedSample(all, channels, base, pending, first, c);
    RetainedSample(all, channels, base, pending, second, c);
  }

  lemma AppendAligned(channels: nat, before: seq<real>, input: seq<real>)
    requires channels > 0 && |before| % channels == 0 && |input| % channels == 0
    ensures |before + input| % channels == 0
    ensures |before + input| / channels == |before| / channels + |input| / channels
    ensures input != [] ==> |input| / channels > 0
  {
    assert |before| == (|before| / channels) * channels;
    DivModShift(|input|, channels, |before| / channels);
  }

  lemma SuffixFrames(all: seq<real>, channels: nat, base: nat)
    requires channels > 0 && base <= |all| / channels && base * channels <= |all|
    ensures |all[base * channels..]| / channels == |all| / channels - base
  {
    DivModShift(|all| - base * channels, channels, base);
  }

  /** The loop keeps going exactly while output frame k lies at or before source frame n - 1. */
  lemma LoopTest(n: nat, base: nat, inRate: nat, out: nat, phase: nat, k: nat)
    requires inRate > 0 && out > 0 && base < n && base * out + phase == k * inRate
    ensures (k * inRate) / out == base + phase / out
    ensures (k * inRate) % out == phase % out
    ensures var first := phase / out;
      (first >= n - base || (first + 1 >= n - base && phase % out != 0))
      <==> k >= StreamFrames(n, inRate, out)
  {
    DivModShift(phase, out, base);
    StreamFramesIff(n, inRate, out, k);
    var p := k * inRate;
    DivLe(n - 1, p, out);
    assert p == (p / out) * out + p % out;
    if p <= (n - 1) * out {
      PositionInside(p, n, out);
    }
  }

  /** When the loop stops the phase has passed the last frame. */
  lemma PhasePassed(n: nat, base: nat, inRate: nat, out: nat, phase: nat)
    requires inRate > 0 && out > 0 && base < n
    requires base * out + phase == StreamFrames(n, inRate, out) * inRate
    ensures (n - 1) * out == base * out + (n - base - 1) * out
    ensures (n - base - 1) * out <= phase && n - base - 1 <= Quotient(phase, out)
  {
    StreamFramesIff(n, inRate, out, StreamFrames(n, inRate, out));
    assert (n - 1) * out == base * out + (n - base - 1) * out;
    DivLe(n - base - 1, phase, out);
  }

  lemma SuffixOfSuffix(all: seq<real>, i: int, j: int, k: int)
    requires 0 <= i && 0 <= j && i + j == k <= |all|
    ensures all[i..][j..] == all[k..]
  {
  }

  lemma SplitProduct(n: nat, base: nat, channels: nat)
    requires base < n
    ensures 0 <= base * channels && 0 <= (n - base - 1) * channels
    ensures base * channels + (n - base - 1) * channels == (n - 1) * channels <= n * channels
  {
    MulLe(n - 1, n, channels);
  }

  lemma TailOfTail(all: seq<real>, channels: nat, base: nat, n: nat)
    requires base < n && |all| == n * channels
    ensures 0 <= base * channels && 0 <= (n - base - 1) * channels
    ensures (n - 1) * channels == base * channels + (n - base - 1) * channels <= |all|
    ensures all[base * channels..][(n - base - 1) * channels..] == all[(n - 1) * channels..]
  {
    SplitProduct(n, base, channels);
    SuffixOfSuffix(all, base * channels, (n - base - 1) * channels, (n - 1) * channels);
  }

  /** So all frames but the last one are dropped. */
  lemma Consumed(all: seq<real>, channels: nat, base: nat, inRate: nat, out: nat, phase: nat)
    requires channels > 0 && inRate > 0 && out > 0
    requires |all| % channels == 0 && base < Quotient(|all|, channels) && base * channels <= |all|
    requires base * out + phase == StreamFrames(Quotient(|all|, channels), inRate, out) * inRate
    ensures var n := Quotient(|all|, channels);
      var drop := Min(Quotient(phase, out), n - base - 1);
      && drop == n - base - 1
      && drop * out <= phase && drop * channels <= |all| - base * channels
      && Carried(all, channels, inRate, out, all[base * channels..][drop * channels..], phase - drop * out)
  {
    var n := Quotient(|all|, channels);
    PhasePassed(n, base, inRate, out, phase);
    TailOfTail(all, channels, base, n);
  }

  /** Appending a packet to the carried tail sets the emission loop up. */
  lemma Appended(before: seq<real>, input: seq<real>, channels: nat, inRate: nat, out: nat,
                 pending: seq<real>, phase: nat)
    requires channels > 0 && inRate > 0 && out > 0
    requires |before| % channels == 0 && |input| % channels == 0 && |input| > 0
    requires if before == [] then pending == [] && phase == 0
             else Carried(before, channels, inRate, out, pending, phase)
    ensures var all, m := before + input, Quotient(|before|, channels);
      var base, start := if before == [] then 0 else m - 1, StreamFrames(m, inRate, out);
      && Retains(all, channels, base, pending + input)
      && base * out + phase == start * inRate
      && start <= StreamFrames(Quotient(|all|, channels), inRate, out)
      && Covers(before, channels, inRate, out, start) && Covers(all, channels, inRate, out, start)
      && OutputPrefix(all, channels, inRate, out, start) == OutputPrefix(before, channels, inRate, out, start)
  {
    var all, m := before + input, Quotient(|before|, channels);
    var base, start := if before == [] then 0 else m - 1, StreamFrames(m, inRate, out);
    AppendAligned(channels, before, input);
    StreamCountsMonotone(m, Quotient(|all|, channels), inRate, out);
    PrefixStable(before, input, channels, inRate, out, start);
    if before != [] { LastFrameLength(m, channels); }
    assert pending + input == all[base * channels..];
    SuffixFrames(all, channels, base);
  }

  class StreamingLinearResampler {
    const channels: nat
    const inputRate: SampleRate
    const outputRate: SampleRate
    var phase: nat            // in units of 1 / outputRate source frames
    var pending: seq<real>

    /** Every sample accepted so far. */
    ghost var accepted: seq<real>

    constructor (channels: nat, inputRate: SampleRate, outputRate: SampleRate)
      requires channels > 0 && inputRate > 0 && outputRate > 0
      ensures Valid() && accepted == []
      ensures this.channels == channels && this.inputRate == inputRate && this.outputRate == outputRate
    {
      this.channels, this.inputRate, this.outputRate := channels, inputRate, outputRate;
      phase, pending, accepted := 0, [], [];
    }

    /** `new` refuses what `process` could not divide by. */
    static method Create(channels: nat, inputRate: SampleRate, outputRate: SampleRate)
      returns (r: Result<StreamingLinearResampler>)
      ensures r.Ok? <==> channels > 0 && inputRate > 0 && outputRate > 0
      ensures r.Ok? ==> fresh(r.value) && r.value.Valid() && r.value.accepted == []
      ensures r.Ok? ==> r.value.channels == channels
      ensures r.Ok? ==> r.value.inputRate == inputRate && r.value.outputRate == outputRate
    {
      if channels == 0 { return Err("resampler channel count must be greater than zero"); }
      if inputRate == 0 || outputRate == 0 { return Err("resampler sample rates must be greater than zero"); }
      var resampler := new StreamingLinearResampler(channels, inputRate, outputRate);
      return Ok(resampler);
    }

    ghost function Emitted(): seq<real>
      reads this
      requires channels > 0 && inputRate > 0 && outputRate > 0
    {
      StreamOutput(accepted, channels, inputRate, outputRate)
    }

    ghost predicate Valid()
      reads this
    {
      && channels > 0 && inputRate > 0 && outputRate > 0
      && |accepted| % channels == 0
      && if inputRate == outputRate || accepted == [] then pending == [] && phase == 0
         else Carried(accepted, channels, inputRate, outputRate, pending, phase)
    }

    /** On the unequal-rate path one frame is retained and 0 < phase <= inputRate / outputRate. */
    lemma CarriedState()
      requires Valid() && inputRate != outputRate && accepted != []
      ensures |pending| == channels
      ensures 0 < phase <= inputRate
    {
      var n := Quotient(|accepted|, channels);
      assert |accepted| == n * channels;
      LastFrameLength(n, channels);
      PhaseRange(n, inputRate, outputRate, phase);
    }

    method Process(input: seq<real>) returns (r: Result<seq<real>>)
      requires Valid()
      modifies this
      ensures Valid()
      ensures r.Ok? <==> |input| % channels == 0
      ensures r.Err? ==> accepted == old(accepted) && phase == old(phase) && pending == old(pending)
      ensures r.Ok? ==> accepted == old(accepted) + input && Emitted() == old(Emitted()) + r.value
    {
      if |input| % channels != 0 {
        return Err("resampler input is not aligned to the channel count");
      }
      if |input| == 0 {
        assert accepted + input == accepted;
        return Ok([]);
      }
      ghost var before := accepted;
      ghost var all := before + input;
      AppendAligned(channels, before, input);

      if inputRate == outputRate && |pending| == 0 {
        EqualRatesIdentity(before, channels, inputRate);
        EqualRatesIdentity(all, channels, inputRate);
        accepted := all;
        return Ok(input);
      }

      ghost var n := Quotient(|all|, channels);
      ghost var base := if before == [] then 0 else Quotient(|before|, channels) - 1;
      ghost var start := StreamFrames(Quotient(|before|, channels), inputRate, outputRate);
      Appended(before, input, channels, inputRate, outputRate, pending, phase);
      pending := pending + input;
      var output := EmitFrames(all, n, base, start, StreamFrames(n, inputRate, outputRate));

      ConsumeFrames(all, base);
      accepted := all;
      return Ok(output);
    }

    /** Drops the frames the phase has passed, always keeping the last one. */
    method ConsumeFrames(ghost all: seq<real>, ghost base: nat)
      requires channels > 0 && inputRate > 0 && outputRate > 0 && |all| % channels == 0
      requires Retains(all, channels, base, pending)
      requires base * outputRate + phase
            == StreamFrames(Quotient(|all|, channels), inputRate, outputRate) * inputRate
      modifies this`phase, this`pending
      ensures Carried(all, channels, inputRate, outputRate, pending, phase)
    {
      Consumed(all, channels, base, inputRate, outputRate, phase);
      var framesToConsume := Min(Quotient(phase, outputRate), Quotient(|pending|, channels) - 1);
      if framesToConsume > 0 {
        pending := pending[framesToConsume * channels..];
        phase := phase - framesToConsume * outputRate;
      }
    }

    /** The emission loop: output frame k is due while its position k * inputRate lies at or
        before the last source frame. */
    method EmitFrames(ghost all: seq<real>, ghost n: nat, ghost base: nat, ghost start: nat, ghost total: nat)
      returns (output: seq<real>)
      requires channels > 0 && inputRate > 0 && outputRate > 0
      requires n == Quotient(|all|, channels) && total == StreamFrames(n, inputRate, outputRate)
      requires Retains(all, channels, base, pending)
      requires base * outputRate + phase == start * inputRate && start <= total
      modifies this`phase
      ensures base * outputRate + phase == total * inputRate
      ensures Covers(all, channels, inputRate, outputRate, start)
      ensures StreamOutput(all, channels, inputRate, outputRate)
           == OutputPrefix(all, channels, inputRate, outputRate, start) + output
    {
      ghost var k := start;
      StreamCovers(all, channels, inputRate, outputRate);
      var inputFrames := Quotient(|pending|, channels);
      output := [];
      while true
        invariant start <= k <= total
        invariant base * outputRate + phase == k * inputRate
        invariant OutputPrefix(all, channels, inputRate, outputRate, k)
               == OutputPrefix(all, channels, inputRate, outputRate, start) + output
        decreases total - k
      {
        var firstFrame := Quotient(phase, outputRate);
        var fraction := Fraction(phase, outputRate);
        EpsilonTestIsExact(phase, outputRate);
        LoopTest(n, base, inputRate, outputRate, phase, k);
        if firstFrame >= inputFrames || (firstFrame + 1 >= inputFrames && fraction > F64_EPSILON) {
          break;
        }
        var secondFrame := Min(firstFrame + 1, inputFrames - 1);
        var frame := RenderFrame(pending, channels, firstFrame, secondFrame, fraction);
        RetainedFrame(all, channels, base, pending, outputRate, k * inputRate, firstFrame, secondFrame, frame);
        output := output + frame;
        LastFrameLength(k + 1, inputRate);
        phase := phase + inputRate;
        k := k + 1;
      }
    }
  }
}
