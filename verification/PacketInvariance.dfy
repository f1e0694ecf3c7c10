/** What the packet resampler promises its callers: cutting a stream into packets is invisible. */
module PacketInvariance {
  import opened StreamResampler
  import opened Wrappers

  /** The samples of the packets that are accepted; a packet that is not a whole number of
      frames is refused and leaves no trace. */
  function Accepted(packets: seq<seq<real>>, channels: nat): (r: seq<real>)
    requires channels > 0
    ensures |r| % channels == 0
  {
    if packets == [] then []
    else
      var rest := packets[..|packets| - 1];
      var last := packets[|packets| - 1];
      if |last| % channels == 0 then
        AppendAligned(channels, Accepted(rest, channels), last);
        Accepted(rest, channels) + last
      else Accepted(rest, channels)
  }

  method FeedPackets(resampler: StreamingLinearResampler, packets: seq<seq<real>>) returns (output: seq<real>)
    requires resampler.Valid()
    modifies resampler
    ensures resampler.Valid()
    ensures resampler.accepted == old(resampler.accepted) + Accepted(packets, resampler.channels)
    ensures resampler.Emitted() == old(resampler.Emitted()) + output
  {
    output := [];
    assert resampler.accepted + [] == resampler.accepted;
    assert resampler.Emitted() + [] == resampler.Emitted();
    for p := 0 to |packets|
      invariant resampler.Valid()
      invariant resampler.accepted == old(resampler.accepted) + Accepted(packets[..p], resampler.channels)
      invariant resampler.Emitted() == old(resampler.Emitted()) + output
    {
      assert packets[..p + 1][..p] == packets[..p];
      var r := resampler.Process(packets[p]);
      match r {
        case Ok(frames) => output := output + frames;
        case Err(_) =>
      }
    }
    assert packets[..|packets|] == packets;
  }

  /** A fresh resampler fed packet by packet, with refused packets in between, produces the
      interpolation of the accepted stream: the cuts between packets have no influence. */
  method Streamed(channels: nat, inRate: SampleRate, out: SampleRate, packets: seq<seq<real>>)
    returns (output: seq<real>)
    requires channels > 0 && inRate > 0 && out > 0
    ensures output == StreamOutput(Accepted(packets, channels), channels, inRate, out)
  {
    var resampler := new StreamingLinearResampler(channels, inRate, out);
    ghost var none := resampler.accepted;
    output := FeedPackets(resampler, packets);
    assert none + Accepted(packets, channels) == Accepted(packets, channels);
    assert StreamOutput(none, channels, inRate, out) + output == output;
  }

  /** Any way of cutting gives the output of one call on the whole stream. */
  method PacketsVersusOneCall(channels: nat, inRate: SampleRate, out: SampleRate, packets: seq<seq<real>>)
    returns (pieces: seq<real>, whole: seq<real>)
    requires channels > 0 && inRate > 0 && out > 0
    ensures pieces == whole
  {
    var input := Accepted(packets, channels);
    assert Accepted([input][..0], channels) + input == input;
    pieces := Streamed(channels, inRate, out, packets);
    whole := Streamed(channels, inRate, out, [input]);
  }
}

/** The one-shot conversion, and how it relates to the packet resampler. */
module BatchResampler {
  import opened Interleaving
  import opened StreamResampler

  function BatchFrames(n: nat, inRate: nat, out: nat): nat
    requires inRate > 0
  {
    if n * out / inRate < 1 then 1 else n * out / inRate
  }

  lemma BatchCovers(s: seq<real>, channels: nat, inRate: nat, out: nat)
    requires channels > 0 && inRate > 0 && out > 0 && |s| / channels > 0
    ensures Covers(s, channels, inRate, out, BatchFrames(|s| / channels, inRate, out))
  {
    var n := |s| / channels;
    forall k | 0 <= k < BatchFrames(n, inRate, out) ensures (k * inRate) / out < n {
      DivLe(k + 1, n * out, inRate);
      LastFrameLength(k + 1, inRate);
      DivLe(n, k * inRate, out);
      LastFrameLength(n, out);
    }
  }

  /** What the conversion returns on every input, ragged and degenerate ones included. */
  ghost function BatchOutput(s: seq<real>, channels: nat, inRate: nat, out: nat): seq<real> {
    if channels == 0 || inRate == 0 || out == 0 then []
    else if inRate == out || |s| / channels < 2 then s
    else
      BatchCovers(s, channels, inRate, out);
      OutputPrefix(s, channels, inRate, out, BatchFrames(|s| / channels, inRate, out))
  }

  method ResampleInterleavedLinear(input: seq<real>, channels: nat, inputRate: SampleRate, outputRate: SampleRate)
    returns (output: seq<real>)
    ensures output == BatchOutput(input, channels, inputRate, outputRate)
  {
    if channels == 0 || inputRate == 0 || outputRate == 0 || |input| == 0 {
      return [];
    }
    if inputRate == outputRate {
      return input;
    }
    var inputFrames := Quotient(|input|, channels);
    if inputFrames < 2 {
      return input;
    }
    var scaled := Quotient(inputFrames * outputRate, inputRate);
    var outputFrames := if scaled < 1 then 1 else scaled;
    BatchCovers(input, channels, inputRate, outputRate);
    output := [];
    for outputFrame := 0 to outputFrames
      invariant Covers(input, channels, inputRate, outputRate, outputFrames)
      invariant output == OutputPrefix(input, channels, inputRate, outputRate, outputFrame)
    {
      var position := outputFrame * inputRate;
      var first := Quotient(position, outputRate);
      var second := Min(first + 1, inputFrames - 1);
      var frame := RenderFrame(input, channels, first, second, Fraction(position, outputRate));
      assert frame == FrameAt(input, channels, outputRate, position);
      output := output + frame;
    }
  }

  lemma CountsUpsampling(n: nat, inRate: nat, out: nat)
    requires n > 0 && 0 < inRate <= out
    ensures StreamFrames(n, inRate, out) <= BatchFrames(n, inRate, out)
  {
    var k := StreamFrames(n, inRate, out);
    StreamFramesIff(n, inRate, out, k - 1);
    LastFrameLength(k, inRate);
    LastFrameLength(n, out);
    DivLe(k, n * out, inRate);
  }

  lemma CountsDownsampling(n: nat, inRate: nat, out: nat)
    requires n > 0 && 0 < out < inRate
    ensures BatchFrames(n, inRate, out) <= StreamFrames(n, inRate, out) <= BatchFrames(n, inRate, out) + 1
  {
    var b := BatchFrames(n, inRate, out);
    DivLe(b, n * out, inRate);
    LastFrameLength(b, inRate);
    LastFrameLength(n, out);
    StreamFramesIff(n, inRate, out, b - 1);
    var k := StreamFrames(n, inRate, out);
    StreamFramesIff(n, inRate, out, k - 1);
    DivLe(k - 1, n * out, inRate);
  }

  lemma SingleFrame(s: seq<real>, channels: nat, inRate: nat, out: nat)
    requires channels > 0 && inRate > 0 && out > 0 && |s| == channels
    ensures StreamOutput(s, channels, inRate, out) == s
  {
    MulDiv(1, channels);
    forall c | 0 <= c < channels ensures StreamOutput(s, channels, inRate, out)[c] == s[c] {
      OutputAt(s, channels, inRate, out, 0, c);
    }
  }

  /** Output frame k of the one-shot conversion is the interpolation at k * inRate / out, and
      past the last frame the packet resampler would emit it repeats the last source frame. */
  lemma BatchAt(s: seq<real>, channels: nat, inRate: nat, out: nat, k: nat, c: nat)
    requires c < channels && inRate > 0 && out > 0 && inRate != out && |s| / channels >= 2
    requires k < BatchFrames(|s| / channels, inRate, out)
    ensures k * channels + c < |BatchOutput(s, channels, inRate, out)| && k * inRate / out < |s| / channels
    ensures BatchOutput(s, channels, inRate, out)[k * channels + c]
         == Interpolated(s, channels, out, k * inRate, c)
    ensures k >= StreamFrames(|s| / channels, inRate, out)
        ==> BatchOutput(s, channels, inRate, out)[k * channels + c] == Sample(s, channels, |s| / channels - 1, c)
  {
    var n := |s| / channels;
    BatchCovers(s, channels, inRate, out);
    OutputPrefixAt(s, channels, inRate, out, BatchFrames(n, inRate, out), k, c);
    StreamFramesIff(n, inRate, out, k);
    if k >= StreamFrames(n, inRate, out) { PastTheEnd(s, channels, out, k * inRate, c); }
  }

  /** Frame k lies between the two source frames around k * inRate / out, holding the last one. */
  lemma BatchInterpolates(s: seq<real>, channels: nat, inRate: nat, out: nat, k: nat, c: nat, q: nat, r: nat)
    requires c < channels && inRate > 0 && inRate != out && |s| / channels >= 2
    requires r < out && k * inRate == q * out + r && k < BatchFrames(|s| / channels, inRate, out)
    ensures k * channels + c < |BatchOutput(s, channels, inRate, out)| && q < |s| / channels
    ensures LiesBetween(BatchOutput(s, channels, inRate, out)[k * channels + c], Sample(s, channels, q, c),
                        Sample(s, channels, Min(q + 1, |s| / channels - 1), c), r, out)
  {
    DivModUnique(k * inRate, out, q, r);
    BatchAt(s, channels, inRate, out, k, c);
    InterpolatedLies(s, channels, out, q, r, c);
  }

  lemma BatchCount(n: nat, inRate: nat, out: nat, frames: nat)
    requires inRate > 0
    ensures BatchFrames(n, inRate, out) == frames <==>
      frames > 0 && n * out < (frames + 1) * inRate && (frames * inRate <= n * out || frames == 1)
  {
    DivLe(frames, n * out, inRate);
    DivLe(frames + 1, n * out, inRate);
    DivLe(1, n * out, inRate);
  }

  lemma SameLength(a: nat, b: nat, channels: nat)
    requires channels > 0
    ensures a * channels == b * channels <==> a == b
  {
    if a < b { MulLe(a + 1, b, channels); LastFrameLength(a + 1, channels); }
    if b < a { MulLe(b + 1, a, channels); LastFrameLength(b + 1, channels); }
  }

  /** The one-shot conversion of n frames returns floor(n * out / in) frames, but at least one. */
  lemma BatchLength(s: seq<real>, channels: nat, inRate: nat, out: nat, frames: nat)
    requires channels > 0 && inRate > 0 && out > 0 && inRate != out && |s| / channels >= 2
    ensures |BatchOutput(s, channels, inRate, out)| == frames * channels <==>
      frames > 0 && (|s| / channels) * out < (frames + 1) * inRate
      && (frames * inRate <= (|s| / channels) * out || frames == 1)
  {
    BatchCovers(s, channels, inRate, out);
    BatchCount(|s| / channels, inRate, out, frames);
    SameLength(BatchFrames(|s| / channels, inRate, out), frames, channels);
  }

  lemma PastTheEnd(s: seq<real>, channels: nat, out: nat, p: nat, c: nat)
    requires c < channels && out > 0 && p / out < |s| / channels && p > (|s| / channels - 1) * out
    ensures Interpolated(s, channels, out, p, c) == Sample(s, channels, |s| / channels - 1, c)
  {
    DivLe(|s| / channels - 1, p, out);
  }

  /** The two conversions agree as far as both go: the packet resampler holds back what the
      one-shot one fills by holding the last frame (rates going up), or emits at most one frame
      more (rates going down). */
  lemma BatchVersusStream(s: seq<real>, channels: nat, inRate: nat, out: nat)
    requires channels > 0 && inRate > 0 && out > 0 && |s| % channels == 0 && |s| > 0
    ensures inRate <= out ==> StreamOutput(s, channels, inRate, out) <= BatchOutput(s, channels, inRate, out)
    ensures out < inRate ==> BatchOutput(s, channels, inRate, out) <= StreamOutput(s, channels, inRate, out)
    ensures out < inRate ==>
      |StreamOutput(s, channels, inRate, out)| - |BatchOutput(s, channels, inRate, out)| in {0, channels}
  {
    var n := |s| / channels;
    assert |s| == n * channels;
    if inRate == out {
      EqualRatesIdentity(s, channels, inRate);
    } else if n < 2 {
      SingleFrame(s, channels, inRate, out);
    } else {
      BatchCovers(s, channels, inRate, out);
      StreamCovers(s, channels, inRate, out);
      var a, b := StreamFrames(n, inRate, out), BatchFrames(n, inRate, out);
      if inRate <= out {
        CountsUpsampling(n, inRate, out);
        OutputPrefixNested(s, channels, inRate, out, a, b);
      } else {
        CountsDownsampling(n, inRate, out);
        OutputPrefixNested(s, channels, inRate, out, b, a);
        assert a == b || a == b + 1;
        LastFrameLength(b + 1, channels);
      }
    }
  }
}
