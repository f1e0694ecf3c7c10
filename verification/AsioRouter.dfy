/** The ASIO output router (crates/audio-core/src/asio_subscribe.rs): each incoming channel is
    disabled or routed to an output, and outputs average what is routed to them. */
module AsioRouter {
  import opened Interleaving
  import opened Wrappers

  type Routes = seq<Option<nat>>

  /** Sum of the first `upTo` channels that are routed to output o. */
  function RouteSum(frame: seq<real>, routes: Routes, o: nat, upTo: nat): real
    requires |frame| == |routes| && upTo <= |routes|
  {
    if upTo == 0 then 0.0
    else RouteSum(frame, routes, o, upTo - 1) + (if routes[upTo - 1] == Some(o) then frame[upTo - 1] else 0.0)
  }

  function RouteCount(routes: Routes, o: nat, upTo: nat): nat
    requires upTo <= |routes|
  {
    if upTo == 0 then 0
    else RouteCount(routes, o, upTo - 1) + (if routes[upTo - 1] == Some(o) then 1 else 0)
  }

  /** The average of the incoming channels routed to o, or silence if there is none. */
  function RoutedMean(frame: seq<real>, routes: Routes, o: nat): real
    requires |frame| == |routes|
  {
    var count := RouteCount(routes, o, |routes|);
    if count == 0 then 0.0 else RouteSum(frame, routes, o, |routes|) / count as real
  }

  // ---------------------------------------------------------------- validation

  ghost predicate ValidRoutes(routes: Routes, incoming: nat, outputs: nat) {
    && |routes| == incoming && outputs > 0
    && (forall i :: 0 <= i < |routes| && routes[i].Some? ==> routes[i].value < outputs)
    && exists i :: 0 <= i < |routes| && routes[i].Some?
  }

  method ValidateRoutes(routes: Routes, incomingChannels: nat, outputChannels: nat) returns (r: Outcome)
    ensures r.Pass? <==> ValidRoutes(routes, incomingChannels, outputChannels)
  {
    if |routes| != incomingChannels {
      return Fail("unexpected number of ASIO route entries");
    }
    if outputChannels == 0 {
      return Fail("ASIO driver exposes no output channels");
    }
    var allDisabled := true;
    for i := 0 to |routes|
      invariant forall k :: 0 <= k < i && routes[k].Some? ==> routes[k].value < outputChannels
      invariant allDisabled <==> forall k :: 0 <= k < i ==> routes[k].None?
    {
      if routes[i].Some? {
        if routes[i].value >= outputChannels {
          return Fail("invalid ASIO route");
        }
        allDisabled := false;
      }
    }
    if allDisabled {
      return Fail("all incoming channels are disabled");
    }
    return Pass;
  }

  // ---------------------------------------------------------------- divisors

  function Divisor(count: nat): real {
    if count > 1 then 1.0 / count as real else 1.0
  }

  /** Counting in one pass over the routes, then inverting. */
  method BuildRouteDivisors(routes: Routes, outputChannels: nat) returns (divisors: array<real>)
    ensures fresh(divisors) && divisors.Length == outputChannels
    ensures forall o :: 0 <= o < outputChannels ==> divisors[o] == Divisor(RouteCount(routes, o, |routes|))
  {
    var counts := new nat[outputChannels](_ => 0);
    for i := 0 to |routes|
      invariant forall o :: 0 <= o < outputChannels ==> counts[o] == RouteCount(routes, o, i)
    {
      if routes[i].Some? && routes[i].value < outputChannels {
        counts[routes[i].value] := counts[routes[i].value] + 1;
      }
    }
    divisors := new real[outputChannels](_ => 1.0);
    for o := 0 to outputChannels
      invariant forall k :: 0 <= k < o ==> divisors[k] == Divisor(RouteCount(routes, k, |routes|))
      invariant forall k :: 0 <= k < outputChannels ==> counts[k] == RouteCount(routes, k, |routes|)
    {
      divisors[o] := if counts[o] > 1 then 1.0 / counts[o] as real else 1.0;
    }
  }

  lemma {:induction false} NoRouteNoSum(frame: seq<real>, routes: Routes, o: nat, upTo: nat)
    requires |frame| == |routes| && upTo <= |routes| && RouteCount(routes, o, upTo) == 0
    ensures RouteSum(frame, routes, o, upTo) == 0.0
  {
    if upTo > 0 { NoRouteNoSum(frame, routes, o, upTo - 1); }
  }

  lemma TimesReciprocal(x: real, n: real)
    requires n != 0.0
    ensures x * (1.0 / n) == x / n
  {
  }

  /** Multiplying the sum by the divisor is taking the mean, for no route, one, or many. */
  lemma DivisorGivesMean(frame: seq<real>, routes: Routes, o: nat)
    requires |frame| == |routes|
    ensures RouteSum(frame, routes, o, |routes|) * Divisor(RouteCount(routes, o, |routes|))
         == RoutedMean(frame, routes, o)
  {
    var sum, count := RouteSum(frame, routes, o, |routes|), RouteCount(routes, o, |routes|);
    if count == 0 {
      NoRouteNoSum(frame, routes, o, |routes|);
    } else if count > 1 {
      TimesReciprocal(sum, count as real);
    }
  }

  lemma {:induction false} SumBounded(frame: seq<real>, routes: Routes, o: nat, upTo: nat)
    requires |frame| == |routes| && upTo <= |routes|
    requires forall i :: 0 <= i < |frame| ==> -1.0 <= frame[i] <= 1.0
    ensures var count := RouteCount(routes, o, upTo) as real;
      -count <= RouteSum(frame, routes, o, upTo) <= count
  {
    if upTo > 0 { SumBounded(frame, routes, o, upTo - 1); }
  }

  lemma QuotientBounded(x: real, n: real)
    requires n > 0.0 && -n <= x <= n
    ensures -1.0 <= x / n <= 1.0
  {
    assert (x / n) * n == x;
  }

  /** Averaging in-range samples needs no clipping, so the output is the mean itself. */
  lemma ClampIsIdentity(frame: seq<real>, routes: Routes, o: nat)
    requires |frame| == |routes|
    requires forall i :: 0 <= i < |frame| ==> -1.0 <= frame[i] <= 1.0
    ensures Clip(RoutedMean(frame, routes, o)) == RoutedMean(frame, routes, o)
  {
    SumBounded(frame, routes, o, |routes|);
    if RouteCount(routes, o, |routes|) > 0 {
      QuotientBounded(RouteSum(frame, routes, o, |routes|), RouteCount(routes, o, |routes|) as real);
    }
  }

  // ---------------------------------------------------------------- rendering

  function QueuedFrame(queue: seq<real>, channels: nat, f: nat): (r: seq<real>)
    requires channels > 0 && f < Quotient(|queue|, channels)
    ensures |r| == channels
  {
    MulLe(f + 1, Quotient(|queue|, channels), channels);
    assert (f + 1) * channels == f * channels + channels;
    queue[f * channels..f * channels + channels]
  }

  /** Sample i of the interleaved output while frames are queued. */
  function RoutedAt(queue: seq<real>, routes: Routes, outputs: nat, i: nat): real
    requires outputs > 0 && |routes| > 0 && Quotient(i, outputs) < Quotient(|queue|, |routes|)
  {
    Clip(RoutedMean(QueuedFrame(queue, |routes|, Quotient(i, outputs)), routes, i % outputs))
  }

  /** The first `played` output frames carry the first `played` queued frames; the rest is silent. */
  ghost predicate Routed(output: seq<real>, queue: seq<real>, routes: Routes, outputs: nat, played: nat)
    requires outputs > 0 && |routes| > 0 && played <= Quotient(|queue|, |routes|)
  {
    forall i :: 0 <= i < |output| ==>
      output[i] == if Quotient(i, outputs) < played then RoutedAt(queue, routes, outputs, i) else 0.0
  }

  method Silence(output: array<real>)
    modifies output
    ensures forall i :: 0 <= i < output.Length ==> output[i] == 0.0
  {
    for i := 0 to output.Length
      invariant forall k :: 0 <= k < i ==> output[k] == 0.0
    {
      output[i] := 0.0;
    }
  }

  class RoutedOutput {
    var audioBuffer: seq<real>

    constructor ()
      ensures audioBuffer == []
    {
      audioBuffer := [];
    }

    /** One callback plays as many whole queued frames as fit and consumes exactly those. */
    method RenderRoutedAudio(output: array<real>, incomingChannels: nat, outputChannels: nat, routes: Routes,
                             divisors: array<real>)
      requires output != divisors && |routes| == incomingChannels && divisors.Length == outputChannels
      requires forall o :: 0 <= o < outputChannels ==> divisors[o] == Divisor(RouteCount(routes, o, |routes|))
      modifies this, output
      ensures incomingChannels == 0 || outputChannels == 0 ==>
        audioBuffer == old(audioBuffer) && forall i :: 0 <= i < output.Length ==> output[i] == 0.0
      ensures incomingChannels > 0 && outputChannels > 0 ==>
        var played := Min(Quotient(output.Length, outputChannels), Quotient(|old(audioBuffer)|, incomingChannels));
        && played * incomingChannels <= |old(audioBuffer)|
        && audioBuffer == old(audioBuffer)[played * incomingChannels..]
        && Routed(output[..], old(audioBuffer), routes, outputChannels, played)
    {
      Silence(output);
      if incomingChannels == 0 || outputChannels == 0 {
        return;
      }
      var outputFrames := Quotient(output.Length, outputChannels);
      ghost var queue := audioBuffer;
      ghost var waiting := Quotient(|queue|, incomingChannels);
      ghost var played := 0;
      assert queue[0..] == queue;
      for frameIndex := 0 to outputFrames
        invariant played == Min(frameIndex, waiting)
        invariant played * incomingChannels <= |queue| && audioBuffer == queue[played * incomingChannels..]
        invariant Routed(output[..], queue, routes, outputChannels, played)
      {
        EnoughQueued(|queue|, incomingChannels, played);
        if |audioBuffer| < incomingChannels {
          continue;
        }
        NextFrame(queue, incomingChannels, played);
        NextFrame(output[..], outputChannels, frameIndex);
        PlayFrame(output, frameIndex, frameIndex * outputChannels, incomingChannels, outputChannels, routes, divisors,
                  queue);
        played := played + 1;
      }
    }

    method PlayFrame(output: array<real>, f: nat, offset: nat, incomingChannels: nat, outputChannels: nat,
                     routes: Routes, divisors: array<real>, ghost queue: seq<real>)
      requires output != divisors && |routes| == incomingChannels > 0 && divisors.Length == outputChannels > 0
      requires forall o :: 0 <= o < outputChannels ==> divisors[o] == Divisor(RouteCount(routes, o, |routes|))
      requires offset == f * outputChannels && offset + outputChannels <= output.Length
      requires f < Quotient(|queue|, incomingChannels) && incomingChannels <= |audioBuffer|
      requires audioBuffer[..incomingChannels] == QueuedFrame(queue, incomingChannels, f)
      requires Routed(output[..], queue, routes, outputChannels, f)
      modifies this, output
      ensures audioBuffer == old(audioBuffer)[incomingChannels..]
      ensures Routed(output[..], queue, routes, outputChannels, f + 1)
    {
      ghost var before := output[..];
      SilentAhead(output[..], queue, routes, outputChannels, f, offset);
      RouteFrame(output, offset, QueuedFrame(queue, incomingChannels, f), incomingChannels, outputChannels,
                 routes, divisors);
      FrameRouted(before, output[..], queue, routes, outputChannels, f, offset);
    }

    /** The per-frame loops: accumulate each popped sample on its output, then scale and clip. */
    method RouteFrame(output: array<real>, offset: nat, ghost frame: seq<real>, incomingChannels: nat,
                      outputChannels: nat, routes: Routes, divisors: array<real>)
      requires output != divisors && offset + outputChannels <= output.Length
      requires |routes| == incomingChannels == |frame| <= |audioBuffer| && frame == audioBuffer[..incomingChannels]
      requires divisors.Length == outputChannels
      requires forall o :: 0 <= o < outputChannels ==> divisors[o] == Divisor(RouteCount(routes, o, |routes|))
      requires forall i :: offset <= i < offset + outputChannels ==> output[i] == 0.0
      modifies this, output
      ensures audioBuffer == old(audioBuffer)[incomingChannels..]
      ensures forall i :: 0 <= i < output.Length ==>
        output[i] == if offset <= i < offset + outputChannels then Clip(RoutedMean(frame, routes, i - offset))
                     else old(output[i])
    {
      Accumulate(output, offset, frame, outputChannels, routes);
      Average(output, offset, frame, outputChannels, routes, divisors);
    }

    /** Scaling each accumulated sum by its divisor, then clipping. */
    method Average(output: array<real>, offset: nat, ghost frame: seq<real>, outputChannels: nat, routes: Routes,
                   divisors: array<real>)
      requires output != divisors && offset + outputChannels <= output.Length
      requires |routes| == |frame| && divisors.Length == outputChannels
      requires forall o :: 0 <= o < outputChannels ==> divisors[o] == Divisor(RouteCount(routes, o, |routes|))
      requires forall i :: offset <= i < offset + outputChannels ==>
        output[i] == RouteSum(frame, routes, i - offset, |routes|)
      modifies output
      ensures forall i :: 0 <= i < output.Length ==>
        output[i] == if offset <= i < offset + outputChannels then Clip(RoutedMean(frame, routes, i - offset))
                     else old(output[i])
    {
      for o := 0 to outputChannels
        invariant forall i :: 0 <= i < output.Length ==>
          output[i] == if offset <= i < offset + o then Clip(RoutedMean(frame, routes, i - offset))
                       else old(output[i])
      {
        DivisorGivesMean(frame, routes, o);
        output[offset + o] := Clip(output[offset + o] * divisors[o]);
      }
    }

    method Accumulate(output: array<real>, offset: nat, ghost frame: seq<real>, outputChannels: nat, routes: Routes)
      requires offset + outputChannels <= output.Length
      requires |routes| == |frame| <= |audioBuffer| && frame == audioBuffer[..|frame|]
      requires forall i :: offset <= i < offset + outputChannels ==> output[i] == 0.0
      modifies this, output
      ensures audioBuffer == old(audioBuffer)[|routes|..]
      ensures forall i :: 0 <= i < output.Length ==>
        output[i] == if offset <= i < offset + outputChannels then RouteSum(frame, routes, i - offset, |routes|)
                     else old(output[i])
    {
      for n := 0 to |routes|
        invariant audioBuffer == old(audioBuffer)[n..]
        invariant forall i :: 0 <= i < output.Length ==>
          output[i] == if offset <= i < offset + outputChannels then RouteSum(frame, routes, i - offset, n)
                       else old(output[i])
      {
        var sample := audioBuffer[0];
        audioBuffer := audioBuffer[1..];
        assert sample == frame[n];
        if routes[n].Some? && routes[n].value < outputChannels {
          output[offset + routes[n].value] := output[offset + routes[n].value] + sample;
        }
      }
    }
  }

  lemma EnoughQueued(queued: nat, channels: nat, played: nat)
    requires channels > 0 && played * channels <= queued
    ensures queued - played * channels >= channels <==> played < Quotient(queued, channels)
  {
    assert (played + 1) * channels == played * channels + channels;
    DivLe(played + 1, queued, channels);
  }

  lemma NextFrame(s: seq<real>, channels: nat, f: nat)
    requires channels > 0 && f < Quotient(|s|, channels)
    ensures (f + 1) * channels == f * channels + channels <= |s|
    ensures s[f * channels..][channels..] == s[(f + 1) * channels..]
    ensures s[f * channels..][..channels] == QueuedFrame(s, channels, f)
  {
    MulLe(f + 1, Quotient(|s|, channels), channels);
    assert (f + 1) * channels == f * channels + channels;
  }

  lemma SilentAhead(output: seq<real>, queue: seq<real>, routes: Routes, outputs: nat, f: nat, offset: nat)
    requires outputs > 0 && |routes| > 0 && f <= Quotient(|queue|, |routes|) && offset == f * outputs
    requires Routed(output, queue, routes, outputs, f)
    ensures forall i :: offset <= i < offset + outputs && i < |output| ==> output[i] == 0.0
  {
    forall i | offset <= i < offset + outputs && i < |output| ensures output[i] == 0.0 {
      InFrame(i, outputs, f);
    }
  }

  /** Writing routed frame f, which begins at `offset`, extends the routed prefix of the output. */
  lemma FrameRouted(before: seq<real>, after: seq<real>, queue: seq<real>, routes: Routes, outputs: nat,
                    f: nat, offset: nat)
    requires outputs > 0 && |routes| > 0 && f < Quotient(|queue|, |routes|) && |before| == |after|
    requires offset == f * outputs && Routed(before, queue, routes, outputs, f)
    requires forall i :: 0 <= i < |after| ==>
      after[i] == if offset <= i < offset + outputs
                  then Clip(RoutedMean(QueuedFrame(queue, |routes|, f), routes, i - offset)) else before[i]
    ensures Routed(after, queue, routes, outputs, f + 1)
  {
    forall i | 0 <= i < |after|
      ensures after[i] == if Quotient(i, outputs) < f + 1 then RoutedAt(queue, routes, outputs, i) else 0.0
    {
      InFrame(i, outputs, f);
    }
  }

  // ---------------------------------------------------------------- which channel reaches which output

  /** The channels routed to an output, as a set. */
  function RoutedTo(routes: Routes, o: nat, upTo: nat): set<nat>
    requires upTo <= |routes|
  {
    set i: nat | i < upTo && routes[i] == Some(o)
  }

  lemma OneMoreRoute(routes: Routes, o: nat, n: nat)
    requires n < |routes|
    ensures n !in RoutedTo(routes, o, n)
    ensures RoutedTo(routes, o, n + 1) == RoutedTo(routes, o, n) + (if routes[n] == Some(o) then {n} else {})
  {
  }

  lemma {:induction false} CountIsSize(routes: Routes, o: nat, upTo: nat)
    requires upTo <= |routes|
    ensures RouteCount(routes, o, upTo) == |RoutedTo(routes, o, upTo)|
  {
    if upTo > 0 {
      CountIsSize(routes, o, upTo - 1);
      OneMoreRoute(routes, o, upTo - 1);
    }
  }

  lemma {:induction false} RouteSumAdds(a: seq<real>, b: seq<real>, sum: seq<real>, routes: Routes, o: nat, upTo: nat)
    requires |a| == |b| == |sum| == |routes| && upTo <= |routes|
    requires forall i :: 0 <= i < |sum| ==> sum[i] == a[i] + b[i]
    ensures RouteSum(sum, routes, o, upTo) == RouteSum(a, routes, o, upTo) + RouteSum(b, routes, o, upTo)
  {
    if upTo > 0 { RouteSumAdds(a, b, sum, routes, o, upTo - 1); }
  }

  lemma {:induction false} RouteSumOfOne(frame: seq<real>, routes: Routes, o: nat, i: nat, upTo: nat)
    requires |frame| == |routes| && i < |routes| && upTo <= |routes|
    requires forall j :: 0 <= j < |frame| && j != i ==> frame[j] == 0.0
    ensures RouteSum(frame, routes, o, upTo) == if i < upTo && routes[i] == Some(o) then frame[i] else 0.0
  {
    if upTo > 0 { RouteSumOfOne(frame, routes, o, i, upTo - 1); }
  }

  lemma QuotientAdds(x: real, y: real, n: real)
    requires n != 0.0
    ensures (x + y) / n == x / n + y / n
  {
  }

  /** Superposed frames are routed to superposed outputs. */
  lemma RoutingAdds(a: seq<real>, b: seq<real>, sum: seq<real>, routes: Routes, o: nat)
    requires |a| == |b| == |sum| == |routes|
    requires forall i :: 0 <= i < |sum| ==> sum[i] == a[i] + b[i]
    ensures RoutedMean(sum, routes, o) == RoutedMean(a, routes, o) + RoutedMean(b, routes, o)
  {
    RouteSumAdds(a, b, sum, routes, o, |routes|);
    var count := RouteCount(routes, o, |routes|);
    if count > 0 {
      QuotientAdds(RouteSum(a, routes, o, |routes|), RouteSum(b, routes, o, |routes|), count as real);
    }
  }

  /** A sample on channel i alone reaches exactly the output it is routed to, with an equal share of
      the channels routed there. With superposition this is the whole router. */
  lemma OneChannelRouted(frame: seq<real>, routes: Routes, o: nat, i: nat)
    requires |frame| == |routes| && i < |routes|
    requires forall j :: 0 <= j < |frame| && j != i ==> frame[j] == 0.0
    ensures routes[i] != Some(o) ==> RoutedMean(frame, routes, o) == 0.0
    ensures routes[i] == Some(o) ==>
      |RoutedTo(routes, o, |routes|)| as real * RoutedMean(frame, routes, o) == frame[i]
  {
    RouteSumOfOne(frame, routes, o, i, |routes|);
    CountIsSize(routes, o, |routes|);
    var count := RouteCount(routes, o, |routes|);
    if routes[i] == Some(o) {
      assert i in RoutedTo(routes, o, |routes|);
      Restored(frame[i], count as real);
    }
  }

  lemma Restored(x: real, n: real)
    requires n != 0.0
    ensures n * (x / n) == x
  {
  }

  lemma QueuedSlice(queue: seq<real>, channels: nat, f: nat, from: nat)
    requires channels > 0 && f < Quotient(|queue|, channels) && from == f * channels
    ensures from + channels <= |queue| && QueuedFrame(queue, channels, f) == queue[from..from + channels]
  {
    NextFrame(queue, channels, f);
  }

  /** Sample f * outputs + c of a rendered output is channel c of frame f: the clipped mean of what
      frame f of the queue routes there. */
  lemma RoutedSample(queue: seq<real>, routes: Routes, outputs: nat, f: nat, c: nat, at: nat, from: nat)
    requires |routes| > 0 && c < outputs && f < Quotient(|queue|, |routes|)
    requires at == f * outputs + c && from == f * |routes|
    ensures from + |routes| <= |queue| && Quotient(at, outputs) == f
    ensures RoutedAt(queue, routes, outputs, at) == Clip(RoutedMean(queue[from..from + |routes|], routes, c))
  {
    DivModUnique(at, outputs, f, c);
    QueuedSlice(queue, |routes|, f, from);
  }
}
