/** One playback callback of the bus (crates/audio-core/src/bus.rs) with a single source: frames
    are popped from its queue, and once it runs dry the last frame fades by 0.85 per frame. */
module BusRender {
  import opened Interleaving
  import opened ChannelRemap

  /** What a channel plays when its queue is dry. */
  function Decayed(x: real): real {
    x * 0.85
  }

  /** The scratch frame the callbacks share, and the source's queue. */
  datatype Source = Source(frame: seq<real>, queue: seq<real>)

  function NextSample(s: Source, c: nat): real
    requires c < |s.frame|
  {
    if c < |s.queue| then s.queue[c] else Decayed(s.frame[c])
  }

  function NextSource(s: Source): (r: Source)
    ensures |r.frame| == |s.frame|
  {
    Source(seq(|s.frame|, c requires 0 <= c < |s.frame| => NextSample(s, c)), s.queue[Min(|s.frame|, |s.queue|)..])
  }

  function After(s: Source, frames: nat): (r: Source)
    ensures |r.frame| == |s.frame|
  {
    if frames == 0 then s else NextSource(After(s, frames - 1))
  }

  function Amplified(gain: real, x: real): real {
    Clip(x * gain)
  }

  /** Output sample c of frame j. */
  function Rendered(s: Source, gain: real, outputs: nat, j: nat, c: nat): real
    requires c < outputs
  {
    Amplified(gain, Remapped(After(s, j + 1).frame, outputs, c))
  }

  /** Sample i of the interleaved output. */
  function RenderedAt(s: Source, gain: real, outputs: nat, i: nat): real
    requires outputs > 0
  {
    Rendered(s, gain, outputs, i / outputs, i % outputs)
  }

  /** The first c channels of the scratch frame have taken their next samples. */
  ghost predicate Popped(start: Source, s: Source, c: nat) {
    && |s.frame| == |start.frame| && s.queue == start.queue[Min(c, |start.queue|)..]
    && forall i :: 0 <= i < |s.frame| ==> s.frame[i] == if i < c then NextSample(start, i) else start.frame[i]
  }

  /** Channel c takes the next sample, or fades. */
  function PopAt(s: Source, c: nat): (r: Source)
    requires c < |s.frame|
    ensures |r.frame| == |s.frame|
  {
    if s.queue == [] then s.(frame := s.frame[c := Decayed(s.frame[c])])
    else Source(s.frame[c := s.queue[0]], s.queue[1..])
  }

  function PopUpTo(s: Source, c: nat): (r: Source)
    requires c <= |s.frame|
    ensures |r.frame| == |s.frame|
  {
    if c == 0 then s else PopAt(PopUpTo(s, c - 1), c - 1)
  }

  lemma PoppedOneMore(start: Source, s: Source, c: nat)
    requires Popped(start, s, c) && c < |start.frame|
    ensures Popped(start, PopAt(s, c), c + 1)
  {
  }

  lemma {:induction false} PoppedUpTo(start: Source, c: nat)
    requires c <= |start.frame|
    ensures Popped(start, PopUpTo(start, c), c)
  {
    if c == 0 {
      assert start.queue[0..] == start.queue;
    } else {
      PoppedUpTo(start, c - 1);
      PoppedOneMore(start, PopUpTo(start, c - 1), c - 1);
    }
  }

  /** One pass over the channels is the next state of the source. */
  lemma PopUpToAll(start: Source)
    ensures PopUpTo(start, |start.frame|) == NextSource(start)
  {
    PoppedUpTo(start, |start.frame|);
    assert PopUpTo(start, |start.frame|).frame == NextSource(start).frame;
  }

  class BusOutput {
    const inputFrame: array<real>
    const remappedFrame: array<real>
    const mixedFrame: array<real>
    var sourceBuffer: seq<real>

    ghost predicate Valid()
      reads this
    {
      && inputFrame != remappedFrame && inputFrame != mixedFrame && remappedFrame != mixedFrame
      && remappedFrame.Length == mixedFrame.Length
    }

    constructor (inputs: nat, outputs: nat)
      ensures Valid() && inputFrame.Length == inputs && mixedFrame.Length == outputs
      ensures fresh(inputFrame) && fresh(remappedFrame) && fresh(mixedFrame)
      ensures sourceBuffer == [] && inputFrame[..] == Scale(0.0, inputFrame[..])
    {
      inputFrame := new real[inputs](_ => 0.0);
      remappedFrame := new real[outputs](_ => 0.0);
      mixedFrame := new real[outputs](_ => 0.0);
      sourceBuffer := [];
    }

    ghost function View(): Source
      reads this, inputFrame
    {
      Source(inputFrame[..], sourceBuffer)
    }

    /** `popped.unwrap_or(sample * 0.85)`. */
    method PopSample(sample: real) returns (next: real)
      modifies this`sourceBuffer
      ensures old(sourceBuffer) == [] ==> next == Decayed(sample) && sourceBuffer == []
      ensures old(sourceBuffer) != [] ==> next == old(sourceBuffer)[0] && sourceBuffer == old(sourceBuffer)[1..]
    {
      if |sourceBuffer| == 0 {
        return Decayed(sample);
      }
      next := sourceBuffer[0];
      sourceBuffer := sourceBuffer[1..];
    }

    /** One turn of the loop over the scratch frame. */
    method PopChannel(c: nat)
      requires c < inputFrame.Length
      modifies this`sourceBuffer, inputFrame
      ensures View() == PopAt(old(View()), c)
    {
      var next := PopSample(inputFrame[c]);
      inputFrame[c] := next;
      assert inputFrame[..] == old(inputFrame[..])[c := next];
    }

    /** Every channel of the scratch frame takes the next sample, or fades. */
    method PopFrame()
      modifies this`sourceBuffer, inputFrame
      ensures View() == NextSource(old(View()))
    {
      ghost var start := View();
      for c := 0 to inputFrame.Length
        invariant View() == PopUpTo(start, c)
      {
        PopChannel(c);
      }
      PopUpToAll(start);
    }

    /** Mixes frame f of a run that began at `start`. */
    method MixFrame(ghost start: Source, ghost f: nat)
      requires Valid() && View() == After(start, f)
      modifies this`sourceBuffer, inputFrame, remappedFrame, mixedFrame
      ensures View() == After(start, f + 1) && Mixed(start, f, mixedFrame[..])
    {
      PopFrame();
      RemapFrameInto(inputFrame[..], remappedFrame);
      AddRemapped();
    }

    /** Adding the only source to a silent mix. */
    method AddRemapped()
      requires Valid()
      modifies mixedFrame
      ensures forall c :: 0 <= c < mixedFrame.Length ==> mixedFrame[c] == remappedFrame[c]
    {
      Fill(mixedFrame, 0.0);
      for c := 0 to mixedFrame.Length
        invariant forall i :: 0 <= i < mixedFrame.Length ==>
          mixedFrame[i] == if i < c then remappedFrame[i] else 0.0
      {
        mixedFrame[c] := mixedFrame[c] + remappedFrame[c];
      }
    }

    method RenderBusOutput(data: array<real>, gain: real)
      requires Valid() && data != inputFrame && data != remappedFrame && data != mixedFrame
      modifies this`sourceBuffer, inputFrame, remappedFrame, mixedFrame, data
      ensures mixedFrame.Length == 0 || inputFrame.Length == 0 ==>
        View() == old(View()) && forall i :: 0 <= i < data.Length ==> data[i] == 0.0
      ensures mixedFrame.Length > 0 && inputFrame.Length > 0 ==>
        var outputs, frames := mixedFrame.Length, Quotient(data.Length, mixedFrame.Length);
        && View() == After(old(View()), frames)
        && (forall i :: 0 <= i < data.Length ==>
              data[i] == if i < frames * outputs then RenderedAt(old(View()), gain, outputs, i) else 0.0)
    {
      var outputs := mixedFrame.Length;
      if outputs == 0 || inputFrame.Length == 0 {
        Fill(data, 0.0);
        return;
      }
      var frameCount := Quotient(data.Length, outputs);
      assert frameCount * outputs <= data.Length;
      RenderFrames(data, frameCount, gain);
      FillFrom(data, frameCount * outputs);
    }

    method RenderFrames(data: array<real>, frameCount: nat, gain: real)
      requires Valid() && data != inputFrame && data != remappedFrame && data != mixedFrame
      requires mixedFrame.Length > 0 && frameCount * mixedFrame.Length <= data.Length
      modifies this`sourceBuffer, inputFrame, remappedFrame, mixedFrame, data
      ensures View() == After(old(View()), frameCount)
      ensures RenderedUpTo(data[..], old(View()), gain, mixedFrame.Length, frameCount * mixedFrame.Length)
    {
      ghost var start := View();
      var outputs, offset := mixedFrame.Length, 0;
      for frameIndex := 0 to frameCount
        invariant View() == After(start, frameIndex)
        invariant offset == frameIndex * outputs
        invariant RenderedUpTo(data[..], start, gain, outputs, offset)
      {
        NextOffset(frameIndex, frameCount, outputs);
        RenderFrame(data, offset, gain, start, frameIndex);
        offset := offset + outputs;
      }
    }

    /** One output frame: mixed, then amplified and clipped into place. */
    method RenderFrame(data: array<real>, offset: nat, gain: real, ghost start: Source, ghost f: nat)
      requires Valid() && data != inputFrame && data != remappedFrame && data != mixedFrame
      requires mixedFrame.Length > 0 && offset == f * mixedFrame.Length && offset + mixedFrame.Length <= data.Length
      requires View() == After(start, f) && RenderedUpTo(data[..], start, gain, mixedFrame.Length, offset)
      modifies this`sourceBuffer, inputFrame, remappedFrame, mixedFrame, data
      ensures View() == After(start, f + 1)
      ensures RenderedUpTo(data[..], start, gain, mixedFrame.Length, offset + mixedFrame.Length)
    {
      ghost var before := data[..];
      MixFrame(start, f);
      WriteFrame(data, offset, gain);
      FrameWritten(before, data[..], start, gain, mixedFrame.Length, mixedFrame[..], f, offset);
    }

    method WriteFrame(data: array<real>, offset: nat, gain: real)
      requires data != mixedFrame && offset + mixedFrame.Length <= data.Length
      modifies data
      ensures Written(old(data[..]), data[..], mixedFrame[..], gain, offset)
    {
      for channel := 0 to mixedFrame.Length
        invariant forall i :: 0 <= i < data.Length ==>
          data[i] == if offset <= i < offset + channel then Amplified(gain, mixedFrame[i - offset]) else old(data[i])
      {
        data[offset + channel] := Clip(mixedFrame[channel] * gain);
      }
    }
  }

  lemma NextOffset(frameIndex: nat, frameCount: nat, outputs: nat)
    requires frameIndex < frameCount
    ensures (frameIndex + 1) * outputs == frameIndex * outputs + outputs <= frameCount * outputs
  {
    MulLe(frameIndex + 1, frameCount, outputs);
  }

  /** Frame f of a run, remapped to as many channels as it has samples. */
  ghost predicate Mixed(start: Source, f: nat, mixed: seq<real>) {
    forall c :: 0 <= c < |mixed| ==> mixed[c] == Remapped(After(start, f + 1).frame, |mixed|, c)
  }

  /** A mixed frame was written, amplified and clipped, at `offset`. */
  ghost predicate Written(before: seq<real>, after: seq<real>, mixed: seq<real>, gain: real, offset: nat) {
    && |before| == |after|
    && forall i :: 0 <= i < |after| ==>
      after[i] == if offset <= i < offset + |mixed| then Amplified(gain, mixed[i - offset]) else before[i]
  }

  ghost predicate RenderedUpTo(data: seq<real>, start: Source, gain: real, outputs: nat, upTo: nat)
    requires outputs > 0
  {
    forall i :: 0 <= i < |data| && i < upTo ==> data[i] == RenderedAt(start, gain, outputs, i)
  }

  /** Writing mixed frame number f, which begins at `offset`, extends the rendered prefix. */
  lemma FrameWritten(before: seq<real>, after: seq<real>, start: Source, gain: real, outputs: nat, mixed: seq<real>,
                     f: nat, offset: nat)
    requires outputs > 0 && |mixed| == outputs && offset == f * outputs
    requires RenderedUpTo(before, start, gain, outputs, offset)
    requires Mixed(start, f, mixed) && Written(before, after, mixed, gain, offset)
    ensures RenderedUpTo(after, start, gain, outputs, offset + outputs)
  {
    forall i | 0 <= i < |after| && i < offset + outputs
      ensures after[i] == RenderedAt(start, gain, outputs, i)
    {
      InFrame(i, outputs, f);
    }
  }

  method FillFrom(data: array<real>, from: nat)
    requires from <= data.Length
    modifies data
    ensures forall i :: 0 <= i < data.Length ==> data[i] == if i < from then old(data[i]) else 0.0
  {
    for i := from to data.Length
      invariant forall k :: 0 <= k < data.Length ==> data[k] == if from <= k < i then 0.0 else old(data[k])
    {
      data[i] := 0.0;
    }
  }

  // ---------------------------------------------------------------- across callbacks

  /** Callbacks compose: what one leaves is where the next goes on. */
  lemma {:induction false} AfterComposes(s: Source, j: nat, k: nat)
    ensures After(After(s, j), k) == After(s, j + k)
  {
    if k > 0 {
      AfterComposes(s, j, k - 1);
      var earlier := After(After(s, j), k - 1);
      assert earlier == After(s, j + k - 1);
      assert After(s, j + k) == NextSource(earlier) == After(After(s, j), k);
    }
  }

  /** x after k frames without input: x times 0.85 to the k. */
  function Faded(k: nat, x: real): real {
    if k == 0 then x else Decayed(Faded(k - 1, x))
  }

  function Power(b: real, k: nat): real {
    if k == 0 then 1.0 else b * Power(b, k - 1)
  }

  lemma {:induction false} FadedIsPower(k: nat, x: real)
    ensures Faded(k, x) == Power(0.85, k) * x
  {
    if k > 0 {
      FadedIsPower(k - 1, x);
      assert 0.85 * (Power(0.85, k - 1) * x) == (0.85 * Power(0.85, k - 1)) * x;
    }
  }

  /** x faded k times by 0.85, amplified and clipped. */
  function ClippedFade(gain: real, k: nat, x: real): (r: real)
    ensures k == 0 ==> r == Clip(gain * x)
  {
    Clip(gain * (Power(0.85, k) * x))
  }

  lemma AmplifiedFade(gain: real, k: nat, x: real)
    ensures Amplified(gain, Faded(k, x)) == ClippedFade(gain, k, x)
  {
    FadedIsPower(k, x);
  }

  /** Sample j * outputs + c of the interleaved output is output channel c of frame j. */
  lemma RenderedSample(s: Source, gain: real, outputs: nat, j: nat, c: nat)
    requires c < outputs
    ensures RenderedAt(s, gain, outputs, j * outputs + c) == Rendered(s, gain, outputs, j, c)
  {
    DivModUnique(j * outputs + c, outputs, j, c);
  }

  function FadedFrame(k: nat, frame: seq<real>): (r: seq<real>)
    ensures |r| == |frame|
  {
    seq(|frame|, c requires 0 <= c < |frame| => Faded(k, frame[c]))
  }

  /** Where frame j begins in a queue of w-channel frames. */
  function Start(j: nat, w: nat): nat {
    if j == 0 then 0 else Start(j - 1, w) + w
  }

  lemma {:induction false} StartIsProduct(j: nat, w: nat)
    ensures Start(j, w) == j * w
  {
    if j > 0 { StartIsProduct(j - 1, w); }
  }

  /** While whole frames are queued, frame j is the j-th of them. */
  lemma {:induction false} QueuedFrame(s: Source, j: nat)
    requires Start(j, |s.frame|) <= |s.queue|
    ensures After(s, j).queue == s.queue[Start(j, |s.frame|)..]
    ensures j > 0 ==> After(s, j).frame == s.queue[Start(j - 1, |s.frame|)..Start(j, |s.frame|)]
    decreases j
  {
    if j > 0 {
      QueuedFrame(s, j - 1);
      PoppedWhole(After(s, j - 1), s.queue, Start(j - 1, |s.frame|));
    }
  }

  lemma PoppedWhole(s: Source, all: seq<real>, at: nat)
    requires at + |s.frame| <= |all| && s.queue == all[at..]
    ensures NextSource(s).frame == all[at..at + |s.frame|] && NextSource(s).queue == all[at + |s.frame|..]
  {
  }

  lemma {:induction false} DryFrames(s: Source, k: nat)
    requires s.queue == []
    ensures After(s, k).queue == [] && After(s, k).frame == FadedFrame(k, s.frame)
  {
    if k > 0 { DryFrames(s, k - 1); }
  }

  /** A faded frame remaps to the faded remap. */
  lemma {:induction false} RemapFades(k: nat, frame: seq<real>, outputs: nat, c: nat)
    requires c < outputs
    ensures Remapped(FadedFrame(k, frame), outputs, c) == Faded(k, Remapped(frame, outputs, c))
  {
    if k > 0 {
      RemapFades(k - 1, frame, outputs, c);
      RemapScales(0.85, FadedFrame(k - 1, frame), outputs, c);
      assert FadedFrame(k, frame) == Scale(0.85, FadedFrame(k - 1, frame));
    } else {
      assert FadedFrame(0, frame) == frame;
    }
  }

  /** A source that starts a callback dry keeps fading from where the last one stopped. */
  lemma DryCallback(s: Source, gain: real, outputs: nat, j: nat, c: nat)
    requires s.queue == [] && c < outputs
    ensures Rendered(s, gain, outputs, j, c) == ClippedFade(gain, j + 1, Remapped(s.frame, outputs, c))
  {
    AmplifiedFade(gain, j + 1, Remapped(s.frame, outputs, c));
    DryFrames(s, j + 1);
    RemapFades(j + 1, s.frame, outputs, c);
  }

  /** With n whole frames queued, output frame j < n is the clamped, amplified remap of queued
      frame j. */
  lemma QueuedFramesRendered(s: Source, gain: real, outputs: nat, n: nat, j: nat, c: nat)
    requires |s.frame| > 0 && |s.queue| == n * |s.frame| && j < n && c < outputs
    ensures j * |s.frame| + |s.frame| <= |s.queue|
    ensures Rendered(s, gain, outputs, j, c)
         == ClippedFade(gain, 0, Remapped(s.queue[j * |s.frame|..j * |s.frame| + |s.frame|], outputs, c))
  {
    NextOffset(j, n, |s.frame|);
    StartIsProduct(j, |s.frame|);
    QueuedFrame(s, j + 1);
    AmplifiedFade(gain, 0, Remapped(s.queue[j * |s.frame|..j * |s.frame| + |s.frame|], outputs, c));
  }

  /** After n whole frames the queue is dry and the scratch frame holds the last of them. */
  lemma AllPlayed(s: Source, n: nat)
    requires |s.frame| > 0 && n > 0 && |s.queue| == n * |s.frame|
    ensures |s.queue| >= |s.frame|
    ensures After(s, n).queue == [] && After(s, n).frame == s.queue[|s.queue| - |s.frame|..]
  {
    StartIsProduct(n, |s.frame|);
    QueuedFrame(s, n);
  }

  /** From then on the k-th dry frame is that of the last queued one times 0.85 to the k. */
  lemma DryFramesRendered(s: Source, gain: real, outputs: nat, n: nat, k: nat, c: nat)
    requires |s.frame| > 0 && n > 0 && |s.queue| == n * |s.frame| && k > 0 && c < outputs
    ensures |s.queue| >= |s.frame|
    ensures Rendered(s, gain, outputs, n + (k - 1), c)
         == ClippedFade(gain, k, Remapped(s.queue[|s.queue| - |s.frame|..], outputs, c))
  {
    AllPlayed(s, n);
    var last, wet := s.queue[|s.queue| - |s.frame|..], After(s, n);
    AfterComposes(s, n, k);
    DryFrames(wet, k);
    RemapFades(k, last, outputs, c);
    assert After(s, n + k).frame == FadedFrame(k, last);
    AmplifiedFade(gain, k, Remapped(last, outputs, c));
  }
}
