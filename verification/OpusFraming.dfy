/** The framing around the Opus codec (crates/audio-core/src/opus.rs): a frame is split into
    stereo sub-streams with an optional mono one, each is encoded behind a two-byte length, and
    the decoder puts the channels back. The codec itself is a black box with its own state. */
module OpusFraming {
  import opened Interleaving
  import opened Wrappers

  const OPUS_FRAME_SAMPLES: nat := 480
  const MAX_OPUS_PACKET_BYTES: nat := 1_500

  type Byte = b: nat | b < 256

  datatype Step<+S, +T> = Failed(next: S) | Done(next: S, value: T)

  /** One encoder and one decoder step, given the state and the sub-stream width. */
  datatype Codec<!E, !D> = Codec(
    encode: (E, nat, seq<real>) -> Step<E, seq<Byte>>,
    decode: (D, nat, seq<Byte>) -> Step<D, seq<real>>)

  /** The encoder fills a buffer of 1500 bytes, the decoder one of 480 frames. */
  ghost predicate Bounded<E(!new), D(!new)>(codec: Codec<E, D>) {
    && (forall e, w, x :: codec.encode(e, w, x).Done? ==> |codec.encode(e, w, x).value| <= MAX_OPUS_PACKET_BYTES)
    && (forall d, w, b :: w > 0 && codec.decode(d, w, b).Done? ==>
          |codec.decode(d, w, b).value| <= OPUS_FRAME_SAMPLES * w && |codec.decode(d, w, b).value| % w == 0)
  }

  /** A lossless codec: a decoder in step with the encoder returns the encoder's input. */
  ghost predicate Lossless<E(!new), D(!new)>(codec: Codec<E, D>, inStep: (E, D) -> bool) {
    forall e, d, w, x :: inStep(e, d) && |x| == OPUS_FRAME_SAMPLES * w && codec.encode(e, w, x).Done? ==>
      var sent := codec.encode(e, w, x);
      var got := codec.decode(d, w, sent.value);
      got.Done? && got.value == x && inStep(sent.next, got.next)
  }

  // ---------------------------------------------------------------- sub-streams

  /** Pairs, then a single channel if one is left. */
  function Widths(channels: nat): seq<nat> {
    if channels == 0 then [] else if channels == 1 then [1] else [2] + Widths(channels - 2)
  }

  function Sum(widths: seq<nat>): nat {
    if widths == [] then 0 else widths[0] + Sum(widths[1..])
  }

  ghost predicate Partition(widths: seq<nat>, channels: nat) {
    Sum(widths) == channels && forall s :: 0 <= s < |widths| ==> 0 < widths[s] <= 2
  }

  /** The widths partition the channels, and only the last one can be mono. */
  lemma {:induction false} WidthsPartition(channels: nat)
    ensures Partition(Widths(channels), channels) && |Widths(channels)| == (channels + 1) / 2
    ensures forall s :: 0 <= s < |Widths(channels)| ==>
      Widths(channels)[s] == if channels % 2 == 1 && s == |Widths(channels)| - 1 then 1 else 2
  {
    if channels >= 2 {
      WidthsPartition(channels - 2);
      assert Widths(channels)[1..] == Widths(channels - 2);
    }
  }

  /** How both constructors compute them. */
  method SubstreamChannels(channelCount: nat) returns (r: Result<seq<nat>>)
    ensures r.Ok? <==> 1 <= channelCount <= 64
    ensures r.Ok? ==> r.value == Widths(channelCount)
  {
    if channelCount == 0 || channelCount > 64 {
      return Err("Opus channel count must be between 1 and 64");
    }
    if channelCount <= 2 {
      assert Widths(2) == [2] + Widths(0);
      return Ok([channelCount]);
    }
    var substreams := PairUp(channelCount);
    return Ok(substreams);
  }

  method PairUp(channelCount: nat) returns (substreams: seq<nat>)
    ensures substreams == Widths(channelCount)
  {
    substreams := [];
    var remaining := channelCount;
    while remaining > 0
      invariant substreams + Widths(remaining) == Widths(channelCount)
    {
      if remaining >= 2 {
        assert substreams + ([2] + Widths(remaining - 2)) == (substreams + [2]) + Widths(remaining - 2);
        substreams := substreams + [2];
        remaining := remaining - 2;
      } else {
        substreams := substreams + [1];
        remaining := remaining - 1;
      }
    }
  }

  /** Channels offset .. offset + width of an interleaved frame, interleaved by themselves. */
  function Substream(frame: seq<real>, channels: nat, offset: nat, width: nat): (r: seq<real>)
    requires 0 < width && offset + width <= channels && |frame| == OPUS_FRAME_SAMPLES * channels
    ensures |r| == OPUS_FRAME_SAMPLES * width
  {
    seq(OPUS_FRAME_SAMPLES * width, j requires 0 <= j < OPUS_FRAME_SAMPLES * width =>
      SubstreamSample(frame, channels, offset, width, j / width, j % width))
  }

  function SubstreamSample(frame: seq<real>, channels: nat, offset: nat, width: nat, f: int, c: int): real
    requires |frame| == OPUS_FRAME_SAMPLES * channels && offset + width <= channels
  {
    if 0 <= f < OPUS_FRAME_SAMPLES && 0 <= c < width then
      FrameIndex(channels, f, offset + c);
      frame[f * channels + (offset + c)]
    else 0.0
  }

  lemma FrameIndex(channels: nat, f: nat, c: nat)
    requires f < OPUS_FRAME_SAMPLES && c < channels
    ensures 0 <= f * channels + c < OPUS_FRAME_SAMPLES * channels
    ensures (f * channels + c) / channels == f && (f * channels + c) % channels == c
  {
    MulLe(f + 1, OPUS_FRAME_SAMPLES, channels);
    assert (f + 1) * channels == f * channels + channels;
    DivModUnique(f * channels + c, channels, f, c);
  }

  /** Writing a decoded sub-stream over its channels; frames the decoder did not return keep
      what was there. */
  function Overlay(out: seq<real>, sub: seq<real>, channels: nat, offset: nat, width: nat): (r: seq<real>)
    requires channels > 0 && width > 0
    ensures |r| == |out|
  {
    seq(|out|, i requires 0 <= i < |out| => OverlaySample(out, sub, channels, offset, width, i))
  }

  function OverlaySample(out: seq<real>, sub: seq<real>, channels: nat, offset: nat, width: nat, i: nat): real
    requires channels > 0 && width > 0 && i < |out|
  {
    var f, c := Quotient(i, channels), i % channels;
    if offset <= c < offset + width && f < Quotient(|sub|, width) then
      IndexInBounds(|sub|, width, f, c - offset);
      sub[f * width + (c - offset)]
    else out[i]
  }

  // ---------------------------------------------------------------- specification of the wire format

  function Prefixed(payload: seq<Byte>): seq<Byte> {
    var len := |payload| % 0x1_0000;
    [len / 256, len % 256] + payload
  }

  function BigEndian(high: int, low: int): int {
    high * 256 + low
  }

  /** Encoding sub-streams s and on: the advanced encoder states, and the bytes unless one failed. */
  function EncodeFrom<E, D>(codec: Codec<E, D>, encoders: seq<E>, widths: seq<nat>, frame: seq<real>,
                            channels: nat, s: nat, offset: nat): (seq<E>, Option<seq<Byte>>)
    requires |encoders| == |widths| && s <= |widths| && |frame| == OPUS_FRAME_SAMPLES * channels
    requires (forall k :: 0 <= k < |widths| ==> widths[k] > 0) && offset + Sum(widths[s..]) <= channels
    decreases |widths| - s
  {
    if s == |widths| then (encoders, Some([]))
    else
      assert widths[s..][1..] == widths[s + 1..];
      match codec.encode(encoders[s], widths[s], Substream(frame, channels, offset, widths[s]))
      case Failed(next) => (encoders[s := next], None)
      case Done(next, payload) =>
        var (after, rest) := EncodeFrom(codec, encoders[s := next], widths, frame, channels, s + 1, offset + widths[s]);
        (after, if rest.None? then None else Some(Prefixed(payload) + rest.value))
  }

  /** Decoding sub-streams s and on from the rest of a packet: the advanced decoder states, the
      output buffer as far as it was written, and whether all of them were decoded. */
  function DecodeFrom<E, D>(codec: Codec<E, D>, decoders: seq<D>, widths: seq<nat>, packet: seq<Byte>,
                            channels: nat, s: nat, offset: nat, out: seq<real>): (seq<D>, seq<real>, bool)
    requires |decoders| == |widths| && s <= |widths| && channels > 0
    requires forall k :: 0 <= k < |widths| ==> widths[k] > 0
    decreases |widths| - s
  {
    if s == |widths| then (decoders, out, true)
    else if |packet| < 2 || 2 + BigEndian(packet[0], packet[1]) > |packet| then (decoders, out, false)
    else
      var len := BigEndian(packet[0], packet[1]);
      match codec.decode(decoders[s], widths[s], packet[2..2 + len])
      case Failed(next) => (decoders[s := next], out, false)
      case Done(next, sub) =>
        DecodeFrom(codec, decoders[s := next], widths, packet[2 + len..], channels, s + 1, offset + widths[s],
                   Overlay(out, sub, channels, offset, widths[s]))
  }

  ghost predicate InStep<E, D>(inStep: (E, D) -> bool, encoders: seq<E>, decoders: seq<D>) {
    |encoders| == |decoders| && forall k :: 0 <= k < |encoders| ==> inStep(encoders[k], decoders[k])
  }

  /** Sample f of channel c of a sub-stream is sample f of channel offset + c of the frame. */
  lemma SubstreamAt(frame: seq<real>, channels: nat, offset: nat, width: nat, f: nat, c: nat)
    requires c < width && offset + width <= channels && |frame| == OPUS_FRAME_SAMPLES * channels
    requires f < OPUS_FRAME_SAMPLES
    ensures f * width + c < OPUS_FRAME_SAMPLES * width
    ensures f * channels + (offset + c) < OPUS_FRAME_SAMPLES * channels
    ensures Substream(frame, channels, offset, width)[f * width + c] == frame[f * channels + (offset + c)]
  {
    FrameIndex(width, f, c);
    FrameIndex(channels, f, offset + c);
  }

  /** Overlaying the sub-stream cut from a frame restores exactly its channels. */
  lemma OverlayRestores(out: seq<real>, frame: seq<real>, channels: nat, offset: nat, width: nat, i: nat)
    requires 0 < width && offset + width <= channels && |frame| == |out| == OPUS_FRAME_SAMPLES * channels
    requires i < |out|
    ensures Overlay(out, Substream(frame, channels, offset, width), channels, offset, width)[i]
         == if offset <= i % channels < offset + width then frame[i] else out[i]
  {
    MulDiv(OPUS_FRAME_SAMPLES, channels);
    MulDiv(OPUS_FRAME_SAMPLES, width);
    FrameOfIndex(|out|, channels, i);
    if offset <= i % channels < offset + width {
      SubstreamAt(frame, channels, offset, width, Quotient(i, channels), i % channels - offset);
    }
  }

  /** The decoder reads one sub-stream's payload and goes on with the rest. */
  lemma DecodeOne<E(!new), D(!new)>(
    codec: Codec<E, D>, decoders: seq<D>, widths: seq<nat>, payload: seq<Byte>, rest: seq<Byte>,
    channels: nat, s: nat, offset: nat, out: seq<real>)
    requires |decoders| == |widths| && s < |widths| && channels > 0
    requires forall k :: 0 <= k < |widths| ==> widths[k] > 0
    requires |payload| <= MAX_OPUS_PACKET_BYTES
    ensures var got := codec.decode(decoders[s], widths[s], payload);
      DecodeFrom(codec, decoders, widths, Prefixed(payload) + rest, channels, s, offset, out)
      == if got.Failed? then (decoders[s := got.next], out, false)
         else DecodeFrom(codec, decoders[s := got.next], widths, rest, channels, s + 1, offset + widths[s],
                         Overlay(out, got.value, channels, offset, widths[s]))
  {
    var packet := Prefixed(payload) + rest;
    assert BigEndian(packet[0], packet[1]) == |payload|;
    assert packet[2..2 + |payload|] == payload && packet[2 + |payload|..] == rest;
  }

  /** On the wire a sub-stream is its payload's length, high byte first, the payload, and then the
      other sub-streams. */
  lemma SubstreamOnWire<E(!new), D(!new)>(codec: Codec<E, D>, encoders: seq<E>, widths: seq<nat>, frame: seq<real>,
                                          channels: nat, s: nat, offset: nat)
    requires Bounded(codec) && |encoders| == |widths| && s < |widths| && |frame| == OPUS_FRAME_SAMPLES * channels
    requires (forall k :: 0 <= k < |widths| ==> widths[k] > 0) && offset + Sum(widths[s..]) <= channels
    requires EncodeFrom(codec, encoders, widths, frame, channels, s, offset).1.Some?
    ensures offset + widths[s] <= channels && widths[s..][1..] == widths[s + 1..]
    ensures var sent := codec.encode(encoders[s], widths[s], Substream(frame, channels, offset, widths[s]));
      var bytes := EncodeFrom(codec, encoders, widths, frame, channels, s, offset).1.value;
      && sent.Done? && 2 + |sent.value| <= |bytes|
      && bytes[0] as int * 256 + bytes[1] as int == |sent.value| && bytes[2..2 + |sent.value|] == sent.value
      && EncodeFrom(codec, encoders[s := sent.next], widths, frame, channels, s + 1, offset + widths[s]).1
           == Some(bytes[2 + |sent.value|..])
  {
    assert widths[s..][1..] == widths[s + 1..];
  }

  /** Writing a sub-stream puts its sample f of channel c at frame f of channel offset + c, and leaves
      every other channel and every later frame alone. */
  lemma OverlayAt(out: seq<real>, sub: seq<real>, channels: nat, offset: nat, width: nat, f: nat, c: nat, i: nat)
    requires 0 < width && offset + width <= channels && c < channels && i == f * channels + c && i < |out|
    ensures offset <= c < offset + width && f < Quotient(|sub|, width) ==>
      f * width + (c - offset) < |sub|
      && Overlay(out, sub, channels, offset, width)[i] == sub[f * width + (c - offset)]
    ensures !(offset <= c < offset + width && f < Quotient(|sub|, width)) ==>
      Overlay(out, sub, channels, offset, width)[i] == out[i]
  {
    DivModUnique(i, channels, f, c);
    if offset <= c < offset + width && f < Quotient(|sub|, width) { IndexInBounds(|sub|, width, f, c - offset); }
  }

  /** Sub-streams s and on through the codec alone: each is encoded, decoded and written over its
      channels, with no bytes in between. */
  function CodecFrom<E, D>(codec: Codec<E, D>, encoders: seq<E>, decoders: seq<D>, widths: seq<nat>, frame: seq<real>,
                           channels: nat, s: nat, offset: nat, out: seq<real>): (seq<D>, seq<real>, bool)
    requires |encoders| == |decoders| == |widths| && s <= |widths|
    requires channels > 0 && |frame| == OPUS_FRAME_SAMPLES * channels
    requires (forall k :: 0 <= k < |widths| ==> widths[k] > 0) && offset + Sum(widths[s..]) <= channels
    decreases |widths| - s
  {
    if s == |widths| then (decoders, out, true)
    else
      assert widths[s..][1..] == widths[s + 1..];
      var w := widths[s];
      match codec.encode(encoders[s], w, Substream(frame, channels, offset, w))
      case Failed(_) => (decoders, out, false)
      case Done(encoder, payload) =>
        match codec.decode(decoders[s], w, payload)
        case Failed(next) => (decoders[s := next], out, false)
        case Done(next, sub) =>
          CodecFrom(codec, encoders[s := encoder], decoders[s := next], widths, frame, channels, s + 1, offset + w,
                    Overlay(out, sub, channels, offset, w))
  }

  /** The framing is transparent: for every codec, lossy or not, decoding the packet of a frame
      has the effect of passing each of its sub-streams through the codec. */
  lemma {:induction false} FramingTransparent<E(!new), D(!new)>(
    codec: Codec<E, D>, encoders: seq<E>, decoders: seq<D>, widths: seq<nat>, frame: seq<real>,
    channels: nat, s: nat, offset: nat, out: seq<real>)
    requires Bounded(codec) && |encoders| == |decoders| == |widths| && s <= |widths|
    requires channels > 0 && |frame| == OPUS_FRAME_SAMPLES * channels
    requires (forall k :: 0 <= k < |widths| ==> widths[k] > 0) && offset + Sum(widths[s..]) <= channels
    requires EncodeFrom(codec, encoders, widths, frame, channels, s, offset).1.Some?
    ensures var bytes := EncodeFrom(codec, encoders, widths, frame, channels, s, offset).1.value;
      DecodeFrom(codec, decoders, widths, bytes, channels, s, offset, out)
      == CodecFrom(codec, encoders, decoders, widths, frame, channels, s, offset, out)
    decreases |widths| - s
  {
    if s < |widths| {
      assert widths[s..][1..] == widths[s + 1..];
      var w := widths[s];
      var sent := codec.encode(encoders[s], w, Substream(frame, channels, offset, w));
      var rest := EncodeFrom(codec, encoders[s := sent.next], widths, frame, channels, s + 1, offset + w).1;
      DecodeOne(codec, decoders, widths, sent.value, rest.value, channels, s, offset, out);
      var got := codec.decode(decoders[s], w, sent.value);
      if got.Done? {
        FramingTransparent(codec, encoders[s := sent.next], decoders[s := got.next], widths, frame, channels,
                           s + 1, offset + w, Overlay(out, got.value, channels, offset, w));
      }
    }
  }

  /** What the frame contributes from channel `offset` on, over what was there. */
  ghost predicate Restored(out': seq<real>, out: seq<real>, frame: seq<real>, channels: nat, offset: nat) {
    && channels > 0 && |out'| == |out| == |frame|
    && forall i :: 0 <= i < |out| ==> out'[i] == if i % channels >= offset then frame[i] else out[i]
  }

  lemma RestoredStep(out': seq<real>, out: seq<real>, frame: seq<real>, channels: nat, offset: nat, width: nat)
    requires 0 < width && offset + width <= channels && |frame| == |out| == OPUS_FRAME_SAMPLES * channels
    requires Restored(out', Overlay(out, Substream(frame, channels, offset, width), channels, offset, width),
                      frame, channels, offset + width)
    ensures Restored(out', out, frame, channels, offset)
  {
    forall i | 0 <= i < |out| ensures out'[i] == if i % channels >= offset then frame[i] else out[i] {
      OverlayRestores(out, frame, channels, offset, width, i);
    }
  }

  /** A lossless codec in step returns the frame's own samples on the remaining channels. */
  lemma {:induction false} LosslessRestores<E(!new), D(!new)>(
    codec: Codec<E, D>, inStep: (E, D) -> bool, encoders: seq<E>, decoders: seq<D>, widths: seq<nat>,
    frame: seq<real>, channels: nat, s: nat, offset: nat, out: seq<real>)
    requires Lossless(codec, inStep) && InStep(inStep, encoders, decoders)
    requires |encoders| == |widths| && s <= |widths| && channels > 0
    requires forall k :: 0 <= k < |widths| ==> widths[k] > 0
    requires offset + Sum(widths[s..]) == channels && |frame| == |out| == OPUS_FRAME_SAMPLES * channels
    requires EncodeFrom(codec, encoders, widths, frame, channels, s, offset).1.Some?
    ensures var encoders' := EncodeFrom(codec, encoders, widths, frame, channels, s, offset).0;
      var (decoders', out', ok) := CodecFrom(codec, encoders, decoders, widths, frame, channels, s, offset, out);
      ok && InStep(inStep, encoders', decoders') && Restored(out', out, frame, channels, offset)
    decreases |widths| - s
  {
    if s < |widths| {
      assert widths[s..][1..] == widths[s + 1..];
      var w, sub := widths[s], Substream(frame, channels, offset, widths[s]);
      assert inStep(encoders[s], decoders[s]);
      var sent := codec.encode(encoders[s], w, sub);
      var got := codec.decode(decoders[s], w, sent.value);
      assert got.Done? && got.value == sub && inStep(sent.next, got.next);
      var written := Overlay(out, sub, channels, offset, w);
      LosslessRestores(codec, inStep, encoders[s := sent.next], decoders[s := got.next], widths, frame, channels,
                       s + 1, offset + w, written);
      var (_, out', _) := CodecFrom(codec, encoders[s := sent.next], decoders[s := got.next], widths, frame, channels,
                                    s + 1, offset + w, written);
      RestoredStep(out', out, frame, channels, offset, w);
    } else {
      assert Sum(widths[s..]) == 0;
      forall i | 0 <= i < |out| ensures i % channels < offset { }
    }
  }

  /** What is encoded from sub-stream s on decodes to the frame's own samples on the remaining
      channels, whatever the buffer held before. */
  lemma FramingRoundTrip<E(!new), D(!new)>(
    codec: Codec<E, D>, inStep: (E, D) -> bool, encoders: seq<E>, decoders: seq<D>, widths: seq<nat>,
    frame: seq<real>, channels: nat, s: nat, offset: nat, out: seq<real>)
    requires Bounded(codec) && Lossless(codec, inStep) && InStep(inStep, encoders, decoders)
    requires |encoders| == |widths| && s <= |widths| && channels > 0
    requires forall k :: 0 <= k < |widths| ==> widths[k] > 0
    requires offset + Sum(widths[s..]) == channels && |frame| == |out| == OPUS_FRAME_SAMPLES * channels
    requires EncodeFrom(codec, encoders, widths, frame, channels, s, offset).1.Some?
    ensures var (encoders', bytes) := EncodeFrom(codec, encoders, widths, frame, channels, s, offset);
      var (decoders', out', ok) := DecodeFrom(codec, decoders, widths, bytes.value, channels, s, offset, out);
      ok && InStep(inStep, encoders', decoders') && Restored(out', out, frame, channels, offset)
  {
    FramingTransparent(codec, encoders, decoders, widths, frame, channels, s, offset, out);
    LosslessRestores(codec, inStep, encoders, decoders, widths, frame, channels, s, offset, out);
  }

  /** `decode_packet` inverts a successful encoding, from any earlier contents of its buffer. */
  lemma RoundTrip<E(!new), D(!new)>(codec: Codec<E, D>, inStep: (E, D) -> bool, encoders: seq<E>, decoders: seq<D>,
                                    widths: seq<nat>, channels: nat, frame: seq<real>, out: seq<real>)
    requires Bounded(codec) && Lossless(codec, inStep) && InStep(inStep, encoders, decoders)
    requires channels > 0 && |encoders| == |widths| && Partition(widths, channels)
    requires |frame| == |out| == OPUS_FRAME_SAMPLES * channels
    requires EncodeFrom(codec, encoders, widths, frame, channels, 0, 0).1.Some?
    ensures var (encoders', bytes) := EncodeFrom(codec, encoders, widths, frame, channels, 0, 0);
      var (decoders', out', ok) := DecodeFrom(codec, decoders, widths, bytes.value, channels, 0, 0, out);
      ok && out' == frame && InStep(inStep, encoders', decoders')
  {
    FramingRoundTrip(codec, inStep, encoders, decoders, widths, frame, channels, 0, 0, out);
    var (_, bytes) := EncodeFrom(codec, encoders, widths, frame, channels, 0, 0);
    var (_, out', _) := DecodeFrom(codec, decoders, widths, bytes.value, channels, 0, 0, out);
    RestoredAll(out', out, frame, channels);
  }

  lemma RestoredAll(out': seq<real>, out: seq<real>, frame: seq<real>, channels: nat)
    requires Restored(out', out, frame, channels, 0)
    ensures out' == frame
  {
  }

  // ---------------------------------------------------------------- the encoder

  class OpusChannelEncoder<E(!new), D(!new)> {
    const codec: Codec<E, D>
    const channels: nat
    const substreamChannels: seq<nat>
    var encoders: seq<E>
    var pending: seq<real>

    /** Every sample ever pushed, and the frames encoded from them. */
    ghost var pushed: seq<real>
    ghost var encoded: seq<real>

    /** Nothing pushed is lost, repeated or reordered, failed encodings included. */
    ghost predicate Valid()
      reads this
    {
      && channels > 0 && substreamChannels == Widths(channels) && Partition(substreamChannels, channels)
      && |encoders| == |substreamChannels|
      && encoded + pending == pushed
    }

    constructor (codec: Codec<E, D>, channels: nat, encoders: seq<E>)
      requires channels > 0 && |encoders| == |Widths(channels)|
      ensures Valid() && pending == [] && pushed == [] && this.encoders == encoders
      ensures this.channels == channels && this.codec == codec
    {
      this.codec, this.channels, this.encoders := codec, channels, encoders;
      substreamChannels := Widths(channels);
      WidthsPartition(channels);
      pending, pushed, encoded := [], [], [];
    }

    ghost function FrameSamples(): nat {
      OPUS_FRAME_SAMPLES * channels
    }

    method PushSamples(samples: seq<real>) returns (r: Result<Option<seq<Byte>>>)
      requires Valid()
      modifies this
      ensures Valid() && pushed == old(pushed) + samples
      ensures var held := old(pending) + samples;
        if |held| < FrameSamples() then
          r == Ok(None) && pending == held && encoders == old(encoders)
        else
          var (after, packet) :=
            EncodeFrom(codec, old(encoders), substreamChannels, held[..FrameSamples()], channels, 0, 0);
          && encoders == after
          && (packet.Some? ==> r == Ok(packet) && pending == held[FrameSamples()..]
                               && encoded == old(encoded) + held[..FrameSamples()])
          && (packet.None? ==> r.Err? && pending == held && encoded == old(encoded))
      ensures r.Ok? ==> (|pending| < FrameSamples() <==> |old(pending)| + |samples| < 2 * FrameSamples())
    {
      pending := pending + samples;
      pushed := pushed + samples;
      assert encoded + pending == pushed;
      var frameSamples := OPUS_FRAME_SAMPLES * channels;
      if |pending| < frameSamples {
        return Ok(None);
      }
      var frame := pending[..frameSamples];
      var packet := EncodeFrame(frame);
      if packet.None? {
        return Err("Opus encode error on a sub-stream");
      }
      encoded := encoded + frame;
      pending := pending[frameSamples..];
      assert encoded + pending == pushed;
      return Ok(packet);
    }

    /** The loop over sub-streams; a failure leaves the states of the earlier ones advanced. */
    method EncodeFrame(frame: seq<real>) returns (packet: Option<seq<Byte>>)
      requires channels > 0 && Partition(substreamChannels, channels) && |encoders| == |substreamChannels|
      requires |frame| == OPUS_FRAME_SAMPLES * channels
      modifies this`encoders
      ensures |encoders| == |old(encoders)|
      ensures (encoders, packet) == EncodeFrom(codec, old(encoders), substreamChannels, frame, channels, 0, 0)
    {
      var bytes: seq<Byte> := [];
      var offset: nat := 0;
      assert substreamChannels[0..] == substreamChannels;
      ghost var goal := EncodeFrom(codec, encoders, substreamChannels, frame, channels, 0, 0);
      assert goal.1.Some? ==> [] + goal.1.value == goal.1.value;
      for s := 0 to |substreamChannels|
        invariant |encoders| == |substreamChannels|
        invariant offset + Sum(substreamChannels[s..]) == channels
        invariant var (after, rest) := EncodeFrom(codec, encoders, substreamChannels, frame, channels, s, offset);
          goal == (after, if rest.None? then None else Some(bytes + rest.value))
      {
        assert substreamChannels[s..][1..] == substreamChannels[s + 1..];
        var width := substreamChannels[s];
        var buffer := CutSubstream(frame, offset, width);
        var step := codec.encode(encoders[s], width, buffer);
        encoders := encoders[s := step.next];
        if step.Failed? {
          return None;
        }
        ghost var rest :=
          EncodeFrom(codec, encoders, substreamChannels, frame, channels, s + 1, offset + width).1;
        assert rest.Some? ==>
          bytes + (Prefixed(step.value) + rest.value) == (bytes + Prefixed(step.value)) + rest.value;
        bytes := bytes + Prefixed(step.value);
        offset := offset + width;
      }
      assert bytes + [] == bytes;
      return Some(bytes);
    }

    /** The inner loop: one sub-stream's samples, frame by frame. */
    method CutSubstream(frame: seq<real>, offset: nat, width: nat) returns (buffer: seq<real>)
      requires 0 < width <= 2 && offset + width <= channels && |frame| == OPUS_FRAME_SAMPLES * channels
      ensures buffer == Substream(frame, channels, offset, width)
    {
      buffer := [];
      ghost var sub := Substream(frame, channels, offset, width);
      for f := 0 to OPUS_FRAME_SAMPLES
        invariant |buffer| == f * width && buffer == sub[..f * width]
      {
        FrameIndex(channels, f, offset);
        DivModUnique(f * width, width, f, 0);
        var base := f * channels + offset;
        buffer := buffer + [frame[base]];
        if width == 2 {
          FrameIndex(channels, f, offset + 1);
          DivModUnique(f * width + 1, width, f, 1);
          buffer := buffer + [frame[base + 1]];
        }
      }
    }
  }

  // ---------------------------------------------------------------- the decoder

  class OpusChannelDecoder<E(!new), D(!new)> {
    const codec: Codec<E, D>
    const channels: nat
    const substreamChannels: seq<nat>
    var decoders: seq<D>
    const outputBuf: array<real>

    ghost predicate Valid()
      reads this
    {
      && channels > 0 && substreamChannels == Widths(channels) && Partition(substreamChannels, channels)
      && |decoders| == |substreamChannels|
      && outputBuf.Length == OPUS_FRAME_SAMPLES * channels && Bounded(codec)
    }

    constructor (codec: Codec<E, D>, channels: nat, decoders: seq<D>)
      requires channels > 0 && |decoders| == |Widths(channels)| && Bounded(codec)
      ensures Valid() && fresh(outputBuf) && this.decoders == decoders
      ensures this.channels == channels && this.codec == codec
    {
      this.codec, this.channels, this.decoders := codec, channels, decoders;
      substreamChannels := Widths(channels);
      WidthsPartition(channels);
      outputBuf := new real[OPUS_FRAME_SAMPLES * channels](_ => 0.0);
    }

    method DecodePacket(packet: seq<Byte>) returns (r: Result<seq<real>>)
      requires Valid()
      modifies this`decoders, outputBuf
      ensures Valid()
      ensures var (after, out, ok) :=
          DecodeFrom(codec, old(decoders), substreamChannels, packet, channels, 0, 0, old(outputBuf[..]));
        && decoders == after && outputBuf[..] == out
        && (r.Ok? <==> ok) && (ok ==> r.value == out)
    {
      var position: nat := 0;
      var offset: nat := 0;
      ghost var goal := DecodeFrom(codec, decoders, substreamChannels, packet, channels, 0, 0, outputBuf[..]);
      assert packet[0..] == packet;
      for s := 0 to |substreamChannels|
        invariant Valid() && position <= |packet|
        invariant offset + Sum(substreamChannels[s..]) == channels
        invariant goal == DecodeFrom(codec, decoders, substreamChannels, packet[position..], channels, s, offset,
                                     outputBuf[..])
      {
        assert substreamChannels[s..][1..] == substreamChannels[s + 1..];
        ghost var at := position;
        var width := substreamChannels[s];
        if position + 2 > |packet| {
          return Err("Opus packet truncated: missing 2-byte length prefix");
        }
        var declaredLen: nat := BigEndian(packet[position], packet[position + 1]);
        position := position + 2;
        if position + declaredLen > |packet| {
          return Err("Opus packet truncated on a sub-stream");
        }
        var opusData := packet[position..position + declaredLen];
        position := position + declaredLen;
        RestOfPacket(packet, at, declaredLen);
        var step := codec.decode(decoders[s], width, opusData);
        decoders := decoders[s := step.next];
        if step.Failed? {
          return Err("Opus decode error on a sub-stream");
        }
        WriteSubstream(step.value, offset, width);
        offset := offset + width;
      }
      return Ok(outputBuf[..]);
    }

    /** The inner loop: writes one sub-stream's channels in place. */
    method WriteSubstream(sub: seq<real>, offset: nat, width: nat)
      requires channels > 0 && outputBuf.Length == OPUS_FRAME_SAMPLES * channels
      requires 0 < width <= 2 && offset + width <= channels
      requires |sub| % width == 0 && |sub| <= OPUS_FRAME_SAMPLES * width
      modifies outputBuf
      ensures outputBuf[..] == Overlay(old(outputBuf[..]), sub, channels, offset, width)
    {
      var frames := Quotient(|sub|, width);
      assert |sub| == frames * width;
      DivLe(OPUS_FRAME_SAMPLES + 1, |sub|, width);
      for f := 0 to frames
        invariant forall i :: 0 <= i < outputBuf.Length ==>
          outputBuf[i] == if Quotient(i, channels) < f
                          then OverlaySample(old(outputBuf[..]), sub, channels, offset, width, i)
                          else old(outputBuf[i])
      {
        WriteFrame(sub, frames, f, offset, width);
      }
      forall i | 0 <= i < outputBuf.Length
        ensures outputBuf[i] == OverlaySample(old(outputBuf[..]), sub, channels, offset, width, i)
      {
      }
    }

    method WriteFrame(sub: seq<real>, ghost frames: nat, f: nat, offset: nat, width: nat)
      requires channels > 0 && outputBuf.Length == OPUS_FRAME_SAMPLES * channels
      requires 0 < width <= 2 && offset + width <= channels
      requires |sub| == frames * width && f < frames == Quotient(|sub|, width) && f < OPUS_FRAME_SAMPLES
      modifies outputBuf
      ensures forall i :: 0 <= i < outputBuf.Length ==>
        outputBuf[i] == if Quotient(i, channels) == f
                        then OverlaySample(old(outputBuf[..]), sub, channels, offset, width, i)
                        else old(outputBuf[i])
    {
      FrameIndex(channels, f, offset);
      IndexInBounds(|sub|, width, f, 0);
      var outBase := f * channels + offset;
      outputBuf[outBase] := sub[f * width];
      if width == 2 {
        FrameIndex(channels, f, offset + 1);
        IndexInBounds(|sub|, width, f, 1);
        outputBuf[outBase + 1] := sub[f * width + 1];
      }
      forall i | 0 <= i < outputBuf.Length
        ensures outputBuf[i] == if Quotient(i, channels) == f
                                then OverlaySample(old(outputBuf[..]), sub, channels, offset, width, i)
                                else old(outputBuf[i])
      {
        Locate(i, channels, f);
      }
    }
  }

  lemma RestOfPacket(packet: seq<Byte>, at: nat, len: nat)
    requires at + 2 + len <= |packet|
    ensures packet[at..][2..2 + len] == packet[at + 2..at + 2 + len]
    ensures packet[at..][2 + len..] == packet[at + 2 + len..]
  {
  }

  lemma Locate(i: nat, channels: nat, f: nat)
    requires channels > 0
    ensures Quotient(i, channels) == f <==> i == f * channels + i % channels
  {
    assert i == Quotient(i, channels) * channels + i % channels;
    if i == f * channels + i % channels { DivModUnique(i, channels, f, i % channels); }
  }

  // ---------------------------------------------------------------- end to end

  function Joined(pushes: seq<seq<real>>): seq<real> {
    if pushes == [] then [] else Joined(pushes[..|pushes| - 1]) + pushes[|pushes| - 1]
  }

  /** One push and, if it completed a packet, its delivery. */
  method PushAndDecode<E(!new), D(!new)>(encoder: OpusChannelEncoder<E, D>, decoder: OpusChannelDecoder<E, D>,
                                         ghost inStep: (E, D) -> bool, samples: seq<real>)
    returns (received: seq<real>, ok: bool)
    requires encoder.Valid() && decoder.Valid()
    requires encoder.codec == decoder.codec && encoder.channels == decoder.channels
    requires Lossless(encoder.codec, inStep) && InStep(inStep, encoder.encoders, decoder.decoders)
    modifies encoder, decoder, decoder.outputBuf
    ensures encoder.Valid() && decoder.Valid()
    ensures ok ==> InStep(inStep, encoder.encoders, decoder.decoders)
    ensures ok ==> received + encoder.pending == old(encoder.pending) + samples
    ensures ok ==> (|encoder.pending| < encoder.FrameSamples()
                    <==> |old(encoder.pending)| + |samples| < 2 * encoder.FrameSamples())
  {
    ghost var frame := (encoder.pending + samples)[..Min(encoder.FrameSamples(), |encoder.pending + samples|)];
    ghost var before := encoder.encoders;
    var r := encoder.PushSamples(samples);
    if r.Err? {
      return [], false;
    }
    if r.value.None? {
      return [], true;
    }
    RoundTrip(encoder.codec, inStep, before, decoder.decoders,
              encoder.substreamChannels, encoder.channels, frame, decoder.outputBuf[..]);
    var decoded := decoder.DecodePacket(r.value.value);
    return decoded.value, true;
  }

  /** With a lossless codec in step on both sides, pushing any sequence of buffers and decoding
      every packet as it comes returns exactly the samples pushed, less those still pending. The
      backlog stays under a frame if it starts there and no push exceeds a frame. */
  method Transport<E(!new), D(!new)>(encoder: OpusChannelEncoder<E, D>, decoder: OpusChannelDecoder<E, D>,
                                     ghost inStep: (E, D) -> bool, pushes: seq<seq<real>>)
    returns (received: seq<real>, ok: bool)
    requires encoder.Valid() && decoder.Valid()
    requires encoder.codec == decoder.codec && encoder.channels == decoder.channels
    requires Lossless(encoder.codec, inStep) && InStep(inStep, encoder.encoders, decoder.decoders)
    modifies encoder, decoder, decoder.outputBuf
    ensures encoder.Valid() && decoder.Valid()
    ensures ok ==> received + encoder.pending == old(encoder.pending) + Joined(pushes)
    ensures ok ==> InStep(inStep, encoder.encoders, decoder.decoders)
    ensures ok && |old(encoder.pending)| < encoder.FrameSamples()
            && (forall n :: 0 <= n < |pushes| ==> |pushes[n]| <= encoder.FrameSamples())
        ==> |encoder.pending| < encoder.FrameSamples()
  {
    received, ok := [], true;
    for n := 0 to |pushes|
      invariant encoder.Valid() && decoder.Valid()
      invariant InStep(inStep, encoder.encoders, decoder.decoders)
      invariant received + encoder.pending == old(encoder.pending) + Joined(pushes[..n])
      invariant |old(encoder.pending)| < encoder.FrameSamples()
                && (forall n :: 0 <= n < |pushes| ==> |pushes[n]| <= encoder.FrameSamples())
            ==> |encoder.pending| < encoder.FrameSamples()
    {
      assert pushes[..n + 1][..n] == pushes[..n];
      ghost var before := encoder.pending;
      var decoded;
      decoded, ok := PushAndDecode(encoder, decoder, inStep, pushes[n]);
      if !ok {
        return;
      }
      Regroup(received, before, decoded, encoder.pending, old(encoder.pending), Joined(pushes[..n]), pushes[n]);
      received := received + decoded;
    }
    assert pushes[..|pushes|] == pushes;
  }

  lemma Regroup(received: seq<real>, before: seq<real>, decoded: seq<real>, after: seq<real>,
                start: seq<real>, joined: seq<real>, push: seq<real>)
    requires received + before == start + joined && decoded + after == before + push
    ensures (received + decoded) + after == start + (joined + push)
  {
    calc {
      (received + decoded) + after;
      received + (decoded + after);
      received + (before + push);
      (received + before) + push;
      start + (joined + push);
    }
  }

  /** Two frames in one push: at most one is encoded, so a whole frame or more stays behind. */
  method PushTwoFrames<E(!new), D(!new)>(encoder: OpusChannelEncoder<E, D>) returns (r: Result<Option<seq<Byte>>>)
    requires encoder.Valid() && encoder.pending == []
    modifies encoder
    ensures encoder.Valid() && |encoder.pending| >= encoder.FrameSamples()
  {
    r := encoder.PushSamples(seq(2 * OPUS_FRAME_SAMPLES * encoder.channels, _ => 0.0));
  }
}
