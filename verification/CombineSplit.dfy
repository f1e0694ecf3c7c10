/** Combining mono sources into one interleaved stream (crates/audio-core/src/combine.rs) and
    splitting an interleaved stream into mono queues (crates/audio-core/src/split.rs). */
module CombineSplit {
  import opened Interleaving
  import opened Wrappers
  import opened StreamResampler

  // ---------------------------------------------------------------- combining

  /** A slot is a source with its pending samples, or silence in its place. */
  datatype Slot = Active(pending: seq<real>) | Skipped

  function Zeros(n: nat): seq<real> {
    seq(n, _ => 0.0)
  }

  /** What slot c contributes to the first `sent` frames. */
  function Contribution(slot: Slot, arrived: seq<real>, sent: nat): (r: seq<real>)
    requires slot.Active? ==> sent <= |arrived|
    ensures |r| == sent
  {
    if slot.Active? then arrived[..sent] else Zeros(sent)
  }

  /** The shortest backlog among the active slots; nothing without one. */
  function Available(slots: seq<Slot>): Option<nat> {
    if slots == [] then None
    else
      var n := |slots| - 1;
      match (Available(slots[..n]), slots[n])
      case (rest, Skipped) => rest
      case (None, Active(pending)) => Some(|pending|)
      case (Some(least), Active(pending)) => Some(Min(least, |pending|))
  }

  lemma {:induction false} AvailableIsLeast(slots: seq<Slot>)
    ensures Available(slots).Some? ==>
      (forall c :: 0 <= c < |slots| && slots[c].Active? ==> Available(slots).value <= |slots[c].pending|)
    ensures Available(slots).Some? ==>
      exists c :: 0 <= c < |slots| && slots[c].Active? && |slots[c].pending| == Available(slots).value
    ensures Available(slots).None? <==> forall c :: 0 <= c < |slots| ==> slots[c].Skipped?
    decreases |slots|
  {
    if slots != [] { AvailableIsLeast(slots[..|slots| - 1]); }
  }

  /** Every active source has given up the same number of samples, and channel c of the combined
      stream is exactly that prefix of source c, or silence for a skipped slot. */
  ghost predicate Consistent(slots: seq<Slot>, arrived: seq<seq<real>>, sent: nat, combined: seq<real>) {
    && |slots| == |arrived| && |combined| == sent * |slots|
    && (forall c :: 0 <= c < |slots| && slots[c].Active? ==>
          sent <= |arrived[c]| && slots[c].pending == arrived[c][sent..])
    && (forall c :: 0 <= c < |slots| ==> Channel(combined, |slots|, c) == Contribution(slots[c], arrived[c], sent))
  }

  class Combiner {
    const maxFramesPerPacket: nat
    var slots: seq<Slot>

    /** All samples each source has delivered, how many frames were combined, and the frames. */
    ghost var arrived: seq<seq<real>>
    ghost var sent: nat
    ghost var combined: seq<real>

    ghost predicate Valid()
      reads this
    {
      |slots| > 0 && Consistent(slots, arrived, sent, combined)
    }

    constructor (active: seq<bool>, maxFramesPerPacket: nat)
      requires |active| > 0
      ensures Valid() && |slots| == |active| && sent == 0
      ensures forall c :: 0 <= c < |active| ==> slots[c].Active? == active[c]
    {
      this.maxFramesPerPacket := maxFramesPerPacket;
      slots := seq(|active|, c requires 0 <= c < |active| => if active[c] then Active([]) else Skipped);
      arrived := seq(|active|, _ => []);
      sent, combined := 0, [];
    }

    /** Blocks popped from a source's capture queue join its pending samples. */
    method Collect(c: nat, block: seq<real>)
      requires Valid() && c < |slots|
      modifies this`slots, this`arrived
      ensures Valid() && |slots| == |old(slots)|
      ensures forall k :: 0 <= k < |slots| ==> slots[k].Active? == old(slots[k].Active?)
      ensures old(slots[c].Active?) ==> arrived == old(arrived)[c := old(arrived[c]) + block]
      ensures old(slots[c].Skipped?) ==> arrived == old(arrived)
    {
      if slots[c].Active? {
        slots := slots[c := Active(slots[c].pending + block)];
        arrived := arrived[c := arrived[c] + block];
      }
    }

    /** One loop iteration past collection: the frames sent, none if some source has none. */
    method Combine() returns (interleaved: seq<real>)
      requires Valid()
      modifies this`slots, this`sent, this`combined
      ensures Valid() && |slots| == |old(slots)|
      ensures forall k :: 0 <= k < |slots| ==> slots[k].Active? == old(slots[k].Active?)
      ensures combined == old(combined) + interleaved
      ensures var available := Available(old(slots));
        sent == old(sent) + (if available.None? then 0 else Min(available.value, maxFramesPerPacket))
    {
      AvailableIsLeast(slots);
      var available := Available(slots);
      var framesToSend := if available.None? then 0 else Min(available.value, maxFramesPerPacket);
      if framesToSend == 0 {
        assert combined + [] == combined;
        return [];
      }
      interleaved := DrainAndInterleave(framesToSend);
    }

    method DrainAndInterleave(frames: nat) returns (interleaved: seq<real>)
      requires Valid()
      requires forall c :: 0 <= c < |slots| && slots[c].Active? ==> frames <= |slots[c].pending|
      modifies this`slots, this`sent, this`combined
      ensures Valid() && |slots| == |old(slots)| && sent == old(sent) + frames
      ensures forall k :: 0 <= k < |slots| ==> slots[k].Active? == old(slots[k].Active?)
      ensures combined == old(combined) + interleaved
    {
      ghost var before := slots;
      var tracks := Drain(frames);
      interleaved := InterleaveFrames(tracks, frames);
      CombineKeepsConsistent(before, slots, arrived, sent, combined, tracks, frames);
      assert forall k :: 0 <= k < |slots| ==> Drained(before[k], slots[k], tracks[k], frames);
      sent := sent + frames;
      combined := combined + interleaved;
    }

    /** The per-slot drain: samples off the front, or as many zeros. */
    method Drain(frames: nat) returns (tracks: seq<seq<real>>)
      requires forall c :: 0 <= c < |slots| && slots[c].Active? ==> frames <= |slots[c].pending|
      modifies this`slots
      ensures |slots| == |old(slots)| == |tracks|
      ensures forall c :: 0 <= c < |tracks| ==> |tracks[c]| == frames
      ensures forall c :: 0 <= c < |slots| ==> Drained(old(slots[c]), slots[c], tracks[c], frames)
    {
      tracks := [];
      for k := 0 to |slots|
        invariant |slots| == |old(slots)| && |tracks| == k
        invariant forall c :: k <= c < |slots| ==> slots[c] == old(slots[c])
        invariant forall c :: 0 <= c < k ==> |tracks[c]| == frames
        invariant forall c :: 0 <= c < k ==> Drained(old(slots[c]), slots[c], tracks[c], frames)
      {
        match slots[k] {
          case Active(pending) =>
            tracks := tracks + [pending[..frames]];
            slots := slots[k := Active(pending[frames..])];
          case Skipped =>
            tracks := tracks + [Zeros(frames)];
        }
      }
    }
  }

  /** A slot gave up its first `frames` samples, or as many zeros. */
  ghost predicate Drained(before: Slot, after: Slot, track: seq<real>, frames: nat) {
    |track| == frames &&
    match before
    case Active(pending) => frames <= |pending| && track == pending[..frames] && after == Active(pending[frames..])
    case Skipped => track == Zeros(frames) && after == Skipped
  }

  lemma CombineKeepsConsistent(before: seq<Slot>, after: seq<Slot>, arrived: seq<seq<real>>, sent: nat,
                               combined: seq<real>, tracks: seq<seq<real>>, frames: nat)
    requires Consistent(before, arrived, sent, combined) && |before| == |after| == |tracks|
    requires forall c :: 0 <= c < |tracks| ==> |tracks[c]| == frames
    requires forall c :: 0 <= c < |before| ==> Drained(before[c], after[c], tracks[c], frames)
    ensures Consistent(after, arrived, sent + frames, combined + Interleave(tracks, frames))
  {
    forall c | 0 <= c < |after|
      ensures Channel(combined + Interleave(tracks, frames), |after|, c)
           == Contribution(after[c], arrived[c], sent + frames)
    {
      assert Drained(before[c], after[c], tracks[c], frames);
      Extended(before[c], arrived[c], sent, frames);
      ChannelExtended(combined, sent, tracks, frames, c);
    }
    forall c | 0 <= c < |after| && after[c].Active?
      ensures sent + frames <= |arrived[c]| && after[c].pending == arrived[c][sent + frames..]
    {
      assert Drained(before[c], after[c], tracks[c], frames);
    }
    assert (sent + frames) * |after| == sent * |after| + frames * |after|;
  }

  lemma ChannelExtended(combined: seq<real>, sent: nat, tracks: seq<seq<real>>, frames: nat, c: nat)
    requires c < |tracks| && |combined| == sent * |tracks|
    requires forall t :: 0 <= t < |tracks| ==> |tracks[t]| == frames
    ensures Channel(combined + Interleave(tracks, frames), |tracks|, c) == Channel(combined, |tracks|, c) + tracks[c]
  {
    MulDiv(sent, |tracks|);
    ChannelOfConcat(combined, Interleave(tracks, frames), |tracks|, c);
    ChannelOfInterleave(tracks, frames, c);
  }

  lemma Extended(slot: Slot, arrived: seq<real>, sent: nat, frames: nat)
    requires slot.Active? ==> sent + frames <= |arrived|
    ensures Contribution(slot, arrived, sent + frames)
         == Contribution(slot, arrived, sent) + (if slot.Active? then arrived[sent..][..frames] else Zeros(frames))
  {
  }

  /** The nested loops that interleave the drained samples. */
  method InterleaveFrames(tracks: seq<seq<real>>, frames: nat) returns (interleaved: seq<real>)
    requires forall c :: 0 <= c < |tracks| ==> |tracks[c]| == frames
    ensures interleaved == Interleave(tracks, frames)
  {
    interleaved := [];
    for frameIndex := 0 to frames
      invariant interleaved == Interleave(Heads(tracks, frameIndex), frameIndex)
    {
      ghost var before := interleaved;
      for channelIndex := 0 to |tracks|
        invariant interleaved == before + Row(tracks, frameIndex)[..channelIndex]
      {
        interleaved := interleaved + [tracks[channelIndex][frameIndex]];
      }
      NextRow(tracks, frameIndex);
    }
    AllHeads(tracks, frames);
  }

  lemma AllHeads(tracks: seq<seq<real>>, frames: nat)
    requires forall c :: 0 <= c < |tracks| ==> |tracks[c]| == frames
    ensures Heads(tracks, frames) == tracks
  {
    forall c | 0 <= c < |tracks| ensures Heads(tracks, frames)[c] == tracks[c] { }
  }

  lemma NextRow(tracks: seq<seq<real>>, f: nat)
    requires forall c :: 0 <= c < |tracks| ==> f < |tracks[c]|
    ensures Interleave(Heads(tracks, f + 1), f + 1) == Interleave(Heads(tracks, f), f) + Row(tracks, f)
  {
    var longer := Heads(tracks, f + 1);
    forall c | 0 <= c < |tracks| ensures Heads(longer, f)[c] == Heads(tracks, f)[c] {
      assert tracks[c][..f + 1][..f] == tracks[c][..f];
    }
    assert Heads(longer, f) == Heads(tracks, f);
    assert Row(longer, f) == Row(tracks, f);
  }

  // ---------------------------------------------------------------- splitting

  /** The nested loops that pick the channels of a payload apart; a ragged tail is ignored. */
  method Deinterleave(payload: seq<real>, channelCount: nat) returns (tracks: seq<seq<real>>)
    requires channelCount > 0
    ensures |tracks| == channelCount
    ensures forall c :: 0 <= c < channelCount ==> tracks[c] == Channel(payload, channelCount, c)
  {
    var frameCount := Quotient(|payload|, channelCount);
    tracks := seq(channelCount, _ => []);
    for frameIndex := 0 to frameCount
      invariant |tracks| == channelCount
      invariant forall c :: 0 <= c < channelCount ==> tracks[c] == Channel(payload, channelCount, c)[..frameIndex]
    {
      for channelIndex := 0 to channelCount
        invariant |tracks| == channelCount
        invariant forall c :: 0 <= c < channelCount ==>
          tracks[c] == Channel(payload, channelCount, c)[..if c < channelIndex then frameIndex + 1 else frameIndex]
      {
        IndexInBounds(|payload|, channelCount, frameIndex, channelIndex);
        var sample := payload[frameIndex * channelCount + channelIndex];
        assert sample == Channel(payload, channelCount, channelIndex)[frameIndex];
        tracks := tracks[channelIndex := tracks[channelIndex] + [sample]];
      }
    }
  }

  /** One mono resampler per channel, all different objects. */
  ghost predicate MonoResamplers(resamplers: seq<StreamingLinearResampler>)
    reads resamplers
  {
    && (forall c :: 0 <= c < |resamplers| ==> resamplers[c].Valid() && resamplers[c].channels == 1)
    && (forall c, d :: 0 <= c < d < |resamplers| ==> resamplers[c] != resamplers[d])
  }

  /** The resampler accepted these samples and emitted that output for them. */
  twostate predicate Fed(resampler: StreamingLinearResampler, samples: seq<real>, output: seq<real>)
    requires old(resampler.Valid())
    reads resampler
  {
    && resampler.Valid() && resampler.accepted == old(resampler.accepted) + samples
    && resampler.Emitted() == old(resampler.Emitted()) + output
  }

  /** A channel's recorder, if it has one, gained these samples. */
  ghost predicate Recorded(before: Option<seq<real>>, after: Option<seq<real>>, samples: seq<real>) {
    after == if before.Some? then Some(before.value + samples) else None
  }

  /** Each channel's samples go through its resampler to the end of its queue, and as they came to
      its recorder. */
  method DemuxIntoBuffers(buffers: array<seq<real>>, writers: array<Option<seq<real>>>,
                          resamplers: seq<StreamingLinearResampler>, payload: seq<real>, channelCount: nat)
    returns (r: Outcome)
    requires MonoResamplers(resamplers)
    modifies buffers, writers, resamplers
    ensures MonoResamplers(resamplers)
    ensures r.Pass? <==> 0 < channelCount <= buffers.Length && channelCount <= |resamplers|
                         && channelCount <= writers.Length
    ensures r.Fail? ==> buffers[..] == old(buffers[..]) && writers[..] == old(writers[..])
                        && forall c :: 0 <= c < |resamplers| ==> unchanged(resamplers[c])
    ensures r.Pass? ==> forall c :: 0 <= c < channelCount ==>
      && old(buffers[c]) <= buffers[c]
      && Fed(resamplers[c], Channel(payload, channelCount, c), buffers[c][|old(buffers[c])|..])
    ensures r.Pass? ==> forall c :: 0 <= c < channelCount ==>
      Recorded(old(writers[c]), writers[c], Channel(payload, channelCount, c))
    ensures r.Pass? ==> forall c :: 0 <= c < channelCount && resamplers[c].inputRate == resamplers[c].outputRate ==>
      buffers[c] == old(buffers[c]) + Channel(payload, channelCount, c)
    ensures r.Pass? ==> forall c :: channelCount <= c < buffers.Length ==> buffers[c] == old(buffers[c])
    ensures r.Pass? ==> forall c :: channelCount <= c < writers.Length ==> writers[c] == old(writers[c])
  {
    if channelCount == 0 || buffers.Length < channelCount || writers.Length < channelCount
       || |resamplers| < channelCount {
      return Fail("split stream has inconsistent channel routing state");
    }
    if Quotient(|payload|, channelCount) == 0 {
      forall c | 0 <= c < channelCount
        ensures Channel(payload, channelCount, c) == [] && Fed(resamplers[c], [], [])
        ensures Recorded(writers[c], writers[c], [])
      {
        assert resamplers[c].accepted + [] == resamplers[c].accepted;
        assert resamplers[c].Emitted() + [] == resamplers[c].Emitted();
        assert writers[c].Some? ==> writers[c].value + [] == writers[c].value;
      }
      return Pass;
    }
    var tracks := Deinterleave(payload, channelCount);
    FeedChannels(buffers, writers, resamplers, tracks);
    return Pass;
  }

  /** One channel's samples went through its resampler, from one state of its queue to another. */
  twostate predicate Served(resampler: StreamingLinearResampler, track: seq<real>, buffer: seq<real>,
                            buffer': seq<real>)
    requires old(resampler.Valid())
    reads resampler
  {
    && buffer <= buffer' && Fed(resampler, track, buffer'[|buffer|..])
    && (resampler.inputRate == resampler.outputRate ==> buffer' == buffer + track)
  }

  method FeedChannels(buffers: array<seq<real>>, writers: array<Option<seq<real>>>,
                      resamplers: seq<StreamingLinearResampler>, tracks: seq<seq<real>>)
    requires MonoResamplers(resamplers)
    requires |tracks| <= buffers.Length && |tracks| <= writers.Length && |tracks| <= |resamplers|
    modifies buffers, writers, resamplers
    ensures MonoResamplers(resamplers)
    ensures forall c :: 0 <= c < |tracks| ==> Served(resamplers[c], tracks[c], old(buffers[c]), buffers[c])
    ensures forall c :: 0 <= c < |tracks| ==> Recorded(old(writers[c]), writers[c], tracks[c])
    ensures forall c :: |tracks| <= c < buffers.Length ==> buffers[c] == old(buffers[c])
    ensures forall c :: |tracks| <= c < writers.Length ==> writers[c] == old(writers[c])
  {
    for c := 0 to |tracks|
      invariant MonoResamplers(resamplers)
      invariant forall d :: c <= d < |resamplers| ==> unchanged(resamplers[d])
      invariant forall d :: c <= d < buffers.Length ==> buffers[d] == old(buffers[d])
      invariant forall d :: c <= d < writers.Length ==> writers[d] == old(writers[d])
      invariant forall d :: 0 <= d < c ==> Served(resamplers[d], tracks[d], old(buffers[d]), buffers[d])
      invariant forall d :: 0 <= d < c ==> Recorded(old(writers[d]), writers[d], tracks[d])
    {
      FeedChannel(buffers, writers, c, resamplers[c], tracks[c]);
    }
  }

  /** A mono channel is always whole frames, so its resampler never refuses it. */
  method FeedChannel(buffers: array<seq<real>>, writers: array<Option<seq<real>>>, c: nat,
                     resampler: StreamingLinearResampler, track: seq<real>)
    requires c < buffers.Length && c < writers.Length && resampler.Valid() && resampler.channels == 1
    modifies buffers, writers, resampler
    ensures resampler.Valid()
    ensures Served(resampler, track, old(buffers[c]), buffers[c])
    ensures Recorded(old(writers[c]), writers[c], track)
    ensures forall d :: 0 <= d < buffers.Length && d != c ==> buffers[d] == old(buffers[d])
    ensures forall d :: 0 <= d < writers.Length && d != c ==> writers[d] == old(writers[d])
  {
    ghost var accepted := resampler.accepted;
    var converted := resampler.Process(track);
    if resampler.inputRate == resampler.outputRate {
      PassedThrough(accepted, track, converted.value, resampler.inputRate);
    }
    buffers[c] := buffers[c] + converted.value;
    if writers[c].Some? {
      writers[c] := Some(writers[c].value + track);
    }
  }

  /** At equal rates a mono resampler passes its samples through. */
  lemma PassedThrough(accepted: seq<real>, samples: seq<real>, output: seq<real>, rate: nat)
    requires rate > 0
    requires StreamOutput(accepted + samples, 1, rate, rate) == StreamOutput(accepted, 1, rate, rate) + output
    ensures output == samples
  {
    EqualRatesIdentity(accepted, 1, rate);
    EqualRatesIdentity(accepted + samples, 1, rate);
    assert (accepted + samples)[|accepted|..] == samples && (accepted + output)[|accepted|..] == output;
  }

  // ---------------------------------------------------------------- split undoes combine

  /** The samples of slot c between two totals of sent frames. */
  function Stretch(slot: Slot, arrived: seq<real>, from: nat, to: nat): seq<real>
    requires from <= to && (slot.Active? ==> to <= |arrived|)
  {
    if slot.Active? then arrived[from..to] else Zeros(to - from)
  }

  lemma NewChannel(combined: seq<real>, interleaved: seq<real>, n: nat, c: nat, before: seq<real>, after: seq<real>)
    requires c < n && |combined| % n == 0 && |before| <= |after|
    requires Channel(combined, n, c) == before && Channel(combined + interleaved, n, c) == after
    ensures Channel(interleaved, n, c) == after[|before|..]
  {
    ChannelOfConcat(combined, interleaved, n, c);
  }

  /** One combined packet, split again at equal rates, appends to queue c exactly the samples
      source c gave up for it, or the silence of a skipped slot. */
  method Relay(combiner: Combiner, buffers: array<seq<real>>, writers: array<Option<seq<real>>>,
               resamplers: seq<StreamingLinearResampler>)
    returns (r: Outcome)
    requires combiner.Valid() && MonoResamplers(resamplers)
    requires |combiner.slots| <= buffers.Length && |combiner.slots| <= |resamplers|
    requires |combiner.slots| <= writers.Length
    requires forall c :: 0 <= c < |resamplers| ==> resamplers[c].inputRate == resamplers[c].outputRate
    modifies combiner, buffers, writers, resamplers
    ensures r.Pass? && combiner.Valid() && MonoResamplers(resamplers)
    ensures |combiner.slots| == |old(combiner.slots)| && combiner.arrived == old(combiner.arrived)
    ensures forall c :: 0 <= c < |combiner.slots| ==> combiner.slots[c].Active? == old(combiner.slots[c].Active?)
    ensures old(combiner.sent) <= combiner.sent
    ensures forall c :: 0 <= c < |combiner.slots| ==>
      && (combiner.slots[c].Active? ==> combiner.sent <= |combiner.arrived[c]|)
      && buffers[c] == old(buffers[c])
                       + Stretch(combiner.slots[c], combiner.arrived[c], old(combiner.sent), combiner.sent)
  {
    ghost var combined := combiner.combined;
    var interleaved := combiner.Combine();
    var n := |combiner.slots|;
    r := DemuxIntoBuffers(buffers, writers, resamplers, interleaved, n);
    forall c | 0 <= c < n
      ensures Channel(interleaved, n, c)
           == Stretch(combiner.slots[c], combiner.arrived[c], old(combiner.sent), combiner.sent)
    {
      MulDiv(old(combiner.sent), n);
      NewChannel(combined, interleaved, n, c,
                 Contribution(combiner.slots[c], combiner.arrived[c], old(combiner.sent)),
                 Contribution(combiner.slots[c], combiner.arrived[c], combiner.sent));
    }
  }

  // ---------------------------------------------------------------- every run

  /** A block arrives from the source of a slot, or the loop combines and relays a packet. */
  datatype Event = Arrival(slot: nat, block: seq<real>) | Packet

  /** Everything the source of slot c delivers in the course of some events. */
  function Delivered(events: seq<Event>, c: nat): seq<real> {
    if events == [] then []
    else
      var earlier, e := Delivered(events[..|events| - 1], c), events[|events| - 1];
      if e.Arrival? && e.slot == c then earlier + e.block else earlier
  }

  /** A channel's state after a run: its source's history grew by what was delivered, and its queue
      gained exactly what the source gave up, or as much silence. */
  ghost predicate Relayed(slot: Slot, arrived: seq<real>, arrived': seq<real>, delivered: seq<real>,
                          buffer: seq<real>, buffer': seq<real>, from: nat, to: nat)
  {
    && from <= to && (slot.Active? ==> to <= |arrived'| && arrived' == arrived + delivered)
    && buffer' == buffer + Stretch(slot, arrived', from, to)
  }

  lemma NothingRelayed(slot: Slot, arrived: seq<real>, buffer: seq<real>, sent: nat)
    requires slot.Active? ==> sent <= |arrived|
    ensures Relayed(slot, arrived, arrived, [], buffer, buffer, sent, sent)
  {
    assert Stretch(slot, arrived, sent, sent) == [];
  }

  lemma ArrivalRelays(slot: Slot, arrived: seq<real>, arrived': seq<real>, delivered: seq<real>, block: seq<real>,
                      buffer: seq<real>, buffer': seq<real>, from: nat, to: nat)
    requires Relayed(slot, arrived, arrived', delivered, buffer, buffer', from, to)
    ensures Relayed(slot, arrived, arrived' + block, delivered + block, buffer, buffer', from, to)
  {
    assert arrived + (delivered + block) == (arrived + delivered) + block;
    assert slot.Active? ==> (arrived' + block)[from..to] == arrived'[from..to];
  }

  lemma PacketRelays(slot: Slot, slot': Slot, arrived: seq<real>, arrived': seq<real>, delivered: seq<real>,
                     buffer: seq<real>, middle: seq<real>, buffer': seq<real>, from: nat, via: nat, to: nat)
    requires Relayed(slot, arrived, arrived', delivered, buffer, middle, from, via)
    requires slot.Active? == slot'.Active? && via <= to && (slot'.Active? ==> to <= |arrived'|)
    requires buffer' == middle + Stretch(slot', arrived', via, to)
    ensures Relayed(slot', arrived, arrived', delivered, buffer, buffer', from, to)
  {
    assert Stretch(slot, arrived', from, via) + Stretch(slot', arrived', via, to) == Stretch(slot', arrived', from, to);
  }

  /** In every run of arrivals and relayed packets at equal rates, queue c is what it was followed by
      source c's samples in order, up to what was sent, or as many zeros for a skipped slot. */
  method RelayAll(combiner: Combiner, buffers: array<seq<real>>, writers: array<Option<seq<real>>>,
                  resamplers: seq<StreamingLinearResampler>, events: seq<Event>)
    requires combiner.Valid() && MonoResamplers(resamplers)
    requires |combiner.slots| <= buffers.Length && |combiner.slots| <= |resamplers|
    requires |combiner.slots| <= writers.Length
    requires forall c :: 0 <= c < |resamplers| ==> resamplers[c].inputRate == resamplers[c].outputRate
    requires forall n :: 0 <= n < |events| && events[n].Arrival? ==> events[n].slot < |combiner.slots|
    modifies combiner, buffers, writers, resamplers
    ensures combiner.Valid() && |combiner.slots| == |old(combiner.slots)|
    ensures forall c :: 0 <= c < |combiner.slots| ==>
      && combiner.slots[c].Active? == old(combiner.slots[c].Active?)
      && Relayed(combiner.slots[c], old(combiner.arrived[c]), combiner.arrived[c], Delivered(events, c),
                 old(buffers[c]), buffers[c], old(combiner.sent), combiner.sent)
  {
    forall c | 0 <= c < |combiner.slots|
      ensures Relayed(combiner.slots[c], combiner.arrived[c], combiner.arrived[c], [], buffers[c], buffers[c],
                      combiner.sent, combiner.sent)
    {
      NothingRelayed(combiner.slots[c], combiner.arrived[c], buffers[c], combiner.sent);
    }
    for n := 0 to |events|
      invariant combiner.Valid() && MonoResamplers(resamplers) && |combiner.slots| == |old(combiner.slots)|
      invariant forall c :: 0 <= c < |combiner.slots| ==>
        && combiner.slots[c].Active? == old(combiner.slots[c].Active?)
        && Relayed(combiner.slots[c], old(combiner.arrived[c]), combiner.arrived[c], Delivered(events[..n], c),
                   old(buffers[c]), buffers[c], old(combiner.sent), combiner.sent)
    {
      assert events[..n + 1][..n] == events[..n];
      RelayEvent(combiner, buffers, writers, resamplers, events[n], old(combiner.arrived), old(combiner.sent),
                 old(buffers[..]), events[..n]);
    }
    assert events[..|events|] == events;
  }

  method RelayEvent(combiner: Combiner, buffers: array<seq<real>>, writers: array<Option<seq<real>>>,
                    resamplers: seq<StreamingLinearResampler>, event: Event, ghost arrived: seq<seq<real>>,
                    ghost sent: nat, ghost queues: seq<seq<real>>, ghost earlier: seq<Event>)
    requires combiner.Valid() && MonoResamplers(resamplers)
    requires |combiner.slots| <= buffers.Length && |combiner.slots| <= |resamplers|
    requires |combiner.slots| <= writers.Length
    requires forall c :: 0 <= c < |resamplers| ==> resamplers[c].inputRate == resamplers[c].outputRate
    requires event.Arrival? ==> event.slot < |combiner.slots|
    requires |arrived| == |combiner.slots| && |queues| == buffers.Length
    requires forall c :: 0 <= c < |combiner.slots| ==>
      Relayed(combiner.slots[c], arrived[c], combiner.arrived[c], Delivered(earlier, c), queues[c], buffers[c],
              sent, combiner.sent)
    modifies combiner, buffers, writers, resamplers
    ensures combiner.Valid() && MonoResamplers(resamplers) && |combiner.slots| == |old(combiner.slots)|
    ensures forall c :: 0 <= c < |combiner.slots| ==>
      && combiner.slots[c].Active? == old(combiner.slots[c].Active?)
      && Relayed(combiner.slots[c], arrived[c], combiner.arrived[c], Delivered(earlier + [event], c), queues[c],
                 buffers[c], sent, combiner.sent)
  {
    assert (earlier + [event])[..|earlier|] == earlier;
    match event
    case Arrival(slot, block) =>
      ArrivalRelays(combiner.slots[slot], arrived[slot], combiner.arrived[slot], Delivered(earlier, slot), block,
                    queues[slot], buffers[slot], sent, combiner.sent);
      combiner.Collect(slot, block);
    case Packet =>
      var r := Relay(combiner, buffers, writers, resamplers);
      forall c | 0 <= c < |combiner.slots|
        ensures Relayed(combiner.slots[c], arrived[c], combiner.arrived[c], Delivered(earlier + [event], c), queues[c],
                        buffers[c], sent, combiner.sent)
      {
        PacketRelays(old(combiner.slots[c]), combiner.slots[c], arrived[c], combiner.arrived[c], Delivered(earlier, c),
                     queues[c], old(buffers[c]), buffers[c], sent, old(combiner.sent), combiner.sent);
      }
  }
}
