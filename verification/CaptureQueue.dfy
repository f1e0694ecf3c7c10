/** The ASIO capture queue (crates/audio-core/src/asio.rs): a driver callback that must not wait
    appends frames under a try-lock, shedding the oldest ones when the queue is too long, while a
    worker drains packets in two separate critical sections. */
module CaptureQueue {
  import opened Interleaving

  function DivCeil(x: nat, n: nat): nat
    requires n > 0
  {
    Quotient(x + n - 1, n)
  }

  /** The least multiple of n at or above x. */
  lemma DivCeilBounds(x: nat, n: nat)
    requires n > 0
    ensures x <= DivCeil(x, n) * n < x + n
    ensures x % n == 0 ==> DivCeil(x, n) * n == x && DivCeil(x, n) == x / n
  {
    var q := DivCeil(x, n);
    assert x + n - 1 == q * n + (x + n - 1) % n;
    if x % n == 0 {
      assert x + n - 1 == (x / n) * n + (n - 1);
      DivModUnique(x + n - 1, n, x / n, n - 1);
    }
  }

  // ---------------------------------------------------------------- one callback

  /** The chosen channels of the first `frames` driver frames, converted and clipped. */
  function Selected<T>(data: seq<T>, total: nat, indices: seq<nat>, convert: T -> real, frames: nat): (r: seq<real>)
    requires total > 0 && frames <= |data| / total
    requires forall k :: 0 <= k < |indices| ==> indices[k] < total
    ensures |r| == frames * |indices|
  {
    if frames == 0 then []
    else Selected(data, total, indices, convert, frames - 1) + SelectedFrame(data, total, indices, convert, frames - 1)
  }

  function SelectedFrame<T>(data: seq<T>, total: nat, indices: seq<nat>, convert: T -> real, frame: nat): (r: seq<real>)
    requires total > 0 && frame < |data| / total
    requires forall k :: 0 <= k < |indices| ==> indices[k] < total
    ensures |r| == |indices|
  {
    seq(|indices|, k requires 0 <= k < |indices| => SelectedSample(data, total, convert, frame, indices[k]))
  }

  function SelectedSample<T>(data: seq<T>, total: nat, convert: T -> real, frame: nat, channel: nat): real
    requires channel < total && frame < |data| / total
  {
    IndexInBounds(|data|, total, frame, channel);
    Clip(convert(data[frame * total + channel]))
  }

  /** The selection is the driver's own samples: sample i of it is frame i / m of the chosen channel
      i % m of the m selected, converted and clipped. */
  ghost predicate Picks<T>(selection: seq<real>, data: seq<T>, total: nat, indices: seq<nat>, convert: T -> real)
    requires total > 0 && forall k :: 0 <= k < |indices| ==> indices[k] < total
  {
    forall i :: 0 <= i < |selection| ==> |indices| > 0 && PicksAt(selection[i], data, total, indices, convert, i)
  }

  ghost predicate PicksAt<T>(x: real, data: seq<T>, total: nat, indices: seq<nat>, convert: T -> real, i: nat)
    requires total > 0 && |indices| > 0 && forall k :: 0 <= k < |indices| ==> indices[k] < total
  {
    var at := (i / |indices|) * total + indices[i % |indices|];
    0 <= at < |data| && x == Clip(convert(data[at]))
  }

  lemma {:induction false} SelectedPicks<T>(data: seq<T>, total: nat, indices: seq<nat>, convert: T -> real,
                                            frames: nat)
    requires total > 0 && frames <= |data| / total
    requires forall k :: 0 <= k < |indices| ==> indices[k] < total
    ensures Picks(Selected(data, total, indices, convert, frames), data, total, indices, convert)
  {
    if frames > 0 {
      var f, m := frames - 1, |indices|;
      SelectedPicks(data, total, indices, convert, f);
      var selection := Selected(data, total, indices, convert, frames);
      forall i | 0 <= i < |selection| ensures m > 0 && PicksAt(selection[i], data, total, indices, convert, i) {
        if i >= f * m {
          RowPicks(data, total, indices, convert, f, i - f * m);
        } else {
          assert selection[i] == Selected(data, total, indices, convert, f)[i];
        }
      }
    }
  }

  lemma RowPicks<T>(data: seq<T>, total: nat, indices: seq<nat>, convert: T -> real, f: nat, k: nat)
    requires total > 0 && f < |data| / total && k < |indices|
    requires forall j :: 0 <= j < |indices| ==> indices[j] < total
    ensures PicksAt(SelectedFrame(data, total, indices, convert, f)[k], data, total, indices, convert,
                    f * |indices| + k)
  {
    DivModUnique(f * |indices| + k, |indices|, f, k);
    IndexInBounds(|data|, total, f, indices[k]);
  }

  /** Selecting channels of interleaved tracks gives back the selected tracks. */
  lemma SelectedTrack(tracks: seq<seq<real>>, frames: nat, indices: seq<nat>, k: nat)
    requires forall t :: 0 <= t < |tracks| ==> |tracks[t]| == frames
    requires forall t, f :: 0 <= t < |tracks| && 0 <= f < frames ==> -1.0 <= tracks[t][f] <= 1.0
    requires k < |indices| && forall j :: 0 <= j < |indices| ==> indices[j] < |tracks|
    ensures indices[k] < |tracks| && frames <= |Interleave(tracks, frames)| / |tracks|
    ensures Channel(Selected(Interleave(tracks, frames), |tracks|, indices, x => x, frames), |indices|, k)
         == tracks[indices[k]]
  {
    var data, total, m := Interleave(tracks, frames), |tracks|, |indices|;
    MulDiv(frames, total);
    MulDiv(frames, m);
    var selection := Selected(data, total, indices, x => x, frames);
    SelectedPicks(data, total, indices, x => x, frames);
    forall f | 0 <= f < frames ensures Channel(selection, m, k)[f] == tracks[indices[k]][f] {
      IndexInBounds(|selection|, m, f, k);
      assert PicksAt(selection[f * m + k], data, total, indices, x => x, f * m + k);
      DivModUnique(f * m + k, m, f, k);
      InterleaveAt(tracks, frames, f, indices[k]);
    }
  }

  /** How many of the queued samples a callback sheds to make room. */
  function Shed(queued: nat, incoming: nat, limit: nat, channels: nat): (r: nat)
    requires channels > 0
    ensures r <= queued
  {
    if queued + incoming <= limit then 0
    else Min(DivCeil(queued + incoming - limit, channels) * channels, queued)
  }

  /** The queue keeps whole frames, never outgrows the limit except by one oversized callback,
      and sheds nothing while there is room. */
  lemma ShedKeepsBound(queued: nat, incoming: nat, limit: nat, channels: nat)
    requires channels > 0 && queued % channels == 0
    ensures var shed := Shed(queued, incoming, limit, channels);
      && shed % channels == 0 && DivCeil(shed, channels) == shed / channels
      && queued - shed + incoming <= (if limit < incoming then incoming else limit)
      && (queued + incoming <= limit ==> shed == 0)
      && (shed > 0 ==> queued - shed + incoming + channels > limit || shed == queued)
  {
    var shed := Shed(queued, incoming, limit, channels);
    if queued + incoming > limit {
      var excess := queued + incoming - limit;
      DivCeilBounds(excess, channels);
      MulDiv(DivCeil(excess, channels), channels);
    }
    DivCeilBounds(shed, channels);
  }

  class CaptureBuffer {
    var queue: seq<real>
    var callbackFrames: nat
    var droppedCaptureFrames: nat

    constructor ()
      ensures queue == [] && callbackFrames == 0 && droppedCaptureFrames == 0
    {
      queue, callbackFrames, droppedCaptureFrames := [], 0, 0;
    }

    /** `locked` is the outcome of the try-lock. */
    method CaptureSelectedChannels<T>(data: seq<T>, totalDriverChannels: nat, selectedIndices: seq<nat>,
                                      maximumBufferedSamples: nat, convert: T -> real, locked: bool)
      requires forall k :: 0 <= k < |selectedIndices| ==> selectedIndices[k] < totalDriverChannels
      modifies this
      ensures var frames := if totalDriverChannels == 0 || |selectedIndices| == 0 then 0
                            else |data| / totalDriverChannels;
        && callbackFrames == old(callbackFrames) + frames
        && (frames == 0 ==> queue == old(queue) && droppedCaptureFrames == old(droppedCaptureFrames))
        && (frames > 0 && !locked ==> queue == old(queue) && droppedCaptureFrames == old(droppedCaptureFrames) + frames)
        && (frames > 0 && locked ==>
              var incoming := Selected(data, totalDriverChannels, selectedIndices, convert, frames);
              var shed := Shed(|old(queue)|, |incoming|, maximumBufferedSamples, |selectedIndices|);
              && queue == old(queue)[shed..] + incoming
              && |incoming| == frames * |selectedIndices|
              && Picks(incoming, data, totalDriverChannels, selectedIndices, convert)
              && droppedCaptureFrames == old(droppedCaptureFrames) + DivCeil(shed, |selectedIndices|))
    {
      var channels := |selectedIndices|;
      if totalDriverChannels == 0 || channels == 0 {
        return;
      }
      var frameCount := Quotient(|data|, totalDriverChannels);
      if frameCount == 0 {
        return;
      }
      callbackFrames := callbackFrames + frameCount;
      if !locked {
        droppedCaptureFrames := droppedCaptureFrames + frameCount;
        return;
      }
      SelectedPicks(data, totalDriverChannels, selectedIndices, convert, frameCount);
      ghost var before := queue;
      var required := |queue| + frameCount * channels;
      if required > maximumBufferedSamples {
        var framesToDrop := DivCeil(required - maximumBufferedSamples, channels);
        var samplesToDrop := Min(framesToDrop * channels, |queue|);
        DropFront(samplesToDrop);
        droppedCaptureFrames := droppedCaptureFrames + DivCeil(samplesToDrop, channels);
      } else {
        DivCeilBounds(0, channels);
      }
      AppendSelected(data, totalDriverChannels, selectedIndices, convert, frameCount);
    }

    method DropFront(samples: nat)
      requires samples <= |queue|
      modifies this`queue
      ensures queue == old(queue)[samples..]
    {
      for n := 0 to samples
        invariant queue == old(queue)[n..]
      {
        queue := queue[1..];
      }
    }

    method AppendSelected<T>(data: seq<T>, total: nat, indices: seq<nat>, convert: T -> real, frameCount: nat)
      requires total > 0 && frameCount <= |data| / total
      requires forall k :: 0 <= k < |indices| ==> indices[k] < total
      modifies this`queue
      ensures queue == old(queue) + Selected(data, total, indices, convert, frameCount)
    {
      for frameIndex := 0 to frameCount
        invariant queue == old(queue) + Selected(data, total, indices, convert, frameIndex)
      {
        AppendFrame(data, total, indices, convert, frameIndex);
      }
    }

    method AppendFrame<T>(data: seq<T>, total: nat, indices: seq<nat>, convert: T -> real, frameIndex: nat)
      requires total > 0 && frameIndex < |data| / total
      requires forall k :: 0 <= k < |indices| ==> indices[k] < total
      modifies this`queue
      ensures queue == old(queue) + SelectedFrame(data, total, indices, convert, frameIndex)
    {
      ghost var row := SelectedFrame(data, total, indices, convert, frameIndex);
      for k := 0 to |indices|
        invariant queue == old(queue) + row[..k]
      {
        IndexInBounds(|data|, total, frameIndex, indices[k]);
        queue := queue + [Clip(convert(data[frameIndex * total + indices[k]]))];
      }
    }
  }

  // ---------------------------------------------------------------- callback and worker

  datatype Callback = Idle | Counted(selected: seq<real>)

  datatype Worker = Measuring | Draining(samples: nat)

  /** A drained packet and where in the captured stream it starts. */
  datatype Packet = Packet(start: nat, samples: seq<real>)

  datatype Capture = Capture(
    channels: nat, limit: nat, maximumFrames: nat,
    queue: seq<real>, callbackFrames: nat, dropped: nat, callback: Callback, worker: Worker,
    // the ledger: everything appended so far, how much of it has left the queue, and the packets
    captured: seq<real>, left: nat, packets: seq<Packet>)

  datatype Action =
    | Arrive(selected: seq<real>) // the callback counts its frames
    | LockRefused                 // its try-lock fails
    | LockTaken                   // its critical section
    | Measure                     // the worker's first critical section
    | Drain                       // the worker's second critical section

  function Initial(channels: nat, limit: nat, maximumFrames: nat): Capture {
    Capture(channels, limit, maximumFrames, [], 0, 0, Idle, Measuring, [], 0, [])
  }

  predicate Enabled(c: Capture, a: Action) {
    c.channels > 0 &&
    match a
    case Arrive(selected) => c.callback.Idle? && |selected| > 0 && |selected| % c.channels == 0
    case LockRefused => c.callback.Counted?
    case LockTaken => c.callback.Counted?
    case Measure => c.worker.Measuring?
    case Drain => c.worker.Draining?
  }

  function Frames(c: Capture, samples: nat): nat
    requires c.channels > 0
  {
    Quotient(samples, c.channels)
  }

  function Apply(c: Capture, a: Action): Capture
    requires Enabled(c, a)
  {
    match a
    case Arrive(selected) =>
      c.(callbackFrames := c.callbackFrames + Frames(c, |selected|), callback := Counted(selected))
    case LockRefused => c.(dropped := c.dropped + Frames(c, |c.callback.selected|), callback := Idle)
    case LockTaken =>
      var shed := Shed(|c.queue|, |c.callback.selected|, c.limit, c.channels);
      c.(queue := c.queue[shed..] + c.callback.selected, dropped := c.dropped + DivCeil(shed, c.channels),
         callback := Idle, captured := c.captured + c.callback.selected, left := c.left + shed)
    case Measure =>
      var frames := Min(Frames(c, |c.queue|), c.maximumFrames);
      if frames == 0 then c else c.(worker := Draining(frames * c.channels))
    case Drain =>
      if |c.queue| < c.worker.samples then c.(worker := Measuring)
      else c.(queue := c.queue[c.worker.samples..], worker := Measuring, left := c.left + c.worker.samples,
              packets := c.packets + [Packet(c.left, c.queue[..c.worker.samples])])
  }

  function Run(c: Capture, schedule: seq<Action>): Capture {
    if schedule == [] then c
    else
      var before := Run(c, schedule[..|schedule| - 1]);
      var a := schedule[|schedule| - 1];
      if Enabled(before, a) then Apply(before, a) else before
  }

  // ---------------------------------------------------------------- a call is two steps

  /** The queue and the counters stand where the state machine has them. */
  ghost predicate Shows(buffer: CaptureBuffer, c: Capture)
    reads buffer
  {
    buffer.queue == c.queue && buffer.callbackFrames == c.callbackFrames && buffer.droppedCaptureFrames == c.dropped
  }

  lemma SelectedFrames<T>(data: seq<T>, total: nat, indices: seq<nat>, convert: T -> real)
    requires total > 0 && |indices| > 0 && |data| / total > 0
    requires forall k :: 0 <= k < |indices| ==> indices[k] < total
    ensures var incoming := Selected(data, total, indices, convert, |data| / total);
      && |incoming| > 0 && |incoming| % |indices| == 0 && Quotient(|incoming|, |indices|) == |data| / total
  {
    MulDiv(|data| / total, |indices|);
    MulLe(1, |data| / total, |indices|);
  }

  /** One call of the callback, undisturbed, is the step that counts its frames followed by its
      try-lock; a call without a whole frame is no step at all. */
  method CaptureInSteps<T>(buffer: CaptureBuffer, data: seq<T>, total: nat, indices: seq<nat>, limit: nat,
                           convert: T -> real, locked: bool, ghost c: Capture)
    requires Shows(buffer, c) && c.callback.Idle? && c.channels == |indices| && c.limit == limit
    requires forall k :: 0 <= k < |indices| ==> indices[k] < total
    modifies buffer
    ensures total == 0 || |indices| == 0 || |data| / total == 0 ==> Shows(buffer, c)
    ensures total > 0 && |indices| > 0 && |data| / total > 0 ==>
      var arrive := Arrive(Selected(data, total, indices, convert, |data| / total));
      var decide := if locked then LockTaken else LockRefused;
      && Enabled(c, arrive) && Enabled(Apply(c, arrive), decide)
      && Shows(buffer, Apply(Apply(c, arrive), decide)) && Apply(Apply(c, arrive), decide).callback.Idle?
  {
    buffer.CaptureSelectedChannels(data, total, indices, limit, convert, locked);
    if total > 0 && |indices| > 0 && |data| / total > 0 {
      SelectedFrames(data, total, indices, convert);
    }
  }

  function DrainedSamples(packets: seq<Packet>): nat {
    if packets == [] then 0 else DrainedSamples(packets[..|packets| - 1]) + |packets[|packets| - 1].samples|
  }

  function CallbackSamples(c: Callback): nat {
    if c.Counted? then |c.selected| else 0
  }

  /** The queue is what was captured and has not left; everything is whole frames. */
  ghost predicate Aligned(c: Capture) {
    && c.channels > 0
    && |c.captured| % c.channels == 0 && c.left % c.channels == 0 && |c.queue| % c.channels == 0
    && CallbackSamples(c.callback) % c.channels == 0 && DrainedSamples(c.packets) % c.channels == 0
    && (c.worker.Draining? ==> c.worker.samples % c.channels == 0)
    && c.left <= |c.captured| && c.queue == c.captured[c.left..]
  }

  /** Frames the callback reported are dropped, drained, queued, or about to be decided on. */
  ghost predicate Accounted(c: Capture)
    requires c.channels > 0
  {
    c.callbackFrames == c.dropped + Frames(c, DrainedSamples(c.packets)) + Frames(c, |c.queue|)
                        + Frames(c, CallbackSamples(c.callback))
  }

  ghost predicate PacketOk(c: Capture, p: Packet) {
    && p.start + |p.samples| <= c.left <= |c.captured| && p.samples == c.captured[p.start..p.start + |p.samples|]
    && 0 < |p.samples| <= c.maximumFrames * c.channels
  }

  /** The packets are stretches of the captured stream, in order and disjoint, and each fits
      the packet budget. */
  ghost predicate InOrder(c: Capture) {
    && (c.worker.Draining? ==> 0 < c.worker.samples <= c.maximumFrames * c.channels)
    && (forall i :: 0 <= i < |c.packets| ==> PacketOk(c, c.packets[i]))
    && (forall i, j :: 0 <= i < j < |c.packets| ==> c.packets[i].start + |c.packets[i].samples| <= c.packets[j].start)
  }

  ghost predicate Inv(c: Capture) {
    Aligned(c) && Accounted(c) && InOrder(c)
  }

  lemma AddAligned(a: nat, b: nat, n: nat)
    requires n > 0 && a % n == 0 && b % n == 0
    ensures (a + b) % n == 0 && (a + b) / n == a / n + b / n
  {
    assert a == (a / n) * n;
    DivModShift(b, n, a / n);
  }

  lemma SubtractAligned(a: nat, b: nat, n: nat)
    requires n > 0 && b <= a && a % n == 0 && b % n == 0
    ensures (a - b) % n == 0 && (a - b) / n + b / n == a / n
  {
    assert b == (b / n) * n;
    DivModShift(a - b, n, b / n);
  }

  lemma TakenKeepsAligned(c: Capture)
    requires Aligned(c) && c.callback.Counted?
    ensures Aligned(Apply(c, LockTaken))
  {
    var incoming := |c.callback.selected|;
    var shed := Shed(|c.queue|, incoming, c.limit, c.channels);
    ShedKeepsBound(|c.queue|, incoming, c.limit, c.channels);
    SubtractAligned(|c.queue|, shed, c.channels);
    AddAligned(|c.queue| - shed, incoming, c.channels);
    AddAligned(|c.captured|, incoming, c.channels);
    AddAligned(c.left, shed, c.channels);
    SuffixGrows(c.captured, c.left, shed, c.callback.selected);
    var d := Apply(c, LockTaken);
    assert |d.queue| == (|c.queue| - shed) + incoming && |d.captured| == |c.captured| + incoming;
    assert CallbackSamples(d.callback) == 0 && 0 % c.channels == 0 && d.packets == c.packets;
  }

  lemma SuffixGrows(captured: seq<real>, left: nat, shed: nat, incoming: seq<real>)
    requires left + shed <= |captured|
    ensures captured[left..][shed..] + incoming == (captured + incoming)[left + shed..]
  {
  }

  lemma TakenKeepsAccount(c: Capture)
    requires Aligned(c) && Accounted(c) && c.callback.Counted?
    ensures Accounted(Apply(c, LockTaken))
  {
    var incoming := |c.callback.selected|;
    var shed := Shed(|c.queue|, incoming, c.limit, c.channels);
    ShedKeepsBound(|c.queue|, incoming, c.limit, c.channels);
    SubtractAligned(|c.queue|, shed, c.channels);
    AddAligned(|c.queue| - shed, incoming, c.channels);
    assert Frames(c, 0) == 0;
  }

  /** Appending to the captured stream and shedding leave the packets where they are. */
  lemma TakenKeepsOrder(c: Capture, d: Capture)
    requires InOrder(c) && d.packets == c.packets && c.captured <= d.captured && c.left <= d.left <= |d.captured|
    requires d.channels == c.channels && d.maximumFrames == c.maximumFrames
    requires d.worker.Draining? ==> 0 < d.worker.samples <= d.maximumFrames * d.channels
    ensures InOrder(d)
  {
    forall i | 0 <= i < |d.packets| ensures PacketOk(d, d.packets[i]) {
      assert PacketOk(c, c.packets[i]);
    }
  }

  lemma DrainedAppend(packets: seq<Packet>, p: Packet)
    ensures DrainedSamples(packets + [p]) == DrainedSamples(packets) + |p.samples|
  {
    assert (packets + [p])[..|packets|] == packets;
  }

  /** Moving n samples from the queue to the packets moves whole frames. */
  lemma FramesMove(queued: nat, drained: nat, n: nat, channels: nat)
    requires channels > 0 && n <= queued
    requires queued % channels == 0 && drained % channels == 0 && n % channels == 0
    ensures (queued - n) % channels == 0 && (drained + n) % channels == 0
    ensures Quotient(drained + n, channels) + Quotient(queued - n, channels)
         == Quotient(drained, channels) + Quotient(queued, channels)
  {
    SubtractAligned(queued, n, channels);
    AddAligned(drained, n, channels);
  }

  /** What the second critical section does when the queue is long enough. */
  lemma DrainMoves(c: Capture)
    requires c.channels > 0 && c.worker.Draining? && c.worker.samples <= |c.queue|
    requires c.left <= |c.captured| && c.queue == c.captured[c.left..]
    ensures var d, n := Apply(c, Drain), c.worker.samples;
      && |d.queue| == |c.queue| - n && d.left == c.left + n <= |d.captured| && d.queue == d.captured[d.left..]
      && DrainedSamples(d.packets) == DrainedSamples(c.packets) + n
      && d.channels == c.channels && d.captured == c.captured && d.worker.Measuring? && d.callback == c.callback
      && d.callbackFrames == c.callbackFrames && d.dropped == c.dropped
  {
    DrainedAppend(c.packets, Packet(c.left, c.queue[..c.worker.samples]));
  }

  lemma DrainKeepsAccount(c: Capture)
    requires Aligned(c) && Accounted(c) && c.worker.Draining?
    ensures Aligned(Apply(c, Drain)) && Accounted(Apply(c, Drain))
  {
    if c.worker.samples <= |c.queue| {
      DrainMoves(c);
      FramesMove(|c.queue|, DrainedSamples(c.packets), c.worker.samples, c.channels);
      AddAligned(c.left, c.worker.samples, c.channels);
    }
  }

  lemma DrainKeepsOrder(c: Capture)
    requires c.channels > 0 && c.left <= |c.captured| && c.queue == c.captured[c.left..]
    requires InOrder(c) && c.worker.Draining?
    ensures InOrder(Apply(c, Drain))
  {
    var d := Apply(c, Drain);
    forall i | 0 <= i < |d.packets| ensures PacketOk(d, d.packets[i]) {
      if i < |c.packets| { assert PacketOk(c, c.packets[i]); }
    }
    forall i, j | 0 <= i < j < |d.packets|
      ensures d.packets[i].start + |d.packets[i].samples| <= d.packets[j].start
    {
      assert PacketOk(c, c.packets[i]);
    }
  }

  lemma DrainKeepsInv(c: Capture)
    requires Inv(c) && c.worker.Draining?
    ensures Inv(Apply(c, Drain))
  {
    DrainKeepsAccount(c);
    DrainKeepsOrder(c);
  }

  lemma TakenKeepsInv(c: Capture)
    requires Inv(c) && c.callback.Counted?
    ensures Inv(Apply(c, LockTaken))
  {
    TakenKeepsAligned(c);
    TakenKeepsAccount(c);
    TakenKeepsOrder(c, Apply(c, LockTaken));
  }

  /** The steps that leave the queue alone. */
  lemma UndecidedKeepsInv(c: Capture, a: Action)
    requires Inv(c) && Enabled(c, a) && (a.Arrive? || a.LockRefused?)
    ensures Inv(Apply(c, a))
  {
    assert Frames(c, 0) == 0;
    TakenKeepsOrder(c, Apply(c, a));
  }

  lemma MeasureKeepsInv(c: Capture)
    requires Inv(c) && c.worker.Measuring?
    ensures Inv(Apply(c, Measure))
  {
    var frames := Min(Frames(c, |c.queue|), c.maximumFrames);
    MulDiv(frames, c.channels);
    MulLe(1, c.channels, frames);
    MulLe(frames, c.maximumFrames, c.channels);
    TakenKeepsOrder(c, Apply(c, Measure));
  }

  lemma StepKeepsInv(c: Capture, a: Action)
    requires Inv(c) && Enabled(c, a)
    ensures Inv(Apply(c, a))
  {
    match a
    case LockTaken => TakenKeepsInv(c);
    case Drain => DrainKeepsInv(c);
    case Measure => MeasureKeepsInv(c);
    case Arrive(_) => UndecidedKeepsInv(c, a);
    case LockRefused => UndecidedKeepsInv(c, a);
  }

  /** Accounting, alignment and order hold in every interleaving, whenever try-locks fail. */
  lemma {:induction false} EveryRunKeepsInv(channels: nat, limit: nat, maximumFrames: nat, schedule: seq<Action>)
    requires channels > 0
    ensures Inv(Run(Initial(channels, limit, maximumFrames), schedule))
    decreases |schedule|
  {
    if schedule != [] {
      var earlier := schedule[..|schedule| - 1];
      EveryRunKeepsInv(channels, limit, maximumFrames, earlier);
      var before, a := Run(Initial(channels, limit, maximumFrames), earlier), schedule[|schedule| - 1];
      if Enabled(before, a) { StepKeepsInv(before, a); }
    }
  }

  /** An undisturbed turn of the worker takes a full packet, or everything that waits. */
  lemma TurnTakesAll(c: Capture)
    requires Inv(c) && c.worker.Measuring? && c.queue != [] && c.maximumFrames > 0
    ensures var d := Apply(c, Measure);
      && d.worker.Draining? && Apply(d, Drain).worker.Measuring?
      && |Apply(d, Drain).packets| == |c.packets| + 1
      && Apply(d, Drain).packets[|c.packets|].samples + Apply(d, Drain).queue == c.queue
      && (Apply(d, Drain).queue == [] || |Apply(d, Drain).packets[|c.packets|].samples| == c.maximumFrames * c.channels)
  {
    var waiting := Frames(c, |c.queue|);
    assert |c.queue| == waiting * c.channels;
    MulLe(Min(waiting, c.maximumFrames), waiting, c.channels);
    if waiting > c.maximumFrames { MulLe(c.maximumFrames, waiting, c.channels); }
  }

  /** A callback that gets the lock leaves a suffix of what was there, then its own frames. */
  lemma TakenLeavesSuffix(c: Capture)
    requires Inv(c) && c.callback.Counted?
    ensures var d, incoming := Apply(c, LockTaken), c.callback.selected;
      exists k :: 0 <= k <= |c.queue| && d.queue == (c.queue + incoming)[k..]
                  && |d.queue| <= (if c.limit < |incoming| then |incoming| else c.limit)
                  && (|c.queue| + |incoming| <= c.limit ==> k == 0)
  {
    var incoming := c.callback.selected;
    var shed := Shed(|c.queue|, |incoming|, c.limit, c.channels);
    ShedKeepsBound(|c.queue|, |incoming|, c.limit, c.channels);
    assert (c.queue + incoming)[shed..] == c.queue[shed..] + incoming;
  }
}
