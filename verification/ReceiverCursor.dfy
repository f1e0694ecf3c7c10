/** The receiver plug-in's playback cursor (apps/plugin/src/lib.rs): a worker queues blocks of
    any length and channel count, and the audio callback plays them frame by frame. */
module ReceiverCursor {
  import opened Interleaving
  import opened BlockQueue
  import opened Wrappers

  const QUEUE_CAPACITY: nat := 16

  datatype Block = Block(samples: seq<real>, channels: nat)

  /** The whole frames of a run of samples; an incomplete tail is not a frame. */
  function WholeFrames(samples: seq<real>, channels: nat): (r: seq<seq<real>>)
    requires channels > 0
  {
    if |samples| < channels then [] else [samples[..channels]] + WholeFrames(samples[channels..], channels)
  }

  /** The length formula: a block of n samples holds n / channels frames, each of them whole. */
  lemma {:induction false} WholeFramesAt(samples: seq<real>, channels: nat, f: nat)
    requires channels > 0 && f < |samples| / channels
    ensures |WholeFrames(samples, channels)| == |samples| / channels
    ensures (f + 1) * channels <= |samples|
    ensures WholeFrames(samples, channels)[f] == samples[f * channels..(f + 1) * channels]
    decreases |samples|
  {
    MulLe(f + 1, |samples| / channels, channels);
    assert (|samples| / channels) * channels <= |samples|;
    assert (f + 1) * channels == f * channels + channels;
    var rest := samples[channels..];
    MulDiv(1, channels);
    DivModShift(|rest|, channels, 1);
    if f > 0 {
      WholeFramesAt(rest, channels, f - 1);
      assert rest[(f - 1) * channels..f * channels] == samples[f * channels..(f + 1) * channels] by {
        assert (f - 1) * channels == f * channels - channels;
      }
    } else {
      WholeFramesCount(rest, channels);
      assert 0 * channels == 0;
    }
  }

  lemma {:induction false} WholeFramesCount(samples: seq<real>, channels: nat)
    requires channels > 0
    ensures |WholeFrames(samples, channels)| == |samples| / channels
    decreases |samples|
  {
    if |samples| >= channels {
      WholeFramesCount(samples[channels..], channels);
      DivModShift(|samples| - channels, channels, 1);
    } else {
      DivModUnique(|samples|, channels, 0, |samples|);
    }
  }

  predicate HaveChannels(blocks: seq<Block>) {
    forall i :: 0 <= i < |blocks| ==> blocks[i].channels > 0
  }

  function QueuedFrames(blocks: seq<Block>): seq<seq<real>>
    requires HaveChannels(blocks)
  {
    if blocks == [] then []
    else WholeFrames(blocks[0].samples, blocks[0].channels) + QueuedFrames(blocks[1..])
  }

  lemma {:induction false} QueuedFramesAppend(blocks: seq<Block>, b: Block)
    requires b.channels > 0 && HaveChannels(blocks)
    ensures QueuedFrames(blocks + [b]) == QueuedFrames(blocks) + WholeFrames(b.samples, b.channels)
    decreases |blocks|
  {
    if blocks == [] {
      assert blocks + [b] == [b];
      assert QueuedFrames([b]) == WholeFrames(b.samples, b.channels) + QueuedFrames([]);
    } else {
      var head, tail := WholeFrames(blocks[0].samples, blocks[0].channels), QueuedFrames(blocks[1..]);
      QueuedFramesAppend(blocks[1..], b);
      assert (blocks + [b])[1..] == blocks[1..] + [b];
      assert head + (tail + WholeFrames(b.samples, b.channels)) == (head + tail) + WholeFrames(b.samples, b.channels);
    }
  }

  /** What the host hears on channel c of a frame: missing channels are silent, extra ones unheard. */
  function Heard(frame: seq<real>, c: nat): real {
    if c < |frame| then frame[c] else 0.0
  }

  /** What a callback that starts with these frames waiting plays at frame f. */
  function Expected(waiting: seq<seq<real>>, f: nat, c: nat): real {
    if f < |waiting| then Heard(waiting[f], c) else 0.0
  }

  lemma FrameSlice(samples: seq<real>, channels: nat, f: nat, from: nat)
    requires channels > 0 && f < Quotient(|samples|, channels) && from == f * channels
    ensures from + channels <= |samples| && |WholeFrames(samples, channels)| > f
    ensures WholeFrames(samples, channels)[f] == samples[from..from + channels]
  {
    WholeFramesAt(samples, channels, f);
    LastFrameLength(f + 1, channels);
  }

  /** What is heard of the block at the head of the queue, by its own samples: frame f is samples
      f * n to f * n + n - 1 of an n-channel block, channel by channel, and a channel the block lacks
      is silent. */
  lemma HeardOfHead(blocks: seq<Block>, f: nat, c: nat, from: nat)
    requires blocks != [] && HaveChannels(blocks)
    requires f < Quotient(|blocks[0].samples|, blocks[0].channels) && from == f * blocks[0].channels
    ensures from + blocks[0].channels <= |blocks[0].samples|
    ensures Expected(QueuedFrames(blocks), f, c)
         == if c < blocks[0].channels then blocks[0].samples[from + c] else 0.0
  {
    FrameSlice(blocks[0].samples, blocks[0].channels, f, from);
    assert QueuedFrames(blocks)[f] == WholeFrames(blocks[0].samples, blocks[0].channels)[f];
  }

  /** Behind its whole frames the rest of the queue is heard, and silence at the end. */
  lemma HeardBehindHead(blocks: seq<Block>, f: nat, c: nat)
    requires HaveChannels(blocks)
    ensures blocks == [] ==> Expected(QueuedFrames(blocks), f, c) == 0.0
    ensures blocks != [] ==>
      Expected(QueuedFrames(blocks), |blocks[0].samples| / blocks[0].channels + f, c)
      == Expected(QueuedFrames(blocks[1..]), f, c)
  {
    if blocks != [] {
      WholeFramesCount(blocks[0].samples, blocks[0].channels);
      HeardBehind(WholeFrames(blocks[0].samples, blocks[0].channels), QueuedFrames(blocks[1..]), f, c);
    }
  }

  lemma HeardBehind(head: seq<seq<real>>, rest: seq<seq<real>>, f: nat, c: nat)
    ensures Expected(head + rest, |head| + f, c) == Expected(rest, f, c)
  {
  }

  class Receiver {
    const free: ArrayQueue<Block>
    const ready: ArrayQueue<Block>
    var current: Option<Block>
    var blockOffset: nat
    var currentChannels: nat

    ghost predicate Valid()
      reads this, free, ready
    {
      && free != ready && free.Valid() && ready.Valid()
      && free.capacity == ready.capacity == QUEUE_CAPACITY
      && |free.items| + |ready.items| + (if current.Some? then 1 else 0) == QUEUE_CAPACITY
      && HaveChannels(ready.items)
      && (current.Some? ==> currentChannels == current.value.channels > 0 && blockOffset <= |current.value.samples|)
    }

    /** Everything waiting to be played: the rest of the current block, then the queue. */
    ghost function Playable(): seq<seq<real>>
      requires Valid()
      reads this, free, ready
    {
      (if current.Some? then WholeFrames(current.value.samples[blockOffset..], currentChannels) else [])
      + QueuedFrames(ready.items)
    }

    constructor ()
      ensures Valid() && fresh(free) && fresh(ready) && Playable() == []
      ensures |free.items| == QUEUE_CAPACITY && ready.items == [] && current.None?
    {
      free := new ArrayQueue<Block>(QUEUE_CAPACITY);
      ready := new ArrayQueue<Block>(QUEUE_CAPACITY);
      current, blockOffset, currentChannels := None, 0, 0;
      new;
      for k := 0 to QUEUE_CAPACITY
        invariant free != ready && free.Valid() && ready.Valid() && ready.items == [] && fresh(free) && fresh(ready)
        invariant free.capacity == ready.capacity == QUEUE_CAPACITY
        invariant |free.items| == k && current.None?
      {
        var ok := free.Push(Block([], 1));
      }
    }

    /** The callback's inner loop: moves on to the next block that still has a whole frame. It
        neither loses nor repeats a playable frame, and returns every used block. */
    method FindFrame()
      requires Valid()
      modifies this, free, ready
      ensures Valid() && Playable() == old(Playable())
      ensures current.Some? ==> blockOffset + currentChannels <= |current.value.samples|
      ensures current.None? ==> Playable() == []
    {
      var searching := true;
      while searching && (current.None?
                          || (currentChannels > 0 && blockOffset + currentChannels > |current.value.samples|))
        invariant Valid() && Playable() == old(Playable())
        invariant !searching ==> current.None? && ready.items == []
        decreases searching, |ready.items|
      {
        searching := NextBlock();
      }
    }

    /** Gives the exhausted block back and takes the oldest waiting one; false if none waits. */
    method NextBlock() returns (found: bool)
      requires Valid()
      requires current.Some? ==> blockOffset + currentChannels > |current.value.samples|
      modifies this, free, ready
      ensures Valid() && Playable() == old(Playable())
      ensures found <==> old(ready.items) != []
      ensures found ==> |ready.items| < |old(ready.items)|
      ensures !found ==> current.None? && ready.items == []
    {
      assert Playable() == QueuedFrames(ready.items);
      if current.Some? {
        var ok := free.Push(current.value);
        current := None;
      }
      var next := ready.Pop();
      if next.None? {
        return false;
      }
      currentChannels := next.value.channels;
      current := next;
      blockOffset := 0;
      assert next.value.samples[0..] == next.value.samples;
      return true;
    }

    /** One callback: the host buffer receives the next playable frames in order, then silence
        once none is left. */
    method Process(buffer: array2<real>)
      requires Valid()
      modifies this, free, ready, buffer
      ensures Valid()
      ensures Playable() == old(Playable())[Min(buffer.Length0, |old(Playable())|)..]
      ensures forall f, c :: 0 <= f < buffer.Length0 && 0 <= c < buffer.Length1 ==>
        buffer[f, c] == Expected(old(Playable()), f, c)
    {
      ghost var all := Playable();
      for f := 0 to buffer.Length0
        invariant Valid() && Playable() == all[Min(f, |all|)..]
        invariant forall g, c :: 0 <= g < f && 0 <= c < buffer.Length1 ==> buffer[g, c] == Expected(all, g, c)
      {
        PlayNext(buffer, f, all);
      }
    }

    /** One turn of the callback's loop over output frames. */
    method PlayNext(buffer: array2<real>, f: nat, ghost all: seq<seq<real>>)
      requires Valid() && f < buffer.Length0 && Playable() == all[Min(f, |all|)..]
      modifies this, free, ready, buffer
      ensures Valid() && Playable() == all[Min(f + 1, |all|)..]
      ensures forall c :: 0 <= c < buffer.Length1 ==> buffer[f, c] == Expected(all, f, c)
      ensures forall g, c :: 0 <= g < buffer.Length0 && g != f && 0 <= c < buffer.Length1 ==>
        buffer[g, c] == old(buffer[g, c])
    {
      FindFrame();
      PlayFrame(buffer, f);
      assert all[Min(f, |all|)..] != [] ==> all[Min(f, |all|)..][1..] == all[Min(f + 1, |all|)..];
    }

    /** One output frame: the frame at the cursor, or silence; then the cursor moves past it. */
    method PlayFrame(buffer: array2<real>, f: nat)
      requires Valid() && f < buffer.Length0
      requires current.Some? ==> blockOffset + currentChannels <= |current.value.samples|
      requires current.None? ==> Playable() == []
      modifies this`blockOffset, buffer
      ensures Valid()
      ensures Playable() == if old(Playable()) == [] then [] else old(Playable())[1..]
      ensures forall c :: 0 <= c < buffer.Length1 ==>
        buffer[f, c] == Expected(old(Playable()), 0, c)
      ensures forall g, c :: 0 <= g < buffer.Length0 && g != f && 0 <= c < buffer.Length1 ==>
        buffer[g, c] == old(buffer[g, c])
    {
      ghost var frame := [];
      if current.Some? {
        ghost var samples := current.value.samples;
        ghost var rest := samples[blockOffset..];
        frame := rest[..currentChannels];
        assert rest[currentChannels..] == samples[blockOffset + currentChannels..];
        assert Playable()
            == [frame] + (WholeFrames(rest[currentChannels..], currentChannels) + QueuedFrames(ready.items));
      }
      FillRow(buffer, f, frame);
      if current.Some? && currentChannels > 0 {
        blockOffset := blockOffset + currentChannels;
      }
    }

    method FillRow(buffer: array2<real>, f: nat, ghost frame: seq<real>)
      requires f < buffer.Length0
      requires current.Some? ==> blockOffset + currentChannels <= |current.value.samples|
      requires current.Some? ==> frame == current.value.samples[blockOffset..blockOffset + currentChannels]
      requires current.None? ==> frame == []
      modifies buffer
      ensures forall c :: 0 <= c < buffer.Length1 ==> buffer[f, c] == Heard(frame, c)
      ensures forall g, c :: 0 <= g < buffer.Length0 && g != f && 0 <= c < buffer.Length1 ==>
        buffer[g, c] == old(buffer[g, c])
    {
      for ch := 0 to buffer.Length1
        invariant forall c :: 0 <= c < ch ==> buffer[f, c] == Heard(frame, c)
        invariant forall g, c :: 0 <= g < buffer.Length0 && g != f && 0 <= c < buffer.Length1 ==>
          buffer[g, c] == old(buffer[g, c])
      {
        buffer[f, ch] :=
          if current.Some? && ch < currentChannels && blockOffset + ch < |current.value.samples|
          then current.value.samples[blockOffset + ch] else 0.0;
      }
    }

    /** The worker queues a packet, reusing an idle block or else the oldest waiting one. With
        sixteen blocks and at most one being played there is always one, and no push fails. */
    method Deliver(samples: seq<real>, channels: nat)
      requires Valid() && channels > 0
      modifies free, ready
      ensures Valid()
      ensures old(free.items) != [] ==> Playable() == old(Playable()) + WholeFrames(samples, channels)
      ensures old(free.items) == [] ==> ready.items == old(ready.items)[1..] + [Block(samples, channels)]
    {
      QueuedFramesAppend(ready.items, Block(samples, channels));
      var block := free.Pop();
      if block.None? {
        block := ready.Pop();
      }
      if block.Some? {
        var ok := ready.Push(Block(samples, channels));
      }
    }
  }
}
