/** The sender plug-in's block pool (apps/plugin/src/lib.rs): four blocks circulate between the
    audio callback and the publisher thread through a free and a ready queue. Every queue
    operation, atomic load, store and read-modify-write is one step; everything a thread does
    between two of them is local to it and folded into the step before. */
module SenderPool {
  import opened Interleaving
  import opened BlockQueue
  import opened Schedules
  import opened Wrappers

  const AUDIO_BLOCK_COUNT: nat := 4
  const READY_CAPACITY: nat := AUDIO_BLOCK_COUNT
  const FREE_CAPACITY: nat := AUDIO_BLOCK_COUNT * 2

  /** `tag` numbers the callbacks that filled a block; the model needs it to speak of order. */
  datatype Block = Block(samples: seq<real>, tag: nat)

  /** What the host hands to one callback. */
  datatype HostBuffer = HostBuffer(channels: nat, frames: nat, samples: seq<real>)

  datatype Callback =
    | Idle
    | DiscardPop
    | DiscardPush(block: Block)
    | PopFree(input: seq<real>)
    | PopReady(input: seq<real>)
    | CountStolen(block: Block, input: seq<real>)
    | PushReady(block: Block)
    | CountUnfit(frames: nat)
    | CountStarved(input: seq<real>)
    | CountRejected(block: Block)
    | Recycle(block: Block)

  datatype Publisher =
    | CheckRunning
    | CheckReady
    | CheckEnabled
    | DrainPop
    | DrainPush(block: Block)
    | TakeReady
    | ReturnBlock(block: Block)
    | Stats
    | Exited

  datatype Pool = Pool(
    channels: nat, maximumFrames: nat,
    free: seq<Block>, ready: seq<Block>, enabled: bool, running: bool, dropped: nat,
    callback: Callback, publisher: Publisher,
    // the ledger
    submitted: seq<seq<real>>, taken: seq<Block>, stolen: seq<Block>, discarded: seq<Block>,
    offered: nat, refused: nat, reported: nat, failedPushes: nat)

  datatype Action =
    | Host(buffer: HostBuffer, publishing: bool) // the host calls `process`
    | CallbackStep
    | PublisherStep(statsDue: bool)
    | SetEnabled(value: bool)                    // the publish parameter is changed elsewhere
    | Stop                                       // deactivation

  function Initial(channels: nat, maximumFrames: nat): Pool {
    Pool(channels, maximumFrames, seq(AUDIO_BLOCK_COUNT, _ => Block([], 0)), [], false, true, 0,
         Idle, CheckRunning, [], [], [], [], 0, 0, 0, 0)
  }

  function Frames(channels: nat, samples: seq<real>): nat
    requires channels > 0
  {
    Quotient(|samples|, channels)
  }

  function FramesOf(channels: nat, blocks: seq<Block>): nat
    requires channels > 0
  {
    if blocks == [] then 0 else Frames(channels, blocks[0].samples) + FramesOf(channels, blocks[1..])
  }

  function PushFree(p: Pool, block: Block): Pool {
    if |p.free| < FREE_CAPACITY then p.(free := p.free + [block]) else p.(failedPushes := p.failedPushes + 1)
  }

  // ---------------------------------------------------------------- the steps

  predicate Enabled(p: Pool, a: Action) {
    p.channels > 0 &&
    match a
    case Host(buffer, _) =>
      p.running && p.callback.Idle? && |buffer.samples| == buffer.frames * buffer.channels
    case CallbackStep => !p.callback.Idle?
    case PublisherStep(_) => !p.publisher.Exited?
    case SetEnabled(_) => true
    case Stop => p.callback.Idle?
  }

  function Process(p: Pool, buffer: HostBuffer, publishing: bool): Pool {
    var q := p.(enabled := publishing);
    if !publishing then q.(callback := DiscardPop)
    else if buffer.frames == 0 then q
    else if buffer.channels != p.channels || buffer.frames > p.maximumFrames then
      q.(offered := p.offered + buffer.frames, callback := CountUnfit(buffer.frames))
    else
      q.(offered := p.offered + buffer.frames, callback := PopFree(buffer.samples))
  }

  function StepCallback(p: Pool): Pool
    requires p.channels > 0
  {
    match p.callback
    case Idle => p
    case DiscardPop =>
      if p.ready == [] then p.(callback := Idle)
      else p.(ready := p.ready[1..], callback := DiscardPush(p.ready[0]),
              discarded := p.discarded + [p.ready[0]])
    case DiscardPush(block) => PushFree(p, block.(samples := [])).(callback := DiscardPop)
    case PopFree(input) =>
      if p.free == [] then p.(callback := PopReady(input))
      else p.(free := p.free[1..], callback := CountStolen(p.free[0], input))
    case PopReady(input) =>
      if p.ready == [] then p.(callback := CountStarved(input))
      else p.(ready := p.ready[1..], callback := CountStolen(p.ready[0], input), stolen := p.stolen + [p.ready[0]])
    case CountStolen(block, input) =>
      p.(dropped := p.dropped + Frames(p.channels, block.samples),
         submitted := p.submitted + [input],
         callback := PushReady(Block(input, |p.submitted|)))
    case PushReady(block) =>
      if |p.ready| < READY_CAPACITY then p.(ready := p.ready + [block], callback := Idle)
      else p.(callback := CountRejected(block), failedPushes := p.failedPushes + 1)
    case CountUnfit(frames) => p.(dropped := p.dropped + frames, refused := p.refused + frames, callback := Idle)
    case CountStarved(input) =>
      var frames := Frames(p.channels, input);
      p.(dropped := p.dropped + frames, refused := p.refused + frames, callback := Idle)
    case CountRejected(block) =>
      p.(dropped := p.dropped + Frames(p.channels, block.samples), stolen := p.stolen + [block],
         callback := Recycle(block))
    case Recycle(block) => PushFree(p, block).(callback := Idle)
  }

  function StepPublisher(p: Pool, statsDue: bool): Pool
    requires p.channels > 0
  {
    match p.publisher
    case CheckRunning => p.(publisher := if p.running then CheckEnabled else CheckReady)
    case CheckReady => p.(publisher := if p.ready == [] then Exited else CheckEnabled)
    case CheckEnabled => p.(publisher := if p.enabled then TakeReady else DrainPop)
    case DrainPop =>
      if p.ready == [] then p.(publisher := CheckRunning)
      else p.(ready := p.ready[1..], publisher := DrainPush(p.ready[0]),
              discarded := p.discarded + [p.ready[0]])
    case DrainPush(block) => PushFree(p, block.(samples := [])).(publisher := DrainPop)
    case TakeReady =>
      if p.ready == [] then p.(publisher := Stats)
      else p.(ready := p.ready[1..], publisher := ReturnBlock(p.ready[0]), taken := p.taken + [p.ready[0]])
    case ReturnBlock(block) => PushFree(p, block.(samples := [])).(publisher := Stats)
    case Stats =>
      if statsDue then p.(reported := p.reported + p.dropped, dropped := 0, publisher := CheckRunning)
      else p.(publisher := CheckRunning)
    case Exited => p
  }

  function Apply(p: Pool, a: Action): Pool
    requires p.channels > 0
  {
    match a
    case Host(buffer, publishing) => Process(p, buffer, publishing)
    case CallbackStep => StepCallback(p)
    case PublisherStep(statsDue) => StepPublisher(p, statsDue)
    case SetEnabled(value) => p.(enabled := value)
    case Stop => p.(enabled := false, running := false)
  }

  /** Any interleaving: the schedule says who moves; a move that is not possible is passed over. */
  function Run(p: Pool, schedule: seq<Action>): Pool {
    if schedule == [] then p
    else
      var before := Run(p, schedule[..|schedule| - 1]);
      var a := schedule[|schedule| - 1];
      if Enabled(before, a) then Apply(before, a) else before
  }

  // ---------------------------------------------------------------- the invariant

  function CallbackHolds(c: Callback): nat {
    if c.DiscardPush? || c.CountStolen? || c.PushReady? || c.CountRejected? || c.Recycle? then 1 else 0
  }

  function PublisherHolds(b: Publisher): nat {
    if b.DrainPush? || b.ReturnBlock? then 1 else 0
  }

  /** Frames offered by the host that the callback has not passed on yet. */
  function CallbackFrames(channels: nat, c: Callback): nat
    requires channels > 0
  {
    match c
    case PopFree(input) => Frames(channels, input)
    case PopReady(input) => Frames(channels, input)
    case CountStarved(input) => Frames(channels, input)
    case CountStolen(block, input) => Frames(channels, block.samples) + Frames(channels, input)
    case PushReady(block) => Frames(channels, block.samples)
    case CountRejected(block) => Frames(channels, block.samples)
    case CountUnfit(frames) => frames
    case _ => 0
  }

  function InFlight(p: Pool): nat
    requires p.channels > 0
  {
    FramesOf(p.channels, p.ready) + CallbackFrames(p.channels, p.callback)
  }

  /** Every frame offered is counted once. */
  ghost predicate Balanced(p: Pool)
    requires p.channels > 0
  {
    p.offered
      == FramesOf(p.channels, p.taken) + p.dropped + p.reported + FramesOf(p.channels, p.discarded) + InFlight(p)
  }

  /** Frames the callback has been offered and has neither submitted nor refused yet. */
  function Undecided(channels: nat, c: Callback): nat
    requires channels > 0
  {
    match c
    case PopFree(input) => Frames(channels, input)
    case PopReady(input) => Frames(channels, input)
    case CountStarved(input) => Frames(channels, input)
    case CountStolen(_, input) => Frames(channels, input)
    case CountUnfit(frames) => frames
    case _ => 0
  }

  function TotalFrames(channels: nat, inputs: seq<seq<real>>): nat
    requires channels > 0
  {
    if inputs == [] then 0
    else TotalFrames(channels, inputs[..|inputs| - 1]) + Frames(channels, inputs[|inputs| - 1])
  }

  /** Frames of a stolen block that are still to be added to the drop counter. */
  function Uncounted(channels: nat, c: Callback): nat
    requires channels > 0
  {
    if c.CountStolen? then Frames(channels, c.block.samples) else 0
  }

  /** What was offered was submitted or refused, or is undecided. */
  ghost predicate Booked(channels: nat, offered: nat, submitted: seq<seq<real>>, refused: nat, undecided: nat)
    requires channels > 0
  {
    offered == TotalFrames(channels, submitted) + refused + undecided
  }

  /** The drop counter, over all its resets, counts the blocks stolen and the offers refused. */
  ghost predicate Counted(channels: nat, dropped: nat, stolen: seq<Block>, refused: nat, uncounted: nat)
    requires channels > 0
  {
    dropped + uncounted == FramesOf(channels, stolen) + refused
  }

  /** The block the callback is about to queue. */
  function InHand(c: Callback): seq<Block> {
    if c.PushReady? || c.CountRejected? then [c.block] else []
  }

  /** How often a submission occurs among some blocks. */
  function Count(blocks: seq<Block>, tag: nat): nat {
    if blocks == [] then 0 else (if blocks[0].tag == tag then 1 else 0) + Count(blocks[1..], tag)
  }

  /** How often a submission occurs anywhere: taken, waiting, in hand, stolen or discarded. */
  function Places(p: Pool, tag: nat): nat {
    Count(p.taken, tag) + Count(p.ready, tag) + Count(InHand(p.callback), tag)
    + Count(p.stolen, tag) + Count(p.discarded, tag)
  }

  ghost predicate AllIntact(submitted: seq<seq<real>>, blocks: seq<Block>) {
    forall i :: 0 <= i < |blocks| ==> Intact(submitted, blocks[i])
  }

  /** Every submission is in exactly one place, and what was lost on the way was lost intact. */
  ghost predicate Placed(p: Pool) {
    && (forall tag: nat :: Places(p, tag) == if tag < |p.submitted| then 1 else 0)
    && AllIntact(p.submitted, p.stolen) && AllIntact(p.submitted, p.discarded)
  }

  ghost predicate Booking(p: Pool)
    requires p.channels > 0
  {
    && Booked(p.channels, p.offered, p.submitted, p.refused, Undecided(p.channels, p.callback))
    && Counted(p.channels, p.dropped + p.reported, p.stolen, p.refused, Uncounted(p.channels, p.callback))
  }

  /** Four blocks exist, none is ever lost, and the idle ones are empty. */
  ghost predicate Safe(p: Pool) {
    && |p.free| + |p.ready| + CallbackHolds(p.callback) + PublisherHolds(p.publisher) == AUDIO_BLOCK_COUNT
    && (forall i :: 0 <= i < |p.free| ==> p.free[i].samples == [])
    && p.failedPushes == 0 && !p.callback.CountRejected? && !p.callback.Recycle?
    && (p.publisher.CheckReady? ==> !p.running)
    && (p.publisher.Exited? ==> !p.running && p.ready == [])
    && (!p.running ==> p.callback.Idle?)
  }

  /** Submissions not yet in the ready queue have this number or more. */
  function NextTag(p: Pool): nat {
    if p.callback.PushReady? then p.callback.block.tag else |p.submitted|
  }

  /** The block carries exactly what the host handed to the callback it is numbered after. */
  ghost predicate Intact(submitted: seq<seq<real>>, b: Block) {
    b.tag < |submitted| && b.samples == submitted[b.tag]
  }

  ghost predicate Increasing(blocks: seq<Block>) {
    forall i, j :: 0 <= i < j < |blocks| ==> blocks[i].tag < blocks[j].tag
  }

  ghost predicate InOrder(submitted: seq<seq<real>>, taken: seq<Block>, ready: seq<Block>, next: nat) {
    && next <= |submitted|
    && Increasing(taken) && Increasing(ready)
    && (forall i :: 0 <= i < |taken| ==> taken[i].tag < next && Intact(submitted, taken[i]))
    && (forall i :: 0 <= i < |ready| ==> ready[i].tag < next && Intact(submitted, ready[i]))
    && (taken != [] && ready != [] ==> taken[|taken| - 1].tag < ready[0].tag)
  }

  /** What was taken and what waits is intact and in submission order. */
  ghost predicate Ordered(p: Pool) {
    && InOrder(p.submitted, p.taken, p.ready, NextTag(p))
    && (p.callback.PushReady? ==> Intact(p.submitted, p.callback.block))
  }

  ghost predicate Inv(p: Pool) {
    p.channels > 0 && Safe(p) && Balanced(p) && Booking(p) && Placed(p) && Ordered(p)
  }

  lemma {:induction false} FramesOfAppend(channels: nat, a: seq<Block>, b: Block)
    requires channels > 0
    ensures FramesOf(channels, a + [b]) == FramesOf(channels, a) + Frames(channels, b.samples)
    decreases |a|
  {
    if a == [] {
      assert a + [b] == [b];
    } else {
      FramesOfAppend(channels, a[1..], b);
      assert (a + [b])[1..] == a[1..] + [b];
    }
  }

  lemma CallbackKeepsSafe(p: Pool)
    requires Safe(p) && p.channels > 0 && !p.callback.Idle?
    ensures Safe(StepCallback(p))
  {
  }

  lemma PublisherKeepsSafe(p: Pool, statsDue: bool)
    requires Safe(p) && p.channels > 0 && !p.publisher.Exited?
    ensures Safe(StepPublisher(p, statsDue))
  {
  }

  lemma CallbackKeepsBalance(p: Pool)
    requires p.channels > 0 && Safe(p) && Balanced(p) && !p.callback.Idle?
    ensures Balanced(StepCallback(p))
  {
    if p.callback.PushReady? {
      FramesOfAppend(p.channels, p.ready, p.callback.block);
    } else if p.callback.DiscardPop? && p.ready != [] {
      FramesOfAppend(p.channels, p.discarded, p.ready[0]);
    }
  }

  lemma PublisherKeepsBalance(p: Pool, statsDue: bool)
    requires p.channels > 0 && Safe(p) && Balanced(p) && !p.publisher.Exited?
    ensures Balanced(StepPublisher(p, statsDue))
  {
    if p.publisher.TakeReady? && p.ready != [] {
      FramesOfAppend(p.channels, p.taken, p.ready[0]);
    } else if p.publisher.DrainPop? && p.ready != [] {
      FramesOfAppend(p.channels, p.discarded, p.ready[0]);
    }
  }

  lemma TotalFramesAppend(channels: nat, inputs: seq<seq<real>>, input: seq<real>)
    requires channels > 0
    ensures TotalFrames(channels, inputs + [input]) == TotalFrames(channels, inputs) + Frames(channels, input)
  {
    assert (inputs + [input])[..|inputs|] == inputs;
  }

  /** Short of a submission, undecided frames stay undecided or are refused. */
  lemma UndecidedOrRefused(p: Pool)
    requires p.channels > 0 && Safe(p) && !p.callback.Idle? && !p.callback.CountStolen?
    ensures var q := StepCallback(p);
      && q.channels == p.channels && q.offered == p.offered && q.submitted == p.submitted
      && q.refused + Undecided(q.channels, q.callback) == p.refused + Undecided(p.channels, p.callback)
  {
  }

  lemma SubmissionKeepsBooked(p: Pool)
    requires p.channels > 0 && p.callback.CountStolen?
    requires Booked(p.channels, p.offered, p.submitted, p.refused, Undecided(p.channels, p.callback))
    ensures var q := StepCallback(p);
      q.channels > 0 && Booked(q.channels, q.offered, q.submitted, q.refused, Undecided(q.channels, q.callback))
  {
    TotalFramesAppend(p.channels, p.submitted, p.callback.input);
  }

  lemma CallbackKeepsBooked(p: Pool)
    requires p.channels > 0 && Safe(p) && !p.callback.Idle?
    requires Booked(p.channels, p.offered, p.submitted, p.refused, Undecided(p.channels, p.callback))
    ensures var q := StepCallback(p);
      q.channels > 0 && Booked(q.channels, q.offered, q.submitted, q.refused, Undecided(q.channels, q.callback))
  {
    if p.callback.CountStolen? { SubmissionKeepsBooked(p); } else { UndecidedOrRefused(p); }
  }

  lemma CallbackKeepsCounted(p: Pool)
    requires p.channels > 0 && Safe(p) && !p.callback.Idle?
    requires Counted(p.channels, p.dropped + p.reported, p.stolen, p.refused, Uncounted(p.channels, p.callback))
    ensures var q := StepCallback(p);
      Counted(q.channels, q.dropped + q.reported, q.stolen, q.refused, Uncounted(q.channels, q.callback))
  {
    if p.callback.PopReady? && p.ready != [] { FramesOfAppend(p.channels, p.stolen, p.ready[0]); }
    if p.callback.PopFree? && p.free != [] { assert Frames(p.channels, p.free[0].samples) == 0; }
  }

  lemma CallbackKeepsBooking(p: Pool)
    requires p.channels > 0 && Safe(p) && Booking(p) && !p.callback.Idle?
    ensures Booking(StepCallback(p))
  {
    CallbackKeepsBooked(p);
    CallbackKeepsCounted(p);
  }

  /** Reporting the drop counter moves it to the reports; taking and discarding do not touch it. */
  lemma PublisherKeepsCounts(p: Pool, statsDue: bool)
    requires p.channels > 0 && !p.publisher.Exited?
    ensures var q := StepPublisher(p, statsDue);
      && q.channels == p.channels && q.offered == p.offered && q.submitted == p.submitted
      && q.refused == p.refused && q.callback == p.callback && q.stolen == p.stolen
      && q.dropped + q.reported == p.dropped + p.reported
  {
  }

  lemma PublisherKeepsBooking(p: Pool, statsDue: bool)
    requires p.channels > 0 && Booking(p) && !p.publisher.Exited?
    ensures StepPublisher(p, statsDue).channels > 0 && Booking(StepPublisher(p, statsDue))
  {
    PublisherKeepsCounts(p, statsDue);
  }

  lemma {:induction false} CountAppend(blocks: seq<Block>, b: Block, tag: nat)
    ensures Count(blocks + [b], tag) == Count(blocks, tag) + (if b.tag == tag then 1 else 0)
    decreases |blocks|
  {
    if blocks == [] {
      assert blocks + [b] == [b];
    } else {
      CountAppend(blocks[1..], b, tag);
      assert (blocks + [b])[1..] == blocks[1..] + [b];
    }
  }

  lemma CountOne(b: Block, tag: nat)
    ensures Count([b], tag) == if b.tag == tag then 1 else 0
  {
    assert [b][1..] == [];
  }

  /** A step of the callback moves a block from one place to another, or submits a new one. */
  lemma CallbackMoves(p: Pool, tag: nat)
    requires p.channels > 0 && Safe(p) && !p.callback.Idle?
    ensures Places(StepCallback(p), tag)
         == Places(p, tag) + if p.callback.CountStolen? && tag == |p.submitted| then 1 else 0
  {
    match p.callback
    case DiscardPop => if p.ready != [] { CountAppend(p.discarded, p.ready[0], tag); }
    case PopReady(_) => if p.ready != [] { CountAppend(p.stolen, p.ready[0], tag); }
    case CountStolen(_, input) => CountOne(Block(input, |p.submitted|), tag);
    case PushReady(block) =>
      CountAppend(p.ready, block, tag);
      CountOne(block, tag);
    case _ =>
  }

  lemma PublisherMoves(p: Pool, statsDue: bool, tag: nat)
    requires p.channels > 0 && !p.publisher.Exited?
    ensures Places(StepPublisher(p, statsDue), tag) == Places(p, tag)
  {
    if p.ready != [] {
      CountAppend(p.taken, p.ready[0], tag);
      CountAppend(p.discarded, p.ready[0], tag);
    }
  }

  lemma CallbackKeepsPlaced(p: Pool)
    requires p.channels > 0 && Safe(p) && Placed(p) && Ordered(p) && !p.callback.Idle?
    ensures Placed(StepCallback(p))
  {
    var q := StepCallback(p);
    forall tag: nat ensures Places(q, tag) == if tag < |q.submitted| then 1 else 0 {
      CallbackMoves(p, tag);
    }
  }

  lemma PublisherKeepsPlaced(p: Pool, statsDue: bool)
    requires p.channels > 0 && Placed(p) && Ordered(p) && !p.publisher.Exited?
    ensures Placed(StepPublisher(p, statsDue))
  {
    var q := StepPublisher(p, statsDue);
    forall tag: nat ensures Places(q, tag) == if tag < |q.submitted| then 1 else 0 {
      PublisherMoves(p, statsDue, tag);
    }
  }

  lemma DroppingOldest(submitted: seq<seq<real>>, taken: seq<Block>, ready: seq<Block>, next: nat)
    requires InOrder(submitted, taken, ready, next) && ready != []
    ensures InOrder(submitted, taken, ready[1..], next)
    ensures InOrder(submitted, taken + [ready[0]], ready[1..], next)
  {
  }

  lemma Submitting(submitted: seq<seq<real>>, taken: seq<Block>, ready: seq<Block>, input: seq<real>)
    requires InOrder(submitted, taken, ready, |submitted|)
    ensures InOrder(submitted + [input], taken, ready, |submitted|)
  {
  }

  lemma Queueing(submitted: seq<seq<real>>, taken: seq<Block>, ready: seq<Block>, b: Block)
    requires InOrder(submitted, taken, ready, b.tag) && Intact(submitted, b)
    ensures InOrder(submitted, taken, ready + [b], |submitted|)
  {
  }

  lemma CallbackKeepsOrder(p: Pool)
    requires Safe(p) && Ordered(p) && p.channels > 0 && !p.callback.Idle?
    ensures Ordered(StepCallback(p))
  {
    match p.callback
    case DiscardPop => if p.ready != [] { DroppingOldest(p.submitted, p.taken, p.ready, NextTag(p)); }
    case PopReady(_) => if p.ready != [] { DroppingOldest(p.submitted, p.taken, p.ready, NextTag(p)); }
    case CountStolen(_, input) => Submitting(p.submitted, p.taken, p.ready, input);
    case PushReady(block) => Queueing(p.submitted, p.taken, p.ready, block);
    case _ =>
  }

  lemma PublisherKeepsOrder(p: Pool, statsDue: bool)
    requires Safe(p) && Ordered(p) && p.channels > 0 && !p.publisher.Exited?
    ensures Ordered(StepPublisher(p, statsDue))
  {
    if p.ready != [] { DroppingOldest(p.submitted, p.taken, p.ready, NextTag(p)); }
  }

  lemma OthersKeepPlaced(p: Pool, a: Action)
    requires Safe(p) && Placed(p) && Enabled(p, a) && !a.CallbackStep? && !a.PublisherStep?
    ensures Placed(Apply(p, a))
  {
    var q := Apply(p, a);
    forall tag: nat ensures Places(q, tag) == if tag < |q.submitted| then 1 else 0 {
      assert Places(q, tag) == Places(p, tag);
    }
  }

  lemma OfferedFrames(buffer: HostBuffer)
    requires buffer.channels > 0 && |buffer.samples| == buffer.frames * buffer.channels
    ensures Frames(buffer.channels, buffer.samples) == buffer.frames
  {
    MulDiv(buffer.frames, buffer.channels);
  }

  lemma HostKeepsBooks(p: Pool, buffer: HostBuffer, publishing: bool)
    requires p.channels > 0 && Balanced(p) && Booking(p)
    requires p.callback.Idle? && |buffer.samples| == buffer.frames * buffer.channels
    ensures Balanced(Process(p, buffer, publishing)) && Booking(Process(p, buffer, publishing))
  {
    if buffer.channels == p.channels { OfferedFrames(buffer); }
  }

  lemma OthersKeepOrder(p: Pool, a: Action)
    requires Safe(p) && Ordered(p) && Enabled(p, a) && !a.CallbackStep? && !a.PublisherStep?
    ensures Safe(Apply(p, a)) && Ordered(Apply(p, a))
  {
  }

  lemma OthersKeepInv(p: Pool, a: Action)
    requires Inv(p) && Enabled(p, a) && !a.CallbackStep? && !a.PublisherStep?
    ensures Inv(Apply(p, a))
  {
    if a.Host? { HostKeepsBooks(p, a.buffer, a.publishing); }
    OthersKeepPlaced(p, a);
    OthersKeepOrder(p, a);
  }

  lemma CallbackKeepsInv(p: Pool)
    requires Inv(p) && !p.callback.Idle?
    ensures Inv(StepCallback(p))
  {
    CallbackKeepsSafe(p);
    CallbackKeepsBalance(p);
    CallbackKeepsBooking(p);
    CallbackKeepsPlaced(p);
    CallbackKeepsOrder(p);
    assert StepCallback(p).channels == p.channels;
  }

  lemma PublisherKeepsInv(p: Pool, statsDue: bool)
    requires Inv(p) && !p.publisher.Exited?
    ensures Inv(StepPublisher(p, statsDue))
  {
    PublisherKeepsSafe(p, statsDue);
    PublisherKeepsBalance(p, statsDue);
    PublisherKeepsBooking(p, statsDue);
    PublisherKeepsPlaced(p, statsDue);
    PublisherKeepsOrder(p, statsDue);
    assert StepPublisher(p, statsDue).channels == p.channels;
  }

  lemma StepKeepsInv(p: Pool, a: Action)
    requires Inv(p) && Enabled(p, a)
    ensures Inv(Apply(p, a))
  {
    if a.CallbackStep? {
      CallbackKeepsInv(p);
    } else if a.PublisherStep? {
      PublisherKeepsInv(p, a.statsDue);
    } else {
      OthersKeepInv(p, a);
    }
  }

  /** Safety, accounting and order in every interleaving of callback, publisher and parameter
      changes. */
  lemma {:induction false} EveryRunKeepsInv(channels: nat, maximumFrames: nat, schedule: seq<Action>)
    requires channels > 0
    ensures Inv(Run(Initial(channels, maximumFrames), schedule))
    decreases |schedule|
  {
    if schedule != [] {
      var earlier := schedule[..|schedule| - 1];
      EveryRunKeepsInv(channels, maximumFrames, earlier);
      var before, a := Run(Initial(channels, maximumFrames), earlier), schedule[|schedule| - 1];
      if Enabled(before, a) { StepKeepsInv(before, a); }
    }
  }

  // ---------------------------------------------------------------- what every run guarantees

  /** No push is ever refused, so the paths for a full queue are dead: in every run there is
      room whenever a block is about to be pushed. */
  lemma NoPushFails(channels: nat, maximumFrames: nat, schedule: seq<Action>)
    requires channels > 0
    ensures var p := Run(Initial(channels, maximumFrames), schedule);
      && p.failedPushes == 0 && !p.callback.CountRejected? && !p.callback.Recycle?
      && (p.callback.PushReady? ==> |p.ready| < READY_CAPACITY)
      && (p.callback.DiscardPush? || p.publisher.DrainPush? || p.publisher.ReturnBlock? ==> |p.free| < FREE_CAPACITY)
  {
    EveryRunKeepsInv(channels, maximumFrames, schedule);
  }

  /** Every frame offered is taken, counted as dropped (now or in an earlier report), discarded
      or still in flight; once the publisher has exited, none is in flight. What is offered is
      submitted or refused, and the drop counter counts exactly the blocks stolen and the offers
      refused. */
  lemma BooksBalance(channels: nat, maximumFrames: nat, schedule: seq<Action>)
    requires channels > 0
    ensures var p := Run(Initial(channels, maximumFrames), schedule);
      p.channels > 0
      && p.offered == FramesOf(p.channels, p.taken) + (p.dropped + p.reported)
                      + FramesOf(p.channels, p.discarded) + InFlight(p)
      && (p.publisher.Exited? ==> InFlight(p) == 0)
      && p.offered == TotalFrames(p.channels, p.submitted) + p.refused + Undecided(p.channels, p.callback)
      && p.dropped + p.reported + Uncounted(p.channels, p.callback)
           == FramesOf(p.channels, p.stolen) + p.refused
  {
    EveryRunKeepsInv(channels, maximumFrames, schedule);
  }

  /** Every submission is in exactly one place, as it was submitted: taken by the publisher,
      waiting, in the callback's hand, stolen or discarded. */
  lemma EverySubmissionInOnePlace(channels: nat, maximumFrames: nat, schedule: seq<Action>, tag: nat)
    requires channels > 0 && tag < |Run(Initial(channels, maximumFrames), schedule).submitted|
    ensures var p := Run(Initial(channels, maximumFrames), schedule);
      && Places(p, tag) == 1
      && AllIntact(p.submitted, p.taken) && AllIntact(p.submitted, p.ready)
      && AllIntact(p.submitted, InHand(p.callback))
      && AllIntact(p.submitted, p.stolen) && AllIntact(p.submitted, p.discarded)
  {
    EveryRunKeepsInv(channels, maximumFrames, schedule);
  }

  /** The publisher takes intact blocks in strictly increasing submission order, whichever
      queued blocks were stolen or discarded in between. */
  lemma TakenInOrder(channels: nat, maximumFrames: nat, schedule: seq<Action>, i: nat, j: nat)
    requires channels > 0
    requires i < j < |Run(Initial(channels, maximumFrames), schedule).taken|
    ensures var p := Run(Initial(channels, maximumFrames), schedule);
      && p.taken[i].tag < p.taken[j].tag < |p.submitted|
      && p.taken[i].samples == p.submitted[p.taken[i].tag]
      && p.taken[j].samples == p.submitted[p.taken[j].tag]
  {
    EveryRunKeepsInv(channels, maximumFrames, schedule);
    var p := Run(Initial(channels, maximumFrames), schedule);
    assert Intact(p.submitted, p.taken[i]) && Intact(p.submitted, p.taken[j]);
  }

  // ---------------------------------------------------------------- starvation

  ghost predicate Reachable(p: Pool) {
    exists channels, maximumFrames, schedule ::
      channels > 0 && p == Run(Initial(channels, maximumFrames), schedule)
  }

  lemma ReachableStep(p: Pool, a: Action)
    requires Reachable(p) && Enabled(p, a)
    ensures Reachable(Apply(p, a))
  {
    var channels, maximumFrames, schedule :|
      channels > 0 && p == Run(Initial(channels, maximumFrames), schedule);
    assert (schedule + [a])[..|schedule|] == schedule;
    assert Apply(p, a) == Run(Initial(channels, maximumFrames), schedule + [a]);
  }

  /** The callback makes no move. */
  ghost predicate CallbackWaits(schedule: seq<Action>) {
    forall i :: 0 <= i < |schedule| ==> !schedule[i].CallbackStep?
  }

  /** The publisher is about to pop a waiting block. */
  predicate PublisherPops(p: Pool, a: Action) {
    Enabled(p, a) && a.PublisherStep? && (p.publisher.DrainPop? || p.publisher.TakeReady?) && p.ready != []
  }

  /** How many waiting blocks the publisher pops in the course of a schedule. */
  function PublisherPopCount(p: Pool, schedule: seq<Action>): nat {
    if schedule == [] then 0
    else
      var earlier := schedule[..|schedule| - 1];
      PublisherPopCount(p, earlier)
      + if PublisherPops(Run(p, earlier), schedule[|schedule| - 1]) then 1 else 0
  }

  /** While the callback waits between its two steps, only the publisher's pops touch the queue. */
  lemma {:induction false} WaitingCallback(p: Pool, schedule: seq<Action>)
    requires CallbackWaits(schedule) && p.channels > 0 && !p.callback.Idle?
    ensures var q := Run(p, schedule);
      && q.callback == p.callback && q.channels == p.channels
      && PublisherPopCount(p, schedule) <= |p.ready|
      && q.ready == p.ready[PublisherPopCount(p, schedule)..]
    decreases |schedule|
  {
    if schedule != [] {
      var earlier := schedule[..|schedule| - 1];
      WaitingCallback(p, earlier);
      var before, a, popped := Run(p, earlier), schedule[|schedule| - 1], PublisherPopCount(p, earlier);
      if Enabled(before, a) {
        OneMoveWhileWaiting(before, a);
        if PublisherPops(before, a) { assert p.ready[popped..][1..] == p.ready[popped + 1..]; }
      }
    }
  }

  lemma OneMoveWhileWaiting(p: Pool, a: Action)
    requires p.channels > 0 && !p.callback.Idle? && !a.CallbackStep? && Enabled(p, a)
    ensures var q := Apply(p, a);
      && q.callback == p.callback && q.channels == p.channels
      && q.ready == if PublisherPops(p, a) then p.ready[1..] else p.ready
  {
  }

  /** Exactly when a callback gives its frames up for lack of a block: it found no idle block at
      its first pop, and before its second pop the publisher popped every block that waited. */
  lemma StarvedIffDrained(p: Pool, input: seq<real>, schedule: seq<Action>)
    requires Inv(p) && p.callback == PopFree(input) && CallbackWaits(schedule)
    ensures var q := Run(StepCallback(p), schedule);
      && !q.callback.Idle? && q.channels > 0 && (p.free == [] ==> |p.ready| >= 3)
      && (StepCallback(q).callback.CountStarved? <==>
          p.free == [] && PublisherPopCount(StepCallback(p), schedule) == |p.ready|)
  {
    FirstPop(p, input);
    WaitingCallback(StepCallback(p), schedule);
    SecondPop(Run(StepCallback(p), schedule), input);
  }

  lemma FirstPop(p: Pool, input: seq<real>)
    requires p.channels > 0 && Safe(p) && p.callback == PopFree(input)
    ensures p.free == [] ==> |p.ready| >= 3
    ensures var q := StepCallback(p);
      && q.channels == p.channels && q.ready == p.ready
      && q.callback == if p.free == [] then PopReady(input) else CountStolen(p.free[0], input)
  {
  }

  lemma SecondPop(p: Pool, input: seq<real>)
    requires p.channels > 0 && (p.callback == PopReady(input) || p.callback.CountStolen?)
    ensures StepCallback(p).callback.CountStarved? <==> p.callback.PopReady? && p.ready == []
  {
  }

  /** With no block idle at least three wait, so two pops of the publisher never starve it. */
  lemma TwoPopsNeverStarve(p: Pool, input: seq<real>, schedule: seq<Action>)
    requires Inv(p) && p.callback == PopFree(input) && CallbackWaits(schedule)
    requires PublisherPopCount(StepCallback(p), schedule) < 3
    ensures var q := Run(StepCallback(p), schedule);
      !q.callback.Idle? && q.channels > 0 && !StepCallback(q).callback.CountStarved?
  {
    StarvedIffDrained(p, input, schedule);
  }

  lemma Advance(p: Pool, a: Action) returns (q: Pool)
    requires Reachable(p) && Enabled(p, a)
    ensures q == Apply(p, a) && Reachable(q)
  {
    ReachableStep(p, a);
    q := Apply(p, a);
  }

  /** One undisturbed callback that finds a free block. */
  lemma Submission(p: Pool) returns (q: Pool)
    requires Reachable(p) && p.channels == p.maximumFrames == 1
    requires p.running && p.callback.Idle? && p.free != [] && |p.ready| < READY_CAPACITY
    ensures Reachable(q) && q.channels == q.maximumFrames == 1
    ensures q.running && q.callback.Idle? && q.publisher == p.publisher
    ensures |q.free| == |p.free| - 1 && |q.ready| == |p.ready| + 1
  {
    q := Advance(p, Host(HostBuffer(1, 1, [0.0]), true));
    q := Advance(q, CallbackStep);
    q := Advance(q, CallbackStep);
    q := Advance(q, CallbackStep);
  }

  lemma InitialReachable() returns (p: Pool)
    ensures p == Initial(1, 1) && Reachable(p)
  {
    p := Initial(1, 1);
    assert p == Run(p, []);
  }

  lemma AllSubmitted() returns (p: Pool)
    ensures Reachable(p) && p.channels == p.maximumFrames == 1
    ensures p.running && p.callback.Idle? && p.publisher.CheckRunning?
    ensures p.free == [] && |p.ready| == AUDIO_BLOCK_COUNT
  {
    p := InitialReachable();
    p := Submission(p);
    p := Submission(p);
    p := Submission(p);
    p := Submission(p);
  }

  lemma Drained(p: Pool) returns (q: Pool)
    requires Reachable(p) && p.callback.PopReady? && p.publisher.DrainPop? && p.channels > 0
    requires p.ready != [] && |p.free| < AUDIO_BLOCK_COUNT
    ensures Reachable(q) && q.callback.PopReady? && q.publisher.DrainPop? && q.channels > 0
    ensures |q.free| == |p.free| + 1 && |q.ready| == |p.ready| - 1
  {
    q := Advance(p, PublisherStep(false));
    q := Advance(q, PublisherStep(false));
  }

  lemma AboutToDrain() returns (p: Pool)
    ensures Reachable(p) && p.callback.PopReady? && p.publisher.DrainPop? && p.channels > 0
    ensures p.free == [] && |p.ready| == AUDIO_BLOCK_COUNT
  {
    p := AllSubmitted();
    p := Advance(p, Host(HostBuffer(1, 1, [0.0]), true));
    p := Advance(p, CallbackStep);
    p := Advance(p, SetEnabled(false));
    p := Advance(p, PublisherStep(false));
    p := Advance(p, PublisherStep(false));
  }

  /** The race exists: some run starves a callback while all four blocks are in the free queue. */
  lemma StarvationIsReachable() returns (p: Pool)
    ensures Reachable(p) && p.callback.CountStarved? && |p.free| == AUDIO_BLOCK_COUNT
  {
    p := AboutToDrain();
    for k := 0 to AUDIO_BLOCK_COUNT
      invariant Reachable(p) && p.callback.PopReady? && p.publisher.DrainPop? && p.channels > 0
      invariant |p.free| == k && |p.ready| == AUDIO_BLOCK_COUNT - k
    {
      p := Drained(p);
    }
    p := Advance(p, CallbackStep);
  }

  // ---------------------------------------------------------------- sending or discarding

  /** Nothing in the schedule turns publishing off. */
  ghost predicate KeepsPublishing(schedule: seq<Action>) {
    forall i :: 0 <= i < |schedule| ==>
      !schedule[i].Stop? && (schedule[i].Host? ==> schedule[i].publishing)
      && (schedule[i].SetEnabled? ==> schedule[i].value)
  }

  /** Nothing in the schedule turns publishing on. */
  ghost predicate KeepsSilent(schedule: seq<Action>) {
    forall i :: 0 <= i < |schedule| ==>
      (schedule[i].Host? ==> !schedule[i].publishing) && (schedule[i].SetEnabled? ==> !schedule[i].value)
  }

  predicate Discarding(p: Pool) {
    p.publisher.DrainPop? || p.publisher.DrainPush? || p.callback.DiscardPop? || p.callback.DiscardPush?
  }

  /** A submission is under way, or a block about to be taken. */
  predicate Sending(p: Pool) {
    p.publisher.TakeReady? || p.callback.PopFree? || p.callback.PopReady? || p.callback.CountStolen?
  }

  lemma PublishingStep(p: Pool, a: Action)
    requires p.channels > 0 && p.enabled && !Discarding(p) && Enabled(p, a) && KeepsPublishing([a])
    ensures var q := Apply(p, a);
      q.channels == p.channels && q.enabled && !Discarding(q) && q.discarded == p.discarded
  {
    assert [a][0] == a;
  }

  /** While publishing stays on nothing is discarded: what leaves the queue is taken or stolen. */
  lemma {:induction false} PublishingNeverDiscards(p: Pool, schedule: seq<Action>)
    requires p.channels > 0 && p.enabled && !Discarding(p) && KeepsPublishing(schedule)
    ensures var q := Run(p, schedule);
      q.channels == p.channels && q.enabled && !Discarding(q) && q.discarded == p.discarded
    decreases |schedule|
  {
    if schedule != [] {
      var earlier, a := schedule[..|schedule| - 1], schedule[|schedule| - 1];
      PublishingNeverDiscards(p, earlier);
      if Enabled(Run(p, earlier), a) { PublishingStep(Run(p, earlier), a); }
    }
  }

  lemma SilentStep(p: Pool, a: Action)
    requires p.channels > 0 && Safe(p) && !p.enabled && !Sending(p) && Enabled(p, a) && KeepsSilent([a])
    ensures var q := Apply(p, a);
      q.channels == p.channels && !q.enabled && !Sending(q)
      && q.taken == p.taken && q.submitted == p.submitted && q.stolen == p.stolen
  {
    assert [a][0] == a;
  }

  /** While publishing stays off nothing is submitted, stolen or taken. */
  lemma {:induction false} SilentNeverSends(p: Pool, schedule: seq<Action>)
    requires p.channels > 0 && Safe(p) && !p.enabled && !Sending(p) && KeepsSilent(schedule)
    ensures var q := Run(p, schedule);
      q.channels == p.channels && Safe(q) && !q.enabled && !Sending(q)
      && q.taken == p.taken && q.submitted == p.submitted && q.stolen == p.stolen
    decreases |schedule|
  {
    if schedule != [] {
      var earlier, a := schedule[..|schedule| - 1], schedule[|schedule| - 1];
      SilentNeverSends(p, earlier);
      if Enabled(Run(p, earlier), a) {
        SilentStep(Run(p, earlier), a);
        StepKeepsSafe(Run(p, earlier), a);
      }
    }
  }

  lemma StepKeepsSafe(p: Pool, a: Action)
    requires Safe(p) && Enabled(p, a)
    ensures Safe(Apply(p, a))
  {
    match a
    case CallbackStep => CallbackKeepsSafe(p);
    case PublisherStep(statsDue) => PublisherKeepsSafe(p, statsDue);
    case _ =>
  }

  lemma RunOne(p: Pool, schedule: seq<Action>, a: Action)
    ensures Run(p, schedule + [a])
         == if Enabled(Run(p, schedule), a) then Apply(Run(p, schedule), a) else Run(p, schedule)
  {
    assert (schedule + [a])[..|schedule|] == schedule;
  }

  function PublisherSteps(n: nat): seq<Action> {
    seq(n, _ => PublisherStep(false))
  }

  function CallbackSteps(n: nat): seq<Action> {
    seq(n, _ => CallbackStep)
  }

  /** A publisher's turn, undisturbed: the oldest waiting block is taken if publishing is on, and
      discarded if it is off. */
  lemma PublisherTurn(p: Pool)
    requires p.channels > 0 && p.publisher.CheckRunning? && p.running && p.ready != []
    ensures var q := Run(p, PublisherSteps(3));
      && q.ready == p.ready[1..]
      && q.taken == (if p.enabled then p.taken + [p.ready[0]] else p.taken)
      && q.discarded == (if p.enabled then p.discarded else p.discarded + [p.ready[0]])
  {
    var a := PublisherStep(false);
    assert PublisherSteps(1) == [] + [a] && PublisherSteps(2) == PublisherSteps(1) + [a];
    assert PublisherSteps(3) == PublisherSteps(2) + [a];
    RunOne(p, [], a);
    RunOne(p, PublisherSteps(1), a);
    RunOne(p, PublisherSteps(2), a);
  }

  /** A step, passed over if it is not possible. */
  function Stepper(): (Pool, Action) -> Pool {
    (p: Pool, a: Action) => if Enabled(p, a) then Apply(p, a) else p
  }

  lemma {:induction false} RunIsFold(p: Pool, schedule: seq<Action>)
    ensures Run(p, schedule) == RunWith(Stepper(), p, schedule)
    decreases |schedule|
  {
    if schedule != [] { RunIsFold(p, schedule[..|schedule| - 1]); }
  }

  lemma RunAppend(p: Pool, s: seq<Action>, t: seq<Action>)
    ensures Run(p, s + t) == Run(Run(p, s), t)
  {
    RunIsFold(p, s + t);
    RunIsFold(p, s);
    RunIsFold(Run(p, s), t);
    RunWithAppend(Stepper(), p, s, t);
  }

  /** The callback makes a move, if it is not done. */
  lemma NextMove(p: Pool, n: nat)
    ensures CallbackSteps(0) == [] && Run(p, CallbackSteps(0)) == p
    ensures var q := Run(p, CallbackSteps(n));
      Run(p, CallbackSteps(n + 1)) == if Enabled(q, CallbackStep) then StepCallback(q) else q
  {
    assert CallbackSteps(n + 1) == CallbackSteps(n) + [CallbackStep];
    RunOne(p, CallbackSteps(n), CallbackStep);
  }

  lemma AfterHost(p: Pool, host: Action, n: nat)
    requires host.Host? && Enabled(p, host)
    ensures Run(p, [host] + CallbackSteps(n)) == Run(Apply(p, host), CallbackSteps(n))
  {
    RunAppend(p, [host], CallbackSteps(n));
    RunOne(p, [], host);
    assert [] + [host] == [host];
  }

  predicate Fits(p: Pool, buffer: HostBuffer) {
    buffer.channels == p.channels && buffer.frames <= p.maximumFrames
  }

  /** A block in hand is filled with the input and queued. */
  lemma HeldBlockSubmits(p: Pool, block: Block, input: seq<real>)
    requires p.channels > 0 && p.callback == CountStolen(block, input) && |p.ready| < READY_CAPACITY
    ensures var q := StepCallback(StepCallback(p));
      && q.callback.Idle? && q.enabled == p.enabled && q.submitted == p.submitted + [input] && q.refused == p.refused
      && q.ready == p.ready + [Block(input, |p.submitted|)]
  {
  }

  /** The callback, left alone, gets from p to q in n moves. */
  ghost predicate Reaches(p: Pool, n: nat, q: Pool) {
    Run(p, CallbackSteps(n)) == q
  }

  lemma MoreMoves(p: Pool, m: nat, via: Pool, n: nat, q: Pool, k: nat)
    requires Reaches(p, m, via) && Reaches(via, n, q) && k == m + n
    ensures Reaches(p, k, q)
  {
    assert CallbackSteps(k) == CallbackSteps(m) + CallbackSteps(n);
    RunAppend(p, CallbackSteps(m), CallbackSteps(n));
  }

  /** The input was submitted behind these waiting blocks, and nothing was refused. */
  ghost predicate SubmittedBehind(p: Pool, q: Pool, input: seq<real>, ready: seq<Block>) {
    && q.callback.Idle? && q.enabled == p.enabled && q.submitted == p.submitted + [input] && q.refused == p.refused
    && q.ready == ready + [Block(input, |p.submitted|)]
  }

  lemma IdleBlockSubmits(p: Pool, input: seq<real>) returns (q: Pool)
    requires p.channels > 0 && p.callback == PopFree(input) && p.free != [] && |p.ready| < READY_CAPACITY
    ensures Reaches(p, 4, q) && SubmittedBehind(p, q, input, p.ready)
  {
    var a := FirstMove(p);
    HeldBlockSubmits(a, p.free[0], input);
    q := TwoMoves(a);
    MoreMoves(p, 1, a, 2, q, 3);
    IdleStays(q);
    MoreMoves(p, 3, q, 1, q, 4);
  }

  lemma WaitingBlockSubmits(p: Pool, input: seq<real>) returns (q: Pool)
    requires p.channels > 0 && p.callback == PopFree(input) && p.free == []
    requires p.ready != [] && |p.ready| <= READY_CAPACITY
    ensures Reaches(p, 4, q) && SubmittedBehind(p, q, input, p.ready[1..])
  {
    var a := FirstMove(p);
    var b := FirstMove(a);
    MoreMoves(p, 1, a, 1, b, 2);
    HeldBlockSubmits(b, p.ready[0], input);
    q := TwoMoves(b);
    MoreMoves(p, 2, b, 2, q, 4);
  }

  lemma FirstMove(p: Pool) returns (q: Pool)
    requires p.channels > 0 && !p.callback.Idle?
    ensures q == StepCallback(p) && Reaches(p, 1, q)
  {
    NextMove(p, 0);
    q := StepCallback(p);
  }

  lemma TwoMoves(p: Pool) returns (q: Pool)
    requires p.channels > 0 && !p.callback.Idle? && !StepCallback(p).callback.Idle? && StepCallback(p).channels > 0
    ensures q == StepCallback(StepCallback(p)) && Reaches(p, 2, q)
  {
    var a := FirstMove(p);
    q := FirstMove(a);
    MoreMoves(p, 1, a, 1, q, 2);
  }

  lemma IdleStays(p: Pool)
    requires p.callback.Idle?
    ensures Reaches(p, 1, p)
  {
    NextMove(p, 0);
  }

  /** What an undisturbed callback does with a buffer of the pool's width and size while publishing: it
      is submitted behind everything that waits, in an idle block or else in the oldest waiting one. */
  lemma FittingOfferSubmitted(p: Pool, buffer: HostBuffer) returns (q: Pool)
    requires Inv(p) && Enabled(p, Host(buffer, true)) && buffer.frames > 0 && Fits(p, buffer)
    ensures p.free == [] ==> p.ready != []
    ensures q == Run(p, [Host(buffer, true)] + CallbackSteps(4)) && q.enabled
    ensures SubmittedBehind(p.(enabled := true), q, buffer.samples, if p.free != [] then p.ready else p.ready[1..])
  {
    AfterHost(p, Host(buffer, true), 4);
    var a := Process(p, buffer, true);
    if p.free != [] {
      q := IdleBlockSubmits(a, buffer.samples);
    } else {
      q := WaitingBlockSubmits(a, buffer.samples);
    }
  }

  lemma UnfitMove(p: Pool, frames: nat)
    requires p.channels > 0 && p.callback == CountUnfit(frames)
    ensures StepCallback(p) == p.(dropped := p.dropped + frames, refused := p.refused + frames, callback := Idle)
  {
  }

  /** Any other buffer is refused and counted in full, and an empty one is ignored. */
  lemma OtherOfferRefused(p: Pool, buffer: HostBuffer)
    requires Enabled(p, Host(buffer, true)) && (buffer.frames == 0 || !Fits(p, buffer))
    ensures Run(p, [Host(buffer, true)] + CallbackSteps(1))
         == p.(enabled := true, offered := p.offered + buffer.frames, refused := p.refused + buffer.frames,
               dropped := p.dropped + buffer.frames)
  {
    AfterHost(p, Host(buffer, true), 1);
    var q := Process(p, buffer, true);
    NextMove(q, 0);
    if buffer.frames > 0 { UnfitMove(q, buffer.frames); }
  }

  /** A call while publishing is off discards, whatever the buffer: in two undisturbed moves the oldest
      waiting block is emptied and idle, and the callback is done when none waits. */
  lemma SilentCallDiscards(p: Pool, buffer: HostBuffer)
    requires Safe(p) && Enabled(p, Host(buffer, false))
    ensures var q := Run(p, [Host(buffer, false)]);
      && q == p.(enabled := false, callback := DiscardPop) && Safe(q)
      && (q.ready == [] ==> Run(q, CallbackSteps(1)) == q.(callback := Idle))
      && (q.ready != [] ==> Run(q, CallbackSteps(2)) == OneDiscarded(q))
  {
    RunOne(p, [], Host(buffer, false));
    assert [] + [Host(buffer, false)] == [Host(buffer, false)];
    DiscardTurn(p.(enabled := false, callback := DiscardPop));
  }

  function OneDiscarded(p: Pool): Pool
    requires p.ready != []
  {
    p.(ready := p.ready[1..], discarded := p.discarded + [p.ready[0]], free := p.free + [p.ready[0].(samples := [])])
  }

  lemma DiscardTurn(p: Pool)
    requires p.channels > 0 && p.callback.DiscardPop? && |p.free| < FREE_CAPACITY
    ensures p.ready == [] ==> Run(p, CallbackSteps(1)) == p.(callback := Idle)
    ensures p.ready != [] ==> Run(p, CallbackSteps(2)) == OneDiscarded(p)
  {
    NextMove(p, 0);
    NextMove(p, 1);
  }

  // ---------------------------------------------------------------- the functions as called

  class Counter {
    var value: nat

    constructor ()
      ensures value == 0
    {
      value := 0;
    }
  }

  /** Where the next block comes from: an idle one, else the oldest waiting one. */
  function AcquiredBlock(free: seq<Block>, ready: seq<Block>): Option<Block> {
    if free != [] then Some(free[0]) else if ready != [] then Some(ready[0]) else None
  }

  method AcquireAudioBlock(freeBlocks: ArrayQueue<Block>, readyBlocks: ArrayQueue<Block>, channels: nat,
                           droppedFrames: Counter)
    returns (block: Option<Block>)
    requires channels > 0 && freeBlocks != readyBlocks && freeBlocks.Valid() && readyBlocks.Valid()
    modifies freeBlocks, readyBlocks, droppedFrames
    ensures freeBlocks.Valid() && readyBlocks.Valid()
    ensures var source := AcquiredBlock(old(freeBlocks.items), old(readyBlocks.items));
      && block == (if source.Some? then Some(source.value.(samples := [])) else None)
      && droppedFrames.value
           == old(droppedFrames.value) + (if source.Some? then Frames(channels, source.value.samples) else 0)
    ensures freeBlocks.items == if old(freeBlocks.items) != [] then old(freeBlocks.items)[1..] else []
    ensures readyBlocks.items == if old(freeBlocks.items) != [] || old(readyBlocks.items) == []
                                 then old(readyBlocks.items) else old(readyBlocks.items)[1..]
  {
    block := freeBlocks.Pop();
    if block.None? {
      block := readyBlocks.Pop();
    }
    if block.None? {
      return;
    }
    if |block.value.samples| > 0 {
      droppedFrames.value := droppedFrames.value + Frames(channels, block.value.samples);
    }
    block := Some(block.value.(samples := []));
  }

  /** Undisturbed, the callback's steps acquire what the function call acquires, and there is
      always a block to acquire. */
  lemma UninterruptedAcquire(p: Pool, input: seq<real>)
    requires Inv(p) && p.callback == PopFree(input)
    ensures var source := AcquiredBlock(p.free, p.ready);
      var q := if p.free != [] then StepCallback(p) else StepCallback(StepCallback(p));
      && source.Some? && q.callback == CountStolen(source.value, input)
      && StepCallback(q).callback == PushReady(Block(input, |p.submitted|))
      && StepCallback(q).dropped == p.dropped + Frames(p.channels, source.value.samples)
      && StepCallback(q).free == (if p.free != [] then p.free[1..] else [])
      && StepCallback(q).ready == (if p.free != [] then p.ready else p.ready[1..])
  {
  }

  function Cleared(blocks: seq<Block>): (r: seq<Block>)
    ensures |r| == |blocks|
  {
    seq(|blocks|, i requires 0 <= i < |blocks| => blocks[i].(samples := []))
  }

  /** Every waiting block is emptied and moved behind the idle ones, as far as they fit. */
  method DiscardQueuedAudio(freeBlocks: ArrayQueue<Block>, readyBlocks: ArrayQueue<Block>)
    requires freeBlocks != readyBlocks && freeBlocks.Valid() && readyBlocks.Valid()
    modifies freeBlocks, readyBlocks
    ensures freeBlocks.Valid() && readyBlocks.Valid() && readyBlocks.items == []
    ensures var all := old(freeBlocks.items) + Cleared(old(readyBlocks.items));
      freeBlocks.items == all[..Min(|all|, freeBlocks.capacity)]
  {
    ghost var waiting := readyBlocks.items;
    ghost var all := freeBlocks.items + Cleared(waiting);
    ghost var idle := |freeBlocks.items|;
    ghost var moved := 0;
    var block := readyBlocks.Pop();
    while block.Some?
      invariant freeBlocks.Valid() && readyBlocks.Valid()
      invariant moved <= |waiting|
      invariant block == (if moved < |waiting| then Some(waiting[moved]) else None)
      invariant readyBlocks.items == waiting[Min(moved + 1, |waiting|)..]
      invariant freeBlocks.items == all[..Min(idle + moved, freeBlocks.capacity)]
      decreases |waiting| - moved
    {
      var accepted := freeBlocks.Push(block.value.(samples := []));
      moved := moved + 1;
      block := readyBlocks.Pop();
    }
  }
}
