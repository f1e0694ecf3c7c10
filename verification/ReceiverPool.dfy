/** The receiver plug-in's sixteen blocks under concurrency (apps/plugin/src/lib.rs): the worker
    delivers packets while the audio callback plays. Every queue operation is one step; the loop
    test and the frame a callback copies out are local to the callback. */
module ReceiverPool {
  import opened ReceiverCursor
  import opened Wrappers

  datatype Worker =
    | Waiting
    | PopFree(packet: Block)
    | PopReady(packet: Block)
    | PushReady(block: Block)

  datatype Pool = Pool(
    free: seq<Block>, ready: seq<Block>,
    current: Option<Block>, blockOffset: nat,
    left: nat, // frames the callback still owes the host; none between callbacks
    worker: Worker,
    // the ledger
    arrived: seq<Block>, begun: seq<Block>, kept: seq<nat>,
    played: seq<seq<real>>, silent: nat, requested: nat, lost: nat, failedPushes: nat)

  datatype Action =
    | Host(frames: nat)      // the host calls `process`
    | CallbackStep
    | Receive(packet: Block) // a packet with at least one channel arrives
    | WorkerStep

  function Initial(): Pool {
    Pool(seq(QUEUE_CAPACITY, _ => Block([], 1)), [], None, 0, 0, Waiting, [], [], [], [], 0, 0, 0, 0)
  }

  function Without<T>(s: seq<T>, i: nat): seq<T> {
    if i < |s| then s[..i] + s[i + 1..] else s
  }

  /** Whole frames in a block; a block without channels has none. */
  function FrameCount(b: Block): nat {
    if b.channels > 0 then |WholeFrames(b.samples, b.channels)| else 0
  }

  // ---------------------------------------------------------------- the steps

  predicate Enabled(p: Pool, a: Action) {
    match a
    case Host(_) => p.left == 0
    case CallbackStep => p.left > 0
    case Receive(packet) => p.worker.Waiting? && packet.channels > 0
    case WorkerStep => !p.worker.Waiting?
  }

  function StepCallback(p: Pool): Pool
    requires p.left > 0
  {
    if p.current.None? then
      if p.ready == [] then p.(left := p.left - 1, silent := p.silent + 1)
      else p.(ready := p.ready[1..], current := Some(p.ready[0]), blockOffset := 0, begun := p.begun + [p.ready[0]])
    else
      var block := p.current.value;
      if block.channels == 0 then p.(left := p.left - 1, silent := p.silent + 1)
      else if p.blockOffset + block.channels > |block.samples| then
        var q := p.(current := None);
        if |p.free| < QUEUE_CAPACITY then q.(free := p.free + [block]) else q.(failedPushes := p.failedPushes + 1)
      else
        p.(played := p.played + [block.samples[p.blockOffset..p.blockOffset + block.channels]],
           blockOffset := p.blockOffset + block.channels, left := p.left - 1)
  }

  function StepWorker(p: Pool): Pool {
    match p.worker
    case Waiting => p
    case PopFree(packet) =>
      if p.free == [] then p.(worker := PopReady(packet))
      else p.(free := p.free[1..], worker := PushReady(packet))
    case PopReady(packet) =>
      if p.ready == [] then
        p.(worker := Waiting, lost := p.lost + FrameCount(packet), kept := Without(p.kept, |p.begun|))
      else
        p.(ready := p.ready[1..], worker := PushReady(packet),
           lost := p.lost + FrameCount(p.ready[0]), kept := Without(p.kept, |p.begun|))
    case PushReady(block) =>
      if |p.ready| < QUEUE_CAPACITY then p.(ready := p.ready + [block], worker := Waiting)
      else p.(worker := Waiting, lost := p.lost + FrameCount(block), failedPushes := p.failedPushes + 1)
  }

  function Apply(p: Pool, a: Action): Pool
    requires Enabled(p, a)
  {
    match a
    case Host(frames) => p.(left := frames, requested := p.requested + frames)
    case CallbackStep => StepCallback(p)
    case Receive(packet) =>
      p.(worker := PopFree(packet), arrived := p.arrived + [packet], kept := p.kept + [|p.arrived|])
    case WorkerStep => StepWorker(p)
  }

  function Run(p: Pool, schedule: seq<Action>): Pool {
    if schedule == [] then p
    else
      var before := Run(p, schedule[..|schedule| - 1]);
      var a := schedule[|schedule| - 1];
      if Enabled(before, a) then Apply(before, a) else before
  }

  // ---------------------------------------------------------------- the invariant

  function InHand(w: Worker): seq<Block> {
    match w
    case Waiting => []
    case PopFree(packet) => [packet]
    case PopReady(packet) => [packet]
    case PushReady(block) => [block]
  }

  /** Everything that was not lost, oldest first: begun, waiting, and in the worker's hand. */
  function Line(p: Pool): seq<Block> {
    p.begun + p.ready + InHand(p.worker)
  }

  /** Sixteen blocks exist and no push was ever refused. */
  ghost predicate Safe(p: Pool) {
    && |p.free| + |p.ready| + (if p.current.Some? then 1 else 0) + (if p.worker.PushReady? then 1 else 0)
         == QUEUE_CAPACITY
    && p.failedPushes == 0
  }

  /** The line is what is left of the arrivals, in arrival order. */
  ghost predicate Ordered(arrived: seq<Block>, line: seq<Block>, kept: seq<nat>) {
    && |kept| == |line|
    && (forall i :: 0 <= i < |kept| ==> kept[i] < |arrived| && line[i] == arrived[kept[i]])
    && (forall i, j :: 0 <= i < j < |kept| ==> kept[i] < kept[j])
  }

  /** What the current block still holds. */
  function Rest(p: Pool): seq<seq<real>> {
    if p.current.None? || p.current.value.channels == 0 || p.blockOffset > |p.current.value.samples| then []
    else WholeFrames(p.current.value.samples[p.blockOffset..], p.current.value.channels)
  }

  /** Every block begun is played whole, frame by frame, before the next one begins. */
  ghost predicate Continuous(p: Pool) {
    && HaveChannels(p.begun)
    && p.played + Rest(p) == QueuedFrames(p.begun)
    && (p.current.Some? ==> p.current.value.channels > 0 && p.blockOffset <= |p.current.value.samples|)
  }

  /** Every whole frame that arrived is in the line or counted as lost. */
  ghost predicate Balanced(arrived: seq<Block>, line: seq<Block>, lost: nat) {
    && HaveChannels(arrived) && HaveChannels(line)
    && |QueuedFrames(arrived)| == |QueuedFrames(line)| + lost
  }

  ghost predicate Inv(p: Pool) {
    && Safe(p)
    && Ordered(p.arrived, Line(p), p.kept)
    && Balanced(p.arrived, Line(p), p.lost)
    && Continuous(p)
    && p.requested == |p.played| + p.silent + p.left
  }

  lemma {:induction false} QueuedFramesConcat(a: seq<Block>, b: seq<Block>)
    requires HaveChannels(a) && HaveChannels(b)
    ensures QueuedFrames(a + b) == QueuedFrames(a) + QueuedFrames(b)
    decreases |b|
  {
    if b == [] {
      assert a + b == a;
    } else {
      var last := b[|b| - 1];
      var front := b[..|b| - 1];
      assert a + b == (a + front) + [last] && b == front + [last];
      QueuedFramesConcat(a, front);
      QueuedFramesAppend(a + front, last);
      QueuedFramesAppend(front, last);
    }
  }

  /** Losing one block of the line costs exactly its frames. */
  lemma LineWithout(line: seq<Block>, i: nat)
    requires HaveChannels(line) && i < |line|
    ensures HaveChannels(Without(line, i))
    ensures |QueuedFrames(line)| == |QueuedFrames(Without(line, i))| + FrameCount(line[i])
  {
    var before, after := line[..i], line[i + 1..];
    assert line == before + [line[i]] + after;
    QueuedFramesConcat(before + [line[i]], after);
    QueuedFramesAppend(before, line[i]);
    QueuedFramesConcat(before, after);
  }

  lemma OrderedWithout(arrived: seq<Block>, line: seq<Block>, kept: seq<nat>, i: nat)
    requires Ordered(arrived, line, kept)
    ensures Ordered(arrived, Without(line, i), Without(kept, i))
  {
  }

  /** Without an idle block the worker loses the oldest waiting block, or else its packet. */
  lemma LoserInLine(p: Pool)
    requires p.worker.PopReady?
    ensures Line(StepWorker(p)) == Without(Line(p), |p.begun|)
    ensures Line(p)[|p.begun|] == if p.ready == [] then p.worker.packet else p.ready[0]
  {
  }

  lemma WorkerLosesOne(p: Pool)
    requires Inv(p) && p.worker.PopReady?
    ensures Inv(StepWorker(p))
  {
    LoserInLine(p);
    LineWithout(Line(p), |p.begun|);
    OrderedWithout(p.arrived, Line(p), p.kept, |p.begun|);
  }

  lemma WorkerMovesOne(p: Pool)
    requires Inv(p) && (p.worker.PopFree? || p.worker.PushReady?)
    ensures Inv(StepWorker(p))
  {
    assert Line(StepWorker(p)) == Line(p);
  }

  lemma ArrivalKeepsInv(p: Pool, packet: Block)
    requires Inv(p) && Enabled(p, Receive(packet))
    ensures Inv(Apply(p, Receive(packet)))
  {
    var q := Apply(p, Receive(packet));
    assert Line(q) == Line(p) + [packet];
    QueuedFramesAppend(Line(p), packet);
    QueuedFramesAppend(p.arrived, packet);
  }

  lemma BeginKeepsLine(p: Pool)
    requires p.left > 0 && p.current.None? && p.ready != []
    ensures Line(StepCallback(p)) == Line(p) && p.ready[0] == Line(p)[|p.begun|]
  {
  }

  lemma BeginKeepsContinuous(p: Pool)
    requires Continuous(p) && p.left > 0 && p.current.None? && p.ready != [] && p.ready[0].channels > 0
    ensures Continuous(StepCallback(p))
  {
    var next, q := p.ready[0], StepCallback(p);
    QueuedFramesAppend(p.begun, next);
    assert Rest(q) == WholeFrames(next.samples, next.channels) by {
      assert next.samples[0..] == next.samples;
    }
    assert p.played == QueuedFrames(p.begun);
    assert q.played == p.played;
  }

  lemma BeginKeepsInv(p: Pool)
    requires Inv(p) && p.left > 0 && p.current.None? && p.ready != []
    ensures Inv(StepCallback(p))
  {
    BeginKeepsLine(p);
    BeginKeepsContinuous(p);
  }

  lemma PlayKeepsInv(p: Pool)
    requires Inv(p) && p.left > 0 && p.current.Some?
    requires p.blockOffset + p.current.value.channels <= |p.current.value.samples|
    ensures Inv(StepCallback(p))
  {
    var q := StepCallback(p);
    var block := p.current.value;
    var rest := block.samples[p.blockOffset..];
    var frame := rest[..block.channels];
    assert frame == block.samples[p.blockOffset..q.blockOffset];
    assert rest[block.channels..] == block.samples[q.blockOffset..];
    assert Rest(p) == [frame] + Rest(q);
    assert (p.played + [frame]) + Rest(q) == p.played + ([frame] + Rest(q));
    assert Line(q) == Line(p);
  }

  lemma CallbackKeepsInv(p: Pool)
    requires Inv(p) && p.left > 0
    ensures Inv(StepCallback(p))
  {
    if p.current.None? && p.ready != [] {
      BeginKeepsInv(p);
    } else if p.current.Some? && p.blockOffset + p.current.value.channels <= |p.current.value.samples| {
      PlayKeepsInv(p);
    } else {
      assert Line(StepCallback(p)) == Line(p);
      assert Rest(p) == [];
    }
  }

  lemma StepKeepsInv(p: Pool, a: Action)
    requires Inv(p) && Enabled(p, a)
    ensures Inv(Apply(p, a))
  {
    match a
    case Host(_) => assert Line(Apply(p, a)) == Line(p);
    case CallbackStep => CallbackKeepsInv(p);
    case Receive(packet) => ArrivalKeepsInv(p, packet);
    case WorkerStep => if p.worker.PopReady? { WorkerLosesOne(p); } else { WorkerMovesOne(p); }
  }

  /** Every interleaving of callback and worker, from start-up. */
  lemma {:induction false} EveryRunKeepsInv(schedule: seq<Action>)
    ensures Inv(Run(Initial(), schedule))
    decreases |schedule|
  {
    if schedule != [] {
      var earlier := schedule[..|schedule| - 1];
      EveryRunKeepsInv(earlier);
      var before, a := Run(Initial(), earlier), schedule[|schedule| - 1];
      if Enabled(before, a) { StepKeepsInv(before, a); }
    }
  }

  // ---------------------------------------------------------------- what every run guarantees

  /** No push is ever refused: there is room whenever a block is about to be pushed. */
  lemma NoPushFails(schedule: seq<Action>)
    ensures var p := Run(Initial(), schedule);
      && p.failedPushes == 0
      && (p.worker.PushReady? ==> |p.ready| < QUEUE_CAPACITY)
      && (p.current.Some? ==> |p.free| < QUEUE_CAPACITY)
  {
    EveryRunKeepsInv(schedule);
  }

  /** Blocks are begun in arrival order, each at most once and with the contents that arrived. */
  lemma BegunInArrivalOrder(schedule: seq<Action>, i: nat, j: nat)
    requires i <= j < |Run(Initial(), schedule).begun|
    ensures var p := Run(Initial(), schedule);
      && |p.kept| >= |p.begun|
      && (i < j ==> p.kept[i] < p.kept[j]) && p.kept[i] <= p.kept[j] < |p.arrived|
      && p.begun[i] == p.arrived[p.kept[i]] && p.begun[j] == p.arrived[p.kept[j]]
  {
    EveryRunKeepsInv(schedule);
    var p := Run(Initial(), schedule);
    assert Line(p)[i] == p.begun[i] && Line(p)[j] == p.begun[j];
  }

  /** What was played is every whole frame of the blocks begun, in order, but for the rest of the
      block being played: a block is never abandoned half-way, even when the worker steals. */
  lemma PlayedInOrder(schedule: seq<Action>)
    ensures var p := Run(Initial(), schedule);
      HaveChannels(p.begun) && p.played + Rest(p) == QueuedFrames(p.begun)
  {
    EveryRunKeepsInv(schedule);
  }

  /** Every whole frame that arrived was played, waits, is in the worker's hand or was counted as
      lost; every frame the host asked for was played, silent or is still owed. */
  lemma BooksBalance(schedule: seq<Action>)
    ensures var p := Run(Initial(), schedule);
      && HaveChannels(p.arrived) && HaveChannels(p.ready) && HaveChannels(InHand(p.worker))
      && |QueuedFrames(p.arrived)|
           == |p.played| + |Rest(p)| + |QueuedFrames(p.ready)| + |QueuedFrames(InHand(p.worker))| + p.lost
      && p.requested == |p.played| + p.silent + p.left
  {
    EveryRunKeepsInv(schedule);
    var p := Run(Initial(), schedule);
    var n, m := |p.begun|, |p.begun| + |p.ready|;
    assert p.ready == Line(p)[n..m] && InHand(p.worker) == Line(p)[m..];
    QueuedFramesConcat(p.begun + p.ready, InHand(p.worker));
    QueuedFramesConcat(p.begun, p.ready);
  }

  /** The callback turns silent only when everything is played: every whole frame that arrived
      was played, counted lost, or is still in the worker's hand. */
  lemma SilentOnlyWhenDry(schedule: seq<Action>)
    requires Run(Initial(), schedule).left > 0
    ensures var p := Run(Initial(), schedule);
      var dry := HaveChannels(p.arrived) && HaveChannels(InHand(p.worker))
                 && |QueuedFrames(p.arrived)| == |p.played| + |QueuedFrames(InHand(p.worker))| + p.lost;
      && (StepCallback(p).silent > p.silent ==> dry)
      && (dry ==> StepCallback(p).played == p.played)
  {
    BooksBalance(schedule);
    EveryRunKeepsInv(schedule);
    var p := Run(Initial(), schedule);
    if p.current.Some? && p.blockOffset + p.current.value.channels <= |p.current.value.samples| {
      WholeFramesCount(p.current.value.samples[p.blockOffset..], p.current.value.channels);
      assert |Rest(p)| > 0;
    }
  }

  // ---------------------------------------------------------------- one delivery

  lemma RunOne(p: Pool, schedule: seq<Action>, a: Action)
    ensures Run(p, schedule + [a])
         == if Enabled(Run(p, schedule), a) then Apply(Run(p, schedule), a) else Run(p, schedule)
  {
    assert (schedule + [a])[..|schedule|] == schedule;
  }

  /** An undisturbed delivery queues the packet behind everything that waits. It costs nothing while a
      block is idle, and otherwise exactly the oldest waiting block. */
  lemma UndisturbedDelivery(p: Pool, packet: Block)
    requires Inv(p) && p.worker.Waiting? && packet.channels > 0
    ensures var q := Run(p, [Receive(packet), WorkerStep, WorkerStep, WorkerStep]);
      && q.worker.Waiting? && q.played == p.played && q.current == p.current
      && (p.free != [] ==> q.ready == p.ready + [packet] && q.lost == p.lost)
      && (p.free == [] ==> p.ready != [] && q.ready == p.ready[1..] + [packet]
                           && q.lost == p.lost + FrameCount(p.ready[0]))
  {
    var r, w := Receive(packet), WorkerStep;
    RunOne(p, [], r);
    RunOne(p, [r], w);
    RunOne(p, [r, w], w);
    RunOne(p, [r, w, w], w);
    assert [] + [r] == [r] && [r] + [w] == [r, w] && [r, w] + [w] == [r, w, w] && [r, w, w] + [w] == [r, w, w, w];
  }

  // ---------------------------------------------------------------- refusal

  /** The worker makes no move. */
  ghost predicate WorkerWaits(schedule: seq<Action>) {
    forall i :: 0 <= i < |schedule| ==> !schedule[i].WorkerStep?
  }

  /** While the worker waits between its two pops, only the blocks the callback begins leave the
      queue. */
  lemma {:induction false} WaitingWorker(p: Pool, schedule: seq<Action>)
    requires WorkerWaits(schedule) && !p.worker.Waiting?
    ensures var q := Run(p, schedule);
      && q.worker == p.worker
      && |p.begun| <= |q.begun| <= |p.begun| + |p.ready|
      && q.ready == p.ready[|q.begun| - |p.begun|..]
    decreases |schedule|
  {
    if schedule != [] {
      WaitingWorker(p, schedule[..|schedule| - 1]);
    }
  }

  /** Exactly when the worker refuses a packet for lack of a block: it found no idle block at its
      first pop, and before its second pop the callback began every block that waited. */
  lemma RefusedIffPlayed(p: Pool, packet: Block, schedule: seq<Action>)
    requires Inv(p) && p.worker == PopFree(packet) && WorkerWaits(schedule)
    ensures var q := Run(StepWorker(p), schedule);
      && (p.free == [] ==> |p.ready| >= QUEUE_CAPACITY - 1)
      && ((q.worker.PopReady? && StepWorker(q).worker.Waiting?) <==>
          (p.free == [] && |q.begun| - |p.begun| == |p.ready|))
  {
    WaitingWorker(StepWorker(p), schedule);
  }

  /** With no block idle at least fifteen wait, so a callback that begins fewer costs no packet. */
  lemma FewBeginningsNeverRefuse(p: Pool, packet: Block, schedule: seq<Action>)
    requires Inv(p) && p.worker == PopFree(packet) && WorkerWaits(schedule)
    requires |Run(StepWorker(p), schedule).begun| < |p.begun| + QUEUE_CAPACITY - 1
    ensures var q := Run(StepWorker(p), schedule);
      q.worker.PushReady? || (q.worker.PopReady? && StepWorker(q).worker.PushReady?)
  {
    RefusedIffPlayed(p, packet, schedule);
    WaitingWorker(StepWorker(p), schedule);
  }

  ghost predicate Reachable(p: Pool) {
    exists schedule :: p == Run(Initial(), schedule)
  }

  lemma Advance(p: Pool, a: Action) returns (q: Pool)
    requires Reachable(p) && Enabled(p, a)
    ensures q == Apply(p, a) && Reachable(q)
  {
    var schedule :| p == Run(Initial(), schedule);
    assert (schedule + [a])[..|schedule|] == schedule;
    q := Apply(p, a);
    assert q == Run(Initial(), schedule + [a]);
  }

  const MONO_FRAME := Block([0.0], 1)

  lemma Delivery(p: Pool) returns (q: Pool)
    requires Reachable(p) && p.worker.Waiting? && p.free != [] && |p.ready| < QUEUE_CAPACITY
    ensures Reachable(q) && q.worker.Waiting? && q.current == p.current && q.left == p.left
    ensures q.free == p.free[1..] && q.ready == p.ready + [MONO_FRAME]
  {
    q := Advance(p, Receive(MONO_FRAME));
    q := Advance(q, WorkerStep);
    q := Advance(q, WorkerStep);
  }

  lemma AllWaiting() returns (p: Pool)
    ensures Reachable(p) && p.worker.PopReady? && p.current.None? && p.left == QUEUE_CAPACITY
    ensures p.free == [] && |p.ready| == QUEUE_CAPACITY
    ensures forall i :: 0 <= i < |p.ready| ==> p.ready[i] == MONO_FRAME
  {
    p := Initial();
    assert p == Run(Initial(), []);
    for k := 0 to QUEUE_CAPACITY
      invariant Reachable(p) && p.worker.Waiting? && p.current.None? && p.left == 0
      invariant |p.free| == QUEUE_CAPACITY - k && |p.ready| == k
      invariant forall i :: 0 <= i < k ==> p.ready[i] == MONO_FRAME
    {
      p := Delivery(p);
    }
    p := Advance(p, Receive(MONO_FRAME));
    p := Advance(p, WorkerStep);
    p := Advance(p, Host(QUEUE_CAPACITY));
  }

  /** Begins and plays the oldest waiting one-frame block. */
  lemma Consumption(p: Pool) returns (q: Pool)
    requires Reachable(p) && p.current.None? && p.left > 0 && p.ready != [] && p.ready[0] == MONO_FRAME
    ensures Reachable(q) && q.worker == p.worker && q.left == p.left - 1
    ensures q.free == p.free && q.ready == p.ready[1..]
    ensures q.current == Some(MONO_FRAME) && q.blockOffset == 1
  {
    q := Advance(p, CallbackStep);
    q := Advance(q, CallbackStep);
  }

  /** The race exists: some run refuses a packet although all blocks but the playing one idle. */
  lemma RefusalIsReachable() returns (p: Pool)
    ensures Reachable(p) && p.worker.PopReady? && StepWorker(p).worker.Waiting?
    ensures |p.free| == QUEUE_CAPACITY - 1
  {
    p := AllWaiting();
    p := Consumption(p);
    for k := 1 to QUEUE_CAPACITY
      invariant Reachable(p) && p.worker.PopReady?
      invariant p.current == Some(MONO_FRAME) && p.blockOffset == 1
      invariant p.left == |p.ready| == QUEUE_CAPACITY - k && |p.free| == k - 1
      invariant forall i :: 0 <= i < |p.ready| ==> p.ready[i] == MONO_FRAME
    {
      p := Advance(p, CallbackStep);
      p := Consumption(p);
    }
  }
}
