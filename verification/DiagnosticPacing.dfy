/** Frame positions and clock readings (crates/audio-core/src/diagnostic_publish.rs). */
module FrameClock {
  import opened Interleaving
  import opened MachineIntegers

  const NANOS: nat := 1_000_000_000

  /** A clock reading: whole seconds and the nanoseconds beyond them. */
  datatype Duration = Duration(secs: nat, subsecNanos: nat)

  function Saturate(x: nat): nat {
    Min(x, U64_MAX)
  }

  function TotalNanos(d: Duration): nat {
    d.secs * NANOS + d.subsecNanos
  }

  function FromNanos(ns: nat): (d: Duration)
    ensures d.subsecNanos < NANOS && TotalNanos(d) == ns
  {
    Duration(ns / NANOS, ns % NANOS)
  }

  /** Computed in two parts so that no product leaves its integer type. */
  function ElapsedFrames(elapsed: Duration, rate: nat): nat {
    Saturate(Saturate(elapsed.secs * rate) + Quotient(elapsed.subsecNanos * rate, NANOS))
  }

  function FramesToNanoseconds(position: nat, rate: nat): nat {
    if rate == 0 then 0 else Saturate(Quotient(position * NANOS, rate))
  }

  /** The two parts add up to the exact floor of time times rate. */
  lemma PartsAddUp(d: Duration, rate: nat)
    ensures TotalNanos(d) * rate / NANOS == d.secs * rate + Quotient(d.subsecNanos * rate, NANOS)
  {
    assert TotalNanos(d) * rate == (d.secs * rate) * NANOS + d.subsecNanos * rate;
    DivModShift(d.subsecNanos * rate, NANOS, d.secs * rate);
  }

  /** Absent saturation the split computation is the exact floor of time times rate. */
  lemma ElapsedFramesExact(d: Duration, rate: nat)
    requires TotalNanos(d) * rate / NANOS <= U64_MAX
    ensures ElapsedFrames(d, rate) == TotalNanos(d) * rate / NANOS
  {
    PartsAddUp(d, rate);
  }

  /** A later reading never counts fewer frames. */
  lemma ElapsedFramesMonotone(a: Duration, b: Duration, rate: nat)
    requires a.subsecNanos < NANOS && b.subsecNanos < NANOS && TotalNanos(a) <= TotalNanos(b)
    ensures ElapsedFrames(a, rate) <= ElapsedFrames(b, rate)
  {
    PartsAddUp(a, rate);
    PartsAddUp(b, rate);
    FloorMonotone(TotalNanos(a), TotalNanos(b), rate);
    MulLe(a.secs, b.secs, rate);
    SaturatedSums(a.secs * rate, Quotient(a.subsecNanos * rate, NANOS),
                  b.secs * rate, Quotient(b.subsecNanos * rate, NANOS));
  }

  lemma FloorMonotone(x: nat, y: nat, rate: nat)
    requires x <= y
    ensures x * rate / NANOS <= y * rate / NANOS
  {
    MulLe(x, y, rate);
    DivLe(Quotient(x * rate, NANOS), x * rate, NANOS);
    DivLe(Quotient(x * rate, NANOS), y * rate, NANOS);
  }

  lemma SaturatedSums(a: nat, x: nat, b: nat, y: nat)
    requires a <= b && a + x <= b + y
    ensures Saturate(Saturate(a) + x) <= Saturate(Saturate(b) + y)
  {
  }

  lemma FloorBack(f: nat, ns: nat, r: nat, rate: nat)
    requires f * NANOS == ns * rate + r && r < rate <= NANOS
    ensures ns * rate / NANOS == (if r == 0 then f else f - 1)
    ensures f <= (ns + 1) * rate / NANOS
  {
    assert (ns + 1) * rate == ns * rate + rate;
    DivLe(f, (ns + 1) * rate, NANOS);
    if r == 0 {
      DivModUnique(ns * rate, NANOS, f, 0);
    } else {
      DivModUnique(ns * rate, NANOS, f - 1, NANOS - r);
    }
  }

  /** A frame position, turned into nanoseconds and back, comes out one frame short unless it
      falls on a whole nanosecond; one nanosecond later it is always reached. */
  lemma PositionRoundTrip(f: nat, rate: nat)
    requires 0 < rate <= NANOS && f * NANOS / rate < U64_MAX && f <= U64_MAX
    ensures var ns := FramesToNanoseconds(f, rate);
      && ElapsedFrames(FromNanos(ns), rate) == (if (f * NANOS) % rate == 0 then f else f - 1)
      && f <= ElapsedFrames(FromNanos(ns + 1), rate)
  {
    var ns := FramesToNanoseconds(f, rate);
    FloorBack(f, ns, (f * NANOS) % rate, rate);
    PartsAddUp(FromNanos(ns), rate);
    PartsAddUp(FromNanos(ns + 1), rate);
  }

  /** At 44.1 kHz frame 1 lies between two nanoseconds; its timestamp is the earlier one, at which
      the clock has not reached it. */
  lemma FirstFrameComesBackShort()
    ensures FramesToNanoseconds(1, 44_100) == 22_675
    ensures ElapsedFrames(FromNanos(22_675), 44_100) == 0 && ElapsedFrames(FromNanos(22_676), 44_100) == 1
  {
    assert Quotient(NANOS, 44_100) == 22_675;
    PositionRoundTrip(1, 44_100);
    ElapsedFramesExact(FromNanos(22_676), 44_100);
  }

  /** Distinct positions have distinct timestamps. */
  lemma TimestampsIncrease(f: nat, g: nat, rate: nat)
    requires 0 < rate <= NANOS && f < g && g * NANOS / rate <= U64_MAX
    ensures FramesToNanoseconds(f, rate) < FramesToNanoseconds(g, rate)
  {
    var q := Quotient(f * NANOS, rate);
    assert f * NANOS == q * rate + (f * NANOS) % rate;
    assert (q + 1) * rate == q * rate + rate;
    MulLe(f + 1, g, NANOS);
    assert (f + 1) * NANOS == f * NANOS + NANOS;
    DivLe(q + 1, g * NANOS, rate);
    DivLe(q, g * NANOS, rate);
  }
}

/** The diagnostic publisher's pacing loop: it generates frames to keep up with a clock, gives
    up what it cannot catch up with, and idles along while nobody is subscribed. */
module DiagnosticPacing {
  import opened FrameClock
  import opened Interleaving
  import opened MachineIntegers

  const MAX_CATCH_UP_MILLISECONDS: nat := 20

  /** One loop iteration's view of the world: the clock's target frame, whether anyone is
      subscribed, and whether the encoder completes a packet. */
  datatype Tick = Tick(target: nat, subscribed: bool, packetReady: bool)

  datatype Sent = NoPacket | Packet(timestampNs: nat)

  datatype Pacer = Pacer(timeline: nat, generated: nat, skipped: nat, sequence: nat, packets: nat)

  /** The loop's state with what the code does not record: frames passed over while idle, and
      the timeline position each packet was stamped with. */
  datatype Trace = Trace(pacer: Pacer, idled: nat, stamped: seq<nat>)

  function CatchUp(rate: nat, maximumFrames: nat): nat {
    var window := Quotient(rate * MAX_CATCH_UP_MILLISECONDS, 1_000);
    if window < maximumFrames then maximumFrames else window
  }

  /** Where the timeline stands once stale frames have been skipped. */
  function AfterSkip(timeline: nat, target: nat, catchUp: nat): nat {
    if timeline + catchUp < target then target - catchUp else timeline
  }

  function Step(t: Trace, tick: Tick, catchUp: nat, maximumFrames: nat): Trace {
    var p := t.pacer;
    if !tick.subscribed then
      var idle := if tick.target < p.timeline then 0 else tick.target - p.timeline;
      Trace(p.(timeline := tick.target), t.idled + idle, t.stamped)
    else if tick.target <= p.timeline then t
    else
      var start := AfterSkip(p.timeline, tick.target, catchUp);
      var frames := if start < tick.target then Min(tick.target - start, maximumFrames) else 0;
      var q := p.(timeline := start + frames, generated := p.generated + frames,
                  skipped := p.skipped + (start - p.timeline));
      if frames == 0 || !tick.packetReady then Trace(q, t.idled, t.stamped)
      else Trace(q.(sequence := (p.sequence + 1) % U32_LIMIT, packets := p.packets + 1),
                 t.idled, t.stamped + [start])
  }

  const START: Trace := Trace(Pacer(0, 0, 0, 0, 0), 0, [])

  function Run(ticks: seq<Tick>, catchUp: nat, maximumFrames: nat): Trace {
    if ticks == [] then START
    else Step(Run(ticks[..|ticks| - 1], catchUp, maximumFrames), ticks[|ticks| - 1], catchUp, maximumFrames)
  }

  function Target(ticks: seq<Tick>): nat {
    if ticks == [] then 0 else ticks[|ticks| - 1].target
  }

  /** The targets never decrease, and they fit the counters. */
  ghost predicate Monotone(ticks: seq<Tick>) {
    && (forall i, j :: 0 <= i < j < |ticks| ==> ticks[i].target <= ticks[j].target)
    && (forall i :: 0 <= i < |ticks| ==> ticks[i].target <= U64_MAX)
  }

  /** What one iteration observes: the time since the start, whether anyone is subscribed, and
      whether the encoder completes a packet. */
  datatype Wake = Wake(elapsed: Duration, subscribed: bool, packetReady: bool)

  /** The clock does not run backwards. */
  ghost predicate MonotoneClock(wakes: seq<Wake>) {
    && (forall i :: 0 <= i < |wakes| ==> wakes[i].elapsed.subsecNanos < NANOS)
    && (forall i, j :: 0 <= i < j < |wakes| ==> TotalNanos(wakes[i].elapsed) <= TotalNanos(wakes[j].elapsed))
  }

  function Ticks(wakes: seq<Wake>, rate: nat): (r: seq<Tick>)
    ensures |r| == |wakes|
  {
    seq(|wakes|, i requires 0 <= i < |wakes| =>
      Tick(ElapsedFrames(wakes[i].elapsed, rate), wakes[i].subscribed, wakes[i].packetReady))
  }

  /** Targets computed from a clock that does not run backwards are monotone. */
  lemma ClockDrivesTargets(wakes: seq<Wake>, rate: nat)
    requires MonotoneClock(wakes)
    ensures Monotone(Ticks(wakes, rate))
  {
    var ticks := Ticks(wakes, rate);
    forall i, j | 0 <= i < j < |ticks| ensures ticks[i].target <= ticks[j].target {
      ElapsedFramesMonotone(wakes[i].elapsed, wakes[j].elapsed, rate);
    }
  }

  // ---------------------------------------------------------------- the loop body

  class DiagnosticPublisher {
    const sampleRate: nat
    const maximumFramesPerPacket: nat
    var timeline: nat
    var generatedFrames: nat
    var skippedCatchUpFrames: nat
    var sequenceNumber: nat
    var packetsBuilt: nat
    ghost var idled: nat
    ghost var stamped: seq<nat>

    constructor (sampleRate: nat, maximumFramesPerPacket: nat)
      ensures this.sampleRate == sampleRate && this.maximumFramesPerPacket == maximumFramesPerPacket
      ensures View() == START
    {
      this.sampleRate, this.maximumFramesPerPacket := sampleRate, maximumFramesPerPacket;
      timeline, generatedFrames, skippedCatchUpFrames, sequenceNumber, packetsBuilt := 0, 0, 0, 0, 0;
      idled, stamped := 0, [];
    }

    ghost function View(): Trace
      reads this
    {
      Trace(Pacer(timeline, generatedFrames, skippedCatchUpFrames, sequenceNumber, packetsBuilt), idled, stamped)
    }

    /** One iteration, with the saturating counters of the code; they never saturate, because
        every counter stays at or below the timeline and the timeline below the target. The
        result is the timestamp of the packet sent, if one was. */
    method Iterate(target: nat, subscribed: bool, packetReady: bool) returns (sent: Sent)
      requires maximumFramesPerPacket > 0 && sampleRate > 0
      requires timeline <= target <= U64_MAX && generatedFrames + skippedCatchUpFrames + idled == timeline
      requires packetsBuilt <= generatedFrames
      modifies this
      ensures View() == Step(old(View()), Tick(target, subscribed, packetReady),
                             CatchUp(sampleRate, maximumFramesPerPacket), maximumFramesPerPacket)
      ensures sent.Packet? <==> |stamped| > |old(stamped)|
      ensures sent.Packet? ==> sent.timestampNs == FramesToNanoseconds(stamped[|stamped| - 1], sampleRate)
    {
      if !subscribed {
        idled := idled + (target - timeline);
        timeline := target;
        return NoPacket;
      }
      if target <= timeline {
        return NoPacket;
      }
      var maximumCatchUp := CatchUp(sampleRate, maximumFramesPerPacket);
      var framesDue := target - timeline;
      if framesDue > maximumCatchUp {
        var skipped := framesDue - maximumCatchUp;
        timeline := Saturate(timeline + skipped);
        skippedCatchUpFrames := Saturate(skippedCatchUpFrames + skipped);
      }
      framesDue := target - timeline;
      var framesToGenerate := Min(framesDue, maximumFramesPerPacket);
      if framesToGenerate == 0 {
        return NoPacket;
      }
      var presentation := FramesToNanoseconds(timeline, sampleRate);
      if !packetReady {
        generatedFrames := Saturate(generatedFrames + framesToGenerate);
        timeline := Saturate(timeline + framesToGenerate);
        return NoPacket;
      }
      packetsBuilt := Saturate(packetsBuilt + 1);
      stamped := stamped + [timeline];
      generatedFrames := Saturate(generatedFrames + framesToGenerate);
      timeline := Saturate(timeline + framesToGenerate);
      sequenceNumber := (sequenceNumber + 1) % U32_LIMIT;
      return Packet(presentation);
    }
  }

  // ---------------------------------------------------------------- every run

  /** What holds after each iteration: the timeline trails the clock by at most the catch-up
      window, and every frame of it is accounted for once. */
  ghost predicate Paced(t: Trace, target: nat, catchUp: nat) {
    && t.pacer.timeline <= target <= t.pacer.timeline + catchUp
    && t.pacer.timeline == t.pacer.generated + t.pacer.skipped + t.idled
    && t.pacer.packets == |t.stamped| <= t.pacer.generated
    && t.pacer.sequence == t.pacer.packets % U32_LIMIT
    && (forall i, j :: 0 <= i < j < |t.stamped| ==> t.stamped[i] < t.stamped[j])
    && (forall i :: 0 <= i < |t.stamped| ==> t.stamped[i] < t.pacer.timeline)
  }

  lemma StepPaced(t: Trace, from: nat, tick: Tick, catchUp: nat, maximumFrames: nat)
    requires Paced(t, from, catchUp) && from <= tick.target && 0 < maximumFrames <= catchUp
    ensures Paced(Step(t, tick, catchUp, maximumFrames), tick.target, catchUp)
  {
  }

  /** Every run of the loop against every clock and every pattern of subscribers is paced. */
  lemma {:induction false} EveryRunPaced(ticks: seq<Tick>, catchUp: nat, maximumFrames: nat)
    requires Monotone(ticks) && 0 < maximumFrames <= catchUp
    ensures Paced(Run(ticks, catchUp, maximumFrames), Target(ticks), catchUp)
    decreases |ticks|
  {
    if ticks != [] {
      var earlier := ticks[..|ticks| - 1];
      EveryRunPaced(earlier, catchUp, maximumFrames);
      StepPaced(Run(earlier, catchUp, maximumFrames), Target(earlier), ticks[|ticks| - 1], catchUp, maximumFrames);
    }
  }

  /** After n iterations the run meets the assumptions of the next one. */
  lemma NextIteration(ticks: seq<Tick>, n: nat, catchUp: nat, maximumFrames: nat)
    requires Monotone(ticks) && 0 < maximumFrames <= catchUp && n < |ticks|
    ensures var t := Run(ticks[..n], catchUp, maximumFrames);
      && t.pacer.timeline <= ticks[n].target <= U64_MAX
      && t.pacer.generated + t.pacer.skipped + t.idled == t.pacer.timeline && t.pacer.packets <= t.pacer.generated
      && Run(ticks[..n + 1], catchUp, maximumFrames) == Step(t, ticks[n], catchUp, maximumFrames)
  {
    EveryRunPaced(ticks[..n], catchUp, maximumFrames);
    assert ticks[..n + 1][..n] == ticks[..n];
  }

  /** The publisher's loop itself: driven by any clock that does not run backwards and by any
      subscribers it follows `Run`, every iteration meets the assumptions of `Iterate`, and the
      publisher ends up paced by its own catch-up window. */
  method Publish(publisher: DiagnosticPublisher, wakes: seq<Wake>)
    requires publisher.maximumFramesPerPacket > 0 && publisher.sampleRate > 0
    requires publisher.View() == START && MonotoneClock(wakes)
    modifies publisher
    ensures var ticks := Ticks(wakes, publisher.sampleRate);
      var catchUp := CatchUp(publisher.sampleRate, publisher.maximumFramesPerPacket);
      && publisher.View() == Run(ticks, catchUp, publisher.maximumFramesPerPacket)
      && Paced(publisher.View(), Target(ticks), catchUp)
  {
    ghost var maximum := publisher.maximumFramesPerPacket;
    ghost var catchUp := CatchUp(publisher.sampleRate, maximum);
    ghost var ticks := Ticks(wakes, publisher.sampleRate);
    ClockDrivesTargets(wakes, publisher.sampleRate);
    for n := 0 to |wakes|
      invariant publisher.View() == Run(ticks[..n], catchUp, maximum)
    {
      NextIteration(ticks, n, catchUp, maximum);
      var elapsedTargetFrames := ElapsedFrames(wakes[n].elapsed, publisher.sampleRate);
      var sent := publisher.Iterate(elapsedTargetFrames, wakes[n].subscribed, wakes[n].packetReady);
    }
    assert ticks[..|ticks|] == ticks;
    EveryRunPaced(ticks, catchUp, maximum);
  }

  /** The counters only grow. */
  lemma {:induction false} CountersGrow(ticks: seq<Tick>, i: nat, catchUp: nat, maximumFrames: nat)
    requires Monotone(ticks) && 0 < maximumFrames <= catchUp && i <= |ticks|
    ensures var a, b := Run(ticks[..i], catchUp, maximumFrames), Run(ticks, catchUp, maximumFrames);
      && a.pacer.generated <= b.pacer.generated && a.pacer.skipped <= b.pacer.skipped && a.idled <= b.idled
      && a.stamped <= b.stamped
    decreases |ticks|
  {
    if i < |ticks| {
      var earlier := ticks[..|ticks| - 1];
      CountersGrow(earlier, i, catchUp, maximumFrames);
      assert earlier[..i] == ticks[..i];
      EveryRunPaced(earlier, catchUp, maximumFrames);
    } else {
      assert ticks[..i] == ticks;
    }
  }

  // ---------------------------------------------------------------- what one iteration does

  function Due(timeline: nat, target: nat): nat {
    if target > timeline then target - timeline else 0
  }

  /** The due frames that a subscribed iteration is too late for. */
  function Stale(timeline: nat, tick: Tick, catchUp: nat): (r: nat)
    ensures r <= Due(timeline, tick.target)
  {
    if tick.subscribed && Due(timeline, tick.target) > catchUp then Due(timeline, tick.target) - catchUp else 0
  }

  /** One iteration from t to u: stale frames are skipped, other due frames are generated as far as a
      packet reaches, and while nobody is subscribed due frames are idled through. */
  ghost predicate Accounts(t: Trace, u: Trace, tick: Tick, catchUp: nat, maximumFrames: nat) {
    var due, stale := Due(t.pacer.timeline, tick.target), Stale(t.pacer.timeline, tick, catchUp);
    && u.pacer.skipped == t.pacer.skipped + stale
    && u.pacer.generated == t.pacer.generated + (if tick.subscribed then Min(due - stale, maximumFrames) else 0)
    && u.idled == t.idled + (if tick.subscribed then 0 else due)
  }

  /** A packet is sent exactly when frames were generated and the encoder is ready; it is stamped
      with the position of the first of them and numbered after the packet before. */
  ghost predicate Sends(t: Trace, u: Trace, tick: Tick) {
    if u.pacer.generated > t.pacer.generated && tick.packetReady
    then u.pacer.timeline + t.pacer.generated >= u.pacer.generated
         && u.stamped == t.stamped + [u.pacer.timeline + t.pacer.generated - u.pacer.generated]
         && u.pacer.sequence == (t.pacer.sequence + 1) % U32_LIMIT && u.pacer.packets == t.pacer.packets + 1
    else u.stamped == t.stamped && u.pacer.sequence == t.pacer.sequence && u.pacer.packets == t.pacer.packets
  }

  lemma StepAccounts(t: Trace, tick: Tick, catchUp: nat, maximumFrames: nat)
    requires t.pacer.timeline <= tick.target && 0 < maximumFrames <= catchUp
    ensures Accounts(t, Step(t, tick, catchUp, maximumFrames), tick, catchUp, maximumFrames)
  {
  }

  lemma StepSends(t: Trace, tick: Tick, catchUp: nat, maximumFrames: nat)
    requires t.pacer.timeline <= tick.target && 0 < maximumFrames <= catchUp
    ensures var u := Step(t, tick, catchUp, maximumFrames);
      Sends(t, u, tick)
  {
  }

  /** What every iteration of every run does. */
  lemma EveryIteration(ticks: seq<Tick>, n: nat, catchUp: nat, maximumFrames: nat)
    requires Monotone(ticks) && 0 < maximumFrames <= catchUp && n < |ticks|
    ensures var t, u := Run(ticks[..n], catchUp, maximumFrames), Run(ticks[..n + 1], catchUp, maximumFrames);
      && Accounts(t, u, ticks[n], catchUp, maximumFrames)
      && Sends(t, u, ticks[n])
  {
    NextIteration(ticks, n, catchUp, maximumFrames);
    StepAccounts(Run(ticks[..n], catchUp, maximumFrames), ticks[n], catchUp, maximumFrames);
    StepSends(Run(ticks[..n], catchUp, maximumFrames), ticks[n], catchUp, maximumFrames);
  }

  /** The loop is woken in time: someone is always subscribed, and no target is more than a packet
      past the one before. */
  predicate Prompt(ticks: seq<Tick>, maximumFrames: nat) {
    ticks == [] ||
    var earlier, tick := ticks[..|ticks| - 1], ticks[|ticks| - 1];
    Prompt(earlier, maximumFrames) && tick.subscribed && tick.target <= Target(earlier) + maximumFrames
  }

  /** A loop woken in time keeps up exactly: nothing is skipped and every frame due is generated. */
  lemma {:induction false} PromptRunKeepsUp(ticks: seq<Tick>, catchUp: nat, maximumFrames: nat)
    requires Monotone(ticks) && Prompt(ticks, maximumFrames) && 0 < maximumFrames <= catchUp
    ensures var t := Run(ticks, catchUp, maximumFrames);
      t.pacer.skipped == 0 && t.idled == 0 && t.pacer.generated == t.pacer.timeline == Target(ticks)
    decreases |ticks|
  {
    if ticks != [] {
      var n := |ticks| - 1;
      PromptRunKeepsUp(ticks[..n], catchUp, maximumFrames);
      assert ticks[..n + 1] == ticks;
      EveryIteration(ticks, n, catchUp, maximumFrames);
      NextIteration(ticks, n, catchUp, maximumFrames);
      RunAccounted(ticks, catchUp, maximumFrames);
    }
  }

  lemma RunAccounted(ticks: seq<Tick>, catchUp: nat, maximumFrames: nat)
    requires Monotone(ticks) && 0 < maximumFrames <= catchUp
    ensures var t := Run(ticks, catchUp, maximumFrames);
      t.pacer.timeline == t.pacer.generated + t.pacer.skipped + t.idled
  {
    EveryRunPaced(ticks, catchUp, maximumFrames);
  }

  /** The catch-up window is twenty milliseconds' worth of frames, but at least a packet. */
  lemma CatchUpIsTwentyMilliseconds(rate: nat, maximumFrames: nat)
    requires rate < U32_LIMIT
    ensures CatchUp(rate, maximumFrames) >= maximumFrames
    ensures CatchUp(rate, maximumFrames) == ElapsedFrames(FromNanos(20_000_000), rate)
        || (CatchUp(rate, maximumFrames) == maximumFrames > ElapsedFrames(FromNanos(20_000_000), rate))
  {
    var window := Quotient(rate * MAX_CATCH_UP_MILLISECONDS, 1_000);
    assert FromNanos(20_000_000) == Duration(0, 20_000_000);
    DivModUnique(20_000_000 * rate, NANOS, window, (rate * 20 % 1_000) * 1_000_000);
    assert window <= U64_MAX;
  }

  /** However late the loop runs and whenever subscribers come, the frames generated between
      two moments exceed the clock's own advance by at most the catch-up window; all the frames
      the timeline passed are generated, skipped or idled through. */
  lemma BurstBound(ticks: seq<Tick>, i: nat, catchUp: nat, maximumFrames: nat)
    requires Monotone(ticks) && 0 < maximumFrames <= catchUp && i <= |ticks|
    ensures var a, b := Run(ticks[..i], catchUp, maximumFrames), Run(ticks, catchUp, maximumFrames);
      && b.pacer.generated - a.pacer.generated <= Target(ticks) - Target(ticks[..i]) + catchUp
      && (b.pacer.generated - a.pacer.generated) + (b.pacer.skipped - a.pacer.skipped) + (b.idled - a.idled)
           == b.pacer.timeline - a.pacer.timeline
  {
    CountersGrow(ticks, i, catchUp, maximumFrames);
    EveryRunPaced(ticks, catchUp, maximumFrames);
    EveryRunPaced(ticks[..i], catchUp, maximumFrames);
  }

  /** Successive packets carry strictly increasing timestamps. */
  lemma PacketTimestampsIncrease(ticks: seq<Tick>, rate: nat, catchUp: nat, maximumFrames: nat, i: nat, j: nat)
    requires Monotone(ticks) && 0 < maximumFrames <= catchUp && 0 < rate <= NANOS
    requires i < j < |Run(ticks, catchUp, maximumFrames).stamped|
    requires Target(ticks) * NANOS / rate <= U64_MAX
    ensures var stamped := Run(ticks, catchUp, maximumFrames).stamped;
      FramesToNanoseconds(stamped[i], rate) < FramesToNanoseconds(stamped[j], rate)
  {
    EveryRunPaced(ticks, catchUp, maximumFrames);
    var stamped := Run(ticks, catchUp, maximumFrames).stamped;
    MulLe(stamped[j], Target(ticks), NANOS);
    DivLe(Quotient(stamped[j] * NANOS, rate), Target(ticks) * NANOS, rate);
    DivLe(Quotient(stamped[j] * NANOS, rate), stamped[j] * NANOS, rate);
    TimestampsIncrease(stamped[i], stamped[j], rate);
  }

}
