/** Loss counting from wrapping sequence numbers (crates/audio-core/src/asio_subscribe.rs). */
module SequenceLoss {
  import opened Interleaving
  import opened MachineIntegers
  import opened Wrappers

  const MAX_COUNTED_GAP: nat := 1_000_000

  datatype Statistics = Statistics(last: Option<nat>, dropped: nat)

  function Wrap(x: int): nat {
    x % U32_LIMIT
  }

  /** What one packet adds, written with the code's wrapping arithmetic. */
  function Updated(s: Statistics, sequence: nat): Statistics {
    Statistics(Some(sequence),
      if s.last.None? then s.dropped
      else
        var expected := Wrap(s.last.value + 1);
        var gap := Wrap(sequence - expected);
        if sequence != expected && gap < MAX_COUNTED_GAP then Min(s.dropped + gap, U64_MAX) else s.dropped)
  }

  method UpdateSequenceStatistics(sequenceNumber: nat, lastSequence: Option<nat>, packetsDropped: nat)
    returns (last: Option<nat>, dropped: nat)
    requires sequenceNumber < U32_LIMIT && (lastSequence.Some? ==> lastSequence.value < U32_LIMIT)
    ensures Statistics(last, dropped) == Updated(Statistics(lastSequence, packetsDropped), sequenceNumber)
    ensures last == Some(sequenceNumber) && (packetsDropped <= U64_MAX ==> packetsDropped <= dropped <= U64_MAX)
  {
    dropped := packetsDropped;
    if lastSequence.Some? {
      var expected := (lastSequence.value + 1) % U32_LIMIT;
      if sequenceNumber != expected {
        var gap := (sequenceNumber + U32_LIMIT - expected) % U32_LIMIT;
        assert gap == Wrap(sequenceNumber - expected);
        if gap < MAX_COUNTED_GAP {
          dropped := Min(dropped + gap, U64_MAX);
        }
      }
    }
    last := Some(sequenceNumber);
  }

  /** The packets missing between two packets whose true numbers differ by `advance`, as far as
      the counter believes them. */
  function Believed(advance: nat): nat {
    if 1 <= advance <= MAX_COUNTED_GAP then advance - 1 else 0
  }

  /** The wrapped gap between two wrapped numbers is the true one. */
  lemma WrappedGap(position: nat, advance: nat)
    requires 1 <= advance <= U32_LIMIT
    ensures Wrap(Wrap(position + advance) - Wrap(Wrap(position) + 1)) == advance - 1
  {
    var a, b := (position + advance) / U32_LIMIT, position / U32_LIMIT;
    var gap := Wrap(position + advance) - Wrap(Wrap(position) + 1);
    var c := (Wrap(position) + 1) / U32_LIMIT;
    assert gap == (advance - 1) + (b + c - a) * U32_LIMIT;
  }

  /** Wrap-around is invisible: only the true advance decides what is counted. */
  lemma AdvanceCounts(s: Statistics, position: nat, advance: nat)
    requires s.last == Some(Wrap(position)) && 1 <= advance <= U32_LIMIT
    ensures Updated(s, Wrap(position + advance)).dropped
         == if Believed(advance) > 0 then Min(s.dropped + Believed(advance), U64_MAX) else s.dropped
  {
    WrappedGap(position, advance);
  }

  /** A run: the first packet's true number, then the true advance before each later packet. */
  function Position(first: nat, advances: seq<nat>): nat {
    if advances == [] then first else Position(first, advances[..|advances| - 1]) + advances[|advances| - 1]
  }

  function Received(first: nat, advances: seq<nat>): Statistics {
    if advances == [] then Updated(Statistics(None, 0), Wrap(first))
    else Updated(Received(first, advances[..|advances| - 1]), Wrap(Position(first, advances)))
  }

  function BelievedSum(advances: seq<nat>): nat {
    if advances == [] then 0 else BelievedSum(advances[..|advances| - 1]) + Believed(advances[|advances| - 1])
  }

  /** Every advance is between 1 and one full turn of the counter, which covers repeats and
      reordering: going back by b is advancing by 2^32 - b. */
  ghost predicate Turns(advances: seq<nat>) {
    forall i :: 0 <= i < |advances| ==> 1 <= advances[i] <= U32_LIMIT
  }

  /** The counter of a run of any length, wrapping any number of times. */
  lemma {:induction false} RunCounts(first: nat, advances: seq<nat>)
    requires Turns(advances)
    ensures Received(first, advances)
         == Statistics(Some(Wrap(Position(first, advances))), Min(BelievedSum(advances), U64_MAX))
    decreases |advances|
  {
    if advances != [] {
      var earlier := advances[..|advances| - 1];
      RunCounts(first, earlier);
      AdvanceCounts(Received(first, earlier), Position(first, earlier), advances[|advances| - 1]);
    }
  }

  lemma {:induction false} BelievedWhenSmall(first: nat, advances: seq<nat>)
    requires Turns(advances)
    ensures BelievedSum(advances) + |advances| <= Position(first, advances) - first
    ensures BelievedSum(advances) + |advances| == Position(first, advances) - first
        <==> forall i :: 0 <= i < |advances| ==> advances[i] <= MAX_COUNTED_GAP
    decreases |advances|
  {
    if advances != [] {
      var n := |advances| - 1;
      BelievedWhenSmall(first, advances[..n]);
      assert forall i :: 0 <= i < n ==> advances[..n][i] == advances[i];
    }
  }

  /** Until the counter saturates, dropped plus received is one plus the total advance exactly
      when no single advance exceeds a million. */
  lemma LossIsExactIff(first: nat, advances: seq<nat>)
    requires Turns(advances) && BelievedSum(advances) <= U64_MAX
    ensures Received(first, advances).dropped + (1 + |advances|) == 1 + (Position(first, advances) - first)
        <==> forall i :: 0 <= i < |advances| ==> advances[i] <= MAX_COUNTED_GAP
  {
    RunCounts(first, advances);
    BelievedWhenSmall(first, advances);
  }

  /** One advance of a million and one: a million packets are missing and none is counted. */
  lemma LongGapUncounted()
    ensures Received(0, [MAX_COUNTED_GAP + 1]) == Statistics(Some(MAX_COUNTED_GAP + 1), 0)
    ensures Position(0, [MAX_COUNTED_GAP + 1]) == MAX_COUNTED_GAP + 1
  {
    assert Position(0, [MAX_COUNTED_GAP + 1]) == Position(0, []) + (MAX_COUNTED_GAP + 1);
    assert BelievedSum([MAX_COUNTED_GAP + 1]) == BelievedSum([]) + Believed(MAX_COUNTED_GAP + 1);
    RunCounts(0, [MAX_COUNTED_GAP + 1]);
  }
}
