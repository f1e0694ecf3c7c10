/** The lock-free peak cell (crates/audio-core/src/signal_meter.rs): writers raise it with a
    compare-exchange loop while readers swap it to zero. Each load, compare-exchange and swap is
    one atomic step; the loop's comparison is local to its thread. */
module PeakCell {
  import opened Wrappers

  function Max(a: real, b: real): real {
    if a < b then b else a
  }

  // ---------------------------------------------------------------- the sequential meter

  /** What an uninterrupted meter does: an observation raises the cell, a snapshot reports and
      clears it. `call` names the observation. */
  datatype Effect = Observed(call: nat, peak: real) | Snapshot(reported: real)

  function CellAfter(history: seq<Effect>): real {
    if history == [] then 0.0
    else match history[|history| - 1]
      case Observed(_, peak) => Max(CellAfter(history[..|history| - 1]), peak)
      case Snapshot(_) => 0.0
  }

  /** Every snapshot reports what the sequential meter would. */
  ghost predicate Legal(history: seq<Effect>) {
    forall i :: 0 <= i < |history| && history[i].Snapshot? ==> history[i].reported == CellAfter(history[..i])
  }

  // ---------------------------------------------------------------- the concurrent meter

  /** The bookkeeping of one call: how much history there was when it began and when it
      returned, and where in the history it took effect. */
  datatype Call = Call(peak: real, began: nat, effect: Option<nat>, ended: Option<nat>)

  datatype Writer =
    | Idle
    | Called(call: nat)                  // before the first load
    | Retrying(call: nat, current: real) // loaded a smaller value; about to compare-exchange
    | Covered(call: nat)                 // saw a cell that is large enough; about to return

  datatype Meter = Meter(cell: real, writers: seq<Writer>, history: seq<Effect>, calls: seq<Call>)

  datatype Action =
    | Observe(writer: nat, peak: real)
    | Load(writer: nat)
    | ExchangeSucceeds(writer: nat)
    | ExchangeFails(writer: nat)         // spuriously or because the cell changed
    | Return(writer: nat)
    | Swap

  function Initial(writers: nat): Meter {
    Meter(0.0, seq(writers, _ => Idle), [], [])
  }

  predicate Enabled(m: Meter, a: Action) {
    match a
    case Swap => true
    case Observe(w, peak) => w < |m.writers| && m.writers[w].Idle? && peak >= 0.0
    case Load(w) => w < |m.writers| && m.writers[w].Called? && m.writers[w].call < |m.calls|
    case ExchangeSucceeds(w) =>
      w < |m.writers| && m.writers[w].Retrying? && m.writers[w].call < |m.calls| && m.cell == m.writers[w].current
    case ExchangeFails(w) => w < |m.writers| && m.writers[w].Retrying? && m.writers[w].call < |m.calls|
    case Return(w) => w < |m.writers| && m.writers[w].Covered? && m.writers[w].call < |m.calls|
  }

  /** The loop head: return if the value read is large enough, otherwise try to replace it. */
  function Compare(m: Meter, w: nat, k: nat, current: real): Meter
    requires w < |m.writers| && k < |m.calls|
  {
    if m.calls[k].peak <= current then
      m.(writers := m.writers[w := Covered(k)],
         history := m.history + [Observed(k, m.calls[k].peak)],
         calls := m.calls[k := m.calls[k].(effect := Some(|m.history|))])
    else
      m.(writers := m.writers[w := Retrying(k, current)])
  }

  function Apply(m: Meter, a: Action): Meter
    requires Enabled(m, a)
  {
    match a
    case Swap => m.(cell := 0.0, history := m.history + [Snapshot(m.cell)])
    case Observe(w, peak) =>
      m.(writers := m.writers[w := Called(|m.calls|)],
         calls := m.calls + [Call(peak, |m.history|, None, None)])
    case Load(w) => Compare(m, w, m.writers[w].call, m.cell)
    case ExchangeFails(w) => Compare(m, w, m.writers[w].call, m.cell)
    case ExchangeSucceeds(w) =>
      var k := m.writers[w].call;
      m.(cell := m.calls[k].peak,
         writers := m.writers[w := Idle],
         history := m.history + [Observed(k, m.calls[k].peak)],
         calls := m.calls[k := m.calls[k].(effect := Some(|m.history|), ended := Some(|m.history| + 1))])
    case Return(w) =>
      var k := m.writers[w].call;
      m.(writers := m.writers[w := Idle],
         calls := m.calls[k := m.calls[k].(ended := Some(|m.history|))])
  }

  /** Any schedule of any steps; a step that is not possible is passed over. */
  function Run(m: Meter, schedule: seq<Action>): Meter {
    if schedule == [] then m
    else
      var before := Run(m, schedule[..|schedule| - 1]);
      var a := schedule[|schedule| - 1];
      if Enabled(before, a) then Apply(before, a) else before
  }

  // ---------------------------------------------------------------- the invariant

  ghost predicate WriterOk(m: Meter, writer: Writer) {
    match writer
    case Idle => true
    case Called(k) => k < |m.calls| && m.calls[k].effect.None? && m.calls[k].ended.None?
    case Retrying(k, current) =>
      k < |m.calls| && m.calls[k].effect.None? && m.calls[k].ended.None? && current < m.calls[k].peak
    case Covered(k) => k < |m.calls| && m.calls[k].effect.Some? && m.calls[k].ended.None?
  }

  /** A call takes effect once, between its beginning and its end. */
  ghost predicate CallOk(m: Meter, k: nat)
    requires k < |m.calls|
  {
    var c := m.calls[k];
    && c.peak >= 0.0
    && c.began <= |m.history|
    && (c.effect.Some? ==>
          c.began <= c.effect.value < |m.history| && m.history[c.effect.value] == Observed(k, c.peak))
    && (c.ended.Some? ==> c.effect.Some? && c.effect.value < c.ended.value <= |m.history|)
  }

  /** An observation in the history is where its call says. */
  ghost predicate EffectOk(m: Meter, i: nat)
    requires i < |m.history|
  {
    match m.history[i]
    case Snapshot(_) => true
    case Observed(k, _) => k < |m.calls| && m.calls[k].effect == Some(i)
  }

  /** The concurrent meter is linearizable: its history is a legal history of the sequential
      one, and the cell holds what the sequential meter would hold. */
  ghost predicate Linearizable(m: Meter) {
    && Legal(m.history) && CellAfter(m.history) == m.cell
    && (forall w :: 0 <= w < |m.writers| ==> WriterOk(m, m.writers[w]))
    && (forall v, w | 0 <= v < w < |m.writers| && !m.writers[v].Idle? && !m.writers[w].Idle? ::
          m.writers[v].call != m.writers[w].call)
    && (forall k :: 0 <= k < |m.calls| ==> CallOk(m, k))
    && (forall i :: 0 <= i < |m.history| ==> EffectOk(m, i))
  }

  lemma LegalExtends(history: seq<Effect>, e: Effect)
    requires Legal(history)
    requires e.Snapshot? ==> e.reported == CellAfter(history)
    ensures Legal(history + [e])
    ensures CellAfter(history + [e]) == if e.Observed? then Max(CellAfter(history), e.peak) else 0.0
  {
    var h := history + [e];
    assert h[..|history|] == history;
    forall i | 0 <= i < |h| && h[i].Snapshot? ensures h[i].reported == CellAfter(h[..i]) {
      if i < |history| { assert h[..i] == history[..i]; }
    }
  }

  lemma StepKeepsLinearizable(m: Meter, a: Action)
    requires Linearizable(m) && Enabled(m, a)
    ensures Linearizable(Apply(m, a))
  {
    match a
    case Swap =>
      LegalExtends(m.history, Snapshot(m.cell));
      BookkeepingKept(m, Apply(m, a));
    case Observe(w, _) =>
      assert forall v :: 0 <= v < |m.writers| ==> WriterOk(m, m.writers[v]);
      BookkeepingKept(m, Apply(m, a));
    case Return(w) =>
      assert WriterOk(m, m.writers[w]) && CallOk(m, m.writers[w].call);
      BookkeepingKept(m, Apply(m, a));
    case Load(w) => CompareKeeps(m, w, m.writers[w].call);
    case ExchangeFails(w) => CompareKeeps(m, w, m.writers[w].call);
    case ExchangeSucceeds(w) => ExchangeKeeps(m, w);
  }

  lemma ExchangeKeeps(m: Meter, w: nat)
    requires Linearizable(m) && Enabled(m, ExchangeSucceeds(w))
    ensures Linearizable(Apply(m, ExchangeSucceeds(w)))
  {
    var k := m.writers[w].call;
    assert WriterOk(m, m.writers[w]) && CallOk(m, k);
    LegalExtends(m.history, Observed(k, m.calls[k].peak));
    var m' := Apply(m, ExchangeSucceeds(w));
    assert CallOk(m', k) && EffectOk(m', |m.history|);
    BookkeepingKept(m, m');
  }

  /** The cell is large enough: the call takes effect where it read the cell. */
  lemma CoveredKeeps(m: Meter, w: nat, k: nat)
    requires Linearizable(m) && w < |m.writers| && k < |m.calls|
    requires (m.writers[w].Called? || m.writers[w].Retrying?) && m.writers[w].call == k
    requires m.calls[k].peak <= m.cell
    ensures Linearizable(Compare(m, w, k, m.cell))
  {
    assert WriterOk(m, m.writers[w]) && CallOk(m, k);
    LegalExtends(m.history, Observed(k, m.calls[k].peak));
    var m' := Compare(m, w, k, m.cell);
    assert CallOk(m', k) && EffectOk(m', |m.history|) && WriterOk(m', m'.writers[w]);
    BookkeepingKept(m, m');
  }

  /** The cell is too small: the writer goes on to its exchange. */
  lemma RetryKeeps(m: Meter, w: nat, k: nat)
    requires Linearizable(m) && w < |m.writers| && k < |m.calls|
    requires (m.writers[w].Called? || m.writers[w].Retrying?) && m.writers[w].call == k
    requires m.calls[k].peak > m.cell
    ensures Linearizable(Compare(m, w, k, m.cell))
  {
    assert WriterOk(m, m.writers[w]);
    var m' := Compare(m, w, k, m.cell);
    assert WriterOk(m', m'.writers[w]);
    BookkeepingKept(m, m');
  }

  lemma CompareKeeps(m: Meter, w: nat, k: nat)
    requires Linearizable(m) && w < |m.writers| && k < |m.calls|
    requires (m.writers[w].Called? || m.writers[w].Retrying?) && m.writers[w].call == k
    ensures Linearizable(Compare(m, w, k, m.cell))
  {
    if m.calls[k].peak <= m.cell {
      CoveredKeeps(m, w, k);
    } else {
      RetryKeeps(m, w, k);
    }
  }

  /** A step that only appends to the history, and changes calls only where the writers and the
      appended effects still agree with them, keeps every call and effect in order. */
  lemma BookkeepingKept(m: Meter, m': Meter)
    requires Linearizable(m)
    requires Legal(m'.history) && CellAfter(m'.history) == m'.cell
    requires m.history <= m'.history && |m.calls| <= |m'.calls| && |m.writers| == |m'.writers|
    requires forall w :: 0 <= w < |m.writers| ==>
      m'.writers[w] == m.writers[w] || m'.writers[w].Idle? || WriterOk(m', m'.writers[w])
    requires forall w :: 0 <= w < |m.writers| && m'.writers[w] == m.writers[w] && !m.writers[w].Idle? ==>
      m.writers[w].call < |m.calls| && m'.calls[m.writers[w].call] == m.calls[m.writers[w].call]
    requires forall v, w | 0 <= v < w < |m.writers| && !m'.writers[v].Idle? && !m'.writers[w].Idle? ::
      m'.writers[v].call != m'.writers[w].call
    requires forall k :: 0 <= k < |m'.calls| ==>
      (k < |m.calls| && m'.calls[k] == m.calls[k]) || CallOk(m', k)
    requires forall k :: 0 <= k < |m.calls| && m.calls[k].effect.Some? ==> m'.calls[k].effect == m.calls[k].effect
    requires forall i :: |m.history| <= i < |m'.history| ==> EffectOk(m', i)
    ensures Linearizable(m')
  {
    forall w | 0 <= w < |m'.writers| ensures WriterOk(m', m'.writers[w]) {
      assert WriterOk(m, m.writers[w]);
    }
    forall k | 0 <= k < |m'.calls| ensures CallOk(m', k) {
      assert k < |m.calls| ==> CallOk(m, k);
    }
    forall i | 0 <= i < |m'.history| ensures EffectOk(m', i) {
      if i < |m.history| { assert EffectOk(m, i); }
    }
  }

  /** Every schedule of every number of writers and readers is linearizable. */
  lemma {:induction false} EveryRunIsLinearizable(writers: nat, schedule: seq<Action>)
    ensures Linearizable(Run(Initial(writers), schedule))
    decreases |schedule|
  {
    if schedule != [] {
      var earlier := schedule[..|schedule| - 1];
      EveryRunIsLinearizable(writers, earlier);
      var before, a := Run(Initial(writers), earlier), schedule[|schedule| - 1];
      if Enabled(before, a) { StepKeepsLinearizable(before, a); }
    }
  }

  // ---------------------------------------------------------------- what linearizability buys

  /** An observation is in the cell until the next snapshot, which reports at least as much. */
  lemma {:induction false} ObservationSurvives(history: seq<Effect>, i: nat, end: nat)
    requires Legal(history) && i < end <= |history| && history[i].Observed?
    requires forall j :: i < j < end ==> history[j].Observed?
    ensures CellAfter(history[..end]) >= history[i].peak
    ensures end < |history| && history[end].Snapshot? ==> history[end].reported >= history[i].peak
    decreases end
  {
    assert history[..end][..end - 1] == history[..end - 1];
    if i < end - 1 { ObservationSurvives(history, i, end - 1); }
  }

  /** The first snapshot from position `from` on, if there is one. */
  ghost function NextSnapshot(history: seq<Effect>, from: nat): (j: nat)
    requires from <= |history|
    ensures from <= j <= |history|
    ensures j < |history| ==> history[j].Snapshot?
    ensures forall i :: from <= i < j ==> history[i].Observed?
    decreases |history| - from
  {
    if from == |history| || history[from].Snapshot? then from else NextSnapshot(history, from + 1)
  }

  /** No peak is lost: in every run, a returned observation is either still covered by the cell
      or covered by a snapshot taken after the observation began. */
  lemma NoPeakLost(writers: nat, schedule: seq<Action>, k: nat)
    requires k < |Run(Initial(writers), schedule).calls|
    requires Run(Initial(writers), schedule).calls[k].ended.Some?
    ensures Run(Initial(writers), schedule).calls[k].effect.Some?
    ensures var m := Run(Initial(writers), schedule);
      m.cell >= m.calls[k].peak
      || exists j :: m.calls[k].began <= j < |m.history|
                     && m.history[j].Snapshot? && m.history[j].reported >= m.calls[k].peak
  {
    var m := Run(Initial(writers), schedule);
    EveryRunIsLinearizable(writers, schedule);
    assert CallOk(m, k);
    CallCovered(m, k);
  }

  lemma CallCovered(m: Meter, k: nat)
    requires Linearizable(m) && k < |m.calls| && m.calls[k].effect.Some?
    ensures m.cell >= m.calls[k].peak
      || exists j :: m.calls[k].began <= j < |m.history|
                     && m.history[j].Snapshot? && m.history[j].reported >= m.calls[k].peak
  {
    assert CallOk(m, k);
    var i := m.calls[k].effect.value;
    var j := NextSnapshot(m.history, i + 1);
    ObservationSurvives(m.history, i, j);
    assert m.history[..|m.history|] == m.history;
  }

  lemma {:induction false} CellComesFromSomewhere(history: seq<Effect>)
    requires CellAfter(history) != 0.0
    ensures exists i :: 0 <= i < |history| && history[i].Observed? && history[i].peak == CellAfter(history)
                        && NextSnapshot(history, i) == |history|
    decreases |history|
  {
    var n := |history| - 1;
    match history[n] {
      case Snapshot(_) =>
      case Observed(_, peak) =>
        if CellAfter(history) == peak {
          assert NextSnapshot(history, n) == |history|;
        } else {
          CellComesFromSomewhere(history[..n]);
          var i :| 0 <= i < n && history[..n][i].Observed? && history[..n][i].peak == CellAfter(history)
                   && NextSnapshot(history[..n], i) == n;
          assert forall x :: i <= x < n ==> history[..n][x].Observed?;
          assert history[i] == history[..n][i];
        }
    }
  }

  /** No peak is invented or reported twice: in every run, a snapshot that reports a nonzero
      value reports the peak of a call that took effect since the previous snapshot. */
  lemma ReportedWasObserved(writers: nat, schedule: seq<Action>, j: nat)
    requires j < |Run(Initial(writers), schedule).history|
    requires Run(Initial(writers), schedule).history[j].Snapshot?
    requires Run(Initial(writers), schedule).history[j].reported != 0.0
    ensures var m := Run(Initial(writers), schedule);
      exists k, i :: 0 <= k < |m.calls| && 0 <= i < j && m.calls[k].effect == Some(i)
                     && m.calls[k].peak == m.history[j].reported && NextSnapshot(m.history, i) == j
  {
    var m := Run(Initial(writers), schedule);
    EveryRunIsLinearizable(writers, schedule);
    var before := m.history[..j];
    CellComesFromSomewhere(before);
    var i :| 0 <= i < j && before[i].Observed? && before[i].peak == m.history[j].reported
             && NextSnapshot(before, i) == j;
    assert m.history[i] == before[i];
    assert forall x :: i <= x < j ==> before[x].Observed?;
    assert forall x :: i <= x < j ==> m.history[x] == before[x];
    assert EffectOk(m, i);
    var k := m.history[i].call;
    assert CallOk(m, k);
    assert NextSnapshot(m.history, i) == j;
  }
}

/** The meter around the cells: folding interleaved samples into one peak per channel. */
module SignalMetering {
  import opened Interleaving
  import opened MachineIntegers
  import opened PeakCell

  const SIGNAL_THRESHOLD: real := 0.001
  const SILENCE_FLOOR_DB: real := -90.0

  /** A 32-bit float sample: a number, or a NaN or infinity. */
  datatype FloatSample = Finite(value: real) | NotFinite

  function SanitizePeak(sample: FloatSample): (r: real)
    ensures 0.0 <= r <= 16.0
    ensures sample.NotFinite? ==> r == 0.0
    ensures sample.Finite? && -16.0 <= sample.value <= 16.0 ==> r == sample.value || r == -sample.value
    ensures sample.Finite? && !(-16.0 <= sample.value <= 16.0) ==> r == 16.0
  {
    match sample
    case NotFinite => 0.0
    case Finite(v) =>
      var magnitude := if v < 0.0 then -v else v;
      if magnitude < 16.0 then magnitude else 16.0
  }

  /** What chunk f contributes to channel c; a ragged last chunk may lack the sample. */
  function PeakAt(samples: seq<FloatSample>, channels: nat, c: nat, f: nat): (r: real)
    ensures r >= 0.0
  {
    if f * channels + c < |samples| then SanitizePeak(samples[f * channels + c]) else 0.0
  }

  /** The peak of channel c over the first `chunks` chunks. */
  function ChunkPeak(samples: seq<FloatSample>, channels: nat, c: nat, chunks: nat): (r: real)
    ensures r >= 0.0
  {
    if chunks == 0 then 0.0
    else Max(ChunkPeak(samples, channels, c, chunks - 1), PeakAt(samples, channels, c, chunks - 1))
  }

  /** It is the largest contribution: no chunk contributes more, and some chunk that much. */
  lemma {:induction false} ChunkPeakIsMaximum(samples: seq<FloatSample>, channels: nat, c: nat, chunks: nat)
    ensures forall f :: 0 <= f < chunks ==> PeakAt(samples, channels, c, f) <= ChunkPeak(samples, channels, c, chunks)
    ensures chunks > 0 ==>
      exists f :: 0 <= f < chunks && PeakAt(samples, channels, c, f) == ChunkPeak(samples, channels, c, chunks)
  {
    if chunks > 0 { ChunkPeakIsMaximum(samples, channels, c, chunks - 1); }
  }

  lemma PeakOfSample(samples: seq<FloatSample>, channels: nat, c: nat, i: nat)
    requires c < channels && i < |samples| && i % channels == c
    ensures SanitizePeak(samples[i]) <= ChunkPeak(samples, channels, c, ChunkCount(|samples|, channels))
  {
    var chunks, f := ChunkCount(|samples|, channels), Quotient(i, channels);
    assert i == f * channels + c;
    DivLe(chunks, i, channels);
    ChunkPeakIsMaximum(samples, channels, c, chunks);
    assert PeakAt(samples, channels, c, f) == SanitizePeak(samples[i]);
  }

  lemma SampleOfPeak(samples: seq<FloatSample>, channels: nat, c: nat, chunks: nat) returns (i: nat)
    requires c < channels && ChunkPeak(samples, channels, c, chunks) > 0.0
    ensures i < |samples| && i % channels == c
    ensures SanitizePeak(samples[i]) == ChunkPeak(samples, channels, c, chunks)
  {
    ChunkPeakIsMaximum(samples, channels, c, chunks);
    var f: nat :| f < chunks && PeakAt(samples, channels, c, f) == ChunkPeak(samples, channels, c, chunks);
    i := f * channels + c;
    DivModUnique(i, channels, f, c);
  }

  /** Over a whole slice the peak of channel c is the largest magnitude among the samples whose index
      leaves remainder c, and one of them has it. */
  lemma ChannelPeak(samples: seq<FloatSample>, channels: nat, c: nat)
    requires c < channels
    ensures var peak := ChunkPeak(samples, channels, c, ChunkCount(|samples|, channels));
      && (forall i :: 0 <= i < |samples| && i % channels == c ==> SanitizePeak(samples[i]) <= peak)
      && (peak > 0.0 ==> exists i :: 0 <= i < |samples| && i % channels == c && SanitizePeak(samples[i]) == peak)
  {
    var peak := ChunkPeak(samples, channels, c, ChunkCount(|samples|, channels));
    forall i | 0 <= i < |samples| && i % channels == c ensures SanitizePeak(samples[i]) <= peak {
      PeakOfSample(samples, channels, c, i);
    }
    if peak > 0.0 {
      var i := SampleOfPeak(samples, channels, c, ChunkCount(|samples|, channels));
    }
  }

  /** Some measured sample of the first `chunks` chunks counts as signal. */
  ghost predicate Signal(samples: seq<FloatSample>, channels: nat, measured: nat, chunks: nat) {
    exists f, c :: 0 <= f < chunks && 0 <= c < measured && PeakAt(samples, channels, c, f) >= SIGNAL_THRESHOLD
  }

  /** The same for the first `upTo` channels of one chunk. */
  ghost predicate SignalInChunk(samples: seq<FloatSample>, channels: nat, upTo: nat, f: nat) {
    exists c :: 0 <= c < upTo && PeakAt(samples, channels, c, f) >= SIGNAL_THRESHOLD
  }

  lemma NextChunk(samples: seq<FloatSample>, channels: nat, measured: nat, f: nat)
    ensures Signal(samples, channels, measured, f + 1)
        <==> Signal(samples, channels, measured, f) || SignalInChunk(samples, channels, measured, f)
  {
  }

  /** A linear peak in decibels, given a logarithm, between the silence floor and 24 dB. */
  function LinearToDbfs(log10: real -> real, value: real): (r: real)
    ensures SILENCE_FLOOR_DB <= r <= 24.0
    ensures value <= 0.000_031_622_78 ==> r == -90.0
  {
    if value <= 0.000_031_622_78 then SILENCE_FLOOR_DB
    else
      var decibels := 20.0 * log10(value);
      if decibels < SILENCE_FLOOR_DB then SILENCE_FLOOR_DB else if decibels > 24.0 then 24.0 else decibels
  }

  /** Under any increasing logarithm a larger peak never reads lower, below the threshold included. */
  lemma DbfsMonotone(log10: real -> real, x: real, y: real)
    requires x <= y && (forall a, b :: 0.0 < a <= b ==> log10(a) <= log10(b))
    ensures LinearToDbfs(log10, x) <= LinearToDbfs(log10, y)
  {
    if x > 0.000_031_622_78 { assert log10(x) <= log10(y); }
  }

  /** Ten times the amplitude is 20 dB more, and full scale is 0 dB, away from the floor and ceiling. */
  lemma DecadeIsTwentyDecibels(log10: real -> real, x: real)
    requires log10(10.0 * x) == log10(x) + 1.0 && log10(1.0) == 0.0
    requires x > 0.000_031_622_78 && SILENCE_FLOOR_DB <= 20.0 * log10(x) <= 4.0
    ensures LinearToDbfs(log10, 10.0 * x) == LinearToDbfs(log10, x) + 20.0
    ensures LinearToDbfs(log10, 1.0) == 0.0
  {
  }

  class SignalMeter {
    const channelPeaks: array<real>
    var lastSignalMs: nat

    constructor (channelCount: nat)
      ensures Valid() && fresh(channelPeaks) && channelPeaks.Length == (if channelCount == 0 then 1 else channelCount)
      ensures forall c :: 0 <= c < channelPeaks.Length ==> channelPeaks[c] == 0.0
      ensures lastSignalMs == 0
    {
      lastSignalMs := 0;
      var count := if channelCount == 0 then 1 else channelCount;
      channelPeaks := new real[count](_ => 0.0);
    }

    ghost predicate Valid()
      reads channelPeaks
    {
      channelPeaks.Length > 0 && forall c :: 0 <= c < channelPeaks.Length ==> channelPeaks[c] >= 0.0
    }

    function Measured(channelCount: nat): nat {
      if channelCount < channelPeaks.Length then channelCount else channelPeaks.Length
    }

    /** One thread's view of a whole call: every measured channel is raised to the largest
        sanitized sample at its position, in ragged chunks too; the others are untouched. The
        time is noted exactly when some measured sample counts as signal. */
    method ObserveInterleaved(samples: seq<FloatSample>, channelCount: nat, nowMs: nat)
      requires Valid()
      modifies channelPeaks, this`lastSignalMs
      ensures Valid()
      ensures channelCount == 0 ==> channelPeaks[..] == old(channelPeaks[..])
      ensures channelCount > 0 ==> forall c :: 0 <= c < channelPeaks.Length ==>
        channelPeaks[c] ==
          if c < channelCount
          then Max(old(channelPeaks[c]), ChunkPeak(samples, channelCount, c, ChunkCount(|samples|, channelCount)))
          else old(channelPeaks[c])
      ensures lastSignalMs ==
        if channelCount > 0
           && Signal(samples, channelCount, Measured(channelCount), ChunkCount(|samples|, channelCount))
        then nowMs else old(lastSignalMs)
    {
      if |samples| == 0 || channelCount == 0 {
        return;
      }
      var signalDetected := false;
      var chunks := ChunkCount(|samples|, channelCount);
      for chunk := 0 to chunks
        invariant Valid() && lastSignalMs == old(lastSignalMs)
        invariant forall c :: 0 <= c < channelPeaks.Length ==>
          channelPeaks[c] == if c < Measured(channelCount)
                             then Max(old(channelPeaks[c]), ChunkPeak(samples, channelCount, c, chunk))
                             else old(channelPeaks[c])
        invariant signalDetected <==> Signal(samples, channelCount, Measured(channelCount), chunk)
      {
        NextChunk(samples, channelCount, Measured(channelCount), chunk);
        var detected := ObserveChunk(samples, channelCount, chunk);
        signalDetected := signalDetected || detected;
      }
      if signalDetected {
        lastSignalMs := nowMs;
      }
    }

    /** The inner loop: one chunk's samples, each to its channel. */
    method ObserveChunk(samples: seq<FloatSample>, channelCount: nat, chunk: nat) returns (detected: bool)
      requires Valid()
      modifies channelPeaks
      ensures Valid()
      ensures forall c :: 0 <= c < channelPeaks.Length ==>
        channelPeaks[c] == if c < Measured(channelCount)
                           then Max(old(channelPeaks[c]), PeakAt(samples, channelCount, c, chunk))
                           else old(channelPeaks[c])
      ensures detected <==> SignalInChunk(samples, channelCount, Measured(channelCount), chunk)
    {
      detected := false;
      for channel := 0 to Measured(channelCount)
        invariant forall c :: 0 <= c < channelPeaks.Length ==>
          channelPeaks[c] == if c < channel then Max(old(channelPeaks[c]), PeakAt(samples, channelCount, c, chunk))
                             else old(channelPeaks[c])
        invariant detected <==> SignalInChunk(samples, channelCount, channel, chunk)
      {
        var at := chunk * channelCount + channel;
        assert PeakAt(samples, channelCount, channel, chunk)
            == if at < |samples| then SanitizePeak(samples[at]) else 0.0;
        if at < |samples| {
          var peak := SanitizePeak(samples[at]);
          if peak >= SIGNAL_THRESHOLD {
            detected := true;
          }
          channelPeaks[channel] := Max(channelPeaks[channel], peak);
        }
      }
    }

    /** Reports every peak in decibels and clears it, with how long ago the last signal was: at most `nowMs`,
        or the largest age if there was none yet. */
    method SnapshotAndReset(nowMs: nat, log10: real -> real) returns (channelPeaksDb: seq<real>, ageMs: nat)
      requires Valid()
      modifies channelPeaks
      ensures Valid()
      ensures lastSignalMs == 0 ==> ageMs == U64_MAX
      ensures 0 < lastSignalMs <= nowMs ==> lastSignalMs + ageMs == nowMs
      ensures lastSignalMs > 0 && nowMs <= lastSignalMs ==> ageMs == 0
      ensures |channelPeaksDb| == channelPeaks.Length
      ensures forall c :: 0 <= c < channelPeaks.Length ==>
        channelPeaksDb[c] == LinearToDbfs(log10, old(channelPeaks[c]))
      ensures forall c :: 0 <= c < channelPeaks.Length ==> channelPeaks[c] == 0.0
    {
      channelPeaksDb := [];
      ageMs := if lastSignalMs == 0 then U64_MAX else if nowMs < lastSignalMs then 0 else nowMs - lastSignalMs;
      for c := 0 to channelPeaks.Length
        invariant |channelPeaksDb| == c
        invariant forall i :: 0 <= i < c ==> channelPeaksDb[i] == LinearToDbfs(log10, old(channelPeaks[i]))
        invariant forall i :: 0 <= i < c ==> channelPeaks[i] == 0.0
        invariant forall i :: c <= i < channelPeaks.Length ==> channelPeaks[i] == old(channelPeaks[i])
      {
        channelPeaksDb := channelPeaksDb + [LinearToDbfs(log10, channelPeaks[c])];
        channelPeaks[c] := 0.0;
      }
    }
  }

  /** How many chunks of a given size a slice has, the last one possibly short. */
  function ChunkCount(len: nat, size: nat): (r: nat)
    requires size > 0
    ensures (r - 1) * size < len <= r * size || (len == 0 && r == 0)
  {
    if len == 0 then 0
    else
      var q := (len - 1) / size;
      assert (q + 1 - 1) * size <= len - 1 < (q + 1) * size by {
        assert len - 1 == q * size + (len - 1) % size;
        assert (q + 1) * size == q * size + size;
      }
      q + 1
  }
}
