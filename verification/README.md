# OpenAudio streaming engine: a verified model

This Dafny 4.11 project models the streaming audio engine of OpenAudio and proves properties of it:
stateful sample transformers, the block pools the plug-ins share between threads, a lock-free peak
meter, a pacing loop, codec framing and the channel routers. `dafny verify dfyconfig.toml` checks it.

| file | component |
|---|---|
| `Wrappers.dfy`, `MachineIntegers.dfy`, `Schedules.dfy`, `Interleaving.dfy`, `BlockQueue.dfy` | shared: options and results, integer limits, runs of a step function, index arithmetic of interleaved audio, the bounded queue |
| `StreamResampler.dfy`, `PacketInvariance.dfy` | linear resampling, packet by packet and in one shot |
| `JitterControl.dfy` | the adaptive jitter target |
| `PeakMeter.dfy` | the compare-exchange peak cell and the meter around it |
| `SenderPool.dfy`, `ReceiverCursor.dfy`, `ReceiverPool.dfy` | the plug-in's sender pool, playback cursor and receiver pool |
| `DiagnosticPacing.dfy` | frame/time conversion and the diagnostic publisher's loop |
| `OpusFraming.dfy` | sub-stream framing around the Opus codec |
| `CaptureQueue.dfy` | the ASIO capture queue |
| `CombineSplit.dfy` | combining mono sources and splitting a stream again |
| `AsioRouter.dfy`, `ChannelRemap.dfy`, `BusRender.dfy` | routing, channel-count conversion, playback |
| `SequenceLoss.dfy` | loss counting from wrapping sequence numbers |

How the model stands to the code:

- Samples, gains and jitter targets are exact reals. A resampler position is a whole number of units of
  1/output_rate source frames, so `phase` is an integer; the comparison with `f64::EPSILON` is kept and
  proved to ask whether the position is a whole frame.
- An object the code updates in place is a class with the same fields; ghost fields record histories.
  Loops stay loops, and an inner loop is a method of its own where that keeps its proof short.
- Threads are a state machine whose steps are the atomic operations (a queue operation, an atomic load,
  store or read-modify-write, a mutex section). `Run` executes an arbitrary schedule and passes over moves
  that are not possible, so a statement about `Run` for every schedule covers every interleaving.
- Clocks, subscribers, encoder outcomes and try-lock outcomes are parameters. The codec is a pair of
  functions over opaque encoder and decoder states.

Findings that differ from what the code's comments or callers might suggest:

- The jitter target converges to a constant occupancy only from inside the band: outside it the correction
  moves the target away from the occupancy until a limit is reached (`ConvergesIffInBand`; for one case
  `OutOfBandExample`).
- Frame position to nanoseconds and back loses one frame whenever the position is not a whole number of
  nanoseconds, so a wait that ends exactly on time can find its frame not yet due; one nanosecond later it
  always is (`PositionRoundTrip`; frame 1 at 44.1 kHz in `FirstFrameComesBackShort`).
- The sender's callback can give up its frames for lack of a block although up to four blocks are idle
  (`StarvationIsReachable`). It does so exactly when it found no idle block and the publisher then popped
  every waiting block, of which there are at least three, before the callback's second pop
  (`StarvedIffDrained`). The paths for a refused push are dead code (`NoPushFails`).
- In the same way the receiver's worker can refuse a packet although fifteen of its sixteen blocks are idle
  (`RefusalIsReachable`), exactly when the callback begins every waiting block between the worker's two
  pops (`RefusedIffPlayed`).
- `push_samples` encodes at most one frame per call, so the backlog stays under one frame exactly when
  backlog and push together are under two (`PushSamples`; `PushTwoFrames` leaves one behind).
- The lost-packet count is exact exactly when no single advance exceeds a million (`LossIsExactIff`;
  `LongGapUncounted` misses a million packets).

## Model

| member | source | states |
|---|---|---|
| StreamResampler.StreamFramesIff | crates/audio-core/src/stream_control.rs:220-227 | the closed count floor((n-1)*out/in)+1 is exactly the set of positions at or before the last source frame |
| StreamResampler.OutputAt | crates/audio-core/src/stream_control.rs:229-235 | frame k of everything ever emitted is the linear interpolation of the whole stream at k*in/out |
| StreamResampler.StreamInterpolates | crates/audio-core/src/stream_control.rs:220-235 | where k*in/out is source frame q plus r/out, sample c of output frame k lies r/out of the way from frame q to the next |
| StreamResampler.RampStaysRamp | crates/audio-core/src/stream_control.rs:220-235 | a ramp comes out as the same ramp read at the positions k*in/out |
| StreamResampler.StreamOutputExtends | crates/audio-core/src/stream_control.rs:168-170 | more input only appends output: no emitted frame is ever revised at a packet boundary |
| StreamResampler.EqualRatesIdentity | crates/audio-core/src/stream_control.rs:210-212 | at equal rates the closed form is the input, so the fast path agrees with the general one |
| StreamResampler.EpsilonTestIsExact | crates/audio-core/src/stream_control.rs:221-225 | for 32-bit rates the epsilon comparison holds exactly when the position is not a whole frame |
| StreamResampler.StreamingLinearResampler.Create | crates/audio-core/src/stream_control.rs:181-196 | succeeds exactly for nonzero channels and rates, with nothing accepted yet |
| StreamResampler.StreamingLinearResampler.Process | crates/audio-core/src/stream_control.rs:198-245 | misaligned input is refused without effect; otherwise the output is exactly what the whole stream's closed form gains, and the carried state is again a function of what was accepted |
| StreamResampler.StreamingLinearResampler.EmitFrames | crates/audio-core/src/stream_control.rs:220-236 | the loop terminates and emits the frames from the last emitted one up to the last determined one |
| StreamResampler.StreamingLinearResampler.ConsumeFrames | crates/audio-core/src/stream_control.rs:238-242 | after the drain exactly the state determined by the accepted stream is carried |
| StreamResampler.StreamingLinearResampler.CarriedState | crates/audio-core/src/stream_control.rs:238-242 | on the unequal-rate path exactly one frame is retained and 0 < phase <= in/out |
| PacketInvariance.FeedPackets | crates/audio-core/src/stream_control.rs:168-170 | a resampler fed any packets accepts the aligned ones in order and emits exactly the closed form's growth |
| PacketInvariance.PacketsVersusOneCall | crates/audio-core/src/stream_control.rs:266-284 | every way of cutting a stream into packets gives the output of one call on all of it |
| BatchResampler.ResampleInterleavedLinear | crates/audio-core/src/stream_control.rs:129-166 | computes the one-shot specification on every input, with every index in bounds |
| BatchResampler.BatchAt | crates/audio-core/src/stream_control.rs:152-163 | frame k is the interpolation at k*in/out, and past the last determined frame it repeats the last source frame |
| BatchResampler.BatchInterpolates | crates/audio-core/src/stream_control.rs:152-163 | the same weights for the one-shot conversion, the last frame held |
| BatchResampler.BatchLength | crates/audio-core/src/stream_control.rs:146-150 | the output has floor(n*out/in) frames, but at least one |
| BatchResampler.BatchVersusStream | crates/audio-core/src/stream_control.rs:129-245 | streaming output is a prefix of the one-shot output when rates rise; the one-shot output is a prefix, at most one frame shorter, when they fall |
| JitterControl.AdaptiveJitterController.constructor | crates/audio-core/src/stream_control.rs:22-33 | the initial target is the time clamped to 3 to 120 ms in frames, for a zero rate too |
| JitterControl.AdaptiveJitterController.SetTargetMs | crates/audio-core/src/stream_control.rs:35-38 | the target becomes the clamped time's worth of frames, within the limits |
| JitterControl.AdaptiveJitterController.Observe | crates/audio-core/src/stream_control.rs:48-70 | counts flags and adjusts only every 250 ms, within the limits: by 1.15 up on an underrun whatever else is observed, by 0.92 down on an overrun without one unless too little is buffered |
| JitterControl.ObserveAll | crates/audio-core/src/stream_control.rs:48-70 | a controller observed at least 250 ms apart follows the fold of its adjustments |
| JitterControl.UnderrunsRaise | crates/audio-core/src/stream_control.rs:57-58 | n underruns multiply the target by 1.15 to the n, up to the limit, whatever the occupancies and overruns |
| JitterControl.OverrunsLower | crates/audio-core/src/stream_control.rs:59-60 | n overruns without underrun multiply it by 0.92 to the n, down to the limit, while half the target is buffered |
| JitterControl.TargetCountIsNearest | crates/audio-core/src/stream_control.rs:40-42 | the whole-frame target is the nearest count, halves up, and at least one |
| JitterControl.FramesForMsAdds | crates/audio-core/src/stream_control.rs:35-38 | a second is the sample rate in frames, and times add up |
| JitterControl.InBandConverges | crates/audio-core/src/stream_control.rs:56-68 | in band under constant occupancy the band is kept and n adjustments scale the signed distance by 0.95 to the n, rounding notwithstanding |
| JitterControl.BelowBandRunsAway | crates/audio-core/src/stream_control.rs:57-58 | below the band the target grows by 1.15 to the n up to the limit and never re-enters the band |
| JitterControl.AboveBandRunsAway | crates/audio-core/src/stream_control.rs:59-60 | above the band the target shrinks by 0.92 to the n down to the limit and never re-enters the band |
| JitterControl.ConvergesIffInBand | crates/audio-core/src/stream_control.rs:56-68 | the distance shrinks by 0.95 to the n for all n if and only if the occupancy starts in band |
| JitterControl.OutOfBandExample | crates/audio-core/src/stream_control.rs:57-58 | at 48 kHz, target 960 and 200 frames buffered, the first adjustment raises the target to 1104 |
| PeakCell.StepKeepsLinearizable | crates/audio-core/src/signal_meter.rs:269-289 | every atomic step keeps the history legal, the cell equal to the sequential meter's, and each call's effect unique and inside the call |
| PeakCell.EveryRunIsLinearizable | crates/audio-core/src/signal_meter.rs:269-289 | every schedule of any number of writers and readers, spurious failures included, is linearizable |
| PeakCell.NoPeakLost | crates/audio-core/src/signal_meter.rs:239-242 | a returned observation is covered by the cell or by a snapshot taken after the observation began |
| PeakCell.ReportedWasObserved | crates/audio-core/src/signal_meter.rs:134-142 | a nonzero snapshot reports the peak of a call that took effect since the previous snapshot |
| SignalMetering.SanitizePeak | crates/audio-core/src/signal_meter.rs:261-267 | the magnitude capped at 16, and zero for NaN and infinities |
| SignalMetering.ChunkPeakIsMaximum | crates/audio-core/src/signal_meter.rs:79-93 | the value folded per channel is the largest contribution of any chunk, and attained |
| SignalMetering.ChannelPeak | crates/audio-core/src/signal_meter.rs:79-93 | the peak of channel c is the largest sanitized magnitude among the samples whose index is c modulo the channel count, and one of them has it |
| SignalMetering.SignalMeter.ObserveInterleaved | crates/audio-core/src/signal_meter.rs:70-98 | each measured channel is raised to its peak over all chunks, ragged ones included; others are untouched; the time is noted exactly when some measured sample reaches the threshold |
| SignalMetering.SignalMeter.SnapshotAndReset | crates/audio-core/src/signal_meter.rs:134-160 | reports every channel's peak in decibels and the age of the last signal, and leaves silence |
| SignalMetering.DbfsMonotone | crates/audio-core/src/signal_meter.rs:291-297 | under any increasing logarithm a larger peak never reads lower, across the silence threshold and the clamp |
| SignalMetering.DecadeIsTwentyDecibels | crates/audio-core/src/signal_meter.rs:291-297 | ten times the amplitude is 20 dB more and full scale is 0 dB |
| SenderPool.StepKeepsInv | apps/plugin/src/lib.rs:627-680 | every step of either thread keeps four blocks, empty idle blocks, balanced books and submission order |
| SenderPool.EveryRunKeepsInv | apps/plugin/src/lib.rs:193-346 | the same for every interleaving from start-up |
| SenderPool.NoPushFails | apps/plugin/src/lib.rs:338-343 | in every run no push into either queue is refused and there is room whenever one is due |
| SenderPool.BooksBalance | apps/plugin/src/lib.rs:627-680 | every offered frame is taken, counted dropped, discarded or in flight, and none is in flight once the publisher has exited; offers are submitted or refused, and the drop counter counts exactly the stolen blocks and refused offers |
| SenderPool.EverySubmissionInOnePlace | apps/plugin/src/lib.rs:637-677 | in every run each submission is, unchanged, in exactly one of taken, waiting, the callback's hand, stolen and discarded |
| SenderPool.TakenInOrder | apps/plugin/src/lib.rs:261-337 | the publisher takes intact blocks in strictly increasing submission order |
| SenderPool.PublishingNeverDiscards | apps/plugin/src/lib.rs:240-261 | in every run in which publishing stays on nothing is discarded, from any state with no discarding under way |
| SenderPool.SilentNeverSends | apps/plugin/src/lib.rs:240-261 | in every run in which publishing stays off nothing is submitted, stolen or taken, from any state with no sending under way |
| SenderPool.PublisherTurn | apps/plugin/src/lib.rs:237-343 | in three undisturbed steps the publisher takes the oldest waiting block if publishing is on and discards it if it is off |
| SenderPool.FittingOfferSubmitted | apps/plugin/src/lib.rs:637-680 | a buffer of the pool's width and size is submitted behind everything that waits, and none is refused |
| SenderPool.OtherOfferRefused | apps/plugin/src/lib.rs:637-652 | any other buffer is counted dropped in full and changes nothing else; an empty one is ignored |
| SenderPool.SilentCallDiscards | apps/plugin/src/lib.rs:627-636 | a call while publishing is off discards the oldest waiting block every two moves and is done when none waits |
| SenderPool.StarvedIffDrained | apps/plugin/src/lib.rs:24-36 | a callback gives up its frames if and only if it found no idle block and the publisher popped every waiting block between the callback's two pops |
| SenderPool.TwoPopsNeverStarve | apps/plugin/src/lib.rs:24-36 | at least three blocks wait when none is idle, so two pops of the publisher never starve a callback |
| SenderPool.StarvationIsReachable | apps/plugin/src/lib.rs:654-664 | some run starves a callback with all four blocks idle |
| SenderPool.AcquireAudioBlock | apps/plugin/src/lib.rs:24-36 | takes an idle block, else the oldest waiting one, empties it and counts the frames it held |
| SenderPool.UninterruptedAcquire | apps/plugin/src/lib.rs:24-36 | undisturbed, the callback's atomic steps always acquire a block, the one the function acquires |
| SenderPool.DiscardQueuedAudio | apps/plugin/src/lib.rs:38-46 | every waiting block is emptied and moved behind the idle ones, as far as they fit |
| ReceiverCursor.WholeFramesAt | apps/plugin/src/lib.rs:1157-1159 | a block of n samples holds exactly n / channels whole frames, in order |
| ReceiverCursor.HeardOfHead | apps/plugin/src/lib.rs:1173-1186 | frame f of the first block is heard as samples f*n to f*n+n-1 in channel order, and a channel it lacks as silence |
| ReceiverCursor.HeardBehindHead | apps/plugin/src/lib.rs:1155-1191 | behind its whole frames the rest of the queue is heard, and silence at the end |
| ReceiverCursor.Receiver.constructor | apps/plugin/src/lib.rs:750-762 | all sixteen blocks are idle and there is nothing to play |
| ReceiverCursor.Receiver.FindFrame | apps/plugin/src/lib.rs:1156-1171 | terminates at a block with a whole frame, or finds nothing playable; loses and repeats no whole frame |
| ReceiverCursor.Receiver.PlayFrame | apps/plugin/src/lib.rs:1173-1190 | plays the next frame, padded with silence, and moves past it |
| ReceiverCursor.Receiver.Process | apps/plugin/src/lib.rs:1155-1191 | a callback plays the next frames of current block and queue in order, then silence only when no whole frame is left |
| ReceiverCursor.Receiver.Deliver | apps/plugin/src/lib.rs:860-875 | a packet is appended to what is playable, or replaces the oldest waiting block when none is idle; sixteen blocks circulate |
| ReceiverPool.StepKeepsInv | apps/plugin/src/lib.rs:860-875 | every step of callback or worker keeps sixteen blocks, arrival order, unbroken playback and the frame accounts |
| ReceiverPool.EveryRunKeepsInv | apps/plugin/src/lib.rs:750-762 | the same for every interleaving from start-up |
| ReceiverPool.NoPushFails | apps/plugin/src/lib.rs:1161-1163 | in every run no push is refused and there is room whenever one is due |
| ReceiverPool.BegunInArrivalOrder | apps/plugin/src/lib.rs:860-875 | every block begun holds what arrived, and blocks are begun in arrival order, each once, whatever the worker reclaims |
| ReceiverPool.PlayedInOrder | apps/plugin/src/lib.rs:1155-1191 | what was played is every whole frame of the blocks begun, in order, but for the rest of the current one |
| ReceiverPool.BooksBalance | apps/plugin/src/lib.rs:860-1191 | every whole frame that arrived was played, waits or is counted lost; every frame requested was played, silent or is owed |
| ReceiverPool.UndisturbedDelivery | apps/plugin/src/lib.rs:860-875 | a delivery queues its packet behind everything that waits and costs nothing while a block is idle, otherwise exactly the oldest waiting block |
| ReceiverPool.SilentOnlyWhenDry | apps/plugin/src/lib.rs:1161-1183 | in every run, when the callback turns silent every whole frame that arrived was played, counted lost or is in the worker's hand, and in that case it plays none |
| ReceiverPool.RefusedIffPlayed | apps/plugin/src/lib.rs:860-866 | a packet is refused if and only if no block was idle and the callback began every waiting block between the worker's two pops |
| ReceiverPool.FewBeginningsNeverRefuse | apps/plugin/src/lib.rs:860-866 | at least fifteen blocks wait when none is idle, so a callback that begins fewer costs no packet |
| ReceiverPool.RefusalIsReachable | apps/plugin/src/lib.rs:860-866 | some run refuses a packet with fifteen blocks idle |
| FrameClock.ElapsedFramesExact | crates/audio-core/src/diagnostic_publish.rs:739-746 | absent saturation the two-part computation is the exact floor |
| FrameClock.ElapsedFramesMonotone | crates/audio-core/src/diagnostic_publish.rs:739-746 | a later reading never counts fewer frames, saturation included |
| FrameClock.PositionRoundTrip | crates/audio-core/src/diagnostic_publish.rs:739-755 | position to time and back is the position when the rate divides, one less otherwise, and reached one nanosecond later |
| FrameClock.FirstFrameComesBackShort | crates/audio-core/src/diagnostic_publish.rs:739-755 | frame 1 at 44.1 kHz is stamped 22675 ns, when the clock still counts no frame; at 22676 ns it does |
| FrameClock.TimestampsIncrease | crates/audio-core/src/diagnostic_publish.rs:748-755 | distinct positions have distinct timestamps for rates up to 10^9 |
| DiagnosticPacing.DiagnosticPublisher.Iterate | crates/audio-core/src/diagnostic_publish.rs:325-521 | one iteration with saturating counters follows the step function exactly, so no counter saturates |
| DiagnosticPacing.Publish | crates/audio-core/src/diagnostic_publish.rs:325-533 | the loop, reading any clock that does not run backwards, follows the run function and ends paced by its own catch-up window |
| DiagnosticPacing.ClockDrivesTargets | crates/audio-core/src/diagnostic_publish.rs:330-330 | readings of such a clock, converted to frames, never decrease and fit the counters |
| DiagnosticPacing.EveryRunPaced | crates/audio-core/src/diagnostic_publish.rs:330-413 | after every iteration target - catchup <= timeline <= target, timeline = generated + skipped + idled, and stamps increase |
| DiagnosticPacing.EveryIteration | crates/audio-core/src/diagnostic_publish.rs:340-521 | an iteration skips exactly the due frames beyond the window if someone is subscribed, generates the others as far as a packet reaches, and sends a packet stamped with the first of them exactly when it generated any and the encoder is ready |
| DiagnosticPacing.PromptRunKeepsUp | crates/audio-core/src/diagnostic_publish.rs:382-405 | a loop always woken within a packet of the last target, with a subscriber, skips nothing and generates every frame due |
| DiagnosticPacing.CatchUpIsTwentyMilliseconds | crates/audio-core/src/diagnostic_publish.rs:384-386 | the window is the frames of twenty milliseconds, but at least a packet |
| DiagnosticPacing.BurstBound | crates/audio-core/src/diagnostic_publish.rs:40-42 | frames generated between any two iterations exceed the clock's advance by at most the catch-up window |
| DiagnosticPacing.PacketTimestampsIncrease | crates/audio-core/src/diagnostic_publish.rs:427-428 | successive packets carry strictly increasing timestamps |
| OpusFraming.WidthsPartition | crates/audio-core/src/opus.rs:58-72 | the sub-stream widths sum to the channel count, all stereo but a last mono one for odd counts |
| OpusFraming.SubstreamChannels | crates/audio-core/src/opus.rs:52-72 | succeeds exactly for 1 to 64 channels, with that partition |
| OpusFraming.SubstreamAt | crates/audio-core/src/opus.rs:119-130 | sample f of channel c of a sub-stream is sample f of the frame's channel offset plus c |
| OpusFraming.SubstreamOnWire | crates/audio-core/src/opus.rs:131-142 | a packet begins with the payload length, high byte first, then the payload, then the other sub-streams |
| OpusFraming.OverlayAt | crates/audio-core/src/opus.rs:233-239 | writing a sub-stream sets exactly its own channels and frames |
| OpusFraming.OpusChannelEncoder.PushSamples | crates/audio-core/src/opus.rs:111-146 | encoded frames followed by the backlog are always all samples pushed, failures included; one frame at most is encoded per push |
| OpusFraming.OpusChannelEncoder.EncodeFrame | crates/audio-core/src/opus.rs:118-142 | the packet is the length-prefixed sub-streams in channel order, from the advanced encoder states |
| OpusFraming.OpusChannelDecoder.DecodePacket | crates/audio-core/src/opus.rs:210-244 | accepts exactly the packets with complete prefixes and payloads, and writes each sub-stream over its channels |
| OpusFraming.OpusChannelDecoder.WriteSubstream | crates/audio-core/src/opus.rs:233-239 | exactly the decoded frames of the sub-stream's channels change |
| OpusFraming.FramingTransparent | crates/audio-core/src/opus.rs:111-244 | for every codec, lossy or not, decoding the packet of a frame has the effect of passing each sub-stream through the codec and writing it over its channels |
| OpusFraming.FramingRoundTrip | crates/audio-core/src/opus.rs:111-244 | with a lossless codec in step, what is encoded from any sub-stream on decodes to the frame's own samples, from any buffer contents |
| OpusFraming.RoundTrip | crates/audio-core/src/opus.rs:111-244 | decoding a packet rebuilds the exact interleaved frame and keeps the codec in step |
| OpusFraming.Transport | crates/audio-core/src/opus.rs:107-244 | over any sequence of successful pushes the decoded samples followed by the backlog are the samples pushed, and the backlog stays under a frame if no push exceeds one |
| OpusFraming.PushTwoFrames | crates/audio-core/src/opus.rs:111-146 | two frames in one push leave at least a whole frame pending |
| CaptureQueue.ShedKeepsBound | crates/audio-core/src/asio.rs:659-678 | shedding removes whole frames, as few as needed, and bounds the queue by the limit or one oversized callback |
| CaptureQueue.CaptureBuffer.CaptureSelectedChannels | crates/audio-core/src/asio.rs:619-689 | a callback counts its frames and either drops them or appends the selected, clipped samples after shedding |
| CaptureQueue.SelectedPicks | crates/audio-core/src/asio.rs:680-688 | sample i of the selection is frame i/m of the chosen channel i mod m, converted and clipped |
| CaptureQueue.SelectedTrack | crates/audio-core/src/asio.rs:680-688 | selecting channels of interleaved tracks gives the selected tracks back |
| CaptureQueue.CaptureInSteps | crates/audio-core/src/asio.rs:619-689 | one undisturbed call is the counting step followed by the try-lock step of the state machine |
| CaptureQueue.StepKeepsInv | crates/audio-core/src/asio.rs:642-776 | every step keeps captured = dropped + drained + queued + undecided, frame alignment and packet order |
| CaptureQueue.EveryRunKeepsInv | crates/audio-core/src/asio.rs:642-776 | the same for every interleaving of callback and worker with any try-lock outcomes |
| CaptureQueue.TakenLeavesSuffix | crates/audio-core/src/asio.rs:659-688 | a callback that gets the lock leaves a suffix of the old queue and its own samples, within the bound |
| CaptureQueue.TurnTakesAll | crates/audio-core/src/asio.rs:743-776 | an undisturbed turn of the worker takes a full packet or everything that waits |
| CombineSplit.AvailableIsLeast | crates/audio-core/src/combine.rs:360-369 | what can be sent is the least backlog of the active slots, which one of them has, and nothing exactly when all are skipped |
| CombineSplit.Combiner.Collect | crates/audio-core/src/combine.rs:331-342 | a collected block joins its source's history and nothing else changes |
| CombineSplit.Combiner.Combine | crates/audio-core/src/combine.rs:360-405 | all active slots give up the same number of samples, and channel c of the combined stream stays exactly that prefix of source c, or silence |
| Interleaving.ChannelOfInterleave | crates/audio-core/src/combine.rs:398-405 | picking channel c of an interleaving gives track c back |
| CombineSplit.DemuxIntoBuffers | crates/audio-core/src/split.rs:377-438 | refuses inconsistent routing without effect; otherwise each queue gains its channel's resampled samples, at equal rates exactly the channel, and each recorder the channel as it came |
| CombineSplit.Relay | crates/audio-core/src/split.rs:397-431 | a combined packet split again at equal rates appends to queue c exactly what source c gave up for it |
| CombineSplit.RelayAll | crates/audio-core/src/combine.rs:330-442 | in every run of arriving blocks and relayed packets at equal rates, queue c gains exactly source c's samples in order, up to what was sent, or as many zeros for a skipped slot |
| AsioRouter.ValidateRoutes | crates/audio-core/src/asio_subscribe.rs:601-646 | passes exactly the maps of the right length, with outputs in range and at least one route |
| AsioRouter.BuildRouteDivisors | crates/audio-core/src/asio_subscribe.rs:892-905 | each divisor is the reciprocal of the number of channels routed there, or one |
| AsioRouter.DivisorGivesMean | crates/audio-core/src/asio_subscribe.rs:952-957 | sum times divisor is the mean, for no route, one or many |
| AsioRouter.OneChannelRouted | crates/audio-core/src/asio_subscribe.rs:930-957 | a sample on one channel reaches exactly the output it is routed to, with an equal share of the channels routed there |
| AsioRouter.RoutingAdds | crates/audio-core/src/asio_subscribe.rs:930-957 | superposed frames are routed to superposed outputs |
| AsioRouter.RoutedSample | crates/audio-core/src/asio_subscribe.rs:930-957 | sample f*outputs+c of the output is the clipped mean of what frame f routes to output c |
| AsioRouter.ClampIsIdentity | crates/audio-core/src/asio_subscribe.rs:955-956 | with inputs in [-1, 1] the clamp changes nothing |
| AsioRouter.RoutedOutput.RenderRoutedAudio | crates/audio-core/src/asio_subscribe.rs:907-967 | consumes exactly min(output frames, queued frames) whole frames; output f, c is the mean routed to c of queued frame f, and the rest is silent |
| ChannelRemap.RemapFrameInto | crates/audio-core/src/bus.rs:968-1031 | every branch yields the mean of the inputs congruent to c, or the copy or replica for upmixes |
| ChannelRemap.ResidueCountClosedForm | crates/audio-core/src/bus.rs:1025-1029 | the closed-form divisor is the size of the residue class |
| ChannelRemap.DownmixConserves | crates/audio-core/src/bus.rs:1020-1030 | the outputs weighted by their class sizes add up to the sum of the inputs |
| ChannelRemap.RemapScales | crates/audio-core/src/bus.rs:968-1031 | scaling the input scales every output, in every branch |
| ChannelRemap.RemapAdds | crates/audio-core/src/bus.rs:968-1031 | superposed inputs give superposed outputs, in every branch |
| ChannelRemap.ImpulseResponse | crates/audio-core/src/bus.rs:968-1031 | input i reaches exactly output i modulo the output count with its class's share, every output from mono, and its own output on other upmixes |
| BusRender.BusOutput.PopFrame | crates/audio-core/src/bus.rs:479-482 | every channel takes the next queued sample, or 0.85 of its own once the queue is dry |
| BusRender.BusOutput.RenderBusOutput | crates/audio-core/src/bus.rs:456-500 | every output sample is the clipped, amplified remap of the frame popped for it; the rest and a channel-less bus are silent |
| BusRender.QueuedFramesRendered | crates/audio-core/src/bus.rs:475-497 | while whole frames are queued, output frame j renders queued frame j |
| BusRender.DryFramesRendered | crates/audio-core/src/bus.rs:479-497 | the k-th frame after the queue ran dry renders the last queued frame's remap times 0.85 to the k |
| BusRender.DryCallback | crates/audio-core/src/bus.rs:479-497 | a callback that starts dry continues the fade where the last one stopped |
| BusRender.RenderedSample | crates/audio-core/src/bus.rs:484-497 | sample j*outputs+c of the output is output channel c of frame j |
| SequenceLoss.UpdateSequenceStatistics | crates/audio-core/src/asio_subscribe.rs:1082-1102 | the wrapping computation updates the statistics as specified and never decreases the counter |
| SequenceLoss.AdvanceCounts | crates/audio-core/src/asio_subscribe.rs:1087-1098 | only the true advance decides what is counted, wherever the counter wraps |
| SequenceLoss.RunCounts | crates/audio-core/src/asio_subscribe.rs:1082-1102 | the counter of a run of any length is the saturated sum of the believed gaps |
| SequenceLoss.LossIsExactIff | crates/audio-core/src/asio_subscribe.rs:1093-1097 | dropped + received = 1 + total advance if and only if no advance exceeds a million |
| SequenceLoss.LongGapUncounted | crates/audio-core/src/asio_subscribe.rs:1093-1097 | an advance of 1000001 leaves the counter at zero although a million packets are missing |

## Left out

- ReceiverCursor.Receiver.Process: deliveries happen between callbacks; `ReceiverPool` is where they interleave with one.
- BusRender.BusOutput.RenderBusOutput: one source only; with several the scratch frame is shared between sources while they decay.
- CombineSplit.Relay: samples are carried as numbers, not as little-endian bytes.
- CombineSplit.DemuxIntoBuffers: samples are carried as numbers, not as bytes, so the overflow check on four bytes per
  channel is left out; a recorder is the sequence of samples given to it.
- SignalMetering.SignalMeter.SnapshotAndReset: the logarithm is a parameter.
- CaptureQueue.CaptureBuffer.CaptureSelectedChannels: the counters are unbounded; a wrap of a 64-bit counter is not modelled.
- BatchResampler.ResampleInterleavedLinear: the 64-bit product of frame count and rate is taken not to overflow.
- JitterControl.AdaptiveJitterController.Observe: NaN targets and the saturation of twice the target are not modelled.
- Floating-point rounding, NaN and infinities elsewhere, except that the peak meter's sanitizing of them is modelled.
- The clock synchronizer, the jitter statistic, status texts, metrics printing and the meter registry.
- Sockets, discovery, subscriptions, packet headers, forward error correction and encryption.
- The codec itself, its bitrate selection and concealment of lost packets.
- Device enumeration, sample-format conversion, thread priorities and callback panics.
- Restarting the receiver plug-in's runtime while a block is being played.
- Packet budgets, device-selection checks and the split renderer: they would only add easy members.
