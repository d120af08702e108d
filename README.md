# FilamentMotionSensor in Dafny

A verified model of the filament motion tracker in `src/FilamentMotionSensor.cpp`, part of the
firmware of a 3D-printer filament jam detector. The tracker compares two distances. One is how
much filament the printer says it extruded, taken from absolute extrusion telemetry. The other
is how much filament the motion sensor saw pass, taken from its pulses. It can measure both
distances in three ways:

- **cumulative**: since a baseline position;
- **windowed**: over a rolling window of time-stamped samples in a circular array;
- **EWMA**: as exponentially weighted moving averages.

It also keeps the hard-jam and soft-jam evidence accumulators that `isJammed` turns into a jam
verdict.

The project has six modules:

- `Time`: the ESP32's 32-bit `unsigned long` clock. `Sub32` and `Add32` are unsigned subtraction
  and addition modulo 2^32, and `Elapsed` is a wrap-safe duration.
- `Window`: the live samples as a sequence, oldest first. It defines pruning, appending and
  crediting a pulse, the two window sums, and the retention test both as written and as
  intended.
- `Ring`: the index arithmetic of the circular `samples[]` array. It covers the slot of the
  `i`-th oldest live sample, the array's view as a window, the compaction step of
  `pruneOldSamples`, and where the write cursor goes after pruning, both as written and
  corrected.
- `Jam`: one `isJammed` evaluation as a pure function `Evaluate` of the accumulators, the
  arguments and an observation of the tracker. Around it are lemmas about a single evaluation,
  about hard and soft stalls sustained over many evaluations, and about the progress
  percentages.
- `Tracker`: the tracker as a pure state machine, with one function per public operation. It
  also defines the read-side queries and a health invariant, which is proved to hold after any
  sequence of calls.
- `Sensor`: the class `FilamentMotionSensor` itself. Its fields, its `array<Sample>` and its
  methods mirror the source. Each method is proved to move the abstract state `Model()` exactly
  as the matching `Tracker` function says. Read-only queries are proved equal to the `Tracker`
  functions.

The clock `millis()` becomes a parameter `now`, one value per public call (see "## Left out").
The header that defines `MAX_SAMPLES` is not part of this model, so it is fixed at 20.
Millimetre values are `real`.

On a retraction the code moves the grace anchor `lastExpectedUpdateMs` to the current time
(src/FilamentMotionSensor.cpp:98), as the comment at src/FilamentMotionSensor.cpp:118-120
describes: grace applies after retractions too. `Tracker.Resync`,
`Sensor.FilamentMotionSensor.ResyncAfterRetraction` and `Tracker.TelemetryEffects` state this.

## Model

| member | source | states |
|---|---|---|
| Time.Sub32IsMod | src/FilamentMotionSensor.cpp:121 | an `unsigned long` difference such as `currentTime - lastExpectedUpdateMs` is the difference modulo 2^32 |
| Time.Add32IsMod | src/FilamentMotionSensor.cpp:360 | `hardJamAccumulatedMs += evaluationDeltaMs` on `unsigned long` is the sum modulo 2^32 |
| Time.ElapsedAcrossWrap | src/FilamentMotionSensor.cpp:300 | an unsigned elapsed time is exact across the 49.7-day wrap of `millis()` |
| Window.Push | src/FilamentMotionSensor.cpp:209-217 | appending puts the new sample last and keeps at most MAX_SAMPLES; a full window gives up exactly its oldest sample |
| Window.PruneLength | src/FilamentMotionSensor.cpp:226-243 | pruning never grows the window (`newCount <= sampleCount`) |
| Window.PruneKeepsExactlyWindow | src/FilamentMotionSensor.cpp:220-243 | after pruning, a sample is kept if and only if it was live and lies inside the window at `now` |
| Window.PruneFresh | src/FilamentMotionSensor.cpp:220-243 | pruning a window whose samples are all fresh changes nothing |
| Window.AddSampleIsLocal | src/FilamentMotionSensor.cpp:201-217 | after `addSample` the window holds 1 to MAX_SAMPLES samples, the newest is the one just recorded, and every sample lies inside the window |
| Window.PushSums | src/FilamentMotionSensor.cpp:209-217 | recording a sample adds its distances to both window sums, and when the window is full the evicted sample's distances leave them |
| Window.CreditNewestSums | src/FilamentMotionSensor.cpp:182-191 | crediting a pulse to the newest sample raises the windowed sensor distance by exactly that amount (by nothing on an empty window) and leaves the expected distance unchanged |
| Window.SumsNonNegative | src/FilamentMotionSensor.cpp:256-268 | samples with non-negative distances have non-negative sums |
| Window.RetentionAgreesWithoutWrap | src/FilamentMotionSensor.cpp:223-230 | when neither `now - windowSizeMs` nor the clock has wrapped, the written retention test agrees with the elapsed-time test |
| Window.RetentionAsWrittenDropsFreshSample | src/FilamentMotionSensor.cpp:223-230 | one second after boot, with a 5000 ms window, the written test drops a sample taken at that very moment |
| Window.RetentionAsWrittenKeepsStaleSampleAcrossWrap | src/FilamentMotionSensor.cpp:223-230 | 5000 ms after the clock wraps, the written test keeps a sample stamped 100 ms before the wrap, which is 5100 ms old and outside the 5000 ms window |
| Ring.SlotIsMod | src/FilamentMotionSensor.cpp:229 | `Slot` is the source's `(nextSampleIndex - sampleCount + i + MAX_SAMPLES) % MAX_SAMPLES` and lies inside the array |
| Ring.PrevIsMod | src/FilamentMotionSensor.cpp:186 | `Prev` is the source's `(nextSampleIndex - 1 + MAX_SAMPLES) % MAX_SAMPLES` |
| Ring.SuccIsMod | src/FilamentMotionSensor.cpp:213 | `Succ` is the source's `(nextSampleIndex + 1) % MAX_SAMPLES` and lies inside the array |
| Ring.RingViewAt | src/FilamentMotionSensor.cpp:262-267 | the `i`-th oldest live sample is the one at `Slot(next, count, i)` |
| Ring.RingPush | src/FilamentMotionSensor.cpp:209-217 | writing at `nextSampleIndex`, advancing it and growing the count while not full appends the sample to the live window, evicting the oldest sample when full |
| Ring.RingCredit | src/FilamentMotionSensor.cpp:186-189 | adding to the slot before `nextSampleIndex` credits the newest live sample and no other |
| Ring.CompactPruneStep | src/FilamentMotionSensor.cpp:227-241 | one iteration of the compaction loop keeps its invariant: the kept samples so far are the pruned prefix, in order, at the first live slots, and the samples not yet visited are still in place |
| Ring.PruneCursor | src/FilamentMotionSensor.cpp:243-253 | corrected cursor: after pruning, the count is the number kept and the next write position is inside the array |
| Ring.FillAgrees | src/FilamentMotionSensor.cpp:243-253 | until the array fills, the written and the corrected cursors agree: `n` samples sit at slots 0 to n-1 and the next write goes to slot n |
| Ring.FillAsWrittenOverruns | src/FilamentMotionSensor.cpp:248 | as written, once MAX_SAMPLES samples have been recorded within one window, the next prune sets the write index to MAX_SAMPLES, one past the array |
| Ring.FillCount | src/FilamentMotionSensor.cpp:214-217 | with the corrected cursor the count grows to MAX_SAMPLES and stays there |
| Jam.EffectiveRatioThreshold | src/FilamentMotionSensor.cpp:279-286 | the ratio threshold lies in (0, 1]: it is kept when already inside, 0.25 when not positive, 1 above 1 |
| Jam.EffectiveSoftJamTime | src/FilamentMotionSensor.cpp:287-290 | the soft-jam time is kept when positive and is 10000 ms otherwise |
| Jam.EffectiveHardJamTime | src/FilamentMotionSensor.cpp:291-294 | the hard-jam time is kept when positive and is 5000 ms otherwise |
| Jam.WindowDeficit | src/FilamentMotionSensor.cpp:314-318 | the window deficit is the larger of 0 and expected minus actual |
| Jam.PassingRatio | src/FilamentMotionSensor.cpp:323-327 | the passing ratio is never negative, is 1 when nothing is expected, and is actual over expected when something is expected and nothing negative was sensed |
| Jam.EvaluationDelta | src/FilamentMotionSensor.cpp:329-334 | an evaluation credits exactly the check interval on the first evaluation and whenever more than the interval has elapsed, and the elapsed time otherwise |
| Jam.RequiredHardChecks | src/FilamentMotionSensor.cpp:339-344 | the required checks are the least count of check intervals that covers the hard-jam time, at least 1 |
| Jam.AtLeastOne | src/FilamentMotionSensor.cpp:340-343 | the zero guard raises only a zero count; for a positive count it changes nothing |
| Jam.Evaluate | src/FilamentMotionSensor.cpp:270-427 | an uninitialised tracker or a non-positive interval leaves the accumulators unchanged and reports no jam; inside the grace period no jam is reported and both time accumulators are 0; jammed holds if and only if a hard or a soft jam triggered |
| Jam.EvaluateInGrace | src/FilamentMotionSensor.cpp:298-309 | inside the grace period, exactly the two accumulators, the check count, the soft flag and the evaluation time change |
| Jam.HardJamProgressPercent | src/FilamentMotionSensor.cpp:429-442 | hard progress lies in [0, 100], is 0 when no checks are required, is 100 if and only if the counted checks reach the required ones, and below that is `100 * consecutive / required` |
| Jam.SoftJamProgressPercent | src/FilamentMotionSensor.cpp:444-457 | soft progress lies in [0, 100], is 0 when the last soft-jam time is not positive, is 100 if and only if the accumulator reaches that time, and below that is `100 * accumulated / lastSoftJamTime` |
| Jam.EvaluateKeepsSane | src/FilamentMotionSensor.cpp:358-365 | the accumulators never pass `INT32_MAX`, and neither rises above both its old value and its configured time |
| Jam.HardAccumulation | src/FilamentMotionSensor.cpp:329-394 | the hard accumulator grows by the evaluation delta (capped at the hard-jam time) while the hard condition holds; it drops only when a recent pulse clears it, when the veto empties a full accumulator because less than 1 mm was expected, or when the cap shrank; the hard jam triggers if and only if the accumulator is full and at least 1 mm was expected; the counted checks are the accumulator over the interval |
| Jam.SoftAccumulation | src/FilamentMotionSensor.cpp:396-426 | while the soft condition holds, the time grows (capped) and the deficit total adds the window deficit; otherwise both return to 0 and no soft jam triggers; a soft jam triggers if and only if the time is full and the total reaches 0.5 mm |
| Jam.EvaluationBookkeeping | src/FilamentMotionSensor.cpp:298-335 | each active evaluation stamps `lastJamEvaluationMs`; outside the grace period it also records the window deficit and its time |
| Jam.PacedDelta | src/FilamentMotionSensor.cpp:329-335 | evaluations at least one interval apart each credit exactly one interval |
| Jam.HardStallStep | src/FilamentMotionSensor.cpp:358-394 | one paced evaluation during a hard stall adds one full interval, capped, and triggers if and only if that reaches the hard-jam time |
| Jam.SustainedHardStall | src/FilamentMotionSensor.cpp:346-394 | a hard stall over `n` paced evaluations accumulates `n` intervals up to the hard-jam time, and the last one reports a hard jam if and only if that reaches the hard-jam time |
| Jam.SoftStallStep | src/FilamentMotionSensor.cpp:403-424 | one paced evaluation during a soft stall adds one interval and this evaluation's deficit |
| Jam.DeficitFloor | src/FilamentMotionSensor.cpp:403 | each soft-stall evaluation is at least 0.25 mm behind, so `n` of them total at least `0.25 * n` mm |
| Jam.SustainedSoftStall | src/FilamentMotionSensor.cpp:396-426 | a soft stall over `n` paced evaluations accumulates `n` intervals up to the soft-jam time and sums the deficits; the last one reports a soft jam if and only if both thresholds are reached |
| Jam.HardProgressFullAtTrigger | src/FilamentMotionSensor.cpp:376-394 | when the interval divides the hard-jam time, the UI shows 100% hard progress whenever a hard jam triggers |
| Jam.HardProgressLagsTrigger | src/FilamentMotionSensor.cpp:339-376 | otherwise it can lag: with a 5000 ms hard-jam time and a 3000 ms interval, a triggered hard jam shows 50% |
| Jam.SoftProgressFullAtTrigger | src/FilamentMotionSensor.cpp:421-457 | the UI shows 100% soft progress whenever a soft jam triggers |
| Jam.CeilingCovers | src/FilamentMotionSensor.cpp:339 | `(h + c - 1) / c` intervals cover `h` and are fewer than `h + c` milliseconds |
| Jam.PercentFull | src/FilamentMotionSensor.cpp:436-440 | a percentage reaches 100 if and only if the numerator reaches the denominator |
| Tracker.Reset | src/FilamentMotionSensor.cpp:13-56 | `reset` keeps the configuration, leaves the tracker uninitialised with no first pulse, an empty window and cleared accumulators, and sets both timestamps to now |
| Tracker.Constructed | src/FilamentMotionSensor.cpp:5-11 | a new tracker is windowed, with a 5000 ms window and alpha 0.3, uninitialised and empty |
| Tracker.ClampAlpha | src/FilamentMotionSensor.cpp:65-67 | alpha is clamped into [0.01, 1] and kept when already inside |
| Tracker.SetTrackingMode | src/FilamentMotionSensor.cpp:58-68 | the mode and window size become the arguments, alpha becomes `ClampAlpha(alpha)` (kept in range, 0.01 below it, 1 above it), and nothing else changes |
| Tracker.EwmaBetween | src/FilamentMotionSensor.cpp:141 | with a weight in [0, 1] each EWMA step lies between the previous average and the new sample |
| Tracker.UpdateExpectedPosition | src/FilamentMotionSensor.cpp:70-147 | telemetry initialises the tracker and sets the expected position; it changes neither the configuration, the pulse state nor the jam accumulators |
| Tracker.AddSensorPulse | src/FilamentMotionSensor.cpp:150-199 | a non-positive pulse or an uninitialised tracker changes nothing; any other pulse marks the first pulse as received and stamps its time |
| Tracker.Deficit | src/FilamentMotionSensor.cpp:459-471 | the deficit is the larger of 0 and expected minus sensed, and 0 before initialisation |
| Tracker.FlowRatio | src/FilamentMotionSensor.cpp:542-563 | the flow ratio lies in [0, 1.5], is 0 when uninitialised or when nothing is expected, is sensed over expected when that lies in range, saturates at 1.5 above the range and is 0 below it |
| Tracker.WithinGracePeriod | src/FilamentMotionSensor.cpp:532-540 | there is no grace period when uninitialised or when it is 0; otherwise it holds if and only if `(now - lastExpectedUpdateMs) mod 2^32` is below it |
| Tracker.IsJammed | src/FilamentMotionSensor.cpp:270-427 | `isJammed` changes only the jam accumulators, and nothing at all on an early exit |
| Tracker.DistancesNonNegative | src/FilamentMotionSensor.cpp:459-525 | in a healthy state neither distance is negative and the deficit never exceeds the expected distance |
| Tracker.ConstructedHealthy | src/FilamentMotionSensor.cpp:5-11 | a new tracker is healthy |
| Tracker.ResetHealthy | src/FilamentMotionSensor.cpp:13-56 | `reset` leaves a healthy state |
| Tracker.SetTrackingModeHealthy | src/FilamentMotionSensor.cpp:58-68 | `setTrackingMode` keeps the tracker healthy |
| Tracker.UpdateExpectedPositionHealthy | src/FilamentMotionSensor.cpp:70-147 | `updateExpectedPosition` keeps the tracker healthy |
| Tracker.AddSensorPulseHealthy | src/FilamentMotionSensor.cpp:150-199 | `addSensorPulse` keeps the tracker healthy |
| Tracker.IsJammedHealthy | src/FilamentMotionSensor.cpp:270-427 | `isJammed` keeps the tracker healthy |
| Tracker.ResetReadsZero | src/FilamentMotionSensor.cpp:13-56 | after `reset` both distances, the deficit, the flow ratio and both progress figures are 0, no grace period runs and no jam is reported |
| Tracker.FirstTelemetryOnlyInitialises | src/FilamentMotionSensor.cpp:74-92 | the first telemetry value only sets the baselines and the grace anchor; it records no sample |
| Tracker.TelemetryEffects | src/FilamentMotionSensor.cpp:94-147 | a retraction empties the window, zeroes the sensed distance and moves the anchor; otherwise a sample carrying the growth is recorded only after the first pulse, in windowed mode, for growth above 0.01 mm, and the window is then local; the anchor moves only on a retraction or on growth after a gap of more than 2000 ms |
| Tracker.PulseEffects | src/FilamentMotionSensor.cpp:160-191 | only the distances, the first-pulse flag and the pulse time change. The first pulse empties the window, moves the baseline to the current position and clears the EWMA state. Later pulses add their length to the sensed distance. In windowed mode they add it to the `actualMm` of the newest sample only, and in EWMA mode every pulse takes one step of the sensed average; the other modes' state is unchanged |
| Tracker.GraceSuppressesJam | src/FilamentMotionSensor.cpp:298-309 | `isJammed` uses the same grace test as `isWithinGracePeriod`; inside the grace period it reports no jam, zeroes both accumulators and shows 0% soft progress |
| Tracker.StepHealthy | src/FilamentMotionSensor.cpp:13-427 | every public call keeps the tracker healthy |
| Tracker.RunHealthy | src/FilamentMotionSensor.cpp:5-11 | from construction, whatever the calls, the tracker stays healthy and its distances are never negative |
| Tracker.SilentUntilTelemetry | src/FilamentMotionSensor.cpp:152-154 | until the first telemetry value, any other calls leave the tracker uninitialised with every distance, the deficit and the flow ratio at 0 |
| Sensor.FilamentMotionSensor.constructor | src/FilamentMotionSensor.cpp:5-11 | the new object's state is `Tracker.Constructed` |
| Sensor.FilamentMotionSensor.Reset | src/FilamentMotionSensor.cpp:13-56 | the new state is `Tracker.Reset` of the old one, and every array slot holds an empty sample |
| Sensor.FilamentMotionSensor.ClearSamples | src/FilamentMotionSensor.cpp:27-32 | the clearing loop empties every slot of the array |
| Sensor.FilamentMotionSensor.SetTrackingMode | src/FilamentMotionSensor.cpp:58-68 | the new state is `Tracker.SetTrackingMode` of the old one |
| Sensor.FilamentMotionSensor.PruneOldSamples | src/FilamentMotionSensor.cpp:220-254 | the live samples become `Prune` of the old ones; the count does not grow; the cursor is the corrected `PruneCursor` |
| Sensor.FilamentMotionSensor.CompactSurvivors | src/FilamentMotionSensor.cpp:226-241 | the compaction loop returns the number of survivors and leaves them, in order, at the first live slots |
| Sensor.FilamentMotionSensor.AddSample | src/FilamentMotionSensor.cpp:201-218 | the live samples become `Window.AddSample` of the old ones |
| Sensor.FilamentMotionSensor.UpdateExpectedPosition | src/FilamentMotionSensor.cpp:70-148 | the new state is `Tracker.UpdateExpectedPosition` of the old one |
| Sensor.FilamentMotionSensor.RecordGrowth | src/FilamentMotionSensor.cpp:128-144 | the new state is `Tracker.RecordGrowth` of the old one |
| Sensor.FilamentMotionSensor.InitialiseBaselines | src/FilamentMotionSensor.cpp:74-92 | the new state is `Tracker.Initialise` of the old one |
| Sensor.FilamentMotionSensor.ResyncAfterRetraction | src/FilamentMotionSensor.cpp:95-113 | the new state is `Tracker.Resync` of the old one |
| Sensor.FilamentMotionSensor.AddSensorPulse | src/FilamentMotionSensor.cpp:150-199 | the new state is `Tracker.AddSensorPulse` of the old one |
| Sensor.FilamentMotionSensor.FirstPulseReset | src/FilamentMotionSensor.cpp:162-177 | the new state is `Tracker.FirstPulse` of the old one |
| Sensor.FilamentMotionSensor.CreditPulse | src/FilamentMotionSensor.cpp:179-198 | the new state is `Tracker.CreditPulse` of the old one |
| Sensor.FilamentMotionSensor.CreditNewestSample | src/FilamentMotionSensor.cpp:183-191 | the live samples become `CreditNewest` of the old ones |
| Sensor.FilamentMotionSensor.GetWindowedDistances | src/FilamentMotionSensor.cpp:256-268 | the summing loop returns the two sums over exactly the live samples |
| Sensor.FilamentMotionSensor.IsJammed | src/FilamentMotionSensor.cpp:270-427 | the new state and the verdict are those of `Tracker.IsJammed` |
| Sensor.FilamentMotionSensor.GetExpectedDistance | src/FilamentMotionSensor.cpp:473-498 | returns `Tracker.ExpectedDistance` of the state |
| Sensor.FilamentMotionSensor.GetSensorDistance | src/FilamentMotionSensor.cpp:500-525 | returns `Tracker.SensorDistance` of the state |
| Sensor.FilamentMotionSensor.GetDeficit | src/FilamentMotionSensor.cpp:459-471 | returns `Tracker.Deficit` of the state |
| Sensor.FilamentMotionSensor.GetFlowRatio | src/FilamentMotionSensor.cpp:542-563 | returns `Tracker.FlowRatio` of the state |
| Sensor.FilamentMotionSensor.IsWithinGracePeriod | src/FilamentMotionSensor.cpp:532-540 | no grace when uninitialised or for a zero grace period; otherwise in grace exactly when the unsigned time since `lastExpectedUpdateMs` is below the grace period (delegates to `Tracker.WithinGracePeriod`) |
| Sensor.FilamentMotionSensor.GetHardJamProgressPercent | src/FilamentMotionSensor.cpp:429-442 | lies in [0, 100], is 0 when no checks are required, is 100 exactly when the consecutive checks reach the required ones, and below that is `100 * consecutive / required` (delegates to `Jam.HardJamProgressPercent`) |
| Sensor.FilamentMotionSensor.GetSoftJamProgressPercent | src/FilamentMotionSensor.cpp:444-457 | lies in [0, 100], is 0 without a soft-jam time, is 100 exactly when the accumulated time reaches it, and below that is `100 * accumulated / lastSoftJamTime` (delegates to `Jam.SoftJamProgressPercent`) |
| Sensor.ClampJamSettings | src/FilamentMotionSensor.cpp:279-294 | the clamped settings are the `Jam.Effective*` values |
| Sensor.EvaluateEvidence | src/FilamentMotionSensor.cpp:312-426 | for an active evaluation outside the grace period, the new accumulators and both triggers are those of `Jam.Evaluate` |
| Sensor.HardJamEvidence | src/FilamentMotionSensor.cpp:349-394 | the hard block yields the accumulator after the veto, the counted checks and the trigger as `Jam.HardStep` and the veto define them |
| Sensor.SoftJamEvidence | src/FilamentMotionSensor.cpp:403-424 | the soft block yields the soft flag, the time accumulator, the deficit total and the trigger as `Jam.SoftCondition` and `Jam.SoftStep` define them |

## Left out

- `src/FilamentMotionSensor.h` declares a bucket-based design (`expectedBuckets`, `getWindowedRates`, `clearStaleBuckets`). Its implementation is not part of this model; only the sample-ring design of the `.cpp` is modelled.
- `hardJamThresholdMm` is accepted by `isJammed` and never read, in the source and in the model.
- Sensor.FilamentMotionSensor.IsJammed: the `int` sums `hardJamTimeMs + checkIntervalMs - 1` (:339) and `checkIntervalMs + 500` (:356) are computed without 32-bit signed overflow, because that overflow is undefined behaviour in C++ and needs settings above two billion milliseconds.
- The `default:` branches of the mode switches (:495-496, :522-523) are unreachable: the mode is a three-valued datatype.
- Four fields that only `reset` writes and nothing reads are not modelled: `hardJamAccumExpectedMm`, `hardJamAccumActualMm`, `lastCumulativeExpectedPositionMm` and `lastCumulativeSensorDistanceMm`. `ewmaLastActualMm` is also never read, but it is kept.
- `float` arithmetic is modelled as exact `real` arithmetic, so IEEE rounding is not modelled. That includes the EWMA updates at :141 and :197.
- `millis()` and the logger are not modelled. The clock is the parameter `now`, one value per public call. This is a simplification: the source reads `millis()` up to three times in one call (`reset` at :17 and :55; `updateExpectedPosition` at :72, then inside `addSample` at :203 and `pruneOldSamples` at :222), so there the sample timestamp, the prune cutoff and the grace anchor can differ by the milliseconds that pass between the reads. The model gives them all the same time.
- Concurrency is not modelled: `addSensorPulse` may run in an interrupt context, and every call is treated as atomic.
- `isInitialized` (:527-530) only returns a field and is not modelled as an operation.
- The header that defines `MAX_SAMPLES` and the `TRACKING_MODE_*` constants is not part of this model. `MAX_SAMPLES` is 20 here, and the modes are a datatype.
- The tracker's fields are grouped into three records (`Tracker.CumulativeState`, `Tracker.EwmaState`, `Jam.Accumulators`) instead of loose fields.
- Some source methods are split into helper methods, each proved against the matching `Tracker` or `Jam` function:
  - `ClearSamples`, `CompactSurvivors`, `InitialiseBaselines`, `ResyncAfterRetraction`, `RecordGrowth`, `FirstPulseReset`, `CreditPulse` and `CreditNewestSample` in the class;
  - `ClampJamSettings`, `EvaluateEvidence`, `HardJamEvidence` and `SoftJamEvidence` beside it.
- `isJammed` assigns the accumulators as one record at the end rather than field by field. Every field ends with the value the source leaves in it.
- The ring arithmetic is not written with `%`:
  - `Ring.Slot`, `Ring.Prev` and `Ring.Succ` use one conditional subtraction;
  - `Time.Sub32` and `Time.Add32` use one conditional correction by 2^32;
  - lemmas `SlotIsMod`, `PrevIsMod`, `SuccIsMod`, `Sub32IsMod` and `Add32IsMod` prove each equal to the source's modular expression.

## Findings

| source | as written | input that shows it | evidently intended | confidence | as-written member | corrected member |
|---|---|---|---|---|---|---|
| src/FilamentMotionSensor.cpp:248 | after pruning, `nextSampleIndex = sampleCount` | 20 samples recorded within one window: the ring is full with `nextSampleIndex` 0; the prune before the 21st sample keeps all 20 and sets `nextSampleIndex` to 20, and line 209 then writes `samples[20]`, one past the array | the next write goes to the slot right after the last survivor, which is always inside the array | not executed | Ring.FillAsWrittenOverruns | Ring.PruneCursor |
| src/FilamentMotionSensor.cpp:223-230 | a sample is kept when `timestampMs >= currentTime - windowSizeMs`, in unsigned arithmetic | `now` = 1000 ms after boot with the default 5000 ms window: the cutoff wraps to 4294963296, so a sample stamped 1000 is dropped at once; the same happens to samples stamped just after the 49.7-day clock wrap, and once `now` reaches the window length after the wrap, samples stamped just before it are kept too long | keep a sample when `currentTime - timestampMs <= windowSizeMs`, which is wrap-safe | not executed | Window.RetentionAsWrittenDropsFreshSample | Window.PruneKeepsExactlyWindow |

Both corrections are what the rest of the model uses.

- The first correction is applied in `Sensor.FilamentMotionSensor.PruneOldSamples`. Its contract states that the cursor is `Ring.PruneCursor`, and `Ring.FillCount` shows the count then saturates at MAX_SAMPLES.
- That correction also changes the guard at :187. The source requires `mostRecentIndex < sampleCount`. With the written cursor, the newest live sample always sits below `sampleCount`. With the corrected cursor it may sit at any slot, so `Sensor.FilamentMotionSensor.CreditNewestSample` tests the array bounds instead. `Ring.RingCredit` proves that the write credits exactly the newest live sample.
- The second correction is `Window.InWindow`, which `Window.Prune` and the class's compaction loop use. `Window.RetentionAgreesWithoutWrap` shows that it agrees with the written test wherever neither subtraction wraps. `Window.RetentionAsWrittenKeepsStaleSampleAcrossWrap` exhibits the other error of the written test: a sample from before the wrap that has left the window is kept.
