/** The class `FilamentMotionSensor` of src/FilamentMotionSensor.cpp with its
    fields, its circular `samples` array and its methods. Every method is
    proved to move the abstract state `Model()` exactly as the matching
    function of module Tracker says. */
module Sensor {
  import opened Time
  import opened Window
  import opened Ring
  import Jam
  import Tracker

  class FilamentMotionSensor {
    var trackingMode: Tracker.TrackingMode
    var windowSizeMs: u32
    var ewmaAlpha: real

    var initialized: bool
    var firstPulseReceived: bool
    var lastExpectedUpdateMs: u32
    var lastSensorPulseMs: u32

    /** Cumulative mode: baseline, expected position and sensed distance. */
    var cumulative: Tracker.CumulativeState

    /** Windowed mode: `sampleCount` live samples end just before `nextSampleIndex`. */
    const samples: array<Sample>
    var sampleCount: int
    var nextSampleIndex: int

    /** EWMA mode: the two averages and the positions they were last sampled at. */
    var ewma: Tracker.EwmaState

    /** The jam-evidence accumulators. */
    var jam: Jam.Accumulators

    /** The ring indices stay inside the array. */
    ghost predicate Valid()
      reads this`nextSampleIndex, this`sampleCount
    {
      samples.Length == MAX_SAMPLES &&
      0 <= nextSampleIndex < MAX_SAMPLES && 0 <= sampleCount <= MAX_SAMPLES
    }

    /** The live samples, oldest first. */
    function Live(): SampleWindow
      reads this`nextSampleIndex, this`sampleCount, samples
      requires Valid()
    {
      RingView(samples[..], nextSampleIndex, sampleCount)
    }

    /** The abstract state of the tracker. */
    function Model(): Tracker.State
      reads this, samples
      requires Valid()
    {
      Tracker.State(trackingMode, windowSizeMs, ewmaAlpha, initialized, firstPulseReceived,
                    lastExpectedUpdateMs, lastSensorPulseMs, cumulative, Live(), ewma, jam)
    }

    /** Windowed mode, a 5 s window and alpha 0.3, then `reset`. */
    constructor(now: u32)
      ensures Valid() && fresh(samples)
      ensures Model() == Tracker.Constructed(now)
    {
      samples := new Sample[MAX_SAMPLES](_ => EMPTY_SAMPLE);
      trackingMode := Tracker.Windowed;
      windowSizeMs := Tracker.DEFAULT_WINDOW_MS;
      ewmaAlpha := Tracker.DEFAULT_EWMA_ALPHA;
      sampleCount := 0;
      nextSampleIndex := 0;
      new;
      Reset(now);
    }

    method Reset(now: u32)
      requires Valid()
      modifies this, samples
      ensures Valid()
      ensures Model() == Tracker.Reset(old(Model()), now)
      ensures forall i | 0 <= i < samples.Length :: samples[i] == EMPTY_SAMPLE
    {
      ghost var before := Model();
      initialized := false;
      firstPulseReceived := false;
      lastExpectedUpdateMs := now;
      cumulative := Tracker.CUMULATIVE_CLEARED;
      sampleCount := 0;
      nextSampleIndex := 0;
      ClearSamples();
      ewma := Tracker.EWMA_CLEARED;
      jam := Jam.CLEARED;
      lastSensorPulseMs := now;
      assert Live() == [];
      assert Model() == Tracker.Cleared(before.mode, before.windowSizeMs, before.ewmaAlpha, now);
    }

    /** Overwrites every slot of the sample array with an empty sample. */
    method ClearSamples()
      requires Valid()
      modifies samples
      ensures forall i | 0 <= i < samples.Length :: samples[i] == EMPTY_SAMPLE
    {
      var i := 0;
      while i < MAX_SAMPLES
        invariant 0 <= i <= MAX_SAMPLES
        invariant forall j | 0 <= j < i :: samples[j] == EMPTY_SAMPLE
      {
        samples[i] := EMPTY_SAMPLE;
        i := i + 1;
      }
    }

    method SetTrackingMode(mode: Tracker.TrackingMode, windowMs: u32, alpha: real)
      requires Valid()
      modifies this`trackingMode, this`windowSizeMs, this`ewmaAlpha
      ensures Valid()
      ensures Model() == Tracker.SetTrackingMode(old(Model()), mode, windowMs, alpha)
    {
      trackingMode := mode;
      windowSizeMs := windowMs;
      ewmaAlpha := alpha;
      if ewmaAlpha < Tracker.MIN_EWMA_ALPHA {
        ewmaAlpha := Tracker.MIN_EWMA_ALPHA;
      }
      if ewmaAlpha > 1.0 {
        ewmaAlpha := 1.0;
      }
    }

    /** Drops the samples older than the window, compacting the survivors
        towards the oldest live slot, in order. */
    method PruneOldSamples(now: u32)
      requires Valid()
      modifies this`sampleCount, this`nextSampleIndex, samples
      ensures Valid()
      ensures Live() == Prune(old(Live()), now, windowSizeMs)
      ensures sampleCount <= old(sampleCount)
      ensures Cursor(sampleCount, nextSampleIndex)
              == PruneCursor(Cursor(old(sampleCount), old(nextSampleIndex)), sampleCount)
    {
      ghost var p := Prune(Live(), now, windowSizeMs);
      var count := sampleCount;
      var next := nextSampleIndex;
      var newCount := CompactSurvivors(now);
      sampleCount := newCount;
      if sampleCount > 0 {
        nextSampleIndex := Slot(next, count, newCount);
        forall j | 0 <= j < newCount ensures Slot(nextSampleIndex, newCount, j) == Slot(next, count, j) {
          SlotAfterCompaction(next, count, newCount, j);
        }
        assert forall j | 0 <= j < newCount :: samples[Slot(next, count, j)] == p[j];
      } else {
        nextSampleIndex := 0;
      }
      RingViewIndex(samples[..], nextSampleIndex, sampleCount);
      assert Live() == p;
    }

    /** The loop of `pruneOldSamples`: moves each live sample still inside
        the window to the next free slot counted from the oldest live slot,
        and returns how many there are. */
    method CompactSurvivors(now: u32) returns (newCount: int)
      requires Valid()
      modifies samples
      ensures newCount == |Prune(old(Live()), now, windowSizeMs)| <= sampleCount
      ensures Compacted(samples[..], nextSampleIndex, sampleCount, Prune(old(Live()), now, windowSizeMs))
    {
      ghost var w := Live();
      var count := sampleCount;
      var next := nextSampleIndex;
      var window := windowSizeMs;
      PendingAtStart(samples[..], next, count);
      newCount := 0;
      var i := 0;
      while i < count
        invariant Compacting(samples[..], next, count, w, i, newCount, now, window)
      {
        var idx := Slot(next, count, i);
        ghost var a := samples[..];
        var keep := Elapsed(samples[idx].timestampMs, now) <= window;
        ghost var a' := if keep && newCount != i then a[Slot(next, count, newCount) := a[idx]] else a;
        CompactPruneStep(a, next, count, w, i, newCount, now, window, keep, a',
                         if keep then newCount + 1 else newCount);
        if keep {
          if newCount != i {
            var newIdx := Slot(next, count, newCount);
            samples[newIdx] := samples[idx];
          }
          newCount := newCount + 1;
        }
        assert samples[..] == a';
        i := i + 1;
      }
      assert w[..count] == w;
    }

    /** Prunes, then records a sample stamped `now`. */
    method AddSample(expectedDeltaMm: real, actualDeltaMm: real, now: u32)
      requires Valid()
      modifies this`sampleCount, this`nextSampleIndex, samples
      ensures Valid()
      ensures Live() == Window.AddSample(old(Live()), now, windowSizeMs, expectedDeltaMm, actualDeltaMm)
    {
      PruneOldSamples(now);
      ghost var a, n, c := samples[..], nextSampleIndex, sampleCount;
      var s := Sample(now, expectedDeltaMm, actualDeltaMm);
      samples[nextSampleIndex] := s;
      nextSampleIndex := Succ(nextSampleIndex);
      if sampleCount < MAX_SAMPLES {
        sampleCount := sampleCount + 1;
      }
      RingPush(a, n, c, s, nextSampleIndex, sampleCount);
      assert samples[..] == a[n := s];
    }

    method UpdateExpectedPosition(totalExtrusionMm: real, now: u32)
      requires Valid()
      modifies this, samples
      ensures Valid()
      ensures Model() == Tracker.UpdateExpectedPosition(old(Model()), totalExtrusionMm, now)
    {
      if !initialized {
        InitialiseBaselines(totalExtrusionMm, now);
        return;
      }

      ghost var s0 := Model();
      if totalExtrusionMm < cumulative.expectedPositionMm {
        ResyncAfterRetraction(totalExtrusionMm, now);
      }
      ghost var s1 := Model();
      assert s1 == if totalExtrusionMm < s0.cumulative.expectedPositionMm
                   then Tracker.Resync(s0, totalExtrusionMm, now) else s0;

      var expectedDelta := totalExtrusionMm - cumulative.expectedPositionMm;
      var timeSinceLastUpdate := Sub32(now, lastExpectedUpdateMs);
      if timeSinceLastUpdate > Tracker.TELEMETRY_GAP_MS && expectedDelta > Tracker.MOVE_EPSILON_MM {
        lastExpectedUpdateMs := now;
      }
      ghost var s2 := Model();
      assert s2 == Tracker.GapAnchor(s1, expectedDelta, now);

      RecordGrowth(totalExtrusionMm, expectedDelta, now);
      ghost var s3 := Model();

      cumulative := cumulative.(expectedPositionMm := totalExtrusionMm);
      assert Model() == s3.(cumulative := s3.cumulative.(expectedPositionMm := totalExtrusionMm));
      Tracker.UpdateExpectedPositionSteps(s0, totalExtrusionMm, now, s1, expectedDelta, s3);
    }

    /** Only tracks growth once the first pulse has arrived, which skips the
        priming and purge moves at the start of a print. */
    method RecordGrowth(totalExtrusionMm: real, expectedDelta: real, now: u32)
      requires Valid()
      modifies this`ewma, this`sampleCount, this`nextSampleIndex, samples
      ensures Valid()
      ensures Model() == Tracker.RecordGrowth(old(Model()), totalExtrusionMm, expectedDelta, now)
    {
      ghost var s0 := Model();
      if firstPulseReceived {
        if trackingMode == Tracker.Windowed && expectedDelta > Tracker.MOVE_EPSILON_MM {
          AddSample(expectedDelta, 0.0, now);
          assert Model() == s0.(window := Live());
        } else if trackingMode == Tracker.Ewma && expectedDelta > Tracker.MOVE_EPSILON_MM {
          var newExpected := totalExtrusionMm - ewma.lastExpectedMm;
          ewma := ewma.(expectedMm := ewmaAlpha * newExpected + (1.0 - ewmaAlpha) * ewma.expectedMm,
                        lastExpectedMm := totalExtrusionMm);
          assert Model() == s0.(ewma := ewma);
        }
      }
    }

    /** The first telemetry value sets the baseline of every mode. */
    method InitialiseBaselines(totalExtrusionMm: real, now: u32)
      requires Valid()
      modifies this`initialized, this`lastExpectedUpdateMs, this`cumulative, this`ewma
      ensures Valid()
      ensures Model() == Tracker.Initialise(old(Model()), totalExtrusionMm, now)
    {
      initialized := true;
      lastExpectedUpdateMs := now;
      cumulative := Tracker.CumulativeState(totalExtrusionMm, totalExtrusionMm, 0.0);
      ewma := Tracker.EwmaState(0.0, 0.0, totalExtrusionMm, 0.0);
    }

    /** A retraction resynchronises every mode to the new position. */
    method ResyncAfterRetraction(totalExtrusionMm: real, now: u32)
      requires Valid()
      modifies this`lastExpectedUpdateMs, this`cumulative, this`sampleCount, this`nextSampleIndex, this`ewma
      ensures Valid()
      ensures Model() == Tracker.Resync(old(Model()), totalExtrusionMm, now)
    {
      lastExpectedUpdateMs := now;
      cumulative := cumulative.(baselinePositionMm := totalExtrusionMm, sensorDistanceMm := 0.0);
      sampleCount := 0;
      nextSampleIndex := 0;
      ewma := Tracker.EwmaState(0.0, 0.0, totalExtrusionMm, cumulative.sensorDistanceMm);
      assert Live() == [];
    }

    method AddSensorPulse(mmPerPulse: real, now: u32)
      requires Valid()
      modifies this, samples
      ensures Valid()
      ensures Model() == Tracker.AddSensorPulse(old(Model()), mmPerPulse, now)
    {
      if mmPerPulse <= 0.0 || !initialized {
        return;
      }
      lastSensorPulseMs := now;
      if !firstPulseReceived {
        FirstPulseReset();
      }
      CreditPulse(mmPerPulse);
    }

    /** The first pulse moves the baseline to the current expected position
        and drops the windowed and EWMA history gathered before it, which
        discards the priming and purge moves. */
    method FirstPulseReset()
      requires Valid()
      modifies this`firstPulseReceived, this`cumulative, this`sampleCount, this`nextSampleIndex, this`ewma
      ensures Valid()
      ensures Model() == Tracker.FirstPulse(old(Model()))
    {
      firstPulseReceived := true;
      cumulative := cumulative.(baselinePositionMm := cumulative.expectedPositionMm, sensorDistanceMm := 0.0);
      sampleCount := 0;
      nextSampleIndex := 0;
      ewma := Tracker.EwmaState(0.0, 0.0, cumulative.expectedPositionMm, 0.0);
      assert Live() == [];
    }

    /** Credits a pulse's length to the cumulative distance, to the newest
        windowed sample and to the EWMA of the sensor movement. */
    method CreditPulse(mmPerPulse: real)
      requires Valid()
      modifies this`cumulative, samples, this`ewma
      ensures Valid()
      ensures Model() == Tracker.CreditPulse(old(Model()), mmPerPulse)
    {
      ghost var s0 := Model();
      Tracker.CreditPulseByMode(s0, mmPerPulse);
      cumulative := cumulative.(sensorDistanceMm := cumulative.sensorDistanceMm + mmPerPulse);
      ghost var s3 := s0.(cumulative := cumulative);
      assert Model() == s3;

      if trackingMode == Tracker.Windowed {
        CreditNewestSample(mmPerPulse);
        assert Model() == s3.(window := CreditNewest(s3.window, mmPerPulse));
      }

      if trackingMode == Tracker.Ewma {
        var actualDelta := mmPerPulse;
        ewma := ewma.(actualMm := ewmaAlpha * actualDelta + (1.0 - ewmaAlpha) * ewma.actualMm);
        assert Model() == s3.(ewma := ewma);
      }
      assert trackingMode == Tracker.Windowed ==> Model() == Tracker.CreditPulse(s0, mmPerPulse);
      assert trackingMode == Tracker.Ewma ==> Model() == Tracker.CreditPulse(s0, mmPerPulse);
      assert trackingMode == Tracker.Cumulative ==> Model() == Tracker.CreditPulse(s0, mmPerPulse);
    }

    /** Adds a pulse's length to the newest live sample, if there is one. */
    method CreditNewestSample(mmPerPulse: real)
      requires Valid()
      modifies samples
      ensures Valid()
      ensures Live() == CreditNewest(old(Live()), mmPerPulse)
    {
      if sampleCount > 0 {
        var mostRecentIndex := Prev(nextSampleIndex);
        if 0 <= mostRecentIndex < samples.Length {
          RingCredit(samples[..], nextSampleIndex, sampleCount, mmPerPulse);
          samples[mostRecentIndex] := samples[mostRecentIndex].(actualMm := samples[mostRecentIndex].actualMm + mmPerPulse);
        }
      }
    }

    /** Sums the live samples, oldest first. */
    method GetWindowedDistances() returns (expectedMm: real, actualMm: real)
      requires Valid()
      ensures expectedMm == ExpectedSum(Live()) && actualMm == ActualSum(Live())
    {
      ghost var w := Live();
      var count := sampleCount;
      var next := nextSampleIndex;
      expectedMm := 0.0;
      actualMm := 0.0;
      var i := 0;
      while i < count
        invariant 0 <= i <= count
        invariant expectedMm == ExpectedSum(w[..i]) && actualMm == ActualSum(w[..i])
      {
        RingViewAt(samples[..], next, count, i);
        var idx := Slot(next, count, i);
        SumsSnoc(w, i);
        expectedMm := expectedMm + samples[idx].expectedMm;
        actualMm := actualMm + samples[idx].actualMm;
        i := i + 1;
      }
      assert w[..count] == w;
    }

    /** Evaluates the jam evidence at `now` and says whether a hard or a
        soft jam is present. `hardJamThresholdMm` is accepted and ignored. */
    method IsJammed(ratioThreshold: real, hardJamThresholdMm: real, softJamTimeMs: i32,
                    hardJamTimeMs: i32, checkIntervalMs: i32, gracePeriodMs: u32, now: u32)
      returns (jammed: bool)
      requires Valid()
      modifies this`jam
      ensures Valid()
      ensures var v := Tracker.IsJammed(old(Model()), Jam.JamConfig(ratioThreshold, hardJamThresholdMm, softJamTimeMs,
                                                                     hardJamTimeMs, checkIntervalMs, gracePeriodMs), now);
        Model() == v.next && jammed == v.jammed
    {
      ghost var s0 := Model();
      ghost var cfg := Jam.JamConfig(ratioThreshold, hardJamThresholdMm, softJamTimeMs,
                                     hardJamTimeMs, checkIntervalMs, gracePeriodMs);
      if !initialized || checkIntervalMs <= 0 {
        return false;
      }

      var ratio, softTime, hardTime := ClampJamSettings(ratioThreshold, softJamTimeMs, hardJamTimeMs);

      if gracePeriodMs > 0 {
        var timeSinceUpdate := Sub32(now, lastExpectedUpdateMs);
        if timeSinceUpdate < gracePeriodMs {
          Jam.EvaluateInGrace(s0.jam, cfg, Tracker.Observe(s0, now));
          jam := jam.(hardJamAccumulatedMs := 0, hardJamConsecutiveChecks := 0, softJamAccumulatedMs := 0,
                      softJamActive := false, lastJamEvaluationMs := now);
          assert Model() == s0.(jam := jam);
          return false;
        }
      }

      var expectedDistance := GetExpectedDistance();
      var actualDistance := GetSensorDistance();
      ghost var o := Jam.Observation(initialized, lastExpectedUpdateMs, lastSensorPulseMs,
                                     expectedDistance, actualDistance, now);
      assert o == Tracker.Observe(s0, now);
      var hardJamTriggered, softJamTriggered;
      jam, hardJamTriggered, softJamTriggered :=
        EvaluateEvidence(jam, cfg, o, ratio, softTime, hardTime, checkIntervalMs as int, expectedDistance,
                         actualDistance, lastSensorPulseMs, now);
      jammed := hardJamTriggered || softJamTriggered;
      Tracker.IsJammedFromOutcome(s0, cfg, now, o, Jam.Outcome(jam, jammed, hardJamTriggered, softJamTriggered));
      assert Model() == s0.(jam := jam);
    }

    method GetExpectedDistance() returns (r: real)
      requires Valid()
      ensures r == Tracker.ExpectedDistance(Model())
    {
      if !initialized {
        return 0.0;
      }
      match trackingMode
      case Cumulative =>
        r := cumulative.expectedPositionMm - cumulative.baselinePositionMm;
      case Windowed =>
        var expectedMm, actualMm := GetWindowedDistances();
        r := expectedMm;
      case Ewma =>
        r := ewma.expectedMm;
    }

    method GetSensorDistance() returns (r: real)
      requires Valid()
      ensures r == Tracker.SensorDistance(Model())
    {
      if !initialized {
        return 0.0;
      }
      match trackingMode
      case Cumulative =>
        r := cumulative.sensorDistanceMm;
      case Windowed =>
        var expectedMm, actualMm := GetWindowedDistances();
        r := actualMm;
      case Ewma =>
        r := ewma.actualMm;
    }

    method GetDeficit() returns (r: real)
      requires Valid()
      ensures r == Tracker.Deficit(Model())
    {
      if !initialized {
        return 0.0;
      }
      var expectedDistance := GetExpectedDistance();
      var actualDistance := GetSensorDistance();
      var deficit := expectedDistance - actualDistance;
      r := if deficit > 0.0 then deficit else 0.0;
    }

    method GetFlowRatio() returns (r: real)
      requires Valid()
      ensures r == Tracker.FlowRatio(Model())
    {
      if !initialized {
        return 0.0;
      }
      var expectedDistance := GetExpectedDistance();
      if expectedDistance <= 0.0 {
        return 0.0;
      }
      var actualDistance := GetSensorDistance();
      var ratio := actualDistance / expectedDistance;
      if ratio > Tracker.MAX_FLOW_RATIO {
        ratio := Tracker.MAX_FLOW_RATIO;
      }
      if ratio < 0.0 {
        ratio := 0.0;
      }
      r := ratio;
    }

    function IsWithinGracePeriod(gracePeriodMs: u32, now: u32): (r: bool)
      reads this, samples
      requires Valid()
      ensures !initialized || gracePeriodMs == 0 ==> !r
      ensures initialized && gracePeriodMs > 0 ==>
        (r <==> (now - lastExpectedUpdateMs) % TWO_32 < gracePeriodMs)
    {
      Tracker.WithinGracePeriod(Model(), gracePeriodMs, now)
    }

    function GetHardJamProgressPercent(): (r: real)
      reads this
      ensures 0.0 <= r <= 100.0
      ensures jam.hardJamRequiredChecks == 0 ==> r == 0.0
      ensures r == 100.0 <==> 0 < jam.hardJamRequiredChecks <= jam.hardJamConsecutiveChecks
      ensures 0 < jam.hardJamRequiredChecks ==>
        r == if jam.hardJamConsecutiveChecks >= jam.hardJamRequiredChecks then 100.0
             else 100.0 * jam.hardJamConsecutiveChecks as real / jam.hardJamRequiredChecks as real
    {
      Jam.HardJamProgressPercent(jam)
    }

    function GetSoftJamProgressPercent(): (r: real)
      reads this
      ensures 0.0 <= r <= 100.0
      ensures jam.lastSoftJamTimeMs <= 0 ==> r == 0.0
      ensures r == 100.0 <==> 0 < jam.lastSoftJamTimeMs <= jam.softJamAccumulatedMs
      ensures 0 < jam.lastSoftJamTimeMs ==>
        r == if jam.softJamAccumulatedMs >= jam.lastSoftJamTimeMs then 100.0
             else 100.0 * jam.softJamAccumulatedMs as real / jam.lastSoftJamTimeMs as real
    {
      Jam.SoftJamProgressPercent(jam)
    }
  }

  /** The settings clamps of `isJammed`: the ratio threshold into (0, 1],
      non-positive jam times to their defaults. */
  method ClampJamSettings(ratioThreshold: real, softJamTimeMs: i32, hardJamTimeMs: i32)
    returns (ratio: real, softTime: int, hardTime: int)
    ensures ratio == Jam.EffectiveRatioThreshold(ratioThreshold)
    ensures softTime == Jam.EffectiveSoftJamTime(softJamTimeMs)
    ensures hardTime == Jam.EffectiveHardJamTime(hardJamTimeMs)
  {
    ratio := ratioThreshold;
    if ratio <= 0.0 {
      ratio := Jam.DEFAULT_RATIO_THRESHOLD;
    }
    if ratio > 1.0 {
      ratio := 1.0;
    }
    softTime := softJamTimeMs;
    if softTime <= 0 {
      softTime := Jam.DEFAULT_SOFT_JAM_TIME_MS;
    }
    hardTime := hardJamTimeMs;
    if hardTime <= 0 {
      hardTime := Jam.DEFAULT_HARD_JAM_TIME_MS;
    }
  }

  /** The part of `isJammed` after the grace check, on the accumulators `a`,
      the clamped settings and the windowed distances: it yields the new
      accumulators and the two triggers, exactly as `Jam.Evaluate` does for
      an active evaluation outside the grace period. */
  method EvaluateEvidence(a: Jam.Accumulators, ghost cfg: Jam.JamConfig, ghost o: Jam.Observation,
                          ratio: real, softTime: int, hardTime: int, check: int,
                          expectedDistance: real, actualDistance: real, lastSensorPulseMs: u32, now: u32)
    returns (next: Jam.Accumulators, hardJamTriggered: bool, softJamTriggered: bool)
    requires Jam.Active(cfg, o) && !Jam.InGrace(cfg, o)
    requires ratio == Jam.EffectiveRatioThreshold(cfg.ratioThreshold) && softTime == Jam.EffectiveSoftJamTime(cfg.softJamTimeMs)
    requires hardTime == Jam.EffectiveHardJamTime(cfg.hardJamTimeMs) && check == cfg.checkIntervalMs as int
    requires expectedDistance == o.expectedMm && actualDistance == o.actualMm
    requires lastSensorPulseMs == o.lastSensorPulseMs && now == o.now
    ensures Jam.Evaluate(a, cfg, o) ==
      Jam.Outcome(next, hardJamTriggered || softJamTriggered, hardJamTriggered, softJamTriggered)
  {
    var windowDeficit := expectedDistance - actualDistance;
    if windowDeficit < 0.0 {
      windowDeficit := 0.0;
    }
    var passingRatio := if expectedDistance > 0.0 then actualDistance / expectedDistance else 1.0;
    if passingRatio < 0.0 {
      passingRatio := 0.0;
    }

    var evaluationDeltaMs: u32 := if a.lastJamEvaluationMs == 0 then check else Sub32(now, a.lastJamEvaluationMs);
    if evaluationDeltaMs > check {
      evaluationDeltaMs := check;
    }

    Jam.CeilingCovers(hardTime, check);
    Jam.DivisionBounds(hardTime + check - 1, check);
    var requiredHardChecks := (hardTime + check - 1) / check;
    if requiredHardChecks == 0 {
      requiredHardChecks := 1;
    }

    var hardAccumulated, hardChecks;
    hardAccumulated, hardChecks, hardJamTriggered :=
      HardJamEvidence(a.hardJamAccumulatedMs, evaluationDeltaMs, hardTime, check, expectedDistance,
                      passingRatio, lastSensorPulseMs, now);
    var softActive, softAccumulated, softDeficit;
    softActive, softAccumulated, softDeficit, softJamTriggered :=
      SoftJamEvidence(a.softJamAccumulatedMs, a.softJamDeficitAccumMm, evaluationDeltaMs, softTime,
                      ratio, passingRatio, windowDeficit);

    Jam.EvaluateOutsideGrace(a, cfg, o, evaluationDeltaMs,
                             HardJamBeforeVeto(a.hardJamAccumulatedMs, evaluationDeltaMs, hardTime, check,
                                               expectedDistance, passingRatio, lastSensorPulseMs, now),
                             hardJamTriggered, hardAccumulated, hardChecks, softActive, softAccumulated,
                             softDeficit, softJamTriggered);
    next := Jam.Accumulators(windowDeficit, now, now, hardAccumulated, hardChecks, requiredHardChecks,
                             softAccumulated, softTime, softActive, softDeficit);
  }

  /** The hard-jam accumulator of `isJammed` before the veto on a window
      that expected too little movement. */
  function HardJamBeforeVeto(acc: u32, delta: u32, hardTime: int, check: int, expectedDistance: real,
                             passingRatio: real, lastSensorPulseMs: u32, now: u32): u32
    requires 0 < hardTime <= INT32_MAX
  {
    Jam.HardStep(acc, delta, hardTime, Jam.HardCondition(expectedDistance, passingRatio),
                 Jam.PulseRecent(lastSensorPulseMs, now, check))
  }

  /** The hard-jam block of `isJammed`: grow the accumulator while the sensor
      sees under a tenth of a sizeable expected movement, clear it on a recent
      pulse otherwise, and trigger once it reaches the hard-jam time, unless
      the window expected too little, which clears the evidence instead. */
  method HardJamEvidence(acc: u32, delta: u32, hardTime: int, check: int, expectedDistance: real,
                         passingRatio: real, lastSensorPulseMs: u32, now: u32)
    returns (hardAccumulated: u32, hardChecks: u32, triggered: bool)
    requires 0 < hardTime <= INT32_MAX && 0 < check <= INT32_MAX
    ensures var hard := HardJamBeforeVeto(acc, delta, hardTime, check, expectedDistance, passingRatio,
                                          lastSensorPulseMs, now);
      triggered == (hard >= hardTime && expectedDistance >= Jam.MIN_HARD_WINDOW_EXPECTED_MM) &&
      hardAccumulated == (if hard >= hardTime && !triggered then 0 else hard)
    ensures hardChecks == hardAccumulated / check
  {
    var hardCondition := expectedDistance >= Jam.MIN_HARD_WINDOW_EXPECTED_MM &&
                         passingRatio < Jam.HARD_PASS_RATIO_THRESHOLD;
    var timeSinceLastPulse := Sub32(now, lastSensorPulseMs);
    var receivedPulseRecent := timeSinceLastPulse <= check + Jam.PULSE_RECENT_SLACK_MS;

    hardAccumulated := acc;
    if hardCondition {
      hardAccumulated := Add32(hardAccumulated, delta);
      if hardAccumulated > hardTime {
        hardAccumulated := hardTime;
      }
    } else if hardAccumulated > 0 && receivedPulseRecent {
      hardAccumulated := 0;
    }

    triggered := false;
    if hardAccumulated >= hardTime {
      if expectedDistance >= Jam.MIN_HARD_WINDOW_EXPECTED_MM {
        triggered := true;
      } else {
        hardAccumulated := 0;
      }
    }
    Jam.DivisionBounds(hardAccumulated, check);
    hardChecks := hardAccumulated / check;
  }

  /** The soft-jam block of `isJammed`: while the passing ratio is under the
      threshold and the window lags by at least 0.25 mm, the soft accumulator
      grows (capped at the soft-jam time) and the deficit adds up; any other
      evaluation clears both. The soft jam needs the full time and 0.5 mm. */
  method SoftJamEvidence(acc: u32, deficitAccum: real, delta: u32, softTime: int, ratio: real,
                         passingRatio: real, windowDeficit: real)
    returns (active: bool, softAccumulated: u32, softDeficit: real, triggered: bool)
    requires 0 < softTime <= INT32_MAX
    ensures active == Jam.SoftCondition(passingRatio, ratio, windowDeficit)
    ensures softAccumulated == Jam.SoftStep(acc, delta, softTime, active) <= softTime
    ensures softDeficit == if active then deficitAccum + windowDeficit else 0.0
    ensures triggered == (softAccumulated >= softTime && softDeficit >= Jam.MIN_SOFT_DEFICIT_MM)
  {
    if passingRatio < ratio && windowDeficit >= Jam.MIN_SOFT_PER_CHECK_MM {
      active := true;
      softAccumulated := Add32(acc, delta);
      if softAccumulated > softTime {
        softAccumulated := softTime;
      }
      softDeficit := deficitAccum + windowDeficit;
    } else {
      active := false;
      softAccumulated := 0;
      softDeficit := 0.0;
    }
    triggered := softAccumulated >= softTime && softDeficit >= Jam.MIN_SOFT_DEFICIT_MM;
  }
}
