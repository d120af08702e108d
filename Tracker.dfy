/** The tracker of src/FilamentMotionSensor.cpp as a pure state machine: one
    function per public operation, from the state before the call (and the
    clock reading `now`) to the state after it. The class in module Sensor
    is proved to follow these functions step for step. */
module Tracker {
  import opened Time
  import opened Window
  import Jam

  /** The three ways of comparing expected and sensed movement. */
  datatype TrackingMode = Cumulative | Windowed | Ewma

  const DEFAULT_WINDOW_MS: u32 := 5000
  const DEFAULT_EWMA_ALPHA: real := 0.3
  const MIN_EWMA_ALPHA: real := 0.01
  /** Telemetry deltas at or below this are treated as no movement. */
  const MOVE_EPSILON_MM: real := 0.01
  /** A telemetry pause longer than this restarts the grace period. */
  const TELEMETRY_GAP_MS: int := 2000
  const MAX_FLOW_RATIO: real := 1.5

  /** The cumulative-mode fields: the telemetry position measuring starts
      from, the latest telemetry position, and the sensed distance since. */
  datatype CumulativeState = CumulativeState(
    baselinePositionMm: real,
    expectedPositionMm: real,
    sensorDistanceMm: real)

  const CUMULATIVE_CLEARED := CumulativeState(0.0, 0.0, 0.0)

  /** The EWMA-mode fields: the two moving averages and the positions their
      last samples were measured from. */
  datatype EwmaState = EwmaState(
    expectedMm: real,
    actualMm: real,
    lastExpectedMm: real,
    lastActualMm: real)

  const EWMA_CLEARED := EwmaState(0.0, 0.0, 0.0, 0.0)

  /** Every field the operations read or write, grouped as `reset` groups
      them; `window` is the live content of the circular sample array,
      oldest first. */
  datatype State = State(
    mode: TrackingMode,
    windowSizeMs: u32,
    ewmaAlpha: real,
    initialized: bool,
    firstPulseReceived: bool,
    lastExpectedUpdateMs: u32,
    lastSensorPulseMs: u32,
    cumulative: CumulativeState,
    window: SampleWindow,
    ewma: EwmaState,
    jam: Jam.Accumulators)

  // ----- Construction and configuration -----

  /** The state `reset` leaves at `now`, for the given configuration. */
  function Cleared(mode: TrackingMode, windowSizeMs: u32, ewmaAlpha: real, now: u32): State
  {
    State(mode, windowSizeMs, ewmaAlpha, false, false, now, now, CUMULATIVE_CLEARED, [],
          EWMA_CLEARED, Jam.CLEARED)
  }

  /** `reset`: everything but the configuration goes back to its start value;
      both timestamps become `now`. */
  function Reset(s: State, now: u32): (r: State)
    ensures r.mode == s.mode && r.windowSizeMs == s.windowSizeMs && r.ewmaAlpha == s.ewmaAlpha
    ensures !r.initialized && !r.firstPulseReceived && r.window == [] && r.jam == Jam.CLEARED
    ensures r.lastExpectedUpdateMs == now && r.lastSensorPulseMs == now
  {
    Cleared(s.mode, s.windowSizeMs, s.ewmaAlpha, now)
  }

  /** The constructor: windowed mode, a 5 s window, alpha 0.3, then `reset`. */
  function Constructed(now: u32): (r: State)
    ensures r.mode == Windowed && r.windowSizeMs == DEFAULT_WINDOW_MS && r.ewmaAlpha == DEFAULT_EWMA_ALPHA
    ensures !r.initialized && r.window == []
  {
    Cleared(Windowed, DEFAULT_WINDOW_MS, DEFAULT_EWMA_ALPHA, now)
  }

  /** The EWMA weight, clamped into [0.01, 1]. */
  function ClampAlpha(alpha: real): (r: real)
    ensures MIN_EWMA_ALPHA <= r <= 1.0
    ensures MIN_EWMA_ALPHA <= alpha <= 1.0 ==> r == alpha
    ensures alpha < MIN_EWMA_ALPHA ==> r == MIN_EWMA_ALPHA
    ensures alpha > 1.0 ==> r == 1.0
  {
    var a := if alpha < MIN_EWMA_ALPHA then MIN_EWMA_ALPHA else alpha;
    if a > 1.0 then 1.0 else a
  }

  /** `setTrackingMode`: only the configuration changes. */
  function SetTrackingMode(s: State, mode: TrackingMode, windowMs: u32, alpha: real): (r: State)
    ensures r.mode == mode && r.windowSizeMs == windowMs && MIN_EWMA_ALPHA <= r.ewmaAlpha <= 1.0
    ensures MIN_EWMA_ALPHA <= alpha <= 1.0 ==> r.ewmaAlpha == alpha
    ensures r.ewmaAlpha == ClampAlpha(alpha)
    ensures r == s.(mode := r.mode, windowSizeMs := r.windowSizeMs, ewmaAlpha := r.ewmaAlpha)
  {
    s.(mode := mode, windowSizeMs := windowMs, ewmaAlpha := ClampAlpha(alpha))
  }

  /** One exponentially weighted moving-average step. */
  function EwmaStep(alpha: real, sample: real, previous: real): real
  {
    alpha * sample + (1.0 - alpha) * previous
  }

  /** With a weight in [0, 1], the average lies between the previous average
      and the new sample. */
  lemma EwmaBetween(alpha: real, sample: real, previous: real)
    requires 0.0 <= alpha <= 1.0
    ensures sample <= previous ==> sample <= EwmaStep(alpha, sample, previous) <= previous
    ensures previous <= sample ==> previous <= EwmaStep(alpha, sample, previous) <= sample
  {
    var r := EwmaStep(alpha, sample, previous);
    assert r - previous == alpha * (sample - previous);
    assert r - sample == (1.0 - alpha) * (previous - sample);
    var gap := if sample <= previous then previous - sample else sample - previous;
    ProductNonNegative(alpha, gap);
    ProductNonNegative(1.0 - alpha, gap);
  }

  lemma ProductNonNegative(x: real, y: real)
    requires x >= 0.0 && y >= 0.0
    ensures x * y >= 0.0
  {
  }

  // ----- Telemetry -----

  /** The first telemetry value after a reset: it becomes the baseline of
      every mode; nothing is measured yet. */
  function Initialise(s: State, totalMm: real, now: u32): State
  {
    s.(initialized := true, lastExpectedUpdateMs := now,
       cumulative := CumulativeState(totalMm, totalMm, 0.0),
       ewma := EWMA_CLEARED.(lastExpectedMm := totalMm))
  }

  /** A value below the last one is a retraction: every mode resynchronises
      to it and the grace period restarts. */
  function Resync(s: State, totalMm: real, now: u32): State
  {
    s.(lastExpectedUpdateMs := now,
       cumulative := s.cumulative.(baselinePositionMm := totalMm, sensorDistanceMm := 0.0),
       window := [], ewma := EWMA_CLEARED.(lastExpectedMm := totalMm))
  }

  /** Growth resuming after more than 2000 ms without an anchor move
      restarts the grace period. */
  function GapAnchor(s: State, delta: real, now: u32): State
  {
    if Elapsed(s.lastExpectedUpdateMs, now) > TELEMETRY_GAP_MS && delta > MOVE_EPSILON_MM
    then s.(lastExpectedUpdateMs := now) else s
  }

  /** Once the first pulse has arrived, growth above 0.01 mm is recorded:
      as a new sample in windowed mode, as an EWMA step in EWMA mode. */
  function RecordGrowth(s: State, totalMm: real, delta: real, now: u32): State
  {
    if s.firstPulseReceived && s.mode == Windowed && delta > MOVE_EPSILON_MM then
      s.(window := AddSample(s.window, now, s.windowSizeMs, delta, 0.0))
    else if s.firstPulseReceived && s.mode == Ewma && delta > MOVE_EPSILON_MM then
      s.(ewma := s.ewma.(expectedMm := EwmaStep(s.ewmaAlpha, totalMm - s.ewma.lastExpectedMm, s.ewma.expectedMm),
                         lastExpectedMm := totalMm))
    else s
  }

  /** `updateExpectedPosition(totalMm)` at `now`. */
  function UpdateExpectedPosition(s: State, totalMm: real, now: u32): (r: State)
    ensures r.initialized && r.cumulative.expectedPositionMm == totalMm
    ensures r.mode == s.mode && r.windowSizeMs == s.windowSizeMs && r.ewmaAlpha == s.ewmaAlpha
    ensures r.firstPulseReceived == s.firstPulseReceived && r.jam == s.jam
    ensures r.lastSensorPulseMs == s.lastSensorPulseMs
  {
    if !s.initialized then Initialise(s, totalMm, now)
    else
      var s1 := if totalMm < s.cumulative.expectedPositionMm then Resync(s, totalMm, now) else s;
      var delta := totalMm - s1.cumulative.expectedPositionMm;
      var s3 := RecordGrowth(GapAnchor(s1, delta, now), totalMm, delta, now);
      s3.(cumulative := s3.cumulative.(expectedPositionMm := totalMm))
  }

  /** `UpdateExpectedPosition` of an initialised state, step by step. */
  lemma UpdateExpectedPositionSteps(s: State, totalMm: real, now: u32, s1: State, delta: real, s3: State)
    requires s.initialized
    requires s1 == if totalMm < s.cumulative.expectedPositionMm then Resync(s, totalMm, now) else s
    requires delta == totalMm - s1.cumulative.expectedPositionMm
    requires s3 == RecordGrowth(GapAnchor(s1, delta, now), totalMm, delta, now)
    ensures UpdateExpectedPosition(s, totalMm, now) == s3.(cumulative := s3.cumulative.(expectedPositionMm := totalMm))
  {
  }

  // ----- Sensor pulses -----

  /** The first accepted pulse restarts every mode from the current position. */
  function FirstPulse(s: State): State
  {
    s.(firstPulseReceived := true,
       cumulative := s.cumulative.(baselinePositionMm := s.cumulative.expectedPositionMm, sensorDistanceMm := 0.0),
       window := [], ewma := EWMA_CLEARED.(lastExpectedMm := s.cumulative.expectedPositionMm))
  }

  /** The pulse's length credited in every mode's terms. */
  function CreditPulse(s: State, mm: real): State
  {
    var s3 := s.(cumulative := s.cumulative.(sensorDistanceMm := s.cumulative.sensorDistanceMm + mm));
    var s4 := if s3.mode == Windowed then s3.(window := CreditNewest(s3.window, mm)) else s3;
    if s4.mode == Ewma then s4.(ewma := s4.ewma.(actualMm := EwmaStep(s4.ewmaAlpha, mm, s4.ewma.actualMm))) else s4
  }

  /** CreditPulse mode by mode. */
  lemma CreditPulseByMode(s: State, mm: real)
    ensures var s3 := s.(cumulative := s.cumulative.(sensorDistanceMm := s.cumulative.sensorDistanceMm + mm));
      CreditPulse(s, mm) ==
        if s.mode == Windowed then s3.(window := CreditNewest(s.window, mm))
        else if s.mode == Ewma then s3.(ewma := s.ewma.(actualMm := EwmaStep(s.ewmaAlpha, mm, s.ewma.actualMm)))
        else s3
  {
  }

  /** `addSensorPulse(mm)` at `now`. */
  function AddSensorPulse(s: State, mm: real, now: u32): (r: State)
    ensures mm <= 0.0 || !s.initialized ==> r == s
    ensures mm > 0.0 && s.initialized ==> r.firstPulseReceived && r.lastSensorPulseMs == now
  {
    if mm <= 0.0 || !s.initialized then s
    else
      var s1 := s.(lastSensorPulseMs := now);
      CreditPulse(if !s1.firstPulseReceived then FirstPulse(s1) else s1, mm)
  }

  // ----- Read-side queries -----

  /** `getExpectedDistance`: how far the printer moved filament, measured the
      way the mode prescribes; 0 before the first telemetry value. */
  function ExpectedDistance(s: State): real
  {
    if !s.initialized then 0.0
    else match s.mode
      case Cumulative => s.cumulative.expectedPositionMm - s.cumulative.baselinePositionMm
      case Windowed => ExpectedSum(s.window)
      case Ewma => s.ewma.expectedMm
  }

  /** `getSensorDistance`: how far the sensor saw filament move, likewise. */
  function SensorDistance(s: State): real
  {
    if !s.initialized then 0.0
    else match s.mode
      case Cumulative => s.cumulative.sensorDistanceMm
      case Windowed => ActualSum(s.window)
      case Ewma => s.ewma.actualMm
  }

  /** `getDeficit`: how far the sensor lags the expectation, never negative. */
  function Deficit(s: State): (r: real)
    ensures r >= 0.0 && r >= ExpectedDistance(s) - SensorDistance(s)
    ensures r == 0.0 || r == ExpectedDistance(s) - SensorDistance(s)
    ensures !s.initialized ==> r == 0.0
  {
    if !s.initialized then 0.0
    else
      var d := ExpectedDistance(s) - SensorDistance(s);
      if d > 0.0 then d else 0.0
  }

  /** `getFlowRatio`: sensed over expected movement, clamped into [0, 1.5];
      0 when nothing is expected. */
  function FlowRatio(s: State): (r: real)
    ensures 0.0 <= r <= MAX_FLOW_RATIO
    ensures !s.initialized || ExpectedDistance(s) <= 0.0 ==> r == 0.0
    ensures s.initialized && ExpectedDistance(s) > 0.0 &&
            0.0 <= SensorDistance(s) / ExpectedDistance(s) <= MAX_FLOW_RATIO ==>
            r == SensorDistance(s) / ExpectedDistance(s)
    ensures s.initialized && ExpectedDistance(s) > 0.0 &&
            SensorDistance(s) / ExpectedDistance(s) > MAX_FLOW_RATIO ==>
            r == MAX_FLOW_RATIO
    ensures s.initialized && ExpectedDistance(s) > 0.0 &&
            SensorDistance(s) / ExpectedDistance(s) < 0.0 ==>
            r == 0.0
  {
    if !s.initialized then 0.0
    else
      var e := ExpectedDistance(s);
      if e <= 0.0 then 0.0
      else
        var ratio := SensorDistance(s) / e;
        var capped := if ratio > MAX_FLOW_RATIO then MAX_FLOW_RATIO else ratio;
        if capped < 0.0 then 0.0 else capped
  }

  /** `isWithinGracePeriod(g)`: fewer than `g` ms since the grace anchor. */
  function WithinGracePeriod(s: State, gracePeriodMs: u32, now: u32): (r: bool)
    ensures !s.initialized || gracePeriodMs == 0 ==> !r
    ensures s.initialized && gracePeriodMs > 0 ==>
      (r <==> (now - s.lastExpectedUpdateMs) % TWO_32 < gracePeriodMs)
  {
    s.initialized && gracePeriodMs > 0 && Elapsed(s.lastExpectedUpdateMs, now) < gracePeriodMs
  }

  /** What `isJammed` reads from the tracker at `now`. */
  function Observe(s: State, now: u32): Jam.Observation
  {
    Jam.Observation(s.initialized, s.lastExpectedUpdateMs, s.lastSensorPulseMs,
                    ExpectedDistance(s), SensorDistance(s), now)
  }

  datatype Verdict = Verdict(next: State, jammed: bool)

  /** `isJammed(cfg)` at `now`: only the jam accumulators change. */
  function IsJammed(s: State, cfg: Jam.JamConfig, now: u32): (r: Verdict)
    ensures r.next == s.(jam := r.next.jam)
    ensures !s.initialized || cfg.checkIntervalMs <= 0 ==> r.next == s && !r.jammed
  {
    var out := Jam.Evaluate(s.jam, cfg, Observe(s, now));
    Verdict(s.(jam := out.next), out.jammed)
  }

  /** `isJammed` from the outcome of the evaluation it performs. */
  lemma IsJammedFromOutcome(s: State, cfg: Jam.JamConfig, now: u32, o: Jam.Observation, out: Jam.Outcome)
    requires o == Observe(s, now) && out == Jam.Evaluate(s.jam, cfg, o)
    ensures IsJammed(s, cfg, now) == Verdict(s.(jam := out.next), out.jammed)
  {
  }

  // ----- The health invariant -----

  /** What every reachable state satisfies: the accumulators cannot wrap,
      the weight is clamped, and no distance the modes sum can be negative. */
  predicate Healthy(s: State)
  {
    Jam.Sane(s.jam) &&
    MIN_EWMA_ALPHA <= s.ewmaAlpha <= 1.0 &&
    s.cumulative.sensorDistanceMm >= 0.0 && s.ewma.expectedMm >= 0.0 && s.ewma.actualMm >= 0.0 &&
    (s.initialized ==> s.cumulative.baselinePositionMm <= s.cumulative.expectedPositionMm &&
                       s.ewma.lastExpectedMm <= s.cumulative.expectedPositionMm) &&
    forall i | 0 <= i < |s.window| :: s.window[i].expectedMm >= 0.0 && s.window[i].actualMm >= 0.0
  }

  /** In a healthy state neither distance is negative, so the deficit never
      exceeds the expected distance. */
  lemma DistancesNonNegative(s: State)
    requires Healthy(s)
    ensures ExpectedDistance(s) >= 0.0 && SensorDistance(s) >= 0.0
    ensures Deficit(s) <= ExpectedDistance(s)
  {
    SumsNonNegative(s.window);
  }

  lemma ConstructedHealthy(now: u32)
    ensures Healthy(Constructed(now))
  {
  }

  lemma ResetHealthy(s: State, now: u32)
    requires MIN_EWMA_ALPHA <= s.ewmaAlpha <= 1.0
    ensures Healthy(Reset(s, now))
  {
  }

  lemma SetTrackingModeHealthy(s: State, mode: TrackingMode, windowMs: u32, alpha: real)
    requires Healthy(s)
    ensures Healthy(SetTrackingMode(s, mode, windowMs, alpha))
  {
  }

  lemma {:induction false} PruneNonNegative(w: seq<Sample>, now: u32, windowMs: u32)
    requires forall i | 0 <= i < |w| :: w[i].expectedMm >= 0.0 && w[i].actualMm >= 0.0
    ensures var p := Prune(w, now, windowMs);
      forall i | 0 <= i < |p| :: p[i].expectedMm >= 0.0 && p[i].actualMm >= 0.0
  {
    PruneKeepsExactlyWindow(w, now, windowMs);
    var p := Prune(w, now, windowMs);
    forall i | 0 <= i < |p| ensures p[i].expectedMm >= 0.0 && p[i].actualMm >= 0.0 {
      assert p[i] in p;
    }
  }

  /** Recording growth, then moving the expected position to `totalMm`,
      keeps the state healthy when the baselines lie at or below `totalMm`. */
  lemma RecordGrowthHealthy(s: State, totalMm: real, delta: real, now: u32)
    requires Healthy(s) && s.initialized
    requires s.cumulative.baselinePositionMm <= totalMm && s.ewma.lastExpectedMm <= totalMm
    ensures var r := RecordGrowth(s, totalMm, delta, now);
      Healthy(r.(cumulative := r.cumulative.(expectedPositionMm := totalMm)))
  {
    if s.firstPulseReceived && s.mode == Windowed && delta > MOVE_EPSILON_MM {
      AddSampleNonNegative(s.window, now, s.windowSizeMs, delta);
    } else if s.firstPulseReceived && s.mode == Ewma && delta > MOVE_EPSILON_MM {
      EwmaBetween(s.ewmaAlpha, totalMm - s.ewma.lastExpectedMm, s.ewma.expectedMm);
    }
  }

  /** Recording a positive growth keeps every sample's distances non-negative. */
  lemma AddSampleNonNegative(w: SampleWindow, now: u32, windowMs: u32, delta: real)
    requires forall i | 0 <= i < |w| :: w[i].expectedMm >= 0.0 && w[i].actualMm >= 0.0
    requires delta > 0.0
    ensures var r := AddSample(w, now, windowMs, delta, 0.0);
      forall i | 0 <= i < |r| :: r[i].expectedMm >= 0.0 && r[i].actualMm >= 0.0
  {
    PruneNonNegative(w, now, windowMs);
    PruneLength(w, now, windowMs);
  }

  lemma UpdateExpectedPositionHealthy(s: State, totalMm: real, now: u32)
    requires Healthy(s)
    ensures Healthy(UpdateExpectedPosition(s, totalMm, now))
  {
    if s.initialized {
      var s1 := if totalMm < s.cumulative.expectedPositionMm then Resync(s, totalMm, now) else s;
      assert Healthy(s1) && s1.initialized;
      assert s1.cumulative.baselinePositionMm <= totalMm && s1.ewma.lastExpectedMm <= totalMm;
      var delta := totalMm - s1.cumulative.expectedPositionMm;
      var s2 := GapAnchor(s1, delta, now);
      RecordGrowthHealthy(s2, totalMm, delta, now);
      UpdateExpectedPositionSteps(s, totalMm, now, s1, delta, RecordGrowth(s2, totalMm, delta, now));
    }
  }

  lemma AddSensorPulseHealthy(s: State, mm: real, now: u32)
    requires Healthy(s)
    ensures Healthy(AddSensorPulse(s, mm, now))
  {
    if mm > 0.0 && s.initialized {
      EwmaBetween(s.ewmaAlpha, mm, if s.firstPulseReceived then s.ewma.actualMm else 0.0);
    }
  }

  lemma IsJammedHealthy(s: State, cfg: Jam.JamConfig, now: u32)
    requires Healthy(s)
    ensures Healthy(IsJammed(s, cfg, now).next)
  {
    Jam.EvaluateKeepsSane(s.jam, cfg, Observe(s, now));
  }

  // ----- What the operations promise -----

  /** After `reset` nothing is measured: every distance, the deficit, the
      flow ratio and both progress figures are 0, no grace period is
      running and no jam is reported, whatever the configuration. */
  lemma ResetReadsZero(s: State, now: u32, later: u32, gracePeriodMs: u32, cfg: Jam.JamConfig)
    ensures var r := Reset(s, now);
      ExpectedDistance(r) == 0.0 && SensorDistance(r) == 0.0 &&
      Deficit(r) == 0.0 && FlowRatio(r) == 0.0 &&
      !WithinGracePeriod(r, gracePeriodMs, later) &&
      Jam.HardJamProgressPercent(r.jam) == 0.0 && Jam.SoftJamProgressPercent(r.jam) == 0.0 &&
      !IsJammed(r, cfg, later).jammed
  {
  }

  /** The first telemetry value after a reset only sets the baselines and
      restarts the grace period; it records no sample, so an empty window
      still reads zero in every mode. */
  lemma FirstTelemetryOnlyInitialises(s: State, totalMm: real, now: u32)
    requires !s.initialized
    ensures var r := UpdateExpectedPosition(s, totalMm, now);
      r.window == s.window && r.cumulative.baselinePositionMm == totalMm && r.cumulative.sensorDistanceMm == 0.0 &&
      r.lastExpectedUpdateMs == now && r.ewma.lastExpectedMm == totalMm &&
      (s.window == [] ==> ExpectedDistance(r) == 0.0 && SensorDistance(r) == 0.0)
  {
  }

  /** Later telemetry: a retraction empties the window, resets the sensed
      distance and restarts the grace period; otherwise a sample is recorded
      only when the first pulse has arrived and the position grew by more
      than 0.01 mm, the new sample carries that growth, and the window then
      holds only samples of the last `windowSizeMs` ms; the grace anchor
      moves only on a retraction or when growth resumes after more than
      2000 ms without an anchor move. */
  lemma TelemetryEffects(s: State, totalMm: real, now: u32)
    requires s.initialized
    ensures var r := UpdateExpectedPosition(s, totalMm, now);
      var retraction := totalMm < s.cumulative.expectedPositionMm;
      var delta := totalMm - s.cumulative.expectedPositionMm;
      var records := !retraction && s.firstPulseReceived && s.mode == Windowed && delta > MOVE_EPSILON_MM;
      (retraction ==>
        r.window == [] && r.lastExpectedUpdateMs == now && r.cumulative.baselinePositionMm == totalMm &&
        r.cumulative.sensorDistanceMm == 0.0) &&
      (!retraction && !records ==> r.window == s.window) &&
      (records ==>
        r.window == AddSample(s.window, now, s.windowSizeMs, delta, 0.0) &&
        r.window[|r.window| - 1] == Sample(now, delta, 0.0) &&
        forall x :: x in r.window ==> InWindow(x, now, s.windowSizeMs)) &&
      (!retraction && Elapsed(s.lastExpectedUpdateMs, now) > TELEMETRY_GAP_MS && delta > MOVE_EPSILON_MM ==>
        r.lastExpectedUpdateMs == now) &&
      (r.lastExpectedUpdateMs != s.lastExpectedUpdateMs ==>
        r.lastExpectedUpdateMs == now &&
        (retraction || (Elapsed(s.lastExpectedUpdateMs, now) > TELEMETRY_GAP_MS && delta > MOVE_EPSILON_MM)))
  {
    if !(totalMm < s.cumulative.expectedPositionMm) && s.firstPulseReceived && s.mode == Windowed &&
       totalMm - s.cumulative.expectedPositionMm > MOVE_EPSILON_MM {
      AddSampleIsLocal(s.window, now, s.windowSizeMs, totalMm - s.cumulative.expectedPositionMm, 0.0);
    }
  }

  /** The first accepted pulse discards everything measured before it (the
      priming and purge moves): the baseline moves to the current position,
      the window is emptied and only this pulse counts as sensed. Later
      pulses add their length to the sensed distance and, in windowed mode,
      to the newest sample, leaving the expected distance unchanged. In EWMA
      mode every pulse also takes one step of the sensed average. Besides the
      pulse flag and time, nothing outside the distances changes. */
  lemma PulseEffects(s: State, mm: real, now: u32)
    requires s.initialized && mm > 0.0
    ensures var r := AddSensorPulse(s, mm, now);
      r.(cumulative := s.cumulative, window := s.window, ewma := s.ewma,
         firstPulseReceived := s.firstPulseReceived, lastSensorPulseMs := s.lastSensorPulseMs) == s &&
      (!s.firstPulseReceived ==>
        r.window == [] && r.cumulative.baselinePositionMm == s.cumulative.expectedPositionMm && r.cumulative.sensorDistanceMm == mm &&
        (s.mode != Ewma ==> r.ewma == EWMA_CLEARED.(lastExpectedMm := s.cumulative.expectedPositionMm)) &&
        (s.mode == Ewma ==> r.ewma == EWMA_CLEARED.(lastExpectedMm := s.cumulative.expectedPositionMm,
                                                    actualMm := EwmaStep(s.ewmaAlpha, mm, 0.0)))) &&
      (s.firstPulseReceived ==>
        r.cumulative.sensorDistanceMm == s.cumulative.sensorDistanceMm + mm &&
        r.cumulative.expectedPositionMm == s.cumulative.expectedPositionMm && r.cumulative.baselinePositionMm == s.cumulative.baselinePositionMm &&
        (s.mode != Windowed ==> r.window == s.window) &&
        (s.mode != Ewma ==> r.ewma == s.ewma) &&
        (s.mode == Ewma ==> r.ewma == s.ewma.(actualMm := EwmaStep(s.ewmaAlpha, mm, s.ewma.actualMm))) &&
        (s.mode == Windowed ==>
          |r.window| == |s.window| &&
          (s.window != [] ==>
            r.window[..|s.window| - 1] == s.window[..|s.window| - 1] &&
            r.window[|s.window| - 1].timestampMs == s.window[|s.window| - 1].timestampMs &&
            r.window[|s.window| - 1].expectedMm == s.window[|s.window| - 1].expectedMm &&
            r.window[|s.window| - 1].actualMm == s.window[|s.window| - 1].actualMm + mm) &&
          ExpectedSum(r.window) == ExpectedSum(s.window) &&
          ActualSum(r.window) == ActualSum(s.window) + (if s.window == [] then 0.0 else mm)))
  {
    CreditNewestSums(s.window, mm);
  }

  /** The jam decision uses the same grace test as `isWithinGracePeriod`, and
      inside the grace period it reports no jam and empties both time
      accumulators. */
  lemma GraceSuppressesJam(s: State, cfg: Jam.JamConfig, now: u32)
    requires s.initialized && cfg.checkIntervalMs > 0
    ensures Jam.InGrace(cfg, Observe(s, now)) <==> WithinGracePeriod(s, cfg.gracePeriodMs, now)
    ensures WithinGracePeriod(s, cfg.gracePeriodMs, now) ==>
      var v := IsJammed(s, cfg, now);
      !v.jammed && v.next.jam.hardJamAccumulatedMs == 0 && v.next.jam.softJamAccumulatedMs == 0 &&
      Jam.SoftJamProgressPercent(v.next.jam) == 0.0
  {
  }

  // ----- Sequences of calls -----

  /** A public call of the tracker. */
  datatype Call =
    | ResetCall
    | ModeCall(mode: TrackingMode, windowMs: u32, alpha: real)
    | TelemetryCall(totalMm: real)
    | PulseCall(mmPerPulse: real)
    | JamCall(cfg: Jam.JamConfig)

  /** A call and the clock reading it sees. */
  datatype Timed = Timed(call: Call, now: u32)

  function Step(s: State, t: Timed): State
  {
    match t.call
    case ResetCall => Reset(s, t.now)
    case ModeCall(mode, windowMs, alpha) => SetTrackingMode(s, mode, windowMs, alpha)
    case TelemetryCall(totalMm) => UpdateExpectedPosition(s, totalMm, t.now)
    case PulseCall(mm) => AddSensorPulse(s, mm, t.now)
    case JamCall(cfg) => IsJammed(s, cfg, t.now).next
  }

  /** The state after the calls, in order. */
  function Run(s: State, calls: seq<Timed>): State
  {
    if calls == [] then s else Step(Run(s, calls[..|calls| - 1]), calls[|calls| - 1])
  }

  /** Every call keeps the tracker healthy. */
  lemma StepHealthy(s: State, t: Timed)
    requires Healthy(s)
    ensures Healthy(Step(s, t))
  {
    match t.call
    case ResetCall => ResetHealthy(s, t.now);
    case ModeCall(mode, windowMs, alpha) => SetTrackingModeHealthy(s, mode, windowMs, alpha);
    case TelemetryCall(totalMm) => UpdateExpectedPositionHealthy(s, totalMm, t.now);
    case PulseCall(mm) => AddSensorPulseHealthy(s, mm, t.now);
    case JamCall(cfg) => IsJammedHealthy(s, cfg, t.now);
  }

  /** From construction on, whatever the calls, the tracker stays healthy, so
      its distances are never negative. */
  lemma {:induction false} RunHealthy(now: u32, calls: seq<Timed>)
    ensures Healthy(Run(Constructed(now), calls))
    ensures ExpectedDistance(Run(Constructed(now), calls)) >= 0.0
    ensures SensorDistance(Run(Constructed(now), calls)) >= 0.0
  {
    if calls == [] {
      ConstructedHealthy(now);
    } else {
      RunHealthy(now, calls[..|calls| - 1]);
      StepHealthy(Run(Constructed(now), calls[..|calls| - 1]), calls[|calls| - 1]);
    }
    DistancesNonNegative(Run(Constructed(now), calls));
  }

  /** Until the first telemetry value arrives, pulses, jam checks and mode
      changes leave the tracker uninitialised: every distance, the deficit
      and the flow ratio stay 0 and no jam is reported. */
  lemma {:induction false} SilentUntilTelemetry(s: State, calls: seq<Timed>)
    requires !s.initialized
    requires forall i | 0 <= i < |calls| :: !calls[i].call.TelemetryCall?
    ensures var r := Run(s, calls);
      !r.initialized && ExpectedDistance(r) == 0.0 && SensorDistance(r) == 0.0 &&
      Deficit(r) == 0.0 && FlowRatio(r) == 0.0
  {
    if calls != [] {
      SilentUntilTelemetry(s, calls[..|calls| - 1]);
      assert !calls[|calls| - 1].call.TelemetryCall?;
    }
  }
}
