/** The jam decision of `FilamentMotionSensor::isJammed` as a pure state
    transformer: from the jam-evidence accumulators, the configuration passed
    by the caller and what the tracker observes now, to the new accumulators
    and the verdict. */
module Jam {
  import opened Time

  const DEFAULT_RATIO_THRESHOLD: real := 0.25
  const DEFAULT_SOFT_JAM_TIME_MS: int := 10000
  const DEFAULT_HARD_JAM_TIME_MS: int := 5000
  /** Below this passing ratio the window looks like a hard jam. */
  const HARD_PASS_RATIO_THRESHOLD: real := 0.10
  /** Least windowed expected distance for a hard jam to count. */
  const MIN_HARD_WINDOW_EXPECTED_MM: real := 1.0
  /** Least accumulated deficit for a soft jam to trigger. */
  const MIN_SOFT_DEFICIT_MM: real := 0.5
  /** Least windowed deficit for one evaluation to count towards a soft jam. */
  const MIN_SOFT_PER_CHECK_MM: real := 0.25
  /** Slack added to the check interval when asking whether a pulse is recent. */
  const PULSE_RECENT_SLACK_MS: int := 500

  /** The tracker's jam-evidence fields. */
  datatype Accumulators = Accumulators(
    lastWindowDeficitMm: real,
    lastDeficitTimestampMs: u32,
    lastJamEvaluationMs: u32,
    hardJamAccumulatedMs: u32,
    hardJamConsecutiveChecks: u32,
    hardJamRequiredChecks: u32,
    softJamAccumulatedMs: u32,
    lastSoftJamTimeMs: int,
    softJamActive: bool,
    softJamDeficitAccumMm: real)

  /** The accumulators as `reset` leaves them. */
  const CLEARED: Accumulators := Accumulators(0.0, 0, 0, 0, 0, 0, 0, 0, false, 0.0)

  /** The arguments of `isJammed`. `hardJamThresholdMm` is accepted and ignored,
      as in the source. */
  datatype JamConfig = JamConfig(
    ratioThreshold: real,
    hardJamThresholdMm: real,
    softJamTimeMs: i32,
    hardJamTimeMs: i32,
    checkIntervalMs: i32,
    gracePeriodMs: u32)

  /** What `isJammed` reads from the tracker: its state flags and timestamps,
      the windowed distances and the clock. */
  datatype Observation = Observation(
    initialized: bool,
    lastExpectedUpdateMs: u32,
    lastSensorPulseMs: u32,
    expectedMm: real,
    actualMm: real,
    now: u32)

  datatype Outcome = Outcome(next: Accumulators, jammed: bool, hardJamTriggered: bool, softJamTriggered: bool)

  // ----- Configuration clamps -----

  /** The soft-jam passing-ratio cutoff, clamped into (0, 1]. */
  function EffectiveRatioThreshold(t: real): (r: real)
    ensures 0.0 < r <= 1.0
    ensures 0.0 < t <= 1.0 ==> r == t
    ensures t <= 0.0 ==> r == DEFAULT_RATIO_THRESHOLD
    ensures t > 1.0 ==> r == 1.0
  {
    var t1 := if t <= 0.0 then DEFAULT_RATIO_THRESHOLD else t;
    if t1 > 1.0 then 1.0 else t1
  }

  /** The soft-jam duration; a non-positive setting falls back to 10 s. */
  function EffectiveSoftJamTime(t: i32): (r: int)
    ensures 0 < r <= INT32_MAX
    ensures t > 0 ==> r == t
    ensures t <= 0 ==> r == DEFAULT_SOFT_JAM_TIME_MS
  {
    if t <= 0 then DEFAULT_SOFT_JAM_TIME_MS else t
  }

  /** The hard-jam duration; a non-positive setting falls back to 5 s. */
  function EffectiveHardJamTime(t: i32): (r: int)
    ensures 0 < r <= INT32_MAX
    ensures t > 0 ==> r == t
    ensures t <= 0 ==> r == DEFAULT_HARD_JAM_TIME_MS
  {
    if t <= 0 then DEFAULT_HARD_JAM_TIME_MS else t
  }

  // ----- The per-evaluation quantities -----

  /** Evaluation happens only for an initialised tracker and a positive interval. */
  predicate Active(cfg: JamConfig, o: Observation)
  {
    o.initialized && cfg.checkIntervalMs > 0
  }

  /** Inside the grace period that follows the last anchor move. */
  predicate InGrace(cfg: JamConfig, o: Observation)
  {
    cfg.gracePeriodMs > 0 && Elapsed(o.lastExpectedUpdateMs, o.now) < cfg.gracePeriodMs
  }

  function WindowDeficit(expectedMm: real, actualMm: real): (r: real)
    ensures r >= 0.0 && r >= expectedMm - actualMm
    ensures r == 0.0 || r == expectedMm - actualMm
  {
    if expectedMm - actualMm < 0.0 then 0.0 else expectedMm - actualMm
  }

  /** Fraction of the expected distance the sensor saw; 1 when nothing was expected. */
  function PassingRatio(expectedMm: real, actualMm: real): (r: real)
    ensures r >= 0.0
    ensures expectedMm <= 0.0 ==> r == 1.0
    ensures expectedMm > 0.0 && actualMm >= 0.0 ==> r == actualMm / expectedMm
  {
    var p := if expectedMm > 0.0 then actualMm / expectedMm else 1.0;
    if p < 0.0 then 0.0 else p
  }

  /** Milliseconds credited by this evaluation: the whole interval on the first
      evaluation, otherwise the time since the last one, never more than the
      interval. */
  function EvaluationDelta(lastEvaluationMs: u32, now: u32, checkIntervalMs: int): (r: u32)
    requires 0 < checkIntervalMs <= INT32_MAX
    ensures r <= checkIntervalMs
    ensures lastEvaluationMs == 0 ==> r == checkIntervalMs
    ensures lastEvaluationMs != 0 && Elapsed(lastEvaluationMs, now) <= checkIntervalMs ==>
      r == Elapsed(lastEvaluationMs, now)
    ensures lastEvaluationMs != 0 && Elapsed(lastEvaluationMs, now) > checkIntervalMs ==>
      r == checkIntervalMs
  {
    var d: u32 := if lastEvaluationMs == 0 then checkIntervalMs else Elapsed(lastEvaluationMs, now);
    if d > checkIntervalMs then checkIntervalMs else d
  }

  /** Number of checks that span the hard-jam time, at least one. */
  function RequiredHardChecks(hardJamTimeMs: int, checkIntervalMs: int): (r: u32)
    requires 0 < hardJamTimeMs <= INT32_MAX && 0 < checkIntervalMs <= INT32_MAX
    ensures 1 <= r && hardJamTimeMs <= r * checkIntervalMs < hardJamTimeMs + checkIntervalMs
  {
    var q := (hardJamTimeMs + checkIntervalMs - 1) / checkIntervalMs;
    CeilingCovers(hardJamTimeMs, checkIntervalMs);
    DivisionBounds(hardJamTimeMs + checkIntervalMs - 1, checkIntervalMs);
    AtLeastOne(q)
  }

  /** The source's guard that raises a zero count to one; dead for positive
      arguments, as `RequiredHardChecks` shows. */
  function AtLeastOne(q: int): (r: int)
    ensures r >= 1 && r >= q
    ensures q >= 1 ==> r == q
  {
    if q < 1 then 1 else q
  }

  /** `(h + c - 1) / c` is the least multiple count of `c` that reaches `h`. */
  lemma CeilingCovers(h: int, c: int)
    requires 0 < h && 0 < c
    ensures var q := (h + c - 1) / c; 1 <= q && h <= c * q < h + c
  {
    var x := h + c - 1;
    var q := x / c;
    assert x == c * q + x % c;
    assert 0 <= x % c < c;
  }

  lemma {:induction false} MulAtLeast(c: int, q: int)
    requires c >= 1 && q >= 0
    ensures c * q >= q
    decreases c
  {
    if c > 1 {
      MulAtLeast(c - 1, q);
      assert c * q == (c - 1) * q + q;
    }
  }

  lemma MulSucc(n: int, c: int)
    ensures (n - 1) * c + c == n * c
  {
  }

  lemma DivisionBounds(x: int, c: int)
    requires 0 <= x && 0 < c
    ensures 0 <= x / c <= x
  {
    var q := x / c;
    assert x == c * q + x % c;
    MulAtLeast(c, q);
  }

  lemma PercentFull(c: real, q: real)
    requires q > 0.0 && c >= 0.0
    ensures (100.0 * c) / q >= 100.0 <==> c >= q
    ensures (100.0 * c) / q >= 0.0
  {
    var p := (100.0 * c) / q;
    assert p * q == 100.0 * c;
    if c >= q {
      assert p * q >= 100.0 * q;
    } else {
      assert p * q < 100.0 * q;
    }
  }

  predicate HardCondition(expectedMm: real, passingRatio: real)
  {
    expectedMm >= MIN_HARD_WINDOW_EXPECTED_MM && passingRatio < HARD_PASS_RATIO_THRESHOLD
  }

  predicate SoftCondition(passingRatio: real, ratioThreshold: real, deficitMm: real)
  {
    passingRatio < ratioThreshold && deficitMm >= MIN_SOFT_PER_CHECK_MM
  }

  /** A pulse arrived within the check interval plus 500 ms. */
  predicate PulseRecent(lastSensorPulseMs: u32, now: u32, checkIntervalMs: int)
  {
    Elapsed(lastSensorPulseMs, now) <= checkIntervalMs + PULSE_RECENT_SLACK_MS
  }

  function Min(a: int, b: int): int
  {
    if a < b then a else b
  }

  /** The hard-jam accumulator before the final veto: grows while the hard
      condition holds, capped at the hard-jam time; otherwise cleared only
      by a recent pulse. */
  function HardStep(acc: u32, delta: u32, hardJamTimeMs: int, condition: bool, pulseRecent: bool): u32
    requires 0 < hardJamTimeMs <= INT32_MAX
  {
    if condition then
      var sum := Add32(acc, delta);
      if sum > hardJamTimeMs then hardJamTimeMs else sum
    else if acc > 0 && pulseRecent then 0
    else acc
  }

  /** The soft-jam time accumulator: grows while the soft condition holds,
      capped at the soft-jam time; cleared on any evaluation where it fails. */
  function SoftStep(acc: u32, delta: u32, softJamTimeMs: int, condition: bool): u32
    requires 0 < softJamTimeMs <= INT32_MAX
  {
    if condition then
      var sum := Add32(acc, delta);
      if sum > softJamTimeMs then softJamTimeMs else sum
    else 0
  }

  /** One call of `isJammed`. */
  function Evaluate(a: Accumulators, cfg: JamConfig, o: Observation): (r: Outcome)
    ensures !Active(cfg, o) ==> r == Outcome(a, false, false, false)
    ensures Active(cfg, o) && InGrace(cfg, o) ==>
      !r.jammed && r.next.hardJamAccumulatedMs == 0 && r.next.softJamAccumulatedMs == 0
    ensures r.jammed <==> r.hardJamTriggered || r.softJamTriggered
  {
    if !o.initialized || cfg.checkIntervalMs <= 0 then Outcome(a, false, false, false)
    else
      var check := cfg.checkIntervalMs as int;
      var ratioThreshold := EffectiveRatioThreshold(cfg.ratioThreshold);
      var softTime := EffectiveSoftJamTime(cfg.softJamTimeMs);
      var hardTime := EffectiveHardJamTime(cfg.hardJamTimeMs);
      if InGrace(cfg, o) then
        Outcome(a.(hardJamAccumulatedMs := 0, hardJamConsecutiveChecks := 0,
                   softJamAccumulatedMs := 0, softJamActive := false,
                   lastJamEvaluationMs := o.now),
                false, false, false)
      else
        var deficit := WindowDeficit(o.expectedMm, o.actualMm);
        var passing := PassingRatio(o.expectedMm, o.actualMm);
        var delta := EvaluationDelta(a.lastJamEvaluationMs, o.now, check);
        var hard := HardStep(a.hardJamAccumulatedMs, delta, hardTime,
                             HardCondition(o.expectedMm, passing),
                             PulseRecent(o.lastSensorPulseMs, o.now, check));
        var hardTriggered := hard >= hardTime && o.expectedMm >= MIN_HARD_WINDOW_EXPECTED_MM;
        var hardKept: u32 := if hard >= hardTime && !hardTriggered then 0 else hard;
        var softCond := SoftCondition(passing, ratioThreshold, deficit);
        var soft := SoftStep(a.softJamAccumulatedMs, delta, softTime, softCond);
        var deficitTotal := if softCond then a.softJamDeficitAccumMm + deficit else 0.0;
        var softTriggered := soft >= softTime && deficitTotal >= MIN_SOFT_DEFICIT_MM;
        DivisionBounds(hardKept, check);
        Outcome(Accumulators(deficit, o.now, o.now, hardKept, hardKept / check,
                             RequiredHardChecks(hardTime, check), soft, softTime,
                             softCond, deficitTotal),
                hardTriggered || softTriggered, hardTriggered, softTriggered)
  }

  /** Evaluate inside the grace period, spelled out as a whole outcome, verdict
      included. The grace clause of `EvaluationBookkeeping` states the same
      accumulator change among the facts about every evaluation; this form
      lets `isJammed`'s grace branch in the class conclude in one step, without
      the verifier unfolding `Evaluate` inside the heap method. */
  lemma EvaluateInGrace(a: Accumulators, cfg: JamConfig, o: Observation)
    requires Active(cfg, o) && InGrace(cfg, o)
    ensures Evaluate(a, cfg, o) ==
      Outcome(a.(hardJamAccumulatedMs := 0, hardJamConsecutiveChecks := 0, softJamAccumulatedMs := 0,
                 softJamActive := false, lastJamEvaluationMs := o.now), false, false, false)
  {
  }

  /** Evaluate outside the grace period, from its intermediate quantities:
      `hard` before the final veto, `hardKept` after it. */
  lemma EvaluateOutsideGrace(a: Accumulators, cfg: JamConfig, o: Observation, delta: u32, hard: u32,
                             hardTriggered: bool, hardKept: u32, hardChecks: u32, softCond: bool, soft: u32,
                             deficitTotal: real, softTriggered: bool)
    requires Active(cfg, o) && !InGrace(cfg, o)
    requires var check := cfg.checkIntervalMs as int;
      delta == EvaluationDelta(a.lastJamEvaluationMs, o.now, check) &&
      hard == HardStep(a.hardJamAccumulatedMs, delta, EffectiveHardJamTime(cfg.hardJamTimeMs),
                       HardCondition(o.expectedMm, PassingRatio(o.expectedMm, o.actualMm)),
                       PulseRecent(o.lastSensorPulseMs, o.now, check))
    requires hardTriggered == (hard >= EffectiveHardJamTime(cfg.hardJamTimeMs) && o.expectedMm >= MIN_HARD_WINDOW_EXPECTED_MM)
    requires hardKept == if hard >= EffectiveHardJamTime(cfg.hardJamTimeMs) && !hardTriggered then 0 else hard
    requires hardChecks == hardKept / cfg.checkIntervalMs as int
    requires softCond == SoftCondition(PassingRatio(o.expectedMm, o.actualMm), EffectiveRatioThreshold(cfg.ratioThreshold),
                                       WindowDeficit(o.expectedMm, o.actualMm))
    requires soft == SoftStep(a.softJamAccumulatedMs, delta, EffectiveSoftJamTime(cfg.softJamTimeMs), softCond)
    requires deficitTotal == if softCond then a.softJamDeficitAccumMm + WindowDeficit(o.expectedMm, o.actualMm) else 0.0
    requires softTriggered == (soft >= EffectiveSoftJamTime(cfg.softJamTimeMs) && deficitTotal >= MIN_SOFT_DEFICIT_MM)
    ensures Evaluate(a, cfg, o) ==
      Outcome(Accumulators(WindowDeficit(o.expectedMm, o.actualMm), o.now, o.now, hardKept, hardChecks,
                           RequiredHardChecks(EffectiveHardJamTime(cfg.hardJamTimeMs), cfg.checkIntervalMs as int),
                           soft, EffectiveSoftJamTime(cfg.softJamTimeMs), softCond, deficitTotal),
              hardTriggered || softTriggered, hardTriggered, softTriggered)
  {
  }

  // ----- Read-side progress -----

  /** Hard-jam progress for the UI, in percent of the required checks. */
  function HardJamProgressPercent(a: Accumulators): (r: real)
    ensures 0.0 <= r <= 100.0
    ensures a.hardJamRequiredChecks == 0 ==> r == 0.0
    ensures r == 100.0 <==> 0 < a.hardJamRequiredChecks <= a.hardJamConsecutiveChecks
    ensures 0 < a.hardJamRequiredChecks ==>
      r == if a.hardJamConsecutiveChecks >= a.hardJamRequiredChecks then 100.0
           else 100.0 * a.hardJamConsecutiveChecks as real / a.hardJamRequiredChecks as real
  {
    if a.hardJamRequiredChecks == 0 then 0.0
    else
      var percent := (100.0 * a.hardJamConsecutiveChecks as real) / (a.hardJamRequiredChecks as real);
      PercentFull(a.hardJamConsecutiveChecks as real, a.hardJamRequiredChecks as real);
      if percent > 100.0 then 100.0 else percent
  }

  /** Soft-jam progress for the UI, in percent of the last soft-jam time. */
  function SoftJamProgressPercent(a: Accumulators): (r: real)
    ensures 0.0 <= r <= 100.0
    ensures a.lastSoftJamTimeMs <= 0 ==> r == 0.0
    ensures r == 100.0 <==> 0 < a.lastSoftJamTimeMs <= a.softJamAccumulatedMs
    ensures 0 < a.lastSoftJamTimeMs ==>
      r == if a.softJamAccumulatedMs >= a.lastSoftJamTimeMs then 100.0
           else 100.0 * a.softJamAccumulatedMs as real / a.lastSoftJamTimeMs as real
  {
    if a.lastSoftJamTimeMs <= 0 then 0.0
    else
      var percent := (100.0 * a.softJamAccumulatedMs as real) / (a.lastSoftJamTimeMs as real);
      PercentFull(a.softJamAccumulatedMs as real, a.lastSoftJamTimeMs as real);
      if percent > 100.0 then 100.0 else percent
  }

  // ----- Properties of one evaluation -----

  /** The accumulators stay within the range where the source's unsigned
      additions cannot wrap: every time the source stores is an `int`. */
  predicate Sane(a: Accumulators)
  {
    a.hardJamAccumulatedMs <= INT32_MAX && a.softJamAccumulatedMs <= INT32_MAX &&
    0 <= a.lastSoftJamTimeMs <= INT32_MAX
  }

  function Max(a: int, b: int): int
  {
    if a < b then b else a
  }

  /** `isJammed` keeps the accumulators sane, and neither accumulator rises
      above both its old value and its configured time. */
  lemma EvaluateKeepsSane(a: Accumulators, cfg: JamConfig, o: Observation)
    requires Sane(a)
    ensures var r := Evaluate(a, cfg, o);
      Sane(r.next) &&
      (Active(cfg, o) ==>
        r.next.hardJamAccumulatedMs <= Max(a.hardJamAccumulatedMs, EffectiveHardJamTime(cfg.hardJamTimeMs)) &&
        r.next.softJamAccumulatedMs <= EffectiveSoftJamTime(cfg.softJamTimeMs))
  {
  }

  /** The hard-jam accumulator of one evaluation outside the grace period:
      it grows by the evaluation delta, at most the check interval and exactly
      the check interval on the first evaluation, capped at the hard-jam time;
      it drops only when a recent pulse clears it, when the final veto empties
      a full accumulator because less than 1 mm was expected, or when the cap
      has shrunk; the hard jam triggers exactly when the accumulator is full
      and at least 1 mm was expected. */
  lemma HardAccumulation(a: Accumulators, cfg: JamConfig, o: Observation)
    requires Sane(a) && Active(cfg, o) && !InGrace(cfg, o)
    ensures var r := Evaluate(a, cfg, o);
      var check := cfg.checkIntervalMs as int;
      var hardTime := EffectiveHardJamTime(cfg.hardJamTimeMs);
      var delta := EvaluationDelta(a.lastJamEvaluationMs, o.now, check);
      var cond := HardCondition(o.expectedMm, PassingRatio(o.expectedMm, o.actualMm));
      var recent := PulseRecent(o.lastSensorPulseMs, o.now, check);
      var before := a.hardJamAccumulatedMs;
      var after := r.next.hardJamAccumulatedMs;
      (a.lastJamEvaluationMs == 0 ==> delta == check) &&
      after <= before + check &&
      (cond ==> after == Min(before + delta, hardTime)) &&
      (!cond && recent ==> after == 0) &&
      (!cond && !recent && o.expectedMm >= MIN_HARD_WINDOW_EXPECTED_MM ==> after == before) &&
      (after < before ==>
        (!cond && recent) ||
        (!cond && before >= hardTime && o.expectedMm < MIN_HARD_WINDOW_EXPECTED_MM && after == 0) ||
        (cond && before > hardTime && after == hardTime)) &&
      (r.hardJamTriggered <==> after >= hardTime && o.expectedMm >= MIN_HARD_WINDOW_EXPECTED_MM) &&
      r.next.hardJamConsecutiveChecks == after / check &&
      r.next.hardJamRequiredChecks == RequiredHardChecks(hardTime, check)
  {
  }

  /** The soft-jam accumulators of one evaluation outside the grace period:
      while the soft condition holds, the time grows by the evaluation delta
      (capped at the soft-jam time) and the deficit total by the window
      deficit; on any evaluation where it fails both return to zero; the soft
      jam triggers exactly when the time is full and the total deficit is at
      least 0.5 mm. */
  lemma SoftAccumulation(a: Accumulators, cfg: JamConfig, o: Observation)
    requires Sane(a) && Active(cfg, o) && !InGrace(cfg, o)
    ensures var r := Evaluate(a, cfg, o);
      var check := cfg.checkIntervalMs as int;
      var softTime := EffectiveSoftJamTime(cfg.softJamTimeMs);
      var delta := EvaluationDelta(a.lastJamEvaluationMs, o.now, check);
      var deficit := WindowDeficit(o.expectedMm, o.actualMm);
      var cond := SoftCondition(PassingRatio(o.expectedMm, o.actualMm),
                                EffectiveRatioThreshold(cfg.ratioThreshold), deficit);
      (cond ==>
        r.next.softJamAccumulatedMs == Min(a.softJamAccumulatedMs + delta, softTime) &&
        r.next.softJamDeficitAccumMm == a.softJamDeficitAccumMm + deficit &&
        r.next.softJamActive) &&
      (!cond ==>
        r.next.softJamAccumulatedMs == 0 && r.next.softJamDeficitAccumMm == 0.0 &&
        !r.next.softJamActive && !r.softJamTriggered) &&
      r.next.lastSoftJamTimeMs == softTime &&
      (r.softJamTriggered <==>
        r.next.softJamAccumulatedMs >= softTime && r.next.softJamDeficitAccumMm >= MIN_SOFT_DEFICIT_MM)
  {
  }

  /** Every evaluation outside the grace period records the window deficit
      and stamps the clock; inside it only the evaluation time moves. */
  lemma EvaluationBookkeeping(a: Accumulators, cfg: JamConfig, o: Observation)
    requires Active(cfg, o)
    ensures var r := Evaluate(a, cfg, o);
      r.next.lastJamEvaluationMs == o.now &&
      (InGrace(cfg, o) ==>
        r.next == a.(hardJamAccumulatedMs := 0, hardJamConsecutiveChecks := 0,
                     softJamAccumulatedMs := 0, softJamActive := false,
                     lastJamEvaluationMs := o.now)) &&
      (!InGrace(cfg, o) ==>
        r.next.lastWindowDeficitMm == WindowDeficit(o.expectedMm, o.actualMm) &&
        r.next.lastDeficitTimestampMs == o.now)
  {
  }

  // ----- Sustained conditions -----

  /** The outcome of evaluating at each observation in turn. */
  function EvaluateAll(a: Accumulators, cfg: JamConfig, obs: seq<Observation>): Outcome
  {
    if obs == [] then Outcome(a, false, false, false)
    else Evaluate(EvaluateAll(a, cfg, obs[..|obs| - 1]).next, cfg, obs[|obs| - 1])
  }

  /** The evaluations come at least one check interval apart, and the first
      one either is the first ever or comes a full interval after the last. */
  ghost predicate Paced(a: Accumulators, cfg: JamConfig, obs: seq<Observation>)
  {
    (|obs| > 0 ==> a.lastJamEvaluationMs == 0 ||
                   Elapsed(a.lastJamEvaluationMs, obs[0].now) >= cfg.checkIntervalMs) &&
    forall i | 0 < i < |obs| :: Elapsed(obs[i - 1].now, obs[i].now) >= cfg.checkIntervalMs
  }

  /** A hard stall: active, past the grace period, at least 1 mm expected and
      less than a tenth of it seen. */
  ghost predicate HardStall(cfg: JamConfig, o: Observation)
  {
    Active(cfg, o) && !InGrace(cfg, o) && HardCondition(o.expectedMm, PassingRatio(o.expectedMm, o.actualMm))
  }

  lemma PacedPrefix(a: Accumulators, cfg: JamConfig, obs: seq<Observation>)
    requires Paced(a, cfg, obs) && |obs| > 0
    ensures Paced(a, cfg, obs[..|obs| - 1])
  {
  }

  /** Each paced evaluation credits exactly one check interval. */
  lemma PacedDelta(a: Accumulators, cfg: JamConfig, obs: seq<Observation>)
    requires Paced(a, cfg, obs) && |obs| > 0 && cfg.checkIntervalMs > 0
    requires forall i | 0 <= i < |obs| :: Active(cfg, obs[i])
    ensures EvaluationDelta(EvaluateAll(a, cfg, obs[..|obs| - 1]).next.lastJamEvaluationMs,
                            obs[|obs| - 1].now, cfg.checkIntervalMs) == cfg.checkIntervalMs
  {
    if |obs| > 1 {
      var prev := obs[..|obs| - 1];
      EvaluationBookkeeping(EvaluateAll(a, cfg, prev[..|prev| - 1]).next, cfg, prev[|prev| - 1]);
    }
  }

  /** One paced evaluation during a hard stall adds a full check interval. */
  lemma HardStallStep(p: Accumulators, cfg: JamConfig, o: Observation)
    requires Sane(p) && p.hardJamAccumulatedMs <= EffectiveHardJamTime(cfg.hardJamTimeMs)
    requires HardStall(cfg, o)
    requires EvaluationDelta(p.lastJamEvaluationMs, o.now, cfg.checkIntervalMs) == cfg.checkIntervalMs
    ensures var r := Evaluate(p, cfg, o);
      var hardTime := EffectiveHardJamTime(cfg.hardJamTimeMs);
      Sane(r.next) &&
      r.next.hardJamAccumulatedMs == Min(p.hardJamAccumulatedMs + cfg.checkIntervalMs, hardTime) &&
      (r.hardJamTriggered <==> p.hardJamAccumulatedMs + cfg.checkIntervalMs >= hardTime)
  {
    HardAccumulation(p, cfg, o);
    EvaluateKeepsSane(p, cfg, o);
  }

  /** A hard stall sustained over `n` paced evaluations accumulates `n`
      check intervals, up to the hard-jam time, and the last evaluation
      reports a hard jam exactly when that reaches the hard-jam time. */
  lemma {:induction false} SustainedHardStall(a: Accumulators, cfg: JamConfig, obs: seq<Observation>)
    requires Sane(a) && a.hardJamAccumulatedMs <= EffectiveHardJamTime(cfg.hardJamTimeMs)
    requires Paced(a, cfg, obs)
    requires forall i | 0 <= i < |obs| :: HardStall(cfg, obs[i])
    ensures var r := EvaluateAll(a, cfg, obs);
      var hardTime := EffectiveHardJamTime(cfg.hardJamTimeMs);
      Sane(r.next) &&
      r.next.hardJamAccumulatedMs == Min(a.hardJamAccumulatedMs + |obs| * cfg.checkIntervalMs, hardTime) &&
      (|obs| > 0 ==>
        (r.hardJamTriggered <==> a.hardJamAccumulatedMs + |obs| * cfg.checkIntervalMs >= hardTime))
  {
    if obs != [] {
      var n := |obs|;
      var c := cfg.checkIntervalMs as int;
      var prev := obs[..n - 1];
      PacedPrefix(a, cfg, obs);
      SustainedHardStall(a, cfg, prev);
      var p := EvaluateAll(a, cfg, prev).next;
      assert Active(cfg, obs[0]);
      PacedDelta(a, cfg, obs);
      HardStallStep(p, cfg, obs[n - 1]);
      MulSucc(n, c);
    }
  }

  /** Sum of the window deficits seen at the observations. */
  function DeficitTotal(obs: seq<Observation>): real
  {
    if obs == [] then 0.0
    else DeficitTotal(obs[..|obs| - 1]) + WindowDeficit(obs[|obs| - 1].expectedMm, obs[|obs| - 1].actualMm)
  }

  /** A soft stall: active, past the grace period, and the soft condition
      holds (too little passing and at least 0.25 mm behind in the window). */
  ghost predicate SoftStall(cfg: JamConfig, o: Observation)
  {
    Active(cfg, o) && !InGrace(cfg, o) &&
    SoftCondition(PassingRatio(o.expectedMm, o.actualMm), EffectiveRatioThreshold(cfg.ratioThreshold),
                  WindowDeficit(o.expectedMm, o.actualMm))
  }

  /** One paced evaluation during a soft stall adds a full check interval and
      this evaluation's deficit. */
  lemma SoftStallStep(p: Accumulators, cfg: JamConfig, o: Observation)
    requires Sane(p) && p.softJamAccumulatedMs <= EffectiveSoftJamTime(cfg.softJamTimeMs)
    requires SoftStall(cfg, o)
    requires EvaluationDelta(p.lastJamEvaluationMs, o.now, cfg.checkIntervalMs) == cfg.checkIntervalMs
    ensures var r := Evaluate(p, cfg, o);
      var softTime := EffectiveSoftJamTime(cfg.softJamTimeMs);
      Sane(r.next) &&
      r.next.softJamAccumulatedMs == Min(p.softJamAccumulatedMs + cfg.checkIntervalMs, softTime) &&
      r.next.softJamDeficitAccumMm == p.softJamDeficitAccumMm + WindowDeficit(o.expectedMm, o.actualMm) &&
      (r.softJamTriggered <==>
        p.softJamAccumulatedMs + cfg.checkIntervalMs >= softTime &&
        r.next.softJamDeficitAccumMm >= MIN_SOFT_DEFICIT_MM)
  {
    SoftAccumulation(p, cfg, o);
    EvaluateKeepsSane(p, cfg, o);
  }

  /** Every soft-stall evaluation is at least 0.25 mm behind. */
  lemma {:induction false} DeficitFloor(cfg: JamConfig, obs: seq<Observation>)
    requires forall i | 0 <= i < |obs| :: SoftStall(cfg, obs[i])
    ensures DeficitTotal(obs) >= MIN_SOFT_PER_CHECK_MM * (|obs| as real)
  {
    if obs != [] {
      var n := |obs|;
      DeficitFloor(cfg, obs[..n - 1]);
      assert SoftStall(cfg, obs[n - 1]);
      assert MIN_SOFT_PER_CHECK_MM * ((n - 1) as real) + MIN_SOFT_PER_CHECK_MM == MIN_SOFT_PER_CHECK_MM * (n as real);
    }
  }

  /** A soft stall sustained over `n` paced evaluations accumulates `n` check
      intervals, up to the soft-jam time, and adds up the deficits (at least
      0.25 mm each, `DeficitFloor`); the last evaluation reports a soft jam exactly
      when the time is full and the deficit total reaches 0.5 mm. */
  lemma {:induction false} SustainedSoftStall(a: Accumulators, cfg: JamConfig, obs: seq<Observation>)
    requires Sane(a) && a.softJamAccumulatedMs <= EffectiveSoftJamTime(cfg.softJamTimeMs)
    requires Paced(a, cfg, obs)
    requires forall i | 0 <= i < |obs| :: SoftStall(cfg, obs[i])
    ensures var r := EvaluateAll(a, cfg, obs);
      var softTime := EffectiveSoftJamTime(cfg.softJamTimeMs);
      Sane(r.next) &&
      r.next.softJamAccumulatedMs == Min(a.softJamAccumulatedMs + |obs| * cfg.checkIntervalMs, softTime) &&
      r.next.softJamDeficitAccumMm == a.softJamDeficitAccumMm + DeficitTotal(obs) &&
      (|obs| > 0 ==>
        (r.softJamTriggered <==>
          a.softJamAccumulatedMs + |obs| * cfg.checkIntervalMs >= softTime &&
          a.softJamDeficitAccumMm + DeficitTotal(obs) >= MIN_SOFT_DEFICIT_MM))
  {
    if obs != [] {
      var n := |obs|;
      var c := cfg.checkIntervalMs as int;
      var prev := obs[..n - 1];
      PacedPrefix(a, cfg, obs);
      SustainedSoftStall(a, cfg, prev);
      var p := EvaluateAll(a, cfg, prev).next;
      assert Active(cfg, obs[0]);
      PacedDelta(a, cfg, obs);
      var o := obs[n - 1];
      SoftStallStep(p, cfg, o);
      var r := Evaluate(p, cfg, o);
      assert EvaluateAll(a, cfg, obs) == r;
      var dp := DeficitTotal(prev);
      var dl := WindowDeficit(o.expectedMm, o.actualMm);
      assert DeficitTotal(obs) == dp + dl;
      assert p.softJamDeficitAccumMm == a.softJamDeficitAccumMm + dp;
      assert r.next.softJamDeficitAccumMm == p.softJamDeficitAccumMm + dl;
      MulSucc(n, c);
    }
  }

  // ----- Progress at the trigger -----

  lemma MulStrict(c: int, d: int)
    requires c > 0 && d != 0
    ensures c * d >= c || c * d <= -c
  {
    if d > 0 {
      MulAtLeast(d, c);
    } else {
      MulAtLeast(-d, c);
      assert c * d == -((-d) * c);
    }
  }

  lemma DivUnique(x: int, c: int, q: int)
    requires c > 0 && c * q <= x < c * q + c
    ensures x / c == q
  {
    var q' := x / c;
    assert x == c * q' + x % c;
    assert c * q' - c * q == c * (q' - q);
    if q' != q {
      MulStrict(c, q' - q);
    }
  }

  lemma DivMonotone(x: int, y: int, c: int)
    requires 0 <= x <= y && c > 0
    ensures x / c <= y / c
  {
    var qx := x / c;
    var qy := y / c;
    assert x == c * qx + x % c;
    assert y == c * qy + y % c;
    assert c * qx - c * qy == c * (qx - qy);
    if qx > qy {
      MulStrict(c, qx - qy);
    }
  }

  /** The arithmetic behind HardProgressFullAtTrigger: a full accumulator
      counts every required check when the interval divides the time. */
  lemma HardProgressFullWhenDivides(next: Accumulators, h: int, c: int)
    requires 0 < h <= INT32_MAX && 0 < c && h % c == 0
    requires next.hardJamAccumulatedMs >= h
    requires next.hardJamConsecutiveChecks == next.hardJamAccumulatedMs / c
    requires next.hardJamRequiredChecks == RequiredHardChecks(h, c)
    ensures HardJamProgressPercent(next) == 100.0
  {
    var m := h / c;
    assert h == c * m + h % c;
    DivUnique(h + c - 1, c, m);
    DivMonotone(h, next.hardJamAccumulatedMs as int, c);
  }

  /** When the check interval divides the hard-jam time, the hard-jam
      progress shown for the UI is 100% whenever a hard jam triggers. */
  lemma HardProgressFullAtTrigger(a: Accumulators, cfg: JamConfig, o: Observation)
    requires Sane(a) && Active(cfg, o) && !InGrace(cfg, o)
    requires EffectiveHardJamTime(cfg.hardJamTimeMs) % cfg.checkIntervalMs == 0
    requires Evaluate(a, cfg, o).hardJamTriggered
    ensures HardJamProgressPercent(Evaluate(a, cfg, o).next) == 100.0
  {
    HardAccumulation(a, cfg, o);
    HardProgressFullWhenDivides(Evaluate(a, cfg, o).next, EffectiveHardJamTime(cfg.hardJamTimeMs),
                                cfg.checkIntervalMs as int);
  }

  /** Otherwise it can lag: with a 5000 ms hard-jam time checked every
      3000 ms, two checks are required but a full accumulator counts only
      one, so a triggered hard jam shows 50%. */
  lemma HardProgressLagsTrigger()
    ensures var a := CLEARED.(lastJamEvaluationMs := 1000, hardJamAccumulatedMs := 3000);
      var cfg := JamConfig(0.25, 0.0, 0, 5000, 3000, 0);
      var o := Observation(true, 0, 0, 10.0, 0.0, 4000);
      var r := Evaluate(a, cfg, o);
      r.hardJamTriggered && r.jammed && HardJamProgressPercent(r.next) == 50.0
  {
    var a := CLEARED.(lastJamEvaluationMs := 1000, hardJamAccumulatedMs := 3000);
    var cfg := JamConfig(0.25, 0.0, 0, 5000, 3000, 0);
    var o := Observation(true, 0, 0, 10.0, 0.0, 4000);
    HardAccumulation(a, cfg, o);
    assert EvaluationDelta(1000, 4000, 3000) == 3000;
    var r := Evaluate(a, cfg, o);
    assert r.next.hardJamAccumulatedMs == 5000;
    assert r.next.hardJamRequiredChecks == 2;
    assert r.next.hardJamConsecutiveChecks == 1;
  }

  /** The soft-jam progress is 100% whenever a soft jam triggers. */
  lemma SoftProgressFullAtTrigger(a: Accumulators, cfg: JamConfig, o: Observation)
    requires Sane(a) && Active(cfg, o) && !InGrace(cfg, o)
    requires Evaluate(a, cfg, o).softJamTriggered
    ensures SoftJamProgressPercent(Evaluate(a, cfg, o).next) == 100.0
  {
    SoftAccumulation(a, cfg, o);
  }
}
