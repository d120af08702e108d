/** The rolling window of the tracker as a sequence of samples, oldest first.
    This is the abstract content of the circular `samples[]` array of
    src/FilamentMotionSensor.cpp; module Ring relates the two. */
module Window {
  import opened Time

  /** Capacity of the circular sample array. */
  const MAX_SAMPLES: nat := 20

  /** One windowed sample: when it was taken, the telemetry delta it carries
      and the sensor distance credited to it since. */
  datatype Sample = Sample(timestampMs: u32, expectedMm: real, actualMm: real)

  const EMPTY_SAMPLE: Sample := Sample(0, 0.0, 0.0)

  /** A window the circular array can hold. */
  type SampleWindow = w: seq<Sample> | |w| <= MAX_SAMPLES

  /** Sum of the expected distances, accumulated oldest first. */
  function ExpectedSum(w: seq<Sample>): real
  {
    if w == [] then 0.0 else ExpectedSum(w[..|w| - 1]) + w[|w| - 1].expectedMm
  }

  /** Sum of the sensor distances, accumulated oldest first. */
  function ActualSum(w: seq<Sample>): real
  {
    if w == [] then 0.0 else ActualSum(w[..|w| - 1]) + w[|w| - 1].actualMm
  }

  /** A sample is still inside the window when at most `windowMs` milliseconds
      have elapsed since it was taken (wrap-safe unsigned difference). */
  predicate InWindow(s: Sample, now: u32, windowMs: u32)
  {
    Elapsed(s.timestampMs, now) <= windowMs
  }

  /** The retention test as the source writes it: the timestamp compared
      against the unsigned difference `now - windowMs`. */
  predicate InWindowAsWritten(s: Sample, now: u32, windowMs: u32)
  {
    s.timestampMs >= Sub32(now, windowMs)
  }

  /** The samples that survive pruning at `now`, in their original order. */
  function Prune(w: seq<Sample>, now: u32, windowMs: u32): seq<Sample>
  {
    if w == [] then []
    else
      var last := w[|w| - 1];
      Prune(w[..|w| - 1], now, windowMs) + (if InWindow(last, now, windowMs) then [last] else [])
  }

  /** Appends a sample; a full window gives up its oldest entry. */
  function Push(w: seq<Sample>, s: Sample): (r: seq<Sample>)
    requires |w| <= MAX_SAMPLES
    ensures 1 <= |r| <= MAX_SAMPLES && r[|r| - 1] == s
    ensures r[..|r| - 1] == if |w| < MAX_SAMPLES then w else w[1..]
  {
    if |w| < MAX_SAMPLES then w + [s] else w[1..] + [s]
  }

  /** `addSample`: prune, then record the new sample stamped `now`. */
  function AddSample(w: seq<Sample>, now: u32, windowMs: u32, expectedMm: real, actualMm: real): (r: SampleWindow)
    requires |w| <= MAX_SAMPLES
  {
    PruneLength(w, now, windowMs);
    Push(Prune(w, now, windowMs), Sample(now, expectedMm, actualMm))
  }

  /** Adds `mm` of sensor movement to the most recent sample, if any. */
  function CreditNewest(w: seq<Sample>, mm: real): (r: seq<Sample>)
    ensures |r| == |w|
  {
    if w == [] then w
    else w[..|w| - 1] + [w[|w| - 1].(actualMm := w[|w| - 1].actualMm + mm)]
  }

  // ----- Pruning keeps exactly the samples inside the window -----

  lemma {:induction false} PruneLength(w: seq<Sample>, now: u32, windowMs: u32)
    ensures |Prune(w, now, windowMs)| <= |w|
  {
    if w != [] {
      PruneLength(w[..|w| - 1], now, windowMs);
    }
  }

  /** After pruning, every retained sample is inside the window, and every
      sample inside the window is retained. */
  lemma {:induction false} PruneKeepsExactlyWindow(w: seq<Sample>, now: u32, windowMs: u32)
    ensures forall s :: s in Prune(w, now, windowMs) ==> s in w && InWindow(s, now, windowMs)
    ensures forall s :: s in w && InWindow(s, now, windowMs) ==> s in Prune(w, now, windowMs)
  {
    if w != [] {
      var init := w[..|w| - 1];
      PruneKeepsExactlyWindow(init, now, windowMs);
      assert w == init + [w[|w| - 1]];
    }
  }

  /** Pruning a prefix one sample longer keeps that sample exactly when it is
      inside the window. */
  lemma PruneSnoc(w: seq<Sample>, i: int, now: u32, windowMs: u32, kept: seq<Sample>, keep: bool)
    requires 0 <= i < |w| && kept == Prune(w[..i], now, windowMs)
    requires keep == InWindow(w[i], now, windowMs)
    ensures Prune(w[..i + 1], now, windowMs) == if keep then kept + [w[i]] else kept
    ensures |Prune(w[..i + 1], now, windowMs)| == |kept| + if keep then 1 else 0
  {
    assert w[..i + 1][..i] == w[..i];
  }

  /** Pruning a window that lies entirely inside the window changes nothing. */
  lemma {:induction false} PruneFresh(w: seq<Sample>, now: u32, windowMs: u32)
    requires forall i | 0 <= i < |w| :: InWindow(w[i], now, windowMs)
    ensures Prune(w, now, windowMs) == w
  {
    if w != [] {
      PruneFresh(w[..|w| - 1], now, windowMs);
    }
  }

  /** `addSample` keeps the window bounded and local: at most MAX_SAMPLES
      entries, the newest one is the sample just recorded, and every entry
      lies inside the window at `now`. */
  lemma AddSampleIsLocal(w: seq<Sample>, now: u32, windowMs: u32, e: real, a: real)
    requires |w| <= MAX_SAMPLES
    ensures var r := AddSample(w, now, windowMs, e, a);
      1 <= |r| <= MAX_SAMPLES && r[|r| - 1] == Sample(now, e, a) &&
      forall s :: s in r ==> InWindow(s, now, windowMs)
  {
    PruneKeepsExactlyWindow(w, now, windowMs);
    PruneLength(w, now, windowMs);
    var p := Prune(w, now, windowMs);
    var r := AddSample(w, now, windowMs, e, a);
    forall s | s in r ensures InWindow(s, now, windowMs) {
      if s != Sample(now, e, a) {
        assert s in p;
      }
    }
  }

  // ----- Sums -----

  lemma {:induction false} ExpectedSumFront(w: seq<Sample>)
    requires w != []
    ensures ExpectedSum(w) == w[0].expectedMm + ExpectedSum(w[1..])
  {
    if |w| > 1 {
      ExpectedSumFront(w[..|w| - 1]);
      assert w[..|w| - 1][1..] == w[1..][..|w[1..]| - 1];
    }
  }

  lemma {:induction false} ActualSumFront(w: seq<Sample>)
    requires w != []
    ensures ActualSum(w) == w[0].actualMm + ActualSum(w[1..])
  {
    if |w| > 1 {
      ActualSumFront(w[..|w| - 1]);
      assert w[..|w| - 1][1..] == w[1..][..|w[1..]| - 1];
    }
  }

  /** Recording a sample adds its distances to the window sums; when the
      window is full the evicted oldest sample's distances leave them. */
  lemma PushSums(w: seq<Sample>, s: Sample)
    requires |w| <= MAX_SAMPLES
    ensures |w| < MAX_SAMPLES ==> ExpectedSum(Push(w, s)) == ExpectedSum(w) + s.expectedMm
    ensures |w| < MAX_SAMPLES ==> ActualSum(Push(w, s)) == ActualSum(w) + s.actualMm
    ensures |w| == MAX_SAMPLES ==> ExpectedSum(Push(w, s)) == ExpectedSum(w) - w[0].expectedMm + s.expectedMm
    ensures |w| == MAX_SAMPLES ==> ActualSum(Push(w, s)) == ActualSum(w) - w[0].actualMm + s.actualMm
  {
    if |w| == MAX_SAMPLES {
      ExpectedSumFront(w);
      ActualSumFront(w);
    }
  }

  /** A pulse credited to the newest sample raises the windowed sensor
      distance by exactly that amount and leaves the expected distance alone. */
  lemma CreditNewestSums(w: seq<Sample>, mm: real)
    ensures |CreditNewest(w, mm)| == |w|
    ensures ExpectedSum(CreditNewest(w, mm)) == ExpectedSum(w)
    ensures ActualSum(CreditNewest(w, mm)) == ActualSum(w) + (if w == [] then 0.0 else mm)
  {
    if w != [] {
      var r := CreditNewest(w, mm);
      assert r[..|r| - 1] == w[..|w| - 1];
    }
  }

  /** Summing one more sample of a prefix adds its distances. */
  lemma SumsSnoc(w: seq<Sample>, i: int)
    requires 0 <= i < |w|
    ensures ExpectedSum(w[..i + 1]) == ExpectedSum(w[..i]) + w[i].expectedMm
    ensures ActualSum(w[..i + 1]) == ActualSum(w[..i]) + w[i].actualMm
  {
    assert w[..i + 1][..i] == w[..i];
  }

  /** Samples with non-negative distances give non-negative window sums. */
  lemma {:induction false} SumsNonNegative(w: seq<Sample>)
    requires forall i | 0 <= i < |w| :: w[i].expectedMm >= 0.0 && w[i].actualMm >= 0.0
    ensures ExpectedSum(w) >= 0.0 && ActualSum(w) >= 0.0
  {
    if w != [] {
      SumsNonNegative(w[..|w| - 1]);
    }
  }

  // ----- The retention test as written -----

  /** Where the clock has neither wrapped since the sample was taken nor is
      still below `windowMs`, the written test and the elapsed-time test agree. */
  lemma RetentionAgreesWithoutWrap(s: Sample, now: u32, windowMs: u32)
    requires windowMs <= now && s.timestampMs <= now
    ensures InWindowAsWritten(s, now, windowMs) <==> InWindow(s, now, windowMs)
  {
  }

  /** One second after boot with the default 5000 ms window, the written test
      discards a sample taken that very millisecond: `now - windowMs` wraps to
      a value above every early timestamp. */
  lemma RetentionAsWrittenDropsFreshSample()
    ensures var s := Sample(1000, 10.0, 0.0);
      InWindow(s, 1000, 5000) && !InWindowAsWritten(s, 1000, 5000)
  {
  }

  /** Across the 32-bit wrap the written test errs the other way: once `now`
      reaches `windowMs` after the wrap, the cutoff `now - windowMs` is small
      again, and a sample stamped just before the wrap, 5100 ms old, passes
      it although it has left the 5000 ms window. */
  lemma RetentionAsWrittenKeepsStaleSampleAcrossWrap()
    ensures var s := Sample(TWO_32 - 100, 10.0, 0.0);
      !InWindow(s, 5000, 5000) && InWindowAsWritten(s, 5000, 5000)
  {
  }
}
