/** Index arithmetic of the circular `samples[]` array. The live samples sit
    at the `count` slots that end just before `next`, oldest first; the
    source computes every slot as `(next - count + i + MAX_SAMPLES) % MAX_SAMPLES`. */
module Ring {
  import opened Time
  import opened Window

  /** Physical slot of the `i`-th oldest live sample. The source computes it
      as `(next - count + i + MAX_SAMPLES) % MAX_SAMPLES` (SlotIsMod); the
      argument lies in [0, 2 * MAX_SAMPLES), so one subtraction wraps it. */
  function Slot(next: int, count: int, i: int): (r: int)
    requires 0 <= next < MAX_SAMPLES && 0 <= i <= count <= MAX_SAMPLES
    ensures 0 <= r < MAX_SAMPLES
  {
    var x := next - count + i + MAX_SAMPLES;
    if x < MAX_SAMPLES then x else x - MAX_SAMPLES
  }

  lemma SlotIsMod(next: int, count: int, i: int)
    requires 0 <= next < MAX_SAMPLES && 0 <= i <= count <= MAX_SAMPLES
    ensures Slot(next, count, i) == (next - count + i + MAX_SAMPLES) % MAX_SAMPLES
  {
  }

  /** The slot just before `next`, where the newest live sample sits; the
      source writes it `(next - 1 + MAX_SAMPLES) % MAX_SAMPLES`. */
  function Prev(next: int): (r: int)
    requires 0 <= next < MAX_SAMPLES
    ensures 0 <= r < MAX_SAMPLES
  {
    if next == 0 then MAX_SAMPLES - 1 else next - 1
  }

  lemma PrevIsMod(next: int)
    requires 0 <= next < MAX_SAMPLES
    ensures Prev(next) == (next - 1 + MAX_SAMPLES) % MAX_SAMPLES
  {
  }

  /** The live samples of the array, oldest first: the `count - 1` samples
      ending before the newest one, then the newest one. */
  function RingView(a: seq<Sample>, next: int, count: int): (w: seq<Sample>)
    requires |a| == MAX_SAMPLES && 0 <= next < MAX_SAMPLES && 0 <= count <= MAX_SAMPLES
    ensures |w| == count
    decreases count
  {
    if count == 0 then [] else RingView(a, Prev(next), count - 1) + [a[Prev(next)]]
  }

  /** The `i`-th oldest live sample is the one at `Slot(next, count, i)`. */
  lemma {:induction false} RingViewAt(a: seq<Sample>, next: int, count: int, i: int)
    requires |a| == MAX_SAMPLES && 0 <= next < MAX_SAMPLES && 0 <= count <= MAX_SAMPLES
    requires 0 <= i < count
    ensures RingView(a, next, count)[i] == a[Slot(next, count, i)]
    decreases count
  {
    if i < count - 1 {
      RingViewAt(a, Prev(next), count - 1, i);
      assert Slot(Prev(next), count - 1, i) == Slot(next, count, i);
    }
  }

  /** `RingViewAt` for every live position at once. */
  lemma RingViewIndex(a: seq<Sample>, next: int, count: int)
    requires |a| == MAX_SAMPLES && 0 <= next < MAX_SAMPLES && 0 <= count <= MAX_SAMPLES
    ensures forall i | 0 <= i < count :: RingView(a, next, count)[i] == a[Slot(next, count, i)]
  {
    forall i | 0 <= i < count ensures RingView(a, next, count)[i] == a[Slot(next, count, i)] {
      RingViewAt(a, next, count, i);
    }
  }

  /** The live slots are pairwise distinct. */
  lemma SlotInjective(next: int, count: int, i: int, j: int)
    requires 0 <= next < MAX_SAMPLES && 0 <= count <= MAX_SAMPLES
    requires 0 <= i < count && 0 <= j < count && i != j
    ensures Slot(next, count, i) != Slot(next, count, j)
  {
  }

  /** Compacting keeps the ring's start: with `next` moved to the slot after
      the `k`-th kept sample, the `j`-th oldest slot is unchanged. */
  lemma SlotAfterCompaction(next: int, count: int, k: int, j: int)
    requires 0 <= next < MAX_SAMPLES && 0 <= k <= count <= MAX_SAMPLES && 0 <= j < k
    ensures Slot(Slot(next, count, k), k, j) == Slot(next, count, j)
  {
  }

  /** The live samples depend on the live slots only. */
  lemma RingViewFrame(a: seq<Sample>, b: seq<Sample>, next: int, count: int)
    requires |a| == MAX_SAMPLES && |b| == MAX_SAMPLES
    requires 0 <= next < MAX_SAMPLES && 0 <= count <= MAX_SAMPLES
    requires forall i | 0 <= i < count :: a[Slot(next, count, i)] == b[Slot(next, count, i)]
    ensures RingView(a, next, count) == RingView(b, next, count)
  {
    RingViewIndex(a, next, count);
    RingViewIndex(b, next, count);
  }

  /** Writing a slot that holds no live sample leaves the live samples alone. */
  lemma RingViewWriteDead(a: seq<Sample>, next: int, count: int, k: int, s: Sample)
    requires |a| == MAX_SAMPLES && 0 <= next < MAX_SAMPLES && 0 <= count <= MAX_SAMPLES
    requires 0 <= k < MAX_SAMPLES && forall i | 0 <= i < count :: Slot(next, count, i) != k
    ensures RingView(a[k := s], next, count) == RingView(a, next, count)
  {
    RingViewFrame(a[k := s], a, next, count);
  }

  /** Writing a sample at `next` and advancing the cursor appends it to the
      live samples, evicting the oldest one when the array is full. */
  lemma RingPush(a: seq<Sample>, next: int, count: int, s: Sample, next': int, count': int)
    requires |a| == MAX_SAMPLES && 0 <= next < MAX_SAMPLES && 0 <= count <= MAX_SAMPLES
    requires next' == Succ(next)
    requires count' == if count < MAX_SAMPLES then count + 1 else count
    ensures RingView(a[next := s], next', count') == Push(RingView(a, next, count), s)
  {
    var a' := a[next := s];
    assert Prev(next') == next;
    assert RingView(a', next', count') == RingView(a', next, count' - 1) + [s];
    var w := RingView(a, next, count);
    if count < MAX_SAMPLES {
      RingViewWriteDead(a, next, count, next, s);
      assert Push(w, s) == w + [s];
    } else {
      // the oldest slot is the one overwritten; the others move down one place
      RingViewIndex(a, next, count);
      RingViewIndex(a', next, count - 1);
      forall i | 0 <= i < count - 1 ensures RingView(a', next, count - 1)[i] == w[1..][i] {
        assert Slot(next, count - 1, i) == Slot(next, count, i + 1);
      }
      assert RingView(a', next, count - 1) == w[1..];
      assert Push(w, s) == w[1..] + [s];
    }
  }

  /** Adding sensor movement at the slot just before `next` credits the newest
      live sample and no other. */
  lemma RingCredit(a: seq<Sample>, next: int, count: int, mm: real)
    requires |a| == MAX_SAMPLES && 0 <= next < MAX_SAMPLES && 0 < count <= MAX_SAMPLES
    ensures var idx := Prev(next);
      RingView(a[idx := a[idx].(actualMm := a[idx].actualMm + mm)], next, count)
        == CreditNewest(RingView(a, next, count), mm)
  {
    var idx := Prev(next);
    RingViewWriteDead(a, idx, count - 1, idx, a[idx].(actualMm := a[idx].actualMm + mm));
  }

  // ----- Compacting the survivors of a prune -----

  /** The first `|kept|` live slots hold `kept`, in order. */
  predicate Compacted(a: seq<Sample>, next: int, count: int, kept: seq<Sample>)
    requires |a| == MAX_SAMPLES && 0 <= next < MAX_SAMPLES && |kept| <= count <= MAX_SAMPLES
  {
    forall j | 0 <= j < |kept| :: a[Slot(next, count, j)] == kept[j]
  }

  /** The live slots from position `i` on still hold the samples `w` had there. */
  predicate Pending(a: seq<Sample>, next: int, count: int, w: seq<Sample>, i: int)
    requires |a| == MAX_SAMPLES && 0 <= next < MAX_SAMPLES && |w| == count <= MAX_SAMPLES && 0 <= i <= count
  {
    forall j | i <= j < count :: a[Slot(next, count, j)] == w[j]
  }

  /** Before compaction every live slot holds its live sample. */
  lemma PendingAtStart(a: seq<Sample>, next: int, count: int)
    requires |a| == MAX_SAMPLES && 0 <= next < MAX_SAMPLES && 0 <= count <= MAX_SAMPLES
    ensures Pending(a, next, count, RingView(a, next, count), 0)
  {
    RingViewIndex(a, next, count);
  }

  /** One step of the compaction loop at position `i`: the sample there is
      the one `w` had; kept (moved down to position `|kept|` unless nothing
      was dropped yet) it extends the compacted prefix, dropped it leaves the
      array alone, and the positions after `i` are untouched either way. */
  lemma CompactStep(a: seq<Sample>, next: int, count: int, w: seq<Sample>, i: int,
                    kept: seq<Sample>, keep: bool, a': seq<Sample>)
    requires |a| == MAX_SAMPLES && 0 <= next < MAX_SAMPLES && |w| == count <= MAX_SAMPLES
    requires |kept| <= i < count
    requires Compacted(a, next, count, kept) && Pending(a, next, count, w, i)
    requires a' == if keep && |kept| != i then a[Slot(next, count, |kept|) := a[Slot(next, count, i)]] else a
    ensures a[Slot(next, count, i)] == w[i] && |a'| == MAX_SAMPLES
    ensures var kept' := if keep then kept + [w[i]] else kept;
      |kept'| <= i + 1 && Compacted(a', next, count, kept') && Pending(a', next, count, w, i + 1)
  {
    var k := |kept|;
    var kept' := if keep then kept + [w[i]] else kept;
    if keep {
      forall j | 0 <= j < k + 1 ensures a'[Slot(next, count, j)] == kept'[j] {
        if j < k && k != i {
          SlotInjective(next, count, j, k);
        }
      }
    }
    forall j | i + 1 <= j < count ensures a'[Slot(next, count, j)] == w[j] {
      if keep && k != i {
        SlotInjective(next, count, j, k);
      }
    }
  }

  /** The state of the compaction loop before position `i`: `kept` of the
      first `i` live samples survive, and they fill the first `kept` live
      slots in order; the slots from `i` on are untouched. */
  predicate Compacting(a: seq<Sample>, next: int, count: int, w: seq<Sample>, i: int, kept: int,
                       now: u32, windowMs: u32)
    requires |a| == MAX_SAMPLES && 0 <= next < MAX_SAMPLES && |w| == count <= MAX_SAMPLES
  {
    0 <= kept <= i <= count && |Prune(w[..i], now, windowMs)| == kept &&
    Compacted(a, next, count, Prune(w[..i], now, windowMs)) && Pending(a, next, count, w, i)
  }

  /** One step of the compaction loop: the sample at position `i` is the
      one `w` had there; kept, it is moved down to position `kept` (left in
      place when nothing was dropped yet). */
  lemma CompactPruneStep(a: seq<Sample>, next: int, count: int, w: seq<Sample>, i: int, kept: int,
                         now: u32, windowMs: u32, keep: bool, a': seq<Sample>, kept': int)
    requires |a| == MAX_SAMPLES && 0 <= next < MAX_SAMPLES && |w| == count <= MAX_SAMPLES
    requires i < count && Compacting(a, next, count, w, i, kept, now, windowMs)
    requires keep == InWindow(a[Slot(next, count, i)], now, windowMs)
    requires a' == if keep && kept != i then a[Slot(next, count, kept) := a[Slot(next, count, i)]] else a
    requires kept' == if keep then kept + 1 else kept
    ensures |a'| == MAX_SAMPLES && Compacting(a', next, count, w, i + 1, kept', now, windowMs)
  {
    var p := Prune(w[..i], now, windowMs);
    CompactStep(a, next, count, w, i, p, keep, a');
    PruneSnoc(w, i, now, windowMs, p, keep);
  }

  // ----- Where the write position goes after pruning -----

  /** The two ring indices `sampleCount` and `nextSampleIndex`. */
  datatype Cursor = Cursor(count: int, next: int)

  /** `pruneOldSamples` as written: the next write goes right after the
      `kept` survivors counted from slot 0. */
  function PruneCursorAsWritten(c: Cursor, kept: int): Cursor
  {
    Cursor(kept, if kept > 0 then kept else 0)
  }

  /** `pruneOldSamples` corrected: the next write goes right after the last
      survivor, which was compacted towards the ring's oldest slot. */
  function PruneCursor(c: Cursor, kept: int): (r: Cursor)
    requires 0 <= c.next < MAX_SAMPLES && 0 <= kept <= c.count <= MAX_SAMPLES
    ensures r.count == kept && 0 <= r.next < MAX_SAMPLES
  {
    Cursor(kept, if kept > 0 then Slot(c.next, c.count, kept) else 0)
  }

  /** `addSample` after pruning: advance `next` modulo the capacity, grow
      `count` until the array is full. */
  function PushCursor(c: Cursor): Cursor
    requires 0 <= c.next <= MAX_SAMPLES
  {
    Cursor(if c.count < MAX_SAMPLES then c.count + 1 else c.count, Succ(c.next))
  }

  /** `(next + 1) % MAX_SAMPLES` for a write position at most one past the array. */
  function Succ(next: int): (r: int)
    requires 0 <= next <= MAX_SAMPLES
    ensures 0 <= r < MAX_SAMPLES
  {
    if next + 1 < MAX_SAMPLES then next + 1 else next + 1 - MAX_SAMPLES
  }

  lemma SuccIsMod(next: int)
    requires 0 <= next <= MAX_SAMPLES
    ensures Succ(next) == (next + 1) % MAX_SAMPLES
  {
  }

  /** The cursor after `n` calls of `addSample` that prune nothing, from the
      empty ring left by `reset`, as written. */
  function FillAsWritten(n: nat): (c: Cursor)
    ensures 0 <= c.count <= MAX_SAMPLES && 0 <= c.next < MAX_SAMPLES
  {
    if n == 0 then Cursor(0, 0)
    else
      var c := FillAsWritten(n - 1);
      PushCursor(PruneCursorAsWritten(c, c.count))
  }

  /** The same `n` calls with the corrected pruning. */
  function Fill(n: nat): (c: Cursor)
    ensures 0 <= c.count <= MAX_SAMPLES && 0 <= c.next < MAX_SAMPLES
  {
    if n == 0 then Cursor(0, 0)
    else
      var c := Fill(n - 1);
      PushCursor(PruneCursor(c, c.count))
  }

  /** While the ring is not full, the written pruning keeps the live samples
      at slots 0 .. n-1 and writes next at slot n. */
  lemma {:induction false} FillAsWrittenDiagonal(n: nat)
    requires n < MAX_SAMPLES
    ensures FillAsWritten(n) == Cursor(n, n)
  {
    if n > 0 {
      FillAsWrittenDiagonal(n - 1);
      assert PruneCursorAsWritten(Cursor(n - 1, n - 1), n - 1) == Cursor(n - 1, n - 1);
    }
  }

  /** So does the corrected pruning. */
  lemma {:induction false} FillDiagonal(n: nat)
    requires n < MAX_SAMPLES
    ensures Fill(n) == Cursor(n, n)
  {
    if n > 0 {
      FillDiagonal(n - 1);
      assert Slot(n - 1, n - 1, n - 1) == n - 1;
      assert PruneCursor(Cursor(n - 1, n - 1), n - 1) == Cursor(n - 1, n - 1);
    }
  }

  /** While the ring is not full, the written and the corrected pruning agree. */
  lemma FillAgrees(n: nat)
    requires n < MAX_SAMPLES
    ensures FillAsWritten(n) == Fill(n) == Cursor(n, n)
  {
    FillAsWrittenDiagonal(n);
    FillDiagonal(n);
  }

  /** As written, after MAX_SAMPLES samples recorded within one window the
      next `addSample` writes at index MAX_SAMPLES, one past the array. */
  lemma FillAsWrittenOverruns()
    ensures FillAsWritten(MAX_SAMPLES) == Cursor(MAX_SAMPLES, 0)
    ensures PruneCursorAsWritten(FillAsWritten(MAX_SAMPLES), MAX_SAMPLES).next == MAX_SAMPLES
  {
    var n := MAX_SAMPLES;
    FillAgrees(n - 1);
    var c := FillAsWritten(n - 1);
    assert c == Cursor(n - 1, n - 1);
    var p := PruneCursorAsWritten(c, c.count);
    assert p == Cursor(n - 1, n - 1);
    assert FillAsWritten(n) == PushCursor(p);
    assert PushCursor(p) == Cursor(n, 0);
  }

  /** Corrected, the ring fills up to MAX_SAMPLES and then stays full, and
      the write position is always inside the array (PruneCursor's contract). */
  lemma {:induction false} FillCount(n: nat)
    ensures Fill(n).count == if n < MAX_SAMPLES then n else MAX_SAMPLES
  {
    if n > 0 {
      FillCount(n - 1);
    }
  }
}
