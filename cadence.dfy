/**
 * The cadence tracker and the adaptive delay controller: edit timestamps are
 * recorded (the last 20 kept), and a periodic tick moves the debounce delay by
 * 50 ms within [500, 1200] according to the average interval between them.
 */
module Cadence {

  /** How many timestamps `typingPatternRef` keeps. */
  const MaxSamples := 20
  /** Below this many timestamps the tick does nothing. */
  const MinSamples := 5
  /** The initial debounce delay (`debounceTimeRef`), in milliseconds. */
  const InitialDelay := 800
  const MinDelay := 500
  const MaxDelay := 1200
  const DelayStep := 50
  /** An average interval below this is a fast typist. */
  const FastInterval := 200

  /**
   * Recording an edit (`typingPatternRef.current.push(Date.now())`, then
   * `slice(-20)` when longer than 20): the last at most 20 timestamps of
   * `samples + [now]`.
   */
  function RecordEdit(samples: seq<int>, now: int): (r: seq<int>)
    ensures |r| == if |samples| + 1 > MaxSamples then MaxSamples else |samples| + 1
    ensures r[|r| - 1] == now
    ensures r == (samples + [now])[|samples| + 1 - |r|..]
  {
    var s := samples + [now];
    if |s| > MaxSamples then s[|s| - MaxSamples..] else s
  }

  /** The consecutive differences of `samples`, as the tick's loop builds them. */
  function Intervals(samples: seq<int>): (r: seq<int>)
    ensures |r| == if samples == [] then 0 else |samples| - 1
  {
    if |samples| <= 1 then []
    else Intervals(samples[..|samples| - 1]) + [samples[|samples| - 1] - samples[|samples| - 2]]
  }

  /** `reduce((sum, val) => sum + val, 0)`. */
  function Sum(xs: seq<int>): int
  {
    if xs == [] then 0 else Sum(xs[..|xs| - 1]) + xs[|xs| - 1]
  }

  lemma {:induction false} IntervalsAt(samples: seq<int>, k: nat)
    requires k + 1 < |samples|
    ensures Intervals(samples)[k] == samples[k + 1] - samples[k]
    decreases |samples|
  {
    if k + 2 < |samples| {
      var init := samples[..|samples| - 1];
      IntervalsAt(init, k);
      assert init[k + 1] == samples[k + 1] && init[k] == samples[k];
    }
  }

  /** The intervals telescope: their sum is the span from first to last sample. */
  lemma {:induction false} SumIntervals(samples: seq<int>)
    requires samples != []
    ensures Sum(Intervals(samples)) == samples[|samples| - 1] - samples[0]
    decreases |samples|
  {
    if |samples| > 1 {
      var init := samples[..|samples| - 1];
      var iv := Intervals(samples);
      assert iv[..|iv| - 1] == Intervals(init);
      SumIntervals(init);
    }
  }

  predicate DelayInRange(d: int)
  {
    MinDelay <= d <= MaxDelay && d % DelayStep == 0
  }

  /** The state the tick works on. */
  datatype Tuning = Tuning(samples: seq<int>, delay: int)

  /**
   * `calculateAdaptiveDebounce`: with at least 5 samples, the average of all
   * their intervals decides the direction of the 50 ms step (integer
   * comparison of the sum against 200 per interval), and the samples are cut
   * to the last 5.
   */
  function Tick(t: Tuning): (r: Tuning)
    ensures |t.samples| < MinSamples ==> r == t
    ensures |t.samples| >= MinSamples ==> r.samples == t.samples[|t.samples| - MinSamples..]
    ensures DelayInRange(t.delay) ==>
      DelayInRange(r.delay) && t.delay - DelayStep <= r.delay <= t.delay + DelayStep
  {
    var n := |t.samples|;
    if n < MinSamples then t
    else
      var delay :=
        if Sum(Intervals(t.samples)) < FastInterval * (n - 1) then
          (if t.delay + DelayStep < MaxDelay then t.delay + DelayStep else MaxDelay)
        else
          (if t.delay - DelayStep > MinDelay then t.delay - DelayStep else MinDelay);
      Tuning(t.samples[n - MinSamples..], delay)
  }

  /**
   * The tick in terms of the first and last timestamps only: the delay grows
   * (up to 1200) when `last - first < 200 * (n - 1)` and shrinks (down to
   * 500) otherwise; fewer than 5 samples change nothing.
   */
  lemma TickTelescoped(t: Tuning)
    ensures |t.samples| < MinSamples ==> Tick(t) == t
    ensures |t.samples| >= MinSamples ==>
      var n := |t.samples|;
      var fast := t.samples[n - 1] - t.samples[0] < FastInterval * (n - 1);
      && Tick(t).samples == t.samples[n - MinSamples..]
      && Tick(t).delay == if fast then Min(MaxDelay, t.delay + DelayStep)
                          else Max(MinDelay, t.delay - DelayStep)
  {
    if |t.samples| >= MinSamples {
      SumIntervals(t.samples);
    }
  }

  function Min(a: int, b: int): int { if a < b then a else b }
  function Max(a: int, b: int): int { if a > b then a else b }

  /** The tick keeps the delay in [500, 1200] on the 50 ms grid, and at most 20 samples. */
  lemma TickKeepsBounds(t: Tuning)
    requires DelayInRange(t.delay) && |t.samples| <= MaxSamples
    ensures DelayInRange(Tick(t).delay) && |Tick(t).samples| <= MaxSamples
    ensures |t.samples| >= MinSamples ==> |Tick(t).samples| == MinSamples
  {
  }

  /** Any run of ticks and recorded edits from the initial delay keeps the delay in range. */
  lemma {:induction false} DelayAlwaysInRange(edits: seq<seq<int>>)
    ensures DelayInRange(Replay(edits).delay) && |Replay(edits).samples| <= MaxSamples
  {
    if edits != [] {
      DelayAlwaysInRange(edits[..|edits| - 1]);
      var before := Replay(edits[..|edits| - 1]);
      RecordAllBounded(before.samples, edits[|edits| - 1]);
      TickKeepsBounds(Tuning(RecordAll(before.samples, edits[|edits| - 1]), before.delay));
    }
  }

  /** Records each timestamp of `times` in turn. */
  function RecordAll(samples: seq<int>, times: seq<int>): (r: seq<int>)
    decreases |times|
  {
    if times == [] then samples else RecordAll(RecordEdit(samples, times[0]), times[1..])
  }

  lemma {:induction false} RecordAllBounded(samples: seq<int>, times: seq<int>)
    requires |samples| <= MaxSamples
    ensures |RecordAll(samples, times)| <= MaxSamples
    decreases |times|
  {
    if times != [] {
      RecordAllBounded(RecordEdit(samples, times[0]), times[1..]);
    }
  }

  /**
   * The cadence state after a session: before each 5-second tick, the edits
   * of that period are recorded.
   */
  function Replay(periods: seq<seq<int>>): (t: Tuning)
  {
    if periods == [] then Tuning([], InitialDelay)
    else
      var before := Replay(periods[..|periods| - 1]);
      Tick(Tuning(RecordAll(before.samples, periods[|periods| - 1]), before.delay))
  }
}
