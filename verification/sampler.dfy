/**
 * The rate of `measure`'s full samples over a series of calls. Each call at time `t` takes
 * a full sample exactly when `t - measureTime > MEASURE_INTERVAL*1000` (strict, in 32-bit
 * unsigned arithmetic) and then sets `measureTime = t`; every other call only runs the
 * heart-rate sensor's update step.
 */
module Sampler {
  import opened Clock

  /** `measureTime` after calls at the times `ts`, starting from `start`. */
  function LastSample(start: Millis, interval: Millis, ts: seq<Millis>): (m: Millis)
    ensures m == start || m in ts
  {
    if |ts| == 0 then start
    else
      var m := LastSample(start, interval, ts[..|ts| - 1]);
      if IntervalPassed(ts[|ts| - 1], m, interval) then ts[|ts| - 1] else m
  }

  /** Whether the call at index `j` takes a full sample. */
  predicate SamplesAt(start: Millis, interval: Millis, ts: seq<Millis>, j: nat)
    requires j < |ts|
  {
    IntervalPassed(ts[j], LastSample(start, interval, ts[..j]), interval)
  }

  /** After a full sample at `i` and none since, `measureTime` still holds `ts[i]`. */
  lemma {:induction false} LastSampleHolds(start: Millis, interval: Millis, ts: seq<Millis>, i: nat, j: nat)
    requires i < j <= |ts|
    requires SamplesAt(start, interval, ts, i)
    requires forall m | i < m < j :: !SamplesAt(start, interval, ts, m)
    ensures LastSample(start, interval, ts[..j]) == ts[i]
    decreases j
  {
    LastSampleStep(start, interval, ts, j);
    if j - 1 > i {
      LastSampleHolds(start, interval, ts, i, j - 1);
      assert !SamplesAt(start, interval, ts, j - 1);
    }
  }

  /** One more call: `measureTime` moves to its time exactly when it takes a full sample. */
  lemma LastSampleStep(start: Millis, interval: Millis, ts: seq<Millis>, j: nat)
    requires 0 < j <= |ts|
    ensures LastSample(start, interval, ts[..j])
         == if SamplesAt(start, interval, ts, j - 1) then ts[j - 1] else LastSample(start, interval, ts[..j - 1])
  {
    assert ts[..j][..j - 1] == ts[..j - 1] && ts[..j][j - 1] == ts[j - 1];
  }

  /**
   * Rate separation: after a full sample at time `ts[i]`, the next full sample is the first
   * later call more than `interval` ms after `ts[i]`; the calls in between take none.
   */
  lemma RateSeparation(start: Millis, interval: Millis, ts: seq<Millis>, i: nat, j: nat)
    requires i < j < |ts|
    requires SamplesAt(start, interval, ts, i)
    requires forall m | i < m < j :: !SamplesAt(start, interval, ts, m)
    ensures SamplesAt(start, interval, ts, j) <==> Since(ts[j], ts[i]) > interval
  {
    LastSampleHolds(start, interval, ts, i, j);
  }

  /**
   * With a 5 s interval and `measureTime` at 0, calls at 1 s, 2 s, ..., 6 s take their only
   * full sample at 6 s: at 5 s exactly 5000 ms have passed, which the strict gate rejects.
   */
  lemma FiveSecondSeries()
    ensures var ts: seq<Millis> := [1000, 2000, 3000, 4000, 5000, 6000];
      && (forall j | 0 <= j < 5 :: !SamplesAt(0, 5000, ts, j))
      && SamplesAt(0, 5000, ts, 5)
  {
    var ts: seq<Millis> := [1000, 2000, 3000, 4000, 5000, 6000];
    assert ts[..0] == [];
    assert LastSample(0, 5000, ts[..1]) == 0 by { assert ts[..1][..0] == []; }
    assert LastSample(0, 5000, ts[..2]) == 0 by { assert ts[..2][..1] == ts[..1]; }
    assert LastSample(0, 5000, ts[..3]) == 0 by { assert ts[..3][..2] == ts[..2]; }
    assert LastSample(0, 5000, ts[..4]) == 0 by { assert ts[..4][..3] == ts[..3]; }
    assert LastSample(0, 5000, ts[..5]) == 0 by { assert ts[..5][..4] == ts[..4]; }
  }
}
