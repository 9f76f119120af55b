/** Throttled refresh: an expensive sub-metric is recomputed only on every
    `cycles`-th iteration of the sampling loop and carried forward otherwise. */
module Throttle {
  import opened Outcomes
  import opened RustInt

  /** Period used when the feature's polling interval is not positive. */
  const DEFAULT_REFRESH_CYCLES: U64 := 900

  lemma {:induction false} MulAtLeast(x: nat, c: nat)
    requires x >= 1
    ensures x * c >= c
  {
    if x > 1 {
      MulAtLeast(x - 1, c);
      assert x * c == (x - 1) * c + c;
    }
  }

  /** Euclidean division is determined by its quotient-remainder equation. */
  lemma DivUnique(a: int, c: int, q: int, r: int)
    requires c >= 1 && 0 <= r < c && a == q * c + r
    ensures a / c == q && a % c == r
  {
    var q', r' := a / c, a % c;
    assert a == q' * c + r';
    if q > q' {
      assert q * c - q' * c == (q - q') * c;
      MulAtLeast(q - q', c);
      assert false;
    } else if q < q' {
      assert q' * c - q * c == (q' - q) * c;
      MulAtLeast(q' - q, c);
      assert false;
    }
  }

  /** The latest iteration at or before `loopCount` whose number is a
      multiple of `cycles`: the one that last refreshed. */
  function LatestRefresh(loopCount: nat, cycles: nat): (j: nat)
    requires cycles >= 1
    ensures j <= loopCount < j + cycles && j % cycles == 0
  {
    DivUnique(loopCount - loopCount % cycles, cycles, loopCount / cycles, 0);
    loopCount - loopCount % cycles
  }

  /** Between two multiples of `c`, stepping back one iteration lowers the
      remainder by one and keeps the latest multiple. */
  lemma ModPredecessor(n: nat, c: nat)
    requires c >= 1 && n % c != 0
    ensures n >= 1 && (n - 1) % c == n % c - 1
    ensures LatestRefresh(n - 1, c) == LatestRefresh(n, c)
  {
    DivUnique(n - 1, c, n / c, n % c - 1);
  }

  /** Refresh period in loop iterations for a feature polled every
      `featureSecs` seconds while the loop runs every `cmdnSecs` seconds.

      The program computes `((60 / cmdn) * (feature / 60)) as u64` in `f32`;
      the model takes the quotient `feature / cmdn` truncated, as the
      saturating cast does. A zero loop interval gives `+inf`, which the cast
      saturates to `u64::MAX`. A feature polled more often than the loop
      truncates to 0 cycles: there is no clamp to 1. */
  function RefreshCycles(cmdnSecs: NonNegI32, featureSecs: NonNegI32): (r: U64)
    ensures featureSecs == 0 ==> r == DEFAULT_REFRESH_CYCLES
    ensures r >= 1 <==> featureSecs == 0 || cmdnSecs == 0 || cmdnSecs <= featureSecs
  {
    if featureSecs > 0 then
      if cmdnSecs == 0 then U64_MAX
      else
        DivUnique(featureSecs, cmdnSecs, featureSecs / cmdnSecs, featureSecs % cmdnSecs);
        featureSecs / cmdnSecs
    else
      DEFAULT_REFRESH_CYCLES
  }

  /** With both intervals set, the refresh period in seconds,
      `cycles * cmdnSecs`, is the largest multiple of the loop interval not
      above the feature's interval. */
  lemma RefreshPeriodBounds(cmdnSecs: NonNegI32, featureSecs: NonNegI32)
    requires 0 < featureSecs && 0 < cmdnSecs
    ensures var r := RefreshCycles(cmdnSecs, featureSecs);
      r * cmdnSecs <= featureSecs < (r + 1) * cmdnSecs
  {
    DivUnique(featureSecs, cmdnSecs, featureSecs / cmdnSecs, featureSecs % cmdnSecs);
  }

  /** The test `loop_count % cycles == 0`; the remainder panics when the
      period truncated to 0. */
  function IsRefreshCycle(loopCount: nat, cycles: U64): (r: Outcome<bool>)
    ensures r.Ok? <==> cycles >= 1
    ensures r.Panic? ==> r.cause == RemainderByZero
    ensures loopCount == 0 && cycles >= 1 ==> r == Ok(true)
    ensures 0 < loopCount < cycles ==> r == Ok(false)
  {
    if cycles == 0 then Panic(RemainderByZero) else Ok(loopCount % cycles == 0)
  }

  /** The refresh iterations are exactly the multiples of the period: the
      `k`-th multiple refreshes and every iteration strictly between two
      multiples carries forward. */
  lemma RefreshSchedule(cycles: U64, k: nat, j: nat)
    requires cycles >= 1
    requires j < cycles
    ensures IsRefreshCycle(k * cycles + j, cycles) == Ok(j == 0)
  {
    DivUnique(k * cycles + j, cycles, k, j);
  }

  /** Loop every second, refresh every minute: every 60 iterations. */
  lemma MinuteRefreshExample()
    ensures RefreshCycles(1, 60) == 60
  {
  }

  /** An unset feature interval refreshes every 900 iterations whatever the
      loop interval. */
  lemma DefaultRefreshExample(cmdnSecs: NonNegI32)
    ensures RefreshCycles(cmdnSecs, 0) == 900
  {
  }

  /** A feature polled more often than the loop gives a period of 0, and the
      first refresh test panics. */
  lemma FasterFeaturePanics()
    ensures RefreshCycles(10, 5) == 0
    ensures IsRefreshCycle(0, RefreshCycles(10, 5)) == Panic(RemainderByZero)
  {
  }
}
