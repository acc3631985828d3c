/** The telemetry store: request counters, a rolling latency window, its rounded
    mean and the health status derived from them (class SystemMonitor in
    services/systemCore.ts). */
module Telemetry {
  import opened Types

  /** Capacity of the rolling latency window. */
  const WindowSize: nat := 20
  /** Mean latency (ms) above which the system is DEGRADED. */
  const LatencyLimit: nat := 3000

  // ---------------------------------------------------------------------------
  // Specification functions
  // ---------------------------------------------------------------------------

  /** The sum of the samples, folded from the left as `reduce((a, b) => a + b, 0)` does. */
  function Sum(s: seq<nat>): (r: nat)
    ensures forall i :: 0 <= i < |s| ==> s[i] <= r
    ensures s == [] ==> r == 0
  {
    if s == [] then 0 else Sum(s[..|s| - 1]) + s[|s| - 1]
  }

  /** `Math.round(sum / len)` for non-negative operands: the whole number
      nearest to `sum / len`, halves rounded up. */
  function RoundDiv(sum: nat, len: nat): (r: nat)
    requires len > 0
    ensures len * (2 * r - 1) <= 2 * sum < len * (2 * r + 1)
  {
    NearestQuotient(sum, len);
    (2 * sum + len) / (2 * len)
  }

  lemma NearestQuotient(sum: nat, len: nat)
    requires len > 0
    ensures var q := (2 * sum + len) / (2 * len);
      len * (2 * q - 1) <= 2 * sum < len * (2 * q + 1)
  {
    var n, d := 2 * sum + len, 2 * len;
    var q, m := n / d, n % d;
    assert n == d * q + m && 0 <= m < d;
    assert d * q == 2 * (len * q);
    assert len * (2 * q - 1) == 2 * (len * q) - len;
    assert len * (2 * q + 1) == 2 * (len * q) + len;
  }

  /** The rounded mean of a non-empty window. */
  function RoundedMean(s: seq<nat>): nat
    requires |s| > 0
  {
    RoundDiv(Sum(s), |s|)
  }

  /** The average the monitor reports for a window: 0 before the first sample. */
  function AverageOf(s: seq<nat>): nat
  {
    if s == [] then 0 else RoundedMean(s)
  }

  /** The denominator of the error rate, `requestsTotal || 1`. */
  function RateDenominator(total: nat): (d: nat)
    ensures d >= 1
  {
    if total == 0 then 1 else total
  }

  /** `requestsFailed / (requestsTotal || 1) > 0.2`, tested in integers; the
      test agrees with the ratio computed exactly. */
  predicate ErrorRateAbove(failed: nat, total: nat)
    ensures ErrorRateAbove(failed, total) <==>
      (failed as real) / (RateDenominator(total) as real) > 0.2
  {
    RatioAbove(failed as real, RateDenominator(total) as real, 0.2);
    5 * failed > RateDenominator(total)
  }

  /** The health status derived from a snapshot's circuit state, error rate and
      average latency; an OPEN circuit takes priority over everything else. */
  function HealthOf(m: SystemMetrics): (r: SystemStatus)
    ensures r == DOWN <==> m.circuitBreakerState == OPEN
    ensures r == DEGRADED <==> (m.circuitBreakerState != OPEN &&
      (ErrorRateAbove(m.requestsFailed, m.requestsTotal) || m.averageLatency > LatencyLimit))
    ensures r == HEALTHY <==> (m.circuitBreakerState != OPEN &&
      !ErrorRateAbove(m.requestsFailed, m.requestsTotal) && m.averageLatency <= LatencyLimit)
  {
    if m.circuitBreakerState == OPEN then DOWN
    else if ErrorRateAbove(m.requestsFailed, m.requestsTotal) || m.averageLatency > LatencyLimit then DEGRADED
    else HEALTHY
  }

  /** The snapshot after the circuit state `s` is reported: the state is replaced,
      the status re-derived, and nothing else changes. */
  function Reported(m: SystemMetrics, s: CircuitState): (r: SystemMetrics)
    ensures r.circuitBreakerState == s && r.status == HealthOf(r)
    ensures r.requestsTotal == m.requestsTotal && r.requestsFailed == m.requestsFailed
    ensures r.averageLatency == m.averageLatency && r.lastError == m.lastError
  {
    var withState := m.(circuitBreakerState := s);
    withState.(status := HealthOf(withState))
  }

  /** The snapshot after the states `ss` are reported one after another. */
  function ReportedAll(m: SystemMetrics, ss: seq<CircuitState>): (r: SystemMetrics)
    ensures ss == [] ==> r == m
    ensures ss != [] ==> r == Reported(m, ss[|ss| - 1])
    decreases |ss|
  {
    if ss == [] then m else ReportedAll(Reported(m, ss[0]), ss[1..])
  }

  /** The last `WindowSize` samples of a history (all of it while it is shorter). */
  function LastWindow(h: seq<nat>): (w: seq<nat>)
    ensures |w| == if |h| <= WindowSize then |h| else WindowSize
  {
    if |h| <= WindowSize then h else h[|h| - WindowSize..]
  }

  // ---------------------------------------------------------------------------
  // Properties of the specification
  // ---------------------------------------------------------------------------

  /** The window is the tail of the history: dropping its first samples leaves it. */
  lemma LastWindowIsSuffix(h: seq<nat>)
    ensures h == h[..|h| - |LastWindow(h)|] + LastWindow(h)
  {
    assert h == h[..|h| - |LastWindow(h)|] + h[|h| - |LastWindow(h)|..];
  }

  /** Pushing a sample and then shifting out the oldest one when the window is
      over capacity keeps the window equal to the last 20 samples of the history. */
  lemma SlideKeepsLastWindow(h: seq<nat>, x: nat)
    ensures var w := LastWindow(h) + [x];
      LastWindow(h + [x]) == if |w| > WindowSize then w[1..] else w
    ensures 1 <= |LastWindow(h + [x])| <= WindowSize
  {
    var w := LastWindow(h) + [x];
    if |h| >= WindowSize {
      assert w[1..] == (h + [x])[|h| + 1 - WindowSize..];
    }
  }

  lemma {:induction false} SumBounds(s: seq<nat>, lo: nat, hi: nat)
    requires forall i :: 0 <= i < |s| ==> lo <= s[i] <= hi
    ensures |s| * lo <= Sum(s) <= |s| * hi
  {
    if s != [] {
      var init := s[..|s| - 1];
      SumBounds(init, lo, hi);
      assert |s| * lo == |init| * lo + lo;
      assert |s| * hi == |init| * hi + hi;
    }
  }

  lemma MulCancel(k: nat, x: int, y: int)
    requires k * x < k * y
    ensures x < y
  {
  }

  /** A whole number within half a unit of `sum / n` lies between any bounds of that ratio. */
  lemma RoundedWithin(n: nat, sum: int, r: int, lo: int, hi: int)
    requires n > 0
    requires n * (2 * r - 1) <= 2 * sum < n * (2 * r + 1)
    requires n * lo <= sum <= n * hi
    ensures lo <= r <= hi
  {
    assert n * (2 * hi + 1) == 2 * (n * hi) + n;
    MulCancel(n, 2 * r - 1, 2 * hi + 1);
    assert n * (2 * lo - 1) == 2 * (n * lo) - n;
    MulCancel(n, 2 * lo - 1, 2 * r + 1);
  }

  /** The rounded mean lies between the smallest and the largest sample. */
  lemma MeanWithinBounds(s: seq<nat>, lo: nat, hi: nat)
    requires |s| > 0
    requires forall i :: 0 <= i < |s| ==> lo <= s[i] <= hi
    ensures lo <= RoundedMean(s) <= hi
  {
    SumBounds(s, lo, hi);
    RoundedWithin(|s|, Sum(s), RoundedMean(s), lo, hi);
  }

  lemma RatioAbove(f: real, d: real, c: real)
    requires d > 0.0
    ensures f / d > c <==> f > c * d
  {
    var q := f / d;
    assert f == q * d;
    assert f - c * d == (q - c) * d;
  }

  // ---------------------------------------------------------------------------
  // The monitor
  // ---------------------------------------------------------------------------

  class SystemMonitor {
    /** The telemetry record, updated field by field. */
    var metrics: SystemMetrics
    /** The rolling window of recent latencies, oldest first. */
    var latencies: seq<nat>
    /** Every latency ever recorded, oldest first. */
    ghost var recorded: seq<nat>
    /** Every circuit state ever reported, oldest first. */
    ghost var reported: seq<CircuitState>

    /** The monitor's invariant: the counters agree with the history, the
        window is its last 20 samples, and the average and the status are
        never stale. */
    ghost predicate Valid()
      reads this
    {
      metrics.requestsTotal == |recorded| &&
      metrics.requestsFailed <= metrics.requestsTotal &&
      latencies == LastWindow(recorded) &&
      metrics.averageLatency == AverageOf(latencies) &&
      metrics.status == HealthOf(metrics)
    }

    constructor ()
      ensures Valid()
      ensures metrics == SystemMetrics(0, 0, 0, None, HEALTHY, CLOSED)
      ensures latencies == [] && recorded == [] && reported == []
    {
      metrics := SystemMetrics(0, 0, 0, None, HEALTHY, CLOSED);
      latencies := [];
      recorded := [];
      reported := [];
    }

    /** Records one finished transaction. */
    method RecordTransaction(latencyMs: nat, success: bool, error: Option<string>)
      requires Valid()
      modifies this
      ensures Valid()
      ensures metrics.requestsTotal == old(metrics.requestsTotal) + 1
      ensures metrics.requestsFailed == old(metrics.requestsFailed) + (if success then 0 else 1)
      ensures metrics.lastError == if success then old(metrics.lastError) else error
      ensures recorded == old(recorded) + [latencyMs]
      ensures latencies == if |old(latencies)| < WindowSize then old(latencies) + [latencyMs]
                           else old(latencies)[1..] + [latencyMs]
      ensures 1 <= |latencies| <= WindowSize
      ensures metrics.averageLatency == RoundedMean(latencies)
      ensures metrics.circuitBreakerState == old(metrics.circuitBreakerState)
      ensures reported == old(reported)
    {
      var m := metrics.(requestsTotal := metrics.requestsTotal + 1);
      if !success {
        m := m.(requestsFailed := m.requestsFailed + 1, lastError := error);
      }

      SlideKeepsLastWindow(recorded, latencyMs);
      var window := latencies + [latencyMs];
      if |window| > WindowSize {
        window := window[1..];
      }
      assert window == LastWindow(recorded + [latencyMs]);

      var sum := WindowSum(window);
      metrics := m.(averageLatency := RoundDiv(sum, |window|));
      latencies := window;
      recorded := recorded + [latencyMs];
      UpdateHealthStatus();
    }

    /** Records the circuit breaker's new state and re-derives the status. */
    method SetCircuitState(state: CircuitState)
      requires Valid()
      modifies this
      ensures Valid()
      ensures metrics == Reported(old(metrics), state)
      ensures latencies == old(latencies) && recorded == old(recorded)
      ensures reported == old(reported) + [state]
    {
      metrics := metrics.(circuitBreakerState := state);
      reported := reported + [state];
      UpdateHealthStatus();
    }

    /** Re-derives the status from the circuit state, the error rate and the
        average latency, in that order of priority. */
    method UpdateHealthStatus()
      modifies this
      ensures metrics == old(metrics).(status := HealthOf(old(metrics)))
      ensures latencies == old(latencies) && recorded == old(recorded) && reported == old(reported)
    {
      var denominator := if metrics.requestsTotal == 0 then 1 else metrics.requestsTotal;
      if metrics.circuitBreakerState == OPEN {
        metrics := metrics.(status := DOWN);
      } else if 5 * metrics.requestsFailed > denominator || metrics.averageLatency > LatencyLimit {
        metrics := metrics.(status := DEGRADED);
      } else {
        metrics := metrics.(status := HEALTHY);
      }
    }

    /** A copy of the telemetry record; it is a value, so callers cannot alter the monitor. */
    method GetMetrics() returns (snapshot: SystemMetrics)
      requires Valid()
      ensures snapshot == metrics
      ensures snapshot.requestsFailed <= snapshot.requestsTotal
      ensures snapshot.status == HealthOf(snapshot)
    {
      snapshot := metrics;
    }
  }

  /** The window's sum, accumulated left to right. */
  method WindowSum(s: seq<nat>) returns (total: nat)
    ensures total == Sum(s)
  {
    total := 0;
    var i := 0;
    while i < |s|
      invariant 0 <= i <= |s|
      invariant total == Sum(s[..i])
    {
      assert s[..i + 1][..i] == s[..i];
      total := total + s[i];
      i := i + 1;
    }
    assert s[..|s|] == s;
  }

  /** The sum of `n` copies of `c`. */
  lemma {:induction false} SumConstant(n: nat, c: nat)
    ensures Sum(seq(n, _ => c)) == n * c
  {
    if n > 0 {
      assert seq(n, _ => c)[..n - 1] == seq(n - 1, _ => c);
      SumConstant(n - 1, c);
    }
  }

  /** Nineteen samples of 100 ms and one of 5000 ms average 345 ms. */
  lemma SlowSampleMean()
    ensures RoundedMean(seq(19, _ => 100) + [5000]) == 345
  {
    var s := seq(19, _ => 100) + [5000];
    assert s[..|s| - 1] == seq(19, _ => 100);
    SumConstant(19, 100);
    assert Sum(s) == 6900;
  }

  /** Records `count` failed transactions of `latencyMs` each on a fresh monitor. */
  method RecordFailures(monitor: SystemMonitor, count: nat, latencyMs: nat, error: string)
    requires monitor.Valid() && monitor.recorded == [] && monitor.metrics.requestsFailed == 0
    requires monitor.metrics.circuitBreakerState == CLOSED
    modifies monitor
    ensures monitor.Valid()
    ensures monitor.recorded == seq(count, _ => latencyMs)
    ensures monitor.metrics.requestsFailed == count
    ensures monitor.metrics.circuitBreakerState == CLOSED
    ensures count > 0 ==> monitor.metrics.lastError == Some(error)
  {
    var i := 0;
    while i < count
      invariant 0 <= i <= count
      invariant monitor.Valid()
      invariant monitor.recorded == seq(i, _ => latencyMs)
      invariant monitor.metrics.requestsFailed == i
      invariant monitor.metrics.circuitBreakerState == CLOSED
      invariant i > 0 ==> monitor.metrics.lastError == Some(error)
    {
      monitor.RecordTransaction(latencyMs, false, Some(error));
      assert seq(i, _ => latencyMs) + [latencyMs] == seq(i + 1, _ => latencyMs);
      i := i + 1;
    }
  }

  /** Twenty failed transactions of 100 ms followed by one successful one of
      5000 ms: the oldest failure leaves the window, the average is the rounded
      mean of the 20 samples kept, and the error rate makes the system DEGRADED. */
  method FailuresThenSlowSuccess() returns (snapshot: SystemMetrics)
    ensures snapshot.requestsTotal == 21 && snapshot.requestsFailed == 20
    ensures snapshot.averageLatency == 345
    ensures snapshot.lastError == Some("timeout")
    ensures snapshot.status == DEGRADED
  {
    var monitor := new SystemMonitor();
    RecordFailures(monitor, 20, 100, "timeout");
    assert monitor.latencies == seq(20, _ => 100);
    assert seq(20, _ => 100)[1..] == seq(19, _ => 100);
    monitor.RecordTransaction(5000, true, None);
    assert monitor.latencies == seq(19, _ => 100) + [5000];
    SlowSampleMean();
    snapshot := monitor.GetMetrics();
  }
}
