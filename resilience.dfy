/** The circuit breaker that guards the remote call (class CircuitBreaker in
    services/systemCore.ts). The clock and the wrapped operation are inputs:
    `now` is the time read before the call, `settledAt` the time read after
    the operation settles, and the operation's outcome is a value. */
module Resilience {
  import opened Types
  import Telemetry

  /** Failures after which the breaker opens. */
  const Threshold: nat := 3
  /** Cooldown (ms) before an OPEN breaker lets a probe through. */
  const ResetTimeout: int := 10000

  /** The breaker's fields. */
  datatype Breaker = Breaker(failures: nat, state: CircuitState, nextAttempt: int)

  /** What the wrapped operation settled with. */
  datatype Outcome<T> = Resolved(value: T) | Threw(error: string)

  /** What `execute` gives its caller: the operation's value, the operation's
      error re-raised, or the rejection thrown while the breaker is OPEN. */
  datatype Execution<T> = Returned(value: T) | Raised(error: string) | CircuitOpen

  /** One call of `execute`: the breaker afterwards, whether the operation was
      invoked, and the states reported to the monitor, in order. */
  datatype Step = Step(next: Breaker, invoked: bool, reports: seq<CircuitState>)

  /** One call during an experiment: clock readings and whether the operation succeeds. */
  datatype Call = Call(now: int, succeeded: bool, settledAt: int)

  /** The breaker's own invariant: it is CLOSED exactly while fewer than
      `Threshold` failures are counted. */
  predicate Consistent(b: Breaker)
  {
    b.state == CLOSED <==> b.failures < Threshold
  }

  /** The effect of one call of `execute`. */
  function Attempt(b: Breaker, now: int, succeeded: bool, settledAt: int): (s: Step)
    // an OPEN breaker rejects until its cooldown has passed, without running the operation
    ensures s.invoked <==> !(b.state == OPEN && now <= b.nextAttempt)
    ensures !s.invoked ==> s.next == b && s.reports == []
    // past the cooldown the breaker first goes HALF_OPEN and says so
    ensures s.invoked && b.state == OPEN ==> |s.reports| >= 1 && s.reports[0] == HALF_OPEN
    // any success closes the breaker and clears the failure count
    ensures s.invoked && succeeded ==>
      s.next.failures == 0 && s.next.state == CLOSED && s.next.nextAttempt == b.nextAttempt &&
      s.reports != [] && s.reports[|s.reports| - 1] == CLOSED
    // every failure is counted
    ensures s.invoked && !succeeded ==> s.next.failures == b.failures + 1
    // the failure that reaches the threshold opens the breaker for a new cooldown
    ensures s.invoked && !succeeded && b.failures + 1 >= Threshold ==>
      s.next.state == OPEN && s.next.nextAttempt == settledAt + ResetTimeout &&
      s.reports != [] && s.reports[|s.reports| - 1] == OPEN
    // below the threshold a failure changes nothing else
    ensures s.invoked && !succeeded && b.failures + 1 < Threshold ==>
      s.next.state == (if b.state == OPEN then HALF_OPEN else b.state) &&
      s.next.nextAttempt == b.nextAttempt &&
      s.reports == (if b.state == OPEN then [HALF_OPEN] else [])
    // a breaker that was not OPEN reports only the state the outcome settles it in
    ensures s.invoked && b.state != OPEN ==>
      s.reports == (if succeeded then [CLOSED] else if b.failures + 1 >= Threshold then [OPEN] else [])
    ensures |s.reports| <= 2
    ensures Consistent(b) ==> Consistent(s.next)
  {
    if b.state == OPEN && now <= b.nextAttempt then
      Step(b, false, [])
    else
      var probe := if b.state == OPEN then [HALF_OPEN] else [];
      var admitted := if b.state == OPEN then b.(state := HALF_OPEN) else b;
      if succeeded then
        Step(Breaker(0, CLOSED, admitted.nextAttempt), true, probe + [CLOSED])
      else
        var failures := admitted.failures + 1;
        if failures >= Threshold then
          Step(Breaker(failures, OPEN, settledAt + ResetTimeout), true, probe + [OPEN])
        else
          Step(admitted.(failures := failures), true, probe)
  }

  /** The breaker after a run of calls; a consistent breaker stays consistent. */
  function Run(b: Breaker, calls: seq<Call>): (r: Breaker)
    ensures Consistent(b) ==> Consistent(r)
    ensures calls == [] ==> r == b
    decreases |calls|
  {
    if calls == [] then b
    else
      var c := calls[0];
      Run(Attempt(b, c.now, c.succeeded, c.settledAt).next, calls[1..])
  }

  /** A probe through a consistent breaker decides it: success closes it, failure
      reopens it with a fresh cooldown, since the count was not reset on the way
      to HALF_OPEN. */
  lemma ProbeDecides(b: Breaker, now: int, succeeded: bool, settledAt: int)
    requires Consistent(b) && b.state == OPEN && now > b.nextAttempt
    ensures var s := Attempt(b, now, succeeded, settledAt);
      s.invoked &&
      (succeeded ==> s.next.state == CLOSED && s.next.failures == 0 && s.reports == [HALF_OPEN, CLOSED]) &&
      (!succeeded ==> s.next.state == OPEN && s.next.nextAttempt == settledAt + ResetTimeout &&
                      s.reports == [HALF_OPEN, OPEN])
  {
  }

  /** Calls that all arrive within the cooldown leave an OPEN breaker untouched. */
  lemma {:induction false} RejectedWithinCooldown(b: Breaker, calls: seq<Call>)
    requires b.state == OPEN
    requires forall i :: 0 <= i < |calls| ==> calls[i].now <= b.nextAttempt
    ensures Run(b, calls) == b
    decreases |calls|
  {
    if calls != [] {
      RejectedWithinCooldown(b, calls[1..]);
    }
  }

  /** Enough consecutive failures open a consistent breaker, whatever state it
      started in and whenever the calls arrive. */
  lemma {:induction false} ConsecutiveFailuresOpen(b: Breaker, calls: seq<Call>)
    requires Consistent(b)
    requires calls != [] && b.failures + |calls| >= Threshold
    requires forall i :: 0 <= i < |calls| ==> !calls[i].succeeded
    ensures Run(b, calls).state == OPEN
    decreases |calls|
  {
    var c := calls[0];
    var next := Attempt(b, c.now, c.succeeded, c.settledAt).next;
    if |calls| > 1 {
      assert next.failures >= b.failures || next.state != CLOSED;
      ConsecutiveFailuresOpen(next, calls[1..]);
    }
  }

  /** Three failures in a row from the initial breaker open it, and a call that
      arrives within the cooldown after the third failure is then rejected. */
  lemma ThreeFailuresThenFailFast(c1: Call, c2: Call, c3: Call, later: Call)
    requires !c1.succeeded && !c2.succeeded && !c3.succeeded
    requires later.now <= c3.settledAt + ResetTimeout
    ensures var b := Run(Breaker(0, CLOSED, 0), [c1, c2, c3]);
      b.state == OPEN && b.nextAttempt == c3.settledAt + ResetTimeout &&
      !Attempt(b, later.now, later.succeeded, later.settledAt).invoked
  {
    var b0 := Breaker(0, CLOSED, 0);
    var b1 := Attempt(b0, c1.now, false, c1.settledAt).next;
    var b2 := Attempt(b1, c2.now, false, c2.settledAt).next;
    var b3 := Attempt(b2, c3.now, false, c3.settledAt).next;
    assert [c1, c2, c3][1..] == [c2, c3];
    assert [c2, c3][1..] == [c3];
    assert Run(b0, [c1, c2, c3]) == Run(b1, [c2, c3]) == Run(b2, [c3]) == b3;
  }

  class CircuitBreaker {
    var failures: nat
    var state: CircuitState
    var nextAttempt: int
    /** The monitor every transition is reported to. */
    const monitor: Telemetry.SystemMonitor

    /** The breaker's fields as a value. */
    function Abstract(): Breaker
      reads this
    {
      Breaker(failures, state, nextAttempt)
    }

    ghost predicate Valid()
      reads this, monitor
    {
      Consistent(Abstract()) && monitor.Valid()
    }

    constructor (m: Telemetry.SystemMonitor)
      requires m.Valid()
      ensures Valid() && monitor == m
      ensures Abstract() == Breaker(0, CLOSED, 0)
    {
      failures, state, nextAttempt := 0, CLOSED, 0;
      monitor := m;
    }

    /** Runs the operation unless the breaker is OPEN and still cooling down. */
    method Execute<T>(now: int, outcome: Outcome<T>, settledAt: int) returns (r: Execution<T>)
      requires Valid()
      modifies this, monitor
      ensures Valid()
      ensures var s := Attempt(old(Abstract()), now, outcome.Resolved?, settledAt);
        Abstract() == s.next &&
        (r == CircuitOpen <==> !s.invoked) &&
        (s.invoked && outcome.Resolved? ==> r == Returned(outcome.value)) &&
        (s.invoked && outcome.Threw? ==> r == Raised(outcome.error)) &&
        monitor.reported == old(monitor.reported) + s.reports &&
        monitor.metrics == Telemetry.ReportedAll(old(monitor.metrics), s.reports)
      ensures monitor.latencies == old(monitor.latencies) && monitor.recorded == old(monitor.recorded)
      ensures old(monitor.metrics.circuitBreakerState == state) ==> monitor.metrics.circuitBreakerState == state
    {
      if state == OPEN {
        if now > nextAttempt {
          state := HALF_OPEN;
          monitor.SetCircuitState(HALF_OPEN);
        } else {
          return CircuitOpen;
        }
      }

      match outcome
      case Resolved(value) =>
        OnSuccess();
        r := Returned(value);
      case Threw(error) =>
        OnFailure(settledAt);
        r := Raised(error);
    }

    method OnSuccess()
      requires monitor.Valid()
      modifies this, monitor
      ensures monitor.Valid()
      ensures Abstract() == Breaker(0, CLOSED, old(nextAttempt))
      ensures monitor.metrics == Telemetry.Reported(old(monitor.metrics), CLOSED)
      ensures monitor.reported == old(monitor.reported) + [CLOSED]
      ensures monitor.latencies == old(monitor.latencies) && monitor.recorded == old(monitor.recorded)
    {
      failures := 0;
      state := CLOSED;
      monitor.SetCircuitState(CLOSED);
    }

    method OnFailure(at: int)
      requires monitor.Valid()
      modifies this, monitor
      ensures monitor.Valid()
      ensures failures == old(failures) + 1
      ensures failures >= Threshold ==>
        state == OPEN && nextAttempt == at + ResetTimeout &&
        monitor.metrics == Telemetry.Reported(old(monitor.metrics), OPEN) &&
        monitor.reported == old(monitor.reported) + [OPEN]
      ensures failures < Threshold ==>
        state == old(state) && nextAttempt == old(nextAttempt) &&
        monitor.metrics == old(monitor.metrics) && monitor.reported == old(monitor.reported)
      ensures monitor.latencies == old(monitor.latencies) && monitor.recorded == old(monitor.recorded)
    {
      failures := failures + 1;
      if failures >= Threshold {
        state := OPEN;
        nextAttempt := at + ResetTimeout;
        monitor.SetCircuitState(OPEN);
      }
    }
  }

  /** Three failing calls through a fresh breaker open it; the monitor then
      reports DOWN, and a call within the cooldown is rejected without running. */
  method ThreeFailuresReportDown() returns (rejected: Execution<int>, snapshot: SystemMetrics)
    ensures rejected == CircuitOpen
    ensures snapshot.circuitBreakerState == OPEN && snapshot.status == DOWN
  {
    var monitor := new Telemetry.SystemMonitor();
    var breaker := new CircuitBreaker(monitor);
    var r1 := breaker.Execute<int>(0, Threw("down"), 10);
    var r2 := breaker.Execute<int>(20, Threw("down"), 30);
    var r3 := breaker.Execute<int>(40, Threw("down"), 50);
    assert breaker.Abstract() == Breaker(3, OPEN, 10050);
    rejected := breaker.Execute<int>(5000, Resolved(1), 5010);
    snapshot := monitor.GetMetrics();
  }
}
