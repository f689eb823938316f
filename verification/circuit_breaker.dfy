/** The per-upstream circuit breaker: two atomics, refined to a history of call outcomes. */
module CircuitBreakers {

  /** The two atomics; `openedAt` 0 means closed or half-open. */
  datatype Breaker = Breaker(failures: nat, openedAt: int)

  const CLOSED := Breaker(0, 0)

  predicate Open(b: Breaker, threshold: nat, openSecs: int, now: int)
  {
    b.failures >= threshold && b.openedAt != 0 && now - b.openedAt < openSecs
  }

  function Failed(b: Breaker, threshold: nat, now: int): Breaker
  {
    Breaker(b.failures + 1, if b.failures + 1 >= threshold && b.openedAt == 0 then now else b.openedAt)
  }

  class CircuitBreaker {
    const failureThreshold: nat
    const openDurationSecs: int
    var consecutiveFailures: nat
    var openedAt: int

    constructor (failureThreshold: nat, openDurationSecs: nat)
      ensures this.failureThreshold == failureThreshold && this.openDurationSecs == openDurationSecs
      ensures Now() == CLOSED
    {
      this.failureThreshold := failureThreshold;
      this.openDurationSecs := openDurationSecs;
      consecutiveFailures, openedAt := 0, 0;
    }

    function Now(): Breaker
      reads this
    {
      Breaker(consecutiveFailures, openedAt)
    }

    method IsOpen(nowSecs: int) returns (open: bool)
      ensures open == Open(Now(), failureThreshold, openDurationSecs, nowSecs)
    {
      var failures := consecutiveFailures;
      if failures < failureThreshold {
        return false;
      }
      var since := openedAt;
      if since == 0 {
        return false;
      }
      return nowSecs - since < openDurationSecs;
    }

    method RecordSuccess()
      modifies this
      ensures Now() == CLOSED
    {
      consecutiveFailures := 0;
      openedAt := 0;
    }

    method RecordFailure(nowSecs: int)
      modifies this
      ensures Now() == Failed(old(Now()), failureThreshold, nowSecs)
    {
      var prev := consecutiveFailures;
      consecutiveFailures := prev + 1;
      if prev + 1 >= failureThreshold {
        if openedAt == 0 {
          openedAt := nowSecs;
        }
      }
    }
  }

  // -- Histories -------------------------------------------------------------------------

  /** What was recorded on the breaker: a success, or a failure and the clock it read. */
  datatype Record = Success | Failure(at: int)

  function After(history: seq<Record>, threshold: nat): Breaker
  {
    if history == [] then CLOSED
    else
      match history[|history| - 1]
      case Success => CLOSED
      case Failure(at) => Failed(After(history[..|history| - 1], threshold), threshold, at)
  }

  /** The clock readings of the failures since the last success, oldest first. */
  function FailuresSinceSuccess(history: seq<Record>): seq<int>
  {
    if history == [] || history[|history| - 1].Success? then []
    else FailuresSinceSuccess(history[..|history| - 1]) + [history[|history| - 1].at]
  }

  /** Which failure trips the breaker; a threshold of 0 acts like 1. */
  function TrippingFailure(threshold: nat): nat
  {
    if threshold == 0 then 1 else threshold
  }

  /** The first nonzero clock reading among the failures from the tripping one on, or 0. */
  function TripTime(failures: seq<int>, threshold: nat): int
  {
    if |failures| < TrippingFailure(threshold) then 0
    else
      var before := TripTime(failures[..|failures| - 1], threshold);
      if before != 0 then before else failures[|failures| - 1]
  }

  predicate ClockPositive(history: seq<Record>)
  {
    forall i | 0 <= i < |history| && history[i].Failure? :: history[i].at > 0
  }

  /** The counter is the number of failures since the last success, and `opened_at` is the
      time of the trip among them. */
  lemma {:induction false} RefinesHistory(history: seq<Record>, threshold: nat)
    ensures After(history, threshold)
            == Breaker(|FailuresSinceSuccess(history)|, TripTime(FailuresSinceSuccess(history), threshold))
  {
    if history != [] && history[|history| - 1].Failure? {
      RefinesHistory(history[..|history| - 1], threshold);
      var failures := FailuresSinceSuccess(history);
      assert failures[..|failures| - 1] == FailuresSinceSuccess(history[..|history| - 1]);
    }
  }

  lemma {:induction false} FailuresArePositive(history: seq<Record>)
    requires ClockPositive(history)
    ensures forall i | 0 <= i < |FailuresSinceSuccess(history)| :: FailuresSinceSuccess(history)[i] > 0
  {
    if history != [] && history[|history| - 1].Failure? {
      FailuresArePositive(history[..|history| - 1]);
    }
  }

  lemma {:induction false} TripIsTheThresholdFailure(failures: seq<int>, threshold: nat)
    requires forall i | 0 <= i < |failures| :: failures[i] > 0
    ensures TripTime(failures, threshold)
            == if |failures| < TrippingFailure(threshold) then 0 else failures[TrippingFailure(threshold) - 1]
  {
    if |failures| >= TrippingFailure(threshold) {
      TripIsTheThresholdFailure(failures[..|failures| - 1], threshold);
    }
  }

  /** With a running clock, the breaker is open at `t` exactly when the threshold-th failure
      since the last success exists and lies less than the open duration before `t`. */
  lemma OpenIffTripped(history: seq<Record>, threshold: nat, openSecs: int, t: int)
    requires ClockPositive(history)
    ensures var failures := FailuresSinceSuccess(history);
            var trip := TrippingFailure(threshold);
            Open(After(history, threshold), threshold, openSecs, t)
            <==> |failures| >= trip && t - failures[trip - 1] < openSecs
  {
    RefinesHistory(history, threshold);
    FailuresArePositive(history);
    TripIsTheThresholdFailure(FailuresSinceSuccess(history), threshold);
  }

  lemma {:induction false} MoreFailures(history: seq<Record>, more: seq<Record>)
    requires forall i | 0 <= i < |more| :: more[i].Failure?
    ensures FailuresSinceSuccess(history) <= FailuresSinceSuccess(history + more)
    ensures |FailuresSinceSuccess(history + more)| == |FailuresSinceSuccess(history)| + |more|
  {
    if more != [] {
      MoreFailures(history, more[..|more| - 1]);
      assert (history + more)[..|history + more| - 1] == history + more[..|more| - 1];
    } else {
      assert history + more == history;
    }
  }

  /** A tripped breaker's open period is fixed at the trip: failing probes after it do not
      re-open the breaker, and until a success every later call is a probe. */
  lemma FailedProbesDoNotReopen(history: seq<Record>, probes: seq<Record>, threshold: nat, openSecs: int, t: int)
    requires ClockPositive(history + probes) && forall i | 0 <= i < |probes| :: probes[i].Failure?
    requires |FailuresSinceSuccess(history)| >= TrippingFailure(threshold)
    ensures Open(After(history + probes, threshold), threshold, openSecs, t)
            <==> t < FailuresSinceSuccess(history)[TrippingFailure(threshold) - 1] + openSecs
  {
    MoreFailures(history, probes);
    OpenIffTripped(history + probes, threshold, openSecs, t);
  }
}
