/** The gateway's retrying proxies: up to three attempts around a circuit breaker. */
module Proxies {
  import opened Wrappers
  import opened CircuitBreakers

  const MAX_ATTEMPTS := 3

  const SERVICE_UNAVAILABLE := 503
  const BAD_GATEWAY := 502

  /** What one send would meet, and the clock (in seconds) when it is recorded. */
  datatype Reply = NetworkError | Status(code: nat, jsonBody: bool)
  datatype Attempt = Attempt(reply: Reply, at: int)

  predicate IsServerError(code: nat) { 500 <= code < 600 }

  predicate IsSuccess(code: nat) { 200 <= code < 300 }

  /** The attempts that are retried: network errors and server errors. */
  predicate Retryable(a: Attempt) { a.reply.NetworkError? || IsServerError(a.reply.code) }

  /** How a proxy call ends: a response passed on, a refusal with a status of the proxy's or
      the upstream's, or the last network error. */
  datatype Ending = Passed(code: nat) | Refused(code: nat) | NetworkFailure

  datatype Outcome = Outcome(breaker: Breaker, ending: Ending, sends: nat)

  /** The breaker after every one of `attempts` has failed. */
  function FailedAll(b: Breaker, threshold: nat, attempts: seq<Attempt>): Breaker
  {
    if attempts == [] then b
    else Failed(FailedAll(b, threshold, attempts[..|attempts| - 1]), threshold, attempts[|attempts| - 1].at)
  }

  /** The position of the first attempt that is not retried, or the number of attempts. */
  function FirstFinal(attempts: seq<Attempt>): (i: nat)
    ensures i <= |attempts|
    ensures forall j | 0 <= j < i :: Retryable(attempts[j])
    ensures i < |attempts| ==> !Retryable(attempts[i])
  {
    if attempts == [] || !Retryable(attempts[0]) then 0 else 1 + FirstFinal(attempts[1..])
  }

  /** What a call to mdm-core must come to: an answer other than 5xx resets the breaker and is
      passed on; otherwise all attempts fail and the last reply is the result. */
  function MdmOutcome(b: Breaker, threshold: nat, openSecs: int, now: int, attempts: seq<Attempt>): Outcome
    requires |attempts| == MAX_ATTEMPTS
  {
    var i := FirstFinal(attempts);
    if Open(b, threshold, openSecs, now) then Outcome(b, Passed(SERVICE_UNAVAILABLE), 0)
    else if i < MAX_ATTEMPTS then Outcome(CLOSED, Passed(attempts[i].reply.code), i + 1)
    else
      Outcome(FailedAll(b, threshold, attempts),
              if attempts[2].reply.NetworkError? then NetworkFailure else Passed(attempts[2].reply.code),
              MAX_ATTEMPTS)
  }

  /** The same for the AI service, where only a 2xx resets the breaker, and everything that is
      not a 2xx with a JSON body is refused. */
  function AiOutcome(b: Breaker, threshold: nat, openSecs: int, now: int, attempts: seq<Attempt>): Outcome
    requires |attempts| == MAX_ATTEMPTS
  {
    var i := FirstFinal(attempts);
    if Open(b, threshold, openSecs, now) then Outcome(b, Refused(SERVICE_UNAVAILABLE), 0)
    else if i < MAX_ATTEMPTS then
      var Status(code, jsonBody) := attempts[i].reply;
      if IsSuccess(code) then Outcome(CLOSED, if jsonBody then Passed(code) else Refused(BAD_GATEWAY), i + 1)
      else Outcome(FailedAll(b, threshold, attempts[..i]), Refused(code), i + 1)
    else
      Outcome(FailedAll(b, threshold, attempts),
              Refused(if attempts[2].reply.NetworkError? then BAD_GATEWAY else attempts[2].reply.code),
              MAX_ATTEMPTS)
  }

  /** `attempts[k]` is what the k-th send would meet. */
  method ProxyMdmPost(cb: CircuitBreaker, now: int, attempts: seq<Attempt>) returns (ending: Ending, sends: nat)
    requires |attempts| == MAX_ATTEMPTS
    modifies cb
    ensures Outcome(cb.Now(), ending, sends)
            == MdmOutcome(old(cb.Now()), cb.failureThreshold, cb.openDurationSecs, now, attempts)
  {
    sends := 0;
    var open := cb.IsOpen(now);
    if open {
      return Passed(SERVICE_UNAVAILABLE), sends;
    }
    var lastErr: Option<Reply> := None;
    for attempt := 0 to MAX_ATTEMPTS
      invariant sends == attempt
      invariant attempt <= FirstFinal(attempts)
      invariant cb.Now() == FailedAll(old(cb.Now()), cb.failureThreshold, attempts[..attempt])
      invariant attempt > 0 ==> (lastErr.Some? <==> attempts[attempt - 1].reply.NetworkError?)
      invariant attempt == MAX_ATTEMPTS ==> lastErr.Some?
    {
      FirstFinalFrom(attempts, attempt);
      assert attempts[..attempt + 1][..attempt] == attempts[..attempt];
      sends := sends + 1;
      match attempts[attempt].reply {
        case NetworkError =>
          cb.RecordFailure(attempts[attempt].at);
          lastErr := Some(attempts[attempt].reply);
        case Status(code, _) =>
          if IsServerError(code) {
            cb.RecordFailure(attempts[attempt].at);
            if attempt + 1 < MAX_ATTEMPTS {
              lastErr := None;
              continue;
            }
          } else {
            cb.RecordSuccess();
          }
          assert attempts[..MAX_ATTEMPTS] == attempts;
          return Passed(code), sends;
      }
    }
    // The loop never ends without an error to return.
    assert lastErr.Some?;
    assert attempts[..MAX_ATTEMPTS] == attempts;
    return NetworkFailure, sends;
  }

  method ProxyAiRequest(cb: CircuitBreaker, now: int, attempts: seq<Attempt>) returns (ending: Ending, sends: nat)
    requires |attempts| == MAX_ATTEMPTS
    modifies cb
    ensures Outcome(cb.Now(), ending, sends)
            == AiOutcome(old(cb.Now()), cb.failureThreshold, cb.openDurationSecs, now, attempts)
  {
    ending, sends := Refused(BAD_GATEWAY), 0;
    var open := cb.IsOpen(now);
    if open {
      return Refused(SERVICE_UNAVAILABLE), sends;
    }
    for attempt := 0 to MAX_ATTEMPTS
      invariant sends == attempt
      invariant attempt <= FirstFinal(attempts) && attempt < MAX_ATTEMPTS
      invariant cb.Now() == FailedAll(old(cb.Now()), cb.failureThreshold, attempts[..attempt])
    {
      FirstFinalFrom(attempts, attempt);
      assert attempts[..attempt + 1][..attempt] == attempts[..attempt];
      assert attempts[..MAX_ATTEMPTS] == attempts;
      sends := sends + 1;
      if attempts[attempt].reply.NetworkError? {
        cb.RecordFailure(attempts[attempt].at);
        if attempt + 1 < MAX_ATTEMPTS {
          continue;
        }
        return Refused(BAD_GATEWAY), sends;
      }
      var Status(code, jsonBody) := attempts[attempt].reply;
      if IsServerError(code) {
        cb.RecordFailure(attempts[attempt].at);
        if attempt + 1 < MAX_ATTEMPTS {
          continue;
        }
      } else if IsSuccess(code) {
        cb.RecordSuccess();
      }
      if !IsSuccess(code) {
        return Refused(code), sends;
      }
      if !jsonBody {
        return Refused(BAD_GATEWAY), sends;
      }
      return Passed(code), sends;
    }
  }

  lemma {:induction false} FirstFinalFrom(attempts: seq<Attempt>, i: nat)
    requires i < |attempts| && i <= FirstFinal(attempts)
    ensures FirstFinal(attempts) == i <==> !Retryable(attempts[i])
  {
    if i > 0 {
      FirstFinalFrom(attempts[1..], i - 1);
    }
  }

  lemma {:induction false} FailedAllCounts(b: Breaker, threshold: nat, attempts: seq<Attempt>)
    ensures FailedAll(b, threshold, attempts).failures == b.failures + |attempts|
    ensures b.openedAt != 0 ==> FailedAll(b, threshold, attempts).openedAt == b.openedAt
    ensures b.openedAt == 0 && b.failures + |attempts| < threshold ==> FailedAll(b, threshold, attempts).openedAt == 0
  {
    if attempts != [] {
      FailedAllCounts(b, threshold, attempts[..|attempts| - 1]);
    }
  }

  /** What the breaker's history gains when `attempts` all fail. */
  function Records(attempts: seq<Attempt>): seq<Record>
  {
    if attempts == [] then []
    else Records(attempts[..|attempts| - 1]) + [Record.Failure(attempts[|attempts| - 1].at)]
  }

  lemma {:induction false} FailedAllExtendsHistory(history: seq<Record>, threshold: nat, attempts: seq<Attempt>)
    ensures FailedAll(After(history, threshold), threshold, attempts) == After(history + Records(attempts), threshold)
  {
    if attempts == [] {
      assert history + Records(attempts) == history;
    } else {
      var front := attempts[..|attempts| - 1];
      FailedAllExtendsHistory(history, threshold, front);
      assert (history + Records(attempts))[..|history + Records(attempts)| - 1] == history + Records(front);
    }
  }

  /** An open breaker answers 503 without sending, and stays as it is. */
  lemma OpenBreakerRefuses(b: Breaker, threshold: nat, openSecs: int, now: int, attempts: seq<Attempt>)
    requires |attempts| == MAX_ATTEMPTS && Open(b, threshold, openSecs, now)
    ensures MdmOutcome(b, threshold, openSecs, now, attempts) == Outcome(b, Passed(503), 0)
    ensures AiOutcome(b, threshold, openSecs, now, attempts) == Outcome(b, Refused(503), 0)
  {
  }

  /** Retried are exactly network errors and the statuses from 500 to 599. */
  lemma RetriesExactly(a: Attempt)
    ensures Retryable(a) <==> (a.reply.Status? ==> 500 <= a.reply.code <= 599)
  {
  }

  /** A call past the breaker either stops at the first reply that is not a failure, leaving
      the breaker reset, or fails three times, adds exactly three failures and ends with the
      last of them. */
  lemma MdmCallEndsOneOfTwoWays(b: Breaker, threshold: nat, openSecs: int, now: int, attempts: seq<Attempt>)
    requires |attempts| == MAX_ATTEMPTS && !Open(b, threshold, openSecs, now)
    ensures var o := MdmOutcome(b, threshold, openSecs, now, attempts);
            1 <= o.sends <= 3
            && (forall j | 0 <= j < o.sends - 1 :: Retryable(attempts[j]))
            && (if Retryable(attempts[o.sends - 1])
                then o.sends == 3 && o.breaker.failures == b.failures + 3 && o.breaker == FailedAll(b, threshold, attempts)
                     && o.ending == if attempts[2].reply.NetworkError? then NetworkFailure else Passed(attempts[2].reply.code)
                else o.breaker == Breaker(0, 0) && o.ending == Passed(attempts[o.sends - 1].reply.code))
  {
    FailedAllCounts(b, threshold, attempts);
  }

  /** The same for the AI service. A 2xx resets the breaker and passes its JSON on, or is refused
      with 502; another reply that is not retried is refused with its code and records nothing; and
      three failures add exactly three and are refused with the last code, or 502. */
  lemma AiCallEndsOneOfThreeWays(b: Breaker, threshold: nat, openSecs: int, now: int, attempts: seq<Attempt>)
    requires |attempts| == MAX_ATTEMPTS && !Open(b, threshold, openSecs, now)
    ensures var o := AiOutcome(b, threshold, openSecs, now, attempts);
            1 <= o.sends <= 3
            && (forall j | 0 <= j < o.sends - 1 :: Retryable(attempts[j]))
            && (var reply := attempts[o.sends - 1].reply;
                if Retryable(attempts[o.sends - 1]) then
                  o.sends == 3 && o.breaker.failures == b.failures + 3 && o.breaker == FailedAll(b, threshold, attempts)
                  && o.ending == Refused(if reply.NetworkError? then 502 else reply.code)
                else if 200 <= reply.code <= 299 then
                  o.breaker == Breaker(0, 0) && o.ending == if reply.jsonBody then Passed(reply.code) else Refused(502)
                else
                  o.breaker.failures == b.failures + o.sends - 1
                  && o.breaker == FailedAll(b, threshold, attempts[..o.sends - 1])
                  && o.ending == Refused(reply.code))
  {
    FailedAllCounts(b, threshold, attempts);
    FailedAllCounts(b, threshold, attempts[..FirstFinal(attempts)]);
  }

  /** The two proxies differ on a client error: one resets the breaker, the other leaves it as
      the earlier failures of the call made it. */
  lemma ClientErrorsDiffer(b: Breaker, threshold: nat, openSecs: int, now: int, attempts: seq<Attempt>, i: nat)
    requires |attempts| == MAX_ATTEMPTS && !Open(b, threshold, openSecs, now)
    requires i < MAX_ATTEMPTS && attempts[i].reply.Status? && 400 <= attempts[i].reply.code < 500
    requires forall j | 0 <= j < i :: Retryable(attempts[j])
    ensures var mdm, ai := MdmOutcome(b, threshold, openSecs, now, attempts), AiOutcome(b, threshold, openSecs, now, attempts);
            mdm.sends == ai.sends == i + 1
            && mdm.breaker == CLOSED && mdm.ending == Passed(attempts[i].reply.code)
            && ai.breaker.failures == b.failures + i && ai.ending == Refused(attempts[i].reply.code)
  {
    FirstFinalIs(attempts, i);
    FailedAllCounts(b, threshold, attempts[..i]);
  }

  lemma {:induction false} FirstFinalIs(attempts: seq<Attempt>, i: nat)
    requires i < |attempts| && !Retryable(attempts[i]) && forall j | 0 <= j < i :: Retryable(attempts[j])
    ensures FirstFinal(attempts) == i
  {
    if i > 0 {
      FirstFinalIs(attempts[1..], i - 1);
    }
  }

  // -- Sequential calls against a dead upstream ------------------------------------------

  datatype Call = Call(now: int, attempts: seq<Attempt>)

  /** Every attempt would fail, and the clock runs. */
  predicate Dead(calls: seq<Call>)
  {
    forall i | 0 <= i < |calls| ::
      |calls[i].attempts| == MAX_ATTEMPTS
      && forall j | 0 <= j < MAX_ATTEMPTS :: Retryable(calls[i].attempts[j]) && calls[i].attempts[j].at > 0
  }

  function AfterCalls(calls: seq<Call>, threshold: nat, openSecs: int): Breaker
    requires Dead(calls)
  {
    if calls == [] then CLOSED
    else
      var c := calls[|calls| - 1];
      MdmOutcome(AfterCalls(calls[..|calls| - 1], threshold, openSecs), threshold, openSecs, c.now, c.attempts).breaker
  }

  /** How often the call at position `i` reaches the upstream. */
  function Sends(calls: seq<Call>, i: nat, threshold: nat, openSecs: int): nat
    requires Dead(calls) && i < |calls|
  {
    MdmOutcome(AfterCalls(calls[..i], threshold, openSecs), threshold, openSecs, calls[i].now, calls[i].attempts).sends
  }

  /** How many calls it takes to reach the threshold, three failures each. */
  function CallsToTrip(threshold: nat): nat { (threshold + 2) / 3 }

  /** When the threshold-th failure is recorded. */
  function TripAt(calls: seq<Call>, threshold: nat): int
    requires Dead(calls) && 1 <= threshold && CallsToTrip(threshold) <= |calls|
  {
    calls[(threshold - 1) / 3].attempts[(threshold - 1) % 3].at
  }

  lemma FailThrice(b: Breaker, threshold: nat, attempts: seq<Attempt>)
    requires |attempts| == 3 && b.openedAt == 0 && forall j | 0 <= j < 3 :: attempts[j].at > 0
    requires b.failures < threshold <= b.failures + 3
    ensures FailedAll(b, threshold, attempts).openedAt == attempts[threshold - 1 - b.failures].at
  {
    var one, two := attempts[..1], attempts[..2];
    assert two[..1] == one && one[..0] == [] && attempts[..2] == two;
    assert FailedAll(b, threshold, one) == Failed(b, threshold, attempts[0].at);
    assert FailedAll(b, threshold, two) == Failed(FailedAll(b, threshold, one), threshold, attempts[1].at);
  }

  lemma AllRetryable(attempts: seq<Attempt>)
    requires forall j | 0 <= j < |attempts| :: Retryable(attempts[j])
    ensures FirstFinal(attempts) == |attempts|
  {
  }

  lemma {:induction false} BeforeTheTrip(calls: seq<Call>, threshold: nat, openSecs: int)
    requires Dead(calls) && 3 * |calls| < threshold
    ensures AfterCalls(calls, threshold, openSecs) == Breaker(3 * |calls|, 0)
  {
    if calls != [] {
      var front, c := calls[..|calls| - 1], calls[|calls| - 1];
      BeforeTheTrip(front, threshold, openSecs);
      AllRetryable(c.attempts);
      FailedAllCounts(AfterCalls(front, threshold, openSecs), threshold, c.attempts);
    }
  }

  lemma {:induction false} FromTheTripOn(calls: seq<Call>, threshold: nat, openSecs: int)
    requires Dead(calls) && 1 <= threshold && CallsToTrip(threshold) <= |calls|
    ensures var b := AfterCalls(calls, threshold, openSecs);
            b.failures >= threshold && b.openedAt == TripAt(calls, threshold)
  {
    var front, c := calls[..|calls| - 1], calls[|calls| - 1];
    AllRetryable(c.attempts);
    FailedAllCounts(AfterCalls(front, threshold, openSecs), threshold, c.attempts);
    if CallsToTrip(threshold) == |calls| {
      BeforeTheTrip(front, threshold, openSecs);
      FailThrice(AfterCalls(front, threshold, openSecs), threshold, c.attempts);
    } else {
      FromTheTripOn(front, threshold, openSecs);
      assert TripAt(front, threshold) == TripAt(calls, threshold);
    }
  }

  /** Against a dead upstream, exactly the first ceil(threshold / 3) calls send, three times
      each, and then none does until the open duration has passed since the trip; from then on
      every call sends three times again, because failing probes do not re-open the breaker. */
  lemma DeadUpstream(calls: seq<Call>, i: nat, threshold: nat, openSecs: int)
    requires Dead(calls) && i < |calls| && 1 <= threshold
    ensures Sends(calls, i, threshold, openSecs)
            == if i < CallsToTrip(threshold) then 3
               else if calls[i].now - TripAt(calls, threshold) < openSecs then 0
               else 3
  {
    AllRetryable(calls[i].attempts);
    if i < CallsToTrip(threshold) {
      BeforeTheTrip(calls[..i], threshold, openSecs);
    } else {
      FromTheTripOn(calls[..i], threshold, openSecs);
      assert TripAt(calls[..i], threshold) == TripAt(calls, threshold);
    }
  }

  function TotalSends(calls: seq<Call>, n: nat, threshold: nat, openSecs: int): nat
    requires Dead(calls) && n <= |calls|
  {
    if n == 0 then 0 else TotalSends(calls, n - 1, threshold, openSecs) + Sends(calls, n - 1, threshold, openSecs)
  }

  /** As configured (threshold 5, 30 seconds): six sends, then none within 30 seconds of the
      fifth failure. */
  lemma {:induction false} SixSends(calls: seq<Call>, n: nat)
    requires Dead(calls) && 2 <= n <= |calls|
    requires forall i | 2 <= i < n :: calls[i].now - calls[1].attempts[1].at < 30
    ensures TotalSends(calls, n, 5, 30) == 6
  {
    DeadUpstream(calls, n - 1, 5, 30);
    if n == 2 {
      DeadUpstream(calls, 0, 5, 30);
      assert TotalSends(calls, 1, 5, 30) == TotalSends(calls, 0, 5, 30) + Sends(calls, 0, 5, 30);
    } else {
      SixSends(calls, n - 1);
    }
  }
}
