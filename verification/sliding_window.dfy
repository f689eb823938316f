/** Sliding-window admission, independent of any store: a request is admitted exactly when
    fewer than its limit of earlier admissions of its key lie less than one window in the past.
    Both limiters of the gateway are proved to make these decisions. */
module SlidingWindow {

  /** What reaches a limiter. `Query` asks for the remaining budget and admits nothing. */
  datatype Event =
    | Request(key: string, now: int, limit: nat, member: nat)
    | Query(key: string, now: int)

  type Trace = seq<Event>

  /** The number of elements of `ts` in the half-open interval [lo, hi). */
  function CountIn(ts: seq<int>, lo: int, hi: int): nat
  {
    if ts == [] then 0
    else CountIn(ts[..|ts| - 1], lo, hi) + (if lo <= ts[|ts| - 1] < hi then 1 else 0)
  }

  /** Admissions less than one window old at `now`. */
  function LiveCount(accepted: seq<int>, now: int, window: nat): nat
  {
    CountIn(accepted, now - window + 1, now + 1)
  }

  predicate Clocked(trace: Trace)
  {
    forall i, j | 0 <= i <= j < |trace| :: trace[i].now <= trace[j].now
  }

  predicate Admitting(accepted: seq<int>, e: Event, key: string, window: nat)
  {
    e.Request? && e.key == key && LiveCount(accepted, e.now, window) < e.limit
  }

  /** The times of the admitted requests of `key`, oldest first. */
  function Accepted(trace: Trace, key: string, window: nat): seq<int>
  {
    if trace == [] then []
    else
      AfterEvent(Accepted(trace[..|trace| - 1], key, window), trace[|trace| - 1], key, window)
  }

  /** Whether the request at position `i` is admitted. */
  predicate Admits(trace: Trace, i: nat, window: nat)
    requires i < |trace|
  {
    Admitting(Accepted(trace[..i], trace[i].key, window), trace[i], trace[i].key, window)
  }

  /** No element of `ts` lies after `now`. */
  predicate NotAfter(ts: seq<int>, now: int)
  {
    forall i | 0 <= i < |ts| :: ts[i] <= now
  }

  lemma CountAppend(ts: seq<int>, x: int, lo: int, hi: int)
    ensures CountIn(ts + [x], lo, hi) == CountIn(ts, lo, hi) + (if lo <= x < hi then 1 else 0)
  {
    assert (ts + [x])[..|ts|] == ts;
  }

  lemma {:induction false} CountMonotone(ts: seq<int>, lo: int, hi: int, lo': int, hi': int)
    requires forall i | 0 <= i < |ts| && lo <= ts[i] < hi :: lo' <= ts[i] < hi'
    ensures CountIn(ts, lo, hi) <= CountIn(ts, lo', hi')
  {
    if ts != [] {
      CountMonotone(ts[..|ts| - 1], lo, hi, lo', hi');
    }
  }

  lemma {:induction false} CountAll(ts: seq<int>, lo: int, hi: int)
    ensures CountIn(ts, lo, hi) <= |ts|
    ensures (forall i | 0 <= i < |ts| :: lo <= ts[i] < hi) ==> CountIn(ts, lo, hi) == |ts|
    ensures (forall i | 0 <= i < |ts| :: !(lo <= ts[i] < hi)) ==> CountIn(ts, lo, hi) == 0
  {
    if ts != [] {
      CountAll(ts[..|ts| - 1], lo, hi);
    }
  }

  lemma {:induction false} AcceptedNotAfter(trace: Trace, key: string, window: nat, now: int)
    requires forall i | 0 <= i < |trace| :: trace[i].now <= now
    ensures NotAfter(Accepted(trace, key, window), now)
  {
    if trace != [] {
      AcceptedNotAfter(trace[..|trace| - 1], key, window, now);
    }
  }

  /** The admissions of a key after one more event. */
  function AfterEvent(before: seq<int>, e: Event, key: string, window: nat): seq<int>
  {
    if Admitting(before, e, key, window) then before + [e.now] else before
  }

  lemma BoundStep(before: seq<int>, e: Event, key: string, window: nat, limit: nat, start: int)
    requires NotAfter(before, e.now)
    requires e.Request? && e.key == key ==> e.limit <= limit
    requires CountIn(before, start, start + window) <= limit
    ensures CountIn(AfterEvent(before, e, key, window), start, start + window) <= limit
  {
    if Admitting(before, e, key, window) {
      CountAppend(before, e.now, start, start + window);
      if start <= e.now < start + window {
        CountMonotone(before, start, start + window, e.now - window + 1, e.now + 1);
      }
    }
  }

  /** No half-open interval one window long holds more admissions of a key than the largest
      limit its requests carry, on every run of a clock that never goes back. */
  lemma {:induction false} WindowBound(trace: Trace, key: string, window: nat, limit: nat, start: int)
    requires Clocked(trace)
    requires forall i | 0 <= i < |trace| && trace[i].Request? && trace[i].key == key :: trace[i].limit <= limit
    ensures CountIn(Accepted(trace, key, window), start, start + window) <= limit
  {
    if trace != [] {
      var front, e := trace[..|trace| - 1], trace[|trace| - 1];
      WindowBound(front, key, window, limit, start);
      AcceptedNotAfter(front, key, window, e.now);
      BoundStep(Accepted(front, key, window), e, key, window, limit, start);
    }
  }

  /** A request is throttled exactly when `limit` admissions of its key, all less than one
      window old, stand in its way. */
  lemma RejectsOnlyAtTheLimit(trace: Trace, i: nat, window: nat)
    requires Clocked(trace) && i < |trace| && trace[i].Request?
    requires forall j | 0 <= j < i && trace[j].Request? && trace[j].key == trace[i].key :: trace[j].limit == trace[i].limit
    ensures !Admits(trace, i, window) <==>
            CountIn(Accepted(trace[..i], trace[i].key, window), trace[i].now - window + 1, trace[i].now + 1)
              == trace[i].limit
  {
    var t := trace[i].now;
    WindowBound(trace[..i], trace[i].key, window, trace[i].limit, t - window + 1);
  }

  /** A burst: requests of one key, with one limit, at one instant. */
  predicate Simultaneous(trace: Trace, key: string, now: int, limit: nat)
  {
    forall i | 0 <= i < |trace| ::
      trace[i].Request? && trace[i].key == key && trace[i].now == now && trace[i].limit == limit
  }

  /** `n` admissions, all at one instant. */
  predicate AllAt(accepted: seq<int>, now: int, n: nat)
  {
    |accepted| == n && forall i | 0 <= i < n :: accepted[i] == now
  }

  lemma BurstStep(before: seq<int>, e: Event, n: nat, window: nat)
    requires 0 < window && e.Request? && AllAt(before, e.now, if n <= e.limit then n else e.limit)
    ensures Admitting(before, e, e.key, window) <==> n < e.limit
    ensures AllAt(AfterEvent(before, e, e.key, window), e.now, if n + 1 <= e.limit then n + 1 else e.limit)
  {
    CountAll(before, e.now - window + 1, e.now + 1);
  }

  /** The bound is attained: of any burst, the first `limit` requests are admitted. */
  lemma {:induction false} BurstAdmitted(trace: Trace, key: string, now: int, limit: nat, window: nat)
    requires 0 < window && Simultaneous(trace, key, now, limit)
    ensures AllAt(Accepted(trace, key, window), now, if |trace| <= limit then |trace| else limit)
  {
    if trace != [] {
      var front, e := trace[..|trace| - 1], trace[|trace| - 1];
      BurstAdmitted(front, key, now, limit, window);
      BurstStep(Accepted(front, key, window), e, |front|, window);
    }
  }
}
