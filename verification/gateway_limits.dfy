/** The gateway's two rate-limit middlewares: Redis first, the in-process limiter when the
    Redis call fails, whether before or after the script has run. */
module GatewayLimits {
  import opened SlidingWindow
  import Memory = MemoryLimiter
  import Redis = RedisLimiter

  const LIMIT := 100
  const OP_COST_LIMIT := 10
  const REDIS_LIMIT := 100
  const WINDOW_SECS := 60
  const WINDOW := WINDOW_SECS * 1000

  /** What happens at a limiter, at a reading of that limiter's own clock: the script runs and its
      answer decides, the script runs and its answer is lost, or the fallback decides. A request is
      an answer, or a fallback that an unanswered script run of its own may precede by any time. */
  datatype Moment =
    | Answered(key: string, now: int, member: nat)
    | Unanswered(key: string, now: int, member: nat)
    | Fallback(key: string, now: int, limit: nat)

  datatype State = State(keys: Redis.Keys, requests: Memory.Windows)

  const FRESH := State(map[], map[])

  /** What both limiters then hold, and whether a request is let through. */
  function Handle(s: State, e: Moment, redisLimit: nat, window: nat): (State, bool)
  {
    match e
    case Answered(key, now, member) =>
      var (k, allowed) := Redis.LuaCheck(Redis.KeyOf(s.keys, key), now, window, redisLimit, member);
      (State(s.keys[key := k], s.requests), allowed)
    case Unanswered(key, now, member) =>
      (State(s.keys[key := Redis.LuaCheck(Redis.KeyOf(s.keys, key), now, window, redisLimit, member).0], s.requests), false)
    case Fallback(key, now, limit) =>
      var (entries, allowed) := Memory.CheckEntries(Memory.EntriesOf(s.requests, key), now, limit, window);
      (State(s.keys, s.requests[key := entries]), allowed)
  }

  function HandleAll(s: State, run: seq<Moment>, redisLimit: nat, window: nat): State
  {
    if run == [] then s else Handle(HandleAll(s, run[..|run| - 1], redisLimit, window), run[|run| - 1], redisLimit, window).0
  }

  /** How the Redis call of a request goes: it answers, it never reaches the script (also when
      no Redis is configured), or the script runs and the answer is lost. */
  datatype Fault = Healthy | NeverRan | LostReply

  /** A request; the fallback reads its clock only when it comes to that. */
  datatype Arrival = Arrival(key: string, redisNow: int, member: nat, fault: Fault, memoryNow: int, memoryLimit: nat)

  /** What happens at the limiters up to a request's decision. */
  function UpToDecision(a: Arrival, meanwhile: seq<Moment>): (seq<Moment>, Moment)
  {
    match a.fault
    case Healthy => ([], Answered(a.key, a.redisNow, a.member))
    case NeverRan => (meanwhile, Fallback(a.key, a.memoryNow, a.memoryLimit))
    case LostReply => ([Unanswered(a.key, a.redisNow, a.member)] + meanwhile, Fallback(a.key, a.memoryNow, a.memoryLimit))
  }

  class Gateway {
    const redis: Redis.RedisRateLimiter
    const memory: Memory.InMemoryRateLimiter

    constructor ()
      ensures fresh(redis) && fresh(memory)
      ensures redis.limit == 100 && redis.windowSecs == 60
      ensures redis.keys == map[] && memory.requests == map[]
    {
      redis := new Redis.RedisRateLimiter(REDIS_LIMIT, WINDOW_SECS);
      memory := new Memory.InMemoryRateLimiter();
    }

    function Held(): State
      reads redis, memory
    {
      State(redis.keys, memory.requests)
    }

    /** One moment of some request. */
    method Serve(e: Moment) returns (admitted: bool)
      requires redis.windowSecs == WINDOW_SECS
      modifies redis, memory
      ensures (Held(), admitted) == Handle(old(Held()), e, redis.limit, WINDOW)
    {
      match e {
        case Answered(key, now, member) => admitted := redis.Check(key, now, member);
        case Unanswered(key, now, member) =>
          var _ := redis.Check(key, now, member);
          admitted := false;
        case Fallback(key, now, limit) => admitted := memory.Check(key, now, limit, WINDOW_SECS * 1000);
      }
    }

    /** What other requests do between a failed Redis call and its fallback. */
    method Elapse(meanwhile: seq<Moment>)
      requires redis.windowSecs == WINDOW_SECS
      modifies redis, memory
      ensures Held() == HandleAll(old(Held()), meanwhile, redis.limit, WINDOW)
    {
      for i := 0 to |meanwhile|
        invariant Held() == HandleAll(old(Held()), meanwhile[..i], redis.limit, WINDOW)
      {
        assert meanwhile[..i + 1][..i] == meanwhile[..i];
        var _ := Serve(meanwhile[i]);
      }
      assert meanwhile[..|meanwhile|] == meanwhile;
    }

    /** Redis, then the fallback with the middleware's own in-memory limit. */
    method Admit(a: Arrival, meanwhile: seq<Moment>) returns (admitted: bool)
      requires redis.windowSecs == WINDOW_SECS
      modifies redis, memory
      ensures var (before, decision) := UpToDecision(a, meanwhile);
              (Held(), admitted) == Handle(HandleAll(old(Held()), before, redis.limit, 60_000), decision, redis.limit, 60_000)
      ensures a.fault == Healthy ==>
                memory.requests == old(memory.requests)
                && admitted == Redis.LuaCheck(Redis.KeyOf(old(redis.keys), a.key), a.redisNow, 60_000, redis.limit, a.member).1
    {
      HandleAllConcat(Held(), [Unanswered(a.key, a.redisNow, a.member)], meanwhile, redis.limit, WINDOW);
      HandleAllOne(Held(), Unanswered(a.key, a.redisNow, a.member), redis.limit, WINDOW);
      if a.fault != NeverRan {
        var answer := redis.Check(a.key, a.redisNow, a.member);
        if a.fault == Healthy {
          return answer;
        }
      }
      Elapse(meanwhile);
      admitted := memory.Check(a.key, a.memoryNow, a.memoryLimit, WINDOW_SECS * 1000);
    }

    method RateLimit(ip: string, redisNow: int, member: nat, fault: Fault, memoryNow: int, meanwhile: seq<Moment>)
      returns (admitted: bool)
      requires redis.windowSecs == WINDOW_SECS
      modifies redis, memory
      ensures var (before, decision) := UpToDecision(Arrival(ip, redisNow, member, fault, memoryNow, 100), meanwhile);
              (Held(), admitted) == Handle(HandleAll(old(Held()), before, redis.limit, 60_000), decision, redis.limit, 60_000)
    {
      admitted := Admit(Arrival(ip, redisNow, member, fault, memoryNow, LIMIT), meanwhile);
    }

    method OperationCost(caller: string, redisNow: int, member: nat, fault: Fault, memoryNow: int, meanwhile: seq<Moment>)
      returns (admitted: bool)
      requires redis.windowSecs == WINDOW_SECS
      modifies redis, memory
      ensures var (before, decision) := UpToDecision(Arrival("op:" + caller, redisNow, member, fault, memoryNow, 10), meanwhile);
              (Held(), admitted) == Handle(HandleAll(old(Held()), before, redis.limit, 60_000), decision, redis.limit, 60_000)
    {
      admitted := Admit(Arrival("op:" + caller, redisNow, member, fault, memoryNow, OP_COST_LIMIT), meanwhile);
    }
  }

  lemma HandleAllOne(s: State, e: Moment, redisLimit: nat, window: nat)
    ensures HandleAll(s, [e], redisLimit, window) == Handle(s, e, redisLimit, window).0
  {
    assert [e][..0] == [];
  }

  lemma {:induction false} HandleAllConcat(s: State, a: seq<Moment>, b: seq<Moment>, redisLimit: nat, window: nat)
    ensures HandleAll(s, a + b, redisLimit, window) == HandleAll(HandleAll(s, a, redisLimit, window), b, redisLimit, window)
  {
    if b == [] {
      assert a + b == a;
    } else {
      HandleAllConcat(s, a, b[..|b| - 1], redisLimit, window);
      assert (a + b)[..|a + b| - 1] == a + b[..|b| - 1];
    }
  }

  // -- Runs ------------------------------------------------------------------------------

  /** Whether the moment `e` after `front` lets a request through. */
  predicate LetThrough(front: seq<Moment>, e: Moment, redisLimit: nat, window: nat)
  {
    Handle(HandleAll(FRESH, front, redisLimit, window), e, redisLimit, window).1
  }

  /** The times at which requests of a key were let through on an answer from Redis. */
  function ByRedis(run: seq<Moment>, key: string, redisLimit: nat, window: nat): seq<int>
  {
    if run == [] then []
    else
      var front, e := run[..|run| - 1], run[|run| - 1];
      ByRedis(front, key, redisLimit, window)
      + (if e.Answered? && e.key == key && LetThrough(front, e, redisLimit, window) then [e.now] else [])
  }

  /** The times at which they were let through by the fallback. */
  function ByFallback(run: seq<Moment>, key: string, redisLimit: nat, window: nat): seq<int>
  {
    if run == [] then []
    else
      var front, e := run[..|run| - 1], run[|run| - 1];
      ByFallback(front, key, redisLimit, window)
      + (if e.Fallback? && e.key == key && LetThrough(front, e, redisLimit, window) then [e.now] else [])
  }

  /** What a limiter sees of a moment that concerns it, and of a run. */
  function ForRedis(e: Moment, redisLimit: nat): Event
    requires !e.Fallback?
  {
    Request(e.key, e.now, redisLimit, e.member)
  }

  function ForMemory(e: Moment): Event
    requires e.Fallback?
  {
    Request(e.key, e.now, e.limit, 0)
  }

  function RedisPart(run: seq<Moment>, redisLimit: nat): Trace
  {
    if run == [] then []
    else
      var e := run[|run| - 1];
      RedisPart(run[..|run| - 1], redisLimit) + (if e.Fallback? then [] else [ForRedis(e, redisLimit)])
  }

  function MemoryPart(run: seq<Moment>): Trace
  {
    if run == [] then []
    else
      var e := run[|run| - 1];
      MemoryPart(run[..|run| - 1]) + (if e.Fallback? then [ForMemory(e)] else [])
  }

  /** Each limiter's own clock never goes back, and the script's members are fresh. Nothing relates
      the two clocks. */
  ghost predicate Timely(run: seq<Moment>, redisLimit: nat)
  {
    Clocked(RedisPart(run, redisLimit)) && Redis.FreshMembers(RedisPart(run, redisLimit)) && Clocked(MemoryPart(run))
  }

  lemma TimelyFront(run: seq<Moment>, redisLimit: nat)
    requires run != [] && Timely(run, redisLimit)
    ensures Timely(run[..|run| - 1], redisLimit)
  {
    var r, m := RedisPart(run[..|run| - 1], redisLimit), MemoryPart(run[..|run| - 1]);
    assert forall i | 0 <= i < |r| :: RedisPart(run, redisLimit)[i] == r[i];
    assert forall i | 0 <= i < |m| :: MemoryPart(run)[i] == m[i];
  }

  lemma RedisAfterOneMore(trace: Trace, e: Event, window: nat)
    requires e.Request?
    ensures Redis.After(trace + [e], window)
            == Redis.After(trace, window)[e.key := Redis.LuaCheck(Redis.KeyOf(Redis.After(trace, window), e.key), e.now, window, e.limit, e.member).0]
  {
    assert (trace + [e])[..|trace|] == trace;
  }

  lemma MemoryAfterOneMore(trace: Trace, e: Event, window: nat)
    requires e.Request?
    ensures Memory.After(trace + [e], window)
            == Memory.After(trace, window)[e.key := Memory.CheckEntries(Memory.EntriesOf(Memory.After(trace, window), e.key), e.now, e.limit, window).0]
  {
    assert (trace + [e])[..|trace|] == trace;
  }

  /** Each limiter's state depends only on what it saw. */
  lemma {:induction false} RedisState(run: seq<Moment>, redisLimit: nat, window: nat)
    ensures HandleAll(FRESH, run, redisLimit, window).keys == Redis.After(RedisPart(run, redisLimit), window)
  {
    if run != [] {
      var front, e := run[..|run| - 1], run[|run| - 1];
      RedisState(front, redisLimit, window);
      if e.Fallback? {
        assert RedisPart(run, redisLimit) == RedisPart(front, redisLimit);
      } else {
        RedisAfterOneMore(RedisPart(front, redisLimit), ForRedis(e, redisLimit), window);
      }
    }
  }

  lemma {:induction false} MemoryState(run: seq<Moment>, redisLimit: nat, window: nat)
    ensures HandleAll(FRESH, run, redisLimit, window).requests == Memory.After(MemoryPart(run), window)
  {
    if run != [] {
      var front, e := run[..|run| - 1], run[|run| - 1];
      MemoryState(front, redisLimit, window);
      if e.Fallback? {
        MemoryAfterOneMore(MemoryPart(front), ForMemory(e), window);
      } else {
        assert MemoryPart(run) == MemoryPart(front);
      }
    }
  }

  /** The reference decision on a moment after `front`. */
  predicate ReferenceAdmits(front: seq<Moment>, e: Moment, redisLimit: nat, window: nat)
  {
    match e
    case Answered(key, _, _) => Admitting(Accepted(RedisPart(front, redisLimit), key, window), ForRedis(e, redisLimit), key, window)
    case Unanswered(_, _, _) => false
    case Fallback(key, _, _) => Admitting(Accepted(MemoryPart(front), key, window), ForMemory(e), key, window)
  }

  /** The gateway's decision at the newest moment is the reference decision. */
  lemma DecisionsRefine(run: seq<Moment>, redisLimit: nat, window: nat)
    requires run != [] && Timely(run, redisLimit)
    ensures LetThrough(run[..|run| - 1], run[|run| - 1], redisLimit, window)
            == ReferenceAdmits(run[..|run| - 1], run[|run| - 1], redisLimit, window)
  {
    var front, e := run[..|run| - 1], run[|run| - 1];
    if e.Answered? {
      var r, all := RedisPart(front, redisLimit), RedisPart(run, redisLimit);
      RedisState(front, redisLimit, window);
      RedisPartLimits(run, redisLimit);
      assert all[..|r|] == r && all[|r|] == ForRedis(e, redisLimit);
      Redis.LuaRefinesReference(all, |r|, window);
    } else if e.Fallback? {
      var m, all := MemoryPart(front), MemoryPart(run);
      MemoryState(front, redisLimit, window);
      assert all[..|m|] == m && all[|m|] == ForMemory(e);
      Memory.MemoryRefinesReference(all, |m|, window);
    }
  }

  lemma AcceptedExtends(trace: Trace, e: Event, key: string, window: nat)
    ensures Accepted(trace + [e], key, window) == AfterEvent(Accepted(trace, key, window), e, key, window)
  {
    assert (trace + [e])[..|trace|] == trace;
  }

  /** How what Redis has recorded grows with one moment. */
  lemma RedisRecords(run: seq<Moment>, key: string, redisLimit: nat, window: nat)
    requires run != []
    ensures var front, e := run[..|run| - 1], run[|run| - 1];
            var before := Accepted(RedisPart(front, redisLimit), key, window);
            Accepted(RedisPart(run, redisLimit), key, window)
            == if e.Fallback? then before else AfterEvent(before, ForRedis(e, redisLimit), key, window)
  {
    var front, e := run[..|run| - 1], run[|run| - 1];
    if e.Fallback? {
      assert RedisPart(run, redisLimit) == RedisPart(front, redisLimit);
    } else {
      AcceptedExtends(RedisPart(front, redisLimit), ForRedis(e, redisLimit), key, window);
    }
  }

  lemma MemoryRecords(run: seq<Moment>, key: string, window: nat)
    requires run != []
    ensures var front, e := run[..|run| - 1], run[|run| - 1];
            var before := Accepted(MemoryPart(front), key, window);
            Accepted(MemoryPart(run), key, window)
            == if e.Fallback? then AfterEvent(before, ForMemory(e), key, window) else before
  {
    var front, e := run[..|run| - 1], run[|run| - 1];
    if e.Fallback? {
      AcceptedExtends(MemoryPart(front), ForMemory(e), key, window);
    } else {
      assert MemoryPart(run) == MemoryPart(front);
    }
  }

  /** What the fallback lets through is exactly what its list records. */
  lemma {:induction false} FallbackRecordsItsOwn(run: seq<Moment>, key: string, redisLimit: nat, window: nat)
    requires Timely(run, redisLimit)
    ensures ByFallback(run, key, redisLimit, window) == Accepted(MemoryPart(run), key, window)
  {
    if run != [] {
      TimelyFront(run, redisLimit);
      FallbackRecordsItsOwn(run[..|run| - 1], key, redisLimit, window);
      DecisionsRefine(run, redisLimit, window);
      MemoryRecords(run, key, window);
    }
  }

  lemma CountNoLess(recorded: seq<int>, e: Event, key: string, window: nat, lo: int, hi: int)
    ensures CountIn(AfterEvent(recorded, e, key, window), lo, hi) >= CountIn(recorded, lo, hi)
  {
    CountAppend(recorded, e.now, lo, hi);
  }

  /** Every request is charged to the window of the limiter that let it through; the script's
      window may also hold requests that it never got to let through. */
  lemma {:induction false} AdmissionsAreCharged(run: seq<Moment>, key: string, redisLimit: nat, window: nat, lo: int, hi: int)
    requires Timely(run, redisLimit)
    ensures CountIn(ByRedis(run, key, redisLimit, window), lo, hi) <= CountIn(Accepted(RedisPart(run, redisLimit), key, window), lo, hi)
  {
    if run != [] {
      var front, e := run[..|run| - 1], run[|run| - 1];
      TimelyFront(run, redisLimit);
      AdmissionsAreCharged(front, key, redisLimit, window, lo, hi);
      DecisionsRefine(run, redisLimit, window);
      RedisRecords(run, key, redisLimit, window);
      var before, recorded := ByRedis(front, key, redisLimit, window), Accepted(RedisPart(front, redisLimit), key, window);
      if e.Answered? && e.key == key && LetThrough(front, e, redisLimit, window) {
        CountAppend(before, e.now, lo, hi);
        CountAppend(recorded, e.now, lo, hi);
      } else {
        assert before + [] == before;
        if !e.Fallback? {
          CountNoLess(recorded, ForRedis(e, redisLimit), key, window, lo, hi);
        }
      }
    }
  }

  /** The fallbacks of a key all work with at most `limit`. */
  predicate FallbacksWithin(run: seq<Moment>, key: string, limit: nat)
  {
    forall i | 0 <= i < |run| && run[i].Fallback? && run[i].key == key :: run[i].limit <= limit
  }

  lemma {:induction false} MemoryPartLimits(run: seq<Moment>, key: string, limit: nat)
    requires FallbacksWithin(run, key, limit)
    ensures forall i | 0 <= i < |MemoryPart(run)| && MemoryPart(run)[i].key == key ::
              MemoryPart(run)[i].Request? && MemoryPart(run)[i].limit <= limit
  {
    if run != [] {
      MemoryPartLimits(run[..|run| - 1], key, limit);
    }
  }

  lemma {:induction false} RedisPartLimits(run: seq<Moment>, redisLimit: nat)
    ensures forall i | 0 <= i < |RedisPart(run, redisLimit)| ::
              RedisPart(run, redisLimit)[i].Request? && RedisPart(run, redisLimit)[i].limit == redisLimit
  {
    if run != [] {
      RedisPartLimits(run[..|run| - 1], redisLimit);
    }
  }

  lemma ByRedisBounded(run: seq<Moment>, key: string, redisLimit: nat, window: nat, start: int)
    requires Timely(run, redisLimit)
    ensures CountIn(ByRedis(run, key, redisLimit, window), start, start + window) <= redisLimit
  {
    RedisPartLimits(run, redisLimit);
    WindowBound(RedisPart(run, redisLimit), key, window, redisLimit, start);
    AdmissionsAreCharged(run, key, redisLimit, window, start, start + window);
  }

  lemma ByFallbackBounded(run: seq<Moment>, key: string, redisLimit: nat, memoryLimit: nat, window: nat, start: int)
    requires Timely(run, redisLimit) && FallbacksWithin(run, key, memoryLimit)
    ensures CountIn(ByFallback(run, key, redisLimit, window), start, start + window) <= memoryLimit
  {
    MemoryPartLimits(run, key, memoryLimit);
    WindowBound(MemoryPart(run), key, window, memoryLimit, start);
    FallbackRecordsItsOwn(run, key, redisLimit, window);
  }

  /** The requests of a key let through in one window, which begins at `start` on the script's
      clock and at `start'` on the fallback's. */
  function LetThroughIn(run: seq<Moment>, key: string, redisLimit: nat, window: nat, start: int, start': int): nat
  {
    CountIn(ByRedis(run, key, redisLimit, window), start, start + window)
    + CountIn(ByFallback(run, key, redisLimit, window), start', start' + window)
  }

  /** With Redis failing at arbitrary moments and for arbitrarily long, a key is let through at
      most the Redis limit plus the in-process limit times in any window. */
  lemma FailoverBound(run: seq<Moment>, key: string, redisLimit: nat, memoryLimit: nat, window: nat, start: int, start': int)
    requires Timely(run, redisLimit) && FallbacksWithin(run, key, memoryLimit)
    ensures LetThroughIn(run, key, redisLimit, window, start, start') <= redisLimit + memoryLimit
  {
    ByRedisBounded(run, key, redisLimit, window, start);
    ByFallbackBounded(run, key, redisLimit, memoryLimit, window, start');
  }

  /** As configured, a client is let through at most 200 times in any minute. */
  lemma ClientBound(run: seq<Moment>, key: string, start: int, start': int)
    requires Timely(run, REDIS_LIMIT) && FallbacksWithin(run, key, LIMIT)
    ensures LetThroughIn(run, key, REDIS_LIMIT, 60_000, start, start') <= 200
  {
    FailoverBound(run, key, REDIS_LIMIT, LIMIT, 60_000, start, start');
  }

  /** As configured, a caller's operations are let through at most 110 times in any minute. */
  lemma OperationBound(run: seq<Moment>, key: string, start: int, start': int)
    requires Timely(run, REDIS_LIMIT) && FallbacksWithin(run, key, OP_COST_LIMIT)
    ensures LetThroughIn(run, key, REDIS_LIMIT, 60_000, start, start') <= 110
  {
    FailoverBound(run, key, REDIS_LIMIT, OP_COST_LIMIT, 60_000, start, start');
  }

  // -- From a request to its moments -----------------------------------------------------

  lemma {:induction false} PartsConcat(a: seq<Moment>, b: seq<Moment>, redisLimit: nat)
    ensures RedisPart(a + b, redisLimit) == RedisPart(a, redisLimit) + RedisPart(b, redisLimit)
    ensures MemoryPart(a + b) == MemoryPart(a) + MemoryPart(b)
  {
    if b == [] {
      assert a + b == a;
    } else {
      PartsConcat(a, b[..|b| - 1], redisLimit);
      assert (a + b)[..|a + b| - 1] == a + b[..|b| - 1];
    }
  }

  lemma PartsOfOne(e: Moment, redisLimit: nat)
    ensures RedisPart([e], redisLimit) == if e.Fallback? then [] else [Request(e.key, e.now, redisLimit, e.member)]
    ensures MemoryPart([e]) == if e.Fallback? then [Request(e.key, e.now, e.limit, 0)] else []
  {
    assert [e][..0] == [];
  }

  /** What the gateway holds and answers when it has served `run` and then an arrival. */
  function Served(run: seq<Moment>, a: Arrival, meanwhile: seq<Moment>, redisLimit: nat, window: nat): (State, bool)
  {
    var (before, decision) := UpToDecision(a, meanwhile);
    Handle(HandleAll(HandleAll(FRESH, run, redisLimit, window), before, redisLimit, window), decision, redisLimit, window)
  }

  /** A decision after `run` and `before`, in terms of what the limiters have recorded. */
  lemma DecidedAfter(run: seq<Moment>, before: seq<Moment>, e: Moment, redisLimit: nat, window: nat)
    requires Timely(run + before + [e], redisLimit) && !e.Unanswered?
    ensures Handle(HandleAll(HandleAll(FRESH, run, redisLimit, window), before, redisLimit, window), e, redisLimit, window).1
            <==> if e.Answered? then LiveCount(Accepted(RedisPart(run + before, redisLimit), e.key, window), e.now, window) < redisLimit
                 else LiveCount(Accepted(MemoryPart(run + before), e.key, window), e.now, window) < e.limit
  {
    var all := run + before + [e];
    HandleAllConcat(FRESH, run, before, redisLimit, window);
    assert all[..|all| - 1] == run + before && all[|all| - 1] == e;
    DecisionsRefine(all, redisLimit, window);
  }

  /** While Redis answers, a request is let through exactly when fewer than the Redis limit of its
      key's recorded requests are less than one window old, and the fallback is left alone. */
  lemma HealthyIsDecidedByRedis(run: seq<Moment>, a: Arrival, meanwhile: seq<Moment>, redisLimit: nat, window: nat)
    requires a.fault == Healthy && Timely(run + [Answered(a.key, a.redisNow, a.member)], redisLimit)
    ensures Served(run, a, meanwhile, redisLimit, window).1
            <==> LiveCount(Accepted(RedisPart(run, redisLimit), a.key, window), a.redisNow, window) < redisLimit
    ensures Served(run, a, meanwhile, redisLimit, window).0.requests == HandleAll(FRESH, run, redisLimit, window).requests
    ensures Served(run, a, meanwhile, redisLimit, window).0.keys
            == Redis.After(RedisPart(run, redisLimit) + [Request(a.key, a.redisNow, redisLimit, a.member)], window)
  {
    var e := Answered(a.key, a.redisNow, a.member);
    assert run + [] == run;
    DecidedAfter(run, [], e, redisLimit, window);
    RedisState(run, redisLimit, window);
    RedisAfterOneMore(RedisPart(run, redisLimit), ForRedis(e, redisLimit), window);
  }

  /** When the script never ran, the request adds nothing to what Redis has recorded, and is let
      through exactly when fewer than its own limit of the fallback's are less than one window old. */
  lemma NeverRanIsDecidedByFallback(run: seq<Moment>, a: Arrival, meanwhile: seq<Moment>, redisLimit: nat, window: nat)
    requires a.fault == NeverRan && Timely(run + meanwhile + [Fallback(a.key, a.memoryNow, a.memoryLimit)], redisLimit)
    ensures Served(run, a, meanwhile, redisLimit, window).1
            <==> LiveCount(Accepted(MemoryPart(run) + MemoryPart(meanwhile), a.key, window), a.memoryNow, window) < a.memoryLimit
    ensures Served(run, a, meanwhile, redisLimit, window).0.keys
            == Redis.After(RedisPart(run, redisLimit) + RedisPart(meanwhile, redisLimit), window)
    ensures Served(run, a, meanwhile, redisLimit, window).0.requests
            == Memory.After(MemoryPart(run) + MemoryPart(meanwhile) + [Request(a.key, a.memoryNow, a.memoryLimit, 0)], window)
  {
    var e := Fallback(a.key, a.memoryNow, a.memoryLimit);
    DecidedAfter(run, meanwhile, e, redisLimit, window);
    PartsConcat(run, meanwhile, redisLimit);
    HandleAllConcat(FRESH, run, meanwhile, redisLimit, window);
    RedisState(run + meanwhile, redisLimit, window);
    MemoryState(run + meanwhile, redisLimit, window);
    MemoryAfterOneMore(MemoryPart(run + meanwhile), ForMemory(e), window);
  }

  /** When the script ran and its answer was lost, Redis has recorded that one request of it, and
      the fallback decides as before. */
  lemma LostReplyIsDecidedByFallback(run: seq<Moment>, a: Arrival, meanwhile: seq<Moment>, redisLimit: nat, window: nat)
    requires a.fault == LostReply
    requires Timely(run + ([Unanswered(a.key, a.redisNow, a.member)] + meanwhile) + [Fallback(a.key, a.memoryNow, a.memoryLimit)], redisLimit)
    ensures Served(run, a, meanwhile, redisLimit, window).1
            <==> LiveCount(Accepted(MemoryPart(run) + MemoryPart(meanwhile), a.key, window), a.memoryNow, window) < a.memoryLimit
    ensures Served(run, a, meanwhile, redisLimit, window).0.keys
            == Redis.After(RedisPart(run, redisLimit) + ([Request(a.key, a.redisNow, redisLimit, a.member)] + RedisPart(meanwhile, redisLimit)), window)
    ensures Served(run, a, meanwhile, redisLimit, window).0.requests
            == Memory.After(MemoryPart(run) + MemoryPart(meanwhile) + [Request(a.key, a.memoryNow, a.memoryLimit, 0)], window)
  {
    var asked, e := Unanswered(a.key, a.redisNow, a.member), Fallback(a.key, a.memoryNow, a.memoryLimit);
    var before := [asked] + meanwhile;
    DecidedAfter(run, before, e, redisLimit, window);
    PartsConcat(run, before, redisLimit);
    PartsConcat([asked], meanwhile, redisLimit);
    PartsOfOne(asked, redisLimit);
    assert [] + MemoryPart(meanwhile) == MemoryPart(meanwhile);
    HandleAllConcat(FRESH, run, before, redisLimit, window);
    RedisState(run + before, redisLimit, window);
    MemoryState(run + before, redisLimit, window);
    MemoryAfterOneMore(MemoryPart(run + before), ForMemory(e), window);
  }

  // -- When the bounds are attained ------------------------------------------------------

  /** Simultaneous requests of one key: `n` that Redis answers, their members numbered ... */
  function Answers(key: string, now: int, n: nat): seq<Moment>
  {
    if n == 0 then [] else Answers(key, now, n - 1) + [Answered(key, now, n - 1)]
  }

  /** ... and, after `run`, `n` that it does not. */
  function ThenFallbacks(run: seq<Moment>, key: string, now: int, limit: nat, n: nat): seq<Moment>
  {
    if n == 0 then run else ThenFallbacks(run, key, now, limit, n - 1) + [Fallback(key, now, limit)]
  }

  lemma FrontOf(run: seq<Moment>, e: Moment)
    ensures (run + [e])[..|run + [e]| - 1] == run && (run + [e])[|run + [e]| - 1] == e
  {
  }

  lemma FallbackAppended(run: seq<Moment>, key: string, now: int, limit: nat, redisLimit: nat)
    ensures var longer := run + [Fallback(key, now, limit)];
            RedisPart(longer, redisLimit) == RedisPart(run, redisLimit)
            && MemoryPart(longer) == MemoryPart(run) + [Request(key, now, limit, 0)]
  {
    FrontOf(run, Fallback(key, now, limit));
    assert RedisPart(run, redisLimit) + [] == RedisPart(run, redisLimit);
  }

  lemma FallbackNotByRedis(run: seq<Moment>, key: string, now: int, limit: nat, redisLimit: nat, window: nat)
    ensures ByRedis(run + [Fallback(key, now, limit)], key, redisLimit, window) == ByRedis(run, key, redisLimit, window)
  {
    FrontOf(run, Fallback(key, now, limit));
    assert ByRedis(run, key, redisLimit, window) + [] == ByRedis(run, key, redisLimit, window);
  }

  lemma AnswerAppended(run: seq<Moment>, e: Moment, redisLimit: nat)
    requires e.Answered?
    ensures RedisPart(run + [e], redisLimit) == RedisPart(run, redisLimit) + [ForRedis(e, redisLimit)]
    ensures MemoryPart(run + [e]) == MemoryPart(run)
  {
    FrontOf(run, e);
    assert MemoryPart(run) + [] == MemoryPart(run);
  }

  predicate Numbered(trace: Trace, key: string, now: int, limit: nat)
  {
    forall i | 0 <= i < |trace| :: trace[i] == Request(key, now, limit, i)
  }

  lemma {:induction false} AnswersSeen(key: string, now: int, n: nat, redisLimit: nat)
    ensures MemoryPart(Answers(key, now, n)) == []
    ensures |RedisPart(Answers(key, now, n), redisLimit)| == n
    ensures Numbered(RedisPart(Answers(key, now, n), redisLimit), key, now, redisLimit)
  {
    if n > 0 {
      AnswersSeen(key, now, n - 1, redisLimit);
      AnswerAppended(Answers(key, now, n - 1), Answered(key, now, n - 1), redisLimit);
    }
  }

  lemma {:induction false} AnswersAreBurst(key: string, now: int, n: nat)
    ensures |Answers(key, now, n)| == n && AnsweredBurst(Answers(key, now, n), key, now)
  {
    if n > 0 {
      AnswersAreBurst(key, now, n - 1);
    }
  }

  /** `n` equal requests. */
  predicate AllSame(trace: Trace, e: Event, n: nat)
  {
    |trace| == n && forall i | 0 <= i < n :: trace[i] == e
  }

  lemma OneMoreSame(trace: Trace, e: Event, n: nat)
    requires AllSame(trace, e, n)
    ensures AllSame(trace + [e], e, n + 1)
  {
  }

  lemma {:induction false} FallbacksSeen(run: seq<Moment>, key: string, now: int, limit: nat, n: nat, redisLimit: nat)
    requires MemoryPart(run) == []
    ensures RedisPart(ThenFallbacks(run, key, now, limit, n), redisLimit) == RedisPart(run, redisLimit)
    ensures AllSame(MemoryPart(ThenFallbacks(run, key, now, limit, n)), Request(key, now, limit, 0), n)
  {
    if n > 0 {
      var front := ThenFallbacks(run, key, now, limit, n - 1);
      FallbacksSeen(run, key, now, limit, n - 1, redisLimit);
      FallbackAppended(front, key, now, limit, redisLimit);
      OneMoreSame(MemoryPart(front), Request(key, now, limit, 0), n - 1);
    }
  }

  lemma {:induction false} FallbacksAreWithin(run: seq<Moment>, key: string, now: int, limit: nat, n: nat)
    requires FallbacksWithin(run, key, limit)
    ensures FallbacksWithin(ThenFallbacks(run, key, now, limit, n), key, limit)
  {
    if n > 0 {
      FallbacksAreWithin(run, key, now, limit, n - 1);
    }
  }

  lemma {:induction false} FallbacksByRedis(run: seq<Moment>, key: string, now: int, limit: nat, n: nat, redisLimit: nat, window: nat)
    returns (all: seq<Moment>, byRedis: seq<int>)
    ensures all == ThenFallbacks(run, key, now, limit, n)
    ensures byRedis == ByRedis(all, key, redisLimit, window) == ByRedis(run, key, redisLimit, window)
  {
    if n == 0 {
      all, byRedis := run, ByRedis(run, key, redisLimit, window);
    } else {
      all, byRedis := FallbacksByRedis(run, key, now, limit, n - 1, redisLimit, window);
      FallbackNotByRedis(all, key, now, limit, redisLimit, window);
      all := all + [Fallback(key, now, limit)];
    }
  }

  lemma CountAtOnce(admitted: seq<int>, now: int, n: nat, window: nat)
    requires 0 < window && AllAt(admitted, now, n)
    ensures CountIn(admitted, now, now + window) == n
  {
    CountAll(admitted, now, now + window);
  }

  lemma AnswersTimely(key: string, now: int, n: nat, redisLimit: nat)
    ensures Timely(Answers(key, now, n), redisLimit)
  {
    AnswersSeen(key, now, n, redisLimit);
  }

  /** Simultaneous requests of one key that Redis answers. */
  predicate AnsweredBurst(run: seq<Moment>, key: string, now: int)
  {
    forall i | 0 <= i < |run| :: run[i].Answered? && run[i].key == key && run[i].now == now
  }

  lemma {:induction false} BurstSeen(run: seq<Moment>, key: string, now: int, redisLimit: nat)
    requires AnsweredBurst(run, key, now)
    ensures |RedisPart(run, redisLimit)| == |run| && Simultaneous(RedisPart(run, redisLimit), key, now, redisLimit)
  {
    if run != [] {
      BurstSeen(run[..|run| - 1], key, now, redisLimit);
    }
  }

  lemma BurstDecision(front: seq<Moment>, e: Moment, redisLimit: nat, window: nat)
    requires 0 < window && e.Answered? && AnsweredBurst(front, e.key, e.now)
    ensures ReferenceAdmits(front, e, redisLimit, window) == (|front| < redisLimit)
  {
    BurstSeen(front, e.key, e.now, redisLimit);
    var seen := RedisPart(front, redisLimit);
    BurstAdmitted(seen, e.key, e.now, redisLimit, window);
    BurstStep(Accepted(seen, e.key, window), ForRedis(e, redisLimit), |front|, window);
  }

  function Min(a: nat, b: nat): nat { if a <= b then a else b }

  lemma AllAtOneMore(before: seq<int>, now: int, n: nat, limit: nat)
    requires AllAt(before, now, Min(n, limit))
    ensures AllAt(before + (if n < limit then [now] else []), now, Min(n + 1, limit))
  {
  }

  /** While Redis answers, exactly the first `redisLimit` requests of any burst are let through. */
  lemma {:induction false} BurstLetThrough(run: seq<Moment>, key: string, now: int, redisLimit: nat, window: nat)
    requires 0 < window && Timely(run, redisLimit) && AnsweredBurst(run, key, now)
    ensures AllAt(ByRedis(run, key, redisLimit, window), now, Min(|run|, redisLimit))
  {
    if run != [] {
      var front, e := run[..|run| - 1], run[|run| - 1];
      TimelyFront(run, redisLimit);
      BurstLetThrough(front, key, now, redisLimit, window);
      BurstDecision(front, e, redisLimit, window);
      DecisionsRefine(run, redisLimit, window);
      AllAtOneMore(ByRedis(front, key, redisLimit, window), now, |front|, redisLimit);
    }
  }

  /** As many answers as Redis has room for, then as many fallbacks as the fallback has. */
  function FullBurst(key: string, now: int, redisLimit: nat, memoryLimit: nat): seq<Moment>
  {
    ThenFallbacks(Answers(key, now, redisLimit), key, now, memoryLimit, memoryLimit)
  }

  lemma FullBurstTimely(key: string, now: int, redisLimit: nat, memoryLimit: nat)
    ensures var run := FullBurst(key, now, redisLimit, memoryLimit);
            Timely(run, redisLimit) && FallbacksWithin(run, key, memoryLimit)
            && AllSame(MemoryPart(run), Request(key, now, memoryLimit, 0), memoryLimit)
  {
    var answers := Answers(key, now, redisLimit);
    AnswersSeen(key, now, redisLimit, redisLimit);
    AnswersAreBurst(key, now, redisLimit);
    FallbacksSeen(answers, key, now, memoryLimit, memoryLimit, redisLimit);
    FallbacksAreWithin(answers, key, now, memoryLimit, memoryLimit);
  }

  lemma FullBurstByRedis(key: string, now: int, redisLimit: nat, memoryLimit: nat, window: nat)
    requires 0 < window
    ensures AllAt(ByRedis(FullBurst(key, now, redisLimit, memoryLimit), key, redisLimit, window), now, redisLimit)
  {
    var answers := Answers(key, now, redisLimit);
    AnswersTimely(key, now, redisLimit, redisLimit);
    AnswersAreBurst(key, now, redisLimit);
    BurstLetThrough(answers, key, now, redisLimit, window);
    var _, _ := FallbacksByRedis(answers, key, now, memoryLimit, memoryLimit, redisLimit, window);
  }

  lemma FullBurstByFallback(key: string, now: int, redisLimit: nat, memoryLimit: nat, window: nat)
    requires 0 < window
    ensures AllAt(ByFallback(FullBurst(key, now, redisLimit, memoryLimit), key, redisLimit, window), now, memoryLimit)
  {
    var run := FullBurst(key, now, redisLimit, memoryLimit);
    FullBurstTimely(key, now, redisLimit, memoryLimit);
    FallbackRecordsItsOwn(run, key, redisLimit, window);
    BurstAdmitted(MemoryPart(run), key, now, memoryLimit, window);
  }

  /** The failover bound is attained, within one instant, for all limits. */
  lemma FailoverAttained(key: string, now: int, redisLimit: nat, memoryLimit: nat, window: nat) returns (run: seq<Moment>)
    requires 0 < window
    ensures Timely(run, redisLimit) && FallbacksWithin(run, key, memoryLimit)
    ensures LetThroughIn(run, key, redisLimit, window, now, now) == redisLimit + memoryLimit
  {
    run := FullBurst(key, now, redisLimit, memoryLimit);
    FullBurstTimely(key, now, redisLimit, memoryLimit);
    FullBurstByRedis(key, now, redisLimit, memoryLimit, window);
    FullBurstByFallback(key, now, redisLimit, memoryLimit, window);
    CountAtOnce(ByRedis(run, key, redisLimit, window), now, redisLimit, window);
    CountAtOnce(ByFallback(run, key, redisLimit, window), now, memoryLimit, window);
  }

  /** The configured bounds are attained: 200 for a client, 110 for an operation caller. */
  lemma ConfiguredBoundsAttained(key: string, now: int) returns (client: seq<Moment>, operation: seq<Moment>)
    ensures Timely(client, REDIS_LIMIT) && FallbacksWithin(client, key, LIMIT)
    ensures LetThroughIn(client, key, REDIS_LIMIT, WINDOW, now, now) == 200
    ensures Timely(operation, REDIS_LIMIT) && FallbacksWithin(operation, key, OP_COST_LIMIT)
    ensures LetThroughIn(operation, key, REDIS_LIMIT, WINDOW, now, now) == 110
  {
    client := FailoverAttained(key, now, REDIS_LIMIT, LIMIT, WINDOW);
    operation := FailoverAttained(key, now, REDIS_LIMIT, OP_COST_LIMIT, WINDOW);
  }

  // -- When the middleware's own limit holds ---------------------------------------------

  /** A run of a middleware with its own limit; `answers` says whether Redis may answer this key. */
  ghost predicate MiddlewareRun(run: seq<Moment>, key: string, redisLimit: nat, ownLimit: nat, answers: bool)
  {
    && Timely(run, redisLimit) && FallbacksWithin(run, key, ownLimit)
    && (!answers ==> forall i | 0 <= i < |run| && run[i].key == key :: !run[i].Answered?)
  }

  predicate KeepsOwnLimit(run: seq<Moment>, key: string, redisLimit: nat, ownLimit: nat, window: nat, start: int, start': int)
  {
    LetThroughIn(run, key, redisLimit, window, start, start') <= ownLimit
  }

  lemma {:induction false} NoAnswersNoneByRedis(run: seq<Moment>, key: string, redisLimit: nat, window: nat)
    requires forall i | 0 <= i < |run| && run[i].key == key :: !run[i].Answered?
    ensures ByRedis(run, key, redisLimit, window) == []
  {
    if run != [] {
      NoAnswersNoneByRedis(run[..|run| - 1], key, redisLimit, window);
    }
  }

  /** A middleware's own limit is kept on all runs exactly when Redis never answers, or has no
      room at all: a healthy Redis enforces the shared limit on top of it. */
  lemma OwnLimitKeptExactly(key: string, redisLimit: nat, ownLimit: nat, window: nat, answers: bool)
    requires 0 < window
    ensures (forall run, start, start' | MiddlewareRun(run, key, redisLimit, ownLimit, answers) ::
               KeepsOwnLimit(run, key, redisLimit, ownLimit, window, start, start'))
            <==> !answers || redisLimit == 0
  {
    if !answers || redisLimit == 0 {
      forall run, start, start' | MiddlewareRun(run, key, redisLimit, ownLimit, answers)
        ensures KeepsOwnLimit(run, key, redisLimit, ownLimit, window, start, start')
      {
        ByFallbackBounded(run, key, redisLimit, ownLimit, window, start');
        if answers {
          ByRedisBounded(run, key, redisLimit, window, start);
        } else {
          NoAnswersNoneByRedis(run, key, redisLimit, window);
        }
      }
    } else {
      var run := FailoverAttained(key, 0, redisLimit, ownLimit, window);
      assert MiddlewareRun(run, key, redisLimit, ownLimit, answers);
      assert !KeepsOwnLimit(run, key, redisLimit, ownLimit, window, 0, 0);
    }
  }

  /** As configured: at most 10 operations a minute, on all runs, exactly when Redis never answers. */
  lemma TenOperationsExactly(key: string, answers: bool)
    ensures (forall run, start, start' | MiddlewareRun(run, key, REDIS_LIMIT, OP_COST_LIMIT, answers) ::
               KeepsOwnLimit(run, key, REDIS_LIMIT, 10, WINDOW, start, start'))
            <==> !answers
  {
    OwnLimitKeptExactly(key, REDIS_LIMIT, OP_COST_LIMIT, WINDOW, answers);
  }

  /** While Redis answers, of any burst of operation calls exactly the first 100 are let through. */
  lemma OperationLimitIsTheSharedOne(run: seq<Moment>, key: string, now: int)
    requires Timely(run, REDIS_LIMIT) && AnsweredBurst(run, key, now)
    ensures |ByRedis(run, key, REDIS_LIMIT, WINDOW)| == (if |run| <= 100 then |run| else 100)
  {
    BurstLetThrough(run, key, now, REDIS_LIMIT, WINDOW);
  }

  /** The script and the in-process list give the same decision on every request of every
      timed run with the same limits. */
  lemma LimitersAgree(trace: Trace, i: nat, window: nat)
    requires Clocked(trace) && Redis.FreshMembers(trace) && Redis.QueriesPastWindow(trace, window)
    requires i < |trace| && trace[i].Request?
    ensures Redis.Allows(trace, i, window) <==> Memory.Allows(trace, i, window)
  {
    Redis.LuaRefinesReference(trace, i, window);
    Memory.MemoryRefinesReference(trace, i, window);
  }
}
