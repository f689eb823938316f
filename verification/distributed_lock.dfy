/** The lease-based lock: a Redis key set if absent with an expiry, deleted only by its token. */
module DistributedLocks {
  import opened Wrappers

  type Key = string
  type Token = nat

  datatype Stored = Stored(token: Token, expiresAt: int)

  /** The Redis primary: its clock and the lock keys it holds. */
  datatype Server = Server(now: int, keys: map<Key, Stored>)

  datatype Command =
    | Wait(ms: nat)
    | SetIfAbsent(key: Key, token: Token, ttlMs: nat)
    | DeleteIfOwned(key: Key, token: Token)

  /** An expired key is as good as gone. */
  predicate Live(s: Server, key: Key)
  {
    key in s.keys && s.now < s.keys[key].expiresAt
  }

  /** `SET key token NX PX ttl`; Redis refuses an expiry of 0. */
  predicate Sets(s: Server, key: Key, ttlMs: nat)
  {
    !Live(s, key) && ttlMs > 0
  }

  function Serve(s: Server, c: Command): Server
  {
    match c
    case Wait(ms) => s.(now := s.now + ms)
    case SetIfAbsent(key, token, ttlMs) =>
      if Sets(s, key, ttlMs) then s.(keys := s.keys[key := Stored(token, s.now + ttlMs)]) else s
    case DeleteIfOwned(key, token) =>
      if Live(s, key) && s.keys[key].token == token then s.(keys := s.keys - {key}) else s
  }

  function ServeAll(s: Server, commands: seq<Command>): Server
  {
    if commands == [] then s else Serve(ServeAll(s, commands[..|commands| - 1]), commands[|commands| - 1])
  }

  /** How a command goes: it is answered, it runs but its answer is lost, it fails before it
      reaches the server, or no connection can be had for it. */
  datatype Fate = Answered | Lost | Unsent | NoConnection

  function Attempted(s: Server, key: Key, token: Token, ttlMs: nat, fate: Fate): Server
  {
    if fate == Unsent || fate == NoConnection then s else Serve(s, SetIfAbsent(key, token, ttlMs))
  }

  class Redis {
    var state: Server

    constructor (now: int)
      ensures state == Server(now, map[])
    {
      state := Server(now, map[]);
    }

    method SetNxPx(key: Key, token: Token, ttlMs: nat) returns (wasSet: bool)
      modifies this
      ensures wasSet == Sets(old(state), key, ttlMs)
      ensures state == Serve(old(state), SetIfAbsent(key, token, ttlMs))
    {
      if ttlMs == 0 || (key in state.keys && state.now < state.keys[key].expiresAt) {
        return false;
      }
      state := state.(keys := state.keys[key := Stored(token, state.now + ttlMs)]);
      return true;
    }

    /** What everybody else does while a client sleeps. */
    method Elapse(commands: seq<Command>)
      modifies this
      ensures state == ServeAll(old(state), commands)
    {
      for i := 0 to |commands|
        invariant state == ServeAll(old(state), commands[..i])
      {
        assert commands[..i + 1][..i] == commands[..i];
        state := Serve(state, commands[i]);
      }
      assert commands[..|commands|] == commands;
    }
  }

  /** A guard, with the end of the lease its SET was given. */
  datatype LockGuard = LockGuard(key: Key, token: Token, leaseEnd: int)

  class DistributedLock {
    const prefix: string
    const lockTtlMs: nat
    const retryCount: nat
    const redis: Redis

    constructor (redis: Redis, prefix: string, lockTtlMs: nat, retryCount: nat)
      ensures this.redis == redis && this.prefix == prefix && this.lockTtlMs == lockTtlMs && this.retryCount == retryCount
    {
      this.redis, this.prefix, this.lockTtlMs, this.retryCount := redis, prefix, lockTtlMs, retryCount;
    }

    function LockKey(resource: string): Key
    {
      prefix + ":lock:" + resource
    }

    /** Different resources have different keys. */
    lemma LockKeyInjective(r1: string, r2: string)
      requires LockKey(r1) == LockKey(r2)
      ensures r1 == r2
    {
      assert LockKey(r1)[|prefix| + 6..] == r1 && LockKey(r2)[|prefix| + 6..] == r2;
    }

    /** One conditional SET; an error, lost reply or not, reads as "not acquired". */
    method Attempt(key: Key, token: Token, fate: Fate) returns (acquired: bool)
      modifies redis
      ensures redis.state == Attempted(old(redis.state), key, token, lockTtlMs, fate)
      ensures acquired == (fate == Answered && Sets(old(redis.state), key, lockTtlMs))
    {
      acquired := false;
      if fate == Answered || fate == Lost {
        var wasSet := redis.SetNxPx(key, token, lockTtlMs);
        acquired := fate == Answered && wasSet;
      }
    }

    /** `fates[a]` is how attempt `a` goes, and `meanwhile[a]` what happens on the server during
        the sleep after it. Only a missing connection ends the loop early without a guard. */
    method Acquire(resource: string, token: Token, fates: seq<Fate>, meanwhile: seq<seq<Command>>)
      returns (guard: Option<LockGuard>, attempts: nat)
      requires |fates| == retryCount + 1 && |meanwhile| == retryCount
      modifies redis
      ensures 1 <= attempts <= retryCount + 1
      ensures var key, ttl, start := LockKey(resource), lockTtlMs, old(redis.state);
              && (forall a | 0 <= a < attempts - 1 ::
                    fates[a] != NoConnection
                    && !(fates[a] == Answered && Sets(Seen(start, key, token, ttl, fates, meanwhile, a), key, ttl)))
              && var last := Seen(start, key, token, ttl, fates, meanwhile, attempts - 1);
                 redis.state == Attempted(last, key, token, ttl, fates[attempts - 1])
                 && (if fates[attempts - 1] == Answered && Sets(last, key, ttl)
                     then guard == Some(LockGuard(key, token, last.now + ttl))
                     else guard == None && (fates[attempts - 1] == NoConnection || attempts == retryCount + 1))
    {
      var key := LockKey(resource);
      ghost var start := redis.state;
      attempts := 0;
      for attempt := 0 to retryCount + 1
        invariant attempts == attempt
        invariant redis.state == if attempt == 0 then start
                                 else Attempted(Seen(start, key, token, lockTtlMs, fates, meanwhile, attempt - 1),
                                                key, token, lockTtlMs, fates[attempt - 1])
        invariant forall a | 0 <= a < attempt ::
                    fates[a] != NoConnection
                    && !(fates[a] == Answered && Sets(Seen(start, key, token, lockTtlMs, fates, meanwhile, a), key, lockTtlMs))
      {
        if attempt > 0 {
          redis.Elapse(meanwhile[attempt - 1]);
        }
        assert redis.state == Seen(start, key, token, lockTtlMs, fates, meanwhile, attempt);
        attempts := attempts + 1;
        if fates[attempt] == NoConnection {
          return None, attempts;
        }
        var acquired := Attempt(key, token, fates[attempt]);
        if acquired {
          return Some(LockGuard(key, token, redis.state.keys[key].expiresAt)), attempts;
        }
      }
      return None, attempts;
    }

    method TryAcquire(resource: string, token: Token, fate: Fate) returns (guard: Result<Option<LockGuard>, string>)
      modifies redis
      ensures redis.state == Attempted(old(redis.state), LockKey(resource), token, lockTtlMs, fate)
      ensures guard.Failure? <==> fate == NoConnection
      ensures guard.Success? ==>
                guard.value == if fate == Answered && Sets(old(redis.state), LockKey(resource), lockTtlMs)
                               then Some(LockGuard(LockKey(resource), token, old(redis.state).now + lockTtlMs)) else None
    {
      var key := LockKey(resource);
      if fate == NoConnection {
        return Failure("no connection");
      }
      var acquired := Attempt(key, token, fate);
      if acquired {
        return Success(Some(LockGuard(key, token, redis.state.keys[key].expiresAt)));
      }
      return Success(None);
    }

    method Release(guard: LockGuard) returns (deleted: bool)
      modifies redis
      ensures redis.state == Serve(old(redis.state), DeleteIfOwned(guard.key, guard.token))
      ensures deleted == (Live(old(redis.state), guard.key) && old(redis.state).keys[guard.key].token == guard.token)
    {
      var s := redis.state;
      if guard.key in s.keys && s.now < s.keys[guard.key].expiresAt && s.keys[guard.key].token == guard.token {
        redis.state := s.(keys := s.keys - {guard.key});
        return true;
      }
      return false;
    }
  }

  /** What attempt `a` of an acquire finds when all before it have not acquired. */
  function Seen(s: Server, key: Key, token: Token, ttlMs: nat, fates: seq<Fate>, meanwhile: seq<seq<Command>>, a: nat): Server
    requires a < |fates| && a <= |meanwhile|
  {
    if a == 0 then s
    else ServeAll(Attempted(Seen(s, key, token, ttlMs, fates, meanwhile, a - 1), key, token, ttlMs, fates[a - 1]), meanwhile[a - 1])
  }

  // -- Any number of clients -------------------------------------------------------------

  /** `pending` maps the token of every acquire under way to its key; `guards` are the guards
      handed out and not yet given back; `used` are all tokens generated so far. */
  datatype State = State(server: Server, pending: map<Token, Key>, guards: set<LockGuard>, used: set<Token>)

  datatype Step =
    | Elapses(ms: nat)
    | Begin(token: Token, key: Key)
    | Attempt(token: Token, ttlMs: nat)
    | AttemptUnanswered(token: Token, ttlMs: nat)
    | GiveUp(token: Token)
    | Release(guard: LockGuard)
    | Abandon(guard: LockGuard)

  /** Tokens are fresh; a guard is released at most once, by whoever has it. An attempt whose
      answer is lost counts as refused, though the server may have set the key. */
  predicate Enabled(st: State, step: Step)
  {
    match step
    case Elapses(_) => true
    case Begin(token, _) => token !in st.used
    case Attempt(token, _) => token in st.pending
    case AttemptUnanswered(token, _) => token in st.pending
    case GiveUp(token) => token in st.pending
    case Release(guard) => guard in st.guards
    case Abandon(guard) => guard in st.guards
  }

  function Next(st: State, step: Step): State
    requires Enabled(st, step)
  {
    match step
    case Elapses(ms) => st.(server := Serve(st.server, Wait(ms)))
    case Begin(token, key) => st.(pending := st.pending[token := key], used := st.used + {token})
    case Attempt(token, ttlMs) =>
      var key := st.pending[token];
      if Sets(st.server, key, ttlMs) then
        st.(server := Serve(st.server, SetIfAbsent(key, token, ttlMs)),
            pending := st.pending - {token},
            guards := st.guards + {LockGuard(key, token, st.server.now + ttlMs)})
      else st
    case AttemptUnanswered(token, ttlMs) => st.(server := Serve(st.server, SetIfAbsent(st.pending[token], token, ttlMs)))
    case GiveUp(token) => st.(pending := st.pending - {token})
    case Release(guard) =>
      st.(server := Serve(st.server, DeleteIfOwned(guard.key, guard.token)), guards := st.guards - {guard})
    case Abandon(guard) => st.(guards := st.guards - {guard})
  }

  predicate Unexpired(st: State, g: LockGuard)
  {
    st.server.now < g.leaseEnd
  }

  /** The server stores exactly this guard's lease. */
  predicate Stores(st: State, g: LockGuard)
  {
    g.key in st.server.keys && st.server.keys[g.key] == Stored(g.token, g.leaseEnd)
  }

  ghost predicate Inv(st: State)
  {
    && (forall g | g in st.guards :: g.token in st.used && g.token !in st.pending)
    && (forall g, h | g in st.guards && h in st.guards && g.token == h.token :: g == h)
    && (forall t | t in st.pending :: t in st.used)
    && (forall g | g in st.guards && Unexpired(st, g) :: Stores(st, g))
  }

  predicate Moves(states: seq<State>, steps: seq<Step>, i: nat)
    requires i < |steps| < |states|
  {
    Enabled(states[i], steps[i]) && states[i + 1] == Next(states[i], steps[i])
  }

  predicate Run(states: seq<State>, steps: seq<Step>)
  {
    && |states| == |steps| + 1
    && states[0].server.keys == map[] && states[0].pending == map[] && states[0].guards == {} && states[0].used == {}
    && forall i: nat | i < |steps| :: Moves(states, steps, i)
  }

  lemma InvStep(st: State, step: Step)
    requires Inv(st) && Enabled(st, step)
    ensures Inv(Next(st, step))
  {
    var st' := Next(st, step);
    forall g | g in st'.guards && Unexpired(st', g) ensures Stores(st', g) {
      if g in st.guards {
        assert Unexpired(st, g) && Stores(st, g) && Live(st.server, g.key);
      }
    }
  }

  lemma {:induction false} RunInv(states: seq<State>, steps: seq<Step>, n: nat)
    requires Run(states, steps) && n < |states|
    ensures Inv(states[n])
  {
    if n > 0 {
      RunInv(states, steps, n - 1);
      assert Moves(states, steps, n - 1);
      InvStep(states[n - 1], steps[n - 1]);
    }
  }

  /** At every moment of every run, at most one guard of a resource has an unexpired lease, and
      the stored token is that guard's. */
  lemma MutualExclusion(states: seq<State>, steps: seq<Step>, n: nat, g: LockGuard, h: LockGuard)
    requires Run(states, steps) && n < |states|
    requires g in states[n].guards && h in states[n].guards && g.key == h.key
    requires Unexpired(states[n], g)
    ensures Stores(states[n], g)
    ensures Unexpired(states[n], h) ==> g == h
  {
    RunInv(states, steps, n);
  }

  /** A lease ends by itself: once the server's clock has reached its end, or when nothing is stored,
      the next attempt with an expiry gets the lock for that long, whoever held it. */
  lemma ExpiredLeaseIsTaken(st: State, token: Token, ttlMs: nat)
    requires token in st.pending && 0 < ttlMs
    requires st.pending[token] in st.server.keys ==> st.server.keys[st.pending[token]].expiresAt <= st.server.now
    ensures var key := st.pending[token];
            var after := Next(st, Attempt(token, ttlMs));
            after.guards == st.guards + {LockGuard(key, token, st.server.now + ttlMs)}
            && key in after.server.keys && after.server.keys[key] == Stored(token, st.server.now + ttlMs)
            && after.server.now == st.server.now
            && forall other | other != key :: other in after.server.keys <==> other in st.server.keys
  {
  }

  /** Giving back any other guard, stale or not, leaves the holder's lock in place; giving back
      the holder's own frees the resource for the next attempt. */
  lemma ReleaseOnlyOwn(states: seq<State>, steps: seq<Step>, n: nat, holder: LockGuard, released: LockGuard, ttlMs: nat)
    requires Run(states, steps) && n < |states| && 0 < ttlMs
    requires holder in states[n].guards && Unexpired(states[n], holder) && released in states[n].guards
    ensures var after := Next(states[n], Release(released));
            if released == holder then Sets(after.server, holder.key, ttlMs)
            else Stores(after, holder) && !Sets(after.server, holder.key, ttlMs)
  {
    RunInv(states, steps, n);
  }

  /** While a guard's lease runs, no attempt on its resource succeeds. */
  lemma NoSecondHolder(states: seq<State>, steps: seq<Step>, n: nat, g: LockGuard, token: Token, ttlMs: nat)
    requires Run(states, steps) && n < |states| && g in states[n].guards && Unexpired(states[n], g)
    requires token in states[n].pending && states[n].pending[token] == g.key
    ensures Next(states[n], Attempt(token, ttlMs)) == states[n]
    ensures Next(states[n], AttemptUnanswered(token, ttlMs)) == states[n]
  {
    RunInv(states, steps, n);
  }
}
