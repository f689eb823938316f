/** The Redis limiter: one sorted set per client, pruned, counted and extended by one atomic
    script, with the expiry the script puts on the key. */
module RedisLimiter {
  import opened Wrappers
  import opened SlidingWindow

  /** A stored sorted set (member to score) and when its key expires. */
  datatype SortedSet = SortedSet(scores: map<nat, int>, expiresAt: Option<int>)

  type Keys = map<string, SortedSet>

  const ABSENT := SortedSet(map[], None)

  /** What a command issued at `now` finds under a key. */
  function Visible(k: SortedSet, now: int): SortedSet
  {
    if k.expiresAt.Some? && k.expiresAt.value <= now then ABSENT else k
  }

  /** ZREMRANGEBYSCORE from minus infinity to `cutoff`; an emptied key is deleted. */
  function RemoveUpTo(k: SortedSet, cutoff: int): SortedSet
  {
    var kept := map m | m in k.scores && k.scores[m] > cutoff :: k.scores[m];
    if kept == map[] then ABSENT else k.(scores := kept)
  }

  /** The script: prune, count, and record the request when there is room. */
  function LuaCheck(k: SortedSet, now: int, window: nat, limit: nat, member: nat): (SortedSet, bool)
  {
    var live := RemoveUpTo(Visible(k, now), now - window);
    if |live.scores| >= limit then (live, false)
    else (SortedSet(live.scores[member := now], Some(now + window)), true)
  }

  /** The lower end of the budget query's window, which saturates at the epoch. */
  function QueryCutoff(now: int, window: nat): int
  {
    if now < window then 0 else now - window
  }

  function QueryPrune(k: SortedSet, now: int, window: nat): SortedSet
  {
    RemoveUpTo(Visible(k, now), QueryCutoff(now, window))
  }

  /** The limit less the members found, at least 0. */
  function Budget(k: SortedSet, limit: nat): nat
  {
    var count := |k.scores|;
    if count > limit then 0 else limit - count
  }

  /** What an undisturbed query answers. */
  function RemainingOf(k: SortedSet, now: int, window: nat, limit: nat): nat
  {
    Budget(Visible(QueryPrune(k, now, window), now), limit)
  }

  function KeyOf(keys: Keys, key: string): SortedSet
  {
    if key in keys then keys[key] else ABSENT
  }

  /** The key space after a run of checks and budget queries, from `keys` on or from nothing. */
  function AfterFrom(keys: Keys, trace: Trace, window: nat): Keys
  {
    if trace == [] then keys
    else
      var before := AfterFrom(keys, trace[..|trace| - 1], window);
      match trace[|trace| - 1]
      case Query(key, now) => before[key := QueryPrune(KeyOf(before, key), now, window)]
      case Request(key, now, limit, member) =>
        before[key := LuaCheck(KeyOf(before, key), now, window, limit, member).0]
  }

  function After(trace: Trace, window: nat): Keys
  {
    AfterFrom(map[], trace, window)
  }

  class RedisRateLimiter {
    var keys: Keys
    const limit: nat
    const windowSecs: nat

    constructor (limit: nat, windowSecs: nat)
      ensures keys == map[] && this.limit == limit && this.windowSecs == windowSecs
    {
      this.limit := limit;
      this.windowSecs := windowSecs;
      keys := map[];
    }

    method Check(clientKey: string, nowMs: int, member: nat) returns (allowed: bool)
      modifies this
      ensures keys == old(keys)[clientKey := LuaCheck(KeyOf(old(keys), clientKey), nowMs, windowSecs * 1000, limit, member).0]
      ensures allowed == LuaCheck(KeyOf(old(keys), clientKey), nowMs, windowSecs * 1000, limit, member).1
    {
      var window := windowSecs * 1000;
      var k := if clientKey in keys then keys[clientKey] else ABSENT;
      k := Visible(k, nowMs);
      k := RemoveUpTo(k, nowMs - window);
      var count := |k.scores|;
      if count >= limit {
        keys := keys[clientKey := k];
        return false;
      }
      k := k.(scores := k.scores[member := nowMs]);
      k := k.(expiresAt := Some(nowMs + window));
      keys := keys[clientKey := k];
      return true;
    }

    /** What other clients do between the two commands of a query. */
    method Elapse(meanwhile: Trace)
      modifies this
      ensures keys == AfterFrom(old(keys), meanwhile, windowSecs * 1000)
    {
      for i := 0 to |meanwhile|
        invariant keys == AfterFrom(old(keys), meanwhile[..i], windowSecs * 1000)
      {
        assert meanwhile[..i + 1][..i] == meanwhile[..i];
        match meanwhile[i] {
          case Query(key, now) => keys := keys[key := QueryPrune(KeyOf(keys, key), now, windowSecs * 1000)];
          case Request(key, now, limit, member) =>
            keys := keys[key := LuaCheck(KeyOf(keys, key), now, windowSecs * 1000, limit, member).0];
        }
      }
      assert meanwhile[..|meanwhile|] == meanwhile;
    }

    /** Two commands: prune at `nowMs`, then count at `countedAt`; a count that fails reads as 0. */
    method Remaining(clientKey: string, nowMs: nat, meanwhile: Trace, countedAt: int, counted: bool) returns (budget: nat)
      modifies this
      ensures var window := windowSecs * 1000;
              keys == AfterFrom(old(keys)[clientKey := QueryPrune(KeyOf(old(keys), clientKey), nowMs, window)], meanwhile, window)
      ensures budget == if counted then Budget(Visible(KeyOf(keys, clientKey), countedAt), limit) else limit
      ensures meanwhile == [] && countedAt == nowMs && counted ==>
                budget == RemainingOf(KeyOf(old(keys), clientKey), nowMs, windowSecs * 1000, limit)
    {
      var cutoff := if nowMs < windowSecs * 1000 then 0 else nowMs - windowSecs * 1000;
      var k := if clientKey in keys then keys[clientKey] else ABSENT;
      keys := keys[clientKey := RemoveUpTo(Visible(k, nowMs), cutoff)];
      Elapse(meanwhile);
      var left := if clientKey in keys then Visible(keys[clientKey], countedAt) else ABSENT;
      var count := if counted then |left.scores| else 0;
      budget := if count > limit then 0 else limit - count;
    }
  }

  predicate Allows(trace: Trace, i: nat, window: nat)
    requires i < |trace| && trace[i].Request?
  {
    LuaCheck(KeyOf(After(trace[..i], window), trace[i].key), trace[i].now, window, trace[i].limit, trace[i].member).1
  }

  /** Every request brings a member no other request of the run has. */
  predicate FreshMembers(trace: Trace)
  {
    forall i, j | 0 <= i < j < |trace| && trace[i].Request? && trace[j].Request? :: trace[i].member != trace[j].member
  }

  /** Budget queries come at clock readings of at least one window. */
  predicate QueriesPastWindow(trace: Trace, window: nat)
  {
    forall i | 0 <= i < |trace| && trace[i].Query? :: trace[i].now >= window
  }

  /** The members of a key that lie less than one window in the past at `now`. */
  function LiveSet(k: SortedSet, now: int, window: nat): set<nat>
  {
    var v := Visible(k, now).scores;
    set m | m in v && v[m] > now - window
  }

  /** A stored set never outlives its expiry: every score's window closes by then, and a
      non-empty set always has an expiry. */
  ghost predicate Timed(k: SortedSet, now: int, window: nat)
  {
    forall m | m in k.scores :: k.scores[m] <= now && k.expiresAt.Some? && k.scores[m] + window <= k.expiresAt.value
  }

  lemma PrunedIsLive(k: SortedSet, now: int, window: nat)
    ensures RemoveUpTo(Visible(k, now), now - window).scores.Keys == LiveSet(k, now, window)
    ensures |RemoveUpTo(Visible(k, now), now - window).scores| == |LiveSet(k, now, window)|
  {
    var v := Visible(k, now).scores;
    var kept := map m | m in v && v[m] > now - window :: v[m];
    assert kept.Keys == LiveSet(k, now, window);
    assert |kept| == |kept.Keys|;
  }

  /** Pruning at `t` changes nothing that is live at `t` or later. */
  lemma PruneKeepsLive(k: SortedSet, t: int, cutoff: int, window: nat, now: int)
    requires t <= now && cutoff <= t - window
    ensures LiveSet(RemoveUpTo(Visible(k, t), cutoff), now, window) == LiveSet(k, now, window)
  {
    var pruned := RemoveUpTo(Visible(k, t), cutoff);
    assert forall m :: m in LiveSet(pruned, now, window) <==> m in LiveSet(k, now, window);
  }

  lemma CheckKeepsTimed(k: SortedSet, t: int, window: nat, limit: nat, member: nat)
    requires Timed(k, t, window)
    ensures Timed(LuaCheck(k, t, window, limit, member).0, t, window)
  {
  }

  lemma CheckAddsToLive(k: SortedSet, t: int, window: nat, limit: nat, member: nat, now: int)
    requires Timed(k, t, window) && t <= now && member !in k.scores
    ensures var (after, allowed) := LuaCheck(k, t, window, limit, member);
            LiveSet(after, now, window) == LiveSet(k, now, window) + (if allowed && t > now - window then {member} else {})
    ensures member !in LiveSet(k, now, window)
  {
    PruneKeepsLive(k, t, t - window, window, now);
    var live := RemoveUpTo(Visible(k, t), t - window);
    var (after, allowed) := LuaCheck(k, t, window, limit, member);
    if allowed {
      forall m ensures m in LiveSet(after, now, window)
                       <==> m in LiveSet(live, now, window) || (m == member && t > now - window)
      {
      }
    }
  }

  /** What holds of a key's stored set after a run: it is timed, and its members come from it. */
  lemma {:induction false} ReachableTimed(trace: Trace, key: string, window: nat, now: int)
    requires Clocked(trace)
    requires forall i | 0 <= i < |trace| :: trace[i].now <= now
    ensures Timed(KeyOf(After(trace, window), key), now, window)
    ensures forall m | m in KeyOf(After(trace, window), key).scores ::
              exists i :: 0 <= i < |trace| && trace[i].Request? && trace[i].member == m
  {
    if trace != [] {
      var front, e := trace[..|trace| - 1], trace[|trace| - 1];
      ReachableTimed(front, key, window, e.now);
      var k := KeyOf(After(front, window), key);
      if e.Request? && e.key == key {
        CheckKeepsTimed(k, e.now, window, e.limit, e.member);
      }
      forall m | m in KeyOf(After(trace, window), key).scores
        ensures exists i :: 0 <= i < |trace| && trace[i].Request? && trace[i].member == m
      {
        if m in k.scores {
          var i :| 0 <= i < |front| && front[i].Request? && front[i].member == m;
          assert trace[i] == front[i];
        } else {
          assert trace[|trace| - 1].member == m;
        }
      }
    }
  }

  /** `PEXPIRE` drops nothing live: whatever the key's expiry hides was at least one window old. */
  lemma ExpiryHidesOnlyDead(trace: Trace, key: string, window: nat, now: int)
    requires Clocked(trace)
    requires forall i | 0 <= i < |trace| :: trace[i].now <= now
    ensures var k := KeyOf(After(trace, window), key);
            (k.scores != map[] ==> k.expiresAt.Some?)
            && (Visible(k, now) != k ==> forall m | m in k.scores :: k.scores[m] <= now - window)
  {
    ReachableTimed(trace, key, window, now);
    var k := KeyOf(After(trace, window), key);
    if k.scores != map[] {
      var m :| m in k.scores;
      assert k.expiresAt.Some?;
    }
  }

  lemma CountStep(k: SortedSet, accepted: seq<int>, e: Event, window: nat, now: int)
    requires e.Request? && e.now <= now && Timed(k, e.now, window) && e.member !in k.scores
    requires |LiveSet(k, e.now, window)| == LiveCount(accepted, e.now, window)
    requires |LiveSet(k, now, window)| == LiveCount(accepted, now, window)
    ensures LuaCheck(k, e.now, window, e.limit, e.member).1 <==> Admitting(accepted, e, e.key, window)
    ensures |LiveSet(LuaCheck(k, e.now, window, e.limit, e.member).0, now, window)|
            == LiveCount(AfterEvent(accepted, e, e.key, window), now, window)
  {
    PrunedIsLive(k, e.now, window);
    CheckAddsToLive(k, e.now, window, e.limit, e.member, now);
    CountAppend(accepted, e.now, now - window + 1, now + 1);
  }

  /** What the newest event leaves under a key. */
  lemma NewestEvent(trace: Trace, key: string, window: nat)
    requires trace != []
    ensures var front, e := trace[..|trace| - 1], trace[|trace| - 1];
            var k := KeyOf(After(front, window), key);
            KeyOf(After(trace, window), key)
            == if e.key != key then k
               else if e.Query? then QueryPrune(k, e.now, window)
               else LuaCheck(k, e.now, window, e.limit, e.member).0
  {
  }

  /** The stored set always counts exactly the live admissions of its key. */
  lemma {:induction false} CountsLiveAdmissions(trace: Trace, key: string, window: nat, now: int)
    requires Clocked(trace) && FreshMembers(trace) && QueriesPastWindow(trace, window)
    requires forall i | 0 <= i < |trace| :: trace[i].now <= now
    ensures |LiveSet(KeyOf(After(trace, window), key), now, window)| == LiveCount(Accepted(trace, key, window), now, window)
  {
    if trace != [] {
      var front, e := trace[..|trace| - 1], trace[|trace| - 1];
      CountsLiveAdmissions(front, key, window, now);
      NewestEvent(trace, key, window);
      var k := KeyOf(After(front, window), key);
      if e.key == key {
        if e.Query? {
          PruneKeepsLive(k, e.now, e.now - window, window, now);
        } else {
          CountsLiveAdmissions(front, key, window, e.now);
          ReachableTimed(front, key, window, e.now);
          MemberIsNew(trace, key, window);
          CountStep(k, Accepted(front, key, window), e, window, now);
        }
      }
    }
  }

  lemma MemberIsNew(trace: Trace, key: string, window: nat)
    requires Clocked(trace) && FreshMembers(trace) && trace != [] && trace[|trace| - 1].Request?
    ensures trace[|trace| - 1].member !in KeyOf(After(trace[..|trace| - 1], window), key).scores
  {
    var front, e := trace[..|trace| - 1], trace[|trace| - 1];
    ReachableTimed(front, key, window, e.now);
    forall m | m in KeyOf(After(front, window), key).scores ensures m != e.member {
      var i :| 0 <= i < |front| && front[i].Request? && front[i].member == m;
      assert trace[i] == front[i];
    }
  }

  /** On every run, the script decides every request as the reference does. */
  lemma LuaRefinesReference(trace: Trace, i: nat, window: nat)
    requires Clocked(trace) && FreshMembers(trace) && QueriesPastWindow(trace, window)
    requires i < |trace| && trace[i].Request?
    ensures Allows(trace, i, window) <==> Admits(trace, i, window)
  {
    var front, e := trace[..i], trace[i];
    CountsLiveAdmissions(front, e.key, window, e.now);
    PrunedIsLive(KeyOf(After(front, window), e.key), e.now, window);
  }

  /** A stored set expires one window after the last admission of its key. */
  predicate ExpiresAfterLast(k: SortedSet, accepted: seq<int>, window: nat)
  {
    k.scores != map[] ==> accepted != [] && k.expiresAt == Some(accepted[|accepted| - 1] + window)
  }

  lemma ExpiryCheck(k: SortedSet, accepted: seq<int>, e: Event, window: nat)
    requires e.Request? && ExpiresAfterLast(k, accepted, window)
    requires LuaCheck(k, e.now, window, e.limit, e.member).1 <==> Admitting(accepted, e, e.key, window)
    ensures ExpiresAfterLast(LuaCheck(k, e.now, window, e.limit, e.member).0, AfterEvent(accepted, e, e.key, window), window)
  {
  }

  lemma ExpiryPrune(k: SortedSet, accepted: seq<int>, now: int, window: nat)
    requires ExpiresAfterLast(k, accepted, window)
    ensures ExpiresAfterLast(QueryPrune(k, now, window), accepted, window)
  {
  }

  lemma NewestAdmission(trace: Trace, key: string, window: nat)
    requires trace != []
    ensures Accepted(trace, key, window) == AfterEvent(Accepted(trace[..|trace| - 1], key, window), trace[|trace| - 1], key, window)
  {
  }

  lemma NewestDecision(trace: Trace, key: string, window: nat)
    requires Clocked(trace) && FreshMembers(trace) && QueriesPastWindow(trace, window)
    requires trace != [] && trace[|trace| - 1].Request? && trace[|trace| - 1].key == key
    ensures var front, e := trace[..|trace| - 1], trace[|trace| - 1];
            LuaCheck(KeyOf(After(front, window), key), e.now, window, e.limit, e.member).1
            <==> Admitting(Accepted(front, key, window), e, key, window)
  {
    LuaRefinesReference(trace, |trace| - 1, window);
  }

  /** On every run, a stored set expires exactly one window after the last admission of its key, so
      nothing is kept for a client that has been away for longer. */
  lemma {:induction false} ExpiresOneWindowAfterLast(trace: Trace, key: string, window: nat)
    requires Clocked(trace) && FreshMembers(trace) && QueriesPastWindow(trace, window)
    ensures ExpiresAfterLast(KeyOf(After(trace, window), key), Accepted(trace, key, window), window)
  {
    if trace != [] {
      var front, e := trace[..|trace| - 1], trace[|trace| - 1];
      var k, accepted := KeyOf(After(front, window), key), Accepted(front, key, window);
      ExpiresOneWindowAfterLast(front, key, window);
      NewestEvent(trace, key, window);
      NewestAdmission(trace, key, window);
      if e.key == key {
        if e.Query? {
          ExpiryPrune(k, accepted, e.now, window);
        } else {
          NewestDecision(trace, key, window);
          ExpiryCheck(k, accepted, e, window);
        }
      }
    }
  }

  /** From one window after the epoch on, the remaining budget is positive exactly when a check
      at that instant would admit. */
  lemma RemainingAgreesWithCheck(k: SortedSet, now: int, window: nat, limit: nat, member: nat)
    requires window <= now
    ensures RemainingOf(k, now, window, limit) > 0 <==> LuaCheck(k, now, window, limit, member).1
  {
  }

  /** ... and only from then on: before that, the query's saturated cutoff can hide requests
      recorded at the epoch that the script still counts. */
  lemma RemainingAgreesExactly(now: nat, window: nat, limit: nat, member: nat)
    ensures (forall k | Timed(k, now, window) ::
               RemainingOf(k, now, window, limit) > 0 <==> LuaCheck(k, now, window, limit, member).1)
            <==> (window <= now || limit == 0)
  {
    if window <= now {
      forall k | Timed(k, now, window)
        ensures RemainingOf(k, now, window, limit) > 0 <==> LuaCheck(k, now, window, limit, member).1
      {
        RemainingAgreesWithCheck(k, now, window, limit, member);
      }
    } else if limit > 0 {
      var full := EpochSet(limit);
      var k := SortedSet(full, Some(window));
      assert (map m | m in full && full[m] > now - window :: full[m]) == full;
      assert (map m | m in full && full[m] > 0 :: full[m]) == map[];
      assert RemainingOf(k, now, window, limit) > 0 && !LuaCheck(k, now, window, limit, member).1;
    }
  }

  /** Checks at one instant, one for each of `members`: what they leave, and how many admit. */
  function FurtherChecks(k: SortedSet, now: int, window: nat, limit: nat, members: seq<nat>): (SortedSet, nat)
  {
    if members == [] then (k, 0)
    else
      var (before, admitted) := FurtherChecks(k, now, window, limit, members[..|members| - 1]);
      var (after, allowed) := LuaCheck(before, now, window, limit, members[|members| - 1]);
      (after, if allowed then admitted + 1 else admitted)
  }

  predicate AllNew(k: SortedSet, members: seq<nat>)
  {
    && (forall i | 0 <= i < |members| :: members[i] !in k.scores)
    && (forall i, j | 0 <= i < j < |members| :: members[i] != members[j])
  }

  /** How a check at `now` changes the number of live members. */
  lemma OneFurtherCheck(k: SortedSet, now: int, window: nat, limit: nat, member: nat)
    requires 0 < window && Timed(k, now, window) && member !in k.scores
    ensures var (after, allowed) := LuaCheck(k, now, window, limit, member);
            Timed(after, now, window)
            && (allowed <==> |LiveSet(k, now, window)| < limit)
            && |LiveSet(after, now, window)| == |LiveSet(k, now, window)| + (if allowed then 1 else 0)
  {
    PrunedIsLive(k, now, window);
    CheckKeepsTimed(k, now, window, limit, member);
    CheckAddsToLive(k, now, window, limit, member, now);
  }

  lemma {:induction false} FurtherChecksMembers(k: SortedSet, now: int, window: nat, limit: nat, members: seq<nat>, m: nat)
    requires m !in k.scores && m !in members
    ensures m !in FurtherChecks(k, now, window, limit, members).0.scores
  {
    if members != [] {
      FurtherChecksMembers(k, now, window, limit, members[..|members| - 1], m);
    }
  }

  function Min(a: nat, b: nat): nat { if a <= b then a else b }

  lemma {:induction false} FurtherChecksCount(k: SortedSet, now: int, window: nat, limit: nat, members: seq<nat>)
    requires 0 < window && Timed(k, now, window) && AllNew(k, members)
    ensures var (after, admitted) := FurtherChecks(k, now, window, limit, members);
            var live := |LiveSet(k, now, window)|;
            admitted == Min(|members|, if live > limit then 0 else limit - live)
            && Timed(after, now, window) && |LiveSet(after, now, window)| == live + admitted
  {
    if members != [] {
      var front, last := members[..|members| - 1], members[|members| - 1];
      FurtherChecksCount(k, now, window, limit, front);
      FurtherChecksMembers(k, now, window, limit, front, last);
      OneFurtherCheck(FurtherChecks(k, now, window, limit, front).0, now, window, limit, last);
    }
  }

  /** From one window after the epoch on, the remaining budget is exactly the number of further
      requests that would be admitted at that instant. */
  lemma RemainingIsFurtherAdmissions(k: SortedSet, now: int, window: nat, limit: nat, members: seq<nat>)
    requires 0 < window <= now && Timed(k, now, window) && AllNew(k, members)
    ensures FurtherChecks(k, now, window, limit, members).1
            == if |members| <= RemainingOf(k, now, window, limit) then |members| else RemainingOf(k, now, window, limit)
  {
    FurtherChecksCount(k, now, window, limit, members);
    PrunedIsLive(k, now, window);
  }

  /** `n` requests recorded at the epoch. */
  function EpochSet(n: nat): (s: map<nat, int>)
    ensures |s| == n
    ensures forall m | m in s :: s[m] == 0 && m < n
  {
    if n == 0 then map[] else EpochSet(n - 1)[n - 1 := 0]
  }
}
