/** The gateway's in-process limiter: per key, the list of admission instants, pruned and
    extended under one lock. */
module MemoryLimiter {
  import opened SlidingWindow

  type Windows = map<string, seq<int>>

  function EntriesOf(requests: Windows, key: string): seq<int>
  {
    if key in requests then requests[key] else []
  }

  /** The entries younger than one window at `now`. */
  function Retain(entries: seq<int>, now: int, window: nat): seq<int>
  {
    if entries == [] then []
    else
      Retain(entries[..|entries| - 1], now, window)
      + (if now - entries[|entries| - 1] < window then [entries[|entries| - 1]] else [])
  }

  /** One locked section: the new entry list of the key, and the decision. */
  function CheckEntries(entries: seq<int>, now: int, limit: nat, window: nat): (seq<int>, bool)
  {
    var kept := Retain(entries, now, window);
    if |kept| >= limit then (kept, false) else (kept + [now], true)
  }

  class InMemoryRateLimiter {
    var requests: Windows

    constructor ()
      ensures requests == map[]
    {
      requests := map[];
    }

    method Check(key: string, now: int, limit: nat, window: nat) returns (allowed: bool)
      modifies this
      ensures requests == old(requests)[key := CheckEntries(EntriesOf(old(requests), key), now, limit, window).0]
      ensures allowed == CheckEntries(EntriesOf(old(requests), key), now, limit, window).1
    {
      var entries := if key in requests then requests[key] else [];
      var kept: seq<int> := [];
      for i := 0 to |entries|
        invariant kept == Retain(entries[..i], now, window)
      {
        assert entries[..i + 1][..i] == entries[..i];
        if now - entries[i] < window {
          kept := kept + [entries[i]];
        }
      }
      assert entries[..|entries|] == entries;
      requests := requests[key := kept];
      if |kept| >= limit {
        return false;
      }
      requests := requests[key := kept + [now]];
      return true;
    }
  }

  /** The table after a run; a budget query does not touch it. */
  function After(trace: Trace, window: nat): Windows
  {
    if trace == [] then map[]
    else
      var before := After(trace[..|trace| - 1], window);
      match trace[|trace| - 1]
      case Query(_, _) => before
      case Request(key, now, limit, _) => before[key := CheckEntries(EntriesOf(before, key), now, limit, window).0]
  }

  /** The decision the table yields for the request at position `i` of a run. */
  predicate Allows(trace: Trace, i: nat, window: nat)
    requires i < |trace| && trace[i].Request?
  {
    CheckEntries(EntriesOf(After(trace[..i], window), trace[i].key), trace[i].now, trace[i].limit, window).1
  }

  lemma {:induction false} RetainTwice(ts: seq<int>, t: int, now: int, window: nat)
    requires t <= now
    ensures Retain(Retain(ts, t, window), now, window) == Retain(ts, now, window)
  {
    if ts != [] {
      var front, last := ts[..|ts| - 1], ts[|ts| - 1];
      RetainTwice(front, t, now, window);
      if t - last < window {
        assert Retain(ts, t, window)[..|Retain(front, t, window)|] == Retain(front, t, window);
      } else {
        assert Retain(ts, t, window) == Retain(front, t, window);
      }
    }
  }

  lemma RetainAppend(ts: seq<int>, x: int, now: int, window: nat)
    ensures Retain(ts + [x], now, window) == Retain(ts, now, window) + (if now - x < window then [x] else [])
  {
    assert (ts + [x])[..|ts|] == ts;
  }

  lemma {:induction false} RetainCounts(ts: seq<int>, now: int, window: nat)
    requires NotAfter(ts, now)
    ensures |Retain(ts, now, window)| == LiveCount(ts, now, window)
  {
    if ts != [] {
      RetainCounts(ts[..|ts| - 1], now, window);
    }
  }

  /** What one check does to the live part of a key's list, and what decides it. */
  lemma CheckKeepsLive(entries: seq<int>, accepted: seq<int>, e: Event, window: nat, now: int)
    requires e.Request? && e.now <= now && NotAfter(accepted, e.now)
    requires Retain(entries, e.now, window) == Retain(accepted, e.now, window)
    requires Retain(entries, now, window) == Retain(accepted, now, window)
    ensures CheckEntries(entries, e.now, e.limit, window).1 <==> Admitting(accepted, e, e.key, window)
    ensures Retain(CheckEntries(entries, e.now, e.limit, window).0, now, window)
            == Retain(AfterEvent(accepted, e, e.key, window), now, window)
  {
    RetainCounts(accepted, e.now, window);
    RetainTwice(entries, e.now, now, window);
    RetainAppend(Retain(entries, e.now, window), e.now, now, window);
    RetainAppend(accepted, e.now, now, window);
  }

  /** The list kept for a key always holds exactly the live admissions of that key. */
  lemma {:induction false} HoldsLiveAdmissions(trace: Trace, key: string, window: nat, now: int)
    requires Clocked(trace)
    requires forall i | 0 <= i < |trace| :: trace[i].now <= now
    ensures Retain(EntriesOf(After(trace, window), key), now, window) == Retain(Accepted(trace, key, window), now, window)
  {
    if trace != [] {
      var front, e := trace[..|trace| - 1], trace[|trace| - 1];
      HoldsLiveAdmissions(front, key, window, now);
      if e.Request? && e.key == key {
        HoldsLiveAdmissions(front, key, window, e.now);
        AcceptedNotAfter(front, key, window, e.now);
        CheckKeepsLive(EntriesOf(After(front, window), key), Accepted(front, key, window), e, window, now);
      }
    }
  }

  /** On every run, the in-process limiter decides every request as the reference does. */
  lemma MemoryRefinesReference(trace: Trace, i: nat, window: nat)
    requires Clocked(trace) && i < |trace| && trace[i].Request?
    ensures Allows(trace, i, window) <==> Admits(trace, i, window)
  {
    var front, e := trace[..i], trace[i];
    HoldsLiveAdmissions(front, e.key, window, e.now);
    AcceptedNotAfter(front, e.key, window, e.now);
    CheckKeepsLive(EntriesOf(After(front, window), e.key), Accepted(front, e.key, window), e, window, e.now);
  }
}
