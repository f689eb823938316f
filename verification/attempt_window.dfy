/** The fixed-window counter of prompt-injection attempts, one (count, start) pair per key.
    Instants are in nanoseconds. */
module AttemptWindow {

  const WINDOW := 60_000_000_000
  const MAX_HITS := 5

  type Tracker = map<string, (nat, int)>

  function EntryOf(tracker: Tracker, key: string, now: int): (nat, int)
  {
    if key in tracker then tracker[key] else (0, now)
  }

  /** One attempt: the new entry of its key, and whether the caller is blocked. */
  function Recorded(entry: (nat, int), now: int): ((nat, int), bool)
  {
    if now - entry.1 > WINDOW then ((1, now), false)
    else ((entry.0 + 1, entry.1), entry.0 + 1 > MAX_HITS)
  }

  class AppState {
    var injectionTracker: Tracker

    constructor ()
      ensures injectionTracker == map[]
    {
      injectionTracker := map[];
    }

    method RecordInjectionAttempt(key: string, now: int) returns (blocked: bool)
      modifies this
      ensures injectionTracker == old(injectionTracker)[key := Recorded(EntryOf(old(injectionTracker), key, now), now).0]
      ensures blocked == Recorded(EntryOf(old(injectionTracker), key, now), now).1
      ensures blocked <==> key in old(injectionTracker) && now - old(injectionTracker)[key].1 <= 60_000_000_000
                           && old(injectionTracker)[key].0 >= 5
    {
      if key !in injectionTracker {
        injectionTracker := injectionTracker[key := (0, now)];
      }
      var (count, start) := injectionTracker[key];
      if now - start > WINDOW {
        injectionTracker := injectionTracker[key := (1, now)];
        return false;
      }
      injectionTracker := injectionTracker[key := (count + 1, start)];
      return count + 1 > MAX_HITS;
    }
  }

  datatype Attempt = Attempt(key: string, now: int)

  function After(run: seq<Attempt>): Tracker
  {
    if run == [] then map[]
    else
      var before, a := After(run[..|run| - 1]), run[|run| - 1];
      before[a.key := Recorded(EntryOf(before, a.key, a.now), a.now).0]
  }

  predicate Blocked(run: seq<Attempt>, i: nat)
    requires i < |run|
  {
    Recorded(EntryOf(After(run[..i]), run[i].key, run[i].now), run[i].now).1
  }

  predicate Clocked(run: seq<Attempt>)
  {
    forall i, j | 0 <= i <= j < |run| :: run[i].now <= run[j].now
  }

  /** The attempts of `key` in the closed interval [lo, hi]. */
  function Attempts(run: seq<Attempt>, key: string, lo: int, hi: int): nat
  {
    if run == [] then 0
    else
      var a := run[|run| - 1];
      Attempts(run[..|run| - 1], key, lo, hi) + (if a.key == key && lo <= a.now <= hi then 1 else 0)
  }

  /** Those of them that were not blocked. */
  function Unblocked(run: seq<Attempt>, key: string, lo: int, hi: int): nat
  {
    if run == [] then 0
    else
      var a := run[|run| - 1];
      Unblocked(run[..|run| - 1], key, lo, hi)
      + (if a.key == key && lo <= a.now <= hi && !Blocked(run, |run| - 1) then 1 else 0)
  }

  function Min(a: int, b: int): int { if a <= b then a else b }

  /** The most unblocked attempts of one key that [lo, lo + WINDOW] can have seen, given
      the key's entry: those of the window open now, and at most four of the one before it. */
  function Allowance(entry: (nat, int), lo: int): int
  {
    var (count, start) := entry;
    if start < lo then Min(count, MAX_HITS) - 1
    else if start == lo then Min(count, MAX_HITS)
    else if start <= lo + WINDOW then MAX_HITS - 1 + Min(count, MAX_HITS)
    else 2 * MAX_HITS - 1
  }

  predicate Accounted(entry: (nat, int), lo: int, unblocked: nat)
  {
    entry.0 >= 1 && unblocked <= Allowance(entry, lo) && (entry.1 + WINDOW < lo ==> unblocked == 0)
  }

  lemma AllowanceStep(entry: (nat, int), now: int, lo: int, unblocked: nat)
    requires entry.1 <= now
    requires Accounted(entry, lo, unblocked) || (entry == (0, now) && unblocked == 0)
    ensures var (entry', blocked) := Recorded(entry, now);
            Accounted(entry', lo, unblocked + (if lo <= now <= lo + WINDOW && !blocked then 1 else 0))
  {
  }

  /** What a run leaves for a key: the entry counts the attempts of the window open now, and
      the allowance it stands for is respected. */
  lemma {:induction false} KeyAccounted(run: seq<Attempt>, key: string, lo: int)
    requires Clocked(run)
    ensures key !in After(run) ==> Unblocked(run, key, lo, lo + WINDOW) == 0
    ensures key in After(run) ==>
              Accounted(After(run)[key], lo, Unblocked(run, key, lo, lo + WINDOW))
              && After(run)[key].1 <= run[|run| - 1].now
              && After(run)[key].0 <= Attempts(run, key, After(run)[key].1, After(run)[key].1 + WINDOW)
  {
    if run != [] {
      var front, a := run[..|run| - 1], run[|run| - 1];
      KeyAccounted(front, key, lo);
      if a.key == key {
        AllowanceStep(EntryOf(After(front), key, a.now), a.now, lo, Unblocked(front, key, lo, lo + WINDOW));
      }
    }
  }

  /** On every timed run, at most nine attempts of a key pass unblocked in any 60 seconds, both
      ends included. */
  lemma NineUnblocked(run: seq<Attempt>, key: string, lo: int)
    requires Clocked(run)
    ensures Unblocked(run, key, lo, lo + 60_000_000_000) <= 9
  {
    KeyAccounted(run, key, lo);
  }

  lemma {:induction false} MoreAttempts(run: seq<Attempt>, key: string, lo: int, hi: int, lo': int, hi': int)
    requires forall i | 0 <= i < |run| && lo <= run[i].now <= hi :: lo' <= run[i].now <= hi'
    ensures Attempts(run, key, lo, hi) <= Attempts(run, key, lo', hi')
  {
    if run != [] {
      MoreAttempts(run[..|run| - 1], key, lo, hi, lo', hi');
    }
  }

  /** An attempt is blocked only when it is at least the sixth of its key in the 60 seconds
      ending with it. */
  lemma BlockedOnlyOverTheLimit(run: seq<Attempt>, i: nat)
    requires Clocked(run) && i < |run| && Blocked(run, i)
    ensures Attempts(run[..i + 1], run[i].key, run[i].now - 60_000_000_000, run[i].now) >= 6
  {
    var upTo, key, now := run[..i + 1], run[i].key, run[i].now;
    assert upTo[..i] == run[..i];
    KeyAccounted(upTo, key, 0);
    var (_, start) := After(upTo)[key];
    MoreAttempts(upTo, key, start, start + WINDOW, now - WINDOW, now);
  }

  // -- When five is the most -------------------------------------------------------------

  /** `more` may follow a run whose attempts are all before `lo`. */
  predicate Follows(more: seq<Attempt>, lo: int)
  {
    Clocked(more) && forall i | 0 <= i < |more| :: lo <= more[i].now
  }

  predicate AtMostFive(run: seq<Attempt>, key: string, lo: int)
  {
    Unblocked(run, key, lo, lo + 60_000_000_000) <= 5
  }

  /** The key's window, begun before `lo`, is still open then and has attempts left. */
  predicate RoomLeft(tracker: Tracker, key: string, lo: int)
  {
    key in tracker && lo <= tracker[key].1 + 60_000_000_000 && tracker[key].0 < 5
  }

  lemma Extend(run: seq<Attempt>, a: Attempt, key: string, lo: int)
    ensures var entry := Recorded(EntryOf(After(run), a.key, a.now), a.now);
            After(run + [a]) == After(run)[a.key := entry.0]
            && Unblocked(run + [a], key, lo, lo + WINDOW)
               == Unblocked(run, key, lo, lo + WINDOW) + (if a.key == key && lo <= a.now <= lo + WINDOW && !entry.1 then 1 else 0)
  {
    assert (run + [a])[..|run|] == run;
  }

  /** What is left of the attempts of a key that had no room left at `lo`. */
  predicate Settled(known: bool, entry: (nat, int), lo: int, unblocked: nat)
  {
    if !known then unblocked == 0
    else if entry.1 < lo then unblocked == 0 && (entry.1 + WINDOW < lo || entry.0 >= MAX_HITS)
    else unblocked <= Min(entry.0, MAX_HITS) || (entry.1 > lo + WINDOW && unblocked <= MAX_HITS)
  }

  lemma SettledStep(tracker: Tracker, a: Attempt, lo: int, unblocked: nat)
    requires lo <= a.now && EntryOf(tracker, a.key, a.now).1 <= a.now
    requires Settled(a.key in tracker, EntryOf(tracker, a.key, a.now), lo, unblocked)
    ensures var (entry, blocked) := Recorded(EntryOf(tracker, a.key, a.now), a.now);
            Settled(true, entry, lo, unblocked + (if a.now <= lo + WINDOW && !blocked then 1 else 0))
  {
  }

  ghost predicate SettledAfter(run: seq<Attempt>, key: string, lo: int)
  {
    Settled(key in After(run), EntryOf(After(run), key, lo), lo, Unblocked(run, key, lo, lo + WINDOW))
  }

  lemma OneMoreSettled(run: seq<Attempt>, a: Attempt, key: string, lo: int)
    requires SettledAfter(run, key, lo) && lo <= a.now
    requires key in After(run) ==> After(run)[key].1 <= a.now
    ensures SettledAfter(run + [a], key, lo)
  {
    Extend(run, a, key, lo);
    if a.key == key {
      SettledStep(After(run), a, lo, Unblocked(run, key, lo, lo + WINDOW));
    }
  }

  lemma EntriesBegan(run: seq<Attempt>, key: string, now: int)
    requires Clocked(run) && (run != [] ==> run[|run| - 1].now <= now)
    ensures key in After(run) ==> After(run)[key].1 <= now
  {
    KeyAccounted(run, key, now);
  }

  lemma {:induction false} StaysSettled(run: seq<Attempt>, more: seq<Attempt>, key: string, lo: int)
    requires (forall i | 0 <= i < |run| :: run[i].now < lo) && Follows(more, lo)
    requires Clocked(run) && !RoomLeft(After(run), key, lo)
    ensures SettledAfter(run + more, key, lo)
    decreases |more|
  {
    if more == [] {
      assert run + more == run;
      NoneYet(run, key, lo);
    } else {
      var front, a := more[..|more| - 1], more[|more| - 1];
      StaysSettled(run, front, key, lo);
      var before := run + front;
      assert before + [a] == run + more;
      EntriesBegan(before, key, a.now);
      OneMoreSettled(before, a, key, lo);
    }
  }

  lemma {:induction false} NoneYet(run: seq<Attempt>, key: string, lo: int)
    requires forall i | 0 <= i < |run| :: run[i].now < lo
    ensures Unblocked(run, key, lo, lo + WINDOW) == 0
    ensures key in After(run) ==> After(run)[key].1 < lo
  {
    if run != [] {
      NoneYet(run[..|run| - 1], key, lo);
    }
  }

  /** After attempts before `lo`, no continuation lets more than five attempts of a key pass in the
      window length from `lo`, exactly when the key's entry has no room left at `lo`. */
  lemma FiveExactly(run: seq<Attempt>, key: string, lo: int)
    requires Clocked(run) && forall i | 0 <= i < |run| :: run[i].now < lo
    ensures (forall more | Follows(more, lo) :: AtMostFive(run + more, key, lo)) <==> !RoomLeft(After(run), key, lo)
  {
    if RoomLeft(After(run), key, lo) {
      var more := SixMore(run, key, lo);
      assert Follows(more, lo) && !AtMostFive(run + more, key, lo);
    } else {
      forall more | Follows(more, lo) ensures AtMostFive(run + more, key, lo) {
        StaysSettled(run, more, key, lo);
      }
    }
  }

  /** `n` attempts of one key at one instant. */
  function Times(key: string, now: int, n: nat): seq<Attempt>
  {
    seq(n, i => Attempt(key, now))
  }

  /** An attempt inside an open window that has room passes. */
  lemma OneMore(run: seq<Attempt>, key: string, now: int, lo: int)
    requires key in After(run) && 0 <= now - After(run)[key].1 <= WINDOW && After(run)[key].0 < MAX_HITS
    requires lo <= now <= lo + WINDOW
    ensures After(run + [Attempt(key, now)]) == After(run)[key := (After(run)[key].0 + 1, After(run)[key].1)]
    ensures Unblocked(run + [Attempt(key, now)], key, lo, lo + WINDOW) == Unblocked(run, key, lo, lo + WINDOW) + 1
  {
    Extend(run, Attempt(key, now), key, lo);
  }

  lemma TimesFront(run: seq<Attempt>, key: string, now: int, n: nat)
    requires 0 < n
    ensures run + Times(key, now, n) == run + [Attempt(key, now)] + Times(key, now, n - 1)
  {
  }

  /** As many as there is room for pass. */
  lemma {:induction false} Repeat(run: seq<Attempt>, key: string, now: int, n: nat, lo: int) returns (longer: seq<Attempt>)
    requires key in After(run) && 0 <= now - After(run)[key].1 <= WINDOW && After(run)[key].0 + n <= MAX_HITS
    requires lo <= now <= lo + WINDOW
    ensures longer == run + Times(key, now, n)
    ensures key in After(longer) && After(longer)[key] == (After(run)[key].0 + n, After(run)[key].1)
    ensures Unblocked(longer, key, lo, lo + WINDOW) == Unblocked(run, key, lo, lo + WINDOW) + n
    decreases n
  {
    if n == 0 {
      longer := run;
    } else {
      OneMore(run, key, now, lo);
      longer := Repeat(run + [Attempt(key, now)], key, now, n - 1, lo);
      TimesFront(run, key, now, n);
    }
  }

  /** Five attempts at an instant after the key's window has ended open a new window, and pass. */
  lemma FreshFive(run: seq<Attempt>, key: string, now: int, lo: int) returns (longer: seq<Attempt>)
    requires key in After(run) && After(run)[key].1 + WINDOW < now && lo <= now <= lo + WINDOW
    ensures longer == run + Times(key, now, 5)
    ensures Unblocked(longer, key, lo, lo + WINDOW) == Unblocked(run, key, lo, lo + WINDOW) + 5
  {
    Extend(run, Attempt(key, now), key, lo);
    longer := Repeat(run + [Attempt(key, now)], key, now, 4, lo);
    TimesFront(run, key, now, 5);
  }

  /** One attempt at `lo`, in the old window, and five in the next. */
  lemma SixMore(run: seq<Attempt>, key: string, lo: int) returns (more: seq<Attempt>)
    requires (forall i | 0 <= i < |run| :: run[i].now < lo) && RoomLeft(After(run), key, lo)
    ensures Follows(more, lo) && Unblocked(run + more, key, lo, lo + WINDOW) == 6
  {
    NoneYet(run, key, lo);
    var next := After(run)[key].1 + WINDOW + 1;
    more := Times(key, lo, 1) + Times(key, next, 5);
    var early := Repeat(run, key, lo, 1, lo);
    var all := FreshFive(early, key, next, lo);
    assert all == run + more;
  }

  lemma ClockedTimes(run: seq<Attempt>, key: string, now: int, n: nat)
    requires Clocked(run) && forall i | 0 <= i < |run| :: run[i].now <= now
    ensures Clocked(run + Times(key, now, n)) && forall i | 0 <= i < |run| + n :: (run + Times(key, now, n))[i].now <= now
  {
  }

  /** The bound of nine is attained: one attempt, four just before its window ends, and five just
      after. */
  lemma NineAttained(key: string) returns (run: seq<Attempt>)
    ensures Clocked(run) && Unblocked(run, key, WINDOW, WINDOW + 60_000_000_000) == 9
  {
    var first := Times(key, 0, 1);
    assert [] + [Attempt(key, 0)] == first;
    Extend([], Attempt(key, 0), key, WINDOW);
    var early := Repeat(first, key, WINDOW, 4, WINDOW);
    ClockedTimes(first, key, WINDOW, 4);
    run := FreshFive(early, key, WINDOW + 1, WINDOW);
    ClockedTimes(early, key, WINDOW + 1, 5);
  }
}
