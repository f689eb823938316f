/** The distribution worker: polls for pending jobs, sends each, and retries with back-off. */
module DistributionJobs {
  import opened Wrappers

  const MAX_ATTEMPTS := 3
  const BATCH := 50

  datatype Status = Pending | Completed | Failed

  datatype Job = Job(status: Status, attempts: nat, nextAttemptAt: Option<int>)

  /** The rows of the jobs table, oldest first. */
  type Rows = seq<Job>

  const NEW_JOB := Job(Pending, 0, None)

  function Pow5(n: nat): nat
  {
    if n == 0 then 1 else 5 * Pow5(n - 1)
  }

  predicate Eligible(j: Job, now: int)
  {
    j.status == Pending && j.attempts < MAX_ATTEMPTS && (j.nextAttemptAt.None? || j.nextAttemptAt.value <= now)
  }

  /** How a job's execution goes. */
  datatype Outcome = NoConnector | Delivered | SendFailed

  function MarkedFailed(j: Job, now: int): Job
  {
    if j.attempts + 1 >= MAX_ATTEMPTS then Job(Failed, j.attempts + 1, None)
    else Job(Pending, j.attempts + 1, Some(now + Pow5(j.attempts + 1)))
  }

  /** One execution of the job at position `job`: when its row was fetched, when the result was
      written, the result, and whether the write reached the table. */
  datatype Execution = Execution(job: nat, fetchedAt: int, at: int, outcome: Outcome, recorded: bool)

  function Executed(j: Job, e: Execution): Job
  {
    if !e.recorded then j
    else if e.outcome == Delivered then j.(status := Completed)
    else MarkedFailed(j, e.at)
  }

  /** An execution of a row that was eligible when it was fetched and has not changed since. */
  predicate Executable(rows: Rows, e: Execution)
  {
    e.job < |rows| && e.fetchedAt <= e.at && Eligible(rows[e.job], e.fetchedAt)
  }

  function Apply(rows: Rows, e: Execution): Rows
    requires e.job < |rows|
  {
    rows[e.job := Executed(rows[e.job], e)]
  }

  /** The executions `es` happen one after the other, each to an eligible row. */
  predicate AllExecutable(rows: Rows, es: seq<Execution>)
    decreases |es|
  {
    es == [] || (Executable(rows, es[0]) && AllExecutable(Apply(rows, es[0]), es[1..]))
  }

  function ApplyAll(rows: Rows, es: seq<Execution>): Rows
    requires AllExecutable(rows, es)
    decreases |es|
  {
    if es == [] then rows else ApplyAll(Apply(rows, es[0]), es[1..])
  }

  /** What the fetch promises: the oldest eligible rows, at most a batch of them, in order. */
  predicate OldestEligible(rows: Rows, now: int, ids: seq<nat>)
  {
    && |ids| <= BATCH
    && (forall i | 0 <= i < |ids| :: ids[i] < |rows| && Eligible(rows[ids[i]], now))
    && (forall i, k | 0 <= i < k < |ids| :: ids[i] < ids[k])
    && (forall j | 0 <= j < |rows| && Eligible(rows[j], now) && j !in ids ::
          |ids| == BATCH && forall i | 0 <= i < |ids| :: ids[i] < j)
  }

  /** What the connector and the clock do to the k-th job of a batch. */
  datatype Fate = Fate(at: int, outcome: Outcome, recorded: bool)

  class DistributionWorker {
    var rows: Rows

    constructor ()
      ensures rows == []
    {
      rows := [];
    }

    method FetchBatch(now: int) returns (ids: seq<nat>)
      ensures OldestEligible(rows, now, ids)
    {
      ids := [];
      var j := 0;
      while j < |rows| && |ids| < BATCH
        invariant j <= |rows| && |ids| <= BATCH
        invariant forall i | 0 <= i < |ids| :: ids[i] < j && Eligible(rows[ids[i]], now)
        invariant forall i, k | 0 <= i < k < |ids| :: ids[i] < ids[k]
        invariant forall k | 0 <= k < j && Eligible(rows[k], now) :: k in ids
      {
        if Eligible(rows[j], now) {
          ids := ids + [j];
        }
        j := j + 1;
      }
    }

    method MarkCompleted(job: nat)
      requires job < |rows|
      modifies this
      ensures rows == old(rows)[job := old(rows)[job].(status := Completed)]
    {
      rows := rows[job := rows[job].(status := Completed)];
    }

    method MarkFailed(job: nat, now: int)
      requires job < |rows|
      modifies this
      ensures rows == old(rows)[job := MarkedFailed(old(rows)[job], now)]
    {
      var j := rows[job];
      var attempts := j.attempts + 1;
      var status := if attempts >= MAX_ATTEMPTS then Failed else Pending;
      var next := if attempts >= MAX_ATTEMPTS then None else Some(now + Pow5(attempts));
      rows := rows[job := Job(status, attempts, next)];
    }

    method ExecuteJob(e: Execution)
      requires e.job < |rows|
      modifies this
      ensures rows == Apply(old(rows), e)
    {
      if e.recorded {
        match e.outcome {
          case NoConnector => MarkFailed(e.job, e.at);
          case Delivered => MarkCompleted(e.job);
          case SendFailed => MarkFailed(e.job, e.at);
        }
      }
    }

    /** One poll at `now`; `fates[k]` is what befalls the k-th fetched job. */
    method ProcessBatch(now: int, fates: seq<Fate>) returns (done: seq<Execution>)
      requires |fates| == BATCH && forall k | 0 <= k < BATCH :: now <= fates[k].at
      modifies this
      ensures OldestEligible(old(rows), now, seq(|done|, k requires 0 <= k < |done| => done[k].job))
      ensures AllExecutable(old(rows), done) && rows == ApplyAll(old(rows), done)
      ensures |done| <= BATCH
      ensures forall k | 0 <= k < |done| ::
                done[k] == Execution(done[k].job, now, fates[k].at, fates[k].outcome, fates[k].recorded)
    {
      var ids := FetchBatch(now);
      done := [];
      for k := 0 to |ids|
        invariant |done| == k && |rows| == |old(rows)|
        invariant forall i | 0 <= i < k :: done[i] == Execution(ids[i], now, fates[i].at, fates[i].outcome, fates[i].recorded)
        invariant forall i | k <= i < |ids| :: rows[ids[i]] == old(rows)[ids[i]]
        invariant AllExecutable(old(rows), done) && rows == ApplyAll(old(rows), done)
      {
        var e := Execution(ids[k], now, fates[k].at, fates[k].outcome, fates[k].recorded);
        ExecuteOneMore(old(rows), done, e);
        ExecuteJob(e);
        done := done + [e];
      }
      assert seq(|done|, k requires 0 <= k < |done| => done[k].job) == ids;
    }
  }

  lemma {:induction false} ExecuteOneMore(rows: Rows, es: seq<Execution>, e: Execution)
    requires AllExecutable(rows, es) && Executable(ApplyAll(rows, es), e)
    ensures AllExecutable(rows, es + [e]) && ApplyAll(rows, es + [e]) == Apply(ApplyAll(rows, es), e)
    decreases |es|
  {
    if es == [] {
      assert es + [e] == [e];
      assert [e][1..] == [];
    } else {
      assert (es + [e])[1..] == es[1..] + [e];
      ExecuteOneMore(Apply(rows, es[0]), es[1..], e);
    }
  }

  /** A pending job whose time has come, and that has been tried fewer than three times, is in the
      fetch, unless fifty older jobs that are due as well fill it; nothing else is in it. */
  lemma DueJobIsFetched(rows: Rows, now: int, ids: seq<nat>, job: nat)
    requires OldestEligible(rows, now, ids) && job < |rows|
    ensures var due := rows[job].status == Pending && rows[job].attempts <= 2
                       && (rows[job].nextAttemptAt == None || (rows[job].nextAttemptAt.Some? && rows[job].nextAttemptAt.value <= now));
            (job in ids ==> due)
            && (due && job !in ids ==> |ids| == 50 && forall i | 0 <= i < |ids| :: ids[i] < job)
            && |ids| <= 50
  {
  }

  // -- Runs ------------------------------------------------------------------------------

  /** The table changes by new jobs and by the single worker's executions. */
  datatype Step = Insert | Execute(e: Execution)

  predicate Enabled(rows: Rows, step: Step)
  {
    step.Execute? ==> Executable(rows, step.e)
  }

  function Next(rows: Rows, step: Step): Rows
    requires Enabled(rows, step)
  {
    match step
    case Insert => rows + [NEW_JOB]
    case Execute(e) => Apply(rows, e)
  }

  predicate Moves(states: seq<Rows>, steps: seq<Step>, i: nat)
    requires i < |steps| < |states|
  {
    Enabled(states[i], steps[i]) && states[i + 1] == Next(states[i], steps[i])
  }

  predicate Run(states: seq<Rows>, steps: seq<Step>)
  {
    && |states| == |steps| + 1 && states[0] == []
    && forall i: nat | i < |steps| :: Moves(states, steps, i)
  }

  /** Executions of a job among the first `n` steps, and those whose result was not recorded. */
  function Sends(steps: seq<Step>, n: nat, job: nat): nat
    requires n <= |steps|
  {
    if n == 0 then 0
    else Sends(steps, n - 1, job) + (if steps[n - 1].Execute? && steps[n - 1].e.job == job then 1 else 0)
  }

  function Unrecorded(steps: seq<Step>, n: nat, job: nat): nat
    requires n <= |steps|
  {
    if n == 0 then 0
    else
      Unrecorded(steps, n - 1, job)
      + (if steps[n - 1].Execute? && steps[n - 1].e.job == job && !steps[n - 1].e.recorded then 1 else 0)
  }

  /** When the latest recorded failure of a job was written, or `None`. */
  function LastFailure(steps: seq<Step>, n: nat, job: nat): Option<int>
    requires n <= |steps|
  {
    if n == 0 then None
    else if steps[n - 1].Execute? && steps[n - 1].e.job == job && steps[n - 1].e.recorded && steps[n - 1].e.outcome != Delivered
    then Some(steps[n - 1].e.at)
    else LastFailure(steps, n - 1, job)
  }

  predicate RowOk(j: Job, sends: nat, unrecorded: nat, lastFailure: Option<int>)
  {
    && sends == j.attempts + (if j.status == Completed then 1 else 0) + unrecorded
    && (j.status == Failed <==> j.attempts == MAX_ATTEMPTS)
    && j.attempts <= MAX_ATTEMPTS
    && (j.attempts > 0 <==> lastFailure.Some?)
    && (j.status == Pending ==>
          j.nextAttemptAt == if j.attempts == 0 then None else Some(lastFailure.value + Pow5(j.attempts)))
  }

  lemma RowStep(rows: Rows, step: Step, job: nat, sends: nat, unrecorded: nat, lastFailure: Option<int>)
    requires Enabled(rows, step) && job < |rows| && RowOk(rows[job], sends, unrecorded, lastFailure)
    ensures var mine := step.Execute? && step.e.job == job;
            RowOk(Next(rows, step)[job],
                  sends + (if mine then 1 else 0),
                  unrecorded + (if mine && !step.e.recorded then 1 else 0),
                  if mine && step.e.recorded && step.e.outcome != Delivered then Some(step.e.at) else lastFailure)
  {
  }

  /** The state of a job's row after `n` steps, told by the steps. */
  ghost predicate RowFollows(rows: Rows, steps: seq<Step>, n: nat, job: nat)
    requires n <= |steps|
  {
    if job < |rows| then RowOk(rows[job], Sends(steps, n, job), Unrecorded(steps, n, job), LastFailure(steps, n, job))
    else Sends(steps, n, job) == 0 && Unrecorded(steps, n, job) == 0 && LastFailure(steps, n, job) == None
  }

  lemma RowFollowsStep(rows: Rows, steps: seq<Step>, n: nat, job: nat)
    requires n < |steps| && Enabled(rows, steps[n]) && RowFollows(rows, steps, n, job)
    ensures RowFollows(Next(rows, steps[n]), steps, n + 1, job)
  {
    if job < |rows| {
      RowStep(rows, steps[n], job, Sends(steps, n, job), Unrecorded(steps, n, job), LastFailure(steps, n, job));
    }
  }

  lemma {:induction false} RowsOk(states: seq<Rows>, steps: seq<Step>, n: nat, job: nat)
    requires Run(states, steps) && n < |states|
    ensures RowFollows(states[n], steps, n, job)
  {
    if n > 0 {
      RowsOk(states, steps, n - 1, job);
      assert Moves(states, steps, n - 1);
      RowFollowsStep(states[n - 1], steps, n - 1, job);
    }
  }

  /** A job is sent at most three times, plus once for every result that was not recorded; a
      pending job always has attempts left. */
  lemma AtMostThreeSends(states: seq<Rows>, steps: seq<Step>, n: nat, job: nat)
    requires Run(states, steps) && n < |states|
    ensures Sends(steps, n, job) <= MAX_ATTEMPTS + Unrecorded(steps, n, job)
    ensures job < |states[n]| && states[n][job].status == Pending ==>
              states[n][job].attempts < MAX_ATTEMPTS && exists t :: Eligible(states[n][job], t)
  {
    RowsOk(states, steps, n, job);
    if job < |states[n]| && states[n][job].status == Pending {
      var j := states[n][job];
      assert Eligible(j, if j.nextAttemptAt.Some? then j.nextAttemptAt.value else 0);
    }
  }

  /** Completed and failed are absorbing: such a job is neither executed nor changed again. */
  lemma {:induction false} TerminalForever(states: seq<Rows>, steps: seq<Step>, m: nat, n: nat, job: nat)
    requires Run(states, steps) && m <= n < |states| && job < |states[m]| && states[m][job].status != Pending
    ensures job < |states[n]| && states[n][job] == states[m][job] && Sends(steps, n, job) == Sends(steps, m, job)
  {
    if m < n {
      TerminalForever(states, steps, m, n - 1, job);
      assert Moves(states, steps, n - 1);
    }
  }

  /** The retry after a job's k-th recorded failure is fetched at least 5^k seconds after that
      failure was written; k is 1 or 2, so the waits are 5 and 25 seconds and never 125. */
  lemma BackOff(states: seq<Rows>, steps: seq<Step>, n: nat)
    requires Run(states, steps) && n < |steps| && steps[n].Execute?
    ensures Executable(states[n], steps[n].e)
    ensures var e := steps[n].e;
            var k := states[n][e.job].attempts;
            k < MAX_ATTEMPTS
            && (k > 0 ==> LastFailure(steps, n, e.job).Some?
                          && LastFailure(steps, n, e.job).value + (if k == 1 then 5 else 25) <= e.fetchedAt <= e.at)
  {
    assert Moves(states, steps, n);
    RowsOk(states, steps, n, steps[n].e.job);
    assert Pow5(1) == 5 && Pow5(2) == 25;
  }

  /** The attempts that pending jobs have left. */
  function Work(rows: Rows): nat
  {
    if rows == [] then 0 else Work(rows[..|rows| - 1]) + Left(rows[|rows| - 1])
  }

  function Left(j: Job): nat
  {
    if j.status == Pending && j.attempts < MAX_ATTEMPTS then MAX_ATTEMPTS - j.attempts else 0
  }

  lemma {:induction false} WorkUpdate(rows: Rows, i: nat, j: Job)
    requires i < |rows|
    ensures Work(rows[i := j]) == Work(rows) - Left(rows[i]) + Left(j)
  {
    var front := rows[..|rows| - 1];
    if i == |rows| - 1 {
      assert rows[i := j][..|rows| - 1] == front;
    } else {
      WorkUpdate(front, i, j);
      assert rows[i := j][..|rows| - 1] == front[i := j];
    }
  }

  function Recorded(steps: seq<Step>, n: nat): nat
    requires n <= |steps|
  {
    if n == 0 then 0 else Recorded(steps, n - 1) + (if steps[n - 1].Execute? && steps[n - 1].e.recorded then 1 else 0)
  }

  lemma WorkStep(rows: Rows, step: Step)
    requires Enabled(rows, step)
    ensures step.Insert? ==> Work(Next(rows, step)) == Work(rows) + 3 && |Next(rows, step)| == |rows| + 1
    ensures step.Execute? && step.e.recorded ==> Work(Next(rows, step)) < Work(rows)
    ensures step.Execute? && !step.e.recorded ==> Next(rows, step) == rows
    ensures step.Execute? ==> |Next(rows, step)| == |rows|
  {
    match step
    case Insert => assert (rows + [NEW_JOB])[..|rows|] == rows;
    case Execute(e) => WorkUpdate(rows, e.job, Executed(rows[e.job], e));
  }

  /** Every recorded execution uses up work: n jobs take at most 3n recorded executions, and when
      that many have run, nothing is pending. */
  lemma {:induction false} DrainsInThreePerJob(states: seq<Rows>, steps: seq<Step>, n: nat)
    requires Run(states, steps) && n < |states|
    ensures Recorded(steps, n) + Work(states[n]) <= 3 * |states[n]|
    ensures Recorded(steps, n) == 3 * |states[n]| ==> forall i | 0 <= i < |states[n]| :: states[n][i].status != Pending
  {
    if n > 0 {
      DrainsInThreePerJob(states, steps, n - 1);
      assert Moves(states, steps, n - 1);
      WorkStep(states[n - 1], steps[n - 1]);
    }
    forall i | 0 <= i < |states[n]| && Work(states[n]) == 0 ensures states[n][i].status != Pending {
      RowsOk(states, steps, n, i);
      WorkUpdate(states[n], i, Job(Completed, 0, None));
    }
  }
}
