/** Chunked ingest as interleaved steps: upload handlers create job rows and enqueue chunks,
    any number of workers pop, process, report, check and complete, and calls may fail. */
module IngestProtocol {
  import opened Wrappers
  import opened IngestJobs

  /** A chunk of an upload; its payload names its job and carries its records. */
  datatype Chunk = Chunk(id: nat, job: Id, records: nat)

  type Worker = nat

  /** Where a busy worker is. A worker that is not in the map is idle. */
  datatype Stage =
    | Handling(chunk: Chunk)
    | Reporting(chunk: Chunk, processed: nat, failed: nat)
    | Checking(job: Id)
    | Completing(job: Id)

  /** A chunk whose progress update has run, with the counters it reported. */
  datatype Entry = Entry(chunk: Chunk, processed: nat, failed: nat)

  /** Where a chunk is: not enqueued yet, queued, in a worker's hands, counted (and as which log
      entry), or never to be counted. */
  datatype Place = Waiting | Queued | InHand(w: Worker) | Counted(i: nat) | Lost

  /** `waiting` chunks are not enqueued yet; `lost` ones will never be counted; `abandoned` names
      the finished jobs still marked 'processing' for which a completion check or the completing
      update has failed. No step reads `log`, `lost`, `abandoned` or `place` to decide anything:
      they record what has happened. */
  datatype State = State(
    rows: Rows,
    waiting: set<Chunk>,
    queue: set<Chunk>,
    workers: map<Worker, Stage>,
    log: seq<Entry>,
    lost: set<Chunk>,
    abandoned: set<Id>,
    place: map<Chunk, Place>)

  datatype Step =
    | CreateJob(job: Id)
    | Enqueue(c: Chunk)
    | EnqueueFails(c: Chunk)
    | Pop(w: Worker, c: Chunk)
    | Malformed(w: Worker)
    | Process(w: Worker, processed: nat, failed: nat)
    | Report(w: Worker)
    | ReportFails(w: Worker)
    | Check(w: Worker)
    | CheckFails(w: Worker)
    | Complete(w: Worker)
    | CompleteFails(w: Worker)

  function ChunksOf(plan: set<Chunk>, job: Id): set<Chunk>
  {
    set c | c in plan && c.job == job
  }

  function Initial(plan: set<Chunk>): State
  {
    State(map[], plan, {}, map[], [], {}, {}, map c | c in plan :: Waiting)
  }

  predicate Enabled(plan: set<Chunk>, st: State, step: Step)
  {
    match step
    case CreateJob(job) => job !in st.rows && ChunksOf(plan, job) != {} && FitsI32(|ChunksOf(plan, job)|)
    case Enqueue(c) => c in st.waiting && c.job in st.rows
    case EnqueueFails(c) => c in st.waiting
    case Pop(w, c) => w !in st.workers && c in st.queue
    case Malformed(w) => w in st.workers && st.workers[w].Handling?
    case Process(w, _, _) => w in st.workers && st.workers[w].Handling?
    case Report(w) =>
      w in st.workers && st.workers[w].Reporting?
      && (var Reporting(c, p, f) := st.workers[w]; c.job in st.rows && UpdateFits(st.rows[c.job], AsI32(p), AsI32(f)))
    case ReportFails(w) => w in st.workers && st.workers[w].Reporting?
    case Check(w) => w in st.workers && st.workers[w].Checking? && st.workers[w].job in st.rows
    case CheckFails(w) => w in st.workers && st.workers[w].Checking?
    case Complete(w) => w in st.workers && st.workers[w].Completing? && st.workers[w].job in st.rows
    case CompleteFails(w) => w in st.workers && st.workers[w].Completing?
  }

  /** The abandoned jobs once a completion call of `job` has failed; an early check does no harm. */
  function GivenUp(st: State, job: Id): set<Id>
  {
    if job in st.rows && AllDone(st.rows[job]) && st.rows[job].status == Processing then st.abandoned + {job}
    else st.abandoned
  }

  function Next(plan: set<Chunk>, st: State, step: Step): State
    requires Enabled(plan, st, step)
  {
    match step
    case CreateJob(job) => st.(rows := st.rows[job := NewRow(|ChunksOf(plan, job)|)])
    case Enqueue(c) => st.(waiting := st.waiting - {c}, queue := st.queue + {c}, place := st.place[c := Queued])
    case EnqueueFails(c) => st.(waiting := st.waiting - {c}, lost := st.lost + {c}, place := st.place[c := Lost])
    case Pop(w, c) =>
      st.(queue := st.queue - {c}, workers := st.workers[w := Handling(c)], place := st.place[c := InHand(w)])
    case Malformed(w) =>
      var c := st.workers[w].chunk;
      st.(workers := st.workers - {w}, lost := st.lost + {c}, place := st.place[c := Lost])
    case Process(w, p, f) => st.(workers := st.workers[w := Reporting(st.workers[w].chunk, p, f)])
    case Report(w) =>
      var Reporting(c, p, f) := st.workers[w];
      st.(rows := st.rows[c.job := Progressed(st.rows[c.job], AsI32(p), AsI32(f))],
          workers := st.workers[w := Checking(c.job)],
          log := st.log + [Entry(c, p, f)],
          place := st.place[c := Counted(|st.log|)])
    case ReportFails(w) =>
      var c := st.workers[w].chunk;
      st.(workers := st.workers[w := Checking(c.job)], lost := st.lost + {c}, place := st.place[c := Lost])
    case Check(w) =>
      var job := st.workers[w].job;
      if AllDone(st.rows[job]) then st.(workers := st.workers[w := Completing(job)]) else st.(workers := st.workers - {w})
    case CheckFails(w) => st.(workers := st.workers - {w}, abandoned := GivenUp(st, st.workers[w].job))
    case Complete(w) =>
      var job := st.workers[w].job;
      st.(rows := st.rows[job := Finished(st.rows[job])], workers := st.workers - {w}, abandoned := st.abandoned - {job})
    case CompleteFails(w) => st.(workers := st.workers - {w}, abandoned := GivenUp(st, st.workers[w].job))
  }

  // -- What the log says -----------------------------------------------------------------

  /** The chunks of a job that have been counted. */
  function CountedOf(log: seq<Entry>, job: Id): set<Chunk>
  {
    set i | 0 <= i < |log| && log[i].chunk.job == job :: log[i].chunk
  }

  function ProcessedSum(log: seq<Entry>, job: Id): int
  {
    if log == [] then 0
    else
      var e := log[|log| - 1];
      ProcessedSum(log[..|log| - 1], job) + (if e.chunk.job == job then AsI32(e.processed) else 0)
  }

  function FailedSum(log: seq<Entry>, job: Id): int
  {
    if log == [] then 0
    else
      var e := log[|log| - 1];
      FailedSum(log[..|log| - 1], job) + (if e.chunk.job == job then AsI32(e.failed) else 0)
  }

  predicate IsCounted(log: seq<Entry>, c: Chunk)
  {
    exists i :: 0 <= i < |log| && log[i].chunk == c
  }

  // -- The invariant ---------------------------------------------------------------------

  predicate HasChunk(st: State, w: Worker)
  {
    w in st.workers && (st.workers[w].Handling? || st.workers[w].Reporting?)
  }

  ghost predicate PlacedInSets(plan: set<Chunk>, st: State)
  {
    && st.place.Keys == plan
    && st.waiting <= plan && st.queue <= plan && st.lost <= plan
    && (forall c | c in plan :: c in st.waiting <==> st.place[c] == Waiting)
    && (forall c | c in plan :: c in st.queue <==> st.place[c] == Queued)
    && (forall c | c in plan :: c in st.lost <==> st.place[c] == Lost)
  }

  ghost predicate PlacedInHands(plan: set<Chunk>, st: State)
  {
    && st.place.Keys == plan
    && (forall w | HasChunk(st, w) :: st.workers[w].chunk in plan && st.place[st.workers[w].chunk] == InHand(w))
    && (forall c | c in plan && st.place[c].InHand? :: HasChunk(st, st.place[c].w) && st.workers[st.place[c].w].chunk == c)
  }

  ghost predicate PlacedInLog(plan: set<Chunk>, st: State)
  {
    && st.place.Keys == plan
    && (forall i | 0 <= i < |st.log| :: st.log[i].chunk in plan && st.place[st.log[i].chunk] == Counted(i))
    && (forall c | c in plan && st.place[c].Counted? :: st.place[c].i < |st.log| && st.log[st.place[c].i].chunk == c)
  }

  /** Every chunk is in exactly one place, and there only once. */
  ghost predicate Placed(plan: set<Chunk>, st: State)
  {
    PlacedInSets(plan, st) && PlacedInHands(plan, st) && PlacedInLog(plan, st)
  }

  /** Work exists only for jobs with a row. */
  ghost predicate Backed(st: State)
  {
    && (forall c | c in st.queue :: c.job in st.rows)
    && (forall w | HasChunk(st, w) :: st.workers[w].chunk.job in st.rows)
    && (forall w | w in st.workers && (st.workers[w].Checking? || st.workers[w].Completing?) :: st.workers[w].job in st.rows)
    && (forall i | 0 <= i < |st.log| :: st.log[i].chunk.job in st.rows)
  }

  /** Conservation: a row's counters are the sums over exactly the counted chunks of its job. */
  ghost predicate Conserved(plan: set<Chunk>, st: State)
  {
    forall job | job in st.rows ::
      st.rows[job].processed == ProcessedSum(st.log, job)
      && st.rows[job].failed == FailedSum(st.log, job)
      && st.rows[job].chunksDone == |CountedOf(st.log, job)|
      && st.rows[job].chunksTotal == |ChunksOf(plan, job)| > 0
  }

  /** No early completion: a row leaves 'processing' only when all its chunks are counted, with
      the status its counters call for. */
  ghost predicate NoneEarly(st: State)
  {
    && (forall job | job in st.rows && st.rows[job].status != Processing ::
          AllDone(st.rows[job]) && st.rows[job] == Finished(st.rows[job]))
    && (forall w | w in st.workers && st.workers[w].Completing? && st.workers[w].job in st.rows :: AllDone(st.rows[st.workers[w].job]))
  }

  predicate Finisher(st: State, w: Worker, job: Id)
  {
    w in st.workers && (st.workers[w] == Checking(job) || st.workers[w] == Completing(job))
  }

  /** A finished job still marked 'processing' has a worker about to complete it. */
  ghost predicate NoneForgotten(st: State)
  {
    forall job | Due(st, job) :: exists w :: Finisher(st, w, job)
  }

  /** An abandoned job is still marked 'processing'. */
  ghost predicate AbandonedOpen(st: State)
  {
    forall job | job in st.abandoned :: job in st.rows && st.rows[job].status == Processing
  }

  /** The counters stay within their columns. */
  ghost predicate CountersFit(st: State)
  {
    forall job | job in st.rows :: FitsI32(st.rows[job].processed) && FitsI32(st.rows[job].failed)
  }

  ghost predicate Inv(plan: set<Chunk>, st: State)
  {
    && Placed(plan, st) && Backed(st) && Conserved(plan, st)
    && NoneEarly(st) && NoneForgotten(st) && AbandonedOpen(st) && CountersFit(st)
  }

  lemma CountedGrows(log: seq<Entry>, e: Entry, job: Id)
    ensures CountedOf(log + [e], job) == CountedOf(log, job) + (if e.chunk.job == job then {e.chunk} else {})
    ensures ProcessedSum(log + [e], job) == ProcessedSum(log, job) + (if e.chunk.job == job then AsI32(e.processed) else 0)
    ensures FailedSum(log + [e], job) == FailedSum(log, job) + (if e.chunk.job == job then AsI32(e.failed) else 0)
    ensures forall c :: IsCounted(log + [e], c) <==> IsCounted(log, c) || c == e.chunk
  {
    var longer := log + [e];
    assert longer[..|log|] == log;
    assert longer[|log|] == e;
    forall c ensures IsCounted(longer, c) <==> IsCounted(log, c) || c == e.chunk {
      if IsCounted(log, c) {
        var i :| 0 <= i < |log| && log[i].chunk == c;
        assert longer[i].chunk == c;
      }
    }
    forall c ensures c in CountedOf(longer, job) <==> c in CountedOf(log, job) || (c == e.chunk && c.job == job) {
      if c in CountedOf(log, job) {
        var i :| 0 <= i < |log| && log[i].chunk == c;
        assert longer[i].chunk == c;
      }
    }
  }

  lemma CountedIffIsCounted(log: seq<Entry>, c: Chunk)
    ensures c in CountedOf(log, c.job) <==> IsCounted(log, c)
  {
  }

  lemma {:induction false} NothingCounted(log: seq<Entry>, job: Id)
    requires forall i | 0 <= i < |log| :: log[i].chunk.job != job
    ensures ProcessedSum(log, job) == 0 && FailedSum(log, job) == 0 && CountedOf(log, job) == {}
  {
    if log != [] {
      NothingCounted(log[..|log| - 1], job);
    }
  }

  /** While a chunk of a job is not counted, the job is not done; when all are, it is. */
  lemma DoneIffAllCounted(plan: set<Chunk>, st: State, job: Id)
    requires Placed(plan, st) && Conserved(plan, st) && job in st.rows
    ensures st.rows[job].chunksDone <= st.rows[job].chunksTotal
    ensures AllDone(st.rows[job]) <==> forall c | c in ChunksOf(plan, job) :: IsCounted(st.log, c)
  {
    var counted, all := CountedOf(st.log, job), ChunksOf(plan, job);
    assert counted <= all;
    Smaller(counted, all);
    forall c | c in all ensures c in counted <==> IsCounted(st.log, c) {
      CountedIffIsCounted(st.log, c);
    }
  }

  lemma Smaller(a: set<Chunk>, b: set<Chunk>)
    requires a <= b
    ensures |a| <= |b| && (|a| == |b| <==> a == b)
  {
    assert b == a + (b - a);
  }

  lemma PlacedInSetsUpload(plan: set<Chunk>, st: State, step: Step)
    requires PlacedInSets(plan, st) && Enabled(plan, st, step)
    requires step.CreateJob? || step.Enqueue? || step.EnqueueFails? || step.Pop?
    ensures PlacedInSets(plan, Next(plan, st, step))
  {
  }

  lemma PlacedInSetsWorker(plan: set<Chunk>, st: State, step: Step)
    requires PlacedInSets(plan, st) && PlacedInHands(plan, st) && Enabled(plan, st, step)
    requires step.Malformed? || step.Report? || step.ReportFails?
    ensures PlacedInSets(plan, Next(plan, st, step))
  {
    assert HasChunk(st, step.w) && st.workers[step.w].chunk in plan;
  }

  lemma PlacedInSetsStep(plan: set<Chunk>, st: State, step: Step)
    requires PlacedInSets(plan, st) && PlacedInHands(plan, st) && Enabled(plan, st, step)
    ensures PlacedInSets(plan, Next(plan, st, step))
  {
    if step.CreateJob? || step.Enqueue? || step.EnqueueFails? || step.Pop? {
      PlacedInSetsUpload(plan, st, step);
    } else if step.Malformed? || step.Report? || step.ReportFails? {
      PlacedInSetsWorker(plan, st, step);
    }
  }

  lemma PlacedInHandsPop(plan: set<Chunk>, st: State, w: Worker, c: Chunk)
    requires PlacedInSets(plan, st) && PlacedInHands(plan, st) && Enabled(plan, st, Pop(w, c))
    ensures PlacedInHands(plan, Next(plan, st, Pop(w, c)))
  {
    var st' := Next(plan, st, Pop(w, c));
    forall v | HasChunk(st', v) ensures st'.workers[v].chunk in plan && st'.place[st'.workers[v].chunk] == InHand(v) {
      assert v == w || HasChunk(st, v);
    }
  }

  predicate KeepsHands(step: Step)
  {
    step.CreateJob? || step.Enqueue? || step.EnqueueFails? || step.Check? || step.CheckFails? || step.Complete? || step.CompleteFails?
  }

  lemma PlacedInHandsKept(plan: set<Chunk>, st: State, step: Step)
    requires PlacedInSets(plan, st) && PlacedInHands(plan, st) && Enabled(plan, st, step) && KeepsHands(step)
    ensures PlacedInHands(plan, Next(plan, st, step))
  {
    var st' := Next(plan, st, step);
    forall w ensures HasChunk(st', w) <==> HasChunk(st, w) {
    }
    forall c | c in plan && st'.place[c].InHand? ensures HasChunk(st', st'.place[c].w) && st'.workers[st'.place[c].w].chunk == c {
      assert st.place[c] == st'.place[c];
    }
  }

  lemma PlacedInHandsHandled(plan: set<Chunk>, st: State, step: Step)
    requires PlacedInHands(plan, st) && Enabled(plan, st, step)
    requires step.Malformed? || step.Process? || step.Report? || step.ReportFails?
    ensures PlacedInHands(plan, Next(plan, st, step))
  {
    var st' := Next(plan, st, step);
    assert HasChunk(st, step.w);
    forall w | HasChunk(st', w) ensures st'.workers[w].chunk in plan && st'.place[st'.workers[w].chunk] == InHand(w) {
      assert HasChunk(st, w);
    }
    forall c | c in plan && st'.place[c].InHand? ensures HasChunk(st', st'.place[c].w) && st'.workers[st'.place[c].w].chunk == c {
      assert st.place[c] == st'.place[c];
    }
  }

  lemma PlacedInHandsStep(plan: set<Chunk>, st: State, step: Step)
    requires PlacedInSets(plan, st) && PlacedInHands(plan, st) && Enabled(plan, st, step)
    ensures PlacedInHands(plan, Next(plan, st, step))
  {
    if step.Pop? {
      PlacedInHandsPop(plan, st, step.w, step.c);
    } else if KeepsHands(step) {
      PlacedInHandsKept(plan, st, step);
    } else {
      PlacedInHandsHandled(plan, st, step);
    }
  }

  lemma PlacedInLogReport(plan: set<Chunk>, st: State, w: Worker)
    requires PlacedInHands(plan, st) && PlacedInLog(plan, st) && Enabled(plan, st, Report(w))
    ensures PlacedInLog(plan, Next(plan, st, Report(w)))
  {
    assert HasChunk(st, w) && st.place[st.workers[w].chunk] == InHand(w);
  }

  lemma PlacedInLogStep(plan: set<Chunk>, st: State, step: Step)
    requires Placed(plan, st) && Enabled(plan, st, step)
    ensures PlacedInLog(plan, Next(plan, st, step))
  {
    if step.Report? {
      PlacedInLogReport(plan, st, step.w);
    } else {
      assert forall w | HasChunk(st, w) :: !st.place[st.workers[w].chunk].Counted?;
    }
  }

  lemma BackedStep(plan: set<Chunk>, st: State, step: Step)
    requires Placed(plan, st) && Backed(st) && Enabled(plan, st, step)
    ensures Backed(Next(plan, st, step))
  {
  }

  /** The conserved row of a job before and after one more counted chunk. */
  lemma RowConserved(row: JobRow, log: seq<Entry>, e: Entry, job: Id)
    requires row.processed == ProcessedSum(log, job) && row.failed == FailedSum(log, job)
    requires row.chunksDone == |CountedOf(log, job)| && e.chunk !in CountedOf(log, job)
    ensures var row' := if e.chunk.job == job then Progressed(row, AsI32(e.processed), AsI32(e.failed)) else row;
            row'.processed == ProcessedSum(log + [e], job) && row'.failed == FailedSum(log + [e], job)
            && row'.chunksDone == |CountedOf(log + [e], job)|
  {
    CountedGrows(log, e, job);
  }

  lemma ConservedReport(plan: set<Chunk>, st: State, w: Worker)
    requires Placed(plan, st) && Conserved(plan, st) && Enabled(plan, st, Report(w))
    ensures Conserved(plan, Next(plan, st, Report(w)))
  {
    var Reporting(c, p, f) := st.workers[w];
    assert HasChunk(st, w) && st.place[c] == InHand(w);
    forall job | job in st.rows ensures c !in CountedOf(st.log, job) {
    }
    forall job | job in st.rows {
      RowConserved(st.rows[job], st.log, Entry(c, p, f), job);
    }
  }

  lemma ConservedStep(plan: set<Chunk>, st: State, step: Step)
    requires Placed(plan, st) && Backed(st) && Conserved(plan, st) && Enabled(plan, st, step)
    ensures Conserved(plan, Next(plan, st, step))
  {
    if step.Report? {
      ConservedReport(plan, st, step.w);
    } else if step.CreateJob? {
      NothingCounted(st.log, step.job);
      Smaller({}, ChunksOf(plan, step.job));
    }
  }

  /** A chunk in a worker's hands keeps its job from being done. */
  lemma HeldKeepsOpen(plan: set<Chunk>, st: State, w: Worker)
    requires Placed(plan, st) && Backed(st) && Conserved(plan, st) && HasChunk(st, w)
    ensures !AllDone(st.rows[st.workers[w].chunk.job])
  {
    var c := st.workers[w].chunk;
    DoneIffAllCounted(plan, st, c.job);
    assert c in ChunksOf(plan, c.job) && !IsCounted(st.log, c);
  }

  lemma NoneEarlyStep(plan: set<Chunk>, st: State, step: Step)
    requires Backed(st) && NoneEarly(st) && Enabled(plan, st, step) && (step.CreateJob? ==> |ChunksOf(plan, step.job)| > 0)
    requires step.Report? ==> !AllDone(st.rows[st.workers[step.w].chunk.job])
    ensures NoneEarly(Next(plan, st, step))
  {
  }

  /** Whether a job would be forgotten without a finisher. */
  predicate Due(st: State, job: Id)
  {
    job in st.rows && AllDone(st.rows[job]) && st.rows[job].status == Processing && job !in st.abandoned
  }

  /** A job becomes due only by a report, whose worker then checks it. */
  lemma DueStep(plan: set<Chunk>, st: State, step: Step, job: Id)
    requires Enabled(plan, st, step) && Due(Next(plan, st, step), job)
    ensures Due(st, job) || (step.Report? && Finisher(Next(plan, st, step), step.w, job))
  {
    if step.CreateJob? {
      Smaller({}, ChunksOf(plan, step.job));
    }
  }

  /** A finisher of a due job leaves only by completing it. */
  lemma FinisherStep(plan: set<Chunk>, st: State, step: Step, w: Worker, job: Id)
    requires Enabled(plan, st, step) && Due(st, job) && Due(Next(plan, st, step), job) && Finisher(st, w, job)
    ensures Finisher(Next(plan, st, step), w, job)
  {
  }

  lemma NoneForgottenStep(plan: set<Chunk>, st: State, step: Step)
    requires NoneForgotten(st) && Enabled(plan, st, step)
    ensures NoneForgotten(Next(plan, st, step))
  {
    var st' := Next(plan, st, step);
    forall job | Due(st', job) ensures exists w :: Finisher(st', w, job) {
      DueStep(plan, st, step, job);
      if Due(st, job) {
        var w :| Finisher(st, w, job);
        FinisherStep(plan, st, step, w, job);
      }
    }
  }

  lemma AbandonedOpenStep(plan: set<Chunk>, st: State, step: Step)
    requires AbandonedOpen(st) && Enabled(plan, st, step)
    ensures AbandonedOpen(Next(plan, st, step))
  {
  }

  lemma CountersFitStep(plan: set<Chunk>, st: State, step: Step)
    requires CountersFit(st) && Enabled(plan, st, step)
    ensures CountersFit(Next(plan, st, step))
  {
  }

  lemma InvStep(plan: set<Chunk>, st: State, step: Step)
    requires Inv(plan, st) && Enabled(plan, st, step)
    ensures Inv(plan, Next(plan, st, step))
  {
    PlacedInSetsStep(plan, st, step);
    PlacedInHandsStep(plan, st, step);
    PlacedInLogStep(plan, st, step);
    BackedStep(plan, st, step);
    ConservedStep(plan, st, step);
    if step.Report? {
      HeldKeepsOpen(plan, st, step.w);
    }
    NoneEarlyStep(plan, st, step);
    NoneForgottenStep(plan, st, step);
    AbandonedOpenStep(plan, st, step);
    CountersFitStep(plan, st, step);
  }

  // -- Runs ------------------------------------------------------------------------------

  predicate Moves(plan: set<Chunk>, states: seq<State>, steps: seq<Step>, i: nat)
    requires i < |steps| < |states|
  {
    Enabled(plan, states[i], steps[i]) && states[i + 1] == Next(plan, states[i], steps[i])
  }

  predicate Run(plan: set<Chunk>, states: seq<State>, steps: seq<Step>)
  {
    && |states| == |steps| + 1 && states[0] == Initial(plan)
    && forall i: nat | i < |steps| :: Moves(plan, states, steps, i)
  }

  lemma {:induction false} RunInv(plan: set<Chunk>, states: seq<State>, steps: seq<Step>, n: nat)
    requires Run(plan, states, steps) && n < |states|
    ensures Inv(plan, states[n])
  {
    if n > 0 {
      RunInv(plan, states, steps, n - 1);
      assert Moves(plan, states, steps, n - 1);
      InvStep(plan, states[n - 1], steps[n - 1]);
    }
  }

  /** The progress update a step makes, if it makes one. */
  function UpdateOf(st: State, step: Step): seq<Entry>
  {
    if step.Report? && step.w in st.workers && st.workers[step.w].Reporting?
    then [Entry(st.workers[step.w].chunk, st.workers[step.w].processed, st.workers[step.w].failed)] else []
  }

  /** The chunks and counters of the progress updates among the first `n` steps of a run. */
  function Updates(states: seq<State>, steps: seq<Step>, n: nat): seq<Entry>
    requires n <= |steps| < |states|
  {
    if n == 0 then [] else Updates(states, steps, n - 1) + UpdateOf(states[n - 1], steps[n - 1])
  }

  lemma LogStep(plan: set<Chunk>, st: State, step: Step)
    requires Enabled(plan, st, step)
    ensures Next(plan, st, step).log == st.log + UpdateOf(st, step)
  {
    assert st.log + [] == st.log;
  }

  lemma {:induction false} LogIsUpdates(plan: set<Chunk>, states: seq<State>, steps: seq<Step>, n: nat)
    requires Run(plan, states, steps) && n < |states|
    ensures states[n].log == Updates(states, steps, n)
  {
    if n > 0 {
      LogIsUpdates(plan, states, steps, n - 1);
      assert Moves(plan, states, steps, n - 1);
      LogStep(plan, states[n - 1], steps[n - 1]);
    }
  }

  /** On every interleaving, whatever calls fail: a row's counters are the sums over exactly the
      chunks of its job whose progress update has run, and no chunk is counted twice. */
  lemma ConservationOverRuns(plan: set<Chunk>, states: seq<State>, steps: seq<Step>, n: nat, job: Id)
    requires Run(plan, states, steps) && n < |states| && job in states[n].rows
    ensures var updates := Updates(states, steps, n);
            states[n].rows[job].processed == ProcessedSum(updates, job)
            && states[n].rows[job].failed == FailedSum(updates, job)
            && states[n].rows[job].chunksDone == |CountedOf(updates, job)| <= states[n].rows[job].chunksTotal
            && forall i, j | 0 <= i < j < |updates| :: updates[i].chunk != updates[j].chunk
  {
    RunInv(plan, states, steps, n);
    LogIsUpdates(plan, states, steps, n);
    DoneIffAllCounted(plan, states[n], job);
    var st := states[n];
    assert forall i | 0 <= i < |st.log| :: st.place[st.log[i].chunk] == Counted(i);
  }

  /** On every interleaving, a row leaves 'processing' only when every chunk of its job has been
      counted, and then its status is the one its counters call for. */
  lemma NoEarlyCompletion(plan: set<Chunk>, states: seq<State>, steps: seq<Step>, n: nat, job: Id)
    requires Run(plan, states, steps) && n < |states| && job in states[n].rows
    requires states[n].rows[job].status != Processing
    ensures var row := states[n].rows[job];
            row.chunksDone == row.chunksTotal == |ChunksOf(plan, job)|
            && (row.status == Completed <==> row.failed == 0)
            && (row.status == Failed <==> row.failed != 0 && row.processed == 0)
            && (row.status == PartialSuccess <==> row.failed != 0 && row.processed != 0)
    ensures forall c | c in plan && c.job == job :: IsCounted(Updates(states, steps, n), c)
  {
    RunInv(plan, states, steps, n);
    LogIsUpdates(plan, states, steps, n);
    DoneIffAllCounted(plan, states[n], job);
    forall c | c in plan && c.job == job ensures IsCounted(states[n].log, c) {
      assert c in ChunksOf(plan, job);
    }
  }

  lemma TerminalRowStep(plan: set<Chunk>, st: State, step: Step, job: Id)
    requires NoneEarly(st) && Enabled(plan, st, step) && job in st.rows && st.rows[job].status != Processing
    requires step.Report? ==> !AllDone(st.rows[st.workers[step.w].chunk.job])
    ensures job in Next(plan, st, step).rows && Next(plan, st, step).rows[job] == st.rows[job]
  {
  }

  /** A terminal row never changes again, however many workers go on to run `complete_job`. */
  lemma {:induction false} TerminalForever(plan: set<Chunk>, states: seq<State>, steps: seq<Step>, m: nat, n: nat, job: Id)
    requires Run(plan, states, steps) && m <= n < |states|
    requires job in states[m].rows && states[m].rows[job].status != Processing
    ensures job in states[n].rows && states[n].rows[job] == states[m].rows[job]
  {
    if m < n {
      TerminalForever(plan, states, steps, m, n - 1, job);
      RunInv(plan, states, steps, n - 1);
      assert Moves(plan, states, steps, n - 1);
      if steps[n - 1].Report? {
        HeldKeepsOpen(plan, states[n - 1], steps[n - 1].w);
      }
      TerminalRowStep(plan, states[n - 1], steps[n - 1], job);
    }
  }

  function JobOf(stage: Stage): Id
  {
    if stage.Handling? || stage.Reporting? then stage.chunk.job else stage.job
  }

  /** Nothing is left to do for a job: none of its chunks waits or is queued, and no worker is
      busy with it. */
  predicate Quiet(st: State, job: Id)
  {
    && (forall c | c in st.waiting + st.queue :: c.job != job)
    && (forall w | w in st.workers :: JobOf(st.workers[w]) != job)
  }

  lemma QuietChunks(plan: set<Chunk>, st: State, job: Id)
    requires Placed(plan, st) && Quiet(st, job)
    ensures (forall c | c in ChunksOf(plan, job) :: IsCounted(st.log, c)) <==> forall c | c in st.lost :: c.job != job
  {
    forall c | c in ChunksOf(plan, job) ensures IsCounted(st.log, c) <==> c !in st.lost {
      assert c !in st.waiting + st.queue;
      assert st.place[c].Counted? || st.place[c] == Lost;
    }
    if forall c | c in ChunksOf(plan, job) :: IsCounted(st.log, c) {
      forall c | c in st.lost ensures c.job != job {
        assert c in ChunksOf(plan, job) <==> c.job == job;
      }
    }
  }

  lemma QuietNotDue(st: State, job: Id)
    requires NoneForgotten(st) && Quiet(st, job)
    ensures !Due(st, job)
  {
    forall w ensures !Finisher(st, w, job) {
      if w in st.workers {
        assert JobOf(st.workers[w]) != job;
      }
    }
  }

  /** When nothing is left to do for a job, it is terminal exactly when none of its chunks was
      lost and it has not been abandoned. */
  lemma QuietMeansTerminal(plan: set<Chunk>, states: seq<State>, steps: seq<Step>, n: nat, job: Id)
    requires Run(plan, states, steps) && n < |states|
    requires job in states[n].rows && Quiet(states[n], job)
    ensures states[n].rows[job].status != Processing
            <==> (forall c | c in states[n].lost :: c.job != job) && job !in states[n].abandoned
  {
    RunInv(plan, states, steps, n);
    DoneIffAllCounted(plan, states[n], job);
    QuietChunks(plan, states[n], job);
    QuietNotDue(states[n], job);
  }

  function TrueProcessed(log: seq<Entry>, job: Id): nat
  {
    if log == [] then 0
    else TrueProcessed(log[..|log| - 1], job) + (if log[|log| - 1].chunk.job == job then log[|log| - 1].processed else 0)
  }

  function TrueFailed(log: seq<Entry>, job: Id): nat
  {
    if log == [] then 0
    else TrueFailed(log[..|log| - 1], job) + (if log[|log| - 1].chunk.job == job then log[|log| - 1].failed else 0)
  }

  /** The casts change the sums by a multiple of 2^32. */
  lemma {:induction false} SumsAreCongruent(log: seq<Entry>, job: Id) returns (p: int, f: int)
    ensures ProcessedSum(log, job) == TrueProcessed(log, job) + p * TWO_32
    ensures FailedSum(log, job) == TrueFailed(log, job) + f * TWO_32
  {
    if log == [] {
      p, f := 0, 0;
    } else {
      var e := log[|log| - 1];
      p, f := SumsAreCongruent(log[..|log| - 1], job);
      if e.chunk.job == job {
        var moreP := CastShift(e.processed);
        var moreF := CastShift(e.failed);
        p, f := p + moreP, f + moreF;
      }
    }
  }

  lemma CastShift(n: nat) returns (k: int)
    ensures AsI32(n) == n + k * TWO_32 && -0x8000_0000 <= AsI32(n) <= 0x7FFF_FFFF
  {
    k := -(n / TWO_32);
    if n % TWO_32 >= 0x8000_0000 {
      k := k - 1;
    }
  }

  /** The one value of a 32-bit column that is congruent to a count is its cast. */
  lemma CastIsUnique(n: nat, v: int, k: int)
    requires FitsI32(v) && v == n + k * TWO_32
    ensures v == AsI32(n)
  {
    var k' := CastShift(n);
  }

  /** On every run, a row's counters are the casts of the true sums over its counted chunks; so a
      terminal status is the one `finalize` gives those sums, however the upload was cut into
      chunks and its workers interleaved, exactly when the casts turn none that matters into 0. */
  lemma TerminalStatusIsFinalize(plan: set<Chunk>, states: seq<State>, steps: seq<Step>, n: nat, job: Id)
    requires Run(plan, states, steps) && n < |states| && job in states[n].rows
    ensures var row := states[n].rows[job];
            var p, f := TrueProcessed(Updates(states, steps, n), job), TrueFailed(Updates(states, steps, n), job);
            row.processed == AsI32(p) && row.failed == AsI32(f)
            && (row.status != Processing ==>
                  (row.status == FinalStatus(p, f) <==> f == 0 || (f % TWO_32 != 0 && (p == 0 || p % TWO_32 != 0))))
  {
    RunInv(plan, states, steps, n);
    LogIsUpdates(plan, states, steps, n);
    var row, log := states[n].rows[job], states[n].log;
    var p, f := SumsAreCongruent(log, job);
    CastIsUnique(TrueProcessed(log, job), row.processed, p);
    CastIsUnique(TrueFailed(log, job), row.failed, f);
    CastStatusExact(TrueProcessed(log, job), TrueFailed(log, job));
  }

  /** A worker's uninterrupted pass over a chunk is these steps, and changes the row as
      `ProcessChunk` does. */
  lemma PassIsSteps(plan: set<Chunk>, st: State, w: Worker, c: Chunk, processed: nat, failed: nat)
    requires c in st.queue && w !in st.workers && c.job in st.rows
    ensures Enabled(plan, st, Pop(w, c))
    ensures var handling := Next(plan, st, Pop(w, c));
            Enabled(plan, handling, Process(w, processed, failed))
            && var reporting := Next(plan, handling, Process(w, processed, failed));
            var report := if UpdateFits(st.rows[c.job], AsI32(processed), AsI32(failed)) then Report(w) else ReportFails(w);
            Enabled(plan, reporting, report)
            && var checking := Next(plan, reporting, report);
            Enabled(plan, checking, Check(w))
            && var checked := Next(plan, checking, Check(w));
            (w in checked.workers ==> Enabled(plan, checked, Complete(w)))
            && var done := if w in checked.workers then Next(plan, checked, Complete(w)) else checked;
            done.rows == st.rows[c.job := RowAfterPass(st.rows[c.job], AsI32(processed), AsI32(failed))]
            && done.workers == st.workers
  {
  }
}
