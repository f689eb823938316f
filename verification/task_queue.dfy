/** The Redis task queue: sorted sets of serialised tasks, popped from the top, with a
    dead-letter queue per queue. */
module TaskQueues {
  import opened Wrappers

  type Id = nat

  /** A task; `body` stands for the fields that never matter here (type, tenant, payload, time).
      Serialised tasks of one priority sort by their id, which comes first. */
  datatype Task = Task(id: Id, body: nat, priority: nat, attempts: nat, maxAttempts: nat)

  /** The order in which a sorted set gives up its members, highest first. */
  predicate Above(a: Task, b: Task)
  {
    a.priority > b.priority || (a.priority == b.priority && a.id > b.id)
  }

  predicate IsTop(s: set<Task>, t: Task)
  {
    t in s && forall u | u in s && u != t :: Above(t, u)
  }

  predicate DistinctIds(s: set<Task>)
  {
    forall t, u | t in s && u in s && t.id == u.id :: t == u
  }

  /** `r` holds the highest tasks of `s`, as many as asked for and there are, in order. */
  predicate HighestFirst(s: set<Task>, r: seq<Task>, count: nat)
  {
    && |r| == (if count < |s| then count else |s|)
    && (forall i | 0 <= i < |r| :: r[i] in s)
    && (forall i, j | 0 <= i < j < |r| :: Above(r[i], r[j]))
    && (forall u | u in s && u !in r :: forall i | 0 <= i < |r| :: Above(r[i], u))
  }

  function Elements(r: seq<Task>): set<Task> { set t | t in r }

  /** `r`, in order, is the upper part of `s`, and `left` the rest. */
  predicate TakenFrom(s: set<Task>, left: set<Task>, r: seq<Task>)
  {
    && left == s - Elements(r) && |left| + |r| == |s|
    && (forall i | 0 <= i < |r| :: r[i] in s)
    && (forall i, j | 0 <= i < j < |r| :: Above(r[i], r[j]))
    && (forall i, u | 0 <= i < |r| && u in left :: Above(r[i], u))
  }

  lemma ElementsGrow(r: seq<Task>, top: Task)
    ensures Elements(r + [top]) == Elements(r) + {top}
  {
  }

  lemma TakeOneMore(s: set<Task>, left: set<Task>, r: seq<Task>, top: Task)
    requires TakenFrom(s, left, r) && IsTop(left, top)
    ensures TakenFrom(s, left - {top}, r + [top])
  {
    ElementsGrow(r, top);
    assert left - {top} == s - (Elements(r) + {top});
  }

  /** What has been taken when the count is reached or nothing is left. */
  lemma TakenIsHighest(s: set<Task>, left: set<Task>, r: seq<Task>, count: nat)
    requires TakenFrom(s, left, r) && |r| <= count && (|r| == count || left == {})
    ensures HighestFirst(s, r, count)
  {
    forall u | u in s && u !in r ensures forall i | 0 <= i < |r| :: Above(r[i], u) {
      assert u in left;
    }
  }

  /** `r` is what successive single dequeues take from `s`. */
  predicate Successive(s: set<Task>, r: seq<Task>)
  {
    r == [] || (IsTop(s, r[0]) && Successive(s - {r[0]}, r[1..]))
  }

  /** A failed task: retried while it has attempts left. */
  function Tried(t: Task): Task { t.(attempts := t.attempts + 1) }

  predicate Exhausted(t: Task) { Tried(t).attempts >= t.maxAttempts }

  type Queues = map<string, set<Task>>

  function QueueOf(queues: Queues, queue: string): set<Task>
  {
    if queue in queues then queues[queue] else {}
  }

  class TaskQueue {
    var queues: Queues

    constructor ()
      ensures queues == map[]
    {
      queues := map[];
    }

    method Enqueue(queue: string, task: Task)
      modifies this
      ensures queues == old(queues)[queue := QueueOf(old(queues), queue) + {task}]
    {
      var members := if queue in queues then queues[queue] else {};
      queues := queues[queue := members + {task}];
    }

    /** The scan for the member with the highest score. */
    method FindTop(members: set<Task>) returns (top: Task)
      requires members != {} && DistinctIds(members)
      ensures IsTop(members, top)
    {
      var rest := members;
      top :| top in rest;
      rest := rest - {top};
      while rest != {}
        invariant rest <= members && top in members && top !in rest
        invariant forall u | u in members && u !in rest && u != top :: Above(top, u)
        decreases rest
      {
        var t :| t in rest;
        if Above(t, top) {
          top := t;
        }
        rest := rest - {t};
      }
    }

    method Dequeue(queue: string) returns (task: Option<Task>)
      requires DistinctIds(QueueOf(queues, queue))
      modifies this
      ensures task.None? <==> QueueOf(old(queues), queue) == {}
      ensures task.None? ==> queues == old(queues)
      ensures task.Some? ==> IsTop(QueueOf(old(queues), queue), task.value)
                             && queues == old(queues)[queue := QueueOf(old(queues), queue) - {task.value}]
    {
      var members := if queue in queues then queues[queue] else {};
      if members == {} {
        return None;
      }
      var top := FindTop(members);
      queues := queues[queue := members - {top}];
      return Some(top);
    }

    method DequeueBatch(queue: string, count: nat) returns (tasks: seq<Task>)
      requires DistinctIds(QueueOf(queues, queue))
      modifies this
      ensures HighestFirst(QueueOf(old(queues), queue), tasks, count)
      ensures queues == old(queues)[queue := QueueOf(old(queues), queue) - Elements(tasks)]
    {
      var members := if queue in queues then queues[queue] else {};
      ghost var all := members;
      tasks := [];
      while |tasks| < count && members != {}
        invariant queues == old(queues)
        invariant TakenFrom(all, members, tasks) && |tasks| <= count
        decreases members
      {
        var top := FindTop(members);
        TakeOneMore(all, members, tasks, top);
        members := members - {top};
        tasks := tasks + [top];
      }
      TakenIsHighest(all, members, tasks, count);
      queues := queues[queue := members];
    }

    method DeadLetter(queue: string, task: Task)
      modifies this
      ensures var target := if Exhausted(task) then queue + ".dlq" else queue;
              queues == old(queues)[target := QueueOf(old(queues), target) + {Tried(task)}]
    {
      var failed := task.(attempts := task.attempts + 1);
      var dlQueue := queue + ".dlq";
      if failed.attempts < failed.maxAttempts {
        Enqueue(queue, failed);
      } else {
        Enqueue(dlQueue, failed);
      }
    }
  }

  /** A set of distinct ids has a top, and only one. */
  lemma {:induction false} TopExists(s: set<Task>) returns (top: Task)
    requires s != {} && DistinctIds(s)
    ensures IsTop(s, top) && forall t | IsTop(s, t) :: t == top
    decreases s
  {
    var some :| some in s;
    var rest := s - {some};
    top := some;
    if rest != {} {
      var t := TopExists(rest);
      assert t.id != some.id;
      if Above(t, some) {
        top := t;
      }
    }
    forall u | u in s && u != top ensures Above(top, u) {
      assert u == some || u in rest;
    }
    forall t | IsTop(s, t) ensures t == top {
      assert t != top ==> Above(t, top) && Above(top, t);
    }
  }

  /** What is popped has the highest priority there is, and among those the highest id. */
  lemma TopIsHighest(s: set<Task>, top: Task)
    ensures IsTop(s, top) <==>
            top in s && forall u | u in s && u != top ::
                          u.priority < top.priority || (u.priority == top.priority && u.id < top.id)
  {
  }

  /** A batch is exactly what that many successive dequeues give. */
  lemma {:induction false} BatchIsSuccessive(s: set<Task>, r: seq<Task>, count: nat)
    requires DistinctIds(s)
    ensures HighestFirst(s, r, count) <==> Successive(s, r) && |r| == (if count < |s| then count else |s|)
  {
    if r != [] && |r| == (if count < |s| then count else |s|) && r[0] in s {
      var rest := s - {r[0]};
      assert |rest| == |s| - 1;
      BatchIsSuccessive(rest, r[1..], count - 1);
      if HighestFirst(s, r, count) {
        FirstIsTop(s, r, count);
        RestIsHighest(s, r, count);
      }
      if Successive(s, r) {
        assert HighestFirst(rest, r[1..], count - 1);
        FirstBeforeRest(s, r, count);
      }
    }
  }

  lemma FirstIsTop(s: set<Task>, r: seq<Task>, count: nat)
    requires HighestFirst(s, r, count) && r != []
    ensures IsTop(s, r[0])
  {
    forall u | u in s && u != r[0] ensures Above(r[0], u) {
      if u in r {
        var i :| 0 <= i < |r| && r[i] == u;
      }
    }
  }

  lemma RestIsHighest(s: set<Task>, r: seq<Task>, count: nat)
    requires HighestFirst(s, r, count) && r != []
    ensures HighestFirst(s - {r[0]}, r[1..], count - 1)
  {
    var rest, tail := s - {r[0]}, r[1..];
    forall i | 0 <= i < |tail| ensures tail[i] in rest {
      assert tail[i] == r[i + 1] && Above(r[0], r[i + 1]);
    }
    forall u | u in rest && u !in tail ensures forall i | 0 <= i < |tail| :: Above(tail[i], u) {
      assert r == [r[0]] + tail;
      assert u !in r;
    }
  }

  lemma FirstBeforeRest(s: set<Task>, r: seq<Task>, count: nat)
    requires r != [] && 0 < count && IsTop(s, r[0]) && HighestFirst(s - {r[0]}, r[1..], count - 1)
    ensures HighestFirst(s, r, count)
  {
    var rest, tail := s - {r[0]}, r[1..];
    assert r == [r[0]] + tail;
    assert |rest| == |s| - 1;
    forall i | 0 <= i < |r| ensures r[i] in s && (i > 0 ==> r[i] in rest && Above(r[0], r[i])) {
      if i > 0 {
        assert r[i] == tail[i - 1];
      }
    }
    forall i, j | 0 <= i < j < |r| ensures Above(r[i], r[j]) {
      if i > 0 {
        assert Above(tail[i - 1], tail[j - 1]);
      }
    }
    forall u | u in s && u !in r ensures forall i | 0 <= i < |r| :: Above(r[i], u) {
      assert u in rest && u !in tail;
      forall i | 0 <= i < |r| ensures Above(r[i], u) {
        if i > 0 {
          assert Above(tail[i - 1], u);
        }
      }
    }
  }

  /** Draining a queue yields tasks of non-increasing priority, each once. */
  lemma DrainOrdered(s: set<Task>, r: seq<Task>)
    requires DistinctIds(s) && Successive(s, r) && |r| == |s|
    ensures forall i, j | 0 <= i < j < |r| :: r[i].priority >= r[j].priority && r[i] != r[j]
    ensures forall t :: t in r <==> t in s
  {
    BatchIsSuccessive(s, r, |s|);
    assert forall i, j | 0 <= i < j < |r| :: Above(r[i], r[j]);
    DistinctSize(r);
    var taken := set t | t in r;
    assert taken <= s;
    assert s == taken + (s - taken);
  }

  lemma {:induction false} DistinctSize(r: seq<Task>)
    requires forall i, j | 0 <= i < j < |r| :: r[i] != r[j]
    ensures |set t | t in r| == |r|
  {
    if r != [] {
      DistinctSize(r[1..]);
      assert (set t | t in r) == (set t | t in r[1..]) + {r[0]};
    }
  }

  // -- Tasks over whole runs -------------------------------------------------------------

  type Worker = nat

  datatype Place = InQueue | InHand(w: Worker) | Finished | DeadLettered | Lost

  /** What has become of a task: where it is, its current form, how it was submitted, and how
      often the main queue has handed it out. */
  datatype Record = Record(place: Place, task: Task, submitted: Task, handouts: nat)

  /** A queue, its dead-letter queue and its workers; `finished` and `records` only record. A task
      is lost when its record says so. */
  datatype State = State(
    queue: set<Task>, dlq: set<Task>, hands: map<Worker, Task>, finished: set<Task>, records: map<Id, Record>)

  /** `Lose` is a worker that dies with its task, a pop whose answer is lost, or a failed task that
      could not be enqueued again. */
  datatype Step = Submit(t: Task) | Take(w: Worker, t: Task) | Finish(w: Worker) | Fail(w: Worker) | Lose(w: Worker)

  const INITIAL := State({}, {}, map[], {}, map[])

  predicate Enabled(st: State, step: Step)
  {
    match step
    case Submit(t) => t.id !in st.records && t.attempts == 0
    case Take(w, t) => w !in st.hands && IsTop(st.queue, t) && t.id in st.records
    case Finish(w) => w in st.hands && st.hands[w].id in st.records
    case Fail(w) => w in st.hands && st.hands[w].id in st.records
    case Lose(w) => w in st.hands && st.hands[w].id in st.records
  }

  function Next(st: State, step: Step): State
    requires Enabled(st, step)
  {
    match step
    case Submit(t) => st.(queue := st.queue + {t}, records := st.records[t.id := Record(InQueue, t, t, 0)])
    case Take(w, t) =>
      var r := st.records[t.id];
      st.(queue := st.queue - {t}, hands := st.hands[w := t],
          records := st.records[t.id := r.(place := InHand(w), handouts := r.handouts + 1)])
    case Finish(w) =>
      var t := st.hands[w];
      st.(hands := st.hands - {w}, finished := st.finished + {t},
          records := st.records[t.id := st.records[t.id].(place := Finished)])
    case Fail(w) =>
      var t := st.hands[w];
      if Exhausted(t) then
        st.(hands := st.hands - {w}, dlq := st.dlq + {Tried(t)},
            records := st.records[t.id := st.records[t.id].(place := DeadLettered, task := Tried(t))])
      else
        st.(hands := st.hands - {w}, queue := st.queue + {Tried(t)},
            records := st.records[t.id := st.records[t.id].(place := InQueue, task := Tried(t))])
    case Lose(w) =>
      var t := st.hands[w];
      st.(hands := st.hands - {w}, records := st.records[t.id := st.records[t.id].(place := Lost)])
  }

  /** The stored sets of a queue and its dead-letter queue are those of the state. */
  predicate Holds(queues: Queues, queue: string, st: State)
  {
    QueueOf(queues, queue) == st.queue && QueueOf(queues, queue + ".dlq") == st.dlq
  }

  /** What the queue's methods leave in the store is what the steps say. */
  lemma StepsAreCalls(queues: Queues, queue: string, st: State, step: Step)
    requires Holds(queues, queue, st) && Enabled(st, step)
    ensures match step
            case Submit(t) => Holds(queues[queue := QueueOf(queues, queue) + {t}], queue, Next(st, step))
            case Take(w, t) => Holds(queues[queue := QueueOf(queues, queue) - {t}], queue, Next(st, step))
            case Finish(w) => Holds(queues, queue, Next(st, step))
            case Lose(w) => Holds(queues, queue, Next(st, step))
            case Fail(w) =>
              var target := if Exhausted(st.hands[w]) then queue + ".dlq" else queue;
              Holds(queues[target := QueueOf(queues, target) + {Tried(st.hands[w])}], queue, Next(st, step))
  {
    assert |queue + ".dlq"| > |queue|;
  }

  /** The most often a task may be handed out; one with no attempts allowed still gets one. */
  function Allowed(t: Task): nat { if t.maxAttempts == 0 then 1 else t.maxAttempts }

  ghost predicate PlacedInSets(st: State)
  {
    && (forall id | id in st.records :: st.records[id].task.id == id)
    && (forall t :: t in st.queue <==> t.id in st.records && st.records[t.id].place == InQueue && st.records[t.id].task == t)
    && (forall t :: t in st.dlq <==> t.id in st.records && st.records[t.id].place == DeadLettered && st.records[t.id].task == t)
    && (forall t :: t in st.finished <==> t.id in st.records && st.records[t.id].place == Finished && st.records[t.id].task == t)
  }

  ghost predicate PlacedInHands(st: State)
  {
    && (forall w | w in st.hands ::
          var t := st.hands[w]; t.id in st.records && st.records[t.id].place == InHand(w) && st.records[t.id].task == t)
    && (forall id | id in st.records && st.records[id].place.InHand? ::
          st.records[id].place.w in st.hands && st.hands[st.records[id].place.w] == st.records[id].task)
  }

  /** Queue, workers, finished tasks and DLQ hold exactly what the records say. */
  ghost predicate Placed(st: State)
  {
    PlacedInSets(st) && PlacedInHands(st)
  }

  predicate RecordOk(r: Record)
  {
    && r.task == r.submitted.(attempts := r.task.attempts) && r.submitted.attempts == 0
    && match r.place
       case InQueue => r.handouts == r.task.attempts < Allowed(r.task)
       case InHand(_) => r.handouts == r.task.attempts + 1 <= Allowed(r.task)
       case Finished => r.handouts == r.task.attempts + 1 <= Allowed(r.task)
       case Lost => r.handouts == r.task.attempts + 1 <= Allowed(r.task)
       case DeadLettered => r.handouts == r.task.attempts == Allowed(r.task)
  }

  ghost predicate Inv(st: State)
  {
    Placed(st) && forall id | id in st.records :: RecordOk(st.records[id])
  }

  predicate Moves(states: seq<State>, steps: seq<Step>, i: nat)
    requires i < |steps| < |states|
  {
    Enabled(states[i], steps[i]) && states[i + 1] == Next(states[i], steps[i])
  }

  predicate Run(states: seq<State>, steps: seq<Step>)
  {
    && |states| == |steps| + 1 && states[0] == INITIAL
    && forall i: nat | i < |steps| :: Moves(states, steps, i)
  }

  lemma QueueingKeepsSets(st: State, step: Step)
    requires PlacedInSets(st) && Enabled(st, step) && (step.Submit? || step.Take?)
    ensures PlacedInSets(Next(st, step))
  {
    assert step.Take? ==> st.records[step.t.id].place == InQueue && st.records[step.t.id].task == step.t;
  }

  lemma EndingKeepsSets(st: State, step: Step)
    requires Placed(st) && Enabled(st, step) && (step.Finish? || step.Lose?)
    ensures PlacedInSets(Next(st, step))
  {
    assert st.records[st.hands[step.w].id].place == InHand(step.w);
  }

  lemma RetryKeepsSets(st: State, w: Worker)
    requires Placed(st) && Enabled(st, Fail(w)) && !Exhausted(st.hands[w])
    ensures PlacedInSets(Next(st, Fail(w)))
  {
    assert st.records[st.hands[w].id].place == InHand(w);
  }

  lemma DeadLetterKeepsSets(st: State, w: Worker)
    requires Placed(st) && Enabled(st, Fail(w)) && Exhausted(st.hands[w])
    ensures PlacedInSets(Next(st, Fail(w)))
  {
    assert st.records[st.hands[w].id].place == InHand(w);
  }

  lemma QueueingKeepsHands(st: State, step: Step)
    requires Placed(st) && Enabled(st, step) && (step.Submit? || step.Take?)
    ensures PlacedInHands(Next(st, step))
  {
    assert step.Take? ==> st.records[step.t.id].place == InQueue;
  }

  lemma EndingKeepsHands(st: State, step: Step)
    requires Placed(st) && Enabled(st, step) && (step.Finish? || step.Lose? || step.Fail?)
    ensures PlacedInHands(Next(st, step))
  {
    assert st.records[st.hands[step.w].id].place == InHand(step.w);
  }

  lemma RecordsStep(st: State, step: Step, id: Id)
    requires Inv(st) && Enabled(st, step) && id in Next(st, step).records
    ensures RecordOk(Next(st, step).records[id])
  {
    assert id in st.records ==> RecordOk(st.records[id]);
  }

  lemma InvStep(st: State, step: Step)
    requires Inv(st) && Enabled(st, step)
    ensures Inv(Next(st, step))
  {
    if step.Submit? || step.Take? {
      QueueingKeepsSets(st, step);
      QueueingKeepsHands(st, step);
    } else {
      EndingKeepsHands(st, step);
      if step.Fail? {
        if Exhausted(st.hands[step.w]) {
          DeadLetterKeepsSets(st, step.w);
        } else {
          RetryKeepsSets(st, step.w);
        }
      } else {
        EndingKeepsSets(st, step);
      }
    }
    forall id | id in Next(st, step).records ensures RecordOk(Next(st, step).records[id]) {
      RecordsStep(st, step, id);
    }
  }

  lemma {:induction false} RunInv(states: seq<State>, steps: seq<Step>, n: nat)
    requires Run(states, steps) && n < |states|
    ensures Inv(states[n])
  {
    if n > 0 {
      RunInv(states, steps, n - 1);
      assert Moves(states, steps, n - 1);
      InvStep(states[n - 1], steps[n - 1]);
    }
  }

  /** The number of places a task is found in. */
  ghost function Found(st: State, id: Id): nat
  {
    (if exists t :: t in st.queue && t.id == id then 1 else 0)
    + (if exists w :: w in st.hands && st.hands[w].id == id then 1 else 0)
    + (if exists t :: t in st.finished && t.id == id then 1 else 0)
    + (if exists t :: t in st.dlq && t.id == id then 1 else 0)
  }

  /** No place holds two tasks of one id. */
  ghost predicate NowhereTwice(st: State)
  {
    && DistinctIds(st.queue) && DistinctIds(st.finished) && DistinctIds(st.dlq)
    && (forall w, v | w in st.hands && v in st.hands && st.hands[w].id == st.hands[v].id :: w == v)
  }

  /** On every run, every submitted task that was not lost is in exactly one of queue, worker,
      finished and DLQ, and there only once: no two workers ever hold the same task. */
  lemma TasksConserved(states: seq<State>, steps: seq<Step>, n: nat, id: Id)
    requires Run(states, steps) && n < |states|
    ensures Found(states[n], id) == if id in states[n].records && states[n].records[id].place != Lost then 1 else 0
    ensures NowhereTwice(states[n])
  {
    RunInv(states, steps, n);
    FoundOnce(states[n], id);
    HeldOnce(states[n]);
  }

  lemma FoundOnce(st: State, id: Id)
    requires Placed(st)
    ensures Found(st, id) == if id in st.records && st.records[id].place != Lost then 1 else 0
  {
    if id in st.records {
      var r := st.records[id];
      match r.place
      case InQueue => assert r.task in st.queue && r.task.id == id;
      case InHand(w) => assert w in st.hands && st.hands[w].id == id;
      case Finished => assert r.task in st.finished && r.task.id == id;
      case DeadLettered => assert r.task in st.dlq && r.task.id == id;
      case Lost =>
    }
  }

  lemma HeldOnce(st: State)
    requires Inv(st)
    ensures NowhereTwice(st)
  {
    forall w, v | w in st.hands && v in st.hands && st.hands[w].id == st.hands[v].id ensures w == v {
      assert st.records[st.hands[w].id].place == InHand(w);
      assert st.records[st.hands[v].id].place == InHand(v);
    }
  }

  /** On every run, a task is handed out at most as often as it allows, and is dead-lettered
      only after exactly that many failed attempts, otherwise unchanged. */
  lemma RedeliveryBounded(states: seq<State>, steps: seq<Step>, n: nat, id: Id)
    requires Run(states, steps) && n < |states| && id in states[n].records
    ensures var r := states[n].records[id];
            r.handouts <= Allowed(r.submitted)
            && (forall t | t in states[n].dlq && t.id == id ::
                  t == r.submitted.(attempts := Allowed(r.submitted)) && r.handouts == Allowed(r.submitted))
  {
    RunInv(states, steps, n);
  }

  /** The main queue never holds two tasks of one id, so a pop from a queue that is not empty
      has exactly one possible answer. */
  lemma QueueHasTop(states: seq<State>, steps: seq<Step>, n: nat)
    requires Run(states, steps) && n < |states|
    ensures DistinctIds(states[n].queue)
    ensures states[n].queue != {} ==> exists top :: IsTop(states[n].queue, top) && forall t | IsTop(states[n].queue, t) :: t == top
  {
    RunInv(states, steps, n);
    if states[n].queue != {} {
      var top := TopExists(states[n].queue);
    }
  }
}
