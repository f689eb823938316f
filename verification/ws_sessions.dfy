/** The gateway's WebSocket session manager: the client map and the per-tenant index. */
module WsSessions {

  type Session = nat
  type Tenant = nat

  const MAX_WS_SESSIONS_PER_TENANT := 100

  type Index = map<Tenant, set<Session>>

  function SessionsOf(index: Index, t: Tenant): set<Session>
  {
    if t in index then index[t] else {}
  }

  /** The per-tenant sets are disjoint and their union is the set of connected clients. */
  ghost predicate Agree(index: Index, clients: set<Session>)
  {
    && (forall t, u | t in index && u in index && t != u :: index[t] !! index[u])
    && (forall s :: s in clients <==> exists t :: t in index && s in index[t])
  }

  /** Every call run to its end before the next; a client is the list of messages sent to it. */
  class WsManager {
    var clients: map<Session, seq<string>>
    var tenantIndex: Index

    constructor ()
      ensures clients == map[] && tenantIndex == map[]
    {
      clients, tenantIndex := map[], map[];
    }

    method Register(s: Session, t: Tenant) returns (registered: bool)
      modifies this
      ensures registered == (|SessionsOf(old(tenantIndex), t)| < MAX_WS_SESSIONS_PER_TENANT)
      ensures registered ==> clients == old(clients)[s := []]
                             && tenantIndex == old(tenantIndex)[t := SessionsOf(old(tenantIndex), t) + {s}]
      ensures !registered ==> clients == old(clients) && tenantIndex == old(tenantIndex)
      ensures old(Agree(tenantIndex, clients.Keys)) && s !in old(clients) ==> Agree(tenantIndex, clients.Keys)
      ensures old(Within(tenantIndex, MAX_WS_SESSIONS_PER_TENANT)) ==> Within(tenantIndex, MAX_WS_SESSIONS_PER_TENANT)
    {
      var count := if t in tenantIndex then |tenantIndex[t]| else 0;
      if count >= MAX_WS_SESSIONS_PER_TENANT {
        return false;
      }
      RegisterKeeps(tenantIndex, clients.Keys, s, t);
      clients := clients[s := []];
      if t !in tenantIndex {
        tenantIndex := tenantIndex[t := {}];
      }
      tenantIndex := tenantIndex[t := tenantIndex[t] + {s}];
      assert clients.Keys == old(clients).Keys + {s};
      return true;
    }

    method Unregister(s: Session, t: Tenant)
      modifies this
      ensures clients == old(clients) - {s}
      ensures tenantIndex == if t in old(tenantIndex) then old(tenantIndex)[t := old(tenantIndex)[t] - {s}] else old(tenantIndex)
      ensures old(Agree(tenantIndex, clients.Keys)) && s in SessionsOf(old(tenantIndex), t) ==> Agree(tenantIndex, clients.Keys)
      ensures old(Within(tenantIndex, MAX_WS_SESSIONS_PER_TENANT)) ==> Within(tenantIndex, MAX_WS_SESSIONS_PER_TENANT)
    {
      ghost var were := clients.Keys;
      clients := clients - {s};
      if t in tenantIndex {
        UnregisterKeeps(tenantIndex, were, s, t);
        tenantIndex := tenantIndex[t := tenantIndex[t] - {s}];
      }
      assert clients.Keys == old(clients).Keys - {s};
    }

    /** Each connected session of the tenant gets the message exactly once, and no other does. */
    method BroadcastToTenant(t: Tenant, message: string)
      modifies this`clients
      ensures clients.Keys == old(clients).Keys
      ensures forall s | s in clients ::
                clients[s] == old(clients)[s] + (if s in SessionsOf(tenantIndex, t) then [message] else [])
    {
      if t in tenantIndex {
        var rest := tenantIndex[t];
        while rest != {}
          invariant rest <= tenantIndex[t] && clients.Keys == old(clients).Keys
          invariant forall s | s in clients ::
                      clients[s] == old(clients)[s] + (if s in tenantIndex[t] && s !in rest then [message] else [])
          decreases rest
        {
          var s :| s in rest;
          if s in clients {
            clients := clients[s := clients[s] + [message]];
          }
          rest := rest - {s};
        }
      }
    }
  }

  predicate Within(index: Index, limit: nat)
  {
    forall t | t in index :: |index[t]| <= limit
  }

  lemma RegisterKeeps(index: Index, clients: set<Session>, s: Session, t: Tenant)
    requires |SessionsOf(index, t)| < MAX_WS_SESSIONS_PER_TENANT
    ensures var after := index[t := SessionsOf(index, t) + {s}];
            (Agree(index, clients) && s !in clients ==> Agree(after, clients + {s}))
            && (Within(index, MAX_WS_SESSIONS_PER_TENANT) ==> Within(after, MAX_WS_SESSIONS_PER_TENANT))
  {
    var after := index[t := SessionsOf(index, t) + {s}];
    if Agree(index, clients) && s !in clients {
      forall x ensures x in clients + {s} <==> exists u :: u in after && x in after[u] {
        if x in clients {
          var u :| u in index && x in index[u];
          assert x in after[u];
        } else if x == s {
          assert x in after[t];
        }
      }
    }
  }

  lemma UnregisterAgrees(index: Index, clients: set<Session>, s: Session, t: Tenant)
    requires Agree(index, clients) && t in index && s in index[t]
    ensures Agree(index[t := index[t] - {s}], clients - {s})
  {
    var after := index[t := index[t] - {s}];
    forall x ensures x in clients - {s} <==> exists u :: u in after && x in after[u] {
      if x in clients && x != s {
        var u :| u in index && x in index[u];
        assert x in after[u];
      }
    }
  }

  lemma UnregisterKeeps(index: Index, clients: set<Session>, s: Session, t: Tenant)
    requires t in index
    ensures var after := index[t := index[t] - {s}];
            (Agree(index, clients) && s in index[t] ==> Agree(after, clients - {s}))
            && (Within(index, MAX_WS_SESSIONS_PER_TENANT) ==> Within(after, MAX_WS_SESSIONS_PER_TENANT))
  {
    CardinalityMonotone(index[t] - {s}, index[t]);
    if Agree(index, clients) && s in index[t] {
      UnregisterAgrees(index, clients, s, t);
    }
  }

  lemma CardinalityMonotone(a: set<Session>, b: set<Session>)
    requires a <= b
    ensures |a| <= |b|
  {
    assert b == a + (b - a);
  }
}

/** Registration and removal interleaved step by step, as concurrent connections run them. */
module WsRace {
  import opened WsSessions

  /** Where a connection is: past the limit check, listed as a client, in the tenant's set as
      well, or removed from the clients but still in the set. */
  datatype Stage = Checked | Listed | Active | Leaving

  datatype Connection = Connection(tenant: Tenant, stage: Stage)

  datatype State = State(clients: set<Session>, index: Index, connections: map<Session, Connection>, used: set<Session>)

  datatype Step =
    | Check(s: Session, t: Tenant)
    | InsertClient(s: Session)
    | InsertIndex(s: Session)
    | RemoveClient(s: Session)
    | RemoveIndex(s: Session)

  const INITIAL := State({}, map[], map[], {})

  predicate At(st: State, s: Session, stage: Stage)
  {
    s in st.connections && st.connections[s].stage == stage
  }

  /** A session id is used by one connection, which runs its calls in order. */
  predicate Enabled(st: State, step: Step)
  {
    match step
    case Check(s, _) => s !in st.used
    case InsertClient(s) => At(st, s, Checked)
    case InsertIndex(s) => At(st, s, Listed)
    case RemoveClient(s) => At(st, s, Active)
    case RemoveIndex(s) => At(st, s, Leaving)
  }

  function Moved(st: State, s: Session, stage: Stage): map<Session, Connection>
    requires s in st.connections
  {
    st.connections[s := Connection(st.connections[s].tenant, stage)]
  }

  function Next(st: State, step: Step): State
    requires Enabled(st, step)
  {
    match step
    case Check(s, t) =>
      if |SessionsOf(st.index, t)| >= MAX_WS_SESSIONS_PER_TENANT then st.(used := st.used + {s})
      else st.(used := st.used + {s}, connections := st.connections[s := Connection(t, Checked)])
    case InsertClient(s) => st.(clients := st.clients + {s}, connections := Moved(st, s, Listed))
    case InsertIndex(s) =>
      var t := st.connections[s].tenant;
      st.(index := st.index[t := SessionsOf(st.index, t) + {s}], connections := Moved(st, s, Active))
    case RemoveClient(s) => st.(clients := st.clients - {s}, connections := Moved(st, s, Leaving))
    case RemoveIndex(s) =>
      var t := st.connections[s].tenant;
      st.(index := st.index[t := SessionsOf(st.index, t) - {s}], connections := st.connections - {s})
  }

  /** `register` with no other call in between is its three steps. */
  lemma RegisterIsSteps(st: State, s: Session, t: Tenant)
    requires Enabled(st, Check(s, t))
    ensures var checked := Next(st, Check(s, t));
            if |SessionsOf(st.index, t)| >= MAX_WS_SESSIONS_PER_TENANT then
              checked.clients == st.clients && checked.index == st.index && checked.connections == st.connections
            else
              Enabled(checked, InsertClient(s))
              && var listed := Next(checked, InsertClient(s));
              Enabled(listed, InsertIndex(s))
              && var active := Next(listed, InsertIndex(s));
              active.clients == st.clients + {s}
              && active.index == st.index[t := SessionsOf(st.index, t) + {s}]
              && active.connections == st.connections[s := Connection(t, Active)]
  {
  }

  /** `unregister` of an active session is its two steps. */
  lemma UnregisterIsSteps(st: State, s: Session)
    requires Enabled(st, RemoveClient(s))
    ensures var t := st.connections[s].tenant;
            var leaving := Next(st, RemoveClient(s));
            Enabled(leaving, RemoveIndex(s))
            && var gone := Next(leaving, RemoveIndex(s));
            gone.clients == st.clients - {s}
            && gone.index == st.index[t := SessionsOf(st.index, t) - {s}]
            && gone.connections == st.connections - {s}
  {
    assert Moved(st, s, Leaving) - {s} == st.connections - {s};
  }

  /** The connections of a tenant between their check and their insertion into its set. */
  function InFlight(st: State, t: Tenant): set<Session>
  {
    set s | s in st.connections && st.connections[s].tenant == t && (st.connections[s].stage == Checked || st.connections[s].stage == Listed)
  }

  predicate Indexed(index: Index, s: Session, t: Tenant)
  {
    t in index && s in index[t]
  }

  /** What interleaved calls keep of the agreement between the two maps. */
  ghost predicate Inv(st: State)
  {
    && st.connections.Keys <= st.used
    && (forall s :: s in st.clients <==> At(st, s, Listed) || At(st, s, Active))
    && (forall t, s | t in st.index && s in st.index[t] ::
          s in st.connections && st.connections[s].tenant == t && (At(st, s, Active) || At(st, s, Leaving)))
    && (forall s | At(st, s, Active) || At(st, s, Leaving) :: Indexed(st.index, s, st.connections[s].tenant))
  }

  predicate Moves(states: seq<State>, steps: seq<Step>, i: nat)
    requires i < |steps| < |states|
  {
    Enabled(states[i], steps[i]) && states[i + 1] == Next(states[i], steps[i])
  }

  predicate Run(states: seq<State>, steps: seq<Step>)
  {
    && |states| == |steps| + 1 && states[0] == INITIAL
    && forall i: nat | i < |steps| :: Moves(states, steps, i)
  }

  lemma InvIndexStep(st: State, step: Step)
    requires Inv(st) && Enabled(st, step) && (step.InsertIndex? || step.RemoveIndex?)
    ensures Inv(Next(st, step))
  {
    var st' := Next(st, step);
    forall s | At(st', s, Active) || At(st', s, Leaving)
      ensures Indexed(st'.index, s, st'.connections[s].tenant)
    {
      if At(st, s, Active) || At(st, s, Leaving) {
        assert Indexed(st.index, s, st.connections[s].tenant);
      }
    }
  }

  lemma InvStep(st: State, step: Step)
    requires Inv(st) && Enabled(st, step)
    ensures Inv(Next(st, step))
  {
    if step.InsertIndex? || step.RemoveIndex? {
      InvIndexStep(st, step);
    } else {
      var st' := Next(st, step);
      forall s | At(st', s, Active) || At(st', s, Leaving)
        ensures Indexed(st'.index, s, st'.connections[s].tenant)
      {
        assert Indexed(st.index, s, st.connections[s].tenant);
      }
    }
  }

  lemma {:induction false} RunInv(states: seq<State>, steps: seq<Step>, n: nat)
    requires Run(states, steps) && n < |states|
    ensures Inv(states[n])
  {
    if n > 0 {
      RunInv(states, steps, n - 1);
      assert Moves(states, steps, n - 1);
      InvStep(states[n - 1], steps[n - 1]);
    }
  }

  /** Whenever no call is under way, the tenant sets are disjoint and cover the clients. */
  lemma QuietMapsAgree(states: seq<State>, steps: seq<Step>, n: nat)
    requires Run(states, steps) && n < |states|
    requires forall s | s in states[n].connections :: states[n].connections[s].stage == Active
    ensures Agree(states[n].index, states[n].clients)
  {
    RunInv(states, steps, n);
    var st := states[n];
    forall s ensures s in st.clients <==> exists t :: t in st.index && s in st.index[t] {
      if s in st.clients {
        assert Indexed(st.index, s, st.connections[s].tenant);
      }
    }
    forall t, u | t in st.index && u in st.index && t != u ensures st.index[t] !! st.index[u] {
      assert forall s | s in st.index[t] :: st.connections[s].tenant == t;
      assert forall s | s in st.index[u] :: st.connections[s].tenant == u;
    }
  }

  /** How one step changes the sets the limit is about. */
  lemma InFlightStep(st: State, step: Step, t: Tenant)
    requires Inv(st) && Enabled(st, step)
    ensures var before, after := InFlight(st, t), InFlight(Next(st, step), t);
            match step
            case Check(s, u) =>
              after == if u == t && |SessionsOf(st.index, u)| < MAX_WS_SESSIONS_PER_TENANT then before + {s} else before
            case InsertIndex(s) =>
              s !in SessionsOf(st.index, t)
              && after == before - {s} && (st.connections[s].tenant == t <==> s in before)
            case _ => after == before
  {
    var before, after := InFlight(st, t), InFlight(Next(st, step), t);
    match step
    case Check(s, u) =>
      var expected := if u == t && |SessionsOf(st.index, u)| < MAX_WS_SESSIONS_PER_TENANT then before + {s} else before;
      assert forall x :: x in after <==> x in expected;
    case InsertIndex(s) =>
      assert forall x :: x in after <==> x in before - {s};
    case _ =>
      assert forall x :: x in after <==> x in before;
  }

  /** Sessions and registrations in flight together grow only at a passed check, and then to at
      most 99 plus the number in flight. */
  lemma CrowdStep(st: State, step: Step, t: Tenant)
    requires Inv(st) && Enabled(st, step)
    ensures var st' := Next(st, step);
            var crowd := |SessionsOf(st.index, t)| + |InFlight(st, t)|;
            var crowd' := |SessionsOf(st'.index, t)| + |InFlight(st', t)|;
            crowd' <= crowd || crowd' <= MAX_WS_SESSIONS_PER_TENANT - 1 + |InFlight(st', t)|
  {
    InFlightStep(st, step, t);
    if step.RemoveIndex? {
      CardinalityMonotone(SessionsOf(Next(st, step).index, t), SessionsOf(st.index, t));
    }
  }

  /** With never more than `k` registrations of a tenant in flight, it never has more than
      99 + k sessions; one at a time, the limit of 100 holds. */
  lemma {:induction false} RacyLimit(states: seq<State>, steps: seq<Step>, n: nat, t: Tenant, k: nat)
    requires Run(states, steps) && n < |states|
    requires forall i | 0 <= i < |states| :: |InFlight(states[i], t)| <= k
    ensures |SessionsOf(states[n].index, t)| + |InFlight(states[n], t)| <= MAX_WS_SESSIONS_PER_TENANT - 1 + k
  {
    if n == 0 {
      assert InFlight(INITIAL, t) == {};
    } else {
      RacyLimit(states, steps, n - 1, t, k);
      RunInv(states, steps, n - 1);
      assert Moves(states, steps, n - 1);
      CrowdStep(states[n - 1], steps[n - 1], t);
    }
  }

  /** A run with at most `k` registrations of `t` in flight that ends with `active` sessions,
      all of `t`, and `waiting` registrations that have passed the check; ids from `next` on
      are unused. */
  ghost predicate Reached(states: seq<State>, steps: seq<Step>, t: Tenant, k: nat, active: nat, waiting: nat, next: nat)
  {
    && Crowded(states, steps, t, k)
    && (var st := states[|states| - 1];
        && |SessionsOf(st.index, t)| == active && |InFlight(st, t)| == waiting
        && (forall s | s in InFlight(st, t) :: st.connections[s].stage == Checked)
        && (forall s | s in st.used :: s < next))
  }

  /** A run with at most `k` registrations of `t` in flight. */
  ghost predicate Crowded(states: seq<State>, steps: seq<Step>, t: Tenant, k: nat)
  {
    Run(states, steps) && Inv(states[|states| - 1]) && forall i | 0 <= i < |states| :: |InFlight(states[i], t)| <= k
  }

  lemma Extend(states: seq<State>, steps: seq<Step>, t: Tenant, k: nat, step: Step)
    requires Crowded(states, steps, t, k) && Enabled(states[|states| - 1], step)
    requires |InFlight(Next(states[|states| - 1], step), t)| <= k
    ensures Crowded(states + [Next(states[|states| - 1], step)], steps + [step], t, k)
  {
    var states', steps' := states + [Next(states[|states| - 1], step)], steps + [step];
    InvStep(states[|states| - 1], step);
    forall i: nat | i < |steps'| ensures Moves(states', steps', i) {
      assert i < |steps| ==> Moves(states, steps, i);
    }
  }

  /** One more registration passes the check. */
  lemma Enter(states: seq<State>, steps: seq<Step>, t: Tenant, k: nat, active: nat, waiting: nat, next: nat)
    returns (states': seq<State>, steps': seq<Step>)
    requires Reached(states, steps, t, k, active, waiting, next) && active < MAX_WS_SESSIONS_PER_TENANT && waiting < k
    ensures Reached(states', steps', t, k, active, waiting + 1, next + 1)
  {
    var st := states[|states| - 1];
    var step := Check(next, t);
    InFlightStep(st, step, t);
    Extend(states, steps, t, k, step);
    states', steps' := states + [Next(st, step)], steps + [step];
  }

  /** One waiting registration runs to its end. */
  lemma Finish(states: seq<State>, steps: seq<Step>, t: Tenant, k: nat, active: nat, waiting: nat, next: nat)
    returns (states': seq<State>, steps': seq<Step>)
    requires Reached(states, steps, t, k, active, waiting, next) && 0 < waiting
    ensures Reached(states', steps', t, k, active + 1, waiting - 1, next)
  {
    var st := states[|states| - 1];
    var s :| s in InFlight(st, t);
    var list, add := InsertClient(s), InsertIndex(s);
    var st1 := Next(st, list);
    InFlightStep(st, list, t);
    Extend(states, steps, t, k, list);
    InFlightStep(st1, add, t);
    Extend(states + [st1], steps + [list], t, k, add);
    states', steps' := states + [st1] + [Next(st1, add)], steps + [list] + [add];
  }

  /** The bound is attained for every number of concurrent registrations, so the limit of 100
      holds on every run exactly when registrations of a tenant never overlap. */
  lemma RacyLimitAttained(t: Tenant, k: nat) returns (states: seq<State>, steps: seq<Step>)
    requires 1 <= k
    ensures Run(states, steps) && forall i | 0 <= i < |states| :: |InFlight(states[i], t)| <= k
    ensures |SessionsOf(states[|states| - 1].index, t)| == MAX_WS_SESSIONS_PER_TENANT - 1 + k
  {
    states, steps := [INITIAL], [];
    assert InFlight(INITIAL, t) == {} && Crowded(states, steps, t, k);
    var base := MAX_WS_SESSIONS_PER_TENANT - 1;
    var n := 0;
    while n < base
      invariant n <= base && Reached(states, steps, t, k, n, 0, n)
    {
      states, steps := Enter(states, steps, t, k, n, 0, n);
      states, steps := Finish(states, steps, t, k, n, 1, n + 1);
      n := n + 1;
    }
    var w := 0;
    while w < k
      invariant w <= k && Reached(states, steps, t, k, base, w, base + w)
    {
      states, steps := Enter(states, steps, t, k, base, w, base + w);
      w := w + 1;
    }
    while w > 0
      invariant 0 <= w <= k && Reached(states, steps, t, k, base + k - w, w, base + k)
    {
      states, steps := Finish(states, steps, t, k, base + k - w, w, base + k);
      w := w - 1;
    }
  }

  /** A run with at most `k` registrations of `t` in flight at any time. */
  ghost predicate Overlapping(states: seq<State>, steps: seq<Step>, t: Tenant, k: nat)
  {
    Run(states, steps) && forall i | 0 <= i < |states| :: |InFlight(states[i], t)| <= k
  }

  predicate WithinLimit(st: State, t: Tenant)
  {
    |SessionsOf(st.index, t)| <= MAX_WS_SESSIONS_PER_TENANT
  }

  ghost predicate AlwaysWithinLimit(states: seq<State>, t: Tenant)
  {
    forall i | 0 <= i < |states| :: WithinLimit(states[i], t)
  }

  /** The documented limit holds on all runs exactly when registrations of a tenant never overlap. */
  lemma LimitHoldsExactly(t: Tenant, k: nat)
    ensures (forall states, steps | Overlapping(states, steps, t, k) :: AlwaysWithinLimit(states, t)) <==> k <= 1
  {
    if k <= 1 {
      forall states, steps | Overlapping(states, steps, t, k) ensures AlwaysWithinLimit(states, t) {
        forall i | 0 <= i < |states| ensures WithinLimit(states[i], t) {
          RacyLimit(states, steps, i, t, k);
        }
      }
    } else {
      var states, steps := RacyLimitAttained(t, k);
      assert Overlapping(states, steps, t, k) && !WithinLimit(states[|states| - 1], t);
    }
  }
}
