/** Every operation of a route run keeps the run invariant. */
module RouteInvariant {
  import opened Common
  import opened Sequences
  import opened RouteGraph
  import opened RouteRuntime

  lemma {:induction false} FindsUnique(nodes: seq<Node>, id: string) returns (at: int)
    requires UniqueIds(nodes) && id in Ids(nodes)
    ensures 0 <= at < |nodes| && nodes[at].id == id
    ensures Find(nodes, id) == Some(nodes[at])
    ensures forall i :: 0 <= i < |nodes| && i != at ==> nodes[i].id != id
  {
    var node := Find(nodes, id).value;
    at :| 0 <= at < |nodes| && nodes[at] == node;
  }

  // ----- the ledger over one step -----

  lemma {:induction false} ReserveOne(nodes: seq<Node>, r: map<string, u64>, id: string, amount: u64)
    requires UniqueIds(nodes) && id in Ids(nodes) && id !in r
    ensures Reserved(nodes, r[id := amount]) == Reserved(nodes, r) + amount
  {
    var at := FindsUnique(nodes, id);
    SumChangesAt(nodes, UnitsOf(r), UnitsOf(r[id := amount]), at);
  }

  lemma {:induction false} ReleaseOne(nodes: seq<Node>, r: map<string, u64>, id: string)
    requires UniqueIds(nodes) && id in Ids(nodes) && id in r
    ensures Reserved(nodes, r) == Reserved(nodes, r - {id}) + r[id]
  {
    var at := FindsUnique(nodes, id);
    SumChangesAt(nodes, UnitsOf(r - {id}), UnitsOf(r), at);
  }

  lemma {:induction false} NothingReserved(nodes: seq<Node>, r: map<string, u64>)
    requires r == map[]
    ensures Reserved(nodes, r) == 0
  {
    if |nodes| > 0 {
      assert SumOver(nodes[1..], UnitsOf(r)) == Reserved(nodes[1..], r);
      NothingReserved(nodes[1..], r);
    }
  }

  // ----- the budget over each operation -----

  lemma {:induction false} StartBalances(route: Route, parent: u64, s: RunState, id: string)
    requires UniqueIds(route.nodes) && s.states.Keys == Ids(route.nodes)
    requires BudgetBalanced(route, parent, s) && Start(route, s, id).Ok?
    ensures BudgetBalanced(route, parent, Start(route, s, id).value)
  {
    var t := Start(route, s, id).value;
    var at := FindsUnique(route.nodes, id);
    ReserveOne(route.nodes, s.reservations, id, t.reservations[id]);
  }

  lemma {:induction false} ReleaseBalances(route: Route, parent: u64, s: RunState, id: string, t: RunState)
    requires UniqueIds(route.nodes) && s.states.Keys == Ids(route.nodes)
    requires BudgetBalanced(route, parent, s) && id in s.states && s.states[id] == Running
    requires t.reservations == s.reservations - {id} && t.remaining == Release(s, id).remaining
    requires t.states.Keys == s.states.Keys && t.states[id] != Running
    requires forall v :: v in s.states && v != id ==> t.states[v] == s.states[v]
    ensures BudgetBalanced(route, parent, t)
  {
    ReleaseOne(route.nodes, s.reservations, id);
  }

  /** Cancelling returns the whole parent budget: nothing that was running keeps a reservation. */
  lemma {:induction false} CancelBalances(route: Route, parent: u64, s: RunState)
    requires s.states.Keys == Ids(route.nodes)
    requires BudgetBalanced(route, parent, s)
    ensures BudgetBalanced(route, parent, CancelUnfinished(route, s))
    ensures CancelUnfinished(route, s).remaining == parent
    ensures CancelUnfinished(route, s).reservations == map[]
  {
    assert Restrict(s.reservations, OpenNodes(s.states)) == s.reservations;
    assert CancelUnfinished(route, s).reservations == map[];
    NothingReserved(route.nodes, map[]);
  }

  // ----- strict edges and debris over each change of states -----

  lemma {:induction false} DebrisStays(before: map<string, NodeState>, after: map<string, NodeState>)
    requires forall id :: IsDebris(before, id) ==> IsDebris(after, id)
    ensures HasDebris(before) ==> HasDebris(after)
  {
    if HasDebris(before) {
      var d :| IsDebris(before, d);
      assert IsDebris(after, d);
    }
  }

  lemma {:induction false} StartHonours(route: Route, states: map<string, NodeState>, id: string)
    requires StrictEdgesHonoured(route, states) && IntolerableFailureLeavesDebris(route, states)
    requires id in states && states[id] == Pending && DependenciesSatisfied(route, states, id)
    ensures StrictEdgesHonoured(route, states[id := Running])
    ensures IntolerableFailureLeavesDebris(route, states[id := Running])
  {
    forall k | 0 <= k < |route.edges| ensures StrictEdgeHonoured(states[id := Running], route.edges[k]) {
      assert StrictEdgeHonoured(states, route.edges[k]);
      if route.edges[k].to == id { assert EdgeSatisfied(states, route.edges[k]); }
    }
    DebrisStays(states, states[id := Running]);
  }

  lemma {:induction false} CompleteHonours(route: Route, states: map<string, NodeState>, id: string)
    requires GoodEdges(route)
    requires StrictEdgesHonoured(route, states) && IntolerableFailureLeavesDebris(route, states)
    requires id in states && states[id] == Running
    ensures StrictEdgesHonoured(route, states[id := Done])
    ensures IntolerableFailureLeavesDebris(route, states[id := Done])
  {
    forall k | 0 <= k < |route.edges| ensures StrictEdgeHonoured(states[id := Done], route.edges[k]) {
      assert StrictEdgeHonoured(states, route.edges[k]);
    }
    DebrisStays(states, states[id := Done]);
  }

  lemma {:induction false} FailHonours(route: Route, states: map<string, NodeState>, id: string)
    requires GoodEdges(route) && StrictEdgesHonoured(route, states)
    requires id in states && states[id] == Running
    ensures StrictEdgesHonoured(route, states[id := Failed])
  {
    forall k | 0 <= k < |route.edges| ensures StrictEdgeHonoured(states[id := Failed], route.edges[k]) {
      assert StrictEdgeHonoured(states, route.edges[k]);
    }
  }

  lemma {:induction false} RetryHonours(route: Route, states: map<string, NodeState>, id: string, next: NodeState)
    requires StrictEdgesHonoured(route, states) && IntolerableFailureLeavesDebris(route, states)
    requires id in states && states[id] == Failed && (next == Pending || next == OutcomeUnknown)
    ensures StrictEdgesHonoured(route, states[id := next])
    ensures IntolerableFailureLeavesDebris(route, states[id := next])
  {
    forall k | 0 <= k < |route.edges| ensures StrictEdgeHonoured(states[id := next], route.edges[k]) {
      assert StrictEdgeHonoured(states, route.edges[k]);
    }
    DebrisStays(states, states[id := next]);
  }

  lemma {:induction false} CancelHonours(route: Route, states: map<string, NodeState>)
    requires StrictEdgesHonoured(route, states)
    ensures StrictEdgesHonoured(route, CancelOpen(states))
    ensures HasDebris(states) ==> HasDebris(CancelOpen(states))
  {
    forall k | 0 <= k < |route.edges| ensures StrictEdgeHonoured(CancelOpen(states), route.edges[k]) {
      assert StrictEdgeHonoured(states, route.edges[k]);
    }
    DebrisStays(states, CancelOpen(states));
  }

  /** A failure that some dependent does not tolerate finds that dependent unstarted, so cancelling
      the unfinished nodes leaves it `Cancelled`. */
  lemma {:induction false} StrictFailureCancelsDependent(
      route: Route, states: map<string, NodeState>, id: string, policy: FailurePolicy)
    requires GoodEdges(route) && states.Keys == Ids(route.nodes) && StrictEdgesHonoured(route, states)
    requires id in states && states[id] != Done
    requires policy != Continue && OutPolicy(route, id, policy)
    ensures HasDebris(CancelOpen(states))
  {
    var k :| 0 <= k < |route.edges| && route.edges[k].from == id && route.edges[k].onFailure == policy;
    assert StrictEdgeHonoured(states, route.edges[k]);
    assert IsDebris(CancelOpen(states), route.edges[k].to);
  }

  lemma {:induction false} PoliciesCover(route: Route, id: string)
    ensures Tolerated(route, id) <==> !OutPolicy(route, id, AbortRoute) && !OutPolicy(route, id, Replan)
  {
    if !Tolerated(route, id) {
      var k :| 0 <= k < |route.edges| && route.edges[k].from == id && route.edges[k].onFailure != Continue;
      assert OutPolicy(route, id, route.edges[k].onFailure);
    }
  }

  // ----- attempts over each operation -----

  /** Attempts stay bounded when no count changes and nothing becomes pending. */
  lemma {:induction false} AttemptsFramed(route: Route, s: RunState, t: RunState)
    requires AttemptsBounded(route, s) && t.attempts == s.attempts
    requires forall id :: id in t.states && t.states[id] == Pending ==> id in s.states && s.states[id] == Pending
    ensures AttemptsBounded(route, t)
  {
    forall i | 0 <= i < |route.nodes| ensures AttemptBounded(t, route.nodes[i]) {
      assert AttemptBounded(s, route.nodes[i]);
    }
  }

  lemma {:induction false} StartBoundsAttempts(route: Route, s: RunState, id: string)
    requires AttemptsBounded(route, s) && Start(route, s, id).Ok?
    ensures AttemptsBounded(route, Start(route, s, id).value)
  {
    var t := Start(route, s, id).value;
    forall i | 0 <= i < |route.nodes| ensures AttemptBounded(t, route.nodes[i]) {
      assert AttemptBounded(s, route.nodes[i]);
    }
  }

  lemma {:induction false} RetryBoundsAttempts(
      route: Route, s: RunState, id: string, intent: string, effectAbsent: bool)
    requires UniqueIds(route.nodes) && s.states.Keys == Ids(route.nodes) && AttemptsBounded(route, s)
    ensures AttemptsBounded(route, RetryNode(route, s, id, intent, effectAbsent).0)
  {
    var t := RetryNode(route, s, id, intent, effectAbsent).0;
    if id in Ids(route.nodes) {
      var at := FindsUnique(route.nodes, id);
      forall i | 0 <= i < |route.nodes| ensures AttemptBounded(t, route.nodes[i]) {
        assert AttemptBounded(s, route.nodes[i]);
      }
    }
  }

  // ----- each operation keeps the ledger half -----

  lemma {:induction false} InitialKeepsLedger(route: Route, parent: u64)
    ensures LedgerInv(route, parent, Initial(route, parent))
  {
    NothingReserved(route.nodes, map[]);
  }

  lemma {:induction false} StartKeepsLedger(route: Route, parent: u64, s: RunState, id: string)
    requires UniqueIds(route.nodes) && LedgerInv(route, parent, s) && Start(route, s, id).Ok?
    ensures LedgerInv(route, parent, Start(route, s, id).value)
  {
    StartBalances(route, parent, s, id);
    StartBoundsAttempts(route, s, id);
  }

  lemma {:induction false} DoneKeepsLedger(
      route: Route, parent: u64, s: RunState, id: string, result: string, status: Status)
    requires UniqueIds(route.nodes) && LedgerInv(route, parent, s)
    requires id in s.states && s.states[id] == Running
    ensures LedgerInv(route, parent, DoneAt(s, id, result, status))
  {
    ReleaseBalances(route, parent, s, id, DoneAt(s, id, result, status));
    AttemptsFramed(route, s, DoneAt(s, id, result, status));
  }

  lemma {:induction false} FailedKeepsLedger(route: Route, parent: u64, s: RunState, id: string, status: Status)
    requires UniqueIds(route.nodes) && LedgerInv(route, parent, s)
    requires id in s.states && s.states[id] == Running
    ensures LedgerInv(route, parent, FailedAt(s, id, status))
    ensures LedgerInv(route, parent, CancelUnfinished(route, FailedAt(s, id, status)))
  {
    ReleaseBalances(route, parent, s, id, FailedAt(s, id, status));
    AttemptsFramed(route, s, FailedAt(s, id, status));
    CancelKeepsLedger(route, parent, FailedAt(s, id, status));
  }

  /** The ledger half says nothing about the results, the intents or the route status. */
  lemma {:induction false} LedgerFramed(route: Route, parent: u64, s: RunState, t: RunState)
    requires LedgerInv(route, parent, s)
    requires t.states == s.states && t.attempts == s.attempts
    requires t.remaining == s.remaining && t.reservations == s.reservations
    ensures LedgerInv(route, parent, t)
  {
    AttemptsFramed(route, s, t);
  }

  lemma {:induction false} CancelKeepsLedger(route: Route, parent: u64, s: RunState)
    requires LedgerInv(route, parent, s)
    ensures LedgerInv(route, parent, CancelUnfinished(route, s))
  {
    CancelBalances(route, parent, s);
    AttemptsFramed(route, s, CancelUnfinished(route, s));
  }

  lemma {:induction false} RetryBalances(
      route: Route, parent: u64, s: RunState, id: string, intent: string, effectAbsent: bool)
    requires BudgetBalanced(route, parent, s)
    ensures BudgetBalanced(route, parent, RetryNode(route, s, id, intent, effectAbsent).0)
  {
  }

  lemma {:induction false} RetryKeepsLedger(
      route: Route, parent: u64, s: RunState, id: string, intent: string, effectAbsent: bool)
    requires UniqueIds(route.nodes) && LedgerInv(route, parent, s)
    ensures LedgerInv(route, parent, RetryNode(route, s, id, intent, effectAbsent).0)
  {
    RetryBalances(route, parent, s, id, intent, effectAbsent);
    RetryBoundsAttempts(route, s, id, intent, effectAbsent);
  }

  // ----- each operation keeps the graph half -----

  lemma {:induction false} InitialKeepsGraph(route: Route, parent: u64)
    ensures GraphInv(route, Initial(route, parent))
  {
    var s := Initial(route, parent);
    assert forall k :: 0 <= k < |route.edges| ==> StrictEdgeHonoured(s.states, route.edges[k]);
  }

  lemma {:induction false} StartKeepsGraph(route: Route, s: RunState, id: string)
    requires GraphInv(route, s) && Start(route, s, id).Ok?
    ensures GraphInv(route, Start(route, s, id).value)
  {
    StartHonours(route, s.states, id);
  }

  lemma {:induction false} CompleteKeepsGraph(route: Route, s: RunState, id: string, result: string)
    requires GoodEdges(route) && GraphInv(route, s) && Complete(route, s, id, result).Ok?
    ensures GraphInv(route, Complete(route, s, id, result).value)
  {
    CompleteHonours(route, s.states, id);
    CompletedHasNoOpenNode(route, s);
  }

  lemma {:induction false} CancelKeepsGraph(route: Route, s: RunState)
    requires s.states.Keys == Ids(route.nodes) && ResultsOfDone(s) && StrictEdgesHonoured(route, s.states)
    requires s.status != RouteCompleted && IntolerableFailureLeavesDebris(route, CancelOpen(s.states))
    ensures GraphInv(route, CancelUnfinished(route, s))
  {
    CancelHonours(route, s.states);
  }

  lemma {:induction false} CompletedHasNoOpenNode(route: Route, s: RunState)
    requires CompletedIsSettled(route, s)
    ensures s.status == RouteCompleted ==> forall id :: id in s.states ==> !Unfinished(s.states[id])
  {
    if s.status == RouteCompleted {
      forall id | id in s.states ensures !Unfinished(s.states[id]) {
        assert Settled(route, s.states, id);
      }
    }
  }

  lemma {:induction false} ToleratedFailureKeepsGraph(route: Route, s: RunState, id: string, status: Status)
    requires GoodEdges(route) && GraphInv(route, s) && Tolerated(route, id) && status != RouteCompleted
    requires id in s.states && s.states[id] == Running
    ensures GraphInv(route, FailedAt(s, id, status))
  {
    FailHonours(route, s.states, id);
    DebrisStays(s.states, s.states[id := Failed]);
  }

  lemma {:induction false} StrictFailureKeepsGraph(
      route: Route, s: RunState, id: string, policy: FailurePolicy, status: Status)
    requires GoodEdges(route) && GraphInv(route, s) && policy != Continue && OutPolicy(route, id, policy)
    requires id in s.states && s.states[id] == Running && status != RouteCompleted
    ensures GraphInv(route, CancelUnfinished(route, FailedAt(s, id, status)))
  {
    FailHonours(route, s.states, id);
    StrictFailureCancelsDependent(route, s.states[id := Failed], id, policy);
    CancelKeepsGraph(route, FailedAt(s, id, status));
  }

  lemma {:induction false} FailKeepsGraph(route: Route, s: RunState, id: string)
    requires GoodEdges(route) && GraphInv(route, s) && FailNode(route, s, id).Ok?
    ensures GraphInv(route, FailNode(route, s, id).value)
  {
    PoliciesCover(route, id);
    CompletedHasNoOpenNode(route, s);
    if OutPolicy(route, id, AbortRoute) {
      StrictFailureKeepsGraph(route, s, id, AbortRoute, RouteFailed);
    } else if OutPolicy(route, id, Replan) {
      StrictFailureKeepsGraph(route, s, id, Replan, ReplanRequested);
    } else {
      ToleratedFailureKeepsGraph(route, s, id, s.status);
      ToleratedFailureKeepsGraph(route, s, id, RouteFailed);
    }
  }

  lemma {:induction false} CancelParentKeepsGraph(route: Route, s: RunState)
    requires GraphInv(route, s)
    ensures GraphInv(route, CancelParent(route, s))
  {
    DebrisStays(s.states, CancelOpen(s.states));
    CancelKeepsGraph(route, s.(status := RouteCancelled));
  }

  lemma {:induction false} RetryKeepsGraph(route: Route, s: RunState, id: string, intent: string, effectAbsent: bool)
    requires GraphInv(route, s)
    ensures GraphInv(route, RetryNode(route, s, id, intent, effectAbsent).0)
  {
    if id in s.states && s.states[id] == Failed {
      RetryHonours(route, s.states, id, Pending);
      RetryHonours(route, s.states, id, OutcomeUnknown);
    }
  }
}
