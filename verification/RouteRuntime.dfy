/** Executing an admitted route: node states, failure policies, retries, cancellation, and the
    budget ledger that every running node draws on. */
module RouteRuntime {
  import opened Common
  import opened Sequences
  import opened RouteGraph

  datatype NodeState = Pending | Running | Done | Failed | Cancelled | OutcomeUnknown

  datatype Status = RouteRunning | RouteCompleted | RouteFailed | RouteCancelled | ReplanRequested

  datatype Decision = RetryGranted | RetryExhausted | RetryUnknown

  datatype RunError =
    | NotRunnable
    | NoSuchNode
    | BadBudget
    | ZeroBudget
    | AlreadyReserved
    | OverBudget
    | NotRunning
    | NotFailed

  /** The whole state of one route run. */
  datatype RunState = RunState(
    states: map<string, NodeState>,
    attempts: map<string, nat>,
    intents: set<(string, string)>,
    results: map<string, string>,
    status: Status,
    remaining: u64,
    reservations: map<string, u64>)

  // ----- reading a run -----

  function AttemptsOf(s: RunState, id: string): nat {
    if id in s.attempts then s.attempts[id] else 0
  }

  function Find(nodes: seq<Node>, id: string): (r: Option<Node>)
    ensures r.Some? <==> id in Ids(nodes)
    ensures r.Some? ==> r.value in nodes && r.value.id == id
  {
    if |nodes| == 0 then None
    else if nodes[0].id == id then Some(nodes[0])
    else
      var r := Find(nodes[1..], id);
      assert forall i :: 1 <= i < |nodes| ==> nodes[i] == nodes[1..][i - 1];
      r
  }

  predicate EdgeSatisfied(states: map<string, NodeState>, e: Edge) {
    && e.from in states
    && (states[e.from] == Done || (states[e.from] == Failed && e.onFailure == Continue))
  }

  predicate DependenciesSatisfied(route: Route, states: map<string, NodeState>, id: string) {
    forall k :: 0 <= k < |route.edges| && route.edges[k].to == id ==> EdgeSatisfied(states, route.edges[k])
  }

  predicate IsRunnable(route: Route, s: RunState, id: string) {
    && s.status == RouteRunning
    && id in s.states && s.states[id] == Pending
    && DependenciesSatisfied(route, s.states, id)
  }

  /** Failure of `id` is tolerated by every node that depends on it. */
  predicate Tolerated(route: Route, id: string) {
    forall k :: 0 <= k < |route.edges| && route.edges[k].from == id ==> route.edges[k].onFailure == Continue
  }

  predicate Settled(route: Route, states: map<string, NodeState>, id: string)
    requires id in states
  {
    states[id] == Done || (states[id] == Failed && Tolerated(route, id))
  }

  predicate AllSettled(route: Route, states: map<string, NodeState>) {
    forall id :: id in states ==> Settled(route, states, id)
  }

  predicate OutPolicy(route: Route, id: string, policy: FailurePolicy) {
    exists k :: 0 <= k < |route.edges| && route.edges[k].from == id && route.edges[k].onFailure == policy
  }

  predicate Unfinished(st: NodeState) { st == Pending || st == Running }

  // ----- the ledger -----

  function UnitsOf(reservations: map<string, u64>): Node -> nat {
    (n: Node) => if n.id in reservations then reservations[n.id] else 0
  }

  /** All units currently reserved. */
  function Reserved(nodes: seq<Node>, reservations: map<string, u64>): nat {
    SumOver(nodes, UnitsOf(reservations))
  }

  // ----- steps -----

  function Initial(route: Route, parent: u64): RunState {
    RunState(map id | id in Ids(route.nodes) :: Pending, map[], {}, map[],
             if Ids(route.nodes) == {} then RouteCompleted else RouteRunning, parent, map[])
  }

  function Start(route: Route, s: RunState, id: string): Result<RunState, RunError> {
    if !IsRunnable(route, s, id) then Err(NotRunnable)
    else match Find(route.nodes, id)
      case None => Err(NoSuchNode)
      case Some(node) =>
        match node.budget
        case None => Err(BadBudget)
        case Some(amount) =>
          if amount == 0 then Err(ZeroBudget)
          else if id in s.reservations then Err(AlreadyReserved)
          else if amount > s.remaining then Err(OverBudget)
          else Ok(s.(states := s.states[id := Running],
                     attempts := s.attempts[id := AttemptsOf(s, id) + 1],
                     remaining := s.remaining - amount,
                     reservations := s.reservations[id := amount]))
  }

  function Release(s: RunState, id: string): RunState {
    s.(remaining := if id in s.reservations then SatAdd(s.remaining, s.reservations[id]) else s.remaining,
       reservations := s.reservations - {id})
  }

  function DoneAt(s: RunState, id: string, result: string, status: Status): RunState {
    Release(s, id).(states := s.states[id := Done], results := s.results[id := result], status := status)
  }

  function Complete(route: Route, s: RunState, id: string, result: string): Result<RunState, RunError> {
    if id !in s.states || s.states[id] != Running then Err(NotRunning)
    else Ok(DoneAt(s, id, result, if AllSettled(route, s.states[id := Done]) then RouteCompleted else s.status))
  }

  function OpenNodes(states: map<string, NodeState>): set<string> {
    set id | id in states && Unfinished(states[id])
  }

  function Restrict(reservations: map<string, u64>, ids: set<string>): map<string, u64> {
    map id | id in reservations && id in ids :: reservations[id]
  }

  /** Cancels the nodes in `ids` and hands the units they hold back. */
  function CancelSome(route: Route, s: RunState, ids: set<string>): RunState {
    s.(states := map id | id in s.states :: if id in ids then Cancelled else s.states[id],
       remaining := Cap(s.remaining + Reserved(route.nodes, Restrict(s.reservations, ids))),
       reservations := s.reservations - ids)
  }

  function CancelOpen(states: map<string, NodeState>): map<string, NodeState> {
    map id | id in states :: if Unfinished(states[id]) then Cancelled else states[id]
  }

  /** Cancels what is pending or running and hands the running nodes' units back. */
  function CancelUnfinished(route: Route, s: RunState): (t: RunState)
    ensures t.states == CancelOpen(s.states)
  {
    CancelSome(route, s, OpenNodes(s.states))
  }

  /** The node's own failure, with the route status its out-edges call for. */
  function FailedAt(s: RunState, id: string, status: Status): RunState {
    Release(s, id).(states := s.states[id := Failed], status := status)
  }

  function FailNode(route: Route, s: RunState, id: string): Result<RunState, RunError> {
    if id !in s.states || s.states[id] != Running then Err(NotRunning)
    else if OutPolicy(route, id, AbortRoute) then Ok(CancelUnfinished(route, FailedAt(s, id, RouteFailed)))
    else if OutPolicy(route, id, Replan) then Ok(CancelUnfinished(route, FailedAt(s, id, ReplanRequested)))
    else if exists v :: v in s.states && IsRunnable(route, FailedAt(s, id, s.status), v) then
      Ok(FailedAt(s, id, s.status))
    else Ok(FailedAt(s, id, RouteFailed))
  }

  function RetryNode(route: Route, s: RunState, id: string, intent: string, effectAbsent: bool)
    : (RunState, Result<Decision, RunError>)
  {
    if id !in s.states || s.states[id] != Failed then (s, Err(NotFailed))
    else if !effectAbsent then
      (s.(states := s.states[id := OutcomeUnknown], status := RouteFailed), Ok(RetryUnknown))
    else if (id, intent) in s.intents then (s, Ok(RetryExhausted))
    else
      var noted := s.(intents := s.intents + {(id, intent)});
      match Find(route.nodes, id)
      case None => (noted, Err(NoSuchNode))
      case Some(node) =>
        if AttemptsOf(s, id) >= node.maxAttempts then (noted, Ok(RetryExhausted))
        else (noted.(states := s.states[id := Pending], status := RouteRunning), Ok(RetryGranted))
  }

  function CancelParent(route: Route, s: RunState): RunState {
    CancelUnfinished(route, s.(status := RouteCancelled))
  }

  // ----- invariant -----

  function Allowance(node: Node): nat { if node.maxAttempts == 0 then 1 else node.maxAttempts }

  ghost predicate RunningSet(s: RunState) {
    && (forall id :: id in s.reservations <==> id in s.states && s.states[id] == Running)
  }

  /** Reservations are exactly the running nodes, at their declared units, and nothing is lost or made. */
  ghost predicate BudgetBalanced(route: Route, parent: u64, s: RunState) {
    && RunningSet(s)
    && (forall i :: 0 <= i < |route.nodes| && route.nodes[i].id in s.reservations ==>
          route.nodes[i].budget == Some(s.reservations[route.nodes[i].id]) && s.reservations[route.nodes[i].id] > 0)
    && s.remaining + Reserved(route.nodes, s.reservations) == parent
  }

  ghost predicate AttemptBounded(s: RunState, node: Node) {
    && AttemptsOf(s, node.id) <= Allowance(node)
    && (node.id in s.states && s.states[node.id] == Pending ==> AttemptsOf(s, node.id) < Allowance(node))
  }

  ghost predicate AttemptsBounded(route: Route, s: RunState) {
    forall i {:trigger route.nodes[i]} :: 0 <= i < |route.nodes| ==> AttemptBounded(s, route.nodes[i])
  }

  ghost predicate StrictEdgeHonoured(states: map<string, NodeState>, e: Edge) {
    e.onFailure != Continue && e.to in states && states[e.to] != Pending && states[e.to] != Cancelled ==>
      e.from in states && states[e.from] == Done
  }

  /** A node ever started behind a strict edge had its source `Done`. */
  ghost predicate StrictEdgesHonoured(route: Route, states: map<string, NodeState>) {
    forall k {:trigger route.edges[k]} :: 0 <= k < |route.edges| ==> StrictEdgeHonoured(states, route.edges[k])
  }

  /** A node that no operation can ever move again without being `Done` or `Failed`. */
  ghost predicate IsDebris(states: map<string, NodeState>, id: string) {
    id in states && (states[id] == Cancelled || states[id] == OutcomeUnknown)
  }

  ghost predicate HasDebris(states: map<string, NodeState>) {
    exists id :: IsDebris(states, id)
  }

  ghost predicate IntolerableFailureLeavesDebris(route: Route, states: map<string, NodeState>) {
    forall id :: id in states && states[id] == Failed && !Tolerated(route, id) ==> HasDebris(states)
  }

  /** Results are held for exactly the `Done` nodes. */
  ghost predicate ResultsOfDone(s: RunState) {
    forall id :: id in s.results <==> id in s.states && s.states[id] == Done
  }

  ghost predicate CompletedIsSettled(route: Route, s: RunState) {
    s.status == RouteCompleted ==> AllSettled(route, s.states)
  }

  /** The ledger half of the run invariant. */
  ghost predicate LedgerInv(route: Route, parent: u64, s: RunState) {
    && s.states.Keys == Ids(route.nodes)
    && BudgetBalanced(route, parent, s)
    && AttemptsBounded(route, s)
  }

  /** The graph half of the run invariant. */
  ghost predicate GraphInv(route: Route, s: RunState) {
    && s.states.Keys == Ids(route.nodes)
    && ResultsOfDone(s)
    && CompletedIsSettled(route, s)
    && StrictEdgesHonoured(route, s.states)
    && IntolerableFailureLeavesDebris(route, s.states)
  }

  ghost predicate Inv(route: Route, parent: u64, s: RunState) {
    LedgerInv(route, parent, s) && GraphInv(route, s)
  }
}
