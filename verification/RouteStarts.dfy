/** When a node is started: exactly when it may be, and never before what it depends on has finished. */
module RouteStarts {
  import opened Common
  import opened Sequences
  import opened RouteGraph
  import opened RouteRuntime
  import opened RouteInvariant
  import opened RouteRuns
  import opened RouteProgress

  // ----- dependencies finish first -----

  predicate Finished(states: map<string, NodeState>, id: string) {
    id in states && states[id] in {Done, Failed}
  }

  predicate Begun(states: map<string, NodeState>, id: string) {
    id in states && states[id] in {Running, Done, Failed}
  }

  /** Whatever has begun depends on finished nodes only, whatever the edge says about failures. */
  ghost predicate InOrder(route: Route, states: map<string, NodeState>) {
    forall k {:trigger route.edges[k]} :: 0 <= k < |route.edges| && Begun(states, route.edges[k].to) ==>
      Finished(states, route.edges[k].from)
  }

  /** A step without retries leaves finished nodes finished, and whatever newly begins has just been started. */
  lemma {:induction false} StepAdvances(route: Route, s: RunState, op: Op, id: string)
    requires !op.OpRetry?
    ensures Finished(s.states, id) ==> Finished(Step(route, s, op).states, id)
    ensures Begun(Step(route, s, op).states, id) && !Begun(s.states, id) ==>
            op == OpStart(id) && Start(route, s, id).Ok?
  {
    match op
    case OpFail(failed) => if FailNode(route, s, failed).Ok? { FailureAdvances(route, s, failed, id); }
    case OpStart(_) =>
    case OpComplete(_, _) =>
    case OpRetry(_, _, _) =>
    case OpCancelParent =>
  }

  lemma {:induction false} FailureAdvances(route: Route, s: RunState, failed: string, id: string)
    requires FailNode(route, s, failed).Ok?
    ensures var t := FailNode(route, s, failed).value;
            (Finished(s.states, id) ==> Finished(t.states, id)) && (Begun(t.states, id) ==> Begun(s.states, id))
  {
  }

  lemma {:induction false} StepKeepsOrder(route: Route, s: RunState, op: Op)
    requires InOrder(route, s.states) && !op.OpRetry?
    ensures InOrder(route, Step(route, s, op).states)
  {
    var t := Step(route, s, op);
    forall k | 0 <= k < |route.edges| && Begun(t.states, route.edges[k].to)
      ensures Finished(t.states, route.edges[k].from)
    {
      var e := route.edges[k];
      StepAdvances(route, s, op, e.to);
      StepAdvances(route, s, op, e.from);
      if !Begun(s.states, e.to) { StartedAfter(route, s, e.to, k); }
    }
  }

  lemma {:induction false} StartedAfter(route: Route, s: RunState, id: string, k: nat)
    requires Start(route, s, id).Ok? && k < |route.edges| && route.edges[k].to == id
    ensures Finished(s.states, route.edges[k].from)
  {
  }

  lemma {:induction false} RunKeepsOrder(route: Route, s: RunState, ops: seq<Op>)
    requires InOrder(route, s.states) && NoRetry(ops)
    ensures InOrder(route, Run(route, s, ops).states)
    decreases |ops|
  {
    if |ops| > 0 {
      StepKeepsOrder(route, s, ops[0]);
      assert NoRetry(ops[1..]);
      RunKeepsOrder(route, Step(route, s, ops[0]), ops[1..]);
    }
  }

  /** In every run without retries, a node that runs, is done or has failed depends on nodes that are done or have
      failed: nothing begins before what it depends on has finished. */
  lemma {:induction false} DependenciesFinishFirst(route: Route, parent: u64, ops: seq<Op>, e: Edge)
    requires ValidRoute(route) && NoRetry(ops) && e in route.edges
    ensures var states := Run(route, Initial(route, parent), ops).states;
            && e.from in states && e.to in states
            && (states[e.to] in {Running, Done, Failed} ==> states[e.from] in {Done, Failed})
  {
    RunKeepsOrder(route, Initial(route, parent), ops);
    ReachableKeeps(route, parent, ops);
    var k :| 0 <= k < |route.edges| && route.edges[k] == e;
    assert Begun(Run(route, Initial(route, parent), ops).states, route.edges[k].to) ==>
           Finished(Run(route, Initial(route, parent), ops).states, route.edges[k].from);
    assert e.from in Ids(route.nodes) && e.to in Ids(route.nodes);
  }

  // ----- exactly when a start succeeds -----

  /** Waiting on `e` is over: its source is done, or has failed where the edge tolerates that. */
  predicate Over(states: map<string, NodeState>, e: Edge) {
    e.from in states && match states[e.from]
                        case Done => true
                        case Failed => e.onFailure.Continue?
                        case _ => false
  }

  /** The units that running nodes hold. */
  function Held(route: Route, s: RunState): nat {
    SumOver(route.nodes,
            (n: Node) => if n.id in s.states && s.states[n.id] == Running && n.budget.Some? then n.budget.value else 0)
  }

  /** What is left of the parent's budget is what the running nodes do not hold. */
  lemma {:induction false} LeftIsNotHeld(route: Route, parent: u64, s: RunState)
    requires LedgerInv(route, parent, s)
    ensures s.remaining == parent - Held(route, s)
  {
    var held := (n: Node) => if n.id in s.states && s.states[n.id] == Running && n.budget.Some? then n.budget.value
      else 0;
    forall i | 0 <= i < |route.nodes| ensures UnitsOf(s.reservations)(route.nodes[i]) == held(route.nodes[i]) {
      var id := route.nodes[i].id;
      assert id in s.reservations <==> id in s.states && s.states[id] == Running;
    }
    SumEqual(route.nodes, UnitsOf(s.reservations), held);
  }

  lemma {:induction false} RunnableExactly(route: Route, s: RunState, id: string)
    ensures IsRunnable(route, s, id) <==>
              && s.status == RouteRunning && id in s.states && s.states[id] == Pending
              && forall e :: e in route.edges && e.to == id ==> Over(s.states, e)
  {
    WaitsForNothing(route, s.states, id);
  }

  lemma {:induction false} RunnableStartsWithin(route: Route, parent: u64, s: RunState, at: nat)
    requires UniqueIds(route.nodes) && LedgerInv(route, parent, s) && at < |route.nodes|
    ensures var node := route.nodes[at];
            Start(route, s, node.id).Ok? <==>
            IsRunnable(route, s, node.id) && node.budget.Some? && 0 < node.budget.value <= s.remaining
  {
    assert route.nodes[at].id in Ids(route.nodes);
    var found := FindsUnique(route.nodes, route.nodes[at].id);
    assert found == at;
    StartsFound(route, s, route.nodes[at]);
  }

  lemma {:induction false} StartsFound(route: Route, s: RunState, node: Node)
    requires Find(route.nodes, node.id) == Some(node) && RunningSet(s)
    ensures Start(route, s, node.id).Ok? <==>
            IsRunnable(route, s, node.id) && node.budget.Some? && 0 < node.budget.value <= s.remaining
  {
  }

  /** In every reachable state a start succeeds exactly when the route runs, the node is pending and waits for
      nothing, and its budget is positive and within what the running nodes leave of the parent's. */
  lemma {:induction false} StartsExactly(route: Route, parent: u64, history: seq<Op>, at: nat)
    requires ValidRoute(route) && at < |route.nodes|
    ensures var s, node := Run(route, Initial(route, parent), history), route.nodes[at];
            Start(route, s, node.id).Ok? <==>
              && s.status == RouteRunning && node.id in s.states && s.states[node.id] == Pending
              && (forall e :: e in route.edges && e.to == node.id ==> Over(s.states, e))
              && node.budget.Some? && 0 < node.budget.value <= parent - Held(route, s)
  {
    var s := Run(route, Initial(route, parent), history);
    ReachableKeeps(route, parent, history);
    LeftIsNotHeld(route, parent, s);
    RunnableExactly(route, s, route.nodes[at].id);
    RunnableStartsWithin(route, parent, s, at);
  }

  lemma {:induction false} WaitsForNothing(route: Route, states: map<string, NodeState>, id: string)
    ensures DependenciesSatisfied(route, states, id) <==> forall e :: e in route.edges && e.to == id ==> Over(states, e)
  {
    if forall e :: e in route.edges && e.to == id ==> Over(states, e) {
      forall k | 0 <= k < |route.edges| && route.edges[k].to == id ensures EdgeSatisfied(states, route.edges[k]) {
        assert route.edges[k] in route.edges;
      }
    }
    if DependenciesSatisfied(route, states, id) {
      forall e | e in route.edges && e.to == id ensures Over(states, e) {
        var k :| 0 <= k < |route.edges| && route.edges[k] == e;
        assert EdgeSatisfied(states, route.edges[k]);
      }
    }
  }
}
