/** Progress of a route run: deadlock freedom without retries, exactly when a waiting route is
    stuck, and exactly which retries can lead to a stuck route. */
module RouteProgress {
  import opened Common
  import opened RouteGraph
  import opened RouteRuntime
  import opened RouteInvariant
  import opened RouteRuns

  predicate AnyRunning(s: RunState) {
    exists id :: id in s.states && s.states[id] == Running
  }

  predicate AnyRunnable(route: Route, s: RunState) {
    exists id :: id in s.states && IsRunnable(route, s, id)
  }

  /** The route claims to be running, but nothing runs and nothing can be started. */
  predicate Stuck(route: Route, s: RunState) {
    s.status == RouteRunning && !AnyRunning(s) && !AnyRunnable(route, s)
  }

  // ----- exactly when a waiting route is stuck -----

  /** An in-edge of `v` that can no longer be satisfied by waiting. */
  predicate DeadEdge(states: map<string, NodeState>, e: Edge) {
    && e.from in states
    && (states[e.from] in {Cancelled, OutcomeUnknown} || (states[e.from] == Failed && e.onFailure != Continue))
  }

  predicate HasDeadEdge(route: Route, states: map<string, NodeState>, v: string) {
    exists k :: 0 <= k < |route.edges| && route.edges[k].to == v && DeadEdge(states, route.edges[k])
  }

  /** `p` leads through pending nodes from one with a dead in-edge. */
  ghost predicate DeadPath(route: Route, states: map<string, NodeState>, p: seq<string>) {
    && IsPath(route.edges, p)
    && (forall i :: 0 <= i < |p| ==> p[i] in states && states[p[i]] == Pending)
    && HasDeadEdge(route, states, p[0])
  }

  ghost predicate Doomed(route: Route, states: map<string, NodeState>, v: string) {
    exists p :: DeadPath(route, states, p) && p[|p| - 1] == v
  }

  lemma {:induction false} ExtendDeadPath(route: Route, states: map<string, NodeState>, a: string, b: string)
    requires Doomed(route, states, a) && HasEdge(route.edges, a, b)
    requires b in states && states[b] == Pending
    ensures Doomed(route, states, b)
  {
    var p :| DeadPath(route, states, p) && p[|p| - 1] == a;
    var q := p + [b];
    forall i | 0 <= i < |q| - 1 ensures HasEdge(route.edges, q[i], q[i + 1]) {
      if i < |p| - 1 { assert HasEdge(route.edges, p[i], p[i + 1]); }
    }
    assert DeadPath(route, states, q) && q[|q| - 1] == b;
  }

  lemma {:induction false} DeadEdgeDooms(route: Route, states: map<string, NodeState>, v: string)
    requires HasDeadEdge(route, states, v) && v in states && states[v] == Pending
    ensures Doomed(route, states, v)
  {
    var p := [v];
    assert DeadPath(route, states, p) && p[|p| - 1] == v;
  }

  lemma {:induction false} DoomedIsNotRunnable(route: Route, s: RunState, v: string)
    requires Doomed(route, s.states, v)
    ensures !DependenciesSatisfied(route, s.states, v)
  {
    var p :| DeadPath(route, s.states, p) && p[|p| - 1] == v;
    if |p| == 1 {
      var k :| 0 <= k < |route.edges| && route.edges[k].to == v && DeadEdge(s.states, route.edges[k]);
      assert !EdgeSatisfied(s.states, route.edges[k]);
    } else {
      assert HasEdge(route.edges, p[|p| - 2], v);
      var k :| 0 <= k < |route.edges| && route.edges[k].from == p[|p| - 2] && route.edges[k].to == v;
      assert !EdgeSatisfied(s.states, route.edges[k]);
    }
  }

  /** With nothing running, a first pending node that is not doomed can be started. */
  lemma {:induction false} FirstUndoomedIsRunnable(route: Route, s: RunState, undoomed: set<string>) returns (m: string)
    requires Acyclic(route.edges) && GoodEdges(route) && s.states.Keys == Ids(route.nodes)
    requires s.status == RouteRunning && !AnyRunning(s)
    requires undoomed != {}
    requires forall v :: v in undoomed <==> v in s.states && s.states[v] == Pending && !Doomed(route, s.states, v)
    ensures m in s.states && IsRunnable(route, s, m)
  {
    m := AcyclicHasMinimal(route.edges, undoomed);
    forall k | 0 <= k < |route.edges| && route.edges[k].to == m ensures EdgeSatisfied(s.states, route.edges[k]) {
      var from := route.edges[k].from;
      assert HasEdge(route.edges, from, m);
      if s.states[from] == Pending {
        ExtendDeadPath(route, s.states, from, m);
      } else if DeadEdge(s.states, route.edges[k]) {
        DeadEdgeDooms(route, s.states, m);
      }
    }
  }

  /** A route that says it runs, with nothing running, is stuck exactly when every pending node lies
      downstream, through pending nodes, of an edge that can no longer be satisfied. */
  lemma {:induction false} StuckExactly(route: Route, parent: u64, s: RunState)
    requires ValidRoute(route) && Inv(route, parent, s)
    requires s.status == RouteRunning && !AnyRunning(s)
    ensures Stuck(route, s) <==>
            forall v :: v in s.states && s.states[v] == Pending ==> Doomed(route, s.states, v)
  {
    var undoomed := set v | v in s.states && s.states[v] == Pending && !Doomed(route, s.states, v);
    if undoomed != {} {
      var m := FirstUndoomedIsRunnable(route, s, undoomed);
      assert m in undoomed by {
        if Doomed(route, s.states, m) { DoomedIsNotRunnable(route, s, m); }
      }
    } else {
      forall v | v in s.states && s.states[v] == Pending ensures Doomed(route, s.states, v) {
        assert v !in undoomed;
      }
      forall v | v in s.states && IsRunnable(route, s, v) ensures false {
        DoomedIsNotRunnable(route, s, v);
      }
    }
  }

  // ----- what every run keeps -----

  predicate NoRetry(ops: seq<Op>) {
    forall i :: 0 <= i < |ops| ==> !ops[i].OpRetry?
  }

  predicate AnyUnfinished(s: RunState) {
    exists id :: id in s.states && Unfinished(s.states[id])
  }

  /** A running route without debris still has a node to finish. */
  ghost predicate Lively(s: RunState) {
    s.status == RouteRunning && !HasDebris(s.states) ==> AnyUnfinished(s)
  }

  ghost predicate Clean(s: RunState) {
    s.status == RouteRunning ==> !HasDebris(s.states)
  }

  lemma {:induction false} NoNewDebris(before: map<string, NodeState>, after: map<string, NodeState>)
    requires !HasDebris(before)
    requires forall d :: IsDebris(after, d) ==> IsDebris(before, d)
    ensures !HasDebris(after)
  {
  }

  lemma {:induction false} UnsettledIsUnfinished(route: Route, s: RunState)
    requires GraphInv(route, s) && !HasDebris(s.states) && !AllSettled(route, s.states)
    ensures AnyUnfinished(s)
  {
    var id :| id in s.states && !Settled(route, s.states, id);
    assert !IsDebris(s.states, id);
    assert Unfinished(s.states[id]);
  }

  lemma {:induction false} DebrisNodeStays(route: Route, s: RunState, op: Op, id: string)
    requires IsDebris(s.states, id)
    ensures IsDebris(Step(route, s, op).states, id)
  {
    match op
    case OpStart(_) =>
    case OpComplete(_, _) =>
    case OpFail(_) =>
    case OpRetry(_, _, _) =>
    case OpCancelParent =>
  }

  /** Cancelled and unknown nodes stay so, whatever is called. */
  lemma {:induction false} DebrisIsForever(route: Route, s: RunState, op: Op)
    ensures forall id :: IsDebris(s.states, id) ==> IsDebris(Step(route, s, op).states, id)
    ensures HasDebris(s.states) ==> HasDebris(Step(route, s, op).states)
  {
    var after := Step(route, s, op).states;
    forall id | IsDebris(s.states, id) ensures IsDebris(after, id) { DebrisNodeStays(route, s, op, id); }
    DebrisStays(s.states, after);
  }

  lemma {:induction false} StepKeepsLively(route: Route, s: RunState, op: Op)
    requires GoodEdges(route) && GraphInv(route, s) && Lively(s)
    ensures Lively(Step(route, s, op))
  {
    var t := Step(route, s, op);
    DebrisIsForever(route, s, op);
    if t.status == RouteRunning && !HasDebris(t.states) && t != s {
      match op
      case OpStart(id) =>
        assert id in t.states && Unfinished(t.states[id]);
      case OpComplete(id, result) =>
        CompleteKeepsGraph(route, s, id, result);
        UnsettledIsUnfinished(route, t);
      case OpFail(id) =>
        var v :| v in s.states && IsRunnable(route, t, v);
        assert v in t.states && Unfinished(t.states[v]);
      case OpRetry(id, _, _) =>
        if RetryNode(route, s, op.id, op.intent, op.effectAbsent).1 == Ok(RetryGranted) {
          assert id in t.states && Unfinished(t.states[id]);
        } else {
          assert t.states == s.states && t.status == s.status;
        }
      case OpCancelParent =>
    }
  }

  lemma {:induction false} StepKeepsClean(route: Route, s: RunState, op: Op)
    requires Clean(s) && !op.OpRetry?
    ensures Clean(Step(route, s, op))
  {
    var t := Step(route, s, op);
    if t.status == RouteRunning { NoNewDebris(s.states, t.states); }
  }

  lemma {:induction false} RunKeepsProgress(route: Route, parent: u64, s: RunState, ops: seq<Op>)
    requires UniqueIds(route.nodes) && GoodEdges(route) && Inv(route, parent, s) && Lively(s)
    ensures var t := Run(route, s, ops);
            && Inv(route, parent, t) && Lively(t)
            && (NoRetry(ops) && Clean(s) ==> Clean(t))
            && (HasDebris(s.states) ==> HasDebris(t.states))
    decreases |ops|
  {
    if |ops| > 0 {
      var u := Step(route, s, ops[0]);
      StepKeepsLedger(route, parent, s, ops[0]);
      StepKeepsGraph(route, s, ops[0]);
      StepKeepsLively(route, s, ops[0]);
      DebrisIsForever(route, s, ops[0]);
      if NoRetry(ops) && Clean(s) {
        StepKeepsClean(route, s, ops[0]);
        assert NoRetry(ops[1..]);
      }
      RunKeepsProgress(route, parent, u, ops[1..]);
    }
  }

  lemma {:induction false} ReachableKeepsProgress(route: Route, parent: u64, ops: seq<Op>)
    requires ValidRoute(route)
    ensures var s := Run(route, Initial(route, parent), ops);
            Inv(route, parent, s) && Lively(s) && (NoRetry(ops) ==> Clean(s))
  {
    var s := Initial(route, parent);
    InitialKeepsLedger(route, parent);
    InitialKeepsGraph(route, parent);
    if s.status == RouteRunning {
      var id :| id in Ids(route.nodes);
      assert id in s.states && Unfinished(s.states[id]);
    }
    RunKeepsProgress(route, parent, s, ops);
  }

  lemma {:induction false} NoDebrisNoDeadEdge(route: Route, states: map<string, NodeState>, v: string)
    requires !HasDebris(states) && IntolerableFailureLeavesDebris(route, states)
    ensures !HasDeadEdge(route, states, v)
  {
    forall k | 0 <= k < |route.edges| ensures !DeadEdge(states, route.edges[k]) {
      assert !IsDebris(states, route.edges[k].from);
    }
  }

  lemma {:induction false} LivelyIsNotStuck(route: Route, parent: u64, s: RunState)
    requires ValidRoute(route) && Inv(route, parent, s) && Lively(s) && !HasDebris(s.states)
    ensures !Stuck(route, s)
  {
    if s.status == RouteRunning && !AnyRunning(s) {
      var id :| id in s.states && Unfinished(s.states[id]);
      assert s.states[id] == Pending;
      StuckExactly(route, parent, s);
      forall p ensures !DeadPath(route, s.states, p) {
        if |p| > 0 { NoDebrisNoDeadEdge(route, s.states, p[0]); }
      }
      assert !Doomed(route, s.states, id);
    }
  }

  // ----- deadlock freedom -----

  /** Deadlock freedom: without retries, a route that says it runs always has a node running or one
      that can be started. */
  lemma {:induction false} DeadlockFree(route: Route, parent: u64, ops: seq<Op>)
    requires ValidRoute(route) && NoRetry(ops)
    ensures var s := Run(route, Initial(route, parent), ops);
            s.status == RouteRunning ==> AnyRunning(s) || AnyRunnable(route, s)
  {
    var s := Run(route, Initial(route, parent), ops);
    ReachableKeepsProgress(route, parent, ops);
    if s.status == RouteRunning { LivelyIsNotStuck(route, parent, s); }
  }

  /** When nothing runs, a runnable node's start succeeds exactly when its own budget is positive and
      within the parent's: no earlier work can have used the budget up. */
  lemma {:induction false} RunnableStartsExactly(route: Route, parent: u64, s: RunState, id: string)
    requires LedgerInv(route, parent, s) && !AnyRunning(s) && IsRunnable(route, s, id)
    ensures Start(route, s, id).Ok? <==>
            var budget := Find(route.nodes, id).value.budget;
            budget.Some? && 0 < budget.value <= parent
  {
    IdleHoldsNothing(route, parent, s);
    assert id in Ids(route.nodes);
  }

  lemma {:induction false} IdleHoldsNothing(route: Route, parent: u64, s: RunState)
    requires LedgerInv(route, parent, s) && !AnyRunning(s)
    ensures s.reservations == map[] && s.remaining == parent
  {
    assert s.reservations == map[];
    NothingReserved(route.nodes, s.reservations);
  }

  // ----- budgets that can never be reserved -----

  /** The node declares a budget that the parent can ever grant. */
  predicate CanAfford(node: Node, parent: u64) { node.budget.Some? && 0 < node.budget.value <= parent }

  ghost predicate Affordable(route: Route, parent: u64) {
    forall i :: 0 <= i < |route.nodes| ==> CanAfford(route.nodes[i], parent)
  }

  /** A node that can never be afforded is never started. */
  ghost predicate Untouched(route: Route, parent: u64, s: RunState) {
    forall i :: 0 <= i < |route.nodes| && !CanAfford(route.nodes[i], parent) && route.nodes[i].id in s.states ==>
      s.states[route.nodes[i].id] in {Pending, Cancelled}
  }

  lemma {:induction false} UnaffordableDoesNotStart(route: Route, parent: u64, s: RunState, id: string, i: nat)
    requires UniqueIds(route.nodes) && s.remaining <= parent
    requires i < |route.nodes| && route.nodes[i].id == id && !CanAfford(route.nodes[i], parent)
    ensures Start(route, s, id).Err?
  {
    assert id in Ids(route.nodes);
    var at := FindsUnique(route.nodes, id);
    assert i == at;
  }

  ghost predicate Waiting(s: RunState, id: string) { id in s.states && s.states[id] in {Pending, Cancelled} }

  lemma {:induction false} FailuresLeaveWaiting(route: Route, s: RunState, failed: string, id: string)
    requires Waiting(s, id) && FailNode(route, s, failed).Ok?
    ensures Waiting(FailNode(route, s, failed).value, id)
  {
  }

  /** A pending or cancelled node stays so unless it is started. */
  lemma {:induction false} OnlyStartsTouch(route: Route, s: RunState, op: Op, id: string)
    requires Waiting(s, id)
    requires op == OpStart(id) ==> Start(route, s, id).Err?
    ensures Waiting(Step(route, s, op), id)
  {
    match op
    case OpFail(failed) => if FailNode(route, s, failed).Ok? { FailuresLeaveWaiting(route, s, failed, id); }
    case OpStart(_) =>
    case OpComplete(_, _) =>
    case OpRetry(_, _, _) =>
    case OpCancelParent =>
  }

  lemma {:induction false} StepKeepsUntouched(route: Route, parent: u64, s: RunState, op: Op)
    requires UniqueIds(route.nodes) && LedgerInv(route, parent, s) && Untouched(route, parent, s)
    ensures Untouched(route, parent, Step(route, s, op))
  {
    forall i | 0 <= i < |route.nodes| && !CanAfford(route.nodes[i], parent)
      ensures Waiting(Step(route, s, op), route.nodes[i].id)
    {
      var id := route.nodes[i].id;
      assert id in Ids(route.nodes) && s.remaining <= parent;
      if op == OpStart(id) { UnaffordableDoesNotStart(route, parent, s, id, i); }
      OnlyStartsTouch(route, s, op, id);
    }
  }

  lemma {:induction false} CompletedIsAffordable(route: Route, parent: u64, s: RunState)
    requires GraphInv(route, s) && Untouched(route, parent, s) && s.status == RouteCompleted
    ensures Affordable(route, parent)
  {
    forall i | 0 <= i < |route.nodes| ensures CanAfford(route.nodes[i], parent) {
      assert route.nodes[i].id in Ids(route.nodes);
      assert Settled(route, s.states, route.nodes[i].id);
    }
  }

  // ----- retries -----

  /** The route says it is running, but nothing runs and no start succeeds. */
  ghost predicate Halted(route: Route, s: RunState) {
    s.status == RouteRunning && !AnyRunning(s) && forall id :: Start(route, s, id).Err?
  }

  lemma {:induction false} AffordableStarts(route: Route, parent: u64, s: RunState, id: string)
    requires UniqueIds(route.nodes) && LedgerInv(route, parent, s) && Affordable(route, parent) && !AnyRunning(s)
    ensures IsRunnable(route, s, id) ==> Start(route, s, id).Ok?
  {
    if IsRunnable(route, s, id) {
      RunnableStartsExactly(route, parent, s, id);
      var at := FindsUnique(route.nodes, id);
      assert CanAfford(route.nodes[at], parent);
    }
  }

  /** A stuck route is halted, and where every budget can be afforded there is no other way to halt. */
  lemma {:induction false} HaltedExactly(route: Route, parent: u64, s: RunState)
    requires UniqueIds(route.nodes) && LedgerInv(route, parent, s)
    ensures Stuck(route, s) ==> Halted(route, s)
    ensures Affordable(route, parent) && Halted(route, s) ==> Stuck(route, s)
  {
    if Affordable(route, parent) && Halted(route, s) {
      forall id | id in s.states ensures !IsRunnable(route, s, id) {
        assert Start(route, s, id).Err?;
        AffordableStarts(route, parent, s, id);
      }
    }
  }

  /** What every reachable state keeps. */
  ghost predicate Kept(route: Route, parent: u64, s: RunState) {
    Inv(route, parent, s) && Lively(s) && Untouched(route, parent, s)
  }

  lemma {:induction false} StepKeeps(route: Route, parent: u64, s: RunState, op: Op)
    requires ValidRoute(route) && Kept(route, parent, s)
    ensures Kept(route, parent, Step(route, s, op))
    ensures HasDebris(s.states) ==> HasDebris(Step(route, s, op).states)
  {
    StepKeepsLedger(route, parent, s, op);
    StepKeepsGraph(route, s, op);
    StepKeepsLively(route, s, op);
    StepKeepsUntouched(route, parent, s, op);
    DebrisIsForever(route, s, op);
  }

  lemma {:induction false} RunKeepsAll(route: Route, parent: u64, s: RunState, ops: seq<Op>)
    requires ValidRoute(route) && Kept(route, parent, s)
    ensures Kept(route, parent, Run(route, s, ops))
    decreases |ops|
  {
    if |ops| > 0 {
      StepKeeps(route, parent, s, ops[0]);
      RunKeepsAll(route, parent, Step(route, s, ops[0]), ops[1..]);
    }
  }

  lemma {:induction false} ReachableIsKept(route: Route, parent: u64, history: seq<Op>)
    requires ValidRoute(route)
    ensures Kept(route, parent, Run(route, Initial(route, parent), history))
  {
    ReachableKeepsProgress(route, parent, []);
    assert Untouched(route, parent, Initial(route, parent));
    RunKeepsAll(route, parent, Initial(route, parent), history);
  }

  lemma {:induction false} RunCons(route: Route, s: RunState, op: Op, ops: seq<Op>)
    ensures Run(route, s, [op] + ops) == Run(route, Step(route, s, op), ops)
  {
    assert ([op] + ops)[1..] == ops;
  }

  /** Nothing keeps the route from being completed. */
  ghost predicate Unhindered(route: Route, parent: u64, s: RunState) {
    Affordable(route, parent) && !HasDebris(s.states)
  }

  /** The next move of a driver that completes whatever runs and otherwise starts whatever it can. */
  lemma {:induction false} NextMove(route: Route, s: RunState) returns (op: Op)
    requires s.status == RouteRunning && !Halted(route, s)
    ensures !op.OpRetry? && Moves(route, s, op)
    ensures var t := Step(route, s, op); t.status == RouteRunning || t.status == RouteCompleted
  {
    if AnyRunning(s) {
      var id :| id in s.states && s.states[id] == Running;
      op := OpComplete(id, "");
      assert Complete(route, s, id, "").Ok?;
    } else {
      var id :| Start(route, s, id).Ok?;
      op := OpStart(id);
    }
  }

  /** One move of the driver: everything the route keeps is kept, and the measure falls. */
  lemma {:induction false} DriveOnce(route: Route, parent: u64, s: RunState) returns (op: Op)
    requires ValidRoute(route) && Kept(route, parent, s) && s.status == RouteRunning && !Halted(route, s)
    ensures !op.OpRetry?
    ensures var t := Step(route, s, op);
            && Kept(route, parent, t) && Measure(route, t) < Measure(route, s)
            && (t.status == RouteRunning || t.status == RouteCompleted)
            && (t.status == RouteRunning ==> (HasDebris(t.states) <==> HasDebris(s.states)))
            && (t.status == RouteCompleted ==> Unhindered(route, parent, s))
  {
    op := NextMove(route, s);
    StepKeeps(route, parent, s, op);
    StepDropsMeasure(route, parent, s, op);
    if !HasDebris(s.states) { StepKeepsClean(route, s, op); }
    var t := Step(route, s, op);
    CompletedHasNoDebris(route, t);
    if t.status == RouteCompleted { CompletedIsAffordable(route, parent, t); }
  }

  ghost predicate EndsRight(route: Route, parent: u64, s: RunState, ops: seq<Op>) {
    && NoRetry(ops)
    && (!Unhindered(route, parent, s) ==> Halted(route, Run(route, s, ops)))
    && (Unhindered(route, parent, s) ==> Run(route, s, ops).status == RouteCompleted)
  }

  lemma {:induction false} DriveOn(route: Route, parent: u64, s: RunState, op: Op, rest: seq<Op>)
    requires !op.OpRetry? && EndsRight(route, parent, Step(route, s, op), rest)
    requires HasDebris(Step(route, s, op).states) <==> HasDebris(s.states)
    ensures EndsRight(route, parent, s, [op] + rest)
  {
    RunCons(route, s, op, rest);
  }

  lemma {:induction false} UnhinderedIsNotHalted(route: Route, parent: u64, s: RunState)
    requires ValidRoute(route) && Kept(route, parent, s) && Unhindered(route, parent, s)
    ensures !Halted(route, s)
  {
    LivelyIsNotStuck(route, parent, s);
    HaltedExactly(route, parent, s);
  }

  lemma {:induction false} HaltedEndsRight(route: Route, parent: u64, s: RunState)
    requires ValidRoute(route) && Kept(route, parent, s) && Halted(route, s)
    ensures EndsRight(route, parent, s, [])
  {
    if Unhindered(route, parent, s) { UnhinderedIsNotHalted(route, parent, s); }
  }

  lemma {:induction false} CompletedEndsRight(route: Route, parent: u64, s: RunState, op: Op)
    requires !op.OpRetry? && Unhindered(route, parent, s) && Step(route, s, op).status == RouteCompleted
    ensures EndsRight(route, parent, s, [op])
  {
    RunCons(route, s, op, []);
    assert [op] + [] == [op];
  }

  /** Driving a running route forward ends `Completed` when nothing hinders it, and halted otherwise. */
  lemma {:induction false} Drive(route: Route, parent: u64, s: RunState) returns (ops: seq<Op>)
    requires ValidRoute(route) && Kept(route, parent, s) && s.status == RouteRunning
    ensures EndsRight(route, parent, s, ops)
    decreases Measure(route, s)
  {
    if Halted(route, s) {
      ops := [];
      HaltedEndsRight(route, parent, s);
    } else {
      var op := DriveOnce(route, parent, s);
      var t := Step(route, s, op);
      if t.status == RouteRunning {
        var rest := Drive(route, parent, t);
        ops := [op] + rest;
        DriveOn(route, parent, s, op, rest);
      } else {
        ops := [op];
        CompletedEndsRight(route, parent, s, op);
      }
    }
  }

  lemma {:induction false} CompletedHasNoDebris(route: Route, s: RunState)
    requires GraphInv(route, s)
    ensures s.status == RouteCompleted ==> !HasDebris(s.states)
  {
    if s.status == RouteCompleted {
      forall d ensures !IsDebris(s.states, d) {
        if d in s.states { assert Settled(route, s.states, d); }
      }
    }
  }

  /** A running route, however it was reached, can still be completed exactly when every node's budget is
      positive and within the parent's, and no node was cancelled or declared unknown. */
  lemma {:induction false} CompletableExactly(route: Route, parent: u64, history: seq<Op>)
    requires ValidRoute(route)
    ensures var s := Run(route, Initial(route, parent), history);
            s.status == RouteRunning ==>
              ((exists ops :: Run(route, s, ops).status == RouteCompleted) <==>
               Affordable(route, parent) && !HasDebris(s.states))
  {
    var s := Run(route, Initial(route, parent), history);
    ReachableIsKept(route, parent, history);
    if s.status == RouteRunning {
      if Unhindered(route, parent, s) {
        var ops := Drive(route, parent, s);
        assert Run(route, s, ops).status == RouteCompleted;
      } else {
        forall ops ensures Run(route, s, ops).status != RouteCompleted {
          HinderedNeverCompletes(route, parent, s, ops);
        }
      }
    }
  }

  lemma {:induction false} HinderedNeverCompletes(route: Route, parent: u64, s: RunState, ops: seq<Op>)
    requires ValidRoute(route) && Kept(route, parent, s) && !Unhindered(route, parent, s)
    ensures Run(route, s, ops).status != RouteCompleted
  {
    RunKeepsAll(route, parent, s, ops);
    RunKeepsProgress(route, parent, s, ops);
    var t := Run(route, s, ops);
    CompletedHasNoDebris(route, t);
    if t.status == RouteCompleted { CompletedIsAffordable(route, parent, t); }
  }

  /** Some continuation without retries ends halted. */
  ghost predicate Strandable(route: Route, s: RunState) {
    exists ops :: NoRetry(ops) && Halted(route, Run(route, s, ops))
  }

  lemma {:induction false} UnhinderedNeverHalts(route: Route, parent: u64, t: RunState, ops: seq<Op>)
    requires ValidRoute(route) && Kept(route, parent, t) && Unhindered(route, parent, t) && NoRetry(ops)
    ensures !Halted(route, Run(route, t, ops))
  {
    RunKeepsAll(route, parent, t, ops);
    RunKeepsProgress(route, parent, t, ops);
    if Run(route, t, ops).status == RouteRunning { UnhinderedIsNotHalted(route, parent, Run(route, t, ops)); }
  }

  lemma {:induction false} StrandableExactly(route: Route, parent: u64, t: RunState)
    requires ValidRoute(route) && Kept(route, parent, t) && t.status == RouteRunning
    ensures Strandable(route, t) <==> !Unhindered(route, parent, t)
  {
    if Unhindered(route, parent, t) {
      forall ops | NoRetry(ops) ensures !Halted(route, Run(route, t, ops)) {
        UnhinderedNeverHalts(route, parent, t, ops);
      }
    } else {
      var ops := Drive(route, parent, t);
      assert NoRetry(ops) && Halted(route, Run(route, t, ops));
    }
  }

  /** Without retries a route never halts, whatever is called in whatever order, exactly when every node's
      budget is positive and within the parent's. */
  lemma {:induction false} NeverHaltsExactly(route: Route, parent: u64)
    requires ValidRoute(route)
    ensures (forall ops :: NoRetry(ops) ==> !Halted(route, Run(route, Initial(route, parent), ops))) <==>
            Affordable(route, parent)
  {
    var s := Initial(route, parent);
    ReachableIsKept(route, parent, []);
    assert !HasDebris(s.states);
    if Affordable(route, parent) {
      forall ops | NoRetry(ops) ensures !Halted(route, Run(route, s, ops)) {
        UnhinderedNeverHalts(route, parent, s, ops);
      }
    } else {
      var i :| 0 <= i < |route.nodes| && !CanAfford(route.nodes[i], parent);
      assert route.nodes[i].id in Ids(route.nodes);
      StrandableExactly(route, parent, s);
    }
  }

  lemma {:induction false} GrantedRetryKeepsDebris(route: Route, s: RunState, id: string, intent: string, t: RunState)
    requires RetryNode(route, s, id, intent, true) == (t, Ok(RetryGranted))
    ensures t == Step(route, s, OpRetry(id, intent, true))
    ensures t.status == RouteRunning && (HasDebris(t.states) <==> HasDebris(s.states))
  {
    DebrisStays(s.states, t.states);
    DebrisStays(t.states, s.states);
  }

  /** A granted retry can lead, without further retries, to a halted route exactly when some node had
      already been cancelled or declared unknown before the retry, or some budget can never be afforded. */
  lemma {:induction false} RetryDeadlocksExactly(
      route: Route, parent: u64, history: seq<Op>, id: string, intent: string, s: RunState, t: RunState)
    requires ValidRoute(route)
    requires s == Run(route, Initial(route, parent), history)
    requires RetryNode(route, s, id, intent, true) == (t, Ok(RetryGranted))
    ensures Strandable(route, t) <==> HasDebris(s.states) || !Affordable(route, parent)
  {
    ReachableIsKept(route, parent, history);
    GrantedRetryKeepsDebris(route, s, id, intent, t);
    StepKeeps(route, parent, s, OpRetry(id, intent, true));
    StrandableExactly(route, parent, t);
  }

  // ----- a concrete stranded route -----

  function Builder(): Node { Node("build", "builder", Some(6), true, 2) }

  function Reviewer(): Node { Node("review", "reviewer", Some(5), true, 2) }

  function AbortingPair(): Route {
    Route(1, "route", None, [Builder(), Reviewer()], [Edge("build", "review", AbortRoute)])
  }

  function PairState(
      build: NodeState, review: NodeState, tries: map<string, nat>, intents: set<(string, string)>,
      results: map<string, string>, status: Status)
    : RunState
  {
    RunState(map["build" := build, "review" := review], tries, intents, results, status,
             if build == Running then 4 else 10, if build == Running then map["build" := 6] else map[])
  }

  lemma {:induction false} PairIds()
    ensures Ids(AbortingPair().nodes) == {"build", "review"}
    ensures Find(AbortingPair().nodes, "build") == Some(Builder())
  {
    assert AbortingPair().nodes[0].id == "build" && AbortingPair().nodes[1].id == "review";
  }

  lemma {:induction false} PairStarts(tries: map<string, nat>, intents: set<(string, string)>, review: NodeState)
    ensures Step(AbortingPair(), PairState(Pending, review, tries, intents, map[], RouteRunning), OpStart("build")) ==
            PairState(Running, review, tries["build" := (if "build" in tries then tries["build"] else 0) + 1], intents,
                      map[], RouteRunning)
  {
    PairIds();
  }

  lemma {:induction false} PairAborts(tries: map<string, nat>)
    ensures Step(AbortingPair(), PairState(Running, Pending, tries, {}, map[], RouteRunning), OpFail("build")) ==
            PairState(Failed, Cancelled, tries, {}, map[], RouteFailed)
  {
    var route, s := AbortingPair(), PairState(Running, Pending, tries, {}, map[], RouteRunning);
    assert OutPolicy(route, "build", AbortRoute) by { assert route.edges[0].from == "build"; }
    assert FailedAt(s, "build", RouteFailed) == PairState(Failed, Pending, tries, {}, map[], RouteFailed);
    PairCancels(tries);
  }

  lemma {:induction false} PairCancels(tries: map<string, nat>)
    ensures CancelUnfinished(AbortingPair(), PairState(Failed, Pending, tries, {}, map[], RouteFailed)) ==
            PairState(Failed, Cancelled, tries, {}, map[], RouteFailed)
  {
    var failed := PairState(Failed, Pending, tries, {}, map[], RouteFailed);
    assert Restrict(failed.reservations, OpenNodes(failed.states)) == map[];
    NothingReserved(AbortingPair().nodes, map[]);
    assert CancelOpen(failed.states) == map["build" := Failed, "review" := Cancelled];
  }

  lemma {:induction false} PairRetries()
    ensures Step(AbortingPair(), PairState(Failed, Cancelled, map["build" := 1], {}, map[], RouteFailed),
                 OpRetry("build", "again", true)) ==
            PairState(Pending, Cancelled, map["build" := 1], {("build", "again")}, map[], RouteRunning)
  {
    PairIds();
  }

  lemma {:induction false} PairCompletes(tries: map<string, nat>, intents: set<(string, string)>)
    ensures var s := PairState(Done, Cancelled, tries, intents, map["build" := "ok"], RouteRunning);
            && Step(AbortingPair(), PairState(Running, Cancelled, tries, intents, map[], RouteRunning),
                    OpComplete("build", "ok")) == s
            && Stuck(AbortingPair(), s)
  {
    var route := AbortingPair();
    var s := PairState(Done, Cancelled, tries, intents, map["build" := "ok"], RouteRunning);
    assert !Settled(route, s.states, "review");
    var running := PairState(Running, Cancelled, tries, intents, map[], RouteRunning);
    assert DoneAt(running, "build", "ok", RouteRunning) == s;
  }

  /** `build` fails and aborts the route, is retried and succeeds: the route says it is running, but
      `review` stays cancelled, nothing runs and nothing can start. */
  lemma {:induction false} RetryAfterAbortStrands()
    ensures var route := AbortingPair();
            var failed := Step(route, Step(route, Initial(route, 10), OpStart("build")), OpFail("build"));
            var retried := Step(route, failed, OpRetry("build", "again", true));
            Stuck(route, Step(route, Step(route, retried, OpStart("build")), OpComplete("build", "ok")))
  {
    PairIds();
    assert Initial(AbortingPair(), 10) == PairState(Pending, Pending, map[], {}, map[], RouteRunning);
    PairStarts(map[], {}, Pending);
    PairAborts(map["build" := 1]);
    PairRetries();
    PairStarts(map["build" := 1], {("build", "again")}, Cancelled);
    PairCompletes(map["build" := 1]["build" := 2], {("build", "again")});
  }
}
