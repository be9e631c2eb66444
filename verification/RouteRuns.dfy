/** Whole runs of a route: conservation of budget, bounded work, progress, and exactly when
    a retry can leave a route stuck. */
module RouteRuns {
  import opened Common
  import opened Sequences
  import opened RouteGraph
  import opened RouteRuntime
  import opened RouteInvariant

  datatype Op =
    | OpStart(id: string)
    | OpComplete(id: string, result: string)
    | OpFail(id: string)
    | OpRetry(id: string, intent: string, effectAbsent: bool)
    | OpCancelParent

  /** One call on the runtime; a refused call leaves whatever the call itself leaves. */
  function Step(route: Route, s: RunState, op: Op): RunState {
    match op
    case OpStart(id) => (match Start(route, s, id) case Ok(t) => t case Err(_) => s)
    case OpComplete(id, result) => (match Complete(route, s, id, result) case Ok(t) => t case Err(_) => s)
    case OpFail(id) => (match FailNode(route, s, id) case Ok(t) => t case Err(_) => s)
    case OpRetry(id, intent, effectAbsent) => RetryNode(route, s, id, intent, effectAbsent).0
    case OpCancelParent => CancelParent(route, s)
  }

  function Run(route: Route, s: RunState, ops: seq<Op>): RunState
    decreases |ops|
  {
    if |ops| == 0 then s else Run(route, Step(route, s, ops[0]), ops[1..])
  }

  /** The call moved a node: a start, completion, failure, granted retry, or an outcome declared unknown. */
  predicate Moves(route: Route, s: RunState, op: Op) {
    match op
    case OpStart(id) => Start(route, s, id).Ok?
    case OpComplete(id, result) => Complete(route, s, id, result).Ok?
    case OpFail(id) => FailNode(route, s, id).Ok?
    case OpRetry(id, intent, effectAbsent) =>
      RetryNode(route, s, id, intent, effectAbsent).1 in {Ok(RetryGranted), Ok(RetryUnknown)}
    case OpCancelParent => false
  }

  function CountMoves(route: Route, s: RunState, ops: seq<Op>): nat
    decreases |ops|
  {
    if |ops| == 0 then 0
    else (if Moves(route, s, ops[0]) then 1 else 0) + CountMoves(route, Step(route, s, ops[0]), ops[1..])
  }

  // ----- the invariant over whole runs -----

  lemma {:induction false} FailKeepsLedger(route: Route, parent: u64, s: RunState, id: string)
    requires UniqueIds(route.nodes) && LedgerInv(route, parent, s) && FailNode(route, s, id).Ok?
    ensures LedgerInv(route, parent, FailNode(route, s, id).value)
  {
    var t := FailNode(route, s, id).value;
    var status := if OutPolicy(route, id, AbortRoute) then RouteFailed
                  else if OutPolicy(route, id, Replan) then ReplanRequested
                  else t.status;
    FailedKeepsLedger(route, parent, s, id, status);
    assert t == FailedAt(s, id, status) || t == CancelUnfinished(route, FailedAt(s, id, status));
  }

  lemma {:induction false} StepKeepsLedger(route: Route, parent: u64, s: RunState, op: Op)
    requires UniqueIds(route.nodes) && LedgerInv(route, parent, s)
    ensures LedgerInv(route, parent, Step(route, s, op))
  {
    match op
    case OpStart(id) =>
      if Start(route, s, id).Ok? { StartKeepsLedger(route, parent, s, id); }
    case OpComplete(id, result) =>
      if Complete(route, s, id, result).Ok? {
        DoneKeepsLedger(route, parent, s, id, result, s.status);
        DoneKeepsLedger(route, parent, s, id, result, RouteCompleted);
      }
    case OpFail(id) =>
      if FailNode(route, s, id).Ok? { FailKeepsLedger(route, parent, s, id); }
    case OpRetry(id, intent, effectAbsent) =>
      RetryKeepsLedger(route, parent, s, id, intent, effectAbsent);
    case OpCancelParent =>
      LedgerFramed(route, parent, s, s.(status := RouteCancelled));
      CancelKeepsLedger(route, parent, s.(status := RouteCancelled));
  }

  lemma {:induction false} StepKeepsGraph(route: Route, s: RunState, op: Op)
    requires GoodEdges(route) && GraphInv(route, s)
    ensures GraphInv(route, Step(route, s, op))
  {
    match op
    case OpStart(id) =>
      if Start(route, s, id).Ok? { StartKeepsGraph(route, s, id); }
    case OpComplete(id, result) =>
      if Complete(route, s, id, result).Ok? { CompleteKeepsGraph(route, s, id, result); }
    case OpFail(id) =>
      if FailNode(route, s, id).Ok? { FailKeepsGraph(route, s, id); }
    case OpRetry(id, intent, effectAbsent) =>
      RetryKeepsGraph(route, s, id, intent, effectAbsent);
    case OpCancelParent =>
      CancelParentKeepsGraph(route, s);
  }

  lemma {:induction false} RunKeeps(route: Route, parent: u64, s: RunState, ops: seq<Op>)
    requires UniqueIds(route.nodes) && GoodEdges(route) && Inv(route, parent, s)
    ensures Inv(route, parent, Run(route, s, ops))
    decreases |ops|
  {
    if |ops| > 0 {
      StepKeepsLedger(route, parent, s, ops[0]);
      StepKeepsGraph(route, s, ops[0]);
      RunKeeps(route, parent, Step(route, s, ops[0]), ops[1..]);
    }
  }

  lemma {:induction false} ReachableKeeps(route: Route, parent: u64, ops: seq<Op>)
    requires ValidRoute(route)
    ensures Inv(route, parent, Run(route, Initial(route, parent), ops))
  {
    InitialKeepsLedger(route, parent);
    InitialKeepsGraph(route, parent);
    RunKeeps(route, parent, Initial(route, parent), ops);
  }

  /** Budget conservation over every run: what is left plus what the running nodes hold is the
      parent's budget, each running node holds exactly its declared units, handing them back never
      saturates, and the full budget is back whenever nothing runs. */
  lemma {:induction false} BudgetConserved(route: Route, parent: u64, ops: seq<Op>)
    requires ValidRoute(route)
    ensures var s := Run(route, Initial(route, parent), ops);
            && s.remaining + Reserved(route.nodes, s.reservations) == parent
            && (forall id :: id in s.reservations <==> id in s.states && s.states[id] == Running)
            && (forall i :: 0 <= i < |route.nodes| && route.nodes[i].id in s.reservations ==>
                  route.nodes[i].budget == Some(s.reservations[route.nodes[i].id]))
            && (forall id :: id in s.reservations ==>
                SatAdd(s.remaining, s.reservations[id]) == s.remaining + s.reservations[id])
            && ((forall id :: id in s.states ==> s.states[id] != Running) ==> s.remaining == parent)
  {
    var s := Run(route, Initial(route, parent), ops);
    ReachableKeeps(route, parent, ops);
    LedgerBalances(route, parent, s);
  }

  lemma {:induction false} LedgerBalances(route: Route, parent: u64, s: RunState)
    requires UniqueIds(route.nodes) && LedgerInv(route, parent, s)
    ensures forall id :: id in s.reservations ==> s.remaining + s.reservations[id] <= parent
    ensures (forall id :: id in s.states ==> s.states[id] != Running) ==> s.remaining == parent
  {
    forall id | id in s.reservations ensures s.remaining + s.reservations[id] <= parent {
      ReleaseOne(route.nodes, s.reservations, id);
    }
    if forall id :: id in s.states ==> s.states[id] != Running {
      assert s.reservations == map[];
      NothingReserved(route.nodes, s.reservations);
    }
  }

  // ----- bounded work -----

  function Left(s: RunState, node: Node): nat {
    if AttemptsOf(s, node.id) <= Allowance(node) then Allowance(node) - AttemptsOf(s, node.id) else 0
  }

  /** What a node may still do: three moves for every attempt it has left. */
  function Weight(s: RunState): Node -> nat {
    (node: Node) =>
      if node.id !in s.states then 0
      else match s.states[node.id]
           case Pending => 3 * Left(s, node)
           case Running => 3 * Left(s, node) + 2
           case Failed => 3 * Left(s, node) + 1
           case _ => 0
  }

  function Measure(route: Route, s: RunState): nat { SumOver(route.nodes, Weight(s)) }

  lemma {:induction false} StartDropsWeight(route: Route, s: RunState, id: string, node: Node)
    requires Start(route, s, id).Ok? && AttemptBounded(s, node)
    ensures Weight(Start(route, s, id).value)(node) <= Weight(s)(node)
    ensures node.id == id ==> Weight(Start(route, s, id).value)(node) < Weight(s)(node)
  {
  }

  lemma {:induction false} CompleteDropsWeight(route: Route, s: RunState, id: string, result: string, node: Node)
    requires Complete(route, s, id, result).Ok?
    ensures Weight(Complete(route, s, id, result).value)(node) <= Weight(s)(node)
    ensures node.id == id ==> Weight(Complete(route, s, id, result).value)(node) < Weight(s)(node)
  {
  }

  lemma {:induction false} CancelDropsWeight(route: Route, s: RunState, node: Node)
    ensures Weight(CancelUnfinished(route, s))(node) <= Weight(s)(node)
  {
  }

  lemma {:induction false} FailDropsWeight(route: Route, s: RunState, id: string, node: Node)
    requires FailNode(route, s, id).Ok?
    ensures Weight(FailNode(route, s, id).value)(node) <= Weight(s)(node)
    ensures node.id == id ==> Weight(FailNode(route, s, id).value)(node) < Weight(s)(node)
  {
    forall status ensures FailedWeighsLess(s, id, status, node) { FailingDropsWeight(s, id, status, node); }
    CancelDropsWeight(route, FailedAt(s, id, RouteFailed), node);
    CancelDropsWeight(route, FailedAt(s, id, ReplanRequested), node);
    assert FailedWeighsLess(s, id, RouteFailed, node) && FailedWeighsLess(s, id, ReplanRequested, node)
           && FailedWeighsLess(s, id, s.status, node);
  }

  predicate FailedWeighsLess(s: RunState, id: string, status: Status, node: Node) {
    && Weight(FailedAt(s, id, status))(node) <= Weight(s)(node)
    && (node.id == id ==> Weight(FailedAt(s, id, status))(node) < Weight(s)(node))
  }

  lemma {:induction false} FailingDropsWeight(s: RunState, id: string, status: Status, node: Node)
    requires id in s.states && s.states[id] == Running
    ensures FailedWeighsLess(s, id, status, node)
  {
  }

  lemma {:induction false} RetryDropsWeight(route: Route, s: RunState, op: Op, node: Node)
    requires op.OpRetry?
    ensures Weight(Step(route, s, op))(node) <= Weight(s)(node)
    ensures Moves(route, s, op) && node.id == op.id ==> Weight(Step(route, s, op))(node) < Weight(s)(node)
  {
  }

  lemma {:induction false} StepDropsWeight(route: Route, s: RunState, op: Op, node: Node)
    requires AttemptBounded(s, node)
    ensures Weight(Step(route, s, op))(node) <= Weight(s)(node)
    ensures Moves(route, s, op) && node.id == op.id ==> Weight(Step(route, s, op))(node) < Weight(s)(node)
  {
    match op
    case OpStart(id) => if Start(route, s, id).Ok? { StartDropsWeight(route, s, id, node); }
    case OpComplete(id, result) =>
      if Complete(route, s, id, result).Ok? { CompleteDropsWeight(route, s, id, result, node); }
    case OpFail(id) => if FailNode(route, s, id).Ok? { FailDropsWeight(route, s, id, node); }
    case OpRetry(_, _, _) => RetryDropsWeight(route, s, op, node);
    case OpCancelParent => CancelDropsWeight(route, s.(status := RouteCancelled), node);
  }

  /** No call raises the measure, and every call that moves a node lowers it. */
  lemma {:induction false} StepDropsMeasure(route: Route, parent: u64, s: RunState, op: Op)
    requires UniqueIds(route.nodes) && LedgerInv(route, parent, s)
    ensures Measure(route, Step(route, s, op)) <= Measure(route, s)
    ensures Moves(route, s, op) ==> Measure(route, Step(route, s, op)) < Measure(route, s)
  {
    forall i | 0 <= i < |route.nodes|
      ensures Weight(Step(route, s, op))(route.nodes[i]) <= Weight(s)(route.nodes[i])
    {
      assert AttemptBounded(s, route.nodes[i]);
      StepDropsWeight(route, s, op, route.nodes[i]);
    }
    SumAtMost(route.nodes, Weight(Step(route, s, op)), Weight(s));
    if Moves(route, s, op) { MoveDropsMeasure(route, parent, s, op, Step(route, s, op)); }
  }

  lemma {:induction false} MoveDropsMeasure(route: Route, parent: u64, s: RunState, op: Op, t: RunState)
    requires UniqueIds(route.nodes) && LedgerInv(route, parent, s) && Moves(route, s, op) && t == Step(route, s, op)
    requires forall i :: 0 <= i < |route.nodes| ==> Weight(t)(route.nodes[i]) <= Weight(s)(route.nodes[i])
    ensures Measure(route, t) < Measure(route, s)
  {
    assert op.id in s.states;
    var at := FindsUnique(route.nodes, op.id);
    assert AttemptBounded(s, route.nodes[at]);
    StepDropsWeight(route, s, op, route.nodes[at]);
    SumDrops(route.nodes, Weight(s), Weight(t), at);
  }

  lemma {:induction false} MovesBoundedFrom(route: Route, parent: u64, s: RunState, ops: seq<Op>)
    requires UniqueIds(route.nodes) && LedgerInv(route, parent, s)
    ensures CountMoves(route, s, ops) + Measure(route, Run(route, s, ops)) <= Measure(route, s)
    decreases |ops|
  {
    if |ops| > 0 {
      StepKeepsLedger(route, parent, s, ops[0]);
      StepDropsMeasure(route, parent, s, ops[0]);
      MovesBoundedFrom(route, parent, Step(route, s, ops[0]), ops[1..]);
    }
  }

  lemma {:induction false} SumTriples(nodes: seq<Node>, s: RunState)
    requires forall i :: 0 <= i < |nodes| ==> Weight(s)(nodes[i]) == 3 * Allowance(nodes[i])
    ensures SumOver(nodes, Weight(s)) == 3 * SumOver(nodes, Allowance)
  {
    if |nodes| > 0 {
      assert forall i :: 0 <= i < |nodes[1..]| ==> nodes[1..][i] == nodes[i + 1];
      SumTriples(nodes[1..], s);
    }
  }

  /** Bounded work: a run of any length, with any retries, makes at most three moves per attempt
      that the nodes are allowed. */
  lemma {:induction false} WorkIsBounded(route: Route, parent: u64, ops: seq<Op>)
    requires ValidRoute(route)
    ensures CountMoves(route, Initial(route, parent), ops) <= 3 * SumOver(route.nodes, Allowance)
  {
    var s := Initial(route, parent);
    InitialKeepsLedger(route, parent);
    MovesBoundedFrom(route, parent, s, ops);
    SumTriples(route.nodes, s);
  }

  /** Attempts never pass the allowance (so a 32-bit count cannot wrap), `Done` is absorbing, results
      are held for exactly the `Done` nodes, and `Completed` means every node is settled. */
  lemma {:induction false} RunsAreBoundedAndHonest(route: Route, parent: u64, ops: seq<Op>, more: seq<Op>)
    requires ValidRoute(route)
    ensures var s := Run(route, Initial(route, parent), ops);
            && (forall i :: 0 <= i < |route.nodes| ==> AttemptsOf(s, route.nodes[i].id) <= Allowance(route.nodes[i]))
            && (forall i :: 0 <= i < |route.nodes| ==> Allowance(route.nodes[i]) <= U32_MAX)
            && (forall id :: id in s.results <==> id in s.states && s.states[id] == Done)
            && (s.status == RouteCompleted ==> AllSettled(route, s.states))
            && (forall id :: id in s.results ==>
                  var t := Run(route, s, more);
                  id in t.results && t.results[id] == s.results[id] && id in t.states && t.states[id] == Done)
  {
    var s := Run(route, Initial(route, parent), ops);
    ReachableKeeps(route, parent, ops);
    forall i | 0 <= i < |route.nodes| ensures AttemptsOf(s, route.nodes[i].id) <= Allowance(route.nodes[i]) {
      assert AttemptBounded(s, route.nodes[i]);
    }
    forall id | id in s.results
      ensures var t := Run(route, s, more);
              id in t.results && t.results[id] == s.results[id] && id in t.states && t.states[id] == Done
    {
      DoneIsAbsorbing(route, s, more, id);
    }
  }

  lemma {:induction false} DoneIsAbsorbing(route: Route, s: RunState, ops: seq<Op>, id: string)
    requires id in s.states && s.states[id] == Done && id in s.results
    ensures var t := Run(route, s, ops);
            id in t.results && t.results[id] == s.results[id] && id in t.states && t.states[id] == Done
    decreases |ops|
  {
    if |ops| > 0 {
      StepKeepsDone(route, s, ops[0], id);
      DoneIsAbsorbing(route, Step(route, s, ops[0]), ops[1..], id);
    }
  }

  lemma {:induction false} StepKeepsDone(route: Route, s: RunState, op: Op, id: string)
    requires id in s.states && s.states[id] == Done && id in s.results
    ensures var t := Step(route, s, op);
            id in t.results && t.results[id] == s.results[id] && id in t.states && t.states[id] == Done
  {
    match op
    case OpStart(_) =>
    case OpComplete(_, _) =>
    case OpFail(_) =>
    case OpRetry(_, _, _) =>
    case OpCancelParent =>
  }
}
