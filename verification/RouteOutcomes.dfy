/** What completions, failures, retries and cancellations answer and leave, told from the edges, the node states and
    the calls of the run. */
module RouteOutcomes {
  import opened Common
  import opened Sequences
  import opened RouteGraph
  import opened RouteRuntime
  import opened RouteInvariant
  import opened RouteRuns
  import opened RouteProgress
  import opened RouteStarts

  // ----- completions -----

  predicate Follows(route: Route, id: string, policy: FailurePolicy) {
    exists e :: e in route.edges && e.from == id && e.onFailure == policy
  }

  /** Done, or failed with every edge out of it tolerating that. */
  predicate SettledAt(route: Route, states: map<string, NodeState>, id: string) {
    id in states && match states[id]
                    case Done => true
                    case Failed => !Follows(route, id, AbortRoute) && !Follows(route, id, Replan)
                    case _ => false
  }

  lemma {:induction false} FollowsExactly(route: Route, id: string, policy: FailurePolicy)
    ensures Follows(route, id, policy) <==> OutPolicy(route, id, policy)
  {
    if Follows(route, id, policy) {
      var e :| e in route.edges && e.from == id && e.onFailure == policy;
      var k :| 0 <= k < |route.edges| && route.edges[k] == e;
      assert route.edges[k].from == id && route.edges[k].onFailure == policy;
    }
  }

  lemma {:induction false} ToleratedExactly(route: Route, id: string)
    ensures Tolerated(route, id) <==> !Follows(route, id, AbortRoute) && !Follows(route, id, Replan)
  {
    FollowsExactly(route, id, AbortRoute);
    FollowsExactly(route, id, Replan);
    if !OutPolicy(route, id, AbortRoute) && !OutPolicy(route, id, Replan) {
      forall k | 0 <= k < |route.edges| && route.edges[k].from == id ensures route.edges[k].onFailure == Continue {
        match route.edges[k].onFailure
        case AbortRoute => assert OutPolicy(route, id, AbortRoute);
        case Replan => assert OutPolicy(route, id, Replan);
        case Continue =>
      }
    }
  }

  lemma {:induction false} SettledExactly(route: Route, states: map<string, NodeState>)
    ensures AllSettled(route, states) <==> forall id :: id in states ==> SettledAt(route, states, id)
  {
    forall id | id in states ensures Settled(route, states, id) <==> SettledAt(route, states, id) {
      ToleratedExactly(route, id);
    }
  }

  /** Nothing but the node's own state, its result, its units and the status differs. */
  ghost predicate OnlyNode(s: RunState, t: RunState, id: string, state: NodeState) {
    && t.states == s.states[id := state] && t.attempts == s.attempts && t.intents == s.intents
    && t.reservations == s.reservations - {id}
    && t.remaining == if id in s.reservations then SatAdd(s.remaining, s.reservations[id]) else s.remaining
  }

  /** A completion succeeds exactly on a running node. It keeps the result, hands the units back, and completes the
      route exactly when every node is then done or has failed tolerably. */
  lemma {:induction false} CompletesExactly(route: Route, s: RunState, id: string, result: string)
    ensures Complete(route, s, id, result).Ok? <==> id in s.states && s.states[id] == Running
    ensures Complete(route, s, id, result).Ok? ==>
              var t := Complete(route, s, id, result).value;
              && OnlyNode(s, t, id, Done) && t.results == s.results[id := result]
              && t.status == if forall v :: v in t.states ==> SettledAt(route, t.states, v) then RouteCompleted
                             else s.status
  {
    if id in s.states { SettledExactly(route, s.states[id := Done]); }
  }

  // ----- failures and cancellation -----

  /** `v` may be started once the states are as given. */
  predicate MayStart(route: Route, status: Status, states: map<string, NodeState>, v: string) {
    && status == RouteRunning && v in states && states[v] == Pending
    && forall e :: e in route.edges && e.to == v ==> Over(states, e)
  }

  /** Pending and running nodes are cancelled, and all others stay as they are. */
  ghost predicate AllCancelled(before: map<string, NodeState>, after: map<string, NodeState>) {
    && after.Keys == before.Keys
    && forall v :: v in before ==> after[v] == if before[v] in {Pending, Running} then Cancelled else before[v]
  }

  lemma {:induction false} CancelsOpen(route: Route, s: RunState)
    ensures var t := CancelUnfinished(route, s);
            && AllCancelled(s.states, t.states) && t.status == s.status && t.results == s.results
            && t.attempts == s.attempts && t.intents == s.intents
  {
  }

  lemma {:induction false} RunnableAfterFailure(route: Route, s: RunState, id: string)
    requires id in s.states
    ensures (exists v :: v in s.states && IsRunnable(route, FailedAt(s, id, s.status), v)) <==>
            var others := s.states[id := Failed];
            exists v :: MayStart(route, s.status, others, v)
  {
    var t, others := FailedAt(s, id, s.status), s.states[id := Failed];
    forall v ensures IsRunnable(route, t, v) <==> MayStart(route, s.status, others, v) { RunnableExactly(route, t, v); }
    if v :| MayStart(route, s.status, others, v) { assert v in s.states && IsRunnable(route, t, v); }
  }

  /** The status a failure leaves: the strictest edge out of the node decides; when none is strict the route goes on
      exactly while some other node may be started. */
  ghost predicate FailureStatus(route: Route, s: RunState, id: string, status: Status) {
    var others := s.states[id := Failed];
    status ==
    if Follows(route, id, AbortRoute) then RouteFailed
    else if Follows(route, id, Replan) then ReplanRequested
    else if exists v :: MayStart(route, s.status, others, v) then s.status
    else RouteFailed
  }

  /** A failure succeeds exactly on a running node, and cancels all that is open exactly behind a strict edge. */
  lemma {:induction false} FailsExactly(route: Route, s: RunState, id: string)
    ensures FailNode(route, s, id).Ok? <==> id in s.states && s.states[id] == Running
    ensures FailNode(route, s, id).Ok? ==>
              var t := FailNode(route, s, id).value;
              && FailureStatus(route, s, id, t.status)
              && t.results == s.results && t.attempts == s.attempts && t.intents == s.intents
              && if Follows(route, id, AbortRoute) || Follows(route, id, Replan)
                 then AllCancelled(s.states[id := Failed], t.states)
                 else t.states == s.states[id := Failed]
  {
    FollowsExactly(route, id, AbortRoute);
    FollowsExactly(route, id, Replan);
    if id in s.states && s.states[id] == Running {
      RunnableAfterFailure(route, s, id);
      CancelsOpen(route, FailedAt(s, id, RouteFailed));
      CancelsOpen(route, FailedAt(s, id, ReplanRequested));
    }
  }

  /** A new runtime waits in every node, and an empty route is complete. Cancelling the parent cancels the route and
      all that is open in it. */
  lemma {:induction false} BeginsAndCancelsExactly(route: Route, parent: u64, s: RunState)
    ensures var initial := Initial(route, parent);
            && (forall v :: v in initial.states <==> v in Ids(route.nodes))
            && (forall v :: v in initial.states ==> initial.states[v] == Pending)
            && initial.status == if |route.nodes| == 0 then RouteCompleted else RouteRunning
    ensures var t := CancelParent(route, s);
            && t.status == RouteCancelled && AllCancelled(s.states, t.states) && t.results == s.results
            && t.attempts == s.attempts && t.intents == s.intents
  {
    if |route.nodes| > 0 { assert route.nodes[0].id in Ids(route.nodes); }
    CancelsOpen(route, s.(status := RouteCancelled));
  }

  // ----- retries -----

  function After(route: Route, parent: u64, ops: seq<Op>): RunState { Run(route, Initial(route, parent), ops) }

  /** The call at `i` retried the failed node under the intent, with its effect known to be absent. */
  ghost predicate TriedAt(route: Route, parent: u64, ops: seq<Op>, i: int, id: string, intent: string) {
    && 0 <= i < |ops| && ops[i] == OpRetry(id, intent, true)
    && var s := After(route, parent, ops[..i]);
    && id in s.states && s.states[id] == Failed
  }

  /** How often the node has been started. */
  function StartsOf(route: Route, parent: u64, ops: seq<Op>, id: string): nat
    decreases |ops|
  {
    if |ops| == 0 then 0
    else
      var front, op := ops[..|ops| - 1], ops[|ops| - 1];
      StartsOf(route, parent, front, id)
      + if op == OpStart(id) && Start(route, After(route, parent, front), id).Ok? then 1 else 0
  }

  lemma {:induction false} RunSnoc(route: Route, s: RunState, ops: seq<Op>, op: Op)
    ensures Run(route, s, ops + [op]) == Step(route, Run(route, s, ops), op)
    decreases |ops|
  {
    if |ops| == 0 {
      assert ops + [op] == [op] && [op][1..] == [];
    } else {
      assert (ops + [op])[1..] == ops[1..] + [op];
      RunSnoc(route, Step(route, s, ops[0]), ops[1..], op);
    }
  }

  lemma {:induction false} AfterSnoc(route: Route, parent: u64, ops: seq<Op>)
    requires |ops| > 0
    ensures After(route, parent, ops) == Step(route, After(route, parent, ops[..|ops| - 1]), ops[|ops| - 1])
  {
    assert ops == ops[..|ops| - 1] + [ops[|ops| - 1]];
    RunSnoc(route, Initial(route, parent), ops[..|ops| - 1], ops[|ops| - 1]);
  }

  lemma {:induction false} StepCounts(route: Route, s: RunState, op: Op, id: string, intent: string)
    ensures var t := Step(route, s, op);
            && ((id, intent) in t.intents <==>
                (id, intent) in s.intents
                  || (op == OpRetry(id, intent, true) && id in s.states && s.states[id] == Failed))
            && AttemptsOf(t, id) == AttemptsOf(s, id) + if op == OpStart(id) && Start(route, s, id).Ok? then 1 else 0
  {
  }

  /** The runtime remembers exactly the intents that were tried, and counts exactly the starts. */
  lemma {:induction false} RunCounts(route: Route, parent: u64, ops: seq<Op>, id: string, intent: string)
    ensures (id, intent) in After(route, parent, ops).intents <==>
            exists i :: TriedAt(route, parent, ops, i, id, intent)
    ensures AttemptsOf(After(route, parent, ops), id) == StartsOf(route, parent, ops, id)
    decreases |ops|
  {
    if |ops| > 0 {
      var front, last := ops[..|ops| - 1], |ops| - 1;
      RunCounts(route, parent, front, id, intent);
      AfterSnoc(route, parent, ops);
      StepCounts(route, After(route, parent, front), ops[last], id, intent);
      forall i | 0 <= i < last
        ensures TriedAt(route, parent, ops, i, id, intent) <==> TriedAt(route, parent, front, i, id, intent)
      {
        assert ops[..i] == front[..i];
      }
      if i :| TriedAt(route, parent, front, i, id, intent) { assert TriedAt(route, parent, ops, i, id, intent); }
      assert TriedAt(route, parent, ops, last, id, intent) <==>
             ops[last] == OpRetry(id, intent, true) && id in After(route, parent, front).states
             && After(route, parent, front).states[id] == Failed;
    }
  }

  lemma {:induction false} RetryAnswers(route: Route, s: RunState, node: Node, intent: string, effectAbsent: bool)
    requires Find(route.nodes, node.id) == Some(node)
    ensures var id, r := node.id, RetryNode(route, s, node.id, intent, effectAbsent);
            && (r.1.Ok? <==> id in s.states && s.states[id] == Failed)
            && (r.1.Err? ==> r.0 == s)
            && (r.1.Ok? && !effectAbsent ==>
                  r.1.value == RetryUnknown
                  && r.0 == s.(states := s.states[id := OutcomeUnknown], status := RouteFailed))
            && (r.1.Ok? && effectAbsent ==>
                  if (id, intent) !in s.intents && AttemptsOf(s, id) < node.maxAttempts
                  then r.1.value == RetryGranted && r.0.states == s.states[id := Pending] && r.0.status == RouteRunning
                  else r.1.value == RetryExhausted && r.0.states == s.states && r.0.status == s.status)
  {
  }

  /** In every reachable state a retry is answered exactly on a failed node. When the effect may have happened the
      node's outcome is unknown from then on; otherwise the node is retried exactly under an intent that was not
      tried before and with fewer starts than its policy allows. */
  lemma {:induction false} RetriesExactly(
      route: Route, parent: u64, history: seq<Op>, at: nat, intent: string, effectAbsent: bool)
    requires ValidRoute(route) && at < |route.nodes|
    ensures var node := route.nodes[at];
            var s, id := After(route, parent, history), node.id;
            var r := RetryNode(route, s, id, intent, effectAbsent);
            && (r.1.Ok? <==> id in s.states && s.states[id] == Failed)
            && (r.1.Err? ==> r.0 == s)
            && (r.1.Ok? && !effectAbsent ==>
                  r.1.value == RetryUnknown
                  && r.0 == s.(states := s.states[id := OutcomeUnknown], status := RouteFailed))
            && (r.1.Ok? && effectAbsent ==>
                  if (forall i :: !TriedAt(route, parent, history, i, id, intent))
                     && StartsOf(route, parent, history, id) < node.maxAttempts
                  then r.1.value == RetryGranted && r.0.states == s.states[id := Pending] && r.0.status == RouteRunning
                  else r.1.value == RetryExhausted && r.0.states == s.states && r.0.status == s.status)
  {
    var node := route.nodes[at];
    assert node.id in Ids(route.nodes);
    var found := FindsUnique(route.nodes, node.id);
    assert found == at;
    RunCounts(route, parent, history, node.id, intent);
    RetryAnswers(route, After(route, parent, history), node, intent, effectAbsent);
  }
}
