/** What a failure leaves behind that finds nothing runnable while other nodes still run. */
module RouteFailures {
  import opened Common
  import opened RouteGraph
  import opened RouteRuntime
  import opened RouteRuns
  import opened RouteProgress

  /** The route neither runs nor is completed. */
  predicate Ended(s: RunState) { s.status != RouteRunning && s.status != RouteCompleted }

  /** Some nodes still run, and all others are done or failed tolerably. */
  ghost predicate OnlyRunningLeft(route: Route, s: RunState) {
    AnyRunning(s) && forall id :: id in s.states ==> s.states[id] == Running || Settled(route, s.states, id)
  }

  function RunningIds(s: RunState): set<string> {
    set id | id in s.states && s.states[id] == Running
  }

  lemma {:induction false} CompletingOne(route: Route, s: RunState, id: string)
    requires OnlyRunningLeft(route, s) && id in s.states && s.states[id] == Running
    ensures var t := Step(route, s, OpComplete(id, ""));
            && (t.status == RouteCompleted || OnlyRunningLeft(route, t))
            && RunningIds(t) == RunningIds(s) - {id}
  {
    var t := Step(route, s, OpComplete(id, ""));
    assert t.states == s.states[id := Done];
    if !AllSettled(route, t.states) {
      var v :| v in t.states && !Settled(route, t.states, v);
      assert s.states[v] == Running;
    }
  }

  /** Completing what runs completes the route, whatever status it had. */
  lemma {:induction false} FinishRunning(route: Route, s: RunState) returns (ops: seq<Op>)
    requires OnlyRunningLeft(route, s)
    ensures NoRetry(ops) && Run(route, s, ops).status == RouteCompleted
    decreases |RunningIds(s)|
  {
    var id :| id in s.states && s.states[id] == Running;
    var op := OpComplete(id, "");
    var t := Step(route, s, op);
    CompletingOne(route, s, id);
    assert RunningIds(s) == RunningIds(t) + {id};
    if t.status == RouteCompleted {
      ops := [op];
      RunCons(route, s, op, []);
    } else {
      var rest := FinishRunning(route, t);
      ops := [op] + rest;
      RunCons(route, s, op, rest);
    }
  }

  /** A node that neither runs nor is settled can only be moved by a start or a retry. */
  ghost predicate Lost(route: Route, s: RunState, id: string) {
    id in s.states && s.states[id] != Running && !Settled(route, s.states, id)
  }

  lemma {:induction false} LostStaysLost(route: Route, s: RunState, op: Op, id: string)
    requires Ended(s) && Lost(route, s, id) && !op.OpRetry?
    ensures Ended(Step(route, s, op)) && Lost(route, Step(route, s, op), id)
  {
    match op
    case OpFail(failed) => if FailNode(route, s, failed).Ok? { FailureKeepsLost(route, s, failed, id); }
    case OpComplete(done, _) =>
      if done in s.states && s.states[done] == Running { assert !Settled(route, s.states[done := Done], id); }
    case OpStart(_) =>
    case OpRetry(_, _, _) =>
    case OpCancelParent =>
  }

  lemma {:induction false} FailureKeepsLost(route: Route, s: RunState, failed: string, id: string)
    requires Ended(s) && Lost(route, s, id) && FailNode(route, s, failed).Ok?
    ensures Ended(FailNode(route, s, failed).value) && Lost(route, FailNode(route, s, failed).value, id)
  {
  }

  lemma {:induction false} IdleStaysIdle(route: Route, s: RunState, op: Op)
    requires Ended(s) && !AnyRunning(s) && !op.OpRetry?
    ensures Ended(Step(route, s, op)) && !AnyRunning(Step(route, s, op))
  {
  }

  lemma {:induction false} LostNeverFinishes(route: Route, s: RunState, id: string, ops: seq<Op>)
    requires Ended(s) && Lost(route, s, id) && NoRetry(ops)
    ensures Run(route, s, ops).status != RouteCompleted
    decreases |ops|
  {
    if |ops| > 0 {
      LostStaysLost(route, s, ops[0], id);
      assert NoRetry(ops[1..]);
      LostNeverFinishes(route, Step(route, s, ops[0]), id, ops[1..]);
    }
  }

  lemma {:induction false} IdleNeverFinishes(route: Route, s: RunState, ops: seq<Op>)
    requires Ended(s) && !AnyRunning(s) && NoRetry(ops)
    ensures Run(route, s, ops).status != RouteCompleted
    decreases |ops|
  {
    if |ops| > 0 {
      IdleStaysIdle(route, s, ops[0]);
      assert NoRetry(ops[1..]);
      IdleNeverFinishes(route, Step(route, s, ops[0]), ops[1..]);
    }
  }

  /** A route that has ended otherwise than completed can still be completed without a retry exactly when some
      nodes run and all others are done or failed tolerably: no start succeeds any more, so one pending node, even
      one that becomes ready, is enough to prevent it. */
  lemma {:induction false} EndedRouteFinishesExactly(route: Route, s: RunState)
    requires Ended(s)
    ensures (exists ops :: NoRetry(ops) && Run(route, s, ops).status == RouteCompleted) <==> OnlyRunningLeft(route, s)
  {
    if OnlyRunningLeft(route, s) {
      var ops := FinishRunning(route, s);
      assert NoRetry(ops) && Run(route, s, ops).status == RouteCompleted;
    } else {
      forall ops | NoRetry(ops) ensures Run(route, s, ops).status != RouteCompleted {
        if AnyRunning(s) {
          var id :| id in s.states && s.states[id] != Running && !Settled(route, s.states, id);
          LostNeverFinishes(route, s, id, ops);
        } else {
          IdleNeverFinishes(route, s, ops);
        }
      }
    }
  }

  /** A running route whose last two nodes run. */
  ghost predicate LastTwo(route: Route, s: RunState, a: string, b: string) {
    && s.status == RouteRunning && a != b
    && a in s.states && s.states[a] == Running && b in s.states && s.states[b] == Running
    && forall id :: id in s.states && id != a && id != b ==> Settled(route, s.states, id)
  }

  lemma {:induction false} ToleratedFailureFails(route: Route, s: RunState, a: string)
    requires a in s.states && s.states[a] == Running && Tolerated(route, a)
    requires forall id :: id in s.states ==> s.states[id] != Pending
    ensures Step(route, s, OpFail(a)) == FailedAt(s, a, RouteFailed)
  {
    assert !OutPolicy(route, a, AbortRoute) && !OutPolicy(route, a, Replan);
  }

  /** The order of the last two results decides the outcome: a tolerated failure before the last completion
      leaves the route completed, the same failure after it leaves the route failed. */
  lemma {:induction false} LastFailureDecides(route: Route, s: RunState, a: string, b: string, result: string)
    requires LastTwo(route, s, a, b) && Tolerated(route, a)
    ensures Step(route, Step(route, s, OpFail(a)), OpComplete(b, result)).status == RouteCompleted
    ensures Step(route, Step(route, s, OpComplete(b, result)), OpFail(a)).status == RouteFailed
    ensures Step(route, Step(route, s, OpFail(a)), OpComplete(b, result)).states ==
            Step(route, Step(route, s, OpComplete(b, result)), OpFail(a)).states
  {
    FailedThenCompleted(route, s, a, b, result);
    CompletedThenFailed(route, s, a, b, result);
    assert s.states[a := Failed][b := Done] == s.states[b := Done][a := Failed];
  }

  lemma {:induction false} FailedThenCompleted(route: Route, s: RunState, a: string, b: string, result: string)
    requires LastTwo(route, s, a, b) && Tolerated(route, a)
    ensures var t := Step(route, Step(route, s, OpFail(a)), OpComplete(b, result));
            t.status == RouteCompleted && t.states == s.states[a := Failed][b := Done]
  {
    ToleratedFailureFails(route, s, a);
    assert AllSettled(route, s.states[a := Failed][b := Done]);
  }

  lemma {:induction false} CompletedThenFailed(route: Route, s: RunState, a: string, b: string, result: string)
    requires LastTwo(route, s, a, b) && Tolerated(route, a)
    ensures var t := Step(route, Step(route, s, OpComplete(b, result)), OpFail(a));
            t.status == RouteFailed && t.states == s.states[b := Done][a := Failed]
  {
    assert !Settled(route, s.states[b := Done], a);
    ToleratedFailureFails(route, Step(route, s, OpComplete(b, result)), a);
  }
}
