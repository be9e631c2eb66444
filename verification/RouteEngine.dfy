/** The runtime objects: a budget ledger and a route runtime, updated in place and proved to follow
    the run functions step by step. */
module RouteEngine {
  import opened Common
  import opened RouteGraph
  import R = RouteRuntime
  import opened RouteInvariant
  import RouteRuns

  class BudgetLedger {
    var remaining: u64
    var reservations: map<string, u64>

    constructor (total: u64)
      ensures remaining == total && reservations == map[]
    {
      remaining := total;
      reservations := map[];
    }

    method Reserve(node: string, amount: u64) returns (r: Outcome<R.RunError>)
      modifies this
      ensures r.Pass? <==> 0 < amount <= old(remaining) && node !in old(reservations)
      ensures r.Pass? ==> remaining == old(remaining) - amount && reservations == old(reservations)[node := amount]
      ensures r.Fail? ==> remaining == old(remaining) && reservations == old(reservations)
      ensures r.Fail? ==> r.error == if amount == 0 then R.ZeroBudget
                                     else if node in old(reservations) then R.AlreadyReserved else R.OverBudget
    {
      if amount == 0 { return Fail(R.ZeroBudget); }
      if node in reservations { return Fail(R.AlreadyReserved); }
      if amount > remaining { return Fail(R.OverBudget); }
      remaining := remaining - amount;
      reservations := reservations[node := amount];
      return Pass;
    }

    method Release(node: string) returns (amount: u64)
      modifies this
      ensures amount == if node in old(reservations) then old(reservations)[node] else 0
      ensures reservations == old(reservations) - {node}
      ensures remaining == SatAdd(old(remaining), amount)
    {
      amount := if node in reservations then reservations[node] else 0;
      reservations := reservations - {node};
      remaining := SatAdd(remaining, amount);
    }
  }

  class RouteRuntime {
    const route: Route
    const budget: BudgetLedger
    var states: map<string, R.NodeState>
    var attempts: map<string, nat>
    var intents: set<(string, string)>
    var results: map<string, string>
    var status: R.Status

    /** The run this object is in. */
    ghost function Current(): R.RunState
      reads this, budget
    {
      R.RunState(states, attempts, intents, results, status, budget.remaining, budget.reservations)
    }

    /** What every method needs of the object; the run invariant itself is proved of `Current()`. */
    ghost predicate Valid()
      reads this, budget
    {
      && UniqueIds(route.nodes)
      && states.Keys == Ids(route.nodes)
      && budget.reservations.Keys <= states.Keys
    }

    constructor (route: Route, parentBudget: u64)
      requires UniqueIds(route.nodes)
      ensures Valid() && fresh(budget)
      ensures this.route == route
      ensures Current() == R.Initial(route, parentBudget)
    {
      this.route := route;
      budget := new BudgetLedger(parentBudget);
      var ids := Ids(route.nodes);
      states := map id | id in ids :: R.Pending;
      attempts := map[];
      intents := {};
      results := map[];
      status := if |ids| == 0 then R.RouteCompleted else R.RouteRunning;
    }

    /** A runtime exists exactly for the routes that the admission check accepts. */
    static method Create(route: Route, parentBudget: u64) returns (r: Result<RouteRuntime, RouteError>)
      ensures r.Ok? <==> ValidRoute(route)
      ensures r.Ok? ==> fresh(r.value) && fresh(r.value.budget) && r.value.Valid()
                        && r.value.route == route
                        && r.value.Current() == R.Initial(route, parentBudget)
    {
      var verdict := ValidateRoute(route);
      match verdict
      case Fail(e) => return Err(e);
      case Pass =>
        var runtime := new RouteRuntime(route, parentBudget);
        return Ok(runtime);
    }

    method Start(node: string) returns (r: Outcome<R.RunError>)
      requires Valid()
      modifies this, budget
      ensures Valid()
      ensures match R.Start(route, old(Current()), node)
              case Ok(next) => r == Pass && Current() == next
              case Err(e) => r == Outcome.Fail(e) && Current() == old(Current())
    {
      if status != R.RouteRunning || node !in states || states[node] != R.Pending
         || !R.DependenciesSatisfied(route, states, node) {
        assert !R.IsRunnable(route, Current(), node);
        return Outcome.Fail(R.NotRunnable);
      }
      assert R.IsRunnable(route, Current(), node);
      var found := R.Find(route.nodes, node);
      if found.None? { return Outcome.Fail(R.NoSuchNode); }
      if found.value.budget.None? { return Outcome.Fail(R.BadBudget); }
      r := budget.Reserve(node, found.value.budget.value);
      if r.Pass? {
        states := states[node := R.Running];
        attempts := attempts[node := (if node in attempts then attempts[node] else 0) + 1];
      }
    }

    method Complete(node: string, result: string) returns (r: Outcome<R.RunError>)
      requires Valid()
      modifies this, budget
      ensures Valid()
      ensures match R.Complete(route, old(Current()), node, result)
              case Ok(next) => r == Pass && Current() == next
              case Err(e) => r == Outcome.Fail(e) && Current() == old(Current())
    {
      if node !in states || states[node] != R.Running { return Outcome.Fail(R.NotRunning); }
      var _ := budget.Release(node);
      states := states[node := R.Done];
      results := results[node := result];
      if R.AllSettled(route, states) { status := R.RouteCompleted; }
      return Pass;
    }

    /** The cancellation loop: one release and one state change for each unfinished node. */
    method CancelUnfinished()
      requires Valid()
      modifies this, budget
      ensures Valid()
      ensures Current() == R.CancelUnfinished(route, old(Current()))
    {
      ghost var before := Current();
      var open := R.OpenNodes(states);
      ghost var done: set<string> := {};
      CancelNone(route, before);
      while open != {}
        invariant open !! done && open + done == R.OpenNodes(before.states)
        invariant Current() == R.CancelSome(route, before, done)
      {
        var id :| id in open;
        CancelOneMore(route, before, done, id);
        var _ := budget.Release(id);
        states := states[id := R.Cancelled];
        open, done := open - {id}, done + {id};
      }
    }

    method Fail(node: string) returns (r: Outcome<R.RunError>)
      requires Valid()
      modifies this, budget
      ensures Valid()
      ensures match R.FailNode(route, old(Current()), node)
              case Ok(next) => r == Pass && Current() == next
              case Err(e) => r == Outcome.Fail(e) && Current() == old(Current())
    {
      if node !in states || states[node] != R.Running { return Outcome.Fail(R.NotRunning); }
      ghost var before := Current();
      var _ := budget.Release(node);
      states := states[node := R.Failed];
      assert Current() == R.FailedAt(before, node, before.status);
      if R.OutPolicy(route, node, AbortRoute) {
        status := R.RouteFailed;
        CancelUnfinished();
      } else if R.OutPolicy(route, node, Replan) {
        status := R.ReplanRequested;
        CancelUnfinished();
      } else {
        var any := AnyRunnable();
        if !any { status := R.RouteFailed; }
      }
      return Pass;
    }

    method AnyRunnable() returns (any: bool)
      ensures any <==> exists v :: v in states && R.IsRunnable(route, Current(), v)
    {
      any := status == R.RouteRunning
             && exists v :: v in states && states[v] == R.Pending && R.DependenciesSatisfied(route, states, v);
      if any {
        var v :| v in states && states[v] == R.Pending && R.DependenciesSatisfied(route, states, v);
        assert R.IsRunnable(route, Current(), v);
      }
    }

    method Retry(node: string, intent: string, effectAbsent: bool) returns (r: Result<R.Decision, R.RunError>)
      requires Valid()
      modifies this
      ensures Valid()
      ensures (Current(), r) == R.RetryNode(route, old(Current()), node, intent, effectAbsent)
    {
      if node !in states || states[node] != R.Failed { return Err(R.NotFailed); }
      if !effectAbsent {
        states := states[node := R.OutcomeUnknown];
        status := R.RouteFailed;
        return Ok(R.RetryUnknown);
      }
      if (node, intent) in intents { return Ok(R.RetryExhausted); }
      intents := intents + {(node, intent)};
      var found := R.Find(route.nodes, node);
      if found.None? { return Err(R.NoSuchNode); }
      if (if node in attempts then attempts[node] else 0) >= found.value.maxAttempts { return Ok(R.RetryExhausted); }
      states := states[node := R.Pending];
      status := R.RouteRunning;
      return Ok(R.RetryGranted);
    }

    method CancelParent()
      requires Valid()
      modifies this, budget
      ensures Valid()
      ensures Current() == R.CancelParent(route, old(Current()))
    {
      status := R.RouteCancelled;
      CancelUnfinished();
    }
  }

  lemma {:induction false} CancelNone(route: Route, s: R.RunState)
    ensures R.CancelSome(route, s, {}) == s
  {
    assert R.Restrict(s.reservations, {}) == map[];
    NothingReserved(route.nodes, map[]);
  }

  lemma {:induction false} CancelOneReturns(
      nodes: seq<Node>, reservations: map<string, u64>, done: set<string>, id: string)
    requires UniqueIds(nodes) && reservations.Keys <= Ids(nodes) && id !in done
    ensures R.Reserved(nodes, R.Restrict(reservations, done + {id})) ==
            R.Reserved(nodes, R.Restrict(reservations, done)) + if id in reservations then reservations[id] else 0
  {
    var before, after := R.Restrict(reservations, done), R.Restrict(reservations, done + {id});
    if id in reservations {
      assert after - {id} == before;
      ReleaseOne(nodes, after, id);
    } else {
      assert before == after;
    }
  }

  /** One turn of the cancellation loop. */
  lemma {:induction false} CancelOneMore(route: Route, s: R.RunState, done: set<string>, id: string)
    requires UniqueIds(route.nodes) && s.reservations.Keys <= Ids(route.nodes)
    requires id in s.states && id !in done
    ensures var t := R.CancelSome(route, s, done);
            R.Release(t, id).(states := t.states[id := R.Cancelled]) == R.CancelSome(route, s, done + {id})
  {
    CancelOneReturns(route.nodes, s.reservations, done, id);
    var t, u := R.CancelSome(route, s, done), R.CancelSome(route, s, done + {id});
    assert t.states[id := R.Cancelled] == u.states;
    assert t.reservations - {id} == u.reservations;
  }
}
