/** The static side of an execution route: nodes, dependency edges, and the admission check
    that a route passes before it may run. */
module RouteGraph {
  import opened Common
  import opened Sequences

  datatype FailurePolicy = AbortRoute | Continue | Replan

  datatype Edge = Edge(from: string, to: string, onFailure: FailurePolicy)

  /** `budget` is the outcome of reading the profile's budget text: `None` when it is not a number. */
  datatype Node = Node(id: string, role: string, budget: Option<u64>, verifiable: bool, maxAttempts: u32)

  datatype Route = Route(
    schemaVersion: nat,
    reference: string,
    patternRef: Option<string>,
    nodes: seq<Node>,
    edges: seq<Edge>)

  datatype RouteError = IncompleteRoute | BadNodes | BadEdge | CyclicRoute

  function Ids(nodes: seq<Node>): set<string> {
    set i | 0 <= i < |nodes| :: nodes[i].id
  }

  ghost predicate UniqueIds(nodes: seq<Node>) {
    forall i, j :: 0 <= i < j < |nodes| ==> nodes[i].id != nodes[j].id
  }

  // ----- paths and cycles -----

  ghost predicate HasEdge(edges: seq<Edge>, a: string, b: string) {
    exists k :: 0 <= k < |edges| && edges[k].from == a && edges[k].to == b
  }

  ghost predicate IsPath(edges: seq<Edge>, p: seq<string>) {
    && |p| >= 1
    && forall i :: 0 <= i < |p| - 1 ==> HasEdge(edges, p[i], p[i + 1])
  }

  /** No non-empty walk along the edges returns to where it started. */
  ghost predicate Acyclic(edges: seq<Edge>) {
    forall p :: IsPath(edges, p) && |p| >= 2 ==> p[0] != p[|p| - 1]
  }

  /** `order` lists vertices so that the source of every edge into a listed vertex is listed earlier. */
  ghost predicate Topological(edges: seq<Edge>, order: seq<string>) {
    forall j, k :: 0 <= j < |order| && 0 <= k < |edges| && edges[k].to == order[j] ==>
      edges[k].from in order[..j]
  }

  function IndexOf(s: seq<string>, x: string): (i: nat)
    requires x in s
    ensures i < |s| && s[i] == x && x !in s[..i]
  {
    if s[0] == x then 0 else
    assert x in s[1..];
    var r := IndexOf(s[1..], x);
    assert s[..r + 1] == [s[0]] + s[1..][..r];
    r + 1
  }

  lemma {:induction false} PathDescends(edges: seq<Edge>, order: seq<string>, p: seq<string>)
    requires Topological(edges, order) && IsPath(edges, p) && p[|p| - 1] in order
    ensures p[0] in order
    ensures |p| >= 2 ==> IndexOf(order, p[0]) < IndexOf(order, p[|p| - 1])
  {
    if |p| >= 2 {
      assert IsPath(edges, p[1..]) by {
        forall i | 0 <= i < |p[1..]| - 1 ensures HasEdge(edges, p[1..][i], p[1..][i + 1]) {
          assert HasEdge(edges, p[i + 1], p[i + 2]);
        }
      }
      PathDescends(edges, order, p[1..]);
      assert HasEdge(edges, p[0], p[1]);
    }
  }

  /** A listing of every edge target in dependency order rules out cycles. */
  lemma {:induction false} TopologicalIsAcyclic(edges: seq<Edge>, order: seq<string>)
    requires Topological(edges, order)
    requires forall k :: 0 <= k < |edges| ==> edges[k].to in order
    ensures Acyclic(edges)
  {
    forall p | IsPath(edges, p) && |p| >= 2 ensures p[0] != p[|p| - 1] {
      assert HasEdge(edges, p[|p| - 2], p[|p| - 1]);
      PathDescends(edges, order, p);
    }
  }

  ghost predicate HasPredecessorIn(edges: seq<Edge>, s: set<string>, x: string) {
    exists y :: y in s && HasEdge(edges, y, x)
  }

  /** Walking backwards inside a set in which every vertex has a predecessor. */
  lemma {:induction false} BackwardWalk(edges: seq<Edge>, s: set<string>, v: string, n: nat) returns (p: seq<string>)
    requires v in s
    requires forall x {:trigger HasPredecessorIn(edges, s, x)} :: x in s ==> HasPredecessorIn(edges, s, x)
    ensures |p| == n + 1 && IsPath(edges, p) && p[n] == v
    ensures forall i :: 0 <= i < |p| ==> p[i] in s
    decreases n
  {
    if n == 0 {
      p := [v];
    } else {
      assert HasPredecessorIn(edges, s, v);
      var y :| y in s && HasEdge(edges, y, v);
      var q := BackwardWalk(edges, s, y, n - 1);
      p := q + [v];
      forall i | 0 <= i < |p| - 1 ensures HasEdge(edges, p[i], p[i + 1]) {
        if i < n - 1 { assert HasEdge(edges, q[i], q[i + 1]); }
      }
    }
  }

  lemma {:induction false} Pigeonhole(p: seq<string>, s: set<string>)
    requires forall i :: 0 <= i < |p| ==> p[i] in s
    requires |p| > |s|
    ensures exists i, j :: 0 <= i < j < |p| && p[i] == p[j]
  {
    var last := p[|p| - 1];
    var front := p[..|p| - 1];
    if i :| 0 <= i < |front| && front[i] == last {
      assert p[i] == p[|p| - 1];
    } else {
      Pigeonhole(front, s - {last});
      var i, j :| 0 <= i < j < |front| && front[i] == front[j];
      assert p[i] == p[j];
    }
  }

  lemma {:induction false} RepeatMakesCycle(edges: seq<Edge>, p: seq<string>, i: nat, j: nat)
    requires IsPath(edges, p) && i < j < |p| && p[i] == p[j]
    ensures !Acyclic(edges)
  {
    var cycle := p[i..j + 1];
    forall t | 0 <= t < |cycle| - 1 ensures HasEdge(edges, cycle[t], cycle[t + 1]) {
      assert HasEdge(edges, p[i + t], p[i + t + 1]);
    }
    assert IsPath(edges, cycle);
  }

  lemma {:induction false} PredecessorsEverywhereMakeCycle(edges: seq<Edge>, s: set<string>)
    requires s != {}
    requires forall x {:trigger HasPredecessorIn(edges, s, x)} :: x in s ==> HasPredecessorIn(edges, s, x)
    ensures !Acyclic(edges)
  {
    var v :| v in s;
    var p := BackwardWalk(edges, s, v, |s|);
    Pigeonhole(p, s);
    var i, j :| 0 <= i < j < |p| && p[i] == p[j];
    RepeatMakesCycle(edges, p, i, j);
  }

  /** The heart of deadlock freedom: in an acyclic graph every non-empty set of vertices
      has a member with no predecessor inside the set. */
  lemma {:induction false} AcyclicHasMinimal(edges: seq<Edge>, s: set<string>) returns (m: string)
    requires Acyclic(edges) && s != {}
    ensures m in s
    ensures forall y :: HasEdge(edges, y, m) ==> y !in s
  {
    if forall x {:trigger HasPredecessorIn(edges, s, x)} :: x in s ==> HasPredecessorIn(edges, s, x) {
      PredecessorsEverywhereMakeCycle(edges, s);
      assert false;
    }
    m :| m in s && !HasPredecessorIn(edges, s, m);
  }

  // ----- admission -----

  ghost predicate CompleteRoute(route: Route) {
    route.schemaVersion != 0 && !Blank(route.reference)
  }

  ghost predicate GoodNodes(route: Route) {
    && UniqueIds(route.nodes)
    && forall i :: 0 <= i < |route.nodes| ==> !Blank(route.nodes[i].id) && route.nodes[i].verifiable
  }

  ghost predicate GoodEdges(route: Route) {
    forall k :: 0 <= k < |route.edges| ==>
      && route.edges[k].from in Ids(route.nodes)
      && route.edges[k].to in Ids(route.nodes)
      && route.edges[k].from != route.edges[k].to
  }

  ghost predicate ValidRoute(route: Route) {
    CompleteRoute(route) && GoodNodes(route) && GoodEdges(route) && Acyclic(route.edges)
  }

  /** In-edges of `v` whose source is still waiting (not in `done`). */
  ghost function Waiting(edges: seq<Edge>, v: string, done: set<string>): nat {
    if |edges| == 0 then 0
    else Waiting(edges[..|edges| - 1], v, done)
         + if edges[|edges| - 1].to == v && edges[|edges| - 1].from !in done then 1 else 0
  }

  lemma {:induction false} WaitingZero(edges: seq<Edge>, v: string, done: set<string>)
    ensures Waiting(edges, v, done) == 0 <==>
            forall k :: 0 <= k < |edges| && edges[k].to == v ==> edges[k].from in done
  {
    if |edges| > 0 {
      var front := edges[..|edges| - 1];
      WaitingZero(front, v, done);
      assert forall k :: 0 <= k < |front| ==> edges[k] == front[k];
      if Waiting(edges, v, done) == 0 {
        forall k | 0 <= k < |edges| && edges[k].to == v ensures edges[k].from in done {
          if k < |front| { assert edges[k] == front[k]; }
        }
      }
    }
  }

  /** Finishing `id` lowers the waiting count of `v` by exactly its edges into `v`. */
  lemma {:induction false} WaitingDrops(edges: seq<Edge>, v: string, done: set<string>, id: string)
    requires id !in done
    ensures Waiting(edges, v, done) == Waiting(edges, v, done + {id}) + Between(edges, id, v)
  {
    if |edges| > 0 {
      WaitingDrops(edges[..|edges| - 1], v, done, id);
    }
  }

  ghost function Between(edges: seq<Edge>, a: string, b: string): nat {
    if |edges| == 0 then 0
    else Between(edges[..|edges| - 1], a, b)
         + if edges[|edges| - 1].from == a && edges[|edges| - 1].to == b then 1 else 0
  }

  lemma {:induction false} BetweenNext(edges: seq<Edge>, k: nat, a: string)
    requires k < |edges|
    ensures forall b :: Between(edges[..k + 1], a, b) ==
                        Between(edges[..k], a, b) + if edges[k].from == a && edges[k].to == b then 1 else 0
  {
    assert edges[..k + 1][..k] == edges[..k];
  }

  lemma {:induction false} BetweenGrows(edges: seq<Edge>, k: nat, a: string, b: string)
    requires k <= |edges|
    ensures Between(edges[..k], a, b) <= Between(edges, a, b)
  {
    if k < |edges| {
      BetweenGrows(edges[..|edges| - 1], k, a, b);
      assert edges[..|edges| - 1][..k] == edges[..k];
    } else {
      assert edges[..k] == edges;
    }
  }

  lemma {:induction false} UniqueIdsCount(nodes: seq<Node>)
    ensures |Ids(nodes)| <= |nodes|
    ensures |Ids(nodes)| == |nodes| <==> UniqueIds(nodes)
  {
    var ids := seq(|nodes|, i requires 0 <= i < |nodes| => nodes[i].id);
    MembersCount(ids);
    assert Members(ids) == Ids(nodes) by {
      forall x | x in Ids(nodes) ensures x in ids {
        var i :| 0 <= i < |nodes| && nodes[i].id == x;
        assert ids[i] == x;
      }
    }
    if Distinct(ids) {
      forall i, j | 0 <= i < j < |nodes| ensures nodes[i].id != nodes[j].id { assert ids[i] != ids[j]; }
    }
  }

  /** An accepted queue order that leaves some vertex out exposes a cycle among the vertices left out. */
  lemma {:induction false} LeftoversAreCyclic(edges: seq<Edge>, ids: set<string>, done: set<string>)
    requires done < ids
    requires forall k :: 0 <= k < |edges| ==> edges[k].from in ids && edges[k].to in ids
    requires forall v :: v in ids && v !in done ==> Waiting(edges, v, done) > 0
    ensures !Acyclic(edges)
  {
    var rest := ids - done;
    var x :| x in ids && x !in done;
    assert x in rest;
    forall v | v in rest ensures HasPredecessorIn(edges, rest, v) {
      WaitingZero(edges, v, done);
      var k :| 0 <= k < |edges| && edges[k].to == v && edges[k].from !in done;
      assert HasEdge(edges, edges[k].from, v);
    }
    PredecessorsEverywhereMakeCycle(edges, rest);
  }

  /** Counts the in-edges of every node. */
  method CountInEdges(ids: set<string>, edges: seq<Edge>) returns (indegree: map<string, nat>)
    requires forall k :: 0 <= k < |edges| ==> edges[k].to in ids
    ensures indegree.Keys == ids
    ensures forall v :: v in ids ==> indegree[v] == Waiting(edges, v, {})
  {
    indegree := map v | v in ids :: 0;
    for k := 0 to |edges|
      invariant indegree.Keys == ids
      invariant forall v :: v in ids ==> indegree[v] == Waiting(edges[..k], v, {})
    {
      assert edges[..k + 1][..k] == edges[..k];
      indegree := indegree[edges[k].to := indegree[edges[k].to] + 1];
    }
    assert edges[..|edges|] == edges;
  }

  /** The nodes that wait for nothing, in some order. */
  method InitialQueue(indegree: map<string, nat>) returns (queue: seq<string>)
    ensures Distinct(queue)
    ensures forall v :: v in queue <==> v in indegree && indegree[v] == 0
  {
    var pending := indegree.Keys;
    queue := [];
    while pending != {}
      invariant pending <= indegree.Keys
      invariant Distinct(queue)
      invariant forall v :: v in queue <==> v in indegree && v !in pending && indegree[v] == 0
    {
      var id :| id in pending;
      pending := pending - {id};
      if indegree[id] == 0 { queue := queue + [id]; }
    }
  }

  /** What the outer loop of the admission check knows between two iterations: `order` is every
      vertex queued so far, the first `visited` of them are finished, and `indegree` counts the
      in-edges that are still waiting. */
  ghost predicate KahnInvariant(
      route: Route, ids: set<string>, order: seq<string>, visited: nat, indegree: map<string, nat>)
  {
    && visited <= |order|
    && Distinct(order)
    && indegree.Keys == ids
    && (forall v :: v in ids ==> indegree[v] == Waiting(route.edges, v, Members(order[..visited])))
    && (forall v :: v in order <==> v in ids && indegree[v] == 0)
    && Topological(route.edges, order)
  }

  lemma {:induction false} InitialQueueIsTopological(route: Route, queue: seq<string>, indegree: map<string, nat>)
    requires indegree.Keys == Ids(route.nodes)
    requires forall v :: v in indegree ==> indegree[v] == Waiting(route.edges, v, {})
    requires Distinct(queue)
    requires forall v :: v in queue <==> v in indegree && indegree[v] == 0
    ensures KahnInvariant(route, Ids(route.nodes), queue, 0, indegree)
    ensures |queue| <= |Ids(route.nodes)|
  {
    DistinctFits(queue, Ids(route.nodes));
    assert Members(queue[..0]) == {};
    forall j | 0 <= j < |queue|
      ensures forall k :: 0 <= k < |route.edges| ==> route.edges[k].to != queue[j]
    {
      assert queue[j] in queue;
      WaitingZero(route.edges, queue[j], {});
    }
  }

  /** Each id is queued at most once, so no more than all of them are ever queued. */
  lemma {:induction false} QueuedAreIds(
      route: Route, ids: set<string>, order: seq<string>, visited: nat, indegree: map<string, nat>)
    requires KahnInvariant(route, ids, order, visited, indegree)
    ensures Members(order) <= ids
    ensures |order| <= |ids|
    ensures |order| == |ids| <==> Members(order) == ids
  {
    MembersCount(order);
    SubsetCount(Members(order), ids);
  }

  /** The inner loop: every out-edge of `id` lowers its target's count, and a target that reaches
      zero is queued. The assertion on the count is the absence of underflow. */
  method LowerTargets(
      edges: seq<Edge>, ids: set<string>, id: string, order: seq<string>, indegree: map<string, nat>,
      ghost done: set<string>)
    returns (order': seq<string>, indegree': map<string, nat>)
    requires forall k :: 0 <= k < |edges| ==> edges[k].to in ids
    requires indegree.Keys == ids && id !in done && Distinct(order)
    requires forall v :: v in ids ==> indegree[v] == Waiting(edges, v, done)
    requires forall v :: v in order <==> v in ids && indegree[v] == 0
    ensures order <= order' && Distinct(order')
    ensures indegree'.Keys == ids
    ensures forall v :: v in ids ==> indegree'[v] == Waiting(edges, v, done + {id})
    ensures forall v :: v in order' <==> v in ids && indegree'[v] == 0
  {
    order', indegree' := order, indegree;
    for k := 0 to |edges|
      invariant order <= order' && Distinct(order')
      invariant indegree'.Keys == ids
      invariant forall v :: v in ids ==> indegree'[v] == Waiting(edges, v, done) - Between(edges[..k], id, v)
      invariant forall v :: v in order' <==> v in ids && indegree'[v] == 0
    {
      BetweenNext(edges, k, id);
      if edges[k].from == id {
        var to := edges[k].to;
        BetweenGrows(edges, k + 1, id, to);
        WaitingDrops(edges, to, done, id);
        assert indegree'[to] >= 1;
        indegree' := indegree'[to := indegree'[to] - 1];
        if indegree'[to] == 0 { order' := order' + [to]; }
      }
    }
    assert edges[..|edges|] == edges;
    forall v | v in ids ensures indegree'[v] == Waiting(edges, v, done + {id}) {
      WaitingDrops(edges, v, done, id);
    }
  }

  lemma {:induction false} RelaxedOrderIsTopological(
      edges: seq<Edge>, order: seq<string>, order': seq<string>, visited: nat, ids: set<string>)
    requires Topological(edges, order) && order <= order' && visited < |order|
    requires forall v :: v in order' ==> Waiting(edges, v, Members(order'[..visited + 1])) == 0
    ensures Topological(edges, order')
  {
    forall j, k | 0 <= j < |order'| && 0 <= k < |edges| && edges[k].to == order'[j]
      ensures edges[k].from in order'[..j]
    {
      if j < |order| {
        assert order'[..j] == order[..j];
      } else {
        assert order'[j] in order';
        WaitingZero(edges, order'[j], Members(order'[..visited + 1]));
        assert order'[..visited + 1] == order'[..j][..visited + 1];
      }
    }
  }

  /** One iteration of the outer loop. */
  method FinishOne(route: Route, ids: set<string>, order: seq<string>, visited: nat, indegree: map<string, nat>)
    returns (order': seq<string>, indegree': map<string, nat>)
    requires GoodEdges(route) && ids == Ids(route.nodes)
    requires KahnInvariant(route, ids, order, visited, indegree) && visited < |order|
    ensures KahnInvariant(route, ids, order', visited + 1, indegree')
    ensures |order'| <= |ids|
  {
    ghost var done := Members(order[..visited]);
    order', indegree' := LowerTargets(route.edges, ids, order[visited], order, indegree, done);
    assert order'[..visited + 1] == order[..visited] + [order[visited]];
    MembersSnoc(order[..visited], order[visited]);
    RelaxedOrderIsTopological(route.edges, order, order', visited, ids);
    QueuedAreIds(route, ids, order', visited + 1, indegree');
  }

  /** Kahn's algorithm: the queue drains having listed every id exactly when there is no cycle. */
  method DrainQueue(route: Route, ids: set<string>) returns (acyclic: bool)
    requires GoodEdges(route) && ids == Ids(route.nodes)
    ensures acyclic <==> Acyclic(route.edges)
  {
    var indegree := CountInEdges(ids, route.edges);
    var queued := InitialQueue(indegree);
    var visited := 0;
    InitialQueueIsTopological(route, queued, indegree);
    while visited < |queued|
      invariant KahnInvariant(route, ids, queued, visited, indegree)
      invariant |queued| <= |ids|
      decreases |ids| - visited
    {
      queued, indegree := FinishOne(route, ids, queued, visited, indegree);
      visited := visited + 1;
    }
    acyclic := visited == |ids|;
    DrainedQueueDecides(route, ids, queued, indegree);
  }

  lemma {:induction false} DrainedQueueDecides(
      route: Route, ids: set<string>, queued: seq<string>, indegree: map<string, nat>)
    requires GoodEdges(route) && ids == Ids(route.nodes)
    requires KahnInvariant(route, ids, queued, |queued|, indegree)
    ensures |queued| == |ids| <==> Acyclic(route.edges)
  {
    QueuedAreIds(route, ids, queued, |queued|, indegree);
    assert queued[..|queued|] == queued;
    if |queued| == |ids| {
      forall k | 0 <= k < |route.edges| ensures route.edges[k].to in queued {
      }
      TopologicalIsAcyclic(route.edges, queued);
    } else {
      forall v | v in ids && v !in Members(queued) ensures Waiting(route.edges, v, Members(queued)) > 0 {
      }
      LeftoversAreCyclic(route.edges, ids, Members(queued));
    }
  }

  /** The admission check accepts exactly the well-formed acyclic routes, and names the first rule broken. */
  method ValidateRoute(route: Route) returns (r: Outcome<RouteError>)
    ensures r.Pass? <==> ValidRoute(route)
    ensures r == Fail(IncompleteRoute) <==> !CompleteRoute(route)
    ensures r == Fail(BadNodes) <==> CompleteRoute(route) && !GoodNodes(route)
    ensures r == Fail(BadEdge) <==> CompleteRoute(route) && GoodNodes(route) && !GoodEdges(route)
    ensures r == Fail(CyclicRoute) <==>
            CompleteRoute(route) && GoodNodes(route) && GoodEdges(route) && !Acyclic(route.edges)
  {
    if route.schemaVersion == 0 || Blank(route.reference) { return Fail(IncompleteRoute); }
    var ids := Ids(route.nodes);
    UniqueIdsCount(route.nodes);
    if |ids| != |route.nodes|
       || exists i :: 0 <= i < |route.nodes| && (Blank(route.nodes[i].id) || !route.nodes[i].verifiable) {
      return Fail(BadNodes);
    }
    if exists k :: 0 <= k < |route.edges| &&
                   (route.edges[k].from !in ids || route.edges[k].to !in ids
                    || route.edges[k].from == route.edges[k].to) {
      return Fail(BadEdge);
    }
    var acyclic := DrainQueue(route, ids);
    r := if acyclic then Pass else Fail(CyclicRoute);
  }
}
