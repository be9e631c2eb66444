/** Applying a coordination strategy to an execution route: the heaviest roles are kept, everything
    else is pruned, and the pruned route is still one the admission check accepts. */
module CoordinationStrategy {
  import opened Common
  import opened Orders
  import opened RouteGraph

  datatype Mode = Single | Multi

  datatype RoleWeight = RoleWeight(role: string, weight: nat)

  /** `wellFormed` is the verdict of the strategy's own validation. */
  datatype Strategy = Strategy(
    wellFormed: bool,
    version: string,
    patterns: seq<string>,
    mode: Mode,
    roleWeights: seq<RoleWeight>,
    maxSubagents: nat,
    checkpoints: string)

  datatype Applied = Applied(strategy: string, checkpoints: string, route: Route)

  datatype StrategyError = InvalidStrategy | NoPattern | ForeignPattern | ForeignRole

  /** The weight of each role; a role listed twice keeps its last weight. */
  function WeightMap(weights: seq<RoleWeight>): map<string, nat> {
    if |weights| == 0 then map[]
    else WeightMap(weights[..|weights| - 1])[weights[|weights| - 1].role := weights[|weights| - 1].weight]
  }

  function WeightOf(weights: map<string, nat>, node: Node): nat {
    if node.role in weights then weights[node.role] else 0
  }

  /** Heavier roles first, and the lesser id first among equals. */
  function Heavier(weights: map<string, nat>): (Node, Node) -> bool {
    (a: Node, b: Node) =>
      WeightOf(weights, a) > WeightOf(weights, b)
        || (WeightOf(weights, a) == WeightOf(weights, b) && TextLess(a.id, b.id))
  }

  function Take(spec: Strategy, count: nat): nat {
    var limit := if spec.mode == Single then 1 else spec.maxSubagents;
    if limit <= count then limit else count
  }

  function Selected(spec: Strategy, route: Route): seq<Node> {
    var ranked := Sort(route.nodes, Heavier(WeightMap(spec.roleWeights)));
    if Take(spec, |route.nodes|) <= |ranked| then ranked[..Take(spec, |route.nodes|)] else ranked
  }

  function Prune(route: Route, kept: set<string>): Route {
    route.(nodes := Filter(route.nodes, (n: Node) => n.id in kept),
           edges := Filter(route.edges, (e: Edge) => e.from in kept && e.to in kept))
  }

  function ApplyStrategy(spec: Strategy, route: Route): Result<Applied, StrategyError> {
    if !spec.wellFormed then Err(InvalidStrategy)
    else if route.patternRef.None? then Err(NoPattern)
    else if route.patternRef.value !in spec.patterns then Err(ForeignPattern)
    else if exists i :: 0 <= i < |route.nodes| && route.nodes[i].role !in WeightMap(spec.roleWeights) then
      Err(ForeignRole)
    else Ok(Applied(spec.version, spec.checkpoints, Prune(route, Ids(Selected(spec, route)))))
  }

  // ----- the order on nodes -----

  lemma {:induction false} HeavierIsWeakOrder(weights: map<string, nat>)
    ensures WeakOrder(Heavier(weights))
  {
    var less := Heavier(weights);
    forall x ensures !less(x, x) { TextLessIrreflexive(x.id); }
    forall x, y | less(x, y) ensures !less(y, x) { TextLessTotal(x.id, y.id); }
    forall x, y, z | less(x, z) ensures less(x, y) || less(y, z) {
      TextLessTotal(x.id, y.id);
      TextLessTotal(y.id, z.id);
      if x.id != y.id && y.id != z.id && TextLess(y.id, x.id) && TextLess(x.id, z.id) {
        TextLessTransitive(y.id, x.id, z.id);
      }
    }
  }

  lemma {:induction false} DistinctIdsDoNotTie(weights: map<string, nat>, nodes: seq<Node>)
    requires UniqueIds(nodes)
    ensures NoTies(nodes, Heavier(weights))
  {
    forall i, j | 0 <= i < |nodes| && 0 <= j < |nodes| && nodes[i] != nodes[j]
      ensures Heavier(weights)(nodes[i], nodes[j]) || Heavier(weights)(nodes[j], nodes[i])
    {
      TextLessTotal(nodes[i].id, nodes[j].id);
    }
  }

  // ----- pruning any set of ids keeps a route admissible -----

  lemma {:induction false} FewerEdgesStayAcyclic(edges: seq<Edge>, fewer: seq<Edge>)
    requires Acyclic(edges)
    requires forall e :: e in fewer ==> e in edges
    ensures Acyclic(fewer)
  {
    forall p | IsPath(fewer, p) && |p| >= 2 ensures p[0] != p[|p| - 1] {
      forall i | 0 <= i < |p| - 1 ensures HasEdge(edges, p[i], p[i + 1]) {
        assert HasEdge(fewer, p[i], p[i + 1]);
        var k :| 0 <= k < |fewer| && fewer[k].from == p[i] && fewer[k].to == p[i + 1];
        assert fewer[k] in edges;
      }
      assert IsPath(edges, p);
    }
  }

  lemma {:induction false} SubsequenceKeepsNodesGood(nodes: seq<Node>, sub: seq<Node>, places: seq<nat>)
    requires Places(sub, nodes, places) && UniqueIds(nodes)
    ensures UniqueIds(sub)
  {
    forall i, j | 0 <= i < j < |sub| ensures sub[i].id != sub[j].id {
      assert nodes[places[i]].id != nodes[places[j]].id;
    }
  }

  lemma {:induction false} PruneKeepsValid(route: Route, kept: set<string>)
    requires ValidRoute(route)
    ensures ValidRoute(Prune(route, kept))
  {
    var pruned := Prune(route, kept);
    var keepNode := (n: Node) => n.id in kept;
    var keepEdge := (e: Edge) => e.from in kept && e.to in kept;
    FilterMembers(route.nodes, keepNode);
    FilterMembers(route.edges, keepEdge);
    var places := FilterPlaces(route.nodes, keepNode);
    SubsequenceKeepsNodesGood(route.nodes, pruned.nodes, places);
    FewerEdgesStayAcyclic(route.edges, pruned.edges);
    forall k | 0 <= k < |pruned.edges|
      ensures pruned.edges[k].from in Ids(pruned.nodes) && pruned.edges[k].to in Ids(pruned.nodes)
              && pruned.edges[k].from != pruned.edges[k].to
    {
      var e := pruned.edges[k];
      assert e in route.edges && keepEdge(e);
      KeptIdSurvives(route, kept, e.from);
      KeptIdSurvives(route, kept, e.to);
    }
    forall i | 0 <= i < |pruned.nodes| ensures !Blank(pruned.nodes[i].id) && pruned.nodes[i].verifiable {
      assert pruned.nodes[i] in route.nodes;
    }
  }

  lemma {:induction false} KeptIdSurvives(route: Route, kept: set<string>, id: string)
    ensures id in Ids(Prune(route, kept).nodes) <==> id in kept && id in Ids(route.nodes)
  {
    var pruned := Prune(route, kept);
    FilterMembers(route.nodes, (n: Node) => n.id in kept);
    if id in Ids(route.nodes) && id in kept {
      var i :| 0 <= i < |route.nodes| && route.nodes[i].id == id;
      assert route.nodes[i] in pruned.nodes;
    }
    if id in Ids(pruned.nodes) {
      var i :| 0 <= i < |pruned.nodes| && pruned.nodes[i].id == id;
      assert pruned.nodes[i] in route.nodes;
    }
  }

  // ----- the main results -----

  /** Any route the admission check accepts is turned into one it also accepts. */
  lemma {:induction false} AppliedRouteIsValid(spec: Strategy, route: Route)
    requires ValidRoute(route) && ApplyStrategy(spec, route).Ok?
    ensures ValidRoute(ApplyStrategy(spec, route).value.route)
  {
    PruneKeepsValid(route, Ids(Selected(spec, route)));
  }

  lemma {:induction false} SortedPrefixOutranks(
      ranked: seq<Node>, less: (Node, Node) -> bool, n: nat, keep: Node, drop: Node)
    requires Sorted(ranked, less) && NoTies(ranked, less) && n <= |ranked|
    requires keep in ranked[..n] && drop in ranked && drop !in ranked[..n]
    ensures less(keep, drop)
  {
    var i :| 0 <= i < n && ranked[..n][i] == keep;
    var j :| 0 <= j < |ranked| && ranked[j] == drop;
    assert forall t :: 0 <= t < n ==> ranked[t] in ranked[..n];
    assert !less(ranked[j], ranked[i]);
  }

  lemma {:induction false} SameIdSameNode(nodes: seq<Node>, a: Node, b: Node)
    requires UniqueIds(nodes) && a in nodes && b in nodes && a.id == b.id
    ensures a == b
  {
  }

  /** The selection is a prefix of the nodes in rank order, which rearranges the route's nodes. */
  lemma {:induction false} SelectedIsPrefix(spec: Strategy, route: Route) returns (ranked: seq<Node>)
    requires UniqueIds(route.nodes)
    ensures |Selected(spec, route)| <= |ranked| && Selected(spec, route) == ranked[..|Selected(spec, route)|]
    ensures Sorted(ranked, Heavier(WeightMap(spec.roleWeights))) && NoTies(ranked, Heavier(WeightMap(spec.roleWeights)))
    ensures UniqueIds(ranked) && forall n :: n in ranked <==> n in route.nodes
  {
    var weights := WeightMap(spec.roleWeights);
    ranked := Sort(route.nodes, Heavier(weights));
    HeavierIsWeakOrder(weights);
    SortSorts(route.nodes, Heavier(weights));
    SameMembers(route.nodes, ranked);
    UniqueIdsOfPermutation(route.nodes, ranked);
    DistinctIdsDoNotTie(weights, ranked);
  }

  lemma {:induction false} SelectedAreHeaviest(spec: Strategy, route: Route, keep: Node, drop: Node)
    requires UniqueIds(route.nodes) && keep in route.nodes && drop in route.nodes
    requires keep.id in Ids(Selected(spec, route)) && drop.id !in Ids(Selected(spec, route))
    ensures Heavier(WeightMap(spec.roleWeights))(keep, drop)
  {
    var chosen := Selected(spec, route);
    var ranked := SelectedIsPrefix(spec, route);
    var i :| 0 <= i < |chosen| && chosen[i].id == keep.id;
    SameIdSameNode(ranked, ranked[i], keep);
    assert keep in chosen && drop !in chosen;
    SortedPrefixOutranks(ranked, Heavier(WeightMap(spec.roleWeights)), |chosen|, keep, drop);
  }

  lemma {:induction false} SelectedCount(spec: Strategy, route: Route)
    requires UniqueIds(route.nodes)
    ensures |Selected(spec, route)| == Take(spec, |route.nodes|)
    ensures UniqueIds(Selected(spec, route))
    ensures forall n :: n in Selected(spec, route) ==> n in route.nodes
  {
    var less := Heavier(WeightMap(spec.roleWeights));
    var ranked := Sort(route.nodes, less);
    HeavierIsWeakOrder(WeightMap(spec.roleWeights));
    SortSorts(route.nodes, less);
    SameMembers(route.nodes, ranked);
    UniqueIdsOfPermutation(route.nodes, ranked);
  }

  lemma {:induction false} UniqueIdsOfPermutation(a: seq<Node>, b: seq<Node>)
    requires UniqueIds(a) && multiset(a) == multiset(b)
    ensures UniqueIds(b)
  {
    SameMembers(a, b);
    assert Ids(a) == Ids(b) by {
      forall id ensures id in Ids(a) <==> id in Ids(b) {
        if id in Ids(a) { var i :| 0 <= i < |a| && a[i].id == id; assert a[i] in b; }
        if id in Ids(b) { var i :| 0 <= i < |b| && b[i].id == id; assert b[i] in a; }
      }
    }
    UniqueIdsCount(a);
    UniqueIdsCount(b);
  }

  lemma {:induction false} SurvivingIds(spec: Strategy, route: Route)
    requires UniqueIds(route.nodes)
    ensures Ids(Prune(route, Ids(Selected(spec, route))).nodes) == Ids(Selected(spec, route))
  {
    var kept := Ids(Selected(spec, route));
    SelectedCount(spec, route);
    forall id ensures id in Ids(Prune(route, kept).nodes) <==> id in kept {
      KeptIdSurvives(route, kept, id);
      if id in kept {
        var i :| 0 <= i < |Selected(spec, route)| && Selected(spec, route)[i].id == id;
        assert Selected(spec, route)[i] in route.nodes;
      }
    }
  }

  lemma {:induction false} SurvivorCount(spec: Strategy, route: Route)
    requires UniqueIds(route.nodes)
    ensures |Prune(route, Ids(Selected(spec, route))).nodes| == Take(spec, |route.nodes|)
  {
    var out := Prune(route, Ids(Selected(spec, route)));
    SelectedCount(spec, route);
    SurvivingIds(spec, route);
    var places := FilterPlaces(route.nodes, (n: Node) => n.id in Ids(Selected(spec, route)));
    SubsequenceKeepsNodesGood(route.nodes, out.nodes, places);
    UniqueIdsCount(out.nodes);
    UniqueIdsCount(Selected(spec, route));
  }

  /** Exactly the allowed number of nodes survive, in their original order, and each survivor outranks
      every node that was dropped. */
  lemma {:induction false} HeaviestNodesSurvive(spec: Strategy, route: Route, out: Route)
    requires UniqueIds(route.nodes) && ApplyStrategy(spec, route).Ok? && out == ApplyStrategy(spec, route).value.route
    ensures |out.nodes| == Take(spec, |route.nodes|)
    ensures exists places :: Places(out.nodes, route.nodes, places)
    ensures forall keep, drop :: keep in out.nodes && drop in route.nodes && drop !in out.nodes ==>
              Heavier(WeightMap(spec.roleWeights))(keep, drop)
  {
    var keepNode := (n: Node) => n.id in Ids(Selected(spec, route));
    SurvivorCount(spec, route);
    FilterMembers(route.nodes, keepNode);
    var places := FilterPlaces(route.nodes, keepNode);
    assert Places(out.nodes, route.nodes, places);
    forall keep, drop | keep in out.nodes && drop in route.nodes && drop !in out.nodes
      ensures Heavier(WeightMap(spec.roleWeights))(keep, drop)
    {
      SelectedAreHeaviest(spec, route, keep, drop);
    }
  }

  /** An edge survives, as often as it was there and in its old order, exactly when both its ends do. */
  lemma {:induction false} EdgesBetweenSurvivorsSurvive(spec: Strategy, route: Route, out: Route)
    requires UniqueIds(route.nodes) && ApplyStrategy(spec, route).Ok? && out == ApplyStrategy(spec, route).value.route
    ensures forall e :: multiset(out.edges)[e] ==
              if e.from in Ids(out.nodes) && e.to in Ids(out.nodes) then multiset(route.edges)[e] else 0
    ensures exists places :: Places(out.edges, route.edges, places)
  {
    var kept := Ids(Selected(spec, route));
    var keepEdge := (e: Edge) => e.from in kept && e.to in kept;
    SurvivingIds(spec, route);
    FilterCounts(route.edges, keepEdge);
    assert out.edges == Filter(route.edges, keepEdge) && Ids(out.nodes) == kept;
    forall e ensures multiset(out.edges)[e] ==
              if e.from in Ids(out.nodes) && e.to in Ids(out.nodes) then multiset(route.edges)[e] else 0
    {
      assert keepEdge(e) <==> e.from in kept && e.to in kept;
    }
    var places := FilterPlaces(route.edges, keepEdge);
    assert Places(out.edges, route.edges, places);
  }

  /** Which nodes survive does not depend on the order in which the route lists them. */
  lemma {:induction false} SelectionForgetsOrder(spec: Strategy, route: Route, shuffled: Route)
    requires UniqueIds(route.nodes) && multiset(route.nodes) == multiset(shuffled.nodes)
    ensures Selected(spec, route) == Selected(spec, shuffled)
  {
    HeavierIsWeakOrder(WeightMap(spec.roleWeights));
    DistinctIdsDoNotTie(WeightMap(spec.roleWeights), route.nodes);
    SortForgetsOrder(route.nodes, shuffled.nodes, Heavier(WeightMap(spec.roleWeights)));
    SameMembers(route.nodes, shuffled.nodes);
  }

  // ----- which nodes survive, told from the strategy's own lists -----

  /** The last entry of the role gives it the weight. */
  ghost predicate Weighs(weights: seq<RoleWeight>, role: string, weight: nat) {
    exists i :: 0 <= i < |weights| && weights[i] == RoleWeight(role, weight)
                && forall j :: i < j < |weights| ==> weights[j].role != role
  }

  lemma {:induction false} WeighsExactly(weights: seq<RoleWeight>, role: string, weight: nat)
    ensures Weighs(weights, role, weight) <==> role in WeightMap(weights) && WeightMap(weights)[role] == weight
  {
    if |weights| > 0 {
      var front, last := weights[..|weights| - 1], |weights| - 1;
      WeighsExactly(front, role, weight);
      if weights[last].role == role {
        if weights[last].weight == weight { assert weights[last] == RoleWeight(role, weight); }
      } else {
        if i :| 0 <= i < |front| && front[i] == RoleWeight(role, weight)
                && forall j :: i < j < |front| ==> front[j].role != role {
          assert weights[i] == RoleWeight(role, weight);
        }
        if i :| 0 <= i < |weights| && weights[i] == RoleWeight(role, weight)
                && forall j :: i < j < |weights| ==> weights[j].role != role {
          assert front[i] == RoleWeight(role, weight);
        }
      }
    }
  }

  ghost predicate Listed(weights: seq<RoleWeight>, role: string) {
    exists i :: 0 <= i < |weights| && weights[i].role == role
  }

  lemma {:induction false} ListedExactly(weights: seq<RoleWeight>, role: string)
    ensures role in WeightMap(weights) <==> Listed(weights, role)
  {
    if |weights| > 0 {
      var front, last := weights[..|weights| - 1], |weights| - 1;
      ListedExactly(front, role);
      if i :| 0 <= i < |front| && front[i].role == role { assert weights[i].role == role; }
      if i :| 0 <= i < |weights| && weights[i].role == role { assert i < last ==> front[i].role == role; }
    }
  }

  /** A strategy applies exactly when it is valid, names the route's pattern and weighs the role of every node. It
      changes the nodes and edges of the route only, and passes its own version and checkpoints on. */
  lemma {:induction false} AppliesExactly(spec: Strategy, route: Route)
    ensures ApplyStrategy(spec, route).Ok? <==>
            && spec.wellFormed && route.patternRef.Some? && route.patternRef.value in spec.patterns
            && forall i :: 0 <= i < |route.nodes| ==> Listed(spec.roleWeights, route.nodes[i].role)
    ensures ApplyStrategy(spec, route).Ok? ==>
              var applied := ApplyStrategy(spec, route).value;
              && applied.strategy == spec.version && applied.checkpoints == spec.checkpoints
              && applied.route == route.(nodes := applied.route.nodes, edges := applied.route.edges)
  {
    forall i | 0 <= i < |route.nodes|
      ensures route.nodes[i].role in WeightMap(spec.roleWeights) <==> Listed(spec.roleWeights, route.nodes[i].role)
    {
      ListedExactly(spec.roleWeights, route.nodes[i].role);
    }
  }

  /** `a` has the heavier role, or one of the same weight and the lesser id. */
  ghost predicate Outranks(weights: seq<RoleWeight>, a: Node, b: Node) {
    exists v: nat, w: nat :: Weighs(weights, a.role, v) && Weighs(weights, b.role, w)
                             && (v > w || (v == w && TextLess(a.id, b.id)))
  }

  /** The places of the nodes that outrank `node`. */
  ghost function Ahead(spec: Strategy, route: Route, node: Node): set<int> {
    set k | 0 <= k < |route.nodes| && Outranks(spec.roleWeights, route.nodes[k], node)
  }

  lemma {:induction false} OutranksExactly(weights: seq<RoleWeight>, a: Node, b: Node)
    requires a.role in WeightMap(weights) && b.role in WeightMap(weights)
    ensures Outranks(weights, a, b) <==> Heavier(WeightMap(weights))(a, b)
  {
    var v, w := WeightMap(weights)[a.role], WeightMap(weights)[b.role];
    WeighsExactly(weights, a.role, v);
    WeighsExactly(weights, b.role, w);
    forall x: nat ensures Weighs(weights, a.role, x) ==> x == v { WeighsExactly(weights, a.role, x); }
    forall x: nat ensures Weighs(weights, b.role, x) ==> x == w { WeighsExactly(weights, b.role, x); }
  }

  lemma {:induction false} AheadIsBefore(spec: Strategy, route: Route, node: Node)
    requires node in route.nodes
    requires forall i :: 0 <= i < |route.nodes| ==> route.nodes[i].role in WeightMap(spec.roleWeights)
    ensures |Filter(route.nodes, (n: Node) => Heavier(WeightMap(spec.roleWeights))(n, node))| ==
            |Ahead(spec, route, node)|
  {
    var before := (n: Node) => Heavier(WeightMap(spec.roleWeights))(n, node);
    forall k | 0 <= k < |route.nodes| ensures k in Ahead(spec, route, node) <==> before(route.nodes[k]) {
      OutranksExactly(spec.roleWeights, route.nodes[k], node);
    }
    FilterPlacesCount(route.nodes, before, Ahead(spec, route, node));
  }

  /** A node survives exactly when fewer nodes outrank it than the strategy allows: one in single mode, and otherwise
      its greatest number of subagents. */
  lemma {:induction false} SurvivesExactly(spec: Strategy, route: Route, node: Node)
    requires UniqueIds(route.nodes) && ApplyStrategy(spec, route).Ok? && node in route.nodes
    ensures node in ApplyStrategy(spec, route).value.route.nodes <==>
            |Ahead(spec, route, node)| < if spec.mode.Single? then 1 else spec.maxSubagents
  {
    var less := Heavier(WeightMap(spec.roleWeights));
    var selected, ranked := Selected(spec, route), Sort(route.nodes, less);
    var prefix := SelectedIsPrefix(spec, route);
    HeavierIsWeakOrder(WeightMap(spec.roleWeights));
    SortSorts(route.nodes, less);
    SameMembers(route.nodes, ranked);
    UniqueIdsOfPermutation(route.nodes, ranked);
    DistinctIdsDoNotTie(WeightMap(spec.roleWeights), ranked);
    FilterMembers(route.nodes, (n: Node) => n.id in Ids(selected));
    var i :| 0 <= i < |ranked| && ranked[i] == node;
    SortedRank(ranked, route.nodes, less, i, (n: Node) => Heavier(WeightMap(spec.roleWeights))(n, node));
    AheadIsBefore(spec, route, node);
    SelectedAtPlace(spec, route, ranked, i);
  }

  lemma {:induction false} SelectedAtPlace(spec: Strategy, route: Route, ranked: seq<Node>, i: nat)
    requires ranked == Sort(route.nodes, Heavier(WeightMap(spec.roleWeights))) && UniqueIds(ranked) && i < |ranked|
    requires |ranked| == |route.nodes|
    ensures ranked[i].id in Ids(Selected(spec, route)) <==> i < if spec.mode.Single? then 1 else spec.maxSubagents
  {
    var selected := Selected(spec, route);
    if i < |selected| { assert selected[i].id == ranked[i].id; }
    if ranked[i].id in Ids(selected) {
      var j :| 0 <= j < |selected| && selected[j].id == ranked[i].id;
      assert ranked[j].id == ranked[i].id;
    }
  }
}
