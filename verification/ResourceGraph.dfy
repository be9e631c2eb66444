/** Projecting a log of events onto a graph of resources, whatever order the events arrive in. */
module ResourceGraph {
  import opened Common
  import opened Orders
  import opened Sequences

  /** In the order in which they compare. */
  datatype Kind = Tool | Skill | Model | Memory | Source | Backend

  const KINDS: seq<Kind> := [Tool, Skill, Model, Memory, Source, Backend]

  datatype Relation = Provides | UsedBy

  datatype Evidence = Passed | Failed | Unverifiable

  datatype Payload =
    | ToolCall(tool: string)
    | SkillsExposed(skills: seq<string>, scope: string)
    | SkillLoaded(skill: string, scope: string)
    | ModelCall(profile: string)
    | MemoryAppended(node: string, scope: string)
    | Imported(source: string)
    | Indexed(capability: string, sources: seq<string>)
    | Planned(backend: string, scope: string)
    | CapabilityEvidence(capability: string, outcome: Evidence)
    | Verification(outcome: Evidence)
    | Failure(related: seq<string>)
    | Revocation(target: string)
    | Other

  /** `trusted`: recorded by the owner, the agent or the system. */
  datatype Event = Event(run: string, sequence: u64, id: string, at: i64, trusted: bool, payload: Payload)

  type Key = (Kind, string)

  datatype Node = Node(
    resource: string,
    kind: Kind,
    scope: string,
    available: bool,
    passed: u32,
    failed: u32,
    unverifiable: u32,
    latestAt: i64,
    evidence: seq<string>)

  datatype EdgeKey = EdgeKey(from: string, to: string, relation: Relation, scope: string)

  datatype Edge = Edge(freshAt: i64, evidence: seq<string>)

  datatype Graph = Graph(
    versions: map<string, u64>,
    nodes: map<Key, Node>,
    edges: map<EdgeKey, Edge>,
    last: map<string, Key>,
    evidence: set<string>)

  const EMPTY: Graph := Graph(map[], map[], map[], map[], {})

  /** Maps stand for the lists that the snapshot holds in key order. */
  datatype Snapshot = Snapshot(
    reference: string,
    versions: map<string, u64>,
    nodes: map<Key, Node>,
    edges: map<EdgeKey, Edge>,
    evidence: set<string>,
    builtAt: i64)

  datatype GraphError = Incomplete | Unsequenced | InvalidSnapshot

  // ----- nodes and edges -----

  function Max(a: i64, b: i64): i64 { if a >= b then a else b }

  function RunScope(e: Event): string { "run:" + e.run }

  function Cite(evidence: seq<string>, e: Event): seq<string> {
    if e.id in evidence then evidence else evidence + [e.id]
  }

  function ExistingKind(nodes: map<Key, Node>, resource: string): Kind {
    if (Tool, resource) in nodes then Tool
    else if (Skill, resource) in nodes then Skill
    else if (Model, resource) in nodes then Model
    else if (Memory, resource) in nodes then Memory
    else if (Source, resource) in nodes then Source
    else if (Backend, resource) in nodes then Backend
    else Tool
  }

  function EnsureNode(nodes: map<Key, Node>, key: Key, scope: string, e: Event): map<Key, Node> {
    var node := if key in nodes then nodes[key] else Node(key.1, key.0, scope, true, 0, 0, 0, e.at, []);
    nodes[key := node.(evidence := Cite(node.evidence, e))]
  }

  function AddEdge(edges: map<EdgeKey, Edge>, key: EdgeKey, e: Event): map<EdgeKey, Edge> {
    var edge := if key in edges then edges[key] else Edge(e.at, []);
    edges[key := Edge(Max(edge.freshAt, e.at), Cite(edge.evidence, e))]
  }

  function Increment(n: u32): u32 { (n + 1) % (U32_MAX + 1) }

  function Scored(node: Node, outcome: Evidence, e: Event): Node {
    var counted := match outcome
                   case Passed => node.(passed := Increment(node.passed))
                   case Failed => node.(failed := Increment(node.failed))
                   case Unverifiable => node.(unverifiable := Increment(node.unverifiable));
    counted.(latestAt := Max(node.latestAt, e.at), evidence := Cite(node.evidence, e))
  }

  function Revoked(node: Node, e: Event): Node {
    node.(available := false, latestAt := Max(node.latestAt, e.at), evidence := Cite(node.evidence, e))
  }

  function ScoreAt(nodes: map<Key, Node>, key: Key, outcome: Evidence, e: Event): map<Key, Node> {
    if key in nodes then nodes[key := Scored(nodes[key], outcome, e)] else nodes
  }

  function FailNamed(nodes: map<Key, Node>, resource: string, e: Event): map<Key, Node> {
    map key | key in nodes :: if key.1 == resource then Scored(nodes[key], Failed, e) else nodes[key]
  }

  function FailAll(nodes: map<Key, Node>, related: seq<string>, e: Event): map<Key, Node>
    decreases |related|
  {
    if |related| == 0 then nodes
    else FailNamed(FailAll(nodes, related[..|related| - 1], e), related[|related| - 1], e)
  }

  function RevokeNamed(nodes: map<Key, Node>, resource: string, e: Event): map<Key, Node> {
    map key | key in nodes :: if key.1 == resource then Revoked(nodes[key], e) else nodes[key]
  }

  predicate Named(nodes: map<Key, Node>, resource: string) {
    exists i :: 0 <= i < |KINDS| && (KINDS[i], resource) in nodes
  }

  // ----- one event -----

  function Noted(g: Graph, e: Event): Graph { g.(evidence := g.evidence + {e.id}) }

  /** The node exists, cites the event, and is the run's latest resource. */
  function Touch(g: Graph, key: Key, scope: string, e: Event): Graph {
    g.(nodes := EnsureNode(g.nodes, key, scope, e), last := g.last[e.run := key])
  }

  function Expose(g: Graph, skills: seq<string>, scope: string, e: Event): Graph
    decreases |skills|
  {
    if |skills| == 0 then g
    else Touch(Expose(g, skills[..|skills| - 1], scope, e), (Skill, skills[|skills| - 1]), scope, e)
  }

  function Provide(g: Graph, capability: string, sources: seq<string>, e: Event): Graph
    decreases |sources|
  {
    if |sources| == 0 then g
    else
      var before, source := Provide(g, capability, sources[..|sources| - 1], e), sources[|sources| - 1];
      before.(nodes := EnsureNode(before.nodes, (Source, source), RunScope(e), e),
              edges := AddEdge(before.edges, EdgeKey(source, capability, Provides, RunScope(e)), e))
  }

  function Index(g: Graph, capability: string, sources: seq<string>, e: Event): Graph {
    var key := (ExistingKind(g.nodes, capability), capability);
    var touched := g.(nodes := EnsureNode(g.nodes, key, RunScope(e), e));
    Provide(touched, capability, sources, e).(last := g.last[e.run := key])
  }

  function Plan(g: Graph, backend: string, scope: string, e: Event): Graph {
    var key := (Backend, "backend:" + backend);
    var linked := if e.run in g.last
                  then g.(edges := AddEdge(g.edges, EdgeKey(g.last[e.run].1, key.1, UsedBy, scope), e))
                  else g;
    Touch(linked, key, scope, e)
  }

  /** Scores the run's latest resource, if it has one. */
  function ScoreLast(g: Graph, outcome: Evidence, e: Event): Graph {
    if e.run in g.last then g.(nodes := ScoreAt(g.nodes, g.last[e.run], outcome, e)) else g
  }

  function Revoke(g: Graph, target: string, e: Event): Graph { g.(nodes := RevokeNamed(g.nodes, target, e)) }

  function FailRelated(g: Graph, related: seq<string>, e: Event): Graph {
    var failed := g.(nodes := FailAll(g.nodes, related, e));
    if exists i :: 0 <= i < |related| && Named(g.nodes, related[i]) then failed
    else ScoreLast(failed, Failed, e)
  }

  function Credit(g: Graph, capability: string, outcome: Evidence, e: Event): Graph {
    var key := (ExistingKind(g.nodes, capability), capability);
    var touched := Touch(g, key, RunScope(e), e);
    touched.(nodes := ScoreAt(touched.nodes, key, outcome, e))
  }

  function Versioned(g: Graph, e: Event): Graph {
    var seen := if e.run in g.versions && g.versions[e.run] > e.sequence then g.versions[e.run] else e.sequence;
    g.(versions := g.versions[e.run := seen])
  }

  function ApplyPayload(g: Graph, e: Event): Graph {
    match e.payload
    case ToolCall(tool) => Touch(Noted(g, e), (Tool, tool), RunScope(e), e)
    case SkillsExposed(skills, scope) => Expose(Noted(g, e), skills, scope, e)
    case SkillLoaded(skill, scope) => Touch(Noted(g, e), (Skill, skill), scope, e)
    case ModelCall(profile) => Touch(Noted(g, e), (Model, profile), RunScope(e), e)
    case MemoryAppended(node, scope) => Touch(Noted(g, e), (Memory, node), scope, e)
    case Imported(source) => Touch(Noted(g, e), (Source, source), RunScope(e), e)
    case Indexed(capability, sources) => Index(Noted(g, e), capability, sources, e)
    case Planned(backend, scope) => Plan(Noted(g, e), backend, scope, e)
    case CapabilityEvidence(capability, outcome) =>
      if !e.trusted then g else Credit(Noted(g, e), capability, outcome, e)
    case Verification(outcome) =>
      if !e.trusted || e.run !in g.last then g else ScoreLast(Noted(g, e), outcome, e)
    case Failure(related) => if !e.trusted then g else FailRelated(Noted(g, e), related, e)
    case Revocation(target) => if !e.trusted then g else Revoke(Noted(g, e), target, e)
    case Other => g
  }

  function Apply(g: Graph, e: Event): Graph { ApplyPayload(Versioned(g, e), e) }

  function Fold(events: seq<Event>): Graph
    decreases |events|
  {
    if |events| == 0 then EMPTY else Apply(Fold(events[..|events| - 1]), events[|events| - 1])
  }

  // ----- rebuilding -----

  function EventOrder(): (Event, Event) -> bool {
    Then(ByText((e: Event) => e.run), Then(ByNumber((e: Event) => e.sequence), ByText((e: Event) => e.id)))
  }

  function Rebuild(events: seq<Event>, reference: string, builtAt: i64): Result<Snapshot, GraphError> {
    if Blank(reference) || builtAt <= 0 || |events| == 0 then Err(Incomplete)
    else if exists i :: 0 <= i < |events| && events[i].sequence == 0 then Err(Unsequenced)
    else
      var g := Fold(Sort(events, EventOrder()));
      if g.versions == map[] || exists run :: run in g.versions && Blank(run) then Err(InvalidSnapshot)
      else Ok(Snapshot(reference, g.versions, g.nodes, g.edges, g.evidence, builtAt))
  }

  // ----- what the fold keeps -----

  ghost predicate Citing(evidence: seq<string>, known: set<string>) {
    Distinct(evidence) && forall x :: x in evidence ==> x in known
  }

  ghost predicate NodesInv(nodes: map<Key, Node>, known: set<string>) {
    forall key :: key in nodes ==>
                    nodes[key].kind == key.0 && nodes[key].resource == key.1 && Citing(nodes[key].evidence, known)
  }

  ghost predicate EdgesInv(edges: map<EdgeKey, Edge>, nodes: map<Key, Node>, known: set<string>) {
    forall key :: key in edges ==> Named(nodes, key.from) && Named(nodes, key.to) && Citing(edges[key].evidence, known)
  }

  ghost predicate LastInv(last: map<string, Key>, nodes: map<Key, Node>) {
    forall run :: run in last ==> last[run] in nodes
  }

  ghost predicate Inv(g: Graph) {
    NodesInv(g.nodes, g.evidence) && EdgesInv(g.edges, g.nodes, g.evidence) && LastInv(g.last, g.nodes)
  }

  lemma {:induction false} CiteKeeps(evidence: seq<string>, known: set<string>, e: Event)
    requires Citing(evidence, known) && e.id in known
    ensures Citing(Cite(evidence, e), known)
  {
  }

  lemma {:induction false} KindIsListed(kind: Kind)
    ensures exists i :: 0 <= i < |KINDS| && KINDS[i] == kind
  {
    match kind
    case Tool => assert KINDS[0] == kind;
    case Skill => assert KINDS[1] == kind;
    case Model => assert KINDS[2] == kind;
    case Memory => assert KINDS[3] == kind;
    case Source => assert KINDS[4] == kind;
    case Backend => assert KINDS[5] == kind;
  }

  lemma {:induction false} PresentIsNamed(nodes: map<Key, Node>, key: Key)
    requires key in nodes
    ensures Named(nodes, key.1)
  {
    KindIsListed(key.0);
    var i :| 0 <= i < |KINDS| && KINDS[i] == key.0;
    assert (KINDS[i], key.1) in nodes;
  }

  /** `b` is `a` with more evidence known, more nodes, and no node lost. */
  ghost predicate Extends(a: Graph, b: Graph) {
    a.nodes.Keys <= b.nodes.Keys && a.evidence <= b.evidence
  }

  /** Replacing and adding well-formed nodes disturbs nothing else. */
  lemma {:induction false} NodesChange(g: Graph, nodes: map<Key, Node>)
    requires Inv(g) && g.nodes.Keys <= nodes.Keys && NodesInv(nodes, g.evidence)
    ensures Inv(g.(nodes := nodes))
  {
    forall key | key in g.edges ensures Named(nodes, key.from) && Named(nodes, key.to) {
      var i :| 0 <= i < |KINDS| && (KINDS[i], key.from) in g.nodes;
      var j :| 0 <= j < |KINDS| && (KINDS[j], key.to) in g.nodes;
      assert (KINDS[i], key.from) in nodes && (KINDS[j], key.to) in nodes;
    }
  }

  lemma {:induction false} EnsureKeeps(g: Graph, key: Key, scope: string, e: Event)
    requires Inv(g) && e.id in g.evidence
    ensures Inv(g.(nodes := EnsureNode(g.nodes, key, scope, e)))
    ensures g.nodes.Keys <= EnsureNode(g.nodes, key, scope, e).Keys
  {
    CiteKeeps(if key in g.nodes then g.nodes[key].evidence else [], g.evidence, e);
    NodesChange(g, EnsureNode(g.nodes, key, scope, e));
  }

  lemma {:induction false} TouchKeeps(g: Graph, key: Key, scope: string, e: Event)
    requires Inv(g) && e.id in g.evidence
    ensures Inv(Touch(g, key, scope, e)) && Extends(g, Touch(g, key, scope, e))
  {
    EnsureKeeps(g, key, scope, e);
  }

  lemma {:induction false} EdgeKeeps(g: Graph, key: EdgeKey, e: Event)
    requires Inv(g) && e.id in g.evidence && Named(g.nodes, key.from) && Named(g.nodes, key.to)
    ensures Inv(g.(edges := AddEdge(g.edges, key, e)))
  {
    CiteKeeps(if key in g.edges then g.edges[key].evidence else [], g.evidence, e);
  }

  lemma {:induction false} ScoredKeeps(node: Node, outcome: Evidence, known: set<string>, e: Event)
    requires Citing(node.evidence, known) && e.id in known
    ensures Citing(Scored(node, outcome, e).evidence, known)
    ensures Scored(node, outcome, e).kind == node.kind && Scored(node, outcome, e).resource == node.resource
  {
    CiteKeeps(node.evidence, known, e);
  }

  lemma {:induction false} ScoreLastKeeps(g: Graph, outcome: Evidence, e: Event)
    requires Inv(g) && e.id in g.evidence
    ensures Inv(ScoreLast(g, outcome, e))
  {
    if e.run in g.last { ScoreKeeps(g, g.last[e.run], outcome, e); }
  }

  lemma {:induction false} ScoreKeeps(g: Graph, key: Key, outcome: Evidence, e: Event)
    requires Inv(g) && e.id in g.evidence
    ensures Inv(g.(nodes := ScoreAt(g.nodes, key, outcome, e)))
    ensures g.nodes.Keys == ScoreAt(g.nodes, key, outcome, e).Keys
  {
    if key in g.nodes { ScoredKeeps(g.nodes[key], outcome, g.evidence, e); }
    NodesChange(g, ScoreAt(g.nodes, key, outcome, e));
  }

  lemma {:induction false} FailAllKeeps(g: Graph, related: seq<string>, e: Event)
    requires Inv(g) && e.id in g.evidence
    ensures Inv(g.(nodes := FailAll(g.nodes, related, e)))
    ensures g.nodes.Keys == FailAll(g.nodes, related, e).Keys
    decreases |related|
  {
    if |related| > 0 {
      FailAllKeeps(g, related[..|related| - 1], e);
      var before := FailAll(g.nodes, related[..|related| - 1], e);
      forall key | key in before ensures Citing(Scored(before[key], Failed, e).evidence, g.evidence) {
        ScoredKeeps(before[key], Failed, g.evidence, e);
      }
      NodesChange(g, FailNamed(before, related[|related| - 1], e));
    }
  }

  lemma {:induction false} RevokeKeeps(g: Graph, resource: string, e: Event)
    requires Inv(g) && e.id in g.evidence
    ensures Inv(Revoke(g, resource, e))
  {
    forall key | key in g.nodes ensures Citing(Revoked(g.nodes[key], e).evidence, g.evidence) {
      CiteKeeps(g.nodes[key].evidence, g.evidence, e);
    }
    NodesChange(g, RevokeNamed(g.nodes, resource, e));
  }

  lemma {:induction false} ExposeKeeps(g: Graph, skills: seq<string>, scope: string, e: Event)
    requires Inv(g) && e.id in g.evidence
    ensures Inv(Expose(g, skills, scope, e)) && Extends(g, Expose(g, skills, scope, e))
    decreases |skills|
  {
    if |skills| > 0 {
      ExposeKeeps(g, skills[..|skills| - 1], scope, e);
      TouchKeeps(Expose(g, skills[..|skills| - 1], scope, e), (Skill, skills[|skills| - 1]), scope, e);
    }
  }

  lemma {:induction false} ProvideKeeps(g: Graph, capability: string, sources: seq<string>, e: Event, key: Key)
    requires Inv(g) && e.id in g.evidence && key in g.nodes && key.1 == capability
    ensures Inv(Provide(g, capability, sources, e)) && Extends(g, Provide(g, capability, sources, e))
    ensures Provide(g, capability, sources, e).last == g.last
    decreases |sources|
  {
    if |sources| > 0 {
      var source := sources[|sources| - 1];
      ProvideKeeps(g, capability, sources[..|sources| - 1], e, key);
      var before := Provide(g, capability, sources[..|sources| - 1], e);
      EnsureKeeps(before, (Source, source), RunScope(e), e);
      var ensured := before.(nodes := EnsureNode(before.nodes, (Source, source), RunScope(e), e));
      PresentIsNamed(ensured.nodes, (Source, source));
      PresentIsNamed(ensured.nodes, key);
      EdgeKeeps(ensured, EdgeKey(source, capability, Provides, RunScope(e)), e);
    }
  }

  lemma {:induction false} IndexKeeps(g: Graph, capability: string, sources: seq<string>, e: Event)
    requires Inv(g) && e.id in g.evidence
    ensures Inv(Index(g, capability, sources, e)) && Extends(g, Index(g, capability, sources, e))
  {
    var key := (ExistingKind(g.nodes, capability), capability);
    EnsureKeeps(g, key, RunScope(e), e);
    ProvideKeeps(g.(nodes := EnsureNode(g.nodes, key, RunScope(e), e)), capability, sources, e, key);
  }

  lemma {:induction false} PlanKeeps(g: Graph, backend: string, scope: string, e: Event)
    requires Inv(g) && e.id in g.evidence
    ensures Inv(Plan(g, backend, scope, e)) && Extends(g, Plan(g, backend, scope, e))
  {
    var key := (Backend, "backend:" + backend);
    EnsureKeeps(g, key, scope, e);
    var ensured := g.(nodes := EnsureNode(g.nodes, key, scope, e));
    if e.run in g.last {
      PresentIsNamed(ensured.nodes, key);
      PresentIsNamed(ensured.nodes, g.last[e.run]);
      EdgeKeeps(ensured, EdgeKey(g.last[e.run].1, key.1, UsedBy, scope), e);
    }
  }

  lemma {:induction false} NotedKeeps(g: Graph, e: Event)
    requires Inv(g)
    ensures Inv(Noted(g, e)) && Inv(Versioned(g, e))
  {
  }

  lemma {:induction false} CreditKeeps(g: Graph, capability: string, outcome: Evidence, e: Event)
    requires Inv(g) && e.id in g.evidence
    ensures Inv(Credit(g, capability, outcome, e))
  {
    var key := (ExistingKind(g.nodes, capability), capability);
    TouchKeeps(g, key, RunScope(e), e);
    ScoreKeeps(Touch(g, key, RunScope(e), e), key, outcome, e);
  }

  lemma {:induction false} FailRelatedKeeps(g: Graph, related: seq<string>, e: Event)
    requires Inv(g) && e.id in g.evidence
    ensures Inv(FailRelated(g, related, e))
  {
    FailAllKeeps(g, related, e);
    ScoreLastKeeps(g.(nodes := FailAll(g.nodes, related, e)), Failed, e);
  }

  predicate Mentions(payload: Payload) {
    payload.ToolCall? || payload.SkillLoaded? || payload.ModelCall? || payload.MemoryAppended? || payload.Imported?
  }

  predicate Reports(payload: Payload) {
    payload.CapabilityEvidence? || payload.Verification? || payload.Failure? || payload.Revocation?
  }

  lemma {:induction false} MentionKeeps(g: Graph, e: Event)
    requires Inv(g) && Mentions(e.payload)
    ensures Inv(ApplyPayload(g, e))
  {
    NotedKeeps(g, e);
    var n := Noted(g, e);
    match e.payload
    case ToolCall(tool) => TouchKeeps(n, (Tool, tool), RunScope(e), e);
    case SkillLoaded(skill, scope) => TouchKeeps(n, (Skill, skill), scope, e);
    case ModelCall(profile) => TouchKeeps(n, (Model, profile), RunScope(e), e);
    case MemoryAppended(node, scope) => TouchKeeps(n, (Memory, node), scope, e);
    case Imported(source) => TouchKeeps(n, (Source, source), RunScope(e), e);
  }

  lemma {:induction false} ReportKeeps(g: Graph, e: Event)
    requires Inv(g) && Reports(e.payload)
    ensures Inv(ApplyPayload(g, e))
  {
    var n := Noted(g, e);
    assert Inv(n) by { NotedKeeps(g, e); }
    if !e.trusted {
      assert ApplyPayload(g, e) == g;
    } else if e.payload.CapabilityEvidence? {
      assert ApplyPayload(g, e) == Credit(n, e.payload.capability, e.payload.outcome, e);
      CreditKeeps(n, e.payload.capability, e.payload.outcome, e);
    } else if e.payload.Verification? {
      assert ApplyPayload(g, e) == if e.run in g.last then ScoreLast(n, e.payload.outcome, e) else g;
      ScoreLastKeeps(n, e.payload.outcome, e);
    } else if e.payload.Failure? {
      assert ApplyPayload(g, e) == FailRelated(n, e.payload.related, e);
      FailRelatedKeeps(n, e.payload.related, e);
    } else {
      assert ApplyPayload(g, e) == Revoke(n, e.payload.target, e);
      RevokeKeeps(n, e.payload.target, e);
    }
  }

  lemma {:induction false} ApplyKeeps(g: Graph, e: Event)
    requires Inv(g)
    ensures Inv(ApplyPayload(g, e))
  {
    if Mentions(e.payload) {
      MentionKeeps(g, e);
    } else if Reports(e.payload) {
      ReportKeeps(g, e);
    } else {
      NotedKeeps(g, e);
      var n := Noted(g, e);
      match e.payload
      case SkillsExposed(skills, scope) => ExposeKeeps(n, skills, scope, e);
      case Indexed(capability, sources) => IndexKeeps(n, capability, sources, e);
      case Planned(backend, scope) => PlanKeeps(n, backend, scope, e);
      case Other =>
    }
  }

  /** At every point of the fold, each run's latest resource and both ends of each edge are nodes of the
      graph, and evidence lists are free of duplicates and within the snapshot's evidence. */
  lemma {:induction false} FoldKeeps(events: seq<Event>)
    ensures Inv(Fold(events))
    decreases |events|
  {
    if |events| > 0 {
      var g, e := Fold(events[..|events| - 1]), events[|events| - 1];
      FoldKeeps(events[..|events| - 1]);
      NotedKeeps(g, e);
      ApplyKeeps(Versioned(g, e), e);
    }
  }

  // ----- availability -----

  predicate Revokes(e: Event, resource: string) {
    e.trusted && e.payload.Revocation? && e.payload.target == resource
  }

  /** A node that was there keeps its availability, and a new one starts available. */
  ghost predicate SameAvailability(before: map<Key, Node>, after: map<Key, Node>, key: Key) {
    if key in before then key in after && after[key].available == before[key].available
    else key in after ==> after[key].available
  }

  lemma {:induction false} ExposeAvailability(g: Graph, skills: seq<string>, scope: string, e: Event, key: Key)
    ensures SameAvailability(g.nodes, Expose(g, skills, scope, e).nodes, key)
    decreases |skills|
  {
    if |skills| > 0 { ExposeAvailability(g, skills[..|skills| - 1], scope, e, key); }
  }

  lemma {:induction false} ProvideAvailability(g: Graph, capability: string, sources: seq<string>, e: Event, key: Key)
    ensures SameAvailability(g.nodes, Provide(g, capability, sources, e).nodes, key)
    decreases |sources|
  {
    if |sources| > 0 { ProvideAvailability(g, capability, sources[..|sources| - 1], e, key); }
  }

  lemma {:induction false} FailAvailability(nodes: map<Key, Node>, related: seq<string>, e: Event, key: Key)
    ensures SameAvailability(nodes, FailAll(nodes, related, e), key)
    ensures key in nodes <==> key in FailAll(nodes, related, e)
    decreases |related|
  {
    if |related| > 0 { FailAvailability(nodes, related[..|related| - 1], e, key); }
  }

  lemma {:induction false} TouchAvailability(g: Graph, first: Key, scope: string, e: Event, key: Key)
    ensures SameAvailability(g.nodes, Touch(g, first, scope, e).nodes, key)
  {
  }

  lemma {:induction false} IndexAvailability(g: Graph, capability: string, sources: seq<string>, e: Event, key: Key)
    ensures SameAvailability(g.nodes, Index(g, capability, sources, e).nodes, key)
  {
    var first := (ExistingKind(g.nodes, capability), capability);
    ProvideAvailability(g.(nodes := EnsureNode(g.nodes, first, RunScope(e), e)), capability, sources, e, key);
  }

  lemma {:induction false} CreditAvailability(g: Graph, capability: string, outcome: Evidence, e: Event, key: Key)
    ensures SameAvailability(g.nodes, Credit(g, capability, outcome, e).nodes, key)
  {
    TouchAvailability(g, (ExistingKind(g.nodes, capability), capability), RunScope(e), e, key);
  }

  lemma {:induction false} FailRelatedAvailability(g: Graph, related: seq<string>, e: Event, key: Key)
    ensures SameAvailability(g.nodes, FailRelated(g, related, e).nodes, key)
  {
    FailAvailability(g.nodes, related, e, key);
  }

  lemma {:induction false} MentionAvailability(g: Graph, e: Event, key: Key)
    requires Mentions(e.payload)
    ensures SameAvailability(g.nodes, ApplyPayload(g, e).nodes, key)
  {
    var n := Noted(g, e);
    match e.payload
    case ToolCall(tool) => TouchAvailability(n, (Tool, tool), RunScope(e), e, key);
    case SkillLoaded(skill, scope) => TouchAvailability(n, (Skill, skill), scope, e, key);
    case ModelCall(profile) => TouchAvailability(n, (Model, profile), RunScope(e), e, key);
    case MemoryAppended(node, scope) => TouchAvailability(n, (Memory, node), scope, e, key);
    case Imported(source) => TouchAvailability(n, (Source, source), RunScope(e), e, key);
  }

  lemma {:induction false} PayloadAvailability(g: Graph, e: Event, key: Key)
    requires !e.payload.Revocation?
    ensures SameAvailability(g.nodes, ApplyPayload(g, e).nodes, key)
  {
    if Mentions(e.payload) {
      MentionAvailability(g, e, key);
    } else {
      var n := Noted(g, e);
      match e.payload
      case SkillsExposed(skills, scope) => ExposeAvailability(n, skills, scope, e, key);
      case Indexed(capability, sources) => IndexAvailability(n, capability, sources, e, key);
      case Planned(backend, scope) => TouchAvailability(n, (Backend, "backend:" + backend), scope, e, key);
      case CapabilityEvidence(capability, outcome) => CreditAvailability(n, capability, outcome, e, key);
      case Verification(_) =>
      case Failure(related) => FailRelatedAvailability(n, related, e, key);
      case Other =>
    }
  }

  /** Only a trusted revocation of its resource makes a node unavailable, and nothing undoes it. */
  lemma {:induction false} ApplyAvailability(g: Graph, e: Event, key: Key)
    ensures key in g.nodes ==> key in Apply(g, e).nodes
                               && Apply(g, e).nodes[key].available == (g.nodes[key].available && !Revokes(e, key.1))
    ensures key !in g.nodes && key in Apply(g, e).nodes ==> Apply(g, e).nodes[key].available
  {
    if !e.payload.Revocation? { PayloadAvailability(Versioned(g, e), e, key); }
  }

  /** The event at `j` revokes the resource of a node that is already there. */
  ghost predicate RevokedAt(events: seq<Event>, j: nat, key: Key) {
    j < |events| && Revokes(events[j], key.1) && key in Fold(events[..j]).nodes
  }

  lemma {:induction false} NodesStay(events: seq<Event>, j: nat, key: Key)
    requires j <= |events| && key in Fold(events[..j]).nodes
    ensures key in Fold(events).nodes
    decreases |events|
  {
    if j < |events| {
      assert events[..|events| - 1][..j] == events[..j];
      NodesStay(events[..|events| - 1], j, key);
      ApplyAvailability(Fold(events[..|events| - 1]), events[|events| - 1], key);
    } else {
      assert events[..j] == events;
    }
  }

  lemma {:induction false} RevokedSplit(events: seq<Event>, key: Key)
    requires |events| > 0
    ensures var front := events[..|events| - 1];
            (exists j :: 0 <= j < |events| && RevokedAt(events, j, key)) <==>
            (exists j :: 0 <= j < |front| && RevokedAt(front, j, key)) || RevokedAt(events, |front|, key)
  {
    var front := events[..|events| - 1];
    forall j | 0 <= j < |front| ensures RevokedAt(events, j, key) <==> RevokedAt(front, j, key) {
      assert front[..j] == events[..j];
    }
  }

  lemma {:induction false} NotRevokedBeforeAppearing(events: seq<Event>, key: Key)
    requires key !in Fold(events).nodes
    ensures !exists j :: 0 <= j < |events| && RevokedAt(events, j, key)
  {
    forall j | 0 <= j < |events| ensures !RevokedAt(events, j, key) {
      if key in Fold(events[..j]).nodes { NodesStay(events, j, key); }
    }
  }

  /** A node is unavailable exactly when some trusted event revoked its resource after the node had appeared:
      nothing later restores it, and a revocation that came too early has no effect. */
  lemma {:induction false} UnavailableExactly(events: seq<Event>, key: Key)
    requires key in Fold(events).nodes
    ensures !Fold(events).nodes[key].available <==> exists j :: 0 <= j < |events| && RevokedAt(events, j, key)
    decreases |events|
  {
    if |events| > 0 {
      var front, e := events[..|events| - 1], events[|events| - 1];
      ApplyAvailability(Fold(front), e, key);
      RevokedSplit(events, key);
      if key in Fold(front).nodes {
        UnavailableExactly(front, key);
      } else {
        NotRevokedBeforeAppearing(front, key);
      }
    }
  }

  // ----- versions -----

  lemma {:induction false} ExposeVersions(g: Graph, skills: seq<string>, scope: string, e: Event)
    ensures Expose(g, skills, scope, e).versions == g.versions
    decreases |skills|
  {
    if |skills| > 0 { ExposeVersions(g, skills[..|skills| - 1], scope, e); }
  }

  lemma {:induction false} ProvideVersions(g: Graph, capability: string, sources: seq<string>, e: Event)
    ensures Provide(g, capability, sources, e).versions == g.versions
    decreases |sources|
  {
    if |sources| > 0 { ProvideVersions(g, capability, sources[..|sources| - 1], e); }
  }

  lemma {:induction false} PayloadVersions(g: Graph, e: Event)
    ensures ApplyPayload(g, e).versions == g.versions
  {
    var n := Noted(g, e);
    if e.payload.SkillsExposed? { ExposeVersions(n, e.payload.skills, e.payload.scope, e); }
    if e.payload.Indexed? {
      var key := (ExistingKind(n.nodes, e.payload.capability), e.payload.capability);
      ProvideVersions(n.(nodes := EnsureNode(n.nodes, key, RunScope(e), e)), e.payload.capability, e.payload.sources,
                      e);
    }
  }

  /** Every run of the log has a version: the highest sequence number among its events. */
  lemma {:induction false} VersionsExactly(events: seq<Event>, run: string)
    ensures run in Fold(events).versions <==> exists i :: 0 <= i < |events| && events[i].run == run
    ensures run in Fold(events).versions ==>
              && (exists i :: 0 <= i < |events| && events[i].run == run
                              && events[i].sequence == Fold(events).versions[run])
              && (forall i :: 0 <= i < |events| && events[i].run == run ==>
                              events[i].sequence <= Fold(events).versions[run])
    decreases |events|
  {
    if |events| > 0 {
      var front, e := events[..|events| - 1], events[|events| - 1];
      VersionsExactly(front, run);
      PayloadVersions(Versioned(Fold(front), e), e);
      assert events == front + [e];
      if run in Fold(front).versions {
        var i :| 0 <= i < |front| && front[i].run == run && front[i].sequence == Fold(front).versions[run];
        assert events[i] == front[i];
      }
      assert events[|front|] == e;
    }
  }

  // ----- the main results -----

  lemma {:induction false} EventOrderIsWeakOrder()
    ensures WeakOrder(EventOrder())
  {
    ByTextIsWeakOrder((e: Event) => e.run);
    ByNumberIsWeakOrder((e: Event) => e.sequence);
    ByTextIsWeakOrder((e: Event) => e.id);
    ThenIsWeakOrder(ByNumber((e: Event) => e.sequence), ByText((e: Event) => e.id));
    ThenIsWeakOrder(ByText((e: Event) => e.run), Then(ByNumber((e: Event) => e.sequence), ByText((e: Event) => e.id)));
  }

  /** Run, sequence number and id tell any two different events apart. */
  ghost predicate Identified(events: seq<Event>) {
    forall i, j :: 0 <= i < |events| && 0 <= j < |events| && events[i] != events[j] ==>
                     (events[i].run, events[i].sequence, events[i].id) !=
                     (events[j].run, events[j].sequence, events[j].id)
  }

  lemma {:induction false} IdentifiedHasNoTies(events: seq<Event>)
    requires Identified(events)
    ensures NoTies(events, EventOrder())
  {
    forall i, j | 0 <= i < |events| && 0 <= j < |events| && events[i] != events[j]
      ensures EventOrder()(events[i], events[j]) || EventOrder()(events[j], events[i])
    {
      TextLessTotal(events[i].run, events[j].run);
      TextLessTotal(events[i].id, events[j].id);
    }
  }

  /** Rebuilding from the events in any order gives the same answer. */
  lemma {:induction false} RebuildForgetsOrder(a: seq<Event>, b: seq<Event>, reference: string, builtAt: i64)
    requires multiset(a) == multiset(b) && Identified(a)
    ensures Rebuild(a, reference, builtAt) == Rebuild(b, reference, builtAt)
  {
    EventOrderIsWeakOrder();
    IdentifiedHasNoTies(a);
    SortForgetsOrder(a, b, EventOrder());
    SameMembers(a, b);
    if i :| 0 <= i < |a| && a[i].sequence == 0 { assert a[i] in b; }
    if i :| 0 <= i < |b| && b[i].sequence == 0 { assert b[i] in a; }
  }

  /** What makes a rebuild succeed. */
  predicate Acceptable(events: seq<Event>, reference: string, builtAt: i64) {
    && !Blank(reference) && builtAt > 0 && |events| > 0
    && forall i :: 0 <= i < |events| ==> events[i].sequence > 0 && !Blank(events[i].run)
  }

  lemma {:induction false} RunsAgree(a: seq<Event>, b: seq<Event>, run: string)
    requires forall x :: x in a <==> x in b
    ensures (exists i :: 0 <= i < |a| && a[i].run == run) <==> (exists i :: 0 <= i < |b| && b[i].run == run)
  {
    if i :| 0 <= i < |a| && a[i].run == run {
      assert a[i] in b;
      var k :| 0 <= k < |b| && b[k] == a[i];
    }
    if i :| 0 <= i < |b| && b[i].run == run {
      assert b[i] in a;
      var k :| 0 <= k < |a| && a[k] == b[i];
    }
  }

  /** A rebuild succeeds exactly on a complete request over store-sequenced events of named runs, and its
      snapshot is consistent: endpoints exist and evidence is cited once and recorded. */
  lemma {:induction false} RebuildSucceedsExactly(events: seq<Event>, reference: string, builtAt: i64)
    ensures Rebuild(events, reference, builtAt).Ok? <==> Acceptable(events, reference, builtAt)
    ensures Rebuild(events, reference, builtAt).Ok? ==>
              var s := Rebuild(events, reference, builtAt).value;
              NodesInv(s.nodes, s.evidence) && EdgesInv(s.edges, s.nodes, s.evidence)
  {
    var ordered := Sort(events, EventOrder());
    var g := Fold(ordered);
    EventOrderIsWeakOrder();
    SortSorts(events, EventOrder());
    SameMembers(events, ordered);
    FoldKeeps(ordered);
    forall run ensures run in g.versions <==> exists i :: 0 <= i < |events| && events[i].run == run {
      VersionsExactly(ordered, run);
      RunsAgree(events, ordered, run);
    }
    if |events| > 0 { assert events[0].run in g.versions; }
  }
}
