/** What each event leaves in the resource graph, told from the event and the graph before it, and what a whole
    log adds up to. */
module ResourceRuns {
  import opened Common
  import opened Sequences
  import opened ResourceGraph

  // ----- what an event says -----

  /** The node a capability's name stands for: the first kind that knows the name, or else a tool. */
  ghost predicate Resolves(nodes: map<Key, Node>, name: string, key: Key) {
    && key.1 == name
    && if exists kind :: (kind, name) in nodes then key in nodes && forall kind :: Precedes(kind, key.0) ==>
                                                                                   (kind, name) !in nodes
       else key.0 == Tool
  }

  /** Kinds compare in the order Tool, Skill, Model, Memory, Source, Backend. */
  predicate Precedes(a: Kind, b: Kind) {
    match b
    case Tool => false
    case Skill => a == Tool
    case Model => a in {Tool, Skill}
    case Memory => a in {Tool, Skill, Model}
    case Source => a in {Tool, Skill, Model, Memory}
    case Backend => a != Backend
  }

  /** The event brings the node into the graph, or cites it again. */
  ghost predicate Brings(g: Graph, e: Event, key: Key) {
    match e.payload
    case ToolCall(tool) => key == (Tool, tool)
    case SkillsExposed(skills, _) => key.0 == Skill && key.1 in skills
    case SkillLoaded(skill, _) => key == (Skill, skill)
    case ModelCall(profile) => key == (Model, profile)
    case MemoryAppended(node, _) => key == (Memory, node)
    case Imported(source) => key == (Source, source)
    case Indexed(capability, sources) => Resolves(g.nodes, capability, key) || (key.0 == Source && key.1 in sources)
    case Planned(backend, _) => key == (Backend, "backend:" + backend)
    case CapabilityEvidence(capability, _) => e.trusted && Resolves(g.nodes, capability, key)
    case Verification(_) => false
    case Failure(_) => false
    case Revocation(_) => false
    case Other => false
  }

  /** The scope of a node the event creates. */
  function GivenScope(e: Event): string {
    match e.payload
    case SkillsExposed(_, scope) => scope
    case SkillLoaded(_, scope) => scope
    case MemoryAppended(_, scope) => scope
    case Planned(_, scope) => scope
    case _ => "run:" + e.run
  }

  ghost predicate IsLatest(g: Graph, run: string, key: Key) { run in g.last && g.last[run] == key }

  ghost predicate KnowsNone(nodes: map<Key, Node>, names: seq<string>) {
    forall key :: key in nodes ==> key.1 !in names
  }

  /** How often the event counts the outcome for the node. A failure counts once for each time the node is named,
      and against the run's latest resource when nothing it names is known. */
  ghost function Hits(g: Graph, e: Event, key: Key, outcome: Evidence): nat {
    if !e.trusted then 0
    else match e.payload
      case CapabilityEvidence(capability, said) =>
        if said == outcome && Resolves(g.nodes, capability, key) then 1 else 0
      case Verification(said) => if said == outcome && IsLatest(g, e.run, key) && key in g.nodes then 1 else 0
      case Failure(related) =>
        if outcome != Failed || key !in g.nodes then 0
        else if KnowsNone(g.nodes, related) then if IsLatest(g, e.run, key) then 1 else 0
        else multiset(related)[key.1]
      case _ => 0
  }

  ghost predicate Strikes(g: Graph, e: Event, key: Key) {
    e.trusted && e.payload.Revocation? && e.payload.target == key.1 && key in g.nodes
  }

  ghost predicate Scores(g: Graph, e: Event, key: Key) {
    exists outcome :: Hits(g, e, key, outcome) > 0
  }

  // ----- one event, node by node -----

  function Plus(n: u32, k: nat): u32 { (n + k) % 0x1_0000_0000 }

  /** The node as it was, or as the event creates it. */
  function Start(nodes: map<Key, Node>, key: Key, scope: string, e: Event): Node {
    if key in nodes then nodes[key] else Node(key.1, key.0, scope, true, 0, 0, 0, e.at, [])
  }

  /** `after` is `was` with the counts raised; a scored node is as recent as the event. */
  ghost predicate Grown(was: Node, after: Node, e: Event, cited: bool, recent: bool, hits: (nat, nat, nat)) {
    && after.resource == was.resource && after.kind == was.kind && after.scope == was.scope
    && after.passed == Plus(was.passed, hits.0)
    && after.failed == Plus(was.failed, hits.1)
    && after.unverifiable == Plus(was.unverifiable, hits.2)
    && after.latestAt == (if recent && e.at > was.latestAt then e.at else was.latestAt)
    && after.evidence == (if cited && e.id !in was.evidence then was.evidence + [e.id] else was.evidence)
  }

  ghost function AllHits(g: Graph, e: Event, key: Key): (nat, nat, nat) {
    (Hits(g, e, key, Passed), Hits(g, e, key, Failed), Hits(g, e, key, Unverifiable))
  }

  lemma {:induction false} ScoresByKind(g: Graph, e: Event, key: Key)
    ensures Scores(g, e, key) <==> AllHits(g, e, key) != (0, 0, 0)
  {
    if Scores(g, e, key) {
      var outcome :| Hits(g, e, key, outcome) > 0;
      match outcome
      case Passed =>
      case Failed =>
      case Unverifiable =>
    }
  }

  lemma {:induction false} ResolvesExactly(nodes: map<Key, Node>, name: string, key: Key)
    ensures Resolves(nodes, name, key) <==> key == (ExistingKind(nodes, name), name)
  {
    if exists kind :: (kind, name) in nodes {
      var kind :| (kind, name) in nodes;
      match kind
      case Tool =>
      case Skill =>
      case Model =>
      case Memory =>
      case Source =>
      case Backend =>
    }
  }

  /** The effect on one node, for graphs `g` before and `h` after. */
  ghost predicate NodeFollows(g: Graph, h: Graph, e: Event, key: Key, brings: bool, recent: bool, hits: (nat, nat, nat))
  {
    && (key in h.nodes <==> key in g.nodes || brings)
    && (key in h.nodes ==>
          Grown(Start(g.nodes, key, GivenScope(e), e), h.nodes[key], e, brings || recent, recent, hits))
  }

  lemma {:induction false} ExposeNode(g: Graph, skills: seq<string>, scope: string, e: Event, key: Key)
    requires GivenScope(e) == scope
    ensures NodeFollows(g, Expose(g, skills, scope, e), e, key, key.0 == Skill && key.1 in skills, false, (0, 0, 0))
    decreases |skills|
  {
    if |skills| > 0 {
      assert skills == skills[..|skills| - 1] + [skills[|skills| - 1]];
      ExposeNode(g, skills[..|skills| - 1], scope, e, key);
    }
  }

  lemma {:induction false} ProvideNode(g: Graph, capability: string, sources: seq<string>, e: Event, key: Key)
    requires GivenScope(e) == RunScope(e)
    ensures NodeFollows(g, Provide(g, capability, sources, e), e, key, key.0 == Source && key.1 in sources, false,
                        (0, 0, 0))
    decreases |sources|
  {
    if |sources| > 0 {
      assert sources == sources[..|sources| - 1] + [sources[|sources| - 1]];
      ProvideNode(g, capability, sources[..|sources| - 1], e, key);
    }
  }

  lemma {:induction false} IndexNode(g: Graph, e: Event, key: Key)
    requires e.payload.Indexed?
    ensures NodeFollows(g, Index(g, e.payload.capability, e.payload.sources, e), e, key, Brings(g, e, key), false,
                        (0, 0, 0))
  {
    var first := (ExistingKind(g.nodes, e.payload.capability), e.payload.capability);
    ResolvesExactly(g.nodes, e.payload.capability, key);
    ProvideNode(g.(nodes := EnsureNode(g.nodes, first, RunScope(e), e)), e.payload.capability, e.payload.sources, e,
                key);
  }

  lemma {:induction false} TouchNode(g: Graph, touched: Key, scope: string, e: Event, key: Key)
    requires GivenScope(e) == scope
    ensures NodeFollows(g, Touch(g, touched, scope, e), e, key, key == touched, false, (0, 0, 0))
  {
  }

  lemma {:induction false} CreditNode(g: Graph, e: Event, key: Key)
    requires e.payload.CapabilityEvidence? && e.trusted
    ensures var h := Credit(g, e.payload.capability, e.payload.outcome, e);
            NodeFollows(g, h, e, key, Brings(g, e, key), Brings(g, e, key), AllHits(g, e, key))
  {
    ResolvesExactly(g.nodes, e.payload.capability, key);
  }

  lemma {:induction false} GrowsTwice(was: Node, middle: Node, after: Node, e: Event, k: nat)
    requires Grown(was, middle, e, k > 0, k > 0, (0, k, 0)) && Grown(middle, after, e, true, true, (0, 1, 0))
    ensures Grown(was, after, e, true, true, (0, k + 1, 0))
  {
  }

  lemma {:induction false} FailNamedNode(nodes: map<Key, Node>, name: string, e: Event, key: Key)
    requires key in nodes
    ensures key in FailNamed(nodes, name, e)
    ensures if key.1 == name then Grown(nodes[key], FailNamed(nodes, name, e)[key], e, true, true, (0, 1, 0))
            else FailNamed(nodes, name, e)[key] == nodes[key]
  {
  }

  lemma {:induction false} FailAllNode(nodes: map<Key, Node>, related: seq<string>, e: Event, key: Key)
    ensures key in FailAll(nodes, related, e) <==> key in nodes
    ensures key in nodes ==>
              var k := multiset(related)[key.1];
              Grown(nodes[key], FailAll(nodes, related, e)[key], e, k > 0, k > 0, (0, k, 0))
    decreases |related|
  {
    if |related| > 0 {
      var front, name := related[..|related| - 1], related[|related| - 1];
      var before := FailAll(nodes, front, e);
      FailAllNode(nodes, front, e, key);
      assert related == front + [name];
      if key in nodes {
        FailNamedNode(before, name, e, key);
        if key.1 == name {
          GrowsTwice(nodes[key], before[key], FailNamed(before, name, e)[key], e, multiset(front)[key.1]);
        }
      }
    }
  }

  lemma {:induction false} KnownNames(nodes: map<Key, Node>, related: seq<string>)
    ensures KnowsNone(nodes, related) <==> !exists i :: 0 <= i < |related| && Named(nodes, related[i])
  {
    if key :| key in nodes && key.1 in related {
      PresentIsNamed(nodes, key);
      var i :| 0 <= i < |related| && related[i] == key.1;
      assert Named(nodes, related[i]);
    }
  }

  lemma {:induction false} FailKnownNode(g: Graph, e: Event, key: Key)
    requires e.payload.Failure? && e.trusted && !KnowsNone(g.nodes, e.payload.related)
    ensures var h := FailRelated(g, e.payload.related, e);
            NodeFollows(g, h, e, key, false, AllHits(g, e, key) != (0, 0, 0), AllHits(g, e, key))
  {
    FailAllNode(g.nodes, e.payload.related, e, key);
    KnownNames(g.nodes, e.payload.related);
  }

  lemma {:induction false} FailLatestNode(g: Graph, e: Event, key: Key)
    requires e.payload.Failure? && e.trusted && KnowsNone(g.nodes, e.payload.related)
    ensures var h := FailRelated(g, e.payload.related, e);
            NodeFollows(g, h, e, key, false, AllHits(g, e, key) != (0, 0, 0), AllHits(g, e, key))
  {
    var related := e.payload.related;
    var failed := g.(nodes := FailAll(g.nodes, related, e));
    FailAllNode(g.nodes, related, e, key);
    KnownNames(g.nodes, related);
    assert FailRelated(g, related, e) == ScoreLast(failed, Failed, e);
    if key in g.nodes { ScoredAlone(g.nodes[key], failed.nodes[key], e); }
  }

  lemma {:induction false} ScoredAlone(was: Node, same: Node, e: Event)
    requires Grown(was, same, e, false, false, (0, 0, 0))
    ensures Grown(was, Scored(same, Failed, e), e, true, true, (0, 1, 0))
  {
  }

  lemma {:induction false} FailNode(g: Graph, e: Event, key: Key)
    requires e.payload.Failure? && e.trusted
    ensures var h := FailRelated(g, e.payload.related, e);
            NodeFollows(g, h, e, key, false, Scores(g, e, key), AllHits(g, e, key))
  {
    ScoresByKind(g, e, key);
    if KnowsNone(g.nodes, e.payload.related) { FailLatestNode(g, e, key); } else { FailKnownNode(g, e, key); }
  }

  lemma {:induction false} VerifiedNode(g: Graph, e: Event, key: Key)
    requires e.payload.Verification? && e.trusted
    ensures NodeFollows(g, ApplyPayload(g, e), e, key, false, AllHits(g, e, key) != (0, 0, 0), AllHits(g, e, key))
  {
  }

  lemma {:induction false} RevokedNode(g: Graph, e: Event, key: Key)
    requires e.payload.Revocation? && e.trusted
    ensures NodeFollows(g, ApplyPayload(g, e), e, key, false, Strikes(g, e, key), (0, 0, 0))
    ensures AllHits(g, e, key) == (0, 0, 0)
  {
  }

  lemma {:induction false} IgnoredNode(g: Graph, e: Event, key: Key)
    requires e.payload.Other? || (Reports(e.payload) && !e.trusted)
    ensures NodeFollows(g, ApplyPayload(g, e), e, key, false, false, (0, 0, 0))
    ensures AllHits(g, e, key) == (0, 0, 0) && !Strikes(g, e, key) && !Brings(g, e, key)
  {
  }

  lemma {:induction false} MentionNode(g: Graph, e: Event, key: Key)
    requires Mentions(e.payload)
    ensures NodeFollows(g, ApplyPayload(g, e), e, key, Brings(g, e, key), false, (0, 0, 0))
  {
    var n := Noted(g, e);
    match e.payload
    case ToolCall(tool) => TouchNode(n, (Tool, tool), RunScope(e), e, key);
    case SkillLoaded(skill, scope) => TouchNode(n, (Skill, skill), scope, e, key);
    case ModelCall(profile) => TouchNode(n, (Model, profile), RunScope(e), e, key);
    case MemoryAppended(node, scope) => TouchNode(n, (Memory, node), scope, e, key);
    case Imported(source) => TouchNode(n, (Source, source), RunScope(e), e, key);
  }

  lemma {:induction false} ListNode(g: Graph, e: Event, key: Key)
    requires e.payload.SkillsExposed? || e.payload.Indexed? || e.payload.Planned?
    ensures NodeFollows(g, ApplyPayload(g, e), e, key, Brings(g, e, key), false, (0, 0, 0))
  {
    var n := Noted(g, e);
    match e.payload
    case SkillsExposed(skills, scope) => ExposeNode(n, skills, scope, e, key);
    case Indexed(_, _) => IndexNode(n, e, key);
    case Planned(backend, scope) => TouchNode(n, (Backend, "backend:" + backend), scope, e, key);
  }

  lemma {:induction false} ReportNode(g: Graph, e: Event, key: Key)
    requires Reports(e.payload) || e.payload.Other?
    ensures NodeFollows(g, ApplyPayload(g, e), e, key, Brings(g, e, key), Scores(g, e, key) || Strikes(g, e, key),
                        AllHits(g, e, key))
  {
    var n := Noted(g, e);
    if e.payload.CapabilityEvidence? && e.trusted {
      CreditNode(n, e, key);
      ScoresByKind(g, e, key);
      CreditHits(g, e, key);
    } else if e.payload.Failure? && e.trusted {
      FailNode(n, e, key);
    } else if e.payload.Verification? && e.trusted {
      ScoresByKind(g, e, key);
      VerifiedNode(g, e, key);
    } else if e.payload.Revocation? && e.trusted {
      ScoresByKind(g, e, key);
      RevokedNode(g, e, key);
    } else {
      ScoresByKind(g, e, key);
      IgnoredNode(g, e, key);
    }
  }

  /** An event leaves every node as it says: brought or cited, its counts raised, as recent as the event once
      scored or struck. */
  lemma {:induction false} NodeFollowsEvent(g: Graph, e: Event, key: Key)
    ensures NodeFollows(g, Apply(g, e), e, key, Brings(g, e, key), Scores(g, e, key) || Strikes(g, e, key),
                        AllHits(g, e, key))
  {
    var v := Versioned(g, e);
    VersionedSaysTheSame(g, e, key);
    if Reports(e.payload) || e.payload.Other? {
      ReportNode(v, e, key);
    } else {
      SilentHits(g, e, key);
      if Mentions(e.payload) { MentionNode(v, e, key); } else { ListNode(v, e, key); }
    }
  }

  lemma {:induction false} CreditHits(g: Graph, e: Event, key: Key)
    requires e.payload.CapabilityEvidence? && e.trusted
    ensures AllHits(g, e, key) != (0, 0, 0) <==> Brings(g, e, key)
    ensures !Strikes(g, e, key)
  {
  }

  lemma {:induction false} SilentHits(g: Graph, e: Event, key: Key)
    requires !Reports(e.payload)
    ensures AllHits(g, e, key) == (0, 0, 0) && !Scores(g, e, key) && !Strikes(g, e, key)
  {
    ScoresByKind(g, e, key);
  }

  /** What an event says does not depend on versions and noted evidence. */
  lemma {:induction false} VersionedSaysTheSame(g: Graph, e: Event, key: Key)
    ensures var v := Versioned(g, e);
            && v.nodes == g.nodes && (Brings(v, e, key) <==> Brings(g, e, key))
            && AllHits(v, e, key) == AllHits(g, e, key)
            && (Scores(v, e, key) <==> Scores(g, e, key)) && (Strikes(v, e, key) <==> Strikes(g, e, key))
  {
    ScoresByKind(Versioned(g, e), e, key);
    ScoresByKind(g, e, key);
  }

  // ----- one event, beside the nodes -----

  /** The event makes the node its run's latest resource. */
  ghost predicate Leaves(g: Graph, e: Event, key: Key) {
    match e.payload
    case ToolCall(tool) => key == (Tool, tool)
    case SkillsExposed(skills, _) => |skills| > 0 && key == (Skill, skills[|skills| - 1])
    case SkillLoaded(skill, _) => key == (Skill, skill)
    case ModelCall(profile) => key == (Model, profile)
    case MemoryAppended(node, _) => key == (Memory, node)
    case Imported(source) => key == (Source, source)
    case Indexed(capability, _) => Resolves(g.nodes, capability, key)
    case Planned(backend, _) => key == (Backend, "backend:" + backend)
    case CapabilityEvidence(capability, _) => e.trusted && Resolves(g.nodes, capability, key)
    case _ => false
  }

  /** The event draws the edge, or cites it again: from each source it lists to the capability, or from the run's
      latest resource to the backend it plans on. */
  ghost predicate Links(g: Graph, e: Event, key: EdgeKey) {
    match e.payload
    case Indexed(capability, sources) =>
      key.from in sources && key.to == capability && key.relation == Provides && key.scope == "run:" + e.run
    case Planned(backend, scope) =>
      e.run in g.last && key.from == g.last[e.run].1 && key.to == "backend:" + backend && key.relation == UsedBy
        && key.scope == scope
    case _ => false
  }

  /** Reports count only when trusted, and a verification only after the run has used something. */
  ghost predicate Records(g: Graph, e: Event) {
    match e.payload
    case CapabilityEvidence(_, _) => e.trusted
    case Verification(_) => e.trusted && e.run in g.last
    case Failure(_) => e.trusted
    case Revocation(_) => e.trusted
    case Other => false
    case _ => true
  }

  ghost predicate EdgeFollows(g: Graph, h: Graph, e: Event, key: EdgeKey, links: bool) {
    && (key in h.edges <==> key in g.edges || links)
    && (key in h.edges ==>
          var was := if key in g.edges then g.edges[key] else Edge(e.at, []);
          && h.edges[key].freshAt == (if links && e.at > was.freshAt then e.at else was.freshAt)
          && h.edges[key].evidence == if links && e.id !in was.evidence then was.evidence + [e.id] else was.evidence)
  }

  lemma {:induction false} ExposeBeside(g: Graph, skills: seq<string>, scope: string, e: Event)
    ensures var h := Expose(g, skills, scope, e);
            h.edges == g.edges && h.evidence == g.evidence
            && h.last == if |skills| > 0 then g.last[e.run := (Skill, skills[|skills| - 1])] else g.last
    decreases |skills|
  {
    if |skills| > 0 { ExposeBeside(g, skills[..|skills| - 1], scope, e); }
  }

  lemma {:induction false} ProvideBeside(g: Graph, capability: string, sources: seq<string>, e: Event, key: EdgeKey)
    ensures var h := Provide(g, capability, sources, e);
            && h.evidence == g.evidence && h.last == g.last
            && EdgeFollows(g, h, e, key, key.from in sources && key.to == capability && key.relation == Provides
                                         && key.scope == "run:" + e.run)
    decreases |sources|
  {
    if |sources| > 0 {
      assert sources == sources[..|sources| - 1] + [sources[|sources| - 1]];
      ProvideBeside(g, capability, sources[..|sources| - 1], e, key);
    }
  }

  lemma {:induction false} IndexEdges(g: Graph, e: Event, key: EdgeKey)
    requires e.payload.Indexed?
    ensures EdgeFollows(g, Index(g, e.payload.capability, e.payload.sources, e), e, key, Links(g, e, key))
  {
    var first := (ExistingKind(g.nodes, e.payload.capability), e.payload.capability);
    ProvideBeside(g.(nodes := EnsureNode(g.nodes, first, RunScope(e), e)), e.payload.capability, e.payload.sources, e,
                  key);
  }

  lemma {:induction false} PlanEdges(g: Graph, e: Event, key: EdgeKey)
    requires e.payload.Planned?
    ensures EdgeFollows(g, Plan(g, e.payload.backend, e.payload.scope, e), e, key, Links(g, e, key))
  {
  }

  lemma {:induction false} OtherEdges(g: Graph, e: Event, key: EdgeKey)
    requires !e.payload.Indexed? && !e.payload.Planned?
    ensures ApplyPayload(g, e).edges == g.edges && !Links(g, e, key)
  {
    if e.payload.SkillsExposed? { ExposeBeside(Noted(g, e), e.payload.skills, e.payload.scope, e); }
  }

  /** An event draws exactly the edges it says. */
  lemma {:induction false} EdgeFollowsEvent(g: Graph, e: Event, key: EdgeKey)
    ensures EdgeFollows(g, Apply(g, e), e, key, Links(g, e, key))
  {
    var v := Versioned(g, e);
    if e.payload.Indexed? {
      IndexEdges(Noted(v, e), e, key);
    } else if e.payload.Planned? {
      PlanEdges(Noted(v, e), e, key);
    } else {
      OtherEdges(v, e, key);
    }
  }

  lemma {:induction false} EvidenceFollowsEvent(g: Graph, e: Event)
    ensures Apply(g, e).evidence == if Records(g, e) then g.evidence + {e.id} else g.evidence
  {
    var n := Noted(Versioned(g, e), e);
    if e.payload.SkillsExposed? { ExposeBeside(n, e.payload.skills, e.payload.scope, e); }
    if e.payload.Indexed? {
      var first := (ExistingKind(n.nodes, e.payload.capability), e.payload.capability);
      ProvideBeside(n.(nodes := EnsureNode(n.nodes, first, RunScope(e), e)), e.payload.capability, e.payload.sources, e,
                    EdgeKey("", "", Provides, ""));
    }
  }

  /** The node the event leaves as the latest, if there is one. */
  ghost function LeftBy(g: Graph, e: Event): Option<Key> {
    match e.payload
    case ToolCall(tool) => Some((Tool, tool))
    case SkillsExposed(skills, _) => if |skills| > 0 then Some((Skill, skills[|skills| - 1])) else None
    case SkillLoaded(skill, _) => Some((Skill, skill))
    case ModelCall(profile) => Some((Model, profile))
    case MemoryAppended(node, _) => Some((Memory, node))
    case Imported(source) => Some((Source, source))
    case Indexed(capability, _) => Some((ExistingKind(g.nodes, capability), capability))
    case Planned(backend, _) => Some((Backend, "backend:" + backend))
    case CapabilityEvidence(capability, _) =>
      if e.trusted then Some((ExistingKind(g.nodes, capability), capability)) else None
    case _ => None
  }

  lemma {:induction false} LeavesExactly(g: Graph, e: Event, key: Key)
    ensures Leaves(g, e, key) <==> LeftBy(g, e) == Some(key)
  {
    if e.payload.Indexed? || e.payload.CapabilityEvidence? { ResolvesExactly(g.nodes, e.payload.capability, key); }
  }

  lemma {:induction false} LastAfter(g: Graph, e: Event)
    ensures Apply(g, e).last ==
            if LeftBy(g, e).Some? then g.last[e.run := LeftBy(g, e).value] else g.last
  {
    var v := Versioned(g, e);
    assert LeftBy(v, e) == LeftBy(g, e);
    if e.payload.Indexed? { IndexLast(v, e); } else { OtherLast(v, e); }
  }

  lemma {:induction false} IndexLast(g: Graph, e: Event)
    requires e.payload.Indexed?
    ensures ApplyPayload(g, e).last == g.last[e.run := (ExistingKind(g.nodes, e.payload.capability),
                                                        e.payload.capability)]
  {
    var n := Noted(g, e);
    var first := (ExistingKind(n.nodes, e.payload.capability), e.payload.capability);
    ProvideBeside(n.(nodes := EnsureNode(n.nodes, first, RunScope(e), e)), e.payload.capability, e.payload.sources, e,
                  EdgeKey("", "", Provides, ""));
  }

  lemma {:induction false} OtherLast(g: Graph, e: Event)
    requires !e.payload.Indexed?
    ensures ApplyPayload(g, e).last ==
            if LeftBy(g, e).Some? then g.last[e.run := LeftBy(g, e).value] else g.last
  {
    if e.payload.SkillsExposed? { ExposeBeside(Noted(g, e), e.payload.skills, e.payload.scope, e); }
  }

  /** An event moves the latest resource of its own run only, and only to the node it leaves. */
  lemma {:induction false} LatestFollowsEvent(g: Graph, e: Event, run: string, key: Key)
    ensures IsLatest(Apply(g, e), run, key) <==>
            (run == e.run && Leaves(g, e, key))
            || (IsLatest(g, run, key) && (run != e.run || forall other :: !Leaves(g, e, other)))
  {
    LastAfter(g, e);
    forall other ensures Leaves(g, e, other) <==> LeftBy(g, e) == Some(other) { LeavesExactly(g, e, other); }
  }

  // ----- a whole log -----

  function Before(events: seq<Event>, i: int): Graph
    requires 0 <= i < |events|
  {
    Fold(events[..i])
  }

  ghost predicate BroughtAt(events: seq<Event>, i: int, key: Key) {
    0 <= i < |events| && Brings(Before(events, i), events[i], key)
  }

  ghost predicate LinkedAt(events: seq<Event>, i: int, key: EdgeKey) {
    0 <= i < |events| && Links(Before(events, i), events[i], key)
  }

  ghost predicate RecordedAt(events: seq<Event>, i: int) {
    0 <= i < |events| && Records(Before(events, i), events[i])
  }

  ghost predicate LeftAt(events: seq<Event>, i: int, run: string, key: Key) {
    0 <= i < |events| && events[i].run == run && Leaves(Before(events, i), events[i], key)
  }

  lemma {:induction false} BeforeInFront(events: seq<Event>, i: int)
    requires 0 <= i < |events| - 1
    ensures Before(events[..|events| - 1], i) == Before(events, i) && events[..|events| - 1][i] == events[i]
  {
    assert events[..|events| - 1][..i] == events[..i];
  }

  lemma {:induction false} PlusTwice(n: nat, k: nat)
    ensures (n % 0x1_0000_0000 + k) % 0x1_0000_0000 == (n + k) % 0x1_0000_0000
  {
  }

  lemma {:induction false} UnbroughtHits(g: Graph, e: Event, key: Key, outcome: Evidence)
    requires key !in g.nodes && !Brings(g, e, key)
    ensures Hits(g, e, key, outcome) == 0
  {
  }

  lemma {:induction false} PresenceFollows(g: Graph, e: Event, key: Key)
    ensures key in Apply(g, e).nodes <==> key in g.nodes || Brings(g, e, key)
  {
    NodeFollowsEvent(g, e, key);
  }

  /** The nodes of the graph are those that some event brought. */
  lemma {:induction false} NodesExactly(events: seq<Event>, key: Key)
    ensures key in Fold(events).nodes <==> exists i :: BroughtAt(events, i, key)
    decreases |events|
  {
    if |events| > 0 {
      var front, last := events[..|events| - 1], |events| - 1;
      NodesExactly(front, key);
      PresenceFollows(Fold(front), events[last], key);
      forall i | 0 <= i < last ensures BroughtAt(events, i, key) <==> BroughtAt(front, i, key) {
        BeforeInFront(events, i);
      }
      assert BroughtAt(events, last, key) <==> Brings(Fold(front), events[last], key);
      if key in Fold(front).nodes {
        var i :| BroughtAt(front, i, key);
        assert BroughtAt(events, i, key);
      }
    }
  }

  lemma {:induction false} LinkedSnoc(events: seq<Event>, key: EdgeKey, was: bool, now: bool)
    requires |events| > 0
    requires was <==> var front := events[..|events| - 1]; exists i :: LinkedAt(front, i, key)
    requires now <==> was || LinkedAt(events, |events| - 1, key)
    ensures now <==> exists i :: LinkedAt(events, i, key)
  {
    var front, last := events[..|events| - 1], |events| - 1;
    forall i | 0 <= i < last ensures LinkedAt(events, i, key) <==> LinkedAt(front, i, key) { BeforeInFront(events, i); }
    if i :| LinkedAt(front, i, key) { assert LinkedAt(events, i, key); }
  }

  lemma {:induction false} EdgePresence(g: Graph, h: Graph, e: Event, key: EdgeKey)
    requires h == Apply(g, e)
    ensures key in h.edges <==> key in g.edges || Links(g, e, key)
  {
    EdgeFollowsEvent(g, e, key);
  }

  /** The edges of the graph are those that some event drew. */
  lemma {:induction false} EdgesExactly(events: seq<Event>, key: EdgeKey)
    ensures key in Fold(events).edges <==> exists i :: LinkedAt(events, i, key)
    decreases |events|
  {
    if |events| > 0 {
      var front := events[..|events| - 1];
      EdgesExactly(front, key);
      EdgePresence(Fold(front), Fold(events), events[|events| - 1], key);
      LinkedSnoc(events, key, key in Fold(front).edges, key in Fold(events).edges);
    }
  }

  lemma {:induction false} RecordedSnoc(events: seq<Event>, id: string, was: bool, now: bool)
    requires |events| > 0
    requires was <==> var front := events[..|events| - 1]; exists i :: RecordedAt(front, i) && front[i].id == id
    requires now <==> was || (RecordedAt(events, |events| - 1) && events[|events| - 1].id == id)
    ensures now <==> exists i :: RecordedAt(events, i) && events[i].id == id
  {
    var front, last := events[..|events| - 1], |events| - 1;
    forall i | 0 <= i < last ensures RecordedAt(events, i) <==> RecordedAt(front, i) { BeforeInFront(events, i); }
    if i :| RecordedAt(front, i) && front[i].id == id { assert RecordedAt(events, i) && events[i].id == id; }
  }

  /** The snapshot's evidence names exactly the events that were recorded. */
  lemma {:induction false} EvidenceExactly(events: seq<Event>, id: string)
    ensures id in Fold(events).evidence <==> exists i :: RecordedAt(events, i) && events[i].id == id
    decreases |events|
  {
    if |events| > 0 {
      var front, e := events[..|events| - 1], events[|events| - 1];
      EvidenceExactly(front, id);
      EvidenceFollowsEvent(Fold(front), e);
      assert RecordedAt(events, |events| - 1) <==> Records(Fold(front), e);
      RecordedSnoc(events, id, id in Fold(front).evidence, id in Fold(events).evidence);
    }
  }

  ghost predicate LastLeft(events: seq<Event>, i: int, run: string, key: Key) {
    LeftAt(events, i, run, key) && forall j, other :: i < j ==> !LeftAt(events, j, run, other)
  }

  lemma {:induction false} LeftInFront(events: seq<Event>, i: int, run: string, key: Key)
    requires |events| > 0 && i < |events| - 1
    ensures LeftAt(events, i, run, key) <==> LeftAt(events[..|events| - 1], i, run, key)
  {
    if 0 <= i { BeforeInFront(events, i); }
  }

  /** The last event of the log leaves some resource as its run's latest. */
  ghost predicate LeavesAny(events: seq<Event>, run: string)
    requires |events| > 0
  {
    var last := |events| - 1;
    exists other :: LeftAt(events, last, run, other)
  }

  lemma {:induction false} LastLeftSnoc(events: seq<Event>, i: int, run: string, key: Key)
    requires |events| > 0
    ensures LastLeft(events, i, run, key) <==>
            (i == |events| - 1 && LeftAt(events, i, run, key))
            || (LastLeft(events[..|events| - 1], i, run, key)
                && !LeavesAny(events, run))
  {
    var last := |events| - 1;
    forall j, other | j < last ensures LeftAt(events, j, run, other) <==> LeftAt(events[..last], j, run, other) {
      LeftInFront(events, j, run, other);
    }
  }

  lemma {:induction false} LatestSnoc(events: seq<Event>, run: string, key: Key, was: bool, now: bool)
    requires |events| > 0
    requires var front := events[..|events| - 1];
             was <==> exists i :: LastLeft(front, i, run, key)
    requires now <==> LeftAt(events, |events| - 1, run, key) || (was && !LeavesAny(events, run))
    ensures now <==> exists i :: LastLeft(events, i, run, key)
  {
    var front, last := events[..|events| - 1], |events| - 1;
    forall i ensures LastLeft(events, i, run, key) <==>
                     (i == last && LeftAt(events, i, run, key))
                     || (LastLeft(front, i, run, key) && !LeavesAny(events, run))
    {
      LastLeftSnoc(events, i, run, key);
    }
    if was && !LeavesAny(events, run) {
      var i :| LastLeft(front, i, run, key);
      assert LastLeft(events, i, run, key);
    }
    if LeftAt(events, last, run, key) { assert LastLeft(events, last, run, key); }
  }

  lemma {:induction false} LeavesAtEnd(events: seq<Event>, run: string, key: Key)
    requires |events| > 0
    ensures IsLatest(Fold(events), run, key) <==>
            LeftAt(events, |events| - 1, run, key)
            || (IsLatest(Fold(events[..|events| - 1]), run, key) && !LeavesAny(events, run))
  {
    var last := |events| - 1;
    var g := Fold(events[..last]);
    LatestFollowsEvent(g, events[last], run, key);
    assert forall other :: LeftAt(events, last, run, other) <==>
           events[last].run == run && Leaves(g, events[last], other);
  }

  /** The run's latest resource is what the last event of the run that leaves one left. */
  lemma {:induction false} LatestExactly(events: seq<Event>, run: string, key: Key)
    ensures IsLatest(Fold(events), run, key) <==> exists i :: LastLeft(events, i, run, key)
    decreases |events|
  {
    if |events| > 0 {
      var front := events[..|events| - 1];
      LatestExactly(front, run, key);
      LeavesAtEnd(events, run, key);
      LatestSnoc(events, run, key, IsLatest(Fold(front), run, key), IsLatest(Fold(events), run, key));
    }
  }

  // ----- the course of one node -----

  /** What one event says of a node: that it brings it, that it scores or strikes it, and how often it counts each
      outcome for it. */
  datatype Said = Said(brings: bool, touches: bool, hits: (nat, nat, nat))

  ghost function SaidOf(g: Graph, e: Event, key: Key): Said {
    Said(Brings(g, e, key), Scores(g, e, key) || Strikes(g, e, key), AllHits(g, e, key))
  }

  /** What each event of the log says of the node. */
  ghost function Story(events: seq<Event>, key: Key): seq<Said> {
    seq(|events|, i requires 0 <= i < |events| => SaidOf(Before(events, i), events[i], key))
  }

  ghost function NodeIn(g: Graph, key: Key): Option<Node> { if key in g.nodes then Some(g.nodes[key]) else None }

  /** The node after each prefix of the log. */
  ghost function Course(events: seq<Event>, key: Key): seq<Option<Node>> {
    seq(|events| + 1, i requires 0 <= i <= |events| => NodeIn(Fold(events[..i]), key))
  }

  function Fresh(key: Key, e: Event): Node { Node(key.1, key.0, GivenScope(e), true, 0, 0, 0, e.at, []) }

  ghost predicate Follows(was: Option<Node>, now: Option<Node>, key: Key, e: Event, said: Said) {
    && (now.Some? <==> was.Some? || said.brings)
    && (now.None? ==> !said.touches && said.hits == (0, 0, 0))
    && (now.Some? ==>
          Grown(if was.Some? then was.value else Fresh(key, e), now.value, e, said.brings || said.touches, said.touches,
                said.hits))
  }

  ghost predicate Told(events: seq<Event>, key: Key, story: seq<Said>, course: seq<Option<Node>>) {
    && |story| == |events| && |course| == |events| + 1 && course[0] == None
    && forall i {:trigger story[i]} :: 0 <= i < |events| ==>
                                         Follows(course[i], course[i + 1], key, events[i], story[i])
  }

  lemma {:induction false} SilentWhileAbsent(g: Graph, e: Event, key: Key)
    requires key !in g.nodes && !Brings(g, e, key)
    ensures AllHits(g, e, key) == (0, 0, 0) && !Scores(g, e, key) && !Strikes(g, e, key)
  {
    forall outcome ensures Hits(g, e, key, outcome) == 0 { UnbroughtHits(g, e, key, outcome); }
  }

  lemma {:induction false} NodeFollowsSaid(g: Graph, h: Graph, e: Event, key: Key)
    requires h == Apply(g, e)
    ensures Follows(NodeIn(g, key), NodeIn(h, key), key, e, SaidOf(g, e, key))
  {
    NodeFollowsEvent(g, e, key);
    if key !in h.nodes { SilentWhileAbsent(g, e, key); }
  }

  lemma {:induction false} FoldStep(events: seq<Event>, i: nat)
    requires i < |events|
    ensures Fold(events[..i + 1]) == Apply(Before(events, i), events[i])
  {
    assert events[..i + 1][..i] == events[..i];
  }

  /** The course of a node is the story of what the events say of it. */
  lemma {:induction false} StoryIsTold(events: seq<Event>, key: Key)
    ensures Told(events, key, Story(events, key), Course(events, key))
    ensures Course(events, key)[|events|] == NodeIn(Fold(events), key)
  {
    var story, course := Story(events, key), Course(events, key);
    assert events[..|events|] == events && events[..0] == [];
    forall i | 0 <= i < |events| ensures Follows(course[i], course[i + 1], key, events[i], story[i]) {
      FoldStep(events, i);
      NodeFollowsSaid(Before(events, i), Fold(events[..i + 1]), events[i], key);
    }
  }

  /** How often a story counts each outcome. */
  function Tally(story: seq<Said>): (nat, nat, nat) {
    if |story| == 0 then (0, 0, 0)
    else
      var before, last := Tally(story[..|story| - 1]), story[|story| - 1].hits;
      (before.0 + last.0, before.1 + last.1, before.2 + last.2)
  }

  /** The node's counts are the tally, modulo 2^32. */
  ghost predicate Tallied(node: Option<Node>, tally: (nat, nat, nat)) {
    if node.None? then tally == (0, 0, 0)
    else
      && node.value.passed == tally.0 % 0x1_0000_0000
      && node.value.failed == tally.1 % 0x1_0000_0000
      && node.value.unverifiable == tally.2 % 0x1_0000_0000
  }

  lemma {:induction false} TalliedSoFar(
      events: seq<Event>, key: Key, story: seq<Said>, course: seq<Option<Node>>, n: nat)
    requires Told(events, key, story, course) && n <= |events|
    ensures Tallied(course[n], Tally(story[..n]))
  {
    if n > 0 {
      TalliedSoFar(events, key, story, course, n - 1);
      var before, hits := Tally(story[..n - 1]), story[n - 1].hits;
      assert story[..n][..n - 1] == story[..n - 1];
      assert Follows(course[n - 1], course[n], key, events[n - 1], story[n - 1]);
      PlusTwice(before.0, hits.0);
      PlusTwice(before.1, hits.1);
      PlusTwice(before.2, hits.2);
    }
  }

  /** A node's counts are what the whole log counts for it, modulo 2^32, and nothing is counted for a node that
      never appeared. */
  lemma {:induction false} CountsExactly(events: seq<Event>, key: Key)
    ensures Tallied(NodeIn(Fold(events), key), Tally(Story(events, key)))
  {
    StoryIsTold(events, key);
    TalliedSoFar(events, key, Story(events, key), Course(events, key), |events|);
    assert Story(events, key)[..|events|] == Story(events, key);
  }

  ghost predicate CitedIn(events: seq<Event>, story: seq<Said>, n: nat, id: string) {
    exists i :: 0 <= i < n <= |story| && i < |events| && events[i].id == id && (story[i].brings || story[i].touches)
  }

  lemma {:induction false} CitedSoFar(
      events: seq<Event>, key: Key, story: seq<Said>, course: seq<Option<Node>>, n: nat, id: string)
    requires Told(events, key, story, course) && n <= |events|
    ensures if course[n].Some? then id in course[n].value.evidence <==> CitedIn(events, story, n, id)
            else !CitedIn(events, story, n, id)
  {
    if n > 0 {
      CitedSoFar(events, key, story, course, n - 1, id);
      assert Follows(course[n - 1], course[n], key, events[n - 1], story[n - 1]);
    }
  }

  /** A node cites exactly the events that brought, scored or struck it. */
  lemma {:induction false} CitationsExactly(events: seq<Event>, key: Key, id: string)
    requires key in Fold(events).nodes
    ensures id in Fold(events).nodes[key].evidence <==> CitedIn(events, Story(events, key), |events|, id)
  {
    StoryIsTold(events, key);
    CitedSoFar(events, key, Story(events, key), Course(events, key), |events|, id);
  }

  /** The first event to bring the node, and the one that makes it as recent as it is. */
  ghost predicate Recent(events: seq<Event>, story: seq<Said>, n: nat, node: Node, first: int, latest: int)
    requires n <= |events| == |story|
  {
    && 0 <= first < n && story[first].brings && (forall i :: 0 <= i < first ==> !story[i].brings)
    && node.scope == GivenScope(events[first])
    && first <= latest < n && (latest == first || story[latest].touches)
    && node.latestAt == events[latest].at && events[first].at <= events[latest].at
    && forall i :: 0 <= i < n && story[i].touches ==> events[i].at <= events[latest].at
  }

  lemma {:induction false} RecentNext(
      events: seq<Event>, story: seq<Said>, n: nat, was: Node, now: Node, first: int, latest: int)
    returns (later: int)
    requires n < |events| == |story| && Recent(events, story, n, was, first, latest)
    requires now.scope == was.scope
    requires now.latestAt == if story[n].touches && events[n].at > was.latestAt then events[n].at else was.latestAt
    ensures Recent(events, story, n + 1, now, first, later)
  {
    later := if story[n].touches && events[n].at > events[latest].at then n else latest;
  }

  lemma {:induction false} RecencyFollows(was: Option<Node>, now: Option<Node>, key: Key, e: Event, said: Said)
    requires Follows(was, now, key, e, said)
    ensures now.Some? <==> was.Some? || said.brings
    ensures now.None? ==> !said.touches
    ensures now.Some? && was.None? ==> now.value.scope == GivenScope(e) && now.value.latestAt == e.at
    ensures now.Some? && was.Some? ==>
              now.value.scope == was.value.scope
              && now.value.latestAt == if said.touches && e.at > was.value.latestAt then e.at else was.value.latestAt
  {
  }

  lemma {:induction false} RecentSoFar(
      events: seq<Event>, key: Key, story: seq<Said>, course: seq<Option<Node>>, n: nat)
    returns (first: int, latest: int)
    requires Told(events, key, story, course) && n <= |events|
    ensures if course[n].Some? then Recent(events, story, n, course[n].value, first, latest)
            else forall i :: 0 <= i < n ==> !story[i].brings && !story[i].touches
  {
    first, latest := n - 1, n - 1;
    if n > 0 {
      var before, last := RecentSoFar(events, key, story, course, n - 1);
      assert Follows(course[n - 1], course[n], key, events[n - 1], story[n - 1]);
      RecencyFollows(course[n - 1], course[n], key, events[n - 1], story[n - 1]);
      if course[n - 1].Some? {
        first := before;
        latest := RecentNext(events, story, n - 1, course[n - 1].value, course[n].value, before, last);
      }
    }
  }

  /** A node keeps the scope it was first brought under, and it is as recent as that event or the latest that
      scored or struck it, whichever is later. */
  lemma {:induction false} RecencyExactly(events: seq<Event>, key: Key)
    requires key in Fold(events).nodes
    ensures exists first, latest ::
              Recent(events, Story(events, key), |events|, Fold(events).nodes[key], first, latest)
  {
    StoryIsTold(events, key);
    var first, latest := RecentSoFar(events, key, Story(events, key), Course(events, key), |events|);
  }
}
