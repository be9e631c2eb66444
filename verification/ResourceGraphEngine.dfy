/** Rebuilding the resource graph in one pass over the sorted events. The maps that the pass updates are
    the fields; every lookup that must not fail is one the verifier has checked. */
module ResourceGraphEngine {
  import opened Common
  import opened Orders
  import R = ResourceGraph

  class ResourceGraphProjector {
    var versions: map<string, u64>
    var nodes: map<R.Key, R.Node>
    var edges: map<R.EdgeKey, R.Edge>
    var lastResource: map<string, R.Key>
    var evidenceRefs: set<string>

    ghost function Current(): R.Graph
      reads this
    {
      R.Graph(versions, nodes, edges, lastResource, evidenceRefs)
    }

    constructor ()
      ensures Current() == R.EMPTY
    {
      versions, nodes, edges, lastResource, evidenceRefs := map[], map[], map[], map[], {};
    }

    method EnsureNode(key: R.Key, scope: string, e: R.Event)
      modifies `nodes
      ensures nodes == R.EnsureNode(old(nodes), key, scope, e) && key in nodes
    {
      if key !in nodes {
        nodes := nodes[key := R.Node(key.1, key.0, scope, true, 0, 0, 0, e.at, [])];
      }
      nodes := nodes[key := nodes[key].(evidence := R.Cite(nodes[key].evidence, e))];
    }

    method AddEdge(key: R.EdgeKey, e: R.Event)
      modifies `edges
      ensures edges == R.AddEdge(old(edges), key, e)
    {
      if key !in edges { edges := edges[key := R.Edge(e.at, [])]; }
      var edge := edges[key];
      edges := edges[key := R.Edge(R.Max(edge.freshAt, e.at), R.Cite(edge.evidence, e))];
    }

    method ApplyOutcome(key: R.Key, outcome: R.Evidence, e: R.Event)
      requires key in nodes
      modifies `nodes
      ensures nodes == R.ScoreAt(old(nodes), key, outcome, e)
    {
      nodes := nodes[key := R.Scored(nodes[key], outcome, e)];
    }

    method Touch(key: R.Key, scope: string, e: R.Event)
      modifies `nodes, `lastResource
      ensures Current() == R.Touch(old(Current()), key, scope, e)
    {
      EnsureNode(key, scope, e);
      lastResource := lastResource[e.run := key];
    }

    method Expose(skills: seq<string>, scope: string, e: R.Event)
      modifies `nodes, `lastResource
      ensures Current() == R.Expose(old(Current()), skills, scope, e)
    {
      for i := 0 to |skills|
        invariant versions == old(versions) && edges == old(edges) && evidenceRefs == old(evidenceRefs)
        invariant Current() == R.Expose(old(Current()), skills[..i], scope, e)
      {
        assert skills[..i + 1][..i] == skills[..i];
        Touch((R.Skill, skills[i]), scope, e);
      }
      assert skills[..|skills|] == skills;
    }

    method Index(capability: string, sources: seq<string>, e: R.Event)
      modifies `nodes, `edges, `lastResource
      ensures Current() == R.Index(old(Current()), capability, sources, e)
    {
      var key := (R.ExistingKind(nodes, capability), capability);
      EnsureNode(key, R.RunScope(e), e);
      ghost var touched := Current();
      for i := 0 to |sources|
        invariant versions == old(versions) && lastResource == old(lastResource) && evidenceRefs == old(evidenceRefs)
        invariant Current() == R.Provide(touched, capability, sources[..i], e)
      {
        assert sources[..i + 1][..i] == sources[..i];
        EnsureNode((R.Source, sources[i]), R.RunScope(e), e);
        AddEdge(R.EdgeKey(sources[i], capability, R.Provides, R.RunScope(e)), e);
      }
      assert sources[..|sources|] == sources;
      lastResource := lastResource[e.run := key];
    }

    method Plan(backend: string, scope: string, e: R.Event)
      modifies `nodes, `edges, `lastResource
      ensures Current() == R.Plan(old(Current()), backend, scope, e)
    {
      var key := (R.Backend, "backend:" + backend);
      EnsureNode(key, scope, e);
      if e.run in lastResource {
        AddEdge(R.EdgeKey(lastResource[e.run].1, key.1, R.UsedBy, scope), e);
      }
      lastResource := lastResource[e.run := key];
    }

    /** The run's latest resource is a node, so the lookup cannot fail. */
    method ScoreLast(outcome: R.Evidence, e: R.Event)
      requires R.LastInv(lastResource, nodes)
      modifies `nodes
      ensures Current() == R.ScoreLast(old(Current()), outcome, e)
    {
      if e.run in lastResource { ApplyOutcome(lastResource[e.run], outcome, e); }
    }

    method FailRelated(related: seq<string>, e: R.Event)
      requires R.LastInv(lastResource, nodes)
      modifies `nodes
      ensures Current() == R.FailRelated(old(Current()), related, e)
    {
      var matched := false;
      for i := 0 to |related|
        invariant nodes == R.FailAll(old(nodes), related[..i], e) && nodes.Keys == old(nodes).Keys
        invariant matched <==> exists k :: 0 <= k < i && R.Named(old(nodes), related[k])
      {
        assert related[..i + 1][..i] == related[..i];
        if R.Named(nodes, related[i]) { matched := true; }
        nodes := R.FailNamed(nodes, related[i], e);
      }
      assert related[..|related|] == related;
      if !matched { ScoreLast(R.Failed, e); }
    }

    method ReportEvidence(e: R.Event)
      requires R.Reports(e.payload) && e.trusted && R.LastInv(lastResource, nodes)
      modifies this
      ensures Current() == R.ApplyPayload(old(Current()), e)
    {
      match e.payload
      case CapabilityEvidence(capability, outcome) =>
        var key := (R.ExistingKind(nodes, capability), capability);
        Touch(key, R.RunScope(e), e);
        ApplyOutcome(key, outcome, e);
        evidenceRefs := evidenceRefs + {e.id};
      case Verification(outcome) =>
        if e.run in lastResource {
          ScoreLast(outcome, e);
          evidenceRefs := evidenceRefs + {e.id};
        }
      case Failure(related) =>
        FailRelated(related, e);
        evidenceRefs := evidenceRefs + {e.id};
      case Revocation(target) =>
        nodes := R.RevokeNamed(nodes, target, e);
        evidenceRefs := evidenceRefs + {e.id};
    }

    method MentionResource(e: R.Event)
      requires R.Mentions(e.payload)
      modifies this
      ensures Current() == R.ApplyPayload(old(Current()), e)
    {
      match e.payload {
        case ToolCall(tool) => Touch((R.Tool, tool), R.RunScope(e), e);
        case SkillLoaded(skill, scope) => Touch((R.Skill, skill), scope, e);
        case ModelCall(profile) => Touch((R.Model, profile), R.RunScope(e), e);
        case MemoryAppended(node, scope) => Touch((R.Memory, node), scope, e);
        case Imported(source) => Touch((R.Source, source), R.RunScope(e), e);
      }
      evidenceRefs := evidenceRefs + {e.id};
    }

    method Project(e: R.Event)
      requires R.Inv(Current())
      modifies this
      ensures Current() == R.Apply(old(Current()), e)
    {
      if e.run !in versions || versions[e.run] <= e.sequence { versions := versions[e.run := e.sequence]; }
      assert Current() == R.Versioned(old(Current()), e);
      if R.Mentions(e.payload) {
        MentionResource(e);
      } else if R.Reports(e.payload) {
        if e.trusted { ReportEvidence(e); }
      } else {
        match e.payload
        case SkillsExposed(skills, scope) =>
          evidenceRefs := evidenceRefs + {e.id};
          Expose(skills, scope, e);
        case Indexed(capability, sources) =>
          evidenceRefs := evidenceRefs + {e.id};
          Index(capability, sources, e);
        case Planned(backend, scope) =>
          evidenceRefs := evidenceRefs + {e.id};
          Plan(backend, scope, e);
        case Other =>
      }
    }

    static method Rebuild(events: seq<R.Event>, reference: string, builtAt: i64)
      returns (r: Result<R.Snapshot, R.GraphError>)
      ensures r == R.Rebuild(events, reference, builtAt)
    {
      if Blank(reference) || builtAt <= 0 || |events| == 0 { return Err(R.Incomplete); }
      var ordered := Sort(events, R.EventOrder());
      if exists i :: 0 <= i < |events| && events[i].sequence == 0 { return Err(R.Unsequenced); }
      var g := new ResourceGraphProjector();
      for i := 0 to |ordered|
        invariant fresh(g) && g.Current() == R.Fold(ordered[..i])
      {
        R.FoldKeeps(ordered[..i]);
        assert ordered[..i + 1][..i] == ordered[..i];
        g.Project(ordered[i]);
      }
      assert ordered[..|ordered|] == ordered;
      if g.versions == map[] || exists run :: run in g.versions && Blank(run) { return Err(R.InvalidSnapshot); }
      return Ok(R.Snapshot(reference, g.versions, g.nodes, g.edges, g.evidenceRefs, builtAt));
    }
  }
}
