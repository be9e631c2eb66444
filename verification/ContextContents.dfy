/** What a built context and a compacted one hold, source by source. */
module ContextContents {
  import opened Common
  import opened Decimal
  import opened Orders
  import opened Scopes
  import opened Sequences
  import opened ContextAssembly

  // ----- one section -----

  /** A quarter of the characters, rounded up, but at least one. */
  predicate CostsAs(cost: nat, content: string) {
    cost >= 1 && |content| <= 4 * cost && (cost > 1 ==> 4 * (cost - 1) < |content|)
  }

  /** Only a rule from the owner or the system, under the owner's trust, is an instruction; whatever is untrusted is
      marked so. */
  predicate TreatedAs(kind: Kind, p: Provenance, treatment: Treatment) {
    && (treatment == Instruction <==> kind == Rule && p.trust == OwnerInput && p.actor in {Owner, System})
    && (treatment == UntrustedData <==> p.trust == Untrusted)
  }

  /** The candidate offers the item as it is, under the given kind; only rules are required. */
  predicate OfferedAs(c: Candidate, kind: Kind, item: Item) {
    && c.section.kind == kind && c.section.sourceRef == item.id && c.section.content == item.content
    && c.section.provenance == item.provenance && CostsAs(c.section.tokenCost, item.content)
    && TreatedAs(kind, item.provenance, c.section.treatment) && (c.required <==> kind == Rule)
  }

  lemma {:induction false} CandidateIsFaithful(kind: Kind, item: Item)
    ensures OfferedAs(AsCandidate(kind)(item), kind, item)
  {
  }

  // ----- layer by layer -----

  /** The layer offers the items at the given places of the source, in the order of the places. */
  ghost predicate OffersAt(layer: seq<Candidate>, kind: Kind, items: seq<Item>, places: seq<nat>) {
    |layer| == |places|
    && forall i :: 0 <= i < |layer| ==> places[i] < |items| && OfferedAs(layer[i], kind, items[places[i]])
  }

  ghost predicate After(k: int, places: seq<nat>) { forall i :: 0 <= i < |places| ==> places[i] < k }

  /** The places are the first `most` of those that qualify, in order. */
  ghost predicate Firsts<T>(places: seq<nat>, most: nat, s: seq<T>, qualifies: T -> bool) {
    && |places| <= most
    && (forall i, j :: 0 <= i < j < |places| ==> places[i] < places[j])
    && (forall i :: 0 <= i < |places| ==> places[i] < |s| && qualifies(s[places[i]]))
    && (forall k :: 0 <= k < |s| && qualifies(s[k]) && k !in places ==> |places| == most && After(k, places))
  }

  /** The places of what a filter keeps: all that qualify, in order. */
  lemma {:induction false} FilteredPlaces<T>(s: seq<T>, keep: T -> bool) returns (places: seq<nat>)
    ensures Places(Filter(s, keep), s, places)
    ensures forall k :: k in places <==> 0 <= k < |s| && keep(s[k])
  {
    if |s| == 0 {
      places := [];
    } else {
      var rest := FilteredPlaces(s[1..], keep);
      var shifted := seq(|rest|, i requires 0 <= i < |rest| => rest[i] + 1);
      places := (if keep(s[0]) then [0] else []) + shifted;
      ShiftedPlaces(s, keep, rest, shifted, places);
    }
  }

  lemma {:induction false} ShiftedPlaces<T>(
      s: seq<T>, keep: T -> bool, rest: seq<nat>, shifted: seq<nat>, places: seq<nat>)
    requires |s| > 0 && Places(Filter(s[1..], keep), s[1..], rest)
    requires forall k :: k in rest <==> 0 <= k < |s| - 1 && keep(s[1..][k])
    requires |shifted| == |rest| && forall i :: 0 <= i < |rest| ==> shifted[i] == rest[i] + 1
    requires places == (if keep(s[0]) then [0] else []) + shifted
    ensures Places(Filter(s, keep), s, places)
    ensures forall k :: k in places <==> 0 <= k < |s| && keep(s[k])
  {
    forall k ensures k in places <==> 0 <= k < |s| && keep(s[k]) {
      ShiftedMembers(rest, shifted, k);
      if k > 0 { assert 0 <= k < |s| ==> s[1..][k - 1] == s[k]; }
    }
    ShiftedInOrder(s, keep, rest, shifted, places);
  }

  lemma {:induction false} ShiftedInOrder<T>(
      s: seq<T>, keep: T -> bool, rest: seq<nat>, shifted: seq<nat>, places: seq<nat>)
    requires |s| > 0 && Places(Filter(s[1..], keep), s[1..], rest)
    requires |shifted| == |rest| && forall i :: 0 <= i < |rest| ==> shifted[i] == rest[i] + 1
    requires places == (if keep(s[0]) then [0] else []) + shifted
    ensures Places(Filter(s, keep), s, places)
  {
  }

  lemma {:induction false} ShiftedMembers(rest: seq<nat>, shifted: seq<nat>, k: int)
    requires |shifted| == |rest| && forall i :: 0 <= i < |rest| ==> shifted[i] == rest[i] + 1
    ensures k in shifted <==> k - 1 in rest
  {
    if k in shifted { var i :| 0 <= i < |shifted| && shifted[i] == k; }
    if k - 1 in rest {
      var i :| 0 <= i < |rest| && rest[i] == k - 1;
      assert shifted[i] == k;
    }
  }

  /** Filtering and taking the first few picks the first places that qualify. */
  lemma {:induction false} FirstFiltered<T>(s: seq<T>, keep: T -> bool, most: nat) returns (places: seq<nat>)
    ensures Firsts(places, most, s, keep)
    ensures |places| == |TakeFirst(Filter(s, keep), most)|
    ensures forall i :: 0 <= i < |places| ==> TakeFirst(Filter(s, keep), most)[i] == s[places[i]]
  {
    var all := FilteredPlaces(s, keep);
    places := TakeFirst(all, most);
    forall i | 0 <= i < |places| ensures places[i] < |s| && keep(s[places[i]]) { assert all[i] in all; }
    forall k | 0 <= k < |s| && keep(s[k]) && k !in places ensures |places| == most && After(k, places) {
      LeftOutIsLater(all, most, k);
    }
  }

  lemma {:induction false} TakenIsIn(all: seq<nat>, most: nat, j: int)
    ensures 0 <= j < |all| && j < most ==> all[j] in TakeFirst(all, most)
  {
    if 0 <= j < |all| && j < most { assert TakeFirst(all, most)[j] == all[j]; }
  }

  lemma {:induction false} LeftOutIsLater(all: seq<nat>, most: nat, k: nat)
    requires forall i, j :: 0 <= i < j < |all| ==> all[i] < all[j]
    requires k in all && k !in TakeFirst(all, most)
    ensures |TakeFirst(all, most)| == most && After(k, TakeFirst(all, most))
  {
    var j :| 0 <= j < |all| && all[j] == k;
    TakenIsIn(all, most, j);
  }

  /** The rules within the count limit, all of them in order; those past it are recorded as such. */
  lemma {:induction false} RulesAreOffered(limits: Limits, ctx: RunCtx)
    ensures var layer, rules := RuleLayer(limits, ctx), ctx.sources.rules;
            && |layer| == (if |rules| <= limits.maxRules then |rules| else limits.maxRules)
            && (forall i :: 0 <= i < |layer| ==> OfferedAs(layer[i], Rule, rules[i]))
            && |OverLimitRules(limits, ctx)| == |rules| - |layer|
            && forall i :: |layer| <= i < |rules| ==>
                 OverLimitRules(limits, ctx)[i - |layer|] == Excluded(Rule, rules[i].id, CountLimit)
  {
    forall i | 0 <= i < |RuleLayer(limits, ctx)|
      ensures OfferedAs(RuleLayer(limits, ctx)[i], Rule, ctx.sources.rules[i])
    {
      CandidateIsFaithful(Rule, ctx.sources.rules[i]);
    }
  }

  /** For brain calls only: the most valuable items, most valuable first and the more urgent of equals first. */
  ghost predicate WorkspaceIsRight(limits: Limits, ctx: RunCtx, layer: seq<Candidate>) {
    if !ctx.brainCall || ctx.sources.workspace.None? then layer == []
    else exists ranked ::
           RankedItems(ctx.sources.workspace.value, ranked) && HeadOffered(ranked, limits.maxWorkspace, layer)
  }

  ghost predicate RankedItems(items: seq<WorkItem>, ranked: seq<WorkItem>) {
    && multiset(ranked) == multiset(items)
    && forall i, j :: 0 <= i < j < |ranked| ==>
         ranked[i].value > ranked[j].value
         || (ranked[i].value == ranked[j].value && ranked[i].urgency >= ranked[j].urgency)
  }

  ghost predicate HeadOffered(ranked: seq<WorkItem>, most: nat, layer: seq<Candidate>) {
    && |layer| == (if |ranked| <= most then |ranked| else most)
    && forall i :: 0 <= i < |layer| ==> OfferedAs(layer[i], AgentWorkspace, ranked[i].item)
  }

  lemma {:induction false} MoreUrgentIsWeakOrder()
    ensures WeakOrder(MoreUrgent())
  {
  }

  lemma {:induction false} WorkspaceIsOffered(limits: Limits, ctx: RunCtx)
    ensures WorkspaceIsRight(limits, ctx, WorkspaceLayer(limits, ctx))
  {
    if ctx.brainCall && ctx.sources.workspace.Some? {
      var items, layer := ctx.sources.workspace.value, WorkspaceLayer(limits, ctx);
      var ranked := Sort(items, MoreUrgent());
      MoreUrgentIsWeakOrder();
      SortSorts(items, MoreUrgent());
      forall i, j | 0 <= i < j < |ranked|
        ensures ranked[i].value > ranked[j].value
                || (ranked[i].value == ranked[j].value && ranked[i].urgency >= ranked[j].urgency)
      {
        assert !MoreUrgent()(ranked[j], ranked[i]);
      }
      forall i | 0 <= i < |layer| ensures OfferedAs(layer[i], AgentWorkspace, ranked[i].item) {
        CandidateIsFaithful(AgentWorkspace, ranked[i].item);
      }
      assert RankedItems(items, ranked) && HeadOffered(ranked, limits.maxWorkspace, layer);
    }
  }

  /** The newest entries within the limit, oldest of them first. */
  lemma {:induction false} HistoryIsOffered(limits: Limits, ctx: RunCtx)
    ensures var layer, h := HistoryLayer(limits, ctx), ctx.sources.history;
            && |layer| == (if |h| <= limits.maxHistory then |h| else limits.maxHistory)
            && forall i :: 0 <= i < |layer| ==> OfferedAs(layer[i], History, h[|h| - |layer| + i])
  {
    var layer, h := HistoryLayer(limits, ctx), ctx.sources.history;
    var dropped := |h| - |layer|;
    assert layer == Map(h[dropped..], AsCandidate(History)) by { assert h[0..] == h; }
    forall i | 0 <= i < |layer| ensures OfferedAs(layer[i], History, h[dropped + i]) {
      MappedFrom(h, dropped, i);
      CandidateIsFaithful(History, h[dropped + i]);
    }
  }

  lemma {:induction false} MappedFrom(h: seq<Item>, dropped: nat, i: nat)
    requires dropped + i < |h|
    ensures Map(h[dropped..], AsCandidate(History))[i] == AsCandidate(History)(h[dropped + i])
  {
  }

  /** The memory summary, unless it is blank. */
  lemma {:induction false} MemoryIsOffered(ctx: RunCtx)
    ensures var layer, m := MemoryLayer(ctx), ctx.sources.memory;
            if Blank(m.text) then layer == []
            else |layer| == 1 && OfferedAs(layer[0], MemorySummary, Item("memory:" + m.scope, m.text, m.provenance))
  {
    var m := ctx.sources.memory;
    CandidateIsFaithful(MemorySummary, Item("memory:" + m.scope, m.text, m.provenance));
  }

  /** The scope grants the run's scope: it is a wildcard, the same, or a parent up to a separator. */
  ghost predicate Reaches(granted: string, requested: string) {
    granted in {"*", requested}
    || exists separator, rest :: separator in {':', '/'} && Extends(granted, separator, rest, requested)
  }

  ghost predicate Extends(granted: string, separator: char, rest: string, requested: string) {
    requested == granted + [separator] + rest
  }

  lemma {:induction false} ScopeReachesExactly(granted: string, requested: string)
    ensures ScopeContains(granted, requested) <==> Reaches(granted, requested)
  {
    if StartsWith(requested, granted) && |granted| < |requested| && requested[|granted|] in {':', '/'} {
      var rest := requested[|granted| + 1..];
      assert requested == granted + [requested[|granted|]] + rest;
      assert Extends(granted, requested[|granted|], rest, requested);
    }
    if separator, rest :| separator in {':', '/'} && Extends(granted, separator, rest, requested) {
      assert requested[|granted|] == separator && requested[..|granted|] == granted;
    }
  }

  function AsItem(skill: Skill): Item { Item(skill.id, skill.summary, Provenance(System, skill.trust)) }

  /** The first skills, within the limit, whose scope grants the run's scope. */
  lemma {:induction false} SkillsAreOffered(limits: Limits, ctx: RunCtx) returns (places: seq<nat>)
    ensures Firsts(places, limits.maxSkills, ctx.sources.skills, (s: Skill) => Reaches(s.scope, ctx.scope))
    ensures OffersAt(SkillLayer(limits, ctx), SkillMetadata, Map(ctx.sources.skills, (s: Skill) => AsItem(s)), places)
  {
    var skills, keep := ctx.sources.skills, (s: Skill) => ScopeContains(s.scope, ctx.scope);
    places := FirstFiltered(skills, keep, limits.maxSkills);
    forall s: Skill ensures keep(s) <==> Reaches(s.scope, ctx.scope) { ScopeReachesExactly(s.scope, ctx.scope); }
    forall i | 0 <= i < |places|
      ensures OfferedAs(SkillLayer(limits, ctx)[i], SkillMetadata, AsItem(skills[places[i]]))
    {
      CandidateIsFaithful(SkillMetadata, AsItem(skills[places[i]]));
    }
  }

  /** The first loaded bodies, within the limit, of skills that the run selected. */
  lemma {:induction false} BodiesAreOffered(limits: Limits, ctx: RunCtx) returns (places: seq<nat>)
    ensures Firsts(places, limits.maxSkills, ctx.sources.bodies, (b: Item) => b.id in ctx.selectedSkills)
    ensures OffersAt(BodyLayer(limits, ctx), SkillBody, ctx.sources.bodies, places)
  {
    var bodies := ctx.sources.bodies;
    places := FirstFiltered(bodies, (b: Item) => b.id in ctx.selectedSkills, limits.maxSkills);
    forall i | 0 <= i < |places| ensures OfferedAs(BodyLayer(limits, ctx)[i], SkillBody, bodies[places[i]]) {
      CandidateIsFaithful(SkillBody, bodies[places[i]]);
    }
  }

  /** The first tools and slices within their limits. */
  lemma {:induction false} ToolsAndSlicesAreOffered(limits: Limits, ctx: RunCtx)
    ensures var tools, layer := ctx.sources.tools, ToolLayer(limits, ctx);
            && |layer| == (if |tools| <= limits.maxTools then |tools| else limits.maxTools)
            && forall i :: 0 <= i < |layer| ==> OfferedAs(layer[i], ToolSchema, tools[i])
    ensures var slices, layer := ctx.sources.slices, SliceLayer(limits, ctx);
            && |layer| == (if |slices| <= limits.maxSlices then |slices| else limits.maxSlices)
            && forall i :: 0 <= i < |layer| ==> OfferedAs(layer[i], Slice, slices[i])
  {
    forall i | 0 <= i < |ToolLayer(limits, ctx)|
      ensures OfferedAs(ToolLayer(limits, ctx)[i], ToolSchema, ctx.sources.tools[i])
    {
      CandidateIsFaithful(ToolSchema, ctx.sources.tools[i]);
    }
    forall i | 0 <= i < |SliceLayer(limits, ctx)|
      ensures OfferedAs(SliceLayer(limits, ctx)[i], Slice, ctx.sources.slices[i])
    {
      CandidateIsFaithful(Slice, ctx.sources.slices[i]);
    }
  }

  /** After the rules the layers follow in their fixed order: working items, history, memory, skills, their bodies,
      tools and slices. */
  lemma {:induction false} LayersInOrder(limits: Limits, ctx: RunCtx)
    ensures OptionalLayers(limits, ctx) ==
            WorkspaceLayer(limits, ctx)
            + (HistoryLayer(limits, ctx)
               + (MemoryLayer(ctx)
                  + (SkillLayer(limits, ctx)
                     + (BodyLayer(limits, ctx) + (ToolLayer(limits, ctx) + SliceLayer(limits, ctx))))))
  {
    FlattenSeven(WorkspaceLayer(limits, ctx), HistoryLayer(limits, ctx), MemoryLayer(ctx), SkillLayer(limits, ctx),
                 BodyLayer(limits, ctx), ToolLayer(limits, ctx), SliceLayer(limits, ctx));
  }

  lemma {:induction false} FlattenSeven(
      a: seq<Candidate>, b: seq<Candidate>, c: seq<Candidate>, d: seq<Candidate>, e: seq<Candidate>, f: seq<Candidate>,
      g: seq<Candidate>)
    ensures Flatten([a, b, c, d, e, f, g]) == a + (b + (c + (d + (e + (f + g)))))
  {
    FlattenCons(a, [b, c, d, e, f, g]);
    FlattenCons(b, [c, d, e, f, g]);
    FlattenCons(c, [d, e, f, g]);
    FlattenCons(d, [e, f, g]);
    FlattenCons(e, [f, g]);
    FlattenCons(f, [g]);
    FlattenCons(g, []);
    assert g + [] == g && Flatten([]) == [];
    assert [a] + [b, c, d, e, f, g] == [a, b, c, d, e, f, g] && [b] + [c, d, e, f, g] == [b, c, d, e, f, g];
    assert [c] + [d, e, f, g] == [c, d, e, f, g] && [d] + [e, f, g] == [d, e, f, g];
    assert [e] + [f, g] == [e, f, g] && [f] + [g] == [f, g] && [g] + [] == [g];
  }

  lemma {:induction false} FlattenCons(layer: seq<Candidate>, rest: seq<seq<Candidate>>)
    ensures Flatten([layer] + rest) == layer + Flatten(rest)
  {
    assert ([layer] + rest)[1..] == rest;
  }
}
