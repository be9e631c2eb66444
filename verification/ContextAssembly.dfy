/** Bounded assembly of a run's context, and the compaction that makes the next assembly fit. */
module ContextAssembly {
  import opened Common
  import opened Decimal
  import opened Orders
  import opened Scopes
  import opened Sequences

  // ----- sources -----

  datatype Actor = Owner | Agent | Subagent(run: string) | External(participant: string) | System

  datatype Trust = OwnerInput | ApprovedSource | VerifiedProcess | Untrusted

  datatype Provenance = Provenance(actor: Actor, trust: Trust)

  datatype Item = Item(id: string, content: string, provenance: Provenance)

  datatype WorkItem = WorkItem(item: Item, value: u64, urgency: u64)

  datatype Skill = Skill(id: string, summary: string, scope: string, trust: Trust)

  datatype Summary = Summary(
    schemaVersion: nat,
    scope: string,
    text: string,
    sourceRefs: seq<string>,
    rawEventCount: nat,
    isRawDump: bool,
    provenance: Provenance)

  datatype Sources = Sources(
    schemaVersion: nat,
    rules: seq<Item>,
    history: seq<Item>,
    memory: Summary,
    skills: seq<Skill>,
    bodies: seq<Item>,
    tools: seq<Item>,
    slices: seq<Item>,
    workspace: Option<seq<WorkItem>>)

  datatype RunCtx = RunCtx(
    schemaVersion: nat,
    run: string,
    session: string,
    scope: string,
    selectedSkills: seq<string>,
    brainCall: bool,
    sources: Sources)

  datatype Budget = Budget(schemaVersion: nat, maxTokens: u64, reserve: u64)

  datatype Limits = Limits(
    maxRules: nat, maxHistory: nat, maxSkills: nat, maxTools: nat, maxSlices: nat, maxWorkspace: nat)

  // ----- sections -----

  datatype Kind = Rule | AgentWorkspace | History | MemorySummary | SkillMetadata | SkillBody | ToolSchema | Slice

  datatype Treatment = Instruction | Data | UntrustedData

  datatype Section = Section(
    kind: Kind, sourceRef: string, content: string, tokenCost: nat, treatment: Treatment, provenance: Provenance)

  datatype Reason = TokensExhausted | CountLimit

  datatype Excluded = Excluded(kind: Kind, sourceRef: string, reason: Reason)

  datatype BuildError = InvalidInputs | ForeignSummary | RawDump | IncompleteSource | RulesOverflow

  datatype Context = Context(sections: seq<Section>, tokenCost: nat, excluded: seq<Excluded>)

  /** One source on its way to becoming a section. */
  datatype Candidate = Candidate(section: Section, required: bool)

  // ----- tokens -----

  /** A quarter of the characters, rounded up, and at least one. */
  function EstimateTokens(content: string): nat {
    var quarters := (|content| + 3) / 4;
    if quarters < 1 then 1 else quarters
  }

  function ItemTokens(): Item -> nat { (i: Item) => EstimateTokens(i.content) }

  function SkillTokens(): Skill -> nat { (s: Skill) => EstimateTokens(s.summary) }

  function WorkTokens(): WorkItem -> nat { (w: WorkItem) => EstimateTokens(w.item.content) }

  function WorkItems(ctx: RunCtx): seq<WorkItem> {
    if ctx.sources.workspace.Some? then ctx.sources.workspace.value else []
  }

  /** The estimate that decides whether compaction is needed. */
  function EstimateContext(ctx: RunCtx): nat {
    var s := ctx.sources;
    SumOver(s.rules, ItemTokens()) + SumOver(s.history, ItemTokens()) + EstimateTokens(s.memory.text)
    + SumOver(s.skills, SkillTokens()) + SumOver(s.bodies, ItemTokens()) + SumOver(s.tools, ItemTokens())
    + SumOver(s.slices, ItemTokens()) + SumOver(WorkItems(ctx), WorkTokens())
  }

  // ----- the layers, in the order they are offered -----

  function DataTreatment(p: Provenance): Treatment {
    if p.trust == Untrusted then UntrustedData else Data
  }

  function RuleTreatment(p: Provenance): Treatment {
    if p.trust == OwnerInput && (p.actor == Owner || p.actor == System) then Instruction else DataTreatment(p)
  }

  function AsSection(kind: Kind, i: Item): Section {
    Section(kind, i.id, i.content, EstimateTokens(i.content),
            if kind == Rule then RuleTreatment(i.provenance) else DataTreatment(i.provenance), i.provenance)
  }

  function AsCandidate(kind: Kind): Item -> Candidate {
    (i: Item) => Candidate(AsSection(kind, i), kind == Rule)
  }

  function SkillItem(): Skill -> Candidate {
    (s: Skill) => Candidate(AsSection(SkillMetadata, Item(s.id, s.summary, Provenance(System, s.trust))), false)
  }

  function WorkCandidate(): WorkItem -> Candidate {
    (w: WorkItem) => Candidate(AsSection(AgentWorkspace, w.item), false)
  }

  /** Higher value first, then higher urgency. */
  function MoreUrgent(): (WorkItem, WorkItem) -> bool {
    (a: WorkItem, b: WorkItem) => a.value > b.value || (a.value == b.value && a.urgency > b.urgency)
  }

  function RuleLayer(limits: Limits, ctx: RunCtx): seq<Candidate> {
    Map(TakeFirst(ctx.sources.rules, limits.maxRules), AsCandidate(Rule))
  }

  function WorkspaceLayer(limits: Limits, ctx: RunCtx): seq<Candidate> {
    if ctx.brainCall then Map(TakeFirst(Sort(WorkItems(ctx), MoreUrgent()), limits.maxWorkspace), WorkCandidate())
    else []
  }

  /** The newest entries. */
  function HistoryLayer(limits: Limits, ctx: RunCtx): seq<Candidate> {
    var h := ctx.sources.history;
    Map(if |h| <= limits.maxHistory then h else h[|h| - limits.maxHistory..], AsCandidate(History))
  }

  function MemoryLayer(ctx: RunCtx): seq<Candidate> {
    var m := ctx.sources.memory;
    if Blank(m.text) then [] else [AsCandidate(MemorySummary)(Item("memory:" + m.scope, m.text, m.provenance))]
  }

  function SkillLayer(limits: Limits, ctx: RunCtx): seq<Candidate> {
    Map(TakeFirst(Filter(ctx.sources.skills, (s: Skill) => ScopeContains(s.scope, ctx.scope)), limits.maxSkills),
        SkillItem())
  }

  function BodyLayer(limits: Limits, ctx: RunCtx): seq<Candidate> {
    Map(TakeFirst(Filter(ctx.sources.bodies, (i: Item) => i.id in ctx.selectedSkills), limits.maxSkills),
        AsCandidate(SkillBody))
  }

  function ToolLayer(limits: Limits, ctx: RunCtx): seq<Candidate> {
    Map(TakeFirst(ctx.sources.tools, limits.maxTools), AsCandidate(ToolSchema))
  }

  function SliceLayer(limits: Limits, ctx: RunCtx): seq<Candidate> {
    Map(TakeFirst(ctx.sources.slices, limits.maxSlices), AsCandidate(Slice))
  }

  /** Everything offered after the rules, layer by layer. */
  function Layers(limits: Limits, ctx: RunCtx): seq<seq<Candidate>> {
    [WorkspaceLayer(limits, ctx), HistoryLayer(limits, ctx), MemoryLayer(ctx), SkillLayer(limits, ctx),
     BodyLayer(limits, ctx), ToolLayer(limits, ctx), SliceLayer(limits, ctx)]
  }

  function Flatten(layers: seq<seq<Candidate>>): seq<Candidate> {
    if |layers| == 0 then [] else layers[0] + Flatten(layers[1..])
  }

  function OptionalLayers(limits: Limits, ctx: RunCtx): seq<Candidate> { Flatten(Layers(limits, ctx)) }

  function OverLimitRules(limits: Limits, ctx: RunCtx): seq<Excluded> {
    Map(Skip(ctx.sources.rules, limits.maxRules), (i: Item) => Excluded(Rule, i.id, CountLimit))
  }

  // ----- assembly -----

  datatype Partial = Partial(sections: seq<Section>, excluded: seq<Excluded>, spent: nat)

  predicate BlankSource(c: Candidate) { Blank(c.section.sourceRef) || Blank(c.section.content) }

  function Push(p: Partial, available: nat, c: Candidate): Result<Partial, BuildError> {
    if BlankSource(c) then Err(IncompleteSource)
    else if p.spent + c.section.tokenCost <= available then
      Ok(p.(sections := p.sections + [c.section], spent := p.spent + c.section.tokenCost))
    else if c.required then Err(RulesOverflow)
    else Ok(p.(excluded := p.excluded + [Excluded(c.section.kind, c.section.sourceRef, TokensExhausted)]))
  }

  function PushAll(p: Partial, available: nat, cs: seq<Candidate>): Result<Partial, BuildError>
    decreases |cs|
  {
    if |cs| == 0 then Ok(p)
    else match Push(p, available, cs[0])
      case Err(e) => Err(e)
      case Ok(q) => PushAll(q, available, cs[1..])
  }

  function ValidateBuild(ctx: RunCtx, budget: Budget): Outcome<BuildError> {
    if ctx.schemaVersion == 0 || ctx.sources.schemaVersion == 0 || budget.schemaVersion == 0
       || budget.maxTokens == 0 || budget.reserve >= budget.maxTokens then Fail(InvalidInputs)
    else if ctx.sources.memory.schemaVersion == 0 || ctx.sources.memory.scope != ctx.scope then Fail(ForeignSummary)
    else if ctx.sources.memory.isRawDump then Fail(RawDump)
    else Pass
  }

  /** The rules first, then the rules over the count limit, then everything else. */
  function Assemble(available: nat, rules: seq<Candidate>, overLimit: seq<Excluded>, rest: seq<Candidate>)
    : Result<Context, BuildError>
  {
    match PushAll(Partial([], [], 0), available, rules)
    case Err(e) => Err(e)
    case Ok(p) =>
      match PushAll(p.(excluded := p.excluded + overLimit), available, rest)
      case Err(e) => Err(e)
      case Ok(q) => Ok(Context(q.sections, q.spent, q.excluded))
  }

  function BuildFrom(ctx: RunCtx, budget: Budget, rules: seq<Candidate>, overLimit: seq<Excluded>, rest: seq<Candidate>)
    : Result<Context, BuildError>
  {
    match ValidateBuild(ctx, budget)
    case Fail(e) => Err(e)
    case Pass => Assemble(budget.maxTokens - budget.reserve, rules, overLimit, rest)
  }

  function Build(limits: Limits, ctx: RunCtx, budget: Budget): Result<Context, BuildError> {
    BuildFrom(ctx, budget, RuleLayer(limits, ctx), OverLimitRules(limits, ctx), OptionalLayers(limits, ctx))
  }

  // ----- what the greedy pass keeps -----

  function Cost(): Candidate -> nat { (c: Candidate) => c.section.tokenCost }

  function SectionOf(): Candidate -> Section { (c: Candidate) => c.section }

  function Kept(cs: seq<Candidate>, keep: seq<bool>): seq<Candidate>
    requires |cs| == |keep|
  {
    if |cs| == 0 then [] else (if keep[0] then [cs[0]] else []) + Kept(cs[1..], keep[1..])
  }

  function Dropped(cs: seq<Candidate>, keep: seq<bool>): seq<Excluded>
    requires |cs| == |keep|
  {
    if |cs| == 0 then []
    else
      var dropped := Excluded(cs[0].section.kind, cs[0].section.sourceRef, TokensExhausted);
      (if keep[0] then [] else [dropped]) + Dropped(cs[1..], keep[1..])
  }

  /** A candidate is kept exactly when it still fits after everything kept before it. */
  ghost predicate Greedy(spent: nat, available: nat, cs: seq<Candidate>, keep: seq<bool>) {
    && |cs| == |keep|
    && forall i :: 0 <= i < |cs| ==>
         (keep[i] <==> spent + SumOver(Kept(cs[..i], keep[..i]), Cost()) + cs[i].section.tokenCost <= available)
  }

  lemma {:induction false} KeptCons(cs: seq<Candidate>, keep: seq<bool>, i: nat)
    requires |cs| == |keep| && 0 < i <= |cs|
    ensures SumOver(Kept(cs[..i], keep[..i]), Cost()) ==
            (if keep[0] then cs[0].section.tokenCost else 0)
              + SumOver(Kept(cs[1..][..i - 1], keep[1..][..i - 1]), Cost())
  {
    assert cs[..i][1..] == cs[1..][..i - 1] && keep[..i][1..] == keep[1..][..i - 1];
    var rest := Kept(cs[1..][..i - 1], keep[1..][..i - 1]);
    assert ([cs[0]] + rest)[1..] == rest;
    assert [] + rest == rest;
  }

  ghost predicate Assembled(p: Partial, available: nat, cs: seq<Candidate>, keep: seq<bool>, q: Partial) {
    && Greedy(p.spent, available, cs, keep)
    && q.sections == p.sections + Map(Kept(cs, keep), SectionOf())
    && q.excluded == p.excluded + Dropped(cs, keep)
    && q.spent == p.spent + SumOver(Kept(cs, keep), Cost())
    && q.spent <= available
    && (forall i :: 0 <= i < |cs| && cs[i].required ==> keep[i])
  }

  /** Assembly keeps, in order, exactly what fits: it stays within budget, never drops a required
      section, and records everything else it drops. */
  lemma {:induction false} AssemblyIsGreedy(p: Partial, available: nat, cs: seq<Candidate>) returns (keep: seq<bool>)
    requires PushAll(p, available, cs).Ok? && p.spent <= available
    ensures Assembled(p, available, cs, keep, PushAll(p, available, cs).value)
    decreases |cs|
  {
    if |cs| == 0 {
      keep := [];
    } else {
      var q := Push(p, available, cs[0]).value;
      var rest := AssemblyIsGreedy(q, available, cs[1..]);
      keep := [p.spent + cs[0].section.tokenCost <= available] + rest;
      assert keep[1..] == rest;
      AssembledCons(p, available, cs, keep, q, PushAll(p, available, cs).value);
    }
  }

  lemma {:induction false} AssembledCons(
      p: Partial, available: nat, cs: seq<Candidate>, keep: seq<bool>, q: Partial, end: Partial)
    requires |cs| == |keep| && |cs| > 0 && (keep[0] <==> p.spent + cs[0].section.tokenCost <= available)
    requires Push(p, available, cs[0]) == Ok(q) && Assembled(q, available, cs[1..], keep[1..], end)
    ensures Assembled(p, available, cs, keep, end)
  {
    var kept := if keep[0] then [cs[0].section] else [];
    var lost := if keep[0] then [] else [Excluded(cs[0].section.kind, cs[0].section.sourceRef, TokensExhausted)];
    GreedyCons(p.spent, available, cs, keep);
    KeptSplit(cs, keep);
    RequiredCons(cs, keep);
    assert q.sections == p.sections + kept && q.excluded == p.excluded + lost;
    Reassociates(p.sections, kept, Map(Kept(cs[1..], keep[1..]), SectionOf()));
    Reassociates(p.excluded, lost, Dropped(cs[1..], keep[1..]));
  }

  lemma {:induction false} Reassociates<T>(a: seq<T>, b: seq<T>, c: seq<T>)
    ensures a + (b + c) == a + b + c
  {
  }

  /** The sections and the cost of what is kept, first candidate apart. */
  lemma {:induction false} KeptSplit(cs: seq<Candidate>, keep: seq<bool>)
    requires |cs| == |keep| && |cs| > 0
    ensures var rest := Kept(cs[1..], keep[1..]);
            && Map(Kept(cs, keep), SectionOf()) == (if keep[0] then [cs[0].section] else []) + Map(rest, SectionOf())
            && SumOver(Kept(cs, keep), Cost()) ==
               (if keep[0] then cs[0].section.tokenCost else 0) + SumOver(rest, Cost())
  {
    var first := if keep[0] then [cs[0]] else [];
    var rest := Kept(cs[1..], keep[1..]);
    assert Kept(cs, keep) == first + rest;
    SumConcat(first, rest, Cost());
  }

  lemma {:induction false} RequiredCons(cs: seq<Candidate>, keep: seq<bool>)
    requires |cs| == |keep| && |cs| > 0 && (cs[0].required ==> keep[0])
    requires forall i :: 0 <= i < |cs[1..]| && cs[1..][i].required ==> keep[1..][i]
    ensures forall i :: 0 <= i < |cs| && cs[i].required ==> keep[i]
  {
    forall i | 0 <= i < |cs| && cs[i].required ensures keep[i] {
      if i > 0 { assert cs[1..][i - 1] == cs[i] && keep[1..][i - 1] == keep[i]; }
    }
  }

  lemma {:induction false} GreedyCons(spent: nat, available: nat, cs: seq<Candidate>, keep: seq<bool>)
    requires |cs| == |keep| && |cs| > 0
    requires keep[0] <==> spent + cs[0].section.tokenCost <= available
    requires Greedy(if keep[0] then spent + cs[0].section.tokenCost else spent, available, cs[1..], keep[1..])
    ensures Greedy(spent, available, cs, keep)
  {
    forall i | 0 <= i < |cs|
      ensures keep[i] <==> spent + SumOver(Kept(cs[..i], keep[..i]), Cost()) + cs[i].section.tokenCost <= available
    {
      if i > 0 {
        KeptCons(cs, keep, i);
        assert cs[1..][i - 1] == cs[i] && keep[1..][i - 1] == keep[i];
      }
    }
  }

  lemma {:induction false} AllKept(cs: seq<Candidate>, keep: seq<bool>)
    requires |cs| == |keep| && forall i :: 0 <= i < |cs| ==> keep[i]
    ensures Kept(cs, keep) == cs && Dropped(cs, keep) == []
  {
    if |cs| > 0 { AllKept(cs[1..], keep[1..]); }
  }

  ghost predicate GreedyContext(
      available: nat, rules: seq<Candidate>, overLimit: seq<Excluded>, rest: seq<Candidate>, keep: seq<bool>,
      out: Context)
  {
    && Greedy(SumOver(rules, Cost()), available, rest, keep)
    && out.sections == Map(rules, SectionOf()) + Map(Kept(rest, keep), SectionOf())
    && out.excluded == overLimit + Dropped(rest, keep)
    && out.tokenCost == SumOver(rules, Cost()) + SumOver(Kept(rest, keep), Cost())
    && out.tokenCost <= available
  }

  /** A build that succeeds holds every rule within the count limit, first and in order; then, of what the
      other layers offer after their own filters and count limits, exactly what fits. It accounts for the rules
      over the limit and for all that is offered and does not fit, not for what the other layers cut. */
  lemma {:induction false} BuildIsGreedy(limits: Limits, ctx: RunCtx, budget: Budget) returns (keep: seq<bool>)
    requires Build(limits, ctx, budget).Ok?
    ensures GreedyContext(budget.maxTokens - budget.reserve, RuleLayer(limits, ctx), OverLimitRules(limits, ctx),
                          OptionalLayers(limits, ctx), keep, Build(limits, ctx, budget).value)
  {
    keep := AssembleIsGreedy(budget.maxTokens - budget.reserve, RuleLayer(limits, ctx), OverLimitRules(limits, ctx),
                             OptionalLayers(limits, ctx));
  }

  lemma {:induction false} AssembleIsGreedy(
      available: nat, rules: seq<Candidate>, overLimit: seq<Excluded>, rest: seq<Candidate>)
    returns (keep: seq<bool>)
    requires Assemble(available, rules, overLimit, rest).Ok?
    requires forall i :: 0 <= i < |rules| ==> rules[i].required
    ensures GreedyContext(available, rules, overLimit, rest, keep, Assemble(available, rules, overLimit, rest).value)
  {
    var start := Partial([], [], 0);
    var p := PushAll(start, available, rules).value;
    var all := AssemblyIsGreedy(start, available, rules);
    AllKept(rules, all);
    assert p.sections == Map(rules, SectionOf()) && p.excluded + overLimit == overLimit;
    keep := AssemblyIsGreedy(p.(excluded := p.excluded + overLimit), available, rest);
  }

  // ----- when everything fits -----

  predicate AnyBlank(cs: seq<Candidate>) { exists i :: 0 <= i < |cs| && BlankSource(cs[i]) }

  lemma {:induction false} AnyBlankCons(cs: seq<Candidate>)
    requires |cs| > 0
    ensures AnyBlank(cs) <==> BlankSource(cs[0]) || AnyBlank(cs[1..])
  {
    if AnyBlank(cs[1..]) {
      var i :| 0 <= i < |cs[1..]| && BlankSource(cs[1..][i]);
      assert BlankSource(cs[i + 1]);
    }
    if AnyBlank(cs) && !BlankSource(cs[0]) {
      var i :| 0 <= i < |cs| && BlankSource(cs[i]);
      assert BlankSource(cs[1..][i - 1]);
    }
  }

  /** If the total cost fits, the pass keeps every candidate, or stops at a blank source. */
  lemma {:induction false} EverythingFits(p: Partial, available: nat, cs: seq<Candidate>)
    requires p.spent + SumOver(cs, Cost()) <= available
    ensures PushAll(p, available, cs) ==
            if AnyBlank(cs) then Err(IncompleteSource)
            else Ok(Partial(p.sections + Map(cs, SectionOf()), p.excluded, p.spent + SumOver(cs, Cost())))
    decreases |cs|
  {
    if |cs| == 0 {
      assert p.sections + Map(cs, SectionOf()) == p.sections;
    } else {
      AnyBlankCons(cs);
      if !BlankSource(cs[0]) {
        var q := Push(p, available, cs[0]).value;
        EverythingFits(q, available, cs[1..]);
        assert q.sections + Map(cs[1..], SectionOf()) == p.sections + Map(cs, SectionOf());
      }
    }
  }

  // ----- the estimate covers what is selected -----

  lemma {:induction false} LayerTokens(items: seq<Item>, kind: Kind)
    ensures SumOver(Map(items, AsCandidate(kind)), Cost()) == SumOver(items, ItemTokens())
  {
    SumMap(items, AsCandidate(kind), Cost(), ItemTokens());
  }

  lemma {:induction false} WorkspaceWithinEstimate(limits: Limits, ctx: RunCtx)
    ensures SumOver(WorkspaceLayer(limits, ctx), Cost()) <= SumOver(WorkItems(ctx), WorkTokens())
  {
    if ctx.brainCall {
      var sorted := Sort(WorkItems(ctx), MoreUrgent());
      SumMap(TakeFirst(sorted, limits.maxWorkspace), WorkCandidate(), Cost(), WorkTokens());
      SumTakeFirst(sorted, limits.maxWorkspace, WorkTokens());
      SumSort(WorkItems(ctx), MoreUrgent(), WorkTokens());
    }
  }

  lemma {:induction false} SkillsWithinEstimate(limits: Limits, ctx: RunCtx)
    ensures SumOver(SkillLayer(limits, ctx), Cost()) <= SumOver(ctx.sources.skills, SkillTokens())
  {
    var inScope := (s: Skill) => ScopeContains(s.scope, ctx.scope);
    var chosen := Filter(ctx.sources.skills, inScope);
    SumMap(TakeFirst(chosen, limits.maxSkills), SkillItem(), Cost(), SkillTokens());
    SumTakeFirst(chosen, limits.maxSkills, SkillTokens());
    SumFilter(ctx.sources.skills, inScope, SkillTokens());
  }

  lemma {:induction false} BodiesWithinEstimate(limits: Limits, ctx: RunCtx)
    ensures SumOver(BodyLayer(limits, ctx), Cost()) <= SumOver(ctx.sources.bodies, ItemTokens())
  {
    var selected := (i: Item) => i.id in ctx.selectedSkills;
    var chosen := Filter(ctx.sources.bodies, selected);
    LayerTokens(TakeFirst(chosen, limits.maxSkills), SkillBody);
    SumTakeFirst(chosen, limits.maxSkills, ItemTokens());
    SumFilter(ctx.sources.bodies, selected, ItemTokens());
  }

  lemma {:induction false} HistoryWithinEstimate(limits: Limits, ctx: RunCtx)
    ensures SumOver(HistoryLayer(limits, ctx), Cost()) <= SumOver(ctx.sources.history, ItemTokens())
  {
    var h := ctx.sources.history;
    if |h| <= limits.maxHistory {
      LayerTokens(h, History);
    } else {
      LayerTokens(h[|h| - limits.maxHistory..], History);
      SumSplit(h, |h| - limits.maxHistory, ItemTokens());
    }
  }

  lemma {:induction false} PlainLayersWithinEstimate(limits: Limits, ctx: RunCtx)
    ensures SumOver(RuleLayer(limits, ctx), Cost()) <= SumOver(ctx.sources.rules, ItemTokens())
    ensures SumOver(ToolLayer(limits, ctx), Cost()) <= SumOver(ctx.sources.tools, ItemTokens())
    ensures SumOver(SliceLayer(limits, ctx), Cost()) <= SumOver(ctx.sources.slices, ItemTokens())
    ensures SumOver(MemoryLayer(ctx), Cost()) <= EstimateTokens(ctx.sources.memory.text)
  {
    LayerTokens(TakeFirst(ctx.sources.rules, limits.maxRules), Rule);
    SumTakeFirst(ctx.sources.rules, limits.maxRules, ItemTokens());
    LayerTokens(TakeFirst(ctx.sources.tools, limits.maxTools), ToolSchema);
    SumTakeFirst(ctx.sources.tools, limits.maxTools, ItemTokens());
    LayerTokens(TakeFirst(ctx.sources.slices, limits.maxSlices), Slice);
    SumTakeFirst(ctx.sources.slices, limits.maxSlices, ItemTokens());
    if !Blank(ctx.sources.memory.text) {
      var c := MemoryLayer(ctx)[0];
      assert MemoryLayer(ctx)[1..] == [];
    }
  }

  /** Whatever the limits select, sort and drop, it costs no more than the estimate. */
  lemma {:induction false} SelectionWithinEstimate(limits: Limits, ctx: RunCtx)
    ensures SumOver(RuleLayer(limits, ctx), Cost())
            + SumOver(OptionalLayers(limits, ctx), Cost()) <= EstimateContext(ctx)
  {
    PlainLayersWithinEstimate(limits, ctx);
    WorkspaceWithinEstimate(limits, ctx);
    SkillsWithinEstimate(limits, ctx);
    BodiesWithinEstimate(limits, ctx);
    HistoryWithinEstimate(limits, ctx);
    var layers := Layers(limits, ctx);
    FlattenSums(layers);
    assert LayerSums(layers) == SumOver(layers[0], Cost()) + SumOver(layers[1], Cost()) + SumOver(layers[2], Cost())
           + SumOver(layers[3], Cost()) + SumOver(layers[4], Cost()) + SumOver(layers[5], Cost())
             + SumOver(layers[6], Cost()) by {
      SevenSums(layers);
    }
  }

  function LayerSums(layers: seq<seq<Candidate>>): nat {
    if |layers| == 0 then 0 else SumOver(layers[0], Cost()) + LayerSums(layers[1..])
  }

  lemma {:induction false} FlattenSums(layers: seq<seq<Candidate>>)
    ensures SumOver(Flatten(layers), Cost()) == LayerSums(layers)
  {
    if |layers| > 0 {
      FlattenSums(layers[1..]);
      SumConcat(layers[0], Flatten(layers[1..]), Cost());
    }
  }

  lemma {:induction false} SevenSums(l: seq<seq<Candidate>>)
    requires |l| == 7
    ensures LayerSums(l) ==
            SumOver(l[0], Cost()) + SumOver(l[1], Cost()) + SumOver(l[2], Cost()) + SumOver(l[3], Cost())
                            + SumOver(l[4], Cost()) + SumOver(l[5], Cost()) + SumOver(l[6], Cost())
  {
    LayerSumsFrom(l, 1);
    LayerSumsFrom(l, 2);
    LayerSumsFrom(l, 3);
    LayerSumsFrom(l, 4);
    LayerSumsFrom(l, 5);
    LayerSumsFrom(l, 6);
    assert l[7..] == [] && l[0..] == l;
  }

  lemma {:induction false} LayerSumsFrom(l: seq<seq<Candidate>>, i: nat)
    requires i < |l|
    ensures LayerSums(l[i..]) == SumOver(l[i], Cost()) + LayerSums(l[i + 1..])
  {
    assert l[i..][0] == l[i] && l[i..][1..] == l[i + 1..];
  }

  lemma {:induction false} AssembledWhole(
      available: nat, rules: seq<Candidate>, overLimit: seq<Excluded>, rest: seq<Candidate>)
    requires SumOver(rules, Cost()) + SumOver(rest, Cost()) <= available
    ensures Assemble(available, rules, overLimit, rest) == Whole(rules, overLimit, rest)
  {
    var p := Partial([] + Map(rules, SectionOf()), [], 0 + SumOver(rules, Cost()));
    EverythingFits(Partial([], [], 0), available, rules);
    EverythingFits(p.(excluded := p.excluded + overLimit), available, rest);
    assert p.excluded + overLimit == overLimit && p.sections == Map(rules, SectionOf());
  }

  /** A context whose estimate is within budget is assembled whole: the build fails exactly on a blank
      source, and otherwise excludes nothing for tokens. */
  lemma {:induction false} WithinEstimateBuildIsLossless(limits: Limits, ctx: RunCtx, budget: Budget)
    requires ValidateBuild(ctx, budget).Pass? && EstimateContext(ctx) <= budget.maxTokens - budget.reserve
    ensures Build(limits, ctx, budget) == Lossless(limits, ctx)
  {
    SelectionWithinEstimate(limits, ctx);
    BuiltWhole(ctx, budget, RuleLayer(limits, ctx), OverLimitRules(limits, ctx), OptionalLayers(limits, ctx));
  }

  lemma {:induction false} BuiltWhole(
      ctx: RunCtx, budget: Budget, rules: seq<Candidate>, overLimit: seq<Excluded>, rest: seq<Candidate>)
    requires ValidateBuild(ctx, budget).Pass?
    requires SumOver(rules, Cost()) + SumOver(rest, Cost()) <= budget.maxTokens - budget.reserve
    ensures BuildFrom(ctx, budget, rules, overLimit, rest) == Whole(rules, overLimit, rest)
  {
    AssembledWhole(budget.maxTokens - budget.reserve, rules, overLimit, rest);
  }

  /** Every source as a section, in order; only rules over the count limit are left out. */
  function Whole(rules: seq<Candidate>, overLimit: seq<Excluded>, rest: seq<Candidate>): Result<Context, BuildError> {
    if AnyBlank(rules) || AnyBlank(rest) then Err(IncompleteSource)
    else Ok(Context(Map(rules, SectionOf()) + Map(rest, SectionOf()), SumOver(rules, Cost()) + SumOver(rest, Cost()),
                    overLimit))
  }

  function Lossless(limits: Limits, ctx: RunCtx): Result<Context, BuildError> {
    Whole(RuleLayer(limits, ctx), OverLimitRules(limits, ctx), OptionalLayers(limits, ctx))
  }

  // ----- compaction -----

  /** What the event store hands back: the preserved events with their kinds, and how far it reaches. */
  datatype Plan = Plan(preserved: seq<(string, string)>, through: nat, summary: string)

  datatype CompactError = BadBuild(error: BuildError) | NoSummary | BadRegistration | StoreFailed | NotEnough

  datatype Report = Report(plan: Plan, before: nat, after: nat)

  /** Provenance of the history entry for `event`; the last entry with that reference decides. */
  function PriorProvenance(history: seq<Item>, event: string, fallback: Provenance): Provenance {
    if |history| == 0 then fallback
    else if history[|history| - 1].id == event then history[|history| - 1].provenance
    else PriorProvenance(history[..|history| - 1], event, fallback)
  }

  function ApplyPlan(ctx: RunCtx, plan: Plan): RunCtx {
    var prior := ctx.sources;
    var kept := Map(plan.preserved, (e: (string, string)) =>
      Item(e.0, "preserved " + e.1 + " reference " + e.0,
           PriorProvenance(prior.history, e.0, prior.memory.provenance)));
    ctx.(sources := prior.(
      history := kept,
      slices := [],
      memory := prior.memory.(
        text := "Context summary " + plan.summary + " preserves " + NatText(|plan.preserved|)
                + " governed event references through stream sequence " + NatText(plan.through) + ".",
        sourceRefs := Map(plan.preserved, (e: (string, string)) => e.0),
        rawEventCount := plan.through,
        isRawDump := false)))
  }

  /** `threshold` is a percentage of the usable budget, from 1 to 100; `planned` is the outcome of
      planning a compaction against the event store. */
  function Compact(ctx: RunCtx, budget: Budget, threshold: nat, summary: string, planned: Option<Plan>)
    : (RunCtx, Result<Option<Report>, CompactError>)
  {
    match ValidateBuild(ctx, budget)
    case Fail(e) => (ctx, Err(BadBuild(e)))
    case Pass =>
      var usable := budget.maxTokens - budget.reserve;
      if Blank(summary) then (ctx, Err(NoSummary))
      else if EstimateContext(ctx) * 100 < usable * threshold then (ctx, Ok(None))
      else if Blank(ctx.session) || Blank(ctx.run) then (ctx, Err(BadRegistration))
      else if planned.None? then (ctx, Err(StoreFailed))
      else
        var compacted := ApplyPlan(ctx, planned.value);
        var after := EstimateContext(compacted);
        if after >= EstimateContext(ctx) || after > usable || after * 100 >= usable * threshold then
          (ctx, Err(NotEnough))
        else (compacted, Ok(Some(Report(planned.value, EstimateContext(ctx), after))))
  }

  lemma {:induction false} CompactedStaysValid(ctx: RunCtx, budget: Budget, plan: Plan)
    requires ValidateBuild(ctx, budget).Pass?
    ensures ValidateBuild(ApplyPlan(ctx, plan), budget).Pass?
  {
  }

  lemma {:induction false} ThresholdWithinUsable(estimate: nat, usable: nat, threshold: nat)
    requires estimate * 100 < usable * threshold && threshold <= 100
    ensures estimate <= usable
  {
    assert usable * threshold <= usable * 100;
  }

  /** An accepted call leaves a valid context below the threshold. */
  lemma {:induction false} AcceptedIsBelowThreshold(
      ctx: RunCtx, budget: Budget, threshold: nat, summary: string, planned: Option<Plan>)
    requires Compact(ctx, budget, threshold, summary, planned).1.Ok?
    ensures var next := Compact(ctx, budget, threshold, summary, planned).0;
            && ValidateBuild(next, budget).Pass?
            && EstimateContext(next) * 100 < (budget.maxTokens - budget.reserve) * threshold
            && !Blank(summary)
  {
    if planned.Some? && ValidateBuild(ctx, budget).Pass? { CompactedStaysValid(ctx, budget, planned.value); }
  }

  /** An accepted compaction call, whether it compacted or found no need to, leaves a context whose next
      build with the same budget loses nothing. */
  lemma {:induction false} NextBuildIsLossless(
      limits: Limits, ctx: RunCtx, budget: Budget, threshold: nat, summary: string, planned: Option<Plan>, next: RunCtx)
    requires threshold <= 100
    requires Compact(ctx, budget, threshold, summary, planned).1.Ok?
             && next == Compact(ctx, budget, threshold, summary, planned).0
    ensures Build(limits, next, budget) == Lossless(limits, next)
  {
    AcceptedIsBelowThreshold(ctx, budget, threshold, summary, planned);
    ThresholdWithinUsable(EstimateContext(next), budget.maxTokens - budget.reserve, threshold);
    WithinEstimateBuildIsLossless(limits, next, budget);
  }

  /** A second call straight after an accepted one finds nothing to do, whatever it would have planned. */
  lemma {:induction false} SecondCompactionFindsNothing(
      ctx: RunCtx, budget: Budget, threshold: nat, summary: string, planned: Option<Plan>, planned': Option<Plan>,
      next: RunCtx)
    requires Compact(ctx, budget, threshold, summary, planned).1.Ok?
             && next == Compact(ctx, budget, threshold, summary, planned).0
    ensures Compact(next, budget, threshold, summary, planned') == (next, Ok(None))
  {
    AcceptedIsBelowThreshold(ctx, budget, threshold, summary, planned);
  }

  /** A refused call changes nothing, and a compaction that happened made the estimate strictly smaller. */
  lemma {:induction false} CompactionIsTransactional(
      ctx: RunCtx, budget: Budget, threshold: nat, summary: string, planned: Option<Plan>)
    ensures var (next, r) := Compact(ctx, budget, threshold, summary, planned);
            && (r.Err? || r.value.None? ==> next == ctx)
            && (r.Ok? && r.value.Some? ==>
                  EstimateContext(next) < EstimateContext(ctx) && r.value.value.before == EstimateContext(ctx)
                    && r.value.value.after == EstimateContext(next))
  {
  }

  // ----- the objects that change in place -----

  /** The section list under construction. */
  class Assembly {
    const available: nat
    var sections: seq<Section>
    var excluded: seq<Excluded>
    var spent: nat

    function Current(): Partial
      reads this
    {
      Partial(sections, excluded, spent)
    }

    constructor (available: nat)
      ensures this.available == available && Current() == Partial([], [], 0)
    {
      this.available := available;
      sections, excluded, spent := [], [], 0;
    }

    method PushSection(section: Section, required: bool) returns (r: Outcome<BuildError>)
      modifies this
      ensures match Push(old(Current()), available, Candidate(section, required))
              case Ok(next) => r == Pass && Current() == next
              case Err(e) => r == Fail(e) && Current() == old(Current())
    {
      if Blank(section.sourceRef) || Blank(section.content) { return Fail(IncompleteSource); }
      if spent + section.tokenCost <= available {
        spent := spent + section.tokenCost;
        sections := sections + [section];
        return Pass;
      }
      if required { return Fail(RulesOverflow); }
      excluded := excluded + [Excluded(section.kind, section.sourceRef, TokensExhausted)];
      return Pass;
    }

    /** The loop over one layer of sources. */
    method PushLayer(layer: seq<Candidate>) returns (r: Outcome<BuildError>)
      modifies this
      ensures match PushAll(old(Current()), available, layer)
              case Ok(next) => r == Pass && Current() == next
              case Err(e) => r == Fail(e)
    {
      ghost var start := Current();
      for i := 0 to |layer|
        invariant PushAll(start, available, layer) == PushAll(Current(), available, layer[i..])
      {
        assert layer[i..][0] == layer[i] && layer[i..][1..] == layer[i + 1..];
        r := PushSection(layer[i].section, layer[i].required);
        if r.Fail? { return; }
      }
      return Pass;
    }

    /** The layers, one after another. */
    method PushLayers(layers: seq<seq<Candidate>>) returns (r: Outcome<BuildError>)
      modifies this
      ensures match PushAll(old(Current()), available, Flatten(layers))
              case Ok(next) => r == Pass && Current() == next
              case Err(e) => r == Fail(e)
    {
      ghost var start := Current();
      for i := 0 to |layers|
        invariant PushAll(start, available, Flatten(layers)) == PushAll(Current(), available, Flatten(layers[i..]))
      {
        assert layers[i..][0] == layers[i] && layers[i..][1..] == layers[i + 1..];
        PushAllConcat(Current(), available, layers[i], Flatten(layers[i + 1..]));
        r := PushLayer(layers[i]);
        if r.Fail? { return; }
      }
      return Pass;
    }

    method MarkOverLimit(items: seq<Excluded>)
      modifies this
      ensures Current() == old(Current()).(excluded := old(excluded) + items)
    {
      excluded := excluded + items;
    }
  }

  lemma {:induction false} PushAllConcat(p: Partial, available: nat, a: seq<Candidate>, b: seq<Candidate>)
    ensures PushAll(p, available, a + b) ==
            match PushAll(p, available, a) case Err(e) => Err(e) case Ok(q) => PushAll(q, available, b)
    decreases |a|
  {
    if |a| == 0 {
      assert a + b == b;
    } else {
      assert (a + b)[1..] == a[1..] + b;
      match Push(p, available, a[0])
      case Err(_) =>
      case Ok(q) => PushAllConcat(q, available, a[1..], b);
    }
  }

  /** The builder's own run: the rules, then layer after layer into one assembly. */
  method RunBuild(
      ctx: RunCtx, budget: Budget, rules: seq<Candidate>, overLimit: seq<Excluded>, layers: seq<seq<Candidate>>)
    returns (r: Result<Context, BuildError>)
    ensures r == BuildFrom(ctx, budget, rules, overLimit, Flatten(layers))
  {
    var valid := ValidateBuild(ctx, budget);
    if valid.Fail? { return Err(valid.error); }
    var assembly := new Assembly(budget.maxTokens - budget.reserve);
    var step := assembly.PushLayer(rules);
    if step.Fail? { return Err(step.error); }
    assembly.MarkOverLimit(overLimit);
    step := assembly.PushLayers(layers);
    if step.Fail? { return Err(step.error); }
    return Ok(Context(assembly.sections, assembly.spent, assembly.excluded));
  }

  class LayeredContextBuilder {
    const limits: Limits

    constructor (limits: Limits)
      ensures this.limits == limits
    {
      this.limits := limits;
    }

    method Build(ctx: RunCtx, budget: Budget) returns (r: Result<Context, BuildError>)
      ensures r ==
              BuildFrom(ctx, budget, RuleLayer(limits, ctx), OverLimitRules(limits, ctx), OptionalLayers(limits, ctx))
    {
      r := RunBuild(ctx, budget, RuleLayer(limits, ctx), OverLimitRules(limits, ctx), Layers(limits, ctx));
    }
  }

  /** The run context that automatic compaction rewrites. */
  class RunContext {
    var ctx: RunCtx

    constructor (ctx: RunCtx)
      ensures this.ctx == ctx
    {
      this.ctx := ctx;
    }

    /** Rewrites the context only when the whole compaction succeeds. */
    method CompactIfNeeded(budget: Budget, threshold: nat, summary: string, planned: Option<Plan>)
      returns (r: Result<Option<Report>, CompactError>)
      modifies this
      ensures (ctx, r) == Compact(old(ctx), budget, threshold, summary, planned)
      ensures r.Err? ==> ctx == old(ctx)
    {
      var valid := ValidateBuild(ctx, budget);
      if valid.Fail? { return Err(BadBuild(valid.error)); }
      if Blank(summary) { return Err(NoSummary); }
      var usable := budget.maxTokens - budget.reserve;
      var before := EstimateContext(ctx);
      if before * 100 < usable * threshold { return Ok(None); }
      if Blank(ctx.session) || Blank(ctx.run) { return Err(BadRegistration); }
      if planned.None? { return Err(StoreFailed); }
      var compacted := ApplyPlan(ctx, planned.value);
      var after := EstimateContext(compacted);
      if after >= before || after > usable || after * 100 >= usable * threshold { return Err(NotEnough); }
      ctx := compacted;
      return Ok(Some(Report(planned.value, before, after)));
    }
  }
}
