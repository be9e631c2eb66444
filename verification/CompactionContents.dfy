/** When a context is built or compacted at all, and what a compaction preserves. */
module CompactionContents {
  import opened Common
  import opened Decimal
  import opened Orders
  import opened Sequences
  import opened ContextAssembly
  import opened ContextContents

  // ----- when a build succeeds -----

  /** The inputs are complete, the budget leaves something, and the summary is a governed one of the run's scope. */
  predicate Buildable(ctx: RunCtx, budget: Budget) {
    && ctx.schemaVersion > 0 && ctx.sources.schemaVersion > 0 && budget.schemaVersion > 0
    && budget.reserve < budget.maxTokens
    && ctx.sources.memory.schemaVersion > 0 && ctx.sources.memory.scope == ctx.scope && !ctx.sources.memory.isRawDump
  }

  lemma {:induction false} BuildableExactly(ctx: RunCtx, budget: Budget)
    ensures ValidateBuild(ctx, budget).Pass? <==> Buildable(ctx, budget)
    ensures match ValidateBuild(ctx, budget)
            case Fail(ForeignSummary) => ctx.sources.memory.schemaVersion == 0 || ctx.sources.memory.scope != ctx.scope
            case Fail(RawDump) => ctx.sources.memory.isRawDump
            case _ => true
  {
  }

  lemma {:induction false} OptionalPass(p: Partial, available: nat, cs: seq<Candidate>)
    requires NoneRequired(cs)
    ensures PushAll(p, available, cs).Ok? <==> !AnyBlank(cs)
    ensures PushAll(p, available, cs).Err? ==> PushAll(p, available, cs).error == IncompleteSource
    decreases |cs|
  {
    if |cs| > 0 {
      AnyBlankCons(cs);
      assert forall i :: 0 <= i < |cs[1..]| ==> cs[1..][i] == cs[i + 1];
      if !BlankSource(cs[0]) { OptionalPass(Push(p, available, cs[0]).value, available, cs[1..]); }
    }
  }

  lemma {:induction false} RequiredPass(p: Partial, available: nat, cs: seq<Candidate>)
    requires p.spent <= available && forall i :: 0 <= i < |cs| ==> cs[i].required
    ensures PushAll(p, available, cs).Ok? <==> !AnyBlank(cs) && p.spent + SumOver(cs, Cost()) <= available
    ensures PushAll(p, available, cs) == Err(IncompleteSource) ==> AnyBlank(cs)
    ensures PushAll(p, available, cs) == Err(RulesOverflow) ==> p.spent + SumOver(cs, Cost()) > available
    ensures PushAll(p, available, cs).Err? ==> PushAll(p, available, cs).error in {IncompleteSource, RulesOverflow}
    decreases |cs|
  {
    if |cs| > 0 {
      AnyBlankCons(cs);
      assert forall i :: 0 <= i < |cs[1..]| ==> cs[1..][i] == cs[i + 1];
      if Push(p, available, cs[0]).Ok? { RequiredPass(Push(p, available, cs[0]).value, available, cs[1..]); }
    }
  }

  predicate NoneRequired(cs: seq<Candidate>) { forall i :: 0 <= i < |cs| ==> !cs[i].required }

  lemma {:induction false} LayersAreOptional(limits: Limits, ctx: RunCtx)
    ensures NoneRequired(WorkspaceLayer(limits, ctx)) && NoneRequired(HistoryLayer(limits, ctx))
    ensures NoneRequired(MemoryLayer(ctx)) && NoneRequired(SkillLayer(limits, ctx))
            && NoneRequired(BodyLayer(limits, ctx))
    ensures NoneRequired(ToolLayer(limits, ctx)) && NoneRequired(SliceLayer(limits, ctx))
  {
  }

  lemma {:induction false} OptionalLayersAreOptional(limits: Limits, ctx: RunCtx)
    ensures NoneRequired(OptionalLayers(limits, ctx))
  {
    LayersInOrder(limits, ctx);
    LayersAreOptional(limits, ctx);
    NoneRequiredConcat(ToolLayer(limits, ctx), SliceLayer(limits, ctx));
    var tools := ToolLayer(limits, ctx) + SliceLayer(limits, ctx);
    NoneRequiredConcat(BodyLayer(limits, ctx), tools);
    NoneRequiredConcat(SkillLayer(limits, ctx), BodyLayer(limits, ctx) + tools);
    var skills := SkillLayer(limits, ctx) + (BodyLayer(limits, ctx) + tools);
    NoneRequiredConcat(MemoryLayer(ctx), skills);
    NoneRequiredConcat(HistoryLayer(limits, ctx), MemoryLayer(ctx) + skills);
    NoneRequiredConcat(WorkspaceLayer(limits, ctx), HistoryLayer(limits, ctx) + (MemoryLayer(ctx) + skills));
  }

  lemma {:induction false} NoneRequiredConcat(a: seq<Candidate>, b: seq<Candidate>)
    requires NoneRequired(a) && NoneRequired(b)
    ensures NoneRequired(a + b)
  {
  }

  /** The section names its source and holds something. */
  predicate Filled(c: Candidate) { !Blank(c.section.sourceRef) && !Blank(c.section.content) }

  /** A build succeeds exactly when its inputs are valid, no source that is offered is blank, and the rules offered fit
      the budget. */
  lemma {:induction false} BuildSucceedsExactly(limits: Limits, ctx: RunCtx, budget: Budget)
    ensures Build(limits, ctx, budget).Ok? <==>
              && Buildable(ctx, budget)
              && (forall c :: c in RuleLayer(limits, ctx) || c in OptionalLayers(limits, ctx) ==> Filled(c))
              && SumOver(RuleLayer(limits, ctx), Cost()) <= budget.maxTokens - budget.reserve
  {
    RulesAreRequired(limits, ctx);
    OptionalLayersAreOptional(limits, ctx);
    BuildFromSucceedsExactly(ctx, budget, RuleLayer(limits, ctx), OverLimitRules(limits, ctx),
                             OptionalLayers(limits, ctx));
  }

  lemma {:induction false} RulesAreRequired(limits: Limits, ctx: RunCtx)
    ensures forall i :: 0 <= i < |RuleLayer(limits, ctx)| ==> RuleLayer(limits, ctx)[i].required
  {
    RulesAreOffered(limits, ctx);
  }

  lemma {:induction false} BuildFromSucceedsExactly(
      ctx: RunCtx, budget: Budget, rules: seq<Candidate>, overLimit: seq<Excluded>, rest: seq<Candidate>)
    requires (forall i :: 0 <= i < |rules| ==> rules[i].required) && NoneRequired(rest)
    ensures BuildFrom(ctx, budget, rules, overLimit, rest).Ok? <==>
              && Buildable(ctx, budget)
              && (forall c :: c in rules || c in rest ==> Filled(c))
              && SumOver(rules, Cost()) <= budget.maxTokens - budget.reserve
  {
    BuildableExactly(ctx, budget);
    NoneBlank(rules);
    NoneBlank(rest);
    if Buildable(ctx, budget) { AssembleSucceedsExactly(budget.maxTokens - budget.reserve, rules, overLimit, rest); }
  }

  lemma {:induction false} NoneBlank(cs: seq<Candidate>)
    ensures !AnyBlank(cs) <==> forall c :: c in cs ==> Filled(c)
  {
    if AnyBlank(cs) {
      var i :| 0 <= i < |cs| && BlankSource(cs[i]);
      assert cs[i] in cs;
    }
  }

  lemma {:induction false} AssembleSucceedsExactly(
      available: nat, rules: seq<Candidate>, overLimit: seq<Excluded>, rest: seq<Candidate>)
    requires (forall i :: 0 <= i < |rules| ==> rules[i].required) && NoneRequired(rest)
    ensures Assemble(available, rules, overLimit, rest).Ok? <==>
            !AnyBlank(rules) && !AnyBlank(rest) && SumOver(rules, Cost()) <= available
  {
    var start := Partial([], [], 0);
    RequiredPass(start, available, rules);
    match PushAll(start, available, rules)
    case Err(_) =>
    case Ok(p) => OptionalPass(p.(excluded := p.excluded + overLimit), available, rest);
  }

  // ----- what a compaction preserves -----

  /** The last entry of the history for `event`. */
  ghost predicate LastEntry(history: seq<Item>, event: string, j: int) {
    0 <= j < |history| && history[j].id == event && forall i :: j < i < |history| ==> history[i].id != event
  }

  /** Who vouches for a preserved event: the last entry that the history had for it, or else the summary. */
  ghost predicate VouchedBy(ctx: RunCtx, event: string, p: Provenance) {
    && (forall j :: LastEntry(ctx.sources.history, event, j) ==> p == ctx.sources.history[j].provenance)
    && ((forall i :: 0 <= i < |ctx.sources.history| ==> ctx.sources.history[i].id != event) ==>
          p == ctx.sources.memory.provenance)
  }

  lemma {:induction false} PriorIsVouched(history: seq<Item>, event: string, fallback: Provenance)
    ensures forall j :: LastEntry(history, event, j) ==>
            PriorProvenance(history, event, fallback) == history[j].provenance
    ensures (forall i :: 0 <= i < |history| ==> history[i].id != event) ==>
              PriorProvenance(history, event, fallback) == fallback
  {
    if |history| > 0 && history[|history| - 1].id != event {
      var front := history[..|history| - 1];
      PriorIsVouched(front, event, fallback);
      forall j | LastEntry(history, event, j)
        ensures PriorProvenance(history, event, fallback) == history[j].provenance
      {
        assert LastEntry(front, event, j);
      }
    }
  }

  ghost predicate PreservedAs(ctx: RunCtx, event: (string, string), entry: Item) {
    && entry.id == event.0 && entry.content == "preserved " + event.1 + " reference " + event.0
    && VouchedBy(ctx, event.0, entry.provenance)
  }

  /** The history is one entry per preserved event, in order; the summary tells how many there are and how far the plan
      reaches, and refers to them; the slices are gone; and nothing else has changed. */
  ghost predicate Compacted(ctx: RunCtx, plan: Plan, next: RunCtx) {
    var was, now := ctx.sources, next.sources;
    && next == ctx.(sources := was.(history := now.history, slices := [], memory := now.memory))
    && |now.history| == |plan.preserved|
    && (forall i :: 0 <= i < |plan.preserved| ==> PreservedAs(ctx, plan.preserved[i], now.history[i]))
    && SummaryOf(plan, was.memory, now.memory)
  }

  ghost predicate SummaryOf(plan: Plan, was: Summary, now: Summary) {
    && now.schemaVersion == was.schemaVersion && now.scope == was.scope && now.provenance == was.provenance
    && now.rawEventCount == plan.through && !now.isRawDump
    && |now.sourceRefs| == |plan.preserved|
    && (forall i :: 0 <= i < |plan.preserved| ==> now.sourceRefs[i] == plan.preserved[i].0)
    && exists kept, through :: Says(kept, |plan.preserved|) && Says(through, plan.through)
                               && now.text == "Context summary " + plan.summary + " preserves " + kept
                                              + " governed event references through stream sequence " + through + "."
  }

  /** The digits say the number. */
  predicate Says(digits: string, n: nat) { |digits| > 0 && AllDigits(digits) && NatValue(digits) == n }

  lemma {:induction false} PlanIsApplied(ctx: RunCtx, plan: Plan)
    ensures Compacted(ctx, plan, ApplyPlan(ctx, plan))
  {
    var next := ApplyPlan(ctx, plan);
    forall i | 0 <= i < |plan.preserved| ensures PreservedAs(ctx, plan.preserved[i], next.sources.history[i]) {
      PriorIsVouched(ctx.sources.history, plan.preserved[i].0, ctx.sources.memory.provenance);
    }
    NatTextReadsBack(|plan.preserved|);
    NatTextReadsBack(plan.through);
    assert Says(NatText(|plan.preserved|), |plan.preserved|) && Says(NatText(plan.through), plan.through);
  }

  /** The context weighs on the threshold: its estimate is at least that percentage of the usable budget. */
  predicate Presses(estimate: nat, usable: nat, threshold: nat) { usable * threshold <= estimate * 100 }

  /** The plan shrinks the context below the threshold and into the usable budget. */
  predicate Relieves(before: nat, after: nat, usable: nat, threshold: nat) {
    after < before && after <= usable && !Presses(after, usable, threshold)
  }

  /** A call is accepted without doing anything exactly on a valid context that stays below the threshold. */
  lemma {:induction false} IdlesExactly(
      ctx: RunCtx, budget: Budget, threshold: nat, summary: string, planned: Option<Plan>)
    ensures Compact(ctx, budget, threshold, summary, planned).1 == Ok(None) <==>
              && Buildable(ctx, budget) && !Blank(summary)
              && !Presses(EstimateContext(ctx), budget.maxTokens - budget.reserve, threshold)
  {
    BuildableExactly(ctx, budget);
  }

  /** A call compacts exactly a valid context that has reached the threshold, when the run can be registered, the store
      delivers a plan, and applying the plan relieves the context. */
  lemma {:induction false} CompactsExactly(
      ctx: RunCtx, budget: Budget, threshold: nat, summary: string, plan: Plan, planned: Option<Plan>)
    requires planned.Some? ==> planned.value == plan
    ensures var r := Compact(ctx, budget, threshold, summary, planned).1;
            r.Ok? && r.value.Some? <==>
              && Buildable(ctx, budget) && !Blank(summary) && !Blank(ctx.session) && !Blank(ctx.run) && planned.Some?
              && Presses(EstimateContext(ctx), budget.maxTokens - budget.reserve, threshold)
              && Relieves(EstimateContext(ctx), EstimateContext(ApplyPlan(ctx, plan)),
                          budget.maxTokens - budget.reserve,
                          threshold)
  {
    BuildableExactly(ctx, budget);
  }

  /** A compaction leaves what its plan preserves and reports the estimates around it; a call that compacts nothing,
      accepted or refused, leaves the context as it was. */
  lemma {:induction false} CompactionPreserves(
      ctx: RunCtx, budget: Budget, threshold: nat, summary: string, planned: Option<Plan>, next: RunCtx,
      r: Result<Option<Report>, CompactError>)
    requires Compact(ctx, budget, threshold, summary, planned) == (next, r)
    ensures if r.Ok? && r.value.Some? then
              && planned == Some(r.value.value.plan) && Compacted(ctx, planned.value, next)
              && r.value.value.before == EstimateContext(ctx) && r.value.value.after == EstimateContext(next)
            else next == ctx
  {
    if r.Ok? && r.value.Some? { PlanIsApplied(ctx, planned.value); }
  }

  /** A refusal says what is wrong. */
  lemma {:induction false} CompactionRefusalsAreHonest(
      ctx: RunCtx, budget: Budget, threshold: nat, summary: string, planned: Option<Plan>)
    ensures match Compact(ctx, budget, threshold, summary, planned).1
            case Ok(_) => true
            case Err(BadBuild(_)) => !Buildable(ctx, budget)
            case Err(NoSummary) => Blank(summary)
            case Err(BadRegistration) => Blank(ctx.session) || Blank(ctx.run)
            case Err(StoreFailed) => planned.None?
            case Err(NotEnough) => planned.Some?
  {
    BuildableExactly(ctx, budget);
  }

  /** A plan that is refused would not relieve the context. */
  lemma {:induction false} RefusedPlansDoNotRelieve(
      ctx: RunCtx, budget: Budget, threshold: nat, summary: string, plan: Plan)
    requires Compact(ctx, budget, threshold, summary, Some(plan)).1 == Err(NotEnough)
    ensures !Relieves(EstimateContext(ctx), EstimateContext(ApplyPlan(ctx, plan)), budget.maxTokens - budget.reserve,
                      threshold)
  {
  }

  // ----- the build after a compaction -----

  /** The section shows the preserved event. */
  predicate Shows(s: Section, event: (string, string)) {
    s.kind == History && s.sourceRef == event.0 && s.content == "preserved " + event.1 + " reference " + event.0
  }

  /** A build after an accepted compaction shows the newest preserved events, up to the history limit. */
  lemma {:induction false} NextBuildShowsPreserved(
      limits: Limits, ctx: RunCtx, budget: Budget, threshold: nat, summary: string, plan: Plan, next: RunCtx,
      r: Result<Option<Report>, CompactError>, at: nat)
    requires threshold <= 100 && at < |plan.preserved| && |plan.preserved| - at <= limits.maxHistory
    requires Compact(ctx, budget, threshold, summary, Some(plan)) == (next, r) && r.Ok? && r.value.Some?
    requires Build(limits, next, budget).Ok?
    ensures exists s :: s in Build(limits, next, budget).value.sections && Shows(s, plan.preserved[at])
  {
    CompactionPreserves(ctx, budget, threshold, summary, Some(plan), next, r);
    NextBuildIsLossless(limits, ctx, budget, threshold, summary, Some(plan), next);
    PreservedIsShown(limits, ctx, budget, plan, next, at);
  }

  lemma {:induction false} PreservedIsShown(
      limits: Limits, ctx: RunCtx, budget: Budget, plan: Plan, next: RunCtx, at: nat)
    requires at < |plan.preserved| && |plan.preserved| - at <= limits.maxHistory && Compacted(ctx, plan, next)
    requires Build(limits, next, budget) == Lossless(limits, next) && Build(limits, next, budget).Ok?
    ensures exists s :: s in Build(limits, next, budget).value.sections && Shows(s, plan.preserved[at])
  {
    CompactedEntry(ctx, plan, next, at);
    var i := PreservedIsOffered(limits, ctx, next, at, plan.preserved[at]);
    HistorySectionIsBuilt(limits, next, budget, i);
  }

  /** Where the history entry at a place within the limit is offered. */
  lemma {:induction false} NewestAt(layer: seq<Candidate>, h: seq<Item>, most: nat, at: nat) returns (i: nat)
    requires |layer| == if |h| <= most then |h| else most
    requires forall i :: 0 <= i < |layer| ==> OfferedAs(layer[i], History, h[|h| - |layer| + i])
    requires at < |h| && |h| - at <= most
    ensures i < |layer| && OfferedAs(layer[i], History, h[at])
  {
    i := at - (|h| - |layer|);
    assert h[|h| - |layer| + i] == h[at];
  }

  lemma {:induction false} EntryIsOffered(limits: Limits, ctx: RunCtx, at: nat) returns (i: nat)
    requires at < |ctx.sources.history| && |ctx.sources.history| - at <= limits.maxHistory
    ensures i < |HistoryLayer(limits, ctx)|
            && OfferedAs(HistoryLayer(limits, ctx)[i], History, ctx.sources.history[at])
  {
    HistoryIsOffered(limits, ctx);
    i := NewestAt(HistoryLayer(limits, ctx), ctx.sources.history, limits.maxHistory, at);
  }

  lemma {:induction false} CompactedEntry(ctx: RunCtx, plan: Plan, next: RunCtx, at: nat)
    requires at < |plan.preserved| && Compacted(ctx, plan, next)
    ensures |next.sources.history| == |plan.preserved|
    ensures PreservedAs(ctx, plan.preserved[at], next.sources.history[at])
  {
  }

  lemma {:induction false} PreservedIsOffered(
      limits: Limits, ctx: RunCtx, next: RunCtx, at: nat, event: (string, string))
    returns (i: nat)
    requires at < |next.sources.history| && |next.sources.history| - at <= limits.maxHistory
    requires PreservedAs(ctx, event, next.sources.history[at])
    ensures i < |HistoryLayer(limits, next)| && Shows(HistoryLayer(limits, next)[i].section, event)
  {
    i := EntryIsOffered(limits, next, at);
    OfferedPreservedShows(ctx, event, next.sources.history[at], HistoryLayer(limits, next)[i]);
  }

  lemma {:induction false} OfferedPreservedShows(ctx: RunCtx, event: (string, string), item: Item, c: Candidate)
    requires PreservedAs(ctx, event, item) && OfferedAs(c, History, item)
    ensures Shows(c.section, event)
  {
  }

  lemma {:induction false} HistorySectionIsBuilt(limits: Limits, ctx: RunCtx, budget: Budget, i: nat)
    requires Build(limits, ctx, budget) == Lossless(limits, ctx) && Build(limits, ctx, budget).Ok?
    requires i < |HistoryLayer(limits, ctx)|
    ensures HistoryLayer(limits, ctx)[i].section in Build(limits, ctx, budget).value.sections
  {
    LayersInOrder(limits, ctx);
    var c, rest := HistoryLayer(limits, ctx)[i], OptionalLayers(limits, ctx);
    assert c in HistoryLayer(limits, ctx) && c in rest;
    var j :| 0 <= j < |rest| && rest[j] == c;
    assert Map(rest, SectionOf())[j] == c.section;
    assert c.section in Map(rest, SectionOf());
  }
}
