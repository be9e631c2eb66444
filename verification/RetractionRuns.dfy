/** What a run of lineage, retraction and governance calls leaves, told from its calls alone. */
module RetractionRuns {
  import opened Common
  import opened Sequences
  import opened Retraction

  // ----- the calls of a run -----

  function Now(ops: seq<Op>, k: int): State
    requires 0 <= k <= |ops|
  {
    Run(EMPTY, ops[..k])
  }

  /** The call at `k` records the edge. */
  predicate RecordsAt(ops: seq<Op>, k: int, source: string, derived: string) {
    0 <= k < |ops| && ops[k] == RecordLineage(source, derived, true)
    && !Blank(source) && !Blank(derived) && source != derived
  }

  /** The call at `k` retracts the target. */
  predicate RetractsAt(ops: seq<Op>, k: int, target: string) {
    0 <= k < |ops| && ops[k].OnRetraction? && ops[k].target == target && ops[k].appended && !Blank(target)
  }

  /** The object is there and active before the call at `k`, which audits it, and the audit is recorded. */
  predicate AuditsAt(ops: seq<Op>, k: int, subject: string) {
    0 <= k < |ops| && ops[k].Audit? && ops[k].subject == subject && ops[k].appended
    && subject in Now(ops, k).stable && Now(ops, k).stable[subject]
  }

  /** The call at `k` invalidates the object: as derived from what it retracts, or by an audit that went through. */
  predicate InvalidatesAt(ops: seq<Op>, k: int, x: string) {
    || (0 <= k < |ops| && ops[k].OnRetraction? && RetractsAt(ops, k, ops[k].target) && x in ops[k].derived)
    || (AuditsAt(ops, k, x) && ops[k].taskAppended && ops[k].candidateCreated)
  }

  predicate PromotesAt(ops: seq<Op>, k: int, x: string) {
    0 <= k < |ops| && ops[k] == Promote(x) && !Blank(x)
  }

  /** The call at `k` makes the object inactive if it is there. */
  predicate StopsAt(ops: seq<Op>, k: int, x: string) {
    (0 <= k < |ops| && ops[k] == Downgrade(x) && !Blank(x)) || RetractsAt(ops, k, x) || InvalidatesAt(ops, k, x)
  }

  lemma {:induction false} NowSnoc(ops: seq<Op>, op: Op, k: int)
    requires 0 <= k <= |ops|
    ensures Now(ops + [op], k) == Now(ops, k)
    ensures Now(ops + [op], |ops| + 1) == Step(Now(ops, |ops|), op)
  {
    assert (ops + [op])[..k] == ops[..k];
    assert (ops + [op])[..|ops| + 1] == ops + [op] && ops[..|ops|] == ops;
    RunSnoc(EMPTY, ops, op);
  }

  /** Facts about the calls before `k` depend on those calls only. */
  lemma {:induction false} SameFacts(ops: seq<Op>, op: Op, k: int, x: string)
    requires k < |ops|
    ensures RetractsAt(ops + [op], k, x) <==> RetractsAt(ops, k, x)
    ensures InvalidatesAt(ops + [op], k, x) <==> InvalidatesAt(ops, k, x)
    ensures PromotesAt(ops + [op], k, x) <==> PromotesAt(ops, k, x)
    ensures StopsAt(ops + [op], k, x) <==> StopsAt(ops, k, x)
  {
    if 0 <= k { NowSnoc(ops, op, k); }
  }

  // ----- lineage, retractions and invalidations -----

  /** The lineage holds exactly the edges that were recorded. */
  lemma {:induction false} LineageExactly(ops: seq<Op>, source: string, derived: string)
    ensures derived in Children(Run(EMPTY, ops).view.lineage, source) <==>
            exists k :: RecordsAt(ops, k, source, derived)
    decreases |ops|
  {
    if |ops| > 0 {
      var front, op := ops[..|ops| - 1], ops[|ops| - 1];
      assert ops == front + [op];
      RunSnoc(EMPTY, front, op);
      LineageExactly(front, source, derived);
      EdgeStep(Run(EMPTY, front), op, source, derived);
      if k :| RecordsAt(front, k, source, derived) { assert RecordsAt(ops, k, source, derived); }
      if k :| RecordsAt(ops, k, source, derived) {
        assert k < |front| ==> RecordsAt(front, k, source, derived);
        assert k == |front| ==> RecordsAt(ops, |front|, source, derived);
      }
      assert RecordsAt(ops, |front|, source, derived) <==>
             op == RecordLineage(source, derived, true) && !Blank(source) && !Blank(derived) && source != derived;
    }
  }

  lemma {:induction false} EdgeStep(s: State, op: Op, source: string, derived: string)
    ensures derived in Children(Step(s, op).view.lineage, source) <==>
            derived in Children(s.view.lineage, source)
            || (op == RecordLineage(source, derived, true) && !Blank(source) && !Blank(derived) && source != derived)
  {
  }

  /** Retracted is exactly what an accepted retraction named. */
  lemma {:induction false} RetractedExactly(ops: seq<Op>, x: string)
    ensures x in Run(EMPTY, ops).view.retracted <==> exists k :: RetractsAt(ops, k, x)
    decreases |ops|
  {
    if |ops| > 0 {
      var front, op := ops[..|ops| - 1], ops[|ops| - 1];
      assert ops == front + [op];
      RunSnoc(EMPTY, front, op);
      RetractedExactly(front, x);
      forall k | k < |front| ensures RetractsAt(ops, k, x) <==> RetractsAt(front, k, x) { SameFacts(front, op, k, x); }
      if x in Run(EMPTY, front).view.retracted {
        var k :| RetractsAt(front, k, x);
        assert RetractsAt(ops, k, x);
      }
      RetractedStep(Run(EMPTY, front), op, x);
      assert RetractsAt(ops, |front|, x) <==> op.OnRetraction? && op.target == x && op.appended && !Blank(x);
    }
  }

  lemma {:induction false} RetractedStep(s: State, op: Op, x: string)
    ensures x in Step(s, op).view.retracted <==>
            x in s.view.retracted || (op.OnRetraction? && op.target == x && op.appended && !Blank(x))
  {
  }

  lemma {:induction false} InvalidatedStep(ops: seq<Op>, op: Op, x: string)
    ensures x in Step(Now(ops, |ops|), op).view.invalidated <==>
            x in Now(ops, |ops|).view.invalidated || InvalidatesAt(ops + [op], |ops|, x)
  {
    NowSnoc(ops, op, |ops|);
  }

  /** Invalidated is exactly what was derived from what an accepted retraction named, or failed a completed audit. */
  lemma {:induction false} InvalidatedExactly(ops: seq<Op>, x: string)
    ensures x in Run(EMPTY, ops).view.invalidated <==> exists k :: InvalidatesAt(ops, k, x)
    decreases |ops|
  {
    if |ops| > 0 {
      var front, op := ops[..|ops| - 1], ops[|ops| - 1];
      assert ops == front + [op] && front[..|front|] == front;
      RunSnoc(EMPTY, front, op);
      InvalidatedExactly(front, x);
      InvalidatedStep(front, op, x);
      forall k | k < |front| ensures InvalidatesAt(ops, k, x) <==> InvalidatesAt(front, k, x) {
        SameFacts(front, op, k, x);
      }
      if x in Run(EMPTY, front).view.invalidated {
        var k :| InvalidatesAt(front, k, x);
        assert InvalidatesAt(ops, k, x);
      }
    }
  }

  // ----- which objects are active -----

  /** The call at `k` promotes the object, and nothing has stopped it since. */
  ghost predicate LivesSince(ops: seq<Op>, k: int, x: string) {
    PromotesAt(ops, k, x) && forall j :: k < j < |ops| ==> !StopsAt(ops, j, x)
  }

  lemma {:induction false} StableStep(ops: seq<Op>, op: Op, x: string)
    ensures var s, more := Now(ops, |ops|), ops + [op];
            var t := Step(s, op);
            && (x in t.stable <==> x in s.stable || PromotesAt(more, |ops|, x))
            && (x in t.stable ==>
                  (t.stable[x] <==> PromotesAt(more, |ops|, x)
                                    || (x in s.stable && s.stable[x] && !StopsAt(more, |ops|, x))))
  {
    NowSnoc(ops, op, |ops|);
  }

  lemma {:induction false} LivesSnoc(ops: seq<Op>, op: Op, k: int, x: string)
    ensures LivesSince(ops + [op], k, x) <==>
            (k == |ops| && PromotesAt(ops + [op], k, x)) || (LivesSince(ops, k, x) && !StopsAt(ops + [op], |ops|, x))
  {
    var more := ops + [op];
    forall j | j < |ops|
      ensures (StopsAt(more, j, x) <==> StopsAt(ops, j, x)) && (PromotesAt(more, j, x) <==> PromotesAt(ops, j, x))
    {
      SameFacts(ops, op, j, x);
    }
  }

  /** An object is known exactly when it was promoted once, and active exactly when nothing has downgraded, retracted
      or invalidated it since it was promoted. */
  lemma {:induction false} ActiveExactly(ops: seq<Op>, x: string)
    ensures var stable := Run(EMPTY, ops).stable;
            && (x in stable <==> exists k :: PromotesAt(ops, k, x))
            && (x in stable ==> (stable[x] <==> exists k :: LivesSince(ops, k, x)))
    decreases |ops|
  {
    if |ops| > 0 {
      var front, op := ops[..|ops| - 1], ops[|ops| - 1];
      assert ops == front + [op] && front[..|front|] == front;
      RunSnoc(EMPTY, front, op);
      ActiveExactly(front, x);
      StableStep(front, op, x);
      PromotesSnoc(front, op, x);
      LivesSnocAny(front, op, x);
    } else {
      assert Run(EMPTY, ops) == EMPTY;
    }
  }

  lemma {:induction false} PromotesSnoc(ops: seq<Op>, op: Op, x: string)
    ensures var more := ops + [op];
            (exists k :: PromotesAt(more, k, x)) <==> (exists k :: PromotesAt(ops, k, x)) || PromotesAt(more, |ops|, x)
  {
    var more := ops + [op];
    forall k | k < |ops| ensures PromotesAt(more, k, x) <==> PromotesAt(ops, k, x) { SameFacts(ops, op, k, x); }
    if k :| PromotesAt(ops, k, x) { assert PromotesAt(more, k, x); }
  }

  lemma {:induction false} LivesSnocAny(ops: seq<Op>, op: Op, x: string)
    ensures var more := ops + [op];
            (exists k :: LivesSince(more, k, x)) <==>
            PromotesAt(more, |ops|, x) || ((exists k :: LivesSince(ops, k, x)) && !StopsAt(more, |ops|, x))
  {
    var more := ops + [op];
    forall k
      ensures LivesSince(more, k, x) <==>
              (k == |ops| && PromotesAt(more, k, x)) || (LivesSince(ops, k, x) && !StopsAt(more, |ops|, x))
    {
      LivesSnoc(ops, op, k, x);
    }
    if PromotesAt(more, |ops|, x) { assert LivesSince(more, |ops|, x); }
    if k :| LivesSince(ops, k, x) && !StopsAt(more, |ops|, x) { assert LivesSince(more, k, x); }
  }

  /** In every run an object may be used exactly when it was not retracted, not invalidated, and not left inactive. */
  lemma {:induction false} UsableExactly(ops: seq<Op>, x: string)
    ensures Usable(Run(EMPTY, ops), x) <==>
            && (forall k :: !RetractsAt(ops, k, x))
            && (forall k :: !InvalidatesAt(ops, k, x))
            && ((exists k :: PromotesAt(ops, k, x)) ==> exists k :: LivesSince(ops, k, x))
  {
    RetractedExactly(ops, x);
    InvalidatedExactly(ops, x);
    ActiveExactly(ops, x);
  }

  // ----- the log -----

  /** What a call writes: nothing when it is refused or the store fails it, and otherwise its own event and, if the
      store takes it, the task that follows. */
  ghost predicate Writes(s: State, op: Op, written: seq<Event>) {
    match op
    case RecordLineage(source, derived, appended) =>
      if appended && !Blank(source) && !Blank(derived) && source != derived
      then |written| == 1 && written[0].Maintenance? && ParseEdge(written[0].deltas) == Some((source, derived))
      else written == []
    case OnRetraction(target, derived, appended, taskAppended) =>
      if !appended || Blank(target) then written == []
      else if taskAppended then written == [Retracted(target), Reevaluation(derived)]
      else written == [Retracted(target)]
    case Audit(subject, appended, taskAppended, _) =>
      if !appended || subject !in s.stable || !s.stable[subject] then written == []
      else if taskAppended then written == [Other, Reevaluation([subject])]
      else written == [Other]
    case Promote(_) => written == []
    case Downgrade(_) => written == []
  }

  /** The log only grows, by what each call writes. */
  lemma {:induction false} LogGrowsExactly(s: State, op: Op)
    ensures var log := Step(s, op).log;
            s.log <= log && Writes(s, op, log[|s.log|..])
  {
    var log := Step(s, op).log;
    match op
    case RecordLineage(source, derived, _) => EdgeReadsBack(source, derived);
    case OnRetraction(target, derived, _, _) =>
      assert s.log + [Retracted(target)] + [Reevaluation(derived)] ==
             s.log + [Retracted(target), Reevaluation(derived)];
    case Audit(subject, _, _, _) =>
      assert s.log + [Other] + [Reevaluation([subject])] == s.log + [Other, Reevaluation([subject])];
    case Promote(_) =>
    case Downgrade(_) =>
  }
}
