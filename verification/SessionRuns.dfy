/** What every call on the communication fabric answers, and what it decides about disclosures. */
module SessionRuns {
  import opened Common
  import opened Sessions

  // ----- what is decided -----

  predicate Covering(rule: Rule, category: string) { rule.category in {category, "*"} }

  /** The first rule that covers the category is the one at `j`. */
  ghost predicate Leading(allow: seq<Rule>, category: string, j: int) {
    0 <= j < |allow| && Covering(allow[j], category) && forall i :: 0 <= i < j ==> !Covering(allow[i], category)
  }

  /** A matter of high impact has to be approved: it is unconfirmed, or the rule or the policy demands it. */
  predicate Demands(rule: Rule, policy: Policy, d: Disclosure) {
    d.highImpact
      && (!d.confirmed || rule.highImpactRequiresApproval || policy.representation.ConfirmUncertainRepresentation?)
  }

  /** What the policy has to say about a disclosure. */
  ghost predicate Judged(policy: Policy, d: Disclosure, outcome: DisclosureOutcome) {
    && (d.sensitive ==> outcome != Answer)
    && ((forall i :: 0 <= i < |policy.allow| ==> !Covering(policy.allow[i], d.category)) ==> outcome == Refuse)
    && forall j :: Leading(policy.allow, d.category, j) ==>
         var rule := policy.allow[j];
         && (Demands(rule, policy, d) ==> outcome == Approve)
         && (!Demands(rule, policy, d) && !(d.sensitive && rule.outcome.Answer?) ==> outcome == rule.outcome)
         && (!Demands(rule, policy, d) && d.sensitive && rule.outcome.Answer? ==> outcome == Blur)
  }

  lemma {:induction false} FirstRuleLeads(allow: seq<Rule>, category: string)
    ensures match FirstRule(allow, category)
            case None => forall i :: 0 <= i < |allow| ==> !Covering(allow[i], category)
            case Some(rule) => exists j :: Leading(allow, category, j) && allow[j] == rule
  {
    if |allow| > 0 && !Covering(allow[0], category) {
      FirstRuleLeads(allow[1..], category);
      match FirstRule(allow[1..], category)
      case None =>
        forall i | 0 <= i < |allow| ensures !Covering(allow[i], category) {
          if i > 0 { assert allow[1..][i - 1] == allow[i]; }
        }
      case Some(rule) =>
        var j :| Leading(allow[1..], category, j) && allow[1..][j] == rule;
        LeadsFurther(allow, category, j);
    } else if |allow| > 0 {
      assert Leading(allow, category, 0);
    }
  }

  lemma {:induction false} LeadsFurther(allow: seq<Rule>, category: string, j: int)
    requires |allow| > 0 && !Covering(allow[0], category) && Leading(allow[1..], category, j)
    ensures Leading(allow, category, j + 1) && allow[j + 1] == allow[1..][j]
  {
    forall i | 0 <= i < j + 1 ensures !Covering(allow[i], category) {
      if i > 0 { assert allow[1..][i - 1] == allow[i]; }
    }
  }

  lemma {:induction false} OneRuleLeads(allow: seq<Rule>, category: string, i: int, j: int)
    requires Leading(allow, category, i) && Leading(allow, category, j)
    ensures i == j
  {
  }

  lemma {:induction false} DecisionIsJudged(policy: Policy, d: Disclosure)
    ensures Judged(policy, d, Decision(policy, d))
  {
    FirstRuleLeads(policy.allow, d.category);
    forall j | Leading(policy.allow, d.category, j)
      ensures FirstRule(policy.allow, d.category) == Some(policy.allow[j])
    {
      var i :| Leading(policy.allow, d.category, i) && Some(policy.allow[i]) == FirstRule(policy.allow, d.category);
      OneRuleLeads(policy.allow, d.category, i, j);
    }
  }

  lemma {:induction false} LeaderDecides(policy: Policy, d: Disclosure, outcome: DisclosureOutcome, j: int)
    requires Judged(policy, d, outcome) && Leading(policy.allow, d.category, j)
    ensures var rule := policy.allow[j];
            outcome == if Demands(rule, policy, d) then Approve
                       else if d.sensitive && rule.outcome.Answer? then Blur else rule.outcome
  {
  }

  /** The policy leaves no choice. */
  lemma {:induction false} JudgementIsUnique(policy: Policy, d: Disclosure, a: DisclosureOutcome, b: DisclosureOutcome)
    requires Judged(policy, d, a) && Judged(policy, d, b)
    ensures a == b
  {
    FirstRuleLeads(policy.allow, d.category);
    if FirstRule(policy.allow, d.category).Some? {
      var j :| Leading(policy.allow, d.category, j);
      LeaderDecides(policy, d, a, j);
      LeaderDecides(policy, d, b, j);
    }
  }

  // ----- which boundary ends a session -----

  /** The reason is the first whose condition holds; there is none exactly when none holds. */
  ghost predicate FirstOf(reasons: seq<(bool, string)>, reason: Option<string>) {
    match reason
    case None => forall i :: 0 <= i < |reasons| ==> !reasons[i].0
    case Some(name) =>
      exists i :: 0 <= i < |reasons| && reasons[i] == (true, name) && forall j :: 0 <= j < i ==> !reasons[j].0
  }

  /** The boundaries in their order, over what was really used; a limit at the top of its type cannot be crossed. */
  function Crossings(limits: Limits, used: Usage, aligned: bool, risky: bool): seq<(bool, string)> {
    [(used.rounds > limits.maxRounds && limits.maxRounds < U32_MAX, "round_limit"),
     ((used.messages > limits.maxMessages && limits.maxMessages < U32_MAX)
      || (used.tokens > limits.maxTokens && limits.maxTokens < U64_MAX), "budget_exhausted"),
     (limits.endOnDrift && !aligned, "purpose_drift"),
     (limits.endOnRisk && risky, "risk_escalation")]
  }

  lemma {:induction false} BoundaryIsFirst(limits: Limits, used: Usage, aligned: bool, risky: bool)
    ensures FirstOf(Crossings(limits, used, aligned, risky),
                    Boundary(limits, Cap32(used.rounds), Cap32(used.messages), Cap(used.tokens), aligned, risky))
  {
    var all := Crossings(limits, used, aligned, risky);
    match Boundary(limits, Cap32(used.rounds), Cap32(used.messages), Cap(used.tokens), aligned, risky)
    case None =>
    case Some(name) =>
      if all[0].0 { assert all[0] == (true, name); }
      else if all[1].0 { assert all[1] == (true, name); }
      else if all[2].0 { assert all[2] == (true, name); }
      else { assert all[3] == (true, name); }
  }

  lemma {:induction false} LaterBoundary(first: (bool, string), rest: seq<(bool, string)>, reason: Option<string>)
    requires !first.0 && FirstOf(rest, reason)
    ensures FirstOf([first] + rest, reason)
  {
    var all := [first] + rest;
    match reason
    case None =>
    case Some(name) =>
      var i :| 0 <= i < |rest| && rest[i] == (true, name) && forall j :: 0 <= j < i ==> !rest[j].0;
      assert all[i + 1] == rest[i];
      forall j | 0 <= j < i + 1 ensures !all[j].0 { if j > 0 { assert all[j] == rest[j - 1]; } }
  }

  // ----- what one call changes -----

  /** Every other session and the counter of sessions stay as they are, and so does what is fixed about this one. */
  ghost predicate OnlyTouches(s: Fabric, t: Fabric, id: u64) {
    && t.sequence == s.sequence && t.sessions.Keys == s.sessions.Keys
    && (forall x :: x in s.sessions && x != id ==> t.sessions[x] == s.sessions[x])
    && (id in s.sessions ==> SameTerms(s.sessions[id], t.sessions[id]))
  }

  ghost predicate SameTerms(a: Session, b: Session) {
    b.participant == a.participant && b.purpose == a.purpose && b.policy == a.policy && b.limits == a.limits
    && b.expiresAt == a.expiresAt
  }

  /** The session is ended and the end logged, if there is a reason; otherwise it stays open. */
  ghost predicate EndsFor(s: Fabric, t: Fabric, id: u64, logged: seq<Event>, reason: Option<string>)
    requires id in t.sessions
  {
    && t.sessions[id].status == (if reason.Some? then Terminated else Open)
    && t.history == s.history + logged + (if reason.Some? then [EndedEvent(id, reason.value)] else [])
  }

  /** An exchange with an open session is counted and then ends it for the first boundary crossed, expiry before all. */
  ghost predicate ExchangeIsRight(s: Fabric, op: Op, t: Fabric, reply: Reply, used: Usage)
    requires op.Exchange?
  {
    var id := op.session;
    if id !in s.sessions then t == s && reply == Failed(NotRegistered)
    else if s.sessions[id].status == Terminated then t == s && reply == Failed(Inactive)
    else
      var session := s.sessions[id];
      && reply.Exchanged? && OnlyTouches(s, t, id) && t.used == s.used && EndsFor(s, t, id, [], reply.reason)
      && Shows(t, id, used)
      && FirstOf([(session.expiresAt <= op.clock, "ttl_expired")]
                 + Crossings(session.limits, used, op.aligned, op.risky), reply.reason)
  }

  lemma {:induction false} ExchangeTouches(s: Fabric, op: Op)
    requires op.Exchange? && op.session in s.sessions && s.sessions[op.session].status == Open
    ensures var (t, reply) := Step(s, op);
            reply.Exchanged? && OnlyTouches(s, t, op.session) && t.used == s.used
  {
  }

  lemma {:induction false} ExchangeAnswers(s: Fabric, op: Op, spent: Usage)
    requires op.Exchange? && Shows(s, op.session, spent)
    ensures var (t, reply) := Step(s, op);
            ExchangeIsRight(s, op, t, reply, Plus(spent, Usage(1, 2, op.tokens)))
  {
    var id := op.session;
    if id in s.sessions && s.sessions[id].status == Open {
      var used := Plus(spent, Usage(1, 2, op.tokens));
      CapsAdd(spent.rounds, 1);
      CapsAdd(spent.messages, 2);
      CapsAdd(spent.tokens, op.tokens);
      assert s.history + [] == s.history;
      ExchangeTouches(s, op);
      ReasonIsFirst(s.sessions[id], used, op);
    }
  }

  lemma {:induction false} ReasonIsFirst(session: Session, used: Usage, op: Op)
    requires op.Exchange?
    ensures FirstOf([(session.expiresAt <= op.clock, "ttl_expired")]
                    + Crossings(session.limits, used, op.aligned, op.risky),
                    if op.clock >= session.expiresAt then Some("ttl_expired")
                    else Boundary(session.limits, Cap32(used.rounds), Cap32(used.messages), Cap(used.tokens),
                                  op.aligned,
                                  op.risky))
  {
    var expiry := (session.expiresAt <= op.clock, "ttl_expired");
    var rest := Crossings(session.limits, used, op.aligned, op.risky);
    BoundaryIsFirst(session.limits, used, op.aligned, op.risky);
    if expiry.0 {
      assert ([expiry] + rest)[0] == (true, "ttl_expired");
    } else {
      LaterBoundary(expiry, rest, Boundary(session.limits, Cap32(used.rounds), Cap32(used.messages), Cap(used.tokens),
                                           op.aligned, op.risky));
    }
  }

  function Voice(rule: RepresentationRule): Representation {
    match rule
    case AgentOnly => Agent
    case RepresentOwnerWithDisclosure => AgentRepresentingOwner
    case ConfirmUncertainRepresentation => AgentRepresentingOwner
  }

  /** A well-formed delivery to an open session's participant, before expiry and for the first time, is decided; what is
      to be sent then ends the session for the first boundary it would cross, uncounted, or is counted. */
  ghost predicate DeliveryIsRight(s: Fabric, op: Op, t: Fabric, reply: Reply, spent: Usage, consumed: bool)
    requires op.Deliver?
  {
    var id, m := op.session, op.message;
    if !m.wellFormed || m.tokens == 0 then t == s && reply == Failed(InvalidMessage)
    else if id !in s.sessions then t == s && reply == Failed(NotRegistered)
    else if s.sessions[id].status.Terminated? || s.sessions[id].participant != op.participant then
      t == s && reply == Failed(Inactive)
    else if s.sessions[id].expiresAt <= op.clock then
      && reply == Failed(TtlExpired) && OnlyTouches(s, t, id) && t.used == s.used && Shows(t, id, spent)
      && EndsFor(s, t, id, [], Some("ttl_expired"))
    else if consumed then t == s && reply == Failed(AlreadyConsumed)
    else
      && OnlyTouches(s, t, id) && t.used == s.used + {(id, m.disclosure.request)}
      && exists outcome, reason :: DeliveredAs(s, op, t, reply, spent, outcome, reason)
  }

  ghost predicate DeliveredAs(
      s: Fabric, op: Op, t: Fabric, reply: Reply, spent: Usage, outcome: DisclosureOutcome, reason: Option<string>)
    requires op.Deliver? && op.session in s.sessions && op.session in t.sessions
  {
    var id, m, session := op.session, op.message, s.sessions[op.session];
    var voice, used := Voice(session.policy.representation), Plus(spent, Usage(1, 1, m.tokens));
    && Judged(session.policy, m.disclosure, outcome)
    && (if outcome in {Answer, Approve} then FirstOf(Crossings(session.limits, used, m.aligned, m.risky), reason)
        else reason.None?)
    && EndsFor(s, t, id, [AppliedEvent(id, m.disclosure.request, outcome, voice)], reason)
    && Shows(t, id, if outcome in {Answer, Approve} && reason.None? then used else spent)
    && reply == if reason.Some? then Failed(BoundaryExceeded) else Authorized(outcome, voice)
  }

  lemma {:induction false} DeliveryAnswers(s: Fabric, op: Op, spent: Usage)
    requires op.Deliver? && Shows(s, op.session, spent)
    ensures var (t, reply) := Step(s, op);
            DeliveryIsRight(s, op, t, reply, spent, (op.session, op.message.disclosure.request) in s.used)
  {
    var id, m := op.session, op.message;
    if id in s.sessions && s.sessions[id].status == Open {
      assert s.history + [] == s.history;
      if m.wellFormed && m.tokens > 0 && s.sessions[id].participant == op.participant
        && op.clock < s.sessions[id].expiresAt
         && (id, m.disclosure.request) !in s.used {
        DeliveryTouches(s, op);
        DecidedDelivery(s, op, spent);
      }
    }
  }

  lemma {:induction false} DeliveryTouches(s: Fabric, op: Op)
    requires op.Deliver? && op.message.wellFormed && op.message.tokens > 0
    requires op.session in s.sessions && s.sessions[op.session].status == Open
    requires s.sessions[op.session].participant == op.participant && op.clock < s.sessions[op.session].expiresAt
    requires (op.session, op.message.disclosure.request) !in s.used
    ensures var t := Step(s, op).0;
            OnlyTouches(s, t, op.session) && t.used == s.used + {(op.session, op.message.disclosure.request)}
  {
  }

  /** The boundary that what is to be sent would cross first, if there is one. */
  function Crossed(session: Session, op: Op, used: Usage, outcome: DisclosureOutcome): Option<string>
    requires op.Deliver?
  {
    if outcome in {Answer, Approve}
    then Boundary(session.limits, Cap32(used.rounds), Cap32(used.messages), Cap(used.tokens), op.message.aligned,
                  op.message.risky)
    else None
  }

  lemma {:induction false} DeliveryEffect(
      s: Fabric, op: Op, spent: Usage, outcome: DisclosureOutcome, reason: Option<string>)
    requires op.Deliver? && Shows(s, op.session, spent) && op.message.wellFormed && op.message.tokens > 0
    requires op.session in s.sessions && s.sessions[op.session].status == Open
    requires s.sessions[op.session].participant == op.participant && op.clock < s.sessions[op.session].expiresAt
    requires (op.session, op.message.disclosure.request) !in s.used
    requires outcome == Decision(s.sessions[op.session].policy, op.message.disclosure)
    requires reason == Crossed(s.sessions[op.session], op, Plus(spent, Usage(1, 1, op.message.tokens)), outcome)
    ensures var (t, reply), id := Step(s, op), op.session;
            var voice := Voice(s.sessions[id].policy.representation);
            && id in t.sessions
            && EndsFor(s, t, id, [AppliedEvent(id, op.message.disclosure.request, outcome, voice)], reason)
            && Shows(t, id, if outcome in {Answer, Approve} && reason.None?
                            then Plus(spent, Usage(1, 1, op.message.tokens)) else spent)
            && reply == if reason.Some? then Failed(BoundaryExceeded) else Authorized(outcome, voice)
  {
    CapsAdd(spent.rounds, 1);
    CapsAdd(spent.messages, 1);
    CapsAdd(spent.tokens, op.message.tokens);
    var voice := Voice(s.sessions[op.session].policy.representation);
    var applied := [AppliedEvent(op.session, op.message.disclosure.request, outcome, voice)];
    assert s.history + applied + [] == s.history + applied;
  }

  lemma {:induction false} DecidedDelivery(s: Fabric, op: Op, spent: Usage)
    requires op.Deliver? && Shows(s, op.session, spent) && op.message.wellFormed && op.message.tokens > 0
    requires op.session in s.sessions && s.sessions[op.session].status == Open
    requires s.sessions[op.session].participant == op.participant && op.clock < s.sessions[op.session].expiresAt
    requires (op.session, op.message.disclosure.request) !in s.used
    ensures var (t, reply) := Step(s, op);
            op.session in t.sessions && exists outcome, reason :: DeliveredAs(s, op, t, reply, spent, outcome, reason)
  {
    var m, session := op.message, s.sessions[op.session];
    var used, outcome := Plus(spent, Usage(1, 1, m.tokens)), Decision(session.policy, m.disclosure);
    var reason := Crossed(session, op, used, outcome);
    DecisionIsJudged(session.policy, m.disclosure);
    BoundaryIsFirst(session.limits, used, m.aligned, m.risky);
    DeliveryEffect(s, op, spent, outcome, reason);
    assert DeliveredAs(s, op, Step(s, op).0, Step(s, op).1, spent, outcome, reason);
  }

  /** A disclosure in an open, unexpired session is decided the first time it is asked for, and refused otherwise. */
  ghost predicate DisclosureIsRight(s: Fabric, op: Op, t: Fabric, reply: Reply, consumed: bool)
    requires op.Disclose?
  {
    var id, d := op.session, op.disclosure;
    if id !in s.sessions || s.sessions[id].status.Terminated? || s.sessions[id].expiresAt <= op.clock || consumed then
      t == s && reply == Disclosed(Refuse)
    else
      && reply.Disclosed? && Judged(s.sessions[id].policy, d, reply.outcome)
      && t == s.(used := s.used + {(id, d.request)},
                 history := s.history + [AppliedEvent(id, d.request, reply.outcome,
                                                      Voice(s.sessions[id].policy.representation))])
  }

  lemma {:induction false} DisclosureAnswers(s: Fabric, op: Op)
    requires op.Disclose?
    ensures var (t, reply) := Step(s, op);
            DisclosureIsRight(s, op, t, reply, (op.session, op.disclosure.request) in s.used)
  {
    if op.session in s.sessions { DecisionIsJudged(s.sessions[op.session].policy, op.disclosure); }
  }

  /** Terminating ends an open session for the reason given. */
  ghost predicate TerminationIsRight(s: Fabric, op: Op, t: Fabric, reply: Reply, spent: Usage)
    requires op.Terminate?
  {
    var id := op.session;
    if id !in s.sessions then t == s && reply == Failed(NotRegistered)
    else if s.sessions[id].status.Terminated? then t == s && reply == Done
    else reply == Done && OnlyTouches(s, t, id) && t.used == s.used && Shows(t, id, spent)
         && EndsFor(s, t, id, [], Some(op.reason))
  }

  lemma {:induction false} TerminationAnswers(s: Fabric, op: Op, spent: Usage)
    requires op.Terminate? && Shows(s, op.session, spent)
    ensures var (t, reply) := Step(s, op);
            TerminationIsRight(s, op, t, reply, spent)
  {
    assert s.history + [] == s.history;
  }

  // ----- opening -----

  /** The grant can be honoured: it is complete, and from the later of its issue and the clock its time to live ends
      within the envelope. */
  predicate Honourable(g: Grant, clock: i64) {
    && g.wellFormed && 0 < g.ttl <= I64_MAX
    && g.limits.maxRounds > 0 && g.limits.maxMessages > 0 && g.limits.maxTokens > 0
    && (g.envelopeExpiresAt == I64_MAX
        || (clock + g.ttl <= g.envelopeExpiresAt && g.issuedAt + g.ttl <= g.envelopeExpiresAt))
  }

  /** The session expires when its time to live is over, or at the last instant if that comes first. */
  predicate ExpiresRight(g: Grant, clock: i64, expiresAt: i64) {
    && (clock + g.ttl <= expiresAt || expiresAt == I64_MAX) && (g.issuedAt + g.ttl <= expiresAt || expiresAt == I64_MAX)
    && (expiresAt <= clock + g.ttl || expiresAt <= g.issuedAt + g.ttl)
  }

  ghost predicate OpeningIsRight(s: Fabric, op: Op, t: Fabric, reply: Reply)
    requires op.OpenSession?
  {
    var g := op.grant;
    if !Honourable(g, op.clock) then t == s && reply.Failed?
    else
      && reply.OpenedReply? && reply.id !in s.sessions && t.used == s.used
      && t.history == s.history + [GrantEvent(g.reference), OpenedEvent(reply.id)]
      && t.sessions.Keys == s.sessions.Keys + {reply.id}
      && (forall x :: x in s.sessions ==> t.sessions[x] == s.sessions[x])
      && ExpiresRight(g, op.clock, t.sessions[reply.id].expiresAt)
      && t.sessions[reply.id] == Session(g.participant, g.purpose, g.policy, g.limits, t.sessions[reply.id].expiresAt,
                                         0, 0, 0, Open)
  }

  lemma {:induction false} OpeningAnswers(s: Fabric, op: Op)
    requires op.OpenSession? && s.sequence !in s.sessions
    ensures OpeningIsRight(s, op, Step(s, op).0, Step(s, op).1)
  {
    var g := op.grant;
    var (t, reply) := Step(s, op);
    if reply.OpenedReply? {
      assert s.history + [GrantEvent(g.reference)] + [OpenedEvent(reply.id)] ==
             s.history + [GrantEvent(g.reference), OpenedEvent(reply.id)];
    }
  }

  // ----- whole runs -----

  ghost predicate DecidedBefore(ops: seq<Op>, k: nat, id: u64, request: string)
    requires k <= |ops|
  {
    exists i :: 0 <= i < k && Decides(ops, i, id, request)
  }

  /** What operation `k` of a run has to answer and leave, given what the run did before. */
  ghost predicate AnswerIsRight(ops: seq<Op>, k: nat)
    requires k < |ops|
  {
    var s, t, reply := Before(ops, k), Before(ops, k + 1), Step(Before(ops, k), ops[k]).1;
    var op := ops[k];
    match op
    case OpenSession(_, _) => OpeningIsRight(s, op, t, reply)
    case Exchange(id, tokens, _, _, _) =>
      ExchangeIsRight(s, op, t, reply, Plus(Spent(ops[..k], id), Usage(1, 2, tokens)))
    case Deliver(id, _, m, _) =>
      DeliveryIsRight(s, op, t, reply, Spent(ops[..k], id), DecidedBefore(ops, k, id, m.disclosure.request))
    case Disclose(id, d, _) => DisclosureIsRight(s, op, t, reply, DecidedBefore(ops, k, id, d.request))
    case Terminate(id, _) => TerminationIsRight(s, op, t, reply, Spent(ops[..k], id))
  }

  /** Every call of every run is answered as its grant, its policy and the run's own history demand. */
  lemma {:induction false} EveryAnswerIsRight(ops: seq<Op>, k: nat)
    requires Short(ops) && k < |ops|
    ensures AnswerIsRight(ops, k)
  {
    BeforeNext(ops, k);
    RunKeeps(ops[..k]);
    var s, op := Before(ops, k), ops[k];
    match op
    case OpenSession(_, _) => OpeningAnswers(s, op);
    case Exchange(id, _, _, _, _) =>
      RunShows(ops[..k], id);
      ExchangeAnswers(s, op, Spent(ops[..k], id));
    case Deliver(id, _, m, _) =>
      RunShows(ops[..k], id);
      UsedWasDecided(ops, k, id, m.disclosure.request);
      DeliveryAnswers(s, op, Spent(ops[..k], id));
    case Disclose(id, d, _) =>
      UsedWasDecided(ops, k, id, d.request);
      DisclosureAnswers(s, op);
    case Terminate(id, _) =>
      RunShows(ops[..k], id);
      TerminationAnswers(s, op, Spent(ops[..k], id));
  }

  /** Whatever decision a run logs on a disclosure request is the one that the session's policy has for it. */
  lemma {:induction false} DecisionsAreJudged(ops: seq<Op>, k: nat, id: u64, request: string)
    requires Short(ops) && k < |ops| && Decides(ops, k, id, request)
    ensures id in Before(ops, k).sessions
    ensures ops[k].Deliver? || ops[k].Disclose?
    ensures var policy, d := Before(ops, k).sessions[id].policy,
                             if ops[k].Deliver? then ops[k].message.disclosure else ops[k].disclosure;
            exists outcome ::
              && Judged(policy, d, outcome) && d.request == request
              && AppliedEvent(id, request, outcome, Voice(policy.representation)) in Before(ops, k + 1).history
  {
    EveryAnswerIsRight(ops, k);
    DecidedExactly(ops, k, id, request);
    var s, t, reply := Before(ops, k), Before(ops, k + 1), Step(Before(ops, k), ops[k]).1;
    if ops[k].Deliver? {
      var outcome, reason :| DeliveredAs(s, ops[k], t, reply, Spent(ops[..k], id), outcome, reason);
      assert AppliedEvent(id, request, outcome, Voice(s.sessions[id].policy.representation)) in t.history;
    } else {
      assert AppliedEvent(id, request, reply.outcome, Voice(s.sessions[id].policy.representation)) in t.history;
    }
  }
}
