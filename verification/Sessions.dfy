/** Bounded communication sessions: exchanges, disclosures and deliveries under one termination policy. */
module Sessions {
  import opened Common

  datatype DisclosureOutcome = Answer | Blur | Approve | Refuse

  datatype RepresentationRule = AgentOnly | RepresentOwnerWithDisclosure | ConfirmUncertainRepresentation

  datatype Representation = Agent | AgentRepresentingOwner

  datatype Rule = Rule(category: string, outcome: DisclosureOutcome, highImpactRequiresApproval: bool)

  datatype Policy = Policy(allow: seq<Rule>, representation: RepresentationRule)

  datatype Limits = Limits(maxRounds: u32, maxMessages: u32, maxTokens: u64, endOnDrift: bool, endOnRisk: bool)

  datatype Status = Open | Terminated

  datatype Session = Session(
    participant: string,
    purpose: string,
    policy: Policy,
    limits: Limits,
    expiresAt: i64,
    rounds: u32,
    messages: u32,
    tokens: u64,
    status: Status)

  /** `wellFormed` covers the checks on identifiers and text. */
  datatype Grant = Grant(
    wellFormed: bool,
    reference: string,
    participant: string,
    purpose: string,
    policy: Policy,
    limits: Limits,
    ttl: u64,
    issuedAt: i64,
    envelopeExpiresAt: i64)

  datatype Disclosure = Disclosure(
      request: string, category: string, sensitive: bool, confirmed: bool, highImpact: bool)

  datatype Message = Message(wellFormed: bool, disclosure: Disclosure, tokens: u64, aligned: bool, risky: bool)

  datatype Event =
    | GrantEvent(reference: string)
    | OpenedEvent(session: u64)
    | EndedEvent(session: u64, reason: string)
    | AppliedEvent(session: u64, request: string, outcome: DisclosureOutcome, representation: Representation)

  /** A session id is its sequence number behind a fixed prefix, so the number stands for it. `history` is
      every event ever pushed, drained or not. */
  datatype Fabric = Fabric(sequence: u64, sessions: map<u64, Session>, used: set<(u64, string)>, history: seq<Event>)

  const EMPTY: Fabric := Fabric(1, map[], {}, [])

  datatype SessionError =
    | InvalidGrant
    | TtlOutOfRange
    | EnvelopeExceeded
    | InvalidMessage
    | NotRegistered
    | Inactive
    | TtlExpired
    | AlreadyConsumed
    | BoundaryExceeded

  datatype Reply =
    | Failed(error: SessionError)
    | OpenedReply(id: u64)
    | Exchanged(reason: Option<string>)
    | Authorized(outcome: DisclosureOutcome, representation: Representation)
    | Disclosed(outcome: DisclosureOutcome)
    | Done

  datatype Op =
    | OpenSession(grant: Grant, clock: i64)
    | Exchange(session: u64, tokens: u64, aligned: bool, risky: bool, clock: i64)
    | Deliver(session: u64, participant: string, message: Message, clock: i64)
    | Disclose(session: u64, disclosure: Disclosure, clock: i64)
    | Terminate(session: u64, reason: string)

  // ----- operations -----

  function Cap32(n: nat): u32 { if n <= U32_MAX then n else U32_MAX }

  /** The first boundary passed, in the order in which they are checked. */
  function Boundary(limits: Limits, rounds: u32, messages: u32, tokens: u64, aligned: bool, risky: bool)
    : Option<string>
  {
    if rounds > limits.maxRounds then Some("round_limit")
    else if messages > limits.maxMessages || tokens > limits.maxTokens then Some("budget_exhausted")
    else if !aligned && limits.endOnDrift then Some("purpose_drift")
    else if risky && limits.endOnRisk then Some("risk_escalation")
    else None
  }

  function FirstRule(allow: seq<Rule>, category: string): Option<Rule> {
    if |allow| == 0 then None
    else if allow[0].category == category || allow[0].category == "*" then Some(allow[0])
    else FirstRule(allow[1..], category)
  }

  function Decision(policy: Policy, d: Disclosure): DisclosureOutcome {
    match FirstRule(policy.allow, d.category)
    case None => Refuse
    case Some(rule) =>
      if d.highImpact
        && (rule.highImpactRequiresApproval || !d.confirmed || policy.representation == ConfirmUncertainRepresentation)
      then Approve
      else if d.sensitive && rule.outcome == Answer then Blur
      else rule.outcome
  }

  function Represents(policy: Policy): Representation {
    if policy.representation == AgentOnly then Agent else AgentRepresentingOwner
  }

  function Log(s: Fabric, e: Event): Fabric { s.(history := s.history + [e]) }

  function End(s: Fabric, id: u64, reason: string): Fabric
    requires id in s.sessions
  {
    Log(s.(sessions := s.sessions[id := s.sessions[id].(status := Terminated)]), EndedEvent(id, reason))
  }

  function OpenStep(s: Fabric, g: Grant, clock: i64): (Fabric, Reply) {
    if !g.wellFormed || g.ttl == 0 || g.limits.maxMessages == 0 || g.limits.maxTokens == 0
      || g.limits.maxRounds == 0 then
      (s, Failed(InvalidGrant))
    else if g.ttl > I64_MAX then (s, Failed(TtlOutOfRange))
    else
      var now := if clock >= g.issuedAt then clock else g.issuedAt;
      var expiresAt := SatAddSigned(now, g.ttl);
      if expiresAt > g.envelopeExpiresAt then (s, Failed(EnvelopeExceeded))
      else
        var session := Session(g.participant, g.purpose, g.policy, g.limits, expiresAt, 0, 0, 0, Open);
        var logged := Log(Log(s, GrantEvent(g.reference)), OpenedEvent(s.sequence));
        (logged.(sequence := (s.sequence + 1) % (U64_MAX + 1), sessions := s.sessions[s.sequence := session]),
         OpenedReply(s.sequence))
  }

  /** An exchange counts one round and two messages before the boundaries are checked. */
  function ExchangeStep(s: Fabric, id: u64, tokens: u64, aligned: bool, risky: bool, clock: i64): (Fabric, Reply) {
    if id !in s.sessions then (s, Failed(NotRegistered))
    else if s.sessions[id].status != Open then (s, Failed(Inactive))
    else
      var was := s.sessions[id];
      var session := was.(rounds := Cap32(was.rounds + 1), messages := Cap32(was.messages + 2),
                          tokens := SatAdd(was.tokens, tokens));
      var counted := s.(sessions := s.sessions[id := session]);
      var reason := if clock >= session.expiresAt then Some("ttl_expired")
                    else Boundary(session.limits, session.rounds, session.messages, session.tokens, aligned, risky);
      if reason.Some? then (End(counted, id, reason.value), Exchanged(reason)) else (counted, Exchanged(None))
  }

  predicate Sends(outcome: DisclosureOutcome) { outcome == Answer || outcome == Approve }

  /** A delivery counts only when it stays within the boundaries. */
  function DeliverStep(s: Fabric, id: u64, participant: string, m: Message, clock: i64): (Fabric, Reply) {
    if !m.wellFormed || m.tokens == 0 then (s, Failed(InvalidMessage))
    else if id !in s.sessions then (s, Failed(NotRegistered))
    else if s.sessions[id].status != Open || s.sessions[id].participant != participant then (s, Failed(Inactive))
    else if clock >= s.sessions[id].expiresAt then (End(s, id, "ttl_expired"), Failed(TtlExpired))
    else if (id, m.disclosure.request) in s.used then (s, Failed(AlreadyConsumed))
    else
      var was := s.sessions[id];
      var outcome := Decision(was.policy, m.disclosure);
      var applied := Log(s.(used := s.used + {(id, m.disclosure.request)}),
                         AppliedEvent(id, m.disclosure.request, outcome, Represents(was.policy)));
      var next := was.(rounds := Cap32(was.rounds + 1), messages := Cap32(was.messages + 1),
                       tokens := SatAdd(was.tokens, m.tokens));
      var reason := Boundary(was.limits, next.rounds, next.messages, next.tokens, m.aligned, m.risky);
      if !Sends(outcome) then (applied, Authorized(outcome, Represents(was.policy)))
      else if reason.Some? then (End(applied, id, reason.value), Failed(BoundaryExceeded))
      else (applied.(sessions := applied.sessions[id := next]), Authorized(outcome, Represents(was.policy)))
  }

  function DiscloseStep(s: Fabric, id: u64, d: Disclosure, clock: i64): (Fabric, Reply) {
    if id !in s.sessions || s.sessions[id].status != Open || clock >= s.sessions[id].expiresAt then
      (s, Disclosed(Refuse))
    else if (id, d.request) in s.used then (s, Disclosed(Refuse))
    else
      var policy := s.sessions[id].policy;
      (Log(s.(used := s.used + {(id, d.request)}),
           AppliedEvent(id, d.request, Decision(policy, d), Represents(policy))),
       Disclosed(Decision(policy, d)))
  }

  function TerminateStep(s: Fabric, id: u64, reason: string): (Fabric, Reply) {
    if id !in s.sessions then (s, Failed(NotRegistered))
    else if s.sessions[id].status == Terminated then (s, Done)
    else (End(s, id, reason), Done)
  }

  function Step(s: Fabric, op: Op): (Fabric, Reply) {
    match op
    case OpenSession(grant, clock) => OpenStep(s, grant, clock)
    case Exchange(session, tokens, aligned, risky, clock) => ExchangeStep(s, session, tokens, aligned, risky, clock)
    case Deliver(session, participant, message, clock) => DeliverStep(s, session, participant, message, clock)
    case Disclose(session, disclosure, clock) => DiscloseStep(s, session, disclosure, clock)
    case Terminate(session, reason) => TerminateStep(s, session, reason)
  }

  // ----- runs -----

  function Run(ops: seq<Op>): Fabric
    decreases |ops|
  {
    if |ops| == 0 then EMPTY else Step(Run(ops[..|ops| - 1]), ops[|ops| - 1]).0
  }

  function Before(ops: seq<Op>, k: nat): Fabric
    requires k <= |ops|
  {
    Run(ops[..k])
  }

  lemma {:induction false} BeforeNext(ops: seq<Op>, k: nat)
    requires k < |ops|
    ensures Before(ops, k + 1) == Step(Before(ops, k), ops[k]).0
  {
    assert ops[..k + 1][..k] == ops[..k];
  }

  // ----- what the history records -----

  datatype Topic = Opening(id: u64) | Ending(id: u64) | Deciding(id: u64, request: string)

  predicate About(e: Event, topic: Topic) {
    match topic
    case Opening(id) => e == OpenedEvent(id)
    case Ending(id) => e.EndedEvent? && e.session == id
    case Deciding(id, request) => e.AppliedEvent? && e.session == id && e.request == request
  }

  /** How many events of the history are about the topic. */
  function Count(history: seq<Event>, topic: Topic): nat {
    if |history| == 0 then 0
    else Count(history[..|history| - 1], topic) + if About(history[|history| - 1], topic) then 1 else 0
  }

  lemma {:induction false} CountSnoc(history: seq<Event>, e: Event, topic: Topic)
    ensures Count(history + [e], topic) == Count(history, topic) + if About(e, topic) then 1 else 0
  {
    assert (history + [e])[..|history|] == history;
  }

  /** How many events the present state calls for. */
  function Expected(s: Fabric, topic: Topic): nat {
    match topic
    case Opening(id) => if id in s.sessions then 1 else 0
    case Ending(id) => if id in s.sessions && s.sessions[id].status == Terminated then 1 else 0
    case Deciding(id, request) => if (id, request) in s.used then 1 else 0
  }

  /** The history holds exactly the events that the state calls for. */
  ghost predicate Recorded(s: Fabric) {
    forall topic :: Count(s.history, topic) == Expected(s, topic)
  }

  predicate Within(session: Session) {
    session.rounds <= session.limits.maxRounds && session.messages <= session.limits.maxMessages
    && session.tokens <= session.limits.maxTokens
  }

  ghost predicate Bounded(s: Fabric) {
    forall id :: id in s.sessions && s.sessions[id].status == Open ==> Within(s.sessions[id])
  }

  /** Ids not yet handed out are unused. */
  ghost predicate FreshAhead(s: Fabric, calls: nat) {
    s.sequence <= calls + 1 && forall id :: id in s.sessions ==> id < s.sequence
  }

  // ----- every operation keeps the records -----

  lemma {:induction false} EndKeeps(s: Fabric, id: u64, reason: string)
    requires Recorded(s) && id in s.sessions && s.sessions[id].status == Open
    ensures Recorded(End(s, id, reason))
  {
    forall topic ensures Count(End(s, id, reason).history, topic) == Expected(End(s, id, reason), topic) {
      CountSnoc(s.history, EndedEvent(id, reason), topic);
    }
  }

  lemma {:induction false} ApplyKeeps(s: Fabric, id: u64, request: string, e: Event)
    requires Recorded(s) && (id, request) !in s.used
    requires e.AppliedEvent? && e.session == id && e.request == request
    ensures Recorded(Log(s.(used := s.used + {(id, request)}), e))
  {
    var t := Log(s.(used := s.used + {(id, request)}), e);
    forall topic ensures Count(t.history, topic) == Expected(t, topic) {
      CountSnoc(s.history, e, topic);
    }
  }

  /** Changing counters calls for no event. */
  lemma {:induction false} CountersKeep(s: Fabric, id: u64, session: Session)
    requires Recorded(s) && id in s.sessions && session.status == s.sessions[id].status
    ensures Recorded(s.(sessions := s.sessions[id := session]))
  {
    var t := s.(sessions := s.sessions[id := session]);
    forall topic ensures Count(t.history, topic) == Expected(t, topic) {
      assert Expected(t, topic) == Expected(s, topic);
    }
  }

  lemma {:induction false} OpenKeeps(s: Fabric, g: Grant, clock: i64)
    requires Recorded(s) && s.sequence !in s.sessions
    ensures Recorded(OpenStep(s, g, clock).0)
  {
    var t := OpenStep(s, g, clock).0;
    if OpenStep(s, g, clock).1.OpenedReply? {
      forall topic ensures Count(t.history, topic) == Expected(t, topic) {
        CountSnoc(s.history, GrantEvent(g.reference), topic);
        CountSnoc(s.history + [GrantEvent(g.reference)], OpenedEvent(s.sequence), topic);
      }
    }
  }

  lemma {:induction false} ExchangeKeeps(s: Fabric, id: u64, tokens: u64, aligned: bool, risky: bool, clock: i64)
    requires Recorded(s)
    ensures Recorded(ExchangeStep(s, id, tokens, aligned, risky, clock).0)
  {
    if id in s.sessions && s.sessions[id].status == Open {
      var was := s.sessions[id];
      var session := was.(rounds := Cap32(was.rounds + 1), messages := Cap32(was.messages + 2),
                          tokens := SatAdd(was.tokens, tokens));
      CountersKeep(s, id, session);
      var reason := ExchangeStep(s, id, tokens, aligned, risky, clock).1.reason;
      if reason.Some? { EndKeeps(s.(sessions := s.sessions[id := session]), id, reason.value); }
    }
  }

  lemma {:induction false} DeliverKeeps(s: Fabric, id: u64, participant: string, m: Message, clock: i64)
    requires Recorded(s)
    ensures Recorded(DeliverStep(s, id, participant, m, clock).0)
  {
    if id in s.sessions && s.sessions[id].status == Open {
      var was := s.sessions[id];
      if clock >= was.expiresAt {
        EndKeeps(s, id, "ttl_expired");
      } else if (id, m.disclosure.request) !in s.used {
        var e := AppliedEvent(id, m.disclosure.request, Decision(was.policy, m.disclosure), Represents(was.policy));
        var applied := Log(s.(used := s.used + {(id, m.disclosure.request)}), e);
        var next := was.(rounds := Cap32(was.rounds + 1), messages := Cap32(was.messages + 1),
                         tokens := SatAdd(was.tokens, m.tokens));
        var reason := Boundary(was.limits, next.rounds, next.messages, next.tokens, m.aligned, m.risky);
        ApplyKeeps(s, id, m.disclosure.request, e);
        CountersKeep(applied, id, next);
        if reason.Some? { EndKeeps(applied, id, reason.value); }
      }
    }
  }

  lemma {:induction false} DiscloseKeeps(s: Fabric, id: u64, d: Disclosure, clock: i64)
    requires Recorded(s)
    ensures Recorded(DiscloseStep(s, id, d, clock).0)
  {
    if id in s.sessions && (id, d.request) !in s.used {
      var policy := s.sessions[id].policy;
      ApplyKeeps(s, id, d.request, AppliedEvent(id, d.request, Decision(policy, d), Represents(policy)));
    }
  }

  lemma {:induction false} StepKeepsRecords(s: Fabric, op: Op)
    requires Recorded(s) && s.sequence !in s.sessions
    ensures Recorded(Step(s, op).0)
  {
    match op
    case OpenSession(grant, clock) => OpenKeeps(s, grant, clock);
    case Exchange(id, tokens, aligned, risky, clock) => ExchangeKeeps(s, id, tokens, aligned, risky, clock);
    case Deliver(id, participant, message, clock) => DeliverKeeps(s, id, participant, message, clock);
    case Disclose(id, disclosure, clock) => DiscloseKeeps(s, id, disclosure, clock);
    case Terminate(id, reason) =>
      if id in s.sessions && s.sessions[id].status == Open { EndKeeps(s, id, reason); }
  }

  /** What no step undoes. */
  ghost predicate Grows(s: Fabric, t: Fabric) {
    && s.used <= t.used
    && (forall id :: id in s.sessions ==> id in t.sessions)
    && (forall id :: id in s.sessions && s.sessions[id].status == Terminated ==> t.sessions[id] == s.sessions[id])
  }

  lemma {:induction false} StepKeepsBounds(s: Fabric, op: Op, calls: nat)
    requires Bounded(s) && FreshAhead(s, calls) && calls < U64_MAX - 1
    ensures Bounded(Step(s, op).0) && FreshAhead(Step(s, op).0, calls + 1)
  {
    if op.OpenSession? { assert (s.sequence + 1) % (U64_MAX + 1) == s.sequence + 1; }
  }

  lemma {:induction false} StepGrows(s: Fabric, op: Op)
    requires s.sequence !in s.sessions
    ensures Grows(s, Step(s, op).0)
  {
  }

  /** A run too short for the 64-bit session counter to wrap around. */
  predicate Short(ops: seq<Op>) { |ops| < U64_MAX }

  lemma {:induction false} RunKeeps(ops: seq<Op>)
    requires Short(ops)
    ensures Recorded(Run(ops)) && Bounded(Run(ops)) && FreshAhead(Run(ops), |ops|)
    decreases |ops|
  {
    if |ops| > 0 {
      var front, op := ops[..|ops| - 1], ops[|ops| - 1];
      RunKeeps(front);
      StepKeepsRecords(Run(front), op);
      StepKeepsBounds(Run(front), op, |front|);
    }
  }

  lemma {:induction false} RunGrows(ops: seq<Op>, i: nat, j: nat)
    requires Short(ops) && i <= j <= |ops|
    ensures Grows(Before(ops, i), Before(ops, j))
    decreases j
  {
    if i < j {
      RunGrows(ops, i, j - 1);
      RunKeeps(ops[..j - 1]);
      StepGrows(Before(ops, j - 1), ops[j - 1]);
      BeforeNext(ops, j - 1);
    }
  }

  // ----- what a session really used -----

  datatype Usage = Usage(rounds: nat, messages: nat, tokens: nat)

  /** What a single operation, so answered, uses of session `id`. */
  function Uses(op: Op, reply: Reply, id: u64): Usage {
    if op.Exchange? && op.session == id && reply.Exchanged? then Usage(1, 2, op.tokens)
    else if op.Deliver? && op.session == id && reply.Authorized? && Sends(reply.outcome) then
      Usage(1, 1, op.message.tokens)
    else Usage(0, 0, 0)
  }

  function Plus(a: Usage, b: Usage): Usage { Usage(a.rounds + b.rounds, a.messages + b.messages, a.tokens + b.tokens) }

  /** Everything the run used of session `id`, without any width limit. */
  function Spent(ops: seq<Op>, id: u64): Usage
    decreases |ops|
  {
    if |ops| == 0 then Usage(0, 0, 0)
    else
      var front, op := ops[..|ops| - 1], ops[|ops| - 1];
      Plus(Spent(front, id), Uses(op, Step(Run(front), op).1, id))
  }

  predicate Shows(s: Fabric, id: u64, spent: Usage) {
    if id in s.sessions then
      && s.sessions[id].rounds == Cap32(spent.rounds)
      && s.sessions[id].messages == Cap32(spent.messages)
      && s.sessions[id].tokens == Cap(spent.tokens)
    else spent == Usage(0, 0, 0)
  }

  lemma {:induction false} CapsAdd(a: nat, n: nat)
    ensures Cap32(Cap32(a) + n) == Cap32(a + n) && Cap(Cap(a) + n) == Cap(a + n)
  {
  }

  /** A session whose counters go up by `use` shows it. */
  lemma {:induction false} CountingShows(s: Fabric, t: Fabric, id: u64, spent: Usage, use: Usage)
    requires Shows(s, id, spent) && id in s.sessions && id in t.sessions
    requires t.sessions[id].rounds == Cap32(s.sessions[id].rounds + use.rounds)
    requires t.sessions[id].messages == Cap32(s.sessions[id].messages + use.messages)
    requires t.sessions[id].tokens == Cap(s.sessions[id].tokens + use.tokens)
    ensures Shows(t, id, Plus(spent, use))
  {
    CapsAdd(spent.rounds, use.rounds);
    CapsAdd(spent.messages, use.messages);
    CapsAdd(spent.tokens, use.tokens);
  }

  /** A step that leaves the counters alone shows no further use. */
  lemma {:induction false} IdleShows(s: Fabric, t: Fabric, id: u64, spent: Usage)
    requires Shows(s, id, spent) && (id in s.sessions <==> id in t.sessions)
    requires id in s.sessions ==>
               t.sessions[id].rounds == s.sessions[id].rounds && t.sessions[id].messages == s.sessions[id].messages
               && t.sessions[id].tokens == s.sessions[id].tokens
    ensures Shows(t, id, Plus(spent, Usage(0, 0, 0)))
  {
  }

  /** An exchange with an open session counts there, and one with any other session leaves this one alone. */
  lemma {:induction false} ExchangeCounts(
      s: Fabric, other: u64, tokens: u64, aligned: bool, risky: bool, clock: i64, id: u64)
    requires id in s.sessions
    ensures var (t, reply) := ExchangeStep(s, other, tokens, aligned, risky, clock);
            && id in t.sessions
            && (if other == id && s.sessions[id].status == Open then
                  && reply.Exchanged?
                  && t.sessions[id].rounds == Cap32(s.sessions[id].rounds + 1)
                  && t.sessions[id].messages == Cap32(s.sessions[id].messages + 2)
                  && t.sessions[id].tokens == Cap(s.sessions[id].tokens + tokens)
                else t.sessions[id] == s.sessions[id])
  {
  }

  lemma {:induction false} ExchangeShows(s: Fabric, op: Op, id: u64, spent: Usage)
    requires Shows(s, id, spent) && op.Exchange?
    ensures Shows(Step(s, op).0, id, Plus(spent, Uses(op, Step(s, op).1, id)))
  {
    var (t, reply) := ExchangeStep(s, op.session, op.tokens, op.aligned, op.risky, op.clock);
    if id in s.sessions {
      ExchangeCounts(s, op.session, op.tokens, op.aligned, op.risky, op.clock, id);
      if op.session == id && s.sessions[id].status == Open {
        CountingShows(s, t, id, spent, Usage(1, 2, op.tokens));
        assert Uses(op, reply, id) == Usage(1, 2, op.tokens);
      } else {
        IdleShows(s, t, id, spent);
        assert Uses(op, reply, id) == Usage(0, 0, 0);
      }
    } else {
      IdleShows(s, t, id, spent);
    }
  }

  lemma {:induction false} DeliverShows(s: Fabric, op: Op, id: u64, spent: Usage)
    requires Shows(s, id, spent) && op.Deliver?
    ensures Shows(Step(s, op).0, id, Plus(spent, Uses(op, Step(s, op).1, id)))
  {
    var (t, reply) := Step(s, op);
    if op.session == id && reply.Authorized? && Sends(reply.outcome) {
      CountingShows(s, t, id, spent, Usage(1, 1, op.message.tokens));
    } else {
      IdleShows(s, t, id, spent);
    }
  }

  lemma {:induction false} StepShows(s: Fabric, op: Op, id: u64, spent: Usage)
    requires Shows(s, id, spent) && s.sequence !in s.sessions
    ensures Shows(Step(s, op).0, id, Plus(spent, Uses(op, Step(s, op).1, id)))
  {
    if op.Exchange? {
      ExchangeShows(s, op, id, spent);
    } else if op.Deliver? {
      DeliverShows(s, op, id, spent);
    } else {
      assert Uses(op, Step(s, op).1, id) == Usage(0, 0, 0);
    }
  }

  lemma {:induction false} RunShows(ops: seq<Op>, id: u64)
    requires Short(ops)
    ensures Shows(Run(ops), id, Spent(ops, id))
    decreases |ops|
  {
    if |ops| > 0 {
      var front := ops[..|ops| - 1];
      RunShows(front, id);
      RunKeeps(front);
      StepShows(Run(front), ops[|ops| - 1], id, Spent(front, id));
    }
  }

  // ----- the main results -----

  /** The counters of every session show what the run really used, up to saturation. */
  lemma {:induction false} CountersAreHonest(ops: seq<Op>, id: u64)
    requires Short(ops) && id in Run(ops).sessions
    ensures var session, spent := Run(ops).sessions[id], Spent(ops, id);
            && session.rounds == Cap32(spent.rounds)
            && session.messages == Cap32(spent.messages)
            && session.tokens == Cap(spent.tokens)
  {
    RunShows(ops, id);
  }

  /** The counters of an open session are within its limits, and so is what it really used wherever the limit
      is not at the top of its integer type. */
  lemma {:induction false} OpenSessionsStayWithinLimits(ops: seq<Op>, id: u64)
    requires Short(ops) && id in Run(ops).sessions && Run(ops).sessions[id].status == Open
    ensures var session, spent := Run(ops).sessions[id], Spent(ops, id);
            && Within(session)
            && (spent.rounds <= session.limits.maxRounds || session.limits.maxRounds == U32_MAX)
            && (spent.messages <= session.limits.maxMessages || session.limits.maxMessages == U32_MAX)
            && (spent.tokens <= session.limits.maxTokens || session.limits.maxTokens == U64_MAX)
  {
    RunKeeps(ops);
    RunShows(ops, id);
  }

  // ----- exactly when a limit can be overrun -----

  /** The run leaves session `id`, opened under these limits, open. */
  ghost predicate LeavesOpen(ops: seq<Op>, id: u64, limits: Limits) {
    Short(ops) && id in Run(ops).sessions && Run(ops).sessions[id].status == Open
      && Run(ops).sessions[id].limits == limits
  }

  /** Every charge is one round with one or two messages and at most a 64-bit number of tokens. */
  lemma {:induction false} ChargesAddUp(ops: seq<Op>, id: u64)
    ensures var spent := Spent(ops, id);
            spent.rounds <= spent.messages <= 2 * spent.rounds
            && (spent.rounds == 0 ==> spent.tokens == 0) && (spent.rounds == 1 ==> spent.tokens <= U64_MAX)
    decreases |ops|
  {
    if |ops| > 0 { ChargesAddUp(ops[..|ops| - 1], id); }
  }

  /** Limits under which a session can be opened. */
  predicate Openable(limits: Limits) { limits.maxRounds > 0 && limits.maxMessages > 0 && limits.maxTokens > 0 }

  function AnswerAll(): Policy { Policy([Rule("*", Answer, false)], AgentOnly) }

  function Opens(limits: Limits): Op {
    OpenSession(Grant(true, "grant", "peer", "purpose", AnswerAll(), limits, 1, 0, I64_MAX), 0)
  }

  function OpenedUnder(limits: Limits, rounds: u32, messages: u32, tokens: u64): Session {
    Session("peer", "purpose", AnswerAll(), limits, 1, rounds, messages, tokens, Open)
  }

  lemma {:induction false} OpensOne(limits: Limits)
    requires Openable(limits)
    ensures var s := Run([Opens(limits)]);
            1 in s.sessions && s.sessions[1] == OpenedUnder(limits, 0, 0, 0) && s.used == {}
    ensures Spent([Opens(limits)], 1) == Usage(0, 0, 0)
  {
    assert [Opens(limits)][..0] == [];
    assert Run([]) == EMPTY;
  }

  function FreeExchange(): Op { Exchange(1, 0, true, false, 0) }

  /** A session opened and `n` exchanges without tokens. */
  function Exchanges(limits: Limits, n: nat): seq<Op> {
    [Opens(limits)] + seq(n, _ => FreeExchange())
  }

  /** While the capped counters stay within the limits, the session stays open. */
  lemma {:induction false} ExchangesStayOpen(limits: Limits, n: nat)
    requires Openable(limits) && Cap32(n) <= limits.maxRounds && Cap32(2 * n) <= limits.maxMessages
    ensures var ops := Exchanges(limits, n);
            && 1 in Run(ops).sessions && Run(ops).sessions[1] == OpenedUnder(limits, Cap32(n), Cap32(2 * n), 0)
            && Spent(ops, 1) == Usage(n, 2 * n, 0)
    decreases n
  {
    if n == 0 {
      assert Exchanges(limits, 0) == [Opens(limits)];
      OpensOne(limits);
    } else {
      ExchangesStayOpen(limits, n - 1);
      var ops := Exchanges(limits, n);
      assert ops[..|ops| - 1] == Exchanges(limits, n - 1) && ops[|ops| - 1] == FreeExchange();
      FreeExchangePasses(Run(Exchanges(limits, n - 1)), limits, n - 1);
    }
  }

  lemma {:induction false} FreeExchangePasses(s: Fabric, limits: Limits, n: nat)
    requires 1 in s.sessions && s.sessions[1] == OpenedUnder(limits, Cap32(n), Cap32(2 * n), 0)
    requires Cap32(n + 1) <= limits.maxRounds && Cap32(2 * (n + 1)) <= limits.maxMessages
    ensures var (t, reply) := Step(s, FreeExchange());
            reply.Exchanged? && 1 in t.sessions
              && t.sessions[1] == OpenedUnder(limits, Cap32(n + 1), Cap32(2 * (n + 1)), 0)
  {
    CapsAdd(n, 1);
    CapsAdd(2 * n, 2);
  }

  function Delivery(request: string, tokens: u64): Op {
    Deliver(1, "peer", Message(true, Disclosure(request, "any", false, true, false), tokens, true, false), 0)
  }

  lemma {:induction false} DeliveryPasses(s: Fabric, limits: Limits, n: u32, before: u64, request: string, tokens: u64)
    requires 1 in s.sessions && s.sessions[1] == OpenedUnder(limits, n, n, before) && (1, request) !in s.used
             && tokens > 0
    requires n < limits.maxRounds && n < limits.maxMessages && limits.maxTokens == U64_MAX
    ensures var (t, reply) := Step(s, Delivery(request, tokens));
            && reply.Authorized? && Sends(reply.outcome)
            && 1 in t.sessions && t.sessions[1] == OpenedUnder(limits, n + 1, n + 1, SatAdd(before, tokens))
            && t.used == s.used + {(1, request)}
  {
    assert FirstRule(AnswerAll().allow, "any") == Some(Rule("*", Answer, false));
  }

  /** Two deliveries use more tokens than a 64-bit counter can show. */
  lemma {:induction false} TwoDeliveriesStayOpen(limits: Limits)
    requires limits.maxTokens == U64_MAX && limits.maxRounds >= 2 && limits.maxMessages >= 2
    ensures var ops := [Opens(limits), Delivery("a", U64_MAX), Delivery("b", 1)];
            LeavesOpen(ops, 1, limits) && Spent(ops, 1) == Usage(2, 2, U64_MAX + 1)
  {
    var start, first := [Opens(limits)], [Opens(limits), Delivery("a", U64_MAX)];
    var both := [Opens(limits), Delivery("a", U64_MAX), Delivery("b", 1)];
    OpensOne(limits);
    assert first[..1] == start && both[..2] == first;
    DeliveryPasses(Run(start), limits, 0, 0, "a", U64_MAX);
    assert Spent(first, 1) == Usage(1, 1, U64_MAX);
    DeliveryPasses(Run(first), limits, 1, U64_MAX, "b", 1);
  }

  /** An open session can have used more tokens than allowed exactly when the limit is the greatest 64-bit
      number and the other limits leave room for two charges. */
  lemma {:induction false} TokensOverrunExactly(limits: Limits)
    requires Openable(limits)
    ensures (exists ops, id :: LeavesOpen(ops, id, limits) && Spent(ops, id).tokens > limits.maxTokens)
            <==> limits.maxTokens == U64_MAX && limits.maxRounds >= 2 && limits.maxMessages >= 2
  {
    if ops, id :| LeavesOpen(ops, id, limits) && Spent(ops, id).tokens > limits.maxTokens {
      OpenSessionsStayWithinLimits(ops, id);
      ChargesAddUp(ops, id);
      assert Spent(ops, id).rounds >= 2;
    }
    if limits.maxTokens == U64_MAX && limits.maxRounds >= 2 && limits.maxMessages >= 2 {
      TwoDeliveriesStayOpen(limits);
    }
  }

  /** It can have passed more messages than allowed exactly when the limit is the greatest 32-bit number and
      half as many rounds are allowed. */
  lemma {:induction false} MessagesOverrunExactly(limits: Limits)
    requires Openable(limits)
    ensures (exists ops, id :: LeavesOpen(ops, id, limits) && Spent(ops, id).messages > limits.maxMessages)
            <==> limits.maxMessages == U32_MAX && limits.maxRounds >= 0x8000_0000
  {
    if ops, id :| LeavesOpen(ops, id, limits) && Spent(ops, id).messages > limits.maxMessages {
      OpenSessionsStayWithinLimits(ops, id);
      ChargesAddUp(ops, id);
    }
    if limits.maxMessages == U32_MAX && limits.maxRounds >= 0x8000_0000 {
      var ops := Exchanges(limits, 0x8000_0000);
      ExchangesStayOpen(limits, 0x8000_0000);
      assert LeavesOpen(ops, 1, limits) && Spent(ops, 1).messages > limits.maxMessages;
    }
  }

  /** It can have run more rounds than allowed exactly when both 32-bit limits are the greatest there is: every
      round passes a message, so any smaller message limit bounds the rounds as well. */
  lemma {:induction false} RoundsOverrunExactly(limits: Limits)
    requires Openable(limits)
    ensures (exists ops, id :: LeavesOpen(ops, id, limits) && Spent(ops, id).rounds > limits.maxRounds)
            <==> limits.maxRounds == U32_MAX && limits.maxMessages == U32_MAX
  {
    if ops, id :| LeavesOpen(ops, id, limits) && Spent(ops, id).rounds > limits.maxRounds {
      OpenSessionsStayWithinLimits(ops, id);
      ChargesAddUp(ops, id);
    }
    if limits.maxRounds == U32_MAX && limits.maxMessages == U32_MAX {
      var ops := Exchanges(limits, 0x1_0000_0000);
      ExchangesStayOpen(limits, 0x1_0000_0000);
      assert LeavesOpen(ops, 1, limits) && Spent(ops, 1).rounds > limits.maxRounds;
    }
  }

  /** Nothing changes a terminated session any more. */
  lemma {:induction false} TerminatedIsFinal(ops: seq<Op>, i: nat, j: nat, id: u64)
    requires Short(ops) && i <= j <= |ops|
    requires id in Before(ops, i).sessions && Before(ops, i).sessions[id].status == Terminated
    ensures id in Before(ops, j).sessions && Before(ops, j).sessions[id] == Before(ops, i).sessions[id]
  {
    RunGrows(ops, i, j);
  }

  /** The full history holds one opening per session, one ending per terminated session and none per open
      one, and one decision per consumed (session, request) pair. */
  lemma {:induction false} HistoryIsExact(ops: seq<Op>, id: u64, request: string)
    requires Short(ops)
    ensures var s := Run(ops);
            && Count(s.history, Opening(id)) == (if id in s.sessions then 1 else 0)
            && Count(s.history, Ending(id)) ==
               (if id in s.sessions && s.sessions[id].status == Terminated then 1 else 0)
            && Count(s.history, Deciding(id, request)) == (if (id, request) in s.used then 1 else 0)
  {
    RunKeeps(ops);
    assert Count(Run(ops).history, Opening(id)) == Expected(Run(ops), Opening(id));
    assert Count(Run(ops).history, Ending(id)) == Expected(Run(ops), Ending(id));
    assert Count(Run(ops).history, Deciding(id, request)) == Expected(Run(ops), Deciding(id, request));
  }

  /** Operation `k` decides the disclosure request: it adds a decision to the history. */
  predicate Decides(ops: seq<Op>, k: nat, id: u64, request: string)
    requires k < |ops|
  {
    Count(Before(ops, k + 1).history, Deciding(id, request)) > Count(Before(ops, k).history, Deciding(id, request))
  }

  /** The operation asks to decide this request in an open, unexpired session, as that session's participant. */
  predicate MayDecide(s: Fabric, op: Op, id: u64, request: string) {
    && id in s.sessions && s.sessions[id].status == Open
    && match op
       case Deliver(session, participant, m, clock) =>
         session == id && m.disclosure.request == request && m.wellFormed && m.tokens > 0
         && s.sessions[id].participant == participant && clock < s.sessions[id].expiresAt
       case Disclose(session, d, clock) => session == id && d.request == request && clock < s.sessions[id].expiresAt
       case OpenSession(_, _) => false
       case Exchange(_, _, _, _, _) => false
       case Terminate(_, _) => false
  }

  lemma {:induction false} StepConsumes(s: Fabric, op: Op, id: u64, request: string)
    ensures (id, request) in Step(s, op).0.used <==> (id, request) in s.used || MayDecide(s, op, id, request)
  {
  }

  lemma {:induction false} UsedWasDecided(ops: seq<Op>, k: nat, id: u64, request: string)
    requires Short(ops) && k <= |ops|
    ensures (id, request) in Before(ops, k).used <==> exists i :: 0 <= i < k && Decides(ops, i, id, request)
    decreases k
  {
    if k > 0 {
      UsedWasDecided(ops, k - 1, id, request);
      HistoryIsExact(ops[..k], id, request);
      HistoryIsExact(ops[..k - 1], id, request);
      RunGrows(ops, k - 1, k);
      if (id, request) in Before(ops, k).used && (id, request) !in Before(ops, k - 1).used {
        assert Decides(ops, k - 1, id, request);
      }
      if i :| 0 <= i < k && Decides(ops, i, id, request) {
        assert i == k - 1 || i < k - 1;
      }
    }
  }

  /** A (session, request) pair is decided exactly when an operation may decide it and none has before:
      at most once, whether by a delivery or by a disclosure. */
  lemma {:induction false} DecidedExactly(ops: seq<Op>, k: nat, id: u64, request: string)
    requires Short(ops) && k < |ops|
    ensures Decides(ops, k, id, request) <==>
            MayDecide(Before(ops, k), ops[k], id, request) && forall i :: 0 <= i < k ==> !Decides(ops, i, id, request)
  {
    UsedWasDecided(ops, k, id, request);
    HistoryIsExact(ops[..k], id, request);
    HistoryIsExact(ops[..k + 1], id, request);
    BeforeNext(ops, k);
    StepConsumes(Before(ops, k), ops[k], id, request);
  }
}

/** The communication fabric as an object. */
module SessionEngine {
  import opened Common
  import S = Sessions

  class InMemoryCommunicationFabric {
    var sequence: u64
    var sessions: map<u64, S.Session>
    var usedDisclosureRequests: set<(u64, string)>
    var events: seq<S.Event>
    ghost var drained: seq<S.Event>

    ghost function Current(): S.Fabric
      reads this
    {
      S.Fabric(sequence, sessions, usedDisclosureRequests, drained + events)
    }

    constructor ()
      ensures Current() == S.EMPTY && events == []
    {
      sequence, sessions, usedDisclosureRequests, events, drained := 1, map[], {}, [], [];
    }

    method Push(e: S.Event)
      modifies `events
      ensures Current() == S.Log(old(Current()), e) && events == old(events) + [e]
    {
      events := events + [e];
      assert drained + (old(events) + [e]) == drained + old(events) + [e];
    }

    /** Draining the buffer leaves the full history as it was. */
    method TakeEvents() returns (taken: seq<S.Event>)
      modifies `events, `drained
      ensures taken == old(events) && events == [] && Current() == old(Current())
    {
      taken := events;
      drained := drained + events;
      events := [];
    }

    method OpenSession(g: S.Grant, clock: i64) returns (reply: S.Reply)
      modifies this
      ensures (Current(), reply) == S.OpenStep(old(Current()), g, clock)
    {
      if !g.wellFormed || g.ttl == 0 || g.limits.maxMessages == 0 || g.limits.maxTokens == 0
        || g.limits.maxRounds == 0 {
        return S.Failed(S.InvalidGrant);
      }
      if g.ttl > I64_MAX { return S.Failed(S.TtlOutOfRange); }
      var now := if clock >= g.issuedAt then clock else g.issuedAt;
      var expiresAt := SatAddSigned(now, g.ttl);
      if expiresAt > g.envelopeExpiresAt { return S.Failed(S.EnvelopeExceeded); }
      var id := sequence;
      sequence := (sequence + 1) % (U64_MAX + 1);
      Push(S.GrantEvent(g.reference));
      Push(S.OpenedEvent(id));
      sessions := sessions[id := S.Session(g.participant, g.purpose, g.policy, g.limits, expiresAt, 0, 0, 0, S.Open)];
      return S.OpenedReply(id);
    }

    /** Marks the session and logs the termination. */
    method End(id: u64, reason: string)
      requires id in sessions
      modifies `sessions, `events
      ensures Current() == S.End(old(Current()), id, reason)
    {
      sessions := sessions[id := sessions[id].(status := S.Terminated)];
      Push(S.EndedEvent(id, reason));
    }

    method RecordExchange(id: u64, tokens: u64, aligned: bool, risky: bool, clock: i64) returns (reply: S.Reply)
      modifies this
      ensures (Current(), reply) == S.ExchangeStep(old(Current()), id, tokens, aligned, risky, clock)
    {
      if id !in sessions { return S.Failed(S.NotRegistered); }
      if sessions[id].status != S.Open { return S.Failed(S.Inactive); }
      var session := sessions[id];
      session := session.(rounds := S.Cap32(session.rounds + 1));
      session := session.(messages := S.Cap32(session.messages + 2));
      session := session.(tokens := SatAdd(session.tokens, tokens));
      sessions := sessions[id := session];
      var reason := None;
      if clock >= session.expiresAt {
        reason := Some("ttl_expired");
      } else {
        reason := S.Boundary(session.limits, session.rounds, session.messages, session.tokens, aligned, risky);
      }
      if reason.Some? { End(id, reason.value); }
      return S.Exchanged(reason);
    }

    method AuthorizeDelivery(id: u64, participant: string, m: S.Message, clock: i64) returns (reply: S.Reply)
      modifies this
      ensures (Current(), reply) == S.DeliverStep(old(Current()), id, participant, m, clock)
    {
      if !m.wellFormed || m.tokens == 0 { return S.Failed(S.InvalidMessage); }
      if id !in sessions { return S.Failed(S.NotRegistered); }
      var session := sessions[id];
      if session.status != S.Open || session.participant != participant { return S.Failed(S.Inactive); }
      if clock >= session.expiresAt {
        End(id, "ttl_expired");
        return S.Failed(S.TtlExpired);
      }
      if (id, m.disclosure.request) in usedDisclosureRequests { return S.Failed(S.AlreadyConsumed); }
      usedDisclosureRequests := usedDisclosureRequests + {(id, m.disclosure.request)};
      var outcome := S.Decision(session.policy, m.disclosure);
      var representation := S.Represents(session.policy);
      Push(S.AppliedEvent(id, m.disclosure.request, outcome, representation));
      if S.Sends(outcome) {
        var rounds, messages, tokens := S.Cap32(session.rounds + 1), S.Cap32(session.messages + 1),
          SatAdd(session.tokens, m.tokens);
        var reason := S.Boundary(session.limits, rounds, messages, tokens, m.aligned, m.risky);
        if reason.Some? {
          End(id, reason.value);
          return S.Failed(S.BoundaryExceeded);
        }
        sessions := sessions[id := session.(rounds := rounds, messages := messages, tokens := tokens)];
      }
      return S.Authorized(outcome, representation);
    }

    method ApplyDisclosure(id: u64, d: S.Disclosure, clock: i64) returns (outcome: S.DisclosureOutcome)
      modifies this
      ensures (Current(), S.Disclosed(outcome)) == S.DiscloseStep(old(Current()), id, d, clock)
    {
      if id !in sessions || sessions[id].status != S.Open || clock >= sessions[id].expiresAt { return S.Refuse; }
      if (id, d.request) in usedDisclosureRequests { return S.Refuse; }
      usedDisclosureRequests := usedDisclosureRequests + {(id, d.request)};
      outcome := S.Decision(sessions[id].policy, d);
      Push(S.AppliedEvent(id, d.request, outcome, S.Represents(sessions[id].policy)));
    }

    method Terminate(id: u64, reason: string) returns (reply: S.Reply)
      modifies this
      ensures (Current(), reply) == S.TerminateStep(old(Current()), id, reason)
    {
      if id !in sessions { return S.Failed(S.NotRegistered); }
      if sessions[id].status == S.Terminated { return S.Done; }
      End(id, reason);
      return S.Done;
    }
  }
}
