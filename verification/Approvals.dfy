/** The approval broker: requests, grants bound to them, and authorizations against the grants. */
module Approvals {
  import opened Common

  datatype Request = Request(
    id: string,
    session: string,
    summary: string,
    scope: string,
    permissions: set<string>,
    expiresAt: i64,
    choices: seq<string>,
    digest: string,
    policyVersion: nat,
    toolVersion: nat)

  datatype GrantOutcome = Granted | Denied | Expired

  /** An argument matcher is known by its name; an intent lists the matchers that accept it. */
  datatype GrantScope = OneShot | Session | ParamPattern(pattern: string)

  datatype Grant = Grant(
    id: string,
    outcome: GrantOutcome,
    scope: GrantScope,
    approver: string,
    digest: string,
    policyVersion: nat,
    toolVersion: nat,
    nonce: string,
    useBy: i64)

  datatype Intent = Intent(scope: string, permissions: set<string>, accepted: set<string>)

  datatype Authorization = Authorization(
    id: string,
    session: string,
    scope: string,
    digest: string,
    policyVersion: nat,
    toolVersion: nat,
    now: i64,
    intent: Intent)

  datatype ActiveGrant = ActiveGrant(request: Request, grant: Grant, consumed: bool)

  datatype Broker = Broker(
    pending: map<string, Request>,
    active: map<string, ActiveGrant>,
    knownIds: set<string>,
    nonces: set<string>)

  const EMPTY: Broker := Broker(map[], map[], {}, {})

  datatype ApprovalError =
    | AlreadyExpired
    | Incomplete
    | IdUsed
    | NotPending
    | WrongRequest
    | NoPrincipal
    | BindingMismatch
    | NonceRefused
    | ExpiryExceeded
    | NotActive
    | NotGranted
    | ScopeMismatch
    | PlanChanged
    | VersionChanged
    | PermissionNotApproved
    | Consumed
    | PatternExceeded

  /** `clock` is what the broker's own clock reads during the call. */
  datatype Op =
    | Ask(request: Request, clock: i64)
    | Resolve(ticket: string, grant: Grant, clock: i64)
    | Authorize(authorization: Authorization, clock: i64)

  // ----- operations -----

  function AskStep(s: Broker, request: Request, now: i64): (Broker, Outcome<ApprovalError>) {
    if request.expiresAt <= now then (s, Fail(AlreadyExpired))
    else if Blank(request.summary) || |request.choices| == 0 || Blank(request.digest) then (s, Fail(Incomplete))
    else if request.id in s.knownIds then (s, Fail(IdUsed))
    else (s.(knownIds := s.knownIds + {request.id}, pending := s.pending[request.id := request]), Pass)
  }

  function ValidateGrant(request: Request, ticket: string, grant: Grant, now: i64, nonces: set<string>)
    : Outcome<ApprovalError>
  {
    if request.expiresAt <= now then Fail(AlreadyExpired)
    else if ticket != request.id || grant.id != request.id then Fail(WrongRequest)
    else if Blank(grant.approver) then Fail(NoPrincipal)
    else if grant.digest != request.digest || grant.policyVersion != request.policyVersion
      || grant.toolVersion != request.toolVersion then
      Fail(BindingMismatch)
    else if Blank(grant.nonce) || grant.nonce in nonces then Fail(NonceRefused)
    else if grant.useBy <= now || grant.useBy > request.expiresAt then Fail(ExpiryExceeded)
    else Pass
  }

  function ResolveStep(s: Broker, ticket: string, grant: Grant, now: i64): (Broker, Outcome<ApprovalError>) {
    if ticket !in s.pending then (s, Fail(NotPending))
    else
      var request := s.pending[ticket];
      var verdict := ValidateGrant(request, ticket, grant, now, s.nonces);
      if verdict.Fail? then (s, verdict)
      else
        var settled := s.(pending := s.pending - {ticket}, nonces := s.nonces + {grant.nonce});
        var granted := s.active[grant.id := ActiveGrant(request, grant, false)];
        (if grant.outcome == Granted then settled.(active := granted) else settled, Pass)
  }

  function Max(a: i64, b: i64): i64 { if a >= b then a else b }

  /** The later of the caller's clock and the broker's decides. */
  function AuthorizeVerdict(active: ActiveGrant, a: Authorization, now: i64): Outcome<ApprovalError> {
    var request, grant := active.request, active.grant;
    if grant.outcome != Granted then Fail(NotGranted)
    else if now >= grant.useBy || now >= request.expiresAt then Fail(AlreadyExpired)
    else if a.session != request.session || a.scope != request.scope || a.intent.scope != request.scope then
      Fail(ScopeMismatch)
    else if a.digest != grant.digest || a.digest != request.digest then Fail(PlanChanged)
    else if a.policyVersion != grant.policyVersion || a.policyVersion != request.policyVersion
      || a.toolVersion != grant.toolVersion || a.toolVersion != request.toolVersion then Fail(VersionChanged)
    else if !(a.intent.permissions <= request.permissions) then Fail(PermissionNotApproved)
    else match grant.scope
      case OneShot => if active.consumed then Fail(Consumed) else Pass
      case Session => Pass
      case ParamPattern(pattern) => if pattern in a.intent.accepted then Pass else Fail(PatternExceeded)
  }

  function AuthorizeStep(s: Broker, a: Authorization, clock: i64): (Broker, Outcome<ApprovalError>) {
    if a.id !in s.active then (s, Fail(NotActive))
    else
      var active := s.active[a.id];
      var verdict := AuthorizeVerdict(active, a, Max(clock, a.now));
      if verdict.Pass? && active.grant.scope.OneShot? then
        (s.(active := s.active[a.id := active.(consumed := true)]), Pass)
      else (s, verdict)
  }

  function Step(s: Broker, op: Op): (Broker, Outcome<ApprovalError>) {
    match op
    case Ask(request, clock) => AskStep(s, request, clock)
    case Resolve(ticket, grant, clock) => ResolveStep(s, ticket, grant, clock)
    case Authorize(authorization, clock) => AuthorizeStep(s, authorization, clock)
  }

  // ----- runs from the empty broker -----

  function Run(ops: seq<Op>): Broker
    decreases |ops|
  {
    if |ops| == 0 then EMPTY else Step(Run(ops[..|ops| - 1]), ops[|ops| - 1]).0
  }

  /** The broker before operation `k` of the run. */
  function Before(ops: seq<Op>, k: nat): Broker
    requires k <= |ops|
  {
    Run(ops[..k])
  }

  /** The operation at `k` succeeds. */
  predicate Succeeds(ops: seq<Op>, k: nat)
    requires k < |ops|
  {
    Step(Before(ops, k), ops[k]).1.Pass?
  }

  lemma {:induction false} BeforeNext(ops: seq<Op>, k: nat)
    requires k < |ops|
    ensures Before(ops, k + 1) == Step(Before(ops, k), ops[k]).0
  {
    assert ops[..k + 1][..k] == ops[..k];
  }

  predicate Asked(ops: seq<Op>, k: nat, request: Request) {
    k < |ops| && ops[k].Ask? && ops[k].request == request && Succeeds(ops, k)
  }

  predicate Resolved(ops: seq<Op>, k: nat, grant: Grant) {
    k < |ops| && ops[k].Resolve? && ops[k].grant == grant && Succeeds(ops, k)
  }

  predicate Authorized(ops: seq<Op>, k: nat, id: string) {
    k < |ops| && ops[k].Authorize? && ops[k].authorization.id == id && Succeeds(ops, k)
  }

  // ----- what every run keeps -----

  ghost predicate Inv(s: Broker) {
    && s.pending.Keys !! s.active.Keys
    && s.pending.Keys <= s.knownIds && s.active.Keys <= s.knownIds
    && (forall id :: id in s.pending ==> s.pending[id].id == id)
    && (forall id :: id in s.active ==> Bound(s.active[id], id))
  }

  /** A grant in force belongs to its request. */
  ghost predicate Bound(a: ActiveGrant, id: string) {
    && a.request.id == id && a.grant.id == id && a.grant.outcome == Granted
    && a.grant.digest == a.request.digest && a.grant.policyVersion == a.request.policyVersion
    && a.grant.toolVersion == a.request.toolVersion && a.grant.useBy <= a.request.expiresAt
  }

  /** What no step undoes: known ids, used nonces, a settled id, and a grant in force up to its consumption. */
  ghost predicate Grows(s: Broker, t: Broker) {
    && s.knownIds <= t.knownIds && s.nonces <= t.nonces
    && (forall id :: id in s.knownIds && id !in s.pending ==> id !in t.pending)
    && (forall id :: id in s.active ==> id in t.active && t.active[id].request == s.active[id].request
                                        && t.active[id].grant == s.active[id].grant
                                        && (s.active[id].consumed ==> t.active[id].consumed))
  }

  lemma {:induction false} StepKeepsInv(s: Broker, op: Op)
    requires Inv(s)
    ensures Inv(Step(s, op).0)
  {
  }

  /** How an id becomes pending, how it comes into force, and how its grant is consumed. */
  lemma {:induction false} StepOrigins(s: Broker, op: Op, id: string)
    requires Inv(s)
    ensures var (t, r) := Step(s, op);
            && (id in t.pending ==> if id in s.pending then t.pending[id] == s.pending[id]
                                    else op.Ask? && r.Pass? && op.request == t.pending[id])
            && (id in t.active && id !in s.active ==> op.Resolve? && r.Pass? && id in s.pending
                                                      && t.active[id] == ActiveGrant(s.pending[id], op.grant, false))
            && (id in s.active ==> id in t.active && (t.active[id].consumed <==>
                                   s.active[id].consumed
                                     || (op.Authorize? && op.authorization.id == id && r.Pass?
                                         && s.active[id].grant.scope.OneShot?)))
  {
  }

  lemma {:induction false} StepGrows(s: Broker, op: Op)
    requires Inv(s)
    ensures Grows(s, Step(s, op).0)
  {
    var t := Step(s, op).0;
    forall id | id in s.active
      ensures id in t.active && t.active[id].request == s.active[id].request && t.active[id].grant == s.active[id].grant
      ensures s.active[id].consumed ==> t.active[id].consumed
    {
      StepOrigins(s, op, id);
    }
  }

  lemma {:induction false} StepKeeps(s: Broker, op: Op)
    requires Inv(s)
    ensures Inv(Step(s, op).0) && Grows(s, Step(s, op).0)
  {
    StepKeepsInv(s, op);
    StepGrows(s, op);
  }

  lemma {:induction false} RunKeeps(ops: seq<Op>)
    ensures Inv(Run(ops))
    decreases |ops|
  {
    if |ops| > 0 {
      RunKeeps(ops[..|ops| - 1]);
      StepKeeps(Run(ops[..|ops| - 1]), ops[|ops| - 1]);
    }
  }

  lemma {:induction false} RunGrows(ops: seq<Op>, i: nat, j: nat)
    requires i <= j <= |ops|
    ensures Grows(Before(ops, i), Before(ops, j)) && Inv(Before(ops, i)) && Inv(Before(ops, j))
    decreases j
  {
    RunKeeps(ops[..i]);
    RunKeeps(ops[..j]);
    if i < j {
      RunGrows(ops, i, j - 1);
      StepKeeps(Before(ops, j - 1), ops[j - 1]);
      BeforeNext(ops, j - 1);
    }
  }

  // ----- uniqueness over whole runs -----

  /** An id is requested at most once in a run. */
  lemma {:induction false} IdsAreRequestedOnce(ops: seq<Op>, i: nat, j: nat)
    requires i < j < |ops| && ops[i].Ask? && ops[j].Ask? && Succeeds(ops, i) && Succeeds(ops, j)
    ensures ops[i].request.id != ops[j].request.id
  {
    BeforeNext(ops, i);
    RunGrows(ops, i + 1, j);
  }

  /** An id is resolved at most once in a run, and no nonce is used twice. */
  lemma {:induction false} ResolutionsAreUnique(ops: seq<Op>, i: nat, j: nat)
    requires i < j < |ops| && ops[i].Resolve? && ops[j].Resolve? && Succeeds(ops, i) && Succeeds(ops, j)
    ensures ops[i].grant.id != ops[j].grant.id && ops[i].ticket != ops[j].ticket
            && ops[i].grant.nonce != ops[j].grant.nonce
  {
    BeforeNext(ops, i);
    RunGrows(ops, 0, i);
    RunGrows(ops, i + 1, j);
  }

  /** A one-shot grant authorizes at most one action in a run. */
  lemma {:induction false} OneShotAuthorizesOnce(ops: seq<Op>, i: nat, j: nat, id: string)
    requires i < j && Authorized(ops, i, id) && Authorized(ops, j, id)
    ensures id in Before(ops, j).active && !Before(ops, j).active[id].grant.scope.OneShot?
  {
    RunGrows(ops, 0, i);
    BeforeNext(ops, i);
    RunGrows(ops, i + 1, j);
  }

  // ----- where a grant comes from -----

  /** A pending request is one that was asked for earlier. */
  lemma {:induction false} PendingWasAsked(ops: seq<Op>, k: nat, id: string) returns (i: nat)
    requires k <= |ops| && id in Before(ops, k).pending
    ensures i < k && Asked(ops, i, Before(ops, k).pending[id]) && Before(ops, k).pending[id].id == id
    decreases k
  {
    RunKeeps(ops[..k]);
    RunKeeps(ops[..k - 1]);
    BeforeNext(ops, k - 1);
    StepOrigins(Before(ops, k - 1), ops[k - 1], id);
    if id in Before(ops, k - 1).pending {
      i := PendingWasAsked(ops, k - 1, id);
    } else {
      i := k - 1;
    }
  }

  /** A grant in force was resolved earlier, for a request asked before that; consumed means used since. */
  ghost predicate Origin(ops: seq<Op>, k: nat, a: ActiveGrant, i: nat, j: nat) {
    && i < j < k <= |ops| && Asked(ops, i, a.request) && Resolved(ops, j, a.grant)
    && (a.consumed <==> a.grant.scope.OneShot? && exists m :: j < m < k && Authorized(ops, m, a.request.id))
  }

  lemma {:induction false} ActiveHasOrigin(ops: seq<Op>, k: nat, id: string) returns (i: nat, j: nat)
    requires k <= |ops| && id in Before(ops, k).active
    ensures Origin(ops, k, Before(ops, k).active[id], i, j) && Bound(Before(ops, k).active[id], id)
    decreases k
  {
    ActiveIsBound(ops, k, id);
    if id in Before(ops, k - 1).active {
      i, j := ActiveHasOrigin(ops, k - 1, id);
      OriginExtends(ops, k - 1, id, i, j);
    } else {
      i, j := NewOrigin(ops, k, id);
    }
  }

  lemma {:induction false} ActiveIsBound(ops: seq<Op>, k: nat, id: string)
    requires k <= |ops| && id in Before(ops, k).active
    ensures 0 < k && Bound(Before(ops, k).active[id], id)
  {
    RunKeeps(ops[..k]);
  }

  lemma {:induction false} NewOrigin(ops: seq<Op>, k: nat, id: string) returns (i: nat, j: nat)
    requires 0 < k <= |ops| && id in Before(ops, k).active && id !in Before(ops, k - 1).active
    ensures Origin(ops, k, Before(ops, k).active[id], i, j) && Bound(Before(ops, k).active[id], id)
  {
    RunKeeps(ops[..k]);
    RunKeeps(ops[..k - 1]);
    BeforeNext(ops, k - 1);
    StepOrigins(Before(ops, k - 1), ops[k - 1], id);
    i := PendingWasAsked(ops, k - 1, id);
    j := k - 1;
    assert Resolved(ops, j, ops[j].grant);
  }

  lemma {:induction false} OriginExtends(ops: seq<Op>, k: nat, id: string, i: nat, j: nat)
    requires k < |ops| && id in Before(ops, k).active && Bound(Before(ops, k).active[id], id)
    requires Origin(ops, k, Before(ops, k).active[id], i, j)
    ensures id in Before(ops, k + 1).active && Origin(ops, k + 1, Before(ops, k + 1).active[id], i, j)
  {
    BeforeNext(ops, k);
    RunKeeps(ops[..k]);
    StepKeeps(Before(ops, k), ops[k]);
    StepOrigins(Before(ops, k), ops[k], id);
    var a, b := Before(ops, k).active[id], Before(ops, k + 1).active[id];
    if a.grant.scope.OneShot? {
      if b.consumed && !a.consumed { assert Authorized(ops, k, id); }
      if a.consumed {
        var m :| j < m < k && Authorized(ops, m, id);
        assert j < m < k + 1;
      }
      if Authorized(ops, k, id) { assert b.consumed; }
    }
  }

  /** The grant that a resolution puts in force stays in force, unchanged but for its consumption. */
  lemma {:induction false} ResolutionStays(ops: seq<Op>, j: nat, k: nat)
    requires j < k <= |ops| && ops[j].Resolve? && Succeeds(ops, j) && ops[j].grant.outcome == Granted
    ensures var id := ops[j].grant.id;
            id in Before(ops, k).active && Before(ops, k).active[id].grant == ops[j].grant
  {
    BeforeNext(ops, j);
    RunGrows(ops, j + 1, k);
  }

  // ----- what is asked and what is resolved -----

  /** An accepted request for `id`. */
  predicate AskedId(ops: seq<Op>, k: nat, id: string) {
    k < |ops| && ops[k].Ask? && ops[k].request.id == id && Succeeds(ops, k)
  }

  /** An accepted resolution of `ticket`, whatever its outcome. */
  predicate ResolvedTicket(ops: seq<Op>, k: nat, ticket: string) {
    k < |ops| && ops[k].Resolve? && ops[k].ticket == ticket && Succeeds(ops, k)
  }

  predicate UsedNonce(ops: seq<Op>, k: nat, nonce: string) {
    k < |ops| && ops[k].Resolve? && ops[k].grant.nonce == nonce && Succeeds(ops, k)
  }

  lemma {:induction false} KnownWasAsked(ops: seq<Op>, k: nat, id: string)
    requires k <= |ops|
    ensures id in Before(ops, k).knownIds <==> exists i :: 0 <= i < k && AskedId(ops, i, id)
    decreases k
  {
    if k > 0 {
      KnownWasAsked(ops, k - 1, id);
      BeforeNext(ops, k - 1);
      if AskedId(ops, k - 1, id) { assert 0 <= k - 1 < k; }
    }
  }

  lemma {:induction false} NonceWasUsed(ops: seq<Op>, k: nat, nonce: string)
    requires k <= |ops|
    ensures nonce in Before(ops, k).nonces <==> exists j :: 0 <= j < k && UsedNonce(ops, j, nonce)
    decreases k
  {
    if k > 0 {
      NonceWasUsed(ops, k - 1, nonce);
      BeforeNext(ops, k - 1);
      if UsedNonce(ops, k - 1, nonce) { assert 0 <= k - 1 < k; }
    }
  }

  /** The request was accepted at `i` and its ticket has not been resolved since, up to `k`. */
  ghost predicate Open(ops: seq<Op>, k: nat, request: Request, i: nat) {
    i < k <= |ops| && Asked(ops, i, request) && forall j :: 0 <= j < k ==> !ResolvedTicket(ops, j, request.id)
  }

  lemma {:induction false} AskedIsPending(ops: seq<Op>, k: nat, request: Request, i: nat)
    requires Open(ops, k, request, i)
    ensures request.id in Before(ops, k).pending && Before(ops, k).pending[request.id] == request
    decreases k
  {
    BeforeNext(ops, k - 1);
    RunKeeps(ops[..k - 1]);
    if i < k - 1 {
      AskedIsPending(ops, k - 1, request, i);
      RunGrows(ops, 0, k - 1);
      assert !ResolvedTicket(ops, k - 1, request.id);
    }
  }

  lemma {:induction false} PendingIsOpen(ops: seq<Op>, k: nat, id: string) returns (i: nat)
    requires k <= |ops| && id in Before(ops, k).pending
    ensures Open(ops, k, Before(ops, k).pending[id], i) && Before(ops, k).pending[id].id == id
  {
    i := PendingWasAsked(ops, k, id);
    forall j | 0 <= j < k ensures !ResolvedTicket(ops, j, id) {
      if ResolvedTicket(ops, j, id) {
        BeforeNext(ops, j);
        RunGrows(ops, 0, j);
        RunGrows(ops, j + 1, k);
      }
    }
  }

  /** A request is accepted exactly when it is complete, has not expired and is the first accepted under its id. */
  lemma {:induction false} AskSucceedsExactly(ops: seq<Op>, k: nat)
    requires k < |ops| && ops[k].Ask?
    ensures var request := ops[k].request;
            Succeeds(ops, k) <==>
              && ops[k].clock < request.expiresAt
              && !Blank(request.summary) && !Blank(request.digest) && |request.choices| > 0
              && forall i :: 0 <= i < k ==> !AskedId(ops, i, request.id)
  {
    KnownWasAsked(ops, k, ops[k].request.id);
  }

  /** The grant answers the request: same id, digest and versions, a named approver, and a use-by that lies after
      the clock and not past the request's expiry. */
  predicate Answers(request: Request, ticket: string, grant: Grant, clock: i64) {
    && request.id == ticket && grant.id == ticket && clock < request.expiresAt && !Blank(grant.approver)
    && grant.digest == request.digest && grant.policyVersion == request.policyVersion
    && grant.toolVersion == request.toolVersion && clock < grant.useBy <= request.expiresAt
  }

  /** A resolution is accepted exactly when the run holds a request under the ticket that is not resolved yet and
      that the grant answers, and the grant's nonce is non-blank and new to the run. */
  lemma {:induction false} ResolveSucceedsExactly(ops: seq<Op>, k: nat)
    requires k < |ops| && ops[k].Resolve?
    ensures var ticket, grant := ops[k].ticket, ops[k].grant;
            Succeeds(ops, k) <==>
              && (exists request, i :: Open(ops, k, request, i) && Answers(request, ticket, grant, ops[k].clock))
              && !Blank(grant.nonce) && forall j :: 0 <= j < k ==> !UsedNonce(ops, j, grant.nonce)
  {
    var ticket, grant := ops[k].ticket, ops[k].grant;
    NonceWasUsed(ops, k, grant.nonce);
    if Succeeds(ops, k) {
      var i := PendingIsOpen(ops, k, ticket);
      assert Answers(Before(ops, k).pending[ticket], ticket, grant, ops[k].clock);
    }
    if request, i :| Open(ops, k, request, i) && Answers(request, ticket, grant, ops[k].clock) {
      AskedIsPending(ops, k, request, i);
    }
  }

  // ----- why a call is refused -----

  /** What each refusal says is true of the call. */
  ghost predicate Honest(s: Broker, op: Op, error: ApprovalError) {
    match op
    case Ask(request, clock) =>
      && (error.AlreadyExpired? ==> request.expiresAt <= clock)
      && (error.Incomplete? ==> Blank(request.summary) || Blank(request.digest) || request.choices == [])
      && (error.IdUsed? ==> request.id in s.knownIds)
      && error in {AlreadyExpired, Incomplete, IdUsed}
    case Resolve(ticket, grant, clock) =>
      if error.NotPending? then ticket !in s.pending
      else ticket in s.pending && DishonouredBy(s.pending[ticket], ticket, grant, clock, s.nonces, error)
    case Authorize(a, clock) =>
      if error.NotActive? then a.id !in s.active
      else a.id in s.active && RefusedBy(s.active[a.id], a, clock, error)
  }

  ghost predicate DishonouredBy(
      request: Request, ticket: string, grant: Grant, clock: i64, nonces: set<string>, error: ApprovalError)
  {
    && (error.AlreadyExpired? ==> request.expiresAt <= clock)
    && (error.WrongRequest? ==> ticket != request.id || grant.id != request.id)
    && (error.NoPrincipal? ==> Blank(grant.approver))
    && (error.BindingMismatch? ==> (grant.digest, grant.policyVersion, grant.toolVersion) !=
                                   (request.digest, request.policyVersion, request.toolVersion))
    && (error.NonceRefused? ==> Blank(grant.nonce) || grant.nonce in nonces)
    && (error.ExpiryExceeded? ==> !(clock < grant.useBy <= request.expiresAt))
    && error in {AlreadyExpired, WrongRequest, NoPrincipal, BindingMismatch, NonceRefused, ExpiryExceeded}
  }

  ghost predicate RefusedBy(active: ActiveGrant, a: Authorization, clock: i64, error: ApprovalError) {
    var request, grant := active.request, active.grant;
    && (error.AlreadyExpired? ==> grant.useBy <= clock || request.expiresAt <= clock || grant.useBy <= a.now
                                  || request.expiresAt <= a.now)
    && (error.ScopeMismatch? ==> a.session != request.session || !(a.scope == a.intent.scope == request.scope))
    && (error.PlanChanged? ==> a.digest != request.digest)
    && (error.VersionChanged? ==> (a.policyVersion, a.toolVersion) != (request.policyVersion, request.toolVersion))
    && (error.PermissionNotApproved? ==> exists p :: p in a.intent.permissions && p !in request.permissions)
    && (error.Consumed? ==> grant.scope.OneShot? && active.consumed)
    && (error.PatternExceeded? ==> grant.scope.ParamPattern? && grant.scope.pattern !in a.intent.accepted)
    && error in {AlreadyExpired, ScopeMismatch, PlanChanged, VersionChanged, PermissionNotApproved, Consumed,
                 PatternExceeded}
  }

  /** In every run the reason given for a refusal holds of the refused call. */
  lemma {:induction false} RefusalsAreHonest(ops: seq<Op>, k: nat)
    requires k < |ops| && !Succeeds(ops, k)
    ensures Honest(Before(ops, k), ops[k], Step(Before(ops, k), ops[k]).1.error)
  {
    RunKeeps(ops[..k]);
    var s := Before(ops, k);
    if ops[k].Authorize? && ops[k].authorization.id in s.active {
      assert Bound(s.active[ops[k].authorization.id], ops[k].authorization.id);
    }
  }

  // ----- the main result -----

  /** The authorization asks for what `request` asked and `grant` granted, and by neither the caller's clock nor
      the broker's has either expired. */
  predicate Covers(request: Request, grant: Grant, a: Authorization, clock: i64) {
    && request.id == a.id && grant.id == a.id && grant.outcome == Granted
    && clock < grant.useBy && clock < request.expiresAt && a.now < grant.useBy && a.now < request.expiresAt
    && a.session == request.session && a.scope == request.scope && a.intent.scope == request.scope
    && a.digest == request.digest && a.policyVersion == request.policyVersion && a.toolVersion == request.toolVersion
    && a.intent.permissions <= request.permissions
    && (grant.scope.ParamPattern? ==> grant.scope.pattern in a.intent.accepted)
  }

  /** The history holds a request and its grant that cover the authorization, unused if one-shot. */
  ghost predicate Justified(ops: seq<Op>, k: nat, request: Request, grant: Grant, i: nat, j: nat)
    requires k < |ops| && ops[k].Authorize?
  {
    var a := ops[k].authorization;
    && i < j < k && Asked(ops, i, request) && Resolved(ops, j, grant)
    && Covers(request, grant, a, ops[k].clock)
    && (grant.scope.OneShot? ==> forall m :: j < m < k ==> !Authorized(ops, m, a.id))
  }

  lemma {:induction false} SuccessIsJustified(ops: seq<Op>, k: nat)
    returns (request: Request, grant: Grant, i: nat, j: nat)
    requires k < |ops| && ops[k].Authorize? && Succeeds(ops, k)
    ensures Justified(ops, k, request, grant, i, j)
  {
    var id := ops[k].authorization.id;
    i, j := ActiveHasOrigin(ops, k, id);
    request, grant := Before(ops, k).active[id].request, Before(ops, k).active[id].grant;
  }

  lemma {:induction false} JustifiedSucceeds(ops: seq<Op>, k: nat, request: Request, grant: Grant, i: nat, j: nat)
    requires k < |ops| && ops[k].Authorize? && Justified(ops, k, request, grant, i, j)
    ensures Succeeds(ops, k)
  {
    var id := ops[k].authorization.id;
    ResolutionStays(ops, j, k);
    var i', j' := ActiveHasOrigin(ops, k, id);
    var a := Before(ops, k).active[id];
    if i < i' { IdsAreRequestedOnce(ops, i, i'); }
    if i' < i { IdsAreRequestedOnce(ops, i', i); }
    if j < j' { ResolutionsAreUnique(ops, j, j'); }
    if j' < j { ResolutionsAreUnique(ops, j', j); }
  }

  /** An authorization succeeds exactly when the run's own history justifies it: an earlier accepted request,
      later resolved by a grant for it, both matching the action and unexpired, and never used if one-shot.
      Nothing else that happens in between matters. */
  lemma {:induction false} AuthorizedExactly(ops: seq<Op>, k: nat)
    requires k < |ops| && ops[k].Authorize?
    ensures Succeeds(ops, k) <==> exists request, grant, i, j :: Justified(ops, k, request, grant, i, j)
  {
    if Succeeds(ops, k) {
      var request, grant, i, j := SuccessIsJustified(ops, k);
    }
    if request, grant, i, j :| Justified(ops, k, request, grant, i, j) {
      JustifiedSucceeds(ops, k, request, grant, i, j);
    }
  }

  /** A failed call leaves the broker as it was, in every run. */
  lemma {:induction false} FailuresChangeNothing(ops: seq<Op>, k: nat)
    requires k < |ops| && !Succeeds(ops, k)
    ensures Before(ops, k + 1) == Before(ops, k)
  {
    BeforeNext(ops, k);
  }
}

/** The approval broker as an object. */
module ApprovalEngine {
  import opened Common
  import A = Approvals

  class InMemoryApprovalBroker {
    var pending: map<string, A.Request>
    var active: map<string, A.ActiveGrant>
    var knownIds: set<string>
    var nonces: set<string>

    ghost function Current(): A.Broker
      reads this
    {
      A.Broker(pending, active, knownIds, nonces)
    }

    constructor ()
      ensures Current() == A.EMPTY
    {
      pending, active, knownIds, nonces := map[], map[], {}, {};
    }

    method Ask(request: A.Request, now: i64) returns (r: Outcome<A.ApprovalError>)
      modifies this
      ensures (Current(), r) == A.AskStep(old(Current()), request, now)
    {
      if request.expiresAt <= now { return Fail(A.AlreadyExpired); }
      if Blank(request.summary) || |request.choices| == 0 || Blank(request.digest) { return Fail(A.Incomplete); }
      if request.id in knownIds { return Fail(A.IdUsed); }
      knownIds := knownIds + {request.id};
      pending := pending[request.id := request];
      return Pass;
    }

    method Resolve(ticket: string, grant: A.Grant, now: i64) returns (r: Outcome<A.ApprovalError>)
      modifies this
      ensures (Current(), r) == A.ResolveStep(old(Current()), ticket, grant, now)
    {
      if ticket !in pending { return Fail(A.NotPending); }
      var request := pending[ticket];
      r := A.ValidateGrant(request, ticket, grant, now, nonces);
      if r.Fail? { return; }
      pending := pending - {ticket};
      nonces := nonces + {grant.nonce};
      if grant.outcome == A.Granted {
        active := active[grant.id := A.ActiveGrant(request, grant, false)];
      }
    }

    method Authorize(a: A.Authorization, clock: i64) returns (r: Outcome<A.ApprovalError>)
      modifies this
      ensures (Current(), r) == A.AuthorizeStep(old(Current()), a, clock)
    {
      var now := A.Max(clock, a.now);
      if a.id !in active { return Fail(A.NotActive); }
      var request, grant := active[a.id].request, active[a.id].grant;
      if grant.outcome != A.Granted { return Fail(A.NotGranted); }
      if now >= grant.useBy || now >= request.expiresAt { return Fail(A.AlreadyExpired); }
      if a.session != request.session || a.scope != request.scope || a.intent.scope != request.scope {
        return Fail(A.ScopeMismatch);
      }
      if a.digest != grant.digest || a.digest != request.digest { return Fail(A.PlanChanged); }
      if a.policyVersion != grant.policyVersion || a.policyVersion != request.policyVersion
        || a.toolVersion != grant.toolVersion || a.toolVersion != request.toolVersion {
        return Fail(A.VersionChanged);
      }
      if !(a.intent.permissions <= request.permissions) { return Fail(A.PermissionNotApproved); }
      match grant.scope {
        case OneShot =>
          if active[a.id].consumed { return Fail(A.Consumed); }
          active := active[a.id := active[a.id].(consumed := true)];
        case Session =>
        case ParamPattern(pattern) =>
          if pattern !in a.intent.accepted { return Fail(A.PatternExceeded); }
      }
      return Pass;
    }
  }
}
