/** Choosing the peer that runs a federated task. */
module Placement {
  import opened Common
  import opened Orders
  import opened Sequences

  datatype Health = Healthy | Stale | Unavailable

  /** `wellFormed` is the verdict of the candidate's own validation. */
  datatype Candidate = Candidate(
    wellFormed: bool,
    peer: string,
    grant: string,
    scope: string,
    capability: string,
    profile: string,
    managedPolicyAllowed: bool,
    health: Health,
    healthObservedAt: i64,
    expiresAt: i64,
    score: nat,
    capabilityEvidence: seq<string>,
    failureEvidence: seq<string>)

  /** `reference` is what the grant's own digest yields, if it can be computed. */
  datatype Grant = Grant(
    peer: string,
    reference: Option<string>,
    expiresAt: i64,
    executor: bool,
    scopes: set<string>,
    capabilities: set<string>)

  /** `complete` is the verdict on the snapshot and on the identifiers of the request. */
  datatype Request = Request(
    complete: bool,
    scope: string,
    capability: string,
    evaluatedAt: i64,
    maximumHealthAge: u64,
    profiles: set<string>,
    snapshotGrants: set<string>,
    grants: map<string, Grant>,
    candidates: seq<Candidate>,
    placements: map<string, string>)

  datatype Reason =
    | GrantInactive
    | RoleDenied
    | ScopeDenied
    | CapabilityDenied
    | ManagedPolicyDenied
    | SchemaIncompatible
    | HealthStale
    | EvidenceInsufficient

  datatype Trace = Trace(candidate: Candidate, reasons: seq<Reason>)

  datatype Decision = Decision(traces: seq<Trace>, chosen: Option<string>, placement: Option<string>)

  datatype PlacementError = Incomplete | DuplicatePeer | InvalidCandidate | NoPlan

  // ----- eligibility -----

  /** The candidate's grant, if it is one of the snapshot's and really is this peer's. */
  function GrantOf(r: Request, c: Candidate): Option<Grant> {
    if c.grant in r.grants && r.grants[c.grant].peer == c.peer && c.grant in r.snapshotGrants
      && r.grants[c.grant].reference == Some(c.grant) then Some(r.grants[c.grant])
    else None
  }

  /** The age of the health observation, when it lies in the past and can be represented. */
  function HealthAge(r: Request, c: Candidate): Option<nat> {
    var age := r.evaluatedAt - c.healthObservedAt;
    if 0 <= age <= I64_MAX then Some(age) else None
  }

  predicate FreshHealth(r: Request, c: Candidate) {
    c.health == Healthy && HealthAge(r, c).Some? && HealthAge(r, c).value <= r.maximumHealthAge
  }

  function When(b: bool, reason: Reason): seq<Reason> { if b then [reason] else [] }

  function FilterReasons(r: Request, c: Candidate): seq<Reason> {
    var g := GrantOf(r, c);
    [] + When(g.None? || g.value.expiresAt <= r.evaluatedAt || c.expiresAt <= r.evaluatedAt, GrantInactive)
    + When(g.None? || !g.value.executor, RoleDenied)
    + When(c.scope != r.scope || g.None? || r.scope !in g.value.scopes, ScopeDenied)
    + When(c.capability != r.capability || g.None? || r.capability !in g.value.capabilities, CapabilityDenied)
    + When(!c.managedPolicyAllowed, ManagedPolicyDenied)
    + When(c.profile !in r.profiles, SchemaIncompatible)
    + When(!FreshHealth(r, c), HealthStale)
    + When(|c.capabilityEvidence| == 0 || |c.failureEvidence| > 0, EvidenceInsufficient)
  }

  method Note(reasons: seq<Reason>, denied: bool, reason: Reason) returns (noted: seq<Reason>)
    ensures noted == reasons + When(denied, reason)
  {
    noted := reasons;
    if denied { noted := noted + [reason]; }
  }

  method CollectReasons(r: Request, c: Candidate) returns (reasons: seq<Reason>)
    ensures reasons == FilterReasons(r, c)
  {
    var g := GrantOf(r, c);
    reasons := Note([], g.None? || g.value.expiresAt <= r.evaluatedAt || c.expiresAt <= r.evaluatedAt, GrantInactive);
    reasons := Note(reasons, g.None? || !g.value.executor, RoleDenied);
    reasons := Note(reasons, c.scope != r.scope || g.None? || r.scope !in g.value.scopes, ScopeDenied);
    reasons := Note(reasons, c.capability != r.capability || g.None? || r.capability !in g.value.capabilities,
                    CapabilityDenied);
    reasons := Note(reasons, !c.managedPolicyAllowed, ManagedPolicyDenied);
    reasons := Note(reasons, c.profile !in r.profiles, SchemaIncompatible);
    reasons := Note(reasons, !FreshHealth(r, c), HealthStale);
    reasons := Note(reasons, |c.capabilityEvidence| == 0 || |c.failureEvidence| > 0, EvidenceInsufficient);
  }

  /** A peer may run the task: a live grant that covers it, and a fresh, compatible, proven executor. */
  predicate Eligible(r: Request, c: Candidate) {
    && c.grant in r.grants && c.grant in r.snapshotGrants
    && var g := r.grants[c.grant];
    && g.peer == c.peer && g.reference == Some(c.grant)
    && g.expiresAt > r.evaluatedAt && c.expiresAt > r.evaluatedAt && g.executor
    && c.scope == r.scope && r.scope in g.scopes
    && c.capability == r.capability && r.capability in g.capabilities
    && c.managedPolicyAllowed && c.profile in r.profiles
    && c.health == Healthy && 0 <= r.evaluatedAt - c.healthObservedAt <= I64_MAX
    && r.evaluatedAt - c.healthObservedAt <= r.maximumHealthAge
    && |c.capabilityEvidence| > 0 && |c.failureEvidence| == 0
  }

  lemma {:induction false} EligibleExactly(r: Request, c: Candidate)
    ensures FilterReasons(r, c) == [] <==> Eligible(r, c)
  {
  }

  // ----- selection -----

  function PeerOrder(): (Candidate, Candidate) -> bool { ByText((c: Candidate) => c.peer) }

  predicate AdjacentEqual(sorted: seq<Candidate>) {
    exists i :: 0 <= i < |sorted| - 1 && sorted[i].peer == sorted[i + 1].peer
  }

  function TraceAll(r: Request, sorted: seq<Candidate>): Result<seq<Trace>, PlacementError> {
    if |sorted| == 0 then Ok([])
    else if !sorted[0].wellFormed then Err(InvalidCandidate)
    else match TraceAll(r, sorted[1..])
      case Err(e) => Err(e)
      case Ok(rest) => Ok([Trace(sorted[0], FilterReasons(r, sorted[0]))] + rest)
  }

  /** `a` is a worse choice than `b`: a lower score, or the greater name at the same score. */
  predicate Worse(a: Candidate, b: Candidate) {
    a.score < b.score || (a.score == b.score && TextLess(b.peer, a.peer))
  }

  /** The maximum of the eligible traces; of several equally good ones the last. */
  function Best(traces: seq<Trace>): Option<Candidate> {
    if |traces| == 0 then None
    else
      var front, last := Best(traces[..|traces| - 1]), traces[|traces| - 1];
      if |last.reasons| > 0 then front
      else if front.Some? && Worse(last.candidate, front.value) then front
      else Some(last.candidate)
  }

  function Select(r: Request): Result<Decision, PlacementError> {
    if !r.complete || r.evaluatedAt <= 0 || r.maximumHealthAge == 0 || |r.candidates| == 0 then Err(Incomplete)
    else
      var sorted := Sort(r.candidates, PeerOrder());
      if AdjacentEqual(sorted) then Err(DuplicatePeer)
      else match TraceAll(r, sorted)
        case Err(e) => Err(e)
        case Ok(traces) =>
          match Best(traces)
          case None => Ok(Decision(traces, None, None))
          case Some(c) =>
            if c.peer in r.placements then Ok(Decision(traces, Some(c.peer), Some(r.placements[c.peer])))
            else Err(NoPlan)
  }

  // ----- what sorting brings -----

  ghost predicate UniquePeers(candidates: seq<Candidate>) {
    forall i, j :: 0 <= i < j < |candidates| ==> candidates[i].peer != candidates[j].peer
  }

  /** In order of peers, equal peers are neighbours. */
  lemma {:induction false} NeighboursSuffice(sorted: seq<Candidate>)
    requires Sorted(sorted, PeerOrder()) && !AdjacentEqual(sorted)
    ensures UniquePeers(sorted)
  {
    forall i, j | 0 <= i < j < |sorted| ensures sorted[i].peer != sorted[j].peer {
      var a, b, c := sorted[i].peer, sorted[i + 1].peer, sorted[j].peer;
      assert !PeerOrder()(sorted[i + 1], sorted[i]) && a != b;
      TextLessTotal(a, b);
      assert i + 1 < j ==> !PeerOrder()(sorted[j], sorted[i + 1]);
      TextLessTotal(b, c);
      if b != c { TextLessTransitive(a, b, c); }
      TextLessIrreflexive(a);
    }
  }

  lemma {:induction false} PeersForgetOrder(a: seq<Candidate>, b: seq<Candidate>)
    requires UniquePeers(a) && multiset(a) == multiset(b)
    ensures Sort(a, PeerOrder()) == Sort(b, PeerOrder())
  {
    ByTextIsWeakOrder((c: Candidate) => c.peer);
    forall i, j | 0 <= i < |a| && 0 <= j < |a| && a[i] != a[j]
      ensures PeerOrder()(a[i], a[j]) || PeerOrder()(a[j], a[i])
    {
      TextLessTotal(a[i].peer, a[j].peer);
      assert i < j || j < i;
    }
    SortForgetsOrder(a, b, PeerOrder());
  }

  lemma {:induction false} UniqueForgetsOrder(a: seq<Candidate>, b: seq<Candidate>)
    requires UniquePeers(a) && multiset(a) == multiset(b)
    ensures UniquePeers(b)
  {
    var peer := (c: Candidate) => c.peer;
    DistinctKeysForgetOrder(a, b, peer);
    assert forall i :: 0 <= i < |b| ==> Map(b, peer)[i] == b[i].peer;
  }

  /** A sorted rearrangement has equal neighbours exactly when two candidates share a peer. */
  lemma {:induction false} DuplicatesAreFound(candidates: seq<Candidate>)
    ensures AdjacentEqual(Sort(candidates, PeerOrder())) <==> !UniquePeers(candidates)
  {
    var sorted := Sort(candidates, PeerOrder());
    ByTextIsWeakOrder((c: Candidate) => c.peer);
    SortSorts(candidates, PeerOrder());
    if AdjacentEqual(sorted) {
      if UniquePeers(candidates) { UniqueForgetsOrder(candidates, sorted); }
    } else {
      NeighboursSuffice(sorted);
      UniqueForgetsOrder(sorted, candidates);
    }
  }

  // ----- the traces and the best of them -----

  lemma {:induction false} TracesCover(r: Request, sorted: seq<Candidate>)
    ensures TraceAll(r, sorted).Ok? <==> forall i :: 0 <= i < |sorted| ==> sorted[i].wellFormed
    ensures TraceAll(r, sorted).Ok? ==>
              var traces := TraceAll(r, sorted).value;
              |traces| == |sorted| && forall i :: 0 <= i < |sorted| ==>
                traces[i] == Trace(sorted[i], FilterReasons(r, sorted[i]))
  {
    if |sorted| > 0 { TracesCover(r, sorted[1..]); }
  }

  /** A trace that nothing eligible outdoes. */
  ghost predicate IsBest(traces: seq<Trace>, c: Candidate) {
    && (exists i :: 0 <= i < |traces| && traces[i].candidate == c && traces[i].reasons == [])
    && forall i :: 0 <= i < |traces| && traces[i].reasons == [] && traces[i].candidate != c ==>
       Worse(traces[i].candidate, c)
  }

  lemma {:induction false} WorseIsTransitive(a: Candidate, b: Candidate, c: Candidate)
    requires Worse(a, b) && Worse(b, c)
    ensures Worse(a, c)
  {
    if TextLess(b.peer, a.peer) && TextLess(c.peer, b.peer) { TextLessTransitive(c.peer, b.peer, a.peer); }
  }

  /** The better of the best so far and the last is the best of all. */
  lemma {:induction false} BetterIsBest(traces: seq<Trace>, best: Candidate)
    requires |traces| > 0 && traces[|traces| - 1].reasons == []
    requires IsBest(traces[..|traces| - 1], best)
    requires best.peer != traces[|traces| - 1].candidate.peer
    ensures var c := traces[|traces| - 1].candidate;
            IsBest(traces, if Worse(c, best) then best else c)
  {
    var front, c := traces[..|traces| - 1], traces[|traces| - 1].candidate;
    var k :| 0 <= k < |front| && front[k].candidate == best && front[k].reasons == [];
    assert traces[k] == front[k];
    TextLessTotal(best.peer, c.peer);
    forall i | 0 <= i < |front| && traces[i].reasons == [] && traces[i].candidate != best
      ensures Worse(traces[i].candidate, best) && (!Worse(c, best) ==> Worse(traces[i].candidate, c))
    {
      assert front[i] == traces[i];
      if !Worse(c, best) { WorseIsTransitive(traces[i].candidate, best, c); }
    }
  }

  lemma {:induction false} BestIsBest(traces: seq<Trace>)
    requires forall i, j :: 0 <= i < j < |traces| ==> traces[i].candidate.peer != traces[j].candidate.peer
    ensures Best(traces).None? <==> forall i :: 0 <= i < |traces| ==> traces[i].reasons != []
    ensures Best(traces).Some? ==> IsBest(traces, Best(traces).value)
  {
    if |traces| > 0 {
      var front, last := traces[..|traces| - 1], traces[|traces| - 1];
      BestIsBest(front);
      assert traces == front + [last];
      if Best(front).Some? && |last.reasons| == 0 {
        BetterIsBest(traces, Best(front).value);
      } else if Best(front).Some? {
        var k :| 0 <= k < |front| && front[k].candidate == Best(front).value && front[k].reasons == [];
        assert traces[k] == front[k];
      } else if |last.reasons| == 0 {
        assert traces[|front|] == last;
      }
    }
  }

  // ----- the main results -----

  /** `c` is eligible, and every other eligible candidate scores lower, or as high under a greater name. */
  ghost predicate Wins(r: Request, c: Candidate) {
    && c in r.candidates && Eligible(r, c)
    && forall d :: d in r.candidates && Eligible(r, d) && d != c ==>
                     d.score < c.score || (d.score == c.score && TextLess(c.peer, d.peer))
  }

  /** What the traces of a request say, one per candidate in order of peers. */
  ghost predicate TracesOf(r: Request, sorted: seq<Candidate>, traces: seq<Trace>) {
    && (forall x :: x in r.candidates <==> x in sorted) && UniquePeers(sorted) && |traces| == |sorted|
    && (forall i :: 0 <= i < |sorted| ==>
        traces[i].candidate == sorted[i] && (traces[i].reasons == [] <==> Eligible(r, sorted[i])))
  }

  lemma {:induction false} SelectTraces(r: Request) returns (sorted: seq<Candidate>, traces: seq<Trace>)
    requires Select(r).Ok?
    ensures sorted == Sort(r.candidates, PeerOrder()) && TraceAll(r, sorted) == Ok(traces)
    ensures TracesOf(r, sorted, traces)
  {
    sorted := Sort(r.candidates, PeerOrder());
    traces := TraceAll(r, sorted).value;
    ByTextIsWeakOrder((c: Candidate) => c.peer);
    SortSorts(r.candidates, PeerOrder());
    SameMembers(r.candidates, sorted);
    NeighboursSuffice(sorted);
    TracesCover(r, sorted);
    forall i | 0 <= i < |traces| ensures traces[i].reasons == [] <==> Eligible(r, sorted[i]) {
      EligibleExactly(r, sorted[i]);
    }
  }

  lemma {:induction false} BestOfTraces(r: Request, sorted: seq<Candidate>, traces: seq<Trace>)
    requires TracesOf(r, sorted, traces)
    ensures Best(traces).None? <==> forall c :: c in r.candidates ==> !Eligible(r, c)
    ensures Best(traces).Some? ==> IsBest(traces, Best(traces).value) && Best(traces).value in r.candidates
  {
    BestIsBest(traces);
    if Best(traces).None? {
      forall c | c in r.candidates ensures !Eligible(r, c) {
        var i :| 0 <= i < |sorted| && sorted[i] == c;
        assert traces[i].candidate == c;
      }
    } else {
      var i :| 0 <= i < |traces| && traces[i].candidate == Best(traces).value && traces[i].reasons == [];
      assert sorted[i] in sorted;
    }
  }

  /** A successful selection chooses the eligible candidate of highest score and, among those, least name,
      with its own plan; it chooses none exactly when none is eligible. */
  lemma {:induction false} ChosenExactly(r: Request)
    requires Select(r).Ok?
    ensures var d := Select(r).value;
            && (d.chosen.None? <==> forall c :: c in r.candidates ==> !Eligible(r, c))
            && (forall c :: c in r.candidates ==> (d.chosen == Some(c.peer) <==> Wins(r, c)))
            && (d.chosen.None? <==> d.placement.None?)
            && (d.chosen.Some? ==> d.chosen.value in r.placements && d.placement == Some(r.placements[d.chosen.value]))
  {
    var sorted, traces := SelectTraces(r);
    BestOfTraces(r, sorted, traces);
    forall c | c in r.candidates ensures Select(r).value.chosen == Some(c.peer) <==> Wins(r, c) {
      ChosenWins(r, sorted, traces, c);
    }
  }

  lemma {:induction false} ChosenWins(r: Request, sorted: seq<Candidate>, traces: seq<Trace>, c: Candidate)
    requires TracesOf(r, sorted, traces) && c in r.candidates
    requires Best(traces).None? ==> forall d :: d in r.candidates ==> !Eligible(r, d)
    requires Best(traces).Some? ==> IsBest(traces, Best(traces).value)
    ensures (Best(traces).Some? && Best(traces).value.peer == c.peer) <==> Wins(r, c)
  {
    var k :| 0 <= k < |sorted| && sorted[k] == c;
    if Best(traces).Some? {
      var best := Best(traces).value;
      var b :| 0 <= b < |traces| && traces[b].candidate == best && traces[b].reasons == [];
      assert best in sorted;
      if best.peer == c.peer {
        assert best == c by { assert b == k; }
        forall d | d in r.candidates && Eligible(r, d) && d != c ensures Worse(d, c) {
          var i :| 0 <= i < |sorted| && sorted[i] == d;
          assert traces[i].candidate == d;
        }
      } else if Wins(r, c) {
        assert Worse(best, c) && Worse(c, best) by { assert traces[k].candidate == c; }
        TextLessTotal(best.peer, c.peer);
      }
    }
  }

  /** The order of the candidates does not matter, not even for which error is reported. */
  lemma {:induction false} SelectForgetsOrder(r: Request, shuffled: seq<Candidate>)
    requires multiset(r.candidates) == multiset(shuffled)
    ensures Select(r.(candidates := shuffled)) == Select(r)
  {
    var s := r.(candidates := shuffled);
    SameMembers(r.candidates, shuffled);
    DuplicatesAreFound(r.candidates);
    DuplicatesAreFound(shuffled);
    if UniquePeers(r.candidates) {
      UniqueForgetsOrder(r.candidates, shuffled);
      PeersForgetOrder(r.candidates, shuffled);
      TracesIgnoreCandidates(r, shuffled, Sort(r.candidates, PeerOrder()));
    } else if UniquePeers(shuffled) {
      UniqueForgetsOrder(shuffled, r.candidates);
    }
  }

  lemma {:induction false} TracesIgnoreCandidates(r: Request, shuffled: seq<Candidate>, sorted: seq<Candidate>)
    ensures TraceAll(r.(candidates := shuffled), sorted) == TraceAll(r, sorted)
  {
    if |sorted| > 0 {
      TracesIgnoreCandidates(r, shuffled, sorted[1..]);
      assert FilterReasons(r.(candidates := shuffled), sorted[0]) == FilterReasons(r, sorted[0]);
    }
  }

  // ----- which requests are decided, and what the traces say -----

  /** The request's grant for the candidate: known, of the snapshot, for this peer and under its true reference. */
  ghost predicate Grants(r: Request, c: Candidate, g: Grant) {
    c.grant in r.grants && r.grants[c.grant] == g && g.peer == c.peer && c.grant in r.snapshotGrants
    && g.reference == Some(c.grant)
  }

  /** The reason stands against the candidate. */
  ghost predicate Denies(r: Request, c: Candidate, reason: Reason) {
    match reason
    case GrantInactive =>
      c.expiresAt <= r.evaluatedAt || !exists g :: Grants(r, c, g) && g.expiresAt > r.evaluatedAt
    case RoleDenied => !exists g :: Grants(r, c, g) && g.executor
    case ScopeDenied => c.scope != r.scope || !exists g :: Grants(r, c, g) && r.scope in g.scopes
    case CapabilityDenied =>
      c.capability != r.capability || !exists g :: Grants(r, c, g) && r.capability in g.capabilities
    case ManagedPolicyDenied => !c.managedPolicyAllowed
    case SchemaIncompatible => c.profile !in r.profiles
    case HealthStale =>
      c.health != Healthy || c.healthObservedAt > r.evaluatedAt || r.evaluatedAt - c.healthObservedAt > I64_MAX
        || r.evaluatedAt - c.healthObservedAt > r.maximumHealthAge
    case EvidenceInsufficient => c.capabilityEvidence == [] || c.failureEvidence != []
  }

  function Place(reason: Reason): nat {
    match reason
    case GrantInactive => 0
    case RoleDenied => 1
    case ScopeDenied => 2
    case CapabilityDenied => 3
    case ManagedPolicyDenied => 4
    case SchemaIncompatible => 5
    case HealthStale => 6
    case EvidenceInsufficient => 7
  }

  /** All reasons that stand against the candidate, each once, in their order. */
  ghost predicate ReasonsAre(r: Request, c: Candidate, reasons: seq<Reason>) {
    && (forall reason :: reason in reasons <==> Denies(r, c, reason))
    && forall i, j :: 0 <= i < j < |reasons| ==> Place(reasons[i]) < Place(reasons[j])
  }

  lemma {:induction false} GrantOfExactly(r: Request, c: Candidate, g: Grant)
    ensures GrantOf(r, c) == Some(g) <==> Grants(r, c, g)
  {
  }

  lemma {:induction false} DeniesExactly(r: Request, c: Candidate)
    ensures var g := GrantOf(r, c);
            && (Denies(r, c, GrantInactive) <==>
                g.None? || g.value.expiresAt <= r.evaluatedAt || c.expiresAt <= r.evaluatedAt)
            && (Denies(r, c, RoleDenied) <==> g.None? || !g.value.executor)
            && (Denies(r, c, ScopeDenied) <==> c.scope != r.scope || g.None? || r.scope !in g.value.scopes)
            && (Denies(r, c, CapabilityDenied) <==>
                c.capability != r.capability || g.None? || r.capability !in g.value.capabilities)
            && (Denies(r, c, HealthStale) <==> !FreshHealth(r, c))
  {
    forall g ensures GrantOf(r, c) == Some(g) <==> Grants(r, c, g) { GrantOfExactly(r, c, g); }
    if GrantOf(r, c).Some? { assert Grants(r, c, GrantOf(r, c).value); }
  }

  const REASONS: seq<Reason> := [GrantInactive, RoleDenied, ScopeDenied, CapabilityDenied, ManagedPolicyDenied,
                                 SchemaIncompatible, HealthStale, EvidenceInsufficient]

  /** The first `n` reasons that stand. */
  function Standing(stands: seq<bool>, n: nat): seq<Reason>
    requires n <= |stands| == |REASONS|
  {
    if n == 0 then [] else Standing(stands, n - 1) + When(stands[n - 1], REASONS[n - 1])
  }

  lemma {:induction false} ReasonAt(n: nat)
    requires n < |REASONS|
    ensures Place(REASONS[n]) == n
  {
    if n < 4 { } else { }
  }

  lemma {:induction false} StandingExactly(stands: seq<bool>, n: nat)
    requires n <= |stands| == |REASONS|
    ensures forall x :: x in Standing(stands, n) <==> Place(x) < n && stands[Place(x)]
    ensures forall i, j :: 0 <= i < j < |Standing(stands, n)| ==>
              Place(Standing(stands, n)[i]) < Place(Standing(stands, n)[j])
  {
    if n > 0 {
      StandingExactly(stands, n - 1);
      ReasonAt(n - 1);
      forall x | Place(x) == n - 1 ensures x == REASONS[n - 1] { SamePlace(x, REASONS[n - 1]); }
      var before := Standing(stands, n - 1);
      assert forall i :: 0 <= i < |before| ==> before[i] in before;
    }
  }

  lemma {:induction false} SamePlace(x: Reason, y: Reason)
    requires Place(x) == Place(y)
    ensures x == y
  {
  }

  lemma {:induction false} FilterReasonsStand(r: Request, c: Candidate, stands: seq<bool>)
    requires |stands| == 8
    requires var g := GrantOf(r, c);
             && stands[0] == (g.None? || g.value.expiresAt <= r.evaluatedAt || c.expiresAt <= r.evaluatedAt)
             && stands[1] == (g.None? || !g.value.executor)
             && stands[2] == (c.scope != r.scope || g.None? || r.scope !in g.value.scopes)
             && stands[3] == (c.capability != r.capability || g.None? || r.capability !in g.value.capabilities)
    requires stands[4] == !c.managedPolicyAllowed && stands[5] == (c.profile !in r.profiles)
    requires stands[6] == !FreshHealth(r, c)
    requires stands[7] == (|c.capabilityEvidence| == 0 || |c.failureEvidence| > 0)
    ensures FilterReasons(r, c) == Standing(stands, 8)
  {
    assert Standing(stands, 0) == [];
    assert Standing(stands, 2) == [] + When(stands[0], GrantInactive) + When(stands[1], RoleDenied);
    assert Standing(stands, 4) ==
           Standing(stands, 2) + When(stands[2], ScopeDenied) + When(stands[3], CapabilityDenied);
    assert Standing(stands, 6) ==
           Standing(stands, 4) + When(stands[4], ManagedPolicyDenied) + When(stands[5], SchemaIncompatible);
  }

  lemma {:induction false} ReasonOfPlace(x: Reason)
    ensures Place(x) < |REASONS| && REASONS[Place(x)] == x
  {
    ReasonAt(Place(x));
    SamePlace(x, REASONS[Place(x)]);
  }

  lemma {:induction false} StandsAsDenied(r: Request, c: Candidate, stands: seq<bool>)
    requires |stands| == |REASONS| && forall n :: 0 <= n < |REASONS| ==> stands[n] == Denies(r, c, REASONS[n])
    ensures FilterReasons(r, c) == Standing(stands, 8)
  {
    DeniesExactly(r, c);
    assert stands[0] == Denies(r, c, GrantInactive) && stands[1] == Denies(r, c, RoleDenied);
    assert stands[2] == Denies(r, c, ScopeDenied) && stands[3] == Denies(r, c, CapabilityDenied);
    assert stands[4] == Denies(r, c, ManagedPolicyDenied) && stands[5] == Denies(r, c, SchemaIncompatible);
    assert stands[6] == Denies(r, c, HealthStale) && stands[7] == Denies(r, c, EvidenceInsufficient);
    FilterReasonsStand(r, c, stands);
  }

  /** The reasons against a candidate are exactly those that stand against it, in order. */
  lemma {:induction false} ReasonsExactly(r: Request, c: Candidate)
    ensures ReasonsAre(r, c, FilterReasons(r, c))
  {
    var stands := seq(|REASONS|, n requires 0 <= n < |REASONS| => Denies(r, c, REASONS[n]));
    StandsAsDenied(r, c, stands);
    StandingExactly(stands, |REASONS|);
    forall x ensures Place(x) < |REASONS| && (stands[Place(x)] <==> Denies(r, c, x)) { ReasonOfPlace(x); }
  }

  /** Every eligible candidate is outdone, or the one that is not has a plan. */
  ghost predicate WinnerIsPlanned(r: Request) { forall c :: Wins(r, c) ==> c.peer in r.placements }

  lemma {:induction false} PlannedExactly(r: Request, sorted: seq<Candidate>, traces: seq<Trace>)
    requires TracesOf(r, sorted, traces)
    ensures WinnerIsPlanned(r) <==> (Best(traces).Some? ==> Best(traces).value.peer in r.placements)
  {
    BestOfTraces(r, sorted, traces);
    forall c | c in r.candidates ensures (Best(traces).Some? && Best(traces).value.peer == c.peer) <==> Wins(r, c) {
      ChosenWins(r, sorted, traces, c);
    }
    if Best(traces).Some? { assert Wins(r, Best(traces).value); }
  }

  /** A request is decided exactly when it is complete, its candidates are valid and of different peers, and the
      candidate that wins has a plan. */
  lemma {:induction false} SelectsExactly(r: Request)
    ensures Select(r).Ok? <==>
            && r.complete && r.evaluatedAt > 0 && r.maximumHealthAge > 0 && r.candidates != []
            && UniquePeers(r.candidates) && (forall c :: c in r.candidates ==> c.wellFormed)
            && WinnerIsPlanned(r)
  {
    var sorted := Sort(r.candidates, PeerOrder());
    DuplicatesAreFound(r.candidates);
    TracesCover(r, sorted);
    ByTextIsWeakOrder((c: Candidate) => c.peer);
    SortSorts(r.candidates, PeerOrder());
    SameMembers(r.candidates, sorted);
    if UniquePeers(r.candidates) && TraceAll(r, sorted).Ok? {
      var traces := TraceAll(r, sorted).value;
      UniqueForgetsOrder(r.candidates, sorted);
      forall i | 0 <= i < |traces| ensures traces[i].reasons == [] <==> Eligible(r, sorted[i]) {
        EligibleExactly(r, sorted[i]);
      }
      PlannedExactly(r, sorted, traces);
    }
  }

  /** A decision traces every candidate once, in order of peers, with all that stands against it. */
  lemma {:induction false} DecisionTracesExactly(r: Request)
    requires Select(r).Ok?
    ensures var traces := Select(r).value.traces;
            && (forall c :: c in r.candidates <==> exists i :: 0 <= i < |traces| && traces[i].candidate == c)
            && (forall i :: 0 <= i < |traces| ==> ReasonsAre(r, traces[i].candidate, traces[i].reasons))
            && forall i, j :: 0 <= i < j < |traces| ==> TextLess(traces[i].candidate.peer, traces[j].candidate.peer)
  {
    var sorted, traces := SelectTraces(r);
    ByTextIsWeakOrder((c: Candidate) => c.peer);
    SortSorts(r.candidates, PeerOrder());
    TracesCover(r, sorted);
    forall i | 0 <= i < |traces| ensures ReasonsAre(r, traces[i].candidate, traces[i].reasons) {
      ReasonsExactly(r, sorted[i]);
    }
    forall i, j | 0 <= i < j < |traces| ensures TextLess(traces[i].candidate.peer, traces[j].candidate.peer) {
      assert !PeerOrder()(sorted[j], sorted[i]);
      TextLessTotal(sorted[i].peer, sorted[j].peer);
    }
    forall c | c in r.candidates ensures exists i :: 0 <= i < |traces| && traces[i].candidate == c {
      var i :| 0 <= i < |sorted| && sorted[i] == c;
      assert traces[i].candidate == c;
    }
  }
}
