/** Ranking authorized candidates by evidence. */
module Ranking {
  import opened Common
  import opened Orders
  import opened Sequences

  datatype Feature = VerifiedSuccess | FailurePenalty | Compatibility | Reliability | Cost | Latency

  datatype Weight = Weight(feature: Feature, basisPoints: nat)

  datatype TieBreaker = StableIdentity | LowerCost | RecentVerifiedSuccess

  datatype Fallback = SeedOrder | NoSelection

  datatype Target = Capability | Model | Backend

  /** `identified` is the verdict on the identity fields of the strategy. */
  datatype Policy = Policy(
    identified: bool,
    target: Target,
    weights: seq<Weight>,
    tieBreaker: TieBreaker,
    fallback: Fallback,
    maxResults: nat)

  datatype Candidate = Candidate(
    schemaVersion: nat,
    reference: string,
    evidenceKey: string,
    cost: u64,
    latency: u64,
    compatible: bool,
    active: bool,
    managedAllowed: bool,
    permissionAllowed: bool,
    scopeAllowed: bool)

  datatype Item = Item(capability: string, outcome: string, reliability: string)

  datatype Evidence = Evidence(schemaVersion: nat, items: seq<Item>, failures: map<string, seq<string>>)

  datatype Prefiltered = Prefiltered(target: Target, candidates: seq<Candidate>)

  datatype Ranked = Ranked(considered: seq<string>, ordered: seq<string>, verified: map<string, seq<string>>)

  datatype SelectionError = IncompleteCandidate | InvalidPolicy | Mismatch

  // ----- prefiltering -----

  predicate Permitted(c: Candidate, authorized: set<string>) {
    c.active && c.managedAllowed && c.permissionAllowed && c.scopeAllowed && c.reference in authorized
  }

  function References(candidates: seq<Candidate>): seq<string> {
    Map(candidates, (c: Candidate) => c.reference)
  }

  /** Keeps the first candidate of each reference. */
  function FirstOfEach(candidates: seq<Candidate>): seq<Candidate> {
    if |candidates| == 0 then []
    else
      var front, last := FirstOfEach(candidates[..|candidates| - 1]), candidates[|candidates| - 1];
      if last.reference in References(front) then front else front + [last]
  }

  function FromAuthorized(target: Target, candidates: seq<Candidate>, authorized: set<string>)
    : Result<Prefiltered, SelectionError>
  {
    if exists i :: 0 <= i < |candidates|
                   && (candidates[i].schemaVersion == 0 || Blank(candidates[i].reference)
                       || Blank(candidates[i].evidenceKey))
    then Err(IncompleteCandidate)
    else Ok(Prefiltered(target, FirstOfEach(Filter(candidates, (c: Candidate) => Permitted(c, authorized)))))
  }

  // ----- scoring -----

  function LowerChar(c: char): char { if 'A' <= c <= 'Z' then c + ' ' else c }

  function Lower(s: string): string { Map(s, LowerChar) }

  predicate IsVerified(item: Item) { Lower(item.reliability) in {"verified", "independent", "owner-verified"} }

  predicate IsSuccess(item: Item) { Lower(item.outcome) in {"pass", "passed", "success", "succeeded"} }

  predicate IsFailure(item: Item) { Lower(item.outcome) in {"fail", "failed", "failure", "revoked"} }

  function Features(weights: seq<Weight>): seq<Feature> { Map(weights, (w: Weight) => w.feature) }

  predicate Valid(p: Policy) {
    && p.identified
    && |Members(Features(p.weights))| == |p.weights| > 0
    && {VerifiedSuccess, FailurePenalty, Compatibility} <= Members(Features(p.weights))
    && (forall i :: 0 <= i < |p.weights| ==> 0 < p.weights[i].basisPoints <= 10_000)
    && SumOver(p.weights, (w: Weight) => w.basisPoints) == 10_000
    && 0 < p.maxResults <= 256
  }

  function WeightMap(weights: seq<Weight>): (m: map<Feature, nat>)
    ensures m.Keys == Members(Features(weights))
  {
    if |weights| == 0 then map[]
    else
      var front, last := weights[..|weights| - 1], weights[|weights| - 1];
      assert Features(weights) == Features(front) + [last.feature];
      WeightMap(front)[last.feature := last.basisPoints]
  }

  function Or0(m: map<Feature, nat>, f: Feature): nat { if f in m then m[f] else 0 }

  function Capped(n: u64): nat { if n <= 10_000 then n else 10_000 }

  function Successes(e: Evidence, c: Candidate): nat {
    |Filter(e.items, (i: Item) => i.capability == c.evidenceKey && IsVerified(i) && IsSuccess(i))|
  }

  function Failures(e: Evidence, c: Candidate): nat {
    |Filter(e.items, (i: Item) => i.capability == c.evidenceKey && IsVerified(i) && IsFailure(i))|
    + if c.evidenceKey in e.failures then |e.failures[c.evidenceKey]| else 0
  }

  function VerifiedItems(e: Evidence, c: Candidate): seq<Item> {
    Filter(e.items, (i: Item) => i.capability == c.evidenceKey && IsVerified(i))
  }

  function VerifiedRefs(e: Evidence, c: Candidate): seq<string> {
    Map(VerifiedItems(e, c), (i: Item) => "capability-evidence:" + i.capability + ":" + i.outcome + ":" + i.reliability)
  }

  function Score(p: Policy, e: Evidence, c: Candidate): int
    requires Valid(p)
  {
    var w := WeightMap(p.weights);
    w[VerifiedSuccess] * Successes(e, c) - w[FailurePenalty] * Failures(e, c)
    + w[Compatibility] * (if c.compatible then 1 else 0)
    + Or0(w, Reliability) * |VerifiedItems(e, c)|
    - Or0(w, Cost) * Capped(c.cost) - Or0(w, Latency) * Capped(c.latency)
  }

  // ----- ranking -----

  /** What a candidate is ranked by, besides its cost and reference. */
  datatype Standing = Standing(score: int, successes: int)

  function Judge(p: Policy, e: Evidence): Candidate -> Standing
    requires Valid(p)
  {
    (c: Candidate) => Standing(Score(p, e, c), Successes(e, c))
  }

  /** A candidate with its place in the input. */
  datatype Entry = Entry(candidate: Candidate, index: nat, standing: Standing)

  function Entries(candidates: seq<Candidate>, judge: Candidate -> Standing): seq<Entry> {
    seq(|candidates|, i requires 0 <= i < |candidates| => Entry(candidates[i], i, judge(candidates[i])))
  }

  function ByReference(): (Entry, Entry) -> bool { ByText((x: Entry) => x.candidate.reference) }

  function TieOrder(t: TieBreaker): (Entry, Entry) -> bool {
    match t
    case StableIdentity => ByReference()
    case LowerCost => Then(ByNumber((x: Entry) => x.candidate.cost), ByReference())
    case RecentVerifiedSuccess => Then(ByNumber((x: Entry) => -x.standing.successes), ByReference())
  }

  function EntryOrder(t: TieBreaker): (Entry, Entry) -> bool {
    Then(ByNumber((x: Entry) => -x.standing.score), Then(TieOrder(t), ByNumber((x: Entry) => x.index)))
  }

  /** Candidates without verified success count only when the policy falls back to seed order. */
  predicate Counts(p: Policy, s: Standing) { s.successes > 0 || p.fallback == SeedOrder }

  function Scored(p: Policy, candidates: seq<Candidate>, judge: Candidate -> Standing): seq<Entry> {
    Filter(Entries(candidates, judge), (x: Entry) => Counts(p, x.standing))
  }

  function Chosen(p: Policy, candidates: seq<Candidate>, judge: Candidate -> Standing): seq<Entry> {
    TakeFirst(Sort(Scored(p, candidates, judge), EntryOrder(p.tieBreaker)), p.maxResults)
  }

  function VerifiedMap(entries: seq<Entry>, e: Evidence): map<string, seq<string>> {
    if |entries| == 0 then map[]
    else
      var last := entries[|entries| - 1].candidate;
      VerifiedMap(entries[..|entries| - 1], e)[last.reference := VerifiedRefs(e, last)]
  }

  function ChosenReferences(entries: seq<Entry>): seq<string> { Map(entries, (x: Entry) => x.candidate.reference) }

  function RankPrefiltered(p: Policy, prefiltered: Prefiltered, e: Evidence): Result<Ranked, SelectionError> {
    if !Valid(p) then Err(InvalidPolicy)
    else if e.schemaVersion == 0 || p.target != prefiltered.target then Err(Mismatch)
    else
      var chosen := Chosen(p, prefiltered.candidates, Judge(p, e));
      Ok(Ranked(References(prefiltered.candidates), ChosenReferences(chosen), VerifiedMap(chosen, e)))
  }

  // ----- prefiltered sets -----

  ghost predicate UniqueReferences(candidates: seq<Candidate>) {
    forall i, j :: 0 <= i < j < |candidates| ==> candidates[i].reference != candidates[j].reference
  }

  lemma {:induction false} FirstOfEachIsUnique(candidates: seq<Candidate>)
    ensures UniqueReferences(FirstOfEach(candidates))
    ensures forall c :: c in FirstOfEach(candidates) ==> c in candidates
    ensures forall c :: c in candidates ==> c.reference in References(FirstOfEach(candidates))
  {
    if |candidates| > 0 {
      var front, last := candidates[..|candidates| - 1], candidates[|candidates| - 1];
      var kept := FirstOfEach(front);
      FirstOfEachIsUnique(front);
      assert candidates == front + [last];
      if last.reference !in References(kept) {
        assert References(kept + [last]) == References(kept) + [last.reference];
        forall i | 0 <= i < |kept| ensures kept[i].reference != last.reference {
          assert References(kept)[i] == kept[i].reference;
        }
      }
    }
  }

  lemma {:induction false} FirstOfUnique(candidates: seq<Candidate>)
    requires UniqueReferences(candidates)
    ensures FirstOfEach(candidates) == candidates
  {
    if |candidates| > 0 {
      var front, last := candidates[..|candidates| - 1], candidates[|candidates| - 1];
      FirstOfUnique(front);
      assert last.reference !in References(front);
      assert candidates == front + [last];
    }
  }

  /** A prefiltered set holds permitted candidates only, each reference once, and no permitted reference
      is missing from it. */
  lemma {:induction false} PrefilteredIsSound(target: Target, candidates: seq<Candidate>, authorized: set<string>)
    requires FromAuthorized(target, candidates, authorized).Ok?
    ensures var kept := FromAuthorized(target, candidates, authorized).value.candidates;
            && UniqueReferences(kept)
            && (forall c :: c in kept ==> c in candidates && Permitted(c, authorized))
            && (forall c :: c in candidates && Permitted(c, authorized) ==> c.reference in References(kept))
  {
    var permitted := Filter(candidates, (c: Candidate) => Permitted(c, authorized));
    FilterMembers(candidates, (c: Candidate) => Permitted(c, authorized));
    FirstOfEachIsUnique(permitted);
  }

  // ----- the rank of a candidate -----

  /** A higher score beats a lower one; the tie-breaker and then the lesser reference decide among equals. */
  predicate Beats(t: TieBreaker, judge: Candidate -> Standing, c: Candidate, d: Candidate) {
    || judge(c).score > judge(d).score
    || (judge(c).score == judge(d).score && BreaksTie(t, judge, c, d))
  }

  predicate BreaksTie(t: TieBreaker, judge: Candidate -> Standing, c: Candidate, d: Candidate) {
    match t
    case StableIdentity => TextLess(c.reference, d.reference)
    case LowerCost => c.cost < d.cost || (c.cost == d.cost && TextLess(c.reference, d.reference))
    case RecentVerifiedSuccess =>
      judge(c).successes > judge(d).successes
        || (judge(c).successes == judge(d).successes && TextLess(c.reference, d.reference))
  }

  /** How many eligible candidates beat `c`. */
  function Rank(p: Policy, candidates: seq<Candidate>, judge: Candidate -> Standing, c: Candidate): nat {
    |Filter(candidates, (d: Candidate) => Counts(p, judge(d)) && Beats(p.tieBreaker, judge, d, c))|
  }

  lemma {:induction false} EntryOrderIsWeakOrder(t: TieBreaker)
    ensures WeakOrder(EntryOrder(t))
  {
    ByTextIsWeakOrder((x: Entry) => x.candidate.reference);
    ByNumberIsWeakOrder((x: Entry) => x.candidate.cost);
    ByNumberIsWeakOrder((x: Entry) => -x.standing.successes);
    ByNumberIsWeakOrder((x: Entry) => -x.standing.score);
    ByNumberIsWeakOrder((x: Entry) => x.index);
    match t {
      case StableIdentity =>
      case LowerCost => ThenIsWeakOrder(ByNumber((x: Entry) => x.candidate.cost), ByReference());
      case RecentVerifiedSuccess => ThenIsWeakOrder(ByNumber((x: Entry) => -x.standing.successes), ByReference());
    }
    ThenIsWeakOrder(TieOrder(t), ByNumber((x: Entry) => x.index));
    ThenIsWeakOrder(ByNumber((x: Entry) => -x.standing.score), Then(TieOrder(t), ByNumber((x: Entry) => x.index)));
  }

  /** Between different references the place in the input decides nothing. */
  lemma {:induction false} EntryOrderIsBeats(t: TieBreaker, judge: Candidate -> Standing, x: Entry, y: Entry)
    requires x.standing == judge(x.candidate) && y.standing == judge(y.candidate)
    requires x.candidate.reference != y.candidate.reference || x == y
    ensures EntryOrder(t)(x, y) == Beats(t, judge, x.candidate, y.candidate)
    ensures x != y ==> EntryOrder(t)(x, y) || EntryOrder(t)(y, x)
  {
    TextLessTotal(x.candidate.reference, y.candidate.reference);
  }

  lemma {:induction false} ScoredIsDistinct(p: Policy, candidates: seq<Candidate>, judge: Candidate -> Standing)
    requires UniqueReferences(candidates)
    ensures Distinct(Scored(p, candidates, judge))
  {
    var entries, scored := Entries(candidates, judge), Scored(p, candidates, judge);
    var places := FilterPlaces(entries, (x: Entry) => Counts(p, x.standing));
    forall i, j | 0 <= i < j < |scored| ensures scored[i] != scored[j] {
      assert places[i] < places[j];
      assert scored[i] == entries[places[i]] && scored[j] == entries[places[j]];
    }
  }

  /** The sorted entries: each scored candidate once, in a strict order. */
  lemma {:induction false} SortedEntries(p: Policy, candidates: seq<Candidate>, judge: Candidate -> Standing)
    returns (sorted: seq<Entry>)
    requires UniqueReferences(candidates)
    ensures sorted == Sort(Scored(p, candidates, judge), EntryOrder(p.tieBreaker))
    ensures multiset(sorted) == multiset(Scored(p, candidates, judge))
    ensures Sorted(sorted, EntryOrder(p.tieBreaker)) && NoTies(sorted, EntryOrder(p.tieBreaker)) && Distinct(sorted)
    ensures forall x :: x in sorted <==> x in Entries(candidates, judge) && Counts(p, x.standing)
  {
    var scored, less := Scored(p, candidates, judge), EntryOrder(p.tieBreaker);
    sorted := Sort(scored, less);
    EntryOrderIsWeakOrder(p.tieBreaker);
    SortSorts(scored, less);
    SameMembers(scored, sorted);
    FilterMembers(Entries(candidates, judge), (x: Entry) => Counts(p, x.standing));
    ScoredIsDistinct(p, candidates, judge);
    MembersCount(scored);
    MembersCount(sorted);
    assert Members(scored) == Members(sorted);
    forall i, j | 0 <= i < |sorted| && 0 <= j < |sorted| && sorted[i] != sorted[j]
      ensures less(sorted[i], sorted[j]) || less(sorted[j], sorted[i])
    {
      assert sorted[i] in sorted && sorted[j] in sorted;
      EntryOrderIsBeats(p.tieBreaker, judge, sorted[i], sorted[j]);
    }
  }

  /** As many entries come before a candidate's entry as eligible candidates beat it. */
  lemma {:induction false} RankIsPlace(p: Policy, candidates: seq<Candidate>, judge: Candidate -> Standing, i: nat)
    requires UniqueReferences(candidates)
    requires i < |Sort(Scored(p, candidates, judge), EntryOrder(p.tieBreaker))|
    ensures var x := Sort(Scored(p, candidates, judge), EntryOrder(p.tieBreaker))[i];
            x in Entries(candidates, judge) && Counts(p, x.standing) && Rank(p, candidates, judge, x.candidate) == i
  {
    var less := EntryOrder(p.tieBreaker);
    var sorted := SortedEntries(p, candidates, judge);
    var x := sorted[i];
    assert x in sorted;
    EntryOrderIsWeakOrder(p.tieBreaker);
    SortedRank(sorted, Scored(p, candidates, judge), less, i, (y: Entry) => EntryOrder(p.tieBreaker)(y, x));
    ScoredBeforeIsRank(p, candidates, judge, x);
  }

  lemma {:induction false} ScoredBeforeIsRank(
      p: Policy, candidates: seq<Candidate>, judge: Candidate -> Standing, x: Entry)
    requires UniqueReferences(candidates) && x in Entries(candidates, judge)
    ensures |Filter(Scored(p, candidates, judge), (y: Entry) => EntryOrder(p.tieBreaker)(y, x))| ==
            Rank(p, candidates, judge, x.candidate)
  {
    var entries := Entries(candidates, judge);
    var counts := (y: Entry) => Counts(p, y.standing);
    var before := (y: Entry) => EntryOrder(p.tieBreaker)(y, x);
    var both := (y: Entry) => counts(y) && before(y);
    var beating := (d: Candidate) => Counts(p, judge(d)) && Beats(p.tieBreaker, judge, d, x.candidate);
    FilterTwice(entries, counts, before, both);
    forall k | 0 <= k < |entries| ensures both(entries[k]) == beating(candidates[k]) {
      assert entries[k] in entries;
      EntryOrderIsBeats(p.tieBreaker, judge, entries[k], x);
    }
    FilterAgrees(entries, candidates, both, beating);
  }

  /** The place of a candidate in the sorted entries, if it has one. */
  lemma {:induction false} PlaceOf(
      p: Policy, candidates: seq<Candidate>, judge: Candidate -> Standing, c: Candidate, i: nat)
    requires UniqueReferences(candidates) && c in candidates
    requires i < |Sort(Scored(p, candidates, judge), EntryOrder(p.tieBreaker))|
    ensures Sort(Scored(p, candidates, judge), EntryOrder(p.tieBreaker))[i].candidate.reference == c.reference <==>
            Counts(p, judge(c)) && Rank(p, candidates, judge, c) == i
  {
    var sorted := SortedEntries(p, candidates, judge);
    var k :| 0 <= k < |candidates| && candidates[k] == c;
    var x := Entries(candidates, judge)[k];
    assert x in Entries(candidates, judge) && sorted[i] in sorted;
    RankIsPlace(p, candidates, judge, i);
    if Counts(p, judge(c)) && Rank(p, candidates, judge, c) == i {
      assert x in sorted;
      var at :| 0 <= at < |sorted| && sorted[at] == x;
      RankIsPlace(p, candidates, judge, at);
    }
  }

  lemma {:induction false} EligibleHasPlace(
      p: Policy, candidates: seq<Candidate>, judge: Candidate -> Standing, c: Candidate)
    requires UniqueReferences(candidates) && c in candidates && Counts(p, judge(c))
    ensures Rank(p, candidates, judge, c) < |Sort(Scored(p, candidates, judge), EntryOrder(p.tieBreaker))|
  {
    var sorted := SortedEntries(p, candidates, judge);
    var k :| 0 <= k < |candidates| && candidates[k] == c;
    var x := Entries(candidates, judge)[k];
    assert x in Entries(candidates, judge);
    var at :| 0 <= at < |sorted| && sorted[at] == x;
    RankIsPlace(p, candidates, judge, at);
  }

  // ----- the main results -----

  /** A ranking lists its eligible candidates by rank: the one at place `i` is beaten by exactly `i` others,
      and the list leaves out an eligible candidate only when the limit's worth of others beat it. */
  lemma {:induction false} RankedByRank(p: Policy, prefiltered: Prefiltered, e: Evidence, c: Candidate)
    requires RankPrefiltered(p, prefiltered, e).Ok? && UniqueReferences(prefiltered.candidates)
             && c in prefiltered.candidates
    ensures var ordered := RankPrefiltered(p, prefiltered, e).value.ordered;
            var judge := Judge(p, e);
            var rank := Rank(p, prefiltered.candidates, judge, c);
            && (c.reference in ordered <==> Counts(p, judge(c)) && rank < p.maxResults)
            && (forall i :: 0 <= i < |ordered| ==> (ordered[i] == c.reference <==> Counts(p, judge(c)) && rank == i))
  {
    ChosenByRank(p, prefiltered.candidates, Judge(p, e), c);
  }

  lemma {:induction false} ChosenByRank(
      p: Policy, candidates: seq<Candidate>, judge: Candidate -> Standing, c: Candidate)
    requires UniqueReferences(candidates) && c in candidates
    ensures var ordered := ChosenReferences(Chosen(p, candidates, judge));
            var rank := Rank(p, candidates, judge, c);
            && (c.reference in ordered <==> Counts(p, judge(c)) && rank < p.maxResults)
            && (forall i :: 0 <= i < |ordered| ==> (ordered[i] == c.reference <==> Counts(p, judge(c)) && rank == i))
  {
    var sorted := Sort(Scored(p, candidates, judge), EntryOrder(p.tieBreaker));
    var ordered := ChosenReferences(Chosen(p, candidates, judge));
    forall i | 0 <= i < |ordered|
      ensures ordered[i] == c.reference <==> Counts(p, judge(c)) && Rank(p, candidates, judge, c) == i
    {
      assert ordered[i] == sorted[i].candidate.reference;
      PlaceOf(p, candidates, judge, c, i);
    }
    if Counts(p, judge(c)) && Rank(p, candidates, judge, c) < p.maxResults {
      EligibleHasPlace(p, candidates, judge, c);
      assert ordered[Rank(p, candidates, judge, c)] == c.reference;
    }
  }

  // ----- the order of the input -----

  lemma {:induction false} RankForgetsOrder(
      p: Policy, a: seq<Candidate>, b: seq<Candidate>, judge: Candidate -> Standing, c: Candidate)
    requires multiset(a) == multiset(b)
    ensures Rank(p, a, judge, c) == Rank(p, b, judge, c)
  {
    FilterForgetsOrder(a, b, (d: Candidate) => Counts(p, judge(d)) && Beats(p.tieBreaker, judge, d, c));
  }

  lemma {:induction false} UniqueForgetsOrder(a: seq<Candidate>, b: seq<Candidate>)
    requires UniqueReferences(a) && multiset(a) == multiset(b)
    ensures UniqueReferences(b)
  {
    DistinctKeysForgetOrder(a, b, (c: Candidate) => c.reference);
    assert forall i :: 0 <= i < |b| ==> References(b)[i] == b[i].reference;
  }

  /** Every listed entry belongs to a candidate. */
  lemma {:induction false} ChosenAreCandidates(
      p: Policy, candidates: seq<Candidate>, judge: Candidate -> Standing, i: nat)
    requires UniqueReferences(candidates) && i < |Chosen(p, candidates, judge)|
    ensures Chosen(p, candidates, judge)[i].candidate in candidates
    ensures |Chosen(p, candidates, judge)| == |TakeFirst(Scored(p, candidates, judge), p.maxResults)|
  {
    var sorted := SortedEntries(p, candidates, judge);
    SameMembers(sorted, Scored(p, candidates, judge));
    assert sorted[i] in sorted;
    var k :| 0 <= k < |candidates| && Entries(candidates, judge)[k] == sorted[i];
  }

  lemma {:induction false} ChosenCount(p: Policy, candidates: seq<Candidate>, judge: Candidate -> Standing)
    ensures |Chosen(p, candidates, judge)| ==
            |TakeFirst(Filter(candidates, (c: Candidate) => Counts(p, judge(c))), p.maxResults)|
  {
    EntryOrderIsWeakOrder(p.tieBreaker);
    SortSorts(Scored(p, candidates, judge), EntryOrder(p.tieBreaker));
    FilterAgrees(Entries(candidates, judge), candidates, (x: Entry) => Counts(p, x.standing),
                 (c: Candidate) => Counts(p, judge(c)));
  }

  /** The candidates listed are the same ones at the same places, whatever the order of the input. */
  lemma {:induction false} ChosenForgetsOrder(
      p: Policy, a: seq<Candidate>, b: seq<Candidate>, judge: Candidate -> Standing)
    requires UniqueReferences(a) && multiset(a) == multiset(b)
    ensures |Chosen(p, a, judge)| == |Chosen(p, b, judge)|
    ensures forall i :: 0 <= i < |Chosen(p, a, judge)| ==>
            Chosen(p, a, judge)[i].candidate == Chosen(p, b, judge)[i].candidate
  {
    ChosenCount(p, a, judge);
    ChosenCount(p, b, judge);
    FilterForgetsOrder(a, b, (c: Candidate) => Counts(p, judge(c)));
    UniqueForgetsOrder(a, b);
    SameMembers(a, b);
    forall i | 0 <= i < |Chosen(p, a, judge)|
      ensures Chosen(p, a, judge)[i].candidate == Chosen(p, b, judge)[i].candidate
    {
      var c, d := Chosen(p, a, judge)[i].candidate, Chosen(p, b, judge)[i].candidate;
      ChosenAreCandidates(p, a, judge, i);
      ChosenAreCandidates(p, b, judge, i);
      ChosenByRank(p, a, judge, c);
      RankForgetsOrder(p, a, b, judge, c);
      ChosenByRank(p, b, judge, c);
      assert ChosenReferences(Chosen(p, a, judge))[i] == c.reference;
      assert ChosenReferences(Chosen(p, b, judge))[i] == d.reference;
    }
  }

  lemma {:induction false} VerifiedMapAgrees(a: seq<Entry>, b: seq<Entry>, e: Evidence)
    requires |a| == |b| && forall i :: 0 <= i < |a| ==> a[i].candidate == b[i].candidate
    ensures VerifiedMap(a, e) == VerifiedMap(b, e) && ChosenReferences(a) == ChosenReferences(b)
  {
    if |a| > 0 { VerifiedMapAgrees(a[..|a| - 1], b[..|b| - 1], e); }
  }

  /** Prefiltering and ranking candidates of different references gives the same list, with the same
      evidence behind it, in whatever order the candidates come. */
  lemma {:induction false} SelectionForgetsOrder(
      p: Policy, target: Target, a: seq<Candidate>, b: seq<Candidate>, authorized: set<string>, e: Evidence)
    requires UniqueReferences(a) && multiset(a) == multiset(b)
    requires FromAuthorized(target, a, authorized).Ok?
    ensures FromAuthorized(target, b, authorized).Ok?
    ensures var x := RankPrefiltered(p, FromAuthorized(target, a, authorized).value, e);
            var y := RankPrefiltered(p, FromAuthorized(target, b, authorized).value, e);
            if x.Ok? then y.Ok? && y.value.ordered == x.value.ordered && y.value.verified == x.value.verified
            else y == x
  {
    SameMembers(a, b);
    forall i | 0 <= i < |b| ensures b[i].schemaVersion != 0 && !Blank(b[i].reference) && !Blank(b[i].evidenceKey) {
      assert b[i] in a;
    }
    var permitted := (c: Candidate) => Permitted(c, authorized);
    UniqueForgetsOrder(a, b);
    PermittedStayUnique(a, permitted);
    PermittedStayUnique(b, permitted);
    FilterForgetsOrder(a, b, permitted);
    FirstOfUnique(Filter(a, permitted));
    FirstOfUnique(Filter(b, permitted));
    if Valid(p) {
      ChosenForgetsOrder(p, Filter(a, permitted), Filter(b, permitted), Judge(p, e));
      VerifiedMapAgrees(Chosen(p, Filter(a, permitted), Judge(p, e)), Chosen(p, Filter(b, permitted), Judge(p, e)), e);
    }
  }

  lemma {:induction false} PermittedStayUnique(candidates: seq<Candidate>, keep: Candidate -> bool)
    requires UniqueReferences(candidates)
    ensures UniqueReferences(Filter(candidates, keep))
  {
    var kept := Filter(candidates, keep);
    var places := FilterPlaces(candidates, keep);
    forall i, j | 0 <= i < j < |kept| ensures kept[i].reference != kept[j].reference {
      assert places[i] < places[j];
    }
  }

  ghost predicate UniqueEntries(entries: seq<Entry>) {
    forall i, j :: 0 <= i < j < |entries| ==> entries[i].candidate.reference != entries[j].candidate.reference
  }

  /** What a ranking records of a listed candidate is all the verified evidence on it, and of nobody else. */
  lemma {:induction false} VerifiedMapHolds(entries: seq<Entry>, e: Evidence)
    requires UniqueEntries(entries)
    ensures forall i :: 0 <= i < |entries| ==>
              entries[i].candidate.reference in VerifiedMap(entries, e)
              && VerifiedMap(entries, e)[entries[i].candidate.reference] == VerifiedRefs(e, entries[i].candidate)
    ensures forall r :: r in VerifiedMap(entries, e) ==>
            exists i :: 0 <= i < |entries| && entries[i].candidate.reference == r
  {
    if |entries| > 0 {
      var front := entries[..|entries| - 1];
      VerifiedMapHolds(front, e);
      forall r | r in VerifiedMap(entries, e)
        ensures exists i :: 0 <= i < |entries| && entries[i].candidate.reference == r
      {
        if r in VerifiedMap(front, e) {
          var i :| 0 <= i < |front| && front[i].candidate.reference == r;
          assert entries[i].candidate.reference == r;
        } else {
          assert entries[|entries| - 1].candidate.reference == r;
        }
      }
    }
  }
}
