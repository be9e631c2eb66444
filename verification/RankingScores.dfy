/** What a ranking scores a candidate for, told from the policy's list of weights and the evidence itself. */
module RankingScores {
  import opened Common
  import opened Orders
  import opened Sequences
  import opened Ranking

  // ----- words -----

  const CAPITALS := "ABCDEFGHIJKLMNOPQRSTUVWXYZ"
  const SMALLS := "abcdefghijklmnopqrstuvwxyz"

  predicate SameLetter(c: char, small: char) {
    c == small || exists i :: 0 <= i < |CAPITALS| && CAPITALS[i] == c && SMALLS[i] == small
  }

  /** The text is the word, in any mixture of small and capital ASCII letters. */
  predicate Spells(text: string, word: string) {
    |text| == |word| && forall i :: 0 <= i < |word| ==> SameLetter(text[i], word[i])
  }

  predicate IsSmall(word: string) { forall i :: 0 <= i < |word| ==> 'a' <= word[i] <= 'z' || word[i] == '-' }

  lemma {:induction false} LettersAgree(c: char, small: char)
    requires 'a' <= small <= 'z' || small == '-'
    ensures LowerChar(c) == small <==> SameLetter(c, small)
  {
    if 'A' <= c <= 'Z' {
      var i := c as int - 'A' as int;
      CapitalAt(i);
      assert CAPITALS[i] == c && SMALLS[i] == LowerChar(c);
      forall k | 0 <= k < |CAPITALS| && CAPITALS[k] == c ensures k == i { CapitalAt(k); }
    } else {
      forall k | 0 <= k < |CAPITALS| ensures CAPITALS[k] != c { CapitalAt(k); }
    }
  }

  lemma {:induction false} CapitalAt(i: int)
    requires 0 <= i < 26
    ensures |CAPITALS| == |SMALLS| == 26
    ensures CAPITALS[i] as int == 'A' as int + i && SMALLS[i] as int == 'a' as int + i
  {
    if i < 13 { } else { }
  }

  lemma {:induction false} SpellsExactly(text: string, word: string)
    requires IsSmall(word)
    ensures Lower(text) == word <==> Spells(text, word)
  {
    forall i | 0 <= i < |text| && i < |word| ensures Lower(text)[i] == word[i] <==> SameLetter(text[i], word[i]) {
      LettersAgree(text[i], word[i]);
    }
  }

  predicate SaysVerified(item: Item) {
    Spells(item.reliability, "verified") || Spells(item.reliability, "independent")
    || Spells(item.reliability, "owner-verified")
  }

  predicate SaysSuccess(item: Item) {
    Spells(item.outcome, "pass") || Spells(item.outcome, "passed") || Spells(item.outcome, "success")
    || Spells(item.outcome, "succeeded")
  }

  predicate SaysFailure(item: Item) {
    Spells(item.outcome, "fail") || Spells(item.outcome, "failed") || Spells(item.outcome, "failure")
    || Spells(item.outcome, "revoked")
  }

  /** Reliabilities and outcomes are recognised by their words alone, in any case of their letters. */
  lemma {:induction false} WordsDecide(item: Item)
    ensures IsVerified(item) <==> SaysVerified(item)
    ensures IsSuccess(item) <==> SaysSuccess(item)
    ensures IsFailure(item) <==> SaysFailure(item)
  {
    SpellsExactly(item.reliability, "verified");
    SpellsExactly(item.reliability, "independent");
    SpellsExactly(item.reliability, "owner-verified");
    SpellsExactly(item.outcome, "pass");
    SpellsExactly(item.outcome, "passed");
    SpellsExactly(item.outcome, "success");
    SpellsExactly(item.outcome, "succeeded");
    SpellsExactly(item.outcome, "fail");
    SpellsExactly(item.outcome, "failed");
    SpellsExactly(item.outcome, "failure");
    SpellsExactly(item.outcome, "revoked");
  }

  // ----- counting -----

  /** The places of the verified evidence on the candidate. */
  function VerifiedPlaces(e: Evidence, c: Candidate): set<int> {
    set i | 0 <= i < |e.items| && e.items[i].capability == c.evidenceKey && SaysVerified(e.items[i])
  }

  function SuccessPlaces(e: Evidence, c: Candidate): set<int> {
    set i | 0 <= i < |e.items| && e.items[i].capability == c.evidenceKey && SaysVerified(e.items[i])
            && SaysSuccess(e.items[i])
  }

  function FailurePlaces(e: Evidence, c: Candidate): set<int> {
    set i | 0 <= i < |e.items| && e.items[i].capability == c.evidenceKey && SaysVerified(e.items[i])
            && SaysFailure(e.items[i])
  }

  function RecordedFailures(e: Evidence, c: Candidate): nat {
    if c.evidenceKey in e.failures then |e.failures[c.evidenceKey]| else 0
  }

  lemma {:induction false} SuccessesAreRight(e: Evidence, c: Candidate)
    ensures Successes(e, c) == |SuccessPlaces(e, c)|
  {
    var successes := (i: Item) => i.capability == c.evidenceKey && IsVerified(i) && IsSuccess(i);
    forall i | 0 <= i < |e.items| ensures i in SuccessPlaces(e, c) <==> successes(e.items[i]) {
      WordsDecide(e.items[i]);
    }
    FilterPlacesCount(e.items, successes, SuccessPlaces(e, c));
  }

  lemma {:induction false} FailuresAreRight(e: Evidence, c: Candidate)
    ensures Failures(e, c) == |FailurePlaces(e, c)| + RecordedFailures(e, c)
  {
    var failures := (i: Item) => i.capability == c.evidenceKey && IsVerified(i) && IsFailure(i);
    forall i | 0 <= i < |e.items| ensures i in FailurePlaces(e, c) <==> failures(e.items[i]) {
      WordsDecide(e.items[i]);
    }
    FilterPlacesCount(e.items, failures, FailurePlaces(e, c));
  }

  lemma {:induction false} VerifiedAreRight(e: Evidence, c: Candidate)
    ensures |VerifiedItems(e, c)| == |VerifiedPlaces(e, c)|
  {
    var verified := (i: Item) => i.capability == c.evidenceKey && IsVerified(i);
    forall i | 0 <= i < |e.items| ensures i in VerifiedPlaces(e, c) <==> verified(e.items[i]) {
      WordsDecide(e.items[i]);
    }
    FilterPlacesCount(e.items, verified, VerifiedPlaces(e, c));
  }

  // ----- the score -----

  function AtMost(n: int, limit: int): int { if n > limit then limit else n }

  /** What a feature is worth for the candidate: evidence of success, compatibility and reliability speak for it,
      failures, cost and latency against it. */
  function Worth(f: Feature, e: Evidence, c: Candidate): int {
    match f
    case VerifiedSuccess => |SuccessPlaces(e, c)|
    case FailurePenalty => -(|FailurePlaces(e, c)| + RecordedFailures(e, c))
    case Compatibility => if c.compatible then 1 else 0
    case Reliability => |VerifiedPlaces(e, c)|
    case Cost => -AtMost(c.cost, 10_000)
    case Latency => -AtMost(c.latency, 10_000)
  }

  /** The sum of the weights, each times what its feature is worth. */
  function Weighed(weights: seq<Weight>, worth: Feature -> int): int {
    if |weights| == 0 then 0
    else
      var last := weights[|weights| - 1];
      Weighed(weights[..|weights| - 1], worth) + last.basisPoints * worth(last.feature)
  }

  function ByFeature(m: map<Feature, nat>, worth: Feature -> int): int {
    Or0(m, VerifiedSuccess) * worth(VerifiedSuccess) + Or0(m, FailurePenalty) * worth(FailurePenalty)
    + Or0(m, Compatibility) * worth(Compatibility) + Or0(m, Reliability) * worth(Reliability)
    + Or0(m, Cost) * worth(Cost) + Or0(m, Latency) * worth(Latency)
  }

  lemma {:induction false} AddsFeature(m: map<Feature, nat>, w: Weight, worth: Feature -> int)
    requires w.feature !in m
    ensures ByFeature(m[w.feature := w.basisPoints], worth) ==
            ByFeature(m, worth) + w.basisPoints * worth(w.feature)
  {
    match w.feature
    case VerifiedSuccess =>
    case FailurePenalty =>
    case Compatibility =>
    case Reliability =>
    case Cost =>
    case Latency =>
  }

  ghost predicate DifferentFeatures(weights: seq<Weight>) {
    forall i, j :: 0 <= i < j < |weights| ==> weights[i].feature != weights[j].feature
  }

  lemma {:induction false} WeighedByFeature(weights: seq<Weight>, worth: Feature -> int)
    requires DifferentFeatures(weights)
    ensures ByFeature(WeightMap(weights), worth) == Weighed(weights, worth)
  {
    if |weights| > 0 {
      var front, last := weights[..|weights| - 1], weights[|weights| - 1];
      WeighedByFeature(front, worth);
      assert forall i :: 0 <= i < |front| ==> Features(front)[i] == weights[i].feature;
      AddsFeature(WeightMap(front), last, worth);
    }
  }

  lemma {:induction false} FeaturesDiffer(weights: seq<Weight>)
    ensures |Members(Features(weights))| == |weights| <==> DifferentFeatures(weights)
  {
    MembersCount(Features(weights));
    assert forall i :: 0 <= i < |weights| ==> Features(weights)[i] == weights[i].feature;
    if Distinct(Features(weights)) {
      forall i, j | 0 <= i < j < |weights| ensures weights[i].feature != weights[j].feature {
        assert Features(weights)[i] != Features(weights)[j];
      }
    }
  }

  /** The worths of the six features, as counted from the evidence. */
  ghost predicate WorthOf(worth: Feature -> int, e: Evidence, c: Candidate) {
    && worth(VerifiedSuccess) == Successes(e, c)
    && worth(FailurePenalty) + Failures(e, c) == 0
    && worth(Compatibility) == (if c.compatible then 1 else 0)
    && worth(Reliability) == |VerifiedItems(e, c)|
    && worth(Cost) == -AtMost(c.cost, 10_000) && worth(Latency) == -AtMost(c.latency, 10_000)
  }

  lemma {:induction false} WorthIsCounted(e: Evidence, c: Candidate)
    ensures WorthOf((f: Feature) => Worth(f, e, c), e, c)
  {
    SuccessesAreRight(e, c);
    FailuresAreRight(e, c);
    VerifiedAreRight(e, c);
  }

  lemma {:induction false} ScoreByFeature(p: Policy, e: Evidence, c: Candidate, worth: Feature -> int)
    requires Valid(p) && WorthOf(worth, e, c)
    ensures Judge(p, e)(c).score == ByFeature(WeightMap(p.weights), worth)
  {
    var w := WeightMap(p.weights);
    Negates(w[FailurePenalty], worth(FailurePenalty), Failures(e, c));
    Negates(Or0(w, Cost), worth(Cost), AtMost(c.cost, 10_000));
    Negates(Or0(w, Latency), worth(Latency), AtMost(c.latency, 10_000));
  }

  /** A candidate's score is the weighed sum over the policy's list of weights. */
  lemma {:induction false} ScoreIsWeighed(p: Policy, e: Evidence, c: Candidate)
    requires Valid(p)
    ensures Judge(p, e)(c).score == Points(p, e, c)
    ensures Judge(p, e)(c).successes == |SuccessPlaces(e, c)|
  {
    var worth := (f: Feature) => Worth(f, e, c);
    FeaturesDiffer(p.weights);
    WorthIsCounted(e, c);
    SuccessesAreRight(e, c);
    ScoreByFeature(p, e, c, worth);
    WeighedByFeature(p.weights, worth);
  }

  function Points(p: Policy, e: Evidence, c: Candidate): int { Weighed(p.weights, (f: Feature) => Worth(f, e, c)) }

  lemma {:induction false} Negates(a: int, b: int, c: int)
    requires b + c == 0
    ensures a * b == -(a * c)
  {
  }

  // ----- the verdict -----

  /** What a policy must meet. */
  ghost predicate Sensible(p: Policy) {
    && p.identified
    && DifferentFeatures(p.weights)
    && Weighs(p.weights, VerifiedSuccess) && Weighs(p.weights, FailurePenalty) && Weighs(p.weights, Compatibility)
    && (forall i :: 0 <= i < |p.weights| ==> 1 <= p.weights[i].basisPoints <= 10_000)
    && Weighed(p.weights, (f: Feature) => 1) == 10_000
    && 1 <= p.maxResults <= 256
  }

  ghost predicate Weighs(weights: seq<Weight>, f: Feature) {
    exists i :: 0 <= i < |weights| && weights[i].feature == f
  }

  lemma {:induction false} WeighedIsSum(weights: seq<Weight>)
    ensures Weighed(weights, (f: Feature) => 1) == SumOver(weights, (w: Weight) => w.basisPoints)
  {
    if |weights| > 0 {
      var front, last := weights[..|weights| - 1], weights[|weights| - 1];
      WeighedIsSum(front);
      assert weights == front + [last];
      SumConcat(front, [last], (w: Weight) => w.basisPoints);
      assert [last][1..] == [];
    }
  }

  lemma {:induction false} WeighsExactly(weights: seq<Weight>, f: Feature)
    ensures Weighs(weights, f) <==> f in Members(Features(weights))
  {
    if i :| 0 <= i < |weights| && weights[i].feature == f { assert Features(weights)[i] == f; }
    if f in Features(weights) {
      var i :| 0 <= i < |weights| && Features(weights)[i] == f;
      assert weights[i].feature == f;
    }
  }

  lemma {:induction false} ValidExactly(p: Policy)
    ensures Valid(p) <==> Sensible(p)
  {
    FeaturesDiffer(p.weights);
    WeighsExactly(p.weights, VerifiedSuccess);
    WeighsExactly(p.weights, FailurePenalty);
    WeighsExactly(p.weights, Compatibility);
    WeighedIsSum(p.weights);
  }

  /** A ranking succeeds exactly under a sensible policy, on versioned evidence and candidates for its target. */
  lemma {:induction false} RanksExactly(p: Policy, prefiltered: Prefiltered, e: Evidence)
    ensures RankPrefiltered(p, prefiltered, e).Ok? <==>
            Sensible(p) && e.schemaVersion > 0 && p.target == prefiltered.target
    ensures RankPrefiltered(p, prefiltered, e).Ok? ==>
              var considered := RankPrefiltered(p, prefiltered, e).value.considered;
              |considered| == |prefiltered.candidates|
              && forall i :: 0 <= i < |considered| ==> considered[i] == prefiltered.candidates[i].reference
    ensures RankPrefiltered(p, prefiltered, e).Err? ==>
              (RankPrefiltered(p, prefiltered, e).error == InvalidPolicy <==> !Sensible(p))
  {
    ValidExactly(p);
  }

  /** The candidate has proven itself, or need not have. */
  ghost predicate Eligible(p: Policy, e: Evidence, c: Candidate) {
    p.fallback == SeedOrder || exists i :: i in SuccessPlaces(e, c)
  }

  /** `c` comes before `d`: more points, or the tie-breaker and then the lesser reference among equals. */
  ghost predicate Before(p: Policy, e: Evidence, c: Candidate, d: Candidate) {
    || Points(p, e, c) > Points(p, e, d)
    || (Points(p, e, c) == Points(p, e, d) && WinsTie(p.tieBreaker, e, c, d))
  }

  ghost predicate WinsTie(t: TieBreaker, e: Evidence, c: Candidate, d: Candidate) {
    var lesser := TextLess(c.reference, d.reference);
    match t
    case StableIdentity => lesser
    case LowerCost => if c.cost == d.cost then lesser else c.cost < d.cost
    case RecentVerifiedSuccess =>
      if |SuccessPlaces(e, c)| == |SuccessPlaces(e, d)| then lesser else |SuccessPlaces(e, c)| > |SuccessPlaces(e, d)|
  }

  /** The places of the eligible candidates that come before `c`. */
  ghost function Ahead(p: Policy, candidates: seq<Candidate>, e: Evidence, c: Candidate): set<int> {
    set k | 0 <= k < |candidates| && Eligible(p, e, candidates[k]) && Before(p, e, candidates[k], c)
  }

  lemma {:induction false} StandingDecides(p: Policy, e: Evidence, c: Candidate, d: Candidate)
    requires Valid(p)
    ensures Counts(p, Judge(p, e)(c)) <==> Eligible(p, e, c)
    ensures Beats(p.tieBreaker, Judge(p, e), c, d) <==> Before(p, e, c, d)
  {
    ScoreIsWeighed(p, e, c);
    ScoreIsWeighed(p, e, d);
    if |SuccessPlaces(e, c)| > 0 {
      var i :| i in SuccessPlaces(e, c);
      assert Eligible(p, e, c);
    }
  }

  lemma {:induction false} AheadAreBeating(
      p: Policy, candidates: seq<Candidate>, e: Evidence, c: Candidate, judge: Candidate -> Standing, k: int)
    requires Valid(p) && judge == Judge(p, e)
    ensures k in Ahead(p, candidates, e, c) <==>
            0 <= k < |candidates| && Counts(p, judge(candidates[k])) && Beats(p.tieBreaker, judge, candidates[k], c)
  {
    if 0 <= k < |candidates| { StandingDecides(p, e, candidates[k], c); }
  }

  lemma {:induction false} RankIsCount(
      p: Policy, candidates: seq<Candidate>, judge: Candidate -> Standing, c: Candidate, ahead: set<int>)
    requires forall k :: k in ahead <==>
               0 <= k < |candidates| && Counts(p, judge(candidates[k])) && Beats(p.tieBreaker, judge, candidates[k], c)
    ensures Rank(p, candidates, judge, c) == |ahead|
  {
    var beating := (d: Candidate) => Counts(p, judge(d)) && Beats(p.tieBreaker, judge, d, c);
    FilterPlacesCount(candidates, beating, ahead);
  }

  lemma {:induction false} RankIsAhead(p: Policy, candidates: seq<Candidate>, e: Evidence, c: Candidate)
    requires Valid(p)
    ensures Rank(p, candidates, Judge(p, e), c) == |Ahead(p, candidates, e, c)|
  {
    var judge := Judge(p, e);
    forall k
      ensures k in Ahead(p, candidates, e, c) <==>
              0 <= k < |candidates| && Counts(p, judge(candidates[k])) && Beats(p.tieBreaker, judge, candidates[k], c)
    {
      AheadAreBeating(p, candidates, e, c, judge, k);
    }
    RankIsCount(p, candidates, judge, c, Ahead(p, candidates, e, c));
  }

  /** A ranking lists a candidate exactly when it is eligible and fewer eligible ones than the limit come before
      it, at the place that is their number. */
  lemma {:induction false} ListedExactly(p: Policy, prefiltered: Prefiltered, e: Evidence, c: Candidate)
    requires RankPrefiltered(p, prefiltered, e).Ok? && UniqueReferences(prefiltered.candidates)
    requires c in prefiltered.candidates
    ensures var ordered := RankPrefiltered(p, prefiltered, e).value.ordered;
            var ahead := |Ahead(p, prefiltered.candidates, e, c)|;
            && (c.reference in ordered <==> Eligible(p, e, c) && ahead < p.maxResults)
            && (forall i :: 0 <= i < |ordered| ==> (ordered[i] == c.reference <==> Eligible(p, e, c) && i == ahead))
  {
    RankedByRank(p, prefiltered, e, c);
    StandingDecides(p, e, c, c);
    RankIsAhead(p, prefiltered.candidates, e, c);
  }

  // ----- what moves a score -----

  function WithItem(e: Evidence, item: Item): Evidence { e.(items := e.items + [item]) }

  lemma {:induction false} PlacesWith(e: Evidence, item: Item, c: Candidate)
    ensures var n, ours := |e.items|, item.capability == c.evidenceKey && SaysVerified(item);
            && VerifiedPlaces(WithItem(e, item), c) == VerifiedPlaces(e, c) + (if ours then {n} else {})
            && SuccessPlaces(WithItem(e, item), c) ==
               SuccessPlaces(e, c) + (if ours && SaysSuccess(item) then {n} else {})
            && FailurePlaces(WithItem(e, item), c) ==
               FailurePlaces(e, c) + (if ours && SaysFailure(item) then {n} else {})
  {
  }

  lemma {:induction false} WorthStays(e: Evidence, item: Item, c: Candidate, f: Feature)
    requires item.capability != c.evidenceKey || !SaysVerified(item)
    ensures Worth(f, WithItem(e, item), c) == Worth(f, e, c)
  {
    PlacesWith(e, item, c);
  }

  /** What is declared but not verified, or says something of another capability, never changes how a candidate
      stands. */
  lemma {:induction false} DeclarationsDoNotCount(p: Policy, e: Evidence, item: Item, c: Candidate)
    requires Valid(p) && (item.capability != c.evidenceKey || !SaysVerified(item))
    ensures Judge(p, WithItem(e, item))(c).score == Judge(p, e)(c).score
    ensures Judge(p, WithItem(e, item))(c).successes == Judge(p, e)(c).successes
  {
    ScoreIsWeighed(p, e, c);
    ScoreIsWeighed(p, WithItem(e, item), c);
    WorthStays(e, item, c, VerifiedSuccess);
    PointsStay(p, e, item, c);
  }

  lemma {:induction false} PointsStay(p: Policy, e: Evidence, item: Item, c: Candidate)
    requires item.capability != c.evidenceKey || !SaysVerified(item)
    ensures Points(p, WithItem(e, item), c) == Points(p, e, c)
  {
    var a, b := (f: Feature) => Worth(f, e, c), (f: Feature) => Worth(f, WithItem(e, item), c);
    forall f ensures a(f) == b(f) { WorthStays(e, item, c, f); }
    WeighedAgrees(p.weights, a, b);
  }

  lemma {:induction false} WeighedAgrees(weights: seq<Weight>, a: Feature -> int, b: Feature -> int)
    requires forall f :: a(f) == b(f)
    ensures Weighed(weights, a) == Weighed(weights, b)
  {
    if |weights| > 0 { WeighedAgrees(weights[..|weights| - 1], a, b); }
  }

  // ----- prefiltering -----

  /** The candidate at `k` may be used, and no earlier one of its reference may. */
  ghost predicate FirstUsable(candidates: seq<Candidate>, authorized: set<string>, k: int) {
    Usable(candidates, authorized, k)
    && forall j :: 0 <= j < k && Usable(candidates, authorized, j) ==>
       candidates[j].reference != candidates[k].reference
  }

  ghost predicate Usable(candidates: seq<Candidate>, authorized: set<string>, k: int) {
    && 0 <= k < |candidates| && candidates[k].active && candidates[k].managedAllowed
    && candidates[k].permissionAllowed && candidates[k].scopeAllowed && candidates[k].reference in authorized
  }

  function Kept(candidates: seq<Candidate>, authorized: set<string>): seq<Candidate> {
    FirstOfEach(Filter(candidates, (c: Candidate) => Permitted(c, authorized)))
  }

  lemma {:induction false} KeptSnoc(candidates: seq<Candidate>, authorized: set<string>)
    requires |candidates| > 0
    ensures var front, last := candidates[..|candidates| - 1], candidates[|candidates| - 1];
            Kept(candidates, authorized) ==
            Kept(front, authorized)
            + if Permitted(last, authorized) && last.reference !in References(Kept(front, authorized)) then [last]
              else []
  {
    var front, last := candidates[..|candidates| - 1], candidates[|candidates| - 1];
    var permitted := (c: Candidate) => Permitted(c, authorized);
    assert candidates == front + [last];
    FilterSnoc(front, last, permitted);
    var before := Filter(front, permitted);
    assert before + [] == before;
    assert (before + [last])[..|before|] == before;
  }

  /** Kept are the first usable candidates of their references, all of them, in their order. */
  ghost predicate KeptAt(kept: seq<Candidate>, candidates: seq<Candidate>, authorized: set<string>, places: seq<nat>) {
    && Places(kept, candidates, places)
    && forall k :: FirstUsable(candidates, authorized, k) <==> 0 <= k && k in places
  }

  lemma {:induction false} KeptExactly(candidates: seq<Candidate>, authorized: set<string>)
    returns (places: seq<nat>)
    ensures KeptAt(Kept(candidates, authorized), candidates, authorized, places)
  {
    if |candidates| == 0 {
      places := [];
    } else {
      var front, last := candidates[..|candidates| - 1], |candidates| - 1;
      places := KeptExactly(front, authorized);
      KeptSnoc(candidates, authorized);
      FirstUsableSnoc(candidates, authorized, places);
      if FirstUsable(candidates, authorized, last) { places := places + [last]; }
    }
  }

  lemma {:induction false} FirstUsableSnoc(candidates: seq<Candidate>, authorized: set<string>, places: seq<nat>)
    requires |candidates| > 0
    requires var front := candidates[..|candidates| - 1];
             KeptAt(Kept(front, authorized), front, authorized, places)
    ensures var front, last := candidates[..|candidates| - 1], |candidates| - 1;
            && (forall k :: k < last ==>
                (FirstUsable(candidates, authorized, k) <==> FirstUsable(front, authorized, k)))
            && (FirstUsable(candidates, authorized, last) <==>
                Permitted(candidates[last], authorized)
                && candidates[last].reference !in References(Kept(front, authorized)))
  {
    var front, last := candidates[..|candidates| - 1], |candidates| - 1;
    var kept, name := Kept(front, authorized), candidates[last].reference;
    assert forall k :: k < last ==> (Usable(candidates, authorized, k) <==> Usable(front, authorized, k));
    forall k | k < last ensures FirstUsable(candidates, authorized, k) <==> FirstUsable(front, authorized, k) {
    }
    if name in References(kept) {
      var i :| 0 <= i < |kept| && References(kept)[i] == name;
      assert FirstUsable(front, authorized, places[i]);
      assert Usable(candidates, authorized, places[i]);
    }
    if j :| 0 <= j < last && Usable(front, authorized, j) && front[j].reference == name {
      var k := FirstOf(front, authorized, j);
      assert k in places;
      var i :| 0 <= i < |places| && places[i] == k;
      assert References(kept)[i] == name;
    }
  }

  lemma {:induction false} FirstOf(candidates: seq<Candidate>, authorized: set<string>, j: int) returns (k: int)
    requires Usable(candidates, authorized, j)
    ensures FirstUsable(candidates, authorized, k) && candidates[k].reference == candidates[j].reference
    decreases j
  {
    if i :| 0 <= i < j && Usable(candidates, authorized, i) && candidates[i].reference == candidates[j].reference {
      k := FirstOf(candidates, authorized, i);
    } else {
      k := j;
    }
  }

  /** Prefiltering fails exactly when some candidate, usable or not, is incomplete; otherwise it keeps just the first
      usable candidate of each reference, in order. */
  lemma {:induction false} PrefiltersExactly(target: Target, candidates: seq<Candidate>, authorized: set<string>)
    ensures var r := FromAuthorized(target, candidates, authorized);
            && (r.Ok? <==> forall i :: 0 <= i < |candidates| ==>
                             candidates[i].schemaVersion > 0 && !Blank(candidates[i].reference)
                             && !Blank(candidates[i].evidenceKey))
            && (r.Ok? ==> r.value.target == target
                          && exists places :: KeptAt(r.value.candidates, candidates, authorized, places))
  {
    var places := KeptExactly(candidates, authorized);
  }

  // ----- the evidence recorded -----

  /** What is recorded of a candidate: one text for each piece of verified evidence on it, in order. */
  lemma {:induction false} RecordsExactly(e: Evidence, c: Candidate) returns (places: seq<nat>)
    ensures Places(VerifiedItems(e, c), e.items, places) && |VerifiedRefs(e, c)| == |places|
    ensures forall k :: k in VerifiedPlaces(e, c) <==> 0 <= k && k in places
    ensures forall i :: 0 <= i < |places| ==>
              var item := e.items[places[i]];
              VerifiedRefs(e, c)[i] == "capability-evidence:" + item.capability + ":" + item.outcome + ":"
                                       + item.reliability
  {
    var verified := (i: Item) => i.capability == c.evidenceKey && IsVerified(i);
    places := FilterPlaces(e.items, verified);
    FilterMembers(e.items, verified);
    VerifiedAreRight(e, c);
    forall k | 0 <= k && k in places ensures k in VerifiedPlaces(e, c) {
      var i :| 0 <= i < |places| && places[i] == k;
      assert VerifiedItems(e, c)[i] in VerifiedItems(e, c);
      WordsDecide(e.items[k]);
    }
    PlacesFill(places, VerifiedPlaces(e, c));
  }

  lemma {:induction false} PlacesFill(places: seq<nat>, all: set<int>)
    requires forall i, j :: 0 <= i < j < |places| ==> places[i] < places[j]
    requires forall k :: k in places ==> k in all
    requires |places| == |all|
    ensures forall k :: k in all ==> 0 <= k && k in places
  {
    var ints := Map(places, (n: nat) => n as int);
    MembersCount(ints);
    SubsetCount(Members(ints), all);
    forall k | k in all ensures 0 <= k && k in places {
      assert k in ints;
      var i :| 0 <= i < |ints| && ints[i] == k;
      assert places[i] == k;
    }
  }
}
