/** Retraction over the lineage graph: what a retracted object takes down with it, and what a replay
    of the event log rebuilds. */
module Retraction {
  import opened Common
  import opened Scopes
  import opened Sequences
  import opened Text

  type Lineage = map<string, set<string>>

  /** `Maintenance` carries a lineage edge as text; the other events carry object references. */
  datatype Event =
    | Maintenance(deltas: string)
    | Retracted(target: string)
    | Reevaluation(derived: seq<string>)
    | Other

  /** What a replay rebuilds. */
  datatype Projection = Projection(lineage: Lineage, retracted: set<string>, invalidated: set<string>)

  /** The live state: the projection, the active flag of each stable object, and the log. */
  datatype State = State(view: Projection, stable: map<string, bool>, log: seq<Event>)

  const EMPTY_VIEW := Projection(map[], {}, {})
  const EMPTY := State(EMPTY_VIEW, map[], [])

  // ----- the lineage graph -----

  function Children(lineage: Lineage, v: string): set<string> {
    if v in lineage then lineage[v] else {}
  }

  ghost predicate LineagePath(lineage: Lineage, p: seq<string>) {
    |p| >= 1 && forall i, j :: 0 <= i && j == i + 1 && j < |p| ==> p[j] in Children(lineage, p[i])
  }

  ghost predicate Reaches(lineage: Lineage, a: string, b: string) {
    exists p :: LineagePath(lineage, p) && p[0] == a && p[|p| - 1] == b
  }

  /** `derived` lists, once each, exactly the objects other than `source` that lineage edges lead to. */
  ghost predicate ListsDerived(lineage: Lineage, source: string, derived: seq<string>) {
    && Distinct(derived)
    && (forall x :: x in derived <==> x != source && Reaches(lineage, source, x))
  }

  lemma {:induction false} ReachesItself(lineage: Lineage, a: string)
    ensures Reaches(lineage, a, a)
  {
    assert LineagePath(lineage, [a]) && [a][0] == a;
  }

  lemma {:induction false} ReachesChild(lineage: Lineage, a: string, b: string, c: string)
    requires Reaches(lineage, a, b) && c in Children(lineage, b)
    ensures Reaches(lineage, a, c)
  {
    var p :| LineagePath(lineage, p) && p[0] == a && p[|p| - 1] == b;
    var q := p + [c];
    assert LineagePath(lineage, q) && q[0] == a && q[|q| - 1] == c;
  }

  /** A set that holds the start and is closed under children holds everything reachable. */
  lemma {:induction false} ClosedHoldsPath(lineage: Lineage, closed: set<string>, p: seq<string>)
    requires LineagePath(lineage, p) && p[0] in closed
    requires forall v :: v in closed ==> Children(lineage, v) <= closed
    ensures p[|p| - 1] in closed
  {
    if |p| > 1 {
      var front := p[..|p| - 1];
      assert LineagePath(lineage, front);
      ClosedHoldsPath(lineage, closed, front);
      assert p[|p| - 1] in Children(lineage, front[|front| - 1]);
    }
  }

  // ----- the worklist -----

  /** `visited` is the source and what is listed; whatever is visited but no longer queued has all its
      children visited. */
  ghost predicate Worklist(
      lineage: Lineage, source: string, queue: seq<string>, visited: set<string>, derived: seq<string>)
  {
    && visited == {source} + Members(derived) && source !in derived && Distinct(derived)
    && (forall v :: v in visited ==> Reaches(lineage, source, v))
    && (forall v :: v in queue ==> v in visited)
    && (forall v :: v in visited && v !in queue ==> Children(lineage, v) <= visited)
  }

  function Universe(lineage: Lineage, source: string): set<string> {
    {source} + set k, c | k in lineage && c in lineage[k] :: c
  }

  /** Visits the children of one dequeued object. */
  method VisitChildren(
      lineage: Lineage, source: string, current: string, queue: seq<string>, visited: set<string>, derived: seq<string>)
    returns (queue': seq<string>, visited': set<string>, derived': seq<string>)
    requires Worklist(lineage, source, [current] + queue, visited, derived)
    requires visited <= Universe(lineage, source)
    ensures Worklist(lineage, source, queue', visited', derived')
    ensures visited' <= Universe(lineage, source)
    ensures visited <= visited' && (visited' == visited ==> queue' == queue)
  {
    queue', visited', derived' := queue, visited, derived;
    assert current in [current] + queue;
    var todo := Children(lineage, current);
    while todo != {}
      invariant todo <= Children(lineage, current)
      invariant Children(lineage, current) - todo <= visited'
      invariant visited <= visited' <= Universe(lineage, source)
      invariant visited' == {source} + Members(derived') && source !in derived' && Distinct(derived')
      invariant forall v :: v in visited' ==> Reaches(lineage, source, v)
      invariant forall v :: v in queue' ==> v in visited'
      invariant forall v :: v in visited' && v !in queue' && v != current ==> Children(lineage, v) <= visited'
      invariant visited' == visited ==> queue' == queue
    {
      var child :| child in todo;
      todo := todo - {child};
      if child !in visited' {
        ReachesChild(lineage, source, current, child);
        MembersSnoc(derived', child);
        visited' := visited' + {child};
        derived' := derived' + [child];
        queue' := queue' + [child];
      }
    }
  }

  lemma {:induction false} StartsWorklist(lineage: Lineage, source: string)
    ensures Worklist(lineage, source, [source], {source}, [])
  {
    ReachesItself(lineage, source);
  }

  lemma {:induction false} DrainedListsDerived(
      lineage: Lineage, source: string, visited: set<string>, derived: seq<string>)
    requires Worklist(lineage, source, [], visited, derived)
    ensures ListsDerived(lineage, source, derived)
  {
    forall x | Reaches(lineage, source, x) ensures x in visited {
      var p :| LineagePath(lineage, p) && p[0] == source && p[|p| - 1] == x;
      ClosedHoldsPath(lineage, visited, p);
    }
  }

  lemma {:induction false} MoreVisitedLessLeft(universe: set<string>, before: set<string>, after: set<string>)
    requires before <= after <= universe && after != before
    ensures |universe - after| < |universe - before|
  {
    SubsetCount(universe - after, universe - before);
    var x :| x in after && x !in before;
    assert x in universe - before && x !in universe - after;
  }

  /** The worklist loop returns, without duplicates, exactly the objects reachable from the source. */
  method TransitiveDerived(lineage: Lineage, source: string) returns (derived: seq<string>)
    ensures ListsDerived(lineage, source, derived)
  {
    var queue, visited := [source], {source};
    derived := [];
    StartsWorklist(lineage, source);
    ghost var universe := Universe(lineage, source);
    while |queue| > 0
      invariant Worklist(lineage, source, queue, visited, derived)
      invariant visited <= universe
      decreases |universe - visited|, |queue|
    {
      ghost var before := visited;
      assert [queue[0]] + queue[1..] == queue;
      queue, visited, derived := VisitChildren(lineage, source, queue[0], queue[1..], visited, derived);
      if visited != before { MoreVisitedLessLeft(universe, before, visited); }
    }
    assert queue == [];
    DrainedListsDerived(lineage, source, visited, derived);
  }

  // ----- the log -----

  const LINEAGE_PREFIX := "cognition-lineage"

  /** A lineage edge as the log carries it. */
  function EncodeEdge(source: string, derived: string): string {
    Join([LINEAGE_PREFIX, EscapeTo(source, 2), EscapeTo(derived, 2)], '|')
  }

  /** The text before and after the first separator. */
  function SplitOnce(s: string, c: char): Option<(string, string)> {
    if |s| == 0 then None
    else if s[0] == c then Some(("", s[1..]))
    else match SplitOnce(s[1..], c)
      case None => None
      case Some(parts) => Some(([s[0]] + parts.0, parts.1))
  }

  function ParseEdge(text: string): Option<(string, string)> {
    if !StartsWith(text, LINEAGE_PREFIX + "|") then None
    else match SplitOnce(text[|LINEAGE_PREFIX| + 1..], '|')
      case None => None
      case Some(parts) => Some((UnescapeFrom(parts.0, 2), UnescapeFrom(parts.1, 2)))
  }

  lemma {:induction false} SplitOnceAtFirst(a: string, b: string, c: char)
    requires c !in a
    ensures SplitOnce(a + [c] + b, c) == Some((a, b))
  {
    var s := a + [c] + b;
    if |a| == 0 {
      assert s[1..] == b;
    } else {
      assert s[1..] == a[1..] + [c] + b;
      SplitOnceAtFirst(a[1..], b, c);
      assert [a[0]] + a[1..] == a;
    }
  }

  /** The edge read from the log is the edge written, whatever the object names hold. */
  lemma {:induction false} EdgeReadsBack(source: string, derived: string)
    ensures ParseEdge(EncodeEdge(source, derived)) == Some((source, derived))
  {
    var a, b := EscapeTo(source, 2), EscapeTo(derived, 2);
    EscapedHasNoSeparator(source, 2, 1);
    UnescapeUndoesEscape(source, 2);
    UnescapeUndoesEscape(derived, 2);
    SplitOnceAtFirst(a, b, '|');
    var text := EncodeEdge(source, derived);
    assert [LINEAGE_PREFIX, a, b][1..] == [a, b] && [a, b][1..] == [b];
    assert Join([b], '|') == b;
    assert Join([a, b], '|') == a + ['|'] + b;
    assert text == LINEAGE_PREFIX + ['|'] + (a + ['|'] + b);
    assert LINEAGE_PREFIX + "|" == LINEAGE_PREFIX + ['|'];
    assert text[..|LINEAGE_PREFIX| + 1] == LINEAGE_PREFIX + "|" && text[|LINEAGE_PREFIX| + 1..] == a + ['|'] + b;
  }

  function AddEdge(lineage: Lineage, source: string, derived: string): Lineage {
    lineage[source := Children(lineage, source) + {derived}]
  }

  function FoldEvent(view: Projection, event: Event): Projection {
    match event
    case Maintenance(deltas) =>
      (match ParseEdge(deltas)
       case None => view
       case Some(edge) => view.(lineage := AddEdge(view.lineage, edge.0, edge.1)))
    case Retracted(target) => view.(retracted := view.retracted + {target})
    case Reevaluation(derived) => view.(invalidated := view.invalidated + Members(derived))
    case Other => view
  }

  function Replay(log: seq<Event>): Projection {
    if |log| == 0 then EMPTY_VIEW else FoldEvent(Replay(log[..|log| - 1]), log[|log| - 1])
  }

  lemma {:induction false} ReplaySnoc(log: seq<Event>, event: Event)
    ensures Replay(log + [event]) == FoldEvent(Replay(log), event)
  {
    assert (log + [event])[..|log|] == log;
  }

  // ----- operations on the live state -----

  function Deactivate(stable: map<string, bool>, objects: set<string>): map<string, bool> {
    map x | x in stable :: stable[x] && x !in objects
  }

  /** Each flag says whether the event store accepted the corresponding append. */
  datatype Op =
    | RecordLineage(source: string, dependent: string, appended: bool)
    | OnRetraction(target: string, derived: seq<string>, appended: bool, taskAppended: bool)
    | Audit(subject: string, appended: bool, taskAppended: bool, candidateCreated: bool)
    | Promote(subject: string)
    | Downgrade(subject: string)

  function Step(s: State, op: Op): State {
    match op
    case RecordLineage(source, derived, appended) =>
      if Blank(source) || Blank(derived) || source == derived || !appended then s
      else State(s.view.(lineage := AddEdge(s.view.lineage, source, derived)), s.stable,
                 s.log + [Maintenance(EncodeEdge(source, derived))])
    case OnRetraction(target, derived, appended, taskAppended) =>
      if Blank(target) || !appended then s
      else State(s.view.(retracted := s.view.retracted + {target},
                         invalidated := s.view.invalidated + Members(derived)),
                 Deactivate(s.stable, {target} + Members(derived)),
                 s.log + [Retracted(target)] + if taskAppended then [Reevaluation(derived)] else [])
    case Audit(subject, appended, taskAppended, candidateCreated) =>
      if subject !in s.stable || !s.stable[subject] || !appended then s
      else if !taskAppended then s.(log := s.log + [Other])
      else if !candidateCreated then s.(log := s.log + [Other] + [Reevaluation([subject])])
      else State(s.view.(invalidated := s.view.invalidated + {subject}), s.stable[subject := false],
                 s.log + [Other] + [Reevaluation([subject])])
    case Promote(subject) => if Blank(subject) then s else s.(stable := s.stable[subject := true])
    case Downgrade(subject) =>
      if Blank(subject) || subject !in s.stable then s else s.(stable := s.stable[subject := false])
  }

  /** A retraction lists what its target derives, as the worklist finds it. */
  ghost predicate Listed(s: State, op: Op) {
    op.OnRetraction? ==> ListsDerived(s.view.lineage, op.target, op.derived)
  }

  function Run(s: State, ops: seq<Op>): State
    decreases |ops|
  {
    if |ops| == 0 then s else Run(Step(s, ops[0]), ops[1..])
  }

  /** Nobody may use a retracted, invalidated or inactive object. */
  predicate Usable(s: State, subject: string) {
    subject !in s.view.retracted && subject !in s.view.invalidated && (subject in s.stable ==> s.stable[subject])
  }

  // ----- the main results -----

  lemma {:induction false} ExclusionsOnlyGrow(s: State, ops: seq<Op>)
    ensures s.view.retracted <= Run(s, ops).view.retracted
    ensures s.view.invalidated <= Run(s, ops).view.invalidated
    decreases |ops|
  {
    if |ops| > 0 { ExclusionsOnlyGrow(Step(s, ops[0]), ops[1..]); }
  }

  /** A recorded retraction makes its target and everything derived from it, through any number of
      edges and around any cycles, unusable, and nothing that happens later makes them usable again. */
  lemma {:induction false} RetractionClosesOverLineage(s: State, op: Op, later: seq<Op>, subject: string)
    requires op.OnRetraction? && Listed(s, op) && !Blank(op.target) && op.appended
    requires Reaches(s.view.lineage, op.target, subject)
    ensures !Usable(Step(s, op), subject) && !Usable(Run(Step(s, op), later), subject)
  {
    var t := Step(s, op);
    assert subject == op.target || subject in op.derived;
    ExclusionsOnlyGrow(t, later);
  }

  /** A retraction excludes nothing else. */
  lemma {:induction false} RetractionExcludesNothingElse(s: State, op: Op, subject: string)
    requires op.OnRetraction? && Listed(s, op)
    requires !Reaches(s.view.lineage, op.target, subject)
    ensures Usable(Step(s, op), subject) <==> Usable(s, subject)
  {
    ReachesItself(s.view.lineage, op.target);
  }

  /** Retracted or invalidated. */
  predicate Excluded(s: State, subject: string) { subject in s.view.retracted || subject in s.view.invalidated }

  /** Excluded objects are those that nothing makes usable again: an inactive object that is not excluded comes
      back with its next promotion. */
  lemma {:induction false} ExcludedExactly(s: State, subject: string)
    requires !Blank(subject)
    ensures Excluded(s, subject) <==> forall later :: !Usable(Run(s, later), subject)
  {
    if Excluded(s, subject) {
      forall later ensures !Usable(Run(s, later), subject) { ExclusionsOnlyGrow(s, later); }
    } else {
      assert Run(s, [Promote(subject)]) == Run(Step(s, Promote(subject)), []);
      assert Usable(Run(s, [Promote(subject)]), subject);
    }
  }

  // ----- lineage recorded after a retraction -----

  /** Everything that a retracted object leads to is excluded. */
  ghost predicate Closed(s: State) {
    forall r, x :: r in s.view.retracted && Reaches(s.view.lineage, r, x) ==> Excluded(s, x)
  }

  /** The call records an edge that ties something not excluded to a retracted object. */
  ghost predicate LeadsOut(s: State, op: Op) {
    && op.RecordLineage? && !Blank(op.source) && !Blank(op.dependent) && op.source != op.dependent && op.appended
    && exists r, x :: r in s.view.retracted && Reaches(s.view.lineage, r, op.source)
                      && Reaches(s.view.lineage, op.dependent, x) && !Excluded(s, x)
  }

  lemma {:induction false} PathGoesOn(lineage: Lineage, a: string, p: seq<string>)
    requires LineagePath(lineage, p) && Reaches(lineage, a, p[0])
    ensures Reaches(lineage, a, p[|p| - 1])
  {
    if |p| > 1 {
      var front := p[..|p| - 1];
      assert LineagePath(lineage, front);
      PathGoesOn(lineage, a, front);
      assert p[|p| - 1] in Children(lineage, front[|front| - 1]);
      ReachesChild(lineage, a, front[|front| - 1], p[|p| - 1]);
    }
  }

  lemma {:induction false} ReachesThrough(lineage: Lineage, a: string, b: string, c: string)
    requires Reaches(lineage, a, b) && Reaches(lineage, b, c)
    ensures Reaches(lineage, a, c)
  {
    var p :| LineagePath(lineage, p) && p[0] == b && p[|p| - 1] == c;
    PathGoesOn(lineage, a, p);
  }

  lemma {:induction false} MoreEdgesReachMore(lineage: Lineage, u: string, w: string, a: string, b: string)
    requires Reaches(lineage, a, b)
    ensures Reaches(AddEdge(lineage, u, w), a, b)
  {
    var p :| LineagePath(lineage, p) && p[0] == a && p[|p| - 1] == b;
    assert LineagePath(AddEdge(lineage, u, w), p);
  }

  /** A path over one more edge either does without it, or reaches its source before and its target after. */
  lemma {:induction false} NewEdgeSplits(lineage: Lineage, u: string, w: string, p: seq<string>)
    requires LineagePath(AddEdge(lineage, u, w), p)
    ensures Reaches(lineage, p[0], p[|p| - 1]) || (Reaches(lineage, p[0], u) && Reaches(lineage, w, p[|p| - 1]))
  {
    if |p| == 1 {
      ReachesItself(lineage, p[0]);
    } else {
      var front, y, x := p[..|p| - 1], p[|p| - 2], p[|p| - 1];
      assert LineagePath(AddEdge(lineage, u, w), front) && front[|front| - 1] == y;
      NewEdgeSplits(lineage, u, w, front);
      assert x in Children(AddEdge(lineage, u, w), y);
      if x in Children(lineage, y) {
        if Reaches(lineage, p[0], y) { ReachesChild(lineage, p[0], y, x); } else { ReachesChild(lineage, w, y, x); }
      } else {
        assert y == u && x == w;
        ReachesItself(lineage, w);
      }
    }
  }

  lemma {:induction false} NewEdgeExactly(lineage: Lineage, u: string, w: string, a: string, b: string)
    ensures Reaches(AddEdge(lineage, u, w), a, b) <==>
            Reaches(lineage, a, b) || (Reaches(lineage, a, u) && Reaches(lineage, w, b))
  {
    var more := AddEdge(lineage, u, w);
    if Reaches(more, a, b) {
      var p :| LineagePath(more, p) && p[0] == a && p[|p| - 1] == b;
      NewEdgeSplits(lineage, u, w, p);
    }
    if Reaches(lineage, a, b) { MoreEdgesReachMore(lineage, u, w, a, b); }
    if Reaches(lineage, a, u) && Reaches(lineage, w, b) {
      MoreEdgesReachMore(lineage, u, w, a, u);
      MoreEdgesReachMore(lineage, u, w, w, b);
      ReachesChild(more, a, u, w);
      ReachesThrough(more, a, w, b);
    }
  }

  lemma {:induction false} EdgeStaysClosedExactly(s: State, op: Op)
    requires op.RecordLineage? && Closed(s)
    ensures Closed(Step(s, op)) <==> !LeadsOut(s, op)
  {
    var t := Step(s, op);
    if t != s {
      forall a, b
        ensures Reaches(t.view.lineage, a, b) <==>
                Reaches(s.view.lineage, a, b)
                  || (Reaches(s.view.lineage, a, op.source) && Reaches(s.view.lineage, op.dependent, b))
      {
        NewEdgeExactly(s.view.lineage, op.source, op.dependent, a, b);
      }
      assert forall x :: Excluded(t, x) <==> Excluded(s, x);
    } else if LeadsOut(s, op) {
      SameEdgeLeadsNowhere(s, op);
    }
  }

  /** Recording an edge always changes the log. */
  lemma {:induction false} SameEdgeLeadsNowhere(s: State, op: Op)
    requires LeadsOut(s, op)
    ensures Step(s, op) != s
  {
    assert |Step(s, op).log| == |s.log| + 1;
  }

  lemma {:induction false} OthersStayClosed(s: State, op: Op)
    requires !op.RecordLineage? && Listed(s, op) && Closed(s)
    ensures Closed(Step(s, op))
  {
    var t := Step(s, op);
    assert t.view.lineage == s.view.lineage;
    assert forall x :: Excluded(s, x) ==> Excluded(t, x);
    forall r, x | r in t.view.retracted && Reaches(t.view.lineage, r, x) ensures Excluded(t, x) {
      if r !in s.view.retracted { assert x == op.target || x in op.derived; }
    }
  }

  /** A call keeps everything below retracted objects excluded exactly when it records no edge that leads out. */
  lemma {:induction false} StepStaysClosedExactly(s: State, op: Op)
    requires Listed(s, op) && Closed(s)
    ensures Closed(Step(s, op)) <==> !LeadsOut(s, op)
  {
    if op.RecordLineage? { EdgeStaysClosedExactly(s, op); } else { OthersStayClosed(s, op); }
  }

  /** The state before operation `k`, and after the last. */
  function At(s: State, ops: seq<Op>, k: nat): State
    requires k <= |ops|
  {
    Run(s, ops[..k])
  }

  lemma {:induction false} RunSnoc(s: State, ops: seq<Op>, op: Op)
    ensures Run(s, ops + [op]) == Step(Run(s, ops), op)
    decreases |ops|
  {
    if |ops| > 0 {
      assert (ops + [op])[0] == ops[0] && (ops + [op])[1..] == ops[1..] + [op];
      RunSnoc(Step(s, ops[0]), ops[1..], op);
    } else {
      assert [] + [op] == [op] && [op][1..] == [];
      assert Run(s, [op]) == Run(Step(s, op), []);
    }
  }

  lemma {:induction false} AtNext(s: State, ops: seq<Op>, k: nat)
    requires k < |ops|
    ensures At(s, ops, k + 1) == Step(At(s, ops, k), ops[k])
  {
    assert ops[..k + 1] == ops[..k] + [ops[k]];
    RunSnoc(s, ops[..k], ops[k]);
  }

  ghost predicate AllListed(s: State, ops: seq<Op>) {
    forall k :: 0 <= k < |ops| ==> Listed(At(s, ops, k), ops[k])
  }

  lemma {:induction false} StaysClosedAt(s: State, ops: seq<Op>, k: nat)
    requires k < |ops| && AllListed(s, ops)
    ensures Closed(At(s, ops, k)) ==> (Closed(At(s, ops, k + 1)) <==> !LeadsOut(At(s, ops, k), ops[k]))
  {
    AtNext(s, ops, k);
    assert Listed(At(s, ops, k), ops[k]);
    if Closed(At(s, ops, k)) { StepStaysClosedExactly(At(s, ops, k), ops[k]); }
  }

  lemma {:induction false} StaysClosedUpTo(s: State, ops: seq<Op>, n: nat)
    requires n <= |ops| && Closed(s) && AllListed(s, ops)
    ensures (forall k :: 0 <= k <= n ==> Closed(At(s, ops, k))) <==>
            forall k :: 0 <= k < n ==> !LeadsOut(At(s, ops, k), ops[k])
    decreases n
  {
    if n == 0 {
      assert ops[..0] == [];
    } else {
      StaysClosedUpTo(s, ops, n - 1);
      StaysClosedAt(s, ops, n - 1);
    }
  }

  /** Throughout a run, everything that retracted objects lead to is excluded exactly when no edge is recorded
      from below a retracted object to something not excluded. */
  lemma {:induction false} RetractionStaysClosedExactly(s: State, ops: seq<Op>)
    requires Closed(s) && AllListed(s, ops)
    ensures (forall k :: 0 <= k <= |ops| ==> Closed(At(s, ops, k))) <==>
            forall k :: 0 <= k < |ops| ==> !LeadsOut(At(s, ops, k), ops[k])
  {
    StaysClosedUpTo(s, ops, |ops|);
  }

  /** An edge recorded after the retraction of its source leaves its target usable. */
  lemma {:induction false} LateEdgeLeavesTargetUsable()
    ensures var s := Step(EMPTY, OnRetraction("a", [], true, true));
            var t := Step(s, RecordLineage("a", "b", true));
            Listed(EMPTY, OnRetraction("a", [], true, true)) && Reaches(t.view.lineage, "a", "b")
            && "a" in t.view.retracted && Usable(t, "b")
  {
    var s := Step(EMPTY, OnRetraction("a", [], true, true));
    assert !Blank("a") && !Blank("b") by { assert "a"[0] == 'a' && "b"[0] == 'b'; }
    var t := Step(s, RecordLineage("a", "b", true));
    NothingDerived("a");
    ReachesItself(t.view.lineage, "a");
    ReachesChild(t.view.lineage, "a", "a", "b");
  }

  /** Being inactive is not enough: `b` is downgraded when the edge from the retracted `a` is recorded, so that
      nothing below `a` is usable, and its next promotion brings it back. */
  lemma {:induction false} DowngradedTargetComesBack()
    ensures var s := Step(Step(EMPTY, Promote("b")), OnRetraction("a", [], true, true));
            var t := Step(Step(s, Downgrade("b")), RecordLineage("a", "b", true));
            Listed(Step(EMPTY, Promote("b")), OnRetraction("a", [], true, true)) && "a" in t.view.retracted
            && Reaches(t.view.lineage, "a", "b") && !Usable(t, "b") && Usable(Step(t, Promote("b")), "b")
  {
    assert !Blank("a") && !Blank("b") by { assert "a"[0] == 'a' && "b"[0] == 'b'; }
    var s := Step(Step(EMPTY, Promote("b")), OnRetraction("a", [], true, true));
    assert "b" in s.stable && "b" !in s.view.retracted && s.view.invalidated == {};
    var t := Step(Step(s, Downgrade("b")), RecordLineage("a", "b", true));
    NothingDerived("a");
    ReachesItself(t.view.lineage, "a");
    ReachesChild(t.view.lineage, "a", "a", "b");
  }

  lemma {:induction false} NothingDerived(source: string)
    ensures ListsDerived(map[], source, [])
  {
    forall p | LineagePath(map[], p) && p[0] == source ensures p[|p| - 1] == source {
      ClosedHoldsPath(map[], {source}, p);
    }
    ReachesItself(map[], source);
  }

  // ----- the log against the live state -----

  /** The log rebuilds the live projection. */
  predicate InSync(s: State) { Replay(s.log) == s.view }

  /** What must go right for a call to leave log and live state in step. */
  predicate AppendsMatch(s: State, op: Op) {
    match op
    case RecordLineage(_, _, _) => true
    case OnRetraction(target, derived, appended, taskAppended) =>
      Blank(target) || !appended || taskAppended || Members(derived) <= s.view.invalidated
    case Audit(subject, appended, taskAppended, candidateCreated) =>
      subject !in s.stable || !s.stable[subject] || !appended || !taskAppended || candidateCreated
        || subject in s.view.invalidated
    case Promote(_) => true
    case Downgrade(_) => true
  }

  /** A call keeps log and live state in step exactly when its follow-up appends went through, or had
      nothing new to record. */
  lemma {:induction false} StepStaysInSyncExactly(s: State, op: Op)
    requires InSync(s)
    ensures InSync(Step(s, op)) <==> AppendsMatch(s, op)
  {
    match op
    case RecordLineage(source, derived, _) =>
      EdgeReadsBack(source, derived);
      ReplaySnoc(s.log, Maintenance(EncodeEdge(source, derived)));
    case OnRetraction(_, _, _, _) => RetractionStaysInSyncExactly(s, op);
    case Audit(_, _, _, _) => AuditStaysInSyncExactly(s, op);
    case Promote(_) =>
    case Downgrade(_) =>
  }

  lemma {:induction false} RetractionStaysInSyncExactly(s: State, op: Op)
    requires InSync(s) && op.OnRetraction?
    ensures InSync(Step(s, op)) <==> AppendsMatch(s, op)
  {
    ReplaySnoc(s.log, Retracted(op.target));
    ReplaySnoc(s.log + [Retracted(op.target)], Reevaluation(op.derived));
    assert s.log + [Retracted(op.target)] + [] == s.log + [Retracted(op.target)];
  }

  lemma {:induction false} AuditStaysInSyncExactly(s: State, op: Op)
    requires InSync(s) && op.Audit?
    ensures InSync(Step(s, op)) <==> AppendsMatch(s, op)
  {
    ReplaySnoc(s.log, Other);
    ReplaySnoc(s.log + [Other], Reevaluation([op.subject]));
    assert Members([op.subject]) == {op.subject};
  }

  lemma {:induction false} InSyncUpTo(s: State, ops: seq<Op>, n: nat)
    requires n <= |ops| && InSync(s)
    ensures (forall k :: 0 <= k <= n ==> InSync(At(s, ops, k))) <==>
            forall k :: 0 <= k < n ==> AppendsMatch(At(s, ops, k), ops[k])
    decreases n
  {
    if n == 0 {
      assert ops[..0] == [];
    } else {
      InSyncUpTo(s, ops, n - 1);
      AtNext(s, ops, n - 1);
      if InSync(At(s, ops, n - 1)) { StepStaysInSyncExactly(At(s, ops, n - 1), ops[n - 1]); }
    }
  }

  /** Log and live state stay in step throughout a run exactly when every follow-up append of the run went
      through, or had nothing new to record. */
  lemma {:induction false} RunStaysInSyncExactly(s: State, ops: seq<Op>)
    requires InSync(s)
    ensures (forall k :: 0 <= k <= |ops| ==> InSync(At(s, ops, k))) <==>
            forall k :: 0 <= k < |ops| ==> AppendsMatch(At(s, ops, k), ops[k])
  {
    InSyncUpTo(s, ops, |ops|);
  }

  predicate AllAppended(op: Op) {
    match op
    case RecordLineage(_, _, appended) => appended
    case OnRetraction(_, _, appended, taskAppended) => appended && taskAppended
    case Audit(_, appended, taskAppended, candidateCreated) => appended && taskAppended && candidateCreated
    case Promote(_) => true
    case Downgrade(_) => true
  }

  lemma {:induction false} RunStaysInSync(s: State, ops: seq<Op>)
    requires InSync(s) && forall i :: 0 <= i < |ops| ==> AllAppended(ops[i])
    ensures InSync(Run(s, ops))
    decreases |ops|
  {
    if |ops| > 0 {
      StepStaysInSyncExactly(s, ops[0]);
      RunStaysInSync(Step(s, ops[0]), ops[1..]);
    }
  }

  /** When every append succeeds, folding the whole log rebuilds the same lineage, retracted and
      invalidated sets as the live state. */
  lemma {:induction false} ReplayRebuildsLiveState(ops: seq<Op>)
    requires forall i :: 0 <= i < |ops| ==> AllAppended(ops[i])
    ensures Replay(Run(EMPTY, ops).log) == Run(EMPTY, ops).view
  {
    RunStaysInSync(EMPTY, ops);
  }

  lemma {:induction false} ReplayNeverForgetsFrom(s: State, ops: seq<Op>)
    requires Replay(s.log).lineage == s.view.lineage && Replay(s.log).retracted == s.view.retracted
    ensures Replay(Run(s, ops).log).lineage == Run(s, ops).view.lineage
    ensures Replay(Run(s, ops).log).retracted == Run(s, ops).view.retracted
    decreases |ops|
  {
    if |ops| > 0 {
      StepKeepsLineageAndRetractions(s, ops[0]);
      ReplayNeverForgetsFrom(Step(s, ops[0]), ops[1..]);
    }
  }

  lemma {:induction false} StepKeepsLineageAndRetractions(s: State, op: Op)
    requires Replay(s.log).lineage == s.view.lineage && Replay(s.log).retracted == s.view.retracted
    ensures var t := Step(s, op);
            Replay(t.log).lineage == t.view.lineage && Replay(t.log).retracted == t.view.retracted
  {
    match op
    case RecordLineage(source, derived, _) =>
      EdgeReadsBack(source, derived);
      ReplaySnoc(s.log, Maintenance(EncodeEdge(source, derived)));
    case OnRetraction(target, derived, _, _) => RetractionKeepsRetractions(s, op);
    case Audit(subject, _, _, _) =>
      ReplaySnoc(s.log, Other);
      ReplaySnoc(s.log + [Other], Reevaluation([subject]));
    case Promote(_) =>
    case Downgrade(_) =>
  }

  lemma {:induction false} RetractionKeepsRetractions(s: State, op: Op)
    requires op.OnRetraction?
    requires Replay(s.log).lineage == s.view.lineage && Replay(s.log).retracted == s.view.retracted
    ensures var t := Step(s, op);
            Replay(t.log).lineage == t.view.lineage && Replay(t.log).retracted == t.view.retracted
  {
    ReplaySnoc(s.log, Retracted(op.target));
    ReplaySnoc(s.log + [Retracted(op.target)], Reevaluation(op.derived));
    assert s.log + [Retracted(op.target)] + [] == s.log + [Retracted(op.target)];
  }

  /** Even when appends fail, a replay always rebuilds the live lineage and the live retractions. */
  lemma {:induction false} ReplayNeverLosesRetractions(ops: seq<Op>)
    ensures Replay(Run(EMPTY, ops).log).lineage == Run(EMPTY, ops).view.lineage
    ensures Replay(Run(EMPTY, ops).log).retracted == Run(EMPTY, ops).view.retracted
  {
    ReplayNeverForgetsFrom(EMPTY, ops);
  }

  /** A failed follow-up append leaves the live state excluding what a replay would admit again. */
  lemma {:induction false} FailedTaskAppendIsForgotten()
    ensures var s := Step(EMPTY, RecordLineage("a", "b", true));
            var t := Step(s, OnRetraction("a", ["b"], true, false));
            Listed(s, OnRetraction("a", ["b"], true, false)) && "b" in t.view.invalidated
              && "b" !in Replay(t.log).invalidated
  {
    var edge := Maintenance(EncodeEdge("a", "b"));
    assert !Blank("a") && !Blank("b") by { assert "a"[0] == 'a' && "b"[0] == 'b'; }
    var s := Step(EMPTY, RecordLineage("a", "b", true));
    assert s.log == [edge] by { assert [] + [edge] == [edge]; }
    assert s.view.lineage == AddEdge(map[], "a", "b") == map["a" := {"b"}] by { assert {} + {"b"} == {"b"}; }
    OneDerived("a", "b");
    var t := Step(s, OnRetraction("a", ["b"], true, false));
    assert t.log == [edge] + [Retracted("a")];
    ReplayOfTwo(edge, Retracted("a"));
    assert "b" in Members(["b"]);
  }

  lemma {:induction false} OneDerived(source: string, derived: string)
    requires source != derived
    ensures ListsDerived(map[source := {derived}], source, [derived])
  {
    var lineage: Lineage := map[source := {derived}];
    forall p | LineagePath(lineage, p) && p[0] == source ensures p[|p| - 1] in {source, derived} {
      ClosedHoldsPath(lineage, {source, derived}, p);
    }
    ReachesItself(lineage, source);
    ReachesChild(lineage, source, source, derived);
  }

  /** Neither a lineage edge nor a retraction invalidates anything in a replay. */
  lemma {:induction false} ReplayOfTwo(first: Event, second: Event)
    requires first.Maintenance? && second.Retracted?
    ensures Replay([first] + [second]).invalidated == {}
  {
    ReplaySnoc([], first);
    assert [] + [first] == [first];
    ReplaySnoc([first], second);
  }

  // ----- the live object -----

  class CognitiveRuntime {
    var lineage: Lineage
    var retracted: set<string>
    var invalidated: set<string>
    var stable: map<string, bool>
    var log: seq<Event>

    function Current(): State
      reads this
    {
      State(Projection(lineage, retracted, invalidated), stable, log)
    }

    /** Opening a runtime folds the stored log. */
    constructor (stored: seq<Event>)
      ensures Current() == State(Replay(stored), map[], stored)
    {
      lineage, retracted, invalidated, stable, log := map[], {}, {}, map[], stored;
      new;
      for i := 0 to |stored|
        invariant Current() == State(Replay(stored[..i]), map[], stored)
      {
        assert stored[..i + 1] == stored[..i] + [stored[i]];
        ReplaySnoc(stored[..i], stored[i]);
        match stored[i]
        case Maintenance(deltas) =>
          var edge := ParseEdge(deltas);
          if edge.Some? { lineage := AddEdge(lineage, edge.value.0, edge.value.1); }
        case Retracted(target) => retracted := retracted + {target};
        case Reevaluation(derived) => invalidated := invalidated + Members(derived);
        case Other =>
      }
      assert stored[..|stored|] == stored;
    }

    method RecordLineage(source: string, derived: string, appended: bool) returns (ok: bool)
      modifies this
      ensures Current() == Step(old(Current()), Op.RecordLineage(source, derived, appended))
      ensures ok <==> !Blank(source) && !Blank(derived) && source != derived && appended
    {
      if Blank(source) || Blank(derived) || source == derived || !appended { return false; }
      log := log + [Maintenance(EncodeEdge(source, derived))];
      lineage := AddEdge(lineage, source, derived);
      return true;
    }

    /** Returns what is to be re-evaluated: nothing when the retraction could not be recorded. */
    method OnRetraction(target: string, appended: bool, taskAppended: bool) returns (derived: seq<string>)
      modifies this
      ensures ListsDerived(old(lineage), target, derived)
      ensures Current() == Step(old(Current()), Op.OnRetraction(target, derived, appended, taskAppended))
    {
      derived := TransitiveDerived(lineage, target);
      if Blank(target) || !appended { return; }
      log := log + [Retracted(target)];
      retracted := retracted + {target};
      if target in stable { stable := stable[target := false]; }
      InvalidateAll(derived);
      if taskAppended { log := log + [Reevaluation(derived)]; }
      assert stable == Deactivate(old(stable), {target} + Members(derived));
    }

    method InvalidateAll(derived: seq<string>)
      modifies this`invalidated, this`stable
      ensures invalidated == old(invalidated) + Members(derived)
      ensures stable == Deactivate(old(stable), Members(derived))
    {
      assert Deactivate(stable, {}) == stable;
      for i := 0 to |derived|
        invariant invalidated == old(invalidated) + Members(derived[..i])
        invariant stable == Deactivate(old(stable), Members(derived[..i]))
      {
        assert derived[..i + 1] == derived[..i] + [derived[i]];
        MembersSnoc(derived[..i], derived[i]);
        invalidated := invalidated + {derived[i]};
        if derived[i] in stable { stable := stable[derived[i] := false]; }
      }
      assert derived[..|derived|] == derived;
    }

    /** A promotion that was granted; a blank object is never granted one. */
    method Promote(subject: string)
      modifies this`stable
      ensures Current() == Step(old(Current()), Op.Promote(subject))
    {
      if !Blank(subject) { stable := stable[subject := true]; }
    }

    /** A correction by the owner deactivates a stable object and excludes nothing. */
    method Downgrade(subject: string)
      modifies this`stable
      ensures Current() == Step(old(Current()), Op.Downgrade(subject))
    {
      if !Blank(subject) && subject in stable { stable := stable[subject := false]; }
    }

    method IsUsable(subject: string) returns (usable: bool)
      ensures usable <==> Usable(Current(), subject)
    {
      usable := subject !in retracted && subject !in invalidated && (subject in stable ==> stable[subject]);
    }
  }
}
