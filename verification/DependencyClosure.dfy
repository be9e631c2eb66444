/** Verifying a package's dependency closure: a depth-limited depth-first search with a memo. */
module DependencyClosure {
  import opened Common
  import opened Orders
  import opened Sequences

  datatype Dependency = Dependency(package: string, release: string, version: nat, digest: string)

  /** `wellFormed` is the verdict of the admission's own validation. */
  datatype Admission = Admission(
    package: string,
    release: string,
    digest: string,
    wellFormed: bool,
    dependencies: seq<Dependency>)

  type Graph = map<string, Admission>

  datatype ClosureError =
    | TooManyDependencies
    | DuplicateAdmission
    | NotAdmitted
    | InvalidAdmission
    | BindingMismatch
    | UndeclaredAdmission
    | CyclicOrTooDeep
    | Incomplete

  // ----- the graph -----

  predicate Bound(g: Graph, d: Dependency) {
    d.release in g && g[d.release].package == d.package && g[d.release].digest == d.digest
  }

  /** `v` is admitted and so is everything it declares, under the declared package and digest. */
  ghost predicate LocallySound(g: Graph, v: string) {
    v in g && forall i :: 0 <= i < |g[v].dependencies| ==> Bound(g, g[v].dependencies[i])
  }

  ghost predicate Depends(g: Graph, v: string, w: string) {
    v in g && exists i :: 0 <= i < |g[v].dependencies| && g[v].dependencies[i].release == w
  }

  ghost predicate IsChain(g: Graph, p: seq<string>) {
    forall i, j :: 0 <= i && j == i + 1 && j < |p| ==> Depends(g, p[i], p[j])
  }

  /** A dependency path that starts at a declared dependency. */
  ghost predicate PathFrom(g: Graph, declared: set<string>, p: seq<string>) {
    |p| >= 1 && p[0] in declared && IsChain(g, p)
  }

  /** Everything reachable is admitted as bound, is not the root, and never lies on a cycle. */
  ghost predicate Structural(g: Graph, declared: set<string>, root: string) {
    forall p :: PathFrom(g, declared, p) ==> GoodEnd(g, root, p)
  }

  ghost predicate GoodEnd(g: Graph, root: string, p: seq<string>)
    requires |p| >= 1
  {
    var last := p[|p| - 1];
    last != root && LocallySound(g, last) && last !in p[..|p| - 1]
  }

  ghost predicate EveryPathFits(g: Graph, declared: set<string>, limit: nat) {
    forall p :: PathFrom(g, declared, p) ==> |p| <= limit
  }

  /** Each vertex at the end of some path is at the end of a path that fits the limit. */
  ghost predicate ReachedWithin(g: Graph, declared: set<string>, limit: nat) {
    forall p :: PathFrom(g, declared, p) ==> HasShortPath(g, declared, limit, p[|p| - 1])
  }

  ghost predicate HasShortPath(g: Graph, declared: set<string>, limit: nat, v: string) {
    exists q :: PathFrom(g, declared, q) && q[|q| - 1] == v && |q| <= limit
  }

  // ----- the search -----

  function Deeper(depth: u32): u32 { if depth < U32_MAX then depth + 1 else U32_MAX }

  /** One visit: refuses, or returns the memo extended by everything below `release`. */
  function Visit(
      g: Graph, root: string, limit: u32, release: string, depth: u32, visiting: set<string>, visited: set<string>)
    : Result<set<string>, ClosureError>
    decreases |g.Keys - visiting|, 0, 0
  {
    if depth > limit || release == root || release in visiting then Err(CyclicOrTooDeep)
    else if release in visited then Ok(visited)
    else if release !in g then Err(Incomplete)
    else
      StackGrows(g, visiting, release);
      match VisitAll(g, root, limit, g[release].dependencies, Deeper(depth), visiting + {release}, visited)
      case Err(e) => Err(e)
      case Ok(seen) => Ok(seen + {release})
  }

  function VisitAll(
      g: Graph, root: string, limit: u32, deps: seq<Dependency>, depth: u32, visiting: set<string>,
      visited: set<string>)
    : Result<set<string>, ClosureError>
    decreases |g.Keys - visiting|, 1, |deps|
  {
    if |deps| == 0 then Ok(visited)
    else if deps[0].release !in g then Err(Incomplete)
    else if !Bound(g, deps[0]) then Err(BindingMismatch)
    else match Visit(g, root, limit, deps[0].release, depth, visiting, visited)
      case Err(e) => Err(e)
      case Ok(seen) => VisitAll(g, root, limit, deps[1..], depth, visiting, seen)
  }

  lemma {:induction false} StackGrows(g: Graph, visiting: set<string>, release: string)
    requires release in g && release !in visiting
    ensures |g.Keys - (visiting + {release})| < |g.Keys - visiting|
  {
    assert g.Keys - visiting == (g.Keys - (visiting + {release})) + {release};
  }

  // ----- what a successful search has seen -----

  ghost predicate Memoised(g: Graph, declared: set<string>, root: string, limit: nat, v: string) {
    v != root && LocallySound(g, v) && HasShortPath(g, declared, limit, v)
  }

  ghost predicate DependsOnlyOn(g: Graph, v: string, earlier: seq<string>) {
    forall w :: Depends(g, v, w) ==> w in earlier
  }

  /** `finished` lists what has been memoised, dependencies before dependents. */
  ghost predicate Memo(g: Graph, declared: set<string>, root: string, limit: nat, finished: seq<string>) {
    && Distinct(finished)
    && (forall i {:trigger Memoised(g, declared, root, limit, finished[i])} :: 0 <= i < |finished| ==>
          Memoised(g, declared, root, limit, finished[i]))
    && (forall i {:trigger DependsOnlyOn(g, finished[i], finished[..i])} :: 0 <= i < |finished| ==>
          DependsOnlyOn(g, finished[i], finished[..i]))
  }

  /** `trail` is the stack of the search: a path of distinct admitted releases. */
  ghost predicate Trail(g: Graph, declared: set<string>, trail: seq<string>) {
    && (trail == [] || PathFrom(g, declared, trail))
    && Distinct(trail)
    && (forall i :: 0 <= i < |trail| ==> trail[i] in g)
  }

  ghost predicate Next(g: Graph, declared: set<string>, trail: seq<string>, release: string) {
    if trail == [] then release in declared else Depends(g, trail[|trail| - 1], release)
  }

  lemma {:induction false} ExtendPath(g: Graph, declared: set<string>, trail: seq<string>, release: string)
    requires trail == [] || PathFrom(g, declared, trail)
    requires Next(g, declared, trail, release)
    ensures PathFrom(g, declared, trail + [release])
  {
    var p := trail + [release];
    forall i, j | 0 <= i && j == i + 1 && j < |p| ensures Depends(g, p[i], p[j]) {
      if j < |trail| { assert Depends(g, trail[i], trail[j]); }
    }
  }

  /** A successful visit extends the memo by a listing that ends up containing `release`. */
  lemma {:induction false} VisitMemoises(
      g: Graph, declared: set<string>, root: string, limit: u32, release: string, depth: u32, trail: seq<string>,
      finished: seq<string>)
    returns (after: seq<string>)
    requires |g.Keys| <= U32_MAX && Memo(g, declared, root, limit, finished) && Trail(g, declared, trail)
    requires Members(trail) !! Members(finished) && Next(g, declared, trail, release)
    requires depth == if |trail| < U32_MAX then |trail| + 1 else U32_MAX
    requires Visit(g, root, limit, release, depth, Members(trail), Members(finished)).Ok?
    ensures finished <= after && release in after && Memo(g, declared, root, limit, after)
    ensures Members(trail) !! Members(after)
    ensures Visit(g, root, limit, release, depth, Members(trail), Members(finished)) == Ok(Members(after))
    decreases |g.Keys - Members(trail)|, 0, 0
  {
    if release in Members(finished) {
      after := finished;
    } else {
      var longer := trail + [release];
      VisitDescends(g, root, limit, release, depth, Members(trail), Members(finished));
      PushTrail(g, declared, trail, release);
      var below := VisitAllMemoises(g, declared, root, limit, release, 0, Deeper(depth), longer, finished);
      after := below + [release];
      FinishVisit(g, declared, root, limit, release, trail, below);
    }
  }

  /** What an accepted visit of a release not yet memoised comes down to. */
  lemma {:induction false} VisitDescends(
      g: Graph, root: string, limit: u32, release: string, depth: u32, visiting: set<string>, visited: set<string>)
    requires Visit(g, root, limit, release, depth, visiting, visited).Ok? && release !in visited
    ensures depth <= limit && release != root && release in g && release !in visiting
    ensures var below := VisitAll(g, root, limit, g[release].dependencies[0..], Deeper(depth), visiting + {release},
                                  visited);
            below.Ok? && Visit(g, root, limit, release, depth, visiting, visited) == Ok(below.value + {release})
    ensures |g.Keys - (visiting + {release})| < |g.Keys - visiting|
  {
    assert g[release].dependencies[0..] == g[release].dependencies;
    StackGrows(g, visiting, release);
  }

  lemma {:induction false} FinishVisit(
      g: Graph, declared: set<string>, root: string, limit: nat, release: string, trail: seq<string>,
      below: seq<string>)
    requires Trail(g, declared, trail + [release]) && |trail| < limit && release != root
    requires Memo(g, declared, root, limit, below) && Members(trail + [release]) !! Members(below)
    requires Members(trail + [release]) == Members(trail) + {release}
    requires forall i :: 0 <= i < |g[release].dependencies| ==>
               Bound(g, g[release].dependencies[i]) && g[release].dependencies[i].release in below
    ensures Memo(g, declared, root, limit, below + [release])
    ensures Members(below + [release]) == Members(below) + {release}
    ensures release !in Members(trail) ==> Members(trail) !! Members(below + [release])
  {
    assert (trail + [release])[|trail|] == release;
    MembersSnoc(below, release);
    MemoSnoc(g, declared, root, limit, below, trail + [release], release);
  }

  lemma {:induction false} PushTrail(g: Graph, declared: set<string>, trail: seq<string>, release: string)
    requires Trail(g, declared, trail) && Next(g, declared, trail, release)
    requires release in g && release !in Members(trail)
    ensures Trail(g, declared, trail + [release])
    ensures Members(trail + [release]) == Members(trail) + {release}
    ensures |trail| + 1 <= |g.Keys|
  {
    ExtendPath(g, declared, trail, release);
    MembersSnoc(trail, release);
    DistinctFits(trail + [release], g.Keys);
  }

  /** Finishing the top of the stack once everything it depends on is finished. */
  lemma {:induction false} MemoSnoc(
      g: Graph, declared: set<string>, root: string, limit: nat, below: seq<string>, trail: seq<string>, top: string)
    requires Memo(g, declared, root, limit, below) && 0 < |trail| <= limit && PathFrom(g, declared, trail)
    requires top == trail[|trail| - 1]
    requires top != root && top in g && top !in below
    requires forall i :: 0 <= i < |g[top].dependencies| ==>
               Bound(g, g[top].dependencies[i]) && g[top].dependencies[i].release in below
    ensures Memo(g, declared, root, limit, below + [top])
  {
    var after := below + [top];
    assert HasShortPath(g, declared, limit, top);
    assert Memoised(g, declared, root, limit, top);
    forall i | 0 <= i < |after| ensures Memoised(g, declared, root, limit, after[i]) {
      if i < |below| { assert Memoised(g, declared, root, limit, below[i]); }
    }
    forall i | 0 <= i < |after| ensures DependsOnlyOn(g, after[i], after[..i]) {
      if i < |below| {
        assert after[..i] == below[..i];
        assert DependsOnlyOn(g, below[i], below[..i]);
      } else {
        assert after[..i] == below;
      }
    }
  }

  /** The remaining dependencies of `top`, from index `at` on, all end up memoised. */
  lemma {:induction false} VisitAllMemoises(
      g: Graph, declared: set<string>, root: string, limit: u32, top: string, at: nat, depth: u32, trail: seq<string>,
      finished: seq<string>)
    returns (after: seq<string>)
    requires |g.Keys| <= U32_MAX && Memo(g, declared, root, limit, finished) && Trail(g, declared, trail)
    requires |trail| > 0 && trail[|trail| - 1] == top && top in g && at <= |g[top].dependencies|
    requires Members(trail) !! Members(finished)
    requires depth == if |trail| < U32_MAX then |trail| + 1 else U32_MAX
    requires VisitAll(g, root, limit, g[top].dependencies[at..], depth, Members(trail), Members(finished)).Ok?
    ensures finished <= after && Memo(g, declared, root, limit, after) && Members(trail) !! Members(after)
    ensures forall i :: at <= i < |g[top].dependencies| ==>
              Bound(g, g[top].dependencies[i]) && g[top].dependencies[i].release in after
    ensures VisitAll(g, root, limit, g[top].dependencies[at..], depth, Members(trail), Members(finished)) ==
            Ok(Members(after))
    decreases |g.Keys - Members(trail)|, 1, |g[top].dependencies| - at
  {
    var deps := g[top].dependencies[at..];
    if |deps| == 0 {
      after := finished;
    } else {
      assert deps[0] == g[top].dependencies[at];
      assert Depends(g, top, deps[0].release);
      var mid := VisitMemoises(g, declared, root, limit, deps[0].release, depth, trail, finished);
      assert deps[1..] == g[top].dependencies[at + 1..];
      after := VisitAllMemoises(g, declared, root, limit, top, at + 1, depth, trail, mid);
    }
  }

  // ----- what a refusal proves -----

  /** What is wrong at the end of the path: it is too long, or ends at the root or back on itself; it lacks an
      admission; or a dependency there is bound to something else. */
  ghost predicate Offence(g: Graph, root: string, limit: nat, p: seq<string>, error: ClosureError)
    requires |p| >= 1
  {
    var last := p[|p| - 1];
    match error
    case CyclicOrTooDeep => |p| > limit || last == root || last in p[..|p| - 1]
    case Incomplete =>
      last !in g || exists i :: 0 <= i < |g[last].dependencies| && g[last].dependencies[i].release !in g
    case BindingMismatch =>
      last in g && exists i :: 0 <= i < |g[last].dependencies| && g[last].dependencies[i].release in g
                               && !Bound(g, g[last].dependencies[i])
    case _ => false
  }

  /** Some reachable path is at fault in the way that the error says. */
  ghost predicate Offends(g: Graph, declared: set<string>, root: string, limit: nat, error: ClosureError) {
    exists p :: PathFrom(g, declared, p) && Offence(g, root, limit, p, error)
  }

  lemma {:induction false} RefusedVisitOffends(
      g: Graph, declared: set<string>, root: string, limit: u32, release: string, depth: u32, trail: seq<string>,
      visited: set<string>)
    requires (trail == [] || PathFrom(g, declared, trail)) && Next(g, declared, trail, release)
    requires depth <= |trail| + 1
    requires Visit(g, root, limit, release, depth, Members(trail), visited).Err?
    ensures Offends(g, declared, root, limit, Visit(g, root, limit, release, depth, Members(trail), visited).error)
    decreases |g.Keys - Members(trail)|, 0, 0
  {
    if depth > limit || release == root || release in Members(trail) {
      BadReleaseOffends(g, declared, root, limit, release, trail, CyclicOrTooDeep);
    } else if release !in g {
      BadReleaseOffends(g, declared, root, limit, release, trail, Incomplete);
    } else {
      ExtendPath(g, declared, trail, release);
      MembersSnoc(trail, release);
      RefusalDescends(g, root, limit, release, depth, Members(trail), visited);
      RefusedVisitAllOffends(g, declared, root, limit, 0, Deeper(depth), trail + [release], visited);
    }
  }

  lemma {:induction false} BadReleaseOffends(
      g: Graph, declared: set<string>, root: string, limit: nat, release: string, trail: seq<string>,
      error: ClosureError)
    requires (trail == [] || PathFrom(g, declared, trail)) && Next(g, declared, trail, release)
    requires || (error == CyclicOrTooDeep && (|trail| + 1 > limit || release == root || release in trail))
             || (error == Incomplete && release !in g)
    ensures Offends(g, declared, root, limit, error)
  {
    var path := trail + [release];
    ExtendPath(g, declared, trail, release);
    assert path[..|path| - 1] == trail;
    assert Offence(g, root, limit, path, error);
  }

  /** What a refused visit comes down to when the release itself is not at fault. */
  lemma {:induction false} RefusalDescends(
      g: Graph, root: string, limit: u32, release: string, depth: u32, visiting: set<string>, visited: set<string>)
    requires Visit(g, root, limit, release, depth, visiting, visited).Err?
    requires depth <= limit && release != root && release in g && release !in visiting
    ensures VisitAll(g, root, limit, g[release].dependencies[0..], Deeper(depth), visiting + {release}, visited) ==
            Err(Visit(g, root, limit, release, depth, visiting, visited).error)
    ensures |g.Keys - (visiting + {release})| < |g.Keys - visiting|
  {
    assert g[release].dependencies[0..] == g[release].dependencies;
    StackGrows(g, visiting, release);
  }

  lemma {:induction false} RefusedVisitAllOffends(
      g: Graph, declared: set<string>, root: string, limit: u32, at: nat, depth: u32, trail: seq<string>,
      visited: set<string>)
    requires PathFrom(g, declared, trail) && trail[|trail| - 1] in g && depth <= |trail| + 1
    requires at <= |g[trail[|trail| - 1]].dependencies|
    requires VisitAll(g, root, limit, g[trail[|trail| - 1]].dependencies[at..], depth, Members(trail), visited).Err?
    ensures Offends(g, declared, root, limit,
                    VisitAll(g, root, limit, g[trail[|trail| - 1]].dependencies[at..], depth, Members(trail),
                             visited).error)
    decreases |g.Keys - Members(trail)|, 1, |g[trail[|trail| - 1]].dependencies| - at
  {
    var top := trail[|trail| - 1];
    var deps := g[top].dependencies[at..];
    assert deps[0] == g[top].dependencies[at] && deps[1..] == g[top].dependencies[at + 1..];
    if deps[0].release !in g {
      assert Offence(g, root, limit, trail, Incomplete);
    } else if !Bound(g, deps[0]) {
      assert Offence(g, root, limit, trail, BindingMismatch);
    } else {
      assert Depends(g, top, deps[0].release);
      match Visit(g, root, limit, deps[0].release, depth, Members(trail), visited)
      case Err(_) => RefusedVisitOffends(g, declared, root, limit, deps[0].release, depth, trail, visited);
      case Ok(seen) => RefusedVisitAllOffends(g, declared, root, limit, at + 1, depth, trail, seen);
    }
  }

  // ----- the whole check -----

  function ByRelease(admitted: seq<Admission>): Graph {
    if |admitted| == 0 then map[]
    else ByRelease(admitted[..|admitted| - 1])[admitted[|admitted| - 1].release := admitted[|admitted| - 1]]
  }

  function Releases(deps: seq<Dependency>): set<string> {
    set i | 0 <= i < |deps| :: deps[i].release
  }

  /** The first declared dependency that is not admitted as declared. */
  function CheckDeclared(g: Graph, deps: seq<Dependency>): Outcome<ClosureError> {
    if |deps| == 0 then Pass
    else if deps[0].release !in g then Fail(NotAdmitted)
    else if !g[deps[0].release].wellFormed then Fail(InvalidAdmission)
    else if !Bound(g, deps[0]) then Fail(BindingMismatch)
    else CheckDeclared(g, deps[1..])
  }

  function WalkDeclared(g: Graph, root: string, limit: u32, deps: seq<Dependency>, visited: set<string>)
    : Outcome<ClosureError>
  {
    if |deps| == 0 then Pass
    else match Visit(g, root, limit, deps[0].release, 1, {}, visited)
      case Err(e) => Fail(e)
      case Ok(seen) => WalkDeclared(g, root, limit, deps[1..], seen)
  }

  /** Everything that is checked before the graph is searched. */
  function Precheck(deps: seq<Dependency>, admitted: seq<Admission>, maxDependencies: u32): Outcome<ClosureError> {
    var g := ByRelease(admitted);
    if |deps| > maxDependencies || |admitted| > maxDependencies then Fail(TooManyDependencies)
    else if |g| != |admitted| then Fail(DuplicateAdmission)
    else if CheckDeclared(g, deps).Fail? then CheckDeclared(g, deps)
    else if |g| != |deps| then Fail(UndeclaredAdmission)
    else Pass
  }

  function VerifyClosure(
      deps: seq<Dependency>, admitted: seq<Admission>, root: string, maxDependencies: u32, maxDepth: u32)
    : Outcome<ClosureError>
  {
    if Precheck(deps, admitted, maxDependencies).Fail? then Precheck(deps, admitted, maxDependencies)
    else WalkDeclared(ByRelease(admitted), root, maxDepth, deps, {})
  }

  // ----- the main results -----

  lemma {:induction false} AcceptedWalkMemoises(
      g: Graph, declared: set<string>, root: string, limit: u32, deps: seq<Dependency>, finished: seq<string>)
    returns (after: seq<string>)
    requires |g.Keys| <= U32_MAX && Memo(g, declared, root, limit, finished)
    requires Releases(deps) <= declared
    requires WalkDeclared(g, root, limit, deps, Members(finished)).Pass?
    ensures finished <= after && Memo(g, declared, root, limit, after)
    ensures forall r :: r in Releases(deps) ==> r in after
    decreases |deps|
  {
    if |deps| == 0 {
      after := finished;
    } else {
      assert deps[0].release in Releases(deps);
      assert Members<string>([]) == {};
      var mid := VisitMemoises(g, declared, root, limit, deps[0].release, 1, [], finished);
      assert Releases(deps[1..]) <= Releases(deps) by {
        forall r | r in Releases(deps[1..]) ensures r in Releases(deps) {
          var i :| 0 <= i < |deps[1..]| && deps[1..][i].release == r;
          assert deps[i + 1].release == r;
        }
      }
      after := AcceptedWalkMemoises(g, declared, root, limit, deps[1..], mid);
      forall r | r in Releases(deps) ensures r in after {
        var i :| 0 <= i < |deps| && deps[i].release == r;
        if i > 0 { assert deps[1..][i - 1].release == r; }
      }
    }
  }

  /** A path inside the memo only ever goes to earlier entries. */
  lemma {:induction false} PathDescendsMemo(
      g: Graph, declared: set<string>, root: string, limit: nat, finished: seq<string>, p: seq<string>)
    returns (places: seq<nat>)
    requires Memo(g, declared, root, limit, finished) && IsChain(g, p) && |p| >= 1 && p[0] in finished
    ensures |places| == |p|
    ensures forall i :: 0 <= i < |p| ==> places[i] < |finished| && finished[places[i]] == p[i]
    ensures forall i, j :: 0 <= i < j < |p| ==> places[j] < places[i]
  {
    if |p| == 1 {
      var at :| 0 <= at < |finished| && finished[at] == p[0];
      places := [at];
    } else {
      var front := p[..|p| - 1];
      assert IsChain(g, front) by {
        forall i, j | 0 <= i && j == i + 1 && j < |front| ensures Depends(g, front[i], front[j]) {
          assert Depends(g, p[i], p[j]);
        }
      }
      places := PathDescendsMemo(g, declared, root, limit, finished, front);
      var last := places[|front| - 1];
      assert Depends(g, p[|p| - 2], p[|p| - 1]);
      assert DependsOnlyOn(g, finished[last], finished[..last]);
      var at :| 0 <= at < last && finished[..last][at] == p[|p| - 1];
      places := places + [at];
    }
  }

  lemma {:induction false} MemoMakesGoodEnds(
      g: Graph, declared: set<string>, root: string, limit: nat, finished: seq<string>, p: seq<string>)
    requires Memo(g, declared, root, limit, finished) && PathFrom(g, declared, p)
    requires forall r :: r in declared ==> r in finished
    ensures GoodEnd(g, root, p) && HasShortPath(g, declared, limit, p[|p| - 1])
  {
    var places := PathDescendsMemo(g, declared, root, limit, finished, p);
    var last := |p| - 1;
    assert Memoised(g, declared, root, limit, finished[places[last]]);
    forall i | 0 <= i < last ensures p[i] != p[last] {
      assert finished[places[i]] != finished[places[last]];
    }
  }

  /** An accepted closure is admitted as bound all the way down, acyclic and root-free, and every
      release in it is reached by some path within the depth limit. */
  lemma {:induction false} AcceptedClosureIsSound(
      deps: seq<Dependency>, admitted: seq<Admission>, root: string, maxDependencies: u32, maxDepth: u32)
    requires VerifyClosure(deps, admitted, root, maxDependencies, maxDepth).Pass?
    ensures Structural(ByRelease(admitted), Releases(deps), root)
    ensures ReachedWithin(ByRelease(admitted), Releases(deps), maxDepth)
  {
    var g, declared := ByRelease(admitted), Releases(deps);
    assert Members<string>([]) == {};
    var finished := AcceptedWalkMemoises(g, declared, root, maxDepth, deps, []);
    forall p | PathFrom(g, declared, p) ensures GoodEnd(g, root, p) && HasShortPath(g, declared, maxDepth, p[|p| - 1]) {
      MemoMakesGoodEnds(g, declared, root, maxDepth, finished, p);
    }
  }

  lemma {:induction false} RefusedWalkOffends(
      g: Graph, declared: set<string>, root: string, limit: u32, deps: seq<Dependency>, visited: set<string>)
    requires forall i :: 0 <= i < |deps| ==> deps[i].release in declared
    requires WalkDeclared(g, root, limit, deps, visited).Fail?
    ensures Offends(g, declared, root, limit, WalkDeclared(g, root, limit, deps, visited).error)
    decreases |deps|
  {
    assert Members<string>([]) == {};
    match Visit(g, root, limit, deps[0].release, 1, {}, visited)
    case Err(_) => RefusedVisitOffends(g, declared, root, limit, deps[0].release, 1, [], visited);
    case Ok(seen) => RefusedWalkOffends(g, declared, root, limit, deps[1..], seen);
  }

  lemma {:induction false} OffenceIsFault(g: Graph, root: string, limit: nat, p: seq<string>, error: ClosureError)
    requires |p| >= 1 && Offence(g, root, limit, p, error)
    ensures |p| > limit || !GoodEnd(g, root, p)
  {
  }

  /** Conversely, a closure that passes the prechecks, is structurally sound, and has no path longer
      than the limit is accepted. */
  lemma {:induction false} SoundShallowClosureIsAccepted(
      deps: seq<Dependency>, admitted: seq<Admission>, root: string, maxDependencies: u32, maxDepth: u32)
    requires Precheck(deps, admitted, maxDependencies).Pass?
    requires Structural(ByRelease(admitted), Releases(deps), root)
    requires EveryPathFits(ByRelease(admitted), Releases(deps), maxDepth)
    ensures VerifyClosure(deps, admitted, root, maxDependencies, maxDepth).Pass?
  {
    var g, declared := ByRelease(admitted), Releases(deps);
    if WalkDeclared(g, root, maxDepth, deps, {}).Fail? {
      RefusedWalkOffends(g, declared, root, maxDepth, deps, {});
      var error := WalkDeclared(g, root, maxDepth, deps, {}).error;
      var p :| PathFrom(g, declared, p) && Offence(g, root, maxDepth, p, error);
      OffenceIsFault(g, root, maxDepth, p, error);
      assert false;
    }
  }

  /** A closure refused past the prechecks has a reachable path that is at fault in the way the error says. */
  lemma {:induction false} SearchRefusalsAreHonest(
      deps: seq<Dependency>, admitted: seq<Admission>, root: string, maxDependencies: u32, maxDepth: u32)
    requires Precheck(deps, admitted, maxDependencies).Pass?
    requires VerifyClosure(deps, admitted, root, maxDependencies, maxDepth).Fail?
    ensures Offends(ByRelease(admitted), Releases(deps), root, maxDepth,
                    VerifyClosure(deps, admitted, root, maxDependencies, maxDepth).error)
  {
    RefusedWalkOffends(ByRelease(admitted), Releases(deps), root, maxDepth, deps, {});
  }

  lemma {:induction false} SoundPathsAreDistinct(g: Graph, declared: set<string>, root: string, p: seq<string>)
    requires Structural(g, declared, root) && PathFrom(g, declared, p)
    ensures |p| <= |g|
  {
    forall j | 0 <= j < |p| ensures p[j] in g && p[j] !in p[..j] {
      var q := p[..j + 1];
      assert PathFrom(g, declared, q) by {
        forall i, k | 0 <= i && k == i + 1 && k < |q| ensures Depends(g, q[i], q[k]) {
          assert Depends(g, p[i], p[k]);
        }
      }
      assert GoodEnd(g, root, q);
      assert q[..j] == p[..j];
    }
    forall i, j | 0 <= i < j < |p| ensures p[i] != p[j] {
      assert p[..j][i] == p[i];
    }
    DistinctFits(p, g.Keys);
  }

  /** With a depth limit no smaller than the number of admissions, the check decides exactly whether
      the closure is structurally sound. */
  lemma {:induction false} DeepLimitDecidesExactly(
      deps: seq<Dependency>, admitted: seq<Admission>, root: string, maxDependencies: u32, maxDepth: u32)
    requires Precheck(deps, admitted, maxDependencies).Pass? && |admitted| <= maxDepth
    ensures VerifyClosure(deps, admitted, root, maxDependencies, maxDepth).Pass? <==>
            Structural(ByRelease(admitted), Releases(deps), root)
  {
    var g, declared := ByRelease(admitted), Releases(deps);
    if VerifyClosure(deps, admitted, root, maxDependencies, maxDepth).Pass? {
      AcceptedClosureIsSound(deps, admitted, root, maxDependencies, maxDepth);
    } else if Structural(g, declared, root) {
      forall p | PathFrom(g, declared, p) ensures |p| <= maxDepth {
        SoundPathsAreDistinct(g, declared, root, p);
      }
      SoundShallowClosureIsAccepted(deps, admitted, root, maxDependencies, maxDepth);
    }
  }

  // ----- where the depth limit and the count check are looser than they look -----

  /** The order of dependency lists: by package, release, version and digest. */
  function ListOrder(): (Dependency, Dependency) -> bool {
    Then(ByText((d: Dependency) => d.package),
         Then(ByText((d: Dependency) => d.release),
              Then(ByNumber((d: Dependency) => d.version), ByText((d: Dependency) => d.digest))))
  }

  /** What the validation of manifests and admissions demands of a dependency list. */
  ghost predicate SortedUnique(deps: seq<Dependency>) {
    forall i :: 0 <= i < |deps| - 1 ==> ListOrder()(deps[i], deps[i + 1])
  }

  ghost predicate Receivable(deps: seq<Dependency>, admitted: seq<Admission>) {
    SortedUnique(deps) && forall i :: 0 <= i < |admitted| ==> SortedUnique(admitted[i].dependencies)
  }

  /** Three packages in a row of dependencies, under the given names. */
  function ThreeDeps(x: string, y: string, z: string): seq<Dependency> {
    [Dependency(x, x, 1, x), Dependency(y, y, 1, y), Dependency(z, z, 1, z)]
  }

  /** `x` depends on `y`, and `y` on `z`. */
  function ThreeGraph(x: string, y: string, z: string): Graph {
    map[x := Admission(x, x, x, true, [Dependency(y, y, 1, y)]),
        y := Admission(y, y, y, true, [Dependency(z, z, 1, z)]),
        z := Admission(z, z, z, true, [])]
  }

  function ThreeAdmitted(x: string, y: string, z: string): seq<Admission> {
    [Admission(x, x, x, true, [Dependency(y, y, 1, y)]), Admission(y, y, y, true, [Dependency(z, z, 1, z)]),
     Admission(z, z, z, true, [])]
  }

  lemma {:induction false} ThreeByRelease(x: string, y: string, z: string)
    requires x != y && y != z && x != z
    ensures ByRelease(ThreeAdmitted(x, y, z)) == ThreeGraph(x, y, z) && |ThreeGraph(x, y, z)| == 3
  {
    var a := ThreeAdmitted(x, y, z);
    assert a[..2][..1][..0] == [];
    assert ByRelease(a[..2][..1]) == map[x := a[0]];
    assert ByRelease(a[..2]) == map[x := a[0], y := a[1]];
    var g := ThreeGraph(x, y, z);
    assert g.Keys == {x, y, z} && |g| == |g.Keys|;
  }

  lemma {:induction false} ThreeChecked(g: Graph, x: string, y: string, z: string, deps: seq<Dependency>)
    requires g == ThreeGraph(x, y, z) && x != y && y != z && x != z
    requires forall i :: 0 <= i < |deps| ==> deps[i] in ThreeDeps(x, y, z)
    ensures CheckDeclared(g, deps).Pass?
  {
    if |deps| > 0 {
      assert deps[0] in ThreeDeps(x, y, z);
      assert forall i :: 0 <= i < |deps[1..]| ==> deps[1..][i] == deps[i + 1];
      ThreeChecked(g, x, y, z, deps[1..]);
    }
  }

  /** Visiting a release with one well-bound dependency comes down to visiting that dependency. */
  lemma {:induction false} VisitSingle(
      g: Graph, root: string, limit: u32, release: string, depth: u32, visiting: set<string>, visited: set<string>)
    requires depth <= limit && release != root && release !in visiting && release !in visited && release in g
    requires |g[release].dependencies| == 1 && Bound(g, g[release].dependencies[0])
    ensures Visit(g, root, limit, release, depth, visiting, visited) ==
            match Visit(g, root, limit, g[release].dependencies[0].release, Deeper(depth), visiting + {release},
                        visited)
            case Err(e) => Err(e)
            case Ok(seen) => Ok(seen + {release})
  {
    var d := g[release].dependencies[0];
    StackGrows(g, visiting, release);
    assert g[release].dependencies[1..] == [];
    match Visit(g, root, limit, d.release, Deeper(depth), visiting + {release}, visited)
    case Err(_) =>
    case Ok(seen) =>
      assert VisitAll(g, root, limit, g[release].dependencies[1..], Deeper(depth), visiting + {release}, seen) ==
             Ok(seen);
  }

  lemma {:induction false} WalkStep(
      g: Graph, root: string, limit: u32, x: Dependency, rest: seq<Dependency>, visited: set<string>)
    ensures var first := Visit(g, root, limit, x.release, 1, {}, visited);
            WalkDeclared(g, root, limit, [x] + rest, visited) ==
            if first.Err? then Fail(first.error) else WalkDeclared(g, root, limit, rest, first.value)
  {
    assert ([x] + rest)[1..] == rest;
  }

  /** From the bottom up, three in a row pass at a limit of two. */
  lemma {:induction false} BottomUpPasses(x: string, y: string, z: string, root: string)
    requires x != y && y != z && x != z && root !in {x, y, z}
    ensures WalkDeclared(ThreeGraph(x, y, z), root, 2, ThreeDeps(z, y, x), {}).Pass?
  {
    var g := ThreeGraph(x, y, z);
    var dx, dy, dz := Dependency(x, x, 1, x), Dependency(y, y, 1, y), Dependency(z, z, 1, z);
    assert ThreeDeps(z, y, x) == [dz] + ([dy] + ([dx] + []));
    WalkStep(g, root, 2, dz, [dy] + ([dx] + []), {});
    WalkStep(g, root, 2, dy, [dx] + [], {} + {z});
    WalkStep(g, root, 2, dx, [], {} + {z} + {y});
    assert Visit(g, root, 2, z, 1, {}, {}) == Ok({} + {z});
    VisitSingle(g, root, 2, y, 1, {}, {} + {z});
    VisitSingle(g, root, 2, x, 1, {}, {} + {z} + {y});
  }

  /** From the top down they do not. */
  lemma {:induction false} TopDownFails(x: string, y: string, z: string, root: string)
    requires x != y && y != z && x != z && root !in {x, y, z}
    ensures WalkDeclared(ThreeGraph(x, y, z), root, 2, ThreeDeps(x, y, z), {}) == Fail(CyclicOrTooDeep)
  {
    var g := ThreeGraph(x, y, z);
    var dx, dy, dz := Dependency(x, x, 1, x), Dependency(y, y, 1, y), Dependency(z, z, 1, z);
    assert ThreeDeps(x, y, z) == [dx] + [dy, dz];
    WalkStep(g, root, 2, dx, [dy, dz], {});
    VisitSingle(g, root, 2, x, 1, {}, {});
    VisitSingle(g, root, 2, y, 2, {} + {x}, {});
  }

  /** Three in a row pass the prechecks whatever the order of the declared list. */
  lemma {:induction false} ThreeVerdict(x: string, y: string, z: string, deps: seq<Dependency>, root: string)
    requires x != y && y != z && x != z && |deps| == 3
    requires forall i :: 0 <= i < |deps| ==> deps[i] in ThreeDeps(x, y, z)
    ensures VerifyClosure(deps, ThreeAdmitted(x, y, z), root, 8, 2) ==
            WalkDeclared(ThreeGraph(x, y, z), root, 2, deps, {})
  {
    ThreeByRelease(x, y, z);
    ThreeChecked(ThreeGraph(x, y, z), x, y, z, deps);
  }

  lemma {:induction false} ThreeReceivable()
    ensures var deps := ThreeDeps("a", "b", "c");
            Receivable(deps, ThreeAdmitted("c", "b", "a")) && Receivable(deps, ThreeAdmitted("a", "b", "c"))
  {
    var deps := ThreeDeps("a", "b", "c");
    assert TextLess("a", "b") && TextLess("b", "c");
    assert SortedUnique(deps);
  }

  lemma {:induction false} ThreeInARow(x: string, y: string, z: string, declared: set<string>)
    requires x != y && y != z && x != z && x in declared
    ensures PathFrom(ThreeGraph(x, y, z), declared, [x, y, z])
  {
    var g := ThreeGraph(x, y, z);
    assert g[x].dependencies[0].release == y && g[y].dependencies[0].release == z;
    assert Depends(g, x, y) && Depends(g, y, z);
  }

  /** The limit bounds the paths the search walks, not every path. Three packages in a row, received in the
      order of their names, are accepted at a limit of two when the names put the leaf first, and refused
      when they put it last. */
  lemma {:induction false} DeclarationOrderDecidesDepth()
    ensures var deps := ThreeDeps("a", "b", "c");
            var leafFirst, leafLast := ThreeAdmitted("c", "b", "a"), ThreeAdmitted("a", "b", "c");
            && Receivable(deps, leafFirst) && VerifyClosure(deps, leafFirst, "root", 8, 2).Pass?
            && Receivable(deps, leafLast) && VerifyClosure(deps, leafLast, "root", 8, 2) == Fail(CyclicOrTooDeep)
            && PathFrom(ByRelease(leafFirst), Releases(deps), ["c", "b", "a"])
            && PathFrom(ByRelease(leafLast), Releases(deps), ["a", "b", "c"])
  {
    ThreeReceivable();
    LeafFirstPasses();
    LeafLastFails();
  }

  lemma {:induction false} LeafFirstPasses()
    ensures var deps, admitted := ThreeDeps("a", "b", "c"), ThreeAdmitted("c", "b", "a");
            VerifyClosure(deps, admitted, "root", 8, 2).Pass?
              && PathFrom(ByRelease(admitted), Releases(deps), ["c", "b", "a"])
  {
    var deps := ThreeDeps("a", "b", "c");
    assert deps[2].release == "c";
    ThreeByRelease("c", "b", "a");
    ThreeVerdict("c", "b", "a", deps, "root");
    BottomUpPasses("c", "b", "a", "root");
    ThreeInARow("c", "b", "a", Releases(deps));
  }

  lemma {:induction false} LeafLastFails()
    ensures var deps, admitted := ThreeDeps("a", "b", "c"), ThreeAdmitted("a", "b", "c");
            VerifyClosure(deps, admitted, "root", 8, 2) == Fail(CyclicOrTooDeep)
            && PathFrom(ByRelease(admitted), Releases(deps), ["a", "b", "c"])
  {
    var deps := ThreeDeps("a", "b", "c");
    assert deps[0].release == "a";
    ThreeByRelease("a", "b", "c");
    ThreeVerdict("a", "b", "c", deps, "root");
    TopDownFails("a", "b", "c", "root");
    ThreeInARow("a", "b", "c", Releases(deps));
  }

  lemma {:induction false} ReleasesCount(deps: seq<Dependency>)
    ensures |Releases(deps)| <= |deps|
    ensures |Releases(deps)| == |deps| <==> forall i, j :: 0 <= i < j < |deps| ==> deps[i].release != deps[j].release
  {
    var releases := seq(|deps|, i requires 0 <= i < |deps| => deps[i].release);
    MembersCount(releases);
    assert Members(releases) == Releases(deps) by {
      forall r | r in Releases(deps) ensures r in releases {
        var i :| 0 <= i < |deps| && deps[i].release == r;
        assert releases[i] == r;
      }
    }
    if Distinct(releases) {
      forall i, j | 0 <= i < j < |deps| ensures deps[i].release != deps[j].release {
        assert releases[i] != releases[j];
      }
    }
  }

  lemma {:induction false} CheckedAreAdmitted(g: Graph, deps: seq<Dependency>)
    requires CheckDeclared(g, deps).Pass?
    ensures forall i :: 0 <= i < |deps| ==> Bound(g, deps[i])
  {
    if |deps| > 0 {
      CheckedAreAdmitted(g, deps[1..]);
      assert forall i :: 1 <= i < |deps| ==> deps[i] == deps[1..][i - 1];
    }
  }

  /** The check for undeclared admissions compares counts: once it passes, nothing undeclared was
      admitted exactly when no release is declared twice. */
  lemma {:induction false} CountCheckExcludesUndeclaredExactly(
      deps: seq<Dependency>, admitted: seq<Admission>, maxDependencies: u32)
    requires Precheck(deps, admitted, maxDependencies).Pass?
    ensures ByRelease(admitted).Keys == Releases(deps) <==>
            forall i, j :: 0 <= i < j < |deps| ==> deps[i].release != deps[j].release
  {
    var g := ByRelease(admitted);
    CheckedAreAdmitted(g, deps);
    ReleasesCount(deps);
    assert Releases(deps) <= g.Keys;
    assert |g.Keys| == |g|;
    assert g.Keys == Releases(deps) + (g.Keys - Releases(deps));
  }

  /** Two declarations of `x1` that differ only in version let the undeclared `y1` through. */
  lemma {:induction false} TwoVersionsHideAnUndeclaredAdmission()
    ensures var deps := [Dependency("x", "x1", 1, "dx"), Dependency("x", "x1", 2, "dx")];
            var admitted := [Admission("x", "x1", "dx", true, []), Admission("y", "y1", "dy", true, [])];
            VerifyClosure(deps, admitted, "root", 8, 4).Pass? && "y1" in ByRelease(admitted) && "y1" !in Releases(deps)
  {
    var deps := [Dependency("x", "x1", 1, "dx"), Dependency("x", "x1", 2, "dx")];
    var admitted := [Admission("x", "x1", "dx", true, []), Admission("y", "y1", "dy", true, [])];
    var g := map["x1" := admitted[0], "y1" := admitted[1]];
    assert admitted[..1][..0] == [];
    assert ByRelease(admitted[..1]) == map["x1" := admitted[0]];
    assert ByRelease(admitted) == g;
    assert g.Keys == {"x1", "y1"};
    assert |g| == |g.Keys|;
    assert deps[1..] == [deps[1]] && deps[1..][1..] == [];
    assert CheckDeclared(g, deps[1..]).Pass?;
    assert Precheck(deps, admitted, 8).Pass?;
    assert deps == [deps[0]] + ([deps[1]] + []);
    WalkStep(g, "root", 4, deps[0], [deps[1]] + [], {});
    WalkStep(g, "root", 4, deps[1], [], {} + {"x1"});
    assert forall i :: 0 <= i < |deps| ==> deps[i].release == "x1";
  }

  // ----- the search as it runs -----

  /** The search with its two sets kept in place. */
  class DependencyWalk {
    const g: Graph
    const root: string
    const limit: u32
    var visiting: set<string>
    var visited: set<string>

    constructor (g: Graph, root: string, limit: u32)
      ensures this.g == g && this.root == root && this.limit == limit
      ensures visiting == {} && visited == {}
    {
      this.g, this.root, this.limit := g, root, limit;
      visiting, visited := {}, {};
    }

    /** A successful call leaves the stack as it found it and the memo extended; a refused call reports
        the reason the search function gives. */
    method Depth(release: string, depth: u32) returns (r: Outcome<ClosureError>)
      modifies this
      ensures r.Pass? ==> visiting == old(visiting)
                          && Visit(g, root, limit, release, depth, old(visiting), old(visited)) == Ok(visited)
      ensures r.Fail? ==> Visit(g, root, limit, release, depth, old(visiting), old(visited)) == Err(r.error)
      decreases |g.Keys - visiting|
    {
      if depth > limit || release == root || release in visiting { return Fail(CyclicOrTooDeep); }
      ghost var stack, memo := visiting, visited;
      visiting := visiting + {release};
      if release in visited {
        visiting := visiting - {release};
        assert visiting == stack;
        return Pass;
      }
      if release !in g { return Fail(Incomplete); }
      StackGrows(g, stack, release);
      var deps := g[release].dependencies;
      for i := 0 to |deps|
        invariant visiting == stack + {release}
        invariant VisitAll(g, root, limit, deps, Deeper(depth), stack + {release}, memo) ==
                  VisitAll(g, root, limit, deps[i..], Deeper(depth), stack + {release}, visited)
      {
        assert deps[i..][0] == deps[i] && deps[i..][1..] == deps[i + 1..];
        if deps[i].release !in g { return Fail(Incomplete); }
        if !Bound(g, deps[i]) { return Fail(BindingMismatch); }
        r := Depth(deps[i].release, Deeper(depth));
        if r.Fail? { return; }
      }
      visiting := visiting - {release};
      visited := visited + {release};
      assert visiting == stack;
      return Pass;
    }
  }

  /** The whole check, as the verifier runs it. */
  method CheckClosure(
      deps: seq<Dependency>, admitted: seq<Admission>, root: string, maxDependencies: u32, maxDepth: u32)
    returns (r: Outcome<ClosureError>)
    ensures r == VerifyClosure(deps, admitted, root, maxDependencies, maxDepth)
    ensures r.Pass? ==> Structural(ByRelease(admitted), Releases(deps), root)
  {
    var pre := Precheck(deps, admitted, maxDependencies);
    if pre.Fail? { return pre; }
    var walk := new DependencyWalk(ByRelease(admitted), root, maxDepth);
    for i := 0 to |deps|
      invariant walk.g == ByRelease(admitted) && walk.root == root && walk.limit == maxDepth
      invariant walk.visiting == {}
      invariant WalkDeclared(ByRelease(admitted), root, maxDepth, deps, {}) ==
                WalkDeclared(ByRelease(admitted), root, maxDepth, deps[i..], walk.visited)
    {
      assert deps[i..][0] == deps[i] && deps[i..][1..] == deps[i + 1..];
      r := walk.Depth(deps[i].release, 1);
      if r.Fail? { return; }
    }
    r := Pass;
    AcceptedClosureIsSound(deps, admitted, root, maxDependencies, maxDepth);
  }
}
