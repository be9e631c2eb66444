/** How far the order of dependency lists decides the verdict of the depth-limited closure check. */
module DependencyArrangement {
  import opened Common
  import opened Orders
  import opened Sequences
  import opened DependencyClosure

  // ----- arrangements -----

  /** The same admission with its dependencies in another order. */
  ghost predicate SameButOrder(a: Admission, b: Admission) {
    b == a.(dependencies := b.dependencies) && multiset(b.dependencies) == multiset(a.dependencies)
  }

  /** The same declarations and the same admissions, with every dependency list in some order. */
  ghost predicate Arranged(
      deps: seq<Dependency>, admitted: seq<Admission>, deps': seq<Dependency>, admitted': seq<Admission>)
  {
    && multiset(deps') == multiset(deps)
    && |admitted'| == |admitted|
    && forall i :: 0 <= i < |admitted| ==> SameButOrder(admitted[i], admitted'[i])
  }

  ghost predicate SameShape(g: Graph, h: Graph) {
    g.Keys == h.Keys && forall v :: v in g ==> SameButOrder(g[v], h[v])
  }

  /** The inputs of one check, apart from the limit. */
  datatype Closure = Closure(deps: seq<Dependency>, admitted: seq<Admission>, root: string, maxDependencies: u32)

  function Verdict(c: Closure, limit: u32): Outcome<ClosureError> {
    VerifyClosure(c.deps, c.admitted, c.root, c.maxDependencies, limit)
  }

  ghost predicate Arrangement(c: Closure, d: Closure) {
    Arranged(c.deps, c.admitted, d.deps, d.admitted) && d.root == c.root && d.maxDependencies == c.maxDependencies
  }

  ghost predicate SomeArrangementPasses(c: Closure, limit: u32) {
    exists d :: Arrangement(c, d) && Verdict(d, limit).Pass?
  }

  ghost predicate EveryArrangementPasses(c: Closure, limit: u32) {
    forall d :: Arrangement(c, d) ==> Verdict(d, limit).Pass?
  }

  /** The prechecks pass and everything reachable is admitted as bound, acyclic and free of the root. */
  ghost predicate Sound(c: Closure) {
    && Precheck(c.deps, c.admitted, c.maxDependencies).Pass?
    && Structural(ByRelease(c.admitted), Releases(c.deps), c.root)
  }

  ghost predicate Fits(c: Closure, limit: nat) { EveryPathFits(ByRelease(c.admitted), Releases(c.deps), limit) }

  ghost predicate DeclaredOnce(deps: seq<Dependency>) {
    forall i, j :: 0 <= i < j < |deps| ==> deps[i].release != deps[j].release
  }

  // ----- what an arrangement leaves as it was -----

  lemma {:induction false} ShapeSymmetric(g: Graph, h: Graph)
    requires SameShape(g, h)
    ensures SameShape(h, g)
  {
  }

  lemma {:induction false} ShapeDepends(g: Graph, h: Graph, v: string, w: string)
    requires SameShape(g, h) && Depends(g, v, w)
    ensures Depends(h, v, w)
  {
    var i :| 0 <= i < |g[v].dependencies| && g[v].dependencies[i].release == w;
    SameMembers(g[v].dependencies, h[v].dependencies);
    assert g[v].dependencies[i] in h[v].dependencies;
  }

  lemma {:induction false} ShapePath(g: Graph, h: Graph, declared: set<string>, p: seq<string>)
    requires SameShape(g, h) && PathFrom(g, declared, p)
    ensures PathFrom(h, declared, p)
  {
    forall i, j | 0 <= i && j == i + 1 && j < |p| ensures Depends(h, p[i], p[j]) { ShapeDepends(g, h, p[i], p[j]); }
  }

  lemma {:induction false} ShapeLocallySound(g: Graph, h: Graph, v: string)
    requires SameShape(g, h) && LocallySound(g, v)
    ensures LocallySound(h, v)
  {
    SameMembers(g[v].dependencies, h[v].dependencies);
    forall i | 0 <= i < |h[v].dependencies| ensures Bound(h, h[v].dependencies[i]) {
      assert h[v].dependencies[i] in g[v].dependencies;
    }
  }

  lemma {:induction false} ShapeKeeps(g: Graph, h: Graph, declared: set<string>, root: string, limit: nat)
    requires SameShape(g, h)
    ensures Structural(g, declared, root) ==> Structural(h, declared, root)
    ensures EveryPathFits(g, declared, limit) ==> EveryPathFits(h, declared, limit)
  {
    ShapeSymmetric(g, h);
    forall p | PathFrom(h, declared, p)
      ensures Structural(g, declared, root) ==> GoodEnd(h, root, p)
      ensures EveryPathFits(g, declared, limit) ==> |p| <= limit
    {
      ShapePath(h, g, declared, p);
      if Structural(g, declared, root) {
        assert GoodEnd(g, root, p);
        ShapeLocallySound(g, h, p[|p| - 1]);
      }
    }
  }

  lemma {:induction false} ArrangedShape(a: seq<Admission>, b: seq<Admission>)
    requires |a| == |b| && forall i :: 0 <= i < |a| ==> SameButOrder(a[i], b[i])
    ensures SameShape(ByRelease(a), ByRelease(b))
  {
    if |a| > 0 {
      ArrangedShape(a[..|a| - 1], b[..|b| - 1]);
      assert SameButOrder(a[|a| - 1], b[|b| - 1]);
    }
  }

  ghost predicate DeclaredWell(g: Graph, d: Dependency) { d.release in g && g[d.release].wellFormed && Bound(g, d) }

  lemma {:induction false} CheckDeclaredExactly(g: Graph, deps: seq<Dependency>)
    ensures CheckDeclared(g, deps).Pass? <==> forall i :: 0 <= i < |deps| ==> DeclaredWell(g, deps[i])
  {
    if |deps| > 0 {
      CheckDeclaredExactly(g, deps[1..]);
      assert forall i :: 1 <= i < |deps| ==> deps[i] == deps[1..][i - 1];
      assert forall i :: 0 <= i < |deps[1..]| ==> deps[1..][i] == deps[i + 1];
    }
  }

  // ----- what the prechecks ask -----

  lemma {:induction false} ByReleaseHolds(admitted: seq<Admission>, v: string)
    ensures v in ByRelease(admitted) <==> exists i :: 0 <= i < |admitted| && admitted[i].release == v
    ensures v in ByRelease(admitted) ==> ByRelease(admitted)[v] in admitted && ByRelease(admitted)[v].release == v
  {
    if |admitted| > 0 {
      var front, last := admitted[..|admitted| - 1], admitted[|admitted| - 1];
      ByReleaseHolds(front, v);
      assert admitted == front + [last];
      if v in ByRelease(front) {
        var i :| 0 <= i < |front| && front[i].release == v;
        assert admitted[i].release == v;
      }
      if v in ByRelease(admitted) { assert v in ByRelease(front) || admitted[|front|].release == v; }
    }
  }

  ghost predicate AdmittedOnce(admitted: seq<Admission>) {
    forall i, j :: 0 <= i < j < |admitted| ==> admitted[i].release != admitted[j].release
  }

  lemma {:induction false} ByReleaseCounts(admitted: seq<Admission>)
    ensures |ByRelease(admitted)| == |admitted| <==> AdmittedOnce(admitted)
  {
    var releases := Map(admitted, (a: Admission) => a.release);
    MembersCount(releases);
    forall v ensures v in ByRelease(admitted) <==> v in releases {
      ByReleaseHolds(admitted, v);
      if i :| 0 <= i < |admitted| && admitted[i].release == v { assert releases[i] == v; }
    }
    assert ByRelease(admitted).Keys == Members(releases);
    assert |ByRelease(admitted).Keys| == |ByRelease(admitted)|;
    if Distinct(releases) {
      forall i, j | 0 <= i < j < |admitted| ensures admitted[i].release != admitted[j].release {
        assert releases[i] != releases[j];
      }
    }
  }

  /** The admission is the one the dependency declares. */
  predicate Declares(d: Dependency, a: Admission) {
    a.release == d.release && a.package == d.package && a.digest == d.digest
  }

  lemma {:induction false} DeclaredWellExactly(admitted: seq<Admission>, d: Dependency)
    requires AdmittedOnce(admitted)
    ensures DeclaredWell(ByRelease(admitted), d) <==>
            exists i :: 0 <= i < |admitted| && admitted[i].wellFormed && Declares(d, admitted[i])
  {
    var g := ByRelease(admitted);
    ByReleaseHolds(admitted, d.release);
    if d.release in g {
      var at :| 0 <= at < |admitted| && admitted[at] == g[d.release];
      assert forall i :: 0 <= i < |admitted| && admitted[i].release == d.release ==> i == at;
    }
  }

  /** The prechecks pass exactly when neither list is longer than the policy allows, no release is admitted
      twice, every declared dependency is admitted, well formed, under its package and digest, and there are as
      many admissions as declarations. */
  lemma {:induction false} PrecheckExactly(deps: seq<Dependency>, admitted: seq<Admission>, maxDependencies: u32)
    ensures Precheck(deps, admitted, maxDependencies).Pass? <==>
            && |deps| <= maxDependencies && |admitted| <= maxDependencies
            && AdmittedOnce(admitted)
            && (forall k :: 0 <= k < |deps| ==>
                  exists i :: 0 <= i < |admitted| && admitted[i].wellFormed && Declares(deps[k], admitted[i]))
            && |admitted| == |deps|
  {
    ByReleaseCounts(admitted);
    CheckDeclaredExactly(ByRelease(admitted), deps);
    if AdmittedOnce(admitted) {
      forall k | 0 <= k < |deps|
        ensures DeclaredWell(ByRelease(admitted), deps[k]) <==>
                exists i :: 0 <= i < |admitted| && admitted[i].wellFormed && Declares(deps[k], admitted[i])
      {
        DeclaredWellExactly(admitted, deps[k]);
      }
    }
  }

  /** What each refusal of the prechecks says of its input. */
  ghost predicate Justified(error: ClosureError, deps: seq<Dependency>, admitted: seq<Admission>, limit: u32) {
    match error
    case TooManyDependencies => |deps| > limit || |admitted| > limit
    case DuplicateAdmission => !AdmittedOnce(admitted)
    case NotAdmitted =>
      exists k :: 0 <= k < |deps| && forall i :: 0 <= i < |admitted| ==> admitted[i].release != deps[k].release
    case InvalidAdmission =>
      exists k, i :: 0 <= k < |deps| && 0 <= i < |admitted| && admitted[i].release == deps[k].release
                     && !admitted[i].wellFormed
    case BindingMismatch =>
      exists k, i :: 0 <= k < |deps| && 0 <= i < |admitted| && admitted[i].release == deps[k].release
                     && !Declares(deps[k], admitted[i])
    case UndeclaredAdmission => |admitted| != |deps|
    case CyclicOrTooDeep => false
    case Incomplete => false
  }

  /** The first declaration that is at fault, and its fault. */
  lemma {:induction false} CheckDeclaredRefuses(g: Graph, deps: seq<Dependency>) returns (k: nat)
    requires CheckDeclared(g, deps).Fail?
    ensures k < |deps|
    ensures CheckDeclared(g, deps).error ==
            if deps[k].release !in g then NotAdmitted
            else if !g[deps[k].release].wellFormed then InvalidAdmission
            else BindingMismatch
    ensures !DeclaredWell(g, deps[k])
  {
    if DeclaredWell(g, deps[0]) {
      k := CheckDeclaredRefuses(g, deps[1..]);
      k := k + 1;
    } else {
      k := 0;
    }
  }

  /** A refusal of the prechecks names a reason that is really there. */
  lemma {:induction false} PrecheckRefusalsAreHonest(
      deps: seq<Dependency>, admitted: seq<Admission>, maxDependencies: u32)
    requires Precheck(deps, admitted, maxDependencies).Fail?
    ensures Justified(Precheck(deps, admitted, maxDependencies).error, deps, admitted, maxDependencies)
  {
    var g := ByRelease(admitted);
    ByReleaseCounts(admitted);
    if CheckDeclared(g, deps).Fail? {
      var k := CheckDeclaredRefuses(g, deps);
      ByReleaseHolds(admitted, deps[k].release);
      if deps[k].release in g {
        var i :| 0 <= i < |admitted| && admitted[i] == g[deps[k].release];
        assert admitted[i].wellFormed ==> !Declares(deps[k], admitted[i]);
      }
    }
  }

  lemma {:induction false} SameReleases(a: seq<Dependency>, b: seq<Dependency>)
    requires multiset(a) == multiset(b)
    ensures Releases(a) == Releases(b) && |a| == |b|
  {
    SameMembers(a, b);
    forall r ensures r in Releases(a) <==> r in Releases(b) {
      if r in Releases(a) { var i :| 0 <= i < |a| && a[i].release == r; assert a[i] in b; }
      if r in Releases(b) { var i :| 0 <= i < |b| && b[i].release == r; assert b[i] in a; }
    }
  }

  lemma {:induction false} ArrangedPrecheck(c: Closure, d: Closure)
    requires Arrangement(c, d) && Precheck(c.deps, c.admitted, c.maxDependencies).Pass?
    ensures Precheck(d.deps, d.admitted, d.maxDependencies).Pass?
    ensures SameShape(ByRelease(c.admitted), ByRelease(d.admitted)) && Releases(c.deps) == Releases(d.deps)
  {
    var g, h := ByRelease(c.admitted), ByRelease(d.admitted);
    ArrangedShape(c.admitted, d.admitted);
    SameReleases(c.deps, d.deps);
    SameMembers(c.deps, d.deps);
    CheckDeclaredExactly(g, c.deps);
    CheckDeclaredExactly(h, d.deps);
    forall i | 0 <= i < |d.deps| ensures DeclaredWell(h, d.deps[i]) {
      assert d.deps[i] in c.deps;
      var j :| 0 <= j < |c.deps| && c.deps[j] == d.deps[i];
      assert DeclaredWell(g, c.deps[j]);
    }
    assert |g.Keys| == |g| && |h.Keys| == |h|;
  }

  // ----- the refused arrangement: the long path first -----

  /** Where `release` is first listed. */
  function Place(deps: seq<Dependency>, release: string): (k: nat)
    requires release in Releases(deps)
    ensures k < |deps| && deps[k].release == release
  {
    if deps[0].release == release then 0
    else
      assert release in Releases(deps[1..]) by {
        var i :| 0 <= i < |deps| && deps[i].release == release;
        assert deps[1..][i - 1].release == release;
      }
      Place(deps[1..], release) + 1
  }

  /** The dependency on `release`, if there is one, moved to the front. */
  function Front(deps: seq<Dependency>, release: string): seq<Dependency> {
    if release !in Releases(deps) then deps
    else
      var k := Place(deps, release);
      [deps[k]] + (deps[..k] + deps[k + 1..])
  }

  lemma {:induction false} FrontKeeps(deps: seq<Dependency>, release: string)
    ensures multiset(Front(deps, release)) == multiset(deps)
  {
    if release in Releases(deps) { ToFrontCounts(deps, Place(deps, release)); }
  }

  /** What follows `v` on the path. */
  function Following(p: seq<string>, v: string): Option<string> {
    if |p| < 2 then None else if p[0] == v then Some(p[1]) else Following(p[1..], v)
  }

  lemma {:induction false} FollowingOf(p: seq<string>, i: nat)
    requires i + 1 < |p| && Distinct(p)
    ensures Following(p, p[i]) == Some(p[i + 1])
  {
    if i > 0 {
      assert p[0] != p[i];
      FollowingOf(p[1..], i - 1);
    }
  }

  function AlongFirst(p: seq<string>, a: Admission): Admission {
    match Following(p, a.release)
    case None => a
    case Some(next) => a.(dependencies := Front(a.dependencies, next))
  }

  lemma {:induction false} ByReleaseKeyed(admitted: seq<Admission>, v: string)
    requires v in ByRelease(admitted)
    ensures ByRelease(admitted)[v].release == v
  {
    if |admitted| > 0 && admitted[|admitted| - 1].release != v { ByReleaseKeyed(admitted[..|admitted| - 1], v); }
  }

  lemma {:induction false} ByReleaseMap(admitted: seq<Admission>, p: seq<string>, v: string)
    ensures v in ByRelease(Map(admitted, (a: Admission) => AlongFirst(p, a))) <==> v in ByRelease(admitted)
    ensures v in ByRelease(admitted) ==>
              ByRelease(Map(admitted, (a: Admission) => AlongFirst(p, a)))[v] == AlongFirst(p, ByRelease(admitted)[v])
  {
    if |admitted| > 0 {
      var front, first := admitted[..|admitted| - 1], (a: Admission) => AlongFirst(p, a);
      assert Map(admitted, first)[..|admitted| - 1] == Map(front, first);
      ByReleaseMap(front, p, v);
    }
  }

  /** Each release on the path has the next one first in its list. */
  ghost predicate LeadsAlong(h: Graph, p: seq<string>) {
    forall i :: 0 <= i < |p| - 1 ==>
      p[i] in h && |h[p[i]].dependencies| > 0 && h[p[i]].dependencies[0].release == p[i + 1]
  }

  lemma {:induction false} FirstFails(
      h: Graph, root: string, limit: u32, deps: seq<Dependency>, depth: u32, visiting: set<string>,
      visited: set<string>)
    requires |deps| > 0 && Visit(h, root, limit, deps[0].release, depth, visiting, visited).Err?
    ensures VisitAll(h, root, limit, deps, depth, visiting, visited).Err?
  {
  }

  /** A search that follows the path with nothing memoised runs into the limit, or fails before. */
  lemma {:induction false} LeadingSearchFails(h: Graph, root: string, limit: u32, p: seq<string>, i: nat)
    requires LeadsAlong(h, p) && limit < |p| <= U32_MAX && i <= limit
    ensures Visit(h, root, limit, p[i], i + 1, Members(p[..i]), {}).Err?
    decreases |p| - i
  {
    var v, stack := p[i], Members(p[..i]);
    if i + 1 <= limit && v != root && v !in stack {
      assert v in h && h[v].dependencies[0].release == p[i + 1];
      LeadingSearchFails(h, root, limit, p, i + 1);
      assert p[..i + 1] == p[..i] + [v];
      MembersSnoc(p[..i], v);
      FirstFails(h, root, limit, h[v].dependencies, i + 2, stack + {v}, {});
    }
  }

  lemma {:induction false} PathIsDistinct(g: Graph, declared: set<string>, root: string, p: seq<string>)
    requires Structural(g, declared, root) && PathFrom(g, declared, p)
    ensures Distinct(p)
  {
    forall i, j | 0 <= i < j < |p| ensures p[i] != p[j] {
      var q := p[..j + 1];
      assert PathFrom(g, declared, q) by {
        forall a, b | 0 <= a && b == a + 1 && b < |q| ensures Depends(g, q[a], q[b]) { assert Depends(g, p[a], p[b]); }
      }
      assert GoodEnd(g, root, q);
      assert q[..j][i] == p[i];
    }
  }

  function PathFirst(c: Closure, p: seq<string>): Closure
    requires |p| > 0
  {
    c.(deps := Front(c.deps, p[0]), admitted := Map(c.admitted, (a: Admission) => AlongFirst(p, a)))
  }

  lemma {:induction false} PathFirstIsArrangement(c: Closure, p: seq<string>)
    requires |p| > 0
    ensures Arrangement(c, PathFirst(c, p))
  {
    FrontKeeps(c.deps, p[0]);
    forall i | 0 <= i < |c.admitted| ensures SameButOrder(c.admitted[i], PathFirst(c, p).admitted[i]) {
      var a := c.admitted[i];
      if Following(p, a.release).Some? { FrontKeeps(a.dependencies, Following(p, a.release).value); }
    }
  }

  lemma {:induction false} PathFirstLeads(c: Closure, p: seq<string>)
    requires Sound(c) && PathFrom(ByRelease(c.admitted), Releases(c.deps), p)
    ensures LeadsAlong(ByRelease(PathFirst(c, p).admitted), p)
  {
    var g := ByRelease(c.admitted);
    PathIsDistinct(g, Releases(c.deps), c.root, p);
    var h := ByRelease(PathFirst(c, p).admitted);
    forall i | 0 <= i < |p| - 1
      ensures p[i] in h && |h[p[i]].dependencies| > 0 && h[p[i]].dependencies[0].release == p[i + 1]
    {
      assert Depends(g, p[i], p[i + 1]);
      ByReleaseMap(c.admitted, p, p[i]);
      ByReleaseKeyed(c.admitted, p[i]);
      FollowingOf(p, i);
      assert p[i + 1] in Releases(g[p[i]].dependencies);
    }
  }

  /** Putting a path that is too long first makes the check refuse. */
  lemma {:induction false} LongPathFirstIsRefused(c: Closure, limit: u32, p: seq<string>)
    requires Sound(c) && PathFrom(ByRelease(c.admitted), Releases(c.deps), p) && limit < |p|
    ensures Arrangement(c, PathFirst(c, p)) && Verdict(PathFirst(c, p), limit).Fail?
  {
    var d := PathFirst(c, p);
    var h := ByRelease(d.admitted);
    PathFirstIsArrangement(c, p);
    ArrangedPrecheck(c, d);
    PathFirstLeads(c, p);
    SoundPathsAreDistinct(ByRelease(c.admitted), Releases(c.deps), c.root, p);
    assert p[..0] == [] && Members<string>([]) == {};
    LeadingSearchFails(h, c.root, limit, p, 0);
    assert d.deps[0].release == p[0];
  }

  /** A sound closure is accepted in every arrangement exactly when every path fits the limit. */
  lemma {:induction false} EveryArrangementPassesExactly(c: Closure, limit: u32)
    requires Sound(c)
    ensures EveryArrangementPasses(c, limit) <==> Fits(c, limit)
  {
    if Fits(c, limit) {
      forall d | Arrangement(c, d) ensures Verdict(d, limit).Pass? {
        ArrangedPrecheck(c, d);
        ShapeKeeps(ByRelease(c.admitted), ByRelease(d.admitted), Releases(c.deps), c.root, limit);
        SoundShallowClosureIsAccepted(d.deps, d.admitted, d.root, d.maxDependencies, limit);
      }
    } else {
      var p :| PathFrom(ByRelease(c.admitted), Releases(c.deps), p) && limit < |p|;
      LongPathFirstIsRefused(c, limit, p);
    }
  }

  // ----- the accepted arrangement: dependencies first -----

  /** Every release comes after everything it depends on. */
  ghost predicate InDependencyOrder(g: Graph, root: string, order: seq<string>) {
    && Distinct(order)
    && forall i :: 0 <= i < |order| ==>
         order[i] != root && LocallySound(g, order[i]) && DependsOnlyOn(g, order[i], order[..i])
  }

  /** The releases of a sound closure in dependency order. */
  lemma {:induction false} DependencyOrder(c: Closure) returns (order: seq<string>)
    requires Sound(c)
    ensures InDependencyOrder(ByRelease(c.admitted), c.root, order)
    ensures forall r :: r in Releases(c.deps) ==> r in order
  {
    var g, declared := ByRelease(c.admitted), Releases(c.deps);
    DeepLimitDecidesExactly(c.deps, c.admitted, c.root, c.maxDependencies, U32_MAX);
    assert Members<string>([]) == {};
    order := AcceptedWalkMemoises(g, declared, c.root, U32_MAX, c.deps, []);
    forall i | 0 <= i < |order|
      ensures order[i] != c.root && LocallySound(g, order[i]) && DependsOnlyOn(g, order[i], order[..i])
    {
      assert Memoised(g, declared, c.root, U32_MAX, order[i]);
      assert DependsOnlyOn(g, order[i], order[..i]);
    }
  }

  /** Without repeated declarations the order lists exactly the declared releases. */
  lemma {:induction false} DeclaredOrder(c: Closure) returns (order: seq<string>)
    requires Sound(c) && DeclaredOnce(c.deps)
    ensures InDependencyOrder(ByRelease(c.admitted), c.root, order)
    ensures forall r :: r in order <==> r in Releases(c.deps)
  {
    CountCheckExcludesUndeclaredExactly(c.deps, c.admitted, c.maxDependencies);
    order := DependencyOrder(c);
    forall r | r in order ensures r in Releases(c.deps) {
      var i :| 0 <= i < |order| && order[i] == r;
      assert LocallySound(ByRelease(c.admitted), order[i]);
    }
  }

  function PickAll(deps: seq<Dependency>, order: seq<string>): (r: seq<Dependency>)
    requires forall i :: 0 <= i < |order| ==> order[i] in Releases(deps)
    ensures |r| == |order| && forall i :: 0 <= i < |r| ==> r[i] in deps && r[i].release == order[i]
  {
    seq(|order|, i requires 0 <= i < |order| => deps[Place(deps, order[i])])
  }

  /** The declarations in dependency order are a rearrangement of the declarations. */
  lemma {:induction false} PickedAreAll(deps: seq<Dependency>, order: seq<string>)
    requires DeclaredOnce(deps) && Distinct(order)
    requires forall r :: r in order <==> r in Releases(deps)
    ensures multiset(PickAll(deps, order)) == multiset(deps)
  {
    var picked := PickAll(deps, order);
    forall i, j | 0 <= i < j < |picked| ensures picked[i] != picked[j] { assert order[i] != order[j]; }
    forall i, j | 0 <= i < j < |deps| ensures deps[i] != deps[j] { assert deps[i].release != deps[j].release; }
    forall d | d in deps ensures d in picked {
      var i :| 0 <= i < |deps| && deps[i] == d;
      assert d.release in Releases(deps);
      var j :| 0 <= j < |order| && order[j] == d.release;
      var k :| 0 <= k < |deps| && deps[k] == picked[j];
      assert i == k;
    }
    DistinctSameMembers(picked, deps);
  }

  /** With everything below already memoised, a visit below the limit goes one step deeper and no further. */
  lemma {:induction false} MemoisedListPasses(
      g: Graph, root: string, limit: u32, deps: seq<Dependency>, depth: u32, visiting: set<string>,
      visited: set<string>)
    requires depth <= limit
    requires forall i :: 0 <= i < |deps| ==>
               Bound(g, deps[i]) && deps[i].release != root && deps[i].release in visited
                 && deps[i].release !in visiting
    ensures VisitAll(g, root, limit, deps, depth, visiting, visited) == Ok(visited)
    decreases |deps|
  {
    if |deps| > 0 {
      assert forall i :: 0 <= i < |deps[1..]| ==> deps[1..][i] == deps[i + 1];
      MemoisedListPasses(g, root, limit, deps[1..], depth, visiting, visited);
    }
  }

  lemma {:induction false} OrderedVisitPasses(g: Graph, root: string, limit: u32, order: seq<string>, i: nat)
    requires InDependencyOrder(g, root, order) && i < |order| && limit >= 2
    ensures Visit(g, root, limit, order[i], 1, {}, Members(order[..i])) == Ok(Members(order[..i + 1]))
  {
    var v, seen := order[i], Members(order[..i]);
    assert LocallySound(g, v) && DependsOnlyOn(g, v, order[..i]);
    forall k | 0 <= k < |g[v].dependencies|
      ensures var d := g[v].dependencies[k];
              Bound(g, d) && d.release != root && d.release in seen && d.release !in {} + {v}
    {
      assert Depends(g, v, g[v].dependencies[k].release);
      var j :| 0 <= j < i && order[..i][j] == g[v].dependencies[k].release;
      assert order[j] != order[i] && order[j] != root;
    }
    StackGrows(g, {}, v);
    MemoisedListPasses(g, root, limit, g[v].dependencies, 2, {} + {v}, seen);
    assert order[..i + 1] == order[..i] + [v];
    MembersSnoc(order[..i], v);
    assert v !in seen;
  }

  lemma {:induction false} OrderedWalkPasses(
      g: Graph, root: string, limit: u32, order: seq<string>, deps: seq<Dependency>, i: nat)
    requires InDependencyOrder(g, root, order) && limit >= 2 && |deps| == |order| && i <= |order|
    requires forall k :: 0 <= k < |deps| ==> deps[k].release == order[k]
    ensures WalkDeclared(g, root, limit, deps[i..], Members(order[..i])).Pass?
    decreases |order| - i
  {
    if i < |order| {
      OrderedVisitPasses(g, root, limit, order, i);
      assert deps[i..][0] == deps[i] && deps[i..][1..] == deps[i + 1..];
      OrderedWalkPasses(g, root, limit, order, deps, i + 1);
    }
  }

  /** When no release is declared twice, listing dependencies first gets a sound closure accepted at any
      limit from two on, however long its paths are. */
  lemma {:induction false} DependenciesFirstIsAccepted(c: Closure, limit: u32)
    requires Sound(c) && DeclaredOnce(c.deps) && limit >= 2
    ensures SomeArrangementPasses(c, limit)
  {
    var g := ByRelease(c.admitted);
    var order := DeclaredOrder(c);
    PickedAreAll(c.deps, order);
    var d := c.(deps := PickAll(c.deps, order));
    assert Arrangement(c, d);
    ArrangedPrecheck(c, d);
    assert order[..0] == [] && Members<string>([]) == {} && d.deps[0..] == d.deps;
    OrderedWalkPasses(g, c.root, limit, order, d.deps, 0);
    assert Verdict(d, limit).Pass?;
  }

  // ----- limits below two -----

  /** Below two, a release that is visited and not yet memoised has no dependencies. */
  lemma {:induction false} LeafOnlyVisit(g: Graph, root: string, limit: u32, v: string, visited: set<string>)
    requires limit < 2 && Visit(g, root, limit, v, 1, {}, visited).Ok? && v !in visited
    ensures limit == 1 && v in g && g[v].dependencies == []
    ensures Visit(g, root, limit, v, 1, {}, visited) == Ok(visited + {v})
  {
    StackGrows(g, {}, v);
    if |g[v].dependencies| > 0 { FirstFails(g, root, limit, g[v].dependencies, 2, {} + {v}, visited); }
  }

  lemma {:induction false} LeafOnlyWalk(g: Graph, root: string, limit: u32, deps: seq<Dependency>, visited: set<string>)
    requires limit < 2 && WalkDeclared(g, root, limit, deps, visited).Pass?
    requires forall v :: v in visited ==> v in g && g[v].dependencies == []
    ensures |deps| > 0 ==> limit == 1
    ensures forall i :: 0 <= i < |deps| ==> deps[i].release in g && g[deps[i].release].dependencies == []
    decreases |deps|
  {
    if |deps| > 0 {
      var v := deps[0].release;
      if v !in visited { LeafOnlyVisit(g, root, limit, v, visited); }
      LeafOnlyWalk(g, root, limit, deps[1..], Visit(g, root, limit, v, 1, {}, visited).value);
      assert forall i :: 1 <= i < |deps| ==> deps[i] == deps[1..][i - 1];
    }
  }

  lemma {:induction false} LeafEndsChain(g: Graph, p: seq<string>)
    requires IsChain(g, p) && |p| >= 1 && p[0] in g
    ensures |p| > 1 ==> |g[p[0]].dependencies| > 0
  {
    if |p| > 1 { assert Depends(g, p[0], p[1]); }
  }

  /** Below two the limit leaves no room: what is accepted has no path longer than it. */
  lemma {:induction false} SmallLimitBoundsEveryPath(c: Closure, limit: u32)
    requires Verdict(c, limit).Pass? && limit < 2
    ensures Fits(c, limit)
  {
    var g, declared := ByRelease(c.admitted), Releases(c.deps);
    LeafOnlyWalk(g, c.root, limit, c.deps, {});
    forall p | PathFrom(g, declared, p) ensures |p| <= limit {
      var i :| 0 <= i < |c.deps| && c.deps[i].release == p[0];
      LeafEndsChain(g, p);
    }
  }

  /** For a sound closure that declares no release twice, the order of the lists decides the verdict exactly
      when the limit is at least two and some path is longer than it. */
  lemma {:induction false} ArrangementDecidesExactly(c: Closure, limit: u32)
    requires Sound(c) && DeclaredOnce(c.deps)
    ensures SomeArrangementPasses(c, limit) && !EveryArrangementPasses(c, limit) <==> limit >= 2 && !Fits(c, limit)
  {
    EveryArrangementPassesExactly(c, limit);
    if limit >= 2 {
      DependenciesFirstIsAccepted(c, limit);
    } else if SomeArrangementPasses(c, limit) {
      var d :| Arrangement(c, d) && Verdict(d, limit).Pass?;
      SmallLimitBoundsEveryPath(d, limit);
      ArrangedBack(c, d, limit);
    }
  }

  lemma {:induction false} ArrangedBack(c: Closure, d: Closure, limit: u32)
    requires Sound(c) && Arrangement(c, d) && Fits(d, limit)
    ensures Fits(c, limit)
  {
    ArrangedPrecheck(c, d);
    ShapeSymmetric(ByRelease(c.admitted), ByRelease(d.admitted));
    ShapeKeeps(ByRelease(d.admitted), ByRelease(c.admitted), Releases(c.deps), c.root, limit);
  }
}
