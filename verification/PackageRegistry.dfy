/** The package registry: archived releases, one active release a package, fenced by generations,
    mirrored into the capability index. */
module PackageRegistry {
  import opened Common
  import opened Scopes
  import opened CapabilityIndex

  datatype Contribution = Contribution(capability: string, kind: string, permissions: seq<string>, risk: nat)

  /** `wellFormed` is the verdict of the package's own validation. */
  datatype Package = Package(
    wellFormed: bool,
    package: string,
    release: string,
    digest: string,
    scope: string,
    contributions: seq<Contribution>,
    body: string)

  datatype Staged = Staged(package: string, release: string, digest: string, source: Source)

  datatype ActiveSource = ActiveSource(release: string, source: string, generation: u64)

  datatype RegistryError =
    | InvalidPackage
    | EmptySource
    | ChangedContent
    | ZeroGeneration
    | StaleGeneration
    | NoLifecycle
    | IndexRefused(error: IndexError)

  /** The registry together with the index it shares. `installed` remembers what each active
      source was staged as. */
  datatype Registry = Registry(
    archived: map<string, Package>,
    active: map<string, ActiveSource>,
    generations: map<string, u64>,
    index: Index,
    installed: map<string, Staged>)

  const EMPTY := Registry(map[], map[], map[], map[], map[])

  // ----- operations -----

  const ECOSYSTEM := "ecosystem:"

  function SourceRef(package: string, release: string): string { ECOSYSTEM + package + ":" + release }

  predicate IsEcosystem(source: string) { StartsWith(source, ECOSYSTEM) }

  function AsDescriptor(p: Package, c: Contribution): Descriptor {
    Descriptor(1, c.capability, c.kind + "/" + c.capability, p.scope, c.permissions, Some(c.risk), true)
  }

  function AsSource(p: Package): Source {
    Source(1, SourceRef(p.package, p.release), "approved",
           seq(|p.contributions|, i requires 0 <= i < |p.contributions| => AsDescriptor(p, p.contributions[i])))
  }

  function Stage(p: Package): Result<Staged, RegistryError> {
    if !p.wellFormed then Err(InvalidPackage)
    else if |p.contributions| == 0 then Err(EmptySource)
    else Ok(Staged(p.package, p.release, p.digest, AsSource(p)))
  }

  function Archive(s: Registry, p: Package): Result<(Registry, bool), RegistryError> {
    if !p.wellFormed then Err(InvalidPackage)
    else if p.release !in s.archived then Ok((s.(archived := s.archived[p.release := p]), true))
    else if s.archived[p.release] == p then Ok((s, false))
    else Err(ChangedContent)
  }

  /** The only generation a package with generation `previous` accepts next. */
  function NextGeneration(previous: u64): u64 { if previous < U64_MAX then previous + 1 else 0 }

  function ManagedSources(s: Registry, package: string, source: string): set<string> {
    {source} + if package in s.active then {s.active[package].source} else {}
  }

  /** Enabling takes any staged value, whatever staged it. */
  function EnableStaged(s: Registry, staged: Staged, generation: u64): Result<Registry, RegistryError> {
    if generation == 0 then Err(ZeroGeneration)
    else if staged.package in s.generations && generation != NextGeneration(s.generations[staged.package]) then
      Err(StaleGeneration)
    else
      var replaced := Replace(s.index, ManagedSources(s, staged.package, staged.source.sourceRef), [staged.source]);
      if replaced.Err? then Err(IndexRefused(replaced.error))
      else Ok(s.(index := replaced.value,
                 generations := s.generations[staged.package := generation],
                 active := s.active[staged.package := ActiveSource(staged.release, staged.source.sourceRef,
                                                                   generation)],
                 installed := s.installed[staged.package := staged]))
  }

  /** Stages `p` and enables the result. */
  function Enable(s: Registry, p: Package, generation: u64): Result<Registry, RegistryError> {
    match Stage(p)
    case Err(e) => Err(e)
    case Ok(staged) => EnableStaged(s, staged, generation)
  }

  function Deactivate(s: Registry, package: string): Registry {
    if package !in s.active then s
    else s.(index := Without(s.index, {s.active[package].source}), active := s.active - {package},
            installed := s.installed - {package})
  }

  function Disable(s: Registry, package: string, generation: u64): Result<(Registry, bool), RegistryError> {
    if package !in s.generations then Err(NoLifecycle)
    else if generation != NextGeneration(s.generations[package]) then Err(StaleGeneration)
    else Ok((Deactivate(s, package).(generations := s.generations[package := generation]), package in s.active))
  }

  function Fence(s: Registry, package: string): (Registry, bool) {
    (Deactivate(s, package), package in s.active)
  }

  // ----- runs -----

  /** `Foreign` is anything done to the shared index outside the ecosystem sources. */
  datatype Op =
    | DoArchive(p: Package)
    | DoEnable(p: Package, generation: u64)
    | DoDisable(package: string, generation: u64)
    | DoFence(package: string)
    | Foreign(elsewhere: Index)

  function Splice(ours: Index, theirs: Index): Index {
    (map k | k in ours && IsEcosystem(k.1) :: ours[k]) + (map k | k in theirs && !IsEcosystem(k.1) :: theirs[k])
  }

  function Step(s: Registry, op: Op): Registry {
    match op
    case DoArchive(p) => (match Archive(s, p) case Ok(r) => r.0 case Err(_) => s)
    case DoEnable(p, generation) => (match Enable(s, p, generation) case Ok(t) => t case Err(_) => s)
    case DoDisable(package, generation) => (match Disable(s, package, generation) case Ok(r) => r.0 case Err(_) => s)
    case DoFence(package) => Fence(s, package).0
    case Foreign(elsewhere) => s.(index := Splice(s.index, elsewhere))
  }

  function Run(s: Registry, ops: seq<Op>): Registry
    decreases |ops|
  {
    if |ops| == 0 then s else Run(Step(s, ops[0]), ops[1..])
  }

  // ----- coherence -----

  /** The active release of `q` contributes `v` under key `k`. */
  ghost predicate OfferedBy(s: Registry, q: string, k: (string, string), v: Indexed) {
    q in s.active && q in s.installed && OffersOne(s.installed[q].source, s.installed[q].source.entries, k, v)
  }

  /** For ecosystem sources, the index holds exactly what the active releases contribute. */
  ghost predicate Mirrors(s: Registry) {
    forall k: (string, string), v {:trigger Holds(s.index, k, v)} :: IsEcosystem(k.1) ==>
      (Holds(s.index, k, v) <==> exists q :: OfferedBy(s, q, k, v))
  }

  ghost predicate StagedFromPackage(staged: Staged) { exists p :: Stage(p) == Ok(staged) }

  /** Each active entry is what some package of that name and release was staged as, at its generation. */
  ghost predicate Anchored(s: Registry, p: string) {
    && p in s.installed && p in s.active && p in s.generations
    && StagedFromPackage(s.installed[p])
    && s.installed[p].package == p
    && s.installed[p].release == s.active[p].release
    && s.installed[p].source.sourceRef == s.active[p].source
    && s.active[p].source == SourceRef(p, s.active[p].release)
    && s.generations[p] == s.active[p].generation
  }

  /** Two packages never share a source reference. */
  ghost predicate SeparateSources(names: set<(string, string)>) {
    forall a, b :: a in names && b in names && SourceRef(a.0, a.1) == SourceRef(b.0, b.1) ==> a.0 == b.0
  }

  ghost predicate Coherent(s: Registry, names: set<(string, string)>) {
    && s.active.Keys == s.installed.Keys
    && (forall p {:trigger Anchored(s, p)} :: p in s.active ==> Anchored(s, p))
    && (forall p :: p in s.active ==> (p, s.active[p].release) in names)
    && Mirrors(s)
  }

  ghost predicate NamesOf(ops: seq<Op>, names: set<(string, string)>) {
    forall i :: 0 <= i < |ops| && ops[i].DoEnable? ==> (ops[i].p.package, ops[i].p.release) in names
  }

  lemma {:induction false} EcosystemSource(package: string, release: string)
    ensures IsEcosystem(SourceRef(package, release))
  {
    assert SourceRef(package, release) == ECOSYSTEM + (package + ":" + release);
  }

  /** What another package contributes lies outside the sources that enabling `p` replaces. */
  lemma {:induction false} OthersElsewhere(
      s: Registry, p: Package, names: set<(string, string)>, q: string, k: (string, string), v: Indexed)
    requires SeparateSources(names) && Coherent(s, names) && (p.package, p.release) in names
    requires OfferedBy(s, q, k, v) && q != p.package
    ensures k.1 !in ManagedSources(s, p.package, SourceRef(p.package, p.release))
  {
    assert Anchored(s, q);
    OffersUnderOwnSource(s.installed[q].source, k, v);
    assert (q, s.active[q].release) in names;
    if p.package in s.active {
      assert Anchored(s, p.package);
      assert (p.package, s.active[p.package].release) in names;
    }
  }

  lemma {:induction false} EnableMirrors(
      s: Registry, p: Package, generation: u64, names: set<(string, string)>, k: (string, string), v: Indexed,
      t: Registry)
    requires SeparateSources(names) && Coherent(s, names) && (p.package, p.release) in names
    requires Enable(s, p, generation) == Ok(t) && IsEcosystem(k.1)
    ensures Holds(t.index, k, v) <==> exists q :: OfferedBy(t, q, k, v)
  {
    if Holds(t.index, k, v) { HeldIsOffered(s, p, generation, names, k, v, t); }
    if q :| OfferedBy(t, q, k, v) { OfferedIsHeld(s, p, generation, names, k, v, t, q); }
  }

  lemma {:induction false} HeldIsOffered(
      s: Registry, p: Package, generation: u64, names: set<(string, string)>, k: (string, string), v: Indexed,
      t: Registry)
    requires SeparateSources(names) && Coherent(s, names) && (p.package, p.release) in names
    requires Enable(s, p, generation) == Ok(t) && IsEcosystem(k.1) && Holds(t.index, k, v)
    ensures exists q :: OfferedBy(t, q, k, v)
  {
    ReplacedByOne(s.index, ManagedSources(s, p.package, AsSource(p).sourceRef), AsSource(p), k, v);
    HeldComesFrom(s, p, names, k, v, t);
  }

  lemma {:induction false} HeldComesFrom(
      s: Registry, p: Package, names: set<(string, string)>, k: (string, string), v: Indexed, t: Registry)
    requires Coherent(s, names) && IsEcosystem(k.1)
    requires OffersOne(AsSource(p), AsSource(p).entries, k, v)
             || (Holds(s.index, k, v) && k.1 !in ManagedSources(s, p.package, SourceRef(p.package, p.release)))
    requires p.package in t.active && p.package in t.installed && t.installed[p.package].source == AsSource(p)
    requires forall q :: q != p.package && q in s.active ==> q in t.active
    requires forall q :: q != p.package && q in s.installed ==> q in t.installed && t.installed[q] == s.installed[q]
    ensures exists q :: OfferedBy(t, q, k, v)
  {
    if OffersOne(AsSource(p), AsSource(p).entries, k, v) {
      assert OfferedBy(t, p.package, k, v);
    } else {
      OldEntrySurvives(s, p, names, k, v, t);
    }
  }

  lemma {:induction false} OfferedIsHeld(
      s: Registry, p: Package, generation: u64, names: set<(string, string)>, k: (string, string), v: Indexed,
      t: Registry, q: string)
    requires SeparateSources(names) && Coherent(s, names) && (p.package, p.release) in names
    requires Enable(s, p, generation) == Ok(t) && IsEcosystem(k.1) && OfferedBy(t, q, k, v)
    ensures Holds(t.index, k, v)
  {
    ReplacedByOne(s.index, ManagedSources(s, p.package, AsSource(p).sourceRef), AsSource(p), k, v);
    if q != p.package {
      assert OfferedBy(s, q, k, v);
      OthersElsewhere(s, p, names, q, k, v);
    }
  }

  lemma {:induction false} OldEntrySurvives(
      s: Registry, p: Package, names: set<(string, string)>, k: (string, string), v: Indexed, t: Registry)
    requires Coherent(s, names) && Holds(s.index, k, v) && IsEcosystem(k.1)
    requires k.1 !in ManagedSources(s, p.package, SourceRef(p.package, p.release))
    requires forall q :: q != p.package && q in s.active ==> q in t.active
    requires forall q :: q != p.package && q in s.installed ==> q in t.installed && t.installed[q] == s.installed[q]
    ensures exists q :: OfferedBy(t, q, k, v)
  {
    var q :| OfferedBy(s, q, k, v);
    assert Anchored(s, q);
    OffersUnderOwnSource(s.installed[q].source, k, v);
    assert OfferedBy(t, q, k, v);
  }

  lemma {:induction false} EnableAnchors(
      s: Registry, p: Package, generation: u64, names: set<(string, string)>, t: Registry)
    requires Coherent(s, names) && Enable(s, p, generation) == Ok(t)
    ensures forall q {:trigger Anchored(t, q)} :: q in t.active ==> Anchored(t, q)
  {
    forall q | q in t.active ensures Anchored(t, q) {
      if q != p.package { assert Anchored(s, q); }
    }
  }

  lemma {:induction false} EnableKeeps(s: Registry, p: Package, generation: u64, names: set<(string, string)>)
    requires SeparateSources(names) && Coherent(s, names) && (p.package, p.release) in names
    requires Enable(s, p, generation).Ok?
    ensures Coherent(Enable(s, p, generation).value, names)
  {
    var t := Enable(s, p, generation).value;
    EnableAnchors(s, p, generation, names, t);
    forall k: (string, string), v | IsEcosystem(k.1)
      ensures Holds(t.index, k, v) <==> exists q :: OfferedBy(t, q, k, v)
    {
      EnableMirrors(s, p, generation, names, k, v, t);
    }
  }

  lemma {:induction false} DeactivateKeeps(s: Registry, package: string, names: set<(string, string)>)
    requires SeparateSources(names) && Coherent(s, names)
    ensures Coherent(Deactivate(s, package), names)
  {
    if package in s.active {
      var t := Deactivate(s, package);
      assert Anchored(s, package);
      forall q | q in t.active ensures Anchored(t, q) { assert Anchored(s, q); }
      forall k: (string, string), v | IsEcosystem(k.1)
        ensures Holds(t.index, k, v) <==> exists q :: OfferedBy(t, q, k, v)
      {
        assert Holds(t.index, k, v) <==> Holds(s.index, k, v) && k.1 != s.active[package].source;
        if Holds(t.index, k, v) {
          var q :| OfferedBy(s, q, k, v);
          assert Anchored(s, q);
          OffersUnderOwnSource(s.installed[q].source, k, v);
          assert OfferedBy(t, q, k, v);
        }
        if q :| OfferedBy(t, q, k, v) {
          assert OfferedBy(s, q, k, v) && Anchored(s, q);
          OffersUnderOwnSource(s.installed[q].source, k, v);
        }
      }
    }
  }

  lemma {:induction false} StepKeeps(s: Registry, op: Op, names: set<(string, string)>)
    requires SeparateSources(names) && Coherent(s, names) && NamesOf([op], names)
    ensures Coherent(Step(s, op), names)
  {
    assert [op][0] == op;
    var t := Step(s, op);
    match op
    case DoArchive(_) => SameIndexStaysCoherent(s, t, names);
    case DoEnable(p, generation) => if Enable(s, p, generation).Ok? { EnableKeeps(s, p, generation, names); }
    case DoDisable(package, generation) =>
      DeactivateKeeps(s, package, names);
      if Disable(s, package, generation).Ok? {
        RegeneratedStaysCoherent(Deactivate(s, package), package, generation, names);
        assert Deactivate(s, package).generations == s.generations;
      }
    case DoFence(package) => DeactivateKeeps(s, package, names);
    case Foreign(elsewhere) => SplicedStaysCoherent(s, elsewhere, names);
  }

  lemma {:induction false} SameIndexStaysCoherent(s: Registry, t: Registry, names: set<(string, string)>)
    requires Coherent(s, names)
    requires t.active == s.active && t.installed == s.installed && t.index == s.index && t.generations == s.generations
    ensures Coherent(t, names)
  {
    forall q | q in t.active ensures Anchored(t, q) { assert Anchored(s, q); }
    forall k: (string, string), v | IsEcosystem(k.1)
      ensures Holds(t.index, k, v) <==> exists q :: OfferedBy(t, q, k, v)
    {
      assert forall q :: OfferedBy(t, q, k, v) <==> OfferedBy(s, q, k, v);
      assert Holds(s.index, k, v) <==> Holds(t.index, k, v);
    }
  }

  lemma {:induction false} RegeneratedStaysCoherent(
      s: Registry, package: string, generation: u64, names: set<(string, string)>)
    requires Coherent(s, names) && package !in s.active
    ensures Coherent(s.(generations := s.generations[package := generation]), names)
  {
    var t := s.(generations := s.generations[package := generation]);
    forall q | q in t.active ensures Anchored(t, q) { assert Anchored(s, q); }
    forall k: (string, string), v | IsEcosystem(k.1)
      ensures Holds(t.index, k, v) <==> exists q :: OfferedBy(t, q, k, v)
    {
      assert forall q :: OfferedBy(t, q, k, v) <==> OfferedBy(s, q, k, v);
      assert Holds(s.index, k, v) <==> Holds(t.index, k, v);
    }
  }

  lemma {:induction false} SplicedStaysCoherent(s: Registry, elsewhere: Index, names: set<(string, string)>)
    requires Coherent(s, names)
    ensures Coherent(s.(index := Splice(s.index, elsewhere)), names)
  {
    var t := s.(index := Splice(s.index, elsewhere));
    forall q | q in t.active ensures Anchored(t, q) { assert Anchored(s, q); }
    forall k: (string, string), v | IsEcosystem(k.1)
      ensures Holds(t.index, k, v) <==> exists q :: OfferedBy(t, q, k, v)
    {
      assert forall q :: OfferedBy(t, q, k, v) <==> OfferedBy(s, q, k, v);
      assert Holds(s.index, k, v) <==> Holds(t.index, k, v);
    }
  }

  lemma {:induction false} RunKeeps(s: Registry, ops: seq<Op>, names: set<(string, string)>)
    requires SeparateSources(names) && Coherent(s, names) && NamesOf(ops, names)
    ensures Coherent(Run(s, ops), names)
    decreases |ops|
  {
    if |ops| > 0 {
      assert NamesOf([ops[0]], names) && NamesOf(ops[1..], names);
      StepKeeps(s, ops[0], names);
      RunKeeps(Step(s, ops[0]), ops[1..], names);
    }
  }

  // ----- source references -----

  lemma {:induction false} ShorterNameMeetsColon(p: string, r: string, q: string, t: string)
    requires SourceRef(p, r) == SourceRef(q, t) && |p| < |q|
    ensures ':' in q
  {
    var x, y, n := SourceRef(p, r), SourceRef(q, t), |ECOSYSTEM|;
    assert x[n + |p|] == ':' && y[n + |p|] == q[|p|];
  }

  lemma {:induction false} SameLengthNamesAgree(p: string, r: string, q: string, t: string)
    requires SourceRef(p, r) == SourceRef(q, t) && |p| == |q|
    ensures p == q
  {
    var x, y, n := SourceRef(p, r), SourceRef(q, t), |ECOSYSTEM|;
    assert x[n..n + |p|] == p && y[n..n + |q|] == q;
  }

  /** References separate packages as soon as no package name holds a colon. */
  lemma {:induction false} ColonFreeNamesAreSeparate(names: set<(string, string)>)
    requires forall a :: a in names ==> ':' !in a.0
    ensures SeparateSources(names)
  {
    forall a, b | a in names && b in names && SourceRef(a.0, a.1) == SourceRef(b.0, b.1) ensures a.0 == b.0 {
      if |a.0| < |b.0| {
        ShorterNameMeetsColon(a.0, a.1, b.0, b.1);
      } else if |b.0| < |a.0| {
        ShorterNameMeetsColon(b.0, b.1, a.0, a.1);
      } else {
        SameLengthNamesAgree(a.0, a.1, b.0, b.1);
      }
    }
  }

  function Sample(package: string, release: string, capability: string): Package {
    Package(true, package, release, "digest", "scope", [Contribution(capability, "tool", [], 0)], "")
  }

  lemma {:induction false} SampleSource(package: string, release: string, capability: string)
    requires !Blank(capability)
    ensures var source := AsSource(Sample(package, release, capability));
            && |source.entries| == 1
            && !Blank(source.sourceRef)
            && ValidateSource(source).Pass?
            && AddAll(map[], source, source.entries) ==
               Ok(map[KeyOf(source, source.entries[0]) := IndexedOf(source, source.entries[0])])
  {
    var source := AsSource(Sample(package, release, capability));
    assert source.sourceRef[0] == 'e';
    assert "scope"[0] == 's';
    assert !Blank("scope");
    assert source.entries[1..] == [];
  }

  lemma {:induction false} SampleEnables(s: Registry, package: string, release: string, capability: string, t: Registry)
    requires !Blank(capability) && package !in s.generations && package !in s.active
    requires t == SampleResult(s, package, release, capability)
    ensures Enable(s, Sample(package, release, capability), 1) == Ok(t)
  {
    var source := AsSource(Sample(package, release, capability));
    SampleSource(package, release, capability);
    assert [source][1..] == [];
    assert ManagedSources(s, package, source.sourceRef) == {source.sourceRef};
    assert Collect(map[], {source.sourceRef}, [source]) == AddAll(map[], source, source.entries);
  }

  function SampleResult(s: Registry, package: string, release: string, capability: string): Registry {
    var p := Sample(package, release, capability);
    var source := AsSource(p);
    s.(index := Without(s.index, {source.sourceRef})
       + map[KeyOf(source, source.entries[0]) := IndexedOf(source, source.entries[0])],
       generations := s.generations[package := 1],
       active := s.active[package := ActiveSource(release, source.sourceRef, 1)],
       installed := s.installed[package := Staged(package, release, p.digest, source)])
  }

  lemma {:induction false} RunTwo(s: Registry, a: Op, b: Op)
    ensures Run(s, [a, b]) == Step(Step(s, a), b)
  {
    assert [a, b][1..] == [b] && [b][1..] == [];
    assert Run(Step(s, a), [b]) == Run(Step(Step(s, a), b), []);
  }

  /** Two packages whose source references collide break the mirror: enabling the second evicts the
      first one's entries while the first stays active. */
  lemma {:induction false} CollisionBreaksMirror(a: (string, string), b: (string, string))
    requires a.0 != b.0 && SourceRef(a.0, a.1) == SourceRef(b.0, b.1)
    ensures !Mirrors(Run(EMPTY, [DoEnable(Sample(a.0, a.1, "x"), 1), DoEnable(Sample(b.0, b.1, "y"), 1)]))
  {
    var s := SampleResult(EMPTY, a.0, a.1, "x");
    var t := SampleResult(s, b.0, b.1, "y");
    assert "x"[0] == 'x' && "y"[0] == 'y';
    SampleEnables(EMPTY, a.0, a.1, "x", s);
    SampleEnables(s, b.0, b.1, "y", t);
    RunTwo(EMPTY, DoEnable(Sample(a.0, a.1, "x"), 1), DoEnable(Sample(b.0, b.1, "y"), 1));
    EvictedEntry(a, s, b, t);
  }

  /** Such packages exist: package `a` at release `b:c`, and package `a:b` at release `c`. */
  lemma {:induction false} ColonNamesCollide()
    ensures SourceRef("a", "b:c") == SourceRef("a:b", "c")
    ensures var ops := [DoEnable(Sample("a", "b:c", "x"), 1), DoEnable(Sample("a:b", "c", "y"), 1)];
            !Mirrors(Run(EMPTY, ops)) && !SeparateSources({("a", "b:c"), ("a:b", "c")})
  {
    assert "a" + ":" + "b:c" == "a:b" + ":" + "c";
    assert SourceRef("a", "b:c") == ECOSYSTEM + ("a" + ":" + "b:c");
    assert SourceRef("a:b", "c") == ECOSYSTEM + ("a:b" + ":" + "c");
    assert |"a"| != |"a:b"|;
    CollisionBreaksMirror(("a", "b:c"), ("a:b", "c"));
  }

  lemma {:induction false} EvictedEntry(a: (string, string), s: Registry, b: (string, string), t: Registry)
    requires a.0 != b.0 && SourceRef(a.0, a.1) == SourceRef(b.0, b.1)
    requires s == SampleResult(EMPTY, a.0, a.1, "x") && t == SampleResult(s, b.0, b.1, "y")
    ensures !Mirrors(t)
  {
    var source := AsSource(Sample(a.0, a.1, "x"));
    var k, v := KeyOf(source, source.entries[0]), IndexedOf(source, source.entries[0]);
    EcosystemSource(a.0, a.1);
    assert OffersOne(source, source.entries, k, v);
    assert OfferedBy(t, a.0, k, v);
    assert k != KeyOf(AsSource(Sample(b.0, b.1, "y")), AsSource(Sample(b.0, b.1, "y")).entries[0]);
    assert !Holds(t.index, k, v);
  }

  // ----- the main results -----

  /** Registry coherence over every run: the index mirrors exactly the active releases. It holds for all
      runs over a set of names if and only if no two packages among them share a source reference. */
  lemma {:induction false} CoherentRunsExactly(names: set<(string, string)>)
    ensures SeparateSources(names) <==> forall ops :: NamesOf(ops, names) ==> Mirrors(Run(EMPTY, ops))
  {
    if SeparateSources(names) {
      forall ops | NamesOf(ops, names) ensures Mirrors(Run(EMPTY, ops)) {
        RunKeeps(EMPTY, ops, names);
      }
    } else {
      var a, b :| a in names && b in names && SourceRef(a.0, a.1) == SourceRef(b.0, b.1) && a.0 != b.0;
      CollisionBreaksMirror(a, b);
      var ops := [DoEnable(Sample(a.0, a.1, "x"), 1), DoEnable(Sample(b.0, b.1, "y"), 1)];
      assert NamesOf(ops, names);
    }
  }

  /** The active entry of every package names its own release, source and latest generation. */
  lemma {:induction false} ActiveEntriesAreAnchored(ops: seq<Op>, names: set<(string, string)>, p: string)
    requires SeparateSources(names) && NamesOf(ops, names)
    ensures var s := Run(EMPTY, ops);
            p in s.active ==> Anchored(s, p)
  {
    RunKeeps(EMPTY, ops, names);
  }

  /** Nothing the package registry does touches an entry of a source it does not manage. */
  lemma {:induction false} UnmanagedEntriesUntouched(
      s: Registry, op: Op, names: set<(string, string)>, k: (string, string), v: Indexed)
    requires !op.Foreign? && Coherent(s, names) && !IsEcosystem(k.1)
    ensures Holds(Step(s, op).index, k, v) <==> Holds(s.index, k, v)
  {
    match op
    case DoEnable(p, generation) =>
      EcosystemSource(p.package, p.release);
      if p.package in s.active {
        assert Anchored(s, p.package);
        EcosystemSource(p.package, s.active[p.package].release);
      }
      if Enable(s, p, generation).Ok? {
        ReplacedByOne(s.index, ManagedSources(s, p.package, AsSource(p).sourceRef), AsSource(p), k, v);
      }
    case DoDisable(package, _) =>
      if package in s.active {
        assert Anchored(s, package);
        EcosystemSource(package, s.active[package].release);
      }
    case DoFence(package) =>
      if package in s.active {
        assert Anchored(s, package);
        EcosystemSource(package, s.active[package].release);
      }
    case _ =>
  }

  /** Archived content never changes, whatever is done afterwards. */
  lemma {:induction false} ArchiveIsForever(s: Registry, ops: seq<Op>, release: string)
    requires release in s.archived
    ensures release in Run(s, ops).archived && Run(s, ops).archived[release] == s.archived[release]
    decreases |ops|
  {
    if |ops| > 0 { ArchiveIsForever(Step(s, ops[0]), ops[1..], release); }
  }

  /** Once a package has a generation, a call that changes it moves it up by exactly one, except at the
      64-bit maximum: there enabling is refused, whatever the generation, and disabling with generation zero wraps. */
  lemma {:induction false} GenerationsStepExactly(s: Registry, op: Op, package: string)
    requires package in s.generations
    ensures package in Step(s, op).generations
    ensures Step(s, op).generations[package] != s.generations[package] ==>
              if s.generations[package] < U64_MAX then Step(s, op).generations[package] == s.generations[package] + 1
              else op == DoDisable(package, 0) && Step(s, op).generations[package] == 0
    ensures s.generations[package] == U64_MAX ==> Step(s, DoDisable(package, 0)).generations[package] == 0
    ensures s.generations[package] == U64_MAX && op.DoEnable? && op.p.package == package ==>
            Enable(s, op.p, op.generation).Err?
  {
  }

  /** The call is an accepted enabling or disabling of the package. */
  predicate Accepted(s: Registry, op: Op, package: string) {
    match op
    case DoEnable(p, generation) => p.package == package && Enable(s, p, generation).Ok?
    case DoDisable(q, generation) => q == package && Disable(s, q, generation).Ok?
    case DoArchive(_) => false
    case DoFence(_) => false
    case Foreign(_) => false
  }

  function CountAccepted(s: Registry, ops: seq<Op>, package: string): nat
    decreases |ops|
  {
    if |ops| == 0 then 0
    else (if Accepted(s, ops[0], package) then 1 else 0) + CountAccepted(Step(s, ops[0]), ops[1..], package)
  }

  const GENERATIONS := U64_MAX + 1

  lemma {:induction false} StepAdvances(s: Registry, op: Op, package: string)
    requires package in s.generations
    ensures package in Step(s, op).generations
    ensures Step(s, op).generations[package] ==
            (s.generations[package] + if Accepted(s, op, package) then 1 else 0) % GENERATIONS
  {
    assert NextGeneration(s.generations[package]) == (s.generations[package] + 1) % GENERATIONS;
  }

  /** Over every run the generation of a package counts its accepted enablings and disablings, modulo 2^64. */
  lemma {:induction false} GenerationsCountAcceptances(s: Registry, ops: seq<Op>, package: string)
    requires package in s.generations
    ensures package in Run(s, ops).generations
    ensures Run(s, ops).generations[package] == (s.generations[package] + CountAccepted(s, ops, package)) % GENERATIONS
    decreases |ops|
  {
    if |ops| > 0 {
      StepAdvances(s, ops[0], package);
      GenerationsCountAcceptances(Step(s, ops[0]), ops[1..], package);
      var before: nat, first: nat := s.generations[package], if Accepted(s, ops[0], package) then 1 else 0;
      AddsModulo(before + first, CountAccepted(Step(s, ops[0]), ops[1..], package));
    }
  }

  lemma {:induction false} AddsModulo(a: nat, b: nat)
    ensures (a % GENERATIONS + b) % GENERATIONS == (a + b) % GENERATIONS
  {
    var q := a / GENERATIONS;
    assert a == q * GENERATIONS + a % GENERATIONS;
    MultipleDropsOut(q, a % GENERATIONS + b);
  }

  lemma {:induction false} MultipleDropsOut(q: nat, c: nat)
    ensures (q * GENERATIONS + c) % GENERATIONS == c % GENERATIONS
  {
    var r, p := c % GENERATIONS, c / GENERATIONS;
    assert c == p * GENERATIONS + r;
    assert q * GENERATIONS + c == (q + p) * GENERATIONS + r;
  }

  lemma {:induction false} AcceptedCountFits(s: Registry, ops: seq<Op>, package: string)
    ensures CountAccepted(s, ops, package) <= |ops|
    decreases |ops|
  {
    if |ops| > 0 { AcceptedCountFits(Step(s, ops[0]), ops[1..], package); }
  }

  /** The generation that an enabling or disabling names. */
  function Named(op: Op): u64
    requires op.DoEnable? || op.DoDisable?
  {
    op.generation
  }

  /** No two accepted enablings or disablings of a package fewer than 2^64 calls apart carry the same generation. */
  lemma {:induction false} GenerationsAreNotReused(
      s: Registry, first: Op, between: seq<Op>, second: Op, package: string)
    requires Accepted(s, first, package) && Accepted(Run(Step(s, first), between), second, package)
    requires |between| < U64_MAX
    ensures Named(first) != Named(second)
  {
    FirstIsKept(s, first, package);
    LaterDiffers(Step(s, first), between, Run(Step(s, first), between), second, package);
  }

  lemma {:induction false} LaterDiffers(t: Registry, between: seq<Op>, u: Registry, second: Op, package: string)
    requires package in t.generations && u == Run(t, between) && |between| < U64_MAX
    requires Accepted(u, second, package)
    ensures Named(second) != t.generations[package]
  {
    GenerationsCountAcceptances(t, between, package);
    AcceptedCountFits(t, between, package);
    SecondIsNext(u, second, package);
    NotComeRound(t.generations[package], CountAccepted(t, between, package));
  }

  lemma {:induction false} NotComeRound(g: nat, n: nat)
    requires g < GENERATIONS && n + 1 < GENERATIONS
    ensures ((g + n) % GENERATIONS + 1) % GENERATIONS != g
  {
    AddsModulo(g + n, 1);
    if g + n + 1 >= GENERATIONS { MultipleDropsOut(1, g + n + 1 - GENERATIONS); }
  }

  lemma {:induction false} FirstIsKept(s: Registry, op: Op, package: string)
    requires Accepted(s, op, package)
    ensures package in Step(s, op).generations && Step(s, op).generations[package] == Named(op)
  {
  }

  lemma {:induction false} SecondIsNext(s: Registry, op: Op, package: string)
    requires package in s.generations && Accepted(s, op, package)
    ensures Named(op) == (s.generations[package] + 1) % GENERATIONS
  {
  }
}
