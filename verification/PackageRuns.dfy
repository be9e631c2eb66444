/** Which package calls succeed, and what a run of them leaves, told from its calls alone. */
module PackageRuns {
  import opened Common
  import opened Sequences
  import opened CapabilityIndex
  import opened Scopes
  import opened PackageRegistry

  // ----- the calls of a run -----

  function After(ops: seq<Op>): Registry { Run(EMPTY, ops) }

  /** The call at `i` is an accepted enabling or disabling of `q`. */
  ghost predicate Moved(ops: seq<Op>, i: int, q: string) {
    0 <= i < |ops| && Accepted(After(ops[..i]), ops[i], q)
  }

  ghost predicate LastMoved(ops: seq<Op>, i: int, q: string) {
    Moved(ops, i, q) && forall j :: i < j < |ops| ==> !Moved(ops, j, q)
  }

  /** The call at `i` enabled `q`, and nothing has enabled, disabled or fenced it since. */
  ghost predicate Live(ops: seq<Op>, i: int, q: string) {
    LastMoved(ops, i, q) && ops[i].DoEnable? && forall j :: i < j < |ops| ==> ops[j] != DoFence(q)
  }

  lemma {:induction false} RunSnoc(s: Registry, ops: seq<Op>, op: Op)
    ensures Run(s, ops + [op]) == Step(Run(s, ops), op)
    decreases |ops|
  {
    if |ops| == 0 {
      assert ops + [op] == [op] && [op][1..] == [];
    } else {
      assert (ops + [op])[1..] == ops[1..] + [op];
      RunSnoc(Step(s, ops[0]), ops[1..], op);
    }
  }

  lemma {:induction false} AfterSnoc(ops: seq<Op>)
    requires |ops| > 0
    ensures After(ops) == Step(After(ops[..|ops| - 1]), ops[|ops| - 1])
  {
    assert ops == ops[..|ops| - 1] + [ops[|ops| - 1]];
    RunSnoc(EMPTY, ops[..|ops| - 1], ops[|ops| - 1]);
  }

  lemma {:induction false} MovedBefore(ops: seq<Op>, i: int, q: string)
    requires 0 <= i < |ops| - 1
    ensures Moved(ops, i, q) <==> Moved(ops[..|ops| - 1], i, q)
  {
    assert ops[..|ops| - 1][..i] == ops[..i];
  }

  lemma {:induction false} LastMovedSnoc(ops: seq<Op>, i: int, q: string)
    requires |ops| > 0
    ensures LastMoved(ops, i, q) <==>
            if Moved(ops, |ops| - 1, q) then i == |ops| - 1 else LastMoved(ops[..|ops| - 1], i, q)
  {
    var front, last := ops[..|ops| - 1], |ops| - 1;
    forall j | 0 <= j < last ensures Moved(ops, j, q) <==> Moved(front, j, q) { MovedBefore(ops, j, q); }
  }

  lemma {:induction false} LiveSnoc(ops: seq<Op>, i: int, q: string)
    requires |ops| > 0
    ensures var op := ops[|ops| - 1];
            Live(ops, i, q) <==>
            if Moved(ops, |ops| - 1, q) then i == |ops| - 1 && op.DoEnable?
            else Live(ops[..|ops| - 1], i, q) && op != DoFence(q)
  {
    var front, last := ops[..|ops| - 1], |ops| - 1;
    LastMovedSnoc(ops, i, q);
    if 0 <= i < last {
      assert forall j :: i < j < last ==> front[j] == ops[j];
      if LastMoved(front, i, q) { assert front[i] == ops[i]; }
    }
  }

  // ----- generations and active packages -----

  /** A package has a generation once a call has enabled it, and it is the one its last accepted enabling or
      disabling named. */
  lemma {:induction false} GenerationIsTheLast(ops: seq<Op>, q: string)
    ensures q in After(ops).generations <==> exists i :: LastMoved(ops, i, q)
    ensures forall i :: LastMoved(ops, i, q) ==>
              q in After(ops).generations && After(ops).generations[q] == Named(ops[i])
    decreases |ops|
  {
    if |ops| > 0 {
      var front, last := ops[..|ops| - 1], |ops| - 1;
      GenerationIsTheLast(front, q);
      AfterSnoc(ops);
      assert Moved(ops, last, q) <==> Accepted(After(front), ops[last], q);
      forall i ensures LastMoved(ops, i, q) <==> if Moved(ops, last, q) then i == last else LastMoved(front, i, q) {
        LastMovedSnoc(ops, i, q);
      }
      GenerationStep(After(front), ops[last], q);
      if Moved(ops, last, q) {
        assert LastMoved(ops, last, q);
      } else {
        assert forall i :: LastMoved(front, i, q) ==> ops[i] == front[i];
        if q in After(front).generations {
          var i :| LastMoved(front, i, q);
          assert LastMoved(ops, i, q);
        }
      }
    }
  }

  lemma {:induction false} GenerationStep(s: Registry, op: Op, q: string)
    ensures var t := Step(s, op);
            if Accepted(s, op, q) then q in t.generations && t.generations[q] == Named(op)
            else (q in t.generations <==> q in s.generations)
                 && (q in s.generations ==> t.generations[q] == s.generations[q])
  {
  }

  /** The active entry names the release, the source and the generation of the enabling. */
  ghost predicate ActiveAs(a: ActiveSource, op: Op) {
    && op.DoEnable?
    && a.release == op.p.release
    && a.source == "ecosystem:" + op.p.package + ":" + op.p.release
    && a.generation == op.generation
  }

  lemma {:induction false} ActiveStep(s: Registry, op: Op, q: string)
    ensures var t := Step(s, op);
            if Accepted(s, op, q) then
              if op.DoEnable?
              then q in t.active && ActiveAs(t.active[q], op) && q in t.installed && t.installed[q] == Stage(op.p).value
              else q !in t.active
            else if op == DoFence(q) then q !in t.active
            else (q in t.active <==> q in s.active) && (q in s.active ==> t.active[q] == s.active[q])
                 && (q in s.installed ==> q in t.installed && t.installed[q] == s.installed[q])
    ensures Accepted(s, op, q) && op.DoEnable? ==> Stage(op.p).Ok? && op.p.package == q
  {
  }

  /** A package is active exactly when some call enabled it and none has enabled, disabled or fenced it since. */
  lemma {:induction false} ActiveExactly(ops: seq<Op>, q: string)
    ensures q in After(ops).active <==> exists i :: Live(ops, i, q)
    ensures forall i :: Live(ops, i, q) ==>
              && q in After(ops).active && ActiveAs(After(ops).active[q], ops[i])
              && Stage(ops[i].p).Ok? && ops[i].p.package == q
              && q in After(ops).installed && After(ops).installed[q] == Stage(ops[i].p).value
    decreases |ops|
  {
    if |ops| > 0 {
      var front, last := ops[..|ops| - 1], |ops| - 1;
      ActiveExactly(front, q);
      AfterSnoc(ops);
      assert Moved(ops, last, q) <==> Accepted(After(front), ops[last], q);
      forall i
        ensures Live(ops, i, q) <==>
                if Moved(ops, last, q) then i == last && ops[last].DoEnable?
                else Live(front, i, q) && ops[last] != DoFence(q)
      {
        LiveSnoc(ops, i, q);
      }
      ActiveStep(After(front), ops[last], q);
      if Moved(ops, last, q) {
        assert ops[last].DoEnable? ==> Live(ops, last, q);
      } else {
        assert forall i :: Live(front, i, q) ==> ops[i] == front[i];
        if q in After(front).active && ops[last] != DoFence(q) {
          var i :| Live(front, i, q);
          assert Live(ops, i, q);
        }
      }
    }
  }

  // ----- what the index shows -----

  /** `v` is the index entry under `k` of one of the package's contributions. */
  ghost predicate Contributes(p: Package, k: (string, string), v: Indexed) {
    exists i :: 0 <= i < |p.contributions| && ContributedAs(p, p.contributions[i], k, v)
  }

  ghost predicate ContributedAs(p: Package, c: Contribution, k: (string, string), v: Indexed) {
    && k.0 == c.capability && k.1 == "ecosystem:" + p.package + ":" + p.release
    && v.source == k.1 && v.trust == "approved"
    && v.descriptor.schemaVersion == 1
    && v.descriptor.id == c.capability
    && v.descriptor.capability == c.kind + "/" + c.capability
    && v.descriptor.scope == p.scope
    && v.descriptor.permissions == c.permissions
    && v.descriptor.risk == Some(c.risk)
    && v.descriptor.enabled
  }

  /** A package is staged exactly when it is valid and contributes something, and then it offers just that. */
  lemma {:induction false} StagesExactly(p: Package, k: (string, string), v: Indexed)
    ensures Stage(p).Ok? <==> p.wellFormed && |p.contributions| > 0
    ensures Stage(p).Ok? ==>
              var staged := Stage(p).value;
              && staged.package == p.package && staged.release == p.release && staged.digest == p.digest
              && staged.source.schemaVersion == 1 && staged.source.trust == "approved"
              && staged.source.sourceRef == "ecosystem:" + p.package + ":" + p.release
              && (OffersOne(staged.source, staged.source.entries, k, v) <==> Contributes(p, k, v))
  {
    if Stage(p).Ok? {
      var source := Stage(p).value.source;
      assert |source.entries| == |p.contributions|;
      forall j | 0 <= j < |source.entries|
        ensures KeyOf(source, source.entries[j]) == k && IndexedOf(source, source.entries[j]) == v <==>
                ContributedAs(p, p.contributions[j], k, v)
      {
      }
    }
  }

  /** After any run over packages that share no reference, the index holds, for ecosystem sources, exactly what
      the packages that are still enabled contribute. */
  lemma {:induction false} IndexShowsExactly(
      ops: seq<Op>, names: set<(string, string)>, k: (string, string), v: Indexed)
    requires SeparateSources(names) && NamesOf(ops, names) && IsEcosystem(k.1)
    ensures Holds(After(ops).index, k, v) <==>
            exists i, q :: Live(ops, i, q) && Contributes(ops[i].p, k, v)
  {
    var s := After(ops);
    RunKeeps(EMPTY, ops, names);
    if Holds(s.index, k, v) {
      var q :| OfferedBy(s, q, k, v);
      ActiveExactly(ops, q);
      var i :| Live(ops, i, q);
      StagesExactly(ops[i].p, k, v);
    }
    if i, q :| Live(ops, i, q) && Contributes(ops[i].p, k, v) {
      ActiveExactly(ops, q);
      StagesExactly(ops[i].p, k, v);
      assert OfferedBy(s, q, k, v);
    }
  }

  /** What is done to the index elsewhere decides all other entries and no entry of the ecosystem. */
  lemma {:induction false} ForeignExactly(s: Registry, elsewhere: Index, k: (string, string), v: Indexed)
    ensures var t := Step(s, Foreign(elsewhere));
            && (Holds(t.index, k, v) <==> if IsEcosystem(k.1) then Holds(s.index, k, v) else Holds(elsewhere, k, v))
            && t == s.(index := t.index)
  {
  }

  // ----- which calls succeed -----

  lemma {:induction false} ActiveSourcesAreNamed(ops: seq<Op>, q: string)
    requires q in After(ops).active
    ensures !Blank(After(ops).active[q].source)
  {
    ActiveExactly(ops, q);
    var i :| Live(ops, i, q);
    assert After(ops).active[q].source[0] == 'e';
  }

  /** The generation that the package accepts next, if it has one: the last plus one. */
  ghost predicate FollowsLast(ops: seq<Op>, q: string, generation: u64) {
    forall i :: LastMoved(ops, i, q) ==> generation == Named(ops[i]) + 1
  }

  lemma {:induction false} GenerationFits(ops: seq<Op>, q: string, generation: u64)
    requires generation > 0
    ensures FollowsLast(ops, q, generation) <==>
            (q in After(ops).generations ==> generation == NextGeneration(After(ops).generations[q]))
  {
    GenerationIsTheLast(ops, q);
  }

  /** What the package itself must meet to be enabled. */
  ghost predicate Enableable(p: Package) {
    && p.wellFormed && |p.contributions| > 0 && !Blank(p.scope)
    && (forall i :: 0 <= i < |p.contributions| ==> !Blank(p.contributions[i].capability))
    && forall i, j :: 0 <= i < j < |p.contributions| ==> p.contributions[i].capability != p.contributions[j].capability
  }

  lemma {:induction false} OneSourceReplaces(entries: Index, managed: set<string>, s: Source)
    requires s.sourceRef in managed && forall m :: m in managed ==> !Blank(m)
    ensures Replace(entries, managed, [s]).Ok? <==>
            CompleteSource(s) && Distinct(Map(s.entries, EntryKey(s.sourceRef)))
  {
    ReplaceSucceedsExactly(entries, managed, [s]);
    assert [s][0] == s && [s][1..] == [];
    assert OfferedKeys([s]) == Map(s.entries, EntryKey(s.sourceRef)) + [];
    assert OfferedKeys([s]) == Map(s.entries, EntryKey(s.sourceRef));
  }

  lemma {:induction false} SourceIsComplete(p: Package)
    requires p.wellFormed && |p.contributions| > 0
    ensures var s := AsSource(p);
            CompleteSource(s) && Distinct(Map(s.entries, EntryKey(s.sourceRef))) <==> Enableable(p)
  {
    var s := AsSource(p);
    var keys := Map(s.entries, EntryKey(s.sourceRef));
    assert s.sourceRef[0] == 'e';
    assert forall i :: 0 <= i < |keys| ==> keys[i] == (p.contributions[i].capability, s.sourceRef);
    assert forall i :: 0 <= i < |s.entries| ==> s.entries[i].scope == p.scope
                                                && s.entries[i].id == p.contributions[i].capability;
    if CompleteSource(s) { assert !Blank(s.entries[0].scope); }
    if Distinct(keys) {
      forall i, j | 0 <= i < j < |keys| ensures p.contributions[i].capability != p.contributions[j].capability {
        assert keys[i] != keys[j];
      }
    }
  }

  /** Enabling succeeds exactly for a valid package that contributes named, different capabilities under a named
      scope, at a generation that is not zero and one above the package's last, if it has one. */
  lemma {:induction false} EnableSucceedsExactly(ops: seq<Op>, p: Package, generation: u64)
    ensures Enable(After(ops), p, generation).Ok? <==>
            Enableable(p) && generation > 0 && FollowsLast(ops, p.package, generation)
  {
    var s := After(ops);
    if p.wellFormed && |p.contributions| > 0 && generation > 0 {
      var source := AsSource(p);
      var managed := ManagedSources(s, p.package, source.sourceRef);
      assert source.sourceRef[0] == 'e';
      if p.package in s.active { ActiveSourcesAreNamed(ops, p.package); }
      assert forall m :: m in managed ==> !Blank(m);
      OneSourceReplaces(s.index, managed, source);
      SourceIsComplete(p);
      GenerationFits(ops, p.package, generation);
    }
  }

  lemma {:induction false} NextIsModulo(g: u64)
    ensures NextGeneration(g) == (g + 1) % GENERATIONS
  {
  }

  lemma {:induction false} DisablesExactly(s: Registry, q: string, generation: u64)
    ensures Disable(s, q, generation).Ok? <==>
            q in s.generations && generation == NextGeneration(s.generations[q])
    ensures Disable(s, q, generation).Ok? ==> Disable(s, q, generation).value.1 == (q in s.active)
  {
  }

  /** Disabling succeeds exactly with the generation after the package's last, modulo 2^64; fencing always does.
      Both report whether the package was active. */
  lemma {:induction false} DisableSucceedsExactly(ops: seq<Op>, q: string, generation: u64)
    ensures Disable(After(ops), q, generation).Ok? <==>
            exists i :: LastMoved(ops, i, q) && generation == (Named(ops[i]) + 1) % GENERATIONS
    ensures Disable(After(ops), q, generation).Ok? ==>
              (Disable(After(ops), q, generation).value.1 <==> exists i :: Live(ops, i, q))
    ensures Fence(After(ops), q).1 <==> exists i :: Live(ops, i, q)
  {
    GenerationIsTheLast(ops, q);
    ActiveExactly(ops, q);
    DisablesExactly(After(ops), q, generation);
    forall i | LastMoved(ops, i, q) ensures NextGeneration(Named(ops[i])) == (Named(ops[i]) + 1) % GENERATIONS {
      NextIsModulo(Named(ops[i]));
    }
  }

  /** The call at `i` is the first to archive a valid package under the release. */
  ghost predicate FirstArchived(ops: seq<Op>, i: int, release: string) {
    Archives(ops, i, release) && forall j :: 0 <= j < i ==> !Archives(ops, j, release)
  }

  ghost predicate Archives(ops: seq<Op>, i: int, release: string) {
    0 <= i < |ops| && ops[i].DoArchive? && ops[i].p.wellFormed && ops[i].p.release == release
  }

  /** The archive holds under each release the package that was archived first. */
  lemma {:induction false} ArchiveHoldsExactly(ops: seq<Op>, release: string)
    ensures release in After(ops).archived <==> exists i :: FirstArchived(ops, i, release)
    ensures forall i :: FirstArchived(ops, i, release) ==>
              release in After(ops).archived && After(ops).archived[release] == ops[i].p
    decreases |ops|
  {
    if |ops| > 0 {
      var front, last := ops[..|ops| - 1], |ops| - 1;
      ArchiveHoldsExactly(front, release);
      AfterSnoc(ops);
      assert forall i :: 0 <= i < last ==> (Archives(ops, i, release) <==> Archives(front, i, release));
      assert forall i :: 0 <= i < last ==> (FirstArchived(ops, i, release) <==> FirstArchived(front, i, release));
      if release in After(front).archived {
        var i :| FirstArchived(front, i, release);
        assert FirstArchived(ops, i, release);
      } else {
        forall i | 0 <= i < last ensures !Archives(ops, i, release) {
          if Archives(front, i, release) { var k := SomeIsFirst(front, i, release); }
        }
        assert FirstArchived(ops, last, release) <==> Archives(ops, last, release);
      }
    }
  }

  lemma {:induction false} SomeIsFirst(ops: seq<Op>, i: int, release: string) returns (k: int)
    requires Archives(ops, i, release)
    ensures FirstArchived(ops, k, release)
    decreases i
  {
    if j :| 0 <= j < i && Archives(ops, j, release) {
      k := SomeIsFirst(ops, j, release);
    } else {
      k := i;
    }
  }

  /** Archiving answers that the package is new, that it is the archived one again, or that its content changed. */
  lemma {:induction false} ArchiveAnswersExactly(ops: seq<Op>, p: Package)
    ensures Archive(After(ops), p).Err? && Archive(After(ops), p).error == InvalidPackage <==> !p.wellFormed
    ensures Archive(After(ops), p).Ok? && Archive(After(ops), p).value.1 <==>
            p.wellFormed && !exists i :: FirstArchived(ops, i, p.release)
    ensures Archive(After(ops), p).Ok? && !Archive(After(ops), p).value.1 <==>
            p.wellFormed && exists i :: FirstArchived(ops, i, p.release) && ops[i].p == p
  {
    ArchiveHoldsExactly(ops, p.release);
  }
}
