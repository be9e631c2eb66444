/** What every operation of the plugin registry does, and what a whole run leaves active. */
module PluginRuns {
  import opened Common
  import opened Sequences
  import opened ManagedPlugins

  // ----- what an operation is about -----

  predicate Commits(op: Op) { op.Activate? || op.ActivateManaged? || op.Reload? || op.ReloadManaged? }

  function Resolved(op: Op): Resolution
    requires Commits(op)
  {
    op.resolution
  }

  /** The plugin that a reload brings. */
  function Brought(op: Op): Option<Plugin> {
    match op
    case Reload(plugin, _, _) => Some(plugin)
    case ReloadManaged(plugin, _, _, _, _) => Some(plugin)
    case _ => None
  }

  /** The operation is to make `id` active: it is resolved, and under a policy allowed, not denied, bound and
      permitted. */
  predicate Installs(op: Op, id: string) {
    match op
    case Activate(resolution, _) => id in resolution.ids
    case Reload(_, resolution, _) => id in resolution.ids
    case ActivateManaged(policy, bindings, resolution, _) => Wanted(policy, bindings, id) && id in resolution.ids
    case ReloadManaged(_, policy, bindings, resolution, _) => Wanted(policy, bindings, id) && id in resolution.ids
    case _ => false
  }

  predicate Wanted(policy: Policy, bindings: map<string, Binding>, id: string) {
    id in policy.allowed && !(id in policy.denied) && id in bindings && bindings[id].permitted
  }

  /** The provider registry and the caller let the operation stop `id`. */
  predicate Stops(op: Op, id: string) {
    match op
    case Disable(stopped, accepted) => stopped == id && accepted
    case MarkFailed(stopped, failure, accepted) => stopped == id && accepted && !Blank(failure)
    case _ => false
  }

  // ----- the snapshots of a build -----

  lemma {:induction false} BuiltIdsExactly(
      plugins: map<string, Plugin>, replacement: Option<Plugin>, ids: seq<string>, stageable: set<string>, id: string)
    requires Keyed(plugins) && BuildSnapshots(plugins, replacement, ids, stageable).Ok?
    ensures id in ActiveIds(BuildSnapshots(plugins, replacement, ids, stageable).value) <==> id in ids
  {
    if |ids| > 0 {
      BuiltIdsExactly(plugins, replacement, ids[1..], stageable, id);
      var rest := BuildSnapshots(plugins, replacement, ids[1..], stageable).value;
      var all := BuildSnapshots(plugins, replacement, ids, stageable).value;
      assert all[0].plugin.id == ids[0] && all[1..] == rest;
      if id in ActiveIds(rest) {
        var i :| 0 <= i < |rest| && rest[i].plugin.id == id;
        assert all[i + 1].plugin.id == id;
      }
    }
  }

  /** The plugin that is meant by `id`: the one brought along, or else the one known. */
  predicate Meant(plugins: map<string, Plugin>, replacement: Option<Plugin>, plugin: Plugin) {
    if replacement.Some? && replacement.value.id == plugin.id then plugin == replacement.value
    else plugin.id in plugins && plugin == plugins[plugin.id]
  }

  lemma {:induction false} BuiltMeant(
      plugins: map<string, Plugin>, replacement: Option<Plugin>, ids: seq<string>, stageable: set<string>)
    requires Keyed(plugins) && BuildSnapshots(plugins, replacement, ids, stageable).Ok?
    ensures forall x :: x in BuildSnapshots(plugins, replacement, ids, stageable).value ==>
              Meant(plugins, replacement, x.plugin) && x.binding.None? && x.managed.None?
  {
    if |ids| > 0 { BuiltMeant(plugins, replacement, ids[1..], stageable); }
  }

  lemma {:induction false} ManagedBuiltMeant(
      plugins: map<string, Plugin>, replacement: Option<Plugin>, policy: Policy, bindings: map<string, Binding>,
      ids: seq<string>, stageable: set<string>)
    requires Keyed(plugins) && BuildManaged(plugins, replacement, policy, bindings, ids, stageable).Ok?
    ensures forall x :: x in BuildManaged(plugins, replacement, policy, bindings, ids, stageable).value ==>
              Meant(plugins, replacement, x.plugin) && x.plugin.id in bindings
              && x.binding == Some(bindings[x.plugin.id]) && x.managed.None?
  {
    if |ids| > 0 {
      ManagedBuiltMeant(plugins, replacement, policy, bindings, ids[1..], stageable);
      var first := BuildManagedOne(plugins, replacement, policy, bindings, ids[0], stageable).value;
      forall x | x in first ensures Meant(plugins, replacement, x.plugin) && x.plugin.id in bindings
                                    && x.binding == Some(bindings[x.plugin.id]) && x.managed.None? {
        assert x == first[0];
      }
    }
  }

  /** An unmanaged build succeeds exactly when every resolved id is known and can be staged. */
  lemma {:induction false} BuildsExactly(
      plugins: map<string, Plugin>, replacement: Option<Plugin>, ids: seq<string>, stageable: set<string>)
    ensures BuildSnapshots(plugins, replacement, ids, stageable).Ok? <==>
            forall id :: id in ids ==> Known(plugins, replacement, id) && id in stageable
  {
    if |ids| > 0 {
      BuildsExactly(plugins, replacement, ids[1..], stageable);
      assert ids[0] in ids && forall id :: id in ids <==> id == ids[0] || id in ids[1..];
    }
  }

  predicate Known(plugins: map<string, Plugin>, replacement: Option<Plugin>, id: string) {
    id in plugins || (replacement.Some? && replacement.value.id == id)
  }

  /** The manifest digest of whatever plugin `id` means. */
  ghost predicate DigestIs(plugins: map<string, Plugin>, replacement: Option<Plugin>, id: string, digest: string) {
    exists plugin :: Denotes(plugins, replacement, id, plugin) && plugin.digest == digest
  }

  ghost predicate Denotes(plugins: map<string, Plugin>, replacement: Option<Plugin>, id: string, plugin: Plugin) {
    if replacement.Some? && replacement.value.id == id then plugin == replacement.value
    else id in plugins && plugin == plugins[id]
  }

  /** A resolved id stands in nothing's way: it is known, and if it is allowed and not denied it is bound, its binding
      is well formed, and if that is permitted it is of the manifest meant, verified and can be staged. */
  ghost predicate Harmless(
      plugins: map<string, Plugin>, replacement: Option<Plugin>, policy: Policy, bindings: map<string, Binding>,
      stageable: set<string>, id: string)
  {
    && Known(plugins, replacement, id)
    && (id in policy.allowed && id !in policy.denied ==>
          && id in bindings && bindings[id].wellFormed
          && (bindings[id].permitted ==> DigestIs(plugins, replacement, id, bindings[id].digest)
                                         && bindings[id].verified && id in stageable))
  }

  lemma {:induction false} OneIsHarmlessExactly(
      plugins: map<string, Plugin>, replacement: Option<Plugin>, policy: Policy, bindings: map<string, Binding>,
      stageable: set<string>, id: string)
    ensures BuildManagedOne(plugins, replacement, policy, bindings, id, stageable).Ok? <==>
            Harmless(plugins, replacement, policy, bindings, stageable, id)
  {
    if Known(plugins, replacement, id) {
      var plugin := Pick(plugins, replacement, id).value;
      assert Denotes(plugins, replacement, id, plugin);
      assert forall digest :: DigestIs(plugins, replacement, id, digest) <==> plugin.digest == digest;
    }
  }

  /** A managed build succeeds exactly when no resolved id stands in its way. */
  lemma {:induction false} BuildsManagedExactly(
      plugins: map<string, Plugin>, replacement: Option<Plugin>, policy: Policy, bindings: map<string, Binding>,
      ids: seq<string>, stageable: set<string>)
    ensures BuildManaged(plugins, replacement, policy, bindings, ids, stageable).Ok? <==>
            forall id :: id in ids ==> Harmless(plugins, replacement, policy, bindings, stageable, id)
  {
    if |ids| > 0 {
      OneIsHarmlessExactly(plugins, replacement, policy, bindings, stageable, ids[0]);
      BuildsManagedExactly(plugins, replacement, policy, bindings, ids[1..], stageable);
      assert ids[0] in ids && forall id :: id in ids <==> id == ids[0] || id in ids[1..];
    }
  }

  // ----- one commit -----

  lemma {:induction false} NotFirstIsLater(snapshots: seq<Snapshot>, id: string)
    requires |snapshots| > 0 && snapshots[0].plugin.id != id
    ensures id in ActiveIds(snapshots) ==> id in ActiveIds(snapshots[1..])
  {
    if id in ActiveIds(snapshots) {
      var i :| 0 <= i < |snapshots| && snapshots[i].plugin.id == id;
      assert snapshots[1..][i - 1] == snapshots[i];
    }
  }

  /** What installing leaves, entry by entry. */
  lemma {:induction false} InstallExactly(s: RegistryState, snapshots: seq<Snapshot>, id: string)
    requires ActiveIds(snapshots) <= s.statuses.Keys
    ensures var (t, done) := Install(s, snapshots);
            && done && t.generation == s.generation && t.policy == s.policy && t.statuses.Keys == s.statuses.Keys
            && (if id in ActiveIds(snapshots) then
                  exists i :: 0 <= i < |snapshots| && snapshots[i].plugin.id == id && InstalledAs(t, id, snapshots[i])
                else Untouched(s, t, id))
    decreases |snapshots|
  {
    if |snapshots| > 0 {
      var first, rest := snapshots[0], snapshots[1..];
      var u := InstallOne(s, first);
      assert first.plugin.id in ActiveIds(snapshots);
      forall x | x in ActiveIds(rest) ensures x in ActiveIds(snapshots) {
        var i :| 0 <= i < |rest| && rest[i].plugin.id == x;
        assert snapshots[i + 1].plugin.id == x;
      }
      InstallExactly(u, rest, id);
      var t := Install(u, rest).0;
      if id in ActiveIds(rest) {
        var i :| 0 <= i < |rest| && rest[i].plugin.id == id && InstalledAs(t, id, rest[i]);
        assert snapshots[i + 1] == rest[i];
      } else if id == first.plugin.id {
        assert InstalledAs(t, id, snapshots[0]);
      } else {
        NotFirstIsLater(snapshots, id);
      }
    }
  }

  /** A snapshot without a status stops the installation after those before it, with its plugin already replaced. */
  lemma {:induction false} InstallStopsAt(s: RegistryState, snapshots: seq<Snapshot>, k: nat)
    requires k < |snapshots| && snapshots[k].plugin.id !in s.statuses
    requires forall i :: 0 <= i < k ==> snapshots[i].plugin.id in s.statuses
    ensures var u, plugin := Install(s, snapshots[..k]).0, snapshots[k].plugin;
            Install(s, snapshots) == (u.(plugins := u.plugins[plugin.id := plugin]), false)
    decreases k
  {
    if k > 0 {
      assert snapshots[..k][1..] == snapshots[1..][..k - 1];
      InstallStopsAt(InstallOne(s, snapshots[0]), snapshots[1..], k - 1);
    } else {
      assert snapshots[..0] == [];
    }
  }

  ghost predicate InstalledAs(t: RegistryState, id: string, snapshot: Snapshot) {
    && id in t.active && t.active[id] == snapshot
    && id in t.plugins && t.plugins[id] == snapshot.plugin
    && id in t.statuses && t.statuses[id] == Status(snapshot.plugin.manifest, Active, t.generation, None)
  }

  ghost predicate Untouched(s: RegistryState, t: RegistryState, id: string) {
    && (id in t.active <==> id in s.active) && (id in s.active ==> t.active[id] == s.active[id])
    && (id in t.plugins <==> id in s.plugins) && (id in s.plugins ==> t.plugins[id] == s.plugins[id])
    && (id in t.statuses <==> id in s.statuses) && (id in s.statuses ==> t.statuses[id] == s.statuses[id])
  }

  lemma {:induction false} BoundAt(snapshots: seq<Snapshot>, policy: Policy, generation: u64, i: nat)
    requires i < |snapshots| && snapshots[i].binding.Some?
    ensures var x, y := snapshots[i], BindAll(snapshots, policy, generation)[i];
            && y.plugin == x.plugin && y.binding == x.binding
            && y.managed == Some(ManagedSnapshot(policy.reference, policy.version, x.plugin.id, x.binding.value.digest,
                                                 generation))
  {
  }

  /** What an accepted commit leaves of `id`, given what it was to install. */
  ghost predicate LeftBy(s: RegistryState, t: RegistryState, op: Op, id: string)
    requires Commits(op)
  {
    if Installs(op, id) then
      && id in t.active && InstalledAs(t, id, t.active[id])
      && Denotes(s.plugins, Brought(op), id, t.active[id].plugin) && t.active[id].plugin.id == id
      && BoundBy(op, t.active[id], id, t.generation)
    else
      && id !in t.active
      && (id in t.plugins <==> id in s.plugins) && (id in s.plugins ==> t.plugins[id] == s.plugins[id])
      && (id in t.statuses <==> id in s.statuses)
      && (id in s.statuses ==>
          t.statuses[id] == if s.statuses[id].state == Active then s.statuses[id].(state := Trusted)
                                                 else s.statuses[id])
  }

  /** An unmanaged snapshot is bound to nothing; a managed one to its binding and to policy, version and generation. */
  ghost predicate BoundBy(op: Op, snapshot: Snapshot, id: string, generation: u64) {
    match op
    case ActivateManaged(policy, bindings, _, _) => BoundUnder(policy, bindings, snapshot, id, generation)
    case ReloadManaged(_, policy, bindings, _, _) => BoundUnder(policy, bindings, snapshot, id, generation)
    case _ => snapshot.binding.None? && snapshot.managed.None?
  }

  ghost predicate BoundUnder(
      policy: Policy, bindings: map<string, Binding>, snapshot: Snapshot, id: string, generation: u64)
  {
    && id in bindings && snapshot.binding == Some(bindings[id])
    && snapshot.managed == Some(ManagedSnapshot(policy.reference, policy.version, id, bindings[id].digest, generation))
  }

  lemma {:induction false} ClearedExactly(s: RegistryState, snapshots: seq<Snapshot>, id: string)
    ensures var u := Cleared(s, snapshots);
            && u.generation == SatAdd(s.generation, 1) && u.plugins == s.plugins && u.statuses.Keys == s.statuses.Keys
            && id !in u.active
            && (id in s.statuses && id !in ActiveIds(snapshots) ==>
                  u.statuses[id] == if s.statuses[id].state == Active then s.statuses[id].(state := Trusted)
                                    else s.statuses[id])
  {
  }

  /** A commit without a policy. */
  lemma {:induction false} PlainCommitExactly(
      s: RegistryState, op: Op, snapshots: seq<Snapshot>, answers: Answers, id: string)
    requires (op.Activate? || op.Reload?) && answers.contributionsAccepted && ActiveIds(snapshots) <= s.statuses.Keys
    requires forall x :: x in snapshots ==>
               Meant(s.plugins, Brought(op), x.plugin) && x.binding.None? && x.managed.None?
    requires id in ActiveIds(snapshots) <==> Installs(op, id)
    ensures var (t, r) := Commit(s, snapshots, None, answers);
            r.Pass? && LeftBy(s, t, op, id) && t.generation == SatAdd(s.generation, 1) && t.policy == s.policy
  {
    ClearedExactly(s, snapshots, id);
    InstallExactly(Cleared(s, snapshots), snapshots, id);
  }

  lemma {:induction false} ManagedCommitExactly(
      s: RegistryState, op: Op, snapshots: seq<Snapshot>, policy: Policy, bindings: map<string, Binding>,
      answers: Answers,
      id: string)
    requires op.ActivateManaged? || op.ReloadManaged?
    requires op.policy == policy && op.bindings == bindings
    requires answers.contributionsAccepted && ActiveIds(snapshots) <= s.statuses.Keys && AllBound(snapshots)
    requires |snapshots| > 0 ==> answers.snapshotsValid
    requires forall x :: x in snapshots ==>
               Meant(s.plugins, Brought(op), x.plugin) && x.plugin.id in bindings
               && x.binding == Some(bindings[x.plugin.id]) && x.managed.None?
    requires id in ActiveIds(snapshots) <==> Installs(op, id)
    ensures var (t, r) := Commit(s, snapshots, Some(policy), answers);
            r.Pass? && LeftBy(s, t, op, id) && t.generation == SatAdd(s.generation, 1) && t.policy == Some(policy)
  {
    var generation := SatAdd(s.generation, 1);
    var bound := BindAll(snapshots, policy, generation);
    BoundIds(snapshots, policy, generation);
    ClearedExactly(s, snapshots, id);
    InstallExactly(Cleared(s, snapshots), bound, id);
    if Installs(op, id) {
      var t := Install(Cleared(s, snapshots), bound).0;
      var i :| 0 <= i < |bound| && bound[i].plugin.id == id && InstalledAs(t, id, bound[i]);
      BoundAt(snapshots, policy, generation, i);
      assert snapshots[i] in snapshots;
    }
  }

  // ----- a new registry -----

  /** The last plugin of that id in the list. */
  ghost predicate LastListed(plugins: seq<Plugin>, id: string, plugin: Plugin) {
    exists i :: 0 <= i < |plugins| && plugins[i] == plugin && plugin.id == id
                && forall j :: i < j < |plugins| ==> plugins[j].id != id
  }

  lemma {:induction false} IndexedExactly(plugins: seq<Plugin>, id: string)
    ensures id in Indexed(plugins) <==> exists i :: 0 <= i < |plugins| && plugins[i].id == id
    ensures id in Indexed(plugins) ==> LastListed(plugins, id, Indexed(plugins)[id])
  {
    if |plugins| > 0 {
      var front, last := plugins[..|plugins| - 1], |plugins| - 1;
      IndexedExactly(front, id);
      if plugins[last].id != id {
        if i :| 0 <= i < |plugins| && plugins[i].id == id { assert front[i].id == id; }
        if id in Indexed(front) {
          var i :| 0 <= i < |front| && front[i] == Indexed(front)[id] && front[i].id == id
                   && forall j :: i < j < |front| ==> front[j].id != id;
          assert plugins[i] == front[i];
        }
      }
    }
  }

  /** A new registry knows each listed id by the last plugin listed under it, discovered and nothing more. */
  lemma {:induction false} DiscoversExactly(plugins: seq<Plugin>, id: string)
    ensures var s := Discover(plugins);
            && s.active == map[] && s.generation == 0 && s.policy.None?
            && (id in s.plugins <==> exists i :: 0 <= i < |plugins| && plugins[i].id == id)
            && (id in s.statuses <==> id in s.plugins)
            && (id in s.plugins ==> LastListed(plugins, id, s.plugins[id])
                                    && s.statuses[id] == Status(s.plugins[id].manifest, Discovered, 0, None))
  {
    IndexedExactly(plugins, id);
  }

  // ----- every operation -----

  /** The registry would let the operation commit: nothing in its way, the contribution registries accept, and under
      a policy every snapshot to be made is valid. */
  ghost predicate Commitable(s: RegistryState, op: Op)
    requires Commits(op)
  {
    match op
    case Activate(resolution, answers) =>
      s.policy.None? && Stageable(s.plugins, None, resolution) && answers.contributionsAccepted
    case Reload(plugin, resolution, answers) =>
      && s.policy.None? && plugin.wellFormed && plugin.id in s.statuses && s.statuses[plugin.id].state == Active
      && Stageable(s.plugins, Some(plugin), resolution) && answers.contributionsAccepted
    case ActivateManaged(policy, bindings, resolution, answers) =>
      ManagedCommitable(s, None, policy, bindings, resolution, answers)
    case ReloadManaged(plugin, policy, bindings, resolution, answers) =>
      ManagedCommitable(s, Some(plugin), policy, bindings, resolution, answers)
  }

  ghost predicate Stageable(plugins: map<string, Plugin>, replacement: Option<Plugin>, resolution: Resolution) {
    forall id :: id in resolution.ids ==> Known(plugins, replacement, id) && id in resolution.stageable
  }

  ghost predicate ManagedCommitable(
      s: RegistryState, replacement: Option<Plugin>, policy: Policy, bindings: map<string, Binding>,
      resolution: Resolution, answers: Answers)
  {
    && policy.wellFormed && answers.contributionsAccepted
    && (s.policy.Some? ==> policy.reference == s.policy.value.reference && s.policy.value.version <= policy.version)
    && (forall id :: id in resolution.ids ==>
          Harmless(s.plugins, replacement, policy, bindings, resolution.stageable, id))
    && ((exists id :: id in resolution.ids && Wanted(policy, bindings, id)) ==> answers.snapshotsValid)
  }

  /** Under a policy nothing else stands in the commit's way, but a snapshot to be made is invalid. */
  ghost predicate Spends(s: RegistryState, op: Op)
    requires Commits(op)
  {
    && (op.ActivateManaged? || op.ReloadManaged?) && !op.answers.snapshotsValid
    && SomeWanted(op) && ManagedCommitable(s, Brought(op), op.policy, op.bindings, op.resolution,
                                           op.answers.(snapshotsValid := true))
  }

  ghost predicate SomeWanted(op: Op)
    requires op.ActivateManaged? || op.ReloadManaged?
  {
    exists id :: id in op.resolution.ids && Wanted(op.policy, op.bindings, id)
  }

  /** A refused commit changes nothing but the generation, which an invalid snapshot uses up. */
  ghost predicate Refused(s: RegistryState, t: RegistryState, spent: bool) {
    t == s.(generation := if spent then SatAdd(s.generation, 1) else s.generation)
  }

  lemma {:induction false} ActiveIdsOf(snapshots: seq<Snapshot>, ids: set<string>)
    requires forall id :: id in ActiveIds(snapshots) ==> id in ids
    ensures ActiveIds(snapshots) <= ids
  {
  }

  lemma {:induction false} PlainRunExactly(s: RegistryState, op: Op, replacement: Option<Plugin>, id: string)
    requires Inv(s) && (op.Activate? || op.Reload?) && Brought(op) == replacement
    requires Resolves(op.resolution, s.statuses.Keys)
    ensures var (t, r) := CommitBuilt(s,
                                      BuildSnapshots(s.plugins, replacement, op.resolution.ids,
                                                     op.resolution.stageable),
                                      None, op.answers);
            && (r.Pass? <==> Stageable(s.plugins, replacement, op.resolution) && op.answers.contributionsAccepted)
            && (r.Pass? ==> LeftBy(s, t, op, id) && t.generation == SatAdd(s.generation, 1) && t.policy == s.policy)
            && (r.Fail? ==> t == s)
  {
    var ids, stageable := op.resolution.ids, op.resolution.stageable;
    BuildsExactly(s.plugins, replacement, ids, stageable);
    match BuildSnapshots(s.plugins, replacement, ids, stageable)
    case Err(_) =>
    case Ok(snapshots) =>
      forall x ensures x in ActiveIds(snapshots) <==> x in ids {
        BuiltIdsExactly(s.plugins, replacement, ids, stageable, x);
      }
      BuiltMeant(s.plugins, replacement, ids, stageable);
      ActiveIdsOf(snapshots, s.statuses.Keys);
      if op.answers.contributionsAccepted { PlainCommitExactly(s, op, snapshots, op.answers, id); }
  }

  lemma {:induction false} WantedAreBuilt(
      s: RegistryState, op: Op, replacement: Option<Plugin>, snapshots: seq<Snapshot>)
    requires Inv(s) && (op.ActivateManaged? || op.ReloadManaged?)
    requires BuildManaged(s.plugins, replacement, op.policy, op.bindings, op.resolution.ids, op.resolution.stageable) ==
             Ok(snapshots)
    ensures forall id :: id in ActiveIds(snapshots) <==> Installs(op, id)
    ensures |snapshots| > 0 <==> exists id :: id in op.resolution.ids && Wanted(op.policy, op.bindings, id)
    ensures AllBound(snapshots)
  {
    forall id ensures id in ActiveIds(snapshots) <==> Installs(op, id) {
      BuiltExactly(s.plugins, replacement, op.policy, op.bindings, op.resolution.ids, op.resolution.stageable, id);
    }
    ManagedBuiltMeant(s.plugins, replacement, op.policy, op.bindings, op.resolution.ids, op.resolution.stageable);
    forall i | 0 <= i < |snapshots| ensures snapshots[i].binding.Some? { assert snapshots[i] in snapshots; }
    if |snapshots| > 0 { assert snapshots[0].plugin.id in ActiveIds(snapshots); }
    if id :| id in op.resolution.ids && Wanted(op.policy, op.bindings, id) { assert id in ActiveIds(snapshots); }
  }

  lemma {:induction false} ManagedRunExactly(s: RegistryState, op: Op, replacement: Option<Plugin>, id: string)
    requires Inv(s) && (op.ActivateManaged? || op.ReloadManaged?) && Brought(op) == replacement
    requires Resolves(op.resolution, s.statuses.Keys)
    ensures var (t, r) := RunManaged(s, replacement, op.policy, op.bindings, op.resolution, op.answers);
            && (r.Pass? <==> ManagedCommitable(s, replacement, op.policy, op.bindings, op.resolution, op.answers))
            && (r.Pass? ==>
                LeftBy(s, t, op, id) && t.generation == SatAdd(s.generation, 1) && t.policy == Some(op.policy))
            && (r.Fail? ==> Refused(s, t, Spends(s, op)))
  {
    var ids, stageable := op.resolution.ids, op.resolution.stageable;
    BuildsManagedExactly(s.plugins, replacement, op.policy, op.bindings, ids, stageable);
    if PolicyTransition(s, op.policy).Pass? {
      match BuildManaged(s.plugins, replacement, op.policy, op.bindings, ids, stageable)
      case Err(_) =>
      case Ok(snapshots) => BuiltRunExactly(s, op, replacement, snapshots, id);
    }
  }

  lemma {:induction false} BuiltRunExactly(
      s: RegistryState, op: Op, replacement: Option<Plugin>, snapshots: seq<Snapshot>, id: string)
    requires Inv(s) && (op.ActivateManaged? || op.ReloadManaged?) && Brought(op) == replacement
    requires Resolves(op.resolution, s.statuses.Keys)
    requires BuildManaged(s.plugins, replacement, op.policy, op.bindings, op.resolution.ids, op.resolution.stageable) ==
             Ok(snapshots)
    ensures var (t, r) := Commit(s, snapshots, Some(op.policy), op.answers);
            && (r.Pass? <==> op.answers.contributionsAccepted && (SomeWanted(op) ==> op.answers.snapshotsValid))
            && (r.Pass? ==>
                LeftBy(s, t, op, id) && t.generation == SatAdd(s.generation, 1) && t.policy == Some(op.policy))
            && (r.Fail? ==> Refused(s, t, op.answers.contributionsAccepted))
  {
    WantedAreBuilt(s, op, replacement, snapshots);
    ManagedBuiltMeant(s.plugins, replacement, op.policy, op.bindings, op.resolution.ids, op.resolution.stageable);
    ActiveIdsOf(snapshots, s.statuses.Keys);
    if op.answers.contributionsAccepted && (|snapshots| > 0 ==> op.answers.snapshotsValid) {
      ManagedCommitExactly(s, op, snapshots, op.policy, op.bindings, op.answers, id);
    }
  }

  /** What a failed reload notes on the plugin it was to bring. */
  ghost predicate Noted(s: RegistryState, t: RegistryState, op: Op)
    requires Commits(op)
  {
    && t.active == s.active && t.plugins == s.plugins && t.policy == s.policy && t.statuses.Keys == s.statuses.Keys
    && t.generation == (if Spends(s, op) then SatAdd(s.generation, 1) else s.generation)
    && forall id :: id in s.statuses ==>
         t.statuses[id] == if Brought(op).Some? && Brought(op).value.id == id
                           then s.statuses[id].(lastFailure := Some("failed")) else s.statuses[id]
  }

  /** A commit, by activation or reload, goes through exactly when nothing stands in its way. Then exactly what it was
      to install is active, each as the plugin meant, bound as the policy demands and under the new generation; what was
      active otherwise is trusted again. If it does not go through, nothing active changes, and at most an invalid
      snapshot uses up a generation. */
  lemma {:induction false} CommitsExactly(s: RegistryState, op: Op, id: string)
    requires Inv(s) && Commits(op) && Plain(op, s.statuses.Keys)
    ensures var (t, r) := Step(s, op);
            && (r.Pass? <==> Commitable(s, op))
            && (r.Pass? ==> && LeftBy(s, t, op, id) && t.generation == SatAdd(s.generation, 1)
                            && t.policy == if op.Activate? || op.Reload? then s.policy else Some(op.policy))
            && (r.Fail? ==> Noted(s, t, op))
  {
    match op
    case Activate(_, _) => if s.policy.None? { PlainRunExactly(s, op, None, id); }
    case ActivateManaged(_, _, _, _) => ManagedRunExactly(s, op, None, id);
    case Reload(_, _, _) => ReloadExactly(s, op, id);
    case ReloadManaged(_, _, _, _, _) => ManagedReloadExactly(s, op, id);
  }

  lemma {:induction false} ReloadExactly(s: RegistryState, op: Op, id: string)
    requires Inv(s) && op.Reload? && Plain(op, s.statuses.Keys)
    ensures var (t, r) := Step(s, op);
            && (r.Pass? <==> Commitable(s, op))
            && (r.Pass? ==> LeftBy(s, t, op, id) && t.generation == SatAdd(s.generation, 1) && t.policy == s.policy)
            && (r.Fail? ==> Noted(s, t, op))
  {
    var (t, r) := RunReload(s, op.plugin, op.resolution, op.answers);
    RunReloadExactly(s, op, id);
    NotingExactly(s, t, op, r);
  }

  lemma {:induction false} NotingExactly(s: RegistryState, t: RegistryState, op: Op, r: Outcome<PluginError>)
    requires (op.Reload? || op.ReloadManaged?) && (r.Fail? ==> Refused(s, t, Spends(s, op)))
    ensures r.Fail? ==> Noted(s, NoteFailure(t, op.plugin.id, r), op)
    ensures r.Pass? ==> NoteFailure(t, op.plugin.id, r) == t
  {
  }

  lemma {:induction false} RunReloadExactly(s: RegistryState, op: Op, id: string)
    requires Inv(s) && op.Reload? && Plain(op, s.statuses.Keys)
    ensures var (t, r) := RunReload(s, op.plugin, op.resolution, op.answers);
            && (r.Pass? <==> Commitable(s, op))
            && (r.Pass? ==> LeftBy(s, t, op, id) && t.generation == SatAdd(s.generation, 1) && t.policy == s.policy)
            && (r.Fail? ==> Refused(s, t, false))
  {
    if s.policy.Some? { ManagedRefusesReload(s, op.plugin, op.resolution, op.answers); }
    else { PlainRunExactly(s, op, Some(op.plugin), id); }
  }

  lemma {:induction false} ManagedReloadExactly(s: RegistryState, op: Op, id: string)
    requires Inv(s) && op.ReloadManaged? && Plain(op, s.statuses.Keys)
    ensures var (t, r) := Step(s, op);
            && (r.Pass? <==> Commitable(s, op))
            && (r.Pass? ==>
                LeftBy(s, t, op, id) && t.generation == SatAdd(s.generation, 1) && t.policy == Some(op.policy))
            && (r.Fail? ==> Noted(s, t, op))
  {
    ManagedRunExactly(s, op, Some(op.plugin), id);
  }

  /** Stopping a plugin, and configuring, enabling or trusting one, touches no other: a stopped plugin is no longer
      active, whatever it was. */
  lemma {:induction false} OthersExactly(s: RegistryState, op: Op, id: string)
    requires !Commits(op)
    ensures var (t, r) := Step(s, op);
            && (r.Pass? <==> op.id in s.statuses && op.accepted && (op.MarkFailed? ==> !Blank(op.failure)))
            && t.plugins == s.plugins && t.generation == s.generation && t.policy == s.policy
            && t.statuses.Keys == s.statuses.Keys
            && (id in t.active <==> id in s.active && !Stops(op, id))
               && (id in t.active ==> t.active[id] == s.active[id])
            && (id in s.statuses ==>
                  t.statuses[id] ==
                  if op.id == id && r.Pass? then s.statuses[id].(state := Reached(op), lastFailure := Failure(op))
                  else s.statuses[id])
  {
  }

  function Reached(op: Op): RuntimeState
    requires !Commits(op)
  {
    match op
    case SetState(_, state, _) => state
    case Disable(_, _) => Disabled
    case MarkFailed(_, _, _) => Failed
  }

  function Failure(op: Op): Option<string> { if op.MarkFailed? then Some(op.failure) else None }

  // ----- whole runs -----

  ghost predicate StoppedAreOut(s: RegistryState) {
    forall id :: id in s.statuses && s.statuses[id].state in {Disabled, Failed} ==> id !in s.active
  }

  lemma {:induction false} StepKeepsStoppedOut(s: RegistryState, op: Op)
    requires Inv(s) && Plain(op, s.statuses.Keys) && StoppedAreOut(s)
    ensures StoppedAreOut(Step(s, op).0)
  {
    var t := Step(s, op).0;
    forall id | id in t.statuses && t.statuses[id].state in {Disabled, Failed} ensures id !in t.active {
      if Commits(op) { CommitsExactly(s, op, id); } else { OthersExactly(s, op, id); }
    }
  }

  lemma {:induction false} RunKeepsStoppedOut(s: RegistryState, ops: seq<Op>)
    requires Inv(s) && AllPlain(ops, s.statuses.Keys) && StoppedAreOut(s)
    ensures StoppedAreOut(Run(s, ops))
    decreases |ops|
  {
    if |ops| > 0 {
      StepKeepsStoppedOut(s, ops[0]);
      StepKeeps(s, ops[0]);
      RunKeepsStoppedOut(Step(s, ops[0]).0, ops[1..]);
    }
  }

  /** In no run is a plugin active whose status is disabled or failed. */
  lemma {:induction false} StoppedAreNeverActive(plugins: seq<Plugin>, ops: seq<Op>, id: string)
    requires AllPlain(ops, Indexed(plugins).Keys)
    ensures var s := Run(Discover(plugins), ops);
            id in s.statuses && s.statuses[id].state in {Disabled, Failed} ==> id !in s.active
  {
    DiscoverKeeps(plugins);
    RunKeepsStoppedOut(Discover(plugins), ops);
  }

  /** The state before operation `k`, and after the last. */
  function At(s: RegistryState, ops: seq<Op>, k: nat): RegistryState
    requires k <= |ops|
  {
    Run(s, ops[..k])
  }

  lemma {:induction false} RunSnoc(s: RegistryState, ops: seq<Op>, op: Op)
    ensures Run(s, ops + [op]) == Step(Run(s, ops), op).0
    decreases |ops|
  {
    if |ops| > 0 {
      assert (ops + [op])[0] == ops[0] && (ops + [op])[1..] == ops[1..] + [op];
      RunSnoc(Step(s, ops[0]).0, ops[1..], op);
    } else {
      assert [] + [op] == [op] && [op][1..] == [];
      assert Run(s, [op]) == Run(Step(s, op).0, []);
    }
  }

  lemma {:induction false} AtNext(s: RegistryState, ops: seq<Op>, k: nat)
    requires k < |ops|
    ensures At(s, ops, k + 1) == Step(At(s, ops, k), ops[k]).0
  {
    assert ops[..k + 1] == ops[..k] + [ops[k]];
    RunSnoc(s, ops[..k], ops[k]);
  }

  /** Operation `k` goes through. */
  predicate Passes(s: RegistryState, ops: seq<Op>, k: nat)
    requires k < |ops|
  {
    Step(At(s, ops, k), ops[k]).1.Pass?
  }

  /** Operation `k` is an accepted commit that installs `id`. */
  predicate InstalledAt(s: RegistryState, ops: seq<Op>, k: nat, id: string) {
    k < |ops| && Commits(ops[k]) && Passes(s, ops, k) && Installs(ops[k], id)
  }

  /** Operation `k` stops `id`, or is an accepted commit that does not install it. */
  predicate RemovedAt(s: RegistryState, ops: seq<Op>, k: nat, id: string) {
    k < |ops| && (Stops(ops[k], id) || (Commits(ops[k]) && Passes(s, ops, k) && !Installs(ops[k], id)))
  }

  function Installations(s: RegistryState, ops: seq<Op>, id: string): seq<bool> {
    seq(|ops|, k requires 0 <= k < |ops| => InstalledAt(s, ops, k, id))
  }

  function Removals(s: RegistryState, ops: seq<Op>, id: string): seq<bool> {
    seq(|ops|, k requires 0 <= k < |ops| => RemovedAt(s, ops, k, id))
  }

  /** There is an installation before `n` and no removal between it and `n`. */
  ghost predicate Lasts(installs: seq<bool>, removes: seq<bool>, n: nat)
    requires n <= |installs| == |removes|
  {
    exists j :: 0 <= j < n && installs[j] && forall m :: j < m < n ==> !removes[m]
  }

  lemma {:induction false} LastsNext(installs: seq<bool>, removes: seq<bool>, n: nat)
    requires n < |installs| == |removes|
    ensures Lasts(installs, removes, n + 1) <==> installs[n] || (Lasts(installs, removes, n) && !removes[n])
  {
    if Lasts(installs, removes, n + 1) {
      var j :| 0 <= j < n + 1 && installs[j] && forall m :: j < m < n + 1 ==> !removes[m];
      assert j < n ==> !removes[n];
    }
  }

  lemma {:induction false} ActiveUpTo(s: RegistryState, ops: seq<Op>, n: nat, id: string)
    requires Inv(s) && AllPlain(ops, s.statuses.Keys) && n <= |ops| && s.active == map[]
    ensures id in At(s, ops, n).active <==> Lasts(Installations(s, ops, id), Removals(s, ops, id), n)
    decreases n
  {
    if n == 0 {
      assert ops[..0] == [];
    } else {
      ActiveUpTo(s, ops, n - 1, id);
      StepActivity(s, ops, n - 1, id);
      LastsNext(Installations(s, ops, id), Removals(s, ops, id), n - 1);
    }
  }

  /** One operation of a run installs `id`, removes it or leaves it as it was. */
  lemma {:induction false} StepActivity(s: RegistryState, ops: seq<Op>, k: nat, id: string)
    requires Inv(s) && AllPlain(ops, s.statuses.Keys) && k < |ops|
    ensures id in At(s, ops, k + 1).active <==>
            InstalledAt(s, ops, k, id) || (id in At(s, ops, k).active && !RemovedAt(s, ops, k, id))
  {
    AtNext(s, ops, k);
    RunKeeps(s, ops[..k]);
    if Commits(ops[k]) { CommitsExactly(At(s, ops, k), ops[k], id); } else { OthersExactly(At(s, ops, k), ops[k], id); }
  }

  /** A plugin is active after a run exactly when some accepted commit of the run installed it and nothing since has
      stopped it or committed without it. */
  lemma {:induction false} ActiveExactly(plugins: seq<Plugin>, ops: seq<Op>, id: string)
    requires AllPlain(ops, Indexed(plugins).Keys)
    ensures id in Run(Discover(plugins), ops).active <==>
            Lasts(Installations(Discover(plugins), ops, id), Removals(Discover(plugins), ops, id), |ops|)
  {
    DiscoverKeeps(plugins);
    ActiveUpTo(Discover(plugins), ops, |ops|, id);
    assert ops[..|ops|] == ops;
  }
}
