/** The local plugin registry: activation by snapshot, and the lock-in that a managed policy brings. */
module ManagedPlugins {
  import opened Common

  /** `digest` stands for the hash of the manifest; `wellFormed` for the verdict of manifest validation. */
  datatype Plugin = Plugin(id: string, manifest: string, digest: string, wellFormed: bool)

  datatype RuntimeState = Discovered | Configured | Enabled | Trusted | Active | Disabled | Failed

  datatype Status = Status(manifest: string, state: RuntimeState, generation: u64, lastFailure: Option<string>)

  datatype Policy = Policy(wellFormed: bool, reference: string, version: nat, allowed: set<string>, denied: set<string>)

  /** `permitted` is the policy's verdict on the binding, `verified` the signature verifier's. */
  datatype Binding = Binding(source: string, digest: string, wellFormed: bool, permitted: bool, verified: bool)

  datatype ManagedSnapshot = ManagedSnapshot(
      policy: string, policyVersion: nat, plugin: string, digest: string, generation: u64)

  datatype Snapshot = Snapshot(plugin: Plugin, binding: Option<Binding>, managed: Option<ManagedSnapshot>)

  datatype RegistryState = RegistryState(
    plugins: map<string, Plugin>,
    statuses: map<string, Status>,
    active: map<string, Snapshot>,
    generation: u64,
    policy: Option<Policy>)

  datatype PluginError =
    | ManagedOnly
    | InvalidPolicy
    | PolicyMovedBackwards
    | Unavailable
    | BindingMissing
    | InvalidBinding
    | DigestMismatch
    | SignatureRefused
    | StagingRefused
    | ContributionsRefused
    | InvalidSnapshot

  /** What the provider registry resolves for a context: the active provider ids, and those among them
      whose contributions stay within their grant. */
  datatype Resolution = Resolution(ids: seq<string>, stageable: set<string>)

  /** What the capability and hook registries and snapshot validation answer while committing. */
  datatype Answers = Answers(contributionsAccepted: bool, snapshotsValid: bool)

  // ----- building snapshots -----

  function Pick(plugins: map<string, Plugin>, replacement: Option<Plugin>, id: string): Option<Plugin> {
    if replacement.Some? && replacement.value.id == id then replacement
    else if id in plugins then Some(plugins[id])
    else None
  }

  function BuildSnapshots(
      plugins: map<string, Plugin>, replacement: Option<Plugin>, ids: seq<string>, stageable: set<string>)
    : Result<seq<Snapshot>, PluginError>
  {
    if |ids| == 0 then Ok([])
    else match Pick(plugins, replacement, ids[0])
      case None => Err(Unavailable)
      case Some(plugin) =>
        if ids[0] !in stageable then Err(StagingRefused)
        else match BuildSnapshots(plugins, replacement, ids[1..], stageable)
          case Err(e) => Err(e)
          case Ok(rest) => Ok([Snapshot(plugin, None, None)] + rest)
  }

  /** One provider under a managed policy: an error, nothing (not allowed), or a bound snapshot. */
  function BuildManagedOne(
      plugins: map<string, Plugin>, replacement: Option<Plugin>, policy: Policy, bindings: map<string, Binding>,
      id: string, stageable: set<string>)
    : Result<seq<Snapshot>, PluginError>
  {
    match Pick(plugins, replacement, id)
    case None => Err(Unavailable)
    case Some(plugin) =>
      if id in policy.denied || id !in policy.allowed then Ok([])
      else if id !in bindings then Err(BindingMissing)
      else if !bindings[id].wellFormed then Err(InvalidBinding)
      else if !bindings[id].permitted then Ok([])
      else if bindings[id].digest != plugin.digest then Err(DigestMismatch)
      else if !bindings[id].verified then Err(SignatureRefused)
      else if id !in stageable then Err(StagingRefused)
      else Ok([Snapshot(plugin, Some(bindings[id]), None)])
  }

  function BuildManaged(
      plugins: map<string, Plugin>, replacement: Option<Plugin>, policy: Policy, bindings: map<string, Binding>,
      ids: seq<string>, stageable: set<string>)
    : Result<seq<Snapshot>, PluginError>
  {
    if |ids| == 0 then Ok([])
    else match BuildManagedOne(plugins, replacement, policy, bindings, ids[0], stageable)
      case Err(e) => Err(e)
      case Ok(first) =>
        match BuildManaged(plugins, replacement, policy, bindings, ids[1..], stageable)
        case Err(e) => Err(e)
        case Ok(rest) => Ok(first + rest)
  }

  // ----- committing -----

  function Bound(snapshot: Snapshot, policy: Policy, generation: u64): Snapshot {
    if snapshot.binding.None? then snapshot
    else snapshot.(managed := Some(ManagedSnapshot(policy.reference, policy.version, snapshot.plugin.id,
                                                   snapshot.binding.value.digest, generation)))
  }

  function ActiveIds(snapshots: seq<Snapshot>): set<string> {
    set i | 0 <= i < |snapshots| :: snapshots[i].plugin.id
  }

  function Demote(statuses: map<string, Status>, keep: set<string>): map<string, Status> {
    map id | id in statuses ::
      if statuses[id].state == Active && id !in keep then statuses[id].(state := Trusted) else statuses[id]
  }

  function InstallOne(s: RegistryState, snapshot: Snapshot): RegistryState {
    var plugin := snapshot.plugin;
    s.(plugins := s.plugins[plugin.id := plugin],
       statuses := s.statuses[plugin.id := Status(plugin.manifest, Active, s.generation, None)],
       active := s.active[plugin.id := snapshot])
  }

  /** Installs the snapshots one after another; one without a status stops the loop half-way. */
  function Install(s: RegistryState, snapshots: seq<Snapshot>): (RegistryState, bool)
    decreases |snapshots|
  {
    if |snapshots| == 0 then (s, true)
    else
      var plugin := snapshots[0].plugin;
      if plugin.id !in s.statuses then (s.(plugins := s.plugins[plugin.id := plugin]), false)
      else Install(InstallOne(s, snapshots[0]), snapshots[1..])
  }

  predicate AllBound(snapshots: seq<Snapshot>) {
    forall i :: 0 <= i < |snapshots| ==> snapshots[i].binding.Some?
  }

  function Cleared(s: RegistryState, snapshots: seq<Snapshot>): RegistryState {
    s.(generation := SatAdd(s.generation, 1), active := map[], statuses := Demote(s.statuses, ActiveIds(snapshots)))
  }

  function BindAll(snapshots: seq<Snapshot>, policy: Policy, generation: u64): seq<Snapshot> {
    seq(|snapshots|, i requires 0 <= i < |snapshots| => Bound(snapshots[i], policy, generation))
  }

  /** A refused commit leaves the registry as it was, except that a snapshot failing its own validation
      has already used up a generation. */
  function Commit(s: RegistryState, snapshots: seq<Snapshot>, policy: Option<Policy>, answers: Answers)
    : (RegistryState, Outcome<PluginError>)
  {
    if !answers.contributionsAccepted then (s, Fail(ContributionsRefused))
    else
      var generation := SatAdd(s.generation, 1);
      if policy.Some? && |snapshots| > 0 && !(answers.snapshotsValid && AllBound(snapshots)) then
        (s.(generation := generation), Fail(InvalidSnapshot))
      else
        var bound := if policy.Some? then BindAll(snapshots, policy.value, generation) else snapshots;
        var (t, done) := Install(Cleared(s, snapshots), bound);
        if !done then (t, Fail(Unavailable)) else (t.(policy := if policy.Some? then policy else s.policy), Pass)
  }

  // ----- operations -----

  datatype Op =
    | SetState(id: string, state: RuntimeState, accepted: bool)
    | Disable(id: string, accepted: bool)
    | MarkFailed(id: string, failure: string, accepted: bool)
    | Activate(resolution: Resolution, answers: Answers)
    | ActivateManaged(policy: Policy, bindings: map<string, Binding>, resolution: Resolution, answers: Answers)
    | Reload(plugin: Plugin, resolution: Resolution, answers: Answers)
    | ReloadManaged(plugin: Plugin, policy: Policy, bindings: map<string, Binding>, resolution: Resolution,
                    answers: Answers)

  function UpdateStatus(s: RegistryState, id: string, state: RuntimeState, failure: Option<string>): RegistryState {
    if id !in s.statuses then s
    else s.(statuses := s.statuses[id := s.statuses[id].(state := state, lastFailure := failure)])
  }

  function NoteFailure(s: RegistryState, id: string, r: Outcome<PluginError>): RegistryState {
    if r.Pass? || id !in s.statuses then s
    else s.(statuses := s.statuses[id := s.statuses[id].(lastFailure := Some("failed"))])
  }

  function PolicyTransition(s: RegistryState, policy: Policy): Outcome<PluginError> {
    if !policy.wellFormed then Fail(InvalidPolicy)
    else if s.policy.Some?
      && (s.policy.value.reference != policy.reference || policy.version < s.policy.value.version) then
      Fail(PolicyMovedBackwards)
    else Pass
  }

  function CommitBuilt(
      s: RegistryState, built: Result<seq<Snapshot>, PluginError>, policy: Option<Policy>, answers: Answers)
    : (RegistryState, Outcome<PluginError>)
  {
    match built
    case Err(e) => (s, Fail(e))
    case Ok(snapshots) => Commit(s, snapshots, policy, answers)
  }

  function RunManaged(
      s: RegistryState, replacement: Option<Plugin>, policy: Policy, bindings: map<string, Binding>,
      resolution: Resolution, answers: Answers)
    : (RegistryState, Outcome<PluginError>)
  {
    if PolicyTransition(s, policy).Fail? then (s, PolicyTransition(s, policy))
    else CommitBuilt(s, BuildManaged(s.plugins, replacement, policy, bindings, resolution.ids, resolution.stageable),
                     Some(policy), answers)
  }

  /** Unmanaged activation. */
  function RunActivate(s: RegistryState, resolution: Resolution, answers: Answers)
    : (RegistryState, Outcome<PluginError>)
  {
    if s.policy.Some? then (s, Fail(ManagedOnly))
    else CommitBuilt(s, BuildSnapshots(s.plugins, None, resolution.ids, resolution.stageable), None, answers)
  }

  /** Unmanaged reload: refused for a managed snapshot, an unknown or inactive plugin, or a bad manifest. */
  function RunReload(s: RegistryState, plugin: Plugin, resolution: Resolution, answers: Answers)
    : (RegistryState, Outcome<PluginError>)
  {
    if plugin.id in s.active && s.active[plugin.id].managed.Some? then (s, Fail(ManagedOnly))
    else if plugin.id !in s.statuses || s.statuses[plugin.id].state != Active || !plugin.wellFormed then
      (s, Fail(Unavailable))
    else CommitBuilt(s, BuildSnapshots(s.plugins, Some(plugin), resolution.ids, resolution.stageable), None, answers)
  }

  /** `SetState` covers configuring, enabling and trusting; `accepted` is the provider registry's answer. */
  function Step(s: RegistryState, op: Op): (RegistryState, Outcome<PluginError>) {
    match op
    case SetState(id, state, accepted) =>
      if !accepted || id !in s.statuses then (s, Fail(Unavailable)) else (UpdateStatus(s, id, state, None), Pass)
    case Disable(id, accepted) =>
      if !accepted then (s, Fail(Unavailable))
      else (UpdateStatus(s.(active := s.active - {id}), id, Disabled, None),
            if id in s.statuses then Pass else Fail(Unavailable))
    case MarkFailed(id, failure, accepted) =>
      if Blank(failure) || !accepted then (s, Fail(Unavailable))
      else (UpdateStatus(s.(active := s.active - {id}), id, Failed, Some(failure)),
            if id in s.statuses then Pass else Fail(Unavailable))
    case Activate(resolution, answers) => RunActivate(s, resolution, answers)
    case ActivateManaged(policy, bindings, resolution, answers) =>
      RunManaged(s, None, policy, bindings, resolution, answers)
    case Reload(plugin, resolution, answers) =>
      var (t, r) := RunReload(s, plugin, resolution, answers); (NoteFailure(t, plugin.id, r), r)
    case ReloadManaged(plugin, policy, bindings, resolution, answers) =>
      var (t, r) := RunManaged(s, Some(plugin), policy, bindings, resolution, answers);
      (NoteFailure(t, plugin.id, r), r)
  }

  function Run(s: RegistryState, ops: seq<Op>): RegistryState
    decreases |ops|
  {
    if |ops| == 0 then s else Run(Step(s, ops[0]).0, ops[1..])
  }

  function Discover(plugins: seq<Plugin>): RegistryState {
    var found := Indexed(plugins);
    RegistryState(found, map id | id in found :: Status(found[id].manifest, Discovered, 0, None), map[], 0, None)
  }

  function Indexed(plugins: seq<Plugin>): map<string, Plugin> {
    if |plugins| == 0 then map[]
    else Indexed(plugins[..|plugins| - 1])[plugins[|plugins| - 1].id := plugins[|plugins| - 1]]
  }

  /** The provider registry resolves only plugins that were discovered. */
  predicate Resolves(resolution: Resolution, known: set<string>) {
    forall i :: 0 <= i < |resolution.ids| ==> resolution.ids[i] in known
  }

  /** Configuring, enabling and trusting are the only operations that set a state directly. */
  predicate Plain(op: Op, known: set<string>) {
    match op
    case SetState(_, state, _) => state in {Configured, Enabled, Trusted}
    case Disable(_, _) => true
    case MarkFailed(_, _, _) => true
    case Activate(resolution, _) => Resolves(resolution, known)
    case ActivateManaged(_, _, resolution, _) => Resolves(resolution, known)
    case Reload(_, resolution, _) => Resolves(resolution, known)
    case ReloadManaged(_, _, _, resolution, _) => Resolves(resolution, known)
  }

  predicate AllPlain(ops: seq<Op>, known: set<string>) {
    forall i :: 0 <= i < |ops| ==> Plain(ops[i], known)
  }

  // ----- invariant -----

  /** An active snapshot under policy `p` carries its managed snapshot, for an allowed plugin whose
      manifest is the bound one. */
  ghost predicate ManagedBy(snapshot: Snapshot, id: string, p: Policy) {
    && snapshot.plugin.id == id
    && snapshot.managed.Some?
    && snapshot.managed.value.policy == p.reference
    && snapshot.managed.value.policyVersion == p.version
    && snapshot.managed.value.plugin == id
    && snapshot.managed.value.digest == snapshot.plugin.digest
    && id in p.allowed && id !in p.denied
  }

  ghost predicate LockedIn(s: RegistryState) {
    if s.policy.Some? then forall id :: id in s.active ==> ManagedBy(s.active[id], id, s.policy.value)
    else forall id :: id in s.active ==> s.active[id].managed.None?
  }

  ghost predicate ActiveIsInstalled(s: RegistryState) {
    forall id :: id in s.statuses && s.statuses[id].state == Active ==> id in s.active
  }

  ghost predicate Keyed(plugins: map<string, Plugin>) {
    forall id :: id in plugins ==> plugins[id].id == id
  }

  ghost predicate Inv(s: RegistryState) { Keyed(s.plugins) && LockedIn(s) && ActiveIsInstalled(s) }

  // ----- what is built -----

  ghost predicate Plainly(snapshot: Snapshot) { snapshot.binding.None? && snapshot.managed.None? }

  ghost predicate Admitted(snapshot: Snapshot, policy: Policy) {
    && snapshot.binding.Some? && snapshot.binding.value.digest == snapshot.plugin.digest
    && snapshot.plugin.id in policy.allowed && snapshot.plugin.id !in policy.denied
  }

  lemma {:induction false} BuiltPlainly(
      plugins: map<string, Plugin>, replacement: Option<Plugin>, ids: seq<string>, stageable: set<string>)
    requires Keyed(plugins) && BuildSnapshots(plugins, replacement, ids, stageable).Ok?
    ensures forall x :: x in BuildSnapshots(plugins, replacement, ids, stageable).value ==>
            Plainly(x) && x.plugin.id in ids
  {
    if |ids| > 0 { BuiltPlainly(plugins, replacement, ids[1..], stageable); }
  }

  lemma {:induction false} BuiltAdmitted(
      plugins: map<string, Plugin>, replacement: Option<Plugin>, policy: Policy, bindings: map<string, Binding>,
      ids: seq<string>, stageable: set<string>)
    requires Keyed(plugins) && BuildManaged(plugins, replacement, policy, bindings, ids, stageable).Ok?
    ensures forall x :: x in BuildManaged(plugins, replacement, policy, bindings, ids, stageable).value ==>
                          Admitted(x, policy) && x.plugin.id in ids
  {
    if |ids| > 0 {
      BuiltAdmitted(plugins, replacement, policy, bindings, ids[1..], stageable);
      var first := BuildManagedOne(plugins, replacement, policy, bindings, ids[0], stageable).value;
      forall x | x in first ensures Admitted(x, policy) && x.plugin.id == ids[0] { assert x == first[0]; }
    }
  }

  // ----- installing -----

  /** Every active entry afterwards was there before or is one of the snapshots, under its own id. */
  lemma {:induction false} InstalledEntries(s: RegistryState, snapshots: seq<Snapshot>, id: string)
    requires id in Install(s, snapshots).0.active
    ensures var t := Install(s, snapshots).0;
            (id in s.active && t.active[id] == s.active[id])
              || (t.active[id] in snapshots && t.active[id].plugin.id == id)
    decreases |snapshots|
  {
    if |snapshots| > 0 && snapshots[0].plugin.id in s.statuses {
      InstalledEntries(InstallOne(s, snapshots[0]), snapshots[1..], id);
    }
  }

  lemma {:induction false} InstallKeeps(s: RegistryState, snapshots: seq<Snapshot>)
    requires Keyed(s.plugins) && ActiveIds(snapshots) <= s.statuses.Keys
    requires forall id :: id in s.statuses && s.statuses[id].state == Active ==>
             id in s.active || id in ActiveIds(snapshots)
    ensures var (t, done) := Install(s, snapshots);
            done && Keyed(t.plugins) && ActiveIsInstalled(t) && t.policy == s.policy && t.generation == s.generation
            && t.statuses.Keys == s.statuses.Keys
    decreases |snapshots|
  {
    if |snapshots| > 0 {
      var u := InstallOne(s, snapshots[0]);
      assert u.statuses.Keys == s.statuses.Keys;
      InstallKeeps(u, snapshots[1..]);
    }
  }

  lemma {:induction false} BoundIds(snapshots: seq<Snapshot>, policy: Policy, generation: u64)
    ensures ActiveIds(BindAll(snapshots, policy, generation)) == ActiveIds(snapshots)
  {
    var bound := BindAll(snapshots, policy, generation);
    forall i | 0 <= i < |snapshots| ensures bound[i].plugin == snapshots[i].plugin {}
    forall id ensures id in ActiveIds(bound) <==> id in ActiveIds(snapshots) {
      if id in ActiveIds(bound) {
        var i :| 0 <= i < |bound| && bound[i].plugin.id == id;
        assert snapshots[i].plugin.id == id;
      }
      if id in ActiveIds(snapshots) {
        var i :| 0 <= i < |snapshots| && snapshots[i].plugin.id == id;
        assert bound[i].plugin.id == id;
      }
    }
  }

  lemma {:induction false} ManagedCommitKeeps(
      s: RegistryState, snapshots: seq<Snapshot>, policy: Policy, answers: Answers)
    requires Inv(s) && forall x :: x in snapshots ==> Admitted(x, policy) && x.plugin.id in s.statuses
    ensures var (t, r) := Commit(s, snapshots, Some(policy), answers);
            Inv(t) && t.statuses.Keys == s.statuses.Keys && t.policy == if r.Pass? then Some(policy) else s.policy
  {
    var generation := SatAdd(s.generation, 1);
    var bound := BindAll(snapshots, policy, generation);
    BoundIds(snapshots, policy, generation);
    InstallKeeps(Cleared(s, snapshots), bound);
    if Commit(s, snapshots, Some(policy), answers).1.Pass? {
      var t := Install(Cleared(s, snapshots), bound).0;
      forall id | id in t.active ensures ManagedBy(t.active[id], id, policy) {
        InstalledEntries(Cleared(s, snapshots), bound, id);
        var i :| 0 <= i < |bound| && bound[i] == t.active[id];
        assert snapshots[i] in snapshots && Admitted(snapshots[i], policy);
      }
    }
  }

  lemma {:induction false} PlainCommitKeeps(s: RegistryState, snapshots: seq<Snapshot>, answers: Answers)
    requires Inv(s) && s.policy.None? && forall x :: x in snapshots ==> Plainly(x) && x.plugin.id in s.statuses
    ensures var t := Commit(s, snapshots, None, answers).0;
            Inv(t) && t.policy.None? && t.statuses.Keys == s.statuses.Keys
  {
    InstallKeeps(Cleared(s, snapshots), snapshots);
    if answers.contributionsAccepted {
      var t := Install(Cleared(s, snapshots), snapshots).0;
      forall id | id in t.active ensures t.active[id].managed.None? {
        InstalledEntries(Cleared(s, snapshots), snapshots, id);
      }
    }
  }

  // ----- every operation keeps the invariant -----

  /** A managed registry refuses unmanaged reloads, because an active plugin is an installed one and
      installed ones are managed. */
  lemma {:induction false} ManagedRefusesReload(
      s: RegistryState, plugin: Plugin, resolution: Resolution, answers: Answers)
    requires Inv(s) && s.policy.Some?
    ensures RunReload(s, plugin, resolution, answers).0 == s && RunReload(s, plugin, resolution, answers).1.Fail?
  {
    if plugin.id in s.active { assert ManagedBy(s.active[plugin.id], plugin.id, s.policy.value); }
  }

  lemma {:induction false} ManagedRunKeeps(
      s: RegistryState, replacement: Option<Plugin>, policy: Policy, bindings: map<string, Binding>,
      resolution: Resolution, answers: Answers)
    requires Inv(s) && Resolves(resolution, s.statuses.Keys)
    ensures var (t, r) := RunManaged(s, replacement, policy, bindings, resolution, answers);
            && Inv(t) && t.statuses.Keys == s.statuses.Keys
            && (r.Pass? ==> t.policy == Some(policy) && PolicyTransition(s, policy).Pass?)
            && (r.Fail? ==> t.policy == s.policy)
  {
    if PolicyTransition(s, policy).Pass? {
      match BuildManaged(s.plugins, replacement, policy, bindings, resolution.ids, resolution.stageable)
      case Err(_) =>
      case Ok(snapshots) =>
        BuiltAdmitted(s.plugins, replacement, policy, bindings, resolution.ids, resolution.stageable);
        ManagedCommitKeeps(s, snapshots, policy, answers);
    }
  }

  lemma {:induction false} PlainRunKeeps(
      s: RegistryState, replacement: Option<Plugin>, resolution: Resolution, answers: Answers)
    requires Inv(s) && s.policy.None? && Resolves(resolution, s.statuses.Keys)
    ensures var t := CommitBuilt(s, BuildSnapshots(s.plugins, replacement, resolution.ids, resolution.stageable), None,
                                 answers).0;
            Inv(t) && t.policy.None? && t.statuses.Keys == s.statuses.Keys
  {
    match BuildSnapshots(s.plugins, replacement, resolution.ids, resolution.stageable)
    case Err(_) =>
    case Ok(snapshots) =>
      BuiltPlainly(s.plugins, replacement, resolution.ids, resolution.stageable);
      PlainCommitKeeps(s, snapshots, answers);
  }

  lemma {:induction false} NotingKeeps(s: RegistryState, id: string, r: Outcome<PluginError>)
    requires Inv(s)
    ensures var t := NoteFailure(s, id, r);
            Inv(t) && t.policy == s.policy && t.statuses.Keys == s.statuses.Keys
  {
  }

  /** The policy after a step: unchanged, or one that the current policy may move to. */
  ghost predicate PolicyMoves(before: Option<Policy>, after: Option<Policy>) {
    before.Some? ==>
      after.Some? && after.value.reference == before.value.reference && after.value.version >= before.value.version
  }

  lemma {:induction false} StepKeeps(s: RegistryState, op: Op)
    requires Inv(s) && Plain(op, s.statuses.Keys)
    ensures var t := Step(s, op).0;
            Inv(t) && PolicyMoves(s.policy, t.policy) && t.statuses.Keys == s.statuses.Keys
  {
    match op
    case SetState(_, _, _) =>
    case Disable(_, _) =>
    case MarkFailed(_, _, _) =>
    case Activate(resolution, answers) =>
      if s.policy.None? { PlainRunKeeps(s, None, resolution, answers); }
    case ActivateManaged(policy, bindings, resolution, answers) =>
      ManagedRunKeeps(s, None, policy, bindings, resolution, answers);
    case Reload(plugin, resolution, answers) =>
      if s.policy.Some? {
        ManagedRefusesReload(s, plugin, resolution, answers);
      } else {
        PlainRunKeeps(s, Some(plugin), resolution, answers);
      }
      NotingKeeps(RunReload(s, plugin, resolution, answers).0, plugin.id, RunReload(s, plugin, resolution, answers).1);
    case ReloadManaged(plugin, policy, bindings, resolution, answers) =>
      ManagedRunKeeps(s, Some(plugin), policy, bindings, resolution, answers);
      NotingKeeps(RunManaged(s, Some(plugin), policy, bindings, resolution, answers).0, plugin.id,
                  RunManaged(s, Some(plugin), policy, bindings, resolution, answers).1);
  }

  lemma {:induction false} IndexedIsKeyed(plugins: seq<Plugin>)
    ensures Keyed(Indexed(plugins))
  {
    if |plugins| > 0 { IndexedIsKeyed(plugins[..|plugins| - 1]); }
  }

  lemma {:induction false} DiscoverKeeps(plugins: seq<Plugin>)
    ensures Inv(Discover(plugins)) && Discover(plugins).statuses.Keys == Indexed(plugins).Keys
  {
    IndexedIsKeyed(plugins);
  }

  lemma {:induction false} RunKeeps(s: RegistryState, ops: seq<Op>)
    requires Inv(s) && AllPlain(ops, s.statuses.Keys)
    ensures var t := Run(s, ops);
            Inv(t) && PolicyMoves(s.policy, t.policy) && t.statuses.Keys == s.statuses.Keys
    decreases |ops|
  {
    if |ops| > 0 {
      StepKeeps(s, ops[0]);
      RunKeeps(Step(s, ops[0]).0, ops[1..]);
    }
  }

  // ----- the main results -----

  /** Lock-in over every run: once a managed policy is committed, every later state is under that policy
      at no lower a version, and each active snapshot carries a managed snapshot of exactly the policy
      and version in force, for a plugin that policy allows and whose manifest is the bound one. */
  lemma {:induction false} ManagedPolicyLocksIn(plugins: seq<Plugin>, before: seq<Op>, after: seq<Op>)
    requires AllPlain(before, Indexed(plugins).Keys) && AllPlain(after, Indexed(plugins).Keys)
    ensures var s := Run(Discover(plugins), before);
            var t := Run(s, after);
            && PolicyMoves(s.policy, t.policy)
            && (s.policy.Some? ==> forall id :: id in t.active ==> ManagedBy(t.active[id], id, t.policy.value))
  {
    DiscoverKeeps(plugins);
    RunKeeps(Discover(plugins), before);
    RunKeeps(Run(Discover(plugins), before), after);
  }

  /** Under a managed policy neither unmanaged activation nor unmanaged reload can commit anything: both
      are refused, and at most the plugin's last failure is noted. */
  lemma {:induction false} UnmanagedCommitsAreRefused(plugins: seq<Plugin>, before: seq<Op>, op: Op)
    requires AllPlain(before, Indexed(plugins).Keys) && (op.Activate? || op.Reload?)
    ensures var s := Run(Discover(plugins), before);
            var (t, r) := Step(s, op);
            s.policy.Some? ==> r.Fail? && t.active == s.active && t.plugins == s.plugins && t.generation == s.generation
                               && t.policy == s.policy && t.statuses.Keys == s.statuses.Keys
                               && forall id :: id in s.statuses ==> t.statuses[id].state == s.statuses[id].state
  {
    var s := Run(Discover(plugins), before);
    DiscoverKeeps(plugins);
    RunKeeps(Discover(plugins), before);
    if s.policy.Some? && op.Reload? { ManagedRefusesReload(s, op.plugin, op.resolution, op.answers); }
  }

  /** A completed installation leaves active exactly what was active before and what was installed. */
  lemma {:induction false} InstalledExactly(s: RegistryState, snapshots: seq<Snapshot>, id: string)
    requires Install(s, snapshots).1
    ensures id in Install(s, snapshots).0.active <==> id in s.active || id in ActiveIds(snapshots)
    decreases |snapshots|
  {
    if |snapshots| > 0 {
      InstalledExactly(InstallOne(s, snapshots[0]), snapshots[1..], id);
    }
  }

  /** A plugin that a managed policy should activate. */
  ghost predicate Eligible(s: RegistryState, op: Op, id: string)
    requires op.ActivateManaged?
  {
    && id in op.resolution.ids && id in op.policy.allowed && id !in op.policy.denied
    && id in op.bindings && op.bindings[id].permitted
  }

  lemma {:induction false} BuiltExactly(
      plugins: map<string, Plugin>, replacement: Option<Plugin>, policy: Policy, bindings: map<string, Binding>,
      ids: seq<string>, stageable: set<string>, id: string)
    requires Keyed(plugins) && BuildManaged(plugins, replacement, policy, bindings, ids, stageable).Ok?
    ensures id in ActiveIds(BuildManaged(plugins, replacement, policy, bindings, ids, stageable).value) <==>
            id in ids && id in policy.allowed && id !in policy.denied && id in bindings && bindings[id].permitted
  {
    if |ids| > 0 {
      BuiltExactly(plugins, replacement, policy, bindings, ids[1..], stageable, id);
      var first := BuildManagedOne(plugins, replacement, policy, bindings, ids[0], stageable).value;
      var rest := BuildManaged(plugins, replacement, policy, bindings, ids[1..], stageable).value;
      assert id in ActiveIds(first + rest) <==> (|first| == 1 && first[0].plugin.id == id) || id in ActiveIds(rest) by {
        if id in ActiveIds(rest) {
          var i :| 0 <= i < |rest| && rest[i].plugin.id == id;
          assert (first + rest)[i + |first|].plugin.id == id;
        }
        if |first| == 1 { assert (first + rest)[0] == first[0]; }
      }
    }
  }

  /** An accepted managed activation leaves active exactly the eligible plugins. */
  lemma {:induction false} ManagedActivationIsExact(s: RegistryState, op: Op, id: string)
    requires Inv(s) && op.ActivateManaged? && Step(s, op).1.Pass?
    ensures id in Step(s, op).0.active <==> Eligible(s, op, id)
  {
    var snapshots := BuildManaged(s.plugins, None, op.policy, op.bindings, op.resolution.ids,
                                  op.resolution.stageable).value;
    var generation := SatAdd(s.generation, 1);
    BuiltExactly(s.plugins, None, op.policy, op.bindings, op.resolution.ids, op.resolution.stageable, id);
    BoundIds(snapshots, op.policy, generation);
    InstalledExactly(Cleared(s, snapshots), BindAll(snapshots, op.policy, generation), id);
  }
}
