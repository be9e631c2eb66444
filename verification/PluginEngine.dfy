/** The local plugin registry as an object. */
module PluginEngine {
  import opened Common
  import M = ManagedPlugins

  /** What is built in all, when `built` is done and `rest` remains. */
  ghost function After(built: seq<M.Snapshot>, rest: Result<seq<M.Snapshot>, M.PluginError>)
    : (all: Result<seq<M.Snapshot>, M.PluginError>)
    ensures built == [] ==> all == rest
    ensures rest == Ok([]) ==> all == Ok(built)
  {
    if rest.Ok? then
      assert built == [] ==> built + rest.value == rest.value;
      assert rest.value == [] ==> built + rest.value == built;
      Ok(built + rest.value)
    else rest
  }

  lemma {:induction false} AfterOneMore(
      built: seq<M.Snapshot>, one: M.Snapshot, rest: Result<seq<M.Snapshot>, M.PluginError>)
    ensures After(built + [one], rest) == After(built, After([one], rest))
  {
    if rest.Ok? { assert built + [one] + rest.value == built + ([one] + rest.value); }
  }

  class LocalPluginRegistry {
    var plugins: map<string, M.Plugin>
    var statuses: map<string, M.Status>
    var active: map<string, M.Snapshot>
    var generation: u64
    var managedPolicy: Option<M.Policy>

    ghost function Current(): M.RegistryState
      reads this
    {
      M.RegistryState(plugins, statuses, active, generation, managedPolicy)
    }

    constructor (discovered: seq<M.Plugin>)
      ensures Current() == M.Discover(discovered)
    {
      plugins := M.Indexed(discovered);
      statuses := M.Discover(discovered).statuses;
      active, generation, managedPolicy := map[], 0, None;
    }

    method BuildSnapshots(replacement: Option<M.Plugin>, ids: seq<string>, stageable: set<string>)
      returns (r: Result<seq<M.Snapshot>, M.PluginError>)
      ensures r == M.BuildSnapshots(plugins, replacement, ids, stageable)
    {
      var built: seq<M.Snapshot> := [];
      assert ids[0..] == ids;
      for i := 0 to |ids|
        invariant M.BuildSnapshots(plugins, replacement, ids, stageable) ==
                  After(built, M.BuildSnapshots(plugins, replacement, ids[i..], stageable))
      {
        assert ids[i..][1..] == ids[i + 1..];
        var plugin := M.Pick(plugins, replacement, ids[i]);
        if plugin.None? { return Err(M.Unavailable); }
        if ids[i] !in stageable { return Err(M.StagingRefused); }
        var snapshot := M.Snapshot(plugin.value, None, None);
        AfterOneMore(built, snapshot, M.BuildSnapshots(plugins, replacement, ids[i + 1..], stageable));
        built := built + [snapshot];
      }
      return Ok(built);
    }

    method BuildManagedSnapshots(replacement: Option<M.Plugin>, policy: M.Policy, bindings: map<string, M.Binding>,
                                 ids: seq<string>, stageable: set<string>)
      returns (r: Result<seq<M.Snapshot>, M.PluginError>)
      ensures r == M.BuildManaged(plugins, replacement, policy, bindings, ids, stageable)
    {
      var built: seq<M.Snapshot> := [];
      assert ids[0..] == ids;
      for i := 0 to |ids|
        invariant M.BuildManaged(plugins, replacement, policy, bindings, ids, stageable) ==
                  After(built, M.BuildManaged(plugins, replacement, policy, bindings, ids[i..], stageable))
      {
        assert ids[i..][1..] == ids[i + 1..];
        var id := ids[i];
        ghost var rest := M.BuildManaged(plugins, replacement, policy, bindings, ids[i + 1..], stageable);
        assert After([], rest) == rest;
        var plugin := M.Pick(plugins, replacement, id);
        if plugin.None? { return Err(M.Unavailable); }
        if id in policy.denied || id !in policy.allowed { continue; }
        if id !in bindings { return Err(M.BindingMissing); }
        var binding := bindings[id];
        if !binding.wellFormed { return Err(M.InvalidBinding); }
        if !binding.permitted { continue; }
        if binding.digest != plugin.value.digest { return Err(M.DigestMismatch); }
        if !binding.verified { return Err(M.SignatureRefused); }
        if id !in stageable { return Err(M.StagingRefused); }
        var snapshot := M.Snapshot(plugin.value, Some(binding), None);
        AfterOneMore(built, snapshot, rest);
        built := built + [snapshot];
      }
      return Ok(built);
    }

    /** Installs one snapshot after another, stopping at one whose plugin has no status. */
    method Install(snapshots: seq<M.Snapshot>) returns (done: bool)
      modifies `plugins, `statuses, `active
      ensures (Current(), done) == M.Install(old(Current()), snapshots)
    {
      for i := 0 to |snapshots|
        invariant managedPolicy == old(managedPolicy) && generation == old(generation)
        invariant M.Install(Current(), snapshots[i..]) == M.Install(old(Current()), snapshots)
      {
        assert snapshots[i..][1..] == snapshots[i + 1..];
        var plugin := snapshots[i].plugin;
        plugins := plugins[plugin.id := plugin];
        if plugin.id !in statuses { return false; }
        statuses := statuses[plugin.id := M.Status(plugin.manifest, M.Active, generation, None)];
        active := active[plugin.id := snapshots[i]];
      }
      return true;
    }

    method Commit(snapshots: seq<M.Snapshot>, policy: Option<M.Policy>, answers: M.Answers)
      returns (r: Outcome<M.PluginError>)
      modifies this
      ensures (Current(), r) == M.Commit(old(Current()), snapshots, policy, answers)
    {
      if !answers.contributionsAccepted { return Fail(M.ContributionsRefused); }
      generation := SatAdd(generation, 1);
      var bound := snapshots;
      if policy.Some? {
        if |snapshots| > 0 && !(answers.snapshotsValid && M.AllBound(snapshots)) { return Fail(M.InvalidSnapshot); }
        for i := 0 to |snapshots|
          invariant |bound| == |snapshots|
          invariant forall k :: 0 <= k < i ==> bound[k] == M.Bound(snapshots[k], policy.value, generation)
          invariant forall k :: i <= k < |bound| ==> bound[k] == snapshots[k]
        {
          bound := bound[i := M.Bound(bound[i], policy.value, generation)];
        }
        assert bound == M.BindAll(snapshots, policy.value, generation);
      }
      statuses := M.Demote(statuses, M.ActiveIds(snapshots));
      active := map[];
      assert Current() == M.Cleared(old(Current()), snapshots);
      var done := Install(bound);
      if !done { return Fail(M.Unavailable); }
      if policy.Some? { managedPolicy := policy; }
      return Pass;
    }

    method SetState(id: string, state: M.RuntimeState, accepted: bool) returns (r: Outcome<M.PluginError>)
      modifies this
      ensures (Current(), r) == M.Step(old(Current()), M.SetState(id, state, accepted))
    {
      if !accepted { return Fail(M.Unavailable); }
      r := UpdateStatus(id, state, None);
    }

    method UpdateStatus(id: string, state: M.RuntimeState, failure: Option<string>) returns (r: Outcome<M.PluginError>)
      modifies `statuses
      ensures Current() == M.UpdateStatus(old(Current()), id, state, failure)
      ensures r == if id in old(statuses) then Pass else Fail(M.Unavailable)
    {
      if id !in statuses { return Fail(M.Unavailable); }
      statuses := statuses[id := statuses[id].(state := state, lastFailure := failure)];
      return Pass;
    }

    method Disable(id: string, accepted: bool) returns (r: Outcome<M.PluginError>)
      modifies this
      ensures (Current(), r) == M.Step(old(Current()), M.Op.Disable(id, accepted))
    {
      if !accepted { return Fail(M.Unavailable); }
      active := active - {id};
      r := UpdateStatus(id, M.Disabled, None);
    }

    method MarkFailed(id: string, failure: string, accepted: bool) returns (r: Outcome<M.PluginError>)
      modifies this
      ensures (Current(), r) == M.Step(old(Current()), M.Op.MarkFailed(id, failure, accepted))
    {
      if Blank(failure) || !accepted { return Fail(M.Unavailable); }
      active := active - {id};
      r := UpdateStatus(id, M.Failed, Some(failure));
    }

    method Activate(resolution: M.Resolution, answers: M.Answers) returns (r: Outcome<M.PluginError>)
      modifies this
      ensures (Current(), r) == M.Step(old(Current()), M.Op.Activate(resolution, answers))
    {
      if managedPolicy.Some? { return Fail(M.ManagedOnly); }
      var built := BuildSnapshots(None, resolution.ids, resolution.stageable);
      if built.Err? { return Fail(built.error); }
      r := Commit(built.value, None, answers);
    }

    method RunManaged(replacement: Option<M.Plugin>, policy: M.Policy, bindings: map<string, M.Binding>,
                      resolution: M.Resolution, answers: M.Answers) returns (r: Outcome<M.PluginError>)
      modifies this
      ensures (Current(), r) == M.RunManaged(old(Current()), replacement, policy, bindings, resolution, answers)
    {
      if !policy.wellFormed { return Fail(M.InvalidPolicy); }
      if managedPolicy.Some? {
        if managedPolicy.value.reference != policy.reference || policy.version < managedPolicy.value.version {
          return Fail(M.PolicyMovedBackwards);
        }
      }
      var built := BuildManagedSnapshots(replacement, policy, bindings, resolution.ids, resolution.stageable);
      if built.Err? { return Fail(built.error); }
      r := Commit(built.value, Some(policy), answers);
    }

    method ActivateManaged(
        policy: M.Policy, bindings: map<string, M.Binding>, resolution: M.Resolution, answers: M.Answers)
      returns (r: Outcome<M.PluginError>)
      modifies this
      ensures (Current(), r) == M.Step(old(Current()), M.Op.ActivateManaged(policy, bindings, resolution, answers))
    {
      r := RunManaged(None, policy, bindings, resolution, answers);
    }

    /** After a failed reload the previous contributions stay, and the failure is noted. */
    method NoteFailure(id: string, r: Outcome<M.PluginError>)
      modifies `statuses
      ensures Current() == M.NoteFailure(old(Current()), id, r)
    {
      if r.Fail? && id in statuses { statuses := statuses[id := statuses[id].(lastFailure := Some("failed"))]; }
    }

    method Reload(plugin: M.Plugin, resolution: M.Resolution, answers: M.Answers) returns (r: Outcome<M.PluginError>)
      modifies this
      ensures (Current(), r) == M.Step(old(Current()), M.Op.Reload(plugin, resolution, answers))
    {
      if plugin.id in active && active[plugin.id].managed.Some? {
        r := Fail(M.ManagedOnly);
      } else if plugin.id !in statuses || statuses[plugin.id].state != M.Active || !plugin.wellFormed {
        r := Fail(M.Unavailable);
      } else {
        var built := BuildSnapshots(Some(plugin), resolution.ids, resolution.stageable);
        if built.Err? {
          r := Fail(built.error);
        } else {
          r := Commit(built.value, None, answers);
        }
      }
      NoteFailure(plugin.id, r);
    }

    method ReloadManaged(plugin: M.Plugin, policy: M.Policy, bindings: map<string, M.Binding>,
                         resolution: M.Resolution, answers: M.Answers) returns (r: Outcome<M.PluginError>)
      modifies this
      ensures (Current(), r) ==
              M.Step(old(Current()), M.Op.ReloadManaged(plugin, policy, bindings, resolution, answers))
    {
      r := RunManaged(Some(plugin), policy, bindings, resolution, answers);
      NoteFailure(plugin.id, r);
    }
  }
}
