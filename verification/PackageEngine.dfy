/** The package registry as an object over a shared capability index. */
module PackageEngine {
  import opened Common
  import opened CapabilityIndex
  import P = PackageRegistry

  class CapabilityPackageRegistry {
    const registry: InMemoryCapabilityRegistry
    var archived: map<string, P.Package>
    var active: map<string, P.ActiveSource>
    var generations: map<string, u64>
    ghost var installed: map<string, P.Staged>

    ghost function Current(): P.Registry
      reads this, registry
    {
      P.Registry(archived, active, generations, registry.entries, installed)
    }

    constructor (registry: InMemoryCapabilityRegistry)
      ensures this.registry == registry
      ensures Current() == P.EMPTY.(index := registry.entries)
    {
      this.registry := registry;
      archived, active, generations, installed := map[], map[], map[], map[];
    }

    method Archive(p: P.Package) returns (r: Result<bool, P.RegistryError>)
      modifies this
      ensures match P.Archive(old(Current()), p)
              case Ok(next) => r == Ok(next.1) && Current() == next.0
              case Err(e) => r == Err(e) && Current() == old(Current())
    {
      if !p.wellFormed { return Err(P.InvalidPackage); }
      if p.release in archived {
        if archived[p.release] == p { return Ok(false); }
        return Err(P.ChangedContent);
      }
      archived := archived[p.release := p];
      return Ok(true);
    }

    method Enable(staged: P.Staged, generation: u64) returns (r: Outcome<P.RegistryError>)
      modifies this, registry
      ensures match P.EnableStaged(old(Current()), staged, generation)
              case Ok(next) => r == Pass && Current() == next
              case Err(e) => r == Fail(e) && Current() == old(Current())
    {
      if generation == 0 { return Fail(P.ZeroGeneration); }
      if staged.package in generations && generation != P.NextGeneration(generations[staged.package]) {
        return Fail(P.StaleGeneration);
      }
      var managed := {staged.source.sourceRef};
      if staged.package in active { managed := managed + {active[staged.package].source}; }
      assert managed == P.ManagedSources(Current(), staged.package, staged.source.sourceRef);
      var replaced := registry.ReplaceSources(managed, [staged.source]);
      if replaced.Fail? { return Fail(P.IndexRefused(replaced.error)); }
      generations := generations[staged.package := generation];
      active := active[staged.package := P.ActiveSource(staged.release, staged.source.sourceRef, generation)];
      installed := installed[staged.package := staged];
      return Pass;
    }

    method Disable(package: string, generation: u64) returns (r: Result<bool, P.RegistryError>)
      modifies this, registry
      ensures match P.Disable(old(Current()), package, generation)
              case Ok(next) => r == Ok(next.1) && Current() == next.0
              case Err(e) => r == Err(e) && Current() == old(Current())
    {
      if package !in generations { return Err(P.NoLifecycle); }
      if generation != P.NextGeneration(generations[package]) { return Err(P.StaleGeneration); }
      var was := Remove(package);
      generations := generations[package := generation];
      return Ok(was);
    }

    method Fence(package: string) returns (was: bool)
      modifies this, registry
      ensures (Current(), was) == P.Fence(old(Current()), package)
    {
      was := Remove(package);
    }

    method Remove(package: string) returns (was: bool)
      modifies this, registry
      ensures was == (package in old(active)) && Current() == P.Deactivate(old(Current()), package)
    {
      was := package in active;
      if was {
        registry.RemoveSource(active[package].source);
        active := active - {package};
        installed := installed - {package};
      }
    }
  }
}
