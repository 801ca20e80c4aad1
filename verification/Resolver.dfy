/**
 The writing operations of `CapabilityResolver` (src/resolver.py) as methods, run alone.  They are
 proved against the sequential specification that the concurrent system serializes to.
 */
module Resolver {
  import opened Wrappers
  import opened Manifests
  import opened Catalog
  import opened Artifacts
  import opened ResolverSystem
  import opened Store

  /** The id and the version can be directory names. */
  predicate Storable(m: Manifest) {
    m.id != "" && m.version != "" && SafeDirname(m.id) && SafeDirname(m.version)
  }

  class CapabilityResolver {
    const store: CapabilityStore
    const policy: Policy

    constructor (store: CapabilityStore, policy: Policy)
      ensures this.store == store && this.policy == policy
    {
      this.store := store;
      this.policy := policy;
    }

    /** The configuration the specification functions read. */
    function Cfg(): Config
      reads store
    {
      Config(store.valid, policy, store.base, store.fs.blocked)
    }

    method FetchManifest(fetch: Fetch, candidate: Manifest) returns (r: Result<Manifest>)
      ensures r == match fetch
                   case NoFetch => Ok(candidate)
                   case FetchFails => Err(InstallFailed)
                   case Fetched(m, digestMatches) =>
                     if !store.valid(m) then Err(BadManifest) else if !digestMatches then Err(InstallFailed) else Ok(m)
    {
      match fetch
      case NoFetch => return Ok(candidate);
      case FetchFails => return Err(InstallFailed);
      case Fetched(m, digestMatches) =>
        if !store.valid(m) {
          return Err(BadManifest);
        }
        if !digestMatches {
          return Err(InstallFailed);
        }
        return Ok(m);
    }

    /** The end of `install`: first the artifact, then the catalog entry. */
    method Persist(m: Manifest, via: Option<string>, token: nat) returns (r: Result<Ref>)
      requires FsOk(store.fs) && token !in store.fs.staging
      modifies store
      ensures !Storable(m) ==> r.Err? && r.error == (if m.id == "" || m.version == "" then InstallFailed else BadManifest)
                               && store.local == old(store.local)
      ensures Storable(m) && m.id in store.fs.blocked ==> r == Err(InstallFailed) && store.local == old(store.local)
      ensures Storable(m) && m.id !in store.fs.blocked ==>
                var (local, done) := UpsertFile(store.valid, old(store.local), m);
                store.local == local && r == if done.Ok? then Ok(Ref(m.id, m.version)) else Err(done.error)
      ensures FsOk(store.fs) && store.fs.blocked == old(store.fs.blocked) && store.fs.staging == old(store.fs.staging)
      ensures Storable(m) && m.id !in store.fs.blocked ==> HasManifest(store.fs, Ref(m.id, m.version))
      ensures forall ref :: HasManifest(old(store.fs), ref) ==>
                HasManifest(store.fs, ref) && store.fs.versions[ref] == old(store.fs).versions[ref]
    {
      ghost var p := InstallProc(m, via, token, Check);
      InstallAloneSpec(store.fs, p);
      assert MANIFEST in p.Complete();
      assert store.fs.staging - {token} == store.fs.staging;
      var _ :- store.InstallManifestAtomic(m, via, token);
      var _ :- store.UpsertLocal(m);
      return Ok(Ref(m.id, m.version));
    }

    method Install(candidate: Manifest, via: Option<string>, fetch: Fetch, token: nat) returns (r: Result<Ref>)
      requires FsOk(store.fs) && token !in store.fs.staging
      modifies store
      ensures var op := Op.Install(candidate, via, fetch);
              && store.local == SpecLocal(old(Cfg()), op, old(store.local))
              && SpecAnswer(old(Cfg()), op, old(store.local)) == (if r.Ok? then InstalledAs(r.value) else Raised(r.error))
      ensures FsOk(store.fs) && store.fs.blocked == old(store.fs.blocked) && store.fs.staging == old(store.fs.staging)
      ensures r.Ok? ==> HasManifest(store.fs, r.value)
      ensures forall ref :: HasManifest(old(store.fs), ref) ==>
                HasManifest(store.fs, ref) && store.fs.versions[ref] == old(store.fs).versions[ref]
    {
      if !store.valid(candidate) {
        return Err(BadManifest);
      }
      if !policy.MayInstall(candidate) {
        return Err(PolicyDenied);
      }
      var m :- FetchManifest(fetch, candidate);
      r := Persist(m, via, token);
    }

    method Remove(id: string, version: string) returns (r: Result<bool>)
      requires FsOk(store.fs)
      modifies store
      ensures var op := Op.Remove(id, version);
              && store.local == SpecLocal(old(Cfg()), op, old(store.local))
              && SpecAnswer(old(Cfg()), op, old(store.local)) == (if r.Ok? then Removed(r.value) else Raised(r.error))
      ensures FsOk(store.fs)
      ensures store.fs.versions == (if r == Ok(true) && SafeDirname(id) && SafeDirname(version)
                                    then Spared(old(store.fs).versions, Ref(id, version)) else old(store.fs).versions)
    {
      var merged :- store.MergedCatalog();
      if !Has(merged, id) {
        return Ok(false);
      }
      var removedLocal :- store.DeleteLocal(id);
      if !removedLocal {
        var _ :- store.SetLocalEnabled(id, false);
      }
      if SafeDirname(id) && SafeDirname(version) {
        RemoveAloneSpec(store.fs, RemoveProc(Ref(id, version), Probe));
        var _ := store.Remove(Ref(id, version));
      }
      return Ok(true);
    }
  }
}
