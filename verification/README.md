# Capability resolver: a verified model

This project models a capability resolver and proves what its protocols promise. The resolver keeps a
base catalog that is never written and a local catalog that is rewritten in place; it installs and removes
capability artifacts in a directory tree; and many processes do so at once, each of which may be killed at
any moment. Around that core it ranks candidates from several registries, onboards connectors by the OAuth
device flow, signs and reviews manifests, decides which hosts may be reached, and lets governed
capabilities run once per authority.

Verify with `dafny verify dfyconfig.toml` (Dafny 4.11).

## How the model is laid out

| file | what it holds |
|---|---|
| `Wrappers`, `Text`, `Sorting` | results and options, text order and substrings, the algebra of stable sorting |
| `Manifests` | manifests as the resolver inspects them, the policy gates, directory-name rules |
| `Catalog` | catalog files as ordered dictionaries, and their refinement of an ordered two-layer map |
| `Artifacts` | the artifact tree: installer and removal as sequences of single file operations |
| `InstallRace` | any number of installers and removals without the lock |
| `ResolverSystem`, `ResolverTheorems`, `ResolverTree` | install, remove, get, list and run as processes under the file lock, with kills |
| `ResolverAnswers`, `ResolverOwnership` | what each of those operations has answered and left, and how long an installed artifact stands |
| `Store`, `Resolver` | the store and the resolver as classes, proved against the functions above |
| `AtomicWrite` | the atomic file write on a volume that can lose power |
| `Discovery`, `Search` | the three registry adapters, search and resolve |
| `OAuth`, `OAuthHistory`, `OAuthManager` | the device flow over sessions, secrets and catalog, as runs with kills and as classes |
| `JsonText`, `CanonicalForm`, `SupplyChain` | JSON printing and parsing, the canonical form, signing and verifying |
| `Permissions` | permission differences over chains of updates |
| `Egress`, `Execution` | rule matching, egress decisions and the requests an execution sends |
| `McpRoundTrip` | from a tool listed by the MCP registry adapter to the requests its execution sends |
| `Governance` | execution authority and the replay guard over whole runs |

Each function that decides something (a gate, a score, a rule, a text) is stated a second time by its effect:
by the values it admits, the entries it picks or the exact text it writes, without naming the function.

State machines are deterministic functions folded over a list of events. A theorem about "every run" is a
statement for every such list, so for every interleaving, every kill and every number of processes. Code
that changes state step by step is also written as methods of classes, whose contracts equate the new
state with those functions.

Points where the model had to choose:

- Schema validation is a parameter, any predicate `valid`. Where more is needed, `SchemaLike` says what is
  assumed: a non-empty id and version, one of the four trust levels, secrets as references, closure under
  changing `enabled` and under replacing the secrets by well-formed references (`SchemaLikeCanBeMet`
  gives an instance). The shipped manifest schema
  forbids extra fields (schemas/capability.manifest.v0.1.schema.json:6), so instantiating `valid` with it
  would leave the governed runs without any instance.
- Scores are multiples of 0.25 and are kept as integers in quarters.
- `_load_catalog_file` says that it allows a bare list, but a root that is not an object is rejected
  before that line is reached (src/store.py:124-129). The model follows the code.
- A rename onto a non-empty directory fails (IEEE Std 1003.1-2017, System Interfaces, `rename()`), and
  `flock` grants a descriptor the shared lock when no descriptor holds it exclusively.
- Tokens and temporary names that the source draws at random are assumed unique.
- Ed25519 is ideal (section 5.1 of RFC 8032): what a public key verifies was signed by its private key
  (`IdealCanBeMet` gives an instance of the assumption).
  JSON strings follow section 7 of RFC 8259; the texts are sequences of characters, not of bytes.
- Token handles of two connectors can coincide only if one id ends in "/" and the other. Such ids can stand in a
  catalog file, since the schema asks of an id only that it be non-empty, but never become installed artifacts,
  since `_safe_dirname` refuses "/" (src/store.py:22-27).
- A governance timeout may be a NaN, which passes both comparisons of src/governance.py:29; infinities are
  covered by the real numbers beyond either bound.
- Pending and granted token answers are those of section 3.5 of RFC 8628.

## Model

| member | source | states |
|---|---|---|
| `Artifacts.InventoryIsNonEmptyDirs` | src/store.py:84-103 | Under the tree invariant the install inventory is exactly the set of non-empty version directories, although it is computed from the presence of the manifest file. |
| `Artifacts.InstallStepEffect` | src/installer.py:54-82 | Every single file operation of an installer keeps the tree invariant, leaves every other process's staging directory alone, and changes a version directory only by promoting its own complete manifest and meta into an empty place. |
| `Artifacts.ConflictIsTruthful` | src/installer.py:54-76 | Whenever an installer reports "already there", by its first check or by losing the rename, the manifest file of that ref exists. |
| `Artifacts.ReverseListing` | src/store.py:232-234 | The reverse-sorted deletion order of a whole version directory is install.meta.json first and capability.manifest.json last. |
| `Artifacts.ContentsNames` | src/store.py:232 | The reverse-sorted walk lists the files of every version directory under the path, each version's meta file before its manifest, and nothing outside the path. |
| `Artifacts.ContentsIsReverseSorted` | src/store.py:232 | The walk lists exactly the files under the path, and with version "." the version directories, in strictly descending path order, part by part. |
| `Artifacts.RemoveStepEffect` | src/store.py:226-249 | Every single file operation of a removal, also of one whose version is ".", keeps the tree invariant (each version's manifest goes last) and touches no version directory outside its path and no other id's directory. |
| `Artifacts.InstallAloneSpec` | src/installer.py:43-82 | An installer left to run reports an update exactly when the manifest was absent and the id's directory can be made, then its own manifest and meta are the directory; otherwise the tree of versions is unchanged; its staging directory is gone either way. |
| `Artifacts.InstallAloneParent` | src/installer.py:67-68 | An installer left to run leaves the id's directory there, unless something else is in its place. |
| `Artifacts.RemoveAloneSpec` | src/store.py:226-249 | A removal left to run deletes exactly the version directories under its path, the one it names or with version "." all of the id's; it reports true exactly if that directory existed. |
| `Artifacts.RemoveAloneParent` | src/store.py:238-243 | It takes the id's directory along exactly when it found its path and no other version of the id is left. |
| `Artifacts.LayoutCollisions` | src/store.py:69-70 | Two refs have the same directory path exactly when they are equal or differ only by a "." in one standing in for the other's name. |
| `Artifacts.CoverageIsThePath` | src/store.py:69-70 | Among ordinary refs, the directories at or under the path of a removal are exactly the ones it is said to cover: its own, or with version "." all versions of the id. |
| `Artifacts.DotCollapsesTheLayout` | src/store.py:22-27 | A directory name "." passes `_safe_dirname`, and with it two different refs share a directory. |
| `InstallRace.ExactlyOneWinner` | src/installer.py:43-82 | For any number of installers, any interleaving and no removal: at most one installer of a ref reports an update, its manifest and meta stand together in the final directory, every installer that returns without failing does so with the manifest in place, and if that was not so at the start somebody has won. |
| `InstallRace.WinnerStands` | src/installer.py:67-78 | A promoted directory is never changed by any later interleaving of installers. |
| `InstallRace.CrashInvariant` | src/store.py:226-243 | With kills anywhere, and with no step of a removal after another whose path overlaps its own has overtaken it, every non-empty version directory contains its manifest, so reading ENOTEMPTY as success is truthful and the inventory is the non-empty directories. |
| `InstallRace.DifferentVersionsInterleave` | src/store.py:226-243 | Any interleaving of installers with removals of pairwise different versions, with kills anywhere and no other condition, keeps that invariant. |
| `InstallRace.CrashInvariantFrom` | src/installer.py:57-76 | The same invariant carried through any list of steps from any state that satisfies it, the removals that may still step knowing exactly what they have left to delete. |
| `InstallRace.OverlapBreaksIt` | src/store.py:232-234 | Any two live removals whose paths overlap, version "." included, have an interleaving with an installer that leaves a version directory holding the meta file but not the manifest. |
| `InstallRace.SafeExactlyWithoutOverlap` | src/store.py:226-243 | Without the lock, any list of removals leaves every manifest in place, on every tree, with any installers and on every schedule, exactly when no two of their paths overlap. |
| `InstallRace.RaceKeepsOk` | src/installer.py:43-82 | The race invariant is kept by every interleaving, no installer changes what it installs, and a promotion is never forgotten. |
| `ResolverSystem.WriterStepOk` | src/resolver.py:90-107 | Each single file operation of an install or removal keeps what the writer knows about the catalog and the tree; the rename of the catalog file is the one step that commits the specified new catalog. |
| `ResolverTheorems.EventOk` | src/locks.py:20-38 | The system invariant is kept by every event: spawning a process, any step of any process, any kill. |
| `ResolverTheorems.RunOk` | src/resolver.py:90-107 | The system invariant is kept by every list of events. |
| `ResolverTheorems.Serializable` | src/resolver.py:63-107 | Serializability: in every reachable state, each answer already returned is the one of running the live operations one after another in lock-acquisition order, and when nobody writes so is the local catalog; the base catalog is never written. |
| `ResolverAnswers.GetAnswers` | src/resolver.py:80-88 | In every reachable state, a `get` that has returned answered with the entry of the merged catalog it met that has the id and, if one was asked for, the version; with not-found if there is none; or with the error of the file that did not load. |
| `ResolverAnswers.RunAnswers` | src/resolver.py:269-282 | In every reachable state, a `run` that has returned let exactly that entry through, if it is enabled, onboarded where it must be and not asked for on another channel; a present entry that is not was refused as against policy. |
| `ResolverAnswers.ListAnswers` | src/resolver.py:63-78 | In every reachable state, a `list` that has returned listed the entries of the merged catalog it met, each once, in strictly ascending code-point order of their ids. |
| `ResolverAnswers.InstallAnswers` | src/resolver.py:213-257 | In every reachable state, an install that has returned succeeded exactly if its candidate is schema-valid and has an allowed trust level and secrets that are references only, what it works with (the candidate, or what was fetched under the pinned digest) can be stored, and the local catalog loads; it was refused by policy exactly if the valid candidate fails those two checks, and by an install error exactly if the fetch fails or misses the digest, a name is empty or the directory cannot be made; a refused install left the catalog alone and a successful one put its manifest there. |
| `ResolverAnswers.RemoveAnswers` | src/resolver.py:90-107 | In every reachable state, a removal that has returned reported whether the merged catalog had the id; then a local entry is gone and a base-only one is there disabled; in every other case the catalog is as before. |
| `ResolverTheorems.CatalogIsNeverTorn` | src/store.py:143-148 | In every reachable state, also in the middle of a write and after kills, the local catalog file is the sequential state before or after the last operation. |
| `ResolverTheorems.NoInstallIsLost` | src/resolver.py:213-267 | In every reachable state, with kills and half-done writes of others: once an install has returned, and until a live operation on the same id gets the lock after it, the local catalog on disk holds exactly the installed manifest. |
| `ResolverOwnership.InstalledArtifactStands` | src/resolver.py:253-257 | In every reachable state, with kills and half-done writes of others: once an install has returned, and until a live operation on the same id gets the lock after it, the artifact it reported is there. |
| `ResolverTheorems.LoggedInstallStands` | src/store.py:163-186 | On a log of operations: the entry of an install stands until a later live operation on the same id. |
| `ResolverTheorems.UntouchedEntryStays` | src/store.py:163-186 | An operation that does not target an id leaves that id's local entry as it is. |
| `ResolverTheorems.EntriesHaveArtifacts` | src/resolver.py:253-257 | Write ordering with kills anywhere: each local entry that an install put there has the artifact directory of its own version. |
| `ResolverTheorems.ArtifactsStayWhole` | src/store.py:226-243 | The crash invariant of the artifact tree holds in every reachable state of the locked system. |
| `ResolverTree.TreeIsSerializable` | src/resolver.py:90-107 | Serializability of the artifact tree: in every run in which no writer is killed, whenever nobody is writing the whole tree, staging included, is the one the operations leave when each runs alone to its end in lock-acquisition order. |
| `ResolverTree.TreeAfterSpec` | src/resolver.py:90-107 | What one operation does to the tree there: an admitted install adds capability.manifest.json and install.meta.json in the version's directory unless a manifest is there or it cannot be made; a removal that found its capability deletes the versions under its path; nothing else changes. |
| `ResolverTree.WriterStaysOnTheWay` | src/resolver.py:253-257 | Each file operation of a writer keeps the tree on the way from where the operation found it to where it leaves it when it runs alone. |
| `ResolverTheorems.MutualExclusion` | src/locks.py:30-38 | A descriptor that holds the lock exclusively is alone: no other exclusive and no shared holder. |
| `ResolverTheorems.LockGrantedExactly` | src/locks.py:20-38 | In every reachable state a waiting reader is granted the lock exactly if nobody writes, whoever else reads, and a waiting writer exactly if nobody reads or writes. |
| `ResolverTheorems.NoDeadlock` | src/locks.py:20-38 | In every reachable state, while any operation is unfinished some operation can take a step. |
| `ResolverTheorems.ReaderNeverBlocked` | src/resolver.py:269-281 | In every reachable state a holder of the shared lock can take its next step; in particular `run`, which takes the shared lock again inside `get`, does not wait for itself. |
| `ResolverTheorems.DeadWriterReplay` | src/store.py:163-178 | Killing a writer leaves the catalog the log prescribes: unchanged if its catalog rename had not happened, as specified if it had. |
| `Catalog.PutSpec` | src/store.py:169 | Assigning a key changes exactly that key; a new key goes to the end and an old one keeps its place. |
| `Catalog.DropSpec` | src/store.py:176 | Removing a key removes exactly that key and keeps the others in their order. |
| `Catalog.MergeSpec` | src/store.py:156-161 | In the merged catalog the local entry wins and every other base entry shows. |
| `Catalog.MergeOrder` | src/store.py:156-161 | The merged catalog lists base ids in base order and then the ids only the local layer has, in local order (the order that breaks ties in search). |
| `Catalog.LoadGood` | src/store.py:117-141 | A file that loads gives distinct non-empty ids and only schema-valid manifests. |
| `Catalog.LoadDecides` | src/store.py:117-141 | A catalog file loads exactly if it is missing, has no list, or a list whose objects are all schema-valid, whatever else stands between them; the last object with an id is its value, and ids stand in the order of their first objects. |
| `Catalog.SaveLoadRoundTrip` | src/store.py:117-148 | Writing a catalog and loading it back gives the same ordered dictionary. |
| `Catalog.ApplyMatches` | src/store.py:163-196 | Each of upsert, delete, set-enabled, remove and reset on the files does what it does on the abstract pair of ordered dictionaries, key order included, with the same result or error. |
| `Catalog.FailuresLeaveTheFile` | src/store.py:163-186 | An operation that fails or finds nothing to do leaves the local file as it is, and nothing but a reset replaces one that does not load. |
| `Catalog.ReplayMatchesLayers` | src/store.py:156-196 | Every sequence of those operations gives the same merged view, the same entries in the same order, as replaying it on the pair of ordered dictionaries, and never changes the base. |
| `Catalog.RemoveUncoversBase` | src/resolver.py:96-100 | Removing an override makes the base entry visible again. |
| `Catalog.RemoveDisablesBaseEntry` | src/policy.py:41-43 | Removing a base-only entry leaves a disabled override which `enforce_run` refuses on every channel. |
| `Catalog.RemoveTwiceRestoresBase` | src/resolver.py:96-100 | Two removals of a base-only capability cancel out: the entry is back as shipped. |
| `Manifests.EnforceInstallDecides` | src/policy.py:28-39 | The installation gate passes exactly the manifests whose trust level is allowed and whose secrets, if any, are a list of objects with a reference and no value. |
| `Manifests.EnforceRunDecides` | src/policy.py:41-53 | The run gate passes exactly what is not disabled, has a secret whose name begins with "oauth_" in any case if it requires OAuth, and is not asked for on another channel than the one it declares. |
| `Manifests.SafeDirnamesAreSegments` | src/store.py:22-27 | A directory name is usable exactly if it is not empty, has no slash, backslash or NUL, no two dots in a row, and no white space at either end. |
| `Store.CapabilityStore.LoadCatalogFile` | src/store.py:117-141 | The loading loop yields the specified ordered dictionary or error, skipping non-objects and items without an id. |
| `Store.CapabilityStore.MergedCatalog` | src/store.py:156-161 | The merge loop yields the specified merged catalog, or the error of the first file that does not load. |
| `Store.CapabilityStore.UpsertLocal` | src/store.py:163-170 | Validate, load, assign, rewrite: the new local file and the result are those of the specification; any error leaves the file alone. |
| `Store.CapabilityStore.DeleteLocal` | src/store.py:172-178 | Load, remove, rewrite: the new local file and the result are those of the specification. |
| `Store.CapabilityStore.SetLocalEnabled` | src/store.py:180-186 | Copies the merged entry into the local layer with `enabled` set; an unknown id is an error. |
| `Store.CapabilityStore.FactoryReset` | src/store.py:188-196 | Afterwards the local catalog, every artifact and the staging area are gone. |
| `Store.CapabilityStore.ListInstalled` | src/store.py:84-103 | The inventory is in strictly ascending order of id and then version, and lists exactly the version directories that hold capability.manifest.json. |
| `Store.CapabilityStore.InstallManifestAtomic` | src/installer.py:43-82 | Empty and unusable ids and versions are refused with their own errors and change nothing; otherwise `updated` is false exactly if the manifest was there, the call fails exactly if it was not and its directory cannot be made, and is true exactly if the version's directory now holds its manifest and meta. |
| `Store.CapabilityStore.StageAndPromote` | src/installer.py:54-82 | The method's file operations are exactly the steps of the installer process, and so is its outcome. |
| `Store.CapabilityStore.WriteStage` | src/installer.py:63-65 | Staging the two files takes exactly the steps of the installer process from its staging directory to the promotion. |
| `Store.CapabilityStore.PromoteStage` | src/installer.py:67-82 | Renaming into place, with a lost rename counted as success, and cleaning up take exactly the remaining steps of the installer process. |
| `Store.CapabilityStore.ListContents` | src/store.py:232 | The listing is the specified reverse-sorted walk, of one version directory or of all of an id's. |
| `Store.CapabilityStore.Remove` | src/store.py:226-249 | The deletion loop's file operations are exactly the steps of the removal process, and so is its result. |
| `Resolver.CapabilityResolver.Persist` | src/resolver.py:253-267 | First the artifact, then the entry: if the id or version cannot be a directory name or the id's directory cannot be made, the catalog is unchanged; otherwise the artifact is there and the catalog is the specified one; no earlier artifact changes. |
| `Resolver.CapabilityResolver.Install` | src/resolver.py:213-267 | Run alone, install gives the catalog and the answer of the sequential specification the concurrent system serializes to; on success the artifact is there, and an artifact that was there before is unchanged. |
| `Resolver.CapabilityResolver.Remove` | src/resolver.py:90-107 | Run alone, remove gives the catalog and the answer of the sequential specification and, if the names are usable, deletes exactly the version directories under the path it names. |
| `AtomicWrite.NeverTorn` | src/atomic.py:10-29 | After a power loss in any state of any call, failing or not, the target reads as one of its complete old texts or as the complete new text. |
| `AtomicWrite.ReturnIsDurable` | src/atomic.py:18-22 | After a normal return only the new text can survive a power loss, and no temporary file. |
| `AtomicWrite.EachSyncIsNeeded` | src/atomic.py:16-22 | Neither sync can be left out: renamed without the file sync, the target may come up with any text; without the directory sync, whatever was there before may come back. |
| `AtomicWrite.FailureKeepsOld` | src/atomic.py:12-29 | A call that fails before the rename leaves the target and its durable alternatives as they were; no call leaves its temporary name, and one that cannot make its temporary file leaves everything as it was. |
| `AtomicWrite.TraceKeepsPromise` | src/atomic.py:10-29 | Everything a caller is promised, about all the states of one call at once: untorn throughout, no temporary name at the end, the new text after a normal return, the old one after a failure before the rename. |
| `AtomicWrite.EpisodeKeeps` | src/atomic.py:10-29 | Each call, whether it returns, fails or is cut off by a power loss at any point, leaves the target untorn. |
| `AtomicWrite.HistoryKeeps` | src/atomic.py:10-29 | Over any history of calls, faults and power losses, what can survive is a text of the start or the text of one of the calls. |
| `AtomicWrite.SurvivorIsRecent` | src/atomic.py:10-29 | Over any such history, what survives is the text of the last call that returned or of a call made after it. |
| `AtomicWrite.Volume.AtomicWriteText` | src/atomic.py:10-29 | The method puts the volume through exactly the specified states, in order, with and without faults, and returns normally exactly without one. |
| `Discovery.MatchingGap` | src/discovery.py:40-50 | For the four schema trust levels, a boosted catalog manifest that matches the intent scores at least 4.25 above every unboosted one, whatever the adapter's penalty. |
| `Discovery.HitsCount` | src/discovery.py:40-50 | A hit of the intent, lower-cased and not empty, in the id is worth exactly 5.0 and one in the description 2.0; a verified manifest without a hit scores 0. |
| `Discovery.TrustCounts` | src/discovery.py:35-37 | Between manifests with the same id and description, verified is exactly 0.25 above local, local above community, community above untrusted, and untrusted 1.5 above any other level. |
| `Discovery.BoostGoesToHits` | src/resolver.py:116-121 | A catalog candidate gains exactly 10.0 if it has a hit, except that outside the four trust levels only a hit in the id counts. |
| `Discovery.ListStatic` | src/discovery.py:83-95 | The adapter's loop and sort yield the stable descending sort of the specified candidates, or the first validation error. |
| `Discovery.ListHttpPage` | src/discovery.py:131-161 | The inner loop over one catalog's entries, with penalties 2 and 3, yields the specified candidates, or the first validation error. |
| `Discovery.ListHttp` | src/discovery.py:124-163 | The outer loop over catalog urls yields the stable descending sort of the specified candidates, or the first error. |
| `Discovery.ListMcpServer` | src/discovery.py:205-242 | The inner loop over one server's tools yields the specified candidates, with penalty 4, or the first error. |
| `Discovery.ListMcp` | src/discovery.py:198-244 | The request and the outer loop over servers yield the stable descending sort of the specified candidates, or the first error, a registry that does not answer included. |
| `Discovery.StaticInOrder` | src/discovery.py:83-95 | A list in two parts yields the candidates of the first part and then those of the second, at most one an entry, or the first error. |
| `Discovery.HttpPageInOrder` | src/discovery.py:131-161 | The same for the entries of one page. |
| `Discovery.HttpInOrder` | src/discovery.py:124-163 | The same for the pages of an http catalog, each page contributing its own candidates. |
| `Discovery.McpServerInOrder` | src/discovery.py:207-242 | The same for the tools of one server. |
| `Discovery.McpInOrder` | src/discovery.py:204-243 | The same for the servers of a registry, each server contributing its own candidates. |
| `Discovery.StaticListed` | src/discovery.py:66-95 | A static catalog lists exactly one candidate per object at its plain score, and does so exactly when every object is schema-valid. |
| `Discovery.HttpPageListed` | src/discovery.py:131-161 | A page lists exactly its inline manifests, 2 below their score, and its shells with a url, 3 below; all are schema-valid. |
| `Discovery.HttpListed` | src/discovery.py:124-163 | The http adapter lists exactly what some page of some catalog url offers. |
| `Discovery.McpServerListed` | src/discovery.py:207-242 | A server contributes exactly one made-up manifest per named tool, 4 below its score; all are schema-valid. |
| `Discovery.McpListed` | src/discovery.py:198-244 | The MCP adapter lists exactly what some server of the registry offers, and only if every entry is an object. |
| `Search.Search` | src/resolver.py:109-139 | The search loop yields one stable descending sort of the surviving catalog candidates followed by the surviving registry candidates; a failing registry contributes nothing. |
| `Search.SurvivorsAre` | src/resolver.py:113-136 | A candidate survives exactly if it is a catalog entry under the source "catalog" with its boosted score, or a working registry lists it, and its trust level is in the constraint's list, when that is given and not empty. |
| `Search.ContributionsInOrder` | src/resolver.py:126-130 | Registries contribute in their order, each its own list, a failed one nothing. |
| `Search.RankingDescends` | src/resolver.py:138 | The ranking rearranges the survivors so that scores descend, and candidates of one score keep the order they had. |
| `Search.PresortingIsHarmless` | src/resolver.py:125-139 | The search result is the same whatever sorting the adapters did first, and equals filtering after one single sort of everything. |
| `Search.Resolve` | src/resolver.py:190-211 | `resolve` returns the first acceptable candidate of the ranking, an error for an empty intent, and not-found when none is acceptable. |
| `Search.HeadIsFirstMaximum` | src/resolver.py:138 | The head of a stable descending sort is the first maximum of the unsorted list. |
| `Search.ResolveIsBest` | src/resolver.py:190-211 | What `resolve` returns is a score-maximal acceptable survivor, and the first such in catalog order followed by registry order. |
| `Search.ResolvePrefersTrust` | src/discovery.py:35-50 | Among the surviving catalog candidates with the same hits, `resolve` never returns one that is less trusted than another. |
| `Search.ResolvedIsAllowed` | src/resolver.py:202-208 | What `resolve` returns comes from the catalog, or its trust level is allowed and its secrets are references only. |
| `Search.CatalogComesFirst` | src/resolver.py:113-130 | Before sorting, every surviving catalog candidate stands before every registry candidate. |
| `Search.CatalogGap` | src/resolver.py:116-121 | A surviving catalog candidate that matches the intent outranks every registry survivor by at least 4.25. |
| `Search.RegistryWinsStrictly` | src/resolver.py:202-208 | A registry candidate is returned only if its trust level is allowed, its secrets are references only, and it scores strictly above every surviving catalog candidate, none of which then matches the intent. |
| `Search.ResolveFails` | src/resolver.py:199-211 | With a non-empty intent `resolve` fails exactly when every survivor comes from a registry and has a trust level that is not allowed or secrets that are not references only. |
| `Search.ListAll` | src/resolver.py:126-130 | Asking the registries in turn gives the sorted lists that the results about search assume. |
| `Search.AdaptersAreFit` | src/server.py:98-105 | Registries under any name but "catalog" offer candidates that carry their own name and score no more than the plain score of a schema-valid manifest. |
| `Sorting.StableSortIsTheOne` | src/resolver.py:138 | Sorted with equal keys in their old order: exactly one list meets this definition, and it is the one computed. |
| `Sorting.PresortIsHarmless` | src/discovery.py:94 | Sorting any middle part first does not change the result of a stable sort. |
| `Sorting.FilterOrigin` | src/resolver.py:203-210 | Each element of a filtered list stands at a place of the unfiltered one, with exactly the elements before it coming before. |
| `Sorting.FilterCommutesWithSort` | src/resolver.py:133-138 | Filtering and stable sorting commute. |
| `OAuth.HandlesAreDisjoint` | src/oauth.py:150-220 | Whatever the session, user and capability are called, a token handle is never a device-code handle. |
| `OAuth.DeviceHandleIsInjective` | src/oauth.py:150 | Different sessions have different device-code handles. |
| `OAuth.ProviderDecides` | src/oauth.py:62-67 | The provider is google exactly for ids that begin with "connector.google.", microsoft exactly for those that begin with "connector.microsoft.", and there is no other. |
| `OAuth.StartDecides` | src/oauth.py:113-161 | `start` succeeds exactly for a connector in the catalog that requires OAuth and is not enabled, with a configured client and a usable device answer; then exactly the device code and a session that expires when the answer says are stored. A useless answer is a run error and anything else refused by policy, with nothing written. |
| `OAuth.CompleteDecides` | src/oauth.py:173-241 | `complete` can only go on with a known session, not later than its expiry, a stored device code and a configured client, and is otherwise refused by policy; then pending and failing answers read as such, and a granted token enables exactly a capability that is in the catalog. |
| `OAuth.ExpiredIsRefused` | src/oauth.py:178-179 | After its expiry a session is refused by policy, whatever the token endpoint would answer, and nothing is written. |
| `OAuth.CompletionsComeInTime` | src/oauth.py:153-179 | Over every run that begins without sessions, kills included: whenever a completion writes anything, a successful start of that very run made its session, and the completion is not later than that start's time plus the answer's lifetime. |
| `OAuth.BindBinds` | src/oauth.py:228-232 | Binding leaves exactly one OAUTH_REFRESH_TOKEN entry, the new one, and keeps the other entries in order. |
| `OAuth.BoundEntries` | src/oauth.py:228-232 | The bound manifest's secrets are the new token entry and those old entries that are objects under another name. |
| `OAuth.BindKeepsIntegrity` | src/oauth.py:219-233 | The write that binds a token keeps reference integrity because the token is stored already. |
| `OAuth.BoundReferencesResolve` | src/oauth.py:219-238 | Over every run of start, complete and factory reset with kills between any two writes: every reference that `complete` bound is the only token entry of an enabled local manifest, is a handle of that connector's own provider, and resolves to a refresh token in the secrets store. |
| `OAuth.BoundHandlesRead` | src/oauth.py:219-220 | A bound reference reads secret://oauth/provider/user/capability/refresh_token, the provider being the one the capability's id names. |
| `OAuth.UsableUnlessStranded` | src/oauth.py:149-161 | If all live sessions have their device-code secret before an event, they all have it afterwards exactly unless the event is a successful completion killed between deleting the device code and rewriting the sessions. |
| `OAuth.LiveSessionsStayUsable` | src/oauth.py:149-161 | Over every run in which no completion is killed at that one moment, every live session has its device-code secret. |
| `OAuth.BadMomentStrandsTheSession` | src/oauth.py:235-238 | Killed at that one moment, the session is left without its secret and every later `complete` of it is refused and writes nothing. |
| `OAuth.PollingIsTransparent` | src/oauth.py:208-213 | Any number of pending or failed polls before a completion end in the same state as none. |
| `OAuth.StartThenGrant` | src/oauth.py:113-241 | After a successful start, a grant enables the capability and consumes the session if it comes in time, and is refused and leaves everything as it was if it comes late, with the same end state whatever number of polls came first. |
| `OAuth.ConsumedIsRefused` | src/oauth.py:174-177 | A consumed session is refused, whatever happened in between, and the refusal writes nothing. |
| `OAuth.BoundRunsOnItsChannel` | src/policy.py:41-53 | However many sessions completed for a capability, its manifest has exactly one token entry, and `enforce_run` accepts it exactly when the requested channel agrees. |
| `OAuth.CompletionOnlyBinds` | src/oauth.py:224-233 | A completion changes nothing of the manifest but `enabled` and the secrets, and of those only the token entry. |
| `OAuthHistory.OtherSecretsKept` | src/oauth.py:224-233 | Over every run, with kills at any write and however many completions: each capability's other secrets in the merged catalog are the same, in the same order, or those of the base catalog if a factory reset has deleted the local one. |
| `OAuthHistory.HandlesCollideExactlyOnClash` | src/oauth.py:219-220 | Two connectors have users with the same token handle exactly when they clash: different ids of one provider, one of which ends in "/" and the other. |
| `OAuthHistory.OwnHandles` | src/oauth.py:219-220 | For capabilities that do not clash, a token handle determines the capability and the user. |
| `OAuthHistory.ClashAtRealIds` | src/oauth.py:62-67 | An instance at ids that `start` accepts: "connector.google.x" for user "eve/connector.google.y" and "connector.google.y/connector.google.x" for user "eve" have one handle. |
| `OAuthHistory.BoundHoldsItsLastGrant` | src/oauth.py:219-233 | Over every run whose capability ids do not clash, kills included: a bound reference resolves to the token last granted for that very capability, to the user whose completion bound it. |
| `OAuthHistory.ClashMixesTokens` | src/oauth.py:219-238 | With a clash it fails: wherever completions for both capabilities can be granted, there are users for whom the second leaves the first one's reference resolving to the second one's token. |
| `OAuthFlow.FernetSecrets.Put` | src/credential_secrets.py:82-89 | Sets exactly one handle in the decrypted contents; a bad handle or an unreadable file is an error that leaves the file alone. |
| `OAuthFlow.FernetSecrets.Get` | src/credential_secrets.py:91-97 | Returns what the decrypted contents hold under a handle, or an error. |
| `OAuthFlow.FernetSecrets.Delete` | src/credential_secrets.py:99-107 | Removes exactly one handle and reports whether it was there; the file is rewritten only then. |
| `OAuthFlow.OAuthManager.CheckSession` | src/oauth.py:174-217 | The checks of `complete` answer as specified, in the order of the source. |
| `OAuthFlow.OAuthManager.BindToken` | src/oauth.py:223-233 | Writes exactly the manifest the specification binds, or nothing. |
| `OAuthFlow.OAuthManager.Redeem` | src/oauth.py:219-238 | A granted completion makes the specified writes in the specified order: token, catalog, device code, session; if the secrets file cannot be decrypted it makes none. |
| `OAuthFlow.OAuthManager.Start` | src/oauth.py:113-161 | The method's writes, in order, are those of the start trace (secret before session), and its result is the specified one; a secrets file that cannot be decrypted makes it fail before any write. |
| `OAuthFlow.OAuthManager.Complete` | src/oauth.py:173-241 | The method's writes, in order, are those of the completion trace, and its result is the specified one; a secrets file that cannot be decrypted holds no device code, so the call is refused. |
| `OAuthFlow.OAuthManager.FactoryReset` | src/store.py:188-196 | A reset drops the local catalog and then the sessions, and keeps the secrets. |
| `JsonText.DecimalSpec` | src/ecosystem.py:31-36 | A printed integer is a JSON number and reads back as itself. |
| `JsonText.DecimalTexts` | src/ecosystem.py:36 | Decimal notation digit by digit: no leading zeros, the last digit last, a minus sign in front below zero. |
| `JsonText.EscapedTexts` | src/ecosystem.py:36 | The exact escapes: quote, backslash, the five short ones, "\u00" with two lower-case hex digits for the other controls, and every other character as it is. |
| `JsonText.ParseEscaped` | src/ecosystem.py:31-36 | An escaped string followed by a quote reads back as the string and leaves the rest of the text. |
| `JsonText.ParsePrint` | src/ecosystem.py:31-36 | The parser undoes the compact printer on every well-formed JSON value, in any context a value can stand in. |
| `JsonText.PrintIsInjective` | src/ecosystem.py:31-36 | Different JSON trees print differently. |
| `JsonText.ArrayTexts` | src/ecosystem.py:36 | The exact text of an array: brackets, and a comma without blanks between the items. |
| `JsonText.ObjectTexts` | src/ecosystem.py:36 | The exact text of an object: braces, a colon without blanks after each quoted key, a comma without blanks between fields. |
| `CanonicalForm.SortKeysKeeps` | src/ecosystem.py:36 | Sorting the keys at every depth keeps the value and its well-formedness. |
| `CanonicalForm.SortedKeysAscend` | src/ecosystem.py:36 | In the sorted tree, in every object at every depth, the keys ascend strictly in code-point order. |
| `CanonicalForm.CanonicalPrintsTheSortedTree` | src/ecosystem.py:36 | The canonical text is the text of the one tree that has the same value and whose keys ascend at every depth. |
| `CanonicalForm.CanonicalSample` | src/ecosystem.py:36 | An instance to the letter: the object with version "1.0.0" and then id "echo" is written {"id":"echo","version":"1.0.0"}. |
| `CanonicalForm.MeaningDeterminesSorted` | src/ecosystem.py:36 | Two trees that mean the same value are the same tree once their keys are sorted. |
| `CanonicalForm.CanonicalIsInjective` | src/ecosystem.py:31-36 | Two values have the same canonical text exactly when they are equal as JSON values, key order apart. |
| `CanonicalForm.CanonicalRoundTrip` | src/ecosystem.py:31-36 | Parsing the canonical text gives the value back. |
| `SupplyChain.SignThenVerify` | src/ecosystem.py:39-61 | A manifest just signed verifies exactly when its publisher is trusted with the public key of the signing key. |
| `SupplyChain.SignOnlySigns` | src/ecosystem.py:39-46 | Signing sets governance.publisher, sets governance.signature to "ed25519:" and the encoded signature of the canonical text of the result, and changes nothing else; it fails exactly if `governance` is there and not an object. |
| `SupplyChain.SignedText` | src/ecosystem.py:31-36 | The signed text is the canonical text of the value without governance.signature. |
| `SupplyChain.VerifyDecides` | src/ecosystem.py:49-61 | Verifying depends on the value alone: it passes exactly if governance names a trusted publisher and a signature text "ed25519:" followed by something that decodes to a signature valid under that publisher's key on the signed text. |
| `SupplyChain.VerifiedWasSigned` | src/ecosystem.py:49-61 | With an ideal signature scheme, whatever verifies carries a signature its trusted publisher's key made on its canonical text. |
| `SupplyChain.TamperingIsDetected` | src/ecosystem.py:49-61 | Keeping the signature text of a verified manifest, a changed manifest verifies exactly when it is the same JSON value apart from `governance.signature`. |
| `SupplyChain.SamePublisher` | src/ecosystem.py:31-36 | Manifests that are equal apart from the signature name the same publisher. |
| `Permissions.PermissionDiff` | src/ecosystem.py:64-78 | The loop over the seven fields lists the specified additions and removals in the source's order, with the risk and confirmation notes last. |
| `Permissions.DiffSpelledOut` | src/ecosystem.py:20-78 | The two lists spelled out: the seven fields in their order, in each the gained (lost) values in order behind the field's name and a colon, then in the first list the notes on risk and confirmation. |
| `Permissions.RequirePermissionReview` | src/ecosystem.py:81-84 | An update passes exactly when it is approved or adds nothing. |
| `Permissions.TagDecodes` | src/ecosystem.py:72-73 | The `field:value` text determines the field and the value. |
| `Permissions.DiffSpec` | src/ecosystem.py:64-78 | A `field:value` text is listed as added (removed) exactly when the value is in the new set and not the old one (or the reverse). |
| `Permissions.DiffApplies` | src/ecosystem.py:64-78 | Applying the listed removals and additions to the old set of a field gives its new set. |
| `Permissions.AddedIsEmpty` | src/ecosystem.py:64-84 | Nothing is listed as added exactly when every field shrinks or stays and risk and confirmation are unchanged. |
| `Permissions.EveryGainWasApproved` | src/ecosystem.py:81-84 | Over any accepted chain of updates, a permission present at the end and not at the start entered at an approved step. |
| `Permissions.EveryScalarChangeWasApproved` | src/ecosystem.py:74-84 | Over any accepted chain, a change of risk or confirmation happened at an approved step. |
| `Permissions.UnapprovedChainShrinks` | src/ecosystem.py:81-84 | Without approvals every field only shrinks over the chain, and risk and confirmation stay. |
| `Egress.DotSuffixIsLabelSuffix` | src/egress.py:33 | Ending in "." and a name is having that name's dot-separated labels as a proper suffix, for every two texts. |
| `Egress.HostRulesAreLabelSuffixes` | src/egress.py:24-33 | After normalising, a plain rule matches exactly when its labels are a suffix of the host's, and a "*." rule exactly when the labels after it are a proper suffix. |
| `Egress.RuleDecides` | src/egress.py:24-37 | A rule that contains "://" covers exactly the URLs that, in lower case, begin with it, trimmed and in lower case; any other rule covers exactly the hosts whose labels end in its labels, properly so after "*.". |
| `Egress.LookalikesAreRejected` | src/egress.py:24-33 | A longer name that ends in a plain rule's text is matched exactly if a dot comes directly before it. |
| `Egress.PlainRulesCompose` | src/egress.py:24-33 | What a plain rule covers is covered by every plain rule that covers the rule itself. |
| `Egress.AnyMatchesIsExists` | src/egress.py:61-75 | The loop over a rule list finds a match exactly when some rule of the list matches. |
| `Egress.CheckUrlDecides` | src/egress.py:45-76 | The decision is a predicate on the sets of rules: http or https, a host, and either "localhost", or "127.0.0.1" or "::1" where recognised as private, or, with the switch on where the host is private, an allow rule that covers the URL and no deny rule that does. |
| `Egress.RuleOrderIsIrrelevant` | src/egress.py:60-76 | Order and repetition of rules do not matter. |
| `Egress.GrantsAreMonotone` | src/egress.py:45-76 | More allow rules, fewer deny rules or a laxer private-network switch never turn a grant into a denial. |
| `Egress.DenyWins` | src/egress.py:53-65 | Where a deny rule matches, a URL is granted exactly when its host is one of the three loopback names (and its scheme is http or https). |
| `Egress.EmptyAllowlistIsClosed` | src/egress.py:67-69 | Without an allowlist only the three loopback names are reachable. |
| `Egress.PrivateNeedsTheSwitch` | src/egress.py:53-57 | With the switch off, a private, loopback or link-local address is reachable only as one of the three loopback names, whatever the rules say. |
| `Egress.ManifestNetworkDecides` | src/egress.py:93-111 | A manifest permits a URL exactly when its mode is "allowlist" and some rule of its allowlist matches. |
| `Execution.RunMcpTool` | src/execution.py:94-138 | The discovery-and-call loop sends the requests the trace predicate admits, and its result is the tool's answer, a policy error, a run error, or the uncaught failure on a malformed server entry, each exactly when specified. |
| `Execution.RunA2a` | src/execution.py:140-156 | One POST to the endpoint if both gates let it pass and none otherwise, with the matching result. |
| `Execution.Run` | src/execution.py:30-92 | Every request of every run passed the manifest's allowlist and, if configured, the egress controller; a network run succeeds exactly if its single POST was made and answered, with that answer; kinds that run on the host send nothing. |
| `Execution.McpRequests` | src/execution.py:94-138 | An MCP run sends nothing if the registry's URL is not permitted; else it reads the registry, and calls base/tools/name exactly if that is permitted and belongs to the first entry that goes by the id, has a base URL ("base_url", else "url") and lists the tool, no entry before it being malformed. |
| `Execution.OtherRequests` | src/execution.py:70-92 | Of the other kinds only an A2A run sends anything: one POST to its endpoint, exactly if that is permitted. |
| `Execution.NoPermissionNoRequest` | src/egress.py:93-99 | A capability whose network mode is not "allowlist" sends no request, whatever its implementation. |
| `Execution.AtMostOneCall` | src/execution.py:115-156 | A run makes at most one POST, after everything else, and every request it sends is covered by the manifest's allowlist and permitted by the controller, if there is one. |
| `Execution.StricterEgressTruncates` | src/execution.py:94-156 | Under a stricter controller the requests of the same run are a prefix of those sent before. |
| `McpRoundTrip.OwnAllowlistAdmits` | src/discovery.py:222-226 | The network permission the adapter writes into a listed manifest admits the registry, and the call to the tool's own server wherever that URL still extends the base URL in lower case. |
| `McpRoundTrip.OwnAllowlistAdmitsNoMore` | src/discovery.py:222-226 | That permission admits no URL but those that the registry's URL or the server's base URL covers as a rule. |
| `McpRoundTrip.ListedNeedsConsent` | src/discovery.py:212-232 | Whatever the adapter lists is named after its tool, is installable exactly under a policy that allows "untrusted", and runs on no other channel than "programmatic". |
| `McpRoundTrip.ListedToolReachesItsServer` | src/execution.py:94-138 | Running a listed manifest against the same registry sends exactly two requests, the registry read and the POST to the listing server, if no earlier server of the same identity offers the tool and the controller admits both. |
| `McpRoundTrip.ListedCandidatesRun` | src/discovery.py:198-244 | With unique server identities, every candidate the adapter lists stems from a server and a tool, and running it reads the registry and calls that tool on that server, if the controller admits both URLs and they carry no outer blanks. |
| `Governance.ReplayGuard.Consume` | src/governance.py:56-63 | A nonce is accepted exactly when it was not seen, and is seen afterwards. |
| `Governance.Runner.Run` | src/resolver.py:269-288 | The method decides as specified, calls the engine exactly then, sends nothing when it refuses, and keeps the recorded history equal to the specified one. |
| `Governance.ReachedAppends` | src/resolver.py:269-288 | One more call extends the history by that call exactly when it is admitted against the nonces seen so far. |
| `Governance.ChecksDecide` | src/governance.py:9-53 | Policy and authority checks pass exactly when the run gate admits the call and, unless legacy mode is on and the manifest is not governed, a complete, allowing, unexpired authority names a declared action of a manifest that declares all nineteen fields, with nothing too broad and a bounded timeout; a refusal is one by policy, except for an expiry time that cannot be read. |
| `Governance.ExactlyOnce` | src/governance.py:56-63 | Over any run, the number of calls a nonce gets through to the engine is one if it was fresh and some call is entitled under it, and zero otherwise. |
| `Governance.ReplayIsRefused` | src/governance.py:60-63 | Once a call has been let through under a nonce, every later call that must show an authority and shows that nonce is refused by policy, or by an earlier check, however many calls come in between. |
| `Governance.NoncesAreDistinct` | src/resolver.py:283-288 | The calls that reached the engine under an authority carry pairwise different nonces, none of them seen before. |
| `Governance.EveryRunWasAuthorized` | src/resolver.py:281-288 | Every call that reached the engine was let through by the run gate and, unless legacy mode was on and its manifest not governed, brought an authority that covered it at that moment, under a nonce not used before. |
| `Governance.RefusalsAreInvisible` | src/resolver.py:275-287 | Calls refused by look-up, policy or authorization leave no trace, so their nonces stay usable: whatever follows goes as without them. |
| `Governance.LegacyRunsRepeat` | src/resolver.py:283-284 | In legacy mode an ungoverned capability runs without authority any number of times, so at-most-once is exactly for calls that need an authority. |
| `Text.SortSet` | src/ecosystem.py:72-73 | Listing a set in sorted order gives its elements, each once, in strictly ascending code-point order. |
| `Text.AtMostIsLexicographic` | src/store.py:102 | Text comparison is the lexicographic one on code points. |

## Left out

- The HTTP server, routing, metrics, audit log, authentication and roles, configuration and environment parsing: plumbing and one-line decisions.
- Real cryptography, hashing, subprocesses, dynamic imports and HTTP: results of such calls are parameters. The digest pin of a fetched manifest is a boolean, `candidate_id_for` is not modelled.
- Encoding of text as bytes, and strings with lone surrogates: texts are sequences of characters. Integers and floats are different JSON values, also where Python compares them equal.
- URL splitting, address classification and the normalisation of host names (`strip`, `lower`) are parameters; `str.upper` in the secret-name check is ASCII, and so is the white space in `_safe_dirname`.
- `put_payload_from_path` (best effort, errors swallowed) and `put_manifest` (not used by the resolver, not staged).
- `require_compatibility`, `RevocationRegistry`, `_builtin_catalog` and `semantic_targets.py`: each reduces to reading a comparison or a literal. `run` passes no revoked set, so revocation does not enter the runs.
- `list` returns seven fields of each entry, with defaults for two of them; the answer here is the list of the entries.
- Factory reset is not a process of the concurrent system: recursive delete has no fixed order, so it runs to completion there. Deleting the staging directory is one step.
- Store.CapabilityStore.Remove: does not model the payload directory, which the crash invariant does not speak about.
- Ids equal to ".", and manifests whose own version is "." (the shipped schema's version pattern rejects them), are excluded from the artifact tree, because they nest version directories in one another. A removal is asked for with a version of the caller's choice, and there "." is modelled.
- InstallRace.CrashInvariant: in the unlocked race a removal overtaken by one with an overlapping path stops, because without that the property is false, exactly for overlapping paths; the store lock excludes that case. The directory walk of a removal is one step.
- The governed part of `run` is in `Governance`, run by run; the concurrent system models `run` up to the policy gate, including its nested lock. `ReplayGuard.consume` is one atomic step.
- OAuth is sequential: the source takes no lock around its session file. The session file is read as a dictionary of well-formed sessions.
- Registries under the name "catalog" are excluded where search tells catalog candidates by that name; the server never configures one.
- An element of an MCP server list that is not an object stops the run with an uncaught exception; tool lists are taken to be lists.
