/**
 The artifact tree of src/store.py and the two protocols that change it, one file operation at a
 time: `Installer.install_manifest_atomic` (stage, write two files, promote by one rename) and
 `CapabilityStore.remove` (delete what a walk lists, in reverse order, then the directories).

 A process is a program counter with its local variables.  A kill is a process that takes no
 further step, so every statement about all reachable states covers kills.
 */
module Artifacts {
  import opened Wrappers
  import opened Sorting
  import opened Text
  import opened Manifests

  const MANIFEST := "capability.manifest.json"
  const META := "install.meta.json"
  // the temporary names atomic_write_text uses while it fills a file
  const MANIFEST_TEMP := "capability.manifest.json."
  const META_TEMP := "install.meta.json."

  datatype Ref = Ref(id: string, version: string)

  datatype Doc = ManifestDoc(m: Manifest) | MetaDoc(via: Option<string>) | Unfinished

  type Dir = map<string, Doc>

  /**
   `staging` holds the innermost staged directory of each token, `versions` the directories
   `manifests/<id>/<version>`, `idDirs` the directories `manifests/<id>`; `blocked` are the ids for
   which `manifests/<id>` is not a directory.
   */
  datatype Fs = Fs(staging: map<nat, Dir>, versions: map<Ref, Dir>, idDirs: set<string>, blocked: set<string>)

  predicate HasManifest(fs: Fs, ref: Ref) {
    ref in fs.versions && MANIFEST in fs.versions[ref]
  }

  predicate NonEmpty(fs: Fs, ref: Ref) {
    ref in fs.versions && fs.versions[ref] != map[]
  }

  // ---------------------------------------------------------------- install_manifest_atomic

  datatype Outcome = Updated | AlreadyThere | Failed

  datatype InstallPc =
    | Check | MakeStage
    | TempManifest | NameManifest | TempMeta | NameMeta
    | MakeParent | Promote | SyncParent
    | CleanUp(outcome: Outcome) | Finished(outcome: Outcome)

  datatype InstallProc = InstallProc(m: Manifest, via: Option<string>, token: nat, pc: InstallPc) {
    function RefOf(): Ref {
      Ref(m.id, m.version)
    }

    /** The directory this installer promotes. */
    function Complete(): Dir {
      map[MANIFEST := ManifestDoc(m), META := MetaDoc(via)]
    }

    function At(pc': InstallPc): InstallProc {
      this.(pc := pc')
    }
  }

  function StageOf(fs: Fs, token: nat): Dir {
    if token in fs.staging then fs.staging[token] else map[]
  }

  /** One file operation of an installer.  A finished installer does nothing. */
  function InstallStep(fs: Fs, p: InstallProc): (Fs, InstallProc) {
    var ref, t, stage := p.RefOf(), p.token, StageOf(fs, p.token);
    match p.pc
    case Check =>
      (fs, p.At(if HasManifest(fs, ref) then Finished(AlreadyThere) else MakeStage))
    case MakeStage =>
      if t in fs.staging then (fs, p.At(CleanUp(Failed)))
      else (fs.(staging := fs.staging[t := map[]]), p.At(TempManifest))
    case TempManifest =>
      (fs.(staging := fs.staging[t := stage[MANIFEST_TEMP := Unfinished]]), p.At(NameManifest))
    case NameManifest =>
      (fs.(staging := fs.staging[t := (stage - {MANIFEST_TEMP})[MANIFEST := ManifestDoc(p.m)]]), p.At(TempMeta))
    case TempMeta =>
      (fs.(staging := fs.staging[t := stage[META_TEMP := Unfinished]]), p.At(NameMeta))
    case NameMeta =>
      (fs.(staging := fs.staging[t := (stage - {META_TEMP})[META := MetaDoc(p.via)]]), p.At(MakeParent))
    case MakeParent =>
      if ref.id in fs.blocked then (fs, p.At(CleanUp(Failed)))
      else (fs.(idDirs := fs.idDirs + {ref.id}), p.At(Promote))
    case Promote =>
      if ref.id !in fs.idDirs then (fs, p.At(CleanUp(Failed)))                   // ENOENT
      else if NonEmpty(fs, ref) then (fs, p.At(CleanUp(AlreadyThere)))           // EEXIST, ENOTEMPTY
      else (fs.(versions := fs.versions[ref := stage], staging := fs.staging[t := map[]]), p.At(SyncParent))
    case SyncParent =>
      (fs, p.At(CleanUp(if ref.id in fs.idDirs then Updated else Failed)))
    case CleanUp(outcome) =>
      (fs.(staging := fs.staging - {t}), p.At(Finished(outcome)))
    case Finished(_) => (fs, p)
  }

  /** How many operations an installer may still take. */
  function InstallRank(pc: InstallPc): nat {
    match pc
    case Check => 10 case MakeStage => 9 case TempManifest => 8 case NameManifest => 7
    case TempMeta => 6 case NameMeta => 5 case MakeParent => 4 case Promote => 3
    case SyncParent => 2 case CleanUp(_) => 1 case Finished(_) => 0
  }

  /** Runs an installer alone to its end. */
  function InstallToEnd(fs: Fs, p: InstallProc): (r: (Fs, InstallProc))
    ensures r.1.pc.Finished?
    decreases InstallRank(p.pc)
  {
    if p.pc.Finished? then (fs, p)
    else
      var (fs', p') := InstallStep(fs, p);
      InstallToEnd(fs', p')
  }

  // ---------------------------------------------------------------- remove

  /** What a directory walk lists: a file of a version directory, or the version directory itself. */
  datatype WalkItem = File(ref: Ref, name: string) | VersionDir(ref: Ref)

  datatype RemovePc = Probe | ListFiles | Unlink(todo: seq<WalkItem>) | RmVersion | RmParent | Gone(found: bool)

  datatype RemoveProc = RemoveProc(ref: Ref, pc: RemovePc) {
    function At(pc': RemovePc): RemoveProc {
      this.(pc := pc')
    }
  }

  /**
   The version directories under the path of `target`.  The caller chooses the version, and "." passes
   `_safe_dirname`: `manifests/<id>/.` is `manifests/<id>`, with all its versions.
   */
  predicate Covers(target: Ref, ref: Ref) {
    ref.id == target.id && (target.version == "." || ref.version == target.version)
  }

  predicate PathExists(fs: Fs, ref: Ref) {
    if ref.version == "." then ref.id in fs.idDirs || ref.id in fs.blocked else ref in fs.versions
  }

  function Reversed(xs: seq<string>): (ys: seq<string>)
    ensures |ys| == |xs|
    ensures forall i :: 0 <= i < |xs| ==> ys[i] == xs[|xs| - 1 - i]
  {
    seq(|xs|, i requires 0 <= i < |xs| => xs[|xs| - 1 - i])
  }

  predicate IdInUse(fs: Fs, id: string) {
    exists ref :: ref in fs.versions && ref.id == id
  }

  function VersionsOf(fs: Fs, id: string): set<string> {
    set ref | ref in fs.versions && ref.id == id :: ref.version
  }

  function Files(ref: Ref, names: seq<string>): (items: seq<WalkItem>)
    ensures |items| == |names|
    ensures forall i :: 0 <= i < |names| ==> items[i] == File(ref, names[i])
  {
    seq(|names|, i requires 0 <= i < |names| => File(ref, names[i]))
  }

  /** The files of one version directory, in reverse name order. */
  ghost function FilesIn(fs: Fs, ref: Ref): seq<WalkItem> {
    Files(ref, Reversed(Listing(if ref in fs.versions then fs.versions[ref].Keys else {})))
  }

  /** Each version directory comes right after its files. */
  ghost function Walk(files: Ref -> seq<WalkItem>, id: string, versions: seq<string>): seq<WalkItem> {
    if versions == [] then []
    else files(Ref(id, versions[0])) + [VersionDir(Ref(id, versions[0]))] + Walk(files, id, versions[1..])
  }

  /** The recursive listing of the path, reverse sorted, paths being compared part by part. */
  ghost function Contents(fs: Fs, ref: Ref): seq<WalkItem> {
    if ref.version == "." then Walk(r => FilesIn(fs, r), ref.id, Reversed(Listing(VersionsOf(fs, ref.id))))
    else FilesIn(fs, ref)
  }

  /** Unlink a file, or remove a directory if it is empty. */
  function Clear(fs: Fs, item: WalkItem): Fs {
    match item
    case File(ref, name) =>
      if ref in fs.versions then fs.(versions := fs.versions[ref := fs.versions[ref] - {name}]) else fs
    case VersionDir(ref) =>
      if NonEmpty(fs, ref) then fs else fs.(versions := fs.versions - {ref})
  }

  /** `rmdir` of `manifests/<id>`. */
  function ClearId(fs: Fs, id: string): Fs {
    if IdInUse(fs, id) then fs else fs.(idDirs := fs.idDirs - {id})
  }

  /** One file operation of `CapabilityStore.remove`; the walk is one operation. */
  ghost function RemoveStep(fs: Fs, p: RemoveProc): (Fs, RemoveProc) {
    var ref := p.ref;
    match p.pc
    case Probe => (fs, p.At(if PathExists(fs, ref) then ListFiles else Gone(false)))
    case ListFiles => (fs, p.At(Unlink(Contents(fs, ref))))
    case Unlink(todo) => if todo == [] then (fs, p.At(RmVersion)) else (Clear(fs, todo[0]), p.At(Unlink(todo[1..])))
    case RmVersion => (if ref.version == "." then ClearId(fs, ref.id) else Clear(fs, VersionDir(ref)), p.At(RmParent))
    case RmParent => (if ref.version == "." then fs else ClearId(fs, ref.id), p.At(Gone(true)))
    case Gone(_) => (fs, p)
  }

  function RemoveRank(pc: RemovePc): (nat, nat) {
    match pc
    case Probe => (5, 0) case ListFiles => (4, 0) case Unlink(todo) => (3, |todo|)
    case RmVersion => (2, 0) case RmParent => (1, 0) case Gone(_) => (0, 0)
  }

  /** Runs a removal alone to its end. */
  ghost function RemoveToEnd(fs: Fs, p: RemoveProc): (r: (Fs, RemoveProc))
    ensures r.1.pc.Gone?
    decreases RemoveRank(p.pc).0, RemoveRank(p.pc).1
  {
    if p.pc.Gone? then (fs, p)
    else
      var (fs', p') := RemoveStep(fs, p);
      RemoveToEnd(fs', p')
  }

  // ---------------------------------------------------------------- the crash invariant

  /**
   A version directory holds nothing but finished files, for its own id and version, and the meta
   file only beside the manifest file.  So a non-empty one has its manifest.
   */
  ghost predicate Whole(ref: Ref, dir: Dir) {
    && dir.Keys <= {MANIFEST, META}
    && (META in dir ==> MANIFEST in dir && dir[META].MetaDoc?)
    && (MANIFEST in dir ==> dir[MANIFEST].ManifestDoc? && Ref(dir[MANIFEST].m.id, dir[MANIFEST].m.version) == ref)
  }

  ghost predicate FsOk(fs: Fs) {
    && (forall ref :: ref in fs.versions ==> Whole(ref, fs.versions[ref]) && ref.id in fs.idDirs)
    && fs.idDirs !! fs.blocked
  }

  lemma WholeNonEmpty(ref: Ref, dir: Dir)
    requires Whole(ref, dir)
    ensures dir != map[] <==> MANIFEST in dir
  {
    if dir != map[] {
      var k :| k in dir;
      assert k == MANIFEST || k == META;
    }
  }

  /** `list_installed`: the version directories that contain the manifest file. */
  ghost function Installed(fs: Fs): set<Ref> {
    set ref | ref in fs.versions && MANIFEST in fs.versions[ref]
  }

  /** Under the invariant, the inventory is exactly the non-empty version directories. */
  lemma InventoryIsNonEmptyDirs(fs: Fs)
    requires FsOk(fs)
    ensures Installed(fs) == set ref | ref in fs.versions && fs.versions[ref] != map[]
  {
    forall ref | ref in fs.versions ensures MANIFEST in fs.versions[ref] <==> fs.versions[ref] != map[] {
      WholeNonEmpty(ref, fs.versions[ref]);
    }
  }

  /** What an installer knows about its own staging directory at each point. */
  ghost predicate StageOk(fs: Fs, p: InstallProc) {
    match p.pc
    case Check => p.token !in fs.staging
    case MakeStage => p.token !in fs.staging
    case TempManifest => p.token in fs.staging && fs.staging[p.token] == map[]
    case NameManifest => p.token in fs.staging && fs.staging[p.token] == map[MANIFEST_TEMP := Unfinished]
    case TempMeta => p.token in fs.staging && fs.staging[p.token] == map[MANIFEST := ManifestDoc(p.m)]
    case NameMeta =>
      p.token in fs.staging && fs.staging[p.token] == map[MANIFEST := ManifestDoc(p.m), META_TEMP := Unfinished]
    case MakeParent => p.token in fs.staging && fs.staging[p.token] == p.Complete()
    case Promote => p.token in fs.staging && fs.staging[p.token] == p.Complete()
    case _ => true
  }

  /** What a step of one installer may change. */
  lemma InstallStepEffect(fs: Fs, p: InstallProc)
    requires FsOk(fs) && StageOk(fs, p)
    ensures var (fs', p') := InstallStep(fs, p);
            && FsOk(fs') && StageOk(fs', p')
            && p'.m == p.m && p'.via == p.via && p'.token == p.token
            && fs'.blocked == fs.blocked
            && (forall t :: t != p.token ==> (t in fs'.staging <==> t in fs.staging))
            && (forall t :: t != p.token && t in fs.staging ==> fs'.staging[t] == fs.staging[t])
            && (if p.pc.Promote? && p'.pc.SyncParent?
                then !NonEmpty(fs, p.RefOf()) && fs'.versions == fs.versions[p.RefOf() := p.Complete()]
                else fs'.versions == fs.versions)
            && fs.idDirs <= fs'.idDirs
  {
    StageStepOk(fs, p);
    var (fs', p') := InstallStep(fs, p);
    if p.pc.Promote? && p'.pc.SyncParent? {
      CompleteIsWhole(p);
    }
  }

  /** What the installer finds in its staging directory next. */
  lemma StageStepOk(fs: Fs, p: InstallProc)
    requires StageOk(fs, p)
    ensures StageOk(InstallStep(fs, p).0, InstallStep(fs, p).1)
  {
    StageNames(p);
  }

  lemma CompleteIsWhole(p: InstallProc)
    ensures Whole(p.RefOf(), p.Complete())
  {
    StageNames(p);
  }

  lemma StageNames(p: InstallProc)
    ensures MANIFEST != META && MANIFEST != MANIFEST_TEMP && META != META_TEMP && MANIFEST != META_TEMP
    ensures (map[MANIFEST_TEMP := Unfinished] - {MANIFEST_TEMP})[MANIFEST := ManifestDoc(p.m)] == map[MANIFEST := ManifestDoc(p.m)]
    ensures map[MANIFEST := ManifestDoc(p.m)][META_TEMP := Unfinished] == map[MANIFEST := ManifestDoc(p.m), META_TEMP := Unfinished]
    ensures (map[MANIFEST := ManifestDoc(p.m), META_TEMP := Unfinished] - {META_TEMP})[META := MetaDoc(p.via)] == p.Complete()
  {
    assert MANIFEST[0] == 'c' && META[0] == 'i' && META_TEMP[0] == 'i';
    assert |MANIFEST| == 24 && |MANIFEST_TEMP| == 25 && |META| == 17 && |META_TEMP| == 18;
  }

  /** Losing the rename is only ever reported when the manifest is really there. */
  lemma ConflictIsTruthful(fs: Fs, p: InstallProc)
    requires FsOk(fs)
    requires InstallStep(fs, p).1.pc in {CleanUp(AlreadyThere), Finished(AlreadyThere)} && p.pc in {Check, Promote}
    ensures HasManifest(fs, p.RefOf())
  {
    if p.pc.Promote? {
      WholeNonEmpty(p.RefOf(), fs.versions[p.RefOf()]);
    }
  }

  /** The names of a version's files that are still to be deleted. */
  function NamesLeft(todo: seq<WalkItem>, ref: Ref): seq<string> {
    if todo == [] then []
    else (if todo[0].File? && todo[0].ref == ref then [todo[0].name] else []) + NamesLeft(todo[1..], ref)
  }

  /**
   A removal that has listed its path still has to delete exactly what is left of each version whose
   files it has not finished, meta file first; once they are used up anything whole may be there.
   */
  ghost predicate UnlinkOk(fs: Fs, p: RemoveProc) {
    p.pc.Unlink? ==>
      && (forall item :: item in p.pc.todo ==> Covers(p.ref, item.ref))
      && (forall ref :: NamesLeft(p.pc.todo, ref) != [] ==> LeftOk(fs, ref, NamesLeft(p.pc.todo, ref)))
  }

  ghost predicate LeftOk(fs: Fs, ref: Ref, left: seq<string>) {
    && ref in fs.versions
    && (left == [META, MANIFEST] || left == [MANIFEST])
    && fs.versions[ref].Keys == set x | x in left
  }

  lemma {:induction false} NamesLeftAppend(a: seq<WalkItem>, b: seq<WalkItem>, ref: Ref)
    ensures NamesLeft(a + b, ref) == NamesLeft(a, ref) + NamesLeft(b, ref)
  {
    if a == [] {
      assert a + b == b;
    } else {
      assert (a + b)[1..] == a[1..] + b;
      NamesLeftAppend(a[1..], b, ref);
    }
  }

  lemma {:induction false} NamesOfFiles(owner: Ref, names: seq<string>, ref: Ref)
    ensures NamesLeft(Files(owner, names), ref) == if ref == owner then names else []
  {
    if names != [] {
      assert Files(owner, names)[1..] == Files(owner, names[1..]);
      NamesOfFiles(owner, names[1..], ref);
    }
  }

  /** The files of a whole version directory in walk order. */
  function WholeNames(fs: Fs, ref: Ref): seq<string> {
    if ref !in fs.versions then []
    else if META in fs.versions[ref] then [META, MANIFEST]
    else if MANIFEST in fs.versions[ref] then [MANIFEST] else []
  }

  lemma FilesInNames(fs: Fs, owner: Ref, ref: Ref)
    requires FsOk(fs)
    ensures NamesLeft(FilesIn(fs, owner), ref) == if ref == owner then WholeNames(fs, ref) else []
  {
    if owner in fs.versions {
      ReverseListing(owner, fs.versions[owner]);
    } else {
      assert Listing({}) == [];
    }
    NamesOfFiles(owner, Reversed(Listing(if owner in fs.versions then fs.versions[owner].Keys else {})), ref);
  }

  lemma {:induction false} WalkNames(files: Ref -> seq<WalkItem>, id: string, versions: seq<string>, ref: Ref)
    requires forall i, j :: 0 <= i < j < |versions| ==> versions[i] != versions[j]
    requires forall owner :: owner != ref ==> NamesLeft(files(owner), ref) == []
    ensures NamesLeft(Walk(files, id, versions), ref)
            == if ref.id == id && ref.version in versions then NamesLeft(files(ref), ref) else []
  {
    if versions != [] {
      var first, rest := Ref(id, versions[0]), versions[1..];
      WalkNames(files, id, rest, ref);
      NamesAround(files(first), first, Walk(files, id, rest), ref);
      assert versions[0] !in rest;
      assert ref.version in versions <==> ref.version == versions[0] || ref.version in rest;
    }
  }

  /** The directory between two stretches of a walk contributes no name. */
  lemma NamesAround(a: seq<WalkItem>, owner: Ref, b: seq<WalkItem>, ref: Ref)
    ensures NamesLeft(a + [VersionDir(owner)] + b, ref) == NamesLeft(a, ref) + NamesLeft(b, ref)
  {
    NamesLeftAppend(a + [VersionDir(owner)], b, ref);
    NamesLeftAppend(a, [VersionDir(owner)], ref);
    assert [VersionDir(owner)][1..] == [];
    Associative(NamesLeft(a, ref), [], NamesLeft(b, ref));
  }

  lemma {:induction false} WalkStaysBelow(files: Ref -> seq<WalkItem>, id: string, versions: seq<string>)
    requires forall owner, item :: item in files(owner) ==> item.ref == owner
    ensures forall item :: item in Walk(files, id, versions) ==> item.ref.id == id
  {
    if versions != [] {
      WalkStaysBelow(files, id, versions[1..]);
    }
  }

  /** A walk lists the files of every version under the path, each version's meta file first, and no others. */
  lemma ContentsNames(fs: Fs, target: Ref, ref: Ref)
    requires FsOk(fs)
    ensures NamesLeft(Contents(fs, target), ref) == if Covers(target, ref) then WholeNames(fs, ref) else []
    ensures forall item :: item in Contents(fs, target) ==> Covers(target, item.ref)
  {
    if target.version == "." {
      var xs := Listing(VersionsOf(fs, target.id));
      assert forall v :: v in Reversed(xs) <==> v in xs by { ReversedMembers(xs); }
      var files := r => FilesIn(fs, r);
      forall owner ensures NamesLeft(files(owner), ref) == if ref == owner then WholeNames(fs, ref) else [] {
        FilesInNames(fs, owner, ref);
      }
      WalkNames(files, target.id, Reversed(xs), ref);
      WalkStaysBelow(files, target.id, Reversed(xs));
      assert ref in fs.versions && ref.id == target.id ==> ref.version in VersionsOf(fs, target.id);
      assert ref.id == target.id && ref.version in VersionsOf(fs, target.id) ==> ref in fs.versions;
    } else {
      FilesInNames(fs, target, ref);
    }
  }

  lemma ReversedMembers(xs: seq<string>)
    ensures forall x :: x in Reversed(xs) <==> x in xs
  {
    forall x | x in xs ensures x in Reversed(xs) {
      var i :| 0 <= i < |xs| && xs[i] == x;
      assert Reversed(xs)[|xs| - 1 - i] == x;
    }
  }

  lemma ReverseListing(ref: Ref, dir: Dir)
    requires Whole(ref, dir)
    ensures Reversed(Listing(dir.Keys)) == if META in dir then [META, MANIFEST] else if MANIFEST in dir then [MANIFEST] else []
  {
    assert MANIFEST[0] == 'c' && META[0] == 'i';
    var xs := if META in dir then [MANIFEST, META] else if MANIFEST in dir then [MANIFEST] else [];
    assert dir.Keys == if META in dir then {MANIFEST, META} else if MANIFEST in dir then {MANIFEST} else {};
    assert IsListing(dir.Keys, xs);
    ListingUnique(dir.Keys, xs);
  }

  // ---- the walk is the reverse sorted listing of the path

  /** Path order, part by part: the version first, a directory before what is in it. */
  ghost predicate PathBefore(a: WalkItem, b: WalkItem) {
    || Precedes(a.ref.version, b.ref.version)
    || (a.ref.version == b.ref.version && b.File? && (a.VersionDir? || Precedes(a.name, b.name)))
  }

  ghost predicate Descends(items: seq<WalkItem>) {
    forall i, j :: 0 <= i < j < |items| ==> PathBefore(items[j], items[i])
  }

  lemma FilesDescend(fs: Fs, ref: Ref)
    ensures Descends(FilesIn(fs, ref))
    ensures forall item :: item in FilesIn(fs, ref) <==>
              item.File? && item.ref == ref && ref in fs.versions && item.name in fs.versions[ref]
  {
    var names := if ref in fs.versions then fs.versions[ref].Keys else {};
    ListingAscends(names);
    ReversedMembers(Listing(names));
    forall item ensures item in FilesIn(fs, ref) <==> item.File? && item.ref == ref && item.name in names {
      if item.File? && item.ref == ref && item.name in names {
        var i :| 0 <= i < |Reversed(Listing(names))| && Reversed(Listing(names))[i] == item.name;
        assert FilesIn(fs, ref)[i] == item;
      }
    }
  }

  lemma {:induction false} WalkDescends(fs: Fs, id: string, versions: seq<string>)
    requires forall i, j :: 0 <= i < j < |versions| ==> Precedes(versions[j], versions[i])
    ensures var walk := Walk(r => FilesIn(fs, r), id, versions);
            && Descends(walk)
            && forall item :: item in walk <==>
                 && item.ref.id == id && item.ref.version in versions
                 && (item.File? ==> item.ref in fs.versions && item.name in fs.versions[item.ref])
  {
    if versions != [] {
      var first := Ref(id, versions[0]);
      var own, rest := FilesIn(fs, first), Walk(r => FilesIn(fs, r), id, versions[1..]);
      FilesDescend(fs, first);
      WalkDescends(fs, id, versions[1..]);
      JoinDescends(own, VersionDir(first), rest);
      assert Walk(r => FilesIn(fs, r), id, versions) == own + [VersionDir(first)] + rest;
    }
  }

  lemma JoinDescends(own: seq<WalkItem>, dir: WalkItem, rest: seq<WalkItem>)
    requires Descends(own) && Descends(rest) && dir.VersionDir?
    requires forall item :: item in own ==> item.File? && item.ref == dir.ref
    requires forall item :: item in rest ==> Precedes(item.ref.version, dir.ref.version)
    ensures Descends(own + [dir] + rest)
  {
    var all := own + [dir] + rest;
    forall i, j | 0 <= i < j < |all| ensures PathBefore(all[j], all[i]) {
      if j > |own| {
        assert all[j] == rest[j - |own| - 1] && all[j] in rest;
        if i > |own| {
          assert all[i] == rest[i - |own| - 1];
        }
      }
      assert i < |own| ==> all[i] in own;
    }
  }

  /**
   The walk lists exactly what is under the path, in reverse path order: the files of one version, or
   with version "." every version directory of the id, each behind its own files.
   */
  lemma ContentsIsReverseSorted(fs: Fs, target: Ref)
    ensures Descends(Contents(fs, target))
    ensures forall item :: item in Contents(fs, target) <==>
              && Covers(target, item.ref) && item.ref in fs.versions
              && (if item.File? then item.name in fs.versions[item.ref] else target.version == ".")
  {
    if target.version == "." {
      var xs := Listing(VersionsOf(fs, target.id));
      ListingAscends(VersionsOf(fs, target.id));
      ReversedMembers(xs);
      WalkDescends(fs, target.id, Reversed(xs));
      forall ref: Ref ensures ref.id == target.id && ref.version in xs <==> ref.id == target.id && ref in fs.versions {
        if ref.version in xs && ref.id == target.id {
          var other :| other in fs.versions && other.id == target.id && other.version == ref.version;
          assert other == ref;
        }
      }
    } else {
      FilesDescend(fs, target);
    }
  }

  /** Deleting the next file of a whole directory leaves it whole. */
  lemma UnlinkEffect(ref: Ref, dir: Dir, left: seq<string>)
    requires Whole(ref, dir)
    requires left == [META, MANIFEST] || left == [MANIFEST]
    requires dir.Keys == set x | x in left
    ensures left[1..] == (if left == [META, MANIFEST] then [MANIFEST] else [])
    ensures (dir - {left[0]}).Keys == set x | x in left[1..]
    ensures Whole(ref, dir - {left[0]})
  {
    assert MANIFEST[0] == 'c' && META[0] == 'i';
    assert left[1..] == (if left == [META, MANIFEST] then [MANIFEST] else []);
  }

  /** Clearing the next item of a walk keeps the tree whole and the rest of the walk accurate. */
  lemma ClearEffect(fs: Fs, p: RemoveProc)
    requires FsOk(fs) && UnlinkOk(fs, p) && p.pc.Unlink? && p.pc.todo != []
    ensures FsOk(Clear(fs, p.pc.todo[0])) && UnlinkOk(Clear(fs, p.pc.todo[0]), p.At(Unlink(p.pc.todo[1..])))
  {
    var item, rest := p.pc.todo[0], p.pc.todo[1..];
    var fs' := Clear(fs, item);
    var left := NamesLeft(p.pc.todo, item.ref);
    if item.File? {
      assert left[0] == item.name && left[1..] == NamesLeft(rest, item.ref);
      assert LeftOk(fs, item.ref, left);
      UnlinkEffect(item.ref, fs.versions[item.ref], left);
    }
    forall ref | NamesLeft(rest, ref) != [] ensures LeftOk(fs', ref, NamesLeft(rest, ref)) {
      if ref != item.ref || item.VersionDir? {
        assert NamesLeft(p.pc.todo, ref) == NamesLeft(rest, ref);
        assert LeftOk(fs, ref, NamesLeft(rest, ref));
        assert NamesLeft(rest, ref)[0] in fs.versions[ref];
      }
    }
  }

  lemma ListingIsOk(fs: Fs, p: RemoveProc)
    requires FsOk(fs) && p.pc == ListFiles
    ensures UnlinkOk(fs, p.At(Unlink(Contents(fs, p.ref))))
  {
    var todo := Contents(fs, p.ref);
    ContentsNames(fs, p.ref, p.ref);
    forall ref | NamesLeft(todo, ref) != [] ensures LeftOk(fs, ref, NamesLeft(todo, ref)) {
      ContentsNames(fs, p.ref, ref);
      assert Whole(ref, fs.versions[ref]);
    }
  }

  /** One step of a removal keeps the invariant and touches no version directory outside its path. */
  lemma RemoveStepEffect(fs: Fs, p: RemoveProc)
    requires FsOk(fs) && UnlinkOk(fs, p)
    ensures var (fs', p') := RemoveStep(fs, p);
            && FsOk(fs') && UnlinkOk(fs', p')
            && p'.ref == p.ref
            && fs'.staging == fs.staging && fs'.blocked == fs.blocked
            && (forall ref :: !Covers(p.ref, ref) ==> (ref in fs'.versions <==> ref in fs.versions))
            && (forall ref :: !Covers(p.ref, ref) && ref in fs.versions ==> fs'.versions[ref] == fs.versions[ref])
            && (forall id :: id != p.ref.id ==> (id in fs'.idDirs <==> id in fs.idDirs))
  {
    match p.pc
    case ListFiles => ListingIsOk(fs, p);
    case Unlink(todo) =>
      if todo != [] {
        ClearEffect(fs, p);
        assert Covers(p.ref, todo[0].ref);
      }
    case _ =>
  }

  // ---------------------------------------------------------------- running alone

  /**
   An installer that runs alone reports failure exactly when the id's directory cannot be made;
   otherwise the manifest is there, and it is its own exactly when it reports an update.
   */
  lemma {:induction false} InstallAloneSpec(fs: Fs, p: InstallProc)
    requires FsOk(fs) && StageOk(fs, p)
    requires !p.pc.Finished? && !p.pc.CleanUp? && !p.pc.SyncParent?
    requires p.pc.Promote? ==> p.m.id in fs.idDirs
    ensures var (fs', p') := InstallToEnd(fs, p);
            && FsOk(fs')
            && fs'.staging == fs.staging - {p.token} && fs'.blocked == fs.blocked
            && p'.pc.outcome == (if HasManifest(fs, p.RefOf()) then AlreadyThere
                                 else if p.m.id in fs.blocked then Failed else Updated)
            && fs'.versions == (if p'.pc.outcome == Updated then fs.versions[p.RefOf() := p.Complete()] else fs.versions)
    decreases InstallRank(p.pc)
  {
    InstallStepEffect(fs, p);
    var (fs', p') := InstallStep(fs, p);
    if p.pc.Promote? || p'.pc.CleanUp? {
      if NonEmpty(fs, p.RefOf()) {
        WholeNonEmpty(p.RefOf(), fs.versions[p.RefOf()]);
      }
      InstallTail(fs', p');
    } else if p'.pc.Finished? {
      assert fs.staging - {p.token} == fs.staging;
    } else {
      InstallAloneSpec(fs', p');
      assert fs'.staging - {p.token} == fs.staging - {p.token};
    }
  }

  /** It also makes the id's directory, if it can. */
  lemma {:induction false} InstallAloneParent(fs: Fs, p: InstallProc)
    requires FsOk(fs) && StageOk(fs, p)
    requires !p.pc.Finished? && !p.pc.CleanUp? && !p.pc.SyncParent?
    requires p.pc.Promote? ==> p.m.id in fs.idDirs
    ensures InstallToEnd(fs, p).0.idDirs == fs.idDirs + (if p.m.id in fs.blocked then {} else {p.m.id})
    decreases InstallRank(p.pc)
  {
    InstallStepEffect(fs, p);
    var (fs', p') := InstallStep(fs, p);
    if p.pc.Promote? || p'.pc.CleanUp? {
      InstallTail(fs', p');
    } else if !p'.pc.Finished? {
      InstallAloneParent(fs', p');
    }
  }

  lemma InstallTail(fs: Fs, p: InstallProc)
    requires p.pc.CleanUp? || (p.pc.SyncParent? && p.m.id in fs.idDirs)
    ensures InstallToEnd(fs, p).0 == fs.(staging := fs.staging - {p.token})
    ensures InstallToEnd(fs, p).1 == p.At(Finished(if p.pc.CleanUp? then p.pc.outcome else Updated))
  {
    var (fs1, p1) := InstallStep(fs, p);
    var (fs2, p2) := InstallStep(fs1, p1);
    assert InstallToEnd(fs, p) == InstallToEnd(fs1, p1) == InstallToEnd(fs2, p2);
  }

  /** What a removal leaves: the version directories outside its path. */
  function Spared(versions: map<Ref, Dir>, target: Ref): map<Ref, Dir> {
    map ref | ref in versions && !Covers(target, ref) :: versions[ref]
  }

  /** The walk removes the directory of a version after the version's last file. */
  ghost predicate DirComesLast(todo: seq<WalkItem>, ref: Ref) {
    exists i :: 0 <= i < |todo| && todo[i] == VersionDir(ref) && NamesLeft(todo[i..], ref) == []
  }

  /** What an undisturbed removal knows: everything under its path is still on its list. */
  ghost predicate AloneOk(fs: Fs, p: RemoveProc) {
    match p.pc
    case Unlink(todo) =>
      forall ref :: ref in fs.versions && Covers(p.ref, ref) ==>
        && fs.versions[ref].Keys == (set x | x in NamesLeft(todo, ref))
        && (p.ref.version == "." ==> DirComesLast(todo, ref))
    case RmVersion =>
      if p.ref.version == "." then forall ref :: ref in fs.versions ==> !Covers(p.ref, ref) else !NonEmpty(fs, p.ref)
    case RmParent => forall ref :: ref in fs.versions ==> !Covers(p.ref, ref)
    case Gone(_) => forall ref :: ref in fs.versions ==> !Covers(p.ref, ref)
    case _ => true
  }

  lemma {:induction false} WalkEndsWithDirs(files: Ref -> seq<WalkItem>, id: string, versions: seq<string>, ref: Ref)
    requires ref.id == id && ref.version in versions
    requires forall i, j :: 0 <= i < j < |versions| ==> versions[i] != versions[j]
    requires forall owner :: owner != ref ==> NamesLeft(files(owner), ref) == []
    ensures DirComesLast(Walk(files, id, versions), ref)
  {
    var first, rest := Ref(id, versions[0]), versions[1..];
    var head, more := files(first), Walk(files, id, rest);
    if ref.version == versions[0] {
      assert ref.version !in rest;
      WalkNames(files, id, rest, ref);
      DirComesNow(ref, more);
      DirComesLater(head, [VersionDir(ref)] + more, ref);
      Associative(head, [VersionDir(ref)], more);
    } else {
      WalkEndsWithDirs(files, id, rest, ref);
      DirComesLater(head + [VersionDir(first)], more, ref);
    }
  }

  lemma DirComesNow(ref: Ref, more: seq<WalkItem>)
    requires NamesLeft(more, ref) == []
    ensures DirComesLast([VersionDir(ref)] + more, ref)
  {
    var todo := [VersionDir(ref)] + more;
    assert todo[1..] == more && todo[0..] == todo;
  }

  lemma DirComesLater(before: seq<WalkItem>, todo: seq<WalkItem>, ref: Ref)
    requires DirComesLast(todo, ref)
    ensures DirComesLast(before + todo, ref)
  {
    var j :| 0 <= j < |todo| && todo[j] == VersionDir(ref) && NamesLeft(todo[j..], ref) == [];
    var i := |before| + j;
    assert (before + todo)[i] == todo[j] && (before + todo)[i..] == todo[j..];
  }

  lemma ContentsEndWithDirs(fs: Fs, target: Ref, ref: Ref)
    requires FsOk(fs) && target.version == "." && ref in fs.versions && Covers(target, ref)
    ensures DirComesLast(Contents(fs, target), ref)
  {
    var xs := Listing(VersionsOf(fs, ref.id));
    ReversedMembers(xs);
    assert ref.version in VersionsOf(fs, ref.id);
    var files := r => FilesIn(fs, r);
    forall owner | owner != ref ensures NamesLeft(files(owner), ref) == [] {
      FilesInNames(fs, owner, ref);
    }
    WalkEndsWithDirs(files, ref.id, Reversed(xs), ref);
  }

  lemma WholeNamesAreKeys(fs: Fs, ref: Ref)
    requires ref in fs.versions && Whole(ref, fs.versions[ref])
    ensures fs.versions[ref].Keys == set x | x in WholeNames(fs, ref)
  {
  }

  lemma ListingCoversAll(fs: Fs, p: RemoveProc)
    requires FsOk(fs) && p.pc == ListFiles
    ensures AloneOk(fs, p.At(Unlink(Contents(fs, p.ref))))
  {
    var todo := Contents(fs, p.ref);
    forall ref | ref in fs.versions && Covers(p.ref, ref)
      ensures fs.versions[ref].Keys == set x | x in NamesLeft(todo, ref)
      ensures p.ref.version == "." ==> DirComesLast(todo, ref)
    {
      ContentsNames(fs, p.ref, ref);
      WholeNamesAreKeys(fs, ref);
      if p.ref.version == "." {
        ContentsEndWithDirs(fs, p.ref, ref);
      }
    }
  }

  lemma DirStillComes(todo: seq<WalkItem>, ref: Ref)
    requires DirComesLast(todo, ref) && !(todo[0] == VersionDir(ref) && NamesLeft(todo, ref) == [])
    ensures DirComesLast(todo[1..], ref)
  {
    var i :| 0 <= i < |todo| && todo[i] == VersionDir(ref) && NamesLeft(todo[i..], ref) == [];
    assert todo[0..] == todo;
    assert todo[1..][i - 1] == todo[i] && todo[1..][i - 1..] == todo[i..];
  }

  lemma KeysStayListed(fs: Fs, p: RemoveProc, ref: Ref)
    requires FsOk(fs) && UnlinkOk(fs, p) && p.pc.Unlink? && p.pc.todo != []
    requires ref in fs.versions && ref in Clear(fs, p.pc.todo[0]).versions
    requires fs.versions[ref].Keys == set x | x in NamesLeft(p.pc.todo, ref)
    ensures Clear(fs, p.pc.todo[0]).versions[ref].Keys == set x | x in NamesLeft(p.pc.todo[1..], ref)
  {
    var item, left := p.pc.todo[0], NamesLeft(p.pc.todo, ref);
    if item.File? && item.ref == ref {
      assert left[0] == item.name && left[1..] == NamesLeft(p.pc.todo[1..], ref);
      assert LeftOk(fs, ref, left);
      UnlinkEffect(ref, fs.versions[ref], left);
    } else {
      assert left == NamesLeft(p.pc.todo[1..], ref);
    }
  }

  lemma DirStaysListed(fs: Fs, todo: seq<WalkItem>, ref: Ref)
    requires todo != [] && ref in fs.versions && ref in Clear(fs, todo[0]).versions
    requires fs.versions[ref].Keys == set x | x in NamesLeft(todo, ref)
    requires DirComesLast(todo, ref)
    ensures DirComesLast(todo[1..], ref)
  {
    assert NamesLeft(todo, ref) == [] ==> fs.versions[ref].Keys == {};
    DirStillComes(todo, ref);
  }

  lemma ClearKeepsAlone(fs: Fs, p: RemoveProc)
    requires FsOk(fs) && UnlinkOk(fs, p) && AloneOk(fs, p) && p.pc.Unlink? && p.pc.todo != []
    ensures AloneOk(Clear(fs, p.pc.todo[0]), p.At(Unlink(p.pc.todo[1..])))
  {
    var todo, fs' := p.pc.todo, Clear(fs, p.pc.todo[0]);
    forall ref | ref in fs'.versions && Covers(p.ref, ref)
      ensures fs'.versions[ref].Keys == set x | x in NamesLeft(todo[1..], ref)
      ensures p.ref.version == "." ==> DirComesLast(todo[1..], ref)
    {
      KeysStayListed(fs, p, ref);
      if p.ref.version == "." {
        DirStaysListed(fs, todo, ref);
      }
    }
  }

  lemma StepKeepsAlone(fs: Fs, p: RemoveProc)
    requires FsOk(fs) && UnlinkOk(fs, p) && AloneOk(fs, p)
    ensures AloneOk(RemoveStep(fs, p).0, RemoveStep(fs, p).1)
  {
    match p.pc
    case ListFiles => ListingCoversAll(fs, p);
    case Unlink(todo) =>
      if todo != [] {
        ClearKeepsAlone(fs, p);
      } else {
        forall ref | ref in fs.versions && Covers(p.ref, ref)
          ensures fs.versions[ref] == map[] && p.ref.version != "."
        {
          assert fs.versions[ref].Keys == {};
        }
      }
    case _ =>
  }

  /**
   A removal that runs alone deletes every version directory under its path and nothing else: the one
   it names, or, when the version is ".", all of the id's.
   */
  lemma {:induction false} RemoveAloneSpec(fs: Fs, p: RemoveProc)
    requires FsOk(fs) && UnlinkOk(fs, p) && AloneOk(fs, p)
    ensures var (fs', p') := RemoveToEnd(fs, p);
            && FsOk(fs')
            && fs'.versions == Spared(fs.versions, p.ref)
            && fs'.staging == fs.staging && fs'.blocked == fs.blocked
            && (p.pc.Probe? && p.ref.version != "." ==> (p'.pc.found <==> p.ref in fs.versions))
            && (p.pc.Probe? && p.ref.version == "." ==> (p'.pc.found <==> p.ref.id in fs.idDirs + fs.blocked))
    decreases RemoveRank(p.pc).0, RemoveRank(p.pc).1
  {
    if p.pc.Gone? {
      assert fs.versions == Spared(fs.versions, p.ref);
    } else {
      RemoveStepEffect(fs, p);
      StepKeepsAlone(fs, p);
      var (fs', p') := RemoveStep(fs, p);
      RemoveAloneSpec(fs', p');
      RemoveFound(fs', p');
      assert Spared(fs'.versions, p.ref) == Spared(fs.versions, p.ref);
    }
  }

  lemma {:induction false} RemoveFound(fs: Fs, p: RemoveProc)
    requires !p.pc.Probe?
    ensures RemoveToEnd(fs, p).1.pc.found <==> !(p.pc.Gone? && !p.pc.found)
    decreases RemoveRank(p.pc).0, RemoveRank(p.pc).1
  {
    if !p.pc.Gone? {
      var (fs', p') := RemoveStep(fs, p);
      RemoveFound(fs', p');
    }
  }

  /** The removal takes the id's directory along exactly when it found its path and no other version is left. */
  lemma {:induction false} RemoveAloneParent(fs: Fs, p: RemoveProc)
    requires FsOk(fs) && UnlinkOk(fs, p) && AloneOk(fs, p)
    ensures var (fs', p') := RemoveToEnd(fs, p);
            var stays := p.pc.Gone? || !p'.pc.found || (p.pc.RmParent? && p.ref.version == ".")
                         || (exists ref :: ref in fs'.versions && ref.id == p.ref.id);
            fs'.idDirs == if stays then fs.idDirs else fs.idDirs - {p.ref.id}
    decreases RemoveRank(p.pc).0, RemoveRank(p.pc).1
  {
    if !p.pc.Gone? {
      RemoveStepEffect(fs, p);
      StepKeepsAlone(fs, p);
      var (fs', p') := RemoveStep(fs, p);
      RemoveAloneSpec(fs', p');
      RemoveAloneParent(fs', p');
    }
  }

  // ---------------------------------------------------------------- the path layout

  /** The path segments of `manifests/<id>/<version>`; pathlib drops "." segments. */
  function Segments(ref: Ref): seq<string> {
    ["manifests"] + (if ref.id == "." then [] else [ref.id]) + (if ref.version == "." then [] else [ref.version])
  }

  /** Two refs have the same directory exactly when they are equal or one's "." stands in for the other's name. */
  lemma LayoutCollisions(a: Ref, b: Ref)
    ensures Segments(a) == Segments(b) <==>
            a == b || (a.id == b.version && a.version == b.id && (a.id == "." || a.version == "."))
  {
    var sa, sb := Segments(a), Segments(b);
    if sa == sb && |sa| >= 2 {
      assert sa[1] == sb[1] && sa[|sa| - 1] == sb[|sb| - 1];
    }
  }

  /** Among ordinary refs, the directories under the path of `target` are exactly those it covers. */
  lemma CoverageIsThePath(target: Ref, ref: Ref)
    requires target.id != "." && ref.id != "." && ref.version != "."
    ensures Covers(target, ref) <==> Segments(target) <= Segments(ref)
    ensures Segments(ref) == ["manifests", ref.id, ref.version]
  {
    var st, sr := Segments(target), Segments(ref);
    assert st[1] == target.id && sr[1] == ref.id && sr[2] == ref.version && |sr| == 3;
    if target.version != "." {
      assert st[2] == target.version && |st| == 3;
    }
    assert Segments(target) <= Segments(ref) <==> forall i :: 0 <= i < |st| ==> st[i] == sr[i];
  }

  /** `_safe_dirname` accepts ".", and then two refs share a directory. */
  lemma DotCollapsesTheLayout()
    ensures SafeDirname(".") && SafeDirname("1.0.0")
    ensures Segments(Ref(".", "1.0.0")) == Segments(Ref("1.0.0", "."))
  {
    assert "."[0..] == "." && "."[1..] == "";
    var v := "1.0.0";
    assert v[0] == '1' && v[1] == '.' && v[2] == '0' && v[3] == '.' && v[4] == '0' && |v| == 5;
  }
}
