/**
 `CapabilityStore` and `Installer` (src/store.py, src/installer.py) as objects: the methods load,
 change and rewrite the local catalog file and work on the artifact tree one operation at a time.
 Each is proved against the functions of `Catalog` and `Artifacts`.
 */
module Store {
  import opened Wrappers
  import opened Sorting
  import opened Text
  import opened Manifests
  import opened Catalog
  import opened Artifacts

  /** Order of `list_installed`: by id, then by version. */
  const BY_REF: (Ref, Ref) -> bool :=
    (a: Ref, b: Ref) => if a.id == b.id then AtMost(a.version, b.version) else AtMost(a.id, b.id)

  lemma RefOrderIsTotal()
    ensures TotalOrder(BY_REF)
  {
    forall a: Ref, b: Ref ensures BY_REF(a, b) || BY_REF(b, a) {
      AtMostTotal(a.id, b.id);
      AtMostTotal(a.version, b.version);
    }
    forall a: Ref, b: Ref | BY_REF(a, b) && BY_REF(b, a) ensures a == b {
      AtMostTotal(a.id, b.id);
      AtMostTotal(a.version, b.version);
    }
    forall a: Ref, b: Ref, c: Ref | BY_REF(a, b) && BY_REF(b, c) ensures BY_REF(a, c) {
      if a.id == b.id == c.id {
        AtMostTransitive(a.version, b.version, c.version);
      } else {
        AtMostTotal(a.id, b.id);
        AtMostTotal(b.id, c.id);
        AtMostTransitive(a.id, b.id, c.id);
        AtMostTotal(a.id, c.id);
      }
    }
  }

  lemma SortedInventory(found: seq<Ref>, want: set<Ref>)
    requires forall ref :: ref in multiset(found) <==> ref in want
    requires forall ref :: multiset(found)[ref] <= 1
    ensures var out := StableSort(BY_REF, found);
            && SortedBy(BY_REF, out)
            && (forall ref :: ref in out <==> ref in want)
            && (forall i, j :: 0 <= i < j < |out| ==> out[i] != out[j])
  {
    RefOrderIsTotal();
    StableSortMeetsDefinition(BY_REF, found);
    var out := StableSort(BY_REF, found);
    forall ref ensures ref in out <==> ref in want {
      assert ref in out <==> ref in multiset(out);
    }
    forall i, j | 0 <= i < j < |out| ensures out[i] != out[j] {
      if out[i] == out[j] {
        CountedTwice(out, i, j);
      }
    }
  }

  lemma RefsAscend(refs: seq<Ref>)
    requires SortedBy(BY_REF, refs) && forall i, j :: 0 <= i < j < |refs| ==> refs[i] != refs[j]
    ensures forall i, j :: 0 <= i < j < |refs| ==>
              Precedes(refs[i].id, refs[j].id) || (refs[i].id == refs[j].id && Precedes(refs[i].version, refs[j].version))
  {
    forall i, j | 0 <= i < j < |refs|
      ensures Precedes(refs[i].id, refs[j].id) || (refs[i].id == refs[j].id && Precedes(refs[i].version, refs[j].version))
    {
      assert BY_REF(refs[i], refs[j]);
      AtMostIsLexicographic(refs[i].id, refs[j].id);
      AtMostIsLexicographic(refs[i].version, refs[j].version);
    }
  }

  /** What an installer's outcome is to its caller. */
  function Reported(outcome: Outcome): Result<bool> {
    match outcome
    case Updated => Ok(true)
    case AlreadyThere => Ok(false)
    case Failed => Err(InstallFailed)
  }

  class CapabilityStore {
    const valid: Schema
    const base: CatalogFile
    var local: CatalogFile
    var fs: Fs

    constructor (valid: Schema, base: CatalogFile, local: CatalogFile, fs: Fs)
      ensures this.valid == valid && this.base == base && this.local == local && this.fs == fs
    {
      this.valid := valid;
      this.base := base;
      this.local := local;
      this.fs := fs;
    }

    // ---------------------------------------------------------------- catalogs

    method LoadCatalogFile(file: CatalogFile) returns (r: Result<seq<Manifest>>)
      ensures r == Load(valid, file)
    {
      if file.Missing? || file.NoCapabilities? {
        return Ok([]);
      }
      if !file.Items? {
        return Err(BadManifest);
      }
      var out: seq<Manifest> := [];
      var i := 0;
      while i < |file.items|
        invariant 0 <= i <= |file.items|
        invariant LoadItems(valid, file.items, []) == LoadItems(valid, file.items[i..], out)
      {
        assert file.items[i..][0] == file.items[i] && file.items[i..][1..] == file.items[i + 1..];
        if file.items[i].Dict? {
          var m := file.items[i].m;
          if !valid(m) {
            return Err(BadManifest);
          }
          if m.id != "" {
            out := Put(out, m);
          }
        }
        i := i + 1;
      }
      return Ok(out);
    }

    method WriteLocalCatalog(c: seq<Manifest>)
      modifies this`local
      ensures local == Save(c)
    {
      local := Save(c);
    }

    method MergedCatalog() returns (r: Result<seq<Manifest>>)
      ensures r == LoadMerged(valid, base, local)
    {
      var b :- LoadCatalogFile(base);
      var l :- LoadCatalogFile(local);
      var merged := b;
      var i := 0;
      while i < |l|
        invariant 0 <= i <= |l|
        invariant Merge(b, l) == Merge(merged, l[i..])
      {
        assert l[i..][0] == l[i] && l[i..][1..] == l[i + 1..];
        merged := Put(merged, l[i]);
        i := i + 1;
      }
      return Ok(merged);
    }

    method UpsertLocal(m: Manifest) returns (r: Result<bool>)
      modifies this`local
      ensures (local, r) == UpsertFile(valid, old(local), m)
    {
      if !valid(m) || m.id == "" {
        return Err(BadManifest);
      }
      var l :- LoadCatalogFile(local);
      WriteLocalCatalog(Put(l, m));
      return Ok(true);
    }

    method DeleteLocal(id: string) returns (r: Result<bool>)
      modifies this`local
      ensures (local, r) == DeleteFile(valid, old(local), id)
    {
      var l :- LoadCatalogFile(local);
      if !Has(l, id) {
        return Ok(false);
      }
      WriteLocalCatalog(Drop(l, id));
      return Ok(true);
    }

    method SetLocalEnabled(id: string, enabled: bool) returns (r: Result<bool>)
      modifies this`local
      ensures (local, r) == SetEnabledFile(valid, base, old(local), id, enabled)
    {
      var merged :- MergedCatalog();
      var found := Lookup(merged, id);
      if found.None? {
        return Err(NotFound);
      }
      r := UpsertLocal(found.value.(enabled := Some(enabled)));
    }

    method FactoryReset()
      modifies this
      ensures local == Missing
      ensures fs == old(fs).(versions := map[], idDirs := {}, staging := map[], blocked := {})
    {
      local := Missing;
      fs := fs.(versions := map[], idDirs := {}, blocked := {});
      fs := fs.(staging := map[]);
    }

    // ---------------------------------------------------------------- artifacts

    /** `list_installed`: every version directory with a manifest file, in order of id and then version. */
    method ListInstalled() returns (out: seq<Ref>)
      ensures forall ref :: ref in out <==> ref in fs.versions && "capability.manifest.json" in fs.versions[ref]
      ensures forall i, j :: 0 <= i < j < |out| ==>
                Precedes(out[i].id, out[j].id) || (out[i].id == out[j].id && Precedes(out[i].version, out[j].version))
    {
      out := [];
      var rest := fs.versions.Keys;
      while rest != {}
        invariant rest <= fs.versions.Keys
        invariant forall ref :: ref in multiset(out) <==> ref in fs.versions && ref !in rest && MANIFEST in fs.versions[ref]
        invariant forall ref :: multiset(out)[ref] <= 1
        decreases rest
      {
        var ref :| ref in rest;
        if MANIFEST in fs.versions[ref] {
          out := out + [ref];
        }
        rest := rest - {ref};
      }
      SortedInventory(out, Installed(fs));
      out := StableSort(BY_REF, out);
      RefsAscend(out);
    }

    /**
     `install_manifest_atomic`: refuse ids and versions that are empty or no directory names, then take
     exactly the steps of the installer process.  The value returned tells whether it was an update.
     */
    method InstallManifestAtomic(m: Manifest, via: Option<string>, token: nat) returns (r: Result<bool>)
      requires token !in fs.staging
      modifies this`fs
      ensures if m.id == "" || m.version == "" then r == Err(InstallFailed) && fs == old(fs)
              else if !SafeDirname(m.id) || !SafeDirname(m.version) then r == Err(BadManifest) && fs == old(fs)
              else var (fs', p') := InstallToEnd(old(fs), InstallProc(m, via, token, Check));
                   fs == fs' && r == Reported(p'.pc.outcome)
      ensures FsOk(old(fs)) && IsSegment(m.id) && IsSegment(m.version) ==>
                var ref := Ref(m.id, m.version);
                && (r == Ok(false) <==> HasManifest(old(fs), ref))
                && (r == Err(InstallFailed) <==> !HasManifest(old(fs), ref) && m.id in old(fs).blocked)
                && (r == Ok(true) ==> fs.versions == old(fs).versions[ref := map[MANIFEST := ManifestDoc(m), META := MetaDoc(via)]])
                && (r != Ok(true) ==> fs.versions == old(fs).versions)
                && r in {Ok(true), Ok(false), Err(InstallFailed)}
    {
      SafeDirnamesAreSegments(m.id);
      SafeDirnamesAreSegments(m.version);
      ghost var p := InstallProc(m, via, token, Check);
      if FsOk(fs) {
        InstallAloneSpec(fs, p);
      }
      if m.id == "" || m.version == "" {
        return Err(InstallFailed);
      }
      if !SafeDirname(m.id) || !SafeDirname(m.version) {
        return Err(BadManifest);
      }
      var outcome := StageAndPromote(m, via, token);
      return Reported(outcome);
    }

    method StageAndPromote(m: Manifest, via: Option<string>, token: nat) returns (outcome: Outcome)
      requires token !in fs.staging
      modifies this`fs
      ensures var (fs', p') := InstallToEnd(old(fs), InstallProc(m, via, token, Check));
              fs == fs' && p'.pc == Finished(outcome)
    {
      var ref := Ref(m.id, m.version);
      ghost var p := InstallProc(m, via, token, Check);
      ghost var end := InstallToEnd(fs, p);
      if HasManifest(fs, ref) {
        return AlreadyThere;
      }
      assert end == InstallToEnd(fs, p.At(MakeStage));
      fs := fs.(staging := fs.staging[token := map[]]);
      assert end == InstallToEnd(fs, p.At(TempManifest));
      WriteStage(m, via, token);
      outcome := PromoteStage(m, via, token);
    }

    /** The two `atomic_write_json` calls into the staging directory. */
    method WriteStage(m: Manifest, via: Option<string>, token: nat)
      requires token in fs.staging
      modifies this`fs
      ensures token in fs.staging
      ensures InstallToEnd(fs, InstallProc(m, via, token, MakeParent))
              == InstallToEnd(old(fs), InstallProc(m, via, token, TempManifest))
    {
      ghost var p := InstallProc(m, via, token, TempManifest);
      ghost var end := InstallToEnd(fs, p);
      fs := fs.(staging := fs.staging[token := fs.staging[token][MANIFEST_TEMP := Unfinished]]);
      assert end == InstallToEnd(fs, p.At(NameManifest));
      fs := fs.(staging := fs.staging[token := (fs.staging[token] - {MANIFEST_TEMP})[MANIFEST := ManifestDoc(m)]]);
      assert end == InstallToEnd(fs, p.At(TempMeta));
      fs := fs.(staging := fs.staging[token := fs.staging[token][META_TEMP := Unfinished]]);
      assert end == InstallToEnd(fs, p.At(NameMeta));
      fs := fs.(staging := fs.staging[token := (fs.staging[token] - {META_TEMP})[META := MetaDoc(via)]]);
    }

    /** Rename the staged directory into place; losing the rename counts as success.  Then clean up. */
    method PromoteStage(m: Manifest, via: Option<string>, token: nat) returns (outcome: Outcome)
      requires token in fs.staging
      modifies this`fs
      ensures var (fs', p') := InstallToEnd(old(fs), InstallProc(m, via, token, MakeParent));
              fs == fs' && p'.pc == Finished(outcome)
    {
      var ref := Ref(m.id, m.version);
      ghost var p := InstallProc(m, via, token, MakeParent);
      ghost var end := InstallToEnd(fs, p);
      if ref.id in fs.blocked {
        outcome := Failed;
      } else {
        fs := fs.(idDirs := fs.idDirs + {ref.id});
        assert end == InstallToEnd(fs, p.At(Promote));
        if NonEmpty(fs, ref) {
          outcome := AlreadyThere;
        } else {
          fs := fs.(versions := fs.versions[ref := fs.staging[token]], staging := fs.staging[token := map[]]);
          assert end == InstallToEnd(fs, p.At(SyncParent));
          outcome := Updated;
        }
      }
      assert end == InstallToEnd(fs, p.At(CleanUp(outcome)));
      fs := fs.(staging := fs.staging - {token});
      assert end == InstallToEnd(fs, p.At(Finished(outcome)));
    }

    /** The files of a version directory in reverse name order. */
    method ListFilesOf(ref: Ref) returns (items: seq<WalkItem>)
      ensures items == FilesIn(fs, ref)
    {
      var names := SortSet(if ref in fs.versions then fs.versions[ref].Keys else {});
      return Files(ref, Reversed(names));
    }

    /** The reverse-sorted walk of a path. */
    method ListContents(ref: Ref) returns (items: seq<WalkItem>)
      ensures items == Contents(fs, ref)
    {
      if ref.version != "." {
        items := ListFilesOf(ref);
        return;
      }
      var names := SortSet(VersionsOf(fs, ref.id));
      var versions := Reversed(names);
      ghost var tree := fs;
      ghost var files := r => FilesIn(tree, r);
      items := [];
      var i := 0;
      while i < |versions|
        invariant 0 <= i <= |versions|
        invariant Walk(files, ref.id, versions) == items + Walk(files, ref.id, versions[i..])
      {
        var own := ListFilesOf(Ref(ref.id, versions[i]));
        WalkOneMore(files, ref.id, versions, i, items);
        items := items + own + [VersionDir(Ref(ref.id, versions[i]))];
        i := i + 1;
      }
    }

    /** `CapabilityStore.remove` takes exactly the steps of the removal process. */
    method Remove(ref: Ref) returns (found: bool)
      modifies this`fs
      ensures var (fs', p') := RemoveToEnd(old(fs), RemoveProc(ref, Probe));
              fs == fs' && p'.pc == Gone(found)
    {
      ghost var p := RemoveProc(ref, Probe);
      ghost var end := RemoveToEnd(fs, p);
      if !PathExists(fs, ref) {
        return false;
      }
      assert end == RemoveToEnd(fs, p.At(ListFiles));
      var todo := ListContents(ref);
      assert end == RemoveToEnd(fs, p.At(Unlink(todo)));
      while todo != []
        invariant end == RemoveToEnd(fs, p.At(Unlink(todo)))
        decreases |todo|
      {
        fs := Clear(fs, todo[0]);
        todo := todo[1..];
      }
      assert end == RemoveToEnd(fs, p.At(RmVersion));
      fs := if ref.version == "." then ClearId(fs, ref.id) else Clear(fs, VersionDir(ref));
      assert end == RemoveToEnd(fs, p.At(RmParent));
      if ref.version != "." {
        fs := ClearId(fs, ref.id);
      }
      assert end == RemoveToEnd(fs, p.At(Gone(true)));
      return true;
    }
  }

  lemma WalkOneMore(files: Ref -> seq<WalkItem>, id: string, versions: seq<string>, i: nat, items: seq<WalkItem>)
    requires i < |versions|
    ensures items + Walk(files, id, versions[i..])
            == items + files(Ref(id, versions[i])) + [VersionDir(Ref(id, versions[i]))] + Walk(files, id, versions[i + 1..])
  {
    assert versions[i..][0] == versions[i] && versions[i..][1..] == versions[i + 1..];
  }
}
