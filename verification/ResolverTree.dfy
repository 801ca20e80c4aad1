/**
 Serializability of the artifact tree.  In a run in which no writer is killed, the whole tree, staging
 area included, is what running the operations one after another in lock-acquisition order leaves.
 */
module ResolverTree {
  import opened Wrappers
  import opened Manifests
  import opened Catalog
  import opened Artifacts
  import opened ResolverSystem
  import opened ResolverTheorems
  import opened ResolverAnswers

  /**
   What an operation that runs alone does to the tree: an admitted install runs its installer, even if
   the catalog then turns out to be unreadable; a removal that found its capability runs its removal.
   */
  ghost function TreeAfter(cfg: Config, op: Op, pid: nat, local: CatalogFile, fs: Fs): Fs {
    match op
    case Install(_, via, _) =>
      (match Admit(cfg, op)
       case Ok(m) => InstallToEnd(fs, InstallProc(m, via, pid, Check)).0
       case Err(_) => fs)
    case Remove(id, version) =>
      if SpecAnswer(cfg, op, local) == Removed(true) && SafeDirname(id) && SafeDirname(version)
      then RemoveToEnd(fs, RemoveProc(Ref(id, version), Probe)).0 else fs
    case _ => fs
  }

  /**
   The same by its effect.  An install that is admitted puts its manifest and meta files into the version's
   directory, unless that has a manifest already or cannot be made; a removal that found its capability
   deletes the version directories under its path; nothing else changes, and nothing stays in staging.
   */
  lemma TreeAfterSpec(cfg: Config, op: Op, pid: nat, local: CatalogFile, fs: Fs)
    requires FsOk(fs) && fs.blocked == cfg.blocked && pid !in fs.staging
    ensures var after := TreeAfter(cfg, op, pid, local, fs);
            && after.staging == fs.staging
            && (op.Install? ==> forall m ::
                  cfg.valid(op.candidate) && Consents(cfg.policy, op.candidate) && WorksWith(cfg, op, m)
                  && IsSegment(m.id) && IsSegment(m.version) ==>
                    var ref := Ref(m.id, m.version);
                    after.versions == if HasManifest(fs, ref) || m.id in fs.blocked then fs.versions
                      else fs.versions[ref := map["capability.manifest.json" := ManifestDoc(m), "install.meta.json" := MetaDoc(op.via)]])
            && (op.Install? && Admit(cfg, op).Err? ==> after == fs)
            && (op.Remove? ==>
                  after.versions == if SpecAnswer(cfg, op, local) == Removed(true) && IsSegment(op.id) && IsSegment(op.version)
                                    then map ref | ref in fs.versions && !Covers(Ref(op.id, op.version), ref) :: fs.versions[ref]
                                    else fs.versions)
            && (!IsWriter(op) ==> after == fs)
  {
    match op
    case Install(candidate, via, _) =>
      if Admit(cfg, op).Ok? {
        InstallTreeSpec(cfg, op, pid, fs);
      }
      forall m | cfg.valid(candidate) && Consents(cfg.policy, candidate) && WorksWith(cfg, op, m)
                 && IsSegment(m.id) && IsSegment(m.version)
        ensures Admit(cfg, op) == Ok(m)
      {
        EnforceInstallDecides(cfg.policy, candidate);
        SafeDirnamesAreSegments(m.id);
        SafeDirnamesAreSegments(m.version);
      }
    case Remove(id, version) =>
      SafeDirnamesAreSegments(id);
      SafeDirnamesAreSegments(version);
      RemoveAloneSpec(fs, RemoveProc(Ref(id, version), Probe));
    case _ =>
  }

  lemma InstallTreeSpec(cfg: Config, op: Op, pid: nat, fs: Fs)
    requires FsOk(fs) && pid !in fs.staging && op.Install? && Admit(cfg, op).Ok?
    ensures var m := Admit(cfg, op).value;
            var after, ref := InstallToEnd(fs, InstallProc(m, op.via, pid, Check)).0, Ref(m.id, m.version);
            && after.staging == fs.staging
            && after.versions == if HasManifest(fs, ref) || m.id in fs.blocked then fs.versions
                 else fs.versions[ref := map["capability.manifest.json" := ManifestDoc(m), "install.meta.json" := MetaDoc(op.via)]]
  {
    var p := InstallProc(Admit(cfg, op).value, op.via, pid, Check);
    InstallAloneSpec(fs, p);
    assert fs.staging - {pid} == fs.staging;
  }

  /** The tree after the live operations of a log, run one after another. */
  ghost function ReplayTree(cfg: Config, start: CatalogFile, fs0: Fs, log: seq<Entry>): Fs
    decreases |log|
  {
    if log == [] then fs0
    else
      var init, last := log[..|log| - 1], log[|log| - 1];
      var before := ReplayTree(cfg, start, fs0, init);
      if last.live then TreeAfter(cfg, last.op, last.pid, Replay(cfg, start, init), before) else before
  }

  lemma ReplayTreeAppend(cfg: Config, start: CatalogFile, fs0: Fs, log: seq<Entry>, e: Entry)
    requires e.live
    ensures ReplayTree(cfg, start, fs0, log + [e])
            == TreeAfter(cfg, e.op, e.pid, Replay(cfg, start, log), ReplayTree(cfg, start, fs0, log))
  {
    assert (log + [e])[..|log|] == log;
  }

  /** How far a writer has brought the tree from `prior` to `target`. */
  ghost predicate OnTheWay(prior: Fs, target: Fs, fs: Fs, w: WriterPc) {
    match w
    case Artifact(p) => InstallToEnd(fs, p).0 == target
    case LoadForUpsert(_, next) => fs == (if next.ThenAnswer? then target else prior)
    case MakeTemp(_, next) => fs == (if next.ThenAnswer? then target else prior)
    case FillTemp(_, next) => fs == (if next.ThenAnswer? then target else prior)
    case Swap(_, next) => fs == (if next.ThenAnswer? then target else prior)
    case Cleaning(r) => RemoveToEnd(fs, r).0 == target
    case Return(_) => fs == target
    case _ => fs == prior
  }

  lemma WriterStaysOnTheWay(cfg: Config, d: Disk, before: CatalogFile, op: Op, pid: nat, committed: bool, w: WriterPc, prior: Fs)
    requires IsWriter(op) && WriterOk(cfg, d, before, op, pid, committed, w) && !w.Return?
    requires OnTheWay(prior, TreeAfter(cfg, op, pid, before, prior), d.fs, w)
    ensures var (d', w') := WriterStep(cfg, d, op, pid, w);
            OnTheWay(prior, TreeAfter(cfg, op, pid, before, prior), d'.fs, w')
  {
    WriterStepOk(cfg, d, before, op, pid, committed, w);
  }

  ghost predicate WriterOnTheWay(cfg: Config, start: CatalogFile, fs0: Fs, s: Sys, p: nat)
    requires s.IsWriting(p)
  {
    var op, at := s.procs[p].op, s.procs[p].status.at;
    at <= |s.log| &&
    var local, prior := Replay(cfg, start, s.log[..at]), ReplayTree(cfg, start, fs0, s.log[..at]);
    OnTheWay(prior, TreeAfter(cfg, op, p, local, prior), s.disk.fs, s.procs[p].status.w)
  }

  ghost predicate TreeOk(cfg: Config, start: CatalogFile, fs0: Fs, s: Sys) {
    && (forall p :: s.IsWriting(p) ==> WriterOnTheWay(cfg, start, fs0, s, p))
    && ((forall p :: !s.IsWriting(p)) ==> s.disk.fs == ReplayTree(cfg, start, fs0, s.log))
  }

  /** A step that leaves disk, log and writers alone. */
  lemma SameTree(cfg: Config, start: CatalogFile, fs0: Fs, s: Sys, s': Sys)
    requires TreeOk(cfg, start, fs0, s) && s'.disk.fs == s.disk.fs && s'.log == s.log
    requires forall p :: s'.IsWriting(p) <==> s.IsWriting(p)
    requires forall p :: s.IsWriting(p) ==> p in s'.procs && s'.procs[p] == s.procs[p]
    ensures TreeOk(cfg, start, fs0, s')
  {
    forall p | s'.IsWriting(p) ensures WriterOnTheWay(cfg, start, fs0, s', p) {
      assert WriterOnTheWay(cfg, start, fs0, s, p);
    }
  }

  lemma AcquireKeepsTree(cfg: Config, start: CatalogFile, fs0: Fs, s: Sys, pid: nat)
    requires SysOk(cfg, start, s) && TreeOk(cfg, start, fs0, s)
    requires pid in s.procs && s.procs[pid].status.Waiting?
    ensures TreeOk(cfg, start, fs0, Acquire(s, pid))
  {
    var s', op := Acquire(s, pid), s.procs[pid].op;
    if s' != s {
      NobodyHolds(s);
      AcquireKeepsLocks(s, pid);
      assert forall p :: !s.IsWriting(p);
      ReplayTreeAppend(cfg, start, fs0, s.log, Entry(pid, op, true));
      if IsWriter(op) {
        assert s'.log[..|s.log|] == s.log;
        assert WriterOnTheWay(cfg, start, fs0, s', pid);
      }
    }
  }

  lemma WriterKeepsTree(cfg: Config, start: CatalogFile, fs0: Fs, s: Sys, pid: nat)
    requires SysOk(cfg, start, s) && TreeOk(cfg, start, fs0, s)
    requires s.IsWriting(pid) && !s.procs[pid].status.w.Return?
    ensures TreeOk(cfg, start, fs0, StepWriter(cfg, s, pid))
  {
    var op, st := s.procs[pid].op, s.procs[pid].status;
    var s' := StepWriter(cfg, s, pid);
    assert ProcOk(cfg, start, s, pid) && WriterOnTheWay(cfg, start, fs0, s, pid);
    var local, prior := Replay(cfg, start, s.log[..st.at]), ReplayTree(cfg, start, fs0, s.log[..st.at]);
    WriterStaysOnTheWay(cfg, s.disk, local, op, pid, st.committed, st.w, prior);
    assert s'.IsWriting(pid) && WriterOnTheWay(cfg, start, fs0, s', pid);
    assert forall q :: s'.IsWriting(q) ==> q == pid;
  }

  lemma ReleaseKeepsTree(cfg: Config, start: CatalogFile, fs0: Fs, s: Sys, pid: nat)
    requires SysOk(cfg, start, s) && TreeOk(cfg, start, fs0, s)
    requires s.IsWriting(pid) && s.procs[pid].status.w.Return?
    ensures TreeOk(cfg, start, fs0, StepWriter(cfg, s, pid))
  {
    var op, at := s.procs[pid].op, s.procs[pid].status.at;
    assert ProcOk(cfg, start, s, pid) && WriterOnTheWay(cfg, start, fs0, s, pid);
    ReturnKnows(cfg, start, s, pid);
    ReleaseLocks(cfg, s, pid);
    assert s.log == s.log[..at] + [Entry(pid, op, true)];
    ReplayTreeAppend(cfg, start, fs0, s.log[..at], Entry(pid, op, true));
  }

  /** Not a kill that hits a writer. */
  predicate Spares(s: Sys, e: Event) {
    e.Kill? ==> !s.IsWriting(e.pid)
  }

  lemma ReaderKeepsTree(cfg: Config, start: CatalogFile, fs0: Fs, s: Sys, pid: nat)
    requires TreeOk(cfg, start, fs0, s) && s.IsReading(pid)
    ensures TreeOk(cfg, start, fs0, StepReader(cfg, s, pid))
  {
    ReaderStepFrame(cfg, s, pid);
    SameTree(cfg, start, fs0, s, StepReader(cfg, s, pid));
  }

  lemma EventKeepsTree(cfg: Config, start: CatalogFile, fs0: Fs, s: Sys, e: Event)
    requires SysOk(cfg, start, s) && TreeOk(cfg, start, fs0, s) && Spares(s, e)
    ensures TreeOk(cfg, start, fs0, Happens(cfg, s, e))
  {
    var s' := Happens(cfg, s, e);
    match e
    case Spawn(_, _) => SameTree(cfg, start, fs0, s, s');
    case Step(pid) =>
      if pid in s.procs {
        match s.procs[pid].status
        case Waiting => AcquireKeepsTree(cfg, start, fs0, s, pid);
        case Writing(_, _, w) =>
          if w.Return? { ReleaseKeepsTree(cfg, start, fs0, s, pid); } else { WriterKeepsTree(cfg, start, fs0, s, pid); }
        case Reading(_, _) => ReaderKeepsTree(cfg, start, fs0, s, pid);
        case _ =>
      }
    case Kill(_) => SameTree(cfg, start, fs0, s, s');
  }

  /** A run in which no kill hits a writer. */
  ghost predicate WritersSpared(cfg: Config, s: Sys, events: seq<Event>)
    decreases |events|
  {
    events == [] || (Spares(s, events[0]) && WritersSpared(cfg, Happens(cfg, s, events[0]), events[1..]))
  }

  lemma {:induction false} RunKeepsTree(cfg: Config, start: CatalogFile, fs0: Fs, s: Sys, events: seq<Event>)
    requires SysOk(cfg, start, s) && TreeOk(cfg, start, fs0, s) && WritersSpared(cfg, s, events)
    ensures TreeOk(cfg, start, fs0, Exec(cfg, s, events))
    decreases |events|
  {
    if events != [] {
      EventOk(cfg, start, s, events[0]);
      EventKeepsTree(cfg, start, fs0, s, events[0]);
      RunKeepsTree(cfg, start, fs0, Happens(cfg, s, events[0]), events[1..]);
    }
  }

  /**
   Serializability of the tree: whenever nobody is writing, it is exactly the one that the operations
   logged so far leave when each runs alone to its end, in lock-acquisition order.
   */
  lemma TreeIsSerializable(cfg: Config, s0: Sys, events: seq<Event>)
    requires Init(cfg, s0) && WritersSpared(cfg, s0, events)
    requires forall p :: !Exec(cfg, s0, events).IsWriting(p)
    ensures var s := Exec(cfg, s0, events);
            s.disk.fs == ReplayTree(cfg, s0.disk.local, s0.disk.fs, s.log)
  {
    RunKeepsTree(cfg, s0.disk.local, s0.disk.fs, s0, events);
  }
}
