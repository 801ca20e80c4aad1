/**
 What holds of every run of the concurrent resolver: the invariant `SysOk` is kept by every event,
 and serializability, write ordering, mutual exclusion and freedom from deadlock follow.
 */
module ResolverTheorems {
  import opened Wrappers
  import opened Manifests
  import opened Catalog
  import opened Artifacts
  import opened ResolverSystem

  /** A process other than the one that stepped keeps what it knows. */
  lemma FrameProc(cfg: Config, start: CatalogFile, s: Sys, s': Sys, q: nat)
    requires q in s.procs && q in s'.procs && s'.procs[q] == s.procs[q]
    requires ProcOk(cfg, start, s, q) && !s.IsWriting(q)
    requires s.procs[q].status.Waiting? ==> q !in s'.disk.fs.staging
    requires s.IsReading(q) ==> s'.disk.local == s.disk.local
    requires s.procs[q].status.Done? || s.IsReading(q) ==>
               && s.procs[q].status.at < |s'.log|
               && s'.log[..s.procs[q].status.at + 1] == s.log[..s.procs[q].status.at + 1]
    ensures ProcOk(cfg, start, s', q)
  {
    var st := s.procs[q].status;
    if st.Done? || st.Reading? {
      assert s.log[..st.at] == s.log[..st.at + 1][..st.at] == s'.log[..st.at + 1][..st.at] == s'.log[..st.at];
      assert s.log[st.at] == s.log[..st.at + 1][st.at] == s'.log[..st.at + 1][st.at] == s'.log[st.at];
    }
  }

  lemma SpawnOk(cfg: Config, start: CatalogFile, s: Sys, pid: nat, op: Op)
    requires SysOk(cfg, start, s)
    ensures SysOk(cfg, start, Happens(cfg, s, Spawn(pid, op)))
  {
    var s' := Happens(cfg, s, Spawn(pid, op));
    if s' != s {
      forall q | q in s'.procs ensures ProcOk(cfg, start, s', q) {
        if q != pid && !s.IsWriting(q) {
          FrameProc(cfg, start, s, s', q);
        }
      }
      SameHolders(s, s', pid);
      assert forall q :: s'.IsWriting(q) <==> s.IsWriting(q);
    }
  }

  lemma NobodyHolds(s: Sys)
    requires LocksOk(s)
    ensures s.exclusive == {} <==> forall p :: !s.IsWriting(p)
    ensures s.shared == {} <==> forall p :: !s.IsReading(p)
  {
    if s.exclusive != {} {
      var fd :| fd in s.exclusive;
      assert Fd(fd.pid, fd.level) in s.exclusive;
    }
    if p :| s.IsWriting(p) {
      assert Fd(p, 0) in s.exclusive;
    }
    if s.shared != {} {
      var fd :| fd in s.shared;
      assert Fd(fd.pid, fd.level) in s.shared;
    }
    if p :| s.IsReading(p) {
      assert Fd(p, 0) in s.shared;
    }
  }

  lemma AcquireKeepsLocks(s: Sys, pid: nat)
    requires LocksOk(s) && pid in s.procs && s.procs[pid].status.Waiting?
    ensures LocksOk(Acquire(s, pid))
    ensures forall q :: q != pid ==> (Acquire(s, pid).IsWriting(q) <==> s.IsWriting(q))
  {
    var s', op := Acquire(s, pid), s.procs[pid].op;
    NobodyHolds(s);
    if s' != s {
      assert forall q :: q != pid ==> (s'.IsWriting(q) <==> s.IsWriting(q));
      assert forall q :: q != pid ==> (s'.IsReading(q) <==> s.IsReading(q));
      assert forall q :: q != pid ==> (s'.HoldsInner(q) <==> s.HoldsInner(q));
      assert !s'.HoldsInner(pid) || !op.Run?;
    }
  }

  /** A process that is granted the lock starts from the state its log prefix prescribes. */
  lemma AcquireSelf(cfg: Config, start: CatalogFile, s: Sys, pid: nat)
    requires SysOk(cfg, start, s) && pid in s.procs && s.procs[pid].status.Waiting?
    ensures ProcOk(cfg, start, Acquire(s, pid), pid)
  {
    var s' := Acquire(s, pid);
    NobodyHolds(s);
    assert ProcOk(cfg, start, s, pid);
    if s' != s {
      assert s'.log[..|s.log|] == s.log;
    }
  }

  lemma AcquireOthers(cfg: Config, start: CatalogFile, s: Sys, pid: nat, q: nat)
    requires SysOk(cfg, start, s) && pid in s.procs && s.procs[pid].status.Waiting?
    requires q in s.procs && q != pid
    ensures ProcOk(cfg, start, Acquire(s, pid), q)
  {
    var s', st := Acquire(s, pid), s.procs[q].status;
    assert ProcOk(cfg, start, s, q);
    if s' != s {
      NobodyHolds(s);
      if st.Done? || st.Reading? {
        assert s'.log[..st.at + 1] == s.log[..st.at + 1];
      }
      FrameProc(cfg, start, s, s', q);
    }
  }

  lemma AcquireOk(cfg: Config, start: CatalogFile, s: Sys, pid: nat)
    requires SysOk(cfg, start, s) && pid in s.procs && s.procs[pid].status.Waiting?
    ensures SysOk(cfg, start, Acquire(s, pid))
  {
    var s', op := Acquire(s, pid), s.procs[pid].op;
    AcquireKeepsLocks(s, pid);
    if s' != s {
      NobodyHolds(s);
      assert forall p :: !s.IsWriting(p);
      ReplayAppend(cfg, start, s.log, Entry(pid, op, true));
      forall q | q in s'.procs ensures ProcOk(cfg, start, s', q) {
        if q == pid {
          AcquireSelf(cfg, start, s, pid);
        } else {
          AcquireOthers(cfg, start, s, pid, q);
        }
      }
    }
  }

  // ---------------------------------------------------------------- a step of the writer

  /** A writer's file operations leave other processes' staging directories alone. */
  lemma WriterStepStaging(cfg: Config, d: Disk, before: CatalogFile, op: Op, pid: nat, committed: bool, w: WriterPc)
    requires IsWriter(op) && WriterOk(cfg, d, before, op, pid, committed, w)
    ensures forall t :: t != pid ==> (t in WriterStep(cfg, d, op, pid, w).0.fs.staging <==> t in d.fs.staging)
  {
    if w.Artifact? && !w.p.pc.Finished? {
      InstallStepEffect(d.fs, w.p);
    }
    if w.Cleaning? && !w.r.pc.Gone? {
      RemoveStepEffect(d.fs, w.r);
    }
  }

  /** While the catalog stays and no manifest of an owned id goes, nothing owned loses its artifact. */
  lemma OwnedFrame(cfg: Config, d: Disk, d': Disk, owned: set<string>)
    requires OwnedOk(cfg, d, owned) && d'.local == d.local
    requires forall ref: Ref :: ref.id in owned && HasManifest(d.fs, ref) ==> HasManifest(d'.fs, ref)
    ensures OwnedOk(cfg, d', owned)
  {
    if owned != {} {
      var c := Load(cfg.valid, d.local).value;
      forall id | id in owned ensures OwnedEntryOk(d'.fs, c, id) {
        assert OwnedEntryOk(d.fs, c, id);
      }
    }
  }

  /** Installers only add artifacts, and removals touch the id they name. */
  lemma ArtifactsKeepOwned(cfg: Config, d: Disk, before: CatalogFile, op: Op, pid: nat, committed: bool, w: WriterPc,
                           owned: set<string>)
    requires IsWriter(op) && WriterOk(cfg, d, before, op, pid, committed, w) && !w.Swap?
    requires OwnedOk(cfg, d, owned)
    requires w.Cleaning? ==> op.id !in owned
    ensures OwnedOk(cfg, WriterStep(cfg, d, op, pid, w).0, owned)
  {
    var d' := WriterStep(cfg, d, op, pid, w).0;
    if w.Artifact? && !w.p.pc.Finished? {
      InstallStepEffect(d.fs, w.p);
      assert MANIFEST in w.p.Complete();
    }
    if w.Cleaning? && !w.r.pc.Gone? {
      RemoveStepEffect(d.fs, w.r);
    }
    OwnedFrame(cfg, d, d', owned);
  }

  lemma SwapKeepsOwned(cfg: Config, d: Disk, before: CatalogFile, op: Op, pid: nat, w: WriterPc, owned: set<string>)
    requires IsWriter(op) && WriterOk(cfg, d, before, op, pid, false, w) && w.Swap?
    requires OwnedOk(cfg, d, owned)
    ensures OwnedOk(cfg, WriterStep(cfg, d, op, pid, w).0, OwnedAfter(cfg, op, owned))
  {
    var d', owned' := WriterStep(cfg, d, op, pid, w).0, OwnedAfter(cfg, op, owned);
    assert d'.local == Save(w.c) && d'.fs == d.fs;
    forall id | id in owned' ensures OwnedEntryOk(d'.fs, w.c, id) {
      if Some(id) != Target(cfg, op) {
        assert OwnedEntryOk(d.fs, Load(cfg.valid, before).value, id);
      }
    }
  }

  /** What the writer itself knows after its step. */
  lemma WriterStepKnows(cfg: Config, start: CatalogFile, s: Sys, pid: nat)
    requires s.IsWriting(pid) && ProcOk(cfg, start, s, pid) && !s.procs[pid].status.w.Return?
    ensures var s' := StepWriter(cfg, s, pid);
            && s'.IsWriting(pid) && ProcOk(cfg, start, s', pid)
            && FsOk(s'.disk.fs) && s'.disk.fs.blocked == cfg.blocked
            && forall t :: t != pid ==> (t in s'.disk.fs.staging <==> t in s.disk.fs.staging)
  {
    var op, st := s.procs[pid].op, s.procs[pid].status;
    var before := Replay(cfg, start, s.log[..st.at]);
    WriterStepOk(cfg, s.disk, before, op, pid, st.committed, st.w);
    WriterStepStaging(cfg, s.disk, before, op, pid, st.committed, st.w);
  }

  lemma WriterStepOwned(cfg: Config, start: CatalogFile, s: Sys, pid: nat)
    requires OwnedOk(cfg, s.disk, s.owned) && CleaningDisowned(s)
    requires s.IsWriting(pid) && ProcOk(cfg, start, s, pid) && !s.procs[pid].status.w.Return?
    ensures OwnedOk(cfg, StepWriter(cfg, s, pid).disk, StepWriter(cfg, s, pid).owned)
  {
    var op, st := s.procs[pid].op, s.procs[pid].status;
    var before := Replay(cfg, start, s.log[..st.at]);
    if st.w.Swap? {
      SwapKeepsOwned(cfg, s.disk, before, op, pid, st.w, s.owned);
    } else {
      ArtifactsKeepOwned(cfg, s.disk, before, op, pid, st.committed, st.w, s.owned);
    }
  }

  /** A removal starts to clean only with its catalog write, which disowns its id. */
  lemma WriterStepDisowned(cfg: Config, s: Sys, pid: nat)
    requires LocksOk(s) && CleaningDisowned(s)
    requires s.IsWriting(pid) && IsWriter(s.procs[pid].op) && !s.procs[pid].status.w.Return?
    ensures CleaningDisowned(StepWriter(cfg, s, pid))
  {
    var op, w := s.procs[pid].op, s.procs[pid].status.w;
    var s' := StepWriter(cfg, s, pid);
    forall q | s'.IsWriting(q) && s'.procs[q].status.w.Cleaning? && s'.procs[q].op.Remove?
      ensures s'.procs[q].op.id !in s'.owned
    {
      assert q != pid ==> s.IsWriting(q);
      if w.Swap? {
        assert Target(cfg, op) == Some(s'.procs[q].op.id);
      }
    }
  }

  lemma WriterEventOk(cfg: Config, start: CatalogFile, s: Sys, pid: nat)
    requires SysOk(cfg, start, s) && s.IsWriting(pid) && !s.procs[pid].status.w.Return?
    ensures SysOk(cfg, start, StepWriter(cfg, s, pid))
  {
    var s' := StepWriter(cfg, s, pid);
    assert ProcOk(cfg, start, s, pid);
    WriterStepKnows(cfg, start, s, pid);
    WriterStepOwned(cfg, start, s, pid);
    WriterStepDisowned(cfg, s, pid);
    forall q | q in s'.procs ensures ProcOk(cfg, start, s', q) {
      if q != pid {
        assert !s.IsWriting(q) && !s.IsReading(q);
        assert ProcOk(cfg, start, s, q);
        FrameProc(cfg, start, s, s', q);
      }
    }
    SameHolders(s, s', pid);
  }

  lemma SameHolders(s: Sys, s': Sys, pid: nat)
    requires LocksOk(s) && s'.exclusive == s.exclusive && s'.shared == s.shared
    requires forall q :: q != pid ==> (q in s'.procs <==> q in s.procs)
    requires forall q :: q != pid && q in s.procs ==> s'.procs[q] == s.procs[q]
    requires s'.IsWriting(pid) <==> s.IsWriting(pid)
    requires s'.IsReading(pid) <==> s.IsReading(pid)
    requires s'.HoldsInner(pid) <==> s.HoldsInner(pid)
    ensures LocksOk(s')
  {
    assert forall q :: s'.IsWriting(q) <==> s.IsWriting(q);
    assert forall q :: s'.IsReading(q) <==> s.IsReading(q);
    assert forall q :: s'.HoldsInner(q) <==> s.HoldsInner(q);
  }

  lemma ReleaseOk(cfg: Config, start: CatalogFile, s: Sys, pid: nat)
    requires SysOk(cfg, start, s) && s.IsWriting(pid) && s.procs[pid].status.w.Return?
    ensures SysOk(cfg, start, StepWriter(cfg, s, pid))
  {
    var s' := StepWriter(cfg, s, pid);
    ReleaseReplay(cfg, start, s, pid);
    ReleaseLocks(cfg, s, pid);
    forall q | q in s'.procs ensures ProcOk(cfg, start, s', q) {
      if q != pid {
        assert ProcOk(cfg, start, s, q);
        FrameProc(cfg, start, s, s', q);
      }
    }
  }

  /** What a writer knows when it returns. */
  lemma ReturnKnows(cfg: Config, start: CatalogFile, s: Sys, pid: nat)
    requires s.IsWriting(pid) && ProcOk(cfg, start, s, pid) && s.procs[pid].status.w.Return?
    ensures var op, st := s.procs[pid].op, s.procs[pid].status;
            && IsWriter(op) && LoggedAs(s, pid, st.at) && st.at + 1 == |s.log|
            && st.w.a == SpecAnswer(cfg, op, Replay(cfg, start, s.log[..st.at]))
            && s.disk.local == SpecLocal(cfg, op, Replay(cfg, start, s.log[..st.at]))
  {
  }

  /** A writer that returns has done exactly what its log entry says, and its answer is the specified one. */
  lemma ReleaseReplay(cfg: Config, start: CatalogFile, s: Sys, pid: nat)
    requires s.IsWriting(pid) && ProcOk(cfg, start, s, pid) && s.procs[pid].status.w.Return?
    ensures s.disk.local == Replay(cfg, start, s.log)
    ensures ProcOk(cfg, start, StepWriter(cfg, s, pid), pid)
  {
    var op, at := s.procs[pid].op, s.procs[pid].status.at;
    ReturnKnows(cfg, start, s, pid);
    assert s.log[|s.log| - 1] == Entry(pid, op, true) && s.log[..|s.log| - 1] == s.log[..at];
  }

  lemma ReleaseLocks(cfg: Config, s: Sys, pid: nat)
    requires LocksOk(s) && s.IsWriting(pid) && IsWriter(s.procs[pid].op) && s.procs[pid].status.w.Return?
    ensures LocksOk(StepWriter(cfg, s, pid))
    ensures forall q :: !StepWriter(cfg, s, pid).IsWriting(q)
  {
    var s' := StepWriter(cfg, s, pid);
    assert forall q :: s'.IsWriting(q) <==> s.IsWriting(q) && q != pid;
    assert forall q :: s'.IsReading(q) <==> s.IsReading(q);
    assert forall q :: s'.HoldsInner(q) <==> s.HoldsInner(q);
  }

  // ---------------------------------------------------------------- a step of a reader

  /** What the reader itself knows after its step. */
  lemma ReaderStepKnows(cfg: Config, start: CatalogFile, s: Sys, pid: nat)
    requires s.IsReading(pid) && ReaderOk(cfg, start, s, pid)
    ensures ProcOk(cfg, start, StepReader(cfg, s, pid), pid)
  {
    var s' := StepReader(cfg, s, pid);
    assert s'.log == s.log && s'.disk == s.disk && s'.procs[pid].op == s.procs[pid].op;
  }

  lemma ReaderStepLocks(cfg: Config, s: Sys, pid: nat)
    requires LocksOk(s) && s.IsReading(pid)
    requires s.procs[pid].status.r.Enter? ==> s.procs[pid].op.Run?
    ensures LocksOk(StepReader(cfg, s, pid))
  {
    var s' := StepReader(cfg, s, pid);
    OthersUnchanged(s, s', pid);
    forall p, l ensures Fd(p, l) in s'.shared <==> (l == 0 && s'.IsReading(p)) || (l == 1 && s'.HoldsInner(p)) {
      assert Fd(p, l) in s.shared <==> (l == 0 && s.IsReading(p)) || (l == 1 && s.HoldsInner(p));
    }
    assert !s'.IsWriting(pid);
    assert s'.exclusive == s.exclusive;
  }

  lemma OthersUnchanged(s: Sys, s': Sys, pid: nat)
    requires forall q :: q != pid ==> (q in s'.procs <==> q in s.procs)
    requires forall q :: q != pid && q in s.procs ==> s'.procs[q] == s.procs[q]
    ensures forall q :: q != pid ==> (s'.IsWriting(q) <==> s.IsWriting(q))
    ensures forall q :: q != pid ==> (s'.IsReading(q) <==> s.IsReading(q))
    ensures forall q :: q != pid ==> (s'.HoldsInner(q) <==> s.HoldsInner(q))
  {
  }

  lemma ReaderStepFrame(cfg: Config, s: Sys, pid: nat)
    requires s.IsReading(pid)
    ensures var s' := StepReader(cfg, s, pid);
            && s'.log == s.log && s'.disk == s.disk && s'.owned == s.owned
            && s'.procs.Keys == s.procs.Keys
            && (forall q :: q != pid && q in s.procs ==> s'.procs[q] == s.procs[q])
            && !s'.IsWriting(pid)
  {
  }

  lemma ReaderEventOk(cfg: Config, start: CatalogFile, s: Sys, pid: nat)
    requires SysOk(cfg, start, s) && s.IsReading(pid)
    ensures SysOk(cfg, start, StepReader(cfg, s, pid))
  {
    var s' := StepReader(cfg, s, pid);
    assert ProcOk(cfg, start, s, pid);
    ReaderStepKnows(cfg, start, s, pid);
    ReaderStepLocks(cfg, s, pid);
    ReaderStepFrame(cfg, s, pid);
    forall q | q in s'.procs ensures ProcOk(cfg, start, s', q) {
      if q != pid {
        assert !s.IsWriting(q);
        FrameProc(cfg, start, s, s', q);
      }
    }
    assert forall q :: s'.IsWriting(q) <==> s.IsWriting(q);
  }

  // ---------------------------------------------------------------- a kill

  /** A writer killed before its write leaves the catalog as it was; after it, as specified. */
  lemma DeadWriterReplay(cfg: Config, start: CatalogFile, s: Sys, pid: nat)
    requires s.IsWriting(pid) && ProcOk(cfg, start, s, pid)
    ensures s.disk.local == Replay(cfg, start, Die(s, pid).log)
    ensures |Die(s, pid).log| == |s.log|
    ensures Die(s, pid).log[..|s.log| - 1] == s.log[..|s.log| - 1]
  {
    var op, st := s.procs[pid].op, s.procs[pid].status;
    var prefix := s.log[..st.at];
    assert s.log == prefix + [Entry(pid, op, true)];
    ReplayAppend(cfg, start, prefix, Entry(pid, op, true));
    ReplayAppend(cfg, start, prefix, Entry(pid, op, false));
    if !st.committed {
      assert Die(s, pid).log == prefix + [Entry(pid, op, false)];
    }
  }

  lemma DieLocks(s: Sys, pid: nat)
    requires LocksOk(s) && pid in s.procs
    ensures LocksOk(Die(s, pid))
  {
    var s' := Die(s, pid);
    OthersUnchanged(s, s', pid);
    forall p, l ensures Fd(p, l) in s'.shared <==> (l == 0 && s'.IsReading(p)) || (l == 1 && s'.HoldsInner(p)) {
      assert Fd(p, l) in s.shared <==> (l == 0 && s.IsReading(p)) || (l == 1 && s.HoldsInner(p));
    }
    forall p, l ensures Fd(p, l) in s'.exclusive <==> l == 0 && s'.IsWriting(p) {
      assert Fd(p, l) in s.exclusive <==> l == 0 && s.IsWriting(p);
    }
  }

  lemma SurvivorsOk(cfg: Config, start: CatalogFile, s: Sys, pid: nat, q: nat)
    requires SysOk(cfg, start, s) && pid in s.procs && q in s.procs && q != pid && !s.IsWriting(q)
    ensures ProcOk(cfg, start, Die(s, pid), q)
  {
    var s', sq := Die(s, pid), s.procs[q].status;
    assert ProcOk(cfg, start, s, q);
    assert ProcOk(cfg, start, s, pid);
    if sq.Done? || sq.Reading? {
      if s.IsWriting(pid) {
        var at := s.procs[pid].status.at;
        DeadWriterReplay(cfg, start, s, pid);
        assert s.log[at].pid == pid && s.log[sq.at].pid == q;
        assert sq.at < at;
        assert s'.log[..sq.at + 1] == s'.log[..at][..sq.at + 1];
        assert s.log[..sq.at + 1] == s.log[..at][..sq.at + 1];
      }
      assert s'.log[..sq.at + 1] == s.log[..sq.at + 1];
    }
    FrameProc(cfg, start, s, s', q);
  }

  lemma DieOk(cfg: Config, start: CatalogFile, s: Sys, pid: nat)
    requires SysOk(cfg, start, s) && pid in s.procs && !s.procs[pid].status.Done?
    ensures SysOk(cfg, start, Die(s, pid))
  {
    var s' := Die(s, pid);
    assert ProcOk(cfg, start, s, pid);
    if s.IsWriting(pid) {
      DeadWriterReplay(cfg, start, s, pid);
    }
    DieLocks(s, pid);
    OthersUnchanged(s, s', pid);
    forall q | q in s'.procs ensures ProcOk(cfg, start, s', q) {
      if q != pid {
        if s.IsWriting(q) {
          assert !s.IsWriting(pid) && s'.log == s.log;
          assert ProcOk(cfg, start, s, q);
        } else {
          SurvivorsOk(cfg, start, s, pid, q);
        }
      }
    }
    if forall p :: !s'.IsWriting(p) {
      if !s.IsWriting(pid) {
        assert forall p :: !s.IsWriting(p);
      }
    }
  }

  // ---------------------------------------------------------------- every run

  lemma EventOk(cfg: Config, start: CatalogFile, s: Sys, e: Event)
    requires SysOk(cfg, start, s)
    ensures SysOk(cfg, start, Happens(cfg, s, e))
  {
    match e
    case Spawn(pid, op) => SpawnOk(cfg, start, s, pid, op);
    case Step(pid) =>
      if pid in s.procs {
        assert ProcOk(cfg, start, s, pid);
        match s.procs[pid].status
        case Waiting => AcquireOk(cfg, start, s, pid);
        case Writing(_, _, w) =>
          if w.Return? { ReleaseOk(cfg, start, s, pid); } else { WriterEventOk(cfg, start, s, pid); }
        case Reading(_, _) => ReaderEventOk(cfg, start, s, pid);
        case _ =>
      }
    case Kill(pid) =>
      if pid in s.procs && !s.procs[pid].status.Done? {
        DieOk(cfg, start, s, pid);
      }
  }

  lemma {:induction false} RunOk(cfg: Config, start: CatalogFile, s: Sys, events: seq<Event>)
    requires SysOk(cfg, start, s)
    ensures SysOk(cfg, start, Exec(cfg, s, events))
    decreases |events|
  {
    if events != [] {
      EventOk(cfg, start, s, events[0]);
      RunOk(cfg, start, Happens(cfg, s, events[0]), events[1..]);
    }
  }

  lemma ReachableOk(cfg: Config, s: Sys, events: seq<Event>)
    requires Init(cfg, s)
    ensures SysOk(cfg, s.disk.local, Exec(cfg, s, events))
  {
    RunOk(cfg, s.disk.local, s, events);
  }

  // ---------------------------------------------------------------- the theorems

  /**
   Serializability.  At any moment of any run, the answers already given are the answers of the
   sequential specification, run over the log in lock-acquisition order (operations killed before
   their write left out); and when nobody is writing, so is the local catalog.
   */
  lemma Serializable(cfg: Config, s0: Sys, events: seq<Event>)
    requires Init(cfg, s0)
    ensures var s, start := Exec(cfg, s0, events), s0.disk.local;
            && (forall p :: p in s.procs && s.procs[p].status.Done? ==>
                  var at := s.procs[p].status.at;
                  && at < |s.log| && s.log[at] == Entry(p, s.procs[p].op, true)
                  && s.procs[p].status.answer == SpecAnswer(cfg, s.procs[p].op, Replay(cfg, start, s.log[..at])))
            && ((forall p :: !s.IsWriting(p)) ==> s.disk.local == Replay(cfg, start, s.log))
  {
    ReachableOk(cfg, s0, events);
    var s := Exec(cfg, s0, events);
    forall p | p in s.procs && s.procs[p].status.Done? ensures ProcOk(cfg, s0.disk.local, s, p) {
    }
  }

  /** Even in the middle of a write, the catalog file is the old or the new sequential state. */
  lemma CatalogIsNeverTorn(cfg: Config, s0: Sys, events: seq<Event>)
    requires Init(cfg, s0)
    ensures var s, start := Exec(cfg, s0, events), s0.disk.local;
            || s.disk.local == Replay(cfg, start, s.log)
            || (|s.log| > 0 && s.disk.local == Replay(cfg, start, s.log[..|s.log| - 1]))
  {
    ReachableOk(cfg, s0, events);
    var s := Exec(cfg, s0, events);
    if p :| s.IsWriting(p) {
      assert ProcOk(cfg, s0.disk.local, s, p);
      var at := s.procs[p].status.at;
      assert s.log == s.log[..at] + [s.log[at]];
      ReplayAppend(cfg, s0.disk.local, s.log[..at], s.log[at]);
    }
  }

  /** The manifest a live log entry installs, if it succeeds on the state it meets. */
  ghost predicate Installs(cfg: Config, start: CatalogFile, log: seq<Entry>, k: nat, m: Manifest) {
    && k < |log| && log[k].live && log[k].op.Install?
    && Installable(cfg, log[k].op) == Ok(m)
    && UpsertFile(cfg.valid, Replay(cfg, start, log[..k]), m).1.Ok?
  }

  ghost predicate Touches(cfg: Config, e: Entry, id: string) {
    e.live && IsWriter(e.op) && Target(cfg, e.op) == Some(id)
  }

  lemma UntouchedEntryStays(cfg: Config, op: Op, local: CatalogFile, id: string)
    requires Load(cfg.valid, local).Ok?
    requires IsWriter(op) ==> Target(cfg, op) != Some(id)
    ensures Load(cfg.valid, SpecLocal(cfg, op, local)).Ok?
    ensures Lookup(Load(cfg.valid, SpecLocal(cfg, op, local)).value, id) == Lookup(Load(cfg.valid, local).value, id)
  {
    var l := Load(cfg.valid, local).value;
    LoadGood(cfg.valid, local);
    match op
    case Install(_, _, _) =>
      if Installable(cfg, op).Ok? {
        UpsertLookup(cfg, local, Installable(cfg, op).value, id);
      }
    case Remove(rid, _) =>
      if LoadMerged(cfg.valid, cfg.base, local).Ok? {
        if Has(l, rid) {
          DropGood(cfg.valid, l, rid);
          DropSpec(l, rid, id);
          SaveLoadRoundTrip(cfg.valid, Drop(l, rid));
        } else {
          var merged := LoadMerged(cfg.valid, cfg.base, local).value;
          LookupFindsItsId(merged, rid);
          if Has(merged, rid) {
            UpsertLookup(cfg, local, Lookup(merged, rid).value.(enabled := Some(false)), id);
          }
        }
      }
    case _ =>
  }

  lemma UpsertLookup(cfg: Config, local: CatalogFile, m: Manifest, id: string)
    requires Load(cfg.valid, local).Ok?
    ensures var f := UpsertFile(cfg.valid, local, m).0;
            && Load(cfg.valid, f).Ok?
            && Lookup(Load(cfg.valid, f).value, id)
               == if cfg.valid(m) && m.id != "" && m.id == id then Some(m) else Lookup(Load(cfg.valid, local).value, id)
  {
    LoadGood(cfg.valid, local);
    var l := Load(cfg.valid, local).value;
    if cfg.valid(m) && m.id != "" {
      PutGood(cfg.valid, l, m);
      PutSpec(l, m, id);
      SaveLoadRoundTrip(cfg.valid, Put(l, m));
    }
  }

  /** On a log: the entry of an install stands until a later live operation on the same id. */
  lemma {:induction false} LoggedInstallStands(cfg: Config, start: CatalogFile, log: seq<Entry>, k: nat, m: Manifest)
    requires Installs(cfg, start, log, k, m)
    requires forall j :: k < j < |log| ==> !Touches(cfg, log[j], m.id)
    ensures var end := Load(cfg.valid, Replay(cfg, start, log));
            end.Ok? && Lookup(end.value, m.id) == Some(m)
    decreases |log|
  {
    var n := |log| - 1;
    var init := log[..n];
    if k == n {
      var before := Replay(cfg, start, init);
      UpsertLookup(cfg, before, m, m.id);
    } else {
      assert init[..k] == log[..k];
      assert forall j :: 0 <= j < n ==> init[j] == log[j];
      LoggedInstallStands(cfg, start, init, k, m);
      assert !Touches(cfg, log[n], m.id);
      if log[n].live {
        UntouchedEntryStays(cfg, log[n].op, Replay(cfg, start, init), m.id);
      }
    }
  }

  /**
   No install is lost.  In every reachable state of every run, kills and half-done writes of others
   included: once an install has returned, and while no live operation that got the lock after it is
   about the same id, the local catalog on disk holds exactly the installed manifest.
   */
  lemma NoInstallIsLost(cfg: Config, s0: Sys, events: seq<Event>, p: nat)
    requires Init(cfg, s0)
    requires var s := Exec(cfg, s0, events);
             && p in s.procs && s.procs[p].status.Done? && s.procs[p].status.answer.InstalledAs?
             && forall j :: s.procs[p].status.at < j < |s.log| ==> !Touches(cfg, s.log[j], s.procs[p].status.answer.ref.id)
    ensures var s := Exec(cfg, s0, events);
            && s.procs[p].op.Install? && Installable(cfg, s.procs[p].op).Ok?
            && var m := Installable(cfg, s.procs[p].op).value;
               && s.procs[p].status.answer.ref == Ref(m.id, m.version)
               && Load(cfg.valid, s.disk.local).Ok?
               && Lookup(Load(cfg.valid, s.disk.local).value, m.id) == Some(m)
  {
    var s := Exec(cfg, s0, events);
    var op, at := s.procs[p].op, s.procs[p].status.at;
    InstalledIsLogged(cfg, s0, events, p);
    DiskLagsByTheLast(cfg, s0, events, at);
    InstallStandsOnDisk(cfg, s0.disk.local, s.log, s.disk.local, at, Installable(cfg, op).value);
  }

  lemma InstallStandsOnDisk(cfg: Config, start: CatalogFile, log: seq<Entry>, local: CatalogFile, k: nat, m: Manifest)
    requires Installs(cfg, start, log, k, m)
    requires forall j :: k < j < |log| ==> !Touches(cfg, log[j], m.id)
    requires local == Replay(cfg, start, log) || (k < |log| - 1 && local == Replay(cfg, start, log[..|log| - 1]))
    ensures Load(cfg.valid, local).Ok? && Lookup(Load(cfg.valid, local).value, m.id) == Some(m)
  {
    LoggedInstallStands(cfg, start, log, k, m);
    if local != Replay(cfg, start, log) {
      var init := log[..|log| - 1];
      assert init[..k] == log[..k];
      LoggedInstallStands(cfg, start, init, k, m);
    }
  }

  /** A returned install is in the log as one that installs its manifest. */
  lemma InstalledIsLogged(cfg: Config, s0: Sys, events: seq<Event>, p: nat)
    requires Init(cfg, s0)
    requires var s := Exec(cfg, s0, events);
             p in s.procs && s.procs[p].status.Done? && s.procs[p].status.answer.InstalledAs?
    ensures var s := Exec(cfg, s0, events);
            var op, at := s.procs[p].op, s.procs[p].status.at;
            && at < |s.log| && s.log[at].pid == p
            && op.Install? && Installable(cfg, op).Ok?
            && var m := Installable(cfg, op).value;
               s.procs[p].status.answer.ref == Ref(m.id, m.version) && Installs(cfg, s0.disk.local, s.log, at, m)
  {
    Serializable(cfg, s0, events);
    var s := Exec(cfg, s0, events);
    assert SpecAnswer(cfg, s.procs[p].op, Replay(cfg, s0.disk.local, s.log[..s.procs[p].status.at])).InstalledAs?;
  }

  /** The disk is up to date, or behind by the last entry, which is that of a process still writing. */
  lemma DiskLagsByTheLast(cfg: Config, s0: Sys, events: seq<Event>, at: nat)
    requires Init(cfg, s0)
    requires var s := Exec(cfg, s0, events);
             at < |s.log| && s.log[at].pid in s.procs && s.procs[s.log[at].pid].status.Done?
    ensures var s, start := Exec(cfg, s0, events), s0.disk.local;
            || s.disk.local == Replay(cfg, start, s.log)
            || (at < |s.log| - 1 && s.disk.local == Replay(cfg, start, s.log[..|s.log| - 1]))
  {
    ReachableOk(cfg, s0, events);
    CatalogIsNeverTorn(cfg, s0, events);
    var s := Exec(cfg, s0, events);
    if s.disk.local != Replay(cfg, s0.disk.local, s.log) {
      var w :| s.IsWriting(w);
      assert ProcOk(cfg, s0.disk.local, s, w);
      assert s.log[|s.log| - 1].pid == w;
    }
  }

  /**
   Write ordering across the two stores, kills included: whatever entry an install put into the local
   catalog, the artifact directory of that entry's own version is there.
   */
  lemma EntriesHaveArtifacts(cfg: Config, s0: Sys, events: seq<Event>, id: string)
    requires Init(cfg, s0)
    requires id in Exec(cfg, s0, events).owned
    ensures var s := Exec(cfg, s0, events);
            && Load(cfg.valid, s.disk.local).Ok?
            && var m := Lookup(Load(cfg.valid, s.disk.local).value, id);
               m.Some? && HasManifest(s.disk.fs, Ref(id, m.value.version))
  {
    ReachableOk(cfg, s0, events);
    var s := Exec(cfg, s0, events);
    assert OwnedEntryOk(s.disk.fs, Load(cfg.valid, s.disk.local).value, id);
  }

  /** The crash invariant of the artifact tree, for the locked system with kills. */
  lemma ArtifactsStayWhole(cfg: Config, s0: Sys, events: seq<Event>)
    requires Init(cfg, s0)
    ensures var fs := Exec(cfg, s0, events).disk.fs;
            && FsOk(fs)
            && Installed(fs) == set ref | ref in fs.versions && fs.versions[ref] != map[]
  {
    ReachableOk(cfg, s0, events);
    InventoryIsNonEmptyDirs(Exec(cfg, s0, events).disk.fs);
  }

  /** An exclusive holder is alone. */
  lemma MutualExclusion(cfg: Config, s0: Sys, events: seq<Event>, a: Fd, b: Fd)
    requires Init(cfg, s0)
    requires a in Exec(cfg, s0, events).exclusive
    requires b in Exec(cfg, s0, events).exclusive || b in Exec(cfg, s0, events).shared
    ensures a == b && b !in Exec(cfg, s0, events).shared
  {
    ReachableOk(cfg, s0, events);
    var s := Exec(cfg, s0, events);
    assert Fd(a.pid, a.level) in s.exclusive;
    assert Fd(b.pid, b.level) in s.exclusive || Fd(b.pid, b.level) in s.shared;
  }

  /**
   The lock is granted exactly when it may be: to a reader while nobody writes, whoever else reads, and
   to a writer while nobody reads or writes.
   */
  lemma LockGrantedExactly(cfg: Config, s0: Sys, events: seq<Event>, p: nat)
    requires Init(cfg, s0)
    requires p in Exec(cfg, s0, events).procs && Exec(cfg, s0, events).procs[p].status.Waiting?
    ensures var s := Exec(cfg, s0, events);
            var op := s.procs[p].op;
            Happens(cfg, s, Step(p)).procs[p] != s.procs[p] <==>
              && (forall q :: !s.IsWriting(q))
              && (op.Install? || op.Remove? ==> forall q :: !s.IsReading(q))
  {
    ReachableOk(cfg, s0, events);
    NobodyHolds(Exec(cfg, s0, events));
  }

  ghost predicate Unfinished(s: Sys, p: nat) {
    p in s.procs && !s.procs[p].status.Done? && !s.procs[p].status.Killed?
  }

  lemma WriterMoves(cfg: Config, s: Sys, p: nat)
    requires s.IsWriting(p) && IsWriter(s.procs[p].op)
    ensures Happens(cfg, s, Step(p)).procs[p] != s.procs[p]
  {
  }

  lemma ReaderMoves(cfg: Config, s: Sys, p: nat)
    requires s.IsReading(p) && s.exclusive == {}
    ensures Happens(cfg, s, Step(p)).procs[p] != s.procs[p]
  {
  }

  /** A `run` that holds the shared lock and waits for it a second time is never blocked. */
  lemma ReaderNeverBlocked(cfg: Config, s0: Sys, events: seq<Event>, p: nat)
    requires Init(cfg, s0)
    requires Exec(cfg, s0, events).IsReading(p)
    ensures var s := Exec(cfg, s0, events);
            Happens(cfg, s, Step(p)).procs[p] != s.procs[p]
  {
    ReachableOk(cfg, s0, events);
    var s := Exec(cfg, s0, events);
    NobodyHolds(s);
    ReaderMoves(cfg, s, p);
  }

  /** No deadlock: while some operation is unfinished, some operation can take a step. */
  lemma NoDeadlock(cfg: Config, s0: Sys, events: seq<Event>, p: nat)
    requires Init(cfg, s0)
    requires Unfinished(Exec(cfg, s0, events), p)
    ensures var s := Exec(cfg, s0, events);
            exists q :: Unfinished(s, q) && Happens(cfg, s, Step(q)).procs[q] != s.procs[q]
  {
    var s := Exec(cfg, s0, events);
    if q :| s.IsWriting(q) {
      ReachableOk(cfg, s0, events);
      assert ProcOk(cfg, s0.disk.local, s, q);
      WriterMoves(cfg, s, q);
      assert Unfinished(s, q) && Happens(cfg, s, Step(q)).procs[q] != s.procs[q];
    } else if q :| s.IsReading(q) {
      ReaderNeverBlocked(cfg, s0, events, q);
      assert Unfinished(s, q) && Happens(cfg, s, Step(q)).procs[q] != s.procs[q];
    } else {
      assert !s.IsWriting(p) && !s.IsReading(p);
      WaiterMoves(cfg, s0, events, p);
      assert Unfinished(s, p) && Happens(cfg, s, Step(p)).procs[p] != s.procs[p];
    }
  }

  /** When nobody holds the lock, whoever waits for it gets it. */
  lemma WaiterMoves(cfg: Config, s0: Sys, events: seq<Event>, p: nat)
    requires Init(cfg, s0)
    requires p in Exec(cfg, s0, events).procs && Exec(cfg, s0, events).procs[p].status.Waiting?
    requires forall q :: !Exec(cfg, s0, events).IsWriting(q) && !Exec(cfg, s0, events).IsReading(q)
    ensures var s := Exec(cfg, s0, events);
            Happens(cfg, s, Step(p)).procs[p] != s.procs[p]
  {
    ReachableOk(cfg, s0, events);
    NobodyHolds(Exec(cfg, s0, events));
  }
}
