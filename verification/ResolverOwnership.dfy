/**
 The artifact of a returned install.  `owned` records which local entries installs have put there; here
 that record is tied to the log, so that the write ordering of the two stores can be stated without it.
 */
module ResolverOwnership {
  import opened Wrappers
  import opened Manifests
  import opened Catalog
  import opened Artifacts
  import opened ResolverSystem
  import opened ResolverTheorems

  /** Entry `j` is that of a writer that has not written the catalog yet. */
  ghost predicate Pending(s: Sys, j: nat) {
    exists q :: s.IsWriting(q) && !s.procs[q].status.committed && s.procs[q].status.at == j
  }

  /** Since entry `at`, no operation about `id` has written. */
  ghost predicate Undisturbed(cfg: Config, s: Sys, at: nat, id: string) {
    forall j :: at < j < |s.log| && Touches(cfg, s.log[j], id) ==> Pending(s, j)
  }

  ghost predicate Installed(s: Sys, p: nat) {
    p in s.procs && s.procs[p].status.Done? && s.procs[p].status.answer.InstalledAs?
  }

  ghost predicate Returning(s: Sys, p: nat) {
    s.IsWriting(p) && s.procs[p].status.w.Return? && s.procs[p].status.w.a.InstalledAs?
  }

  ghost predicate OwnedTracks(cfg: Config, s: Sys) {
    && (forall p :: Installed(s, p) && Undisturbed(cfg, s, s.procs[p].status.at, s.procs[p].status.answer.ref.id)
                    ==> s.procs[p].status.answer.ref.id in s.owned)
    && (forall p :: Returning(s, p) ==> s.procs[p].status.w.a.ref.id in s.owned)
  }

  /** Whoever is undisturbed after an event was so before it. */
  lemma UndisturbedBefore(cfg: Config, s: Sys, s': Sys, at: nat, id: string)
    requires Undisturbed(cfg, s', at, id) && |s.log| <= |s'.log|
    requires forall j :: 0 <= j < |s.log| ==> s'.log[j] == s.log[j] || Pending(s, j)
    requires forall j :: 0 <= j < |s.log| && Pending(s', j) ==> Pending(s, j)
    ensures Undisturbed(cfg, s, at, id)
  {
    forall j | at < j < |s.log| && Touches(cfg, s.log[j], id) ensures Pending(s, j) {
      assert s'.log[j] == s.log[j] ==> Touches(cfg, s'.log[j], id);
    }
  }

  /** An event that writes no catalog and lets nobody return from an install. */
  lemma OwnedTracksFrame(cfg: Config, s: Sys, s': Sys)
    requires OwnedTracks(cfg, s) && s'.owned == s.owned && |s.log| <= |s'.log|
    requires forall j :: 0 <= j < |s.log| ==> s'.log[j] == s.log[j] || Pending(s, j)
    requires forall j :: 0 <= j < |s.log| && Pending(s', j) ==> Pending(s, j)
    requires forall p :: Installed(s', p) ==> Installed(s, p) && s'.procs[p] == s.procs[p]
    requires forall p :: Returning(s', p) ==> Returning(s, p) && s'.procs[p] == s.procs[p]
    ensures OwnedTracks(cfg, s')
  {
    forall p | Installed(s', p) && Undisturbed(cfg, s', s'.procs[p].status.at, s'.procs[p].status.answer.ref.id)
      ensures s'.procs[p].status.answer.ref.id in s'.owned
    {
      UndisturbedBefore(cfg, s, s', s.procs[p].status.at, s.procs[p].status.answer.ref.id);
    }
  }

  lemma SpawnTracks(cfg: Config, s: Sys, pid: nat, op: Op)
    requires OwnedTracks(cfg, s)
    ensures OwnedTracks(cfg, Happens(cfg, s, Spawn(pid, op)))
  {
    var s' := Happens(cfg, s, Spawn(pid, op));
    assert forall q :: s'.IsWriting(q) ==> s.IsWriting(q) && s'.procs[q] == s.procs[q];
    OwnedTracksFrame(cfg, s, s');
  }

  lemma AcquireTracks(cfg: Config, s: Sys, pid: nat)
    requires LocksOk(s) && OwnedTracks(cfg, s) && pid in s.procs && s.procs[pid].status.Waiting?
    ensures OwnedTracks(cfg, Acquire(s, pid))
  {
    var s' := Acquire(s, pid);
    if s' != s {
      NobodyHolds(s);
      AcquireKeepsLocks(s, pid);
      assert forall q :: s'.IsWriting(q) ==> q == pid && s'.procs[q].status.at == |s.log|;
      OwnedTracksFrame(cfg, s, s');
    }
  }

  /** Only the rename of the catalog file lets a writer return as having installed. */
  ghost predicate SwapInstalls(cfg: Config, d: Disk, op: Op, pid: nat, w: WriterPc)
    requires IsWriter(op)
  {
    var w' := WriterStep(cfg, d, op, pid, w).1;
    w'.Return? && w'.a.InstalledAs? ==> w.Swap? && op.Install? && Target(cfg, op) == Some(w'.a.ref.id)
  }

  lemma OnlySwapInstalls(cfg: Config, d: Disk, before: CatalogFile, op: Op, pid: nat, committed: bool, w: WriterPc)
    requires IsWriter(op) && WriterOk(cfg, d, before, op, pid, committed, w) && !w.Return?
    ensures SwapInstalls(cfg, d, op, pid, w)
  {
  }

  lemma WriterFacts(cfg: Config, start: CatalogFile, s: Sys, pid: nat)
    requires SysOk(cfg, start, s) && s.IsWriting(pid)
    ensures var op, st := s.procs[pid].op, s.procs[pid].status;
            && LocksOk(s) && IsWriter(op) && LoggedAs(s, pid, st.at) && st.at + 1 == |s.log|
            && (!st.w.Return? ==> SwapInstalls(cfg, s.disk, op, pid, st.w))
  {
    var op, st := s.procs[pid].op, s.procs[pid].status;
    assert ProcOk(cfg, start, s, pid);
    if !st.w.Return? {
      OnlySwapInstalls(cfg, s.disk, Replay(cfg, start, s.log[..st.at]), op, pid, st.committed, st.w);
    }
  }

  lemma InstalledFacts(cfg: Config, start: CatalogFile, s: Sys)
    requires SysOk(cfg, start, s)
    ensures forall p :: Installed(s, p) ==> LoggedAs(s, p, s.procs[p].status.at)
  {
    forall p | Installed(s, p) ensures LoggedAs(s, p, s.procs[p].status.at) {
      assert ProcOk(cfg, start, s, p);
    }
  }

  lemma WriterTracks(cfg: Config, s: Sys, pid: nat)
    requires LocksOk(s) && OwnedTracks(cfg, s) && s.IsWriting(pid) && !s.procs[pid].status.w.Return?
    requires var op, st := s.procs[pid].op, s.procs[pid].status;
             && IsWriter(op) && LoggedAs(s, pid, st.at) && st.at + 1 == |s.log|
             && SwapInstalls(cfg, s.disk, op, pid, st.w)
    requires forall p :: Installed(s, p) ==> LoggedAs(s, p, s.procs[p].status.at)
    ensures OwnedTracks(cfg, StepWriter(cfg, s, pid))
  {
    var s' := StepWriter(cfg, s, pid);
    OnlyWriter(cfg, s, pid);
    forall p | Installed(s', p) && Undisturbed(cfg, s', s'.procs[p].status.at, s'.procs[p].status.answer.ref.id)
      ensures s'.procs[p].status.answer.ref.id in s'.owned
    {
      assert Installed(s, p);
      StepDisturbs(cfg, s, pid, s.procs[p].status.at, s.procs[p].status.answer.ref.id);
    }
  }

  lemma OnlyWriter(cfg: Config, s: Sys, pid: nat)
    requires LocksOk(s) && s.IsWriting(pid) && !s.procs[pid].status.w.Return? && IsWriter(s.procs[pid].op)
    ensures var s' := StepWriter(cfg, s, pid);
            && s'.log == s.log && s'.IsWriting(pid) && (forall q :: s'.IsWriting(q) ==> q == pid)
            && (forall q :: q != pid && q in s'.procs ==> q in s.procs && s'.procs[q] == s.procs[q])
            && s'.procs[pid].status.at == s.procs[pid].status.at
            && s'.procs[pid].status.committed == (s.procs[pid].status.committed || s.procs[pid].status.w.Swap?)
  {
    var s' := StepWriter(cfg, s, pid);
    assert forall q :: s'.IsWriting(q) ==> s.IsWriting(q);
  }

  /** What is undisturbed after a writer's step was so before, and the step did not write about it. */
  lemma StepDisturbs(cfg: Config, s: Sys, pid: nat, at: nat, id: string)
    requires LocksOk(s) && s.IsWriting(pid) && !s.procs[pid].status.w.Return? && IsWriter(s.procs[pid].op)
    requires LoggedAs(s, pid, s.procs[pid].status.at) && at < s.procs[pid].status.at
    requires Undisturbed(cfg, StepWriter(cfg, s, pid), at, id)
    ensures Undisturbed(cfg, s, at, id)
    ensures s.procs[pid].status.w.Swap? ==> Target(cfg, s.procs[pid].op) != Some(id)
  {
    var s', j := StepWriter(cfg, s, pid), s.procs[pid].status.at;
    OnlyWriter(cfg, s, pid);
    forall i | 0 <= i < |s.log| && Pending(s', i) ensures Pending(s, i) {
      assert !s.procs[pid].status.committed && j == i;
    }
    UndisturbedBefore(cfg, s, s', at, id);
    assert Touches(cfg, s'.log[j], id) <==> Target(cfg, s.procs[pid].op) == Some(id);
    assert s.procs[pid].status.w.Swap? ==> !Pending(s', j);
  }

  lemma ReleaseTracks(cfg: Config, s: Sys, pid: nat)
    requires LocksOk(s) && OwnedTracks(cfg, s)
    requires s.IsWriting(pid) && s.procs[pid].status.w.Return? && IsWriter(s.procs[pid].op)
    ensures OwnedTracks(cfg, StepWriter(cfg, s, pid))
  {
    var s' := StepWriter(cfg, s, pid);
    ReleaseLocks(cfg, s, pid);
    forall p | Installed(s', p) && Undisturbed(cfg, s', s'.procs[p].status.at, s'.procs[p].status.answer.ref.id)
      ensures s'.procs[p].status.answer.ref.id in s'.owned
    {
      if p != pid {
        assert Installed(s, p);
        UndisturbedBefore(cfg, s, s', s.procs[p].status.at, s.procs[p].status.answer.ref.id);
      } else {
        assert Returning(s, p);
      }
    }
  }

  lemma ReplyIsNoInstall(cfg: Config, start: CatalogFile, s: Sys, pid: nat)
    requires s.IsReading(pid) && ReaderOk(cfg, start, s, pid)
    ensures s.procs[pid].status.r.Reply? ==> !s.procs[pid].status.r.a.InstalledAs?
  {
  }

  lemma ReaderTracks(cfg: Config, s: Sys, pid: nat)
    requires OwnedTracks(cfg, s) && s.IsReading(pid)
    requires s.procs[pid].status.r.Reply? ==> !s.procs[pid].status.r.a.InstalledAs?
    ensures OwnedTracks(cfg, StepReader(cfg, s, pid))
  {
    var s' := StepReader(cfg, s, pid);
    ReaderStepFrame(cfg, s, pid);
    assert !Installed(s', pid);
    assert forall q :: s'.IsWriting(q) ==> s.IsWriting(q) && s'.procs[q] == s.procs[q];
    OwnedTracksFrame(cfg, s, s');
  }

  lemma DieTracks(cfg: Config, s: Sys, pid: nat)
    requires OwnedTracks(cfg, s) && pid in s.procs && !s.procs[pid].status.Done?
    ensures OwnedTracks(cfg, Die(s, pid))
  {
    var s' := Die(s, pid);
    assert forall q :: s'.IsWriting(q) ==> s.IsWriting(q) && s'.procs[q] == s.procs[q];
    forall j | 0 <= j < |s.log| && s'.log[j] != s.log[j] ensures Pending(s, j) {
      assert s.IsWriting(pid) && !s.procs[pid].status.committed && s.procs[pid].status.at == j;
    }
    OwnedTracksFrame(cfg, s, s');
  }

  lemma EventTracks(cfg: Config, start: CatalogFile, s: Sys, e: Event)
    requires SysOk(cfg, start, s) && OwnedTracks(cfg, s)
    ensures OwnedTracks(cfg, Happens(cfg, s, e))
  {
    match e
    case Spawn(pid, op) => SpawnTracks(cfg, s, pid, op);
    case Step(pid) =>
      if pid in s.procs {
        match s.procs[pid].status
        case Waiting => AcquireTracks(cfg, s, pid);
        case Writing(_, _, w) =>
          WriterFacts(cfg, start, s, pid);
          InstalledFacts(cfg, start, s);
          if w.Return? {
            ReleaseTracks(cfg, s, pid);
          } else {
            WriterTracks(cfg, s, pid);
          }
        case Reading(_, _) =>
          assert ProcOk(cfg, start, s, pid);
          ReplyIsNoInstall(cfg, start, s, pid);
          ReaderTracks(cfg, s, pid);
        case _ =>
      }
    case Kill(pid) =>
      if pid in s.procs && !s.procs[pid].status.Done? {
        DieTracks(cfg, s, pid);
      }
  }

  lemma {:induction false} RunTracks(cfg: Config, start: CatalogFile, s: Sys, events: seq<Event>)
    requires SysOk(cfg, start, s) && OwnedTracks(cfg, s)
    ensures OwnedTracks(cfg, Exec(cfg, s, events))
    decreases |events|
  {
    if events != [] {
      EventOk(cfg, start, s, events[0]);
      EventTracks(cfg, start, s, events[0]);
      RunTracks(cfg, start, Happens(cfg, s, events[0]), events[1..]);
    }
  }

  /**
   The artifact of an install that has returned is there in every reachable state of every run, kills and
   half-done writes of others included, while no live operation that got the lock after it is about its id.
   */
  lemma InstalledArtifactStands(cfg: Config, s0: Sys, events: seq<Event>, p: nat)
    requires Init(cfg, s0)
    requires var s := Exec(cfg, s0, events);
             && p in s.procs && s.procs[p].status.Done? && s.procs[p].status.answer.InstalledAs?
             && forall j :: s.procs[p].status.at < j < |s.log| ==> !Touches(cfg, s.log[j], s.procs[p].status.answer.ref.id)
    ensures var s := Exec(cfg, s0, events);
            HasManifest(s.disk.fs, s.procs[p].status.answer.ref)
  {
    ReachableOk(cfg, s0, events);
    RunTracks(cfg, s0.disk.local, s0, events);
    NoInstallIsLost(cfg, s0, events, p);
    var s := Exec(cfg, s0, events);
    var id := s.procs[p].status.answer.ref.id;
    assert Installed(s, p) && Undisturbed(cfg, s, s.procs[p].status.at, id);
    assert OwnedEntryOk(s.disk.fs, Load(cfg.valid, s.disk.local).value, id);
  }
}
