/**
 Installers and removals of the artifact tree without any lock, interleaved one file operation at a
 time by an arbitrary schedule.

 - With no removal, any number of installers race safely: at most one reports an update, its files
   stand together and never change, and whoever finishes does so with the manifest in place.
 - With removals, the crash invariant needs one thing only: a removal that has been overtaken by
   another whose path overlaps its own takes no further step.  Removals of different versions
   interleave freely.  `SafeExactlyWithoutOverlap` shows that this is exact: any two removals whose
   paths overlap have a schedule that breaks the invariant.
 */
module InstallRace {
  import opened Wrappers
  import opened Text
  import opened Manifests
  import opened Artifacts

  datatype Race = Race(fs: Fs, installers: seq<InstallProc>, removals: seq<RemoveProc>)

  datatype Event = Install(i: nat) | Remove(j: nat)

  ghost function Next(s: Race, e: Event): Race {
    match e
    case Install(i) =>
      if i < |s.installers| then
        var (fs', p') := InstallStep(s.fs, s.installers[i]);
        s.(fs := fs', installers := s.installers[i := p'])
      else s
    case Remove(j) =>
      if j < |s.removals| then
        var (fs', p') := RemoveStep(s.fs, s.removals[j]);
        s.(fs := fs', removals := s.removals[j := p'])
      else s
  }

  ghost function Exec(s: Race, events: seq<Event>): Race
    decreases |events|
  {
    if events == [] then s else Exec(Next(s, events[0]), events[1..])
  }

  lemma {:induction false} ExecAppend(s: Race, e1: seq<Event>, e2: seq<Event>)
    ensures Exec(s, e1 + e2) == Exec(Exec(s, e1), e2)
    decreases |e1|
  {
    if e1 == [] {
      assert e1 + e2 == e2;
    } else {
      assert (e1 + e2)[1..] == e1[1..] + e2;
      ExecAppend(Next(s, e1[0]), e1[1..], e2);
    }
  }

  /** Everyone at the start, with tokens of their own that nothing uses yet. */
  ghost predicate Init(s: Race) {
    && FsOk(s.fs)
    && (forall i :: 0 <= i < |s.installers| ==> s.installers[i].pc == Check && s.installers[i].token !in s.fs.staging)
    && (forall i, j :: 0 <= i < j < |s.installers| ==> s.installers[i].token != s.installers[j].token)
    && (forall j :: 0 <= j < |s.removals| ==> s.removals[j].pc == Probe)
  }

  ghost predicate InstallersOk(s: Race) {
    && (forall i :: 0 <= i < |s.installers| ==> StageOk(s.fs, s.installers[i]))
    && (forall i, j :: 0 <= i < j < |s.installers| ==> s.installers[i].token != s.installers[j].token)
  }

  lemma StageOkFrame(fs: Fs, fs': Fs, p: InstallProc)
    requires StageOk(fs, p)
    requires p.token in fs'.staging <==> p.token in fs.staging
    requires p.token in fs.staging ==> fs'.staging[p.token] == fs.staging[p.token]
    ensures StageOk(fs', p)
  {
  }

  lemma InstallEventKeeps(s: Race, i: nat)
    requires FsOk(s.fs) && InstallersOk(s) && i < |s.installers|
    ensures FsOk(Next(s, Install(i)).fs) && InstallersOk(Next(s, Install(i)))
  {
    var p := s.installers[i];
    var s' := Next(s, Install(i));
    InstallStepEffect(s.fs, p);
    forall k | 0 <= k < |s'.installers| ensures StageOk(s'.fs, s'.installers[k]) {
      if k != i {
        assert s.installers[k].token != p.token by {
          if k < i { assert s.installers[k].token != s.installers[i].token; }
        }
        StageOkFrame(s.fs, s'.fs, s.installers[k]);
      }
    }
  }

  // ---------------------------------------------------------------- no removals: exactly one winner

  ghost predicate Promoted(p: InstallProc) {
    p.pc == SyncParent || p.pc == CleanUp(Updated) || p.pc == Finished(Updated)
  }

  ghost predicate InstallsOnly(events: seq<Event>) {
    forall e :: e in events ==> e.Install?
  }

  /** What holds while nobody removes; `fs0` is the tree at the start. */
  ghost predicate RaceOk(fs0: Fs, s: Race) {
    && FsOk(s.fs) && InstallersOk(s) && s.fs.blocked == fs0.blocked
    && (forall i, j :: 0 <= i < j < |s.installers| && s.installers[i].RefOf() == s.installers[j].RefOf()
                       ==> !(Promoted(s.installers[i]) && Promoted(s.installers[j])))
    && (forall i :: 0 <= i < |s.installers| ==> InstallerOk(fs0, s.fs, s.installers[i]))
    && (forall ref :: HasManifest(fs0, ref) ==> HasManifest(s.fs, ref))
    && (forall ref :: HasManifest(s.fs, ref) && !HasManifest(fs0, ref) ==> SomeoneWon(s, ref))
  }

  ghost predicate SomeoneWon(s: Race, ref: Ref) {
    exists i :: 0 <= i < |s.installers| && s.installers[i].RefOf() == ref && Promoted(s.installers[i])
  }

  ghost predicate InstallerOk(fs0: Fs, fs: Fs, p: InstallProc) {
    && (Promoted(p) ==> p.RefOf() in fs.versions && fs.versions[p.RefOf()] == p.Complete() && !HasManifest(fs0, p.RefOf()))
    && (p.pc == Promote || Promoted(p) ==> p.m.id in fs.idDirs)
    && (p.pc in {CleanUp(AlreadyThere), Finished(AlreadyThere)} ==> HasManifest(fs, p.RefOf()))
    && (p.pc in {CleanUp(Failed), Finished(Failed)} ==> p.m.id in fs0.blocked)
  }

  lemma StepKeepsOwn(fs0: Fs, fs: Fs, p: InstallProc)
    requires FsOk(fs) && StageOk(fs, p) && fs.blocked == fs0.blocked && InstallerOk(fs0, fs, p)
    requires HasManifest(fs0, p.RefOf()) ==> HasManifest(fs, p.RefOf())
    ensures InstallerOk(fs0, InstallStep(fs, p).0, InstallStep(fs, p).1)
    ensures Promoted(p) ==> Promoted(InstallStep(fs, p).1)
    ensures Promoted(InstallStep(fs, p).1) ==> Promoted(p) || (p.pc == Promote && !NonEmpty(fs, p.RefOf()))
  {
    InstallStepEffect(fs, p);
    if NonEmpty(fs, p.RefOf()) {
      WholeNonEmpty(p.RefOf(), fs.versions[p.RefOf()]);
    }
  }

  lemma StepKeepsOthers(fs0: Fs, fs: Fs, p: InstallProc, q: InstallProc)
    requires FsOk(fs) && StageOk(fs, p) && InstallerOk(fs0, fs, q)
    ensures InstallerOk(fs0, InstallStep(fs, p).0, q)
  {
    InstallStepEffect(fs, p);
    assert MANIFEST in p.Complete();
    if NonEmpty(fs, q.RefOf()) {
      WholeNonEmpty(q.RefOf(), fs.versions[q.RefOf()]);
    }
    if Promoted(q) {
      assert MANIFEST in q.Complete();
      assert NonEmpty(fs, q.RefOf());
    }
  }

  lemma StepKeepsManifests(fs: Fs, p: InstallProc, ref: Ref)
    requires FsOk(fs) && StageOk(fs, p)
    ensures HasManifest(fs, ref) ==> HasManifest(InstallStep(fs, p).0, ref)
    ensures HasManifest(InstallStep(fs, p).0, ref) && !HasManifest(fs, ref)
            ==> ref == p.RefOf() && p.pc == Promote && Promoted(InstallStep(fs, p).1)
  {
    InstallStepEffect(fs, p);
    assert MANIFEST in p.Complete();
  }

  lemma InstallKeepsUniqueness(fs0: Fs, s: Race, i: nat)
    requires RaceOk(fs0, s) && i < |s.installers|
    ensures var s' := Next(s, Install(i));
            forall a, b :: 0 <= a < b < |s'.installers| && s'.installers[a].RefOf() == s'.installers[b].RefOf()
                       ==> !(Promoted(s'.installers[a]) && Promoted(s'.installers[b]))
  {
    var p := s.installers[i];
    var p' := Next(s, Install(i)).installers[i];
    InstallStepEffect(s.fs, p);
    assert InstallerOk(fs0, s.fs, p);
    StepKeepsOwn(fs0, s.fs, p);
    forall k | 0 <= k < |s.installers| && k != i && s.installers[k].RefOf() == p.RefOf() && Promoted(s.installers[k])
      ensures !Promoted(p')
    {
      assert InstallerOk(fs0, s.fs, s.installers[k]);
      assert MANIFEST in s.installers[k].Complete();
      assert NonEmpty(s.fs, p.RefOf());
      assert !Promoted(p);
    }
  }

  lemma InstallKeepsRaceOk(fs0: Fs, s: Race, i: nat)
    requires RaceOk(fs0, s) && i < |s.installers|
    ensures RaceOk(fs0, Next(s, Install(i)))
    ensures forall k :: 0 <= k < |s.installers| ==>
              && Next(s, Install(i)).installers[k].RefOf() == s.installers[k].RefOf()
              && Next(s, Install(i)).installers[k].Complete() == s.installers[k].Complete()
              && (Promoted(s.installers[k]) ==> Promoted(Next(s, Install(i)).installers[k]))
  {
    var p := s.installers[i];
    var s' := Next(s, Install(i));
    InstallEventKeeps(s, i);
    InstallStepEffect(s.fs, p);
    assert InstallerOk(fs0, s.fs, p);
    StepKeepsOwn(fs0, s.fs, p);
    InstallKeepsUniqueness(fs0, s, i);
    forall k | 0 <= k < |s'.installers| ensures InstallerOk(fs0, s'.fs, s'.installers[k]) {
      if k != i {
        StepKeepsOthers(fs0, s.fs, p, s.installers[k]);
      }
    }
    forall ref | HasManifest(fs0, ref) ensures HasManifest(s'.fs, ref) {
      StepKeepsManifests(s.fs, p, ref);
    }
    forall ref | HasManifest(s'.fs, ref) && !HasManifest(fs0, ref) ensures SomeoneWon(s', ref) {
      StepKeepsManifests(s.fs, p, ref);
      var k :| 0 <= k < |s.installers| && (if HasManifest(s.fs, ref)
               then s.installers[k].RefOf() == ref && Promoted(s.installers[k]) else k == i);
      assert s'.installers[k].RefOf() == ref && Promoted(s'.installers[k]);
    }
  }

  lemma {:induction false} RaceKeepsOk(fs0: Fs, s: Race, events: seq<Event>)
    requires RaceOk(fs0, s) && InstallsOnly(events)
    ensures RaceOk(fs0, Exec(s, events))
    ensures |Exec(s, events).installers| == |s.installers|
    ensures forall k :: 0 <= k < |s.installers| ==>
              && Exec(s, events).installers[k].RefOf() == s.installers[k].RefOf()
              && Exec(s, events).installers[k].Complete() == s.installers[k].Complete()
              && (Promoted(s.installers[k]) ==> Promoted(Exec(s, events).installers[k]))
    decreases |events|
  {
    if events != [] {
      var e := events[0];
      assert e in events;
      if e.i < |s.installers| {
        InstallKeepsRaceOk(fs0, s, e.i);
      }
      RaceKeepsOk(fs0, Next(s, e), events[1..]);
    }
  }

  lemma InitIsRaceOk(s: Race)
    requires Init(s)
    ensures RaceOk(s.fs, s)
  {
  }

  /**
   Exactly one winner.  Whatever the schedule: no two installers of one ref both report an update;
   the winner's manifest and meta stand together in the final directory; every installer that
   returns does so with the manifest in place; and once one has returned for a ref that was not
   installed before, somebody has won it.
   */
  lemma ExactlyOneWinner(s: Race, events: seq<Event>)
    requires Init(s) && InstallsOnly(events)
    ensures var s' := Exec(s, events);
            && FsOk(s'.fs)
            && (forall i, j :: 0 <= i < j < |s'.installers| && s'.installers[i].RefOf() == s'.installers[j].RefOf()
                  ==> !(s'.installers[i].pc == Finished(Updated) && s'.installers[j].pc == Finished(Updated)))
            && (forall i :: 0 <= i < |s'.installers| && s'.installers[i].pc == Finished(Updated)
                  ==> && s'.installers[i].RefOf() in s'.fs.versions
                      && s'.fs.versions[s'.installers[i].RefOf()] == s'.installers[i].Complete()
                      && !HasManifest(s.fs, s'.installers[i].RefOf()))
            && (forall i :: 0 <= i < |s'.installers| && s'.installers[i].pc.Finished? ==>
                  if s'.installers[i].pc.outcome == Failed then s'.installers[i].m.id in s.fs.blocked
                  else && HasManifest(s'.fs, s'.installers[i].RefOf())
                       && (HasManifest(s.fs, s'.installers[i].RefOf()) || SomeoneWon(s', s'.installers[i].RefOf())))
  {
    InitIsRaceOk(s);
    RaceKeepsOk(s.fs, s, events);
    var s' := Exec(s, events);
    forall i | 0 <= i < |s'.installers| ensures InstallerOk(s.fs, s'.fs, s'.installers[i]) {
    }
  }

  /** A promoted directory never changes afterwards. */
  lemma WinnerStands(s: Race, events: seq<Event>, later: seq<Event>, i: nat)
    requires Init(s) && InstallsOnly(events) && InstallsOnly(later)
    requires i < |Exec(s, events).installers| && Promoted(Exec(s, events).installers[i])
    ensures var ref, end := Exec(s, events).installers[i].RefOf(), Exec(s, events + later);
            && ref in Exec(s, events).fs.versions && ref in end.fs.versions
            && end.fs.versions[ref] == Exec(s, events).fs.versions[ref]
            && i < |end.installers| && Promoted(end.installers[i])
  {
    InitIsRaceOk(s);
    RaceKeepsOk(s.fs, s, events);
    var mid := Exec(s, events);
    RaceKeepsOk(s.fs, mid, later);
    ExecAppend(s, events, later);
    assert InstallerOk(s.fs, mid.fs, mid.installers[i]);
    assert InstallerOk(s.fs, Exec(mid, later).fs, Exec(mid, later).installers[i]);
  }

  // ---------------------------------------------------------------- with removals: the crash invariant

  /** The paths of two removals have a version in common. */
  predicate Overlap(a: Ref, b: Ref) {
    a.id == b.id && (a.version == b.version || a.version == "." || b.version == ".")
  }

  ghost predicate Rivals(s: Race, j: nat, k: nat) {
    j < |s.removals| && k < |s.removals| && j != k && Overlap(s.removals[j].ref, s.removals[k].ref)
  }

  /** Once a removal has been overtaken by a rival, it takes no further step. */
  ghost predicate OvertakenStop(s: Race, events: seq<Event>) {
    forall a, b, c ::
      (0 <= a < b < c < |events| && events[a].Remove? && events[b].Remove? && events[c].Remove?) ==>
      (events[a].j == events[c].j ==> !Rivals(s, events[a].j, events[b].j))
  }

  /** The same for removals that have begun already. */
  ghost predicate BegunStop(s: Race, events: seq<Event>) {
    forall k: nat, b, c ::
      (0 <= b < c < |events| && events[b].Remove? && events[c].Remove? && k == events[c].j) ==>
      (Rivals(s, k, events[b].j) ==> s.removals[k].pc == Probe)
  }

  /** `past` are the removals that take no further step; the others know what they have to delete. */
  ghost predicate RemovalsOk(s: Race, past: set<nat>) {
    forall j: nat :: j < |s.removals| && j !in past ==> UnlinkOk(s.fs, s.removals[j])
  }

  lemma InstallKeepsUnlinkOk(fs: Fs, p: InstallProc, r: RemoveProc)
    requires FsOk(fs) && StageOk(fs, p) && UnlinkOk(fs, r)
    ensures UnlinkOk(InstallStep(fs, p).0, r)
  {
    InstallStepEffect(fs, p);
    if r.pc.Unlink? {
      var fs' := InstallStep(fs, p).0;
      forall ref | NamesLeft(r.pc.todo, ref) != [] ensures LeftOk(fs', ref, NamesLeft(r.pc.todo, ref)) {
        assert LeftOk(fs, ref, NamesLeft(r.pc.todo, ref));
        assert NamesLeft(r.pc.todo, ref)[0] in fs.versions[ref];
      }
    }
  }

  /** The removals that have begun and whose path overlaps that of `j`. */
  ghost function Overtaken(s: Race, j: nat): set<nat> {
    set k: nat | k < |s.removals| && Rivals(s, k, j) && s.removals[k].pc != Probe
  }

  lemma RemoveEventKeeps(s: Race, j: nat, past: set<nat>)
    requires FsOk(s.fs) && InstallersOk(s) && RemovalsOk(s, past) && j < |s.removals| && j !in past
    ensures var s' := Next(s, Remove(j));
            FsOk(s'.fs) && InstallersOk(s') && RemovalsOk(s', past + Overtaken(s, j))
  {
    var s' := Next(s, Remove(j));
    RemoveStepEffect(s.fs, s.removals[j]);
    forall i | 0 <= i < |s.installers| ensures StageOk(s'.fs, s'.installers[i]) {
      StageOkFrame(s.fs, s'.fs, s.installers[i]);
    }
    forall k: nat | k < |s.removals| && k !in past + Overtaken(s, j) ensures UnlinkOk(s'.fs, s'.removals[k]) {
      if k != j && s.removals[k].pc != Probe {
        RivalFrame(s.fs, s'.fs, s.removals[j].ref, s.removals[k]);
      }
    }
  }

  /** A removal is not concerned by what happens outside its path. */
  lemma RivalFrame(fs: Fs, fs': Fs, other: Ref, r: RemoveProc)
    requires UnlinkOk(fs, r) && !Overlap(r.ref, other)
    requires forall ref :: !Covers(other, ref) && ref in fs.versions ==> ref in fs'.versions && fs'.versions[ref] == fs.versions[ref]
    ensures UnlinkOk(fs', r)
  {
    if r.pc.Unlink? {
      forall ref | NamesLeft(r.pc.todo, ref) != [] ensures LeftOk(fs', ref, NamesLeft(r.pc.todo, ref)) {
        assert LeftOk(fs, ref, NamesLeft(r.pc.todo, ref));
        NamesAreCovered(r.pc.todo, r.ref, ref);
      }
    }
  }

  lemma {:induction false} NamesAreCovered(todo: seq<WalkItem>, target: Ref, ref: Ref)
    requires forall item :: item in todo ==> Covers(target, item.ref)
    ensures NamesLeft(todo, ref) != [] ==> Covers(target, ref)
  {
    if todo != [] {
      NamesAreCovered(todo[1..], target, ref);
    }
  }

  lemma {:induction false} CrashInvariantFrom(s: Race, events: seq<Event>, past: set<nat>)
    requires FsOk(s.fs) && InstallersOk(s) && RemovalsOk(s, past)
    requires forall e :: e in events && e.Remove? ==> e.j !in past
    requires OvertakenStop(s, events) && BegunStop(s, events)
    ensures FsOk(Exec(s, events).fs)
    decreases |events|
  {
    if events != [] {
      var e, rest := events[0], events[1..];
      var s' := Next(s, e);
      assert e in events;
      RestOfSchedule(s, events, past);
      match e {
        case Install(i) =>
          if i < |s.installers| {
            InstallEventKeeps(s, i);
            forall j: nat | j < |s.removals| && j !in past ensures UnlinkOk(s'.fs, s'.removals[j]) {
              InstallKeepsUnlinkOk(s.fs, s.installers[i], s.removals[j]);
            }
          }
          CrashInvariantFrom(s', rest, past);
        case Remove(j) =>
          if j < |s.removals| {
            RemoveEventKeeps(s, j, past);
            CrashInvariantFrom(s', rest, past + Overtaken(s, j));
          } else {
            CrashInvariantFrom(s', rest, past);
          }
      }
    }
  }

  /** What the schedule still promises after its first event. */
  lemma RestOfSchedule(s: Race, events: seq<Event>, past: set<nat>)
    requires events != []
    requires forall e :: e in events && e.Remove? ==> e.j !in past
    requires OvertakenStop(s, events) && BegunStop(s, events)
    ensures OvertakenStop(Next(s, events[0]), events[1..]) && BegunStop(Next(s, events[0]), events[1..])
    ensures var past' := past + (if events[0].Remove? then Overtaken(s, events[0].j) else {});
            forall e :: e in events[1..] && e.Remove? ==> e.j !in past'
  {
    var e, rest := events[0], events[1..];
    var s' := Next(s, e);
    StepKeepsRivals(s, e);
    assert forall x :: 0 <= x < |rest| ==> rest[x] == events[x + 1];
    forall a, b, c | 0 <= a < b < c < |rest| && rest[a].Remove? && rest[b].Remove? && rest[c].Remove? && rest[a].j == rest[c].j
      ensures !Rivals(s', rest[a].j, rest[b].j)
    {
      assert events[a + 1].j == events[c + 1].j && !Rivals(s, events[a + 1].j, events[b + 1].j);
    }
    forall k: nat, b, c | 0 <= b < c < |rest| && rest[b].Remove? && rest[c].Remove? && k == rest[c].j && Rivals(s', k, rest[b].j)
      ensures s'.removals[k].pc == Probe
    {
      assert events[b + 1].Remove? && events[c + 1].Remove? && Rivals(s, k, events[b + 1].j);
      assert s.removals[k].pc == Probe;
    }
    forall x | x in rest && x.Remove?
      ensures x.j !in past && (e.Remove? ==> x.j !in Overtaken(s, e.j))
    {
      var n :| 0 <= n < |rest| && rest[n] == x;
      assert events[n + 1] == x && x in events;
    }
  }

  /** A step changes nobody's path, and begins at most its own removal. */
  lemma StepKeepsRivals(s: Race, e: Event)
    ensures var s' := Next(s, e);
            && |s'.removals| == |s.removals|
            && (forall j: nat, k: nat :: Rivals(s', j, k) <==> Rivals(s, j, k))
            && (forall k: nat :: k < |s.removals| && e != Remove(k) ==> s'.removals[k].pc == s.removals[k].pc)
  {
    if e.Remove? && e.j < |s.removals| {
      assert Next(s, e).removals[e.j].ref == s.removals[e.j].ref;
    }
  }

  /** Every non-empty version directory contains its manifest. */
  ghost predicate ManifestsInPlace(fs: Fs) {
    forall ref :: NonEmpty(fs, ref) ==> HasManifest(fs, ref)
  }

  /**
   The crash invariant: in every reachable state, whichever processes were stopped on the way, every
   non-empty version directory contains its manifest, so the inventory is exactly the non-empty
   version directories.
   */
  lemma CrashInvariant(s: Race, events: seq<Event>)
    requires Init(s) && OvertakenStop(s, events)
    ensures var fs := Exec(s, events).fs;
            && FsOk(fs)
            && ManifestsInPlace(fs)
            && Installed(fs) == set ref | ref in fs.versions && fs.versions[ref] != map[]
  {
    CrashInvariantFrom(s, events, {});
    var fs := Exec(s, events).fs;
    InventoryIsNonEmptyDirs(fs);
    forall ref | NonEmpty(fs, ref) ensures HasManifest(fs, ref) {
      WholeNonEmpty(ref, fs.versions[ref]);
    }
  }

  /** In particular: removals of pairwise different versions need no discipline at all. */
  lemma DifferentVersionsInterleave(s: Race, events: seq<Event>)
    requires Init(s)
    requires forall j, k :: 0 <= j < |s.removals| && 0 <= k < |s.removals| && j != k
               ==> !Overlap(s.removals[j].ref, s.removals[k].ref)
    ensures var fs := Exec(s, events).fs;
            FsOk(fs) && ManifestsInPlace(fs)
  {
    assert forall j: nat, k: nat :: !Rivals(s, j, k);
    CrashInvariant(s, events);
  }

  // ---------------------------------------------------------------- overlapping live removals break it

  ghost predicate Reaches(s: Race, t: Race) {
    exists events :: Exec(s, events) == t
  }

  lemma ReachesStep(s: Race, t: Race, e: Event, u: Race)
    requires Reaches(s, t) && u == Next(t, e)
    ensures Reaches(s, u)
  {
    var events :| Exec(s, events) == t;
    ExecAppend(s, events, [e]);
    assert [e][1..] == [];
    assert Exec(t, [e]) == u;
  }

  /** One step of a removal, from a state that can be reached. */
  lemma RemovalSteps(s: Race, t: Race, j: nat, fs': Fs, r': RemoveProc)
    requires Reaches(s, t) && j < |t.removals| && RemoveStep(t.fs, t.removals[j]) == (fs', r')
    ensures Reaches(s, t.(fs := fs', removals := t.removals[j := r']))
  {
    ReachesStep(s, t, Remove(j), t.(fs := fs', removals := t.removals[j := r']));
  }

  /** A tree with one version, complete, and what a removal above or at it lists. */
  ghost predicate OnlyVersion(fs: Fs, ref: Ref, dir: Dir) {
    && fs.versions == map[ref := dir] && ref.id in fs.idDirs && fs.blocked == {}
    && ref.version != "." && Whole(ref, dir) && META in dir
  }

  function Listed(target: Ref, ref: Ref): seq<WalkItem> {
    [File(ref, META), File(ref, MANIFEST)] + (if target.version == "." then [VersionDir(ref)] else [])
  }

  lemma OnlyVersionIsListed(fs: Fs, target: Ref, ref: Ref, dir: Dir)
    requires OnlyVersion(fs, ref, dir) && Covers(target, ref)
    ensures Contents(fs, target) == Listed(target, ref)
  {
    ReverseListing(ref, dir);
    assert Files(ref, [META, MANIFEST]) == [File(ref, META), File(ref, MANIFEST)];
    assert FilesIn(fs, ref) == [File(ref, META), File(ref, MANIFEST)];
    if target.version == "." {
      SingleVersionListing(fs, ref, dir);
      var files, versions := r => FilesIn(fs, r), [ref.version];
      assert versions[1..] == [] && Walk(files, ref.id, versions[1..]) == [];
      assert Walk(files, ref.id, versions) == files(Ref(ref.id, ref.version)) + [VersionDir(Ref(ref.id, ref.version))] + [];
    }
  }

  lemma SingleVersionListing(fs: Fs, ref: Ref, dir: Dir)
    requires fs.versions == map[ref := dir]
    ensures Reversed(Listing(VersionsOf(fs, ref.id))) == [ref.version]
  {
    assert ref in fs.versions;
    assert VersionsOf(fs, ref.id) == {ref.version};
    ListingUnique({ref.version}, [ref.version]);
  }

  /** Removal `j` probes and lists. */
  lemma RemovalLists(s: Race, t: Race, j: nat, target: Ref, ref: Ref, dir: Dir)
    requires Reaches(s, t) && j < |t.removals| && t.removals[j] == RemoveProc(target, Probe)
    requires OnlyVersion(t.fs, ref, dir) && Covers(target, ref)
    ensures Reaches(s, t.(removals := t.removals[j := RemoveProc(target, Unlink(Listed(target, ref)))]))
  {
    OnlyVersionIsListed(t.fs, target, ref, dir);
    var t1 := t.(removals := t.removals[j := RemoveProc(target, ListFiles)]);
    RemovalSteps(s, t, j, t.fs, RemoveProc(target, ListFiles));
    RemovalSteps(s, t1, j, t.fs, RemoveProc(target, Unlink(Listed(target, ref))));
    assert t1.removals[j := RemoveProc(target, Unlink(Listed(target, ref)))]
           == t.removals[j := RemoveProc(target, Unlink(Listed(target, ref)))];
  }

  /** Removal `j` unlinks the first file of its list. */
  lemma RemovalUnlinks(s: Race, t: Race, j: nat, target: Ref, ref: Ref, name: string, rest: seq<WalkItem>)
    requires Reaches(s, t) && j < |t.removals| && ref in t.fs.versions
    requires t.removals[j] == RemoveProc(target, Unlink([File(ref, name)] + rest))
    ensures Reaches(s, t.(fs := t.fs.(versions := t.fs.versions[ref := t.fs.versions[ref] - {name}]),
                          removals := t.removals[j := RemoveProc(target, Unlink(rest))]))
  {
    assert ([File(ref, name)] + rest)[1..] == rest;
    RemovalSteps(s, t, j, t.fs.(versions := t.fs.versions[ref := t.fs.versions[ref] - {name}]), RemoveProc(target, Unlink(rest)));
  }

  /** A single installer, scheduled until it ends. */
  lemma {:induction false} InstallerRuns(s: Race, t: Race)
    requires Reaches(s, t) && |t.installers| == 1
    ensures var (fs', p') := InstallToEnd(t.fs, t.installers[0]);
            Reaches(s, Race(fs', [p'], t.removals))
    decreases InstallRank(t.installers[0].pc)
  {
    var p := t.installers[0];
    if p.pc.Finished? {
      assert t == Race(t.fs, [p], t.removals);
    } else {
      var u := Next(t, Install(0));
      ReachesStep(s, t, Install(0), u);
      InstallerRuns(s, u);
    }
  }

  function Rest(target: Ref, ref: Ref): seq<WalkItem> {
    if target.version == "." then [VersionDir(ref)] else []
  }

  /** Both list; `k` unlinks the meta file and is held back; `j` unlinks the manifest. */
  lemma OneIsHeldBack(s: Race, j: nat, k: nat, a: Ref, b: Ref, ref: Ref, dir: Dir)
    requires j < |s.removals| && k < |s.removals| && j != k
    requires s.removals[j] == RemoveProc(a, Probe) && s.removals[k] == RemoveProc(b, Probe)
    requires OnlyVersion(s.fs, ref, dir) && Covers(a, ref) && Covers(b, ref)
    ensures Reaches(s, s.(fs := s.fs.(versions := map[ref := map[]]),
                          removals := s.removals[j := RemoveProc(a, Unlink(Rest(a, ref)))]
                                                [k := RemoveProc(b, Unlink([File(ref, MANIFEST)] + Rest(b, ref)))]))
  {
    var last := [File(ref, MANIFEST)];
    assert Exec(s, []) == s;
    RemovalLists(s, s, j, a, ref, dir);
    var t1 := s.(removals := s.removals[j := RemoveProc(a, Unlink(Listed(a, ref)))]);
    RemovalLists(s, t1, k, b, ref, dir);
    var t2 := t1.(removals := t1.removals[k := RemoveProc(b, Unlink(Listed(b, ref)))]);
    assert Listed(a, ref) == [File(ref, META)] + (last + Rest(a, ref));
    assert Listed(b, ref) == [File(ref, META)] + (last + Rest(b, ref));
    OneMoreUnlink(s, t2, k, b, ref, META, last + Rest(b, ref), dir);
    var d1 := dir - {META};
    var t3 := t2.(fs := s.fs.(versions := map[ref := d1]), removals := t2.removals[k := RemoveProc(b, Unlink(last + Rest(b, ref)))]);
    OneMoreUnlink(s, t3, j, a, ref, META, last + Rest(a, ref), d1);
    assert d1 - {META} == d1;
    var t4 := t3.(removals := t3.removals[j := RemoveProc(a, Unlink(last + Rest(a, ref)))]);
    OneMoreUnlink(s, t4, j, a, ref, MANIFEST, Rest(a, ref), d1);
    assert d1 - {MANIFEST} == map[];
    var t5 := t4.(fs := s.fs.(versions := map[ref := map[]]), removals := t4.removals[j := RemoveProc(a, Unlink(Rest(a, ref)))]);
    assert t5.removals == s.removals[j := RemoveProc(a, Unlink(Rest(a, ref)))][k := RemoveProc(b, Unlink(last + Rest(b, ref)))];
  }

  lemma OneMoreUnlink(s: Race, t: Race, j: nat, target: Ref, ref: Ref, name: string, rest: seq<WalkItem>, dir: Dir)
    requires Reaches(s, t) && j < |t.removals| && t.fs.versions == map[ref := dir]
    requires t.removals[j] == RemoveProc(target, Unlink([File(ref, name)] + rest))
    ensures Reaches(s, t.(fs := t.fs.(versions := map[ref := dir - {name}]),
                          removals := t.removals[j := RemoveProc(target, Unlink(rest))]))
  {
    RemovalUnlinks(s, t, j, target, ref, name, rest);
    assert t.fs.versions[ref := dir - {name}] == map[ref := dir - {name}];
  }

  /** Any manifest of a given id and version. */
  function ManifestOf(ref: Ref): Manifest {
    Manifest(id := ref.id, version := ref.version, description := "", trust := "local", enabled := None,
             requiresOauth := None, channel := None, secrets := NoSecrets, network := Network(None, None),
             implementation := NoImplementation, governanceVersion := None, governance := None, rest := "")
  }

  /** An ordinary version that two overlapping paths have in common. */
  function Common(a: Ref, b: Ref): Ref {
    if a.version != "." then a else if b.version != "." then b else Ref(a.id, "1.0.0")
  }

  /**
   Two removals whose paths overlap, both live: the second deletes the manifest of a version that was
   installed after it had listed the old one, and the meta file stays.  The store lock excludes this.
   */
  lemma OverlapBreaksIt(s: Race, j: nat, k: nat, a: Ref, b: Ref)
    requires j < |s.removals| && k < |s.removals| && j != k && Overlap(a, b)
    requires s.removals[j] == RemoveProc(a, Probe) && s.removals[k] == RemoveProc(b, Probe)
    requires var ref := Common(a, b);
             var dir: Dir := map[MANIFEST := ManifestDoc(ManifestOf(ref)), META := MetaDoc(None)];
             && s.fs == Fs(map[], map[ref := dir], {ref.id}, {})
             && s.installers == [InstallProc(ManifestOf(ref), None, 0, Check)]
    ensures exists events :: !ManifestsInPlace(Exec(s, events).fs)
  {
    var ref := Common(a, b);
    var dir: Dir := map[MANIFEST := ManifestDoc(ManifestOf(ref)), META := MetaDoc(None)];
    var p := s.installers[0];
    assert MANIFEST[0] == 'c' && META[0] == 'i';
    assert Whole(ref, dir) && "1.0.0" != "." by { assert |"1.0.0"| == 5; }
    OneIsHeldBack(s, j, k, a, b, ref, dir);
    var t := s.(fs := s.fs.(versions := map[ref := map[]]),
                removals := s.removals[j := RemoveProc(a, Unlink(Rest(a, ref)))]
                                      [k := RemoveProc(b, Unlink([File(ref, MANIFEST)] + Rest(b, ref)))]);
    EmptyVersionInstalls(t.fs, ref);
    InstallerRuns(s, t);
    var (fs', p') := InstallToEnd(t.fs, p);
    LateUnlink(s, Race(fs', [p'], t.removals), k, b, ref);
  }

  lemma EmptyVersionInstalls(fs: Fs, ref: Ref)
    requires fs == Fs(map[], map[ref := map[]], {ref.id}, {})
    ensures var fs' := InstallToEnd(fs, InstallProc(ManifestOf(ref), None, 0, Check)).0;
            ref in fs'.versions && META in fs'.versions[ref]
  {
    var p := InstallProc(ManifestOf(ref), None, 0, Check);
    assert FsOk(fs) && StageOk(fs, p);
    InstallAloneSpec(fs, p);
    assert META in p.Complete();
  }

  /** The held-back removal deletes the manifest from under the meta file. */
  lemma LateUnlink(s: Race, u: Race, k: nat, target: Ref, ref: Ref)
    requires Reaches(s, u) && k < |u.removals|
    requires u.removals[k] == RemoveProc(target, Unlink([File(ref, MANIFEST)] + Rest(target, ref)))
    requires ref in u.fs.versions && META in u.fs.versions[ref]
    ensures exists events :: !ManifestsInPlace(Exec(s, events).fs)
  {
    assert MANIFEST[0] == 'c' && META[0] == 'i';
    RemovalUnlinks(s, u, k, target, ref, MANIFEST, Rest(target, ref));
    var fs' := u.fs.(versions := u.fs.versions[ref := u.fs.versions[ref] - {MANIFEST}]);
    assert META in fs'.versions[ref] && MANIFEST !in fs'.versions[ref];
    assert NonEmpty(fs', ref) && !HasManifest(fs', ref);
    var v := u.(fs := fs', removals := u.removals[k := RemoveProc(target, Unlink(Rest(target, ref)))]);
    var events :| Exec(s, events) == v;
    assert !ManifestsInPlace(Exec(s, events).fs);
  }

  ghost predicate Begins(s: Race, targets: seq<Ref>) {
    Init(s) && |s.removals| == |targets| && forall j :: 0 <= j < |targets| ==> s.removals[j] == RemoveProc(targets[j], Probe)
  }

  /** Whatever the tree, the installers and the schedule, these removals leave every manifest in place. */
  ghost predicate SafeTogether(targets: seq<Ref>) {
    forall s, events :: Begins(s, targets) ==> ManifestsInPlace(Exec(s, events).fs)
  }

  lemma BreakingStart(targets: seq<Ref>, j: nat, k: nat)
    requires j < |targets| && k < |targets| && j != k && Overlap(targets[j], targets[k])
    ensures !SafeTogether(targets)
  {
    var ref := Common(targets[j], targets[k]);
    var dir: Dir := map[MANIFEST := ManifestDoc(ManifestOf(ref)), META := MetaDoc(None)];
    var removals := seq(|targets|, i requires 0 <= i < |targets| => RemoveProc(targets[i], Probe));
    var s := Race(Fs(map[], map[ref := dir], {ref.id}, {}), [InstallProc(ManifestOf(ref), None, 0, Check)], removals);
    assert MANIFEST[0] == 'c' && META[0] == 'i';
    assert Whole(ref, dir);
    assert Begins(s, targets);
    OverlapBreaksIt(s, j, k, targets[j], targets[k]);
    var events :| !ManifestsInPlace(Exec(s, events).fs);
  }

  /** Without the lock, removals are safe together on every schedule exactly when no two paths overlap. */
  lemma SafeExactlyWithoutOverlap(targets: seq<Ref>)
    ensures SafeTogether(targets) <==>
            forall j, k :: 0 <= j < |targets| && 0 <= k < |targets| && j != k ==> !Overlap(targets[j], targets[k])
  {
    forall j, k | 0 <= j < |targets| && 0 <= k < |targets| && j != k && Overlap(targets[j], targets[k])
      ensures !SafeTogether(targets)
    {
      BreakingStart(targets, j, k);
    }
    if forall j, k :: 0 <= j < |targets| && 0 <= k < |targets| && j != k ==> !Overlap(targets[j], targets[k]) {
      forall s, events | Begins(s, targets) ensures ManifestsInPlace(Exec(s, events).fs) {
        DifferentVersionsInterleave(s, events);
      }
    }
  }
}
