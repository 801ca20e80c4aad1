/**
 The resolver's operations (src/resolver.py) as concurrent processes on one store, interleaved one
 file operation at a time under the store lock (src/locks.py), with a kill possible between any two
 steps.  A process runs one operation; its id also serves as its unique staging token and temporary
 file name.  The lock is `flock`: a descriptor is granted the shared lock when no descriptor is
 exclusive, the exclusive lock when no descriptor holds anything, and a kill closes descriptors.

 `log` records the operations in lock-acquisition order and `owned` the ids whose local entry was
 put there by an install.  They are history: no step looks at them.
 */
module ResolverSystem {
  import opened Wrappers
  import opened Sorting
  import opened Text
  import opened Manifests
  import opened Catalog
  import opened Artifacts

  /** What no operation changes: schema, policy, the base catalog, ids that cannot have a directory. */
  datatype Config = Config(valid: Schema, policy: Policy, base: CatalogFile, blocked: set<string>)

  /** The optional remote manifest fetch of `install`. */
  datatype Fetch = NoFetch | FetchFails | Fetched(m: Manifest, digestMatches: bool)

  datatype Op =
    | Install(candidate: Manifest, via: Option<string>, fetch: Fetch)
    | Remove(id: string, version: string)
    | Get(id: string, version: string)          // version "" when none is asked for
    | List
    | Run(id: string, version: string, channel: Option<string>)

  datatype Answer =
    | InstalledAs(ref: Ref)
    | Removed(removed: bool)
    | Found(m: Manifest)
    | Listed(ms: seq<Manifest>)
    | Admitted(m: Manifest)     // run: found and let through by enforce_run
    | Raised(error: Error)

  predicate IsWriter(op: Op) {
    op.Install? || op.Remove?
  }

  // ---------------------------------------------------------------- what each operation should do

  /** The manifest an install works with: checked by schema and policy, then perhaps replaced. */
  function Effective(cfg: Config, op: Op): Result<Manifest>
    requires op.Install?
  {
    if !cfg.valid(op.candidate) then Err(BadManifest)
    else if !cfg.policy.MayInstall(op.candidate) then Err(PolicyDenied)
    else match op.fetch
      case NoFetch => Ok(op.candidate)
      case FetchFails => Err(InstallFailed)
      case Fetched(m, digestMatches) =>
        if !cfg.valid(m) then Err(BadManifest)
        else if !digestMatches then Err(InstallFailed)
        else Ok(m)
  }

  /** The same, with the id and version admitted as directory names. */
  function Admit(cfg: Config, op: Op): Result<Manifest>
    requires op.Install?
  {
    var m :- Effective(cfg, op);
    if m.id == "" || m.version == "" then Err(InstallFailed)
    else if !SafeDirname(m.id) || !SafeDirname(m.version) then Err(BadManifest)
    else Ok(m)
  }

  function Installable(cfg: Config, op: Op): Result<Manifest>
    requires op.Install?
  {
    var m :- Admit(cfg, op);
    if m.id in cfg.blocked then Err(InstallFailed) else Ok(m)
  }

  function Pick(merged: seq<Manifest>, id: string, version: string): Result<Manifest> {
    match Lookup(merged, id)
    case None => Err(NotFound)
    case Some(m) => if version != "" && m.version != version then Err(NotFound) else Ok(m)
  }

  const BY_ID: (Manifest, Manifest) -> bool := (a: Manifest, b: Manifest) => AtMost(a.id, b.id)

  function ReadAnswer(op: Op, merged: Result<seq<Manifest>>): Answer {
    match merged
    case Err(e) => Raised(e)
    case Ok(c) =>
      match op
      case Get(id, version) => (match Pick(c, id, version) case Ok(m) => Found(m) case Err(e) => Raised(e))
      case Run(id, version, _) => (match Pick(c, id, version) case Ok(m) => Found(m) case Err(e) => Raised(e))
      case _ => Listed(StableSort(BY_ID, c))
  }

  /** `run` after `get`: the policy gate. */
  function Gate(op: Op, a: Answer): Answer {
    if op.Run? && a.Found? then
      match Policy.EnforceRun(a.m, op.channel)
      case Ok(_) => Admitted(a.m)
      case Err(e) => Raised(e)
    else a
  }

  /** The sequential specification: the local catalog after the operation ... */
  function SpecLocal(cfg: Config, op: Op, local: CatalogFile): CatalogFile {
    match op
    case Install(_, _, _) =>
      (match Installable(cfg, op)
       case Ok(m) => UpsertFile(cfg.valid, local, m).0
       case Err(_) => local)
    case Remove(id, _) => RemoveFile(cfg.valid, cfg.base, local, id).0
    case _ => local
  }

  /** ... and its answer. */
  function SpecAnswer(cfg: Config, op: Op, local: CatalogFile): Answer {
    match op
    case Install(_, _, _) =>
      (match Installable(cfg, op)
       case Err(e) => Raised(e)
       case Ok(m) =>
         match UpsertFile(cfg.valid, local, m).1
         case Ok(_) => InstalledAs(Ref(m.id, m.version))
         case Err(e) => Raised(e))
    case Remove(id, _) =>
      (match RemoveFile(cfg.valid, cfg.base, local, id).1
       case Ok(b) => Removed(b)
       case Err(e) => Raised(e))
    case _ => Gate(op, ReadAnswer(op, LoadMerged(cfg.valid, cfg.base, local)))
  }

  // ---------------------------------------------------------------- writers, step by step

  datatype Next = ThenAnswer(ref: Ref) | ThenClean

  datatype WriterPc =
    | Begin
    | Artifact(p: InstallProc)                                   // Installer.install_manifest_atomic
    | LoadForUpsert(m: Manifest, next: Next)                     // upsert_local
    | MakeTemp(c: seq<Manifest>, next: Next)                     // atomic_write_json
    | FillTemp(c: seq<Manifest>, next: Next)
    | Swap(c: seq<Manifest>, next: Next)
    | ReadBase | ReadLocal(b: seq<Manifest>)                     // merged_catalog
    | LoadForDelete                                              // delete_local
    | ReadBaseAgain | ReadLocalAgain(b: seq<Manifest>)           // set_local_enabled
    | Cleaning(r: RemoveProc)                                    // CapabilityStore.remove
    | Return(a: Answer)

  datatype Disk = Disk(local: CatalogFile, temps: map<nat, Option<seq<Manifest>>>, fs: Fs)

  /** One file operation of the holder of the exclusive lock. */
  ghost function WriterStep(cfg: Config, d: Disk, op: Op, pid: nat, w: WriterPc): (Disk, WriterPc)
    requires IsWriter(op)
  {
    match w
    case Begin =>
      if op.Remove? then (d, ReadBase)
      else (match Admit(cfg, op)
            case Err(e) => (d, Return(Raised(e)))
            case Ok(m) => (d, Artifact(InstallProc(m, op.via, pid, Check))))
    case Artifact(p) =>
      if p.pc == Finished(Failed) then (d, Return(Raised(InstallFailed)))
      else if p.pc.Finished? then (d, LoadForUpsert(p.m, ThenAnswer(p.RefOf())))
      else
        var (fs', p') := InstallStep(d.fs, p);
        (d.(fs := fs'), Artifact(p'))
    case LoadForUpsert(m, next) =>
      if !cfg.valid(m) || m.id == "" then (d, Return(Raised(BadManifest)))
      else (match Load(cfg.valid, d.local)
            case Err(e) => (d, Return(Raised(e)))
            case Ok(l) => (d, MakeTemp(Put(l, m), next)))
    case MakeTemp(c, next) => (d.(temps := d.temps[pid := None]), FillTemp(c, next))
    case FillTemp(c, next) => (d.(temps := d.temps[pid := Some(c)]), Swap(c, next))
    case Swap(c, next) =>
      var d' := d.(local := if pid in d.temps && d.temps[pid].Some? then Save(d.temps[pid].value) else Unparsable,
                   temps := d.temps - {pid});
      (match next
       case ThenAnswer(ref) => (d', Return(InstalledAs(ref)))
       case ThenClean =>
         if op.Remove? && SafeDirname(op.id) && SafeDirname(op.version)
         then (d', Cleaning(RemoveProc(Ref(op.id, op.version), Probe)))
         else (d', Return(Removed(true))))
    case ReadBase =>
      (match Load(cfg.valid, cfg.base)
       case Err(e) => (d, Return(Raised(e)))
       case Ok(b) => (d, ReadLocal(b)))
    case ReadLocal(b) =>
      (match Load(cfg.valid, d.local)
       case Err(e) => (d, Return(Raised(e)))
       case Ok(l) => (d, if op.Remove? && Has(Merge(b, l), op.id) then LoadForDelete else Return(Removed(false))))
    case LoadForDelete =>
      (match Load(cfg.valid, d.local)
       case Err(e) => (d, Return(Raised(e)))
       case Ok(l) => (d, if op.Remove? && Has(l, op.id) then MakeTemp(Drop(l, op.id), ThenClean) else ReadBaseAgain))
    case ReadBaseAgain =>
      (match Load(cfg.valid, cfg.base)
       case Err(e) => (d, Return(Raised(e)))
       case Ok(b) => (d, ReadLocalAgain(b)))
    case ReadLocalAgain(b) =>
      (match Load(cfg.valid, d.local)
       case Err(e) => (d, Return(Raised(e)))
       case Ok(l) =>
         if !op.Remove? then (d, Return(Raised(NotFound)))
         else match Lookup(Merge(b, l), op.id)
           case None => (d, Return(Raised(NotFound)))
           case Some(m) => (d, LoadForUpsert(m.(enabled := Some(false)), ThenClean)))
    case Cleaning(r) =>
      if r.pc.Gone? then (d, Return(Removed(true)))
      else
        var (fs', r') := RemoveStep(d.fs, r);
        (d.(fs := fs'), Cleaning(r'))
    case Return(_) => (d, w)
  }

  // ---------------------------------------------------------------- what a writer knows at each point

  /** The id whose local entry the operation is about. */
  function Target(cfg: Config, op: Op): Option<string>
    requires IsWriter(op)
  {
    match op
    case Remove(id, _) => Some(id)
    case Install(_, _, _) => match Installable(cfg, op) case Ok(m) => Some(m.id) case Err(_) => None
  }

  /** The catalog about to be written is the specified one. */
  ghost predicate WriteOk(cfg: Config, fs: Fs, before: CatalogFile, op: Op, c: seq<Manifest>, next: Next)
    requires IsWriter(op)
  {
    && Save(c) == SpecLocal(cfg, op, before)
    && Load(cfg.valid, Save(c)) == Ok(c)
    && Load(cfg.valid, before).Ok?
    && (forall id :: Some(id) != Target(cfg, op) ==> Lookup(c, id) == Lookup(Load(cfg.valid, before).value, id))
    && match next
       case ThenAnswer(ref) =>
         && op.Install? && SpecAnswer(cfg, op, before) == InstalledAs(ref) && HasManifest(fs, ref)
         && Target(cfg, op) == Some(ref.id)
         && Lookup(c, ref.id).Some? && Lookup(c, ref.id).value.id == ref.id && Lookup(c, ref.id).value.version == ref.version
       case ThenClean => op.Remove? && SpecAnswer(cfg, op, before) == Removed(true)
  }

  ghost predicate InstallerKnows(cfg: Config, fs: Fs, op: Op, pid: nat, p: InstallProc)
    requires op.Install?
  {
    && Admit(cfg, op) == Ok(p.m) && p.token == pid && StageOk(fs, p)
    && (p.pc == Promote || p.pc == SyncParent ==> p.m.id in fs.idDirs)
    && (p.pc in {SyncParent, CleanUp(Updated), Finished(Updated), CleanUp(AlreadyThere), Finished(AlreadyThere)}
        ==> HasManifest(fs, p.RefOf()))
    && (p.pc in {CleanUp(Failed), Finished(Failed)} ==> p.m.id in cfg.blocked)
  }

  ghost predicate WriterKnows(cfg: Config, d: Disk, before: CatalogFile, op: Op, pid: nat, w: WriterPc)
    requires IsWriter(op)
  {
    match w
    case Begin => pid !in d.fs.staging
    case Artifact(p) => op.Install? && InstallerKnows(cfg, d.fs, op, pid, p)
    case LoadForUpsert(m, next) =>
      (match next
       case ThenAnswer(ref) => op.Install? && Installable(cfg, op) == Ok(m) && ref == Ref(m.id, m.version) && HasManifest(d.fs, ref)
       case ThenClean =>
         && op.Remove? && m.id == op.id
         && RemoveFile(cfg.valid, cfg.base, before, op.id) == UpsertFile(cfg.valid, before, m))
    case MakeTemp(c, next) => WriteOk(cfg, d.fs, before, op, c, next)
    case FillTemp(c, next) => WriteOk(cfg, d.fs, before, op, c, next)
    case Swap(c, next) => WriteOk(cfg, d.fs, before, op, c, next) && pid in d.temps && d.temps[pid] == Some(c)
    case ReadBase => op.Remove?
    case ReadLocal(b) => op.Remove? && Load(cfg.valid, cfg.base) == Ok(b)
    case LoadForDelete => op.Remove? && FoundMerged(cfg, before, op.id)
    case ReadBaseAgain =>
      op.Remove? && FoundMerged(cfg, before, op.id) && !Has(Load(cfg.valid, before).value, op.id)
    case ReadLocalAgain(b) =>
      && op.Remove? && FoundMerged(cfg, before, op.id) && !Has(Load(cfg.valid, before).value, op.id)
      && Load(cfg.valid, cfg.base) == Ok(b)
    case Cleaning(r) =>
      op.Remove? && r.ref == Ref(op.id, op.version) && UnlinkOk(d.fs, r) && SpecAnswer(cfg, op, before) == Removed(true)
    case Return(a) => a == SpecAnswer(cfg, op, before) && d.local == SpecLocal(cfg, op, before)
  }

  ghost predicate FoundMerged(cfg: Config, before: CatalogFile, id: string) {
    && Load(cfg.valid, cfg.base).Ok? && Load(cfg.valid, before).Ok?
    && Has(Merge(Load(cfg.valid, cfg.base).value, Load(cfg.valid, before).value), id)
  }

  /** Before the one write the local catalog is untouched, after it it is the specified one. */
  ghost predicate WriterOk(cfg: Config, d: Disk, before: CatalogFile, op: Op, pid: nat, committed: bool, w: WriterPc)
    requires IsWriter(op)
  {
    && FsOk(d.fs) && d.fs.blocked == cfg.blocked
    && d.local == (if committed then SpecLocal(cfg, op, before) else before)
    && (w.Cleaning? ==> committed)
    && (!w.Cleaning? && !w.Return? ==> !committed)
    && WriterKnows(cfg, d, before, op, pid, w)
  }

  lemma UpsertWriteOk(cfg: Config, fs: Fs, before: CatalogFile, op: Op, m: Manifest, next: Next)
    requires IsWriter(op) && cfg.valid(m) && m.id != "" && Load(cfg.valid, before).Ok?
    requires SpecLocal(cfg, op, before) == UpsertFile(cfg.valid, before, m).0
    requires Target(cfg, op) == Some(m.id)
    requires match next
             case ThenAnswer(ref) =>
               op.Install? && SpecAnswer(cfg, op, before) == InstalledAs(ref) && HasManifest(fs, ref) && ref == Ref(m.id, m.version)
             case ThenClean => op.Remove? && SpecAnswer(cfg, op, before) == Removed(true)
    ensures WriteOk(cfg, fs, before, op, Put(Load(cfg.valid, before).value, m), next)
  {
    var l := Load(cfg.valid, before).value;
    LoadGood(cfg.valid, before);
    PutGood(cfg.valid, l, m);
    SaveLoadRoundTrip(cfg.valid, Put(l, m));
    forall id ensures Lookup(Put(l, m), id) == if id == m.id then Some(m) else Lookup(l, id) {
      PutSpec(l, m, id);
    }
  }

  lemma DropWriteOk(cfg: Config, fs: Fs, before: CatalogFile, op: Op)
    requires op.Remove? && FoundMerged(cfg, before, op.id) && Has(Load(cfg.valid, before).value, op.id)
    ensures WriteOk(cfg, fs, before, op, Drop(Load(cfg.valid, before).value, op.id), ThenClean)
  {
    var l := Load(cfg.valid, before).value;
    LoadGood(cfg.valid, before);
    DropGood(cfg.valid, l, op.id);
    SaveLoadRoundTrip(cfg.valid, Drop(l, op.id));
    forall id | id != op.id ensures Lookup(Drop(l, op.id), id) == Lookup(l, id) {
      DropSpec(l, op.id, id);
    }
  }

  lemma ArtifactStepOk(cfg: Config, d: Disk, before: CatalogFile, op: Op, pid: nat, p: InstallProc)
    requires IsWriter(op) && WriterOk(cfg, d, before, op, pid, false, Artifact(p))
    ensures var (d', w') := WriterStep(cfg, d, op, pid, Artifact(p));
            WriterOk(cfg, d', before, op, pid, false, w')
  {
    if !p.pc.Finished? {
      InstallStepEffect(d.fs, p);
      assert MANIFEST in p.Complete();
      if NonEmpty(d.fs, p.RefOf()) {
        WholeNonEmpty(p.RefOf(), d.fs.versions[p.RefOf()]);
      }
    } else if p.pc.outcome != Failed {
      assert p.m.id in d.fs.idDirs;
    }
  }

  lemma UpsertStepOk(cfg: Config, d: Disk, before: CatalogFile, op: Op, pid: nat, m: Manifest, next: Next)
    requires IsWriter(op) && WriterOk(cfg, d, before, op, pid, false, LoadForUpsert(m, next))
    ensures var (d', w') := WriterStep(cfg, d, op, pid, LoadForUpsert(m, next));
            WriterOk(cfg, d', before, op, pid, false, w')
  {
    if cfg.valid(m) && m.id != "" && Load(cfg.valid, d.local).Ok? {
      UpsertWriteOk(cfg, d.fs, before, op, m, next);
    }
  }

  lemma RemoveReadsOk(cfg: Config, d: Disk, before: CatalogFile, op: Op, pid: nat, w: WriterPc)
    requires IsWriter(op) && WriterOk(cfg, d, before, op, pid, false, w)
    requires w.ReadBase? || w.ReadLocal? || w.LoadForDelete? || w.ReadBaseAgain? || w.ReadLocalAgain?
    ensures var (d', w') := WriterStep(cfg, d, op, pid, w);
            WriterOk(cfg, d', before, op, pid, false, w')
  {
    if w.LoadForDelete? && Has(Load(cfg.valid, d.local).value, op.id) {
      DropWriteOk(cfg, d.fs, before, op);
    }
    if w.ReadLocalAgain? {
      LookupFindsItsId(Merge(w.b, Load(cfg.valid, d.local).value), op.id);
    }
  }

  lemma CleaningStepOk(cfg: Config, d: Disk, before: CatalogFile, op: Op, pid: nat, r: RemoveProc)
    requires IsWriter(op) && WriterOk(cfg, d, before, op, pid, true, Cleaning(r))
    ensures var (d', w') := WriterStep(cfg, d, op, pid, Cleaning(r));
            WriterOk(cfg, d', before, op, pid, true, w')
  {
    if !r.pc.Gone? {
      RemoveStepEffect(d.fs, r);
    }
  }

  /** Every step of a writer keeps what it knows; `Swap` is the one step that commits. */
  lemma WriterStepOk(cfg: Config, d: Disk, before: CatalogFile, op: Op, pid: nat, committed: bool, w: WriterPc)
    requires IsWriter(op) && WriterOk(cfg, d, before, op, pid, committed, w) && !w.Return?
    ensures var (d', w') := WriterStep(cfg, d, op, pid, w);
            WriterOk(cfg, d', before, op, pid, committed || w.Swap?, w')
  {
    match w
    case Artifact(p) => ArtifactStepOk(cfg, d, before, op, pid, p);
    case LoadForUpsert(m, next) => UpsertStepOk(cfg, d, before, op, pid, m, next);
    case Cleaning(r) => CleaningStepOk(cfg, d, before, op, pid, r);
    case Begin =>
    case MakeTemp(_, _) =>
    case FillTemp(_, _) =>
    case Swap(_, _) =>
    case _ => RemoveReadsOk(cfg, d, before, op, pid, w);
  }

  // ---------------------------------------------------------------- the whole system

  datatype Fd = Fd(pid: nat, level: nat)

  datatype ReaderPc =
    | Enter                                // run: take the shared lock a second time, inside get
    | LoadBase | LoadLocal(b: seq<Manifest>)
    | LeaveInner(a: Answer)
    | Reply(a: Answer)

  datatype Status =
    | Waiting
    | Writing(at: nat, committed: bool, w: WriterPc)
    | Reading(at: nat, r: ReaderPc)
    | Done(at: nat, answer: Answer)
    | Killed

  datatype Proc = Proc(op: Op, status: Status)

  /** A granted operation; `live` is withdrawn when it is killed before its write. */
  datatype Entry = Entry(pid: nat, op: Op, live: bool)

  datatype Sys = Sys(disk: Disk, exclusive: set<Fd>, shared: set<Fd>, procs: map<nat, Proc>,
                     log: seq<Entry>, owned: set<string>) {
    predicate IsWriting(p: nat) {
      p in procs && procs[p].status.Writing?
    }

    predicate IsReading(p: nat) {
      p in procs && procs[p].status.Reading?
    }

    predicate HoldsInner(p: nat) {
      IsReading(p) && procs[p].op.Run? && !procs[p].status.r.Enter? && !procs[p].status.r.Reply?
    }

    function With(p: nat, status: Status): Sys
      requires p in procs
    {
      this.(procs := procs[p := procs[p].(status := status)])
    }
  }

  datatype Event = Spawn(pid: nat, op: Op) | Step(pid: nat) | Kill(pid: nat)

  /** Granting the lock. */
  function Acquire(s: Sys, pid: nat): Sys
    requires pid in s.procs
  {
    var op := s.procs[pid].op;
    var log' := s.log + [Entry(pid, op, true)];
    if IsWriter(op) then
      if s.exclusive == {} && s.shared == {}
      then s.With(pid, Writing(|s.log|, false, Begin)).(exclusive := {Fd(pid, 0)}, log := log')
      else s
    else
      if s.exclusive == {}
      then s.With(pid, Reading(|s.log|, if op.Run? then Enter else LoadBase)).(shared := s.shared + {Fd(pid, 0)}, log := log')
      else s
  }

  ghost function StepWriter(cfg: Config, s: Sys, pid: nat): Sys
    requires s.IsWriting(pid)
  {
    var op, st := s.procs[pid].op, s.procs[pid].status;
    if !IsWriter(op) then s
    else if st.w.Return? then s.With(pid, Done(st.at, st.w.a)).(exclusive := s.exclusive - {Fd(pid, 0)})
    else
      var (d', w') := WriterStep(cfg, s.disk, op, pid, st.w);
      s.With(pid, Writing(st.at, st.committed || st.w.Swap?, w'))
       .(disk := d', owned := if st.w.Swap? then OwnedAfter(cfg, op, s.owned) else s.owned)
  }

  function OwnedAfter(cfg: Config, op: Op, owned: set<string>): set<string>
    requires IsWriter(op)
  {
    match Target(cfg, op)
    case None => owned
    case Some(id) => if op.Install? then owned + {id} else owned - {id}
  }

  function StepReader(cfg: Config, s: Sys, pid: nat): Sys
    requires s.IsReading(pid)
  {
    var op, at := s.procs[pid].op, s.procs[pid].status.at;
    match s.procs[pid].status.r
    case Enter =>
      if s.exclusive == {} then s.With(pid, Reading(at, LoadBase)).(shared := s.shared + {Fd(pid, 1)}) else s
    case LoadBase =>
      (match Load(cfg.valid, cfg.base)
       case Err(e) => s.With(pid, Reading(at, Answered(op, Raised(e))))
       case Ok(b) => s.With(pid, Reading(at, LoadLocal(b))))
    case LoadLocal(b) =>
      (match Load(cfg.valid, s.disk.local)
       case Err(e) => s.With(pid, Reading(at, Answered(op, Raised(e))))
       case Ok(l) => s.With(pid, Reading(at, Answered(op, ReadAnswer(op, Ok(Merge(b, l)))))))
    case LeaveInner(a) => s.With(pid, Reading(at, Reply(Gate(op, a)))).(shared := s.shared - {Fd(pid, 1)})
    case Reply(a) => s.With(pid, Done(at, a)).(shared := s.shared - {Fd(pid, 0)})
  }

  function Answered(op: Op, a: Answer): ReaderPc {
    if op.Run? then LeaveInner(a) else Reply(a)
  }

  /** A kill closes the descriptors of the process, which releases its locks. */
  function Die(s: Sys, pid: nat): Sys
    requires pid in s.procs
  {
    var st := s.procs[pid].status;
    s.With(pid, Killed).(
      exclusive := s.exclusive - {Fd(pid, 0)},
      shared := s.shared - {Fd(pid, 0), Fd(pid, 1)},
      log := if st.Writing? && !st.committed && st.at < |s.log| then s.log[st.at := s.log[st.at].(live := false)] else s.log)
  }

  /** One event; an event that is not possible changes nothing. */
  ghost function Happens(cfg: Config, s: Sys, e: Event): Sys {
    match e
    case Spawn(pid, op) =>
      if pid in s.procs || pid in s.disk.fs.staging then s
      else s.(procs := s.procs[pid := Proc(op, Waiting)])
    case Step(pid) =>
      if pid !in s.procs then s
      else (match s.procs[pid].status
            case Waiting => Acquire(s, pid)
            case Writing(_, _, _) => StepWriter(cfg, s, pid)
            case Reading(_, _) => StepReader(cfg, s, pid)
            case _ => s)
    case Kill(pid) =>
      if pid !in s.procs || s.procs[pid].status.Done? then s else Die(s, pid)
  }

  ghost function Exec(cfg: Config, s: Sys, events: seq<Event>): Sys
    decreases |events|
  {
    if events == [] then s else Exec(cfg, Happens(cfg, s, events[0]), events[1..])
  }

  /** The local catalog after the live operations of a log, run one after another. */
  function Replay(cfg: Config, start: CatalogFile, log: seq<Entry>): CatalogFile
    decreases |log|
  {
    if log == [] then start
    else
      var before := Replay(cfg, start, log[..|log| - 1]);
      var last := log[|log| - 1];
      if last.live then SpecLocal(cfg, last.op, before) else before
  }

  lemma ReplayAppend(cfg: Config, start: CatalogFile, log: seq<Entry>, e: Entry)
    ensures Replay(cfg, start, log + [e])
            == if e.live then SpecLocal(cfg, e.op, Replay(cfg, start, log)) else Replay(cfg, start, log)
  {
    assert (log + [e])[..|log + [e]| - 1] == log;
  }

  // ---------------------------------------------------------------- the system invariant

  ghost predicate LocksOk(s: Sys) {
    && (forall p, l :: Fd(p, l) in s.exclusive <==> l == 0 && s.IsWriting(p))
    && (forall p, l :: Fd(p, l) in s.shared <==> (l == 0 && s.IsReading(p)) || (l == 1 && s.HoldsInner(p)))
    && (forall p, q :: s.IsWriting(p) && s.IsWriting(q) ==> p == q)
    && (forall p, q :: s.IsWriting(p) ==> !s.IsReading(q))
  }

  ghost predicate LoggedAs(s: Sys, pid: nat, at: nat)
    requires pid in s.procs
  {
    at < |s.log| && s.log[at] == Entry(pid, s.procs[pid].op, true)
  }

  ghost predicate ReaderOk(cfg: Config, start: CatalogFile, s: Sys, pid: nat)
    requires s.IsReading(pid)
  {
    var op, at := s.procs[pid].op, s.procs[pid].status.at;
    && !IsWriter(op) && LoggedAs(s, pid, at)
    && Replay(cfg, start, s.log[..at]) == s.disk.local
    && match s.procs[pid].status.r
       case Enter => op.Run?
       case LoadLocal(b) => Load(cfg.valid, cfg.base) == Ok(b)
       case LeaveInner(a) => op.Run? && a == ReadAnswer(op, LoadMerged(cfg.valid, cfg.base, s.disk.local))
       case Reply(a) => a == SpecAnswer(cfg, op, s.disk.local)
       case _ => true
  }

  ghost predicate ProcOk(cfg: Config, start: CatalogFile, s: Sys, pid: nat)
    requires pid in s.procs
  {
    var op := s.procs[pid].op;
    match s.procs[pid].status
    case Waiting => pid !in s.disk.fs.staging
    case Writing(at, committed, w) =>
      && IsWriter(op) && LoggedAs(s, pid, at) && at + 1 == |s.log|
      && WriterOk(cfg, s.disk, Replay(cfg, start, s.log[..at]), op, pid, committed, w)
    case Reading(_, _) => ReaderOk(cfg, start, s, pid)
    case Done(at, answer) =>
      LoggedAs(s, pid, at) && answer == SpecAnswer(cfg, op, Replay(cfg, start, s.log[..at]))
    case Killed => true
  }

  /** Every entry an install put into the local catalog has the artifact of its own version. */
  ghost predicate OwnedOk(cfg: Config, d: Disk, owned: set<string>) {
    owned != {} ==>
      && Load(cfg.valid, d.local).Ok?
      && forall id :: id in owned ==> OwnedEntryOk(d.fs, Load(cfg.valid, d.local).value, id)
  }

  ghost predicate OwnedEntryOk(fs: Fs, c: seq<Manifest>, id: string) {
    && Lookup(c, id).Some? && Lookup(c, id).value.id == id
    && HasManifest(fs, Ref(id, Lookup(c, id).value.version))
  }

  ghost predicate CleaningDisowned(s: Sys) {
    forall p :: s.IsWriting(p) && s.procs[p].status.w.Cleaning? && s.procs[p].op.Remove? ==> s.procs[p].op.id !in s.owned
  }

  ghost predicate SysOk(cfg: Config, start: CatalogFile, s: Sys) {
    && FsOk(s.disk.fs) && s.disk.fs.blocked == cfg.blocked
    && LocksOk(s)
    && (forall p :: p in s.procs ==> ProcOk(cfg, start, s, p))
    && ((forall p :: !s.IsWriting(p)) ==> s.disk.local == Replay(cfg, start, s.log))
    && OwnedOk(cfg, s.disk, s.owned)
    && CleaningDisowned(s)
  }

  ghost predicate Init(cfg: Config, s: Sys) {
    && s.procs == map[] && s.log == [] && s.exclusive == {} && s.shared == {} && s.owned == {}
    && FsOk(s.disk.fs) && s.disk.fs.blocked == cfg.blocked
  }
}
