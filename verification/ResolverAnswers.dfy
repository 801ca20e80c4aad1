/**
 What the concurrent resolver answers, in its callers' terms.  `Serializable` reduces a run to one
 operation after another; here each answer is stated by what the operation found: the entries of the
 merged catalog, their versions, the policy, the candidate and what was fetched for it.
 */
module ResolverAnswers {
  import opened Wrappers
  import opened Sorting
  import opened Text
  import opened Manifests
  import opened Catalog
  import opened Artifacts
  import opened ResolverSystem
  import opened ResolverTheorems

  /** `p` has returned in this run. */
  ghost predicate Returned(cfg: Config, s0: Sys, events: seq<Event>, p: nat) {
    && Init(cfg, s0)
    && p in Exec(cfg, s0, events).procs && Exec(cfg, s0, events).procs[p].status.Done?
  }

  ghost function OpOf(cfg: Config, s0: Sys, events: seq<Event>, p: nat): Op
    requires Returned(cfg, s0, events, p)
  {
    Exec(cfg, s0, events).procs[p].op
  }

  ghost function AnswerOf(cfg: Config, s0: Sys, events: seq<Event>, p: nat): Answer
    requires Returned(cfg, s0, events, p)
  {
    Exec(cfg, s0, events).procs[p].status.answer
  }

  /** The local catalog that `p` found: what the live operations that had the lock before it left. */
  ghost function Before(cfg: Config, s0: Sys, events: seq<Event>, p: nat): CatalogFile
    requires Returned(cfg, s0, events, p)
  {
    var s := Exec(cfg, s0, events);
    var at := s.procs[p].status.at;
    Replay(cfg, s0.disk.local, if at <= |s.log| then s.log[..at] else s.log)
  }

  /** The local catalog that `p` left. */
  ghost function Left(cfg: Config, s0: Sys, events: seq<Event>, p: nat): CatalogFile
    requires Returned(cfg, s0, events, p)
  {
    var s := Exec(cfg, s0, events);
    var at := s.procs[p].status.at;
    Replay(cfg, s0.disk.local, if at < |s.log| then s.log[..at + 1] else s.log)
  }

  lemma AnswersAsSpecified(cfg: Config, s0: Sys, events: seq<Event>, p: nat)
    requires Returned(cfg, s0, events, p)
    ensures var op, before := OpOf(cfg, s0, events, p), Before(cfg, s0, events, p);
            && AnswerOf(cfg, s0, events, p) == SpecAnswer(cfg, op, before)
            && Left(cfg, s0, events, p) == SpecLocal(cfg, op, before)
  {
    Serializable(cfg, s0, events);
    var s := Exec(cfg, s0, events);
    var at := s.procs[p].status.at;
    assert s.log[..at + 1] == s.log[..at] + [s.log[at]];
    ReplayAppend(cfg, s0.disk.local, s.log[..at], s.log[at]);
  }

  // ---------------------------------------------------------------- get, run and list

  /** `m` is the entry under this id, in the version asked for, if one was. */
  ghost predicate IsEntry(c: seq<Manifest>, m: Manifest, id: string, version: string) {
    m in c && m.id == id && (version == "" || m.version == version)
  }

  lemma MergedIsDistinct(cfg: Config, local: CatalogFile)
    requires LoadMerged(cfg.valid, cfg.base, local).Ok?
    ensures Distinct(LoadMerged(cfg.valid, cfg.base, local).value)
  {
    LoadGood(cfg.valid, cfg.base);
    LoadGood(cfg.valid, local);
    MergeSpec(Load(cfg.valid, cfg.base).value, Load(cfg.valid, local).value, "");
  }

  lemma PickDecides(c: seq<Manifest>, id: string, version: string)
    requires Distinct(c)
    ensures forall m :: Pick(c, id, version) == Ok(m) <==> IsEntry(c, m, id, version)
    ensures Pick(c, id, version).Err? ==> Pick(c, id, version).error == NotFound
  {
    forall m ensures Lookup(c, id) == Some(m) <==> m in c && m.id == id {
      LookupIsTheEntry(c, id, m);
    }
  }

  /** In every reachable state: `get` has returned the entry under its id and version, if there is one. */
  lemma GetAnswers(cfg: Config, s0: Sys, events: seq<Event>, p: nat)
    requires Returned(cfg, s0, events, p) && OpOf(cfg, s0, events, p).Get?
    ensures var op, answer := OpOf(cfg, s0, events, p), AnswerOf(cfg, s0, events, p);
            match LoadMerged(cfg.valid, cfg.base, Before(cfg, s0, events, p))
            case Err(e) => answer == Raised(e)
            case Ok(c) =>
              && (forall m :: answer == Found(m) <==> IsEntry(c, m, op.id, op.version))
              && (answer.Found? || answer == Raised(NotFound))
  {
    var op, before := OpOf(cfg, s0, events, p), Before(cfg, s0, events, p);
    AnswersAsSpecified(cfg, s0, events, p);
    if LoadMerged(cfg.valid, cfg.base, before).Ok? {
      MergedIsDistinct(cfg, before);
      PickDecides(LoadMerged(cfg.valid, cfg.base, before).value, op.id, op.version);
    }
  }

  /** `run` lets exactly that entry through to the engine, if policy lets it run on the channel asked for. */
  lemma RunAnswers(cfg: Config, s0: Sys, events: seq<Event>, p: nat)
    requires Returned(cfg, s0, events, p) && OpOf(cfg, s0, events, p).Run?
    ensures var op, answer := OpOf(cfg, s0, events, p), AnswerOf(cfg, s0, events, p);
            match LoadMerged(cfg.valid, cfg.base, Before(cfg, s0, events, p))
            case Err(e) => answer == Raised(e)
            case Ok(c) =>
              && (forall m :: answer == Admitted(m) <==> IsEntry(c, m, op.id, op.version) && MayRun(m, op.channel))
              && (answer == Raised(PolicyDenied) <==> exists m :: IsEntry(c, m, op.id, op.version) && !MayRun(m, op.channel))
              && (answer == Raised(NotFound) <==> forall m :: !IsEntry(c, m, op.id, op.version))
  {
    var op, before := OpOf(cfg, s0, events, p), Before(cfg, s0, events, p);
    AnswersAsSpecified(cfg, s0, events, p);
    if LoadMerged(cfg.valid, cfg.base, before).Ok? {
      var c := LoadMerged(cfg.valid, cfg.base, before).value;
      MergedIsDistinct(cfg, before);
      PickDecides(c, op.id, op.version);
      var r := Pick(c, op.id, op.version);
      if r.Ok? {
        assert IsEntry(c, r.value, op.id, op.version);
        EnforceRunDecides(r.value, op.channel);
      }
    }
  }

  /** The entries of `c`, each once, in ascending order of their ids. */
  ghost predicate ListsById(c: seq<Manifest>, ms: seq<Manifest>) {
    && multiset(ms) == multiset(c)
    && forall i, j :: 0 <= i < j < |ms| ==> Precedes(ms[i].id, ms[j].id)
  }

  lemma ListAnswers(cfg: Config, s0: Sys, events: seq<Event>, p: nat)
    requires Returned(cfg, s0, events, p) && OpOf(cfg, s0, events, p).List?
    ensures match LoadMerged(cfg.valid, cfg.base, Before(cfg, s0, events, p))
            case Err(e) => AnswerOf(cfg, s0, events, p) == Raised(e)
            case Ok(c) => AnswerOf(cfg, s0, events, p).Listed? && ListsById(c, AnswerOf(cfg, s0, events, p).ms)
  {
    var before := Before(cfg, s0, events, p);
    AnswersAsSpecified(cfg, s0, events, p);
    if LoadMerged(cfg.valid, cfg.base, before).Ok? {
      MergedIsDistinct(cfg, before);
      SortedByIdLists(LoadMerged(cfg.valid, cfg.base, before).value);
    }
  }

  lemma IdOrder()
    ensures TotalPreorder(BY_ID)
  {
    forall a: Manifest, b: Manifest ensures BY_ID(a, b) || BY_ID(b, a) {
      AtMostTotal(a.id, b.id);
    }
    forall a: Manifest, b: Manifest, c: Manifest | BY_ID(a, b) && BY_ID(b, c) ensures BY_ID(a, c) {
      AtMostTransitive(a.id, b.id, c.id);
    }
  }

  lemma SortedByIdLists(c: seq<Manifest>)
    requires Distinct(c)
    ensures ListsById(c, StableSort(BY_ID, c))
  {
    IdOrder();
    StableSortMeetsDefinition(BY_ID, c);
    var ms := StableSort(BY_ID, c);
    forall i, j | 0 <= i < j < |ms| ensures Precedes(ms[i].id, ms[j].id) {
      assert BY_ID(ms[i], ms[j]);
      AtMostIsLexicographic(ms[i].id, ms[j].id);
      if ms[i].id == ms[j].id {
        SameIdOnce(c, ms, i, j);
      }
    }
  }

  /** A rearrangement of a dictionary has no id twice. */
  lemma SameIdOnce(c: seq<Manifest>, ms: seq<Manifest>, i: nat, j: nat)
    requires Distinct(c) && multiset(ms) == multiset(c)
    requires i < j < |ms|
    ensures ms[i].id != ms[j].id
  {
    if ms[i].id == ms[j].id {
      assert ms[i] in multiset(c) && ms[j] in multiset(c);
      LookupIsTheEntry(c, ms[i].id, ms[i]);
      LookupIsTheEntry(c, ms[i].id, ms[j]);
      CountedTwice(ms, i, j);
      OnceInDistinct(c, ms[i]);
    }
  }

  lemma {:induction false} OnceInDistinct(c: seq<Manifest>, m: Manifest)
    requires Distinct(c)
    ensures multiset(c)[m] <= 1
  {
    if c != [] {
      assert c == [c[0]] + c[1..];
      OnceInDistinct(c[1..], m);
      if m == c[0] {
        LookupIsTheEntry(c[1..], m.id, m);
        assert m !in multiset(c[1..]);
      }
    }
  }

  // ---------------------------------------------------------------- install and remove

  /** What an install works with: the candidate, or what was fetched for it under the pinned digest. */
  ghost predicate WorksWith(cfg: Config, op: Op, m: Manifest)
    requires op.Install?
  {
    (op.fetch == NoFetch && m == op.candidate) || (op.fetch == Fetched(m, true) && cfg.valid(m))
  }

  /** The ref can be stored: both names are usable and the id's directory can be made. */
  ghost predicate CanStore(cfg: Config, m: Manifest) {
    IsSegment(m.id) && IsSegment(m.version) && m.id !in cfg.blocked
  }

  lemma InstallableDecides(cfg: Config, op: Op, m: Manifest)
    requires op.Install?
    ensures Installable(cfg, op) == Ok(m) <==>
              cfg.valid(op.candidate) && Consents(cfg.policy, op.candidate) && WorksWith(cfg, op, m) && CanStore(cfg, m)
  {
    EnforceInstallDecides(cfg.policy, op.candidate);
    SafeDirnamesAreSegments(m.id);
    SafeDirnamesAreSegments(m.version);
  }

  /** The fetch failed or missed the digest, a name is empty, or the directory of usable names cannot be made. */
  ghost predicate InstallBreaks(cfg: Config, op: Op)
    requires op.Install?
  {
    || op.fetch == FetchFails
    || (op.fetch.Fetched? && cfg.valid(op.fetch.m) && !op.fetch.digestMatches)
    || exists m :: WorksWith(cfg, op, m)
         && (m.id == "" || m.version == "" || (IsSegment(m.id) && IsSegment(m.version) && m.id in cfg.blocked))
  }

  lemma InstallableFails(cfg: Config, op: Op)
    requires op.Install?
    ensures Installable(cfg, op) == Err(InstallFailed) <==>
              cfg.valid(op.candidate) && Consents(cfg.policy, op.candidate) && InstallBreaks(cfg, op)
  {
    EnforceInstallDecides(cfg.policy, op.candidate);
    if Effective(cfg, op).Ok? {
      var m := Effective(cfg, op).value;
      assert WorksWith(cfg, op, m);
      SafeDirnamesAreSegments(m.id);
      SafeDirnamesAreSegments(m.version);
    }
  }

  /**
   In every reachable state: an install has succeeded exactly if its candidate is valid and the policy
   consents to it, what it works with can be stored, and the local catalog loads.  A valid candidate
   that the policy does not consent to, and only such a one, is refused as against policy; what breaks the
   install itself is an install error, and every other failure a bad manifest.  Whoever is refused leaves
   the catalog alone, and whoever succeeds has put its manifest there.
   */
  lemma InstallAnswers(cfg: Config, s0: Sys, events: seq<Event>, p: nat)
    requires Returned(cfg, s0, events, p) && OpOf(cfg, s0, events, p).Install?
    ensures var op, answer := OpOf(cfg, s0, events, p), AnswerOf(cfg, s0, events, p);
            var before, left := Before(cfg, s0, events, p), Left(cfg, s0, events, p);
            && (forall ref :: answer == InstalledAs(ref) <==>
                  && cfg.valid(op.candidate) && Consents(cfg.policy, op.candidate)
                  && Load(cfg.valid, before).Ok?
                  && exists m :: WorksWith(cfg, op, m) && CanStore(cfg, m) && ref == Ref(m.id, m.version))
            && (answer == Raised(PolicyDenied) <==> cfg.valid(op.candidate) && !Consents(cfg.policy, op.candidate))
            && (answer == Raised(InstallFailed) <==>
                  cfg.valid(op.candidate) && Consents(cfg.policy, op.candidate) && InstallBreaks(cfg, op))
            && (answer.Raised? ==> left == before)
            && (answer.InstalledAs? ==> exists m ::
                  && WorksWith(cfg, op, m) && answer.ref == Ref(m.id, m.version)
                  && Load(cfg.valid, left).Ok? && Lookup(Load(cfg.valid, left).value, m.id) == Some(m))
            && (answer.InstalledAs? || answer in {Raised(PolicyDenied), Raised(BadManifest), Raised(InstallFailed)})
  {
    var op, before := OpOf(cfg, s0, events, p), Before(cfg, s0, events, p);
    AnswersAsSpecified(cfg, s0, events, p);
    EnforceInstallDecides(cfg.policy, op.candidate);
    InstallableFails(cfg, op);
    LoadDecides(cfg.valid, before, "x");
    forall m ensures Installable(cfg, op) == Ok(m) <==>
              cfg.valid(op.candidate) && Consents(cfg.policy, op.candidate) && WorksWith(cfg, op, m) && CanStore(cfg, m)
    {
      InstallableDecides(cfg, op, m);
    }
    if Installable(cfg, op).Ok? && Load(cfg.valid, before).Ok? {
      UpsertLookup(cfg, before, Installable(cfg, op).value, Installable(cfg, op).value.id);
    }
  }

  ghost predicate HasEntry(c: seq<Manifest>, id: string) {
    exists m :: IsEntry(c, m, id, "")
  }

  /** The entry that a removal leaves in the local catalog for the id it was asked to remove. */
  ghost predicate RemovalLeaves(before: seq<Manifest>, merged: seq<Manifest>, left: seq<Manifest>, id: string) {
    if HasEntry(before, id) then !HasEntry(left, id)
    else exists m :: IsEntry(merged, m, id, "") && IsEntry(left, m.(enabled := Some(false)), id, "")
  }

  lemma HasEntryIsHas(c: seq<Manifest>, id: string)
    requires Distinct(c)
    ensures HasEntry(c, id) <==> Has(c, id)
    ensures Has(c, id) ==> IsEntry(c, Lookup(c, id).value, id, "")
  {
    LookupFindsItsId(c, id);
    if Has(c, id) {
      assert IsEntry(c, Lookup(c, id).value, id, "");
    }
    if m :| IsEntry(c, m, id, "") {
      LookupIsTheEntry(c, id, m);
    }
  }

  /**
   In every reachable state: a removal has reported whether the id was in the merged catalog.  A local
   entry of that id is then gone; one that only the base catalog has is there with `enabled` false.
   The removal fails only if a file does not load or the schema refuses the disabled entry.
   */
  lemma RemoveAnswers(cfg: Config, s0: Sys, events: seq<Event>, p: nat)
    requires Returned(cfg, s0, events, p) && OpOf(cfg, s0, events, p).Remove?
    ensures var id, answer := OpOf(cfg, s0, events, p).id, AnswerOf(cfg, s0, events, p);
            var before, left := Before(cfg, s0, events, p), Left(cfg, s0, events, p);
            match LoadMerged(cfg.valid, cfg.base, before)
            case Err(e) => answer == Raised(e) && left == before
            case Ok(c) =>
              && (answer == Removed(false) <==> !HasEntry(c, id))
              && (answer == Raised(BadManifest) <==>
                    !HasEntry(Load(cfg.valid, before).value, id)
                    && exists m :: IsEntry(c, m, id, "") && !cfg.valid(m.(enabled := Some(false))))
              && (answer in {Removed(true), Removed(false), Raised(BadManifest)})
              && (answer != Removed(true) ==> left == before)
              && (answer == Removed(true) ==>
                    && Load(cfg.valid, left).Ok?
                    && RemovalLeaves(Load(cfg.valid, before).value, c, Load(cfg.valid, left).value, id))
  {
    var id, before := OpOf(cfg, s0, events, p).id, Before(cfg, s0, events, p);
    AnswersAsSpecified(cfg, s0, events, p);
    if LoadMerged(cfg.valid, cfg.base, before).Ok? {
      RemoveFileDecides(cfg, before, id);
    }
  }

  lemma RemoveFileDecides(cfg: Config, before: CatalogFile, id: string)
    requires LoadMerged(cfg.valid, cfg.base, before).Ok?
    ensures var (left, r) := RemoveFile(cfg.valid, cfg.base, before, id);
            var c, l := LoadMerged(cfg.valid, cfg.base, before).value, Load(cfg.valid, before).value;
            && (r == Ok(false) <==> !HasEntry(c, id))
            && (r == Err(BadManifest) <==>
                  !HasEntry(l, id) && exists m :: IsEntry(c, m, id, "") && !cfg.valid(m.(enabled := Some(false))))
            && r in {Ok(true), Ok(false), Err(BadManifest)}
            && (r != Ok(true) ==> left == before)
            && (r == Ok(true) ==> Load(cfg.valid, left).Ok? && RemovalLeaves(l, c, Load(cfg.valid, left).value, id))
  {
    var c, l := LoadMerged(cfg.valid, cfg.base, before).value, Load(cfg.valid, before).value;
    LoadGood(cfg.valid, before);
    MergedIsDistinct(cfg, before);
    HasEntryIsHas(c, id);
    HasEntryIsHas(l, id);
    LoadGood(cfg.valid, cfg.base);
    MergeSpec(Load(cfg.valid, cfg.base).value, l, id);
    if Has(l, id) {
      DropGood(cfg.valid, l, id);
      DropSpec(l, id, id);
      SaveLoadRoundTrip(cfg.valid, Drop(l, id));
      HasEntryIsHas(Drop(l, id), id);
    } else if Has(c, id) {
      var m := Lookup(c, id).value;
      forall n | IsEntry(c, n, id, "") ensures n == m {
        LookupIsTheEntry(c, id, n);
      }
      LookupFindsItsId(Load(cfg.valid, cfg.base).value, id);
      if cfg.valid(m.(enabled := Some(false))) {
        DisabledEntry(cfg, before, m);
      }
    }
  }

  lemma DisabledEntry(cfg: Config, before: CatalogFile, m: Manifest)
    requires Load(cfg.valid, before).Ok? && cfg.valid(m.(enabled := Some(false))) && m.id != ""
    ensures var left := UpsertFile(cfg.valid, before, m.(enabled := Some(false))).0;
            Load(cfg.valid, left).Ok? && IsEntry(Load(cfg.valid, left).value, m.(enabled := Some(false)), m.id, "")
  {
    var off := m.(enabled := Some(false));
    UpsertLookup(cfg, before, off, m.id);
    var left := UpsertFile(cfg.valid, before, off).0;
    LoadGood(cfg.valid, left);
    LookupIsTheEntry(Load(cfg.valid, left).value, m.id, off);
  }
}
