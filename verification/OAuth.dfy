/**
 The OAuth device flow (src/oauth.py, src/credential_secrets.py) over its three stores: the session
 file, the secrets store and the local catalog.  The outcome of a token request is that of section
 3.5 of RFC 8628: granted, pending ("authorization_pending", "slow_down"), or an error.

 Each operation is the list of states it passes through, one per write; a kill stops it at any of
 them.  `bound` records, per capability, the token handle that `complete` put into the catalog.
 */
module OAuth {
  import opened Wrappers
  import opened Sorting
  import opened Text
  import opened Manifests
  import opened Catalog

  datatype Secret = DeviceCode(code: string) | RefreshToken(token: string)

  datatype Session = Session(capabilityId: string, provider: string, handle: string, expiresAt: int, interval: int)

  datatype State = State(
    local: CatalogFile,
    secrets: map<string, Secret>,
    sessions: map<string, Session>,
    bound: map<string, string>)

  datatype Config = Config(valid: Schema, base: CatalogFile)

  // ---------------------------------------------------------------- handles

  const SESSION_PREFIX := "secret://oauth/session/"
  const DEVICE_SUFFIX := "/device_code"

  function DeviceHandle(sid: string): string {
    SESSION_PREFIX + sid + DEVICE_SUFFIX
  }

  function TokenHandle(provider: string, username: string, capabilityId: string): string {
    "secret://oauth/" + provider + "/" + username + "/" + capabilityId + "/refresh_token"
  }

  const PROVIDERS: set<string> := {"google", "microsoft"}

  /** What the secrets store accepts as a handle. */
  predicate IsHandle(handle: string) {
    StartsWith(handle, "secret://")
  }

  lemma HandlesAreHandles(sid: string, provider: string, username: string, capabilityId: string)
    ensures IsHandle(DeviceHandle(sid)) && IsHandle(TokenHandle(provider, username, capabilityId))
  {
    assert DeviceHandle(sid)[..9] == "secret://";
    assert TokenHandle(provider, username, capabilityId)[..9] == "secret://";
  }

  lemma DeviceHandleIsInjective(a: string, b: string)
    requires DeviceHandle(a) == DeviceHandle(b)
    ensures a == b
  {
    var n := |SESSION_PREFIX|;
    assert |a| == |b|;
    assert a == DeviceHandle(a)[n..n + |a|];
    assert b == DeviceHandle(b)[n..n + |b|];
  }

  /** Whatever the user and capability are called, a token handle is never a device-code handle. */
  lemma HandlesAreDisjoint(sid: string, provider: string, username: string, capabilityId: string)
    requires provider in PROVIDERS
    ensures TokenHandle(provider, username, capabilityId) != DeviceHandle(sid)
  {
    assert |"secret://oauth/"| == 15;
    assert TokenHandle(provider, username, capabilityId)[15] == provider[0];
    assert DeviceHandle(sid)[15] == SESSION_PREFIX[15] == 's';
  }

  function ProviderOf(capabilityId: string): Option<string> {
    if StartsWith(capabilityId, "connector.google.") then Some("google")
    else if StartsWith(capabilityId, "connector.microsoft.") then Some("microsoft")
    else None
  }

  /** Connectors are told by how their ids begin. */
  lemma ProviderDecides(id: string)
    ensures ProviderOf(id) == Some("google") <==> exists rest :: id == "connector.google." + rest
    ensures ProviderOf(id) == Some("microsoft") <==> exists rest :: id == "connector.microsoft." + rest
    ensures ProviderOf(id) in {Some("google"), Some("microsoft"), None}
  {
    StartsWithIsConcatenation(id, "connector.google.");
    StartsWithIsConcatenation(id, "connector.microsoft.");
    assert "connector.google."[10] == 'g' && "connector.microsoft."[10] == 'm';
  }

  // ---------------------------------------------------------------- start

  datatype DeviceAnswer =
    | NoDevice                                        // the request failed
    | Device(deviceCode: string, userCode: string, uri: string, expiresIn: int, interval: int)

  /** `hasClient` tells whether the provider's client id is configured; `sid` is the new session id. */
  datatype StartCall = StartCall(capabilityId: string, sid: string, hasClient: bool, now: int, answer: DeviceAnswer)

  /** The checks before anything is written. */
  function StartChecks(cfg: Config, s: State, c: StartCall): Result<()> {
    var merged :- LoadMerged(cfg.valid, cfg.base, s.local);
    match Lookup(merged, c.capabilityId)
    case None => Err(PolicyDenied)
    case Some(m) =>
      if m.requiresOauth != Some(true) || m.enabled == Some(true) then Err(PolicyDenied)
      else if ProviderOf(c.capabilityId).None? || !c.hasClient then Err(PolicyDenied)
      else match c.answer
        case NoDevice => Err(RunFailed)
        case Device(deviceCode, userCode, uri, _, _) =>
          if deviceCode == "" || userCode == "" || uri == "" then Err(RunFailed) else Ok(())
  }

  function StartTrace(cfg: Config, s: State, c: StartCall): seq<State> {
    if StartChecks(cfg, s, c).Err? then []
    else
      var s1 := s.(secrets := s.secrets[DeviceHandle(c.sid) := DeviceCode(c.answer.deviceCode)]);
      var session := Session(c.capabilityId, ProviderOf(c.capabilityId).value, DeviceHandle(c.sid),
                             c.now + c.answer.expiresIn, c.answer.interval);
      var s2 := s1.(sessions := s1.sessions[c.sid := session]);
      [s1, s2]
  }

  // ---------------------------------------------------------------- complete

  datatype TokenAnswer = Pending | Refused | Granted(refreshToken: string)

  datatype CompleteCall = CompleteCall(sid: string, hasClient: bool, now: int, username: string, answer: TokenAnswer)

  datatype Progress = StillPending | Enabled

  function CompleteChecks(s: State, c: CompleteCall): Result<Session> {
    if c.sid !in s.sessions then Err(PolicyDenied)
    else
      var session := s.sessions[c.sid];
      if c.now > session.expiresAt then Err(PolicyDenied)
      else if !IsHandle(session.handle) || session.handle !in s.secrets then Err(PolicyDenied)
      else if !s.secrets[session.handle].DeviceCode? || s.secrets[session.handle].code == "" then Err(PolicyDenied)
      else if !c.hasClient || session.provider !in PROVIDERS then Err(PolicyDenied)
      else match c.answer
        case Refused => Err(RunFailed)
        case Granted(token) => if token == "" then Err(RunFailed) else Ok(session)
        case Pending => Ok(session)
  }

  const TOKEN_NAME := "OAUTH_REFRESH_TOKEN"

  /** The entries `complete` keeps: objects not called OAUTH_REFRESH_TOKEN. */
  predicate IsOther(s: SecretItem) {
    s.SecretItem? && s.name != Some(TOKEN_NAME)
  }

  const OTHER: SecretItem -> bool := (s: SecretItem) => IsOther(s)

  function SecretItems(m: Manifest): seq<SecretItem> {
    if m.secrets.SecretList? then m.secrets.items else []
  }

  /** The manifest enabled and bound to a token handle. */
  function Bind(m: Manifest, handle: string): Manifest {
    m.(enabled := Some(true),
       secrets := SecretList(Filter(OTHER, SecretItems(m)) + [SecretItem(Some(TOKEN_NAME), Some(handle), false)]))
  }

  /** The manifest that a granted completion would write. */
  function ToBind(cfg: Config, s: State, session: Session, handle: string): Result<Manifest> {
    var merged :- LoadMerged(cfg.valid, cfg.base, s.local);
    match Lookup(merged, session.capabilityId)
    case None => Err(PolicyDenied)
    case Some(m) => if cfg.valid(Bind(m, handle)) && m.id != "" then Ok(Bind(m, handle)) else Err(BadManifest)
  }

  function CompleteResult(cfg: Config, s: State, c: CompleteCall): Result<Progress> {
    var session :- CompleteChecks(s, c);
    if c.answer.Pending? then Ok(StillPending)
    else
      var _ :- ToBind(cfg, s, session, TokenHandle(session.provider, c.username, session.capabilityId));
      Ok(Enabled)
  }

  /** The writes of a granted completion: store the token, bind it, then clean the session up. */
  function RedeemTrace(cfg: Config, s: State, sid: string, session: Session, handle: string, token: string): seq<State> {
    var s1 := s.(secrets := s.secrets[handle := RefreshToken(token)]);
    match ToBind(cfg, s, session, handle)
    case Err(_) => [s1]
    case Ok(m) =>
      var s2 := s1.(local := UpsertFile(cfg.valid, s1.local, m).0, bound := s1.bound[m.id := handle]);
      var s3 := s2.(secrets := s2.secrets - {session.handle});
      var s4 := s3.(sessions := s3.sessions - {sid});
      [s1, s2, s3, s4]
  }

  function CompleteTrace(cfg: Config, s: State, c: CompleteCall): seq<State> {
    match CompleteChecks(s, c)
    case Err(_) => []
    case Ok(session) =>
      if !c.answer.Granted? then []
      else
        var handle := TokenHandle(session.provider, c.username, session.capabilityId);
        RedeemTrace(cfg, s, c.sid, session, handle, c.answer.refreshToken)
  }

  // ---------------------------------------------------------------- runs

  /** `stop` is the number of writes after which the process is killed, if it is. */
  datatype Event =
    | Start(start: StartCall, stop: Option<nat>)
    | Complete(complete: CompleteCall, stop: Option<nat>)
    | FactoryReset(stop: Option<nat>)

  /** The catalog goes first, the session file (under tmp) last; secrets stay. */
  function ResetTrace(s: State): seq<State> {
    var s1 := s.(local := Missing, bound := map[]);
    [s1, s1.(sessions := map[])]
  }

  function Trace(cfg: Config, s: State, e: Event): seq<State> {
    match e
    case Start(c, _) => StartTrace(cfg, s, c)
    case Complete(c, _) => CompleteTrace(cfg, s, c)
    case FactoryReset(_) => ResetTrace(s)
  }

  /** The state after some writes of a trace. */
  function Reached(s: State, trace: seq<State>, stop: Option<nat>): State {
    var n := if stop.Some? && stop.value < |trace| then stop.value else |trace|;
    if n == 0 then s else trace[n - 1]
  }

  function After(cfg: Config, s: State, e: Event): State {
    Reached(s, Trace(cfg, s, e), e.stop)
  }

  function Run(cfg: Config, s: State, events: seq<Event>): State
    decreases |events|
  {
    if events == [] then s else Run(cfg, After(cfg, s, events[0]), events[1..])
  }

  // ---------------------------------------------------------------- reference integrity

  ghost predicate SessionOk(sid: string, session: Session) {
    && session.handle == DeviceHandle(sid)
    && ProviderOf(session.capabilityId) == Some(session.provider)
  }

  /** How many entries carry the token's name. */
  predicate IsToken(s: SecretItem) {
    s.SecretItem? && s.name == Some(TOKEN_NAME)
  }

  const TOKEN: SecretItem -> bool := (s: SecretItem) => IsToken(s)

  /** The manifest has exactly one token entry, it refers to `handle`, and it is enabled. */
  ghost predicate BoundTo(m: Manifest, handle: string) {
    && m.enabled == Some(true)
    && Filter(TOKEN, SecretItems(m)) == [SecretItem(Some(TOKEN_NAME), Some(handle), false)]
  }

  ghost predicate BindingOk(cfg: Config, s: State, id: string)
    requires id in s.bound
  {
    && ProviderOf(id).Some?
    && (exists username :: s.bound[id] == TokenHandle(ProviderOf(id).value, username, id))
    && s.bound[id] in s.secrets && s.secrets[s.bound[id]].RefreshToken?
    && Load(cfg.valid, s.local).Ok?
    && var m := Lookup(Load(cfg.valid, s.local).value, id);
       m.Some? && BoundTo(m.value, s.bound[id])
  }

  ghost predicate Integrity(cfg: Config, s: State) {
    && (forall sid :: sid in s.sessions ==> SessionOk(sid, s.sessions[sid]))
    && (forall id :: id in s.bound ==> BindingOk(cfg, s, id))
  }

  lemma {:induction false} OthersHaveNoToken(items: seq<SecretItem>)
    ensures Filter(TOKEN, Filter(OTHER, items)) == []
  {
    if items != [] {
      OthersHaveNoToken(items[1..]);
      FilterAppend(TOKEN, if OTHER(items[0]) then [items[0]] else [], Filter(OTHER, items[1..]));
    }
  }

  lemma BindBinds(m: Manifest, handle: string)
    ensures BoundTo(Bind(m, handle), handle)
    ensures Filter(OTHER, SecretItems(Bind(m, handle))) == Filter(OTHER, SecretItems(m))
  {
    var token := SecretItem(Some(TOKEN_NAME), Some(handle), false);
    var others := Filter(OTHER, SecretItems(m));
    FilterAppend(TOKEN, others, [token]);
    OthersHaveNoToken(SecretItems(m));
    FilterAppend(OTHER, others, [token]);
    FilterTwice(SecretItems(m));
  }

  /** The entries of a bound manifest: the token, and of the old ones the objects under other names. */
  lemma BoundEntries(m: Manifest, handle: string, item: SecretItem)
    ensures item in SecretItems(Bind(m, handle)) <==>
              || item == SecretItem(Some("OAUTH_REFRESH_TOKEN"), Some(handle), false)
              || (item.SecretItem? && item.name != Some("OAUTH_REFRESH_TOKEN") && item in SecretItems(m))
  {
  }

  lemma {:induction false} FilterTwice(items: seq<SecretItem>)
    ensures Filter(OTHER, Filter(OTHER, items)) == Filter(OTHER, items)
  {
    if items != [] {
      FilterTwice(items[1..]);
      FilterAppend(OTHER, if OTHER(items[0]) then [items[0]] else [], Filter(OTHER, items[1..]));
    }
  }

  /** A change of the secrets that keeps every bound token keeps the bindings. */
  lemma SecretsKeepIntegrity(cfg: Config, s: State, s': State)
    requires Integrity(cfg, s)
    requires s'.local == s.local && s'.bound == s.bound
    requires forall sid :: sid in s'.sessions ==> SessionOk(sid, s'.sessions[sid])
    requires forall id :: id in s.bound ==> s.bound[id] in s'.secrets && s'.secrets[s.bound[id]].RefreshToken?
    ensures Integrity(cfg, s')
  {
    forall id | id in s'.bound ensures BindingOk(cfg, s', id) {
      assert BindingOk(cfg, s, id);
    }
  }

  /** Bound tokens are stored, and under other handles than any device code. */
  lemma BoundTokensAreApart(cfg: Config, s: State, sid: string)
    requires Integrity(cfg, s)
    ensures forall id :: id in s.bound ==>
              s.bound[id] in s.secrets && s.secrets[s.bound[id]].RefreshToken? && s.bound[id] != DeviceHandle(sid)
  {
    forall id | id in s.bound
      ensures s.bound[id] in s.secrets && s.secrets[s.bound[id]].RefreshToken? && s.bound[id] != DeviceHandle(sid)
    {
      assert BindingOk(cfg, s, id);
      var username :| s.bound[id] == TokenHandle(ProviderOf(id).value, username, id);
      HandlesAreDisjoint(sid, ProviderOf(id).value, username, id);
    }
  }

  lemma StartKeepsIntegrity(cfg: Config, s: State, c: StartCall, k: nat)
    requires Integrity(cfg, s) && k < |StartTrace(cfg, s, c)|
    ensures Integrity(cfg, StartTrace(cfg, s, c)[k])
  {
    BoundTokensAreApart(cfg, s, c.sid);
    SecretsKeepIntegrity(cfg, s, StartTrace(cfg, s, c)[k]);
  }

  /** The write that binds the token: the token is already stored. */
  lemma BindKeepsIntegrity(cfg: Config, s1: State, session: Session, m: Manifest, username: string)
    requires Integrity(cfg, s1) && ProviderOf(session.capabilityId) == Some(session.provider)
    requires var handle := TokenHandle(session.provider, username, session.capabilityId);
             && handle in s1.secrets && s1.secrets[handle].RefreshToken?
             && ToBind(cfg, s1, session, handle) == Ok(m)
    ensures m.id == session.capabilityId
    ensures var handle := TokenHandle(session.provider, username, session.capabilityId);
            Integrity(cfg, s1.(local := UpsertFile(cfg.valid, s1.local, m).0, bound := s1.bound[m.id := handle]))
  {
    var handle := TokenHandle(session.provider, username, session.capabilityId);
    var s2 := s1.(local := UpsertFile(cfg.valid, s1.local, m).0, bound := s1.bound[m.id := handle]);
    var l := Load(cfg.valid, s1.local).value;
    var merged := LoadMerged(cfg.valid, cfg.base, s1.local).value;
    LookupFindsItsId(merged, session.capabilityId);
    BindBinds(Lookup(merged, session.capabilityId).value, handle);
    LoadGood(cfg.valid, s1.local);
    PutGood(cfg.valid, l, m);
    SaveLoadRoundTrip(cfg.valid, Put(l, m));
    forall id | id in s2.bound ensures BindingOk(cfg, s2, id) {
      PutSpec(l, m, id);
      if id != m.id {
        assert BindingOk(cfg, s1, id);
      }
    }
  }

  lemma CompleteKeepsIntegrity(cfg: Config, s: State, c: CompleteCall, k: nat)
    requires Integrity(cfg, s) && k < |CompleteTrace(cfg, s, c)|
    ensures Integrity(cfg, CompleteTrace(cfg, s, c)[k])
  {
    var session := CompleteChecks(s, c).value;
    assert SessionOk(c.sid, session);
    RedeemKeepsIntegrity(cfg, s, c.sid, session, c.username, c.answer.refreshToken, k);
  }

  lemma RedeemKeepsIntegrity(cfg: Config, s: State, sid: string, session: Session, username: string, token: string, k: nat)
    requires Integrity(cfg, s) && SessionOk(sid, session)
    requires var handle := TokenHandle(session.provider, username, session.capabilityId);
             k < |RedeemTrace(cfg, s, sid, session, handle, token)|
    ensures var handle := TokenHandle(session.provider, username, session.capabilityId);
            Integrity(cfg, RedeemTrace(cfg, s, sid, session, handle, token)[k])
  {
    var handle := TokenHandle(session.provider, username, session.capabilityId);
    var trace := RedeemTrace(cfg, s, sid, session, handle, token);
    BoundTokensAreApart(cfg, s, sid);
    SecretsKeepIntegrity(cfg, s, trace[0]);
    if k > 0 {
      var m := ToBind(cfg, s, session, handle).value;
      assert ToBind(cfg, trace[0], session, handle) == Ok(m);
      BindKeepsIntegrity(cfg, trace[0], session, m, username);
      CleanUpKeepsIntegrity(cfg, trace[1], sid, session.handle);
    }
  }

  lemma CleanUpKeepsIntegrity(cfg: Config, s2: State, sid: string, handle: string)
    requires Integrity(cfg, s2) && handle == DeviceHandle(sid)
    ensures var s3 := s2.(secrets := s2.secrets - {handle});
            Integrity(cfg, s3) && Integrity(cfg, s3.(sessions := s3.sessions - {sid}))
  {
    var s3 := s2.(secrets := s2.secrets - {handle});
    BoundTokensAreApart(cfg, s2, sid);
    SecretsKeepIntegrity(cfg, s2, s3);
    SecretsKeepIntegrity(cfg, s2, s3.(sessions := s3.sessions - {sid}));
  }

  lemma EventKeepsIntegrity(cfg: Config, s: State, e: Event)
    requires Integrity(cfg, s)
    ensures Integrity(cfg, After(cfg, s, e))
  {
    var trace := Trace(cfg, s, e);
    var n := if e.stop.Some? && e.stop.value < |trace| then e.stop.value else |trace|;
    if n > 0 {
      match e
      case Start(c, _) => StartKeepsIntegrity(cfg, s, c, n - 1);
      case Complete(c, _) => CompleteKeepsIntegrity(cfg, s, c, n - 1);
      case FactoryReset(_) =>
    }
  }

  /**
   Over every run, with kills between any two writes: each token reference that `complete` bound into
   the catalog is there and resolves in the secrets store.
   */
  lemma {:induction false} BoundReferencesResolve(cfg: Config, s: State, events: seq<Event>)
    requires Integrity(cfg, s)
    ensures Integrity(cfg, Run(cfg, s, events))
    decreases |events|
  {
    if events != [] {
      EventKeepsIntegrity(cfg, s, events[0]);
      BoundReferencesResolve(cfg, After(cfg, s, events[0]), events[1..]);
    }
  }

  lemma ConnectorNames(id: string)
    requires ProviderOf(id).Some?
    ensures exists rest :: id == "connector." + ProviderOf(id).value + "." + rest
  {
    var head := "connector." + ProviderOf(id).value + ".";
    assert head == if ProviderOf(id) == Some("google") then "connector.google." else "connector.microsoft.";
    StartsWithIsConcatenation(id, head);
  }

  /** A bound reference reads provider, user and capability, the provider being that of the connector. */
  lemma BoundHandlesRead(cfg: Config, s: State, events: seq<Event>, id: string)
    requires Integrity(cfg, s) && id in Run(cfg, s, events).bound
    ensures exists provider, username ::
              && Run(cfg, s, events).bound[id] == "secret://oauth/" + provider + "/" + username + "/" + id + "/refresh_token"
              && provider in {"google", "microsoft"} && NamesProvider(id, provider)
  {
    BoundReferencesResolve(cfg, s, events);
    assert BindingOk(cfg, Run(cfg, s, events), id);
    var handle, provider := Run(cfg, s, events).bound[id], ProviderOf(id).value;
    var username :| handle == TokenHandle(provider, username, id);
    ConnectorNames(id);
    assert handle == "secret://oauth/" + provider + "/" + username + "/" + id + "/refresh_token";
  }

  ghost predicate NamesProvider(id: string, provider: string) {
    exists rest :: id == "connector." + provider + "." + rest
  }

  // ---------------------------------------------------------------- live sessions and their secrets

  ghost predicate SessionsUsable(s: State) {
    forall sid :: sid in s.sessions ==>
      SessionOk(sid, s.sessions[sid]) && DeviceHandle(sid) in s.secrets && s.secrets[DeviceHandle(sid)].DeviceCode?
  }

  /** A completion killed after the device code is deleted and before the session is: the one bad moment. */
  predicate BadMoment(cfg: Config, s: State, e: Event) {
    e.Complete? && e.stop == Some(3) && CompleteResult(cfg, s, e.complete) == Ok(Enabled)
  }

  /** Live sessions are all usable after an event exactly unless it is that moment. */
  lemma UsableUnlessStranded(cfg: Config, s: State, e: Event)
    requires SessionsUsable(s)
    ensures SessionsUsable(After(cfg, s, e)) <==> !BadMoment(cfg, s, e)
  {
    if BadMoment(cfg, s, e) {
      var session := CompleteChecks(s, e.complete).value;
      assert |CompleteTrace(cfg, s, e.complete)| == 4;
      assert e.complete.sid in After(cfg, s, e).sessions && session.handle !in After(cfg, s, e).secrets;
    } else {
      EventKeepsUsable(cfg, s, e);
    }
  }

  lemma EventKeepsUsable(cfg: Config, s: State, e: Event)
    requires SessionsUsable(s) && !BadMoment(cfg, s, e)
    ensures SessionsUsable(After(cfg, s, e))
  {
    var s' := After(cfg, s, e);
    match e
    case FactoryReset(_) =>
    case Start(c, _) =>
    case Complete(c, _) =>
      if s' != s {
        var session := CompleteChecks(s, c).value;
        var handle := TokenHandle(session.provider, c.username, session.capabilityId);
        forall sid | sid in s.sessions
          ensures DeviceHandle(sid) != handle
          ensures DeviceHandle(sid) == DeviceHandle(c.sid) ==> sid == c.sid
        {
          HandlesAreDisjoint(sid, session.provider, c.username, session.capabilityId);
          if DeviceHandle(sid) == DeviceHandle(c.sid) {
            DeviceHandleIsInjective(sid, c.sid);
          }
        }
        RedeemKeepsUsable(cfg, s, c.sid, session, handle, c.answer.refreshToken);
      }
  }

  /** Storing the token, binding it, and both clean-up steps taken together. */
  lemma RedeemKeepsUsable(cfg: Config, s: State, sid: string, session: Session, handle: string, token: string)
    requires SessionsUsable(s) && SessionOk(sid, session)
    requires forall other :: other in s.sessions ==> DeviceHandle(other) != handle
    requires forall other :: other in s.sessions && DeviceHandle(other) == DeviceHandle(sid) ==> other == sid
    ensures var trace := RedeemTrace(cfg, s, sid, session, handle, token);
            forall k :: 0 <= k < |trace| && k != 2 ==> SessionsUsable(trace[k])
  {
    var trace := RedeemTrace(cfg, s, sid, session, handle, token);
    assert SessionsUsable(trace[0]);
    if |trace| > 1 {
      assert SessionsUsable(trace[1]);
      assert SessionsUsable(trace[3]);
    }
  }

  predicate NeverStranded(cfg: Config, s: State, events: seq<Event>)
    decreases |events|
  {
    events == [] || (!BadMoment(cfg, s, events[0]) && NeverStranded(cfg, After(cfg, s, events[0]), events[1..]))
  }

  /** Unless a completion is killed at that one moment, every live session keeps its device code. */
  lemma {:induction false} LiveSessionsStayUsable(cfg: Config, s: State, events: seq<Event>)
    requires SessionsUsable(s) && NeverStranded(cfg, s, events)
    ensures SessionsUsable(Run(cfg, s, events))
    decreases |events|
  {
    if events != [] {
      EventKeepsUsable(cfg, s, events[0]);
      LiveSessionsStayUsable(cfg, After(cfg, s, events[0]), events[1..]);
    }
  }

  /** At that moment, for every call that gets so far, it is lost, and the session can never complete. */
  lemma BadMomentStrandsTheSession(cfg: Config, s: State, c: CompleteCall, again: CompleteCall)
    requires Integrity(cfg, s) && CompleteResult(cfg, s, c) == Ok(Enabled)
    requires again.sid == c.sid
    ensures var s' := After(cfg, s, Complete(c, Some(3)));
            && c.sid in s'.sessions && !SessionsUsable(s')
            && CompleteResult(cfg, s', again) == Err(PolicyDenied)
            && After(cfg, s', Complete(again, None)) == s'
  {
    var session := CompleteChecks(s, c).value;
    assert SessionOk(c.sid, session);
    var s' := After(cfg, s, Complete(c, Some(3)));
    assert s'.sessions[c.sid] == session && session.handle !in s'.secrets;
  }

  // ---------------------------------------------------------------- completion over whole runs

  /** Anything but a grant changes nothing. */
  lemma PollsChangeNothing(cfg: Config, s: State, c: CompleteCall, stop: Option<nat>)
    requires !c.answer.Granted?
    ensures After(cfg, s, Complete(c, stop)) == s
  {
  }

  ghost predicate IsPoll(e: Event) {
    e.Complete? && !e.complete.answer.Granted?
  }

  /** Any number of pending polls before a completion leave the same state as none. */
  lemma {:induction false} PollingIsTransparent(cfg: Config, s: State, polls: seq<Event>, e: Event)
    requires forall p :: p in polls ==> IsPoll(p)
    ensures Run(cfg, s, polls + [e]) == Run(cfg, s, [e])
    decreases |polls|
  {
    if polls == [] {
      assert polls + [e] == [e];
    } else {
      assert IsPoll(polls[0]);
      PollsChangeNothing(cfg, s, polls[0].complete, polls[0].stop);
      assert (polls + [e])[1..] == polls[1..] + [e];
      PollingIsTransparent(cfg, s, polls[1..], e);
    }
  }

  /** Binding a token to a capability that the merged catalog holds cannot fail. */
  lemma BindingSucceeds(cfg: Config, s: State, session: Session, handle: string)
    requires SchemaLike(cfg.valid) && handle != ""
    requires LoadMerged(cfg.valid, cfg.base, s.local).Ok?
    requires Has(LoadMerged(cfg.valid, cfg.base, s.local).value, session.capabilityId)
    ensures ToBind(cfg, s, session, handle).Ok?
  {
    var base, local := Load(cfg.valid, cfg.base).value, Load(cfg.valid, s.local).value;
    LookupFindsItsId(Merge(base, local), session.capabilityId);
    LoadGood(cfg.valid, cfg.base);
    LoadGood(cfg.valid, s.local);
    MergeMembers(base, local);
    BindIsValid(cfg, Lookup(Merge(base, local), session.capabilityId).value, handle);
  }

  // ---- what start and complete come to

  /** The capability is an OAuth connector that is not enabled, its client is configured, and the device answer is usable. */
  ghost predicate Startable(merged: seq<Manifest>, c: StartCall) {
    && (exists m :: m in merged && m.id == c.capabilityId && m.requiresOauth == Some(true) && m.enabled != Some(true))
    && (exists rest :: c.capabilityId == "connector.google." + rest || c.capabilityId == "connector.microsoft." + rest)
    && c.hasClient
    && c.answer.Device? && c.answer.deviceCode != "" && c.answer.userCode != "" && c.answer.uri != ""
  }

  /**
   `start` succeeds exactly for such a capability, and then has stored the device code and a session that
   expires when the answer says; a useless answer is a run error, anything else against policy, and both
   leave everything as it was.
   */
  lemma StartDecides(cfg: Config, s: State, c: StartCall)
    requires LoadMerged(cfg.valid, cfg.base, s.local).Ok?
    ensures var merged, r, after := LoadMerged(cfg.valid, cfg.base, s.local).value, StartChecks(cfg, s, c), After(cfg, s, Start(c, None));
            var usable := c.(answer := Device("d", "u", "v", 0, 0));
            && (r.Ok? <==> Startable(merged, c))
            && (r == Err(RunFailed) <==> Startable(merged, usable) && !Startable(merged, c))
            && (r.Ok? || r == Err(RunFailed) || r == Err(PolicyDenied))
            && (r.Err? ==> after == s)
            && (r.Ok? ==>
                  var handle := "secret://oauth/session/" + c.sid + "/device_code";
                  after == s.(secrets := s.secrets[handle := DeviceCode(c.answer.deviceCode)],
                              sessions := s.sessions[c.sid := StartedSession(c)]))
  {
    var merged := LoadMerged(cfg.valid, cfg.base, s.local).value;
    ProviderDecides(c.capabilityId);
    MergedEntries(cfg, s.local, c.capabilityId);
    assert DeviceHandle(c.sid) == "secret://oauth/session/" + c.sid + "/device_code";
    assert (exists rest :: c.capabilityId == "connector.google." + rest || c.capabilityId == "connector.microsoft." + rest) <==>
      || (exists rest :: c.capabilityId == "connector.google." + rest)
      || (exists rest :: c.capabilityId == "connector.microsoft." + rest);
  }

  function StartedSession(c: StartCall): Session
    requires c.answer.Device?
  {
    Session(c.capabilityId, if StartsWith(c.capabilityId, "connector.google.") then "google" else "microsoft",
            "secret://oauth/session/" + c.sid + "/device_code", c.now + c.answer.expiresIn, c.answer.interval)
  }

  /** What `Lookup` finds in the merged catalog is its one entry with that id. */
  lemma MergedEntries(cfg: Config, local: CatalogFile, id: string)
    requires LoadMerged(cfg.valid, cfg.base, local).Ok?
    ensures var merged := LoadMerged(cfg.valid, cfg.base, local).value;
            forall m :: Lookup(merged, id) == Some(m) <==> m in merged && m.id == id
  {
    LoadGood(cfg.valid, cfg.base);
    LoadGood(cfg.valid, local);
    MergeSpec(Load(cfg.valid, cfg.base).value, Load(cfg.valid, local).value, id);
    forall m ensures Lookup(LoadMerged(cfg.valid, cfg.base, local).value, id) == Some(m)
                     <==> m in LoadMerged(cfg.valid, cfg.base, local).value && m.id == id
    {
      LookupIsTheEntry(LoadMerged(cfg.valid, cfg.base, local).value, id, m);
    }
  }

  /** The session is known and not expired, its device code is stored, and its provider's client is configured. */
  ghost predicate Redeemable(s: State, c: CompleteCall) {
    && c.sid in s.sessions
    && var session := s.sessions[c.sid];
       && c.now <= session.expiresAt
       && "secret://" <= session.handle && session.handle in s.secrets
       && s.secrets[session.handle].DeviceCode? && s.secrets[session.handle].code != ""
       && c.hasClient && (session.provider == "google" || session.provider == "microsoft")
  }

  /**
   What `complete` answers: pending or a run error as the token endpoint says, but only for a session that
   can be redeemed; enabled if besides the endpoint grants a token and the capability can be bound to it.
   */
  lemma CompleteDecides(cfg: Config, s: State, c: CompleteCall)
    ensures var r := CompleteResult(cfg, s, c);
            && (r == Ok(StillPending) <==> Redeemable(s, c) && c.answer == Pending)
            && (r == Ok(Enabled) ==> Redeemable(s, c) && c.answer.Granted? && c.answer.refreshToken != "")
            && (Redeemable(s, c) && (c.answer == Refused || c.answer == Granted("")) ==> r == Err(RunFailed))
            && (r == Err(RunFailed) ==> Redeemable(s, c) && (c.answer == Refused || c.answer == Granted("")))
            && (!Redeemable(s, c) ==> r == Err(PolicyDenied))
            && r in {Ok(StillPending), Ok(Enabled), Err(PolicyDenied), Err(RunFailed), Err(BadManifest)}
            && (Redeemable(s, c) && c.answer.Granted? && c.answer.refreshToken != "" && LoadMerged(cfg.valid, cfg.base, s.local).Ok? ==>
                  var merged, id := LoadMerged(cfg.valid, cfg.base, s.local).value, s.sessions[c.sid].capabilityId;
                  && (r == Err(PolicyDenied) <==> forall m :: m in merged ==> m.id != id)
                  && (SchemaLike(cfg.valid) ==> (r == Ok(Enabled) <==> exists m :: m in merged && m.id == id)))
  {
    LoadDecides(cfg.valid, cfg.base, "x");
    LoadDecides(cfg.valid, s.local, "x");
    if Redeemable(s, c) && c.answer.Granted? && LoadMerged(cfg.valid, cfg.base, s.local).Ok? {
      var session := s.sessions[c.sid];
      MergedEntries(cfg, s.local, session.capabilityId);
      HandlesAreHandles(c.sid, session.provider, c.username, session.capabilityId);
      var handle := TokenHandle(session.provider, c.username, session.capabilityId);
      if SchemaLike(cfg.valid) && Has(LoadMerged(cfg.valid, cfg.base, s.local).value, session.capabilityId) {
        BindingSucceeds(cfg, s, session, handle);
      }
      LookupFindsItsId(LoadMerged(cfg.valid, cfg.base, s.local).value, session.capabilityId);
    }
  }

  /** Once its time is over, a session is refused whatever the endpoint would say, and nothing changes. */
  lemma ExpiredIsRefused(cfg: Config, s: State, c: CompleteCall, stop: Option<nat>)
    requires c.sid in s.sessions && c.now > s.sessions[c.sid].expiresAt
    ensures CompleteResult(cfg, s, c) == Err(PolicyDenied)
    ensures After(cfg, s, Complete(c, stop)) == s
  {
    CompleteDecides(cfg, s, c);
  }

  /**
   After `start`, a grant completes the session exactly if it comes in time, whatever number of pending
   polls came first, and a late one is refused.
   */
  lemma StartThenGrant(cfg: Config, s: State, c: StartCall, g: CompleteCall, polls: seq<Event>)
    requires SchemaLike(cfg.valid)
    requires StartChecks(cfg, s, c).Ok?
    requires g.sid == c.sid && g.answer.Granted? && g.answer.refreshToken != "" && g.hasClient
    requires forall p :: p in polls ==> IsPoll(p)
    ensures var s1 := After(cfg, s, Start(c, None));
            var end := Run(cfg, s1, polls + [Complete(g, None)]);
            && end == Run(cfg, s1, [Complete(g, None)])
            && if g.now <= c.now + c.answer.expiresIn
               then CompleteResult(cfg, s1, g) == Ok(Enabled) && c.sid !in end.sessions
               else CompleteResult(cfg, s1, g) == Err(PolicyDenied) && end == s1
  {
    var s1 := After(cfg, s, Start(c, None));
    PollingIsTransparent(cfg, s1, polls, Complete(g, None));
    RunOne(cfg, s1, Complete(g, None));
    if g.now <= c.now + c.answer.expiresIn {
      GrantCompletes(cfg, s, c, g);
      CompletionConsumes(cfg, s1, g);
    } else {
      ExpiredIsRefused(cfg, s1, g, None);
    }
  }

  lemma GrantCompletes(cfg: Config, s: State, c: StartCall, g: CompleteCall)
    requires SchemaLike(cfg.valid)
    requires StartChecks(cfg, s, c).Ok?
    requires g.sid == c.sid && g.answer.Granted? && g.answer.refreshToken != "" && g.hasClient
    requires g.now <= c.now + c.answer.expiresIn
    ensures CompleteResult(cfg, After(cfg, s, Start(c, None)), g) == Ok(Enabled)
  {
    var s1 := After(cfg, s, Start(c, None));
    var session := s1.sessions[c.sid];
    HandlesAreHandles(c.sid, session.provider, g.username, session.capabilityId);
    assert CompleteChecks(s1, g) == Ok(session);
    BindingSucceeds(cfg, s1, session, TokenHandle(session.provider, g.username, session.capabilityId));
  }

  // ---- where sessions come from, and how long they serve

  lemma {:induction false} RunSplit(cfg: Config, s: State, events: seq<Event>, n: nat)
    requires n < |events|
    ensures Run(cfg, s, events[..n + 1]) == After(cfg, Run(cfg, s, events[..n]), events[n])
    decreases n
  {
    var head := events[..n + 1];
    if n == 0 {
      assert head == [events[0]];
      RunOne(cfg, s, events[0]);
    } else {
      assert head[1..] == events[1..][..n] && events[..n][1..] == events[1..][..n - 1];
      RunSplit(cfg, After(cfg, s, events[0]), events[1..], n - 1);
    }
  }

  /** Event `j` was a successful start that made this session. */
  ghost predicate StartedAt(cfg: Config, s: State, events: seq<Event>, j: int, sid: string, session: Session) {
    && 0 <= j < |events| && events[j].Start? && events[j].start.sid == sid
    && StartChecks(cfg, Run(cfg, s, events[..j]), events[j].start).Ok?
    && session == StartedSession(events[j].start)
  }

  /** Every session of a run was made by one of its starts. */
  lemma {:induction false} SessionsWereStarted(cfg: Config, s: State, events: seq<Event>, n: nat, sid: string)
    requires s.sessions == map[] && n <= |events|
    requires sid in Run(cfg, s, events[..n]).sessions
    ensures exists j :: 0 <= j < n && StartedAt(cfg, s, events, j, sid, Run(cfg, s, events[..n]).sessions[sid])
    decreases n
  {
    if n > 0 {
      RunSplit(cfg, s, events, n - 1);
      var before, e := Run(cfg, s, events[..n - 1]), events[n - 1];
      var session := After(cfg, before, e).sessions[sid];
      if sid in before.sessions && before.sessions[sid] == session {
        SessionsWereStarted(cfg, s, events, n - 1, sid);
      } else {
        SessionIsNew(cfg, before, e, sid);
        assert StartedAt(cfg, s, events, n - 1, sid, session);
      }
    }
  }

  lemma SessionIsNew(cfg: Config, s: State, e: Event, sid: string)
    requires sid in After(cfg, s, e).sessions
    requires sid !in s.sessions || s.sessions[sid] != After(cfg, s, e).sessions[sid]
    ensures e.Start? && e.start.sid == sid && StartChecks(cfg, s, e.start).Ok?
    ensures After(cfg, s, e).sessions[sid] == StartedSession(e.start)
  {
    if e.Start? && StartChecks(cfg, s, e.start).Ok? {
      assert DeviceHandle(e.start.sid) == "secret://oauth/session/" + e.start.sid + "/device_code";
    }
  }

  /**
   Over every run that begins without sessions, with kills at any write: whenever a completion writes
   anything, a start of that very run made its session, and it comes before that session's end.
   */
  lemma CompletionsComeInTime(cfg: Config, s: State, events: seq<Event>, k: nat)
    requires s.sessions == map[] && k < |events| && events[k].Complete?
    requires Run(cfg, s, events[..k + 1]) != Run(cfg, s, events[..k])
    ensures exists j :: 0 <= j < k && events[j].Start? && events[j].start.sid == events[k].complete.sid
              && StartChecks(cfg, Run(cfg, s, events[..j]), events[j].start).Ok?
              && events[k].complete.now <= events[j].start.now + events[j].start.answer.expiresIn
  {
    var before, c := Run(cfg, s, events[..k]), events[k].complete;
    RunSplit(cfg, s, events, k);
    assert CompleteChecks(before, c).Ok?;
    if c.now > before.sessions[c.sid].expiresAt {
      ExpiredIsRefused(cfg, before, c, events[k].stop);
    }
    SessionsWereStarted(cfg, s, events, k, c.sid);
    var j :| 0 <= j < k && StartedAt(cfg, s, events, j, c.sid, before.sessions[c.sid]);
    assert before.sessions[c.sid].expiresAt == events[j].start.now + events[j].start.answer.expiresIn;
  }

  lemma RunOne(cfg: Config, s: State, e: Event)
    ensures Run(cfg, s, [e]) == After(cfg, s, e)
  {
    assert [e][1..] == [];
  }

  lemma CompletionConsumes(cfg: Config, s: State, c: CompleteCall)
    requires CompleteResult(cfg, s, c) == Ok(Enabled)
    ensures c.sid !in After(cfg, s, Complete(c, None)).sessions
  {
    assert |CompleteTrace(cfg, s, c)| == 4;
  }

  lemma {:induction false} MergeMembers(base: seq<Manifest>, local: seq<Manifest>)
    ensures forall m :: m in Merge(base, local) ==> m in base || m in local
    decreases |local|
  {
    if local != [] {
      PutMembers(base, local[0]);
      MergeMembers(Put(base, local[0]), local[1..]);
    }
  }

  lemma BindIsValid(cfg: Config, m: Manifest, handle: string)
    requires SchemaLike(cfg.valid) && cfg.valid(m) && handle != ""
    ensures cfg.valid(Bind(m, handle))
  {
    var items := Filter(OTHER, SecretItems(m)) + [SecretItem(Some(TOKEN_NAME), Some(handle), false)];
    forall x | x in items ensures IsReference(x) {
    }
    assert cfg.valid(m.(enabled := Some(true)));
    assert Bind(m, handle) == m.(enabled := Some(true)).(secrets := SecretList(items));
  }

  /** A session that is gone stays gone until a new start under the same id. */
  lemma {:induction false} ConsumedStaysConsumed(cfg: Config, s: State, events: seq<Event>, sid: string)
    requires sid !in s.sessions
    requires forall e :: e in events ==> !(e.Start? && e.start.sid == sid)
    ensures sid !in Run(cfg, s, events).sessions
    decreases |events|
  {
    if events != [] {
      assert events[0] in events;
      ConsumedStaysConsumed(cfg, After(cfg, s, events[0]), events[1..], sid);
    }
  }

  /** A consumed session is refused, whatever happened in between, and the refusal writes nothing. */
  lemma ConsumedIsRefused(cfg: Config, s: State, c: CompleteCall, events: seq<Event>, again: CompleteCall)
    requires CompleteResult(cfg, s, c) == Ok(Enabled) && again.sid == c.sid
    requires forall e :: e in events ==> !(e.Start? && e.start.sid == c.sid)
    ensures var s' := Run(cfg, After(cfg, s, Complete(c, None)), events);
            CompleteResult(cfg, s', again) == Err(PolicyDenied) && CompleteTrace(cfg, s', again) == []
  {
    var s1 := After(cfg, s, Complete(c, None));
    assert c.sid !in s1.sessions;
    ConsumedStaysConsumed(cfg, s1, events, c.sid);
  }

  lemma UpperToken()
    ensures StartsWith(Upper(TOKEN_NAME), "OAUTH_")
  {
    assert Upper(TOKEN_NAME)[..6] == "OAUTH_";
  }

  /**
   However many sessions have completed for a capability, its local manifest has exactly one token
   entry and `enforce_run` accepts it exactly when the requested channel agrees.
   */
  lemma BoundRunsOnItsChannel(cfg: Config, s: State, events: seq<Event>, id: string, requested: Option<string>)
    requires Integrity(cfg, s) && id in Run(cfg, s, events).bound
    ensures var s' := Run(cfg, s, events);
            && Load(cfg.valid, s'.local).Ok?
            && var found := Lookup(Load(cfg.valid, s'.local).value, id);
               && found.Some?
               && |Filter(TOKEN, SecretItems(found.value))| == 1
               && (Policy.EnforceRun(found.value, requested).Ok? <==>
                   (found.value.channel !in {Some("programmatic"), Some("vdi_vpn")}
                    || requested.None? || requested.value == "" || requested == found.value.channel))
  {
    BoundReferencesResolve(cfg, s, events);
    var s' := Run(cfg, s, events);
    assert BindingOk(cfg, s', id);
    var m := Lookup(Load(cfg.valid, s'.local).value, id).value;
    var token := SecretItem(Some(TOKEN_NAME), Some(s'.bound[id]), false);
    assert token in Filter(TOKEN, SecretItems(m));
    assert token in SecretItems(m);
    UpperToken();
    assert HasOauthSecret(m);
  }

  /** A completion changes nothing of the manifest but `enabled` and the token entry. */
  lemma CompletionOnlyBinds(cfg: Config, s: State, c: CompleteCall)
    requires CompleteResult(cfg, s, c) == Ok(Enabled)
    ensures var id := s.sessions[c.sid].capabilityId;
            var before := Lookup(LoadMerged(cfg.valid, cfg.base, s.local).value, id);
            var after := Load(cfg.valid, After(cfg, s, Complete(c, None)).local);
            && before.Some? && after.Ok? && Lookup(after.value, id).Some?
            && Filter(OTHER, SecretItems(Lookup(after.value, id).value)) == Filter(OTHER, SecretItems(before.value))
            && Lookup(after.value, id).value == before.value.(enabled := Some(true),
                 secrets := Lookup(after.value, id).value.secrets)
  {
    var session := CompleteChecks(s, c).value;
    var handle := TokenHandle(session.provider, c.username, session.capabilityId);
    var merged := LoadMerged(cfg.valid, cfg.base, s.local).value;
    var m := Lookup(merged, session.capabilityId).value;
    LookupFindsItsId(merged, session.capabilityId);
    BindBinds(m, handle);
    var l := Load(cfg.valid, s.local).value;
    LoadGood(cfg.valid, s.local);
    PutGood(cfg.valid, l, Bind(m, handle));
    SaveLoadRoundTrip(cfg.valid, Put(l, Bind(m, handle)));
    PutSpec(l, Bind(m, handle), session.capabilityId);
  }
}
