/**
 What the OAuth runs of `OAuth` leave behind, whatever the kills: a capability's other secrets stay as
 they were, and a bound reference holds the token that was last granted for it.
 */
module OAuthHistory {
  import opened Wrappers
  import opened Sorting
  import opened Text
  import opened Manifests
  import opened Catalog
  import opened OAuth

  // ---------------------------------------------------------------- the other secrets

  /** The entries of a capability, in the merged catalog, that are not its token. */
  function OthersOf(cfg: Config, local: CatalogFile, id: string): Option<seq<SecretItem>> {
    match LoadMerged(cfg.valid, cfg.base, local)
    case Err(_) => None
    case Ok(merged) =>
      match Lookup(merged, id)
      case None => None
      case Some(m) => Some(Filter(OTHER, SecretItems(m)))
  }

  lemma BindWriteKeepsOthers(cfg: Config, s: State, session: Session, handle: string, m: Manifest, id: string)
    requires ToBind(cfg, s, session, handle) == Ok(m)
    ensures OthersOf(cfg, UpsertFile(cfg.valid, s.local, m).0, id) == OthersOf(cfg, s.local, id)
  {
    var b, l := Load(cfg.valid, cfg.base).value, Load(cfg.valid, s.local).value;
    LoadGood(cfg.valid, s.local);
    PutGood(cfg.valid, l, m);
    SaveLoadRoundTrip(cfg.valid, Put(l, m));
    MergeSpec(b, l, id);
    MergeSpec(b, Put(l, m), id);
    PutSpec(l, m, id);
    LookupFindsItsId(Merge(b, l), session.capabilityId);
    BindBinds(Lookup(Merge(b, l), session.capabilityId).value, handle);
  }

  /** A reset that deletes the local catalog. */
  predicate Resets(e: Event) {
    e.FactoryReset? && e.stop != Some(0)
  }

  lemma EventKeepsOthers(cfg: Config, s: State, e: Event, id: string)
    ensures OthersOf(cfg, After(cfg, s, e).local, id) == OthersOf(cfg, if Resets(e) then Missing else s.local, id)
  {
    if e.Complete? && CompleteChecks(s, e.complete).Ok? {
      var session := CompleteChecks(s, e.complete).value;
      var handle := TokenHandle(session.provider, e.complete.username, session.capabilityId);
      match ToBind(cfg, s, session, handle)
      case Ok(m) => BindWriteKeepsOthers(cfg, s, session, handle, m, id);
      case Err(_) =>
    }
  }

  /**
   However many sessions start, poll and complete, with kills at any write: every capability keeps its
   other secrets, in their order.  A factory reset takes them back to those of the base catalog.
   */
  lemma {:induction false} OtherSecretsKept(cfg: Config, s: State, events: seq<Event>, id: string)
    ensures OthersOf(cfg, Run(cfg, s, events).local, id)
            == OthersOf(cfg, if exists e :: e in events && Resets(e) then Missing else s.local, id)
    decreases |events|
  {
    if events != [] {
      EventKeepsOthers(cfg, s, events[0], id);
      OtherSecretsKept(cfg, After(cfg, s, events[0]), events[1..], id);
      assert forall e :: e in events <==> e == events[0] || e in events[1..];
    }
  }

  // ---------------------------------------------------------------- handles and their owners

  function HandleOf(id: string, username: string): string
    requires ProviderOf(id).Some?
  {
    TokenHandle(ProviderOf(id).value, username, id)
  }

  /**
   Two capabilities of one provider whose handles can coincide: one id ends in "/" and the other.  A
   catalog file may hold such ids, but no installed capability has them: `_safe_dirname` refuses "/".
   */
  predicate Clash(i: string, j: string) {
    i != j && ProviderOf(i) == ProviderOf(j) && (EndsWith(i, "/" + j) || EndsWith(j, "/" + i))
  }

  /** If two such texts agree and the first name is the shorter one, the second ends in "/" and the first. */
  lemma ShorterNameIsSuffix(u: string, i: string, v: string, j: string)
    requires u + "/" + i == v + "/" + j && |i| < |j|
    ensures EndsWith(j, "/" + i)
  {
    var text := u + "/" + i;
    var n := |j| - |i| - 1;
    assert text[|u|..] == "/" + i;
    assert text[|v| + 1..] == j;
    assert |u| == |v| + 1 + n;
    assert j[n..] == text[|u|..];
  }

  lemma SameLengthNames(u: string, i: string, v: string, j: string)
    requires u + "/" + i == v + "/" + j && |i| == |j|
    ensures u == v && i == j
  {
    var text := u + "/" + i;
    assert u == text[..|u|] && v == text[..|v|];
    assert i == text[|u| + 1..] && j == text[|v| + 1..];
  }

  /** What the handles of two capabilities of the providers have in common. */
  lemma EqualHandles(p: string, u: string, i: string, q: string, v: string, j: string)
    requires p in PROVIDERS && q in PROVIDERS
    requires TokenHandle(p, u, i) == TokenHandle(q, v, j)
    ensures p == q && u + "/" + i == v + "/" + j
  {
    var h := TokenHandle(p, u, i);
    assert |"secret://oauth/"| == 15 && |"/refresh_token"| == 14;
    assert h[15] == p[0] && h[15] == q[0];
    assert p == q by {
      assert "google"[0] == 'g' && "microsoft"[0] == 'm';
    }
    var n := 15 + |p| + 1;
    assert h[n..|h| - 14] == u + "/" + i;
    assert TokenHandle(q, v, j)[n..|h| - 14] == v + "/" + j;
  }

  /** Capabilities that do not clash, or users of one capability, never share a handle. */
  lemma OwnHandles(i: string, u: string, j: string, v: string)
    requires ProviderOf(i).Some? && ProviderOf(j).Some? && !Clash(i, j)
    requires HandleOf(i, u) == HandleOf(j, v)
    ensures i == j && u == v
  {
    EqualHandles(ProviderOf(i).value, u, i, ProviderOf(j).value, v, j);
    if |i| < |j| {
      ShorterNameIsSuffix(u, i, v, j);
    } else if |j| < |i| {
      ShorterNameIsSuffix(v, j, u, i);
    } else {
      SameLengthNames(u, i, v, j);
    }
  }

  /** The front of an id can move over into the user's name. */
  lemma FrontMoves(provider: string, v: string, front: string, i: string)
    ensures TokenHandle(provider, v + "/" + front, i) == TokenHandle(provider, v, front + "/" + i)
  {
    var head, tail := "secret://oauth/" + provider + "/", "/refresh_token";
    assert TokenHandle(provider, v + "/" + front, i) == head + (v + "/" + front + "/" + i) + tail;
    assert TokenHandle(provider, v, front + "/" + i) == head + (v + "/" + front + "/" + i) + tail;
  }

  lemma FrontMovesToUser(i: string, j: string, v: string) returns (u: string)
    requires ProviderOf(i).Some? && ProviderOf(j) == ProviderOf(i) && EndsWith(j, "/" + i) && v != ""
    ensures u != "" && HandleOf(i, u) == HandleOf(j, v)
  {
    var front := j[..|j| - |i| - 1];
    u := v + "/" + front;
    assert j == front + "/" + i;
    FrontMoves(ProviderOf(i).value, v, front, i);
  }

  lemma ClashingUsers(i: string, j: string) returns (u: string, v: string)
    requires ProviderOf(i).Some? && ProviderOf(j).Some? && Clash(i, j)
    ensures u != "" && v != "" && HandleOf(i, u) == HandleOf(j, v)
  {
    if EndsWith(j, "/" + i) {
      v := "eve";
      u := FrontMovesToUser(i, j, v);
    } else {
      u := "eve";
      v := FrontMovesToUser(j, i, u);
    }
  }

  /** Exactly the clashing capabilities have users with the same handle. */
  lemma HandlesCollideExactlyOnClash(i: string, j: string)
    requires ProviderOf(i).Some? && ProviderOf(j).Some?
    ensures (exists u, v :: u != "" && v != "" && (i, u) != (j, v) && HandleOf(i, u) == HandleOf(j, v)) <==> Clash(i, j)
  {
    if Clash(i, j) {
      var u, v := ClashingUsers(i, j);
      assert (i, u) != (j, v) && HandleOf(i, u) == HandleOf(j, v);
    } else if u, v :| (i, u) != (j, v) && HandleOf(i, u) == HandleOf(j, v) {
      OwnHandles(i, u, j, v);
    }
  }

  /** An instance, at ids that `start` accepts: users "eve/connector.google.y" and "eve". */
  lemma ClashAtRealIds()
    ensures var front := "connector.google.y";
            var i, j := "connector.google.x", front + "/" + "connector.google.x";
            && ProviderOf(i) == ProviderOf(j) == Some("google") && Clash(i, j)
            && HandleOf(i, "eve" + "/" + front) == HandleOf(j, "eve")
  {
    var front, i := "connector.google.y", "connector.google.x";
    var j := front + "/" + i;
    GoogleConnector(i, "x");
    GoogleConnector(j, "y" + "/" + i);
    assert j[|front|..] == "/" + i;
    FrontMoves("google", "eve", front, i);
  }

  lemma GoogleConnector(id: string, rest: string)
    requires id == "connector.google." + rest
    ensures ProviderOf(id) == Some("google")
  {
    assert StartsWith(id, "connector.google.");
  }

  // ---------------------------------------------------------------- a bound reference holds its own last grant

  /** The last token stored for each capability and user. */
  type Grants = map<(string, string), string>

  function GrantsAfter(s: State, e: Event, g: Grants): Grants {
    if e.Complete? && e.stop != Some(0) && e.complete.answer.Granted? && CompleteChecks(s, e.complete).Ok?
    then g[(CompleteChecks(s, e.complete).value.capabilityId, e.complete.username) := e.complete.answer.refreshToken]
    else g
  }

  function GrantsOf(cfg: Config, s: State, events: seq<Event>, g: Grants): Grants
    decreases |events|
  {
    if events == [] then g else GrantsOf(cfg, After(cfg, s, events[0]), events[1..], GrantsAfter(s, events[0], g))
  }

  ghost predicate NoClash(ids: set<string>) {
    forall i, j :: i in ids && j in ids ==> !Clash(i, j)
  }

  ghost predicate GrantStored(s: State, g: Grants, ids: set<string>, k: (string, string))
    requires k in g
  {
    && ProviderOf(k.0).Some? && k.0 in ids
    && HandleOf(k.0, k.1) in s.secrets && s.secrets[HandleOf(k.0, k.1)] == RefreshToken(g[k])
  }

  ghost predicate BoundByGrant(s: State, g: Grants, id: string)
    requires id in s.bound
  {
    ProviderOf(id).Some? && exists username :: (id, username) in g && s.bound[id] == HandleOf(id, username)
  }

  /** `ids` are the capabilities that have had a session. */
  ghost predicate GrantsOk(s: State, g: Grants, ids: set<string>) {
    && (forall k :: k in g ==> GrantStored(s, g, ids, k))
    && (forall id :: id in s.bound ==> BoundByGrant(s, g, id))
    && (forall sid :: sid in s.sessions ==> SessionOk(sid, s.sessions[sid]) && s.sessions[sid].capabilityId in ids)
  }

  /** A device code comes or goes: no token is concerned. */
  lemma DeviceWriteKeepsGrants(s: State, s': State, g: Grants, ids: set<string>, sid: string)
    requires GrantsOk(s, g, ids) && s'.bound == s.bound && s'.sessions == s.sessions
    requires forall h :: h in s.secrets && h != DeviceHandle(sid) ==> h in s'.secrets && s'.secrets[h] == s.secrets[h]
    ensures GrantsOk(s', g, ids)
  {
    forall k | k in g ensures GrantStored(s', g, ids, k) {
      assert GrantStored(s, g, ids, k);
      HandlesAreDisjoint(sid, ProviderOf(k.0).value, k.1, k.0);
    }
    forall id | id in s'.bound ensures BoundByGrant(s', g, id) {
      assert BoundByGrant(s, g, id);
    }
  }

  lemma TokenWriteKeepsGrants(s: State, g: Grants, ids: set<string>, id: string, username: string, token: string)
    requires GrantsOk(s, g, ids) && ProviderOf(id).Some? && id in ids && NoClash(ids)
    ensures GrantsOk(s.(secrets := s.secrets[HandleOf(id, username) := RefreshToken(token)]), g[(id, username) := token], ids)
  {
    var s', g' := s.(secrets := s.secrets[HandleOf(id, username) := RefreshToken(token)]), g[(id, username) := token];
    forall k | k in g' ensures GrantStored(s', g', ids, k) {
      if k != (id, username) {
        assert GrantStored(s, g, ids, k);
        if HandleOf(k.0, k.1) == HandleOf(id, username) {
          OwnHandles(k.0, k.1, id, username);
        }
      }
    }
    forall b | b in s'.bound ensures BoundByGrant(s', g', b) {
      assert BoundByGrant(s, g, b);
      var u :| (b, u) in g && s.bound[b] == HandleOf(b, u);
      assert (b, u) in g';
    }
  }

  lemma RestKeepsGrants(s: State, s': State, g: Grants, ids: set<string>)
    requires GrantsOk(s, g, ids) && s'.secrets == s.secrets
    requires forall id :: id in s'.bound ==> BoundByGrant(s', g, id)
    requires forall sid :: sid in s'.sessions ==> SessionOk(sid, s'.sessions[sid]) && s'.sessions[sid].capabilityId in ids
    ensures GrantsOk(s', g, ids)
  {
    forall k | k in g ensures GrantStored(s', g, ids, k) {
      assert GrantStored(s, g, ids, k);
    }
  }

  lemma RedeemKeepsGrants(cfg: Config, s: State, g: Grants, ids: set<string>, sid: string, session: Session, username: string, token: string)
    requires GrantsOk(s, g, ids) && SessionOk(sid, session) && session.capabilityId in ids && NoClash(ids)
    ensures var trace := RedeemTrace(cfg, s, sid, session, HandleOf(session.capabilityId, username), token);
            forall k :: 0 <= k < |trace| ==> GrantsOk(trace[k], g[(session.capabilityId, username) := token], ids)
  {
    var id := session.capabilityId;
    var handle, g' := HandleOf(id, username), g[(id, username) := token];
    var trace := RedeemTrace(cfg, s, sid, session, handle, token);
    TokenWriteKeepsGrants(s, g, ids, id, username, token);
    if |trace| > 1 {
      LookupFindsItsId(LoadMerged(cfg.valid, cfg.base, s.local).value, id);
      forall b | b in trace[1].bound ensures BoundByGrant(trace[1], g', b) {
        if b != id {
          assert BoundByGrant(trace[0], g', b);
        } else {
          assert (b, username) in g';
        }
      }
      RestKeepsGrants(trace[0], trace[1], g', ids);
      DeviceWriteKeepsGrants(trace[1], trace[2], g', ids, sid);
      forall b | b in trace[3].bound ensures BoundByGrant(trace[3], g', b) {
        assert BoundByGrant(trace[2], g', b);
      }
      RestKeepsGrants(trace[2], trace[3], g', ids);
    }
  }

  lemma StartKeepsGrants(cfg: Config, s: State, g: Grants, ids: set<string>, c: StartCall)
    requires GrantsOk(s, g, ids) && c.capabilityId in ids && StartChecks(cfg, s, c).Ok?
    ensures GrantsOk(StartTrace(cfg, s, c)[0], g, ids) && GrantsOk(StartTrace(cfg, s, c)[1], g, ids)
  {
    var trace := StartTrace(cfg, s, c);
    DeviceWriteKeepsGrants(s, trace[0], g, ids, c.sid);
    forall b | b in trace[1].bound ensures BoundByGrant(trace[1], g, b) {
      assert BoundByGrant(trace[0], g, b);
    }
    RestKeepsGrants(trace[0], trace[1], g, ids);
  }

  lemma EventKeepsGrants(cfg: Config, s: State, g: Grants, ids: set<string>, e: Event)
    requires GrantsOk(s, g, ids) && NoClash(ids) && (e.Start? ==> e.start.capabilityId in ids)
    ensures GrantsOk(After(cfg, s, e), GrantsAfter(s, e, g), ids)
  {
    var s' := After(cfg, s, e);
    match e
    case FactoryReset(_) => if s' != s { RestKeepsGrants(s, s', g, ids); }
    case Start(c, _) =>
      if StartChecks(cfg, s, c).Ok? {
        StartKeepsGrants(cfg, s, g, ids, c);
      }
    case Complete(c, _) =>
      if c.answer.Granted? && CompleteChecks(s, c).Ok? {
        var session := CompleteChecks(s, c).value;
        RedeemKeepsGrants(cfg, s, g, ids, c.sid, session, c.username, c.answer.refreshToken);
      }
  }

  /**
   Over every run, kills included, in which no two capabilities clash: what a bound reference resolves
   to is the token last granted for that very capability, to the user whose completion bound it.
   */
  lemma {:induction false} BoundHoldsItsLastGrant(cfg: Config, s: State, events: seq<Event>, g: Grants, ids: set<string>)
    requires GrantsOk(s, g, ids) && NoClash(ids)
    requires forall e :: e in events && e.Start? ==> e.start.capabilityId in ids
    ensures var s', g' := Run(cfg, s, events), GrantsOf(cfg, s, events, g);
            && GrantsOk(s', g', ids)
            && forall id :: id in s'.bound ==>
                 exists username :: && (id, username) in g'
                                    && s'.bound[id] in s'.secrets
                                    && s'.secrets[s'.bound[id]] == RefreshToken(g'[(id, username)])
    decreases |events|
  {
    if events == [] {
      forall id | id in s.bound
        ensures exists username :: && (id, username) in g && s.bound[id] in s.secrets
                                   && s.secrets[s.bound[id]] == RefreshToken(g[(id, username)])
      {
        assert BoundByGrant(s, g, id);
        var username :| (id, username) in g && s.bound[id] == HandleOf(id, username);
        assert GrantStored(s, g, ids, (id, username));
      }
    } else {
      assert events[0] in events;
      EventKeepsGrants(cfg, s, g, ids, events[0]);
      BoundHoldsItsLastGrant(cfg, After(cfg, s, events[0]), events[1..], GrantsAfter(s, events[0], g), ids);
    }
  }

  /**
   With a clash it fails: wherever a completion for each of two clashing capabilities can be granted,
   there are users for whom the second leaves the first one's reference resolving to the second's token.
   */
  lemma ClashMixesTokens(cfg: Config, s: State, a: CompleteCall, b: CompleteCall) returns (u: string, v: string)
    requires SchemaLike(cfg.valid) && forall sid :: sid in s.sessions ==> SessionOk(sid, s.sessions[sid])
    requires a.sid != b.sid && a.answer.Granted? && b.answer.Granted?
    requires CompleteChecks(s, a).Ok? && CompleteChecks(s, b).Ok?
    requires Clash(CompleteChecks(s, a).value.capabilityId, CompleteChecks(s, b).value.capabilityId)
    requires LoadMerged(cfg.valid, cfg.base, s.local).Ok?
    requires Has(LoadMerged(cfg.valid, cfg.base, s.local).value, CompleteChecks(s, a).value.capabilityId)
    ensures u != "" && v != ""
    ensures var id := CompleteChecks(s, a).value.capabilityId;
            var s' := Run(cfg, s, [Complete(a.(username := u), None), Complete(b.(username := v), None)]);
            && id in s'.bound && s'.bound[id] in s'.secrets
            && s'.secrets[s'.bound[id]] == RefreshToken(b.answer.refreshToken)
  {
    var sa, sb := CompleteChecks(s, a).value, CompleteChecks(s, b).value;
    assert SessionOk(a.sid, sa) && SessionOk(b.sid, sb);
    u, v := ClashingUsers(sa.capabilityId, sb.capabilityId);
    var first, second := a.(username := u), b.(username := v);
    var s1 := After(cfg, s, Complete(first, None));
    FirstGrant(cfg, s, first, b.sid);
    assert CompleteChecks(s1, second) == Ok(sb);
    SecondGrant(cfg, s1, second, sa.capabilityId);
    var events := [Complete(first, None), Complete(second, None)];
    assert events[1..] == [Complete(second, None)];
    RunOne(cfg, s1, Complete(second, None));
  }

  /** A granted completion binds its capability and leaves another session as it is. */
  lemma FirstGrant(cfg: Config, s: State, c: CompleteCall, other: string)
    requires SchemaLike(cfg.valid) && c.answer.Granted? && CompleteChecks(s, c).Ok?
    requires var session := CompleteChecks(s, c).value;
             && SessionOk(c.sid, session)
             && LoadMerged(cfg.valid, cfg.base, s.local).Ok?
             && Has(LoadMerged(cfg.valid, cfg.base, s.local).value, session.capabilityId)
    requires other != c.sid && other in s.sessions && DeviceHandle(other) in s.secrets
    ensures var session, s1 := CompleteChecks(s, c).value, After(cfg, s, Complete(c, None));
            && session.capabilityId in s1.bound && s1.bound[session.capabilityId] == HandleOf(session.capabilityId, c.username)
            && other in s1.sessions && s1.sessions[other] == s.sessions[other]
            && DeviceHandle(other) in s1.secrets && s1.secrets[DeviceHandle(other)] == s.secrets[DeviceHandle(other)]
  {
    var session := CompleteChecks(s, c).value;
    var id := session.capabilityId;
    BindingSucceeds(cfg, s, session, HandleOf(id, c.username));
    LookupFindsItsId(LoadMerged(cfg.valid, cfg.base, s.local).value, id);
    HandlesAreDisjoint(other, session.provider, c.username, id);
    if DeviceHandle(other) == DeviceHandle(c.sid) {
      DeviceHandleIsInjective(other, c.sid);
    }
    assert |CompleteTrace(cfg, s, c)| == 4;
  }

  /** A granted completion stores its token under its handle, whoever else is bound to that. */
  lemma SecondGrant(cfg: Config, s: State, c: CompleteCall, id: string)
    requires c.answer.Granted? && CompleteChecks(s, c).Ok?
    requires var session := CompleteChecks(s, c).value;
             && SessionOk(c.sid, session) && id != session.capabilityId
             && id in s.bound && s.bound[id] == HandleOf(session.capabilityId, c.username)
    ensures var s' := After(cfg, s, Complete(c, None));
            && id in s'.bound && s'.bound[id] == s.bound[id] && s.bound[id] in s'.secrets
            && s'.secrets[s.bound[id]] == RefreshToken(c.answer.refreshToken)
  {
    var session := CompleteChecks(s, c).value;
    HandlesAreDisjoint(c.sid, session.provider, c.username, session.capabilityId);
    if LoadMerged(cfg.valid, cfg.base, s.local).Ok? {
      LookupFindsItsId(LoadMerged(cfg.valid, cfg.base, s.local).value, session.capabilityId);
    }
  }
}
