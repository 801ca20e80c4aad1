/**
 The OAuth manager and its encrypted secrets file (src/oauth.py, src/credential_secrets.py) as
 objects.  The manager is proved to make exactly the writes of `OAuth`, in that order: `trace`
 records a snapshot of the three stores after each one.
 */
module OAuthFlow {
  import opened Wrappers
  import opened Sorting
  import opened Text
  import opened Manifests
  import opened Catalog
  import opened OAuth
  import opened Store

  /** `FileFernetSecretsBackend`: one encrypted file holding every secret; encryption is opaque. */
  class FernetSecrets {
    const encrypt: map<string, Secret> -> string
    const decrypt: string -> Option<map<string, Secret>>
    var file: Option<string>

    constructor (encrypt: map<string, Secret> -> string, decrypt: string -> Option<map<string, Secret>>,
                 file: Option<string>)
      ensures this.encrypt == encrypt && this.decrypt == decrypt && this.file == file
    {
      this.encrypt := encrypt;
      this.decrypt := decrypt;
      this.file := file;
    }

    ghost predicate RoundTrips() {
      forall data :: decrypt(encrypt(data)) == Some(data)
    }

    /** What the file says; None when it cannot be decrypted. */
    function Contents(): Option<map<string, Secret>>
      reads this
    {
      if file.None? then Some(map[]) else decrypt(file.value)
    }

    method ReadAll() returns (r: Result<map<string, Secret>>)
      ensures r == if Contents().Some? then Ok(Contents().value) else Err(PolicyDenied)
    {
      if file.None? {
        return Ok(map[]);
      }
      var plain := decrypt(file.value);
      if plain.None? {
        return Err(PolicyDenied);
      }
      return Ok(plain.value);
    }

    method WriteAll(data: map<string, Secret>)
      requires RoundTrips()
      modifies this
      ensures Contents() == Some(data)
    {
      file := Some(encrypt(data));
    }

    method Put(handle: string, value: Secret) returns (r: Result<()>)
      requires RoundTrips()
      modifies this
      ensures r == if IsHandle(handle) && old(Contents()).Some? then Ok(()) else Err(PolicyDenied)
      ensures r.Ok? ==> Contents() == Some(old(Contents()).value[handle := value])
      ensures r.Err? ==> file == old(file)
    {
      if !IsHandle(handle) {
        return Err(PolicyDenied);
      }
      var data :- ReadAll();
      data := data[handle := value];
      WriteAll(data);
      return Ok(());
    }

    method Get(handle: string) returns (r: Result<Secret>)
      ensures r == if IsHandle(handle) && Contents().Some? && handle in Contents().value
                   then Ok(Contents().value[handle]) else Err(PolicyDenied)
    {
      if !IsHandle(handle) {
        return Err(PolicyDenied);
      }
      var data :- ReadAll();
      if handle !in data {
        return Err(PolicyDenied);
      }
      return Ok(data[handle]);
    }

    method Delete(handle: string) returns (r: Result<bool>)
      requires RoundTrips()
      modifies this
      ensures r == if !IsHandle(handle) || old(Contents()).None? then Err(PolicyDenied)
                   else Ok(handle in old(Contents()).value)
      ensures r.Ok? ==> Contents() == Some(old(Contents()).value - {handle})
      ensures r != Ok(true) ==> file == old(file)
    {
      if !IsHandle(handle) {
        return Err(PolicyDenied);
      }
      var data :- ReadAll();
      if handle !in data {
        assert data - {handle} == data;
        return Ok(false);
      }
      WriteAll(data - {handle});
      return Ok(true);
    }
  }

  class OAuthManager {
    const store: CapabilityStore
    const secrets: FernetSecrets
    var sessions: map<string, Session>
    ghost var bound: map<string, string>
    ghost var trace: seq<State>

    constructor (store: CapabilityStore, secrets: FernetSecrets, sessions: map<string, Session>)
      ensures this.store == store && this.secrets == secrets && this.sessions == sessions
      ensures bound == map[] && trace == []
    {
      this.store := store;
      this.secrets := secrets;
      this.sessions := sessions;
      bound := map[];
      trace := [];
    }

    function Cfg(): Config {
      Config(store.valid, store.base)
    }

    /** The secrets file can be decrypted. */
    predicate Readable()
      reads secrets
    {
      secrets.Contents().Some?
    }

    /** The three stores; a secrets file that cannot be decrypted shows no secrets. */
    ghost function Snapshot(): State
      reads this, store, secrets
    {
      State(store.local, if Readable() then secrets.Contents().value else map[], sessions, bound)
    }

    method Start(c: StartCall) returns (r: Result<()>)
      requires secrets.RoundTrips()
      modifies this, secrets
      ensures Readable() == old(Readable())
      ensures r == if StartChecks(Cfg(), old(Snapshot()), c).Ok? && !Readable() then Err(PolicyDenied)
                   else StartChecks(Cfg(), old(Snapshot()), c)
      ensures trace == old(trace) + (if Readable() then StartTrace(Cfg(), old(Snapshot()), c) else [])
      ensures Snapshot() == if Readable() then After(Cfg(), old(Snapshot()), OAuth.Start(c, None)) else old(Snapshot())
    {
      var merged :- store.MergedCatalog();
      var found := Lookup(merged, c.capabilityId);
      if found.None? || found.value.requiresOauth != Some(true) || found.value.enabled == Some(true) {
        return Err(PolicyDenied);
      }
      var provider := ProviderOf(c.capabilityId);
      if provider.None? || !c.hasClient {
        return Err(PolicyDenied);
      }
      if c.answer.NoDevice? || c.answer.deviceCode == "" || c.answer.userCode == "" || c.answer.uri == "" {
        return Err(RunFailed);
      }
      var handle := DeviceHandle(c.sid);
      HandlesAreHandles(c.sid, "", "", "");
      var _ :- secrets.Put(handle, DeviceCode(c.answer.deviceCode));
      trace := trace + [Snapshot()];
      sessions := sessions[c.sid := Session(c.capabilityId, provider.value, handle, c.now + c.answer.expiresIn,
                                            c.answer.interval)];
      trace := trace + [Snapshot()];
      return Ok(());
    }

    /** The checks of `complete`, up to the answer of the token endpoint. */
    method CheckSession(c: CompleteCall) returns (r: Result<Session>)
      ensures r == CompleteChecks(Snapshot(), c)
      ensures r.Ok? ==> Readable() && IsHandle(r.value.handle)
    {
      if c.sid !in sessions {
        return Err(PolicyDenied);
      }
      var session := sessions[c.sid];
      if c.now > session.expiresAt {
        return Err(PolicyDenied);
      }
      var secret :- secrets.Get(session.handle);
      if !secret.DeviceCode? || secret.code == "" {
        return Err(PolicyDenied);
      }
      if !c.hasClient || session.provider !in PROVIDERS {
        return Err(PolicyDenied);
      }
      if c.answer.Refused? || (c.answer.Granted? && c.answer.refreshToken == "") {
        return Err(RunFailed);
      }
      return Ok(session);
    }

    /** Enable the capability and bind the token reference into the local catalog. */
    method BindToken(session: Session, handle: string) returns (r: Result<Manifest>)
      modifies this`bound, store`local
      ensures r == ToBind(Cfg(), old(Snapshot()), session, handle)
      ensures r.Ok? ==> store.local == UpsertFile(store.valid, old(store.local), r.value).0
      ensures r.Ok? ==> bound == old(bound)[r.value.id := handle]
      ensures r.Err? ==> store.local == old(store.local) && bound == old(bound)
    {
      var merged :- store.MergedCatalog();
      var found := Lookup(merged, session.capabilityId);
      if found.None? {
        return Err(PolicyDenied);
      }
      var m := Bind(found.value, handle);
      var _ :- store.UpsertLocal(m);
      bound := bound[m.id := handle];
      return Ok(m);
    }

    /** The token is granted: store it, bind it, and only then drop the device code and the session. */
    method Redeem(sid: string, session: Session, handle: string, token: string) returns (r: Result<Manifest>)
      requires secrets.RoundTrips() && IsHandle(handle) && IsHandle(session.handle)
      modifies this, secrets, store`local
      ensures Readable() == old(Readable())
      ensures !Readable() ==> r == Err(PolicyDenied) && trace == old(trace) && Snapshot() == old(Snapshot())
      ensures Readable() ==>
                && r == ToBind(Cfg(), old(Snapshot()), session, handle)
                && trace == old(trace) + RedeemTrace(Cfg(), old(Snapshot()), sid, session, handle, token)
                && Snapshot() == trace[|trace| - 1]
    {
      ghost var s, before := Snapshot(), trace;
      var _ :- secrets.Put(handle, RefreshToken(token));
      ghost var s1 := s.(secrets := s.secrets[handle := RefreshToken(token)]);
      assert Snapshot() == s1;
      trace := before + [s1];
      var bind := BindToken(session, handle);
      if bind.Err? {
        return bind;
      }
      ghost var s2 := s1.(local := store.local, bound := bound);
      assert Snapshot() == s2;
      trace := before + [s1, s2];
      var deleted := secrets.Delete(session.handle);
      ghost var s3 := s2.(secrets := s2.secrets - {session.handle});
      assert Snapshot() == s3;
      trace := before + [s1, s2, s3];
      sessions := sessions - {sid};
      ghost var s4 := s3.(sessions := s3.sessions - {sid});
      assert Snapshot() == s4;
      trace := before + [s1, s2, s3, s4];
      return bind;
    }

    /** Without readable secrets no session has its device code, and the specification refuses it too. */
    method Complete(c: CompleteCall) returns (r: Result<Progress>)
      requires secrets.RoundTrips()
      modifies this, secrets, store`local
      ensures Readable() == old(Readable())
      ensures r == CompleteResult(Cfg(), old(Snapshot()), c)
      ensures trace == old(trace) + CompleteTrace(Cfg(), old(Snapshot()), c)
      ensures Snapshot() == After(Cfg(), old(Snapshot()), OAuth.Complete(c, None))
    {
      var session :- CheckSession(c);
      if c.answer.Pending? {
        return Ok(StillPending);
      }
      var handle := TokenHandle(session.provider, c.username, session.capabilityId);
      HandlesAreHandles("", session.provider, c.username, session.capabilityId);
      var _ :- Redeem(c.sid, session, handle, c.answer.refreshToken);
      return Ok(Enabled);
    }

    /** The session file lives under the tmp directory that a factory reset deletes; the secrets do not. */
    method FactoryReset()
      modifies this, store
      ensures trace == old(trace) + ResetTrace(old(Snapshot()))
      ensures Snapshot() == After(Cfg(), old(Snapshot()), OAuth.FactoryReset(None))
    {
      store.FactoryReset();
      bound := map[];
      trace := trace + [Snapshot()];
      sessions := map[];
      trace := trace + [Snapshot()];
    }
  }
}
