/**
 Capability manifests (the fields the resolver inspects) and the policy gates of src/policy.py.
 JSON schema validation is a parameter: any predicate `valid` will do, and where more is needed
 `SchemaLike` lists what is assumed about it.
 */
module Manifests {
  import opened Wrappers
  import opened Text

  /** One element of the `secrets` list; `hasValue` tells whether the key "value" is present. */
  datatype SecretItem =
    | NotAnObject
    | SecretItem(name: Option<string>, ref: Option<string>, hasValue: bool)

  datatype Secrets = NoSecrets | NotAList | SecretList(items: seq<SecretItem>)

  /** `permissions.network` and `permissions.network_allowlist`. */
  datatype Network = Network(mode: Option<string>, allowlist: Option<seq<string>>)

  datatype Implementation =
    | NoImplementation
    | Command
    | Python
    | McpTool(registryUrl: string, toolName: string, serverId: string)
    | A2aRpc(endpoint: string)

  /** The `governance` object: its keys, its list-valued fields, and the scalars that are checked. */
  datatype Governance = Governance(
    keys: set<string>,
    lists: map<string, seq<string>>,
    risk: Option<string>,
    confirmation: Option<string>,
    executionLocation: string,
    timeoutSeconds: Option<real>,       // None for a NaN
    signature: string,
    revocationId: string)

  datatype Manifest = Manifest(
    id: string,
    version: string,
    description: string,
    trust: string,
    enabled: Option<bool>,
    requiresOauth: Option<bool>,
    channel: Option<string>,
    secrets: Secrets,
    network: Network,
    implementation: Implementation,
    governanceVersion: Option<string>,
    governance: Option<Governance>,
    rest: string)

  type Schema = Manifest -> bool

  const TRUST_LEVELS: set<string> := {"verified", "local", "community", "untrusted"}

  /** A secret entry as the schema admits it: a non-empty name, a non-empty reference, nothing else. */
  predicate IsReference(s: SecretItem) {
    && s.SecretItem?
    && s.name.Some? && s.name.value != ""
    && s.ref.Some? && s.ref.value != ""
    && !s.hasValue
  }

  /** What is assumed of schema validation where an argument needs it. */
  ghost predicate SchemaLike(valid: Schema) {
    && (forall m :: valid(m) ==> m.id != "" && m.version != "" && m.trust in TRUST_LEVELS && !m.secrets.NotAList?)
    && (forall m :: valid(m) && m.secrets.SecretList? ==> forall s :: s in m.secrets.items ==> IsReference(s))
    && (forall m, b: bool :: valid(m) ==> valid(m.(enabled := Some(b))))
    && (forall m, items: seq<SecretItem> :: valid(m) && (forall s :: s in items ==> IsReference(s))
                                            ==> valid(m.(secrets := SecretList(items))))
  }

  /** The most lenient such schema; it shows that the assumption can be met. */
  predicate Plain(m: Manifest) {
    && m.id != "" && m.version != "" && m.trust in TRUST_LEVELS && !m.secrets.NotAList?
    && (m.secrets.SecretList? ==> forall s :: s in m.secrets.items ==> IsReference(s))
  }

  lemma SchemaLikeCanBeMet(m: Manifest)
    requires Plain(m)
    ensures exists valid: Schema :: SchemaLike(valid) && valid(m)
  {
    var valid: Schema := (n: Manifest) => Plain(n);
    assert SchemaLike(valid) && valid(m);
  }

  // ---------------------------------------------------------------- src/policy.py

  datatype Policy = Policy(trustAllow: set<string>) {

    predicate MayInstall(m: Manifest) {
      && m.trust in trustAllow
      && match m.secrets
         case NoSecrets => true
         case NotAList => false
         case SecretList(items) => forall s :: s in items ==> s.SecretItem? && s.ref.Some? && !s.hasValue
    }

    function EnforceInstall(m: Manifest): Result<()> {
      if MayInstall(m) then Ok(()) else Err(PolicyDenied)
    }

    static function EnforceRun(m: Manifest, requested: Option<string>): Result<()> {
      if m.enabled == Some(false) then Err(PolicyDenied)
      else if m.requiresOauth == Some(true) && !HasOauthSecret(m) then Err(PolicyDenied)
      else if && m.channel in {Some("programmatic"), Some("vdi_vpn")}
              && requested.Some? && requested.value != "" && requested != m.channel
      then Err(PolicyDenied)
      else Ok(())
    }
  }

  /** ASCII upper case. */
  function Upper(s: string): string {
    seq(|s|, i requires 0 <= i < |s| => if 'a' <= s[i] <= 'z' then s[i] - 'a' + 'A' else s[i])
  }

  predicate HasOauthSecret(m: Manifest) {
    && m.secrets.SecretList?
    && exists s :: s in m.secrets.items && s.SecretItem? && s.name.Some? && StartsWith(Upper(s.name.value), "OAUTH_")
  }

  // ---- what the two gates admit

  /** Secrets, if there are any, are objects that refer to a value and carry none. */
  ghost predicate OnlyReferences(m: Manifest) {
    || m.secrets == NoSecrets
    || (&& m.secrets.SecretList?
        && forall i :: 0 <= i < |m.secrets.items| ==>
             m.secrets.items[i].SecretItem? && m.secrets.items[i].ref != None && m.secrets.items[i].hasValue == false)
  }

  /** What the installation policy asks of a manifest. */
  ghost predicate Consents(policy: Policy, m: Manifest) {
    m.trust in policy.trustAllow && OnlyReferences(m)
  }

  lemma EnforceInstallDecides(policy: Policy, m: Manifest)
    ensures policy.MayInstall(m) <==> Consents(policy, m)
    ensures policy.EnforceInstall(m) == if Consents(policy, m) then Ok(()) else Err(PolicyDenied)
  {
  }

  /** The name begins with "oauth_" in whatever case. */
  ghost predicate NamesOauth(name: string) {
    |name| >= 6 && forall i :: 0 <= i < 6 ==> name[i] == "OAUTH_"[i] || name[i] == "oauth_"[i]
  }

  lemma OauthNames(name: string)
    ensures StartsWith(Upper(name), "OAUTH_") <==> NamesOauth(name)
  {
    var upper, lower := "OAUTH_", "oauth_";
    if |name| >= 6 {
      assert Upper(name)[..6] == upper <==> forall i :: 0 <= i < 6 ==> Upper(name)[i] == upper[i];
      assert forall i :: 0 <= i < 6 ==> (Upper(name)[i] == upper[i] <==> name[i] == upper[i] || name[i] == lower[i]) by {
        assert upper[0] == 'O' && upper[1] == 'A' && upper[2] == 'U' && upper[3] == 'T' && upper[4] == 'H' && upper[5] == '_';
        assert lower[0] == 'o' && lower[1] == 'a' && lower[2] == 'u' && lower[3] == 't' && lower[4] == 'h' && lower[5] == '_';
      }
    }
  }

  /** What the run gate asks: enabled, onboarded if it needs to be, and no other channel than its own. */
  ghost predicate MayRun(m: Manifest, requested: Option<string>) {
    && m.enabled != Some(false)
    && (m.requiresOauth == Some(true) ==>
          m.secrets.SecretList?
          && exists s :: s in m.secrets.items && s.SecretItem? && s.name.Some? && NamesOauth(s.name.value))
    && (m.channel == Some("programmatic") || m.channel == Some("vdi_vpn") ==>
          requested == None || requested == Some("") || requested == m.channel)
  }

  lemma EnforceRunDecides(m: Manifest, requested: Option<string>)
    ensures Policy.EnforceRun(m, requested) == if MayRun(m, requested) then Ok(()) else Err(PolicyDenied)
  {
    if m.secrets.SecretList? {
      forall s | s in m.secrets.items && s.SecretItem? && s.name.Some?
        ensures StartsWith(Upper(s.name.value), "OAUTH_") <==> NamesOauth(s.name.value)
      {
        OauthNames(s.name.value);
      }
    }
  }

  // ---------------------------------------------------------------- src/store.py: _safe_dirname

  predicate IsSpace(c: char) {
    c in {' ', '\t', '\n', '\r', '\U{0B}', '\U{0C}', '\U{1C}', '\U{1D}', '\U{1E}', '\U{1F}'}
  }

  predicate SafeDirname(value: string) {
    && value != ""
    && !IsSpace(value[0]) && !IsSpace(value[|value| - 1])
    && !Contains(value, "/") && !Contains(value, "\\") && !Contains(value, "..") && !Contains(value, "\0")
  }

  /** ASCII white space as `str.strip` sees it: the five controls from tab on, the four separators, and the blank. */
  predicate IsBlank(c: char) {
    c == ' ' || '\t' <= c <= '\r' || '\U{1C}' <= c <= '\U{1F}'
  }

  /** One path segment, other than "..", and without outer blanks. */
  ghost predicate IsSegment(value: string) {
    && value != ""
    && (forall i :: 0 <= i < |value| ==> value[i] != '/' && value[i] != '\\' && value[i] != '\0')
    && (forall i :: 0 < i < |value| ==> !(value[i - 1] == '.' && value[i] == '.'))
    && !IsBlank(value[0]) && !IsBlank(value[|value| - 1])
  }

  lemma SafeDirnamesAreSegments(value: string)
    ensures SafeDirname(value) <==> IsSegment(value)
  {
    HoldsChar(value, '/');
    HoldsChar(value, '\\');
    HoldsChar(value, '\0');
    HoldsTwoDots(value);
  }

  lemma HoldsChar(value: string, c: char)
    ensures Contains(value, [c]) <==> exists i :: 0 <= i < |value| && value[i] == c
  {
    if i :| 0 <= i < |value| && value[i] == c {
      assert value[i..][..1] == [c];
      assert StartsWith(value[i..], [c]);
    }
    if i :| 0 <= i <= |value| && StartsWith(value[i..], [c]) {
      assert value[i] == value[i..][0] == c;
    }
  }

  lemma HoldsTwoDots(value: string)
    ensures Contains(value, "..") <==> exists i :: 0 < i < |value| && value[i - 1] == '.' && value[i] == '.'
  {
    if i :| 0 < i < |value| && value[i - 1] == '.' && value[i] == '.' {
      assert value[i - 1..][..2] == "..";
      assert StartsWith(value[i - 1..], "..");
    }
    if i :| 0 <= i <= |value| && StartsWith(value[i..], "..") {
      assert value[i..][0] == '.' && value[i..][1] == '.';
      assert value[i + 1 - 1] == '.' && value[i + 1] == '.';
    }
  }
}
