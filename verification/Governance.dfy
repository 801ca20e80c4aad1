/**
 Governed execution (src/governance.py and `run` in src/resolver.py): the authority a call must bring,
 the replay guard, and what they guarantee over whole runs.

 The resolver's `run` first looks the manifest up; its outcome is part of the call here.
 */
module Governance {
  import opened Wrappers
  import opened Manifests
  import Execution

  const GOVERNANCE_VERSION := "unison.capability-governance.v1"

  const REQUIRED_FIELDS: set<string> := {
    "actions", "data_read", "data_write", "recipient_classes", "execution_location",
    "risk", "reversible", "cost_ceiling", "confirmation", "accessibility",
    "audit", "retention", "egress", "filesystem", "devices", "timeout_seconds",
    "resource_limits", "signature", "revocation_id"}

  const FORBIDDEN: set<string> := {"*", "/", "/**", "0.0.0.0/0", "::/0"}

  function Values(g: Governance, field: string): set<string> {
    if field in g.lists then set v | v in g.lists[field] else {}
  }

  function ValidateGovernance(m: Manifest): Result<Governance> {
    if m.governanceVersion != Some(GOVERNANCE_VERSION) || m.governance.None? then Err(PolicyDenied)
    else
      var g := m.governance.value;
      if REQUIRED_FIELDS - g.keys != {} then Err(PolicyDenied)
      else if g.executionLocation !in {"device", "sandboxed-container"} then Err(PolicyDenied)
      else if g.risk !in {Some("low"), Some("medium"), Some("high"), Some("critical")} then Err(PolicyDenied)
      else if g.timeoutSeconds.Some? && (g.timeoutSeconds.value <= 0.0 || g.timeoutSeconds.value > 300.0)
      then Err(PolicyDenied)
      else if FORBIDDEN * Values(g, "filesystem") != {} || FORBIDDEN * Values(g, "egress") != {} then Err(PolicyDenied)
      else if g.signature == "" || g.revocationId == "" then Err(PolicyDenied)
      else Ok(g)
  }

  /** "" stands for a missing or empty field. */
  datatype Authority = Authority(
    decisionId: string,
    outcome: string,
    principalId: string,
    assistantId: string,
    action: string,
    grantId: string,
    expiresAt: string,
    nonce: string)

  const NO_AUTHORITY := Authority("", "", "", "", "", "", "", "")

  predicate IsComplete(a: Authority) {
    && a.decisionId != "" && a.outcome != "" && a.principalId != "" && a.assistantId != ""
    && a.action != "" && a.grantId != "" && a.expiresAt != "" && a.nonce != ""
  }

  /** Reads an ISO time; None when it is not one, or carries no time zone to compare by. */
  type Clock = string -> Option<int>

  function AuthorizeExecution(clock: Clock, m: Manifest, a: Authority, now: int, revoked: set<string>): Result<()> {
    var g :- ValidateGovernance(m);
    if !IsComplete(a) then Err(PolicyDenied)
    else if a.outcome != "allow" then Err(PolicyDenied)
    else if a.action !in Values(g, "actions") then Err(PolicyDenied)
    else match clock(a.expiresAt)
      case None => Err(Uncaught)
      case Some(expiry) =>
        if expiry <= now then Err(PolicyDenied)
        else if g.revocationId in revoked then Err(PolicyDenied)
        else Ok(())
  }

  // ---------------------------------------------------------------- run

  /** `found` is what `get` answers; `legacy` is the setting that lets ungoverned capabilities run. */
  datatype Call = Call(
    found: Result<Manifest>,
    channel: Option<string>,
    authority: Option<Authority>,
    now: int,
    legacy: bool)

  function AuthorityOf(c: Call): Authority {
    if c.authority.Some? then c.authority.value else NO_AUTHORITY
  }

  function NonceOf(c: Call): string {
    AuthorityOf(c).nonce
  }

  /** A governed capability always needs an authority; any other needs one unless legacy mode is on. */
  predicate NeedsAuthority(c: Call) {
    c.found.Ok? && (c.found.value.governanceVersion == Some(GOVERNANCE_VERSION) || !c.legacy)
  }

  /** Everything `run` checks before it consults the replay guard. */
  function Checks(clock: Clock, c: Call): Result<Manifest> {
    var m :- c.found;
    var _ :- Policy.EnforceRun(m, c.channel);
    if NeedsAuthority(c) then
      var _ :- AuthorizeExecution(clock, m, AuthorityOf(c), c.now, {});
      Ok(m)
    else Ok(m)
  }

  /** What `run` decides, given the nonces seen so far. */
  function Decision(clock: Clock, seen: set<string>, c: Call): Result<Manifest> {
    var m :- Checks(clock, c);
    if NeedsAuthority(c) && NonceOf(c) in seen then Err(PolicyDenied) else Ok(m)
  }

  function SeenAfter(clock: Clock, seen: set<string>, c: Call): set<string> {
    if NeedsAuthority(c) && Checks(clock, c).Ok? then seen + {NonceOf(c)} else seen
  }

  /** The calls of a run that reach the execution engine. */
  function Reached(clock: Clock, seen: set<string>, calls: seq<Call>): seq<Call>
    decreases |calls|
  {
    if calls == [] then []
    else
      (if Decision(clock, seen, calls[0]).Ok? then [calls[0]] else [])
      + Reached(clock, SeenAfter(clock, seen, calls[0]), calls[1..])
  }

  function SeenAfterAll(clock: Clock, seen: set<string>, calls: seq<Call>): set<string>
    decreases |calls|
  {
    if calls == [] then seen else SeenAfterAll(clock, SeenAfter(clock, seen, calls[0]), calls[1..])
  }

  /** `ReplayGuard`; `consume` is one atomic step. */
  class ReplayGuard {
    var seen: set<string>

    constructor ()
      ensures seen == {}
    {
      seen := {};
    }

    method Consume(nonce: string) returns (r: Result<()>)
      modifies this
      ensures r == if nonce in old(seen) then Err(PolicyDenied) else Ok(())
      ensures seen == old(seen) + {nonce}
    {
      if nonce in seen {
        return Err(PolicyDenied);
      }
      seen := seen + {nonce};
      return Ok(());
    }
  }

  /** `CapabilityResolver.run` after the look-up: policy, authority, replay guard, engine. */
  class Runner {
    const clock: Clock
    const guard: ReplayGuard
    ghost var calls: seq<Call>
    ghost var reached: seq<Call>

    constructor (clock: Clock)
      ensures Valid() && fresh(guard) && calls == [] && this.clock == clock
    {
      this.clock := clock;
      guard := new ReplayGuard();
      calls, reached := [], [];
    }

    /** The history so far is the specified one. */
    ghost predicate Valid()
      reads this, guard
    {
      guard.seen == SeenAfterAll(clock, {}, calls) && reached == Reached(clock, {}, calls)
    }

    method Run(c: Call, w: Execution.World, onHost: Result<string>)
      returns (r: Result<string>, sent: seq<Execution.Request>)
      requires Valid()
      modifies this, guard
      ensures Valid() && calls == old(calls) + [c]
      ensures var decision := Decision(clock, old(guard.seen), c);
              match decision
              case Err(e) => r == Err(e) && sent == [] && reached == old(reached)
              case Ok(m) => Execution.EngineTrace(w, m, sent) && reached == old(reached) + [c]
    {
      ReachedAppends(clock, {}, calls, c);
      calls := calls + [c];
      sent := [];
      var m :- c.found;
      var _ :- Policy.EnforceRun(m, c.channel);
      if m.governanceVersion == Some(GOVERNANCE_VERSION) || !c.legacy {
        var authority := if c.authority.Some? then c.authority.value else NO_AUTHORITY;
        var _ :- AuthorizeExecution(clock, m, authority, c.now, {});
        var _ :- guard.Consume(authority.nonce);
      }
      reached := reached + [c];
      r, sent := Execution.Run(w, m, onHost);
    }
  }

  lemma {:induction false} ReachedAppends(clock: Clock, seen: set<string>, calls: seq<Call>, c: Call)
    ensures var s := SeenAfterAll(clock, seen, calls);
            && SeenAfterAll(clock, seen, calls + [c]) == SeenAfter(clock, s, c)
            && Reached(clock, seen, calls + [c])
               == Reached(clock, seen, calls) + (if Decision(clock, s, c).Ok? then [c] else [])
    decreases |calls|
  {
    if calls == [] {
      assert calls + [c] == [c] && [c][1..] == [];
    } else {
      assert (calls + [c])[1..] == calls[1..] + [c];
      ReachedAppends(clock, SeenAfter(clock, seen, calls[0]), calls[1..], c);
    }
  }

  // ---------------------------------------------------------------- at most once, over whole runs

  /** How many of these calls brought this nonce and had to. */
  function Uses(calls: seq<Call>, nonce: string): nat {
    if calls == [] then 0
    else (if NeedsAuthority(calls[0]) && NonceOf(calls[0]) == nonce then 1 else 0) + Uses(calls[1..], nonce)
  }

  /** A call that passes every check short of the replay guard, under this nonce. */
  ghost predicate Entitled(clock: Clock, c: Call, nonce: string) {
    NeedsAuthority(c) && NonceOf(c) == nonce && Checks(clock, c).Ok?
  }

  /**
   Exactly once: a nonce gets one call through if it is fresh and some call of the run is entitled
   under it, and none otherwise.
   */
  lemma {:induction false} ExactlyOnce(clock: Clock, seen: set<string>, calls: seq<Call>, nonce: string)
    ensures Uses(Reached(clock, seen, calls), nonce) ==
            if nonce !in seen && (exists c :: c in calls && Entitled(clock, c, nonce)) then 1 else 0
    decreases |calls|
  {
    if calls != [] {
      var c, rest := calls[0], calls[1..];
      var seen' := SeenAfter(clock, seen, c);
      ExactlyOnce(clock, seen', rest, nonce);
      assert calls == [c] + rest;
      var first := if Decision(clock, seen, c).Ok? then [c] else [];
      var later := Reached(clock, seen', rest);
      assert Reached(clock, seen, calls) == first + later;
      if first == [] {
        assert first + later == later;
      } else {
        UsesOfFirst(c, later, nonce);
      }
      assert Entitled(clock, c, nonce) ==> c in calls;
      assert forall d :: d in calls <==> d == c || d in rest;
    }
  }

  lemma UsesOfFirst(c: Call, rest: seq<Call>, nonce: string)
    ensures Uses([c] + rest, nonce) == (if NeedsAuthority(c) && NonceOf(c) == nonce then 1 else 0) + Uses(rest, nonce)
  {
    assert ([c] + rest)[1..] == rest;
  }

  lemma {:induction false} TwoPlacesCountTwice(calls: seq<Call>, i: nat, j: nat)
    requires i < j < |calls| && NeedsAuthority(calls[i]) && NeedsAuthority(calls[j])
    requires NonceOf(calls[i]) == NonceOf(calls[j])
    ensures Uses(calls, NonceOf(calls[i])) >= 2
  {
    if i > 0 {
      TwoPlacesCountTwice(calls[1..], i - 1, j - 1);
    } else {
      OnePlaceCounts(calls[1..], j - 1);
    }
  }

  lemma {:induction false} OnePlaceCounts(calls: seq<Call>, j: nat)
    requires j < |calls| && NeedsAuthority(calls[j])
    ensures Uses(calls, NonceOf(calls[j])) >= 1
  {
    if j > 0 {
      OnePlaceCounts(calls[1..], j - 1);
    }
  }

  /** The calls that reached the engine under an authority carry pairwise different, fresh nonces. */
  lemma NoncesAreDistinct(clock: Clock, seen: set<string>, calls: seq<Call>)
    ensures var reached := Reached(clock, seen, calls);
            && (forall i, j :: 0 <= i < j < |reached| && NeedsAuthority(reached[i]) && NeedsAuthority(reached[j])
                               ==> NonceOf(reached[i]) != NonceOf(reached[j]))
            && (forall i :: 0 <= i < |reached| && NeedsAuthority(reached[i]) ==> NonceOf(reached[i]) !in seen)
  {
    var reached := Reached(clock, seen, calls);
    forall i, j | 0 <= i < j < |reached| && NeedsAuthority(reached[i]) && NeedsAuthority(reached[j])
      ensures NonceOf(reached[i]) != NonceOf(reached[j])
    {
      ExactlyOnce(clock, seen, calls, NonceOf(reached[i]));
      if NonceOf(reached[i]) == NonceOf(reached[j]) {
        TwoPlacesCountTwice(reached, i, j);
      }
    }
    forall i | 0 <= i < |reached| && NeedsAuthority(reached[i]) ensures NonceOf(reached[i]) !in seen {
      ExactlyOnce(clock, seen, calls, NonceOf(reached[i]));
      OnePlaceCounts(reached, i);
    }
  }

  /** The list-valued field of the declaration holds the text. */
  ghost predicate Lists(g: Governance, field: string, text: string) {
    field in g.lists && exists i :: 0 <= i < |g.lists[field]| && g.lists[field][i] == text
  }

  /** Everything and the roots of the file and address spaces: what no declaration may ask for. */
  ghost predicate TooBroad(text: string) {
    text == "*" || text == "/" || text == "/**" || text == "0.0.0.0/0" || text == "::/0"
  }

  /** The manifest declares its authority completely and within bounds. */
  ghost predicate Declares(m: Manifest) {
    && m.governanceVersion == Some("unison.capability-governance.v1")
    && m.governance.Some?
    && var g := m.governance.value;
       && {"actions", "data_read", "data_write", "recipient_classes"} <= g.keys
       && {"execution_location", "risk", "reversible", "cost_ceiling", "confirmation"} <= g.keys
       && {"accessibility", "audit", "retention", "egress", "filesystem", "devices"} <= g.keys
       && {"timeout_seconds", "resource_limits", "signature", "revocation_id"} <= g.keys
       && (g.executionLocation == "device" || g.executionLocation == "sandboxed-container")
       && (g.risk == Some("low") || g.risk == Some("medium") || g.risk == Some("high") || g.risk == Some("critical"))
       && (g.timeoutSeconds.Some? ==> 0.0 < g.timeoutSeconds.value <= 300.0)   // a NaN passes both comparisons
       && (forall text :: TooBroad(text) ==> !Lists(g, "filesystem", text) && !Lists(g, "egress", text))
       && g.signature != "" && g.revocationId != ""
  }

  /** The authority is complete and allows one declared action. */
  ghost predicate Entitles(a: Authority, m: Manifest)
    requires m.governance.Some?
  {
    && a.decisionId != "" && a.principalId != "" && a.assistantId != "" && a.grantId != "" && a.nonce != ""
    && a.outcome == "allow"
    && a.action != "" && Lists(m.governance.value, "actions", a.action)
    && a.expiresAt != ""
  }

  /** Such an authority, and unexpired at that moment. */
  ghost predicate Covers(clock: Clock, a: Authority, m: Manifest, now: int)
    requires m.governance.Some?
  {
    Entitles(a, m) && clock(a.expiresAt).Some? && now < clock(a.expiresAt).value
  }

  lemma ListedValues(g: Governance, field: string)
    ensures forall text :: text in Values(g, field) <==> Lists(g, field, text)
  {
  }

  lemma NoneTooBroad(g: Governance, field: string)
    ensures FORBIDDEN * Values(g, field) == {} <==> forall text :: TooBroad(text) ==> !Lists(g, field, text)
  {
    ListedValues(g, field);
    if text :| TooBroad(text) && Lists(g, field, text) {
      assert text in FORBIDDEN * Values(g, field);
    }
    if text :| text in FORBIDDEN * Values(g, field) {
      assert TooBroad(text) && Lists(g, field, text);
    }
  }

  lemma NothingMissing(keys: set<string>)
    ensures REQUIRED_FIELDS - keys == {} <==>
              && {"actions", "data_read", "data_write", "recipient_classes"} <= keys
              && {"execution_location", "risk", "reversible", "cost_ceiling", "confirmation"} <= keys
              && {"accessibility", "audit", "retention", "egress", "filesystem", "devices"} <= keys
              && {"timeout_seconds", "resource_limits", "signature", "revocation_id"} <= keys
  {
    if f :| f in REQUIRED_FIELDS && f !in keys {
      assert f in REQUIRED_FIELDS - keys;
    } else {
      assert REQUIRED_FIELDS - keys == {};
    }
  }

  /** The manifest is governed, or legacy mode, which waives the authority of the others, is off. */
  ghost predicate MustShow(c: Call)
    requires c.found.Ok?
  {
    c.found.value.governanceVersion == Some("unison.capability-governance.v1") || !c.legacy
  }

  /**
   The checks pass exactly when the policy lets the call run and a needed authority covers it.  A refusal is
   one by policy, except that an expiry time that cannot be read or compared is an uncaught error.
   */
  lemma ChecksDecide(clock: Clock, c: Call)
    ensures Checks(clock, c).Ok? <==>
              && c.found.Ok? && MayRun(c.found.value, c.channel)
              && (MustShow(c) ==>
                    Declares(c.found.value) && c.authority.Some? && Covers(clock, c.authority.value, c.found.value, c.now))
    ensures Checks(clock, c).Ok? ==> Checks(clock, c).value == c.found.value
    ensures Checks(clock, c).Err? ==>
              Checks(clock, c).error ==
              (if c.found.Err? then c.found.error
               else if && MayRun(c.found.value, c.channel) && Declares(c.found.value) && c.authority.Some?
                       && Entitles(c.authority.value, c.found.value) && clock(c.authority.value.expiresAt).None?
               then Uncaught else PolicyDenied)
  {
    if c.found.Ok? {
      EnforceRunDecides(c.found.value, c.channel);
      if c.found.value.governance.Some? {
        var g := c.found.value.governance.value;
        NothingMissing(g.keys);
        NoneTooBroad(g, "filesystem");
        NoneTooBroad(g, "egress");
        ListedValues(g, "actions");
      }
    }
  }

  /**
   Every call that reaches the engine was let through by policy, and unless legacy mode was on and its
   manifest is not governed, it brought an authority that covers it at that moment, for a manifest that
   declares it, under a nonce that no earlier call used.
   */
  lemma {:induction false} EveryRunWasAuthorized(clock: Clock, seen: set<string>, calls: seq<Call>)
    ensures forall c :: c in Reached(clock, seen, calls) ==>
              && c in calls && c.found.Ok? && MayRun(c.found.value, c.channel)
              && (MustShow(c) ==>
                    && Declares(c.found.value)
                    && c.authority.Some? && Covers(clock, c.authority.value, c.found.value, c.now)
                    && c.authority.value.nonce !in seen)
    decreases |calls|
  {
    if calls != [] {
      assert calls[0] in calls;
      ChecksDecide(clock, calls[0]);
      EveryRunWasAuthorized(clock, SeenAfter(clock, seen, calls[0]), calls[1..]);
    }
  }

  lemma {:induction false} SeenStays(clock: Clock, seen: set<string>, calls: seq<Call>)
    ensures seen <= SeenAfterAll(clock, seen, calls)
    decreases |calls|
  {
    if calls != [] {
      SeenStays(clock, SeenAfter(clock, seen, calls[0]), calls[1..]);
    }
  }

  /**
   A replayed authority is refused as against policy: once a call has been let through under a nonce, any
   later one that must show an authority and shows that nonce is refused, however much comes in between.
   */
  lemma ReplayIsRefused(clock: Clock, seen: set<string>, c: Call, between: seq<Call>, again: Call)
    requires Decision(clock, seen, c).Ok? && MustShow(c)
    requires again.found.Ok? && MustShow(again) && again.authority.Some?
    requires c.authority.Some? ==> again.authority.value.nonce == c.authority.value.nonce
    ensures var decision := Decision(clock, SeenAfterAll(clock, seen, [c] + between), again);
            decision == if Checks(clock, again).Ok? then Err(PolicyDenied) else Err(Checks(clock, again).error)
  {
    ChecksDecide(clock, c);
    assert ([c] + between)[1..] == between;
    SeenStays(clock, SeenAfter(clock, seen, c), between);
    assert NonceOf(again) in SeenAfter(clock, seen, c);
  }

  /** Calls refused by look-up, policy or authorization leave no trace: whatever follows goes as without them. */
  lemma {:induction false} RefusalsAreInvisible(clock: Clock, seen: set<string>, refused: seq<Call>, rest: seq<Call>)
    requires forall c :: c in refused ==> Checks(clock, c).Err?
    ensures Reached(clock, seen, refused + rest) == Reached(clock, seen, rest)
    ensures SeenAfterAll(clock, seen, refused + rest) == SeenAfterAll(clock, seen, rest)
    decreases |refused|
  {
    if refused == [] {
      assert refused + rest == rest;
    } else {
      assert refused[0] in refused;
      assert (refused + rest)[1..] == refused[1..] + rest;
      RefusalsAreInvisible(clock, seen, refused[1..], rest);
    }
  }

  /**
   Legacy mode is the exact limit of all this: an ungoverned capability then runs without an
   authority, any number of times.
   */
  lemma {:induction false} LegacyRunsRepeat(clock: Clock, seen: set<string>, c: Call, n: nat)
    requires c.found.Ok? && MayRun(c.found.value, c.channel)
    requires c.found.value.governanceVersion != Some("unison.capability-governance.v1") && c.legacy
    ensures var calls := seq(n, _ => c);
            Reached(clock, seen, calls) == calls && SeenAfterAll(clock, seen, calls) == seen
    decreases n
  {
    if n > 0 {
      assert seq(n, _ => c)[1..] == seq(n - 1, _ => c);
      assert seq(n, _ => c) == [c] + seq(n - 1, _ => c);
      EnforceRunDecides(c.found.value, c.channel);
      LegacyRunsRepeat(clock, seen, c, n - 1);
    }
  }
}
