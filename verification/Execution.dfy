/**
 The network side of the execution engine (src/execution.py): the MCP discovery-and-call loop, the
 A2A call and the dispatch over implementation kinds.  Every method also returns the requests it
 sent, in order, and the theorems are about that trace.

 Servers answer through parameters; commands and Python callables are a result that is handed in.
 */
module Execution {
  import opened Wrappers
  import opened Manifests
  import opened Egress

  datatype Request = Get(url: string) | Post(url: string)

  /** One entry of a registry's server list; "" stands for a missing field. */
  datatype Server =
    | NotAnObject
    | Server(id: string, name: string, baseUrl: string, url: string, tools: seq<Option<string>>)

  /** What the registry answers: a failed request, or a list (anything that is not one reads as empty). */
  datatype Registry = Unreachable | Servers(servers: seq<Server>)

  /** The world the engine talks to. */
  datatype World = World(
    net: Net,
    egress: Option<EgressConfig>,
    registry: string -> Registry,
    answer: string -> Option<string>)        // of a POST; None when it fails

  function Sid(s: Server): string
    requires s.Server?
  {
    if s.id != "" then s.id else if s.name != "" then s.name else "mcp"
  }

  function Base(s: Server): string
    requires s.Server?
  {
    if s.baseUrl != "" then s.baseUrl else s.url
  }

  function CallUrl(base: string, tool: string): string {
    base + "/tools/" + tool
  }

  /** The server the loop stops at: right id if one is asked for, a base URL, and the tool on offer. */
  predicate Serves(s: Server, tool: string, serverId: string) {
    && s.Server?
    && (serverId == "" || Sid(s) == serverId)
    && Base(s) != ""
    && Some(tool) in s.tools
  }

  /** `EgressController.request` refuses before anything is sent. */
  predicate EgressAllows(w: World, url: string) {
    w.egress.None? || CheckUrl(w.net, w.egress.value, url).Ok?
  }

  /** The two gates every request has to pass. */
  predicate Allowed(w: World, m: Manifest, url: string) {
    EnforceManifestNetwork(w.net, m, url).Ok? && EgressAllows(w, url)
  }

  /** `k` is where the loop over the servers stops. */
  predicate StopsAt(servers: seq<Server>, tool: string, serverId: string, k: int) {
    && 0 <= k < |servers|
    && (servers[k].NotAnObject? || Serves(servers[k], tool, serverId))
    && forall i :: 0 <= i < k ==> !servers[i].NotAnObject? && !Serves(servers[i], tool, serverId)
  }

  /** The loop stops at server `k`, it is one, and both gates let the call pass. */
  ghost predicate Calls(w: World, m: Manifest, servers: seq<Server>, tool: string, serverId: string, k: int) {
    && StopsAt(servers, tool, serverId, k)
    && servers[k].Server?
    && Allowed(w, m, CallUrl(Base(servers[k]), tool))
  }

  /** The requests of an MCP run: the registry, then at most the call to the server the loop stops at. */
  ghost predicate McpTrace(w: World, m: Manifest, registryUrl: string, tool: string, serverId: string,
                           sent: seq<Request>)
  {
    if !Allowed(w, m, registryUrl) then sent == []
    else match w.registry(registryUrl)
      case Unreachable => sent == [Get(registryUrl)]
      case Servers(servers) =>
        if exists k :: Calls(w, m, servers, tool, serverId, k) then
          exists k :: Calls(w, m, servers, tool, serverId, k)
                      && sent == [Get(registryUrl), Post(CallUrl(Base(servers[k]), tool))]
        else sent == [Get(registryUrl)]
  }

  /** Whether the run stopped at something that is not an object (the source fails with an AttributeError). */
  ghost predicate Stumbles(w: World, m: Manifest, registryUrl: string, tool: string, serverId: string) {
    && Allowed(w, m, registryUrl)
    && w.registry(registryUrl).Servers?
    && var servers := w.registry(registryUrl).servers;
       exists k :: StopsAt(servers, tool, serverId, k) && servers[k].NotAnObject?
  }

  method RunMcpTool(w: World, m: Manifest, registryUrl: string, tool: string, serverId: string)
    returns (r: Result<string>, sent: seq<Request>)
    ensures McpTrace(w, m, registryUrl, tool, serverId, sent)
    ensures r == if EnforceManifestNetwork(w.net, m, registryUrl).Err? then Err(PolicyDenied)
                 else if Stumbles(w, m, registryUrl, tool, serverId) then Err(Uncaught)
                 else if |sent| == 2 && w.answer(sent[1].url).Some? then Ok(w.answer(sent[1].url).value)
                 else Err(RunFailed)
  {
    sent := [];
    if EnforceManifestNetwork(w.net, m, registryUrl).Err? {
      return Err(PolicyDenied), sent;
    }
    if !EgressAllows(w, registryUrl) {
      return Err(RunFailed), sent;
    }
    sent := sent + [Get(registryUrl)];
    if w.registry(registryUrl).Unreachable? {
      return Err(RunFailed), sent;
    }
    var servers := w.registry(registryUrl).servers;
    var i := 0;
    while i < |servers|
      invariant 0 <= i <= |servers|
      invariant forall j :: 0 <= j < i ==> !servers[j].NotAnObject? && !Serves(servers[j], tool, serverId)
    {
      var s := servers[i];
      if s.NotAnObject? {
        StoppedAt(w, m, registryUrl, tool, serverId, i);
        return Err(Uncaught), sent;
      }
      if (serverId == "" || Sid(s) == serverId) && Base(s) != "" && Some(tool) in s.tools {
        StoppedAt(w, m, registryUrl, tool, serverId, i);
        var callUrl := CallUrl(Base(s), tool);
        if !Allowed(w, m, callUrl) {
          return Err(RunFailed), sent;
        }
        sent := sent + [Post(callUrl)];
        var answer := w.answer(callUrl);
        return if answer.Some? then Ok(answer.value) else Err(RunFailed), sent;
      }
      i := i + 1;
    }
    NeverStopped(w, m, registryUrl, tool, serverId);
    return Err(RunFailed), sent;
  }

  lemma StoppedAt(w: World, m: Manifest, registryUrl: string, tool: string, serverId: string, i: int)
    requires Allowed(w, m, registryUrl) && w.registry(registryUrl).Servers?
    requires StopsAt(w.registry(registryUrl).servers, tool, serverId, i)
    ensures var s := w.registry(registryUrl).servers[i];
            && McpTrace(w, m, registryUrl, tool, serverId,
                 [Get(registryUrl)] + (if s.Server? && Allowed(w, m, CallUrl(Base(s), tool))
                                       then [Post(CallUrl(Base(s), tool))] else []))
            && (Stumbles(w, m, registryUrl, tool, serverId) <==> s.NotAnObject?)
  {
    OnlyStop(w, m, w.registry(registryUrl).servers, tool, serverId, i);
  }

  lemma NeverStopped(w: World, m: Manifest, registryUrl: string, tool: string, serverId: string)
    requires Allowed(w, m, registryUrl) && w.registry(registryUrl).Servers?
    requires forall s :: s in w.registry(registryUrl).servers ==> !s.NotAnObject? && !Serves(s, tool, serverId)
    ensures McpTrace(w, m, registryUrl, tool, serverId, [Get(registryUrl)])
    ensures !Stumbles(w, m, registryUrl, tool, serverId)
  {
  }

  /** There is one place to stop at. */
  lemma OnlyStop(w: World, m: Manifest, servers: seq<Server>, tool: string, serverId: string, i: int)
    requires StopsAt(servers, tool, serverId, i)
    ensures forall k :: StopsAt(servers, tool, serverId, k) ==> k == i
    ensures (exists k :: Calls(w, m, servers, tool, serverId, k)) <==> Calls(w, m, servers, tool, serverId, i)
  {
    assert forall k :: StopsAt(servers, tool, serverId, k) ==> k == i;
  }

  method RunA2a(w: World, m: Manifest, endpoint: string) returns (r: Result<string>, sent: seq<Request>)
    ensures sent == if Allowed(w, m, endpoint) then [Post(endpoint)] else []
    ensures r == if EnforceManifestNetwork(w.net, m, endpoint).Err? then Err(PolicyDenied)
                 else if sent != [] && w.answer(endpoint).Some? then Ok(w.answer(endpoint).value)
                 else Err(RunFailed)
  {
    sent := [];
    if EnforceManifestNetwork(w.net, m, endpoint).Err? {
      return Err(PolicyDenied), sent;
    }
    if !EgressAllows(w, endpoint) {
      return Err(RunFailed), sent;
    }
    sent := sent + [Post(endpoint)];
    var answer := w.answer(endpoint);
    return if answer.Some? then Ok(answer.value) else Err(RunFailed), sent;
  }

  /** The trace each kind of implementation leaves. */
  ghost predicate EngineTrace(w: World, m: Manifest, sent: seq<Request>) {
    match m.implementation
    case McpTool(registryUrl, tool, serverId) =>
      if registryUrl == "" || tool == "" then sent == [] else McpTrace(w, m, registryUrl, tool, serverId, sent)
    case A2aRpc(endpoint) =>
      sent == if endpoint != "" && Allowed(w, m, endpoint) then [Post(endpoint)] else []
    case _ => sent == []
  }

  /** Which error a network run ends in, if it does. */
  ghost function NetworkError(w: World, m: Manifest): Error {
    match m.implementation
    case McpTool(url, tool, serverId) =>
      if url == "" || tool == "" then RunFailed
      else if EnforceManifestNetwork(w.net, m, url).Err? then PolicyDenied
      else if Stumbles(w, m, url, tool, serverId) then Uncaught else RunFailed
    case A2aRpc(endpoint) =>
      if endpoint != "" && EnforceManifestNetwork(w.net, m, endpoint).Err? then PolicyDenied else RunFailed
    case _ => RunFailed
  }

  /**
   `ExecutionEngine.run`; `onHost` is what the command or the Python callable comes to.  Every request
   it sends passed the manifest's allowlist and, if there is one, the egress controller.
   */
  method Run(w: World, m: Manifest, onHost: Result<string>) returns (r: Result<string>, sent: seq<Request>)
    ensures EngineTrace(w, m, sent)
    ensures forall q :: q in sent ==>
              && EnforceManifestNetwork(w.net, m, q.url).Ok?
              && (w.egress.Some? ==> CheckUrl(w.net, w.egress.value, q.url).Ok?)
    ensures m.implementation.Command? || m.implementation.Python? ==> r == onHost
    ensures m.implementation.NoImplementation? ==> r == Err(RunFailed)
    ensures m.implementation.McpTool? || m.implementation.A2aRpc? ==>
              && (r.Ok? <==> |Posts(sent)| == 1 && w.answer(Posts(sent)[0].url).Some?)
              && (r.Ok? ==> r.value == w.answer(Posts(sent)[0].url).value)
              && (r.Err? ==> r.error == NetworkError(w, m))
  {
    match m.implementation
    case NoImplementation => return Err(RunFailed), [];
    case Command => return onHost, [];
    case Python => return onHost, [];
    case McpTool(registryUrl, tool, serverId) =>
      if registryUrl == "" || tool == "" {
        return Err(RunFailed), [];
      }
      r, sent := RunMcpTool(w, m, registryUrl, tool, serverId);
      PostsOfTwo(sent);
    case A2aRpc(endpoint) =>
      if endpoint == "" {
        return Err(RunFailed), [];
      }
      r, sent := RunA2a(w, m, endpoint);
      PostsOfTwo(sent);
  }

  // ---------------------------------------------------------------- what every trace satisfies

  function Posts(sent: seq<Request>): seq<Request> {
    if sent == [] then [] else (if sent[0].Post? then [sent[0]] else []) + Posts(sent[1..])
  }

  /** A capability whose permissions are not "allowlist" sends nothing, whatever its implementation says. */
  lemma NoPermissionNoRequest(w: World, m: Manifest, sent: seq<Request>)
    requires EngineTrace(w, m, sent) && m.network.mode != Some("allowlist")
    ensures sent == []
  {
    forall url ensures EnforceManifestNetwork(w.net, m, url).Err? {
      ManifestNetworkDecides(w.net, m, url);
    }
  }

  // ---- the gates and the servers, by what they look at

  /** The manifest's allowlist covers the URL, and the controller, if there is one, permits it. */
  ghost predicate Passes(w: World, m: Manifest, url: string) {
    && m.network.mode == Some("allowlist") && m.network.allowlist.Some?
    && (exists rule :: rule in m.network.allowlist.value && Under(w.net, rule, url))
    && (w.egress.Some? ==>
          var cfg := w.egress.value;
          Permitted(w.net, RuleSet(cfg.allowlist), RuleSet(cfg.denylist), cfg.allowPrivateNetworks, url))
  }

  lemma AllowedIsPasses(w: World, m: Manifest, url: string)
    ensures Allowed(w, m, url) <==> Passes(w, m, url)
  {
    ManifestNetworkDecides(w.net, m, url);
    if w.egress.Some? {
      CheckUrlDecides(w.net, w.egress.value, url);
    }
  }

  /** The entry goes by the id asked for, if one was: its id, else its name, else "mcp". */
  ghost predicate GoesBy(s: Server, id: string)
    requires s.Server?
  {
    || id == ""
    || (s.id == id)
    || (s.id == "" && s.name == id)
    || (s.id == "" && s.name == "" && id == "mcp")
  }

  /** The entry goes by the id, has this base URL ("base_url", else "url"), and lists the tool. */
  ghost predicate Offers(s: Server, tool: string, id: string, base: string) {
    && s.Server? && GoesBy(s, id) && Some(tool) in s.tools
    && base != "" && (base == s.baseUrl || (s.baseUrl == "" && base == s.url))
  }

  lemma OffersIsServes(s: Server, tool: string, id: string, base: string)
    ensures Offers(s, tool, id, base) <==> Serves(s, tool, id) && base == Base(s)
  {
  }

  /** Entry `k` is the first that offers the tool, and no entry before it is malformed. */
  ghost predicate FirstOffer(servers: seq<Server>, tool: string, id: string, k: int, base: string) {
    && 0 <= k < |servers| && Offers(servers[k], tool, id, base)
    && (forall i :: 0 <= i < k ==> servers[i].Server?)
    && (forall i, other :: 0 <= i < k ==> !Offers(servers[i], tool, id, other))
  }

  lemma FirstOfferIsStop(servers: seq<Server>, tool: string, id: string, k: int)
    ensures StopsAt(servers, tool, id, k) && servers[k].Server? <==>
              0 <= k < |servers| && servers[k].Server? && FirstOffer(servers, tool, id, k, Base(servers[k]))
  {
    forall s: Server, base ensures Offers(s, tool, id, base) <==> Serves(s, tool, id) && base == Base(s) {
      OffersIsServes(s, tool, id, base);
    }
    if 0 <= k < |servers| && servers[k].Server? && FirstOffer(servers, tool, id, k, Base(servers[k])) {
      forall i | 0 <= i < k ensures !servers[i].NotAnObject? && !Serves(servers[i], tool, id) {
        assert servers[i].Server? ==> !Offers(servers[i], tool, id, Base(servers[i]));
      }
    }
  }

  /**
   What an MCP run sends.  Nothing if the registry's URL does not pass; else the registry is read, and
   exactly if it answers, its first entry on offer exists and the call's URL passes, the tool is called there.
   */
  lemma McpRequests(w: World, m: Manifest, sent: seq<Request>, call: string)
    requires EngineTrace(w, m, sent) && m.implementation.McpTool?
    requires m.implementation.registryUrl != "" && m.implementation.toolName != ""
    ensures var (url, tool, id) := (m.implementation.registryUrl, m.implementation.toolName, m.implementation.serverId);
            && (sent == [] <==> !Passes(w, m, url))
            && (sent != [] ==> sent[0] == Get(url) && |sent| <= 2)
            && (sent == [Get(url), Post(call)] <==>
                  && Passes(w, m, url) && w.registry(url).Servers? && Passes(w, m, call)
                  && exists k, base :: FirstOffer(w.registry(url).servers, tool, id, k, base) && call == base + "/tools/" + tool)
  {
    var (url, tool, id) := (m.implementation.registryUrl, m.implementation.toolName, m.implementation.serverId);
    AllowedIsPasses(w, m, url);
    AllowedIsPasses(w, m, call);
    if w.registry(url).Servers? {
      var servers := w.registry(url).servers;
      if k, base :| FirstOffer(servers, tool, id, k, base) && call == base + "/tools/" + tool {
        OffersIsServes(servers[k], tool, id, base);
        FirstOfferIsStop(servers, tool, id, k);
        OnlyStop(w, m, servers, tool, id, k);
        assert Calls(w, m, servers, tool, id, k) <==> Allowed(w, m, call);
      }
      if k :| Calls(w, m, servers, tool, id, k) && sent == [Get(url), Post(CallUrl(Base(servers[k]), tool))] {
        FirstOfferIsStop(servers, tool, id, k);
        assert sent == [Get(url), Post(call)] ==> call == Base(servers[k]) + "/tools/" + tool;
      }
    }
  }

  /** An A2A run posts to its endpoint exactly if that passes; nothing else sends anything. */
  lemma OtherRequests(w: World, m: Manifest, sent: seq<Request>)
    requires EngineTrace(w, m, sent) && !m.implementation.McpTool?
    ensures sent == if m.implementation.A2aRpc? && m.implementation.endpoint != "" && Passes(w, m, m.implementation.endpoint)
                    then [Post(m.implementation.endpoint)] else []
  {
    if m.implementation.A2aRpc? {
      AllowedIsPasses(w, m, m.implementation.endpoint);
    }
  }

  /** At most one POST, and it comes last. */
  lemma AtMostOneCall(w: World, m: Manifest, sent: seq<Request>)
    requires EngineTrace(w, m, sent)
    ensures |Posts(sent)| <= 1 && |sent| <= 2
    ensures forall i :: 0 <= i < |sent| && sent[i].Post? ==> i == |sent| - 1
    ensures forall q :: q in sent ==> Passes(w, m, q.url)
  {
    PostsOfTwo(sent);
    forall q | q in sent ensures Passes(w, m, q.url) {
      AllowedIsPasses(w, m, q.url);
    }
  }

  lemma PostsOfTwo(sent: seq<Request>)
    ensures sent == [] ==> Posts(sent) == []
    ensures |sent| == 1 ==> Posts(sent) == if sent[0].Post? then sent else []
    ensures |sent| == 2 && sent[0].Get? && sent[1].Post? ==> Posts(sent) == [sent[1]]
  {
    if |sent| == 1 {
      assert sent[1..] == [];
      assert Posts(sent[1..]) == [];
    } else if |sent| == 2 {
      assert sent[1..][1..] == [];
      assert Posts(sent[1..][1..]) == [];
    }
  }

  /** A stricter controller only cuts a run short: its requests are a prefix of those sent before. */
  lemma StricterEgressTruncates(w: World, strict: World, m: Manifest, sent: seq<Request>, sent': seq<Request>)
    requires w.egress.Some? && strict.egress.Some? && strict == w.(egress := strict.egress)
    requires RuleSet(strict.egress.value.allowlist) <= RuleSet(w.egress.value.allowlist)
    requires RuleSet(w.egress.value.denylist) <= RuleSet(strict.egress.value.denylist)
    requires strict.egress.value.allowPrivateNetworks ==> w.egress.value.allowPrivateNetworks
    requires EngineTrace(w, m, sent) && EngineTrace(strict, m, sent')
    ensures sent' <= sent
  {
    forall url ensures Allowed(strict, m, url) ==> Allowed(w, m, url) {
      if Allowed(strict, m, url) {
        GrantsAreMonotone(w.net, strict.egress.value, w.egress.value, url);
      }
    }
    if m.implementation.McpTool? && |sent'| == 2 {
      McpTruncates(w, strict, m, sent, sent');
    }
  }

  lemma McpTruncates(w: World, strict: World, m: Manifest, sent: seq<Request>, sent': seq<Request>)
    requires strict == w.(egress := strict.egress) && m.implementation.McpTool?
    requires forall url :: Allowed(strict, m, url) ==> Allowed(w, m, url)
    requires EngineTrace(w, m, sent) && EngineTrace(strict, m, sent') && |sent'| == 2
    ensures sent' == sent
  {
    var (url, tool, id) := (m.implementation.registryUrl, m.implementation.toolName, m.implementation.serverId);
    var servers := w.registry(url).servers;
    var k :| Calls(strict, m, servers, tool, id, k) && sent' == [Get(url), Post(CallUrl(Base(servers[k]), tool))];
    OnlyStop(w, m, servers, tool, id, k);
    assert Calls(w, m, servers, tool, id, k);
  }
}
