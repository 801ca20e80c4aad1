/**
 From discovery to execution: a tool that the MCP registry adapter lists (src/discovery.py) is run by
 the execution engine (src/execution.py) under the network permission that the adapter wrote into its
 manifest (src/egress.py).  Both read the same server list.
 */
module McpRoundTrip {
  import opened Wrappers
  import opened Text
  import opened Manifests
  import Discovery
  import opened Egress
  import opened Execution

  /** The engine's reading of a list entry that the adapter reads too. */
  function SeenByEngine(s: Discovery.McpServer): Server {
    match s
    case BadServer => Server.NotAnObject
    case Server(base, id, name, tools) => Server.Server(id, name, base, "", ToolNames(tools))
  }

  function ToolNames(tools: seq<Discovery.McpTool>): (r: seq<Option<string>>)
    ensures |r| == |tools|
    ensures forall i :: 0 <= i < |tools| ==> r[i] == (if tools[i].Tool? then Some(tools[i].name) else None)
  {
    seq(|tools|, i requires 0 <= i < |tools| => if tools[i].Tool? then Some(tools[i].name) else None)
  }

  function AllSeen(servers: seq<Discovery.McpServer>): (r: seq<Server>)
    ensures |r| == |servers|
    ensures forall i :: 0 <= i < |servers| ==> r[i] == SeenByEngine(servers[i])
  {
    seq(|servers|, i requires 0 <= i < |servers| => SeenByEngine(servers[i]))
  }

  /** A URL that serves as a rule as it stands: no outer blanks, and told from a host name. */
  predicate Tidy(net: Net, url: string) {
    net.strip(url) == url && Contains(url, "://")
  }

  /** Lower-casing leaves `url` an extension of `rule`. */
  predicate StillExtends(net: Net, rule: string, url: string) {
    StartsWith(net.lower(url), net.lower(rule))
  }

  lemma OwnAllowlistAdmits(net: Net, url: string, s: Discovery.McpServer, t: Discovery.McpTool)
    requires s.Server? && t.Tool? && s.base != "" && Tidy(net, url) && Tidy(net, s.base)
    requires StillExtends(net, s.base, CallUrl(s.base, t.name))
    ensures var m := Discovery.McpManifest(url, s, t);
            && EnforceManifestNetwork(net, m, url).Ok?
            && EnforceManifestNetwork(net, m, CallUrl(s.base, t.name)).Ok?
  {
    var m := Discovery.McpManifest(url, s, t);
    var rules := m.network.allowlist.value;
    assert rules[0] == s.base && rules[1] == url;
    var call := CallUrl(s.base, t.name);
    assert RuleMatches(net, rules[1], url, net.parse(url).host);
    assert RuleMatches(net, rules[0], call, net.parse(call).host);
    RuleDecides(net, rules[1], url);
    RuleDecides(net, rules[0], call);
    ManifestNetworkDecides(net, m, url);
    ManifestNetworkDecides(net, m, call);
  }

  /** And nothing else: the registry's and the server's base URL are the only rules. */
  lemma OwnAllowlistAdmitsNoMore(net: Net, url: string, s: Discovery.McpServer, t: Discovery.McpTool, other: string)
    requires s.Server? && t.Tool?
    requires EnforceManifestNetwork(net, Discovery.McpManifest(url, s, t), other).Ok?
    ensures Under(net, url, other) || (s.base != "" && Under(net, s.base, other))
  {
    ManifestNetworkDecides(net, Discovery.McpManifest(url, s, t), other);
  }

  /**
   A listed tool reaches its own server.  Let the adapter list tool `t` of server `k`, let no earlier
   server of the same identity offer that tool, and let the controller (if any) admit both URLs.  Then
   running the listed manifest sends exactly two requests: the registry is read again, and the tool is
   called on server `k`.
   */
  lemma ListedToolReachesItsServer(w: World, url: string, servers: seq<Discovery.McpServer>, k: nat, t: Discovery.McpTool,
                                   sent: seq<Request>)
    requires url != "" && w.registry(url) == Servers(AllSeen(servers))
    requires forall s :: s in servers ==> s.Server?
    requires k < |servers| && t in servers[k].tools && t.Tool? && t.name != "" && servers[k].base != ""
    requires Tidy(w.net, url) && Tidy(w.net, servers[k].base)
    requires StillExtends(w.net, servers[k].base, CallUrl(servers[k].base, t.name))
    requires EgressAllows(w, url) && EgressAllows(w, CallUrl(servers[k].base, t.name))
    requires forall i :: 0 <= i < k && servers[i].Server? && Sid(SeenByEngine(servers[i])) == Sid(SeenByEngine(servers[k])) ==>
               servers[i].base == "" || Some(t.name) !in ToolNames(servers[i].tools)
    requires EngineTrace(w, Discovery.McpManifest(url, servers[k], t), sent)
    ensures sent == [Get(url), Post(CallUrl(servers[k].base, t.name))]
  {
    var m := Discovery.McpManifest(url, servers[k], t);
    var seen := AllSeen(servers);
    var sid := Sid(SeenByEngine(servers[k]));
    OwnAllowlistAdmits(w.net, url, servers[k], t);
    ListedIsServed(servers[k], t);
    assert m.implementation == McpTool(url, t.name, sid);
    forall i | 0 <= i < k ensures !seen[i].NotAnObject? && !Serves(seen[i], t.name, sid) {
      assert servers[i] in servers;
    }
    assert StopsAt(seen, t.name, sid, k);
    OnlyStop(w, m, seen, t.name, sid, k);
  }

  lemma ListedIsServed(s: Discovery.McpServer, t: Discovery.McpTool)
    requires s.Server? && t in s.tools && t.Tool? && s.base != ""
    ensures Serves(SeenByEngine(s), t.name, Sid(SeenByEngine(s)))
  {
    var i :| 0 <= i < |s.tools| && s.tools[i] == t;
    assert ToolNames(s.tools)[i] == Some(t.name);
  }

  /** Nothing keeps a call of this tool from its server: the URLs are tidy and the controller, if any, admits them. */
  predicate ClearWay(w: World, url: string, base: string, tool: string) {
    && Tidy(w.net, url) && Tidy(w.net, base) && StillExtends(w.net, base, CallUrl(base, tool))
    && EgressAllows(w, url) && EgressAllows(w, CallUrl(base, tool))
  }

  /**
   The same for whatever the adapter lists, when identities in the registry are unique: the candidate
   stems from a server and a tool, and if nothing keeps the call from that server, it is made there.
   */
  lemma ListedCandidatesRun(valid: Schema, q: Discovery.Query, name: string, w: World, url: string,
                            servers: seq<Discovery.McpServer>, c: Discovery.Candidate, sent: seq<Request>)
    requires url != "" && w.registry(url) == Servers(AllSeen(servers))
    requires Discovery.McpCandidates(valid, q, name, url, servers).Ok?
    requires c in Discovery.McpCandidates(valid, q, name, url, servers).value
    requires forall i, j :: 0 <= i < j < |servers| && servers[i].Server? && servers[j].Server?
               ==> Sid(SeenByEngine(servers[i])) != Sid(SeenByEngine(servers[j]))
    requires EngineTrace(w, c.m, sent)
    ensures exists s, t ::
              && s in servers && s.Server? && t in s.tools && t.Tool?
              && c.m == Discovery.McpManifest(url, s, t)
              && (ClearWay(w, url, s.base, t.name) ==> sent == [Get(url), Post(CallUrl(s.base, t.name))])
  {
    Discovery.McpListed(valid, q, name, url, servers, c);
    var s :| s in servers && s.Server? && Discovery.ServerOffers(q, name, url, s, s.tools, c);
    var t :| && t in s.tools && t.Tool? && t.name != ""
             && c == Discovery.Candidate(Discovery.McpManifest(url, s, t), name,
                                         q.Score(Discovery.McpManifest(url, s, t)) - 16, None);
    var k :| 0 <= k < |servers| && servers[k] == s;
    if ClearWay(w, url, s.base, t.name) {
      assert s.base != "" by {
        assert Contains(s.base, "://");
      }
      ListedToolReachesItsServer(w, url, servers, k, t, sent);
    }
  }

  /**
   Whatever the adapter lists is an untrusted, enabled, programmatic capability named after its tool, so
   that it is installed only under a policy that allows "untrusted", and runs on no other channel.
   */
  lemma ListedNeedsConsent(valid: Schema, q: Discovery.Query, name: string, url: string, servers: seq<Discovery.McpServer>,
                           c: Discovery.Candidate, policy: Policy, requested: Option<string>)
    requires Discovery.McpCandidates(valid, q, name, url, servers).Ok?
    requires c in Discovery.McpCandidates(valid, q, name, url, servers).value
    ensures Consents(policy, c.m) <==> "untrusted" in policy.trustAllow
    ensures MayRun(c.m, requested) <==> requested in {None, Some(""), Some("programmatic")}
    ensures exists s, t ::
              && s in servers && s.Server? && t in s.tools && t.Tool? && t.name != ""
              && c.m.id == "mcp.tool:" + t.name && c.m.version == "0.0.0"
              && c.m.description == (if t.description == "" then "MCP tool " + t.name else t.description)
  {
    Discovery.McpListed(valid, q, name, url, servers, c);
    var s :| s in servers && s.Server? && Discovery.ServerOffers(q, name, url, s, s.tools, c);
    var t :| && t in s.tools && t.Tool? && t.name != ""
             && c == Discovery.Candidate(Discovery.McpManifest(url, s, t), name,
                                         q.Score(Discovery.McpManifest(url, s, t)) - 16, None);
    assert c.m.id == "mcp.tool:" + t.name;
  }
}
