/**
 Egress rules (src/egress.py).  A host rule is shown to be a suffix test on dot-separated labels, and
 the controller's decision to be a predicate on the sets of rules.

 String normalisation, URL splitting and the classification of addresses are parameters (`Net`).
 */
module Egress {
  import opened Wrappers
  import opened Text
  import opened Manifests

  /** What `urlparse` yields; "" stands for a missing host name. */
  datatype Url = Url(scheme: string, host: string)

  datatype Net = Net(
    strip: string -> string,
    lower: string -> string,
    parse: string -> Url,
    isPrivateAddress: string -> bool)       // loopback, private or link-local

  datatype EgressConfig = EgressConfig(allowlist: seq<string>, denylist: seq<string>, allowPrivateNetworks: bool)

  const LOOPBACK: set<string> := {"127.0.0.1", "::1", "localhost"}

  predicate IsPrivateOrLoopback(net: Net, host: string) {
    host == "localhost" || net.isPrivateAddress(host)
  }

  function Norm(net: Net, s: string): string {
    net.lower(net.strip(s))
  }

  /** The comparison of `_host_matches`, on normalised names. */
  predicate NameMatches(rule: string, host: string) {
    && rule != "" && host != ""
    && (|| (StartsWith(rule, "*.") && EndsWith(host, rule[1..]))
        || host == rule
        || EndsWith(host, "." + rule))
  }

  predicate HostMatches(net: Net, rule: string, host: string) {
    NameMatches(Norm(net, rule), Norm(net, host))
  }

  predicate UrlPrefixMatches(net: Net, prefix: string, url: string) {
    StartsWith(net.lower(url), Norm(net, prefix))
  }

  /** A rule with "://" is a URL prefix, any other a host rule. */
  predicate RuleMatches(net: Net, rule: string, url: string, host: string) {
    if Contains(rule, "://") then UrlPrefixMatches(net, rule, url) else HostMatches(net, rule, host)
  }

  /** The loops over a rule list: stop at the first rule that matches. */
  predicate AnyMatches(net: Net, rules: seq<string>, url: string, host: string) {
    if rules == [] then false
    else RuleMatches(net, rules[0], url, host) || AnyMatches(net, rules[1..], url, host)
  }

  function CheckUrl(net: Net, cfg: EgressConfig, url: string): Result<()> {
    var parsed := net.parse(url);
    if parsed.scheme !in {"http", "https"} then Err(PolicyDenied)
    else if parsed.host == "" then Err(PolicyDenied)
    else if IsPrivateOrLoopback(net, parsed.host) && parsed.host in LOOPBACK then Ok(())
    else if IsPrivateOrLoopback(net, parsed.host) && !cfg.allowPrivateNetworks then Err(PolicyDenied)
    else if AnyMatches(net, cfg.denylist, url, parsed.host) then Err(PolicyDenied)
    else if cfg.allowlist == [] then Err(PolicyDenied)
    else if AnyMatches(net, cfg.allowlist, url, parsed.host) then Ok(())
    else Err(PolicyDenied)
  }

  /** `enforce_manifest_network`; a missing or empty mode reads as "deny". */
  function EnforceManifestNetwork(net: Net, m: Manifest, url: string): Result<()> {
    var mode := if m.network.mode.None? || m.network.mode.value == "" then "deny" else m.network.mode.value;
    if mode == "deny" then Err(PolicyDenied)
    else if mode != "allowlist" then Err(PolicyDenied)
    else if m.network.allowlist.None? || m.network.allowlist.value == [] then Err(PolicyDenied)
    else if AnyMatches(net, m.network.allowlist.value, url, net.parse(url).host) then Ok(())
    else Err(PolicyDenied)
  }

  // ---------------------------------------------------------------- names as label sequences

  /** `s.split(".")` */
  function Labels(s: string): (r: seq<string>)
    ensures |r| > 0
  {
    if s == "" then [""]
    else if s[0] == '.' then [""] + Labels(s[1..])
    else
      var rest := Labels(s[1..]);
      [[s[0]] + rest[0]] + rest[1..]
  }

  predicate IsSuffix<T(==)>(part: seq<T>, whole: seq<T>) {
    |part| <= |whole| && whole[|whole| - |part|..] == part
  }

  function JoinDots(labels: seq<string>): string
    requires labels != []
  {
    if |labels| == 1 then labels[0] else labels[0] + "." + JoinDots(labels[1..])
  }

  lemma {:induction false} JoinUndoesLabels(s: string)
    ensures JoinDots(Labels(s)) == s
  {
    if s != "" {
      JoinUndoesLabels(s[1..]);
      var rest := Labels(s[1..]);
      if s[0] == '.' {
        assert ([""] + rest)[1..] == rest;
        assert s == "." + s[1..];
      } else {
        assert s == [s[0]] + s[1..];
        if |rest| > 1 {
          assert Labels(s)[1..] == rest[1..];
          assert [s[0]] + (rest[0] + "." + JoinDots(rest[1..])) == ([s[0]] + rest[0]) + "." + JoinDots(rest[1..]);
        }
      }
    }
  }

  /** Splitting at a dot splits the labels. */
  lemma {:induction false} LabelsAtDot(a: string, b: string)
    ensures Labels(a + "." + b) == Labels(a) + Labels(b)
  {
    if a == "" {
      assert (a + "." + b)[1..] == b;
    } else {
      assert (a + "." + b)[1..] == a[1..] + "." + b;
      LabelsAtDot(a[1..], b);
    }
  }

  /** Cutting the first labels off leaves a tail that follows a dot. */
  lemma {:induction false} LabelSuffixFollowsDot(labels: seq<string>, tail: seq<string>)
    requires tail != [] && IsSuffix(tail, labels) && |tail| < |labels|
    ensures EndsWith(JoinDots(labels), "." + JoinDots(tail))
  {
    if |labels| == |tail| + 1 {
      assert labels[1..] == tail;
      assert JoinDots(labels) == labels[0] + ("." + JoinDots(tail));
    } else {
      LabelSuffixFollowsDot(labels[1..], tail);
      var inner := JoinDots(labels[1..]);
      var n := |inner| - |JoinDots(tail)| - 1;
      assert JoinDots(labels)[|labels[0]| + 1 + n..] == inner[n..];
    }
  }

  /** Being preceded by a dot is being a proper suffix of the labels, for every two texts. */
  lemma DotSuffixIsLabelSuffix(rule: string, host: string)
    ensures EndsWith(host, "." + rule) <==> |Labels(rule)| < |Labels(host)| && IsSuffix(Labels(rule), Labels(host))
  {
    if EndsWith(host, "." + rule) {
      var a := host[..|host| - |rule| - 1];
      assert host == a + "." + rule;
      LabelsAtDot(a, rule);
    }
    if |Labels(rule)| < |Labels(host)| && IsSuffix(Labels(rule), Labels(host)) {
      LabelSuffixFollowsDot(Labels(host), Labels(rule));
      JoinUndoesLabels(host);
      JoinUndoesLabels(rule);
    }
  }

  lemma LabelsAreInjective(a: string, b: string)
    ensures Labels(a) == Labels(b) <==> a == b
  {
    JoinUndoesLabels(a);
    JoinUndoesLabels(b);
  }

  /** A host rule matches when its labels end the host's labels; after "*." they must leave some over. */
  lemma HostRulesAreLabelSuffixes(net: Net, rule: string, host: string)
    ensures var r, h := Norm(net, rule), Norm(net, host);
            HostMatches(net, rule, host) <==>
              && r != "" && h != ""
              && if StartsWith(r, "*.") then |Labels(r[2..])| < |Labels(h)| && IsSuffix(Labels(r[2..]), Labels(h))
                 else IsSuffix(Labels(r), Labels(h))
  {
    var r, h := Norm(net, rule), Norm(net, host);
    DotSuffixIsLabelSuffix(r, h);
    LabelsAreInjective(r, h);
    if |Labels(r)| == |Labels(h)| && IsSuffix(Labels(r), Labels(h)) {
      assert Labels(h) == Labels(h)[0..];
    }
    if StartsWith(r, "*.") {
      var rest := r[2..];
      assert r[1..] == "." + rest;
      DotSuffixIsLabelSuffix(rest, h);
      assert r == "*" + "." + rest;
      LabelsAtDot("*", rest);
      assert Labels(r)[|Labels(r)| - |Labels(rest)|..] == Labels(rest);
      if IsSuffix(Labels(r), Labels(h)) {
        SuffixTransitive(Labels(rest), Labels(r), Labels(h));
      }
    }
  }

  lemma SuffixTransitive<T>(a: seq<T>, b: seq<T>, c: seq<T>)
    requires IsSuffix(a, b) && IsSuffix(b, c)
    ensures IsSuffix(a, c)
  {
    assert c[|c| - |a|..] == c[|c| - |b|..][|b| - |a|..];
  }

  /** A longer name that merely ends in the rule's text is matched only if a dot comes in between. */
  lemma LookalikesAreRejected(rule: string, x: string)
    requires rule != "" && !StartsWith(rule, "*.") && x != ""
    ensures NameMatches(rule, x + rule) <==> x[|x| - 1] == '.'
  {
    var host := x + rule;
    assert host[|host| - |rule| - 1..] == [x[|x| - 1]] + rule;
    assert ([x[|x| - 1]] + rule)[0] == x[|x| - 1] && ("." + rule)[0] == '.';
    if x[|x| - 1] == '.' {
      assert host[|host| - |rule| - 1..] == "." + rule;
    }
  }

  /** What a rule covers is covered by every rule that covers the rule itself. */
  lemma PlainRulesCompose(outer: string, inner: string, host: string)
    requires !StartsWith(outer, "*.") && !StartsWith(inner, "*.")
    requires NameMatches(outer, inner) && NameMatches(inner, host)
    ensures NameMatches(outer, host)
  {
    var id := Net(s => s, s => s, s => Url("", s), s => false);
    HostRulesAreLabelSuffixes(id, outer, inner);
    HostRulesAreLabelSuffixes(id, inner, host);
    HostRulesAreLabelSuffixes(id, outer, host);
    SuffixTransitive(Labels(outer), Labels(inner), Labels(host));
  }

  // ---------------------------------------------------------------- decisions as predicates on rule sets

  /** The names after normalising, label by label: a plain rule covers its subdomains and itself, "*." only the subdomains. */
  ghost predicate NameUnder(rule: string, host: string) {
    && rule != "" && host != ""
    && if |rule| >= 2 && rule[0] == '*' && rule[1] == '.'
       then |Labels(rule[2..])| < |Labels(host)| && IsSuffix(Labels(rule[2..]), Labels(host))
       else IsSuffix(Labels(rule), Labels(host))
  }

  /** What a rule covers: a rule with "://" in it all URLs it begins, in lower case; any other the host names under it. */
  ghost predicate Under(net: Net, rule: string, url: string) {
    if exists front, rest :: rule == front + "://" + rest
    then exists rest :: net.lower(url) == net.lower(net.strip(rule)) + rest
    else NameUnder(net.lower(net.strip(rule)), net.lower(net.strip(net.parse(url).host)))
  }

  lemma RuleDecides(net: Net, rule: string, url: string)
    ensures RuleMatches(net, rule, url, net.parse(url).host) <==> Under(net, rule, url)
  {
    ContainsIsConcatenation(rule, "://");
    StartsWithIsConcatenation(net.lower(url), Norm(net, rule));
    HostRulesAreLabelSuffixes(net, rule, net.parse(url).host);
    var r := Norm(net, rule);
    assert StartsWith(r, "*.") <==> |r| >= 2 && r[0] == '*' && r[1] == '.';
  }

  lemma {:induction false} AnyMatchesIsExists(net: Net, rules: seq<string>, url: string)
    ensures AnyMatches(net, rules, url, net.parse(url).host) <==> exists rule :: rule in rules && Under(net, rule, url)
  {
    if rules != [] {
      AnyMatchesIsExists(net, rules[1..], url);
      RuleDecides(net, rules[0], url);
      assert rules == [rules[0]] + rules[1..];
    }
  }

  /** The decision, stated on sets of rules. */
  ghost predicate Permitted(net: Net, allow: set<string>, deny: set<string>, allowPrivate: bool, url: string) {
    var parsed := net.parse(url);
    var private := parsed.host == "localhost" || net.isPrivateAddress(parsed.host);
    && (parsed.scheme == "http" || parsed.scheme == "https")
    && parsed.host != ""
    && (|| parsed.host == "localhost"
        || (parsed.host in {"127.0.0.1", "::1"} && net.isPrivateAddress(parsed.host))
        || (&& (private ==> allowPrivate)
            && (exists rule :: rule in allow && Under(net, rule, url))
            && !exists rule :: rule in deny && Under(net, rule, url)))
  }

  function RuleSet(rules: seq<string>): set<string> {
    set rule | rule in rules
  }

  lemma CheckUrlDecides(net: Net, cfg: EgressConfig, url: string)
    ensures CheckUrl(net, cfg, url) ==
            if Permitted(net, RuleSet(cfg.allowlist), RuleSet(cfg.denylist), cfg.allowPrivateNetworks, url)
            then Ok(()) else Err(PolicyDenied)
  {
    AnyMatchesIsExists(net, cfg.denylist, url);
    AnyMatchesIsExists(net, cfg.allowlist, url);
  }

  /** Order and repetition of rules do not matter. */
  lemma RuleOrderIsIrrelevant(net: Net, a: EgressConfig, b: EgressConfig, url: string)
    requires RuleSet(a.allowlist) == RuleSet(b.allowlist) && RuleSet(a.denylist) == RuleSet(b.denylist)
    requires a.allowPrivateNetworks == b.allowPrivateNetworks
    ensures CheckUrl(net, a, url) == CheckUrl(net, b, url)
  {
    CheckUrlDecides(net, a, url);
    CheckUrlDecides(net, b, url);
  }

  /** More allow rules, fewer deny rules or a laxer private-network switch never take a grant away. */
  lemma GrantsAreMonotone(net: Net, a: EgressConfig, b: EgressConfig, url: string)
    requires RuleSet(a.allowlist) <= RuleSet(b.allowlist) && RuleSet(b.denylist) <= RuleSet(a.denylist)
    requires a.allowPrivateNetworks ==> b.allowPrivateNetworks
    requires CheckUrl(net, a, url).Ok?
    ensures CheckUrl(net, b, url).Ok?
  {
    CheckUrlDecides(net, a, url);
    CheckUrlDecides(net, b, url);
  }

  /**
   A matching deny rule wins over every allow rule exactly when the host is not one of the three
   loopback names (which are recognised as private).
   */
  lemma DenyWins(net: Net, cfg: EgressConfig, url: string, rule: string)
    requires net.isPrivateAddress("127.0.0.1") && net.isPrivateAddress("::1")
    requires rule in cfg.denylist && Under(net, rule, url)
    ensures CheckUrl(net, cfg, url).Ok? <==>
              net.parse(url).scheme in {"http", "https"} && net.parse(url).host in {"127.0.0.1", "::1", "localhost"}
  {
    CheckUrlDecides(net, cfg, url);
  }

  /** Without an allowlist only the loopback names are reachable. */
  lemma EmptyAllowlistIsClosed(net: Net, cfg: EgressConfig, url: string)
    requires cfg.allowlist == [] && CheckUrl(net, cfg, url).Ok?
    ensures net.parse(url).host in {"127.0.0.1", "::1", "localhost"}
  {
    CheckUrlDecides(net, cfg, url);
  }

  /** Without the switch, a private address other than the loopback names is out of reach, whatever the rules say. */
  lemma PrivateNeedsTheSwitch(net: Net, cfg: EgressConfig, url: string)
    requires !cfg.allowPrivateNetworks && net.isPrivateAddress(net.parse(url).host)
    ensures CheckUrl(net, cfg, url).Ok? ==> net.parse(url).host in {"127.0.0.1", "::1", "localhost"}
  {
    CheckUrlDecides(net, cfg, url);
  }

  lemma ManifestNetworkDecides(net: Net, m: Manifest, url: string)
    ensures EnforceManifestNetwork(net, m, url) ==
            if && m.network.mode == Some("allowlist") && m.network.allowlist.Some?
               && exists rule :: rule in m.network.allowlist.value && Under(net, rule, url)
            then Ok(()) else Err(PolicyDenied)
  {
    if m.network.allowlist.Some? {
      AnyMatchesIsExists(net, m.network.allowlist.value, url);
    }
  }
}
