/**
 Scores, candidates and the registry adapters of src/discovery.py.  Scores are multiples of 0.25 and
 are kept in quarters.  Each adapter appends candidates in a loop and then sorts them; an exception
 anywhere (a source that cannot be read, an invalid manifest) loses the whole list.
 */
module Discovery {
  import opened Wrappers
  import opened Sorting
  import opened Text
  import opened Manifests
  import opened Catalog

  datatype Candidate = Candidate(m: Manifest, source: string, quarters: int, manifestUrl: Option<string>)

  const BY_SCORE: (Candidate, Candidate) -> bool := (a: Candidate, b: Candidate) => a.quarters >= b.quarters

  lemma ScoreOrder()
    ensures TotalPreorder(BY_SCORE)
  {
  }

  // ---------------------------------------------------------------- scores

  function TrustRank(level: string): nat {
    if level == "verified" then 0
    else if level == "local" then 1
    else if level == "community" then 2
    else if level == "untrusted" then 3
    else 9
  }

  /** What a search asks for: the intent, and Python's `str.lower`. */
  datatype Query = Query(intent: string, lower: string -> string) {

    predicate InId(m: Manifest) {
      lower(intent) != "" && Contains(lower(m.id), lower(intent))
    }

    predicate InDescription(m: Manifest) {
      lower(intent) != "" && Contains(lower(m.description), lower(intent))
    }

    /** `score_manifest`, in quarters. */
    function Score(m: Manifest): int {
      (if InId(m) then 20 else 0) + (if InDescription(m) then 8 else 0) - TrustRank(m.trust)
    }

    /** The score of a catalog candidate: 10.0 more when the base score is positive. */
    function CatalogScore(m: Manifest): int {
      Score(m) + (if Score(m) > 0 then 40 else 0)
    }
  }

  // ---- what a score is made of

  /** The four trust levels of the manifest schema. */
  ghost predicate IsLevel(level: string) {
    level == "verified" || level == "local" || level == "community" || level == "untrusted"
  }

  /** The intent, in lower case, is not empty and occurs in the text, in lower case. */
  ghost predicate Hits(q: Query, text: string) {
    var intent := q.lower(q.intent);
    intent != "" && exists front, rest :: q.lower(text) == front + intent + rest
  }

  ghost predicate HitsSomewhere(q: Query, m: Manifest) {
    Hits(q, m.id) || Hits(q, m.description)
  }

  lemma HitsAreMatches(q: Query, m: Manifest)
    ensures q.InId(m) <==> Hits(q, m.id)
    ensures q.InDescription(m) <==> Hits(q, m.description)
  {
    ContainsIsConcatenation(q.lower(m.id), q.lower(q.intent));
    ContainsIsConcatenation(q.lower(m.description), q.lower(q.intent));
  }

  /** A hit in the id is worth 5.0 and one in the description 2.0; a verified manifest without either has score 0. */
  lemma HitsCount(q: Query, m: Manifest, n: Manifest)
    requires m.trust == n.trust
    ensures q.Score(m) - q.Score(n) == (if Hits(q, m.id) then 20 else 0) - (if Hits(q, n.id) then 20 else 0)
                                       + (if Hits(q, m.description) then 8 else 0) - (if Hits(q, n.description) then 8 else 0)
    ensures m.trust == "verified" && !Hits(q, m.id) && !Hits(q, m.description) ==> q.Score(m) == 0
  {
    HitsAreMatches(q, m);
    HitsAreMatches(q, n);
  }

  /** Among manifests alike, each step of trust is worth 0.25, and a level outside the four costs another 1.5. */
  lemma TrustCounts(q: Query, m: Manifest, n: Manifest)
    requires m.id == n.id && m.description == n.description
    ensures m.trust == "verified" && n.trust == "local" ==> q.Score(m) == q.Score(n) + 1
    ensures m.trust == "local" && n.trust == "community" ==> q.Score(m) == q.Score(n) + 1
    ensures m.trust == "community" && n.trust == "untrusted" ==> q.Score(m) == q.Score(n) + 1
    ensures m.trust == "untrusted" && !IsLevel(n.trust) ==> q.Score(m) == q.Score(n) + 6
  {
  }

  /** Catalog candidates gain 10.0 for a hit, but outside the four trust levels only for one in the id. */
  lemma BoostGoesToHits(q: Query, m: Manifest)
    ensures q.CatalogScore(m) == q.Score(m) +
              if Hits(q, m.id) || (Hits(q, m.description) && IsLevel(m.trust))
              then 40 else 0
  {
    HitsAreMatches(q, m);
  }

  /** For the four schema trust levels, a manifest that matches outranks every one that is not boosted. */
  lemma MatchingGap(q: Query, m: Manifest, other: Manifest, penalty: nat)
    requires IsLevel(m.trust) && HitsSomewhere(q, m)
    ensures q.CatalogScore(m) - (q.Score(other) - penalty) >= 17
  {
    HitsAreMatches(q, m);
  }

  // ---------------------------------------------------------------- static catalogs

  datatype StaticSource = Unreadable | NotEntries | Entries(items: seq<Item>)

  function StaticCandidates(valid: Schema, q: Query, name: string, items: seq<Item>): Result<seq<Candidate>> {
    if items == [] then Ok([])
    else
      var n := |items| - 1;
      var out :- StaticCandidates(valid, q, name, items[..n]);
      match items[n]
      case NotADict => Ok(out)
      case Dict(m) =>
        if valid(m) then Ok(out + [Candidate(m, name, q.Score(m), None)]) else Err(BadManifest)
  }

  function StaticList(valid: Schema, q: Query, name: string, source: StaticSource): Result<seq<Candidate>> {
    match source
    case Unreadable => Err(Uncaught)
    case NotEntries => Ok([])
    case Entries(items) => StaticCandidates(valid, q, name, items)
  }

  function Sorted(r: Result<seq<Candidate>>): Result<seq<Candidate>> {
    match r
    case Ok(cs) => Ok(StableSort(BY_SCORE, cs))
    case Err(e) => Err(e)
  }

  lemma {:induction false} StaticErrorSticks(valid: Schema, q: Query, name: string, items: seq<Item>, i: nat)
    requires i <= |items| && StaticCandidates(valid, q, name, items[..i]).Err?
    ensures StaticCandidates(valid, q, name, items) == StaticCandidates(valid, q, name, items[..i])
    decreases |items| - i
  {
    if i == |items| {
      assert items[..i] == items;
    } else {
      assert items[..i + 1][..i] == items[..i];
      StaticErrorSticks(valid, q, name, items, i + 1);
    }
  }

  /** `StaticCatalogAdapter.list` */
  method ListStatic(valid: Schema, q: Query, name: string, source: StaticSource) returns (r: Result<seq<Candidate>>)
    ensures r == Sorted(StaticList(valid, q, name, source))
  {
    if source.Unreadable? {
      return Err(Uncaught);
    }
    var candidates: seq<Candidate> := [];
    if source.Entries? {
      for i := 0 to |source.items|
        invariant StaticCandidates(valid, q, name, source.items[..i]) == Ok(candidates)
      {
        assert source.items[..i + 1][..i] == source.items[..i];
        if source.items[i].Dict? {
          var m := source.items[i].m;
          if !valid(m) {
            StaticErrorSticks(valid, q, name, source.items, i + 1);
            return Err(BadManifest);
          }
          candidates := candidates + [Candidate(m, name, q.Score(m), None)];
        }
      }
      assert source.items[..|source.items|] == source.items;
    }
    candidates := StableSort(BY_SCORE, candidates);
    return Ok(candidates);
  }

  // ---------------------------------------------------------------- http catalogs

  datatype HttpEntry =
    | OtherEntry                                            // not an object, or nothing usable in it
    | Inline(m: Manifest)
    | ByUrl(url: string, shell: Option<Manifest>)             // a url, perhaps with a candidate_manifest

  /** What one catalog url gives. */
  datatype HttpPage = FetchFails | NotList | Page(entries: seq<HttpEntry>)

  function HttpEntryCandidates(valid: Schema, q: Query, name: string, e: HttpEntry): Result<seq<Candidate>> {
    match e
    case OtherEntry => Ok([])
    case Inline(m) => if valid(m) then Ok([Candidate(m, name, q.Score(m) - 8, None)]) else Err(BadManifest)
    case ByUrl(url, None) => Ok([])
    case ByUrl(url, Some(m)) =>
      if url == "" then Ok([])
      else if valid(m) then Ok([Candidate(m, name, q.Score(m) - 12, Some(url))]) else Err(BadManifest)
  }

  function HttpPageCandidates(valid: Schema, q: Query, name: string, entries: seq<HttpEntry>): Result<seq<Candidate>> {
    if entries == [] then Ok([])
    else
      var n := |entries| - 1;
      var out :- HttpPageCandidates(valid, q, name, entries[..n]);
      var more :- HttpEntryCandidates(valid, q, name, entries[n]);
      Ok(out + more)
  }

  function HttpList(valid: Schema, q: Query, name: string, pages: seq<HttpPage>): Result<seq<Candidate>> {
    if pages == [] then Ok([])
    else
      var n := |pages| - 1;
      var out :- HttpList(valid, q, name, pages[..n]);
      match pages[n]
      case FetchFails => Err(Uncaught)
      case NotList => Ok(out)
      case Page(entries) =>
        var more :- HttpPageCandidates(valid, q, name, entries);
        Ok(out + more)
  }

  lemma {:induction false} HttpPageErrorSticks(valid: Schema, q: Query, name: string, entries: seq<HttpEntry>, i: nat)
    requires i <= |entries| && HttpPageCandidates(valid, q, name, entries[..i]).Err?
    ensures HttpPageCandidates(valid, q, name, entries) == HttpPageCandidates(valid, q, name, entries[..i])
    decreases |entries| - i
  {
    if i == |entries| {
      assert entries[..i] == entries;
    } else {
      assert entries[..i + 1][..i] == entries[..i];
      HttpPageErrorSticks(valid, q, name, entries, i + 1);
    }
  }

  lemma {:induction false} HttpErrorSticks(valid: Schema, q: Query, name: string, pages: seq<HttpPage>, i: nat)
    requires i <= |pages| && HttpList(valid, q, name, pages[..i]).Err?
    ensures HttpList(valid, q, name, pages) == HttpList(valid, q, name, pages[..i])
    decreases |pages| - i
  {
    if i == |pages| {
      assert pages[..i] == pages;
    } else {
      assert pages[..i + 1][..i] == pages[..i];
      HttpErrorSticks(valid, q, name, pages, i + 1);
    }
  }

  /** The inner loop of `HttpCatalogAdapter.list`: the entries of one catalog. */
  method ListHttpPage(valid: Schema, q: Query, name: string, entries: seq<HttpEntry>) returns (r: Result<seq<Candidate>>)
    ensures r == HttpPageCandidates(valid, q, name, entries)
  {
    var out: seq<Candidate> := [];
    for k := 0 to |entries|
      invariant HttpPageCandidates(valid, q, name, entries[..k]) == Ok(out)
    {
      assert entries[..k + 1][..k] == entries[..k];
      var one := HttpEntryCandidates(valid, q, name, entries[k]);
      if one.Err? {
        HttpPageErrorSticks(valid, q, name, entries, k + 1);
        return Err(one.error);
      }
      out := out + one.value;
    }
    assert entries[..|entries|] == entries;
    return Ok(out);
  }

  /** One more catalog url. */
  lemma HttpListStep(valid: Schema, q: Query, name: string, pages: seq<HttpPage>, i: nat, out: seq<Candidate>)
    requires i < |pages| && HttpList(valid, q, name, pages[..i]) == Ok(out)
    ensures HttpList(valid, q, name, pages[..i + 1]) == match pages[i]
              case FetchFails => Err(Uncaught)
              case NotList => Ok(out)
              case Page(entries) =>
                match HttpPageCandidates(valid, q, name, entries)
                case Err(e) => Err(e)
                case Ok(more) => Ok(out + more)
  {
    assert pages[..i + 1][..i] == pages[..i];
  }

  /** `HttpCatalogAdapter.list` */
  method ListHttp(valid: Schema, q: Query, name: string, pages: seq<HttpPage>) returns (r: Result<seq<Candidate>>)
    ensures r == Sorted(HttpList(valid, q, name, pages))
  {
    var candidates: seq<Candidate> := [];
    for i := 0 to |pages|
      invariant HttpList(valid, q, name, pages[..i]) == Ok(candidates)
    {
      HttpListStep(valid, q, name, pages, i, candidates);
      if pages[i].FetchFails? {
        HttpErrorSticks(valid, q, name, pages, i + 1);
        return Err(Uncaught);
      }
      if pages[i].Page? {
        var more := ListHttpPage(valid, q, name, pages[i].entries);
        if more.Err? {
          HttpErrorSticks(valid, q, name, pages, i + 1);
          return Err(more.error);
        }
        candidates := candidates + more.value;
      }
    }
    assert pages[..|pages|] == pages;
    candidates := StableSort(BY_SCORE, candidates);
    return Ok(candidates);
  }

  // ---------------------------------------------------------------- the MCP registry

  datatype McpTool = BadTool | Tool(name: string, description: string)
  datatype McpServer = BadServer | Server(base: string, id: string, name: string, tools: seq<McpTool>)

  /** What the registry answers: the request fails, or a list (anything that is not one reads as empty). */
  datatype McpAnswer = NoAnswer | Answered(servers: seq<McpServer>)

  /** The manifest made up for an MCP tool; "" stands for a missing or empty value. */
  function McpManifest(registryUrl: string, s: McpServer, t: McpTool): Manifest
    requires s.Server? && t.Tool?
  {
    var serverId := if s.id != "" then s.id else if s.name != "" then s.name else "mcp";
    Manifest(
      id := "mcp.tool:" + t.name, version := "0.0.0",
      description := if t.description != "" then t.description else "MCP tool " + t.name,
      trust := "untrusted", enabled := Some(true), requiresOauth := None, channel := Some("programmatic"),
      secrets := NoSecrets,
      network := Network(Some("allowlist"), Some(if s.base != "" then [s.base, registryUrl] else [registryUrl])),
      implementation := Implementation.McpTool(registryUrl, t.name, serverId),
      governanceVersion := None, governance := None, rest := "")
  }

  function McpServerCandidates(valid: Schema, q: Query, name: string, url: string, s: McpServer, tools: seq<McpTool>)
    : Result<seq<Candidate>>
    requires s.Server?
    decreases |tools|
  {
    if tools == [] then Ok([])
    else
      var n := |tools| - 1;
      var out :- McpServerCandidates(valid, q, name, url, s, tools[..n]);
      if tools[n].BadTool? then Err(Uncaught)
      else if tools[n].name == "" then Ok(out)
      else
        var m := McpManifest(url, s, tools[n]);
        if valid(m) then Ok(out + [Candidate(m, name, q.Score(m) - 16, None)]) else Err(BadManifest)
  }

  function McpCandidates(valid: Schema, q: Query, name: string, url: string, servers: seq<McpServer>)
    : Result<seq<Candidate>>
  {
    if servers == [] then Ok([])
    else
      var n := |servers| - 1;
      var out :- McpCandidates(valid, q, name, url, servers[..n]);
      if servers[n].BadServer? then Err(Uncaught)
      else
        var more :- McpServerCandidates(valid, q, name, url, servers[n], servers[n].tools);
        Ok(out + more)
  }

  function McpList(valid: Schema, q: Query, name: string, url: string, answer: McpAnswer): Result<seq<Candidate>> {
    match answer
    case NoAnswer => Err(Uncaught)
    case Answered(servers) => McpCandidates(valid, q, name, url, servers)
  }

  lemma {:induction false} McpToolErrorSticks(valid: Schema, q: Query, name: string, url: string, s: McpServer,
                                              tools: seq<McpTool>, i: nat)
    requires s.Server? && i <= |tools| && McpServerCandidates(valid, q, name, url, s, tools[..i]).Err?
    ensures McpServerCandidates(valid, q, name, url, s, tools) == McpServerCandidates(valid, q, name, url, s, tools[..i])
    decreases |tools| - i
  {
    if i == |tools| {
      assert tools[..i] == tools;
    } else {
      assert tools[..i + 1][..i] == tools[..i];
      McpToolErrorSticks(valid, q, name, url, s, tools, i + 1);
    }
  }

  lemma {:induction false} McpErrorSticks(valid: Schema, q: Query, name: string, url: string, servers: seq<McpServer>, i: nat)
    requires i <= |servers| && McpCandidates(valid, q, name, url, servers[..i]).Err?
    ensures McpCandidates(valid, q, name, url, servers) == McpCandidates(valid, q, name, url, servers[..i])
    decreases |servers| - i
  {
    if i == |servers| {
      assert servers[..i] == servers;
    } else {
      assert servers[..i + 1][..i] == servers[..i];
      McpErrorSticks(valid, q, name, url, servers, i + 1);
    }
  }

  /** The inner loop of `McpRegistryAdapter.list`: the tools of one server. */
  method ListMcpServer(valid: Schema, q: Query, name: string, url: string, s: McpServer) returns (r: Result<seq<Candidate>>)
    requires s.Server?
    ensures r == McpServerCandidates(valid, q, name, url, s, s.tools)
  {
    var out: seq<Candidate> := [];
    for k := 0 to |s.tools|
      invariant McpServerCandidates(valid, q, name, url, s, s.tools[..k]) == Ok(out)
    {
      assert s.tools[..k + 1][..k] == s.tools[..k];
      var t := s.tools[k];
      if t.BadTool? {
        McpToolErrorSticks(valid, q, name, url, s, s.tools, k + 1);
        return Err(Uncaught);
      }
      if t.name != "" {
        var m := McpManifest(url, s, t);
        if !valid(m) {
          McpToolErrorSticks(valid, q, name, url, s, s.tools, k + 1);
          return Err(BadManifest);
        }
        out := out + [Candidate(m, name, q.Score(m) - 16, None)];
      }
    }
    assert s.tools[..|s.tools|] == s.tools;
    return Ok(out);
  }

  /** One more server. */
  lemma McpStep(valid: Schema, q: Query, name: string, url: string, servers: seq<McpServer>, i: nat, out: seq<Candidate>)
    requires i < |servers| && McpCandidates(valid, q, name, url, servers[..i]) == Ok(out)
    ensures McpCandidates(valid, q, name, url, servers[..i + 1]) ==
              if servers[i].BadServer? then Err(Uncaught)
              else match McpServerCandidates(valid, q, name, url, servers[i], servers[i].tools)
                case Err(e) => Err(e)
                case Ok(more) => Ok(out + more)
  {
    assert servers[..i + 1][..i] == servers[..i];
  }

  /** `McpRegistryAdapter.list` */
  method ListMcp(valid: Schema, q: Query, name: string, url: string, answer: McpAnswer) returns (r: Result<seq<Candidate>>)
    ensures r == Sorted(McpList(valid, q, name, url, answer))
  {
    if answer.NoAnswer? {
      return Err(Uncaught);
    }
    var servers := answer.servers;
    var candidates: seq<Candidate> := [];
    for i := 0 to |servers|
      invariant McpCandidates(valid, q, name, url, servers[..i]) == Ok(candidates)
    {
      McpStep(valid, q, name, url, servers, i, candidates);
      if servers[i].BadServer? {
        McpErrorSticks(valid, q, name, url, servers, i + 1);
        return Err(Uncaught);
      }
      var more := ListMcpServer(valid, q, name, url, servers[i]);
      if more.Err? {
        McpErrorSticks(valid, q, name, url, servers, i + 1);
        return Err(more.error);
      }
      candidates := candidates + more.value;
    }
    assert servers[..|servers|] == servers;
    candidates := StableSort(BY_SCORE, candidates);
    return Ok(candidates);
  }

  // ---------------------------------------------------------------- the order of the lists

  /** `c` is what `a` and then `b` come to: the candidates of both in order, or the first error. */
  ghost predicate InOrder(a: Result<seq<Candidate>>, b: Result<seq<Candidate>>, c: Result<seq<Candidate>>) {
    if a.Ok? && b.Ok? then c == Ok(a.value + b.value) else c == if a.Err? then a else b
  }

  /** A list in two parts gives what the first part gives and then what the second gives, at most one candidate an entry. */
  lemma {:induction false} StaticInOrder(valid: Schema, q: Query, name: string,
                                         a: seq<Item>, b: seq<Item>)
    ensures var (first, second) := (StaticCandidates(valid, q, name, a), StaticCandidates(valid, q, name, b));
            InOrder(first, second, StaticCandidates(valid, q, name, a + b))
    ensures var r := StaticCandidates(valid, q, name, b);
            if r.Ok? then |r.value| <= |b| else r.error == BadManifest
    decreases |b|
  {
    var first := StaticCandidates(valid, q, name, a);
    if b == [] {
      assert a + b == a;
      assert first.Ok? ==> first.value + [] == first.value;
    } else {
      var n := |b| - 1;
      assert (a + b)[..|a + b| - 1] == a + b[..n] && (a + b)[|a + b| - 1] == b[n];
      StaticInOrder(valid, q, name, a, b[..n]);
      var init := StaticCandidates(valid, q, name, b[..n]);
      if first.Ok? && init.Ok? && b[n].Dict? {
        Associative(first.value, init.value, [Candidate(b[n].m, name, q.Score(b[n].m), None)]);
      }
    }
  }

  lemma {:induction false} HttpPageInOrder(valid: Schema, q: Query, name: string,
                                           a: seq<HttpEntry>, b: seq<HttpEntry>)
    ensures var (first, second) := (HttpPageCandidates(valid, q, name, a), HttpPageCandidates(valid, q, name, b));
            InOrder(first, second, HttpPageCandidates(valid, q, name, a + b))
    ensures var r := HttpPageCandidates(valid, q, name, b);
            if r.Ok? then |r.value| <= |b| else r.error == BadManifest
    decreases |b|
  {
    var first := HttpPageCandidates(valid, q, name, a);
    if b == [] {
      assert a + b == a;
      assert first.Ok? ==> first.value + [] == first.value;
    } else {
      var n := |b| - 1;
      assert (a + b)[..|a + b| - 1] == a + b[..n] && (a + b)[|a + b| - 1] == b[n];
      HttpPageInOrder(valid, q, name, a, b[..n]);
      var init := HttpPageCandidates(valid, q, name, b[..n]);
      var last := HttpEntryCandidates(valid, q, name, b[n]);
      if first.Ok? && init.Ok? && last.Ok? {
        Associative(first.value, init.value, last.value);
      }
    }
  }

  lemma {:induction false} HttpInOrder(valid: Schema, q: Query, name: string,
                                       a: seq<HttpPage>, b: seq<HttpPage>)
    ensures var (first, second) := (HttpList(valid, q, name, a), HttpList(valid, q, name, b));
            InOrder(first, second, HttpList(valid, q, name, a + b))
    ensures var r := HttpList(valid, q, name, b);
            && (b == [FetchFails] ==> r == Err(Uncaught))
            && (|b| == 1 && b[0].Page? ==> r == HttpPageCandidates(valid, q, name, b[0].entries))
    decreases |b|
  {
    var first := HttpList(valid, q, name, a);
    if b == [] {
      assert a + b == a;
      assert first.Ok? ==> first.value + [] == first.value;
    } else {
      var n := |b| - 1;
      assert (a + b)[..|a + b| - 1] == a + b[..n] && (a + b)[|a + b| - 1] == b[n];
      HttpInOrder(valid, q, name, a, b[..n]);
      var init := HttpList(valid, q, name, b[..n]);
      if b[n].Page? {
        var last := HttpPageCandidates(valid, q, name, b[n].entries);
        if first.Ok? && init.Ok? && last.Ok? {
          Associative(first.value, init.value, last.value);
        }
        assert last.Ok? ==> [] + last.value == last.value;
      }
    }
  }

  lemma {:induction false} McpServerInOrder(valid: Schema, q: Query, name: string, url: string, s: McpServer,
                                            a: seq<McpTool>, b: seq<McpTool>)
    requires s.Server?
    ensures var (first, second) := (McpServerCandidates(valid, q, name, url, s, a), McpServerCandidates(valid, q, name, url, s, b));
            InOrder(first, second, McpServerCandidates(valid, q, name, url, s, a + b))
    ensures var r := McpServerCandidates(valid, q, name, url, s, b);
            && (r.Ok? ==> |r.value| <= |b|)
            && (r.Err? && |b| == 1 ==> r.error == if b[0].BadTool? then Uncaught else BadManifest)
    decreases |b|
  {
    var first := McpServerCandidates(valid, q, name, url, s, a);
    if b == [] {
      assert a + b == a;
      assert first.Ok? ==> first.value + [] == first.value;
    } else {
      var n := |b| - 1;
      assert (a + b)[..|a + b| - 1] == a + b[..n] && (a + b)[|a + b| - 1] == b[n];
      McpServerInOrder(valid, q, name, url, s, a, b[..n]);
      var init := McpServerCandidates(valid, q, name, url, s, b[..n]);
      if first.Ok? && init.Ok? && b[n].Tool? {
        var m := McpManifest(url, s, b[n]);
        Associative(first.value, init.value, [Candidate(m, name, q.Score(m) - 16, None)]);
      }
    }
  }

  lemma {:induction false} McpInOrder(valid: Schema, q: Query, name: string, url: string,
                                      a: seq<McpServer>, b: seq<McpServer>)
    ensures var (first, second) := (McpCandidates(valid, q, name, url, a), McpCandidates(valid, q, name, url, b));
            InOrder(first, second, McpCandidates(valid, q, name, url, a + b))
    ensures var r := McpCandidates(valid, q, name, url, b);
            && (b == [BadServer] ==> r == Err(Uncaught))
            && (|b| == 1 && b[0].Server? ==> r == McpServerCandidates(valid, q, name, url, b[0], b[0].tools))
    decreases |b|
  {
    var first := McpCandidates(valid, q, name, url, a);
    if b == [] {
      assert a + b == a;
      assert first.Ok? ==> first.value + [] == first.value;
    } else {
      var n := |b| - 1;
      assert (a + b)[..|a + b| - 1] == a + b[..n] && (a + b)[|a + b| - 1] == b[n];
      McpInOrder(valid, q, name, url, a, b[..n]);
      var init := McpCandidates(valid, q, name, url, b[..n]);
      if b[n].Server? {
        var last := McpServerCandidates(valid, q, name, url, b[n], b[n].tools);
        if first.Ok? && init.Ok? && last.Ok? {
          Associative(first.value, init.value, last.value);
        }
        assert last.Ok? ==> [] + last.value == last.value;
      }
    }
  }

  /** A source that cannot be read loses everything; one that holds no list is an empty one. */
  lemma SourcesWithoutList(valid: Schema, q: Query, name: string, url: string)
    ensures StaticList(valid, q, name, Unreadable) == Err(Uncaught) && StaticList(valid, q, name, NotEntries) == Ok([])
    ensures HttpList(valid, q, name, [NotList]) == Ok([])
    ensures McpList(valid, q, name, url, NoAnswer) == Err(Uncaught) && McpList(valid, q, name, url, Answered([])) == Ok([])
  {
    assert [NotList][..0] == [];
  }

  // ---------------------------------------------------------------- what every adapter's list is like

  /** A candidate as a registry called `name` may offer it: scored, with a penalty, never boosted. */
  ghost predicate FromRegistry(q: Query, name: string, c: Candidate) {
    c.source == name && c.quarters <= q.Score(c.m)
  }

  ghost predicate StaticOffers(q: Query, name: string, items: seq<Item>, c: Candidate) {
    exists m :: Dict(m) in items && c == Candidate(m, name, q.Score(m), None)
  }

  /** A static catalog lists one candidate per object, at its plain score, if all of them are valid. */
  lemma {:induction false} StaticListed(valid: Schema, q: Query, name: string, items: seq<Item>, c: Candidate)
    ensures var r := StaticCandidates(valid, q, name, items);
            && (r.Ok? <==> forall m :: Dict(m) in items ==> valid(m))
            && (r.Ok? ==> (c in r.value <==> StaticOffers(q, name, items, c)))
  {
    if items != [] {
      var n := |items| - 1;
      assert items == items[..n] + [items[n]];
      assert forall x :: x in items <==> x in items[..n] || x == items[n];
      StaticListed(valid, q, name, items[..n], c);
    }
  }

  ghost predicate EntryOffers(q: Query, name: string, e: HttpEntry, c: Candidate) {
    || (e.Inline? && c == Candidate(e.m, name, q.Score(e.m) - 8, None))
    || (e.ByUrl? && e.url != "" && e.shell.Some?
        && c == Candidate(e.shell.value, name, q.Score(e.shell.value) - 12, Some(e.url)))
  }

  /** A page of an http catalog lists inline manifests 2 below their score and shells 3 below. */
  lemma {:induction false} HttpPageListed(valid: Schema, q: Query, name: string, entries: seq<HttpEntry>, c: Candidate)
    requires HttpPageCandidates(valid, q, name, entries).Ok?
    ensures c in HttpPageCandidates(valid, q, name, entries).value
            <==> exists e :: e in entries && EntryOffers(q, name, e, c)
    ensures c in HttpPageCandidates(valid, q, name, entries).value ==> valid(c.m)
  {
    if entries != [] {
      var n := |entries| - 1;
      assert forall x :: x in entries <==> x in entries[..n] || x == entries[n];
      HttpPageListed(valid, q, name, entries[..n], c);
      var more := HttpEntryCandidates(valid, q, name, entries[n]);
      assert c in more.value <==> EntryOffers(q, name, entries[n], c);
    }
  }

  ghost predicate HttpOffers(q: Query, name: string, pages: seq<HttpPage>, c: Candidate) {
    exists p, e :: p in pages && p.Page? && e in p.entries && EntryOffers(q, name, e, c)
  }

  lemma {:induction false} HttpListed(valid: Schema, q: Query, name: string, pages: seq<HttpPage>, c: Candidate)
    requires HttpList(valid, q, name, pages).Ok?
    ensures c in HttpList(valid, q, name, pages).value <==> HttpOffers(q, name, pages, c)
    ensures c in HttpList(valid, q, name, pages).value ==> valid(c.m)
  {
    if pages != [] {
      var n := |pages| - 1;
      assert forall x :: x in pages <==> x in pages[..n] || x == pages[n];
      HttpListed(valid, q, name, pages[..n], c);
      if pages[n].Page? {
        HttpPageListed(valid, q, name, pages[n].entries, c);
      }
    }
  }

  ghost predicate ServerOffers(q: Query, name: string, url: string, s: McpServer, tools: seq<McpTool>, c: Candidate) {
    && s.Server?
    && exists t ::
         && t in tools && t.Tool? && t.name != ""
         && c == Candidate(McpManifest(url, s, t), name, q.Score(McpManifest(url, s, t)) - 16, None)
  }

  lemma {:induction false} McpServerListed(valid: Schema, q: Query, name: string, url: string, s: McpServer,
                                           tools: seq<McpTool>, c: Candidate)
    requires s.Server? && McpServerCandidates(valid, q, name, url, s, tools).Ok?
    ensures c in McpServerCandidates(valid, q, name, url, s, tools).value <==> ServerOffers(q, name, url, s, tools, c)
    ensures c in McpServerCandidates(valid, q, name, url, s, tools).value ==> valid(c.m)
    decreases |tools|
  {
    if tools != [] {
      var n := |tools| - 1;
      assert forall x :: x in tools <==> x in tools[..n] || x == tools[n];
      McpServerListed(valid, q, name, url, s, tools[..n], c);
    }
  }

  ghost predicate McpOffers(q: Query, name: string, url: string, servers: seq<McpServer>, c: Candidate) {
    exists s :: s in servers && s.Server? && ServerOffers(q, name, url, s, s.tools, c)
  }

  /** The MCP registry lists a made-up manifest for every named tool of every server, 4 below its score. */
  lemma {:induction false} McpListed(valid: Schema, q: Query, name: string, url: string, servers: seq<McpServer>, c: Candidate)
    requires McpCandidates(valid, q, name, url, servers).Ok?
    ensures forall s :: s in servers ==> s.Server?
    ensures c in McpCandidates(valid, q, name, url, servers).value <==> McpOffers(q, name, url, servers, c)
    ensures c in McpCandidates(valid, q, name, url, servers).value ==> valid(c.m)
  {
    if servers != [] {
      var n := |servers| - 1;
      assert forall x :: x in servers <==> x in servers[..n] || x == servers[n];
      McpListed(valid, q, name, url, servers[..n], c);
      McpServerListed(valid, q, name, url, servers[n], servers[n].tools, c);
    }
  }
}
