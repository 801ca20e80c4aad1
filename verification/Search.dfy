/**
 `search` and `resolve` (src/resolver.py).  The search result is one stable descending sort of the
 catalog candidates followed by the registries' candidates, whatever sorting the registries did;
 `resolve` returns the best acceptable candidate, ties going to the catalog and then to registry order.
 */
module Search {
  import opened Wrappers
  import opened Sorting
  import opened Text
  import opened Manifests
  import opened Catalog
  import opened Discovery

  const CATALOG := "catalog"

  function CatalogCandidates(q: Query, c: seq<Manifest>): (r: seq<Candidate>)
    ensures |r| == |c|
    ensures forall i :: 0 <= i < |c| ==> r[i] == Candidate(c[i], CATALOG, q.CatalogScore(c[i]), None)
  {
    seq(|c|, i requires 0 <= i < |c| => Candidate(c[i], CATALOG, q.CatalogScore(c[i]), None))
  }

  /** What a registry contributes; one that failed contributes nothing. */
  function Contribution(r: Result<seq<Candidate>>): seq<Candidate> {
    if r.Ok? then r.value else []
  }

  function Contributions(rs: seq<Result<seq<Candidate>>>): seq<Candidate> {
    if rs == [] then [] else Contributions(rs[..|rs| - 1]) + Contribution(rs[|rs| - 1])
  }

  /** The `trust_allow` constraint: absent and empty lists do not filter. */
  function Trusted(allow: Option<seq<string>>): Candidate -> bool {
    (c: Candidate) => allow.None? || allow.value == [] || c.m.trust in allow.value
  }

  /** Catalog candidates first, then the registries' in registry order, filtered by trust. */
  function Survivors(q: Query, c: seq<Manifest>, rs: seq<Result<seq<Candidate>>>, allow: Option<seq<string>>): seq<Candidate> {
    Filter(Trusted(allow), CatalogCandidates(q, c) + Contributions(rs))
  }

  function Ranked(q: Query, c: seq<Manifest>, rs: seq<Result<seq<Candidate>>>, allow: Option<seq<string>>): seq<Candidate> {
    StableSort(BY_SCORE, Survivors(q, c, rs, allow))
  }

  method Search(q: Query, merged: Result<seq<Manifest>>, rs: seq<Result<seq<Candidate>>>, allow: Option<seq<string>>)
    returns (r: Result<seq<Candidate>>)
    ensures r == match merged case Ok(c) => Ok(Ranked(q, c, rs, allow)) case Err(e) => Err(e)
  {
    var c :- merged;
    var candidates: seq<Candidate> := [];
    for i := 0 to |c|
      invariant candidates == CatalogCandidates(q, c)[..i]
    {
      candidates := candidates + [Candidate(c[i], CATALOG, q.CatalogScore(c[i]), None)];
    }
    for i := 0 to |rs|
      invariant candidates == CatalogCandidates(q, c) + Contributions(rs[..i])
    {
      assert rs[..i + 1][..i] == rs[..i];
      if rs[i].Ok? {
        candidates := candidates + rs[i].value;
      }
    }
    assert rs[..|rs|] == rs;
    candidates := Filter(Trusted(allow), candidates);
    candidates := StableSort(BY_SCORE, candidates);
    return Ok(candidates);
  }

  // ---------------------------------------------------------------- who survives, and in what order

  /** Registries contribute in their order, each its own list. */
  lemma {:induction false} ContributionsInOrder(a: seq<Result<seq<Candidate>>>, b: seq<Result<seq<Candidate>>>)
    ensures Contributions(a + b) == Contributions(a) + Contributions(b)
    ensures |b| == 1 ==> Contributions(b) == if b[0].Ok? then b[0].value else []
    decreases |b|
  {
    if b == [] {
      assert a + b == a;
    } else {
      var n := |b| - 1;
      assert (a + b)[..|a + b| - 1] == a + b[..n] && (a + b)[|a + b| - 1] == b[n];
      ContributionsInOrder(a, b[..n]);
      Associative(Contributions(a), Contributions(b[..n]), Contribution(b[n]));
    }
  }

  lemma {:induction false} ContributionMembers(rs: seq<Result<seq<Candidate>>>, d: Candidate)
    ensures d in Contributions(rs) <==> exists i :: 0 <= i < |rs| && rs[i].Ok? && d in rs[i].value
  {
    if rs != [] {
      var n := |rs| - 1;
      ContributionMembers(rs[..n], d);
      assert forall i :: 0 <= i < n ==> rs[..n][i] == rs[i];
    }
  }

  /**
   The survivors are the catalog's manifests, boosted, and whatever a registry that did not fail lists,
   unless a trust list is given and leaves their level out.
   */
  lemma SurvivorsAre(q: Query, c: seq<Manifest>, rs: seq<Result<seq<Candidate>>>, allow: Option<seq<string>>, d: Candidate)
    ensures d in Survivors(q, c, rs, allow) <==>
              && (|| (exists m :: m in c && d == Candidate(m, "catalog", q.CatalogScore(m), None))
                  || (exists i :: 0 <= i < |rs| && rs[i].Ok? && d in rs[i].value))
              && (allow == None || allow == Some([]) || d.m.trust in allow.value)
  {
    ContributionMembers(rs, d);
    var own := CatalogCandidates(q, c);
    if m :| m in c && d == Candidate(m, "catalog", q.CatalogScore(m), None) {
      var i :| 0 <= i < |c| && c[i] == m;
      assert own[i] == d;
    }
    if i :| 0 <= i < |own| && own[i] == d {
      assert c[i] in c && d == Candidate(c[i], "catalog", q.CatalogScore(c[i]), None);
    }
  }

  /** The ranking rearranges the survivors: scores descend, and equal scores stand in the order they had. */
  lemma RankingDescends(q: Query, c: seq<Manifest>, rs: seq<Result<seq<Candidate>>>, allow: Option<seq<string>>, quarters: int)
    ensures var ranked, cs := Ranked(q, c, rs, allow), Survivors(q, c, rs, allow);
            && multiset(ranked) == multiset(cs)
            && (forall i, j :: 0 <= i < j < |ranked| ==> ranked[i].quarters >= ranked[j].quarters)
            && Filter((d: Candidate) => d.quarters == quarters, ranked) == Filter((d: Candidate) => d.quarters == quarters, cs)
  {
    ScoreOrder();
    var ranked, cs := Ranked(q, c, rs, allow), Survivors(q, c, rs, allow);
    StableSortMeetsDefinition(BY_SCORE, cs);
    forall i, j | 0 <= i < j < |ranked| ensures ranked[i].quarters >= ranked[j].quarters {
      assert BY_SCORE(ranked[i], ranked[j]);
    }
    var same := (d: Candidate) => d.quarters == quarters;
    if |Filter(same, cs)| > 0 || |Filter(same, ranked)| > 0 {
      var x := if |Filter(same, cs)| > 0 then Filter(same, cs)[0] else Filter(same, ranked)[0];
      assert x in Filter(same, cs) || x in Filter(same, ranked);
      ClassBySame(x, cs, same);
      ClassBySame(x, ranked, same);
      assert Class(BY_SCORE, x, ranked) == Class(BY_SCORE, x, cs);
    }
  }

  /** The class of an element is the candidates with its score. */
  lemma {:induction false} ClassBySame(x: Candidate, cs: seq<Candidate>, same: Candidate -> bool)
    requires forall d :: same(d) <==> d.quarters == x.quarters
    ensures Class(BY_SCORE, x, cs) == Filter(same, cs)
  {
    if cs != [] {
      ClassBySame(x, cs[1..], same);
    }
  }

  // ---------------------------------------------------------------- sorting in the registries is harmless

  /** The lists the adapters made, before they sorted them. */
  ghost predicate SortedFrom(raw: seq<Result<seq<Candidate>>>, rs: seq<Result<seq<Candidate>>>) {
    |rs| == |raw| && forall i :: 0 <= i < |raw| ==> rs[i] == raw[i] || rs[i] == Sorted(raw[i])
  }

  lemma Regroup(a: seq<Candidate>, b: seq<Candidate>, c: seq<Candidate>, d: seq<Candidate>)
    ensures a + (b + c) + d == a + b + (c + d)
    ensures a + b + (c + d) == (a + b) + c + d
  {
  }

  lemma {:induction false} PresortedContributions(a: seq<Candidate>, raw: seq<Result<seq<Candidate>>>,
                                                  rs: seq<Result<seq<Candidate>>>, b: seq<Candidate>)
    requires SortedFrom(raw, rs)
    ensures StableSort(BY_SCORE, a + Contributions(rs) + b) == StableSort(BY_SCORE, a + Contributions(raw) + b)
    decreases |raw|
  {
    if raw != [] {
      var n := |raw| - 1;
      var before', before := Contributions(rs[..n]), Contributions(raw[..n]);
      var x, y := Contribution(rs[n]), Contribution(raw[n]);
      Regroup(a, before', x, b);
      Regroup(a, before, x, b);
      Regroup(a, before, y, b);
      PresortedContributions(a, raw[..n], rs[..n], x + b);
      assert Contributions(rs) == before' + x && Contributions(raw) == before + y;
      OnePresorted(a + before, raw[n], rs[n], b);
    }
  }

  lemma OnePresorted(a: seq<Candidate>, raw: Result<seq<Candidate>>, r: Result<seq<Candidate>>, b: seq<Candidate>)
    requires r == raw || r == Sorted(raw)
    ensures StableSort(BY_SCORE, a + Contribution(r) + b) == StableSort(BY_SCORE, a + Contribution(raw) + b)
  {
    ScoreOrder();
    PresortIsHarmless(BY_SCORE, a, Contribution(raw), b);
  }

  /** The result is the same whichever registries sorted their lists, and filtering could come last. */
  lemma PresortingIsHarmless(q: Query, c: seq<Manifest>, raw: seq<Result<seq<Candidate>>>, rs: seq<Result<seq<Candidate>>>,
                             allow: Option<seq<string>>)
    requires SortedFrom(raw, rs)
    ensures Ranked(q, c, rs, allow) == Ranked(q, c, raw, allow)
    ensures Ranked(q, c, rs, allow)
            == Filter(Trusted(allow), StableSort(BY_SCORE, CatalogCandidates(q, c) + Contributions(raw)))
  {
    ScoreOrder();
    var a := CatalogCandidates(q, c);
    FilterCommutesWithSort(BY_SCORE, Trusted(allow), a + Contributions(rs));
    FilterCommutesWithSort(BY_SCORE, Trusted(allow), a + Contributions(raw));
    PresortedContributions(a, raw, rs, []);
    assert a + Contributions(rs) + [] == a + Contributions(rs);
    assert a + Contributions(raw) + [] == a + Contributions(raw);
  }

  // ---------------------------------------------------------------- resolve

  function Acceptable(policy: Policy): Candidate -> bool {
    (c: Candidate) => c.source == CATALOG || policy.MayInstall(c.m)
  }

  /** `resolve` after its checks of the step: search, then take the first acceptable candidate. */
  method Resolve(q: Query, policy: Policy, merged: Result<seq<Manifest>>, rs: seq<Result<seq<Candidate>>>, allow: Option<seq<string>>)
    returns (r: Result<Candidate>)
    ensures q.intent == "" ==> r == Err(BadManifest)
    ensures q.intent != "" && merged.Err? ==> r == Err(merged.error)
    ensures q.intent != "" && merged.Ok? ==>
              var best := Filter(Acceptable(policy), Ranked(q, merged.value, rs, allow));
              r == if best == [] then Err(NotFound) else Ok(best[0])
  {
    if q.intent == "" {
      return Err(BadManifest);
    }
    var candidates :- Search(q, merged, rs, allow);
    if candidates == [] {
      return Err(NotFound);
    }
    var accept := Acceptable(policy);
    var i := 0;
    while i < |candidates|
      invariant 0 <= i <= |candidates|
      invariant Filter(accept, candidates) == Filter(accept, candidates[i..])
    {
      var c := candidates[i];
      assert candidates[i..][0] == c && candidates[i..][1..] == candidates[i + 1..];
      if c.source == CATALOG {
        return Ok(c);
      }
      var allowed := policy.EnforceInstall(c.m);
      if allowed.Ok? {
        return Ok(c);
      }
      i := i + 1;
    }
    return Err(NotFound);
  }

  /** `c` is at `i`, acceptable, beats everything acceptable before it and loses to nothing. */
  ghost predicate IsBest(accept: Candidate -> bool, cs: seq<Candidate>, i: nat) {
    && i < |cs| && accept(cs[i])
    && (forall j :: 0 <= j < i && accept(cs[j]) ==> cs[j].quarters < cs[i].quarters)
    && (forall j :: 0 <= j < |cs| && accept(cs[j]) ==> cs[j].quarters <= cs[i].quarters)
  }

  /** The head of a stable descending sort is the first maximum. */
  lemma {:induction false} HeadIsFirstMaximum(cs: seq<Candidate>) returns (i: nat)
    requires cs != []
    ensures i < |cs| && StableSort(BY_SCORE, cs) != [] && StableSort(BY_SCORE, cs)[0] == cs[i]
    ensures forall j :: 0 <= j < i ==> cs[j].quarters < cs[i].quarters
    ensures forall j :: 0 <= j < |cs| ==> cs[j].quarters <= cs[i].quarters
  {
    if |cs| == 1 {
      assert StableSort(BY_SCORE, cs[1..]) == [];
      i := 0;
    } else {
      var k := HeadIsFirstMaximum(cs[1..]);
      i := if cs[0].quarters >= cs[1..][k].quarters then 0 else k + 1;
      assert forall j :: 0 < j < |cs| ==> cs[j] == cs[1..][j - 1];
    }
  }

  /** What `resolve` returns is the best acceptable survivor, in the order before any sorting. */
  lemma ResolveIsBest(q: Query, policy: Policy, c: seq<Manifest>, rs: seq<Result<seq<Candidate>>>, allow: Option<seq<string>>)
    returns (i: nat)
    requires Filter(Acceptable(policy), Ranked(q, c, rs, allow)) != []
    ensures IsBest(Acceptable(policy), Survivors(q, c, rs, allow), i)
    ensures Filter(Acceptable(policy), Ranked(q, c, rs, allow))[0] == Survivors(q, c, rs, allow)[i]
  {
    var accept, cs := Acceptable(policy), Survivors(q, c, rs, allow);
    ScoreOrder();
    FilterCommutesWithSort(BY_SCORE, accept, cs);
    var good := Filter(accept, cs);
    var k := HeadIsFirstMaximum(good);
    i := FilterOrigin(accept, cs, k);
    MaximumOfFilter(accept, cs, i, k);
  }

  /** The first maximum of the acceptable candidates is the best candidate. */
  lemma MaximumOfFilter(accept: Candidate -> bool, cs: seq<Candidate>, i: nat, k: nat)
    requires var good := Filter(accept, cs);
             && i < |cs| && k < |good| && cs[i] == good[k] && accept(cs[i])
             && Filter(accept, cs[..i]) == good[..k]
             && (forall j :: 0 <= j < k ==> good[j].quarters < good[k].quarters)
             && (forall j :: 0 <= j < |good| ==> good[j].quarters <= good[k].quarters)
    ensures IsBest(accept, cs, i)
  {
    var good := Filter(accept, cs);
    forall j | 0 <= j < |cs| && accept(cs[j]) ensures cs[j].quarters <= cs[i].quarters {
      assert cs[j] in good;
      var x :| 0 <= x < |good| && good[x] == cs[j];
    }
    forall j | 0 <= j < i && accept(cs[j]) ensures cs[j].quarters < cs[i].quarters {
      assert cs[..i][j] == cs[j];
      assert cs[j] in Filter(accept, cs[..i]);
      var x :| 0 <= x < k && good[..k][x] == cs[j];
    }
  }

  // ---------------------------------------------------------------- the catalog and the registries

  /** Registries offer scored candidates under names other than the catalog's. */
  ghost predicate RegistriesOk(q: Query, rs: seq<Result<seq<Candidate>>>) {
    forall c :: c in Contributions(rs) ==> c.source != CATALOG && FromRegistry(q, c.source, c)
  }

  lemma SurvivorSource(q: Query, c: seq<Manifest>, rs: seq<Result<seq<Candidate>>>, allow: Option<seq<string>>, d: Candidate)
    requires RegistriesOk(q, rs) && d in Survivors(q, c, rs, allow)
    ensures if d.source == CATALOG then d.m in c && d.quarters == q.CatalogScore(d.m)
            else d in Contributions(rs) && d.quarters <= q.Score(d.m)
  {
    if d in CatalogCandidates(q, c) {
      var i :| 0 <= i < |c| && CatalogCandidates(q, c)[i] == d;
    }
  }

  /** The survivors are the catalog's followed by the registries'. */
  lemma SurvivorsSplit(q: Query, c: seq<Manifest>, rs: seq<Result<seq<Candidate>>>, allow: Option<seq<string>>)
    returns (a: seq<Candidate>, b: seq<Candidate>)
    requires RegistriesOk(q, rs)
    ensures Survivors(q, c, rs, allow) == a + b
    ensures forall d :: d in a ==> d.source == CATALOG
    ensures forall d :: d in b ==> d.source != CATALOG
  {
    var p := Trusted(allow);
    a, b := Filter(p, CatalogCandidates(q, c)), Filter(p, Contributions(rs));
    FilterAppend(p, CatalogCandidates(q, c), Contributions(rs));
    forall d | d in a ensures d.source == CATALOG {
      assert d in CatalogCandidates(q, c);
    }
  }

  lemma FirstPart(a: seq<Candidate>, b: seq<Candidate>, i: nat, j: nat)
    requires i < |a + b| && j < |a + b|
    requires forall d :: d in a ==> d.source == CATALOG
    requires forall d :: d in b ==> d.source != CATALOG
    requires (a + b)[i].source == CATALOG && (a + b)[j].source != CATALOG
    ensures i < j
  {
    assert forall k :: 0 <= k < |a| ==> (a + b)[k] == a[k] && a[k] in a;
    assert forall k :: |a| <= k < |a + b| ==> (a + b)[k] == b[k - |a|] && b[k - |a|] in b;
  }

  /** Catalog survivors come before registry survivors. */
  lemma CatalogComesFirst(q: Query, c: seq<Manifest>, rs: seq<Result<seq<Candidate>>>, allow: Option<seq<string>>, i: nat, j: nat)
    requires RegistriesOk(q, rs)
    requires i < |Survivors(q, c, rs, allow)| && j < |Survivors(q, c, rs, allow)|
    requires Survivors(q, c, rs, allow)[i].source == CATALOG && Survivors(q, c, rs, allow)[j].source != CATALOG
    ensures i < j
  {
    var a, b := SurvivorsSplit(q, c, rs, allow);
    FirstPart(a, b, i, j);
  }

  /** A catalog manifest that matches the intent outranks every registry candidate by at least 4.25. */
  lemma CatalogGap(q: Query, c: seq<Manifest>, rs: seq<Result<seq<Candidate>>>, allow: Option<seq<string>>,
                   d: Candidate, e: Candidate)
    requires RegistriesOk(q, rs)
    requires d in Survivors(q, c, rs, allow) && d.source == CATALOG && IsLevel(d.m.trust) && HitsSomewhere(q, d.m)
    requires e in Survivors(q, c, rs, allow) && e.source != CATALOG
    ensures d.quarters - e.quarters >= 17
  {
    SurvivorSource(q, c, rs, allow, d);
    SurvivorSource(q, c, rs, allow, e);
    MatchingGap(q, d.m, e.m, q.Score(e.m) - e.quarters);
  }

  /** A registry candidate is returned only when it scores above every surviving catalog candidate. */
  lemma RegistryWinsStrictly(q: Query, policy: Policy, c: seq<Manifest>, rs: seq<Result<seq<Candidate>>>,
                             allow: Option<seq<string>>, d: Candidate)
    requires RegistriesOk(q, rs)
    requires Filter(Acceptable(policy), Ranked(q, c, rs, allow)) != []
    requires Filter(Acceptable(policy), Ranked(q, c, rs, allow))[0].source != CATALOG
    requires d in Survivors(q, c, rs, allow) && d.source == CATALOG
    ensures var won := Filter(Acceptable(policy), Ranked(q, c, rs, allow))[0];
            won.quarters > d.quarters && Consents(policy, won.m)
    ensures IsLevel(d.m.trust) ==> !HitsSomewhere(q, d.m)
  {
    var i := ResolveIsBest(q, policy, c, rs, allow);
    var cs := Survivors(q, c, rs, allow);
    EnforceInstallDecides(policy, cs[i].m);
    var j :| 0 <= j < |cs| && cs[j] == d;
    CatalogComesFirst(q, c, rs, allow, j, i);
    if IsLevel(d.m.trust) && HitsSomewhere(q, d.m) {
      assert cs[i] in cs;
      CatalogGap(q, c, rs, allow, d, cs[i]);
    }
  }

  /** It fails exactly when no catalog candidate survives the filter and no survivor passes policy. */
  lemma ResolveFails(q: Query, policy: Policy, c: seq<Manifest>, rs: seq<Result<seq<Candidate>>>, allow: Option<seq<string>>)
    ensures Filter(Acceptable(policy), Ranked(q, c, rs, allow)) == [] <==>
            forall d :: d in Survivors(q, c, rs, allow) ==> d.source != "catalog" && !Consents(policy, d.m)
  {
    ScoreOrder();
    forall d: Candidate ensures policy.MayInstall(d.m) <==> Consents(policy, d.m) {
      EnforceInstallDecides(policy, d.m);
    }
    var accept, cs := Acceptable(policy), Survivors(q, c, rs, allow);
    FilterCommutesWithSort(BY_SCORE, accept, cs);
    StableSortMembers(BY_SCORE, Filter(accept, cs));
    var best := Filter(accept, Ranked(q, c, rs, allow));
    if best != [] {
      assert best[0] in best;
      assert best[0] in Filter(accept, cs);
    }
    if d :| d in cs && accept(d) {
      assert d in Filter(accept, cs);
      assert d in best;
    }
  }

  /** A candidate of another source than the catalog is returned only if the installation policy consents to it. */
  lemma ResolvedIsAllowed(q: Query, policy: Policy, c: seq<Manifest>, rs: seq<Result<seq<Candidate>>>, allow: Option<seq<string>>)
    requires Filter(Acceptable(policy), Ranked(q, c, rs, allow)) != []
    ensures var won := Filter(Acceptable(policy), Ranked(q, c, rs, allow))[0];
            won.source == "catalog" || Consents(policy, won.m)
  {
    var won := Filter(Acceptable(policy), Ranked(q, c, rs, allow))[0];
    assert won in Filter(Acceptable(policy), Ranked(q, c, rs, allow));
    EnforceInstallDecides(policy, won.m);
  }

  /** Higher on the ladder verified, local, community, untrusted, anything else. */
  ghost predicate MoreTrusted(a: string, b: string) {
    || (a == "verified" && b != "verified")
    || (a == "local" && b !in {"verified", "local"})
    || (a == "community" && b !in {"verified", "local", "community"})
    || (a == "untrusted" && b !in {"verified", "local", "community", "untrusted"})
  }

  lemma TrustOrdersScores(q: Query, m: Manifest, n: Manifest)
    requires Hits(q, m.id) == Hits(q, n.id) && Hits(q, m.description) == Hits(q, n.description)
    requires MoreTrusted(n.trust, m.trust)
    ensures q.CatalogScore(n) > q.CatalogScore(m)
  {
    HitsAreMatches(q, m);
    HitsAreMatches(q, n);
  }

  /** Among catalog survivors with the same hits, `resolve` never returns one less trusted than another. */
  lemma ResolvePrefersTrust(q: Query, policy: Policy, c: seq<Manifest>, rs: seq<Result<seq<Candidate>>>,
                            allow: Option<seq<string>>, d: Candidate)
    requires RegistriesOk(q, rs)
    requires Filter(Acceptable(policy), Ranked(q, c, rs, allow)) != []
    requires d in Survivors(q, c, rs, allow) && d.source == "catalog"
    ensures var won := Filter(Acceptable(policy), Ranked(q, c, rs, allow))[0];
            (&& won.source == "catalog" && Hits(q, won.m.id) == Hits(q, d.m.id)
             && Hits(q, won.m.description) == Hits(q, d.m.description)) ==> !MoreTrusted(d.m.trust, won.m.trust)
  {
    var i := ResolveIsBest(q, policy, c, rs, allow);
    var cs := Survivors(q, c, rs, allow);
    var j :| 0 <= j < |cs| && cs[j] == d;
    var won := cs[i];
    assert won in cs && Acceptable(policy)(d);
    SurvivorSource(q, c, rs, allow, d);
    SurvivorSource(q, c, rs, allow, won);
    if won.source == "catalog" && Hits(q, won.m.id) == Hits(q, d.m.id) && Hits(q, won.m.description) == Hits(q, d.m.description)
       && MoreTrusted(d.m.trust, won.m.trust) {
      TrustOrdersScores(q, won.m, d.m);
      assert false;
    }
  }

  // ---------------------------------------------------------------- the three adapters as registries

  datatype Registry =
    | StaticRegistry(name: string, source: StaticSource)
    | HttpRegistry(name: string, pages: seq<HttpPage>)
    | McpRegistry(name: string, url: string, answer: McpAnswer)

  /** What a registry's loop collects, before it sorts. */
  function Offered(valid: Schema, q: Query, r: Registry): Result<seq<Candidate>> {
    match r
    case StaticRegistry(name, source) => StaticList(valid, q, name, source)
    case HttpRegistry(name, pages) => HttpList(valid, q, name, pages)
    case McpRegistry(name, url, answer) => McpList(valid, q, name, url, answer)
  }

  function AllOffered(valid: Schema, q: Query, regs: seq<Registry>): (rs: seq<Result<seq<Candidate>>>)
    ensures |rs| == |regs| && forall i :: 0 <= i < |regs| ==> rs[i] == Offered(valid, q, regs[i])
  {
    seq(|regs|, i requires 0 <= i < |regs| => Offered(valid, q, regs[i]))
  }

  /** `[reg.list(...) for reg in registries]` */
  method ListAll(valid: Schema, q: Query, regs: seq<Registry>) returns (rs: seq<Result<seq<Candidate>>>)
    ensures |rs| == |regs| && forall i :: 0 <= i < |regs| ==> rs[i] == Sorted(Offered(valid, q, regs[i]))
    ensures SortedFrom(AllOffered(valid, q, regs), rs)
  {
    rs := [];
    for i := 0 to |regs|
      invariant |rs| == i && forall k :: 0 <= k < i ==> rs[k] == Sorted(Offered(valid, q, regs[k]))
    {
      var r: Result<seq<Candidate>>;
      match regs[i] {
        case StaticRegistry(name, source) => r := ListStatic(valid, q, name, source);
        case HttpRegistry(name, pages) => r := ListHttp(valid, q, name, pages);
        case McpRegistry(name, url, answer) => r := ListMcp(valid, q, name, url, answer);
      }
      rs := rs + [r];
    }
  }

  lemma OfferedFrom(valid: Schema, q: Query, r: Registry, c: Candidate)
    requires c in Contribution(Sorted(Offered(valid, q, r)))
    ensures FromRegistry(q, r.name, c) && valid(c.m)
  {
    ScoreOrder();
    StableSortMembers(BY_SCORE, Offered(valid, q, r).value);
    match r
    case StaticRegistry(name, source) =>
      if source.Entries? { StaticListed(valid, q, name, source.items, c); }
    case HttpRegistry(name, pages) => HttpListed(valid, q, name, pages, c);
    case McpRegistry(name, url, answer) => McpListed(valid, q, name, url, answer.servers, c);
  }

  lemma {:induction false} ContributionOrigin(rs: seq<Result<seq<Candidate>>>, c: Candidate) returns (i: nat)
    requires c in Contributions(rs)
    ensures i < |rs| && c in Contribution(rs[i])
  {
    var n := |rs| - 1;
    if c in Contribution(rs[n]) {
      i := n;
    } else {
      i := ContributionOrigin(rs[..n], c);
    }
  }

  /** Registries that are not called "catalog" are fit for the results above. */
  lemma AdaptersAreFit(valid: Schema, q: Query, regs: seq<Registry>, rs: seq<Result<seq<Candidate>>>)
    requires forall i :: 0 <= i < |regs| ==> regs[i].name != CATALOG
    requires |rs| == |regs| && forall i :: 0 <= i < |regs| ==> rs[i] == Sorted(Offered(valid, q, regs[i]))
    ensures RegistriesOk(q, rs)
  {
    forall c | c in Contributions(rs) ensures c.source != CATALOG && FromRegistry(q, c.source, c) {
      var i := ContributionOrigin(rs, c);
      OfferedFrom(valid, q, regs[i], c);
    }
  }
}
