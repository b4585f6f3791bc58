/**
 Matching and deduplication of catalogue entities (api/internal/adult/merge.go). Strong
 identifiers merge, a shared name alone never does. The model proves which items end up in
 one cluster, that nothing is lost, and what is sent to the audit queue.
 */
module EntityMatching {
  import opened Prelude

  datatype Link = Link(instance: int, foreignId: string)

  datatype Endpoint = Endpoint(instance: int, address: string)

  datatype Candidate = Candidate(id: int, name: string, disambiguation: string, urls: seq<string>, links: seq<Link>)

  datatype Incoming = Incoming(name: string, disambiguation: string, urls: seq<string>)

  /**
   The text normalisers, which are not modelled further. externalKey is None for a URL that
   does not parse or normalises to nothing; foreignId is the id an endpoint's URL carries.
   */
  datatype Norms = Norms(
    externalKey: string -> Option<string>,
    foreignId: (string, string) -> Option<string>,
    nameKey: string -> string,
    blank: string -> bool)

  // ----- the three rules -----

  ghost predicate ByEndpoint(norms: Norms, endpoints: seq<Endpoint>, urls: seq<string>, links: seq<Link>) {
    exists u, e, l :: u in urls && e in endpoints && l in links && PointsAt(norms, u, e, l)
  }

  predicate PointsAt(norms: Norms, url: string, e: Endpoint, l: Link) {
    norms.foreignId(e.address, url) == Some(l.foreignId) && l.instance == e.instance
  }

  ghost predicate ByExternal(norms: Norms, urls: seq<string>, others: seq<string>) {
    exists u, v :: u in urls && v in others && SameSite(norms, u, v)
  }

  predicate SameSite(norms: Norms, u: string, v: string) {
    norms.externalKey(u).Some? && norms.externalKey(u) == norms.externalKey(v)
  }

  predicate ByName(norms: Norms, inc: Incoming, c: Candidate) {
    && norms.blank(inc.disambiguation) && norms.blank(c.disambiguation)
    && norms.nameKey(inc.name) != "" && norms.nameKey(inc.name) == norms.nameKey(c.name)
  }

  /** A strong identifier of the incoming entity is one of the candidate's. */
  ghost predicate Strong(norms: Norms, endpoints: seq<Endpoint>, inc: Incoming, c: Candidate) {
    ByEndpoint(norms, endpoints, inc.urls, c.links) || ByExternal(norms, inc.urls, c.urls)
  }

  method MatchByEndpointURL(norms: Norms, endpoints: seq<Endpoint>, inc: Incoming, c: Candidate) returns (r: bool)
    ensures r == ByEndpoint(norms, endpoints, inc.urls, c.links)
  {
    for i := 0 to |inc.urls|
      invariant forall u, e, l :: u in inc.urls[..i] && e in endpoints && l in c.links ==> !PointsAt(norms, u, e, l)
    {
      for j := 0 to |endpoints|
        invariant forall e, l :: e in endpoints[..j] && l in c.links ==> !PointsAt(norms, inc.urls[i], e, l)
      {
        var id := norms.foreignId(endpoints[j].address, inc.urls[i]);
        if id.None? {
          continue;
        }
        for k := 0 to |c.links|
          invariant forall l :: l in c.links[..k] ==> !PointsAt(norms, inc.urls[i], endpoints[j], l)
        {
          if c.links[k].instance == endpoints[j].instance && c.links[k].foreignId == id.value {
            assert PointsAt(norms, inc.urls[i], endpoints[j], c.links[k]);
            return true;
          }
        }
      }
    }
    return false;
  }

  method MatchByExternalURL(norms: Norms, inc: Incoming, c: Candidate) returns (r: bool)
    ensures r == ByExternal(norms, inc.urls, c.urls)
  {
    if |inc.urls| == 0 || |c.urls| == 0 {
      return false;
    }
    var keys: set<string> := {};
    for i := 0 to |c.urls|
      invariant forall k :: k in keys <==> exists v :: v in c.urls[..i] && norms.externalKey(v) == Some(k)
    {
      var key := norms.externalKey(c.urls[i]);
      if key.Some? {
        keys := keys + {key.value};
      }
    }
    for i := 0 to |inc.urls|
      invariant forall u, v :: u in inc.urls[..i] && v in c.urls ==> !SameSite(norms, u, v)
    {
      var key := norms.externalKey(inc.urls[i]);
      if key.None? {
        continue;
      }
      if key.value in keys {
        var v :| v in c.urls && norms.externalKey(v) == key;
        assert SameSite(norms, inc.urls[i], v);
        return true;
      }
    }
    return false;
  }

  method MatchByName(norms: Norms, inc: Incoming, c: Candidate) returns (r: bool)
    ensures r == ByName(norms, inc, c)
  {
    if !norms.blank(inc.disambiguation) || !norms.blank(c.disambiguation) {
      return false;
    }
    var incKey, key := norms.nameKey(inc.name), norms.nameKey(c.name);
    return incKey != "" && incKey == key;
  }

  // ----- MatchEntity -----

  datatype Match = NoMatch | AutoMerge(index: nat) | AuditCandidate(index: nat)

  /** The first rule that matches any candidate wins; within a rule, the first candidate. */
  ghost predicate IsMatch(norms: Norms, endpoints: seq<Endpoint>, inc: Incoming, cands: seq<Candidate>, m: Match) {
    match m
    case NoMatch =>
      forall c :: c in cands ==> !Strong(norms, endpoints, inc, c) && !ByName(norms, inc, c)
    case AutoMerge(i) =>
      && i < |cands|
      && (forall j :: 0 <= j < i ==> !ByEndpoint(norms, endpoints, inc.urls, cands[j].links))
      && (ByEndpoint(norms, endpoints, inc.urls, cands[i].links) || (
           && ByExternal(norms, inc.urls, cands[i].urls)
           && (forall c :: c in cands ==> !ByEndpoint(norms, endpoints, inc.urls, c.links))
           && (forall j :: 0 <= j < i ==> !ByExternal(norms, inc.urls, cands[j].urls))))
    case AuditCandidate(i) =>
      && i < |cands| && ByName(norms, inc, cands[i])
      && (forall c :: c in cands ==> !Strong(norms, endpoints, inc, c))
      && (forall j :: 0 <= j < i ==> !ByName(norms, inc, cands[j]))
  }

  method MatchEntity(norms: Norms, endpoints: seq<Endpoint>, inc: Incoming, cands: seq<Candidate>) returns (m: Match)
    ensures IsMatch(norms, endpoints, inc, cands, m)
  {
    for i := 0 to |cands|
      invariant forall j :: 0 <= j < i ==> !ByEndpoint(norms, endpoints, inc.urls, cands[j].links)
    {
      var hit := MatchByEndpointURL(norms, endpoints, inc, cands[i]);
      if hit {
        return AutoMerge(i);
      }
    }
    for i := 0 to |cands|
      invariant forall j :: 0 <= j < i ==> !ByExternal(norms, inc.urls, cands[j].urls)
    {
      var hit := MatchByExternalURL(norms, inc, cands[i]);
      if hit {
        return AutoMerge(i);
      }
    }
    for i := 0 to |cands|
      invariant forall j :: 0 <= j < i ==> !ByName(norms, inc, cands[j])
    {
      var hit := MatchByName(norms, inc, cands[i]);
      if hit {
        return AuditCandidate(i);
      }
    }
    return NoMatch;
  }

  /** The answer is determined: two runs on the same candidates agree. */
  lemma MatchIsUnique(norms: Norms, endpoints: seq<Endpoint>, inc: Incoming, cands: seq<Candidate>, m: Match, m': Match)
    requires IsMatch(norms, endpoints, inc, cands, m) && IsMatch(norms, endpoints, inc, cands, m')
    ensures m == m'
  {
    assert !m.NoMatch? ==> cands[m.index] in cands;
    assert !m'.NoMatch? ==> cands[m'.index] in cands;
  }

  // ----- clusters -----

  function IncomingOf(c: Candidate): Incoming {
    Incoming(c.name, c.disambiguation, c.urls)
  }

  /** The positions that owner assigns to entry e, in order. */
  ghost function Members(owner: seq<nat>, e: nat): seq<nat> {
    if owner == [] then []
    else Members(owner[..|owner| - 1], e) + if owner[|owner| - 1] == e then [|owner| - 1] else []
  }

  lemma {:induction false} MembersAre(owner: seq<nat>, e: nat, i: nat)
    ensures i in Members(owner, e) <==> i < |owner| && owner[i] == e
    decreases |owner|
  {
    if owner != [] {
      MembersAre(owner[..|owner| - 1], e, i);
    }
  }

  predicate InRange(items: seq<Candidate>, members: seq<nat>) {
    forall p :: 0 <= p < |members| ==> members[p] < |items|
  }

  ghost function UrlsOf(items: seq<Candidate>, members: seq<nat>): seq<string>
    requires InRange(items, members)
  {
    if members == [] then [] else UrlsOf(items, members[..|members| - 1]) + items[members[|members| - 1]].urls
  }

  ghost function LinksOf(items: seq<Candidate>, members: seq<nat>): seq<Link>
    requires InRange(items, members)
  {
    if members == [] then [] else LinksOf(items, members[..|members| - 1]) + items[members[|members| - 1]].links
  }

  /** The entry that a cluster of items becomes: its first member with everybody's URLs and links. */
  ghost function Merged(items: seq<Candidate>, members: seq<nat>): Candidate
    requires members != [] && InRange(items, members)
  {
    var first := items[members[0]];
    Candidate(first.id, first.name, first.disambiguation, UrlsOf(items, members), LinksOf(items, members))
  }

  lemma {:induction false} InUrlsOf(items: seq<Candidate>, members: seq<nat>, u: string)
    requires InRange(items, members)
    ensures u in UrlsOf(items, members) <==> exists p :: 0 <= p < |members| && u in items[members[p]].urls
    decreases |members|
  {
    if members != [] {
      var init := members[..|members| - 1];
      InUrlsOf(items, init, u);
      if p :| 0 <= p < |init| && u in items[init[p]].urls {
        assert u in items[members[p]].urls;
      }
      if p :| 0 <= p < |members| && u in items[members[p]].urls {
        assert p < |init| ==> u in items[init[p]].urls;
      }
    }
  }

  lemma {:induction false} InLinksOf(items: seq<Candidate>, members: seq<nat>, l: Link)
    requires InRange(items, members)
    ensures l in LinksOf(items, members) <==> exists p :: 0 <= p < |members| && l in items[members[p]].links
    decreases |members|
  {
    if members != [] {
      var init := members[..|members| - 1];
      InLinksOf(items, init, l);
      if p :| 0 <= p < |init| && l in items[init[p]].links {
        assert l in items[members[p]].links;
      }
      if p :| 0 <= p < |members| && l in items[members[p]].links {
        assert p < |init| ==> l in items[init[p]].links;
      }
    }
  }

  /** An entity strongly matches a merged entry exactly when it matches one of its members. */
  lemma StrongMerged(norms: Norms, endpoints: seq<Endpoint>, inc: Incoming, items: seq<Candidate>, members: seq<nat>)
    requires members != [] && InRange(items, members)
    ensures Strong(norms, endpoints, inc, Merged(items, members))
       <==> exists p :: 0 <= p < |members| && Strong(norms, endpoints, inc, items[members[p]])
  {
    var entry := Merged(items, members);
    if ByEndpoint(norms, endpoints, inc.urls, entry.links) {
      var u, e, l :| u in inc.urls && e in endpoints && l in entry.links && PointsAt(norms, u, e, l);
      InLinksOf(items, members, l);
      var p :| 0 <= p < |members| && l in items[members[p]].links;
      assert Strong(norms, endpoints, inc, items[members[p]]);
    } else if ByExternal(norms, inc.urls, entry.urls) {
      var u, v :| u in inc.urls && v in entry.urls && SameSite(norms, u, v);
      InUrlsOf(items, members, v);
      var p :| 0 <= p < |members| && v in items[members[p]].urls;
      assert Strong(norms, endpoints, inc, items[members[p]]);
    }
    if p :| 0 <= p < |members| && Strong(norms, endpoints, inc, items[members[p]]) {
      var c := items[members[p]];
      if ByEndpoint(norms, endpoints, inc.urls, c.links) {
        var u, e, l :| u in inc.urls && e in endpoints && l in c.links && PointsAt(norms, u, e, l);
        InLinksOf(items, members, l);
        assert PointsAt(norms, u, e, l) && l in entry.links;
      } else {
        var u, v :| u in inc.urls && v in c.urls && SameSite(norms, u, v);
        InUrlsOf(items, members, v);
        assert SameSite(norms, u, v) && v in entry.urls;
      }
    }
  }

  /** The entries are exactly the merged clusters of the items seen so far. */
  ghost predicate Clustered(items: seq<Candidate>, owner: seq<nat>, deduped: seq<Candidate>) {
    && |owner| <= |items|
    && (forall i :: 0 <= i < |owner| ==> owner[i] < |deduped|)
    && (forall e :: 0 <= e < |deduped| ==> IsEntry(items, owner, e, deduped[e]))
  }

  ghost predicate IsEntry(items: seq<Candidate>, owner: seq<nat>, e: nat, entry: Candidate) {
    var members := Members(owner, e);
    members != [] && InRange(items, members) && entry == Merged(items, members)
  }

  ghost predicate Founds(owner: seq<nat>, i: nat)
    requires i < |owner|
  {
    forall j :: 0 <= j < i ==> owner[j] != owner[i]
  }

  ghost predicate StrongTo(norms: Norms, endpoints: seq<Endpoint>, items: seq<Candidate>, i: nat, j: nat)
    requires i < |items| && j < |items|
  {
    Strong(norms, endpoints, IncomingOf(items[i]), items[j])
  }

  /**
   Clusters hold together by strong matches alone: an item founds a cluster exactly when no
   earlier item matches it strongly, and otherwise it joins a cluster where one does.
   */
  ghost predicate Linked(norms: Norms, endpoints: seq<Endpoint>, items: seq<Candidate>, owner: seq<nat>)
    requires |owner| <= |items|
  {
    forall i :: 0 <= i < |owner| ==>
      if Founds(owner, i) then forall j :: 0 <= j < i ==> !StrongTo(norms, endpoints, items, i, j)
      else exists j :: 0 <= j < i && owner[j] == owner[i] && StrongTo(norms, endpoints, items, i, j)
  }

  ghost predicate HasMember(owner: seq<nat>, i: nat, e: nat)
    requires i <= |owner|
  {
    exists j :: 0 <= j < i && owner[j] == e
  }

  /** Entries are numbered in the order of their founders. */
  ghost predicate InOrder(owner: seq<nat>, entries: nat) {
    && (forall i :: 0 <= i < |owner| ==> owner[i] < entries)
    && (forall i, e :: 0 <= i < |owner| && 0 <= e < owner[i] ==> HasMember(owner, i, e))
    && (forall e :: 0 <= e < entries ==> HasMember(owner, |owner|, e))
  }

  datatype Audit = Audit(existing: Candidate, incoming: Candidate)

  /** Entry f is the first entry, at the moment item i arrives, that shares only its name. */
  ghost predicate FirstNamesake(norms: Norms, items: seq<Candidate>, owner: seq<nat>, i: nat, f: nat)
    requires i < |owner| <= |items|
  {
    && f < owner[i]
    && NamedLike(norms, items, owner[..i], items[i], f)
    && forall g :: 0 <= g < f ==> !NamedLike(norms, items, owner[..i], items[i], g)
  }

  ghost predicate NamedLike(norms: Norms, items: seq<Candidate>, owner: seq<nat>, item: Candidate, f: nat) {
    var members := Members(owner, f);
    members != [] && InRange(items, members) && ByName(norms, IncomingOf(item), Merged(items, members))
  }

  /** The audit log: one pair for every founder that has a namesake then, in order, and no other. */
  ghost predicate Audited(norms: Norms, items: seq<Candidate>, owner: seq<nat>, audit: seq<Audit>)
    requires |owner| <= |items|
  {
    if owner == [] then audit == []
    else
      var i := |owner| - 1;
      if Founds(owner, i) && exists f :: FirstNamesake(norms, items, owner, i, f) then
        && audit != [] && Audited(norms, items, owner[..i], audit[..|audit| - 1])
        && exists f :: FirstNamesake(norms, items, owner, i, f)
             && audit[|audit| - 1] == Audit(Merged(items, Members(owner[..i], f)), items[i])
      else Audited(norms, items, owner[..i], audit)
  }

  lemma MembersPush(owner: seq<nat>, e: nat, f: nat)
    ensures Members(owner + [e], f) == if f == e then Members(owner, f) + [|owner|] else Members(owner, f)
  {
    assert (owner + [e])[..|owner|] == owner;
  }

  lemma MergedPush(items: seq<Candidate>, members: seq<nat>, k: nat)
    requires members != [] && InRange(items, members) && k < |items|
    ensures var entry := Merged(items, members);
      Merged(items, members + [k]) == entry.(urls := entry.urls + items[k].urls, links := entry.links + items[k].links)
  {
    assert (members + [k])[..|members|] == members;
  }

  lemma FoundsPush(owner: seq<nat>, e: nat, i: nat)
    requires i < |owner|
    ensures Founds(owner + [e], i) == Founds(owner, i)
  {
    assert forall j :: 0 <= j <= i ==> (owner + [e])[j] == owner[j];
  }

  /** The first member of an entry exists and precedes every other member. */
  lemma {:induction false} FirstMemberFounds(owner: seq<nat>, e: nat)
    requires Members(owner, e) != []
    ensures var first := Members(owner, e)[0];
      first < |owner| && owner[first] == e && forall j :: 0 <= j < first ==> owner[j] != e
    decreases |owner|
  {
    var init := owner[..|owner| - 1];
    if Members(init, e) != [] {
      FirstMemberFounds(init, e);
    } else {
      forall j | 0 <= j < |init| ensures init[j] != e {
        MembersAre(init, e, j);
      }
    }
  }

  /** The next item joins entry e. */
  lemma JoinKeepsClusters(items: seq<Candidate>, owner: seq<nat>, deduped: seq<Candidate>, e: nat)
    requires Clustered(items, owner, deduped) && |owner| < |items| && e < |deduped|
    ensures var k := |owner|;
      var entry := deduped[e].(urls := deduped[e].urls + items[k].urls, links := deduped[e].links + items[k].links);
      Clustered(items, owner + [e], deduped[e := entry])
  {
    var k := |owner|;
    var entry := deduped[e].(urls := deduped[e].urls + items[k].urls, links := deduped[e].links + items[k].links);
    var deduped' := deduped[e := entry];
    forall f | 0 <= f < |deduped'| ensures IsEntry(items, owner + [e], f, deduped'[f]) {
      assert IsEntry(items, owner, f, deduped[f]);
      MembersPush(owner, e, f);
      MergedPush(items, Members(owner, f), k);
    }
  }

  /** The next item founds a new entry. */
  lemma FoundKeepsClusters(items: seq<Candidate>, owner: seq<nat>, deduped: seq<Candidate>)
    requires Clustered(items, owner, deduped) && |owner| < |items|
    ensures Clustered(items, owner + [|deduped|], deduped + [items[|owner|]])
  {
    var k, e := |owner|, |deduped|;
    forall f | 0 <= f <= |deduped| ensures IsEntry(items, owner + [e], f, (deduped + [items[k]])[f]) {
      MembersPush(owner, e, f);
      if f < e {
        assert IsEntry(items, owner, f, deduped[f]);
      } else {
        assert Members(owner, e) == [] by {
          if Members(owner, e) != [] {
            MembersAre(owner, e, Members(owner, e)[0]);
          }
        }
        OneMember(items, k);
      }
    }
  }

  lemma OneMember(items: seq<Candidate>, k: nat)
    requires k < |items|
    ensures InRange(items, [k]) && Merged(items, [k]) == items[k]
  {
    assert [k][..0] == [];
    assert UrlsOf(items, [k]) == [] + items[k].urls;
    assert LinksOf(items, [k]) == [] + items[k].links;
  }

  lemma JoinKeepsLinked(norms: Norms, endpoints: seq<Endpoint>, items: seq<Candidate>, owner: seq<nat>,
                        deduped: seq<Candidate>, e: nat)
    requires Clustered(items, owner, deduped) && |owner| < |items| && e < |deduped|
    requires Linked(norms, endpoints, items, owner)
    requires Strong(norms, endpoints, IncomingOf(items[|owner|]), deduped[e])
    ensures Linked(norms, endpoints, items, owner + [e]) && !Founds(owner + [e], |owner|)
  {
    var k, owner' := |owner|, owner + [e];
    assert IsEntry(items, owner, e, deduped[e]);
    var members := Members(owner, e);
    StrongMerged(norms, endpoints, IncomingOf(items[k]), items, members);
    var p :| 0 <= p < |members| && Strong(norms, endpoints, IncomingOf(items[k]), items[members[p]]);
    MembersAre(owner, e, members[p]);
    assert owner'[members[p]] == owner'[k] && StrongTo(norms, endpoints, items, k, members[p]);
    forall i | 0 <= i < |owner|
      ensures if Founds(owner', i) then forall j :: 0 <= j < i ==> !StrongTo(norms, endpoints, items, i, j)
        else exists j :: 0 <= j < i && owner'[j] == owner'[i] && StrongTo(norms, endpoints, items, i, j)
    {
      LinkedPush(norms, endpoints, items, owner, e, i);
    }
  }

  lemma LinkedPush(norms: Norms, endpoints: seq<Endpoint>, items: seq<Candidate>, owner: seq<nat>, e: nat, i: nat)
    requires |owner| < |items| && Linked(norms, endpoints, items, owner) && i < |owner|
    ensures var owner' := owner + [e];
      if Founds(owner', i) then forall j :: 0 <= j < i ==> !StrongTo(norms, endpoints, items, i, j)
      else exists j :: 0 <= j < i && owner'[j] == owner'[i] && StrongTo(norms, endpoints, items, i, j)
  {
    FoundsPush(owner, e, i);
    if !Founds(owner, i) {
      var j :| 0 <= j < i && owner[j] == owner[i] && StrongTo(norms, endpoints, items, i, j);
      assert (owner + [e])[j] == (owner + [e])[i];
    }
  }

  lemma FoundKeepsLinked(norms: Norms, endpoints: seq<Endpoint>, items: seq<Candidate>, owner: seq<nat>,
                         deduped: seq<Candidate>)
    requires Clustered(items, owner, deduped) && |owner| < |items|
    requires Linked(norms, endpoints, items, owner)
    requires forall c :: c in deduped ==> !Strong(norms, endpoints, IncomingOf(items[|owner|]), c)
    ensures Linked(norms, endpoints, items, owner + [|deduped|]) && Founds(owner + [|deduped|], |owner|)
  {
    var k, e := |owner|, |deduped|;
    forall j | 0 <= j < k ensures !StrongTo(norms, endpoints, items, k, j) {
      var f := owner[j];
      assert IsEntry(items, owner, f, deduped[f]) && deduped[f] in deduped;
      var members := Members(owner, f);
      MembersAre(owner, f, j);
      StrongMerged(norms, endpoints, IncomingOf(items[k]), items, members);
      var p :| 0 <= p < |members| && members[p] == j;
    }
    forall i | 0 <= i < |owner|
      ensures if Founds(owner + [e], i) then forall j :: 0 <= j < i ==> !StrongTo(norms, endpoints, items, i, j)
        else exists j :: 0 <= j < i && (owner + [e])[j] == (owner + [e])[i] && StrongTo(norms, endpoints, items, i, j)
    {
      LinkedPush(norms, endpoints, items, owner, e, i);
    }
  }

  lemma OrderPush(owner: seq<nat>, entries: nat, e: nat)
    requires InOrder(owner, entries) && e <= entries
    ensures InOrder(owner + [e], if e == entries then entries + 1 else entries)
  {
    var owner' := owner + [e];
    forall i, f | 0 <= i < |owner'| && 0 <= f < owner'[i] ensures HasMember(owner', i, f) {
      if i < |owner| {
        assert HasMember(owner, i, f);
        var j :| 0 <= j < i && owner[j] == f;
        assert owner'[j] == f;
      } else {
        assert HasMember(owner, |owner|, f);
        var j :| 0 <= j < |owner| && owner[j] == f;
        assert owner'[j] == f;
      }
    }
    forall f | 0 <= f < (if e == entries then entries + 1 else entries) ensures HasMember(owner', |owner'|, f) {
      if f < entries {
        assert HasMember(owner, |owner|, f);
        var j :| 0 <= j < |owner| && owner[j] == f;
        assert owner'[j] == f;
      } else {
        assert owner'[|owner|] == f;
      }
    }
  }

  /** The entry an item goes to: the one it merges with, else a new one. */
  function TargetOf(m: Match, entries: nat): nat {
    if m.AutoMerge? then m.index else entries
  }

  /** Item i went where it matched among the entries that stood when it came. */
  ghost predicate Assigned(norms: Norms, endpoints: seq<Endpoint>, items: seq<Candidate>, owner: seq<nat>, i: nat)
    requires i < |owner| <= |items|
  {
    exists entries, m ::
      && Clustered(items, owner[..i], entries) && IsMatch(norms, endpoints, IncomingOf(items[i]), entries, m)
      && owner[i] == TargetOf(m, |entries|)
  }

  ghost predicate AllAssigned(norms: Norms, endpoints: seq<Endpoint>, items: seq<Candidate>, owner: seq<nat>)
    requires |owner| <= |items|
  {
    forall i :: 0 <= i < |owner| ==> Assigned(norms, endpoints, items, owner, i)
  }

  lemma AssignedPush(norms: Norms, endpoints: seq<Endpoint>, items: seq<Candidate>, owner: seq<nat>,
                     deduped: seq<Candidate>, m: Match)
    requires |owner| < |items| && AllAssigned(norms, endpoints, items, owner)
    requires Clustered(items, owner, deduped) && IsMatch(norms, endpoints, IncomingOf(items[|owner|]), deduped, m)
    ensures AllAssigned(norms, endpoints, items, owner + [TargetOf(m, |deduped|)])
  {
    var owner' := owner + [TargetOf(m, |deduped|)];
    assert owner'[..|owner|] == owner;
    forall i | 0 <= i < |owner'| ensures Assigned(norms, endpoints, items, owner', i) {
      if i < |owner| {
        assert Assigned(norms, endpoints, items, owner, i) && owner'[..i] == owner[..i];
      }
    }
  }

  /** What deduplicating the items means, given the entry each item went to. */
  ghost predicate IsDeduplication(norms: Norms, endpoints: seq<Endpoint>, items: seq<Candidate>, owner: seq<nat>,
                                  deduped: seq<Candidate>, audit: seq<Audit>)
  {
    |owner| == |items| && DedupedSoFar(norms, endpoints, items, owner, deduped, audit)
  }

  ghost predicate DedupedSoFar(norms: Norms, endpoints: seq<Endpoint>, items: seq<Candidate>, owner: seq<nat>,
                               deduped: seq<Candidate>, audit: seq<Audit>)
  {
    && Clustered(items, owner, deduped) && AllAssigned(norms, endpoints, items, owner)
    && Linked(norms, endpoints, items, owner) && InOrder(owner, |deduped|)
    && Audited(norms, items, owner, audit)
  }

  /** The next item merges with the entry it matched. */
  lemma JoinStep(norms: Norms, endpoints: seq<Endpoint>, items: seq<Candidate>, owner: seq<nat>,
                 deduped: seq<Candidate>, audit: seq<Audit>, m: Match)
    requires |owner| < |items| && DedupedSoFar(norms, endpoints, items, owner, deduped, audit)
    requires IsMatch(norms, endpoints, IncomingOf(items[|owner|]), deduped, m) && m.AutoMerge?
    ensures var item, entry := items[|owner|], deduped[m.index];
      DedupedSoFar(norms, endpoints, items, owner + [m.index],
                   deduped[m.index := entry.(urls := entry.urls + item.urls, links := entry.links + item.links)], audit)
  {
    AssignedPush(norms, endpoints, items, owner, deduped, m);
    JoinKeepsClusters(items, owner, deduped, m.index);
    JoinKeepsLinked(norms, endpoints, items, owner, deduped, m.index);
    OrderPush(owner, |deduped|, m.index);
    AuditSkips(norms, items, owner, m.index, audit);
  }

  /** The next item becomes an entry of its own, and is noted when it shares a name. */
  lemma FoundStep(norms: Norms, endpoints: seq<Endpoint>, items: seq<Candidate>, owner: seq<nat>,
                  deduped: seq<Candidate>, audit: seq<Audit>, m: Match)
    requires |owner| < |items| && DedupedSoFar(norms, endpoints, items, owner, deduped, audit)
    requires IsMatch(norms, endpoints, IncomingOf(items[|owner|]), deduped, m) && !m.AutoMerge?
    ensures var item := items[|owner|];
      DedupedSoFar(norms, endpoints, items, owner + [|deduped|], deduped + [item],
                   if m.AuditCandidate? then audit + [Audit(deduped[m.index], item)] else audit)
  {
    AssignedPush(norms, endpoints, items, owner, deduped, m);
    FoundKeepsClusters(items, owner, deduped);
    FoundKeepsLinked(norms, endpoints, items, owner, deduped);
    OrderPush(owner, |deduped|, |deduped|);
    AuditGrows(norms, endpoints, items, owner, deduped, audit, m);
  }

  /** DeduplicateEntitiesWithAudit. The ghost result names the entry each item went to. */
  method DeduplicateEntitiesWithAudit(norms: Norms, endpoints: seq<Endpoint>, items: seq<Candidate>)
    returns (deduped: seq<Candidate>, audit: seq<Audit>, ghost owner: seq<nat>)
    ensures IsDeduplication(norms, endpoints, items, owner, deduped, audit)
    ensures exists o :: IsDeduplication(norms, endpoints, items, o, deduped, audit)
  {
    deduped, audit, owner := [], [], [];
    for k := 0 to |items|
      invariant |owner| == k && DedupedSoFar(norms, endpoints, items, owner, deduped, audit)
    {
      var item := items[k];
      var inc := Incoming(item.name, item.disambiguation, item.urls);
      var m := MatchEntity(norms, endpoints, inc, deduped);
      if m.AutoMerge? {
        JoinStep(norms, endpoints, items, owner, deduped, audit, m);
        var e := m.index;
        deduped := deduped[e := deduped[e].(urls := deduped[e].urls + item.urls,
            links := deduped[e].links + item.links)];
        owner := owner + [e];
        continue;
      }
      FoundStep(norms, endpoints, items, owner, deduped, audit, m);
      if m.AuditCandidate? {
        audit := audit + [Audit(deduped[m.index], item)];
      }
      owner := owner + [|deduped|];
      deduped := deduped + [item];
    }
    assert IsDeduplication(norms, endpoints, items, owner, deduped, audit);
  }

  lemma AuditSkips(norms: Norms, items: seq<Candidate>, owner: seq<nat>, e: nat, audit: seq<Audit>)
    requires |owner| < |items| && Audited(norms, items, owner, audit)
    requires !Founds(owner + [e], |owner|)
    ensures Audited(norms, items, owner + [e], audit)
  {
    assert (owner + [e])[..|owner|] == owner;
  }

  lemma AuditGrows(norms: Norms, endpoints: seq<Endpoint>, items: seq<Candidate>, owner: seq<nat>,
                   deduped: seq<Candidate>, audit: seq<Audit>, m: Match)
    requires |owner| < |items| && Clustered(items, owner, deduped) && Audited(norms, items, owner, audit)
    requires Founds(owner + [|deduped|], |owner|)
    requires IsMatch(norms, endpoints, IncomingOf(items[|owner|]), deduped, m) && !m.AutoMerge?
    ensures var grown := if m.AuditCandidate? then audit + [Audit(deduped[m.index], items[|owner|])] else audit;
      Audited(norms, items, owner + [|deduped|], grown)
  {
    var i, owner' := |owner|, owner + [|deduped|];
    assert owner'[..i] == owner;
    forall f | 0 <= f < |deduped|
      ensures NamedLike(norms, items, owner, items[i], f) <==> ByName(norms, IncomingOf(items[i]), deduped[f])
    {
      assert IsEntry(items, owner, f, deduped[f]);
    }
    if m.AuditCandidate? {
      assert FirstNamesake(norms, items, owner', i, m.index);
      assert IsEntry(items, owner, m.index, deduped[m.index]);
      var grown := audit + [Audit(deduped[m.index], items[i])];
      assert grown[..|grown| - 1] == audit;
    } else {
      forall f: nat ensures !FirstNamesake(norms, items, owner', i, f) {
        if f < |deduped| {
          assert deduped[f] in deduped;
        }
      }
    }
  }

  // ----- what the clusters promise -----

  ghost predicate StrongPath(norms: Norms, endpoints: seq<Endpoint>, items: seq<Candidate>, owner: seq<nat>,
                             path: seq<nat>)
    requires |owner| <= |items|
  {
    && |path| > 0 && path[0] < |owner|
    && (forall p :: 0 <= p < |path| ==> path[p] < |owner| && owner[path[p]] == owner[path[0]])
    && forall p :: 0 <= p < |path| - 1 ==> StrongTo(norms, endpoints, items, path[p], path[p + 1])
  }

  /** Every item is tied to the founder of its entry by strong matches inside the cluster. */
  lemma {:induction false} ClustersAreConnected(norms: Norms, endpoints: seq<Endpoint>, items: seq<Candidate>,
                                                owner: seq<nat>, i: nat)
    returns (path: seq<nat>)
    requires |owner| <= |items| && Linked(norms, endpoints, items, owner) && i < |owner|
    ensures StrongPath(norms, endpoints, items, owner, path)
    ensures path[0] == i && Founds(owner, path[|path| - 1])
    decreases i
  {
    if Founds(owner, i) {
      path := [i];
    } else {
      var j :| 0 <= j < i && owner[j] == owner[i] && StrongTo(norms, endpoints, items, i, j);
      var rest := ClustersAreConnected(norms, endpoints, items, owner, j);
      LongerPath(norms, endpoints, items, owner, i, rest);
      path := [i] + rest;
    }
  }

  lemma LongerPath(norms: Norms, endpoints: seq<Endpoint>, items: seq<Candidate>, owner: seq<nat>, i: nat,
                   rest: seq<nat>)
    requires |owner| <= |items| && i < |owner| && StrongPath(norms, endpoints, items, owner, rest)
    requires owner[rest[0]] == owner[i] && StrongTo(norms, endpoints, items, i, rest[0])
    ensures StrongPath(norms, endpoints, items, owner, [i] + rest)
  {
    var path := [i] + rest;
    assert forall p :: 0 < p < |path| ==> path[p] == rest[p - 1];
    forall p | 0 <= p < |path| - 1 ensures StrongTo(norms, endpoints, items, path[p], path[p + 1]) {
      if p > 0 {
        assert path[p] == rest[p - 1] && path[p + 1] == rest[p - 1 + 1];
      }
    }
  }

  /** The founder of an entry lends it its identity. */
  lemma EntryIsItsFounder(items: seq<Candidate>, owner: seq<nat>, deduped: seq<Candidate>, i: nat)
    requires Clustered(items, owner, deduped) && i < |owner| && Founds(owner, i)
    ensures var entry := deduped[owner[i]];
      entry.id == items[i].id && entry.name == items[i].name && entry.disambiguation == items[i].disambiguation
  {
    var e := owner[i];
    assert IsEntry(items, owner, e, deduped[e]);
    FirstMemberFounds(owner, e);
    assert Members(owner, e)[0] == i;
  }

  // ----- the result is determined -----

  /** The clusters say what the entries are. */
  lemma EntriesAreDetermined(items: seq<Candidate>, owner: seq<nat>, a: seq<Candidate>, b: seq<Candidate>)
    requires Clustered(items, owner, a) && Clustered(items, owner, b)
    ensures a == b
  {
    NoMoreEntries(items, owner, a, b);
    NoMoreEntries(items, owner, b, a);
    forall e | 0 <= e < |a| ensures a[e] == b[e] {
      assert IsEntry(items, owner, e, a[e]) && IsEntry(items, owner, e, b[e]);
    }
  }

  lemma NoMoreEntries(items: seq<Candidate>, owner: seq<nat>, a: seq<Candidate>, b: seq<Candidate>)
    requires Clustered(items, owner, a) && Clustered(items, owner, b)
    ensures |b| <= |a|
  {
    if b != [] {
      var e := |b| - 1;
      assert IsEntry(items, owner, e, b[e]);
      MembersAre(owner, e, Members(owner, e)[0]);
    }
  }

  /** Where the first items went is determined. */
  lemma {:induction false} OwnersAreDetermined(norms: Norms, endpoints: seq<Endpoint>, items: seq<Candidate>,
                                               a: seq<nat>, b: seq<nat>, n: nat)
    requires n <= |a| <= |items| && n <= |b| <= |items|
    requires AllAssigned(norms, endpoints, items, a) && AllAssigned(norms, endpoints, items, b)
    ensures a[..n] == b[..n]
  {
    if n > 0 {
      var i := n - 1;
      OwnersAreDetermined(norms, endpoints, items, a, b, i);
      assert Assigned(norms, endpoints, items, a, i) && Assigned(norms, endpoints, items, b, i);
      var entries, m :| Clustered(items, a[..i], entries)
        && IsMatch(norms, endpoints, IncomingOf(items[i]), entries, m) && a[i] == TargetOf(m, |entries|);
      var entries', m' :| Clustered(items, b[..i], entries')
        && IsMatch(norms, endpoints, IncomingOf(items[i]), entries', m') && b[i] == TargetOf(m', |entries'|);
      EntriesAreDetermined(items, a[..i], entries, entries');
      MatchIsUnique(norms, endpoints, IncomingOf(items[i]), entries, m, m');
      assert a[..n] == a[..i] + [a[i]] && b[..n] == b[..i] + [b[i]];
    }
  }

  lemma SameInitAndLast<T>(a: seq<T>, b: seq<T>)
    requires a != [] && b != [] && a[..|a| - 1] == b[..|b| - 1] && a[|a| - 1] == b[|b| - 1]
    ensures a == b
  {
    assert a == a[..|a| - 1] + [a[|a| - 1]] && b == b[..|b| - 1] + [b[|b| - 1]];
  }

  lemma FirstNamesakeIsOne(norms: Norms, items: seq<Candidate>, owner: seq<nat>, i: nat, f: nat, g: nat)
    requires i < |owner| <= |items| && FirstNamesake(norms, items, owner, i, f)
    requires FirstNamesake(norms, items, owner, i, g)
    ensures f == g
  {
  }

  lemma {:induction false} AuditIsDetermined(norms: Norms, items: seq<Candidate>, owner: seq<nat>, a: seq<Audit>,
                                             b: seq<Audit>)
    requires |owner| <= |items| && Audited(norms, items, owner, a) && Audited(norms, items, owner, b)
    ensures a == b
    decreases |owner|
  {
    if owner != [] {
      var i := |owner| - 1;
      if Founds(owner, i) && exists f :: FirstNamesake(norms, items, owner, i, f) {
        AuditIsDetermined(norms, items, owner[..i], a[..|a| - 1], b[..|b| - 1]);
        var f :| FirstNamesake(norms, items, owner, i, f)
          && a[|a| - 1] == Audit(Merged(items, Members(owner[..i], f)), items[i]);
        var g :| FirstNamesake(norms, items, owner, i, g)
          && b[|b| - 1] == Audit(Merged(items, Members(owner[..i], g)), items[i]);
        FirstNamesakeIsOne(norms, items, owner, i, f, g);
        SameInitAndLast(a, b);
      } else {
        AuditIsDetermined(norms, items, owner[..i], a, b);
      }
    }
  }

  /** The items determine the entries and the audit log: any other pair of them is no deduplication. */
  lemma ResultIsDetermined(norms: Norms, endpoints: seq<Endpoint>, items: seq<Candidate>, owner: seq<nat>,
                           deduped: seq<Candidate>,
                           audit: seq<Audit>, owner': seq<nat>, deduped': seq<Candidate>, audit': seq<Audit>)
    requires IsDeduplication(norms, endpoints, items, owner, deduped, audit)
    requires IsDeduplication(norms, endpoints, items, owner', deduped', audit')
    ensures owner == owner' && deduped == deduped' && audit == audit'
  {
    OwnersAreDetermined(norms, endpoints, items, owner, owner', |items|);
    assert owner == owner[..|items|] == owner'[..|items|] == owner';
    EntriesAreDetermined(items, owner, deduped, deduped');
    AuditIsDetermined(norms, items, owner, audit, audit');
  }

  // ----- conservation -----

  function Occurrences<T(==)>(s: seq<T>, x: T): nat {
    if s == [] then 0 else Occurrences(s[..|s| - 1], x) + if s[|s| - 1] == x then 1 else 0
  }

  lemma {:induction false} OccurrencesCount<T>(s: seq<T>, x: T)
    ensures Occurrences(s, x) == multiset(s)[x]
  {
    if s != [] {
      OccurrencesCount(s[..|s| - 1], x);
      assert s == s[..|s| - 1] + [s[|s| - 1]];
    }
  }

  lemma {:induction false} OccurrencesAppend<T>(a: seq<T>, b: seq<T>, x: T)
    ensures Occurrences(a + b, x) == Occurrences(a, x) + Occurrences(b, x)
    decreases |b|
  {
    if b == [] {
      assert a + b == a;
    } else {
      assert (a + b)[..|a + b| - 1] == a + b[..|b| - 1];
      OccurrencesAppend(a, b[..|b| - 1], x);
    }
  }

  /** How often a URL, or a link, occurs in a list of candidates. */
  ghost function UrlCount(cs: seq<Candidate>, u: string): nat {
    if cs == [] then 0 else UrlCount(cs[..|cs| - 1], u) + Occurrences(cs[|cs| - 1].urls, u)
  }

  ghost function LinkCount(cs: seq<Candidate>, l: Link): nat {
    if cs == [] then 0 else LinkCount(cs[..|cs| - 1], l) + Occurrences(cs[|cs| - 1].links, l)
  }

  lemma MembersInRange(items: seq<Candidate>, owner: seq<nat>, e: nat)
    requires |owner| <= |items|
    ensures InRange(items, Members(owner, e))
  {
    var members := Members(owner, e);
    forall p | 0 <= p < |members| ensures members[p] < |items| {
      MembersAre(owner, e, members[p]);
    }
  }

  ghost function SumTo(f: nat -> nat, n: nat): nat {
    if n == 0 then 0 else SumTo(f, n - 1) + f(n - 1)
  }

  /** Raising one value raises the sum by as much. */
  lemma {:induction false} SumToRaised(f: nat -> nat, g: nat -> nat, e: nat, more: nat, n: nat)
    requires forall i: nat :: g(i) == f(i) + if i == e then more else 0
    ensures SumTo(g, n) == SumTo(f, n) + if e < n then more else 0
    decreases n
  {
    if n > 0 {
      SumToRaised(f, g, e, more, n - 1);
    }
  }

  /** How often one entry holds a URL or a link. */
  ghost function EntryUrl(items: seq<Candidate>, owner: seq<nat>, u: string): nat -> nat
    requires |owner| <= |items|
  {
    (e: nat) => MembersInRange(items, owner, e); Occurrences(UrlsOf(items, Members(owner, e)), u)
  }

  ghost function EntryLink(items: seq<Candidate>, owner: seq<nat>, l: Link): nat -> nat
    requires |owner| <= |items|
  {
    (e: nat) => MembersInRange(items, owner, e); Occurrences(LinksOf(items, Members(owner, e)), l)
  }

  lemma EntryPush(items: seq<Candidate>, owner: seq<nat>, e: nat, f: nat)
    requires |owner| < |items|
    ensures InRange(items, Members(owner, f)) && InRange(items, Members(owner + [e], f))
    ensures var k, members := |owner|, Members(owner, f);
      && UrlsOf(items, Members(owner + [e], f))
           == (if e == f then UrlsOf(items, members) + items[k].urls else UrlsOf(items, members))
      && LinksOf(items, Members(owner + [e], f))
           == (if e == f then LinksOf(items, members) + items[k].links else LinksOf(items, members))
  {
    MembersInRange(items, owner, f);
    MembersInRange(items, owner + [e], f);
    MembersPush(owner, e, f);
    var members := Members(owner, f);
    assert (members + [|owner|])[..|members|] == members;
  }

  lemma EntryCounts(items: seq<Candidate>, owner: seq<nat>, e: nat, f: nat, u: string, l: Link)
    requires |owner| < |items|
    ensures EntryUrl(items, owner + [e], u)(f)
         == EntryUrl(items, owner, u)(f) + if f == e then Occurrences(items[|owner|].urls, u) else 0
    ensures EntryLink(items, owner + [e], l)(f)
         == EntryLink(items, owner, l)(f) + if f == e then Occurrences(items[|owner|].links, l) else 0
  {
    EntryPush(items, owner, e, f);
    OccurrencesAppend(UrlsOf(items, Members(owner, f)), items[|owner|].urls, u);
    OccurrencesAppend(LinksOf(items, Members(owner, f)), items[|owner|].links, l);
  }

  lemma {:induction false} HeldAll(items: seq<Candidate>, owner: seq<nat>, n: nat, u: string, l: Link)
    requires |owner| <= |items| && forall i :: 0 <= i < |owner| ==> owner[i] < n
    ensures SumTo(EntryUrl(items, owner, u), n) == UrlCount(items[..|owner|], u)
    ensures SumTo(EntryLink(items, owner, l), n) == LinkCount(items[..|owner|], l)
    decreases |owner|
  {
    if owner == [] {
      SumToZero(EntryUrl(items, owner, u), n);
      SumToZero(EntryLink(items, owner, l), n);
    } else {
      var init, e := owner[..|owner| - 1], owner[|owner| - 1];
      assert owner == init + [e];
      HeldAll(items, init, n, u, l);
      forall f: nat {
        EntryCounts(items, init, e, f, u, l);
      }
      SumToRaised(EntryUrl(items, init, u), EntryUrl(items, owner, u), e, Occurrences(items[|init|].urls, u), n);
      SumToRaised(EntryLink(items, init, l), EntryLink(items, owner, l), e, Occurrences(items[|init|].links, l), n);
      assert items[..|owner|][..|init|] == items[..|init|];
    }
  }

  lemma {:induction false} SumToZero(f: nat -> nat, n: nat)
    requires forall i: nat :: f(i) == 0
    ensures SumTo(f, n) == 0
    decreases n
  {
    if n > 0 {
      SumToZero(f, n - 1);
    }
  }

  lemma {:induction false} HeldByEntries(items: seq<Candidate>, owner: seq<nat>, deduped: seq<Candidate>, n: nat,
                                         u: string, l: Link)
    requires Clustered(items, owner, deduped) && n <= |deduped|
    ensures UrlCount(deduped[..n], u) == SumTo(EntryUrl(items, owner, u), n)
    ensures LinkCount(deduped[..n], l) == SumTo(EntryLink(items, owner, l), n)
    decreases n
  {
    if n > 0 {
      HeldByEntries(items, owner, deduped, n - 1, u, l);
      assert deduped[..n][..n - 1] == deduped[..n - 1];
      assert IsEntry(items, owner, n - 1, deduped[n - 1]);
    }
  }

  /** No URL and no link is lost, invented or duplicated: each occurs as often as before. */
  lemma NothingIsLost(items: seq<Candidate>, owner: seq<nat>, deduped: seq<Candidate>, u: string, l: Link)
    requires Clustered(items, owner, deduped) && |owner| == |items|
    ensures UrlCount(deduped, u) == UrlCount(items, u)
    ensures LinkCount(deduped, l) == LinkCount(items, l)
  {
    HeldAll(items, owner, |deduped|, u, l);
    HeldByEntries(items, owner, deduped, |deduped|, u, l);
    assert items[..|owner|] == items && deduped[..|deduped|] == deduped;
  }
}
