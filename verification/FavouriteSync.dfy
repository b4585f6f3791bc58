/**
 The favourites sweep of api/internal/adult/sync.go: pages of favourites are fetched from one
 instance, each item is resolved to an entity, its reference is refreshed, and references
 that were not seen are cleared. The server, the database and the id generator are
 parameters with the behaviour their calls rely on.
 */
module FavouriteSync {
  import opened Prelude
  import opened EntityMatching

  const PER_PAGE: nat := 50
  const MAX_ITEMS: nat := 500
  const MAX_URLS: nat := 64

  // ----- unionURLs -----

  function AddUrl(norm: string -> string, urls: seq<string>, raw: string): seq<string> {
    var u := norm(raw);
    if u == "" || u in urls || |urls| >= MAX_URLS then urls else urls + [u]
  }

  function AddUrls(norm: string -> string, urls: seq<string>, more: seq<string>): seq<string> {
    if more == [] then urls else AddUrl(norm, AddUrls(norm, urls, more[..|more| - 1]), more[|more| - 1])
  }

  /** The union of the stored and the incoming URLs, normalised, capped, first come first kept. */
  function Union(norm: string -> string, stored: seq<string>, incoming: seq<string>): seq<string> {
    AddUrls(norm, AddUrls(norm, [], stored), incoming)
  }

  method UnionURLs(norm: string -> string, stored: seq<string>, incoming: seq<string>) returns (r: seq<string>)
    ensures r == Union(norm, stored, incoming)
  {
    var seen: set<string> := {};
    r := [];
    for i := 0 to |stored|
      invariant r == AddUrls(norm, [], stored[..i]) && seen == ToSet(r)
    {
      assert stored[..i + 1][..i] == stored[..i];
      var u := norm(stored[i]);
      if u != "" && u !in seen && |r| < MAX_URLS {
        ToSetAppend(r, u);
        seen := seen + {u};
        r := r + [u];
      }
    }
    assert stored[..|stored|] == stored;
    ghost var kept := r;
    for i := 0 to |incoming|
      invariant r == AddUrls(norm, kept, incoming[..i]) && seen == ToSet(r)
    {
      assert incoming[..i + 1][..i] == incoming[..i];
      var u := norm(incoming[i]);
      if u != "" && u !in seen && |r| < MAX_URLS {
        ToSetAppend(r, u);
        seen := seen + {u};
        r := r + [u];
      }
    }
    assert incoming[..|incoming|] == incoming;
  }

  ghost predicate Idempotent(norm: string -> string) {
    forall u :: norm(norm(u)) == norm(u)
  }

  /** A URL list as the sweep writes it: distinct, capped, normalised. */
  ghost predicate Clean(norm: string -> string, urls: seq<string>) {
    Distinct(urls) && |urls| <= MAX_URLS && forall u :: u in urls ==> u != "" && norm(u) == u
  }

  /** The list holds all of these URLs, unless it is full. */
  ghost predicate Absorbs(norm: string -> string, urls: seq<string>, more: seq<string>) {
    |urls| == MAX_URLS || forall u :: u in more ==> norm(u) == "" || norm(u) in urls
  }

  lemma {:induction false} AddUrlsKeeps(norm: string -> string, urls: seq<string>, more: seq<string>)
    requires Idempotent(norm) && Clean(norm, urls)
    ensures var r := AddUrls(norm, urls, more);
      Clean(norm, r) && urls <= r && Absorbs(norm, r, more)
    decreases |more|
  {
    if more != [] {
      AddUrlsKeeps(norm, urls, more[..|more| - 1]);
      var r := AddUrls(norm, urls, more[..|more| - 1]);
      var u := norm(more[|more| - 1]);
      assert norm(u) == u;
      forall v | v in more ensures |AddUrl(norm, r, more[|more| - 1])| == MAX_URLS || norm(v) == ""
        || norm(v) in AddUrl(norm, r, more[|more| - 1])
      {
        assert v == more[|more| - 1] || v in more[..|more| - 1];
      }
    }
  }

  /** Adding URLs that a list absorbs changes nothing. */
  lemma {:induction false} AddAbsorbed(norm: string -> string, urls: seq<string>, more: seq<string>)
    requires |urls| <= MAX_URLS && Absorbs(norm, urls, more)
    ensures AddUrls(norm, urls, more) == urls
    decreases |more|
  {
    if more != [] {
      var init := more[..|more| - 1];
      assert forall v :: v in init ==> v in more;
      AddAbsorbed(norm, urls, init);
      assert more[|more| - 1] in more;
    }
  }

  lemma CleanPrefix(norm: string -> string, urls: seq<string>)
    requires Clean(norm, urls) && urls != []
    ensures var init, last := urls[..|urls| - 1], urls[|urls| - 1];
      Clean(norm, init) && last !in init && norm(last) == last && last != ""
  {
    var init, last := urls[..|urls| - 1], urls[|urls| - 1];
    assert last in urls;
    forall u | u in init ensures u in urls && u != "" && norm(u) == u {
      var i :| 0 <= i < |init| && init[i] == u;
      assert urls[i] == u;
    }
    assert Distinct(init);
  }

  /** Normalising a clean list again gives the list. */
  lemma {:induction false} AddClean(norm: string -> string, urls: seq<string>)
    requires Clean(norm, urls)
    ensures AddUrls(norm, [], urls) == urls
    decreases |urls|
  {
    if urls != [] {
      var init, last := urls[..|urls| - 1], urls[|urls| - 1];
      CleanPrefix(norm, urls);
      AddClean(norm, init);
      assert AddUrls(norm, [], urls) == AddUrl(norm, init, last);
      assert urls == init + [last];
    }
  }

  /** A union is clean, holds the incoming URLs unless it is full, and a second one adds nothing. */
  lemma UnionIsStable(norm: string -> string, stored: seq<string>, incoming: seq<string>)
    requires Idempotent(norm)
    ensures var r := Union(norm, stored, incoming);
      && Clean(norm, r) && Absorbs(norm, r, incoming) && |r| <= 64
      && Union(norm, r, incoming) == r
  {
    AddUrlsKeeps(norm, [], stored);
    AddUrlsKeeps(norm, AddUrls(norm, [], stored), incoming);
    var r := Union(norm, stored, incoming);
    AddClean(norm, r);
    AddAbsorbed(norm, r, incoming);
  }

  /** A clean list only grows at its end, and keeps what it absorbed. */
  lemma UnionKeeps(norm: string -> string, stored: seq<string>, incoming: seq<string>, earlier: seq<string>)
    requires Idempotent(norm) && Clean(norm, stored) && Absorbs(norm, stored, earlier)
    ensures var r := Union(norm, stored, incoming);
      stored <= r && Absorbs(norm, r, earlier)
  {
    AddClean(norm, stored);
    AddUrlsKeeps(norm, stored, incoming);
  }

  // ----- resolving one item -----

  /** A favourite as the server tells of it; empty URLs are dropped before anything else. */
  datatype Item = Item(foreignId: string, name: string, disambiguation: string, urls: seq<string>)

  method FindCandidateByLink(cands: seq<Candidate>, link: Link) returns (r: Option<nat>)
    ensures r.Some? ==> r.value < |cands| && link in cands[r.value].links
    ensures r.Some? ==> forall i :: 0 <= i < r.value ==> link !in cands[i].links
    ensures r.None? ==> forall i :: 0 <= i < |cands| ==> link !in cands[i].links
  {
    for i := 0 to |cands|
      invariant forall j :: 0 <= j < i ==> link !in cands[j].links
    {
      for k := 0 to |cands[i].links|
        invariant link !in cands[i].links[..k]
      {
        if cands[i].links[k] == link {
          return Some(i);
        }
      }
    }
    return None;
  }

  /** What resolving an item may do: it goes home to one candidate, found by link, by match, or new. */
  ghost predicate Resolved(norms: Norms, norm: string -> string, endpoints: seq<Endpoint>, instance: int, item: Item,
                           cands: seq<Candidate>, home: nat, cands': seq<Candidate>)
  {
    var link := Link(instance, item.foreignId);
    var inc := Incoming(item.name, item.disambiguation, item.urls);
    if home < |cands| && link in cands[home].links then
      && (forall i :: 0 <= i < home ==> link !in cands[i].links)
      && cands' == cands[home := cands[home].(urls := Union(norm, cands[home].urls, item.urls))]
    else
      && (forall i :: 0 <= i < |cands| ==> link !in cands[i].links)
      && if home < |cands| then
           && IsMatch(norms, endpoints, inc, cands, AutoMerge(home))
           && cands' == cands[home := cands[home].(urls := Union(norm, cands[home].urls, item.urls),
               links := cands[home].links + [link])]
         else
           && home == |cands|
           && (exists m :: IsMatch(norms, endpoints, inc, cands, m) && !m.AutoMerge?)
           && |cands'| == |cands| + 1 && cands == cands'[..home]
           && cands'[home]
                == Candidate(cands'[home].id, item.name, item.disambiguation, Union(norm, [], item.urls), [link])
  }

  /** No candidate holds the item's link and none matches it automatically, so a new one is due. */
  ghost predicate NeedsId(norms: Norms, endpoints: seq<Endpoint>, instance: int, item: Item, cands: seq<Candidate>) {
    && (forall i :: 0 <= i < |cands| ==> Link(instance, item.foreignId) !in cands[i].links)
    && exists m ::
        IsMatch(norms, endpoints, Incoming(item.name, item.disambiguation, item.urls), cands, m) && !m.AutoMerge?
  }

  method ResolveMatch(norms: Norms, norm: string -> string, endpoints: seq<Endpoint>, instance: int, item: Item,
                      cands: seq<Candidate>, newId: Option<int>)
    returns (home: Option<nat>, cands': seq<Candidate>)
    ensures home.Some? ==> Resolved(norms, norm, endpoints, instance, item, cands, home.value, cands')
    ensures home.Some? && home.value == |cands| ==> newId.Some? && cands'[home.value].id == newId.value
    ensures home.None? <==> newId.None? && NeedsId(norms, endpoints, instance, item, cands)
    ensures home.None? ==> cands' == cands
  {
    var link := Link(instance, item.foreignId);
    var found := FindCandidateByLink(cands, link);
    if found.Some? {
      var i := found.value;
      var urls := UnionURLs(norm, cands[i].urls, item.urls);
      return Some(i), cands[i := cands[i].(urls := urls)];
    }
    var inc := Incoming(item.name, item.disambiguation, item.urls);
    var m := MatchEntity(norms, endpoints, inc, cands);
    if m.AutoMerge? {
      forall m' | IsMatch(norms, endpoints, inc, cands, m') ensures m' == m {
        MatchIsUnique(norms, endpoints, inc, cands, m, m');
      }
      var i := m.index;
      var urls := UnionURLs(norm, cands[i].urls, item.urls);
      return Some(i), cands[i := cands[i].(urls := urls, links := cands[i].links + [link])];
    }
    if newId.None? {
      return None, cands;
    }
    var urls := UnionURLs(norm, [], item.urls);
    home := Some(|cands|);
    cands' := cands + [Candidate(newId.value, item.name, item.disambiguation, urls, [link])];
  }

  // ----- what a whole sweep keeps -----

  /** No link is claimed by two candidates. */
  ghost predicate LinksApart(cands: seq<Candidate>) {
    forall i, j, l :: 0 <= i < |cands| && 0 <= j < |cands| && l in cands[i].links && l in cands[j].links ==> i == j
  }

  /** Nothing is removed: candidates keep their place, identity and links. */
  ghost predicate Grown(cands: seq<Candidate>, cands': seq<Candidate>) {
    && |cands| <= |cands'|
    && forall i :: 0 <= i < |cands| ==>
         && cands'[i].id == cands[i].id && cands'[i].name == cands[i].name
         && cands'[i].disambiguation == cands[i].disambiguation && cands[i].links <= cands'[i].links
  }

  /** An item that was processed has one home, which holds its link and its URLs. */
  ghost predicate AtHome(norm: string -> string, instance: int, cands: seq<Candidate>, item: Item, home: nat) {
    && home < |cands| && Link(instance, item.foreignId) in cands[home].links
    && Clean(norm, cands[home].urls) && Absorbs(norm, cands[home].urls, item.urls)
  }

  lemma ResolvedKeepsApart(norms: Norms, norm: string -> string, endpoints: seq<Endpoint>, instance: int, item: Item,
                           cands: seq<Candidate>, home: nat, cands': seq<Candidate>)
    requires Resolved(norms, norm, endpoints, instance, item, cands, home, cands') && LinksApart(cands)
    ensures LinksApart(cands') && Grown(cands, cands') && home < |cands'|
  {
  }

  lemma ResolvedIsAtHome(norms: Norms, norm: string -> string, endpoints: seq<Endpoint>, instance: int, item: Item,
                         cands: seq<Candidate>, home: nat, cands': seq<Candidate>)
    requires Idempotent(norm) && Resolved(norms, norm, endpoints, instance, item, cands, home, cands')
    ensures AtHome(norm, instance, cands', item, home)
  {
    UnionIsStable(norm, if home < |cands| then cands[home].urls else [], item.urls);
    assert Link(instance, item.foreignId) in cands'[home].links;
  }

  /** Later items never move an earlier one. */
  lemma ResolvedKeepsHome(norms: Norms, norm: string -> string, endpoints: seq<Endpoint>, instance: int, item: Item,
                          cands: seq<Candidate>, home: nat, cands': seq<Candidate>, earlier: Item, home0: nat)
    requires Idempotent(norm) && Resolved(norms, norm, endpoints, instance, item, cands, home, cands')
    requires AtHome(norm, instance, cands, earlier, home0)
    ensures AtHome(norm, instance, cands', earlier, home0)
  {
    if home == home0 {
      UnionIsStable(norm, cands[home].urls, item.urls);
      UnionKeeps(norm, cands[home].urls, item.urls, earlier.urls);
    }
  }

  /** Seen again, a processed item goes to the same home and changes nothing. */
  lemma SecondSightChangesNothing(norms: Norms, norm: string -> string, endpoints: seq<Endpoint>, instance: int,
                                  item: Item, cands: seq<Candidate>, home0: nat, home: nat, cands': seq<Candidate>)
    requires Idempotent(norm) && LinksApart(cands) && AtHome(norm, instance, cands, item, home0)
    requires Resolved(norms, norm, endpoints, instance, item, cands, home, cands')
    ensures home == home0 && cands' == cands
  {
    AddClean(norm, cands[home0].urls);
    AddAbsorbed(norm, cands[home0].urls, item.urls);
    assert cands[home0].(urls := cands[home0].urls) == cands[home0];
  }

  // ----- fetching the favourites -----

  /** The page the server sends: a stable list, cut by page number and size. */
  function Page<T>(all: seq<T>, page: nat, size: nat): seq<T>
    requires page >= 1
  {
    var from := (page - 1) * size;
    if from >= |all| then [] else all[from..Min(|all|, from + size)]
  }

  lemma PageFollows<T>(all: seq<T>, page: nat, size: nat, from: nat)
    requires page >= 1 && from == (page - 1) * size && from <= |all|
    ensures all[..from] + Page(all, page, size) == all[..Min(|all|, from + size)]
    ensures |Page(all, page, size)| == Min(size, |all| - from)
  {
  }

  /**
   How many items k the fetch ends with when the server holds n and reports count: whole
   pages until the reported count is reached, the list is used up, or the cap is met.
   */
  predicate Fetched(n: nat, count: int, k: nat) {
    && k <= Min(n, MAX_ITEMS)
    && (k % PER_PAGE == 0 || k == n)
    && (k == Min(n, MAX_ITEMS) || (k > 0 && k >= count))
    && (k > PER_PAGE ==> (k - 1) / PER_PAGE * PER_PAGE < count)
  }

  function RoundedUp(n: int): int {
    (n + PER_PAGE - 1) / PER_PAGE
  }

  /** How many items arrive when no request fails. */
  function FetchedCount(n: nat, count: int): nat {
    Min(Min(n, MAX_ITEMS), Max(1, RoundedUp(count)) * PER_PAGE)
  }

  /**
   * How many pages are asked for: one that comes back empty is asked for when the items end with a page before the
   * count does.
   */
  function PagesAsked(n: nat, count: int): nat {
    var k := FetchedCount(n, count);
    RoundedUp(k) + if k % PER_PAGE == 0 && k < MAX_ITEMS && (k == 0 || k < count) then 1 else 0
  }

  /** The count is the only one that fits. */
  lemma FetchedIsCount(n: nat, count: int, k: nat)
    ensures Fetched(n, count, k) <==> k == FetchedCount(n, count)
  {
  }

  /** While whole pages below the count and the cap have arrived, one more page is asked for. */
  lemma PageIsAsked(n: nat, count: int, page: nat)
    requires 1 <= page && (page - 1) * PER_PAGE <= n && (page - 1) * PER_PAGE < MAX_ITEMS
    requires page > 1 ==> (page - 1) * PER_PAGE < count
    ensures page <= PagesAsked(n, count)
  {
  }

  /** The fetch ends with a page that comes short or meets the count or the cap. */
  lemma FetchEnds(n: nat, count: int, page: nat, k: nat)
    requires 1 <= page && (page - 1) * PER_PAGE <= n && (page - 1) * PER_PAGE < MAX_ITEMS
    requires page > 1 ==> (page - 1) * PER_PAGE < count
    requires k == Min(n, page * PER_PAGE) && (k < page * PER_PAGE || k >= count || k >= MAX_ITEMS)
    ensures k == FetchedCount(n, count)
    ensures k < MAX_ITEMS || k >= count ==> page == PagesAsked(n, count)
  {
    FetchEndsAt(n, count, page, k);
    assert RoundedUp(k) == if k == (page - 1) * PER_PAGE then page - 1 else page;
  }

  lemma FetchEndsAt(n: nat, count: int, page: nat, k: nat)
    requires 1 <= page && (page - 1) * PER_PAGE <= n && (page - 1) * PER_PAGE < MAX_ITEMS
    requires page > 1 ==> (page - 1) * PER_PAGE < count
    requires k == Min(n, page * PER_PAGE) && (k < page * PER_PAGE || k >= count || k >= MAX_ITEMS)
    ensures k == FetchedCount(n, count)
  {
    var pages := Max(1, RoundedUp(count));
    assert pages >= page;
    if k >= count {
      assert pages == page || k < page * PER_PAGE;
    }
  }

  predicate IsTruncated(count: int, k: nat) {
    count > MAX_ITEMS || (count <= 0 && k >= MAX_ITEMS)
  }

  predicate PageFails(n: nat, count: int, fails: nat -> bool) {
    exists page :: 1 <= page <= PagesAsked(n, count) && fails(page)
  }

  /** fetchFavoritePerformers and its studio twin. fails says which page requests return an error. */
  method FetchFavorites<T>(server: seq<T>, count: int, fails: nat -> bool)
    returns (r: Result<seq<T>, nat>, truncated: bool)
    ensures r.Err? <==> PageFails(|server|, count, fails)
    ensures r.Err? ==> fails(r.error) && !truncated
    ensures r.Ok? ==> |r.value| == FetchedCount(|server|, count) && r.value == server[..|r.value|]
    ensures r.Ok? ==> (truncated <==> IsTruncated(count, |r.value|))
  {
    var all: seq<T> := [];
    var total := 0;
    var maxPages := (MAX_ITEMS + PER_PAGE - 1) / PER_PAGE;
    var page := 1;
    while page <= maxPages
      invariant 1 <= page <= maxPages + 1
      invariant |all| == (page - 1) * PER_PAGE && |all| <= |server| && all == server[..|all|]
      invariant page > 1 ==> total == count && |all| < count
      invariant forall p :: 1 <= p < page ==> !fails(p)
      decreases maxPages + 1 - page
    {
      if |all| >= MAX_ITEMS {
        break;
      }
      var perPage := Min(PER_PAGE, MAX_ITEMS - |all|);
      PageIsAsked(|server|, count, page);
      if fails(page) {
        return Err(page), false;
      }
      assert perPage == PER_PAGE;
      PageFollows(server, page, perPage, |all|);
      var items := Page(server, page, perPage);
      total := count;
      if |all| + |items| >= count || |items| < perPage || |all| + |items| >= MAX_ITEMS {
        FetchEnds(|server|, count, page, |all| + |items|);
      }
      if |items| == 0 {
        break;
      }
      all := all + items;
      if |all| >= count || |items| < perPage {
        break;
      }
      page := page + 1;
    }
    truncated := total > MAX_ITEMS || (total <= 0 && |all| >= MAX_ITEMS);
    r := Ok(all);
  }

  /**
   The fetch is complete, up to the cap, exactly when the reported count exceeds every page
   boundary before the end. A server that reports no count is cut off after one page.
   */
  lemma FetchIsCompleteIff(n: nat, count: int, k: nat)
    requires Fetched(n, count, k)
    ensures k == Min(n, MAX_ITEMS) <==> n <= PER_PAGE || count > (Min(n, MAX_ITEMS) - 1) / PER_PAGE * PER_PAGE
  {
    var m := Min(n, MAX_ITEMS);
    if k < m {
      assert k <= (m - 1) / PER_PAGE * PER_PAGE;
    }
  }

  /** With an honest count, exactly the first min(N, cap) favourites arrive, and only a longer list is truncated. */
  lemma HonestFetch(n: nat, k: nat)
    requires Fetched(n, n, k)
    ensures k == Min(n, 500)
  {
    FetchIsCompleteIff(n, n, k);
  }

  /** Without a count the guard for a missing count never fires: a long list looks complete after one page. */
  lemma MissingCountLooksComplete(n: nat, count: int, k: nat)
    requires Fetched(n, count, k) && count <= 0 && n > PER_PAGE
    ensures k == 50
  {
  }

  // ----- the sweep over all items -----

  /** What stays fixed during one sweep. */
  datatype Setup = Setup(norms: Norms, norm: string -> string, endpoints: seq<Endpoint>, instance: int,
                         trim: string -> string)

  ghost predicate ResolvedBy(s: Setup, item: Item, cands: seq<Candidate>, home: nat, cands': seq<Candidate>) {
    Resolved(s.norms, s.norm, s.endpoints, s.instance, item, cands, home, cands')
  }

  /** A run over a list of items: each is resolved against the candidates the one before left. */
  ghost predicate Swept(s: Setup, items: seq<Item>, states: seq<seq<Candidate>>, homes: seq<nat>) {
    && |homes| == |items| && |states| == |items| + 1
    && forall k :: 0 <= k < |items| ==> ResolvedBy(s, items[k], states[k], homes[k], states[k + 1])
  }

  ghost predicate AllAtHome(s: Setup, items: seq<Item>, cands: seq<Candidate>, homes: seq<nat>) {
    |homes| == |items| && forall k :: 0 <= k < |items| ==> AtHome(s.norm, s.instance, cands, items[k], homes[k])
  }

  lemma GrownTwice(a: seq<Candidate>, b: seq<Candidate>, c: seq<Candidate>)
    requires Grown(a, b) && Grown(b, c)
    ensures Grown(a, c)
  {
  }

  /** One more item keeps what the sweep keeps. */
  lemma SweepStep(s: Setup, items: seq<Item>, cands: seq<Candidate>, homes: seq<nat>, mid: seq<Candidate>,
                  item: Item, home: nat, cands': seq<Candidate>)
    requires Idempotent(s.norm)
    requires LinksApart(mid) && Grown(cands, mid) && AllAtHome(s, items, mid, homes)
    requires ResolvedBy(s, item, mid, home, cands')
    ensures LinksApart(cands') && Grown(cands, cands') && AllAtHome(s, items + [item], cands', homes + [home])
  {
    ResolvedKeepsApart(s.norms, s.norm, s.endpoints, s.instance, item, mid, home, cands');
    GrownTwice(cands, mid, cands');
    ResolvedIsAtHome(s.norms, s.norm, s.endpoints, s.instance, item, mid, home, cands');
    forall k | 0 <= k < |items| ensures AtHome(s.norm, s.instance, cands', items[k], homes[k]) {
      ResolvedKeepsHome(s.norms, s.norm, s.endpoints, s.instance, item, mid, home, cands', items[k], homes[k]);
    }
  }

  /**
   Over a whole sweep of any list of items: no link gets a second owner, nothing is removed,
   every item ends at its home, and its home's URLs are clean and hold its own.
   */
  lemma {:induction false} SweepKeeps(s: Setup, items: seq<Item>, states: seq<seq<Candidate>>, homes: seq<nat>, n: nat)
    requires Idempotent(s.norm) && Swept(s, items, states, homes) && n <= |items|
    requires LinksApart(states[0])
    ensures LinksApart(states[n]) && Grown(states[0], states[n]) && AllAtHome(s, items[..n], states[n], homes[..n])
    decreases n
  {
    if n > 0 {
      SweepKeeps(s, items, states, homes, n - 1);
      assert ResolvedBy(s, items[n - 1], states[n - 1], homes[n - 1], states[n - 1 + 1]);
      SweepStep(s, items[..n - 1], states[0], homes[..n - 1], states[n - 1], items[n - 1], homes[n - 1], states[n]);
      assert items[..n] == items[..n - 1] + [items[n - 1]] && homes[..n] == homes[..n - 1] + [homes[n - 1]];
    }
  }

  /** A link seen twice resolves to the same entity. */
  lemma SameLinkSameHome(s: Setup, items: seq<Item>, cands: seq<Candidate>, homes: seq<nat>, j: nat, k: nat)
    requires LinksApart(cands) && AllAtHome(s, items, cands, homes)
    requires j < |items| && k < |items| && items[j].foreignId == items[k].foreignId
    ensures homes[j] == homes[k] && cands[homes[j]].id == cands[homes[k]].id
  {
    assert AtHome(s.norm, s.instance, cands, items[j], homes[j])
      && AtHome(s.norm, s.instance, cands, items[k], homes[k]);
  }

  /** A second sweep over the same items, or any of them in any order, changes nothing at any point. */
  lemma {:induction false} SecondSweepChangesNothing(s: Setup, items: seq<Item>, cands: seq<Candidate>, homes: seq<nat>,
                                                     again: seq<Item>, states: seq<seq<Candidate>>, homes': seq<nat>,
                                                     n: nat)
    requires Idempotent(s.norm) && LinksApart(cands) && AllAtHome(s, items, cands, homes)
    requires forall item :: item in again ==> item in items
    requires Swept(s, again, states, homes') && states[0] == cands && n <= |again|
    ensures states[n] == cands
    ensures forall k, j :: 0 <= k < n && 0 <= j < |items| && again[k] == items[j] ==> homes'[k] == homes[j]
    decreases n
  {
    if n > 0 {
      SecondSweepChangesNothing(s, items, cands, homes, again, states, homes', n - 1);
      var last, home := again[n - 1], homes'[n - 1];
      assert ResolvedBy(s, last, states[n - 1], home, states[n - 1 + 1]);
      assert last in again;
      forall j | 0 <= j < |items| && items[j] == last ensures home == homes[j] && states[n] == cands {
        SecondSightChangesNothing(s.norms, s.norm, s.endpoints, s.instance, last, cands, homes[j], home, states[n]);
      }
    }
  }

  // ----- references and stale marking -----

  datatype RefKey = RefKey(instance: int, foreignId: string)

  datatype Ref = Ref(entity: int, favorite: bool, lastSeen: int, urls: seq<string>)

  /** The external references of one entity kind. */
  type Refs = map<RefKey, Ref>

  predicate Favorite(refs: Refs, instance: int, foreignId: string) {
    RefKey(instance, foreignId) in refs && refs[RefKey(instance, foreignId)].favorite
  }

  /** MarkStaleAdultExternalRefsUnfavorite: one statement, all or nothing. */
  function MarkStale(refs: Refs, instance: int, start: int): Refs {
    map k | k in refs ::
      if k.instance == instance && refs[k].lastSeen < start then refs[k].(favorite := false) else refs[k]
  }

  /** Marking keeps every reference; a favourite of the instance that was not seen since stops being one. */
  lemma MarkingKeepsTheRest(refs: Refs, instance: int, start: int)
    ensures var marked := MarkStale(refs, instance, start);
      && marked.Keys == refs.Keys
      && forall k :: k in refs ==>
           && marked[k].entity == refs[k].entity && marked[k].urls == refs[k].urls
           && marked[k].lastSeen == refs[k].lastSeen
           && (marked[k].favorite <==> refs[k].favorite && !(k.instance == instance && refs[k].lastSeen < start))
  {
  }

  // ----- the rows of the entities -----

  datatype Entity = Entity(name: string, disambiguation: Option<string>, urls: seq<string>, favorite: bool)

  type Entities = map<int, Entity>

  /** UpsertAdultPerformer: the row becomes a favourite; without a disambiguation it keeps the one it had. */
  function Upsert(ents: Entities, id: int, name: string, disambiguation: Option<string>, urls: seq<string>): Entities {
    var kept := if disambiguation.None? && id in ents then ents[id].disambiguation else disambiguation;
    ents[id := Entity(name, kept, urls, true)]
  }

  predicate HasFavorite(refs: Refs, id: int) {
    exists k :: k in refs && refs[k].favorite && refs[k].entity == id
  }

  /** ClearUnfavoritedAdultPerformers: an entity that no favourite reference names is no favourite. */
  function ClearUnfavorited(refs: Refs, ents: Entities): Entities {
    map e | e in ents :: if HasFavorite(refs, e) then ents[e] else ents[e].(favorite := false)
  }

  /** Every favourite reference names an entity that is there and is a favourite. */
  ghost predicate Backed(refs: Refs, ents: Entities) {
    forall k :: k in refs && refs[k].favorite ==> refs[k].entity in ents && ents[refs[k].entity].favorite
  }

  function Shown(s: Setup, disambiguation: string): Option<string> {
    if s.trim(disambiguation) == "" then None else Some(s.trim(disambiguation))
  }

  /** The row of an item's home is written with what the home then holds. */
  ghost predicate WrittenFor(s: Setup, item: Item, cands: seq<Candidate>, home: nat, ents: Entities, ents': Entities) {
    && home < |cands|
    && ents' == Upsert(ents, cands[home].id, item.name, Shown(s, item.disambiguation), cands[home].urls)
  }

  /** The rows as they go through a sweep, one row written for each item. */
  ghost predicate Written(s: Setup, items: seq<Item>, states: seq<seq<Candidate>>, homes: seq<nat>, rows: seq<Entities>)
  {
    && |homes| == |items| && |states| == |rows| == |items| + 1
    && forall k :: 0 <= k < |items| ==> WrittenFor(s, items[k], states[k + 1], homes[k], rows[k], rows[k + 1])
  }

  lemma OneMoreWritten(s: Setup, items: seq<Item>, i: nat, states: seq<seq<Candidate>>, homes: seq<nat>,
                       rows: seq<Entities>, cands: seq<Candidate>, home: nat, ents: Entities)
    requires i < |items| && Written(s, items[..i], states, homes, rows)
    requires WrittenFor(s, items[i], cands, home, rows[i], ents)
    ensures Written(s, items[..i + 1], states + [cands], homes + [home], rows + [ents])
  {
    var all, states', homes', rows' := items[..i + 1], states + [cands], homes + [home], rows + [ents];
    forall k | 0 <= k < |all| ensures WrittenFor(s, all[k], states'[k + 1], homes'[k], rows'[k], rows'[k + 1]) {
      if k < i {
        assert WrittenFor(s, items[..i][k], states[k + 1], homes[k], rows[k], rows[k + 1]);
      }
    }
  }

  /** Clearing leaves exactly the entities favourites that a favourite reference names. */
  lemma ClearedAgree(refs: Refs, ents: Entities)
    requires Backed(refs, ents)
    ensures var cleared := ClearUnfavorited(refs, ents);
      && Backed(refs, cleared) && cleared.Keys == ents.Keys
      && (forall e :: e in cleared ==> (cleared[e].favorite <==> HasFavorite(refs, e)))
      && (forall e :: e in cleared ==> cleared[e] == ents[e].(favorite := cleared[e].favorite))
  {
    forall k | k in refs && refs[k].favorite ensures HasFavorite(refs, refs[k].entity) {
    }
  }

  ghost predicate Named(items: seq<Item>, foreignId: string) {
    exists i :: 0 <= i < |items| && items[i].foreignId == foreignId
  }

  /** The references after these items were refreshed: theirs are favourites seen now, the rest is as before. */
  ghost predicate Refreshed(s: Setup, items: seq<Item>, start: int, refs: Refs, refs': Refs) {
    forall k: RefKey ::
      if k.instance == s.instance && Named(items, k.foreignId)
      then k in refs' && refs'[k].favorite && refs'[k].lastSeen == start
      else (k in refs' <==> k in refs) && (k in refs ==> refs'[k] == refs[k])
  }

  /** Each refreshed reference points at the entity its item went home to. */
  ghost predicate PointsHome(s: Setup, items: seq<Item>, cands: seq<Candidate>, homes: seq<nat>, refs: Refs) {
    |homes| == |items| && forall i :: 0 <= i < |items| ==>
      && RefKey(s.instance, items[i].foreignId) in refs && homes[i] < |cands|
      && refs[RefKey(s.instance, items[i].foreignId)].entity == cands[homes[i]].id
  }

  lemma RefreshOne(s: Setup, items: seq<Item>, item: Item, start: int, refs: Refs, refs': Refs, r: Ref)
    requires Refreshed(s, items, start, refs, refs') && r.favorite && r.lastSeen == start
    ensures Refreshed(s, items + [item], start, refs, refs'[RefKey(s.instance, item.foreignId) := r])
  {
    forall f ensures Named(items + [item], f) <==> Named(items, f) || f == item.foreignId {
      if Named(items, f) {
        var i :| 0 <= i < |items| && items[i].foreignId == f;
        assert (items + [item])[i].foreignId == f;
      }
      assert (items + [item])[|items|] == item;
    }
  }

  lemma PointHomeOne(s: Setup, items: seq<Item>, item: Item, mid: seq<Candidate>, cands: seq<Candidate>,
                     homes: seq<nat>, home: nat, refs: Refs, r: Ref)
    requires PointsHome(s, items, mid, homes, refs) && Grown(mid, cands) && home < |cands| && r.entity == cands[home].id
    requires LinksApart(cands) && AllAtHome(s, items + [item], cands, homes + [home])
    ensures PointsHome(s, items + [item], cands, homes + [home], refs[RefKey(s.instance, item.foreignId) := r])
  {
    forall i | 0 <= i < |items| && items[i].foreignId == item.foreignId ensures homes[i] == home {
      SameLinkSameHome(s, items + [item], cands, homes + [home], i, |items|);
    }
  }

  datatype Outcome =
    | Synced(count: nat, truncated: bool)
    | FetchFailed
    | LoadFailed
    | ItemFailed
    | MarkFailed
    | ClearFailed

  /** The references were marked: the sweep ended, or only the step after the marking failed. */
  predicate Marked(o: Outcome) {
    (o.Synced? && !o.truncated) || o.ClearFailed?
  }

  /**
   What can fail around a sweep. Ids are asked for item by item, one for a new entity and one for
   the reference; database calls are numbered, the first of them loads the candidates.
   */
  datatype World = World(pageFails: nat -> bool, newId: nat -> Option<int>, refIdFails: nat -> bool,
                         dbFails: nat -> bool)

  /** Item i cannot be stored: its reference gets no id, or one of its two database calls fails. */
  predicate StoreFails(w: World, i: nat) {
    w.refIdFails(i) || w.dbFails(1 + 2 * i) || w.dbFails(2 + 2 * i)
  }

  /** How a sweep ends whose n items are all stored. */
  function EndOf(n: nat, truncated: bool, w: World): Outcome {
    if truncated then Synced(n, true)
    else if w.dbFails(1 + 2 * n) then MarkFailed
    else if w.dbFails(2 + 2 * n) then ClearFailed
    else Synced(n, false)
  }

  /** How a sweep ends that lacks no id for a new entity. */
  function OutcomeOf(n: nat, count: int, w: World): Outcome {
    var k := FetchedCount(n, count);
    if PageFails(n, count, w.pageFails) then FetchFailed
    else if w.dbFails(0) then LoadFailed
    else if exists i :: 0 <= i < k && StoreFails(w, i) then ItemFailed
    else EndOf(k, IsTruncated(count, k), w)
  }

  /** The first so many items can be stored. */
  ghost predicate AllStored(w: World, n: nat) {
    forall i :: 0 <= i < n ==> !StoreFails(w, i)
  }

  lemma OneMoreStored(w: World, n: nat)
    requires AllStored(w, n) && !StoreFails(w, n)
    ensures AllStored(w, n + 1)
  {
  }

  lemma UnstoredEnds(n: nat, count: int, w: World, i: nat)
    requires !PageFails(n, count, w.pageFails) && !w.dbFails(0) && i < FetchedCount(n, count) && StoreFails(w, i)
    ensures OutcomeOf(n, count, w) == ItemFailed
  {
  }

  lemma StoredEnds(n: nat, count: int, w: World, k: nat, truncated: bool)
    requires !PageFails(n, count, w.pageFails) && !w.dbFails(0)
    requires k == FetchedCount(n, count) && AllStored(w, k) && truncated == IsTruncated(count, k)
    ensures OutcomeOf(n, count, w) == EndOf(k, truncated, w)
  {
  }

  ghost predicate LacksId(s: Setup, w: World, i: nat, item: Item, cands: seq<Candidate>) {
    w.newId(i).None? && NeedsId(s.norms, s.endpoints, s.instance, item, cands)
  }

  /**
   syncOnePerformer and its studio twin, for item i. It fails exactly when the item cannot be stored
   or a new entity gets no id; the caller then gives up the sweep, and with it the candidates.
   */
  method SyncOne(s: Setup, w: World, i: nat, item: Item, cands: seq<Candidate>, refs: Refs, ents: Entities, start: int)
    returns (ok: bool, home: nat, cands': seq<Candidate>, refs': Refs, ents': Entities)
    ensures ok <==> !StoreFails(w, i) && !LacksId(s, w, i, item, cands)
    ensures ok ==> ResolvedBy(s, item, cands, home, cands') && home < |cands'|
    ensures ok ==> refs' == refs[RefKey(s.instance, item.foreignId) := Ref(cands'[home].id, true, start,
        Union(s.norm, [], item.urls))]
    ensures ok && home == |cands| ==> w.newId(i) == Some(cands'[home].id)
    ensures ok ==> WrittenFor(s, item, cands', home, ents, ents')
    ensures Backed(refs, ents) ==> Backed(refs', ents')
    ensures !ok ==> refs' == refs && cands' == cands
    ensures !ok ==> ents' == ents || WritesOne(s, item, ents, ents')
  {
    ok, home, cands', refs', ents' := false, 0, cands, refs, ents;
    var found, next := ResolveMatch(s.norms, s.norm, s.endpoints, s.instance, item, cands, w.newId(i));
    if found.None? || w.dbFails(1 + 2 * i) {
      return;
    }
    var row := next[found.value];
    var trimmed := s.trim(item.disambiguation);
    ents' := Upsert(ents, row.id, item.name, if trimmed != "" then Some(trimmed) else None, row.urls);
    assert ents' == Upsert(ents, row.id, item.name, Shown(s, item.disambiguation), row.urls);
    var extra := UnionURLs(s.norm, [], item.urls);
    if w.refIdFails(i) || w.dbFails(2 + 2 * i) {
      return;
    }
    ok, home, cands' := true, found.value, next;
    refs' := refs[RefKey(s.instance, item.foreignId) := Ref(next[home].id, true, start, extra)];
  }

  /** The row of one entity was written for an item, whose reference then failed. */
  ghost predicate WritesOne(s: Setup, item: Item, ents: Entities, ents': Entities) {
    exists id, urls :: ents' == Upsert(ents, id, item.name, Shown(s, item.disambiguation), urls)
  }

  /** Every candidate the sweep added has the id that was asked for the item it was added for. */
  ghost predicate NewOnesHaveIds(w: World, cands0: seq<Candidate>, cands: seq<Candidate>, homes: seq<nat>) {
    forall e :: |cands0| <= e < |cands| ==> HasItsId(w, homes, e, cands[e].id)
  }

  ghost predicate HasItsId(w: World, homes: seq<nat>, e: nat, id: int) {
    exists i :: 0 <= i < |homes| && homes[i] == e && w.newId(i) == Some(id)
  }

  /** No later item has the same key. */
  ghost predicate IsLast(items: seq<Item>, i: nat)
    requires i < |items|
  {
    forall j :: i < j < |items| ==> items[j].foreignId != items[i].foreignId
  }

  ghost predicate HasUrls(s: Setup, item: Item, refs: Refs) {
    && RefKey(s.instance, item.foreignId) in refs
    && refs[RefKey(s.instance, item.foreignId)].urls == Union(s.norm, [], item.urls)
  }

  /** Each refreshed reference has the normalised URLs of the last item with its key. */
  ghost predicate HoldsUrls(s: Setup, items: seq<Item>, refs: Refs) {
    forall i :: 0 <= i < |items| && IsLast(items, i) ==> HasUrls(s, items[i], refs)
  }

  /** What a sweep has done after some items: the candidates went through these states. */
  ghost predicate SweptSoFar(s: Setup, w: World, items: seq<Item>, start: int, cands0: seq<Candidate>, refs0: Refs,
                             states: seq<seq<Candidate>>, homes: seq<nat>, refs: Refs)
  {
    && Swept(s, items, states, homes) && states[0] == cands0
    && Leaves(s, w, items, start, cands0, refs0, states[|items|], homes, refs)
  }

  /** What the items of a sweep leave behind. */
  ghost predicate Leaves(s: Setup, w: World, items: seq<Item>, start: int, cands0: seq<Candidate>, refs0: Refs,
                         cands: seq<Candidate>, homes: seq<nat>, refs: Refs)
  {
    && LinksApart(cands) && Grown(cands0, cands)
    && AllAtHome(s, items, cands, homes)
    && Refreshed(s, items, start, refs0, refs)
    && PointsHome(s, items, cands, homes, refs)
    && HoldsUrls(s, items, refs)
    && NewOnesHaveIds(w, cands0, cands, homes)
  }

  lemma NothingSwept(s: Setup, w: World, start: int, cands0: seq<Candidate>, refs0: Refs)
    requires LinksApart(cands0)
    ensures SweptSoFar(s, w, [], start, cands0, refs0, [cands0], [], refs0)
  {
  }

  lemma OneMoreSwept(s: Setup, w: World, items: seq<Item>, item: Item, start: int, cands0: seq<Candidate>, refs0: Refs,
                     cands: seq<Candidate>, homes: seq<nat>, refs: Refs, home: nat, cands': seq<Candidate>, refs': Refs)
    requires Idempotent(s.norm) && Leaves(s, w, items, start, cands0, refs0, cands, homes, refs)
    requires ResolvedBy(s, item, cands, home, cands') && home < |cands'|
    requires refs' == refs[RefKey(s.instance, item.foreignId) := Ref(cands'[home].id, true, start,
        Union(s.norm, [], item.urls))]
    requires home == |cands| ==> w.newId(|items|) == Some(cands'[home].id)
    ensures Leaves(s, w, items + [item], start, cands0, refs0, cands', homes + [home], refs')
  {
    var ref := Ref(cands'[home].id, true, start, Union(s.norm, [], item.urls));
    SweepStep(s, items, cands0, homes, cands, item, home, cands');
    RefreshOne(s, items, item, start, refs0, refs, ref);
    ResolvedKeepsApart(s.norms, s.norm, s.endpoints, s.instance, item, cands, home, cands');
    PointHomeOne(s, items, item, cands, cands', homes, home, refs, ref);
    HoldUrlsOne(s, items, item, refs, ref);
    NewOneHasId(s, w, cands0, cands, homes, item, home, cands');
  }

  lemma HoldUrlsOne(s: Setup, items: seq<Item>, item: Item, refs: Refs, r: Ref)
    requires HoldsUrls(s, items, refs) && r.urls == Union(s.norm, [], item.urls)
    ensures HoldsUrls(s, items + [item], refs[RefKey(s.instance, item.foreignId) := r])
  {
    var all, refs' := items + [item], refs[RefKey(s.instance, item.foreignId) := r];
    forall i | 0 <= i < |all| && IsLast(all, i) ensures HasUrls(s, all[i], refs') {
      if i < |items| {
        assert all[|items|].foreignId != all[i].foreignId;
        assert IsLast(items, i) by {
          assert forall j :: i < j < |items| ==> items[j] == all[j];
        }
        assert HasUrls(s, items[i], refs);
      }
    }
  }

  lemma OneMoreState(s: Setup, items: seq<Item>, item: Item, states: seq<seq<Candidate>>, homes: seq<nat>, home: nat,
                     cands': seq<Candidate>)
    requires Swept(s, items, states, homes) && ResolvedBy(s, item, states[|items|], home, cands')
    ensures Swept(s, items + [item], states + [cands'], homes + [home])
  {
    var all, states', homes' := items + [item], states + [cands'], homes + [home];
    forall k | 0 <= k < |all| ensures ResolvedBy(s, all[k], states'[k], homes'[k], states'[k + 1]) {
      if k < |items| {
        assert ResolvedBy(s, items[k], states[k], homes[k], states[k + 1]);
      }
    }
  }

  /** The same for the next item of a list, with what SyncOne says of it. */
  lemma NextIsSwept(s: Setup, w: World, items: seq<Item>, i: nat, start: int, cands0: seq<Candidate>, refs0: Refs,
                    states: seq<seq<Candidate>>, homes: seq<nat>, refs: Refs, home: nat, cands': seq<Candidate>,
                    refs': Refs)
    requires i < |items| && Idempotent(s.norm)
    requires SweptSoFar(s, w, items[..i], start, cands0, refs0, states, homes, refs)
    requires ResolvedBy(s, items[i], states[i], home, cands') && home < |cands'|
    requires refs' == refs[RefKey(s.instance, items[i].foreignId) := Ref(cands'[home].id, true, start,
        Union(s.norm, [], items[i].urls))]
    requires home == |states[i]| ==> w.newId(i) == Some(cands'[home].id)
    ensures SweptSoFar(s, w, items[..i + 1], start, cands0, refs0, states + [cands'], homes + [home], refs')
  {
    assert items[..i + 1] == items[..i] + [items[i]];
    OneMoreState(s, items[..i], items[i], states, homes, home, cands');
    OneMoreSwept(s, w, items[..i], items[i], start, cands0, refs0, states[i], homes, refs, home, cands', refs');
    assert (states + [cands'])[0] == states[0] && (states + [cands'])[i + 1] == cands';
  }

  lemma NewOneHasId(s: Setup, w: World, cands0: seq<Candidate>, cands: seq<Candidate>, homes: seq<nat>, item: Item,
                    home: nat, cands': seq<Candidate>)
    requires NewOnesHaveIds(w, cands0, cands, homes) && ResolvedBy(s, item, cands, home, cands') && home < |cands'|
    requires home == |cands| ==> w.newId(|homes|) == Some(cands'[home].id)
    ensures NewOnesHaveIds(w, cands0, cands', homes + [home])
  {
    var homes' := homes + [home];
    forall e | |cands0| <= e < |cands'| ensures HasItsId(w, homes', e, cands'[e].id) {
      if e < |cands| {
        assert HasItsId(w, homes, e, cands[e].id);
        var i :| 0 <= i < |homes| && homes[i] == e && w.newId(i) == Some(cands[e].id);
        assert homes'[i] == e && cands'[e].id == cands[e].id;
      } else {
        assert homes'[|homes|] == e;
      }
    }
  }

  /** How a sweep leaves things: what it did item by item, and the marking if it came to that. */
  ghost predicate SweepEnds(s: Setup, w: World, items: seq<Item>, start: int, cands0: seq<Candidate>, refs0: Refs,
                            states: seq<seq<Candidate>>, homes: seq<nat>, refs: Refs, o: Outcome)
  {
    exists before :: SweptSoFar(s, w, items, start, cands0, refs0, states, homes, before)
                     && refs == if Marked(o) then MarkStale(before, s.instance, start) else before
  }

  /** Nothing fails and every id is to be had. */
  ghost predicate IsCalm(w: World) {
    forall i :: !w.pageFails(i) && !w.refIdFails(i) && !w.dbFails(i) && w.newId(i).Some?
  }

  /**
   syncPerformers and its studio twin. The sweep ends as OutcomeOf says, unless an entity that is new
   gets no id. A failing call changes nothing.
   */
  method Sync(s: Setup, server: seq<Item>, count: int, w: World, cands0: seq<Candidate>, refs0: Refs, ents0: Entities,
              start: int)
    returns (o: Outcome, refs: Refs, ents: Entities, ghost swept: nat, ghost states: seq<seq<Candidate>>,
             ghost homes: seq<nat>, ghost rows: seq<Entities>)
    requires Idempotent(s.norm) && LinksApart(cands0)
    ensures swept <= FetchedCount(|server|, count)
    ensures SweepEnds(s, w, server[..swept], start, cands0, refs0, states, homes, refs, o)
    ensures Swept(s, server[..swept], states, homes) && states[0] == cands0
    ensures o == OutcomeOf(|server|, count, w) ||
      (o == ItemFailed && swept < FetchedCount(|server|, count) && LacksId(s, w, swept, server[swept], states[swept]))
    ensures o == OutcomeOf(|server|, count, w) || o == ItemFailed
    ensures (forall i :: w.newId(i).Some?) ==> o == OutcomeOf(|server|, count, w)
    ensures IsCalm(w) ==> o == Synced(FetchedCount(|server|, count), IsTruncated(count, FetchedCount(|server|, count)))
    ensures exists n :: EndsWith(s, server, n, start, refs0, refs, o)
    ensures o.Synced? || o.MarkFailed? || o.ClearFailed? ==>
      EndsWith(s, server, FetchedCount(|server|, count), start, refs0, refs, o)
    ensures o.Synced? || o.MarkFailed? || o.ClearFailed? ==> swept == FetchedCount(|server|, count)
    ensures Written(s, server[..swept], states, homes, rows) && rows[0] == ents0
    ensures EntitiesEnd(s, server, swept, rows[swept], ents, refs, o)
    ensures Backed(refs0, ents0) ==> Backed(refs, ents)
    ensures Backed(refs0, ents0) && o.Synced? && !o.truncated ==>
      forall e :: e in ents ==> (ents[e].favorite <==> HasFavorite(refs, e))
  {
    o, refs, ents, swept, states, homes, rows := Sweep(s, server, count, w, cands0, refs0, ents0, start);
    SweepEndsWith(s, w, server, swept, start, cands0, refs0, states, homes, refs, o);
  }

  /** The entity rows a sweep ends with: those of its items written, and cleared at the end of one that came through. */
  ghost predicate EntitiesEnd(s: Setup, server: seq<Item>, swept: nat, written: Entities, ents: Entities, refs: Refs,
                              o: Outcome)
  {
    if o.Synced? && !o.truncated then ents == ClearUnfavorited(refs, written)
    else if o.ItemFailed? && swept < |server| then ents == written || WritesOne(s, server[swept], written, ents)
    else ents == written
  }

  /** The sweep itself, with what it leaves told by the items it got to. */
  method Sweep(s: Setup, server: seq<Item>, count: int, w: World, cands0: seq<Candidate>, refs0: Refs, ents0: Entities,
               start: int)
    returns (o: Outcome, refs: Refs, ents: Entities, ghost swept: nat, ghost states: seq<seq<Candidate>>,
             ghost homes: seq<nat>, ghost rows: seq<Entities>)
    requires Idempotent(s.norm) && LinksApart(cands0)
    ensures swept <= FetchedCount(|server|, count)
    ensures SweepEnds(s, w, server[..swept], start, cands0, refs0, states, homes, refs, o)
    ensures Swept(s, server[..swept], states, homes) && states[0] == cands0
    ensures o == OutcomeOf(|server|, count, w) ||
      (o == ItemFailed && swept < FetchedCount(|server|, count) && LacksId(s, w, swept, server[swept], states[swept]))
    ensures o.Synced? || o.MarkFailed? || o.ClearFailed? ==> swept == FetchedCount(|server|, count)
    ensures Written(s, server[..swept], states, homes, rows) && rows[0] == ents0
    ensures EntitiesEnd(s, server, swept, rows[swept], ents, refs, o)
    ensures Backed(refs0, ents0) ==> Backed(refs, ents)
    ensures Backed(refs0, ents0) && o.Synced? && !o.truncated ==>
      forall e :: e in ents ==> (ents[e].favorite <==> HasFavorite(refs, e))
  {
    refs, ents, swept, states, homes, rows := refs0, ents0, 0, [cands0], [], [ents0];
    NothingSwept(s, w, start, cands0, refs0);
    var fetch, truncated := FetchFavorites(server, count, w.pageFails);
    if fetch.Err? {
      o := FetchFailed;
      return;
    }
    var items := fetch.value;
    if w.dbFails(0) {
      o := LoadFailed;
      return;
    }
    o, refs, ents, swept, states, homes, rows := SweepItems(s, items, truncated, w, cands0, refs0, ents0, start);
    assert items[..swept] == server[..swept] && (swept < |items| ==> items[swept] == server[swept]);
    if o == ItemFailed {
      if StoreFails(w, swept) {
        UnstoredEnds(|server|, count, w, swept);
      }
    } else {
      StoredEnds(|server|, count, w, |items|, truncated);
    }
  }

  /** The part of a sweep behind the fetch: all items, then the marking. */
  method SweepItems(s: Setup, items: seq<Item>, truncated: bool, w: World, cands0: seq<Candidate>, refs0: Refs,
                    ents0: Entities, start: int)
    returns (o: Outcome, refs: Refs, ents: Entities, ghost swept: nat, ghost states: seq<seq<Candidate>>,
             ghost homes: seq<nat>, ghost rows: seq<Entities>)
    requires Idempotent(s.norm) && LinksApart(cands0)
    ensures swept <= |items| && SweepEnds(s, w, items[..swept], start, cands0, refs0, states, homes, refs, o)
    ensures Swept(s, items[..swept], states, homes) && states[0] == cands0
    ensures Written(s, items[..swept], states, homes, rows) && rows[0] == ents0
    ensures EntitiesEnd(s, items, swept, rows[swept], ents, refs, o)
    ensures if o == ItemFailed
            then swept < |items| && (StoreFails(w, swept) || LacksId(s, w, swept, items[swept], states[swept]))
            else swept == |items| && AllStored(w, |items|) && o == EndOf(|items|, truncated, w)
    ensures Backed(refs0, ents0) ==> Backed(refs, ents)
    ensures Backed(refs0, ents0) && o.Synced? && !o.truncated ==>
      forall e :: e in ents ==> (ents[e].favorite <==> HasFavorite(refs, e))
  {
    var ok;
    ok, refs, ents, swept, states, homes, rows := SyncItems(s, w, items, cands0, refs0, ents0, start);
    if !ok {
      o := ItemFailed;
      return;
    }
    ghost var before := refs;
    o, refs, ents := MarkAndClear(s, w, |items|, truncated, refs, ents, start);
    assert SweptSoFar(s, w, items[..swept], start, cands0, refs0, states, homes, before);
  }

  /** The end of a sweep over n items: a truncated one stops here, another marks and clears. */
  method MarkAndClear(s: Setup, w: World, n: nat, truncated: bool, refs: Refs, ents: Entities, start: int)
    returns (o: Outcome, refs': Refs, ents': Entities)
    ensures o == EndOf(n, truncated, w)
    ensures refs' == if Marked(o) then MarkStale(refs, s.instance, start) else refs
    ensures ents' == if o.Synced? && !o.truncated then ClearUnfavorited(refs', ents) else ents
    ensures Backed(refs, ents) ==> Backed(refs', ents')
    ensures Backed(refs, ents) && o.Synced? && !o.truncated ==>
      forall e :: e in ents' ==> (ents'[e].favorite <==> HasFavorite(refs', e))
  {
    refs', ents' := refs, ents;
    if truncated {
      return Synced(n, true), refs', ents';
    }
    if w.dbFails(1 + 2 * n) {
      return MarkFailed, refs', ents';
    }
    refs' := MarkStale(refs, s.instance, start);
    if w.dbFails(2 + 2 * n) {
      return ClearFailed, refs', ents';
    }
    if Backed(refs, ents) {
      ClearedAgree(refs', ents);
    }
    ents' := ClearUnfavorited(refs', ents);
    return Synced(n, false), refs', ents';
  }

  /** One turn of the loop over the items. */
  method SyncNext(s: Setup, w: World, items: seq<Item>, i: nat, ghost cands0: seq<Candidate>, ghost refs0: Refs,
                  cands: seq<Candidate>, ghost states: seq<seq<Candidate>>, ghost homes: seq<nat>,
                  ghost rows: seq<Entities>, refs: Refs, ents: Entities, start: int)
    returns (ok: bool, cands': seq<Candidate>, refs': Refs, ents': Entities, ghost states': seq<seq<Candidate>>,
             ghost homes': seq<nat>, ghost rows': seq<Entities>)
    requires i < |items| && Idempotent(s.norm)
    requires SweptSoFar(s, w, items[..i], start, cands0, refs0, states, homes, refs) && states[i] == cands
    requires Written(s, items[..i], states, homes, rows) && rows[i] == ents
    ensures ok ==> !StoreFails(w, i)
    ensures ok ==> SweptSoFar(s, w, items[..i + 1], start, cands0, refs0, states', homes', refs')
    ensures ok ==> states'[i + 1] == cands'
    ensures ok ==> Written(s, items[..i + 1], states', homes', rows') && rows'[0] == rows[0] && rows'[i + 1] == ents'
    ensures Backed(refs, ents) ==> Backed(refs', ents')
    ensures !ok ==> StoreFails(w, i) || LacksId(s, w, i, items[i], cands)
    ensures !ok ==> cands' == cands && refs' == refs && states' == states && homes' == homes && rows' == rows
    ensures !ok ==> ents' == ents || WritesOne(s, items[i], ents, ents')
  {
    var home;
    ok, home, cands', refs', ents' := SyncOne(s, w, i, items[i], cands, refs, ents, start);
    states', homes', rows' := states, homes, rows;
    if ok {
      NextIsSwept(s, w, items, i, start, cands0, refs0, states, homes, refs, home, cands', refs');
      OneMoreWritten(s, items, i, states, homes, rows, cands', home, ents');
      states', homes', rows' := states + [cands'], homes + [home], rows + [ents'];
    }
  }

  /** The items one after the other, up to the first that fails. */
  method SyncItems(s: Setup, w: World, items: seq<Item>, cands0: seq<Candidate>, refs0: Refs, ents0: Entities,
                   start: int)
    returns (ok: bool, refs: Refs, ents: Entities, ghost swept: nat, ghost states: seq<seq<Candidate>>,
             ghost homes: seq<nat>, ghost rows: seq<Entities>)
    requires Idempotent(s.norm) && LinksApart(cands0)
    ensures swept <= |items| && SweptSoFar(s, w, items[..swept], start, cands0, refs0, states, homes, refs)
    ensures ok ==> swept == |items| && AllStored(w, |items|)
    ensures Written(s, items[..swept], states, homes, rows) && rows[0] == ents0
    ensures ok ==> ents == rows[swept]
    ensures !ok ==> swept < |items| && (StoreFails(w, swept) || LacksId(s, w, swept, items[swept], states[swept]))
    ensures !ok ==> ents == rows[swept] || WritesOne(s, items[swept], rows[swept], ents)
    ensures Backed(refs0, ents0) ==> Backed(refs, ents)
  {
    refs, ents, swept, states, homes, rows := refs0, ents0, 0, [cands0], [], [ents0];
    var current := cands0;
    NothingSwept(s, w, start, cands0, refs0);
    for i := 0 to |items|
      invariant swept == i && SweptSoFar(s, w, items[..i], start, cands0, refs0, states, homes, refs)
      invariant states[i] == current
      invariant Written(s, items[..i], states, homes, rows) && rows[0] == ents0 && rows[i] == ents
      invariant Backed(refs0, ents0) ==> Backed(refs, ents)
      invariant AllStored(w, i)
    {
      ok, current, refs, ents, states, homes, rows :=
          SyncNext(s, w, items, i, cands0, refs0, current, states, homes, rows, refs, ents, start);
      if !ok {
        return;
      }
      OneMoreStored(w, i);
      swept := i + 1;
    }
    assert items[..|items|] == items;
    ok := true;
  }

  // ----- what a sweep does to the references -----

  /**
   * The references a sweep ends with: those of the items swept are seen now, and stale ones are cleared if it came
   * to that.
   */
  ghost predicate EndsWith(s: Setup, server: seq<Item>, swept: nat, start: int, refs0: Refs, refs: Refs, o: Outcome) {
    && swept <= |server|
    && exists before :: Refreshed(s, server[..swept], start, refs0, before)
                        && refs == if Marked(o) then MarkStale(before, s.instance, start) else before
  }

  /** That is how every sweep ends. */
  lemma SweepEndsWith(s: Setup, w: World, server: seq<Item>, swept: nat, start: int, cands0: seq<Candidate>,
                      refs0: Refs, states: seq<seq<Candidate>>, homes: seq<nat>, refs: Refs, o: Outcome)
    requires swept <= |server| && SweepEnds(s, w, server[..swept], start, cands0, refs0, states, homes, refs, o)
    ensures EndsWith(s, server, swept, start, refs0, refs, o)
  {
    var before :| SweptSoFar(s, w, server[..swept], start, cands0, refs0, states, homes, before)
                  && refs == if Marked(o) then MarkStale(before, s.instance, start) else before;
  }

  /** A sweep that was truncated or failed before the marking clears no favourite. */
  lemma UnmarkedSweepClearsNothing(s: Setup, server: seq<Item>, swept: nat, start: int, refs0: Refs, refs: Refs,
                                   o: Outcome, k: RefKey)
    requires EndsWith(s, server, swept, start, refs0, refs, o) && !Marked(o)
    requires k in refs0 && refs0[k].favorite
    ensures k in refs && refs[k].favorite
  {
  }

  /** Whatever happens, references of other instances stay as they are. */
  lemma OtherInstancesStay(s: Setup, server: seq<Item>, swept: nat, start: int, refs0: Refs, refs: Refs, o: Outcome,
                           k: RefKey)
    requires EndsWith(s, server, swept, start, refs0, refs, o) && k.instance != s.instance
    ensures k in refs <==> k in refs0
    ensures k in refs ==> refs[k] == refs0[k]
  {
  }

  /** After the marking the favourites are the items swept and what was seen since the sweep began. */
  lemma MarkedFavorites(s: Setup, server: seq<Item>, swept: nat, start: int, refs0: Refs, refs: Refs, o: Outcome,
                        f: string)
    requires EndsWith(s, server, swept, start, refs0, refs, o) && Marked(o)
    ensures Favorite(refs, s.instance, f) <==>
      Named(server[..swept], f) || (Favorite(refs0, s.instance, f) && refs0[RefKey(s.instance, f)].lastSeen >= start)
  {
  }

  ghost predicate MirrorsServer(s: Setup, server: seq<Item>, refs: Refs) {
    forall f :: Favorite(refs, s.instance, f) <==> Named(server, f)
  }

  ghost predicate DistinctIds(server: seq<Item>) {
    forall i, j :: 0 <= i < j < |server| ==> server[i].foreignId != server[j].foreignId
  }

  /** Every favourite of the list is among its first items. */
  ghost predicate PrefixNamesAll(server: seq<Item>, k: nat)
    requires k <= |server|
  {
    forall f :: Named(server, f) ==> Named(server[..k], f)
  }

  /** The reported count passes every page boundary before the end of the list. */
  predicate CountPassesPages(n: nat, count: int) {
    n <= PER_PAGE || count > (n - 1) / PER_PAGE * PER_PAGE
  }

  /**
   A sweep that began after every stored reference was last seen and that came to the marking leaves
   the favourites of the instance equal to the server's exactly when those fetched name all of them. In
   a list without repetition that is so exactly when the count passes every page boundary before its end.
   */
  lemma MarkedSweepMirrorsServerIff(s: Setup, server: seq<Item>, count: int, w: World, start: int, refs0: Refs,
                                    refs: Refs, o: Outcome)
    requires forall k :: k in refs0 && k.instance == s.instance ==> refs0[k].lastSeen < start
    requires o == OutcomeOf(|server|, count, w) && Marked(o)
    requires EndsWith(s, server, FetchedCount(|server|, count), start, refs0, refs, o)
    ensures MirrorsServer(s, server, refs) <==> PrefixNamesAll(server, FetchedCount(|server|, count))
    ensures DistinctIds(server) ==> (MirrorsServer(s, server, refs) <==> CountPassesPages(|server|, count))
  {
    var k := FetchedCount(|server|, count);
    assert count <= MAX_ITEMS;
    FetchedIsCount(|server|, count, k);
    FetchIsCompleteIff(|server|, count, k);
    forall f ensures Favorite(refs, s.instance, f) <==> Named(server[..k], f) {
      MarkedFavorites(s, server, k, start, refs0, refs, o, f);
    }
    forall f | Named(server[..k], f) ensures Named(server, f) {
      PrefixIsNamed(server, k, f);
    }
    if DistinctIds(server) {
      PrefixNamesAllIff(server, k);
    }
  }

  lemma PrefixIsNamed(server: seq<Item>, k: nat, f: string)
    requires k <= |server| && Named(server[..k], f)
    ensures Named(server, f)
  {
    var i :| 0 <= i < k && server[..k][i].foreignId == f;
    assert server[i].foreignId == f;
  }

  /** A prefix of a list of distinct items names all of them only if it is the list. */
  lemma PrefixNamesAllIff(server: seq<Item>, k: nat)
    requires DistinctIds(server) && k <= |server|
    ensures k == |server| <==> PrefixNamesAll(server, k)
  {
    if k == |server| {
      assert server[..k] == server;
    } else {
      var f := server[k].foreignId;
      assert Named(server, f) && !Named(server[..k], f);
    }
  }

  /**
   * What a sweep that clears nothing needs of the favourites there were: none stale, and all that it does not get
   * to.
   */
  ghost predicate RestIsKnown(s: Setup, server: seq<Item>, swept: nat, refs0: Refs)
    requires swept <= |server|
  {
    && (forall f :: Favorite(refs0, s.instance, f) ==> Named(server, f))
    && (forall f :: Named(server, f) && !Named(server[..swept], f) ==> Favorite(refs0, s.instance, f))
  }

  /**
   A sweep without any failure mirrors the server exactly when, with a count within the cap, the items
   fetched name all favourites, and, with a count beyond the cap, no favourite was stale before and every
   one past the cap was known.
   */
  lemma FailureFreeSweepMirrorsServerIff(s: Setup, server: seq<Item>, count: int, w: World, start: int, refs0: Refs,
                                         refs: Refs, o: Outcome)
    requires IsCalm(w)
    requires forall k :: k in refs0 && k.instance == s.instance ==> refs0[k].lastSeen < start
    requires o == OutcomeOf(|server|, count, w)
    requires EndsWith(s, server, FetchedCount(|server|, count), start, refs0, refs, o)
    ensures MirrorsServer(s, server, refs) <==>
            if count > MAX_ITEMS then RestIsKnown(s, server, FetchedCount(|server|, count), refs0)
            else PrefixNamesAll(server, FetchedCount(|server|, count))
    ensures DistinctIds(server) && count <= MAX_ITEMS ==>
              (MirrorsServer(s, server, refs) <==> CountPassesPages(|server|, count))
  {
    var k := FetchedCount(|server|, count);
    assert o == Synced(k, count > MAX_ITEMS);
    if Marked(o) {
      MarkedSweepMirrorsServerIff(s, server, count, w, start, refs0, refs, o);
    } else {
      UnmarkedSweepMirrorsIff(s, server, k, start, refs0, refs, o);
    }
  }

  lemma UnmarkedSweepMirrorsIff(s: Setup, server: seq<Item>, swept: nat, start: int, refs0: Refs, refs: Refs,
                                o: Outcome)
    requires EndsWith(s, server, swept, start, refs0, refs, o) && !Marked(o)
    ensures MirrorsServer(s, server, refs) <==> RestIsKnown(s, server, swept, refs0)
  {
    forall f ensures Favorite(refs, s.instance, f) <==> Named(server[..swept], f) || Favorite(refs0, s.instance, f) {
    }
    forall f | Named(server[..swept], f) ensures Named(server, f) {
      PrefixIsNamed(server, swept, f);
    }
  }

  /** A sweep that does not come through clears exactly the stale favourites, and only if its last call alone failed. */
  lemma FailedSweepClearsIff(s: Setup, server: seq<Item>, count: int, w: World, swept: nat, start: int, refs0: Refs,
                             refs: Refs, o: Outcome, f: string)
    requires o == OutcomeOf(|server|, count, w) && !o.Synced?
    requires EndsWith(s, server, swept, start, refs0, refs, o) && Favorite(refs0, s.instance, f)
    ensures !Favorite(refs, s.instance, f) <==>
            o.ClearFailed? && refs0[RefKey(s.instance, f)].lastSeen < start && !Named(server[..swept], f)
  {
    if o.ClearFailed? {
      MarkedFavorites(s, server, swept, start, refs0, refs, o, f);
    }
  }

  /** Such a sweep: the server has no favourites left, one is stored, and only the last call fails. */
  method FailedSweepCanClear(s: Setup, f: string) returns (o: Outcome, before: Refs, after: Refs)
    requires Idempotent(s.norm)
    ensures o.ClearFailed? && Favorite(before, s.instance, f) && !Favorite(after, s.instance, f)
  {
    var w := World(page => false, i => None, i => false, call => call == 2);
    before := map[RefKey(s.instance, f) := Ref(0, true, 0, [])];
    ghost var swept, states, homes, rows;
    var ents;
    o, after, ents, swept, states, homes, rows := Sync(s, [], 0, w, [], before, map[], 1);
    FailedSweepClearsIff(s, [], 0, w, 0, 1, before, after, o, f);
  }
}
