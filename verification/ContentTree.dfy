/** The Confluence content-tree walk (ingestion_connectors/confluence_sync.go). */
module ContentTree {

  type PageId = string

  type Hash = string

  /** A page as fetched: what decoding gives, the payload hashes, and which writes fail. */
  datatype Page = Page(
    decodes: bool, docId: string,
    rawHash: Hash, bodyHash: Hash, metaHash: Hash, normHash: Hash,
    metadataFails: bool, rawFails: bool, bodyStored: bool, metaStored: bool, normFails: bool)

  /** The children the site lists for a page; `fails` when the request or its decoding fails,
      `stored` when the listing's raw row could be written. */
  datatype Listing = Listing(ids: seq<PageId>, hash: Hash, fails: bool, stored: bool)

  const MAX_PAGES_PER_SYNC: nat := 25

  /** The remote site during one run. A request for an absent page or listing fails. */
  datatype Site = Site(pages: map<PageId, Page>, listings: map<PageId, Listing>)

  predicate Listed(site: Site, id: PageId) {
    id in site.listings && !site.listings[id].fails
  }

  /** The children a walk can learn of: none when the listing fails. */
  function Children(site: Site, id: PageId): set<PageId> {
    if Listed(site, id) then set c | c in site.listings[id].ids && c != "" else {}
  }

  /** Every id the walk can meet. */
  function Universe(site: Site, root: PageId): set<PageId> {
    {root} + set id, c | id in site.listings.Keys && c in site.listings[id].ids :: c
  }

  ghost predicate Path(site: Site, root: PageId, p: seq<PageId>) {
    && p != [] && p[0] == root
    && forall i | 0 <= i < |p| - 1 :: p[i + 1] in Children(site, p[i])
  }

  ghost predicate Reachable(site: Site, root: PageId, id: PageId) {
    exists p :: Path(site, root, p) && p[|p| - 1] == id
  }

  lemma RootReachable(site: Site, root: PageId)
    ensures Reachable(site, root, root)
  {
    assert Path(site, root, [root]);
  }

  lemma ChildReachable(site: Site, root: PageId, id: PageId, c: PageId)
    requires Reachable(site, root, id) && c in Children(site, id)
    ensures Reachable(site, root, c)
  {
    var p :| Path(site, root, p) && p[|p| - 1] == id;
    var q := p + [c];
    assert Path(site, root, q) && q[|q| - 1] == c;
  }

  /** A set with the root, closed under listed children, holds everything reachable. */
  lemma {:induction false} ClosedHoldsPath(site: Site, root: PageId, s: set<PageId>, p: seq<PageId>)
    requires root in s && forall id | id in s :: Children(site, id) <= s
    requires Path(site, root, p)
    ensures p[|p| - 1] in s
    decreases |p|
  {
    if |p| > 1 {
      var init := p[..|p| - 1];
      assert Path(site, root, init);
      ClosedHoldsPath(site, root, s, init);
    }
  }

  lemma ClosedIsReachable(site: Site, root: PageId, s: set<PageId>)
    requires root in s && forall id | id in s :: Children(site, id) <= s && Reachable(site, root, id)
    ensures forall id: PageId :: id in s <==> Reachable(site, root, id)
  {
    forall id: PageId | Reachable(site, root, id) ensures id in s {
      var p :| Path(site, root, p) && p[|p| - 1] == id;
      ClosedHoldsPath(site, root, s, p);
    }
  }

  ghost predicate NoDuplicates(ids: seq<PageId>) {
    forall i, j | 0 <= i < j < |ids| :: ids[i] != ids[j]
  }

  /** What the loop keeps of its two collections: all met pages are reachable, and the children
      of every seen page have been met. */
  ghost predicate Frontier(site: Site, root: PageId, seen: set<PageId>, queue: seq<PageId>) {
    && seen <= Universe(site, root)
    && (root in seen || root in queue)
    && (forall id | id in queue :: id in Universe(site, root) && Reachable(site, root, id))
    && (forall id | id in seen :: Reachable(site, root, id))
    && forall id, c | id in seen && c in Children(site, id) :: c in seen || c in queue
  }

  // ---- the order of the walk

  function NonEmpty(ids: seq<PageId>): seq<PageId> {
    if ids == [] then []
    else NonEmpty(ids[..|ids| - 1]) + if ids[|ids| - 1] == "" then [] else [ids[|ids| - 1]]
  }

  function ChildList(site: Site, id: PageId): seq<PageId> {
    if Listed(site, id) then NonEmpty(site.listings[id].ids) else []
  }

  /** Everything the walk has met, in order: the root, then the listing of each page requested. */
  function Met(site: Site, root: PageId, requests: seq<PageId>): seq<PageId> {
    if requests == [] then [root]
    else Met(site, root, requests[..|requests| - 1]) + ChildList(site, requests[|requests| - 1])
  }

  function FirstOccurrences(ids: seq<PageId>): seq<PageId> {
    if ids == [] then []
    else
      var before := FirstOccurrences(ids[..|ids| - 1]);
      if ids[|ids| - 1] in before then before else before + [ids[|ids| - 1]]
  }

  /** Breadth first: the pages requested are the first `taken` ones met, without repetition, and
      the others are still queued. */
  ghost predicate BreadthFirst(site: Site, root: PageId, requests: seq<PageId>, queue: seq<PageId>, taken: nat) {
    && taken <= |Met(site, root, requests)|
    && requests == FirstOccurrences(Met(site, root, requests)[..taken])
    && queue == Met(site, root, requests)[taken..]
  }

  lemma {:induction false} NonEmptyIn(ids: seq<PageId>)
    ensures forall c :: c in NonEmpty(ids) <==> c in ids && c != ""
    decreases |ids|
  {
    if ids != [] {
      NonEmptyIn(ids[..|ids| - 1]);
      assert ids == ids[..|ids| - 1] + [ids[|ids| - 1]];
    }
  }

  lemma ChildListIn(site: Site, id: PageId)
    ensures forall c :: c in ChildList(site, id) <==> c in Children(site, id)
  {
    if Listed(site, id) {
      NonEmptyIn(site.listings[id].ids);
    }
  }

  lemma {:induction false} FirstOccurrencesIn(ids: seq<PageId>)
    ensures forall id :: id in FirstOccurrences(ids) <==> id in ids
    ensures NoDuplicates(FirstOccurrences(ids))
    decreases |ids|
  {
    if ids != [] {
      FirstOccurrencesIn(ids[..|ids| - 1]);
      assert ids == ids[..|ids| - 1] + [ids[|ids| - 1]];
    }
  }

  lemma MetSnoc(site: Site, root: PageId, requests: seq<PageId>, id: PageId)
    ensures Met(site, root, requests + [id]) == Met(site, root, requests) + ChildList(site, id)
  {
    assert (requests + [id])[..|requests|] == requests;
  }

  lemma FirstOccurrencesSnoc(ids: seq<PageId>, id: PageId)
    ensures FirstOccurrences(ids + [id])
            == if id in FirstOccurrences(ids) then FirstOccurrences(ids) else FirstOccurrences(ids) + [id]
  {
    assert (ids + [id])[..|ids|] == ids;
  }

  lemma TakeOne<T>(s: seq<T>, more: seq<T>, i: nat)
    requires i < |s|
    ensures (s + more)[..i + 1] == s[..i] + [s[i]]
    ensures (s + more)[i + 1..] == s[i..][1..] + more
    ensures s[..i + 1] == s[..i] + [s[i]] && s[i + 1..] == s[i..][1..] && s[i..][0] == s[i]
  {}

  lemma WalkSkips(site: Site, root: PageId, requests: seq<PageId>, queue: seq<PageId>, taken: nat)
    requires queue != [] && BreadthFirst(site, root, requests, queue, taken) && queue[0] in requests
    ensures BreadthFirst(site, root, requests, queue[1..], taken + 1)
  {
    var met := Met(site, root, requests);
    TakeOne(met, [], taken);
    FirstOccurrencesSnoc(met[..taken], queue[0]);
  }

  lemma WalkVisits(site: Site, root: PageId, requests: seq<PageId>, queue: seq<PageId>, taken: nat)
    requires queue != [] && BreadthFirst(site, root, requests, queue, taken) && queue[0] !in requests
    ensures BreadthFirst(site, root, requests + [queue[0]], queue[1..] + ChildList(site, queue[0]), taken + 1)
  {
    var met, id := Met(site, root, requests), queue[0];
    MetSnoc(site, root, requests, id);
    TakeOne(met, ChildList(site, id), taken);
    FirstOccurrencesSnoc(met[..taken], id);
  }

  /** Every child of a page requested has been met. */
  lemma {:induction false} MetHasChildren(site: Site, root: PageId, requests: seq<PageId>)
    ensures forall id, c | id in requests && c in Children(site, id) :: c in Met(site, root, requests)
    decreases |requests|
  {
    if requests != [] {
      var init, last := requests[..|requests| - 1], requests[|requests| - 1];
      assert requests == init + [last];
      MetHasChildren(site, root, init);
      ChildListIn(site, last);
    }
  }

  /** What has been met is reachable. */
  ghost predicate AllReachable(site: Site, root: PageId, ids: seq<PageId>) {
    forall id | id in ids :: Reachable(site, root, id) && id in Universe(site, root)
  }

  lemma ReachableSnoc(site: Site, root: PageId, met: seq<PageId>, id: PageId)
    requires AllReachable(site, root, met) && id in met
    ensures AllReachable(site, root, met + ChildList(site, id))
  {
    ChildListIn(site, id);
    forall c | c in Children(site, id) ensures Reachable(site, root, c) && c in Universe(site, root) {
      ChildReachable(site, root, id, c);
      assert id in site.listings.Keys && c in site.listings[id].ids;
    }
  }

  function Members(ids: seq<PageId>): set<PageId> {
    set id | id in ids
  }

  /** What is requested and what is queued. */
  datatype Front = Front(requests: seq<PageId>, queue: seq<PageId>)

  /** The walk after some turns of its loop. */
  function WalkAfter(site: Site, root: PageId, turns: nat): Front {
    if turns == 0 then Front([], [root]) else Turn(site, WalkAfter(site, root, turns - 1))
  }

  function Turn(site: Site, f: Front): Front {
    if f.queue == [] then f
    else if f.queue[0] in f.requests then f.(queue := f.queue[1..])
    else Front(f.requests + [f.queue[0]], f.queue[1..] + ChildList(site, f.queue[0]))
  }

  lemma Halves<T>(s: seq<T>, i: nat)
    requires i <= |s|
    ensures forall x :: x in s <==> x in s[..i] || x in s[i..]
  {
    assert s == s[..i] + s[i..];
  }

  /** A turn keeps the walk breadth first, and all it has met reachable. */
  lemma TurnKeepsOrder(site: Site, root: PageId, f: Front, taken: nat)
    requires BreadthFirst(site, root, f.requests, f.queue, taken) && AllReachable(site, root, Met(site, root, f.requests))
    ensures var g := Turn(site, f);
            && BreadthFirst(site, root, g.requests, g.queue, if f.queue == [] then taken else taken + 1)
            && AllReachable(site, root, Met(site, root, g.requests))
  {
    if f.queue != [] && f.queue[0] in f.requests {
      WalkSkips(site, root, f.requests, f.queue, taken);
    } else if f.queue != [] {
      WalkVisits(site, root, f.requests, f.queue, taken);
      MetSnoc(site, root, f.requests, f.queue[0]);
      assert f.queue[0] == Met(site, root, f.requests)[taken];
      ReachableSnoc(site, root, Met(site, root, f.requests), f.queue[0]);
    }
  }

  lemma {:induction false} WalkIsBreadthFirst(site: Site, root: PageId, turns: nat) returns (taken: nat)
    ensures var f := WalkAfter(site, root, turns);
            && BreadthFirst(site, root, f.requests, f.queue, taken)
            && AllReachable(site, root, Met(site, root, f.requests))
  {
    if turns == 0 {
      taken := 0;
      assert [root][..0] == [] && [root][0..] == [root];
      RootReachable(site, root);
    } else {
      taken := WalkIsBreadthFirst(site, root, turns - 1);
      var f := WalkAfter(site, root, turns - 1);
      TurnKeepsOrder(site, root, f, taken);
      taken := if f.queue == [] then taken else taken + 1;
    }
  }

  lemma {:induction false} MetStartsAtRoot(site: Site, root: PageId, requests: seq<PageId>)
    ensures Met(site, root, requests) != [] && Met(site, root, requests)[0] == root
    decreases |requests|
  {
    if requests != [] {
      MetStartsAtRoot(site, root, requests[..|requests| - 1]);
    }
  }

  lemma {:induction false} AsManyMembers(ids: seq<PageId>)
    requires NoDuplicates(ids)
    ensures |Members(ids)| == |ids|
    decreases |ids|
  {
    if ids != [] {
      var init, last := ids[..|ids| - 1], ids[|ids| - 1];
      AsManyMembers(init);
      assert Members(ids) == Members(init) + {last} && last !in Members(init);
    }
  }

  lemma BreadthFirstFrontier(site: Site, root: PageId, requests: seq<PageId>, queue: seq<PageId>, taken: nat)
    requires BreadthFirst(site, root, requests, queue, taken)
    requires AllReachable(site, root, Met(site, root, requests))
    ensures Frontier(site, root, Members(requests), queue)
    ensures NoDuplicates(requests) && if requests == [] then queue != [] else root in requests
  {
    var met := Met(site, root, requests);
    Halves(met, taken);
    FirstOccurrencesIn(met[..taken]);
    MetStartsAtRoot(site, root, requests);
    MetHasChildren(site, root, requests);
    if taken > 0 {
      assert met[..taken][0] == root;
    }
  }

  /** All that is needed of the walk, whenever it stops. */
  lemma WalkFacts(site: Site, root: PageId, turns: nat) returns (taken: nat)
    ensures var f := WalkAfter(site, root, turns);
            && BreadthFirst(site, root, f.requests, f.queue, taken)
            && Frontier(site, root, Members(f.requests), f.queue)
            && NoDuplicates(f.requests) && if f.requests == [] then f.queue != [] else root in f.requests
  {
    taken := WalkIsBreadthFirst(site, root, turns);
    var f := WalkAfter(site, root, turns);
    BreadthFirstFrontier(site, root, f.requests, f.queue, taken);
  }

  /** How many pages of a set have not been requested. */
  function Remaining(all: set<PageId>, requests: seq<PageId>): nat {
    |all - Members(requests)|
  }

  lemma OneFewer(all: set<PageId>, requests: seq<PageId>, id: PageId)
    requires id in all && id !in requests
    ensures Remaining(all, requests + [id]) < Remaining(all, requests)
  {
    assert all - Members(requests) == (all - Members(requests + [id])) + {id};
  }

  lemma QueueInUniverse(site: Site, root: PageId, turns: nat)
    ensures var f := WalkAfter(site, root, turns); f.queue != [] ==> f.queue[0] in Universe(site, root)
  {
    var _ := WalkFacts(site, root, turns);
  }

  lemma StaysEnded(site: Site, root: PageId, turns: nat, later: nat)
    requires WalkAfter(site, root, turns).queue == [] && turns <= later
    ensures WalkAfter(site, root, later).queue == []
    decreases later
  {
    if turns < later {
      StaysEnded(site, root, turns, later - 1);
    }
  }

  lemma BeforeTheEnd(site: Site, root: PageId, turns: nat, bound: nat)
    requires WalkAfter(site, root, bound).queue == []
    ensures WalkAfter(site, root, turns).queue != [] ==> turns < bound
  {
    if bound <= turns {
      StaysEnded(site, root, bound, turns);
    }
  }

  /** The walk ends on every site, cyclic or not: each turn leaves a page fewer to request, or as
      many and a shorter queue. */
  lemma WalkEnds(site: Site, root: PageId, turns: nat, all: set<PageId>) returns (bound: nat)
    requires all == Universe(site, root)
    ensures bound >= turns && WalkAfter(site, root, bound).queue == []
    decreases Remaining(all, WalkAfter(site, root, turns).requests), |WalkAfter(site, root, turns).queue|
  {
    var f := WalkAfter(site, root, turns);
    if f.queue == [] {
      bound := turns;
    } else {
      QueueInUniverse(site, root, turns);
      var g := WalkAfter(site, root, turns + 1);
      assert g == Turn(site, f);
      if f.queue[0] in f.requests {
        assert g == f.(queue := f.queue[1..]);
      } else {
        OneFewer(all, f.requests, f.queue[0]);
        assert g.requests == f.requests + [f.queue[0]];
      }
      bound := WalkEnds(site, root, turns + 1, all);
    }
  }

  ghost predicate SawReachable(site: Site, root: PageId, seen: set<PageId>) {
    forall id: PageId :: id in seen <==> Reachable(site, root, id)
  }

  /** The walk is complete exactly when nothing new is left in the queue. */
  lemma FrontierDone(site: Site, root: PageId, seen: set<PageId>, queue: seq<PageId>)
    requires Frontier(site, root, seen, queue) && root in seen
    ensures SawReachable(site, root, seen) <==> forall id | id in queue :: id in seen
  {
    if forall id | id in queue :: id in seen {
      forall id | id in seen ensures Children(site, id) <= seen && Reachable(site, root, id) {
        assert forall c | c in Children(site, id) :: c in seen;
      }
      ClosedIsReachable(site, root, seen);
    }
  }

  method AppendIds(queue: seq<PageId>, ids: seq<PageId>) returns (longer: seq<PageId>)
    ensures longer == queue + NonEmpty(ids)
  {
    longer := queue;
    for i := 0 to |ids|
      invariant longer == queue + NonEmpty(ids[..i])
    {
      assert ids[..i + 1][..i] == ids[..i];
      if ids[i] != "" {
        longer := longer + [ids[i]];
      }
    }
    assert ids[..|ids|] == ids;
  }

  /** The page gets as far as its raw row. */
  predicate ReachesRaw(page: Page) {
    page.decodes && page.docId != "" && !page.metadataFails && !page.rawFails
  }

  /** The raw rows a page asks for: its own, and when that is new its body and metadata if stored. */
  function RawOf(page: Page, raw: set<Hash>): set<Hash> {
    if !ReachesRaw(page) then {}
    else
      {page.rawHash}
      + (if page.rawHash !in raw && page.bodyStored then {page.bodyHash} else {})
      + (if page.rawHash !in raw && page.metaStored then {page.metaHash} else {})
  }

  /** The raw row of a page's listing, when it could be had and stored. */
  function ListingRow(site: Site, id: PageId): set<Hash> {
    if Listed(site, id) && site.listings[id].stored then {site.listings[id].hash} else {}
  }

  /** The rows a seen page leaves in any case: its own, when it gets that far, and its listing's. */
  function PageRows(site: Site, id: PageId): set<Hash> {
    (if id in site.pages && ReachesRaw(site.pages[id]) then {site.pages[id].rawHash} else {}) + ListingRow(site, id)
  }

  /** The tables and counters at some point of a walk. */
  datatype Books = Books(raw: set<Hash>, norm: set<Hash>, ingested: nat, deduped: nat, errs: nat)

  function Fetched(site: Site, b: Books, id: PageId): Books {
    if id !in site.pages || !ReachesRaw(site.pages[id]) then b.(errs := b.errs + 1)
    else
      var page := site.pages[id];
      var c := b.(raw := b.raw + RawOf(page, b.raw));
      if page.rawHash in b.raw then c.(deduped := b.deduped + 1)
      else if page.normFails then c.(errs := b.errs + 1)
      else if page.normHash in b.norm then c.(deduped := b.deduped + 1)
      else c.(norm := b.norm + {page.normHash}, ingested := b.ingested + 1)
  }

  /** A page fetched, then its listing. */
  function Visited(site: Site, b: Books, id: PageId): Books {
    var c := Fetched(site, b, id);
    c.(raw := c.raw + ListingRow(site, id))
  }

  function AllVisited(site: Site, b: Books, ids: seq<PageId>): Books {
    if ids == [] then b else Visited(site, AllVisited(site, b, ids[..|ids| - 1]), ids[|ids| - 1])
  }

  lemma AllVisitedSnoc(site: Site, b: Books, ids: seq<PageId>, id: PageId)
    ensures AllVisited(site, b, ids + [id]) == Visited(site, AllVisited(site, b, ids), id)
  {
    assert (ids + [id])[..|ids|] == ids;
  }

  /** One more page, counted from zero and added up. */
  lemma VisitedNext(site: Site, start: Books, ids: seq<PageId>, b: Books, id: PageId, c: Books)
    requires b == AllVisited(site, start, ids) && c == Visited(site, Books(b.raw, b.norm, 0, 0, 0), id)
    ensures AllVisited(site, start, ids + [id])
            == Books(c.raw, c.norm, b.ingested + c.ingested, b.deduped + c.deduped, b.errs + c.errs)
  {
    AllVisitedSnoc(site, start, ids, id);
  }

  lemma VisitedOnce(site: Site, b: Books, id: PageId)
    ensures var c := Visited(site, b, id);
            && c.ingested + c.deduped + c.errs == b.ingested + b.deduped + b.errs + 1
            && b.norm <= c.norm && |c.norm| - |b.norm| == c.ingested - b.ingested
            && b.raw <= c.raw
  {}

  lemma VisitedLeavesRows(site: Site, b: Books, id: PageId)
    ensures PageRows(site, id) <= Visited(site, b, id).raw
  {}

  /** Each page falls in one counter, the tables only grow, by as many records as are ingested, and
      every page that got that far has left its raw rows. */
  lemma {:induction false} AllVisitedFacts(site: Site, b: Books, ids: seq<PageId>)
    ensures var c := AllVisited(site, b, ids);
            && c.ingested + c.deduped + c.errs == b.ingested + b.deduped + b.errs + |ids|
            && b.norm <= c.norm && |c.norm| - |b.norm| == c.ingested - b.ingested && b.raw <= c.raw
            && forall id | id in ids :: PageRows(site, id) <= c.raw
    decreases |ids|
  {
    if ids != [] {
      var init, last := ids[..|ids| - 1], ids[|ids| - 1];
      assert ids == init + [last];
      AllVisitedFacts(site, b, init);
      VisitedOnce(site, AllVisited(site, b, init), last);
      VisitedLeavesRows(site, AllVisited(site, b, init), last);
    }
  }

  /** Whether visiting other pages can leave a raw row with this hash. */
  ghost predicate Foreign(site: Site, id: PageId, hash: Hash) {
    || hash in ListingRow(site, id)
    || (id in site.pages && hash in {site.pages[id].rawHash, site.pages[id].bodyHash, site.pages[id].metaHash})
  }

  lemma NewPageStored(site: Site, b: Books, id: PageId)
    requires id in site.pages && ReachesRaw(site.pages[id]) && !site.pages[id].normFails
    requires site.pages[id].rawHash !in b.raw
    ensures site.pages[id].normHash in Visited(site, b, id).norm
  {}

  lemma OtherPageKeepsOut(site: Site, b: Books, id: PageId, hash: Hash)
    requires !Foreign(site, id, hash) && hash !in b.raw
    ensures hash !in Visited(site, b, id).raw
  {}

  /** A page that meets no fault and whose content is new to the feed gets its record, whatever
      happens to the other pages. */
  lemma {:induction false} NewPageIsRecorded(site: Site, b: Books, ids: seq<PageId>, id: PageId)
    requires id in site.pages && ReachesRaw(site.pages[id]) && !site.pages[id].normFails
    requires site.pages[id].rawHash !in b.raw
    requires forall other | other in ids && other != id :: !Foreign(site, other, site.pages[id].rawHash)
    ensures var c := AllVisited(site, b, ids);
            if id in ids then site.pages[id].normHash in c.norm else site.pages[id].rawHash !in c.raw
    decreases |ids|
  {
    if ids != [] {
      var init, last := ids[..|ids| - 1], ids[|ids| - 1];
      assert ids == init + [last];
      var c := AllVisited(site, b, init);
      NewPageIsRecorded(site, b, init, id);
      VisitedOnce(site, c, last);
      if id !in init && last == id {
        NewPageStored(site, c, id);
      } else if id !in init {
        OtherPageKeepsOut(site, c, last, site.pages[id].rawHash);
      }
    }
  }

  /** One feed's rows, unique by hash, and the page requests of the current run. */
  class Feed {
    const site: Site
    var raw: set<Hash>
    var norm: set<Hash>
    var requests: seq<PageId>

    constructor (site: Site, raw: set<Hash>, norm: set<Hash>)
      ensures this.site == site && this.raw == raw && this.norm == norm && requests == []
    {
      this.site, this.raw, this.norm, requests := site, raw, norm, [];
    }

    /** ON CONFLICT (feed, hash) DO NOTHING. */
    method InsertRaw(hash: Hash) returns (inserted: bool)
      modifies this`raw
      ensures inserted <==> hash !in old(raw)
      ensures raw == old(raw) + {hash}
    {
      inserted := hash !in raw;
      raw := raw + {hash};
    }

    /** Exactly one counter is one; ingested means exactly one new normalized row. */
    method PersistPage(page: Page) returns (ingested: nat, deduped: nat, errs: nat)
      modifies this`raw, this`norm
      ensures ingested + deduped + errs == 1
      ensures norm == if ingested == 1 then old(norm) + {page.normHash} else old(norm)
      ensures ingested == 1 <==>
                && page.decodes && page.docId != "" && !page.metadataFails && !page.rawFails && !page.normFails
                && page.rawHash !in old(raw) && page.normHash !in old(norm)
      ensures deduped == 1 <==>
                && page.decodes && page.docId != "" && !page.metadataFails && !page.rawFails
                && (page.rawHash in old(raw) || (!page.normFails && page.normHash in old(norm)))
      ensures raw == old(raw) + RawOf(page, old(raw))
    {
      if !page.decodes || page.docId == "" || page.metadataFails || page.rawFails {
        return 0, 0, 1;
      }
      var inserted := InsertRaw(page.rawHash);
      if !inserted {
        return 0, 1, 0;
      }
      if page.bodyStored {
        var _ := InsertRaw(page.bodyHash);
      }
      if page.metaStored {
        var _ := InsertRaw(page.metaHash);
      }
      if page.normFails {
        return 0, 0, 1;
      }
      if page.normHash in norm {
        return 0, 1, 0;
      }
      norm := norm + {page.normHash};
      return 1, 0, 0;
    }

    method SyncSinglePage(id: PageId) returns (ingested: nat, deduped: nat, errs: nat)
      modifies this
      ensures requests == old(requests) + [id] && ingested + deduped + errs == 1
      ensures Books(raw, norm, ingested, deduped, errs) == Fetched(site, Books(old(raw), old(norm), 0, 0, 0), id)
    {
      requests := requests + [id];
      if id !in site.pages {
        return 0, 0, 1;
      }
      ingested, deduped, errs := PersistPage(site.pages[id]);
    }

    /** The listing of a page, recorded as a raw row; empty when the request fails. */
    method FetchChildren(id: PageId) returns (ids: seq<PageId>)
      modifies this`raw
      ensures ids == if Listed(site, id) then site.listings[id].ids else []
      ensures raw == old(raw) + ListingRow(site, id)
    {
      if id !in site.listings || site.listings[id].fails {
        return [];
      }
      if site.listings[id].stored {
        var _ := InsertRaw(site.listings[id].hash);
      }
      return site.listings[id].ids;
    }

    /** One page of the walk: the page itself, then its listing. */
    method VisitPage(id: PageId) returns (ingested: nat, deduped: nat, errs: nat, children: seq<PageId>)
      modifies this
      ensures requests == old(requests) + [id] && ingested + deduped + errs == 1
      ensures Books(raw, norm, ingested, deduped, errs) == Visited(site, Books(old(raw), old(norm), 0, 0, 0), id)
      ensures NonEmpty(children) == ChildList(site, id)
    {
      ingested, deduped, errs := SyncSinglePage(id);
      children := FetchChildren(id);
    }

    /** The walk terminates on every site, cyclic or not; it fetches no id twice and breadth first,
        accounts for every page it saw and stays within the cap. It has seen exactly the pages
        reachable through the listings that can be had, if and only if what is `left` in the queue
        brings nothing new: always when it ends below the cap. */
    method SyncContentTree(root: PageId)
      returns (ingested: nat, deduped: nat, warnings: nat, errs: nat, ghost seenPages: set<PageId>, ghost left: seq<PageId>)
      modifies this
      ensures NoDuplicates(requests) && (forall id :: id in requests <==> id in seenPages)
      ensures exists taken :: BreadthFirst(site, root, requests, left, taken)
      ensures Books(raw, norm, ingested, deduped, errs) == AllVisited(site, Books(old(raw), old(norm), 0, 0, 0), requests)
      ensures ingested + deduped + errs == |seenPages| == |requests|
      ensures ingested <= MAX_PAGES_PER_SYNC
      ensures warnings == if ingested == MAX_PAGES_PER_SYNC then 1 else 0
      ensures old(norm) <= norm && |norm| == |old(norm)| + ingested
      ensures old(raw) <= raw && forall id | id in seenPages :: PageRows(site, id) <= raw
      ensures root in seenPages && Frontier(site, root, seenPages, left)
      ensures SawReachable(site, root, seenPages) <==> forall id | id in left :: id in seenPages
      ensures warnings == 0 ==> left == []
    {
      requests := [];
      ghost var turns;
      ingested, deduped, errs, seenPages, left, turns := WalkTree(root);
      warnings := if ingested >= MAX_PAGES_PER_SYNC then 1 else 0;
      ghost var taken := WalkFacts(site, root, turns);
      AsManyMembers(requests);
      AllVisitedFacts(site, Books(old(raw), old(norm), 0, 0, 0), requests);
      FrontierDone(site, root, seenPages, left);
    }

    /** The loop: until the queue is empty or the cap is reached. */
    method WalkTree(root: PageId)
      returns (ingested: nat, deduped: nat, errs: nat, ghost seenPages: set<PageId>, ghost left: seq<PageId>, ghost turns: nat)
      requires requests == []
      modifies this
      ensures Front(requests, left) == WalkAfter(site, root, turns)
      ensures seenPages == Members(requests)
      ensures Books(raw, norm, ingested, deduped, errs) == AllVisited(site, Books(old(raw), old(norm), 0, 0, 0), requests)
      ensures ingested <= MAX_PAGES_PER_SYNC && (ingested < MAX_PAGES_PER_SYNC ==> left == [])
    {
      var queue := [root];
      var seen: set<PageId> := {};
      var count := 0;
      ingested, deduped, errs, turns := 0, 0, 0, 0;
      ghost var start := Books(raw, norm, 0, 0, 0);
      ghost var bound := WalkEnds(site, root, 0, Universe(site, root));
      while |queue| > 0 && count < MAX_PAGES_PER_SYNC
        invariant count == ingested <= MAX_PAGES_PER_SYNC
        invariant Books(raw, norm, ingested, deduped, errs) == AllVisited(site, start, requests)
        invariant Front(requests, queue) == WalkAfter(site, root, turns) && seen == Members(requests)
        decreases bound - turns
      {
        BeforeTheEnd(site, root, turns, bound);
        var n, d, e;
        n, d, e, seen, queue := TakePage(root, seen, queue, turns, start, Books(raw, norm, ingested, deduped, errs));
        turns := turns + 1;
        ingested, deduped, errs := ingested + n, deduped + d, errs + e;
        if n > 0 {
          count := count + 1;
        }
      }
      seenPages, left := seen, queue;
    }

    /** One turn of the loop: the head of the queue is skipped when seen, visited otherwise. */
    method TakePage(root: PageId, seen: set<PageId>, queue: seq<PageId>, ghost turns: nat, ghost start: Books, ghost b: Books)
      returns (ingested: nat, deduped: nat, errs: nat, seen': set<PageId>, queue': seq<PageId>)
      requires queue != [] && seen == Members(requests) && Front(requests, queue) == WalkAfter(site, root, turns)
      requires b == AllVisited(site, start, requests) && b.raw == raw && b.norm == norm
      modifies this
      ensures Front(requests, queue') == WalkAfter(site, root, turns + 1) && seen' == Members(requests)
      ensures Books(raw, norm, b.ingested + ingested, b.deduped + deduped, b.errs + errs) == AllVisited(site, start, requests)
      ensures ingested <= 1
    {
      var id := queue[0];
      queue' := queue[1..];
      if id in seen {
        return 0, 0, 0, seen, queue';
      }
      seen' := seen + {id};
      var children;
      ingested, deduped, errs, children := VisitPage(id);
      VisitedNext(site, start, old(requests), b, id, Books(raw, norm, ingested, deduped, errs));
      queue' := AppendIds(queue', children);
    }
  }
}
