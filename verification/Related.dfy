/** The bounded two-hop walk over entity links
    (the related handler of httpserver/routes_register.go and its copy in tools_gateway_routes.go). */
module Related {
  import opened Wrappers
  import opened Access
  import AccessRules
  import AccessRows
  import Text
  import Evaluator

  datatype Entity = Entity(domain: Uuid, sensitivity: int, entityType: string)

  datatype Link = Link(from: Uuid, relation: string, to: Uuid)

  datatype Reason = Linked(relation: string) | LinkedTwoHop(relation: string, via: Uuid)

  datatype Item = Item(entity: Uuid, reason: Reason)

  /** What goes wrong while one candidate is looked up and evaluated. */
  datatype Glitch = Glitch(getFails: bool, faults: set<Query>)

  /** The tables of one request. `listFails` holds the ids whose link listing fails. */
  datatype World = World(
    db: Db, principal: Uuid, entities: map<Uuid, Entity>, links: seq<Link>, listFails: set<Uuid>,
    glitches: nat -> Glitch)

  const MAX_SEEDS: nat := 4
  const TOOL_LIMIT: nat := 12

  function Distance(a: int, b: int): nat {
    if a < b then b - a else a - b
  }

  /** The handler's `limit` query parameter; None when absent or not a number. */
  function RouteLimit(q: Option<int>): (limit: nat)
    ensures 1 <= limit <= TOOL_LIMIT && (q.None? ==> limit == 6)
    ensures q.Some? ==> forall n | 1 <= n <= TOOL_LIMIT :: Distance(limit, q.value) <= Distance(n, q.value)
  {
    if q.None? then 6 else if q.value < 1 then 1 else if q.value > 12 then 12 else q.value
  }

  function ListLinks(links: seq<Link>, id: Uuid): seq<Link> {
    if links == [] then []
    else (if links[0].from == id || links[0].to == id then [links[0]] else []) + ListLinks(links[1..], id)
  }

  function OtherEnd(l: Link, id: Uuid): Uuid {
    if l.from == id then l.to else l.from
  }

  predicate Joins(l: Link, a: Uuid, b: Uuid) {
    (l.from == a && l.to == b) || (l.from == b && l.to == a)
  }

  ghost predicate Adjacent(w: World, a: Uuid, b: Uuid) {
    exists l :: l in w.links && Joins(l, a, b)
  }

  lemma {:induction false} ListLinksFacts(links: seq<Link>, id: Uuid)
    ensures forall l :: l in ListLinks(links, id) <==> l in links && Joins(l, id, OtherEnd(l, id))
  {
    if links != [] {
      ListLinksFacts(links[1..], id);
      assert links == [links[0]] + links[1..];
    }
  }

  function ViewRequest(principal: Uuid, id: Uuid, e: Entity): Request {
    AccessRows.EntityView(principal, id, e.domain, e.sensitivity, e.entityType)
  }

  ghost predicate Viewable(w: World, id: Uuid) {
    id in w.entities && Permitted(w.db, ViewRequest(w.principal, id, w.entities[id]))
  }

  /** What a viewable entity needs, on the rows. */
  lemma ViewableOnRows(w: World, id: Uuid)
    requires Viewable(w, id)
    ensures var e := w.entities[id];
            && (w.principal, e.domain) in w.db.grants
            && var g := w.db.grants[(w.principal, e.domain)];
               e.sensitivity <= g.cap && !AccessRows.Expired(g.expires, w.db.now) && g.level in {"read", "write", "admin"}
    ensures forall a | a in w.db.acl && a.entity == id && a.effect == "deny" ::
              !(a.principalType == "user" && a.principal == w.principal)
    ensures var e := w.entities[id];
            var t := Text.TrimSpace(e.entityType);
            t != "" && !TypeAllowedInDomain(w.db, e.domain, t) ==> AclApplies(w.db, id, w.principal, "allow")
  {
    var e := w.entities[id];
    AccessRows.EntityViewOnRows(w.db, w.principal, id, e.domain, e.sensitivity, e.entityType);
  }

  /** An entity the answer may contain. */
  ghost predicate Eligible(w: World, root: Uuid, id: Uuid) {
    id != NIL && id != root && Viewable(w, id)
  }

  ghost predicate OneHop(w: World, root: Uuid, id: Uuid) {
    Eligible(w, root, id) && Adjacent(w, root, id)
  }

  /** Two links away, through a viewable neighbour. */
  ghost predicate TwoHop(w: World, root: Uuid, id: Uuid) {
    Eligible(w, root, id) && exists v :: OneHop(w, root, v) && Adjacent(w, v, id)
  }

  ghost predicate Quiet(w: World) {
    forall i :: w.glitches(i) == Glitch(false, {})
  }

  function Entities(items: seq<Item>): seq<Uuid> {
    seq(|items|, i requires 0 <= i < |items| => items[i].entity)
  }

  ghost predicate Distinct(ids: seq<Uuid>) {
    forall i, j | 0 <= i < j < |ids| :: ids[i] != ids[j]
  }

  lemma EntitiesSnoc(items: seq<Item>, item: Item)
    ensures Entities(items + [item]) == Entities(items) + [item.entity]
  {}

  /** One evaluation of the view action: never more than the tables permit. */
  method MayView(w: World, id: Uuid, faults: set<Query>) returns (ok: bool)
    requires id in w.entities
    ensures ok ==> Viewable(w, id)
    ensures faults == {} ==> (ok <==> Viewable(w, id))
  {
    var r := ViewRequest(w.principal, id, w.entities[id]);
    var v := Evaluator.Evaluate(w.db, faults, r);
    AccessRules.AllowIff(w.db, faults, r);
    AccessRules.ReasonNamesFirstFailingGate(w.db, r, WithinSensitivity);
    assert Permitted(w.db, r) ==> Passes(WithinSensitivity, w.db, r);
    return v.Decided? && v.dec.allow && v.dec.sensitivityOk;
  }

  class Walk {
    const w: World
    const root: Uuid
    const limit: nat
    var seen: set<Uuid>
    var out: seq<Item>
    var seeds: seq<Uuid>
    var lookups: nat

    constructor (w: World, root: Uuid, limit: nat)
      ensures this.w == w && this.root == root && this.limit == limit
      ensures out == [] && seeds == [] && Sound()
    {
      this.w, this.root, this.limit := w, root, limit;
      seen, out, seeds, lookups := {}, [], [], 0;
    }

    /** What every item of the answer satisfies, whatever goes wrong along the way. */
    ghost predicate Justified(item: Item)
      reads this
    {
      && Eligible(w, root, item.entity)
      && match item.reason
         case Linked(rel) => exists l :: l in w.links && l.relation == rel && Joins(l, root, item.entity)
         case LinkedTwoHop(rel, via) =>
           && OneHop(w, root, via) && via in seen
           && exists l :: l in w.links && l.relation == rel && Joins(l, via, item.entity)
    }

    ghost predicate Sound()
      reads this
    {
      && |out| <= limit && Distinct(Entities(out))
      && (forall id :: id in seen <==> id in Entities(out))
      && (forall item | item in out :: Justified(item))
    }

    method TryAdd(other: Uuid, reason: Reason) returns (added: bool)
      requires Sound() && |out| < limit
      requires Eligible(w, root, other) ==> Justified(Item(other, reason))
      modifies this`seen, this`out, this`lookups
      ensures Sound()
      ensures added ==> other !in old(seen) && Eligible(w, root, other)
                        && seen == old(seen) + {other} && out == old(out) + [Item(other, reason)]
      ensures !added ==> seen == old(seen) && out == old(out)
      ensures w.glitches(old(lookups)) == Glitch(false, {}) && Eligible(w, root, other) ==> other in seen
    {
      added := false;
      if other == NIL || other == root || other in seen {
        return;
      }
      var glitch := w.glitches(lookups);
      lookups := lookups + 1;
      if other !in w.entities || glitch.getFails {
        return;
      }
      var visible := MayView(w, other, glitch.faults);
      if !visible {
        return;
      }
      Extend(other, reason);
      added := true;
    }

    method Extend(other: Uuid, reason: Reason)
      requires Sound() && |out| < limit && other !in seen && Justified(Item(other, reason))
      modifies this`seen, this`out
      ensures Sound()
      ensures seen == old(seen) + {other} && out == old(out) + [Item(other, reason)]
    {
      EntitiesSnoc(out, Item(other, reason));
      seen := seen + {other};
      out := out + [Item(other, reason)];
    }

    /** All eligible ends of an entity's links are in the answer. */
    ghost predicate Expanded(end: Uuid)
      reads this
    {
      forall id | Eligible(w, root, id) && Adjacent(w, end, id) :: id in seen
    }

    /** The first k links have been dealt with: an eligible other end is in the answer. */
    ghost predicate Covered(links: seq<Link>, end: Uuid, k: nat)
      requires k <= |links|
      reads this
    {
      forall j | 0 <= j < k :: Eligible(w, root, OtherEnd(links[j], end)) ==> OtherEnd(links[j], end) in seen
    }

    lemma CoveredIsExpanded(links: seq<Link>, end: Uuid)
      requires links == ListLinks(w.links, end) && Covered(links, end, |links|)
      ensures Expanded(end)
    {
      ListLinksFacts(w.links, end);
      forall id | Eligible(w, root, id) && Adjacent(w, end, id) ensures id in seen {
        var l :| l in w.links && Joins(l, end, id);
        assert OtherEnd(l, end) == id && l in links;
        var j :| 0 <= j < |links| && links[j] == l;
      }
    }

    lemma LinkJoins(links: seq<Link>, end: Uuid, i: nat)
      requires links == ListLinks(w.links, end) && i < |links|
      ensures links[i] in w.links && Joins(links[i], end, OtherEnd(links[i], end))
      ensures Adjacent(w, end, OtherEnd(links[i], end))
    {
      ListLinksFacts(w.links, end);
      assert links[i] in links;
    }

    /** Direct neighbours; false when the listing fails. Without glitches the answer has exactly the
        eligible ends of the first `examined` links, in the order of the listing: all of it unless
        the answer is full. */
    method AddNeighbours() returns (ok: bool, ghost examined: nat)
      requires Sound() && out == [] && seeds == []
      modifies this`seen, this`out, this`seeds, this`lookups
      ensures ok <==> root !in w.listFails
      ensures !ok ==> out == [] && seeds == []
      ensures Sound()
      ensures seeds == Entities(out) && forall item | item in out :: item.reason.Linked?
      ensures var links := ListLinks(w.links, root);
              && examined <= |links|
              && (exists at :: InListing(links, root, at, seeds, examined))
              && (ok && Quiet(w) ==> Covered(links, root, examined))
              && (ok && |out| < limit ==> examined == |links|)
      ensures ok && Quiet(w) && |out| < limit ==> Expanded(root)
    {
      var links := ListLinks(w.links, root);
      ghost var at: seq<nat> := [];
      assert InListing(links, root, at, seeds, 0);
      if root in w.listFails {
        return false, 0;
      }
      var i := 0;
      while i < |links| && |out| < limit
        invariant i <= |links| && Sound()
        invariant seeds == Entities(out) && forall item | item in out :: item.reason.Linked?
        invariant InListing(links, root, at, seeds, i)
        invariant Quiet(w) ==> Covered(links, root, i)
      {
        LinkJoins(links, root, i);
        var other := OtherEnd(links[i], root);
        ghost var before := out;
        var added := TryAdd(other, Linked(links[i].relation));
        if added {
          EntitiesSnoc(before, Item(other, Linked(links[i].relation)));
          seeds := seeds + [other];
          at := at + [i];
        }
        i := i + 1;
      }
      ok, examined := true, i;
      if Quiet(w) && |out| < limit {
        CoveredIsExpanded(links, root);
      }
    }

    /** The ids are ends of links before position k, found at increasing positions. */
    ghost predicate InListing(links: seq<Link>, end: Uuid, at: seq<nat>, ids: seq<Uuid>, k: nat) {
      && |at| == |ids|
      && (forall i | 0 <= i < |at| :: at[i] < k && at[i] < |links| && OtherEnd(links[at[i]], end) == ids[i])
      && forall i, j | 0 <= i < j < |at| :: at[i] < at[j]
    }

    /** Everything one seed leads to, while there is room. */
    method ExpandSeed(seed: Uuid) returns (ok: bool)
      requires Sound() && seed in seen && OneHop(w, root, seed)
      modifies this`seen, this`out, this`lookups
      ensures ok <==> seed !in w.listFails
      ensures Sound() && old(seen) <= seen && old(out) <= out
      ensures !ok ==> out == old(out) && seen == old(seen)
      ensures forall k | |old(out)| <= k < |out| :: out[k].reason.LinkedTwoHop?
      ensures forall id | id in seen - old(seen) :: TwoHop(w, root, id)
      ensures ok && Quiet(w) && |out| < limit ==> Expanded(seed)
    {
      if seed in w.listFails {
        return false;
      }
      var links := ListLinks(w.links, seed);
      for i := 0 to |links|
        invariant Sound() && old(seen) <= seen && old(out) <= out
        invariant forall k | |old(out)| <= k < |out| :: out[k].reason.LinkedTwoHop?
        invariant forall id | id in seen - old(seen) :: TwoHop(w, root, id)
        invariant Quiet(w) ==> Covered(links, seed, i)
      {
        if |out| >= limit {
          return true;
        }
        LinkJoins(links, seed, i);
        var _ := TryAdd(OtherEnd(links[i], seed), LinkedTwoHop(links[i].relation, seed));
      }
      if Quiet(w) {
        CoveredIsExpanded(links, seed);
      }
      return true;
    }

    /** The answer is sound always. The request fails exactly when the root's listing does, or that
        of a seed reached with room left; `reached` of the seeds are, in order: all that may be (at
        most four) unless the answer is full. Without glitches, an answer that is not full has
        every neighbour and every neighbour of the seeds reached. */
    method Run(twoHops: bool) returns (ok: bool, ghost reached: nat)
      requires Sound() && out == [] && seeds == []
      modifies this
      ensures Sound() && |seeds| <= |out| && seeds == Entities(out)[..|seeds|]
      ensures forall k | 0 <= k < |out| :: out[k].reason.Linked? <==> k < |seeds|
      ensures reached <= if twoHops && |seeds| < limit then SeedCap(seeds) else 0
      ensures ok <==> root !in w.listFails && forall k | 0 <= k < reached :: seeds[k] !in w.listFails
      ensures !ok && root !in w.listFails ==> |out| < limit && seeds[reached - 1] in w.listFails
      ensures ok && twoHops && |out| < limit ==> reached == SeedCap(seeds)
      ensures forall id | id in seen :: OneHop(w, root, id) || (twoHops && TwoHop(w, root, id))
      ensures ok && Quiet(w) && |out| < limit ==>
                && (forall id | OneHop(w, root, id) :: id in seeds)
                && (twoHops ==> forall k | 0 <= k < SeedCap(seeds) :: Expanded(seeds[k]))
      ensures ok && Quiet(w) && |out| < limit && (twoHops ==> |seeds| <= MAX_SEEDS) ==>
                forall id :: id in seen <==> OneHop(w, root, id) || (twoHops && TwoHop(w, root, id))
    {
      reached := 0;
      ghost var examined;
      ok, examined := AddNeighbours();
      if !ok {
        return;
      }
      SeedsAreNeighbours();
      if !(twoHops && |out| < limit && |seeds| > 0) {
        return;
      }
      ok, reached := ExpandSeeds();
    }

    /** The second hop: from the first seeds, at most four, while there is room. */
    method ExpandSeeds() returns (ok: bool, ghost reached: nat)
      requires Sound() && seeds == Entities(out) && |out| < limit
      requires forall id | id in seeds :: id in seen && OneHop(w, root, id)
      requires forall id | id in seen :: OneHop(w, root, id)
      modifies this`seen, this`out, this`lookups
      ensures Sound() && old(out) <= out && old(seen) <= seen
      ensures forall k | |seeds| <= k < |out| :: out[k].reason.LinkedTwoHop?
      ensures reached <= SeedCap(seeds)
      ensures ok <==> forall k | 0 <= k < reached :: seeds[k] !in w.listFails
      ensures !ok ==> |out| < limit && reached > 0 && seeds[reached - 1] in w.listFails
      ensures ok && |out| < limit ==> reached == SeedCap(seeds)
      ensures forall id | id in seen :: OneHop(w, root, id) || TwoHop(w, root, id)
      ensures ok && Quiet(w) && |out| < limit ==> forall k | 0 <= k < reached :: Expanded(seeds[k])
    {
      var maxSeeds := if |seeds| < MAX_SEEDS then |seeds| else MAX_SEEDS;
      var s := 0;
      ok, reached := true, 0;
      while s < maxSeeds && |out| < limit
        invariant s <= maxSeeds && reached == s && Sound() && old(out) <= out && old(seen) <= seen
        invariant forall k | |seeds| <= k < |out| :: out[k].reason.LinkedTwoHop?
        invariant forall k | 0 <= k < s :: seeds[k] !in w.listFails
        invariant forall id | id in seen :: OneHop(w, root, id) || TwoHop(w, root, id)
        invariant Quiet(w) && |out| < limit ==> forall k | 0 <= k < s :: Expanded(seeds[k])
      {
        assert seeds[s] in seeds;
        ok := ExpandSeed(seeds[s]);
        reached := s + 1;
        if !ok {
          return;
        }
        s := s + 1;
      }
    }

    function SeedCap(seeds: seq<Uuid>): nat {
      if |seeds| < MAX_SEEDS then |seeds| else MAX_SEEDS
    }

    lemma SeedsAreNeighbours()
      requires Sound() && seeds == Entities(out) && forall item | item in out :: item.reason.Linked?
      ensures forall id :: id in seeds <==> id in seen
      ensures forall id | id in seeds :: OneHop(w, root, id)
    {
      forall id | id in seeds ensures OneHop(w, root, id) {
        var i :| 0 <= i < |out| && Entities(out)[i] == id;
        assert Justified(out[i]);
      }
    }
  }
}
