/** Folds of publish-like rights over the granted domains
    (httpserver/nav_visibility.go, routes_helpers.go, identity_admin.go). */
module Visibility {
  import opened Wrappers
  import opened Access
  import AccessRules
  import AccessRows
  import Evaluator

  datatype Error = DatabaseError | Forbidden

  datatype Navigation = Navigation(
    hasDomainGrant: bool, mayPublish: bool, mayApprove: bool, mayManageSourceFeed: bool, mayRunJob: bool)

  /** Which queries fail during the evaluation of one action on one domain. */
  type Faults = (Uuid, string) -> set<Query>

  ghost predicate NoFaults(faults: Faults) {
    forall d, a :: faults(d, a) == {}
  }

  function DomainRequest(principal: Uuid, domain: Uuid, action: string): Request {
    Request(principal, action, "domain", None, Some(domain), None, None)
  }

  ghost predicate MayAct(db: Db, principal: Uuid, domain: Uuid, action: string) {
    Permitted(db, DomainRequest(principal, domain, action))
  }

  ghost predicate MayActSomewhere(db: Db, principal: Uuid, action: string) {
    exists d: Uuid :: MayAct(db, principal, d, action)
  }

  /** One evaluation: an error only under faults, a yes only when the tables permit. */
  method AllowAction(db: Db, faults: Faults, principal: Uuid, domain: Uuid, action: string)
    returns (ok: Option<bool>)
    ensures ok == Some(true) ==> MayAct(db, principal, domain, action)
    ensures faults(domain, action) == {} ==> ok == Some(MayAct(db, principal, domain, action))
  {
    var r := DomainRequest(principal, domain, action);
    var v := Evaluator.Evaluate(db, faults(domain, action), r);
    AccessRules.AllowIff(db, faults(domain, action), r);
    AccessRules.ReasonNamesFirstFailingGate(db, r, WithinSensitivity);
    assert Permitted(db, r) ==> Passes(WithinSensitivity, db, r);
    return if v.Failed? then None else Some(v.dec.allow && v.dec.sensitivityOk);
  }

  /** One flag of the navigation fold after the domains `ids`. */
  ghost predicate FlagSound(flag: bool, db: Db, principal: Uuid, ids: seq<Uuid>, action: string) {
    flag ==> exists d :: d in ids && MayAct(db, principal, d, action)
  }

  ghost predicate FlagComplete(flag: bool, db: Db, principal: Uuid, ids: seq<Uuid>, action: string) {
    (exists d :: d in ids && MayAct(db, principal, d, action)) ==> flag
  }

  /** Raises a flag that is still down. */
  method RaiseFlag(db: Db, faults: Faults, principal: Uuid, ids: seq<Uuid>, i: nat, action: string, flag: bool)
    returns (raised: Option<bool>)
    requires i < |ids| && FlagSound(flag, db, principal, ids[..i], action)
    ensures raised.Some? ==> FlagSound(raised.value, db, principal, ids[..i + 1], action)
    ensures NoFaults(faults) ==> raised.Some?
    ensures NoFaults(faults) && FlagComplete(flag, db, principal, ids[..i], action) ==>
              FlagComplete(raised.value, db, principal, ids[..i + 1], action)
  {
    assert ids[..i + 1] == ids[..i] + [ids[i]];
    raised := Some(flag);
    if !flag {
      raised := AllowAction(db, faults, principal, ids[i], action);
    }
  }

  lemma SomewhereIsGranted(db: Db, principal: Uuid, ids: seq<Uuid>, action: string)
    requires Evaluator.Enumerates(ids, Evaluator.GrantedDomains(db, principal))
    ensures MayActSomewhere(db, principal, action) <==> exists d :: d in ids && MayAct(db, principal, d, action)
  {
    forall d: Uuid | MayAct(db, principal, d, action) ensures d in ids {
      Evaluator.PermittedNeedsGrant(db, DomainRequest(principal, d, action));
    }
  }

  method ComputeNavigationVisibility(db: Db, listFails: bool, faults: Faults, principal: Uuid)
    returns (r: Result<Navigation, Error>)
    ensures r.Ok? ==>
              && (r.value.hasDomainGrant <==> Evaluator.GrantedDomains(db, principal) != {})
              && (r.value.mayPublish ==> MayActSomewhere(db, principal, "publish"))
              && (r.value.mayApprove ==> MayActSomewhere(db, principal, "approve"))
              && (r.value.mayManageSourceFeed ==> MayActSomewhere(db, principal, "manage_source_feed"))
              && (r.value.mayRunJob ==> MayActSomewhere(db, principal, "run_job"))
    ensures !listFails && NoFaults(faults) ==>
              && r.Ok?
              && (r.value.mayPublish <==> MayActSomewhere(db, principal, "publish"))
              && (r.value.mayApprove <==> MayActSomewhere(db, principal, "approve"))
              && (r.value.mayManageSourceFeed <==> MayActSomewhere(db, principal, "manage_source_feed"))
              && (r.value.mayRunJob <==> MayActSomewhere(db, principal, "run_job"))
    ensures r.Err? ==> r.error == DatabaseError
  {
    var doms := Evaluator.DomainIdsWithGrant(db, principal, listFails);
    if doms.None? {
      return Err(DatabaseError);
    }
    var ids := doms.value;
    var publish, approve, manage, run := false, false, false, false;
    for i := 0 to |ids|
      invariant FlagSound(publish, db, principal, ids[..i], "publish")
      invariant FlagSound(approve, db, principal, ids[..i], "approve")
      invariant FlagSound(manage, db, principal, ids[..i], "manage_source_feed")
      invariant FlagSound(run, db, principal, ids[..i], "run_job")
      invariant NoFaults(faults) ==>
                  && FlagComplete(publish, db, principal, ids[..i], "publish")
                  && FlagComplete(approve, db, principal, ids[..i], "approve")
                  && FlagComplete(manage, db, principal, ids[..i], "manage_source_feed")
                  && FlagComplete(run, db, principal, ids[..i], "run_job")
    {
      var p := RaiseFlag(db, faults, principal, ids, i, "publish", publish);
      if p.None? { return Err(DatabaseError); }
      var a := RaiseFlag(db, faults, principal, ids, i, "approve", approve);
      if a.None? { return Err(DatabaseError); }
      var m := RaiseFlag(db, faults, principal, ids, i, "manage_source_feed", manage);
      if m.None? { return Err(DatabaseError); }
      var j := RaiseFlag(db, faults, principal, ids, i, "run_job", run);
      if j.None? { return Err(DatabaseError); }
      publish, approve, manage, run := p.value, a.value, m.value, j.value;
    }
    assert ids[..|ids|] == ids;
    SomewhereIsGranted(db, principal, ids, "publish");
    SomewhereIsGranted(db, principal, ids, "approve");
    SomewhereIsGranted(db, principal, ids, "manage_source_feed");
    SomewhereIsGranted(db, principal, ids, "run_job");
    assert ids == [] <==> Evaluator.GrantedDomains(db, principal) == {} by {
      assert ids != [] ==> ids[0] in Evaluator.GrantedDomains(db, principal);
    }
    return Ok(Navigation(|ids| > 0, publish, approve, manage, run));
  }

  ghost function Publishable(db: Db, principal: Uuid, ids: seq<Uuid>): seq<Uuid> {
    if ids == [] then []
    else Publishable(db, principal, ids[..|ids| - 1])
         + if MayAct(db, principal, ids[|ids| - 1], "publish") then [ids[|ids| - 1]] else []
  }

  lemma {:induction false} PublishableFacts(db: Db, principal: Uuid, ids: seq<Uuid>)
    ensures forall d :: d in Publishable(db, principal, ids) <==> d in ids && MayAct(db, principal, d, "publish")
  {
    if ids != [] {
      PublishableFacts(db, principal, ids[..|ids| - 1]);
      assert ids == ids[..|ids| - 1] + [ids[|ids| - 1]];
    }
  }

  /** The granted domains one may publish in, in the order the grants were listed. */
  method GovernancePublishDomainIds(db: Db, listFails: bool, faults: Faults, principal: Uuid)
    returns (r: Result<seq<Uuid>, Error>, ghost granted: seq<Uuid>)
    ensures r.Ok? ==> r.value != [] && forall d | d in r.value :: MayAct(db, principal, d, "publish")
    ensures !listFails && NoFaults(faults) ==>
              && Evaluator.Enumerates(granted, Evaluator.GrantedDomains(db, principal))
              && r == (if MayActSomewhere(db, principal, "publish")
                       then Ok(Publishable(db, principal, granted)) else Err(Forbidden))
  {
    granted := [];
    var doms := Evaluator.DomainIdsWithGrant(db, principal, listFails);
    if doms.None? {
      return Err(DatabaseError), [];
    }
    var ids := doms.value;
    granted := ids;
    var out: seq<Uuid> := [];
    for i := 0 to |ids|
      invariant forall d | d in out :: MayAct(db, principal, d, "publish")
      invariant NoFaults(faults) ==> out == Publishable(db, principal, ids[..i])
    {
      assert ids[..i + 1][..i] == ids[..i];
      var ok := AllowAction(db, faults, principal, ids[i], "publish");
      if ok.None? {
        return Err(DatabaseError), ids;
      }
      if ok.value {
        out := out + [ids[i]];
      }
    }
    assert ids[..|ids|] == ids;
    PublishableFacts(db, principal, ids);
    SomewhereIsGranted(db, principal, ids, "publish");
    if |out| == 0 {
      return Err(Forbidden), ids;
    }
    assert out[0] in out;
    return Ok(out), ids;
  }

  method RequireCanManageIdentity(db: Db, listFails: bool, faults: Faults, principal: Uuid)
    returns (r: Result<(), Error>)
    ensures r.Ok? ==> MayActSomewhere(db, principal, "publish")
    ensures !listFails && NoFaults(faults) ==>
              r == if MayActSomewhere(db, principal, "publish") then Ok(()) else Err(Forbidden)
  {
    var doms := Evaluator.DomainIdsWithGrant(db, principal, listFails);
    if doms.None? {
      return Err(DatabaseError);
    }
    var ids := doms.value;
    for i := 0 to |ids|
      invariant NoFaults(faults) ==> forall d | d in ids[..i] :: !MayAct(db, principal, d, "publish")
    {
      assert ids[..i + 1] == ids[..i] + [ids[i]];
      var ok := AllowAction(db, faults, principal, ids[i], "publish");
      if ok.None? {
        return Err(DatabaseError);
      }
      if ok.value {
        return Ok(());
      }
    }
    assert ids[..|ids|] == ids;
    SomewhereIsGranted(db, principal, ids, "publish");
    return Err(Forbidden);
  }

  /** With the database up, the three folds agree, and with "some domain at all may be published in". */
  method FoldsAgree(db: Db, faults: Faults, principal: Uuid)
    returns (navigation: bool, manages: bool, publishes: bool)
    requires NoFaults(faults)
    ensures navigation == manages == publishes
    ensures navigation <==> MayActSomewhere(db, principal, "publish")
  {
    var n := ComputeNavigationVisibility(db, false, faults, principal);
    var m := RequireCanManageIdentity(db, false, faults, principal);
    var p, _ := GovernancePublishDomainIds(db, false, faults, principal);
    return n.value.mayPublish, m.Ok?, p.Ok?;
  }

  /** Publishing in a domain, on the rows: an unexpired grant to write or administer, and an
      unexpired binding to an active role that holds the action there. */
  lemma PublishOnRows(db: Db, principal: Uuid, domain: Uuid)
    ensures MayAct(db, principal, domain, "publish")
            <==> && principal != NIL && principal !in db.denials
                 && (principal, domain) in db.grants
                 && db.grants[(principal, domain)].level in {"write", "admin"}
                 && !AccessRows.Expired(db.grants[(principal, domain)].expires, db.now)
                 && exists b :: && b in db.bindings && b.user == principal && b.role in db.roles
                                && !AccessRows.Expired(b.expires, db.now)
                                && (b.scopeType == "global" || (b.scopeType == "domain" && b.scopeId == Some(domain)))
                                && db.roles[b.role].active && "publish" in db.roles[b.role].actions
                                && (db.roles[b.role].domains == {} || domain in db.roles[b.role].domains)
  {
    var r := DomainRequest(principal, domain, "publish");
    AccessRows.PlainAction("publish");
    AccessRows.PermittedOnRows(db, r);
    assert !AccessRows.AclNames(db, r, "deny");
    if b :| b in db.bindings && AccessRows.Confers(b, db, r) {
      assert b.user == principal;
    }
  }

  /** The feed right of the navigation is the right to manage sources. */
  lemma FeedRightIsSources(db: Db, principal: Uuid, domain: Uuid)
    ensures MayAct(db, principal, domain, "manage_source_feed") <==> MayAct(db, principal, domain, "manage_sources")
  {
    AccessRows.PlainAction("manage_source_feed");
    AccessRows.PlainAction("manage_sources");
    var r, s := DomainRequest(principal, domain, "manage_source_feed"), DomainRequest(principal, domain, "manage_sources");
    forall g: Gate ensures Passes(g, db, r) == Passes(g, db, s) {}
  }
}
