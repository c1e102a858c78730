/** The permission rule read off the rows: which rows an allow rests on, and what expiry does. */
module AccessRows {
  import opened Wrappers
  import opened Access
  import Text
  import AccessRules
  import Evaluator

  predicate Expired(expires: Option<int>, now: int) {
    expires.Some? && expires.value <= now
  }

  // ---- two databases that answer every query of a request alike

  predicate SameGrant(g: Option<Grant>, h: Option<Grant>) {
    (g.Some? <==> h.Some?) && (g.Some? ==> g.value.level == h.value.level && g.value.cap == h.value.cap)
  }

  ghost predicate SameRoleAnswers(db: Db, db': Db, r: Request) {
    r.domain.Some? ==>
      var action := NormalizeAction(r.action);
      && UserHasRoleAction(db', r.principal, r.domain.value, action)
         == UserHasRoleAction(db, r.principal, r.domain.value, action)
      && RoleTypes(db', r.principal, r.domain.value, action) == RoleTypes(db, r.principal, r.domain.value, action)
  }

  ghost predicate Alike(db: Db, db': Db, r: Request) {
    && db' == db.(overrides := db'.overrides, grants := db'.grants, bindings := db'.bindings)
    && MatchedOverrides(LiveOverrides(db'.overrides, db', r)) == MatchedOverrides(LiveOverrides(db.overrides, db, r))
    && (AccessRules.Refusing(db'.overrides, db', r) <==> AccessRules.Refusing(db.overrides, db, r))
    && (r.domain.Some? ==>
          SameGrant(LiveGrant(db', r.principal, r.domain.value), LiveGrant(db, r.principal, r.domain.value)))
    && SameRoleAnswers(db, db', r)
  }

  lemma AlikePasses(db: Db, db': Db, r: Request, g: Gate)
    requires Alike(db, db', r)
    ensures Passes(g, db', r) == Passes(g, db, r)
  {
    if g == NoDenyOverride {
      assert Passes(g, db, r) <==> !AccessRules.Refusing(db.overrides, db, r);
      assert Passes(g, db', r) <==> !AccessRules.Refusing(db'.overrides, db', r);
    }
  }

  lemma AlikeJudge(db: Db, db': Db, faults: set<Query>, r: Request)
    requires Alike(db, db', r)
    ensures Judge(db', faults, r) == Judge(db, faults, r)
  {
    forall j: nat | j < STAGES ensures Stops(StageAt(j), db, faults, r) == Stops(StageAt(j), db', faults, r) {
      if StageAt(j).Check? {
        AlikePasses(db, db', r, StageAt(j).g);
      }
    }
    AccessRules.SameStops(db, faults, db', faults, r, 0);
    AlikeVerdict(db, db', r, FirstStop(db, faults, r, 0));
  }

  lemma AlikeVerdict(db: Db, db': Db, r: Request, k: nat)
    requires Alike(db, db', r) && k <= STAGES
    ensures VerdictAt(db', r, k) == VerdictAt(db, r, k)
  {
    assert CapOf(db', r) == CapOf(db, r);
  }

  // ---- expired rows count for nothing

  function Unexpired(list: seq<Override>, now: int): seq<Override> {
    if list == [] then []
    else (if Expired(list[0].expires, now) then [] else [list[0]]) + Unexpired(list[1..], now)
  }

  function WithoutExpired(db: Db): Db {
    db.(overrides := Unexpired(db.overrides, db.now),
        grants := map k | k in db.grants && !Expired(db.grants[k].expires, db.now) :: db.grants[k],
        bindings := set b | b in db.bindings && !Expired(b.expires, db.now))
  }

  lemma {:induction false} UnexpiredLive(list: seq<Override>, db: Db, db': Db, r: Request)
    requires db'.now == db.now
    ensures LiveOverrides(Unexpired(list, db.now), db', r) == LiveOverrides(list, db, r)
    ensures AccessRules.Refusing(Unexpired(list, db.now), db', r) <==> AccessRules.Refusing(list, db, r)
  {
    if list != [] {
      UnexpiredLive(list[1..], db, db', r);
      var rest := Unexpired(list[1..], db.now);
      assert list == [list[0]] + list[1..];
      if Expired(list[0].expires, db.now) {
        assert Unexpired(list, db.now) == rest;
      } else {
        assert Unexpired(list, db.now) == [list[0]] + rest && ([list[0]] + rest)[1..] == rest;
      }
    }
  }

  lemma RolesWithoutExpired(db: Db, r: Request)
    ensures SameRoleAnswers(db, WithoutExpired(db), r)
  {
    var db' := WithoutExpired(db);
    if r.domain.Some? {
      var user, domain, action := r.principal, r.domain.value, NormalizeAction(r.action);
      assert forall b :: b in db'.bindings && Applies(b, db', user, domain, action)
                         <==> b in db.bindings && Applies(b, db, user, domain, action);
    }
  }

  /** A grant, binding or override whose time has come might as well not be there. */
  lemma ExpiredRowsAreInert(db: Db, faults: set<Query>, r: Request)
    ensures Judge(WithoutExpired(db), faults, r) == Judge(db, faults, r)
    ensures Evaluator.GrantedDomains(WithoutExpired(db), r.principal) == Evaluator.GrantedDomains(db, r.principal)
  {
    UnexpiredLive(db.overrides, db, WithoutExpired(db), r);
    RolesWithoutExpired(db, r);
    AlikeJudge(db, WithoutExpired(db), faults, r);
    var db' := WithoutExpired(db);
    forall d: Uuid ensures d in Evaluator.GrantedDomains(db', r.principal) <==> d in Evaluator.GrantedDomains(db, r.principal) {
      assert (r.principal, d) in db'.grants.Keys <==>
        (r.principal, d) in db.grants.Keys && !Expired(db.grants[(r.principal, d)].expires, db.now);
    }
  }

  // ---- rows that have not expired count in full

  ghost predicate NoneExpired(db: Db) {
    && (forall o | o in db.overrides :: !Expired(o.expires, db.now))
    && (forall k | k in db.grants :: !Expired(db.grants[k].expires, db.now))
    && (forall b | b in db.bindings :: !Expired(b.expires, db.now))
  }

  function Endless(list: seq<Override>): seq<Override> {
    if list == [] then [] else [list[0].(expires := None)] + Endless(list[1..])
  }

  /** The same rows, none of which ever expires. */
  function WithoutExpiry(db: Db): Db {
    db.(overrides := Endless(db.overrides),
        grants := map k | k in db.grants :: db.grants[k].(expires := None),
        bindings := set b | b in db.bindings :: b.(expires := None))
  }

  lemma {:induction false} EndlessLive(list: seq<Override>, db: Db, db': Db, r: Request)
    requires db'.now == db.now && forall o | o in list :: !Expired(o.expires, db.now)
    ensures MatchedOverrides(LiveOverrides(Endless(list), db', r)) == MatchedOverrides(LiveOverrides(list, db, r))
    ensures AccessRules.Refusing(Endless(list), db', r) <==> AccessRules.Refusing(list, db, r)
  {
    if list != [] {
      EndlessLive(list[1..], db, db', r);
      var o := list[0].(expires := None);
      assert list == [list[0]] + list[1..] && Endless(list) == [o] + Endless(list[1..]);
      assert Endless(list)[1..] == Endless(list[1..]);
      assert Targets(o, db', r) == Targets(list[0], db, r);
      AccessRules.MatchedCons(list, db, r);
      AccessRules.MatchedCons(Endless(list), db', r);
      RefusingCons(list[0], list[1..], db, r);
      RefusingCons(o, Endless(list[1..]), db', r);
    }
  }

  lemma RefusingCons(o: Override, rest: seq<Override>, db: Db, r: Request)
    ensures AccessRules.Refusing([o] + rest, db, r)
            <==> (Targets(o, db, r) && o.kind == "deny") || AccessRules.Refusing(rest, db, r)
  {
    assert forall x :: x in [o] + rest <==> x == o || x in rest;
  }

  lemma RolesWithoutExpiry(db: Db, r: Request)
    requires NoneExpired(db)
    ensures SameRoleAnswers(db, WithoutExpiry(db), r)
  {
    var db' := WithoutExpiry(db);
    if r.domain.Some? {
      var user, domain, action := r.principal, r.domain.value, NormalizeAction(r.action);
      forall b | b in db.bindings
        ensures b.(expires := None) in db'.bindings
        ensures Applies(b.(expires := None), db', user, domain, action) == Applies(b, db, user, domain, action)
      {}
      if UserHasRoleAction(db, user, domain, action) {
        var b :| b in db.bindings && Applies(b, db, user, domain, action);
        assert Applies(b.(expires := None), db', user, domain, action);
      }
      assert RoleTypes(db', user, domain, action) == RoleTypes(db, user, domain, action);
    }
  }

  /** Until its time has come a row counts as if it had none. */
  lemma UnexpiredRowsCount(db: Db, faults: set<Query>, r: Request)
    requires NoneExpired(db)
    ensures Judge(WithoutExpiry(db), faults, r) == Judge(db, faults, r)
    ensures Evaluator.GrantedDomains(WithoutExpiry(db), r.principal) == Evaluator.GrantedDomains(db, r.principal)
    ensures r.principal != NIL ==>
              forall d: Uuid :: d in Evaluator.GrantedDomains(db, r.principal) <==> (r.principal, d) in db.grants
  {
    EndlessLive(db.overrides, db, WithoutExpiry(db), r);
    RolesWithoutExpiry(db, r);
    AlikeJudge(db, WithoutExpiry(db), faults, r);
    var db' := WithoutExpiry(db);
    forall d: Uuid
      ensures d in Evaluator.GrantedDomains(db', r.principal) <==> d in Evaluator.GrantedDomains(db, r.principal)
      ensures r.principal != NIL ==> (d in Evaluator.GrantedDomains(db, r.principal) <==> (r.principal, d) in db.grants)
    {
      assert (r.principal, d) in db'.grants.Keys <==> (r.principal, d) in db.grants.Keys;
    }
  }

  // ---- the rows an allow rests on

  /** An ACL row of the target with this effect names the principal, directly or by a team. */
  ghost predicate AclNames(db: Db, r: Request, effect: string) {
    r.resourceType == "entity" && exists a | a in db.acl ::
      && r.resourceId == Some(a.entity) && a.effect == effect
      && (a.principalType == "user" ==> a.principal == r.principal)
      && (a.principalType == "team" ==> (r.principal, a.principal) in db.teams)
      && a.principalType in {"user", "team"}
  }

  /** A binding gives the principal an active role that covers the action in the domain. */
  predicate Confers(b: Binding, db: Db, r: Request) {
    && b.user == r.principal && b.role in db.roles && !Expired(b.expires, db.now)
    && r.domain.Some? && (b.scopeType == "global" || (b.scopeType == "domain" && b.scopeId == r.domain))
    && var role := db.roles[b.role];
       && role.active && NormalizeAction(r.action) in role.actions
       && (role.domains != {} ==> r.domain.value in role.domains)
  }

  ghost predicate GrantSuffices(db: Db, r: Request) {
    && r.domain.Some? && (r.principal, r.domain.value) in db.grants
    && var g := db.grants[(r.principal, r.domain.value)];
       && !Expired(g.expires, db.now) && LevelAllowsAction(g.level, NormalizeAction(r.action))
       && (r.sensitivity.Some? ==> r.sensitivity.value <= g.cap)
  }

  ghost predicate TypeFits(db: Db, r: Request)
    requires r.domain.Some? && Typed(r)
  {
    && (TypeAllowedInDomain(db, r.domain.value, TypeOf(r))
        || (AclNames(db, r, "allow") && NormalizeAction(r.action) in {"view", "search"}))
    && ((exists b :: b in db.bindings && Confers(b, db, r) && TypeOf(r) in db.roles[b.role].types)
        || forall b | b in db.bindings && Confers(b, db, r) :: db.roles[b.role].types == {})
  }

  ghost predicate Refused(db: Db, r: Request) {
    || r.principal == NIL || r.principal in db.denials || AclNames(db, r, "deny")
    || exists o :: o in db.overrides && o.kind == "deny" && r.resourceId == Some(o.targetId)
                   && o.targetType == r.resourceType && !Expired(o.expires, db.now)
  }

  lemma AclOnRows(db: Db, r: Request, effect: string)
    ensures AclNames(db, r, effect) <==> EntityTarget(r) && AclApplies(db, r.resourceId.value, r.principal, effect)
  {}

  lemma ConfersIsApplies(b: Binding, db: Db, r: Request)
    requires r.domain.Some?
    ensures Confers(b, db, r) <==> Applies(b, db, r.principal, r.domain.value, NormalizeAction(r.action))
  {}

  lemma RoleTypesOnRows(db: Db, r: Request)
    requires r.domain.Some? && Typed(r)
    ensures Passes(TypeInRoles, db, r)
            <==> || (exists b :: b in db.bindings && Confers(b, db, r) && TypeOf(r) in db.roles[b.role].types)
                 || forall b | b in db.bindings && Confers(b, db, r) :: db.roles[b.role].types == {}
  {
    forall b: Binding { ConfersIsApplies(b, db, r); }
    var types := RoleTypes(db, r.principal, r.domain.value, NormalizeAction(r.action));
    if b :| b in db.bindings && Confers(b, db, r) && db.roles[b.role].types != {} {
      var t :| t in db.roles[b.role].types;
      assert t in types;
    }
    if types != {} {
      var t :| t in types;
    }
  }

  /** What is permitted, said of single rows: nothing refuses, an unexpired grant suffices in level
      and cap, some binding confers the action, and the type of an entity fits. */
  lemma PermittedOnRows(db: Db, r: Request)
    ensures Permitted(db, r)
            <==> && !Refused(db, r) && GrantSuffices(db, r)
                 && (exists b :: b in db.bindings && Confers(b, db, r))
                 && (Typed(r) ==> TypeFits(db, r))
  {
    if Permitted(db, r) {
      PermittedHasRows(db, r);
    }
    if !Refused(db, r) && GrantSuffices(db, r) && (exists b :: b in db.bindings && Confers(b, db, r))
       && (Typed(r) ==> TypeFits(db, r)) {
      forall g: Gate ensures Passes(g, db, r) {
        RowsPass(g, db, r);
      }
    }
  }

  lemma PermittedHasRows(db: Db, r: Request)
    requires Permitted(db, r)
    ensures !Refused(db, r) && GrantSuffices(db, r) && (exists b :: b in db.bindings && Confers(b, db, r))
    ensures Typed(r) ==> TypeFits(db, r)
  {
    assert Passes(HasPrincipal, db, r) && Passes(NotBlocked, db, r) && Passes(NoDenyOverride, db, r);
    assert Passes(NoAclDeny, db, r) && Passes(Granted, db, r) && Passes(LevelSuffices, db, r);
    assert Passes(WithinSensitivity, db, r) && Passes(RoleHasAction, db, r);
    assert Passes(TypeInPolicy, db, r) && Passes(TypeInRoles, db, r);
    AclOnRows(db, r, "deny");
    AclOnRows(db, r, "allow");
    forall b: Binding { ConfersIsApplies(b, db, r); }
    if Typed(r) {
      RoleTypesOnRows(db, r);
    }
    forall o | o in db.overrides && o.kind == "deny" && r.resourceId == Some(o.targetId) && o.targetType == r.resourceType
      ensures Expired(o.expires, db.now)
    {
      assert !Targets(o, db, r);
    }
  }

  lemma RowsPass(g: Gate, db: Db, r: Request)
    requires !Refused(db, r) && GrantSuffices(db, r) && exists b :: b in db.bindings && Confers(b, db, r)
    requires Typed(r) ==> TypeFits(db, r)
    ensures Passes(g, db, r)
  {
    AclOnRows(db, r, "deny");
    AclOnRows(db, r, "allow");
    forall b: Binding { ConfersIsApplies(b, db, r); }
    if Typed(r) {
      RoleTypesOnRows(db, r);
    }
  }

  /** Lower-case actions without white space stand for themselves, but for one alias. */
  lemma PlainAction(action: string)
    requires Text.Trimmed(action) && forall i | 0 <= i < |action| :: !('A' <= action[i] <= 'Z')
    ensures NormalizeAction(action) == if action == "manage_source_feed" then "manage_sources" else action
  {
    assert Lower(action) == action;
    Text.TrimFacts(action);
  }

  // ---- viewing an entity

  /** The request every view check of an entity makes. */
  function EntityView(principal: Uuid, id: Uuid, domain: Uuid, sensitivity: int, entityType: string): Request {
    Request(principal, "view", "entity", Some(id), Some(domain), Some(sensitivity), Some(entityType))
  }

  /** What viewing needs, on the rows: an unexpired grant on the entity's own domain whose cap covers
      its own sensitivity, a role that confers viewing there, no denial of the entity, and a type
      that the domain's policies admit or an ACL row makes up for. */
  lemma EntityViewOnRows(db: Db, principal: Uuid, id: Uuid, domain: Uuid, sensitivity: int, entityType: string)
    requires Permitted(db, EntityView(principal, id, domain, sensitivity, entityType))
    ensures (principal, domain) in db.grants
    ensures var g := db.grants[(principal, domain)];
            sensitivity <= g.cap && !Expired(g.expires, db.now) && g.level in {"read", "write", "admin"}
    ensures exists b :: b in db.bindings && b.user == principal && b.role in db.roles
                        && "view" in db.roles[b.role].actions && db.roles[b.role].active
    ensures forall a | a in db.acl && a.entity == id && a.effect == "deny" ::
              && !(a.principalType == "user" && a.principal == principal)
              && !(a.principalType == "team" && (principal, a.principal) in db.teams)
    ensures forall o | o in db.overrides && o.targetType == "entity" && o.targetId == id && o.kind == "deny" ::
              Expired(o.expires, db.now)
    ensures var t := Text.TrimSpace(entityType);
            t != "" && !TypeAllowedInDomain(db, domain, t) ==> AclApplies(db, id, principal, "allow")
  {
    var r := EntityView(principal, id, domain, sensitivity, entityType);
    PermittedOnRows(db, r);
    PlainAction("view");
    AclOnRows(db, r, "allow");
    var b :| b in db.bindings && Confers(b, db, r);
    assert forall a | a in db.acl && a.entity == id && a.effect == "deny" :: r.resourceId == Some(a.entity);
    assert forall o | o in db.overrides && o.targetId == id :: r.resourceId == Some(o.targetId);
  }

  // ---- type policies

  lemma LowerTwice(s: string)
    ensures Lower(Lower(s)) == Lower(s)
  {}

  /** Type scopes ignore case. */
  lemma TypesIgnoreCase(db: Db, domain: Uuid, entityType: string)
    ensures TypeAllowedInDomain(db, domain, Lower(entityType)) <==> TypeAllowedInDomain(db, domain, entityType)
  {
    LowerTwice(entityType);
    forall scope ensures ScopeAdmits(scope, Lower(entityType)) <==> ScopeAdmits(scope, entityType) {}
  }

  /** A policy narrows a domain only while active there and with a scope; a lone such policy admits
      its own type and nothing else, unless its scope is the wildcard. */
  lemma LonePolicy(db: Db, p: Policy, domain: Uuid, entityType: string)
    requires db.policies == [p] && p.typeScope.Some? && SqlTrim(p.typeScope.value) == p.typeScope.value
    ensures TypeAllowedInDomain(db, domain, entityType)
            <==> || p.domain != Some(domain) || p.status != "active" || p.typeScope.value in {"", "*"}
                 || Lower(p.typeScope.value) == Lower(entityType)
  {
    assert p in db.policies;
  }

  // ---- what a decision records

  /** The policies matched by an allow are the active ones of the domain and of no domain. */
  lemma {:induction false} MatchedPoliciesIff(policies: seq<Policy>, domain: Uuid, id: Uuid)
    ensures id in PolicyIds(policies, domain) <==> exists p :: p in policies && Matches(p, domain, id)
  {
    if policies != [] {
      var p, rest := policies[0], policies[1..];
      MatchedPoliciesIff(rest, domain, id);
      var head := if (p.domain.None? || p.domain.value == domain) && p.status == "active" then [p.id] else [];
      assert PolicyIds(policies, domain) == head + PolicyIds(rest, domain);
      assert id in head <==> Matches(p, domain, id);
      assert forall x :: x in policies <==> x == p || x in rest;
    }
  }

  predicate Matches(p: Policy, domain: Uuid, id: Uuid) {
    p.id == id && p.status == "active" && (p.domain.Some? ==> p.domain.value == domain)
  }

  /** Without a deny among the live overrides exactly the allows are recorded; with one, it is the
      last recorded and the first deny, after the allows before it. */
  lemma {:induction false} MatchedOverridesAre(live: seq<Override>) returns (k: nat)
    ensures k <= |live| && forall i | 0 <= i < k :: live[i].kind != "deny"
    ensures k < |live| ==> live[k].kind == "deny"
    ensures MatchedOverrides(live) == AllowIds(live[..k]) + if k < |live| then [live[k].id] else []
  {
    if live == [] || live[0].kind == "deny" {
      k := 0;
    } else {
      k := MatchedOverridesAre(live[1..]);
      assert live[..k + 1] == [live[0]] + live[1..][..k];
      assert live[..k + 1][1..] == live[1..][..k];
      k := k + 1;
    }
  }

  function AllowIds(live: seq<Override>): seq<Uuid> {
    if live == [] then [] else (if live[0].kind == "allow" then [live[0].id] else []) + AllowIds(live[1..])
  }
}
