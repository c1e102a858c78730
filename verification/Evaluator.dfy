/** `Evaluate` step by step, proved to give the verdict of the rule (identity_access/access.go). */
module Evaluator {
  import opened Wrappers
  import opened Text
  import opened Access

  /** The stages before k let the request through. */
  ghost predicate Reached(db: Db, faults: set<Query>, r: Request, k: nat)
    requires k <= STAGES
  {
    forall j | 0 <= j < k :: !Stops(StageAt(j), db, faults, r)
  }

  lemma PassStage(db: Db, faults: set<Query>, r: Request, k: nat, s: Stage)
    requires k < STAGES && Reached(db, faults, r, k) && s == StageAt(k) && !Stops(s, db, faults, r)
    ensures Reached(db, faults, r, k + 1)
  {}

  lemma PassTwo(db: Db, faults: set<Query>, r: Request, k: nat, s: Stage, t: Stage)
    requires k + 1 < STAGES && Reached(db, faults, r, k) && s == StageAt(k) && t == StageAt(k + 1)
    requires !Stops(s, db, faults, r) && !Stops(t, db, faults, r)
    ensures Reached(db, faults, r, k + 2)
  {
    PassStage(db, faults, r, k, s);
    PassStage(db, faults, r, k + 1, t);
  }

  /** The pipeline ends at stage k: nothing before it stops, and it stops or is past the last. */
  ghost predicate EndsAt(db: Db, faults: set<Query>, r: Request, k: nat) {
    k <= STAGES && Reached(db, faults, r, k) && (k < STAGES ==> Stops(StageAt(k), db, faults, r))
  }

  lemma EndIsFirstStop(db: Db, faults: set<Query>, r: Request, k: nat)
    requires EndsAt(db, faults, r, k)
    ensures Judge(db, faults, r) == VerdictAt(db, r, k)
  {
    StopsFirstAt(db, faults, r, k, 0);
  }

  /** The verdict when a gate stops the pipeline. */
  lemma DeniesAt(db: Db, faults: set<Query>, r: Request, k: nat, g: Gate)
    requires k < STAGES && Reached(db, faults, r, k) && StageAt(k) == Check(g) && Stops(Check(g), db, faults, r)
    ensures Judge(db, faults, r) == Decided(Denial(db, r, k, g))
  {
    EndIsFirstStop(db, faults, r, k);
  }

  /** The verdict when a failing query stops it. */
  lemma FailsAt(db: Db, faults: set<Query>, r: Request, k: nat, q: Query)
    requires k < STAGES && Reached(db, faults, r, k) && StageAt(k) == Ask(q) && Stops(Ask(q), db, faults, r)
    ensures Judge(db, faults, r) == Failed(q)
  {
    EndIsFirstStop(db, faults, r, k);
  }

  /** Collects the narrowing scopes of the domain, then searches them. */
  method EntityTypeAllowedForDomain(db: Db, domain: Uuid, entityType: string) returns (ok: bool)
    ensures ok <==> TypeAllowedInDomain(db, domain, entityType)
  {
    var scopes: seq<string> := [];
    for i := 0 to |db.policies|
      invariant forall p | p in db.policies[..i] && Narrows(p, domain) :: SqlTrim(p.typeScope.value) in scopes
      invariant forall s | s in scopes :: exists p :: p in db.policies[..i] && Narrows(p, domain) && SqlTrim(p.typeScope.value) == s
    {
      var p := db.policies[i];
      assert db.policies[..i + 1] == db.policies[..i] + [p];
      if Narrows(p, domain) {
        scopes := scopes + [SqlTrim(p.typeScope.value)];
      }
    }
    assert db.policies[..|db.policies|] == db.policies;
    if |scopes| == 0 {
      return true;
    }
    assert scopes[0] in scopes;
    for i := 0 to |scopes|
      invariant forall s | s in scopes[..i] :: !ScopeAdmits(s, entityType)
    {
      if ScopeAdmits(scopes[i], entityType) {
        assert scopes[i] in scopes;
        return true;
      }
    }
    return false;
  }

  method RoleEntityTypeAllowed(db: Db, user: Uuid, domain: Uuid, action: string, entityType: string) returns (ok: bool)
    ensures ok <==> RoleTypes(db, user, domain, action) == {} || entityType in RoleTypes(db, user, domain, action)
  {
    var allowed := RoleTypes(db, user, domain, action);
    if allowed == {} {
      return true;
    }
    var left := allowed;
    while left != {}
      invariant left <= allowed && (entityType in allowed ==> entityType in left)
      decreases left
    {
      var t :| t in left;
      if t == entityType {
        return true;
      }
      left := left - {t};
    }
    return false;
  }

  lemma MatchedStep(live: seq<Override>, i: nat)
    requires i < |live|
    ensures MatchedOverrides(live[i..])
            == if live[i].kind == "deny" then [live[i].id]
               else if live[i].kind == "allow" then [live[i].id] + MatchedOverrides(live[i + 1..])
               else MatchedOverrides(live[i + 1..])
  {
    assert live[i..][1..] == live[i + 1..];
  }

  /** Scans the live overrides; stops at the first deny. */
  method ScanOverrides(live: seq<Override>) returns (matched: seq<Uuid>, denied: bool)
    ensures matched == MatchedOverrides(live)
    ensures denied <==> exists o :: o in live && o.kind == "deny"
  {
    matched := [];
    assert live[0..] == live;
    for i := 0 to |live|
      invariant matched + MatchedOverrides(live[i..]) == MatchedOverrides(live)
      invariant forall j | 0 <= j < i :: live[j].kind != "deny"
    {
      MatchedStep(live, i);
      if live[i].kind == "deny" {
        assert live[i] in live;
        return matched + [live[i].id], true;
      }
      if live[i].kind == "allow" {
        matched := matched + [live[i].id];
      }
    }
    return matched, false;
  }

  lemma {:induction false} LiveOverridesIn(list: seq<Override>, db: Db, r: Request)
    ensures forall o :: o in LiveOverrides(list, db, r) <==> o in list && Targets(o, db, r)
    ensures r.resourceId.None? ==> LiveOverrides(list, db, r) == []
  {
    if list != [] {
      LiveOverridesIn(list[1..], db, r);
      assert list == [list[0]] + list[1..];
    }
  }

  /** The decision before any gate: a denial for want of a principal. */
  function Blank(r: Request): Decision {
    Decision(false, Reason(HasPrincipal), Reason(HasPrincipal), [], [], true, r.sensitivity, r.domain, Skipped)
  }

  /** The decision once the overrides are loaded. */
  function Loaded(db: Db, r: Request): Decision {
    Blank(r).(matchedOverrides := MatchedOverrides(LiveOverrides(db.overrides, db, r)))
  }

  /** A denial at a gate: the reason, mirrored in the matched rule. */
  function Deny(dec: Decision, g: Gate): Verdict {
    Decided(dec.(reason := Reason(g), matchedRule := Reason(g)))
  }

  /** The pipeline gives the verdict of the rule, whatever queries fail. */
  method Evaluate(db: Db, faults: set<Query>, r: Request) returns (v: Verdict)
    ensures v == Judge(db, faults, r)
  {
    var dec := Blank(r);

    // 1. Principal
    if r.principal == NIL {
      DeniesAt(db, faults, r, 0, HasPrincipal);
      return Deny(dec, HasPrincipal);
    }
    PassStage(db, faults, r, 0, Check(HasPrincipal));

    // 2. Global deny
    if GlobalDenyQ in faults {
      FailsAt(db, faults, r, 1, GlobalDenyQ);
      return Failed(GlobalDenyQ);
    }
    PassStage(db, faults, r, 1, Ask(GlobalDenyQ));
    if r.principal in db.denials {
      DeniesAt(db, faults, r, 2, NotBlocked);
      return Deny(dec, NotBlocked);
    }
    PassStage(db, faults, r, 2, Check(NotBlocked));

    // 3. Policy overrides
    if r.resourceId.Some? && OverridesQ in faults {
      FailsAt(db, faults, r, 3, OverridesQ);
      return Failed(OverridesQ);
    }
    PassStage(db, faults, r, 3, Ask(OverridesQ));
    LiveOverridesIn(db.overrides, db, r);
    var live := if r.resourceId.None? then [] else LiveOverrides(db.overrides, db, r);
    var matched, denied := ScanOverrides(live);
    dec := dec.(matchedOverrides := matched);
    if denied {
      DeniesAt(db, faults, r, 4, NoDenyOverride);
      return Deny(dec, NoDenyOverride);
    }
    PassStage(db, faults, r, 4, Check(NoDenyOverride));

    // 4. Entity ACL
    var stop, aclAllowBypass := CheckEntityAcl(db, faults, r, dec);
    if stop.Some? {
      return stop.value;
    }
    v := EvaluateInDomain(db, faults, r, dec, aclAllowBypass);
  }

  /** Step 4: an ACL deny stops; an ACL allow is remembered for the type policy. */
  method CheckEntityAcl(db: Db, faults: set<Query>, r: Request, dec: Decision)
    returns (stop: Option<Verdict>, aclAllowBypass: bool)
    requires Reached(db, faults, r, 5) && dec == Loaded(db, r)
    ensures stop.Some? ==> stop.value == Judge(db, faults, r)
    ensures stop.None? ==> Reached(db, faults, r, 8) && (aclAllowBypass <==> TypeBypass(db, r))
  {
    var action := NormalizeAction(r.action);
    if r.resourceType == "entity" && r.resourceId.Some? {
      if AclDenyQ in faults {
        FailsAt(db, faults, r, 5, AclDenyQ);
        return Some(Failed(AclDenyQ)), false;
      }
      PassStage(db, faults, r, 5, Ask(AclDenyQ));
      if AclApplies(db, r.resourceId.value, r.principal, "deny") {
        DeniesAt(db, faults, r, 6, NoAclDeny);
        return Some(Deny(dec, NoAclDeny)), false;
      }
      PassStage(db, faults, r, 6, Check(NoAclDeny));
      if AclAllowQ in faults {
        FailsAt(db, faults, r, 7, AclAllowQ);
        return Some(Failed(AclAllowQ)), false;
      }
      PassStage(db, faults, r, 7, Ask(AclAllowQ));
      var allowRow := AclApplies(db, r.resourceId.value, r.principal, "allow");
      return None, allowRow && (action == "view" || action == "search");
    }
    PassTwo(db, faults, r, 5, Ask(AclDenyQ), Check(NoAclDeny));
    PassStage(db, faults, r, 7, Ask(AclAllowQ));
    return None, false;
  }

  /** Steps 5 to 9, from the domain on. */
  method EvaluateInDomain(db: Db, faults: set<Query>, r: Request, dec: Decision, aclAllowBypass: bool)
    returns (v: Verdict)
    requires Reached(db, faults, r, 8) && dec == Loaded(db, r)
    requires aclAllowBypass <==> TypeBypass(db, r)
    ensures v == Judge(db, faults, r)
  {
    // 5. Domain scope
    if r.domain.None? {
      DeniesAt(db, faults, r, 8, DomainGiven);
      return Deny(dec, DomainGiven);
    }
    PassStage(db, faults, r, 8, Check(DomainGiven));
    var grant := if GrantQ in faults then None else LiveGrant(db, r.principal, r.domain.value);
    if grant.None? {
      DeniesAt(db, faults, r, 9, Granted);
      return Deny(dec, Granted);
    }
    PassStage(db, faults, r, 9, Check(Granted));

    // 6. Entity type
    var stop := CheckEntityType(db, faults, r, dec, aclAllowBypass);
    if stop.Some? {
      return stop.value;
    }
    v := CheckAction(db, faults, r, dec, grant.value);
  }

  /** Steps 6 and 6b: entity type against the domain policy, then against the role union. */
  method CheckEntityType(db: Db, faults: set<Query>, r: Request, dec: Decision, aclAllowBypass: bool)
    returns (stop: Option<Verdict>)
    requires Reached(db, faults, r, 10) && r.domain.Some? && dec == Loaded(db, r)
    requires aclAllowBypass <==> TypeBypass(db, r)
    ensures stop.Some? ==> stop.value == Judge(db, faults, r)
    ensures stop.None? ==> Reached(db, faults, r, 14)
  {
    if r.resourceType == "entity" && r.entityType.Some? && TrimSpace(r.entityType.value) != "" {
      stop := CheckTypePolicy(db, faults, r, dec, aclAllowBypass);
      if stop.None? {
        stop := CheckRoleTypes(db, faults, r, dec);
      }
      return;
    }
    PassTwo(db, faults, r, 10, Ask(TypeScopeQ), Check(TypeInPolicy));
    PassTwo(db, faults, r, 12, Ask(RoleTypeQ), Check(TypeInRoles));
    return None;
  }

  method CheckTypePolicy(db: Db, faults: set<Query>, r: Request, dec: Decision, aclAllowBypass: bool)
    returns (stop: Option<Verdict>)
    requires Reached(db, faults, r, 10) && r.domain.Some? && Typed(r) && dec == Loaded(db, r)
    requires aclAllowBypass <==> TypeBypass(db, r)
    ensures stop.Some? ==> stop.value == Judge(db, faults, r)
    ensures stop.None? ==> Reached(db, faults, r, 12)
  {
    var action := NormalizeAction(r.action);
    if TypeScopeQ in faults {
      FailsAt(db, faults, r, 10, TypeScopeQ);
      return Some(Failed(TypeScopeQ));
    }
    PassStage(db, faults, r, 10, Ask(TypeScopeQ));
    var ok := EntityTypeAllowedForDomain(db, r.domain.value, TypeOf(r));
    if !ok && !(aclAllowBypass && (action == "view" || action == "search")) {
      DeniesAt(db, faults, r, 11, TypeInPolicy);
      return Some(Deny(dec, TypeInPolicy));
    }
    PassStage(db, faults, r, 11, Check(TypeInPolicy));
    return None;
  }

  method CheckRoleTypes(db: Db, faults: set<Query>, r: Request, dec: Decision)
    returns (stop: Option<Verdict>)
    requires Reached(db, faults, r, 12) && r.domain.Some? && Typed(r) && dec == Loaded(db, r)
    ensures stop.Some? ==> stop.value == Judge(db, faults, r)
    ensures stop.None? ==> Reached(db, faults, r, 14)
  {
    if RoleTypeQ in faults {
      FailsAt(db, faults, r, 12, RoleTypeQ);
      return Some(Failed(RoleTypeQ));
    }
    PassStage(db, faults, r, 12, Ask(RoleTypeQ));
    var ok := RoleEntityTypeAllowed(db, r.principal, r.domain.value, NormalizeAction(r.action), TypeOf(r));
    if !ok {
      DeniesAt(db, faults, r, 13, TypeInRoles);
      return Some(Deny(dec, TypeInRoles));
    }
    PassStage(db, faults, r, 13, Check(TypeInRoles));
    return None;
  }

  /** Steps 7 to 9: role action, access level, sensitivity, and the allow. */
  method CheckAction(db: Db, faults: set<Query>, r: Request, dec: Decision, grant: Grant)
    returns (v: Verdict)
    requires Reached(db, faults, r, 14) && r.domain.Some? && dec == Loaded(db, r)
    requires LiveGrant(db, r.principal, r.domain.value) == Some(grant)
    ensures v == Judge(db, faults, r)
  {
    var action, domain := NormalizeAction(r.action), r.domain.value;

    // 7. Role and access level
    if RoleActionQ in faults {
      FailsAt(db, faults, r, 14, RoleActionQ);
      return Failed(RoleActionQ);
    }
    PassStage(db, faults, r, 14, Ask(RoleActionQ));
    if !UserHasRoleAction(db, r.principal, domain, action) {
      DeniesAt(db, faults, r, 15, RoleHasAction);
      return Deny(dec, RoleHasAction);
    }
    PassStage(db, faults, r, 15, Check(RoleHasAction));
    if !LevelAllowsAction(grant.level, action) {
      DeniesAt(db, faults, r, 16, LevelSuffices);
      return Deny(dec, LevelSuffices);
    }
    PassStage(db, faults, r, 16, Check(LevelSuffices));

    v := CheckSensitivity(db, faults, r, dec, grant);
  }

  /** Steps 8 and 9: the sensitivity cap, then the allow with its policies. */
  method CheckSensitivity(db: Db, faults: set<Query>, r: Request, dec: Decision, grant: Grant)
    returns (v: Verdict)
    requires Reached(db, faults, r, 17) && r.domain.Some? && dec == Loaded(db, r)
    requires LiveGrant(db, r.principal, r.domain.value) == Some(grant)
    ensures v == Judge(db, faults, r)
  {
    // 8. Sensitivity
    if r.sensitivity.Some? && r.sensitivity.value > grant.cap {
      var over := dec.(sensitivityOk := false, sensitivityResult := ExceedsCap(r.sensitivity.value, grant.cap));
      DeniesAt(db, faults, r, 17, WithinSensitivity);
      return Deny(over, WithinSensitivity);
    }
    PassStage(db, faults, r, 17, Check(WithinSensitivity));

    // 9. Policies and allow
    if PoliciesQ in faults {
      FailsAt(db, faults, r, 18, PoliciesQ);
      return Failed(PoliciesQ);
    }
    PassStage(db, faults, r, 18, Ask(PoliciesQ));
    v := Decided(dec.(allow := true, reason := ALLOW_OK, matchedRule := ALLOW_OK,
                      matchedPolicies := PolicyIds(db.policies, r.domain.value),
                      sensitivityResult := if r.sensitivity.Some?
                                           then SensitivityResult.WithinCap(r.sensitivity.value, grant.cap) else NoLevel));
    EndIsFirstStop(db, faults, r, STAGES);
  }

  // ---- domains with a live grant

  function GrantedDomains(db: Db, user: Uuid): set<Uuid> {
    if user == NIL then {}
    else set k | k in db.grants.Keys && k.0 == user && Live(db.grants[k].expires, db.now) :: k.1
  }

  ghost predicate Enumerates(ids: seq<Uuid>, s: set<Uuid>) {
    && (forall i, j | 0 <= i < j < |ids| :: ids[i] != ids[j])
    && (forall d :: d in ids <==> d in s)
  }

  /** The rows of one user's live grants, in whatever order the table gives them. */
  method DomainIdsWithGrant(db: Db, user: Uuid, queryFails: bool) returns (ids: Option<seq<Uuid>>)
    ensures ids.None? <==> queryFails && user != NIL
    ensures ids.Some? ==> Enumerates(ids.value, GrantedDomains(db, user))
  {
    if user == NIL {
      return Some([]);
    }
    if queryFails {
      return None;
    }
    var out: seq<Uuid> := [];
    var left := GrantedDomains(db, user);
    while left != {}
      invariant left <= GrantedDomains(db, user)
      invariant Enumerates(out, GrantedDomains(db, user) - left)
      decreases left
    {
      var d :| d in left;
      out, left := out + [d], left - {d};
    }
    return Some(out);
  }

  /** Whatever the tables permit lies in a domain the principal holds a grant on. */
  lemma PermittedNeedsGrant(db: Db, r: Request)
    requires Permitted(db, r)
    ensures r.domain.Some? && r.domain.value in GrantedDomains(db, r.principal)
  {
    assert Passes(HasPrincipal, db, r) && Passes(Granted, db, r);
    assert (r.principal, r.domain.value) in db.grants.Keys;
  }
}
