/** The permission pipeline (identity_access/access.go, entity_acl.go, action_normalize.go). */
module Access {
  import opened Wrappers
  import opened Text

  type Uuid = nat

  const NIL: Uuid := 0

  datatype Grant = Grant(level: string, cap: int, expires: Option<int>)

  datatype Override = Override(
    id: Uuid, targetType: string, targetId: Uuid, kind: string, status: string, expires: Option<int>)

  datatype AclRow = AclRow(entity: Uuid, principalType: string, principal: Uuid, effect: string)

  datatype Policy = Policy(id: Uuid, domain: Option<Uuid>, status: string, typeScope: Option<string>)

  datatype Role = Role(active: bool, actions: set<string>, domains: set<Uuid>, types: set<string>)

  datatype Binding = Binding(
    user: Uuid, role: Uuid, scopeType: string, scopeId: Option<Uuid>, expires: Option<int>)

  /** The tables one evaluation reads, at one instant `now`. `overrides` is in created_at order. */
  datatype Db = Db(
    now: int,
    denials: set<Uuid>,
    overrides: seq<Override>,
    acl: set<AclRow>,
    teams: set<(Uuid, Uuid)>,
    grants: map<(Uuid, Uuid), Grant>,
    policies: seq<Policy>,
    roles: map<Uuid, Role>,
    bindings: set<Binding>)

  datatype Request = Request(
    principal: Uuid,
    action: string,
    resourceType: string,
    resourceId: Option<Uuid>,
    domain: Option<Uuid>,
    sensitivity: Option<int>,
    entityType: Option<string>)

  datatype Query =
    | GlobalDenyQ | OverridesQ | AclDenyQ | AclAllowQ | GrantQ
    | TypeScopeQ | RoleTypeQ | RoleActionQ | PoliciesQ

  datatype SensitivityResult = Skipped | ExceedsCap(level: int, cap: int) | WithinCap(level: int, cap: int) | NoLevel

  datatype Decision = Decision(
    allow: bool,
    reason: string,
    matchedRule: string,
    matchedPolicies: seq<Uuid>,
    matchedOverrides: seq<Uuid>,
    sensitivityOk: bool,
    effectiveSensitivity: Option<int>,
    resolvedDomain: Option<Uuid>,
    sensitivityResult: SensitivityResult)

  datatype Verdict = Decided(dec: Decision) | Failed(query: Query)

  // ---- helpers of the pipeline

  function Lower(s: string): string {
    seq(|s|, i requires 0 <= i < |s| => if 'A' <= s[i] <= 'Z' then s[i] - 'A' + 'a' else s[i])
  }

  function NormalizeAction(action: string): string {
    var a := TrimSpace(Lower(action));
    if a == "manage_source_feed" then "manage_sources" else a
  }

  predicate LevelAllowsAction(level: string, action: string) {
    match level
    case "admin" => true
    case "write" =>
      action in {"view", "search", "view_raw", "edit", "create", "archive", "export",
                 "run_job", "manage_jobs", "manage_sources", "manage_source_feed",
                 "approve", "review", "publish"}
    case "read" => action in {"view", "search", "view_raw"}
    case _ => false
  }

  predicate Live(expires: Option<int>, now: int) {
    expires.None? || expires.value > now
  }

  predicate Targets(o: Override, db: Db, r: Request) {
    r.resourceId == Some(o.targetId) && o.targetType == r.resourceType && Live(o.expires, db.now)
  }

  function LiveOverrides(list: seq<Override>, db: Db, r: Request): seq<Override> {
    if list == [] then []
    else (if Targets(list[0], db, r) then [list[0]] else []) + LiveOverrides(list[1..], db, r)
  }

  /** Ids recorded while scanning: the allows up to the first deny, and that deny. */
  function MatchedOverrides(live: seq<Override>): seq<Uuid> {
    if live == [] then []
    else if live[0].kind == "deny" then [live[0].id]
    else if live[0].kind == "allow" then [live[0].id] + MatchedOverrides(live[1..])
    else MatchedOverrides(live[1..])
  }

  predicate AclApplies(db: Db, entity: Uuid, user: Uuid, effect: string) {
    exists a :: a in db.acl && a.entity == entity && a.effect == effect
      && ((a.principalType == "user" && a.principal == user)
          || (a.principalType == "team" && (user, a.principal) in db.teams))
  }

  function LiveGrant(db: Db, user: Uuid, domain: Uuid): Option<Grant> {
    if (user, domain) in db.grants && Live(db.grants[(user, domain)].expires, db.now)
    then Some(db.grants[(user, domain)]) else None
  }

  /** SQL trim: spaces only. */
  function SqlTrim(s: string): string {
    if s != "" && s[0] == ' ' then SqlTrim(s[1..])
    else if s != "" && s[|s| - 1] == ' ' then SqlTrim(s[..|s| - 1])
    else s
  }

  predicate Narrows(p: Policy, domain: Uuid) {
    p.domain == Some(domain) && p.status == "active" && p.typeScope.Some? && SqlTrim(p.typeScope.value) != ""
  }

  predicate ScopeAdmits(scope: string, entityType: string) {
    scope == "*" || Lower(scope) == Lower(entityType)
  }

  predicate TypeAllowedInDomain(db: Db, domain: Uuid, entityType: string) {
    (forall p | p in db.policies :: !Narrows(p, domain))
    || exists p :: p in db.policies && Narrows(p, domain) && ScopeAdmits(SqlTrim(p.typeScope.value), entityType)
  }

  /** The joins and filters shared by the two role queries. */
  predicate Applies(b: Binding, db: Db, user: Uuid, domain: Uuid, action: string) {
    && b.user == user && b.role in db.roles
    && var role := db.roles[b.role];
       && role.active && action in role.actions && Live(b.expires, db.now)
       && (b.scopeType == "global" || (b.scopeType == "domain" && b.scopeId == Some(domain)))
       && (role.domains == {} || domain in role.domains)
  }

  predicate UserHasRoleAction(db: Db, user: Uuid, domain: Uuid, action: string) {
    exists b :: b in db.bindings && Applies(b, db, user, domain, action)
  }

  function RoleTypes(db: Db, user: Uuid, domain: Uuid, action: string): set<string> {
    set b, t | b in db.bindings && Applies(b, db, user, domain, action) && t in db.roles[b.role].types :: t
  }

  function PolicyIds(policies: seq<Policy>, domain: Uuid): seq<Uuid> {
    if policies == [] then []
    else
      (if (policies[0].domain.None? || policies[0].domain.value == domain) && policies[0].status == "active"
       then [policies[0].id] else []) + PolicyIds(policies[1..], domain)
  }

  // ---- the declarative rule

  datatype Gate =
    | HasPrincipal | NotBlocked | NoDenyOverride | NoAclDeny | DomainGiven | Granted
    | TypeInPolicy | TypeInRoles | RoleHasAction | LevelSuffices | WithinSensitivity

  const GATES: seq<Gate> :=
    [HasPrincipal, NotBlocked, NoDenyOverride, NoAclDeny, DomainGiven, Granted,
     TypeInPolicy, TypeInRoles, RoleHasAction, LevelSuffices, WithinSensitivity]

  function Reason(g: Gate): string {
    match g
    case HasPrincipal => "DENY_MISSING_PRINCIPAL"
    case NotBlocked => "DENY_GLOBAL_BLOCK"
    case NoDenyOverride => "DENY_POLICY_OVERRIDE"
    case NoAclDeny => "DENY_ENTITY_ACL"
    case DomainGiven => "DENY_DOMAIN_REQUIRED"
    case Granted => "DENY_NO_DOMAIN_GRANT"
    case TypeInPolicy => "DENY_ENTITY_TYPE_POLICY"
    case TypeInRoles => "DENY_ROLE_ENTITY_TYPE_SCOPE"
    case RoleHasAction => "DENY_ROLE_ACTION"
    case LevelSuffices => "DENY_ACCESS_LEVEL"
    case WithinSensitivity => "DENY_SENSITIVITY_CAP"
  }

  const ALLOW_OK := "ALLOW_OK"

  predicate EntityTarget(r: Request) {
    r.resourceType == "entity" && r.resourceId.Some?
  }

  predicate Typed(r: Request) {
    r.resourceType == "entity" && r.entityType.Some? && TrimSpace(r.entityType.value) != ""
  }

  function TypeOf(r: Request): string
    requires Typed(r)
  {
    TrimSpace(r.entityType.value)
  }

  predicate TypeBypass(db: Db, r: Request) {
    EntityTarget(r) && AclApplies(db, r.resourceId.value, r.principal, "allow")
    && NormalizeAction(r.action) in {"view", "search"}
  }

  /** Each gate by itself, on the tables; a gate that speaks of the domain fails without one. */
  predicate Passes(g: Gate, db: Db, r: Request) {
    var action := NormalizeAction(r.action);
    match g
    case HasPrincipal => r.principal != NIL
    case NotBlocked => r.principal !in db.denials
    case NoDenyOverride => forall o | o in db.overrides && Targets(o, db, r) :: o.kind != "deny"
    case NoAclDeny => EntityTarget(r) ==> !AclApplies(db, r.resourceId.value, r.principal, "deny")
    case DomainGiven => r.domain.Some?
    case Granted => r.domain.Some? && LiveGrant(db, r.principal, r.domain.value).Some?
    case TypeInPolicy =>
      r.domain.Some? && (Typed(r) ==> TypeAllowedInDomain(db, r.domain.value, TypeOf(r)) || TypeBypass(db, r))
    case TypeInRoles =>
      r.domain.Some? &&
      (Typed(r) ==>
        var types := RoleTypes(db, r.principal, r.domain.value, action);
        types == {} || TypeOf(r) in types)
    case RoleHasAction => r.domain.Some? && UserHasRoleAction(db, r.principal, r.domain.value, action)
    case LevelSuffices =>
      r.domain.Some? &&
      var g := LiveGrant(db, r.principal, r.domain.value);
      g.Some? && LevelAllowsAction(g.value.level, action)
    case WithinSensitivity =>
      r.domain.Some? &&
      var g := LiveGrant(db, r.principal, r.domain.value);
      g.Some? && (r.sensitivity.Some? ==> r.sensitivity.value <= g.value.cap)
  }

  /** Permitted by the tables: every gate passes. */
  ghost predicate Permitted(db: Db, r: Request) {
    forall g: Gate :: Passes(g, db, r)
  }

  // ---- the order of the pipeline, with its queries

  datatype Stage = Ask(q: Query) | Check(g: Gate)

  const STAGES := 19

  /** The queries and gates in the order the pipeline reaches them. */
  function StageAt(k: nat): Stage
    requires k < STAGES
  {
    match k
    case 0 => Check(HasPrincipal)
    case 1 => Ask(GlobalDenyQ)
    case 2 => Check(NotBlocked)
    case 3 => Ask(OverridesQ)
    case 4 => Check(NoDenyOverride)
    case 5 => Ask(AclDenyQ)
    case 6 => Check(NoAclDeny)
    case 7 => Ask(AclAllowQ)
    case 8 => Check(DomainGiven)
    case 9 => Check(Granted)
    case 10 => Ask(TypeScopeQ)
    case 11 => Check(TypeInPolicy)
    case 12 => Ask(RoleTypeQ)
    case 13 => Check(TypeInRoles)
    case 14 => Ask(RoleActionQ)
    case 15 => Check(RoleHasAction)
    case 16 => Check(LevelSuffices)
    case 17 => Check(WithinSensitivity)
    case _ => Ask(PoliciesQ)
  }

  predicate Needed(q: Query, r: Request) {
    match q
    case OverridesQ => r.resourceId.Some?
    case AclDenyQ => EntityTarget(r)
    case AclAllowQ => EntityTarget(r)
    case TypeScopeQ => Typed(r)
    case RoleTypeQ => Typed(r)
    case _ => true
  }

  /** Whether the pipeline ends at a stage. A failed grant query reads as no grant. */
  predicate Stops(s: Stage, db: Db, faults: set<Query>, r: Request) {
    match s
    case Ask(q) => q in faults && Needed(q, r)
    case Check(g) => !Passes(g, db, r) || (g == Granted && GrantQ in faults)
  }

  function FirstStop(db: Db, faults: set<Query>, r: Request, k: nat): (n: nat)
    requires k <= STAGES
    ensures n <= STAGES
    decreases STAGES - k
  {
    if k == STAGES || Stops(StageAt(k), db, faults, r) then k else FirstStop(db, faults, r, k + 1)
  }

  const OVERRIDES_LOADED := 4

  function CapOf(db: Db, r: Request): int {
    if r.domain.Some? && LiveGrant(db, r.principal, r.domain.value).Some?
    then LiveGrant(db, r.principal, r.domain.value).value.cap else 0
  }

  function Denial(db: Db, r: Request, k: nat, g: Gate): Decision {
    Decision(
      false, Reason(g), Reason(g), [],
      if k >= OVERRIDES_LOADED then MatchedOverrides(LiveOverrides(db.overrides, db, r)) else [],
      g != WithinSensitivity, r.sensitivity, r.domain,
      if g == WithinSensitivity && r.sensitivity.Some? then ExceedsCap(r.sensitivity.value, CapOf(db, r)) else Skipped)
  }

  function Allowance(db: Db, r: Request): Decision {
    Decision(
      true, ALLOW_OK, ALLOW_OK, if r.domain.Some? then PolicyIds(db.policies, r.domain.value) else [],
      MatchedOverrides(LiveOverrides(db.overrides, db, r)),
      true, r.sensitivity, r.domain,
      if r.sensitivity.Some? then SensitivityResult.WithinCap(r.sensitivity.value, CapOf(db, r)) else NoLevel)
  }

  /** The verdict when the pipeline ends at stage k; at the end of all stages, the allow. */
  function VerdictAt(db: Db, r: Request, k: nat): Verdict
    requires k <= STAGES
  {
    if k == STAGES then Decided(Allowance(db, r))
    else
      match StageAt(k)
      case Ask(q) => Failed(q)
      case Check(g) => Decided(Denial(db, r, k, g))
  }

  /** The verdict of the rule: that of the first stage that stops, or the allow. */
  function Judge(db: Db, faults: set<Query>, r: Request): Verdict {
    VerdictAt(db, r, FirstStop(db, faults, r, 0))
  }

  lemma FirstStopFacts(db: Db, faults: set<Query>, r: Request, k: nat)
    requires k <= STAGES
    ensures var n := FirstStop(db, faults, r, k);
            && k <= n <= STAGES
            && (forall j | k <= j < n :: !Stops(StageAt(j), db, faults, r))
            && (n < STAGES ==> Stops(StageAt(n), db, faults, r))
    decreases STAGES - k
  {
    if k < STAGES && !Stops(StageAt(k), db, faults, r) {
      FirstStopFacts(db, faults, r, k + 1);
    }
  }

  lemma {:induction false} StopsFirstAt(db: Db, faults: set<Query>, r: Request, k: nat, from: nat)
    requires from <= k <= STAGES
    requires forall j | from <= j < k :: !Stops(StageAt(j), db, faults, r)
    requires k < STAGES ==> Stops(StageAt(k), db, faults, r)
    ensures FirstStop(db, faults, r, from) == k
    decreases k - from
  {
    if from < k {
      StopsFirstAt(db, faults, r, k, from + 1);
    }
  }
}
