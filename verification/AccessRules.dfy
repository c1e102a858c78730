/** What the permission pipeline decides, and how decisions move with the tables. */
module AccessRules {
  import opened Access

  ghost predicate Allows(v: Verdict) {
    v.Decided? && v.dec.allow
  }

  // ---- the pipeline refines the gates

  /** Index of a gate's stage in the pipeline. */
  function StageOf(g: Gate): (k: nat)
    ensures k < STAGES && StageAt(k) == Check(g)
  {
    match g
    case HasPrincipal => 0
    case NotBlocked => 2
    case NoDenyOverride => 4
    case NoAclDeny => 6
    case DomainGiven => 8
    case Granted => 9
    case TypeInPolicy => 11
    case TypeInRoles => 13
    case RoleHasAction => 15
    case LevelSuffices => 16
    case WithinSensitivity => 17
  }

  /** Index of the stage that reads a query; for the grant, its gate. */
  function QueryStage(q: Query): (k: nat)
    ensures k < STAGES && StageAt(k) == if q == GrantQ then Check(Granted) else Ask(q)
  {
    match q
    case GlobalDenyQ => 1
    case OverridesQ => 3
    case AclDenyQ => 5
    case AclAllowQ => 7
    case GrantQ => 9
    case TypeScopeQ => 10
    case RoleTypeQ => 12
    case RoleActionQ => 14
    case PoliciesQ => 18
  }

  /** What the verdict of each stage says. */
  lemma VerdictShape(db: Db, r: Request, k: nat)
    requires k <= STAGES
    ensures var v := VerdictAt(db, r, k);
            && (v.Failed? <==> k < STAGES && StageAt(k).Ask?)
            && (v.Decided? ==> (v.dec.allow <==> k == STAGES) && v.dec.matchedRule == v.dec.reason)
            && (k == STAGES ==> v.dec.reason == ALLOW_OK && v.dec.sensitivityOk)
            && (k < STAGES && StageAt(k).Check? ==>
                  v.dec.reason == Reason(StageAt(k).g) && (v.dec.sensitivityOk <==> StageAt(k).g != WithinSensitivity))
  {}

  /** Nothing stops exactly when every gate passes and no needed query fails. */
  lemma NothingStopsIff(db: Db, faults: set<Query>, r: Request)
    ensures (forall j | 0 <= j < STAGES :: !Stops(StageAt(j), db, faults, r))
            <==> Permitted(db, r) && forall q | q in faults :: !Needed(q, r)
  {
    if forall j | 0 <= j < STAGES :: !Stops(StageAt(j), db, faults, r) {
      forall g: Gate ensures Passes(g, db, r) {
        assert !Stops(StageAt(StageOf(g)), db, faults, r);
      }
      forall q | q in faults ensures !Needed(q, r) {
        assert !Stops(StageAt(QueryStage(q)), db, faults, r);
      }
    }
    if Permitted(db, r) && forall q | q in faults :: !Needed(q, r) {
      forall j | 0 <= j < STAGES ensures !Stops(StageAt(j), db, faults, r) {
        NeverStops(StageAt(j), db, faults, r);
      }
    }
  }

  lemma NeverStops(s: Stage, db: Db, faults: set<Query>, r: Request)
    requires Permitted(db, r) && forall q | q in faults :: !Needed(q, r)
    ensures !Stops(s, db, faults, r)
  {
    assert s.Check? ==> Passes(s.g, db, r);
  }

  /** Allow holds exactly when every gate passes and no query the request needs fails;
      a failed grant query counts against it as well. */
  lemma AllowIff(db: Db, faults: set<Query>, r: Request)
    ensures Allows(Judge(db, faults, r))
            <==> Permitted(db, r) && forall q | q in faults :: !Needed(q, r)
  {
    var k := FirstStop(db, faults, r, 0);
    FirstStopFacts(db, faults, r, 0);
    VerdictShape(db, r, k);
    NothingStopsIff(db, faults, r);
  }

  /** Length and sixth character tell the reasons apart. */
  lemma ReasonShape(g: Gate)
    ensures var shape := match g
              case HasPrincipal => (22, 'M') case NotBlocked => (17, 'G') case NoDenyOverride => (20, 'P')
              case NoAclDeny => (15, 'E') case DomainGiven => (20, 'D') case Granted => (20, 'N')
              case TypeInPolicy => (23, 'E') case TypeInRoles => (27, 'R') case RoleHasAction => (16, 'R')
              case LevelSuffices => (17, 'A') case WithinSensitivity => (20, 'S');
            |Reason(g)| == shape.0 && Reason(g)[5] == shape.1
  {}

  lemma ReasonInjective(g: Gate, h: Gate)
    ensures Reason(g) == Reason(h) ==> g == h
    ensures Reason(g) != ALLOW_OK
  {
    ReasonShape(g);
    ReasonShape(h);
  }

  /** The gate the pipeline ends at is the first, in the fixed order, that fails. */
  lemma EndGateIsFirst(db: Db, r: Request, k: nat)
    requires k == FirstStop(db, {}, r, 0) && k < STAGES
    ensures StageAt(k).Check? && !Passes(StageAt(k).g, db, r) && StageOf(StageAt(k).g) == k
    ensures forall h: Gate | StageOf(h) < k :: Passes(h, db, r)
  {
    FirstStopFacts(db, {}, r, 0);
    StageUnique(k);
    forall h: Gate | StageOf(h) < k ensures Passes(h, db, r) {
      assert !Stops(StageAt(StageOf(h)), db, {}, r);
    }
  }

  /** With the database up, the reason names the first gate, in the fixed order, that fails. */
  lemma ReasonNamesFirstFailingGate(db: Db, r: Request, g: Gate)
    ensures var v := Judge(db, {}, r);
            && v.Decided? && v.dec.matchedRule == v.dec.reason
            && (v.dec.reason == Reason(g)
                <==> !Passes(g, db, r) && forall h: Gate | StageOf(h) < StageOf(g) :: Passes(h, db, r))
            && (v.dec.reason == ALLOW_OK <==> Permitted(db, r))
            && (v.dec.sensitivityOk <==> v.dec.reason != Reason(WithinSensitivity))
  {
    var k := FirstStop(db, {}, r, 0);
    VerdictShape(db, r, k);
    AllowIff(db, {}, r);
    ReasonInjective(g, WithinSensitivity);
    ReasonInjective(WithinSensitivity, g);
    if k < STAGES {
      EndGateIsFirst(db, r, k);
      ReasonInjective(StageAt(k).g, g);
      ReasonInjective(StageAt(k).g, WithinSensitivity);
      StageOfInjective(StageAt(k).g, g);
    }
  }

  lemma StageOfInjective(g: Gate, h: Gate)
    ensures StageOf(g) == StageOf(h) ==> g == h
  {
    assert StageAt(StageOf(g)) == Check(g) && StageAt(StageOf(h)) == Check(h);
  }

  /** The fixed order of the gates. */
  lemma GatesInOrder(i: nat, j: nat)
    requires i < j < |GATES|
    ensures StageOf(GATES[i]) < StageOf(GATES[j])
  {
    var stages := [0, 2, 4, 6, 8, 9, 11, 13, 15, 16, 17];
    assert StageOf(GATES[i]) == stages[i] && StageOf(GATES[j]) == stages[j];
  }

  /** Errors never open access: what is allowed under faults is permitted by the tables. */
  lemma FaultsFailClosed(db: Db, faults: set<Query>, r: Request)
    requires Allows(Judge(db, faults, r))
    ensures Allows(Judge(db, {}, r)) && Permitted(db, r)
  {
    AllowIff(db, faults, r);
    AllowIff(db, {}, r);
  }

  lemma {:induction false} SameStops(db: Db, faults: set<Query>, db': Db, faults': set<Query>, r: Request, k: nat)
    requires k <= STAGES
    requires forall j | k <= j < STAGES :: Stops(StageAt(j), db, faults, r) == Stops(StageAt(j), db', faults', r)
    ensures FirstStop(db, faults, r, k) == FirstStop(db', faults', r, k)
    decreases STAGES - k
  {
    if k < STAGES && !Stops(StageAt(k), db, faults, r) {
      SameStops(db, faults, db', faults', r, k + 1);
    }
  }

  function WithoutGrant(db: Db, user: Uuid, domain: Uuid): Db {
    db.(grants := db.grants - {(user, domain)})
  }

  /** Up to the grant, stages stop alike with and without the grant row. */
  lemma SameUpToGrant(db: Db, faults: set<Query>, r: Request, j: nat)
    requires j <= 9 && r.domain.Some? && GrantQ in faults
    ensures Stops(StageAt(j), db, faults, r)
            == Stops(StageAt(j), WithoutGrant(db, r.principal, r.domain.value), faults - {GrantQ}, r)
    ensures j == 9 ==> Stops(StageAt(j), db, faults, r)
  {}

  lemma SameVerdictUpToGrant(db: Db, r: Request, k: nat)
    requires k <= 9 && r.domain.Some?
    ensures VerdictAt(db, r, k) == VerdictAt(WithoutGrant(db, r.principal, r.domain.value), r, k)
  {
    SameLiveOverrides(db.overrides, db, WithoutGrant(db, r.principal, r.domain.value), r);
  }

  /** A failed grant query gives the very verdict of a missing grant row. */
  lemma FailedGrantReadsAsNone(db: Db, faults: set<Query>, r: Request)
    requires r.domain.Some? && GrantQ in faults
    ensures Judge(db, faults, r) == Judge(WithoutGrant(db, r.principal, r.domain.value), faults - {GrantQ}, r)
  {
    FirstStopFacts(db, faults, r, 0);
    var k := FirstStop(db, faults, r, 0);
    SameUpToGrant(db, faults, r, 9);
    forall j: nat | j <= k ensures Stops(StageAt(j), db, faults, r)
      == Stops(StageAt(j), WithoutGrant(db, r.principal, r.domain.value), faults - {GrantQ}, r) {
      SameUpToGrant(db, faults, r, j);
    }
    StopsFirstAt(WithoutGrant(db, r.principal, r.domain.value), faults - {GrantQ}, r, k, 0);
    SameVerdictUpToGrant(db, r, k);
  }

  lemma StageUnique(j: nat)
    requires j < STAGES && StageAt(j).Check?
    ensures StageOf(StageAt(j).g) == j
  {}

  lemma {:induction false} SameLiveOverrides(list: seq<Override>, db: Db, db': Db, r: Request)
    requires db.now == db'.now
    ensures LiveOverrides(list, db, r) == LiveOverrides(list, db', r)
  {
    if list != [] {
      SameLiveOverrides(list[1..], db, db', r);
    }
  }

  // ---- deny rows

  /** More ways to be refused: a denial, an override of any kind, an ACL deny row. */
  ghost predicate AddsDenyRows(db: Db, db': Db) {
    && db' == db.(denials := db'.denials, overrides := db'.overrides, acl := db'.acl)
    && db.denials <= db'.denials
    && (forall o | o in db.overrides :: o in db'.overrides)
    && db.acl <= db'.acl
    && forall a | a in db'.acl - db.acl :: a.effect == "deny"
  }

  /** Adding deny rows never turns a refusal into an allow. */
  lemma DenyRowsNeverAllow(db: Db, db': Db, r: Request)
    requires AddsDenyRows(db, db') && Permitted(db', r)
    ensures Permitted(db, r)
  {
    assert Passes(DomainGiven, db', r);
    forall g: Gate ensures Passes(g, db, r) {
      assert Passes(g, db', r);
      SameRoles(db, db', r);
    }
  }

  /** The role queries read the role tables only. */
  lemma SameRoles(db: Db, db': Db, r: Request)
    requires db.roles == db'.roles && db.bindings == db'.bindings && db.now == db'.now
    requires r.domain.Some?
    ensures var action := NormalizeAction(r.action);
            && UserHasRoleAction(db, r.principal, r.domain.value, action)
               == UserHasRoleAction(db', r.principal, r.domain.value, action)
            && RoleTypes(db, r.principal, r.domain.value, action)
               == RoleTypes(db', r.principal, r.domain.value, action)
  {
    var user, domain, action := r.principal, r.domain.value, NormalizeAction(r.action);
    assert forall b :: Applies(b, db, user, domain, action) == Applies(b, db', user, domain, action);
  }

  /** Every gate but the override gate passes alike when overrides alone differ. */
  lemma SamePasses(db: Db, db': Db, r: Request, g: Gate)
    requires db' == db.(overrides := db'.overrides) && g != NoDenyOverride
    ensures Passes(g, db, r) == Passes(g, db', r)
  {
    if r.domain.Some? && g in {TypeInRoles, RoleHasAction} {
      SameRoles(db, db', r);
    }
  }

  /** Verdicts at one stage agree when overrides alone differ and match alike. */
  lemma SameVerdictAt(db: Db, db': Db, r: Request, k: nat)
    requires k <= STAGES && db' == db.(overrides := db'.overrides)
    requires MatchedOverrides(LiveOverrides(db'.overrides, db', r)) == MatchedOverrides(LiveOverrides(db.overrides, db, r))
    ensures VerdictAt(db', r, k) == VerdictAt(db, r, k)
  {
    assert CapOf(db', r) == CapOf(db, r);
  }

  /** A live deny override refuses whatever its review status; the status is never read. */
  lemma StatusIgnored(db: Db, faults: set<Query>, r: Request, i: nat, status: string)
    requires i < |db.overrides|
    ensures var db' := db.(overrides := db.overrides[i := db.overrides[i].(status := status)]);
            Judge(db', faults, r) == Judge(db, faults, r)
  {
    var db' := db.(overrides := db.overrides[i := db.overrides[i].(status := status)]);
    RestatusedMatches(db.overrides, i, status, db, db', r);
    OverridesStop(db, db', faults, r);
    SameVerdictAt(db, db', r, FirstStop(db, faults, r, 0));
  }

  lemma MatchedCons(list: seq<Override>, db: Db, r: Request)
    requires list != []
    ensures var o, rest := list[0], MatchedOverrides(LiveOverrides(list[1..], db, r));
            MatchedOverrides(LiveOverrides(list, db, r))
            == if !Targets(o, db, r) then rest
               else if o.kind == "deny" then [o.id]
               else if o.kind == "allow" then [o.id] + rest
               else rest
  {
    var tail := LiveOverrides(list[1..], db, r);
    assert Targets(list[0], db, r) ==> ([list[0]] + tail)[1..] == tail;
    assert !Targets(list[0], db, r) ==> LiveOverrides(list, db, r) == tail;
  }

  lemma {:induction false} RestatusedMatches(
    list: seq<Override>, i: nat, status: string, db: Db, db': Db, r: Request)
    requires i < |list| && db.now == db'.now
    ensures var list' := list[i := list[i].(status := status)];
            && MatchedOverrides(LiveOverrides(list', db', r)) == MatchedOverrides(LiveOverrides(list, db, r))
            && (Refusing(list', db', r) <==> Refusing(list, db, r))
  {
    var list' := list[i := list[i].(status := status)];
    assert Targets(list'[0], db', r) == Targets(list[0], db, r);
    assert list == [list[0]] + list[1..] && list' == [list'[0]] + list'[1..];
    MatchedCons(list, db, r);
    MatchedCons(list', db', r);
    if i == 0 {
      assert list'[1..] == list[1..];
      SameLiveOverrides(list[1..], db, db', r);
    } else {
      assert list'[1..] == list[1..][i - 1 := list[1..][i - 1].(status := status)];
      RestatusedMatches(list[1..], i - 1, status, db, db', r);
    }
  }

  /** A live override of the target in the list denies. */
  ghost predicate Refusing(list: seq<Override>, db: Db, r: Request) {
    exists o :: o in list && Targets(o, db, r) && o.kind == "deny"
  }

  lemma SameStage(db: Db, db': Db, faults: set<Query>, r: Request, s: Stage)
    requires db' == db.(overrides := db'.overrides)
    requires Refusing(db'.overrides, db', r) <==> Refusing(db.overrides, db, r)
    ensures Stops(s, db, faults, r) == Stops(s, db', faults, r)
  {
    if s == Check(NoDenyOverride) {
      assert Passes(NoDenyOverride, db, r) <==> !Refusing(db.overrides, db, r);
      assert Passes(NoDenyOverride, db', r) <==> !Refusing(db'.overrides, db', r);
    } else if s.Check? {
      SamePasses(db, db', r, s.g);
    }
  }

  /** Tables that differ in overrides alone and refuse alike stop at the same stage. */
  lemma OverridesStop(db: Db, db': Db, faults: set<Query>, r: Request)
    requires db' == db.(overrides := db'.overrides)
    requires Refusing(db'.overrides, db', r) <==> Refusing(db.overrides, db, r)
    ensures FirstStop(db', faults, r, 0) == FirstStop(db, faults, r, 0)
  {
    forall j: nat | j < STAGES ensures Stops(StageAt(j), db, faults, r) == Stops(StageAt(j), db', faults, r) {
      SameStage(db, db', faults, r, StageAt(j));
    }
    SameStops(db, faults, db', faults, r, 0);
  }

  /** The outcome of a verdict without the audit fields. */
  function OutcomeOf(v: Verdict): (bool, string) {
    match v
    case Decided(dec) => (dec.allow, dec.reason)
    case Failed(_) => (false, "")
  }

  /** Overrides that are not denies change neither Allow nor the reason, wherever they stand. */
  lemma NonDenyOverridesInert(db: Db, pre: seq<Override>, o: Override, post: seq<Override>, faults: set<Query>, r: Request)
    requires db.overrides == pre + post && o.kind != "deny"
    ensures OutcomeOf(Judge(db.(overrides := pre + [o] + post), faults, r)) == OutcomeOf(Judge(db, faults, r))
  {
    var db' := db.(overrides := pre + [o] + post);
    assert forall x :: x in db'.overrides <==> x in db.overrides || x == o;
    assert Refusing(db'.overrides, db', r) <==> Refusing(db.overrides, db, r);
    OverridesStop(db, db', faults, r);
  }

  // ---- grants and ACL allow rows

  function Rank(level: string): nat {
    match level
    case "read" => 1
    case "write" => 2
    case "admin" => 3
    case _ => 0
  }

  lemma HigherLevelAllowsMore(low: string, high: string, action: string)
    requires Rank(low) <= Rank(high) && LevelAllowsAction(low, action)
    ensures LevelAllowsAction(high, action)
  {}

  /** Grants raised in level or cap, and ACL allow rows added; nothing else changes. */
  ghost predicate Widens(db: Db, db': Db) {
    && db' == db.(grants := db'.grants, acl := db'.acl)
    && db.acl <= db'.acl && (forall a | a in db'.acl - db.acl :: a.effect == "allow")
    && forall k | k in db.grants ::
         && k in db'.grants && db'.grants[k].expires == db.grants[k].expires
         && Rank(db.grants[k].level) <= Rank(db'.grants[k].level) && db.grants[k].cap <= db'.grants[k].cap
  }

  /** Raising a level or a cap, or adding ACL allow rows, never turns an allow into a refusal. */
  lemma WideningKeepsAllow(db: Db, db': Db, r: Request)
    requires Widens(db, db') && Permitted(db, r)
    ensures Permitted(db', r)
  {
    forall g: Gate ensures Passes(g, db', r) {
      assert Passes(g, db, r) && Passes(Granted, db, r);
      SameRoles(db, db', r);
      if g == LevelSuffices {
        var k := (r.principal, r.domain.value);
        HigherLevelAllowsMore(db.grants[k].level, db'.grants[k].level, NormalizeAction(r.action));
      }
    }
  }

  // ---- role bindings

  function WithBinding(db: Db, b: Binding): Db {
    db.(bindings := db.bindings + {b})
  }

  lemma RoleTypesGrow(db: Db, b: Binding, user: Uuid, domain: Uuid, action: string)
    ensures RoleTypes(WithBinding(db, b), user, domain, action)
            == RoleTypes(db, user, domain, action)
               + if Applies(b, db, user, domain, action) then db.roles[b.role].types else {}
  {
    var db' := WithBinding(db, b);
    assert forall c :: Applies(c, db', user, domain, action) == Applies(c, db, user, domain, action);
  }

  /** A new role binding turns an allow into a refusal exactly when no applicable role
      constrained entity types before and the new one does, without the requested type. */
  lemma NewBindingRefusesIff(db: Db, b: Binding, r: Request)
    requires Permitted(db, r)
    ensures r.domain.Some?
    ensures var action := NormalizeAction(r.action);
            !Permitted(WithBinding(db, b), r)
            <==> && Typed(r)
                 && RoleTypes(db, r.principal, r.domain.value, action) == {}
                 && Applies(b, db, r.principal, r.domain.value, action)
                 && db.roles[b.role].types != {}
                 && TypeOf(r) !in db.roles[b.role].types
  {
    var db', action := WithBinding(db, b), NormalizeAction(r.action);
    assert Passes(DomainGiven, db, r);
    var domain := r.domain.value;
    RoleTypesGrow(db, b, r.principal, domain, action);
    assert forall c :: Applies(c, db', r.principal, domain, action) == Applies(c, db, r.principal, domain, action);
    forall g: Gate ensures g != TypeInRoles ==> Passes(g, db', r) {
      assert Passes(g, db, r);
    }
    assert Passes(TypeInRoles, db, r);
    assert Permitted(db', r) <==> Passes(TypeInRoles, db', r);
  }
}
