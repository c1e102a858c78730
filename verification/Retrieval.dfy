/** Two-stage semantic retrieval: domain pre-filter and LIMIT, then permissions (embeddings/service.go). */
module Retrieval {
  import opened Wrappers
  import opened Access
  import AccessRules
  import AccessRows
  import Text
  import Evaluator

  /** A chunk joined with its governance columns; `entity` is NIL for a record-rooted chunk. */
  datatype Candidate = Candidate(
    chunk: Uuid, entity: Uuid, domain: Uuid, sensitivity: int, entityType: string, distance: real)

  datatype Error = NoEvaluator | MissingEmbedding | QueryFailed | EvaluationFailed(query: Query)

  const TWO_63 := 0x8000_0000_0000_0000
  const TWO_60 := 0x1000_0000_0000_0000

  type Int64 = n: int | -TWO_63 <= n < TWO_63

  function Wrap64(n: int): Int64 {
    (n + TWO_63) % (2 * TWO_63) - TWO_63
  }

  function Min(a: int, b: int): int { if a < b then a else b }

  function Max(a: int, b: int): int { if a < b then b else a }

  method FetchSize(limit: Int64) returns (fetch: int)
    requires limit > 0
    ensures fetch == Fetch(limit)
  {
    fetch := Wrap64(limit * 8);
    if fetch < 24 {
      fetch := 24;
    }
    if fetch > 200 {
      fetch := 200;
    }
  }

  function Fetch(limit: Int64): nat {
    Min(200, Max(24, Wrap64(limit * 8)))
  }

  const TWO_61 := 2 * TWO_60

  /** The product wraps modulo 2^61 in the limit. */
  lemma WrappedProduct(limit: Int64)
    requires limit > 0
    ensures var r := limit % TWO_61;
            Wrap64(limit * 8) == if r < TWO_60 then 8 * r else 8 * r - 2 * TWO_63
  {
    var r, n := limit % TWO_61, limit / TWO_61;
    assert limit * 8 + TWO_63 == 8 * r + TWO_63 + n * (2 * TWO_63);
    if r < TWO_60 {
      Remainder(n, 8 * r + TWO_63);
    } else {
      Remainder(n + 1, 8 * r - TWO_63);
    }
  }

  lemma Remainder(n: int, r: int)
    requires 0 <= r < 2 * TWO_63
    ensures (r + n * (2 * TWO_63)) % (2 * TWO_63) == r
  {}

  /** The unbounded formula holds exactly for limits that, modulo 2^61, stay below 2^60 and, once
      wrapped, still reach the cap. */
  lemma FetchFormulaIff(limit: Int64)
    requires limit > 0
    ensures Fetch(limit) == Min(200, Max(24, 8 * limit)) <==> limit < TWO_60 || 25 <= limit % TWO_61 < TWO_60
  {
    WrappedProduct(limit);
  }

  /** The smallest limit that wraps is served with the smallest window. */
  lemma SmallestWrap()
    ensures Fetch(TWO_60) == 24 && Min(200, Max(24, 8 * TWO_60)) == 200
  {
    WrappedProduct(TWO_60);
  }

  function ViewRequest(principal: Uuid, c: Candidate): Request {
    AccessRows.EntityView(principal, c.entity, c.domain, c.sensitivity, c.entityType)
  }

  ghost predicate MayView(db: Db, principal: Uuid, c: Candidate) {
    Permitted(db, ViewRequest(principal, c))
  }

  function Take<T>(s: seq<T>, n: int): seq<T> {
    if n <= 0 then [] else if n < |s| then s[..n] else s
  }

  lemma TakeOfPrefix<T>(a: seq<T>, b: seq<T>, n: int)
    requires a <= b
    ensures |a| == Max(n, 0) ==> Take(b, n) == a
  {}

  function InDomains(cs: seq<Candidate>, domains: set<Uuid>): seq<Candidate> {
    if cs == [] then [] else (if cs[0].domain in domains then [cs[0]] else []) + InDomains(cs[1..], domains)
  }

  ghost function Viewable(db: Db, principal: Uuid, cs: seq<Candidate>): seq<Candidate> {
    if cs == [] then []
    else (if MayView(db, principal, cs[0]) then [cs[0]] else []) + Viewable(db, principal, cs[1..])
  }

  ghost predicate NoFaults(faults: nat -> set<Query>) {
    forall i :: faults(i) == {}
  }

  /** `faults(i)` is the set of queries that fail during the i-th evaluation. */
  method FilterCandidatesByEntityView(
    db: Db, hasEvaluator: bool, faults: nat -> set<Query>, principal: Uuid, cands: seq<Candidate>, limit: int)
    returns (r: Result<seq<Candidate>, Error>)
    ensures !hasEvaluator ==> r == Err(NoEvaluator)
    ensures hasEvaluator && NoFaults(faults) ==> r == Ok(Take(Viewable(db, principal, cands), limit))
    ensures r.Ok? ==> |r.value| <= Max(limit, 0)
                      && forall c | c in r.value :: c in cands && MayView(db, principal, c)
  {
    if !hasEvaluator {
      return Err(NoEvaluator);
    }
    var out: seq<Candidate> := [];
    assert cands[..0] == [];
    for i := 0 to |cands|
      invariant NoFaults(faults) ==> out == Viewable(db, principal, cands[..i])
      invariant |out| <= Max(limit, 0)
      invariant forall c | c in out :: c in cands && MayView(db, principal, c)
    {
      if |out| >= limit {
        ViewableSplit(db, principal, cands, i);
        TakeOfPrefix(Viewable(db, principal, cands[..i]), Viewable(db, principal, cands), limit);
        return Ok(out);
      }
      ViewableSnoc(db, principal, cands, i);
      var v := Evaluator.Evaluate(db, faults(i), ViewRequest(principal, cands[i]));
      ViewVerdict(db, faults(i), principal, cands[i]);
      if v.Failed? {
        return Err(EvaluationFailed(v.query));
      }
      if v.dec.allow && v.dec.sensitivityOk {
        out := out + [cands[i]];
      }
    }
    assert cands[..|cands|] == cands;
    return Ok(out);
  }

  /** What one evaluation tells: never more than the tables permit, and exactly that without faults. */
  lemma ViewVerdict(db: Db, faults: set<Query>, principal: Uuid, c: Candidate)
    ensures var v := Judge(db, faults, ViewRequest(principal, c));
            && (v.Decided? && v.dec.allow && v.dec.sensitivityOk ==> MayView(db, principal, c))
            && (faults == {} ==>
                  v.Decided? && (v.dec.allow && v.dec.sensitivityOk <==> MayView(db, principal, c)))
  {
    AccessRules.AllowIff(db, faults, ViewRequest(principal, c));
    AccessRules.ReasonNamesFirstFailingGate(db, ViewRequest(principal, c), WithinSensitivity);
    assert MayView(db, principal, c) ==> Passes(WithinSensitivity, db, ViewRequest(principal, c));
  }

  /** `ranked` is the whole corpus for the model in the order of the query's ORDER BY. */
  method SemanticNear(
    db: Db, hasEvaluator: bool, faults: nat -> set<Query>, principal: Uuid, granted: seq<Uuid>,
    hasEmbedding: bool, ranked: seq<Candidate>, queryFails: bool, limit: Int64)
    returns (r: Result<seq<Candidate>, Error>)
    ensures granted == [] || limit <= 0 ==> r == Ok([])
    ensures granted != [] && limit > 0 ==>
              && (!hasEmbedding ==> r == Err(MissingEmbedding))
              && (hasEmbedding && queryFails ==> r == Err(QueryFailed))
              && (hasEmbedding && !queryFails && !hasEvaluator ==> r == Err(NoEvaluator))
              && (hasEmbedding && !queryFails && hasEvaluator && NoFaults(faults) ==>
                    r == Ok(Answer(db, principal, ranked, Set(granted), limit)))
    ensures r.Ok? ==> |r.value| <= Max(limit, 0)
                      && forall c | c in r.value :: c in ranked && c.domain in granted && MayView(db, principal, c)
  {
    if |granted| == 0 || limit <= 0 {
      return Ok([]);
    }
    if !hasEmbedding {
      return Err(MissingEmbedding);
    }
    var fetch := FetchSize(limit);
    if queryFails {
      return Err(QueryFailed);
    }
    var raw := Take(InDomains(ranked, Set(granted)), fetch);
    InDomainsFacts(ranked, Set(granted));
    r := FilterCandidatesByEntityView(db, hasEvaluator, faults, principal, raw, limit);
  }

  function Set<T>(s: seq<T>): set<T> {
    set x | x in s
  }

  function Window(ranked: seq<Candidate>, domains: set<Uuid>, limit: Int64): seq<Candidate> {
    Take(InDomains(ranked, domains), Fetch(limit))
  }

  ghost function Answer(db: Db, principal: Uuid, ranked: seq<Candidate>, domains: set<Uuid>, limit: Int64): seq<Candidate> {
    Take(Viewable(db, principal, Window(ranked, domains, limit)), limit)
  }

  // ---- filters

  lemma {:induction false} ViewableAppend(db: Db, principal: Uuid, a: seq<Candidate>, b: seq<Candidate>)
    ensures Viewable(db, principal, a + b) == Viewable(db, principal, a) + Viewable(db, principal, b)
  {
    if a == [] {
      assert a + b == b;
    } else {
      assert (a + b)[1..] == a[1..] + b;
      ViewableAppend(db, principal, a[1..], b);
    }
  }

  lemma ViewableSplit(db: Db, principal: Uuid, cs: seq<Candidate>, i: nat)
    requires i <= |cs|
    ensures Viewable(db, principal, cs[..i]) <= Viewable(db, principal, cs)
  {
    assert cs == cs[..i] + cs[i..];
    ViewableAppend(db, principal, cs[..i], cs[i..]);
  }

  lemma ViewableSnoc(db: Db, principal: Uuid, cs: seq<Candidate>, i: nat)
    requires i < |cs|
    ensures Viewable(db, principal, cs[..i + 1])
            == Viewable(db, principal, cs[..i]) + if MayView(db, principal, cs[i]) then [cs[i]] else []
  {
    assert cs[..i + 1] == cs[..i] + [cs[i]];
    ViewableAppend(db, principal, cs[..i], [cs[i]]);
    assert Viewable(db, principal, [cs[i]][1..]) == [];
  }

  lemma {:induction false} InDomainsFacts(cs: seq<Candidate>, domains: set<Uuid>)
    ensures forall c :: c in InDomains(cs, domains) <==> c in cs && c.domain in domains
  {
    if cs != [] {
      InDomainsFacts(cs[1..], domains);
      assert cs == [cs[0]] + cs[1..];
    }
  }

  lemma {:induction false} ViewableFacts(db: Db, principal: Uuid, cs: seq<Candidate>)
    ensures forall c :: c in Viewable(db, principal, cs) <==> c in cs && MayView(db, principal, c)
    ensures Sorted(cs) ==> Sorted(Viewable(db, principal, cs))
  {
    if cs != [] {
      ViewableFacts(db, principal, cs[1..]);
      assert cs == [cs[0]] + cs[1..];
      if Sorted(cs) {
        assert forall c | c in cs[1..] :: cs[0].distance <= c.distance;
      }
    }
  }

  ghost predicate Sorted(cs: seq<Candidate>) {
    forall i, j | 0 <= i < j < |cs| :: cs[i].distance <= cs[j].distance
  }

  /** Restricting to the granted domains loses no viewable chunk. */
  lemma {:induction false} DomainFilterLosesNothing(db: Db, principal: Uuid, cs: seq<Candidate>, domains: set<Uuid>)
    requires Evaluator.GrantedDomains(db, principal) <= domains
    ensures Viewable(db, principal, InDomains(cs, domains)) == Viewable(db, principal, cs)
  {
    if cs != [] {
      DomainFilterLosesNothing(db, principal, cs[1..], domains);
      if MayView(db, principal, cs[0]) {
        Evaluator.PermittedNeedsGrant(db, ViewRequest(principal, cs[0]));
      }
      var rest := InDomains(cs[1..], domains);
      if cs[0].domain in domains {
        assert InDomains(cs, domains) == [cs[0]] + rest && ([cs[0]] + rest)[1..] == rest;
      } else {
        assert InDomains(cs, domains) == rest;
      }
    }
  }

  // ---- two stages against one

  /** The answer is a prefix of the first `limit` viewable chunks of the whole ranking, and all of
      them exactly when the window holds `limit` viewable rows or every viewable one. */
  lemma TwoStageRetrieval(db: Db, principal: Uuid, granted: seq<Uuid>, ranked: seq<Candidate>, limit: Int64)
    requires limit > 0 && Evaluator.Enumerates(granted, Evaluator.GrantedDomains(db, principal))
    ensures var domains := Set(granted);
            var answer, ideal := Answer(db, principal, ranked, domains, limit), Take(Viewable(db, principal, ranked), limit);
            var window := Window(ranked, domains, limit);
            var beyond := InDomains(ranked, domains)[|window|..];
            && answer <= ideal
            && (answer == ideal
                <==> |Viewable(db, principal, window)| >= limit || Viewable(db, principal, beyond) == [])
            && (|InDomains(ranked, domains)| <= Fetch(limit) ==> answer == ideal)
  {
    var domains := Set(granted);
    assert domains == Evaluator.GrantedDomains(db, principal);
    var rows := InDomains(ranked, domains);
    var window := Window(ranked, domains, limit);
    DomainFilterLosesNothing(db, principal, ranked, domains);
    assert rows == window + rows[|window|..];
    ViewableAppend(db, principal, window, rows[|window|..]);
    var near, far := Viewable(db, principal, window), Viewable(db, principal, rows[|window|..]);
    if |near| >= limit {
      assert (near + far)[..limit] == near[..limit];
    } else {
      assert Take(near, limit) == near;
      assert near <= Take(near + far, limit);
    }
  }

  lemma NotInPrefix<T>(a: seq<T>, b: seq<T>, j: nat)
    requires a <= b && j < |b|
    ensures b[j] in a || |a| <= j
  {}

  lemma AnswerIsPrefix(db: Db, principal: Uuid, granted: seq<Uuid>, ranked: seq<Candidate>, limit: Int64)
    requires limit > 0 && Evaluator.Enumerates(granted, Evaluator.GrantedDomains(db, principal))
    ensures Answer(db, principal, ranked, Set(granted), limit) <= Viewable(db, principal, ranked)
  {
    TwoStageRetrieval(db, principal, granted, ranked, limit);
  }

  /** No viewable chunk nearer than a returned one is left out. */
  lemma NoNearerChunkSkipped(
    db: Db, principal: Uuid, granted: seq<Uuid>, ranked: seq<Candidate>, limit: Int64, got: Candidate, missed: Candidate)
    requires limit > 0 && Sorted(ranked) && Evaluator.Enumerates(granted, Evaluator.GrantedDomains(db, principal))
    requires got in Answer(db, principal, ranked, Set(granted), limit)
    requires missed in ranked && MayView(db, principal, missed)
    requires missed !in Answer(db, principal, ranked, Set(granted), limit)
    ensures got.distance <= missed.distance
  {
    AnswerIsPrefix(db, principal, granted, ranked, limit);
    ViewableFacts(db, principal, ranked);
    var answer := Answer(db, principal, ranked, Set(granted), limit);
    var all := Viewable(db, principal, ranked);
    var i :| 0 <= i < |answer| && answer[i] == got;
    var j :| 0 <= j < |all| && all[j] == missed;
    NotInPrefix(answer, all, j);
    assert all[i] == got;
  }

  /** What a returned chunk needs, on the rows: the principal may view its own entity, domain,
      sensitivity and type. */
  lemma ReturnedOnRows(db: Db, principal: Uuid, ranked: seq<Candidate>, domains: set<Uuid>, limit: Int64, c: Candidate)
    requires c in Answer(db, principal, ranked, domains, limit)
    ensures (principal, c.domain) in db.grants
    ensures var g := db.grants[(principal, c.domain)];
            c.sensitivity <= g.cap && !AccessRows.Expired(g.expires, db.now) && g.level in {"read", "write", "admin"}
    ensures forall a | a in db.acl && a.entity == c.entity && a.effect == "deny" ::
              && !(a.principalType == "user" && a.principal == principal)
              && !(a.principalType == "team" && (principal, a.principal) in db.teams)
    ensures var t := Text.TrimSpace(c.entityType);
            t != "" && !TypeAllowedInDomain(db, c.domain, t) ==> AclApplies(db, c.entity, principal, "allow")
  {
    ViewableFacts(db, principal, Window(ranked, domains, limit));
    assert MayView(db, principal, c);
    AccessRows.EntityViewOnRows(db, principal, c.entity, c.domain, c.sensitivity, c.entityType);
  }
}
