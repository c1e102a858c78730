/** Telegram sync: two-level dedup, counters and cursor
    (ingestion_connectors/service.go, telegram_v1.go, sync_pipeline.go, artifact_worker.go). */
module Telegram {
  import opened Wrappers

  type Hash = string

  /** An update with the hashes of its raw and of its normalized payload; `chat` is None without a message. */
  datatype Update = Update(id: int, chat: Option<int>, rawHash: Hash, normHash: Hash)

  /** Where handling one update fails, if anywhere. */
  datatype Fault = NoFault | MarshalFails | DecodeFails | MetadataFails | RawFails | NormMarshalFails | NormFails

  /** One feed's rows: raw rows unique by content hash, normalized rows unique by record hash,
      each with the raw row it came from. */
  datatype Tables = Tables(raw: set<Hash>, norm: map<Hash, Hash>)

  datatype Progress = Progress(t: Tables, seen: set<Hash>, ingested: nat, deduped: nat, errs: nat)

  function FilterForFeed(updates: seq<Update>, primary: int, allowed: set<int>): seq<Update> {
    if updates == [] || primary !in allowed then []
    else FilterForFeed(updates[..|updates| - 1], primary, allowed)
         + if updates[|updates| - 1].chat == Some(primary) then [updates[|updates| - 1]] else []
  }

  function MaxUpdateId(updates: seq<Update>): int {
    if updates == [] then 0
    else
      var m := MaxUpdateId(updates[..|updates| - 1]);
      if updates[|updates| - 1].id > m then updates[|updates| - 1].id else m
  }

  /** getUpdates offset for a stored last update id. */
  function NextOffset(lastUpdateId: int): int {
    if lastUpdateId <= 0 then 0 else lastUpdateId + 1
  }

  /** ON CONFLICT (feed, record_hash) DO NOTHING. */
  function InsertNorm(t: Tables, u: Update): Tables {
    if u.normHash in t.norm then t else t.(norm := t.norm[u.normHash := u.rawHash])
  }

  function Handle(p: Progress, u: Update, fault: Fault): Progress {
    if fault.MarshalFails? then p.(errs := p.errs + 1)
    else if u.rawHash in p.seen then p.(deduped := p.deduped + 1)
    else
      var q := p.(seen := p.seen + {u.rawHash});
      if fault in {DecodeFails, MetadataFails, RawFails} then q.(errs := q.errs + 1)
      else if u.rawHash in q.t.raw then q.(deduped := q.deduped + 1)
      else
        var r := q.(t := q.t.(raw := q.t.raw + {u.rawHash}));
        if fault in {NormMarshalFails, NormFails} then r.(errs := r.errs + 1)
        else if u.normHash in r.t.norm then r.(deduped := r.deduped + 1)
        else r.(t := InsertNorm(r.t, u), ingested := r.ingested + 1)
  }

  function HandleAll(t: Tables, updates: seq<Update>, fetchErrs: nat, faults: nat -> Fault): Progress {
    if updates == [] then Progress(t, {}, 0, 0, fetchErrs)
    else
      var n := |updates| - 1;
      Handle(HandleAll(t, updates[..n], fetchErrs, faults), updates[n], faults(n))
  }

  class Feed {
    var t: Tables
    var lastUpdateId: int
    const primary: int
    const allowed: set<int>

    constructor (primary: int, allowed: set<int>)
      ensures this.primary == primary && this.allowed == allowed
      ensures t == Tables({}, map[]) && lastUpdateId == 0
    {
      this.primary, this.allowed := primary, allowed;
      t, lastUpdateId := Tables({}, map[]), 0;
    }

    method InsertRawArtifactRow(hash: Hash) returns (inserted: bool)
      modifies this`t
      ensures inserted <==> hash !in old(t).raw
      ensures t == old(t).(raw := old(t).raw + {hash})
    {
      inserted := hash !in t.raw;
      t := t.(raw := t.raw + {hash});
    }

    /** `all` is what one fetch returned; `faults(i)` is what happens to the i-th filtered update. */
    method Sync(all: seq<Update>, fetchErrs: nat, faults: nat -> Fault) returns (ingested: nat, deduped: nat, errs: nat)
      modifies this
      ensures var p := HandleAll(old(t), FilterForFeed(all, primary, allowed), fetchErrs, faults);
              t == p.t && ingested == p.ingested && deduped == p.deduped && errs == p.errs
      ensures lastUpdateId == if MaxUpdateId(all) > 0 then MaxUpdateId(all) else old(lastUpdateId)
    {
      var updates := FilterForFeed(all, primary, allowed);
      var maxAck := MaxUpdateId(all);
      ingested, deduped, errs := 0, 0, fetchErrs;
      var seen: set<Hash> := {};
      for i := 0 to |updates|
        invariant Progress(t, seen, ingested, deduped, errs) == HandleAll(old(t), updates[..i], fetchErrs, faults)
        invariant lastUpdateId == old(lastUpdateId)
      {
        assert updates[..i + 1][..i] == updates[..i];
        var u, fault := updates[i], faults(i);
        if fault.MarshalFails? {
          errs := errs + 1;
          continue;
        }
        if u.rawHash in seen {
          deduped := deduped + 1;
          continue;
        }
        seen := seen + {u.rawHash};
        if fault.DecodeFails? || fault.MetadataFails? || fault.RawFails? {
          errs := errs + 1;
          continue;
        }
        var inserted := InsertRawArtifactRow(u.rawHash);
        if !inserted {
          deduped := deduped + 1;
          continue;
        }
        if fault.NormMarshalFails? || fault.NormFails? {
          errs := errs + 1;
          continue;
        }
        if u.normHash in t.norm {
          deduped := deduped + 1;
          continue;
        }
        t := t.(norm := t.norm[u.normHash := u.rawHash]);
        ingested := ingested + 1;
      }
      assert updates[..|updates|] == updates;
      if maxAck > 0 {
        lastUpdateId := maxAck;
      }
    }

    /** The worker's retry of one stored raw row: nothing when it already has a normalized row.
        `readFails` is a failed lookup; any other fault stops the normalization. */
    method ProcessQueuedRawArtifact(u: Update, readFails: bool, fault: Fault) returns (ok: bool)
      modifies this`t
      ensures var done := u.rawHash in old(t).norm.Values;
              && (ok <==> !readFails && u.rawHash in old(t).raw && (done || (u.chat.Some? && fault.NoFault?)))
              && t == if ok && !done then InsertNorm(old(t), u) else old(t)
      ensures ok && Orphan(old(t), u) && u.rawHash !in old(t).norm.Values ==> t.norm == old(t).norm[u.normHash := u.rawHash]
    {
      if readFails || u.rawHash !in t.raw {
        return false;
      }
      if u.rawHash in t.norm.Values {
        return true;
      }
      if u.chat.None? || !fault.NoFault? {
        return false;
      }
      if u.normHash !in t.norm {
        t := t.(norm := t.norm[u.normHash := u.rawHash]);
      }
      return true;
    }
  }

  // ---- accounting

  lemma HandleCounts(p: Progress, u: Update, fault: Fault)
    ensures var q := Handle(p, u, fault);
            && q.ingested + q.deduped + q.errs == p.ingested + p.deduped + p.errs + 1
            && q.errs >= p.errs && q.ingested >= p.ingested
            && |q.t.norm| - |p.t.norm| == q.ingested - p.ingested
            && p.t.raw <= q.t.raw && Extends(p.t, q.t)
  {}

  /** Normalized rows are only ever added. */
  ghost predicate Extends(t: Tables, t': Tables) {
    forall k | k in t.norm :: k in t'.norm && t'.norm[k] == t.norm[k]
  }

  /** Every filtered update falls in exactly one counter, and ingested is the growth of the
      normalized table. */
  lemma {:induction false} EveryUpdateCounted(t: Tables, updates: seq<Update>, fetchErrs: nat, faults: nat -> Fault)
    ensures var p := HandleAll(t, updates, fetchErrs, faults);
            && p.ingested + p.deduped + p.errs == fetchErrs + |updates|
            && |p.t.norm| == |t.norm| + p.ingested
            && p.errs >= fetchErrs
            && t.raw <= p.t.raw && Extends(t, p.t)
    decreases |updates|
  {
    if updates != [] {
      var n := |updates| - 1;
      EveryUpdateCounted(t, updates[..n], fetchErrs, faults);
      HandleCounts(HandleAll(t, updates[..n], fetchErrs, faults), updates[n], faults(n));
    }
  }

  lemma HandleStores(p: Progress, u: Update, fault: Fault)
    requires p.seen <= p.t.raw && Handle(p, u, fault).errs == 0
    ensures var q := Handle(p, u, fault);
            p.errs == 0 && p.t.raw <= q.t.raw && q.seen <= q.t.raw && u.rawHash in q.t.raw
  {}

  lemma ErrsOnlyGrow(p: Progress, u: Update, fault: Fault)
    ensures Handle(p, u, fault).errs >= p.errs
  {}

  /** After a run without errors, every update's raw row is stored. */
  lemma {:induction false} ErrorFreeRunStoresAll(t: Tables, updates: seq<Update>, fetchErrs: nat, faults: nat -> Fault)
    requires HandleAll(t, updates, fetchErrs, faults).errs == 0
    ensures var p := HandleAll(t, updates, fetchErrs, faults);
            && p.seen <= p.t.raw
            && forall u | u in updates :: u.rawHash in p.t.raw
    decreases |updates|
  {
    if updates != [] {
      var n := |updates| - 1;
      var p := HandleAll(t, updates[..n], fetchErrs, faults);
      assert updates == updates[..n] + [updates[n]];
      ErrsOnlyGrow(p, updates[n], faults(n));
      ErrorFreeRunStoresAll(t, updates[..n], fetchErrs, faults);
      HandleStores(p, updates[n], faults(n));
    }
  }

  /** A batch whose raw rows are all stored changes nothing, whatever fails. */
  lemma {:induction false} StoredBatchIsInert(t: Tables, updates: seq<Update>, fetchErrs: nat, faults: nat -> Fault)
    requires forall u | u in updates :: u.rawHash in t.raw
    ensures var p := HandleAll(t, updates, fetchErrs, faults); p.t == t && p.ingested == 0
    decreases |updates|
  {
    if updates != [] {
      StoredBatchIsInert(t, updates[..|updates| - 1], fetchErrs, faults);
    }
  }

  /** After an error-free run, a second run on the same batch ingests nothing and leaves both tables;
      if it is error-free too, it counts every update as deduplicated. */
  lemma SecondRunIdempotent(
    t: Tables, updates: seq<Update>, faults: nat -> Fault, again: nat -> Fault, againErrs: nat)
    requires HandleAll(t, updates, 0, faults).errs == 0
    ensures var first := HandleAll(t, updates, 0, faults);
            var second := HandleAll(first.t, updates, againErrs, again);
            && second.ingested == 0 && second.t == first.t
            && (second.errs == 0 ==> second.deduped == |updates|)
            && ((forall i :: again(i) == NoFault) ==> second.errs == againErrs)
  {
    ErrorFreeRunStoresAll(t, updates, 0, faults);
    var first := HandleAll(t, updates, 0, faults);
    StoredBatchIsInert(first.t, updates, againErrs, again);
    EveryUpdateCounted(first.t, updates, againErrs, again);
    if forall i :: again(i) == NoFault {
      NoFaultNoError(first.t, updates, againErrs, again);
    }
  }

  /** Without faults only failed fetches count as errors. */
  lemma {:induction false} NoFaultNoError(t: Tables, updates: seq<Update>, fetchErrs: nat, faults: nat -> Fault)
    requires forall i :: faults(i) == NoFault
    ensures HandleAll(t, updates, fetchErrs, faults).errs == fetchErrs
    decreases |updates|
  {
    if updates != [] {
      NoFaultNoError(t, updates[..|updates| - 1], fetchErrs, faults);
    }
  }

  // ---- what a sync stores, and what it leaves without a record

  /** What happens to the first copy of a raw hash that can be marshalled; later copies only count. */
  function Decider(updates: seq<Update>, faults: nat -> Fault, hash: Hash): Option<Fault> {
    if updates == [] then None
    else
      var n := |updates| - 1;
      var earlier := Decider(updates[..n], faults, hash);
      if earlier.Some? || updates[n].rawHash != hash || faults(n).MarshalFails? then earlier else Some(faults(n))
  }

  /** A raw hash that was new to the feed and whose first copy met no fault. */
  predicate Stored(t: Tables, updates: seq<Update>, faults: nat -> Fault, hash: Hash) {
    hash !in t.raw && Decider(updates, faults, hash) == Some(NoFault)
  }

  /** Some update with this normalized hash was stored. */
  ghost predicate Recorded(t: Tables, updates: seq<Update>, faults: nat -> Fault, normHash: Hash) {
    exists u :: u in updates && u.normHash == normHash && Stored(t, updates, faults, u.rawHash)
  }

  /** Equal raw payloads normalize alike. */
  ghost predicate RawDeterminesNorm(updates: seq<Update>) {
    forall u, v | u in updates && v in updates && u.rawHash == v.rawHash :: u.normHash == v.normHash
  }

  lemma DeciderSnoc(updates: seq<Update>, faults: nat -> Fault, u: Update, hash: Hash)
    ensures var earlier := Decider(updates, faults, hash);
            Decider(updates + [u], faults, hash)
            == if earlier.Some? || u.rawHash != hash || faults(|updates|).MarshalFails? then earlier
               else Some(faults(|updates|))
  {
    assert (updates + [u])[..|updates|] == updates;
  }

  lemma {:induction false} DeciderFound(updates: seq<Update>, faults: nat -> Fault, hash: Hash)
    requires Decider(updates, faults, hash).Some?
    ensures !Decider(updates, faults, hash).value.MarshalFails?
    ensures exists u :: u in updates && u.rawHash == hash
    decreases |updates|
  {
    var n := |updates| - 1;
    if Decider(updates[..n], faults, hash).Some? {
      DeciderFound(updates[..n], faults, hash);
      var u :| u in updates[..n] && u.rawHash == hash;
      assert u in updates;
    } else {
      assert updates[n] in updates;
    }
  }

  predicate StopsBeforeRaw(f: Fault) {
    f in {DecodeFails, MetadataFails, RawFails}
  }

  /** What a sync has seen and stored, hash by hash. */
  lemma {:induction false} RawFate(t: Tables, updates: seq<Update>, fetchErrs: nat, faults: nat -> Fault, hash: Hash)
    ensures var p, d := HandleAll(t, updates, fetchErrs, faults), Decider(updates, faults, hash);
            && (hash in p.seen <==> d.Some?)
            && (hash in p.t.raw <==> hash in t.raw || (d.Some? && !StopsBeforeRaw(d.value)))
    decreases |updates|
  {
    if updates != [] {
      var n := |updates| - 1;
      RawFate(t, updates[..n], fetchErrs, faults, hash);
    }
  }

  /** A sync stores the record of a normalized hash new to the feed exactly when the first
      readable copy of one of its raw hashes, itself new to the feed, meets no fault. */
  lemma {:induction false} NormFate(t: Tables, updates: seq<Update>, fetchErrs: nat, faults: nat -> Fault, normHash: Hash)
    requires RawDeterminesNorm(updates)
    ensures normHash in HandleAll(t, updates, fetchErrs, faults).t.norm
            <==> normHash in t.norm || Recorded(t, updates, faults, normHash)
    decreases |updates|
  {
    if updates != [] {
      var n := |updates| - 1;
      var init, u := updates[..n], updates[n];
      assert updates == init + [u];
      NormFate(t, init, fetchErrs, faults, normHash);
      RawFate(t, init, fetchErrs, faults, u.rawHash);
      RecordedSnoc(t, init, faults, u, normHash);
      HandleRecords(HandleAll(t, init, fetchErrs, faults), u, faults(n), normHash);
    }
  }

  lemma HandleRecords(p: Progress, u: Update, fault: Fault, normHash: Hash)
    ensures normHash in Handle(p, u, fault).t.norm
            <==> || normHash in p.t.norm
                 || (u.normHash == normHash && u.rawHash !in p.seen && u.rawHash !in p.t.raw && fault.NoFault?)
  {}

  /** One more update adds its record exactly when it decides its raw hash and meets no fault. */
  predicate Adds(t: Tables, init: seq<Update>, faults: nat -> Fault, u: Update, normHash: Hash) {
    u.normHash == normHash && u.rawHash !in t.raw && faults(|init|).NoFault? && Decider(init, faults, u.rawHash).None?
  }

  lemma RecordedSnoc(t: Tables, init: seq<Update>, faults: nat -> Fault, u: Update, normHash: Hash)
    requires RawDeterminesNorm(init + [u])
    ensures Recorded(t, init + [u], faults, normHash)
            <==> Recorded(t, init, faults, normHash) || Adds(t, init, faults, u, normHash)
  {
    var all := init + [u];
    if Recorded(t, all, faults, normHash) {
      var v :| v in all && v.normHash == normHash && Stored(t, all, faults, v.rawHash);
      RecordedBefore(t, init, faults, u, v);
    }
    if Recorded(t, init, faults, normHash) {
      var v :| v in init && v.normHash == normHash && Stored(t, init, faults, v.rawHash);
      DeciderSnoc(init, faults, u, v.rawHash);
      assert v in all && Stored(t, all, faults, v.rawHash);
    }
    if Adds(t, init, faults, u, normHash) {
      DeciderSnoc(init, faults, u, u.rawHash);
      assert u in all && Stored(t, all, faults, u.rawHash);
    }
  }

  lemma RecordedBefore(t: Tables, init: seq<Update>, faults: nat -> Fault, u: Update, v: Update)
    requires RawDeterminesNorm(init + [u])
    requires v in init + [u] && Stored(t, init + [u], faults, v.rawHash)
    ensures Recorded(t, init, faults, v.normHash) || Adds(t, init, faults, u, v.normHash)
  {
    DeciderSnoc(init, faults, u, v.rawHash);
    assert u in init + [u];
    if Decider(init, faults, v.rawHash).Some? {
      DeciderFound(init, faults, v.rawHash);
      var w :| w in init && w.rawHash == v.rawHash;
      assert w in init + [u] && Stored(t, init, faults, w.rawHash);
    }
  }

  predicate Orphan(t: Tables, u: Update) {
    u.rawHash in t.raw && u.normHash !in t.norm
  }

  /** Exactly when a sync leaves the raw row of an update without its record: the row was there
      before, or the first readable copy got as far as the raw table and no further. */
  lemma OrphanIff(t: Tables, updates: seq<Update>, fetchErrs: nat, faults: nat -> Fault, u: Update)
    requires u in updates && RawDeterminesNorm(updates)
    requires forall v | v in updates && v.normHash == u.normHash :: v.rawHash == u.rawHash
    ensures Orphan(HandleAll(t, updates, fetchErrs, faults).t, u)
            <==> && u.normHash !in t.norm
                 && (u.rawHash in t.raw
                     || Decider(updates, faults, u.rawHash) in {Some(NormMarshalFails), Some(NormFails)})
  {
    RawFate(t, updates, fetchErrs, faults, u.rawHash);
    NormFate(t, updates, fetchErrs, faults, u.normHash);
    if Decider(updates, faults, u.rawHash).Some? {
      DeciderFound(updates, faults, u.rawHash);
    }
  }

  /** No later sync makes up for a failed normalized write: an error-free one of the same update
      stores nothing, and counts it as a duplicate. */
  lemma FailedNormLosesRecord(u: Update, faults: nat -> Fault, again: nat -> Fault)
    requires faults(0) == NormFails && again(0) == NoFault
    ensures var first := HandleAll(Tables({}, map[]), [u], 0, faults);
            var second := HandleAll(first.t, [u], 0, again);
            first.t == second.t == Tables({u.rawHash}, map[]) && second.errs == 0 && second.deduped == 1
  {
    OneUpdate(Tables({}, map[]), u, faults);
    OneUpdate(HandleAll(Tables({}, map[]), [u], 0, faults).t, u, again);
  }

  lemma OneUpdate(t: Tables, u: Update, faults: nat -> Fault)
    ensures HandleAll(t, [u], 0, faults) == Handle(Progress(t, {}, 0, 0, 0), u, faults(0))
  {
    assert [u][..0] == [];
    assert HandleAll(t, [u][..0], 0, faults) == Progress(t, {}, 0, 0, 0);
  }

  /** No later sync of any batch turns an orphan into a record: its payload only counts as a duplicate. */
  lemma {:induction false} OrphanStaysOrphan(t: Tables, u: Update, updates: seq<Update>, fetchErrs: nat, faults: nat -> Fault)
    requires Orphan(t, u)
    requires forall v | v in updates && v.normHash == u.normHash :: v.rawHash == u.rawHash
    ensures Orphan(HandleAll(t, updates, fetchErrs, faults).t, u)
    decreases |updates|
  {
    if updates != [] {
      var n := |updates| - 1;
      assert updates == updates[..n] + [updates[n]];
      OrphanStaysOrphan(t, u, updates[..n], fetchErrs, faults);
    }
  }

  // ---- the filter

  /** The updates of the primary chat, in order, if the feed allows that chat at all. */
  lemma {:induction false} FilterAppends(a: seq<Update>, b: seq<Update>, primary: int, allowed: set<int>)
    ensures FilterForFeed(a + b, primary, allowed) == FilterForFeed(a, primary, allowed) + FilterForFeed(b, primary, allowed)
    decreases |b|
  {
    if b == [] {
      assert a + b == a;
    } else {
      var init, u := b[..|b| - 1], b[|b| - 1];
      assert (a + b)[..|a + b| - 1] == a + init && (a + b)[|a + b| - 1] == u;
      FilterAppends(a, init, primary, allowed);
    }
  }

  lemma FilterOne(u: Update, primary: int, allowed: set<int>)
    ensures FilterForFeed([u], primary, allowed) == if primary in allowed && u.chat == Some(primary) then [u] else []
  {
    assert [u][..0] == [];
  }

  lemma {:induction false} FilterKeeps(updates: seq<Update>, primary: int, allowed: set<int>)
    ensures forall u :: u in FilterForFeed(updates, primary, allowed)
                        <==> u in updates && primary in allowed && u.chat == Some(primary)
    decreases |updates|
  {
    if updates != [] {
      var init := updates[..|updates| - 1];
      assert updates == init + [updates[|updates| - 1]];
      FilterKeeps(init, primary, allowed);
    }
  }

  // ---- the cursor

  /** The greatest positive id, attained; zero when there is none. */
  lemma {:induction false} MaxBounds(updates: seq<Update>)
    ensures forall u | u in updates :: u.id <= MaxUpdateId(updates)
    ensures MaxUpdateId(updates) == 0 || exists u :: u in updates && u.id == MaxUpdateId(updates)
    ensures MaxUpdateId(updates) >= 0
    decreases |updates|
  {
    if updates != [] {
      var n := |updates| - 1;
      assert updates == updates[..n] + [updates[n]];
      MaxBounds(updates[..n]);
    }
  }

  /** The cursor passes every fetched update, stored or not: with positive ids, the next offset
      excludes all of them. */
  lemma CursorPassesWholeBatch(all: seq<Update>, u: Update)
    requires u in all && u.id > 0
    ensures MaxUpdateId(all) > 0 && NextOffset(MaxUpdateId(all)) > u.id
  {
    MaxBounds(all);
  }
}
