/** The chunk table as a derived view of records and entities (chunks/service.go). */
module ChunkIndex {
  import opened Wrappers
  import opened Text
  import opened Extract
  import Chunker

  type Id = nat

  datatype Body = Body(ordinal: nat, text: string, tokens: nat)

  datatype Row = Row(id: Id, body: Body)

  /** What a chunk is rooted in: exactly one of an entity or a normalized record. */
  datatype Root = Entity(id: Id) | Record(id: Id)

  datatype Rec = Rec(feed: Id, hash: string, recordType: string, payload: Option<Json>, rebuilt: bool)

  datatype Ent = Ent(title: string, summary: Option<string>, body: Option<string>)

  /** Where the processing of one record fails, if anywhere. */
  datatype Fault = Healthy | ReadFails | TxFails | MarkFails | EnqueueFails(at: nat)

  /** `order` lists record ids by created_at; `enqueued` is the log of embedding tasks. */
  datatype State = State(
    records: map<Id, Rec>,
    order: seq<Id>,
    chunks: map<Root, seq<Row>>,
    nextId: Id,
    enqueued: seq<Id>)

  function Rows(st: State, root: Root): seq<Row> {
    if root in st.chunks then st.chunks[root] else []
  }

  function Bodies(rows: seq<Row>): seq<Body> {
    seq(|rows|, i requires 0 <= i < |rows| => rows[i].body)
  }

  function RowIds(rows: seq<Row>): seq<Id> {
    seq(|rows|, i requires 0 <= i < |rows| => rows[i].id)
  }

  function EstimateTokens(s: string): nat { |s| / 4 }

  /** The bodies stored for a list of pieces: blank pieces keep their ordinal but get no row. */
  function Index(pieces: seq<string>, first: nat): seq<Body> {
    if pieces == [] then []
    else
      RowFor(pieces[0], first) + Index(pieces[1..], first + 1)
  }

  /** The row of one piece, if it is not blank. */
  function RowFor(piece: string, ordinal: nat): seq<Body> {
    var t := TrimSpace(piece);
    if t == "" then [] else [Body(ordinal, t, EstimateTokens(t))]
  }

  function IndexText(text: string): seq<Body> {
    Index(Chunker.Split(text, Chunker.MAX_CHUNK_RUNES), 0)
  }

  function Stamp(bodies: seq<Body>, nextId: Id): seq<Row> {
    seq(|bodies|, i requires 0 <= i < |bodies| => Row(nextId + i, bodies[i]))
  }

  /** The text a rebuild would index; None when the rebuild leaves the table alone. */
  function IndexableText(r: Rec): Option<string> {
    var t := ExtractText(r.recordType, r.payload);
    if t.None? || TrimSpace(t.value) == "" then None else t
  }

  /** What the table must hold for a record that has been marked rebuilt. */
  function Expected(r: Rec): seq<Body> {
    var t := IndexableText(r);
    if t.None? then [] else IndexText(t.value)
  }

  function EntityText(e: Ent): string {
    Join([TrimSpace(e.title)] + NonBlank(e.summary) + NonBlank(e.body), BREAK)
  }

  function NonBlank(o: Option<string>): seq<string> {
    if o.Some? && TrimSpace(o.value) != "" then [TrimSpace(o.value)] else []
  }

  // ---- one operation at a time, as functions of the state

  /** DELETE then INSERT for one root, in one transaction. */
  function Replace(st: State, root: Root, bodies: seq<Body>): State {
    st.(chunks := st.chunks[root := Stamp(bodies, st.nextId)], nextId := st.nextId + |bodies|)
  }

  datatype Outcome = Outcome(st: State, ids: seq<Id>, ok: bool)

  function Rebuild(st: State, id: Id, fault: Fault): Outcome {
    if id !in st.records || fault.ReadFails? then Outcome(st, [], false)
    else
      var t := IndexableText(st.records[id]);
      if t.None? then Outcome(st, [], true)
      else if fault.TxFails? then Outcome(st, [], false)
      else
        var st' := Replace(st, Record(id), IndexText(t.value));
        Outcome(st', RowIds(Rows(st', Record(id))), true)
  }

  function Mark(st: State, id: Id): State {
    if id in st.records then st.(records := st.records[id := st.records[id].(rebuilt := true)]) else st
  }

  function Enqueue(st: State, ids: seq<Id>, fault: Fault, pub: bool): Outcome {
    if !pub then Outcome(st, ids, true)
    else if fault.EnqueueFails? && fault.at < |ids| then
      Outcome(st.(enqueued := st.enqueued + ids[..fault.at]), ids, false)
    else Outcome(st.(enqueued := st.enqueued + ids), ids, true)
  }

  function OnPersisted(st: State, id: Id, fault: Fault, pub: bool): Outcome {
    var r := Rebuild(st, id, fault);
    if !r.ok || fault.MarkFails? then r.(ok := false)
    else Enqueue(Mark(r.st, id), r.ids, fault, pub)
  }

  predicate Conflicts(st: State, feed: Id, hash: string) {
    exists id :: id in st.records && st.records[id].feed == feed && st.records[id].hash == hash
  }

  function Insert(st: State, r: Rec): State {
    st.(records := st.records[st.nextId := r.(rebuilt := false)],
        order := st.order + [st.nextId],
        nextId := st.nextId + 1)
  }

  /** ON CONFLICT (feed, hash) DO NOTHING, then the hook; None stands for a service without one. */
  function Persist(st: State, r: Rec, hook: Option<Fault>, pub: bool): State {
    if Conflicts(st, r.feed, r.hash) then st
    else if hook.None? then Insert(st, r)
    else OnPersisted(Insert(st, r), st.nextId, hook.value, pub).st
  }

  function Without(ids: seq<Id>, id: Id): seq<Id> {
    if ids == [] then [] else (if ids[0] == id then [] else [ids[0]]) + Without(ids[1..], id)
  }

  /** Deleting a record cascades to its chunks. */
  function Delete(st: State, id: Id): State {
    st.(records := st.records - {id}, order := Without(st.order, id), chunks := st.chunks - {Record(id)})
  }

  function PendingOf(order: seq<Id>, records: map<Id, Rec>): seq<Id> {
    if order == [] then []
    else (if order[0] in records && !records[order[0]].rebuilt then [order[0]] else [])
         + PendingOf(order[1..], records)
  }

  function Pending(st: State): seq<Id> {
    PendingOf(st.order, st.records)
  }

  function EffectiveLimit(limit: int): nat {
    if limit <= 0 then 100 else limit
  }

  function Batch(st: State, limit: int): seq<Id> {
    var n := EffectiveLimit(limit);
    if n < |Pending(st)| then Pending(st)[..n] else Pending(st)
  }

  datatype Drained = Drained(st: State, processed: nat, failures: seq<Id>)

  function DrainIds(st: State, ids: seq<Id>, faults: Id -> Fault, pub: bool): Drained
    decreases |ids|
  {
    if ids == [] then Drained(st, 0, [])
    else
      var prior := DrainIds(st, ids[..|ids| - 1], faults, pub);
      var id := ids[|ids| - 1];
      var r := OnPersisted(prior.st, id, faults(id), pub);
      if r.ok then Drained(r.st, prior.processed + 1, prior.failures)
      else Drained(r.st, prior.processed, prior.failures + [id])
  }

  function Drain(st: State, limit: int, faults: Id -> Fault, pub: bool): Drained {
    DrainIds(st, Batch(st, limit), faults, pub)
  }

  // ---- the service

  class Service {
    var records: map<Id, Rec>
    var order: seq<Id>
    var chunks: map<Root, seq<Row>>
    var nextId: Id
    var enqueued: seq<Id>
    const pub: bool

    constructor (pub: bool)
      ensures Value() == State(map[], [], map[], 0, []) && this.pub == pub
    {
      records, order, chunks, nextId, enqueued := map[], [], map[], 0, [];
      this.pub := pub;
    }

    ghost function Value(): State
      reads this
    {
      State(records, order, chunks, nextId, enqueued)
    }

    /** The transaction of both rebuilds: delete the root's rows, insert one per non-blank piece. */
    method ReplaceRows(root: Root, pieces: seq<string>) returns (ids: seq<Id>)
      modifies this`chunks, this`nextId
      ensures Value() == Replace(old(Value()), root, Index(pieces, 0))
      ensures ids == RowIds(Rows(Value(), root))
    {
      var rows: seq<Row> := [];
      ids := [];
      ghost var first := nextId;
      for i := 0 to |pieces|
        invariant rows == Stamp(Index(pieces[..i], 0), first) && ids == RowIds(rows)
        invariant nextId == first + |rows| && chunks == old(chunks)
      {
        RowsSnoc(pieces, i, first);
        var t := TrimSpace(pieces[i]);
        if t == "" {
          continue;
        }
        RowIdsSnoc(rows, Row(nextId, Body(i, t, EstimateTokens(t))));
        rows := rows + [Row(nextId, Body(i, t, EstimateTokens(t)))];
        ids := ids + [nextId];
        nextId := nextId + 1;
      }
      assert pieces[..|pieces|] == pieces;
      chunks := chunks[root := rows];
    }

    method RebuildNormalizedRecordChunks(id: Id, fault: Fault) returns (ids: seq<Id>, ok: bool)
      modifies this
      ensures Outcome(Value(), ids, ok) == Rebuild(old(Value()), id, fault)
    {
      if id !in records || fault.ReadFails? {
        return [], false;
      }
      var text := ExtractText(records[id].recordType, records[id].payload);
      if text.None? || TrimSpace(text.value) == "" {
        return [], true;
      }
      var pieces := Chunker.SplitIntoChunks(text.value, Chunker.MAX_CHUNK_RUNES);
      if fault.TxFails? {
        return [], false;
      }
      ids := ReplaceRows(Record(id), pieces);
      ok := true;
    }

    method OnNormalizedRecordPersisted(id: Id, fault: Fault) returns (ok: bool)
      modifies this
      ensures var o := OnPersisted(old(Value()), id, fault, pub); Value() == o.st && ok == o.ok
    {
      var ids;
      ids, ok := RebuildNormalizedRecordChunks(id, fault);
      if !ok || fault.MarkFails? {
        return false;
      }
      records := records[id := records[id].(rebuilt := true)];
      ok := EnqueueEmbeddings(ids, fault);
    }

    method EnqueueEmbeddings(ids: seq<Id>, fault: Fault) returns (ok: bool)
      modifies this`enqueued
      ensures Outcome(Value(), ids, ok) == Enqueue(old(Value()), ids, fault, pub)
    {
      if !pub {
        return true;
      }
      for i := 0 to |ids|
        invariant enqueued == old(enqueued) + ids[..i]
        invariant fault.EnqueueFails? ==> i <= fault.at
      {
        if fault.EnqueueFails? && i == fault.at {
          return false;
        }
        enqueued := enqueued + [ids[i]];
      }
      assert ids[..|ids|] == ids;
      return true;
    }

    method InsertRecord(r: Rec) returns (id: Id)
      modifies this`records, this`order, this`nextId
      ensures Value() == Insert(old(Value()), r) && id == old(nextId)
    {
      id := nextId;
      records, order := records[id := r.(rebuilt := false)], order + [id];
      nextId := nextId + 1;
    }

    /** No id is returned for a conflict and for a failed insert; only the latter is an error. */
    method PersistNormalizedRecord(r: Rec, insertFails: bool, hook: Option<Fault>) returns (id: Option<Id>, ok: bool)
      modifies this
      ensures ok <==> !insertFails
      ensures Value() == if ok then Persist(old(Value()), r, hook, pub) else old(Value())
      ensures id == if insertFails || Conflicts(old(Value()), r.feed, r.hash) then None else Some(old(nextId))
    {
      if insertFails {
        return None, false;
      }
      if exists id :: id in records && records[id].feed == r.feed && records[id].hash == r.hash {
        return None, true;
      }
      var newId := InsertRecord(r);
      if hook.Some? {
        var _ := OnNormalizedRecordPersisted(newId, hook.value);
      }
      return Some(newId), true;
    }

    method RebuildPendingNormalizedRecords(limit: int, faults: Id -> Fault)
      returns (processed: nat, failures: seq<Id>)
      modifies this
      ensures Drained(Value(), processed, failures) == Drain(old(Value()), limit, faults, pub)
    {
      var ids := Batch(State(records, order, chunks, nextId, enqueued), limit);
      processed, failures := 0, [];
      for i := 0 to |ids|
        invariant Drained(Value(), processed, failures) == DrainIds(old(Value()), ids[..i], faults, pub)
      {
        assert ids[..i + 1][..i] == ids[..i];
        var ok := OnNormalizedRecordPersisted(ids[i], faults(ids[i]));
        if !ok {
          failures := failures + [ids[i]];
          continue;
        }
        processed := processed + 1;
      }
      assert ids[..|ids|] == ids;
    }

    /** None stands for a missing or archived entity. */
    method RebuildEntityChunks(id: Id, e: Option<Ent>, fault: Fault) returns (ids: seq<Id>, ok: bool)
      modifies this
      ensures ok <==> e.Some? && !fault.ReadFails? && !fault.TxFails?
      ensures ok ==> Value() == Replace(old(Value()), Entity(id), IndexText(EntityText(e.value)))
      ensures ok ==> ids == RowIds(Rows(Value(), Entity(id)))
      ensures !ok ==> Value() == old(Value()) && ids == []
    {
      if e.None? || fault.ReadFails? {
        return [], false;
      }
      var parts := [TrimSpace(e.value.title)];
      if e.value.summary.Some? && TrimSpace(e.value.summary.value) != "" {
        parts := parts + [TrimSpace(e.value.summary.value)];
      }
      if e.value.body.Some? && TrimSpace(e.value.body.value) != "" {
        parts := parts + [TrimSpace(e.value.body.value)];
      }
      assert parts == [TrimSpace(e.value.title)] + NonBlank(e.value.summary) + NonBlank(e.value.body);
      var pieces := Chunker.SplitIntoChunks(Join(parts, BREAK), Chunker.MAX_CHUNK_RUNES);
      if fault.TxFails? {
        return [], false;
      }
      ids := ReplaceRows(Entity(id), pieces);
      ok := true;
    }
  }

  lemma Grouped<T>(x: seq<T>, y: seq<T>, z: seq<T>)
    ensures (x + y) + z == x + (y + z)
  {}

  lemma {:induction false} IndexAppend(a: seq<string>, b: seq<string>, first: nat)
    ensures Index(a + b, first) == Index(a, first) + Index(b, first + |a|)
  {
    if a == [] {
      assert a + b == b;
      assert [] + Index(b, first) == Index(b, first);
    } else {
      assert (a + b)[1..] == a[1..] + b && (a + b)[0] == a[0];
      IndexAppend(a[1..], b, first + 1);
      Grouped(RowFor(a[0], first), Index(a[1..], first + 1), Index(b, first + |a|));
    }
  }

  lemma IndexSnoc(pieces: seq<string>, i: nat)
    requires i < |pieces|
    ensures var t := TrimSpace(pieces[i]);
            Index(pieces[..i + 1], 0)
            == if t == "" then Index(pieces[..i], 0)
               else Index(pieces[..i], 0) + [Body(i, t, EstimateTokens(t))]
  {
    assert pieces[..i + 1] == pieces[..i] + [pieces[i]];
    IndexAppend(pieces[..i], [pieces[i]], 0);
    assert Index([pieces[i]][1..], i + 1) == [];
  }

  lemma StampSnoc(bodies: seq<Body>, body: Body, first: Id)
    ensures Stamp(bodies + [body], first) == Stamp(bodies, first) + [Row(first + |bodies|, body)]
  {}

  lemma RowIdsSnoc(rows: seq<Row>, row: Row)
    ensures RowIds(rows + [row]) == RowIds(rows) + [row.id]
  {}

  /** The rows of one more piece. */
  lemma RowsSnoc(pieces: seq<string>, i: nat, first: Id)
    requires i < |pieces|
    ensures var t := TrimSpace(pieces[i]);
            var rows := Stamp(Index(pieces[..i], 0), first);
            Stamp(Index(pieces[..i + 1], 0), first)
            == if t == "" then rows else rows + [Row(first + |rows|, Body(i, t, EstimateTokens(t)))]
  {
    var t := TrimSpace(pieces[i]);
    IndexSnoc(pieces, i);
    StampSnoc(Index(pieces[..i], 0), Body(i, t, EstimateTokens(t)), first);
  }
}
