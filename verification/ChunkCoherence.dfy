/** What every run of the chunk service keeps, and how the backfill drains (chunks/service.go). */
module ChunkCoherence {
  import opened Wrappers
  import opened Text
  import opened ChunkIndex
  import Chunker

  // ---- the rows of one text

  ghost predicate RowOf(row: Body, pieces: seq<string>, first: nat) {
    && first <= row.ordinal < first + |pieces|
    && row.text == TrimSpace(pieces[row.ordinal - first]) != ""
    && 4 * row.tokens <= |row.text| < 4 * row.tokens + 4
  }

  ghost predicate OrdinalsIncrease(rows: seq<Body>) {
    forall j, k | 0 <= j < k < |rows| :: rows[j].ordinal < rows[k].ordinal
  }

  /** Every row is its piece, trimmed and not blank; ordinals increase strictly. */
  lemma {:induction false} IndexRows(pieces: seq<string>, first: nat)
    ensures forall row | row in Index(pieces, first) :: RowOf(row, pieces, first)
    ensures OrdinalsIncrease(Index(pieces, first))
  {
    if pieces != [] {
      var rest := Index(pieces[1..], first + 1);
      IndexRows(pieces[1..], first + 1);
      forall row | row in rest ensures RowOf(row, pieces, first) && row.ordinal > first {
        assert RowOf(row, pieces[1..], first + 1);
      }
    }
  }

  /** Every non-blank piece has its row. */
  lemma {:induction false} IndexComplete(pieces: seq<string>, first: nat, i: nat)
    requires i < |pieces| && TrimSpace(pieces[i]) != ""
    ensures exists row :: row in Index(pieces, first) && row.ordinal == first + i
  {
    if i == 0 {
      assert Index(pieces, first)[0].ordinal == first;
    } else {
      IndexComplete(pieces[1..], first + 1, i - 1);
      var row :| row in Index(pieces[1..], first + 1) && row.ordinal == first + 1 + (i - 1);
      assert row in Index(pieces, first);
    }
  }

  function Texts(rows: seq<Body>): seq<string> {
    seq(|rows|, i requires 0 <= i < |rows| => rows[i].text)
  }

  lemma {:induction false} IndexTextsSqueezed(pieces: seq<string>, first: nat)
    ensures Texts(Index(pieces, first)) == Clean(pieces)
  {
    if pieces != [] {
      IndexTextsSqueezed(pieces[1..], first + 1);
    }
  }

  /** The stored rows of a text hold all of it but white space, and each row splits to itself. */
  lemma StoredTextConserved(text: string)
    ensures Squeeze(Concat(Texts(IndexText(text)))) == Squeeze(text)
    ensures forall t | t in Texts(IndexText(text)) :: Chunker.Split(t, Chunker.MAX_CHUNK_RUNES) == [t]
  {
    var pieces := Chunker.Split(text, Chunker.MAX_CHUNK_RUNES);
    IndexTextsSqueezed(pieces, 0);
    SqueezeClean(pieces);
    Chunker.ContentConserved(text, Chunker.MAX_CHUNK_RUNES);
    forall t | t in Texts(IndexText(text)) ensures Chunker.Split(t, Chunker.MAX_CHUNK_RUNES) == [t] {
      IndexRows(pieces, 0);
      var j :| 0 <= j < |IndexText(text)| && IndexText(text)[j].text == t;
      assert RowOf(IndexText(text)[j], pieces, 0);
      Chunker.ResplitFixedPoint(text, Chunker.MAX_CHUNK_RUNES, pieces[IndexText(text)[j].ordinal]);
    }
  }

  // ---- coherence

  ghost predicate RecordCoherent(st: State, id: Id)
    requires id in st.records
  {
    var rows := Bodies(Rows(st, Record(id)));
    && (rows == [] || rows == Expected(st.records[id]))
    && (st.records[id].rebuilt ==> rows == Expected(st.records[id]))
  }

  ghost predicate Distinct(ids: seq<Id>) {
    forall i, j | 0 <= i < j < |ids| :: ids[i] != ids[j]
  }

  /** Ids are handed out in the order of creation. */
  ghost predicate Increasing(ids: seq<Id>) {
    forall i, j | 0 <= i < j < |ids| :: ids[i] < ids[j]
  }

  ghost predicate Coherent(st: State) {
    && (forall id | id in st.records :: id < st.nextId && id in st.order && RecordCoherent(st, id))
    && (forall id | id in st.order :: id in st.records)
    && (forall i, j | i in st.records && j in st.records && i != j ::
          st.records[i].feed != st.records[j].feed || st.records[i].hash != st.records[j].hash)
    && Distinct(st.order) && Increasing(st.order)
    && (forall id :: Record(id) in st.chunks ==> id in st.records)
  }

  lemma StampBodies(bodies: seq<Body>, nextId: Id)
    ensures Bodies(Stamp(bodies, nextId)) == bodies
  {}

  /** A successful rebuild leaves exactly the expected rows; any rebuild leaves other roots alone. */
  lemma RebuildCoherent(st: State, id: Id, fault: Fault)
    requires Coherent(st)
    ensures var r := Rebuild(st, id, fault);
            && Coherent(r.st) && r.st.records == st.records && r.st.order == st.order
            && (r.ok ==> id in st.records && Bodies(Rows(r.st, Record(id))) == Expected(st.records[id]))
            && (forall root | root != Record(id) :: Rows(r.st, root) == Rows(st, root))
            && (!r.ok ==> r.st == st && (id !in st.records || fault.ReadFails? || fault.TxFails?))
            && r.ids == (if r.st == st then [] else RowIds(Rows(r.st, Record(id))))
  {
    var r := Rebuild(st, id, fault);
    if id in st.records {
      var t := IndexableText(st.records[id]);
      assert RecordCoherent(st, id);
      if t.Some? && r.ok {
        StampBodies(IndexText(t.value), st.nextId);
      }
      forall other | other in st.records ensures RecordCoherent(r.st, other) {
        assert RecordCoherent(st, other);
      }
    }
  }

  lemma MarkCoherent(st: State, id: Id)
    requires Coherent(st) && id in st.records
    requires Bodies(Rows(st, Record(id))) == Expected(st.records[id])
    ensures Coherent(Mark(st, id))
  {
    var st' := Mark(st, id);
    forall other | other in st'.records ensures RecordCoherent(st', other) {
      assert RecordCoherent(st, other);
    }
  }

  lemma CoherentSameTables(st: State, st': State)
    requires Coherent(st) && st' == st.(enqueued := st'.enqueued)
    ensures Coherent(st')
  {
    forall id | id in st'.records ensures RecordCoherent(st', id) {
      assert RecordCoherent(st, id);
    }
  }

  lemma OnPersistedCoherent(st: State, id: Id, fault: Fault, pub: bool)
    requires Coherent(st)
    ensures var r := OnPersisted(st, id, fault, pub);
            && Coherent(r.st) && r.st.order == st.order
            && (r.st.records == st.records || (id in st.records && r.st.records == Mark(st, id).records))
            && (r.ok ==> id in st.records && r.st.records == Mark(st, id).records)
  {
    RebuildCoherent(st, id, fault);
    var r := Rebuild(st, id, fault);
    if r.ok && !fault.MarkFails? {
      MarkCoherent(r.st, id);
      CoherentSameTables(Mark(r.st, id), Enqueue(Mark(r.st, id), r.ids, fault, pub).st);
    }
  }

  lemma InsertCoherent(st: State, rec: Rec)
    requires Coherent(st) && !Conflicts(st, rec.feed, rec.hash)
    ensures Coherent(Insert(st, rec))
  {
    var st' := Insert(st, rec);
    assert st.nextId !in st.records;
    IncreasingSnoc(st.order, st.nextId);
    forall id | id in st'.records ensures id in st'.order && RecordCoherent(st', id) {
      if id in st.records {
        assert RecordCoherent(st, id);
      } else {
        assert Rows(st', Record(id)) == [];
        assert st'.order[|st.order|] == id;
      }
    }
  }

  lemma DistinctCons(id: Id, ids: seq<Id>)
    requires Distinct(ids) && id !in ids
    ensures Distinct([id] + ids)
  {}

  lemma IncreasingCons(id: Id, ids: seq<Id>)
    requires Increasing(ids) && forall x | x in ids :: id < x
    ensures Increasing([id] + ids)
  {
    forall j | 0 <= j < |ids| ensures id < ids[j] {
      assert ids[j] in ids;
    }
  }

  lemma IncreasingSnoc(ids: seq<Id>, id: Id)
    requires Increasing(ids) && forall x | x in ids :: x < id
    ensures Increasing(ids + [id])
  {
    forall j | 0 <= j < |ids| ensures ids[j] < id {
      assert ids[j] in ids;
    }
  }

  lemma {:induction false} WithoutFacts(ids: seq<Id>, id: Id)
    requires Distinct(ids)
    ensures Distinct(Without(ids, id)) && (Increasing(ids) ==> Increasing(Without(ids, id)))
    ensures forall x :: x in Without(ids, id) <==> x in ids && x != id
    ensures |Without(ids, id)| == if id in ids then |ids| - 1 else |ids|
  {
    if ids != [] {
      WithoutFacts(ids[1..], id);
      assert ids == [ids[0]] + ids[1..];
      assert ids[0] !in ids[1..];
      DistinctCons(ids[0], Without(ids[1..], id));
      if Increasing(ids) {
        assert forall x | x in ids[1..] :: ids[0] < x;
        IncreasingCons(ids[0], Without(ids[1..], id));
      }
    }
  }

  lemma DeleteCoherent(st: State, id: Id)
    requires Coherent(st)
    ensures Coherent(Delete(st, id))
  {
    var st' := Delete(st, id);
    WithoutFacts(st.order, id);
    forall other | other in st'.records ensures RecordCoherent(st', other) {
      assert RecordCoherent(st, other);
    }
  }

  // ---- runs

  datatype Step =
    | PersistStep(r: Rec, hook: Option<Fault>)
    | HookStep(id: Id, fault: Fault)
    | RebuildStep(id: Id, fault: Fault)
    | DrainStep(limit: int, faults: Id -> Fault)
    | EntityStep(id: Id, e: Ent)
    | DeleteStep(id: Id)

  function Do(st: State, step: Step, pub: bool): State {
    match step
    case PersistStep(r, hook) => Persist(st, r, hook, pub)
    case HookStep(id, fault) => OnPersisted(st, id, fault, pub).st
    case RebuildStep(id, fault) => Rebuild(st, id, fault).st
    case DrainStep(limit, faults) => Drain(st, limit, faults, pub).st
    case EntityStep(id, e) => Replace(st, Entity(id), IndexText(EntityText(e)))
    case DeleteStep(id) => Delete(st, id)
  }

  function Run(st: State, steps: seq<Step>, pub: bool): State
    decreases |steps|
  {
    if steps == [] then st else Run(Do(st, steps[0], pub), steps[1..], pub)
  }

  lemma {:induction false} DrainIdsCoherent(st: State, ids: seq<Id>, faults: Id -> Fault, pub: bool)
    requires Coherent(st)
    ensures Coherent(DrainIds(st, ids, faults, pub).st)
    decreases |ids|
  {
    if ids != [] {
      var init, id := ids[..|ids| - 1], ids[|ids| - 1];
      DrainIdsCoherent(st, init, faults, pub);
      OnPersistedCoherent(DrainIds(st, init, faults, pub).st, id, faults(id), pub);
    }
  }

  lemma StepCoherent(st: State, step: Step, pub: bool)
    requires Coherent(st)
    ensures Coherent(Do(st, step, pub))
  {
    match step
    case PersistStep(r, hook) =>
      if !Conflicts(st, r.feed, r.hash) {
        InsertCoherent(st, r);
        if hook.Some? {
          OnPersistedCoherent(Insert(st, r), st.nextId, hook.value, pub);
        }
      }
    case HookStep(id, fault) => OnPersistedCoherent(st, id, fault, pub);
    case RebuildStep(id, fault) => RebuildCoherent(st, id, fault);
    case DrainStep(limit, faults) => DrainIdsCoherent(st, Batch(st, limit), faults, pub);
    case EntityStep(id, e) =>
      var st' := Do(st, step, pub);
      forall other | other in st'.records ensures RecordCoherent(st', other) {
        assert RecordCoherent(st, other);
      }
    case DeleteStep(id) => DeleteCoherent(st, id);
  }

  /** In every state of every run, stored chunks are empty or exactly what extract-then-split
      yields, and exactly that once the record is marked. A crash is a step with its fault. */
  lemma {:induction false} RunCoherent(st: State, steps: seq<Step>, pub: bool)
    requires Coherent(st)
    ensures Coherent(Run(st, steps, pub))
    decreases |steps|
  {
    if steps != [] {
      StepCoherent(st, steps[0], pub);
      RunCoherent(Do(st, steps[0], pub), steps[1..], pub);
    }
  }

  lemma EveryRunCoherent(steps: seq<Step>, pub: bool)
    ensures Coherent(Run(State(map[], [], map[], 0, []), steps, pub))
  {
    RunCoherent(State(map[], [], map[], 0, []), steps, pub);
  }

  /** When the hook succeeds, an embedding task has been enqueued for every row it stored, in order. */
  lemma HookEnqueuesEveryRow(st: State, id: Id, fault: Fault)
    requires Coherent(st) && OnPersisted(st, id, fault, true).ok
    ensures var st' := OnPersisted(st, id, fault, true).st;
            && id in st.records && Bodies(Rows(st', Record(id))) == Expected(st.records[id])
            && st'.enqueued == st.enqueued + RowIds(Rows(st', Record(id)))
  {
    RebuildCoherent(st, id, fault);
    assert RecordCoherent(st, id);
    var r := Rebuild(st, id, fault);
    if r.st == st {
      assert r.ids == [];
    }
  }

  /** After one successful rebuild, any further rebuild of the record keeps every stored text row. */
  lemma RebuildIdempotent(st: State, id: Id, first: Fault, again: Fault)
    requires Coherent(st) && Rebuild(st, id, first).ok
    ensures var st1 := Rebuild(st, id, first).st;
            var st2 := Rebuild(st1, id, again).st;
            && Bodies(Rows(st2, Record(id))) == Bodies(Rows(st1, Record(id)))
            && (forall root | root != Record(id) :: Rows(st2, root) == Rows(st, root))
  {
    RebuildCoherent(st, id, first);
    RebuildCoherent(Rebuild(st, id, first).st, id, again);
  }

  lemma NonBlankTrimmed(o: Option<string>)
    ensures forall p | p in NonBlank(o) :: TrimSpace(p) == p != ""
  {
    if o.Some? {
      TrimFacts(o.value);
      TrimFacts(TrimSpace(o.value));
    }
  }

  /** Joining a possibly empty head with trimmed parts keeps every part's paragraphs. */
  lemma JoinedParagraphs(t: string, rest: seq<string>)
    requires Trimmed(t) && forall p | p in rest :: TrimSpace(p) == p != ""
    ensures Paragraphs(Join([t] + rest, BREAK)) == AllParagraphs([t] + rest)
  {
    assert ([t] + rest)[1..] == rest;
    forall p | p in rest ensures Trimmed(p) { TrimFacts(p); }
    if t != "" {
      ParagraphsOfJoined([t] + rest);
    } else {
      ParagraphsOfJoined(rest);
      NoParagraphs();
      if rest == [] {
        assert [t] + rest == [""];
      } else {
        LeadingBreak(Join(rest, BREAK));
        assert Join([t] + rest, BREAK) == BREAK + Join(rest, BREAK);
      }
    }
  }

  /** A rebuilt entity's chunks carry the paragraphs of title, summary and body in that order. */
  lemma EntityParagraphs(e: Ent)
    ensures Paragraphs(EntityText(e))
            == AllParagraphs([TrimSpace(e.title)] + NonBlank(e.summary) + NonBlank(e.body))
  {
    var t, rest := TrimSpace(e.title), NonBlank(e.summary) + NonBlank(e.body);
    TrimFacts(e.title);
    NonBlankTrimmed(e.summary);
    NonBlankTrimmed(e.body);
    JoinedParagraphs(t, rest);
    assert [t] + NonBlank(e.summary) + NonBlank(e.body) == [t] + rest;
  }

  lemma LeadingBreak(s: string)
    ensures Paragraphs(BREAK + s) == Paragraphs(s)
  {
    assert (BREAK + s)[1..] == "\n" + s && ("\n" + s)[1..] == s;
    assert TrimLeft(BREAK + s) == TrimLeft("\n" + s) == TrimLeft(s);
  }

  // ---- the backfill

  /** The records waiting to be chunked are listed in the order of their creation. */
  lemma {:induction false} PendingInOrder(order: seq<Id>, records: map<Id, Rec>)
    requires Distinct(order) && Increasing(order)
    ensures Increasing(PendingOf(order, records))
  {
    if order != [] {
      var rest := PendingOf(order[1..], records);
      PendingInOrder(order[1..], records);
      PendingFacts(order[1..], records);
      assert forall x | x in order[1..] :: order[0] < x;
      IncreasingCons(order[0], rest);
    }
  }

  lemma {:induction false} PendingFacts(order: seq<Id>, records: map<Id, Rec>)
    requires Distinct(order)
    ensures Distinct(PendingOf(order, records))
    ensures forall id :: id in PendingOf(order, records) <==> id in order && id in records && !records[id].rebuilt
  {
    if order != [] {
      PendingFacts(order[1..], records);
      assert order == [order[0]] + order[1..];
    }
  }

  lemma {:induction false} MarkPending(order: seq<Id>, records: map<Id, Rec>, id: Id)
    requires id in records && Distinct(order)
    ensures PendingOf(order, records[id := records[id].(rebuilt := true)]) == Without(PendingOf(order, records), id)
  {
    if order != [] {
      MarkPending(order[1..], records, id);
      var tail := PendingOf(order[1..], records);
      if order[0] in records && !records[order[0]].rebuilt {
        assert PendingOf(order, records) == [order[0]] + tail;
        assert ([order[0]] + tail)[1..] == tail;
      } else {
        assert PendingOf(order, records) == tail;
      }
    }
  }

  /** Draining ids: every id is counted once, and the pending list loses at least the processed
      ids, at most all of them, and nothing else. */
  lemma {:induction false} DrainIdsCounts(st: State, ids: seq<Id>, faults: Id -> Fault, pub: bool)
    requires Coherent(st) && Distinct(ids) && forall id | id in ids :: id in Pending(st)
    ensures var d := DrainIds(st, ids, faults, pub);
            && d.processed + |d.failures| == |ids|
            && |Pending(st)| - |ids| <= |Pending(d.st)| <= |Pending(st)| - d.processed
            && (forall id | id in Pending(st) && id !in ids :: id in Pending(d.st))
    decreases |ids|
  {
    if ids != [] {
      var init, id := ids[..|ids| - 1], ids[|ids| - 1];
      assert ids == init + [id];
      DrainIdsCounts(st, init, faults, pub);
      DrainIdsCoherent(st, init, faults, pub);
      var d := DrainIds(st, init, faults, pub);
      assert id !in init && id in Pending(d.st);
      PendingFacts(d.st.order, d.st.records);
      OnPersistedCoherent(d.st, id, faults(id), pub);
      MarkPending(d.st.order, d.st.records, id);
      WithoutFacts(Pending(d.st), id);
    }
  }

  /** One backfill call takes the oldest min(limit, pending) records and accounts for each of them. */
  lemma DrainCounts(st: State, limit: int, faults: Id -> Fault, pub: bool)
    requires Coherent(st)
    ensures var n := EffectiveLimit(limit);
            var d := Drain(st, limit, faults, pub);
            && Batch(st, limit) <= Pending(st) && Increasing(Pending(st))
            && d.processed + |d.failures| == |Batch(st, limit)| == (if n < |Pending(st)| then n else |Pending(st)|)
            && d.processed <= |Pending(st)| - |Pending(d.st)| <= d.processed + |d.failures|
  {
    PendingFacts(st.order, st.records);
    PendingInOrder(st.order, st.records);
    DrainIdsCounts(st, Batch(st, limit), faults, pub);
  }

  /** A healthy pass over the oldest pending record takes it off the list. */
  lemma HealthyOne(st: State, pub: bool)
    requires Coherent(st) && Pending(st) != []
    ensures Pending(OnPersisted(st, Pending(st)[0], Healthy, pub).st) == Pending(st)[1..]
  {
    var id := Pending(st)[0];
    PendingFacts(st.order, st.records);
    assert id in Pending(st);
    OnPersistedCoherent(st, id, Healthy, pub);
    MarkPending(st.order, st.records, id);
    WithoutHead(Pending(st));
  }

  lemma {:induction false} HealthyDrain(st: State, n: nat, faults: Id -> Fault, pub: bool)
    requires Coherent(st) && n <= |Pending(st)|
    requires forall id | id in Pending(st) :: faults(id) == Healthy
    ensures Pending(DrainIds(st, Pending(st)[..n], faults, pub).st) == Pending(st)[n..]
    decreases n
  {
    var ids := Pending(st);
    if n > 0 {
      HealthyDrain(st, n - 1, faults, pub);
      DrainIdsCoherent(st, ids[..n - 1], faults, pub);
      DrainSnoc(st, ids[..n - 1], ids[n - 1], faults, pub);
      assert ids[..n - 1] + [ids[n - 1]] == ids[..n];
      HealthyOne(DrainIds(st, ids[..n - 1], faults, pub).st, pub);
      assert ids[n - 1..][1..] == ids[n..];
    }
  }

  lemma DrainSnoc(st: State, ids: seq<Id>, id: Id, faults: Id -> Fault, pub: bool)
    ensures DrainIds(st, ids + [id], faults, pub).st
            == OnPersisted(DrainIds(st, ids, faults, pub).st, id, faults(id), pub).st
  {
    assert (ids + [id])[..|ids|] == ids;
  }

  lemma WithoutHead(ids: seq<Id>)
    requires ids != [] && Distinct(ids)
    ensures Without(ids, ids[0]) == ids[1..]
  {
    WithoutAbsent(ids[1..], ids[0]);
  }

  lemma {:induction false} WithoutAbsent(ids: seq<Id>, id: Id)
    requires id !in ids
    ensures Without(ids, id) == ids
  {
    if ids != [] {
      WithoutAbsent(ids[1..], id);
    }
  }

  function AllHealthy(id: Id): Fault { Healthy }

  function DrainTimes(st: State, limit: int, times: nat, pub: bool): State
    decreases times
  {
    if times == 0 then st else DrainTimes(Drain(st, limit, AllHealthy, pub).st, limit, times - 1, pub)
  }

  lemma OneCallLess(times: nat, limit: nat, p: nat)
    requires times > 0 && times * limit >= p
    ensures (times - 1) * limit >= p - limit && (times - 1) * limit >= 0
  {
    assert times * limit == (times - 1) * limit + limit;
  }

  /** Without failures, ceiling(P / limit) calls empty a backlog of P records. */
  lemma {:induction false} BacklogDrains(st: State, limit: int, times: nat, pub: bool)
    requires Coherent(st) && times * EffectiveLimit(limit) >= |Pending(st)|
    ensures Pending(DrainTimes(st, limit, times, pub)) == []
    decreases times
  {
    if times > 0 {
      var n := |Batch(st, limit)|;
      assert Batch(st, limit) == Pending(st)[..n];
      HealthyDrain(st, n, AllHealthy, pub);
      DrainIdsCoherent(st, Batch(st, limit), AllHealthy, pub);
      OneCallLess(times, EffectiveLimit(limit), |Pending(st)|);
      BacklogDrains(Drain(st, limit, AllHealthy, pub).st, limit, times - 1, pub);
    }
  }
}
