/** The review protocol of extracted tasks (extracted_meeting_tasks/service.go). A public call is
    two steps, a read outside any transaction and a guarded transaction, that others interleave. */
module Review {
  import opened Wrappers

  type Uuid = nat

  datatype Status = Draft | Confirmed | Edited | Rejected

  datatype Kind = Created | ConfirmNoEdit | ConfirmAfterEdit | Reject | EditSave

  datatype Content = Content(
    title: string, description: string, assigneeEmail: Option<string>, assigneeDisplay: Option<string>,
    deadline: Option<int>, priority: string)

  datatype Patch = Patch(
    title: Option<string>, description: Option<string>, assigneeEmail: Option<string>,
    assigneeDisplay: Option<string>, deadline: Option<int>, priority: Option<string>)

  datatype Task = Task(domain: Uuid, content: Content, status: Status, confirmedBy: Option<Uuid>)

  datatype Event = Event(task: Uuid, actor: Uuid, kind: Kind)

  /** A call between its read and its transaction, holding what it computed from the read. */
  datatype Call =
    | Patching(task: Uuid, actor: Uuid, content: Content)
    | Deciding(task: Uuid, actor: Uuid, kind: Kind)

  datatype State = State(tasks: map<Uuid, Task>, events: seq<Event>, calls: map<nat, Call>)

  datatype Metrics = Metrics(
    draft: nat, confirmed: nat, edited: nat, rejected: nat,
    confirmNoEdit: nat, confirmAfterEdit: nat, reject: nat)

  const NO_TASKS := State(map[], [], map[])

  function StatusAfter(k: Kind): Status {
    match k
    case ConfirmNoEdit => Confirmed
    case ConfirmAfterEdit => Edited
    case Reject => Rejected
    case _ => Draft
  }

  predicate Terminal(k: Kind) {
    StatusAfter(k) != Draft
  }

  /** The CHECK constraint of the table. */
  predicate ValidPriority(p: string) {
    p in {"high", "medium", "low"}
  }

  function Or<T>(o: Option<T>, current: T): T {
    if o.Some? then o.value else current
  }

  function Apply(p: Patch, c: Content): Content {
    Content(
      Or(p.title, c.title), Or(p.description, c.description),
      if p.assigneeEmail.Some? then p.assigneeEmail else c.assigneeEmail,
      if p.assigneeDisplay.Some? then p.assigneeDisplay else c.assigneeDisplay,
      if p.deadline.Some? then p.deadline else c.deadline,
      Or(p.priority, c.priority))
  }

  // ---- the steps, as functions of the state

  datatype Step =
    | CreateStep(id: Uuid, domain: Uuid, content: Content, actor: Uuid, fails: bool)
    | ReadForPatch(call: nat, task: Uuid, actor: Uuid, patch: Patch)
    | CommitPatchStep(call: nat, fails: bool)
    | ReadForDecision(call: nat, task: Uuid, actor: Uuid, kind: Kind)
    | CommitDecisionStep(call: nat, fails: bool)

  predicate IsDraft(st: State, id: Uuid) {
    id in st.tasks && st.tasks[id].status == Draft
  }

  function DefaultPriority(c: Content): Content {
    if c.priority == "" then c.(priority := "medium") else c
  }

  function Create(st: State, id: Uuid, domain: Uuid, content: Content, actor: Uuid, fails: bool): State {
    var c := DefaultPriority(content);
    if c.title == "" || fails || id in st.tasks || !ValidPriority(c.priority) then st
    else st.(tasks := st.tasks[id := Task(domain, c, Draft, None)], events := st.events + [Event(id, actor, Created)])
  }

  /** Any number of calls may hold a read of the same draft. */
  function Begin(st: State, call: nat, task: Uuid, c: Call): State {
    if IsDraft(st, task) then st.(calls := st.calls[call := c]) else st.(calls := st.calls - {call})
  }

  function Log(st: State, e: Event): State {
    st.(events := st.events + [e])
  }

  /** UPDATE ... WHERE review_status = 'draft', then an event whether or not a row matched. */
  function CommitPatch(st: State, call: nat, fails: bool): State {
    if call !in st.calls || !st.calls[call].Patching? then st
    else
      var c := st.calls[call];
      var done := st.(calls := st.calls - {call});
      if fails then done
      else if !IsDraft(st, c.task) then Log(done, Event(c.task, c.actor, EditSave))
      else if !ValidPriority(c.content.priority) then done
      else Log(done.(tasks := st.tasks[c.task := st.tasks[c.task].(content := c.content)]), Event(c.task, c.actor, EditSave))
  }

  /** UPDATE ... WHERE review_status = 'draft'; without a matching row the transaction is given up. */
  function CommitDecision(st: State, call: nat, fails: bool): State {
    if call !in st.calls || !st.calls[call].Deciding? then st
    else
      var c := st.calls[call];
      var done := st.(calls := st.calls - {call});
      if fails || !IsDraft(st, c.task) then done
      else
        var t := st.tasks[c.task].(status := StatusAfter(c.kind), confirmedBy := Some(c.actor));
        Log(done.(tasks := st.tasks[c.task := t]), Event(c.task, c.actor, c.kind))
  }

  /** What Get returns; the value for a missing row is never used. */
  function ReadContent(st: State, task: Uuid): Content {
    if task in st.tasks then st.tasks[task].content else Content("", "", None, None, None, "")
  }

  function Do(st: State, step: Step): State {
    match step
    case CreateStep(id, domain, content, actor, fails) => Create(st, id, domain, content, actor, fails)
    case ReadForPatch(call, task, actor, patch) =>
      Begin(st, call, task,
            Patching(task, actor, Apply(patch, ReadContent(st, task))))
    case CommitPatchStep(call, fails) => CommitPatch(st, call, fails)
    case ReadForDecision(call, task, actor, kind) =>
      if Terminal(kind) then Begin(st, call, task, Deciding(task, actor, kind)) else st
    case CommitDecisionStep(call, fails) => CommitDecision(st, call, fails)
  }

  function Run(st: State, steps: seq<Step>): State
    decreases |steps|
  {
    if steps == [] then st else Run(Do(st, steps[0]), steps[1..])
  }

  // ---- counting

  function Count(events: seq<Event>, task: Uuid, kind: Kind): nat {
    if events == [] then 0
    else Count(events[..|events| - 1], task, kind)
         + if events[|events| - 1].task == task && events[|events| - 1].kind == kind then 1 else 0
  }

  function InDomain(tasks: map<Uuid, Task>, domain: Uuid): set<Uuid> {
    set id | id in tasks && tasks[id].domain == domain
  }

  function WithStatus(tasks: map<Uuid, Task>, domain: Uuid, status: Status): set<Uuid> {
    set id | id in tasks && tasks[id].domain == domain && tasks[id].status == status
  }

  /** COUNT(*) over the event log joined with the tasks of a domain. */
  function CountInDomain(events: seq<Event>, tasks: map<Uuid, Task>, domain: Uuid, kind: Kind): nat {
    if events == [] then 0
    else
      var e := events[|events| - 1];
      CountInDomain(events[..|events| - 1], tasks, domain, kind)
      + if e.task in tasks && tasks[e.task].domain == domain && e.kind == kind then 1 else 0
  }

  lemma CountSnoc(events: seq<Event>, e: Event, task: Uuid, kind: Kind)
    ensures Count(events + [e], task, kind)
            == Count(events, task, kind) + if e.task == task && e.kind == kind then 1 else 0
  {
    assert (events + [e])[..|events|] == events;
  }

  // ---- the invariant

  ghost predicate Ledger(st: State, id: Uuid)
    requires id in st.tasks
  {
    && Count(st.events, id, Created) == 1
    && forall k: Kind | Terminal(k) ::
         Count(st.events, id, k) == if st.tasks[id].status == StatusAfter(k) then 1 else 0
  }

  ghost predicate Inv(st: State) {
    && (forall id | id in st.tasks :: Ledger(st, id))
    && (forall e | e in st.events :: e.task in st.tasks)
    && (forall c | c in st.calls :: st.calls[c].task in st.tasks)
    && (forall c | c in st.calls && st.calls[c].Deciding? :: Terminal(st.calls[c].kind))
    && (forall id | id in st.tasks :: ValidPriority(st.tasks[id].content.priority))
  }

  lemma {:induction false} NoEventNoCount(events: seq<Event>, id: Uuid, kind: Kind)
    requires forall e | e in events :: e.task != id
    ensures Count(events, id, kind) == 0
  {
    if events != [] {
      NoEventNoCount(events[..|events| - 1], id, kind);
    }
  }

  lemma CreateKeepsInv(st: State, id: Uuid, domain: Uuid, content: Content, actor: Uuid, fails: bool)
    requires Inv(st)
    ensures Inv(Create(st, id, domain, content, actor, fails))
  {
    var st' := Create(st, id, domain, content, actor, fails);
    if st' != st {
      forall other | other in st'.tasks ensures Ledger(st', other) {
        forall k: Kind ensures Count(st'.events, other, k)
                               == Count(st.events, other, k) + if other == id && k == Created then 1 else 0 {
          CountSnoc(st.events, Event(id, actor, Created), other, k);
        }
        if other == id {
          forall k: Kind ensures Count(st.events, id, k) == 0 {
            NoEventNoCount(st.events, id, k);
          }
        } else {
          assert Ledger(st, other);
        }
      }
    }
  }

  lemma LoggedLedger(st: State, st': State, e: Event, id: Uuid)
    requires id in st.tasks && id in st'.tasks && Ledger(st, id) && st'.events == st.events + [e]
    requires e.kind != Created
    requires if e.task == id && Terminal(e.kind)
             then st.tasks[id].status == Draft && st'.tasks[id].status == StatusAfter(e.kind)
             else st'.tasks[id].status == st.tasks[id].status
    ensures Ledger(st', id)
  {
    forall k: Kind ensures Count(st'.events, id, k)
                           == Count(st.events, id, k) + if e.task == id && e.kind == k then 1 else 0 {
      CountSnoc(st.events, e, id, k);
    }
    assert forall j: Kind, k: Kind | Terminal(j) && Terminal(k) && StatusAfter(j) == StatusAfter(k) :: j == k;
  }

  lemma SameLedger(st: State, st': State)
    requires Inv(st) && st' == st.(calls := st'.calls)
    ensures forall id | id in st'.tasks :: Ledger(st', id)
  {
    forall id | id in st'.tasks ensures Ledger(st', id) { assert Ledger(st, id); }
  }

  lemma BeginKeepsInv(st: State, call: nat, task: Uuid, c: Call)
    requires Inv(st) && c.task == task && (c.Deciding? ==> Terminal(c.kind))
    ensures Inv(Begin(st, call, task, c))
  {
    SameLedger(st, Begin(st, call, task, c));
  }

  lemma PatchedLedger(st: State, call: nat, fails: bool, id: Uuid)
    requires Inv(st) && id in st.tasks && CommitPatch(st, call, fails).events != st.events
    ensures id in CommitPatch(st, call, fails).tasks && Ledger(CommitPatch(st, call, fails), id)
  {
    assert Ledger(st, id);
    var c := st.calls[call];
    LoggedLedger(st, CommitPatch(st, call, fails), Event(c.task, c.actor, EditSave), id);
  }

  lemma CommitPatchKeepsInv(st: State, call: nat, fails: bool)
    requires Inv(st)
    ensures Inv(CommitPatch(st, call, fails))
  {
    var st' := CommitPatch(st, call, fails);
    assert st'.tasks.Keys == st.tasks.Keys;
    if st'.events == st.events {
      SameLedger(st, st');
    } else {
      forall id | id in st'.tasks ensures Ledger(st', id) {
        PatchedLedger(st, call, fails, id);
      }
    }
  }

  lemma CommitDecisionKeepsInv(st: State, call: nat, fails: bool)
    requires Inv(st)
    ensures Inv(CommitDecision(st, call, fails))
  {
    var st' := CommitDecision(st, call, fails);
    if st'.events == st.events {
      SameLedger(st, st');
    } else {
      var e := Event(st.calls[call].task, st.calls[call].actor, st.calls[call].kind);
      forall id | id in st'.tasks ensures Ledger(st', id) {
        assert Ledger(st, id);
        LoggedLedger(st, st', e, id);
      }
    }
  }

  lemma StepKeepsInv(st: State, step: Step)
    requires Inv(st)
    ensures Inv(Do(st, step))
  {
    match step
    case CreateStep(id, domain, content, actor, fails) => CreateKeepsInv(st, id, domain, content, actor, fails);
    case ReadForPatch(call, task, actor, patch) =>
      BeginKeepsInv(st, call, task, Patching(task, actor, Apply(patch, ReadContent(st, task))));
    case CommitPatchStep(call, fails) => CommitPatchKeepsInv(st, call, fails);
    case ReadForDecision(call, task, actor, kind) =>
      if Terminal(kind) {
        BeginKeepsInv(st, call, task, Deciding(task, actor, kind));
      }
    case CommitDecisionStep(call, fails) => CommitDecisionKeepsInv(st, call, fails);
  }

  lemma {:induction false} RunKeepsInv(st: State, steps: seq<Step>)
    requires Inv(st)
    ensures Inv(Run(st, steps))
    decreases |steps|
  {
    if steps != [] {
      StepKeepsInv(st, steps[0]);
      RunKeepsInv(Do(st, steps[0]), steps[1..]);
    }
  }

  // ---- what every interleaving keeps

  /** In every reachable state a task has at most one terminal event, and its status matches it. */
  lemma AtMostOneTerminalEvent(steps: seq<Step>, id: Uuid)
    requires id in Run(NO_TASKS, steps).tasks
    ensures var st := Run(NO_TASKS, steps);
            && Count(st.events, id, Created) == 1
            && Count(st.events, id, ConfirmNoEdit) + Count(st.events, id, ConfirmAfterEdit)
               + Count(st.events, id, Reject) == (if st.tasks[id].status == Draft then 0 else 1)
            && forall k: Kind | Terminal(k) :: Count(st.events, id, k) == 1 <==> st.tasks[id].status == StatusAfter(k)
  {
    RunKeepsInv(NO_TASKS, steps);
    assert Ledger(Run(NO_TASKS, steps), id);
    assert Terminal(ConfirmNoEdit) && Terminal(ConfirmAfterEdit) && Terminal(Reject);
  }

  /** Once decided, a task's row never changes again, whatever stale calls commit later. */
  lemma {:induction false} DecidedTasksAreFrozen(st: State, steps: seq<Step>, id: Uuid)
    requires id in st.tasks && st.tasks[id].status != Draft
    ensures id in Run(st, steps).tasks && Run(st, steps).tasks[id] == st.tasks[id]
    decreases |steps|
  {
    if steps != [] {
      DecidedTasksAreFrozen(Do(st, steps[0]), steps[1..], id);
    }
  }

  /** Only the commit of a patch changes a task's content, and nothing changes its domain. */
  lemma OnlyPatchesEdit(st: State, step: Step, id: Uuid)
    requires id in st.tasks
    ensures id in Do(st, step).tasks && Do(st, step).tasks[id].domain == st.tasks[id].domain
    ensures Do(st, step).tasks[id].content != st.tasks[id].content ==>
              step.CommitPatchStep? && step.call in st.calls && st.calls[step.call].task == id && IsDraft(st, id)
  {}

  /** The user who confirmed a task is the one its terminal event names. */
  ghost predicate SignedBy(st: State, id: Uuid)
    requires id in st.tasks
  {
    var t := st.tasks[id];
    t.confirmedBy.Some? && exists k :: StatusAfter(k) == t.status && Event(id, t.confirmedBy.value, k) in st.events
  }

  ghost predicate Signed(st: State) {
    forall id | id in st.tasks && st.tasks[id].status != Draft :: SignedBy(st, id)
  }

  lemma StepKeepsSigned(st: State, step: Step)
    requires Inv(st) && Signed(st)
    ensures Signed(Do(st, step))
  {
    var st' := Do(st, step);
    EventsOnlyGrow(st, [step]);
    assert Run(st, [step]) == Run(st', [step][1..]) == st';
    assert forall e | e in st.events :: e in st'.events;
    forall id | id in st'.tasks && st'.tasks[id].status != Draft ensures SignedBy(st', id) {
      if id in st.tasks && st.tasks[id].status != Draft {
        DecidedTasksAreFrozen(st, [step], id);
        assert SignedBy(st, id);
      } else {
        var c := st.calls[step.call];
        assert Event(id, c.actor, c.kind) == st'.events[|st.events|];
      }
    }
  }

  lemma {:induction false} RunKeepsSigned(st: State, steps: seq<Step>)
    requires Inv(st) && Signed(st)
    ensures Signed(Run(st, steps))
    decreases |steps|
  {
    if steps != [] {
      StepKeepsInv(st, steps[0]);
      StepKeepsSigned(st, steps[0]);
      RunKeepsSigned(Do(st, steps[0]), steps[1..]);
    }
  }

  /** In every reachable state a decided task names the user whose terminal event decided it. */
  lemma ConfirmedByDecider(steps: seq<Step>, id: Uuid)
    requires id in Run(NO_TASKS, steps).tasks && Run(NO_TASKS, steps).tasks[id].status != Draft
    ensures SignedBy(Run(NO_TASKS, steps), id)
  {
    RunKeepsSigned(NO_TASKS, steps);
  }

  // ---- what happens between a read and its commit

  predicate Uses(step: Step, call: nat) {
    match step
    case CreateStep(_, _, _, _, _) => false
    case ReadForPatch(c, _, _, _) => c == call
    case CommitPatchStep(c, _) => c == call
    case ReadForDecision(c, _, _, _) => c == call
    case CommitDecisionStep(c, _) => c == call
  }

  /** The steps of other calls. */
  predicate Others(steps: seq<Step>, call: nat) {
    forall s | s in steps :: !Uses(s, call)
  }

  lemma {:induction false} PendingCallSurvives(st: State, steps: seq<Step>, call: nat)
    requires call in st.calls && Others(steps, call)
    ensures call in Run(st, steps).calls && Run(st, steps).calls[call] == st.calls[call]
    decreases |steps|
  {
    if steps != [] {
      assert steps[0] in steps;
      PendingCallSurvives(Do(st, steps[0]), steps[1..], call);
    }
  }

  lemma {:induction false} EventsOnlyGrow(st: State, steps: seq<Step>)
    ensures st.events <= Run(st, steps).events
    ensures st.tasks.Keys <= Run(st, steps).tasks.Keys
    decreases |steps|
  {
    if steps != [] {
      EventsOnlyGrow(Do(st, steps[0]), steps[1..]);
    }
  }

  lemma {:induction false} CountHas(events: seq<Event>, i: nat)
    requires i < |events|
    ensures Count(events, events[i].task, events[i].kind) > 0
    decreases |events|
  {
    if i < |events| - 1 {
      CountHas(events[..|events| - 1], i);
    }
  }

  lemma {:induction false} CountFinds(events: seq<Event>, task: Uuid, kind: Kind)
    requires Count(events, task, kind) > 0
    ensures exists i :: 0 <= i < |events| && events[i].task == task && events[i].kind == kind
    decreases |events|
  {
    var n := |events| - 1;
    if !(events[n].task == task && events[n].kind == kind) {
      CountFinds(events[..n], task, kind);
      var i :| 0 <= i < n && events[..n][i].task == task && events[..n][i].kind == kind;
      assert events[i] == events[..n][i];
    }
  }

  /** A terminal event of the task lies in the log from position `from` on. */
  ghost predicate DecidedSince(events: seq<Event>, from: nat, task: Uuid) {
    exists i :: from <= i < |events| && events[i].task == task && Terminal(events[i].kind)
  }

  /** A draft has been decided in the meantime exactly when the log has a new terminal event of it. */
  lemma DecidedIffLogged(st: State, steps: seq<Step>, id: Uuid)
    requires Inv(st) && IsDraft(st, id)
    ensures id in Run(st, steps).tasks && st.events <= Run(st, steps).events
    ensures !IsDraft(Run(st, steps), id) <==> DecidedSince(Run(st, steps).events, |st.events|, id)
  {
    var end := Run(st, steps);
    RunKeepsInv(st, steps);
    EventsOnlyGrow(st, steps);
    assert Ledger(st, id) && Ledger(end, id);
    if !IsDraft(end, id) {
      var k :| Terminal(k) && StatusAfter(k) == end.tasks[id].status;
      CountFinds(end.events, id, k);
      var i :| 0 <= i < |end.events| && end.events[i].task == id && end.events[i].kind == k;
      if i < |st.events| {
        assert st.events[i] == end.events[i];
        CountHas(st.events, i);
      }
    }
    if DecidedSince(end.events, |st.events|, id) {
      var i :| |st.events| <= i < |end.events| && end.events[i].task == id && Terminal(end.events[i].kind);
      CountHas(end.events, i);
    }
  }

  /** A decision between the read and the commit of a patch makes the commit log an edit that
      never happened; without one, the commit writes what was computed from the read, or, when the
      table refuses its priority, does nothing. So an edit is logged and no task changes exactly
      when a decision was logged in between or the patch had nothing left to change. */
  lemma StalePatchLogsWithoutEditing(st: State, call: nat, id: Uuid, actor: Uuid, patch: Patch, mid: seq<Step>)
    requires Inv(st) && IsDraft(st, id) && Others(mid, call)
    ensures var content := Apply(patch, st.tasks[id].content);
            var before := Run(Do(st, ReadForPatch(call, id, actor, patch)), mid);
            var after := Do(before, CommitPatchStep(call, false));
            var stale := DecidedSince(before.events, |st.events|, id);
            && id in before.tasks
            && (stale ==> after.tasks == before.tasks
                          && after.events == before.events + [Event(id, actor, EditSave)])
            && (!stale && !ValidPriority(content.priority) ==>
                  after.tasks == before.tasks && after.events == before.events)
            && (!stale && ValidPriority(content.priority) ==>
                  && after.tasks == before.tasks[id := before.tasks[id].(content := content)]
                  && after.events == before.events + [Event(id, actor, EditSave)])
            && (after.tasks == before.tasks && after.events != before.events
                <==> stale || (ValidPriority(content.priority) && before.tasks[id].content == content))
  {
    var read := Do(st, ReadForPatch(call, id, actor, patch));
    BeginKeepsInv(st, call, id, Patching(id, actor, Apply(patch, st.tasks[id].content)));
    PendingCallSurvives(read, mid, call);
    DecidedIffLogged(read, mid, id);
    CommitWrites(Run(read, mid), call);
  }

  /** A commit changes at most its own task, and says so in the log unless the table refuses. */
  lemma CommitWrites(st: State, call: nat)
    requires call in st.calls && st.calls[call].Patching? && st.calls[call].task in st.tasks
    ensures var c, after := st.calls[call], CommitPatch(st, call, false);
            var t := st.tasks[c.task];
            && (after.tasks == st.tasks <==>
                  !IsDraft(st, c.task) || !ValidPriority(c.content.priority) || t.content == c.content)
            && (after.tasks == st.tasks || after.tasks == st.tasks[c.task := t.(content := c.content)])
            && after.events == if IsDraft(st, c.task) && !ValidPriority(c.content.priority) then st.events
                               else st.events + [Event(c.task, c.actor, EditSave)]
  {
    var c := st.calls[call];
    var t := st.tasks[c.task];
    assert t.content == c.content ==> st.tasks[c.task := t.(content := c.content)] == st.tasks;
    assert st.tasks[c.task := t.(content := c.content)][c.task].content == c.content;
  }

  const SAMPLE := Content("a", "", None, None, None, "low")

  const NO_CHANGE := Patch(None, None, None, None, None, None)

  const RENAME := NO_CHANGE.(title := Some("b"))

  /** Such a run from the empty database: the log ends in an edit of a rejected, unchanged task. */
  lemma StalePatchRun(domain: Uuid, id: Uuid, editor: Uuid, judge: Uuid)
    ensures var end := Run(NO_TASKS, [CreateStep(id, domain, SAMPLE, editor, false),
                                      ReadForPatch(0, id, editor, RENAME), ReadForDecision(1, id, judge, Reject),
                                      CommitDecisionStep(1, false), CommitPatchStep(0, false)]);
            && end.tasks == map[id := Task(domain, SAMPLE, Rejected, Some(judge))]
            && end.events == [Event(id, editor, Created), Event(id, judge, Reject), Event(id, editor, EditSave)]
  {
    var s1 := Do(NO_TASKS, CreateStep(id, domain, SAMPLE, editor, false));
    var s2 := Do(s1, ReadForPatch(0, id, editor, RENAME));
    var s3 := Do(s2, ReadForDecision(1, id, judge, Reject));
    var s4 := Do(s3, CommitDecisionStep(1, false));
    var s5 := Do(s4, CommitPatchStep(0, false));
    assert IsDraft(s1, id) && IsDraft(s2, id) && IsDraft(s3, id) && !IsDraft(s4, id);
    assert s3.calls[0].Patching? && s4.calls[0].Patching?;
    assert s5 == Run(s4, [CommitPatchStep(0, false)]);
    assert s5 == Run(s3, [CommitDecisionStep(1, false), CommitPatchStep(0, false)]);
    assert s5 == Run(s2, [ReadForDecision(1, id, judge, Reject), CommitDecisionStep(1, false),
                          CommitPatchStep(0, false)]);
    assert s5 == Run(s1, [ReadForPatch(0, id, editor, RENAME), ReadForDecision(1, id, judge, Reject),
                          CommitDecisionStep(1, false), CommitPatchStep(0, false)]);
  }

  /** Fields that the first patch sets to something new and the second leaves alone. */
  predicate Overwritten(c: Content, p: Patch, q: Patch) {
    || (q.title.None? && Or(p.title, c.title) != c.title)
    || (q.description.None? && Or(p.description, c.description) != c.description)
    || (q.assigneeEmail.None? && p.assigneeEmail.Some? && p.assigneeEmail != c.assigneeEmail)
    || (q.assigneeDisplay.None? && p.assigneeDisplay.Some? && p.assigneeDisplay != c.assigneeDisplay)
    || (q.deadline.None? && p.deadline.Some? && p.deadline != c.deadline)
    || (q.priority.None? && Or(p.priority, c.priority) != c.priority)
  }

  lemma AppliedIff(c: Content, p: Patch, q: Patch)
    ensures Apply(q, c) == Apply(q, Apply(p, c)) <==> !Overwritten(c, p, q)
  {}

  /** A draft stays what a commit finds: nothing before it has decided the task. */
  lemma DraftBefore(st: State, steps: seq<Step>, id: Uuid)
    requires id in st.tasks && IsDraft(Run(st, steps), id)
    ensures IsDraft(st, id)
  {
    if st.tasks[id].status != Draft {
      DecidedTasksAreFrozen(st, steps, id);
    }
  }

  /** Two calls that read the same draft, with any steps of others before and between their
      commits: if the later commit finds the task still open, it keeps the earlier one's edit
      exactly when it sets every field the earlier one changed. */
  lemma OverlappingPatchesIff(
    st: State, first: nat, second: nat, id: Uuid, a: Uuid, b: Uuid, p: Patch, q: Patch, pre: seq<Step>, mid: seq<Step>)
    requires first != second && IsDraft(st, id)
    requires Others(pre, first) && Others(pre, second) && Others(mid, second)
    requires var c := st.tasks[id].content;
             ValidPriority(Apply(p, c).priority) && ValidPriority(Apply(q, c).priority)
    ensures var c := st.tasks[id].content;
            var both := Do(Do(st, ReadForPatch(first, id, a, p)), ReadForPatch(second, id, b, q));
            var one := Do(Run(both, pre), CommitPatchStep(first, false));
            var open := Run(one, mid);
            var end := Do(open, CommitPatchStep(second, false));
            IsDraft(open, id) ==>
              && id in one.tasks && one.tasks[id].content == Apply(p, c)
              && id in end.tasks && end.tasks[id].content == Apply(q, c)
              && (end.tasks[id].content == Apply(q, one.tasks[id].content) <==> !Overwritten(c, p, q))
  {
    var c := st.tasks[id].content;
    var both := Do(Do(st, ReadForPatch(first, id, a, p)), ReadForPatch(second, id, b, q));
    PendingCallSurvives(both, pre, first);
    PendingCallSurvives(both, pre, second);
    var mine := Run(both, pre);
    EventsOnlyGrow(both, pre);
    assert id in mine.tasks;
    var one := Do(mine, CommitPatchStep(first, false));
    PendingCallSurvives(one, mid, second);
    if IsDraft(Run(one, mid), id) {
      DraftBefore(one, mid, id);
      AppliedIff(c, p, q);
    }
  }

  /** An edit lost: of a new title and a new description, only the later commit's survives. */
  lemma LostEdit(st: State, id: Uuid, a: Uuid, b: Uuid)
    requires IsDraft(st, id) && ValidPriority(st.tasks[id].content.priority)
    ensures var c := st.tasks[id].content;
            var p := NO_CHANGE.(title := Some(c.title + "!"));
            var q := NO_CHANGE.(description := Some("new"));
            var end := Run(st, [ReadForPatch(0, id, a, p), ReadForPatch(1, id, b, q),
                                CommitPatchStep(0, false), CommitPatchStep(1, false)]);
            id in end.tasks && end.tasks[id].content == c.(description := "new")
  {
    var c := st.tasks[id].content;
    var p := NO_CHANGE.(title := Some(c.title + "!"));
    var q := NO_CHANGE.(description := Some("new"));
    var both := Do(Do(st, ReadForPatch(0, id, a, p)), ReadForPatch(1, id, b, q));
    var one := Do(both, CommitPatchStep(0, false));
    OverlappingPatchesIff(st, 0, 1, id, a, b, p, q, [], []);
    assert IsDraft(one, id);
    assert Run(one, [CommitPatchStep(1, false)]) == Do(one, CommitPatchStep(1, false));
    assert Run(both, [CommitPatchStep(0, false), CommitPatchStep(1, false)]) == Do(one, CommitPatchStep(1, false));
    assert Run(Do(st, ReadForPatch(0, id, a, p)),
               [ReadForPatch(1, id, b, q), CommitPatchStep(0, false), CommitPatchStep(1, false)])
           == Do(one, CommitPatchStep(1, false));
  }

  // ---- the metrics

  /** The tasks of a domain with exactly one event of a kind. */
  function Counted(events: seq<Event>, tasks: map<Uuid, Task>, domain: Uuid, kind: Kind): set<Uuid> {
    set id | id in tasks && tasks[id].domain == domain && Count(events, id, kind) == 1
  }

  ghost predicate OncePerTask(events: seq<Event>, tasks: map<Uuid, Task>, kind: Kind) {
    forall id | id in tasks :: Count(events, id, kind) <= 1
  }

  predicate Matches(e: Event, tasks: map<Uuid, Task>, domain: Uuid, kind: Kind) {
    e.task in tasks && tasks[e.task].domain == domain && e.kind == kind
  }

  lemma CountedSets(events: seq<Event>, e: Event, tasks: map<Uuid, Task>, domain: Uuid, kind: Kind)
    requires OncePerTask(events + [e], tasks, kind)
    ensures OncePerTask(events, tasks, kind)
    ensures var before := Counted(events, tasks, domain, kind);
            && Counted(events + [e], tasks, domain, kind)
               == (if Matches(e, tasks, domain, kind) then before + {e.task} else before)
            && (Matches(e, tasks, domain, kind) ==> e.task !in before)
  {
    forall id ensures Count(events + [e], id, kind)
                      == Count(events, id, kind) + if e.task == id && e.kind == kind then 1 else 0 {
      CountSnoc(events, e, id, kind);
    }
  }

  lemma CountedSnoc(events: seq<Event>, e: Event, tasks: map<Uuid, Task>, domain: Uuid, kind: Kind)
    requires OncePerTask(events + [e], tasks, kind)
    ensures OncePerTask(events, tasks, kind)
    ensures |Counted(events + [e], tasks, domain, kind)|
            == |Counted(events, tasks, domain, kind)| + if Matches(e, tasks, domain, kind) then 1 else 0
  {
    CountedSets(events, e, tasks, domain, kind);
  }

  lemma {:induction false} CountsAreDistinctTasks(events: seq<Event>, tasks: map<Uuid, Task>, domain: Uuid, kind: Kind)
    requires OncePerTask(events, tasks, kind)
    ensures CountInDomain(events, tasks, domain, kind) == |Counted(events, tasks, domain, kind)|
    decreases |events|
  {
    if events == [] {
      assert Counted(events, tasks, domain, kind) == {};
    } else {
      var init, e := events[..|events| - 1], events[|events| - 1];
      assert events == init + [e];
      CountedSnoc(init, e, tasks, domain, kind);
      CountsAreDistinctTasks(init, tasks, domain, kind);
    }
  }

  lemma DecidedCount(st: State, domain: Uuid, kind: Kind)
    requires Inv(st) && Terminal(kind)
    ensures |WithStatus(st.tasks, domain, StatusAfter(kind))| == CountInDomain(st.events, st.tasks, domain, kind)
  {
    assert forall id | id in st.tasks :: Ledger(st, id);
    CountsAreDistinctTasks(st.events, st.tasks, domain, kind);
    assert Counted(st.events, st.tasks, domain, kind) == WithStatus(st.tasks, domain, StatusAfter(kind));
  }

  lemma CreatedCount(st: State, domain: Uuid)
    requires Inv(st)
    ensures |InDomain(st.tasks, domain)| == CountInDomain(st.events, st.tasks, domain, Created)
  {
    assert forall id | id in st.tasks :: Ledger(st, id);
    CountsAreDistinctTasks(st.events, st.tasks, domain, Created);
    assert Counted(st.events, st.tasks, domain, Created) == InDomain(st.tasks, domain);
  }

  lemma StatusesPartition(tasks: map<Uuid, Task>, domain: Uuid)
    ensures |WithStatus(tasks, domain, Draft)| + |WithStatus(tasks, domain, Confirmed)|
            + |WithStatus(tasks, domain, Edited)| + |WithStatus(tasks, domain, Rejected)|
            == |InDomain(tasks, domain)|
  {
    var d, c := WithStatus(tasks, domain, Draft), WithStatus(tasks, domain, Confirmed);
    var e, r := WithStatus(tasks, domain, Edited), WithStatus(tasks, domain, Rejected);
    assert InDomain(tasks, domain) == d + c + e + r;
    assert d !! c && (d + c) !! e && (d + c + e) !! r;
  }

  /** Per domain, in every reachable state: the status counts add up to the tasks created, and each
      decided status counts exactly its terminal events. */
  lemma MetricsAgree(steps: seq<Step>, domain: Uuid)
    ensures var st := Run(NO_TASKS, steps);
            && |WithStatus(st.tasks, domain, Confirmed)| == CountInDomain(st.events, st.tasks, domain, ConfirmNoEdit)
            && |WithStatus(st.tasks, domain, Edited)| == CountInDomain(st.events, st.tasks, domain, ConfirmAfterEdit)
            && |WithStatus(st.tasks, domain, Rejected)| == CountInDomain(st.events, st.tasks, domain, Reject)
            && |WithStatus(st.tasks, domain, Draft)| + |WithStatus(st.tasks, domain, Confirmed)|
               + |WithStatus(st.tasks, domain, Edited)| + |WithStatus(st.tasks, domain, Rejected)|
               == CountInDomain(st.events, st.tasks, domain, Created)
  {
    var st := Run(NO_TASKS, steps);
    RunKeepsInv(NO_TASKS, steps);
    DecidedCount(st, domain, ConfirmNoEdit);
    DecidedCount(st, domain, ConfirmAfterEdit);
    DecidedCount(st, domain, Reject);
    CreatedCount(st, domain);
    StatusesPartition(st.tasks, domain);
  }

  // ---- the metrics are two reads

  /** The step commits a decision of the kind on a task of the domain. */
  predicate Decides(st: State, step: Step, domain: Uuid, kind: Kind) {
    && step.CommitDecisionStep? && !step.fails && step.call in st.calls
    && var c := st.calls[step.call];
       c.Deciding? && c.kind == kind && IsDraft(st, c.task) && st.tasks[c.task].domain == domain
  }

  /** How many steps of a run do. */
  function Decisions(st: State, steps: seq<Step>, domain: Uuid, kind: Kind): nat
    decreases |steps|
  {
    if steps == [] then 0
    else (if Decides(st, steps[0], domain, kind) then 1 else 0) + Decisions(Do(st, steps[0]), steps[1..], domain, kind)
  }

  lemma OneMore(s: set<Uuid>, s': set<Uuid>, id: Uuid)
    requires s' == s + {id} && id !in s
    ensures |s'| == |s| + 1
  {}

  lemma UndecidedStaysPut(st: State, step: Step, domain: Uuid, status: Status)
    requires !step.CommitDecisionStep? && status != Draft
    ensures WithStatus(Do(st, step).tasks, domain, status) == WithStatus(st.tasks, domain, status)
  {}

  lemma DecisionCounts(st: State, call: nat, domain: Uuid, kind: Kind)
    requires Terminal(kind) && Decides(st, CommitDecisionStep(call, false), domain, kind)
    ensures |WithStatus(CommitDecision(st, call, false).tasks, domain, StatusAfter(kind))|
            == |WithStatus(st.tasks, domain, StatusAfter(kind))| + 1
  {
    var id := st.calls[call].task;
    OneMore(WithStatus(st.tasks, domain, StatusAfter(kind)),
            WithStatus(CommitDecision(st, call, false).tasks, domain, StatusAfter(kind)), id);
  }

  lemma OtherDecision(st: State, call: nat, fails: bool, domain: Uuid, kind: Kind)
    requires Inv(st) && Terminal(kind) && !Decides(st, CommitDecisionStep(call, fails), domain, kind)
    ensures WithStatus(CommitDecision(st, call, fails).tasks, domain, StatusAfter(kind))
            == WithStatus(st.tasks, domain, StatusAfter(kind))
  {
    assert forall k: Kind | Terminal(k) && StatusAfter(k) == StatusAfter(kind) :: k == kind;
  }

  lemma DecisionGrows(st: State, step: Step, domain: Uuid, kind: Kind)
    requires Inv(st) && Terminal(kind)
    ensures |WithStatus(Do(st, step).tasks, domain, StatusAfter(kind))|
            == |WithStatus(st.tasks, domain, StatusAfter(kind))| + if Decides(st, step, domain, kind) then 1 else 0
  {
    if !step.CommitDecisionStep? {
      UndecidedStaysPut(st, step, domain, StatusAfter(kind));
    } else if Decides(st, step, domain, kind) {
      DecisionCounts(st, step.call, domain, kind);
    } else {
      OtherDecision(st, step.call, step.fails, domain, kind);
    }
  }

  lemma {:induction false} DecisionsGrow(st: State, steps: seq<Step>, domain: Uuid, kind: Kind)
    requires Inv(st) && Terminal(kind)
    ensures |WithStatus(Run(st, steps).tasks, domain, StatusAfter(kind))|
            == |WithStatus(st.tasks, domain, StatusAfter(kind))| + Decisions(st, steps, domain, kind)
    decreases |steps|
  {
    if steps != [] {
      DecisionGrows(st, steps[0], domain, kind);
      StepKeepsInv(st, steps[0]);
      DecisionsGrow(Do(st, steps[0]), steps[1..], domain, kind);
    }
  }

  /** Statuses counted first and events after any steps of others: the event count exceeds the
      status count by exactly the decisions committed in between. */
  lemma MetricsDrift(st: State, between: seq<Step>, domain: Uuid, kind: Kind)
    requires Inv(st) && Terminal(kind)
    ensures var later := Run(st, between);
            CountInDomain(later.events, later.tasks, domain, kind)
            == |WithStatus(st.tasks, domain, StatusAfter(kind))| + Decisions(st, between, domain, kind)
  {
    RunKeepsInv(st, between);
    DecidedCount(Run(st, between), domain, kind);
    DecisionsGrow(st, between, domain, kind);
  }

  /** A confirmation between the two reads, in a run from the empty database: no task is counted
      as confirmed, one confirmation is. */
  lemma MetricsDisagree(domain: Uuid, id: Uuid, actor: Uuid)
    ensures var st := Run(NO_TASKS, [CreateStep(id, domain, SAMPLE, actor, false)]);
            var between := [ReadForDecision(0, id, actor, ConfirmNoEdit), CommitDecisionStep(0, false)];
            && |WithStatus(st.tasks, domain, Confirmed)| == 0
            && CountInDomain(Run(st, between).events, Run(st, between).tasks, domain, ConfirmNoEdit) == 1
  {
    var steps := [CreateStep(id, domain, SAMPLE, actor, false)];
    var st := Run(NO_TASKS, steps);
    RunKeepsInv(NO_TASKS, steps);
    var created := Do(NO_TASKS, steps[0]);
    assert Run(created, steps[1..]) == created == st;
    assert WithStatus(st.tasks, domain, Confirmed) == {};
    var read := Do(st, ReadForDecision(0, id, actor, ConfirmNoEdit));
    var commit := CommitDecisionStep(0, false);
    assert Decides(read, commit, domain, ConfirmNoEdit);
    var between := [ReadForDecision(0, id, actor, ConfirmNoEdit), commit];
    assert between[1..] == [commit] && [commit][1..] == [];
    assert Decisions(read, [commit], domain, ConfirmNoEdit) == 1;
    MetricsDrift(st, between, domain, ConfirmNoEdit);
  }

  // ---- the service

  class Service {
    var tasks: map<Uuid, Task>
    var events: seq<Event>
    var calls: map<nat, Call>

    constructor ()
      ensures Value() == NO_TASKS
    {
      tasks, events, calls := map[], [], map[];
    }

    ghost function Value(): State
      reads this
    {
      State(tasks, events, calls)
    }

    method Create(id: Uuid, domain: Uuid, content: Content, actor: Uuid, fails: bool) returns (ok: bool)
      modifies this
      ensures Value() == Do(old(Value()), CreateStep(id, domain, content, actor, fails))
      ensures ok <==> content.title != "" && !fails && id !in old(tasks) && content.priority in {"", "high", "medium", "low"}
      ensures ok ==> events == old(events) + [Event(id, actor, Created)]
      ensures ok ==> var pri := if content.priority == "" then "medium" else content.priority;
                     tasks == old(tasks)[id := Task(domain, content.(priority := pri), Draft, None)]
      ensures !ok ==> Value() == old(Value())
    {
      if content.title == "" {
        return false;
      }
      var pri := content.priority;
      if pri == "" {
        pri := "medium";
      }
      if fails || id in tasks || !ValidPriority(pri) {
        return false;
      }
      tasks := tasks[id := Task(domain, content.(priority := pri), Draft, None)];
      events := events + [Event(id, actor, Created)];
      return true;
    }

    /** The read half of PatchDraft: reads the row, refuses a non-draft, computes the new fields. */
    method BeginPatch(call: nat, task: Uuid, actor: Uuid, patch: Patch) returns (ok: bool)
      modifies this`calls
      ensures Value() == Do(old(Value()), ReadForPatch(call, task, actor, patch))
      ensures ok <==> IsDraft(Value(), task)
    {
      if task !in tasks || tasks[task].status != Draft {
        calls := calls - {call};
        return false;
      }
      var t := tasks[task].content;
      if patch.title.Some? { t := t.(title := patch.title.value); }
      if patch.description.Some? { t := t.(description := patch.description.value); }
      if patch.assigneeEmail.Some? { t := t.(assigneeEmail := patch.assigneeEmail); }
      if patch.assigneeDisplay.Some? { t := t.(assigneeDisplay := patch.assigneeDisplay); }
      if patch.deadline.Some? { t := t.(deadline := patch.deadline); }
      if patch.priority.Some? { t := t.(priority := patch.priority.value); }
      calls := calls[call := Patching(task, actor, t)];
      return true;
    }

    /** The transaction half of PatchDraft. */
    method FinishPatch(call: nat, fails: bool) returns (ok: bool)
      modifies this
      ensures Value() == Do(old(Value()), CommitPatchStep(call, fails))
      ensures ok <==> events != old(events)
    {
      if call !in calls || !calls[call].Patching? {
        return false;
      }
      var c := calls[call];
      calls := calls - {call};
      if fails {
        return false;
      }
      if c.task in tasks && tasks[c.task].status == Draft {
        if !ValidPriority(c.content.priority) {
          return false;
        }
        tasks := tasks[c.task := tasks[c.task].(content := c.content)];
      }
      events := events + [Event(c.task, c.actor, EditSave)];
      return true;
    }

    /** The read half of ConfirmNoEdit, ConfirmAfterEdit and Reject. */
    method BeginTransition(call: nat, task: Uuid, actor: Uuid, kind: Kind) returns (ok: bool)
      requires Terminal(kind)
      modifies this`calls
      ensures Value() == Do(old(Value()), ReadForDecision(call, task, actor, kind))
      ensures ok <==> IsDraft(Value(), task)
    {
      if task !in tasks || tasks[task].status != Draft {
        calls := calls - {call};
        return false;
      }
      calls := calls[call := Deciding(task, actor, kind)];
      return true;
    }

    /** The transaction half: no matching row means a concurrent decision, and no event. */
    method FinishTransition(call: nat, fails: bool) returns (ok: bool)
      modifies this
      ensures Value() == Do(old(Value()), CommitDecisionStep(call, fails))
      ensures ok <==> events != old(events)
    {
      if call !in calls || !calls[call].Deciding? {
        return false;
      }
      var c := calls[call];
      calls := calls - {call};
      if fails || c.task !in tasks || tasks[c.task].status != Draft {
        return false;
      }
      tasks := tasks[c.task := tasks[c.task].(status := StatusAfter(c.kind), confirmedBy := Some(c.actor))];
      events := events + [Event(c.task, c.actor, c.kind)];
      return true;
    }

    /** What other actors do meanwhile. */
    method LetOthers(steps: seq<Step>)
      modifies this
      ensures Value() == Run(old(Value()), steps)
    {
      var st := Run(State(tasks, events, calls), steps);
      tasks, events, calls := st.tasks, st.events, st.calls;
    }

    /** Two queries outside any transaction; `between` is what others do from one to the other.
        From a reachable state, each event count is the status count plus the decisions of its
        kind committed in between. */
    method MetricsForDomain(domain: Uuid, between: seq<Step>) returns (m: Metrics)
      modifies this
      ensures Value() == Run(old(Value()), between)
      ensures m.draft == |WithStatus(old(tasks), domain, Draft)|
      ensures m.confirmed == |WithStatus(old(tasks), domain, Confirmed)|
      ensures m.edited == |WithStatus(old(tasks), domain, Edited)|
      ensures m.rejected == |WithStatus(old(tasks), domain, Rejected)|
      ensures m.confirmNoEdit == CountInDomain(events, tasks, domain, ConfirmNoEdit)
      ensures m.confirmAfterEdit == CountInDomain(events, tasks, domain, ConfirmAfterEdit)
      ensures m.reject == CountInDomain(events, tasks, domain, Reject)
      ensures Inv(old(Value())) ==>
                && m.confirmNoEdit == m.confirmed + Decisions(old(Value()), between, domain, ConfirmNoEdit)
                && m.confirmAfterEdit == m.edited + Decisions(old(Value()), between, domain, ConfirmAfterEdit)
                && m.reject == m.rejected + Decisions(old(Value()), between, domain, Reject)
    {
      ghost var start := Value();
      m := Metrics(
        |WithStatus(tasks, domain, Draft)|, |WithStatus(tasks, domain, Confirmed)|,
        |WithStatus(tasks, domain, Edited)|, |WithStatus(tasks, domain, Rejected)|, 0, 0, 0);
      LetOthers(between);
      m := m.(confirmNoEdit := CountInDomain(events, tasks, domain, ConfirmNoEdit),
              confirmAfterEdit := CountInDomain(events, tasks, domain, ConfirmAfterEdit),
              reject := CountInDomain(events, tasks, domain, Reject));
      if Inv(start) {
        MetricsDrift(start, between, domain, ConfirmNoEdit);
        MetricsDrift(start, between, domain, ConfirmAfterEdit);
        MetricsDrift(start, between, domain, Reject);
      }
    }
  }
}
