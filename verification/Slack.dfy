/** Slack sync: history pages, thread replies, counters and the cursor (ingestion_connectors/slack_sync.go). */
module Slack {
  import opened Wrappers
  import opened Order

  type Hash = string

  datatype Message = Message(
    kind: string, ts: string, threadTs: string, replyCount: int, rawHash: Hash, normHash: Hash)

  datatype Page = Page(ok: bool, messages: seq<Message>, hasMore: bool, nextCursor: string)

  /** The remote API, where None is a failed request, and how many pages a loop may fetch
      (twenty in the program; nothing below depends on the number). */
  datatype Api = Api(
    history: string -> Option<Page>, replies: (string, string) -> Option<Page>, pageCap: nat)

  /** What happens to one message on its way to the tables, if anything goes wrong. */
  datatype Fault = NoFault | MarshalFails | MetadataFails | RawFails | NormMarshalFails | NormFails

  /** Faults that keep a message from the raw table. */
  predicate BeforeRaw(f: Fault) {
    f.MarshalFails? || f.MetadataFails? || f.RawFails?
  }

  // ---- what the paging loops must hand to persist

  /** Messages handed over, page fetches that failed, and the ts of the acceptable messages. */
  datatype Tally = Tally(handed: nat, failed: nat, stamps: set<string>)

  function Plus(a: Tally, b: Tally): Tally {
    Tally(a.handed + b.handed, a.failed + b.failed, a.stamps + b.stamps)
  }

  const NOTHING := Tally(0, 0, {})
  const FAILED_FETCH := Tally(0, 1, {})

  predicate Acceptable(m: Message) {
    m.kind in {"", "message"} && m.ts != ""
  }

  function One(m: Message): Tally {
    Tally(1, 0, if Acceptable(m) then {m.ts} else {})
  }

  function All(ms: seq<Message>): Tally {
    Tally(|ms|, 0, set m | m in ms && Acceptable(m) :: m.ts)
  }

  function ThreadTally(api: Api, ts: string, cursor: string, pagesLeft: nat): Tally
    decreases pagesLeft
  {
    if pagesLeft == 0 then NOTHING
    else
      match api.replies(ts, cursor)
      case None => FAILED_FETCH
      case Some(page) =>
        if !page.ok then FAILED_FETCH
        else
          Plus(All(page.messages),
               if page.nextCursor == "" || !page.hasMore then NOTHING
               else ThreadTally(api, ts, page.nextCursor, pagesLeft - 1))
  }

  /** A message with its thread, when it heads one. */
  function MessageTally(api: Api, m: Message): Tally {
    Plus(One(m),
         if m.replyCount > 0 && m.threadTs == m.ts then ThreadTally(api, m.ts, "", api.pageCap) else NOTHING)
  }

  function MessagesTally(api: Api, ms: seq<Message>): Tally {
    if ms == [] then NOTHING
    else Plus(MessagesTally(api, ms[..|ms| - 1]), MessageTally(api, ms[|ms| - 1]))
  }

  function HistoryTally(api: Api, cursor: string, pagesLeft: nat): Tally
    decreases pagesLeft
  {
    if pagesLeft == 0 then NOTHING
    else
      match api.history(cursor)
      case None => FAILED_FETCH
      case Some(page) =>
        if !page.ok then FAILED_FETCH
        else
          Plus(MessagesTally(api, page.messages),
               if page.nextCursor == "" || !page.hasMore then NOTHING
               else HistoryTally(api, page.nextCursor, pagesLeft - 1))
  }

  lemma {:induction false} MessagesTallyAppend(api: Api, a: seq<Message>, b: seq<Message>)
    ensures MessagesTally(api, a + b) == Plus(MessagesTally(api, a), MessagesTally(api, b))
    decreases |b|
  {
    if b == [] {
      assert a + b == a;
      PlusNothing(MessagesTally(api, a));
    } else {
      var init, m := b[..|b| - 1], b[|b| - 1];
      assert (a + b)[..|a + b| - 1] == a + init && (a + b)[|a + b| - 1] == m;
      MessagesTallyAppend(api, a, init);
      PlusAssociative(MessagesTally(api, a), MessagesTally(api, init), MessageTally(api, m));
    }
  }

  lemma MessagesTallySnoc(api: Api, s: seq<Message>, i: nat, before: Tally)
    requires i < |s|
    ensures Plus(Plus(before, MessagesTally(api, s[..i])), MessageTally(api, s[i]))
            == Plus(before, MessagesTally(api, s[..i + 1]))
  {
    assert s[..i + 1][..i] == s[..i];
    PlusAssociative(before, MessagesTally(api, s[..i]), MessageTally(api, s[i]));
  }

  lemma MessagesTallyOne(api: Api, m: Message)
    ensures MessagesTally(api, [m]) == MessageTally(api, m)
  {
    assert [m][..0] == [];
    PlusNothing(MessageTally(api, m));
  }

  lemma PlusRotate(x: Tally, y: Tally, z: Tally)
    ensures Plus(x, Plus(y, z)) == Plus(Plus(x, z), y)
  {
    assert x.stamps + (y.stamps + z.stamps) == (x.stamps + z.stamps) + y.stamps;
  }

  lemma PlusNothing(x: Tally)
    ensures Plus(NOTHING, x) == x == Plus(x, NOTHING)
  {
    assert {} + x.stamps == x.stamps == x.stamps + {};
  }

  lemma PlusAssociative(x: Tally, y: Tally, z: Tally)
    ensures Plus(Plus(x, y), z) == Plus(x, Plus(y, z))
  {
    assert (x.stamps + y.stamps) + z.stamps == x.stamps + (y.stamps + z.stamps);
  }

  lemma RemoveOne(s: seq<Message>, i: nat)
    requires i < |s|
    ensures multiset(s) == multiset(s[..i] + s[i + 1..]) + multiset{s[i]}
  {
    assert s == s[..i] + ([s[i]] + s[i + 1..]);
    assert multiset([s[i]] + s[i + 1..]) == multiset{s[i]} + multiset(s[i + 1..]);
  }

  lemma TallyWithout(api: Api, s: seq<Message>, i: nat)
    requires i < |s|
    ensures MessagesTally(api, s) == Plus(MessagesTally(api, s[..i] + s[i + 1..]), MessageTally(api, s[i]))
  {
    assert s == s[..i] + ([s[i]] + s[i + 1..]);
    MessagesTallyAppend(api, s[..i], [s[i]] + s[i + 1..]);
    MessagesTallyAppend(api, [s[i]], s[i + 1..]);
    MessagesTallyAppend(api, s[..i], s[i + 1..]);
    MessagesTallyOne(api, s[i]);
    PlusRotate(MessagesTally(api, s[..i]), MessageTally(api, s[i]), MessagesTally(api, s[i + 1..]));
  }

  lemma SameLength(a: seq<Message>, b: seq<Message>)
    requires multiset(a) == multiset(b)
    ensures |a| == |b| && forall m :: m in a <==> m in b
  {
    assert |multiset(a)| == |a| && |multiset(b)| == |b|;
    assert forall m :: m in a <==> m in multiset(a);
    assert forall m :: m in b <==> m in multiset(b);
  }

  lemma CancelOne(x: multiset<Message>, y: multiset<Message>, m: Message)
    requires x + multiset{m} == y + multiset{m}
    ensures x == y
  {
    assert x == (x + multiset{m}) - multiset{m};
    assert y == (y + multiset{m}) - multiset{m};
  }

  lemma MatchingRemoval(a: seq<Message>, b: seq<Message>, i: nat)
    requires a != [] && i < |b| && b[i] == a[|a| - 1] && multiset(a) == multiset(b)
    ensures multiset(a[..|a| - 1]) == multiset(b[..i] + b[i + 1..])
  {
    var n := |a| - 1;
    RemoveOne(b, i);
    RemoveOne(a, n);
    assert a[..n] + a[n + 1..] == a[..n];
    CancelOne(multiset(a[..n]), multiset(b[..i] + b[i + 1..]), a[n]);
  }

  /** The tally of a page does not depend on the order its messages are taken in. */
  lemma {:induction false} TallyOfPermutation(api: Api, a: seq<Message>, b: seq<Message>)
    requires multiset(a) == multiset(b)
    ensures MessagesTally(api, a) == MessagesTally(api, b)
    decreases |a|
  {
    SameLength(a, b);
    if a != [] {
      assert a[|a| - 1] in b;
      var i :| 0 <= i < |b| && b[i] == a[|a| - 1];
      MatchingRemoval(a, b, i);
      TallyOfPermutation(api, a[..|a| - 1], b[..i] + b[i + 1..]);
      TallyWithout(api, b, i);
    }
  }

  lemma AllOfPermutation(a: seq<Message>, b: seq<Message>)
    requires multiset(a) == multiset(b)
    ensures All(a) == All(b)
  {
    SameLength(a, b);
  }

  lemma AllSnoc(ms: seq<Message>, i: nat)
    requires i < |ms|
    ensures All(ms[..i + 1]) == Plus(All(ms[..i]), One(ms[i]))
  {
    assert ms[..i + 1] == ms[..i] + [ms[i]];
    assert All(ms[..i + 1]).stamps == All(ms[..i]).stamps + One(ms[i]).stamps;
  }

  // ---- what a run fetches, independently of what it does with it

  datatype Source = History | Thread(ts: string)

  function Ask(api: Api, src: Source, cursor: string): Option<Page> {
    match src
    case History => api.history(cursor)
    case Thread(ts) => api.replies(ts, cursor)
  }

  predicate Served(api: Api, src: Source, cursor: string) {
    Ask(api, src, cursor).Some? && Ask(api, src, cursor).value.ok
  }

  predicate More(p: Page) {
    p.nextCursor != "" && p.hasMore
  }

  /** The pages a loop gets from a cursor on, and the failed request it may end with. */
  function Pages(api: Api, src: Source, cursor: string, left: nat): seq<Page>
    decreases left
  {
    if left == 0 || !Served(api, src, cursor) then []
    else
      var p := Ask(api, src, cursor).value;
      [p] + if More(p) then Pages(api, src, p.nextCursor, left - 1) else []
  }

  function Failures(api: Api, src: Source, cursor: string, left: nat): nat
    decreases left
  {
    if left == 0 then 0
    else if !Served(api, src, cursor) then 1
    else
      var p := Ask(api, src, cursor).value;
      if More(p) then Failures(api, src, p.nextCursor, left - 1) else 0
  }

  /** Each cursor is the one the page before it points to. */
  ghost predicate Chain(api: Api, src: Source, cursors: seq<string>) {
    forall i | 0 <= i < |cursors| - 1 ::
      && Served(api, src, cursors[i])
      && More(Ask(api, src, cursors[i]).value) && Ask(api, src, cursors[i]).value.nextCursor == cursors[i + 1]
  }

  lemma ChainCons(api: Api, src: Source, cursor: string, rest: seq<string>)
    requires Served(api, src, cursor) && Chain(api, src, rest)
    requires rest != [] ==>
               More(Ask(api, src, cursor).value) && Ask(api, src, cursor).value.nextCursor == rest[0]
    ensures Chain(api, src, [cursor] + rest)
  {}

  /** A page can be fetched: a chain of at most so many cursors, from the given one, leads to it. */
  ghost predicate Fetchable(api: Api, src: Source, from: string, left: nat, p: Page) {
    exists cursors ::
      && 0 < |cursors| <= left && cursors[0] == from && Chain(api, src, cursors)
      && Served(api, src, cursors[|cursors| - 1]) && Ask(api, src, cursors[|cursors| - 1]).value == p
  }

  lemma {:induction false} PagesAreFetchable(api: Api, src: Source, cursor: string, left: nat, p: Page)
    requires p in Pages(api, src, cursor, left)
    ensures Fetchable(api, src, cursor, left, p)
    decreases left
  {
    var first := Ask(api, src, cursor).value;
    if p == first {
      assert Chain(api, src, [cursor]) && [cursor][|[cursor]| - 1] == cursor;
    } else {
      PagesAreFetchable(api, src, first.nextCursor, left - 1, p);
      var rest :| 0 < |rest| <= left - 1 && rest[0] == first.nextCursor && Chain(api, src, rest)
                  && Served(api, src, rest[|rest| - 1]) && Ask(api, src, rest[|rest| - 1]).value == p;
      ChainCons(api, src, cursor, rest);
      assert ([cursor] + rest)[|[cursor] + rest| - 1] == rest[|rest| - 1];
    }
  }

  lemma {:induction false} ChainIsPages(api: Api, src: Source, cursors: seq<string>, left: nat)
    requires 0 < |cursors| <= left && Chain(api, src, cursors) && Served(api, src, cursors[|cursors| - 1])
    ensures Ask(api, src, cursors[|cursors| - 1]).value in Pages(api, src, cursors[0], left)
    decreases left
  {
    if |cursors| > 1 {
      var rest := cursors[1..];
      assert forall i | 0 <= i < |rest| :: rest[i] == cursors[i + 1];
      ChainIsPages(api, src, rest, left - 1);
    }
  }

  /** The pages a loop gets are exactly those that can be fetched. */
  lemma PagesIff(api: Api, src: Source, cursor: string, left: nat, p: Page)
    ensures p in Pages(api, src, cursor, left) <==> Fetchable(api, src, cursor, left, p)
  {
    if p in Pages(api, src, cursor, left) {
      PagesAreFetchable(api, src, cursor, left, p);
    }
    if Fetchable(api, src, cursor, left, p) {
      var cursors :| 0 < |cursors| <= left && cursors[0] == cursor && Chain(api, src, cursors)
                     && Served(api, src, cursors[|cursors| - 1]) && Ask(api, src, cursors[|cursors| - 1]).value == p;
      ChainIsPages(api, src, cursors, left);
    }
  }

  predicate Heads(m: Message) {
    m.replyCount > 0 && m.threadTs == m.ts
  }

  function Size(pages: seq<Page>): nat {
    if pages == [] then 0 else |pages[0].messages| + Size(pages[1..])
  }

  function Replies(api: Api, ts: string): seq<Page> {
    Pages(api, Thread(ts), "", api.pageCap)
  }

  /** Messages and failed requests that one message stands for, with its thread when it heads one. */
  function LoadOf(api: Api, m: Message): (nat, nat) {
    if Heads(m) then (1 + Size(Replies(api, m.ts)), Failures(api, Thread(m.ts), "", api.pageCap)) else (1, 0)
  }

  function Sum(x: (nat, nat), y: (nat, nat)): (nat, nat) {
    (x.0 + y.0, x.1 + y.1)
  }

  function Load(api: Api, ms: seq<Message>): (nat, nat) {
    if ms == [] then (0, 0) else Sum(Load(api, ms[..|ms| - 1]), LoadOf(api, ms[|ms| - 1]))
  }

  function TotalLoad(api: Api, pages: seq<Page>): (nat, nat) {
    if pages == [] then (0, 0)
    else Sum(Load(api, pages[0].messages), TotalLoad(api, pages[1..]))
  }

  ghost predicate Stamp(ts: string, m: Message) {
    Acceptable(m) && m.ts == ts
  }

  ghost predicate StampOn(ts: string, pages: seq<Page>) {
    exists p, m :: p in pages && m in p.messages && Stamp(ts, m)
  }

  /** The ts is that of an acceptable message, of the list or of a thread headed in it. */
  ghost predicate StampUnder(api: Api, ts: string, m: Message) {
    Stamp(ts, m) || (Heads(m) && StampOn(ts, Replies(api, m.ts)))
  }

  ghost predicate StampAmong(api: Api, ts: string, pages: seq<Page>) {
    exists p, m :: p in pages && m in p.messages && StampUnder(api, ts, m)
  }

  lemma StampOnCons(ts: string, p: Page, rest: seq<Page>)
    ensures StampOn(ts, [p] + rest) <==> ts in All(p.messages).stamps || StampOn(ts, rest)
  {
    assert forall q :: q in [p] + rest <==> q == p || q in rest;
    if ts in All(p.messages).stamps {
      var m :| m in p.messages && Acceptable(m) && m.ts == ts;
      assert Stamp(ts, m);
    }
  }

  lemma {:induction false} ThreadIsPages(api: Api, ts: string, cursor: string, left: nat, x: string)
    ensures var t := ThreadTally(api, ts, cursor, left);
            && t.handed == Size(Pages(api, Thread(ts), cursor, left))
            && t.failed == Failures(api, Thread(ts), cursor, left)
            && (x in t.stamps <==> StampOn(x, Pages(api, Thread(ts), cursor, left)))
    decreases left
  {
    if left > 0 && Served(api, Thread(ts), cursor) {
      var p := Ask(api, Thread(ts), cursor).value;
      var rest := if More(p) then Pages(api, Thread(ts), p.nextCursor, left - 1) else [];
      assert ([p] + rest)[1..] == rest;
      StampOnCons(x, p, rest);
      if More(p) {
        ThreadIsPages(api, ts, p.nextCursor, left - 1, x);
      }
    }
  }

  function Counts(t: Tally): (nat, nat) {
    (t.handed, t.failed)
  }

  lemma CountsOfPlus(x: Tally, y: Tally)
    ensures Counts(Plus(x, y)) == Sum(Counts(x), Counts(y))
  {}

  lemma MessageIsLoad(api: Api, m: Message, x: string)
    ensures Counts(MessageTally(api, m)) == LoadOf(api, m)
    ensures x in MessageTally(api, m).stamps <==> StampUnder(api, x, m)
  {
    ThreadIsPages(api, m.ts, "", api.pageCap, x);
  }

  lemma {:induction false} MessagesAreLoad(api: Api, ms: seq<Message>)
    ensures Counts(MessagesTally(api, ms)) == Load(api, ms)
    decreases |ms|
  {
    if ms != [] {
      var init, m := ms[..|ms| - 1], ms[|ms| - 1];
      MessagesAreLoad(api, init);
      MessageIsLoad(api, m, "");
      CountsOfPlus(MessagesTally(api, init), MessageTally(api, m));
    }
  }

  ghost predicate SomeUnder(api: Api, ts: string, ms: seq<Message>) {
    exists m :: m in ms && StampUnder(api, ts, m)
  }

  ghost predicate Any(ms: seq<Message>, holds: Message -> bool) {
    exists m :: m in ms && holds(m)
  }

  lemma AnySnoc(init: seq<Message>, m: Message, holds: Message -> bool)
    ensures Any(init + [m], holds) <==> Any(init, holds) || holds(m)
  {
    assert forall x :: x in init + [m] <==> x in init || x == m;
  }

  lemma {:induction false} MessagesStampsAny(api: Api, ms: seq<Message>, x: string, holds: Message -> bool)
    requires forall m :: holds(m) <==> x in MessageTally(api, m).stamps
    ensures x in MessagesTally(api, ms).stamps <==> Any(ms, holds)
    decreases |ms|
  {
    if ms != [] {
      var init, m := ms[..|ms| - 1], ms[|ms| - 1];
      MessagesStampsAny(api, init, x, holds);
      AnySnoc(init, m, holds);
      assert ms == init + [m];
      StampsOfPlus(MessagesTally(api, init), MessageTally(api, m), x);
    }
  }

  lemma MessagesStamps(api: Api, ms: seq<Message>, x: string)
    ensures x in MessagesTally(api, ms).stamps <==> SomeUnder(api, x, ms)
  {
    var holds: Message -> bool := m => StampUnder(api, x, m);
    forall m ensures holds(m) <==> x in MessageTally(api, m).stamps {
      MessageIsLoad(api, m, x);
    }
    MessagesStampsAny(api, ms, x, holds);
    assert Any(ms, holds) <==> SomeUnder(api, x, ms) by {
      if m :| m in ms && StampUnder(api, x, m) {
        assert holds(m);
      }
    }
  }

  lemma StampsOfPlus(x: Tally, y: Tally, ts: string)
    ensures ts in Plus(x, y).stamps <==> ts in x.stamps || ts in y.stamps
  {}

  lemma StampAmongCons(api: Api, ts: string, p: Page, rest: seq<Page>)
    ensures StampAmong(api, ts, [p] + rest) <==> SomeUnder(api, ts, p.messages) || StampAmong(api, ts, rest)
  {
    assert forall q :: q in [p] + rest <==> q == p || q in rest;
  }

  lemma TotalLoadCons(api: Api, p: Page, rest: seq<Page>)
    ensures TotalLoad(api, [p] + rest) == Sum(Load(api, p.messages), TotalLoad(api, rest))
  {
    assert ([p] + rest)[1..] == rest;
  }

  /** One page ahead of the others, in the tally and in the load. */
  lemma PageCounts(x: Tally, y: Tally, load: (nat, nat), rest: (nat, nat), failures: nat)
    requires Counts(x) == load && Counts(y) == Sum(rest, (0, failures))
    ensures Counts(Plus(x, y)) == Sum(Sum(load, rest), (0, failures))
  {}

  /** The messages handed over are those of the pages fetched and of the threads headed there, and
      every request that failed is counted. */
  lemma {:induction false} HistoryIsLoad(api: Api, cursor: string, left: nat)
    ensures Counts(HistoryTally(api, cursor, left))
            == Sum(TotalLoad(api, Pages(api, History, cursor, left)), (0, Failures(api, History, cursor, left)))
    decreases left
  {
    if left > 0 && Served(api, History, cursor) {
      var p := Ask(api, History, cursor).value;
      MessagesAreLoad(api, p.messages);
      if More(p) {
        HistoryIsLoad(api, p.nextCursor, left - 1);
        var tail, rest := HistoryTally(api, p.nextCursor, left - 1), Pages(api, History, p.nextCursor, left - 1);
        PageCounts(MessagesTally(api, p.messages), tail, Load(api, p.messages), TotalLoad(api, rest),
                   Failures(api, History, p.nextCursor, left - 1));
        TotalLoadCons(api, p, rest);
      } else {
        PageCounts(MessagesTally(api, p.messages), NOTHING, Load(api, p.messages), (0, 0), 0);
        TotalLoadCons(api, p, []);
      }
    }
  }

  lemma {:induction false} HistoryStamps(api: Api, cursor: string, left: nat, x: string)
    ensures x in HistoryTally(api, cursor, left).stamps <==> StampAmong(api, x, Pages(api, History, cursor, left))
    decreases left
  {
    if left > 0 && Served(api, History, cursor) {
      var p := Ask(api, History, cursor).value;
      var more := More(p);
      var rest := if more then Pages(api, History, p.nextCursor, left - 1) else [];
      var tail := if more then HistoryTally(api, p.nextCursor, left - 1) else NOTHING;
      if more {
        HistoryStamps(api, p.nextCursor, left - 1, x);
      }
      MessagesStamps(api, p.messages, x);
      StampAmongCons(api, x, p, rest);
      StampsOfPlus(MessagesTally(api, p.messages), tail, x);
    }
  }

  /** A message a run can fetch: on a fetchable page of the history, or of a thread headed there. */
  ghost predicate OnPage(api: Api, src: Source, m: Message) {
    exists p :: Fetchable(api, src, "", api.pageCap, p) && m in p.messages
  }

  ghost predicate Reached(api: Api, m: Message) {
    OnPage(api, History, m) || exists h :: OnPage(api, History, h) && Heads(h) && OnPage(api, Thread(h.ts), m)
  }

  lemma OnPageIff(api: Api, src: Source, m: Message)
    ensures OnPage(api, src, m) <==> exists p :: p in Pages(api, src, "", api.pageCap) && m in p.messages
  {
    forall p: Page { PagesIff(api, src, "", api.pageCap, p); }
  }

  /** The ts of a run are exactly those of the acceptable messages it can fetch. */
  lemma StampsAreReached(api: Api, ts: string)
    ensures ts in HistoryTally(api, "", api.pageCap).stamps <==> exists m :: Reached(api, m) && Stamp(ts, m)
  {
    var pages := Pages(api, History, "", api.pageCap);
    HistoryStamps(api, "", api.pageCap, ts);
    if StampAmong(api, ts, pages) {
      var p, h :| p in pages && h in p.messages && StampUnder(api, ts, h);
      OnPageIff(api, History, h);
      if Stamp(ts, h) {
        assert Reached(api, h);
      } else {
        var q, m :| q in Replies(api, h.ts) && m in q.messages && Stamp(ts, m);
        OnPageIff(api, Thread(h.ts), m);
        assert Reached(api, m);
      }
    }
    if m :| Reached(api, m) && Stamp(ts, m) {
      ReachedIsAmong(api, ts, m);
    }
  }

  lemma ReachedIsAmong(api: Api, ts: string, m: Message)
    requires Reached(api, m) && Stamp(ts, m)
    ensures StampAmong(api, ts, Pages(api, History, "", api.pageCap))
  {
    var pages := Pages(api, History, "", api.pageCap);
    OnPageIff(api, History, m);
    if p :| p in pages && m in p.messages {
      assert StampUnder(api, ts, m);
    } else {
      var h :| OnPage(api, History, h) && Heads(h) && OnPage(api, Thread(h.ts), m);
      OnPageIff(api, History, h);
      OnPageIff(api, Thread(h.ts), m);
      var p :| p in pages && h in p.messages;
      var q :| q in Replies(api, h.ts) && m in q.messages;
      assert StampUnder(api, ts, h);
    }
  }

  ghost predicate SortedByTs(ms: seq<Message>) {
    forall i, j | 0 <= i < j < |ms| :: AtMost(ms[i].ts, ms[j].ts)
  }

  /** The library sort: some ordering by ts; callers know no more about ties. */
  method SortByTs(ms: seq<Message>) returns (sorted: seq<Message>)
    ensures multiset(sorted) == multiset(ms) && SortedByTs(sorted)
  {
    sorted := [];
    for i := 0 to |ms|
      invariant multiset(sorted) == multiset(ms[..i]) && SortedByTs(sorted)
    {
      assert ms[..i + 1] == ms[..i] + [ms[i]];
      var j := |sorted|;
      while j > 0 && Less(ms[i].ts, sorted[j - 1].ts)
        invariant 0 <= j <= |sorted|
        invariant forall k | j <= k < |sorted| :: Less(ms[i].ts, sorted[k].ts)
      {
        j := j - 1;
      }
      InsertSorted(sorted, ms[i], j);
      InsertCounted(sorted, ms[i], j);
      sorted := sorted[..j] + [ms[i]] + sorted[j..];
    }
    assert ms[..|ms|] == ms;
  }

  lemma InsertSorted(s: seq<Message>, m: Message, j: nat)
    requires SortedByTs(s) && j <= |s|
    requires j > 0 ==> !Less(m.ts, s[j - 1].ts)
    requires forall k | j <= k < |s| :: Less(m.ts, s[k].ts)
    ensures SortedByTs(s[..j] + [m] + s[j..])
  {
    forall k | 0 <= k < j ensures AtMost(s[k].ts, m.ts) {
      LessTotal(m.ts, s[j - 1].ts);
      AtMostTransitive(s[k].ts, s[j - 1].ts, m.ts);
    }
  }

  lemma InsertCounted(s: seq<Message>, m: Message, j: nat)
    requires j <= |s|
    ensures multiset(s[..j] + [m] + s[j..]) == multiset(s) + multiset{m}
  {
    assert s == s[..j] + s[j..];
  }

  ghost predicate NoDuplicates(s: seq<string>) {
    forall i, j | 0 <= i < j < |s| :: s[i] != s[j]
  }

  /** One run on one feed. `tally` and `base` record what was handed over and the initial table size. */
  class Run {
    const api: Api
    const faults: nat -> Fault
    var raw: set<Hash>
    var norm: set<Hash>
    var seenTs: set<string>
    var maxTs: string
    var rawAttempts: seq<string>
    var ingested: nat
    var deduped: nat
    var warnings: nat
    var errs: nat
    var calls: nat
    ghost var tally: Tally
    ghost const base: nat

    constructor (api: Api, faults: nat -> Fault, raw: set<Hash>, norm: set<Hash>)
      ensures Valid() && tally == NOTHING && base == |norm|
      ensures this.raw == raw && this.norm == norm && this.api == api && seenTs == {}
    {
      this.api, this.faults, this.raw, this.norm := api, faults, raw, norm;
      seenTs, maxTs, rawAttempts := {}, "", [];
      ingested, deduped, warnings, errs, calls := 0, 0, 0, 0, 0;
      tally, base := NOTHING, |norm|;
    }

    /** Every message handed over and every failed fetch is in exactly one counter. */
    ghost predicate Accounted()
      reads this
    {
      && ingested + deduped + warnings + errs == tally.handed + tally.failed
      && |norm| == base + ingested
    }

    ghost predicate NoFaults() {
      forall i :: faults(i) == NoFault
    }

    /** Without faults, only failed fetches are errors and every ts seen was tried on the raw table. */
    ghost predicate Diligent()
      reads this
    {
      NoFaults() ==> errs == tally.failed && forall ts | ts in seenTs :: ts in rawAttempts
    }

    /** Each ts is tried on the raw table at most once; maxTs is the greatest ts seen, if any. */
    ghost predicate Stamped()
      reads this
    {
      && NoDuplicates(rawAttempts) && (forall ts | ts in rawAttempts :: ts in seenTs)
      && "" !in seenTs && (maxTs == "" <==> seenTs == {})
      && (maxTs != "" ==> maxTs in seenTs)
      && (forall ts | ts in seenTs :: AtMost(ts, maxTs))
    }

    ghost predicate Valid()
      reads this
    {
      Accounted() && Stamped() && Diligent() && seenTs == tally.stamps
    }

    method AppendMax(ts: string)
      modifies this`maxTs
      ensures maxTs == if ts == "" || (old(maxTs) != "" && !Less(old(maxTs), ts)) then old(maxTs) else ts
    {
      if ts == "" {
        return;
      }
      if maxTs == "" || Less(maxTs, ts) {
        maxTs := ts;
      }
    }

    /** Marks a new ts as seen and raises the maximum. */
    method See(ts: string)
      requires Stamped() && ts != "" && ts !in seenTs
      modifies this`seenTs, this`maxTs
      ensures Stamped() && seenTs == old(seenTs) + {ts}
    {
      LessTotal(maxTs, ts);
      forall s | s in seenTs ensures Less(maxTs, ts) ==> AtMost(s, ts) {
        if Less(maxTs, ts) {
          AtMostTransitive(s, maxTs, ts);
        }
      }
      seenTs := seenTs + {ts};
      AppendMax(ts);
    }

    method InsertRawArtifactRow(hash: Hash, ts: string) returns (inserted: bool)
      requires Stamped() && ts in seenTs && ts !in rawAttempts
      modifies this`raw, this`rawAttempts
      ensures Stamped() && (inserted <==> hash !in old(raw))
      ensures raw == old(raw) + {hash} && rawAttempts == old(rawAttempts) + [ts]
    {
      rawAttempts := rawAttempts + [ts];
      inserted := hash !in raw;
      raw := raw + {hash};
    }

    /** A message whose ts is new in this run: raw row, then normalized row. */
    method PersistNew(m: Message, fault: Fault)
      requires Stamped() && m.ts in seenTs && m.ts !in rawAttempts && |norm| == base + ingested
      modifies this`raw, this`norm, this`rawAttempts, this`ingested, this`deduped, this`errs
      ensures Stamped() && |norm| == base + ingested
      ensures ingested + deduped + errs == old(ingested + deduped + errs) + 1
      ensures ingested >= old(ingested) && deduped >= old(deduped) && errs >= old(errs)
      ensures if BeforeRaw(fault) then raw == old(raw) && rawAttempts == old(rawAttempts)
              else raw == old(raw) + {m.rawHash} && rawAttempts == old(rawAttempts) + [m.ts]
      ensures norm == if ingested > old(ingested) then old(norm) + {m.normHash} else old(norm)
      ensures ingested > old(ingested) <==> fault.NoFault? && m.rawHash !in old(raw) && m.normHash !in old(norm)
      ensures errs > old(errs) <==> BeforeRaw(fault) || (!fault.NoFault? && m.rawHash !in old(raw))
    {
      if BeforeRaw(fault) {
        errs := errs + 1;
        return;
      }
      var inserted := InsertRawArtifactRow(m.rawHash, m.ts);
      if !inserted {
        deduped := deduped + 1;
        return;
      }
      if fault.NormMarshalFails? || fault.NormFails? {
        errs := errs + 1;
        return;
      }
      if m.normHash in norm {
        deduped := deduped + 1;
        return;
      }
      norm := norm + {m.normHash};
      ingested := ingested + 1;
    }

    /** One message: exactly one counter moves, and a ts goes to the tables at most once a run. */
    method Persist(m: Message)
      requires Valid()
      modifies this
      ensures Valid() && tally == Plus(old(tally), One(m))
      ensures warnings == old(warnings) + if Acceptable(m) then 0 else 1
      ensures !Acceptable(m) || m.ts in old(seenTs) ==>
                raw == old(raw) && norm == old(norm) && rawAttempts == old(rawAttempts)
      ensures Acceptable(m) && m.ts in old(seenTs) ==> deduped == old(deduped) + 1
      ensures Acceptable(m) && m.ts !in old(seenTs) ==>
                var fault := faults(old(calls));
                && raw == (if BeforeRaw(fault) then old(raw) else old(raw) + {m.rawHash})
                && (ingested > old(ingested) <==> fault.NoFault? && m.rawHash !in old(raw) && m.normHash !in old(norm))
                && norm == if ingested > old(ingested) then old(norm) + {m.normHash} else old(norm)
    {
      var fault := faults(calls);
      calls := calls + 1;
      tally := Plus(tally, One(m));
      if (m.kind != "" && m.kind != "message") || m.ts == "" {
        warnings := warnings + 1;
        return;
      }
      if m.ts in seenTs {
        deduped := deduped + 1;
        return;
      }
      See(m.ts);
      PersistNew(m, fault);
    }

    method FailedFetch()
      requires Valid()
      modifies this`errs, this`tally
      ensures Valid() && tally == Plus(old(tally), FAILED_FETCH)
    {
      errs := errs + 1;
      tally := Plus(tally, FAILED_FETCH);
    }

    /** A page of replies, in ts order. */
    method PersistAll(messages: seq<Message>)
      requires Valid()
      modifies this
      ensures Valid() && tally == Plus(old(tally), All(messages))
    {
      var sorted := SortByTs(messages);
      PlusNothing(tally);
      for i := 0 to |sorted|
        invariant Valid() && tally == Plus(old(tally), All(sorted[..i]))
      {
        AllSnoc(sorted, i);
        PlusAssociative(old(tally), All(sorted[..i]), One(sorted[i]));
        Persist(sorted[i]);
      }
      assert sorted[..|sorted|] == sorted;
      AllOfPermutation(sorted, messages);
    }

    /** One request for replies; returns the cursor of a page still to fetch. */
    method SyncReplyPage(ts: string, cursor: string, ghost left: nat) returns (next: Option<string>)
      requires Valid() && left > 0
      modifies this
      ensures Valid()
      ensures var whole := Plus(old(tally), ThreadTally(api, ts, cursor, left));
              if next.None? then tally == whole
              else Plus(tally, ThreadTally(api, ts, next.value, left - 1)) == whole
    {
      var rep := api.replies(ts, cursor);
      if rep.None? || !rep.value.ok {
        FailedFetch();
        return None;
      }
      PersistAll(rep.value.messages);
      if rep.value.nextCursor == "" || !rep.value.hasMore {
        PlusNothing(All(rep.value.messages));
        return None;
      }
      PlusAssociative(old(tally), All(rep.value.messages), ThreadTally(api, ts, rep.value.nextCursor, left - 1));
      return Some(rep.value.nextCursor);
    }

    /** The replies of one thread, page after page. */
    method SyncReplies(ts: string)
      requires Valid()
      modifies this
      ensures Valid() && tally == Plus(old(tally), ThreadTally(api, ts, "", api.pageCap))
    {
      var next := Some("");
      var page := 0;
      ghost var goal := Plus(tally, ThreadTally(api, ts, "", api.pageCap));
      while page < api.pageCap && next.Some?
        invariant page <= api.pageCap && Valid()
        invariant goal == if next.None? then tally else Plus(tally, ThreadTally(api, ts, next.value, api.pageCap - page))
      {
        next := SyncReplyPage(ts, next.value, api.pageCap - page);
        page := page + 1;
      }
      PlusNothing(tally);
    }

    /** A message of the history, followed by its thread when it heads one. */
    method SyncMessage(m: Message)
      requires Valid()
      modifies this
      ensures Valid() && tally == Plus(old(tally), MessageTally(api, m))
    {
      Persist(m);
      if m.replyCount > 0 && m.threadTs == m.ts {
        SyncReplies(m.ts);
        PlusAssociative(old(tally), One(m), ThreadTally(api, m.ts, "", api.pageCap));
      } else {
        PlusNothing(One(m));
      }
    }

    method SyncSorted(sorted: seq<Message>)
      requires Valid()
      modifies this
      ensures Valid() && tally == Plus(old(tally), MessagesTally(api, sorted))
    {
      ghost var before := tally;
      PlusNothing(tally);
      for i := 0 to |sorted|
        invariant Valid() && tally == Plus(before, MessagesTally(api, sorted[..i]))
      {
        SyncMessage(sorted[i]);
        MessagesTallySnoc(api, sorted, i, before);
      }
      assert sorted[..|sorted|] == sorted;
    }

    /** A page of history, in ts order. */
    method SyncMessages(messages: seq<Message>)
      requires Valid()
      modifies this
      ensures Valid() && tally == Plus(old(tally), MessagesTally(api, messages))
    {
      var sorted := SortByTs(messages);
      TallyOfPermutation(api, sorted, messages);
      SyncSorted(sorted);
    }

    /** One request for history; returns the cursor of a page still to fetch. */
    method SyncHistoryPage(cursor: string, ghost left: nat) returns (next: Option<string>)
      requires Valid() && left > 0
      modifies this
      ensures Valid()
      ensures var whole := Plus(old(tally), HistoryTally(api, cursor, left));
              if next.None? then tally == whole
              else Plus(tally, HistoryTally(api, next.value, left - 1)) == whole
    {
      var hist := api.history(cursor);
      if hist.None? || !hist.value.ok {
        FailedFetch();
        return None;
      }
      var messages := hist.value.messages;
      SyncMessages(messages);
      if hist.value.nextCursor == "" || !hist.value.hasMore {
        PlusNothing(MessagesTally(api, messages));
        return None;
      }
      PlusAssociative(old(tally), MessagesTally(api, messages), HistoryTally(api, hist.value.nextCursor, left - 1));
      return Some(hist.value.nextCursor);
    }

    /** The history, page after page. */
    method SyncHistory()
      requires Valid()
      modifies this
      ensures Valid() && tally == Plus(old(tally), HistoryTally(api, "", api.pageCap))
    {
      var next := Some("");
      var page := 0;
      ghost var goal := Plus(tally, HistoryTally(api, "", api.pageCap));
      while page < api.pageCap && next.Some?
        invariant page <= api.pageCap && Valid()
        invariant goal == if next.None? then tally else Plus(tally, HistoryTally(api, next.value, api.pageCap - page))
      {
        next := SyncHistoryPage(next.value, api.pageCap - page);
        page := page + 1;
      }
      PlusNothing(tally);
    }

    /** A whole run from scratch. The ts seen are exactly those of the acceptable messages it can
        fetch; the counters account for every message of the pages fetched and every failed fetch;
        the stored cursor moves only to the greatest ts seen. */
    method Sync(storedTs: string) returns (newTs: string)
      requires Valid() && tally == NOTHING
      modifies this
      ensures Valid()
      ensures forall ts :: ts in seenTs <==> exists m :: Reached(api, m) && Stamp(ts, m)
      ensures var pages := Pages(api, History, "", api.pageCap);
              Counts(tally) == Sum(TotalLoad(api, pages), (0, Failures(api, History, "", api.pageCap)))
      ensures ingested + deduped + warnings + errs == tally.handed + tally.failed
      ensures newTs == if seenTs == {} then storedTs else maxTs
      ensures seenTs != {} ==> newTs in seenTs && forall ts | ts in seenTs :: AtMost(ts, newTs)
    {
      SyncHistory();
      PlusNothing(HistoryTally(api, "", api.pageCap));
      HistoryIsLoad(api, "", api.pageCap);
      forall ts: string ensures ts in seenTs <==> exists m :: Reached(api, m) && Stamp(ts, m) {
        StampsAreReached(api, ts);
      }
      newTs := storedTs;
      if maxTs != "" {
        newTs := maxTs;
      }
    }
  }
}
