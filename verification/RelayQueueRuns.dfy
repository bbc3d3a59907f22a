/**
 * The relay queue over whole runs, with the two halves of `stage_pull` interleaved with everything else
 * (server/src/store.rs:268-396): no envelope is lost track of, and none is handed out twice.
 */
module RelayQueueRuns {
  import opened Wrappers
  import opened RelayQueue

  /** A `stage_pull` between its drain and its staging. */
  datatype Pull = Pull(token: string, envelopes: seq<StoredEnvelope>)

  type Bag = multiset<StoredEnvelope>

  /** The store, the pulls in flight, and from `enqueued` on a record of what came in and where it went. */
  datatype Queue = Queue(
    messages: seq<QueueRow>, stages: seq<StageRow>, poisoned: bool, inFlight: seq<Pull>,
    enqueued: Bag, returned: Bag, deleted: Bag, discarded: Bag)

  /** `Cancel` is a request whose handler is dropped, or whose server stops, between the two halves. */
  datatype Event =
    | Enqueue(recipient: string, stored: StoredEnvelope)
    | Drain(user: string)
    | StageBegin(recipient: string, token: string)
    | StageEnd(k: nat, nowMs: u64)
    | Cancel(k: nat)
    | Fetch(token: string)
    | Delete(user: string, id: string)

  const EMPTY: Queue := Queue([], [], false, [], multiset{}, multiset{}, multiset{}, multiset{})

  function OfRow(): QueueRow -> Bag { (row: QueueRow) => multiset{row.stored} }

  function OfStage(): StageRow -> Bag { (row: StageRow) => multiset(row.envelopes) }

  function OfPull(): Pull -> Bag { (pull: Pull) => multiset(pull.envelopes) }

  /** Everything the entries of `s` hold. */
  function Total<T>(s: seq<T>, held: T -> Bag): Bag {
    if s == [] then multiset{} else Total(s[..|s| - 1], held) + held(s[|s| - 1])
  }

  function Without<T>(s: seq<T>, k: nat): seq<T>
    requires k < |s|
  {
    s[..k] + s[k + 1..]
  }

  // ---------------------------------------------------------------- steps

  function AfterEnqueue(q: Queue, recipient: string, stored: StoredEnvelope): Queue {
    if Rows(q.messages, HasId(stored.id), true) != [] then q.(poisoned := true)
    else q.(messages := q.messages + [QueueRow(recipient, stored, AsI64(stored.envelope.timestampMs))],
            enqueued := q.enqueued + multiset{stored})
  }

  function AfterDrain(q: Queue, user: string): Queue {
    q.(messages := Rows(q.messages, IsFor(user), false), returned := q.returned + multiset(Pending(q.messages, user)))
  }

  function AfterStageBegin(q: Queue, recipient: string, token: string): Queue {
    q.(messages := Rows(q.messages, IsFor(recipient), false),
       inFlight := q.inFlight + [Pull(token, Pending(q.messages, recipient))])
  }

  function AfterCancel(q: Queue, k: nat): Queue
    requires k < |q.inFlight|
  {
    q.(inFlight := Without(q.inFlight, k), discarded := q.discarded + multiset(q.inFlight[k].envelopes))
  }

  /** What the sweep and the upsert throw away counts as discarded. */
  function AfterStageEnd(q: Queue, k: nat, nowMs: u64): Queue
    requires k < |q.inFlight|
  {
    var pull, kept := q.inFlight[k], Rows(q.stages, IsStale(nowMs), false);
    q.(inFlight := Without(q.inFlight, k),
       stages := Upsert(kept, StageRow(pull.token, pull.envelopes, AsI64(nowMs))),
       discarded := q.discarded + Total(Rows(q.stages, IsStale(nowMs), true), OfStage())
                    + Total(Rows(kept, HasToken(pull.token), true), OfStage()))
  }

  function AfterFetch(q: Queue, token: string): Queue {
    var found := Staged(q.stages, token);
    q.(stages := Rows(q.stages, HasToken(token), false),
       returned := if found.Some? then q.returned + multiset(found.value) else q.returned)
  }

  function AfterDelete(q: Queue, user: string, id: string): Queue {
    q.(messages := Rows(q.messages, IsMessage(user, id), false),
       deleted := q.deleted + Total(Rows(q.messages, IsMessage(user, id), true), OfRow()))
  }

  /** On a poisoned store every operation panics and changes nothing, but a pull in flight is lost. */
  function Step(q: Queue, e: Event): Queue {
    match e
    case Enqueue(recipient, stored) => if q.poisoned then q else AfterEnqueue(q, recipient, stored)
    case Drain(user) => if q.poisoned then q else AfterDrain(q, user)
    case StageBegin(recipient, token) => if q.poisoned then q else AfterStageBegin(q, recipient, token)
    case StageEnd(k, nowMs) =>
      if k >= |q.inFlight| then q else if q.poisoned then AfterCancel(q, k) else AfterStageEnd(q, k, nowMs)
    case Cancel(k) => if k < |q.inFlight| then AfterCancel(q, k) else q
    case Fetch(token) => if q.poisoned then q else AfterFetch(q, token)
    case Delete(user, id) => if q.poisoned then q else AfterDelete(q, user, id)
  }

  function After(events: seq<Event>): Queue {
    if events == [] then EMPTY else Step(After(events[..|events| - 1]), events[|events| - 1])
  }

  // ---------------------------------------------------------------- totals

  lemma TotalAppend<T>(s: seq<T>, x: T, held: T -> Bag, e: StoredEnvelope)
    ensures Total(s + [x], held)[e] == Total(s, held)[e] + held(x)[e]
  {
    assert (s + [x])[..|s|] == s;
  }

  /** A filter divides a table: nothing is in both parts and nothing in neither. */
  lemma {:induction false} TotalSplit<T>(s: seq<T>, p: T -> bool, held: T -> Bag, e: StoredEnvelope)
    ensures Total(s, held)[e] == Total(Rows(s, p, true), held)[e] + Total(Rows(s, p, false), held)[e]
  {
    if s != [] {
      var earlier, x := s[..|s| - 1], s[|s| - 1];
      TotalSplit(earlier, p, held, e);
      TotalAppend(Rows(earlier, p, p(x)), x, held, e);
      assert Rows(s, p, p(x)) == Rows(earlier, p, p(x)) + [x];
      assert Rows(s, p, !p(x)) == Rows(earlier, p, !p(x));
    }
  }

  lemma {:induction false} TotalWithout<T>(s: seq<T>, k: nat, held: T -> Bag, e: StoredEnvelope)
    requires k < |s|
    ensures Total(s, held)[e] == Total(Without(s, k), held)[e] + held(s[k])[e]
    decreases |s|
  {
    var n := |s| - 1;
    if k == n {
      assert Without(s, k) == s[..n];
    } else {
      TotalWithout(s[..n], k, held, e);
      assert Without(s, k) == Without(s[..n], k) + [s[n]];
      TotalAppend(Without(s[..n], k), s[n], held, e);
    }
  }

  lemma {:induction false} TotalInsert(rows: seq<QueueRow>, row: QueueRow, e: StoredEnvelope)
    ensures Total(Insert(rows, row), OfRow())[e] == Total(rows, OfRow())[e] + OfRow()(row)[e]
    decreases |rows|
  {
    if rows != [] && rows[|rows| - 1].createdAtMs > row.createdAtMs {
      var n := |rows| - 1;
      TotalInsert(rows[..n], row, e);
      TotalAppend(Insert(rows[..n], row), rows[n], OfRow(), e);
    } else {
      TotalAppend(rows, row, OfRow(), e);
    }
  }

  lemma {:induction false} TotalOrdered(rows: seq<QueueRow>, e: StoredEnvelope)
    ensures Total(OrderedByTime(rows), OfRow())[e] == Total(rows, OfRow())[e]
    decreases |rows|
  {
    if rows != [] {
      TotalOrdered(rows[..|rows| - 1], e);
      TotalInsert(OrderedByTime(rows[..|rows| - 1]), rows[|rows| - 1], e);
    }
  }

  lemma {:induction false} TotalEnvelopes(rows: seq<QueueRow>)
    ensures multiset(Envelopes(rows)) == Total(rows, OfRow())
    decreases |rows|
  {
    if rows != [] {
      var n := |rows| - 1;
      TotalEnvelopes(rows[..n]);
      assert Envelopes(rows) == Envelopes(rows[..n]) + [rows[n].stored];
    }
  }

  /** A drain hands over exactly what was queued for the user. */
  lemma DrainedIsQueued(messages: seq<QueueRow>, user: string, e: StoredEnvelope)
    ensures Total(messages, OfRow())[e]
            == multiset(Pending(messages, user))[e] + Total(Rows(messages, IsFor(user), false), OfRow())[e]
  {
    var rows := Rows(messages, IsFor(user), true);
    TotalSplit(messages, IsFor(user), OfRow(), e);
    TotalOrdered(rows, e);
    TotalEnvelopes(OrderedByTime(rows));
  }

  // ---------------------------------------------------------------- primary keys

  ghost predicate KeysUnique(q: Queue) {
    && (forall token :: |Rows(q.stages, HasToken(token), true)| <= 1)
    && (forall id :: |Rows(q.messages, HasId(id), true)| <= 1)
  }

  lemma {:induction false} FewerRows<T>(table: seq<T>, q: T -> bool, b: bool, p: T -> bool)
    ensures |Rows(Rows(table, q, b), p, true)| <= |Rows(table, p, true)|
  {
    if table != [] {
      var n := |table| - 1;
      FewerRows(table[..n], q, b, p);
      var kept := Rows(table[..n], q, b);
      assert (kept + [table[n]])[..|kept|] == kept;
      assert kept + [] == kept;
    }
  }

  lemma RowsAppend<T>(table: seq<T>, x: T, p: T -> bool)
    ensures Rows(table + [x], p, true) == Rows(table, p, true) + if p(x) then [x] else []
  {
    assert (table + [x])[..|table|] == table;
  }

  lemma MessagesStayUnique(messages: seq<QueueRow>, p: QueueRow -> bool)
    requires forall id :: |Rows(messages, HasId(id), true)| <= 1
    ensures forall id :: |Rows(Rows(messages, p, false), HasId(id), true)| <= 1
  {
    forall id ensures |Rows(Rows(messages, p, false), HasId(id), true)| <= 1 {
      FewerRows(messages, p, false, HasId(id));
    }
  }

  lemma StagesStayUnique(stages: seq<StageRow>, p: StageRow -> bool)
    requires forall token :: |Rows(stages, HasToken(token), true)| <= 1
    ensures forall token :: |Rows(Rows(stages, p, false), HasToken(token), true)| <= 1
  {
    forall token ensures |Rows(Rows(stages, p, false), HasToken(token), true)| <= 1 {
      FewerRows(stages, p, false, HasToken(token));
    }
  }

  lemma UpsertStaysUnique(stages: seq<StageRow>, row: StageRow)
    requires forall token :: |Rows(stages, HasToken(token), true)| <= 1
    ensures forall token :: |Rows(Upsert(stages, row), HasToken(token), true)| <= 1
  {
    var others := Rows(stages, HasToken(row.token), false);
    StagesStayUnique(stages, HasToken(row.token));
    forall token ensures |Rows(Upsert(stages, row), HasToken(token), true)| <= 1 {
      if token == row.token {
        UpsertFound(stages, row);
      } else {
        RowsAppend(others, row, HasToken(token));
      }
    }
  }

  lemma StepKeepsKeys(q: Queue, e: Event)
    requires KeysUnique(q)
    ensures KeysUnique(Step(q, e))
  {
    match e
    case Enqueue(recipient, stored) =>
      if !q.poisoned && Rows(q.messages, HasId(stored.id), true) == [] {
        var row := QueueRow(recipient, stored, AsI64(stored.envelope.timestampMs));
        forall id ensures |Rows(q.messages + [row], HasId(id), true)| <= 1 {
          RowsAppend(q.messages, row, HasId(id));
        }
      }
    case Drain(user) => MessagesStayUnique(q.messages, IsFor(user));
    case StageBegin(recipient, token) => MessagesStayUnique(q.messages, IsFor(recipient));
    case StageEnd(k, nowMs) =>
      if k < |q.inFlight| && !q.poisoned {
        StagesStayUnique(q.stages, IsStale(nowMs));
        var pull := q.inFlight[k];
        UpsertStaysUnique(Rows(q.stages, IsStale(nowMs), false), StageRow(pull.token, pull.envelopes, AsI64(nowMs)));
      }
    case Cancel(k) =>
    case Fetch(token) => StagesStayUnique(q.stages, HasToken(token));
    case Delete(user, id) => MessagesStayUnique(q.messages, IsMessage(user, id));
  }

  // ---------------------------------------------------------------- conservation

  /** Every enqueuing of `e` is queued, in flight, staged, returned, deleted or discarded, and in one way only. */
  ghost predicate Conserved(q: Queue, e: StoredEnvelope) {
    q.enqueued[e] == Total(q.messages, OfRow())[e] + Total(q.inFlight, OfPull())[e] + Total(q.stages, OfStage())[e]
                     + q.returned[e] + q.deleted[e] + q.discarded[e]
  }

  lemma EnqueueConserves(q: Queue, recipient: string, stored: StoredEnvelope, e: StoredEnvelope)
    requires Conserved(q, e)
    ensures Conserved(AfterEnqueue(q, recipient, stored), e)
  {
    TotalAppend(q.messages, QueueRow(recipient, stored, AsI64(stored.envelope.timestampMs)), OfRow(), e);
  }

  lemma StageBeginConserves(q: Queue, recipient: string, token: string, e: StoredEnvelope)
    requires Conserved(q, e)
    ensures Conserved(AfterStageBegin(q, recipient, token), e)
  {
    DrainedIsQueued(q.messages, recipient, e);
    TotalAppend(q.inFlight, Pull(token, Pending(q.messages, recipient)), OfPull(), e);
  }

  lemma CancelConserves(q: Queue, k: nat, e: StoredEnvelope)
    requires Conserved(q, e) && k < |q.inFlight|
    ensures Conserved(AfterCancel(q, k), e)
  {
    TotalWithout(q.inFlight, k, OfPull(), e);
  }

  lemma StageEndConserves(q: Queue, k: nat, nowMs: u64, e: StoredEnvelope)
    requires Conserved(q, e) && k < |q.inFlight|
    ensures Conserved(AfterStageEnd(q, k, nowMs), e)
  {
    var pull, kept := q.inFlight[k], Rows(q.stages, IsStale(nowMs), false);
    TotalWithout(q.inFlight, k, OfPull(), e);
    TotalSplit(q.stages, IsStale(nowMs), OfStage(), e);
    TotalSplit(kept, HasToken(pull.token), OfStage(), e);
    TotalAppend(Rows(kept, HasToken(pull.token), false), StageRow(pull.token, pull.envelopes, AsI64(nowMs)),
        OfStage(), e);
  }

  lemma OneRow(found: seq<StageRow>, e: StoredEnvelope)
    requires |found| <= 1
    ensures Total(found, OfStage())[e] == if found == [] then 0 else multiset(found[0].envelopes)[e]
  {
    if found != [] {
      assert found[..0] == [];
    }
  }

  /** A token names one row, so all that a fetch clears is what it returns. */
  lemma FetchConserves(q: Queue, token: string, e: StoredEnvelope)
    requires Conserved(q, e) && |Rows(q.stages, HasToken(token), true)| <= 1
    ensures Conserved(AfterFetch(q, token), e)
  {
    TotalSplit(q.stages, HasToken(token), OfStage(), e);
    OneRow(Rows(q.stages, HasToken(token), true), e);
  }

  lemma StepConserves(q: Queue, event: Event, e: StoredEnvelope)
    requires Conserved(q, e) && KeysUnique(q)
    ensures Conserved(Step(q, event), e)
  {
    match event
    case Enqueue(recipient, stored) => EnqueueConserves(q, recipient, stored, e);
    case Drain(user) => DrainedIsQueued(q.messages, user, e);
    case StageBegin(recipient, token) => StageBeginConserves(q, recipient, token, e);
    case StageEnd(k, nowMs) =>
      if k < |q.inFlight| {
        if q.poisoned { CancelConserves(q, k, e); } else { StageEndConserves(q, k, nowMs, e); }
      }
    case Cancel(k) => if k < |q.inFlight| { CancelConserves(q, k, e); }
    case Fetch(token) => FetchConserves(q, token, e);
    case Delete(user, id) => TotalSplit(q.messages, IsMessage(user, id), OfRow(), e);
  }

  lemma {:induction false} AlwaysUnique(events: seq<Event>)
    ensures KeysUnique(After(events))
    decreases |events|
  {
    if events != [] {
      AlwaysUnique(events[..|events| - 1]);
      StepKeepsKeys(After(events[..|events| - 1]), events[|events| - 1]);
    }
  }

  /** Over any interleaving, what was enqueued is what is held, was handed out, was deleted or was thrown away. */
  lemma {:induction false} AlwaysConserved(events: seq<Event>, e: StoredEnvelope)
    ensures var q := After(events);
            q.enqueued[e]
            == Total(q.messages, OfRow())[e] + Total(q.inFlight, OfPull())[e] + Total(q.stages, OfStage())[e]
               + q.returned[e] + q.deleted[e] + q.discarded[e]
    decreases |events|
  {
    if events != [] {
      var before, event := After(events[..|events| - 1]), events[|events| - 1];
      AlwaysConserved(events[..|events| - 1], e);
      AlwaysUnique(events[..|events| - 1]);
      assert Conserved(before, e);
      StepConserves(before, event, e);
      assert Conserved(After(events), e);
    }
  }

  /** No envelope is returned, by drain or by fetch, more often than it was enqueued. */
  lemma NeverReturnedTwice(events: seq<Event>, e: StoredEnvelope)
    ensures After(events).returned[e] <= After(events).enqueued[e]
  {
    AlwaysConserved(events, e);
  }

  // ---------------------------------------------------------------- whose envelopes a token gets

  /** `e` was enqueued for a recipient for whom a pull under `token` was begun. */
  ghost predicate Asked(events: seq<Event>, token: string, e: StoredEnvelope) {
    exists recipient :: Enqueue(recipient, e) in events && StageBegin(recipient, token) in events
  }

  ghost predicate RowsTraced(events: seq<Event>, messages: seq<QueueRow>) {
    forall row :: row in messages ==> Enqueue(row.recipient, row.stored) in events
  }

  ghost predicate PullsTraced(events: seq<Event>, pulls: seq<Pull>) {
    forall pull, e :: pull in pulls && e in pull.envelopes ==> Asked(events, pull.token, e)
  }

  ghost predicate StagesTraced(events: seq<Event>, stages: seq<StageRow>) {
    forall row, e :: row in stages && e in row.envelopes ==> Asked(events, row.token, e)
  }

  lemma AskedLater(events: seq<Event>, event: Event, token: string, e: StoredEnvelope)
    requires Asked(events, token, e)
    ensures Asked(events + [event], token, e)
  {
    var recipient :| Enqueue(recipient, e) in events && StageBegin(recipient, token) in events;
    assert Enqueue(recipient, e) in events + [event] && StageBegin(recipient, token) in events + [event];
  }

  lemma TracedLater(events: seq<Event>, event: Event, q: Queue)
    requires RowsTraced(events, q.messages) && PullsTraced(events, q.inFlight) && StagesTraced(events, q.stages)
    ensures var all := events + [event];
            RowsTraced(all, q.messages) && PullsTraced(all, q.inFlight) && StagesTraced(all, q.stages)
  {
    var all := events + [event];
    forall pull, e | pull in q.inFlight && e in pull.envelopes ensures Asked(all, pull.token, e) {
      AskedLater(events, event, pull.token, e);
    }
    forall row, e | row in q.stages && e in row.envelopes ensures Asked(all, row.token, e) {
      AskedLater(events, event, row.token, e);
    }
  }

  lemma BeginTraced(all: seq<Event>, q: Queue, recipient: string, token: string)
    requires StageBegin(recipient, token) in all && RowsTraced(all, q.messages) && PullsTraced(all, q.inFlight)
    ensures PullsTraced(all, AfterStageBegin(q, recipient, token).inFlight)
  {
    forall e | e in Pending(q.messages, recipient) ensures Asked(all, token, e) {
      DrainIsolates(q.messages, recipient, e);
      var row :| row in q.messages && row.recipient == recipient && row.stored == e;
      assert Enqueue(recipient, e) in all;
    }
  }

  lemma EndTraced(all: seq<Event>, q: Queue, k: nat, nowMs: u64)
    requires k < |q.inFlight| && PullsTraced(all, q.inFlight) && StagesTraced(all, q.stages)
    ensures StagesTraced(all, AfterStageEnd(q, k, nowMs).stages)
  {
    var pull, kept := q.inFlight[k], Rows(q.stages, IsStale(nowMs), false);
    RowsSatisfy(q.stages, IsStale(nowMs), false);
    RowsSatisfy(kept, HasToken(pull.token), false);
    assert pull in q.inFlight;
  }

  lemma StepTraced(all: seq<Event>, q: Queue, event: Event)
    requires event in all
    requires RowsTraced(all, q.messages) && PullsTraced(all, q.inFlight) && StagesTraced(all, q.stages)
    ensures var q' := Step(q, event);
            RowsTraced(all, q'.messages) && PullsTraced(all, q'.inFlight) && StagesTraced(all, q'.stages)
  {
    match event
    case Enqueue(recipient, stored) =>
    case Drain(user) => RowsSatisfy(q.messages, IsFor(user), false);
    case StageBegin(recipient, token) =>
      RowsSatisfy(q.messages, IsFor(recipient), false);
      BeginTraced(all, q, recipient, token);
    case StageEnd(k, nowMs) => if k < |q.inFlight| { EndTraced(all, q, k, nowMs); }
    case Cancel(k) =>
    case Fetch(token) => RowsSatisfy(q.stages, HasToken(token), false);
    case Delete(user, id) => RowsSatisfy(q.messages, IsMessage(user, id), false);
  }

  lemma {:induction false} RunTraced(events: seq<Event>)
    ensures var q := After(events);
            RowsTraced(events, q.messages) && PullsTraced(events, q.inFlight) && StagesTraced(events, q.stages)
    decreases |events|
  {
    if events != [] {
      var n := |events| - 1;
      RunTraced(events[..n]);
      TracedLater(events[..n], events[n], After(events[..n]));
      assert events[..n] + [events[n]] == events;
      StepTraced(events, After(events[..n]), events[n]);
    }
  }

  /** Whatever the interleaving, a token fetches only envelopes enqueued for someone whose pull named that token. */
  lemma FetchIsForWhoAsked(events: seq<Event>, token: string, e: StoredEnvelope)
    requires Staged(After(events).stages, token).Some? && e in Staged(After(events).stages, token).value
    ensures exists recipient :: Enqueue(recipient, e) in events && StageBegin(recipient, token) in events
  {
    var stages := After(events).stages;
    RunTraced(events);
    RowsSatisfy(stages, HasToken(token), true);
    var row := Rows(stages, HasToken(token), true)[0];
    assert row in stages && row.token == token && e in row.envelopes;
    assert Asked(events, token, e);
  }

  // ---------------------------------------------------------------- the runs are runs of the store

  predicate Mirrors(store: RelayStore, q: Queue)
    reads store
  {
    store.messages == q.messages && store.pullStages == q.stages && store.poisoned == q.poisoned
  }

  /** Each event is what the store's own method does; `pulls` are the ones in flight. */
  method Perform(store: RelayStore, e: Event, pulls: seq<Pull>, ghost q: Queue)
    requires Mirrors(store, q) && pulls == q.inFlight
    modifies store
    ensures Mirrors(store, Step(q, e))
  {
    match e
    case Enqueue(recipient, stored) => var _ := store.Enqueue(recipient, stored);
    case Drain(user) =>
      var drained := store.Drain(user);
      assert drained.Ok? ==> Step(q, e).returned == q.returned + multiset(drained.value);
    case StageBegin(recipient, token) =>
      var drained := store.Drain(recipient);
      assert drained.Ok? ==> Step(q, e).inFlight == q.inFlight + [Pull(token, drained.value)];
    case StageEnd(k, nowMs) =>
      if k < |pulls| {
        var _ := store.StageDrained(pulls[k].token, pulls[k].envelopes, nowMs);
      }
    case Cancel(_) =>
    case Fetch(token) =>
      var fetched := store.FetchPull(token);
      assert fetched.Ok? && fetched.value.Some? ==>
               Step(q, e).returned == q.returned + multiset(fetched.value.value);
    case Delete(user, id) => var _ := store.DeleteMessage(user, id);
  }
}
