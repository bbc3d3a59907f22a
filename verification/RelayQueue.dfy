/**
 * The relay's message queue and its staged pulls (server/src/store.rs).
 *
 * Tables are sequences of rows in insertion order. Each method is one locked block of statements; `stage_pull` is
 * two of them, with nothing held in between. JSON is an abstract codec that always reads back what it wrote.
 */
module RelayQueue {
  import opened Wrappers
  import opened Bundle

  datatype StoredEnvelope = StoredEnvelope(id: string, envelope: MessageEnvelope)

  datatype QueueRow = QueueRow(recipient: string, stored: StoredEnvelope, createdAtMs: i64)

  datatype StageRow = StageRow(token: string, envelopes: seq<StoredEnvelope>, stagedAtMs: i64)

  /** A failed statement panics with the connection locked, and every later lock attempt panics on the poison. */
  datatype StoreFailure = Panicked

  /** How long a staged pull waits for pickup: five minutes. */
  const PULL_STAGE_TTL_MS: u64 := 5 * 60 * 1000

  // ---------------------------------------------------------------- queries

  /** The rows on which `p` comes out as `wanted`. */
  function Rows<T>(table: seq<T>, p: T -> bool, wanted: bool): seq<T> {
    if table == [] then []
    else
      var n := |table| - 1;
      Rows(table[..n], p, wanted) + if p(table[n]) == wanted then [table[n]] else []
  }

  function IsFor(recipient: string): QueueRow -> bool {
    (row: QueueRow) => row.recipient == recipient
  }

  function IsMessage(user: string, id: string): QueueRow -> bool {
    (row: QueueRow) => row.stored.id == id && row.recipient == user
  }

  function HasId(id: string): QueueRow -> bool {
    (row: QueueRow) => row.stored.id == id
  }

  function HasToken(token: string): StageRow -> bool {
    (row: StageRow) => row.token == token
  }

  /** Both times are cast to the signed column type before they are compared. */
  function IsStale(nowMs: u64): StageRow -> bool {
    (row: StageRow) => row.stagedAtMs < AsI64(SaturatingSub(nowMs, PULL_STAGE_TTL_MS))
  }

  /** `row` placed behind every row of the ordered `rows` that is not later: ties stay in table order. */
  function Insert(rows: seq<QueueRow>, row: QueueRow): seq<QueueRow> {
    if rows != [] && rows[|rows| - 1].createdAtMs > row.createdAtMs
    then Insert(rows[..|rows| - 1], row) + [rows[|rows| - 1]]
    else rows + [row]
  }

  /** `ORDER BY created_at_ms ASC`. */
  function OrderedByTime(rows: seq<QueueRow>): seq<QueueRow> {
    if rows == [] then [] else Insert(OrderedByTime(rows[..|rows| - 1]), rows[|rows| - 1])
  }

  function Envelopes(rows: seq<QueueRow>): (envelopes: seq<StoredEnvelope>)
    ensures |envelopes| == |rows| && forall i :: 0 <= i < |rows| ==> envelopes[i] == rows[i].stored
  {
    seq(|rows|, i requires 0 <= i < |rows| => rows[i].stored)
  }

  /** What a drain for `user` returns. */
  function Pending(messages: seq<QueueRow>, user: string): seq<StoredEnvelope> {
    Envelopes(OrderedByTime(Rows(messages, IsFor(user), true)))
  }

  /** `INSERT … ON CONFLICT(rendezvous_token) DO UPDATE`: the token's row is replaced if it has one. */
  function Upsert(stages: seq<StageRow>, row: StageRow): seq<StageRow> {
    Rows(stages, HasToken(row.token), false) + [row]
  }

  function Staged(stages: seq<StageRow>, token: string): Option<seq<StoredEnvelope>> {
    var found := Rows(stages, HasToken(token), true);
    if found == [] then None else Some(found[0].envelopes)
  }

  // ---------------------------------------------------------------- what a query selects

  /** `rows` are the rows of `table` at the indices `kept`, in table order. */
  ghost predicate At<T>(table: seq<T>, rows: seq<T>, kept: seq<nat>) {
    && |kept| == |rows|
    && (forall i, j :: 0 <= i < j < |kept| ==> kept[i] < kept[j])
    && (forall i :: 0 <= i < |kept| ==> kept[i] < |table| && rows[i] == table[kept[i]])
  }

  /** `rows` are exactly the rows of `table` that are to be kept, in table order. */
  ghost predicate Selected<T>(table: seq<T>, rows: seq<T>, keep: T -> bool) {
    exists kept: seq<nat> :: At(table, rows, kept) && forall i: nat :: i < |table| ==> (i in kept <==> keep(table[i]))
  }

  lemma {:induction false} RowsAt<T>(table: seq<T>, p: T -> bool, wanted: bool) returns (kept: seq<nat>)
    ensures At(table, Rows(table, p, wanted), kept)
    ensures forall i: nat :: i < |table| ==> (i in kept <==> p(table[i]) == wanted)
    decreases |table|
  {
    kept := [];
    if table != [] {
      var n := |table| - 1;
      var earlier := RowsAt(table[..n], p, wanted);
      kept := earlier + if p(table[n]) == wanted then [n] else [];
      assert n !in earlier;
      forall i: nat | i < |table| ensures i in kept <==> p(table[i]) == wanted {
        if i < n {
          assert table[..n][i] == table[i];
        }
      }
    }
  }

  lemma RowsSelected<T(!new)>(table: seq<T>, p: T -> bool, wanted: bool, keep: T -> bool)
    requires forall row :: keep(row) <==> p(row) == wanted
    ensures Selected(table, Rows(table, p, wanted), keep)
    ensures forall row :: row in Rows(table, p, wanted) <==> row in table && keep(row)
  {
    var kept := RowsAt(table, p, wanted);
    RowsSatisfy(table, p, wanted);
  }

  ghost predicate AddressedTo(messages: seq<QueueRow>, user: string, mine: seq<QueueRow>) {
    Selected(messages, mine, (row: QueueRow) => row.recipient == user)
  }

  /** `ordered` is `rows` arranged by time. */
  ghost predicate Arranged(rows: seq<QueueRow>, ordered: seq<QueueRow>) {
    && multiset(ordered) == multiset(rows)
    && forall i, j :: 0 <= i <= j < |ordered| ==> ordered[i].createdAtMs <= ordered[j].createdAtMs
  }

  /** What `user` gets is a time-ordered arrangement of exactly the rows addressed to `user`. */
  ghost predicate Delivers(messages: seq<QueueRow>, user: string, envelopes: seq<StoredEnvelope>) {
    exists mine: seq<QueueRow>, ordered: seq<QueueRow> ::
      && AddressedTo(messages, user, mine) && Arranged(mine, ordered)
      && |envelopes| == |ordered| && forall i :: 0 <= i < |ordered| ==> envelopes[i] == ordered[i].stored
  }

  lemma PendingDelivers(messages: seq<QueueRow>, user: string)
    ensures Delivers(messages, user, Pending(messages, user))
  {
    var mine := Rows(messages, IsFor(user), true);
    RowsSelected(messages, IsFor(user), true, (row: QueueRow) => row.recipient == user);
    DrainOrder(mine);
    assert AddressedTo(messages, user, mine) && Arranged(mine, OrderedByTime(mine));
  }

  // ---------------------------------------------------------------- the store

  class RelayStore {
    var messages: seq<QueueRow>
    var pullStages: seq<StageRow>
    var poisoned: bool

    constructor ()
      ensures messages == [] && pullStages == [] && !poisoned
    {
      messages, pullStages, poisoned := [], [], false;
    }

    /** The row is dated by the sender's timestamp, not by its arrival. */
    method Enqueue(recipient: string, stored: StoredEnvelope) returns (r: Result<(), StoreFailure>)
      modifies this`messages, this`poisoned
      ensures r.Err? <==> old(poisoned) || Rows(old(messages), HasId(stored.id), true) != []
      ensures r.Err? <==> old(poisoned) || exists row :: row in old(messages) && row.stored.id == stored.id
      ensures poisoned == r.Err?
      ensures messages == if r.Err? then old(messages)
                          else old(messages) + [QueueRow(recipient, stored, AsI64(stored.envelope.timestampMs))]
    {
      if poisoned {
        return Err(Panicked);
      }
      RowsSatisfy(messages, HasId(stored.id), true);
      if Rows(messages, HasId(stored.id), true) != [] {
        assert Rows(messages, HasId(stored.id), true)[0] in Rows(messages, HasId(stored.id), true);
        poisoned := true;
        return Err(Panicked);
      }
      messages := messages + [QueueRow(recipient, stored, AsI64(stored.envelope.timestampMs))];
      r := Ok(());
    }

    method Drain(user: string) returns (r: Result<seq<StoredEnvelope>, StoreFailure>)
      modifies this`messages
      ensures r == if poisoned then Err(Panicked) else Ok(Pending(old(messages), user))
      ensures messages == if poisoned then old(messages) else Rows(old(messages), IsFor(user), false)
      ensures r.Ok? ==> Delivers(old(messages), user, r.value)
      ensures r.Ok? ==> Selected(old(messages), messages, (row: QueueRow) => row.recipient != user)
    {
      if poisoned {
        return Err(Panicked);
      }
      PendingDelivers(messages, user);
      RowsSelected(messages, IsFor(user), false, (row: QueueRow) => row.recipient != user);
      var rows := OrderedByTime(Rows(messages, IsFor(user), true));
      messages := Rows(messages, IsFor(user), false);
      r := Ok(Envelopes(rows));
    }

    /** The second half of `stage_pull`: sweep what is stale, then stage. */
    method StageDrained(token: string, envelopes: seq<StoredEnvelope>, nowMs: u64) returns (r: Result<(), StoreFailure>)
      modifies this`pullStages
      ensures r.Err? <==> poisoned
      ensures pullStages == if poisoned then old(pullStages)
                            else Upsert(Rows(old(pullStages), IsStale(nowMs), false),
                                        StageRow(token, envelopes, AsI64(nowMs)))
      ensures r.Ok? && nowMs < 0x8000_0000_0000_0000 ==> forall row :: row in pullStages <==>
                || row == StageRow(token, envelopes, nowMs)
                || (row in old(pullStages) && row.token != token &&
                    row.stagedAtMs >= if nowMs >= 300_000 then nowMs - 300_000 else 0)
    {
      if poisoned {
        return Err(Panicked);
      }
      RowsSatisfy(pullStages, IsStale(nowMs), false);
      RowsSatisfy(Rows(pullStages, IsStale(nowMs), false), HasToken(token), false);
      pullStages := Rows(pullStages, IsStale(nowMs), false);
      pullStages := Upsert(pullStages, StageRow(token, envelopes, AsI64(nowMs)));
      r := Ok(());
    }

    /** `stage_pull` with nothing between its halves. */
    method StagePull(recipient: string, token: string, nowMs: u64) returns (r: Result<(), StoreFailure>)
      modifies this`messages, this`pullStages
      ensures r.Err? <==> poisoned
      ensures messages == if poisoned then old(messages) else Rows(old(messages), IsFor(recipient), false)
      ensures poisoned ==> pullStages == old(pullStages)
      ensures !poisoned ==> Staged(pullStages, token) == Some(Pending(old(messages), recipient))
      ensures !poisoned ==> forall other :: other != token ==>
                Staged(pullStages, other) == Staged(Rows(old(pullStages), IsStale(nowMs), false), other)
    {
      var drained := Drain(recipient);
      if drained.Err? {
        return Err(Panicked);
      }
      ghost var kept := Rows(pullStages, IsStale(nowMs), false);
      r := StageDrained(token, drained.value, nowMs);
      UpsertFound(kept, StageRow(token, drained.value, AsI64(nowMs)));
      forall other | other != token ensures Staged(pullStages, other) == Staged(kept, other) {
        UpsertElsewhere(kept, StageRow(token, drained.value, AsI64(nowMs)), other);
      }
    }

    method FetchPull(token: string) returns (r: Result<Option<seq<StoredEnvelope>>, StoreFailure>)
      modifies this`pullStages
      ensures r == if poisoned then Err(Panicked) else Ok(Staged(old(pullStages), token))
      ensures pullStages == if poisoned then old(pullStages) else Rows(old(pullStages), HasToken(token), false)
      ensures r.Ok? ==> if r.value.Some? then exists row :: row in old(pullStages) && row.token == token &&
                                                            row.envelopes == r.value.value
                        else forall row :: row in old(pullStages) ==> row.token != token
      ensures r.Ok? ==> Selected(old(pullStages), pullStages, (row: StageRow) => row.token != token)
    {
      if poisoned {
        return Err(Panicked);
      }
      RowsSatisfy(pullStages, HasToken(token), true);
      RowsSelected(pullStages, HasToken(token), false, (row: StageRow) => row.token != token);
      ghost var found := Rows(pullStages, HasToken(token), true);
      assert found != [] ==> found[0] in found;
      r := Ok(Staged(pullStages, token));
      pullStages := Rows(pullStages, HasToken(token), false);
    }

    method DeleteMessage(user: string, id: string) returns (r: Result<bool, StoreFailure>)
      modifies this`messages
      ensures r == if poisoned then Err(Panicked) else Ok(Rows(old(messages), IsMessage(user, id), true) != [])
      ensures messages == if poisoned then old(messages) else Rows(old(messages), IsMessage(user, id), false)
      ensures r.Ok? ==>
                (r.value <==> exists row :: row in old(messages) && row.recipient == user && row.stored.id == id)
      ensures r.Ok? ==>
                Selected(old(messages), messages, (row: QueueRow) => !(row.recipient == user && row.stored.id == id))
    {
      if poisoned {
        return Err(Panicked);
      }
      RowsSelected(messages, IsMessage(user, id), true,
                   (row: QueueRow) => row.recipient == user && row.stored.id == id);
      RowsSelected(messages, IsMessage(user, id), false,
                   (row: QueueRow) => !(row.recipient == user && row.stored.id == id));
      var affected := |Rows(messages, IsMessage(user, id), true)|;
      messages := Rows(messages, IsMessage(user, id), false);
      r := Ok(affected > 0);
      if affected > 0 {
        assert Rows(old(messages), IsMessage(user, id), true)[0] in Rows(old(messages), IsMessage(user, id), true);
      }
    }
  }

  // ---------------------------------------------------------------- rows

  lemma {:induction false} RowsSatisfy<T>(table: seq<T>, p: T -> bool, wanted: bool)
    ensures forall row :: row in Rows(table, p, wanted) <==> row in table && p(row) == wanted
  {
    if table != [] {
      RowsSatisfy(table[..|table| - 1], p, wanted);
    }
  }

  /** Filtering what the filter already dropped finds nothing. */
  lemma {:induction false} NothingLeft<T>(table: seq<T>, p: T -> bool)
    ensures Rows(Rows(table, p, false), p, true) == []
  {
    if table != [] {
      var n := |table| - 1;
      NothingLeft(table[..n], p);
      var kept := Rows(table[..n], p, false);
      assert (kept + [table[n]])[..|kept|] == kept;
      assert kept + [] == kept;
    }
  }

  /** Dropping one token's rows leaves another's as they are. */
  lemma {:induction false} DropElsewhere(stages: seq<StageRow>, token: string, other: string)
    requires other != token
    ensures Rows(Rows(stages, HasToken(token), false), HasToken(other), true) == Rows(stages, HasToken(other), true)
  {
    if stages != [] {
      var n := |stages| - 1;
      DropElsewhere(stages[..n], token, other);
      var kept := Rows(stages[..n], HasToken(token), false);
      assert (kept + [stages[n]])[..|kept|] == kept;
      assert kept + [] == kept;
    }
  }

  lemma UpsertElsewhere(stages: seq<StageRow>, row: StageRow, other: string)
    requires other != row.token
    ensures Staged(Upsert(stages, row), other) == Staged(stages, other)
  {
    var others := Rows(stages, HasToken(row.token), false);
    DropElsewhere(stages, row.token, other);
    assert (others + [row])[..|others|] == others;
  }

  lemma UpsertFound(stages: seq<StageRow>, row: StageRow)
    ensures Rows(Upsert(stages, row), HasToken(row.token), true) == [row]
  {
    var others := Rows(stages, HasToken(row.token), false);
    NothingLeft(stages, HasToken(row.token));
    assert (others + [row])[..|others|] == others;
  }

  // ---------------------------------------------------------------- order of delivery

  ghost predicate InTimeOrder(rows: seq<QueueRow>) {
    forall i, j :: 0 <= i <= j < |rows| ==> rows[i].createdAtMs <= rows[j].createdAtMs
  }

  lemma {:induction false} InsertAdds(rows: seq<QueueRow>, row: QueueRow)
    ensures multiset(Insert(rows, row)) == multiset(rows) + multiset{row}
    decreases |rows|
  {
    if rows != [] {
      InsertAdds(rows[..|rows| - 1], row);
      assert rows == rows[..|rows| - 1] + [rows[|rows| - 1]];
    }
  }

  ghost predicate NoLaterThan(rows: seq<QueueRow>, latest: int) {
    forall i :: 0 <= i < |rows| ==> rows[i].createdAtMs <= latest
  }

  lemma {:induction false} InsertOrdered(rows: seq<QueueRow>, row: QueueRow, latest: int)
    requires InTimeOrder(rows) && NoLaterThan(rows, latest) && row.createdAtMs <= latest
    ensures InTimeOrder(Insert(rows, row)) && NoLaterThan(Insert(rows, row), latest)
    decreases |rows|
  {
    if rows != [] && rows[|rows| - 1].createdAtMs > row.createdAtMs {
      InsertOrdered(rows[..|rows| - 1], row, rows[|rows| - 1].createdAtMs);
    }
  }

  /** A drain orders by the senders' timestamps and loses or repeats nothing. */
  lemma {:induction false} DrainOrder(rows: seq<QueueRow>)
    ensures InTimeOrder(OrderedByTime(rows)) && multiset(OrderedByTime(rows)) == multiset(rows)
    decreases |rows|
  {
    if rows != [] {
      var n := |rows| - 1;
      DrainOrder(rows[..n]);
      var latest := LatestOf(rows);
      var ordered := OrderedByTime(rows[..n]);
      assert rows == rows[..n] + [rows[n]];
      forall i | 0 <= i < |ordered| ensures ordered[i].createdAtMs <= latest {
        assert ordered[i] in multiset(ordered);
      }
      InsertOrdered(ordered, rows[n], latest);
      InsertAdds(ordered, rows[n]);
    }
  }

  lemma SameMembers<T>(a: seq<T>, b: seq<T>)
    requires multiset(a) == multiset(b)
    ensures forall x :: x in a <==> x in b
  {
    forall x ensures x in a <==> x in b {
      assert x in a <==> x in multiset(a);
      assert x in b <==> x in multiset(b);
    }
  }

  lemma InEnvelopes(rows: seq<QueueRow>, e: StoredEnvelope)
    ensures e in Envelopes(rows) <==> exists row :: row in rows && row.stored == e
  {
    if row :| row in rows && row.stored == e {
      var i :| 0 <= i < |rows| && rows[i] == row;
      assert Envelopes(rows)[i] == e;
    }
  }

  /** A drain hands a user what is queued for that user and nothing of anybody else's. */
  lemma DrainIsolates(messages: seq<QueueRow>, user: string, e: StoredEnvelope)
    ensures e in Pending(messages, user) <==> exists row :: row in messages && row.recipient == user && row.stored == e
  {
    var rows := Rows(messages, IsFor(user), true);
    RowsSatisfy(messages, IsFor(user), true);
    DrainOrder(rows);
    SameMembers(OrderedByTime(rows), rows);
    InEnvelopes(OrderedByTime(rows), e);
  }

  lemma {:induction false} LatestOf(rows: seq<QueueRow>) returns (latest: int)
    ensures NoLaterThan(rows, latest)
    decreases |rows|
  {
    latest := 0;
    if rows != [] {
      latest := LatestOf(rows[..|rows| - 1]);
      if latest < rows[|rows| - 1].createdAtMs {
        latest := rows[|rows| - 1].createdAtMs;
      }
    }
  }

  lemma InsertLast(rows: seq<QueueRow>, n: nat)
    requires n == |rows| - 1 && InTimeOrder(rows)
    ensures Insert(rows[..n], rows[n]) == rows
  {
    assert n > 0 ==> rows[n - 1].createdAtMs <= rows[n].createdAtMs;
    assert rows == rows[..n] + [rows[n]];
  }

  lemma {:induction false} AlreadyOrdered(rows: seq<QueueRow>)
    requires InTimeOrder(rows)
    ensures OrderedByTime(rows) == rows
    decreases |rows|
  {
    if rows != [] {
      var n := |rows| - 1;
      AlreadyOrdered(rows[..n]);
      InsertLast(rows, n);
      assert OrderedByTime(rows) == Insert(OrderedByTime(rows[..n]), rows[n]);
    }
  }

  /** It keeps the order of arrival exactly when the senders' timestamps already follow it. */
  lemma ArrivalOrderIff(rows: seq<QueueRow>)
    ensures OrderedByTime(rows) == rows <==> InTimeOrder(rows)
  {
    DrainOrder(rows);
    if InTimeOrder(rows) {
      AlreadyOrdered(rows);
    }
  }

  /** A message sent earlier but arriving later is delivered first. */
  lemma ArrivalOrderMissed(first: StoredEnvelope, second: StoredEnvelope)
    ensures var rows := [QueueRow("bob", first, 2000), QueueRow("bob", second, 1000)];
            OrderedByTime(rows) == [rows[1], rows[0]]
  {
    var early, late := QueueRow("bob", second, 1000), QueueRow("bob", first, 2000);
    assert [late, early][..1] == [late] && [late][..0] == [];
    calc {
      OrderedByTime([late, early]);
    ==
      Insert(OrderedByTime([late]), early);
    ==  { assert OrderedByTime([late]) == Insert(OrderedByTime([]), late) == [] + [late]; }
      Insert([late], early);
    ==
      Insert([], early) + [late];
    }
    assert Insert([], early) == [] + [early];
  }

  // ---------------------------------------------------------------- the staging period

  /**
   * A stage is swept exactly when more than the staging period has passed since, if and only if both times fall
   * on the same side of 2^63.
   */
  lemma SweptIff(row: StageRow, stagedAt: u64, nowMs: u64)
    requires row.stagedAtMs == AsI64(stagedAt)
    ensures (IsStale(nowMs)(row) <==> stagedAt + PULL_STAGE_TTL_MS < nowMs)
            <==> (stagedAt < TWO_63 <==> SaturatingSub(nowMs, PULL_STAGE_TTL_MS) < TWO_63)
  {
  }
}
