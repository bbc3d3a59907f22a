/**
 * The client's local store (client-store/src/lib.rs): message history, which refuses self-destructing
 * envelopes, and the holding area for self-destructing messages that are to survive a restart.
 *
 * Each method is one locked transaction on tables held as maps. Row ids are parameters: a generated id that
 * is already in use fails the insert on its primary key.
 */
module ClientStore {
  import opened Wrappers
  import opened Bundle
  import opened SelfDestruct

  datatype StoreError = RefusesSelfDestructingMessage | Codec | Sqlite

  datatype MessageDirection = Sent | Received

  datatype StoredMessage = StoredMessage(
    peer: string, direction: MessageDirection, envelope: MessageEnvelope, storedAtMs: i64)

  /** The `key_bytes` column: 32 bytes of key, or some other number of bytes. */
  datatype KeyColumn = KeyBytes(key: DerivedKey) | WrongLength(len: nat)

  /**
   * A row of the holding area. In an `Unreadable` one some column has the wrong type for the query; its deadline is
   * the column's value if that is an integer.
   */
  datatype PendingRow =
    | PendingRow(peer: string, ciphertext: Ciphertext, keyBytes: KeyColumn, mode: string,
                 expiresAtMs: Option<i64>, stagedAtMs: i64)
    | Unreadable(expiresAtMs: Option<i64>)

  function ModeToStr(mode: DestructMode): string {
    match mode
    case TimeBound => "time_bound"
    case ReadTriggered => "read_triggered"
    case Combined => "combined"
  }

  function ModeFromStr(s: string): Option<DestructMode> {
    if s == "time_bound" then Some(TimeBound)
    else if s == "read_triggered" then Some(ReadTriggered)
    else if s == "combined" then Some(Combined)
    else None
  }

  function RowOf(peer: string, state: PersistedState, stagedAtMs: u64): PendingRow {
    PendingRow(peer, state.ciphertext, KeyBytes(state.key), ModeToStr(state.mode),
               if state.expiresAtMs.Some? then Some(AsI64(state.expiresAtMs.value)) else None, AsI64(stagedAtMs))
  }

  function StateOf(row: PendingRow): Result<PersistedState, StoreError> {
    if row.Unreadable? || ModeFromStr(row.mode).None? || row.keyBytes.WrongLength? then Err(Codec)
    else Ok(PersistedState(row.ciphertext, row.keyBytes.key, ModeFromStr(row.mode).value,
                           if row.expiresAtMs.Some? then Some(AsU64(row.expiresAtMs.value)) else None))
  }

  /** The SQL condition: the stored deadline and `now`, both cast to `i64`. */
  predicate Purged(row: PendingRow, nowMs: u64) {
    row.expiresAtMs.Some? && row.expiresAtMs.value <= AsI64(nowMs)
  }

  function AfterPurge(pending: map<string, PendingRow>, nowMs: u64): map<string, PendingRow> {
    map id | id in pending && !Purged(pending[id], nowMs) :: pending[id]
  }

  class LocalMessageStore {
    var messages: map<string, StoredMessage>
    var pending: map<string, PendingRow>

    constructor ()
      ensures messages == map[] && pending == map[]
    {
      messages, pending := map[], map[];
    }

    /** History never takes an envelope that asks to be destroyed, and never strips the request either. */
    method StoreMessage(id: string, peer: string, direction: MessageDirection, envelope: MessageEnvelope)
      returns (r: Result<string, StoreError>)
      modifies this`messages
      ensures envelope.selfDestructAt.Some? || envelope.readTriggeredDestruct
              ==> r == Err(RefusesSelfDestructingMessage)
      ensures !envelope.selfDestructAt.Some? && !envelope.readTriggeredDestruct
              ==> r == if id in old(messages) then Err(Sqlite) else Ok(id)
      ensures messages == if r.Err? then old(messages)
                          else old(messages)[
                            id := StoredMessage(peer, direction, envelope, AsI64(envelope.timestampMs))]
    {
      if envelope.selfDestructAt.Some? || envelope.readTriggeredDestruct {
        return Err(RefusesSelfDestructingMessage);
      }
      if id in messages {
        return Err(Sqlite);
      }
      messages := messages[id := StoredMessage(peer, direction, envelope, AsI64(envelope.timestampMs))];
      r := Ok(id);
    }

    method StageSelfDestructing(id: string, peer: string, state: PersistedState, stagedAtMs: u64)
      returns (r: Result<string, StoreError>)
      modifies this`pending
      ensures r == if id in old(pending) then Err(Sqlite) else Ok(id)
      ensures pending == if id in old(pending) then old(pending) else old(pending)[id := RowOf(peer, state, stagedAtMs)]
      ensures r.Ok? ==>
                && id in pending && pending[id].PendingRow? && pending[id].peer == peer
                && pending[id].ciphertext == state.ciphertext && pending[id].keyBytes == KeyBytes(state.key)
                && (pending[id].mode == "time_bound" <==> state.mode.TimeBound?)
                && (pending[id].mode == "read_triggered" <==> state.mode.ReadTriggered?)
                && (pending[id].mode == "combined" <==> state.mode.Combined?)
                && (pending[id].expiresAtMs.Some? <==> state.expiresAtMs.Some?)
                && (state.expiresAtMs.Some? ==>
                    (pending[id].expiresAtMs.value - state.expiresAtMs.value) % 0x1_0000_0000_0000_0000 == 0)
    {
      if id in pending {
        return Err(Sqlite);
      }
      pending := pending[id := RowOf(peer, state, stagedAtMs)];
      r := Ok(id);
    }

    /**
     * The row is deleted before anyone looks at its columns, so it goes even when they turn out corrupt. Only a row
     * the query cannot read at all counts as absent, and stays.
     */
    method TakeSelfDestructing(id: string) returns (r: Result<Option<PersistedState>, StoreError>)
      modifies this`pending
      ensures pending == if id in old(pending) && old(pending[id]).Unreadable? then old(pending)
                         else old(pending) - {id}
      ensures if id !in old(pending) || old(pending[id]).Unreadable? then r == Ok(None)
              else if StateOf(old(pending[id])).Ok? then r == Ok(Some(StateOf(old(pending[id])).value))
              else r == Err(Codec)
      ensures r.Ok? && r.value.Some? ==>
                var row, state := old(pending[id]), r.value.value;
                && row.PendingRow? && state.ciphertext == row.ciphertext && row.keyBytes == KeyBytes(state.key)
                && row.mode == (if state.mode.TimeBound? then "time_bound"
                                else if state.mode.ReadTriggered? then "read_triggered" else "combined")
                && (state.expiresAtMs.Some? <==> row.expiresAtMs.Some?)
                && (state.expiresAtMs.Some? ==>
                    (state.expiresAtMs.value - row.expiresAtMs.value) % 0x1_0000_0000_0000_0000 == 0)
      ensures r == Err(Codec) <==>
                && id in old(pending) && old(pending[id]).PendingRow?
                && (old(pending[id]).mode !in {"time_bound", "read_triggered", "combined"} ||
                    old(pending[id]).keyBytes.WrongLength?)
    {
      if id !in pending {
        assert pending == pending - {id};
        return Ok(None);
      }
      var row := pending[id];
      if row.Unreadable? {
        return Ok(None);
      }
      pending := pending - {id};
      var mode := ModeFromStr(row.mode);
      if mode.None? {
        return Err(Codec);
      }
      if row.keyBytes.WrongLength? {
        return Err(Codec);
      }
      var expiresAtMs := if row.expiresAtMs.Some? then Some(AsU64(row.expiresAtMs.value)) else None;
      r := Ok(Some(PersistedState(row.ciphertext, row.keyBytes.key, mode.value, expiresAtMs)));
    }

    method PurgeExpiredSelfDestructing(nowMs: u64) returns (affected: nat)
      modifies this`pending
      ensures pending == AfterPurge(old(pending), nowMs)
      ensures affected == |set id | id in old(pending) && Purged(old(pending)[id], nowMs)|
      ensures affected == |old(pending)| - |pending|
      ensures forall id :: id in pending ==> id in old(pending) && pending[id] == old(pending)[id]
      ensures forall id :: id in old(pending) ==>
                var deadline, now := old(pending)[id].expiresAtMs,
                                     if nowMs < 0x8000_0000_0000_0000 then nowMs else nowMs - 0x1_0000_0000_0000_0000;
                id in pending <==> deadline.None? || deadline.value > now
    {
      ghost var before := pending;
      var ids := set id | id in pending && Purged(pending[id], nowMs);
      pending := pending - ids;
      affected := |ids|;
      assert pending == AfterPurge(before, nowMs);
    }
  }

  // ---------------------------------------------------------------- columns

  /** Each mode has its own string, and no other string is a mode. */
  lemma ModeRoundTrip(s: string, mode: DestructMode)
    ensures ModeFromStr(s) == Some(mode) <==> s == ModeToStr(mode)
  {
    assert "time_bound" != "read_triggered" by { assert "time_bound"[0] != "read_triggered"[0]; }
    assert "time_bound" != "combined" by { assert "time_bound"[0] != "combined"[0]; }
    assert "read_triggered" != "combined" by { assert "read_triggered"[0] != "combined"[0]; }
  }

  lemma CastRoundTrip(n: u64)
    ensures AsU64(AsI64(n)) == n
  {
  }

  /** What is staged is what is taken: the signed column loses nothing. */
  lemma RowRoundTrip(peer: string, state: PersistedState, stagedAtMs: u64)
    ensures StateOf(RowOf(peer, state, stagedAtMs)) == Ok(state)
  {
    ModeRoundTrip(ModeToStr(state.mode), state.mode);
    if state.expiresAtMs.Some? {
      CastRoundTrip(state.expiresAtMs.value);
    }
  }

  // ---------------------------------------------------------------- purge against restore

  /** Whether `restore` at `nowMs` would refuse the row's state as expired, the clock check having passed. */
  predicate RefusedAsExpired(row: PendingRow, watermark: Option<u64>, nowMs: u64) {
    StateOf(row).Ok? && Rearmed(StateOf(row).value.expiresAtMs, watermark, nowMs) == Err(SelfDestructExpired)
  }

  /** Whether `restore` at `nowMs` brings the row's state back. */
  predicate Restores(row: PendingRow, watermark: Option<u64>, nowMs: u64) {
    StateOf(row).Ok? && Rearmed(StateOf(row).value.expiresAtMs, watermark, nowMs).Ok?
  }

  /** The deadline and the reading fall on the same side of 2^63. */
  predicate SameSide(row: PendingRow, nowMs: u64) {
    row.expiresAtMs.Some? ==> (row.expiresAtMs.value >= 0 <==> nowMs < TWO_63)
  }

  /** The purge takes a row exactly when restore would refuse it as expired, under this condition and no other. */
  lemma PurgeMatchesRestoreIff(row: PendingRow, watermark: Option<u64>, nowMs: u64)
    requires Accepts(watermark, nowMs)
    ensures (Purged(row, nowMs) <==> RefusedAsExpired(row, watermark, nowMs)) <==>
              if StateOf(row).Ok? then SameSide(row, nowMs) else !Purged(row, nowMs)
  {
  }

  /**
   * What purge and restore need to agree on a row: one that can be read has its deadline on the same side of 2^63 as
   * the reading, and one that cannot, which nothing restores, has a deadline the purge takes for passed.
   */
  predicate Agreeable(row: PendingRow, nowMs: u64) {
    if StateOf(row).Ok? then SameSide(row, nowMs) else Purged(row, nowMs)
  }

  lemma AgreesOnRowIff(row: PendingRow, watermark: Option<u64>, nowMs: u64)
    requires Accepts(watermark, nowMs)
    ensures (!Purged(row, nowMs) <==> Restores(row, watermark, nowMs)) <==> Agreeable(row, nowMs)
  {
    if StateOf(row).Ok? {
      PurgeMatchesRestoreIff(row, watermark, nowMs);
    }
  }

  /** On any holding area: exactly the rows that survive a purge restore, if and only if every row is agreeable. */
  lemma PurgeAgreesWithRestore(pending: map<string, PendingRow>, watermark: Option<u64>, nowMs: u64)
    requires Accepts(watermark, nowMs)
    ensures (forall id :: id in pending ==>
              (id in AfterPurge(pending, nowMs) <==> Restores(pending[id], watermark, nowMs)))
            <==> (forall id :: id in pending ==> Agreeable(pending[id], nowMs))
  {
    forall id | id in pending
      ensures (id in AfterPurge(pending, nowMs) <==> Restores(pending[id], watermark, nowMs))
              <==> Agreeable(pending[id], nowMs)
    {
      AgreesOnRowIff(pending[id], watermark, nowMs);
    }
  }

  /** A row whose key has the wrong length survives the purge before its deadline, and never restores. */
  lemma PurgeKeepsCorruptRow()
    ensures var row := PendingRow("peer", TooShort(0), WrongLength(31), "time_bound", Some(5000), 0);
            SameSide(row, 1000) && !Purged(row, 1000) && !Restores(row, None, 1000)
  {
  }

  /** A deadline past 2^63, as a window of `u64::MAX` milliseconds gives, is purged while it could be restored. */
  lemma PurgeDropsLiveRow(key: DerivedKey)
    ensures var state := PersistedState(Boxed(key, []), key, TimeBound, Some(TWO_64 - 1));
            && Purged(RowOf("peer", state, 0), 1000)
            && Rearmed(StateOf(RowOf("peer", state, 0)).value.expiresAtMs, None, 1000).Ok?
  {
    RowRoundTrip("peer", PersistedState(Boxed(key, []), key, TimeBound, Some(TWO_64 - 1)), 0);
  }
}
