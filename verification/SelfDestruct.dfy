/**
 * Self-destructing messages (protocol/src/self_destruct.rs) and the clock guard (protocol/src/clock_guard.rs).
 *
 * Cryptography is ideal: a derived key is the tuple of everything the derivation is given, a ciphertext opens
 * under the key that sealed it and no other, and sealing itself never fails. Times are whole milliseconds.
 */
module SelfDestruct {
  import opened Wrappers

  datatype DestructMode = TimeBound | ReadTriggered | Combined {
    predicate ErasesOnRead() {
      ReadTriggered? || Combined?
    }
  }

  datatype DerivedKey = DerivedKey(seed: nat, mode: DestructMode, timestampMs: u64, windowMs: u64)

  /** Stored bytes: a nonce and box under `key`, bytes that fail to authenticate, or fewer than a nonce. */
  datatype Ciphertext = Boxed(key: DerivedKey, plaintext: seq<nat>) | Garbled(id: nat) | TooShort(id: nat)

  datatype DestructError =
    | SelfDestructExpired
    | SelfDestructCrypto
    | ClockRollbackDetected(observedMs: u64, watermarkMs: u64)

  datatype PersistedState = PersistedState(
    ciphertext: Ciphertext, key: DerivedKey, mode: DestructMode, expiresAtMs: Option<u64>)

  // ---------------------------------------------------------------- what the operations compute

  /** The deadline written down at sealing; `window` loses its high bits when cast to `u64`. */
  function DeadlineAt(mode: DestructMode, window: nat, wallNow: u64): Option<u64> {
    if mode.ReadTriggered? then None else Some(SaturatingAdd(wallNow, window % TWO_64))
  }

  /** How long the timer armed at sealing runs. */
  function TimerFor(mode: DestructMode, window: nat): Option<nat> {
    if mode.ReadTriggered? then None else Some(window)
  }

  function KeyFor(seed: nat, mode: DestructMode, timestampMs: u64, window: nat): DerivedKey {
    DerivedKey(seed, mode, timestampMs, if mode.ReadTriggered? then 0 else window % TWO_64)
  }

  function Decrypt(key: DerivedKey, ciphertext: Ciphertext): Result<seq<nat>, DestructError> {
    if ciphertext.Boxed? && ciphertext.key == key then Ok(ciphertext.plaintext) else Err(SelfDestructCrypto)
  }

  /** `open`: what it returns, and what it leaves in the key slot. */
  function Opened(key: Option<DerivedKey>, ciphertext: Ciphertext, mode: DestructMode)
    : (Result<seq<nat>, DestructError>, Option<DerivedKey>)
  {
    match key
    case None => (Err(SelfDestructExpired), None)
    case Some(k) =>
      var plaintext := Decrypt(k, ciphertext);
      (plaintext, if plaintext.Ok? && mode.ErasesOnRead() then None else key)
  }

  predicate Accepts(watermark: Option<u64>, nowMs: u64) {
    watermark.None? || watermark.value <= nowMs
  }

  /** The watermark after a check against `nowMs`. */
  function Checked(watermark: Option<u64>, nowMs: u64): Option<u64> {
    if Accepts(watermark, nowMs) then Some(nowMs) else watermark
  }

  /** The deadline check of `restore`: how long the timer it arms runs, or that the message has expired. */
  function Remaining(expiresAtMs: Option<u64>, nowMs: u64): Result<Option<nat>, DestructError> {
    match expiresAtMs
    case None => Ok(None)
    case Some(deadline) => if nowMs >= deadline then Err(SelfDestructExpired) else Ok(Some(deadline - nowMs))
  }

  /** All of `restore` with nothing in between: the clock check, then the deadline. */
  function Rearmed(expiresAtMs: Option<u64>, watermark: Option<u64>, nowMs: u64): Result<Option<nat>, DestructError> {
    if !Accepts(watermark, nowMs) then Err(ClockRollbackDetected(nowMs, watermark.value))
    else Remaining(expiresAtMs, nowMs)
  }

  // ---------------------------------------------------------------- the objects

  class ClockWatermarkStore {
    var watermark: Option<u64>

    constructor ()
      ensures watermark == None
    {
      watermark := None;
    }

    method LoadWatermark() returns (loaded: Option<u64>)
      ensures loaded == watermark
    {
      loaded := watermark;
    }

    method StoreWatermark(wallClockMs: u64)
      modifies this
      ensures watermark == Some(wallClockMs)
    {
      watermark := Some(wallClockMs);
    }
  }

  datatype ClockCheck = ClockOk | RollbackDetected(watermarkMs: u64, observedMs: u64)

  /**
   * A rollback leaves the watermark where it was: a rolled-back clock never becomes the baseline. The load and the
   * store lock the watermark separately; this is the check with nobody else in between.
   */
  method CheckClockIntegrity(store: ClockWatermarkStore, nowMs: u64) returns (check: ClockCheck)
    modifies store
    ensures store.watermark == Checked(old(store.watermark), nowMs)
    ensures check == if Accepts(old(store.watermark), nowMs) then ClockOk
                     else RollbackDetected(old(store.watermark).value, nowMs)
    ensures check.RollbackDetected? <==> old(store.watermark).Some? && nowMs < old(store.watermark).value
    ensures store.watermark == if check.ClockOk? then Some(nowMs) else old(store.watermark)
    ensures old(store.watermark).Some? ==> store.watermark.Some? && store.watermark.value >= old(store.watermark).value
  {
    var watermark := store.LoadWatermark();
    if watermark.Some? && nowMs < watermark.value {
      check := RollbackDetected(watermark.value, nowMs);
    } else {
      store.StoreWatermark(nowMs);
      check := ClockOk;
    }
  }

  /** The key all clones of one message share. */
  class KeySlot {
    var key: Option<DerivedKey>

    constructor (key: DerivedKey)
      ensures this.key == Some(key)
    {
      this.key := Some(key);
    }

    method Erase()
      modifies this
      ensures key == None
    {
      key := None;
    }
  }

  class SelfDestructingMessage {
    const ciphertext: Ciphertext
    const slot: KeySlot
    const mode: DestructMode
    const expiresAtMs: Option<u64>

    /**
     * `seal`, `seal_read_triggered` and `seal_combined`. The timer they start erases the slot once
     * `TimerFor(mode, window)` has run down.
     */
    constructor Seal(seed: nat, plaintext: seq<nat>, mode: DestructMode, timestampMs: u64, window: nat, wallNow: u64)
      ensures fresh(slot) && slot.key == Some(KeyFor(seed, mode, timestampMs, window))
      ensures ciphertext == Boxed(KeyFor(seed, mode, timestampMs, window), plaintext)
      ensures this.mode == mode && expiresAtMs == DeadlineAt(mode, window, wallNow)
      ensures mode.ReadTriggered? <==> expiresAtMs.None?
      ensures !mode.ReadTriggered? && wallNow + window < 0x1_0000_0000_0000_0000 ==>
                expiresAtMs == Some(wallNow + window)
      ensures ciphertext == Boxed(slot.key.value, plaintext)
      ensures slot.key.value.mode == mode && slot.key.value.timestampMs == timestampMs && slot.key.value.seed == seed
    {
      var key := KeyFor(seed, mode, timestampMs, window);
      this.slot := new KeySlot(key);
      this.ciphertext, this.mode := Boxed(key, plaintext), mode;
      this.expiresAtMs := DeadlineAt(mode, window, wallNow);
    }

    constructor Clone(of: SelfDestructingMessage)
      ensures slot == of.slot && ciphertext == of.ciphertext && mode == of.mode && expiresAtMs == of.expiresAtMs
    {
      slot, ciphertext, mode, expiresAtMs := of.slot, of.ciphertext, of.mode, of.expiresAtMs;
    }

    constructor FromState(state: PersistedState)
      ensures fresh(slot) && slot.key == Some(state.key)
      ensures ciphertext == state.ciphertext && mode == state.mode && expiresAtMs == state.expiresAtMs
    {
      slot := new KeySlot(state.key);
      ciphertext, mode, expiresAtMs := state.ciphertext, state.mode, state.expiresAtMs;
    }

    method ExpireNow()
      modifies slot
      ensures slot.key == None
    {
      slot.Erase();
    }

    method Open() returns (r: Result<seq<nat>, DestructError>)
      modifies slot
      ensures (r, slot.key) == Opened(old(slot.key), ciphertext, mode)
      ensures old(slot.key).None? ==> r == Err(SelfDestructExpired)
      ensures old(slot.key).Some? ==>
                r == if ciphertext.Boxed? && ciphertext.key == old(slot.key).value then Ok(ciphertext.plaintext)
                     else Err(SelfDestructCrypto)
      ensures slot.key == if r.Ok? && (mode.ReadTriggered? || mode.Combined?) then None else old(slot.key)
    {
      if slot.key.None? {
        return Err(SelfDestructExpired);
      }
      if ciphertext.TooShort? {
        return Err(SelfDestructCrypto);
      }
      r := Decrypt(slot.key.value, ciphertext);
      if r.Ok? && mode.ErasesOnRead() {
        slot.key := None;
      }
    }

    /** A rollback erases the key for good before anything is decrypted. */
    method OpenWithClockGuard(store: ClockWatermarkStore, nowMs: u64) returns (r: Result<seq<nat>, DestructError>)
      modifies slot, store
      ensures store.watermark == Checked(old(store.watermark), nowMs)
      ensures if Accepts(old(store.watermark), nowMs)
              then (r, slot.key) == Opened(old(slot.key), ciphertext, mode)
              else r == Err(ClockRollbackDetected(nowMs, old(store.watermark).value)) && slot.key == None
      ensures r.Err? && r.error.ClockRollbackDetected? <==>
                old(store.watermark).Some? && nowMs < old(store.watermark).value
      ensures slot.key == if (r.Ok? && (mode.ReadTriggered? || mode.Combined?)) ||
                             (r.Err? && r.error.ClockRollbackDetected?)
                          then None else old(slot.key)
    {
      var check := CheckClockIntegrity(store, nowMs);
      if check.RollbackDetected? {
        ExpireNow();
        return Err(ClockRollbackDetected(check.observedMs, check.watermarkMs));
      }
      r := Open();
    }

    /** A copy of the whole sealed state, key included; the live message keeps its own. */
    method ExportForPersistence() returns (r: Result<PersistedState, DestructError>)
      ensures r == if slot.key.Some? then Ok(PersistedState(ciphertext, slot.key.value, mode, expiresAtMs))
                   else Err(SelfDestructExpired)
    {
      if slot.key.None? {
        return Err(SelfDestructExpired);
      }
      r := Ok(PersistedState(ciphertext, slot.key.value, mode, expiresAtMs));
    }
  }

  /** `restore`: a new message, and how long the timer re-armed for it runs. */
  method Restore(state: PersistedState, store: ClockWatermarkStore, nowMs: u64)
    returns (r: Result<SelfDestructingMessage, DestructError>, timer: Option<nat>)
    modifies store
    ensures store.watermark == Checked(old(store.watermark), nowMs)
    ensures var rearmed := Rearmed(state.expiresAtMs, old(store.watermark), nowMs);
            if rearmed.Ok?
            then && timer == rearmed.value && r.Ok?
                 && fresh(r.value) && fresh(r.value.slot) && r.value.slot.key == Some(state.key)
                 && r.value.ciphertext == state.ciphertext && r.value.mode == state.mode
                 && r.value.expiresAtMs == state.expiresAtMs
            else r == Err(rearmed.error)
    ensures r.Err? && r.error.ClockRollbackDetected? <==>
              old(store.watermark).Some? && nowMs < old(store.watermark).value
    ensures r == Err(SelfDestructExpired) <==>
              && !(old(store.watermark).Some? && nowMs < old(store.watermark).value)
              && state.expiresAtMs.Some? && nowMs >= state.expiresAtMs.value
    ensures r.Ok? ==> timer == if state.expiresAtMs.Some? then Some(state.expiresAtMs.value - nowMs) else None
    ensures r.Ok? || r.error.SelfDestructExpired? || r.error.ClockRollbackDetected?
  {
    timer := None;
    var check := CheckClockIntegrity(store, nowMs);
    if check.RollbackDetected? {
      return Err(ClockRollbackDetected(check.observedMs, check.watermarkMs)), None;
    }
    if state.expiresAtMs.Some? {
      if nowMs >= state.expiresAtMs.value {
        return Err(SelfDestructExpired), None;
      }
      timer := Some(state.expiresAtMs.value - nowMs);
    }
    var message := new SelfDestructingMessage.FromState(state);
    r := Ok(message);
  }

  // ---------------------------------------------------------------- the window a restart re-arms

  /**
   * The first restore re-arms no more than the window sealed exactly when the accepted reading is not behind
   * the wall clock at sealing, or the recorded deadline was cut short by the `u64` range.
   */
  lemma FirstRearmFitsIff(mode: DestructMode, window: nat, wallNow: u64, watermark: Option<u64>, nowMs: u64)
    requires !mode.ReadTriggered?
    requires Rearmed(DeadlineAt(mode, window, wallNow), watermark, nowMs).Ok?
    ensures Rearmed(DeadlineAt(mode, window, wallNow), watermark, nowMs).value.value <= window
            <==> DeadlineAt(mode, window, wallNow).value - window <= nowMs
    ensures window + wallNow < TWO_64 ==>
      (Rearmed(DeadlineAt(mode, window, wallNow), watermark, nowMs).value.value <= window <==> wallNow <= nowMs)
  {
  }
}
