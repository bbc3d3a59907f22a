/**
 * Self-destructing messages over whole runs: processes that seal, open, export, stage, take, purge and restore
 * (protocol/src/self_destruct.rs, client-store/src/lib.rs), restarts that lose memory but not the holding area
 * or the clock watermark, and time passing.
 *
 * `clock` is true time, which the timers run on; wall-clock readings come with the events and may be anything.
 * A timer fires exactly at its deadline. All clones of a message are one instance, since they share its key slot.
 * A clock check loads the watermark and stores its reading as two steps, as the store's two locked calls are.
 * The fields from `seals` on only record what happened.
 */
module SelfDestructRuns {
  import opened Wrappers
  import opened SelfDestruct
  import opened ClientStore

  datatype Instance = Instance(
    key: Option<DerivedKey>, ciphertext: Ciphertext, mode: DestructMode, expiresAtMs: Option<u64>, timer: Option<nat>)

  datatype Sealing = Sealing(key: DerivedKey, mode: DestructMode, window: nat, sealedAt: nat, wallNow: u64)

  datatype Opening = Opening(instance: nat, ciphertext: Ciphertext, plaintext: seq<nat>, at: nat)

  datatype Restoring = Restoring(ciphertext: Ciphertext, nowMs: u64, window: Option<nat>, at: nat)

  /** What a clock check is for: a guarded open of an instance, or a restore of a state. */
  datatype Purpose = ForOpen(i: nat) | ForRestore(state: PersistedState)

  /**
   * How far a call that checks the clock has come. It has loaded the watermark and found its reading accepted or
   * not; then, accepted, it has stored the reading; then it has done what it checked the clock for.
   */
  datatype Progress = Accepted | Rejected | Stored | Done

  datatype Check = Check(purpose: Purpose, nowMs: u64, progress: Progress)

  datatype World = World(
    clock: nat,
    watermark: Option<u64>,
    instances: seq<Instance>,
    held: seq<PersistedState>,
    rows: map<string, PendingRow>,
    checks: seq<Check>,
    seals: map<Ciphertext, Sealing>,
    opens: seq<Opening>,
    restores: seq<Restoring>,
    staged: seq<string>,
    taken: seq<string>)

  /** A guarded open and a restore are three events: the load, the store, and the rest. Anything may come between. */
  datatype Event =
    | SealNew(seed: nat, plaintext: seq<nat>, mode: DestructMode, timestampMs: u64, window: nat, wallNow: u64)
    | Open(i: nat)
    | LoadForOpen(i: nat, nowMs: u64)
    | LoadForRestore(h: nat, nowMs: u64)
    | StoreReading(p: nat)
    | Finish(p: nat)
    | Expire(i: nat)
    | Export(i: nat)
    | Stage(h: nat, id: string, peer: string, stagedAtMs: u64)
    | Take(id: string)
    | Purge(nowMs: u64)
    | Restart
    | Tick(ms: nat)

  const START: World := World(0, None, [], [], map[], [], map[], [], [], [], [])

  function Fired(x: Instance, clock: nat): Instance {
    if x.timer.Some? && x.timer.value <= clock then x.(key := None) else x
  }

  function Erased(x: Instance): Instance {
    x.(key := None)
  }

  function Timer(clock: nat, window: Option<nat>): Option<nat> {
    if window.Some? then Some(clock + window.value) else None
  }

  /** Seeds are fresh randomness: no two sealings share one. */
  predicate FreshSeed(w: World, seed: nat) {
    forall c :: c in w.seals ==> w.seals[c].key.seed != seed
  }

  function AfterSeal(w: World, e: Event): World
    requires e.SealNew?
  {
    var key := KeyFor(e.seed, e.mode, e.timestampMs, e.window);
    var c := Boxed(key, e.plaintext);
    var deadline := DeadlineAt(e.mode, e.window, e.wallNow);
    var x := Instance(Some(key), c, e.mode, deadline, Timer(w.clock, TimerFor(e.mode, e.window)));
    if FreshSeed(w, e.seed)
    then w.(instances := w.instances + [Fired(x, w.clock)],
            seals := w.seals[c := Sealing(key, e.mode, e.window, w.clock, e.wallNow)])
    else w
  }

  function AfterOpen(w: World, i: nat): World
    requires i < |w.instances|
  {
    var x := w.instances[i];
    var (r, key) := Opened(x.key, x.ciphertext, x.mode);
    w.(instances := w.instances[i := x.(key := key)],
       opens := if r.Ok? then w.opens + [Opening(i, x.ciphertext, r.value, w.clock)] else w.opens)
  }

  function AfterExpire(w: World, i: nat): World
    requires i < |w.instances|
  {
    w.(instances := w.instances[i := Erased(w.instances[i])])
  }

  function AfterLoad(w: World, purpose: Purpose, nowMs: u64): World {
    w.(checks := w.checks + [Check(purpose, nowMs, if Accepts(w.watermark, nowMs) then Accepted else Rejected)])
  }

  /** The store does not look at the watermark again. */
  function AfterStore(w: World, p: nat): World
    requires p < |w.checks|
  {
    if !w.checks[p].progress.Accepted? then w
    else w.(watermark := Some(w.checks[p].nowMs), checks := w.checks[p := w.checks[p].(progress := Stored)])
  }

  /** What is left of a guarded open or a restore once the clock check is over. */
  function AfterFinish(w: World, p: nat): World
    requires p < |w.checks|
  {
    var check := w.checks[p];
    var done := w.(checks := w.checks[p := check.(progress := Done)]);
    if check.progress.Stored? then
      match check.purpose
      case ForOpen(i) => if i < |w.instances| then AfterOpen(done, i) else done
      case ForRestore(state) => AfterRestore(done, state, check.nowMs)
    else if check.progress.Rejected? then
      match check.purpose
      case ForOpen(i) => if i < |w.instances| then AfterExpire(done, i) else done
      case ForRestore(_) => done
    else w
  }

  /** The deadline check and the new instance, its timer counting from now. */
  function AfterRestore(w: World, state: PersistedState, nowMs: u64): World {
    var window := Remaining(state.expiresAtMs, nowMs);
    if window.Err? then w
    else
      var x := Instance(Some(state.key), state.ciphertext, state.mode, state.expiresAtMs, Timer(w.clock, window.value));
      w.(instances := w.instances + [x],
         restores := w.restores + [Restoring(state.ciphertext, nowMs, window.value, w.clock)])
  }

  function AfterExport(w: World, i: nat): World
    requires i < |w.instances|
  {
    var x := w.instances[i];
    if x.key.None? then w
    else w.(held := w.held + [PersistedState(x.ciphertext, x.key.value, x.mode, x.expiresAtMs)])
  }

  function AfterStage(w: World, h: nat, id: string, peer: string, stagedAtMs: u64): World
    requires h < |w.held|
  {
    if id in w.rows then w
    else w.(rows := w.rows[id := RowOf(peer, w.held[h], stagedAtMs)], staged := w.staged + [id])
  }

  function AfterTake(w: World, id: string): World {
    if id !in w.rows || w.rows[id].Unreadable? then w
    else
      var state := StateOf(w.rows[id]);
      w.(rows := w.rows - {id}, taken := w.taken + [id],
         held := if state.Ok? then w.held + [state.value] else w.held)
  }

  /** Every instance's key after `time`, in place. */
  function AllFired(xs: seq<Instance>, clock: nat): seq<Instance> {
    seq(|xs|, i requires 0 <= i < |xs| => Fired(xs[i], clock))
  }

  function AllErased(xs: seq<Instance>): seq<Instance> {
    seq(|xs|, i requires 0 <= i < |xs| => Erased(xs[i]))
  }

  function AllDone(checks: seq<Check>): seq<Check> {
    seq(|checks|, p requires 0 <= p < |checks| => checks[p].(progress := Done))
  }

  /** An event about an instance, a held state or a check that is not there changes nothing. */
  function Step(w: World, e: Event): World {
    match e
    case SealNew(_, _, _, _, _, _) => AfterSeal(w, e)
    case Open(i) => if i < |w.instances| then AfterOpen(w, i) else w
    case LoadForOpen(i, nowMs) => if i < |w.instances| then AfterLoad(w, ForOpen(i), nowMs) else w
    case LoadForRestore(h, nowMs) => if h < |w.held| then AfterLoad(w, ForRestore(w.held[h]), nowMs) else w
    case StoreReading(p) => if p < |w.checks| then AfterStore(w, p) else w
    case Finish(p) => if p < |w.checks| then AfterFinish(w, p) else w
    case Expire(i) => if i < |w.instances| then AfterExpire(w, i) else w
    case Export(i) => if i < |w.instances| then AfterExport(w, i) else w
    case Stage(h, id, peer, stagedAtMs) => if h < |w.held| then AfterStage(w, h, id, peer, stagedAtMs) else w
    case Take(id) => AfterTake(w, id)
    case Purge(nowMs) => w.(rows := AfterPurge(w.rows, nowMs))
    case Restart => w.(instances := AllErased(w.instances), held := [], checks := AllDone(w.checks))
    case Tick(ms) => w.(clock := w.clock + ms, instances := AllFired(w.instances, w.clock + ms))
  }

  function After(events: seq<Event>): World {
    if events == [] then START else Step(After(events[..|events| - 1]), events[|events| - 1])
  }

  // ---------------------------------------------------------------- what erases keys

  /** A restart loses keys, states in memory and calls under way, and keeps the holding area and the watermark. */
  lemma RestartForgets(w: World, i: nat)
    requires i < |w.instances|
    ensures var w' := Step(w, Restart);
            && |w'.instances| == |w.instances| && w'.instances[i].key == None && w'.held == []
            && w'.rows == w.rows && w'.watermark == w.watermark && w'.clock == w.clock
            && forall p :: 0 <= p < |w'.checks| ==> w'.checks[p].progress.Done?
  {
  }

  /** Time erases exactly the keys whose timer has run down. */
  lemma TimeErases(w: World, ms: nat, i: nat)
    requires i < |w.instances|
    ensures var x, x' := w.instances[i], Step(w, Tick(ms)).instances[i];
            x'.key == if x.timer.Some? && x.timer.value <= w.clock + ms then None else x.key
  {
  }

  /** An expiry, and a guarded open whose reading was behind the watermark, erase that key and no other. */
  lemma RollbackErases(w: World, p: nat, i: nat, nowMs: u64, j: nat)
    requires i < |w.instances| && j < |w.instances|
    requires p < |w.checks| && w.checks[p] == Check(ForOpen(i), nowMs, Rejected)
    ensures Step(w, Expire(i)).instances[j].key == if j == i then None else w.instances[j].key
    ensures Step(w, Finish(p)).instances[j].key == if j == i then None else w.instances[j].key
    ensures Step(w, Finish(p)).opens == w.opens
  {
  }

  /** A check is rejected exactly when its reading lies behind the watermark, and moves nothing yet. */
  lemma LoadRejects(w: World, i: nat, nowMs: u64)
    requires i < |w.instances|
    ensures var w' := Step(w, LoadForOpen(i, nowMs));
            && |w'.checks| == |w.checks| + 1 && w'.watermark == w.watermark && w'.instances == w.instances
            && w'.checks[|w.checks|].nowMs == nowMs
            && (w'.checks[|w.checks|].progress.Rejected? <==> w.watermark.Some? && nowMs < w.watermark.value)
            && (w'.checks[|w.checks|].progress.Rejected? || w'.checks[|w.checks|].progress.Accepted?)
  {
  }

  lemma Then(events: seq<Event>, e: Event)
    ensures After(events + [e]) == Step(After(events), e)
  {
    assert (events + [e])[..|events|] == events;
  }

  // ---------------------------------------------------------------- the events are what the methods do

  /** Staging, taking and purging are the holding area's own methods; `held` is what the process has in memory. */
  method PerformOnRows(store: LocalMessageStore, held: seq<PersistedState>, e: Event, ghost w: World)
    requires e.Stage? || e.Take? || e.Purge?
    requires store.pending == w.rows && held == w.held
    modifies store
    ensures store.pending == Step(w, e).rows
  {
    match e
    case Stage(h, id, peer, stagedAtMs) =>
      if h < |held| {
        var _ := store.StageSelfDestructing(id, peer, held[h], stagedAtMs);
      }
    case Take(id) =>
      var taken := store.TakeSelfDestructing(id);
      assert Step(w, e).held == if taken.Ok? && taken.value.Some? then w.held + [taken.value.value] else w.held;
    case Purge(nowMs) => var _ := store.PurgeExpiredSelfDestructing(nowMs);
  }

  /** The message is instance `i`. */
  predicate IsInstance(message: SelfDestructingMessage, x: Instance)
    reads message.slot
  {
    && message.slot.key == x.key && message.ciphertext == x.ciphertext
    && message.mode == x.mode && message.expiresAtMs == x.expiresAtMs
  }

  /** Opening, expiring and exporting are the message's own methods. */
  method PerformOnMessage(message: SelfDestructingMessage, e: Event, i: nat, ghost w: World)
    requires e == Open(i) || e == Expire(i) || e == Export(i)
    requires i < |w.instances| && IsInstance(message, w.instances[i])
    modifies message.slot
    ensures IsInstance(message, Step(w, e).instances[i])
  {
    if e.Open? {
      var r := message.Open();
      assert Step(w, e).opens
             == if r.Ok? then w.opens + [Opening(i, message.ciphertext, r.value, w.clock)] else w.opens;
    } else if e.Expire? {
      message.ExpireNow();
    } else {
      var r := message.ExportForPersistence();
      assert Step(w, e).held == if r.Ok? then w.held + [r.value] else w.held;
    }
  }

  /** A guarded open with nothing in between is `open_with_clock_guard`. */
  method PerformGuardedOpen(
    message: SelfDestructingMessage, store: ClockWatermarkStore, nowMs: u64, ghost i: nat, ghost w: World)
    returns (r: Result<seq<nat>, DestructError>, ghost w': World)
    requires i < |w.instances| && IsInstance(message, w.instances[i]) && store.watermark == w.watermark
    modifies message.slot, store
    ensures var p := |w.checks|; w' == Step(Step(Step(w, LoadForOpen(i, nowMs)), StoreReading(p)), Finish(p))
    ensures |w'.instances| == |w.instances| && IsInstance(message, w'.instances[i]) && store.watermark == w'.watermark
    ensures w'.opens == if r.Ok? then w.opens + [Opening(i, message.ciphertext, r.value, w.clock)] else w.opens
  {
    ghost var p := |w.checks|;
    ghost var loaded := Step(w, LoadForOpen(i, nowMs));
    ghost var stored := Step(loaded, StoreReading(p));
    assert loaded.checks[p] == Check(ForOpen(i), nowMs, if Accepts(w.watermark, nowMs) then Accepted else Rejected);
    w' := Step(stored, Finish(p));
    r := message.OpenWithClockGuard(store, nowMs);
  }

  /** A restore with nothing in between is `restore`. */
  method PerformRestore(state: PersistedState, store: ClockWatermarkStore, nowMs: u64, ghost h: nat, ghost w: World)
    returns (r: Result<SelfDestructingMessage, DestructError>, ghost w': World)
    requires h < |w.held| && w.held[h] == state && store.watermark == w.watermark
    modifies store
    ensures var p := |w.checks|; w' == Step(Step(Step(w, LoadForRestore(h, nowMs)), StoreReading(p)), Finish(p))
    ensures store.watermark == w'.watermark
    ensures r.Err? ==> w'.instances == w.instances
    ensures r.Ok? ==> |w'.instances| == |w.instances| + 1 && IsInstance(r.value, w'.instances[|w.instances|])
  {
    ghost var p := |w.checks|;
    ghost var loaded := Step(w, LoadForRestore(h, nowMs));
    ghost var stored := Step(loaded, StoreReading(p));
    assert loaded.checks[p]
           == Check(ForRestore(state), nowMs, if Accepts(w.watermark, nowMs) then Accepted else Rejected);
    w' := Step(stored, Finish(p));
    var timer;
    r, timer := Restore(state, store, nowMs);
  }
}
