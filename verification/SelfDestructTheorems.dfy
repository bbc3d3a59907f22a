/**
 * What every run of self-destructing messages keeps, also with clock checks that overlap: copies never drift from
 * what was sealed, and every re-armed window is what the sealed deadline leaves.
 */
module SelfDestructTheorems {
  import opened Wrappers
  import opened SelfDestruct
  import opened ClientStore
  import opened SelfDestructRuns

  type Seals = map<Ciphertext, Sealing>

  function SealedDeadline(s: Sealing): Option<u64> {
    DeadlineAt(s.mode, s.window, s.wallNow)
  }

  // ---------------------------------------------------------------- every copy is what was sealed

  /** A copy of the message sealed as `c`: same mode, same deadline, and no key but its own. */
  ghost predicate CopyOf(
    seals: Seals, c: Ciphertext, key: Option<DerivedKey>, mode: DestructMode, expiresAtMs: Option<u64>)
  {
    && c in seals && c.Boxed? && c.key == seals[c].key
    && mode == seals[c].mode && expiresAtMs == SealedDeadline(seals[c])
    && (key.Some? ==> key.value == c.key)
  }

  ghost predicate SealsKeyed(seals: Seals, clock: nat) {
    forall c :: c in seals ==> c.Boxed? && c.key == seals[c].key && seals[c].sealedAt <= clock
  }

  ghost predicate GenuineInstances(seals: Seals, xs: seq<Instance>) {
    forall i :: 0 <= i < |xs| ==> CopyOf(seals, xs[i].ciphertext, xs[i].key, xs[i].mode, xs[i].expiresAtMs)
  }

  ghost predicate GenuineState(seals: Seals, s: PersistedState) {
    CopyOf(seals, s.ciphertext, Some(s.key), s.mode, s.expiresAtMs)
  }

  ghost predicate GenuineHeld(seals: Seals, held: seq<PersistedState>) {
    forall h :: 0 <= h < |held| ==> GenuineState(seals, held[h])
  }

  ghost predicate GenuineChecks(seals: Seals, checks: seq<Check>) {
    forall p :: 0 <= p < |checks| && checks[p].purpose.ForRestore? ==> GenuineState(seals, checks[p].purpose.state)
  }

  ghost predicate GenuineRow(seals: Seals, row: PendingRow) {
    StateOf(row).Ok? && GenuineState(seals, StateOf(row).value)
  }

  ghost predicate GenuineRows(seals: Seals, rows: map<string, PendingRow>) {
    forall id :: id in rows ==> GenuineRow(seals, rows[id])
  }

  /** What was read is what was sealed, and not before. */
  ghost predicate GenuineOpens(seals: Seals, opens: seq<Opening>) {
    forall n :: 0 <= n < |opens| ==>
      var o := opens[n];
      && o.ciphertext in seals && o.ciphertext.Boxed? && o.plaintext == o.ciphertext.plaintext
      && seals[o.ciphertext].sealedAt <= o.at
  }

  /** What was re-armed is what the sealed deadline left. */
  ghost predicate GenuineRestoring(seals: Seals, r: Restoring) {
    && r.ciphertext in seals
    && match SealedDeadline(seals[r.ciphertext])
       case None => r.window.None?
       case Some(deadline) => r.nowMs < deadline && r.window == Some(deadline - r.nowMs)
  }

  ghost predicate GenuineRestores(seals: Seals, restores: seq<Restoring>) {
    forall n :: 0 <= n < |restores| ==> GenuineRestoring(seals, restores[n])
  }

  ghost predicate Genuine(w: World) {
    && SealsKeyed(w.seals, w.clock)
    && GenuineInstances(w.seals, w.instances) && GenuineHeld(w.seals, w.held) && GenuineRows(w.seals, w.rows)
    && GenuineChecks(w.seals, w.checks) && GenuineOpens(w.seals, w.opens) && GenuineRestores(w.seals, w.restores)
  }

  lemma SealStaysGenuine(w: World, e: Event)
    requires Genuine(w) && e.SealNew?
    ensures Genuine(AfterSeal(w, e))
  {
    if FreshSeed(w, e.seed) {
      var c := Boxed(KeyFor(e.seed, e.mode, e.timestampMs, e.window), e.plaintext);
      assert c !in w.seals;
      var w' := AfterSeal(w, e);
      assert forall d :: d in w.seals ==> d in w'.seals && w'.seals[d] == w.seals[d];
      assert GenuineRows(w'.seals, w'.rows);
      assert GenuineInstances(w'.seals, w'.instances);
    }
  }

  lemma OpenStaysGenuine(w: World, i: nat)
    requires Genuine(w) && i < |w.instances|
    ensures Genuine(AfterOpen(w, i))
  {
  }

  lemma RestoreStaysGenuine(w: World, state: PersistedState, nowMs: u64)
    requires Genuine(w) && GenuineState(w.seals, state)
    ensures Genuine(AfterRestore(w, state, nowMs))
  {
  }

  lemma LoadStaysGenuine(w: World, purpose: Purpose, nowMs: u64)
    requires Genuine(w) && (purpose.ForRestore? ==> GenuineState(w.seals, purpose.state))
    ensures Genuine(AfterLoad(w, purpose, nowMs))
  {
  }

  lemma FinishStaysGenuine(w: World, p: nat)
    requires Genuine(w) && p < |w.checks|
    ensures Genuine(AfterFinish(w, p))
  {
    var check := w.checks[p];
    var done := w.(checks := w.checks[p := check.(progress := Done)]);
    assert Genuine(done);
    if check.progress.Stored? {
      match check.purpose
      case ForOpen(i) => if i < |w.instances| { OpenStaysGenuine(done, i); }
      case ForRestore(state) => RestoreStaysGenuine(done, state, check.nowMs);
    }
  }

  lemma StageStaysGenuine(w: World, h: nat, id: string, peer: string, stagedAtMs: u64)
    requires Genuine(w) && h < |w.held|
    ensures Genuine(AfterStage(w, h, id, peer, stagedAtMs))
  {
    RowRoundTrip(peer, w.held[h], stagedAtMs);
  }

  lemma TakeStaysGenuine(w: World, id: string)
    requires Genuine(w)
    ensures Genuine(AfterTake(w, id))
  {
    assert id in w.rows ==> GenuineRow(w.seals, w.rows[id]);
  }

  lemma ExportStaysGenuine(w: World, i: nat)
    requires Genuine(w) && i < |w.instances|
    ensures Genuine(AfterExport(w, i))
  {
  }

  lemma StepStaysGenuine(w: World, e: Event)
    requires Genuine(w)
    ensures Genuine(Step(w, e))
  {
    match e
    case SealNew(_, _, _, _, _, _) => SealStaysGenuine(w, e);
    case Open(i) => if i < |w.instances| { OpenStaysGenuine(w, i); }
    case LoadForOpen(i, nowMs) => if i < |w.instances| { LoadStaysGenuine(w, ForOpen(i), nowMs); }
    case LoadForRestore(h, nowMs) => if h < |w.held| { LoadStaysGenuine(w, ForRestore(w.held[h]), nowMs); }
    case StoreReading(p) =>
    case Finish(p) => if p < |w.checks| { FinishStaysGenuine(w, p); }
    case Expire(i) =>
    case Export(i) => if i < |w.instances| { ExportStaysGenuine(w, i); }
    case Stage(h, id, peer, stagedAtMs) => if h < |w.held| { StageStaysGenuine(w, h, id, peer, stagedAtMs); }
    case Take(id) => TakeStaysGenuine(w, id);
    case Purge(nowMs) =>
    case Restart =>
    case Tick(ms) =>
  }

  /**
   * Through any chain of export, stage, take and restore, every copy keeps the key, mode and deadline of its
   * sealing; only the sealed plaintext is ever read; and every re-armed window is what the deadline left.
   */
  lemma {:induction false} AlwaysGenuine(events: seq<Event>)
    ensures Genuine(After(events))
    decreases |events|
  {
    if events != [] {
      AlwaysGenuine(events[..|events| - 1]);
      StepStaysGenuine(After(events[..|events| - 1]), events[|events| - 1]);
    }
  }

  lemma SealsOnlyGrow(w: World, e: Event, c: Ciphertext)
    requires Genuine(w) && c in w.seals
    ensures c in Step(w, e).seals && Step(w, e).seals[c] == w.seals[c]
  {
    if e.SealNew? && FreshSeed(w, e.seed) {
      assert c.key.seed != e.seed;
    }
  }
}
