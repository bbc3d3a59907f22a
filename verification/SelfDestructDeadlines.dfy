/**
 * When a self-destructing message with a deadline can still be opened after true time has reached its sealing
 * plus its window (protocol/src/self_destruct.rs:486-501 and 642-684): never, as long as at each restore the reading
 * has gained at least the true time from the sealing until the timer is armed; and after any restore where it has
 * not. A reading that is old by the time the timer is armed counts as one that has not kept up.
 */
module SelfDestructDeadlines {
  import opened Wrappers
  import opened SelfDestruct
  import opened ClientStore
  import opened SelfDestructRuns
  import opened SelfDestructTheorems

  function GoneBy(s: Sealing): nat {
    s.sealedAt + s.window
  }

  /** How much of the sealing's wall clock plus its window the recorded deadline has lost to the range of `u64`. */
  function CutShort(s: Sealing): int
    requires !s.mode.ReadTriggered?
  {
    s.wallNow + s.window - SealedDeadline(s).value
  }

  /**
   * Together with what the recorded deadline was cut short by, the reading has gained at least the true time that
   * passed since the sealing.
   */
  predicate KeptUp(s: Sealing, clock: nat, nowMs: u64)
    requires !s.mode.ReadTriggered?
  {
    nowMs - s.wallNow + CutShort(s) >= clock - s.sealedAt
  }

  /** Event `e` is the last part of a restore of `state` at reading `nowMs`, its clock check passed. */
  predicate Finishes(w: World, e: Event, state: PersistedState, nowMs: u64) {
    e.Finish? && e.p < |w.checks| && w.checks[e.p] == Check(ForRestore(state), nowMs, Stored)
  }

  /** If `e` brings a message with a deadline back to life, its reading has kept up since the sealing until now. */
  ghost predicate Punctual(w: World, e: Event) {
    forall state, nowMs :: Finishes(w, e, state, nowMs) && state.ciphertext in w.seals ==>
      var s := w.seals[state.ciphertext];
      s.mode.ReadTriggered? || Remaining(state.expiresAtMs, nowMs).Err? || KeptUp(s, w.clock, nowMs)
  }

  ghost predicate PunctualRun(events: seq<Event>) {
    forall n :: 0 <= n < |events| ==> Punctual(After(events[..n]), events[n])
  }

  /** A live key with a deadline has a timer still to fire, and in time. */
  ghost predicate TimedInstance(seals: Seals, x: Instance, clock: nat) {
    x.key.Some? && !x.mode.ReadTriggered? && x.ciphertext in seals ==>
      x.timer.Some? && clock < x.timer.value <= GoneBy(seals[x.ciphertext])
  }

  ghost predicate AllTimed(w: World) {
    forall i :: 0 <= i < |w.instances| ==> TimedInstance(w.seals, w.instances[i], w.clock)
  }

  ghost predicate InTime(seals: Seals, o: Opening) {
    o.ciphertext in seals && !seals[o.ciphertext].mode.ReadTriggered? ==> o.at < GoneBy(seals[o.ciphertext])
  }

  ghost predicate OpenedInTime(w: World) {
    forall n :: 0 <= n < |w.opens| ==> InTime(w.seals, w.opens[n])
  }

  lemma SealIsTimed(w: World, e: Event)
    requires Genuine(w) && AllTimed(w) && OpenedInTime(w) && e.SealNew?
    ensures AllTimed(AfterSeal(w, e)) && OpenedInTime(AfterSeal(w, e))
  {
    if FreshSeed(w, e.seed) {
      var w' := AfterSeal(w, e);
      var c := Boxed(KeyFor(e.seed, e.mode, e.timestampMs, e.window), e.plaintext);
      assert c !in w.seals;
      forall i | 0 <= i < |w'.instances| ensures TimedInstance(w'.seals, w'.instances[i], w'.clock) {
        if i < |w.instances| {
          assert CopyOf(w.seals, w.instances[i].ciphertext, w.instances[i].key, w.instances[i].mode,
              w.instances[i].expiresAtMs);
          assert TimedInstance(w.seals, w.instances[i], w.clock);
        }
      }
      forall n | 0 <= n < |w'.opens| ensures InTime(w'.seals, w'.opens[n]) {
        assert InTime(w.seals, w.opens[n]);
      }
    }
  }

  lemma OpenIsInTime(w: World, i: nat)
    requires Genuine(w) && AllTimed(w) && OpenedInTime(w) && i < |w.instances|
    ensures AllTimed(AfterOpen(w, i)) && OpenedInTime(AfterOpen(w, i))
  {
    var x, w' := w.instances[i], AfterOpen(w, i);
    assert CopyOf(w.seals, x.ciphertext, x.key, x.mode, x.expiresAtMs) && TimedInstance(w.seals, x, w.clock);
    forall n | 0 <= n < |w'.opens| ensures InTime(w'.seals, w'.opens[n]) {
      if n < |w.opens| {
        assert InTime(w.seals, w.opens[n]);
      }
    }
  }

  /** The timer re-armed for a copy ends in time exactly when the reading has kept up. */
  lemma RearmedInTimeIff(s: Sealing, clock: nat, nowMs: u64)
    requires !s.mode.ReadTriggered? && Remaining(SealedDeadline(s), nowMs).Ok?
    ensures clock + Remaining(SealedDeadline(s), nowMs).value.value <= GoneBy(s) <==> KeptUp(s, clock, nowMs)
    ensures CutShort(s) >= 0 && (s.wallNow + s.window < TWO_64 ==> CutShort(s) == 0)
  {
    assert s.window % TWO_64 <= s.window;
    if s.wallNow + s.window < TWO_64 {
      assert s.window % TWO_64 == s.window;
    }
  }

  lemma RestoreIsTimed(w: World, state: PersistedState, nowMs: u64)
    requires Genuine(w) && AllTimed(w) && OpenedInTime(w) && GenuineState(w.seals, state)
    requires var s := w.seals[state.ciphertext];
             s.mode.ReadTriggered? || Remaining(state.expiresAtMs, nowMs).Err? || KeptUp(s, w.clock, nowMs)
    ensures AllTimed(AfterRestore(w, state, nowMs)) && OpenedInTime(AfterRestore(w, state, nowMs))
  {
    var s := w.seals[state.ciphertext];
    if !s.mode.ReadTriggered? && Remaining(state.expiresAtMs, nowMs).Ok? {
      RearmedInTimeIff(s, w.clock, nowMs);
    }
  }

  lemma FinishIsTimed(w: World, p: nat)
    requires Genuine(w) && AllTimed(w) && OpenedInTime(w) && p < |w.checks| && Punctual(w, Finish(p))
    ensures AllTimed(AfterFinish(w, p)) && OpenedInTime(AfterFinish(w, p))
  {
    var check := w.checks[p];
    var done := w.(checks := w.checks[p := check.(progress := Done)]);
    assert Genuine(done) && AllTimed(done) && OpenedInTime(done);
    if check.progress.Stored? {
      match check.purpose
      case ForOpen(i) => if i < |w.instances| { OpenIsInTime(done, i); }
      case ForRestore(state) =>
        assert Finishes(w, Finish(p), state, check.nowMs);
        RestoreIsTimed(done, state, check.nowMs);
    }
  }

  lemma StepIsTimed(w: World, e: Event)
    requires Genuine(w) && AllTimed(w) && OpenedInTime(w) && Punctual(w, e)
    ensures AllTimed(Step(w, e)) && OpenedInTime(Step(w, e))
  {
    match e
    case SealNew(_, _, _, _, _, _) => SealIsTimed(w, e);
    case Open(i) => if i < |w.instances| { OpenIsInTime(w, i); }
    case LoadForOpen(i, nowMs) =>
    case LoadForRestore(h, nowMs) =>
    case StoreReading(p) =>
    case Finish(p) => if p < |w.checks| { FinishIsTimed(w, p); }
    case Expire(i) =>
    case Export(i) =>
    case Stage(h, id, peer, stagedAtMs) =>
    case Take(id) =>
    case Purge(nowMs) =>
    case Restart =>
    case Tick(ms) =>
  }

  lemma {:induction false} RunIsTimed(events: seq<Event>)
    requires PunctualRun(events)
    ensures AllTimed(After(events)) && OpenedInTime(After(events))
    decreases |events|
  {
    if events != [] {
      var n := |events| - 1;
      assert forall m :: 0 <= m < n ==> events[..n][..m] == events[..m] && Punctual(After(events[..m]), events[m]);
      assert PunctualRun(events[..n]);
      RunIsTimed(events[..n]);
      AlwaysGenuine(events[..n]);
      StepIsTimed(After(events[..n]), events[n]);
    }
  }

  /** No open succeeds once true time has reached the sealing plus the window, restarts or not. */
  lemma GoneByDeadline(events: seq<Event>, n: nat)
    requires PunctualRun(events) && n < |After(events).opens|
    ensures var o := After(events).opens[n];
            && o.ciphertext in After(events).seals
            && (!After(events).seals[o.ciphertext].mode.ReadTriggered? ==>
                o.at < GoneBy(After(events).seals[o.ciphertext]))
  {
    RunIsTimed(events);
    AlwaysGenuine(events);
    assert InTime(After(events).seals, After(events).opens[n]);
  }

  /** The last open of the run came too late. */
  ghost predicate OpenedLate(w: World) {
    && |w.opens| > 0
    && var o := w.opens[|w.opens| - 1]; o.ciphertext in w.seals && o.at >= GoneBy(w.seals[o.ciphertext])
  }

  /** What the last part of an unpunctual restore brings to life. */
  lemma UnpunctualFinish(w: World, p: nat) returns (state: PersistedState, nowMs: u64)
    requires Genuine(w) && !Punctual(w, Finish(p))
    ensures Finishes(w, Finish(p), state, nowMs) && GenuineState(w.seals, state)
    ensures !w.seals[state.ciphertext].mode.ReadTriggered? && Remaining(state.expiresAtMs, nowMs).Ok?
    ensures !KeptUp(w.seals[state.ciphertext], w.clock, nowMs)
  {
    state, nowMs :| Finishes(w, Finish(p), state, nowMs) && state.ciphertext in w.seals
                    && !w.seals[state.ciphertext].mode.ReadTriggered? && Remaining(state.expiresAtMs, nowMs).Ok?
                    && !KeptUp(w.seals[state.ciphertext], w.clock, nowMs);
  }

  /** The copy an unpunctual restore brings to life is still open one tick before its timer, past the deadline. */
  lemma LateCopyOpens(w: World, p: nat) returns (wait: Event)
    requires Genuine(w) && !Punctual(w, Finish(p))
    ensures OpenedLate(Step(Step(Step(w, Finish(p)), wait), Open(|w.instances|)))
  {
    var state, nowMs := UnpunctualFinish(w, p);
    RearmedInTimeIff(w.seals[state.ciphertext], w.clock, nowMs);
    var window := Remaining(state.expiresAtMs, nowMs).value.value;
    wait := Tick(window - 1);
    var w1 := AfterFinish(w, p);
    var copy := w1.instances[|w.instances|];
    assert Fired(copy, w.clock + window - 1) == copy;
    assert Step(w1, wait).instances[|w.instances|] == copy;
  }

  /** Once an unpunctual restore has gone through, waiting and opening does succeed too late. */
  lemma LateRestoreOpensLate(events: seq<Event>, p: nat)
    requires !Punctual(After(events), Finish(p))
    ensures exists more :: OpenedLate(After(events + more))
  {
    var w, finish := After(events), Finish(p);
    AlwaysGenuine(events);
    var wait := LateCopyOpens(w, p);
    var open := Open(|w.instances|);
    Then(events, finish);
    Then(events + [finish], wait);
    Then(events + [finish] + [wait], open);
    assert events + [finish] + [wait] + [open] == events + [finish, wait, open];
  }

  const SEAL: Event := SealNew(1, [7], TimeBound, 1000, 100, 1000)

  const KEY: DerivedKey := DerivedKey(1, TimeBound, 1000, 100)

  const STATE: PersistedState := PersistedState(Boxed(KEY, [7]), KEY, TimeBound, Some(1100))

  /** A message sealed for 100 ms at reading 1000 and staged, as the holding area has it after a restart. */
  lemma StagedAndRestarted() returns (events: seq<Event>)
    ensures var w := After(events);
            && w.clock == 0 && w.watermark == None && w.held == [] && w.checks == []
            && w.rows == map["row" := RowOf("peer", STATE, 1000)]
            && w.seals == map[STATE.ciphertext := Sealing(KEY, TimeBound, 100, 0, 1000)]
  {
    var w0 := Step(START, SEAL);
    assert w0.instances == [Instance(Some(KEY), Boxed(KEY, [7]), TimeBound, Some(1100), Some(100))];
    var w1 := Step(w0, Export(0));
    assert w1.held == [STATE];
    var stage := Stage(0, "row", "peer", 1000);
    events := [SEAL] + [Export(0)] + [stage] + [Restart];
    Then([], SEAL);
    assert [] + [SEAL] == [SEAL];
    Then([SEAL], Export(0));
    Then([SEAL] + [Export(0)], stage);
    Then([SEAL] + [Export(0)] + [stage], Restart);
  }

  /** It is taken back, and the clock check of its restore at reading 600 passes. */
  lemma TakenBack(w: World) returns (w3: World)
    requires w.watermark == None && w.held == [] && w.checks == []
    requires w.rows == map["row" := RowOf("peer", STATE, 1000)]
    ensures w3 == Step(Step(Step(w, Take("row")), LoadForRestore(0, 600)), StoreReading(0))
    ensures w3.seals == w.seals && w3.clock == w.clock && Finishes(w3, Finish(0), STATE, 600)
  {
    RowRoundTrip("peer", STATE, 1000);
    var w1 := Step(w, Take("row"));
    assert w1.held == [STATE];
    var w2 := Step(w1, LoadForRestore(0, 600));
    assert w2.checks == [Check(ForRestore(STATE), 600, Accepted)];
    w3 := Step(w2, StoreReading(0));
  }

  /** Sealing neither consults nor advances the watermark, so a clock set back before the first check goes unnoticed. */
  lemma ClockSetBackOutlives()
    ensures exists events :: OpenedLate(After(events))
  {
    var events := StagedAndRestarted();
    var w := TakenBack(After(events));
    Then(events, Take("row"));
    Then(events + [Take("row")], LoadForRestore(0, 600));
    Then(events + [Take("row")] + [LoadForRestore(0, 600)], StoreReading(0));
    LateRestoreOpensLate(events + [Take("row")] + [LoadForRestore(0, 600)] + [StoreReading(0)], 0);
  }

  // ---------------------------------------------------------------- the declared deadline

  /** The ciphertext a sealing produces. */
  function SealedAs(e: Event): Ciphertext
    requires e.SealNew?
  {
    Boxed(KeyFor(e.seed, e.mode, e.timestampMs, e.window), e.plaintext)
  }

  /**
   * Every open of what `e` seals at true time `sealedAt` comes before the declared timestamp plus the window, on the
   * wall clock as the sealing saw it.
   */
  ghost predicate OpensByDeclared(w: World, e: Event, sealedAt: nat)
    requires e.SealNew?
  {
    forall n :: 0 <= n < |w.opens| && w.opens[n].ciphertext == SealedAs(e) ==>
      e.wallNow + (w.opens[n].at - sealedAt) < e.timestampMs + e.window
  }

  /** "Gone by the timestamp plus the window", however the run goes on after the sealing, restores being punctual. */
  ghost predicate DeclaredDeadlineHolds(events: seq<Event>, e: Event)
    requires e.SealNew?
  {
    forall more :: PunctualRun(events + [e] + more) ==>
      OpensByDeclared(After(events + [e] + more), e, After(events).clock)
  }

  lemma {:induction false} SealStays(events: seq<Event>, e: Event, more: seq<Event>)
    requires e.SealNew? && FreshSeed(After(events), e.seed)
    ensures var w, c := After(events + [e] + more), SealedAs(e);
            c in w.seals && w.seals[c] == Sealing(c.key, e.mode, e.window, After(events).clock, e.wallNow)
    decreases |more|
  {
    if more == [] {
      Then(events, e);
      assert events + [e] + more == events + [e];
    } else {
      var n := |more| - 1;
      var run := events + [e] + more[..n];
      SealStays(events, e, more[..n]);
      AlwaysGenuine(run);
      assert events + [e] + more == run + [more[n]];
      Then(run, more[n]);
      SealsOnlyGrow(After(run), more[n], SealedAs(e));
    }
  }

  /** A sealing not ahead of its timestamp, or without a window, keeps the declared deadline. */
  lemma DeclaredKept(events: seq<Event>, e: Event, more: seq<Event>)
    requires e.SealNew? && !e.mode.ReadTriggered? && FreshSeed(After(events), e.seed)
    requires e.wallNow <= e.timestampMs || e.window == 0
    requires PunctualRun(events + [e] + more)
    ensures OpensByDeclared(After(events + [e] + more), e, After(events).clock)
  {
    var run, c := events + [e] + more, SealedAs(e);
    var w := After(run);
    SealStays(events, e, more);
    AlwaysGenuine(run);
    forall n | 0 <= n < |w.opens| && w.opens[n].ciphertext == c
      ensures e.wallNow + (w.opens[n].at - After(events).clock) < e.timestampMs + e.window
    {
      GoneByDeadline(run, n);
    }
  }

  /** Otherwise waiting for all but one tick of the window and opening misses it. */
  lemma DeclaredMissed(events: seq<Event>, e: Event) returns (more: seq<Event>)
    requires e.SealNew? && !e.mode.ReadTriggered? && FreshSeed(After(events), e.seed) && PunctualRun(events)
    requires e.wallNow > e.timestampMs && e.window > 0
    ensures PunctualRun(events + [e] + more)
    ensures !OpensByDeclared(After(events + [e] + more), e, After(events).clock)
  {
    var w, i := After(events), |After(events).instances|;
    var wait, open := Tick(e.window - 1), Open(i);
    more := [wait, open];
    Then(events, e);
    Then(events + [e], wait);
    Then(events + [e] + [wait], open);
    assert events + [e] + more == events + [e] + [wait] + [open];
    OpensLastTick(w, e);
    MorePunctual(events, [e, wait, open]);
    assert events + [e] + more == events + [e, wait, open];
  }

  lemma OpensLastTick(w: World, e: Event)
    requires e.SealNew? && !e.mode.ReadTriggered? && FreshSeed(w, e.seed) && e.window > 0
    ensures var last := Step(Step(Step(w, e), Tick(e.window - 1)), Open(|w.instances|));
            && |last.opens| == |w.opens| + 1 && last.opens[|w.opens|].ciphertext == SealedAs(e)
            && last.opens[|w.opens|].at == w.clock + e.window - 1
  {
    var sealed := AfterSeal(w, e);
    var x := sealed.instances[|w.instances|];
    assert x.key == Some(SealedAs(e).key) && x.timer == Some(w.clock + e.window);
    var waited := Step(sealed, Tick(e.window - 1));
    assert waited.instances[|w.instances|] == Fired(x, w.clock + e.window - 1) == x;
  }

  lemma MorePunctual(events: seq<Event>, more: seq<Event>)
    requires PunctualRun(events) && forall n :: 0 <= n < |more| ==> !more[n].Finish?
    ensures PunctualRun(events + more)
  {
    var run := events + more;
    forall n | 0 <= n < |run| ensures Punctual(After(run[..n]), run[n]) {
      if n < |events| {
        assert run[..n] == events[..n] && Punctual(After(events[..n]), events[n]);
      }
    }
  }

  /**
   * The documented guarantee: whatever came before and comes after, a sealed message is gone by its declared timestamp
   * plus its window exactly when the wall clock at sealing is not ahead of the timestamp, or the window is empty.
   */
  lemma DeclaredDeadlineHoldsIff(events: seq<Event>, e: Event)
    requires e.SealNew? && !e.mode.ReadTriggered? && FreshSeed(After(events), e.seed) && PunctualRun(events)
    ensures DeclaredDeadlineHolds(events, e) <==> e.wallNow <= e.timestampMs || e.window == 0
  {
    if e.wallNow <= e.timestampMs || e.window == 0 {
      forall more | PunctualRun(events + [e] + more)
        ensures OpensByDeclared(After(events + [e] + more), e, After(events).clock)
      {
        DeclaredKept(events, e, more);
      }
    } else {
      var more := DeclaredMissed(events, e);
    }
  }

  /** A message declared for 500 and sealed at 1000 for 100 ms: it can still be opened at 1099. */
  lemma DeclaredDeadlineMissed()
    ensures !DeclaredDeadlineHolds([], SealNew(1, [7], TimeBound, 500, 100, 1000))
  {
    DeclaredDeadlineHoldsIff([], SealNew(1, [7], TimeBound, 500, 100, 1000));
  }
}
