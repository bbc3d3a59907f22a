/**
 * The clock watermark over whole runs (protocol/src/clock_guard.rs:98-109). A check loads the watermark and stores
 * its reading under two separate locks, so checks that overlap can take the watermark back and let a later restore
 * arm a longer timer. Neither happens in any run exactly when no check starts while another is under way.
 */
module SelfDestructClock {
  import opened Wrappers
  import opened SelfDestruct
  import opened SelfDestructRuns
  import opened SelfDestructTheorems

  function Level(watermark: Option<u64>): int {
    if watermark.None? then -1 else watermark.value
  }

  /** The store of check `p` would replace a reading that came later in time than its own. */
  predicate Overtaken(w: World, p: nat) {
    p < |w.checks| && w.checks[p].progress.Accepted? && w.checks[p].nowMs < Level(w.watermark)
  }

  /** A step takes the watermark back exactly when it is the store of an overtaken check. */
  lemma WatermarkDropsIff(w: World, e: Event)
    ensures Level(Step(w, e).watermark) < Level(w.watermark) <==> e.StoreReading? && Overtaken(w, e.p)
  {
  }

  // ---------------------------------------------------------------- how many checks are under way

  function UnderWay(checks: seq<Check>): nat {
    if checks == [] then 0
    else UnderWay(checks[..|checks| - 1]) + if checks[|checks| - 1].progress.Done? then 0 else 1
  }

  predicate Loads(e: Event) {
    e.LoadForOpen? || e.LoadForRestore?
  }

  /** No check starts with more than `k` others under way. */
  ghost predicate Overlapping(events: seq<Event>, k: nat) {
    forall n :: 0 <= n < |events| && Loads(events[n]) ==> UnderWay(After(events[..n]).checks) <= k
  }

  ghost predicate WatermarkHolds(events: seq<Event>) {
    forall n :: 0 <= n < |events| ==>
      Level(After(events[..n]).watermark) <= Level(Step(After(events[..n]), events[n]).watermark)
  }

  /** Of two restores of one message, the later never arms a longer timer than the earlier. */
  ghost predicate WindowsShrink(w: World) {
    forall m, n :: 0 <= m <= n < |w.restores| && w.restores[m].ciphertext == w.restores[n].ciphertext ==>
      var first, later := w.restores[m].window, w.restores[n].window;
      (first.None? <==> later.None?) && (later.Some? ==> 0 < later.value <= first.value)
  }

  /** Of two restores of one message with a deadline, one arms the longer timer exactly when its reading is smaller. */
  lemma LongerIffSmallerReading(events: seq<Event>, m: nat, n: nat)
    requires m < |After(events).restores| && n < |After(events).restores|
    requires After(events).restores[m].ciphertext == After(events).restores[n].ciphertext
    ensures var a, b := After(events).restores[m], After(events).restores[n];
            && (a.window.None? <==> b.window.None?)
            && (a.window.Some? ==> (a.window.value < b.window.value <==> b.nowMs < a.nowMs))
  {
    var w := After(events);
    AlwaysGenuine(events);
    assert GenuineRestoring(w.seals, w.restores[m]) && GenuineRestoring(w.seals, w.restores[n]);
  }

  // ---------------------------------------------------------------- one check at a time

  lemma {:induction false} NoneUnderWay(checks: seq<Check>)
    ensures UnderWay(checks) == 0 <==> forall p :: 0 <= p < |checks| ==> checks[p].progress.Done?
  {
    if checks != [] {
      NoneUnderWay(checks[..|checks| - 1]);
    }
  }

  /** At most one check is under way, and nobody has touched the watermark since it did. */
  ghost predicate OneAtATime(w: World) {
    && (forall p, q :: 0 <= p < |w.checks| && 0 <= q < |w.checks| && p != q ==>
          w.checks[p].progress.Done? || w.checks[q].progress.Done?)
    && (forall p :: 0 <= p < |w.checks| ==>
          && (w.checks[p].progress.Accepted? ==> Level(w.watermark) <= w.checks[p].nowMs)
          && (w.checks[p].progress.Stored? ==> w.watermark == Some(w.checks[p].nowMs)))
  }

  ghost predicate ReadingsInOrder(w: World) {
    && (forall m, n :: 0 <= m <= n < |w.restores| ==> w.restores[m].nowMs <= w.restores[n].nowMs)
    && (forall n :: 0 <= n < |w.restores| ==> w.restores[n].nowMs <= Level(w.watermark))
  }

  lemma LoadKeepsOne(w: World, purpose: Purpose, nowMs: u64)
    requires OneAtATime(w) && UnderWay(w.checks) == 0
    ensures OneAtATime(AfterLoad(w, purpose, nowMs))
  {
    NoneUnderWay(w.checks);
  }

  lemma StepKeepsOne(w: World, e: Event)
    requires OneAtATime(w) && (Loads(e) ==> UnderWay(w.checks) == 0)
    ensures OneAtATime(Step(w, e)) && Level(w.watermark) <= Level(Step(w, e).watermark)
  {
    if e.LoadForOpen? && e.i < |w.instances| {
      LoadKeepsOne(w, ForOpen(e.i), e.nowMs);
    } else if e.LoadForRestore? && e.h < |w.held| {
      LoadKeepsOne(w, ForRestore(w.held[e.h]), e.nowMs);
    }
  }

  lemma StepKeepsReadings(w: World, e: Event)
    requires OneAtATime(w) && ReadingsInOrder(w)
    ensures ReadingsInOrder(Step(w, e))
  {
    var w' := Step(w, e);
    assert w'.restores == w.restores
           || (e.Finish? && w.watermark == Some(w.checks[e.p].nowMs) && |w'.restores| == |w.restores| + 1
               && w'.restores[..|w.restores|] == w.restores && w'.restores[|w.restores|].nowMs == w.checks[e.p].nowMs);
  }

  lemma PrefixOverlaps(events: seq<Event>, k: nat, n: nat)
    requires Overlapping(events, k) && n <= |events|
    ensures Overlapping(events[..n], k)
  {
    assert forall m :: 0 <= m < n ==> events[..n][..m] == events[..m] && events[..n][m] == events[m];
  }

  lemma {:induction false} OneByOne(events: seq<Event>)
    requires Overlapping(events, 0)
    ensures OneAtATime(After(events)) && ReadingsInOrder(After(events))
    decreases |events|
  {
    if events != [] {
      var n := |events| - 1;
      PrefixOverlaps(events, 0, n);
      OneByOne(events[..n]);
      StepKeepsOne(After(events[..n]), events[n]);
      StepKeepsReadings(After(events[..n]), events[n]);
    }
  }

  lemma OneByOneHolds(events: seq<Event>)
    requires Overlapping(events, 0)
    ensures WatermarkHolds(events)
  {
    forall n | 0 <= n < |events|
      ensures Level(After(events[..n]).watermark) <= Level(Step(After(events[..n]), events[n]).watermark)
    {
      PrefixOverlaps(events, 0, n);
      OneByOne(events[..n]);
      StepKeepsOne(After(events[..n]), events[n]);
    }
  }

  lemma InOrderShrinks(events: seq<Event>)
    requires ReadingsInOrder(After(events))
    ensures WindowsShrink(After(events))
  {
    var w := After(events);
    AlwaysGenuine(events);
    forall m, n | 0 <= m <= n < |w.restores| && w.restores[m].ciphertext == w.restores[n].ciphertext
      ensures (w.restores[m].window.None? <==> w.restores[n].window.None?)
      ensures w.restores[n].window.Some? ==> 0 < w.restores[n].window.value <= w.restores[m].window.value
    {
      assert GenuineRestoring(w.seals, w.restores[m]) && GenuineRestoring(w.seals, w.restores[n]);
    }
  }

  // ---------------------------------------------------------------- two at a time

  const SEAL: Event := SealNew(1, [7], TimeBound, 1000, 100, 1000)

  /**
   * Two restores of one message, 100 and 500: both load an empty watermark, the second stores and arms first. Then
   * the first takes the watermark back from 500 to 100 and arms a timer 400 ms longer.
   */
  const OVERLAP: seq<Event> :=
    [SEAL, Export(0), LoadForRestore(0, 100), LoadForRestore(0, 500),
     StoreReading(1), Finish(1), StoreReading(0), Finish(0)]

  /** A message sealed until 1100 with a copy at hand, no reading stored yet. */
  lemma Exported() returns (w: World, state: PersistedState)
    ensures |AfterSeal(START, SEAL).instances| == 1 && w == AfterExport(AfterSeal(START, SEAL), 0)
    ensures w.watermark == None && w.held == [state] && w.checks == [] && w.restores == []
    ensures state.expiresAtMs == Some(1100)
  {
    var key := DerivedKey(1, TimeBound, 1000, 100);
    state := PersistedState(Boxed(key, [7]), key, TimeBound, Some(1100));
    var sealed := AfterSeal(START, SEAL);
    assert sealed.instances == [Instance(Some(key), Boxed(key, [7]), TimeBound, Some(1100), Some(100))];
    w := AfterExport(sealed, 0);
  }

  lemma BothLoad(w: World, state: PersistedState) returns (w1: World, w2: World)
    requires w.watermark == None && w.checks == []
    ensures w1 == AfterLoad(w, ForRestore(state), 100) && w2 == AfterLoad(w1, ForRestore(state), 500)
    ensures UnderWay(w.checks) == 0 && UnderWay(w1.checks) == 1
    ensures w2 == w.(checks := [Check(ForRestore(state), 100, Accepted), Check(ForRestore(state), 500, Accepted)])
  {
    w1 := AfterLoad(w, ForRestore(state), 100);
    assert w1.checks == [Check(ForRestore(state), 100, Accepted)] && w1.checks[..0] == [];
    w2 := AfterLoad(w1, ForRestore(state), 500);
  }

  lemma LaterThenEarlier(w: World, state: PersistedState) returns (w1: World, w2: World, w3: World, w4: World)
    requires w.checks == [Check(ForRestore(state), 100, Accepted), Check(ForRestore(state), 500, Accepted)]
    requires w.restores == [] && state.expiresAtMs == Some(1100)
    ensures w1 == AfterStore(w, 1) && |w1.checks| == 2 && w2 == AfterFinish(w1, 1)
    ensures |w2.checks| == 2 && w3 == AfterStore(w2, 0) && |w3.checks| == 2 && w4 == AfterFinish(w3, 0)
    ensures w2.watermark == Some(500) && w3.watermark == Some(100)
    ensures w4.restores == [Restoring(state.ciphertext, 500, Some(600), w.clock),
                            Restoring(state.ciphertext, 100, Some(1000), w.clock)]
  {
    w1 := AfterStore(w, 1);
    assert w1.checks == [Check(ForRestore(state), 100, Accepted), Check(ForRestore(state), 500, Stored)];
    w2 := AfterFinish(w1, 1);
    assert w2.checks == [Check(ForRestore(state), 100, Accepted), Check(ForRestore(state), 500, Done)];
    assert w2.restores == [Restoring(state.ciphertext, 500, Some(600), w.clock)];
    w3 := AfterStore(w2, 0);
    assert w3.checks[0] == Check(ForRestore(state), 100, Stored);
    w4 := AfterFinish(w3, 0);
  }

  lemma At(events: seq<Event>, n: nat, w: World)
    requires n < |events| && After(events[..n]) == w
    ensures After(events[..n + 1]) == Step(w, events[n])
  {
    assert events[..n + 1][..n] == events[..n];
  }

  lemma UpToExport(w2: World)
    requires |AfterSeal(START, SEAL).instances| > 0 && w2 == AfterExport(AfterSeal(START, SEAL), 0)
    ensures After(OVERLAP[..2]) == w2
  {
    assert OVERLAP[..0] == [];
    At(OVERLAP, 0, START);
    At(OVERLAP, 1, AfterSeal(START, SEAL));
  }

  lemma UpToLoads(w2: World, w3: World, w4: World)
    requires After(OVERLAP[..2]) == w2 && |w2.held| == 1 && w3.held == w2.held
    requires w3 == AfterLoad(w2, ForRestore(w2.held[0]), 100) && w4 == AfterLoad(w3, ForRestore(w2.held[0]), 500)
    ensures After(OVERLAP[..3]) == w3 && After(OVERLAP[..4]) == w4
  {
    At(OVERLAP, 2, w2);
    At(OVERLAP, 3, w3);
  }

  lemma UpToFirstFinish(w4: World, w5: World, w6: World)
    requires After(OVERLAP[..4]) == w4 && |w4.checks| == |w5.checks| == 2
    requires w5 == AfterStore(w4, 1) && w6 == AfterFinish(w5, 1)
    ensures After(OVERLAP[..6]) == w6
  {
    At(OVERLAP, 4, w4);
    At(OVERLAP, 5, w5);
  }

  lemma UpToSecondFinish(w6: World, w7: World, w8: World)
    requires After(OVERLAP[..6]) == w6 && |w6.checks| == |w7.checks| == 2
    requires w7 == AfterStore(w6, 0) && w8 == AfterFinish(w7, 0)
    ensures Step(After(OVERLAP[..6]), OVERLAP[6]) == w7 && After(OVERLAP) == w8
  {
    At(OVERLAP, 6, w6);
    At(OVERLAP, 7, w7);
    assert OVERLAP[..8] == OVERLAP;
  }

  /** The worlds of the run that matter. */
  lemma OverlapWorlds() returns (w2: World, w3: World, w6: World, w7: World, w8: World)
    ensures After(OVERLAP[..2]) == w2 && After(OVERLAP[..3]) == w3 && After(OVERLAP[..6]) == w6 && After(OVERLAP) == w8
    ensures Step(w6, OVERLAP[6]) == w7
    ensures UnderWay(w2.checks) == 0 && UnderWay(w3.checks) == 1 && Level(w7.watermark) < Level(w6.watermark)
    ensures !WindowsShrink(w8)
  {
    var state, w4, w5;
    w2, state := Exported();
    w3, w4 := BothLoad(w2, state);
    w5, w6, w7, w8 := LaterThenEarlier(w4, state);
    UpToExport(w2);
    UpToLoads(w2, w3, w4);
    UpToFirstFinish(w4, w5, w6);
    UpToSecondFinish(w6, w7, w8);
    assert w8.restores[0].window.value < w8.restores[1].window.value;
  }

  lemma OverlapTakesBack()
    ensures Overlapping(OVERLAP, 1) && !WatermarkHolds(OVERLAP) && !WindowsShrink(After(OVERLAP))
  {
    var w2, w3, w6, w7, w8 := OverlapWorlds();
    assert forall n :: 0 <= n < 8 && Loads(OVERLAP[n]) ==> n == 2 || n == 3;
  }

  /** Wherever no check starts with more than `k` under way, no watermark drops and no re-armed window grows. */
  ghost predicate ClockHolds(k: nat) {
    forall events :: Overlapping(events, k) ==> WatermarkHolds(events) && WindowsShrink(After(events))
  }

  /** That is so exactly when no check starts while another is under way. */
  lemma ClockHoldsIff(k: nat)
    ensures ClockHolds(k) <==> k == 0
  {
    if k == 0 {
      forall events | Overlapping(events, 0) ensures WatermarkHolds(events) && WindowsShrink(After(events)) {
        OneByOne(events);
        OneByOneHolds(events);
        InOrderShrinks(events);
      }
    } else {
      OverlapTakesBack();
      assert Overlapping(OVERLAP, k);
    }
  }
}
