/**
 * Read-once over whole runs (protocol/src/self_destruct.rs:225-231 and 532-593): in the modes that erase on read,
 * each live instance yields its plaintext at most once, an erased key never comes back, a message is read at most
 * once more than it is restored, and a staged row is taken at most once (client-store/src/lib.rs:319-367).
 */
module SelfDestructReadOnce {
  import opened Wrappers
  import opened SelfDestruct
  import opened SelfDestructRuns
  import opened SelfDestructTheorems

  // ---------------------------------------------------------------- counting

  function One(b: bool): nat {
    if b then 1 else 0
  }

  predicate Live(x: Instance, c: Ciphertext) {
    x.key.Some? && x.ciphertext == c
  }

  /** How many instances could still open `c`. */
  function LiveCount(xs: seq<Instance>, c: Ciphertext): nat {
    if xs == [] then 0 else LiveCount(xs[..|xs| - 1], c) + One(Live(xs[|xs| - 1], c))
  }

  /** How often `c` was opened. */
  function OpenCount(opens: seq<Opening>, c: Ciphertext): nat {
    if opens == [] then 0 else OpenCount(opens[..|opens| - 1], c) + One(opens[|opens| - 1].ciphertext == c)
  }

  /** How often instance `i` yielded plaintext. */
  function OpensOf(opens: seq<Opening>, i: nat): nat {
    if opens == [] then 0 else OpensOf(opens[..|opens| - 1], i) + One(opens[|opens| - 1].instance == i)
  }

  function RestoreCount(restores: seq<Restoring>, c: Ciphertext): nat {
    if restores == [] then 0
    else RestoreCount(restores[..|restores| - 1], c) + One(restores[|restores| - 1].ciphertext == c)
  }

  lemma {:induction false} OneLess(xs: seq<Instance>, i: nat, x: Instance, c: Ciphertext)
    requires i < |xs|
    ensures LiveCount(xs[i := x], c) + One(Live(xs[i], c)) == LiveCount(xs, c) + One(Live(x, c))
    decreases |xs|
  {
    var n := |xs| - 1;
    if i == n {
      assert xs[i := x][..n] == xs[..n];
    } else {
      OneLess(xs[..n], i, x, c);
      assert xs[i := x][..n] == xs[..n][i := x];
    }
  }

  /** Erasing keys only ever lowers the count. */
  lemma {:induction false} FewerLive(xs: seq<Instance>, ys: seq<Instance>, c: Ciphertext)
    requires |xs| == |ys|
    requires forall i :: 0 <= i < |xs| ==> (Live(ys[i], c) ==> Live(xs[i], c))
    ensures LiveCount(ys, c) <= LiveCount(xs, c)
    decreases |xs|
  {
    if xs != [] {
      FewerLive(xs[..|xs| - 1], ys[..|ys| - 1], c);
    }
  }

  lemma OneMoreLive(xs: seq<Instance>, x: Instance, c: Ciphertext)
    ensures LiveCount(xs + [x], c) == LiveCount(xs, c) + One(Live(x, c))
  {
    assert (xs + [x])[..|xs|] == xs;
  }

  lemma OneMoreOpen(opens: seq<Opening>, o: Opening, c: Ciphertext, i: nat)
    ensures OpenCount(opens + [o], c) == OpenCount(opens, c) + One(o.ciphertext == c)
    ensures OpensOf(opens + [o], i) == OpensOf(opens, i) + One(o.instance == i)
  {
    assert (opens + [o])[..|opens|] == opens;
  }

  lemma OneMoreRestore(restores: seq<Restoring>, r: Restoring, c: Ciphertext)
    ensures RestoreCount(restores + [r], c) == RestoreCount(restores, c) + One(r.ciphertext == c)
  {
    assert (restores + [r])[..|restores|] == restores;
  }

  // ---------------------------------------------------------------- across restarts

  /** Reads so far plus copies still readable, against the sealing and the restores. */
  ghost predicate Accounted(w: World, c: Ciphertext) {
    OpenCount(w.opens, c) + LiveCount(w.instances, c) <= One(c in w.seals) + RestoreCount(w.restores, c)
  }

  ghost predicate ReadOnceMessage(w: World, c: Ciphertext) {
    c in w.seals ==> w.seals[c].mode.ReadTriggered? || w.seals[c].mode.Combined?
  }

  lemma OpenAccounted(w: World, i: nat, c: Ciphertext)
    requires Genuine(w) && i < |w.instances| && ReadOnceMessage(w, c) && Accounted(w, c)
    ensures Accounted(AfterOpen(w, i), c)
  {
    var x := w.instances[i];
    var (r, key) := Opened(x.key, x.ciphertext, x.mode);
    assert CopyOf(w.seals, x.ciphertext, x.key, x.mode, x.expiresAtMs);
    OneLess(w.instances, i, x.(key := key), c);
    if r.Ok? {
      OneMoreOpen(w.opens, Opening(i, x.ciphertext, r.value, w.clock), c, i);
    }
  }

  lemma ExpireAccounted(w: World, i: nat, c: Ciphertext)
    requires i < |w.instances| && Accounted(w, c)
    ensures Accounted(AfterExpire(w, i), c)
  {
    OneLess(w.instances, i, Erased(w.instances[i]), c);
  }

  lemma SealAccounted(w: World, e: Event, c: Ciphertext)
    requires Genuine(w) && e.SealNew? && Accounted(w, c)
    ensures Accounted(AfterSeal(w, e), c)
  {
    if FreshSeed(w, e.seed) {
      var sealed := Boxed(KeyFor(e.seed, e.mode, e.timestampMs, e.window), e.plaintext);
      assert sealed !in w.seals;
      var xs := AfterSeal(w, e).instances;
      OneMoreLive(w.instances, xs[|w.instances|], c);
    }
  }

  lemma RestoreAccounted(w: World, state: PersistedState, nowMs: u64, c: Ciphertext)
    requires Accounted(w, c)
    ensures Accounted(AfterRestore(w, state, nowMs), c)
  {
    var w' := AfterRestore(w, state, nowMs);
    if Remaining(state.expiresAtMs, nowMs).Ok? {
      OneMoreLive(w.instances, w'.instances[|w.instances|], c);
      OneMoreRestore(w.restores, w'.restores[|w.restores|], c);
    }
  }

  lemma TimeAccounted(w: World, e: Event, c: Ciphertext)
    requires e.Restart? || e.Tick?
    requires Accounted(w, c)
    ensures Accounted(Step(w, e), c)
  {
    FewerLive(w.instances, Step(w, e).instances, c);
  }

  lemma QuietAccounted(w: World, e: Event, c: Ciphertext)
    requires e.Export? || e.Stage? || e.Take? || e.Purge? || e.LoadForOpen? || e.LoadForRestore? || e.StoreReading?
    requires Accounted(w, c)
    ensures Accounted(Step(w, e), c)
  {
  }

  lemma FinishAccounted(w: World, p: nat, c: Ciphertext)
    requires Genuine(w) && p < |w.checks| && ReadOnceMessage(w, c) && Accounted(w, c)
    ensures Accounted(AfterFinish(w, p), c)
  {
    var check := w.checks[p];
    var done := w.(checks := w.checks[p := check.(progress := Done)]);
    assert Genuine(done) && Accounted(done, c);
    match check.purpose
    case ForOpen(i) =>
      if i < |w.instances| {
        OpenAccounted(done, i, c);
        ExpireAccounted(done, i, c);
      }
    case ForRestore(state) => RestoreAccounted(done, state, check.nowMs, c);
  }

  lemma StepAccounted(w: World, e: Event, c: Ciphertext)
    requires Genuine(w) && ReadOnceMessage(w, c) && Accounted(w, c)
    ensures Accounted(Step(w, e), c)
  {
    if e.SealNew? {
      SealAccounted(w, e, c);
    } else if e.Open? {
      if e.i < |w.instances| { OpenAccounted(w, e.i, c); }
    } else if e.Finish? {
      if e.p < |w.checks| { FinishAccounted(w, e.p, c); }
    } else if e.Expire? {
      if e.i < |w.instances| { ExpireAccounted(w, e.i, c); }
    } else if e.Restart? || e.Tick? {
      TimeAccounted(w, e, c);
    } else {
      QuietAccounted(w, e, c);
    }
  }

  /** A message that erases on read is read at most once more than it is restored. */
  lemma {:induction false} ReadOnceAcrossRestarts(events: seq<Event>, c: Ciphertext)
    requires var w := After(events); c in w.seals ==> w.seals[c].mode.ReadTriggered? || w.seals[c].mode.Combined?
    ensures var w := After(events);
            OpenCount(w.opens, c) + LiveCount(w.instances, c) <= One(c in w.seals) + RestoreCount(w.restores, c)
    decreases |events|
  {
    if events != [] {
      var before, e := After(events[..|events| - 1]), events[|events| - 1];
      AlwaysGenuine(events[..|events| - 1]);
      if c in before.seals {
        SealsOnlyGrow(before, e, c);
      }
      ReadOnceAcrossRestarts(events[..|events| - 1], c);
      StepAccounted(before, e, c);
    }
  }

  // ---------------------------------------------------------------- one instance

  /** An instance keeps its message and mode for good, and a key once gone stays gone. */
  lemma ErasedStaysErased(w: World, e: Event, i: nat)
    requires i < |w.instances|
    ensures var w' := Step(w, e);
            && i < |w'.instances| && w'.instances[i].ciphertext == w.instances[i].ciphertext
            && w'.instances[i].mode == w.instances[i].mode
            && (w'.instances[i].key == None || w'.instances[i].key == w.instances[i].key)
  {
  }

  lemma ErasedDoesNotOpen(w: World, e: Event, i: nat)
    requires i < |w.instances| && w.instances[i].key.None?
    ensures OpensOf(Step(w, e).opens, i) == OpensOf(w.opens, i)
  {
    var opens := Step(w, e).opens;
    if opens != w.opens {
      OneMoreOpen(w.opens, opens[|w.opens|], opens[|w.opens|].ciphertext, i);
      assert opens == w.opens + [opens[|w.opens|]];
    }
  }

  /** The instance has lost its key, and has yielded `count` times. */
  ghost predicate Dark(w: World, i: nat, count: nat) {
    i < |w.instances| && w.instances[i].key.None? && OpensOf(w.opens, i) == count
  }

  lemma StaysDark(w: World, e: Event, i: nat, count: nat)
    requires Dark(w, i, count)
    ensures Dark(Step(w, e), i, count)
  {
    ErasedStaysErased(w, e, i);
    ErasedDoesNotOpen(w, e, i);
  }

  /** However the run goes on, an instance whose key is gone never opens again. */
  lemma {:induction false} ErasedForGood(events: seq<Event>, more: seq<Event>, i: nat)
    requires i < |After(events).instances| && After(events).instances[i].key.None?
    ensures Dark(After(events + more), i, OpensOf(After(events).opens, i))
    decreases |more|
  {
    if more == [] {
      assert events + more == events;
    } else {
      var n := |more| - 1;
      ErasedForGood(events, more[..n], i);
      assert events + more == (events + more[..n]) + [more[n]];
      Then(events + more[..n], more[n]);
      StaysDark(After(events + more[..n]), more[n], i, OpensOf(After(events).opens, i));
    }
  }

  /** Reads of `i` so far, and whether one is still to come. */
  ghost predicate InstanceAccounted(w: World, i: nat) {
    if i < |w.instances|
    then w.instances[i].mode.ErasesOnRead() ==> OpensOf(w.opens, i) + One(w.instances[i].key.Some?) <= 1
    else OpensOf(w.opens, i) == 0
  }

  lemma OpenInstanceAccounted(w: World, j: nat, i: nat)
    requires j < |w.instances| && InstanceAccounted(w, i)
    ensures InstanceAccounted(AfterOpen(w, j), i)
  {
    var x := w.instances[j];
    var (r, key) := Opened(x.key, x.ciphertext, x.mode);
    if r.Ok? {
      OneMoreOpen(w.opens, Opening(j, x.ciphertext, r.value, w.clock), x.ciphertext, i);
    }
  }

  lemma FinishInstanceAccounted(w: World, p: nat, i: nat)
    requires p < |w.checks| && InstanceAccounted(w, i)
    ensures InstanceAccounted(AfterFinish(w, p), i)
  {
    if w.checks[p].purpose.ForOpen? && w.checks[p].purpose.i < |w.instances| {
      OpenInstanceAccounted(w.(checks := w.checks[p := w.checks[p].(progress := Done)]), w.checks[p].purpose.i, i);
    }
  }

  lemma QuietInstanceAccounted(w: World, e: Event, i: nat)
    requires !e.Open? && !e.Finish? && InstanceAccounted(w, i)
    ensures InstanceAccounted(Step(w, e), i)
  {
  }

  lemma StepInstanceAccounted(w: World, e: Event, i: nat)
    requires InstanceAccounted(w, i)
    ensures InstanceAccounted(Step(w, e), i)
  {
    if e.Open? {
      if e.i < |w.instances| { OpenInstanceAccounted(w, e.i, i); }
    } else if e.Finish? {
      if e.p < |w.checks| { FinishInstanceAccounted(w, e.p, i); }
    } else {
      QuietInstanceAccounted(w, e, i);
    }
  }

  /** However opens, guarded opens, expiry and timers on its clones interleave, an instance yields at most once. */
  lemma {:induction false} YieldsAtMostOnce(events: seq<Event>, i: nat)
    ensures InstanceAccounted(After(events), i)
    ensures var w := After(events);
            i < |w.instances| && (w.instances[i].mode.ReadTriggered? || w.instances[i].mode.Combined?) ==>
              OpensOf(w.opens, i) <= 1
    decreases |events|
  {
    if events != [] {
      YieldsAtMostOnce(events[..|events| - 1], i);
      StepInstanceAccounted(After(events[..|events| - 1]), events[|events| - 1], i);
    }
  }

  // ---------------------------------------------------------------- the holding area

  ghost predicate RowAccounted(w: World, id: string) {
    multiset(w.taken)[id] + One(id in w.rows) <= multiset(w.staged)[id]
  }

  lemma StepRowAccounted(w: World, e: Event, id: string)
    requires RowAccounted(w, id)
    ensures RowAccounted(Step(w, e), id)
  {
  }

  /** Takes of an id never outnumber its stagings, so each staged row is taken at most once. */
  lemma {:induction false} TakenAtMostOnce(events: seq<Event>, id: string)
    ensures var w := After(events); multiset(w.taken)[id] + One(id in w.rows) <= multiset(w.staged)[id]
    decreases |events|
  {
    if events != [] {
      TakenAtMostOnce(events[..|events| - 1], id);
      StepRowAccounted(After(events[..|events| - 1]), events[|events| - 1], id);
    }
  }
}
