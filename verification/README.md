# PARDA protocol model

A Dafny model of the parts of PARDA in which a message can be lost, repeated, read too late or read twice, with
proofs of what the design promises about them and, where a promise does not hold as written, the exact condition
under which it does. `dafny verify dfyconfig.toml` checks everything.

Four groups of modules:

* **Mesh store-and-forward.** `Bundle` and `Relay` are framing and the relay agent's store. `SyncProtocol` is one
  sync session as two identical ends over FIFO links, step by step, with other tasks changing either store between
  steps; `SyncProgress`, `SyncExchange` and `SyncTheorems` prove what sessions do. `SyncWithPeer` is the same code
  as the loop it is, proved to be an execution of that machine. `Flood` puts it against hostile peers. `Network` puts
  any number of agents and sessions under one clock and a changing connectivity graph; `NetworkTheorems`,
  `NetworkExpiry` and `NetworkSpread` prove where bundles come from, when expired ones stop and how far live ones
  get. `Simulation` is the round-based harness, which drives that network under an arbitrary scheduler. `DeadDrop`
  and `Transport` are addressing, the send counter and the receive window; `Delivery` follows a message from a send
  at one agent to a poll at another.
* **Self-destruct.** `SelfDestruct` has the message, its shared key slot and the clock guard; `ClientStore` the
  local store and its holding area; `SelfDestructRuns` whole histories with restarts, time and clock checks that
  overlap, about which `SelfDestructTheorems`, `SelfDestructClock`, `SelfDestructDeadlines` and
  `SelfDestructReadOnce` prove their theorems.
* **Rate limiter and relay queue.** `RateLimiter`, `RateLimiterLimits` and, for clock readings out of order,
  `RateLimiterLateness`; `RelayQueue` and `RelayQueueRuns`.
* **Codecs.** `Hkdf`, `Fingerprint` and `Mixnet`.

Hashing, key derivation, AEAD, HMAC and the Sphinx layer are ideal: digests and derived keys are symbolic and
therefore injective, HMAC is any function with a 32-byte output, an onion layer opens for one key. Clock readings,
random draws, row ids and lengths of encodings are parameters. Integers are unbounded except where the code's width
matters: `u64`, `i64` casts, wrapping and saturating sums and the byte casts of the JVM are written out. Token counts
and instants of the rate limiter are reals.

## What turned out to need a condition

* A carrier can keep a bundle past the deadline its envelope declares: `wrap` counts the lifetime from the
  envelope's timestamp but the expiry from the moment of wrapping. `Bundle.CarrierOutlivesDeadlineIff` says when.
* Holders of an expired bundle can still grow by an admission that read the clock before the expiry and takes the
  lock after it. An expired bundle never gains a holder again in any continuation exactly when no agent has it past
  its expiry check, with session budget left, and could hold it at all (`NetworkExpiry.NeverGainsAgainIff`); it
  never gets a holder it does not have now exactly when no agent outside its holders has it so
  (`NetworkExpiry.HoldersOutgrowIff`). `NetworkTheorems.ExpiredHoldersCanGrow` is a run in which it does.
* The number `sync_with_peer` returns is not a number of insertions: it is the insertions plus the pushes of bundles
  already held (`Flood.CountIsInsertionsPlusHeld`), which no cap limits (`Flood.DuplicatesAreCounted`). The
  insertions themselves are capped (`Flood.FloodBound`).
* With clock readings in order, eviction of idle rate-limiter buckets is invisible exactly when
  `per_second >= 0.001` or the burst is 0, and the rate bound holds exactly when `per_second >= 0.001` or the burst
  is 0 and the rate is not negative (`RateLimiterLimits`). The code reads the clock before it takes the lock, so
  readings can be out of order, and then neither survives a lateness of any size
  (`RateLimiterLateness.EvictionInvisibleWhenLateIff`, `RateLimiterLateness.WithinAllowanceWhenLateIff`). What holds
  in any order is the burst plus the rate times the forward movement of the readings
  (`RateLimiterLateness.ForwardBound`).
* The clock watermark is loaded and stored under two locks. It never goes back, and re-armed windows never grow, in
  all runs exactly when no clock check starts while another is under way (`SelfDestructClock.ClockHoldsIff`); two
  restores that overlap suffice to break both (`SelfDestructClock.OverlapTakesBack`).
* Documentation of `drain` says envelopes come in order of arrival; the query orders by the sender's timestamp.
  The two agree exactly when the timestamps follow arrival (`RelayQueue.ArrivalOrderIff`); two messages whose
  timestamps run backwards come in the other order (`RelayQueue.ArrivalOrderMissed`).
* `purge_expired_self_destructing` compares deadlines as `i64`, `restore` as `u64`. The rows that survive a purge are
  exactly those that restore if and only if every readable row has its deadline on the same side of 2^63 as the
  reading and every unreadable or corrupt row is one the purge takes (`ClientStore.PurgeAgreesWithRestore`). A window
  of `u64::MAX` milliseconds gives a row that is purged while it could be restored (`ClientStore.PurgeDropsLiveRow`),
  a key of the wrong length one that is kept and never restores (`ClientStore.PurgeKeepsCorruptRow`).
* The documentation of `seal` promises a message gone by `timestamp_ms` plus the window. The code records its deadline
  from the wall clock, and `timestamp_ms` only goes into the key derivation. However a run goes on, the promise holds
  exactly when the wall clock at sealing is not ahead of `timestamp_ms`, or the window is empty
  (`SelfDestructDeadlines.DeclaredDeadlineHoldsIff`); a message declared for 500 and sealed at 1000 for 100 ms misses
  it (`SelfDestructDeadlines.DeclaredDeadlineMissed`).
* Sealing neither consults nor advances the watermark. A restored message is gone by its sealing plus its window as
  long as the reading it is restored with has gained at least the true time from the sealing until its timer is armed
  (`SelfDestructDeadlines.GoneByDeadline`); otherwise, also when a good reading has grown old before the timer is
  armed, it can be opened too late (`SelfDestructDeadlines.LateRestoreOpensLate`, with a run in
  `SelfDestructDeadlines.ClockSetBackOutlives`).
* The holding area promises that no row outlives a take. A row with a column of the wrong type does: the query fails,
  the take reports it as absent and leaves it (`ClientStore.LocalMessageStore.TakeSelfDestructing`).
* A pull whose request is dropped between draining and staging loses its envelopes; the model counts them as
  discarded.
* The Android HKDF also fills lengths beyond 255 rounds, with a counter that repeats; up to there it is RFC 5869.

## Model

| member | source | states |
|---|---|---|
| Bundle.UnwrapWrap | mesh/src/bundle.rs:116-165 | Unwrapping a wrapped bundle gives back its address and envelope. |
| Bundle.UnwrapsIff | mesh/src/bundle.rs:155-165 | Unwrapping accepts exactly a decodable bundle under the dead-drop prefix with an envelope in it, and yields those two. |
| Bundle.WrappedExpiry | mesh/src/bundle.rs:120-176 | A wrapped bundle without a deadline expires 604,800,000 ms after its wrapping, one with a deadline after what lies between timestamp and deadline, at once if nothing does. |
| Bundle.CarrierOutlivesDeadlineIff | mesh/src/bundle.rs:116-176 | Exactly when the bundle's own expiry lies after the deadline the envelope declares, and when they coincide. |
| Bundle.CarrierOutlivesDeadlineExample | mesh/src/bundle.rs:120-128 | A message wrapped 5 ms after its timestamp is carried 5 ms too long. |
| Relay.MeshRelayAgent.constructor | mesh/src/relay.rs:145-158 | A new agent holds nothing and is within its caps. |
| Relay.MeshRelayAgent.StoredCount | mesh/src/relay.rs:160-162 | The map's size is the number of distinct byte strings held. |
| Relay.MeshRelayAgent.AdmitOwn | mesh/src/relay.rs:190-192 | A local admission is the checks, then the locked decision without a session budget. |
| Relay.MeshRelayAgent.AdmitChecked | mesh/src/relay.rs:194-233 | Undecodable or expired bundles are refused and change nothing; otherwise held bundles are accepted as they are, a spent budget or a full store refuses, and the rest are added; counter, caps and hash keys stay right. |
| Relay.AdmittedIff | mesh/src/relay.rs:194-233 | A bundle is admitted exactly when it decodes, is under the dead-drop prefix, is unexpired in 64-bit arithmetic, and is held already or fits budget and caps; then it is held, else nothing changes. |
| Relay.AccountedAfterAdmit | mesh/src/relay.rs:205-233 | No admission takes a store over either cap. |
| Relay.AccountedSubset | mesh/src/relay.rs:267-307 | Removing bundles keeps a store within its caps. |
| Relay.TakenByOne | mesh/src/relay.rs:223-231 | Filing a new bundle keeps every key its bytes' hash and adds exactly its length. |
| Relay.FreedByOne | mesh/src/relay.rs:277-283 | Dropping one key frees exactly the bytes it filed, so the counter cannot underflow. |
| Relay.MeshRelayAgent.BundlesForAddresses | mesh/src/relay.rs:241-251 | Exactly the bundles for the addresses, once each. |
| Relay.MeshRelayAgent.TakeForAddresses | mesh/src/relay.rs:267-285 | Returns exactly what the lookup would, removes exactly that and leaves the rest. |
| Relay.MeshRelayAgent.SweepExpired | mesh/src/relay.rs:293-307 | Drops exactly the bundles whose creation time plus lifetime, in 64 bits, is not after the reading. |
| SyncWithPeer.MeshLink.Send | mesh/src/radio/simulated.rs:185-191 | A send goes through, in order, as long as the peer is there, and uses up one of the sends it will take; then it fails. |
| SyncWithPeer.MeshLink.Recv | mesh/src/radio/simulated.rs:192-198 | A receive yields the oldest message, or fails once the queue of a gone peer is empty. |
| SyncWithPeer.ListKeys | mesh/src/relay.rs:324-327 | The `Have` message lists every held hash once. |
| SyncWithPeer.SyncWithPeer | mesh/src/relay.rs:321-380 | Against a peer that sends any messages at any readings and goes away after any number of sends: the loop takes, from its first step to its result, exactly the steps that the state machine of one end takes against that peer; a first message that is no `Have` ends it as out of order, or as undecodable. |
| SyncWithPeer.Negotiate | mesh/src/relay.rs:330-380 | From the peer's `Have` on: what is missing is wanted up to the cap, anything else than a `Have` ends the session out of order. |
| SyncWithPeer.Serve | mesh/src/relay.rs:343-380 | From the peer's `Want` on: what is held of it is sent, then the peer's batch is taken, each step that of the machine against this peer. |
| SyncWithPeer.SendBatch | mesh/src/relay.rs:360-363 | The sending loop and `Done`, as the machine's steps against this peer: it fails exactly at the send the peer no longer takes. |
| SyncWithPeer.ReceiveBatch | mesh/src/relay.rs:365-379 | The receive loop and its shrinking budget, as the machine's steps against this peer, each message at its own reading. |
| SyncWithPeer.AdmitPushed | mesh/src/relay.rs:369-374 | A pushed bundle is filed exactly when its checks at this reading pass and the store under what is left of the budget does not refuse it. |
| SyncProtocol.StepMovesScript | mesh/src/relay.rs:321-380 | A step consumes at most the next message of the peer's script and sends at most the next of its own. |
| SyncProtocol.OrderlyStep | mesh/src/relay.rs:321-380 | What is in flight is exactly the part of a script between the two ends, after every step of either end or of anyone else. |
| SyncProtocol.PeerStillThere | mesh/src/radio/simulated.rs:175-198 | While an end is at work its peer's link is open whenever it needs it. |
| SyncProtocol.ClosedLinkIff | mesh/src/radio/simulated.rs:175-198 | A step fails with a closed link exactly when the peer is gone and the end is about to send or waits with nothing left to receive; nobody steps out of waiting for a peer at work. |
| SyncProtocol.StepMovesBundles | mesh/src/relay.rs:321-380 | A bundle is filed only after its push was screened, pushed only if it was collected, collected only if it was held. |
| SyncProtocol.StepAccounted | mesh/src/relay.rs:194-233 | Every session step keeps a store within its caps, whatever the peer sent. |
| SyncProgress.NeverFails | mesh/src/relay.rs:309-380 | In no run of two honest ends, whatever else happens to the stores, does either reach the out-of-order error or a closed link. |
| SyncProgress.ClosesAfterLastSend | mesh/src/radio/simulated.rs:175-198 | An end returns only after its peer's last send, and nothing sent to it is left behind. |
| SyncProgress.NeverStuck | mesh/src/relay.rs:321-380 | Every reachable unfinished state has an end that can move. |
| SyncProgress.EndStepWorks | mesh/src/relay.rs:321-380 | Every step, also of an end with a hostile peer, lowers the measure. |
| SyncProgress.AlwaysTerminates | mesh/src/relay.rs:321-380 | Every run has at most 22 + 3 × both session caps steps of the two ends. |
| SyncExchange.MissingIsDifference | mesh/src/relay.rs:335-339 | The wanted hashes are exactly the peer's that are not held, once each. |
| SyncExchange.PlanFacts | mesh/src/relay.rs:335-363 | The batch towards an end is new to it, has no repeats and is min(missing, both session caps) long. |
| SyncExchange.NeverRefused | mesh/src/relay.rs:205-233 | With room for the batch, no bundle of an honest peer is refused. |
| SyncExchange.ExchangeMoved | mesh/src/relay.rs:321-380 | Every step keeps each direction of the exchange: agreed batch, messages in flight, what has arrived. |
| SyncExchange.ExchangeInterfered | mesh/src/relay.rs:321-380 | So do bundles other tasks add meanwhile. |
| SyncTheorems.GainOnReturn | mesh/src/relay.rs:321-380 | An end that returns has gained exactly min(missing, both caps) bundles between the two `Have` lists exchanged, which are snapshots of the stores, and counted them all, whatever was added meanwhile. |
| SyncTheorems.ExactGain | mesh/src/relay.rs:321-380 | One undisturbed session gains each end exactly min(missing, own cap, peer's cap) of its peer's bundles and loses none; that is the number returned. |
| SyncTheorems.PullsEverything | mesh/src/relay.rs:321-380 | With caps that cover the peer, a returned end holds everything the peer held at the start. |
| SyncTheorems.StoresOnlyGrow | mesh/src/relay.rs:321-380 | An honest session loses nothing and brings in only what either side owns. |
| SyncTheorems.SyncShrinksMissing | mesh/src/relay.rs:321-380 | A session keeps the union and shrinks what each side misses by min(missing, smaller cap). |
| SyncTheorems.RepeatedSyncs | mesh/src/relay.rs:321-380 | What is missing after n sessions, exactly. |
| SyncTheorems.SyncsReachUnion | mesh/src/relay.rs:321-380 | ⌈missing / smaller cap⌉ sessions leave both stores equal to the union. |
| Flood.StepInserts | mesh/src/relay.rs:194-233 | A session step inserts at most one bundle, charges it to the budget and drops nothing unexpired. |
| Flood.FloodBound | mesh/src/relay.rs:360-380 | Against any message sequences, k sessions insert at most k × `max_bundles_per_session` bundles. |
| Flood.FloodEvictsNothingLive | mesh/src/relay.rs:194-233 | No session step evicts an unexpired bundle, whatever the peers send. |
| Flood.CountIsInsertionsPlusHeld | mesh/src/relay.rs:205-214 | In every session against any peer the count is the insertions plus the admissions of bundles already held, so the two agree exactly when there were none. |
| Flood.DuplicatesAreCounted | mesh/src/relay.rs:205-214 | No cap limits that surplus: a peer that pushes one held bundle k times makes the session return k, for any k, with nothing stored. |
| Network.SoundStep | mesh/src/relay.rs:194-307 | Every event of the N-agent network keeps every store within its caps and every session in order. |
| Network.AlwaysAccounted | mesh/src/relay.rs:194-307 | In every run of the network, count and bytes of every agent stay within its caps. |
| Network.SessionsNeverStuck | mesh/src/relay.rs:321-380 | In every run of the network no session has failed and every unfinished one has a side that can move. |
| Network.ConnectsIff | mesh/src/radio/simulated.rs:160-172 | A session opens exactly between two different devices that are online and not severed, and changes nothing else. |
| Network.Taking | mesh/src/relay.rs:267-285 | The pick-up event is the agent's own method. |
| Network.Sweeping | mesh/src/relay.rs:293-307 | So is the sweep event. |
| Network.Composing | mesh/src/relay.rs:190-233 | So are the check and the store of a composition, which succeed exactly when the bundle is held afterwards. |
| NetworkTheorems.ExpiredNeverSpreads | mesh/src/relay.rs:194-233 | Once a bundle has expired, the agents that hold it or are already past its check never grow; with no admission under way the holders never grow. |
| NetworkTheorems.ExpiredHoldersGrowIff | mesh/src/relay.rs:194-233 | The very next event can bring an expired bundle a holder exactly when an admission past its check would file it as the store stands. |
| NetworkTheorems.ExpiredHoldersCanGrow | mesh/src/relay.rs:194-233 | A three-event run in which it does happen. |
| NetworkExpiry.PendingAtStart | mesh/src/relay.rs:194-204 | Whatever files an expired bundle later had passed the check before it expired. |
| NetworkExpiry.AgentGainsIff | mesh/src/relay.rs:194-233 | In some continuation an agent files an expired bundle exactly when it has it past its check with budget left and could hold it if empty. |
| NetworkExpiry.HoldersOutgrowIff | mesh/src/relay.rs:194-233 | From any point of any run, the holders of an expired bundle can outgrow what they are exactly when an agent outside them has it so. |
| NetworkExpiry.NeverGainsAgainIff | mesh/src/relay.rs:194-233 | No event of any continuation adds a holder exactly when no agent at all has it so. |
| NetworkTheorems.SweepsDropExpired | mesh/src/relay.rs:293-322 | An agent that sweeps or starts a session drops an expired bundle. |
| NetworkTheorems.ServedTraced | mesh/src/relay.rs:321-380 | A session step passes on only what has a history, and extends it by one hop. |
| NetworkTheorems.EveryBundleHasATrail | mesh/src/radio/simulated.rs:160-172 | In every run with links severed, healed and devices switched off, a held bundle got there along links each opened while live, with filing times increasing from the device that composed it. |
| NetworkSpread.HeldIsComposed | mesh/src/relay.rs:194-233 | Only bundles composed in the run are held anywhere. |
| NetworkSpread.StoresKeep | mesh/src/relay.rs:293-307 | While nothing expires and nobody picks up, no store loses anything in any run of the network. |
| NetworkSpread.ProjectedStep | mesh/src/relay.rs:321-380 | Every event of the network is to any one session a step of its own or interference that only adds. |
| NetworkSpread.SessionIsCalm | mesh/src/relay.rs:321-380 | What happens to a link in a network run is a run of the two-ended protocol. |
| NetworkSpread.ReturnedHasPulled | mesh/src/relay.rs:321-380 | In any run, an end that has returned holds everything its peer held when the session was opened, given caps that fit all composed bundles, none expiring, no pick-ups. |
| NetworkSpread.RoundPulls | mesh/src/transport.rs:57-70 | After a round, an agent has all that any agent it could reach throughout held before. |
| NetworkSpread.SpreadsInRounds | mesh/src/sim.rs:92-106 | After d rounds, on a graph that may change all the while, everything an agent held is held by every agent within d hops, each hop live throughout its round. |
| NetworkSpread.SpreadsByHops | mesh/src/sim.rs:92-106 | On a fixed graph, for any number of agents: after d rounds every agent within d live hops of a holder holds the bundle. |
| Simulation.SimNetwork.Register | mesh/src/radio/simulated.rs:114-131 | A new device gets the next index and is online. |
| Simulation.SimNetwork.Sever | mesh/src/radio/simulated.rs:142-145 | Cuts one link, the unordered pair of the two devices, and no other. |
| Simulation.SimNetwork.Heal | mesh/src/radio/simulated.rs:147-150 | Restores one link if both devices are online. |
| Simulation.SimNetwork.SetOnline | mesh/src/radio/simulated.rs:154-158 | Takes a device's links down, or brings back exactly those to online devices that are not severed; links between others stay as they are. |
| Simulation.SimNetwork.Reachable | mesh/src/radio/simulated.rs:160-172 | Symmetric, never with itself, both online and not severed. |
| Simulation.SimNetwork.Scan | mesh/src/radio/simulated.rs:228-267 | Sights every device with a live link, once, and nobody else. |
| Simulation.SessionPulls | mesh/src/transport.rs:57-70 | What one session of the harness brings, from the protocol's guarantee over the network run. |
| Simulation.SimHarness.constructor | mesh/src/sim.rs:45-64 | N empty nodes, every pair with a live link, the clock at 0. |
| Simulation.SimHarness.AdmitOwn | mesh/src/relay.rs:190-192 | A node composes a bundle: its checks, then its store; the clock stands still. |
| Simulation.SimHarness.Sever | mesh/src/sim.rs:76-78 | Cuts the link between the two nodes, in both directions, and no other. |
| Simulation.SimHarness.Heal | mesh/src/sim.rs:80-82 | Restores that link if both are online, and changes no other. |
| Simulation.SimHarness.SetOnline | mesh/src/sim.rs:84-86 | The node's device is on or off, the others as they were. |
| Simulation.SimHarness.Schedule | mesh/src/transport.rs:57-105 | Any end of any link takes one step of the protocol at any time before the horizon, and less is left to do. |
| Simulation.SimHarness.SyncLink | mesh/src/transport.rs:57-70 | Connecting and letting an arbitrary scheduler run until the connecting end returns brings it all its peer held. |
| Simulation.SimHarness.SyncOnce | mesh/src/transport.rs:57-70 | A node that syncs once holds everything its live neighbours held, given caps that fit all composed bundles and none expiring. |
| Simulation.SimHarness.RunSyncRound | mesh/src/sim.rs:92-100 | After a round every node holds what each of its live neighbours held before it, sessions of the round overlapping in any way. |
| Simulation.SimHarness.RunSyncRounds | mesh/src/sim.rs:102-106 | After d rounds every node within d live hops of a holder holds the bundle, for any N and any schedule, given those caps and no expiry; nothing is lost and nothing is held that was never composed. |
| Simulation.AlongTheLine | mesh/src/sim.rs:45-106 | The harness put to use: of three nodes with the outer link cut, the last holds after two rounds what the first composed. |
| Simulation.OneMoreHop | mesh/src/sim.rs:92-106 | One more round reaches one more hop. |
| DeadDrop.AddressWindow | protocol/src/dead_drop.rs:99-103 | Exactly the addresses of the `window` indices from the start on, in order, short of the last 64-bit index. |
| DeadDrop.BuildPollSet | protocol/src/dead_drop.rs:124-133 | Every window address and every decoy, with multiplicity, in some order; so every index below start plus window is polled. |
| Transport.MeshTransport.constructor | mesh/src/transport.rs:150-163 | Nothing sent, nothing claimed, watermark 0. |
| Transport.MeshTransport.NextSendAddress | mesh/src/transport.rs:182-190 | The address of the current index, which asking does not use up. |
| Transport.MeshTransport.Send | mesh/src/transport.rs:207-234 | Fails closed on an envelope that is not sealed or names a sender or recipient; any addressed other is sent exactly when the relay's checks and caps take its bundle, and only that files the bundle and moves the counter. |
| Transport.SentIff | mesh/src/transport.rs:207-234 | When a send succeeds, in the fields of the envelope, the expiry of its bundle and the caps of the relay; with a sender, a recipient or no sealing it never does. |
| Transport.NextIndex | mesh/src/transport.rs:192-194 | The counter moves by one, wrapping at 64 bits. |
| Transport.OrdinaryIsSent | mesh/src/bundle.rs:125-128 | With room, a sealed and addressed message without a deadline is sent exactly until seven days after its wrapping. |
| Transport.MeshTransport.SendNext | mesh/src/transport.rs:182-234 | The next address, put into the envelope, and the send: accepted exactly when the relay takes that bundle, and then filed under that index. |
| Transport.MeshTransport.SendAll | mesh/src/transport.rs:182-234 | Over any attempts, the relay ends up with exactly the bundles of the accepted ones, and these use consecutive indices, without gap or repeat, however many are refused in between. |
| Transport.ReplayFiles | mesh/src/transport.rs:207-234 | Every index used has the bundle of a sealed attempt in the relay. |
| Transport.ConsecutiveFromZero | mesh/src/transport.rs:182-194 | From a fresh transport those indices are 0, 1, 2, … |
| Transport.MeshTransport.Receive | mesh/src/transport.rs:245-293 | One poll returns and claims exactly the well-formed bundles held under the tag at indices from the watermark up to, but not including, watermark plus window, whatever the decoys; takes only window or decoy bundles; and leaves the watermark at the least index never claimed, past every stretch of the window that was all there. |
| Transport.IndexOfIff | mesh/src/transport.rs:257-278 | A taken bundle claims an index exactly when it carries an envelope under that index's address and the index is less than `window` past the start. |
| Transport.MeshTransport.ClaimAll | mesh/src/transport.rs:280-291 | The indices ever claimed are exactly those below the watermark and those held ahead of it, strictly inside the window. |
| Transport.MeshTransport.AdvanceWatermark | mesh/src/transport.rs:284-290 | The watermark passes exactly the contiguous claimed run and never goes back. |
| Transport.OpenTaken | mesh/src/transport.rs:262-278 | Every taken bundle that decodes to a window address is returned and claimed; decoy hits and junk are dropped. |
| Transport.OpenedFromWindow | mesh/src/transport.rs:264-278 | Nothing is returned but bundles that claim an index of the polled window, so none below the watermark. |
| Transport.WatermarkReaches | mesh/src/transport.rs:284-290 | An unclaimed watermark is not below an index up to which everything was there. |
| Delivery.ComposedIsStored | mesh/src/relay.rs:194-233 | In a run that keeps within caps and expiry no composition is refused, and its bundle is held. |
| Delivery.ComposedAsSent | mesh/src/transport.rs:207-234 | A composition in the run of the mesh does to the agent's store what a send under that index does. |
| Delivery.DeliveredInRounds | mesh/src/transport.rs:207-293 | End to end: what is sent at one agent is, d rounds later, returned by a poll at any agent within d hops on a changing graph, whatever the decoys, when the window covers its index; given caps and expiry that allow for all composed bundles and no other pick-ups. |
| Delivery.OpenedWasComposed | mesh/src/transport.rs:245-293 | In any run, without conditions, a poll returns only envelopes composed by some agent under an index of the window. |
| Delivery.DeliveredExactly | mesh/src/transport.rs:207-293 | With all compositions before the first round and every agent within d hops, a poll d rounds later returns an envelope exactly when it was composed under an index of the window. |
| Delivery.ReceiveAfterRounds | mesh/src/transport.rs:245-293 | The receiving transport itself, polling with its own watermark and decoys, returns the message and claims its index. |
| SelfDestruct.CheckClockIntegrity | protocol/src/clock_guard.rs:98-109 | Uninterrupted: a reading is a rollback exactly when it lies behind the watermark, and is reported and leaves it; any other becomes the watermark. For interleaved checks see `SelfDestructClock`. |
| SelfDestruct.SelfDestructingMessage.Seal | protocol/src/self_destruct.rs:404-493 | A key of its own bound to mode, timestamp and window, and the deadline recorded for restarts: none if read-triggered, else wall clock plus window. |
| SelfDestruct.SelfDestructingMessage.Clone | protocol/src/self_destruct.rs:235-246 | Clones share the key slot. |
| SelfDestruct.SelfDestructingMessage.ExpireNow | protocol/src/self_destruct.rs:504-509 | The key is gone. |
| SelfDestruct.SelfDestructingMessage.Open | protocol/src/self_destruct.rs:532-567 | Yields the plaintext exactly under the live key that sealed it; then the key is gone if the mode is read-triggered or combined, and stays if it is time-bound; every failure leaves it alone. |
| SelfDestruct.SelfDestructingMessage.OpenWithClockGuard | protocol/src/self_destruct.rs:576-593 | A rollback erases the key for good and reports both readings; otherwise it is an open. |
| SelfDestruct.SelfDestructingMessage.ExportForPersistence | protocol/src/self_destruct.rs:607-616 | A full copy while the key lives, an error afterwards; the live message keeps its key. |
| SelfDestruct.Restore | protocol/src/self_destruct.rs:642-684 | Refuses exactly a reading behind the watermark, then exactly a deadline that has been reached; else a message with its own slot and a timer for what the deadline left. |
| SelfDestruct.FirstRearmFitsIff | protocol/src/self_destruct.rs:486-502 | The first restore re-arms at most the sealed window exactly when its reading is not behind the wall clock at sealing. |
| SelfDestructRuns.RestartForgets | protocol/src/self_destruct.rs:596-616 | A restart loses every key and every state in memory and keeps the holding area and the watermark. |
| SelfDestructRuns.TimeErases | protocol/src/self_destruct.rs:495-502 | Time erases exactly the keys whose timers have run down. |
| SelfDestructRuns.LoadRejects | protocol/src/clock_guard.rs:98-109 | A check is rejected exactly when its reading is behind the watermark. |
| SelfDestructRuns.RollbackErases | protocol/src/self_destruct.rs:576-593 | A guarded open whose check was rejected erases that key, yields nothing and touches no other. |
| SelfDestructRuns.PerformOnRows | client-store/src/lib.rs:283-387 | The events on the holding area are the store's own methods. |
| SelfDestructRuns.PerformOnMessage | protocol/src/self_destruct.rs:504-616 | The open, expire and export events are the message's own methods. |
| SelfDestructRuns.PerformGuardedOpen | protocol/src/self_destruct.rs:576-593 | A guarded open with nothing in between its three events is the message's own method. |
| SelfDestructRuns.PerformRestore | protocol/src/self_destruct.rs:642-684 | So is a restore, whose message is the instance the run gains. |
| ClientStore.LocalMessageStore.StoreMessage | client-store/src/lib.rs:180-204 | History refuses every self-destructing envelope and stores any other as it is. |
| ClientStore.LocalMessageStore.StageSelfDestructing | client-store/src/lib.rs:283-307 | Adds one row with the state's ciphertext, key, deadline and the name of its mode under a fresh id and touches no other. |
| ClientStore.LocalMessageStore.TakeSelfDestructing | client-store/src/lib.rs:319-367 | The row is gone afterwards also when its mode or key is corrupt and an error is returned; a row the query cannot read is reported as absent and stays. |
| ClientStore.LocalMessageStore.PurgeExpiredSelfDestructing | client-store/src/lib.rs:379-387 | Deletes exactly the rows with a deadline at or before the reading, compared as signed numbers, and counts them. |
| ClientStore.ModeRoundTrip | client-store/src/lib.rs:479-494 | A string parses to a mode exactly when it is that mode's string. |
| ClientStore.RowRoundTrip | client-store/src/lib.rs:283-367 | What is taken is what was staged, through the signed deadline column. |
| ClientStore.PurgeMatchesRestoreIff | client-store/src/lib.rs:369-387 | For any row, the purge takes it exactly when restore would refuse it as expired, if and only if a readable row has deadline and reading on the same side of 2^63 and a corrupt one is not purged. |
| ClientStore.AgreesOnRowIff | client-store/src/lib.rs:369-387 | For any row, it survives the purge exactly when it restores, if and only if it is readable with both times on the same side of 2^63, or corrupt and purged. |
| ClientStore.PurgeAgreesWithRestore | protocol/src/self_destruct.rs:658-684 | On any holding area, corrupt rows included, the survivors of a purge are exactly the rows that restore if and only if that condition holds of every row. |
| ClientStore.PurgeDropsLiveRow | client-store/src/lib.rs:379-387 | A row that is purged although it could be restored. |
| ClientStore.PurgeKeepsCorruptRow | client-store/src/lib.rs:379-387 | A row with a key of the wrong length that the purge keeps and nothing restores. |
| SelfDestructTheorems.StepStaysGenuine | protocol/src/self_destruct.rs:607-684 | Every operation keeps each copy's key, mode and deadline those of its sealing. |
| SelfDestructTheorems.AlwaysGenuine | protocol/src/self_destruct.rs:486-684 | Through any chain of export, stage, take, restore and restart, clock checks overlapping or not, the deadline is fixed, only the sealed plaintext is read, and re-armed windows are what the deadline left. |
| SelfDestructClock.WatermarkDropsIff | protocol/src/clock_guard.rs:98-109 | A step takes the watermark back exactly when it is the store of a check that a larger reading has overtaken since its load. |
| SelfDestructClock.LongerIffSmallerReading | protocol/src/self_destruct.rs:658-684 | Of two restores of one message one arms the longer timer exactly when its reading is smaller. |
| SelfDestructClock.OneByOne | protocol/src/self_destruct.rs:642-684 | With one check at a time, accepted readings never decrease over a run. |
| SelfDestructClock.OverlapTakesBack | protocol/src/clock_guard.rs:72-109 | A run of two overlapping restores in which the watermark goes back and the later timer is the longer one. |
| SelfDestructClock.ClockHoldsIff | protocol/src/clock_guard.rs:98-109 | In all runs where no check starts with more than k under way, the watermark never drops and re-armed windows never grow, if and only if k is 0. |
| SelfDestructDeadlines.RearmedInTimeIff | protocol/src/self_destruct.rs:658-684 | A re-armed timer ends by sealing plus window exactly when its reading has gained at least the true time from the sealing until it is armed, less what `u64` cut off the recorded deadline. |
| SelfDestructDeadlines.StepIsTimed | protocol/src/self_destruct.rs:495-502 | Every live key with a deadline has a timer still to fire, and in time, after every step. |
| SelfDestructDeadlines.GoneByDeadline | protocol/src/self_destruct.rs:486-684 | With punctual restores no open, in any run, succeeds at or after sealing plus window. |
| SelfDestructDeadlines.LateRestoreOpensLate | protocol/src/self_destruct.rs:642-684 | After any restore that is not punctual, cut-off deadlines included, some continuation opens the message too late. |
| SelfDestructDeadlines.ClockSetBackOutlives | protocol/src/self_destruct.rs:486-493 | A run in which a clock set back across a restart makes that happen, unnoticed by the watermark. |
| SelfDestructDeadlines.DeclaredKept | protocol/src/self_destruct.rs:401-493 | Sealed at a wall clock not ahead of its timestamp, or without a window, a message opens only before timestamp plus window, in every punctual continuation. |
| SelfDestructDeadlines.DeclaredMissed | protocol/src/self_destruct.rs:401-493 | Otherwise, after any run, waiting and opening misses it. |
| SelfDestructDeadlines.DeclaredDeadlineHoldsIff | protocol/src/self_destruct.rs:401-493 | The documented "gone by `timestamp_ms` plus the window" holds in all punctual continuations exactly when the wall clock at sealing is not ahead of the timestamp or the window is empty. |
| SelfDestructDeadlines.DeclaredDeadlineMissed | protocol/src/self_destruct.rs:401-414 | A sealing for which it fails. |
| SelfDestructReadOnce.OpenAccounted | protocol/src/self_destruct.rs:532-567 | A successful open of a read-triggered or combined message uses up one live copy. |
| SelfDestructReadOnce.ReadOnceAcrossRestarts | protocol/src/self_destruct.rs:532-684 | Over any run, reads of a read-triggered or combined message plus copies still readable are at most one more than its restores. |
| SelfDestructReadOnce.ErasedStaysErased | protocol/src/self_destruct.rs:225-231 | No step brings an erased key back or changes what an instance is. |
| SelfDestructReadOnce.ErasedForGood | protocol/src/self_destruct.rs:532-567 | However a run goes on, an instance whose key is gone never opens again. |
| SelfDestructReadOnce.YieldsAtMostOnce | protocol/src/self_destruct.rs:532-593 | Under any interleaving of opens, guarded opens, expiry and timers on its clones, a read-triggered or combined instance yields its plaintext at most once. |
| SelfDestructReadOnce.TakenAtMostOnce | client-store/src/lib.rs:319-367 | Takes of an id never outnumber its stagings. |
| RateLimiter.Limiter.TryAcquire | gateway/src/auth.rs:242-271 | Decides and updates as the specified bucket step does, eviction first. |
| RateLimiter.GrantedIff | gateway/src/auth.rs:242-271 | A request is granted exactly when its key's bucket, refilled for the time since and capped, or a full one in its place, has a whole token, and takes that token. |
| RateLimiter.OthersKept | gateway/src/auth.rs:247-254 | Another key's bucket is dropped exactly when there are more than 10,000 and it has been idle long enough to fill, and is otherwise untouched. |
| RateLimiter.KeyIsValid | gateway/src/auth.rs:131-141 | Without an early exit, true exactly for the configured keys. |
| RateLimiter.IdleBucketIsFull | gateway/src/auth.rs:247-254 | A bucket that is evicted would have refilled completely. |
| RateLimiter.SpendAlike | gateway/src/auth.rs:256-271 | Two maps no key can tell apart decide alike and stay so. |
| RateLimiter.EvictionIsInvisible | gateway/src/auth.rs:242-271 | On every in-order request sequence over any keys, the evicting limiter decides as one that never evicts. |
| RateLimiter.KeyStep | gateway/src/auth.rs:256-271 | Grants since a moment plus tokens left never exceed the burst plus the refill since then. |
| RateLimiter.KeptRateBound | gateway/src/auth.rs:222-271 | On readings in order and without eviction, grants to a key in [s, t] number at most capacity + per_second × (t − s). |
| RateLimiter.RateBound | gateway/src/auth.rs:222-271 | The same with eviction included; for readings out of order see `RateLimiterLateness`. |
| RateLimiterLimits.ComebackRun | gateway/src/auth.rs:247-254 | With too slow a refill, a key that waits for its eviction is granted a second full burst. |
| RateLimiterLimits.SlowRefillShows | gateway/src/auth.rs:247-254 | For every setting with `per_second` below 0.001 and a burst, a run on which eviction changes a decision. |
| RateLimiterLimits.EvictionInvisibleIff | gateway/src/auth.rs:242-271 | Eviction is invisible in all in-order runs exactly when `per_second >= 0.001` or the burst is 0. |
| RateLimiterLimits.WithinAllowanceIff | gateway/src/auth.rs:222-271 | The rate bound holds in all in-order runs exactly when `per_second >= 0.001`, or the burst is 0 and the rate not negative. |
| RateLimiterLimits.LateLockRefillsTwice | gateway/src/auth.rs:243-266 | A run of three requests with clock readings out of order that exceeds the bound. |
| RateLimiterLateness.EvictionKeepsLevel | gateway/src/auth.rs:247-254 | In any order, eviction changes no level at the reading it uses. |
| RateLimiterLateness.SpendMoves | gateway/src/auth.rs:256-271 | A request moves a token from its key's level to its grants and touches no other level. |
| RateLimiterLateness.ForwardBound | gateway/src/auth.rs:242-271 | In any order: of any stretch of requests, grants to a key number at most capacity + per_second × the forward movement of the readings. |
| RateLimiterLateness.ForwardInOrder | gateway/src/auth.rs:242-271 | On readings in order that movement is the time from the first to the last. |
| RateLimiterLateness.AnyLatenessExceeds | gateway/src/auth.rs:243-266 | For every burst, positive rate and positive lateness there is a run no later than that in which the bound over intervals fails. |
| RateLimiterLateness.WithinAllowanceWhenLateIff | gateway/src/auth.rs:242-271 | The bound holds in all runs late by at most d exactly when the burst is 0 and the rate not negative, or `per_second >= 0.001` and d is 0. |
| RateLimiterLateness.AnyLatenessShowsEviction | gateway/src/auth.rs:243-254 | For every burst, fast enough rate and positive lateness there is a run no later than that in which eviction changes a decision. |
| RateLimiterLateness.EvictionInvisibleWhenLateIff | gateway/src/auth.rs:242-271 | Eviction is invisible in all runs late by at most d exactly when the burst is 0, or `per_second >= 0.001` and d is 0. |
| RelayQueue.RelayStore.Enqueue | server/src/store.rs:268-282 | Appends one row dated by the sender's timestamp; fails exactly on an id already queued, which leaves the store unusable, or on such a store. |
| RelayQueue.RelayStore.Drain | server/src/store.rs:286-311 | Returns exactly the user's rows in the order of their timestamps and leaves exactly the other rows, in their order. |
| RelayQueue.RelayStore.StageDrained | server/src/store.rs:323-348 | Keeps exactly the stages of other tokens that are at most 300,000 ms old, and stages under the token. |
| RelayQueue.RelayStore.StagePull | server/src/store.rs:323-348 | With nothing in between, what a drain would have returned is staged under the token and gone from the queue; other tokens keep what the sweep leaves them, and a poisoned store changes nothing. |
| RelayQueue.RelayStore.FetchPull | server/src/store.rs:355-377 | Returns what the token has staged and clears that token's stage and no other. |
| RelayQueue.RelayStore.DeleteMessage | server/src/store.rs:380-396 | Deletes exactly the rows with both that id and that recipient, keeps the others in order, and says whether there was one. |
| RelayQueue.RowsSelected | server/src/store.rs:286-396 | A query selects every row that satisfies it and no other, in table order. |
| RelayQueue.PendingDelivers | server/src/store.rs:286-311 | What a drain hands over is a time-ordered arrangement of exactly the rows addressed to the user. |
| RelayQueue.DrainOrder | server/src/store.rs:294-311 | A drain is a permutation of the user's rows ordered by the senders' timestamps. |
| RelayQueue.DrainIsolates | server/src/store.rs:286-311 | A drain returns exactly what is queued for that user and nothing of anybody else's. |
| RelayQueue.ArrivalOrderIff | server/src/store.rs:284-298 | It is in order of arrival exactly when the timestamps are. |
| RelayQueue.ArrivalOrderMissed | server/src/store.rs:284-298 | A message sent earlier but arriving later is delivered first. |
| RelayQueue.SweptIff | server/src/store.rs:331-335 | A stage is swept exactly when the staging period has passed, if and only if both times are on the same side of 2^63. |
| RelayQueueRuns.DrainedIsQueued | server/src/store.rs:286-311 | A drain hands over exactly what was queued for the user. |
| RelayQueueRuns.UpsertStaysUnique | server/src/store.rs:336-344 | A token never has two stages. |
| RelayQueueRuns.StageEndConserves | server/src/store.rs:323-348 | The second half of a staging accounts for all it sweeps, overwrites and stages. |
| RelayQueueRuns.FetchConserves | server/src/store.rs:355-377 | All that a fetch clears is what it returns. |
| RelayQueueRuns.AlwaysConserved | server/src/store.rs:268-396 | Over any interleaving, halves of stagings included, every enqueued envelope is queued, in flight, staged, returned, deleted or discarded, in exactly one way. |
| RelayQueueRuns.NeverReturnedTwice | server/src/store.rs:286-377 | No envelope is returned more often than it was enqueued. |
| RelayQueueRuns.FetchIsForWhoAsked | server/src/store.rs:323-377 | Whatever the interleaving, a token fetches only envelopes enqueued for a recipient whose pull named that token. |
| RelayQueueRuns.Perform | server/src/store.rs:268-396 | Every event of these runs is what the store's own method does. |
| Hkdf.HkdfSha256 | mobile/android/app/src/main/kotlin/com/parda/app/SignalPlugin.kt:366-387 | The loop fills any length with the expansion blocks, and for up to 255 × 32 bytes with exactly the output of sections 2.2 and 2.3 of RFC 5869. |
| Hkdf.DerivedBytes | mobile/android/app/src/main/kotlin/com/parda/app/SignalPlugin.kt:366-387 | Up to 64 bytes, the output written out as nested HMAC calls. |
| Hkdf.NextBlock | mobile/android/app/src/main/kotlin/com/parda/app/SignalPlugin.kt:376-381 | One round over signed bytes is one HMAC over the previous block, the info and the counter octet. |
| Hkdf.BlocksAreT | mobile/android/app/src/main/kotlin/com/parda/app/SignalPlugin.kt:374-386 | The truncated counter is the octet of RFC 5869 up to 255 rounds. |
| Fingerprint.Compute | protocol/src/trust.rs:69-92 | The HKDF output over the two keys in lexicographic order. |
| Fingerprint.FirstDifference | protocol/src/trust.rs:72-82 | Keys are ordered by the unsigned bytes at which they first differ; a prefix comes first. |
| Fingerprint.FingerprintBytes | protocol/src/trust.rs:51-92 | The fingerprint written out: context, order of the keys and both HKDF rounds. |
| Fingerprint.CompareUnsigned | mobile/android/app/src/main/kotlin/com/parda/app/SignalPlugin.kt:356-363 | Its sign is the lexicographic order of the unsigned bytes, and 0 means equal. |
| Fingerprint.FingerprintDigits | mobile/android/app/src/main/kotlin/com/parda/app/SignalPlugin.kt:335-354 | The plugin's digits are the Rust digits of the Rust fingerprint, for every pair of keys. |
| Fingerprint.GroupOf | mobile/android/app/src/main/kotlin/com/parda/app/SignalPlugin.kt:347-353 | The signed accumulation is the big-endian fold over unsigned bytes. |
| Fingerprint.ComputeIsSymmetric | protocol/src/trust.rs:58-84 | Which key is local makes no difference. |
| Fingerprint.IkmIdentifiesPair | protocol/src/trust.rs:72-82 | For keys of one length the hashed input identifies the unordered pair. |
| Fingerprint.FiveDigitsReadBack | protocol/src/trust.rs:105-118 | Each group is the five-digit decimal of its value, leading zeros included. |
| Fingerprint.ShownDigits | protocol/src/trust.rs:105-118 | Of a 60-byte fingerprint 71 characters are shown: the g-th five of them read back as the g-th five bytes modulo 100000, with spaces between. |
| Fingerprint.InMemoryTrustStore.RecordVerified | protocol/src/trust.rs:188-190 | Sets one peer's fingerprint and no other. |
| Fingerprint.InMemoryTrustStore.ForgetVerification | protocol/src/trust.rs:192-194 | Clears one peer and no other. |
| Fingerprint.InMemoryTrustStore.LevelOf | protocol/src/trust.rs:198-203 | Verified exactly when a fingerprint is on file. |
| Fingerprint.InMemoryTrustStore.CheckIdentity | protocol/src/trust.rs:216-236 | Passes exactly when nothing is on file or the pair of keys has the verified fingerprint, from either side; else reports both displays. |
| Mixnet.EncodeFixed | protocol/src/mixnet.rs:147-159 | Fails exactly when the bytes do not fit beside their length byte; else length byte, bytes, zeros. |
| Mixnet.DecodesBackIff | protocol/src/mixnet.rs:147-169 | A token decodes to what was encoded exactly when the length fits its byte. |
| Mixnet.BuildPacketTo | protocol/src/mixnet.rs:271-297 | Builds exactly for paths of at least 3 nodes, addresses and tag of at most 31 bytes, and what Sphinx accepts. |
| Mixnet.TagLetters | protocol/src/mixnet.rs:87-98 | The three destination tags. |
| Mixnet.ForwardsIff | protocol/src/mixnet.rs:326-345 | A node forwards exactly a layer under its own key whose next address is a 32-byte token of valid text. |
| Mixnet.EndsIff | protocol/src/mixnet.rs:346-371 | It delivers, or takes a pull request from, exactly an intact payload under the tag that says so, and drops cover traffic unread. |
| Mixnet.TravelsPath | protocol/src/mixnet.rs:326-371 | From any node of the path on, the packet travels the rest of it. |
| Mixnet.DeliversAlongPath | protocol/src/mixnet.rs:271-371 | Unwrapped in path order, a packet is forwarded through exactly path[1..] with its delays and ends in the one outcome its tag names, payload unchanged; any other tag ends in an error. |
| Mixnet.OnlyItsNodeUnwraps | protocol/src/mixnet.rs:326-336 | A well-formed packet unwraps for the first node of its path and for no other. |

## Left out

- Simulation.SimHarness.RunSyncRound: the sum of admitted counts it returns is not modelled; what each session returns is (`SyncTheorems.ExactGain`, `Flood.CountIsInsertionsPlusHeld`).
- Bundle.CarrierOutlivesDeadlineIff: takes the sum of creation time and lifetime to wrap around, as in a release build; a build with overflow checks panics there.
- Transport.MeshTransport.Receive: calls on one transport are taken one after another; two that overlap are not modelled.
- SelfDestructReadOnce.TakenAtMostOnce: counts takes against stagings; rows removed by a purge are not counted separately.
- SelfDestructTheorems.AlwaysGenuine: assumes that sealing seeds never repeat and that nobody edits the holding area from outside.
- RateLimiter.Limiter.TryAcquire: uses reals, so rounding of `f64` is not modelled.
- RelayQueue.RelayStore.Drain: rows with equal timestamps keep their order of arrival, which the query leaves to the database.
- Fingerprint.FingerprintDigits: takes the formatted digits to be ASCII, as in the locales that use them.
- Mixnet.BuildPacketTo: the Sphinx crate's limits on hops and payload are parameters; its cryptography is ideal.
- Head-of-line stalling: when an index never arrives the receive window never moves on, and no progress is claimed.
- Fractions of a millisecond in self-destruct windows, and timers that fire late because the scheduler is busy.
- Memory locking, zeroizing and constant-time comparison, which are about process memory and timing.
- Statistical anonymity, decoy indistinguishability and randomness of tokens, which are not deductive properties.
- CBOR, JSON and SQL text, SQLCipher, migrations and crash recovery: framing is symbolic, tables are maps or row sequences, each locked block is one step.
- HTTP routing, TLS, JNI, Bluetooth and the user interfaces: plumbing around the modelled core.
- libsignal sessions, sealed-sender certificates and prekey bundles: cryptography or one-branch facts.
- Directory choice of mix paths, cover-traffic scheduling and the sampling of delays, which are random.
