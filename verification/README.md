# briihass: a verified model

briihass turns Bluetooth sightings reported by access points (APs) into Home Assistant presence. This project models
its core in Dafny and proves what that core promises over every input, every run and every interleaving. Check it with
`dafny verify dfyconfig.toml`.

## What is modelled

**Presence engine.** `Presence.dfy` says on values what a sighting, a tick, a new topology, a re-publication and a warm
boot do to one beacon. `EngineSpec.dfy` lifts that to the whole engine as a transition relation `Next` over all beacons
at once, with events in whatever order the beacon map was walked; a trace of the engine projects onto a run of each
beacon. `PresenceEngine.dfy` and `BeaconStates.dfy` are the mutable classes of the source: every entry point updates its
records in place and is proved to be a move of that relation that keeps the engine valid. What single steps do, case by
case, is in `PresenceRules` and, for whole calls, in `EngineCalls`. What holds over whole runs is proved for one beacon
in `PresenceRuns`, `PresenceTicks`, `PresenceHysteresis` and `PresenceReadings`, and for traces of the whole engine in
`EngineRuns`, `EngineSignals` and `EngineTicks`; `PresenceWitnesses` holds concrete runs.

Go walks its maps in no fixed order. Loops over a map pick keys arbitrarily, and what the two scans of a beacon's AP map
answered is part of a step (a `Look`), constrained rather than computed; `ScanIsOrderIndependent` shows what does not
depend on the order. Decibels and seconds are reals, the clock is an argument that never goes back in a trace, and a
zero time is `None`. Each engine call is one atomic step, since the source holds its mutex throughout.

**Drop-oldest queue and batch writers.** `DropQueue.dfy` is the three-step send protocol shared by the MQTT publisher
and both database writers, as a state machine with any number of producers and one consumer: each channel operation,
counter increment and hook call is a step of its own. `BatchWriter.dfy` adds the consumer's batches, inserts and
shutdown drain, for any row type.

**Discovery tracker.** `Discovery.dfy` and `MqttPublisher.dfy` hold the publisher's four maps against the broker's retained
messages, with real topic strings and any discovery prefix; `DiscoveryTopics.dfy` says what the state and telemetry
topics hold over whole runs, and `PublishedState.dfy` carries that from the engine's trace to the broker.

**Advertisements and identity.** `AdFormat.dfy`, `Advert.dfy`, `AdvertFields.dfy` and `AdvertIdentity.dfy` model the
three walkers over the advertising data format of the Bluetooth Core Specification (Vol 3 Part C section 11), say what
each field of a decoded advertisement holds in terms of all its records, and follow the bytes to beacon keys and entity
ids (`Identity.dfy`). `AdvertFrames.dfy` holds encoders of the iBeacon and Eddystone frames and their round trips, and
`AdvertErrors.dfy` says where records stand and what each walker's errors mean. The legacy filter stops at the first record with the iBeacon signature and the full parser keeps
the last complete one, so they can name different iBeacons (`FilterCanDiffer`); `FilterAgreesExactlyWhen` says when they
agree. `Tunables.dfy` and `Topology.dfy` are the validated configuration.

## Where the source and its documentation disagree

- ADR-0006 and the tuning runbook say a zone switch needs the last `confirm_count` consecutive sightings to agree. It
  fails in two ways. In a switch that a sighting makes, a sighting with no AP in presence, or whose closest AP has no
  zone, leaves the counter alone, so the confirming sightings need not be consecutive (`InterruptedVotesStillConfirm`):
  they are if and only if no sighting since the first vote was of that kind (`ConsecutiveExactlyWhenNoneIsBlind`). And
  applying a topology switches with no confirmation at all (next item). Whatever makes a switch, `confirm_count` votes
  since the last reset stand behind it if and only if it is not ApplyTopology (`SwitchIsBackedExactlyWhen`).
- The comment on `ApplyTopology` says the currently published zone remains. Applying a topology, even the same one again,
  moves the zone to that of the closest AP at once (`ReapplyingSwitches`); `RelabelSwitchesExactlyWhen` says when.
- ADR-0006 says the first sighting that brings any AP above the floor causes the arrival. A closer AP without a zone
  blocks it (`UnmappedBlocksArrival`); `ArrivalIsImmediate` is the exact condition.
- The comment on `recomputeOne` says a tick leaves the confirm counter alone. A tick never advances it but can reset it:
  `TickResetsCount` is a run from a fresh beacon in which one does, and `TickKeepsCandidateExactlyWhen` gives the exact
  condition.
- The comments on the drop hooks say the hook fires for every drop. When a producer that has evicted an item finds the
  channel full again at its retry, the counter counts both losses and the hook hears of one (`HookMissesALoss`). Hook and
  counter agree if and only if no step of the run takes that branch (`CounterAndHookAtRest`), which a single producer
  never does.
- The comment on `RepublishOrphans` says a beacon demoted while the bridge was down is removed on the next refresh. The
  tracker is empty after a restart, so its config lingers (`DemotedWhileDownLingers`): a config that is not kept survives
  a reconcile if and only if it was retained and its entity unknown to the tracker (`GhostsSurviveExactlyWhen`).
- The comment on `looksLikeIBeacon` says exactly 25 bytes are enforced. Any payload from 25 bytes on is accepted, and
  what follows the frame is ignored (`TrailingBytesAreIgnored`).

## Model

| member | source | states |
|---|---|---|
| PresenceSignal.ScanIsOrderIndependent | internal/presence/state.go:129-155 | whatever order the AP map is walked in, the scan succeeds iff some AP is at or above the floor and finds the same maximum and the same lead, zero for a lone AP and for a tie |
| PresenceSignal.FreshestIsUnique | internal/presence/state.go:159-167 | the freshest sighting time does not depend on the walk |
| PresenceSignal.EffectiveNeverRises | internal/presence/engine.go:664-674 | without a sighting the effective RSSI never rises |
| PresenceSignal.UnheardIsAbsent | internal/presence/engine.go:664-668 | an AP that was never heard is not in presence under any settings in range |
| PresenceSignal.PresentShrinks | internal/presence/engine.go:664-674 | hence the set of APs in presence only shrinks with time |
| PresenceSignal.FadeTimeIsExact | internal/presence/engine.go:664-674 | with decay, a signal at or above the floor is in presence iff its age is at most grace + (ewma - floor) / decay |
| PresenceSignal.FadeBound | internal/presence/engine.go:664-674 | an AP with average at most m is out of presence once its age exceeds grace + max(0, m - floor) / decay |
| PresenceSignal.TickDepartsExactlyWhen | internal/presence/engine.go:437-485 | a tick takes a beacon out of its zone iff the sticky window is over and either no AP is in presence or the freshest sighting is older than TAwayMax; it then emits exactly the departure |
| PresenceSignal.ArrivalIsImmediate | internal/presence/engine.go:456-509 | a beacon left not_home has no AP in presence, an unmapped closest AP, or has been silent too long; a beacon that was not_home stays so iff one of these holds |
| PresenceSignal.SightingIsNotSilent | internal/presence/engine.go:401-415 | right after a sighting of the beacon the silence case is impossible |
| PresenceRuns.DepartureEndsLongStay | internal/presence/engine.go:431-509 | in every run from not_home each departure ends an unbroken stay that began with an arrival at least S seconds before, through any reloads that keep the window at least S |
| PresenceRuns.FlapBound | internal/presence/engine.go:431-509 | a run of t seconds has at most t / S departures |
| PresenceRuns.HeldUntil | internal/presence/engine.go:257-273 | from a state in a zone no run departs within S seconds of the recorded arrival |
| PresenceRuns.LogAgreesWithState | internal/presence/engine.go:431-603 | after every run the last announced state is the one published now |
| PresenceRuns.ZoneIsThatOfAP | internal/presence/engine.go:487-584 | under one zone map the published zone is always the zone of the AP backing it |
| PresenceRuns.EwmaStaysInHull | internal/presence/engine.go:387-403 | across every run and every reload of alpha an AP's average stays between its least and greatest reading |
| PresenceRuns.RunFadeBound | internal/presence/engine.go:387-403 | readings of at most m cannot keep an AP in presence past the fade time of m, in any run |
| PresenceRuns.SightingArrives | internal/presence/engine.go:377-509 | in every run a sighting that leaves its beacon not_home had no AP in presence or an unmapped closest AP |
| PresenceTicks.TicksSettle | internal/presence/engine.go:421-544 | any number of ticks under one configuration emits at most one event per known AP and one more |
| PresenceTicks.SilentAfterDeparture | internal/presence/engine.go:456-485 | after a departure every later tick emits nothing and changes nothing |
| PresenceTicks.DepartsExactlyAtFirstDue | internal/presence/engine.go:437-485 | for any number of APs, a tick-only run from a beacon in a zone departs at exactly the first tick that finds the sticky window over and no AP in presence or all silent |
| PresenceTicks.SightingIsLoneArrival | internal/presence/engine.go:377-509 | a sighting that finds its beacon not_home and its own mapped AP alone in presence is an arrival there, whatever other APs heard before |
| PresenceTicks.FirstSightingIsLoneArrival | internal/presence/engine.go:377-509 | the first sighting of a fresh beacon on a mapped AP at or above the floor is such an arrival |
| PresenceTicks.LoneArrivalDepartsOnce | internal/presence/engine.go:437-485 | an arrival with a single AP in presence followed by silence emits exactly one departure, at the first tick past the closed-form deadline |
| PresenceRules.DepartsExactlyWhen | internal/presence/engine.go:437-485 | a sighting or tick takes a beacon out of its zone iff the sticky window is over and no AP is in presence or all have been silent too long; it then has no AP, keeps its arrival time and announces not_home once |
| PresenceRules.UnguidedStays | internal/presence/engine.go:456-498 | with no AP in presence, forced silence or an unmapped closest AP, a recompute that does not depart changes nothing and says nothing |
| PresenceRules.ArrivalIsBacked | internal/presence/engine.go:499-509 | an arrival is at the closest AP under its label, stamped now and announced once |
| PresenceRules.FadedAPIsLeft | internal/presence/engine.go:521-528 | whatever the hysteresis, a beacon whose AP is no longer in presence moves to the closest AP at once, keeps its arrival time and emits exactly one event with that zone and AP |
| PresenceRules.LabelIsFollowed | internal/presence/engine.go:530-544 | while its own AP is closest a beacon follows that AP's label and announces exactly the changes |
| PresenceRules.ConfirmedVoteSwitches | internal/presence/engine.go:555-584 | a vote that brings the tally to the confirm count does switch, at once, and announces it once |
| PresenceRules.VoteIsCounted | internal/presence/engine.go:567-576 | a vote that does not is counted and changes nothing else |
| PresenceRules.NonVoteClears | internal/presence/engine.go:546-565 | a sighting that is no vote, with another AP ahead of one still in presence, clears the counter and no more |
| PresenceRules.TickNeverCounts | internal/presence/engine.go:546-554 | in that case a step that is not a sighting clears the counter only if both APs are in one zone, and otherwise changes nothing |
| PresenceRules.BackedInRuns | internal/presence/engine.go:487-584 | in every run, after a recompute with a mapped closest AP to go by, the AP behind the published zone is in presence |
| PresenceRules.ConsecutiveVotesSwitch | internal/presence/engine.go:567-584 | in every run with the confirm count fixed at k, k votes in a row for an AP put the beacon in its zone |
| PresenceRules.RelabelMovesExactlyWhen | internal/presence/engine.go:175-194 | applying a topology renames every beacon and moves exactly a published one whose closest AP has another, non-empty label |
| PresenceRules.RecomputeEventsSay | internal/presence/engine.go:431-603 | every event of a sighting or tick either shows the new state with the backing AP's reading, smoothed and effective signal, lead, sticky flag and telemetry, or is a departure that shows the AP left behind, or the freshest sighting if that AP is gone |
| PresenceRules.RelabelEventsSay | internal/presence/engine.go:175-194 | so does the event of an applied topology |
| PresenceRules.RepublishSays | internal/presence/engine.go:206-235 | a re-publication shows the backing AP if it is known, no lead, the sticky flag and the telemetry, and changes nothing |
| PresenceRules.RestoreSets | internal/presence/engine.go:257-273 | restoring sets zone, AP and arrival time, nothing else, silently |
| PresenceReadings.ReadingIsAveraged | internal/presence/engine.go:387-403 | a reading of an AP heard before moves its average to alpha times the reading plus (1 - alpha) times the average; a first one is the average; the other fields are those of the reading |
| PresenceReadings.OtherStepsKeepAP | internal/presence/engine.go:387-403 | no other step moves an AP's state |
| PresenceReadings.TelemetryIsLatest | internal/presence/engine.go:404-413 | telemetry that a sighting carries replaces the last known value; absent fields keep it |
| PresenceReadings.AverageInClosedForm | internal/presence/engine.go:387-403 | in every run with alpha fixed at a, after readings x0, ..., xm the average is (1 - a)^m x0 plus the sum of a (1 - a)^(m - i) xi |
| PresenceReadings.LastReadingIsKept | internal/presence/engine.go:387-403 | in every run an AP's raw RSSI, name and times are those of its last reading |
| PresenceReadings.KnownAPsWereHeard | internal/presence/engine.go:389-403 | in every run from a fresh beacon every AP it knows was heard at some time |
| PresenceReadings.TelemetryIsKept | internal/presence/engine.go:404-413 | in every run each telemetry field is the last one that any sighting of the beacon carried |
| PresenceHysteresis.CandidateStep | internal/presence/engine.go:511-584 | each step forgets the candidate, counts one vote below the confirm count, or leaves it alone, and a sighting leaves it alone only when it is blind |
| PresenceHysteresis.TickKeepsCandidateExactlyWhen | internal/presence/engine.go:427-554 | a tick never advances a running count; with no AP in presence it keeps it iff the sticky window is open, otherwise iff the window is open or some AP was heard within TAwayMax, and the closest AP has no zone or is another AP in another zone while the current one is still in presence |
| PresenceHysteresis.CounterCountsVotes | internal/presence/engine.go:555-576 | in every run a positive counter is exactly the number of votes since the last reset: the first of them found the candidate unset or another, and it has been this one with a running count ever since |
| PresenceHysteresis.SwitchHasConfirmedHistory | internal/presence/engine.go:546-584 | a switch that a sighting or tick makes away from an AP still in presence is itself a vote and ends a streak, since the last reset, of at least ConfirmCount votes for the new AP, each closest, in another zone and ahead by HysteresisDb; the counter counted all but the last |
| PresenceHysteresis.SwitchIsBackedExactlyWhen | internal/presence/engine.go:175-194 | whatever makes a switch, with the confirm count fixed at k, k votes since the last reset stand behind it iff it is not the application of a topology |
| PresenceHysteresis.RelabelSwitchesExactlyWhen | internal/presence/engine.go:175-194 | applying a topology switches iff the closest AP is another one whose label is neither empty nor the published zone |
| PresenceHysteresis.CounterStaysBelowConfirm | internal/presence/engine.go:567-576 | with a fixed confirm count the stored counter never reaches it |
| PresenceWitnesses.InterruptedVotesStillConfirm | internal/presence/engine.go:487-498 | a run from a fresh beacon with ConfirmCount 2 that switches although its last two sightings do not agree |
| PresenceHysteresis.SwitchHasExactlyKVotes | internal/presence/engine.go:567-584 | with the confirm count fixed at k, exactly k votes since the last reset stand behind a switch that a sighting makes |
| PresenceHysteresis.ConsecutiveExactlyWhenNoneIsBlind | docs/adr/0006-presence-model-closest-ap-wins.md:160-163 | with the confirm count fixed at k, at every switch that a sighting makes the last k sightings all vote for the new AP iff no sighting since the first vote had no AP in presence or an unmapped closest AP |
| PresenceWitnesses.ReapplyingSwitches | internal/presence/engine.go:120-129 | a run from a fresh beacon in which applying the same topology again moves the published zone on a single vote, with ConfirmCount 2 and the old AP still in presence |
| PresenceWitnesses.UnmappedBlocksArrival | docs/adr/0006-presence-model-closest-ap-wins.md:84-89 | a run in which a sighting brings a mapped AP into presence and the beacon stays not_home |
| PresenceWitnesses.TickResetsCount | internal/presence/engine.go:427-430 | a run from a fresh beacon in which a tick silently takes a running count to zero |
| BeaconStates.BeaconState.ClosestInPresence | internal/presence/state.go:129-155 | the two-best loop returns a maximiser among the APs in presence with its lead over the best other one, or nothing iff none is in presence |
| BeaconStates.BeaconState.FreshestSightingTs | internal/presence/state.go:159-167 | the loop returns the latest sighting over all APs |
| EngineSpec.NextKeepsCoherent | internal/presence/engine.go:108-162 | every call keeps the tracked keys equal to the allowlist under its names and the cache equal to resolving exactly those names |
| EngineSpec.AlwaysCoherent | internal/presence/engine.go:66-162 | so in every reachable state, through renames, name swaps, promotions, demotions and reloads |
| EngineSpec.CoherentSettings | internal/config/resolved.go:27-67 | every tracked beacon finds its own resolved settings in the cache, in range; which override lands in which field is ResolvesFieldByField |
| EngineSpec.FollowsIsValid | internal/presence/engine.go:421-429 | a trace of the engine is, for each tracked beacon, a valid run of its state machine at the same times |
| EngineSpec.LogFollows | internal/presence/engine.go:612-640 | a beacon's part of the engine's log is what its run emits |
| EngineRuns.EngineFlapBound | internal/presence/engine.go:130-195 | over any mix of calls the departures of a beacon kept on the allowlist number at most t / S in a trace of t seconds, stated as a product |
| EngineRuns.EngineDepartureEndsLongStay | internal/presence/engine.go:431-509 | each of its departures ends a stay of at least S seconds |
| EngineRuns.EngineLogAgreesWithState | internal/presence/engine.go:130-235 | at every point of every trace the last state announced for a beacon is its published one |
| EngineRuns.RepublishIsReadOnly | internal/presence/engine.go:206-235 | RepublishAll changes nothing and emits exactly one event per tracked beacon, announcing what it publishes |
| EngineRuns.WarmBootRestores | cmd/briihass/main.go:165-182 | snapshot, rows, FromStoreKey and RestoreState on a fresh engine with the same allowlist bring every zone back, silently, as an arrival at boot |
| EngineRuns.WarmBootRepublishesTheSame | internal/presence/engine.go:206-273 | re-publishing announces the same state for every beacon before and after the restart |
| EngineRuns.RestoredBeaconIsHeld | internal/presence/engine.go:245-256 | no run of the new engine departs a restored beacon before boot plus its sticky window |
| EngineTicks.EngineTicksSettle | internal/presence/engine.go:99-103 | any number of engine ticks emits at most one event per known AP and one more, for each beacon |
| EngineTicks.EngineSilentAfterDeparture | internal/presence/engine.go:421-485 | once a tick has departed a beacon, no later tick emits anything for it |
| EngineTicks.EngineDepartsExactlyAtFirstDue | internal/presence/engine.go:421-485 | in a trace of ticks a beacon departs at exactly the first one that finds its departure due |
| EngineTicks.EngineLoneArrivalDepartsOnce | internal/presence/engine.go:421-485 | after a lone arrival the engine's log for the beacon is empty before the deadline and one departure from it on |
| EngineSignals.EngineZoneIsThatOfAP | internal/presence/engine.go:487-584 | in every trace whose topologies label the APs alike, a beacon's zone is that of the AP backing it |
| EngineSignals.EngineEwmaStaysInHull | internal/presence/engine.go:387-403 | in every trace, through any reloads, an AP's average stays between the least and greatest reading submitted |
| EngineSignals.EngineSwitchHasConfirmedHistory | internal/presence/engine.go:546-584 | in every trace a switch that a call other than ApplyTopology makes has at least the beacon's resolved confirm count of votes behind it since the last reset |
| EngineSignals.EngineSwitchIsBackedExactlyWhen | internal/presence/engine.go:175-194 | in every trace a full confirmation stands behind a switch iff the call is not ApplyTopology |
| EngineSignals.EngineConsecutiveExactlyWhen | docs/adr/0006-presence-model-closest-ap-wins.md:160-163 | the condition for agreeing sightings, for traces of the engine |
| EngineSignals.EngineSightingArrives | internal/presence/engine.go:377-509 | in every trace a sighting that leaves its beacon not_home had no AP in presence or an unmapped closest AP |
| EngineSignals.EngineBackedAfterRecompute | internal/presence/engine.go:487-584 | in every trace, after a sighting or tick with a mapped closest AP to go by, the AP behind a beacon's zone is in presence under its resolved settings |
| EngineSignals.EngineAverageInClosedForm | internal/presence/engine.go:387-403 | the closed form of an AP's average, for traces of the engine |
| EngineCalls.SubmitReachesOne | internal/presence/engine.go:377-386 | a sighting does not touch any other beacon and says nothing of it |
| EngineCalls.SubmitFoldsReading | internal/presence/engine.go:377-415 | a sighting is folded into the AP it names with the alpha in force for its beacon, its override if it has one, and into no other AP; its telemetry replaces the last known one |
| EngineCalls.StepIsAsCalled | internal/presence/engine.go:421-429 | a call reaches its beacons at its own time, under the current labels and the settings their names resolve to |
| EngineCalls.TopologyStepIsAsCalled | internal/presence/engine.go:130-195 | applying a topology goes by the new labels and the settings of the new name |
| EngineCalls.TunablesAreSilent | internal/presence/engine.go:108-118 | new tunables touch no beacon and emit nothing |
| EngineCalls.TopologyKeepsRecord | internal/presence/engine.go:137-150 | a beacon listed again keeps its signals, arrival time and telemetry under its new name, and stays published in a zone iff it was |
| EngineCalls.TopologyStartsAndDrops | internal/presence/engine.go:137-162 | a newly listed beacon starts from nothing and an unlisted one is gone, both without an event |
| EngineCalls.RestoreTakesLast | internal/presence/engine.go:257-273 | the last snapshot that names a zone for a beacon sets its zone and AP as an arrival now, and nothing else |
| EngineCalls.RestoreLeavesOthers | internal/presence/engine.go:257-273 | a beacon with no such snapshot is left alone |
| EngineCalls.RestorableCounts | internal/presence/engine.go:257-273 | the count returned is the number of snapshots that name a tracked beacon and a zone |
| EngineCalls.SnapshotShows | internal/presence/engine.go:291-323 | a snapshot shows each beacon's state and judges stickiness and presence by the settings its name resolves to |
| EnginePasses.PassIsMove | internal/presence/engine.go:421-429 | a loop that visits every beacon once, in any order, is one move of the engine |
| PresenceEngine.Engine.constructor | internal/presence/engine.go:66-82 | every listed beacon gets a fresh record and its resolved settings, and the engine is valid |
| PresenceEngine.Engine.Submit | internal/presence/engine.go:90-94 | a sighting moves its beacon, if tracked, touches nothing else and keeps the engine valid |
| PresenceEngine.Engine.ObserveSighting | internal/presence/engine.go:387-413 | the reading is folded into the AP's average and the latest telemetry kept |
| PresenceEngine.Engine.Tick | internal/presence/engine.go:99-103 | every tracked beacon takes a tick step, in any order, and the engine stays valid |
| PresenceEngine.Engine.RecomputeOne | internal/presence/engine.go:431-509 | the record ends in the state, and the log grows by the events, that the value rules give for what the scans answered |
| PresenceEngine.Engine.Contend | internal/presence/engine.go:511-584 | likewise for a beacon already in a zone: fade-out, relabel, hysteresis and confirm counter |
| PresenceEngine.Engine.ApplyTunables | internal/presence/engine.go:108-118 | a silent move that refreshes the cache; without a document nothing changes |
| PresenceEngine.Engine.RefreshCache | internal/presence/engine.go:115-117 | the loop adds exactly the resolved values of the tracked names |
| PresenceEngine.Engine.ApplyTopology | internal/presence/engine.go:130-195 | a move that registers, renames, evicts and relabels as the new topology says, and keeps the engine valid |
| PresenceEngine.Engine.Reconfigure | internal/presence/engine.go:136-162 | afterwards exactly the listed keys are tracked, each with its old record renamed or a fresh one, and exactly their names are cached |
| PresenceEngine.Engine.RelabelRecord | internal/presence/engine.go:175-194 | one turn of the emit pass, without hysteresis |
| EngineReload.EnrolledIsReconfigured | internal/presence/engine.go:137-162 | registering in order and pruning amounts to exactly the new allowlist and its cache |
| EngineReload.Prune | internal/presence/engine.go:151-162 | the pruning loop leaves exactly the kept entries |
| PresenceEngine.Engine.RepublishAll | internal/presence/engine.go:206-235 | the state is unchanged and the events are those of a re-publication of every beacon |
| PresenceEngine.Engine.RestoreState | internal/presence/engine.go:257-273 | a silent move in which the last snapshot with a zone decides, returning how many snapshots applied |
| PresenceEngine.Engine.IsTracked | internal/presence/engine.go:278-286 | answers whether the beacon is on the allowlist, and with the name the allowlist gives it |
| PresenceEngine.Engine.Snapshot | internal/presence/engine.go:291-323 | exactly one entry per tracked beacon, as it is, with every AP's reading, effective signal and presence |
| BeaconStates.BeaconState.SnapshotAPs | internal/presence/engine.go:308-319 | the inner loop shows exactly the beacon's APs, each as it stands |
| Tunables.Validate | internal/config/tunables.go:86-99 | no error iff the defaults and every override pass |
| Tunables.ValidIffResolvesInRange | internal/config/tunables.go:101-155 | a document is accepted iff its defaults and every name's merge are in range |
| Tunables.ResolvesFieldByField | internal/config/resolved.go:27-67 | for every document and name each of the eight fields is the override's value for that field if there is one, and the default's otherwise |
| Tunables.ResolvesToDefaults | internal/config/resolved.go:27-41 | a name without an entry resolves to the defaults |
| Tunables.FieldsAreIndependent | internal/config/resolved.go:42-67 | documents that agree on a field resolve alike in it, whatever else differs |
| Tunables.FirstFaultIsNamed | internal/config/tunables.go:101-155 | a refusal names the first knob out of its own range, in the order of the checks |
| Topology.NewTopology | internal/config/topology.go:68-106 | accepts iff every zone entry and beacon is well formed and no key or name repeats; the zones are the input under normalised addresses and the allowlist is the input list |
| Topology.ZoneIgnoresSpelling | internal/config/topology.go:54-66 | two spellings of an address, in case or in whatever the canonical form does away with, have one label |
| Topology.LabelledExactlyWhen | internal/config/topology.go:111-118 | an AP is labelled, with the configured label, iff its address is configured |
| Topology.SpacesAreNoName | internal/config/topology.go:88-94 | a beacon name is accepted iff it holds a character that is not a space |
| DropQueue.NothingIsUnaccounted | internal/mqtt/publisher.go:294-321 | in every interleaving each submission of each item is in flight, queued, consumed or lost; the counter is short of the losses only by those about to be counted, the reports only by those owed or silent |
| DropQueue.CounterAndHookAtRest | internal/mqtt/publisher.go:301-318 | once all calls have returned the counter is the number of losses, and equals the number of reports iff no step of the run retried after an eviction on a full channel |
| DropQueue.SilentExactlyWhenRefused | internal/mqtt/publisher.go:307-318 | an eviction goes unreported exactly in that branch |
| DropQueue.ConsumedInSendOrder | internal/store/writer.go:94-119 | in every interleaving the channel is the unread end of what was sent, within capacity, and consumption follows send order |
| DropQueue.SingleProducerNeverRefused | internal/store/raw_posts_writer.go:114-140 | with a single producer nothing is refused: everything submitted was sent, in order, except what is in hand |
| DropQueue.HookMissesALoss | internal/mqtt/publisher.go:307-318 | an interleaving of two producers that loses two items and reports one |
| DropQueue.RetryRefused | internal/mqtt/publisher.go:313-318 | a refused retry loses the new item as well and reports only that |
| DropQueue.AloneIsDropOldest | internal/mqtt/publisher.go:294-321 | run without interference the protocol queues the item, evicting, counting and reporting the oldest iff the channel was full |
| DropQueue.CallIsAttempt | internal/mqtt/publisher.go:294-321 | in the interleaving model, whatever the others do at the two gaps of a call, its channel, refusal, counter and reports are those of Attempted |
| DropQueue.AttemptAlone | internal/mqtt/publisher.go:294-321 | with nobody else about an attempt is drop-oldest |
| DropQueue.RefusedExactlyWhenFullTwice | internal/mqtt/publisher.go:307-318 | an attempt is refused iff the channel is full at both sends |
| BatchWriter.WriterAccounting | internal/store/writer.go:146-192 | in every interleaving submitted = written + errors + dropped + queued + batched + in flight |
| BatchWriter.EveryRowOnce | internal/store/raw_posts_writer.go:159-196 | the same row by row, and rows reach the database in send order |
| BatchWriter.WriterIsSound | internal/store/writer.go:146-192 | what was consumed is the inserts in order followed by the batch; no insert is empty or above maxBatch; the counters count rows and failed batches |
| BatchWriter.DrainIsComplete | internal/store/writer.go:239-252 | a drain empties the batch and hands over every row once, in order, in full batches except perhaps the last |
| BatchWriter.FlushIsDecidedByTwoAttempts | internal/store/writer.go:174-233 | a flush is one insert of the whole batch, counted as errors iff both attempts fail and as written otherwise |
| BatchWriter.RetryLosesNothing | internal/store/writer.go:217-233 | a database that never fails twice in a row loses no row of a drain |
| BatchWriter.DownLosesEverything | internal/store/writer.go:217-252 | a database that always fails loses every row of a drain, each batch after exactly two attempts |
| BatchWriter.FlushEventIsFlush | internal/store/writer.go:174-192 | in the interleaving model a flush does what flushBatch does when its attempts end so |
| BatchWriter.ErrorsNeedTwoFailures | internal/store/writer.go:146-192 | in every interleaving without a flush that failed twice, every row handed over is written |
| BatchWriter.RowWriter.constructor | internal/store/writer.go:63-85 | options of zero or less take the writer's defaults, or one second between flushes |
| BatchWriter.RowWriter.Submit | internal/store/writer.go:94-119 | channel, counter and hook after a call, whatever the other producers and the writer do at its two gaps |
| BatchWriter.RowWriter.InsertWithRetry | internal/store/writer.go:217-233 | succeeds iff the first attempt or the one retry does |
| BatchWriter.RowWriter.FlushBatch | internal/store/writer.go:174-192 | the batch counts as written or as errors and is reset; an empty batch is not inserted |
| BatchWriter.RowWriter.ReceiveOne | internal/store/writer.go:155-159 | the oldest row joins the batch, and a full batch is flushed at once |
| BatchWriter.RowWriter.DrainAndFlush | internal/store/writer.go:239-252 | terminates with channel and batch empty and every row handed over in order |
| Discovery.ConfigTopicIsInjective | internal/mqtt/discovery.go:55-57 | a config topic belongs to one entity, for any prefix |
| Discovery.OtherTopicsAreNotConfig | internal/mqtt/discovery.go:65-83 | no state, telemetry or legacy topic is a config topic, for any prefix and entities |
| Discovery.ComponentsAreExact | internal/mqtt/discovery.go:135-215 | a device declares tracker, rssi and area always and voltage or temperature iff asked to, each under its own unique id |
| Discovery.AlwaysMatches | internal/mqtt/publisher.go:388-493 | in every run the four maps share one domain, each entry's beacon has that entity id, and its retained config declares exactly the base components and those its flags say |
| Discovery.ConfigsNeverShrink | internal/mqtt/publisher.go:444-475 | between clears and removals the retained config of an entity keeps every component it ever declared |
| Discovery.NoGhostsWithoutClears | internal/mqtt/publisher.go:388-475 | from an empty broker and without a clear, every retained config belongs to a tracked entity |
| Discovery.OrphansAreGone | internal/mqtt/publisher.go:388-402 | removing the orphans leaves exactly the kept entities, their configs untouched, and none of an orphan's topics |
| Discovery.GhostsSurviveExactlyWhen | internal/mqtt/publisher.go:528-549 | after a reconcile and drain the config of an entity that is not kept is still retained iff it was and the tracker did not know the entity |
| Discovery.DemotedWhileDownLingers | internal/mqtt/publisher.go:528-532 | a run in which a device declared before a restart survives the reconcile after it |
| DiscoveryTopics.EntityIsSlashless | internal/ids/beacon_key.go:97-137 | a free-form key, whatever its text, and any other key without a slash has an entity id without one |
| DiscoveryTopics.ConstructedIsSlashless | internal/ids/beacon_key.go:97-196 | so has every key of an iBeacon, a UID, a URL or a name that a constructor returns |
| DiscoveryTopics.SlashedTopicsCollide | internal/mqtt/discovery.go:65-83 | with a slash in an entity id and a fitting prefix, a state topic is another entity's legacy topic, which that entity's first config wipes |
| DiscoveryTopics.StateTopicIsOwn | internal/mqtt/discovery.go:65-83 | the state topic of such an entity is no other entity's state topic and nobody's config, telemetry or legacy topic |
| DiscoveryTopics.TelemetryTopicIsOwn | internal/mqtt/discovery.go:72-83 | the same for the telemetry topic of any entity |
| DiscoveryTopics.ConfigIsDueExactlyWhen | internal/mqtt/publisher.go:435-450 | a config is published iff the entity is unknown or the event reports something its retained config does not declare |
| DiscoveryTopics.HandleWrites | internal/mqtt/publisher.go:476-493 | an event that gets past its config leaves home on the state topic iff its state is not not_home, and its area, battery and temperature on the telemetry topic |
| DiscoveryTopics.OtherStepsKeepTopics | internal/mqtt/publisher.go:388-493 | no other step, for whatever entity, moves an entity's state or telemetry topic |
| DiscoveryTopics.StateTopicIsLastWrite | internal/mqtt/publisher.go:435-493 | in every run the state topic holds what the last event that got past its config, or removal, of that entity left |
| DiscoveryTopics.TelemetryTopicIsLastWrite | internal/mqtt/publisher.go:435-493 | the same for the telemetry topic and the last document that marshalled |
| DiscoveryTopics.ConfigDeclaresTelemetry | internal/mqtt/publisher.go:444-475 | after an event with battery or temperature whose config marshals, the retained config declares that component |
| DiscoveryTopics.ConfigNamesDevice | internal/mqtt/discovery.go:135-160 | a config carries the entity id and the name in the event that caused it |
| DiscoveryTopics.ConfigWipesLegacyOnce | internal/mqtt/publisher.go:460-475 | the first config of an entity wipes its legacy topics, a later one leaves them |
| DiscoveryTopics.ComponentsRead | internal/mqtt/discovery.go:135-215 | the tracker reads the entity's state topic, each sensor its own field of the telemetry topic |
| DiscoveryTopics.KnownTopics | internal/mqtt/discovery.go:55-77 | the three topics spelled out |
| DiscoveryTopics.KnownLegacyTopics | internal/mqtt/discovery.go:80-83 | the three legacy topics spelled out |
| PublishedState.TopicsFollowEvents | internal/mqtt/publisher.go:435-493 | the topics of a beacon show the last of its own events in any sequence of events of many beacons |
| PublishedState.BrokerAgreesWithEngine | internal/mqtt/publisher.go:476-493 | if the publisher handles what a trace of the engine emitted, the retained tracker state of an announced beacon is home iff the engine publishes it in a zone, and the area is that zone |
| PublishedState.MarshalFailures | internal/mqtt/publisher.go:451-493 | a due config that does not marshal stops its event before anything is published or noted; a state document that does not costs only the telemetry |
| MqttPublisher.ReconcileConverges | internal/mqtt/publisher.go:533-562 | from an empty queue with room, a reconcile and a drain leave only known entities, and a second reconcile has nothing to enqueue |
| MqttPublisher.Publisher.constructor | internal/mqtt/publisher.go:181-189 | an empty tracker and queue, 5000 items when no size is given |
| MqttPublisher.New | internal/mqtt/publisher.go:169-189 | refuses a missing broker, missing credentials and a missing logger, in that order, and otherwise applies the defaults |
| MqttPublisher.Publisher.HandleEvent | internal/mqtt/publisher.go:435-493 | the maps and the broker after one event, with both marshal failures |
| MqttPublisher.Publisher.HandleRemove | internal/mqtt/publisher.go:388-402 | the entity leaves all four maps and all its topics are wiped |
| MqttPublisher.Publisher.ClearSeen | internal/mqtt/publisher.go:230-237 | all four maps are emptied and the broker keeps what it has |
| MqttPublisher.Publisher.Enqueue | internal/mqtt/publisher.go:294-321 | queue, result, counter and hook after a call, whatever the other producers and the consumer do at its two gaps |
| MqttPublisher.Publisher.RemoveEntity | internal/mqtt/publisher.go:374-382 | an error iff the context is done or the request was refused |
| MqttPublisher.Publisher.Orphans | internal/mqtt/publisher.go:541-549 | exactly the declared entities that are not kept, each once |
| MqttPublisher.Publisher.RepublishOrphans | internal/mqtt/publisher.go:533-562 | the queue and the count are those of attempting one removal per orphan in turn, whatever others do between and during the attempts; an error iff some was refused |
| MqttPublisher.RacedAlone | internal/mqtt/publisher.go:552-561 | with nobody else about, or room for all, every removal gets in |
| MqttPublisher.Publisher.RunOne | internal/mqtt/publisher.go:339-353 | one received item takes its step and the maps still match the broker |
| MqttPublisher.Publisher.Drain | internal/mqtt/publisher.go:339-353 | with nobody enqueueing, the queue empties and its items are handled in order |
| AdFormat.HexRoundTrip | internal/parser/decode.go:99-103 | decoding the hex encoding of any bytes returns them |
| AdFormat.HexDecodesExactlyWhen | internal/parser/decode.go:99-103 | decoding accepts exactly an even number of hex digits of either case, and encoding the result gives the text in lower case |
| AdFormat.KnownHex | internal/parser/decode.go:99-103 | two bytes spelled out, high half first |
| AdFormat.WalkSplitsBuffer | internal/parser/decode.go:104-125 | every walk, finished or overrun, splits the buffer into the encoding of its records and a remainder where no record starts |
| AdFormat.WalkInvertsEncode | internal/parser/decode.go:99-125 | a walk succeeds with these records and remainder iff the buffer is their encoding followed by a remainder that is empty or starts with zero |
| AdFormat.KnownWalk | internal/parser/decode.go:104-125 | walks over known bytes: the length counts the type, a zero ends the walk, an overrun leaves its bytes |
| Advert.Parse | internal/parser/decode.go:99-125 | the advert collected from the records of the walk, with an error iff the hex is bad or a record overruns |
| AdvertFields.LatestWins | internal/parser/decode.go:127-144 | for every list of records the decoded advert keeps them all, and the last flags and the last transmit power win |
| AdvertFields.NameRule | internal/parser/decode.go:134-139 | the local name is the last complete one; if that is missing or empty, the first non-empty shortened name after it |
| AdvertFields.ListsAreComplete | internal/parser/decode.go:145-175 | service ids, manufacturer records and service data are those of all records, in order |
| AdvertFields.LatestFramesWin | internal/parser/decode.go:153-175 | the last complete iBeacon and the last decodable Eddystone record win, and there is none iff no record has one |
| AdvertFields.UrlReads | internal/parser/decode.go:240-253 | a URL in which a code stands between printable bytes reads scheme, bytes, expansion, bytes |
| AdvertFields.PrintableIsSpelledAsIs | internal/parser/decode.go:246-252 | printable bytes are spelled as they are |
| AdvertFrames.TlmRoundTrip | internal/parser/decode.go:213-225 | for every version, battery, signed 8.8 temperature and two 32-bit counts, decoding an encoded telemetry frame returns them, with no temperature iff the raw value is 0x8000 |
| AdvertFrames.UidRoundTrip | internal/parser/decode.go:188-201 | decoding an encoded UID frame returns the hex of its ids and its signed power, whatever follows |
| AdvertFrames.UrlRoundTrip | internal/parser/decode.go:202-212 | decoding an encoded URL frame returns the expansion of its bytes and its signed power |
| AdvertFrames.IBeaconRoundTrip | internal/parser/advert.go:78-109 | decoding an encoded iBeacon returns its UUID text, major, minor and signed power, whatever follows |
| AdvertFrames.DecodesExactlyFrom | internal/parser/decode.go:188-230 | the exact length from which each Eddystone frame type decodes; another type decodes to itself alone |
| AdvertFrames.IBeaconDecodesExactlyFrom | internal/parser/advert.go:89-92 | an iBeacon value decodes iff it has at least 25 bytes |
| AdvertFrames.UrlCodes | internal/parser/decode.go:228-253 | the schemes and expansions of a URL, code by code |
| AdvertFrames.ServiceIds | internal/parser/decode.go:145-152 | 16-bit ids are little-endian, 128-bit ids are read backwards, and a rest is ignored |
| AdvertFrames.KnownAdvert | internal/parser/decode.go:127-176 | an advertisement spelled out byte by byte: flags, power, name, service, company and service data |
| AdvertFrames.KnownShortTypes | internal/parser/decode.go:134-148 | the codes of the shortened name and of the incomplete list of 16-bit ids |
| AdvertFrames.KnownLongTypes | internal/parser/decode.go:149-152 | the codes of both lists of 128-bit ids |
| AdvertErrors.RecordsStandWhereTheySay | internal/parser/debug.go:41-74 | every record of the debug walk stands in the buffer at its offset, with its length byte, type and value |
| AdvertErrors.RecordsAreContiguous | internal/parser/debug.go:41-74 | the records follow one another from offset zero without gaps |
| AdvertErrors.OverrunSaysWhere | internal/parser/decode.go:104-118 | an overrun error names the offset after the last whole record, the length byte there and the size of the buffer, which that record would pass |
| AdvertErrors.FilterGoesByFirst | internal/parser/advert.go:60-76 | the filter answers with the frame of the first signed record if it has 25 bytes and with an error naming its size otherwise |
| AdvertErrors.FilterWithoutSignature | internal/parser/advert.go:50-76 | without a signed record it answers that there is none, or with the overrun |
| AdvertErrors.DebugTrouble | internal/parser/debug.go:41-74 | the debug walk reports an overrun if there is one, else the size of the last signed record below 25 bytes |
| AdvertErrors.DebugWithoutShort | internal/parser/debug.go:41-74 | without such a record it reports trouble iff the walk overran |
| Advert.DecodeEddystoneURL | internal/parser/decode.go:240-253 | the expanded URL of a scheme byte and its encoded bytes |
| Advert.ParseAdvert | internal/parser/advert.go:44-76 | the answer of the first signed record, or of the end of the walk |
| Advert.FormatUUID | internal/parser/advert.go:111-141 | the canonical 8-4-4-4-12 text, written in place |
| Advert.ParseAdvertDebug | internal/parser/debug.go:33-74 | every record with its offset, the last complete iBeacon, and the trouble as data |
| AdvertIdentity.ParseAgreesWithDebug | internal/parser/debug.go:33-74 | for every buffer the full and the debug walk read the same records, stop early alike and name the same iBeacon |
| AdvertIdentity.FilterAgreesExactlyWhen | internal/parser/advert.go:44-109 | on an accepted buffer the filter matches the full decode iff no record is signed, or the first signed one is complete and carries the frame of the last complete one |
| AdvertIdentity.FilterAgreesOnOneSignature | internal/parser/advert.go:44-109 | so it matches whenever at most one record is signed and that one is complete |
| AdvertIdentity.TrailingBytesAreIgnored | internal/parser/advert.go:78-109 | a frame followed by any further bytes is accepted and decodes to the same iBeacon |
| AdvertIdentity.TwoFrames | internal/parser/advert.go:66-72 | on a buffer of two complete iBeacons the filter names the first and the full decode the second |
| AdvertIdentity.FilterCanDiffer | internal/parser/advert.go:66-72 | a buffer on which they name different iBeacons |
| AdvertIdentity.IBeaconIdentityIsFaithful | internal/parser/advert.go:89-109 | every decoded iBeacon has a key, and two share the key, or the entity id, iff their UUID, major and minor bytes are equal |
| AdvertIdentity.UidIdentityIsFaithful | internal/parser/decode.go:188-201 | the same for Eddystone-UID frames and their namespace and instance bytes |
| AdvertIdentity.IdentityFollowsPrecedence | internal/parser/decode.go:269-302 | for every buffer the identity is the key, byte for byte, of the last complete iBeacon record, else of the last decodable Eddystone record that is a UID frame or a URL frame with text, else of the name the records show, else none |
| AdvertIdentity.IdentityIsConstructed | internal/parser/decode.go:269-302 | every identity is a key a constructor can return, and its kind is that of the level of the precedence that decided |
| Identity.SlugRoundTrip | internal/ids/beacon_key.go:69-84 | ParseSlug yields a key iff the key is valid and the text is its slug |
| Identity.IBeaconKeysExactly | internal/ids/beacon_key.go:149-155 | NewIBeaconKey yields exactly the keys of a canonical UUID, a major and a minor |
| Identity.UidKeysExactly | internal/ids/beacon_key.go:164-174 | NewEddystoneUIDKey yields exactly the keys of twenty and twelve hex digits |
| Identity.UrlKeysExactly | internal/ids/beacon_key.go:178-184 | NewEddystoneURLKey yields exactly the keys of trimmed, non-empty, lower-case text |
| Identity.NameKeysExactly | internal/ids/beacon_key.go:190-196 | NewNameKey yields exactly the keys of trimmed, non-empty text |
| Identity.KeysOfAnyText | internal/ids/beacon_key.go:149-196 | on any text the constructors ignore the spaces around it and, except for names, its case, and keep the parts in order |
| Identity.UidKeyOf | internal/ids/beacon_key.go:164-174 | a UID key is the namespace and the instance, in that order, iff they have twenty and twelve hex digits |
| Identity.IBeaconTextIsInjective | internal/ids/beacon_key.go:149-155 | an iBeacon key determines its UUID, major and minor |
| Identity.SanitizeFreeLoop | internal/ids/beacon_key.go:115-137 | the loop with its flag and its cap computes the collapsed, trimmed text |
| Identity.SanitizeFreeIsClean | internal/ids/beacon_key.go:111-137 | the readable part is safe, collapsed, trimmed and at most 32 characters |
| Identity.SanitizeFreeKeepsClean | internal/ids/beacon_key.go:111-137 | text that is already clean and trimmed keeps its characters up to the cap, in lower case |
| Identity.SafeCharacters | internal/ids/beacon_key.go:117-125 | letters and digits stand for themselves, everything else becomes an underscore |
| Identity.KnownTexts | internal/ids/beacon_key.go:69 | a slug, an iBeacon key and the prefixes of entity ids spelled out |
| Identity.KnownEntityIds | internal/ids/beacon_key.go:97-107 | entity ids of three kinds spelled out |
| Identity.KindsNeverCollide | internal/ids/beacon_key.go:97-107 | entity ids of different kinds differ |
| Identity.EntityIdCollisions | internal/ids/beacon_key.go:92-107 | two identities share an entity id iff they are equal, or are free-form keys of one kind with the same readable part and the same short hash |

## Left out

- HTTP ingest, authentication, gzip, JSON and the capture daemon: plumbing around the core.
- SQL, pgx and schema migration: the presence table gives back the rows saved in any order, and an insert succeeds or fails as a whole.
- The paho client, reconnects, Last-Will, timeouts and failed publishes: every publish reaches the broker; a clear in the middle of handling one event, or events still in the engine's channel when a beacon is demoted, are not modelled.
- The engine's output channel: `emitted` is the stream handed to OnEventEmitted; an event dropped on a full channel is not modelled.
- SHA-256: the short hash is a parameter with eight characters and nothing else is assumed of it; keys of kind mfg are any non-empty text, and Identify has no mfg branch because the allowlist it consults is empty in the source.
- The telemetry document beyond its area, battery and temperature: its RSSI figures, AP, sticky flag and time texts.
- Floating point: decibels, degrees and seconds are reals; rounding for display, duration overflow and the wrap-around of 64-bit counters are not modelled.
- YAML decoding, hardware address syntax and Unicode: what net.ParseMAC makes of a text is a parameter, lower case is ASCII lower case, and text is a sequence of characters.
- PresenceEngine.Engine.Snapshot: lists a beacon's APs as a map by address, so the order of the source's list is not kept.
- PresenceEngine.Engine.ApplyTopology: proved for topologies NewTopology returns, and PresenceEngine.Engine.ApplyTunables for documents Validate accepts, which is what their callers pass.
- A zone labelled `not_home` is accepted by the source; results are stated on the published label, so such a zone reads as away.
- CrossValidate, beacon name lists, metrics, hooks other than the drop and emit hooks, rate-limited logs, record labels and templates: no hard property.
