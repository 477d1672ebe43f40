# ha-lua, verified

ha-lua runs Lua scripts for Home Assistant. This project models the state machines its guarantees rest on and proves
those guarantees over every run, every interleaving or every input. `dafny verify dfyconfig.toml` checks all of it.

## What is modelled

Code that changes state step by step is a class whose fields are the source's and whose methods are its operations,
each proved against a function of the old state; the guarantees are lemmas about that function over all runs. Concurrent
code is one method per atomic step (a critical section, a channel operation), and a run is any sequence of steps that
are enabled.

What an operation does is stated twice: as the function its method is proved against, and by lemmas that give its effect
on the source's own cases (which event types coalesce, what a change leaves in the mirror, when a fired timer is due
again, that a result frame reaches its waiter) without that function's vocabulary.

- `EventLoop`: a script's bounded, lossy event channel and the loop that coalesces `state_changed` events per entity and
  window. The mutable machine (pending slice, slot map, timer) refines "close windows of raw arrivals, handle each as its
  coalescing", and over whole runs nothing accepted is lost, doubled or overtaken by an immediate event.
- `Lifecycle`: starting, loading, stopping and reloading scripts while events are dispatched, under the supervisor's
  lock, the registry's read-write lock and the router's lock. `Router`: the route table and mounted paths.
- `Tracker`: the in-memory mirror, the write-behind queue and committed history; seeding with snapshots that may be stale.
  `SeedRaces`: the same with the seeding, event and writing goroutines interleaved.
- `HistoryAggregates`: durations and counts over recorded history, as integrals of a step function. `Timestamps`: the
  comparison of timestamps as text that the history queries rest on.
- `Scheduler`: the array heap of timers, registration and ids, firing and rescheduling, removal in place.
- `LuaJson`: conversion between Lua tables, cyclic ones included, and JSON values.
- `ScheduleEditor`: collapsing a weekly schedule into day-group entries and expanding it again.
- `HaClient`: which result a waiting command gets across disconnects; which event types each connection is subscribed
  to. `NameMirror`: the debounced refetch of the name registries.
- `RegexCache`, `MqttTopic`, `Syslog`, `LogBuffer`, `Purge`: the cache of compiled patterns, topic filters (section 4.7
  of MQTT 3.1.1), syslog parsing (RFC 5424), the ring of log records, and retention.
- `Wrappers`, `StableSort`, `Text`: what these share.

Parameters stand for what is outside: the clock's parsers and the zone's offset (`Scheduler.Clock`, whose `Valid` says
what is assumed of them: a minute lies within the day, and no accepted spec holds a '|' or is the word "after"), the date parsers of
syslog (`Syslog.Dates`), the regular-expression compiler, the log-level parser, the database's glob and the purge's
cutoff texts.

## Where the code does less than its documentation

Each is proved as an exact condition, with a concrete counterexample where one is needed.

- A seed keeps the newest history rows equal to the mirror, and seeding twice is silent, only if records of one entity in
  a batch agree (`Tracker.SeedKeepsMirrorIffConsistent`, `Tracker.SecondSeedIsSilentIffReplayable`); batches of distinct
  ids always do. A cold seed must also find no queued row that outdates what history shows
  (`Tracker.ColdSeedKeepsMirrorIff`, with a run that fails in `Tracker.UndrainedColdSeedLosesARow`).
- Rows are enqueued outside the mirror's lock, so a change that comes between a re-seed's merge and its row can leave the
  older value last in history (`SeedRaces.OvertakenRowEndsHistory`; `SeedRaces.MoveKeepsSafeIff` says exactly when).
- A structured-data id may legally end in a backslash, which then escapes the element's own bracket
  (`Syslog.ElementEndIff`, `Syslog.BackslashIdRunsOn`, `Syslog.RoundTrip`).
- Text order of timestamps is chronological but for a zero fraction against none (`Timestamps.TextOrder`); HA never
  writes a zero fraction.
- JSON values with a null inside a container or an empty array do not come back from Lua as they were
  (`LuaJson.RoundTripIff`).

## Model

| member | source | states |
|---|---|---|
| EventLoop.Slots | ha-lua/internal/lua/runner.go:406-418 | A window's slots are its arrivals that are the first of their entity (or belong to none), in arrival order. |
| EventLoop.NewestBefore | ha-lua/internal/lua/runner.go:409-413 | The event that stands for a slot is the newest arrival of its entity: no later arrival belongs to it. |
| EventLoop.OpensExtend | ha-lua/internal/lua/runner.go:414-418 | An arrival that opens a slot is appended to what the window will be handled as. |
| EventLoop.TakeOverExtend | ha-lua/internal/lua/runner.go:409-413 | Any other arrival replaces exactly its entity's slot and moves nothing. |
| EventLoop.SlotTableHas | ha-lua/internal/lua/runner.go:406-421 | The slot table holds exactly the entities seen in the window. |
| EventLoop.SlotTableIs | ha-lua/internal/lua/runner.go:406-421 | Each entity of the slot table is at the slot it opened. |
| EventLoop.TableExtend | ha-lua/internal/lua/runner.go:406-421 | How one arrival changes pending and the slot table, for any window: the refinement step between the mutable loop and the window's meaning. |
| EventLoop.Runner.Send | ha-lua/internal/lua/runner.go:268-278 | Never blocks: accepted exactly when the channel has room, otherwise only the drop counter changes. |
| EventLoop.Runner.Close | ha-lua/internal/lua/runner.go:283-290 | Closing changes nothing but the channel's state. |
| EventLoop.Runner.Flush | ha-lua/internal/lua/runner.go:377-384 | Handles the open window as its coalescing and leaves nothing pending and no timer armed. |
| EventLoop.Runner.HandleNow | ha-lua/internal/lua/runner.go:394-404 | An event that may not wait is handled after everything pending, which is drained ahead of it. |
| EventLoop.Runner.Batch | ha-lua/internal/lua/runner.go:406-421 | Appending to or overwriting pending keeps it equal to the coalescing of the open window, with the timer armed exactly when pending is non-empty. |
| EventLoop.Runner.Receive | ha-lua/internal/lua/runner.go:394-422 | The receive case, closed channel included, is the abstract step on windows of raw arrivals. |
| EventLoop.Runner.Expire | ha-lua/internal/lua/runner.go:423-424 | The timer case can only run with a window open, and handles exactly that window. |
| EventLoop.Runner.Interleave | ha-lua/internal/lua/runner.go:369-427 | For every interleaving of sends, receives, expiries, close and cancellation, the mutable machine ends where the functional one does. |
| EventLoop.WindowKeepsNewest | ha-lua/internal/lua/runner.go:50-67 | Every arrival of a window is represented by the slot its entity opened, and that slot holds the entity's newest arrival. |
| EventLoop.WindowHandlesEachEntityOnce | ha-lua/internal/lua/runner.go:50-67 | A window never handles an entity twice, nor an arrival twice, and keeps non-coalescing events in arrival order. |
| EventLoop.OthersKeepTheirSlot | ha-lua/internal/lua/runner.go:58-67 | An event that is not a state_changed event, or names no entity, is always handled itself. |
| EventLoop.OlderChangeIsSuperseded | ha-lua/internal/lua/runner.go:58-67 | A state_changed event is never handled once its entity has a newer one in the window. |
| EventLoop.NewestChangeIsKept | ha-lua/internal/lua/runner.go:58-67 | And always when its entity has none. |
| EventLoop.ImmediateIsHandledAtOnce | ha-lua/internal/lua/runner.go:394-404 | A timer, MQTT or syslog event, or any event of a script in immediate mode, is handled when it is received, right after all that waited. |
| EventLoop.BatchedEventWaits | ha-lua/internal/lua/runner.go:406-421 | Any other event joins the open window and nothing is handled. |
| EventLoop.WindowEndHandlesOpen | ha-lua/internal/lua/runner.go:394-398 | The window's timer and the end of a closed channel handle exactly what waited; only the latter stops the loop. |
| EventLoop.BurstFillsQueue | ha-lua/internal/lua/runner.go:268-278 | Of any burst sent while the loop does not receive, the first 256 events wait in order and the rest are dropped and counted. |
| EventLoop.CancelIsFinal | ha-lua/internal/lua/runner.go:386-388 | Once cancelled the loop handles nothing more, whatever its callers do. |
| EventLoop.ClosedLoopStops | ha-lua/internal/lua/runner.go:394-398 | After Close the loop can always receive: first every queued event, then the end, with which it stops and nothing is left. |
| EventLoop.HandledTrace | ha-lua/internal/lua/runner.go:369-427 | Over a sequence of windows: each arrival is handled once or superseded by a handled newer event of its entity, nothing twice, and only two batched events of which one coalesces may swap, so nothing batched before an immediate event is handled after it. |
| EventLoop.StepConserves | ha-lua/internal/lua/runner.go:268-278 | Every step keeps windows, open window and channel equal, in order, to what was accepted. |
| EventLoop.Conservation | ha-lua/internal/lua/runner.go:268-290 | Over every run: what is in the windows, the open window and the channel is exactly what Send accepted, and calls of Send = accepted + dropped. |
| EventLoop.StopsEmpty | ha-lua/internal/lua/runner.go:394-398 | A run that was not cancelled stops only after Close and with nothing pending or queued. |
| EventLoop.RunTrace | ha-lua/internal/lua/runner.go:369-427 | The handled trace of every run of the loop has the properties of HandledTrace over everything that left the channel. |
| EventLoop.ClosedRunDrains | ha-lua/internal/lua/runner.go:280-290 | A run ended by Close without cancellation handles, or supersedes by a newer handled event, every event Send accepted. |
| Lifecycle.StepKeepsInv | ha-lua/internal/lua/supervisor.go:117-222 | Every atomic step, whoever takes it, keeps the agreement of supervisor, registry, router, dispatches and channels. |
| Lifecycle.RunKeepsInv | ha-lua/internal/lua/supervisor.go:117-222 | The same for every interleaving of starts, loads, stops, reloads and dispatches. |
| Lifecycle.SendIsSafe | ha-lua/internal/lua/registry.go:107-120 | The channel a dispatch is about to send on has not been closed, however long the dispatch has held the read lock. |
| Lifecycle.NoSendAfterClose | ha-lua/internal/lua/runner.go:280-290 | In every run, after a channel is closed nothing is sent on it and it is not closed again. |
| Lifecycle.FreeLockAgreement | ha-lua/internal/lua/supervisor.go:186-222 | Whenever the supervisor's lock is free, its runners are the registry's, and every route entry was registered by its script's running handle. |
| Lifecycle.RoutesMidStop | ha-lua/internal/lua/supervisor.go:200-208 | The only other route entry there ever is belongs to the handle a stop is about to unregister. |
| Lifecycle.EveryHandleAccountedFor | ha-lua/internal/lua/supervisor.go:186-222 | With no stop under way every handle ever created is either running or closed, never both, never neither. |
| Lifecycle.StaleLoadRegistersNothing | ha-lua/internal/lua/supervisor.go:164-180 | A load that finishes after its script was stopped or replaced registers no routes. |
| Lifecycle.StopSection | ha-lua/internal/lua/supervisor.go:200-209 | The critical section of a stop, taken as a whole, unlinks exactly one script. |
| Lifecycle.ReloadReplaces | ha-lua/internal/lua/supervisor.go:231-234 | A reload closes the old handle's channel once, installs a fresh handle, drops the old routes, and touches no other script. |
| Lifecycle.DispatchReaches | ha-lua/internal/lua/registry.go:63-77 | A dispatch can send to every runner registered when it took the read lock, and that sends one event to it. |
| Lifecycle.DispatchConserves | ha-lua/internal/lua/registry.go:63-120 | Whatever interleaves with a dispatch, each of its runners has been sent to once or has yet to be. |
| Lifecycle.DispatchReachesEachOnce | ha-lua/internal/lua/registry.go:63-120 | So each runner registered when it began is reached exactly once, or can still be. |
| Lifecycle.LoadRegisters | ha-lua/internal/lua/supervisor.go:164-180 | A load that finishes while its handle is current gives the script that handle's routes, or drops its entry when there are none. |
| Lifecycle.AbandonedLoadRegistersNothing | ha-lua/internal/lua/supervisor.go:153-161 | A load whose context is cancelled first never registers routes, in any continuation of any run. |
| Lifecycle.EveryStopEnds | ha-lua/internal/lua/supervisor.go:186-222 | From every reachable state the steps already under way, and no others, lead to a free lock with no dispatch and nothing left to close; then exactly the handles not running have a closed channel. |
| Lifecycle.UnderWayEnds | ha-lua/internal/lua/supervisor.go:186-222 | Each such step decreases a measure, so they run out in whatever order they are taken. |
| Lifecycle.Runner.Send | ha-lua/internal/lua/runner.go:268-278 | A send requires an open channel: on a closed one it would panic. |
| Lifecycle.Runner.Close | ha-lua/internal/lua/runner.go:283-290 | So does a close. |
| Lifecycle.Supervisor.ReadRunnerIsOpen | ha-lua/internal/lua/registry.go:107-120 | In every state the protocol can reach, the runner object a dispatch read under the read lock is open. |
| Lifecycle.Supervisor.StoppedRunnerIsOpen | ha-lua/internal/lua/supervisor.go:193-213 | And so is the one a stop is about to close. |
| Lifecycle.Supervisor.CheckHandle | ha-lua/internal/lua/supervisor.go:169-173 | The runner's routes are registered only while it is still its script's current one, compared by identity. |
| Lifecycle.Supervisor.CloseChannel | ha-lua/internal/lua/supervisor.go:211-214 | Closing the runner object, outside the lock, refines the abstract close. |
| Lifecycle.Supervisor.SendTo | ha-lua/internal/lua/registry.go:63-77 | One turn of a dispatch's loop calls Send on the runner object and refines the abstract send. |
| Lifecycle.Supervisor.SendToAll | ha-lua/internal/lua/registry.go:70-77 | The loop of a dispatch sends once to each runner it read that wants the event, and to no other. |
| Lifecycle.Supervisor.Dispatch | ha-lua/internal/lua/registry.go:63-77 | A whole dispatch: every registered runner that wants the event is sent it once, no other is, and nothing else changes. |
| Lifecycle.Supervisor.Interleave | ha-lua/internal/lua/supervisor.go:117-222 | For every interleaving of the steps, on shared runner objects, no Send or Close finds its channel closed, the invariant holds, and the objects end where the abstract run does, of which DispatchReachesEachOnce says that dispatches deliver. |
| Router.TableAnswersIff | ha-lua/internal/lua/router.go:77-113 | The table a script registers answers exactly the requests for which it registered the method and a prefix of the path, and lists prefixes longest first. |
| Router.Router.Register | ha-lua/internal/lua/router.go:77-94 | Replaces the script's table by that of its specs, or drops it when there are none; other scripts keep theirs. |
| Router.Router.Unregister | ha-lua/internal/lua/router.go:96-101 | Drops exactly the script's table. |
| Router.Router.Match | ha-lua/internal/lua/router.go:103-113 | Finds a route exactly when the table answers the request. |
| Router.SplitMountInverts | ha-lua/internal/lua/router.go:115-125 | Splitting undoes mounting, for every script name without a slash and every path below it. |
| Router.SplitMountDeterminesPath | ha-lua/internal/lua/router.go:115-125 | And mounting undoes splitting: no two paths below the mount are confused. |
| StableSort.SortStable | ha-lua/internal/lua/router.go:82-84 | Sorting by a key keeps elements of equal key in order. |
| StableSort.SortSorted | ha-lua/internal/lua/router.go:82-84 | Sorting orders by the key and keeps the multiset. |
| Tracker.Tracker.HandleStateChanged | ha-lua/internal/state/tracker.go:322-348 | A change replaces the mirror's entry and enqueues its row; a removal drops the entry and enqueues nothing. |
| Tracker.Tracker.Merge | ha-lua/internal/state/tracker.go:226-257 | The loop under the lock computes the merged mirror and the rows to append as functions of the mirror it finds, the baseline and the batch. |
| Tracker.Tracker.HistoryBaseline | ha-lua/internal/state/tracker.go:270-294 | The newest committed row per entity. |
| Tracker.Tracker.Seed | ha-lua/internal/state/tracker.go:208-268 | An empty batch changes nothing; otherwise the mirror becomes the merge and its rows join the queue. |
| Tracker.Tracker.CommitBatch | ha-lua/internal/state/tracker.go:99-163 | The writer moves a prefix of the queue, in order, to the end of history. |
| Tracker.Tracker.Perform | ha-lua/internal/state/tracker.go:83-163 | Every sequence of seeds, changes and commits leaves mirror, queue and history where the abstract run does. |
| Tracker.MergeMemAt | ha-lua/internal/state/tracker.go:226-257 | After a merge each entity of the batch is what its last record leaves: that record, or the live entry when it is newer. |
| Tracker.MergeMemOnly | ha-lua/internal/state/tracker.go:226-257 | And the mirror holds no other entity. |
| Tracker.MergeRowsAre | ha-lua/internal/state/tracker.go:236-256 | The appended rows are those of exactly the records that survive and differ from what the baseline or the mirror held, once each and in batch order. |
| Tracker.SeedKeepsMirror | ha-lua/internal/state/tracker.go:208-268 | A seed of a consistent batch keeps the newest row of every mirrored entity equal to the mirror, if a cold seed finds no queued row that outdates what committed history shows for a record. |
| Tracker.ColdSeedKeepsMirrorIff | ha-lua/internal/state/tracker.go:213-268 | Whatever is queued, a cold seed of a consistent batch leaves mirror and newest rows in agreement if and only if each record that committed history already shows is also shown by history followed by the queue. |
| Tracker.DrainedFits | ha-lua/internal/state/tracker.go:213-224 | A drained queue always meets that condition. |
| Tracker.InconsistentSeedBreaksMirror | ha-lua/internal/state/tracker.go:226-257 | For every inconsistent batch there is a tracker in agreement that the seed puts out of agreement. |
| Tracker.SeedKeepsMirrorIffConsistent | ha-lua/internal/state/tracker.go:208-268 | So a seed keeps the agreement of every warm tracker exactly when records of one entity agree in value and the last is not older than the others. |
| Tracker.UniqueIdsAreConsistent | ha-lua/internal/state/tracker.go:208-268 | Batches of distinct entity ids, which is what HA sends, are always consistent and replayable. |
| Tracker.StepKeepsMirror | ha-lua/internal/state/tracker.go:322-348 | Every operation keeps the agreement between mirror and rows, under the same condition on cold seeds. |
| Tracker.RunKeepsMirror | ha-lua/internal/state/tracker.go:83-163 | In every serialised run of consistent seeds, changes, removals and commits, whose cold seeds find no queued row outdating history, the newest row of each mirrored entity in history followed by the queue carries the mirror's state and attributes. |
| Tracker.ChangeIsMirrored | ha-lua/internal/state/tracker.go:322-348 | After a change the mirror holds its entity with the new state, stamp and attributes, absent ones as an empty object; every other entity is as before; one row that says so is queued. |
| Tracker.RemovalIsMirrored | ha-lua/internal/state/tracker.go:322-339 | After a removal its entity is gone and every other as before; a payload that does not decode changes nothing. |
| Tracker.LastChangeShows | ha-lua/internal/state/tracker.go:322-362 | Whatever happens to other entities and to the queue, the mirror goes on showing an entity's last change. |
| Tracker.CommitMovesOldest | ha-lua/internal/state/tracker.go:99-163 | A commit of n rows moves the n oldest, or all there are, and does not touch the mirror. |
| Tracker.SeedLeaves | ha-lua/internal/state/tracker.go:226-257 | A seed leaves an entity its live entry if both stamps are instants and the live one is later, and otherwise the last record with its attributes normalised. |
| Tracker.SeedForgets | ha-lua/internal/state/tracker.go:202-211 | Entities a batch does not name are dropped; an empty batch changes nothing. |
| Tracker.SeedEnqueuesIff | ha-lua/internal/state/tracker.go:236-266 | A record's row is queued exactly when no later live entry survives it and its value differs from the live entry's or, on a cold start, from the newest committed row's. |
| Tracker.NewestRowIff | ha-lua/internal/state/tracker.go:270-294 | The baseline of an entity is the last row written for it. |
| Tracker.HistoryIsEnqueueOrder | ha-lua/internal/state/tracker.go:83-163 | In every run committed history only grows, and history followed by the queue is the enqueue order. |
| Tracker.UndrainedColdSeedLosesARow | ha-lua/internal/state/tracker.go:208-225 | A concrete run whose cold seed skips a row it needed. |
| SeedRaces.MoveKeepsSafeIff | ha-lua/internal/state/tracker.go:208-268 | With the seeding, event and writing goroutines interleaved at their locks, from a state in which every row on its way suits the mirror, a move leads to such a state if and only if it is careful: a change finds no different row of its entity waiting in the seed, a merge no different change waiting to be enqueued and no skipped record outdated. |
| SeedRaces.MergeKeepsIff | ha-lua/internal/state/tracker.go:235-257 | The same for a merge and one record, whatever was committed or applied since the seed read its baseline. |
| SeedRaces.WriteKeepsIff | ha-lua/internal/state/tracker.go:341-346 | The same for a change. |
| SeedRaces.OtherMovesKeep | ha-lua/internal/state/tracker.go:165-179 | Enqueueing, committing, looking, reading and removing never spoil it. |
| SeedRaces.SafeIffEveryFinishAgrees | ha-lua/internal/state/tracker.go:257-266 | That condition on a state means exactly this: in whatever order the goroutines enqueue their rows, the entity's newest row carries what the mirror holds. |
| SeedRaces.FinishingLeaves | ha-lua/internal/state/tracker.go:264-266 | Each such order is a run of the goroutines that leaves them idle, the mirror as it was, and those rows. |
| SeedRaces.CarefulRunStaysSafe | ha-lua/internal/state/tracker.go:208-268 | Over every interleaved run of careful moves from a restart, mirror and newest rows agree whenever nothing is on its way. |
| SeedRaces.SerialMergeIsCareful | ha-lua/internal/state/tracker.go:213-257 | A merge no event overlaps is careful, if what a cold seed read is not outdated by a queued row. |
| SeedRaces.SerialSeed | ha-lua/internal/state/tracker.go:208-268 | A seed whose moves nothing comes between is the seed taken as one step. |
| SeedRaces.SerialChange | ha-lua/internal/state/tracker.go:322-348 | A change whose two moves nothing comes between is the change taken as one step. |
| SeedRaces.SerialCommit | ha-lua/internal/state/tracker.go:139-163 | A commit is the commit of the one-step model. |
| SeedRaces.OvertakenRowEndsHistory | ha-lua/internal/state/tracker.go:257-266 | A concrete run: a change enqueued between a re-seed's merge and its row leaves history ending with the older value. |
| Tracker.SecondSeedKeepsMirror | ha-lua/internal/state/tracker.go:226-257 | Seeding the same batch twice leaves the mirror as once did, for every batch and mirror. |
| Tracker.SecondSeedIsSilentIffReplayable | ha-lua/internal/state/tracker.go:208-257 | The second seed appends no row, from any mirror, exactly when no earlier record of an entity would be installed over its last one and differ from it. |
| Tracker.SeedIsIdempotent | ha-lua/internal/state/tracker.go:208-268 | On the whole store two seeds of one replayable batch in succession leave what one leaves. |
| Tracker.MergeHasBatchIds | ha-lua/internal/state/tracker.go:251-257 | Whatever the mirror holds by the time the merge runs, the result has exactly the batch's entities. |
| Tracker.MergeNeverRegresses | ha-lua/internal/state/tracker.go:296-309 | And no entity on both sides with parseable stamps ends with an older last_updated, events between the cold check and the merge included. |
| HistoryAggregates.ReadHistory | ha-lua/internal/state/tracker.go:425-478 | The two queries and the loop over their rows yield the opening state, the points of the window, and whether the opening state is known. |
| HistoryAggregates.DurationInState | ha-lua/internal/state/tracker.go:480-503 | The accumulator loop computes the number of instants of the window at which the step function has the state. |
| HistoryAggregates.WindowShowsHistory | ha-lua/internal/state/tracker.go:425-478 | From since on, the window's step function is that of the entity's whole history. |
| HistoryAggregates.PointsInWindow | ha-lua/internal/state/tracker.go:455-478 | Points are ascending and none lies before since; rows truncated into the opening second are clamped. |
| HistoryAggregates.WindowSplits | ha-lua/internal/state/tracker.go:432-478 | The rows are split where the second of since begins: the last one before it is the opening state, all later ones are points, clamped to since. |
| HistoryAggregates.StateAtIs | ha-lua/internal/state/tracker.go:425-431 | The state in force is that of the newest point at or before the instant, the opening state before all of them. |
| HistoryAggregates.MeasureCounts | ha-lua/internal/state/tracker.go:480-503 | The measure is the number of instants of the window at which the step function has the state. |
| HistoryAggregates.DurationReachesLastRow | ha-lua/internal/state/tracker.go:480-503 | For any recorded rows the answer is the whole history's measure from since to now, or to the last row when that is later than the clock. |
| HistoryAggregates.DurationIsMeasure | ha-lua/internal/state/tracker.go:480-503 | For recorded rows none of which is after now, the answer is the measure of instants in [since, now] the whole history spends in the state. |
| HistoryAggregates.DurationIsAdditive | ha-lua/internal/state/tracker.go:480-503 | Splitting the window at any instant, each half asked at its own time, adds up to the whole. |
| HistoryAggregates.DurationsFillWindow | ha-lua/internal/state/tracker.go:480-503 | The durations of all states, the unknown opening stretch included, sum to now - since. |
| HistoryAggregates.UnknownOpeningIsLowerBound | ha-lua/internal/state/tracker.go:425-431 | With an unknown opening state the answer for a real state is a lower bound for every possible opening state, and exact unless it was that state. |
| HistoryAggregates.CompleteIff | ha-lua/internal/state/tracker.go:432-454 | The answer is reported complete exactly when some row lies in a second before since's. |
| HistoryAggregates.CountChanges | ha-lua/internal/state/tracker.go:505-532 | The counting loop counts the states entered. |
| HistoryAggregates.CountsAddUp | ha-lua/internal/state/tracker.go:505-532 | Counting state by state adds up to counting all. |
| HistoryAggregates.EnteredAre | ha-lua/internal/state/tracker.go:505-532 | Counted are exactly the points whose state differs from the one before, the opening state coming before the first; the first always counts when that is unknown. |
| HistoryAggregates.EnteredAlternates | ha-lua/internal/state/tracker.go:505-532 | No state is entered twice in a row. |
| HistoryAggregates.RepeatedRowCountsNothing | ha-lua/internal/state/tracker.go:505-532 | Removing a row that repeats the state before it changes no count. |
| Timestamps.HATextOrder | ha-lua/internal/state/tracker.go:387-401 | On the form HA writes, comparing texts is comparing instants, and equal instants are equal texts. |
| Timestamps.TextOrder | ha-lua/internal/state/tracker.go:387-401 | With any optional six-digit fraction, text order is chronological but for one case: a zero fraction sorts after no fraction at the same instant. |
| Timestamps.BoundSplitsBySecond | ha-lua/internal/state/tracker.go:387-401 | A row's text is below the bound exactly when its second is before the bound's. |
| Timestamps.QueriesPartition | ha-lua/internal/state/tracker.go:432-476 | So the opening-state query and the window query partition an entity's rows by second, as ReadHistory's model assumes. |
| Timestamps.ZonedBoundSplits | ha-lua/internal/purge/purge.go:72-79 | Against a bound with a 'Z' after it, a row's text is below exactly when its second is not after the bound's. |
| Timestamps.DateTimeHolds | ha-lua/internal/state/tracker.go:394-401 | The text shows each field in its place: four digits of the year, two of each other, and the separators. |
| Timestamps.TextHolds | ha-lua/internal/state/tracker.go:394-401 | A row's text is the bound's form, then the fraction in six digits if there is one, then the zone. |
| Timestamps.DateOrder | ha-lua/internal/state/tracker.go:387-401 | An earlier calendar date is an earlier day number, leap years included. |
| Timestamps.DaysAreConsecutive | ha-lua/internal/state/tracker.go:387-401 | Day numbers count days without a gap across months and years. |
| Timestamps.LeapDays | ha-lua/internal/state/tracker.go:387-401 | A year begins after 365 days for each year before it and one for each leap year of the Gregorian rule. |
| Timestamps.CalendarIsGregorian | ha-lua/internal/state/tracker.go:387-401 | The lengths of the months. |
| Timestamps.EpochDay | ha-lua/internal/state/tracker.go:387-401 | Of that calendar 1970 begins on day 719528. |
| Timestamps.SecondOrder | ha-lua/internal/state/tracker.go:387-401 | Comparing fields from the year down is comparing seconds. |
| Scheduler.Clock.ParseInterval | ha-lua/internal/scheduler/scheduler.go:335-344 | A recurring interval is positive. |
| Scheduler.Clock.NextAtIsFirst | ha-lua/internal/scheduler/scheduler.go:346-360 | A daily timer's next run is the first instant after now at which the zone's wall clock shows its minute. |
| Scheduler.Clock.NextIsLater | ha-lua/internal/scheduler/scheduler.go:301-333 | A rescheduled deadline is strictly after now, however many intervals were missed. |
| Scheduler.RearmedEvery | ha-lua/internal/scheduler/scheduler.go:301-331 | An interval timer that fires is reported and due again its interval after now; one whose interval does not parse or is not positive is dropped. |
| Scheduler.RearmedAt | ha-lua/internal/scheduler/scheduler.go:301-331 | A daily one is reported and due again at the first instant after now at which the clock shows its time; one whose time does not parse is dropped. |
| Scheduler.RearmedAfter | ha-lua/internal/scheduler/scheduler.go:301-307 | A one-shot is reported and not due again. |
| Scheduler.RootIsEarliest | ha-lua/internal/scheduler/scheduler.go:42-55 | In a heap in order the root is earliest. |
| Scheduler.Scheduler.Up | ha-lua/internal/scheduler/scheduler.go:42-55 | Sifting up restores heap order and keeps the multiset. |
| Scheduler.Scheduler.Down | ha-lua/internal/scheduler/scheduler.go:42-55 | Sifting down restores heap order from a node and keeps the multiset and everything past the heap. |
| Scheduler.Scheduler.Push | ha-lua/internal/scheduler/scheduler.go:42-55 | Adds one timer, keeping heap order. |
| Scheduler.Scheduler.Pop | ha-lua/internal/scheduler/scheduler.go:42-55 | Removes the root, keeping heap order. |
| Scheduler.Scheduler.Init | ha-lua/internal/scheduler/scheduler.go:208-220 | Re-heapifying any slice orders it and keeps the multiset. |
| Scheduler.Scheduler.Insert | ha-lua/internal/scheduler/scheduler.go:229-258 | A stored row wins over the new deadline, so a deadline missed while down is still due; heap and table stay in agreement if the id is new to the heap and a row found is the timer's own. |
| Scheduler.Scheduler.RegisterEvery | ha-lua/internal/scheduler/scheduler.go:144-155 | Registration is refused exactly when the interval does not parse, and then changes nothing; otherwise the timer is in the heap under its stable id. |
| Scheduler.Scheduler.RegisterAt | ha-lua/internal/scheduler/scheduler.go:157-166 | The same for a daily timer. |
| Scheduler.Scheduler.RegisterAfter | ha-lua/internal/scheduler/scheduler.go:168-183 | The same for a one-shot, under a random id. |
| Scheduler.StableIdsDiffer | ha-lua/internal/scheduler/scheduler.go:144-166 | Two recurring timers share an id only if script, kind, spec and number are the same, whatever characters the script's name has. |
| Scheduler.OneShotIdsDiffer | ha-lua/internal/scheduler/scheduler.go:168-183 | No one-shot has a recurring timer's id. |
| Scheduler.StoredRowIsOwn | ha-lua/internal/scheduler/scheduler.go:229-247 | So the row a recurring timer finds under its id is its own. |
| Scheduler.RegistrationKeepsOldRow | ha-lua/internal/scheduler/scheduler.go:228-247 | A registration writes the timer's row under a new id and leaves an existing row alone. |
| Scheduler.ReloadKeepsDeadline | ha-lua/internal/scheduler/scheduler.go:147-158 | So a recurring timer keeps its row and deadline across any stop and reload of its script. |
| Scheduler.IdsAre | ha-lua/internal/scheduler/scheduler.go:150-183 | The ids as they are written. |
| Scheduler.Scheduler.FilterInPlace | ha-lua/internal/scheduler/scheduler.go:208-220 | The in-place filter keeps exactly the other scripts' timers, in slice order. |
| Scheduler.Scheduler.RemoveScript | ha-lua/internal/scheduler/scheduler.go:201-227 | After removal the heap, in order, holds exactly the other scripts' timers, and the script's one-shot rows are gone. |
| Scheduler.StopKeepsRecurringRows | ha-lua/internal/scheduler/scheduler.go:204-226 | Stopping a script removes exactly its one-shots' rows. |
| Scheduler.Scheduler.Fire | ha-lua/internal/scheduler/scheduler.go:297-333 | One fire updates the row, pushes the rescheduled timer back if there is one, and reports to the script; both branches are modelled. |
| Scheduler.Scheduler.FireDue | ha-lua/internal/scheduler/scheduler.go:287-294 | Pops and fires exactly the due timers, once each, in deadline order, puts every recurring one back at its interval from now or at its next time of day, and leaves only later deadlines. |
| Scheduler.FiredRowIs | ha-lua/internal/scheduler/scheduler.go:301-327 | After a pass the row of a fired one-shot is gone, that of a recurring timer says it ran now and carries its next deadline. |
| Scheduler.OtherRowsStay | ha-lua/internal/scheduler/scheduler.go:301-327 | The rows of timers that did not fire are as before. |
| Scheduler.FiresIffParses | ha-lua/internal/scheduler/scheduler.go:301-333 | A popped timer reaches its script exactly when it is a one-shot or its spec parses, is rescheduled exactly when it is recurring and its spec parses, and still parses then. |
| Scheduler.ParsedTimersFire | ha-lua/internal/scheduler/scheduler.go:318-323 | Since every timer in the heap was registered, the branch that drops a timer is dead: all popped timers are reported. |
| Scheduler.EachDueReportedOnce | ha-lua/internal/scheduler/scheduler.go:287-295 | With heap and table in agreement the reports of a pass have no repetition and name exactly the due timers. |
| Scheduler.BackedFilter | ha-lua/internal/scheduler/scheduler.go:208-227 | Removing a script keeps every remaining heap entry backed by its row. |
| Scheduler.BackedHaveDistinctIds | ha-lua/internal/scheduler/scheduler.go:301-333 | Entries backed by rows have distinct ids. |
| LuaJson.LuaState.AnyToLua | ha-lua/internal/lua/json.go:95-121 | Builds, from fresh tables only, a structure representing the value, with null elements left as holes. |
| LuaJson.LuaState.ToAnyDepth | ha-lua/internal/lua/json.go:24-44 | Converts by depth-limited case analysis and terminates on every heap, cyclic ones included. |
| LuaJson.LuaState.TableToAnyDepth | ha-lua/internal/lua/json.go:46-93 | Converts a table as array or object, stopping at the first element that fails. |
| LuaJson.LuaState.LooksLikeArray | ha-lua/internal/lua/json.go:52-62 | The counting loop decides the branch test. |
| LuaJson.LuaState.ItemsToAny | ha-lua/internal/lua/json.go:63-71 | The array loop converts indexes 1 to n in order. |
| LuaJson.LuaState.FieldsToAny | ha-lua/internal/lua/json.go:75-92 | The object loop keeps the last value of each key's text. |
| LuaJson.ArrayIffKeysAreIndexes | ha-lua/internal/lua/json.go:50-73 | The array branch is taken exactly when the key set is 1..n with n > 0 (by counting: as many distinct keys as indexes). |
| LuaJson.ConvertsIff | ha-lua/internal/lua/json.go:13-44 | Conversion succeeds exactly when no function or userdata is within reach and no chain of tables is longer than the limit allows. |
| LuaJson.PlainValues | ha-lua/internal/lua/json.go:26-44 | Plain values convert to themselves; functions, userdata and a table below a hundred others are the two errors. |
| LuaJson.FirstBadItemDecides | ha-lua/internal/lua/json.go:63-70 | The first element of an array that cannot be converted decides the error. |
| LuaJson.FirstBadFieldDecides | ha-lua/internal/lua/json.go:75-92 | And the first field of an object. |
| LuaJson.CycleIsAnError | ha-lua/internal/lua/json.go:13-26 | Converting any table from which a cycle can be reached is an error. |
| LuaJson.CycleGivesLongChain | ha-lua/internal/lua/json.go:13-26 | A cycle gives chains of any length. |
| LuaJson.RoundTripIff | ha-lua/internal/lua/json.go:17-121 | Converting back what anyToLua built gives the value again exactly when it nests at most the limit, has no null inside a container and no empty array. |
| LuaJson.JsonRoundTripIff | ha-lua/internal/lua/json.go:13-121 | From the top the limit is a hundred nested containers. |
| LuaJson.IndexingArray | ha-lua/internal/lua/json.go:105-111 | A script finds element i of a decoded array at index i + 1, a null leaving its index unset. |
| LuaJson.IndexingObject | ha-lua/internal/lua/json.go:112-117 | And each field under its name, a null one not at all. |
| LuaJson.ArrayYields | ha-lua/internal/lua/json.go:63-71 | What the array branch yields, element by element. |
| LuaJson.ObjectYields | ha-lua/internal/lua/json.go:75-92 | What the object branch yields when every key is a string of its own. |
| LuaJson.ObjectOtherwise | ha-lua/internal/lua/json.go:49-93 | A table whose keys are not 1..n converts to the object of its fields. |
| LuaJson.FieldsAre | ha-lua/internal/lua/json.go:75-92 | Keys become fields as the runtime spells them, strings as they are, numbers printed, others as nothing; entries spelled alike leave the last one's value. |
| LuaJson.OnlySpelledFields | ha-lua/internal/lua/json.go:75-92 | And there are no other fields. |
| ScheduleEditor.EntriesFromSchedule | ha-lua/cards/enhanced-climate-card.js:337-369 | The loops over days and transitions produce every transition's group entries, sorted stably by time. |
| ScheduleEditor.CollapseDays | ha-lua/cards/enhanced-climate-card.js:354-365 | The loop over groups takes each group that fits the days left, then single days. |
| ScheduleEditor.ScheduleFromEntries | ha-lua/cards/enhanced-climate-card.js:371-383 | The loop pushes each entry onto its group's days and sorts every day by time. |
| ScheduleEditor.CollapseCovers | ha-lua/cards/enhanced-climate-card.js:354-365 | The groups a transition collapses to cover each of its days once and no other day. |
| ScheduleEditor.CollapseUsesLargestGroups | ha-lua/cards/enhanced-climate-card.js:221-232 | A group is used exactly when all its days are there and no larger group takes them. |
| ScheduleEditor.CollapsedIff | ha-lua/cards/enhanced-climate-card.js:337-369 | A transition is shown as Mon-Sun when all days have it, as Mon-Fri or Sat-Sun when just those all do, else as each single day that has it and is not covered so; under nothing else, and by time. |
| ScheduleEditor.ExpandedIff | ha-lua/cards/enhanced-climate-card.js:371-383 | A transition is on a day of the expanded schedule exactly when some entry of its time and value covers that day; days are sorted by time. |
| ScheduleEditor.OnDayAre | ha-lua/cards/enhanced-climate-card.js:371-380 | Entries land on a day once each and in entry order; those of an unknown group nowhere. |
| ScheduleEditor.RoundTripDay | ha-lua/cards/enhanced-climate-card.js:337-383 | A day comes back as its transitions in order of first appearance in the week, sorted by time. |
| ScheduleEditor.RoundTripKeepsDays | ha-lua/cards/enhanced-climate-card.js:337-383 | Every day comes back with exactly its distinct transitions, each once, sorted by time. |
| ScheduleEditor.CanonicalIsUnique | ha-lua/cards/enhanced-climate-card.js:337-383 | A day's transitions have one canonical arrangement. |
| ScheduleEditor.RoundTripIsIdentityIff | ha-lua/cards/enhanced-climate-card.js:337-383 | The round trip is the identity exactly on schedules whose days are in canonical order. |
| ScheduleEditor.RoundTripKeepsIncreasing | ha-lua/cards/enhanced-climate-card.js:337-383 | In particular on those whose days are strictly increasing in time. |
| ScheduleEditor.RoundTripKeepsTies | ha-lua/cards/enhanced-climate-card.js:337-383 | Transitions of equal time keep their order of first appearance. |
| ScheduleEditor.RoundTripIsIdempotent | ha-lua/cards/enhanced-climate-card.js:337-383 | Repeating the round trip changes nothing, for every schedule. |
| HaClient.StepKeepsInv | ha-lua/internal/ha/client.go:222-278 | Every step of sending, reading, delivering, draining and giving up keeps pending, channels and commands in agreement. |
| HaClient.RunKeepsInv | ha-lua/internal/ha/client.go:154-278 | The same for every interleaving across any number of connections. |
| HaClient.VerdictIsFinal | ha-lua/internal/ha/client.go:154-179 | Once a waiter has a verdict no later step changes it. |
| HaClient.AnswersComeFromFrames | ha-lua/internal/ha/client.go:248-278 | Every answer, buffered or taken, was carried by a result frame with the waiter's own id. |
| HaClient.LossesAreReal | ha-lua/internal/ha/client.go:335-354 | A connection-loss verdict is only ever given to commands of a connection that is gone. |
| HaClient.PendingNeedsConnection | ha-lua/internal/ha/client.go:222-246 | Commands are pending only while a connection is published, and only that connection's. |
| HaClient.DrainSettlesEveryCommand | ha-lua/internal/ha/client.go:340-354 | After the drain every command of the lost connection has a verdict buffered or its waiter is done. |
| HaClient.AnswerReaches | ha-lua/internal/ha/client.go:248-278 | The result frame of a waiting command becomes its answer, whatever other steps come in between, unless the waiter gives up. |
| HaClient.LossReaches | ha-lua/internal/ha/client.go:335-354 | If its connection is lost first, the command is told so, whatever comes in between, unless the waiter gives up. |
| HaClient.SentCommandWaits | ha-lua/internal/ha/client.go:222-240 | A command sent over a connection is registered under an empty channel of its own and, once written, waits. |
| HaClient.FailedSendLeavesNothing | ha-lua/internal/ha/client.go:233-246 | One that cannot be written is not registered any more. |
| HaClient.OfflineSendLeavesNothing | ha-lua/internal/ha/client.go:226-231 | Without a connection nothing is registered. |
| HaClient.GivingUpIsFinal | ha-lua/internal/ha/client.go:164-183 | A waiter whose timer fires or whose context ends has that verdict for good. |
| HaClient.UnawaitedFrameIsDropped | ha-lua/internal/ha/client.go:248-262 | A frame nobody waits for, or whose command was forgotten, changes nothing. |
| HaClient.DrainEnds | ha-lua/internal/ha/client.go:335-354 | The drain ends after a turn per channel, leaving every command as it is, and the client can connect again. |
| HaClient.Chan.Offer | ha-lua/internal/ha/client.go:248-278 | A send on a waiter's one-slot channel never blocks and never overwrites what is there. |
| HaClient.Client.Send | ha-lua/internal/ha/client.go:222-240 | Without a connection nothing is registered and the caller is told so; otherwise a fresh channel is shared between waiter and pending table. |
| HaClient.Client.DeliverResult | ha-lua/internal/ha/client.go:248-278 | A result frame of an unknown id changes nothing; otherwise its waiter's channel is taken. |
| HaClient.Client.PutResult | ha-lua/internal/ha/client.go:248-278 | The send into the waiter's one-slot channel never blocks and never overwrites. |
| HaClient.Client.UnpublishConn | ha-lua/internal/ha/client.go:340-346 | The connection and all pending commands are taken away in one critical section. |
| HaClient.Client.FailNext | ha-lua/internal/ha/client.go:347-354 | The drain offers each left command its loss. |
| HaClient.Client.Receive | ha-lua/internal/ha/client.go:165-179 | The waiter's verdict is what its channel held. |
| HaClient.Client.ForgetCommand | ha-lua/internal/ha/client.go:242-246 | Forgetting removes exactly one pending command. |
| HaClient.Client.Interleave | ha-lua/internal/ha/client.go:154-278 | For every interleaving of the steps, on channel objects shared by waiters, pending table and connection, the client ends where the abstract run does. |
| HaClient.FreshIs | ha-lua/internal/ha/client.go:370-391 | The subscribe phase's list has exactly the types not yet subscribed, none twice. |
| HaClient.Subscriptions.AddEventType | ha-lua/internal/ha/client.go:101-128 | A new type is remembered, and decided on at once exactly when there is a connection not yet subscribed to it; no type is decided on twice on a connection. |
| HaClient.Subscriptions.SubscribePhase | ha-lua/internal/ha/client.go:370-386 | The critical section decides on exactly the known types not yet subscribed, and leaves their writes to come. |
| HaClient.Subscriptions.FilterNew | ha-lua/internal/ha/client.go:374-386 | The in-place filter computes that list and marks its types subscribed. |
| HaClient.Subscriptions.Write | ha-lua/internal/ha/client.go:120-127 | Writes happen after the lock, in any order, on a connection that may be gone, and may fail; none is made twice. |
| HaClient.Subscriptions.SubscribedExactlyOnce | ha-lua/internal/ha/client.go:366-391 | Once a connection's writes have all succeeded it has subscribed exactly the known types, each once. |
| NameMirror.StepKeepsInv | ha-lua/internal/ha/names.go:83-141 | Every step of a notifier, of HA or of the refetch loop keeps: a stale flag has somebody on the way to it, and each mirror has caught up, is due, or failed last. |
| NameMirror.RunKeepsInv | ha-lua/internal/ha/names.go:83-129 | The same in every reachable interleaving. |
| NameMirror.NoChangeIsLost | ha-lua/internal/ha/names.go:83-129 | While no fetch fails, each mirror is at least as new as every announced change or a refetch of it is due, and a stale flag implies a signal, an armed timer, a notifier about to signal, or a pass not yet past it. |
| NameMirror.MirrorNeverRegresses | ha-lua/internal/ha/names.go:131-141 | No mirror goes back to an older version of its registry. |
| NameMirror.OwnStepsEnd | ha-lua/internal/ha/names.go:106-129 | The loop's own steps decrease a measure, so without new changes it comes to rest. |
| NameMirror.QuietMeansCaughtUp | ha-lua/internal/ha/names.go:106-129 | At rest every mirror has caught up with everything announced, unless its last fetch failed. |
| NameMirror.EveryChangeArrives | ha-lua/internal/ha/names.go:83-129 | From every reachable state the loop's own steps alone reach a state in which every announced change has arrived, and add no failure. |
| NameMirror.ChangeArrives | ha-lua/internal/ha/names.go:83-129 | For a registry that changes and is announced, whatever follows short of a failing fetch, the loop's own steps then bring a mirror at least that new. |
| NameMirror.Names.Changed | ha-lua/internal/ha/names.go:83-96 | Each of the three event types makes its own registry stale and no other, and the signal is raised; other types change nothing. |
| NameMirror.Names.ChangedAll | ha-lua/internal/ha/names.go:98-104 | Every registry is stale and the signal is up. |
| NameMirror.Names.Pass | ha-lua/internal/ha/names.go:116-125 | The loop of an undisturbed pass clears every flag and refetches exactly the stale registries, keeping an old value only where a fetch fails; it is a run of the abstract steps. |
| NameMirror.Names.Interleave | ha-lua/internal/ha/names.go:83-141 | For every interleaving of the steps the mirror's fields end where the abstract run does. |
| RegexCache.RecencyIs | ha-lua/internal/lua/stdlib_re.go:12-20 | The recency list of a history of lookups holds exactly the patterns looked up that compile, none twice. |
| RegexCache.RecencyOrder | ha-lua/internal/lua/stdlib_re.go:21-43 | It is ordered by last use. |
| RegexCache.CachedIff | ha-lua/internal/lua/stdlib_re.go:21-43 | A pattern is among the first n of it exactly when it was looked up, compiles, and fewer than n other patterns were used since. |
| RegexCache.HeldIff | ha-lua/internal/lua/stdlib_re.go:17-43 | The cache holds exactly the patterns looked up that compile and have fewer than 256 others used since. |
| RegexCache.HitMovesToFront | ha-lua/internal/lua/stdlib_re.go:22-30 | Moving a cached pattern to the front is what a lookup does to the recency list, whatever the cache has dropped. |
| RegexCache.MissDropsOldest | ha-lua/internal/lua/stdlib_re.go:32-42 | Dropping the last and prepending is what a lookup of an uncached pattern does to the recency list. |
| RegexCache.Cache.Get | ha-lua/internal/lua/stdlib_re.go:21-43 | After any sequence of lookups the cache is the first 256 of the recency list, and every lookup returns what compiling the pattern afresh would. |
| RegexCache.Cache.Shift | ha-lua/internal/lua/stdlib_re.go:24-27 | The in-place shift moves one entry to the front and the others by one. |
| MqttTopic.SplitIs | ha-lua/internal/mqtt/topic.go:19 | Levels hold no separator and joined give the text back. |
| MqttTopic.LevelsIff | ha-lua/internal/mqtt/topic.go:15-33 | Checking level by level is checking the standard's rule character by character. |
| MqttTopic.ValidateFilter | ha-lua/internal/mqtt/topic.go:11-33 | Accepts exactly the filters in which each wildcard occupies a whole level and '#' is the last character. |
| MqttTopic.LegalIff | ha-lua/internal/mqtt/topic.go:15-33 | Legal filters by their levels: one with a '+' is just that, one with a '#' just that and the last. |
| MqttTopic.Match | ha-lua/internal/mqtt/topic.go:35-63 | On every filter, legal or not, and every topic the iterative matcher equals the recursive level-by-level meaning. |
| MqttTopic.MatchLevels | ha-lua/internal/mqtt/topic.go:51-63 | The level loop, on any levels. |
| MqttTopic.MatchesStandard | ha-lua/internal/mqtt/topic.go:35-63 | On legal filters that meaning is the standard's: '#' matches its parent level and all below it, and a leading wildcard no topic beginning with '$'. |
| MqttTopic.MatchesWithoutHash | ha-lua/internal/mqtt/topic.go:47-63 | Without a '#' a filter matches the topics of as many levels, each equal to its own or under a '+'. |
| MqttTopic.MatchesWithHash | ha-lua/internal/mqtt/topic.go:47-63 | With one it matches the topics that agree so with the levels before it, whatever follows. |
| MqttTopic.RootWildcardHides | ha-lua/internal/mqtt/topic.go:44-49 | Topics beginning with '$' stay hidden from a wildcard at the root. |
| MqttTopic.MatchesItself | ha-lua/internal/mqtt/topic.go:38-41 | The equality fast path never disagrees, for any filter. |
| MqttTopic.HashMatchesSubtree | ha-lua/internal/mqtt/topic.go:35-37 | p/# matches exactly the topics of which p matches a prefix of whole levels. |
| Syslog.ElementEnd | ha-lua/internal/syslog/parse.go:101-117 | The scanning loop finds where the element's automaton closes. |
| Syslog.SkipStructuredData | ha-lua/internal/syslog/parse.go:87-99 | The skipping loop, which terminates because each element is consumed. |
| Syslog.ElementEndIff | ha-lua/internal/syslog/parse.go:101-117 | The scan consumes exactly a printed element, whatever its parameter values and whether or not the sender escapes brackets in them, if and only if it has a parameter or its id does not end in an odd run of backslashes. |
| Syslog.AfterEscape | ha-lua/internal/syslog/parse.go:101-117 | A bracket inside a quoted value closes nothing, whether its sender escapes it or not. |
| Syslog.BackslashIdRunsOn | ha-lua/internal/syslog/parse.go:101-117 | A concrete element that swallows the message after it. |
| Syslog.SkipPrinted | ha-lua/internal/syslog/parse.go:87-99 | Skipping takes off exactly the printed elements unless the last one runs on into the message, of which it then takes at least everything up to the first ']'. |
| Syslog.RoundTrip | ha-lua/internal/syslog/parse.go:33-99 | Printing an RFC 5424 message and parsing it returns its priority and host always, and its text if and only if the text is empty or the last element closes. |
| Syslog.PriorityPrinted | ha-lua/internal/syslog/parse.go:57-70 | Every printed priority up to 191 is cut off and read back. |
| Syslog.SignedNumbers | ha-lua/internal/syslog/parse.go:65-69 | A priority may carry a sign, but needs digits. |
| Text.NumbersAreDecimal | ha-lua/internal/syslog/parse.go:65-69 | Numbers are read in decimal, and only from digits. |
| Syslog.HeaderPrinted | ha-lua/internal/syslog/parse.go:72-85 | Every printed header yields its host and what follows the structured data. |
| Syslog.HeaderIff | ha-lua/internal/syslog/parse.go:72-85 | For any fields, a header is version 1, a nil or RFC 3339 time and at least four more fields; its host, and what is left, in every case. |
| Syslog.FieldsOf | ha-lua/internal/syslog/parse.go:72-85 | And every text is such fields, so that covers every input. |
| Syslog.BSDRoundTrip | ha-lua/internal/syslog/parse.go:119-148 | Printing a message with the older header, under either kind of date, and parsing it returns priority, host and text; a word that ends in a colon or holds a bracket stays in the text and leaves the host empty. |
| Syslog.BareBSDRoundTrip | ha-lua/internal/syslog/parse.go:33-53 | The same without a priority, which is then -1. |
| Syslog.OneWordAfterStamp | ha-lua/internal/syslog/parse.go:140-148 | A date and a single word is that word, without a host. |
| Syslog.UnrecognisedIsText | ha-lua/internal/syslog/parse.go:33-53 | A datagram with neither a priority nor a date in either form is its text, trimmed. |
| Syslog.PriorityAlone | ha-lua/internal/syslog/parse.go:33-53 | A priority before anything but an RFC 5424 header changes the priority and nothing else. |
| Syslog.TrimIs | ha-lua/internal/syslog/parse.go:55 | Trimming takes off exactly the spaces, tabs, line ends and zero bytes around a text. |
| Syslog.PriorityParts | ha-lua/internal/syslog/parse.go:19-31 | Facility * 8 + severity is every parsed priority, with facility at most 23 and severity at most 7; both are -1 exactly without a PRI. |
| Syslog.TextIsTrimmedTail | ha-lua/internal/syslog/parse.go:33-53 | Whatever the datagram, its text is a trimmed tail of it. |
| Syslog.Message.CutRFC5424 | ha-lua/internal/syslog/parse.go:72-85 | The message is touched only when the header is complete. |
| Syslog.Message.Fill | ha-lua/internal/syslog/parse.go:33-53 | The fields written step by step are those of the parse. |
| Syslog.Parse | ha-lua/internal/syslog/parse.go:33-53 | Never rejects; keeps the datagram as it was. |
| Syslog.PriorityIff | ha-lua/internal/syslog/parse.go:57-70 | A priority is cut off exactly when one to three characters between angle brackets read as a number from 0 to 191. |
| LogBuffer.Buffer.constructor | ha-lua/internal/logbuf/logbuf.go:34-40 | A capacity of zero or less is the default one, 500. |
| LogBuffer.Buffer.Append | ha-lua/internal/logbuf/logbuf.go:42-52 | The ring keeps the last records, the newest numbered by the total. |
| LogBuffer.Buffer.Ordered | ha-lua/internal/logbuf/logbuf.go:101-107 | Unrolls the ring oldest first, wrapped or not. |
| LogBuffer.Buffer.Snapshot | ha-lua/internal/logbuf/logbuf.go:68-88 | Returns the wanted records among the last of the log, oldest first, and the newest number. |
| LogBuffer.UnfilteredSnapshot | ha-lua/internal/logbuf/logbuf.go:68-88 | An unfiltered snapshot since s is exactly the records newer than both s and total - capacity, in order and without a gap. |
| LogBuffer.SnapshotIff | ha-lua/internal/logbuf/logbuf.go:68-99 | A snapshot holds exactly the records newer than since and than total - capacity whose level is not below the lowest, or does not parse, and whose script is the one wanted: any record for "", any that names a script for "*"; in order. |
| LogBuffer.PollerSeesInOrder | ha-lua/internal/logbuf/logbuf.go:68-70 | Over the snapshots a poller takes of a growing log, passing back the newest number, it sees no record twice, and sees them in order, whatever its filter. |
| LogBuffer.PollerMissesOnlyOverwritten | ha-lua/internal/logbuf/logbuf.go:68-70 | It sees every record that passes its filter, up to its last poll, except exactly those overwritten between two polls. |
| Purge.KeepWellFormed | ha-lua/internal/purge/purge.go:34-48 | The loop drops exactly the malformed rules and keeps the others in order. |
| Purge.KeptAre | ha-lua/internal/purge/purge.go:34-48 | The rules with a pattern and a window of at least a day, each where it stood. |
| Purge.FirstRule | ha-lua/internal/purge/purge.go:87-98 | The first rule that matches an entity. |
| Purge.SelectsIff | ha-lua/internal/purge/purge.go:87-98 | A statement selects exactly the expired rows whose first matching rule is its own. |
| Purge.Purger.RunOnce | ha-lua/internal/purge/purge.go:72-119 | The sequence of deletes leaves exactly the rows not older than the window of the first rule matching their entity, or of the default; the total is the number removed; a failure leaves the effect of the statements before it. |
| Purge.RetainedIff | ha-lua/internal/purge/purge.go:72-119 | A row is retained exactly when it was there and its text does not sort before the cutoff of the first rule whose pattern matches its entity, or of the default if none does. |
| Purge.CutoffIsToTheSecond | ha-lua/internal/purge/purge.go:72-79 | With the cutoff written as the source writes it and rows as HA writes them, exactly the rows of later seconds are retained. |
| Purge.SecondRunRemovesNothing | ha-lua/internal/purge/purge.go:72-119 | A second run at the same instant removes nothing. |

## Left out

- Network, disk, SQLite, MQTT broker, regular expressions, Lua execution and the Lua bindings: handlers are opaque, and
  only which calls are made, and in what order, is modelled.
- EventLoop: HTTP requests and asynchronous errors in the loop's select, which touch none of its state; real time, so a
  window may expire at any moment while it is open.
- Lifecycle.ReloadReplaces: a reload nothing interleaves with; what interleaved ones keep is RunKeepsInv and EveryStopEnds.
- Lifecycle: waiting for a script to drain, the stop timeout and the OnLoaded hook, which change none of the modelled
  state. A waiting writer keeps new readers out of the registry's lock; the model lets them in, which only adds runs.
- Lifecycle: which scripts want an event (their patterns and handlers) is a parameter of Dispatch; in the interleaved steps a
  dispatch may skip any runner.
- Tracker: dropped batches, the queue's capacity (it only delays), the context columns of a row, and `WhoChanged`.
- Tracker.Tracker.Seed: one step here; its interleaving with events and the writer is SeedRaces.
- Tracker.RunKeepsMirror: no purge runs, since a purge may remove the newest row of a mirrored entity.
- HistoryAggregates: rows whose timestamp does not parse, which the source skips. Instants are integers (nanoseconds from a
  fixed origin).
- Timestamps: UTC, years 0 to 9999.
- Scheduler: timers are values in the heap rather than pointers, so the clearing of cut cells is not modelled; nor are the
  wake channel, the loop's sleep and the pruning of rows. Database writes succeed, and a stored deadline parses.
- Scheduler.Clock.NextAtIsFirst: in a zone of fixed offset; days on which the offset changes are not modelled.
- Scheduler.Scheduler.Insert: heap and table are only promised to agree when the id is not already in the heap; the rest
  of its contract holds then too.
- LuaJson: a table is its entries in visiting order with the length MaxN reports; the runtime's array and hash parts are
  not modelled. Numbers are reals, so NaN and infinities are left out.
- LuaJson.LuaState.RawSetInt: only for an index not set before, as the conversion uses it.
- ScheduleEditor: times are minutes of the day, compared as numbers where the card compares "HH:MM" texts, and the
  card's text key "time/temp" is the pair.
- HaClient: command ids come from NextID and are never repeated; frames are their id and outcome.
- NameMirror: the initial Refresh, which runs before Run starts; a registry is the number of its changes.
- LogBuffer: counters do not overflow; flattening of attributes.
- Purge: compacting the database file; a row count the database cannot report.
- The schedule examples, the card's rendering, the debug pages and configuration loading: no state worth a claim.
