# Rollback reconciliation, game clock and platform timing

A Dafny model of three parts of a multiplayer marble game client:

- **Rollback/replay reconciliation** (`multiplayer_game_simulator.dfy`, module `Reconciliation`).
  - Every `update` runs one ordinary simulation tick.
  - Authoritative entity updates from the server may be buffered. When they are, it fires every entity's `beforeReconciliation` hook.
  - It then rolls the game state back to the earliest buffered frame. That frame is raised to the server's rewind cap if it lies below it.
  - At that frame it applies every buffered update whose frame is not later than it (the "older" pass).
  - It replays tick by tick up to the tick it had reached. At each tick it applies the updates for exactly that frame.
  - It records the replayed span, fires the `afterReconciliation` hooks and clears the buffer.
  - Any pass in which an update reported a change recomputes collisions and saves states.
- **The game clock and state history** (`game_state.dfy`, module `GameStates`).
  - The tick counters and the time getters derived from them.
  - The gameplay clock, which starts at `GO_TIME` and first spends any time-travel bonus. An undershoot of the bonus goes back onto the clock.
  - The counter resets of `restart`.
  - `saveStates`, which appends one stamped entry per changed object to a per-object history.
- **Moving-platform path timing** (`pathed_interior.dfy`, module `PathedInteriors`).
  - The path duration.
  - The internal path time: a looping offset, or a clamped linear leg towards a destination.
  - Destination legs.
  - The marker-pair search of `getTransformAtTime`, with its completion clamp and the wrap-around spline neighbours.

`common.dfy` holds `Option`, `Max` and `Abs`.

Modelling choices:

- **Collaborators.** The reconciliation calls collaborators whose code is not part of this model: `advance`, `rollBackToFrame`, `applyEntityUpdate`, `updateCollisions` and the entity hooks.
  - Each is a method of `MultiplayerGameSimulator` with a small contract, and each records itself in a ghost trace `calls`.
  - `advance` runs the game state's `advanceTime`. `rollBackToFrame` sets the tick. `saveStates` is the game state's own.
  - `applyEntityUpdate`'s answer (did it change anything) is the entity's business. The contracts of `Update` and `ApplyServerState` hold for every sequence of answers, and return those answers as ghost results.
- **Rate constants.** `GAME_UPDATE_RATE` and `PHYSICS_TICK_RATE` come from files not included here. They are abstract positive constants. `GO_TIME` is `0 ?? 3.5`, which is 0.
- **Numbers.** Clock arithmetic is exact (`real`).
- **JavaScript numbers in path timing.** These are a real or NaN (`Number`).
  - `%` truncates toward zero (`JsRemainder`).
  - A null `timeStart`/`timeDest` reads as 0.
  - `Util.clamp` and `Util.lerp` are not part of this model. They are taken to be `min(max(v, lo), hi)` and `a + (b - a) * t`.

## Model

| member | source | states |
|---|---|---|
| Reconciliation.MinFrame | src/ts/game/multiplayer_game_simulator.ts:29-31 | the minimum over a non-empty buffer: it is the frame of some buffered update, and no buffered frame is smaller |
| Reconciliation.RewindStart | src/ts/game/multiplayer_game_simulator.ts:29-32 | the rewind frame is never below the rewind cap; it is the minimum buffered frame whenever that minimum is at or above the cap, and the cap otherwise |
| Reconciliation.SelectCount | src/ts/game/multiplayer_game_simulator.ts:58-59 | a pass applies each update that passes its test (frame ≤ tick in "older" mode, frame == tick otherwise) exactly as many times as it is buffered, and no other update |
| Reconciliation.SelectOfConcat | src/ts/game/multiplayer_game_simulator.ts:58-59 | selection keeps buffer order: selecting from a concatenation concatenates the selections |
| Reconciliation.OlderThenExact | src/ts/game/multiplayer_game_simulator.ts:59 | the "older" pass at tick t and the exact pass at t + 1 together apply what the "older" pass at t + 1 would |
| Reconciliation.ApplyCallsAt | src/ts/game/multiplayer_game_simulator.ts:58-62 | the k-th applyEntityUpdate call of a pass is on the k-th selected update and carries its answer |
| Reconciliation.PassAppliesSelected | src/ts/game/multiplayer_game_simulator.ts:58-68 | a pass applies exactly the selected updates, in buffer order, and nothing else |
| Reconciliation.PassFollowUps | src/ts/game/multiplayer_game_simulator.ts:56-68 | updateCollisions and saveStates are called iff some applyEntityUpdate returned true, and a pass makes no other kind of call |
| Reconciliation.PassHasNoAdvance | src/ts/game/multiplayer_game_simulator.ts:53-69 | a pass never advances the simulation |
| Reconciliation.HooksInEntityOrder | src/ts/game/multiplayer_game_simulator.ts:21-48 | the hook calls go once to each entity, in the order of game.entities |
| Reconciliation.ReplayAdvancesOncePerTick | src/ts/game/multiplayer_game_simulator.ts:42-45 | the replay loop from the rewind frame to tick t advances exactly t - start times, and never when t ≤ start |
| Reconciliation.ReplayCallsNoHook | src/ts/game/multiplayer_game_simulator.ts:42-45 | the replay loop calls no hook and never rolls back |
| Reconciliation.ReplayApplies | src/ts/game/multiplayer_game_simulator.ts:42-45 | the replay loop applies, tick after tick, exactly the updates whose frame is that tick |
| Reconciliation.ReplayedUpdatesCoverSpan | src/ts/game/multiplayer_game_simulator.ts:36-45 | the "older" pass at the rewind frame plus the replayed exact passes apply the same updates, with the same counts, as one "older" pass at the present |
| Reconciliation.ReconcileHooks | src/ts/game/multiplayer_game_simulator.ts:21-48 | a reconciliation first calls every beforeReconciliation, then rolls back to the rewind frame, then makes calls that are not hooks, and last calls every afterReconciliation |
| Reconciliation.ReconcileAdvances | src/ts/game/multiplayer_game_simulator.ts:33-45 | a reconciliation advances exactly endFrame - startFrame times when startFrame ≤ endFrame, and not at all otherwise |
| Reconciliation.ReconcileApplies | src/ts/game/multiplayer_game_simulator.ts:35-45 | a reconciliation applies the "older" updates at the rewind frame, then each replayed tick's own updates; so each buffered update with frame ≤ max(startFrame, endFrame) is applied as many times as it is buffered, and no other update is |
| Reconciliation.PassHistoryAppendsStamped | src/ts/game/multiplayer_game_simulator.ts:65-68 | one pass only appends to each id's history, and every entry it adds carries this game state's id and the pass's tick |
| Reconciliation.ReplayHistoryAppendsStamped | src/ts/game/multiplayer_game_simulator.ts:42-45 | the replay loop only appends to the history; each new entry carries this game state's id and one of the replayed ticks start + 1 .. start + n |
| Reconciliation.ReconcileHistoryAppendsStamped | src/ts/game/multiplayer_game_simulator.ts:35-45 | a reconciliation keeps every id's entries and key, and each entry it adds carries this game state's id and a tick from the rewind frame to the last replayed tick |
| Reconciliation.ReplayHistoryWithoutChange | src/ts/game/multiplayer_game_simulator.ts:42-45 | a replay in which no applyEntityUpdate reports a change leaves the history as it was |
| Reconciliation.ReconcileHistoryWithoutChange | src/ts/game/multiplayer_game_simulator.ts:35-45 | a reconciliation in which no applyEntityUpdate reports a change leaves the history as it was |
| Reconciliation.MultiplayerGameSimulator.constructor | src/ts/game/multiplayer_game_simulator.ts:11 | a new simulator has an empty update buffer, a zero replayed span and an empty trace |
| Reconciliation.MultiplayerGameSimulator.Advance | src/ts/game/multiplayer_game_simulator.ts:43 | advance moves tick and attemptTick on by one, changes the clock and bonus as GameStates.ClockAfterTick says for the attempt time before it, and is recorded |
| Reconciliation.MultiplayerGameSimulator.RollBackToFrame | src/ts/game/multiplayer_game_simulator.ts:35 | rollBackToFrame sets the tick to the frame and is recorded |
| Reconciliation.MultiplayerGameSimulator.ApplyEntityUpdate | src/ts/game/multiplayer_game_simulator.ts:61 | applyEntityUpdate is recorded with the answer it gave |
| Reconciliation.MultiplayerGameSimulator.UpdateCollisions | src/ts/game/multiplayer_game_simulator.ts:66 | updateCollisions is recorded |
| Reconciliation.MultiplayerGameSimulator.SaveStates | src/ts/game/multiplayer_game_simulator.ts:67 | saveStates at the current tick extends the state history as GameStates.SavedHistory says, and is recorded |
| Reconciliation.MultiplayerGameSimulator.NotifyBeforeReconciliation | src/ts/game/multiplayer_game_simulator.ts:21 | beforeReconciliation is called on every entity, in order |
| Reconciliation.MultiplayerGameSimulator.NotifyAfterReconciliation | src/ts/game/multiplayer_game_simulator.ts:48 | afterReconciliation is called on every entity, in order |
| Reconciliation.MultiplayerGameSimulator.ApplyServerState | src/ts/game/multiplayer_game_simulator.ts:53-69 | the calls made are one pass over the updates the current tick selects, with collisions and saveStates iff an answer was true; the state history is PassHistory: one saveStates at this tick in that case, unchanged otherwise |
| Reconciliation.MultiplayerGameSimulator.ReplayTo | src/ts/game/multiplayer_game_simulator.ts:42-45 | the loop makes the replay's calls from the current tick to endFrame, ends at endFrame (or where it started, if that is later), and leaves the history as ReplayHistory: one saveStates at each replayed tick whose pass reported a change |
| Reconciliation.MultiplayerGameSimulator.Update | src/ts/game/multiplayer_game_simulator.ts:13-51 | with an empty buffer: one advance, and the buffer, the replayed span, the state history and the entities' applied states are unchanged. Otherwise: one advance, then a whole reconciliation from RewindStart to the tick reached. The tick ends at max(startFrame, endFrame), lastReconciliationTickCount is endFrame - startFrame, the buffer is empty, and the history is ReconcileHistory: one saveStates at each pass that reported a change, at that pass's tick |
| GameStates.TickTime | src/ts/game/game_state.ts:23-29 | time × GAME_UPDATE_RATE == tick + subtickCompletion |
| GameStates.TickTimeStep | src/ts/game/game_state.ts:23-29 | one more tick is exactly one update period (1 / GAME_UPDATE_RATE) later |
| GameStates.ClockAfterTick | src/ts/game/game_state.ts:43-56 | before GO_TIME nothing changes. The clock never decreases, and a non-negative bonus stays non-negative. With bonus 0 the clock grows by 1 / PHYSICS_TICK_RATE. A bonus below one update period is used up, and its remainder goes onto the clock. A larger bonus shrinks by one period. |
| GameStates.BonusIsSpentBeforeClock | src/ts/game/game_state.ts:43-56 | with equal rates and bonus b ≥ 0, after n ticks the bonus is max(0, b − n/rate) and the clock has grown by max(0, n/rate − b) |
| GameStates.BonusDrainsPerTick | src/ts/game/game_state.ts:43-56 | for any rates and bonus b ≥ 0, after n ticks the bonus is max(0, b − n / GAME_UPDATE_RATE) |
| GameStates.NewEntriesAreStamped | src/ts/game/game_state.ts:112-116 | every entry saveStates adds carries the game state's id and the current tick |
| GameStates.SavedHistoryAppends | src/ts/game/game_state.ts:103-119 | saveStates only appends: each id's history grows by exactly its new entries, and an id gains a key only if it gets an entry |
| GameStates.NewEntriesOfDistinct | src/ts/game/game_state.ts:105-117 | with distinct object ids, an id gets one entry (this game state's id, this tick, the object's state) if its object changed, and none otherwise |
| GameStates.SaveStatesAppendsOnePerChangedObject | src/ts/game/game_state.ts:102-119 | each changed object's history gains exactly one entry stamped with the game state's id and tick; the history of an id with no changed object is unchanged |
| GameStates.ChangedObjectStateOfDistinct | src/ts/game/game_state.ts:115 | with distinct ids, the state saved for a changed object is that object's current state |
| GameStates.GameState.constructor | src/ts/game/game_state.ts:17-36 | id 0, tick and attemptTick -1, clock, subtick and bonus 0, empty history |
| GameStates.GameState.AdvanceTime | src/ts/game/game_state.ts:42-61 | tick and attemptTick each grow by 1, time and attemptTime by one update period, and the clock and bonus change as ClockAfterTick says for the attempt time before the tick |
| GameStates.GameState.RestartCounters | src/ts/game/game_state.ts:67-69 | clock 0, attemptTick -1, bonus 0, the tick untouched; attempt time is then below GO_TIME |
| GameStates.GameState.SaveStates | src/ts/game/game_state.ts:102-120 | the history after the loop is SavedHistory of the old history, the objects, this id and this tick |
| PathedInteriors.SumMsToNextOfPrefix | src/ts/pathed_interior.ts:56-57 | a partial sum of msToNext depends only on the markers it covers |
| PathedInteriors.PathDurationIgnoresLastMarker | src/ts/pathed_interior.ts:55-58 | replacing the last marker never changes the duration |
| PathedInteriors.PathDurationOfAppend | src/ts/pathed_interior.ts:52-61 | appending a marker adds the msToNext of the previously last marker |
| PathedInteriors.PathedInterior.ComputeDuration | src/ts/pathed_interior.ts:52-61 | duration is the sum of msToNext over all markers but the last |
| PathedInteriors.PathedInterior.constructor | src/ts/pathed_interior.ts:26-27 | the path is set and its duration computed |
| PathedInteriors.PathedInterior.ApplyInitialTiming | src/ts/pathed_interior.ts:40-47 | with target ≥ 0 (absent reads as -1) the platform runs a leg from initialPosition (NaN if absent) to the target starting at time 0, and is at each end of the leg at its ends. Otherwise a present initialPosition becomes timeOffset. |
| PathedInteriors.JsRemainder | src/ts/pathed_interior.ts:72 | JavaScript `%`: the dividend minus a whole multiple of the divisor, with the sign of the dividend and smaller than the divisor in magnitude; so it is the dividend itself when that is already smaller |
| PathedInteriors.JsRemainderIsUnique | src/ts/pathed_interior.ts:72 | only one value has those properties, so JsRemainder is JavaScript's `%` and nothing else |
| PathedInteriors.RemainderIsPeriodic | src/ts/pathed_interior.ts:72 | for a non-negative dividend, adding the divisor does not change `%` |
| PathedInteriors.LegPosition | src/ts/pathed_interior.ts:76 | interpolating with completion c covers c times the leg's length, in the leg's direction |
| PathedInteriors.LegTime | src/ts/pathed_interior.ts:74-76 | on a leg between two different numbers: timeStart up to changeTime, timeDest once the leg's length has passed, and in between timeStart moved toward timeDest by the elapsed ms |
| PathedInteriors.LegCompletion | src/ts/pathed_interior.ts:74-75 | a numeric completion is in [0, 1]. For a positive leg: 0 before the start, 1 after the end, proportional in between. A zero-length leg at its start gives NaN. |
| PathedInteriors.Lerp | src/ts/pathed_interior.ts:76 | numeric iff all inputs are; for t in [0, 1] the result lies between the ends, and is the start at 0 and the end at 1 |
| PathedInteriors.AbsDiff | src/ts/pathed_interior.ts:74 | the distance of two numbers, NaN if either is |
| PathedInteriors.PathedInterior.InternalTime | src/ts/pathed_interior.ts:71-77 | NaN for a zero duration; a number is always smaller than the duration in magnitude. Looping mode is (externalTime + timeOffset) % duration, numeric for a non-zero duration. On a leg: timeStart % duration up to changeTime, timeDest % duration once the leg's length has passed, and in between timeStart moved toward timeDest by externalTime − changeTime ms, % duration. |
| PathedInteriors.PathedInterior.LoopIsPeriodic | src/ts/pathed_interior.ts:72 | a looping platform is at the same internal time one duration later |
| PathedInteriors.PathedInterior.SetDestinationTime | src/ts/pathed_interior.ts:63-69 | the new leg starts at the internal time of now, so the platform does not jump, and it reaches the destination after |start − destination| ms. A destination equal to the current time gives NaN at that instant. |
| PathedInteriors.StopsAtIsUnique | src/ts/pathed_interior.ts:111-117 | the segment search has only one possible stopping index |
| PathedInteriors.StopSegmentContainsTime | src/ts/pathed_interior.ts:110-120 | with non-negative legs and a time within the path, the time lies between m1Time and m2Time of the segment found |
| PathedInteriors.SegmentCompletion | src/ts/pathed_interior.ts:119-124 | the completion is in [0, 1], is 1 for a zero-length segment, and is proportional within a segment |
| PathedInteriors.SplineNeighbours | src/ts/pathed_interior.ts:128-131 | preStart and postEnd are valid marker indices, wrapping to n − 1 and 0 |
| PathedInteriors.PathedInterior.SegmentAt | src/ts/pathed_interior.ts:106-131 | None iff there are fewer than two markers. Otherwise the search stops at the unique index i with 2 ≤ i ≤ n, m1 = i − 2 and m2 = i − 1. currentEndTime is the partial sum to m2, the completion is the clamped one, and spline neighbours are computed exactly for spline segments. |

## Left out

- Geometry of `PathedInterior`: `tick()`, the matrix and quaternion composition, `Util.catmullRom`, slerp and the sine easing of accelerating segments (floating-point geometry). `SegmentAt` returns the completion before easing.
- Trigger setup in `createFromSimGroup` (`changeTime = -Infinity`) and the asynchronous loading (`DifParser.loadFile`, `init`): asset I/O, and a value outside the model's reals.
- Non-numeric strings in mission elements (`Number("abc")` is NaN): `Marker.msToNext`, `initialPosition` and the external times are reals. Only an absent `initialPosition` becomes NaN.
- PathedInteriors.PathedInterior.SegmentAt: takes a real time, so a NaN internal time is not modelled.
- PathedInteriors.Clamp01: `Util.clamp` and `Util.lerp` are not part of this model; their usual definitions are assumed.
- The rest of `restart` (HUD, gems, marble placement, object resets, audio), `getStartPositionAndOrientation` and the `console.log` in `saveStates`: presentation and physics outside the core.
- GameStates.GameObject: `hasChangedState` and `getCurrentState()` are fields read by `saveStates`, not the objects' own logic.
- Reconciliation.MultiplayerGameSimulator.SaveStates: saves the simulator's `objects`, a snapshot fixed for the simulator's lifetime. It is not connected to what `applyEntityUpdate` writes, so a re-save after an applied change records the snapshot's states and flags, not the changed ones.
- Reconciliation.MultiplayerGameSimulator.Update: after a non-empty reconciliation, the entities' own state (`appliedStates`) is described only through the `Applied` calls of the trace, not as a final value.
- Reconciliation.MultiplayerGameSimulator.RollBackToFrame: only the tick is set. The restoring of object states from the history is not part of this model.
- Reconciliation.MultiplayerGameSimulator.ApplyEntityUpdate: its answer is modelled as "the payload differs from the last one applied to that object". The contracts of its callers hold for any answers.
- Reconciliation.MultiplayerGameSimulator.Advance: the base simulator's `advance`/`update` is modelled as `advanceTime` alone. Physics, collisions and object ticks are not part of this model.
- Reconciliation.MultiplayerGameSimulator.UpdateCollisions: the collision world is not part of this model; only the call is recorded.
- Reconciliation.MultiplayerGameSimulator.ReplayTo and Reconciliation.MultiplayerGameSimulator.SaveStates: the `while` loop of `update` and the `state.saveStates()` call sit in helper methods of their own. The behaviour is unchanged.
- How updates get into `reconciliationUpdates` (the network side, `game_server.ts`, `socket_commands.ts`), the server (`game_server/ts/index.ts`) and the shape classes: I/O and scheduling outside the reconciliation.
- Ownership filtering: the code applies updates whatever their owner, so no ownership property is claimed.
- `GAME_UPDATE_RATE` and `PHYSICS_TICK_RATE` are abstract positive constants; their values are defined in files not part of this model.
