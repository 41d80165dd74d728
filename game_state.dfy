/**
 * The clock and state history of one running game (src/ts/game/game_state.ts):
 * the tick counters, the gameplay clock with its time-travel bonus, and the
 * per-object history of saved states that rollback relies on.
 */
module GameStates {
  import opened Common

  type PositiveReal = r: real | r > 0.0 witness 1.0

  /** Game updates per second (defined in a constants file this model does not include). */
  const GAME_UPDATE_RATE: PositiveReal
  /** Physics ticks per second (defined in a level file this model does not include). */
  const PHYSICS_TICK_RATE: PositiveReal
  /** The start threshold of the attempt time; `0 ?? 3.5` evaluates to 0. */
  const GO_TIME: real := 0.0

  /** Continuous time, in seconds, of a tick counter and a sub-tick completion. */
  function TickTime(tick: int, subtickCompletion: real): (t: real)
    ensures t * GAME_UPDATE_RATE == tick as real + subtickCompletion
  {
    (tick as real + subtickCompletion) / GAME_UPDATE_RATE
  }

  /** One more tick is exactly one game-update period later. */
  lemma TickTimeStep(tick: int, subtickCompletion: real)
    ensures TickTime(tick + 1, subtickCompletion) == TickTime(tick, subtickCompletion) + 1.0 / GAME_UPDATE_RATE
  {
    var t0, t1 := TickTime(tick, subtickCompletion), TickTime(tick + 1, subtickCompletion);
    assert (t1 - t0) * GAME_UPDATE_RATE == 1.0;
  }

  /** The gameplay clock and the remaining time-travel bonus, in seconds. */
  datatype ClockState = ClockState(clock: real, timeTravelBonus: real)

  /**
   * What one advanceTime does to the clock and the bonus, given the attempt
   * time before the tick: nothing before GO_TIME; afterwards the bonus is
   * drained by one update period if positive, otherwise the clock runs one
   * physics period, and an undershoot of the bonus below zero is added to
   * the clock.
   */
  function ClockAfterTick(attemptTime: real, c: ClockState): (r: ClockState)
    ensures attemptTime < GO_TIME ==> r == c
    ensures r.clock >= c.clock
    ensures attemptTime >= GO_TIME ==> r.timeTravelBonus >= 0.0
    ensures c.timeTravelBonus >= 0.0 ==> r.timeTravelBonus >= 0.0
    ensures attemptTime >= GO_TIME && c.timeTravelBonus == 0.0 ==>
              r == ClockState(c.clock + 1.0 / PHYSICS_TICK_RATE, 0.0)
    ensures attemptTime >= GO_TIME && 0.0 < c.timeTravelBonus < 1.0 / GAME_UPDATE_RATE ==>
              r == ClockState(c.clock + (1.0 / GAME_UPDATE_RATE - c.timeTravelBonus), 0.0)
    ensures attemptTime >= GO_TIME && c.timeTravelBonus >= 1.0 / GAME_UPDATE_RATE ==>
              r == ClockState(c.clock, c.timeTravelBonus - 1.0 / GAME_UPDATE_RATE)
    ensures attemptTime >= GO_TIME && c.timeTravelBonus < 0.0 ==>
              r == ClockState(c.clock + 1.0 / PHYSICS_TICK_RATE - c.timeTravelBonus, 0.0)
  {
    if attemptTime < GO_TIME then c
    else
      var drained := if c.timeTravelBonus > 0.0 then c.timeTravelBonus - 1.0 / GAME_UPDATE_RATE else c.timeTravelBonus;
      var clock := if c.timeTravelBonus > 0.0 then c.clock else c.clock + 1.0 / PHYSICS_TICK_RATE;
      if drained < 0.0 then ClockState(clock + -drained, 0.0) else ClockState(clock, drained)
  }

  /** The clock after n ticks that all start at or after GO_TIME. */
  function ClockAfterTicks(c: ClockState, n: nat): ClockState
  {
    if n == 0 then c else ClockAfterTick(GO_TIME, ClockAfterTicks(c, n - 1))
  }

  /**
   * Whatever the rates, a bonus of b seconds drains by one update period per
   * tick: after n ticks, max(0, b - n / GAME_UPDATE_RATE) is left.
   */
  lemma {:induction false} BonusDrainsPerTick(c: ClockState, n: nat)
    requires c.timeTravelBonus >= 0.0
    ensures ClockAfterTicks(c, n).timeTravelBonus == Max(0.0, c.timeTravelBonus - n as real / GAME_UPDATE_RATE)
  {
    if n > 0 {
      BonusDrainsPerTick(c, n - 1);
      var before := ClockAfterTicks(c, n - 1);
      var b := c.timeTravelBonus;
      var period := 1.0 / GAME_UPDATE_RATE;
      var elapsedBefore := (n - 1) as real / GAME_UPDATE_RATE;
      ElapsedStep(n);
      assert period > 0.0;
      if b <= elapsedBefore {
        assert before.timeTravelBonus == 0.0;
      } else {
        assert before.timeTravelBonus == b - elapsedBefore;
      }
    }
  }

  /**
   * When physics ticks and game updates share one rate, a bonus of b seconds
   * is spent before the clock counts: after n ticks (n / rate seconds), the
   * bonus left is max(0, b - elapsed) and the clock has grown by
   * max(0, elapsed - b).
   */
  lemma {:induction false} BonusIsSpentBeforeClock(c: ClockState, n: nat)
    requires PHYSICS_TICK_RATE == GAME_UPDATE_RATE
    requires c.timeTravelBonus >= 0.0
    ensures var elapsed := n as real / GAME_UPDATE_RATE;
            && ClockAfterTicks(c, n).timeTravelBonus == Max(0.0, c.timeTravelBonus - elapsed)
            && ClockAfterTicks(c, n).clock == c.clock + Max(0.0, elapsed - c.timeTravelBonus)
  {
    if n > 0 {
      BonusIsSpentBeforeClock(c, n - 1);
      var before := ClockAfterTicks(c, n - 1);
      var after := ClockAfterTick(GO_TIME, before);
      var b := c.timeTravelBonus;
      var period := 1.0 / GAME_UPDATE_RATE;
      var elapsedBefore := (n - 1) as real / GAME_UPDATE_RATE;
      var elapsed := n as real / GAME_UPDATE_RATE;
      ElapsedStep(n);
      assert period > 0.0;
      if b <= elapsedBefore {
        assert before.timeTravelBonus == 0.0;
        assert after == ClockState(before.clock + period, 0.0);
      } else if b < elapsed {
        assert before.timeTravelBonus == b - elapsedBefore;
        assert after == ClockState(before.clock + (period - before.timeTravelBonus), 0.0);
      } else {
        assert before.timeTravelBonus == b - elapsedBefore;
        assert after == ClockState(before.clock, before.timeTravelBonus - period);
      }
    }
  }

  /** n ticks last one update period longer than n - 1 ticks. */
  lemma ElapsedStep(n: int)
    ensures n as real / GAME_UPDATE_RATE == (n - 1) as real / GAME_UPDATE_RATE + 1.0 / GAME_UPDATE_RATE
  {
  }

  /** One saved state of one object. */
  datatype StateUpdate = StateUpdate(gameStateId: int, tick: int, state: Payload)

  /** What saveStates reads of a game object. */
  datatype GameObject = GameObject(id: int, hasChangedState: bool, currentState: Payload)

  /** The history of one object id; an id with no entry has an empty history. */
  function HistoryOf(history: map<int, seq<StateUpdate>>, objectId: int): seq<StateUpdate>
  {
    if objectId in history then history[objectId] else []
  }

  /** The history after saveStates has visited every object of `objects`, in order. */
  function SavedHistory(history: map<int, seq<StateUpdate>>, objects: seq<GameObject>, gameStateId: int, tick: int)
    : map<int, seq<StateUpdate>>
  {
    if objects == [] then history
    else
      var before := SavedHistory(history, objects[..|objects| - 1], gameStateId, tick);
      var o := objects[|objects| - 1];
      if o.hasChangedState then
        before[o.id := HistoryOf(before, o.id) + [StateUpdate(gameStateId, tick, o.currentState)]]
      else before
  }

  /** The entries saveStates adds for one object id: one per changed object carrying that id. */
  function NewEntries(objects: seq<GameObject>, objectId: int, gameStateId: int, tick: int): seq<StateUpdate>
  {
    if objects == [] then []
    else
      var o := objects[|objects| - 1];
      NewEntries(objects[..|objects| - 1], objectId, gameStateId, tick)
      + (if o.hasChangedState && o.id == objectId then [StateUpdate(gameStateId, tick, o.currentState)] else [])
  }

  /**
   * saveStates only appends: every id's history grows by exactly its new
   * entries, and an id gains a key only if it got an entry.
   */
  lemma {:induction false} SavedHistoryAppends(history: map<int, seq<StateUpdate>>, objects: seq<GameObject>,
                                               gameStateId: int, tick: int, objectId: int)
    ensures HistoryOf(SavedHistory(history, objects, gameStateId, tick), objectId)
            == HistoryOf(history, objectId) + NewEntries(objects, objectId, gameStateId, tick)
    ensures objectId in SavedHistory(history, objects, gameStateId, tick)
            <==> objectId in history || NewEntries(objects, objectId, gameStateId, tick) != []
  {
    if objects != [] {
      SavedHistoryAppends(history, objects[..|objects| - 1], gameStateId, tick, objectId);
    }
  }

  /** Every entry saveStates adds carries the game state's id and the tick it ran at. */
  lemma {:induction false} NewEntriesAreStamped(objects: seq<GameObject>, objectId: int, gameStateId: int, tick: int)
    ensures forall k :: 0 <= k < |NewEntries(objects, objectId, gameStateId, tick)| ==>
              NewEntries(objects, objectId, gameStateId, tick)[k].gameStateId == gameStateId
              && NewEntries(objects, objectId, gameStateId, tick)[k].tick == tick
  {
    if objects != [] {
      NewEntriesAreStamped(objects[..|objects| - 1], objectId, gameStateId, tick);
    }
  }

  predicate DistinctIds(objects: seq<GameObject>)
  {
    forall i, j :: 0 <= i < j < |objects| ==> objects[i].id != objects[j].id
  }

  /** With distinct ids, an id's new entries are one entry if its object changed and none otherwise. */
  lemma {:induction false} NewEntriesOfDistinct(objects: seq<GameObject>, objectId: int, gameStateId: int, tick: int)
    requires DistinctIds(objects)
    ensures NewEntries(objects, objectId, gameStateId, tick)
            == if exists k :: 0 <= k < |objects| && objects[k].id == objectId && objects[k].hasChangedState
               then [StateUpdate(gameStateId, tick, ChangedObjectState(objects, objectId))]
               else []
  {
    if objects != [] {
      var prefix := objects[..|objects| - 1];
      assert DistinctIds(prefix);
      NewEntriesOfDistinct(prefix, objectId, gameStateId, tick);
      var o := objects[|objects| - 1];
      if o.id == objectId {
        assert forall k :: 0 <= k < |prefix| ==> prefix[k].id != objectId;
      } else {
        assert forall k :: 0 <= k < |prefix| ==> prefix[k] == objects[k];
      }
    }
  }

  /** The current state of the (last) changed object carrying `objectId`. */
  function ChangedObjectState(objects: seq<GameObject>, objectId: int): Payload
  {
    if objects == [] then []
    else
      var o := objects[|objects| - 1];
      if o.id == objectId && o.hasChangedState then o.currentState
      else ChangedObjectState(objects[..|objects| - 1], objectId)
  }

  /**
   * saveStates over objects with distinct ids: each changed object's history
   * gains exactly one entry stamped with this game state's id and tick; every
   * other id's history is unchanged.
   */
  lemma SaveStatesAppendsOnePerChangedObject(history: map<int, seq<StateUpdate>>, objects: seq<GameObject>,
                                             gameStateId: int, tick: int, k: nat, objectId: int)
    requires DistinctIds(objects)
    requires k < |objects|
    ensures objects[k].hasChangedState ==>
              HistoryOf(SavedHistory(history, objects, gameStateId, tick), objects[k].id)
              == HistoryOf(history, objects[k].id) + [StateUpdate(gameStateId, tick, objects[k].currentState)]
    ensures (forall j :: 0 <= j < |objects| && objects[j].id == objectId ==> !objects[j].hasChangedState) ==>
              && HistoryOf(SavedHistory(history, objects, gameStateId, tick), objectId) == HistoryOf(history, objectId)
              && (objectId in SavedHistory(history, objects, gameStateId, tick) <==> objectId in history)
  {
    SavedHistoryAppends(history, objects, gameStateId, tick, objects[k].id);
    NewEntriesOfDistinct(objects, objects[k].id, gameStateId, tick);
    SavedHistoryAppends(history, objects, gameStateId, tick, objectId);
    NewEntriesOfDistinct(objects, objectId, gameStateId, tick);
    if objects[k].hasChangedState {
      ChangedObjectStateOfDistinct(objects, k);
    }
  }

  lemma {:induction false} ChangedObjectStateOfDistinct(objects: seq<GameObject>, k: nat)
    requires DistinctIds(objects)
    requires k < |objects| && objects[k].hasChangedState
    ensures ChangedObjectState(objects, objects[k].id) == objects[k].currentState
  {
    if k < |objects| - 1 {
      var prefix := objects[..|objects| - 1];
      assert DistinctIds(prefix);
      assert prefix[k] == objects[k];
      ChangedObjectStateOfDistinct(prefix, k);
    }
  }

  /** The game state of one game: its counters, clock, bonus and state history. */
  class GameState {
    var id: int
    var tick: int
    var attemptTick: int
    var clock: real
    var subtickCompletion: real
    var currentTimeTravelBonus: real
    var stateHistory: map<int, seq<StateUpdate>>

    constructor ()
      ensures id == 0 && tick == -1 && attemptTick == -1 && clock == 0.0
      ensures subtickCompletion == 0.0 && currentTimeTravelBonus == 0.0 && stateHistory == map[]
    {
      id, tick, attemptTick, clock := 0, -1, -1, 0.0;
      subtickCompletion, currentTimeTravelBonus, stateHistory := 0.0, 0.0, map[];
    }

    /** The `time` getter. */
    function Time(): real
      reads this
    {
      TickTime(tick, subtickCompletion)
    }

    /** The `attemptTime` getter. */
    function AttemptTime(): real
      reads this
    {
      TickTime(attemptTick, subtickCompletion)
    }

    function Clock(): ClockState
      reads this
    {
      ClockState(clock, currentTimeTravelBonus)
    }

    method AdvanceTime()
      modifies this`tick, this`attemptTick, this`clock, this`currentTimeTravelBonus
      ensures tick == old(tick) + 1 && attemptTick == old(attemptTick) + 1
      ensures Time() == old(Time()) + 1.0 / GAME_UPDATE_RATE
      ensures AttemptTime() == old(AttemptTime()) + 1.0 / GAME_UPDATE_RATE
      ensures Clock() == ClockAfterTick(old(AttemptTime()), old(Clock()))
    {
      if AttemptTime() >= GO_TIME {
        if currentTimeTravelBonus > 0.0 {
          currentTimeTravelBonus := currentTimeTravelBonus - 1.0 / GAME_UPDATE_RATE;
        } else {
          clock := clock + 1.0 / PHYSICS_TICK_RATE;
        }
        if currentTimeTravelBonus < 0.0 {
          clock := clock + -currentTimeTravelBonus;
          currentTimeTravelBonus := 0.0;
        }
      }
      TickTimeStep(tick, subtickCompletion);
      TickTimeStep(attemptTick, subtickCompletion);
      tick := tick + 1;
      attemptTick := attemptTick + 1;
    }

    /** The counter resets at the start of restart; the tick is left alone. */
    method RestartCounters()
      modifies this`clock, this`attemptTick, this`currentTimeTravelBonus
      ensures clock == 0.0 && attemptTick == -1 && currentTimeTravelBonus == 0.0
      ensures tick == old(tick)
      ensures 0.0 <= subtickCompletion < 1.0 ==> AttemptTime() < GO_TIME
    {
      clock := 0.0;
      attemptTick := -1;
      currentTimeTravelBonus := 0.0;
    }

    method SaveStates(objects: seq<GameObject>)
      modifies this`stateHistory
      ensures stateHistory == SavedHistory(old(stateHistory), objects, id, tick)
    {
      var i := 0;
      while i < |objects|
        invariant 0 <= i <= |objects|
        invariant stateHistory == SavedHistory(old(stateHistory), objects[..i], id, tick)
      {
        var o := objects[i];
        if o.hasChangedState {
          var arr := if o.id in stateHistory then stateHistory[o.id] else [];
          stateHistory := stateHistory[o.id := arr + [StateUpdate(id, tick, o.currentState)]];
        }
        assert objects[..i + 1][..i] == objects[..i];
        i := i + 1;
      }
      assert objects[..i] == objects;
    }
  }
}
