/**
 * The client's rollback/replay reconciliation
 * (src/ts/game/multiplayer_game_simulator.ts). Every update the simulator
 * runs one ordinary tick; when authoritative entity updates are buffered it
 * rolls the game state back to the earliest of their frames (never below the
 * server's rewind cap), applies the updates at or before that frame, replays
 * tick by tick up to where it was, applying each buffered update at its own
 * frame, and clears the buffer.
 *
 * The collaborators this file calls but does not define (advance,
 * rollBackToFrame, applyEntityUpdate, updateCollisions, the entity hooks)
 * are methods with small contracts; each records itself in the ghost trace
 * `calls`, and the contracts of Update and ApplyServerState describe that
 * trace.
 */
module Reconciliation {
  import opened Common
  import GameStates

  /** An authoritative update of one game object, describing tick `frame`. */
  datatype EntityUpdate = EntityUpdate(gameObjectId: int, owner: int, frame: int, payload: Payload)

  /** A call on a collaborator, as recorded in the trace. */
  datatype Call =
    | Advanced
    | BeforeReconciliation(entity: int)
    | RolledBack(frame: int)
    | Applied(update: EntityUpdate, changed: bool)
    | CollisionsUpdated
    | StatesSaved
    | AfterReconciliation(entity: int)

  predicate IsHook(c: Call)
  {
    c.BeforeReconciliation? || c.AfterReconciliation?
  }

  // ---------------------------------------------------------------------------
  // The rewind frame

  /** Math.min over the frames of a non-empty buffer. */
  function MinFrame(updates: seq<EntityUpdate>): (m: int)
    requires updates != []
    ensures exists k :: 0 <= k < |updates| && updates[k].frame == m
    ensures forall k :: 0 <= k < |updates| ==> m <= updates[k].frame
  {
    if |updates| == 1 then updates[0].frame
    else
      var rest := MinFrame(updates[1..]);
      assert forall k :: 1 <= k < |updates| ==> updates[k] == updates[1..][k - 1];
      if updates[0].frame <= rest then updates[0].frame else rest
  }

  /** The frame a reconciliation rewinds to: the earliest buffered frame, raised to the rewind cap. */
  function RewindStart(updates: seq<EntityUpdate>, rewindToFrameCap: int): (f: int)
    requires updates != []
    ensures f >= rewindToFrameCap
    ensures MinFrame(updates) >= rewindToFrameCap ==> f == MinFrame(updates)
    ensures f == rewindToFrameCap || f == MinFrame(updates)
  {
    var startFrame := MinFrame(updates);
    if startFrame >= rewindToFrameCap then startFrame else rewindToFrameCap
  }

  // ---------------------------------------------------------------------------
  // Which updates a pass applies

  /** The test of applyServerState: "older" mode takes frames up to the current one, otherwise only the current one. */
  predicate Selected(update: EntityUpdate, currentFrame: int, applyOlder: bool)
  {
    if applyOlder then update.frame <= currentFrame else update.frame == currentFrame
  }

  /** The buffered updates a pass at `currentFrame` applies, in buffer order. */
  function Select(updates: seq<EntityUpdate>, currentFrame: int, applyOlder: bool): seq<EntityUpdate>
  {
    if updates == [] then []
    else
      var u := updates[|updates| - 1];
      Select(updates[..|updates| - 1], currentFrame, applyOlder) + (if Selected(u, currentFrame, applyOlder) then [u] else [])
  }

  /** A pass applies each selected update as often as it is buffered, and no other. */
  lemma {:induction false} SelectCount(updates: seq<EntityUpdate>, currentFrame: int, applyOlder: bool, u: EntityUpdate)
    ensures multiset(Select(updates, currentFrame, applyOlder))[u]
            == if Selected(u, currentFrame, applyOlder) then multiset(updates)[u] else 0
  {
    if updates != [] {
      var init := updates[..|updates| - 1];
      var last := updates[|updates| - 1];
      var tail := if Selected(last, currentFrame, applyOlder) then [last] else [];
      SelectCount(init, currentFrame, applyOlder, u);
      assert updates == init + [last];
      CountOfConcat(init, [last], u);
      CountOfConcat(Select(init, currentFrame, applyOlder), tail, u);
    }
  }

  lemma CountOfConcat(a: seq<EntityUpdate>, b: seq<EntityUpdate>, u: EntityUpdate)
    ensures multiset(a + b)[u] == multiset(a)[u] + multiset(b)[u]
  {
  }

  /** Selection keeps buffer order: selecting from a concatenation concatenates the selections. */
  lemma {:induction false} SelectOfConcat(a: seq<EntityUpdate>, b: seq<EntityUpdate>, currentFrame: int, applyOlder: bool)
    ensures Select(a + b, currentFrame, applyOlder) == Select(a, currentFrame, applyOlder) + Select(b, currentFrame, applyOlder)
  {
    if b != [] {
      var init := b[..|b| - 1];
      SelectOfConcat(a, init, currentFrame, applyOlder);
      assert (a + b)[..|a + b| - 1] == a + init;
      assert (a + b)[|a + b| - 1] == b[|b| - 1];
    } else {
      assert a + b == a;
    }
  }

  /** The "older" pass at frame t and the exact pass at t + 1 together are the "older" pass at t + 1. */
  lemma {:induction false} OlderThenExact(updates: seq<EntityUpdate>, t: int)
    ensures multiset(Select(updates, t, true)) + multiset(Select(updates, t + 1, false))
            == multiset(Select(updates, t + 1, true))
  {
    if updates != [] {
      OlderThenExact(updates[..|updates| - 1], t);
    }
  }

  /** Looking at one more buffered update extends the selection by that update or by nothing. */
  lemma SelectStep(updates: seq<EntityUpdate>, i: int, currentFrame: int, applyOlder: bool)
    requires 0 <= i < |updates|
    ensures Select(updates[..i + 1], currentFrame, applyOlder)
            == Select(updates[..i], currentFrame, applyOlder)
               + (if Selected(updates[i], currentFrame, applyOlder) then [updates[i]] else [])
  {
    assert updates[..i + 1][..i] == updates[..i];
  }

  // ---------------------------------------------------------------------------
  // The calls of one applyServerState pass

  /** One applyEntityUpdate call per selected update, with the answer it gave. */
  ghost function ApplyCalls(selected: seq<EntityUpdate>, answers: seq<bool>): seq<Call>
    requires |answers| == |selected|
  {
    if selected == [] then []
    else ApplyCalls(selected[..|selected| - 1], answers[..|answers| - 1])
         + [Applied(selected[|selected| - 1], answers[|answers| - 1])]
  }

  lemma ApplyCallsStep(selected: seq<EntityUpdate>, answers: seq<bool>, u: EntityUpdate, changed: bool)
    requires |answers| == |selected|
    ensures ApplyCalls(selected + [u], answers + [changed]) == ApplyCalls(selected, answers) + [Applied(u, changed)]
  {
    assert (selected + [u])[..|selected|] == selected;
    assert (answers + [changed])[..|answers|] == answers;
  }

  /** A pass: the applications, then updateCollisions and saveStates if any of them changed a state. */
  ghost function PassCalls(selected: seq<EntityUpdate>, answers: seq<bool>): seq<Call>
    requires |answers| == |selected|
  {
    ApplyCalls(selected, answers) + (if true in answers then [CollisionsUpdated, StatesSaved] else [])
  }

  /** The updates applied in a trace, in order. */
  ghost function AppliedUpdates(calls: seq<Call>): seq<EntityUpdate>
  {
    if calls == [] then []
    else
      var c := calls[|calls| - 1];
      AppliedUpdates(calls[..|calls| - 1]) + (if c.Applied? then [c.update] else [])
  }

  lemma {:induction false} AppliedUpdatesOfConcat(a: seq<Call>, b: seq<Call>)
    ensures AppliedUpdates(a + b) == AppliedUpdates(a) + AppliedUpdates(b)
  {
    if b != [] {
      AppliedUpdatesOfConcat(a, b[..|b| - 1]);
      assert (a + b)[..|a + b| - 1] == a + b[..|b| - 1];
      assert (a + b)[|a + b| - 1] == b[|b| - 1];
    } else {
      assert a + b == a;
    }
  }

  /** The k-th call of the applications is the application of the k-th selected update, with its answer. */
  lemma {:induction false} ApplyCallsAt(selected: seq<EntityUpdate>, answers: seq<bool>)
    requires |answers| == |selected|
    ensures |ApplyCalls(selected, answers)| == |selected|
    ensures forall k :: 0 <= k < |selected| ==> ApplyCalls(selected, answers)[k] == Applied(selected[k], answers[k])
  {
    if selected != [] {
      ApplyCallsAt(selected[..|selected| - 1], answers[..|answers| - 1]);
    }
  }

  /** A pass applies exactly the selected updates, in buffer order. */
  lemma {:induction false} PassAppliesSelected(selected: seq<EntityUpdate>, answers: seq<bool>)
    requires |answers| == |selected|
    ensures AppliedUpdates(PassCalls(selected, answers)) == selected
  {
    var followUps: seq<Call> := if true in answers then [CollisionsUpdated, StatesSaved] else [];
    AppliedOfApplications(selected, answers);
    AppliedUpdatesOfConcat(ApplyCalls(selected, answers), followUps);
    assert AppliedUpdates(followUps) == [] by {
      if followUps != [] {
        assert followUps[..1] == [CollisionsUpdated];
        assert AppliedUpdates(followUps[..1]) == [] by {
          assert followUps[..1][..0] == [];
        }
      }
    }
  }

  /**
   * A pass recomputes collisions and saves states iff some application
   * reported a change, and makes no call other than applications and those two.
   */
  lemma PassFollowUps(selected: seq<EntityUpdate>, answers: seq<bool>)
    requires |answers| == |selected|
    ensures CollisionsUpdated in PassCalls(selected, answers) <==> true in answers
    ensures StatesSaved in PassCalls(selected, answers) <==> true in answers
    ensures forall c :: c in PassCalls(selected, answers) ==> c.Applied? || c == CollisionsUpdated || c == StatesSaved
  {
    ApplyCallsAt(selected, answers);
    var applications := ApplyCalls(selected, answers);
    assert forall c :: c in applications ==> c.Applied?;
  }

  /** The number of advances in a trace. */
  ghost function Advances(calls: seq<Call>): nat
  {
    if calls == [] then 0
    else Advances(calls[..|calls| - 1]) + (if calls[|calls| - 1] == Advanced then 1 else 0)
  }

  lemma {:induction false} AdvancesIsCount(calls: seq<Call>)
    ensures Advances(calls) == multiset(calls)[Advanced]
  {
    if calls != [] {
      var init := calls[..|calls| - 1];
      AdvancesIsCount(init);
      assert calls == init + [calls[|calls| - 1]];
    }
  }

  lemma {:induction false} AdvancesOfConcat(a: seq<Call>, b: seq<Call>)
    ensures Advances(a + b) == Advances(a) + Advances(b)
  {
    if b != [] {
      AdvancesOfConcat(a, b[..|b| - 1]);
      assert (a + b)[..|a + b| - 1] == a + b[..|b| - 1];
      assert (a + b)[|a + b| - 1] == b[|b| - 1];
    } else {
      assert a + b == a;
    }
  }

  lemma AdvancesAbsent(calls: seq<Call>)
    requires Advanced !in calls
    ensures Advances(calls) == 0
  {
    AdvancesIsCount(calls);
  }

  /** A pass never advances. */
  lemma PassHasNoAdvance(selected: seq<EntityUpdate>, answers: seq<bool>)
    requires |answers| == |selected|
    ensures Advances(PassCalls(selected, answers)) == 0
  {
    PassFollowUps(selected, answers);
    AdvancesAbsent(PassCalls(selected, answers));
  }

  /** A pass calls no hook and never rolls back. */
  lemma PassHasNoHook(selected: seq<EntityUpdate>, answers: seq<bool>)
    requires |answers| == |selected|
    ensures forall c :: c in PassCalls(selected, answers) ==> !IsHook(c) && !c.RolledBack?
  {
    PassFollowUps(selected, answers);
  }

  /** A single call other than an application applies nothing. */
  lemma AppliedUpdatesOfOther(c: Call)
    requires !c.Applied?
    ensures AppliedUpdates([c]) == []
  {
    assert [c][..0] == [];
  }

  lemma {:induction false} AppliedOfApplications(selected: seq<EntityUpdate>, answers: seq<bool>)
    requires |answers| == |selected|
    ensures AppliedUpdates(ApplyCalls(selected, answers)) == selected
  {
    if selected != [] {
      var n := |selected| - 1;
      AppliedOfApplications(selected[..n], answers[..n]);
      var calls := ApplyCalls(selected, answers);
      assert calls[..|calls| - 1] == ApplyCalls(selected[..n], answers[..n]);
      assert selected == selected[..n] + [selected[n]];
    }
  }

  // ---------------------------------------------------------------------------
  // The calls of a whole reconciliation

  ghost function BeforeHooks(entities: seq<int>): (calls: seq<Call>)
    ensures |calls| == |entities|
  {
    if entities == [] then []
    else BeforeHooks(entities[..|entities| - 1]) + [BeforeReconciliation(entities[|entities| - 1])]
  }

  ghost function AfterHooks(entities: seq<int>): (calls: seq<Call>)
    ensures |calls| == |entities|
  {
    if entities == [] then []
    else AfterHooks(entities[..|entities| - 1]) + [AfterReconciliation(entities[|entities| - 1])]
  }

  /** The hooks are called once per entity, in the order of game.entities. */
  lemma {:induction false} HooksInEntityOrder(entities: seq<int>)
    ensures forall k :: 0 <= k < |entities| ==> BeforeHooks(entities)[k] == BeforeReconciliation(entities[k])
    ensures forall k :: 0 <= k < |entities| ==> AfterHooks(entities)[k] == AfterReconciliation(entities[k])
  {
    if entities != [] {
      HooksInEntityOrder(entities[..|entities| - 1]);
    }
  }

  /** The hook lists hold hooks only, and so no advance and no application. */
  lemma HooksOnly(entities: seq<int>)
    ensures forall c :: c in BeforeHooks(entities) ==> c.BeforeReconciliation?
    ensures forall c :: c in AfterHooks(entities) ==> c.AfterReconciliation?
    ensures Advances(BeforeHooks(entities)) == 0 && Advances(AfterHooks(entities)) == 0
  {
    HooksInEntityOrder(entities);
    AdvancesAbsent(BeforeHooks(entities));
    AdvancesAbsent(AfterHooks(entities));
  }

  /** answers[k] are the answers of the exact-frame pass at tick start + 1 + k, for every replayed tick. */
  ghost predicate ReplayAnswersFit(updates: seq<EntityUpdate>, start: int, t: int, answers: seq<seq<bool>>)
    decreases t - start
  {
    if t <= start then answers == []
    else
      && |answers| == t - start
      && |answers[|answers| - 1]| == |Select(updates, t, false)|
      && ReplayAnswersFit(updates, start, t - 1, answers[..|answers| - 1])
  }

  /** The replay loop from tick `start` up to tick `t`: per tick, one advance and one exact-frame pass. */
  ghost function ReplayCalls(updates: seq<EntityUpdate>, start: int, t: int, answers: seq<seq<bool>>): seq<Call>
    requires ReplayAnswersFit(updates, start, t, answers)
    decreases t - start
  {
    if t <= start then []
    else
      ReplayCalls(updates, start, t - 1, answers[..|answers| - 1])
      + [Advanced] + PassCalls(Select(updates, t, false), answers[|answers| - 1])
  }

  /** One more replayed tick appends an advance and the exact-frame pass of that tick. */
  lemma ReplayCallsStep(updates: seq<EntityUpdate>, start: int, t: int, answers: seq<seq<bool>>, current: seq<bool>)
    requires start <= t
    requires ReplayAnswersFit(updates, start, t, answers)
    requires |current| == |Select(updates, t + 1, false)|
    ensures ReplayAnswersFit(updates, start, t + 1, answers + [current])
    ensures ReplayCalls(updates, start, t + 1, answers + [current])
            == ReplayCalls(updates, start, t, answers) + [Advanced] + PassCalls(Select(updates, t + 1, false), current)
  {
    assert (answers + [current])[..|answers|] == answers;
  }

  /** The exact-frame selections of ticks start + 1 .. t, one after the other. */
  ghost function ReplayedUpdates(updates: seq<EntityUpdate>, start: int, t: int): seq<EntityUpdate>
    decreases t - start
  {
    if t <= start then [] else ReplayedUpdates(updates, start, t - 1) + Select(updates, t, false)
  }

  /** answers[0] belongs to the "older" pass at the rewind frame, the rest to the replayed ticks. */
  ghost predicate ReconcileAnswersFit(updates: seq<EntityUpdate>, start: int, end: int, answers: seq<seq<bool>>)
  {
    && |answers| >= 1
    && |answers[0]| == |Select(updates, start, true)|
    && ReplayAnswersFit(updates, start, end, answers[1..])
  }

  /** Everything a non-empty reconciliation calls after the ordinary tick, in order. */
  ghost function ReconcileCalls(entities: seq<int>, updates: seq<EntityUpdate>, start: int, end: int,
                                answers: seq<seq<bool>>): seq<Call>
    requires ReconcileAnswersFit(updates, start, end, answers)
  {
    BeforeHooks(entities) + [RolledBack(start)]
    + PassCalls(Select(updates, start, true), answers[0])
    + ReplayCalls(updates, start, end, answers[1..])
    + AfterHooks(entities)
  }

  // ---------------------------------------------------------------------------
  // The state history across a reconciliation

  /** The history after one pass at `tick`: saveStates ran iff some answer was true. */
  function PassHistory(history: map<int, seq<GameStates.StateUpdate>>, objects: seq<GameStates.GameObject>,
                       gameStateId: int, tick: int, answers: seq<bool>): map<int, seq<GameStates.StateUpdate>>
  {
    if true in answers then GameStates.SavedHistory(history, objects, gameStateId, tick) else history
  }

  /** The history after the replayed passes at ticks start + 1 .. start + |answers|. */
  function ReplayHistory(history: map<int, seq<GameStates.StateUpdate>>, objects: seq<GameStates.GameObject>,
                         gameStateId: int, start: int, answers: seq<seq<bool>>): map<int, seq<GameStates.StateUpdate>>
    decreases |answers|
  {
    if answers == [] then history
    else
      PassHistory(ReplayHistory(history, objects, gameStateId, start, answers[..|answers| - 1]),
                  objects, gameStateId, start + |answers|, answers[|answers| - 1])
  }

  /** The history after a reconciliation from `start`: the "older" pass, then the replayed ones. */
  function ReconcileHistory(history: map<int, seq<GameStates.StateUpdate>>, objects: seq<GameStates.GameObject>,
                            gameStateId: int, start: int, answers: seq<seq<bool>>): map<int, seq<GameStates.StateUpdate>>
    requires |answers| >= 1
  {
    ReplayHistory(PassHistory(history, objects, gameStateId, start, answers[0]), objects, gameStateId, start, answers[1..])
  }

  /** `after` is `before` with entries appended, each stamped with `gameStateId` and a tick in [lo, hi]. */
  predicate AppendsStamped(before: seq<GameStates.StateUpdate>, after: seq<GameStates.StateUpdate>,
                           gameStateId: int, lo: int, hi: int)
  {
    && before <= after
    && forall k :: |before| <= k < |after| ==> after[k].gameStateId == gameStateId && lo <= after[k].tick <= hi
  }

  lemma AppendsStampedTrans(a: seq<GameStates.StateUpdate>, b: seq<GameStates.StateUpdate>, c: seq<GameStates.StateUpdate>,
                            gameStateId: int, lo: int, hi: int, lo': int, hi': int)
    requires AppendsStamped(a, b, gameStateId, lo, hi) && AppendsStamped(b, c, gameStateId, lo', hi')
    ensures AppendsStamped(a, c, gameStateId, if lo <= lo' then lo else lo', if hi >= hi' then hi else hi')
  {
    assert forall k :: |a| <= k < |b| ==> c[k] == b[k];
  }

  /** One pass only appends, to each id's history, entries stamped with this game state and the pass's tick. */
  lemma PassHistoryAppendsStamped(history: map<int, seq<GameStates.StateUpdate>>, objects: seq<GameStates.GameObject>,
                                  gameStateId: int, tick: int, answers: seq<bool>, objectId: int)
    ensures AppendsStamped(GameStates.HistoryOf(history, objectId),
                           GameStates.HistoryOf(PassHistory(history, objects, gameStateId, tick, answers), objectId),
                           gameStateId, tick, tick)
    ensures objectId in history ==> objectId in PassHistory(history, objects, gameStateId, tick, answers)
  {
    GameStates.SavedHistoryAppends(history, objects, gameStateId, tick, objectId);
    GameStates.NewEntriesAreStamped(objects, objectId, gameStateId, tick);
  }

  /** The replayed passes only append entries stamped with this game state and a replayed tick. */
  lemma {:induction false} ReplayHistoryAppendsStamped(history: map<int, seq<GameStates.StateUpdate>>,
                                                       objects: seq<GameStates.GameObject>, gameStateId: int,
                                                       start: int, answers: seq<seq<bool>>, objectId: int)
    ensures AppendsStamped(GameStates.HistoryOf(history, objectId),
                           GameStates.HistoryOf(ReplayHistory(history, objects, gameStateId, start, answers), objectId),
                           gameStateId, start + 1, start + |answers|)
    ensures objectId in history ==> objectId in ReplayHistory(history, objects, gameStateId, start, answers)
  {
    if answers != [] {
      var init := answers[..|answers| - 1];
      var before := ReplayHistory(history, objects, gameStateId, start, init);
      ReplayHistoryAppendsStamped(history, objects, gameStateId, start, init, objectId);
      PassHistoryAppendsStamped(before, objects, gameStateId, start + |answers|, answers[|answers| - 1], objectId);
      AppendsStampedTrans(GameStates.HistoryOf(history, objectId), GameStates.HistoryOf(before, objectId),
                          GameStates.HistoryOf(ReplayHistory(history, objects, gameStateId, start, answers), objectId),
                          gameStateId, start + 1, start + |init|, start + |answers|, start + |answers|);
    }
  }

  /**
   * A reconciliation only appends to the state history: every id keeps its
   * entries and its key, and each new entry carries this game state's id and
   * a tick from the rewind frame up to the last replayed tick.
   */
  lemma ReconcileHistoryAppendsStamped(history: map<int, seq<GameStates.StateUpdate>>,
                                       objects: seq<GameStates.GameObject>, gameStateId: int,
                                       start: int, answers: seq<seq<bool>>, objectId: int)
    requires |answers| >= 1
    ensures AppendsStamped(GameStates.HistoryOf(history, objectId),
                           GameStates.HistoryOf(ReconcileHistory(history, objects, gameStateId, start, answers), objectId),
                           gameStateId, start, start + |answers| - 1)
    ensures objectId in history ==> objectId in ReconcileHistory(history, objects, gameStateId, start, answers)
  {
    var older := PassHistory(history, objects, gameStateId, start, answers[0]);
    PassHistoryAppendsStamped(history, objects, gameStateId, start, answers[0], objectId);
    ReplayHistoryAppendsStamped(older, objects, gameStateId, start, answers[1..], objectId);
    AppendsStampedTrans(GameStates.HistoryOf(history, objectId), GameStates.HistoryOf(older, objectId),
                        GameStates.HistoryOf(ReconcileHistory(history, objects, gameStateId, start, answers), objectId),
                        gameStateId, start, start, start + 1, start + |answers| - 1);
  }

  /** When no applyEntityUpdate reports a change, a reconciliation leaves the history as it was. */
  lemma {:induction false} ReplayHistoryWithoutChange(history: map<int, seq<GameStates.StateUpdate>>,
                                                      objects: seq<GameStates.GameObject>, gameStateId: int,
                                                      start: int, answers: seq<seq<bool>>)
    requires forall k :: 0 <= k < |answers| ==> true !in answers[k]
    ensures ReplayHistory(history, objects, gameStateId, start, answers) == history
  {
    if answers != [] {
      ReplayHistoryWithoutChange(history, objects, gameStateId, start, answers[..|answers| - 1]);
    }
  }

  /** When no applyEntityUpdate reports a change, a reconciliation leaves the history as it was. */
  lemma ReconcileHistoryWithoutChange(history: map<int, seq<GameStates.StateUpdate>>,
                                      objects: seq<GameStates.GameObject>, gameStateId: int,
                                      start: int, answers: seq<seq<bool>>)
    requires |answers| >= 1
    requires forall k :: 0 <= k < |answers| ==> true !in answers[k]
    ensures ReconcileHistory(history, objects, gameStateId, start, answers) == history
  {
    ReplayHistoryWithoutChange(history, objects, gameStateId, start, answers[1..]);
  }

  lemma AdvancesAroundAdvance(before: seq<Call>, pass: seq<Call>)
    ensures Advances(before + [Advanced] + pass) == Advances(before) + 1 + Advances(pass)
  {
    AdvancesOfConcat(before + [Advanced], pass);
    AdvancesOfConcat(before, [Advanced]);
    assert [Advanced][..0] == [];
  }

  /** The replay advances once per tick between the rewind frame and the present. */
  lemma {:induction false} ReplayAdvancesOncePerTick(updates: seq<EntityUpdate>, start: int, t: int, answers: seq<seq<bool>>)
    requires ReplayAnswersFit(updates, start, t, answers)
    ensures Advances(ReplayCalls(updates, start, t, answers)) == (if t <= start then 0 else t - start)
    decreases t - start
  {
    if t > start {
      var init := answers[..|answers| - 1];
      var last := answers[|answers| - 1];
      var before := ReplayCalls(updates, start, t - 1, init);
      var pass := PassCalls(Select(updates, t, false), last);
      assert ReplayCalls(updates, start, t, answers) == before + [Advanced] + pass;
      ReplayAdvancesOncePerTick(updates, start, t - 1, init);
      PassHasNoAdvance(Select(updates, t, false), last);
      AdvancesAroundAdvance(before, pass);
    }
  }

  /** The replay calls no hook and does not roll back. */
  lemma {:induction false} ReplayCallsNoHook(updates: seq<EntityUpdate>, start: int, t: int, answers: seq<seq<bool>>)
    requires ReplayAnswersFit(updates, start, t, answers)
    ensures forall c :: c in ReplayCalls(updates, start, t, answers) ==> !IsHook(c) && !c.RolledBack?
    decreases t - start
  {
    if t > start {
      var init := answers[..|answers| - 1];
      ReplayCallsNoHook(updates, start, t - 1, init);
      PassHasNoHook(Select(updates, t, false), answers[|answers| - 1]);
    }
  }

  /** The replay applies, tick after tick, the updates whose frame is that tick. */
  lemma {:induction false} ReplayApplies(updates: seq<EntityUpdate>, start: int, t: int, answers: seq<seq<bool>>)
    requires ReplayAnswersFit(updates, start, t, answers)
    ensures AppliedUpdates(ReplayCalls(updates, start, t, answers)) == ReplayedUpdates(updates, start, t)
    decreases t - start
  {
    if t > start {
      var init := answers[..|answers| - 1];
      var selected := Select(updates, t, false);
      var last := answers[|answers| - 1];
      var before := ReplayCalls(updates, start, t - 1, init);
      var pass := PassCalls(selected, last);
      assert ReplayCalls(updates, start, t, answers) == before + [Advanced] + pass;
      assert AppliedUpdates(before) == ReplayedUpdates(updates, start, t - 1) by {
        ReplayApplies(updates, start, t - 1, init);
      }
      assert AppliedUpdates(pass) == selected by {
        PassAppliesSelected(selected, last);
      }
      AppliedAroundAdvance(before, pass);
    }
  }

  lemma AppliedAroundAdvance(before: seq<Call>, pass: seq<Call>)
    ensures AppliedUpdates(before + [Advanced] + pass) == AppliedUpdates(before) + AppliedUpdates(pass)
  {
    AppliedUpdatesOfConcat(before + [Advanced], pass);
    AppliedUpdatesOfConcat(before, [Advanced]);
    AppliedUpdatesOfOther(Advanced);
  }

  /** Over the replayed ticks, the "older" pass at the rewind frame grows into the "older" pass at the present. */
  lemma {:induction false} ReplayedUpdatesCoverSpan(updates: seq<EntityUpdate>, start: int, t: int)
    requires start <= t
    decreases t - start
    ensures multiset(Select(updates, start, true)) + multiset(ReplayedUpdates(updates, start, t))
            == multiset(Select(updates, t, true))
  {
    if t > start {
      ReplayedUpdatesCoverSpan(updates, start, t - 1);
      OlderThenExact(updates, t - 1);
    }
  }

  /** The calls strictly between the two rounds of hooks. */
  ghost function ReconcileMiddle(updates: seq<EntityUpdate>, start: int, end: int, answers: seq<seq<bool>>): seq<Call>
    requires ReconcileAnswersFit(updates, start, end, answers)
  {
    [RolledBack(start)] + PassCalls(Select(updates, start, true), answers[0]) + ReplayCalls(updates, start, end, answers[1..])
  }

  lemma MiddleHasNoHook(updates: seq<EntityUpdate>, start: int, end: int, answers: seq<seq<bool>>)
    requires ReconcileAnswersFit(updates, start, end, answers)
    ensures forall c :: c in ReconcileMiddle(updates, start, end, answers) ==> !IsHook(c)
  {
    PassHasNoHook(Select(updates, start, true), answers[0]);
    ReplayCallsNoHook(updates, start, end, answers[1..]);
  }

  /** A trace made of `before`, a hook-free `middle` and `after` has each part where it belongs. */
  lemma Bracketed(before: seq<Call>, middle: seq<Call>, after: seq<Call>)
    requires |before| == |after|
    requires forall c :: c in middle ==> !IsHook(c)
    ensures var calls := before + middle + after;
            && calls[..|before|] == before
            && calls[|calls| - |after|..] == after
            && (|middle| > 0 ==> calls[|before|] == middle[0])
            && (forall k :: |before| <= k < |calls| - |before| ==> !IsHook(calls[k]))
  {
    var calls := before + middle + after;
    forall k | |before| <= k < |calls| - |before|
      ensures !IsHook(calls[k])
    {
      assert calls[k] == middle[k - |before|];
    }
  }

  /**
   * One reconciliation is bracketed by the hooks: first every entity's
   * beforeReconciliation, then the rollback to the rewind frame, then calls
   * that are not hooks, and last every entity's afterReconciliation.
   */
  lemma ReconcileHooks(entities: seq<int>, updates: seq<EntityUpdate>, start: int, end: int, answers: seq<seq<bool>>)
    requires ReconcileAnswersFit(updates, start, end, answers)
    ensures var calls := ReconcileCalls(entities, updates, start, end, answers);
            && calls[..|entities|] == BeforeHooks(entities)
            && calls[|entities|] == RolledBack(start)
            && calls[|calls| - |entities|..] == AfterHooks(entities)
            && (forall k :: |entities| <= k < |calls| - |entities| ==> !IsHook(calls[k]))
  {
    var middle := ReconcileMiddle(updates, start, end, answers);
    assert ReconcileCalls(entities, updates, start, end, answers) == BeforeHooks(entities) + middle + AfterHooks(entities);
    MiddleHasNoHook(updates, start, end, answers);
    Bracketed(BeforeHooks(entities), middle, AfterHooks(entities));
  }

  /** The replay advances exactly end - start times, and not at all when the rewind frame is past the present. */
  lemma ReconcileAdvances(entities: seq<int>, updates: seq<EntityUpdate>, start: int, end: int, answers: seq<seq<bool>>)
    requires ReconcileAnswersFit(updates, start, end, answers)
    ensures Advances(ReconcileCalls(entities, updates, start, end, answers)) == (if start <= end then end - start else 0)
  {
    var before := BeforeHooks(entities);
    var middle := ReconcileMiddle(updates, start, end, answers);
    var after := AfterHooks(entities);
    var calls := ReconcileCalls(entities, updates, start, end, answers);
    assert calls == before + middle + after;
    assert Advances(middle) == (if start <= end then end - start else 0) by {
      var older := PassCalls(Select(updates, start, true), answers[0]);
      var replay := ReplayCalls(updates, start, end, answers[1..]);
      PassHasNoAdvance(Select(updates, start, true), answers[0]);
      ReplayAdvancesOncePerTick(updates, start, end, answers[1..]);
      AdvancesOfConcat([RolledBack(start)] + older, replay);
      AdvancesOfConcat([RolledBack(start)], older);
      assert [RolledBack(start)][..0] == [];
    }
    assert Advances(before) == 0 && Advances(after) == 0 by {
      HooksOnly(entities);
    }
    AdvancesOfConcat(before + middle, after);
    AdvancesOfConcat(before, middle);
  }

  /**
   * A reconciliation applies the "older" updates of the rewind frame first and
   * then each replayed tick's updates at that tick; so every buffered update
   * whose frame is at most the later of the rewind frame and the present is
   * applied exactly as often as it is buffered, and no other update is.
   */
  lemma ReconcileApplies(entities: seq<int>, updates: seq<EntityUpdate>, start: int, end: int, answers: seq<seq<bool>>)
    requires ReconcileAnswersFit(updates, start, end, answers)
    ensures AppliedUpdates(ReconcileCalls(entities, updates, start, end, answers))
            == Select(updates, start, true) + ReplayedUpdates(updates, start, end)
    ensures multiset(AppliedUpdates(ReconcileCalls(entities, updates, start, end, answers)))
            == multiset(Select(updates, if start <= end then end else start, true))
  {
    var before := BeforeHooks(entities);
    var middle := ReconcileMiddle(updates, start, end, answers);
    var after := AfterHooks(entities);
    assert ReconcileCalls(entities, updates, start, end, answers) == before + middle + after;
    assert AppliedUpdates(before + middle + after) == AppliedUpdates(middle) by {
      NoAppliedInHooks(entities);
      AppliedOfBracket(before, middle, after);
    }
    MiddleApplies(updates, start, end, answers);
    if start <= end {
      ReplayedUpdatesCoverSpan(updates, start, end);
    } else {
      assert ReplayedUpdates(updates, start, end) == [];
    }
  }

  /** Between the hooks, the "older" pass applies first and the replayed ticks after it. */
  lemma MiddleApplies(updates: seq<EntityUpdate>, start: int, end: int, answers: seq<seq<bool>>)
    requires ReconcileAnswersFit(updates, start, end, answers)
    ensures AppliedUpdates(ReconcileMiddle(updates, start, end, answers))
            == Select(updates, start, true) + ReplayedUpdates(updates, start, end)
  {
    var older := PassCalls(Select(updates, start, true), answers[0]);
    var replay := ReplayCalls(updates, start, end, answers[1..]);
    assert AppliedUpdates(older) == Select(updates, start, true) by {
      PassAppliesSelected(Select(updates, start, true), answers[0]);
    }
    assert AppliedUpdates(replay) == ReplayedUpdates(updates, start, end) by {
      ReplayApplies(updates, start, end, answers[1..]);
    }
    AppliedUpdatesOfOther(RolledBack(start));
    AppliedUpdatesOfConcat([RolledBack(start)] + older, replay);
    AppliedUpdatesOfConcat([RolledBack(start)], older);
  }

  lemma AppliedOfBracket(before: seq<Call>, middle: seq<Call>, after: seq<Call>)
    requires AppliedUpdates(before) == [] && AppliedUpdates(after) == []
    ensures AppliedUpdates(before + middle + after) == AppliedUpdates(middle)
  {
    AppliedUpdatesOfConcat(before + middle, after);
    AppliedUpdatesOfConcat(before, middle);
  }

  lemma {:induction false} NoAppliedInHooks(entities: seq<int>)
    ensures AppliedUpdates(BeforeHooks(entities)) == [] && AppliedUpdates(AfterHooks(entities)) == []
  {
    if entities != [] {
      var init := entities[..|entities| - 1];
      NoAppliedInHooks(init);
      assert BeforeHooks(entities)[..|entities| - 1] == BeforeHooks(init);
      assert AfterHooks(entities)[..|entities| - 1] == AfterHooks(init);
    }
  }

  /** The answers of the "older" pass and of the replay together fit a reconciliation, whose calls are theirs between the hooks. */
  lemma ReconcileCallsOf(entities: seq<int>, updates: seq<EntityUpdate>, start: int, end: int,
                         older: seq<bool>, replayed: seq<seq<bool>>)
    requires |older| == |Select(updates, start, true)|
    requires ReplayAnswersFit(updates, start, end, replayed)
    ensures ReconcileAnswersFit(updates, start, end, [older] + replayed)
    ensures ReconcileCalls(entities, updates, start, end, [older] + replayed)
            == BeforeHooks(entities) + [RolledBack(start)] + PassCalls(Select(updates, start, true), older)
               + ReplayCalls(updates, start, end, replayed) + AfterHooks(entities)
  {
    assert ([older] + replayed)[1..] == replayed;
  }

  lemma AppendAssoc(a: seq<Call>, b: seq<Call>, c: seq<Call>)
    ensures a + b + c == a + (b + c)
  {
  }

  lemma AppendAssoc3(a: seq<Call>, b: seq<Call>, c: seq<Call>, d: seq<Call>)
    ensures a + b + c + d == a + (b + c + d)
  {
  }

  lemma Regroup(prefix: seq<Call>, a: seq<Call>, b: seq<Call>, c: seq<Call>, d: seq<Call>, e: seq<Call>)
    ensures prefix + a + b + c + d + e == prefix + (a + b + c + d + e)
  {
  }

  // ---------------------------------------------------------------------------
  // The simulator

  class MultiplayerGameSimulator {
    /** game.state */
    const state: GameStates.GameState
    /** The entities of game.entities, by id, whose reconciliation hooks are called. */
    const entities: seq<int>
    /** game.objects, which saveStates visits. */
    const objects: seq<GameStates.GameObject>
    /** game.lastServerStateBundle.rewindToFrameCap */
    var rewindToFrameCap: int
    var reconciliationUpdates: seq<EntityUpdate>
    var lastReconciliationTickCount: int
    /** Stands in for the entities' own state, which applyEntityUpdate overwrites. */
    var appliedStates: map<int, Payload>
    /** The calls made on collaborators so far. */
    ghost var calls: seq<Call>

    constructor (state: GameStates.GameState, entities: seq<int>, objects: seq<GameStates.GameObject>, rewindToFrameCap: int)
      ensures this.state == state && this.entities == entities && this.objects == objects
      ensures this.rewindToFrameCap == rewindToFrameCap
      ensures reconciliationUpdates == [] && lastReconciliationTickCount == 0 && appliedStates == map[] && calls == []
    {
      this.state := state;
      this.entities := entities;
      this.objects := objects;
      this.rewindToFrameCap := rewindToFrameCap;
      reconciliationUpdates := [];
      lastReconciliationTickCount := 0;
      appliedStates := map[];
      calls := [];
    }

    /** GameSimulator.advance: one simulation tick, modelled by the game state's advanceTime. */
    method Advance()
      modifies this`calls, state`tick, state`attemptTick, state`clock, state`currentTimeTravelBonus
      ensures state.tick == old(state.tick) + 1 && state.attemptTick == old(state.attemptTick) + 1
      ensures state.Clock() == GameStates.ClockAfterTick(old(state.AttemptTime()), old(state.Clock()))
      ensures calls == old(calls) + [Advanced]
    {
      state.AdvanceTime();
      calls := calls + [Advanced];
    }

    /** state.rollBackToFrame: only the tick pointer is modelled. */
    method RollBackToFrame(frame: int)
      modifies this`calls, state`tick
      ensures state.tick == frame
      ensures calls == old(calls) + [RolledBack(frame)]
    {
      state.tick := frame;
      calls := calls + [RolledBack(frame)];
    }

    /** state.applyEntityUpdate: whether the update changed anything is the entity's answer. */
    method ApplyEntityUpdate(update: EntityUpdate) returns (changed: bool)
      modifies this`calls, this`appliedStates
      ensures calls == old(calls) + [Applied(update, changed)]
    {
      changed := update.gameObjectId !in appliedStates || appliedStates[update.gameObjectId] != update.payload;
      appliedStates := appliedStates[update.gameObjectId := update.payload];
      calls := calls + [Applied(update, changed)];
    }

    /** world.updateCollisions */
    method UpdateCollisions()
      modifies this`calls
      ensures calls == old(calls) + [CollisionsUpdated]
    {
      calls := calls + [CollisionsUpdated];
    }

    /** state.saveStates, at the current tick. */
    method SaveStates()
      modifies this`calls, state`stateHistory
      ensures state.stateHistory == GameStates.SavedHistory(old(state.stateHistory), objects, state.id, state.tick)
      ensures calls == old(calls) + [StatesSaved]
    {
      state.SaveStates(objects);
      calls := calls + [StatesSaved];
    }

    /** `for (let entity of game.entities) entity.beforeReconciliation()` */
    method NotifyBeforeReconciliation()
      modifies this`calls
      ensures calls == old(calls) + BeforeHooks(entities)
    {
      for k := 0 to |entities|
        invariant calls == old(calls) + BeforeHooks(entities[..k])
      {
        assert entities[..k + 1][..k] == entities[..k];
        calls := calls + [BeforeReconciliation(entities[k])];
      }
      assert entities[..|entities|] == entities;
    }

    /** `for (let entity of game.entities) entity.afterReconciliation()` */
    method NotifyAfterReconciliation()
      modifies this`calls
      ensures calls == old(calls) + AfterHooks(entities)
    {
      for k := 0 to |entities|
        invariant calls == old(calls) + AfterHooks(entities[..k])
      {
        assert entities[..k + 1][..k] == entities[..k];
        calls := calls + [AfterReconciliation(entities[k])];
      }
      assert entities[..|entities|] == entities;
    }

    /**
     * applyServerState: applies, in buffer order, every buffered update the
     * current tick selects, and if any of them changed a state, recomputes
     * collisions and saves states at this tick. The ghost result is the list
     * of answers applyEntityUpdate gave.
     */
    method ApplyServerState(applyOlder: bool) returns (ghost answers: seq<bool>)
      modifies this`calls, this`appliedStates, state`stateHistory
      ensures |answers| == |Select(reconciliationUpdates, state.tick, applyOlder)|
      ensures calls == old(calls) + PassCalls(Select(reconciliationUpdates, state.tick, applyOlder), answers)
      ensures state.stateHistory == PassHistory(old(state.stateHistory), objects, state.id, state.tick, answers)
    {
      var currentFrame := state.tick;
      var updates := reconciliationUpdates;
      var anyStatesChanged := false;
      answers := [];
      ghost var selected := [];
      var i := 0;
      while i < |updates|
        invariant 0 <= i <= |updates|
        invariant selected == Select(updates[..i], currentFrame, applyOlder)
        invariant |answers| == |selected|
        invariant calls == old(calls) + ApplyCalls(selected, answers)
        invariant anyStatesChanged <==> true in answers
        invariant state.stateHistory == old(state.stateHistory)
        invariant reconciliationUpdates == updates && state.tick == currentFrame
      {
        var update := updates[i];
        SelectStep(updates, i, currentFrame, applyOlder);
        if Selected(update, currentFrame, applyOlder) {
          var appliedUpdate := ApplyEntityUpdate(update);
          anyStatesChanged := anyStatesChanged || appliedUpdate;
          ApplyCallsStep(selected, answers, update, appliedUpdate);
          selected := selected + [update];
          answers := answers + [appliedUpdate];
        }
        i := i + 1;
      }
      assert updates[..i] == updates;
      ghost var applied := calls;
      if anyStatesChanged {
        UpdateCollisions();
        SaveStates();
        assert calls == applied + [CollisionsUpdated] + [StatesSaved];
        assert [CollisionsUpdated] + [StatesSaved] == [CollisionsUpdated, StatesSaved];
        AppendAssoc(applied, [CollisionsUpdated], [StatesSaved]);
      }
      assert calls == old(calls) + PassCalls(selected, answers) by {
        AppendAssoc(old(calls), ApplyCalls(selected, answers), if true in answers then [CollisionsUpdated, StatesSaved] else []);
      }
      assert reconciliationUpdates == updates && state.tick == currentFrame;
    }

    /**
     * update: one ordinary tick; then, if updates are buffered, the hooks,
     * the rollback to the rewind frame, the "older" pass, the tick-by-tick
     * replay up to the tick reached before, the recorded span, the hooks
     * again, and an empty buffer. The ghost result holds the answers of every
     * pass: the "older" one first, then one per replayed tick.
     */
    method Update() returns (ghost answers: seq<seq<bool>>)
      modifies this`calls, this`appliedStates, this`reconciliationUpdates, this`lastReconciliationTickCount
      modifies state`tick, state`attemptTick, state`clock, state`currentTimeTravelBonus, state`stateHistory
      ensures old(reconciliationUpdates) == [] ==>
                && calls == old(calls) + [Advanced]
                && state.tick == old(state.tick) + 1
                && reconciliationUpdates == []
                && lastReconciliationTickCount == old(lastReconciliationTickCount)
                && state.stateHistory == old(state.stateHistory)
                && appliedStates == old(appliedStates)
      ensures old(reconciliationUpdates) != [] ==>
                var endFrame := old(state.tick) + 1;
                var startFrame := RewindStart(old(reconciliationUpdates), old(rewindToFrameCap));
                && ReconcileAnswersFit(old(reconciliationUpdates), startFrame, endFrame, answers)
                && calls == old(calls) + [Advanced]
                            + ReconcileCalls(entities, old(reconciliationUpdates), startFrame, endFrame, answers)
                && state.tick == (if startFrame <= endFrame then endFrame else startFrame)
                && lastReconciliationTickCount == endFrame - startFrame
                && reconciliationUpdates == []
                && state.stateHistory == ReconcileHistory(old(state.stateHistory), objects, state.id, startFrame, answers)
    {
      Advance();
      answers := [];
      if |reconciliationUpdates| == 0 {
        return;
      }
      ghost var updates := reconciliationUpdates;
      ghost var ticked := calls;
      assert updates == old(reconciliationUpdates);
      assert ticked == old(calls) + [Advanced];
      NotifyBeforeReconciliation();
      var startFrame := RewindStart(reconciliationUpdates, rewindToFrameCap);
      assert startFrame == RewindStart(old(reconciliationUpdates), old(rewindToFrameCap));
      var endFrame := state.tick;
      assert endFrame == old(state.tick) + 1;
      RollBackToFrame(startFrame);
      var older := ApplyServerState(true);
      var replayed := ReplayTo(endFrame);
      lastReconciliationTickCount := endFrame - startFrame;
      NotifyAfterReconciliation();
      reconciliationUpdates := [];
      answers := [older] + replayed;
      ReconcileCallsOf(entities, updates, startFrame, endFrame, older, replayed);
      assert ReconcileAnswersFit(updates, startFrame, endFrame, answers);
      assert state.tick == (if startFrame <= endFrame then endFrame else startFrame);
      assert calls == ticked + ReconcileCalls(entities, updates, startFrame, endFrame, answers) by {
        Regroup(ticked, BeforeHooks(entities), [RolledBack(startFrame)], PassCalls(Select(updates, startFrame, true), older),
                ReplayCalls(updates, startFrame, endFrame, replayed), AfterHooks(entities));
      }
    }

    /**
     * The replay loop of update: from the current tick up to `endFrame`, one
     * advance and one exact-frame pass per tick. The ghost result holds the
     * answers of each pass.
     */
    method ReplayTo(endFrame: int) returns (ghost replayed: seq<seq<bool>>)
      modifies this`calls, this`appliedStates
      modifies state`tick, state`attemptTick, state`clock, state`currentTimeTravelBonus, state`stateHistory
      ensures ReplayAnswersFit(reconciliationUpdates, old(state.tick), endFrame, replayed)
      ensures calls == old(calls) + ReplayCalls(reconciliationUpdates, old(state.tick), endFrame, replayed)
      ensures state.tick == if old(state.tick) <= endFrame then endFrame else old(state.tick)
      ensures state.stateHistory == ReplayHistory(old(state.stateHistory), objects, state.id, old(state.tick), replayed)
    {
      ghost var updates := reconciliationUpdates;
      ghost var startFrame := state.tick;
      replayed := [];
      while state.tick < endFrame
        invariant reconciliationUpdates == updates
        invariant startFrame <= state.tick
        invariant startFrame <= endFrame ==> state.tick <= endFrame
        invariant startFrame > endFrame ==> state.tick == startFrame
        invariant ReplayAnswersFit(updates, startFrame, state.tick, replayed)
        invariant calls == old(calls) + ReplayCalls(updates, startFrame, state.tick, replayed)
        invariant |replayed| == state.tick - startFrame
        invariant state.stateHistory == ReplayHistory(old(state.stateHistory), objects, state.id, startFrame, replayed)
        decreases endFrame - state.tick
      {
        ghost var tick := state.tick;
        ghost var replayedCalls := ReplayCalls(updates, startFrame, tick, replayed);
        Advance();
        var current := ApplyServerState(false);
        assert calls == old(calls) + replayedCalls + [Advanced] + PassCalls(Select(updates, tick + 1, false), current);
        ReplayCallsStep(updates, startFrame, tick, replayed, current);
        AppendAssoc3(old(calls), replayedCalls, [Advanced], PassCalls(Select(updates, tick + 1, false), current));
        assert (replayed + [current])[..|replayed|] == replayed;
        replayed := replayed + [current];
      }
      if startFrame > endFrame {
        assert ReplayCalls(updates, startFrame, endFrame, replayed) == [];
      }
    }
  }
}
