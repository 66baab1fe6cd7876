/**
  What any log that replay accepts says about its Goals, whoever wrote it
  (src/goal.rs:249-392).
*/
module GoalHistory {
  import opened Wrappers
  import opened Text
  import opened GoalFacts

  predicate IsCreation(event: Event) {
    event.Changed? && event.change.operation == Create
  }

  /** Changes since the newest creation. */
  function ChangesSince(log: seq<Event>): nat {
    if log == [] || IsCreation(log[|log| - 1]) then 0
    else ChangesSince(log[..|log| - 1]) + if log[|log| - 1].Changed? then 1 else 0
  }

  /** Round messages since the newest creation. */
  function RoundsSince(log: seq<Event>): nat {
    if log == [] || IsCreation(log[|log| - 1]) then 0
    else
      var last := log[|log| - 1];
      RoundsSince(log[..|log| - 1]) + if last.Message? && last.source.GoalRound? then 1 else 0
  }

  /** The identities created, in order. */
  function CreatedIds(log: seq<Event>): seq<string> {
    if log == [] then []
    else
      var last := log[|log| - 1];
      CreatedIds(log[..|log| - 1]) + if IsCreation(last) && last.change.goal.Some? then [last.change.goal.value.id] else []
  }

  predicate Coherent(state: Replay) {
    state.current.Some? ==>
      var goal, rounds := state.current.value.goal, state.current.value.roundsStarted;
      && goal.id in state.usedIds && 1 <= goal.revision <= MAX_SAFE_INTEGER
      && rounds <= goal.maxRounds && state.current.value.createdAt <= state.current.value.updatedAt
      && (goal.phase == Blocked <==> goal.blockedReason.Some?)
  }

  /** One accepted event: identities only grow, a Goal's revision and clock never fall, and only a creation changes identity. */
  lemma AcceptedStep(state: Replay, event: Event)
    requires Coherent(state) && ApplyEvent(state, event).Ok?
    ensures var next := ApplyEvent(state, event).value;
      && Coherent(next) && state.usedIds <= next.usedIds
      && (IsCreation(event) ==>
          && next.current.Some? && next.current.value.goal.id !in state.usedIds
          && event.change.goal == Some(next.current.value.goal)
          && next.current.value.goal.revision == 1 && next.current.value.roundsStarted == 0
          && next.usedIds == state.usedIds + {next.current.value.goal.id})
      && (!IsCreation(event) ==> next.usedIds == state.usedIds)
      && (!IsCreation(event) && next.current.Some? ==>
          && state.current.Some? && next.current.value.goal.id == state.current.value.goal.id
          && next.current.value.goal.revision == state.current.value.goal.revision + (if event.Changed? then 1 else 0)
          && next.current.value.roundsStarted ==
               SaturatingAdd(state.current.value.roundsStarted, if event.Message? && event.source.GoalRound? then 1 else 0, MAX_U32)
          && next.current.value.updatedAt >= state.current.value.updatedAt)
  {
    hide Utf8Length, Trim, ValidateReason, ValidateId;
    match event
    case Message(_) =>
    case Changed(change) =>
      assert Validate(change).Ok?;
      match change.operation
      case Create =>
      case Clear =>
      case _ => assert ApplyUpdate(state, change).Ok?;
  }

  /**
    In any accepted log the current Goal's revision is one more than its changes since
    creation, and its rounds are exactly its round messages (up to the width of the
    counter, where the source saturates), within the cap.
  */
  lemma {:induction false} RevisionAndRoundsCount(log: seq<Event>)
    requires ReplayLog(log).Ok?
    ensures var state := ReplayLog(log).value;
      && Coherent(state)
      && (state.current.Some? ==>
          && state.current.value.goal.revision == 1 + ChangesSince(log)
          && state.current.value.roundsStarted == Min(RoundsSince(log), MAX_U32) <= state.current.value.goal.maxRounds)
  {
    if log != [] {
      RevisionAndRoundsCount(log[..|log| - 1]);
      AcceptedStep(ReplayLog(log[..|log| - 1]).value, log[|log| - 1]);
      hide ApplyEvent;
    }
  }

  /** No identity is ever created twice, cleared or not, and the used ones are exactly those created. */
  lemma {:induction false} IdsNeverReused(log: seq<Event>)
    requires ReplayLog(log).Ok?
    ensures forall i, j :: 0 <= i < j < |CreatedIds(log)| ==> CreatedIds(log)[i] != CreatedIds(log)[j]
    ensures forall id :: id in ReplayLog(log).value.usedIds <==> id in CreatedIds(log)
  {
    if log != [] {
      IdsNeverReused(log[..|log| - 1]);
      RevisionAndRoundsCount(log[..|log| - 1]);
      AcceptedStep(ReplayLog(log[..|log| - 1]).value, log[|log| - 1]);
      hide ApplyEvent, Coherent;
    }
  }
}
