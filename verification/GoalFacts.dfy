/**
  The durable vocabulary of one Goal: its facts, the `goal/change` event that
  carries them, and the replay state rebuilt from committed events alone
  (src/goal.rs:83-414).
*/
module GoalFacts {
  import opened Wrappers
  import opened Text

  const MAX_GOAL_OBJECTIVE_BYTES := 4 * 1024
  const MAX_GOAL_ROUNDS: u32 := 32
  const GOAL_CHANGE_VERSION := 1

  datatype GoalError =
    | Missing | Unfinished | EmptyObjective | ObjectiveTooLarge | InvalidMaxRounds | InvalidEdit
    | StaleRevision | InvalidTransition | Busy | Unavailable | InvalidEvent

  datatype Phase = Active | Paused | Blocked | Complete

  datatype BlockReason = BlockReason(code: string, message: string)

  datatype Facts = Facts(
    id: string, revision: u64, objective: string, phase: Phase,
    blockedReason: Option<BlockReason>, maxRounds: u32)

  datatype Durable = Durable(goal: Facts, roundsStarted: u32, createdAt: int, updatedAt: int)

  datatype GoalRef = GoalRef(id: string, revision: u64)

  datatype Operation = Create | Edit | Pause | Resume | Finish | Block | Clear

  datatype Change = Change(
    kind: string, version: nat, operation: Operation,
    goal: Option<Facts>, roundsStarted: Option<u32>, createdAt: Option<int>, updatedAt: Option<int>,
    cleared: Option<GoalRef>, clearedAt: Option<int>)

  function Mutation(operation: Operation, next: Durable): Change {
    Change("goal/change", GOAL_CHANGE_VERSION, operation, Some(next.goal), Some(next.roundsStarted),
           Some(next.createdAt), Some(next.updatedAt), None, None)
  }

  function ClearChange(cleared: GoalRef, clearedAt: int): Change {
    Change("goal/change", GOAL_CHANGE_VERSION, Clear, None, None, None, None, Some(cleared), Some(clearedAt))
  }

  // ----- validation -----

  function ValidateId(id: string): Result<(), GoalError> {
    if id == "" || Utf8Length(id) > 256 || exists c :: c in id && IsControl(c)
    then Err(InvalidEvent) else Ok(())
  }

  function ValidateObjective(objective: string): Result<string, GoalError> {
    var trimmed := Trim(objective);
    if trimmed == "" then Err(EmptyObjective)
    else if Utf8Length(trimmed) > MAX_GOAL_OBJECTIVE_BYTES then Err(ObjectiveTooLarge)
    else Ok(trimmed)
  }

  function ValidateMaxRounds(value: u32): Result<u32, GoalError> {
    if value == 0 then Err(InvalidMaxRounds) else Ok(value)
  }

  predicate IsCodeChar(c: char) {
    'a' <= c <= 'z' || '0' <= c <= '9' || c == '-'
  }

  function ValidateReason(reason: BlockReason): Result<(), GoalError> {
    var validCode := reason.code != "" && Utf8Length(reason.code) <= 128 && forall c :: c in reason.code ==> IsCodeChar(c);
    if !validCode || Trim(reason.message) == "" || Utf8Length(reason.message) > 4 * 1024
    then Err(InvalidEvent) else Ok(())
  }

  function ValidateFacts(goal: Facts): Result<(), GoalError> {
    var _ :- ValidateId(goal.id);
    if goal.revision == 0 || goal.revision > MAX_SAFE_INTEGER then Err(InvalidEvent) else
    var _ :- ValidateObjective(goal.objective);
    if goal.maxRounds == 0 then Err(InvalidEvent) else
    match (goal.phase, goal.blockedReason)
    case (Blocked, Some(reason)) => ValidateReason(reason)
    case (Blocked, None) => Err(InvalidEvent)
    case (_, Some(_)) => Err(InvalidEvent)
    case (_, None) => Ok(())
  }

  function ValidateClear(change: Change): Result<(), GoalError> {
    if change.goal.Some? || change.roundsStarted.Some? || change.createdAt.Some? || change.updatedAt.Some?
       || change.clearedAt.None? || change.cleared.None?
    then Err(InvalidEvent) else
    var _ :- ValidateId(change.cleared.value.id);
    var revision := change.cleared.value.revision;
    if revision == 0 || revision > MAX_SAFE_INTEGER then Err(InvalidEvent) else Ok(())
  }

  function ValidateMutation(change: Change): Result<(), GoalError> {
    if change.cleared.Some? || change.clearedAt.Some? || change.goal.None? then Err(InvalidEvent) else
    var _ :- ValidateFacts(change.goal.value);
    if change.roundsStarted.None? || change.roundsStarted.value > change.goal.value.maxRounds then Err(InvalidEvent)
    else if change.createdAt.None? || change.updatedAt.None? then Err(InvalidEvent)
    else if change.updatedAt.value < change.createdAt.value then Err(InvalidEvent)
    else Ok(())
  }

  function Validate(change: Change): Result<(), GoalError> {
    if change.kind != "goal/change" || change.version != GOAL_CHANGE_VERSION then Err(InvalidEvent)
    else if change.operation == Clear then ValidateClear(change)
    else ValidateMutation(change)
  }

  // ----- replay -----

  datatype Replay = Replay(current: Option<Durable>, usedIds: set<string>)

  const EMPTY_REPLAY := Replay(None, {})

  function DurableState(change: Change): Result<Durable, GoalError> {
    if change.goal.None? || change.roundsStarted.None? || change.createdAt.None? || change.updatedAt.None?
    then Err(InvalidEvent)
    else Ok(Durable(change.goal.value, change.roundsStarted.value, change.createdAt.value, change.updatedAt.value))
  }

  predicate SameDefinition(current: Facts, next: Facts) {
    current.objective == next.objective && current.maxRounds == next.maxRounds
  }

  function ApplyCreate(state: Replay, change: Change): Result<Replay, GoalError> {
    if state.current.Some? && state.current.value.goal.phase != Complete then Err(InvalidEvent) else
    var next :- DurableState(change);
    if next.goal.revision != 1 || next.goal.phase != Active || next.roundsStarted != 0
       || next.goal.id in state.usedIds
    then Err(InvalidEvent)
    else Ok(Replay(Some(next), state.usedIds + {next.goal.id}))
  }

  predicate ValidTransition(operation: Operation, current: Durable, next: Durable) {
    match operation
    case Edit =>
      next.goal.phase == current.goal.phase && next.goal.blockedReason == current.goal.blockedReason
    case Pause =>
      && current.goal.phase == Active && next.goal.phase == Paused && next.goal.blockedReason.None?
      && SameDefinition(current.goal, next.goal)
    case Resume =>
      && current.goal.phase != Complete && next.goal.phase == Active && next.goal.blockedReason.None?
      && next.roundsStarted < next.goal.maxRounds && SameDefinition(current.goal, next.goal)
    case Finish =>
      && current.goal.phase != Complete && next.goal.phase == Complete && next.goal.blockedReason.None?
      && SameDefinition(current.goal, next.goal)
    case Block =>
      && current.goal.phase == Active && next.goal.phase == Blocked && next.goal.blockedReason.Some?
      && SameDefinition(current.goal, next.goal)
    case Create => false
    case Clear => false
  }

  function ApplyUpdate(state: Replay, change: Change): Result<Replay, GoalError> {
    if state.current.None? then Err(InvalidEvent) else
    var current := state.current.value;
    var next :- DurableState(change);
    if || next.goal.id != current.goal.id
       || next.goal.revision != SaturatingAdd(current.goal.revision, 1, MAX_U64)
       || (next.goal.objective != current.goal.objective && change.operation != Edit)
       || next.roundsStarted != current.roundsStarted
       || next.createdAt != current.createdAt
       || next.updatedAt < current.updatedAt
    then Err(InvalidEvent)
    else if !ValidTransition(change.operation, current, next) then Err(InvalidEvent)
    else Ok(state.(current := Some(next)))
  }

  function ApplyClear(state: Replay, change: Change): Result<Replay, GoalError> {
    if state.current.None? || change.cleared.None? then Err(InvalidEvent) else
    var current := state.current.value;
    if || change.cleared.value.id != current.goal.id
       || change.cleared.value.revision != SaturatingAdd(current.goal.revision, 1, MAX_U64)
       || (change.clearedAt.Some? && change.clearedAt.value < current.updatedAt)
    then Err(InvalidEvent)
    else Ok(state.(current := None))
  }

  function ApplyChange(state: Replay, change: Change): Result<Replay, GoalError> {
    var _ :- Validate(change);
    match change.operation
    case Create => ApplyCreate(state, change)
    case Clear => ApplyClear(state, change)
    case _ => ApplyUpdate(state, change)
  }

  /** The parsed source of a user message: unrelated, malformed, or one Goal round. */
  datatype MessageSource =
    | Unrelated
    | Malformed
    | GoalRound(goalId: string, revision: u64, round: u32)

  function ApplyMessage(state: Replay, source: MessageSource): Result<Replay, GoalError> {
    match source
    case Unrelated => Ok(state)
    case Malformed => Err(InvalidEvent)
    case GoalRound(goalId, revision, round) =>
      if state.current.None? then Err(InvalidEvent) else
      var current := state.current.value;
      if || current.goal.phase != Active || current.goal.id != goalId || current.goal.revision != revision
         || round != SaturatingAdd(current.roundsStarted, 1, MAX_U32)
         || round > current.goal.maxRounds
      then Err(InvalidEvent)
      else Ok(state.(current := Some(current.(roundsStarted := round))))
  }

  datatype Event = Changed(change: Change) | Message(source: MessageSource)

  function ApplyEvent(state: Replay, event: Event): Result<Replay, GoalError> {
    match event
    case Changed(change) => ApplyChange(state, change)
    case Message(source) => ApplyMessage(state, source)
  }

  /** Replay of a whole committed log. */
  function ReplayLog(log: seq<Event>): Result<Replay, GoalError> {
    if log == [] then Ok(EMPTY_REPLAY) else
    var state :- ReplayLog(log[..|log| - 1]);
    ApplyEvent(state, log[|log| - 1])
  }

  lemma ReplayAppend(log: seq<Event>, event: Event)
    ensures ReplayLog(log + [event])
         == (var before := ReplayLog(log); if before.Ok? then ApplyEvent(before.value, event) else before)
  {
    assert (log + [event])[..|log|] == log;
  }

  /** The replay object updates its two fields in place. */
  class ReplayState {
    var current: Option<Durable>
    var usedIds: set<string>

    constructor ()
      ensures State() == EMPTY_REPLAY
    {
      current := None;
      usedIds := {};
    }

    function State(): Replay
      reads this
    {
      Replay(current, usedIds)
    }

    method ApplyGoalChange(change: Change) returns (r: Result<(), GoalError>)
      modifies this
      ensures r.Ok? <==> ApplyChange(old(State()), change).Ok?
      ensures r.Ok? ==> State() == ApplyChange(old(State()), change).value
      ensures r.Err? ==> State() == old(State()) && r.error == ApplyChange(old(State()), change).error
    {
      var valid := Validate(change);
      if valid.Err? {
        return Err(valid.error);
      }
      match change.operation
      case Create =>
        if current.Some? && current.value.goal.phase != Complete {
          return Err(InvalidEvent);
        }
        var next := DurableState(change);
        if next.Err? || next.value.goal.revision != 1 || next.value.goal.phase != Active
           || next.value.roundsStarted != 0 || next.value.goal.id in usedIds {
          return Err(InvalidEvent);
        }
        usedIds := usedIds + {next.value.goal.id};
        current := Some(next.value);
        return Ok(());
      case Clear =>
        var cleared := ApplyClear(State(), change);
        if cleared.Err? {
          return Err(cleared.error);
        }
        current := None;
        return Ok(());
      case _ =>
        var updated := ApplyUpdate(State(), change);
        if updated.Err? {
          return Err(updated.error);
        }
        current := updated.value.current;
        return Ok(());
    }

    method ApplyGoalMessage(source: MessageSource) returns (r: Result<(), GoalError>)
      modifies this
      ensures r.Ok? <==> ApplyMessage(old(State()), source).Ok?
      ensures r.Ok? ==> State() == ApplyMessage(old(State()), source).value
      ensures r.Err? ==> State() == old(State()) && r.error == ApplyMessage(old(State()), source).error
    {
      match source
      case Unrelated => return Ok(());
      case Malformed => return Err(InvalidEvent);
      case GoalRound(goalId, revision, round) =>
        if current.None? {
          return Err(InvalidEvent);
        }
        var goal := current.value;
        if || goal.goal.phase != Active || goal.goal.id != goalId || goal.goal.revision != revision
           || round != SaturatingAdd(goal.roundsStarted, 1, MAX_U32)
           || round > goal.goal.maxRounds {
          return Err(InvalidEvent);
        }
        current := Some(goal.(roundsStarted := round));
        return Ok(());
    }
  }
}
