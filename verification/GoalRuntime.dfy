/**
  The process-local side of one Goal (src/goal.rs:602-1141): a change is
  prepared under the lock, then installed after its event commits, or dropped.
  Entropy and the clock are the arguments `uuid` and `now`; `None` is a failing
  source.
*/
module GoalRuntime {
  import opened Wrappers
  import opened Text
  import opened GoalFacts

  datatype GoalState = GoalState(
    current: Option<Durable>, usedIds: set<string>, armed: bool, pending: Option<u64>, nextToken: u64)

  datatype Prepared = Prepared(token: u64, change: Change, next: Option<Durable>, armed: bool)

  datatype Update = UpdateEdit | UpdatePause | UpdateResume | UpdateComplete | UpdateBlocked

  datatype UpdateRequest = UpdateRequest(
    expectedId: Option<string>, expectedRevision: u64, update: Update,
    objective: Option<string>, maxRounds: Option<u32>, reason: Option<BlockReason>)

  datatype Round = Round(goalId: string, revision: u64, number: u32)

  const REPEATED_BLOCKER := BlockReason(
    "repeated-blocker", "the same external blocker prevented progress for three rounds")

  function FromReplay(replay: Replay): GoalState {
    GoalState(replay.current, replay.usedIds, false, None, 0)
  }

  // ----- preparing -----

  function PrepareLocked(state: GoalState, next: Option<Durable>, armed: bool, change: Change)
    : Result<Prepared, GoalError>
  {
    var _ :- Validate(change);
    if state.nextToken == MAX_U64 then Err(Unavailable)
    else Ok(Prepared(state.nextToken + 1, change, next, armed))
  }

  /** The only effect of a successful preparation: its token becomes the pending one. */
  function AfterPrepare(state: GoalState, prepared: Result<Prepared, GoalError>): GoalState {
    if prepared.Ok? then state.(pending := Some(prepared.value.token), nextToken := prepared.value.token)
    else state
  }

  function PrepareCreate(state: GoalState, objective: string, maxRounds: Option<u32>,
                         uuid: Option<string>, now: Option<int>): Result<Prepared, GoalError>
  {
    var objective :- ValidateObjective(objective);
    var maxRounds :- ValidateMaxRounds(if maxRounds.Some? then maxRounds.value else MAX_GOAL_ROUNDS);
    if state.pending.Some? then Err(Busy)
    else if state.current.Some? && state.current.value.goal.phase != Complete then Err(Unfinished)
    else if uuid.None? then Err(Unavailable) else
    var id := "goal-" + uuid.value;
    if id in state.usedIds || now.None? then Err(Unavailable) else
    var next := Durable(Facts(id, 1, objective, Active, None, maxRounds), 0, now.value, now.value);
    PrepareLocked(state, Some(next), true, Mutation(Create, next))
  }

  function CheckRequest(request: UpdateRequest): Result<(Option<string>, Option<u32>), GoalError> {
    var objective :-
      if request.objective.None? then Ok(None)
      else (var o :- ValidateObjective(request.objective.value); Ok(Some(o)));
    var maxRounds :-
      if request.maxRounds.None? then Ok(None)
      else (var m :- ValidateMaxRounds(request.maxRounds.value); Ok(Some(m)));
    match request.update
    case UpdateEdit =>
      if objective.None? && maxRounds.None? then Err(InvalidEdit)
      else if request.reason.Some? then Err(InvalidTransition)
      else Ok((objective, maxRounds))
    case UpdateBlocked =>
      if objective.Some? || maxRounds.Some? then Err(InvalidTransition) else Ok((objective, maxRounds))
    case _ =>
      if objective.Some? || maxRounds.Some? || request.reason.Some? then Err(InvalidTransition)
      else Ok((objective, maxRounds))
  }

  /** The transition table: what an update writes, which operation it logs, and whether it arms. */
  function Transition(state: GoalState, current: Durable, request: UpdateRequest,
                      objective: Option<string>, maxRounds: Option<u32>): Result<(Durable, Operation, bool), GoalError>
  {
    var goal := current.goal;
    match request.update
    case UpdateEdit =>
      var edited := goal.(objective := if objective.Some? then objective.value else goal.objective,
                          maxRounds := if maxRounds.Some? then maxRounds.value else goal.maxRounds);
      Ok((current.(goal := edited), Edit, state.armed))
    case UpdatePause =>
      if goal.phase != Active then Err(InvalidTransition)
      else Ok((current.(goal := goal.(phase := Paused, blockedReason := None)), Pause, false))
    case UpdateResume =>
      if goal.phase == Complete || current.roundsStarted >= goal.maxRounds then Err(InvalidTransition)
      else Ok((current.(goal := goal.(phase := Active, blockedReason := None)), Resume, true))
    case UpdateComplete =>
      if goal.phase == Complete then Err(InvalidTransition)
      else Ok((current.(goal := goal.(phase := Complete, blockedReason := None)), Finish, false))
    case UpdateBlocked =>
      if goal.phase != Active then Err(InvalidTransition) else
      var reason := if request.reason.Some? then request.reason.value else REPEATED_BLOCKER;
      Ok((current.(goal := goal.(phase := Blocked, blockedReason := Some(reason))), Block, false))
  }

  function NextRevision(revision: u64): Result<u64, GoalError> {
    if revision + 1 > MAX_SAFE_INTEGER then Err(Unavailable) else Ok(revision + 1)
  }

  function PrepareUpdate(state: GoalState, request: UpdateRequest, now: Option<int>): Result<Prepared, GoalError> {
    var (objective, maxRounds) :- CheckRequest(request);
    if state.pending.Some? then Err(Busy)
    else if state.current.None? then Err(Missing) else
    var current := state.current.value;
    if current.goal.revision != request.expectedRevision then Err(StaleRevision)
    else if request.expectedId.Some? && request.expectedId.value != current.goal.id then Err(StaleRevision) else
    var (changed, operation, armed) :- Transition(state, current, request, objective, maxRounds);
    var revision :- NextRevision(current.goal.revision);
    if now.None? then Err(Unavailable) else
    var updatedAt := if now.value >= current.updatedAt then now.value else current.updatedAt;
    var next := changed.(goal := changed.goal.(revision := revision), updatedAt := updatedAt);
    PrepareLocked(state, Some(next), armed, Mutation(operation, next))
  }

  function PrepareClear(state: GoalState, now: Option<int>): Result<Prepared, GoalError> {
    if state.pending.Some? then Err(Busy)
    else if state.current.None? then Err(Missing) else
    var revision :- NextRevision(state.current.value.goal.revision);
    if now.None? then Err(Unavailable) else
    PrepareLocked(state, None, false, ClearChange(GoalRef(state.current.value.goal.id, revision), now.value))
  }

  // ----- settling -----

  function Install(state: GoalState, prepared: Prepared): (GoalState, Result<(), GoalError>) {
    if state.pending != Some(prepared.token) then (state, Err(Unavailable))
    else if prepared.change.operation == Create && prepared.next.None? then
      (state.(current := None), Err(Unavailable))
    else
      var ids := if prepared.change.operation == Create
                 then state.usedIds + {prepared.next.value.goal.id} else state.usedIds;
      (GoalState(prepared.next, ids, prepared.armed, None, state.nextToken), Ok(()))
  }

  function Abandon(state: GoalState, prepared: Prepared): GoalState {
    if state.pending == Some(prepared.token) then state.(pending := None) else state
  }

  // ----- rounds -----

  function StartRound(state: GoalState): (GoalState, Result<Option<Round>, GoalError>) {
    if state.pending.Some? then (state, Err(Busy))
    else if !state.armed || state.current.None? then (state, Ok(None)) else
    var current := state.current.value;
    if current.goal.phase != Active || current.roundsStarted >= current.goal.maxRounds then
      (state.(armed := false), Ok(None))
    else
      var number := current.roundsStarted + 1;
      (state.(current := Some(current.(roundsStarted := number))),
       Ok(Some(Round(current.goal.id, current.goal.revision, number))))
  }

  function RollbackRound(state: GoalState, revision: u64, round: u32): GoalState {
    if state.current.Some? && state.current.value.goal.revision == revision && state.current.value.roundsStarted == round
    then state.(current := Some(state.current.value.(roundsStarted := SaturatingSub(round, 1))))
    else state
  }

  // ----- the objects -----

  /** One Goal shared by its owners; every method is one critical section of the lock. */
  class Runtime {
    var current: Option<Durable>
    var usedIds: set<string>
    var armed: bool
    var pending: Option<u64>
    var nextToken: u64

    constructor (replay: Replay)
      ensures State() == FromReplay(replay)
    {
      current, usedIds, armed, pending, nextToken := replay.current, replay.usedIds, false, None, 0;
    }

    function State(): GoalState
      reads this
    {
      GoalState(current, usedIds, armed, pending, nextToken)
    }

    /** What a reader of the Goal can observe. */
    function Snapshot(): Option<(Durable, bool)>
      reads this
    {
      if current.Some? then Some((current.value, armed)) else None
    }

    method PrepareUnderLock(next: Option<Durable>, arm: bool, change: Change)
      returns (r: Result<Prepared, GoalError>)
      modifies this`pending, this`nextToken
      ensures r == PrepareLocked(old(State()), next, arm, change)
      ensures State() == AfterPrepare(old(State()), r)
    {
      var valid := Validate(change);
      if valid.Err? {
        return Err(valid.error);
      }
      if nextToken == MAX_U64 {
        return Err(Unavailable);
      }
      nextToken := nextToken + 1;
      pending := Some(nextToken);
      r := Ok(Prepared(nextToken, change, next, arm));
    }

    method Create(objective: string, maxRounds: Option<u32>, uuid: Option<string>, now: Option<int>)
      returns (r: Result<Prepared, GoalError>)
      modifies this`pending, this`nextToken
      ensures r == PrepareCreate(old(State()), objective, maxRounds, uuid, now)
      ensures State() == AfterPrepare(old(State()), r)
      ensures Snapshot() == old(Snapshot())
    {
      var trimmed := ValidateObjective(objective);
      if trimmed.Err? {
        return Err(trimmed.error);
      }
      var limit := ValidateMaxRounds(if maxRounds.Some? then maxRounds.value else MAX_GOAL_ROUNDS);
      if limit.Err? {
        return Err(limit.error);
      }
      if pending.Some? {
        return Err(Busy);
      }
      if current.Some? && current.value.goal.phase != Complete {
        return Err(Unfinished);
      }
      if uuid.None? {
        return Err(Unavailable);
      }
      var id := "goal-" + uuid.value;
      if id in usedIds || now.None? {
        return Err(Unavailable);
      }
      var next := Durable(Facts(id, 1, trimmed.value, Active, None, limit.value), 0, now.value, now.value);
      r := PrepareUnderLock(Some(next), true, Mutation(GoalFacts.Create, next));
    }

    method UpdateExact(request: UpdateRequest, now: Option<int>) returns (r: Result<Prepared, GoalError>)
      modifies this`pending, this`nextToken
      ensures r == PrepareUpdate(old(State()), request, now)
      ensures State() == AfterPrepare(old(State()), r)
      ensures Snapshot() == old(Snapshot())
    {
      var checked := CheckRequest(request);
      if checked.Err? {
        return Err(checked.error);
      }
      if pending.Some? {
        return Err(Busy);
      }
      if current.None? {
        return Err(Missing);
      }
      var goal := current.value;
      if goal.goal.revision != request.expectedRevision
         || (request.expectedId.Some? && request.expectedId.value != goal.goal.id) {
        return Err(StaleRevision);
      }
      var changed := Transition(State(), goal, request, checked.value.0, checked.value.1);
      if changed.Err? {
        return Err(changed.error);
      }
      var revision := NextRevision(goal.goal.revision);
      if revision.Err? || now.None? {
        return Err(Unavailable);
      }
      var (next, operation, arm) := changed.value;
      next := next.(goal := next.goal.(revision := revision.value),
                    updatedAt := if now.value >= goal.updatedAt then now.value else goal.updatedAt);
      r := PrepareUnderLock(Some(next), arm, Mutation(operation, next));
    }

    method Clear(now: Option<int>) returns (r: Result<Prepared, GoalError>)
      modifies this`pending, this`nextToken
      ensures r == PrepareClear(old(State()), now)
      ensures State() == AfterPrepare(old(State()), r)
      ensures Snapshot() == old(Snapshot())
    {
      if pending.Some? {
        return Err(Busy);
      }
      if current.None? {
        return Err(Missing);
      }
      var revision := NextRevision(current.value.goal.revision);
      if revision.Err? || now.None? {
        return Err(Unavailable);
      }
      r := PrepareUnderLock(None, false, ClearChange(GoalRef(current.value.goal.id, revision.value), now.value));
    }

    method NextRound() returns (r: Result<Option<Round>, GoalError>)
      modifies this`current, this`armed
      ensures (State(), r) == StartRound(old(State()))
    {
      if pending.Some? {
        return Err(Busy);
      }
      if !armed || current.None? {
        return Ok(None);
      }
      var goal := current.value;
      if goal.goal.phase != Active || goal.roundsStarted >= goal.goal.maxRounds {
        armed := false;
        return Ok(None);
      }
      current := Some(goal.(roundsStarted := goal.roundsStarted + 1));
      r := Ok(Some(Round(goal.goal.id, goal.goal.revision, goal.roundsStarted + 1)));
    }

    method RollbackUncommittedRound(revision: u64, round: u32)
      modifies this`current
      ensures State() == RollbackRound(old(State()), revision, round)
    {
      if current.Some? && current.value.goal.revision == revision && current.value.roundsStarted == round {
        current := Some(current.value.(roundsStarted := SaturatingSub(round, 1)));
      }
    }
  }

  /** A single-use mutation: installed once its event commits, otherwise dropped. */
  class PreparedMutation {
    const runtime: Runtime
    const prepared: Prepared
    var settled: bool

    constructor (runtime: Runtime, prepared: Prepared)
      ensures this.runtime == runtime && this.prepared == prepared && !settled
    {
      this.runtime, this.prepared, settled := runtime, prepared, false;
    }

    method Commit() returns (r: Result<(), GoalError>)
      requires !settled
      modifies this`settled, runtime
      ensures (runtime.State(), r) == Install(old(runtime.State()), prepared)
      ensures settled == r.Ok?
    {
      if runtime.pending != Some(prepared.token) {
        return Err(Unavailable);
      }
      runtime.current := prepared.next;
      if prepared.change.operation == Create {
        if prepared.next.None? {
          return Err(Unavailable);
        }
        runtime.usedIds := runtime.usedIds + {prepared.next.value.goal.id};
      }
      runtime.armed := prepared.armed;
      runtime.pending := None;
      settled := true;
      r := Ok(());
    }

    method Drop()
      modifies runtime`pending
      ensures runtime.State() == if settled then old(runtime.State()) else Abandon(old(runtime.State()), prepared)
      ensures runtime.Snapshot() == old(runtime.Snapshot())
    {
      if settled {
        return;
      }
      if runtime.pending == Some(prepared.token) {
        runtime.pending := None;
      }
    }
  }
}
