/**
  What a Goal operation writes and when it is refused, said of the request and the Goal
  alone (src/goal.rs:249-414, 720-944): the fields of the prepared Goal, the logged
  operation, and the first guard that stands in the way.
*/
module GoalLaws {
  import opened Wrappers
  import opened Text
  import opened GoalFacts
  import opened GoalRuntime

  /** A Goal that replay could have produced. */
  predicate WellKept(goal: Durable) {
    && ValidateFacts(goal.goal).Ok? && goal.roundsStarted <= goal.goal.maxRounds && goal.createdAt <= goal.updatedAt
  }

  // ----- updates -----

  /** The phase each update leads to; an edit keeps it. */
  function PhaseAfter(update: Update, before: Phase): Phase {
    match update
    case UpdateEdit => before
    case UpdatePause => Paused
    case UpdateResume => Active
    case UpdateComplete => Complete
    case UpdateBlocked => Blocked
  }

  function LoggedAs(update: Update): Operation {
    match update
    case UpdateEdit => Edit
    case UpdatePause => Pause
    case UpdateResume => Resume
    case UpdateComplete => Finish
    case UpdateBlocked => Block
  }

  /** Only a block gives a reason: the one asked for, or the standard one. */
  function ReasonAfter(request: UpdateRequest, was: Facts): Option<BlockReason> {
    match request.update
    case UpdateEdit => was.blockedReason
    case UpdateBlocked => Some(if request.reason.Some? then request.reason.value else REPEATED_BLOCKER)
    case _ => None
  }

  /**
    A prepared update keeps identity, rounds and creation time, and changes exactly what the
    request names: the trimmed objective and the cap of an edit, the phase and the block
    reason of the other kinds. Only a resume arms and only an edit keeps the armed flag.
  */
  lemma UpdateWrites(state: GoalState, request: UpdateRequest, now: Option<int>)
    requires PrepareUpdate(state, request, now).Ok?
    ensures state.current.Some? && now.Some? && PrepareUpdate(state, request, now).value.next.Some?
    ensures var p := PrepareUpdate(state, request, now).value;
      var was, next := state.current.value, p.next.value;
      && next.goal.objective == (if request.objective.Some? then Trim(request.objective.value) else was.goal.objective)
      && next.goal.maxRounds == (if request.maxRounds.Some? then request.maxRounds.value else was.goal.maxRounds)
      && (request.objective.Some? || request.maxRounds.Some? <==> request.update.UpdateEdit?)
      && next.goal.phase == PhaseAfter(request.update, was.goal.phase)
      && next.goal.blockedReason == ReasonAfter(request, was.goal)
      && next.goal.id == was.goal.id && next.goal.revision == was.goal.revision + 1
      && next.roundsStarted == was.roundsStarted && next.createdAt == was.createdAt
      && next.updatedAt == (if now.value < was.updatedAt then was.updatedAt else now.value)
      && p.armed == (request.update.UpdateResume? || (request.update.UpdateEdit? && state.armed))
      && p.token == state.nextToken + 1
      && p.change == Change("goal/change", 1, LoggedAs(request.update), Some(next.goal), Some(next.roundsStarted),
                            Some(next.createdAt), Some(next.updatedAt), None, None)
  {
    hide Validate, Trim, Utf8Length;
  }

  /** The request alone: an edit names an objective or a cap, only a block names a reason, and both are well formed. */
  predicate WellAsked(request: UpdateRequest) {
    && (request.objective.Some? ==>
          Trim(request.objective.value) != "" && Utf8Length(Trim(request.objective.value)) <= 4_096)
    && request.maxRounds != Some(0)
    && (if request.update.UpdateEdit? then request.objective.Some? || request.maxRounds.Some?
        else request.objective.None? && request.maxRounds.None?)
    && (request.reason.Some? ==> request.update.UpdateBlocked?)
  }

  /** The phases an update may start from; a resume also needs a round left. */
  predicate MayUpdate(update: Update, goal: Durable) {
    match update
    case UpdateEdit => true
    case UpdatePause => goal.goal.phase == Active
    case UpdateResume => goal.goal.phase != Complete && goal.roundsStarted < goal.goal.maxRounds
    case UpdateComplete => goal.goal.phase != Complete
    case UpdateBlocked => goal.goal.phase == Active
  }

  /** What the next Goal must still satisfy to be logged: rounds within a new cap, and a reason that can be stored. */
  predicate MayStore(request: UpdateRequest, goal: Durable) {
    && (request.maxRounds.Some? ==> goal.roundsStarted <= request.maxRounds.value)
    && (request.reason.Some? ==> ValidateReason(request.reason.value).Ok?)
  }

  lemma CodeIsValid(code: string)
    requires code == "repeated-blocker"
    ensures |code| == 16 && forall c :: c in code ==> IsCodeChar(c)
  {
    forall i | 0 <= i < |code| ensures IsCodeChar(code[i]) {
    }
  }

  lemma MessageEnd(message: string)
    requires message == "the same external blocker prevented progress for three rounds"
    ensures 0 < |message| <= 1_024 && !IsWhitespace(message[|message| - 1])
  {
  }

  lemma RepeatedBlockerIsValid()
    ensures ValidateReason(REPEATED_BLOCKER).Ok?
  {
    var code, message := REPEATED_BLOCKER.code, REPEATED_BLOCKER.message;
    CodeIsValid(code);
    MessageEnd(message);
    hide *;
    Utf8Bound(code);
    Utf8Bound(message);
    TrimKeepsEnd(message);
    ReasonValidIff(REPEATED_BLOCKER);
  }

  lemma ReasonValidIff(reason: BlockReason)
    ensures ValidateReason(reason).Ok? <==>
      && reason.code != "" && Utf8Length(reason.code) <= 128 && (forall c :: c in reason.code ==> IsCodeChar(c))
      && Trim(reason.message) != "" && Utf8Length(reason.message) <= 4_096
  {
    hide Trim, Utf8Length, IsCodeChar;
  }

  lemma Utf8Bound(s: string)
    ensures |s| <= Utf8Length(s) <= 4 * |s|
  {
  }

  lemma TrimKeepsEnd(s: string)
    requires s != "" && !IsWhitespace(s[|s| - 1])
    ensures Trim(s) != ""
  {
    StartKeepsEnd(s);
  }

  lemma StartKeepsEnd(s: string)
    requires s != "" && !IsWhitespace(s[|s| - 1])
    ensures TrimStart(s) != "" && TrimStart(s)[|TrimStart(s)| - 1] == s[|s| - 1]
  {
  }

  /** Trimming what is trimmed changes nothing. */
  lemma TrimTwice(s: string)
    ensures Trim(Trim(s)) == Trim(s)
  {
    StartTrimmed(s);
    EndTrimmed(TrimStart(s));
    var t := Trim(s);
    if t != "" {
      EndKeepsHead(TrimStart(s));
    }
  }

  lemma StartTrimmed(s: string)
    ensures var t := TrimStart(s); t != "" ==> !IsWhitespace(t[0])
  {
  }

  lemma EndTrimmed(s: string)
    ensures var t := TrimEnd(s); (t != "" ==> !IsWhitespace(t[|t| - 1])) && TrimEnd(t) == t
  {
  }

  lemma EndKeepsHead(s: string)
    requires TrimEnd(s) != ""
    ensures s != "" && TrimEnd(s)[0] == s[0]
  {
  }

  lemma FactsValidIff(goal: Facts)
    ensures ValidateFacts(goal).Ok? <==>
      && ValidateId(goal.id).Ok? && 0 < goal.revision <= MAX_SAFE_INTEGER && ValidateObjective(goal.objective).Ok? && goal.maxRounds > 0
      && ReasonFits(goal)
  {
    hide ValidateId, ValidateObjective, ValidateReason;
  }

  lemma MutationValidIff(operation: Operation, next: Durable)
    requires operation != Clear
    ensures Validate(Mutation(operation, next)).Ok? <==> WellKept(next)
  {
    assert WellKept(next) <==> ValidateFacts(next.goal).Ok? && next.roundsStarted <= next.goal.maxRounds && next.createdAt <= next.updatedAt;
    hide ValidateFacts;
  }

  lemma AskedIff(request: UpdateRequest)
    ensures CheckRequest(request).Ok? <==> WellAsked(request)
    ensures CheckRequest(request).Ok? ==>
      CheckRequest(request).value == (if request.objective.Some? then Some(Trim(request.objective.value)) else None, request.maxRounds)
  {
    hide Trim, Utf8Length;
  }

  /** The Goal an accepted transition would store, before it is validated. */
  function Successor(state: GoalState, request: UpdateRequest, now: int): Durable
    requires CheckRequest(request).Ok? && state.current.Some? && state.current.value.goal.revision < MAX_SAFE_INTEGER
    requires Transition(state, state.current.value, request, CheckRequest(request).value.0, CheckRequest(request).value.1).Ok?
  {
    var current := state.current.value;
    var changed := Transition(state, current, request, CheckRequest(request).value.0, CheckRequest(request).value.1).value.0;
    changed.(goal := changed.goal.(revision := current.goal.revision + 1),
             updatedAt := if now >= current.updatedAt then now else current.updatedAt)
  }

  predicate ReadyToStore(state: GoalState, request: UpdateRequest)
  {
    && WellAsked(request) && state.current.Some? && WellKept(state.current.value)
    && state.current.value.goal.revision < MAX_SAFE_INTEGER && CheckRequest(request).Ok?
    && Transition(state, state.current.value, request, CheckRequest(request).value.0, CheckRequest(request).value.1).Ok?
  }

  predicate Succeeds(request: UpdateRequest, was: Durable, next: Durable) {
    && next.goal.id == was.goal.id && next.goal.revision == was.goal.revision + 1
    && next.goal.objective == (if request.objective.Some? then Trim(request.objective.value) else was.goal.objective)
    && next.goal.maxRounds == (if request.maxRounds.Some? then request.maxRounds.value else was.goal.maxRounds)
    && next.roundsStarted == was.roundsStarted && next.createdAt == was.createdAt <= next.updatedAt
    && next.goal.phase == PhaseAfter(request.update, was.goal.phase)
    && next.goal.blockedReason == ReasonAfter(request, was.goal)
  }

  lemma SuccessorFacts(state: GoalState, request: UpdateRequest, now: int)
    requires ReadyToStore(state, request)
    ensures Succeeds(request, state.current.value, Successor(state, request, now))
  {
    AskedIff(request);
    var (objective, maxRounds) := CheckRequest(request).value;
    var was := state.current.value;
    hide Trim, Utf8Length, CheckRequest, ValidateFacts, Validate;
    var changed := Transition(state, was, request, objective, maxRounds).value.0;
    assert changed.goal.phase == PhaseAfter(request.update, was.goal.phase);
    assert changed.goal.objective == (if request.objective.Some? then Trim(request.objective.value) else was.goal.objective);
    assert changed.goal.maxRounds == (if request.maxRounds.Some? then request.maxRounds.value else was.goal.maxRounds);
  }

  lemma StoredIff(state: GoalState, request: UpdateRequest, now: int)
    requires ReadyToStore(state, request)
    ensures Validate(Mutation(LoggedAs(request.update), Successor(state, request, now))).Ok? <==> MayStore(request, state.current.value)
  {
    var was, next := state.current.value, Successor(state, request, now);
    assert WellAsked(request) && WellKept(was) && was.goal.revision < MAX_SAFE_INTEGER && MayUpdate(request.update, was);
    SuccessorFacts(state, request, now);
    hide *;
    MutationValidIff(LoggedAs(request.update), next);
    StoredValues(request, was, next);
  }

  predicate ReasonFits(goal: Facts) {
    if goal.phase == Blocked then goal.blockedReason.Some? && ValidateReason(goal.blockedReason.value).Ok? else goal.blockedReason.None?
  }

  lemma ReasonFitsIff(request: UpdateRequest, was: Durable, next: Durable)
    requires (request.reason.Some? ==> request.update.UpdateBlocked?) && ReasonFits(was.goal)
    requires next.goal.phase == PhaseAfter(request.update, was.goal.phase) && next.goal.blockedReason == ReasonAfter(request, was.goal)
    ensures ReasonFits(next.goal) <==> (request.reason.Some? ==> ValidateReason(request.reason.value).Ok?)
  {
    RepeatedBlockerIsValid();
    hide ValidateReason;
  }

  lemma StoredValues(request: UpdateRequest, was: Durable, next: Durable)
    requires WellAsked(request) && WellKept(was) && was.goal.revision < MAX_SAFE_INTEGER
    requires Succeeds(request, was, next)
    ensures WellKept(next) <==> MayStore(request, was)
  {
    ObjectiveStaysValid(request, was);
    AskedShape(request);
    KeptIff(was);
    KeptIff(next);
    hide Trim, WellKept, WellAsked, ValidateObjective, ValidateReason, ValidateId, PhaseAfter, ReasonAfter, ReasonFits;
    ReasonFitsIff(request, was, next);
  }

  lemma AskedShape(request: UpdateRequest)
    requires WellAsked(request)
    ensures request.maxRounds != Some(0) && (request.reason.Some? ==> request.update.UpdateBlocked?)
    ensures request.maxRounds.Some? ==> request.update.UpdateEdit?
  {
  }

  lemma KeptIff(goal: Durable)
    ensures WellKept(goal) <==>
      && ValidateId(goal.goal.id).Ok? && 0 < goal.goal.revision <= MAX_SAFE_INTEGER
      && ValidateObjective(goal.goal.objective).Ok? && goal.goal.maxRounds > 0 && ReasonFits(goal.goal)
      && goal.roundsStarted <= goal.goal.maxRounds && goal.createdAt <= goal.updatedAt
  {
    FactsValidIff(goal.goal);
    hide ValidateFacts, ValidateId, ValidateObjective, ValidateReason;
  }

  lemma ObjectiveStaysValid(request: UpdateRequest, was: Durable)
    requires WellAsked(request) && WellKept(was)
    ensures ValidateObjective(if request.objective.Some? then Trim(request.objective.value) else was.goal.objective).Ok?
  {
    if request.objective.Some? {
      TrimTwice(request.objective.value);
    }
    hide Trim, Utf8Length;
  }

  /** For a Goal in order, an update is accepted exactly when every one of these holds. */
  lemma UpdateAcceptedIff(state: GoalState, request: UpdateRequest, now: Option<int>)
    requires state.current.Some? ==> WellKept(state.current.value)
    ensures PrepareUpdate(state, request, now).Ok? <==>
      && WellAsked(request) && state.pending.None? && state.current.Some? && now.Some?
      && request.expectedRevision == state.current.value.goal.revision
      && (request.expectedId.Some? ==> request.expectedId.value == state.current.value.goal.id)
      && MayUpdate(request.update, state.current.value) && MayStore(request, state.current.value)
      && state.current.value.goal.revision < MAX_SAFE_INTEGER && state.nextToken < MAX_U64
  {
    AskedIff(request);
    hide Trim, Utf8Length, WellAsked, WellKept, CheckRequest;
    if ReadyToStore(state, request) && now.Some? {
      StoredIff(state, request, now.value);
    }
    hide Validate, MayStore;
  }

  /** The first guard that fails names the error. */
  lemma UpdateRefusals(state: GoalState, request: UpdateRequest, now: Option<int>)
    requires WellAsked(request)
    ensures var r := PrepareUpdate(state, request, now);
      && (state.pending.Some? ==> r == Err(Busy))
      && (state.pending.None? && state.current.None? ==> r == Err(Missing))
      && (state.pending.None? && state.current.Some? ==>
            var goal := state.current.value;
            if request.expectedRevision != goal.goal.revision || (request.expectedId.Some? && request.expectedId.value != goal.goal.id)
            then r == Err(StaleRevision)
            else if !MayUpdate(request.update, goal) then r == Err(InvalidTransition)
            else if goal.goal.revision >= MAX_SAFE_INTEGER || now.None? then r == Err(Unavailable)
            else r.Ok? || state.nextToken == MAX_U64 || !WellKept(goal) || !MayStore(request, goal))
  {
    AskedIff(request);
    UpdateAcceptedIffGuarded(state, request, now);
    hide Trim, Utf8Length, CheckRequest, Validate, WellKept, MayStore;
  }

  lemma UpdateAcceptedIffGuarded(state: GoalState, request: UpdateRequest, now: Option<int>)
    ensures (state.current.Some? ==> WellKept(state.current.value)) ==>
      (PrepareUpdate(state, request, now).Ok? <==>
      && WellAsked(request) && state.pending.None? && state.current.Some? && now.Some?
      && request.expectedRevision == state.current.value.goal.revision
      && (request.expectedId.Some? ==> request.expectedId.value == state.current.value.goal.id)
      && MayUpdate(request.update, state.current.value) && MayStore(request, state.current.value)
      && state.current.value.goal.revision < MAX_SAFE_INTEGER && state.nextToken < MAX_U64)
  {
    hide *;
    if state.current.Some? ==> WellKept(state.current.value) {
      UpdateAcceptedIff(state, request, now);
    }
  }

  /** A request that is not well asked is refused before the state is looked at, by its first fault. */
  lemma BadRequests(state: GoalState, request: UpdateRequest, now: Option<int>)
    requires !WellAsked(request)
    ensures PrepareUpdate(state, request, now) == Err(
      if request.objective.Some? && Trim(request.objective.value) == "" then EmptyObjective
      else if request.objective.Some? && Utf8Length(Trim(request.objective.value)) > 4_096 then ObjectiveTooLarge
      else if request.maxRounds == Some(0) then InvalidMaxRounds
      else if request.update.UpdateEdit? && request.objective.None? && request.maxRounds.None? then InvalidEdit
      else InvalidTransition)
  {
    hide Trim, Utf8Length;
  }

  // ----- creations and clears -----

  /** A creation is Active at revision 1 with no rounds, under a fresh identity, the trimmed objective and the given cap or 32. */
  lemma CreationWrites(state: GoalState, objective: string, maxRounds: Option<u32>, uuid: Option<string>, now: Option<int>)
    requires PrepareCreate(state, objective, maxRounds, uuid, now).Ok?
    ensures uuid.Some? && now.Some? && "goal-" + uuid.value !in state.usedIds && Trim(objective) != ""
    ensures var p := PrepareCreate(state, objective, maxRounds, uuid, now).value;
      && p.next == Some(Durable(Facts("goal-" + uuid.value, 1, Trim(objective), Active, None,
                                      if maxRounds.Some? then maxRounds.value else 32), 0, now.value, now.value))
      && p.armed && p.token == state.nextToken + 1
      && p.change == Change("goal/change", 1, Create, Some(p.next.value.goal), Some(0), now, now, None, None)
  {
    hide Validate, Trim, Utf8Length;
  }

  lemma CreationAcceptedIff(state: GoalState, objective: string, maxRounds: Option<u32>, uuid: Option<string>, now: Option<int>)
    ensures PrepareCreate(state, objective, maxRounds, uuid, now).Ok? <==>
      && Trim(objective) != "" && Utf8Length(Trim(objective)) <= 4_096 && maxRounds != Some(0)
      && state.pending.None? && (state.current.Some? ==> state.current.value.goal.phase == Complete)
      && uuid.Some? && now.Some? && "goal-" + uuid.value !in state.usedIds
      && ValidateId("goal-" + uuid.value).Ok? && state.nextToken < MAX_U64
  {
    TrimTwice(objective);
    hide Trim, Utf8Length, ValidateId;
  }

  lemma ClearWrites(state: GoalState, now: Option<int>)
    requires PrepareClear(state, now).Ok?
    ensures state.current.Some? && now.Some?
    ensures var p := PrepareClear(state, now).value; var was := state.current.value.goal;
      && p.next == None && !p.armed && p.token == state.nextToken + 1
      && p.change == Change("goal/change", 1, Clear, None, None, None, None, Some(GoalRef(was.id, was.revision + 1)), now)
  {
    hide Validate;
  }

  /** A clear is refused for a pending change, a missing Goal, then an exhausted revision, a missing clock or an exhausted token; otherwise it is prepared. */
  lemma ClearAcceptedIff(state: GoalState, now: Option<int>)
    requires state.current.Some? ==> WellKept(state.current.value)
    ensures var r := PrepareClear(state, now);
      && (state.pending.Some? ==> r == Err(Busy))
      && (state.pending.None? && state.current.None? ==> r == Err(Missing))
      && (state.pending.None? && state.current.Some? ==>
            if state.current.value.goal.revision >= MAX_SAFE_INTEGER || now.None? || state.nextToken == MAX_U64
            then r == Err(Unavailable) else r.Ok?)
  {
    hide ValidateObjective, ValidateReason;
    if state.current.Some? {
      FactsValidIff(state.current.value.goal);
    }
    hide ValidateFacts, ValidateId;
  }

  // ----- settling and rounds -----

  /** Only the owner of the pending token settles: it publishes its Goal, or gives the token back; anyone else changes nothing. */
  lemma OnlyOwnerSettles(state: GoalState, p: Prepared)
    ensures var ((installed, r), abandoned, owned) := (Install(state, p), Abandon(state, p), state.pending == Some(p.token));
      && (!owned ==> r == Err(Unavailable) && installed == state && abandoned == state)
      && (owned ==> abandoned == GoalState(state.current, state.usedIds, state.armed, None, state.nextToken))
      && (r.Ok? <==> owned && (p.change.operation == Create ==> p.next.Some?))
      && (r.Ok? ==>
            && installed.current == p.next && installed.armed == p.armed && installed.pending == None
            && installed.nextToken == state.nextToken && state.usedIds <= installed.usedIds
            && (p.change.operation != Create ==> installed.usedIds == state.usedIds)
            && (p.change.operation == Create ==> installed.usedIds - state.usedIds <= {p.next.value.goal.id} <= installed.usedIds))
      && (owned && r.Err? ==> installed == GoalState(None, state.usedIds, state.armed, state.pending, state.nextToken))
  {
  }

  /**
    A round is handed out exactly to an armed, active Goal with a round left and nothing
    prepared: it is the Goal's next round, and only the count moves. A Goal that cannot go
    on is disarmed, and a prepared change keeps everything as it is.
  */
  lemma RoundStartsIff(state: GoalState)
    ensures var (next, r) := StartRound(state);
      && (r.Err? <==> state.pending.Some?) && (r.Err? ==> r.error == Busy && next == state)
      && (r.Ok? && r.value.Some? <==>
            && state.pending.None? && state.armed && state.current.Some?
            && state.current.value.goal.phase == Active && state.current.value.roundsStarted < state.current.value.goal.maxRounds)
      && (r.Ok? && r.value.Some? ==>
            var was := state.current.value;
            && next.current.Some? && next.current.value.roundsStarted == was.roundsStarted + 1 <= was.goal.maxRounds
            && r.value.value == Round(was.goal.id, was.goal.revision, next.current.value.roundsStarted)
            && next.current.value == Durable(was.goal, was.roundsStarted + 1, was.createdAt, was.updatedAt)
            && next == GoalState(next.current, state.usedIds, true, None, state.nextToken))
      && (r.Ok? && r.value.None? ==>
            && next == GoalState(state.current, state.usedIds, next.armed, None, state.nextToken)
            && (next.armed ==> state.armed && state.current.None?))
  {
  }

  /** A round is taken back only by its own number at the Goal's own revision, and then only the count moves. */
  lemma OnlyOwnRoundRollsBack(state: GoalState, revision: u64, round: u32)
    ensures var next := RollbackRound(state, revision, round);
      if state.current.Some? && state.current.value.goal.revision == revision && state.current.value.roundsStarted == round > 0 then
        var was := state.current.value;
        next == GoalState(Some(Durable(was.goal, round - 1, was.createdAt, was.updatedAt)), state.usedIds, state.armed,
                          state.pending, state.nextToken)
      else next == state
  {
  }
}
