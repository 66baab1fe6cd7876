/**
  Exactly which events replay accepts (src/goal.rs:62-414): an update may change only what
  its operation names, relative to the Goal it follows.
*/
module ReplayLaws {
  import opened Wrappers
  import opened Text
  import opened GoalFacts
  import opened GoalHistory

  // ----- texts -----

  predicate GoodId(id: string) {
    1 <= |id| && Utf8Length(id) <= 256 && forall c :: c in id ==> !IsControl(c)
  }

  predicate GoodObjective(objective: string) {
    |Trim(objective)| >= 1 && Utf8Length(Trim(objective)) <= 4096
  }

  /** A code of 1 to 128 lower-case letters, digits and hyphens, and a message of up to 4 KiB that is not blank. */
  predicate GoodReason(reason: BlockReason) {
    && 1 <= |reason.code| <= 128
    && (forall c :: c in reason.code ==> 97 <= c as int <= 122 || 48 <= c as int <= 57 || c as int == 45)
    && |Trim(reason.message)| >= 1 && Utf8Length(reason.message) <= 4096
  }

  lemma {:induction false} ReasonReplayedIff(reason: BlockReason)
    ensures ValidateReason(reason).Ok? <==> GoodReason(reason)
  {
    if forall c :: c in reason.code ==> IsCodeChar(c) {
      AsciiLength(reason.code);
    }
    assert forall c: char :: IsCodeChar(c) <==> 97 <= c as int <= 122 || 48 <= c as int <= 57 || c as int == 45;
  }

  // ----- events -----

  /** The fields of a Goal, as every event must carry them. */
  predicate GoodFacts(goal: Facts) {
    && GoodId(goal.id) && GoodObjective(goal.objective) && goal.maxRounds >= 1
    && 1 <= goal.revision <= MAX_SAFE_INTEGER
    && (goal.phase == Blocked <==> goal.blockedReason.Some?)
    && (goal.blockedReason.Some? ==> GoodReason(goal.blockedReason.value))
  }

  lemma FactsReplayedIff(goal: Facts)
    ensures ValidateFacts(goal).Ok? <==> GoodFacts(goal)
  {
    if goal.blockedReason.Some? {
      ReasonReplayedIff(goal.blockedReason.value);
    }
    hide Trim, Utf8Length, ValidateReason, GoodReason;
    assert goal.id == "" <==> |goal.id| == 0;
  }

  /** What an update may change: its objective and limit, or its phase and reason, and its revision by one. */
  predicate ChangesOnly(operation: Operation, before: Durable, after: Durable) {
    var bumped := before.goal.(revision := after.goal.revision);
    && after.goal.revision == before.goal.revision + 1
    && after.roundsStarted == before.roundsStarted && after.createdAt == before.createdAt
    && match operation
       case Edit => after.goal == bumped.(objective := after.goal.objective, maxRounds := after.goal.maxRounds)
       case Pause => before.goal.phase == Active && after.goal == bumped.(phase := Paused)
       case Resume =>
         before.goal.phase != Complete && before.roundsStarted < before.goal.maxRounds
         && after.goal == bumped.(phase := Active, blockedReason := None)
       case Finish => before.goal.phase != Complete && after.goal == bumped.(phase := Complete, blockedReason := None)
       case Block =>
         before.goal.phase == Active && after.goal.blockedReason.Some?
         && after.goal == bumped.(phase := Blocked, blockedReason := after.goal.blockedReason)
       case _ => false
  }

  /**
    An update is accepted if and only if it is a well-formed event about the current Goal
    that changes only what its operation names, in a permitted phase, and does not move
    the clock back; replay then holds exactly the Goal it carries.
  */
  lemma UpdateReplayedIff(state: Replay, change: Change, next: Durable)
    requires Coherent(state) && change == Mutation(change.operation, next)
    requires change.operation != Create && change.operation != Clear
    ensures ApplyChange(state, change).Ok? <==>
      && state.current.Some? && ChangesOnly(change.operation, state.current.value, next)
      && GoodFacts(next.goal) && next.roundsStarted <= next.goal.maxRounds
      && next.createdAt <= next.updatedAt && state.current.value.updatedAt <= next.updatedAt
    ensures ApplyChange(state, change).Ok? ==> ApplyChange(state, change).value == Replay(Some(next), state.usedIds)
  {
    FactsReplayedIff(next.goal);
    hide ValidateFacts, GoodReason, GoodId, GoodObjective;
  }

  /** A creation is accepted if and only if no Goal is unfinished and it starts a new one from the beginning. */
  lemma CreationReplayedIff(state: Replay, next: Durable)
    ensures var applied := ApplyChange(state, Mutation(Create, next));
      && (applied.Ok? <==>
            && (state.current.Some? ==> state.current.value.goal.phase == Complete)
            && GoodFacts(next.goal) && next.goal.id !in state.usedIds
            && next.goal.revision == 1 && next.goal.phase == Active && next.roundsStarted == 0
            && next.createdAt <= next.updatedAt)
      && (applied.Ok? ==> applied.value == Replay(Some(next), state.usedIds + {next.goal.id}))
  {
    FactsReplayedIff(next.goal);
    hide ValidateFacts, GoodReason, GoodId, GoodObjective;
  }

  /** A clear is accepted if and only if it names the current Goal's next revision and does not move the clock back. */
  lemma ClearReplayedIff(state: Replay, cleared: GoalRef, at: int)
    ensures var applied := ApplyChange(state, ClearChange(cleared, at));
      && (applied.Ok? <==>
            && state.current.Some? && GoodId(cleared.id)
            && cleared.id == state.current.value.goal.id && cleared.revision == state.current.value.goal.revision + 1
            && 1 <= cleared.revision <= MAX_SAFE_INTEGER && state.current.value.updatedAt <= at)
      && (applied.Ok? ==> applied.value == Replay(None, state.usedIds))
  {
    hide Trim, Utf8Length;
    assert cleared.id == "" <==> |cleared.id| == 0;
  }

  /** An event of another kind or version, or with a field too few or too many, is refused. */
  lemma OnlyWellFormedEvents(state: Replay, change: Change)
    requires ApplyChange(state, change).Ok?
    ensures if change.operation == Clear
            then change.cleared.Some? && change.clearedAt.Some? && change == ClearChange(change.cleared.value, change.clearedAt.value)
            else
              && change.goal.Some? && change.roundsStarted.Some? && change.createdAt.Some? && change.updatedAt.Some?
              && change == Mutation(change.operation, Durable(change.goal.value, change.roundsStarted.value,
                                                              change.createdAt.value, change.updatedAt.value))
  {
    hide Trim, Utf8Length, ValidateFacts, ValidateId;
  }

  /** A round message is accepted if and only if it is the next round of the active Goal it names, within its limit. */
  lemma RoundReplayedIff(state: Replay, goalId: string, revision: u64, round: u32)
    ensures var applied := ApplyMessage(state, GoalRound(goalId, revision, round));
      && (applied.Ok? <==>
            && state.current.Some? && state.current.value.goal.phase == Active
            && state.current.value.goal.id == goalId && state.current.value.goal.revision == revision
            && round == Min(state.current.value.roundsStarted + 1, MAX_U32) && round <= state.current.value.goal.maxRounds)
      && (applied.Ok? ==> applied.value == state.(current := Some(state.current.value.(roundsStarted := round))))
  {
  }
}
