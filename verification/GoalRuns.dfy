/**
  Whole runs of a Goal: the runtime, its durable log, and the driver between
  them.  A change is appended before its mutation is installed; a round is
  either appended as a message or rolled back before the next preparation; the
  clock never runs backwards.  The process may restart at any moment.
*/
module GoalRuns {
  import opened Wrappers
  import opened Text
  import opened GoalFacts
  import opened GoalRuntime

  datatype Handle = Handle(mutation: Prepared, logged: bool)

  datatype World = World(
    runtime: GoalState, log: seq<Event>, handles: map<u64, Handle>, openRound: Option<Round>, clock: int)

  datatype Action =
    | PrepareCreation(objective: string, maxRounds: Option<u32>, uuid: Option<string>, now: Option<int>)
    | PrepareChange(request: UpdateRequest, now: Option<int>)
    | PrepareClearing(now: Option<int>)
    | AppendChange(token: u64)
    | InstallChange(token: u64)
    | DropChange(token: u64)
    | TakeRound
    | AppendRound
    | RollRoundBack
    | AppendUnrelated
    | Restart

  function Start(clock: int): World {
    World(FromReplay(EMPTY_REPLAY), [], map[], None, clock)
  }

  predicate IsPreparation(a: Action) {
    a.PrepareCreation? || a.PrepareChange? || a.PrepareClearing?
  }

  function Outcome(w: World, a: Action): Result<Prepared, GoalError>
    requires IsPreparation(a)
  {
    match a
    case PrepareCreation(objective, maxRounds, uuid, now) => PrepareCreate(w.runtime, objective, maxRounds, uuid, now)
    case PrepareChange(request, now) => PrepareUpdate(w.runtime, request, now)
    case PrepareClearing(now) => PrepareClear(w.runtime, now)
  }

  /** The driver discipline. */
  predicate Enabled(w: World, a: Action) {
    match a
    case AppendChange(token) => token in w.handles && !w.handles[token].logged
    case InstallChange(token) => token in w.handles && w.handles[token].logged
    case DropChange(token) => token in w.handles && !w.handles[token].logged
    case TakeRound => w.openRound.None?
    case AppendRound => w.openRound.Some?
    case RollRoundBack => w.openRound.Some?
    case AppendUnrelated => true
    case Restart => true
    case _ => w.openRound.None? && (a.now.Some? ==> w.clock <= a.now.value)
  }

  function AfterPreparation(w: World, a: Action): World
    requires IsPreparation(a)
  {
    var outcome := Outcome(w, a);
    World(AfterPrepare(w.runtime, outcome), w.log,
          if outcome.Ok? then w.handles[outcome.value.token := Handle(outcome.value, false)] else w.handles,
          w.openRound, if a.now.Some? then a.now.value else w.clock)
  }

  function Next(w: World, a: Action): World
    requires Enabled(w, a)
  {
    match a
    case AppendChange(token) =>
      w.(log := w.log + [Changed(w.handles[token].mutation.change)],
         handles := w.handles[token := w.handles[token].(logged := true)])
    case InstallChange(token) =>
      w.(runtime := Install(w.runtime, w.handles[token].mutation).0, handles := w.handles - {token})
    case DropChange(token) =>
      w.(runtime := Abandon(w.runtime, w.handles[token].mutation), handles := w.handles - {token})
    case TakeRound =>
      var (runtime, result) := StartRound(w.runtime);
      w.(runtime := runtime, openRound := if result.Ok? then result.value else None)
    case AppendRound =>
      var round := w.openRound.value;
      w.(log := w.log + [Message(GoalRound(round.goalId, round.revision, round.number))], openRound := None)
    case RollRoundBack =>
      w.(runtime := RollbackRound(w.runtime, w.openRound.value.revision, w.openRound.value.number), openRound := None)
    case AppendUnrelated => w.(log := w.log + [Message(Unrelated)])
    case Restart =>
      var replay := ReplayLog(w.log);
      if replay.Ok? then w.(runtime := FromReplay(replay.value), handles := map[], openRound := None) else w
    case _ => AfterPreparation(w, a)
  }

  // ----- the invariant -----

  predicate Sound(current: Option<Durable>, armed: bool, clock: int) {
    && (current.Some? ==> current.value.roundsStarted <= current.value.goal.maxRounds && current.value.updatedAt <= clock)
    && (armed ==> current.Some? && current.value.goal.phase == Active)
  }

  predicate Quiet(w: World) {
    w.handles == map[] && w.openRound.None?
  }

  /** Replay's view once `mutation` has been installed over `runtime`. */
  function Installed(runtime: GoalState, mutation: Prepared): Replay {
    Replay(mutation.next,
           if mutation.change.operation == Create && mutation.next.Some?
           then runtime.usedIds + {mutation.next.value.goal.id} else runtime.usedIds)
  }

  predicate HandleTracks(w: World, replay: Replay, token: u64) {
    token in w.handles &&
    var mutation := w.handles[token].mutation;
    && mutation.token == token
    && (mutation.change.operation == Create ==> mutation.next.Some?)
    && Sound(mutation.next, mutation.armed, w.clock)
    && if w.handles[token].logged then replay == Installed(w.runtime, mutation)
       else replay == Replay(w.runtime.current, w.runtime.usedIds)
            && ApplyChange(replay, mutation.change) == Ok(Installed(w.runtime, mutation))
  }

  predicate RoundTracks(w: World, replay: Replay) {
    && w.openRound.Some? && w.runtime.current.Some? &&
    var goal := w.runtime.current.value;
    && goal.goal.phase == Active && goal.roundsStarted > 0
    && w.openRound.value == Round(goal.goal.id, goal.goal.revision, goal.roundsStarted)
    && replay == Replay(Some(goal.(roundsStarted := goal.roundsStarted - 1)), w.runtime.usedIds)
  }

  /** How far the log is ahead of, behind, or level with the runtime. */
  predicate Tracks(w: World, replay: Replay) {
    match w.runtime.pending
    case Some(token) =>
      w.openRound.None? && w.handles.Keys == {token} && token == w.runtime.nextToken && HandleTracks(w, replay, token)
    case None =>
      && w.handles == map[]
      && if w.openRound.None? then replay == Replay(w.runtime.current, w.runtime.usedIds) else RoundTracks(w, replay)
  }

  predicate Inv(w: World) {
    && Sound(w.runtime.current, w.runtime.armed, w.clock)
    && ReplayLog(w.log).Ok?
    && Tracks(w, ReplayLog(w.log).value)
  }

  // ----- preparing produces what replay accepts -----

  lemma CreationReplays(state: GoalState, objective: string, maxRounds: Option<u32>, uuid: Option<string>, now: Option<int>)
    requires PrepareCreate(state, objective, maxRounds, uuid, now).Ok?
    ensures var p := PrepareCreate(state, objective, maxRounds, uuid, now).value;
      && p.next.Some? && p.change.operation == Create
      && ApplyChange(Replay(state.current, state.usedIds), p.change) == Ok(Installed(state, p))
  {
  }

  lemma UpdateReplays(state: GoalState, request: UpdateRequest, now: Option<int>)
    requires PrepareUpdate(state, request, now).Ok?
    ensures var p := PrepareUpdate(state, request, now).value;
      && p.next.Some? && p.change.operation != Create
      && ApplyChange(Replay(state.current, state.usedIds), p.change) == Ok(Installed(state, p))
  {
    hide Trim, Utf8Length, ValidateReason, ValidateId, ValidateObjective, IsCodeChar;
    var (objective, maxRounds) := CheckRequest(request).value;
    var current := state.current.value;
    var (changed, operation, armed) := Transition(state, current, request, objective, maxRounds).value;
    var p := PrepareUpdate(state, request, now).value;
    assert p.change == Mutation(operation, p.next.value);
    assert ValidTransition(operation, current, p.next.value);
  }

  /**
    The raw clock of a clear: replay takes the event exactly when the clock has
    not fallen behind the Goal's last update.
  */
  lemma ClearReplaysIff(state: GoalState, now: Option<int>)
    requires PrepareClear(state, now).Ok?
    ensures var applied := ApplyChange(Replay(state.current, state.usedIds), PrepareClear(state, now).value.change);
      && (applied.Ok? <==> state.current.value.updatedAt <= now.value)
      && (applied.Ok? ==> applied.value == Installed(state, PrepareClear(state, now).value))
  {
  }

  lemma UpdateIsSound(state: GoalState, request: UpdateRequest, now: Option<int>, clock: int)
    requires Sound(state.current, state.armed, clock)
    requires now.Some? ==> clock <= now.value
    ensures var r := PrepareUpdate(state, request, now); r.Ok? ==> Sound(r.value.next, r.value.armed, now.value)
  {
    if PrepareUpdate(state, request, now).Ok? {
      UpdateReplays(state, request, now);
    }
  }

  lemma PreparationTracks(w: World, a: Action)
    requires Inv(w) && IsPreparation(a) && Enabled(w, a)
    ensures Inv(Next(w, a))
  {
    var outcome := Outcome(w, a);
    if outcome.Ok? {
      var p := outcome.value;
      match a {
        case PrepareCreation(objective, maxRounds, uuid, now) =>
          CreationReplays(w.runtime, objective, maxRounds, uuid, now);
        case PrepareChange(request, now) =>
          UpdateReplays(w.runtime, request, now);
          UpdateIsSound(w.runtime, request, now, w.clock);
        case PrepareClearing(now) =>
          ClearReplaysIff(w.runtime, now);
      }
      assert HandleTracks(Next(w, a), ReplayLog(w.log).value, p.token);
    }
  }

  // ----- every step -----

  lemma AppendTracks(w: World, token: u64)
    requires Inv(w) && Enabled(w, AppendChange(token))
    ensures Inv(Next(w, AppendChange(token)))
  {
    var mutation, after := w.handles[token].mutation, Next(w, AppendChange(token));
    assert w.runtime.pending == Some(token) && HandleTracks(w, ReplayLog(w.log).value, token);
    ReplayAppend(w.log, Changed(mutation.change));
    hide ReplayLog, ApplyChange, Sound, RoundTracks;
    assert ReplayLog(after.log) == Ok(Installed(w.runtime, mutation));
    assert after.handles.Keys == {token};
    assert HandleTracks(after, Installed(w.runtime, mutation), token);
  }

  lemma SettlingTracks(w: World, a: Action)
    requires Inv(w) && Enabled(w, a) && (a.InstallChange? || a.DropChange?)
    ensures Inv(Next(w, a))
  {
    assert HandleTracks(w, ReplayLog(w.log).value, a.token);
    hide ReplayLog, ApplyChange, RoundTracks;
    assert w.handles - {a.token} == map[] by {
      assert (w.handles - {a.token}).Keys == {};
    }
  }

  lemma RoundTracking(w: World, a: Action)
    requires Inv(w) && Enabled(w, a) && (a.TakeRound? || a.AppendRound? || a.RollRoundBack?)
    ensures Inv(Next(w, a))
  {
    if a.AppendRound? {
      var round := w.openRound.value;
      ReplayAppend(w.log, Message(GoalRound(round.goalId, round.revision, round.number)));
    }
  }

  /** Every disciplined step keeps log and runtime in step. */
  lemma StepKeepsInv(w: World, a: Action)
    requires Inv(w) && Enabled(w, a)
    ensures Inv(Next(w, a))
  {
    match a
    case AppendChange(token) => AppendTracks(w, token);
    case InstallChange(_) => SettlingTracks(w, a);
    case DropChange(_) => SettlingTracks(w, a);
    case TakeRound => RoundTracking(w, a);
    case AppendRound => RoundTracking(w, a);
    case RollRoundBack => RoundTracking(w, a);
    case AppendUnrelated => ReplayAppend(w.log, Message(Unrelated));
    case Restart => RestartIsSound(w);
    case _ => PreparationTracks(w, a);
  }

  lemma RestartIsSound(w: World)
    requires Inv(w)
    ensures Inv(Next(w, Restart))
  {
  }

  // ----- runs -----

  /** `actions` can be taken one after another from `w`. */
  predicate CanRun(w: World, actions: seq<Action>)
    decreases |actions|
  {
    actions == [] || (Enabled(w, actions[0]) && CanRun(Next(w, actions[0]), actions[1..]))
  }

  function Run(w: World, actions: seq<Action>): World
    requires CanRun(w, actions)
    decreases |actions|
  {
    if actions == [] then w else Run(Next(w, actions[0]), actions[1..])
  }

  lemma {:induction false} RunKeepsInv(w: World, actions: seq<Action>)
    requires Inv(w) && CanRun(w, actions)
    ensures Inv(Run(w, actions))
    decreases |actions|
  {
    if actions != [] {
      StepKeepsInv(w, actions[0]);
      RunKeepsInv(Next(w, actions[0]), actions[1..]);
    }
  }

  /**
    Simulation.  After any disciplined run replay accepts the whole log, and
    whenever nothing is in flight it rebuilds exactly the runtime's Goal and ids.
  */
  lemma ReplaySimulatesRuntime(clock: int, actions: seq<Action>)
    requires CanRun(Start(clock), actions)
    ensures var w := Run(Start(clock), actions);
      && ReplayLog(w.log).Ok?
      && (Quiet(w) ==> ReplayLog(w.log).value == Replay(w.runtime.current, w.runtime.usedIds))
  {
    RunKeepsInv(Start(clock), actions);
  }

  /** A restart with nothing in flight changes the armed flag and the token counter, and nothing else. */
  lemma RestartChangesOnlyArmed(clock: int, actions: seq<Action>)
    requires CanRun(Start(clock), actions) && Quiet(Run(Start(clock), actions))
    ensures var w := Run(Start(clock), actions);
      Next(w, Restart) == w.(runtime := w.runtime.(armed := false, nextToken := 0))
  {
    RunKeepsInv(Start(clock), actions);
  }

  /**
    Safety of every reachable state: one unsettled mutation at most, and it is
    the pending one; an armed Goal exists and is Active; no round count is above
    the current cap, whatever edits and rollbacks came before.
  */
  lemma ReachableStatesAreSafe(clock: int, actions: seq<Action>)
    requires CanRun(Start(clock), actions)
    ensures var w := Run(Start(clock), actions);
      && w.handles.Keys == (match w.runtime.pending case Some(token) => {token} case None => {})
      && (w.openRound.Some? ==> w.handles == map[])
      && (w.runtime.armed ==> w.runtime.current.Some? && w.runtime.current.value.goal.phase == Active)
      && (w.runtime.current.Some? ==> w.runtime.current.value.roundsStarted <= w.runtime.current.value.goal.maxRounds)
  {
    RunKeepsInv(Start(clock), actions);
  }

  /** Installing the logged mutation succeeds and makes the runtime equal to replay. */
  lemma InstallCatchesUp(clock: int, actions: seq<Action>, token: u64)
    requires CanRun(Start(clock), actions) && Enabled(Run(Start(clock), actions), InstallChange(token))
    ensures var w := Run(Start(clock), actions);
      && Install(w.runtime, w.handles[token].mutation).1 == Ok(())
      && Quiet(Next(w, InstallChange(token)))
      && ReplayLog(w.log).Ok?
      && FromReplay(ReplayLog(w.log).value)
         == Next(w, InstallChange(token)).runtime.(armed := false, nextToken := 0)
  {
    RunKeepsInv(Start(clock), actions);
    assert (Run(Start(clock), actions).handles - {token}).Keys == {};
  }

  /** The tokens of the mutations a run prepares, in order. */
  function Tokens(w: World, actions: seq<Action>): seq<u64>
    requires CanRun(w, actions)
    decreases |actions|
  {
    if actions == [] then []
    else
      (if IsPreparation(actions[0]) && Outcome(w, actions[0]).Ok? then [Outcome(w, actions[0]).value.token] else [])
      + Tokens(Next(w, actions[0]), actions[1..])
  }

  predicate IncreasingFrom(least: nat, tokens: seq<u64>) {
    && (forall i :: 0 <= i < |tokens| ==> least < tokens[i])
    && (forall i, j :: 0 <= i < j < |tokens| ==> tokens[i] < tokens[j])
  }

  lemma TokenStep(w: World, a: Action)
    requires Enabled(w, a) && !a.Restart?
    ensures Next(w, a).runtime.nextToken ==
      if IsPreparation(a) && Outcome(w, a).Ok? then Outcome(w, a).value.token else w.runtime.nextToken
    ensures IsPreparation(a) && Outcome(w, a).Ok? ==> w.runtime.nextToken < Outcome(w, a).value.token
  {
  }

  /** Between restarts no two preparations of a run get the same token: each is above all earlier ones. */
  lemma {:induction false} TokensNeverRepeat(w: World, actions: seq<Action>)
    requires CanRun(w, actions) && forall i :: 0 <= i < |actions| ==> !actions[i].Restart?
    ensures IncreasingFrom(w.runtime.nextToken, Tokens(w, actions))
    decreases |actions|
  {
    if actions != [] {
      TokenStep(w, actions[0]);
      TokensNeverRepeat(Next(w, actions[0]), actions[1..]);
    }
  }

  // ----- a clear behind the clock -----

  /** Create a Goal and install it. */
  function Creation(objective: string, maxRounds: Option<u32>, uuid: string, now: int): seq<Action> {
    [PrepareCreation(objective, maxRounds, Some(uuid), Some(now)), AppendChange(1), InstallChange(1)]
  }

  lemma StartKeepsInv(clock: int)
    ensures Inv(Start(clock))
  {
  }

  lemma CreationInstalls(clock: int, objective: string, maxRounds: Option<u32>, uuid: string, now: int) returns (goal: Durable)
    requires clock <= now && PrepareCreate(Start(clock).runtime, objective, maxRounds, Some(uuid), Some(now)).Ok?
    ensures var actions := Creation(objective, maxRounds, uuid, now);
      && CanRun(Start(clock), actions)
      && var w := Run(Start(clock), actions);
         && Inv(w) && Quiet(w) && w.runtime == GoalState(Some(goal), {goal.goal.id}, true, None, 1)
    ensures ValidateId(goal.goal.id).Ok? && goal.goal.revision == 1 && goal.updatedAt == now
  {
    StartKeepsInv(clock);
    hide Trim, Utf8Length, ValidateId, ValidateObjective, IsControl, Inv, ReplayLog, Tracks, Transition;
    var w0, actions := Start(clock), Creation(objective, maxRounds, uuid, now);
    var p := Outcome(w0, actions[0]).value;
    goal := p.next.value;
    var w1 := Next(w0, actions[0]);
    assert w1.handles == map[1 := Handle(p, false)];
    var w2 := Next(w1, actions[1]);
    assert w2.handles == map[1 := Handle(p, true)];
    var w3 := Next(w2, actions[2]);
    assert w3.handles == map[];
    assert actions[1..] == [AppendChange(1), InstallChange(1)] && actions[1..][1..] == [InstallChange(1)];
    assert CanRun(w2, [InstallChange(1)]) && Run(w2, [InstallChange(1)]) == w3;
    assert CanRun(w1, actions[1..]) && Run(w1, actions[1..]) == w3;
    assert CanRun(w0, actions);
    RunKeepsInv(w0, actions);
  }

  /**
    After every creation the runtime accepts and installs, a clear prepared while the clock
    reads earlier succeeds, and replay then refuses the log it would be appended to.
  */
  lemma BackwardClockBreaksOnlyClear(clock: int, objective: string, maxRounds: Option<u32>, uuid: string, now: int, earlier: int)
    requires clock <= now && PrepareCreate(Start(clock).runtime, objective, maxRounds, Some(uuid), Some(now)).Ok?
    requires earlier < now
    ensures var actions := Creation(objective, maxRounds, uuid, now);
      && CanRun(Start(clock), actions)
      && var w := Run(Start(clock), actions);
         && Quiet(w) && ReplayLog(w.log).Ok?
         && var cleared := PrepareClear(w.runtime, Some(earlier));
            cleared.Ok? && ReplayLog(w.log + [Changed(cleared.value.change)]).Err?
  {
    var goal := CreationInstalls(clock, objective, maxRounds, uuid, now);
    var w := Run(Start(clock), Creation(objective, maxRounds, uuid, now));
    hide Run, CanRun, ValidateId;
    var change := ClearChange(GoalRef(goal.goal.id, 2), earlier);
    assert Validate(change) == Ok(());
    assert PrepareClear(w.runtime, Some(earlier)) == Ok(Prepared(2, change, None, false));
    ClearReplaysIff(w.runtime, Some(earlier));
    ReplayAppend(w.log, Changed(change));
  }

  lemma Utf8Short(s: string)
    ensures Utf8Length(s) <= 4 * |s|
  {
  }

  /** Such creations exist. */
  lemma SomeCreationIsAccepted(clock: int, now: int)
    ensures PrepareCreate(Start(clock).runtime, "g", None, Some("1"), Some(now)).Ok?
  {
    var objective, id := "g", "goal-" + "1";
    assert Trim(objective) == objective;
    Utf8Short(objective);
    Utf8Short(id);
    assert id == "goal-1";
    assert forall c :: c in id ==> !IsControl(c);
    assert ValidateObjective(objective) == Ok(objective) && ValidateId(id) == Ok(());
    hide Trim, Utf8Length, ValidateId, ValidateObjective, IsControl;
    var next := Durable(Facts(id, 1, objective, Active, None, MAX_GOAL_ROUNDS), 0, now, now);
    assert Validate(Mutation(Create, next)) == Ok(());
  }

  /** A round handed out and rolled back, or a mutation prepared and dropped, leaves the Goal as it was. */
  lemma UndoRestores(w: World, a: Action)
    requires Inv(w) && Enabled(w, a) && Quiet(w)
    ensures a.TakeRound? && Next(w, a).openRound.Some? ==>
      Next(Next(w, a), RollRoundBack) == w
    ensures IsPreparation(a) && Outcome(w, a).Ok? ==>
      var token := Outcome(w, a).value.token;
      Next(Next(w, a), DropChange(token))
        == w.(runtime := w.runtime.(nextToken := token), clock := Next(w, a).clock)
  {
    if IsPreparation(a) && Outcome(w, a).Ok? {
      var token := Outcome(w, a).value.token;
      assert Next(w, a).handles - {token} == map[];
    }
  }

  /** A cap edited below the rounds already started is refused, so the bound survives edits. */
  lemma CapCannotFallBelowRounds(state: GoalState, request: UpdateRequest, now: Option<int>)
    requires state.current.Some? && request.maxRounds.Some?
    requires request.maxRounds.value < state.current.value.roundsStarted
    ensures PrepareUpdate(state, request, now).Err?
  {
  }
}
