/**
  What one summary pass promises, whatever the session, the provider and the barriers
  answer (src/agent/compaction.rs:138-760): how far it gets, when it makes progress, what
  its outcome means, and what it leaves in the log.
*/
module CompactionLaws {
  import opened Wrappers
  import opened Text
  import opened CompactionRules

  // ----- how far a pass gets -----

  /** The reported output stays within its limit; a saturated limit is never exceeded. */
  predicate Within(env: Env, books: Books, limits: Limits) {
    env.usage.Some? ==> books.reported + env.usage.value <= limits.maxReported || limits.maxReported == MAX_U64
  }

  /** Nothing stops the pass before its claim, and an attempt is left for the ordinary request. */
  predicate Admitted(env: Env, books: Books, limits: Limits) {
    && !env.cancelled(OnEntry) && !env.late(OnEntry)
    && books.attempts + 2 <= limits.maxAttempts
    && env.candidate.Some? && env.candidate.value.shadowedTokens > 0 && env.candidate.value.messages > 0
    && env.draftReady && env.dispatchReady
    && env.preflight.Some? && env.preflight.value.Some?
    && 1 <= env.preflight.value.value <= limits.maxOutput && env.preflight.value.value <= 8192
  }

  predicate Begun(env: Env, books: Books, limits: Limits) {
    Admitted(env, books, limits) && env.claim.Committed? && env.start.Committed?
  }

  predicate Asked(env: Env, books: Books, limits: Limits) {
    && Begun(env, books, limits) && env.startBarrier.Ready?
    && !env.cancelled(BeforeRequest) && !env.late(BeforeRequest) && env.requestReady && env.streamStarts
  }

  predicate Answered(env: Env, books: Books, limits: Limits) {
    && Asked(env, books, limits) && env.collected.Success?
    && !env.cancelled(BeforeSummary) && !env.late(BeforeSummary)
    && env.candidate.value.shadowedTokens <= 0x1F_FFFF_FFFF_FFFF && env.summaryReady
  }

  predicate Told(env: Env, books: Books, limits: Limits) {
    Answered(env, books, limits) && env.summary.Committed?
  }

  predicate Priced(env: Env, books: Books, limits: Limits) {
    && Told(env, books, limits) && Within(env, books, limits)
    && !env.cancelled(AfterSummary) && !env.late(AfterSummary)
    && env.checkpoint.Some? && env.checkpoint.value < env.candidate.value.shadowedTokens
  }

  predicate Replaced(env: Env, books: Books, limits: Limits) {
    Priced(env, books, limits) && env.replace.Committed?
  }

  /** The bracket around a replaced surface can be closed behind a ready barrier. */
  predicate ClosesWell(env: Env) {
    && env.endBarrier.Ready?
    && match env.endPreferredOnly
       case Committed => true
       case Poisoned(_) => false
       case Refused(Fatal) => false
       case Refused(Clock) => if env.durable then env.endResumed.Committed? else env.endExact.Committed?
       case Refused(_) => env.endExact.Committed?
  }

  lemma WithinIff(env: Env, books: Books, limits: Limits)
    ensures Overspent(env, books, limits) <==> !Within(env, books, limits)
  {
  }

  lemma AdmittedIff(scope: Scope, env: Env, books: Books, limits: Limits)
    ensures First(0, scope, env, books, limits) >= 6 <==> Admitted(env, books, limits)
  {
    EntryObstacles(scope, env, books, limits);
  }

  lemma BegunIff(scope: Scope, env: Env, books: Books, limits: Limits)
    ensures First(0, scope, env, books, limits) >= 10 <==> Begun(env, books, limits)
  {
    AdmittedIff(scope, env, books, limits);
    OpeningObstacles(scope, env, books, limits);
    hide At, Admitted;
  }

  lemma AskedIff(scope: Scope, env: Env, books: Books, limits: Limits)
    ensures First(0, scope, env, books, limits) >= 15 <==> Asked(env, books, limits)
  {
    BegunIff(scope, env, books, limits);
    RequestObstacles(scope, env, books, limits);
    hide At, Begun;
  }

  lemma AnsweredIff(scope: Scope, env: Env, books: Books, limits: Limits)
    ensures First(0, scope, env, books, limits) >= 20 <==> Answered(env, books, limits)
    ensures First(0, scope, env, books, limits) >= 17 <==> Asked(env, books, limits) && env.collected.Success?
  {
    AskedIff(scope, env, books, limits);
    RequestObstacles(scope, env, books, limits);
    SummaryObstacles(scope, env, books, limits);
    hide At, Begun, Overspent;
    assert Asked(env, books, limits) ==> Chosen(env) == env.candidate.value by {
      CandidateIsThere(env, books, limits);
    }
  }

  lemma CandidateIsThere(env: Env, books: Books, limits: Limits)
    ensures Begun(env, books, limits) ==> env.candidate.Some?
  {
  }

  lemma ToldIff(scope: Scope, env: Env, books: Books, limits: Limits)
    ensures First(0, scope, env, books, limits) >= 22 <==> Told(env, books, limits)
  {
    AnsweredIff(scope, env, books, limits);
    SummaryObstacles(scope, env, books, limits);
    hide At, Answered;
  }

  lemma PricedIff(scope: Scope, env: Env, books: Books, limits: Limits)
    ensures First(0, scope, env, books, limits) >= 26 <==> Priced(env, books, limits)
    ensures First(0, scope, env, books, limits) >= OBSTACLES <==> Replaced(env, books, limits)
  {
    ToldIff(scope, env, books, limits);
    WithinIff(env, books, limits);
    SummaryObstacles(scope, env, books, limits);
    ReplacementObstacles(scope, env, books, limits);
    CandidateIsThere(env, books, limits);
    hide At, Begun, Overspent, Within;
  }

  // ----- progress -----

  /** How the bracket around a replaced surface ends. */
  lemma GoodEnd(env: Env)
    ensures GoodClose(env).result.Ok? && GoodClose(env).result.value.Progress? <==> ClosesWell(env)
    ensures var close := GoodClose(env); ClosesWell(env) ==>
      && close.result == Ok(Progress(Chosen(env).shadowedSeqs, Chosen(env).shadowedTokens)) && close.claim == Settled && !close.lost
      && close.ends == [End(env.id, if env.endPreferredOnly.Committed? || (env.endPreferredOnly == Refused(Clock) && env.durable)
                                    then None else Some(CompactionFailed))]
  {
  }

  /** No obstacle lets the pass report progress. */
  lemma NeverProgress(k: nat, scope: Scope, env: Env, books: Books, limits: Limits)
    requires k < OBSTACLES
    ensures match At(k, scope, env, books, limits).stopped
            case Closes(outcome) => !outcome.Progress?
            case Leaves(_, result) => result.Ok? ==> !result.value.Progress?
  {
  }

  lemma ObstacleBarsProgress(scope: Scope, env: Env, books: Books, limits: Limits)
    requires First(0, scope, env, books, limits) < OBSTACLES
    ensures var r := Compacted(scope, env, books, limits).result; r.Ok? ==> !r.value.Progress?
  {
    NeverProgress(First(0, scope, env, books, limits), scope, env, books, limits);
    hide At, First;
  }

  /**
    A pass makes progress exactly when no check, answer or barrier stands in the way and
    the checkpoint is cheaper; then its whole bracket is in the log.
  */
  lemma ProgressIff(scope: Scope, env: Env, books: Books, limits: Limits)
    ensures var c := Compacted(scope, env, books, limits);
      && (c.result.Ok? && c.result.value.Progress? <==> Replaced(env, books, limits) && ClosesWell(env))
      && (c.result.Ok? && c.result.value.Progress? ==>
            && c.result.value == Progress(env.candidate.value.shadowedSeqs, env.candidate.value.shadowedTokens)
            && c.added == [Start(env.id), Summary(env.id),
                           Replace(env.id, env.checkpoint.value, env.candidate.value.shadowedTokens),
                           End(env.id, if env.endPreferredOnly.Committed? || (env.endPreferredOnly == Refused(Clock) && env.durable)
                                       then None else Some(CompactionFailed))]
            && c.claim == Settled
            && c.books.attempts == books.attempts + 1 && c.books.lost == books.lost)
  {
    PricedIff(scope, env, books, limits);
    CandidateIsThere(env, books, limits);
    GoodEnd(env);
    RoomForAttempt(env, books, limits);
    hide GoodClose, ClosesWell, Begun, First, Within, At, FailedClose;
    if First(0, scope, env, books, limits) < OBSTACLES {
      ObstacleBarsProgress(scope, env, books, limits);
      hide Compacted;
    }
  }

  lemma RoomForAttempt(env: Env, books: Books, limits: Limits)
    ensures Begun(env, books, limits) ==> books.attempts + 1 < limits.maxAttempts
  {
  }

  // ----- the first obstacle decides the outcome -----

  /** The claim, the appends, the release, the ends and the barriers all answer in order. */
  predicate Calm(env: Env) {
    && !IsFatal(env.claim) && !IsFatal(env.start) && !IsFatal(env.summary) && !IsFatal(env.replace)
    && env.release.Committed? && !env.startBarrier.Broken? && env.endBarrier.Ready?
    && env.endPreferred.Committed? && env.endExact.Committed? && env.endPreferredOnly.Committed?
  }

  predicate CancelledFirst(env: Env, books: Books, limits: Limits) {
    || env.cancelled(OnEntry)
    || (Begun(env, books, limits) && env.startBarrier.Ready? && env.cancelled(BeforeRequest))
    || (Asked(env, books, limits) && env.collected.StreamCancelled? && Within(env, books, limits))
    || (Asked(env, books, limits) && env.collected.Success? && env.cancelled(BeforeSummary))
    || (Told(env, books, limits) && Within(env, books, limits) && env.cancelled(AfterSummary))
  }

  predicate LateFirst(env: Env, books: Books, limits: Limits) {
    || (!env.cancelled(OnEntry) && env.late(OnEntry))
    || (Begun(env, books, limits) && env.startBarrier.Ready? && !env.cancelled(BeforeRequest) && env.late(BeforeRequest))
    || (Asked(env, books, limits) && env.collected.TimedOut? && Within(env, books, limits))
    || (Asked(env, books, limits) && env.collected.Success? && !env.cancelled(BeforeSummary) && env.late(BeforeSummary))
    || (Told(env, books, limits) && Within(env, books, limits) && !env.cancelled(AfterSummary) && env.late(AfterSummary))
  }

  /** An append was refused for its size. */
  predicate OverBudgetFirst(env: Env, books: Books, limits: Limits) {
    || (Admitted(env, books, limits) && env.claim == Refused(OverBudget))
    || (Admitted(env, books, limits) && env.claim.Committed? && env.start == Refused(OverBudget))
    || (Answered(env, books, limits) && env.summary == Refused(OverBudget))
    || (Priced(env, books, limits) && env.replace == Refused(OverBudget))
  }

  predicate OverspentFirst(env: Env, books: Books, limits: Limits) {
    !Within(env, books, limits) && (Told(env, books, limits) || (Asked(env, books, limits) && !env.collected.Success?))
  }

  lemma StopsOnEntry(scope: Scope, env: Env, books: Books, limits: Limits)
    ensures var k := First(0, scope, env, books, limits);
      && (k == 0 <==> env.cancelled(OnEntry))
      && (k == 1 <==> !env.cancelled(OnEntry) && env.late(OnEntry))
      && (k == 6 <==> Admitted(env, books, limits) && IsFatal(env.claim))
      && (k == 7 <==> Admitted(env, books, limits) && env.claim.Refused? && !IsFatal(env.claim))
      && (k == 8 <==> Admitted(env, books, limits) && env.claim.Committed? && IsFatal(env.start))
      && (k == 9 <==> Admitted(env, books, limits) && env.claim.Committed? && env.start.Refused? && !IsFatal(env.start))
  {
    AdmittedIff(scope, env, books, limits);
    EntryObstacles(scope, env, books, limits);
    OpeningObstacles(scope, env, books, limits);
    hide At, Admitted, CanDispatch;
  }

  lemma StopsOnRequest(scope: Scope, env: Env, books: Books, limits: Limits)
    ensures var k, begun := First(0, scope, env, books, limits), Begun(env, books, limits) && env.startBarrier.Ready?;
      && (k == 10 <==> Begun(env, books, limits) && env.startBarrier.Broken?)
      && (k == 11 <==> Begun(env, books, limits) && env.startBarrier.Unavailable?)
      && (k == 12 <==> begun && env.cancelled(BeforeRequest))
      && (k == 13 <==> begun && !env.cancelled(BeforeRequest) && env.late(BeforeRequest))
  {
    BegunIff(scope, env, books, limits);
    RequestObstacles(scope, env, books, limits);
    hide At, Begun, Overspent;
  }

  lemma StopsOnStream(scope: Scope, env: Env, books: Books, limits: Limits)
    ensures var k, asked, good := First(0, scope, env, books, limits), Asked(env, books, limits), env.collected.Success?;
      && (k == 15 <==> asked && !good && !Within(env, books, limits))
      && (k == 16 <==> asked && !good && Within(env, books, limits))
      && (k == 17 <==> asked && good && env.cancelled(BeforeSummary))
      && (k == 18 <==> asked && good && !env.cancelled(BeforeSummary) && env.late(BeforeSummary))
  {
    AskedIff(scope, env, books, limits);
    WithinIff(env, books, limits);
    RequestObstacles(scope, env, books, limits);
    hide At, Asked, Overspent, Within;
  }

  lemma StopsOnSummary(scope: Scope, env: Env, books: Books, limits: Limits)
    ensures var k, within := First(0, scope, env, books, limits), Within(env, books, limits);
      && (k == 20 <==> Answered(env, books, limits) && IsFatal(env.summary))
      && (k == 21 <==> Answered(env, books, limits) && env.summary.Refused? && !IsFatal(env.summary))
      && (k == 22 <==> Told(env, books, limits) && !within)
      && (k == 23 <==> Told(env, books, limits) && within && env.cancelled(AfterSummary))
      && (k == 24 <==> Told(env, books, limits) && within && !env.cancelled(AfterSummary) && env.late(AfterSummary))
  {
    AnsweredIff(scope, env, books, limits);
    WithinIff(env, books, limits);
    SummaryObstacles(scope, env, books, limits);
    hide At, Answered, Overspent, Within;
  }

  lemma StopsOnReplacement(scope: Scope, env: Env, books: Books, limits: Limits)
    ensures var k := First(0, scope, env, books, limits);
      && (k == 26 <==> Priced(env, books, limits) && IsFatal(env.replace))
      && (k == 27 <==> Priced(env, books, limits) && env.replace.Refused? && !IsFatal(env.replace))
  {
    PricedIff(scope, env, books, limits);
    ReplacementObstacles(scope, env, books, limits);
    hide At, Priced;
  }

  /** What a calm pass answers at each obstacle. */
  function Answer(k: nat, scope: Scope, env: Env): Outcome {
    match k
    case 0 | 12 | 17 | 23 => Cancelled
    case 1 | 13 | 18 | 24 => TurnError(TimeoutFailure(scope))
    case 7 => OfRefusal(env.claim)
    case 9 => OfRefusal(env.start)
    case 11 => TurnError(ObserverUnavailable)
    case 15 | 22 => TurnError(TokenBudget)
    case 16 => OfStream(scope, env.collected)
    case 21 => OfRefusal(env.summary)
    case 27 => OfRefusal(env.replace)
    case 28 => Progress(Chosen(env).shadowedSeqs, Chosen(env).shadowedTokens)
    case _ => NoProgress
  }

  lemma CalmAnswer(scope: Scope, env: Env, books: Books, limits: Limits)
    requires Calm(env)
    ensures Compacted(scope, env, books, limits).result == Ok(Answer(First(0, scope, env, books, limits), scope, env))
  {
    var k := First(0, scope, env, books, limits);
    hide First;
    if k < OBSTACLES {
      CalmObstacle(k, scope, env, books, limits);
      hide At, Answer;
    } else {
      hide At;
      assert k == OBSTACLES && Answer(k, scope, env) == Progress(Chosen(env).shadowedSeqs, Chosen(env).shadowedTokens);
      hide Answer, FailedClose;
    }
  }

  lemma CalmObstacle(k: nat, scope: Scope, env: Env, books: Books, limits: Limits)
    requires Calm(env) && k < OBSTACLES && At(k, scope, env, books, limits).stands
    ensures match At(k, scope, env, books, limits).stopped
            case Closes(outcome) => outcome == Answer(k, scope, env)
            case Leaves(_, result) => result == Ok(Answer(k, scope, env))
  {
    hide CanDispatch, Overspent, IsCheaper;
  }

  lemma BudgetAt(k: nat, scope: Scope, env: Env)
    ensures Answer(k, scope, env) == TurnError(Budget) <==>
      || (k == 7 && env.claim == Refused(OverBudget)) || (k == 9 && env.start == Refused(OverBudget))
      || (k == 21 && env.summary == Refused(OverBudget)) || (k == 27 && env.replace == Refused(OverBudget))
  {
  }

  lemma BudgetIff(scope: Scope, env: Env, books: Books, limits: Limits)
    requires Calm(env)
    ensures Answer(First(0, scope, env, books, limits), scope, env) == TurnError(Budget) <==> OverBudgetFirst(env, books, limits)
  {
    BudgetAt(First(0, scope, env, books, limits), scope, env);
    StopsOnEntry(scope, env, books, limits);
    StopsOnSummary(scope, env, books, limits);
    StopsOnReplacement(scope, env, books, limits);
    hide First, Answer, Admitted, Begun, Asked, Answered, Told, Priced, Within;
  }

  lemma StoppedIff(scope: Scope, env: Env, books: Books, limits: Limits)
    requires Calm(env)
    ensures var answer := Answer(First(0, scope, env, books, limits), scope, env);
      && (answer == Cancelled <==> CancelledFirst(env, books, limits))
      && (answer == TurnError(if scope.Automatic? then TurnTimeout else CompactionTimeout) <==> LateFirst(env, books, limits))
  {
    StopsOnEntry(scope, env, books, limits);
    StopsOnRequest(scope, env, books, limits);
    StopsOnStream(scope, env, books, limits);
    StopsOnSummary(scope, env, books, limits);
    hide First, Admitted, Begun, Asked, Answered, Told, Within;
  }

  lemma OtherwiseIff(scope: Scope, env: Env, books: Books, limits: Limits)
    requires Calm(env)
    ensures var answer := Answer(First(0, scope, env, books, limits), scope, env);
      && (answer == TurnError(TokenBudget) <==> OverspentFirst(env, books, limits))
      && (answer == TurnError(ObserverUnavailable) <==> Begun(env, books, limits) && env.startBarrier.Unavailable?)
      && (answer.AdvisoryFailure? <==> Asked(env, books, limits) && env.collected.Failed? && Within(env, books, limits))
      && (answer.AdvisoryFailure? ==> answer.failure == env.collected.failure)
      && (answer.Progress? <==> Replaced(env, books, limits))
  {
    PricedIff(scope, env, books, limits);
    StopsOnRequest(scope, env, books, limits);
    StopsOnStream(scope, env, books, limits);
    StopsOnSummary(scope, env, books, limits);
    hide First, Begun, Asked, Told, Priced, Replaced, Within;
  }

  /**
    Each outcome of a calm pass is given exactly for its reason, and the first obstacle
    in the order of the code is that reason: a cancellation, a deadline, a spent budget,
    a lost observer or a provider failure is reported if and only if it came first.
  */
  lemma OutcomeIff(scope: Scope, env: Env, books: Books, limits: Limits)
    requires Calm(env)
    ensures var r := Compacted(scope, env, books, limits).result;
      && r.Ok?
      && (r.value == Cancelled <==> CancelledFirst(env, books, limits))
      && (r.value == TurnError(if scope.Automatic? then TurnTimeout else CompactionTimeout) <==> LateFirst(env, books, limits))
      && (r.value == TurnError(Budget) <==> OverBudgetFirst(env, books, limits))
      && (r.value == TurnError(TokenBudget) <==> OverspentFirst(env, books, limits))
      && (r.value == TurnError(ObserverUnavailable) <==> Begun(env, books, limits) && env.startBarrier.Unavailable?)
      && (r.value.AdvisoryFailure? <==> Asked(env, books, limits) && env.collected.Failed? && Within(env, books, limits))
      && (r.value.AdvisoryFailure? ==> r.value.failure == env.collected.failure)
      && (r.value.Progress? <==> Replaced(env, books, limits))
  {
    CalmAnswer(scope, env, books, limits);
    BudgetIff(scope, env, books, limits);
    StoppedIff(scope, env, books, limits);
    OtherwiseIff(scope, env, books, limits);
    hide *;
  }

  // ----- the log, the end and the books -----

  /** The events before the end, and how far the pass has to get for each. */
  function Front(env: Env, books: Books, limits: Limits): seq<Event> {
    (if Admitted(env, books, limits) && env.claim.Committed? && (env.start.Committed? || env.start == Poisoned(true))
     then [Start(env.id)] else [])
    + (if Answered(env, books, limits) && (env.summary.Committed? || env.summary == Poisoned(true)) then [Summary(env.id)] else [])
    + (if Priced(env, books, limits) && (env.replace.Committed? || env.replace == Poisoned(true))
       then [Replace(env.id, env.checkpoint.value, env.candidate.value.shadowedTokens)] else [])
  }

  /** The same answers, but every end is committed behind a ready barrier. */
  function Settling(env: Env): Env {
    env.(endPreferred := Committed, endExact := Committed, endPreferredOnly := Committed, endBarrier := Ready)
  }

  /** The failure an end names for an outcome, when it names one. */
  function Named(outcome: Outcome): Option<Failure> {
    match outcome
    case Cancelled => Some(CompactionCancelled)
    case AdvisoryFailure(failure) => Some(failure)
    case TurnError(failure) => Some(failure)
    case _ => None
  }

  /** The answer that decides whether the bracket is closed, and the failure its end then carries. */
  function Deciding(env: Env, outcome: Outcome): (Answer, Option<Failure>) {
    if outcome.Progress? then
      match env.endPreferredOnly
      case Refused(Clock) => if env.durable then (env.endResumed, None) else (env.endExact, Some(CompactionFailed))
      case Refused(error) => if error.Fatal? then (env.endPreferredOnly, None) else (env.endExact, Some(CompactionFailed))
      case _ => (env.endPreferredOnly, None)
    else if Named(outcome).None? || (env.endPreferred.Refused? && !env.endPreferred.error.Fatal?) then
      (env.endExact, Some(CompactionFailed))
    else (env.endPreferred, if env.endSubstituted then Some(CompactionFailed) else Named(outcome))
  }

  lemma SameEarly(k: nat, scope: Scope, env: Env, books: Books, limits: Limits)
    ensures Entering(k, scope, Settling(env), books, limits) == Entering(k, scope, env, books, limits)
    ensures Asking(k, scope, Settling(env), books, limits) == Asking(k, scope, env, books, limits)
  {
    hide Writing;
  }

  lemma SameObstacles(k: nat, scope: Scope, env: Env, books: Books, limits: Limits)
    ensures At(k, scope, Settling(env), books, limits) == At(k, scope, env, books, limits)
  {
    SameEarly(k, scope, env, books, limits);
    hide Entering, Asking;
  }

  lemma {:induction false} SameFirst(k: nat, scope: Scope, env: Env, books: Books, limits: Limits)
    ensures First(k, scope, Settling(env), books, limits) == First(k, scope, env, books, limits)
    decreases OBSTACLES - k
  {
    SameObstacles(k, scope, env, books, limits);
    hide At;
    if k < OBSTACLES {
      SameFirst(k + 1, scope, env, books, limits);
    }
  }

  lemma FailedEnd(env: Env, outcome: Outcome)
    requires !outcome.Progress?
    ensures FailedClose(Settling(env), outcome).result == Ok(outcome)
    ensures var close, (answer, failure) := FailedClose(env, outcome), Deciding(env, outcome);
      && close.ends == Wrote(End(env.id, failure), answer)
      && (answer.Committed? ==> close.claim == Settled && close.result == BehindBarrier(env, outcome))
      && (!answer.Committed? ==> close.claim == Held && close.result == Err(Session(if answer.Refused? then answer.error else Fatal)))
      && close.lost == (answer.Committed? && env.endBarrier.Unavailable?)
  {
  }

  lemma GoodEndIs(env: Env)
    ensures GoodClose(Settling(env)).result == Ok(Progress(Chosen(env).shadowedSeqs, Chosen(env).shadowedTokens))
    ensures var outcome := Progress(Chosen(env).shadowedSeqs, Chosen(env).shadowedTokens);
      var close, (answer, failure) := GoodClose(env), Deciding(env, outcome);
      && close.ends == Wrote(End(env.id, failure), answer)
      && (answer.Committed? ==> close.claim == Settled && close.result == BehindBarrier(env, outcome))
      && (!answer.Committed? ==> close.claim == Held && close.result == Err(Session(if answer.Refused? then answer.error else Fatal)))
      && close.lost == (answer.Committed? && env.endBarrier.Unavailable?)
  {
  }

  /** What is in the log before the end. */
  lemma FrontIs(k: nat, scope: Scope, env: Env, books: Books, limits: Limits)
    requires k == First(0, scope, env, books, limits)
    ensures Front(env, books, limits) ==
      if k >= OBSTACLES then [Start(env.id), Summary(env.id), Replacement(env)] else At(k, scope, env, books, limits).written
  {
    StopsOnEntry(scope, env, books, limits);
    BegunIff(scope, env, books, limits);
    AnsweredIff(scope, env, books, limits);
    StopsOnSummary(scope, env, books, limits);
    ToldIff(scope, env, books, limits);
    PricedIff(scope, env, books, limits);
    StopsOnReplacement(scope, env, books, limits);
    hide First, CanDispatch, Overspent, IsCheaper, Within;
  }

  /**
    What a pass leaves, for any answers. If every end were committed behind a ready
    barrier, some outcome would close the bracket; the end written for it is the one the
    code prefers, and only a failed end or barrier keeps that outcome from being reported.
  */
  lemma EndsOnlyReport(scope: Scope, env: Env, books: Books, limits: Limits)
    ensures var c, d, front := Compacted(scope, env, books, limits), Compacted(scope, Settling(env), books, limits), Front(env, books, limits);
      && (!Begun(env, books, limits) || d.result.Err? ==> c == d && c.added == front && c.claim != Settled)
      && (Begun(env, books, limits) && d.result.Ok? ==>
            var (answer, failure) := Deciding(env, d.result.value);
            && c.added == front + Wrote(End(env.id, failure), answer)
            && c.claim == (if answer.Committed? then Settled else Held)
            && c.result == (if !answer.Committed? then Err(Session(if answer.Refused? then answer.error else Fatal))
                            else match env.endBarrier
                                 case Ready => Ok(d.result.value)
                                 case Unavailable => Ok(TurnError(ObserverUnavailable))
                                 case Broken => Err(BarrierBroken)))
  {
    var k := First(0, scope, env, books, limits);
    SameFirst(0, scope, env, books, limits);
    FrontIs(k, scope, env, books, limits);
    BegunIff(scope, env, books, limits);
    GoodEndIs(env);
    hide First, Front, Begun, GoodClose, Deciding;
    if k < OBSTACLES {
      SameObstacles(k, scope, env, books, limits);
      EndsByBarrier(k, scope, env, books, limits);
      var o := At(k, scope, env, books, limits);
      hide At;
      if o.stopped.Closes? {
        FailedEnd(env, o.stopped.outcome);
      }
      hide FailedClose;
    }
  }

  lemma EndsByBarrier(k: nat, scope: Scope, env: Env, books: Books, limits: Limits)
    requires k < OBSTACLES
    ensures match At(k, scope, env, books, limits).stopped
            case Closes(outcome) => !outcome.Progress? && k >= 10
            case Leaves(claim, result) => claim != Settled && (k < 10 || result.Err?) && (result.Ok? ==> At(k, scope, env, books, limits).written == [])
  {
  }

  /** The pass got as far as asking for an attempt, and one is left after it. */
  predicate Tries(env: Env, books: Books, limits: Limits) {
    && !env.cancelled(OnEntry) && !env.late(OnEntry) && books.attempts + 2 <= limits.maxAttempts
    && env.candidate.Some? && env.candidate.value.shadowedTokens > 0 && env.candidate.value.messages > 0 && env.draftReady
  }

  lemma TriesIff(scope: Scope, env: Env, books: Books, limits: Limits)
    ensures First(0, scope, env, books, limits) >= COUNTED_FROM <==> Tries(env, books, limits)
    ensures Admitted(env, books, limits) ==> Tries(env, books, limits)
  {
    EntryObstacles(scope, env, books, limits);
    hide At, CanDispatch;
  }

  lemma Tallied(k: nat, scope: Scope, env: Env, books: Books, limits: Limits)
    requires k < OBSTACLES
    ensures At(k, scope, env, books, limits).tallied <==> k in {15, 16} || k >= 22
  {
  }

  lemma TalliedIff(scope: Scope, env: Env, books: Books, limits: Limits)
    ensures First(0, scope, env, books, limits) in {15, 16} || First(0, scope, env, books, limits) >= 22 <==>
      Told(env, books, limits) || (Asked(env, books, limits) && !env.collected.Success?)
    ensures First(0, scope, env, books, limits) == 11 <==> Begun(env, books, limits) && env.startBarrier.Unavailable?
  {
    StopsOnStream(scope, env, books, limits);
    StopsOnRequest(scope, env, books, limits);
    ToldIff(scope, env, books, limits);
    hide First, Asked, Told, Begun, Within;
    assert Within(env, books, limits) || !Within(env, books, limits);
  }

  /** The observer is lost exactly at a gone barrier. */
  lemma LostIff(scope: Scope, env: Env, books: Books, limits: Limits)
    ensures var c := Compacted(scope, env, books, limits);
      c.books.lost <==> || books.lost || (Begun(env, books, limits) && env.startBarrier.Unavailable?)
                        || (c.claim == Settled && env.endBarrier.Unavailable?)
  {
    var k := First(0, scope, env, books, limits);
    TalliedIff(scope, env, books, limits);
    GoodEndIs(env);
    hide First, Told, Asked, Begun, GoodClose, Deciding;
    if k < OBSTACLES {
      EndsByBarrier(k, scope, env, books, limits);
      var o := At(k, scope, env, books, limits);
      hide At;
      if o.stopped.Closes? {
        FailedEnd(env, o.stopped.outcome);
      }
      hide FailedClose;
    }
  }

  lemma EntersEmpty(k: nat, scope: Scope, env: Env, books: Books, limits: Limits)
    requires k < COUNTED_FROM
    ensures At(k, scope, env, books, limits).written == [] && At(k, scope, env, books, limits).stopped.Leaves?
  {
  }

  /**
    What a pass leaves in the driver's books: an attempt is counted exactly when one is
    tried, and never the last; the reported output exactly when a started stream failed
    or its summary was committed.
  */
  lemma BooksAre(scope: Scope, env: Env, books: Books, limits: Limits)
    ensures var c, usage := Compacted(scope, env, books, limits), if env.usage.Some? then env.usage.value else 0;
      && c.books.attempts == (if Tries(env, books, limits) then books.attempts + 1 else books.attempts)
      && c.books.reported == (if Told(env, books, limits) || (Asked(env, books, limits) && !env.collected.Success?)
                              then Min(books.reported + usage, MAX_U64) else books.reported)
      && (c.added != [] ==> Tries(env, books, limits))
  {
    var k := First(0, scope, env, books, limits);
    TriesIff(scope, env, books, limits);
    TalliedIff(scope, env, books, limits);
    assert Tries(env, books, limits) ==> books.attempts < MAX_U64;
    hide First, Tries, Told, Asked, Begun, GoodClose, FailedClose;
    if k < OBSTACLES {
      Tallied(k, scope, env, books, limits);
      if k < COUNTED_FROM {
        EntersEmpty(k, scope, env, books, limits);
      }
      hide At;
    }
  }

  /** Why a pass whose ends are committed cannot return normally: a fatal append, a failed release or a broken barrier. */
  lemma ErrorIff(scope: Scope, env: Env, books: Books, limits: Limits)
    requires env == Settling(env)
    ensures var r, claimed := Compacted(scope, env, books, limits).result, Admitted(env, books, limits) && env.claim.Committed?;
      && (r == Err(BarrierBroken) <==> Begun(env, books, limits) && env.startBarrier.Broken?)
      && (r.Err? && r.error.Session? <==>
            || (Admitted(env, books, limits) && IsFatal(env.claim))
            || (claimed && !env.start.Committed? && (IsFatal(env.start) || !env.release.Committed?))
            || (Answered(env, books, limits) && IsFatal(env.summary)) || (Priced(env, books, limits) && IsFatal(env.replace)))
      && (r.Err? && r.error.Session? ==>
            r.error.error == if claimed && env.start.Refused? && !IsFatal(env.start) then (if env.release.Refused? then env.release.error else Fatal) else Fatal)
  {
    var k := First(0, scope, env, books, limits);
    StopsOnEntry(scope, env, books, limits);
    StopsOnRequest(scope, env, books, limits);
    StopsOnSummary(scope, env, books, limits);
    StopsOnReplacement(scope, env, books, limits);
    SettledResult(k, scope, env, books, limits);
    hide First, Compacted, Admitted, Begun, Asked, Answered, Told, Priced, Within;
  }

  /** The obstacles that end a pass with an error. */
  function Failing(k: nat, env: Env): Option<LoopError> {
    match k
    case 6 | 8 | 20 | 26 => Some(Session(Fatal))
    case 9 => if env.release.Committed? then None else Some(Session(ErrorOf(env.release)))
    case 10 => Some(BarrierBroken)
    case _ => None
  }

  lemma FailingObstacle(k: nat, scope: Scope, env: Env, books: Books, limits: Limits)
    requires k < OBSTACLES
    ensures match At(k, scope, env, books, limits).stopped
            case Closes(_) => Failing(k, env).None?
            case Leaves(_, result) => if Failing(k, env).Some? then result == Err(Failing(k, env).value) else result.Ok?
  {
  }

  lemma SettledResult(k: nat, scope: Scope, env: Env, books: Books, limits: Limits)
    requires env == Settling(env) && k == First(0, scope, env, books, limits)
    ensures var r := Compacted(scope, env, books, limits).result;
      if Failing(k, env).Some? then r == Err(Failing(k, env).value) else r.Ok?
  {
    hide First, Failing;
    if k < OBSTACLES {
      FailingObstacle(k, scope, env, books, limits);
      hide At;
    } else {
      assert Failing(OBSTACLES, env).None? by { NothingFails(env); }
      hide FailedClose;
    }
  }

  lemma NothingFails(env: Env)
    ensures Failing(OBSTACLES, env).None?
  {
  }

  // ----- whole sessions -----

  function Starts(log: seq<Event>): nat {
    if log == [] then 0 else (if log[0].Start? then 1 else 0) + Starts(log[1..])
  }

  function Ends(log: seq<Event>): nat {
    if log == [] then 0 else (if log[0].End? then 1 else 0) + Ends(log[1..])
  }

  function Replacements(log: seq<Event>): nat {
    if log == [] then 0 else (if log[0].Replace? then 1 else 0) + Replacements(log[1..])
  }

  /** The estimated surface after the replacements of `log`. */
  function SurfaceTokens(before: int, log: seq<Event>): int
    decreases |log|
  {
    if log == [] then before
    else if log[0].Replace? then SurfaceTokens(before - log[0].shadowedTokens + log[0].checkpointTokens, log[1..])
    else SurfaceTokens(before, log[1..])
  }

  lemma {:induction false} CountsAppend(a: seq<Event>, b: seq<Event>, before: int)
    ensures Starts(a + b) == Starts(a) + Starts(b) && Ends(a + b) == Ends(a) + Ends(b)
    ensures Replacements(a + b) == Replacements(a) + Replacements(b)
    ensures SurfaceTokens(before, a + b) == SurfaceTokens(SurfaceTokens(before, a), b)
    decreases |a|
  {
    if a == [] {
      assert a + b == b;
    } else {
      assert (a + b)[1..] == a[1..] + b;
      var next := if a[0].Replace? then before - a[0].shadowedTokens + a[0].checkpointTokens else before;
      CountsAppend(a[1..], b, next);
    }
  }

  lemma CountsUpToOne(log: seq<Event>, before: int)
    requires |log| <= 1
    ensures Starts(log) == (if log != [] && log[0].Start? then 1 else 0)
    ensures Ends(log) == (if log != [] && log[0].End? then 1 else 0)
    ensures Replacements(log) == (if log != [] && log[0].Replace? then 1 else 0)
    ensures SurfaceTokens(before, log) ==
      if log != [] && log[0].Replace? then before - log[0].shadowedTokens + log[0].checkpointTokens else before
  {
    if log != [] {
      assert log[1..] == [];
    }
  }

  lemma FrontCounts(env: Env, books: Books, limits: Limits, before: int)
    ensures var front := Front(env, books, limits);
      && Starts(front) == (if front == [] then 0 else 1) && Ends(front) == 0
      && (Begun(env, books, limits) ==> front != [])
      && Replacements(front) <= Starts(front) && SurfaceTokens(before, front) <= before - Replacements(front)
  {
    var front := Front(env, books, limits);
    var told := Answered(env, books, limits) && (env.summary.Committed? || env.summary == Poisoned(true));
    var a: seq<Event> := if front == [] then [] else [Start(env.id)];
    var b: seq<Event> := if told then [Summary(env.id)] else [];
    var c := front[|a| + |b|..];
    assert front == a + b + c && |c| <= 1 && (front == [] ==> b == [] && c == []);
    assert c != [] ==> c[0].Replace? && c[0].checkpointTokens < c[0].shadowedTokens;
    CountsUpToOne(a, before);
    CountsUpToOne(b, before);
    CountsUpToOne(c, before);
    CountsAppend(a, b, before);
    CountsAppend(a + b, c, before);
  }

  /** A pass that returns normally leaves nothing or a closed bracket in the log. */
  lemma ReturnsBalanced(scope: Scope, env: Env, books: Books, limits: Limits)
    ensures var c, d := Compacted(scope, env, books, limits), Compacted(scope, Settling(env), books, limits);
      && (c.result.Ok? && !Begun(env, books, limits) ==> Front(env, books, limits) == [])
      && (c.result.Ok? ==> !Begun(env, books, limits) || d.result.Ok?)
  {
    var k := First(0, scope, env, books, limits);
    BegunIff(scope, env, books, limits);
    FrontIs(k, scope, env, books, limits);
    EndsOnlyReport(scope, env, books, limits);
    hide First, Front, Begun, Deciding, FailedClose, GoodClose;
    if k < OBSTACLES {
      EndsByBarrier(k, scope, env, books, limits);
      hide At;
    }
  }

  /** One pass opens at most one bracket, closes it when it returns normally, and replaces at most once, for fewer tokens. */
  lemma BracketCounts(scope: Scope, env: Env, books: Books, limits: Limits, before: int)
    ensures var c := Compacted(scope, env, books, limits);
      && Ends(c.added) <= Starts(c.added) <= 1 && Replacements(c.added) <= Starts(c.added)
      && (c.result.Ok? ==> Ends(c.added) == Starts(c.added))
      && SurfaceTokens(before, c.added) <= before - Replacements(c.added)
  {
    var c, d, front := Compacted(scope, env, books, limits), Compacted(scope, Settling(env), books, limits), Front(env, books, limits);
    EndsOnlyReport(scope, env, books, limits);
    ReturnsBalanced(scope, env, books, limits);
    FrontCounts(env, books, limits, before);
    hide Compacted, Front, Begun, Deciding, Settling;
    if Begun(env, books, limits) && d.result.Ok? {
      var (answer, failure) := Deciding(env, d.result.value);
      var end := Wrote(End(env.id, failure), answer);
      CountsUpToOne(end, SurfaceTokens(before, front));
      CountsAppend(front, end, before);
    }
  }

  /** One call of the pass, with the books and limits it finds. */
  datatype Call = Call(scope: Scope, env: Env, books: Books, limits: Limits)

  function Pass(call: Call): Conclusion {
    Compacted(call.scope, call.env, call.books, call.limits)
  }

  /** An error ends the session. */
  ghost predicate IsSession(calls: seq<Call>) {
    forall i :: 0 <= i < |calls| - 1 ==> Pass(calls[i]).result.Ok?
  }

  function Written(calls: seq<Call>): seq<Event> {
    if calls == [] then [] else Written(calls[..|calls| - 1]) + Pass(calls[|calls| - 1]).added
  }

  /**
    Over any session of passes, every bracket but the one an error interrupted is closed,
    no surface is replaced without a bracket, and each replacement shrinks the surface.
  */
  lemma {:induction false} SessionStaysBalanced(calls: seq<Call>, before: int)
    requires IsSession(calls)
    ensures var log := Written(calls);
      && Ends(log) <= Starts(log) <= Ends(log) + 1 && Starts(log) <= |calls|
      && (calls == [] || Pass(calls[|calls| - 1]).result.Ok? ==> Starts(log) == Ends(log))
      && Replacements(log) <= Starts(log) && SurfaceTokens(before, log) <= before - Replacements(log)
  {
    if calls != [] {
      var front, last := calls[..|calls| - 1], calls[|calls| - 1];
      SessionStaysBalanced(front, before);
      CountsAppend(Written(front), Pass(last).added, before);
      BracketCounts(last.scope, last.env, last.books, last.limits, SurfaceTokens(before, Written(front)));
      hide Compacted;
    }
  }
}
