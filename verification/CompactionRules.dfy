/**
  One summary pass over a long conversation, as a value (src/agent/compaction.rs:125-760).
  The session reservation, the provider and the flush barrier are environments: every
  answer they can give is a field of `Env`. The first obstacle in the order of the code
  decides how the pass ends.
*/
module CompactionRules {
  import opened Wrappers
  import opened Text

  const PRESSURE_NUMERATOR: nat := 4
  const PRESSURE_DENOMINATOR: nat := 5
  const RETAIN_NUMERATOR: nat := 4
  const RETAIN_DENOMINATOR: nat := 25
  const MAX_COMPACTION_OUTPUT_TOKENS: nat := 8_192

  // ----- pressure arithmetic -----

  function CheckedMul(a: u64, b: nat): Option<u64> {
    if a * b <= MAX_U64 then Some(a * b) else None
  }

  predicate PressureReached(total: u64, window: u64) {
    var scaled, threshold := CheckedMul(total, PRESSURE_DENOMINATOR), CheckedMul(window, PRESSURE_NUMERATOR);
    scaled.Some? && threshold.Some? && scaled.value >= threshold.value
  }

  function RetainedTokenTarget(window: Option<u64>): u64 {
    if window.None? then 0 else
    var scaled := CheckedMul(window.value, RETAIN_NUMERATOR);
    if scaled.Some? then scaled.value / RETAIN_DENOMINATOR else 0
  }

  /** Four fifths of the window, for every count whose products fit the word; no pressure beyond that. */
  lemma PressureIsFourFifths(total: u64, window: u64)
    ensures PressureReached(total, window) <==>
      5 * total <= MAX_U64 && 4 * window <= MAX_U64 && 5 * total >= 4 * window
    ensures 4 * window <= MAX_U64 && total <= window ==>
      (PressureReached(total, window) ==> 5 * RetainedTokenTarget(Some(window)) <= total)
  {
    if 4 * window <= MAX_U64 {
      var target := RetainedTokenTarget(Some(window));
      assert 25 * target <= 4 * window;
    }
  }

  // ----- events, outcomes and environment answers -----

  datatype Scope = Automatic | Manual

  datatype Failure =
    | Budget
    | TurnTimeout
    | CompactionTimeout
    | ObserverUnavailable
    | TokenBudget
    | CompactionCancelled
    | CompactionFailed
    | Provider(code: string)

  datatype Event =
    | Start(id: string)
    | Summary(id: string)
    | Replace(id: string, checkpointTokens: u64, shadowedTokens: u64)
    | End(id: string, failure: Option<Failure>)

  datatype Outcome =
    | Progress(historyItems: nat, shadowedTokens: u64)
    | NoProgress
    | AdvisoryFailure(failure: Failure)
    | Cancelled
    | TurnError(failure: Failure)

  datatype AppendError = OverBudget | Fatal | Clock | Other

  datatype LoopError = Session(error: AppendError) | BarrierBroken

  /** A fatal error leaves it open whether the event was committed. */
  datatype Answer = Committed | Refused(error: AppendError) | Poisoned(written: bool)

  datatype Barrier = Ready | Unavailable | Broken

  datatype Check = OnEntry | BeforeRequest | BeforeSummary | AfterSummary

  datatype Candidate = Candidate(shadowedTokens: u64, messages: nat, shadowedSeqs: nat)

  datatype Collected = Success | Failed(failure: Failure) | StreamCancelled | TimedOut | Invalid

  datatype Env = Env(
    cancelled: Check -> bool,
    late: Check -> bool,
    candidate: Option<Candidate>,
    draftReady: bool,
    preflight: Option<Option<u64>>,
    dispatchReady: bool,
    id: string,
    claim: Answer,
    start: Answer,
    release: Answer,
    startBarrier: Barrier,
    requestReady: bool,
    streamStarts: bool,
    collected: Collected,
    usage: Option<u64>,
    summaryReady: bool,
    summary: Answer,
    checkpoint: Option<u64>,
    replace: Answer,
    durable: bool,
    endPreferredOnly: Answer,
    endResumed: Answer,
    endPreferred: Answer,
    endSubstituted: bool,
    endExact: Answer,
    endBarrier: Barrier
  )

  function TimeoutFailure(scope: Scope): Failure {
    if scope.Automatic? then TurnTimeout else CompactionTimeout
  }

  /** The claim on the closing event. */
  datatype Claim = Unclaimed | Held | Settled | Released

  // ----- how one pass ends: its first obstacle decides -----

  /** The driver's counters and flag, and its fixed limits. */
  datatype Books = Books(attempts: u64, reported: u64, lost: bool)

  datatype Limits = Limits(maxAttempts: u64, maxReported: u64, maxOutput: u64)

  /** An obstacle leaves the reservation as it is, or has the open bracket closed with an outcome. */
  datatype Stopped = Leaves(claim: Claim, result: Result<Outcome, LoopError>) | Closes(outcome: Outcome)

  /** `written` is in the log when the obstacle is met, and the usage is `tallied` or not. */
  datatype Obstacle = Obstacle(stands: bool, written: seq<Event>, tallied: bool, stopped: Stopped)

  datatype Conclusion = Conclusion(added: seq<Event>, claim: Claim, result: Result<Outcome, LoopError>, books: Books)

  predicate IsFatal(answer: Answer) {
    answer.Poisoned? || answer == Refused(Fatal)
  }

  function ErrorOf(answer: Answer): AppendError {
    if answer.Refused? then answer.error else Fatal
  }

  /** What an append leaves in the log. */
  function Wrote(event: Event, answer: Answer): seq<Event> {
    if answer.Committed? || answer == Poisoned(true) then [event] else []
  }

  function Chosen(env: Env): Candidate {
    if env.candidate.Some? then env.candidate.value else Candidate(0, 0, 0)
  }

  function Counted(reported: u64, outputTokens: Option<u64>): u64 {
    if outputTokens.Some? then SaturatingAdd(reported, outputTokens.value, MAX_U64) else reported
  }

  predicate Overspent(env: Env, books: Books, limits: Limits) {
    env.usage.Some? && Counted(books.reported, env.usage) > limits.maxReported
  }

  predicate CanDispatch(env: Env, limits: Limits) {
    env.preflight.Some? && env.preflight.value.Some? && env.dispatchReady
    && 0 < env.preflight.value.value <= Min(limits.maxOutput, MAX_COMPACTION_OUTPUT_TOKENS)
  }

  predicate IsCheaper(env: Env) {
    env.checkpoint.Some? && env.checkpoint.value < Chosen(env).shadowedTokens
  }

  function OfRefusal(answer: Answer): Outcome {
    if answer == Refused(OverBudget) then TurnError(Budget) else NoProgress
  }

  function OfStream(scope: Scope, collected: Collected): Outcome {
    match collected
    case Failed(failure) => AdvisoryFailure(failure)
    case StreamCancelled => Cancelled
    case TimedOut => TurnError(TimeoutFailure(scope))
    case _ => NoProgress
  }

  const OBSTACLES: nat := 28
  /** From this obstacle on the attempt is counted. */
  const COUNTED_FROM: nat := 5

  function Enters(stands: bool, outcome: Outcome): Obstacle {
    Obstacle(stands, [], false, Leaves(Unclaimed, Ok(outcome)))
  }

  function Opens(stands: bool, tallied: bool, env: Env, outcome: Outcome): Obstacle {
    Obstacle(stands, [Start(env.id)], tallied, Closes(outcome))
  }

  function Tells(stands: bool, env: Env, outcome: Outcome): Obstacle {
    Obstacle(stands, [Start(env.id), Summary(env.id)], true, Closes(outcome))
  }

  /** Before anything is written, and while the bracket is opened. */
  function Entering(k: nat, scope: Scope, env: Env, books: Books, limits: Limits): Obstacle {
    match k
    case 0 => Enters(env.cancelled(OnEntry), Cancelled)
    case 1 => Enters(env.late(OnEntry), TurnError(TimeoutFailure(scope)))
    case 2 => Enters(books.attempts == MAX_U64 || books.attempts + 1 >= limits.maxAttempts, NoProgress)
    case 3 => Enters(Chosen(env).shadowedTokens == 0 || Chosen(env).messages == 0, NoProgress)
    case 4 => Enters(!env.draftReady, NoProgress)
    case 5 => Enters(!CanDispatch(env, limits), NoProgress)
    case 6 => Obstacle(IsFatal(env.claim), [], false, Leaves(Unclaimed, Err(Session(Fatal))))
    case 7 => Enters(!env.claim.Committed?, OfRefusal(env.claim))
    case 8 => Obstacle(IsFatal(env.start), Wrote(Start(env.id), env.start), false, Leaves(Held, Err(Session(Fatal))))
    case _ => Obstacle(!env.start.Committed?, [], false,
                       if env.release.Committed? then Leaves(Released, Ok(OfRefusal(env.start)))
                       else Leaves(Held, Err(Session(ErrorOf(env.release)))))
  }

  /** While the start is in the log and the provider is asked. */
  function Asking(k: nat, scope: Scope, env: Env, books: Books, limits: Limits): Obstacle {
    match k
    case 10 => Obstacle(env.startBarrier.Broken?, [Start(env.id)], false, Leaves(Held, Err(BarrierBroken)))
    case 11 => Opens(env.startBarrier.Unavailable?, false, env, TurnError(ObserverUnavailable))
    case 12 => Opens(env.cancelled(BeforeRequest), false, env, Cancelled)
    case 13 => Opens(env.late(BeforeRequest), false, env, TurnError(TimeoutFailure(scope)))
    case 14 => Opens(!env.requestReady || !env.streamStarts, false, env, NoProgress)
    case 15 => Opens(!env.collected.Success? && Overspent(env, books, limits), true, env, TurnError(TokenBudget))
    case 16 => Opens(!env.collected.Success?, true, env, OfStream(scope, env.collected))
    case 17 => Opens(env.cancelled(BeforeSummary), false, env, Cancelled)
    case _ => Opens(env.late(BeforeSummary), false, env, TurnError(TimeoutFailure(scope)))
  }

  /** While the summary and the replacement are written. */
  function Writing(k: nat, scope: Scope, env: Env, books: Books, limits: Limits): Obstacle {
    match k
    case 19 => Opens(Chosen(env).shadowedTokens > MAX_SAFE_INTEGER || !env.summaryReady, false, env, NoProgress)
    case 20 => Obstacle(IsFatal(env.summary), [Start(env.id)] + Wrote(Summary(env.id), env.summary), false, Leaves(Held, Err(Session(Fatal))))
    case 21 => Opens(!env.summary.Committed?, false, env, OfRefusal(env.summary))
    case 22 => Tells(Overspent(env, books, limits), env, TurnError(TokenBudget))
    case 23 => Tells(env.cancelled(AfterSummary), env, Cancelled)
    case 24 => Tells(env.late(AfterSummary), env, TurnError(TimeoutFailure(scope)))
    case 25 => Tells(!IsCheaper(env), env, NoProgress)
    case 26 => Obstacle(IsFatal(env.replace), [Start(env.id), Summary(env.id)] + Wrote(Replacement(env), env.replace), true,
                        Leaves(Held, Err(Session(Fatal))))
    case _ => Tells(!env.replace.Committed?, env, OfRefusal(env.replace))
  }

  /** The obstacles of one pass in the order they are met. */
  function At(k: nat, scope: Scope, env: Env, books: Books, limits: Limits): Obstacle {
    if k < 10 then Entering(k, scope, env, books, limits)
    else if k < 19 then Asking(k, scope, env, books, limits)
    else Writing(k, scope, env, books, limits)
  }

  /** The event that puts the checkpoint in place of the shadowed messages. */
  function Replacement(env: Env): Event {
    Replace(env.id, if env.checkpoint.Some? then env.checkpoint.value else 0, Chosen(env).shadowedTokens)
  }

  /** The first obstacle from `k` on that stands. */
  function First(k: nat, scope: Scope, env: Env, books: Books, limits: Limits): (r: nat)
    ensures k <= OBSTACLES ==> k <= r <= OBSTACLES
    ensures r < OBSTACLES ==> At(r, scope, env, books, limits).stands
    ensures forall i :: k <= i < r && i < OBSTACLES ==> !At(i, scope, env, books, limits).stands
    decreases OBSTACLES - k
  {
    if k >= OBSTACLES || At(k, scope, env, books, limits).stands then k else First(k + 1, scope, env, books, limits)
  }

  // ----- closing the bracket -----

  /** `lost` when the observer was found gone behind the end. */
  datatype Close = Close(ends: seq<Event>, claim: Claim, result: Result<Outcome, LoopError>, lost: bool)

  function PreferredFailure(outcome: Outcome): Option<Failure> {
    match outcome
    case Cancelled => Some(CompactionCancelled)
    case AdvisoryFailure(failure) => Some(failure)
    case TurnError(failure) => Some(failure)
    case Progress(_, _) => None
    case NoProgress => None
  }

  /** The end is written: only a ready barrier lets the outcome stand. */
  function BehindBarrier(env: Env, outcome: Outcome): Result<Outcome, LoopError> {
    match env.endBarrier
    case Ready => Ok(outcome)
    case Unavailable => Ok(TurnError(ObserverUnavailable))
    case Broken => Err(BarrierBroken)
  }

  /** One end, as the log answers it. */
  function Ended(env: Env, failure: Option<Failure>, answer: Answer, outcome: Outcome): Close {
    if answer.Committed? then Close([End(env.id, failure)], Settled, BehindBarrier(env, outcome), env.endBarrier.Unavailable?)
    else Close(Wrote(End(env.id, failure), answer), Held, Err(Session(ErrorOf(answer))), false)
  }

  /** The end that was protected beforehand. */
  function ProtectedClose(env: Env, outcome: Outcome): Close {
    Ended(env, Some(CompactionFailed), env.endExact, outcome)
  }

  function FailedClose(env: Env, outcome: Outcome): Close {
    var preferred := PreferredFailure(outcome);
    if preferred.None? || (!env.endPreferred.Committed? && !IsFatal(env.endPreferred)) then ProtectedClose(env, outcome)
    else Ended(env, Some(if env.endSubstituted then CompactionFailed else preferred.value), env.endPreferred, outcome)
  }

  function GoodClose(env: Env): Close {
    var progress := Progress(Chosen(env).shadowedSeqs, Chosen(env).shadowedTokens);
    if env.endPreferredOnly.Committed? || IsFatal(env.endPreferredOnly) then Ended(env, None, env.endPreferredOnly, progress)
    else if env.endPreferredOnly == Refused(Clock) && env.durable then Ended(env, None, env.endResumed, progress)
    else ProtectedClose(env, progress)
  }

  // ----- the pass as a whole -----

  /** What follows once the obstacles up to `k` are known. */
  function Concluded(k: nat, scope: Scope, env: Env, books: Books, limits: Limits): Conclusion {
    var after := books.(attempts := if k >= COUNTED_FROM && books.attempts < MAX_U64 then books.attempts + 1 else books.attempts);
    if k >= OBSTACLES then
      Closing([Start(env.id), Summary(env.id), Replacement(env)], GoodClose(env), after.(reported := Counted(books.reported, env.usage)))
    else
      var o := At(k, scope, env, books, limits);
      var tallied := after.(reported := if o.tallied then Counted(books.reported, env.usage) else books.reported);
      match o.stopped
      case Leaves(claim, result) => Conclusion(o.written, claim, result, tallied)
      case Closes(outcome) =>
        Closing(o.written, FailedClose(env, outcome), tallied.(lost := books.lost || k == 11))
  }

  function Closing(written: seq<Event>, close: Close, books: Books): Conclusion {
    Conclusion(written + close.ends, close.claim, close.result, books.(lost := books.lost || close.lost))
  }

  /** One pass: what it writes, how it leaves its claim, what it answers and what it adds to the books. */
  function Compacted(scope: Scope, env: Env, books: Books, limits: Limits): Conclusion {
    Concluded(First(0, scope, env, books, limits), scope, env, books, limits)
  }

  lemma Passes(k: nat, scope: Scope, env: Env, books: Books, limits: Limits)
    requires k < OBSTACLES && !At(k, scope, env, books, limits).stands
    ensures First(k, scope, env, books, limits) == First(k + 1, scope, env, books, limits)
  {
  }

  /** A pass whose first obstacle closes the bracket. */
  lemma ClosesAt(k: nat, base: seq<Event>, written: seq<Event>, tallied: bool, outcome: Outcome, scope: Scope, env: Env, books: Books, limits: Limits)
    requires COUNTED_FROM <= k < OBSTACLES && books.attempts < MAX_U64
    requires First(0, scope, env, books, limits) == First(k, scope, env, books, limits)
    requires At(k, scope, env, books, limits) == Obstacle(true, written, tallied, Closes(outcome))
    ensures var c, close := Compacted(scope, env, books, limits), FailedClose(env, outcome);
      && base + c.added == base + written + close.ends && c.claim == close.claim && c.result == close.result
      && c.books == Books(books.attempts + 1, if tallied then Counted(books.reported, env.usage) else books.reported,
                          books.lost || k == 11 || close.lost)
  {
    hide At, FailedClose;
  }

  /** A pass whose first obstacle leaves everything as it is. */
  lemma LeavesAt(k: nat, base: seq<Event>, written: seq<Event>, tallied: bool, claim: Claim, result: Result<Outcome, LoopError>,
                 scope: Scope, env: Env, books: Books, limits: Limits)
    requires k < OBSTACLES && (k >= COUNTED_FROM ==> books.attempts < MAX_U64)
    requires First(0, scope, env, books, limits) == First(k, scope, env, books, limits)
    requires At(k, scope, env, books, limits) == Obstacle(true, written, tallied, Leaves(claim, result))
    ensures var c := Compacted(scope, env, books, limits);
      && base + c.added == base + written && c.claim == claim && c.result == result
      && c.books == Books(if k >= COUNTED_FROM then books.attempts + 1 else books.attempts,
                          if tallied then Counted(books.reported, env.usage) else books.reported, books.lost)
  {
    hide At;
  }

  /** A pass without an obstacle. */
  lemma NothingStops(base: seq<Event>, scope: Scope, env: Env, books: Books, limits: Limits)
    requires books.attempts < MAX_U64 && First(0, scope, env, books, limits) == OBSTACLES
    ensures var c, close := Compacted(scope, env, books, limits), GoodClose(env);
      && base + c.added == base + [Start(env.id), Summary(env.id), Replacement(env)] + close.ends
      && c.claim == close.claim && c.result == close.result
      && c.books == Books(books.attempts + 1, Counted(books.reported, env.usage), books.lost || close.lost)
  {
    hide At, GoodClose;
  }

  /** What stops a pass before its claim. */
  lemma EntryObstacles(scope: Scope, env: Env, books: Books, limits: Limits)
    ensures At(0, scope, env, books, limits) == Enters(env.cancelled(OnEntry), Cancelled)
    ensures At(1, scope, env, books, limits) == Enters(env.late(OnEntry), TurnError(TimeoutFailure(scope)))
    ensures At(2, scope, env, books, limits) == Enters(books.attempts == MAX_U64 || books.attempts + 1 >= limits.maxAttempts, NoProgress)
    ensures At(3, scope, env, books, limits) == Enters(Chosen(env).shadowedTokens == 0 || Chosen(env).messages == 0, NoProgress)
    ensures At(4, scope, env, books, limits) == Enters(!env.draftReady, NoProgress)
    ensures At(5, scope, env, books, limits) == Enters(!CanDispatch(env, limits), NoProgress)
  {
  }

  /** What stops the opening of the bracket. */
  lemma OpeningObstacles(scope: Scope, env: Env, books: Books, limits: Limits)
    ensures At(6, scope, env, books, limits) == Obstacle(IsFatal(env.claim), [], false, Leaves(Unclaimed, Err(Session(Fatal))))
    ensures At(7, scope, env, books, limits) == Enters(!env.claim.Committed?, OfRefusal(env.claim))
    ensures At(8, scope, env, books, limits) == Obstacle(IsFatal(env.start), Wrote(Start(env.id), env.start), false, Leaves(Held, Err(Session(Fatal))))
    ensures At(9, scope, env, books, limits) == Obstacle(!env.start.Committed?, [], false, if env.release.Committed? then Leaves(Released, Ok(OfRefusal(env.start))) else Leaves(Held, Err(Session(ErrorOf(env.release)))))
  {
  }

  /** What stops the request. */
  lemma RequestObstacles(scope: Scope, env: Env, books: Books, limits: Limits)
    ensures At(10, scope, env, books, limits) == Obstacle(env.startBarrier.Broken?, [Start(env.id)], false, Leaves(Held, Err(BarrierBroken)))
    ensures At(11, scope, env, books, limits) == Opens(env.startBarrier.Unavailable?, false, env, TurnError(ObserverUnavailable))
    ensures At(12, scope, env, books, limits) == Opens(env.cancelled(BeforeRequest), false, env, Cancelled)
    ensures At(13, scope, env, books, limits) == Opens(env.late(BeforeRequest), false, env, TurnError(TimeoutFailure(scope)))
    ensures At(14, scope, env, books, limits) == Opens(!env.requestReady || !env.streamStarts, false, env, NoProgress)
    ensures At(15, scope, env, books, limits) == Opens(!env.collected.Success? && Overspent(env, books, limits), true, env, TurnError(TokenBudget))
    ensures At(16, scope, env, books, limits) == Opens(!env.collected.Success?, true, env, OfStream(scope, env.collected))
    ensures At(17, scope, env, books, limits) == Opens(env.cancelled(BeforeSummary), false, env, Cancelled)
    ensures At(18, scope, env, books, limits) == Opens(env.late(BeforeSummary), false, env, TurnError(TimeoutFailure(scope)))
  {
  }

  /** What stops the summary. */
  lemma SummaryObstacles(scope: Scope, env: Env, books: Books, limits: Limits)
    ensures At(19, scope, env, books, limits) == Opens(Chosen(env).shadowedTokens > MAX_SAFE_INTEGER || !env.summaryReady, false, env, NoProgress)
    ensures At(20, scope, env, books, limits) == Obstacle(IsFatal(env.summary), [Start(env.id)] + Wrote(Summary(env.id), env.summary), false, Leaves(Held, Err(Session(Fatal))))
    ensures At(21, scope, env, books, limits) == Opens(!env.summary.Committed?, false, env, OfRefusal(env.summary))
    ensures At(22, scope, env, books, limits) == Tells(Overspent(env, books, limits), env, TurnError(TokenBudget))
    ensures At(23, scope, env, books, limits) == Tells(env.cancelled(AfterSummary), env, Cancelled)
    ensures At(24, scope, env, books, limits) == Tells(env.late(AfterSummary), env, TurnError(TimeoutFailure(scope)))
  {
  }

  /** What stops the replacement. */
  lemma ReplacementObstacles(scope: Scope, env: Env, books: Books, limits: Limits)
    ensures At(25, scope, env, books, limits) == Tells(!IsCheaper(env), env, NoProgress)
    ensures At(26, scope, env, books, limits) == Obstacle(IsFatal(env.replace), [Start(env.id), Summary(env.id)] + Wrote(Replacement(env), env.replace), true, Leaves(Held, Err(Session(Fatal))))
    ensures At(27, scope, env, books, limits) == Tells(!env.replace.Committed?, env, OfRefusal(env.replace))
  {
  }
}
