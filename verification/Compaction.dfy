/**
  One summary pass as it runs (src/agent/compaction.rs:138-760): the reservation and the
  driver are updated in place, and the pass finishes as its first obstacle says.
*/
module Compaction {
  import opened Wrappers
  import opened Text
  import opened CompactionRules

  // ----- the reservation -----

  class Reservation {
    var log: seq<Event>
    var claim: Claim

    constructor ()
      ensures log == [] && claim == Unclaimed
    {
      log, claim := [], Unclaimed;
    }

    /** Protect the closing event before anything is written. */
    method ClaimClose(answer: Answer) returns (r: Result<(), AppendError>)
      requires claim == Unclaimed
      modifies this`claim
      ensures r.Ok? <==> answer.Committed?
      ensures claim == if r.Ok? then Held else Unclaimed
      ensures r.Err? ==> r.error == ErrorOf(answer)
    {
      match answer {
        case Committed => claim := Held; r := Ok(());
        case Refused(error) => r := Err(error);
        case Poisoned(_) => r := Err(Fatal);
      }
    }

    method ReleaseClose(answer: Answer) returns (r: Result<(), AppendError>)
      requires claim == Held
      modifies this`claim
      ensures r.Ok? <==> answer.Committed?
      ensures r.Err? ==> r.error == ErrorOf(answer)
      ensures claim == if r.Ok? then Released else Held
    {
      match answer {
        case Committed => claim := Released; r := Ok(());
        case Refused(error) => r := Err(error);
        case Poisoned(_) => r := Err(Fatal);
      }
    }

    method Append(event: Event, answer: Answer) returns (r: Result<(), AppendError>)
      modifies this`log
      ensures r.Ok? <==> answer.Committed?
      ensures r.Err? ==> r.error == ErrorOf(answer)
      ensures log == old(log) + Wrote(event, answer)
    {
      match answer {
        case Committed => log := log + [event]; r := Ok(());
        case Refused(error) => r := Err(error);
        case Poisoned(written) =>
          if written {
            log := log + [event];
          }
          r := Err(Fatal);
      }
    }

    /** Write the closing event under its claim. */
    method Settle(event: Event, answer: Answer) returns (r: Result<(), AppendError>)
      requires claim == Held
      modifies this
      ensures r.Ok? <==> answer.Committed?
      ensures r.Err? ==> r.error == ErrorOf(answer)
      ensures log == old(log) + Wrote(event, answer)
      ensures claim == if r.Ok? then Settled else Held
    {
      r := Append(event, answer);
      if r.Ok? {
        claim := Settled;
      }
    }
  }

  class Driver {
    var attempts: u64
    var reportedOutputTokens: u64
    var observerUnavailable: bool
    const maxAttempts: u64
    const maxReportedOutputTokens: u64
    const maxOutputTokens: u64

    constructor (maxAttempts: u64, maxReportedOutputTokens: u64, maxOutputTokens: u64)
      ensures Value() == Books(0, 0, false) && Bounds() == Limits(maxAttempts, maxReportedOutputTokens, maxOutputTokens)
    {
      attempts, reportedOutputTokens, observerUnavailable := 0, 0, false;
      this.maxAttempts := maxAttempts;
      this.maxReportedOutputTokens := maxReportedOutputTokens;
      this.maxOutputTokens := maxOutputTokens;
    }

    function Value(): Books
      reads this
    {
      Books(attempts, reportedOutputTokens, observerUnavailable)
    }

    function Bounds(): Limits {
      Limits(maxAttempts, maxReportedOutputTokens, maxOutputTokens)
    }

    method RecordSummaryUsage(outputTokens: Option<u64>) returns (failure: Option<Failure>)
      modifies this`reportedOutputTokens
      ensures reportedOutputTokens == Counted(old(reportedOutputTokens), outputTokens)
      ensures failure == if outputTokens.Some? && reportedOutputTokens > maxReportedOutputTokens then Some(TokenBudget) else None
    {
      if outputTokens.None? {
        return None;
      }
      reportedOutputTokens := Min(reportedOutputTokens + outputTokens.value, MAX_U64);
      failure := if reportedOutputTokens > maxReportedOutputTokens then Some(TokenBudget) else None;
    }
  }

  // ----- the pass -----

  /** The reservation and the driver are left as a conclusion says, for a log that began with `base`. */
  ghost predicate Finished(reservation: Reservation, driver: Driver, base: seq<Event>, c: Conclusion)
    reads reservation, driver
  {
    reservation.log == base + c.added && reservation.claim == c.claim && driver.Value() == c.books
  }

  method AwaitBarrier(driver: Driver, env: Env, outcome: Outcome) returns (r: Result<Outcome, LoopError>)
    modifies driver`observerUnavailable
    ensures r == BehindBarrier(env, outcome)
    ensures driver.observerUnavailable == (old(driver.observerUnavailable) || env.endBarrier.Unavailable?)
  {
    match env.endBarrier {
      case Ready => r := Ok(outcome);
      case Unavailable =>
        driver.observerUnavailable := true;
        r := Ok(TurnError(ObserverUnavailable));
      case Broken => r := Err(BarrierBroken);
    }
  }

  /** Close the bracket after a failure, preferring an end that names it. */
  method CloseFailedBracket(reservation: Reservation, driver: Driver, env: Env, outcome: Outcome)
      returns (r: Result<Outcome, LoopError>)
    requires reservation.claim == Held
    modifies reservation, driver`observerUnavailable
    ensures var close := FailedClose(env, outcome);
      && reservation.log == old(reservation.log) + close.ends && reservation.claim == close.claim && r == close.result
      && driver.observerUnavailable == (old(driver.observerUnavailable) || close.lost)
  {
    var preferred := PreferredFailure(outcome);
    if preferred.Some? {
      var failure := if env.endSubstituted then CompactionFailed else preferred.value;
      var settled := reservation.Settle(End(env.id, Some(failure)), env.endPreferred);
      if settled.Ok? {
        r := AwaitBarrier(driver, env, outcome);
        return;
      }
      if settled.error.Fatal? {
        return Err(Session(Fatal));
      }
    }
    var settled := reservation.Settle(End(env.id, Some(CompactionFailed)), env.endExact);
    if settled.Err? {
      return Err(Session(settled.error));
    }
    r := AwaitBarrier(driver, env, outcome);
  }

  /** The pass has met its first obstacle, and the bracket is closed as that obstacle says. */
  method CloseAt(ghost k: nat, reservation: Reservation, driver: Driver, scope: Scope, env: Env, outcome: Outcome,
                 ghost base: seq<Event>, ghost written: seq<Event>, ghost tallied: bool, ghost books: Books)
      returns (r: Result<Outcome, LoopError>)
    requires COUNTED_FROM <= k < OBSTACLES && books.attempts < MAX_U64
    requires reservation.claim == Held && reservation.log == base + written
    requires First(0, scope, env, books, driver.Bounds()) == First(k, scope, env, books, driver.Bounds())
    requires At(k, scope, env, books, driver.Bounds()) == Obstacle(true, written, tallied, Closes(outcome))
    requires driver.Value() == Books(books.attempts + 1, if tallied then Counted(books.reported, env.usage) else books.reported,
                                     books.lost || k == 11)
    modifies reservation, driver`observerUnavailable
    ensures var c := Compacted(scope, env, books, driver.Bounds());
      Finished(reservation, driver, base, c) && r == c.result
  {
    ClosesAt(k, base, written, tallied, outcome, scope, env, books, driver.Bounds());
    hide At, First, Compacted, FailedClose;
    r := CloseFailedBracket(reservation, driver, env, outcome);
  }

  /** The pass has met its first obstacle, and everything is left as it is. */
  lemma LeaveAt(k: nat, reservation: Reservation, driver: Driver, scope: Scope, env: Env, result: Result<Outcome, LoopError>,
                base: seq<Event>, written: seq<Event>, tallied: bool, books: Books)
    requires k < OBSTACLES && (k >= COUNTED_FROM ==> books.attempts < MAX_U64)
    requires reservation.log == base + written
    requires First(0, scope, env, books, driver.Bounds()) == First(k, scope, env, books, driver.Bounds())
    requires At(k, scope, env, books, driver.Bounds()) == Obstacle(true, written, tallied, Leaves(reservation.claim, result))
    requires driver.Value() == Books(if k >= COUNTED_FROM then books.attempts + 1 else books.attempts,
                                     if tallied then Counted(books.reported, env.usage) else books.reported, books.lost)
    ensures var c := Compacted(scope, env, books, driver.Bounds());
      Finished(reservation, driver, base, c) && result == c.result
  {
    LeavesAt(k, base, written, tallied, reservation.claim, result, scope, env, books, driver.Bounds());
  }

  /** The surface was just replaced: close the bracket, falling back to the protected end. */
  method FinishBracket(reservation: Reservation, driver: Driver, env: Env) returns (r: Result<Outcome, LoopError>)
    requires reservation.claim == Held
    modifies reservation, driver`observerUnavailable
    ensures var close := GoodClose(env);
      && reservation.log == old(reservation.log) + close.ends && reservation.claim == close.claim && r == close.result
      && driver.observerUnavailable == (old(driver.observerUnavailable) || close.lost)
  {
    var settled := reservation.Settle(End(env.id, None), env.endPreferredOnly);
    if settled.Err? {
      if settled.error.Clock? && env.durable {
        settled := reservation.Settle(End(env.id, None), env.endResumed);
        if settled.Err? {
          return Err(Session(settled.error));
        }
      } else if settled.error.Fatal? {
        return Err(Session(Fatal));
      } else {
        settled := reservation.Settle(End(env.id, Some(CompactionFailed)), env.endExact);
        if settled.Err? {
          return Err(Session(settled.error));
        }
      }
    }
    r := AwaitBarrier(driver, env, Progress(Chosen(env).shadowedSeqs, Chosen(env).shadowedTokens));
  }

  /** The summary is logged and counted: replace the surface by its checkpoint if that is cheaper. */
  method ReplaceIfCheaper(reservation: Reservation, driver: Driver, scope: Scope, env: Env, ghost base: seq<Event>, ghost books: Books)
      returns (r: Result<Outcome, LoopError>)
    requires reservation.claim == Held && reservation.log == base + [Start(env.id), Summary(env.id)]
    requires First(0, scope, env, books, driver.Bounds()) == First(25, scope, env, books, driver.Bounds())
    requires books.attempts < MAX_U64 && driver.Value() == books.(attempts := books.attempts + 1, reported := Counted(books.reported, env.usage))
    modifies reservation, driver`observerUnavailable
    ensures var c := Compacted(scope, env, books, driver.Bounds());
      Finished(reservation, driver, base, c) && r == c.result
  {
    ghost var limits := driver.Bounds();
    ReplacementObstacles(scope, env, books, limits);
    hide At, First, Concluded, Compacted, Closing, FailedClose, GoodClose, CanDispatch, Counted, Finished;
    if env.checkpoint.None? || env.checkpoint.value >= Chosen(env).shadowedTokens {
      r := CloseAt(25, reservation, driver, scope, env, NoProgress, base, [Start(env.id), Summary(env.id)], true, books);
      return;
    }
    Passes(25, scope, env, books, limits);
    var replaced := reservation.Append(Replace(env.id, env.checkpoint.value, Chosen(env).shadowedTokens), env.replace);
    if replaced.Err? {
      if replaced.error.Fatal? {
        LeaveAt(26, reservation, driver, scope, env, Err(Session(Fatal)), base, [Start(env.id), Summary(env.id)] + Wrote(Replacement(env), env.replace), true, books);
        return Err(Session(Fatal));
      }
      Passes(26, scope, env, books, limits);
      r := CloseAt(27, reservation, driver, scope, env, if replaced.error.OverBudget? then TurnError(Budget) else NoProgress, base, [Start(env.id), Summary(env.id)], true, books);
      return;
    }
    Passes(26, scope, env, books, limits);
    Passes(27, scope, env, books, limits);
    NothingStops(base, scope, env, books, limits);
    r := FinishBracket(reservation, driver, env);
  }

  /** The stream gave a summary: log it. */
  method LogSummary(reservation: Reservation, driver: Driver, scope: Scope, env: Env, ghost base: seq<Event>, ghost books: Books)
      returns (r: Result<Outcome, LoopError>)
    requires reservation.claim == Held && reservation.log == base + [Start(env.id)]
    requires First(0, scope, env, books, driver.Bounds()) == First(19, scope, env, books, driver.Bounds())
    requires books.attempts < MAX_U64 && driver.Value() == books.(attempts := books.attempts + 1)
    modifies reservation, driver`observerUnavailable, driver`reportedOutputTokens
    ensures var c := Compacted(scope, env, books, driver.Bounds());
      Finished(reservation, driver, base, c) && r == c.result
  {
    ghost var limits := driver.Bounds();
    SummaryObstacles(scope, env, books, limits);
    hide At, First, Concluded, Compacted, Closing, FailedClose, GoodClose, CanDispatch, Counted, Finished;
    if Chosen(env).shadowedTokens > MAX_SAFE_INTEGER || !env.summaryReady {
      r := CloseAt(19, reservation, driver, scope, env, NoProgress, base, [Start(env.id)], false, books);
      return;
    }
    Passes(19, scope, env, books, limits);
    var logged := reservation.Append(Summary(env.id), env.summary);
    if logged.Err? {
      if logged.error.Fatal? {
        LeaveAt(20, reservation, driver, scope, env, Err(Session(Fatal)), base, [Start(env.id)] + Wrote(Summary(env.id), env.summary), false, books);
        return Err(Session(Fatal));
      }
      Passes(20, scope, env, books, limits);
      r := CloseAt(21, reservation, driver, scope, env, if logged.error.OverBudget? then TurnError(Budget) else NoProgress, base, [Start(env.id)], false, books);
      return;
    }
    Passes(20, scope, env, books, limits);
    Passes(21, scope, env, books, limits);
    r := CountSummary(reservation, driver, scope, env, base, books);
  }

  /** The summary is logged: count what it used. */
  method CountSummary(reservation: Reservation, driver: Driver, scope: Scope, env: Env, ghost base: seq<Event>, ghost books: Books)
      returns (r: Result<Outcome, LoopError>)
    requires reservation.claim == Held && reservation.log == base + [Start(env.id), Summary(env.id)]
    requires First(0, scope, env, books, driver.Bounds()) == First(22, scope, env, books, driver.Bounds())
    requires books.attempts < MAX_U64 && driver.Value() == books.(attempts := books.attempts + 1)
    modifies reservation, driver`observerUnavailable, driver`reportedOutputTokens
    ensures var c := Compacted(scope, env, books, driver.Bounds());
      Finished(reservation, driver, base, c) && r == c.result
  {
    ghost var limits := driver.Bounds();
    SummaryObstacles(scope, env, books, limits);
    hide At, First, Concluded, Compacted, Closing, FailedClose, GoodClose, CanDispatch, Counted, Finished;
    var over := driver.RecordSummaryUsage(env.usage);
    if over.Some? {
      r := CloseAt(22, reservation, driver, scope, env, TurnError(over.value), base, [Start(env.id), Summary(env.id)], true, books);
      return;
    }
    Passes(22, scope, env, books, limits);
    if env.cancelled(AfterSummary) {
      r := CloseAt(23, reservation, driver, scope, env, Cancelled, base, [Start(env.id), Summary(env.id)], true, books);
      return;
    }
    Passes(23, scope, env, books, limits);
    if env.late(AfterSummary) {
      r := CloseAt(24, reservation, driver, scope, env, TurnError(TimeoutFailure(scope)), base, [Start(env.id), Summary(env.id)], true, books);
      return;
    }
    Passes(24, scope, env, books, limits);
    r := ReplaceIfCheaper(reservation, driver, scope, env, base, books);
  }

  /** The start is logged: wait for the barrier. */
  method RequestSummary(reservation: Reservation, driver: Driver, scope: Scope, env: Env, ghost base: seq<Event>, ghost books: Books)
      returns (r: Result<Outcome, LoopError>)
    requires reservation.claim == Held && reservation.log == base + [Start(env.id)]
    requires First(0, scope, env, books, driver.Bounds()) == First(10, scope, env, books, driver.Bounds())
    requires books.attempts < MAX_U64 && driver.Value() == books.(attempts := books.attempts + 1)
    modifies reservation, driver`observerUnavailable, driver`reportedOutputTokens
    ensures var c := Compacted(scope, env, books, driver.Bounds());
      Finished(reservation, driver, base, c) && r == c.result
  {
    ghost var limits := driver.Bounds();
    RequestObstacles(scope, env, books, limits);
    hide At, First, Concluded, Compacted, Closing, FailedClose, GoodClose, CanDispatch, Counted, Finished;
    match env.startBarrier {
      case Ready =>
        Passes(10, scope, env, books, limits);
        Passes(11, scope, env, books, limits);
      case Unavailable =>
        Passes(10, scope, env, books, limits);
        driver.observerUnavailable := true;
        r := CloseAt(11, reservation, driver, scope, env, TurnError(ObserverUnavailable), base, [Start(env.id)], false, books);
        return;
      case Broken =>
        LeaveAt(10, reservation, driver, scope, env, Err(BarrierBroken), base, [Start(env.id)], false, books);
        return Err(BarrierBroken);
    }
    r := AskProvider(reservation, driver, scope, env, base, books);
  }

  /** The start is known to be written: ask the provider and collect its summary. */
  method AskProvider(reservation: Reservation, driver: Driver, scope: Scope, env: Env, ghost base: seq<Event>, ghost books: Books)
      returns (r: Result<Outcome, LoopError>)
    requires reservation.claim == Held && reservation.log == base + [Start(env.id)]
    requires First(0, scope, env, books, driver.Bounds()) == First(12, scope, env, books, driver.Bounds())
    requires books.attempts < MAX_U64 && driver.Value() == books.(attempts := books.attempts + 1)
    modifies reservation, driver`observerUnavailable, driver`reportedOutputTokens
    ensures var c := Compacted(scope, env, books, driver.Bounds());
      Finished(reservation, driver, base, c) && r == c.result
  {
    ghost var limits := driver.Bounds();
    RequestObstacles(scope, env, books, limits);
    hide At, First, Concluded, Compacted, Closing, FailedClose, GoodClose, CanDispatch, Counted, Finished;
    if env.cancelled(BeforeRequest) {
      r := CloseAt(12, reservation, driver, scope, env, Cancelled, base, [Start(env.id)], false, books);
      return;
    }
    Passes(12, scope, env, books, limits);
    if env.late(BeforeRequest) {
      r := CloseAt(13, reservation, driver, scope, env, TurnError(TimeoutFailure(scope)), base, [Start(env.id)], false, books);
      return;
    }
    Passes(13, scope, env, books, limits);
    if !env.requestReady || !env.streamStarts {
      r := CloseAt(14, reservation, driver, scope, env, NoProgress, base, [Start(env.id)], false, books);
      return;
    }
    Passes(14, scope, env, books, limits);
    if !env.collected.Success? {
      r := AbandonStream(reservation, driver, scope, env, base, books);
      return;
    }
    Passes(15, scope, env, books, limits);
    Passes(16, scope, env, books, limits);
    if env.cancelled(BeforeSummary) {
      r := CloseAt(17, reservation, driver, scope, env, Cancelled, base, [Start(env.id)], false, books);
      return;
    }
    Passes(17, scope, env, books, limits);
    if env.late(BeforeSummary) {
      r := CloseAt(18, reservation, driver, scope, env, TurnError(TimeoutFailure(scope)), base, [Start(env.id)], false, books);
      return;
    }
    Passes(18, scope, env, books, limits);
    r := LogSummary(reservation, driver, scope, env, base, books);
  }

  /** The stream did not give a summary: what it used is counted all the same. */
  method AbandonStream(reservation: Reservation, driver: Driver, scope: Scope, env: Env, ghost base: seq<Event>, ghost books: Books)
      returns (r: Result<Outcome, LoopError>)
    requires reservation.claim == Held && reservation.log == base + [Start(env.id)] && !env.collected.Success?
    requires First(0, scope, env, books, driver.Bounds()) == First(15, scope, env, books, driver.Bounds())
    requires books.attempts < MAX_U64 && driver.Value() == books.(attempts := books.attempts + 1)
    modifies reservation, driver`observerUnavailable, driver`reportedOutputTokens
    ensures var c := Compacted(scope, env, books, driver.Bounds());
      Finished(reservation, driver, base, c) && r == c.result
  {
    ghost var limits := driver.Bounds();
    RequestObstacles(scope, env, books, limits);
    hide At, First, Concluded, Compacted, Closing, FailedClose, GoodClose, CanDispatch, Counted, Finished;
    var over := driver.RecordSummaryUsage(env.usage);
    if over.Some? {
      r := CloseAt(15, reservation, driver, scope, env, TurnError(over.value), base, [Start(env.id)], true, books);
      return;
    }
    Passes(15, scope, env, books, limits);
    match env.collected {
      case Failed(failure) => r := CloseAt(16, reservation, driver, scope, env, AdvisoryFailure(failure), base, [Start(env.id)], true, books);
      case StreamCancelled => r := CloseAt(16, reservation, driver, scope, env, Cancelled, base, [Start(env.id)], true, books);
      case TimedOut => r := CloseAt(16, reservation, driver, scope, env, TurnError(TimeoutFailure(scope)), base, [Start(env.id)], true, books);
      case Invalid => r := CloseAt(16, reservation, driver, scope, env, NoProgress, base, [Start(env.id)], true, books);
    }
  }

  /** The whole pass, whatever the environment answers. */
  method CompactOnce(reservation: Reservation, driver: Driver, scope: Scope, env: Env) returns (r: Result<Outcome, LoopError>)
    requires reservation.claim == Unclaimed
    modifies reservation, driver
    ensures var c := Compacted(scope, env, old(driver.Value()), driver.Bounds());
      Finished(reservation, driver, old(reservation.log), c) && r == c.result
  {
    ghost var base, books, limits := reservation.log, driver.Value(), driver.Bounds();
    EntryObstacles(scope, env, books, limits);
    hide At, First, Concluded, Compacted, Closing, FailedClose, GoodClose, Finished;
    if env.cancelled(OnEntry) {
      LeaveAt(0, reservation, driver, scope, env, Ok(Cancelled), base, [], false, books);
      return Ok(Cancelled);
    }
    Passes(0, scope, env, books, limits);
    if env.late(OnEntry) {
      LeaveAt(1, reservation, driver, scope, env, Ok(TurnError(TimeoutFailure(scope))), base, [], false, books);
      return Ok(TurnError(TimeoutFailure(scope)));
    }
    Passes(1, scope, env, books, limits);
    if driver.attempts == MAX_U64 || driver.attempts + 1 >= driver.maxAttempts {
      LeaveAt(2, reservation, driver, scope, env, Ok(NoProgress), base, [], false, books);
      return Ok(NoProgress);
    }
    Passes(2, scope, env, books, limits);
    if env.candidate.None? || env.candidate.value.shadowedTokens == 0 || env.candidate.value.messages == 0 {
      LeaveAt(3, reservation, driver, scope, env, Ok(NoProgress), base, [], false, books);
      return Ok(NoProgress);
    }
    Passes(3, scope, env, books, limits);
    var maximum := Min(driver.maxOutputTokens, MAX_COMPACTION_OUTPUT_TOKENS);
    if !env.draftReady {
      LeaveAt(4, reservation, driver, scope, env, Ok(NoProgress), base, [], false, books);
      return Ok(NoProgress);
    }
    Passes(4, scope, env, books, limits);
    driver.attempts := driver.attempts + 1;
    if env.preflight.None? || env.preflight.value.None? || env.preflight.value.value == 0
       || env.preflight.value.value > maximum || !env.dispatchReady {
      LeaveAt(5, reservation, driver, scope, env, Ok(NoProgress), base, [], false, books);
      return Ok(NoProgress);
    }
    Passes(5, scope, env, books, limits);
    r := OpenBracket(reservation, driver, scope, env, base, books);
  }

  /** Claim the closing event, then write the start. */
  method OpenBracket(reservation: Reservation, driver: Driver, scope: Scope, env: Env, ghost base: seq<Event>, ghost books: Books)
      returns (r: Result<Outcome, LoopError>)
    requires reservation.claim == Unclaimed && reservation.log == base
    requires First(0, scope, env, books, driver.Bounds()) == First(6, scope, env, books, driver.Bounds())
    requires books.attempts < MAX_U64 && driver.Value() == books.(attempts := books.attempts + 1)
    modifies reservation, driver`observerUnavailable, driver`reportedOutputTokens
    ensures var c := Compacted(scope, env, books, driver.Bounds());
      Finished(reservation, driver, base, c) && r == c.result
  {
    ghost var limits := driver.Bounds();
    OpeningObstacles(scope, env, books, limits);
    hide At, First, Concluded, Compacted, Closing, FailedClose, GoodClose, CanDispatch, Counted, Finished;
    var claimed := reservation.ClaimClose(env.claim);
    if claimed.Err? {
      match claimed.error {
        case Fatal =>
          LeaveAt(6, reservation, driver, scope, env, Err(Session(Fatal)), base, [], false, books);
          return Err(Session(Fatal));
        case OverBudget =>
          Passes(6, scope, env, books, limits);
          LeaveAt(7, reservation, driver, scope, env, Ok(OfRefusal(env.claim)), base, [], false, books);
          return Ok(TurnError(Budget));
        case _ =>
          Passes(6, scope, env, books, limits);
          LeaveAt(7, reservation, driver, scope, env, Ok(OfRefusal(env.claim)), base, [], false, books);
          return Ok(NoProgress);
      }
    }
    Passes(6, scope, env, books, limits);
    Passes(7, scope, env, books, limits);
    var started := reservation.Append(Start(env.id), env.start);
    if started.Err? {
      if started.error.Fatal? {
        LeaveAt(8, reservation, driver, scope, env, Err(Session(Fatal)), base, Wrote(Start(env.id), env.start), false, books);
        return Err(Session(Fatal));
      }
      Passes(8, scope, env, books, limits);
      var released := reservation.ReleaseClose(env.release);
      r := if released.Err? then Err(Session(released.error)) else Ok(if started.error.OverBudget? then TurnError(Budget) else NoProgress);
      LeaveAt(9, reservation, driver, scope, env, r, base, [], false, books);
      return;
    }
    Passes(8, scope, env, books, limits);
    Passes(9, scope, env, books, limits);
    r := RequestSummary(reservation, driver, scope, env, base, books);
  }
}
