/**
  Automatic and manual session titles (src/agent/session_title.rs:31-374).
  Whether an append is accepted, whether a request can be prepared and what the
  provider answers are environments, one field of `Answers` each.
*/
module SessionTitle {
  import opened Wrappers

  datatype Source = Fallback | Provider | User

  /** A title fact. `automatic` says who caused it; the log itself does not hold it. */
  datatype Event =
    | Title(title: string, source: Source, automatic: bool)
    | Request(automatic: bool)

  /** The background request: still working, or finished with a title or without. */
  datatype Task = Working | Finished(title: Option<string>)

  datatype Phase = Armed | Pending(text: string) | Running(task: Task) | Done

  datatype Outcome =
    | Refreshed(title: string)
    | Unchanged(title: string)
    | NoHistory
    | CancelledRefresh
    | FailedRefresh
    | Rejected

  datatype Reply = Accepted(title: string) | Stopped | NoTitle

  datatype Answers = Answers(
    fallbackAppended: bool,
    prepared: bool,
    requestAppended: bool,
    requestBuilt: bool,
    reply: Reply,
    titleAppended: bool
  )

  datatype World = World(log: seq<Event>, phase: Phase)

  // ----- reading the log -----

  function CurrentTitle(log: seq<Event>): (r: Option<Event>)
    ensures r.Some? ==> r.value.Title?
  {
    if log == [] then None
    else if log[|log| - 1].Title? then Some(log[|log| - 1])
    else CurrentTitle(log[..|log| - 1])
  }

  function Requested(log: seq<Event>): bool {
    exists e :: e in log && e.Request?
  }

  function Automatic(log: seq<Event>): (r: seq<Event>)
    ensures forall e :: e in r ==> e in log && e.automatic
  {
    if log == [] then []
    else Automatic(log[..|log| - 1]) + if log[|log| - 1].automatic then [log[|log| - 1]] else []
  }

  /** The runtime a session starts with. */
  function Opened(log: seq<Event>, enabled: bool): Phase {
    if !enabled || CurrentTitle(log).Some? || Requested(log) then Done else Armed
  }

  // ----- what each operation does -----

  function Appended(w: World, event: Event, accepted: bool): World {
    if accepted then w.(log := w.log + [event]) else w
  }

  /** `prompt` is the first human prompt among the messages and `fallback` its short title, if any. */
  function RecordFallback(w: World, prompt: Option<string>, fallback: Option<string>, accepted: bool): World {
    if w.phase.Armed? && prompt.Some? && fallback.Some? && accepted
    then World(w.log + [Title(fallback.value, Fallback, true)], Pending(prompt.value))
    else w
  }

  /** Whatever the phase was, it is taken: only a pending prompt puts another one back. */
  function StartRefinement(w: World, enabled: bool, a: Answers): World {
    if !w.phase.Pending? then w.(phase := Done)
    else if !enabled || !a.prepared || !a.requestAppended then w.(phase := Done)
    else World(w.log + [Request(true)], if a.requestBuilt then Running(Working) else Done)
  }

  function Settled(w: World, title: Option<string>, accepted: bool): World {
    var done := w.(phase := Done);
    if title.Some? then Appended(done, Title(title.value, Provider, true), accepted) else done
  }

  function CollectReady(w: World, accepted: bool): World {
    if w.phase.Running? && w.phase.task.Finished? then Settled(w, w.phase.task.title, accepted) else w
  }

  function Shutdown(w: World, accepted: bool): World {
    if !w.phase.Running? then w
    else if w.phase.task.Finished? then Settled(w, w.phase.task.title, accepted)
    else w.(phase := Done)
  }

  function Rename(w: World, title: string, accepted: bool): World {
    Appended(w.(phase := Done), Title(title, User, false), accepted)
  }

  /** Refresh without a provider: only a user title, or no title, is replaced. */
  function RefreshFallback(w: World, fallback: Option<string>, a: Answers): (World, Outcome) {
    var current := CurrentTitle(w.log);
    if current.Some? && !current.value.source.User? then (w, Unchanged(current.value.title))
    else if fallback.None? then (w, if current.Some? then Unchanged(current.value.title) else NoHistory)
    else if !a.fallbackAppended then (w, Rejected)
    else (Appended(w, Title(fallback.value, Fallback, false), true), Refreshed(fallback.value))
  }

  function AskProvider(w: World, a: Answers): (World, Outcome) {
    if !a.prepared then (w, FailedRefresh)
    else if !a.requestAppended then (w, Rejected)
    else
      var asked := Appended(w, Request(false), true);
      if !a.requestBuilt then (asked, FailedRefresh)
      else match a.reply
        case Stopped => (asked, CancelledRefresh)
        case NoTitle => (asked, FailedRefresh)
        case Accepted(title) =>
          if a.titleAppended then (Appended(asked, Title(title, Provider, false), true), Refreshed(title))
          else (asked, Rejected)
  }

  function Refresh(w: World, enabled: bool, cancelled: bool, fallback: Option<string>, a: Answers): (World, Outcome) {
    var done := w.(phase := Done);
    if cancelled then (done, CancelledRefresh)
    else if !enabled then RefreshFallback(done, fallback, a)
    else if CurrentTitle(w.log).Some? then AskProvider(done, a)
    else if fallback.None? then (done, NoHistory)
    else if !a.fallbackAppended then (done, Rejected)
    else AskProvider(Appended(done, Title(fallback.value, Fallback, false), true), a)
  }

  // ----- the runtime, updated in place -----

  class Runtime {
    const refinementEnabled: bool
    var log: seq<Event>
    var phase: Phase

    function Value(): World
      reads this
    {
      World(log, phase)
    }

    constructor (log: seq<Event>, enabled: bool, refinementEnabled: bool)
      ensures Value() == World(log, Opened(log, enabled)) && this.refinementEnabled == refinementEnabled
    {
      this.refinementEnabled := refinementEnabled;
      this.log := log;
      this.phase := if !enabled || CurrentTitle(log).Some? || Requested(log) then Done else Armed;
    }

    method Append(event: Event, accepted: bool)
      modifies this`log
      ensures Value() == Appended(old(Value()), event, accepted)
    {
      if accepted {
        log := log + [event];
      }
    }

    method Record(prompt: Option<string>, fallback: Option<string>, accepted: bool)
      modifies this
      ensures Value() == RecordFallback(old(Value()), prompt, fallback, accepted)
    {
      if !phase.Armed? || prompt.None? || fallback.None? {
        return;
      }
      Append(Title(fallback.value, Fallback, true), accepted);
      if accepted {
        phase := Pending(prompt.value);
      }
    }

    method Start(a: Answers)
      modifies this
      ensures Value() == StartRefinement(old(Value()), refinementEnabled, a)
    {
      var before := phase;
      phase := Done;
      if !before.Pending? || !refinementEnabled || !a.prepared {
        return;
      }
      Append(Request(true), a.requestAppended);
      if a.requestAppended && a.requestBuilt {
        phase := Running(Working);
      }
    }

    method Collect(shutdown: bool, accepted: bool)
      modifies this
      ensures Value() ==
        if shutdown then Shutdown(old(Value()), accepted)
        else if old(phase) == Running(Working) then old(Value())
        else CollectReady(old(Value()), accepted)
    {
      if !phase.Running? || (!shutdown && phase.task.Working?) {
        return;
      }
      var task := phase.task;
      phase := Done;
      if task.Finished? && task.title.Some? {
        Append(Title(task.title.value, Provider, true), accepted);
      }
    }

    /** Stop the background request; nothing it finds can be recorded any more. */
    method Supersede()
      modifies this`phase
      ensures phase == Done
    {
      phase := Done;
    }

    method RenameTo(title: string, accepted: bool)
      modifies this
      ensures Value() == Rename(old(Value()), title, accepted)
    {
      Supersede();
      Append(Title(title, User, false), accepted);
    }

    method RefreshTitle(cancelled: bool, fallback: Option<string>, a: Answers) returns (r: Outcome)
      modifies this
      ensures (Value(), r) == Refresh(old(Value()), refinementEnabled, cancelled, fallback, a)
    {
      Supersede();
      if cancelled {
        return CancelledRefresh;
      }
      var current := CurrentTitle(log);
      if !refinementEnabled {
        if current.Some? && !current.value.source.User? {
          return Unchanged(current.value.title);
        }
        if fallback.None? {
          return if current.Some? then Unchanged(current.value.title) else NoHistory;
        }
        Append(Title(fallback.value, Fallback, false), a.fallbackAppended);
        return if a.fallbackAppended then Refreshed(fallback.value) else Rejected;
      }
      if current.None? {
        if fallback.None? {
          return NoHistory;
        }
        Append(Title(fallback.value, Fallback, false), a.fallbackAppended);
        if !a.fallbackAppended {
          return Rejected;
        }
      }
      if !a.prepared {
        return FailedRefresh;
      }
      Append(Request(false), a.requestAppended);
      if !a.requestAppended {
        return Rejected;
      }
      if !a.requestBuilt {
        return FailedRefresh;
      }
      match a.reply {
        case Stopped => return CancelledRefresh;
        case NoTitle => return FailedRefresh;
        case Accepted(title) =>
          Append(Title(title, Provider, false), a.titleAppended);
          return if a.titleAppended then Refreshed(title) else Rejected;
      }
    }
  }

  // ----- runs, with restarts -----

  datatype Action =
    | DoRecord(prompt: Option<string>, fallback: Option<string>, accepted: bool)
    | DoStart(enabled: bool, a: Answers)
    | TaskFinishes(found: Option<string>)
    | DoCollect(accepted: bool)
    | DoShutdown(accepted: bool)
    | DoRename(title: string, accepted: bool)
    | DoRefresh(enabled: bool, cancelled: bool, fallback: Option<string>, a: Answers)
    | Reopen(enabled: bool)

  function Next(w: World, action: Action): World {
    match action
    case DoRecord(prompt, fallback, accepted) => RecordFallback(w, prompt, fallback, accepted)
    case DoStart(enabled, a) => StartRefinement(w, enabled, a)
    case TaskFinishes(found) => if w.phase == Running(Working) then w.(phase := Running(Finished(found))) else w
    case DoCollect(accepted) => CollectReady(w, accepted)
    case DoShutdown(accepted) => Shutdown(w, accepted)
    case DoRename(title, accepted) => Rename(w, title, accepted)
    case DoRefresh(enabled, cancelled, fallback, a) => Refresh(w, enabled, cancelled, fallback, a).0
    case Reopen(enabled) => World(w.log, Opened(w.log, enabled))
  }

  function Run(w: World, actions: seq<Action>): World
    decreases |actions|
  {
    if actions == [] then w else Run(Next(w, actions[0]), actions[1..])
  }

  function Rank(phase: Phase): nat {
    match phase
    case Armed => 0
    case Pending(_) => 1
    case Running(_) => 2
    case Done => 3
  }

  /** The fallback, then the request, then the provider's title, as far as it got. */
  predicate InOrder(events: seq<Event>) {
    && |events| <= 3
    && (|events| > 0 ==> events[0].Title? && events[0].source == Fallback)
    && (|events| > 1 ==> events[1].Request?)
    && (|events| > 2 ==> events[2].Title? && events[2].source == Provider)
  }

  predicate Inv(w: World) {
    var events := Automatic(w.log);
    && InOrder(events)
    && (w.phase.Armed? ==> w.log == [])
    && (w.phase.Pending? ==> |events| == 1)
    && (w.phase.Running? ==> |events| == 2)
  }

  lemma AutomaticAppend(log: seq<Event>, event: Event)
    ensures Automatic(log + [event]) == Automatic(log) + if event.automatic then [event] else []
  {
    assert (log + [event])[..|log|] == log;
  }

  lemma NothingTitled(log: seq<Event>)
    ensures CurrentTitle(log).Some? || Requested(log) || log == []
  {
    if log != [] && log[|log| - 1].Request? {
      assert log[|log| - 1] in log;
    }
  }

  predicate OneRuntime(actions: seq<Action>) {
    forall i :: 0 <= i < |actions| ==> !actions[i].Reopen?
  }

  /** Within one runtime the phase only advances: a title once pending, asked for or given up never returns to an earlier phase. */
  lemma {:induction false} PhaseOnlyAdvances(w: World, actions: seq<Action>)
    requires OneRuntime(actions)
    ensures Rank(Run(w, actions).phase) >= Rank(w.phase)
    decreases |actions|
  {
    if actions != [] {
      PhaseOnlyAdvances(Next(w, actions[0]), actions[1..]);
    }
  }

  lemma StepKeepsInv(w: World, action: Action)
    requires Inv(w)
    ensures Inv(Next(w, action))
  {
    hide CurrentTitle, Requested, Automatic;
    match action
    case DoRecord(_, fallback, _) =>
      if fallback.Some? {
        AutomaticAppend(w.log, Title(fallback.value, Fallback, true));
        AutomaticOfNone();
      }
    case DoStart(_, _) => AutomaticAppend(w.log, Request(true));
    case DoCollect(_) => CollectKeepsInv(w);
    case DoShutdown(_) => CollectKeepsInv(w);
    case DoRename(title, _) => AutomaticAppend(w.log, Title(title, User, false));
    case DoRefresh(enabled, cancelled, fallback, a) => RefreshIsManual(w, enabled, cancelled, fallback, a);
    case Reopen(_) =>
      NothingTitled(w.log);
    case TaskFinishes(_) =>
  }

  lemma AutomaticOfNone()
    ensures Automatic([]) == []
  {
  }

  lemma CollectKeepsInv(w: World)
    ensures w.phase.Running? && w.phase.task.Finished? && w.phase.task.title.Some? ==>
      (var event := Title(w.phase.task.title.value, Provider, true);
       Automatic(w.log + [event]) == Automatic(w.log) + [event])
  {
    if w.phase.Running? && w.phase.task.Finished? && w.phase.task.title.Some? {
      AutomaticAppend(w.log, Title(w.phase.task.title.value, Provider, true));
    }
  }

  lemma RefreshIsManual(w: World, enabled: bool, cancelled: bool, fallback: Option<string>, a: Answers)
    ensures var next := Refresh(w, enabled, cancelled, fallback, a).0;
      next.phase == Done && Automatic(next.log) == Automatic(w.log)
  {
    hide CurrentTitle, Automatic;
    var titled := if fallback.Some? then w.log + [Title(fallback.value, Fallback, false)] else w.log;
    if fallback.Some? {
      AutomaticAppend(w.log, Title(fallback.value, Fallback, false));
    }
    AutomaticAppend(w.log, Request(false));
    AutomaticAppend(titled, Request(false));
    if a.reply.Accepted? {
      AutomaticAppend(w.log + [Request(false)], Title(a.reply.title, Provider, false));
      AutomaticAppend(titled + [Request(false)], Title(a.reply.title, Provider, false));
    }
  }

  /**
    Over any run, reopenings included, at most one automatic fallback, one automatic
    request and one automatic provider title are recorded, in that order.
  */
  lemma {:induction false} AutomationHappensOnce(w: World, actions: seq<Action>)
    requires Inv(w)
    ensures Inv(Run(w, actions)) && InOrder(Automatic(Run(w, actions).log))
    decreases |actions|
  {
    if actions != [] {
      StepKeepsInv(w, actions[0]);
      AutomationHappensOnce(Next(w, actions[0]), actions[1..]);
    }
  }

  predicate Over(w: World) {
    w.phase == Done && CurrentTitle(w.log).Some?
  }

  lemma CurrentTitleAppend(log: seq<Event>, event: Event)
    ensures CurrentTitle(log + [event]) == if event.Title? then Some(event) else CurrentTitle(log)
  {
    assert (log + [event])[..|log|] == log;
  }

  lemma OverStays(w: World, action: Action)
    requires Over(w)
    ensures Over(Next(w, action)) && Automatic(Next(w, action).log) == Automatic(w.log)
  {
    hide Automatic, Requested;
    match action
    case DoRename(title, _) =>
      AutomaticAppend(w.log, Title(title, User, false));
      CurrentTitleAppend(w.log, Title(title, User, false));
    case DoRefresh(enabled, cancelled, fallback, a) =>
      RefreshIsManual(w, enabled, cancelled, fallback, a);
      RefreshKeepsTitle(w, enabled, cancelled, fallback, a);
    case _ =>
  }

  /** After a recorded rename no automatic title or request is ever recorded, whatever happens and however often the session is reopened. */
  lemma {:induction false} RenameEndsAutomation(w: World, title: string, actions: seq<Action>)
    ensures var renamed := Rename(w, title, true);
      Automatic(Run(renamed, actions).log) == Automatic(renamed.log)
  {
    CurrentTitleAppend(w.log, Title(title, User, false));
    NothingAutomaticFrom(Rename(w, title, true), actions);
  }

  lemma {:induction false} NothingAutomaticFrom(w: World, actions: seq<Action>)
    requires Over(w)
    ensures Automatic(Run(w, actions).log) == Automatic(w.log)
    decreases |actions|
  {
    if actions != [] {
      OverStays(w, actions[0]);
      NothingAutomaticFrom(Next(w, actions[0]), actions[1..]);
    }
  }

  /**
    A refresh that did not refresh keeps an existing title exactly; one that did leaves
    the title it reports; and a title, once there, is never lost.
  */
  lemma RefreshKeepsTitle(w: World, enabled: bool, cancelled: bool, fallback: Option<string>, a: Answers)
    ensures var (next, outcome) := Refresh(w, enabled, cancelled, fallback, a);
      && (CurrentTitle(w.log).Some? ==> CurrentTitle(next.log).Some?)
      && (CurrentTitle(w.log).Some? && !outcome.Refreshed? ==> CurrentTitle(next.log) == CurrentTitle(w.log))
      && (outcome.Refreshed? ==> CurrentTitle(next.log).Some? && CurrentTitle(next.log).value.title == outcome.title)
  {
    hide CurrentTitle;
    var titled := if fallback.Some? then w.log + [Title(fallback.value, Fallback, false)] else w.log;
    if fallback.Some? {
      CurrentTitleAppend(w.log, Title(fallback.value, Fallback, false));
    }
    CurrentTitleAppend(w.log, Request(false));
    CurrentTitleAppend(titled, Request(false));
    if a.reply.Accepted? {
      CurrentTitleAppend(w.log + [Request(false)], Title(a.reply.title, Provider, false));
      CurrentTitleAppend(titled + [Request(false)], Title(a.reply.title, Provider, false));
    }
  }

  // ----- when the provider's title is recorded -----

  lemma TitledIfHolds(log: seq<Event>, event: Event)
    requires event in log && event.Title?
    ensures CurrentTitle(log).Some?
  {
    if log[|log| - 1] != event {
      TitledIfHolds(log[..|log| - 1], event);
    }
  }

  lemma RunningIsTitled(w: World)
    requires Inv(w) && w.phase.Running?
    ensures CurrentTitle(w.log).Some?
  {
    TitledIfHolds(w.log, Automatic(w.log)[0]);
  }

  /** Ends a background request that is still working; only a shutdown lets a finished one record its title first. */
  predicate EndsRequest(action: Action) {
    action.DoStart? || action.DoRename? || action.DoRefresh? || action.DoShutdown? || action.Reopen?
  }

  predicate TakesTitle(action: Action) {
    (action.DoCollect? || action.DoShutdown?) && action.accepted
  }

  /** Step `j` collects a finished task: nothing before it ended the request or collected it. */
  predicate Collects(actions: seq<Action>, j: int) {
    && 0 <= j < |actions| && TakesTitle(actions[j])
    && forall i :: 0 <= i < j ==> !EndsRequest(actions[i]) && !actions[i].DoCollect?
  }

  predicate FinishesFirst(actions: seq<Action>, k: int, title: string) {
    && 0 <= k < |actions| && actions[k] == TaskFinishes(Some(title))
    && forall i :: 0 <= i < k ==> !EndsRequest(actions[i]) && !actions[i].TaskFinishes?
  }

  ghost predicate CollectedSometime(actions: seq<Action>) {
    exists j :: Collects(actions, j)
  }

  ghost predicate FinishedAndCollected(actions: seq<Action>, title: string) {
    exists k :: FinishesFirst(actions, k, title) && CollectedSometime(actions[k + 1..])
  }

  lemma SettlingKeepsTitle(w: World)
    ensures w.phase.Running? && w.phase.task.Finished? && w.phase.task.title.Some? ==>
      CurrentTitle(w.log + [Title(w.phase.task.title.value, Provider, true)]).Some?
  {
    if w.phase.Running? && w.phase.task.Finished? && w.phase.task.title.Some? {
      CurrentTitleAppend(w.log, Title(w.phase.task.title.value, Provider, true));
    }
  }

  lemma {:induction false} EndedRecordsNothing(w: World, action: Action, rest: seq<Action>)
    requires Inv(w) && w.phase.Running?
    requires EndsRequest(action) || (action.DoCollect? && w.phase.task.Finished?)
    ensures Automatic(Run(Next(w, action), rest).log) == Automatic(Next(w, action).log)
  {
    var next := Next(w, action);
    RunningIsTitled(w);
    assert Over(next) by {
      hide Automatic, Requested;
      match action
      case DoRename(title, _) => CurrentTitleAppend(w.log, Title(title, User, false));
      case DoRefresh(enabled, cancelled, fallback, a) =>
        RefreshIsManual(w, enabled, cancelled, fallback, a);
        RefreshKeepsTitle(w, enabled, cancelled, fallback, a);
      case _ => SettlingKeepsTitle(w);
    }
    NothingAutomaticFrom(next, rest);
  }

  /** What an ending step itself adds: nothing, unless it accepts the title of a finished task. */
  lemma EndingAdds(w: World, action: Action)
    requires w.phase.Running? && (EndsRequest(action) || action.DoCollect?)
    ensures Automatic(Next(w, action).log) == Automatic(w.log)
      + if w.phase.task.Finished? && w.phase.task.title.Some? && TakesTitle(action)
        then [Title(w.phase.task.title.value, Provider, true)] else []
  {
    hide Automatic, CurrentTitle, Requested;
    CollectKeepsInv(w);
    match action
    case DoRename(title, _) => AutomaticAppend(w.log, Title(title, User, false));
    case DoRefresh(enabled, cancelled, fallback, a) => RefreshIsManual(w, enabled, cancelled, fallback, a);
    case _ =>
  }

  lemma CollectsLater(first: Action, rest: seq<Action>)
    requires !EndsRequest(first) && !first.DoCollect?
    ensures CollectedSometime([first] + rest) <==> CollectedSometime(rest)
  {
    var actions := [first] + rest;
    if CollectedSometime(actions) {
      var j :| Collects(actions, j);
      assert forall i :: 0 <= i < j - 1 ==> rest[i] == actions[i + 1];
      assert Collects(rest, j - 1);
    }
    if CollectedSometime(rest) {
      var j :| Collects(rest, j);
      assert Collects(actions, j + 1);
    }
  }

  lemma CollectsNowOrNever(first: Action, rest: seq<Action>)
    requires EndsRequest(first) || first.DoCollect?
    ensures CollectedSometime([first] + rest) <==> TakesTitle(first)
  {
    var actions := [first] + rest;
    assert actions[0] == first;
    if TakesTitle(first) {
      assert Collects(actions, 0);
    }
  }

  /** A finished task's title is recorded exactly when a step collects it before another ends it. */
  lemma {:induction false} FinishedTitleRecordedIff(w: World, actions: seq<Action>, title: string)
    requires Inv(w) && w.phase == Running(Finished(Some(title)))
    ensures Automatic(Run(w, actions).log) == Automatic(w.log)
      + if CollectedSometime(actions) then [Title(title, Provider, true)] else []
    decreases |actions|
  {
    if actions != [] {
      var first, rest := actions[0], actions[1..];
      assert actions == [first] + rest;
      hide Automatic, Inv;
      if EndsRequest(first) || first.DoCollect? {
        CollectsNowOrNever(first, rest);
        EndedRecordsNothing(w, first, rest);
        EndingAdds(w, first);
      } else {
        CollectsLater(first, rest);
        assert Next(w, first) == w;
        FinishedTitleRecordedIff(w, rest, title);
      }
    }
  }

  lemma {:induction false} NothingFoundRecordsNothing(w: World, actions: seq<Action>)
    requires Inv(w) && w.phase == Running(Finished(None))
    ensures Automatic(Run(w, actions).log) == Automatic(w.log)
    decreases |actions|
  {
    if actions != [] {
      hide Automatic, Inv;
      if EndsRequest(actions[0]) || actions[0].DoCollect? {
        EndedRecordsNothing(w, actions[0], actions[1..]);
        EndingAdds(w, actions[0]);
      } else {
        assert Next(w, actions[0]) == w;
        NothingFoundRecordsNothing(w, actions[1..]);
      }
    }
  }

  lemma {:induction false} FinishedLater(first: Action, rest: seq<Action>, title: string)
    requires !EndsRequest(first) && !first.TaskFinishes?
    ensures FinishedAndCollected([first] + rest, title) <==> FinishedAndCollected(rest, title)
  {
    hide CollectedSometime;
    var actions := [first] + rest;
    if FinishedAndCollected(actions, title) {
      var k :| FinishesFirst(actions, k, title) && CollectedSometime(actions[k + 1..]);
      assert forall i :: 0 <= i < k - 1 ==> rest[i] == actions[i + 1];
      assert FinishesFirst(rest, k - 1, title) && rest[k - 1 + 1..] == actions[k + 1..];
    }
    if FinishedAndCollected(rest, title) {
      var k :| FinishesFirst(rest, k, title) && CollectedSometime(rest[k + 1..]);
      assert FinishesFirst(actions, k + 1, title) && actions[k + 1 + 1..] == rest[k + 1..];
    }
  }

  lemma {:induction false} FinishedNowOrNever(first: Action, rest: seq<Action>, title: string)
    requires EndsRequest(first) || first.TaskFinishes?
    ensures FinishedAndCollected([first] + rest, title) <==> first == TaskFinishes(Some(title)) && CollectedSometime(rest)
  {
    hide CollectedSometime;
    var actions := [first] + rest;
    assert actions[0] == first && actions[1..] == rest;
    if first == TaskFinishes(Some(title)) && CollectedSometime(rest) {
      assert FinishesFirst(actions, 0, title);
    }
  }

  lemma FinishKeepsInv(w: World, action: Action)
    requires Inv(w) && w.phase == Running(Working) && action.TaskFinishes?
    ensures Inv(Next(w, action)) && Next(w, action) == World(w.log, Running(Finished(action.found)))
  {
  }

  /**
    Over every run from a running request, the provider's title is recorded if and only if
    the task finishes with it and a later step collects it, and in between no start,
    rename, refresh, shutdown or reopening came first. A second start, while the task
    works or after it has finished, therefore loses the title.
  */
  lemma {:induction false} RunningTitleRecordedIff(w: World, actions: seq<Action>, title: string)
    requires Inv(w) && w.phase == Running(Working)
    ensures Automatic(Run(w, actions).log) == Automatic(w.log) + [Title(title, Provider, true)]
      <==> FinishedAndCollected(actions, title)
    decreases |actions|
  {
    AppendsOne(Automatic(w.log), title, title);
    if actions != [] {
      var first, rest := actions[0], actions[1..];
      assert actions == [first] + rest;
      assert Run(w, actions) == Run(Next(w, first), rest);
      hide *;
      if EndsRequest(first) {
        FinishedNowOrNever(first, rest, title);
        EndedRecordsNothing(w, first, rest);
        WorkingEnds(w, first);
      } else if first.TaskFinishes? {
        FinishedNowOrNever(first, rest, title);
        FinishKeepsInv(w, first);
        if first.found.Some? {
          FinishedTitleRecordedIff(Next(w, first), rest, first.found.value);
          AppendsOne(Automatic(w.log), title, first.found.value);
        } else {
          NothingFoundRecordsNothing(Next(w, first), rest);
        }
      } else {
        FinishedLater(first, rest, title);
        WorkingIgnores(w, first);
        RunningTitleRecordedIff(w, rest, title);
      }
    }
  }

  lemma AppendsOne(events: seq<Event>, title: string, other: string)
    ensures events != events + [Title(title, Provider, true)]
    ensures events + [] == events
    ensures events + [Title(title, Provider, true)] == events + [Title(other, Provider, true)] <==> title == other
  {
    var a, b := events + [Title(title, Provider, true)], events + [Title(other, Provider, true)];
    assert a[|events|].title == title && b[|events|].title == other;
  }

  lemma WorkingEnds(w: World, action: Action)
    requires w.phase == Running(Working) && EndsRequest(action)
    ensures Automatic(Next(w, action).log) == Automatic(w.log) && !action.TaskFinishes?
  {
    EndingAdds(w, action);
  }

  lemma WorkingIgnores(w: World, action: Action)
    requires w.phase == Running(Working) && !EndsRequest(action) && !action.TaskFinishes?
    ensures Next(w, action) == w
  {
  }

  /** The run a caller may not expect to lose its title: a second start between the finish and the collection. */
  lemma SecondStartLosesTitle(w: World, enabled: bool, a: Answers, title: string)
    requires Inv(w) && w.phase == Running(Working)
    ensures Run(w, [TaskFinishes(Some(title)), DoStart(enabled, a), DoCollect(true)]).log == w.log
    ensures Run(w, [TaskFinishes(Some(title)), DoCollect(true)]).log == w.log + [Title(title, Provider, true)]
  {
    var finished := Next(w, TaskFinishes(Some(title)));
    var lost, kept := [TaskFinishes(Some(title)), DoStart(enabled, a), DoCollect(true)], [TaskFinishes(Some(title)), DoCollect(true)];
    assert lost[1..] == [DoStart(enabled, a), DoCollect(true)] && lost[1..][1..] == [DoCollect(true)];
    assert kept[1..] == [DoCollect(true)];
    assert Run(finished, kept[1..]) == Run(Next(finished, DoCollect(true)), []);
    assert Run(finished, lost[1..]) == Run(Next(finished, DoStart(enabled, a)), lost[1..][1..]);
    assert Run(Next(finished, DoStart(enabled, a)), [DoCollect(true)]) == Run(Next(finished, DoStart(enabled, a)), []);
  }

  // ----- when the fallback title is recorded -----

  /** Takes an armed session's chance: a step that starts refinement, or a title set by hand. */
  predicate Disarms(action: Action) {
    action.DoStart? || action.DoRename? || action.DoRefresh?
  }

  predicate RecordsFallback(action: Action) {
    action.DoRecord? && action.prompt.Some? && action.fallback.Some? && action.accepted
  }

  predicate FallbackTaken(actions: seq<Action>, k: int, fallback: string) {
    && 0 <= k < |actions| && RecordsFallback(actions[k]) && actions[k].fallback == Some(fallback)
    && forall i :: 0 <= i < k ==> !Disarms(actions[i]) && !RecordsFallback(actions[i])
  }

  ghost predicate FallbackComesFirst(actions: seq<Action>, fallback: string) {
    exists k :: FallbackTaken(actions, k, fallback)
  }

  /** Automatic events are never taken back. */
  lemma {:induction false} AutomaticGrows(w: World, actions: seq<Action>)
    ensures Automatic(w.log) <= Automatic(Run(w, actions).log)
    decreases |actions|
  {
    if actions != [] {
      StepGrows(w, actions[0]);
      AutomaticGrows(Next(w, actions[0]), actions[1..]);
    }
  }

  lemma StepGrows(w: World, action: Action)
    ensures Automatic(w.log) <= Automatic(Next(w, action).log)
  {
    hide CurrentTitle, Requested, Automatic;
    match action
    case DoRecord(_, fallback, _) =>
      if fallback.Some? {
        AutomaticAppend(w.log, Title(fallback.value, Fallback, true));
      }
    case DoStart(_, _) => AutomaticAppend(w.log, Request(true));
    case DoCollect(_) => CollectKeepsInv(w);
    case DoShutdown(_) => CollectKeepsInv(w);
    case DoRename(title, _) => AutomaticAppend(w.log, Title(title, User, false));
    case DoRefresh(enabled, cancelled, fallback, a) => RefreshIsManual(w, enabled, cancelled, fallback, a);
    case _ =>
  }

  /** A runtime that is done records nothing automatic any more. */
  lemma {:induction false} DoneStaysDone(w: World, actions: seq<Action>)
    requires w.phase.Done? && OneRuntime(actions)
    ensures Automatic(Run(w, actions).log) == Automatic(w.log)
    decreases |actions|
  {
    if actions != [] {
      var next := Next(w, actions[0]);
      assert next.phase.Done? && Automatic(next.log) == Automatic(w.log) by {
        hide CurrentTitle, Requested, Automatic;
        match actions[0]
        case DoRename(title, _) => AutomaticAppend(w.log, Title(title, User, false));
        case DoRefresh(enabled, cancelled, fallback, a) => RefreshIsManual(w, enabled, cancelled, fallback, a);
        case _ =>
      }
      hide Automatic;
      DoneStaysDone(next, actions[1..]);
    }
  }

  lemma {:induction false} FallbackLater(first: Action, rest: seq<Action>, fallback: string)
    requires !Disarms(first) && !RecordsFallback(first)
    ensures FallbackComesFirst([first] + rest, fallback) <==> FallbackComesFirst(rest, fallback)
  {
    var actions := [first] + rest;
    if FallbackComesFirst(actions, fallback) {
      var k :| FallbackTaken(actions, k, fallback);
      assert forall i :: 0 <= i < k - 1 ==> rest[i] == actions[i + 1];
      assert FallbackTaken(rest, k - 1, fallback);
    }
    if FallbackComesFirst(rest, fallback) {
      var k :| FallbackTaken(rest, k, fallback);
      assert FallbackTaken(actions, k + 1, fallback);
    }
  }

  lemma {:induction false} FallbackNowOrNever(first: Action, rest: seq<Action>, fallback: string)
    requires Disarms(first) || RecordsFallback(first)
    ensures FallbackComesFirst([first] + rest, fallback) <==> RecordsFallback(first) && first.fallback == Some(fallback)
  {
    var actions := [first] + rest;
    assert actions[0] == first;
    if RecordsFallback(first) && first.fallback == Some(fallback) {
      assert FallbackTaken(actions, 0, fallback);
    }
  }

  /**
    Over every run of one runtime from an armed session, an automatic title is recorded if
    and only if an accepted step with a human prompt and a fallback comes before every
    start, rename and refresh; the first such step names it. A step without a prompt that
    starts refinement disarms the session for good.
  */
  lemma {:induction false} FallbackRecordedIff(w: World, actions: seq<Action>, fallback: string)
    requires Inv(w) && w.phase.Armed? && OneRuntime(actions)
    ensures [Title(fallback, Fallback, true)] <= Automatic(Run(w, actions).log) <==> FallbackComesFirst(actions, fallback)
    decreases |actions|
  {
    AutomaticOfNone();
    if actions != [] {
      var first, rest := actions[0], actions[1..];
      assert actions == [first] + rest;
      if RecordsFallback(first) {
        FallbackNowOrNever(first, rest, fallback);
        var event := Title(first.fallback.value, Fallback, true);
        AutomaticAppend(w.log, event);
        assert Next(w, first).log == w.log + [event] && Automatic(Next(w, first).log) == [event];
        AutomaticGrows(Next(w, first), rest);
        hide Automatic;
      } else if Disarms(first) {
        FallbackNowOrNever(first, rest, fallback);
        DisarmedByHand(w, first);
        DoneStaysDone(Next(w, first), rest);
        hide Automatic;
      } else {
        FallbackLater(first, rest, fallback);
        assert Next(w, first) == w;
        FallbackRecordedIff(w, rest, fallback);
      }
    }
  }

  lemma DisarmedByHand(w: World, action: Action)
    requires w.phase.Armed? && Disarms(action)
    ensures Next(w, action).phase.Done? && Automatic(Next(w, action).log) == Automatic(w.log)
  {
    hide CurrentTitle, Requested, Automatic;
    match action
    case DoRename(title, _) => AutomaticAppend(w.log, Title(title, User, false));
    case DoRefresh(enabled, cancelled, fallback, a) => RefreshIsManual(w, enabled, cancelled, fallback, a);
    case _ =>
  }

  /** A first step without a human prompt, then a good prompt: nothing is recorded, until the session is armed again. */
  lemma PromptAfterStartGetsNoTitle(enabled: bool, a: Answers, prompt: string, fallback: string)
    ensures var armed := World([], Opened([], true));
      var late := [DoStart(enabled, a), DoRecord(Some(prompt), Some(fallback), true)];
      && Run(armed, late) == World([], Done)
      && Run(armed, late + [Reopen(true)]) == armed
  {
    var armed := World([], Opened([], true));
    assert armed.phase.Armed?;
    var start, record := DoStart(enabled, a), DoRecord(Some(prompt), Some(fallback), true);
    var late, longer := [start, record], [start, record, Reopen(true)];
    assert late + [Reopen(true)] == longer;
    assert late[1..] == [record] && longer[1..] == [record, Reopen(true)] && longer[1..][1..] == [Reopen(true)];
    var done := World([], Done);
    assert Next(armed, start) == done && Next(done, record) == done && Next(done, Reopen(true)) == armed;
    assert Run(done, [record]) == Run(done, []) == done;
    assert Run(done, [Reopen(true)]) == Run(armed, []) == armed;
    assert Run(done, longer[1..]) == Run(done, [Reopen(true)]);
    assert Run(armed, longer) == Run(done, longer[1..]);
  }
}
