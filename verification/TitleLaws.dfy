/**
  When an automatic title is refined, and what a manual refresh does
  (src/agent/session_title.rs:123-374), stated over whole runs and over the answers of
  the session and the provider.
*/
module TitleLaws {
  import opened Wrappers
  import opened SessionTitle

  // ----- from a pending prompt to the provider's title -----

  /** The session takes the request: refinement is on, and its event is prepared and accepted. */
  predicate Asks(action: Action) {
    action.DoStart? && action.enabled && action.a.prepared && action.a.requestAppended
  }

  /** Takes a pending prompt away from refinement, or hands it over. */
  predicate TakesPrompt(action: Action) {
    action.DoStart? || action.DoRename? || action.DoRefresh? || action.Reopen?
  }

  /** The first step that takes the prompt asks for a title. */
  predicate AskedFirst(actions: seq<Action>)
    decreases |actions|
  {
    actions != [] && if TakesPrompt(actions[0]) then Asks(actions[0]) else AskedFirst(actions[1..])
  }

  /** The first step that takes the prompt starts the request, which then finishes with the title and is collected. */
  ghost predicate Refined(actions: seq<Action>, title: string)
    decreases |actions|
  {
    actions != [] &&
    if TakesPrompt(actions[0])
    then Asks(actions[0]) && actions[0].a.requestBuilt && FinishedAndCollected(actions[1..], title)
    else Refined(actions[1..], title)
  }

  lemma PromptTaken(w: World, action: Action)
    requires Inv(w) && w.phase.Pending? && TakesPrompt(action)
    ensures var next := Next(w, action);
      && Inv(next)
      && Automatic(next.log) == Automatic(w.log) + (if Asks(action) then [Request(true)] else [])
      && (if Asks(action) && action.a.requestBuilt then next.phase == Running(Working) else Over(next))
  {
    StepKeepsInv(w, action);
    TitledIfHolds(w.log, Automatic(w.log)[0]);
    hide Automatic, CurrentTitle, Requested, Inv;
    match action
    case DoStart(_, _) =>
      AutomaticAppend(w.log, Request(true));
      CurrentTitleAppend(w.log, Request(true));
    case DoRename(title, _) =>
      AutomaticAppend(w.log, Title(title, User, false));
      CurrentTitleAppend(w.log, Title(title, User, false));
    case DoRefresh(enabled, cancelled, fallback, a) =>
      RefreshIsManual(w, enabled, cancelled, fallback, a);
      RefreshKeepsTitle(w, enabled, cancelled, fallback, a);
    case Reopen(_) =>
  }

  lemma PromptWaits(w: World, action: Action)
    requires w.phase.Pending? && !TakesPrompt(action)
    ensures Next(w, action) == w
  {
  }

  /** A request that runs is never recorded again. */
  lemma {:induction false} RequestKept(w: World, actions: seq<Action>)
    requires Request(true) in Automatic(w.log)
    ensures Request(true) in Automatic(Run(w, actions).log)
  {
    AutomaticGrows(w, actions);
  }

  /**
    Over every run from a pending prompt, reopenings included, a provider is asked if and
    only if the first step that takes the prompt starts refinement while it is enabled
    and the session prepares and accepts the request.
  */
  lemma {:induction false} RequestRecordedIff(w: World, actions: seq<Action>)
    requires Inv(w) && w.phase.Pending?
    ensures Request(true) in Automatic(Run(w, actions).log) <==> AskedFirst(actions)
    decreases |actions|
  {
    assert Request(true) !in Automatic(w.log);
    if actions != [] {
      var first, rest := actions[0], actions[1..];
      hide Inv, Automatic;
      if TakesPrompt(first) {
        PromptTaken(w, first);
        if Asks(first) {
          RequestKept(Next(w, first), rest);
        } else {
          NothingAutomaticFrom(Next(w, first), rest);
        }
      } else {
        PromptWaits(w, first);
        RequestRecordedIff(w, rest);
      }
    }
  }

  /**
    Over every run from a pending prompt the provider's title is recorded, after the
    request that asked for it, if and only if the first step that takes the prompt starts
    the request and the task finishes with the title and is collected before a step ends it.
  */
  lemma {:induction false} ProviderTitleRecordedIff(w: World, actions: seq<Action>, title: string)
    requires Inv(w) && w.phase.Pending?
    ensures Automatic(Run(w, actions).log) == Automatic(w.log) + [Request(true), Title(title, Provider, true)]
      <==> Refined(actions, title)
    decreases |actions|
  {
    var events := Automatic(w.log);
    if actions != [] {
      var first, rest := actions[0], actions[1..];
      hide Inv, Automatic, FinishedAndCollected;
      if TakesPrompt(first) {
        PromptTaken(w, first);
        var next := Next(w, first);
        if Asks(first) && first.a.requestBuilt {
          RunningTitleRecordedIff(next, rest, title);
          assert events + [Request(true)] + [Title(title, Provider, true)] == events + [Request(true), Title(title, Provider, true)];
        } else {
          NothingAutomaticFrom(next, rest);
        }
      } else {
        PromptWaits(w, first);
        ProviderTitleRecordedIff(w, rest, title);
      }
    }
  }

  // ----- a manual refresh -----

  /** A refresh without a provider may replace this title. */
  predicate Replaceable(log: seq<Event>) {
    CurrentTitle(log).None? || CurrentTitle(log).value.source.User?
  }

  /** The provider can be asked: there is a title, or its fallback was accepted. */
  predicate CanAsk(w: World, enabled: bool, cancelled: bool, fallback: Option<string>, a: Answers) {
    !cancelled && enabled && (CurrentTitle(w.log).Some? || (fallback.Some? && a.fallbackAppended))
  }

  predicate Asked(w: World, enabled: bool, cancelled: bool, fallback: Option<string>, a: Answers) {
    CanAsk(w, enabled, cancelled, fallback, a) && a.prepared && a.requestAppended
  }

  predicate Titles(w: World, enabled: bool, cancelled: bool, fallback: Option<string>, a: Answers) {
    Asked(w, enabled, cancelled, fallback, a) && a.requestBuilt && a.reply.Accepted? && a.titleAppended
  }

  /** The fallback is written: for want of a title, or without a provider in place of the user's. */
  predicate FallsBack(w: World, enabled: bool, cancelled: bool, fallback: Option<string>, a: Answers) {
    && !cancelled && fallback.Some? && a.fallbackAppended
    && if enabled then CurrentTitle(w.log).None? else Replaceable(w.log)
  }

  /** What a refresh writes: the fallback, the request and the provider's title, each exactly when it gets that far. */
  lemma RefreshWrites(w: World, enabled: bool, cancelled: bool, fallback: Option<string>, a: Answers)
    ensures var next := Refresh(w, enabled, cancelled, fallback, a).0;
      && next.phase == Done
      && next.log == w.log
           + (if FallsBack(w, enabled, cancelled, fallback, a) then [Title(fallback.value, Fallback, false)] else [])
           + (if Asked(w, enabled, cancelled, fallback, a) then [Request(false)] else [])
           + (if Titles(w, enabled, cancelled, fallback, a) then [Title(a.reply.title, Provider, false)] else [])
  {
    hide CurrentTitle;
  }

  /** What a refresh answers: each outcome exactly for its reason. */
  lemma RefreshOutcomeIff(w: World, enabled: bool, cancelled: bool, fallback: Option<string>, a: Answers)
    ensures var outcome, titled := Refresh(w, enabled, cancelled, fallback, a).1, CurrentTitle(w.log).Some?;
      var asks, asked := CanAsk(w, enabled, cancelled, fallback, a), Asked(w, enabled, cancelled, fallback, a);
      && (outcome == CancelledRefresh <==> cancelled || (asked && a.requestBuilt && a.reply.Stopped?))
      && (outcome.Refreshed? <==> Titles(w, enabled, cancelled, fallback, a)
                                  || (!enabled && FallsBack(w, enabled, cancelled, fallback, a)))
      && (outcome.Refreshed? ==> outcome.title == if enabled then a.reply.title else fallback.value)
      && (outcome == FailedRefresh <==> (asks && !a.prepared) || (asked && (!a.requestBuilt || a.reply.NoTitle?)))
      && (outcome == NoHistory <==> !cancelled && !titled && fallback.None?)
      && (outcome.Unchanged? <==> !cancelled && !enabled && titled && (!Replaceable(w.log) || fallback.None?))
      && (outcome.Unchanged? ==> CurrentTitle(w.log).value.title == outcome.title)
      && (outcome == Rejected <==>
            || (!cancelled && fallback.Some? && !a.fallbackAppended && if enabled then !titled else Replaceable(w.log))
            || (asks && a.prepared && !a.requestAppended)
            || (asked && a.requestBuilt && a.reply.Accepted? && !a.titleAppended))
  {
    hide CurrentTitle;
  }
}
