/**
  Every interleaving of the inbox's critical sections with the notifications
  they owe and one waiter (src/agent/job_notice.rs:146-282).  `notify_one`
  happens after the lock is released, by any thread, at any later time.
*/
module JobNoticeRuns {
  import opened Wrappers
  import opened Text
  import opened JobNotice

  // ----- wake-ups -----

  /**
    The waiter in `wait_for_idle_wake`: it has made its notification future,
    then looked at the state, then either returned, consumed a permit, or
    blocked.  `woken` records a broadcast to a future that is not polled yet.
  */
  datatype Waiter =
    | Away
    | Listening(woken: bool)
    | Checked(woken: bool)
    | Blocked
    | Signalled
    | Broadcast

  datatype World = World(inbox: State, permit: bool, owed: nat, owedBroadcasts: nat, waiter: Waiter)

  datatype Action =
    | Enqueue(notice: Notice)
    | Suppress(jobId: string)
    | BeginTurn
    | ObserveHuman
    | ClaimForStep
    | ContinueStep
    | FinishTurn
    | ClaimIdle
    | Restore(batch: seq<PendingNotice>, spentWake: bool)
    | Close
    | NotifyOne
    | NotifyAll
    | Listen
    | Check
    | Poll
    | Resume
    | Cancel

  /** A thread may notify only when it owes it, and a direct human claim is observed inside a turn. */
  predicate Enabled(w: World, a: Action) {
    match a
    case ObserveHuman => w.inbox.activeTurn
    case NotifyOne => w.owed > 0
    case NotifyAll => w.owedBroadcasts > 0
    case Listen => w.waiter.Away?
    case Check => w.waiter.Listening?
    case Poll => w.waiter.Checked?
    case Resume => w.waiter.Signalled? || w.waiter.Broadcast?
    case Cancel => !w.waiter.Away?
    case _ => true
  }

  /** The section's new state, and whether it owes one notification. */
  function Section(s: State, a: Action): (State, bool) {
    match a
    case Enqueue(notice) => (AfterEnqueue(s, notice), !s.closed && CanWake(AfterEnqueue(s, notice)))
    case Suppress(jobId) => (s.(pending := Without(s.pending, jobId)), false)
    case BeginTurn => (Drained(s).(activeTurn := true), false)
    case ObserveHuman => (s.(consecutiveWakes := 0), false)
    case ClaimForStep => (if s.activeTurn then Drained(s) else s, false)
    case ContinueStep => (AfterContinue(s), false)
    case FinishTurn => (s.(activeTurn := false), CanWake(s.(activeTurn := false)))
    case ClaimIdle => (AfterClaim(s), false)
    case Restore(batch, spentWake) => (AfterRestore(s, batch, spentWake), CanWake(AfterRestore(s, batch, spentWake)))
    case Close => (AfterClose(s), false)
    case _ => (s, false)
  }

  function AfterBroadcast(waiter: Waiter): Waiter {
    match waiter
    case Listening(_) => Listening(true)
    case Checked(_) => Checked(true)
    case Blocked => Broadcast
    case _ => waiter
  }

  function Next(w: World, a: Action): World {
    match a
    case NotifyOne =>
      if w.waiter.Blocked? then w.(owed := SaturatingSub(w.owed, 1), waiter := Signalled)
      else w.(owed := SaturatingSub(w.owed, 1), permit := true)
    case NotifyAll =>
      w.(owedBroadcasts := SaturatingSub(w.owedBroadcasts, 1), waiter := AfterBroadcast(w.waiter))
    case Listen => w.(waiter := Listening(false))
    case Check =>
      w.(waiter := if CanWake(w.inbox) then Away else Checked(w.waiter.Listening? && w.waiter.woken))
    case Poll =>
      if w.waiter == Checked(true) then w.(waiter := Listening(false))
      else if w.permit then w.(permit := false, waiter := Listening(false))
      else w.(waiter := Blocked)
    case Resume => w.(waiter := Listening(false))
    case Cancel => w.(waiter := Away, permit := w.permit || w.waiter.Signalled?)
    case _ =>
      var (inbox, owes) := Section(w.inbox, a);
      w.(inbox := inbox, owed := w.owed + (if owes then 1 else 0),
         owedBroadcasts := w.owedBroadcasts + (if a.Close? then 1 else 0))
  }

  const START := World(IDLE, false, 0, 0, Away)

  /** Work that may start is never forgotten by a waiter that has stopped looking. */
  predicate WakeIsComing(w: World) {
    CanWake(w.inbox) ==>
      match w.waiter
      case Blocked => w.owed > 0
      case Checked(woken) => woken || w.permit || w.owed > 0
      case _ => true
  }

  lemma StepKeepsWakeComing(w: World, a: Action)
    requires WakeIsComing(w) && Enabled(w, a)
    ensures WakeIsComing(Next(w, a))
  {
    if a.Suppress? {
      WithoutShrinks(w.inbox.pending, a.jobId);
    }
  }

  predicate CanRun(w: World, actions: seq<Action>)
    decreases |actions|
  {
    actions == [] || (Enabled(w, actions[0]) && CanRun(Next(w, actions[0]), actions[1..]))
  }

  function Run(w: World, actions: seq<Action>): World
    decreases |actions|
  {
    if actions == [] then w else Run(Next(w, actions[0]), actions[1..])
  }

  lemma {:induction false} RunKeepsWakeComing(w: World, actions: seq<Action>)
    requires WakeIsComing(w) && CanRun(w, actions)
    ensures WakeIsComing(Run(w, actions))
    decreases |actions|
  {
    if actions != [] {
      StepKeepsWakeComing(w, actions[0]);
      RunKeepsWakeComing(Next(w, actions[0]), actions[1..]);
    }
  }

  /**
    No lost wake-up: in every interleaving, if an automatic turn may start and
    the waiter is blocked, some thread still owes the notification that frees it.
  */
  lemma NoLostWakeUp(actions: seq<Action>)
    requires CanRun(START, actions)
    ensures var w := Run(START, actions);
      CanWake(w.inbox) && w.waiter.Blocked? ==> w.owed > 0 && Next(w, NotifyOne).waiter == Signalled
  {
    RunKeepsWakeComing(START, actions);
  }

  /** Once every owed notification is delivered, a waiter that stays blocked has nothing to start. */
  lemma QuietMeansNothingToDo(actions: seq<Action>)
    requires CanRun(START, actions)
    requires Run(START, actions).owed == 0 && Run(START, actions).waiter.Blocked?
    ensures !CanWake(Run(START, actions).inbox)
  {
    RunKeepsWakeComing(START, actions);
  }

  /** A closed inbox never starts a turn again, although a late restore may refill its queue. */
  lemma {:induction false} ClosedNeverWakes(w: World, actions: seq<Action>)
    requires w.inbox.closed && CanRun(w, actions)
    ensures Run(w, actions).inbox.closed && !CanWake(Run(w, actions).inbox)
    decreases |actions|
  {
    if actions != [] {
      ClosedNeverWakes(Next(w, actions[0]), actions[1..]);
    }
  }

  /**
    Closing is final: from any state it forgets what was pending and ends the turn, and
    until a late restore nothing enters the queue again and only a direct turn can begin.
  */
  lemma {:induction false} CloseIsFinal(w: World, actions: seq<Action>)
    requires CanRun(Next(w, Close), actions) && forall a :: a in actions ==> !a.Restore?
    ensures var inbox := Run(Next(w, Close), actions).inbox;
      && inbox.closed && inbox.pending == [] && inbox.omitted == 0
      && (inbox.activeTurn ==> BeginTurn in actions)
      && Batch(inbox) == []
  {
    var closed := Next(w, Close);
    assert !closed.inbox.activeTurn;
    StaysClosed(closed, actions);
  }

  predicate Emptied(s: State) {
    s.closed && s.pending == [] && s.omitted == 0
  }

  lemma {:induction false} StaysClosed(w: World, actions: seq<Action>)
    requires Emptied(w.inbox) && CanRun(w, actions) && forall a :: a in actions ==> !a.Restore?
    ensures Emptied(Run(w, actions).inbox)
    ensures Run(w, actions).inbox.activeTurn ==> w.inbox.activeTurn || BeginTurn in actions
    decreases |actions|
  {
    if actions != [] {
      var next := Next(w, actions[0]);
      assert !actions[0].Restore?;
      assert Emptied(next.inbox) && (next.inbox.activeTurn ==> w.inbox.activeTurn || actions[0] == BeginTurn);
      StaysClosed(next, actions[1..]);
    }
  }

  /**
    An automatic turn starts exactly when an open, idle session has something pending and
    fewer than three wakes were spent: it takes everything and spends one wake. Otherwise
    the claim changes nothing.
  */
  lemma IdleClaimIff(w: World)
    ensures var s, after := w.inbox, Next(w, ClaimIdle);
      after == if !s.closed && !s.activeTurn && (s.pending != [] || s.omitted > 0) && s.consecutiveWakes < 3
               then w.(inbox := State([], 0, true, s.consecutiveWakes + 1, false)) else w
  {
  }

  /**
    A completed step ends the turn exactly when nothing is left to do: then the session is
    idle, and the next arrival owes a notification and may start a turn while wakes are
    left. With work pending the turn goes on, and its next claim takes all of that work.
  */
  lemma CompletedStepEndsTurnIff(w: World, notice: Notice)
    requires w.inbox.activeTurn && !w.inbox.closed
    ensures var after := Next(w, ContinueStep);
      && (!after.inbox.activeTurn <==> w.inbox.pending == [] && w.inbox.omitted == 0)
      && after.inbox.pending == w.inbox.pending && after.inbox.omitted == w.inbox.omitted && after.owed == w.owed
      && (!after.inbox.activeTurn && w.inbox.consecutiveWakes < 3 ==>
            var arrived := Next(after, Enqueue(notice));
            && CanWake(arrived.inbox) && arrived.owed == w.owed + 1 && arrived.inbox.pending == [notice]
            && Next(arrived, ClaimIdle).inbox.activeTurn)
      && (after.inbox.activeTurn ==>
            Next(after, ClaimForStep).inbox.pending == [] && Next(after, ClaimForStep).inbox.omitted == 0)
  {
  }

  // ----- a direct human claim outside a turn -----

  /** As `CanRun`, but a direct human claim may be observed at any time. */
  predicate CanRunFreely(w: World, actions: seq<Action>)
    decreases |actions|
  {
    actions == []
    || ((actions[0].ObserveHuman? || Enabled(w, actions[0])) && CanRunFreely(Next(w, actions[0]), actions[1..]))
  }

  /** The waiter has stopped looking, and nothing is on its way to it. */
  predicate Unattended(w: World) {
    && w.owed == 0
    && (w.waiter.Blocked? || (w.waiter == Checked(false) && !w.permit))
  }

  /** The claim does not itself enable an automatic turn, or somebody will look again. */
  predicate SafeToObserve(w: World) {
    || w.inbox.closed || w.inbox.activeTurn || (w.inbox.pending == [] && w.inbox.omitted == 0)
    || w.inbox.consecutiveWakes < MAX_CONSECUTIVE_WAKES
    || !Unattended(w)
  }

  ghost predicate AlwaysComing(w: World, actions: seq<Action>) {
    forall k :: 0 <= k <= |actions| ==> WakeIsComing(Run(w, actions[..k]))
  }

  ghost predicate ClaimsAreSafe(w: World, actions: seq<Action>) {
    forall k :: 0 <= k < |actions| && actions[k].ObserveHuman? ==> SafeToObserve(Run(w, actions[..k]))
  }

  lemma AlwaysComingUnfolds(w: World, first: Action, rest: seq<Action>)
    ensures AlwaysComing(w, [first] + rest) <==> WakeIsComing(w) && AlwaysComing(Next(w, first), rest)
  {
    hide WakeIsComing, Next;
    var actions := [first] + rest;
    forall k | 0 <= k <= |rest| ensures Run(w, actions[..k + 1]) == Run(Next(w, first), rest[..k]) {
      assert actions[..k + 1] == [first] + rest[..k] && actions[..k + 1][1..] == rest[..k];
    }
    assert Run(w, actions[..0]) == w;
    if WakeIsComing(w) && AlwaysComing(Next(w, first), rest) {
      forall k | 0 <= k <= |actions| ensures WakeIsComing(Run(w, actions[..k])) {
        assert k > 0 ==> WakeIsComing(Run(Next(w, first), rest[..k - 1]));
      }
    }
  }

  lemma ClaimsAreSafeUnfolds(w: World, first: Action, rest: seq<Action>)
    ensures ClaimsAreSafe(w, [first] + rest) <==> (first.ObserveHuman? ==> SafeToObserve(w)) && ClaimsAreSafe(Next(w, first), rest)
  {
    hide SafeToObserve, Next;
    var actions := [first] + rest;
    forall k | 0 <= k <= |rest| ensures Run(w, actions[..k + 1]) == Run(Next(w, first), rest[..k]) {
      assert actions[..k + 1] == [first] + rest[..k] && actions[..k + 1][1..] == rest[..k];
    }
    assert Run(w, actions[..0]) == w && actions[0] == first;
    if (first.ObserveHuman? ==> SafeToObserve(w)) && ClaimsAreSafe(Next(w, first), rest) {
      forall k | 0 <= k < |actions| && actions[k].ObserveHuman? ensures SafeToObserve(Run(w, actions[..k])) {
        assert k > 0 ==> actions[k] == rest[k - 1] && actions[..k] == actions[..k - 1 + 1];
      }
    }
    if ClaimsAreSafe(w, actions) {
      forall k | 0 <= k < |rest| && rest[k].ObserveHuman? ensures SafeToObserve(Run(Next(w, first), rest[..k])) {
        assert actions[k + 1] == rest[k];
      }
    }
  }

  lemma ObserveStep(w: World)
    requires WakeIsComing(w)
    ensures WakeIsComing(Next(w, ObserveHuman)) <==> SafeToObserve(w)
  {
  }

  /**
    Over every interleaving in which human claims are observed at any time, no moment finds
    startable work and a waiter nobody will wake if and only if every claim is safe when it
    is made: inside a turn, after closing, with nothing pending, with wakes left to spend, or
    with the waiter still looking or a notification on its way.
  */
  lemma {:induction false} ObserveIsSafeIff(w: World, actions: seq<Action>)
    requires WakeIsComing(w) && CanRunFreely(w, actions)
    ensures AlwaysComing(w, actions) <==> ClaimsAreSafe(w, actions)
    decreases |actions|
  {
    if actions == [] {
      assert forall k :: 0 <= k <= 0 ==> actions[..k] == [];
    } else {
      var first, rest := actions[0], actions[1..];
      var next := Next(w, first);
      assert actions == [first] + rest;
      AlwaysComingUnfolds(w, first, rest);
      ClaimsAreSafeUnfolds(w, first, rest);
      if first.ObserveHuman? {
        ObserveStep(w);
      } else {
        StepKeepsWakeComing(w, first);
      }
      if WakeIsComing(next) {
        ObserveIsSafeIff(next, rest);
      } else {
        NotComingAtOnce(next, rest);
      }
    }
  }

  lemma NotComingAtOnce(w: World, actions: seq<Action>)
    requires !WakeIsComing(w)
    ensures !AlwaysComing(w, actions)
  {
    assert Run(w, actions[..0]) == w;
  }

  /** One automatic turn over one notice, its first notification delivered late. */
  function AutomaticTurn(n: Notice): seq<Action> {
    [Enqueue(n), ClaimIdle, FinishTurn, NotifyOne]
  }

  lemma AutomaticTurnSpendsWake(w: World, n: Notice)
    requires w.inbox == IDLE.(consecutiveWakes := w.inbox.consecutiveWakes) && w.inbox.consecutiveWakes < MAX_CONSECUTIVE_WAKES
    requires w.waiter.Away? && w.owed == 0
    ensures CanRun(w, AutomaticTurn(n))
    ensures Run(w, AutomaticTurn(n))
         == w.(inbox := w.inbox.(consecutiveWakes := w.inbox.consecutiveWakes + 1), permit := true)
  {
    var w1 := Next(w, Enqueue(n));
    var w2 := Next(w1, ClaimIdle);
    var w3 := Next(w2, FinishTurn);
    var w4 := Next(w3, NotifyOne);
    assert w1.owed == 1 && w2.inbox.activeTurn && w3.inbox == w.inbox.(consecutiveWakes := w.inbox.consecutiveWakes + 1);
    var a := AutomaticTurn(n);
    assert a[1..] == [ClaimIdle, FinishTurn, NotifyOne] && a[1..][1..] == [FinishTurn, NotifyOne] && a[1..][1..][1..] == [NotifyOne];
    assert Run(w3, [NotifyOne]) == w4 && Run(w2, [FinishTurn, NotifyOne]) == w4;
  }

  lemma {:induction false} RunAppend(w: World, a: seq<Action>, b: seq<Action>)
    ensures CanRun(w, a) && CanRun(Run(w, a), b) ==> CanRun(w, a + b)
    ensures Run(w, a + b) == Run(Run(w, a), b)
    decreases |a|
  {
    if a == [] {
      assert a + b == b;
    } else {
      RunAppend(Next(w, a[0]), a[1..], b);
      assert (a + b)[1..] == a[1..] + b;
    }
  }

  const SPENT := START.(inbox := IDLE.(consecutiveWakes := MAX_CONSECUTIVE_WAKES), permit := true)

  lemma ThreeTurnsSpendTheBudget(n: Notice)
    ensures var turn := AutomaticTurn(n); CanRun(START, turn + turn + turn) && Run(START, turn + turn + turn) == SPENT
  {
    hide Run, CanRun, Next;
    var turn := AutomaticTurn(n);
    var one := START.(inbox := IDLE.(consecutiveWakes := 1), permit := true);
    var two := one.(inbox := IDLE.(consecutiveWakes := 2));
    AutomaticTurnSpendsWake(START, n);
    assert Run(START, turn) == one;
    AutomaticTurnSpendsWake(one, n);
    RunAppend(START, turn, turn);
    assert Run(START, turn + turn) == Run(one, turn) == two;
    AutomaticTurnSpendsWake(two, n);
    assert Run(two, turn) == SPENT;
    RunAppend(START, turn + turn, turn);
  }

  function UnannouncedWait(n: Notice): seq<Action> {
    [Enqueue(n), Listen, Check, Poll, Check, Poll]
  }

  /** A notice beyond the budget announces nothing; the waiter uses up the old permit and blocks. */
  lemma UnannouncedNoticeBlocksWaiter(n: Notice)
    ensures CanRun(SPENT, UnannouncedWait(n))
    ensures Run(SPENT, UnannouncedWait(n)) == SPENT.(inbox := SPENT.inbox.(pending := [n]), permit := false, waiter := Blocked)
  {
    var w1 := Next(SPENT, Enqueue(n));
    var w3 := Next(Next(w1, Listen), Check);
    var w4 := Next(w3, Poll);
    var w6 := Next(Next(w4, Check), Poll);
    assert !CanWake(w1.inbox);
    assert w3 == w1.(waiter := Checked(false)) && w4 == w1.(permit := false, waiter := Listening(false));
    assert Run(w4, [Check, Poll]) == w6 && CanRun(w4, [Check, Poll]);
    hide CanWake;
    assert [Poll, Check, Poll][1..] == [Check, Poll];
    assert Run(w3, [Poll, Check, Poll]) == w6 && CanRun(w3, [Poll, Check, Poll]);
    assert [Check, Poll, Check, Poll][1..] == [Poll, Check, Poll];
    var w2 := Next(w1, Listen);
    assert Run(w2, [Check, Poll, Check, Poll]) == w6 && CanRun(w2, [Check, Poll, Check, Poll]);
    assert [Listen, Check, Poll, Check, Poll][1..] == [Check, Poll, Check, Poll];
    assert Run(w1, [Listen, Check, Poll, Check, Poll]) == w6 && CanRun(w1, [Listen, Check, Poll, Check, Poll]);
    assert UnannouncedWait(n)[1..] == [Listen, Check, Poll, Check, Poll];
  }

  /** Outside a turn a claim does lose one: three automatic turns, a fourth notice nobody announces, then the claim. The waiter then sleeps until some later section notifies. */
  lemma ObserveOutsideTurnLosesWake(n: Notice)
    ensures var turn := AutomaticTurn(n);
      var actions := turn + turn + turn + UnannouncedWait(n);
      && CanRun(START, actions)
      && var lost := Next(Run(START, actions), ObserveHuman);
         CanWake(lost.inbox) && lost.waiter.Blocked? && lost.owed == 0 && !lost.permit
  {
    hide Run, CanRun;
    var turn := AutomaticTurn(n);
    ThreeTurnsSpendTheBudget(n);
    UnannouncedNoticeBlocksWaiter(n);
    RunAppend(START, turn + turn + turn, UnannouncedWait(n));
  }
}
