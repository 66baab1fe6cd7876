/**
  Where notices go over any run of an open inbox (src/agent/job_notice.rs:146-256),
  and how many automatic turns a human claim allows.
*/
module JobNoticeLedger {
  import opened Wrappers
  import opened Text
  import opened JobNotice

  /**
    Where every enqueued job went: `delivered` to the model, `claimed` in the
    batch that may still be restored, pending, suppressed, or only counted.
  */
  datatype Ledger = Ledger(
    inbox: State, enqueued: seq<Notice>, delivered: seq<Notice>, claimed: seq<PendingNotice>,
    suppressed: multiset<Notice>, uncounted: multiset<Notice>, deliveredOmitted: nat,
    turns: nat, givenBack: nat)

  datatype Step =
    | StepEnqueue(notice: Notice)
    | StepSuppress(jobId: string)
    | StepBegin
    | StepObserve
    | StepClaim
    | StepContinue
    | StepFinish
    | StepIdle
    | StepRestore(spentWake: bool)

  const OPENED := Ledger(IDLE, [], [], [], multiset{}, multiset{}, 0, 0, 0)

  /** Claiming another batch settles the previous one as delivered. */
  function Claim(l: Ledger, inbox: State, batch: seq<PendingNotice>): Ledger {
    l.(inbox := inbox, delivered := l.delivered + JobsOf(l.claimed), claimed := batch,
       deliveredOmitted := l.deliveredOmitted + OmittedIn(l.claimed))
  }

  function Dropped(pending: seq<Notice>, jobId: string): multiset<Notice> {
    multiset(pending) - multiset(Without(pending, jobId))
  }

  function After(l: Ledger, step: Step): Ledger {
    var s := l.inbox;
    match step
    case StepEnqueue(notice) =>
      l.(inbox := AfterEnqueue(s, notice), enqueued := l.enqueued + [notice],
         uncounted := if |s.pending| < MAX_PENDING then l.uncounted else l.uncounted + multiset{notice})
    case StepSuppress(jobId) =>
      l.(inbox := s.(pending := Without(s.pending, jobId)), suppressed := l.suppressed + Dropped(s.pending, jobId))
    case StepBegin => Claim(l, Drained(s).(activeTurn := true), Batch(s))
    case StepObserve => l.(inbox := s.(consecutiveWakes := 0), turns := 0, givenBack := 0)
    case StepClaim => if s.activeTurn then Claim(l, Drained(s), Batch(s)) else l
    case StepContinue => l.(inbox := AfterContinue(s))
    case StepFinish => l.(inbox := s.(activeTurn := false))
    case StepIdle => if CanWake(s) then Claim(l, AfterClaim(s), Batch(s)).(turns := l.turns + 1) else l
    case StepRestore(spentWake) =>
      l.(inbox := AfterRestore(s, l.claimed, spentWake), claimed := [],
         givenBack := l.givenBack + (if spentWake then 1 else 0))
  }

  function AfterAll(l: Ledger, steps: seq<Step>): Ledger {
    if steps == [] then l else After(AfterAll(l, steps[..|steps| - 1]), steps[|steps| - 1])
  }

  /** `s` keeps some elements of `t`, in `t`'s order. */
  predicate IsSubsequence(s: seq<Notice>, t: seq<Notice>) {
    || s == []
    || (t != [] && IsSubsequence(s, t[..|t| - 1]))
    || (t != [] && s[|s| - 1] == t[|t| - 1] && IsSubsequence(s[..|s| - 1], t[..|t| - 1]))
  }

  function Live(l: Ledger): seq<Notice> {
    l.delivered + (JobsOf(l.claimed) + l.inbox.pending)
  }

  /** Every job has exactly one fate, and what is live is in arrival order. */
  predicate Conserved(l: Ledger) {
    Balanced(l) && IsSubsequence(Live(l), l.enqueued) && Counted(l) && !l.inbox.closed
  }

  predicate Balanced(l: Ledger) {
    multiset(l.enqueued) == multiset(Live(l)) + l.suppressed + l.uncounted
  }

  predicate Counted(l: Ledger) {
    l.inbox.omitted + OmittedIn(l.claimed) + l.deliveredOmitted == |l.uncounted|
  }

  /** Automatic turns since the last human claim, less those given back. */
  predicate WithinBudget(l: Ledger) {
    && l.turns <= l.givenBack + l.inbox.consecutiveWakes
    && l.inbox.consecutiveWakes <= MAX_CONSECUTIVE_WAKES
  }

  lemma SubsequenceGrows(s: seq<Notice>, t: seq<Notice>, x: Notice)
    requires IsSubsequence(s, t)
    ensures IsSubsequence(s + [x], t + [x]) && IsSubsequence(s, t + [x])
  {
    assert (s + [x])[..|s|] == s && (t + [x])[..|t|] == t;
  }

  lemma {:induction false} SubsequenceWithoutOne(a: seq<Notice>, x: Notice, b: seq<Notice>, t: seq<Notice>)
    requires IsSubsequence(a + [x] + b, t)
    ensures IsSubsequence(a + b, t)
    decreases |t|
  {
    var s, front := a + [x] + b, t[..|t| - 1];
    if IsSubsequence(s, front) {
      SubsequenceWithoutOne(a, x, b, front);
    } else if b == [] {
      assert s[..|s| - 1] == a == a + b;
    } else {
      assert s[..|s| - 1] == a + [x] + b[..|b| - 1];
      SubsequenceWithoutOne(a, x, b[..|b| - 1], front);
      assert (a + b)[..|a + b| - 1] == a + b[..|b| - 1];
    }
  }

  lemma {:induction false} SubsequenceWithout(a: seq<Notice>, pending: seq<Notice>, jobId: string, t: seq<Notice>)
    requires IsSubsequence(a + pending, t)
    ensures IsSubsequence(a + Without(pending, jobId), t)
    decreases |pending|
  {
    if pending == [] {
      assert Without(pending, jobId) == pending;
    } else {
      var head, rest := pending[0], pending[1..];
      assert a + pending == a + [head] + rest;
      if head.jobId == jobId {
        SubsequenceWithoutOne(a, head, rest, t);
        SubsequenceWithout(a, rest, jobId, t);
        assert Without(pending, jobId) == Without(rest, jobId);
      } else {
        SubsequenceWithout(a + [head], rest, jobId, t);
        assert a + Without(pending, jobId) == a + [head] + Without(rest, jobId);
      }
    }
  }

  lemma WithoutIsSmaller(pending: seq<Notice>, jobId: string)
    ensures multiset(Without(pending, jobId)) <= multiset(pending)
  {
    if pending != [] {
      WithoutIsSmaller(pending[1..], jobId);
      assert pending == [pending[0]] + pending[1..];
    }
  }

  lemma SuppressBalances(all: multiset<Notice>, earlier: seq<Notice>, pending: seq<Notice>, kept: seq<Notice>,
                         suppressed: multiset<Notice>, uncounted: multiset<Notice>)
    requires all == multiset(earlier + pending) + suppressed + uncounted && multiset(kept) <= multiset(pending)
    ensures all == multiset(earlier + kept) + (suppressed + (multiset(pending) - multiset(kept))) + uncounted
  {
    assert multiset(earlier + pending) == multiset(earlier) + multiset(pending);
    assert multiset(earlier + kept) == multiset(earlier) + multiset(kept);
  }

  lemma SuppressConserves(l: Ledger, jobId: string)
    requires Conserved(l)
    ensures Conserved(After(l, StepSuppress(jobId)))
  {
    hide IsSubsequence, JobsOf, OmittedIn, Without, CanWake, AfterEnqueue, AfterRestore, Claim, Live, Balanced;
    var pending := l.inbox.pending;
    var earlier := l.delivered + JobsOf(l.claimed);
    WithoutIsSmaller(pending, jobId);
    var kept := Without(pending, jobId);
    var after := After(l, StepSuppress(jobId));
    assert Live(l) == earlier + pending && Live(after) == earlier + kept by {
      hide *;
      SuppressedLive(l, jobId);
    }
    SubsequenceWithout(earlier, pending, jobId, l.enqueued);
    assert Balanced(after) by {
      BalancedIff(l);
      BalancedIff(after);
      SuppressBalances(multiset(l.enqueued), earlier, pending, kept, l.suppressed, l.uncounted);
    }
  }

  lemma BalancedIff(l: Ledger)
    ensures Balanced(l) <==> multiset(l.enqueued) == multiset(Live(l)) + l.suppressed + l.uncounted
  {
  }

  lemma SuppressedLive(l: Ledger, jobId: string)
    ensures Live(l) == l.delivered + JobsOf(l.claimed) + l.inbox.pending
    ensures Live(After(l, StepSuppress(jobId))) == l.delivered + JobsOf(l.claimed) + Without(l.inbox.pending, jobId)
  {
    hide JobsOf, Without;
  }

  lemma EnqueueConserves(l: Ledger, notice: Notice)
    requires Conserved(l) && |l.uncounted| < MAX_USIZE
    ensures Conserved(After(l, StepEnqueue(notice)))
  {
    hide IsSubsequence, JobsOf, OmittedIn;
    var after := After(l, StepEnqueue(notice));
    SubsequenceGrows(Live(l), l.enqueued, notice);
    if |l.inbox.pending| < MAX_PENDING {
      assert Live(after) == Live(l) + [notice];
    } else {
      assert Live(after) == Live(l);
    }
  }

  lemma ClaimConserves(l: Ledger, inbox: State)
    requires Conserved(l)
    requires inbox.pending == [] && inbox.omitted == 0 && !inbox.closed
    ensures Conserved(Claim(l, inbox, Batch(l.inbox)))
  {
    hide IsSubsequence, JobsOf, OmittedIn, Batch;
    BatchContents(l.inbox);
    assert l.delivered + JobsOf(l.claimed) + (l.inbox.pending + []) == l.delivered + (JobsOf(l.claimed) + l.inbox.pending);
    assert Live(Claim(l, inbox, Batch(l.inbox))) == Live(l);
  }

  lemma RestoreConserves(l: Ledger, spentWake: bool)
    requires Conserved(l) && |l.uncounted| <= MAX_USIZE
    ensures Conserved(After(l, StepRestore(spentWake)))
  {
    hide IsSubsequence;
    assert JobsOf([]) == [] && OmittedIn([]) == 0;
    hide JobsOf, OmittedIn;
    assert l.delivered + ([] + (JobsOf(l.claimed) + l.inbox.pending)) == Live(l);
    assert Live(After(l, StepRestore(spentWake))) == Live(l);
  }

  lemma StepConserves(l: Ledger, step: Step)
    requires Conserved(l) && |l.uncounted| < MAX_USIZE
    ensures Conserved(After(l, step))
  {
    assert !l.inbox.closed;
    match step
    case StepEnqueue(notice) => EnqueueConserves(l, notice);
    case StepSuppress(jobId) => SuppressConserves(l, jobId);
    case StepRestore(spentWake) => RestoreConserves(l, spentWake);
    case StepBegin => TurnConserves(l, step);
    case StepClaim => TurnConserves(l, step);
    case StepIdle => TurnConserves(l, step);
    case _ => QuietConserves(l, step);
  }

  lemma TurnConserves(l: Ledger, step: Step)
    requires Conserved(l) && !l.inbox.closed && (step.StepBegin? || step.StepClaim? || step.StepIdle?)
    ensures Conserved(After(l, step))
  {
    hide Conserved, Batch;
    match step
    case StepBegin => ClaimConserves(l, Drained(l.inbox).(activeTurn := true));
    case StepClaim => if l.inbox.activeTurn { ClaimConserves(l, Drained(l.inbox)); }
    case StepIdle =>
      if CanWake(l.inbox) {
        ClaimConserves(l, AfterClaim(l.inbox));
        SameJobs(Claim(l, AfterClaim(l.inbox), Batch(l.inbox)), After(l, step));
      }
  }

  /** Conservation speaks of the jobs and the omission counts alone. */
  lemma SameJobs(l: Ledger, m: Ledger)
    requires Conserved(l) && !m.inbox.closed
    requires m.enqueued == l.enqueued && m.delivered == l.delivered && m.claimed == l.claimed && m.inbox.pending == l.inbox.pending
    requires m.suppressed == l.suppressed && m.uncounted == l.uncounted
    requires m.deliveredOmitted == l.deliveredOmitted && m.inbox.omitted == l.inbox.omitted
    ensures Conserved(m)
  {
    assert Live(m) == Live(l);
    hide IsSubsequence, JobsOf, OmittedIn, Live;
  }

  lemma QuietConserves(l: Ledger, step: Step)
    requires Conserved(l) && !l.inbox.closed && (step.StepObserve? || step.StepContinue? || step.StepFinish?)
    ensures Conserved(After(l, step))
  {
    hide Conserved;
    SameJobs(l, After(l, step));
  }

  lemma OpenedIsConserved()
    ensures Conserved(OPENED)
  {
  }

  /**
    Conservation: on an open inbox every enqueued job is delivered, claimed,
    pending, suppressed, or counted as omitted, each exactly once, and live jobs
    stay in arrival order across claims and restores.
  */
  lemma {:induction false} NoticesAreConserved(steps: seq<Step>)
    requires |steps| <= MAX_USIZE
    ensures Conserved(AfterAll(OPENED, steps)) && |AfterAll(OPENED, steps).uncounted| <= |steps|
    decreases |steps|
  {
    hide Conserved;
    if steps == [] {
      OpenedIsConserved();
    } else {
      NoticesAreConserved(steps[..|steps| - 1]);
      StepConserves(AfterAll(OPENED, steps[..|steps| - 1]), steps[|steps| - 1]);
    }
  }

  lemma StepWithinBudget(l: Ledger, step: Step)
    requires WithinBudget(l)
    ensures WithinBudget(After(l, step))
  {
    hide Batch, JobsOf, OmittedIn, Without;
  }

  /** Between two human claims at most three automatic turns are claimed and not given back. */
  lemma {:induction false} AutomaticTurnsAreBounded(steps: seq<Step>)
    ensures var l := AfterAll(OPENED, steps); WithinBudget(l) && l.turns <= l.givenBack + MAX_CONSECUTIVE_WAKES
    decreases |steps|
  {
    hide After;
    if steps != [] {
      AutomaticTurnsAreBounded(steps[..|steps| - 1]);
      StepWithinBudget(AfterAll(OPENED, steps[..|steps| - 1]), steps[|steps| - 1]);
    }
  }

  // ----- how long the queue can get -----

  predicate Bounded(l: Ledger) {
    |l.inbox.pending| <= MAX_PENDING
  }

  /** The queue bound holds before and after every step. */
  ghost predicate AlwaysBounded(steps: seq<Step>) {
    forall k :: 0 <= k <= |steps| ==> Bounded(AfterAll(OPENED, steps[..k]))
  }

  /** What a restore is about to put back fits beside what has arrived since. */
  predicate RestoreFits(l: Ledger) {
    |JobsOf(l.claimed)| + |l.inbox.pending| <= MAX_PENDING
  }

  ghost predicate RestoresFit(steps: seq<Step>) {
    forall k :: 0 <= k < |steps| && steps[k].StepRestore? ==> RestoreFits(AfterAll(OPENED, steps[..k]))
  }

  lemma StepKeepsBoundIff(l: Ledger, step: Step)
    requires Bounded(l)
    ensures Bounded(After(l, step)) <==> step.StepRestore? ==> RestoreFits(l)
  {
    hide Batch, OmittedIn;
    if step.StepSuppress? {
      WithoutShrinks(l.inbox.pending, step.jobId);
    }
  }

  /**
    Over every run of an open inbox, never more than 64 notices are pending if and only if
    every restore puts its batch back beside few enough later arrivals.  Arrivals are
    counted against the limit; restored notices are not.
  */
  lemma {:induction false} QueueBoundIff(steps: seq<Step>)
    ensures AlwaysBounded(steps) <==> RestoresFit(steps)
    decreases |steps|
  {
    hide After, RestoreFits;
    if steps != [] {
      var n := |steps| - 1;
      var front, last := steps[..n], steps[n];
      QueueBoundIff(front);
      assert forall k :: 0 <= k <= n ==> front[..k] == steps[..k];
      assert steps[..|steps|] == steps;
      assert AfterAll(OPENED, steps) == After(AfterAll(OPENED, front), last);
      hide AfterAll, Bounded;
      assert AlwaysBounded(steps) <==> AlwaysBounded(front) && Bounded(AfterAll(OPENED, steps));
      assert RestoresFit(steps) <==> RestoresFit(front) && (last.StepRestore? ==> RestoreFits(AfterAll(OPENED, front)));
      if AlwaysBounded(front) {
        assert Bounded(AfterAll(OPENED, front[..n]));
        assert front[..n] == front;
        StepKeepsBoundIff(AfterAll(OPENED, front), last);
      }
    } else {
      assert forall k :: 0 <= k <= 0 ==> steps[..k] == [];
    }
  }

  lemma {:induction false} AfterAllAppend(l: Ledger, a: seq<Step>, b: seq<Step>)
    ensures AfterAll(l, a + b) == AfterAll(AfterAll(l, a), b)
    decreases |b|
  {
    hide After;
    if b == [] {
      assert a + b == a;
    } else {
      var all := a + b;
      assert all[..|all| - 1] == a + b[..|b| - 1] && all[|all| - 1] == b[|b| - 1];
      AfterAllAppend(l, a, b[..|b| - 1]);
    }
  }

  function Arrivals(notice: Notice, count: nat): (r: seq<Step>)
    ensures |r| == count
  {
    if count == 0 then [] else Arrivals(notice, count - 1) + [StepEnqueue(notice)]
  }

  lemma {:induction false} ArrivalsQueueUp(l: Ledger, notice: Notice, count: nat)
    requires !l.inbox.closed && |l.inbox.pending| + count <= MAX_PENDING
    ensures var after := AfterAll(l, Arrivals(notice, count));
      && |after.inbox.pending| == |l.inbox.pending| + count && after.claimed == l.claimed && !after.inbox.closed
  {
    if count > 0 {
      var all, front := Arrivals(notice, count), Arrivals(notice, count - 1);
      assert all[..|all| - 1] == front && all[|all| - 1] == StepEnqueue(notice);
      ArrivalsQueueUp(l, notice, count - 1);
    }
  }

  /** 64 arrivals, the previous batch put back before them, and everything claimed again. */
  function FailedTurns(notice: Notice, turns: nat): seq<Step> {
    if turns == 0 then [] else FailedTurns(notice, turns - 1) + (Arrivals(notice, MAX_PENDING) + [StepRestore(false), StepBegin])
  }

  /** The same run without its last claim. */
  function BeforeLastClaim(notice: Notice, turns: nat): seq<Step> {
    FailedTurns(notice, turns) + (Arrivals(notice, MAX_PENDING) + [StepRestore(false)])
  }

  lemma LastStep(l: Ledger, steps: seq<Step>, last: Step)
    ensures AfterAll(l, steps + [last]) == After(AfterAll(l, steps), last)
  {
    assert (steps + [last])[..|steps|] == steps;
  }

  lemma RestoreThenBegin(l: Ledger)
    requires !l.inbox.closed
    ensures var restored := After(l, StepRestore(false));
      && restored == AfterAll(l, [StepRestore(false)])
      && |restored.inbox.pending| == |JobsOf(l.claimed)| + |l.inbox.pending| && !restored.inbox.closed
    ensures var again := AfterAll(l, [StepRestore(false), StepBegin]);
      |JobsOf(again.claimed)| == |JobsOf(l.claimed)| + |l.inbox.pending| && again.inbox.pending == [] && !again.inbox.closed
  {
    var one, two := [StepRestore(false)], [StepRestore(false), StepBegin];
    var restored := After(l, StepRestore(false));
    assert AfterAll(l, []) == l;
    hide JobsOf, OmittedIn, Batch, AfterAll;
    LastStep(l, [], StepRestore(false));
    LastStep(l, one, StepBegin);
    assert [] + one == one && one + [StepBegin] == two;
    BatchContents(restored.inbox);
  }

  lemma OneFailedTurn(l: Ledger, notice: Notice)
    requires !l.inbox.closed && l.inbox.pending == []
    ensures var restored := AfterAll(l, Arrivals(notice, MAX_PENDING) + [StepRestore(false)]);
      |restored.inbox.pending| == |JobsOf(l.claimed)| + MAX_PENDING && !restored.inbox.closed
    ensures var again := AfterAll(l, Arrivals(notice, MAX_PENDING) + [StepRestore(false), StepBegin]);
      |JobsOf(again.claimed)| == |JobsOf(l.claimed)| + MAX_PENDING && again.inbox.pending == [] && !again.inbox.closed
  {
    var arrivals := Arrivals(notice, MAX_PENDING);
    hide *;
    ArrivalsQueueUp(l, notice, MAX_PENDING);
    RestoreThenBegin(AfterAll(l, arrivals));
    AfterAllAppend(l, arrivals, [StepRestore(false)]);
    AfterAllAppend(l, arrivals, [StepRestore(false), StepBegin]);
  }

  /**
    The limit of 64 is not kept, nor is any other: a turn that fails after claiming, while
    64 more notices arrive, gives back its whole batch, and so does the next.  Two such
    turns leave 128 notices pending, and n of them leave 64 n.
  */
  lemma {:induction false} QueueGrowsWithoutBound(notice: Notice, turns: nat)
    ensures |AfterAll(OPENED, BeforeLastClaim(notice, turns)).inbox.pending| == MAX_PENDING * (turns + 1)
    ensures var l := AfterAll(OPENED, FailedTurns(notice, turns));
      |JobsOf(l.claimed)| == MAX_PENDING * turns && l.inbox.pending == [] && !l.inbox.closed
  {
    hide After, Arrivals, Batch;
    if turns > 0 {
      QueueGrowsWithoutBound(notice, turns - 1);
      OneFailedTurn(AfterAll(OPENED, FailedTurns(notice, turns - 1)), notice);
      AfterAllAppend(OPENED, FailedTurns(notice, turns - 1), Arrivals(notice, MAX_PENDING) + [StepRestore(false), StepBegin]);
    }
    OneFailedTurn(AfterAll(OPENED, FailedTurns(notice, turns)), notice);
    AfterAllAppend(OPENED, FailedTurns(notice, turns), Arrivals(notice, MAX_PENDING) + [StepRestore(false)]);
  }
}
