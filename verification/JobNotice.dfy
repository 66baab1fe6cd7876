/**
  The bounded inbox between background jobs and one Agent
  (src/agent/job_notice.rs:74-296).  Every method is one critical section of
  the lock; where the code notifies after unlocking, the method answers whether
  it still owes that notification.
*/
module JobNotice {
  import opened Wrappers
  import opened Text

  const MAX_PENDING := 64
  const MAX_CONSECUTIVE_WAKES := 3

  datatype Notice = Notice(jobId: string, text: string)

  datatype PendingNotice = Job(notice: Notice) | Overflow(omitted: usize)

  datatype State = State(
    pending: seq<Notice>, omitted: usize, activeTurn: bool, consecutiveWakes: usize, closed: bool)

  const IDLE := State([], 0, false, 0, false)

  predicate CanWake(s: State) {
    !s.closed && !s.activeTurn && (s.pending != [] || s.omitted != 0) && s.consecutiveWakes < MAX_CONSECUTIVE_WAKES
  }

  // ----- one critical section each -----

  function AfterEnqueue(s: State, notice: Notice): State {
    if s.closed then s
    else if |s.pending| < MAX_PENDING then s.(pending := s.pending + [notice])
    else s.(omitted := SaturatingAdd(s.omitted, 1, MAX_USIZE))
  }

  function Without(pending: seq<Notice>, jobId: string): seq<Notice> {
    if pending == [] then []
    else (if pending[0].jobId == jobId then [] else [pending[0]]) + Without(pending[1..], jobId)
  }

  function Jobs(pending: seq<Notice>): seq<PendingNotice> {
    if pending == [] then [] else [Job(pending[0])] + Jobs(pending[1..])
  }

  /** All pending jobs in order, then one count of the omitted ones. */
  function Batch(s: State): seq<PendingNotice> {
    Jobs(s.pending) + if s.omitted != 0 then [Overflow(s.omitted)] else []
  }

  function Drained(s: State): State {
    s.(pending := [], omitted := 0)
  }

  function JobsOf(batch: seq<PendingNotice>): seq<Notice> {
    if batch == [] then []
    else (if batch[0].Job? then [batch[0].notice] else []) + JobsOf(batch[1..])
  }

  function OmittedIn(batch: seq<PendingNotice>): nat {
    if batch == [] then 0 else (if batch[0].Overflow? then batch[0].omitted else 0) + OmittedIn(batch[1..])
  }

  function AfterRestore(s: State, batch: seq<PendingNotice>, spentWake: bool): State {
    State(JobsOf(batch) + s.pending, SaturatingAdd(s.omitted, OmittedIn(batch), MAX_USIZE), false,
          if spentWake then SaturatingSub(s.consecutiveWakes, 1) else s.consecutiveWakes, s.closed)
  }

  function AfterContinue(s: State): State {
    if s.pending != [] || s.omitted != 0 then s else s.(activeTurn := false)
  }

  function AfterClaim(s: State): State {
    if CanWake(s)
    then Drained(s).(activeTurn := true, consecutiveWakes := SaturatingAdd(s.consecutiveWakes, 1, MAX_USIZE))
    else s
  }

  function AfterClose(s: State): State {
    s.(closed := true, pending := [], omitted := 0, activeTurn := false)
  }

  // ----- facts about batches -----

  lemma BatchContents(s: State)
    ensures JobsOf(Batch(s)) == s.pending && OmittedIn(Batch(s)) == s.omitted
  {
    JobsContents(s.pending, if s.omitted != 0 then [Overflow(s.omitted)] else []);
  }

  lemma BatchHead(first: PendingNotice, rest: seq<PendingNotice>)
    ensures JobsOf([first] + rest) == (if first.Job? then [first.notice] else []) + JobsOf(rest)
    ensures OmittedIn([first] + rest) == (if first.Overflow? then first.omitted else 0) + OmittedIn(rest)
  {
    assert ([first] + rest)[1..] == rest;
  }

  lemma {:induction false} JobsContents(pending: seq<Notice>, rest: seq<PendingNotice>)
    ensures JobsOf(Jobs(pending) + rest) == pending + JobsOf(rest)
    ensures OmittedIn(Jobs(pending) + rest) == OmittedIn(rest)
  {
    hide JobsOf, OmittedIn;
    if pending == [] {
      assert Jobs(pending) + rest == rest;
    } else {
      JobsContents(pending[1..], rest);
      BatchHead(Job(pending[0]), Jobs(pending[1..]) + rest);
      assert Jobs(pending) + rest == [Job(pending[0])] + (Jobs(pending[1..]) + rest);
    }
  }

  lemma JobsAppend(front: seq<Notice>, last: Notice)
    ensures Jobs(front + [last]) == Jobs(front) + [Job(last)]
  {
    if front != [] {
      assert (front + [last])[1..] == front[1..] + [last];
    }
  }

  lemma WithoutAppend(front: seq<Notice>, last: Notice, jobId: string)
    ensures Without(front + [last], jobId) == Without(front, jobId) + (if last.jobId == jobId then [] else [last])
  {
    if front != [] {
      assert (front + [last])[1..] == front[1..] + [last];
    }
  }

  /** A batch claimed and restored with nothing in between gives back the same queue and count. */
  lemma ClaimThenRestore(s: State)
    requires !s.activeTurn
    ensures AfterRestore(Drained(s).(activeTurn := true), Batch(s), false) == s
    ensures CanWake(s) ==> AfterRestore(AfterClaim(s), Batch(s), true) == s
  {
    BatchContents(s);
  }

  lemma WithoutShrinks(pending: seq<Notice>, jobId: string)
    ensures |Without(pending, jobId)| <= |pending|
  {
  }

  // ----- the object -----

  class Inbox {
    var pending: seq<Notice>
    var omitted: usize
    var activeTurn: bool
    var consecutiveWakes: usize
    var closed: bool

    constructor ()
      ensures Value() == IDLE
    {
      pending, omitted, activeTurn, consecutiveWakes, closed := [], 0, false, 0, false;
    }

    function Value(): State
      reads this
    {
      State(pending, omitted, activeTurn, consecutiveWakes, closed)
    }

    method Enqueue(notice: Notice) returns (notifies: bool)
      modifies this
      ensures Value() == AfterEnqueue(old(Value()), notice)
      ensures notifies <==> !closed && CanWake(Value())
    {
      if closed {
        return false;
      }
      if |pending| < MAX_PENDING {
        pending := pending + [notice];
      } else {
        omitted := SaturatingAdd(omitted, 1, MAX_USIZE);
      }
      notifies := CanWake(Value());
    }

    method SuppressJob(jobId: string)
      modifies this
      ensures Value() == old(Value()).(pending := Without(old(pending), jobId))
    {
      var kept: seq<Notice> := [];
      for i := 0 to |pending|
        invariant Value() == old(Value())
        invariant kept == Without(pending[..i], jobId)
      {
        assert pending[..i + 1] == pending[..i] + [pending[i]];
        WithoutAppend(pending[..i], pending[i], jobId);
        if pending[i].jobId != jobId {
          kept := kept + [pending[i]];
        }
      }
      assert pending[..|pending|] == pending;
      pending := kept;
    }

    method Drain() returns (batch: seq<PendingNotice>)
      modifies this`pending, this`omitted
      ensures batch == Batch(old(Value())) && Value() == Drained(old(Value()))
    {
      batch := [];
      for i := 0 to |pending|
        invariant Value() == old(Value())
        invariant batch == Jobs(pending[..i])
      {
        assert pending[..i + 1] == pending[..i] + [pending[i]];
        JobsAppend(pending[..i], pending[i]);
        batch := batch + [Job(pending[i])];
      }
      assert pending[..|pending|] == pending;
      pending := [];
      if omitted != 0 {
        batch := batch + [Overflow(omitted)];
        omitted := 0;
      }
    }

    method BeginTurn() returns (batch: seq<PendingNotice>)
      modifies this
      ensures batch == Batch(old(Value())) && Value() == Drained(old(Value())).(activeTurn := true)
    {
      activeTurn := true;
      batch := Drain();
    }

    method ObserveDirectHumanClaim()
      modifies this`consecutiveWakes
      ensures Value() == old(Value()).(consecutiveWakes := 0)
    {
      consecutiveWakes := 0;
    }

    method ClaimForActiveStep() returns (batch: seq<PendingNotice>)
      modifies this
      ensures old(activeTurn) ==> batch == Batch(old(Value())) && Value() == Drained(old(Value()))
      ensures !old(activeTurn) ==> batch == [] && Value() == old(Value())
    {
      if !activeTurn {
        return [];
      }
      batch := Drain();
    }

    method ContinueAfterCompletedStep() returns (goesOn: bool)
      modifies this`activeTurn
      ensures Value() == AfterContinue(old(Value()))
      ensures goesOn <==> old(pending) != [] || old(omitted) != 0
    {
      goesOn := pending != [] || omitted != 0;
      if !goesOn {
        activeTurn := false;
      }
    }

    method FinishTurn() returns (notifies: bool)
      modifies this`activeTurn
      ensures Value() == old(Value()).(activeTurn := false)
      ensures notifies == CanWake(Value())
    {
      activeTurn := false;
      notifies := CanWake(Value());
    }

    method ClaimIdleWake() returns (claim: Option<seq<PendingNotice>>)
      modifies this
      ensures Value() == AfterClaim(old(Value()))
      ensures claim == if CanWake(old(Value())) then Some(Batch(old(Value()))) else None
    {
      if !CanWake(Value()) {
        return None;
      }
      activeTurn := true;
      consecutiveWakes := SaturatingAdd(consecutiveWakes, 1, MAX_USIZE);
      var batch := Drain();
      claim := Some(batch);
    }

    method Restore(batch: seq<PendingNotice>, spentWake: bool) returns (notifies: bool)
      modifies this
      ensures Value() == AfterRestore(old(Value()), batch, spentWake)
      ensures notifies == CanWake(Value())
    {
      var i := |batch|;
      while i > 0
        invariant 0 <= i <= |batch|
        invariant pending == JobsOf(batch[i..]) + old(pending)
        invariant omitted == SaturatingAdd(old(omitted), OmittedIn(batch[i..]), MAX_USIZE)
        invariant activeTurn == old(activeTurn) && consecutiveWakes == old(consecutiveWakes) && closed == old(closed)
      {
        i := i - 1;
        assert batch[i..][1..] == batch[i + 1..];
        match batch[i]
        case Job(notice) => pending := [notice] + pending;
        case Overflow(count) => omitted := SaturatingAdd(omitted, count, MAX_USIZE);
      }
      activeTurn := false;
      if spentWake {
        consecutiveWakes := SaturatingSub(consecutiveWakes, 1);
      }
      notifies := CanWake(Value());
    }

    method Close()
      modifies this
      ensures Value() == AfterClose(old(Value()))
    {
      closed, pending, omitted, activeTurn := true, [], 0, false;
    }
  }
}
