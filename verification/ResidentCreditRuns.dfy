/**
  Credit conservation over every interleaving (src/resident_credit.rs:103-182, 207-242).
  Acquisition is the compare-and-swap loop it compiles to: a load, then exchanges that
  fail and reload whenever another owner moved the counter, or for no reason at all.
*/
module ResidentCreditRuns {
  import opened Wrappers
  import opened Text
  import opened ResidentCredit

  datatype Held = Held(pool: nat, bytes: usize)

  /** One thread inside `try_acquire`: the counter value it last saw. */
  datatype Attempt = Attempt(pool: nat, bytes: usize, observed: usize)

  datatype World = World(
    limits: seq<usize>,
    used: seq<usize>,
    leases: seq<Option<Held>>,
    attempts: map<nat, Attempt>
  )

  datatype Action =
    | Load(thread: nat, pool: nat, bytes: usize)
    | Exchange(thread: nat, spurious: bool)
    | Split(lease: nat, amount: usize)
    | Merge(into: nat, from: nat)
    | Drop(lease: nat)

  function Initial(limits: seq<usize>): World {
    World(limits, seq(|limits|, _ => 0), [], map[])
  }

  predicate Live(w: World, lease: nat) {
    lease < |w.leases| && w.leases[lease].Some? && w.leases[lease].value.pool < |w.used|
  }

  predicate Enabled(w: World, a: Action) {
    match a
    case Load(thread, pool, _) => thread !in w.attempts && pool < |w.used|
    case Exchange(thread, _) =>
      thread in w.attempts && w.attempts[thread].pool < |w.used| && w.attempts[thread].pool < |w.limits|
    case Split(lease, _) => Live(w, lease)
    case Merge(into, from) => Live(w, into) && Live(w, from) && into != from
    case Drop(lease) => Live(w, lease)
  }

  /** A subtraction below zero would wrap; the invariant shows it never happens. */
  function WrappingSub(a: usize, b: usize): usize {
    if a >= b then a - b else a + (MAX_USIZE + 1) - b
  }

  function Dropped(w: World, lease: nat): World
    requires Live(w, lease)
  {
    var held := w.leases[lease].value;
    w.(used := w.used[held.pool := WrappingSub(w.used[held.pool], held.bytes)], leases := w.leases[lease := None])
  }

  function Next(w: World, a: Action): World
    requires Enabled(w, a)
  {
    match a
    case Load(thread, pool, bytes) => w.(attempts := w.attempts[thread := Attempt(pool, bytes, w.used[pool])])
    case Exchange(thread, spurious) =>
      var attempt := w.attempts[thread];
      var next := Acquired(attempt.observed, w.limits[attempt.pool], attempt.bytes);
      if next.None? then
        w.(attempts := w.attempts - {thread})
      else if spurious || w.used[attempt.pool] != attempt.observed then
        w.(attempts := w.attempts[thread := attempt.(observed := w.used[attempt.pool])])
      else
        w.(used := w.used[attempt.pool := next.value],
           leases := w.leases + [Some(Held(attempt.pool, attempt.bytes))],
           attempts := w.attempts - {thread})
    case Split(lease, amount) =>
      var held := w.leases[lease].value;
      if amount > held.bytes then w
      else w.(leases := w.leases[lease := Some(held.(bytes := held.bytes - amount))] + [Some(Held(held.pool, amount))])
    case Merge(into, from) =>
      var held, other := w.leases[into].value, w.leases[from].value;
      if held.pool != other.pool || held.bytes + other.bytes > MAX_USIZE then Dropped(w, from)
      else w.(leases := w.leases[into := Some(held.(bytes := held.bytes + other.bytes))][from := None])
    case Drop(lease) => Dropped(w, lease)
  }

  // ----- conservation -----

  function Share(slot: Option<Held>, pool: nat): nat {
    if slot.Some? && slot.value.pool == pool then slot.value.bytes else 0
  }

  /** What the live leases of a pool hold together. */
  function Outstanding(leases: seq<Option<Held>>, pool: nat): nat {
    if leases == [] then 0
    else Outstanding(leases[..|leases| - 1], pool) + Share(leases[|leases| - 1], pool)
  }

  predicate Inv(w: World) {
    && |w.used| == |w.limits|
    && (forall i :: 0 <= i < |w.leases| && w.leases[i].Some? ==> w.leases[i].value.pool < |w.used|)
    && (forall t :: t in w.attempts ==> w.attempts[t].pool < |w.used|)
    && (forall p :: 0 <= p < |w.used| ==> w.used[p] == Outstanding(w.leases, p) && w.used[p] <= w.limits[p])
  }

  lemma {:induction false} OutstandingUpdate(leases: seq<Option<Held>>, i: nat, slot: Option<Held>, pool: nat)
    requires i < |leases|
    ensures Outstanding(leases[i := slot], pool) == Outstanding(leases, pool) - Share(leases[i], pool) + Share(slot, pool)
    ensures Share(leases[i], pool) <= Outstanding(leases, pool)
    decreases |leases|
  {
    var front := leases[..|leases| - 1];
    if i == |leases| - 1 {
      assert leases[i := slot][..|leases| - 1] == front;
    } else {
      assert leases[i := slot][..|leases| - 1] == front[i := slot];
      OutstandingUpdate(front, i, slot, pool);
    }
  }

  lemma OutstandingPush(leases: seq<Option<Held>>, slot: Option<Held>, pool: nat)
    ensures Outstanding(leases + [slot], pool) == Outstanding(leases, pool) + Share(slot, pool)
  {
    assert (leases + [slot])[..|leases|] == leases;
  }

  lemma {:induction false} OutstandingPair(leases: seq<Option<Held>>, i: nat, j: nat, pool: nat)
    requires i < |leases| && j < |leases| && i != j
    ensures Share(leases[i], pool) + Share(leases[j], pool) <= Outstanding(leases, pool)
  {
    OutstandingUpdate(leases, i, None, pool);
    OutstandingUpdate(leases[i := None], j, None, pool);
  }

  lemma DropConserves(w: World, lease: nat)
    requires Inv(w) && Live(w, lease)
    ensures Inv(Dropped(w, lease))
    ensures forall p :: 0 <= p < |w.used| ==> Dropped(w, lease).used[p] == w.used[p] - Share(w.leases[lease], p)
  {
    hide Outstanding;
    forall p | 0 <= p < |w.used|
      ensures Outstanding(w.leases[lease := None], p) == Outstanding(w.leases, p) - Share(w.leases[lease], p)
      ensures Share(w.leases[lease], p) <= w.used[p]
    {
      OutstandingUpdate(w.leases, lease, None, p);
    }
  }

  /** Every atomic step keeps each counter equal to what its live leases hold, within the limit. */
  lemma {:induction false} StepConserves(w: World, a: Action)
    requires Inv(w) && Enabled(w, a)
    ensures Inv(Next(w, a))
  {
    hide Outstanding;
    match a
    case Load(_, _, _) =>
    case Exchange(thread, _) =>
      var attempt := w.attempts[thread];
      forall p | 0 <= p < |w.used|
        ensures Outstanding(w.leases + [Some(Held(attempt.pool, attempt.bytes))], p)
             == Outstanding(w.leases, p) + Share(Some(Held(attempt.pool, attempt.bytes)), p)
      {
        OutstandingPush(w.leases, Some(Held(attempt.pool, attempt.bytes)), p);
      }
    case Split(lease, amount) =>
      var held := w.leases[lease].value;
      if amount <= held.bytes {
        var rest, part := Some(held.(bytes := held.bytes - amount)), Some(Held(held.pool, amount));
        forall p | 0 <= p < |w.used|
          ensures Outstanding(w.leases[lease := rest] + [part], p) == Outstanding(w.leases, p)
        {
          OutstandingUpdate(w.leases, lease, rest, p);
          OutstandingPush(w.leases[lease := rest], part, p);
        }
      }
    case Merge(into, from) =>
      var held, other := w.leases[into].value, w.leases[from].value;
      DropConserves(w, from);
      if held.pool == other.pool && held.bytes + other.bytes <= MAX_USIZE {
        var both := Some(held.(bytes := held.bytes + other.bytes));
        forall p | 0 <= p < |w.used|
          ensures Outstanding(w.leases[into := both][from := None], p) == Outstanding(w.leases, p)
        {
          OutstandingUpdate(w.leases, into, both, p);
          OutstandingUpdate(w.leases[into := both], from, None, p);
        }
      }
    case Drop(lease) => DropConserves(w, lease);
  }

  predicate RunEnabled(w: World, actions: seq<Action>)
    decreases |actions|
  {
    actions == [] || (Enabled(w, actions[0]) && RunEnabled(Next(w, actions[0]), actions[1..]))
  }

  function Run(w: World, actions: seq<Action>): World
    requires RunEnabled(w, actions)
    decreases |actions|
  {
    if actions == [] then w else Run(Next(w, actions[0]), actions[1..])
  }

  lemma {:induction false} RunConserves(w: World, actions: seq<Action>)
    requires Inv(w) && RunEnabled(w, actions)
    ensures Inv(Run(w, actions))
    decreases |actions|
  {
    if actions != [] {
      StepConserves(w, actions[0]);
      RunConserves(Next(w, actions[0]), actions[1..]);
    }
  }

  /**
    From fresh pools, after any interleaving: each counter is the sum of its live
    leases and within its limit, and is back to zero when no lease is left.
  */
  lemma {:induction false} CreditIsConserved(limits: seq<usize>, actions: seq<Action>)
    requires RunEnabled(Initial(limits), actions)
    ensures Inv(Run(Initial(limits), actions))
    ensures var w := Run(Initial(limits), actions);
      (forall i :: 0 <= i < |w.leases| ==> w.leases[i].None?) ==> forall p :: 0 <= p < |w.used| ==> w.used[p] == 0
  {
    RunConserves(Initial(limits), actions);
    var w := Run(Initial(limits), actions);
    if forall i :: 0 <= i < |w.leases| ==> w.leases[i].None? {
      forall p | 0 <= p < |w.used| ensures w.used[p] == 0 {
        NothingOutstanding(w.leases, p);
      }
    }
  }

  lemma {:induction false} NothingOutstanding(leases: seq<Option<Held>>, pool: nat)
    requires forall i :: 0 <= i < |leases| ==> leases[i].None?
    ensures Outstanding(leases, pool) == 0
  {
    if leases != [] {
      NothingOutstanding(leases[..|leases| - 1], pool);
    }
  }

  function FreeCredit(w: World, pool: nat): int
    requires pool < |w.used| && pool < |w.limits|
  {
    (w.limits[pool] as int) - w.used[pool] as int
  }

  /**
    What each step does to the free credit of a pool: a successful exchange takes exactly
    the request, a drop returns exactly the lease, a refused merge returns exactly the
    other lease, and everything else, every failure included, moves nothing.
  */
  lemma {:induction false} OnlyOwnersMoveCredit(w: World, a: Action, pool: nat)
    requires Inv(w) && Enabled(w, a) && pool < |w.used|
    ensures |Next(w, a).used| == |w.used| && Next(w, a).limits == w.limits
    ensures FreeCredit(Next(w, a), pool) - FreeCredit(w, pool) ==
      match a {
        case Exchange(thread, _) =>
          if |Next(w, a).leases| > |w.leases| && w.attempts[thread].pool == pool then 0 - (w.attempts[thread].bytes as int) else 0
        case Drop(lease) => Share(w.leases[lease], pool)
        case Merge(into, from) =>
          if w.leases[into].value.pool != w.leases[from].value.pool then Share(w.leases[from], pool) else 0
        case _ => 0
      }
  {
    hide Outstanding;
    match a
    case Drop(lease) => DropConserves(w, lease);
    case Merge(into, from) =>
      DropConserves(w, from);
      SamePoolNeverOverflows(w, into, from);
    case _ =>
  }

  /** Two live leases of one pool never overflow when merged: a merge fails only across pools. */
  lemma {:induction false} SamePoolNeverOverflows(w: World, i: nat, j: nat)
    requires Inv(w) && Live(w, i) && Live(w, j) && i != j
    ensures w.leases[i].value.pool == w.leases[j].value.pool ==>
      w.leases[i].value.bytes + w.leases[j].value.bytes <= MAX_USIZE
  {
    var pool := w.leases[i].value.pool;
    OutstandingPair(w.leases, i, j, pool);
  }

  /** Undisturbed, an acquisition that fits succeeds at its first exchange. */
  lemma {:induction false} UncontendedAcquireSucceeds(w: World, thread: nat, pool: nat, bytes: usize)
    requires Inv(w) && Enabled(w, Load(thread, pool, bytes))
    ensures var loaded := Next(w, Load(thread, pool, bytes));
      && Enabled(loaded, Exchange(thread, false))
      && (var done := Next(loaded, Exchange(thread, false));
         if w.used[pool] + bytes <= w.limits[pool]
         then done == w.(used := w.used[pool := w.used[pool] + bytes], leases := w.leases + [Some(Held(pool, bytes))])
         else done == w)
  {
    var loaded := Next(w, Load(thread, pool, bytes));
    assert loaded.attempts - {thread} == w.attempts;
  }
}
