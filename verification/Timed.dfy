/** What a conformance check reads: a finite timed trace. A read takes the next event when it
    comes by the deadline in force, and never an event after it; after the last event nothing
    comes. Settlements take no time. */
module Timed {
  import opened Prelude

  /** What a settlement call answers; a check accepts a transport that cannot settle. */
  datatype Answer = Settled | Unsupported | Failed

  datatype Item<+M> = Delivery(msg: M) | Error | End

  datatype Event<+M> = Event(at: nat, item: Item<M>)

  type Trace<+M> = seq<Event<M>>

  /** The time once the events from `pos` up to `n` are read, by a reader that goes on from `pos`
      at `now`: a read that timed out moves the clock and no event. */
  function ClockFrom<M>(events: Trace<M>, pos: nat, now: nat, n: nat): (t: nat)
    requires pos <= n <= |events|
    ensures now <= t
  {
    if n == pos then now else Max(ClockFrom(events, pos, now, n - 1), events[n - 1].at)
  }

  /** The same for a reader that started at `start` and has not timed out. */
  function Clock<M>(events: Trace<M>, start: nat, n: nat): (t: nat)
    requires n <= |events|
  {
    ClockFrom(events, 0, start, n)
  }

  lemma {:induction false} ClockRises<M>(events: Trace<M>, start: nat, m: nat, n: nat)
    requires m <= n <= |events|
    ensures Clock(events, start, m) <= Clock(events, start, n)
  {
    if m < n {
      ClockRises(events, start, m, n - 1);
    }
  }

  /** The event at `n` comes by `deadline`, for a reader that has read those before it. */
  predicate InTime<M>(events: Trace<M>, start: nat, n: nat, deadline: nat)
  {
    n < |events| && Clock(events, start, n + 1) <= deadline
  }

  lemma {:induction false} ClockBy<M>(events: Trace<M>, pos: nat, now: nat, n: nat, deadline: nat)
    requires pos <= n <= |events|
    ensures ClockFrom(events, pos, now, n) <= deadline <==>
      now <= deadline && forall k | pos <= k < n :: events[k].at <= deadline
  {
    if pos < n {
      ClockBy(events, pos, now, n - 1, deadline);
    }
  }

  /** An event is read in time exactly when it and all before it come by the deadline, and the reader
      did not start past it. */
  lemma InTimeExactly<M>(events: Trace<M>, start: nat, n: nat, deadline: nat)
    ensures InTime(events, start, n, deadline) <==>
      n < |events| && start <= deadline && forall k | 0 <= k <= n :: events[k].at <= deadline
  {
    if n < |events| {
      ClockBy(events, 0, start, n + 1, deadline);
    }
  }
}
