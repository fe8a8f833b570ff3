/** The delivery cap a broker applies itself (crates/conformance/src/retry.rs): a message requeued
    until its attempts are spent is moved to the dead-letter destination, once. */
module Moves {
  import opened Prelude
  import opened Timed

  const MOVE_TIMEOUT: nat := 30_000
  const QUIET: nat := 500
  const POISON := "poison"

  datatype Place = Subscription | DeadLetter

  /** A delivery where it was read, the count it reports, and what settling it answers. */
  datatype Received = Received(place: Place, payload: string, count: Option<nat>, ack: Answer, nack: Answer)

  datatype Run = Run(events: Trace<Received>, start: nat) {

    predicate Comes(n: nat, within: nat)
    {
      n < |events| && InTime(events, start, n, Clock(events, start, n) + within)
    }

    /** The event at `n` is delivery number `n + 1` of the message on the subscription. */
    predicate Counted(n: nat)
    {
      && Comes(n, MOVE_TIMEOUT) && events[n].item.Delivery?
      && var msg := events[n].item.msg;
        msg.place.Subscription? && msg.payload == POISON && (msg.count.Some? ==> msg.count.value == n + 1)
    }

    predicate Requeued(n: nat)
    {
      Counted(n) && events[n].item.msg.nack.Settled?
    }

    /** The first `n` deliveries are counted and requeued. */
    ghost predicate AllRequeued(n: nat)
    {
      forall k | 0 <= k < n :: Requeued(k)
    }

    /** The transport cannot requeue: its delivery at `n` ends the cycle. */
    ghost predicate CutShortAt(n: nat)
    {
      AllRequeued(n) && Counted(n) && events[n].item.msg.nack.Unsupported?
    }

    /** The event at `n` is the message in the dead-letter destination, and nothing follows. */
    predicate MovedAt(n: nat)
    {
      && Comes(n, MOVE_TIMEOUT) && events[n].item.Delivery?
      && (var msg := events[n].item.msg; msg.place.DeadLetter? && msg.payload == POISON && !msg.ack.Failed?)
      && !Comes(n + 1, QUIET)
    }

    /** A counted run of deliveries cut short by a transport that cannot requeue, or all the
        attempts requeued, then one dead-letter delivery, then quiet. */
    ghost predicate Accepted(attempts: nat)
    {
      || (exists n :: 0 <= n < attempts && CutShortAt(n))
      || (AllRequeued(attempts) && MovedAt(attempts))
    }

    /** Deliveries requeued so far decide nothing; one that is not decides everything. */
    lemma StopsAt(attempts: nat, n: nat)
      requires n < attempts && AllRequeued(n) && !Requeued(n)
      ensures Accepted(attempts) <==> CutShortAt(n)
    {
      forall m: nat | m != n ensures !CutShortAt(m) {
        if m < n {
          assert Requeued(m);
        }
      }
    }

    lemma NotCutShort(attempts: nat)
      requires AllRequeued(attempts)
      ensures Accepted(attempts) <==> MovedAt(attempts)
    {
      forall m: nat | m < attempts ensures !CutShortAt(m) {
        assert Requeued(m);
      }
    }
  }

  /** The event at `k` delivers the payload at the place, within the timeout of the one before. */
  predicate Delivers(run: Run, k: nat, place: Place, payload: string)
  {
    && k < |run.events| && run.events[k].item.Delivery?
    && run.events[k].item.msg.place == place && run.events[k].item.msg.payload == payload
    && Clock(run.events, run.start, k + 1) <= Clock(run.events, run.start, k) + MOVE_TIMEOUT
  }

  /** ... as delivery number `k + 1` on the subscription, where it counts. */
  predicate Attempted(run: Run, k: nat)
  {
    && Delivers(run, k, Subscription, "poison")
    && (run.events[k].item.msg.count.Some? ==> run.events[k].item.msg.count.value == k + 1)
  }

  predicate NackAnswers(run: Run, k: nat, answer: Answer)
  {
    k < |run.events| && run.events[k].item.Delivery? && run.events[k].item.msg.nack == answer
  }

  /** The message comes in the dead-letter destination, is settled, and nothing follows. */
  predicate DeadLettered(run: Run, n: nat)
  {
    && Delivers(run, n, DeadLetter, "poison") && run.events[n].item.msg.ack != Failed
    && (n + 1 < |run.events| ==> Clock(run.events, run.start, n + 2) > Clock(run.events, run.start, n + 1) + QUIET)
  }

  /** What acceptance means, by the deliveries alone: the message comes `n` times on the subscription,
      each time in time and counting one more where it counts, all but the last requeued; then either
      the transport cannot requeue the last, or all attempts are spent and requeued and the message
      comes once in the dead-letter destination. */
  lemma AcceptedByDeliveries(run: Run, attempts: nat) returns (n: nat)
    requires attempts >= 1 && run.Accepted(attempts)
    ensures 1 <= n <= attempts && forall k | 0 <= k < n :: Attempted(run, k)
    ensures forall k | 0 <= k < n - 1 :: NackAnswers(run, k, Settled)
    ensures
      || NackAnswers(run, n - 1, Unsupported)
      || (n == attempts && NackAnswers(run, n - 1, Settled) && DeadLettered(run, n))
  {
    if cut: nat :| cut < attempts && run.CutShortAt(cut) {
      n := cut + 1;
    } else {
      n := attempts;
    }
    forall k | 0 <= k < n ensures Attempted(run, k) && (k < n - 1 ==> NackAnswers(run, k, Settled)) {
      assert run.Requeued(k) || run.Counted(k);
      assert k < n - 1 ==> run.Requeued(k);
    }
    assert n == attempts && !run.CutShortAt(n - 1) ==> run.Requeued(n - 1);
  }

  /** `moves_at_the_cap`: it accepts exactly the traces of the specification, for every cap. */
  method MovesAtTheCap(run: Run, attempts: nat) returns (accepted: bool)
    requires attempts >= 1
    ensures accepted <==> run.Accepted(attempts)
  {
    var events, now := run.events, run.start;
    for n := 0 to attempts
      invariant n <= |events| && now == Clock(events, run.start, n) && run.AllRequeued(n)
    {
      if n == |events| || Max(now, events[n].at) > now + MOVE_TIMEOUT || !events[n].item.Delivery? {
        run.StopsAt(attempts, n);
        return false;
      }
      now := Max(now, events[n].at);
      var msg := events[n].item.msg;
      if msg.place.DeadLetter? || msg.payload != POISON || (msg.count.Some? && msg.count.value != n + 1)
        || msg.nack.Failed? {
        run.StopsAt(attempts, n);
        return false;
      }
      if msg.nack.Unsupported? {
        run.StopsAt(attempts, n);
        return true;
      }
      assert run.Requeued(n);
    }
    run.NotCutShort(attempts);
    if attempts == |events| || Max(now, events[attempts].at) > now + MOVE_TIMEOUT || !events[attempts].item.Delivery? {
      return false;
    }
    now := Max(now, events[attempts].at);
    var moved := events[attempts].item.msg;
    if moved.place.Subscription? || moved.payload != POISON || moved.ack.Failed? {
      return false;
    }
    accepted := attempts + 1 == |events| || Max(now, events[attempts + 1].at) > now + QUIET;
  }
}
