/** The routing check of the in-process transport (crates/conformance/src/in_process.rs): each
    message reaches exactly the subscriptions `routes` answered for it. */
module Routing {
  import opened Prelude
  import opened Timed

  const DELIVERY_TIMEOUT: nat := 2_000
  const QUIET: nat := 100

  // Sorting decides multisets

  predicate Ordered(s: seq<nat>)
  {
    forall i | 0 < i < |s| :: s[i - 1] <= s[i]
  }

  function Insert(x: nat, s: seq<nat>): (r: seq<nat>)
    requires Ordered(s)
    ensures Ordered(r) && r != [] && (r[0] == x || (s != [] && r[0] == s[0]))
  {
    if s == [] || x <= s[0] then [x] + s else [s[0]] + Insert(x, s[1..])
  }

  /** `sort_unstable`, over numbers. */
  function Sorted(s: seq<nat>): (r: seq<nat>)
    ensures Ordered(r)
  {
    if s == [] then [] else Insert(s[0], Sorted(s[1..]))
  }

  lemma {:induction false} InsertKeeps(x: nat, s: seq<nat>)
    requires Ordered(s)
    ensures multiset(Insert(x, s)) == multiset{x} + multiset(s)
  {
    if s != [] && x > s[0] {
      InsertKeeps(x, s[1..]);
      assert s == [s[0]] + s[1..];
    }
  }

  lemma FirstAndRest(s: seq<nat>)
    requires s != []
    ensures multiset(s) == multiset{s[0]} + multiset(s[1..])
  {
    assert s == [s[0]] + s[1..];
  }

  lemma SortedStep(s: seq<nat>, rest: multiset<nat>)
    requires s != [] && multiset(Sorted(s[1..])) == rest
    ensures multiset(Sorted(s)) == multiset{s[0]} + rest
  {
    InsertKeeps(s[0], Sorted(s[1..]));
  }

  lemma {:induction false} SortedKeeps(s: seq<nat>)
    ensures multiset(Sorted(s)) == multiset(s)
  {
    if s != [] {
      SortedKeeps(s[1..]);
      SortedStep(s, multiset(s[1..]));
      FirstAndRest(s);
    }
  }

  lemma {:induction false} FirstIsLeast(s: seq<nat>, i: nat)
    requires Ordered(s) && i < |s|
    ensures s[0] <= s[i]
  {
    if i > 0 {
      FirstIsLeast(s, i - 1);
    }
  }

  /** Equal multisets in order begin alike. */
  lemma SameFirst(a: seq<nat>, b: seq<nat>)
    requires Ordered(a) && Ordered(b) && multiset(a) == multiset(b) && a != []
    ensures b != [] && a[0] == b[0]
  {
    assert a[0] in multiset(b);
    var i :| 0 <= i < |b| && b[i] == a[0];
    FirstIsLeast(b, i);
    assert b[0] in multiset(a);
    var j :| 0 <= j < |a| && a[j] == b[0];
    FirstIsLeast(a, j);
  }

  lemma TailMultiset(s: seq<nat>)
    requires s != []
    ensures multiset(s[1..]) == multiset(s) - multiset{s[0]}
  {
    assert s == [s[0]] + s[1..];
  }

  lemma {:induction false} OrderedIsUnique(a: seq<nat>, b: seq<nat>)
    requires Ordered(a) && Ordered(b) && multiset(a) == multiset(b)
    ensures a == b
    decreases |a|
  {
    if a == [] {
      assert |multiset(b)| == |b|;
    } else {
      SameFirst(a, b);
      TailMultiset(a);
      TailMultiset(b);
      OrderedIsUnique(a[1..], b[1..]);
      assert a == [a[0]] + a[1..] && b == [b[0]] + b[1..];
    }
  }

  /** Comparing the sorted sequences decides whether the multisets are the same. */
  lemma SortedDecides(a: seq<nat>, b: seq<nat>)
    ensures Sorted(a) == Sorted(b) <==> multiset(a) == multiset(b)
  {
    SortedKeeps(a);
    SortedKeeps(b);
    if multiset(a) == multiset(b) {
      OrderedIsUnique(Sorted(a), Sorted(b));
    }
  }

  // The check

  /** A delivery: the subscription it came through, and which message it is where its payload
      says so. */
  datatype Delivered = Delivered(position: nat, message: Option<nat>, ack: Answer)

  datatype Received = Received(position: nat, message: nat)

  /** The positions that received `message`, in the order they did. */
  function Positions(received: seq<Received>, message: nat): seq<nat>
  {
    if received == [] then []
    else
      var last := received[|received| - 1];
      Positions(received[..|received| - 1], message) + if last.message == message then [last.position] else []
  }

  /** Every message reached exactly the subscriptions it was routed to, as often as it was. */
  ghost predicate AsRouted(routed: seq<seq<nat>>, received: seq<Received>)
  {
    forall m | 0 <= m < |routed| :: ReachedAs(received, m, routed[m])
  }

  /** The positions that received a message are `to`, as often. */
  ghost predicate ReachedAs(received: seq<Received>, message: nat, to: seq<nat>)
  {
    multiset(Positions(received, message)) == multiset(to)
  }

  function Owed(routed: seq<seq<nat>>): nat
  {
    if routed == [] then 0 else Owed(routed[..|routed| - 1]) + |routed[|routed| - 1]|
  }

  /** `publish_shared`: a refused publish is owed to nobody, whatever `routes` answered. */
  method PublishShared(answers: seq<seq<nat>>, taken: seq<bool>) returns (routed: seq<seq<nat>>)
    requires |answers| == |taken|
    ensures |routed| == |answers|
    ensures forall m | 0 <= m < |routed| :: routed[m] == if taken[m] then answers[m] else []
  {
    routed := [];
    for m := 0 to |answers|
      invariant |routed| == m
      invariant forall k | 0 <= k < m :: routed[k] == if taken[k] then answers[k] else []
    {
      routed := routed + [if taken[m] then answers[m] else []];
    }
  }

  method PositionsOf(received: seq<Received>, message: nat) returns (positions: seq<nat>)
    ensures positions == Positions(received, message)
  {
    positions := [];
    for i := 0 to |received|
      invariant positions == Positions(received[..i], message)
    {
      assert received[..i + 1][..i] == received[..i];
      if received[i].message == message {
        positions := positions + [received[i].position];
      }
    }
    assert received[..|received|] == received;
  }

  /** `assert_received_as_routed`: the sorted comparison accepts exactly when every message
      reached the subscriptions it was routed to. */
  method AssertReceivedAsRouted(routed: seq<seq<nat>>, received: seq<Received>) returns (ok: bool)
    ensures ok <==> AsRouted(routed, received)
  {
    for m := 0 to |routed|
      invariant forall k | 0 <= k < m :: ReachedAs(received, k, routed[k])
    {
      var delivered := PositionsOf(received, m);
      SortedDecides(delivered, routed[m]);
      if Sorted(delivered) != Sorted(routed[m]) {
        return false;
      }
    }
    ok := true;
  }

  datatype Run = Run(events: Trace<Delivered>, start: nat, owed: nat) {

    function Now(n: nat): nat
      requires n <= |events|
    {
      ClockFrom(events, 0, start, n)
    }

    /** The event at `n` is a delivery the scenario reads and settles. */
    predicate Readable(n: nat)
      requires n < |events|
    {
      events[n].item.Delivery? && events[n].item.msg.message.Some? && !events[n].item.msg.ack.Failed?
    }

    /** The event at `n` comes while a delivery is owed and waited for. */
    predicate ComesOwed(n: nat)
    {
      n < |events| && n < owed && Now(n + 1) <= Now(n) + DELIVERY_TIMEOUT && !events[n].item.End?
    }

    /** When the waiting for owed deliveries is over, `k` events in: after a timeout where the
        next one did not come, at once where nothing more was owed or every stream ended. */
    function Over(k: nat): nat
      requires k <= |events|
    {
      if k < owed && (k == |events| || Now(k + 1) > Now(k) + DELIVERY_TIMEOUT) then Now(k) + DELIVERY_TIMEOUT
      else Now(k)
    }

    predicate ComesLate(k: nat, n: nat)
      requires k <= n && k <= |events|
    {
      && n < |events| && !events[n].item.End?
      && ClockFrom(events, k, Over(k), n + 1) <= ClockFrom(events, k, Over(k), n) + QUIET
    }

    predicate ReadOwed(n: nat)
      requires n < |events|
    {
      ComesOwed(n) && Readable(n)
    }

    predicate ReadLate(k: nat, n: nat)
      requires k <= n < |events|
    {
      ComesLate(k, n) && Readable(n)
    }

    ghost predicate OwedUpTo(k: nat)
    {
      k <= |events| && forall j | 0 <= j < k :: ReadOwed(j)
    }

    ghost predicate LateUpTo(k: nat, n: nat)
    {
      OwedUpTo(k) && !ComesOwed(k) && k <= n <= |events| && forall j | k <= j < n :: ReadLate(k, j)
    }

    /** The scenario reads `n` events: `k` while they were owed, the rest until quiet. */
    ghost predicate ReadsAll(k: nat, n: nat)
    {
      LateUpTo(k, n) && !ComesLate(k, n)
    }

    function Read(n: nat): seq<Received>
      requires n <= |events|
    {
      if n == 0 then []
      else
        var item := events[n - 1].item;
        Read(n - 1) +
        if item.Delivery? && item.msg.message.Some? then [Received(item.msg.position, item.msg.message.value)] else []
    }

    ghost predicate Accepted(routed: seq<seq<nat>>)
    {
      exists k, n :: ReadsAll(k, n) && AsRouted(routed, Read(n))
    }

    lemma OwedGoesOn(j: nat, k: nat)
      requires OwedUpTo(k) && j < k
      ensures ComesOwed(j)
    {
      assert ReadOwed(j);
    }

    lemma OwedEnds(k: nat)
      requires OwedUpTo(k) && k < |events| && ComesOwed(k) && !Readable(k)
      ensures forall j: nat, n: nat :: !ReadsAll(j, n)
    {
      forall j: nat, n: nat ensures !ReadsAll(j, n) {
        if j < k {
          OwedGoesOn(j, k);
        } else {
          assert !ReadOwed(k);
        }
      }
    }

    lemma OneEnd(k: nat, j: nat)
      requires OwedUpTo(k) && !ComesOwed(k) && j != k
      ensures !(OwedUpTo(j) && !ComesOwed(j))
    {
      if j < k {
        OwedGoesOn(j, k);
      } else {
        assert k == |events| || !ReadOwed(k);
      }
    }

    lemma LateEnds(k: nat, m: nat)
      requires LateUpTo(k, m) && m < |events| && ComesLate(k, m) && !Readable(m)
      ensures forall j: nat, n: nat :: !ReadsAll(j, n)
    {
      forall j: nat, n: nat ensures !ReadsAll(j, n) {
        if j != k {
          OneEnd(k, j);
        } else if k <= n < m {
          assert ReadLate(k, n);
        } else {
          assert !ReadLate(k, m);
        }
      }
    }

    /** What is read is decided by the trace. */
    lemma ReadsOnce(k: nat, m: nat, j: nat, n: nat)
      requires ReadsAll(k, m) && (j != k || n != m)
      ensures !ReadsAll(j, n)
    {
      if j != k {
        OneEnd(k, j);
      } else if k <= n < m {
        assert ReadLate(k, n);
      } else {
        assert m == |events| || !ReadLate(k, m);
      }
    }
  }

  /** `receive_shared`: the owed deliveries, then whatever else arrives before quiet; it fails
      only on a delivery it cannot read or settle. */
  method ReceiveShared(run: Run) returns (ok: bool, received: seq<Received>, ghost k: nat, ghost n: nat)
    ensures ok ==> run.ReadsAll(k, n) && received == run.Read(n)
    ensures !ok ==> forall j: nat, m: nat :: !run.ReadsAll(j, m)
  {
    var events, now, pos, timedOut := run.events, run.start, 0, false;
    received := [];
    while pos < run.owed && pos < |events| && Max(now, events[pos].at) <= now + DELIVERY_TIMEOUT
      && !events[pos].item.End?
      invariant run.OwedUpTo(pos) && now == run.Now(pos) && received == run.Read(pos)
      decreases |events| - pos
    {
      var item := events[pos].item;
      if !item.Delivery? || item.msg.message.None? || item.msg.ack.Failed? {
        run.OwedEnds(pos);
        return false, received, pos, pos;
      }
      var msg := item.msg;
      assert run.ReadOwed(pos);
      received := received + [Received(msg.position, msg.message.value)];
      now, pos := Max(now, events[pos].at), pos + 1;
    }
    k := pos;
    if pos < run.owed && (pos == |events| || Max(now, events[pos].at) > now + DELIVERY_TIMEOUT) {
      now := now + DELIVERY_TIMEOUT;
    }
    while pos < |events| && Max(now, events[pos].at) <= now + QUIET && !events[pos].item.End?
      invariant run.LateUpTo(k, pos) && now == ClockFrom(events, k, run.Over(k), pos) && received == run.Read(pos)
      decreases |events| - pos
    {
      var item := events[pos].item;
      if !item.Delivery? || item.msg.message.None? || item.msg.ack.Failed? {
        run.LateEnds(k, pos);
        return false, received, k, pos;
      }
      var msg := item.msg;
      assert run.ReadLate(k, pos);
      received := received + [Received(msg.position, msg.message.value)];
      now, pos := Max(now, events[pos].at), pos + 1;
    }
    ok, n := true, pos;
  }

  /** `one_name_two_subscriptions`, from its publishes on: it accepts exactly when what is read
      is what was routed, a refused publish counting as routed to nobody. */
  method OneNameTwoSubscriptions(answers: seq<seq<nat>>, taken: seq<bool>, events: Trace<Delivered>, start: nat)
    returns (accepted: bool, routed: seq<seq<nat>>)
    requires |answers| == |taken|
    ensures |routed| == |answers|
    ensures forall m | 0 <= m < |routed| :: routed[m] == if taken[m] then answers[m] else []
    ensures accepted <==> Run(events, start, Owed(routed)).Accepted(routed)
  {
    routed := PublishShared(answers, taken);
    var run := Run(events, start, Owed(routed));
    var ok, received, k, n := ReceiveShared(run);
    if !ok {
      return false, routed;
    }
    accepted := AssertReceivedAsRouted(routed, received);
    if run.Accepted(routed) {
      ghost var j: nat, m: nat :| run.ReadsAll(j, m) && AsRouted(routed, run.Read(m));
      if j != k || m != n {
        run.ReadsOnce(k, n, j, m);
        assert false;
      }
    }
  }

  // Acceptance by the deliveries alone

  /** How many of the first `n` events deliver `message` through `position`. */
  function DeliveredTo(events: Trace<Delivered>, n: nat, message: nat, position: nat): nat
    requires n <= |events|
  {
    if n == 0 then 0
    else
      var item := events[n - 1].item;
      DeliveredTo(events, n - 1, message, position)
      + if item.Delivery? && item.msg.message == Some(message) && item.msg.position == position then 1 else 0
  }

  /** How many of `received` are of `message` through `position`. */
  function ReceivedAs(received: seq<Received>, message: nat, position: nat): nat
    decreases |received|
  {
    if received == [] then 0
    else
      ReceivedAs(received[..|received| - 1], message, position)
      + if received[|received| - 1] == Received(position, message) then 1 else 0
  }

  lemma GainsOne(before: seq<nat>, last: nat, position: nat)
    ensures multiset(before + [last])[position] == multiset(before)[position] + if last == position then 1 else 0
  {
  }

  lemma {:induction false} PositionsCount(received: seq<Received>, message: nat, position: nat)
    ensures multiset(Positions(received, message))[position] == ReceivedAs(received, message, position)
    decreases |received|
  {
    if received != [] {
      var front, last := received[..|received| - 1], received[|received| - 1];
      PositionsCount(front, message, position);
      if last.message == message {
        GainsOne(Positions(front, message), last.position, position);
      } else {
        assert Positions(front, message) + [] == Positions(front, message);
      }
    }
  }

  lemma ReceivedNext(received: seq<Received>, r: Received, message: nat, position: nat)
    ensures ReceivedAs(received + [r], message, position) ==
      ReceivedAs(received, message, position) + if r == Received(position, message) then 1 else 0
  {
    assert (received + [r])[..|received|] == received;
  }

  lemma {:induction false} ReadCount(run: Run, n: nat, message: nat, position: nat)
    requires n <= |run.events|
    ensures ReceivedAs(run.Read(n), message, position) == DeliveredTo(run.events, n, message, position)
    decreases n
  {
    if n > 0 {
      var item := run.events[n - 1].item;
      ReadCount(run, n - 1, message, position);
      if item.Delivery? && item.msg.message.Some? {
        ReceivedNext(run.Read(n - 1), Received(item.msg.position, item.msg.message.value), message, position);
      } else {
        assert run.Read(n - 1) + [] == run.Read(n - 1);
      }
    }
  }

  /** Every event read is a settled delivery of a message it names; and through each subscription
      each published message comes as often as it was routed there, a refused one never. */
  lemma AcceptedByDeliveries(answers: seq<seq<nat>>, taken: seq<bool>, routed: seq<seq<nat>>, events: Trace<Delivered>,
                             start: nat) returns (n: nat)
    requires |answers| == |taken| == |routed|
    requires forall m | 0 <= m < |routed| :: routed[m] == if taken[m] then answers[m] else []
    requires Run(events, start, Owed(routed)).Accepted(routed)
    ensures n <= |events|
    ensures forall k | 0 <= k < n ::
      events[k].item.Delivery? && events[k].item.msg.message.Some? && events[k].item.msg.ack != Failed
    ensures forall m: nat, p: nat | m < |answers| ::
      DeliveredTo(events, n, m, p) == if taken[m] then multiset(answers[m])[p] else 0
  {
    var run := Run(events, start, Owed(routed));
    var k: nat, end: nat :| run.ReadsAll(k, end) && AsRouted(routed, run.Read(end));
    n := end;
    forall j | 0 <= j < n
      ensures events[j].item.Delivery? && events[j].item.msg.message.Some? && events[j].item.msg.ack != Failed
    {
      assert if j < k then run.ReadOwed(j) else run.ReadLate(k, j);
    }
    forall m: nat, p: nat | m < |answers|
      ensures DeliveredTo(events, n, m, p) == if taken[m] then multiset(answers[m])[p] else 0
    {
      PositionsCount(run.Read(n), m, p);
      ReadCount(run, n, m, p);
      assert ReachedAs(run.Read(n), m, routed[m]);
    }
  }

  // Totals

  /** How many of `received` are of the first `messages` messages. */
  function Matching(received: seq<Received>, messages: nat): nat
  {
    if messages == 0 then 0 else Matching(received, messages - 1) + |Positions(received, messages - 1)|
  }

  /** As routed, the deliveries of published messages are exactly as many as were owed. */
  lemma {:induction false} MatchingIsOwed(routed: seq<seq<nat>>, received: seq<Received>)
    requires AsRouted(routed, received)
    ensures Matching(received, |routed|) == Owed(routed)
    decreases |routed|
  {
    if routed != [] {
      var init := routed[..|routed| - 1];
      MatchingIsOwed(init, received);
      assert multiset(Positions(received, |init|)) == multiset(routed[|init|]);
      assert |multiset(Positions(received, |init|))| == |multiset(routed[|init|])|;
    }
  }

  function CountBelow(received: seq<Received>, messages: nat): nat
  {
    if received == [] then 0
    else CountBelow(received[..|received| - 1], messages) + if received[|received| - 1].message < messages then 1 else 0
  }

  lemma {:induction false} MatchingNext(received: seq<Received>, messages: nat)
    requires received != []
    ensures Matching(received, messages) == Matching(received[..|received| - 1], messages)
              + if received[|received| - 1].message < messages then 1 else 0
    decreases messages
  {
    if messages > 0 {
      MatchingNext(received, messages - 1);
    }
  }

  lemma {:induction false} MatchingCounts(received: seq<Received>, messages: nat)
    ensures Matching(received, messages) == CountBelow(received, messages)
    decreases |received|, messages
  {
    if received != [] {
      MatchingCounts(received[..|received| - 1], messages);
      MatchingNext(received, messages);
    } else if messages > 0 {
      MatchingCounts(received, messages - 1);
    }
  }

  /** The deliveries of published messages total what was owed; a delivery of a message nobody
      published is not among them. */
  lemma AcceptedTotals(routed: seq<seq<nat>>, received: seq<Received>)
    requires AsRouted(routed, received)
    ensures CountBelow(received, |routed|) == Owed(routed)
    ensures |received| == Owed(routed) <==> CountBelow(received, |routed|) == |received|
  {
    MatchingIsOwed(routed, received);
    MatchingCounts(received, |routed|);
  }

  /** A trace in which message 99 of one published arrives after the one that was routed. */
  function UnknownTrace(): Run
  {
    Run([Event(0, Delivery(Delivered(0, Some(0), Settled))), Event(0, Delivery(Delivered(1, Some(99), Settled)))], 0, 1)
  }

  lemma UnknownIsRead()
    ensures UnknownTrace().ReadsAll(1, 2)
  {
    var run := UnknownTrace();
    assert run.ReadOwed(0) && run.OwedUpTo(1) && !run.ComesOwed(1);
    assert run.ReadLate(1, 1);
  }

  lemma UnknownIsReceived()
    ensures UnknownTrace().Read(2) == [Received(0, 0), Received(1, 99)]
  {
    assert UnknownTrace().Read(1) == [Received(0, 0)];
  }

  /** A delivery of another message leaves a message's positions as they were. */
  lemma OtherPositions(received: seq<Received>, other: Received, message: nat)
    requires other.message != message
    ensures Positions(received + [other], message) == Positions(received, message)
  {
    assert (received + [other])[..|received|] == received;
  }

  lemma OnePosition(r: Received)
    ensures Positions([r], r.message) == [r.position]
  {
    assert [r][..0] == [];
  }

  lemma UnknownIsAsRouted()
    ensures AsRouted([[0]], [Received(0, 0), Received(1, 99)])
  {
    OnePosition(Received(0, 0));
    OtherPositions([Received(0, 0)], Received(1, 99), 0);
    assert [Received(0, 0)] + [Received(1, 99)] == [Received(0, 0), Received(1, 99)];
  }

  /** ... and the check lets such a delivery pass. */
  lemma UnknownMessagePasses()
    ensures
      var run, routed := UnknownTrace(), [[0]];
      && run.owed == Owed(routed) && run.Accepted(routed)
      && Received(1, 99) in run.Read(2) && run.ReadsAll(1, 2)
  {
    assert [[0]][..0] == [];
    UnknownIsRead();
    UnknownIsReceived();
    UnknownIsAsRouted();
  }
}
