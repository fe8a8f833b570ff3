/** The message-shape check (crates/conformance/src/message_shape.rs): every accepted publish
    arrives with its headers, and no refused one does. */
module Shape {
  import opened Prelude
  import opened Timed

  const DELIVERY_TIMEOUT: nat := 10_000
  const QUIET_PERIOD: nat := 500

  type Headers = map<string, seq<byte>>

  datatype Awaited = Plain | Carrying(headers: Headers) | Refused

  datatype Sent = Sent(payload: string, awaited: Awaited)

  datatype Received = Received(payload: string, headers: Headers, ack: Answer)

  /** The first message published with `payload`. */
  function IndexOf(sent: seq<Sent>, payload: string): (r: Option<nat>)
    ensures r.Some? <==> exists i :: 0 <= i < |sent| && sent[i].payload == payload
    ensures r.Some? ==> r.value < |sent| && sent[r.value].payload == payload
                        && forall j | 0 <= j < r.value :: sent[j].payload != payload
  {
    if sent == [] then None
    else if sent[0].payload == payload then Some(0)
    else match IndexOf(sent[1..], payload)
      case None =>
        assert forall i | 0 < i < |sent| :: sent[i] == sent[1..][i - 1];
        None
      case Some(i) => Some(i + 1)
  }

  /** Every header of the publish is on the delivery, byte for byte. */
  predicate Intact(carried: Headers, headers: Headers)
  {
    forall name <- carried :: name in headers && headers[name] == carried[name]
  }

  /** A run of the check: what was published, and what the subscription then shows. */
  datatype Run = Run(sent: seq<Sent>, events: Trace<Received>, start: nat) {

    ghost function Required(): set<nat>
    {
      set i | 0 <= i < |sent| && !sent[i].awaited.Refused?
    }

    /** Which publish the event at `n` delivers. */
    function Which(n: nat): Option<nat>
      requires n < |events|
    {
      if events[n].item.Delivery? then IndexOf(sent, events[n].item.msg.payload) else None
    }

    /** The event at `n` is a delivery the check settles and goes on from: of an accepted
        publish, with its headers intact. */
    predicate Proper(n: nat)
      requires n < |events|
    {
      && Which(n).Some?
      && !sent[Which(n).value].awaited.Refused?
      && (sent[Which(n).value].awaited.Carrying? ==>
            Intact(sent[Which(n).value].awaited.headers, events[n].item.msg.headers))
      && !events[n].item.msg.ack.Failed?
    }

    /** Publish `i` is the first with this payload. */
    ghost predicate Names(i: nat, payload: string)
    {
      i < |sent| && sent[i].payload == payload && forall j | 0 <= j < i :: sent[j].payload != payload
    }

    /** The delivery is of publish `i`, which was accepted, with the published value of each header it
        was published with. */
    ghost predicate Brings(msg: Received, i: nat)
    {
      && Names(i, msg.payload) && sent[i].awaited != Refused
      && forall name, value | sent[i].awaited.Carrying? && (name, value) in sent[i].awaited.headers.Items ::
           name in msg.headers && msg.headers[name] == value
    }

    /** A delivery of the main loop passes if and only if it brings some publish and is settled. */
    lemma ProperExactly(n: nat)
      requires n < |events|
      ensures Proper(n) <==>
        && events[n].item.Delivery? && events[n].item.msg.ack != Failed
        && exists i: nat :: Brings(events[n].item.msg, i)
    {
      if events[n].item.Delivery? {
        var msg := events[n].item.msg;
        if Proper(n) {
          assert Brings(msg, Which(n).value);
        }
        if i: nat :| Brings(msg, i) {
          assert Which(n) == Some(i);
          if sent[i].awaited.Carrying? {
            var headers := sent[i].awaited.headers;
            forall name <- headers ensures name in msg.headers && msg.headers[name] == headers[name] {
              assert (name, headers[name]) in headers.Items;
            }
          }
        }
      }
    }

    /** A delivery of the quiet period passes if and only if it is settled and of no refused publish. */
    lemma HarmlessExactly(n: nat)
      requires n < |events|
      ensures Harmless(n) <==>
        && events[n].item.Delivery? && events[n].item.msg.ack != Failed
        && forall i: nat | Names(i, events[n].item.msg.payload) :: sent[i].awaited != Refused
    {
      if Which(n).Some? {
        assert Names(Which(n).value, events[n].item.msg.payload);
      }
    }

    ghost predicate Delivers(k: nat, payload: string)
    {
      k < |events| && events[k].item.Delivery? && events[k].item.msg.payload == payload
    }

    lemma {:induction false} ArrivedWasDelivered(n: nat, i: nat)
      requires n <= |events| && i in Arrived(n)
      ensures i < |sent| && ComesBy(n, sent[i].payload)
    {
      if Which(n - 1) == Some(i) {
        assert Delivers(n - 1, sent[i].payload);
      } else {
        ArrivedWasDelivered(n - 1, i);
        var k: nat :| k < n - 1 && Delivers(k, sent[i].payload);
      }
    }

    /** The event at `k` brings an accepted publish with its headers. */
    ghost predicate BringsOne(k: nat)
    {
      k < |events| && events[k].item.Delivery? && exists i: nat :: Brings(events[k].item.msg, i)
    }

    /** The event at `k` is a delivery of no refused publish. */
    ghost predicate NotRefused(k: nat)
    {
      && k < |events| && events[k].item.Delivery?
      && forall i: nat | Names(i, events[k].item.msg.payload) :: sent[i].awaited != Refused
    }

    ghost predicate ComesBy(n: nat, payload: string)
    {
      exists k: nat :: k < n && Delivers(k, payload)
    }

    /** What acceptance means, by what was published and what came: up to some point every delivery
        brings an accepted publish with its headers, and every accepted publish comes; from there to
        the end of the quiet period nothing refused does. */
    lemma AcceptedMeans() returns (n: nat, m: nat)
      requires Accepted()
      ensures n <= m <= |events|
      ensures forall k | 0 <= k < n :: BringsOne(k)
      ensures forall i | 0 <= i < |sent| && sent[i].awaited != Refused :: ComesBy(n, sent[i].payload)
      ensures forall k | n <= k < m :: NotRefused(k)
      ensures m < |events| ==> Clock(events, start, m + 1) > Clock(events, start, n) + QUIET_PERIOD
    {
      n, m :| MainPart(n) && QuietPart(n, m);
      forall k | 0 <= k < n ensures BringsOne(k) {
        ProperExactly(k);
      }
      forall i | 0 <= i < |sent| && sent[i].awaited != Refused ensures ComesBy(n, sent[i].payload) {
        assert i in Required();
        ArrivedWasDelivered(n, i);
      }
      forall k | n <= k < m ensures NotRefused(k) {
        HarmlessExactly(k);
      }
    }

    /** What has arrived once `n` events are read. */
    ghost function Arrived(n: nat): set<nat>
      requires n <= |events|
    {
      if n == 0 then {}
      else if Which(n - 1).Some? then Arrived(n - 1) + {Which(n - 1).value}
      else Arrived(n - 1)
    }

    /** Every accepted publish is among the first `n` events. */
    ghost predicate Complete(n: nat)
      requires n <= |events|
    {
      Required() <= Arrived(n)
    }

    /** Where no two publishes share a payload, a publish has arrived exactly when its payload
        is among the deliveries read. */
    lemma {:induction false} ArrivedByPayload(n: nat, i: nat)
      requires n <= |events| && i < |sent|
      requires forall j | 0 <= j < |sent| && j != i :: sent[j].payload != sent[i].payload
      ensures i in Arrived(n) <==>
        exists k :: 0 <= k < n && events[k].item.Delivery? && events[k].item.msg.payload == sent[i].payload
    {
      if n > 0 {
        ArrivedByPayload(n - 1, i);
      }
    }

    ghost predicate FirstArrival(n: nat)
      requires n < |events|
    {
      Which(n).Some? && Which(n).value !in Arrived(n)
    }

    function Now(n: nat): nat
      requires n <= |events|
    {
      Clock(events, start, n)
    }

    /** When something last arrived for the first time, `n` events in. */
    ghost function LastProgress(n: nat): nat
      requires n <= |events|
    {
      if n == 0 then start
      else if FirstArrival(n - 1) then Now(n)
      else LastProgress(n - 1)
    }

    /** A first arrival at `k` does not keep the check waiting past the timeout since the one
        before it. */
    ghost predicate Prompt(k: nat)
      requires k < |events|
    {
      FirstArrival(k) ==> Now(k + 1) <= LastProgress(k) + DELIVERY_TIMEOUT
    }

    /** The first `n` events bring every accepted publish, and none fewer do; each is a proper
        delivery; and every first arrival is prompt, however many redeliveries come between. */
    ghost predicate MainPart(n: nat)
    {
      && n <= |events|
      && (forall k | 0 <= k < n :: Proper(k))
      && Complete(n)
      && (forall k | 0 <= k < n :: !Complete(k))
      && (forall k | 0 <= k < n :: Prompt(k))
    }

    /** The event at `k` is one the quiet period lets pass: any delivery but a refused one's. */
    predicate Harmless(k: nat)
      requires k < |events|
    {
      && events[k].item.Delivery? && !events[k].item.msg.ack.Failed?
      && (Which(k).Some? ==> !sent[Which(k).value].awaited.Refused?)
    }

    /** The event at `k` comes within the quiet period that starts after `n` events. */
    predicate WhileQuiet(n: nat, k: nat)
      requires n <= |events|
    {
      InTime(events, start, k, Now(n) + QUIET_PERIOD)
    }

    /** The quiet period that starts after `n` events reads up to the event at `m`. */
    ghost predicate QuietPart(n: nat, m: nat)
    {
      && n <= m <= |events|
      && (forall k | n <= k < m :: Harmless(k) && WhileQuiet(n, k))
      && !WhileQuiet(n, m)
    }

    ghost predicate Accepted()
    {
      exists n, m :: MainPart(n) && QuietPart(n, m)
    }

    /** Between two points, something arrives for the first time if more has arrived at all. */
    lemma {:induction false} NextFirstArrival(n: nat, end: nat) returns (k: nat)
      requires n < end <= |events| && Complete(end) && !Complete(n)
      ensures n <= k < end && FirstArrival(k) && LastProgress(k) == LastProgress(n)
      decreases end - n
    {
      if FirstArrival(n) {
        k := n;
      } else {
        assert Arrived(n + 1) == Arrived(n);
        k := NextFirstArrival(n + 1, end);
      }
    }

    /** After a read too late for the deadline in force, what then completes the run does so
        with a first arrival that kept the check waiting too long. */
    lemma LateFirstArrival(n: nat, end: nat) returns (k: nat)
      requires n < end <= |events| && Complete(end) && !Complete(n)
      requires !InTime(events, start, n, LastProgress(n) + DELIVERY_TIMEOUT)
      ensures n <= k < end && !Prompt(k)
    {
      k := NextFirstArrival(n, end);
      ClockRises(events, start, n + 1, k + 1);
    }

    lemma TooLateRejects(n: nat)
      requires n <= |events| && !InTime(events, start, n, LastProgress(n) + DELIVERY_TIMEOUT)
      requires forall k | 0 <= k <= n :: !Complete(k)
      ensures !Accepted()
    {
      forall end: nat ensures !MainPart(end) {
        if n < end <= |events| && Complete(end) {
          var k := LateFirstArrival(n, end);
        }
      }
    }

    lemma ImproperRejects(n: nat)
      requires n < |events| && !Proper(n)
      requires forall k | 0 <= k <= n :: !Complete(k)
      ensures !Accepted()
    {
    }

    lemma HarmfulRejects(n: nat, m: nat)
      requires MainPart(n) && n <= m < |events| && !Harmless(m)
      requires forall k | n <= k <= m :: WhileQuiet(n, k)
      ensures !Accepted()
    {
      forall n': nat, m': nat ensures !(MainPart(n') && QuietPart(n', m')) {
        if n' == n && m' <= m {
          assert m' < n || WhileQuiet(n, m');
        }
      }
    }

    /** `n` events into the main loop, all proper and in time, none of them the last needed. */
    ghost predicate Underway(n: nat)
    {
      && n <= |events| && Arrived(n) <= Required()
      && (forall k | 0 <= k < n :: Proper(k) && !Complete(k))
      && (forall k | 0 <= k < n :: Prompt(k))
      && Now(n) <= LastProgress(n) + DELIVERY_TIMEOUT <= start + (|Arrived(n)| + 1) * DELIVERY_TIMEOUT
    }

    /** `arrived` flags the publishes that arrived among the first `n` events. */
    ghost predicate Flags(arrived: seq<bool>, n: nat)
      requires n <= |events|
    {
      |arrived| == |sent| && forall i | 0 <= i < |sent| :: arrived[i] <==> i in Arrived(n)
    }

    /** The main loop's variables after `n` events. */
    ghost predicate Loop(n: nat, arrived: seq<bool>, now: nat, deadline: nat)
    {
      && Underway(n) && Flags(arrived, n) && deadline == LastProgress(n) + DELIVERY_TIMEOUT
      && now == Now(n) <= start + |Required()| * DELIVERY_TIMEOUT
    }

    lemma LoopStart()
      ensures Loop(0, seq(|sent|, _ => false), start, start + DELIVERY_TIMEOUT)
    {
      assert Arrived(0) == {};
    }

    /** One more event read in time moves the deadline only if it is a first arrival. */
    lemma ProgressNext(n: nat)
      requires n < |events| && Which(n).Some?
      ensures LastProgress(n + 1) == if Which(n).value in Arrived(n) then LastProgress(n) else Now(n + 1)
      ensures Arrived(n + 1) == Arrived(n) + {Which(n).value}
      ensures |Arrived(n + 1)| == if Which(n).value in Arrived(n) then |Arrived(n)| else |Arrived(n)| + 1
    {
      if Which(n).value in Arrived(n) {
        assert Arrived(n + 1) == Arrived(n);
      }
    }

    lemma UnderwayNext(n: nat)
      requires Underway(n) && !Complete(n)
      requires InTime(events, start, n, LastProgress(n) + DELIVERY_TIMEOUT) && Proper(n)
      ensures Underway(n + 1)
    {
      ProgressNext(n);
      assert Which(n).value in Required();
      assert Prompt(n);
    }

    lemma LoopNext(n: nat, arrived: seq<bool>, now: nat, deadline: nat)
      requires Loop(n, arrived, now, deadline) && !Complete(n)
      requires n < |events| && Proper(n) && Max(now, events[n].at) <= deadline
      requires deadline <= start + |Required()| * DELIVERY_TIMEOUT
      ensures Which(n).value < |arrived|
      ensures var later := Max(now, events[n].at);
        Loop(n + 1, arrived[Which(n).value := true], later,
             if arrived[Which(n).value] then deadline else later + DELIVERY_TIMEOUT)
    {
      UnderwayNext(n);
      ProgressNext(n);
      var index := Which(n).value;
      assert Flags(arrived[index := true], n + 1);
    }

    /** Where the main loop stands when `missing` has not arrived: its deadline is within the
        bound of the whole loop, and a read past it or an improper delivery rejects the run. */
    lemma StillMissing(n: nat, arrived: seq<bool>, now: nat, deadline: nat, missing: nat)
      requires Loop(n, arrived, now, deadline)
      requires missing < |sent| && !arrived[missing] && !sent[missing].awaited.Refused?
      ensures !Complete(n)
      ensures deadline <= start + |Required()| * DELIVERY_TIMEOUT
      ensures n == |events| || Max(now, events[n].at) > deadline || !Proper(n) ==> !Accepted()
    {
      assert missing in Required() && missing !in Arrived(n);
      SubsetSize(Arrived(n), Required());
      if !InTime(events, start, n, LastProgress(n) + DELIVERY_TIMEOUT) {
        TooLateRejects(n);
      } else if !Proper(n) {
        ImproperRejects(n);
      }
    }

    lemma NothingMissing(n: nat, arrived: seq<bool>, now: nat, deadline: nat)
      requires Loop(n, arrived, now, deadline) && NoneMissing(sent, arrived)
      ensures MainPart(n) && now == Now(n) <= start + |Required()| * DELIVERY_TIMEOUT
    {
      assert Complete(n);
    }
  }

  predicate NoneMissing(sent: seq<Sent>, arrived: seq<bool>)
    requires |sent| == |arrived|
  {
    forall i | 0 <= i < |sent| :: arrived[i] || sent[i].awaited.Refused?
  }

  /** `missing` is an accepted publish not flagged yet, if there is one. */
  ghost predicate IsMissing(sent: seq<Sent>, arrived: seq<bool>, missing: Option<nat>)
    requires |sent| == |arrived|
  {
    if missing.Some? then missing.value < |sent| && !arrived[missing.value] && !sent[missing.value].awaited.Refused?
    else NoneMissing(sent, arrived)
  }

  /** The first accepted publish not flagged yet. */
  method FirstMissing(sent: seq<Sent>, arrived: seq<bool>) returns (r: Option<nat>)
    requires |sent| == |arrived|
    ensures IsMissing(sent, arrived, r)
    ensures r.Some? ==> forall i | 0 <= i < r.value :: arrived[i] || sent[i].awaited.Refused?
  {
    for i := 0 to |sent|
      invariant forall j | 0 <= j < i :: arrived[j] || sent[j].awaited.Refused?
    {
      if !arrived[i] && !sent[i].awaited.Refused? {
        return Some(i);
      }
    }
    r := None;
  }

  /** Every header of a publish against the delivery's own, one after the other. */
  method CheckHeaders(carried: Headers, headers: Headers) returns (ok: bool)
    ensures ok <==> Intact(carried, headers)
  {
    var left := carried.Keys;
    while left != {}
      invariant left <= carried.Keys
      invariant forall name <- carried :: name in left || (name in headers && headers[name] == carried[name])
      decreases |left|
    {
      var name :| name in left;
      if name !in headers || headers[name] != carried[name] {
        return false;
      }
      left := left - {name};
    }
    ok := true;
  }

  /** The event at `n` against what was published. */
  method CheckDelivery(run: Run, n: nat) returns (ok: bool, index: nat)
    requires n < |run.events|
    ensures ok <==> run.Proper(n)
    ensures ok ==> run.Which(n) == Some(index)
  {
    var item := run.events[n].item;
    if !item.Delivery? {
      return false, 0;
    }
    var found := IndexOf(run.sent, item.msg.payload);
    if found.None? {
      return false, 0;
    }
    index := found.value;
    match run.sent[index].awaited {
      case Refused => ok := false;
      case Plain => ok := !item.msg.ack.Failed?;
      case Carrying(headers) =>
        ok := CheckHeaders(headers, item.msg.headers);
        ok := ok && !item.msg.ack.Failed?;
    }
  }

  /** The event at `m` in the quiet period: whatever arrives must be no refused publish. */
  method CheckQuiet(run: Run, m: nat) returns (ok: bool)
    requires m < |run.events|
    ensures ok <==> run.Harmless(m)
  {
    var item := run.events[m].item;
    if !item.Delivery? {
      return false;
    }
    var found := IndexOf(run.sent, item.msg.payload);
    if found.Some? && run.sent[found.value].awaited.Refused? {
      return false;
    }
    ok := !item.msg.ack.Failed?;
  }

  /** One turn of the main loop, while `missing` has not arrived: one more event read, flagged
      and settled, or the check fails. */
  method AwaitOne(run: Run, n: nat, arrived: seq<bool>, now: nat, deadline: nat, ghost missing: nat)
    returns (read: bool, flagged: seq<bool>, later: nat, extended: nat)
    requires run.Loop(n, arrived, now, deadline)
    requires missing < |run.sent| && !arrived[missing] && !run.sent[missing].awaited.Refused?
    ensures read ==> n < |run.events| && run.Loop(n + 1, flagged, later, extended)
    ensures !read ==> !run.Accepted() && later <= run.start + |run.Required()| * DELIVERY_TIMEOUT
  {
    var events := run.events;
    run.StillMissing(n, arrived, now, deadline, missing);
    if n == |events| || Max(now, events[n].at) > deadline {
      return false, arrived, deadline, deadline;
    }
    later := Max(now, events[n].at);
    var ok, index := CheckDelivery(run, n);
    if !ok {
      return false, arrived, later, deadline;
    }
    run.LoopNext(n, arrived, now, deadline);
    read, flagged := true, arrived[index := true];
    extended := if arrived[index] then deadline else later + DELIVERY_TIMEOUT;
  }

  /** The main loop of `receive_every_shape`: it reads a main part to its end, or nothing makes
      the run acceptable; either way within one timeout per required message. */
  method AwaitEveryShape(run: Run) returns (complete: bool, n: nat, now: nat)
    ensures complete ==> run.MainPart(n) && now == run.Now(n)
    ensures !complete ==> !run.Accepted()
    ensures now <= run.start + |run.Required()| * DELIVERY_TIMEOUT
  {
    var arrived := seq(|run.sent|, _ => false);
    var deadline: nat := run.start + DELIVERY_TIMEOUT;
    n, now := 0, run.start;
    run.LoopStart();
    var missing: Option<nat> := FirstMissing(run.sent, arrived);
    while missing.Some?
      invariant n <= |run.events| && |arrived| == |run.sent| && run.Loop(n, arrived, now, deadline)
      invariant IsMissing(run.sent, arrived, missing)
      decreases |run.events| - n
    {
      var read;
      read, arrived, now, deadline := AwaitOne(run, n, arrived, now, deadline, missing.value);
      if !read {
        return false, n, now;
      }
      n := n + 1;
      missing := FirstMissing(run.sent, arrived);
    }
    run.NothingMissing(n, arrived, now, deadline);
    complete := true;
  }

  /** `receive_every_shape`: it accepts exactly the runs the specification accepts. */
  method ReceiveEveryShape(run: Run) returns (accepted: bool)
    ensures accepted <==> run.Accepted()
  {
    var complete, n, now := AwaitEveryShape(run);
    if !complete {
      return false;
    }
    var events, until, m := run.events, now + QUIET_PERIOD, n;
    while m < |events| && Max(now, events[m].at) <= until
      invariant n <= m <= |events| && now == run.Now(m)
      invariant forall k | n <= k < m :: run.Harmless(k) && run.WhileQuiet(n, k)
    {
      var ok := CheckQuiet(run, m);
      if !ok {
        run.HarmfulRejects(n, m);
        return false;
      }
      now, m := Max(now, events[m].at), m + 1;
    }
    assert run.QuietPart(n, m);
    accepted := true;
  }
}
