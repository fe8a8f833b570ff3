/** The redelivery-address check (crates/conformance/src/retry.rs): a retry copy published to the
    reported address reaches the subscription as a plain publish does, keeps its headers and is
    counted across requeues. Two readers of the one subscription are read as one stream. */
module Redelivery {
  import opened Prelude
  import opened Timed

  const ARRIVAL_TIMEOUT: nat := 10_000
  const QUIET: nat := 500
  const EXTRA_DELIVERIES: nat := 8
  const REQUEUES: nat := 2
  const CONTROL := "control"
  const COPY := "copy"
  const COPY_HEADER_VALUE := "retry"
  const FIRST_COPY_COUNT := "1"
  const FIRST_COPY_RETRIES: nat := 1

  type Reader = r: nat | r < 2

  /** A delivery: the reader it came through, what it carries, the count it reports, whether the
      broker delays natively, and what settling it answers. */
  datatype Received = Received(reader: Reader, payload: string, copyHeader: Option<string>, retryCount: Option<string>,
                               count: Option<nat>, native: bool, ack: Answer, nack: Answer)

  /** Every event before `end`, but those in `open`, got exactly one settlement call. */
  ghost predicate SettledOnce(settled: seq<nat>, end: nat, open: set<nat>)
  {
    Distinct(settled) && forall k: nat :: k in settled <==> k < end && k !in open
  }

  lemma SettleNext(settled: seq<nat>, end: nat, open: set<nat>)
    requires SettledOnce(settled, end, open) && end !in open
    ensures SettledOnce(settled + [end], end + 1, open)
  {
  }

  lemma SettleOpen(settled: seq<nat>, end: nat, h: nat)
    requires SettledOnce(settled, end, {h}) && h < end
    ensures SettledOnce(settled + [h], end, {})
  {
  }

  datatype Run = Run(events: Trace<Received>, start: nat) {

    predicate IsControl(n: nat)
      requires n < |events|
    {
      events[n].item.Delivery? && events[n].item.msg.payload == CONTROL
    }

    predicate IsCopy(n: nat)
      requires n < |events|
    {
      events[n].item.Delivery? && events[n].item.msg.payload == COPY
    }

    function Controls(n: nat, reader: Reader): nat
      requires n <= |events|
    {
      if n == 0 then 0
      else Controls(n - 1, reader) + if IsControl(n - 1) && events[n - 1].item.msg.reader == reader then 1 else 0
    }

    function Copies(n: nat, reader: Reader): nat
      requires n <= |events|
    {
      if n == 0 then 0
      else Copies(n - 1, reader) + if IsCopy(n - 1) && events[n - 1].item.msg.reader == reader then 1 else 0
    }

    function ControlTotal(n: nat): nat
      requires n <= |events|
    {
      Controls(n, 0) + Controls(n, 1)
    }

    function CopyTotal(n: nat): nat
      requires n <= |events|
    {
      Copies(n, 0) + Copies(n, 1)
    }

    /** A copy carries both headers it was published with. */
    predicate Intact(n: nat)
      requires n < |events| && events[n].item.Delivery?
    {
      events[n].item.msg.copyHeader == Some(COPY_HEADER_VALUE)
        && events[n].item.msg.retryCount == Some(FIRST_COPY_COUNT)
    }

    /** `Seen::take` goes on from the event at `n`: the control, or an intact copy; all but the
        first copy are settled. */
    predicate Takeable(n: nat)
      requires n < |events|
    {
      || (IsControl(n) && !events[n].item.msg.ack.Failed?)
      || (IsCopy(n) && Intact(n) && (CopyTotal(n) == 0 || !events[n].item.msg.ack.Failed?))
    }

    /** The arrival wait reads the event at `n`. */
    predicate Awaits(n: nat)
      requires n < |events|
    {
      (ControlTotal(n) == 0 || CopyTotal(n) == 0) && ClockFrom(events, 0, start, n + 1) <= start + ARRIVAL_TIMEOUT
    }

    predicate Gathered(n: nat)
      requires n < |events|
    {
      Awaits(n) && Takeable(n)
    }

    /** The first `n` events bring the control and the copy, and none fewer do. */
    ghost predicate Gathers(n: nat)
    {
      && n <= |events| && (forall k | 0 <= k < n :: Gathered(k))
      && ControlTotal(n) > 0 && CopyTotal(n) > 0
    }

    /** The event at `n` comes within the quiet window after the one before it. */
    predicate StillComing(n: nat)
    {
      n < |events| && ClockFrom(events, 0, start, n + 1) <= ClockFrom(events, 0, start, n) + QUIET
    }

    predicate Lingering(n: nat)
      requires n < |events|
    {
      StillComing(n) && Takeable(n)
    }

    /** After `g` events the check reads on to the event at `e`: until a quiet window, or the
        limit of extra deliveries. */
    ghost predicate Lingers(g: nat, e: nat)
    {
      && g <= e <= g + EXTRA_DELIVERIES && e <= |events| && (forall k | g <= k < e :: Lingering(k))
      && (e == g + EXTRA_DELIVERIES || !StillComing(e))
    }

    /** Each reader saw the control and the copy at most once, and as many saw one as the other. */
    predicate OncePerGroup(n: nat)
      requires n <= |events|
    {
      && Controls(n, 0) <= 1 && Controls(n, 1) <= 1 && Copies(n, 0) <= 1 && Copies(n, 1) <= 1
      && CopyTotal(n) == ControlTotal(n)
    }

    /** The event at `k` is the control come again, read and settled on the way to the copy. */
    predicate PassedOver(pos: nat, now: nat, k: nat)
      requires pos <= k < |events|
    {
      IsControl(k) && !events[k].item.msg.ack.Failed? && ClockFrom(events, pos, now, k + 1) <= now + ARRIVAL_TIMEOUT
    }

    /** The next copy after `pos` is at `c`. */
    ghost predicate NextCopyAt(pos: nat, now: nat, c: nat)
    {
      && pos <= c < pos + EXTRA_DELIVERIES && c < |events|
      && (forall k | pos <= k < c :: PassedOver(pos, now, k))
      && IsCopy(c) && ClockFrom(events, pos, now, c + 1) <= now + ARRIVAL_TIMEOUT
    }

    predicate CountIs(n: nat, expected: nat)
      requires n < |events| && events[n].item.Delivery?
    {
      events[n].item.msg.count.Some? ==> events[n].item.msg.count.value == expected
    }

    /** The copy at `h` is its delivery number `i` past the first: it reports that count, and is
        either settled for good, or ends the cycle unsupported, or is requeued and comes back. */
    ghost predicate Requeues(pos: nat, now: nat, h: nat, first: nat, i: nat)
      requires h < pos <= |events| && events[h].item.Delivery? && i <= REQUEUES
      decreases REQUEUES - i
    {
      && CountIs(h, first + i)
      && if i == REQUEUES then !events[h].item.msg.ack.Failed?
         else match events[h].item.msg.nack
           case Failed => false
           case Unsupported => true
           case Settled => exists c :: ComesBack(pos, now, first, i, c)
    }

    ghost predicate ComesBack(pos: nat, now: nat, first: nat, i: nat, c: nat)
      requires pos <= |events| && i < REQUEUES
      decreases REQUEUES - i, 0
    {
      NextCopyAt(pos, now, c) && Intact(c) && Requeues(c + 1, ClockFrom(events, pos, now, c + 1), c, first, i + 1)
    }

    /** The index of the first copy among `n` events that hold one. */
    function FirstCopy(n: nat): (h: nat)
      requires n <= |events| && CopyTotal(n) > 0
      ensures h < n && IsCopy(h) && CopyTotal(h) == 0
    {
      if CopyTotal(n - 1) > 0 then FirstCopy(n - 1) else n - 1
    }

    function FirstCount(h: nat): nat
      requires h < |events| && events[h].item.Delivery?
    {
      if events[h].item.msg.native then 1 else 1 + FIRST_COPY_RETRIES
    }

    /** The requeue cycle starts once the quiet window is over. */
    ghost predicate AcceptedVia(g: nat, e: nat)
    {
      && Gathers(g) && Lingers(g, e) && OncePerGroup(e) && CopyTotal(e) > 0
      && Requeues(e, ClockFrom(events, 0, start, e) + QUIET, FirstCopy(e), FirstCount(FirstCopy(e)), 0)
    }

    ghost predicate Accepted()
    {
      exists g, e :: AcceptedVia(g, e)
    }

    ghost predicate PassedUpTo(pos: nat, now: nat, n: nat)
    {
      pos <= n <= |events| && forall k | pos <= k < n :: PassedOver(pos, now, k)
    }

    // What the phases determine

    lemma PassedOverIsNoCopy(pos: nat, now: nat, n: nat, c: nat)
      requires PassedUpTo(pos, now, n) && c < n
      ensures !NextCopyAt(pos, now, c)
    {
      if pos <= c {
        assert PassedOver(pos, now, c);
      }
    }

    lemma NoNextCopy(pos: nat, now: nat, n: nat)
      requires PassedUpTo(pos, now, n) && !NextCopyAt(pos, now, n)
      requires n == |events| || n >= pos + EXTRA_DELIVERIES || !PassedOver(pos, now, n)
      ensures forall c: nat :: !NextCopyAt(pos, now, c)
    {
      forall c: nat ensures !NextCopyAt(pos, now, c) {
        if c < n {
          PassedOverIsNoCopy(pos, now, n, c);
        }
      }
    }

    /** A requeued copy's cycle goes on with the copy that comes back, which the trace decides. */
    lemma RequeuesStep(pos: nat, now: nat, h: nat, first: nat, i: nat, c: nat)
      requires h < pos <= |events| && events[h].item.Delivery? && i < REQUEUES
      requires CountIs(h, first + i) && events[h].item.msg.nack.Settled? && NextCopyAt(pos, now, c)
      ensures Requeues(pos, now, h, first, i) <==> ComesBack(pos, now, first, i, c)
    {
      forall d: nat | d != c ensures !ComesBack(pos, now, first, i, d) {
        if d < c {
          PassedOverIsNoCopy(pos, now, c, d);
        } else {
          assert !PassedOver(pos, now, c);
        }
      }
    }

    lemma {:induction false} TotalsRise(m: nat, n: nat)
      requires m <= n <= |events|
      ensures ControlTotal(m) <= ControlTotal(n) && CopyTotal(m) <= CopyTotal(n)
    {
      if m < n {
        TotalsRise(m, n - 1);
      }
    }

    /** What was taken is the controls and the copies. */
    lemma {:induction false} TotalsAreAll(n: nat)
      requires n <= |events| && forall k | 0 <= k < n :: Takeable(k)
      ensures ControlTotal(n) + CopyTotal(n) == n
    {
      if n > 0 {
        TotalsAreAll(n - 1);
        assert Takeable(n - 1);
      }
    }

    ghost predicate TakeableUpTo(n: nat)
    {
      n <= |events| && forall k | 0 <= k < n :: Takeable(k)
    }

    ghost predicate GatheredUpTo(n: nat)
    {
      n <= |events| && forall k | 0 <= k < n :: Gathered(k)
    }

    /** `g` events were gathered and those after them, up to `e`, taken while they kept coming. */
    ghost predicate LingeringUpTo(g: nat, e: nat)
    {
      && GatheredUpTo(g) && ControlTotal(g) > 0 && CopyTotal(g) > 0
      && g <= e <= g + EXTRA_DELIVERIES && e <= |events| && forall k | g <= k < e :: Lingering(k)
    }

    /** The gathering ends where it first can. */
    lemma GatheringGoesOn(m: nat, n: nat)
      requires GatheredUpTo(n) && m < n
      ensures !Gathers(m)
    {
      assert Gathered(m);
    }

    lemma GatherStops(n: nat)
      requires GatheredUpTo(n) && (ControlTotal(n) == 0 || CopyTotal(n) == 0)
      requires n == |events| || !Gathered(n)
      ensures !Accepted()
    {
      forall g: nat ensures !Gathers(g) {
        if g < n {
          assert Gathered(g);
        }
      }
    }

    lemma LingerStops(g: nat, n: nat)
      requires LingeringUpTo(g, n) && n < |events| && n < g + EXTRA_DELIVERIES && StillComing(n) && !Takeable(n)
      ensures !Accepted()
    {
      forall g': nat, e: nat ensures !(Gathers(g') && Lingers(g', e)) {
        if g' < g {
          GatheringGoesOn(g', g);
        } else if g < g' {
          assert !Gathered(g);
        } else if g <= e < n {
          assert Lingering(e);
        } else {
          assert !Lingering(n);
        }
      }
    }

    /** A delivery that reports `expected`, where it reports a count. */
    predicate Reports(k: nat, expected: nat)
    {
      k < |events| && events[k].item.Delivery? && CountIs(k, expected)
    }

    /** The copy at `m` comes again at `k`, with both headers. */
    predicate ComesAgain(m: nat, k: nat)
    {
      m < k < |events| && IsCopy(k) && Intact(k)
    }

    predicate Unsupported(k: nat)
    {
      k < |events| && events[k].item.Delivery? && events[k].item.msg.nack.Unsupported?
    }

    predicate Requeued(k: nat)
    {
      k < |events| && events[k].item.Delivery? && events[k].item.msg.nack.Settled?
    }

    predicate Acked(k: nat)
    {
      k < |events| && events[k].item.Delivery? && !events[k].item.msg.ack.Failed?
    }

    /** Deliveries of one copy, each further than the one before by one. */
    ghost predicate Rising(copies: seq<nat>, first: nat)
    {
      && (forall j | 0 <= j < |copies| :: Reports(copies[j], first + j))
      && (forall j | 0 < j < |copies| :: ComesAgain(copies[j - 1], copies[j]))
    }

    lemma RisesFurther(h: nat, copies: seq<nat>, first: nat)
      requires copies != [] && Reports(h, first) && ComesAgain(h, copies[0]) && Rising(copies, first + 1)
      ensures Rising([h] + copies, first)
    {
      var all := [h] + copies;
      forall j | 0 <= j < |all| ensures Reports(all[j], first + j) {
        assert j > 0 ==> Reports(copies[j - 1], first + 1 + (j - 1));
      }
      forall j | 0 < j < |all| ensures ComesAgain(all[j - 1], all[j]) {
        assert j > 1 ==> ComesAgain(copies[j - 2], copies[j - 1]);
      }
    }

    /** The deliveries of the copy across the requeues, and what they report: each one further
        than the one before by one, with both headers, until the copy is settled for good. */
    lemma {:induction false} CountsRise(pos: nat, now: nat, h: nat, first: nat, i: nat) returns (copies: seq<nat>)
      requires h < pos <= |events| && events[h].item.Delivery? && i <= REQUEUES
      requires Requeues(pos, now, h, first, i)
      ensures 1 <= |copies| <= REQUEUES - i + 1 && copies[0] == h && Rising(copies, first + i)
      ensures |copies| <= REQUEUES - i ==> Unsupported(copies[|copies| - 1])
      ensures |copies| == REQUEUES - i + 1 ==> Acked(copies[|copies| - 1])
      ensures forall j | 0 <= j < |copies| - 1 :: Requeued(copies[j])
      decreases REQUEUES - i
    {
      assert Reports(h, first + i);
      if i < REQUEUES && events[h].item.msg.nack.Settled? {
        var c: nat :| ComesBack(pos, now, first, i, c);
        var rest := CountsRise(c + 1, ClockFrom(events, pos, now, c + 1), c, first, i + 1);
        RisesFurther(h, rest, first + i);
        copies := [h] + rest;
        assert forall j | 0 < j < |copies| :: copies[j] == rest[j - 1];
      } else {
        copies := [h];
      }
    }

    lemma TakenUpToQuiet(g: nat, e: nat)
      requires Gathers(g) && Lingers(g, e)
      ensures TakeableUpTo(e)
    {
      forall k | 0 <= k < e ensures Takeable(k) {
        assert if k < g then Gathered(k) else Lingering(k);
      }
    }

    /** What acceptance means: up to the quiet window each reader saw the control and the copy at
        most once and as many saw one as the other, at least one; then the copy's deliveries
        report counts that rise by one, from the first copy until it is settled for good. */
    lemma AcceptedMeans() returns (e: nat, copies: seq<nat>)
      requires Accepted()
      ensures e <= |events| && OncePerGroup(e) && ControlTotal(e) == CopyTotal(e) >= 1
      ensures 1 <= |copies| <= REQUEUES + 1 && copies[0] == FirstCopy(e) && Rising(copies, FirstCount(FirstCopy(e)))
      ensures |copies| <= REQUEUES ==> Unsupported(copies[|copies| - 1])
      ensures |copies| == REQUEUES + 1 ==> Acked(copies[|copies| - 1])
      ensures forall j | 0 <= j < |copies| - 1 :: Requeued(copies[j])
      ensures TakeableUpTo(e)
    {
      var g, end :| AcceptedVia(g, end);
      e := end;
      TakenUpToQuiet(g, e);
      copies := CountsRise(e, ClockFrom(events, 0, start, e) + QUIET, FirstCopy(e), FirstCount(FirstCopy(e)), 0);
    }

    // The same by the deliveries alone

    predicate Carries(k: nat, payload: string)
    {
      k < |events| && events[k].item.Delivery? && events[k].item.msg.payload == payload
    }

    function DeliveriesOf(n: nat, payload: string): nat
      requires n <= |events|
    {
      if n == 0 then 0 else DeliveriesOf(n - 1, payload) + if Carries(n - 1, payload) then 1 else 0
    }

    /** The control, or the copy with both headers it was published with. */
    predicate Published(k: nat)
    {
      || Carries(k, "control")
      || (Carries(k, "copy") && events[k].item.msg.copyHeader == Some("retry")
          && events[k].item.msg.retryCount == Some("1"))
    }

    /** The same message through the same reader. */
    predicate Repeats(a: nat, b: nat)
    {
      && a < b < |events| && events[a].item.Delivery? && events[b].item.Delivery?
      && events[a].item.msg.payload == events[b].item.msg.payload
      && events[a].item.msg.reader == events[b].item.msg.reader
    }

    /** The copy, reporting `expected` where it reports a count. */
    predicate CopyCounted(k: nat, expected: nat)
    {
      Carries(k, "copy") && (events[k].item.msg.count.Some? ==> events[k].item.msg.count.value == expected)
    }

    lemma {:induction false} TotalsByPayload(n: nat)
      requires n <= |events|
      ensures ControlTotal(n) == DeliveriesOf(n, "control") && CopyTotal(n) == DeliveriesOf(n, "copy")
    {
      if n > 0 {
        TotalsByPayload(n - 1);
      }
    }

    lemma {:induction false} RepeatsCount(n: nat, a: nat, b: nat)
      requires Repeats(a, b) && b < n <= |events| && Published(a)
      ensures
        var reader := events[a].item.msg.reader;
        if IsControl(a) then Controls(n, reader) >= 2 else Copies(n, reader) >= 2
    {
      if n - 1 > b {
        RepeatsCount(n - 1, a, b);
      } else {
        OneCounts(b, a);
      }
    }

    lemma {:induction false} OneCounts(n: nat, a: nat)
      requires a < n <= |events| && Published(a)
      ensures
        var reader := events[a].item.msg.reader;
        if IsControl(a) then Controls(n, reader) >= 1 else Copies(n, reader) >= 1
    {
      if n - 1 > a {
        OneCounts(n - 1, a);
      }
    }

    /** Only the control and intact copies, none twice through one reader. */
    ghost predicate OnceEach(e: nat)
    {
      && e <= |events| && (forall k | 0 <= k < e :: Published(k))
      && (forall a, b | 0 <= a < b < e :: !Repeats(a, b))
    }

    lemma TakenOnceEach(e: nat)
      requires TakeableUpTo(e) && OncePerGroup(e)
      ensures OnceEach(e)
    {
      forall k | 0 <= k < e ensures Published(k) {
        assert Takeable(k);
      }
      forall a, b | 0 <= a < b < e ensures !Repeats(a, b) {
        if Repeats(a, b) {
          RepeatsCount(e, a, b);
        }
      }
    }

    lemma FirstCopyIsFirst(e: nat)
      requires TakeableUpTo(e) && CopyTotal(e) > 0
      ensures Carries(FirstCopy(e), "copy") && forall k | 0 <= k < FirstCopy(e) :: !Carries(k, "copy")
    {
      forall k | 0 <= k < FirstCopy(e) ensures !Carries(k, "copy") {
        assert Takeable(k);
        if Carries(k, "copy") {
          OneCounts(FirstCopy(e), k);
        }
      }
    }

    /** Deliveries of the copy, in order and intact, whose counts go up from `first`. */
    ghost predicate CountsUp(copies: seq<nat>, first: nat)
    {
      && (forall j | 0 <= j < |copies| :: CopyCounted(copies[j], j + first))
      && (forall j | 0 < j < |copies| :: copies[j - 1] < copies[j] && Published(copies[j]))
    }

    lemma RisingCountsUp(copies: seq<nat>, first: nat)
      requires copies != [] && Carries(copies[0], "copy") && Rising(copies, first)
      ensures CountsUp(copies, first)
    {
      forall j | 0 <= j < |copies| ensures CopyCounted(copies[j], j + first) {
        assert Reports(copies[j], first + j);
        assert j > 0 ==> ComesAgain(copies[j - 1], copies[j]);
      }
      forall j | 0 < j < |copies| ensures copies[j - 1] < copies[j] && Published(copies[j]) {
        assert ComesAgain(copies[j - 1], copies[j]);
      }
    }

    /** On an accepted run, by the deliveries alone: up to quiet only the control and intact copies
        come, none twice through one reader, as many of one as of the other and at least one. From
        the first copy on the deliveries of the copy count up from one, or from two where the broker
        does not delay natively; all but the last are requeued, and the last is settled for good
        unless requeueing is unsupported. */
    lemma AcceptedByDeliveries() returns (e: nat, copies: seq<nat>)
      requires Accepted()
      ensures OnceEach(e) && DeliveriesOf(e, "control") == DeliveriesOf(e, "copy") >= 1
      ensures 1 <= |copies| <= 3 && copies[0] < e && Carries(copies[0], "copy")
      ensures forall k | 0 <= k < copies[0] :: !Carries(k, "copy")
      ensures CountsUp(copies, if events[copies[0]].item.msg.native then 1 else 2)
      ensures forall j | 0 <= j < |copies| - 1 :: Requeued(copies[j])
      ensures if |copies| == 3 then Acked(copies[2]) else Unsupported(copies[|copies| - 1])
    {
      e, copies := AcceptedMeans();
      TakenOnceEach(e);
      TotalsByPayload(e);
      FirstCopyIsFirst(e);
      RisingCountsUp(copies, FirstCount(FirstCopy(e)));
    }

    /** Where the phases end is decided by the trace, so acceptance is what follows from there. */
    lemma PhasesDecide(g: nat, e: nat)
      requires Gathers(g) && Lingers(g, e)
      ensures Accepted() <==> AcceptedVia(g, e)
    {
      forall g': nat, e': nat | g' != g || e' != e ensures !(Gathers(g') && Lingers(g', e')) {
        if g' < g {
          GatheringGoesOn(g', g);
        } else if g < g' {
          assert g == |events| || !Gathered(g);
        } else if g <= e' < e {
          assert Lingering(e');
        } else {
          assert e == g + EXTRA_DELIVERIES || e == |events| || !Lingering(e);
        }
      }
    }

    lemma GatherDone(g: nat, e: nat)
      requires LingeringUpTo(g, e) && (e == g + EXTRA_DELIVERIES || !StillComing(e))
      ensures Gathers(g) && Lingers(g, e) && TakeableUpTo(e) && CopyTotal(e) > 0
    {
      TotalsRise(g, e);
      forall k | 0 <= k < e ensures Takeable(k) {
        assert if k < g then Gathered(k) else Lingering(k);
      }
    }

    /** Once per group, at most four deliveries were read, so the wait after them was quiet. */
    lemma OncePerGroupIsFew(n: nat)
      requires TakeableUpTo(n) && OncePerGroup(n)
      ensures n <= 4
    {
      TotalsAreAll(n);
    }
  }

  lemma SettleSkip(settled: seq<nat>, end: nat)
    requires SettledOnce(settled, end, {})
    ensures SettledOnce(settled, end + 1, {end})
  {
  }

  /** What the two readers received, the first copy kept unsettled, and the settlement calls made,
      by event. */
  class Seen {
    var control: seq<nat>
    var copies: seq<nat>
    var held: Option<nat>
    var settled: seq<nat>

    ghost predicate Matches(run: Run, n: nat)
      reads this
    {
      && n <= |run.events|
      && control == [run.Controls(n, 0), run.Controls(n, 1)]
      && copies == [run.Copies(n, 0), run.Copies(n, 1)]
      && held == (if run.CopyTotal(n) > 0 then Some(run.FirstCopy(n)) else None)
      && SettledOnce(settled, n, if held.Some? then {held.value} else {})
    }

    constructor (run: Run)
      ensures Matches(run, 0)
    {
      control, copies, held, settled := [0, 0], [0, 0], None, [];
    }

    method Take(run: Run, n: nat) returns (ok: bool)
      requires Matches(run, n) && n < |run.events|
      modifies this
      ensures ok <==> run.Takeable(n)
      ensures ok ==> Matches(run, n + 1)
    {
      var item := run.events[n].item;
      if !item.Delivery? {
        return false;
      }
      var reader := item.msg.reader;
      if item.msg.payload == CONTROL {
        control := control[reader := control[reader] + 1];
      } else if item.msg.payload == COPY && item.msg.copyHeader == Some(COPY_HEADER_VALUE)
        && item.msg.retryCount == Some(FIRST_COPY_COUNT)
      {
        copies := copies[reader := copies[reader] + 1];
        if held.None? {
          SettleSkip(settled, n);
          held := Some(n);
          return true;
        }
      } else {
        return false;
      }
      SettleNext(settled, n, if held.Some? then {held.value} else {});
      settled := settled + [n];
      ok := !item.msg.ack.Failed?;
    }
  }

  /** The loop that waits for the control and the copy. */
  method Arrive(run: Run, seen: Seen) returns (ok: bool, g: nat, now: nat)
    requires seen.Matches(run, 0)
    modifies seen
    ensures ok ==> seen.Matches(run, g) && run.LingeringUpTo(g, g) && now == ClockFrom(run.events, 0, run.start, g)
    ensures !ok ==> !run.Accepted()
  {
    g, now := 0, run.start;
    while seen.control[0] + seen.control[1] == 0 || seen.copies[0] + seen.copies[1] == 0
      invariant seen.Matches(run, g) && run.GatheredUpTo(g) && now == ClockFrom(run.events, 0, run.start, g)
      decreases |run.events| - g
    {
      if g == |run.events| || Max(now, run.events[g].at) > run.start + ARRIVAL_TIMEOUT {
        run.GatherStops(g);
        return false, g, now;
      }
      ok := seen.Take(run, g);
      if !ok {
        run.GatherStops(g);
        return false, g, now;
      }
      now, g := Max(now, run.events[g].at), g + 1;
    }
    ok := true;
  }

  /** Whether something more comes before the quiet window is over. */
  predicate More(run: Run, extra: nat, now: nat, e: nat)
  {
    extra < EXTRA_DELIVERIES && e < |run.events| && Max(now, run.events[e].at) <= now + QUIET
  }

  /** One turn of the loop that waits for what else comes. */
  method LingerOnce(run: Run, seen: Seen, ghost g: nat, e: nat, extra: nat, now: nat) returns (ok: bool, later: nat)
    requires seen.Matches(run, e) && run.LingeringUpTo(g, e) && now == ClockFrom(run.events, 0, run.start, e)
    requires e == g + extra && More(run, extra, now, e)
    modifies seen
    ensures ok ==> seen.Matches(run, e + 1) && run.LingeringUpTo(g, e + 1)
    ensures ok ==> later == ClockFrom(run.events, 0, run.start, e + 1)
    ensures !ok ==> !run.Accepted()
  {
    ok := seen.Take(run, e);
    later := Max(now, run.events[e].at);
    if !ok {
      run.LingerStops(g, e);
    }
  }

  /** The two loops that gather the control and the copy and wait for what else comes. */
  method Gather(run: Run, seen: Seen) returns (ok: bool, ghost g: nat, e: nat, now: nat)
    requires seen.Matches(run, 0)
    modifies seen
    ensures ok ==> run.Gathers(g) && run.Lingers(g, e) && run.TakeableUpTo(e)
    ensures ok ==> seen.Matches(run, e) && run.CopyTotal(e) > 0
    ensures ok ==> now == ClockFrom(run.events, 0, run.start, e) + if e < g + EXTRA_DELIVERIES then QUIET else 0
    ensures !ok ==> !run.Accepted()
  {
    ok, e, now := Arrive(run, seen);
    g := e;
    if !ok {
      return;
    }
    var extra := 0;
    while More(run, extra, now, e)
      invariant e == g + extra && seen.Matches(run, e) && run.LingeringUpTo(g, e)
      invariant now == ClockFrom(run.events, 0, run.start, e)
      decreases |run.events| - e
    {
      ok, now := LingerOnce(run, seen, g, e, extra, now);
      if !ok {
        return;
      }
      e, extra := e + 1, extra + 1;
    }
    if extra < EXTRA_DELIVERIES {
      now := now + QUIET;
    }
    run.GatherDone(g, e);
  }

  /** `next_copy`: the controls that come again are settled on the way to the copy. */
  method NextCopy(run: Run, pos: nat, now: nat, settled: seq<nat>)
    returns (found: bool, c: nat, later: nat, log: seq<nat>)
    requires pos <= |run.events| && SettledOnce(settled, pos, {})
    ensures found ==> run.NextCopyAt(pos, now, c) && SettledOnce(log, c, {})
    ensures found ==> later == ClockFrom(run.events, pos, now, c + 1)
    ensures !found ==> forall d: nat :: !run.NextCopyAt(pos, now, d)
  {
    c, later, log := pos, now, settled;
    while c < pos + EXTRA_DELIVERIES
      invariant c <= pos + EXTRA_DELIVERIES && run.PassedUpTo(pos, now, c)
      invariant later == ClockFrom(run.events, pos, now, c) && SettledOnce(log, c, {})
      decreases pos + EXTRA_DELIVERIES - c
    {
      if c == |run.events| || Max(later, run.events[c].at) > now + ARRIVAL_TIMEOUT {
        run.NoNextCopy(pos, now, c);
        return false, c, later, log;
      }
      later := Max(later, run.events[c].at);
      var item := run.events[c].item;
      if item.Delivery? && item.msg.payload == COPY {
        return true, c, later, log;
      }
      if !item.Delivery? || item.msg.payload != CONTROL || item.msg.ack.Failed? {
        run.NoNextCopy(pos, now, c);
        return false, c, later, log;
      }
      SettleNext(log, c, {});
      assert run.PassedOver(pos, now, c);
      log, c := log + [c], c + 1;
    }
    run.NoNextCopy(pos, now, c);
    found := false;
  }

  /** `count_across_requeues`: the held copy is requeued and read back, each time one delivery
      further; every delivery read is settled once, the copy by its requeue or its final ack. */
  method CountAcrossRequeues(run: Run, held: nat, pos: nat, now: nat, settled: seq<nat>)
    returns (ok: bool, end: nat, log: seq<nat>)
    requires held < pos <= |run.events| && run.events[held].item.Delivery? && SettledOnce(settled, pos, {held})
    ensures ok <==> run.Requeues(pos, now, held, run.FirstCount(held), 0)
    ensures ok ==> SettledOnce(log, end, {}) && end <= pos + REQUEUES * EXTRA_DELIVERIES
  {
    var copy := run.events[held].item.msg;
    var first := if copy.native then 1 else 1 + FIRST_COPY_RETRIES;
    var h: nat, at: nat, clock: nat := held, pos, now;
    log, end := settled, pos;
    if copy.count.Some? && copy.count.value != first {
      return false, end, log;
    }
    for i := 0 to REQUEUES
      invariant h < at == end <= |run.events| && at <= pos + i * EXTRA_DELIVERIES
      invariant run.events[h].item.Delivery? && run.CountIs(h, first + i) && SettledOnce(log, at, {h})
      invariant run.Requeues(at, clock, h, first, i) <==> run.Requeues(pos, now, held, first, 0)
    {
      var nack := run.events[h].item.msg.nack;
      SettleOpen(log, at, h);
      log := log + [h];
      if !nack.Settled? {
        return nack.Unsupported?, end, log;
      }
      var found, c, later, after := NextCopy(run, at, clock, log);
      if !found {
        return false, end, log;
      }
      run.RequeuesStep(at, clock, h, first, i, c);
      copy := run.events[c].item.msg;
      if copy.copyHeader != Some(COPY_HEADER_VALUE) || copy.retryCount != Some(FIRST_COPY_COUNT)
        || (copy.count.Some? && copy.count.value != first + i + 1)
      {
        return false, end, log;
      }
      SettleSkip(after, c);
      h, at, clock, end, log := c, c + 1, later, c + 1, after;
    }
    SettleOpen(log, at, h);
    log := log + [h];
    ok := !run.events[h].item.msg.ack.Failed?;
  }

  /** `redelivery_address` from its first delivery on. It accepts exactly the traces of the
      specification; on every accepting run each delivery read got exactly one settlement call,
      and no more were read than four and the redeliveries' allowance. */
  method RedeliveryAddress(run: Run) returns (accepted: bool, end: nat, log: seq<nat>)
    ensures accepted <==> run.Accepted()
    ensures accepted ==> SettledOnce(log, end, {}) && end <= 4 + REQUEUES * EXTRA_DELIVERIES
  {
    var seen := new Seen(run);
    var ok, g, e, now := Gather(run, seen);
    end, log := e, seen.settled;
    if !ok {
      return false, end, log;
    }
    run.PhasesDecide(g, e);
    if !(seen.control[0] <= 1 && seen.control[1] <= 1 && seen.copies[0] <= 1 && seen.copies[1] <= 1)
       || seen.copies[0] + seen.copies[1] != seen.control[0] + seen.control[1]
    {
      return false, end, log;
    }
    run.OncePerGroupIsFew(e);
    accepted, end, log := CountAcrossRequeues(run, seen.held.value, e, now, seen.settled);
  }
}
