/** The unsettled-delivery check (crates/conformance/src/settlement.rs): what was released without
    a settlement comes back, on the subscription, on it opened again or on a new connection. */
module Settlement {
  import opened Prelude
  import opened Timed

  datatype Received = Received(payload: string, ack: Answer)

  /** One collection: the deliveries of a subscription opened at `start` and read `within`. */
  datatype Phase = Phase(events: Trace<Received>, start: nat, within: nat) {

    predicate InWindow(n: nat)
    {
      InTime(events, start, n, start + within)
    }

    /** The payloads among the first `n` events. */
    function Payloads(n: nat): multiset<string>
      requires n <= |events|
    {
      if n == 0 then multiset{}
      else if events[n - 1].item.Delivery? then Payloads(n - 1) + multiset{events[n - 1].item.msg.payload}
      else Payloads(n - 1)
    }

    /** What is still owed of `missing` once the first `n` events are read. */
    function Owed(missing: multiset<string>, n: nat): multiset<string>
      requires n <= |events|
    {
      missing - Payloads(n)
    }

    /** What was crossed off `missing` once the first `n` events are read: each delivery that was
        still owed when it came. */
    function CrossedOff(missing: multiset<string>, n: nat): multiset<string>
      requires n <= |events|
    {
      if n == 0 then multiset{}
      else if events[n - 1].item.Delivery? && events[n - 1].item.msg.payload in Owed(missing, n - 1) then
        CrossedOff(missing, n - 1) + multiset{events[n - 1].item.msg.payload}
      else CrossedOff(missing, n - 1)
    }

    predicate Delivers(k: nat, x: string)
      requires k < |events|
    {
      events[k].item.Delivery? && events[k].item.msg.payload == x
    }

    lemma PayloadsNext(k: nat, x: string)
      requires k < |events|
      ensures Payloads(k + 1)[x] == Payloads(k)[x] + if Delivers(k, x) then 1 else 0
    {
    }

    lemma CrossedOffNext(missing: multiset<string>, k: nat, x: string)
      requires k < |events|
      ensures CrossedOff(missing, k + 1)[x] ==
        CrossedOff(missing, k)[x] + if Delivers(k, x) && Payloads(k)[x] < missing[x] then 1 else 0
    {
      if events[k].item.Delivery? {
        var payload := events[k].item.msg.payload;
        assert payload in Owed(missing, k) <==> Payloads(k)[payload] < missing[payload];
      }
    }

    /** Of each payload, what was crossed off is what was delivered, up to what was owed. */
    lemma {:induction false} CrossedOffAt(missing: multiset<string>, n: nat, x: string)
      requires n <= |events|
      ensures CrossedOff(missing, n)[x] == Min(Payloads(n)[x], missing[x])
    {
      if n > 0 {
        CrossedOffAt(missing, n - 1, x);
        PayloadsNext(n - 1, x);
        CrossedOffNext(missing, n - 1, x);
      }
    }

    /** At every point what was owed is what was crossed off plus what is still owed, and what was
        crossed off was delivered. */
    lemma Conserved(missing: multiset<string>, n: nat)
      requires n <= |events|
      ensures missing == CrossedOff(missing, n) + Owed(missing, n)
      ensures CrossedOff(missing, n) <= Payloads(n)
    {
      forall x
        ensures CrossedOff(missing, n)[x] <= Payloads(n)[x]
          && missing[x] == CrossedOff(missing, n)[x] + Owed(missing, n)[x]
      {
        CrossedOffAt(missing, n, x);
      }
    }

    /** The event at `n` is a delivery that is still owed after those before it, or the tolerated
        one, and its settlement is accepted. */
    predicate Welcome(missing: multiset<string>, tolerated: Option<string>, n: nat)
      requires n < |events|
    {
      && events[n].item.Delivery? && !events[n].item.msg.ack.Failed?
      && (events[n].item.msg.payload in Owed(missing, n) || tolerated == Some(events[n].item.msg.payload))
    }

    /** Whether the collection reads the event at `n`: something is owed and it comes in time. */
    predicate ReadsOn(missing: multiset<string>, n: nat)
      requires n <= |events|
    {
      Owed(missing, n) != multiset{} && InWindow(n)
    }

    predicate Takes(missing: multiset<string>, tolerated: Option<string>, n: nat)
      requires n < |events|
    {
      ReadsOn(missing, n) && Welcome(missing, tolerated, n)
    }

    /** The collection reads the first `n` events, and each is welcome. */
    ghost predicate TakesAll(missing: multiset<string>, tolerated: Option<string>, n: nat)
    {
      n <= |events| && forall k | 0 <= k < n :: Takes(missing, tolerated, k)
    }

    lemma TakesNext(missing: multiset<string>, tolerated: Option<string>, n: nat)
      requires n < |events| && TakesAll(missing, tolerated, n) && Takes(missing, tolerated, n)
      ensures TakesAll(missing, tolerated, n + 1)
    {
    }

    /** The collection reads the first `n` events and no more, and each is welcome. */
    ghost predicate Collects(missing: multiset<string>, tolerated: Option<string>, n: nat)
    {
      TakesAll(missing, tolerated, n) && !ReadsOn(missing, n)
    }

    predicate Settles(n: nat)
      requires n < |events|
    {
      events[n].item.Delivery? && !events[n].item.msg.ack.Failed?
    }

    /** The first `n` events are the settled deliveries that come in time while something is owed,
        whatever they carry. */
    ghost predicate ReadsWhile(missing: multiset<string>, n: nat)
    {
      n <= |events| && (forall k | 0 <= k < n :: ReadsOn(missing, k) && Settles(k)) && !ReadsOn(missing, n)
    }

    /** No payload but the tolerated one is among the first `n` events more often than owed. */
    ghost predicate NoneInExcess(missing: multiset<string>, tolerated: Option<string>, n: nat)
      requires n <= |events|
    {
      forall x | tolerated != Some(x) :: Payloads(n)[x] <= missing[x]
    }

    lemma {:induction false} PayloadsRise(m: nat, n: nat, x: string)
      requires m <= n <= |events|
      ensures Payloads(m)[x] <= Payloads(n)[x]
    {
      if m < n {
        PayloadsRise(m, n - 1, x);
      }
    }

    /** A payload that is not tolerated is read no more often than it is owed. */
    lemma {:induction false} OwedBound(missing: multiset<string>, tolerated: Option<string>, n: nat, x: string)
      requires TakesAll(missing, tolerated, n) && tolerated != Some(x)
      ensures Payloads(n)[x] <= missing[x]
    {
      if n > 0 {
        OwedBound(missing, tolerated, n - 1, x);
        assert Takes(missing, tolerated, n - 1);
      }
    }

    lemma NoExcessIsWelcome(missing: multiset<string>, tolerated: Option<string>, n: nat, k: nat)
      requires k < n <= |events| && NoneInExcess(missing, tolerated, n) && Settles(k)
      ensures Welcome(missing, tolerated, k)
    {
      var x := events[k].item.msg.payload;
      PayloadsRise(k + 1, n, x);
    }

    /** A collection in multisets: what it reads is what comes while something is owed, and no
        payload but the tolerated one is read more often than owed. */
    lemma CollectsExactly(missing: multiset<string>, tolerated: Option<string>, n: nat)
      ensures Collects(missing, tolerated, n) <==> ReadsWhile(missing, n) && NoneInExcess(missing, tolerated, n)
    {
      if Collects(missing, tolerated, n) {
        forall k | 0 <= k < n ensures ReadsOn(missing, k) && Settles(k) {
          assert Takes(missing, tolerated, k);
        }
        forall x | tolerated != Some(x) ensures Payloads(n)[x] <= missing[x] {
          OwedBound(missing, tolerated, n, x);
        }
      }
      if ReadsWhile(missing, n) && NoneInExcess(missing, tolerated, n) {
        forall k | 0 <= k < n ensures Takes(missing, tolerated, k) {
          NoExcessIsWelcome(missing, tolerated, n, k);
        }
      }
    }

    /** What a collection reads is settled by the trace. */
    lemma CollectsOnce(missing: multiset<string>, tolerated: Option<string>, m: nat, n: nat)
      requires Collects(missing, tolerated, m) && Collects(missing, tolerated, n)
      ensures m == n
    {
      assert m < n ==> Takes(missing, tolerated, m);
      assert n < m ==> Takes(missing, tolerated, n);
    }

    /** No collection of the phase succeeds. */
    ghost predicate Rejects(missing: multiset<string>, tolerated: Option<string>)
    {
      forall m: nat :: !Collects(missing, tolerated, m)
    }

    lemma UnwelcomeRejects(missing: multiset<string>, tolerated: Option<string>, n: nat)
      requires n < |events| && ReadsOn(missing, n) && !Welcome(missing, tolerated, n)
      requires TakesAll(missing, tolerated, n)
      ensures Rejects(missing, tolerated)
    {
      assert !Takes(missing, tolerated, n);
      forall m: nat ensures !Collects(missing, tolerated, m) {
        if m < n {
          assert Takes(missing, tolerated, m);
        }
      }
    }
  }

  /** `Vec::swap_remove`. */
  function SwapRemove(s: seq<string>, i: nat): (r: seq<string>)
    requires i < |s|
    ensures |r| == |s| - 1
    ensures multiset(r) == multiset(s) - multiset{s[i]}
  {
    var last := |s| - 1;
    assert s == s[..last] + [s[last]];
    if i == last then s[..last]
    else
      assert s[..last] == s[..i] + [s[i]] + s[i + 1..last];
      assert s[..last][i := s[last]] == s[..i] + [s[last]] + s[i + 1..last];
      s[..last][i := s[last]]
  }

  /** One delivery of a collection: crossed off what is owed, passed over as the tolerated one,
      or unwelcome. */
  method CollectOne(phase: Phase, ghost missing: multiset<string>, left: seq<string>, tolerated: Option<string>,
                    pos: nat)
    returns (ok: bool, after: seq<string>)
    requires pos < |phase.events| && multiset(left) == phase.Owed(missing, pos)
    ensures ok <==> phase.Welcome(missing, tolerated, pos)
    ensures multiset(after) == phase.Owed(missing, pos + 1)
  {
    var item := phase.events[pos].item;
    if !item.Delivery? {
      return false, left;
    }
    var found := Position(left, item.msg.payload);
    assert found.Some? <==> item.msg.payload in multiset(left);
    ok := (found.Some? || tolerated == Some(item.msg.payload)) && !item.msg.ack.Failed?;
    after := if found.Some? then SwapRemove(left, found.value) else left;
  }

  /** Where the loop of `collect_back` stands after `pos` events. */
  ghost predicate Loop(phase: Phase, missing: multiset<string>, tolerated: Option<string>, left: seq<string>, now: nat,
                       pos: nat)
  {
    && phase.TakesAll(missing, tolerated, pos)
    && now == Clock(phase.events, phase.start, pos) && multiset(left) == phase.Owed(missing, pos)
  }

  /** Whether the loop goes round again. */
  predicate More(phase: Phase, left: seq<string>, now: nat, pos: nat)
  {
    left != [] && pos < |phase.events| && Max(now, phase.events[pos].at) <= phase.start + phase.within
  }

  /** One turn of it, or no collection at all. */
  method TakeOne(phase: Phase, ghost missing: multiset<string>, left: seq<string>, tolerated: Option<string>, now: nat,
                 pos: nat)
    returns (ok: bool, after: seq<string>, later: nat)
    requires Loop(phase, missing, tolerated, left, now, pos)
    requires More(phase, left, now, pos)
    ensures multiset(after) == phase.Owed(missing, pos + 1)
    ensures ok ==> Loop(phase, missing, tolerated, after, later, pos + 1)
    ensures !ok ==> phase.Rejects(missing, tolerated)
  {
    assert left[0] in multiset(left);
    assert phase.ReadsOn(missing, pos);
    ok, after := CollectOne(phase, missing, left, tolerated, pos);
    later := Max(now, phase.events[pos].at);
    if ok {
      phase.TakesNext(missing, tolerated, pos);
    } else {
      phase.UnwelcomeRejects(missing, tolerated, pos);
    }
  }

  lemma LoopEnds(phase: Phase, missing: multiset<string>, tolerated: Option<string>, left: seq<string>, now: nat,
                 pos: nat)
    requires Loop(phase, missing, tolerated, left, now, pos)
    requires !More(phase, left, now, pos)
    ensures phase.Collects(missing, tolerated, pos)
  {
  }

  /** The loop of `collect_back`. */
  method ReadBack(phase: Phase, missing: seq<string>, tolerated: Option<string>)
    returns (ok: bool, left: seq<string>, ghost n: nat)
    ensures n <= |phase.events| && multiset(left) == phase.Owed(multiset(missing), n)
    ensures ok ==> phase.Collects(multiset(missing), tolerated, n)
    ensures !ok ==> phase.Rejects(multiset(missing), tolerated)
  {
    ghost var owed := multiset(missing);
    var now, pos := phase.start, 0;
    ok, left := true, missing;
    assert Loop(phase, owed, tolerated, left, now, pos);
    while More(phase, left, now, pos)
      invariant pos <= |phase.events| && Loop(phase, owed, tolerated, left, now, pos)
      decreases |phase.events| - pos
    {
      ok, left, now := TakeOne(phase, owed, left, tolerated, now, pos);
      if !ok {
        return false, left, pos + 1;
      }
      pos := pos + 1;
    }
    LoopEnds(phase, owed, tolerated, left, now, pos);
    return true, left, pos;
  }

  /** `collect_back`: it reads what the phase collects and leaves exactly what the payloads read
      did not cover, or fails on a delivery that is not welcome. Either way what was owed is what
      it crossed off plus what it leaves. */
  method CollectBack(phase: Phase, missing: seq<string>, tolerated: Option<string>)
    returns (ok: bool, left: seq<string>, ghost n: nat)
    ensures n <= |phase.events| && multiset(left) == phase.Owed(multiset(missing), n)
    ensures multiset(missing) == phase.CrossedOff(multiset(missing), n) + multiset(left)
    ensures ok ==> phase.Collects(multiset(missing), tolerated, n)
    ensures !ok ==> phase.Rejects(multiset(missing), tolerated)
  {
    ok, left, n := ReadBack(phase, missing, tolerated);
    phase.Conserved(multiset(missing), n);
  }

  /** What three collections, one after the other, leave of what is owed. */
  ghost predicate AllBack(phases: seq<Phase>, missing: multiset<string>, tolerated: Option<string>, taken: seq<nat>)
    requires |phases| == |taken|
  {
    if phases == [] then missing == multiset{}
    else
      && phases[0].Collects(missing, tolerated, taken[0])
      && AllBack(phases[1..], phases[0].Owed(missing, taken[0]), tolerated, taken[1..])
  }

  ghost predicate Accepted(phases: seq<Phase>, missing: multiset<string>, tolerated: Option<string>)
  {
    exists taken: seq<nat> :: |taken| == |phases| && AllBack(phases, missing, tolerated, taken)
  }

  lemma BackStep(phases: seq<Phase>, missing: multiset<string>, tolerated: Option<string>, n: nat, rest: seq<nat>)
    requires phases != [] && |rest| == |phases| - 1 && phases[0].Collects(missing, tolerated, n)
    ensures AllBack(phases, missing, tolerated, [n] + rest) <==>
      AllBack(phases[1..], phases[0].Owed(missing, n), tolerated, rest)
  {
    assert ([n] + rest)[1..] == rest;
  }

  lemma AcceptedStep(phases: seq<Phase>, missing: multiset<string>, tolerated: Option<string>, n: nat)
    requires phases != [] && phases[0].Collects(missing, tolerated, n)
    ensures Accepted(phases, missing, tolerated) <==>
      Accepted(phases[1..], phases[0].Owed(missing, n), tolerated)
  {
    if Accepted(phases, missing, tolerated) {
      var taken: seq<nat> :| |taken| == |phases| && AllBack(phases, missing, tolerated, taken);
      phases[0].CollectsOnce(missing, tolerated, taken[0], n);
      assert taken == [n] + taken[1..];
      BackStep(phases, missing, tolerated, n, taken[1..]);
    }
    if Accepted(phases[1..], phases[0].Owed(missing, n), tolerated) {
      var rest: seq<nat> :| |rest| == |phases[1..]|
        && AllBack(phases[1..], phases[0].Owed(missing, n), tolerated, rest);
      BackStep(phases, missing, tolerated, n, rest);
    }
  }

  /** Nothing owed, nothing read: the phases after the last needed change nothing. */
  lemma {:induction false} NothingOwed(phases: seq<Phase>, tolerated: Option<string>)
    ensures Accepted(phases, multiset{}, tolerated)
    decreases |phases|
  {
    if phases == [] {
      assert AllBack(phases, multiset{}, tolerated, []);
    } else {
      assert phases[0].Collects(multiset{}, tolerated, 0);
      NothingOwed(phases[1..], tolerated);
      assert phases[0].Owed(multiset{}, 0) == multiset{};
      AcceptedStep(phases, multiset{}, tolerated, 0);
    }
  }

  /** `expect_back`: the open subscription, the same one opened again, then a new connection. It
      accepts exactly when the three collections together bring back everything owed, with its
      multiplicity, and read nothing else but the tolerated payload. What was owed at the start is
      at every point what all collections so far crossed off plus what is left. */
  method ExpectBack(phases: seq<Phase>, missing: seq<string>, tolerated: Option<string>)
    returns (accepted: bool, left: seq<string>, ghost read: seq<nat>)
    requires |phases| == 3
    ensures accepted <==> Accepted(phases, multiset(missing), tolerated)
    ensures accepted ==> left == []
    ensures |read| <= 3 && Readable(phases[..|read|], read)
    ensures multiset(missing) == AllCrossedOff(phases[..|read|], multiset(missing), read) + multiset(left)
  {
    left, read := missing, [];
    for i := 0 to 3
      invariant |read| == i && Readable(phases[..i], read)
      invariant multiset(left) == AllOwed(phases[..i], multiset(missing), read)
      invariant Accepted(phases[i..], multiset(left), tolerated) <==> Accepted(phases, multiset(missing), tolerated)
    {
      assert phases[i..][1..] == phases[i + 1..];
      if left == [] {
        NothingOwed(phases[i..], tolerated);
        AllConserved(phases[..i], multiset(missing), read);
        return true, left, read;
      }
      var ok, after, n := CollectBack(phases[i], left, tolerated);
      ReadNext(phases, multiset(missing), read, n);
      if ok {
        AcceptedStep(phases[i..], multiset(left), tolerated, n);
      }
      left, read := after, read + [n];
      if !ok {
        AllConserved(phases[..i + 1], multiset(missing), read);
        return false, left, read;
      }
    }
    assert phases[3..] == [];
    assert left != [] ==> left[0] in multiset(left);
    AllConserved(phases[..3], multiset(missing), read);
    accepted := left == [];
  }

  // The three collections in multisets

  /** How many events each collection read, of those there are. */
  ghost predicate Readable(phases: seq<Phase>, read: seq<nat>)
  {
    |phases| == |read| && forall i | 0 <= i < |phases| :: read[i] <= |phases[i].events|
  }

  /** What the collections read. */
  ghost function AllPayloads(phases: seq<Phase>, read: seq<nat>): multiset<string>
    requires Readable(phases, read)
    decreases |phases|
  {
    if phases == [] then multiset{}
    else phases[0].Payloads(read[0]) + AllPayloads(phases[1..], read[1..])
  }

  /** What is still owed after all of them. */
  ghost function AllOwed(phases: seq<Phase>, missing: multiset<string>, read: seq<nat>): multiset<string>
    requires Readable(phases, read)
    decreases |phases|
  {
    if phases == [] then missing
    else AllOwed(phases[1..], phases[0].Owed(missing, read[0]), read[1..])
  }

  /** What they crossed off, each from what those before it left. */
  ghost function AllCrossedOff(phases: seq<Phase>, missing: multiset<string>, read: seq<nat>): multiset<string>
    requires Readable(phases, read)
    decreases |phases|
  {
    if phases == [] then multiset{}
    else
      phases[0].CrossedOff(missing, read[0])
      + AllCrossedOff(phases[1..], phases[0].Owed(missing, read[0]), read[1..])
  }

  /** Over any collections, what was owed is what they crossed off plus what is still owed. */
  lemma {:induction false} AllConserved(phases: seq<Phase>, missing: multiset<string>, read: seq<nat>)
    requires Readable(phases, read)
    ensures missing == AllCrossedOff(phases, missing, read) + AllOwed(phases, missing, read)
    ensures AllCrossedOff(phases, missing, read) <= AllPayloads(phases, read)
    decreases |phases|
  {
    if phases != [] {
      phases[0].Conserved(missing, read[0]);
      AllConserved(phases[1..], phases[0].Owed(missing, read[0]), read[1..]);
    }
  }

  lemma {:induction false} OwedNext(phases: seq<Phase>, missing: multiset<string>, read: seq<nat>, phase: Phase, n: nat)
    requires Readable(phases, read) && n <= |phase.events|
    ensures Readable(phases + [phase], read + [n])
    ensures AllOwed(phases + [phase], missing, read + [n]) == phase.Owed(AllOwed(phases, missing, read), n)
    decreases |phases|
  {
    if phases == [] {
      assert [phase][1..] == [] && [n][1..] == [];
    } else {
      OwedNext(phases[1..], phases[0].Owed(missing, read[0]), read[1..], phase, n);
      assert (phases + [phase])[1..] == phases[1..] + [phase] && (read + [n])[1..] == read[1..] + [n];
    }
  }

  lemma ReadNext(phases: seq<Phase>, missing: multiset<string>, read: seq<nat>, n: nat)
    requires |read| < |phases| && Readable(phases[..|read|], read) && n <= |phases[|read|].events|
    ensures Readable(phases[..|read| + 1], read + [n])
    ensures AllOwed(phases[..|read| + 1], missing, read + [n]) ==
      phases[|read|].Owed(AllOwed(phases[..|read|], missing, read), n)
  {
    OwedNext(phases[..|read|], missing, read, phases[|read|], n);
    assert phases[..|read|] + [phases[|read|]] == phases[..|read| + 1];
  }

  /** Each collection reads what comes to it while something is owed after those before it. */
  ghost predicate ReadInTurn(phases: seq<Phase>, missing: multiset<string>, read: seq<nat>)
    requires |phases| == |read|
    decreases |phases|
  {
    phases != [] ==>
      && phases[0].ReadsWhile(missing, read[0])
      && ReadInTurn(phases[1..], phases[0].Owed(missing, read[0]), read[1..])
  }

  lemma {:induction false} InTurnIsReadable(phases: seq<Phase>, missing: multiset<string>, read: seq<nat>)
    requires |phases| == |read| && ReadInTurn(phases, missing, read)
    ensures Readable(phases, read)
    decreases |phases|
  {
    if phases != [] {
      InTurnIsReadable(phases[1..], phases[0].Owed(missing, read[0]), read[1..]);
      assert forall i | 0 < i < |phases| :: phases[i] == phases[1..][i - 1] && read[i] == read[1..][i - 1];
    }
  }

  /** Everything owed is among what is read, with its multiplicity, and every payload read more
      often than that is the tolerated one. */
  ghost predicate Covered(phases: seq<Phase>, missing: multiset<string>, tolerated: Option<string>, read: seq<nat>)
  {
    && |phases| == |read| && ReadInTurn(phases, missing, read) && Readable(phases, read)
    && missing <= AllPayloads(phases, read)
    && forall x | tolerated != Some(x) :: AllPayloads(phases, read)[x] <= missing[x]
  }

  lemma {:induction false} AllBackExactly(phases: seq<Phase>, missing: multiset<string>, tolerated: Option<string>,
                                          read: seq<nat>)
    requires |phases| == |read|
    ensures AllBack(phases, missing, tolerated, read) <==> Covered(phases, missing, tolerated, read)
    decreases |phases|
  {
    if phases != [] {
      phases[0].CollectsExactly(missing, tolerated, read[0]);
      if read[0] <= |phases[0].events| {
        var owed := phases[0].Owed(missing, read[0]);
        AllBackExactly(phases[1..], owed, tolerated, read[1..]);
        if ReadInTurn(phases, missing, read) {
          InTurnIsReadable(phases, missing, read);
          InTurnIsReadable(phases[1..], owed, read[1..]);
          CoveredStep(phases, missing, tolerated, read);
        }
      }
    }
  }

  /** Coverage by all of them is coverage of what the first leaves by the rest. */
  lemma CoveredStep(phases: seq<Phase>, missing: multiset<string>, tolerated: Option<string>, read: seq<nat>)
    requires phases != [] && |phases| == |read| && ReadInTurn(phases, missing, read)
    requires Readable(phases, read) && Readable(phases[1..], read[1..])
    ensures Covered(phases, missing, tolerated, read) <==>
      phases[0].NoneInExcess(missing, tolerated, read[0])
      && Covered(phases[1..], phases[0].Owed(missing, read[0]), tolerated, read[1..])
  {
    var here, later := phases[0].Payloads(read[0]), AllPayloads(phases[1..], read[1..]);
    assert AllPayloads(phases, read) == here + later;
    assert missing <= here + later <==> missing - here <= later;
    if phases[0].NoneInExcess(missing, tolerated, read[0]) {
      assert forall x | tolerated != Some(x) :: (here + later)[x] <= missing[x] <==> later[x] <= (missing - here)[x];
    }
    if Covered(phases, missing, tolerated, read) {
      assert forall x | tolerated != Some(x) :: here[x] <= (here + later)[x];
    }
  }

  /** The check accepts if and only if the collections, reading on while something is owed, bring
      back everything owed with its multiplicity and nothing in excess but the tolerated one. */
  lemma AcceptedExactly(phases: seq<Phase>, missing: multiset<string>, tolerated: Option<string>)
    ensures Accepted(phases, missing, tolerated) <==>
      exists read: seq<nat> :: |read| == |phases| && Covered(phases, missing, tolerated, read)
  {
    forall read: seq<nat> | |read| == |phases|
      ensures AllBack(phases, missing, tolerated, read) <==> Covered(phases, missing, tolerated, read)
    {
      AllBackExactly(phases, missing, tolerated, read);
    }
  }
}
