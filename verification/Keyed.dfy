/** The keyed-order check (crates/conformance/src/message_shape.rs), for any number of keys and
    of messages per key. */
module Keyed {
  import opened Prelude
  import opened Timed

  const DELIVERY_TIMEOUT: nat := 10_000
  const USIZE_MAX: nat := 0xFFFF_FFFF_FFFF_FFFF

  // Payloads: the key, a colon and the sequence number in at least two digits

  function Padded(n: nat): (s: string)
    ensures s != [] && forall c <- s :: IsDigit(c)
  {
    if n < 10 then "0" + Dec(n) else Dec(n)
  }

  lemma ValueOfPadded(n: nat)
    ensures Value(Padded(n)) == n
  {
    ValueOfDec(n);
    if n < 10 {
      assert Padded(n)[..1] == "0" && "0"[..0] == [];
      assert Dec(n)[..0] == [];
    }
  }

  function LastColon(s: string): (r: Option<nat>)
    ensures r.Some? ==> r.value < |s| && s[r.value] == ':' && ':' !in s[r.value + 1..]
    ensures r.None? ==> ':' !in s
  {
    if s == [] then None
    else if s[|s| - 1] == ':' then Some(|s| - 1)
    else
      var init := s[..|s| - 1];
      assert s == init + [s[|s| - 1]];
      var r := LastColon(init);
      assert r.Some? ==> s[r.value + 1..] == init[r.value + 1..] + [s[|s| - 1]];
      r
  }

  /** `str::parse::<usize>`: an optional plus, digits, and a value that fits. */
  function ParseUsize(s: string): Option<nat>
  {
    var digits := if |s| > 1 && s[0] == '+' then s[1..] else s;
    if digits != [] && (forall c <- digits :: IsDigit(c)) && Value(digits) <= USIZE_MAX
    then Some(Value(digits)) else None
  }

  datatype Received = Received(payload: string, key: Option<string>, ack: Answer)

  datatype Place = Place(slot: nat, seqno: nat)

  /** The key and sequence number a payload names: what follows its last colon is the number. */
  function Parse(keys: seq<string>, payload: string): (r: Option<Place>)
    ensures r.Some? ==> r.value.slot < |keys|
  {
    var colon := LastColon(payload);
    if colon.None? then None
    else
      var slot := Position(keys, payload[..colon.value]);
      var seqno := ParseUsize(payload[colon.value + 1..]);
      if slot.Some? && seqno.Some? then Some(Place(slot.value, seqno.value)) else None
  }

  function Payload(keys: seq<string>, p: Place): string
    requires p.slot < |keys|
  {
    keys[p.slot] + ":" + Padded(p.seqno)
  }

  lemma ParsePublished(keys: seq<string>, p: Place)
    requires Distinct(keys) && p.slot < |keys| && p.seqno <= USIZE_MAX
    ensures Parse(keys, Payload(keys, p)) == Some(p)
  {
    var text, number := Payload(keys, p), Padded(p.seqno);
    var colon := LastColon(text);
    assert text[|keys[p.slot]|] == ':';
    assert text == text[..colon.value] + [':'] + text[colon.value + 1..];
    SplitAtLast(keys[p.slot], number, text[..colon.value], text[colon.value + 1..], ':');
    ValueOfPadded(p.seqno);
    assert IsDigit(number[0]);
  }

  /** A number as it may be written: digits, after a plus or not, of a value that fits. */
  ghost predicate Spells(text: string, n: nat)
  {
    exists digits: string :: (text == digits || text == "+" + digits) && digits != []
      && (forall c <- digits :: IsDigit(c)) && Value(digits) == n <= USIZE_MAX
  }

  lemma ParsesExactly(text: string, n: nat)
    ensures ParseUsize(text) == Some(n) <==> Spells(text, n)
  {
    if ParseUsize(text) == Some(n) {
      if |text| > 1 && text[0] == '+' {
        assert text == "+" + text[1..];
      }
    }
    if Spells(text, n) {
      var digits: string :| (text == digits || text == "+" + digits) && digits != []
        && (forall c <- digits :: IsDigit(c)) && Value(digits) == n <= USIZE_MAX;
      if text == "+" + digits {
        assert text[1..] == digits;
      } else {
        assert IsDigit(text[0]);
      }
    }
  }

  lemma PositionIs(keys: seq<string>, i: nat)
    requires Distinct(keys) && i < |keys|
    ensures Position(keys, keys[i]) == Some(i)
  {
  }

  lemma NoColon(text: string, n: nat)
    requires Spells(text, n)
    ensures ':' !in text
  {
  }

  /** Where a payload splits at its last colon is decided by what follows holding none. */
  lemma SplitsAt(payload: string, key: string, number: string)
    requires payload == key + ":" + number && ':' !in number
    ensures LastColon(payload) == Some(|key|) && payload[..|key|] == key && payload[|key| + 1..] == number
  {
    var colon := LastColon(payload);
    assert payload[|key|] == ':';
    assert payload == payload[..colon.value] + [':'] + payload[colon.value + 1..];
    SplitAtLast(key, number, payload[..colon.value], payload[colon.value + 1..], ':');
  }

  /** The payload is the key, a colon and a spelling of the number. */
  ghost predicate Written(payload: string, key: string, n: nat)
  {
    exists number: string :: payload == key + ":" + number && Spells(number, n)
  }

  lemma ParsedIsWritten(keys: seq<string>, payload: string, p: Place)
    requires Parse(keys, payload) == Some(p)
    ensures Written(payload, keys[p.slot], p.seqno)
  {
    var colon := LastColon(payload);
    var number := payload[colon.value + 1..];
    assert payload == payload[..colon.value] + ":" + number;
    ParsesExactly(number, p.seqno);
  }

  lemma WrittenIsParsed(keys: seq<string>, payload: string, p: Place)
    requires Distinct(keys) && p.slot < |keys| && Written(payload, keys[p.slot], p.seqno)
    ensures Parse(keys, payload) == Some(p)
  {
    var number: string :| payload == keys[p.slot] + ":" + number && Spells(number, p.seqno);
    NoColon(number, p.seqno);
    SplitsAt(payload, keys[p.slot], number);
    ParsesExactly(number, p.seqno);
    PositionIs(keys, p.slot);
  }

  /** A payload names a key and a number exactly when it is that key, a colon and a spelling of the
      number. */
  lemma ParseExactly(keys: seq<string>, payload: string, p: Place)
    requires Distinct(keys) && p.slot < |keys|
    ensures Parse(keys, payload) == Some(p) <==> Written(payload, keys[p.slot], p.seqno)
  {
    if Parse(keys, payload) == Some(p) {
      ParsedIsWritten(keys, payload, p);
    }
    if Written(payload, keys[p.slot], p.seqno) {
      WrittenIsParsed(keys, payload, p);
    }
  }

  // Which places, in which order

  /** How many of `places` are of the key at `slot`. */
  function Count(places: seq<Place>, slot: nat): nat
  {
    if places == [] then 0
    else Count(places[..|places| - 1], slot) + if places[|places| - 1].slot == slot then 1 else 0
  }

  /** Every place is the next one of its key. */
  ghost predicate Consecutive(places: seq<Place>)
  {
    forall n | 0 <= n < |places| :: places[n].seqno == Count(places[..n], places[n].slot)
  }

  ghost predicate Within(places: seq<Place>, slots: nat, perKey: nat)
  {
    forall n | 0 <= n < |places| :: places[n].slot < slots && places[n].seqno < perKey
  }

  /** Each key's places come in order (so none twice), and every place there is comes. */
  ghost predicate OnceInOrder(places: seq<Place>, slots: nat, perKey: nat)
  {
    && (forall m, n | 0 <= m < n < |places| && places[m].slot == places[n].slot :: places[m].seqno < places[n].seqno)
    && (forall p: Place | p.slot < slots && p.seqno < perKey :: p in places)
  }

  lemma {:induction false} CountRises(places: seq<Place>, m: nat, slot: nat)
    requires m <= |places|
    ensures Count(places[..m], slot) <= Count(places, slot)
    decreases |places|
  {
    if m == |places| {
      assert places[..m] == places;
    } else {
      var init := places[..|places| - 1];
      CountRises(init, m, slot);
      assert init[..m] == places[..m];
    }
  }

  lemma CountUpTo(places: seq<Place>, n: nat, slot: nat)
    requires n < |places|
    ensures Count(places[..n + 1], slot) == Count(places[..n], slot) + if places[n].slot == slot then 1 else 0
  {
    assert places[..n + 1][..n] == places[..n];
  }

  /** The place that brings a key's count from `c` to `c + 1`. */
  lemma {:induction false} CountPasses(places: seq<Place>, slot: nat, c: nat) returns (n: nat)
    requires c < Count(places, slot)
    ensures n < |places| && places[n].slot == slot && Count(places[..n], slot) == c
    decreases |places|
  {
    var init := places[..|places| - 1];
    if c < Count(init, slot) {
      n := CountPasses(init, slot, c);
      assert init[..n] == places[..n];
    } else {
      n := |places| - 1;
    }
  }

  /** No key is delivered more often than it was published. */
  lemma {:induction false} CountBounded(places: seq<Place>, slots: nat, perKey: nat, slot: nat)
    requires Consecutive(places) && Within(places, slots, perKey)
    ensures Count(places, slot) <= perKey
    decreases |places|
  {
    if places != [] {
      var init := places[..|places| - 1];
      assert forall n | 0 <= n < |init| :: init[..n] == places[..n];
      CountBounded(init, slots, perKey, slot);
    }
  }

  function Total(places: seq<Place>, slots: nat): nat
  {
    if slots == 0 then 0 else Total(places, slots - 1) + Count(places, slots - 1)
  }

  lemma {:induction false} TotalNext(places: seq<Place>, slots: nat)
    requires places != []
    ensures Total(places, slots) ==
      Total(places[..|places| - 1], slots) + if places[|places| - 1].slot < slots then 1 else 0
    decreases slots
  {
    if slots > 0 {
      TotalNext(places, slots - 1);
    }
  }

  lemma {:induction false} TotalOfNone(slots: nat)
    ensures Total([], slots) == 0
  {
    if slots > 0 {
      TotalOfNone(slots - 1);
    }
  }

  lemma {:induction false} TotalIsAll(places: seq<Place>, slots: nat)
    requires forall n | 0 <= n < |places| :: places[n].slot < slots
    ensures Total(places, slots) == |places|
    decreases |places|
  {
    if places == [] {
      TotalOfNone(slots);
    } else {
      TotalIsAll(places[..|places| - 1], slots);
      TotalNext(places, slots);
    }
  }

  /** A sum of bounded counts that reaches the bound everywhere has each at the bound. */
  lemma {:induction false} TotalBounded(places: seq<Place>, slots: nat, perKey: nat, slot: nat)
    requires forall s | 0 <= s < slots :: Count(places, s) <= perKey
    ensures Total(places, slots) <= perKey * slots
    ensures slot < slots && Total(places, slots) == perKey * slots ==> Count(places, slot) == perKey
    decreases slots
  {
    if slots > 0 {
      TotalBounded(places, slots - 1, perKey, slot);
      assert perKey * slots == perKey * (slots - 1) + perKey;
    }
  }

  /** Consecutive places, as many as there are, are all of them once and in order: no key can
      exceed its count, and together they reach it. */
  lemma ConsecutiveIsOnceInOrder(places: seq<Place>, slots: nat, perKey: nat)
    requires Consecutive(places) && Within(places, slots, perKey) && |places| == perKey * slots
    ensures OnceInOrder(places, slots, perKey)
  {
    forall m, n | 0 <= m < n < |places| && places[m].slot == places[n].slot
      ensures places[m].seqno < places[n].seqno
    {
      CountUpTo(places, m, places[m].slot);
      assert places[..n][..m + 1] == places[..m + 1];
      CountRises(places[..n], m + 1, places[m].slot);
    }
    TotalIsAll(places, slots);
    forall s | 0 <= s < slots ensures Count(places, s) <= perKey {
      CountBounded(places, slots, perKey, s);
    }
    forall p: Place | p.slot < slots && p.seqno < perKey ensures p in places {
      TotalBounded(places, slots, perKey, p.slot);
      var n := CountPasses(places, p.slot, p.seqno);
      assert places[n] == p;
    }
  }

  lemma {:induction false} CountSame(places: seq<Place>, m: nat, slot: nat)
    requires m <= |places| && forall k | m <= k < |places| :: places[k].slot != slot
    ensures Count(places[..m], slot) == Count(places, slot)
    decreases |places|
  {
    if m == |places| {
      assert places[..m] == places;
    } else {
      var init := places[..|places| - 1];
      CountSame(init, m, slot);
      assert init[..m] == places[..m];
    }
  }

  /** Once and in order, the place numbered `s` of a key comes after exactly `s` of them. */
  lemma {:induction false} OnceInOrderCounts(places: seq<Place>, slots: nat, perKey: nat, n: nat)
    requires OnceInOrder(places, slots, perKey) && Within(places, slots, perKey) && n < |places|
    ensures places[n].seqno == Count(places[..n], places[n].slot)
    decreases n
  {
    var p := places[n];
    if p.seqno == 0 {
      CountSame(places[..n], 0, p.slot);
    } else {
      var before := Place(p.slot, p.seqno - 1);
      assert before in places;
      var m :| 0 <= m < |places| && places[m] == before;
      OnceInOrderCounts(places, slots, perKey, m);
      NothingBetween(places, slots, perKey, m, n);
    }
  }

  /** Between two places of a key that follow each other in number there is no other of that key. */
  lemma NothingBetween(places: seq<Place>, slots: nat, perKey: nat, m: nat, n: nat)
    requires OnceInOrder(places, slots, perKey) && m < |places| && n < |places|
    requires places[m].slot == places[n].slot && places[m].seqno + 1 == places[n].seqno
    ensures m < n && Count(places[..n], places[n].slot) == Count(places[..m], places[n].slot) + 1
  {
    CountUpTo(places, m, places[n].slot);
    assert places[..n][..m + 1] == places[..m + 1];
    CountSame(places[..n], m + 1, places[n].slot);
  }

  // A run of the check

  /** `perKey` messages under each key were published; `events` is what then arrives. */
  datatype Run = Run(keys: seq<string>, perKey: nat, events: Trace<Received>, start: nat) {

    function Expected(): nat { perKey * |keys| }

    function Now(n: nat): nat
      requires n <= |events|
    {
      Clock(events, start, n)
    }

    /** The place the event at `n` names; one that names none is under no key. */
    function PlaceAt(n: nat): (r: Place)
      requires n < |events|
      ensures r.slot <= |keys|
    {
      var parsed := if events[n].item.Delivery? then Parse(keys, events[n].item.msg.payload) else None;
      if parsed.Some? then parsed.value else Place(|keys|, 0)
    }

    function Places(n: nat): (r: seq<Place>)
      requires n <= |events|
      ensures |r| == n
    {
      seq(n, m requires 0 <= m < n => PlaceAt(m))
    }

    /** The delivery at `n` comes in time, names a key, reports that key and is settled. */
    predicate WellReported(n: nat)
      requires n < |events|
    {
      && InTime(events, start, n, Now(n) + DELIVERY_TIMEOUT)
      && events[n].item.Delivery? && PlaceAt(n).slot < |keys|
      && events[n].item.msg.key == Some(keys[PlaceAt(n).slot])
      && !events[n].item.msg.ack.Failed?
    }

    /** ... and is the next one of its key. */
    predicate Proper(n: nat)
      requires n < |events|
    {
      WellReported(n) && PlaceAt(n).seqno == Count(Places(n), PlaceAt(n).slot)
    }

    ghost predicate Accepted()
    {
      Expected() <= |events| && forall n | 0 <= n < Expected() :: Proper(n)
    }

    /** The delivery at `n` is one of the published payloads. */
    ghost predicate Published(n: nat)
      requires n < |events|
    {
      && events[n].item.Delivery? && PlaceAt(n).slot < |keys| && PlaceAt(n).seqno < perKey
      && events[n].item.msg.payload == Payload(keys, PlaceAt(n))
    }

    ghost predicate AllPublished()
    {
      Expected() <= |events| && forall n | 0 <= n < Expected() :: Published(n)
    }

    /** The deliveries are an interleaving of the keys' publish orders: every message once, each
        key's in order, and each delivery under its own key. */
    ghost predicate Interleaving()
    {
      && AllPublished()
      && (forall n | 0 <= n < Expected() :: WellReported(n))
      && OnceInOrder(Places(Expected()), |keys|, perKey)
    }

    lemma PlacesUpTo(n: nat)
      requires n <= Expected() <= |events|
      ensures Places(Expected())[..n] == Places(n)
    {
    }

    lemma AcceptedInterleaves()
      requires Accepted() && AllPublished()
      ensures Interleaving()
    {
      var places := Places(Expected());
      forall n | 0 <= n < Expected()
        ensures WellReported(n) && places[n].slot < |keys| && places[n].seqno < perKey
        ensures places[n].seqno == Count(places[..n], places[n].slot)
      {
        assert Proper(n) && Published(n);
        PlacesUpTo(n);
      }
      ConsecutiveIsOnceInOrder(places, |keys|, perKey);
    }

    lemma InterleavingAccepted()
      requires Interleaving()
      ensures Accepted()
    {
      var places := Places(Expected());
      assert Within(places, |keys|, perKey) by {
        forall n | 0 <= n < Expected() ensures places[n].slot < |keys| && places[n].seqno < perKey {
          assert Published(n);
        }
      }
      forall n | 0 <= n < Expected() ensures Proper(n) {
        OnceInOrderCounts(places, |keys|, perKey, n);
        PlacesUpTo(n);
        assert WellReported(n);
      }
    }

    /** The check accepts published payloads exactly when they are an interleaving. */
    lemma AcceptedExactly()
      ensures Accepted() && AllPublished() <==> Interleaving()
    {
      if Accepted() && AllPublished() {
        AcceptedInterleaves();
      }
      if Interleaving() {
        InterleavingAccepted();
      }
    }
  }

  /** `next` holds how many messages of each key the first `n` deliveries brought. */
  ghost predicate Tallies(run: Run, next: seq<nat>, n: nat)
    requires n <= |run.events|
  {
    |next| == |run.keys| && forall s | 0 <= s < |next| :: next[s] == Count(run.Places(n), s)
  }

  lemma TallyNext(run: Run, n: nat, s: nat)
    requires n < |run.events|
    ensures Count(run.Places(n + 1), s) == Count(run.Places(n), s) + if run.PlaceAt(n).slot == s then 1 else 0
  {
    assert run.Places(n + 1)[..n] == run.Places(n);
  }

  lemma TalliesNext(run: Run, next: seq<nat>, n: nat)
    requires n < |run.events| && Tallies(run, next, n) && run.PlaceAt(n).slot < |run.keys|
    ensures var slot := run.PlaceAt(n).slot; Tallies(run, next[slot := next[slot] + 1], n + 1)
  {
    forall s | 0 <= s < |next|
      ensures Count(run.Places(n + 1), s) == Count(run.Places(n), s) + if run.PlaceAt(n).slot == s then 1 else 0
    {
      TallyNext(run, n, s);
    }
  }

  /** One turn of the receive loop: the delivery at `n` against what its key awaits. */
  method ReadOne(run: Run, n: nat, now: nat, next: seq<nat>) returns (ok: bool)
    requires n < |run.events| && now == run.Now(n) && Tallies(run, next, n)
    ensures ok <==> run.Proper(n)
  {
    var event, place := run.events[n], run.PlaceAt(n);
    if Max(now, event.at) > now + DELIVERY_TIMEOUT || !event.item.Delivery? || place.slot == |run.keys| {
      return false;
    }
    ok := event.item.msg.key == Some(run.keys[place.slot]) && place.seqno == next[place.slot]
      && !event.item.msg.ack.Failed?;
  }

  /** Where the receive loop stands after `n` proper deliveries. */
  ghost predicate Loop(run: Run, next: seq<nat>, now: nat, n: nat)
  {
    n <= |run.events| && now == run.Now(n) && Tallies(run, next, n) && forall m | 0 <= m < n :: run.Proper(m)
  }

  /** One turn of it, or the delivery at `n` is not proper. */
  method TakeOne(run: Run, next: seq<nat>, now: nat, n: nat) returns (ok: bool, counts: seq<nat>, later: nat)
    requires n < |run.events| && Loop(run, next, now, n)
    ensures ok <==> run.Proper(n)
    ensures ok ==> Loop(run, counts, later, n + 1)
  {
    ok := ReadOne(run, n, now, next);
    counts, later := next, now;
    if ok {
      TalliesNext(run, next, n);
      var slot := run.PlaceAt(n).slot;
      counts, later := next[slot := next[slot] + 1], Max(now, run.events[n].at);
    }
  }

  /** The receive loop of `keyed_order`. */
  method KeyedOrder(run: Run) returns (accepted: bool)
    ensures accepted <==> run.Accepted()
  {
    var next: seq<nat> := seq(|run.keys|, _ => 0);
    var now := run.start;
    for n := 0 to run.Expected()
      invariant Loop(run, next, now, n)
    {
      if n == |run.events| {
        return false;
      }
      var ok;
      ok, next, now := TakeOne(run, next, now, n);
      if !ok {
        return false;
      }
    }
    accepted := true;
  }

  /** The published payloads parse back to what they were published as, so a payload is one of
      them exactly when it is spelled as one. */
  lemma PublishedExactly(run: Run, n: nat)
    requires Distinct(run.keys) && run.perKey <= USIZE_MAX && n < |run.events| && run.events[n].item.Delivery?
    ensures run.Published(n) <==>
      exists p: Place :: p.slot < |run.keys| && p.seqno < run.perKey
        && run.events[n].item.msg.payload == Payload(run.keys, p)
  {
    forall p: Place | p.slot < |run.keys| && p.seqno < run.perKey
      && run.events[n].item.msg.payload == Payload(run.keys, p)
      ensures run.Published(n)
    {
      ParsePublished(run.keys, p);
    }
  }

  /** The check reads the number, not its spelling: it accepts a payload nobody published. */
  lemma AcceptsAnotherSpelling()
    ensures var run := Run(["k"], 1, [Event(0, Delivery(Received("k:0", Some("k"), Settled)))], 0);
      run.Accepted() && !run.AllPublished()
  {
    var run := Run(["k"], 1, [Event(0, Delivery(Received("k:0", Some("k"), Settled)))], 0);
    var text := "k:0";
    assert LastColon(text) == Some(1);
    assert text[..1] == "k" && text[2..] == "0";
    assert Value("0") == 0 by { assert "0"[..0] == []; }
    assert run.PlaceAt(0) == Place(0, 0);
    assert run.Proper(0);
    assert Payload(["k"], Place(0, 0)) == "k:00";
    assert !run.Published(0);
  }

  lemma ReadsFirst(keys: seq<string>)
    requires keys == ["a", "b"]
    ensures Parse(keys, "a:00") == Some(Place(0, 0))
  {
    assert Dec(0) == "0";
    ParsePublished(keys, Place(0, 0));
    assert "a" + ":" + ("0" + "0") == "a:00";
  }

  lemma ReadsSecond(keys: seq<string>)
    requires keys == ["a", "b"]
    ensures Parse(keys, "a:01") == Some(Place(0, 1))
  {
    assert Dec(1) == "1";
    ParsePublished(keys, Place(0, 1));
    assert "a" + ":" + ("0" + "1") == "a:01";
  }

  /** Nor is a key's number bounded: one message under each of two keys, and the check accepts two
      of the first and none of the second. */
  lemma AcceptsAnotherNumber()
    ensures
      var events := [Event(0, Delivery(Received("a:00", Some("a"), Settled))),
                     Event(0, Delivery(Received("a:01", Some("a"), Settled)))];
      var run := Run(["a", "b"], 1, events, 0);
      run.Accepted() && !run.AllPublished()
  {
    var events := [Event(0, Delivery(Received("a:00", Some("a"), Settled))),
                   Event(0, Delivery(Received("a:01", Some("a"), Settled)))];
    var run := Run(["a", "b"], 1, events, 0);
    ReadsFirst(run.keys);
    ReadsSecond(run.keys);
    assert run.PlaceAt(0) == Place(0, 0) && run.PlaceAt(1) == Place(0, 1);
    assert run.Places(1) == [Place(0, 0)] && [Place(0, 0)][..0] == [];
    assert run.Proper(0) && run.Proper(1);
    assert !run.Published(1);
  }

  // Acceptance by the deliveries alone

  /** The event at `k` delivers the key at `slot` with `number`, under that key, and is settled. */
  ghost predicate Brings(run: Run, k: nat, slot: nat, number: nat)
  {
    && k < |run.events| && slot < |run.keys| && run.events[k].item.Delivery?
    && run.events[k].item.msg.key == Some(run.keys[slot]) && run.events[k].item.msg.ack != Failed
    && Written(run.events[k].item.msg.payload, run.keys[slot], number)
  }

  ghost predicate OfKey(run: Run, k: nat, slot: nat)
  {
    exists number: nat :: Brings(run, k, slot, number)
  }

  /** How many of the first `n` deliveries are of the key at `slot`. */
  ghost function BroughtBefore(run: Run, n: nat, slot: nat): nat
  {
    if n == 0 then 0 else BroughtBefore(run, n - 1, slot) + if OfKey(run, n - 1, slot) then 1 else 0
  }

  lemma ProperBrings(run: Run, k: nat)
    requires Distinct(run.keys) && k < |run.events| && run.Proper(k)
    ensures Brings(run, k, run.PlaceAt(k).slot, run.PlaceAt(k).seqno)
    ensures forall slot: nat | slot != run.PlaceAt(k).slot :: !OfKey(run, k, slot)
  {
    var p := run.PlaceAt(k);
    var payload := run.events[k].item.msg.payload;
    ParseExactly(run.keys, payload, p);
    forall slot: nat | slot != p.slot ensures !OfKey(run, k, slot) {
      if number: nat :| Brings(run, k, slot, number) {
        ParseExactly(run.keys, payload, Place(slot, number));
      }
    }
  }

  lemma {:induction false} BroughtIsCounted(run: Run, n: nat, slot: nat)
    requires Distinct(run.keys) && n <= |run.events| && forall k | 0 <= k < n :: run.Proper(k)
    ensures BroughtBefore(run, n, slot) == Count(run.Places(n), slot)
    decreases n
  {
    if n > 0 {
      BroughtIsCounted(run, n - 1, slot);
      TallyNext(run, n - 1, slot);
      ProperBrings(run, n - 1);
    }
  }

  /** On an accepted run, by the deliveries alone: as many as were published come, each within the
      timeout of the one before, and each brings, under its own key, the number of those of that key
      before it. */
  lemma AcceptedByDeliveries(run: Run, k: nat)
    requires Distinct(run.keys) && run.Accepted() && k < run.perKey * |run.keys|
    ensures run.perKey * |run.keys| <= |run.events|
    ensures Clock(run.events, run.start, k + 1) <= Clock(run.events, run.start, k) + DELIVERY_TIMEOUT
    ensures exists slot: nat :: Brings(run, k, slot, BroughtBefore(run, k, slot))
  {
    assert run.Proper(k);
    ProperBrings(run, k);
    BroughtIsCounted(run, k, run.PlaceAt(k).slot);
  }
}
