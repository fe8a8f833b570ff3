/** Cross-broker publisher tokens (crates/core/src/bindable.rs) and the task-local that reports
    which broker a paired publisher publishes to (crates/core/src/pairing.rs). */
module Pairing {
  import opened Prelude

  /** A broker's connected form, known by its address. */
  datatype Connected = Connected(broker: nat, address: nat)

  /** A publish policy: a broker's own, or a token over another policy. */
  datatype Policy = Leaf(id: nat, fails: bool) | Bound(slot: nat, source: Policy)

  /** A live publisher: the leaf policy and the connected broker it was handed. */
  datatype Live = Live(leaf: nat, on: Connected)

  /** The slots the runtime fills, shared by every token minted over them. */
  type Slots = seq<Option<Connected>>

  /** How many slots a pairing locks. */
  function Depth(p: Policy): nat
  {
    if p.Leaf? then 0 else 1 + Depth(p.source)
  }

  /** Every slot is there when it is locked; `looks` are the slots at each lock in turn. */
  predicate InRange(p: Policy, looks: seq<Slots>)
  {
    p.Bound? ==> looks != [] && p.slot < |looks[0]| && InRange(p.source, looks[1..])
  }

  /** The slot of the token that wraps the leaf policy directly. */
  function Innermost(p: Policy): (slot: nat)
    requires p.Bound?
  {
    if p.source.Leaf? then p.slot else Innermost(p.source)
  }

  function LeafOf(p: Policy): (leaf: Policy)
    ensures leaf.Leaf?
  {
    if p.Leaf? then p else LeafOf(p.source)
  }

  /** Every token's broker is connected when its slot is locked. */
  predicate AllConnected(p: Policy, looks: seq<Slots>)
    requires InRange(p, looks)
  {
    p.Bound? ==> looks[0][p.slot].Some? && AllConnected(p.source, looks[1..])
  }

  /** The broker a pairing comes to: the last one reached before the leaf or a gap. */
  function Reached(p: Policy, looks: seq<Slots>, scope: Connected): Connected
    requires InRange(p, looks)
  {
    if p.Bound? && looks[0][p.slot].Some? then Reached(p.source, looks[1..], looks[0][p.slot].value) else scope
  }

  /** What the innermost token's slot holds when it is locked, last of all. */
  ghost predicate AtInnermost(p: Policy, looks: seq<Slots>, on: Connected)
  {
    && p.Bound? && Depth(p) <= |looks| && Innermost(p) < |looks[Depth(p) - 1]|
    && looks[Depth(p) - 1][Innermost(p)] == Some(on)
  }

  lemma {:induction false} ReachesInnermost(p: Policy, looks: seq<Slots>, scope: Connected)
    requires InRange(p, looks) && AllConnected(p, looks) && p.Bound?
    ensures AtInnermost(p, looks, Reached(p, looks, scope))
    decreases p
  {
    if p.source.Bound? {
      ReachesInnermost(p.source, looks[1..], looks[0][p.slot].value);
      assert looks[1..][Depth(p.source) - 1] == looks[Depth(p) - 1];
    }
  }

  class Task {
    /** `PAIRING`: unset outside a pairing, inside one the origin noted so far. */
    var pairing: Option<nat>

    constructor ()
      ensures pairing == None
    {
      pairing := None;
    }

    method PairsAgainst(connected: Connected)
      modifies this
      ensures pairing == if old(pairing).Some? then Some(connected.address) else None
    {
      if pairing.Some? {
        pairing := Some(connected.address);
      }
    }

    /** `PublishPolicy::pair`: a token ignores the broker it is handed and pairs its source
        against its own, whatever that holds when its slot is locked. */
    method Pair(p: Policy, looks: seq<Slots>, scope: Connected) returns (live: Option<Live>)
      requires InRange(p, looks)
      modifies this
      ensures live.Some? <==> AllConnected(p, looks) && !LeafOf(p).fails
      ensures live.Some? ==> live.value == Live(LeafOf(p).id, Reached(p, looks, scope))
      ensures pairing ==
        if old(pairing).Some? && p.Bound? && looks[0][p.slot].Some? then Some(Reached(p, looks, scope).address)
        else old(pairing)
      decreases p
    {
      match p {
        case Leaf(id, fails) => live := if fails then None else Some(Live(id, scope));
        case Bound(slot, source) =>
          if looks[0][slot].None? {
            return None;
          }
          PairsAgainst(looks[0][slot].value);
          live := Pair(source, looks[1..], looks[0][slot].value);
      }
    }

    /** A pairing the runtime makes, nested in whatever was under way. It succeeds exactly
        when every token's broker is connected as its slot is locked and the leaf accepts; the
        leaf is then handed the innermost token's broker, the scope's only when there is no token,
        and the origin reported is the broker the leaf was handed. */
    method Paired(p: Policy, looks: seq<Slots>, scope: Connected) returns (live: Option<Live>, origin: nat)
      requires InRange(p, looks)
      modifies this
      ensures pairing == old(pairing)
      ensures live.Some? <==> AllConnected(p, looks) && !LeafOf(p).fails
      ensures live.Some? ==>
        && live.value.leaf == LeafOf(p).id && origin == live.value.on.address
        && (p.Leaf? ==> live.value.on == scope)
        && (p.Bound? ==> AtInnermost(p, looks, live.value.on))
      ensures origin == Reached(p, looks, scope).address
    {
      var outer := pairing;
      pairing := Some(scope.address);
      live := Pair(p, looks, scope);
      origin := pairing.value;
      pairing := outer;
      if live.Some? && p.Bound? {
        ReachesInnermost(p, looks, scope);
      }
    }
  }

  // Minting, cloning and registering, in any order

  datatype Bindable = Bindable(broker: nat, slot: nat)

  /** A registered broker and the slot the runtime fills with its connected form. */
  datatype Registration = Registration(broker: nat, slot: nat)

  /** A policy at hand, and the broker whose `Bindable` minted its innermost token. */
  datatype Token = Token(policy: Policy, home: Option<nat>)

  datatype World = World(slots: Slots, bindables: seq<Bindable>, registrations: seq<Registration>, tokens: seq<Token>)

  const EMPTY := World([], [], [], [])

  datatype Op =
    | Wrap(broker: nat)
    | Bare(id: nat, fails: bool)
    | Bind(bindable: nat, source: nat)
    | Clone(token: nat)
    | RegisterBare(broker: nat)
    | RegisterBindable(bindable: nat)
    | Connect(registration: nat, address: nat)
    | TearDown(registration: nat)

  /** One call; an index that names nothing changes nothing. */
  function Next(w: World, op: Op): World
  {
    match op
    case Wrap(broker) =>
      w.(slots := w.slots + [None], bindables := w.bindables + [Bindable(broker, |w.slots|)])
    case Bare(id, fails) => w.(tokens := w.tokens + [Token(Leaf(id, fails), None)])
    case Bind(b, source) =>
      if b < |w.bindables| && source < |w.tokens| then
        var s := w.tokens[source];
        w.(tokens := w.tokens + [Token(Bound(w.bindables[b].slot, s.policy),
                                       if s.home.Some? then s.home else Some(w.bindables[b].broker))])
      else w
    case Clone(t) => if t < |w.tokens| then w.(tokens := w.tokens + [w.tokens[t]]) else w
    case RegisterBare(broker) =>
      w.(slots := w.slots + [None], registrations := w.registrations + [Registration(broker, |w.slots|)])
    case RegisterBindable(b) =>
      if b < |w.bindables| then
        w.(registrations := w.registrations + [Registration(w.bindables[b].broker, w.bindables[b].slot)])
      else w
    case Connect(r, address) =>
      if r < |w.registrations| && w.registrations[r].slot < |w.slots| then
        w.(slots := w.slots[w.registrations[r].slot := Some(Connected(w.registrations[r].broker, address))])
      else w
    case TearDown(r) =>
      if r < |w.registrations| && w.registrations[r].slot < |w.slots| then
        w.(slots := w.slots[w.registrations[r].slot := None])
      else w
  }

  function Ran(ops: seq<Op>): World
    decreases |ops|
  {
    if ops == [] then EMPTY else Next(Ran(ops[..|ops| - 1]), ops[|ops| - 1])
  }

  /** Which broker each slot was made for. */
  type Owners = seq<nat>

  /** Every slot a token locks has been made. */
  predicate Made(p: Policy, owners: Owners)
  {
    p.Bound? ==> p.slot < |owners| && Made(p.source, owners)
  }

  ghost predicate TokenKnows(t: Token, owners: Owners)
  {
    && Made(t.policy, owners)
    && (t.home.None? <==> t.policy.Leaf?)
    && (t.policy.Bound? ==> Innermost(t.policy) < |owners| && t.home == Some(owners[Innermost(t.policy)]))
  }

  /** A slot only ever holds the connected form of the broker it was made for. */
  ghost predicate SlotsKept(slots: Slots, owners: Owners)
  {
    |owners| == |slots| && forall i | 0 <= i < |slots| :: slots[i].Some? ==> slots[i].value.broker == owners[i]
  }

  ghost predicate Consistent(w: World, owners: Owners)
  {
    && SlotsKept(w.slots, owners)
    && (forall i | 0 <= i < |w.bindables| ::
          w.bindables[i].slot < |owners| && owners[w.bindables[i].slot] == w.bindables[i].broker)
    && (forall i | 0 <= i < |w.registrations| ::
          w.registrations[i].slot < |owners| && owners[w.registrations[i].slot] == w.registrations[i].broker)
    && (forall i | 0 <= i < |w.tokens| :: TokenKnows(w.tokens[i], owners))
  }

  lemma {:induction false} MadeStays(p: Policy, before: Owners, after: Owners)
    requires Made(p, before) && before <= after
    ensures Made(p, after) && (p.Bound? ==> Innermost(p) < |before|)
  {
    if p.Bound? {
      MadeStays(p.source, before, after);
    }
  }

  function OwnersOf(ops: seq<Op>): Owners
    decreases |ops|
  {
    if ops == [] then []
    else
      var op := ops[|ops| - 1];
      OwnersOf(ops[..|ops| - 1]) + if op.Wrap? || op.RegisterBare? then [op.broker] else []
  }

  lemma {:induction false} OwnersGrow(ops: seq<Op>, more: seq<Op>)
    ensures OwnersOf(ops) <= OwnersOf(ops + more)
    decreases |more|
  {
    if more == [] {
      assert ops + more == ops;
    } else {
      OwnersGrow(ops, more[..|more| - 1]);
      assert (ops + more)[..|ops + more| - 1] == ops + more[..|more| - 1];
    }
  }

  lemma StepStaysConsistent(w: World, owners: Owners, op: Op)
    requires Consistent(w, owners)
    ensures Consistent(Next(w, op), owners + if op.Wrap? || op.RegisterBare? then [op.broker] else [])
  {
    var after, made := Next(w, op), owners + if op.Wrap? || op.RegisterBare? then [op.broker] else [];
    forall i | 0 <= i < |w.tokens| ensures TokenKnows(w.tokens[i], made) {
      assert TokenKnows(w.tokens[i], owners);
      MadeStays(w.tokens[i].policy, owners, made);
    }
  }

  lemma {:induction false} AlwaysConsistent(ops: seq<Op>)
    ensures Consistent(Ran(ops), OwnersOf(ops))
    decreases |ops|
  {
    if ops != [] {
      AlwaysConsistent(ops[..|ops| - 1]);
      StepStaysConsistent(Ran(ops[..|ops| - 1]), OwnersOf(ops[..|ops| - 1]), ops[|ops| - 1]);
    }
  }

  /** The slots each lock of a pairing finds, which starts after `ops` while others go on: those
      after whatever more has happened by then. */
  function Looks(ops: seq<Op>, more: seq<seq<Op>>): seq<Slots>
  {
    seq(|more|, d requires 0 <= d < |more| => Ran(ops + more[d]).slots)
  }

  ghost predicate LooksKept(looks: seq<Slots>, owners: Owners)
  {
    forall d | 0 <= d < |looks| :: |owners| <= |looks[d]|
      && forall i | 0 <= i < |owners| :: looks[d][i].Some? ==> looks[d][i].value.broker == owners[i]
  }

  lemma LooksStayKept(ops: seq<Op>, more: seq<seq<Op>>)
    ensures LooksKept(Looks(ops, more), OwnersOf(ops))
  {
    forall d | 0 <= d < |more| ensures var look := Looks(ops, more)[d];
      && |OwnersOf(ops)| <= |look|
      && forall i | 0 <= i < |OwnersOf(ops)| :: look[i].Some? ==> look[i].value.broker == OwnersOf(ops)[i]
    {
      AlwaysConsistent(ops + more[d]);
      OwnersGrow(ops, more[d]);
    }
  }

  lemma {:induction false} MadeIsInRange(p: Policy, looks: seq<Slots>, owners: Owners)
    requires Made(p, owners) && LooksKept(looks, owners) && Depth(p) <= |looks|
    ensures InRange(p, looks)
    decreases p
  {
    if p.Bound? {
      assert LooksKept(looks[1..], owners);
      MadeIsInRange(p.source, looks[1..], owners);
    }
  }

  /** Whatever the order of minting, cloning, registering, connecting and tearing down, and
      whatever of it goes on while the token's slots are locked one after the other, a token that
      pairs hands its leaf a connected form of the broker that minted its innermost token, whatever
      scope pairs it; a bare policy is handed the scope's. */
  lemma PairsAgainstItsOwnBroker(ops: seq<Op>, more: seq<seq<Op>>, i: nat, scope: Connected)
    requires i < |Ran(ops).tokens| && Depth(Ran(ops).tokens[i].policy) <= |more|
    ensures
      var t, looks := Ran(ops).tokens[i], Looks(ops, more);
      && InRange(t.policy, looks)
      && (t.home.None? ==> t.policy.Leaf? && Reached(t.policy, looks, scope) == scope)
      && (t.home.Some? && AllConnected(t.policy, looks) ==> Reached(t.policy, looks, scope).broker == t.home.value)
  {
    var t, looks, owners := Ran(ops).tokens[i], Looks(ops, more), OwnersOf(ops);
    AlwaysConsistent(ops);
    LooksStayKept(ops, more);
    assert TokenKnows(t, owners);
    MadeIsInRange(t.policy, looks, owners);
    if t.home.Some? && AllConnected(t.policy, looks) {
      ReachesInnermost(t.policy, looks, scope);
    }
  }

  // What the calls make, by the calls alone

  /** How many brokers were wrapped. */
  function Wraps(ops: seq<Op>): nat
    decreases |ops|
  {
    if ops == [] then 0 else Wraps(ops[..|ops| - 1]) + if ops[|ops| - 1].Wrap? then 1 else 0
  }

  /** How many slots were made: one for each wrapped broker and each broker registered bare. */
  function SlotsMade(ops: seq<Op>): nat
    decreases |ops|
  {
    if ops == [] then 0
    else SlotsMade(ops[..|ops| - 1]) + if ops[|ops| - 1].Wrap? || ops[|ops| - 1].RegisterBare? then 1 else 0
  }

  /** The call at `i` wraps the broker that is bindable number `b`. */
  ghost predicate IsWrap(ops: seq<Op>, b: nat, i: nat)
  {
    i < |ops| && ops[i].Wrap? && Wraps(ops[..i]) == b
  }

  lemma RanNext(ops: seq<Op>, op: Op)
    ensures Ran(ops + [op]) == Next(Ran(ops), op)
    ensures Wraps(ops + [op]) == Wraps(ops) + if op.Wrap? then 1 else 0
    ensures SlotsMade(ops + [op]) == SlotsMade(ops) + if op.Wrap? || op.RegisterBare? then 1 else 0
  {
    assert (ops + [op])[..|ops|] == ops;
  }

  lemma {:induction false} Counted(ops: seq<Op>)
    ensures |Ran(ops).bindables| == Wraps(ops) && |Ran(ops).slots| == SlotsMade(ops)
    decreases |ops|
  {
    if ops != [] {
      Counted(ops[..|ops| - 1]);
    }
  }

  /** Nothing made is taken back. */
  lemma {:induction false} MadeStaysMade(ops: seq<Op>, more: seq<Op>)
    ensures Ran(ops).bindables <= Ran(ops + more).bindables
    ensures Ran(ops).registrations <= Ran(ops + more).registrations
    ensures Ran(ops).tokens <= Ran(ops + more).tokens
    decreases |more|
  {
    if more == [] {
      assert ops + more == ops;
    } else {
      var front, last := more[..|more| - 1], more[|more| - 1];
      MadeStaysMade(ops, front);
      assert ops + more == ops + front + [last];
      RanNext(ops + front, last);
    }
  }

  /** A wrapped broker has a slot of its own, made by the call that wrapped it. */
  lemma WrapMakes(ops: seq<Op>, b: nat, i: nat)
    requires IsWrap(ops, b, i)
    ensures b < |Ran(ops).bindables| && Ran(ops).bindables[b] == Bindable(ops[i].broker, SlotsMade(ops[..i]))
  {
    Counted(ops[..i]);
    RanNext(ops[..i], ops[i]);
    assert ops[..i] + [ops[i]] == ops[..i + 1] && ops[..i + 1] + ops[i + 1..] == ops;
    MadeStaysMade(ops[..i + 1], ops[i + 1..]);
  }

  /** Minting adds one token, bound to the slot of the bindable it is minted from over the policy it
      is given; its home is that policy's, or the wrapped broker where the policy is bare. */
  lemma BindMints(ops: seq<Op>, b: nat, i: nat, source: nat)
    requires IsWrap(ops, b, i) && source < |Ran(ops).tokens|
    ensures
      var w, after := Ran(ops), Ran(ops + [Bind(b, source)]);
      var from := w.tokens[source];
      var home := if from.home.Some? then from.home else Some(ops[i].broker);
      after == w.(tokens := w.tokens + [Token(Bound(SlotsMade(ops[..i]), from.policy), home)])
  {
    WrapMakes(ops, b, i);
    RanNext(ops, Bind(b, source));
  }

  /** A bare policy is its own token, and a clone is the token it was cloned from. */
  lemma TokensMade(ops: seq<Op>, id: nat, fails: bool, t: nat)
    ensures
      var w, after := Ran(ops), Ran(ops + [Bare(id, fails)]);
      after == w.(tokens := w.tokens + [Token(Leaf(id, fails), None)])
    ensures t < |Ran(ops).tokens| ==>
      Ran(ops + [Clone(t)]) == Ran(ops).(tokens := Ran(ops).tokens + [Ran(ops).tokens[t]])
  {
    RanNext(ops, Bare(id, fails));
    RanNext(ops, Clone(t));
  }

  /** A bindable registers with the broker and the slot its tokens share; a bare broker with a new
      empty slot. */
  lemma RegisteringShares(ops: seq<Op>, b: nat, i: nat, broker: nat)
    requires IsWrap(ops, b, i)
    ensures
      var w := Ran(ops);
      && Ran(ops + [RegisterBindable(b)]) ==
         w.(registrations := w.registrations + [Registration(ops[i].broker, SlotsMade(ops[..i]))])
      && Ran(ops + [RegisterBare(broker)]) ==
         w.(slots := w.slots + [None], registrations := w.registrations + [Registration(broker, SlotsMade(ops))])
  {
    WrapMakes(ops, b, i);
    Counted(ops);
    RanNext(ops, RegisterBindable(b));
    RanNext(ops, RegisterBare(broker));
  }

  /** Wrapping makes a bindable with the new slot, which is empty. */
  lemma WrappingMakes(ops: seq<Op>, broker: nat)
    ensures
      var w := Ran(ops);
      Ran(ops + [Wrap(broker)]) ==
        w.(slots := w.slots + [None], bindables := w.bindables + [Bindable(broker, SlotsMade(ops))])
  {
    Counted(ops);
    RanNext(ops, Wrap(broker));
  }

  lemma RegistrationHasItsSlot(ops: seq<Op>, r: nat)
    requires r < |Ran(ops).registrations|
    ensures Ran(ops).registrations[r].slot < |Ran(ops).slots|
  {
    AlwaysConsistent(ops);
  }

  /** Connecting fills the registration's slot and no other. */
  lemma ConnectingFills(ops: seq<Op>, r: nat, address: nat)
    requires r < |Ran(ops).registrations|
    ensures
      var w := Ran(ops);
      var made := w.registrations[r];
      && made.slot < |w.slots|
      && Ran(ops + [Connect(r, address)]) == w.(slots := w.slots[made.slot := Some(Connected(made.broker, address))])
  {
    var w := Ran(ops);
    RegistrationHasItsSlot(ops, r);
    RanNext(ops, Connect(r, address));
    assert Next(w, Connect(r, address)).slots ==
      w.slots[w.registrations[r].slot := Some(Connected(w.registrations[r].broker, address))];
  }

  /** Tearing down empties it. */
  lemma TearingDownEmpties(ops: seq<Op>, r: nat)
    requires r < |Ran(ops).registrations|
    ensures
      var w := Ran(ops);
      var made := w.registrations[r];
      made.slot < |w.slots| && Ran(ops + [TearDown(r)]) == w.(slots := w.slots[made.slot := None])
  {
    var w := Ran(ops);
    RegistrationHasItsSlot(ops, r);
    RanNext(ops, TearDown(r));
    assert Next(w, TearDown(r)).slots == w.slots[w.registrations[r].slot := None];
  }

  /** A token minted over a bare policy from bindable number `b` publishes to the broker of the
      `b`-th call that wraps one, whatever is called after and while it pairs. */
  lemma MintedPairsAgainstItsBroker(ops: seq<Op>, b: nat, i: nat, source: nat, later: seq<Op>, more: seq<seq<Op>>,
                                    scope: Connected)
    requires IsWrap(ops, b, i) && source < |Ran(ops).tokens| && Ran(ops).tokens[source].policy.Leaf? && more != []
    ensures
      var all, k := ops + [Bind(b, source)] + later, |Ran(ops).tokens|;
      var looks := Looks(all, more);
      && k < |Ran(all).tokens|
      && Ran(all).tokens[k].policy == Bound(SlotsMade(ops[..i]), Ran(ops).tokens[source].policy)
      && InRange(Ran(all).tokens[k].policy, looks)
      && (AllConnected(Ran(all).tokens[k].policy, looks) ==>
            Reached(Ran(all).tokens[k].policy, looks, scope).broker == ops[i].broker)
  {
    var minted := ops + [Bind(b, source)];
    BindMints(ops, b, i, source);
    MadeStaysMade(minted, later);
    AlwaysConsistent(ops);
    assert TokenKnows(Ran(ops).tokens[source], OwnersOf(ops));
    assert Ran(minted + later).tokens[|Ran(ops).tokens|] == Ran(minted).tokens[|Ran(ops).tokens|];
    PairsAgainstItsOwnBroker(minted + later, more, |Ran(ops).tokens|, scope);
  }
}
