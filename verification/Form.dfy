/** The two payload forms (crates/core/src/form.rs), the refusal that hands a message back
    (crates/core/src/publisher.rs), and a publish through any number of stages built from them
    (the nesting of crates/runtime/src/publish/out.rs). */
module Form {
  import opened Prelude
  import opened Outgoing

  datatype Form = Lend | Take

  /** The rooms of a build: both unbounded with `alloc`, 256 and 64 bytes without. */
  datatype Build = Build(payload: Room, destination: Room)

  const ALLOC := Build(Unbounded, Unbounded)
  const FIXED := Build(Capped(256), Capped(64))

  /** The payload as the transport is handed it: a view, or a buffer to keep. */
  datatype Handed = View(slice: Slice) | Buffer(buf: Bytes)

  datatype Message = Message(name: Name, payload: Handed, headers: Headers)

  datatype KeptPayload = KeptOwned(bytes: Bytes) | KeptLent(slice: Slice)

  /** A buffer a stage keeps alive for the send, where it sits. */
  datatype Stored = Stored(addr: nat, bytes: Bytes)

  datatype Spent = Spent(name: Option<OutgoingName>, buffer: Option<Stored>)

  datatype Unsent = Unsent(destination: Name, payload: KeptPayload, headers: Headers)

  datatype Outcome = Sent | Refused(unsent: Option<Unsent>)

  /** What the broker's client answers, and whether a refusal gives the message back. */
  datatype Transport = Accepts | Refuses(givesBack: bool)

  ghost predicate ValidMessage(mem: Memory, room: Room, msg: Message)
  {
    match msg.payload
    case View(s) => Readable(mem, s)
    case Buffer(b) => Fits(room, |b|)
  }

  function Seen(mem: Memory, msg: Message): Plain
    requires msg.payload.View? ==> Readable(mem, msg.payload.slice)
  {
    Plain(msg.name,
          match msg.payload case View(s) => Read(mem, s) case Buffer(b) => b,
          msg.headers)
  }

  function HoldOf(msg: Message): Hold { if msg.payload.View? then Carried else Kept }

  function LenderOf(msg: Message): Option<Slice>
  {
    if msg.payload.View? then Some(msg.payload.slice) else None
  }

  /** An allocator never hands out memory that is live; the address of no bytes is anyone's. */
  ghost predicate Honest(alloc: (Memory, nat) -> nat)
  {
    forall mem, n :: Free(mem, alloc(mem, n), n)
  }

  /** `PayloadForm::rebuilt`: the message back on the pipeline, in the form it arrived in. */
  method Rebuilt(mem: Memory, room: Room, msg: Message) returns (out: Outgoing)
    requires ValidMessage(mem, room, msg)
    ensures fresh(out) && out.Valid(mem, room)
    ensures out.Shown(mem) == Seen(mem, msg) && out.Holds(HoldOf(msg), LenderOf(msg))
  {
    var payload := match msg.payload case View(s) => Lent(s) case Buffer(b) => OwnedBuf(b);
    out := new Outgoing.Rebuilding(Borrowed(msg.name), payload, msg.headers);
  }

  /** What a taking hand-over makes of the bytes: a fixed buffer they do not fit stays empty. */
  function Taken(bytes: Bytes, room: Room): (r: Bytes)
    ensures r == bytes <==> Fits(room, |bytes|)
  {
    if Fits(room, |bytes|) then bytes else []
  }

  function HandedBytes(form: Form, bytes: Bytes, room: Room): Bytes
  {
    if form.Take? then Taken(bytes, room) else bytes
  }

  /** The destination as the leaving message reads it, with what the stage keeps of it. */
  function KeptName(name: OutgoingName): (r: (Name, Option<OutgoingName>))
    ensures r.0 == name.name
    ensures if name.Borrowed? then r.1.None? else r.1 == Some(name)
  {
    match name
    case Borrowed(n) => (n, None)
    case Owned(n) => (n, Some(Owned(n)))
    case Shared(n) => (n, Some(Shared(n)))
  }

  /** Where the message a stage handed on has its bytes, and what the stage keeps for the send:
      a taking form moves them out, a lending one shows them where they are. */
  ghost predicate Spends(form: Form, t: Track, lender: Option<Slice>, msg: Message, spent: Spent)
  {
    if form.Take? then msg.payload.Buffer? && spent.buffer.None?
    else match t.hold
      case Carried => lender.Some? && msg.payload == View(lender.value) && spent.buffer.None?
      case Kept => spent.buffer.Some? && spent.buffer.value.bytes == t.plain.bytes
                   && msg.payload == View(Slice(spent.buffer.value.addr, |t.plain.bytes|))
      case Gone => msg.payload == View(EMPTY) && spent.buffer.None?
  }

  /** `PayloadForm::handed_on`: the stage spends its message into `spent` and the message that
      goes on. Lent bytes go on where they are; a buffer the stage wrote is stored for the send. */
  method HandedOn(form: Form, mem: Memory, room: Room, alloc: (Memory, nat) -> nat,
                  out: Outgoing, ghost hold: Hold, ghost lender: Option<Slice>)
    returns (msg: Message, spent: Spent, after: Memory)
    requires out.Valid(mem, room) && Honest(alloc) && out.Holds(hold, lender)
    ensures ValidMessage(after, room, msg) && Preserves(mem, after)
    ensures Seen(after, msg) == out.Shown(mem).(bytes := HandedBytes(form, out.Shown(mem).bytes, room))
    ensures Spends(form, Track(out.Shown(mem), hold), lender, msg, spent)
  {
    var (name, keptName) := KeptName(out.name);
    after := mem;
    match form {
      case Take =>
        var payload := match out.payload
          case Lent(s) => Taken(Read(mem, s), room)
          case OwnedBuf(b) => b
          case Consumed => [];
        msg, spent := Message(name, Buffer(payload), out.headers), Spent(keptName, None);
      case Lend =>
        match out.payload {
          case Lent(s) => msg, spent := Message(name, View(s), out.headers), Spent(keptName, None);
          case Consumed => msg, spent := Message(name, View(EMPTY), out.headers), Spent(keptName, None);
          case OwnedBuf(b) =>
            var at := alloc(mem, |b|);
            PlaceReads(mem, at, b);
            after := Place(mem, at, b);
            msg := Message(name, View(Slice(at, |b|)), out.headers);
            spent := Spent(keptName, Some(Stored(at, b)));
        }
    }
  }

  /** `PayloadForm::kept`: what a refusal keeps of the payload it got back. */
  function KeptOf(payload: Handed): KeptPayload
  {
    match payload case View(s) => KeptLent(s) case Buffer(b) => KeptOwned(b)
  }

  /** `SinkRefusal::with_message`: a destination past the room comes back without its message. */
  function WithMessage(build: Build, destination: Name, payload: KeptPayload, headers: Headers): (r: Outcome)
    ensures r.Refused? && (r.unsent.Some? <==> Fits(build.destination, |destination|))
  {
    Refused(if Fits(build.destination, |destination|) then Some(Unsent(destination, payload, headers)) else None)
  }

  /** `SinkRefusal::returned`, over the publisher's answer. */
  function Returned(build: Build, msg: Message, transport: Transport): Outcome
  {
    match transport
    case Accepts => Sent
    case Refuses(false) => Refused(None)
    case Refuses(true) => WithMessage(build, msg.name, KeptOf(msg.payload), msg.headers)
  }

  /** `PayloadForm::leaving`: the message leaves, while the stage keeps `out` to restore it. */
  method Leaving(form: Form, mem: Memory, room: Room, alloc: (Memory, nat) -> nat, out: Outgoing)
    returns (msg: Message, after: Memory)
    requires out.Valid(mem, room) && Honest(alloc)
    modifies out
    ensures out.Valid(mem, room) && ValidMessage(after, room, msg) && Preserves(mem, after)
    ensures Seen(after, msg) ==
      old(out.Shown(mem)).(bytes := HandedBytes(form, old(out.Shown(mem)).bytes, room))
    ensures out.headers == map[] && out.name == old(out.name)
    ensures form.Lend? ==> msg.payload.View? && out.payload == old(out.payload)
    ensures form.Take? ==> msg.payload.Buffer? && out.payload == Lent(EMPTY)
  {
    after := mem;
    var name, headers := out.name.name, out.headers;
    match form {
      case Lend =>
        out.headers := map[];
        var view := EMPTY;
        match out.payload {
          case Lent(s) => view := s;
          case Consumed =>
          case OwnedBuf(b) =>
            var at := alloc(mem, |b|);
            PlaceReads(mem, at, b);
            after := Place(mem, at, b);
            view := Slice(at, |b|);
        }
        msg := Message(name, View(view), headers);
      case Take =>
        var taken := out.TakePayload(mem, room);
        out.headers := map[];
        msg := Message(name, Buffer(if taken.Some? then taken.value else []), headers);
    }
  }

  /** `Refusal::restore` over `PayloadForm::restored`: the message the publisher returned goes
      back into `out`, which then reads as the message that was sent, or is gone. */
  method Restore(mem: Memory, room: Room, back: Option<Message>, out: Outgoing)
    requires out.Valid(mem, room)
    requires back.Some? && back.value.payload.Buffer? ==> Fits(room, |back.value.payload.buf|)
    modifies out
    ensures out.Valid(mem, room) && out.name == old(out.name)
    ensures back.None? ==> out.payload.Consumed? && out.headers == map[]
    ensures back.Some? ==>
      && out.headers == back.value.headers
      && out.payload == match back.value.payload case View(_) => old(out.payload) case Buffer(b) => OwnedBuf(b)
  {
    match back {
      case None => out.Consume();
      case Some(msg) =>
        match KeptOf(msg.payload) {
          case KeptOwned(bytes) => out.payload := OwnedBuf(bytes);
          case KeptLent(_) =>
        }
        out.headers := msg.headers;
    }
  }

  /** The middleware's innermost call (`PublishIdentity::run`): the message leaves, and a refusal
      puts it back. The transport is shown the stage's message; afterwards the stage's own `out`
      reads as what was shown, which is what it held before wherever the taking form could hold
      it. A client that keeps the message leaves nothing. */
  method RunPublish(form: Form, mem: Memory, room: Room, alloc: (Memory, nat) -> nat, out: Outgoing,
                    transport: Transport)
    returns (shown: Plain)
    requires out.Valid(mem, room) && Honest(alloc)
    modifies out
    ensures out.Valid(mem, room)
    ensures shown == old(out.Shown(mem)).(bytes := HandedBytes(form, old(out.Shown(mem)).bytes, room))
    ensures transport == Refuses(true) ==>
      && out.Shown(mem) == shown
      && (shown == old(out.Shown(mem)) <==> form.Lend? || Fits(room, |old(out.Shown(mem)).bytes|))
      && (form.Take? ==> out.payload.OwnedBuf?) && (form.Lend? ==> out.payload == old(out.payload))
    ensures transport == Refuses(false) ==>
      out.payload.Consumed? && out.Shown(mem) == Plain(old(out.Shown(mem)).name, [], map[])
  {
    var msg, sent := Leaving(form, mem, room, alloc, out);
    shown := Seen(sent, msg);
    if transport.Refuses? {
      Restore(mem, room, if transport.givesBack then Some(msg) else None, out);
    }
  }

  /** `Refusal::of` then `into_sink`: the refusal of a stage that restored its message. */
  method RefusalOf(build: Build, mem: Memory, out: Outgoing) returns (r: Outcome)
    requires out.Valid(mem, build.payload)
    modifies out
    ensures r.Refused?
    ensures r == match old(out.payload)
      case Consumed => Refused(None)
      case OwnedBuf(b) => WithMessage(build, old(out.name.name), KeptOwned(b), old(out.headers))
      case Lent(s) => WithMessage(build, old(out.name.name), KeptLent(s), old(out.headers))
  {
    if out.payload.Consumed? {
      return Refused(None);
    }
    var owned := out.TakeOwnedPayload();
    var payload := match owned
      case Some(bytes) => KeptOwned(bytes)
      case None => KeptLent(out.payload.slice);
    r := WithMessage(build, out.name.name, payload, out.headers);
    out.headers := map[];
  }

  /** `SinkRefusal::reclaiming` over `PayloadForm::reclaimed`: the stage moves its own buffer
      into the refusal when that buffer is what the transport was shown. */
  function Reclaiming(form: Form, spent: Spent, outcome: Outcome): (r: Outcome)
  {
    if form.Lend? && outcome.Refused? && outcome.unsent.Some? && spent.buffer.Some?
       && outcome.unsent.value.payload == KeptLent(Slice(spent.buffer.value.addr, |spent.buffer.value.bytes|))
    then Refused(Some(outcome.unsent.value.(payload := KeptOwned(spent.buffer.value.bytes))))
    else outcome
  }

  // A publish through nested stages

  /** A stage rebuilds the message, edits it and hands it on in a form. */
  datatype Stage = Stage(edits: seq<Edit>, form: Form)

  /** What the stages end in: the publisher itself, or a middleware stack around it. */
  datatype Terminal = Direct | Stack(stage: Stage)

  ghost predicate WellFormedStages(stages: seq<Stage>, terminal: Terminal, room: Room)
  {
    && (forall i | 0 <= i < |stages| :: WellFormed(stages[i].edits, room))
    && (terminal.Stack? ==> WellFormed(terminal.stage.edits, room))
  }

  function ThroughStage(t: Track, stage: Stage, room: Room): Track
  {
    var e := EditedBy(t, stage.edits, room);
    if stage.form.Lend? then e
    else Track(e.plain.(bytes := Taken(e.plain.bytes, room)), Kept)
  }

  /** What the transport is shown, and who holds it, after every stage. */
  function Through(t: Track, stages: seq<Stage>, terminal: Terminal, room: Room): Track
    decreases |stages|
  {
    if stages != [] then Through(ThroughStage(t, stages[0], room), stages[1..], terminal, room)
    else if terminal.Stack? then ThroughStage(t, terminal.stage, room)
    else t
  }

  /** Whether the last stage's middleware consumed a message it only lends on: there is then
      nothing for the refusal to hand back. */
  predicate EndsConsumed(p: Plain, stages: seq<Stage>, terminal: Terminal, room: Room)
    decreases |stages|
  {
    if stages != [] then
      EndsConsumed(ThroughStage(Track(p, Carried), stages[0], room).plain, stages[1..], terminal, room)
    else
      terminal.Stack? && terminal.stage.form.Lend? && EditedBy(Track(p, Carried), terminal.stage.edits, room).hold.Gone?
  }

  /** The hold a run ends with depends on where it starts only if nothing on the way took the
      bytes over. */
  lemma {:induction false} EditsHold(p: Plain, h: Hold, edits: seq<Edit>, room: Room)
    requires h.Gone? ==> p.bytes == []
    ensures var t, c := EditedBy(Track(p, h), edits, room), EditedBy(Track(p, Carried), edits, room);
      && t.plain == c.plain && t.hold == (if c.hold.Carried? then h else c.hold)
      && (t.hold.Gone? ==> t.plain.bytes == [])
      && (c.hold.Carried? ==> c.plain.bytes == p.bytes)
    decreases |edits|
  {
    if edits != [] {
      var t, c := Edited(Track(p, h), edits[0], room), Edited(Track(p, Carried), edits[0], room);
      EditsHold(t.plain, t.hold, edits[1..], room);
      EditsHold(c.plain, c.hold, edits[1..], room);
    }
  }

  lemma {:induction false} ThroughHold(p: Plain, h: Hold, stages: seq<Stage>, terminal: Terminal, room: Room)
    requires h.Gone? ==> p.bytes == []
    ensures
      var t := Through(Track(p, h), stages, terminal, room);
      var c := Through(Track(p, Carried), stages, terminal, room);
      && t.plain == c.plain && t.hold == (if c.hold.Carried? then h else c.hold)
      && (t.hold.Gone? ==> t.plain.bytes == [])
      && (c.hold.Carried? ==> c.plain.bytes == p.bytes)
    decreases |stages|
  {
    if stages != [] {
      EditsHold(p, h, stages[0].edits, room);
      var t, c := ThroughStage(Track(p, h), stages[0], room), ThroughStage(Track(p, Carried), stages[0], room);
      ThroughHold(t.plain, t.hold, stages[1..], terminal, room);
      ThroughHold(c.plain, c.hold, stages[1..], terminal, room);
    } else if terminal.Stack? {
      EditsHold(p, h, terminal.stage.edits, room);
    }
  }

  /** What a refusal hands back of a publish that showed the transport `shown`. */
  ghost predicate HandsBack(u: Unsent, shown: Track, lender: Option<Slice>)
  {
    && u.destination == shown.plain.name
    && u.headers == shown.plain.headers
    && match shown.hold
       case Kept => u.payload == KeptOwned(shown.plain.bytes)
       case Carried => lender.Some? && u.payload == KeptLent(lender.value)
       case Gone => shown.plain.bytes == [] && u.payload in {KeptLent(EMPTY), KeptOwned([])}
  }

  /** The outcome of a publish that showed the transport `shown`: a refusal carries the message
      exactly when the client gave it back, its name fits the refusal and it was not consumed. */
  ghost predicate Reports(build: Build, transport: Transport, shown: Track, consumed: bool,
                          lender: Option<Slice>, outcome: Outcome)
  {
    && (outcome.Sent? <==> transport.Accepts?)
    && (outcome.Refused? ==>
          && (outcome.unsent.Some? <==>
                transport.givesBack && Fits(build.destination, |shown.plain.name|) && !consumed)
          && (outcome.unsent.Some? ==> HandsBack(outcome.unsent.value, shown, lender)))
  }

  /** The publish at the end of the stages: the publisher, under a middleware stack or bare. */
  method SendTerminal(build: Build, mem: Memory, alloc: (Memory, nat) -> nat, msg: Message,
                      terminal: Terminal, transport: Transport)
    returns (shown: Plain, outcome: Outcome)
    requires Honest(alloc) && ValidMessage(mem, build.payload, msg)
    requires WellFormedStages([], terminal, build.payload)
    ensures
      var t := Through(Track(Seen(mem, msg), HoldOf(msg)), [], terminal, build.payload);
      && shown == t.plain
      && Reports(build, transport, t, EndsConsumed(Seen(mem, msg), [], terminal, build.payload), LenderOf(msg), outcome)
  {
    if terminal.Direct? {
      return Seen(mem, msg), Returned(build, msg, transport);
    }
    var stage, room := terminal.stage, build.payload;
    var out := Rebuilt(mem, room, msg);
    out.Apply(mem, room, stage.edits, HoldOf(msg), LenderOf(msg));
    EditsHold(Seen(mem, msg), HoldOf(msg), stage.edits, room);
    shown := RunPublish(stage.form, mem, room, alloc, out, transport);
    if transport.Accepts? {
      outcome := Sent;
    } else {
      outcome := RefusalOf(build, mem, out);
    }
  }

  /** One stage on the way back: what the stages below report of the message it handed on is,
      once it reclaims its buffer, what it reports of the message it was handed. */
  lemma ReclaimingReports(build: Build, transport: Transport, start: Track, lender: Option<Slice>, stage: Stage,
                          sent: Message, spent: Spent, rest: seq<Stage>, terminal: Terminal, consumed: bool,
                          outcome: Outcome)
    requires start.hold.Gone? ==> start.plain.bytes == []
    requires
      var here := ThroughStage(start, stage, build.payload);
      var below := Through(Track(here.plain, HoldOf(sent)), rest, terminal, build.payload);
      && Reports(build, transport, below, consumed, LenderOf(sent), outcome)
      && Spends(stage.form, EditedBy(start, stage.edits, build.payload), lender, sent, spent)
    ensures Reports(build, transport, Through(start, [stage] + rest, terminal, build.payload), consumed, lender,
                    Reclaiming(stage.form, spent, outcome))
  {
    var here := ThroughStage(start, stage, build.payload);
    EditsHold(start.plain, start.hold, stage.edits, build.payload);
    ThroughHold(here.plain, here.hold, rest, terminal, build.payload);
    ThroughHold(here.plain, HoldOf(sent), rest, terminal, build.payload);
    assert ([stage] + rest)[1..] == rest;
  }

  /** One stage on the way down: it edits the message it was handed and hands it on. */
  method SendStage(build: Build, mem: Memory, alloc: (Memory, nat) -> nat, msg: Message, stage: Stage)
    returns (sent: Message, spent: Spent, after: Memory)
    requires Honest(alloc) && ValidMessage(mem, build.payload, msg) && WellFormed(stage.edits, build.payload)
    ensures Preserves(mem, after) && ValidMessage(after, build.payload, sent)
    ensures
      var start := Track(Seen(mem, msg), HoldOf(msg));
      && Seen(after, sent) == ThroughStage(start, stage, build.payload).plain
      && Spends(stage.form, EditedBy(start, stage.edits, build.payload), LenderOf(msg), sent, spent)
  {
    var out := Rebuilt(mem, build.payload, msg);
    out.Apply(mem, build.payload, stage.edits, HoldOf(msg), LenderOf(msg));
    ghost var edited := EditedBy(Track(Seen(mem, msg), HoldOf(msg)), stage.edits, build.payload);
    sent, spent, after := HandedOn(stage.form, mem, build.payload, alloc, out, edited.hold, LenderOf(msg));
  }

  /** The stages of a publish, one inside the other. */
  method SendThrough(build: Build, mem: Memory, alloc: (Memory, nat) -> nat, msg: Message,
                     stages: seq<Stage>, terminal: Terminal, transport: Transport)
    returns (shown: Plain, outcome: Outcome, after: Memory)
    requires Honest(alloc) && ValidMessage(mem, build.payload, msg)
    requires WellFormedStages(stages, terminal, build.payload)
    ensures Preserves(mem, after)
    ensures
      var t := Through(Track(Seen(mem, msg), HoldOf(msg)), stages, terminal, build.payload);
      && shown == t.plain
      && (t.hold.Carried? ==> shown.bytes == Seen(mem, msg).bytes)
      && Reports(build, transport, t, EndsConsumed(Seen(mem, msg), stages, terminal, build.payload),
                 LenderOf(msg), outcome)
    decreases |stages|
  {
    var room := build.payload;
    ghost var start := Track(Seen(mem, msg), HoldOf(msg));
    ThroughHold(start.plain, start.hold, stages, terminal, room);
    if stages == [] {
      shown, outcome := SendTerminal(build, mem, alloc, msg, terminal, transport);
      return shown, outcome, mem;
    }
    var stage := stages[0];
    var sent, spent, stored := SendStage(build, mem, alloc, msg, stage);
    shown, outcome, after := SendThrough(build, stored, alloc, sent, stages[1..], terminal, transport);
    EditsHold(start.plain, start.hold, stage.edits, room);
    ThroughHold(Seen(stored, sent), ThroughStage(start, stage, room).hold, stages[1..], terminal, room);
    ThroughHold(Seen(stored, sent), HoldOf(sent), stages[1..], terminal, room);
    ReclaimingReports(build, transport, start, LenderOf(msg), stage, sent, spent, stages[1..], terminal,
                      EndsConsumed(Seen(mem, msg), stages, terminal, room), outcome);
    assert [stage] + stages[1..] == stages;
    outcome := Reclaiming(stage.form, spent, outcome);
  }

  // Plain record semantics

  /** Every edit of a pipeline, in the order the stages run them. */
  function AllEdits(stages: seq<Stage>, terminal: Terminal): seq<Edit>
  {
    if stages != [] then stages[0].edits + AllEdits(stages[1..], terminal)
    else if terminal.Stack? then terminal.stage.edits
    else []
  }

  /** At every taking hand-over, what the edits so far made of the bytes fits the buffer. */
  ghost predicate TakesFit(p: Plain, stages: seq<Stage>, terminal: Terminal, room: Room)
    decreases |stages|
  {
    if stages == [] && terminal.Direct? then true
    else
      var stage := if stages == [] then terminal.stage else stages[0];
      var q := AmendedBy(p, stage.edits, room);
      && (stage.form.Take? ==> Fits(room, |q.bytes|))
      && (stages != [] ==> TakesFit(q, stages[1..], terminal, room))
  }

  lemma {:induction false} AmendedInTurn(p: Plain, first: seq<Edit>, second: seq<Edit>, room: Room)
    ensures AmendedBy(p, first + second, room) == AmendedBy(AmendedBy(p, first, room), second, room)
    decreases |first|
  {
    if first == [] {
      assert first + second == second;
    } else {
      AmendedInTurn(Amended(p, first[0], room), first[1..], second, room);
      assert (first + second)[1..] == first[1..] + second;
    }
  }

  /** For every pipeline, in either form at every hand-over, what leaves is the plain record the
      edits describe, wherever each taking hand-over fits its buffer. */
  lemma {:induction false} LeavesAsPlainRecord(t: Track, stages: seq<Stage>, terminal: Terminal, room: Room)
    requires TakesFit(t.plain, stages, terminal, room)
    ensures Through(t, stages, terminal, room).plain == AmendedBy(t.plain, AllEdits(stages, terminal), room)
    ensures Comes(t.plain, AllEdits(stages, terminal), room, Through(t, stages, terminal, room).plain)
    decreases |stages|
  {
    AmendedComes(t.plain, AllEdits(stages, terminal), room);
    if stages != [] {
      EditedIsAmended(t, stages[0].edits, room);
      AmendedInTurn(t.plain, stages[0].edits, AllEdits(stages[1..], terminal), room);
      LeavesAsPlainRecord(ThroughStage(t, stages[0], room), stages[1..], terminal, room);
    } else if terminal.Stack? {
      EditedIsAmended(t, terminal.stage.edits, room);
    }
  }

  /** What the first `i` stages hand on is the record their edits describe. */
  ghost predicate HandsOnRecord(t: Track, stages: seq<Stage>, i: nat, room: Room)
    requires i <= |stages|
  {
    Through(t, stages[..i], Direct, room).plain == AmendedBy(t.plain, AllEdits(stages[..i], Direct), room)
  }

  lemma HandsOnNext(t: Track, stages: seq<Stage>, i: nat, room: Room)
    requires 0 < i <= |stages|
    requires ThroughStage(t, stages[0], room).plain == AmendedBy(t.plain, stages[0].edits, room)
    ensures HandsOnRecord(t, stages, i, room) <==>
      HandsOnRecord(ThroughStage(t, stages[0], room), stages[1..], i - 1, room)
  {
    assert stages[..i][0] == stages[0] && stages[..i][1..] == stages[1..][..i - 1];
    AmendedInTurn(t.plain, stages[0].edits, AllEdits(stages[1..][..i - 1], Direct), room);
  }

  lemma FirstHandsOn(t: Track, stages: seq<Stage>, room: Room)
    requires stages != []
    ensures HandsOnRecord(t, stages, 1, room) <==>
      ThroughStage(t, stages[0], room).plain == AmendedBy(t.plain, stages[0].edits, room)
  {
    var one := stages[..1];
    assert one != [] && one[0] == stages[0] && one[1..] == [];
    assert AllEdits([], Direct) == [] && stages[0].edits + [] == stages[0].edits;
    assert AllEdits(one, Direct) == stages[0].edits;
    assert Through(t, one, Direct, room) == Through(ThroughStage(t, stages[0], room), [], Direct, room);
  }

  /** The condition is exact: each stage in turn hands on the record the edits so far describe if and
      only if every taking hand-over fits its buffer. */
  lemma {:induction false} HandOversExactly(t: Track, stages: seq<Stage>, room: Room)
    ensures TakesFit(t.plain, stages, Direct, room) <==>
      forall i | 0 <= i <= |stages| :: HandsOnRecord(t, stages, i, room)
    decreases |stages|
  {
    if stages == [] {
      assert stages[..0] == [];
    } else {
      EditedIsAmended(t, stages[0].edits, room);
      FirstHandsOn(t, stages, room);
      var next := ThroughStage(t, stages[0], room);
      if next.plain == AmendedBy(t.plain, stages[0].edits, room) {
        HandOversExactly(next, stages[1..], room);
        forall i | 0 < i <= |stages|
          ensures HandsOnRecord(t, stages, i, room) <==> HandsOnRecord(next, stages[1..], i - 1, room)
        {
          HandsOnNext(t, stages, i, room);
        }
        assert HandsOnRecord(t, stages, 0, room) by { assert stages[..0] == []; }
        if forall i | 0 <= i <= |stages| :: HandsOnRecord(t, stages, i, room) {
          forall i | 0 <= i <= |stages[1..]| ensures HandsOnRecord(next, stages[1..], i, room) {
            assert HandsOnRecord(t, stages, i + 1, room);
          }
        }
      }
    }
  }

  /** A middleware stack at the end is one more stage. */
  lemma {:induction false} StackIsAStage(t: Track, stages: seq<Stage>, last: Stage, room: Room)
    ensures Through(t, stages, Stack(last), room) == Through(t, stages + [last], Direct, room)
    ensures AllEdits(stages, Stack(last)) == AllEdits(stages + [last], Direct)
    ensures TakesFit(t.plain, stages, Stack(last), room) <==> TakesFit(t.plain, stages + [last], Direct, room)
    decreases |stages|
  {
    if stages == [] {
      assert [] + [last] == [last] && [last][1..] == [] && last.edits + [] == last.edits;
    } else {
      assert (stages + [last])[1..] == stages[1..] + [last];
      StackIsAStage(ThroughStage(t, stages[0], room), stages[1..], last, room);
      StackIsAStage(Track(AmendedBy(t.plain, stages[0].edits, room), Kept), stages[1..], last, room);
    }
  }

  // Who holds the bytes

  lemma {:induction false} EditedInTurn(t: Track, first: seq<Edit>, second: seq<Edit>, room: Room)
    ensures EditedBy(t, first + second, room) == EditedBy(EditedBy(t, first, room), second, room)
    decreases |first|
  {
    if first == [] {
      assert first + second == second;
    } else {
      EditedInTurn(Edited(t, first[0], room), first[1..], second, room);
      assert (first + second)[1..] == first[1..] + second;
    }
  }

  lemma {:induction false} ThroughInTurn(t: Track, first: seq<Stage>, second: seq<Stage>, room: Room)
    ensures Through(t, first + second, Direct, room) == Through(Through(t, first, Direct, room), second, Direct, room)
    decreases |first|
  {
    if first == [] {
      assert first + second == second;
    } else {
      ThroughInTurn(ThroughStage(t, first[0], room), first[1..], second, room);
      assert (first + second)[1..] == first[1..] + second;
    }
  }

  ghost predicate AllLend(stages: seq<Stage>)
  {
    forall i | 0 <= i < |stages| :: stages[i].form.Lend?
  }

  lemma {:induction false} LendingIsEditing(t: Track, stages: seq<Stage>, room: Room)
    requires AllLend(stages)
    ensures Through(t, stages, Direct, room) == EditedBy(t, AllEdits(stages, Direct), room)
    decreases |stages|
  {
    if stages != [] {
      LendingIsEditing(ThroughStage(t, stages[0], room), stages[1..], room);
      EditedInTurn(t, stages[0].edits, AllEdits(stages[1..], Direct), room);
    }
  }

  /** Whose the bytes are that the transport is shown, by the edits and the forms alone: where every
      stage lends, the edits of all of them say; else those after the last stage that takes, from a
      buffer of the pipeline's own. */
  lemma HeldByEdits(t: Track, stages: seq<Stage>, room: Room)
    ensures AllLend(stages) ==>
      HoldComes(t, AllEdits(stages, Direct), room, Through(t, stages, Direct, room).hold)
    ensures forall i | 0 <= i < |stages| && stages[i].form.Take? && AllLend(stages[i + 1..]) ::
      HoldComes(Track(Through(t, stages[..i + 1], Direct, room).plain, Kept), AllEdits(stages[i + 1..], Direct), room,
                Through(t, stages, Direct, room).hold)
  {
    if AllLend(stages) {
      LendingIsEditing(t, stages, room);
      EditedHoldComes(t, AllEdits(stages, Direct), room);
    }
    forall i | 0 <= i < |stages| && stages[i].form.Take? && AllLend(stages[i + 1..])
      ensures HoldComes(Track(Through(t, stages[..i + 1], Direct, room).plain, Kept),
                        AllEdits(stages[i + 1..], Direct), room, Through(t, stages, Direct, room).hold)
    {
      LastTakerOwns(t, stages, i, room);
    }
  }

  lemma LastTakerOwns(t: Track, stages: seq<Stage>, i: nat, room: Room)
    requires i < |stages| && stages[i].form.Take? && AllLend(stages[i + 1..])
    ensures HoldComes(Track(Through(t, stages[..i + 1], Direct, room).plain, Kept),
                      AllEdits(stages[i + 1..], Direct), room, Through(t, stages, Direct, room).hold)
  {
    var taken, after := Through(t, stages[..i + 1], Direct, room), stages[i + 1..];
    ThroughInTurn(t, stages[..i], [stages[i]], room);
    assert stages[..i] + [stages[i]] == stages[..i + 1] && [stages[i]][1..] == [];
    assert taken == ThroughStage(Through(t, stages[..i], Direct, room), stages[i], room);
    ThroughInTurn(t, stages[..i + 1], after, room);
    assert stages[..i + 1] + after == stages;
    LendingIsEditing(taken, after, room);
    EditedHoldComes(taken, AllEdits(after, Direct), room);
  }

  /** A refusal has nothing to hand back of a consumed message: the pipeline ends in a lending stack
      whose edits end with it consumed. */
  lemma {:induction false} ConsumedExactly(p: Plain, stages: seq<Stage>, terminal: Terminal, room: Room)
    ensures EndsConsumed(p, stages, terminal, room) <==>
      terminal.Stack? && terminal.stage.form.Lend? && LeavesConsumed(terminal.stage.edits)
    decreases |stages|
  {
    if stages != [] {
      ConsumedExactly(ThroughStage(Track(p, Carried), stages[0], room).plain, stages[1..], terminal, room);
    } else if terminal.Stack? {
      EditedHoldComes(Track(p, Carried), terminal.stage.edits, room);
    }
  }

  /** With a growing buffer the condition is always met. */
  lemma {:induction false} UnboundedTakesFit(p: Plain, stages: seq<Stage>, terminal: Terminal)
    ensures TakesFit(p, stages, terminal, ALLOC.payload)
    decreases |stages|
  {
    if stages != [] {
      UnboundedTakesFit(AmendedBy(p, stages[0].edits, ALLOC.payload), stages[1..], terminal);
    }
  }

  /** A taking hand-over leaves the message as the edits made it exactly when it fits: past the
      room the whole payload is dropped, not cut at it. */
  lemma TakingHandOverExactly(t: Track, edits: seq<Edit>, room: Room)
    ensures
      var p, r := AmendedBy(t.plain, edits, room), ThroughStage(t, Stage(edits, Take), room).plain;
      && (r == p <==> Fits(room, |p.bytes|))
      && (!Fits(room, |p.bytes|) ==> r == p.(bytes := []))
  {
    EditedIsAmended(t, edits, room);
  }

  lemma OversizedTakeIsEmptied(name: Name, bytes: Bytes)
    requires |bytes| == 257
    ensures Through(Track(Plain(name, bytes, map[]), Carried), [Stage([], Take)], Direct, FIXED.payload).plain
            == Plain(name, [], map[])
  {
    assert [Stage([], Take)][1..] == [];
  }

  /** A publish through stages nested to any depth. The transport is shown what the edits come to,
      wherever taking hand-overs fit. A refusal that gives the message back carries the name, the
      headers and the very bytes shown: owned exactly when some stage owned them last, still at the
      lender's address and length when no stage took them over. What was lent is read and never
      written. */
  method Send(build: Build, mem: Memory, alloc: (Memory, nat) -> nat, msg: Message,
              stages: seq<Stage>, terminal: Terminal, transport: Transport)
    returns (shown: Plain, outcome: Outcome, after: Memory)
    requires Honest(alloc) && ValidMessage(mem, build.payload, msg)
    requires WellFormedStages(stages, terminal, build.payload)
    ensures Preserves(mem, after)
    ensures TakesFit(Seen(mem, msg), stages, terminal, build.payload) ==>
      Comes(Seen(mem, msg), AllEdits(stages, terminal), build.payload, shown)
    ensures
      var t := Through(Track(Seen(mem, msg), HoldOf(msg)), stages, terminal, build.payload);
      && shown == t.plain
      && (t.hold.Carried? ==> shown.bytes == Seen(mem, msg).bytes)
      && Reports(build, transport, t, EndsConsumed(Seen(mem, msg), stages, terminal, build.payload),
                 LenderOf(msg), outcome)
  {
    shown, outcome, after := SendThrough(build, mem, alloc, msg, stages, terminal, transport);
    if TakesFit(Seen(mem, msg), stages, terminal, build.payload) {
      LeavesAsPlainRecord(Track(Seen(mem, msg), HoldOf(msg)), stages, terminal, build.payload);
    }
  }
}
