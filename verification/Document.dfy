/** The AsyncAPI document of a service (crates/asyncapi/src/lib.rs and operations.rs): handlers
    folded into channels, operations and message components that refer to each other. */
module Document {
  import opened Prelude
  import opened JsonPointer
  import opened Messages
  import opened Servers

  // What a service registers

  /** The slices of metadata both sides carry for one message; schemas are already parsed, an
      unparsable one counting as absent. */
  datatype MessageMeta = MessageMeta(
    messageType: string, messageName: Option<string>, description: Option<string>, payload: Option<Json>,
    headers: Option<Json>, contentType: Option<string>, schemaless: bool, rule: Option<HeaderRule>)

  datatype SideBindings = SideBindings(channel: Bindings, operation: Bindings, message: Bindings)

  datatype OutgoingKind = SlotEntry | Answer | DeadLetter | RetryCopy

  datatype OutgoingMeta = OutgoingMeta(
    channel: string, message: MessageMeta, kind: OutgoingKind, parameters: seq<string>,
    replyAddress: Option<string>, bindings: SideBindings)

  datatype Retry = Retry(maxAttempts: Option<nat>, deadLetter: Option<string>)

  datatype Handler = Handler(
    name: string, input: MessageMeta, incoming: seq<MessageMeta>, outgoing: seq<OutgoingMeta>,
    description: Option<string>, server: Option<string>, retry: Retry, bindings: SideBindings)

  // The document

  datatype Channel = Channel(
    address: Option<string>, messages: map<string, string>, parameters: set<string>,
    servers: seq<string>, bindings: Bindings)

  datatype Reply = Reply(address: Option<string>, channel: string, messages: seq<string>)

  datatype RetryExtension = RetryExtension(maxAttempts: Option<nat>, deadLetter: Option<string>,
                                           retryDestination: Option<string>)

  datatype Operation = Operation(
    action: string, channel: string, messages: seq<string>, description: Option<string>, reply: Option<Reply>,
    tags: seq<string>, retry: Option<RetryExtension>, bindings: Bindings)

  /** The three maps the handlers are folded into. */
  datatype Draft = Draft(channels: map<string, Channel>, operations: map<string, Operation>, messages: Components)

  const EMPTY := Draft(map[], map[], map[])

  // References

  function ChannelRef(channel: string): string { "#/" + "channels" + "/" + channel }

  function ChannelMessageRef(channel: string, message: string): string
  {
    "#/" + "channels" + "/" + channel + "/" + "messages" + "/" + message
  }

  function ComponentRef(message: string): string { "#/" + "components" + "/" + "messages" + "/" + message }

  function ServerRef(server: string): string { "#/" + "servers" + "/" + server }

  // Contributions

  /** The last `::` segment of a type name. */
  function MessageName(typeName: string): string
  {
    MessageNameFrom(typeName, |typeName|)
  }

  /** What follows the last `::` that ends at or before `end`. */
  function MessageNameFrom(s: string, end: nat): (r: string)
    requires end <= |s|
  {
    if end < 2 then s
    else if Separator(s, end - 2) then s[end..]
    else MessageNameFrom(s, end - 1)
  }

  predicate Separator(s: string, k: nat)
  {
    k + 2 <= |s| && s[k] == ':' && s[k + 1] == ':'
  }

  ghost predicate NoSeparator(s: string, from: nat, end: nat)
  {
    forall k: nat | from <= k && k + 2 <= end :: !Separator(s, k)
  }

  /** What follows the last separator, at `at`, or the whole name where there is none. */
  lemma {:induction false} MessageNameIs(s: string, end: nat) returns (at: Option<nat>)
    requires end <= |s|
    ensures at.None? ==> MessageNameFrom(s, end) == s && NoSeparator(s, 0, end)
    ensures at.Some? ==>
      && at.value + 2 <= end && Separator(s, at.value) && NoSeparator(s, at.value + 1, end)
      && MessageNameFrom(s, end) == s[at.value + 2..]
    decreases end
  {
    if end < 2 {
      at := None;
    } else if Separator(s, end - 2) {
      at := Some(end - 2);
    } else {
      at := MessageNameIs(s, end - 1);
    }
  }

  function TextField(j: Option<Json>, key: string): Option<string>
  {
    if j.Some? && j.value.Obj? && key in j.value.fields && j.value.fields[key].Str? then Some(j.value.fields[key].s)
    else None
  }

  function ContributionName(m: MessageMeta): string
  {
    var named := Either(m.messageName, TextField(m.payload, "title"));
    if named.Some? then named.value else MessageName(m.messageType)
  }

  /** What one side says about a message; `fallback` is the description of last resort. */
  function Contributed(m: MessageMeta, fallback: Option<string>, bindings: Bindings): Contribution
  {
    Contribution(
      ContributionName(m), TextField(m.payload, "title"),
      Either(Either(m.description, TextField(m.payload, "description")), fallback), m.contentType, m.payload,
      if m.rule.Some? then Some(WithHeaderConst(m.headers, m.rule.value)) else m.headers, m.schemaless, bindings)
  }

  function Inputs(h: Handler): (r: seq<MessageMeta>)
    ensures r != []
  {
    if h.incoming == [] then [h.input] else h.incoming
  }

  /** One contribution per message the handler receives. */
  function Received(h: Handler): (r: seq<Contribution>)
    ensures |r| == |Inputs(h)|
  {
    seq(|Inputs(h)|, i requires 0 <= i < |Inputs(h)| => Contributed(Inputs(h)[i], h.description, h.bindings.message))
  }

  function Sent(o: OutgoingMeta): Contribution
  {
    Contributed(o.message, None, o.bindings.message)
  }

  function RetryOf(h: Handler): Option<RetryExtension>
  {
    var copy := FirstOf(h.outgoing, RetryCopy);
    if h.retry.maxAttempts.None? && h.retry.deadLetter.None? && copy.None? then None
    else Some(RetryExtension(h.retry.maxAttempts, h.retry.deadLetter,
                             if copy.Some? then Some(copy.value.channel) else None))
  }

  ghost predicate IsFirst(os: seq<OutgoingMeta>, kind: OutgoingKind, i: nat)
  {
    i < |os| && os[i].kind == kind && forall j | 0 <= j < i :: os[j].kind != kind
  }

  ghost predicate NoneOf(os: seq<OutgoingMeta>, kind: OutgoingKind)
  {
    forall i | 0 <= i < |os| :: os[i].kind != kind
  }

  /** The first outgoing entry of a kind. */
  function FirstOf(os: seq<OutgoingMeta>, kind: OutgoingKind): (r: Option<OutgoingMeta>)
    ensures r.None? <==> NoneOf(os, kind)
    ensures r.Some? ==> exists i: nat :: IsFirst(os, kind, i) && r.value == os[i]
  {
    if os == [] then None
    else if os[0].kind == kind then
      assert IsFirst(os, kind, 0);
      Some(os[0])
    else
      var r := FirstOf(os[1..], kind);
      assert forall i | 0 < i < |os| :: os[i] == os[1..][i - 1];
      assert r.Some? ==> exists i: nat :: IsFirst(os, kind, i) && r.value == os[i] by {
        if r.Some? {
          var i: nat :| IsFirst(os[1..], kind, i) && r.value == os[1..][i];
          assert IsFirst(os, kind, i + 1);
        }
      }
      r
  }

  // Fresh operation ids

  function Candidate(base: string, suffix: nat): string
  {
    base + "_" + Dec(suffix)
  }

  /** The base and its candidates up to `suffix` are all taken. */
  ghost predicate TakenUpTo(ids: set<string>, base: string, suffix: nat)
  {
    base in ids && forall k | 2 <= k < suffix :: Candidate(base, k) in ids
  }

  /** Taken candidates are distinct ids, so they are no more than there are operations. */
  lemma TakenAreFew(ids: set<string>, base: string, suffix: nat)
    requires suffix >= 2 && TakenUpTo(ids, base, suffix)
    ensures suffix <= |ids| + 1
  {
    var taken := [base] + seq(suffix - 2, i requires 0 <= i < suffix - 2 => Candidate(base, i + 2));
    forall i, j | 0 <= i < j < |taken| ensures taken[i] != taken[j] {
      if i == 0 {
        assert |taken[j]| > |base|;
      } else if taken[i] == taken[j] {
        SplitAtLast(base, Dec(i + 1), base, Dec(j + 1), '_');
        DecInjective(i + 1, j + 1);
      }
    }
    DistinctFitsSet(taken, ids);
  }

  /** The least free suffix from `suffix` on. */
  function Suffix(ids: set<string>, base: string, suffix: nat): (r: nat)
    requires suffix >= 2 && TakenUpTo(ids, base, suffix)
    ensures suffix <= r <= |ids| + 1 && Candidate(base, r) !in ids
    ensures forall k | 2 <= k < r :: Candidate(base, k) in ids
    decreases |ids| + 2 - suffix
  {
    TakenAreFew(ids, base, suffix);
    if Candidate(base, suffix) !in ids then suffix
    else
      TakenAreFew(ids, base, suffix + 1);
      Suffix(ids, base, suffix + 1)
  }

  /** An id no operation has. */
  function FreshId(ids: set<string>, base: string): (id: string)
    ensures id !in ids
  {
    if base !in ids then base else Candidate(base, Suffix(ids, base, 2))
  }

  /** The fresh id is the base, or the base with the least suffix from two on that is free. */
  lemma FreshIdIsLeast(ids: set<string>, base: string)
    ensures base !in ids ==> FreshId(ids, base) == base
    ensures base in ids ==>
      exists k: nat :: 2 <= k <= |ids| + 1 && FreshId(ids, base) == Candidate(base, k)
                       && forall j: nat | 2 <= j < k :: Candidate(base, j) in ids
  {
    if base in ids {
      var k := Suffix(ids, base, 2);
      assert FreshId(ids, base) == Candidate(base, k);
    }
  }

  /** The search of `receive_operation_id` and `send_operation_id`. */
  method FindId(ids: set<string>, base: string) returns (id: string)
    ensures id == FreshId(ids, base)
  {
    if base !in ids {
      return base;
    }
    var suffix := 2;
    while Candidate(base, suffix) in ids
      invariant suffix >= 2 && TakenUpTo(ids, base, suffix) && Suffix(ids, base, suffix) == Suffix(ids, base, 2)
      decreases |ids| + 2 - suffix
    {
      TakenAreFew(ids, base, suffix + 1);
      suffix := suffix + 1;
    }
    id := Candidate(base, suffix);
  }

  function SanitizedChar(c: char): char
  {
    if IsDigit(c) || 'a' <= c <= 'z' || 'A' <= c <= 'Z' then c else '_'
  }

  function Sanitized(name: string): string
  {
    seq(|name|, i requires 0 <= i < |name| => SanitizedChar(name[i]))
  }

  function ReceiveBase(name: string): string { "receive_" + Sanitized(name) }

  function SendBase(name: string, channel: string): string { "send_" + Sanitized(name) + "_" + Sanitized(channel) }

  // One registration at a time

  /** What a handler's entries share: the servers of its channels and the tags of its operations. */
  datatype Env = Env(on: seq<string>, tags: seq<string>)

  function EnvOf(h: Handler, servers: map<string, Server>): Env
  {
    var server := ResolveServer(h.server, servers);
    if server.Some? then Env([ServerRef(server.value)], [servers[server.value].protocol]) else Env([], [])
  }

  /** A channel's message list with the messages contributed to it. */
  function Listed(messages: map<string, string>, cs: seq<Contribution>): map<string, string>
    decreases |cs|
  {
    if cs == [] then messages
    else
      var last := cs[|cs| - 1].name;
      Listed(messages, cs[..|cs| - 1])[last := ComponentRef(last)]
  }

  function OutgoingChannel(o: OutgoingMeta, on: seq<string>): Channel
  {
    Channel(if o.replyAddress.None? then Some(o.channel) else None, map[], (set p | p in o.parameters), on, map[])
  }

  /** A channel entry with the messages and the bindings one registration adds to it. */
  function Grown(entry: Channel, cs: seq<Contribution>, bindings: Bindings): Channel
  {
    entry.(bindings := bindings + entry.bindings, messages := Listed(entry.messages, cs))
  }

  /** `add_outgoing` on the document so far. */
  function WithOutgoing(d: Draft, o: OutgoingMeta, on: seq<string>): Draft
  {
    var entry := if o.channel in d.channels then d.channels[o.channel] else OutgoingChannel(o, on);
    d.(channels := d.channels[o.channel := Grown(entry, [Sent(o)], o.bindings.channel)],
       messages := Merged(d.messages, Sent(o)))
  }

  function ReplyOf(o: OutgoingMeta): Reply
  {
    Reply(o.replyAddress, ChannelRef(o.channel), [ChannelMessageRef(o.channel, Sent(o).name)])
  }

  function ReceiveOperation(h: Handler, answer: Option<OutgoingMeta>, tags: seq<string>): Operation
  {
    var cs := Received(h);
    var messages := seq(|cs|, i requires 0 <= i < |cs| => ChannelMessageRef(h.name, cs[i].name));
    var reply := if answer.Some? then Some(ReplyOf(answer.value)) else None;
    Operation("receive", ChannelRef(h.name), messages, h.description, reply, tags, RetryOf(h), h.bindings.operation)
  }

  /** `add_receive` on the document so far. */
  function WithReceive(d: Draft, h: Handler, answer: Option<OutgoingMeta>, env: Env): Draft
  {
    var entry := if h.name in d.channels then d.channels[h.name] else Channel(Some(h.name), map[], {}, env.on, map[]);
    Draft(d.channels[h.name := Grown(entry.(address := Some(h.name)), Received(h), h.bindings.channel)],
          d.operations[FreshId(d.operations.Keys, ReceiveBase(h.name)) := ReceiveOperation(h, answer, env.tags)],
          MergedAll(d.messages, Received(h)))
  }

  function SendOperation(o: OutgoingMeta, tags: seq<string>): Operation
  {
    Operation("send", ChannelRef(o.channel), [ChannelMessageRef(o.channel, Sent(o).name)], None, None, tags, None,
              o.bindings.operation)
  }

  function WithSend(d: Draft, h: Handler, o: OutgoingMeta, env: Env): Draft
  {
    WithOutgoing(d, o, env.on).(
      operations := d.operations[FreshId(d.operations.Keys, SendBase(h.name, o.channel)) := SendOperation(o, env.tags)])
  }

  /** What the traversal does: the answer's channel, the subscription, and each send. */
  datatype Step =
    | Answering(o: OutgoingMeta, env: Env)
    | Receiving(h: Handler, answer: Option<OutgoingMeta>, env: Env)
    | Sending(h: Handler, o: OutgoingMeta, env: Env)

  function Applied(d: Draft, s: Step): Draft
  {
    match s
    case Answering(o, env) => WithOutgoing(d, o, env.on)
    case Receiving(h, answer, env) => WithReceive(d, h, answer, env)
    case Sending(h, o, env) => WithSend(d, h, o, env)
  }

  function AllApplied(d: Draft, steps: seq<Step>): Draft
  {
    Fold(Applied, d, steps)
  }

  lemma AppliedNext(d: Draft, done: seq<Step>, s: Step)
    ensures AllApplied(d, done + [s]) == Applied(AllApplied(d, done), s)
  {
    assert (done + [s])[..|done + [s]| - 1] == done;
  }

  lemma AppliedInTurn(d: Draft, first: seq<Step>, second: seq<Step>)
    ensures AllApplied(d, first + second) == AllApplied(AllApplied(d, first), second)
  {
    FoldInTurn(Applied, d, first, second);
  }

  function SendOf(h: Handler, o: OutgoingMeta, env: Env): seq<Step>
  {
    if o.kind.Answer? then [] else [Sending(h, o, env)]
  }

  /** A send per declared outgoing message that is not an answer. */
  function Sends(h: Handler, os: seq<OutgoingMeta>, env: Env): seq<Step>
    decreases |os|
  {
    if os == [] then []
    else
      Sends(h, os[..|os| - 1], env) + SendOf(h, os[|os| - 1], env)
  }

  lemma SendsNext(h: Handler, os: seq<OutgoingMeta>, i: nat, env: Env, done: seq<Step>)
    requires i < |os|
    ensures done + Sends(h, os[..i + 1], env) ==
      done + Sends(h, os[..i], env) + SendOf(h, os[i], env)
  {
    assert os[..i + 1][..i] == os[..i];
  }

  /** The first answer before the subscription that points at it, then the sends. */
  function Opening(h: Handler, env: Env): seq<Step>
  {
    var answer := FirstOf(h.outgoing, Answer);
    (if answer.Some? then [Answering(answer.value, env)] else []) + [Receiving(h, answer, env)]
  }

  function StepsOf(h: Handler, servers: map<string, Server>): seq<Step>
  {
    var env := EnvOf(h, servers);
    Opening(h, env) + Sends(h, h.outgoing, env)
  }

  function Traversal(handlers: seq<Handler>, servers: map<string, Server>): seq<Step>
    decreases |handlers|
  {
    if handlers == [] then []
    else Traversal(handlers[..|handlers| - 1], servers) + StepsOf(handlers[|handlers| - 1], servers)
  }

  /** A channel entry takes the bindings it lacks and lists the messages. */
  method AddToChannel(entry: Channel, cs: seq<Contribution>, bindings: Bindings) returns (r: Channel)
    ensures r == Grown(entry, cs, bindings)
  {
    var listed := entry.messages;
    for i := 0 to |cs|
      invariant listed == Listed(entry.messages, cs[..i])
    {
      assert cs[..i + 1][..i] == cs[..i];
      listed := listed[cs[i].name := ComponentRef(cs[i].name)];
    }
    assert cs[..|cs|] == cs;
    var filled := FillFrom(entry.bindings, bindings);
    r := entry.(bindings := filled, messages := listed);
  }

  method MergeEach(messages: Components, cs: seq<Contribution>) returns (r: Components)
    ensures r == MergedAll(messages, cs)
  {
    r := messages;
    for i := 0 to |cs|
      invariant r == MergedAll(messages, cs[..i])
    {
      assert cs[..i + 1][..i] == cs[..i];
      r := MergeMessage(r, cs[i]);
    }
    assert cs[..|cs|] == cs;
  }

  lemma TraversalNext(handlers: seq<Handler>, i: nat, servers: map<string, Server>)
    requires i < |handlers|
    ensures AllApplied(EMPTY, Traversal(handlers[..i + 1], servers)) ==
      AllApplied(AllApplied(EMPTY, Traversal(handlers[..i], servers)), StepsOf(handlers[i], servers))
  {
    assert handlers[..i + 1][..i] == handlers[..i];
    AppliedInTurn(EMPTY, Traversal(handlers[..i], servers), StepsOf(handlers[i], servers));
  }

  /** The maps as `build_spec` fills them. */
  class Builder {
    var channels: map<string, Channel>
    var operations: map<string, Operation>
    var messages: Components

    function View(): Draft
      reads this
    {
      Draft(channels, operations, messages)
    }

    constructor ()
      ensures View() == EMPTY
    {
      channels, operations, messages := map[], map[], map[];
    }

    method AddOutgoing(o: OutgoingMeta, on: seq<string>)
      modifies this
      ensures View() == WithOutgoing(old(View()), o, on)
    {
      var entry := if o.channel in channels then channels[o.channel] else OutgoingChannel(o, on);
      entry := AddToChannel(entry, [Sent(o)], o.bindings.channel);
      channels := channels[o.channel := entry];
      messages := MergeMessage(messages, Sent(o));
    }

    method AddReceive(h: Handler, answer: Option<OutgoingMeta>, env: Env)
      modifies this
      ensures View() == WithReceive(old(View()), h, answer, env)
    {
      var entry := if h.name in channels then channels[h.name] else Channel(Some(h.name), map[], {}, env.on, map[]);
      entry := AddToChannel(entry.(address := Some(h.name)), Received(h), h.bindings.channel);
      channels := channels[h.name := entry];
      messages := MergeEach(messages, Received(h));
      var id := FindId(operations.Keys, ReceiveBase(h.name));
      operations := operations[id := ReceiveOperation(h, answer, env.tags)];
    }

    method Perform(s: Step)
      modifies this
      ensures View() == Applied(old(View()), s)
    {
      match s
      case Answering(o, env) => AddOutgoing(o, env.on);
      case Receiving(h, answer, env) => AddReceive(h, answer, env);
      case Sending(h, o, env) =>
        AddOutgoing(o, env.on);
        var id := FindId(operations.Keys, SendBase(h.name, o.channel));
        operations := operations[id := SendOperation(o, env.tags)];
    }

    /** A step taken after others. */
    method Next(ghost start: Draft, ghost done: seq<Step>, s: Step)
      requires View() == AllApplied(start, done)
      modifies this
      ensures View() == AllApplied(start, done + [s])
    {
      AppliedNext(start, done, s);
      Perform(s);
    }

    method AddOther(ghost start: Draft, ghost before: seq<Step>, h: Handler, o: OutgoingMeta, env: Env)
      requires View() == AllApplied(start, before)
      modifies this
      ensures View() == AllApplied(start, before + SendOf(h, o, env))
    {
      if o.kind.Answer? {
        assert before + [] == before;
      } else {
        Next(start, before, Sending(h, o, env));
      }
    }

    method AddSends(ghost start: Draft, ghost done: seq<Step>, h: Handler, env: Env)
      requires View() == AllApplied(start, done)
      modifies this
      ensures View() == AllApplied(start, done + Sends(h, h.outgoing, env))
    {
      assert done + [] == done;
      for i := 0 to |h.outgoing|
        invariant View() == AllApplied(start, done + Sends(h, h.outgoing[..i], env))
      {
        SendsNext(h, h.outgoing, i, env, done);
        AddOther(start, done + Sends(h, h.outgoing[..i], env), h, h.outgoing[i], env);
      }
      assert h.outgoing[..|h.outgoing|] == h.outgoing;
    }

    /** One turn of the handler loop: the answer, the subscription, and then each other entry. */
    method AddHandler(h: Handler, servers: map<string, Server>)
      modifies this
      ensures View() == AllApplied(old(View()), StepsOf(h, servers))
    {
      var env := EnvOf(h, servers);
      var answer := FirstOf(h.outgoing, Answer);
      ghost var start, done := View(), [];
      if answer.Some? {
        Next(start, done, Answering(answer.value, env));
        done := done + [Answering(answer.value, env)];
      }
      Next(start, done, Receiving(h, answer, env));
      done := done + [Receiving(h, answer, env)];
      assert done == Opening(h, env);
      AddSends(start, done, h, env);
    }

    /** The handler loop of `build_spec`. */
    method Build(handlers: seq<Handler>, servers: map<string, Server>)
      requires View() == EMPTY
      modifies this
      ensures View() == AllApplied(EMPTY, Traversal(handlers, servers))
    {
      for i := 0 to |handlers|
        invariant View() == AllApplied(EMPTY, Traversal(handlers[..i], servers))
      {
        TraversalNext(handlers, i, servers);
        AddHandler(handlers[i], servers);
      }
      assert handlers[..|handlers|] == handlers;
    }
  }
}
