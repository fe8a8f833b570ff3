/** What a generated document says, by the handlers and the servers alone: each operation, channel
    and component field by field (crates/asyncapi/src/lib.rs and operations.rs). */
module Registry {
  import opened Prelude
  import opened JsonPointer
  import opened Messages
  import opened Servers
  import opened Document
  import opened Linking
  import opened Census

  // What one side says about a message

  ghost predicate HasText(j: Option<Json>, key: string, text: string)
  {
    j.Some? && j.value.Obj? && key in j.value.fields && j.value.fields[key] == Str(text)
  }

  ghost predicate NoText(j: Option<Json>, key: string)
  {
    forall text :: !HasText(j, key, text)
  }

  /** What follows the last `::` of a type name, or all of it. */
  ghost predicate LastSegment(typeName: string, segment: string)
  {
    || (NoSeparator(typeName, 0, |typeName|) && segment == typeName)
    || exists k: nat :: Separator(typeName, k) && NoSeparator(typeName, k + 1, |typeName|)
                        && segment == typeName[k + 2..]
  }

  /** The declared name, else the payload schema's title, else the last segment of the type's name. */
  ghost predicate NameTells(name: string, m: MessageMeta)
  {
    || m.messageName == Some(name)
    || (m.messageName == None && HasText(m.payload, "title", name))
    || (m.messageName == None && NoText(m.payload, "title") && LastSegment(m.messageType, name))
  }

  ghost predicate TitleTells(title: Option<string>, m: MessageMeta)
  {
    forall text :: title == Some(text) <==> HasText(m.payload, "title", text)
  }

  /** The declared description, else the payload schema's, else the one of last resort. */
  ghost predicate DescriptionTells(description: Option<string>, m: MessageMeta, fallback: Option<string>)
  {
    || (m.description.Some? && description == m.description)
    || (m.description.None? && description.Some? && HasText(m.payload, "description", description.value))
    || (m.description.None? && NoText(m.payload, "description") && description == fallback)
  }

  /** The declared headers schema, with the rule's header as a required constant where there is one. */
  ghost predicate HeadersTell(headers: Option<Json>, m: MessageMeta)
  {
    headers == if m.rule.Some? then Some(WithHeaderConst(m.headers, m.rule.value)) else m.headers
  }

  /** What is said of a message: by which metadata, with which description of last resort and under
      which bindings. */
  datatype Said = Said(meta: MessageMeta, fallback: Option<string>, bindings: Bindings)

  ghost predicate ContributionTells(c: Contribution, said: Said)
  {
    && NameTells(c.name, said.meta) && TitleTells(c.title, said.meta)
    && DescriptionTells(c.description, said.meta, said.fallback) && HeadersTell(c.headers, said.meta)
    && c.contentType == said.meta.contentType && c.payload == said.meta.payload
    && c.schemaless == said.meta.schemaless && c.bindings == said.bindings
  }

  lemma TextIs(j: Option<Json>, key: string)
    ensures TextField(j, key).None? <==> NoText(j, key)
    ensures forall text :: TextField(j, key) == Some(text) <==> HasText(j, key, text)
  {
    if TextField(j, key).Some? {
      assert HasText(j, key, TextField(j, key).value);
    }
  }

  lemma NameIs(m: MessageMeta)
    ensures NameTells(ContributionName(m), m)
  {
    TextIs(m.payload, "title");
    var at := MessageNameIs(m.messageType, |m.messageType|);
    assert LastSegment(m.messageType, MessageName(m.messageType));
  }

  lemma ContributedTells(m: MessageMeta, fallback: Option<string>, bindings: Bindings)
    ensures ContributionTells(Contributed(m, fallback, bindings), Said(m, fallback, bindings))
  {
    NameIs(m);
    TextIs(m.payload, "title");
    TextIs(m.payload, "description");
  }

  // Where a registration's server comes in

  ghost predicate Unserved(h: Handler, servers: map<string, Server>)
  {
    forall s :: !Serves(h.server, servers, s)
  }

  /** The registration's server as the only one, or none. */
  ghost predicate OnTells(on: seq<string>, h: Handler, servers: map<string, Server>)
  {
    || (Unserved(h, servers) && on == [])
    || exists s :: Serves(h.server, servers, s) && on == [ServerRef(s)]
  }

  ghost predicate TagsTell(tags: seq<string>, h: Handler, servers: map<string, Server>)
  {
    || (Unserved(h, servers) && tags == [])
    || exists s :: Serves(h.server, servers, s) && s in servers && tags == [servers[s].protocol]
  }

  lemma EnvTells(h: Handler, servers: map<string, Server>)
    ensures OnTells(EnvOf(h, servers).on, h, servers) && TagsTell(EnvOf(h, servers).tags, h, servers)
  {
    var r := ResolveServer(h.server, servers);
    forall s ensures r == Some(s) <==> Serves(h.server, servers, s) {
      ResolvesExactly(h.server, servers, s);
    }
    if r.Some? {
      assert Serves(h.server, servers, r.value);
    }
  }

  // Operations

  ghost predicate DestinationTells(destination: Option<string>, os: seq<OutgoingMeta>)
  {
    || (NoneOf(os, RetryCopy) && destination == None)
    || exists i: nat :: IsFirst(os, RetryCopy, i) && destination == Some(os[i].channel)
  }

  /** The cap, the dead letter and the channel of the first retry copy; absent when all three are. */
  ghost predicate RetryTells(retry: Option<RetryExtension>, h: Handler)
  {
    && (retry.None? <==> h.retry.maxAttempts.None? && h.retry.deadLetter.None? && NoneOf(h.outgoing, RetryCopy))
    && (retry.Some? ==>
          && retry.value.maxAttempts == h.retry.maxAttempts && retry.value.deadLetter == h.retry.deadLetter
          && DestinationTells(retry.value.retryDestination, h.outgoing))
  }

  ghost predicate MessageRefTells(reference: string, channel: string, m: MessageMeta)
  {
    exists name :: NameTells(name, m) && reference == ChannelMessageRef(channel, name)
  }

  ghost predicate ReplyTo(reply: Reply, o: OutgoingMeta)
  {
    && reply.address == o.replyAddress && reply.channel == ChannelRef(o.channel)
    && |reply.messages| == 1 && MessageRefTells(reply.messages[0], o.channel, o.message)
  }

  /** The first answer, where there is one. */
  ghost predicate ReplyTells(reply: Option<Reply>, os: seq<OutgoingMeta>)
  {
    || (NoneOf(os, Answer) && reply == None)
    || exists i: nat :: IsFirst(os, Answer, i) && reply.Some? && ReplyTo(reply.value, os[i])
  }

  /** The messages a handler receives: its set of models, or its one input. */
  ghost predicate ReceivesOf(h: Handler, metas: seq<MessageMeta>)
  {
    if h.incoming == [] then metas == [h.input] else metas == h.incoming
  }

  ghost predicate RefsTell(references: seq<string>, channel: string, metas: seq<MessageMeta>)
  {
    |references| == |metas| && forall k | 0 <= k < |metas| :: MessageRefTells(references[k], channel, metas[k])
  }

  /** The operation of a subscription. */
  ghost predicate ReceiveTells(op: Operation, h: Handler, servers: map<string, Server>)
  {
    && op.action == "receive" && op.channel == ChannelRef(h.name)
    && (forall metas | ReceivesOf(h, metas) :: RefsTell(op.messages, h.name, metas))
    && op.description == h.description && op.bindings == h.bindings.operation
    && ReplyTells(op.reply, h.outgoing) && RetryTells(op.retry, h) && TagsTell(op.tags, h, servers)
  }

  /** The operation of an outgoing entry that is no answer. */
  ghost predicate SendTells(op: Operation, h: Handler, o: OutgoingMeta, servers: map<string, Server>)
  {
    && op.action == "send" && op.channel == ChannelRef(o.channel)
    && |op.messages| == 1 && MessageRefTells(op.messages[0], o.channel, o.message)
    && op.description == None && op.reply == None && op.retry == None
    && op.bindings == o.bindings.operation && TagsTell(op.tags, h, servers)
  }

  lemma RetryOfTells(h: Handler)
    ensures RetryTells(RetryOf(h), h)
  {
  }

  lemma RefTells(channel: string, m: MessageMeta, fallback: Option<string>, bindings: Bindings)
    ensures MessageRefTells(ChannelMessageRef(channel, Contributed(m, fallback, bindings).name), channel, m)
  {
    NameIs(m);
  }

  lemma ReplyOfTells(h: Handler)
    ensures var answer := FirstOf(h.outgoing, Answer);
      ReplyTells(if answer.Some? then Some(ReplyOf(answer.value)) else None, h.outgoing)
  {
    var answer := FirstOf(h.outgoing, Answer);
    if answer.Some? {
      var i: nat :| IsFirst(h.outgoing, Answer, i) && answer.value == h.outgoing[i];
      RefTells(answer.value.channel, answer.value.message, None, answer.value.bindings.message);
      assert ReplyTo(ReplyOf(answer.value), h.outgoing[i]);
    }
  }

  lemma InputRefsTell(h: Handler, tags: seq<string>, metas: seq<MessageMeta>)
    requires ReceivesOf(h, metas)
    ensures RefsTell(ReceiveOperation(h, FirstOf(h.outgoing, Answer), tags).messages, h.name, metas)
  {
    assert metas == Inputs(h);
    forall k | 0 <= k < |metas|
      ensures MessageRefTells(ReceiveOperation(h, FirstOf(h.outgoing, Answer), tags).messages[k], h.name, metas[k])
    {
      RefTells(h.name, metas[k], h.description, h.bindings.message);
    }
  }

  lemma ReceiveOperationTells(h: Handler, servers: map<string, Server>)
    ensures ReceiveTells(ReceiveOperation(h, FirstOf(h.outgoing, Answer), EnvOf(h, servers).tags), h, servers)
  {
    var tags := EnvOf(h, servers).tags;
    EnvTells(h, servers);
    RetryOfTells(h);
    ReplyOfTells(h);
    forall metas | ReceivesOf(h, metas)
      ensures RefsTell(ReceiveOperation(h, FirstOf(h.outgoing, Answer), tags).messages, h.name, metas)
    {
      InputRefsTell(h, tags, metas);
    }
  }

  lemma SendOperationTells(h: Handler, o: OutgoingMeta, servers: map<string, Server>)
    ensures SendTells(SendOperation(o, EnvOf(h, servers).tags), h, o, servers)
  {
    EnvTells(h, servers);
    RefTells(o.channel, o.message, None, o.bindings.message);
  }

  // What each handler does, in order

  datatype Role = AsAnswer(o: OutgoingMeta) | AsSubscriber | AsSender(o: OutgoingMeta)

  /** A channel a handler uses: as what, and what it says of the channel and of the messages on it. */
  datatype Use = Use(h: Handler, role: Role, channel: string, parameters: set<string>, bindings: Bindings,
                     said: seq<Said>)

  function EntryUse(h: Handler, role: Role, o: OutgoingMeta): Use
  {
    Use(h, role, o.channel, (set p | p in o.parameters), o.bindings.channel,
        [Said(o.message, None, o.bindings.message)])
  }

  function OwnUse(h: Handler): Use
  {
    var metas := if h.incoming == [] then [h.input] else h.incoming;
    Use(h, AsSubscriber, h.name, {}, h.bindings.channel,
        seq(|metas|, k requires 0 <= k < |metas| => Said(metas[k], h.description, h.bindings.message)))
  }

  function AnswerUses(h: Handler): seq<Use>
  {
    var answer := FirstOf(h.outgoing, Answer);
    if answer.Some? then [EntryUse(h, AsAnswer(answer.value), answer.value)] else []
  }

  function SendUses(h: Handler, os: seq<OutgoingMeta>): seq<Use>
    decreases |os|
  {
    if os == [] then []
    else
      var last := os[|os| - 1];
      SendUses(h, os[..|os| - 1]) + if last.kind == Answer then [] else [EntryUse(h, AsSender(last), last)]
  }

  /** The first answer, the subscription, then every entry that is no answer. */
  function UsesOf(h: Handler): seq<Use>
  {
    AnswerUses(h) + [OwnUse(h)] + SendUses(h, h.outgoing)
  }

  function EachUses(handlers: seq<Handler>): seq<seq<Use>>
  {
    seq(|handlers|, i requires 0 <= i < |handlers| => UsesOf(handlers[i]))
  }

  function AllUses(handlers: seq<Handler>): seq<Use>
  {
    Flat(EachUses(handlers))
  }

  lemma AllUsesNext(handlers: seq<Handler>)
    requires handlers != []
    ensures AllUses(handlers) == AllUses(handlers[..|handlers| - 1]) + UsesOf(handlers[|handlers| - 1])
  {
    assert EachUses(handlers)[..|handlers| - 1] == EachUses(handlers[..|handlers| - 1]);
  }

  ghost predicate OperationTells(op: Option<Operation>, u: Use, servers: map<string, Server>)
  {
    match u.role
    case AsAnswer(_) => op.None?
    case AsSubscriber => op.Some? && ReceiveTells(op.value, u.h, servers)
    case AsSender(o) => op.Some? && SendTells(op.value, u.h, o, servers)
  }

  ghost predicate AllSaidBy(cs: seq<Contribution>, said: seq<Said>)
  {
    |cs| == |said| && forall k | 0 <= k < |cs| :: ContributionTells(cs[k], said[k])
  }

  /** A step does what the use says. */
  ghost predicate Does(s: Step, u: Use, servers: map<string, Server>)
  {
    && On(s) == u.channel && Started(s).parameters == u.parameters && BindingsOn(s) == u.bindings
    && AllSaidBy(Adds(s), u.said) && OnTells(s.env.on, u.h, servers)
    && OperationTells(OperationOf(s), u, servers) && BaseTells(s, u)
  }

  ghost predicate DoAll(steps: seq<Step>, uses: seq<Use>, servers: map<string, Server>)
  {
    |steps| == |uses| && forall i | 0 <= i < |steps| :: Does(steps[i], uses[i], servers)
  }

  // Operation ids

  predicate Alphanumeric(c: char)
  {
    '0' <= c <= '9' || 'a' <= c <= 'z' || 'A' <= c <= 'Z'
  }

  /** The name with every character that is no letter and no digit replaced. */
  ghost predicate CleanedAs(name: string, clean: string)
  {
    && |clean| == |name|
    && forall i | 0 <= i < |name| :: clean[i] == if Alphanumeric(name[i]) then name[i] else '_'
  }

  ghost predicate ReceiveBaseTells(base: string, name: string)
  {
    exists clean :: CleanedAs(name, clean) && base == "receive_" + clean
  }

  ghost predicate SendBaseTells(base: string, name: string, channel: string)
  {
    exists clean, to :: CleanedAs(name, clean) && CleanedAs(channel, to) && base == "send_" + clean + "_" + to
  }

  ghost predicate BaseTells(s: Step, u: Use)
  {
    match u.role
    case AsAnswer(_) => true
    case AsSubscriber => ReceiveBaseTells(BaseOf(s), u.h.name)
    case AsSender(o) => SendBaseTells(BaseOf(s), u.h.name, o.channel)
  }

  lemma SanitizedTells(name: string)
    ensures CleanedAs(name, Sanitized(name))
  {
  }

  // The steps do what the handlers say

  lemma EntryContributes(o: OutgoingMeta)
    ensures AllSaidBy([Sent(o)], [Said(o.message, None, o.bindings.message)])
  {
    ContributedTells(o.message, None, o.bindings.message);
  }

  lemma OwnContributes(h: Handler)
    ensures AllSaidBy(Received(h), OwnUse(h).said)
  {
    forall k | 0 <= k < |Inputs(h)| ensures ContributionTells(Received(h)[k], OwnUse(h).said[k]) {
      ContributedTells(Inputs(h)[k], h.description, h.bindings.message);
    }
  }

  lemma AnsweringDoes(h: Handler, o: OutgoingMeta, servers: map<string, Server>)
    ensures Does(Answering(o, EnvOf(h, servers)), EntryUse(h, AsAnswer(o), o), servers)
  {
    EnvTells(h, servers);
    EntryContributes(o);
  }

  lemma ReceivingDoes(h: Handler, servers: map<string, Server>)
    ensures Does(Receiving(h, FirstOf(h.outgoing, Answer), EnvOf(h, servers)), OwnUse(h), servers)
  {
    EnvTells(h, servers);
    OwnContributes(h);
    ReceiveOperationTells(h, servers);
    SanitizedTells(h.name);
  }

  lemma SendingDoes(h: Handler, o: OutgoingMeta, servers: map<string, Server>)
    ensures Does(Sending(h, o, EnvOf(h, servers)), EntryUse(h, AsSender(o), o), servers)
  {
    EnvTells(h, servers);
    EntryContributes(o);
    SendOperationTells(h, o, servers);
    SanitizedTells(h.name);
    SanitizedTells(o.channel);
  }

  lemma DoThenAt(steps: seq<Step>, uses: seq<Use>, more: seq<Step>, others: seq<Use>, servers: map<string, Server>,
                 i: nat)
    requires DoAll(steps, uses, servers) && DoAll(more, others, servers) && i < |steps + more|
    ensures Does((steps + more)[i], (uses + others)[i], servers)
  {
    if i < |steps| {
      assert (steps + more)[i] == steps[i] && (uses + others)[i] == uses[i];
    } else {
      var j := i - |steps|;
      assert (steps + more)[i] == more[j] && (uses + others)[i] == others[j];
    }
  }

  lemma DoThen(steps: seq<Step>, uses: seq<Use>, more: seq<Step>, others: seq<Use>, servers: map<string, Server>)
    requires DoAll(steps, uses, servers) && DoAll(more, others, servers)
    ensures DoAll(steps + more, uses + others, servers)
  {
    forall i | 0 <= i < |steps + more| ensures Does((steps + more)[i], (uses + others)[i], servers) {
      DoThenAt(steps, uses, more, others, servers, i);
    }
  }

  lemma DoOne(s: Step, u: Use, servers: map<string, Server>)
    requires Does(s, u, servers)
    ensures DoAll([s], [u], servers)
  {
  }

  lemma {:induction false} SendsDo(h: Handler, os: seq<OutgoingMeta>, servers: map<string, Server>)
    ensures DoAll(Sends(h, os, EnvOf(h, servers)), SendUses(h, os), servers)
    decreases |os|
  {
    if os != [] {
      var front, last, env := os[..|os| - 1], os[|os| - 1], EnvOf(h, servers);
      SendsDo(h, front, servers);
      if last.kind.Answer? {
        assert Sends(h, os, env) == Sends(h, front, env) && SendUses(h, os) == SendUses(h, front);
      } else {
        SendingDoes(h, last, servers);
        DoOne(Sending(h, last, env), EntryUse(h, AsSender(last), last), servers);
        DoThen(Sends(h, front, env), SendUses(h, front), [Sending(h, last, env)],
               [EntryUse(h, AsSender(last), last)], servers);
      }
    }
  }

  lemma OpeningDoes(h: Handler, servers: map<string, Server>)
    ensures DoAll(Opening(h, EnvOf(h, servers)), AnswerUses(h) + [OwnUse(h)], servers)
  {
    var answer, env := FirstOf(h.outgoing, Answer), EnvOf(h, servers);
    ReceivingDoes(h, servers);
    DoOne(Receiving(h, answer, env), OwnUse(h), servers);
    if answer.Some? {
      AnsweringDoes(h, answer.value, servers);
      DoOne(Answering(answer.value, env), EntryUse(h, AsAnswer(answer.value), answer.value), servers);
      DoThen([Answering(answer.value, env)], AnswerUses(h), [Receiving(h, answer, env)], [OwnUse(h)], servers);
    } else {
      assert AnswerUses(h) + [OwnUse(h)] == [OwnUse(h)];
    }
  }

  /** The traversal takes the handlers' uses in order. */
  lemma {:induction false} TraversalDoes(handlers: seq<Handler>, servers: map<string, Server>)
    ensures DoAll(Traversal(handlers, servers), AllUses(handlers), servers)
    decreases |handlers|
  {
    if handlers != [] {
      var front, h := handlers[..|handlers| - 1], handlers[|handlers| - 1];
      var env := EnvOf(h, servers);
      AllUsesNext(handlers);
      TraversalDoes(front, servers);
      OpeningDoes(h, servers);
      SendsDo(h, h.outgoing, servers);
      DoThen(Opening(h, env), AnswerUses(h) + [OwnUse(h)], Sends(h, h.outgoing, env), SendUses(h, h.outgoing), servers);
      DoThen(Traversal(front, servers), AllUses(front), StepsOf(h, servers), UsesOf(h), servers);
    }
  }

  // Each operation

  /** An id made of `base`: itself, or with a number from two on. */
  ghost predicate IdFrom(id: string, base: string)
  {
    id == base || exists n: nat :: n >= 2 && id == base + "_" + Dec(n)
  }

  lemma IdOfFrom(d: Draft, s: Step)
    ensures IdFrom(IdOf(d, s), BaseOf(s))
  {
    FreshIdIsLeast(d.operations.Keys, BaseOf(s));
  }

  lemma IdsFrom(steps: seq<Step>, k: nat)
    requires k < |steps|
    ensures IdFrom(Ids(steps)[k], BaseOf(steps[k]))
  {
    OutputAt(Applied, IdOf, EMPTY, steps, k);
    IdOfFrom(AllApplied(EMPTY, steps[..k]), steps[k]);
  }

  /** `receive_<name>` or `send_<name>_<channel>`, with a number where that was taken. */
  ghost predicate IdTells(id: string, u: Use)
  {
    match u.role
    case AsAnswer(_) => true
    case AsSubscriber => exists base :: ReceiveBaseTells(base, u.h.name) && IdFrom(id, base)
    case AsSender(o) => exists base :: SendBaseTells(base, u.h.name, o.channel) && IdFrom(id, base)
  }

  /** The operation under `id` is the use's, where it has one. */
  ghost predicate HasOperation(operations: map<string, Operation>, id: string, u: Use, servers: map<string, Server>)
  {
    !u.role.AsAnswer? ==>
      id in operations && OperationTells(Some(operations[id]), u, servers) && IdTells(id, u)
  }

  ghost predicate GivenTo(ids: seq<string>, uses: seq<Use>, id: string)
    requires |ids| == |uses|
  {
    exists k :: 0 <= k < |ids| && !uses[k].role.AsAnswer? && ids[k] == id
  }

  /** The operations of a document, by the handlers alone: each use that is no answer has one under an
      id of its own, which tells its action, channel, messages, description, reply, tags, retry and
      bindings; and there is no other. */
  lemma DocumentOperationsTell(handlers: seq<Handler>, servers: map<string, Server>) returns (ids: seq<string>)
    ensures |ids| == |AllUses(handlers)|
    ensures
      var operations, uses := AllApplied(EMPTY, Traversal(handlers, servers)).operations, AllUses(handlers);
      && (forall k | 0 <= k < |ids| :: HasOperation(operations, ids[k], uses[k], servers))
      && (forall id | id in operations :: GivenTo(ids, uses, id))
      && (forall j, k | 0 <= j < k < |ids| && !uses[j].role.AsAnswer? && !uses[k].role.AsAnswer? :: ids[j] != ids[k])
  {
    var steps, uses := Traversal(handlers, servers), AllUses(handlers);
    TraversalDoes(handlers, servers);
    OneOperationEach(steps);
    ids := Ids(steps);
    OperationsAreGiven(steps, uses, servers);
  }

  lemma OperationsAreGiven(steps: seq<Step>, uses: seq<Use>, servers: map<string, Server>)
    requires DoAll(steps, uses, servers)
    requires OneEach(AllApplied(EMPTY, steps).operations, Ids(steps), Declares(steps))
    ensures
      var operations, ids := AllApplied(EMPTY, steps).operations, Ids(steps);
      && (forall k | 0 <= k < |ids| :: HasOperation(operations, ids[k], uses[k], servers))
      && (forall id | id in operations :: GivenTo(ids, uses, id))
      && (forall j, k | 0 <= j < k < |ids| && !uses[j].role.AsAnswer? && !uses[k].role.AsAnswer? :: ids[j] != ids[k])
  {
    var operations, ids := AllApplied(EMPTY, steps).operations, Ids(steps);
    forall k | 0 <= k < |ids| ensures Declares(steps)[k].Some? <==> !uses[k].role.AsAnswer? {
      assert Does(steps[k], uses[k], servers);
    }
    forall k | 0 <= k < |ids| ensures HasOperation(operations, ids[k], uses[k], servers) {
      assert Does(steps[k], uses[k], servers) && HoldsAt(operations, ids[k], Declares(steps)[k]);
      IdsFrom(steps, k);
    }
    forall id | id in operations ensures GivenTo(ids, uses, id) {
      assert Given(ids, Declares(steps), id);
    }
  }

  // Each handler's

  lemma InEither(first: seq<Use>, second: seq<Use>, u: Use)
    requires u in first || u in second
    ensures u in first + second
  {
    if u in second {
      var j :| 0 <= j < |second| && second[j] == u;
      assert (first + second)[|first| + j] == u;
    }
  }

  lemma UsesHold(handlers: seq<Handler>, i: nat, u: Use)
    requires i < |handlers| && u in UsesOf(handlers[i])
    ensures u in AllUses(handlers)
  {
    FlatHolds(EachUses(handlers), i, u);
  }

  /** A use of some handler has its operation. */
  lemma UseHasOperation(handlers: seq<Handler>, servers: map<string, Server>, u: Use) returns (id: string)
    requires u in AllUses(handlers) && !u.role.AsAnswer?
    ensures
      var operations := AllApplied(EMPTY, Traversal(handlers, servers)).operations;
      id in operations && OperationTells(Some(operations[id]), u, servers) && IdTells(id, u)
  {
    var ids := DocumentOperationsTell(handlers, servers);
    var k :| 0 <= k < |ids| && AllUses(handlers)[k] == u;
    id := ids[k];
    var operations := AllApplied(EMPTY, Traversal(handlers, servers)).operations;
    assert HasOperation(operations, ids[k], AllUses(handlers)[k], servers);
  }

  lemma OwnUseIsUsed(h: Handler)
    ensures OwnUse(h) in UsesOf(h)
  {
    InEither(AnswerUses(h), [OwnUse(h)], OwnUse(h));
    InEither(AnswerUses(h) + [OwnUse(h)], SendUses(h, h.outgoing), OwnUse(h));
  }

  lemma {:induction false} SendUsesHold(h: Handler, os: seq<OutgoingMeta>, o: OutgoingMeta)
    requires o in os && o.kind != Answer
    ensures EntryUse(h, AsSender(o), o) in SendUses(h, os)
    decreases |os|
  {
    var front, last := os[..|os| - 1], os[|os| - 1];
    if o in front {
      SendUsesHold(h, front, o);
    }
  }

  ghost predicate HasReceive(operations: map<string, Operation>, h: Handler, servers: map<string, Server>)
  {
    exists id :: id in operations && ReceiveTells(operations[id], h, servers)
                 && exists base :: ReceiveBaseTells(base, h.name) && IdFrom(id, base)
  }

  ghost predicate HasSend(operations: map<string, Operation>, h: Handler, o: OutgoingMeta, servers: map<string, Server>)
  {
    exists id :: id in operations && SendTells(operations[id], h, o, servers)
                 && exists base :: SendBaseTells(base, h.name, o.channel) && IdFrom(id, base)
  }

  /** Each handler has its receive operation, and each of its outgoing entries that is no answer its
      send operation. */
  lemma HandlerHasItsOperations(handlers: seq<Handler>, servers: map<string, Server>, i: nat)
    requires i < |handlers|
    ensures
      var operations := AllApplied(EMPTY, Traversal(handlers, servers)).operations;
      && HasReceive(operations, handlers[i], servers)
      && forall o | o in handlers[i].outgoing && o.kind != Answer :: HasSend(operations, handlers[i], o, servers)
  {
    var operations, h := AllApplied(EMPTY, Traversal(handlers, servers)).operations, handlers[i];
    OwnUseIsUsed(h);
    UsesHold(handlers, i, OwnUse(h));
    var own := UseHasOperation(handlers, servers, OwnUse(h));
    forall o | o in h.outgoing && o.kind != Answer ensures HasSend(operations, h, o, servers) {
      SendUsesHold(h, h.outgoing, o);
      InEither(AnswerUses(h) + [OwnUse(h)], SendUses(h, h.outgoing), EntryUse(h, AsSender(o), o));
      UsesHold(handlers, i, EntryUse(h, AsSender(o), o));
      var id := UseHasOperation(handlers, servers, EntryUse(h, AsSender(o), o));
    }
  }

  // How many of them receive

  function Receives(operations: map<string, Operation>): set<string>
  {
    set id | id in operations && operations[id].action == "receive"
  }

  function Subscriptions(steps: seq<Step>): nat
    decreases |steps|
  {
    if steps == [] then 0
    else Subscriptions(steps[..|steps| - 1]) + if steps[|steps| - 1].Receiving? then 1 else 0
  }

  lemma ReceivesNext(operations: map<string, Operation>, id: string, op: Operation)
    requires id !in operations
    ensures |Receives(operations[id := op])| == |Receives(operations)| + if op.action == "receive" then 1 else 0
  {
    var after := Receives(operations[id := op]);
    if op.action == "receive" {
      assert after == Receives(operations) + {id};
    } else {
      assert after == Receives(operations);
    }
  }

  lemma {:induction false} ReceivesCounted(steps: seq<Step>)
    ensures |Receives(AllApplied(EMPTY, steps).operations)| == Subscriptions(steps)
    decreases |steps|
  {
    if steps != [] {
      var d, last := AllApplied(EMPTY, steps[..|steps| - 1]), steps[|steps| - 1];
      ReceivesCounted(steps[..|steps| - 1]);
      StepIs(d, last);
      if OperationOf(last).Some? {
        ReceivesNext(d.operations, IdOf(d, last), OperationOf(last).value);
        assert |"send"| == 4 && |"receive"| == 7;
      }
    }
  }

  lemma {:induction false} SubscriptionsJoined(first: seq<Step>, second: seq<Step>)
    ensures Subscriptions(first + second) == Subscriptions(first) + Subscriptions(second)
    decreases |second|
  {
    if second == [] {
      assert first + second == first;
    } else {
      SubscriptionsJoined(first, second[..|second| - 1]);
      assert (first + second)[..|first + second| - 1] == first + second[..|second| - 1];
    }
  }

  lemma {:induction false} NoSubscriptions(steps: seq<Step>)
    requires forall i | 0 <= i < |steps| :: !steps[i].Receiving?
    ensures Subscriptions(steps) == 0
    decreases |steps|
  {
    if steps != [] {
      NoSubscriptions(steps[..|steps| - 1]);
    }
  }

  lemma StepSubscribes(s: Step)
    ensures Subscriptions([s]) == if s.Receiving? then 1 else 0
  {
    assert [s][..0] == [];
  }

  lemma OpeningSubscribes(h: Handler, env: Env)
    ensures Subscriptions(Opening(h, env)) == 1
  {
    var answer := FirstOf(h.outgoing, Answer);
    var own := Receiving(h, answer, env);
    StepSubscribes(own);
    if answer.Some? {
      StepSubscribes(Answering(answer.value, env));
      SubscriptionsJoined([Answering(answer.value, env)], [own]);
    } else {
      SubscriptionsJoined([], [own]);
    }
  }

  lemma OneSubscription(h: Handler, servers: map<string, Server>)
    ensures Subscriptions(StepsOf(h, servers)) == 1
  {
    var env := EnvOf(h, servers);
    SendsInOrder(h, h.outgoing, env);
    NoSubscriptions(Sends(h, h.outgoing, env));
    OpeningSubscribes(h, env);
    SubscriptionsJoined(Opening(h, env), Sends(h, h.outgoing, env));
  }

  /** There are as many receive operations as handlers. */
  lemma OneReceiveEach(handlers: seq<Handler>, servers: map<string, Server>)
    ensures |Receives(AllApplied(EMPTY, Traversal(handlers, servers)).operations)| == |handlers|
  {
    ReceivesCounted(Traversal(handlers, servers));
    SubscriptionsAre(handlers, servers);
  }

  lemma {:induction false} SubscriptionsAre(handlers: seq<Handler>, servers: map<string, Server>)
    ensures Subscriptions(Traversal(handlers, servers)) == |handlers|
    decreases |handlers|
  {
    if handlers != [] {
      var front, h := handlers[..|handlers| - 1], handlers[|handlers| - 1];
      SubscriptionsAre(front, servers);
      OneSubscription(h, servers);
      SubscriptionsJoined(Traversal(front, servers), StepsOf(h, servers));
    }
  }

  // Names are decided by the metadata

  lemma SegmentIsOne(typeName: string, segment: string)
    ensures LastSegment(typeName, segment) ==> segment == MessageName(typeName)
  {
    var at := MessageNameIs(typeName, |typeName|);
  }

  lemma NameIsOne(m: MessageMeta, a: string, b: string)
    requires NameTells(a, m) && NameTells(b, m)
    ensures a == b
  {
    if m.messageName == None && NoText(m.payload, "title") {
      SegmentIsOne(m.messageType, a);
      SegmentIsOne(m.messageType, b);
    }
  }

  // Channels

  ghost predicate FirstUse(uses: seq<Use>, c: string, k: nat)
  {
    k < |uses| && uses[k].channel == c && forall j | 0 <= j < k :: uses[j].channel != c
  }

  ghost predicate Unused(uses: seq<Use>, c: string)
  {
    forall k | 0 <= k < |uses| :: uses[k].channel != c
  }

  ghost predicate SaysName(u: Use, name: string)
  {
    exists j :: 0 <= j < |u.said| && NameTells(name, u.said[j].meta)
  }

  ghost predicate MessageUsed(uses: seq<Use>, c: string, name: string)
  {
    exists k :: 0 <= k < |uses| && uses[k].channel == c && SaysName(uses[k], name)
  }

  /** What each use of `c` binds under `key`, the others nothing. */
  function BoundOn(uses: seq<Use>, c: string, key: string): (r: seq<Option<string>>)
    ensures |r| == |uses|
  {
    seq(|uses|, k requires 0 <= k < |uses| =>
      if uses[k].channel == c && key in uses[k].bindings then Some(uses[k].bindings[key]) else None)
  }

  /** The parameters and the server of the first use, the messages of every use, and of each protocol
      the first binding. */
  ghost predicate ChannelTells(channel: Channel, uses: seq<Use>, c: string, servers: map<string, Server>)
  {
    && (exists k: nat :: FirstUse(uses, c, k) && channel.parameters == uses[k].parameters
                         && OnTells(channel.servers, uses[k].h, servers))
    && (forall name :: name in channel.messages <==> MessageUsed(uses, c, name))
    && (forall key :: IsFirstOf(if key in channel.bindings then Some(channel.bindings[key]) else None,
                                BoundOn(uses, c, key)))
  }

  lemma SaysExactly(s: Step, u: Use, name: string)
    requires AllSaidBy(Adds(s), u.said)
    ensures Named(Adds(s), name) <==> SaysName(u, name)
  {
    if Named(Adds(s), name) {
      var j :| 0 <= j < |Adds(s)| && Adds(s)[j].name == name;
      assert ContributionTells(Adds(s)[j], u.said[j]);
    }
    if SaysName(u, name) {
      var j :| 0 <= j < |u.said| && NameTells(name, u.said[j].meta);
      assert ContributionTells(Adds(s)[j], u.said[j]);
      NameIsOne(u.said[j].meta, name, Adds(s)[j].name);
    }
  }

  lemma UsedExactly(steps: seq<Step>, uses: seq<Use>, servers: map<string, Server>, c: string, name: string)
    requires DoAll(steps, uses, servers)
    ensures CarriedOn(steps, c, name) <==> MessageUsed(uses, c, name)
  {
    forall k | 0 <= k < |steps|
      ensures On(steps[k]) == uses[k].channel && (Named(Adds(steps[k]), name) <==> SaysName(uses[k], name))
    {
      assert Does(steps[k], uses[k], servers);
      SaysExactly(steps[k], uses[k], name);
    }
  }

  lemma BoundExactly(steps: seq<Step>, uses: seq<Use>, servers: map<string, Server>, c: string, key: string)
    requires DoAll(steps, uses, servers)
    ensures IsFirstOf(First(BodiesOn(steps, c, key)), BoundOn(uses, c, key))
  {
    forall k | 0 <= k < |steps| ensures BodiesOn(steps, c, key)[k] == BoundOn(uses, c, key)[k] {
      assert Does(steps[k], uses[k], servers);
    }
    FirstIsFirstOf(BodiesOn(steps, c, key), BoundOn(uses, c, key));
  }

  lemma FirstUseTells(steps: seq<Step>, uses: seq<Use>, servers: map<string, Server>, c: string) returns (k: nat)
    requires DoAll(steps, uses, servers) && First(StepsOn(steps, c)).Some?
    ensures FirstUse(uses, c, k)
    ensures Started(First(StepsOn(steps, c)).value).parameters == uses[k].parameters
    ensures OnTells(First(StepsOn(steps, c)).value.env.on, uses[k].h, servers)
  {
    k := FirstOnIs(steps, c);
    forall j | 0 <= j <= k ensures On(steps[j]) == uses[j].channel {
      assert Does(steps[j], uses[j], servers);
    }
    assert Does(steps[k], uses[k], servers);
  }

  lemma NoStepOn(steps: seq<Step>, uses: seq<Use>, servers: map<string, Server>, c: string)
    requires DoAll(steps, uses, servers)
    ensures First(StepsOn(steps, c)).None? <==> Unused(uses, c)
  {
    FirstIs(StepsOn(steps, c));
    forall k | 0 <= k < |steps| ensures StepsOn(steps, c)[k].None? <==> uses[k].channel != c {
      assert Does(steps[k], uses[k], servers);
    }
  }

  /** The channels of a document, by the handlers alone: there is one exactly where some handler uses
      it, and it tells what the uses of it say. */
  lemma DocumentChannelsTell(handlers: seq<Handler>, servers: map<string, Server>, c: string)
    ensures
      var channels := AllApplied(EMPTY, Traversal(handlers, servers)).channels;
      && (c !in channels <==> Unused(AllUses(handlers), c))
      && (c in channels ==> ChannelTells(channels[c], AllUses(handlers), c, servers))
  {
    var steps, uses := Traversal(handlers, servers), AllUses(handlers);
    var channels := AllApplied(EMPTY, steps).channels;
    TraversalDoes(handlers, servers);
    ChannelsTell(steps, c);
    NoStepOn(steps, uses, servers, c);
    if c in channels {
      StepsTellChannel(channels[c], steps, uses, servers, c);
    }
  }

  lemma StepsTellChannel(channel: Channel, steps: seq<Step>, uses: seq<Use>, servers: map<string, Server>, c: string)
    requires DoAll(steps, uses, servers) && First(StepsOn(steps, c)).Some?
    requires TellsFrom(channel, First(StepsOn(steps, c)).value, steps, c)
    ensures ChannelTells(channel, uses, c, servers)
  {
    var k := FirstUseTells(steps, uses, servers, c);
    forall name ensures name in channel.messages <==> MessageUsed(uses, c, name) {
      UsedExactly(steps, uses, servers, c, name);
    }
    forall key ensures IsFirstOf(if key in channel.bindings then Some(channel.bindings[key]) else None,
                                 BoundOn(uses, c, key)) {
      BoundExactly(steps, uses, servers, c, key);
      assert Binding(channel.bindings, key) == First(BodiesOn(steps, c, key));
    }
  }

  // Components

  function AllSaid(uses: seq<Use>): seq<Said>
    decreases |uses|
  {
    if uses == [] then [] else AllSaid(uses[..|uses| - 1]) + uses[|uses| - 1].said
  }

  lemma SaidThen(cs: seq<Contribution>, said: seq<Said>, ds: seq<Contribution>, more: seq<Said>)
    requires AllSaidBy(cs, said) && AllSaidBy(ds, more)
    ensures AllSaidBy(cs + ds, said + more)
  {
    forall k | 0 <= k < |cs + ds| ensures ContributionTells((cs + ds)[k], (said + more)[k]) {
      assert if k < |cs| then ContributionTells(cs[k], said[k]) else ContributionTells(ds[k - |cs|], more[k - |cs|]);
    }
  }

  lemma {:induction false} AddedIsSaid(steps: seq<Step>, uses: seq<Use>, servers: map<string, Server>)
    requires DoAll(steps, uses, servers)
    ensures AllSaidBy(AllAdded(steps), AllSaid(uses))
    decreases |steps|
  {
    if steps != [] {
      var n := |steps| - 1;
      forall i | 0 <= i < n ensures Does(steps[..n][i], uses[..n][i], servers) {
        assert Does(steps[i], uses[i], servers);
      }
      AddedIsSaid(steps[..n], uses[..n], servers);
      assert Does(steps[n], uses[n], servers);
      SaidThen(AllAdded(steps[..n]), AllSaid(uses[..n]), Adds(steps[n]), uses[n].said);
    }
  }

  /** The components of a document are what the handlers say of their messages, merged in order: each
      contribution tells its metadata field by field. */
  lemma DocumentComponentsTell(handlers: seq<Handler>, servers: map<string, Server>) returns (cs: seq<Contribution>)
    ensures AllSaidBy(cs, AllSaid(AllUses(handlers)))
    ensures AllApplied(EMPTY, Traversal(handlers, servers)).messages == MergedAll(map[], cs)
  {
    var steps := Traversal(handlers, servers);
    cs := AllAdded(steps);
    TraversalDoes(handlers, servers);
    AddedIsSaid(steps, AllUses(handlers), servers);
    MessagesAreMerged(steps);
  }
}
