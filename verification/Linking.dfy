/** What holds of every document the handlers are folded into (crates/asyncapi/src/lib.rs): nothing
    is taken back, and every reference names an entry that is there. */
module Linking {
  import opened Prelude
  import opened Messages
  import opened Servers
  import opened Document

  // Every reference names an entry that is there

  ghost predicate ListedAs(channel: Channel, name: string, reference: string)
  {
    exists m :: m in channel.messages && reference == ChannelMessageRef(name, m)
  }

  /** A channel reference, with references to messages of that very channel. */
  ghost predicate PointsAt(d: Draft, c: string, channel: string, messages: seq<string>)
  {
    && c in d.channels && channel == ChannelRef(c)
    && forall i | 0 <= i < |messages| :: ListedAs(d.channels[c], c, messages[i])
  }

  ghost predicate Points(d: Draft, channel: string, messages: seq<string>)
  {
    exists c :: PointsAt(d, c, channel, messages)
  }

  ghost predicate OperationLinked(d: Draft, op: Operation)
  {
    && Points(d, op.channel, op.messages)
    && (op.reply.Some? ==> Points(d, op.reply.value.channel, op.reply.value.messages))
  }

  ghost predicate NamesServer(reference: string, servers: set<string>)
  {
    exists s :: s in servers && reference == ServerRef(s)
  }

  ghost predicate OnServers(references: seq<string>, servers: set<string>)
  {
    forall i | 0 <= i < |references| :: NamesServer(references[i], servers)
  }

  ghost predicate ChannelLinked(channel: Channel, components: set<string>, servers: set<string>)
  {
    && (forall m | m in channel.messages :: channel.messages[m] == ComponentRef(m) && m in components)
    && OnServers(channel.servers, servers)
  }

  ghost predicate Linked(d: Draft, servers: set<string>)
  {
    && (forall id | id in d.operations :: OperationLinked(d, d.operations[id]))
    && (forall c | c in d.channels :: ChannelLinked(d.channels[c], d.messages.Keys, servers))
  }

  /** Nothing is taken back: channels keep their messages, and operations stay as they were. */
  ghost predicate Grows(d: Draft, e: Draft)
  {
    && (forall c | c in d.channels :: c in e.channels && d.channels[c].messages.Keys <= e.channels[c].messages.Keys)
    && (forall id | id in d.operations :: id in e.operations && e.operations[id] == d.operations[id])
    && d.messages.Keys <= e.messages.Keys
  }

  lemma PointsStays(d: Draft, e: Draft, channel: string, messages: seq<string>)
    requires Grows(d, e) && Points(d, channel, messages)
    ensures Points(e, channel, messages)
  {
    var c :| PointsAt(d, c, channel, messages);
    forall i | 0 <= i < |messages| ensures ListedAs(e.channels[c], c, messages[i]) {
      assert ListedAs(d.channels[c], c, messages[i]);
      var m :| m in d.channels[c].messages && messages[i] == ChannelMessageRef(c, m);
      assert m in e.channels[c].messages;
    }
    assert PointsAt(e, c, channel, messages);
  }

  lemma OperationStays(d: Draft, e: Draft, op: Operation)
    requires Grows(d, e) && OperationLinked(d, op)
    ensures OperationLinked(e, op)
  {
    PointsStays(d, e, op.channel, op.messages);
    if op.reply.Some? {
      PointsStays(d, e, op.reply.value.channel, op.reply.value.messages);
    }
  }

  lemma {:induction false} ListedAt(messages: map<string, string>, cs: seq<Contribution>, m: string)
    ensures m in Listed(messages, cs) <==> m in messages || Named(cs, m)
    ensures m in Listed(messages, cs) ==>
      Listed(messages, cs)[m] == if Named(cs, m) then ComponentRef(m) else messages[m]
    decreases |cs|
  {
    if cs != [] {
      var front, last := cs[..|cs| - 1], cs[|cs| - 1];
      ListedAt(messages, front, m);
      NamedNext(front, last, m);
      assert front + [last] == cs;
    }
  }

  /** The messages a list gains are those contributed, each under the reference to its component. */
  lemma ListedHolds(messages: map<string, string>, cs: seq<Contribution>)
    ensures forall m :: m in Listed(messages, cs) <==> m in messages || Named(cs, m)
    ensures forall m | m in Listed(messages, cs) ::
      Listed(messages, cs)[m] == if Named(cs, m) then ComponentRef(m) else messages[m]
  {
    forall m
      ensures m in Listed(messages, cs) <==> m in messages || Named(cs, m)
      ensures m in Listed(messages, cs) ==>
        Listed(messages, cs)[m] == if Named(cs, m) then ComponentRef(m) else messages[m]
    {
      ListedAt(messages, cs, m);
    }
  }

  lemma {:induction false} MergedAt(messages: Components, cs: seq<Contribution>, m: string)
    ensures m in MergedAll(messages, cs) <==> m in messages || Named(cs, m)
    decreases |cs|
  {
    if cs != [] {
      var front, last := cs[..|cs| - 1], cs[|cs| - 1];
      MergedAt(messages, front, m);
      NamedNext(front, last, m);
      assert front + [last] == cs;
    }
  }

  lemma MergedHolds(messages: Components, cs: seq<Contribution>)
    ensures forall m :: m in MergedAll(messages, cs) <==> m in messages || Named(cs, m)
  {
    forall m ensures m in MergedAll(messages, cs) <==> m in messages || Named(cs, m) {
      MergedAt(messages, cs, m);
    }
  }

  // A step, whichever kind it is

  function On(s: Step): string
  {
    if s.Receiving? then s.h.name else s.o.channel
  }

  function Adds(s: Step): (cs: seq<Contribution>)
    ensures cs != []
  {
    if s.Receiving? then Received(s.h) else [Sent(s.o)]
  }

  function BindingsOn(s: Step): Bindings
  {
    if s.Receiving? then s.h.bindings.channel else s.o.bindings.channel
  }

  /** The channel entry a step starts where there is none. */
  function Started(s: Step): Channel
  {
    if s.Receiving? then Channel(Some(s.h.name), map[], {}, s.env.on, map[]) else OutgoingChannel(s.o, s.env.on)
  }

  /** The entry once `s` had its turn. */
  function EntryAfter(entry: Channel, s: Step): Channel
  {
    Grown(if s.Receiving? then entry.(address := Some(On(s))) else entry, Adds(s), BindingsOn(s))
  }

  function ChannelAfter(d: Draft, s: Step): Channel
  {
    EntryAfter(if On(s) in d.channels then d.channels[On(s)] else Started(s), s)
  }

  function OperationOf(s: Step): Option<Operation>
  {
    match s
    case Answering(_, _) => None
    case Receiving(h, answer, env) => Some(ReceiveOperation(h, answer, env.tags))
    case Sending(_, o, env) => Some(SendOperation(o, env.tags))
  }

  function BaseOf(s: Step): string
  {
    if s.Sending? then SendBase(s.h.name, s.o.channel) else ReceiveBase(On(s))
  }

  function IdOf(d: Draft, s: Step): string
  {
    FreshId(d.operations.Keys, BaseOf(s))
  }

  function OperationsAfter(d: Draft, s: Step): map<string, Operation>
  {
    if OperationOf(s).None? then d.operations else d.operations[IdOf(d, s) := OperationOf(s).value]
  }

  lemma StepIs(d: Draft, s: Step)
    ensures Applied(d, s) ==
      Draft(d.channels[On(s) := ChannelAfter(d, s)], OperationsAfter(d, s), MergedAll(d.messages, Adds(s)))
  {
    if !s.Receiving? {
      FoldOne(Merged, d.messages, Sent(s.o));
    }
  }

  function RefsOf(s: Step): seq<string>
  {
    seq(|Adds(s)|, i requires 0 <= i < |Adds(s)| => ChannelMessageRef(On(s), Adds(s)[i].name))
  }

  lemma ChannelGrows(d: Draft, s: Step)
    requires On(s) in d.channels
    ensures d.channels[On(s)].messages.Keys <= ChannelAfter(d, s).messages.Keys
  {
    ListedHolds(d.channels[On(s)].messages, Adds(s));
  }

  lemma StepGrows(d: Draft, s: Step)
    ensures Grows(d, Applied(d, s))
  {
    var channel := ChannelAfter(d, s);
    if On(s) in d.channels {
      ChannelGrows(d, s);
    }
    MergedHolds(d.messages, Adds(s));
    assert IdOf(d, s) !in d.operations;
    StepIs(d, s);
  }

  /** The references a step hands out land in the document it leaves. */
  lemma StepPoints(d: Draft, s: Step)
    ensures Points(Applied(d, s), ChannelRef(On(s)), RefsOf(s))
  {
    StepIs(d, s);
    var channel := ChannelAfter(d, s);
    ListedHolds((if On(s) in d.channels then d.channels[On(s)] else Started(s)).messages, Adds(s));
    forall i | 0 <= i < |RefsOf(s)| ensures ListedAs(channel, On(s), RefsOf(s)[i]) {
      assert Named(Adds(s), Adds(s)[i].name);
      assert Adds(s)[i].name in channel.messages;
    }
    assert PointsAt(Applied(d, s), On(s), ChannelRef(On(s)), RefsOf(s));
  }

  /** The reply a subscription is about to point at is already there. */
  ghost predicate Ready(d: Draft, s: Step)
  {
    s.Receiving? && s.answer.Some? ==> Points(d, ReplyOf(s.answer.value).channel, ReplyOf(s.answer.value).messages)
  }

  lemma StepLinksOperation(d: Draft, s: Step)
    requires Ready(d, s) && OperationOf(s).Some?
    ensures OperationLinked(Applied(d, s), OperationOf(s).value)
  {
    StepPoints(d, s);
    StepGrows(d, s);
    var op := OperationOf(s).value;
    assert op.channel == ChannelRef(On(s)) && op.messages == RefsOf(s);
    if op.reply.Some? {
      PointsStays(d, Applied(d, s), op.reply.value.channel, op.reply.value.messages);
    }
  }

  lemma StepLinksChannel(d: Draft, s: Step, servers: set<string>)
    requires Linked(d, servers) && OnServers(s.env.on, servers)
    ensures ChannelLinked(ChannelAfter(d, s), Applied(d, s).messages.Keys, servers)
  {
    StepIs(d, s);
    var entry := if On(s) in d.channels then d.channels[On(s)] else Started(s);
    ListedHolds(entry.messages, Adds(s));
    MergedHolds(d.messages, Adds(s));
    if On(s) in d.channels {
      assert ChannelLinked(entry, d.messages.Keys, servers);
    }
  }

  lemma StepKeepsLinked(d: Draft, s: Step, servers: set<string>)
    requires Linked(d, servers) && Ready(d, s) && OnServers(s.env.on, servers)
    ensures Linked(Applied(d, s), servers)
  {
    var e := Applied(d, s);
    StepIs(d, s);
    StepGrows(d, s);
    forall id | id in e.operations ensures OperationLinked(e, e.operations[id]) {
      if id in d.operations {
        OperationStays(d, e, d.operations[id]);
      } else {
        StepLinksOperation(d, s);
      }
    }
    forall c | c in e.channels ensures ChannelLinked(e.channels[c], e.messages.Keys, servers) {
      if c == On(s) {
        StepLinksChannel(d, s, servers);
      } else {
        assert ChannelLinked(d.channels[c], d.messages.Keys, servers);
      }
    }
  }

  // The whole traversal

  /** An answered subscription follows the step that put its answer's channel there. */
  ghost predicate InOrder(steps: seq<Step>)
  {
    forall i | 0 <= i < |steps| :: steps[i].Receiving? && steps[i].answer.Some? ==>
      i > 0 && steps[i - 1] == Answering(steps[i].answer.value, steps[i].env)
  }

  ghost predicate AllOnServers(steps: seq<Step>, servers: set<string>)
  {
    forall i | 0 <= i < |steps| :: OnServers(steps[i].env.on, servers)
  }

  lemma AnswerIsReady(steps: seq<Step>)
    requires steps != [] && InOrder(steps)
    ensures Ready(AllApplied(EMPTY, steps[..|steps| - 1]), steps[|steps| - 1])
  {
    var n := |steps| - 1;
    var front, last := steps[..n], steps[n];
    if last.Receiving? && last.answer.Some? {
      assert front[n - 1] == Answering(last.answer.value, last.env);
      StepPoints(AllApplied(EMPTY, front[..n - 1]), front[n - 1]);
      assert ReplyOf(last.answer.value).messages == RefsOf(front[n - 1]);
    }
  }

  lemma {:induction false} LinkedThroughout(steps: seq<Step>, servers: set<string>)
    requires InOrder(steps) && AllOnServers(steps, servers)
    ensures Linked(AllApplied(EMPTY, steps), servers)
    decreases |steps|
  {
    if steps != [] {
      var front := steps[..|steps| - 1];
      LinkedThroughout(front, servers);
      AnswerIsReady(steps);
      StepKeepsLinked(AllApplied(EMPTY, front), steps[|steps| - 1], servers);
    }
  }

  lemma {:induction false} SendsInOrder(h: Handler, os: seq<OutgoingMeta>, env: Env)
    ensures forall i | 0 <= i < |Sends(h, os, env)| ::
      Sends(h, os, env)[i].Sending? && Sends(h, os, env)[i].h == h && Sends(h, os, env)[i].env == env
    decreases |os|
  {
    if os != [] {
      SendsInOrder(h, os[..|os| - 1], env);
    }
  }

  lemma StepsOfInOrder(h: Handler, servers: map<string, Server>)
    ensures InOrder(StepsOf(h, servers)) && AllOnServers(StepsOf(h, servers), servers.Keys)
  {
    var env := EnvOf(h, servers);
    var steps, opening := StepsOf(h, servers), Opening(h, env);
    SendsInOrder(h, h.outgoing, env);
    assert OnServers(env.on, servers.Keys) by {
      var server := ResolveServer(h.server, servers);
      assert server.Some? ==> NamesServer(ServerRef(server.value), servers.Keys);
    }
    forall i | 0 <= i < |steps| ensures steps[i].env == env {
      assert i >= |opening| ==> steps[i] == Sends(h, h.outgoing, env)[i - |opening|];
    }
  }

  lemma {:induction false} TraversalInOrder(handlers: seq<Handler>, servers: map<string, Server>)
    ensures InOrder(Traversal(handlers, servers)) && AllOnServers(Traversal(handlers, servers), servers.Keys)
    decreases |handlers|
  {
    if handlers != [] {
      var front, last := Traversal(handlers[..|handlers| - 1], servers), StepsOf(handlers[|handlers| - 1], servers);
      TraversalInOrder(handlers[..|handlers| - 1], servers);
      StepsOfInOrder(handlers[|handlers| - 1], servers);
      assert forall i | 0 <= i < |last| :: (front + last)[|front| + i] == last[i];
    }
  }

  /** Every reference of a generated document names an entry the document holds. */
  lemma DocumentIsLinked(handlers: seq<Handler>, servers: map<string, Server>)
    ensures Linked(AllApplied(EMPTY, Traversal(handlers, servers)), servers.Keys)
  {
    TraversalInOrder(handlers, servers);
    LinkedThroughout(Traversal(handlers, servers), servers.Keys);
  }
}
