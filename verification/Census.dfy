/** What a generated document says of the registrations it was built from: an operation for each,
    its channels as they were first declared, its components as they were first described
    (crates/asyncapi/src/lib.rs and operations.rs). */
module Census {
  import opened Prelude
  import opened Messages
  import opened Servers
  import opened Document
  import opened Linking

  // Operations

  /** What each step declares. */
  function Declares(steps: seq<Step>): (ops: seq<Option<Operation>>)
    ensures |ops| == |steps| && forall i | 0 <= i < |steps| :: ops[i] == OperationOf(steps[i])
    decreases |steps|
  {
    if steps == [] then [] else Declares(steps[..|steps| - 1]) + [OperationOf(steps[|steps| - 1])]
  }

  /** The id each step finds free when its turn comes. */
  function Ids(steps: seq<Step>): (ids: seq<string>)
    ensures |ids| == |steps|
  {
    Outputs(Applied, IdOf, EMPTY, steps)
  }

  predicate HoldsAt(operations: map<string, Operation>, id: string, op: Option<Operation>)
  {
    op.Some? ==> id in operations && operations[id] == op.value
  }

  ghost predicate Given(ids: seq<string>, declared: seq<Option<Operation>>, id: string)
    requires |ids| == |declared|
  {
    exists i :: 0 <= i < |ids| && declared[i].Some? && ids[i] == id
  }

  /** The operations are the declared ones, each under an id of its own. */
  ghost predicate OneEach(operations: map<string, Operation>, ids: seq<string>, declared: seq<Option<Operation>>)
    requires |ids| == |declared|
  {
    && (forall i | 0 <= i < |ids| :: HoldsAt(operations, ids[i], declared[i]))
    && (forall id | id in operations :: Given(ids, declared, id))
    && (forall i, j | 0 <= i < j < |ids| && declared[i].Some? && declared[j].Some? :: ids[i] != ids[j])
  }

  lemma OneEachNext(operations: map<string, Operation>, ids: seq<string>, declared: seq<Option<Operation>>,
                    id: string, op: Option<Operation>)
    requires |ids| == |declared| && OneEach(operations, ids, declared) && id !in operations
    ensures OneEach(if op.Some? then operations[id := op.value] else operations, ids + [id], declared + [op])
  {
    var after := if op.Some? then operations[id := op.value] else operations;
    forall i | 0 <= i < |ids| + 1 ensures HoldsAt(after, (ids + [id])[i], (declared + [op])[i]) {
      assert i < |ids| ==> HoldsAt(operations, ids[i], declared[i]);
    }
    forall x | x in after ensures Given(ids + [id], declared + [op], x) {
      if x in operations {
        assert Given(ids, declared, x);
        var i :| 0 <= i < |ids| && declared[i].Some? && ids[i] == x;
        assert (ids + [id])[i] == x && (declared + [op])[i].Some?;
      } else {
        assert (ids + [id])[|ids|] == x && (declared + [op])[|ids|].Some?;
      }
    }
    forall i | 0 <= i < |ids| && declared[i].Some? ensures ids[i] != id {
      assert HoldsAt(operations, ids[i], declared[i]);
    }
  }

  lemma OneEachStep(d: Draft, ids: seq<string>, declared: seq<Option<Operation>>, s: Step)
    requires |ids| == |declared| && OneEach(d.operations, ids, declared)
    ensures OneEach(Applied(d, s).operations, ids + [IdOf(d, s)], declared + [OperationOf(s)])
  {
    StepIs(d, s);
    OneEachNext(d.operations, ids, declared, IdOf(d, s), OperationOf(s));
  }

  /** No operation is lost or replaced: there is exactly one for each step that declares one. */
  lemma {:induction false} OneOperationEach(steps: seq<Step>)
    ensures OneEach(AllApplied(EMPTY, steps).operations, Ids(steps), Declares(steps))
    decreases |steps|
  {
    if steps != [] {
      var front, last := steps[..|steps| - 1], steps[|steps| - 1];
      OneOperationEach(front);
      OneEachStep(AllApplied(EMPTY, front), Ids(front), Declares(front), last);
    }
  }

  // How many there are

  function Answers(os: seq<OutgoingMeta>): nat
    decreases |os|
  {
    if os == [] then 0 else Answers(os[..|os| - 1]) + if os[|os| - 1].kind.Answer? then 1 else 0
  }

  /** A subscription and a send per outgoing message that is no answer. */
  function Registered(handlers: seq<Handler>): int
    decreases |handlers|
  {
    if handlers == [] then 0
    else
      var last := handlers[|handlers| - 1];
      Registered(handlers[..|handlers| - 1]) + 1 + |last.outgoing| - Answers(last.outgoing)
  }

  function Operating(steps: seq<Step>): nat
    decreases |steps|
  {
    if steps == [] then 0
    else Operating(steps[..|steps| - 1]) + if steps[|steps| - 1].Answering? then 0 else 1
  }

  lemma {:induction false} OperatingJoined(first: seq<Step>, second: seq<Step>)
    ensures Operating(first + second) == Operating(first) + Operating(second)
    decreases |second|
  {
    if second == [] {
      assert first + second == first;
    } else {
      OperatingJoined(first, second[..|second| - 1]);
      assert (first + second)[..|first + second| - 1] == first + second[..|second| - 1];
    }
  }

  lemma {:induction false} OperatingSends(h: Handler, os: seq<OutgoingMeta>, env: Env)
    ensures Operating(Sends(h, os, env)) == |os| - Answers(os)
    decreases |os|
  {
    if os != [] {
      var front, last := os[..|os| - 1], os[|os| - 1];
      OperatingSends(h, front, env);
      if last.kind.Answer? {
        assert Sends(h, os, env) == Sends(h, front, env);
      } else {
        assert Sends(h, os, env)[..|Sends(h, os, env)| - 1] == Sends(h, front, env);
      }
    }
  }

  lemma {:induction false} OperatingTraversal(handlers: seq<Handler>, servers: map<string, Server>)
    ensures Operating(Traversal(handlers, servers)) == Registered(handlers)
    decreases |handlers|
  {
    if handlers != [] {
      var front, last := handlers[..|handlers| - 1], handlers[|handlers| - 1];
      var env := EnvOf(last, servers);
      OperatingTraversal(front, servers);
      OperatingSends(last, last.outgoing, env);
      OperatingOpening(last, env);
      OperatingJoined(Opening(last, env), Sends(last, last.outgoing, env));
      OperatingJoined(Traversal(front, servers), StepsOf(last, servers));
    }
  }

  lemma OperatingOpening(h: Handler, env: Env)
    ensures Operating(Opening(h, env)) == 1
  {
    var steps, answer := Opening(h, env), FirstOf(h.outgoing, Answer);
    if answer.Some? {
      assert steps[..1] == [Answering(answer.value, env)];
      assert Operating(steps[..1]) == 0;
    }
  }

  lemma {:induction false} OperationsCounted(steps: seq<Step>)
    ensures |AllApplied(EMPTY, steps).operations| == Operating(steps)
    decreases |steps|
  {
    if steps != [] {
      var front, last := steps[..|steps| - 1], steps[|steps| - 1];
      OperationsCounted(front);
      StepIs(AllApplied(EMPTY, front), last);
    }
  }

  /** One operation per subscription and per declared outgoing message that is no answer. */
  lemma DocumentOperations(handlers: seq<Handler>, servers: map<string, Server>)
    ensures |AllApplied(EMPTY, Traversal(handlers, servers)).operations| == Registered(handlers)
  {
    OperationsCounted(Traversal(handlers, servers));
    OperatingTraversal(handlers, servers);
  }

  // Components

  function AllAdded(steps: seq<Step>): seq<Contribution>
    decreases |steps|
  {
    if steps == [] then [] else AllAdded(steps[..|steps| - 1]) + Adds(steps[|steps| - 1])
  }

  lemma {:induction false} MessagesAreMerged(steps: seq<Step>)
    ensures AllApplied(EMPTY, steps).messages == MergedAll(map[], AllAdded(steps))
    decreases |steps|
  {
    if steps != [] {
      var front, last := steps[..|steps| - 1], steps[|steps| - 1];
      MessagesAreMerged(front);
      StepIs(AllApplied(EMPTY, front), last);
      MergedInTurn(map[], AllAdded(front), Adds(last));
    }
  }

  /** The components of a document are its messages as their first contributors describe them,
      and those reported without a schema are exactly the ones nobody gave or excused one. */
  lemma DocumentMessages(handlers: seq<Handler>, servers: map<string, Server>)
    ensures
      var added := AllAdded(Traversal(handlers, servers));
      var messages := AllApplied(EMPTY, Traversal(handlers, servers)).messages;
      MergedFrom(messages, added) && forall name :: name in WithoutSchema(messages) <==> Undescribed(added, name)
  {
    var added := AllAdded(Traversal(handlers, servers));
    MessagesAreMerged(Traversal(handlers, servers));
    FirstContributorWins(added);
    forall name ensures name in WithoutSchema(MergedAll(map[], added)) <==> Undescribed(added, name) {
      ListedExactly(added, name);
    }
  }

  // Channels

  function StepsOn(steps: seq<Step>, c: string): seq<Option<Step>>
  {
    seq(|steps|, i requires 0 <= i < |steps| => if On(steps[i]) == c then Some(steps[i]) else None)
  }

  /** What each step says of a channel in one protocol's vocabulary. */
  function BodiesOn(steps: seq<Step>, c: string, key: string): seq<Option<string>>
  {
    seq(|steps|, i requires 0 <= i < |steps| => if On(steps[i]) == c then Binding(BindingsOn(steps[i]), key) else None)
  }

  ghost predicate ReceivedOn(steps: seq<Step>, c: string)
  {
    exists i :: 0 <= i < |steps| && steps[i].Receiving? && On(steps[i]) == c
  }

  ghost predicate CarriedOn(steps: seq<Step>, c: string, m: string)
  {
    exists i :: 0 <= i < |steps| && On(steps[i]) == c && Named(Adds(steps[i]), m)
  }

  ghost predicate ListsOn(messages: map<string, string>, steps: seq<Step>, c: string)
  {
    forall m :: m in messages <==> CarriedOn(steps, c, m)
  }

  ghost predicate BindsOn(bindings: Bindings, steps: seq<Step>, c: string)
  {
    forall key :: Binding(bindings, key) == First(BodiesOn(steps, c, key))
  }

  /** A channel declared by `first`: it keeps what that step declared; its address is its name as
      soon as anything receives on it; it lists the messages of every step on it, and of each
      protocol their first binding. */
  ghost predicate TellsFrom(channel: Channel, first: Step, steps: seq<Step>, c: string)
  {
    && channel.servers == first.env.on
    && channel.parameters == Started(first).parameters
    && channel.address == (if ReceivedOn(steps, c) then Some(c) else Started(first).address)
    && ListsOn(channel.messages, steps, c) && BindsOn(channel.bindings, steps, c)
  }

  /** There is a channel exactly where a step is, and it tells what the steps on it declared. */
  ghost predicate Tells(channels: map<string, Channel>, steps: seq<Step>, c: string)
  {
    var first := First(StepsOn(steps, c));
    && (c in channels <==> first.Some?)
    && (c in channels ==> TellsFrom(channels[c], first.value, steps, c))
  }

  lemma NextOn(steps: seq<Step>, s: Step, c: string)
    ensures StepsOn(steps + [s], c) == StepsOn(steps, c) + [if On(s) == c then Some(s) else None]
    ensures First(StepsOn(steps + [s], c)) == Either(First(StepsOn(steps, c)), if On(s) == c then Some(s) else None)
    ensures ReceivedOn(steps + [s], c) <==> ReceivedOn(steps, c) || (s.Receiving? && On(s) == c)
  {
    var all := steps + [s];
    assert StepsOn(all, c) == StepsOn(steps, c) + [if On(s) == c then Some(s) else None];
    FirstNext(StepsOn(steps, c), if On(s) == c then Some(s) else None);
    assert all[|steps|] == s && forall i | 0 <= i < |steps| :: all[i] == steps[i];
  }

  lemma NextCarried(steps: seq<Step>, s: Step, c: string, m: string)
    ensures CarriedOn(steps + [s], c, m) <==> CarriedOn(steps, c, m) || (On(s) == c && Named(Adds(s), m))
  {
    var all := steps + [s];
    assert all[|steps|] == s && forall i | 0 <= i < |steps| :: all[i] == steps[i];
  }

  lemma NextBodies(steps: seq<Step>, s: Step, c: string, key: string)
    ensures First(BodiesOn(steps + [s], c, key)) ==
      Either(First(BodiesOn(steps, c, key)), if On(s) == c then Binding(BindingsOn(s), key) else None)
  {
    var said := if On(s) == c then Binding(BindingsOn(s), key) else None;
    assert BodiesOn(steps + [s], c, key) == BodiesOn(steps, c, key) + [said];
    FirstNext(BodiesOn(steps, c, key), said);
  }

  lemma NothingOn(steps: seq<Step>, s: Step)
    requires First(StepsOn(steps, On(s))).None?
    ensures TellsFrom(Started(s), s, steps, On(s))
  {
    FirstIs(StepsOn(steps, On(s)));
    forall i | 0 <= i < |steps| ensures On(steps[i]) != On(s) {
      assert StepsOn(steps, On(s))[i].None?;
    }
    forall key ensures First(BodiesOn(steps, On(s), key)).None? {
      FirstIs(BodiesOn(steps, On(s), key));
    }
  }

  lemma ListsNext(messages: map<string, string>, steps: seq<Step>, s: Step, c: string)
    requires ListsOn(messages, steps, c)
    ensures ListsOn(if On(s) == c then Listed(messages, Adds(s)) else messages, steps + [s], c)
  {
    ListedHolds(messages, Adds(s));
    forall m ensures CarriedOn(steps + [s], c, m) <==> m in messages || (On(s) == c && Named(Adds(s), m)) {
      NextCarried(steps, s, c, m);
    }
  }

  lemma BindsNext(bindings: Bindings, steps: seq<Step>, s: Step, c: string)
    requires BindsOn(bindings, steps, c)
    ensures BindsOn(if On(s) == c then BindingsOn(s) + bindings else bindings, steps + [s], c)
  {
    var after := if On(s) == c then BindingsOn(s) + bindings else bindings;
    forall key ensures Binding(after, key) == First(BodiesOn(steps + [s], c, key)) {
      NextBodies(steps, s, c, key);
    }
  }

  lemma TellsFromNext(entry: Channel, first: Step, steps: seq<Step>, s: Step, c: string)
    requires TellsFrom(entry, first, steps, c)
    ensures TellsFrom(if On(s) == c then EntryAfter(entry, s) else entry, first, steps + [s], c)
  {
    NextOn(steps, s, c);
    ListsNext(entry.messages, steps, s, c);
    BindsNext(entry.bindings, steps, s, c);
  }

  lemma TellsNext(d: Draft, steps: seq<Step>, s: Step, c: string)
    requires Tells(d.channels, steps, c)
    ensures Tells(d.channels[On(s) := ChannelAfter(d, s)], steps + [s], c)
  {
    NextOn(steps, s, c);
    var first := First(StepsOn(steps, c));
    if c in d.channels {
      TellsFromNext(d.channels[c], first.value, steps, s, c);
    } else if On(s) == c {
      NothingOn(steps, s);
      TellsFromNext(Started(s), s, steps, s, c);
    }
  }

  lemma TellsStep(d: Draft, steps: seq<Step>, s: Step, c: string)
    requires Tells(d.channels, steps, c)
    ensures Tells(Applied(d, s).channels, steps + [s], c)
  {
    TellsNext(d, steps, s, c);
    StepIs(d, s);
  }

  lemma NothingTells(c: string)
    ensures Tells(EMPTY.channels, [], c)
  {
  }

  lemma ChannelsTell(steps: seq<Step>, c: string)
    ensures Tells(AllApplied(EMPTY, steps).channels, steps, c)
  {
    var tells := (d: Draft, done: seq<Step>) => Tells(d.channels, done, c);
    NothingTells(c);
    forall d, done, s | tells(d, done) ensures tells(Applied(d, s), done + [s]) {
      TellsStep(d, done, s, c);
    }
    FoldKeeps(Applied, EMPTY, steps, tells);
  }

  lemma FirstOnIs(steps: seq<Step>, c: string) returns (i: nat)
    requires First(StepsOn(steps, c)).Some?
    ensures i < |steps| && On(steps[i]) == c && First(StepsOn(steps, c)).value == steps[i]
    ensures forall j | 0 <= j < i :: On(steps[j]) != c
  {
    FirstIs(StepsOn(steps, c));
    i :| 0 <= i < |steps| && StepsOn(steps, c)[i] == First(StepsOn(steps, c))
         && forall j | 0 <= j < i :: StepsOn(steps, c)[j].None?;
    forall j | 0 <= j < i ensures On(steps[j]) != c {
      assert StepsOn(steps, c)[j].None?;
    }
  }

  // Addresses, by the handlers

  ghost predicate Subscribed(handlers: seq<Handler>, c: string)
  {
    exists i :: 0 <= i < |handlers| && handlers[i].name == c
  }

  lemma ReceivedJoined(first: seq<Step>, second: seq<Step>, c: string)
    ensures ReceivedOn(first + second, c) <==> ReceivedOn(first, c) || ReceivedOn(second, c)
  {
    assert forall i | 0 <= i < |first| :: (first + second)[i] == first[i];
    assert forall i | 0 <= i < |second| :: (first + second)[|first| + i] == second[i];
  }

  lemma StepsOfReceive(h: Handler, servers: map<string, Server>, c: string)
    ensures ReceivedOn(StepsOf(h, servers), c) <==> h.name == c
  {
    var env := EnvOf(h, servers);
    var opening := Opening(h, env);
    SendsInOrder(h, h.outgoing, env);
    ReceivedJoined(opening, Sends(h, h.outgoing, env), c);
    assert opening[|opening| - 1].Receiving? && On(opening[|opening| - 1]) == h.name;
    assert forall i | 0 <= i < |opening| - 1 :: opening[i].Answering?;
  }

  /** A channel is received on exactly when some handler, at any position, subscribes to it. */
  lemma {:induction false} ReceivedExactly(handlers: seq<Handler>, servers: map<string, Server>, c: string)
    ensures ReceivedOn(Traversal(handlers, servers), c) <==> Subscribed(handlers, c)
    decreases |handlers|
  {
    if handlers != [] {
      var n := |handlers| - 1;
      ReceivedExactly(handlers[..n], servers, c);
      StepsOfReceive(handlers[n], servers, c);
      ReceivedJoined(Traversal(handlers[..n], servers), StepsOf(handlers[n], servers), c);
      assert forall i | 0 <= i < n :: handlers[i] == handlers[..n][i];
    }
  }

  /** The outgoing entries that are no answers. */
  function Others(os: seq<OutgoingMeta>): seq<OutgoingMeta>
    decreases |os|
  {
    if os == [] then [] else Others(os[..|os| - 1]) + if os[|os| - 1].kind.Answer? then [] else [os[|os| - 1]]
  }

  /** The outgoing entries of a handler in the order they are added: the first answer comes first,
      and any further answer is not added. */
  function Outgoing(h: Handler): seq<OutgoingMeta>
  {
    var answer := FirstOf(h.outgoing, Answer);
    (if answer.Some? then [answer.value] else []) + Others(h.outgoing)
  }

  function AllOutgoing(handlers: seq<Handler>): seq<OutgoingMeta>
    decreases |handlers|
  {
    if handlers == [] then [] else AllOutgoing(handlers[..|handlers| - 1]) + Outgoing(handlers[|handlers| - 1])
  }

  /** The first of them to a channel. */
  function FirstTo(os: seq<OutgoingMeta>, c: string): Option<OutgoingMeta>
  {
    First(EntriesTo(os, c))
  }

  function EntriesTo(os: seq<OutgoingMeta>, c: string): seq<Option<OutgoingMeta>>
  {
    seq(|os|, i requires 0 <= i < |os| => if os[i].channel == c then Some(os[i]) else None)
  }

  function Entries(steps: seq<Step>): seq<OutgoingMeta>
    decreases |steps|
  {
    if steps == [] then []
    else Entries(steps[..|steps| - 1]) + if steps[|steps| - 1].Receiving? then [] else [steps[|steps| - 1].o]
  }

  lemma {:induction false} EntriesJoined(first: seq<Step>, second: seq<Step>)
    ensures Entries(first + second) == Entries(first) + Entries(second)
    decreases |second|
  {
    if second == [] {
      assert first + second == first;
    } else {
      EntriesJoined(first, second[..|second| - 1]);
      assert (first + second)[..|first + second| - 1] == first + second[..|second| - 1];
    }
  }

  lemma EntriesNext(steps: seq<Step>, s: Step)
    ensures Entries(steps + [s]) == Entries(steps) + if s.Receiving? then [] else [s.o]
  {
    assert (steps + [s])[..|steps|] == steps;
  }

  lemma {:induction false} SendsEntries(h: Handler, os: seq<OutgoingMeta>, env: Env)
    ensures Entries(Sends(h, os, env)) == Others(os)
    decreases |os|
  {
    if os != [] {
      var front, last := os[..|os| - 1], os[|os| - 1];
      SendsEntries(h, front, env);
      if last.kind.Answer? {
        assert Sends(h, os, env) == Sends(h, front, env);
      } else {
        EntriesNext(Sends(h, front, env), Sending(h, last, env));
      }
    }
  }

  lemma OpeningEntries(h: Handler, env: Env)
    ensures
      var answer := FirstOf(h.outgoing, Answer);
      Entries(Opening(h, env)) == if answer.Some? then [answer.value] else []
  {
    var answer := FirstOf(h.outgoing, Answer);
    if answer.Some? {
      EntriesNext([], Answering(answer.value, env));
      assert [] + [Answering(answer.value, env)] == [Answering(answer.value, env)];
      EntriesNext([Answering(answer.value, env)], Receiving(h, answer, env));
    } else {
      EntriesNext([], Receiving(h, answer, env));
    }
  }

  lemma {:induction false} TraversalEntries(handlers: seq<Handler>, servers: map<string, Server>)
    ensures Entries(Traversal(handlers, servers)) == AllOutgoing(handlers)
    decreases |handlers|
  {
    if handlers != [] {
      var front, h := handlers[..|handlers| - 1], handlers[|handlers| - 1];
      var env := EnvOf(h, servers);
      TraversalEntries(front, servers);
      OpeningEntries(h, env);
      SendsEntries(h, h.outgoing, env);
      EntriesJoined(Opening(h, env), Sends(h, h.outgoing, env));
      EntriesJoined(Traversal(front, servers), StepsOf(h, servers));
    }
  }

  /** The outgoing message of a step, on a channel nothing receives on. */
  function SentBy(s: Option<Step>): Option<OutgoingMeta>
  {
    if s.Some? && !s.value.Receiving? then Some(s.value.o) else None
  }

  lemma FirstToNext(os: seq<OutgoingMeta>, o: OutgoingMeta, c: string)
    ensures FirstTo(os + [o], c) == Either(FirstTo(os, c), if o.channel == c then Some(o) else None)
  {
    assert EntriesTo(os + [o], c) == EntriesTo(os, c) + [if o.channel == c then Some(o) else None];
    FirstNext(EntriesTo(os, c), if o.channel == c then Some(o) else None);
  }

  lemma {:induction false} FirstOnIsFirstTo(steps: seq<Step>, c: string)
    requires !ReceivedOn(steps, c)
    ensures First(StepsOn(steps, c)).Some? ==> !First(StepsOn(steps, c)).value.Receiving?
    ensures SentBy(First(StepsOn(steps, c))) == FirstTo(Entries(steps), c)
    decreases |steps|
  {
    if steps != [] {
      var front, last := steps[..|steps| - 1], steps[|steps| - 1];
      assert front + [last] == steps;
      NextOn(front, last, c);
      FirstOnIsFirstTo(front, c);
      if last.Receiving? {
        assert Entries(steps) == Entries(front);
      } else {
        FirstToNext(Entries(front), last.o, c);
      }
    }
  }

  /** The address of a channel, by whether it is subscribed to and the first entry added to it. */
  function AddressOf(c: string, subscribed: bool, first: Option<OutgoingMeta>): Option<string>
  {
    if !subscribed && first.Some? && first.value.replyAddress.Some? then None else Some(c)
  }

  /** There is a channel exactly where a handler subscribes or sends. Its address is its own name
      if any handler subscribes to it, at whatever position; otherwise it has none exactly when the
      first outgoing entry added to it has its destination named per delivery. */
  lemma DocumentAddresses(handlers: seq<Handler>, servers: map<string, Server>, c: string)
    ensures
      var channels := AllApplied(EMPTY, Traversal(handlers, servers)).channels;
      var first := FirstTo(AllOutgoing(handlers), c);
      && (c in channels <==> Subscribed(handlers, c) || first.Some?)
      && (c in channels ==> channels[c].address == AddressOf(c, Subscribed(handlers, c), first))
  {
    var steps := Traversal(handlers, servers);
    ChannelsTell(steps, c);
    ReceivedExactly(handlers, servers, c);
    TraversalEntries(handlers, servers);
    if Subscribed(handlers, c) {
      var i :| 0 <= i < |steps| && steps[i].Receiving? && On(steps[i]) == c;
      FirstPresent(StepsOn(steps, c), i);
    } else {
      FirstOnIsFirstTo(steps, c);
      if First(StepsOn(steps, c)).Some? {
        AddressOfFirst(steps, c);
      }
    }
    if FirstTo(AllOutgoing(handlers), c).Some? {
      SentIsOn(steps, c);
    }
  }

  lemma AddressOfFirst(steps: seq<Step>, c: string)
    requires First(StepsOn(steps, c)).Some?
    ensures On(First(StepsOn(steps, c)).value) == c
  {
    var i := FirstOnIs(steps, c);
  }

  lemma {:induction false} SentIsOn(steps: seq<Step>, c: string)
    requires FirstTo(Entries(steps), c).Some?
    ensures First(StepsOn(steps, c)).Some?
    decreases |steps|
  {
    if steps != [] {
      var front, last := steps[..|steps| - 1], steps[|steps| - 1];
      assert front + [last] == steps;
      NextOn(front, last, c);
      if last.Receiving? {
        assert Entries(steps) == Entries(front);
      } else {
        FirstToNext(Entries(front), last.o, c);
      }
      if FirstTo(Entries(front), c).Some? {
        SentIsOn(front, c);
      }
    }
  }

  // What every entry is there for

  /** The subscription that follows an answer's channel replies on it. */
  ghost predicate Answered(steps: seq<Step>)
  {
    forall i | 0 <= i < |steps| && steps[i].Answering? ::
      i + 1 < |steps| && steps[i + 1].Receiving? && steps[i + 1].answer == Some(steps[i].o)
  }

  lemma AnsweredThen(first: seq<Step>, second: seq<Step>)
    requires Answered(first) && Answered(second)
    ensures Answered(first + second)
  {
    assert forall i | 0 <= i < |second| :: (first + second)[|first| + i] == second[i];
  }

  lemma StepsOfAnswered(h: Handler, servers: map<string, Server>)
    ensures Answered(StepsOf(h, servers))
  {
    var env := EnvOf(h, servers);
    SendsInOrder(h, h.outgoing, env);
    assert Answered(Sends(h, h.outgoing, env));
    AnsweredThen(Opening(h, env), Sends(h, h.outgoing, env));
  }

  lemma {:induction false} TraversalAnswered(handlers: seq<Handler>, servers: map<string, Server>)
    ensures Answered(Traversal(handlers, servers))
    decreases |handlers|
  {
    if handlers != [] {
      var front, last := Traversal(handlers[..|handlers| - 1], servers), StepsOf(handlers[|handlers| - 1], servers);
      TraversalAnswered(handlers[..|handlers| - 1], servers);
      StepsOfAnswered(handlers[|handlers| - 1], servers);
      AnsweredThen(front, last);
    }
  }

  predicate PointsTo(op: Operation, c: string)
  {
    op.channel == ChannelRef(c) || (op.reply.Some? && op.reply.value.channel == ChannelRef(c))
  }

  ghost predicate Pointed(operations: map<string, Operation>, c: string)
  {
    exists id :: id in operations && PointsTo(operations[id], c)
  }

  lemma DeclaredIsPointed(steps: seq<Step>, i: nat, c: string)
    requires i < |steps| && OperationOf(steps[i]).Some? && PointsTo(OperationOf(steps[i]).value, c)
    ensures Pointed(AllApplied(EMPTY, steps).operations, c)
  {
    OneOperationEach(steps);
    var operations := AllApplied(EMPTY, steps).operations;
    assert HoldsAt(operations, Ids(steps)[i], Declares(steps)[i]);
    assert PointsTo(operations[Ids(steps)[i]], c);
  }

  lemma StepIsPointed(steps: seq<Step>, i: nat)
    requires i < |steps| && Answered(steps)
    ensures Pointed(AllApplied(EMPTY, steps).operations, On(steps[i]))
  {
    if steps[i].Answering? {
      DeclaredIsPointed(steps, i + 1, On(steps[i]));
    } else {
      DeclaredIsPointed(steps, i, On(steps[i]));
    }
  }

  /** Every channel is the channel of an operation or of a reply. */
  lemma ChannelIsPointed(steps: seq<Step>, c: string)
    requires Answered(steps) && c in AllApplied(EMPTY, steps).channels
    ensures Pointed(AllApplied(EMPTY, steps).operations, c)
  {
    ChannelsTell(steps, c);
    var i := FirstOnIs(steps, c);
    StepIsPointed(steps, i);
  }

  ghost predicate Carried(d: Draft, m: string)
  {
    exists c :: c in d.channels && m in d.channels[c].messages
  }

  ghost predicate AllCarried(d: Draft)
  {
    forall m | m in d.messages :: Carried(d, m)
  }

  lemma CarriedNext(d: Draft, s: Step, m: string)
    requires AllCarried(d) && m in Applied(d, s).messages
    ensures Carried(Applied(d, s), m)
  {
    StepIs(d, s);
    MergedHolds(d.messages, Adds(s));
    if m in d.messages {
      StepGrows(d, s);
      var c :| c in d.channels && m in d.channels[c].messages;
      assert c in Applied(d, s).channels;
    } else {
      ListedHolds((if On(s) in d.channels then d.channels[On(s)] else Started(s)).messages, Adds(s));
      assert m in Applied(d, s).channels[On(s)].messages;
    }
  }

  /** Every component is a message of some channel. */
  lemma {:induction false} MessagesAreCarried(steps: seq<Step>)
    ensures AllCarried(AllApplied(EMPTY, steps))
    decreases |steps|
  {
    if steps != [] {
      var d, last := AllApplied(EMPTY, steps[..|steps| - 1]), steps[|steps| - 1];
      MessagesAreCarried(steps[..|steps| - 1]);
      forall m | m in Applied(d, last).messages ensures Carried(Applied(d, last), m) {
        CarriedNext(d, last, m);
      }
    }
  }

  /** The first step on some channel names the server. */
  ghost predicate Referenced(steps: seq<Step>, server: string)
  {
    exists c :: First(StepsOn(steps, c)).Some? && ServerRef(server) in First(StepsOn(steps, c)).value.env.on
  }
}
