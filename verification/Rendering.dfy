/** The document as it is serialized (crates/asyncapi/src/spec.rs), and where the references
    written into it lead. */
module Rendering {
  import opened Prelude
  import opened JsonPointer
  import opened Messages
  import opened Servers
  import opened Document
  import opened Linking
  import opened Census

  // Serialization

  /** A field left out when there is nothing to say. */
  function Field(key: string, present: bool, value: Json): map<string, Json>
  {
    if present then map[key := value] else map[]
  }

  /** The fields of an object, in order; one with no value is left out. */
  function Fields(entries: seq<(string, Option<Json>)>): map<string, Json>
    decreases |entries|
  {
    if entries == [] then map[]
    else
      var (key, value) := entries[|entries| - 1];
      var before := Fields(entries[..|entries| - 1]);
      if value.Some? then before[key := value.value] else before
  }

  predicate DistinctKeys(entries: seq<(string, Option<Json>)>)
  {
    forall i, j | 0 <= i < j < |entries| :: entries[i].0 != entries[j].0
  }

  /** The object has the field with that value, or has it not. */
  predicate FieldIs(j: Json, key: string, value: Option<Json>)
  {
    j.Obj? && if value.Some? then key in j.fields && j.fields[key] == value.value else key !in j.fields
  }

  lemma {:induction false} FieldsAreNamed(entries: seq<(string, Option<Json>)>, key: string)
    requires key in Fields(entries)
    ensures exists i :: 0 <= i < |entries| && entries[i].0 == key
    decreases |entries|
  {
    var n := |entries| - 1;
    if key != entries[n].0 {
      FieldsAreNamed(entries[..n], key);
    }
  }

  lemma {:induction false} FieldHeld(entries: seq<(string, Option<Json>)>, i: nat)
    requires DistinctKeys(entries) && i < |entries|
    ensures FieldIs(Obj(Fields(entries)), entries[i].0, entries[i].1)
    decreases |entries|
  {
    var n := |entries| - 1;
    if i < n {
      FieldHeld(entries[..n], i);
    } else if entries[n].0 in Fields(entries[..n]) {
      FieldsAreNamed(entries[..n], entries[n].0);
    }
  }

  function Text(text: Option<string>): Option<Json>
  {
    if text.Some? then Some(Str(text.value)) else None
  }

  function Reference(target: string): Json { Obj(map["$ref" := Str(target)]) }

  function References(targets: seq<string>): Json
  {
    Arr(seq(|targets|, i requires 0 <= i < |targets| => Reference(targets[i])))
  }

  function Listing(targets: seq<string>): Option<Json>
  {
    if targets == [] then None else Some(References(targets))
  }

  function Bound(bindings: Bindings): Option<Json>
  {
    if bindings == map[] then None else Some(Obj(map key | key in bindings :: Str(bindings[key])))
  }

  function Parameters(names: set<string>): Option<Json>
  {
    if names == {} then None else Some(Obj(map p | p in names :: Obj(map[])))
  }

  function ServerEntries(server: Server): seq<(string, Option<Json>)>
  {
    [("protocol", Some(Str(server.protocol))), ("security", Listing(server.security))]
  }

  function RenderServer(server: Server): Json
  {
    Obj(Fields(ServerEntries(server)))
  }

  function RenderListed(messages: map<string, string>): Json
  {
    Obj(map m | m in messages :: Reference(messages[m]))
  }

  function ChannelEntries(channel: Channel): seq<(string, Option<Json>)>
  {
    [("address", Some(if channel.address.Some? then Str(channel.address.value) else Null)),
     ("messages", Some(RenderListed(channel.messages))), ("parameters", Parameters(channel.parameters)),
     ("servers", Listing(channel.servers)), ("bindings", Bound(channel.bindings))]
  }

  function RenderChannel(channel: Channel): Json
  {
    Obj(Fields(ChannelEntries(channel)))
  }

  function MessageEntries(m: MessageObject): seq<(string, Option<Json>)>
  {
    [("name", Some(Str(m.name))), ("title", Text(m.title)), ("description", Text(m.description)),
     ("contentType", Text(m.contentType)), ("payload", m.payload), ("headers", m.headers),
     ("bindings", Bound(m.bindings))]
  }

  function RenderMessage(m: MessageObject): Json
  {
    Obj(Fields(MessageEntries(m)))
  }

  // What the objects say

  /** A list of references, left out when there are none. */
  ghost predicate ListsReferences(j: Json, key: string, targets: seq<string>)
  {
    && j.Obj? && (key in j.fields <==> targets != [])
    && (key in j.fields ==>
          && j.fields[key].Arr? && |j.fields[key].items| == |targets|
          && forall i | 0 <= i < |targets| :: Refers(j.fields[key].items[i], targets[i]))
  }

  predicate Refers(j: Json, target: string)
  {
    j.Obj? && j.fields == map["$ref" := Str(target)]
  }

  /** The bindings, left out when there are none. */
  ghost predicate ShowsBindings(j: Json, bindings: Bindings)
  {
    && j.Obj? && ("bindings" in j.fields <==> bindings != map[])
    && ("bindings" in j.fields ==>
          && j.fields["bindings"].Obj? && j.fields["bindings"].fields.Keys == bindings.Keys
          && forall key | key in bindings :: j.fields["bindings"].fields[key] == Str(bindings[key]))
  }

  lemma ServerKeys(server: Server)
    ensures DistinctKeys(ServerEntries(server))
  {
    assert "protocol"[0] == 'p' && "security"[0] == 's';
  }

  lemma RenderedServer(server: Server)
    ensures FieldIs(RenderServer(server), "protocol", Some(Str(server.protocol)))
    ensures ListsReferences(RenderServer(server), "security", server.security)
  {
    ServerKeys(server);
    FieldHeld(ServerEntries(server), 0);
    FieldHeld(ServerEntries(server), 1);
  }

  lemma ChannelKeys(channel: Channel)
    ensures DistinctKeys(ChannelEntries(channel))
  {
    assert "address"[0] == 'a' && "messages"[0] == 'm' && "parameters"[0] == 'p' && "servers"[0] == 's'
           && "bindings"[0] == 'b';
  }

  /** A channel's address, null where it has none, its messages under their names and, where there are
      any, its parameters, servers and bindings. */
  lemma RenderedChannel(channel: Channel)
    ensures FieldIs(RenderChannel(channel), "address",
                    Some(if channel.address.Some? then Str(channel.address.value) else Null))
    ensures FieldIs(RenderChannel(channel), "messages", Some(RenderListed(channel.messages)))
    ensures RenderListed(channel.messages).fields.Keys == channel.messages.Keys
    ensures forall m | m in channel.messages :: Refers(RenderListed(channel.messages).fields[m], channel.messages[m])
    ensures "parameters" in RenderChannel(channel).fields <==> channel.parameters != {}
    ensures channel.parameters != {} ==>
      var parameters := RenderChannel(channel).fields["parameters"];
      parameters.Obj? && parameters.fields.Keys == channel.parameters
    ensures ListsReferences(RenderChannel(channel), "servers", channel.servers)
    ensures ShowsBindings(RenderChannel(channel), channel.bindings)
  {
    ChannelKeys(channel);
    FieldHeld(ChannelEntries(channel), 0);
    FieldHeld(ChannelEntries(channel), 1);
    FieldHeld(ChannelEntries(channel), 2);
    FieldHeld(ChannelEntries(channel), 3);
    FieldHeld(ChannelEntries(channel), 4);
  }

  lemma MessageKeys(m: MessageObject)
    ensures DistinctKeys(MessageEntries(m))
  {
    assert "name"[0] == 'n' && "title"[0] == 't' && "description"[0] == 'd' && "contentType"[0] == 'c'
           && "payload"[0] == 'p' && "headers"[0] == 'h' && "bindings"[0] == 'b';
  }

  /** A component's name and, where there are any, its other fields. */
  lemma RenderedMessage(m: MessageObject)
    ensures
      var j := RenderMessage(m);
      && FieldIs(j, "name", Some(Str(m.name)))
      && FieldIs(j, "title", if m.title.Some? then Some(Str(m.title.value)) else None)
      && FieldIs(j, "description", if m.description.Some? then Some(Str(m.description.value)) else None)
      && FieldIs(j, "contentType", if m.contentType.Some? then Some(Str(m.contentType.value)) else None)
      && FieldIs(j, "payload", m.payload) && FieldIs(j, "headers", m.headers) && ShowsBindings(j, m.bindings)
  {
    MessageKeys(m);
    FieldHeld(MessageEntries(m), 0);
    FieldHeld(MessageEntries(m), 1);
    FieldHeld(MessageEntries(m), 2);
    FieldHeld(MessageEntries(m), 3);
    FieldHeld(MessageEntries(m), 4);
    FieldHeld(MessageEntries(m), 5);
    FieldHeld(MessageEntries(m), 6);
  }

  function RenderServers(servers: map<string, Server>): map<string, Json>
  {
    map name | name in servers :: RenderServer(servers[name])
  }

  function RenderChannels(channels: map<string, Channel>): map<string, Json>
  {
    map c | c in channels :: RenderChannel(channels[c])
  }

  function RenderMessages(messages: Components): map<string, Json>
  {
    map m | m in messages :: RenderMessage(messages[m])
  }

  function RenderComponents(messages: Components, schemes: map<string, Json>): Json
  {
    Obj(Field("messages", messages != map[], Obj(RenderMessages(messages)))
        + Field("securitySchemes", schemes != map[], Obj(schemes)))
  }

  /** The document; `rest` is what no reference points into: its version, info and operations. */
  function RenderSpec(rest: map<string, Json>, d: Draft, servers: map<string, Server>, schemes: map<string, Json>): Json
  {
    Obj(rest
        + Field("servers", servers != map[], Obj(RenderServers(servers)))
        + Field("channels", d.channels != map[], Obj(RenderChannels(d.channels)))
        + map["components" := RenderComponents(d.messages, schemes)])
  }

  // Where references lead

  lemma PairDenotes(a: string, b: string)
    requires Plain(a)
    ensures Tokens("#/" + a + "/" + b) == Some([a, b]) <==> Plain(b)
  {
    SpelledTwo(a, b);
    SpelledDenotes([a, b]);
    assert "#/" + a + "/" + b == "#/" + (a + "/" + b);
    assert [a, b][0] == a && [a, b][1] == b;
  }

  lemma TripleDenotes(a: string, b: string, c: string)
    requires Plain(a) && Plain(b)
    ensures Tokens("#/" + a + "/" + b + "/" + c) == Some([a, b, c]) <==> Plain(c)
  {
    SpelledThree(a, b, c);
    SpelledDenotes([a, b, c]);
    assert "#/" + a + "/" + b + "/" + c == "#/" + (a + "/" + b + "/" + c);
    assert [a, b, c][0] == a && [a, b, c][1] == b && [a, b, c][2] == c;
  }

  lemma QuadrupleDenotes(a: string, b: string, c: string, d: string)
    requires Plain(a) && Plain(c)
    ensures Tokens("#/" + a + "/" + b + "/" + c + "/" + d) == Some([a, b, c, d]) <==> Plain(b) && Plain(d)
  {
    SpelledFour(a, b, c, d);
    SpelledDenotes([a, b, c, d]);
    assert "#/" + a + "/" + b + "/" + c + "/" + d == "#/" + (a + "/" + b + "/" + c + "/" + d);
    assert [a, b, c, d][0] == a && [a, b, c, d][1] == b && [a, b, c, d][2] == c && [a, b, c, d][3] == d;
  }

  // Each reference denotes the entry it was written for exactly when the names on it are plain.

  lemma ChannelRefDenotes(c: string)
    ensures Tokens(ChannelRef(c)) == Some(["channels", c]) <==> Plain(c)
  {
    PairDenotes("channels", c);
  }

  lemma ServerRefDenotes(name: string)
    ensures Tokens(ServerRef(name)) == Some(["servers", name]) <==> Plain(name)
  {
    PairDenotes("servers", name);
  }

  lemma ComponentRefDenotes(m: string)
    ensures Tokens(ComponentRef(m)) == Some(["components", "messages", m]) <==> Plain(m)
  {
    TripleDenotes("components", "messages", m);
  }

  lemma SchemeRefDenotes(key: string)
    ensures Tokens(SchemeRef(key)) == Some(["components", "securitySchemes", key]) <==> Plain(key)
  {
    TripleDenotes("components", "securitySchemes", key);
  }

  lemma ChannelMessageRefDenotes(c: string, m: string)
    ensures Tokens(ChannelMessageRef(c, m)) == Some(["channels", c, "messages", m]) <==> Plain(c) && Plain(m)
  {
    QuadrupleDenotes("channels", c, "messages", m);
  }

  lemma EvalDeeper(j: Json, a: string, path: seq<string>)
    requires j.Obj? && a in j.fields
    ensures Eval(j, [a] + path) == Eval(j.fields[a], path)
  {
    assert ([a] + path)[1..] == path;
  }

  predicate Leads(j: Json, a: string, k: Json)
  {
    j.Obj? && a in j.fields && j.fields[a] == k
  }

  lemma EvalTwo(j: Json, a: string, k: Json, b: string, l: Json)
    requires Leads(j, a, k) && Leads(k, b, l)
    ensures Eval(j, [a, b]) == Some(l)
  {
    EvalDeeper(j, a, [b]);
    EvalDeeper(k, b, []);
    assert [a, b] == [a] + [b] && [b] == [b] + [];
  }

  lemma EvalThree(j: Json, a: string, k: Json, b: string, l: Json, c: string, m: Json)
    requires Leads(j, a, k) && Leads(k, b, l) && Leads(l, c, m)
    ensures Eval(j, [a, b, c]) == Some(m)
  {
    EvalDeeper(j, a, [b, c]);
    EvalTwo(k, b, l, c, m);
    assert [a, b, c] == [a] + [b, c];
  }

  lemma EvalFour(j: Json, a: string, k: Json, b: string, l: Json, c: string, m: Json, d: string, n: Json)
    requires Leads(j, a, k) && Leads(k, b, l) && Leads(l, c, m) && Leads(m, d, n)
    ensures Eval(j, [a, b, c, d]) == Some(n)
  {
    EvalDeeper(j, a, [b, c, d]);
    EvalThree(k, b, l, c, m, d, n);
    assert [a, b, c, d] == [a] + [b, c, d];
  }

  lemma SectionsKept(rest: map<string, Json>, a: string, withA: bool, j: Json, b: string, withB: bool, k: Json,
                     c: string, l: Json)
    requires a != b && a != c && b != c
    ensures
      var fields := rest + Field(a, withA, j) + Field(b, withB, k) + map[c := l];
      (withA ==> a in fields && fields[a] == j) && (withB ==> b in fields && fields[b] == k)
  {
  }

  /** What a document is rendered from. */
  datatype Parts = Parts(rest: map<string, Json>, d: Draft, servers: map<string, Server>, schemes: map<string, Json>) {
    function Spec(): Json
    {
      RenderSpec(rest, d, servers, schemes)
    }

    lemma Sections()
      ensures servers != map[] ==> Leads(Spec(), "servers", Obj(RenderServers(servers)))
      ensures d.channels != map[] ==> Leads(Spec(), "channels", Obj(RenderChannels(d.channels)))
    {
      assert |"servers"| == 7 && |"channels"| == 8 && |"components"| == 10;
      SectionsKept(rest, "servers", servers != map[], Obj(RenderServers(servers)),
              "channels", d.channels != map[], Obj(RenderChannels(d.channels)),
              "components", RenderComponents(d.messages, schemes));
    }

    lemma MessagesSection()
      ensures d.messages != map[] ==>
        Leads(RenderComponents(d.messages, schemes), "messages", Obj(RenderMessages(d.messages)))
    {
      assert |"messages"| == 8 && |"securitySchemes"| == 15;
    }

    lemma ChannelResolves(c: string)
      requires c in d.channels && Plain(c)
      ensures Resolve(Spec(), ChannelRef(c)) == Some(RenderChannel(d.channels[c]))
    {
      ChannelRefDenotes(c);
      Sections();
      EvalTwo(Spec(), "channels", Obj(RenderChannels(d.channels)), c, RenderChannel(d.channels[c]));
    }

    lemma ServerResolves(s: string)
      requires s in servers && Plain(s)
      ensures Resolve(Spec(), ServerRef(s)) == Some(RenderServer(servers[s]))
    {
      ServerRefDenotes(s);
      Sections();
      EvalTwo(Spec(), "servers", Obj(RenderServers(servers)), s, RenderServer(servers[s]));
    }

    lemma ListedResolves(c: string, m: string)
      requires c in d.channels && m in d.channels[c].messages && Plain(c) && Plain(m)
      ensures Resolve(Spec(), ChannelMessageRef(c, m)) == Some(Reference(d.channels[c].messages[m]))
    {
      ChannelMessageRefDenotes(c, m);
      Sections();
      var channel := d.channels[c];
      RenderedChannel(channel);
      EvalFour(Spec(), "channels", Obj(RenderChannels(d.channels)), c, RenderChannel(channel),
               "messages", RenderListed(channel.messages), m, Reference(channel.messages[m]));
    }

    lemma ComponentResolves(m: string)
      requires m in d.messages && Plain(m)
      ensures Resolve(Spec(), ComponentRef(m)) == Some(RenderMessage(d.messages[m]))
    {
      ComponentRefDenotes(m);
      MessagesSection();
      EvalThree(Spec(), "components", RenderComponents(d.messages, schemes),
                "messages", Obj(RenderMessages(d.messages)), m, RenderMessage(d.messages[m]));
    }

    lemma SchemeResolves(key: string)
      requires key in schemes && Plain(key)
      ensures Resolve(Spec(), SchemeRef(key)) == Some(schemes[key])
    {
      SchemeRefDenotes(key);
      EvalThree(Spec(), "components", RenderComponents(d.messages, schemes), "securitySchemes", Obj(schemes),
                key, schemes[key]);
    }

    // Denotation of what is written

    ghost predicate MessageDenotes(c: string, reference: string)
      requires c in d.channels
    {
      exists m :: m in d.channels[c].messages && reference == ChannelMessageRef(c, m)
                  && Tokens(reference) == Some(["channels", c, "messages", m])
    }

    ghost predicate DenotesAt(c: string, channel: string, messages: seq<string>)
    {
      && c in d.channels && channel == ChannelRef(c) && Tokens(channel) == Some(["channels", c])
      && forall i | 0 <= i < |messages| :: MessageDenotes(c, messages[i])
    }

    /** A channel reference denotes its channel, and the message references with it messages of
        that very channel. */
    ghost predicate PointDenotes(channel: string, messages: seq<string>)
    {
      exists c :: DenotesAt(c, channel, messages)
    }

    ghost predicate OperationDenotes(op: Operation)
    {
      && PointDenotes(op.channel, op.messages)
      && (op.reply.Some? ==> PointDenotes(op.reply.value.channel, op.reply.value.messages))
    }

    ghost predicate ServerDenotes(reference: string)
    {
      exists s :: s in servers && reference == ServerRef(s) && Tokens(reference) == Some(["servers", s])
    }

    ghost predicate ChannelDenotes(channel: Channel)
    {
      && (forall m | m in channel.messages :: Tokens(channel.messages[m]) == Some(["components", "messages", m]))
      && (forall i | 0 <= i < |channel.servers| :: ServerDenotes(channel.servers[i]))
    }

    ghost predicate SchemeDenotes(reference: string)
    {
      exists key :: key in schemes && reference == SchemeRef(key)
                    && Tokens(reference) == Some(["components", "securitySchemes", key])
    }

    ghost predicate SecurityDenotes(server: Server)
    {
      forall i | 0 <= i < |server.security| :: SchemeDenotes(server.security[i])
    }

    /** Every reference the document holds denotes the entry it was written for: those of its
        operations and replies, its channels' messages and servers, its servers' security. */
    ghost predicate Denotes()
    {
      && (forall id | id in d.operations :: OperationDenotes(d.operations[id]))
      && (forall c | c in d.channels :: ChannelDenotes(d.channels[c]))
      && (forall s | s in servers :: SecurityDenotes(servers[s]))
    }

    ghost predicate PlainServer(reference: string)
    {
      exists s :: s in servers && reference == ServerRef(s) && Plain(s)
    }

    ghost predicate OnPlain(channel: Channel)
    {
      forall i | 0 <= i < |channel.servers| :: PlainServer(channel.servers[i])
    }

    /** The names behind those references are plain. */
    ghost predicate PlainNames()
    {
      && PlainDraft(d) && (forall c | c in d.channels :: OnPlain(d.channels[c]))
      && (forall s | s in servers && servers[s].security != [] :: Plain(s))
    }

    // From plain names to denotation

    lemma PointedDenotes(channel: string, messages: seq<string>)
      requires Linked(d, servers.Keys) && PlainDraft(d) && Points(d, channel, messages)
      ensures PointDenotes(channel, messages)
    {
      var c :| PointsAt(d, c, channel, messages);
      ChannelRefDenotes(c);
      forall i | 0 <= i < |messages| ensures MessageDenotes(c, messages[i]) {
        assert ListedAs(d.channels[c], c, messages[i]);
        var m :| m in d.channels[c].messages && messages[i] == ChannelMessageRef(c, m);
        assert ChannelLinked(d.channels[c], d.messages.Keys, servers.Keys);
        ChannelMessageRefDenotes(c, m);
      }
      assert DenotesAt(c, channel, messages);
    }

    lemma PlainOperationDenotes(op: Operation)
      requires Linked(d, servers.Keys) && PlainDraft(d) && OperationLinked(d, op)
      ensures OperationDenotes(op)
    {
      PointedDenotes(op.channel, op.messages);
      if op.reply.Some? {
        PointedDenotes(op.reply.value.channel, op.reply.value.messages);
      }
    }

    lemma PlainChannelDenotes(channel: Channel)
      requires PlainDraft(d) && OnPlain(channel) && ChannelLinked(channel, d.messages.Keys, servers.Keys)
      ensures ChannelDenotes(channel)
    {
      forall m | m in channel.messages ensures Tokens(channel.messages[m]) == Some(["components", "messages", m]) {
        ComponentRefDenotes(m);
      }
      forall i | 0 <= i < |channel.servers| ensures ServerDenotes(channel.servers[i]) {
        assert PlainServer(channel.servers[i]);
        var s :| s in servers && channel.servers[i] == ServerRef(s) && Plain(s);
        ServerRefDenotes(s);
      }
    }

    lemma PlainSecurityDenotes(declared: seq<Declared>, name: string)
      requires Built(declared, servers, schemes) && name in servers && (servers[name].security != [] ==> Plain(name))
      ensures SecurityDenotes(servers[name])
    {
      assert DeclaredAs(declared, name);
      var a: nat :| a < |declared| && declared[a].name == name;
      assert Renders(servers[name], declared[a]);
      forall i | 0 <= i < |servers[name].security| ensures SchemeDenotes(servers[name].security[i]) {
        assert Holds(declared, a, i);
        PlainKey(name, i);
        SchemeRefDenotes(Key(name, i));
        assert Key(name, i) in schemes;
      }
    }

    lemma PlainDenotes(declared: seq<Declared>)
      requires Linked(d, servers.Keys) && Built(declared, servers, schemes) && PlainNames()
      ensures Denotes()
    {
      forall id | id in d.operations ensures OperationDenotes(d.operations[id]) {
        PlainOperationDenotes(d.operations[id]);
      }
      forall c | c in d.channels ensures ChannelDenotes(d.channels[c]) {
        PlainChannelDenotes(d.channels[c]);
      }
      forall s | s in servers ensures SecurityDenotes(servers[s]) {
        PlainSecurityDenotes(declared, s);
      }
    }

    // From denotation to plain names

    lemma DenotedIsPlain(c: string, messages: seq<string>)
      requires PointDenotes(ChannelRef(c), messages)
      ensures Plain(c)
    {
      var k :| DenotesAt(k, ChannelRef(c), messages);
      AfterPrefix("#/" + "channels" + "/", c, k);
      ChannelRefDenotes(c);
    }

    lemma PointedIsPlain(c: string)
      requires Denotes() && Pointed(d.operations, c)
      ensures Plain(c)
    {
      var id :| id in d.operations && PointsTo(d.operations[id], c);
      var op := d.operations[id];
      assert OperationDenotes(op);
      if op.channel == ChannelRef(c) {
        DenotedIsPlain(c, op.messages);
      } else {
        DenotedIsPlain(c, op.reply.value.messages);
      }
    }

    lemma CarriedIsPlain(m: string)
      requires Linked(d, servers.Keys) && Denotes() && Carried(d, m)
      ensures Plain(m)
    {
      var c :| c in d.channels && m in d.channels[c].messages;
      assert ChannelDenotes(d.channels[c]) && ChannelLinked(d.channels[c], d.messages.Keys, servers.Keys);
      ComponentRefDenotes(m);
    }

    lemma DenotedOnPlain(channel: Channel)
      requires ChannelDenotes(channel)
      ensures OnPlain(channel)
    {
      forall i | 0 <= i < |channel.servers| ensures PlainServer(channel.servers[i]) {
        assert ServerDenotes(channel.servers[i]);
        var s :| s in servers && channel.servers[i] == ServerRef(s)
          && Tokens(channel.servers[i]) == Some(["servers", s]);
        ServerRefDenotes(s);
      }
    }

    lemma DenotedSecurityIsPlain(declared: seq<Declared>, name: string)
      requires Built(declared, servers, schemes) && name in servers && servers[name].security != []
      requires SecurityDenotes(servers[name])
      ensures Plain(name)
    {
      assert DeclaredAs(declared, name);
      var a: nat :| a < |declared| && declared[a].name == name;
      assert Renders(servers[name], declared[a]);
      assert SchemeDenotes(servers[name].security[0]);
      var key :| key in schemes && SchemeRef(name) == SchemeRef(key)
                 && Tokens(SchemeRef(name)) == Some(["components", "securitySchemes", key]);
      AfterPrefix("#/" + "components" + "/" + "securitySchemes" + "/", name, key);
      SchemeRefDenotes(name);
    }

    lemma DenotesPlainChannels()
      requires Denotes() && forall c | c in d.channels :: Pointed(d.operations, c)
      ensures forall c | c in d.channels :: Plain(c)
    {
      forall c | c in d.channels ensures Plain(c) {
        PointedIsPlain(c);
      }
    }

    lemma DenotesPlainMessages()
      requires Linked(d, servers.Keys) && Denotes() && AllCarried(d)
      ensures PlainMessages(d.messages)
    {
      forall m | m in d.messages ensures Plain(m) {
        CarriedIsPlain(m);
      }
    }

    lemma DenotesOnPlain()
      requires Denotes()
      ensures forall c | c in d.channels :: OnPlain(d.channels[c])
    {
      forall c | c in d.channels ensures OnPlain(d.channels[c]) {
        DenotedOnPlain(d.channels[c]);
      }
    }

    lemma DenotesPlainSecurity(declared: seq<Declared>)
      requires Built(declared, servers, schemes) && Denotes()
      ensures forall s | s in servers && servers[s].security != [] :: Plain(s)
    {
      forall s | s in servers && servers[s].security != [] ensures Plain(s) {
        DenotedSecurityIsPlain(declared, s);
      }
    }

    lemma DenotesPlain(declared: seq<Declared>)
      requires Linked(d, servers.Keys) && Built(declared, servers, schemes) && Denotes()
      requires AllCarried(d) && forall c | c in d.channels :: Pointed(d.operations, c)
      ensures PlainNames()
    {
      DenotesPlainChannels();
      DenotesPlainMessages();
      DenotesOnPlain();
      DenotesPlainSecurity(declared);
    }

    // Where they lead

    /** A message reference leads to the channel's entry, and that one to the component. */
    ghost predicate ReachesMessage(reference: string)
    {
      exists m :: m in d.messages && Resolve(Spec(), reference) == Some(Reference(ComponentRef(m)))
                  && Resolve(Spec(), ComponentRef(m)) == Some(RenderMessage(d.messages[m]))
    }

    ghost predicate ReachesChannel(c: string, channel: string, messages: seq<string>)
    {
      && c in d.channels && channel == ChannelRef(c) && Resolve(Spec(), channel) == Some(RenderChannel(d.channels[c]))
      && forall i | 0 <= i < |messages| :: ReachesMessage(messages[i])
    }

    ghost predicate Reaches(channel: string, messages: seq<string>)
    {
      exists c :: ReachesChannel(c, channel, messages)
    }

    ghost predicate ReachesServer(reference: string)
    {
      exists s :: s in servers && reference == ServerRef(s)
        && Resolve(Spec(), reference) == Some(RenderServer(servers[s]))
    }

    lemma MessageReached(c: string, m: string)
      requires Linked(d, servers.Keys) && PlainDraft(d) && c in d.channels && m in d.channels[c].messages
      ensures ReachesMessage(ChannelMessageRef(c, m))
    {
      assert ChannelLinked(d.channels[c], d.messages.Keys, servers.Keys);
      ListedResolves(c, m);
      ComponentResolves(m);
    }

    lemma PointedReached(channel: string, messages: seq<string>)
      requires Linked(d, servers.Keys) && PlainDraft(d) && Points(d, channel, messages)
      ensures Reaches(channel, messages)
    {
      var c :| PointsAt(d, c, channel, messages);
      ChannelResolves(c);
      forall i | 0 <= i < |messages| ensures ReachesMessage(messages[i]) {
        assert ListedAs(d.channels[c], c, messages[i]);
        var m :| m in d.channels[c].messages && messages[i] == ChannelMessageRef(c, m);
        MessageReached(c, m);
      }
      assert ReachesChannel(c, channel, messages);
    }

    ghost predicate OperationReaches(op: Operation)
    {
      Reaches(op.channel, op.messages) && (op.reply.Some? ==> Reaches(op.reply.value.channel, op.reply.value.messages))
    }

    ghost predicate ChannelReaches(channel: Channel)
    {
      && (forall m | m in channel.messages ::
            m in d.messages && Resolve(Spec(), channel.messages[m]) == Some(RenderMessage(d.messages[m])))
      && (forall i | 0 <= i < |channel.servers| :: ReachesServer(channel.servers[i]))
    }

    /** A server's security references lead each to a scheme of the document, the very one declared
        there where keys are distinct. */
    ghost predicate SecurityReaches(declared: seq<Declared>, a: nat)
      requires a < |declared|
    {
      && declared[a].name in servers && |servers[declared[a].name].security| == |declared[a].schemes|
      && forall i | 0 <= i < |declared[a].schemes| ::
        SchemeReached(declared, a, i, servers[declared[a].name].security[i])
    }

    ghost predicate SchemeReached(declared: seq<Declared>, a: nat, i: nat, reference: string)
      requires Holds(declared, a, i)
    {
      && Key(declared[a].name, i) in schemes
      && Resolve(Spec(), reference) == Some(schemes[Key(declared[a].name, i)])
      && (NoNameClash(declared) ==> Resolve(Spec(), reference) == Some(declared[a].schemes[i]))
    }

    lemma OperationsReach(op: Operation)
      requires Linked(d, servers.Keys) && PlainDraft(d) && OperationLinked(d, op)
      ensures OperationReaches(op)
    {
      PointedReached(op.channel, op.messages);
      if op.reply.Some? {
        PointedReached(op.reply.value.channel, op.reply.value.messages);
      }
    }

    lemma ChannelsReach(channel: Channel)
      requires PlainDraft(d) && OnPlain(channel) && ChannelLinked(channel, d.messages.Keys, servers.Keys)
      ensures ChannelReaches(channel)
    {
      forall m | m in channel.messages
        ensures m in d.messages && Resolve(Spec(), channel.messages[m]) == Some(RenderMessage(d.messages[m]))
      {
        ComponentResolves(m);
      }
      forall i | 0 <= i < |channel.servers| ensures ReachesServer(channel.servers[i]) {
        assert PlainServer(channel.servers[i]);
        var s :| s in servers && channel.servers[i] == ServerRef(s) && Plain(s);
        ServerResolves(s);
      }
    }

    lemma SecurityIsReached(declared: seq<Declared>, a: nat)
      requires Built(declared, servers, schemes) && a < |declared|
      requires declared[a].schemes != [] ==> Plain(declared[a].name)
      ensures SecurityReaches(declared, a)
    {
      KeysDistinctExactly(declared);
      var name := declared[a].name;
      assert Renders(servers[name], declared[a]);
      forall i | 0 <= i < |declared[a].schemes| ensures SchemeReached(declared, a, i, servers[name].security[i]) {
        assert Holds(declared, a, i);
        PlainKey(name, i);
        SchemeResolves(Key(name, i));
      }
    }
  }

  lemma AfterPrefix(prefix: string, a: string, b: string)
    requires prefix + a == prefix + b
    ensures a == b
  {
    assert (prefix + a)[|prefix|..] == a && (prefix + b)[|prefix|..] == b;
  }

  /** A scheme's key is as plain as the server's name. */
  lemma PlainKey(name: string, i: nat)
    ensures Plain(Key(name, i)) <==> Plain(name)
  {
    assert forall k | 0 <= k < |Dec(i)| :: IsDigit(Dec(i)[k]);
  }

  // A generated document

  /** `build_spec`: the servers, then every handler, then the media type the messages agree on. */
  method BuildSpec(declared: seq<Declared>, handlers: seq<Handler>)
    returns (d: Draft, servers: map<string, Server>, schemes: map<string, Json>, agreed: Option<string>)
    requires DistinctNames(declared)
    ensures Built(declared, servers, schemes)
    ensures d == AllApplied(EMPTY, Traversal(handlers, servers))
    ensures Linked(d, servers.Keys) && |d.operations| == Registered(handlers)
    ensures agreed.Some? ==> d.messages != map[] && forall n | n in d.messages :: d.messages[n].contentType == agreed
    ensures agreed.None? ==>
      d.messages == map[] || forall t :: exists n :: n in d.messages && d.messages[n].contentType != Some(t)
  {
    servers, schemes := BuildServers(declared);
    var builder := new Builder();
    builder.Build(handlers, servers);
    d := Draft(builder.channels, builder.operations, builder.messages);
    DocumentIsLinked(handlers, servers);
    DocumentOperations(handlers, servers);
    agreed := AgreedContentType(builder.messages);
  }

  predicate PlainStep(s: Step)
  {
    Plain(On(s)) && PlainContributions(Adds(s))
  }

  /** The channels and messages the registrations name are plain. */
  predicate PlainSteps(steps: seq<Step>)
  {
    forall i | 0 <= i < |steps| :: PlainStep(steps[i])
  }

  /** ... and so is the name of every server that declares a scheme or that the first step on a
      channel names. */
  ghost predicate PlainServers(declared: seq<Declared>, steps: seq<Step>)
  {
    forall a | 0 <= a < |declared| && (declared[a].schemes != [] || Referenced(steps, declared[a].name)) ::
      Plain(declared[a].name)
  }

  ghost predicate PlainDraft(d: Draft)
  {
    (forall c | c in d.channels :: Plain(c)) && PlainMessages(d.messages)
  }

  ghost predicate PlainMessages(messages: Components)
  {
    forall m | m in messages :: Plain(m)
  }

  predicate PlainContributions(cs: seq<Contribution>)
  {
    forall k | 0 <= k < |cs| :: Plain(cs[k].name)
  }

  lemma PlainMerged(messages: Components, cs: seq<Contribution>)
    ensures PlainMessages(MergedAll(messages, cs)) <==> PlainMessages(messages) && PlainContributions(cs)
  {
    MergedHolds(messages, cs);
    if PlainMessages(MergedAll(messages, cs)) {
      forall k | 0 <= k < |cs| ensures Plain(cs[k].name) {
        assert Named(cs, cs[k].name);
      }
    }
  }

  lemma PlainNext(d: Draft, s: Step)
    ensures PlainDraft(Applied(d, s)) <==> PlainDraft(d) && PlainStep(s)
  {
    PlainMerged(d.messages, Adds(s));
    StepIs(d, s);
    assert On(s) in Applied(d, s).channels;
  }

  lemma PlainStepsNext(steps: seq<Step>)
    requires steps != []
    ensures PlainSteps(steps) <==> PlainSteps(steps[..|steps| - 1]) && PlainStep(steps[|steps| - 1])
  {
    assert forall i | 0 <= i < |steps| - 1 :: steps[i] == steps[..|steps| - 1][i];
  }

  /** The names of a document are those its steps name. */
  lemma {:induction false} PlainStepsExactly(steps: seq<Step>)
    ensures PlainSteps(steps) <==> PlainDraft(AllApplied(EMPTY, steps))
    decreases |steps|
  {
    if steps != [] {
      var front, last := steps[..|steps| - 1], steps[|steps| - 1];
      PlainStepsExactly(front);
      PlainNext(AllApplied(EMPTY, front), last);
      PlainStepsNext(steps);
    }
  }

  /** Channels are on plain servers where the servers the first steps name are plain. */
  lemma ChannelOnPlain(parts: Parts, steps: seq<Step>, declared: seq<Declared>, c: string)
    requires Linked(parts.d, parts.servers.Keys) && Built(declared, parts.servers, parts.schemes)
    requires c in parts.d.channels
    requires Tells(parts.d.channels, steps, c) && PlainServers(declared, steps)
    ensures parts.OnPlain(parts.d.channels[c])
  {
    var references := parts.d.channels[c].servers;
    assert ChannelLinked(parts.d.channels[c], parts.d.messages.Keys, parts.servers.Keys);
    forall i | 0 <= i < |references| ensures parts.PlainServer(references[i]) {
      assert NamesServer(references[i], parts.servers.Keys);
      var s :| s in parts.servers.Keys && references[i] == ServerRef(s);
      assert DeclaredAs(declared, s);
      assert references[i] in First(StepsOn(steps, c)).value.env.on;
      assert Referenced(steps, s);
    }
  }

  lemma ReferencedIsPlain(parts: Parts, steps: seq<Step>, name: string)
    requires (forall c :: Tells(parts.d.channels, steps, c)) && Referenced(steps, name)
    requires forall c | c in parts.d.channels :: parts.OnPlain(parts.d.channels[c])
    ensures Plain(name)
  {
    var c :| First(StepsOn(steps, c)).Some? && ServerRef(name) in First(StepsOn(steps, c)).value.env.on;
    assert Tells(parts.d.channels, steps, c);
    var references := parts.d.channels[c].servers;
    var i :| 0 <= i < |references| && references[i] == ServerRef(name);
    assert parts.OnPlain(parts.d.channels[c]) && parts.PlainServer(references[i]);
    var s :| s in parts.servers && references[i] == ServerRef(s) && Plain(s);
    AfterPrefix("#/" + "servers" + "/", name, s);
  }

  /** The names behind the references of a document are those its registrations give. */
  lemma PlainNamesExactly(parts: Parts, steps: seq<Step>, declared: seq<Declared>)
    requires parts.d == AllApplied(EMPTY, steps) && Linked(parts.d, parts.servers.Keys)
    requires Built(declared, parts.servers, parts.schemes)
    ensures parts.PlainNames() <==> PlainSteps(steps) && PlainServers(declared, steps)
  {
    PlainStepsExactly(steps);
    forall c ensures Tells(parts.d.channels, steps, c) {
      ChannelsTell(steps, c);
    }
    if parts.PlainNames() {
      forall a | 0 <= a < |declared| && (declared[a].schemes != [] || Referenced(steps, declared[a].name))
        ensures Plain(declared[a].name)
      {
        assert Renders(parts.servers[declared[a].name], declared[a]);
        if declared[a].schemes == [] {
          ReferencedIsPlain(parts, steps, declared[a].name);
        }
      }
    }
    if PlainServers(declared, steps) {
      forall c | c in parts.d.channels ensures parts.OnPlain(parts.d.channels[c]) {
        ChannelOnPlain(parts, steps, declared, c);
      }
      forall s | s in parts.servers && parts.servers[s].security != [] ensures Plain(s) {
        assert DeclaredAs(declared, s);
        var a :| 0 <= a < |declared| && declared[a].name == s;
        assert Renders(parts.servers[s], declared[a]);
      }
    }
  }

  /** The references a generated document holds all denote the entries they were written for
      exactly when the names they are made of are plain: of every channel and message, and of
      every server that declares a scheme or is named by the first step on some channel. */
  lemma DocumentDenotesExactly(rest: map<string, Json>, declared: seq<Declared>, handlers: seq<Handler>,
                               servers: map<string, Server>, schemes: map<string, Json>)
    requires Built(declared, servers, schemes)
    ensures
      var steps := Traversal(handlers, servers);
      Parts(rest, AllApplied(EMPTY, steps), servers, schemes).Denotes() <==>
        PlainSteps(steps) && PlainServers(declared, steps)
  {
    var steps := Traversal(handlers, servers);
    var parts := Parts(rest, AllApplied(EMPTY, steps), servers, schemes);
    DocumentIsLinked(handlers, servers);
    PlainNamesExactly(parts, steps, declared);
    if parts.PlainNames() {
      parts.PlainDenotes(declared);
    }
    if parts.Denotes() {
      TraversalAnswered(handlers, servers);
      MessagesAreCarried(steps);
      forall c | c in parts.d.channels ensures Pointed(parts.d.operations, c) {
        ChannelIsPointed(steps, c);
      }
      parts.DenotesPlain(declared);
    }
  }

  /** From plain names every reference of the document leads to the rendered entry: those of
      operations, replies, channels and servers. */
  lemma DocumentResolves(rest: map<string, Json>, declared: seq<Declared>, handlers: seq<Handler>,
                         servers: map<string, Server>, schemes: map<string, Json>)
    requires Built(declared, servers, schemes)
    requires PlainSteps(Traversal(handlers, servers)) && PlainServers(declared, Traversal(handlers, servers))
    ensures
      var parts := Parts(rest, AllApplied(EMPTY, Traversal(handlers, servers)), servers, schemes);
      && (forall id | id in parts.d.operations :: parts.OperationReaches(parts.d.operations[id]))
      && (forall c | c in parts.d.channels :: parts.ChannelReaches(parts.d.channels[c]))
      && (forall a | 0 <= a < |declared| :: parts.SecurityReaches(declared, a))
  {
    var steps := Traversal(handlers, servers);
    var parts := Parts(rest, AllApplied(EMPTY, steps), servers, schemes);
    DocumentIsLinked(handlers, servers);
    PlainNamesExactly(parts, steps, declared);
    forall id | id in parts.d.operations ensures parts.OperationReaches(parts.d.operations[id]) {
      parts.OperationsReach(parts.d.operations[id]);
    }
    forall c | c in parts.d.channels ensures parts.ChannelReaches(parts.d.channels[c]) {
      parts.ChannelsReach(parts.d.channels[c]);
    }
    forall a | 0 <= a < |declared| ensures parts.SecurityReaches(declared, a) {
      parts.SecurityIsReached(declared, a);
    }
  }

  lemma LoneHandler(h: Handler)
    requires h.outgoing == []
    ensures AllApplied(EMPTY, Traversal([h], map[])) == Applied(EMPTY, Receiving(h, None, Env([], [])))
  {
    var s := Receiving(h, None, Env([], []));
    assert Traversal([h], map[]) == [s] by {
      assert [h][..0] == [] && FirstOf([], Answer).None? && EnvOf(h, map[]) == Env([], []);
      assert Opening(h, Env([], [])) == [s] && Sends(h, [], Env([], [])) == [];
    }
    AppliedNext(EMPTY, [], s);
    assert [] + [s] == [s];
  }

  lemma LoneDocument(h: Handler)
    requires h.outgoing == []
    ensures
      var d := AllApplied(EMPTY, Traversal([h], map[]));
      && d.channels.Keys == {h.name} && |d.operations| == 1
      && forall id | id in d.operations :: d.operations[id].channel == ChannelRef(h.name)
  {
    LoneHandler(h);
    StepIs(EMPTY, Receiving(h, None, Env([], [])));
  }

  /** A subscription whose name holds a slash: its operation's channel reference leads nowhere. */
  lemma SlashedChannel(rest: map<string, Json>, h: Handler)
    requires h.name == "a/b" && h.outgoing == []
    ensures
      var parts := Parts(rest, AllApplied(EMPTY, Traversal([h], map[])), map[], map[]);
      && |parts.d.operations| == 1
      && (forall id | id in parts.d.operations :: parts.d.operations[id].channel == ChannelRef("a/b"))
      && Resolve(parts.Spec(), ChannelRef("a/b")).None?
  {
    LoneDocument(h);
    var d := AllApplied(EMPTY, Traversal([h], map[]));
    assert "a/b" in d.channels.Keys && |"a"| == 1 && |"a/b"| == 3;
    LeadsNowhere(Parts(rest, d, map[], map[]));
  }

  lemma LeadsNowhere(parts: Parts)
    requires "a/b" in parts.d.channels && "a" !in parts.d.channels
    ensures Resolve(parts.Spec(), ChannelRef("a/b")).None?
  {
    parts.Sections();
    SlashedTokens();
    var channels := Obj(RenderChannels(parts.d.channels));
    MissingEval(parts.Spec(), "channels", channels, "a", "b");
  }

  lemma MissingEval(j: Json, a: string, k: Json, b: string, c: string)
    requires Leads(j, a, k) && k.Obj? && b !in k.fields
    ensures Eval(j, [a, b, c]).None?
  {
    EvalDeeper(j, a, [b, c]);
    assert [a, b, c] == [a] + [b, c];
  }

  lemma SlashedTokens()
    ensures Tokens(ChannelRef("a/b")) == Some(["channels", "a", "b"])
  {
    TripleDenotes("channels", "a", "b");
    assert ChannelRef("a/b") == "#/" + "channels" + "/" + "a" + "/" + "b";
  }
}
