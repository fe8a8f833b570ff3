/** The message components of a document (crates/asyncapi/src/messages.rs): one component per
    message name, merged from every side that carries it, and the bindings under it
    (crates/core/src/bindings.rs). */
module Messages {
  import opened Prelude
  import opened JsonPointer

  /** Binding bodies by protocol key. */
  type Bindings = map<string, string>

  /** `Bindings::fill_from`: the union, keeping what is already there on a clash. */
  method FillFrom(own: Bindings, other: Bindings) returns (r: Bindings)
    ensures r == other + own
  {
    r := own;
    var left := other.Keys;
    while left != {}
      invariant left <= other.Keys
      invariant r == (map k | k in other && k !in left :: other[k]) + own
    {
      var key :| key in left;
      if key !in r {
        r := r[key := other[key]];
      }
      left := left - {key};
    }
  }

  // Headers schemas

  datatype HeaderRule = HeaderRule(header: string, value: string)

  function ObjectField(j: Json, key: string): map<string, Json>
  {
    if j.Obj? && key in j.fields && j.fields[key].Obj? then j.fields[key].fields else map[]
  }

  function ArrayField(j: Json, key: string): seq<Json>
  {
    if j.Obj? && key in j.fields && j.fields[key].Arr? then j.fields[key].items else []
  }

  /** `with_header_const`: the header a set reads, as a required `const` property of the model's
      headers schema; parts of the wrong shape are rewritten around it. */
  function WithHeaderConst(headers: Option<Json>, rule: HeaderRule): (r: Json)
    ensures r.Obj?
  {
    var schema := if headers.Some? && headers.value.Obj? then headers.value else Obj(map["type" := Str("object")]);
    var properties := ObjectField(schema, "properties")[rule.header := Obj(map["const" := Str(rule.value)])];
    var required := ArrayField(schema, "required");
    Obj(schema.fields["properties" := Obj(properties)]
        ["required" := Arr(if Str(rule.header) in required then required else required + [Str(rule.header)])])
  }

  /** The rule's header is a required constant of the result; every other property, requirement
      and field of the contract is kept; and applying the rule again changes nothing. */
  lemma HeaderConstJoins(headers: Option<Json>, rule: HeaderRule)
    ensures
      var r := WithHeaderConst(headers, rule);
      var was := if headers.Some? && headers.value.Obj? then headers.value else Obj(map["type" := Str("object")]);
      && ObjectField(r, "properties") ==
         ObjectField(was, "properties")[rule.header := Obj(map["const" := Str(rule.value)])]
      && Str(rule.header) in ArrayField(r, "required")
      && ArrayField(was, "required") <= ArrayField(r, "required")
      && (forall x | x in ArrayField(r, "required") :: x == Str(rule.header) || x in ArrayField(was, "required"))
      && (forall k | k in was.fields && k != "properties" && k != "required" ::
            k in r.fields && r.fields[k] == was.fields[k])
      && WithHeaderConst(Some(r), rule) == r
  {
    var r := WithHeaderConst(headers, rule);
    var again := WithHeaderConst(Some(r), rule);
    assert ObjectField(again, "properties") == ObjectField(r, "properties");
    assert again.fields == r.fields;
  }

  // Components

  /** One side's contribution to a message component. */
  datatype Contribution = Contribution(
    name: string, title: Option<string>, description: Option<string>, contentType: Option<string>,
    payload: Option<Json>, headers: Option<Json>, schemaless: bool, bindings: Bindings)

  datatype MessageObject = MessageObject(
    name: string, title: Option<string>, description: Option<string>, contentType: Option<string>,
    payload: Option<Json>, headers: Option<Json>, schemaless: bool, bindings: Bindings)

  type Components = map<string, MessageObject>

  function Either<T>(first: Option<T>, second: Option<T>): Option<T>
  {
    if first.Some? then first else second
  }

  /** A title that repeats the machine name says nothing. */
  function Telling(title: Option<string>, name: string): Option<string>
  {
    if title == Some(name) then None else title
  }

  function Blank(name: string): MessageObject
  {
    MessageObject(name, None, None, None, None, None, false, map[])
  }

  function MergedInto(m: MessageObject, c: Contribution): MessageObject
  {
    MessageObject(m.name, Either(m.title, Telling(c.title, m.name)), Either(m.description, c.description),
                  Either(m.contentType, c.contentType), Either(m.payload, c.payload), Either(m.headers, c.headers),
                  m.schemaless || c.schemaless, c.bindings + m.bindings)
  }

  function Merged(messages: Components, c: Contribution): Components
  {
    messages[c.name := MergedInto(if c.name in messages then messages[c.name] else Blank(c.name), c)]
  }

  function TextsMerged(m: MessageObject, c: Contribution): MessageObject
  {
    m.(title := Either(m.title, Telling(c.title, m.name)), description := Either(m.description, c.description),
       contentType := Either(m.contentType, c.contentType))
  }

  method MergeTexts(m: MessageObject, c: Contribution) returns (entry: MessageObject)
    ensures entry == TextsMerged(m, c)
  {
    entry := m;
    if entry.title.None? && c.title.Some? && c.title.value != entry.name {
      entry := entry.(title := c.title);
    }
    if entry.description.None? {
      entry := entry.(description := c.description);
    }
    if entry.contentType.None? {
      entry := entry.(contentType := c.contentType);
    }
  }

  method MergeSchemas(m: MessageObject, c: Contribution) returns (entry: MessageObject)
    ensures entry == m.(payload := Either(m.payload, c.payload), headers := Either(m.headers, c.headers),
                        schemaless := m.schemaless || c.schemaless)
  {
    entry := m.(schemaless := m.schemaless || c.schemaless);
    if entry.payload.None? {
      entry := entry.(payload := c.payload);
    }
    if entry.headers.None? && c.headers.Some? {
      entry := entry.(headers := c.headers);
    }
  }

  /** `merge_message`, field by field. */
  method MergeMessage(messages: Components, c: Contribution) returns (r: Components)
    ensures r == Merged(messages, c)
  {
    var entry := if c.name in messages then messages[c.name] else Blank(c.name);
    var bindings := FillFrom(entry.bindings, c.bindings);
    entry := MergeTexts(entry.(bindings := bindings), c);
    entry := MergeSchemas(entry, c);
    r := messages[c.name := entry];
  }

  function MergedAll(messages: Components, cs: seq<Contribution>): Components
  {
    Fold(Merged, messages, cs)
  }

  lemma MergedInTurn(messages: Components, cs: seq<Contribution>, ds: seq<Contribution>)
    ensures MergedAll(messages, cs + ds) == MergedAll(MergedAll(messages, cs), ds)
  {
    FoldInTurn(Merged, messages, cs, ds);
  }

  // What any order of contributions comes to

  /** The first value present. */
  function First<T>(values: seq<Option<T>>): Option<T>
    decreases |values|
  {
    if values == [] then None
    else
      var earlier := First(values[..|values| - 1]);
      if earlier.Some? then earlier else values[|values| - 1]
  }

  /** What is first: none is present, or it stands behind absent ones only. */
  lemma {:induction false} FirstIs<T>(values: seq<Option<T>>)
    ensures First(values).None? <==> forall i | 0 <= i < |values| :: values[i].None?
    ensures First(values).Some? ==>
      exists i :: 0 <= i < |values| && values[i] == First(values) && forall j | 0 <= j < i :: values[j].None?
    decreases |values|
  {
    if values != [] {
      var front := values[..|values| - 1];
      FirstIs(front);
      if First(front).Some? {
        var i :| 0 <= i < |front| && front[i] == First(front) && forall j | 0 <= j < i :: front[j].None?;
        assert values[i] == First(values) && forall j | 0 <= j < i :: values[j] == front[j];
      } else {
        assert forall j | 0 <= j < |front| :: values[j] == front[j];
      }
    }
  }

  lemma FirstPresent<T>(values: seq<Option<T>>, i: nat)
    requires i < |values|
    ensures values[i].Some? ==> First(values).Some?
  {
    FirstIs(values);
  }

  lemma FirstNext<T>(values: seq<Option<T>>, v: Option<T>)
    ensures First(values + [v]) == Either(First(values), v)
  {
    assert (values + [v])[..|values|] == values;
  }

  // What each contribution to `name` says; a contribution to another name says nothing.

  function Titles(cs: seq<Contribution>, name: string): seq<Option<string>>
  {
    seq(|cs|, i requires 0 <= i < |cs| => if cs[i].name == name then Telling(cs[i].title, name) else None)
  }

  function Descriptions(cs: seq<Contribution>, name: string): seq<Option<string>>
  {
    seq(|cs|, i requires 0 <= i < |cs| => if cs[i].name == name then cs[i].description else None)
  }

  function ContentTypes(cs: seq<Contribution>, name: string): seq<Option<string>>
  {
    seq(|cs|, i requires 0 <= i < |cs| => if cs[i].name == name then cs[i].contentType else None)
  }

  function Payloads(cs: seq<Contribution>, name: string): seq<Option<Json>>
  {
    seq(|cs|, i requires 0 <= i < |cs| => if cs[i].name == name then cs[i].payload else None)
  }

  function HeaderSchemas(cs: seq<Contribution>, name: string): seq<Option<Json>>
  {
    seq(|cs|, i requires 0 <= i < |cs| => if cs[i].name == name then cs[i].headers else None)
  }

  function Bodies(cs: seq<Contribution>, name: string, key: string): seq<Option<string>>
  {
    seq(|cs|, i requires 0 <= i < |cs| => if cs[i].name == name then Binding(cs[i].bindings, key) else None)
  }

  function Binding(b: Bindings, key: string): Option<string>
  {
    if key in b then Some(b[key]) else None
  }

  ghost predicate Named(cs: seq<Contribution>, name: string)
  {
    exists i :: 0 <= i < |cs| && cs[i].name == name
  }

  ghost predicate AnySchemaless(cs: seq<Contribution>, name: string)
  {
    exists i :: 0 <= i < |cs| && cs[i].name == name && cs[i].schemaless
  }

  /** The component the contributions to `name` make: of each field the first present value, of
      the title the first that says something, schema-free if any side is, and of each protocol
      the first binding. */
  ghost predicate MadeOf(m: MessageObject, cs: seq<Contribution>, name: string)
  {
    TextsOf(m, cs, name) && SchemasOf(m, cs, name) && BindingsOf(m, cs, name)
  }

  ghost predicate TextsOf(m: MessageObject, cs: seq<Contribution>, name: string)
  {
    && m.name == name
    && m.title == First(Titles(cs, name))
    && m.description == First(Descriptions(cs, name))
    && m.contentType == First(ContentTypes(cs, name))
  }

  ghost predicate SchemasOf(m: MessageObject, cs: seq<Contribution>, name: string)
  {
    && m.payload == First(Payloads(cs, name))
    && m.headers == First(HeaderSchemas(cs, name))
    && (m.schemaless <==> AnySchemaless(cs, name))
  }

  ghost predicate BindingsOf(m: MessageObject, cs: seq<Contribution>, name: string)
  {
    forall key :: Binding(m.bindings, key) == First(Bodies(cs, name, key))
  }

  /** `m` with what `c` adds to it, when `c` is a contribution to its name. */
  function Joined(m: MessageObject, c: Contribution): MessageObject
  {
    if c.name == m.name then MergedInto(m, c) else m
  }

  // One more contribution, field by field

  lemma TitlesNext(cs: seq<Contribution>, c: Contribution, name: string)
    ensures First(Titles(cs + [c], name)) ==
      Either(First(Titles(cs, name)), if c.name == name then Telling(c.title, name) else None)
  {
    var said := if c.name == name then Telling(c.title, name) else None;
    assert Titles(cs + [c], name) == Titles(cs, name) + [said];
    FirstNext(Titles(cs, name), said);
  }

  lemma DescriptionsNext(cs: seq<Contribution>, c: Contribution, name: string)
    ensures First(Descriptions(cs + [c], name)) ==
      Either(First(Descriptions(cs, name)), if c.name == name then c.description else None)
  {
    var said := if c.name == name then c.description else None;
    assert Descriptions(cs + [c], name) == Descriptions(cs, name) + [said];
    FirstNext(Descriptions(cs, name), said);
  }

  lemma ContentTypesNext(cs: seq<Contribution>, c: Contribution, name: string)
    ensures First(ContentTypes(cs + [c], name)) ==
      Either(First(ContentTypes(cs, name)), if c.name == name then c.contentType else None)
  {
    var said := if c.name == name then c.contentType else None;
    assert ContentTypes(cs + [c], name) == ContentTypes(cs, name) + [said];
    FirstNext(ContentTypes(cs, name), said);
  }

  lemma PayloadsNext(cs: seq<Contribution>, c: Contribution, name: string)
    ensures First(Payloads(cs + [c], name)) ==
      Either(First(Payloads(cs, name)), if c.name == name then c.payload else None)
  {
    var said := if c.name == name then c.payload else None;
    assert Payloads(cs + [c], name) == Payloads(cs, name) + [said];
    FirstNext(Payloads(cs, name), said);
  }

  lemma HeaderSchemasNext(cs: seq<Contribution>, c: Contribution, name: string)
    ensures First(HeaderSchemas(cs + [c], name)) ==
      Either(First(HeaderSchemas(cs, name)), if c.name == name then c.headers else None)
  {
    var said := if c.name == name then c.headers else None;
    assert HeaderSchemas(cs + [c], name) == HeaderSchemas(cs, name) + [said];
    FirstNext(HeaderSchemas(cs, name), said);
  }

  lemma BodiesNext(cs: seq<Contribution>, c: Contribution, name: string, key: string)
    ensures First(Bodies(cs + [c], name, key)) ==
      Either(First(Bodies(cs, name, key)), if c.name == name then Binding(c.bindings, key) else None)
  {
    var said := if c.name == name then Binding(c.bindings, key) else None;
    assert Bodies(cs + [c], name, key) == Bodies(cs, name, key) + [said];
    FirstNext(Bodies(cs, name, key), said);
  }

  lemma SchemalessNext(cs: seq<Contribution>, c: Contribution, name: string)
    ensures AnySchemaless(cs + [c], name) <==> AnySchemaless(cs, name) || (c.name == name && c.schemaless)
  {
    assert (cs + [c])[|cs|] == c && forall i | 0 <= i < |cs| :: (cs + [c])[i] == cs[i];
  }

  lemma TextsNext(m: MessageObject, cs: seq<Contribution>, c: Contribution, name: string)
    requires TextsOf(m, cs, name)
    ensures TextsOf(Joined(m, c), cs + [c], name)
  {
    TitlesNext(cs, c, name);
    DescriptionsNext(cs, c, name);
    ContentTypesNext(cs, c, name);
  }

  lemma SchemasNext(m: MessageObject, cs: seq<Contribution>, c: Contribution, name: string)
    requires m.name == name && SchemasOf(m, cs, name)
    ensures SchemasOf(Joined(m, c), cs + [c], name)
  {
    PayloadsNext(cs, c, name);
    HeaderSchemasNext(cs, c, name);
    SchemalessNext(cs, c, name);
  }

  lemma BindingsNext(m: MessageObject, cs: seq<Contribution>, c: Contribution, name: string)
    requires m.name == name && BindingsOf(m, cs, name)
    ensures BindingsOf(Joined(m, c), cs + [c], name)
  {
    forall key ensures Binding(Joined(m, c).bindings, key) == First(Bodies(cs + [c], name, key)) {
      BodiesNext(cs, c, name, key);
    }
  }

  lemma BlankIsMadeOfNothing(cs: seq<Contribution>, name: string)
    requires !Named(cs, name)
    ensures MadeOf(Blank(name), cs, name)
  {
    FirstIs(Titles(cs, name));
    FirstIs(Descriptions(cs, name));
    FirstIs(ContentTypes(cs, name));
    FirstIs(Payloads(cs, name));
    FirstIs(HeaderSchemas(cs, name));
    forall key ensures First(Bodies(cs, name, key)).None? {
      FirstIs(Bodies(cs, name, key));
    }
  }

  ghost predicate ComponentOf(messages: Components, cs: seq<Contribution>, name: string)
  {
    (name in messages <==> Named(cs, name)) && (name in messages ==> MadeOf(messages[name], cs, name))
  }

  /** `messages` holds a component for every name contributed to, made of its contributions. */
  ghost predicate MergedFrom(messages: Components, cs: seq<Contribution>)
  {
    forall name :: ComponentOf(messages, cs, name)
  }

  lemma NamedNext(cs: seq<Contribution>, c: Contribution, name: string)
    ensures Named(cs + [c], name) <==> Named(cs, name) || c.name == name
  {
    assert (cs + [c])[|cs|] == c;
    assert forall i | 0 <= i < |cs| :: (cs + [c])[i] == cs[i];
  }

  lemma MadeOfNext(messages: Components, cs: seq<Contribution>, c: Contribution, name: string)
    requires MergedFrom(messages, cs) && name in Merged(messages, c)
    ensures MadeOf(Merged(messages, c)[name], cs + [c], name)
  {
    assert ComponentOf(messages, cs, name);
    if name !in messages {
      BlankIsMadeOfNothing(cs, name);
    }
    var m := if name in messages then messages[name] else Blank(name);
    assert MadeOf(m, cs, name);
    TextsNext(m, cs, c, name);
    SchemasNext(m, cs, c, name);
    BindingsNext(m, cs, c, name);
    assert Merged(messages, c)[name] == Joined(m, c);
  }

  lemma MergedFromNext(messages: Components, cs: seq<Contribution>, c: Contribution)
    requires MergedFrom(messages, cs)
    ensures MergedFrom(Merged(messages, c), cs + [c])
  {
    var after, all := Merged(messages, c), cs + [c];
    forall name ensures ComponentOf(after, all, name) {
      assert ComponentOf(messages, cs, name);
      NamedNext(cs, c, name);
      if name in after {
        MadeOfNext(messages, cs, c, name);
      }
    }
  }

  /** However many contributions in whatever order, each component is made of its own: the first
      value of each field wins. */
  lemma {:induction false} FirstContributorWins(cs: seq<Contribution>)
    ensures MergedFrom(MergedAll(map[], cs), cs)
    decreases |cs|
  {
    if cs != [] {
      FirstContributorWins(cs[..|cs| - 1]);
      MergedFromNext(MergedAll(map[], cs[..|cs| - 1]), cs[..|cs| - 1], cs[|cs| - 1]);
      assert cs[..|cs| - 1] + [cs[|cs| - 1]] == cs;
    }
  }

  // The same, field by field

  /** The first value present among `values`, or none where none is. */
  ghost predicate IsFirstOf<T>(value: Option<T>, values: seq<Option<T>>)
  {
    if value.None? then forall i | 0 <= i < |values| :: values[i].None?
    else exists i: nat :: i < |values| && values[i] == value && forall j | 0 <= j < i :: values[j].None?
  }

  /** What the contributions to `name` say, one value each; the others say nothing. */
  function Only<T>(cs: seq<Contribution>, name: string, values: seq<Option<T>>): (r: seq<Option<T>>)
    requires |values| == |cs|
    ensures |r| == |cs|
  {
    seq(|cs|, i requires 0 <= i < |cs| => if cs[i].name == name then values[i] else None)
  }

  lemma FirstIsFirstOf<T>(values: seq<Option<T>>, said: seq<Option<T>>)
    requires values == said
    ensures IsFirstOf(First(values), said)
  {
    FirstIs(values);
  }

  /** The title is the first contributed one that is not the name itself. */
  lemma TitleIs(cs: seq<Contribution>, name: string)
    requires Named(cs, name)
    ensures name in MergedAll(map[], cs) && MergedAll(map[], cs)[name].title != Some(name)
    ensures
      var titles := seq(|cs|, i requires 0 <= i < |cs| => if cs[i].title == Some(name) then None else cs[i].title);
      IsFirstOf(MergedAll(map[], cs)[name].title, Only(cs, name, titles))
  {
    FirstContributorWins(cs);
    assert ComponentOf(MergedAll(map[], cs), cs, name);
    var titles := seq(|cs|, i requires 0 <= i < |cs| => if cs[i].title == Some(name) then None else cs[i].title);
    FirstIsFirstOf(Titles(cs, name), Only(cs, name, titles));
  }

  lemma TextsAre(cs: seq<Contribution>, name: string)
    requires Named(cs, name)
    ensures name in MergedAll(map[], cs) && MergedAll(map[], cs)[name].name == name
    ensures
      var m := MergedAll(map[], cs)[name];
      var descriptions := seq(|cs|, i requires 0 <= i < |cs| => cs[i].description);
      var contentTypes := seq(|cs|, i requires 0 <= i < |cs| => cs[i].contentType);
      && IsFirstOf(m.description, Only(cs, name, descriptions))
      && IsFirstOf(m.contentType, Only(cs, name, contentTypes))
  {
    FirstContributorWins(cs);
    assert ComponentOf(MergedAll(map[], cs), cs, name);
    FirstIsFirstOf(Descriptions(cs, name), Only(cs, name, seq(|cs|, i requires 0 <= i < |cs| => cs[i].description)));
    FirstIsFirstOf(ContentTypes(cs, name), Only(cs, name, seq(|cs|, i requires 0 <= i < |cs| => cs[i].contentType)));
  }

  lemma SchemasAre(cs: seq<Contribution>, name: string)
    requires Named(cs, name)
    ensures name in MergedAll(map[], cs)
    ensures
      var m := MergedAll(map[], cs)[name];
      var payloads := seq(|cs|, i requires 0 <= i < |cs| => cs[i].payload);
      var headers := seq(|cs|, i requires 0 <= i < |cs| => cs[i].headers);
      && IsFirstOf(m.payload, Only(cs, name, payloads)) && IsFirstOf(m.headers, Only(cs, name, headers))
      && (m.schemaless <==> exists i :: 0 <= i < |cs| && cs[i].name == name && cs[i].schemaless)
  {
    FirstContributorWins(cs);
    assert ComponentOf(MergedAll(map[], cs), cs, name);
    FirstIsFirstOf(Payloads(cs, name), Only(cs, name, seq(|cs|, i requires 0 <= i < |cs| => cs[i].payload)));
    FirstIsFirstOf(HeaderSchemas(cs, name), Only(cs, name, seq(|cs|, i requires 0 <= i < |cs| => cs[i].headers)));
  }

  lemma BindingsAre(cs: seq<Contribution>, name: string, key: string)
    requires Named(cs, name)
    ensures name in MergedAll(map[], cs)
    ensures
      var m := MergedAll(map[], cs)[name];
      var bodies := seq(|cs|, i requires 0 <= i < |cs| =>
        if key in cs[i].bindings then Some(cs[i].bindings[key]) else None);
      IsFirstOf(if key in m.bindings then Some(m.bindings[key]) else None, Only(cs, name, bodies))
  {
    FirstContributorWins(cs);
    assert ComponentOf(MergedAll(map[], cs), cs, name);
    var m := MergedAll(map[], cs)[name];
    assert Binding(m.bindings, key) == First(Bodies(cs, name, key));
    var bodies := seq(|cs|, i requires 0 <= i < |cs| =>
      if key in cs[i].bindings then Some(cs[i].bindings[key]) else None);
    FirstIsFirstOf(Bodies(cs, name, key), Only(cs, name, bodies));
  }

  /** A component that holds everything `c` says takes nothing more from it. */
  ghost predicate Covers(m: MessageObject, c: Contribution)
  {
    && (m.title.Some? || Telling(c.title, m.name).None?)
    && (m.description.Some? || c.description.None?)
    && (m.contentType.Some? || c.contentType.None?)
    && (m.payload.Some? || c.payload.None?)
    && (m.headers.Some? || c.headers.None?)
    && (m.schemaless || !c.schemaless)
    && c.bindings.Keys <= m.bindings.Keys
  }

  lemma CoveredChangesNothing(messages: Components, c: Contribution)
    requires c.name in messages && messages[c.name].name == c.name && Covers(messages[c.name], c)
    ensures Merged(messages, c) == messages
  {
    var m := messages[c.name];
    assert c.bindings + m.bindings == m.bindings;
    assert MergedInto(m, c) == m;
  }

  lemma MadeOfCovers(m: MessageObject, cs: seq<Contribution>, i: nat)
    requires i < |cs| && MadeOf(m, cs, cs[i].name)
    ensures Covers(m, cs[i])
  {
    var c := cs[i];
    FirstPresent(Titles(cs, c.name), i);
    assert Titles(cs, c.name)[i] == Telling(c.title, c.name);
    FirstPresent(Descriptions(cs, c.name), i);
    assert Descriptions(cs, c.name)[i] == c.description;
    FirstPresent(ContentTypes(cs, c.name), i);
    assert ContentTypes(cs, c.name)[i] == c.contentType;
    FirstPresent(Payloads(cs, c.name), i);
    assert Payloads(cs, c.name)[i] == c.payload;
    FirstPresent(HeaderSchemas(cs, c.name), i);
    assert HeaderSchemas(cs, c.name)[i] == c.headers;
    forall key | key in c.bindings ensures key in m.bindings {
      FirstPresent(Bodies(cs, c.name, key), i);
      assert Bodies(cs, c.name, key)[i].Some?;
      assert Binding(m.bindings, key).Some?;
    }
  }

  /** Replaying contributions that were merged changes nothing. */
  lemma {:induction false} ReplayChangesNothing(cs: seq<Contribution>, again: seq<Contribution>)
    requires forall i | 0 <= i < |again| :: again[i] in cs
    ensures MergedAll(MergedAll(map[], cs), again) == MergedAll(map[], cs)
    decreases |again|
  {
    if again != [] {
      var merged, c := MergedAll(map[], cs), again[|again| - 1];
      ReplayChangesNothing(cs, again[..|again| - 1]);
      FirstContributorWins(cs);
      var i :| 0 <= i < |cs| && cs[i] == c;
      assert Named(cs, c.name) && ComponentOf(merged, cs, c.name);
      MadeOfCovers(merged[c.name], cs, i);
      CoveredChangesNothing(merged, c);
    }
  }

  /** `messages_without_schema`, as a set of names. */
  function WithoutSchema(messages: Components): set<string>
  {
    set name | name in messages && messages[name].payload.None? && !messages[name].schemaless
      && messages[name].name != "bytes"
             :: messages[name].name
  }

  /** Something contributed to the name, nothing gave it a schema or declared it schema-free, and
      it is not the label of raw bytes. */
  ghost predicate Undescribed(cs: seq<Contribution>, name: string)
  {
    && Named(cs, name) && name != "bytes"
    && forall i | 0 <= i < |cs| && cs[i].name == name :: cs[i].payload.None? && !cs[i].schemaless
  }

  lemma ListedExactly(cs: seq<Contribution>, name: string)
    ensures name in WithoutSchema(MergedAll(map[], cs)) <==> Undescribed(cs, name)
  {
    FirstContributorWins(cs);
    var messages := MergedAll(map[], cs);
    assert ComponentOf(messages, cs, name);
    if name in messages {
      var payloads := Payloads(cs, name);
      FirstIs(payloads);
      assert forall i | 0 <= i < |cs| && cs[i].name == name :: payloads[i] == cs[i].payload;
      assert forall i | 0 <= i < |cs| && cs[i].name != name :: payloads[i].None?;
    }
    forall n | n in messages ensures messages[n].name == n {
      assert ComponentOf(messages, cs, n);
    }
  }

  /** `agreed_content_type`: the one media type every message names, if there is one. */
  method AgreedContentType(messages: Components) returns (agreed: Option<string>)
    ensures agreed.Some? ==> messages != map[] && forall n | n in messages :: messages[n].contentType == agreed
    ensures agreed.None? ==>
      messages == map[] || forall t :: exists n :: n in messages && messages[n].contentType != Some(t)
  {
    agreed := None;
    var left := messages.Keys;
    while left != {}
      invariant left <= messages.Keys
      invariant agreed.None? <==> left == messages.Keys
      invariant agreed.Some? ==> forall n | n in messages && n !in left :: messages[n].contentType == agreed
    {
      var n :| n in left;
      var named := messages[n].contentType;
      if named.None? {
        return None;
      }
      if agreed.Some? && agreed != named {
        ghost var other :| other in messages && other !in left;
        assert messages[other].contentType == agreed && messages[n].contentType == named;
        return None;
      }
      agreed, left := named, left - {n};
    }
  }
}
