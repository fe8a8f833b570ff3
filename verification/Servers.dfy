/** The servers of a document and the security schemes they reference
    (crates/asyncapi/src/servers.rs). */
module Servers {
  import opened Prelude
  import opened JsonPointer

  /** A registered server: its name, its protocol and the schemes declared on it. */
  datatype Declared = Declared(name: string, protocol: string, schemes: seq<Json>)

  datatype Server = Server(protocol: string, security: seq<string>)

  /** The key of a server's scheme: the server's name, suffixed from the second scheme on. */
  function Key(name: string, index: nat): string
  {
    if index == 0 then name else name + "-" + Dec(index)
  }

  function SchemeRef(key: string): string
  {
    "#/" + "components" + "/" + "securitySchemes" + "/" + key
  }

  /** The declared servers carry distinct names: they are the entries of a map. */
  predicate DistinctNames(declared: seq<Declared>)
  {
    forall a, b | 0 <= a < b < |declared| :: declared[a].name != declared[b].name
  }

  predicate Holds(declared: seq<Declared>, a: nat, i: nat)
  {
    a < |declared| && i < |declared[a].schemes|
  }

  /** No two schemes of the document share a key. */
  ghost predicate KeysDistinct(declared: seq<Declared>)
  {
    forall a: nat, i: nat, b: nat, j: nat | Holds(declared, a, i) && Holds(declared, b, j) ::
      Key(declared[a].name, i) == Key(declared[b].name, j) ==> a == b && i == j
  }

  /** A server that declares a scheme is named as another one suffixed with one of its indices. */
  ghost predicate NameClash(declared: seq<Declared>, a: nat, b: nat, j: nat)
  {
    Holds(declared, a, 0) && Holds(declared, b, j) && j > 0 && declared[a].name == Key(declared[b].name, j)
  }

  ghost predicate NoNameClash(declared: seq<Declared>)
  {
    forall a, b, j :: !NameClash(declared, a, b, j)
  }

  lemma SuffixedKeys(s: string, i: nat, t: string, j: nat)
    requires i > 0 && j > 0 && Key(s, i) == Key(t, j)
    ensures s == t && i == j
  {
    assert '-' !in Dec(i) && '-' !in Dec(j);
    SplitAtLast(s, Dec(i), t, Dec(j), '-');
    DecInjective(i, j);
  }

  /** Keys are distinct exactly when no declared name is another one with a scheme's suffix. */
  lemma KeysDistinctExactly(declared: seq<Declared>)
    requires DistinctNames(declared)
    ensures KeysDistinct(declared) <==> NoNameClash(declared)
  {
    forall a: nat, b: nat, j: nat | NameClash(declared, a, b, j) ensures !KeysDistinct(declared) {
      assert Key(declared[a].name, 0) == Key(declared[b].name, j);
    }
    if NoNameClash(declared) {
      forall a: nat, i: nat, b: nat, j: nat
        | Holds(declared, a, i) && Holds(declared, b, j) && Key(declared[a].name, i) == Key(declared[b].name, j)
        ensures a == b && i == j
      {
        assert !NameClash(declared, a, b, j) && !NameClash(declared, b, a, i);
        if i > 0 && j > 0 {
          SuffixedKeys(declared[a].name, i, declared[b].name, j);
        }
      }
    }
  }

  /** The schemes of `declared[a]` before index `i`, and all those of the servers before it, are
      in place under their keys; each is the one declared where keys are distinct. */
  ghost predicate Placed(declared: seq<Declared>, schemes: map<string, Json>, a: nat, i: nat)
  {
    forall b: nat, j: nat | Holds(declared, b, j) && (b < a || (b == a && j < i)) ::
      && Key(declared[b].name, j) in schemes
      && (KeysDistinct(declared) ==> schemes[Key(declared[b].name, j)] == declared[b].schemes[j])
  }

  lemma PlaceNext(declared: seq<Declared>, schemes: map<string, Json>, a: nat, i: nat)
    requires Holds(declared, a, i) && Placed(declared, schemes, a, i)
    ensures Placed(declared, schemes[Key(declared[a].name, i) := declared[a].schemes[i]], a, i + 1)
  {
    if KeysDistinct(declared) {
      forall b: nat, j: nat | Holds(declared, b, j) && (b < a || (b == a && j < i))
        ensures Key(declared[b].name, j) != Key(declared[a].name, i)
      {
      }
    }
  }

  /** The server a declaration renders to. */
  ghost predicate Renders(server: Server, declared: Declared)
  {
    && server.protocol == declared.protocol && |server.security| == |declared.schemes|
    && forall i | 0 <= i < |declared.schemes| :: server.security[i] == SchemeRef(Key(declared.name, i))
  }

  method BuildServer(declared: seq<Declared>, a: nat, before: map<string, Json>)
    returns (server: Server, schemes: map<string, Json>)
    requires a < |declared| && Placed(declared, before, a, 0)
    ensures Renders(server, declared[a])
    ensures Placed(declared, schemes, a + 1, 0)
  {
    var security := [];
    schemes := before;
    var d := declared[a];
    for i := 0 to |d.schemes|
      invariant |security| == i && forall k | 0 <= k < i :: security[k] == SchemeRef(Key(d.name, k))
      invariant Placed(declared, schemes, a, i)
    {
      PlaceNext(declared, schemes, a, i);
      var key := Key(d.name, i);
      schemes := schemes[key := d.schemes[i]];
      security := security + [SchemeRef(key)];
    }
    server := Server(d.protocol, security);
  }

  ghost predicate DeclaredAs(declared: seq<Declared>, name: string)
  {
    exists a :: 0 <= a < |declared| && declared[a].name == name
  }

  /** The servers are the declared ones; every security reference of theirs names a scheme that is
      there, and the very one declared where keys are distinct. */
  ghost predicate Built(declared: seq<Declared>, servers: map<string, Server>, schemes: map<string, Json>)
  {
    && DistinctNames(declared)
    && (forall a | 0 <= a < |declared| ::
          declared[a].name in servers && Renders(servers[declared[a].name], declared[a]))
    && (forall name | name in servers :: DeclaredAs(declared, name))
    && Placed(declared, schemes, |declared|, 0)
  }

  /** `build_servers`. */
  method BuildServers(declared: seq<Declared>) returns (servers: map<string, Server>, schemes: map<string, Json>)
    requires DistinctNames(declared)
    ensures Built(declared, servers, schemes)
  {
    servers, schemes := map[], map[];
    for a := 0 to |declared|
      invariant forall b | 0 <= b < a :: declared[b].name in servers && Renders(servers[declared[b].name], declared[b])
      invariant forall name | name in servers :: DeclaredAs(declared, name)
      invariant Placed(declared, schemes, a, 0)
    {
      var server;
      server, schemes := BuildServer(declared, a, schemes);
      servers := servers[declared[a].name := server];
    }
  }

  /** `resolve_server`: the label where it names a server, else the single server there is. */
  function ResolveServer(wanted: Option<string>, servers: map<string, Server>): (r: Option<string>)
    ensures r.Some? ==> r.value in servers
    ensures wanted.Some? && wanted.value in servers ==> r == wanted
    ensures |servers| == 1 ==> r.Some?
    ensures r.None? ==> |servers| != 1 && (wanted.Some? ==> wanted.value !in servers)
  {
    if wanted.Some? && wanted.value in servers then wanted
    else if |servers| == 1 then
      SingleKey(servers);
      var name :| name in servers; Some(name)
    else None
  }

  /** The server `s` is the one wanted, or there is no such server and `s` is the only one. */
  ghost predicate Serves(wanted: Option<string>, servers: map<string, Server>, s: string)
  {
    || (wanted == Some(s) && s in servers)
    || ((forall w | wanted == Some(w) :: w !in servers) && servers.Keys == {s})
  }

  /** A registration's server is exactly that. */
  lemma ResolvesExactly(wanted: Option<string>, servers: map<string, Server>, s: string)
    ensures ResolveServer(wanted, servers) == Some(s) <==> Serves(wanted, servers, s)
  {
    var r := ResolveServer(wanted, servers);
    if |servers| == 1 {
      SingleKey(servers);
      if r == Some(s) && !(wanted.Some? && wanted.value in servers) {
        assert servers.Keys == {s};
      }
    }
    if servers.Keys == {s} {
      assert |servers| == |servers.Keys| == 1;
    }
  }

  lemma SingleKey(servers: map<string, Server>)
    requires |servers| == 1
    ensures exists name :: name in servers
    ensures forall m, n | m in servers && n in servers :: m == n
  {
    var name :| name in servers.Keys;
    SubsetSize({name}, servers.Keys);
    assert servers.Keys == {name};
  }

  /** Two servers whose names clash share a scheme key, and one of the two schemes is lost: no map
      holds both under their keys. */
  lemma ClashingNames(schemes: map<string, Json>)
    ensures
      var declared := [Declared("a", "amqp", [Str("x"), Str("y")]), Declared("a-1", "amqp", [Str("z")])];
      && DistinctNames(declared) && NameClash(declared, 1, 0, 1)
      && !(HeldAs(schemes, Key("a", 1), Str("y")) && HeldAs(schemes, Key("a-1", 0), Str("z")))
  {
    assert Dec(1) == "1";
    assert "a" + "-" + "1" == "a-1";
  }

  predicate HeldAs(schemes: map<string, Json>, key: string, scheme: Json)
  {
    key in schemes && schemes[key] == scheme
  }
}
