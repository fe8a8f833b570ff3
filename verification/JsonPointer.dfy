/** JSON values and JSON Pointers in their URI fragment form (sections 3 to 6 of RFC 6901), which
    the `$ref`s of an AsyncAPI document are read as. */
module JsonPointer {
  import opened Prelude

  datatype Json =
    | Null
    | Bool(b: bool)
    | Num(n: int)
    | Str(s: string)
    | Arr(items: seq<Json>)
    | Obj(fields: map<string, Json>)

  /** `parts` with `c` in front of the first of them. */
  function Prefixed(c: char, parts: seq<string>): seq<string>
    requires parts != []
  {
    [[c] + parts[0]] + parts[1..]
  }

  /** The parts of a text between its slashes. */
  function Split(s: string): (parts: seq<string>)
    ensures parts != []
  {
    if s == [] then [[]]
    else if s[0] == '/' then [[]] + Split(s[1..])
    else Prefixed(s[0], Split(s[1..]))
  }

  lemma PrefixedJoined(c: char, a: seq<string>, b: seq<string>)
    requires a != []
    ensures Prefixed(c, a + b) == Prefixed(c, a) + b
  {
    assert (a + b)[1..] == a[1..] + b;
  }

  lemma {:induction false} SplitJoined(a: string, b: string)
    ensures Split(a + "/" + b) == Split(a) + Split(b)
  {
    var whole := a + "/" + b;
    if a == [] {
      assert whole[1..] == b;
    } else {
      assert whole[0] == a[0] && whole[1..] == a[1..] + "/" + b;
      SplitJoined(a[1..], b);
      if a[0] == '/' {
        assert [[]] + (Split(a[1..]) + Split(b)) == ([[]] + Split(a[1..])) + Split(b);
      } else {
        PrefixedJoined(a[0], Split(a[1..]), Split(b));
      }
    }
  }

  lemma {:induction false} SplitWhole(s: string)
    ensures |Split(s)| == 1 <==> '/' !in s
    ensures '/' !in s ==> Split(s) == [s]
  {
    if s != [] {
      SplitWhole(s[1..]);
      assert s == [s[0]] + s[1..];
    }
  }

  /** A reference token with `~1` and `~0` read as `/` and `~`; any other `~` is an error. */
  function Unescaped(t: string): Option<string>
  {
    if t == [] then Some([])
    else if t[0] != '~' then
      match Unescaped(t[1..]) case None => None case Some(r) => Some([t[0]] + r)
    else if |t| < 2 || (t[1] != '0' && t[1] != '1') then None
    else match Unescaped(t[2..])
      case None => None
      case Some(r) => Some([if t[1] == '0' then '~' else '/'] + r)
  }

  lemma {:induction false} UnescapedExactly(t: string)
    ensures Unescaped(t) == Some(t) <==> '~' !in t
    ensures Unescaped(t).Some? ==> |Unescaped(t).value| <= |t|
    ensures '~' in t && Unescaped(t).Some? ==> |Unescaped(t).value| < |t|
    decreases |t|
  {
    if t != [] {
      assert t == [t[0]] + t[1..];
      if t[0] != '~' {
        UnescapedExactly(t[1..]);
      } else if |t| >= 2 {
        UnescapedExactly(t[2..]);
      }
    }
  }

  function AllUnescaped(parts: seq<string>): (r: Option<seq<string>>)
    ensures r.Some? ==> |r.value| == |parts| && forall i | 0 <= i < |parts| :: Unescaped(parts[i]) == Some(r.value[i])
    ensures r.None? ==> exists i :: 0 <= i < |parts| && Unescaped(parts[i]).None?
  {
    if parts == [] then Some([])
    else
      var first, rest := Unescaped(parts[0]), AllUnescaped(parts[1..]);
      if first.Some? && rest.Some? then Some([first.value] + rest.value)
      else
        assert rest.None? ==> exists i :: 0 < i < |parts| && Unescaped(parts[i]).None? by {
          if rest.None? {
            var i :| 0 <= i < |parts[1..]| && Unescaped(parts[1..][i]).None?;
            assert parts[i + 1] == parts[1..][i];
          }
        }
        None
  }

  function HexValue(c: char): Option<nat>
  {
    if '0' <= c <= '9' then Some((c - '0') as nat)
    else if 'a' <= c <= 'f' then Some((c - 'a') as nat + 10)
    else if 'A' <= c <= 'F' then Some((c - 'A') as nat + 10)
    else None
  }

  /** The character two hexadecimal digits stand for. */
  function HexPair(high: char, low: char): Option<char>
  {
    if HexValue(high).None? || HexValue(low).None? then None
    else Some((16 * HexValue(high).value + HexValue(low).value) as char)
  }

  /** A fragment with its percent-encoded characters read; a `%` that starts none is an error. */
  function PercentDecoded(s: string): Option<string>
    decreases |s|
  {
    if s == [] then Some([])
    else if s[0] != '%' then
      match PercentDecoded(s[1..]) case None => None case Some(r) => Some([s[0]] + r)
    else if |s| < 3 || HexPair(s[1], s[2]).None? then None
    else match PercentDecoded(s[3..]) case None => None case Some(r) => Some([HexPair(s[1], s[2]).value] + r)
  }

  lemma {:induction false} PercentDecodedExactly(s: string)
    ensures '%' !in s ==> PercentDecoded(s) == Some(s)
    ensures PercentDecoded(s).Some? ==> |PercentDecoded(s).value| <= |s|
    ensures '%' in s && PercentDecoded(s).Some? ==> |PercentDecoded(s).value| < |s|
    decreases |s|
  {
    if s != [] {
      assert s == [s[0]] + s[1..];
      if s[0] != '%' {
        PercentDecodedExactly(s[1..]);
      } else if |s| >= 3 {
        PercentDecodedExactly(s[3..]);
      }
    }
  }

  /** The tokens of a reference `#` + pointer: none for the whole document, else what follows
      each slash. */
  function Tokens(reference: string): Option<seq<string>>
  {
    if reference == "#" then Some([])
    else if |reference| < 2 || reference[..2] != "#/" then None
    else match PercentDecoded(reference[2..])
      case None => None
      case Some(pointer) => AllUnescaped(Split(pointer))
  }

  /** The index of an array member a token spells, without leading zeros. */
  function IndexToken(token: string, n: nat): (r: Option<nat>)
    ensures r.Some? ==> r.value < n && Dec(r.value) == token
  {
    if n == 0 then None
    else if Dec(n - 1) == token then Some(n - 1)
    else IndexToken(token, n - 1)
  }

  function Eval(j: Json, tokens: seq<string>): Option<Json>
    decreases |tokens|
  {
    if tokens == [] then Some(j)
    else match j
      case Obj(fields) => if tokens[0] in fields then Eval(fields[tokens[0]], tokens[1..]) else None
      case Arr(items) =>
        var i := IndexToken(tokens[0], |items|);
        if i.Some? then Eval(items[i.value], tokens[1..]) else None
      case _ => None
  }

  function Resolve(document: Json, reference: string): Option<Json>
  {
    match Tokens(reference)
    case None => None
    case Some(tokens) => Eval(document, tokens)
  }

  /** A name a reference can spell as it is. */
  predicate Plain(name: string) { '/' !in name && '~' !in name && '%' !in name }

  /** A path of names as a reference spells it, unescaped. */
  function Spelled(path: seq<string>): string
    requires path != []
  {
    if |path| == 1 then path[0] else path[0] + "/" + Spelled(path[1..])
  }

  function RefTo(path: seq<string>): string
    requires path != []
  {
    "#/" + Spelled(path)
  }

  lemma SpelledTwo(a: string, b: string)
    ensures Spelled([a, b]) == a + "/" + b
  {
    assert [a, b][1..] == [b];
  }

  lemma SpelledThree(a: string, b: string, c: string)
    ensures Spelled([a, b, c]) == a + "/" + b + "/" + c
  {
    SpelledTwo(b, c);
    assert [a, b, c][1..] == [b, c];
    assert a + "/" + (b + "/" + c) == a + "/" + b + "/" + c;
  }

  lemma SpelledFour(a: string, b: string, c: string, d: string)
    ensures Spelled([a, b, c, d]) == a + "/" + b + "/" + c + "/" + d
  {
    SpelledThree(b, c, d);
    assert [a, b, c, d][1..] == [b, c, d];
    assert a + "/" + (b + "/" + c + "/" + d) == a + "/" + b + "/" + c + "/" + d;
  }

  predicate AllPlain(path: seq<string>)
  {
    forall i | 0 <= i < |path| :: Plain(path[i])
  }

  lemma {:induction false} SplitSpelled(path: seq<string>)
    requires path != [] && forall i | 0 <= i < |path| :: '/' !in path[i]
    ensures Split(Spelled(path)) == path
    decreases |path|
  {
    SplitWhole(path[0]);
    if |path| == 1 {
      assert path == [path[0]];
    } else {
      SplitJoined(path[0], Spelled(path[1..]));
      SplitSpelled(path[1..]);
      assert path == [path[0]] + path[1..];
    }
  }

  /** Splitting loses nothing: its parts have no slash, and spelled out they are the text. */
  lemma {:induction false} SpelledSplit(s: string)
    ensures Spelled(Split(s)) == s
    ensures forall i | 0 <= i < |Split(s)| :: '/' !in Split(s)[i]
  {
    if s != [] {
      SpelledSplit(s[1..]);
      var rest := Split(s[1..]);
      assert s == [s[0]] + s[1..];
      if s[0] == '/' {
        assert ([[]] + rest)[1..] == rest;
      } else {
        assert Prefixed(s[0], rest)[1..] == rest[1..];
      }
    }
  }

  /** Tokens are never longer than the parts they are read from, and shorter where one is escaped. */
  lemma {:induction false} SpelledShorter(parts: seq<string>, tokens: seq<string>)
    requires parts != [] && |parts| == |tokens|
    requires forall i | 0 <= i < |parts| :: Unescaped(parts[i]) == Some(tokens[i])
    ensures |Spelled(tokens)| <= |Spelled(parts)|
    ensures |Spelled(tokens)| == |Spelled(parts)| ==> tokens == parts
    decreases |parts|
  {
    UnescapedExactly(parts[0]);
    if |parts| == 1 {
      assert tokens == [tokens[0]] && parts == [parts[0]];
    } else {
      SpelledShorter(parts[1..], tokens[1..]);
      assert tokens == [tokens[0]] + tokens[1..] && parts == [parts[0]] + parts[1..];
    }
  }

  lemma {:induction false} SpelledHolds(path: seq<string>, c: char)
    requires path != [] && c != '/'
    ensures c in Spelled(path) <==> exists i :: 0 <= i < |path| && c in path[i]
    decreases |path|
  {
    if |path| > 1 {
      SpelledHolds(path[1..], c);
      assert forall i | 0 < i < |path| :: path[i] == path[1..][i - 1];
    }
  }

  /** A reference written without escaping denotes the path it spells exactly when no name on it
      holds a slash, a tilde or a percent sign. */
  lemma SpelledDenotes(path: seq<string>)
    requires path != []
    ensures Tokens(RefTo(path)) == Some(path) <==> AllPlain(path)
  {
    var reference, text := RefTo(path), Spelled(path);
    assert reference[..2] == "#/" && reference[2..] == text;
    PercentDecodedExactly(text);
    SpelledHolds(path, '%');
    if Tokens(reference) == Some(path) {
      var pointer := PercentDecoded(text).value;
      SpelledSplit(pointer);
      SpelledShorter(Split(pointer), path);
      assert Split(pointer) == path;
      forall i | 0 <= i < |path| ensures Plain(path[i]) {
        UnescapedExactly(path[i]);
      }
    }
    if AllPlain(path) {
      assert forall i | 0 <= i < |path| :: Plain(path[i]);
      SplitSpelled(path);
      forall i | 0 <= i < |path| ensures Unescaped(path[i]) == Some(path[i]) {
        UnescapedExactly(path[i]);
      }
      assert AllUnescaped(path).Some? && AllUnescaped(path).value == path;
    }
  }

  // What a reference could spell

  /** A name as a reference token in a URI fragment spells it. */
  function Escaped(name: string): string
  {
    if name == [] then [] else EscapedChar(name[0]) + Escaped(name[1..])
  }

  function EscapedChar(c: char): string
  {
    if c == '~' then "~0" else if c == '/' then "~1" else if c == '%' then "%25" else [c]
  }

  function AllEscaped(path: seq<string>): seq<string>
  {
    seq(|path|, i requires 0 <= i < |path| => Escaped(path[i]))
  }

  /** The token between the two readings: percent signs are themselves again. */
  function Tilded(name: string): string
  {
    if name == [] then []
    else TildedChar(name[0]) + Tilded(name[1..])
  }

  function TildedChar(c: char): string
  {
    if c == '~' then "~0" else if c == '/' then "~1" else [c]
  }

  lemma {:induction false} TildedReads(name: string)
    ensures Unescaped(Tilded(name)) == Some(name) && '/' !in Tilded(name)
  {
    if name != [] {
      TildedReads(name[1..]);
      var t := Tilded(name);
      assert name == [name[0]] + name[1..];
      if name[0] == '~' || name[0] == '/' {
        assert t[0] == '~' && t[2..] == Tilded(name[1..]);
      } else {
        assert t[0] == name[0] && t[1..] == Tilded(name[1..]);
      }
    }
  }

  lemma PlainDecodes(c: char, rest: string, decoded: string)
    requires c != '%' && PercentDecoded(rest) == Some(decoded)
    ensures PercentDecoded([c] + rest) == Some([c] + decoded)
  {
    assert ([c] + rest)[1..] == rest;
  }

  lemma PercentDecodes(rest: string, decoded: string)
    requires PercentDecoded(rest) == Some(decoded)
    ensures PercentDecoded("%25" + rest) == Some("%" + decoded)
  {
    var s := "%25" + rest;
    assert s[0] == '%' && s[1] == '2' && s[2] == '5' && s[3..] == rest;
    assert HexValue('2') == Some(2) && HexValue('5') == Some(5) && 37 as char == '%';
    assert HexPair(s[1], s[2]) == Some('%');
  }

  /** Put before what can be read, the text reads as that meaning. */
  ghost predicate ReadsAs(read: string -> Option<string>, text: string, meaning: string)
  {
    forall rest, after | read(rest) == Some(after) :: read(text + rest) == Some(meaning + after)
  }

  lemma ReadsInTurn(read: string -> Option<string>, a: string, b: string, x: string, y: string)
    requires ReadsAs(read, a, x) && ReadsAs(read, b, y)
    ensures ReadsAs(read, a + b, x + y)
  {
    forall rest, after | read(rest) == Some(after) ensures read(a + b + rest) == Some(x + y + after) {
      assert a + b + rest == a + (b + rest) && x + y + after == x + (y + after);
    }
  }

  lemma PlainReads(c: char)
    requires c != '%'
    ensures ReadsAs(PercentDecoded, [c], [c])
  {
    forall rest, after | PercentDecoded(rest) == Some(after)
      ensures PercentDecoded([c] + rest) == Some([c] + after)
    {
      PlainDecodes(c, rest, after);
    }
  }

  lemma PercentReads()
    ensures ReadsAs(PercentDecoded, "%25", "%")
  {
    forall rest, after | PercentDecoded(rest) == Some(after)
      ensures PercentDecoded("%25" + rest) == Some("%" + after)
    {
      PercentDecodes(rest, after);
    }
  }

  lemma CharDecodes(c: char)
    ensures ReadsAs(PercentDecoded, EscapedChar(c), TildedChar(c))
  {
    if c == '%' {
      PercentReads();
    } else if c == '~' || c == '/' {
      var digit := if c == '~' then '0' else '1';
      PlainReads('~');
      PlainReads(digit);
      ReadsInTurn(PercentDecoded, ['~'], [digit], ['~'], [digit]);
      assert ['~'] + [digit] == EscapedChar(c) == TildedChar(c);
    } else {
      PlainReads(c);
    }
  }

  lemma {:induction false} EscapedDecodes(name: string)
    ensures ReadsAs(PercentDecoded, Escaped(name), Tilded(name))
  {
    if name == [] {
      assert forall rest: string :: [] + rest == rest;
    } else {
      CharDecodes(name[0]);
      EscapedDecodes(name[1..]);
      ReadsInTurn(PercentDecoded, EscapedChar(name[0]), Escaped(name[1..]), TildedChar(name[0]), Tilded(name[1..]));
    }
  }

  function AllTilded(path: seq<string>): seq<string>
  {
    seq(|path|, i requires 0 <= i < |path| => Tilded(path[i]))
  }

  lemma {:induction false} SpelledDecodes(path: seq<string>)
    requires path != []
    ensures ReadsAs(PercentDecoded, Spelled(AllEscaped(path)), Spelled(AllTilded(path)))
    decreases |path|
  {
    EscapedDecodes(path[0]);
    if |path| > 1 {
      SpelledDecodes(path[1..]);
      assert AllEscaped(path)[1..] == AllEscaped(path[1..]) && AllTilded(path)[1..] == AllTilded(path[1..]);
      PlainReads('/');
      ReadsInTurn(PercentDecoded, Escaped(path[0]), "/", Tilded(path[0]), "/");
      ReadsInTurn(PercentDecoded, Escaped(path[0]) + "/", Spelled(AllEscaped(path[1..])),
                  Tilded(path[0]) + "/", Spelled(AllTilded(path[1..])));
    }
  }

  /** With its names escaped a reference denotes its path, whatever the names. */
  lemma EscapedDenotes(path: seq<string>)
    requires path != []
    ensures Tokens(RefTo(AllEscaped(path))) == Some(path)
  {
    var reference := RefTo(AllEscaped(path));
    assert reference[..2] == "#/" && reference[2..] == Spelled(AllEscaped(path));
    SpelledDecodes(path);
    assert PercentDecoded("") == Some("");
    assert Spelled(AllEscaped(path)) + "" == Spelled(AllEscaped(path));
    assert Spelled(AllTilded(path)) + "" == Spelled(AllTilded(path));
    forall i | 0 <= i < |path| ensures Unescaped(AllTilded(path)[i]) == Some(path[i]) && '/' !in AllTilded(path)[i] {
      TildedReads(path[i]);
    }
    SplitSpelled(AllTilded(path));
    var tokens := AllUnescaped(AllTilded(path));
    assert tokens.Some? && tokens.value == path;
  }
}
