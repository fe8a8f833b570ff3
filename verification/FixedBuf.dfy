/** The byte buffer of a build without `alloc` (crates/core/src/fixed_buf.rs), and the encode
    scratch a dispatch loop reuses for every message (crates/core/src/form.rs). */
module FixedBuf {
  import opened Prelude

  function Concat(pieces: seq<Bytes>): Bytes
  {
    if pieces == [] then [] else pieces[0] + Concat(pieces[1..])
  }

  /** A bounded append: the bytes join when they fit, and change nothing when they do not. */
  function Appended(held: Bytes, more: Bytes, capacity: nat): Bytes
  {
    if |held| + |more| <= capacity then held + more else held
  }

  /** A formatted write: the pieces in turn, up to the first one refused. */
  function Formatted(held: Bytes, pieces: seq<Bytes>, capacity: nat): (r: (Bytes, bool))
    requires |held| <= capacity
    ensures |r.0| <= capacity
    decreases |pieces|
  {
    if pieces == [] then (held, true)
    else if |held| + |pieces[0]| <= capacity then Formatted(held + pieces[0], pieces[1..], capacity)
    else (held, false)
  }

  /** A formatted write succeeds exactly when the whole text fits, and then holds the whole text;
      refused, it keeps the pieces before the first that did not fit: a strict prefix, not what
      was there before. */
  lemma {:induction false} FormattedExactly(held: Bytes, pieces: seq<Bytes>, capacity: nat)
    requires |held| <= capacity
    ensures
      var (r, ok) := Formatted(held, pieces, capacity);
      && (ok <==> |held| + |Concat(pieces)| <= capacity)
      && (ok ==> r == held + Concat(pieces))
      && (!ok ==> exists k :: 0 <= k < |pieces| && r == held + Concat(pieces[..k]) && |r| + |pieces[k]| > capacity)
    decreases |pieces|
  {
    if pieces == [] {
    } else if |held| + |pieces[0]| <= capacity {
      FormattedExactly(held + pieces[0], pieces[1..], capacity);
      var (r, ok) := Formatted(held, pieces, capacity);
      if ok {
        assert held + pieces[0] + Concat(pieces[1..]) == held + Concat(pieces);
      } else {
        var k :| 0 <= k < |pieces[1..]| && r == held + pieces[0] + Concat(pieces[1..][..k])
                 && |r| + |pieces[1..][k]| > capacity;
        assert pieces[..k + 1][1..] == pieces[1..][..k];
        assert held + Concat(pieces[..k + 1]) == r;
      }
    } else {
      assert pieces[..0] == [] && held + [] == held;
    }
  }

  /** A slice encoder: the room it is given in, the room it leaves and the length it reports
      out, `None` where it fails. */
  type Encoder = Bytes -> (Bytes, Option<nat>)

  ghost predicate KeepsRoom(write: Encoder)
  {
    forall room :: |write(room).0| == |room|
  }

  /** What is kept of the room an encoder leaves: the bytes up to the length it reports, no further
      than the room, or nothing where it fails, for whatever reason. */
  function KeptLength(left: (Bytes, Option<nat>)): (n: nat)
    ensures n <= |left.0|
  {
    if left.1.Some? then Min(left.1.value, |left.0|) else 0
  }

  function Kept(left: (Bytes, Option<nat>)): Bytes
  {
    left.0[..KeptLength(left)]
  }

  datatype Op =
    | Append(bytes: Bytes)
    | Clear
    | WriteWith(write: Encoder)
    | Format(pieces: seq<Bytes>)

  /** A slice cannot change its length, whatever the encoder writes into it. */
  ghost predicate AllKeepRoom(ops: seq<Op>)
  {
    forall i | 0 <= i < |ops| :: ops[i].WriteWith? ==> KeepsRoom(ops[i].write)
  }

  /** The bytes held and, behind them, the rest of the room with what earlier writes left there. */
  datatype Held = Held(contents: Bytes, rest: Bytes) {
    function Room(): Bytes { contents + rest }

    function With(more: Bytes): Held
    {
      if |more| <= |rest| then Held(contents + more, rest[|more|..]) else this
    }

    function WithAll(pieces: seq<Bytes>): Held
      decreases |pieces|
    {
      if pieces == [] || |pieces[0]| > |rest| then this else With(pieces[0]).WithAll(pieces[1..])
    }

    function Performed(op: Op): Held
    {
      match op
      case Append(bytes) => With(bytes)
      case Clear => Held([], Room())
      case WriteWith(write) =>
        var left := write(Room());
        Held(left.0[..KeptLength(left)], left.0[KeptLength(left)..])
      case Format(pieces) => WithAll(pieces)
    }

    function Ran(ops: seq<Op>): Held
      decreases |ops|
    {
      if ops == [] then this else Ran(ops[..|ops| - 1]).Performed(ops[|ops| - 1])
    }
  }

  // The bounded byte sequence

  /** What the encoder keeps does not depend on the bytes it finds in the room. */
  ghost predicate IgnoresRoom(write: Encoder)
  {
    forall a, b | |a| == |b| :: Kept(write(a)) == Kept(write(b))
  }

  ghost predicate AllIgnoreRoom(ops: seq<Op>)
  {
    forall i | 0 <= i < |ops| :: ops[i].WriteWith? ==> IgnoresRoom(ops[i].write)
  }

  function Zeros(capacity: nat): Bytes
  {
    seq(capacity, _ => 0)
  }

  /** One operation on the bounded byte sequence alone; an encoder writes into an empty room. */
  function Bounded(held: Bytes, op: Op, capacity: nat): Bytes
    requires |held| <= capacity
  {
    match op
    case Append(bytes) => Appended(held, bytes, capacity)
    case Clear => []
    case WriteWith(write) => Kept(write(Zeros(capacity)))
    case Format(pieces) => Formatted(held, pieces, capacity).0
  }

  /** An encoder write on the bounded sequence: what the encoder left in an empty room, up to the
      length it reports and no further than the room, and nothing where it fails. */
  lemma BoundedWrite(held: Bytes, write: Encoder, capacity: nat)
    requires |held| <= capacity && KeepsRoom(write)
    ensures
      var (room, reported) := write(Zeros(capacity));
      var after := Bounded(held, Op.WriteWith(write), capacity);
      && (reported.None? ==> after == [])
      && (reported.Some? && reported.value <= capacity ==> after == room[..reported.value])
      && (reported.Some? && reported.value > capacity ==> after == room)
      && |Zeros(capacity)| == capacity && forall i | 0 <= i < capacity :: Zeros(capacity)[i] == 0
  {
    var (room, reported) := write(Zeros(capacity));
    assert room[..|room|] == room;
  }

  /** An encoder that writes `text` from the start of a room that holds it and says so leaves just
      that, and one that fails leaves nothing, whatever was held and whatever else is in the room. */
  lemma EncodedIsHeld(h: Held, write: Encoder, text: Bytes)
    requires KeepsRoom(write)
    ensures
      var (room, reported) := write(h.Room());
      && (reported.None? ==> h.Performed(Op.WriteWith(write)).contents == [])
      && (text <= room && reported == Some(|text|) ==> h.Performed(Op.WriteWith(write)).contents == text)
  {
  }

  lemma {:induction false} WithAllIsFormatted(h: Held, pieces: seq<Bytes>)
    ensures var all := h.WithAll(pieces);
      all.contents == Formatted(h.contents, pieces, |h.Room()|).0 && |all.Room()| == |h.Room()|
    decreases |pieces|
  {
    if pieces != [] && |pieces[0]| <= |h.rest| {
      WithAllIsFormatted(h.With(pieces[0]), pieces[1..]);
    }
  }

  lemma PerformedIsBounded(h: Held, op: Op)
    requires op.WriteWith? ==> KeepsRoom(op.write)
    ensures |h.Performed(op).Room()| == |h.Room()|
    ensures (op.WriteWith? ==> IgnoresRoom(op.write)) ==>
      h.Performed(op).contents == Bounded(h.contents, op, |h.Room()|)
  {
    if op.Format? {
      WithAllIsFormatted(h, op.pieces);
    } else if op.WriteWith? && IgnoresRoom(op.write) {
      assert Kept(op.write(h.Room())) == Kept(op.write(Zeros(|h.Room()|)));
    }
  }

  ghost predicate Follows(contents: seq<Bytes>, ops: seq<Op>, capacity: nat)
  {
    && |contents| == |ops| + 1
    && (forall i | 0 <= i < |contents| :: |contents[i]| <= capacity)
    && forall i | 0 <= i < |ops| :: contents[i + 1] == Bounded(contents[i], ops[i], capacity)
  }

  lemma FollowsNext(before: seq<Bytes>, ops: seq<Op>, op: Op, after: Bytes, capacity: nat)
    requires Follows(before, ops, capacity) && |after| <= capacity
    requires after == Bounded(before[|ops|], op, capacity)
    ensures Follows(before + [after], ops + [op], capacity)
  {
    var contents := before + [after];
    forall i | 0 <= i < |ops + [op]| ensures contents[i + 1] == Bounded(contents[i], (ops + [op])[i], capacity) {
      assert i < |ops| ==> (ops + [op])[i] == ops[i] && contents[i + 1] == before[i + 1];
    }
  }

  /** Where no encoder looks at what it finds in the room, the contents of any run are those of the
      bounded byte sequence under the same operations. */
  lemma {:induction false} RanIsBounded(h: Held, ops: seq<Op>) returns (contents: seq<Bytes>)
    requires AllKeepRoom(ops) && AllIgnoreRoom(ops)
    ensures Follows(contents, ops, |h.Room()|) && contents[0] == h.contents
    ensures contents[|ops|] == h.Ran(ops).contents && |h.Ran(ops).Room()| == |h.Room()|
    decreases |ops|
  {
    contents := [h.contents];
    if ops != [] {
      var n := |ops| - 1;
      var before := RanIsBounded(h, ops[..n]);
      PerformedIsBounded(h.Ran(ops[..n]), ops[n]);
      FollowsNext(before, ops[..n], ops[n], h.Ran(ops).contents, |h.Room()|);
      assert ops[..n] + [ops[n]] == ops;
      contents := before + [h.Ran(ops).contents];
    }
  }

  /** ... and an encoder that does look leaves contents that the bytes held do not determine. */
  lemma IgnoringExactly(write: Encoder)
    ensures IgnoresRoom(write) <==>
      forall g: Held, h: Held | g.contents == h.contents && |g.rest| == |h.rest| ::
        g.Performed(WriteWith(write)).contents == h.Performed(WriteWith(write)).contents
  {
    if !IgnoresRoom(write) {
      var a, b :| |a| == |b| && Kept(write(a)) != Kept(write(b));
      assert Held([], a).Room() == a && Held([], b).Room() == b;
      assert Held([], a).Performed(WriteWith(write)).contents != Held([], b).Performed(WriteWith(write)).contents;
    }
  }

  class FixedBuf {
    var len: nat
    const bytes: array<byte>

    ghost predicate Valid()
      reads this
    {
      len <= bytes.Length
    }

    function Contents(): Bytes
      requires Valid()
      reads this, bytes
    {
      bytes[..len]
    }

    function View(): Held
      requires Valid()
      reads this, bytes
    {
      Held(bytes[..len], bytes[len..])
    }

    constructor New(capacity: nat)
      ensures Valid() && fresh(bytes) && bytes.Length == capacity && Contents() == []
    {
      len, bytes := 0, new byte[capacity](_ => 0);
    }

    method Clear()
      requires Valid()
      modifies `len
      ensures Valid() && View() == Held([], old(View()).Room()) && Contents() == []
    {
      assert bytes[0..] == bytes[..len] + bytes[len..];
      len := 0;
    }

    method ExtendFromSlice(more: Bytes) returns (ok: bool)
      requires Valid()
      modifies `len, bytes
      ensures Valid() && View() == old(View()).With(more)
      ensures Contents() == Appended(old(Contents()), more, bytes.Length)
      ensures ok <==> |old(Contents())| + |more| <= bytes.Length
    {
      var end := len + |more|;
      if end > bytes.Length {
        return false;
      }
      forall i | 0 <= i < |more| {
        bytes[len + i] := more[i];
      }
      assert bytes[..end] == old(bytes[..len]) + more;
      assert bytes[end..] == old(bytes[len..])[|more|..];
      len := end;
      ok := true;
    }

    /** The contents become what `write` leaves in the room, up to the length it reports and no
        further than the room; a failed write empties the buffer. */
    method WriteWith(write: Encoder) returns (written: Option<nat>)
      requires Valid() && KeepsRoom(write)
      modifies `len, bytes
      ensures Valid() && View() == old(View()).Performed(Op.WriteWith(write))
      ensures var (room, reported) := write(old(bytes[..]));
        && bytes[..] == room
        && (reported.None? ==> written == None && Contents() == [])
        && (reported.Some? ==> written == Some(|Contents()|))
        && (reported.Some? && reported.value <= bytes.Length ==> Contents() == room[..reported.value])
        && (reported.Some? && reported.value > bytes.Length ==> Contents() == room)
    {
      len := 0;
      assert bytes[..] == old(View()).Room();
      var (room, reported) := write(bytes[..]);
      forall i | 0 <= i < bytes.Length {
        bytes[i] := room[i];
      }
      assert bytes[..] == room;
      match reported {
        case None => written := None;
        case Some(n) =>
          len := Min(n, bytes.Length);
          written := Some(len);
      }
    }

    /** `write!` into the buffer: one `write_str` per piece. */
    method WritePieces(pieces: seq<Bytes>) returns (ok: bool)
      requires Valid()
      modifies `len, bytes
      ensures Valid() && View() == old(View()).WithAll(pieces)
      ensures (Contents(), ok) == Formatted(old(Contents()), pieces, bytes.Length)
    {
      for i := 0 to |pieces|
        invariant Valid() && View().WithAll(pieces[i..]) == old(View()).WithAll(pieces)
        invariant Formatted(Contents(), pieces[i..], bytes.Length) == Formatted(old(Contents()), pieces, bytes.Length)
      {
        assert pieces[i..][1..] == pieces[i + 1..];
        ok := ExtendFromSlice(pieces[i]);
        if !ok {
          return;
        }
      }
      ok := true;
    }

    method Perform(op: Op)
      requires Valid() && (op.WriteWith? ==> KeepsRoom(op.write))
      modifies `len, bytes
      ensures Valid() && View() == old(View()).Performed(op)
    {
      match op {
        case Append(more) => var _ := ExtendFromSlice(more);
        case Clear => Clear();
        case WriteWith(write) => var _ := WriteWith(write);
        case Format(pieces) => var _ := WritePieces(pieces);
      }
    }

    /** The buffer under any run of operations is the bytes held and the rest of the room under the
        same run. */
    method Run(ops: seq<Op>)
      requires Valid() && AllKeepRoom(ops)
      modifies `len, bytes
      ensures Valid() && View() == old(View()).Ran(ops)
    {
      for i := 0 to |ops|
        invariant Valid() && View() == old(View()).Ran(ops[..i])
      {
        assert ops[..i + 1][..i] == ops[..i];
        Perform(ops[i]);
      }
      assert ops[..|ops|] == ops;
    }
  }

  // The encode scratch

  /** A value's encoding: what its encoder appends, and whether the encoder then succeeds. */
  datatype Encoding = Encoding(pieces: seq<Bytes>, accepted: bool)

  /** Where a value's bytes are: written into the buffer it is handed, or its own. */
  datatype Wire = InBuffer(encoding: Encoding) | Own(bytes: Bytes)

  /** The bytes a value publishes, where its encoder does not reject it. */
  function WireText(value: Wire): Option<Bytes>
  {
    match value
    case Own(bytes) => Some(bytes)
    case InBuffer(e) => if e.accepted then Some(Concat(e.pieces)) else None
  }

  /** The value's own bytes are lent as they are; those written must be accepted and fit. */
  predicate Lendable(value: Wire, capacity: nat)
  {
    value.Own? || (value.encoding.accepted && |Concat(value.encoding.pieces)| <= capacity)
  }

  /** ... in a buffer of its own. */
  function TakenText(value: Wire, capacity: nat): Option<Bytes>
  {
    if WireText(value).Some? && |WireText(value).value| <= capacity then WireText(value) else None
  }

  method EncodeInto(e: Encoding, buf: FixedBuf) returns (ok: bool)
    requires buf.Valid() && buf.Contents() == []
    modifies buf`len, buf.bytes
    ensures buf.Valid()
    ensures ok <==> e.accepted && |Concat(e.pieces)| <= buf.bytes.Length
    ensures ok ==> buf.Contents() == Concat(e.pieces)
  {
    FormattedExactly([], e.pieces, buf.bytes.Length);
    ok := buf.WritePieces(e.pieces);
    ok := ok && e.accepted;
  }

  /** The lending form of one value: the scratch is emptied, written and lent; a value's own
      bytes are lent as they are, past the scratch's room too. */
  method LendValue(value: Wire, scratch: FixedBuf) returns (lent: Option<Bytes>)
    requires scratch.Valid()
    modifies scratch`len, scratch.bytes
    ensures scratch.Valid()
    ensures lent == if Lendable(value, scratch.bytes.Length) then WireText(value) else None
  {
    scratch.Clear();
    match value {
      case Own(bytes) => lent := Some(bytes);
      case InBuffer(e) =>
        var ok := EncodeInto(e, scratch);
        lent := if ok then Some(scratch.Contents()) else None;
    }
  }

  /** The taking form: a buffer of the message's own, which bytes the value holds must fit too. */
  method TakeValue(value: Wire, capacity: nat) returns (taken: Option<Bytes>)
    ensures taken == TakenText(value, capacity)
  {
    var buf := new FixedBuf.New(capacity);
    match value {
      case Own(bytes) =>
        var ok := buf.ExtendFromSlice(bytes);
        assert [] + bytes == bytes;
        taken := if ok then Some(buf.Contents()) else None;
      case InBuffer(e) =>
        var ok := EncodeInto(e, buf);
        taken := if ok then Some(buf.Contents()) else None;
    }
  }

  /** One scratch over a whole batch: what each message is lent is the encoding of its own value
      and nothing of the values before it, and it is what the taking form would hand over
      wherever both succeed. */
  method LendBatch(values: seq<Wire>, scratch: FixedBuf, capacity: nat)
    returns (lent: seq<Option<Bytes>>, taken: seq<Option<Bytes>>)
    requires scratch.Valid()
    modifies scratch`len, scratch.bytes
    ensures |lent| == |taken| == |values|
    ensures forall i | 0 <= i < |values| :: lent[i].Some? ==> lent[i] == WireText(values[i])
    ensures forall i | 0 <= i < |values| :: taken[i] == TakenText(values[i], capacity)
    ensures forall i | 0 <= i < |values| :: lent[i].Some? && taken[i].Some? ==> lent[i] == taken[i]
    ensures forall i | 0 <= i < |values| :: lent[i].Some? <==> Lendable(values[i], scratch.bytes.Length)
  {
    lent, taken := [], [];
    for i := 0 to |values|
      invariant scratch.Valid() && |lent| == |taken| == i
      invariant forall j | 0 <= j < i :: lent[j].Some? ==> lent[j] == WireText(values[j])
      invariant forall j | 0 <= j < i :: taken[j] == TakenText(values[j], capacity)
      invariant forall j | 0 <= j < i :: lent[j].Some? <==> Lendable(values[j], scratch.bytes.Length)
    {
      var l := LendValue(values[i], scratch);
      var t := TakeValue(values[i], capacity);
      lent, taken := lent + [l], taken + [t];
    }
  }
}
