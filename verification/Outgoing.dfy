/** The message the publish path carries (crates/core/src/outgoing.rs) over an explicit memory:
    lent bytes are an address and a length, so which buffer a byte lives in can be stated. */
module Outgoing {
  import opened Prelude

  /** A destination name, as its UTF-8 bytes. */
  type Name = seq<byte>
  type Headers = map<string, Bytes>

  // Memory

  /** The live bytes, by address. */
  type Memory = map<nat, byte>

  datatype Slice = Slice(addr: nat, len: nat)

  /** `&[]`: no bytes, at whatever address the compiler gives an empty slice. */
  const EMPTY := Slice(1, 0)

  predicate Readable(mem: Memory, s: Slice)
  {
    forall k | s.addr <= k < s.addr + s.len :: k in mem
  }

  function Read(mem: Memory, s: Slice): (bytes: Bytes)
    requires Readable(mem, s)
    ensures |bytes| == s.len
  {
    seq(s.len, i requires 0 <= i < s.len => mem[s.addr + i])
  }

  predicate Free(mem: Memory, at: nat, n: nat)
  {
    forall k | at <= k < at + n :: k !in mem
  }

  /** `mem` with `bytes` stored from `at` on. */
  function Place(mem: Memory, at: nat, bytes: Bytes): (r: Memory)
  {
    mem + map k | at <= k < at + |bytes| :: ByteAt(bytes, at, k)
  }

  function ByteAt(bytes: Bytes, at: nat, k: nat): byte
    requires at <= k < at + |bytes|
  {
    bytes[k - at]
  }

  /** What was live stays live and holds what it held. */
  ghost predicate Preserves(before: Memory, after: Memory)
  {
    forall k <- before :: k in after && after[k] == before[k]
  }

  lemma PlaceReads(mem: Memory, at: nat, bytes: Bytes)
    ensures Readable(Place(mem, at, bytes), Slice(at, |bytes|))
    ensures Read(Place(mem, at, bytes), Slice(at, |bytes|)) == bytes
    ensures Free(mem, at, |bytes|) ==> Preserves(mem, Place(mem, at, bytes))
  {
  }

  // What the build gives an owned buffer: `BytesMut` grows, a `FixedBuf` has a room.

  datatype Room = Unbounded | Capped(n: nat)

  predicate Fits(room: Room, n: nat)
  {
    room.Capped? ==> n <= room.n
  }

  // The message

  datatype OutgoingName = Borrowed(name: Name) | Owned(name: Name) | Shared(name: Name)

  datatype Payload = Lent(slice: Slice) | OwnedBuf(buf: Bytes) | Consumed

  /** A message as its reader sees it: the plain record every representation stands for. */
  datatype Plain = Plain(name: Name, bytes: Bytes, headers: Headers)

  /** One thing a stage does to the message: any write through `payload_mut`, any edit through
      `headers_mut`. */
  datatype Edit =
    | SetName(to: OutgoingName)
    | Write(change: Bytes -> Bytes)
    | SetPayload(payload: Bytes)
    | EditHeaders(revise: Headers -> Headers)
    | Consume

  predicate WellFormed(edits: seq<Edit>, room: Room)
  {
    forall i | 0 <= i < |edits| :: edits[i].SetPayload? ==> Fits(room, |edits[i].payload|)
  }

  /** Whose the bytes are: still the lender's, a buffer of the pipeline's own, or gone. */
  datatype Hold = Carried | Kept | Gone

  datatype Track = Track(plain: Plain, hold: Hold)

  /** The plain meaning of an edit. A write is refused where the bytes it starts from or ends
      with do not fit a buffer, and a refused write changes nothing. */
  function Amended(p: Plain, e: Edit, room: Room): Plain
  {
    match e
    case SetName(to) => p.(name := to.name)
    case Write(change) =>
      if Fits(room, |p.bytes|) && Fits(room, |change(p.bytes)|) then p.(bytes := change(p.bytes)) else p
    case SetPayload(payload) => p.(bytes := payload)
    case EditHeaders(revise) => p.(headers := revise(p.headers))
    case Consume => p.(bytes := [], headers := map[])
  }

  function AmendedBy(p: Plain, edits: seq<Edit>, room: Room): Plain
    decreases |edits|
  {
    if edits == [] then p else AmendedBy(Amended(p, edits[0], room), edits[1..], room)
  }

  /** The same, with who holds the bytes after it: reaching for the buffer makes it the
      message's own whether or not the write then fits. */
  function Edited(t: Track, e: Edit, room: Room): Track
  {
    Track(Amended(t.plain, e, room),
          match e
          case Write(_) => if Fits(room, |t.plain.bytes|) then Kept else t.hold
          case SetPayload(_) => Kept
          case Consume => Gone
          case _ => t.hold)
  }

  function EditedBy(t: Track, edits: seq<Edit>, room: Room): Track
    decreases |edits|
  {
    if edits == [] then t else EditedBy(Edited(t, edits[0], room), edits[1..], room)
  }

  // What a run of edits comes to, by the edits alone

  ghost predicate NoneAfter(edits: seq<Edit>, i: int, kind: EditKind)
  {
    forall j | i < j < |edits| && 0 <= j :: !Is(edits[j], kind)
  }

  /** What an edit starts over: the name, the headers or the payload; or it writes to the payload. */
  datatype EditKind = Naming | Clearing | Replacing | Writing

  predicate Is(e: Edit, kind: EditKind)
  {
    match kind
    case Naming => e.SetName?
    case Clearing => e.Consume?
    case Replacing => e.SetPayload? || e.Consume?
    case Writing => e.Write?
  }

  ghost predicate LastOf(edits: seq<Edit>, i: nat, kind: EditKind)
  {
    i < |edits| && Is(edits[i], kind) && NoneAfter(edits, i, kind)
  }

  /** The name of the last edit that sets one, else the name before. */
  ghost predicate NameComes(before: Name, edits: seq<Edit>, after: Name)
  {
    || (NoneAfter(edits, -1, Naming) && after == before)
    || exists i: nat :: LastOf(edits, i, Naming) && after == edits[i].to.name
  }

  /** The header edits of a run, in order. */
  function Revised(headers: Headers, edits: seq<Edit>): Headers
    decreases |edits|
  {
    if edits == [] then headers
    else Revised(if edits[0].EditHeaders? then edits[0].revise(headers) else headers, edits[1..])
  }

  /** The header edits after the last edit that consumes the message, from no headers, or all of
      them from the headers before. */
  ghost predicate HeadersCome(before: Headers, edits: seq<Edit>, after: Headers)
  {
    || (NoneAfter(edits, -1, Clearing) && after == Revised(before, edits))
    || exists i: nat :: LastOf(edits, i, Clearing) && after == Revised(map[], edits[i + 1..])
  }

  /** The writes of a run that start from and end with bytes that fit, in order. */
  function Rewritten(bytes: Bytes, edits: seq<Edit>, room: Room): Bytes
    decreases |edits|
  {
    if edits == [] then bytes
    else if edits[0].Write? && Fits(room, |bytes|) && Fits(room, |edits[0].change(bytes)|) then
      Rewritten(edits[0].change(bytes), edits[1..], room)
    else Rewritten(bytes, edits[1..], room)
  }

  /** What a replacing edit puts in place. */
  function Replacement(e: Edit): Bytes
  {
    if e.SetPayload? then e.payload else []
  }

  ghost predicate ReplacedAt(edits: seq<Edit>, i: nat, room: Room, after: Bytes)
  {
    LastOf(edits, i, Replacing) && after == Rewritten(Replacement(edits[i]), edits[i + 1..], room)
  }

  /** The writes after the last edit that replaces the payload or consumes it, from what that edit
      leaves, or all of them from the bytes before. */
  ghost predicate BytesCome(before: Bytes, edits: seq<Edit>, room: Room, after: Bytes)
  {
    || (NoneAfter(edits, -1, Replacing) && after == Rewritten(before, edits, room))
    || exists i: nat :: ReplacedAt(edits, i, room, after)
  }

  ghost predicate Comes(before: Plain, edits: seq<Edit>, room: Room, after: Plain)
  {
    && NameComes(before.name, edits, after.name)
    && HeadersCome(before.headers, edits, after.headers)
    && BytesCome(before.bytes, edits, room, after.bytes)
  }

  /** The last edit that replaces or consumes the payload consumes it, and nothing is written after. */
  ghost predicate LeavesConsumed(edits: seq<Edit>)
  {
    exists i: nat :: LastOf(edits, i, Replacing) && edits[i].Consume? && NoneAfter(edits, i, Writing)
  }

  ghost predicate LeavesAlone(edits: seq<Edit>, kind: EditKind)
  {
    NoneAfter(edits, -1, kind)
  }

  /** Whose the bytes are after a run of edits: nobody's where the run ends with them consumed, and
      otherwise the message's own once an edit replaced them or a write could start, which it can
      from bytes that fit. */
  ghost predicate HoldComes(before: Track, edits: seq<Edit>, room: Room, after: Hold)
  {
    if LeavesConsumed(edits) then after == Gone
    else if !LeavesAlone(edits, Replacing) then after == Kept
    else if !LeavesAlone(edits, Writing) && Fits(room, |before.plain.bytes|) then after == Kept
    else after == before.hold
  }

  lemma LastOfRest(edits: seq<Edit>, i: nat, kind: EditKind)
    requires edits != [] && LastOf(edits[1..], i, kind)
    ensures LastOf(edits, i + 1, kind) && edits[i + 1] == edits[1..][i] && edits[i + 2..] == edits[1..][i + 1..]
  {
    forall j | i + 1 < j < |edits| ensures !Is(edits[j], kind) {
      assert edits[j] == edits[1..][j - 1];
    }
  }

  lemma NoneRest(edits: seq<Edit>, kind: EditKind)
    requires edits != [] && NoneAfter(edits[1..], -1, kind)
    ensures NoneAfter(edits, 0, kind)
    ensures Is(edits[0], kind) ==> LastOf(edits, 0, kind)
    ensures !Is(edits[0], kind) ==> NoneAfter(edits, -1, kind)
  {
    forall j | 0 < j < |edits| ensures !Is(edits[j], kind) {
      assert edits[j] == edits[1..][j - 1];
    }
  }

  lemma NameComesNext(before: Name, edits: seq<Edit>, after: Name)
    requires edits != [] && NameComes(if edits[0].SetName? then edits[0].to.name else before, edits[1..], after)
    ensures NameComes(before, edits, after)
  {
    if NoneAfter(edits[1..], -1, Naming) {
      NoneRest(edits, Naming);
    }
    if i: nat :| LastOf(edits[1..], i, Naming) && after == edits[1..][i].to.name {
      LastOfRest(edits, i, Naming);
    }
  }

  lemma HeadersComeNext(before: Headers, edits: seq<Edit>, after: Headers)
    requires edits != []
    requires
      var now := match edits[0] case EditHeaders(revise) => revise(before) case Consume => map[] case _ => before;
      HeadersCome(now, edits[1..], after)
    ensures HeadersCome(before, edits, after)
  {
    if NoneAfter(edits[1..], -1, Clearing) {
      NoneRest(edits, Clearing);
    }
    if i: nat :| LastOf(edits[1..], i, Clearing) && after == Revised(map[], edits[1..][i + 1..]) {
      LastOfRest(edits, i, Clearing);
    }
  }

  lemma BytesComeNext(before: Bytes, edits: seq<Edit>, room: Room, after: Bytes)
    requires edits != []
    requires
      var now := if Is(edits[0], Replacing) then Replacement(edits[0]) else Rewritten(before, edits[..1], room);
      BytesCome(now, edits[1..], room, after)
    ensures BytesCome(before, edits, room, after)
  {
    assert edits[..1][1..] == [];
    if NoneAfter(edits[1..], -1, Replacing) {
      NoneRest(edits, Replacing);
      assert Is(edits[0], Replacing) && after == Rewritten(Replacement(edits[0]), edits[1..], room) ==>
        ReplacedAt(edits, 0, room, after);
    }
    if exists i: nat :: ReplacedAt(edits[1..], i, room, after) {
      var i: nat :| ReplacedAt(edits[1..], i, room, after);
      LastOfRest(edits, i, Replacing);
      assert ReplacedAt(edits, i + 1, room, after);
    }
  }

  /** A run of edits on the plain record, by the edits alone. */
  lemma {:induction false} AmendedComes(p: Plain, edits: seq<Edit>, room: Room)
    ensures Comes(p, edits, room, AmendedBy(p, edits, room))
    decreases |edits|
  {
    if edits != [] {
      var after := AmendedBy(p, edits, room);
      AmendedComes(Amended(p, edits[0], room), edits[1..], room);
      assert edits[..1][1..] == [];
      NameComesNext(p.name, edits, after.name);
      HeadersComeNext(p.headers, edits, after.headers);
      BytesComeNext(p.bytes, edits, room, after.bytes);
    }
  }

  lemma {:induction false} EditedIsAmended(t: Track, edits: seq<Edit>, room: Room)
    ensures EditedBy(t, edits, room).plain == AmendedBy(t.plain, edits, room)
    decreases |edits|
  {
    if edits != [] {
      EditedIsAmended(Edited(t, edits[0], room), edits[1..], room);
    }
  }

  lemma AloneRest(edits: seq<Edit>, kind: EditKind)
    requires edits != []
    ensures LeavesAlone(edits, kind) <==> !Is(edits[0], kind) && LeavesAlone(edits[1..], kind)
  {
    if LeavesAlone(edits[1..], kind) {
      NoneRest(edits, kind);
    }
  }

  lemma ConsumedRest(edits: seq<Edit>)
    requires edits != []
    ensures LeavesConsumed(edits) <==>
      || LeavesConsumed(edits[1..])
      || (edits[0].Consume? && LeavesAlone(edits[1..], Replacing) && LeavesAlone(edits[1..], Writing))
  {
    if i: nat :| LastOf(edits, i, Replacing) && edits[i].Consume? && NoneAfter(edits, i, Writing) {
      forall kind, j | kind in {Replacing, Writing} && i <= j < |edits[1..]| ensures !Is(edits[1..][j], kind) {
        assert edits[1..][j] == edits[j + 1];
      }
      if i > 0 {
        assert LastOf(edits[1..], i - 1, Replacing) && NoneAfter(edits[1..], i - 1, Writing);
      }
    }
    if i: nat :| LastOf(edits[1..], i, Replacing) && edits[1..][i].Consume? && NoneAfter(edits[1..], i, Writing) {
      LastOfRest(edits, i, Replacing);
      forall j | i + 1 < j < |edits| ensures !Is(edits[j], Writing) {
        assert edits[j] == edits[1..][j - 1];
      }
    }
    if edits[0].Consume? && LeavesAlone(edits[1..], Replacing) && LeavesAlone(edits[1..], Writing) {
      NoneRest(edits, Replacing);
      NoneRest(edits, Writing);
    }
  }

  /** Who holds the bytes after a run of edits, by the edits alone. */
  lemma {:induction false} EditedHoldComes(t: Track, edits: seq<Edit>, room: Room)
    ensures HoldComes(t, edits, room, EditedBy(t, edits, room).hold)
    decreases |edits|
  {
    if edits != [] {
      EditedHoldComes(Edited(t, edits[0], room), edits[1..], room);
      ConsumedRest(edits);
      AloneRest(edits, Replacing);
      AloneRest(edits, Writing);
    }
  }

  class Outgoing {
    var name: OutgoingName
    var payload: Payload
    var headers: Headers

    ghost predicate Valid(mem: Memory, room: Room)
      reads this
    {
      && (payload.Lent? ==> Readable(mem, payload.slice))
      && (payload.OwnedBuf? ==> Fits(room, |payload.buf|))
    }

    function Shown(mem: Memory): (p: Plain)
      requires payload.Lent? ==> Readable(mem, payload.slice)
      reads this
    {
      Plain(name.name,
            match payload case Lent(s) => Read(mem, s) case OwnedBuf(b) => b case Consumed => [],
            headers)
    }

    /** The payload is where `hold` says it is, `lender` being where the message was lent. */
    ghost predicate Holds(hold: Hold, lender: Option<Slice>)
      reads this
    {
      match hold
      case Carried => lender.Some? && payload == Lent(lender.value)
      case Kept => payload.OwnedBuf?
      case Gone => payload.Consumed?
    }

    constructor Rebuilding(name: OutgoingName, payload: Payload, headers: Headers)
      ensures this.name == name && this.payload == payload && this.headers == headers
    {
      this.name, this.payload, this.headers := name, payload, headers;
    }

    /** `Payload::to_mut`: the bytes become the message's own, or nothing changes. */
    method ToMut(mem: Memory, room: Room) returns (ok: bool)
      requires Valid(mem, room)
      modifies this
      ensures Valid(mem, room) && Shown(mem) == old(Shown(mem))
      ensures ok == Fits(room, |Shown(mem).bytes|)
      ensures if ok then payload == OwnedBuf(Shown(mem).bytes) else payload == old(payload)
    {
      match payload {
        case Lent(slice) =>
          if !Fits(room, slice.len) {
            return false;
          }
          payload := OwnedBuf(Read(mem, slice));
        case Consumed => payload := OwnedBuf([]);
        case OwnedBuf(_) =>
      }
      ok := true;
    }

    /** A write through `payload_mut`; a fixed buffer refuses what does not fit it. */
    method WritePayload(mem: Memory, room: Room, change: Bytes -> Bytes, ghost hold: Hold, ghost lender: Option<Slice>)
      requires Valid(mem, room) && Holds(hold, lender)
      modifies this
      ensures Valid(mem, room)
      ensures var t := Edited(Track(old(Shown(mem)), hold), Write(change), room);
              Shown(mem) == t.plain && Holds(t.hold, lender)
    {
      var writable := ToMut(mem, room);
      if writable {
        var changed := change(payload.buf);
        if Fits(room, |changed|) {
          payload := OwnedBuf(changed);
        }
      }
    }

    method Consume()
      modifies this
      ensures payload == Payload.Consumed && headers == map[] && name == old(name)
    {
      payload, headers := Payload.Consumed, map[];
    }

    /** The payload as a buffer of its own; `None` where a fixed buffer cannot hold it. */
    method TakePayload(mem: Memory, room: Room) returns (taken: Option<Bytes>)
      requires Valid(mem, room)
      modifies `payload
      ensures payload == Lent(EMPTY)
      ensures taken == if Fits(room, |old(Shown(mem)).bytes|) then Some(old(Shown(mem)).bytes) else None
    {
      match payload {
        case Lent(slice) => taken := if Fits(room, slice.len) then Some(Read(mem, slice)) else None;
        case OwnedBuf(buf) => taken := Some(buf);
        case Consumed => taken := Some([]);
      }
      payload := Lent(EMPTY);
    }

    method TakeOwnedPayload() returns (taken: Option<Bytes>)
      modifies `payload
      ensures old(payload).OwnedBuf? ==> taken == Some(old(payload).buf) && payload == OwnedBuf([])
      ensures !old(payload).OwnedBuf? ==> taken == None && payload == old(payload)
    {
      if payload.OwnedBuf? {
        taken := Some(payload.buf);
        payload := OwnedBuf([]);
      } else {
        taken := None;
      }
    }

    method ApplyEach(mem: Memory, room: Room, edits: seq<Edit>, ghost hold: Hold, ghost lender: Option<Slice>)
      requires Valid(mem, room) && WellFormed(edits, room)
      requires Holds(hold, lender)
      modifies this
      ensures Valid(mem, room)
      ensures var t := EditedBy(Track(old(Shown(mem)), hold), edits, room);
              Shown(mem) == t.plain && Holds(t.hold, lender)
    {
      ghost var t := Track(Shown(mem), hold);
      for i := 0 to |edits|
        invariant Valid(mem, room)
        invariant Shown(mem) == t.plain && Holds(t.hold, lender)
        invariant EditedBy(t, edits[i..], room) == EditedBy(Track(old(Shown(mem)), hold), edits, room)
      {
        var e := edits[i];
        assert edits[i..][1..] == edits[i + 1..];
        match e {
          case SetName(to) => name := to;
          case Write(change) => WritePayload(mem, room, change, t.hold, lender);
          case SetPayload(bytes) => payload := OwnedBuf(bytes);
          case EditHeaders(revise) => headers := revise(headers);
          case Consume => Consume();
        }
        t := Edited(t, e, room);
      }
    }

    /** Any run of edits: what the message then reads, and where its bytes are. */
    method Apply(mem: Memory, room: Room, edits: seq<Edit>, ghost hold: Hold, ghost lender: Option<Slice>)
      requires Valid(mem, room) && WellFormed(edits, room)
      requires Holds(hold, lender)
      modifies this
      ensures Valid(mem, room) && Comes(old(Shown(mem)), edits, room, Shown(mem))
      ensures var t := EditedBy(Track(old(Shown(mem)), hold), edits, room);
              && Shown(mem) == t.plain && Holds(t.hold, lender)
              && HoldComes(Track(old(Shown(mem)), hold), edits, room, t.hold)
    {
      EditedHoldComes(Track(Shown(mem), hold), edits, room);
      EditedIsAmended(Track(Shown(mem), hold), edits, room);
      AmendedComes(Shown(mem), edits, room);
      ApplyEach(mem, room, edits, hold, lender);
    }
  }
}
