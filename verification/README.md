# Verified models of ruststream

Dafny models of four parts of ruststream, a Rust framework for message-driven services, with proofs
of what each part is for.

- **The publish path** (`Outgoing`, `Form`, `FixedBuf`): a message is lent or taken, edited by any
  number of nested stages, handed to a transport and, when the transport refuses it, handed back.
  Lent bytes are an address and a length in an explicit memory, so whose buffer a byte lives in is a
  statement and not a convention. The fixed buffer of a build without `alloc` and the scratch that one
  dispatch loop reuses for a whole batch are modelled in place, over an array.
- **Process-wide and task-local state** (`Diag`, `Pairing`): the logger selection, written and read in
  separate atomic steps by overlapping calls; and the publisher tokens that pair against their own
  broker, whatever scope they are used in and in whatever order brokers are wrapped, cloned,
  registered, connected and torn down.
- **The conformance checks** (`Timed`, `Shape`, `Keyed`, `Settlement`, `Moves`, `Redelivery`,
  `Routing`): each check is a loop over a timed stream of deliveries. Each is proved to accept a trace
  if and only if the trace meets a declarative specification, and the specification is then shown to
  mean what the check promises.
- **The AsyncAPI document** (`JsonPointer`, `Messages`, `Servers`, `Document`, `Linking`, `Census`,
  `Registry`, `Rendering`): handlers folded into channels, operations and message components that point at each
  other with `$ref`s, which are evaluated as JSON Pointers in their URI fragment form (RFC 6901,
  sections 3 to 6).

`dafny verify dfyconfig.toml` checks the whole project. Nothing here was executed.

## Main results

1. **A refused publish comes back whole** (`Form.Send`). Through stages nested to any depth, in either
   form at every hand-over, a refusal that gives the message back carries the destination, headers and
   payload bytes the transport was shown: owned exactly when some stage owned them last, and otherwise
   still at the lender's address and length. Which it is follows from the edits and the forms alone
   (`Form.HeldByEdits`). It carries none exactly when the client kept the message, the destination is
   past a refusal's room, or the last middleware consumed it (`Form.ConsumedExactly`).
2. **What leaves is the plain record** the edits describe (`Form.LeavesAsPlainRecord`), wherever every
   taking hand-over fits its buffer: the name of the last edit that sets one, the header edits after
   the last consumption, the writes that fit after the last replaced payload. The condition is exact
   (`Form.HandOversExactly`): all stages hand on the record of the edits so far if and only if every
   taking hand-over fits.
3. **Selections** (`Diag`). Over every interleaving: a mark that names a sink has one, no read that
   starts after a selection returned answers `None`, every answer was selected. Once no selection is
   under way all reads agree, and `Diag.LastStoresDecide` says on what, however the selections
   overlapped; an undisturbed last selection is one case. While they overlap reads may flicker, and a
   run shows it.
4. **Tokens** (`Pairing`). After any run of registrations, and whatever more happens while the token's
   slots are locked one after the other, a token that pairs hands its policy a connected form of the
   broker that minted it, and the origin reported is that very form's address. Which broker and slot
   that is follows from the calls alone: those of the call that wrapped the broker
   (`Pairing.BindMints`, `Pairing.MintedPairsAgainstItsBroker`).
5. **The checks accept exactly their specification**, for any number of messages, keys, attempts and
   deliveries and any trace, with the time bounds, multiplicities and settlement-once facts that give
   the specification its point. What an accepted run looks like is also said of the deliveries alone
   (`Shape.Run.AcceptedMeans`, `Redelivery.Run.AcceptedByDeliveries`, and `AcceptedByDeliveries` of
   `Keyed`, `Moves` and `Routing`).
6. **The document is linked** (`Linking.DocumentIsLinked`), one operation stands for each registration
   and none replaces another (`Census.OneOperationEach`, `Census.DocumentOperations`), components and
   channels say what their first contributors said (`Census.DocumentMessages`,
   `Census.ChannelsTell`). By the handlers and servers alone: each handler has a receive operation and
   each of its entries that is no answer a send operation, every field said
   (`Registry.HandlerHasItsOperations`), with as many receive operations as handlers
   (`Registry.OneReceiveEach`); likewise the channels (`Registry.DocumentChannelsTell`) and components
   (`Registry.DocumentComponentsTell`). Every reference written into it (of operations, replies, channels and
   servers' security) denotes the entry it was written for if and only if the names they are made of
   are free of `/`, `~` and `%` (`Rendering.DocumentDenotesExactly`): those of every channel and
   message, and of a server only where it declares a security scheme or the first registration on
   some channel is on it. In that case each reference resolves to the rendered entry
   (`Rendering.DocumentResolves`).

## Where the code and its promises part

- A comment at `crates/core/src/form.rs:83` says a copy past the room is cut at it; the code empties
  the buffer. `Form.TakingHandOverExactly` states what it does, `Form.OversizedTakeIsEmptied` shows it.
- "The last selection wins" (`crates/core/src/diag.rs:223`) holds of selections that do not overlap
  (`Diag.LastSelectionWins`); overlapping ones can answer new, old, new again
  (`Diag.SelectionsFlicker`). A logger is what reads answer from a point with no selection under way
  exactly when the last store of the mark is of its kind and, for a sink, the last store of the cell
  is that sink's (`Diag.LastStoresDecide`).
- The keyed-order check accepts payloads nobody published, for two reasons: it reads a sequence
  number, not its spelling (`Keyed.AcceptsAnotherSpelling`), and it bounds the total but no key's own
  number, so a key may take another's place (`Keyed.AcceptsAnotherNumber`). Restricted to published
  payloads it accepts exactly the interleavings (`Keyed.Run.AcceptedExactly`).
- The fixed buffer keeps what a slice encoder leaves up to the length it reports, so an encoder that
  reports past what it wrote shows what earlier writes left: the bytes held determine the result
  exactly when the encoder ignores what it finds in the room (`FixedBuf.IgnoringExactly`).
- The routing check looks at published messages only: a delivery of a message nobody published passes
  (`Routing.UnknownMessagePasses`), and `Routing.AcceptedTotals` says exactly when there is none.
- References are written without escaping: a subscription named `a/b` yields an operation whose channel
  reference leads nowhere (`Rendering.SlashedChannel`), where the escaped spelling would denote it
  (`JsonPointer.EscapedDenotes`). When references do denote their entries is the
  exact condition of `Rendering.DocumentDenotesExactly`.
- Server names `a` and `a-1` can give two security schemes one key (`Servers.ClashingNames`); keys are
  distinct exactly when no name is another one with the suffix of one of its schemes
  (`Servers.KeysDistinctExactly`).

## Model

| member | source | states |
|---|---|---|
| `Outgoing.Outgoing.ToMut` | crates/core/src/outgoing.rs:247-277 | Reaching for the buffer makes the bytes the message's own without changing how it reads; it is refused, and nothing changes, exactly when a fixed buffer cannot hold them. |
| `Outgoing.Outgoing.WritePayload` | crates/core/src/outgoing.rs:387-409 | A write through the buffer is the plain write on the record wherever both ends fit, else no change; the bytes are the message's own afterwards even when the write itself did not fit. |
| `Outgoing.Outgoing.Consume` | crates/core/src/outgoing.rs:465-472 | Consuming drops payload and headers and keeps the name. |
| `Outgoing.Outgoing.TakePayload` | crates/core/src/outgoing.rs:416-441 | The payload comes out as a buffer, or not at all past a fixed room; an empty lent payload is left. |
| `Outgoing.Outgoing.TakeOwnedPayload` | crates/core/src/outgoing.rs:443-464 | Only an owned buffer is taken out, leaving an empty one; a lent or consumed payload is untouched. |
| `Outgoing.Outgoing.Apply` | crates/core/src/outgoing.rs:380-500 | After any run of edits the message reads, by the edits alone: the name of the last edit that sets one, else the name before; the header edits after the last consumption, from none, else all of them from those before; the writes that fit after the last replacement, from what it put there. Its bytes are gone where the run ends with them consumed, its own once an edit replaced them or a write could start, else where they were. |
| `Outgoing.AmendedComes` | crates/core/src/outgoing.rs:380-500 | The same of the plain record under any edits. |
| `Outgoing.EditedHoldComes` | crates/core/src/outgoing.rs:380-472 | Who holds the bytes after any run of edits, by the edits alone. |
| `Form.Rebuilt` | crates/core/src/form.rs:163-166 | A rebuilt message reads as the one handed over and holds its bytes where they were. |
| `Form.KeptName` | crates/core/src/form.rs:26-37 | The leaving name is the message's; a borrowed name is kept nowhere, and any other is the one the stage keeps. |
| `Form.Taken` | crates/core/src/form.rs:82-101 | A taking copy equals the bytes exactly when they fit the buffer. |
| `Form.HandedOn` | crates/core/src/form.rs:178-192 | What goes on reads as the stage's message; lent bytes go on at the lender's address, a written buffer is stored in memory that was free, and nothing live is overwritten. |
| `Form.Leaving` | crates/core/src/form.rs:169-175 | The leaving message reads as the stage's message; the stage keeps its payload when lending and an empty one when taking. |
| `Form.Restore` | crates/runtime/src/publish_failure.rs:336-358 | A returned message goes back into the stage's own with its headers; a message the client kept leaves it consumed. |
| `Form.RunPublish` | crates/runtime/src/publish/pipeline.rs:70-92 | The transport is shown the message that leaves, which reads as the stage's own; refused and given back, the stage reads as what was shown, which is what it held before exactly when the form lends or the bytes fit; a client that keeps the message leaves nothing of it. |
| `Form.WithMessage` | crates/core/src/publisher.rs:604-623 | A refusal holds its message exactly when the destination fits the refusal's room. |
| `Form.RefusalOf` | crates/runtime/src/publish_failure.rs:360-418 | The refusal of a restored message: owned bytes move in, lent ones stay where they are, a consumed message is none. |
| `Form.SendTerminal` | crates/runtime/src/publish/out.rs:274-324 | The innermost publish, bare or under middleware: what the transport is shown is the message that leaves, and the outcome is success exactly when it accepts, else the refusal of what it was shown. |
| `Form.SendStage` | crates/runtime/src/publish/out.rs:353-362 | A stage hands on the message its edits describe, with the bytes where its form leaves them. |
| `Form.ReclaimingReports` | crates/runtime/src/publish/out.rs:363-366 | What the stages below report of the message handed on is, once the buffer is reclaimed, what this stage reports of its own. |
| `Form.Send` | crates/runtime/src/publish/out.rs:341-367 | Main result 1, with every live byte of memory preserved; wherever taking hand-overs fit, the transport is shown what all the edits come to by themselves. |
| `Form.EditsHold` | crates/core/src/outgoing.rs:380-472 | Who holds the bytes after a run of edits depends on where it started only if no edit took them over. |
| `Form.ThroughHold` | crates/runtime/src/publish/out.rs:341-367 | The same through any stages; bytes no stage took over are the lender's, unchanged. |
| `Form.LeavesAsPlainRecord` | crates/core/src/form.rs:103-310 | What any pipeline lets leave is the record its edits describe in order, whichever form each hand-over has, wherever taking hand-overs fit: name, headers and bytes said over the list of all edits. |
| `Form.HandOversExactly` | crates/core/src/form.rs:82-101 | Every taking hand-over fits its buffer if and only if each stage in turn hands on the record the edits so far describe. |
| `Form.StackIsAStage` | crates/runtime/src/publish/out.rs:341-367 | A middleware stack at the end lets leave what one more stage would, under the same condition. |
| `Form.HeldByEdits` | crates/core/src/form.rs:103-310 | Where every stage lends, the edits of all of them say whose the bytes shown are; else those after the last stage that takes, from a buffer of the pipeline's own. |
| `Form.ConsumedExactly` | crates/runtime/src/publish_failure.rs:360-418 | The pipeline ends with a consumed message exactly when it ends in a lending stack whose own edits end with it consumed. |
| `Form.UnboundedTakesFit` | crates/core/src/form.rs:84-97 | With a growing buffer that condition always holds. |
| `Form.TakingHandOverExactly` | crates/core/src/form.rs:88-101 | A taking hand-over keeps the record exactly when it fits; past the room the payload is dropped whole. |
| `Form.OversizedTakeIsEmptied` | crates/core/src/form.rs:88-92 | 257 lent bytes leave as none through one taking stage of the fixed build. |
| `FixedBuf.FormattedExactly` | crates/core/src/fixed_buf.rs:209-215 | A formatted write succeeds exactly when the whole text fits; refused, it keeps the pieces before the first that did not. |
| `FixedBuf.FixedBuf.ExtendFromSlice` | crates/core/src/fixed_buf.rs:147-163 | An append joins whole or changes nothing, and says which. |
| `FixedBuf.FixedBuf.WriteWith` | crates/core/src/fixed_buf.rs:165-186 | The array is what the encoder left; the contents are its first bytes up to the reported length, all of them where it reports more than the room, and none where it failed; the length answered is the contents' own. |
| `FixedBuf.BoundedWrite` | crates/core/src/fixed_buf.rs:165-186 | The same of the bounded byte sequence, for an encoder over a zeroed room. |
| `FixedBuf.EncodedIsHeld` | crates/core/src/fixed_buf.rs:165-186 | An encoder that writes a text and reports its length leaves that text; a failed one nothing. |
| `FixedBuf.FixedBuf.WritePieces` | crates/core/src/fixed_buf.rs:209-215 | Formatting piece by piece is the bounded formatted write. |
| `FixedBuf.FixedBuf.Run` | crates/core/src/fixed_buf.rs:108-215 | Over any run of appends, clears, encoder writes and formats, with any encoders at all, the array with a length is the bytes held and the rest of the room under the same run. |
| `FixedBuf.RanIsBounded` | crates/core/src/fixed_buf.rs:108-215 | Where no encoder looks at what it finds in the room, the contents after every operation are those of the bounded byte sequence alone. |
| `FixedBuf.IgnoringExactly` | crates/core/src/fixed_buf.rs:165-186 | What an encoder write leaves is determined by the bytes held if and only if the encoder keeps the same of every room of one size. |
| `FixedBuf.LendValue` | crates/core/src/form.rs:129-150 | A value is lent exactly its wire bytes, whatever the scratch held before, or refused past the room. |
| `FixedBuf.TakeValue` | crates/core/src/form.rs:235-264 | The taking form hands over the wire bytes in a buffer of their own exactly when they fit it. |
| `FixedBuf.LendBatch` | crates/core/src/form.rs:129-264 | Over a batch sharing one scratch each message is lent its own encoding, and wherever both forms succeed they agree. |
| `Diag.Process.Perform` | crates/core/src/diag.rs:235-284 | One atomic step of a call is the step of the state machine. |
| `Diag.Process.Schedule` | crates/core/src/diag.rs:235-284 | The shared variables under a schedule are the states of the run. |
| `Diag.StepKeepsInvariant` | crates/core/src/diag.rs:225-284 | Every step keeps: a sink mark has a sink, a finished selection leaves the mark set, and all that is named was chosen. |
| `Diag.InvariantThroughout` | crates/core/src/diag.rs:225-284 | The invariant holds in every state of every interleaving. |
| `Diag.SinkMarkHasASink` | crates/core/src/diag.rs:229-237 | The mark is never a sink's while the cell is empty. |
| `Diag.AnswerWasSelected` | crates/core/src/diag.rs:265-284 | Every answer names a logger whose selection had begun before it. |
| `Diag.ReadAfterSelectionAnswers` | crates/core/src/diag.rs:265-284 | No read that starts after some selection returned answers none. |
| `Diag.LastStoresDecide` | crates/core/src/diag.rs:223-284 | From a point where all selections are finished and none begins, every read answers what the shared variables then name: tracing if and only if the last store of the mark is tracing's, a sink if and only if it is a sink's and the last store of the cell is that sink's. |
| `Diag.MarkIsLastStored` | crates/core/src/diag.rs:226-237 | At any point of any run the mark is what the last store of it put there. |
| `Diag.LastSelectionWins` | crates/core/src/diag.rs:223-237 | A selection that overlaps no other and is followed by none is the answer of every read that starts after it returned. |
| `Diag.SelectionsFlicker` | crates/core/src/diag.rs:223-237 | A run with overlapping selections in which three reads, each begun after the one before it returned, answer one sink, tracing and that sink again, though each was selected once. |
| `Pairing.ReachesInnermost` | crates/core/src/bindable.rs:268-301 | A token whose brokers are connected as its slots are locked comes to the broker its innermost slot then holds, whatever broker it is handed. |
| `Pairing.Task.PairsAgainst` | crates/core/src/pairing.rs:52-56 | Inside a pairing the origin becomes that broker; outside, nothing is noted. |
| `Pairing.Task.Pair` | crates/core/src/bindable.rs:268-301 | Pairing succeeds exactly when every token's broker is connected when its slot is locked and the policy accepts; the origin noted is the broker reached, also when it fails half way. |
| `Pairing.Task.Paired` | crates/core/src/pairing.rs:40-50 | The origin reported is the address of the broker the policy was handed, and an outer pairing's note is restored. |
| `Pairing.StepStaysConsistent` | crates/core/src/bindable.rs:110-176 | Wrapping, binding, cloning, registering, connecting and tearing down keep every slot to the broker it was made for. |
| `Pairing.AlwaysConsistent` | crates/runtime/src/lifecycle.rs:223-233 | So after any run of them. |
| `Pairing.PairsAgainstItsOwnBroker` | crates/core/src/bindable.rs:178-183 | After any run, whatever more of it goes on between the locks of one pairing, a connected token reaches a connected form of the broker that minted it, and a bare policy the scope's. |
| `Pairing.WrapMakes` | crates/core/src/bindable.rs:110-139 | The b-th call that wraps a broker makes bindable b, with that broker and a slot counted from the calls before it; no later call changes it. |
| `Pairing.BindMints` | crates/core/src/bindable.rs:131-139 | Minting from bindable b adds one token, bound to the slot of the b-th wrapping call over the policy given; its home is that policy's, or that call's broker where the policy is bare. |
| `Pairing.TokensMade` | crates/core/src/bindable.rs:197-204 | A bare policy is its own token, and a clone is the token cloned. |
| `Pairing.RegisteringShares` | crates/core/src/bindable.rs:141-176 | Registering bindable b registers the broker and the slot of the b-th wrapping call; a bare broker gets a new empty slot. |
| `Pairing.WrappingMakes` | crates/core/src/bindable.rs:110-129 | Wrapping adds a bindable with the new slot, which is empty, and changes nothing else. |
| `Pairing.ConnectingFills` | crates/runtime/src/lifecycle.rs:223-233 | Connecting puts a form of the registered broker into the registration's slot and changes no other. |
| `Pairing.TearingDownEmpties` | crates/runtime/src/lifecycle.rs:259-268 | Tearing down empties that slot and changes no other. |
| `Pairing.MintedPairsAgainstItsBroker` | crates/core/src/bindable.rs:131-139 | A token minted over a bare policy from bindable b, connected while it pairs, reaches the broker of the b-th wrapping call, whatever is called after it is minted and while it pairs. |
| `Timed.InTimeExactly` | crates/conformance/src/message_shape.rs:926-941 | An event is read by a deadline exactly when it and all before it come by then and the reader did not start later. |
| `Shape.IndexOf` | crates/conformance/src/message_shape.rs:254-263 | The first publish with a payload, if there is one. |
| `Shape.Run.ArrivedByPayload` | crates/conformance/src/message_shape.rs:230-302 | With distinct payloads a publish counts as arrived exactly when its payload was delivered. |
| `Shape.Run.LateFirstArrival` | crates/conformance/src/message_shape.rs:237-253 | A read too late for the deadline in force means a later completing arrival would have been late too. |
| `Shape.AwaitOne` | crates/conformance/src/message_shape.rs:241-292 | One turn of the loop extends the deadline only on a first arrival; where it cannot read on, no specification run exists. |
| `Shape.AwaitEveryShape` | crates/conformance/src/message_shape.rs:230-295 | The loop ends with every accepted publish arrived or the run rejected, within one timeout per accepted publish, however many redeliveries come. |
| `Shape.ReceiveEveryShape` | crates/conformance/src/message_shape.rs:230-302 | Accepted if and only if every accepted publish arrives in time with its headers intact, nothing else does, and no refused one arrives while quiet; the loop tests each delivery itself. |
| `Shape.CheckHeaders` | crates/conformance/src/message_shape.rs:272-283 | The header loop passes exactly when each published header is there with the published bytes. |
| `Shape.CheckDelivery` | crates/conformance/src/message_shape.rs:254-292 | A delivery of the main loop passes exactly when it is proper, and names its publish. |
| `Shape.CheckQuiet` | crates/conformance/src/message_shape.rs:946-960 | A delivery of the quiet period passes exactly when it is harmless. |
| `Shape.Run.ProperExactly` | crates/conformance/src/message_shape.rs:254-292 | A delivery is proper if and only if it is settled and brings some publish: the first with its payload, not refused, each of its headers there with the published bytes. |
| `Shape.Run.HarmlessExactly` | crates/conformance/src/message_shape.rs:294-302 | A delivery is harmless if and only if it is settled and the first publish with its payload was not refused. |
| `Shape.Run.AcceptedMeans` | crates/conformance/src/message_shape.rs:230-302 | On an accepted run, over what was published and what came: up to some point every event brings an accepted publish with its headers and every accepted publish comes; then nothing refused comes until the quiet period is over. |
| `Keyed.ParsePublished` | crates/conformance/src/message_shape.rs:381-408 | A published payload parses back to the key and number it was made from. |
| `Keyed.ParseExactly` | crates/conformance/src/message_shape.rs:395-408 | A payload parses to a key and a number if and only if it is that key, a colon and a spelling of the number. |
| `Keyed.ConsecutiveIsOnceInOrder` | crates/conformance/src/message_shape.rs:389-423 | As many deliveries as were published, each the next of its key, are all of them once and in order. |
| `Keyed.OnceInOrderCounts` | crates/conformance/src/message_shape.rs:389-423 | Conversely, once and in order each delivery is the next of its key. |
| `Keyed.Run.AcceptedExactly` | crates/conformance/src/message_shape.rs:381-423 | On published payloads the check accepts exactly the interleavings of the keys' publish orders. |
| `Keyed.KeyedOrder` | crates/conformance/src/message_shape.rs:381-423 | The loop accepts if and only if each delivery is in time, names and reports its key, and is the next of it. |
| `Keyed.AcceptedByDeliveries` | crates/conformance/src/message_shape.rs:381-423 | On an accepted run each of the deliveries due comes within the timeout of the one before it, reports its key, is settled, and carries as number how many came under that key before it. |
| `Keyed.PublishedExactly` | crates/conformance/src/message_shape.rs:381-408 | A delivery is a published one exactly when its payload is spelled as one. |
| `Keyed.AcceptsAnotherSpelling` | crates/conformance/src/message_shape.rs:395-408 | A trace the check accepts whose payload nobody published: another spelling of the number. |
| `Keyed.AcceptsAnotherNumber` | crates/conformance/src/message_shape.rs:389-423 | A trace the check accepts in which one key brings two messages of one published and the other none. |
| `Settlement.SwapRemove` | crates/conformance/src/settlement.rs:719-749 | Crossing off removes one occurrence of that payload and nothing else. |
| `Settlement.CollectBack` | crates/conformance/src/settlement.rs:719-749 | It leaves exactly what the payloads read did not cover, or fails because no welcome reading exists; either way what was owed is what it crossed off plus what it leaves. |
| `Settlement.ExpectBack` | crates/conformance/src/settlement.rs:544-609 | Three collections accept if and only if together they bring back everything owed and read nothing else but the tolerated payload; whatever the outcome, what was owed is what all of them crossed off plus what is left. |
| `Settlement.Phase.CollectsOnce` | crates/conformance/src/settlement.rs:719-749 | What a collection reads is decided by the trace. |
| `Settlement.Phase.Conserved` | crates/conformance/src/settlement.rs:719-749 | After every delivery of a collection what was owed is what was crossed off one by one plus what is still owed, and what was crossed off was delivered. |
| `Settlement.AllConserved` | crates/conformance/src/settlement.rs:544-609 | The same over any number of collections in turn, each from what those before it left. |
| `Settlement.Phase.CollectsExactly` | crates/conformance/src/settlement.rs:719-749 | A collection succeeds if and only if it reads settled deliveries in time while something is owed and no payload but the tolerated one exceeds what is owed. |
| `Settlement.AcceptedExactly` | crates/conformance/src/settlement.rs:544-609 | Acceptance is coverage: the collections, each reading on while something is owed, bring back everything owed with its multiplicity, and only the tolerated payload in excess; both directions. |
| `Moves.Run.StopsAt` | crates/conformance/src/retry.rs:630-660 | A delivery that is not requeued decides the run. |
| `Moves.MovesAtTheCap` | crates/conformance/src/retry.rs:630-682 | Accepted if and only if the attempts are counted and requeued and then one dead-letter delivery and quiet follow, or a transport that cannot requeue cuts them short. |
| `Moves.AcceptedByDeliveries` | crates/conformance/src/retry.rs:630-682 | On an accepted run the message comes up to the cap, counting one more each time and requeued all but the last; then requeueing is unsupported, or all attempts are spent and it comes once in the dead-letter destination, and quiet follows. |
| `Redelivery.Seen.Take` | crates/conformance/src/retry.rs:312-330 | A delivery is counted under its reader exactly when it is the control or an intact copy; all but the first copy are settled, once. |
| `Redelivery.Arrive` | crates/conformance/src/retry.rs:241-252 | The first loop reads the least prefix with control and copy in time, or no accepted run exists. |
| `Redelivery.Gather` | crates/conformance/src/retry.rs:241-262 | The two loops read that prefix and what follows until quiet or the limit, or no accepted run exists. |
| `Redelivery.NextCopy` | crates/conformance/src/retry.rs:395-427 | The copy that comes back, after controls that are settled on the way, or none within the allowance. |
| `Redelivery.CountAcrossRequeues` | crates/conformance/src/retry.rs:356-388 | Succeeds if and only if each return of the copy is intact and counts one more, to the final settlement; every delivery read is settled once. |
| `Redelivery.Run.CountsRise` | crates/conformance/src/retry.rs:356-388 | The copies of an accepted cycle in order, each reporting one more than the one before and carrying both headers, short of all of them only where requeueing is unsupported. |
| `Redelivery.Run.AcceptedMeans` | crates/conformance/src/retry.rs:241-269 | On an accepted run each reader saw the control and the copy at most once, as many saw one as the other and at least one did, and the copy's deliveries report counts that rise by one. |
| `Redelivery.Run.AcceptedByDeliveries` | crates/conformance/src/retry.rs:241-388 | By the payloads and headers alone: every event up to quiet is the control or an intact copy and none comes twice to a reader; the deliveries of the copy count up from one, or from two where the broker does not delay natively; all but the last are requeued and the last is settled for good unless requeueing is unsupported. |
| `Redelivery.Run.OncePerGroupIsFew` | crates/conformance/src/retry.rs:332-352 | Once per group means at most four deliveries were read. |
| `Redelivery.RedeliveryAddress` | crates/conformance/src/retry.rs:241-269 | Accepted if and only if the specification holds; each delivery read got exactly one settlement call and their number is bounded. |
| `Routing.OrderedIsUnique` | crates/conformance/src/in_process.rs:310-332 | Two ordered sequences with the same members are the same. |
| `Routing.SortedDecides` | crates/conformance/src/in_process.rs:310-332 | Comparing sorted positions decides equality as multisets. |
| `Routing.PublishShared` | crates/conformance/src/in_process.rs:259-278 | A refused publish is owed to nobody, a taken one to what was routed. |
| `Routing.AssertReceivedAsRouted` | crates/conformance/src/in_process.rs:310-332 | The comparison succeeds if and only if every published message reached its subscriptions as often as routed. |
| `Routing.ReceiveShared` | crates/conformance/src/in_process.rs:282-304 | It reads the owed deliveries and then what comes before quiet, and fails only on one it cannot read or settle. |
| `Routing.OneNameTwoSubscriptions` | crates/conformance/src/in_process.rs:220-255 | Accepted if and only if what is read is what was routed. |
| `Routing.AcceptedByDeliveries` | crates/conformance/src/in_process.rs:220-332 | On an accepted run every event read is a settled delivery, and through each subscription each published message comes as often as the publish was routed there, a refused one never. |
| `Routing.Run.ReadsOnce` | crates/conformance/src/in_process.rs:282-304 | What is read is decided by the trace. |
| `Routing.AcceptedTotals` | crates/conformance/src/in_process.rs:310-332 | Deliveries of published messages total what was owed; all deliveries do exactly when none is of an unknown message. |
| `Routing.UnknownMessagePasses` | crates/conformance/src/in_process.rs:282-332 | A trace the whole check accepts although it reads a delivery of a message nobody published. |
| `JsonPointer.SpelledDenotes` | crates/asyncapi/src/spec.rs:438-452 | A reference written without escaping denotes the path it spells exactly when no name on it holds a slash, a tilde or a percent sign. |
| `JsonPointer.EscapedDenotes` | crates/asyncapi/src/spec.rs:438-452 | Escaped as RFC 6901 asks, a reference denotes its path whatever the names: escaping and reading are inverse. |
| `Messages.FillFrom` | crates/core/src/bindings.rs:416-420 | Bindings are filled key by key and the ones already there stay. |
| `Messages.HeaderConstJoins` | crates/asyncapi/src/messages.rs:27-47 | The rule's header becomes a required constant, the rest of the contract is kept, and applying the rule again changes nothing. |
| `Messages.MergeMessage` | crates/asyncapi/src/messages.rs:67-123 | Merging field by field is the merge on values. |
| `Messages.MergedInTurn` | crates/asyncapi/src/messages.rs:67-123 | Contributions merged in two batches are those merged in one. |
| `Messages.FirstContributorWins` | crates/asyncapi/src/messages.rs:67-123 | There is a component for exactly the names contributed to; each field is the first value contributed, each protocol's binding the first one, and schema-free if any side is. |
| `Messages.TitleIs` | crates/asyncapi/src/messages.rs:67-123 | The title is the first contributed under the name that does not repeat it, and absent exactly when there is none. |
| `Messages.TextsAre` | crates/asyncapi/src/messages.rs:67-123 | Description and media type are the first contributed under the name. |
| `Messages.SchemasAre` | crates/asyncapi/src/messages.rs:67-123 | So are the payload and headers schemas; schema-free exactly when some contribution is. |
| `Messages.BindingsAre` | crates/asyncapi/src/messages.rs:67-123 | Under each protocol the binding is the first contributed, absent exactly when there is none. |
| `Messages.ReplayChangesNothing` | crates/asyncapi/src/messages.rs:67-123 | Contributions merged again, in any order and number, change nothing. |
| `Messages.ListedExactly` | crates/asyncapi/src/spec.rs:140-151 | A name is reported without a schema exactly when it was contributed to, nobody gave or excused a schema, and it is not raw bytes. |
| `Messages.AgreedContentType` | crates/asyncapi/src/lib.rs:185-196 | A root media type is named exactly when there are messages and all name that one. |
| `Servers.SuffixedKeys` | crates/asyncapi/src/servers.rs:26-33 | Suffixed keys determine the server's name and the scheme's index. |
| `Servers.KeysDistinctExactly` | crates/asyncapi/src/servers.rs:26-33 | No two schemes share a key if and only if no declared name is another with the suffix of one of its schemes. |
| `Servers.BuildServers` | crates/asyncapi/src/servers.rs:14-51 | Every declared server is rendered; each of its security references names a scheme that is there, the very one declared where keys are distinct. |
| `Servers.ResolveServer` | crates/asyncapi/src/servers.rs:57-66 | The answer is a server there is: the label's where it names one. |
| `Servers.ResolvesExactly` | crates/asyncapi/src/servers.rs:57-66 | A server is the answer if and only if it is there and the label names it, or the label names none and it is the only one. |
| `Servers.ClashingNames` | crates/asyncapi/src/servers.rs:26-33 | Two servers whose schemes share a key: no map holds both schemes under their keys, so one is lost. |
| `Document.MessageNameIs` | crates/asyncapi/src/messages.rs:15-21 | A type's message name is what follows its last `::`, or the whole name where there is none. |
| `Document.TakenAreFew` | crates/asyncapi/src/operations.rs:342-376 | Taken candidates are distinct, so the search for a free id ends. |
| `Document.FreshIdIsLeast` | crates/asyncapi/src/operations.rs:342-376 | The id is free, and is the base or the base with the least free suffix from two on. |
| `Document.FindId` | crates/asyncapi/src/operations.rs:342-376 | The loop finds that id. |
| `Document.FirstOf` | crates/asyncapi/src/lib.rs:114-118 | The first outgoing entry of the kind, none exactly when there is none of it. |
| `Document.AppliedInTurn` | crates/asyncapi/src/lib.rs:101-159 | Steps taken in two batches are those taken in one. |
| `Document.Builder.AddOutgoing` | crates/asyncapi/src/operations.rs:236-335 | The maps after it are the document with that outgoing message. |
| `Document.Builder.AddReceive` | crates/asyncapi/src/operations.rs:25-85 | The maps after it are the document with that subscription, under a fresh operation id. |
| `Document.Builder.AddHandler` | crates/asyncapi/src/lib.rs:101-160 | One turn of the loop: the first answer, the subscription, then a send for each entry that is no answer. |
| `Document.Builder.Build` | crates/asyncapi/src/lib.rs:97-160 | The maps are the steps of all handlers taken in order. |
| `Linking.ListedHolds` | crates/asyncapi/src/operations.rs:64-69 | A channel lists what it listed and what was contributed, each under its component's reference. |
| `Linking.StepGrows` | crates/asyncapi/src/lib.rs:101-159 | No step takes anything back: channels keep messages, operations stay as they were. |
| `Linking.StepPoints` | crates/asyncapi/src/operations.rs:210-226 | The references a step hands out land in the document it leaves. |
| `Linking.StepKeepsLinked` | crates/asyncapi/src/lib.rs:101-159 | Every step keeps every reference of operations, replies, channels and servers landing. |
| `Linking.LinkedThroughout` | crates/asyncapi/src/lib.rs:101-159 | So after any steps in which an answered subscription follows its answer. |
| `Linking.DocumentIsLinked` | crates/asyncapi/src/lib.rs:80-178 | Every reference of a generated document names an entry the document holds. |
| `Census.OneOperationEach` | crates/asyncapi/src/lib.rs:137-157 | The operations are the declared ones, each under an id of its own: none is lost or replaced. |
| `Census.DocumentOperations` | crates/asyncapi/src/lib.rs:137-157 | There is one operation per subscription and per outgoing message that is no answer. |
| `Census.MessagesAreMerged` | crates/asyncapi/src/lib.rs:99-159 | The components are all contributions, in order, merged from nothing. |
| `Census.DocumentMessages` | crates/asyncapi/src/lib.rs:99-178 | Components are as their first contributors describe them, and those reported without a schema are exactly the undescribed ones. |
| `Census.ChannelsTell` | crates/asyncapi/src/operations.rs:45-60 | There is a channel exactly where a step is; its servers and parameters are the first step's, its messages those of every step on it, its bindings the first of each protocol. |
| `Census.ChannelIsPointed` | crates/asyncapi/src/lib.rs:111-157 | Every channel is the channel of some operation or reply. |
| `Census.MessagesAreCarried` | crates/asyncapi/src/operations.rs:62-70 | Every component is listed by some channel. |
| `Census.ReceivedExactly` | crates/asyncapi/src/lib.rs:101-135 | A channel is received on exactly when some handler, at any position, subscribes to it. |
| `Census.TraversalEntries` | crates/asyncapi/src/lib.rs:114-159 | The outgoing entries are added handler by handler: the first answer, then the entries that are no answers. |
| `Census.DocumentAddresses` | crates/asyncapi/src/operations.rs:45-55 | There is a channel exactly where a handler subscribes or sends; its address is its name if any handler subscribes to it, at any position, and otherwise absent exactly when the first outgoing entry added to it names its destination per delivery. |
| `Registry.ContributedTells` | crates/asyncapi/src/operations.rs:128-186 | Which field of a contribution comes from where: the name declared, else the schema's title, else the type's last segment; the description declared, else the schema's, else the handler's; the headers schema with the rule's constant. |
| `Registry.EnvTells` | crates/asyncapi/src/lib.rs:101-110 | A handler's channels are on, and its operations tagged with the protocol of, the server its label names or the only one; neither where there is none. |
| `Registry.ReceiveOperationTells` | crates/asyncapi/src/operations.rs:25-85 | A subscription's operation: action receive, its channel, a reference for each of its messages, its description, the reply of its first answer, its server's protocol as tag, its operation bindings, and a retry extension of cap, dead letter and first retry copy's channel, absent exactly when all three are. |
| `Registry.SendOperationTells` | crates/asyncapi/src/lib.rs:137-157 | An entry's operation: action send, its channel and message, its operation bindings and tag; no description, reply or retry. |
| `Registry.SanitizedTells` | crates/asyncapi/src/operations.rs:381-385 | A sanitized name keeps letters and digits and has an underscore in every other place. |
| `Registry.TraversalDoes` | crates/asyncapi/src/lib.rs:101-160 | The steps taken are the handlers' uses in order: for each handler its first answer, its subscription, then its other entries. |
| `Registry.DocumentOperationsTell` | crates/asyncapi/src/lib.rs:97-160 | Each use that is no answer has an operation that says its fields, under an id of its own: receive_name or send_name_channel, with a number from two on where taken; and there is no other operation. |
| `Registry.HandlerHasItsOperations` | crates/asyncapi/src/lib.rs:101-160 | Each handler has its receive operation and each of its entries that is no answer its send operation, every field said over handlers and servers. |
| `Registry.OneReceiveEach` | crates/asyncapi/src/lib.rs:101-160 | There are as many receive operations as handlers. |
| `Registry.DocumentChannelsTell` | crates/asyncapi/src/operations.rs:45-70 | There is a channel exactly where a handler uses it; its servers and parameters are those of the first use, its messages are the names of all that is said on it, its bindings the first of each protocol. |
| `Registry.DocumentComponentsTell` | crates/asyncapi/src/lib.rs:97-178 | The components are what the handlers say of their messages, in order, merged; each contribution says its metadata field by field. |
| `Rendering.ChannelRefDenotes` | crates/asyncapi/src/operations.rs:216-218 | A channel reference denotes its channel exactly when the name is plain. |
| `Rendering.ChannelMessageRefDenotes` | crates/asyncapi/src/operations.rs:220-225 | A message reference denotes its entry exactly when both names are plain. |
| `Rendering.ComponentRefDenotes` | crates/asyncapi/src/operations.rs:66-69 | A component reference denotes its component exactly when the name is plain. |
| `Rendering.SchemeRefDenotes` | crates/asyncapi/src/servers.rs:34-35 | A security reference denotes its scheme exactly when the key is plain. |
| `Rendering.ServerRefDenotes` | crates/asyncapi/src/lib.rs:103-105 | A server reference denotes its server exactly when the name is plain. |
| `Rendering.RenderedServer` | crates/asyncapi/src/spec.rs:166-191 | A rendered server shows its protocol and a reference per scheme, left out where there are none. |
| `Rendering.RenderedChannel` | crates/asyncapi/src/spec.rs:215-255 | A rendered channel shows its address, null where it has none, each of its messages by reference and, where there are any, its parameters, servers and bindings. |
| `Rendering.RenderedMessage` | crates/asyncapi/src/spec.rs:403-436 | A rendered component shows its name and each other field exactly where it has one. |
| `Rendering.Parts.ListedResolves` | crates/asyncapi/src/spec.rs:215-246 | In the serialized document a message reference leads to the channel's own entry. |
| `Rendering.Parts.ComponentResolves` | crates/asyncapi/src/spec.rs:384-398 | ... and a component reference to the rendered component. |
| `Rendering.Parts.SecurityIsReached` | crates/asyncapi/src/servers.rs:22-36 | Each security reference of a plainly named server resolves to a scheme of the document, and to the very one declared there where names do not clash. |
| `Rendering.Parts.PlainDenotes` | crates/asyncapi/src/lib.rs:80-178 | Plain names make every written reference denote its entry. |
| `Rendering.Parts.DenotesPlain` | crates/asyncapi/src/lib.rs:80-178 | References that all denote their entries are made of plain names, because every channel is pointed at and every component listed. |
| `Rendering.BuildSpec` | crates/asyncapi/src/lib.rs:80-178 | The whole construction: servers, every handler, the agreed media type; the result is linked and has an operation per registration. |
| `Rendering.DocumentDenotesExactly` | crates/asyncapi/src/lib.rs:80-178 | Every reference a generated document holds (of operations, replies, channels' messages and servers, servers' security) denotes the entry it was written for if and only if the names of all channels and messages are plain, and of the servers that declare a scheme or are named by the first step on some channel. |
| `Rendering.DocumentResolves` | crates/asyncapi/src/lib.rs:80-178 | Under that condition every operation, reply, channel and server leads to its rendered channel, messages, components, servers and security schemes, the declared scheme where names do not clash. |
| `Rendering.SlashedChannel` | crates/asyncapi/src/operations.rs:76-78 | Whatever else it declares, a lone subscription named with a slash has an operation whose channel reference resolves to nothing. |

## Left out

- Memory ordering: the logger's steps interleave but are sequentially consistent; relaxed hardware behaviour is not modelled.
- Executors and timers: a check reads a delivery only by the deadline in force, settlements take no time, and two readers of one subscription are one merged stream.
- Publishing, connecting and subscribing in the conformance checks, and the checks of publish options, lifecycle and acknowledgement counts: each check is modelled from its first delivery on.
- Middleware that edits a message again after the send returned, and the per-message options a transform completes.
- Encodings: names are bytes or characters as given, formats and codecs are the pieces they append; UTF-8 validity and lossy decoding are not modelled, and percent-encoding reads one byte as one character.
- Document.FindId: the suffix is unbounded where the code's counter has 32 bits.
- Document.Sanitized: only ASCII letters and digits survive sanitizing, where the code keeps every Unicode alphanumeric.
- JSON text: schemas are parsed values, bindings are opaque texts, and operations, info and version are not rendered because no reference points into them.
- A server's host, version, description and bindings: only its protocol and security schemes are modelled.
- Warnings and log records emitted while a document is built.
- Real brokers, the in-memory broker, the dispatch runtime, the macros and the test harness.
