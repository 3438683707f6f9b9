# A verified model of the wlturbo transport

wlturbo is a Wayland client transport in Go. This project models its hard core in Dafny and proves what the code and its
documentation promise about it: framing a byte stream that arrives in arbitrary pieces, passing file descriptors beside
it, marshalling and decoding arguments, the life of object IDs and proxies, the order of requests on the wire, and the
dispatch of events. `dafny verify dfyconfig.toml` checks everything.

The code works in place, and so does the model where that matters: `Codec.Buffer`, `Codec.Event`, `Receive.Receiver`,
`Client.Display` and `Dispatching.Dispatcher` are classes with the fields of their Go counterparts, and each method is
proved against a function of its inputs or of the old state. What several goroutines do to each other is a state machine
over the steps the locks and atomic table operations allow (`Descriptors`, `Objects`, `Sending`), and its theorems hold
for every schedule.

| file | subject |
|---|---|
| `Bytes.dfy` | little-endian words, padding, 32-bit conversions |
| `Wire.dfy` | headers, one-shot framing (`readFrame`), frames of a whole stream |
| `Signature.dfy` | the grammar of event bodies, `validateEventBody`, counting descriptors |
| `Codec.dfy` | marshalling, decoding, lock step of validator and decoders, round trips |
| `Control.dfy` | socket control messages (`parseFDs`) |
| `Calls.dfy` | what one `nextFrame` call may read, return and leave |
| `Receiver.dfy` | buffered framing over an arbitrary reader (`nextFrame`, `fill`, `readChunk`) |
| `Descriptors.dfy` | received descriptors under every interleaving of `Dispatch` and `Close` |
| `Ids.dfy` | the ID allocator over traces of calls |
| `Objects.dfy` | proxies, live objects and zombies under every interleaving |
| `Sending.dfy` | concurrent senders and the order of the wire |
| `Versions.dfy` | protocol versions along chains of object creation |
| `Client.dfy` | the sending side as a class: `request` as a transaction, `Bind`, `Sync`, delete_id |
| `Dispatcher.dfy` | the dispatching side as a class: `prepareFrame`, `dispatchFrame`, `Roundtrip` |
| `Pipeline.dfy` | from the sender's arguments to the receiver's values |

## What is proved

- **Buffered framing is simple framing.** However the reader cuts the stream and whatever non-sticky errors come between,
  the frames `nextFrame` returns are those that repeated `readFrame` takes from the whole stream. A sticky error
  surfaces only when no complete frame is left. The state before a call decides how many reads it makes, what it returns
  and what it leaves: it reads exactly as long as it must, and a frame that fault-free reads complete is returned. The
  buffer never exceeds 65531 + 65536 bytes, so the 32-bit length comparison is exact, and every call terminates.
- **Descriptors.** In every schedule of `Dispatch` and `Close` each descriptor is in exactly one place or closed once; in
  every undisturbed one each frame gets exactly its own slice of the arrival stream, from the control messages of the
  reads to the frames of the byte stream; after `Close` the queue is empty for ever. And they get there: from every quiet
  state a frame reaches its handler with its descriptors, and every kind of failure leaves the queue as it should.
- **Validation is exact and decoding agrees with it.** `validateEventBody` accepts precisely the bodies of the grammar,
  and on those the decoders follow it byte for byte and never fall back. What it accepts is what marshalling produces, up
  to padding bytes and the null string.
- **Round trip.** Any list of well-typed messages, marshalled, cut arbitrarily, framed, validated and decoded, gives back
  the same objects, opcodes and values.
- **Objects.** IDs are reused only after delete_id, never while an object or zombie holds them; a destroyed proxy leaves a
  zombie that lasts until delete_id, and events for it are consumed without error and without a handler. Against every
  compositor, what is done through a destroyed proxy changes nothing, whoever has its ID.
- **The wire**, against every compositor. At most one destructor per proxy and nothing of that proxy after it; a removed
  proxy, stale or not, still reaches the wire exactly if a sender was past its guard; messages under one ID never
  alternate between proxies. A request or destructor left alone does go out, and nothing follows a short write or `Close`.
- **Requests are transactions**, whose outcome the refusals and the one write decide, and versions are never exceeded
  along creation chains.
- **Dispatch is decided** by tables, grammar and queue: which frames are refused, why, and whose handler runs.
- **`Roundtrip` is a barrier**, against every compositor and all other code, exactly as long as no half-registered proxy
  has the ID of its callback.

Four expectations turned out to hold only under a condition. Each comes with the exact condition:

- delete_id checks only that no live object has the ID, so it accepts one that is allocated but not registered in full
  yet, and the client need only finish registering for a live object's ID to be handed out again
  (`Objects.DeleteBeforeRegister` gives the two runs, before and inside `Register`). A delete_id is harmless, for the
  next state and for every continuation, if and only if the proxy the ID was given to is registered in full
  (`Objects.DeleteIdHarmlessExactlyOnTime`), and the lifecycle invariant holds throughout a run if and only if every
  delete_id in it is on time in this sense (`Objects.InvariantExactlyWhenTimely`). Results that do not need this are
  stated without it.
- A request already past its guard reaches the wire after its proxy was abandoned, since `Abandon` and delete_id do not
  take the send lock (`Sending.AbandonOvertakes`), and even after the ID went to another live proxy
  (`Sending.StaleRequestOvertaken`). A removed proxy can still write if and only if the socket is open and a sender is
  past its guard (`Sending.GoneWritesExactlyPastGuard`). Destructors leave no such sender (`Sending.DestructorSettles`).
- With the client's ID range used up and no ID free, `Roundtrip` returns after the first frame of any kind, because the
  callback is then registered nowhere. `Dispatching.Dispatcher.Roundtrip` states both cases, `Ids.NoIdLeft` says exactly
  when the second one arises, and `Dispatching.OthersCanExhaust` that it can.
- `Roundtrip` takes its callback for answered as soon as nothing is found under its ID, so a proxy that was given the same
  ID and registers late can pass through and take the entry along (`Objects.RivalTakesItAlong`). The callback stays in the
  table, and its ID taken, in every continuation if and only if no other proxy with that ID is still to be registered
  (`Objects.FoundExactlyWithoutRival`, and for a `Dispatcher` `BarrierExactlyWithoutRival`). `Roundtrip` is a barrier
  whenever this holds of the ID it is about to be given, whatever was deleted before and whatever is deleted meanwhile.
  It always holds when every delete_id was on time (`Objects.TimelyIsUnclaimed`);
  `Dispatching.EarlyDeleteMakesRival` is a run in which it does not. A zombie's place is secure under the same
  condition (`Objects.ZombieExactlyWithoutRival`).

## Model

| member | source | states |
|---|---|---|
| `Bytes.WordRoundTrip` | client.go:283-287 | reading a written word gives it back, whatever follows it |
| `Bytes.WordInverse` | wire.go:100-118 | writing back the word read from four bytes gives those bytes |
| `Bytes.PaddingAgrees` | core.go:369-401 | the padding formula of the decoders is the rounding up of the validator and the marshaller |
| `Wire.HeaderFields` | wire.go:100-118 | opcode and size are the low and high half of the second word, and a header is accepted exactly if its size is a multiple of four, at least 8, and within the limit if there is one |
| `Wire.HeaderRoundTrip` | client.go:265-276 | parsing a written header gives back object, opcode and size |
| `Wire.ReadFrameExtend` | wire.go:123-143 | more bytes behind a frame, or behind a bad header, change nothing about it |
| `Wire.TakeFramesExtend` | wire.go:123-143 | the first k frames of a stream do not depend on what has not arrived yet |
| `Wire.CutIndependence` | client.go:437-463 | whatever can be framed from a prefix of a stream is a prefix of what can be framed from more of it |
| `Wire.UnframedIsShort` | client.go:440-455 | bytes that hold no complete frame and no bad header are at most 65531 |
| `Signature.ChecksIsAccepts` | signature.go:10-50 | checking argument by argument accepts exactly the bodies of the grammar: known comma-terminated kinds, one legal value each, nothing left over |
| `Signature.LegalPrefix` | signature.go:25-48 | a value of a kind starts the body exactly when the computed length cuts off a legal value of it |
| `Signature.ArgumentEnd` | signature.go:21-48 | the position after one argument, with the round-up never wrapping 32 bits |
| `Signature.FindComma` | signature.go:13-16 | the scanning loop stops at the first comma or at the end |
| `Signature.ValidateEventBody` | signature.go:10-50 | returns no error exactly for the accepted bodies, and its positions are the ends of the values |
| `Signature.Unambiguous` | signature.go:10-50 | an accepted body splits into values in only one way |
| `Signature.CountFdIsFdKinds` | client.go:586-586 | for every signature made of kinds, the substring count of "fd," is the number of descriptor arguments |
| `Codec.Buffer.PutString` | client.go:291-303 | appends length, bytes, NUL and padding, or fails without writing when the length does not fit |
| `Codec.Buffer.PutArray` | client.go:307-318 | appends length, bytes and padding, or fails without writing when the length does not fit |
| `Codec.Buffer.MarshalValue` | client.go:322-342 | appends the encoding of a typed argument, or fails exactly when it has none |
| `Codec.Buffer.MarshalArg` | client.go:345-374 | a boxed argument writes the bytes of the typed one it stands for, and an unsupported type writes none |
| `Codec.MarshalArgs` | client.go:253-257 | the loop over boxed arguments writes the concatenated encodings of what they stand for |
| `Codec.MarshalValues` | client.go:258-262 | the loop over typed arguments writes their concatenated encodings, or fails if one of them has none |
| `Codec.MarshalRequest` | client.go:240-276 | boxed and typed arguments give the same message bytes, and there is a message exactly if all can be encoded and the size fits 16 bits |
| `Codec.MarshalledExactly` | client.go:240-276 | a request can be marshalled if and only if no argument is the zero value and header and values fit the 16-bit size |
| `Codec.BoxedRoundTrip` | client.go:345-374 | a boxed argument is refused exactly if its type is unsupported or it is too long; any other is read back as what it was, signed ones with their sign |
| `Codec.EncodedBodyIsAligned` | client.go:266-266 | a marshalled body is always a multiple of four bytes long |
| `Codec.OwnedFD.Take` | core.go:410-422 | hands out the descriptor once, and an error afterwards |
| `Codec.OwnedFD.Close` | core.go:423-435 | closes the descriptor at most once and not after it was taken |
| `Codec.Event.Uint32` | core.go:349-357 | value and new offset are those of the decoder function, fallback included |
| `Codec.Event.String` | core.go:369-384 | the same for strings, with the NUL dropped and 32-bit arithmetic |
| `Codec.Event.Array` | core.go:387-401 | the same for arrays |
| `Codec.Event.FD` | core.go:439-447 | hands out the event's descriptors in order, each once |
| `Codec.DecodeLegal` | core.go:349-401 | where a legal value lies in a body, its decoder reads its meaning, stops at its end and does not fall back |
| `Codec.LockStep` | core.go:349-401 | on an accepted body the decoder of each kind ends where the validator did, never falls back, and the last one ends at the body's end |
| `Codec.EncodedIsLegal` | client.go:322-342 | what is marshalled for an argument is a legal value of its kind that means the argument |
| `Codec.LegalExactly` | signature.go:25-48 | the values accepted for a kind are exactly the encodings of its arguments, up to padding bytes, and the null string |
| `Codec.BodyRoundTrip` | client.go:258-262 | decoding a marshalled body kind by kind gives back what every argument meant |
| `Codec.PrintedBodyChecks` | signature.go:10-50 | a marshalled body is accepted under its signature |
| `Codec.ReadEncoded` | wire.go:123-143 | reading a frame from a marshalled message and anything after it gives object, opcode and body, and leaves the rest |
| `Codec.StreamRoundTrip` | client.go:240-280 | framing concatenated messages gives back exactly those, whatever follows |
| `Control.ParseUnixRights` | scm_linux.go:96-97 | the descriptors of a payload of whole words, in order |
| `Control.Pad8Agrees` | scm_linux.go:101-105 | the padding of control messages is the rounding up to eight bytes |
| `Control.ParseFDs` | scm_linux.go:77-108 | the loop computes the walk over control messages, for every buffer |
| `Control.WalkWellFormed` | scm_linux.go:77-108 | well-formed messages give their descriptors concatenated, also when the last one omits its padding |
| `Control.WalkMalformed` | scm_linux.go:77-108 | a bad header after well-formed messages is an error together with exactly their descriptors |
| `Control.WalkDoneMeans` | scm_linux.go:77-108 | only well-formed messages parse without error |
| `Control.WalkMalformedMeans` | scm_linux.go:77-108 | only a bad header behind well-formed messages gives an error |
| `Receive.ReadMsg` | scm_linux.go:53-72 | the descriptors are those of the control walk whatever goes wrong; truncation is reported first, then malformed control data, then the socket's error |
| `Receive.OneArrival` | scm_linux.go:59-65 | a read brings exactly the descriptors of the control messages laid out in it, and reports a malformed one exactly if there is one |
| `Receive.ArrivalsAreCarried` | scm_linux.go:40-73 | over any number of reads the descriptors that arrive are those attached, in order; a bad control message costs only itself |
| `Receive.TruncationIsFatal` | scm_linux.go:67-73 | a call that makes a read with truncated control data fails with that error and remembers it |
| `Receive.OwnedExactly` | scm_linux.go:123-131 | of a queue, each descriptor is closed as often as it was queued, and a negative entry never |
| `Receive.Receiver.Compact` | client.go:480-483 | moving the unread bytes to the front in place changes none of them |
| `Receive.Receiver.Append` | client.go:485-487 | the unread bytes grow by the chunk, in place or in a new buffer |
| `Receive.Receiver.ReadChunk` | scm_linux.go:40-73 | one raw read, its control data parsed and its descriptors queued behind those waiting, also when it reports an error |
| `Receive.Receiver.Settle` | client.go:488-504 | which errors are reported now and which are remembered |
| `Receive.Receiver.Fill` | client.go:471-506 | a remembered error stops reading; otherwise one chunk is added, and bytes that came with an error are kept |
| `Receive.Receiver.ClosePendingFDs` | scm_linux.go:123-131 | empties the queue and closes every valid descriptor in it, in order |
| `Receive.Receiver.Peek` | client.go:439-445 | tells complete, incomplete and malformed apart as `readFrame` would on the unread bytes |
| `Receive.Receiver.Refill` | client.go:456-461 | one turn of the loop that reads: which of the two errors, remembered or reported, ends the call, and otherwise exactly one read, whose bytes are added |
| `Receive.Receiver.Attempt` | client.go:438-462 | once around the loop: a complete frame is taken without reading, a bad header fails, a remembered error is returned, and anything else costs exactly one read |
| `Receive.Receiver.NextFrame` | client.go:437-463 | what it returns, how many reads it makes and what it leaves are those of the one way a call can conclude, and it returns the frame repeated `readFrame` would take next from all bytes received; bodies handed out earlier keep their bytes until a read; it terminates |
| `Calls.CallIsDetermined` | client.go:437-463 | the state before a call and the reader leave one possible result, number of reads and state after |
| `Calls.CallReads` | client.go:456-461 | with no complete message, bad header or remembered error at hand, a call reads |
| `Calls.CallDelivers` | client.go:437-463 | if the reads up to some point have no fault and complete a message, the call returns that message and reads no further |
| `Calls.DeadlineMeans` | client.go:488-504 | a deadline is returned only if the last read of this call missed it, and is not remembered |
| `Calls.LastReport` | client.go:488-504 | what the last read reports is what the call returns, and its fault is remembered unless it is a deadline |
| `Receive.Receiver.constructor` | client.go:77-97 | starts with an empty buffer, no frames and no descriptors |
| `Descriptors.PreparedExactly` | client.go:550-612 | which frames are refused, with which error and in which order of checks, and what every other frame is assigned |
| `Descriptors.PrepareConserves` | client.go:550-612 | preparing a frame neither loses nor duplicates a descriptor, and closes some only when it refuses the frame |
| `Descriptors.StepConserves` | client.go:388-426 | no step of `Dispatch`, `Close` or a handler loses or duplicates a queue entry |
| `Descriptors.DescriptorsConserved` | client.go:513-612 | in every reachable state each entry ever queued is pending, held by the event, with a handler, taken over, or let go for closing, and counted once |
| `Descriptors.NoLeakAfterClose` | client.go:181-191 | once closed, with no dispatch in progress and handlers done, every descriptor that arrived has been closed exactly once, and negative entries never |
| `Descriptors.SafeAlways` | client.go:388-426 | the lock and flag discipline of the queue holds in every reachable state |
| `Descriptors.CloseIsFinal` | client.go:181-191 | after the winning `Close` has cleared the queue, no later step of any schedule queues or assigns a descriptor |
| `Descriptors.DescriptorAlignment` | client.go:586-598 | without protocol error or `Close`, prepared frame i gets as many descriptors as its target calls for, from the sum of all earlier counts on, zombies included |
| `Descriptors.SurplusImpliesUnread` | client.go:599-608 | after a dispatched frame a non-empty queue implies unread bytes |
| `Descriptors.FrameGetsThrough` | client.go:388-407 | from every quiet state a run gets an accepted frame to its handler with the descriptors it calls for; those of a zombie are closed |
| `Descriptors.RefusalGetsThrough` | client.go:412-426 | a run refuses any frame that must be refused and closes all that was queued, each descriptor once |
| `Descriptors.ReadErrorGetsThrough` | client.go:412-426 | a failed read closes the queue if it is a protocol error or the end of the stream, and keeps it otherwise |
| `Descriptors.DisplayEventGetsThrough` | client.go:513-522 | so does a display event whose handling fails; one that succeeds leaves the queue alone |
| `Descriptors.CloseGetsThrough` | client.go:181-191 | `Close` returns with the whole queue closed |
| `Ids.AllocateOk` | client.go:204-219 | allocation keeps the free list sound and returns an ID in [2, nextID) that was free, or a fresh one if none was |
| `Ids.AllocateUndoesRetire` | client.go:204-219 | allocating right after a deletion returns that ID and restores the allocator |
| `Ids.NoIdLeft` | client.go:213-215 | no ID is returned exactly when none is free and the client's range is used up |
| `Ids.AlwaysOk` | client.go:204-219 | over every trace the free list has no duplicates, is the retired set and lies in [2, nextID) |
| `Ids.ReuseIsSeparated` | client.go:640-661 | two returns of the same ID have an accepted delete_id for it between them |
| `Ids.AcceptedExactly` | client.go:640-661 | in every trace a delete_id is accepted if and only if its ID is outstanding and its object not live |
| `Ids.SecondDeleteRejected` | client.go:651-654 | a second delete_id without reallocation is rejected and changes nothing |
| `Ids.DenselyPacked` | client.go:204-219 | the IDs ever returned are exactly those in [2, nextID), below the server's range |
| `Objects.StepKeeps` | core.go:202-250 | every single table or allocator step keeps the lifecycle invariant; a delete_id does if it is on time |
| `Objects.LifecycleInvariant` | core.go:202-250 | the lifecycle invariant holds along every interleaving in which delete_id is on time |
| `Objects.AllocateNeverTaken` | client.go:204-219 | an allocated ID is in neither table, so no live object or zombie has it |
| `Objects.RetiredAreFree` | client.go:640-661 | free IDs are disjoint from every ID in the tables |
| `Objects.TablesAgree` | core.go:232-250 | while no operation on a proxy is half done, both tables hold it under the same ID or neither does |
| `Objects.StaleStepIsInert` | core.go:202-250 | in timely runs, where an ID can be known to be retired: no step through a proxy whose ID is retired or reassigned changes a table or the allocator |
| `Objects.StaleForEver` | core.go:82-94 | in timely runs such a proxy stays stale and out of both tables |
| `Objects.ZombieUntilDeleteId` | core.go:242-250 | a zombie survives everything but a delete_id for its ID |
| `Objects.EntombLeavesZombie` | core.go:202-213 | the second half of a claim replaces the live object by a zombie and changes nothing else |
| `Objects.ClaimedIsZombie` | core.go:202-213 | in timely runs the zombie is there from the end of a claim until a delete_id names its ID |
| `Objects.ZombieExactlyWithoutRival` | core.go:242-250 | against every compositor, a zombie survives all but a delete_id for its ID if and only if nobody is still to be registered under that ID |
| `Objects.BuriedGetsNoEvents` | client.go:533-537 | after a claim or `Unregister` no look at the table finds the proxy live, whatever the compositor deletes |
| `Objects.BuriedStepIsInert` | core.go:202-250 | against every compositor, a step through a destroyed or unregistered proxy changes nothing at all |
| `Objects.BuriedIsInert` | core.go:202-250 | against every compositor, leaving out all steps through such a proxy gives a run with the same end, and it is never found in either table |
| `Objects.ShapeAlways` | core.go:202-250 | against every compositor, a table entry of a proxy is under its own ID, not before it was stored and not after it was removed |
| `Objects.FreeDisjointStep` | core.go:232-240 | for each atomic step, exactly when it keeps free IDs out of the tables |
| `Objects.EarlyBreaks` | client.go:640-661 | after a delete_id for an ID not registered in full, finishing the registration makes a live object's ID free |
| `Objects.DeleteIdHarmlessExactlyOnTime` | client.go:640-661 | a delete_id keeps the invariant, and keeps free IDs out of the tables in every continuation, if and only if it is on time |
| `Objects.InvariantExactlyWhenTimely` | client.go:640-661 | the lifecycle invariant holds throughout a run if and only if every delete_id in it is on time |
| `Objects.WaitsStep` | client.go:675-682 | no step through another proxy and no delete_id takes a waiting object without rival out of the table, or gives it a rival |
| `Objects.FoundExactlyWithoutRival` | client.go:675-682 | an object stays in the table, and its ID taken, in every continuation not through it if and only if no other proxy with its ID is still to be registered |
| `Objects.RivalTakesItAlong` | core.go:232-250 | a proxy that finishes registering under another's ID and is unregistered leaves that ID empty |
| `Objects.TimelyHasNoRival` | client.go:640-661 | when every delete_id was on time, a registered object is waiting and has no rival |
| `Objects.TimelyIsUnclaimed` | client.go:640-661 | when every delete_id was on time, nobody is still to be registered under the next ID |
| `Objects.SoundAlways` | core.go:202-250 | against every compositor, allocator and tables keep the invariant that waiting relies on |
| `Objects.DeleteBeforeRegister` | client.go:640-661 | two runs in which delete_id comes before or inside `Register` and a live object's ID is handed out again |
| `Sending.StepKeeps` | scm_linux.go:139-170 | every step of any sender, and any delete_id, keeps the lock discipline and the order of the wire |
| `Sending.WireOrder` | core.go:130-213 | after a destructor no message of its proxy follows, under every interleaving and against every compositor |
| `Sending.GoneStaysSilent` | core.go:186-213 | once a proxy is out of the table and nobody is past its guard, it never writes again, whatever the compositor deletes |
| `Sending.GoneWritesExactlyPastGuard` | core.go:186-222 | a removed proxy can still reach the wire if and only if the socket is open and a sender is past its guard |
| `Sending.HoldersDoNotAlternate` | scm_linux.go:139-170 | messages under one ID never alternate between proxies: nothing of an old holder follows a message of a new one |
| `Sending.DestructorSettles` | scm_linux.go:148-152 | when a destructor is written nobody else is past a guard for its proxy |
| `Sending.RequestGoesOut` | scm_linux.go:139-170 | from every state with an open socket, a free lock and a registered proxy, the steps of one sender put its request on the wire and change nothing else |
| `Sending.DestructorGoesOut` | core.go:202-213 | the same for a destructor, which leaves the proxy claimed and a zombie in its place |
| `Sending.ClosedIsSilent` | scm_linux.go:139-170 | whatever follows, nothing is written after `Close`, and nothing after a write that fell short but its fragment |
| `Sending.AbandonOvertakes` | core.go:220-222 | a request past its guard can be written after the proxy has been abandoned |
| `Sending.PlainRequestPastGuard` | scm_linux.go:148-152 | such a state is reachable |
| `Sending.StaleRequestOvertaken` | core.go:220-222 | a run in which a request is written under its ID after that ID was deleted and given to another, live proxy |
| `Versions.InheritedVersion` | core.go:150-158 | an object carries min(announced, supported) of the global it descends from, and so one of the two, however long the chain |
| `Versions.NoRequestTooNew` | core.go:145-149 | no request newer than that reaches the wire |
| `Versions.SentExactlyWhenNotTooNew` | core.go:145-149 | a request is sent if and only if it is not newer than what its object descends from announced and supported |
| `Client.FreshId` | client.go:204-219 | an ID just allocated is in no table, and the tables stay consistent whether or not it is used |
| `Client.UnbornUndoes` | core.go:165-170 | taking a new object out again restores the tables, also after another proxy was claimed |
| `Client.OutcomeWithChild` | core.go:130-175 | a guarded send with the new object taken back on failure is all or nothing, or a broken connection |
| `Client.BornConsistent` | core.go:232-240 | registering keeps the tables consistent if and only if the ID is outstanding |
| `Client.ClaimMeans` | core.go:202-213 | in consistent tables a claim removes the proxy from one, puts a zombie in the other, and changes nothing else |
| `Client.BindSays` | client.go:778-817 | the bind request, framed and decoded, names the global, its interface, the version and the new ID |
| `Client.SyncSays` | core.go:546-564 | the sync request, framed and decoded, goes to the display and names the callback |
| `Client.Display.constructor` | client.go:77-97 | starts consistent, with the display at 1 and the registry at 2 |
| `Client.Display.AllocateID` | client.go:204-219 | answers as the allocator function does |
| `Client.Display.DeleteID` | client.go:640-661 | drops a zombie in any case, retires the ID exactly if it may be, and keeps the tables consistent |
| `Client.Display.Register` | core.go:232-240 | puts a proxy of this context in both tables, and any other in none; afterwards exactly the former can send |
| `Client.Display.Unregister` | core.go:245-250 | removes this proxy only, which then cannot send; a zombie or a newer holder of the ID stays |
| `Client.Display.ClaimDestroy` | core.go:202-213 | succeeds exactly for a registered proxy; then it is out of the one table, a zombie stands in the other, and nothing else has changed |
| `Client.Display.WriteAll` | scm_linux.go:153-169 | one write; succeeds if and only if the socket was open and the writer took all bytes without error; otherwise the socket is shut behind exactly the bytes that were taken |
| `Client.Display.SendMsg` | scm_linux.go:139-170 | each refusal has its exact condition and leaves everything as it was; otherwise the claim has happened, and the write decides between message and broken connection |
| `Client.Display.SendRequest` | client.go:240-280 | a marshalling error touches nothing; otherwise the message sent is the encoding of the arguments |
| `Client.Display.SendChecked` | core.go:179-184 | a proxy that is not registered sends nothing; a registered one fails only in marshalling, for lack of descriptor passing, or in the write |
| `Client.Display.CountMarkers` | core.go:131-137 | the number of descriptor arguments |
| `Client.Display.Check` | core.go:131-149 | which of the three refusals of `request` applies, each with its exact condition |
| `Client.Display.Adopt` | core.go:150-158 | a new object has a fresh ID, its parent's version and its places in both tables |
| `Client.Display.Perform` | core.go:150-175 | marshalling, descriptor passing and the one write decide whether the request takes effect, changes nothing, or breaks the connection |
| `Client.Display.Request` | core.go:130-175 | refused exactly as the three checks say: nothing moves, not even the ID counter; failed before the write: wire, tables and descriptors as before; otherwise it fails if and only if its write falls short; sent: exactly one message with exactly the request's descriptors, the child in both tables at its parent's version, each descriptor closed, a destructor's proxy a zombie |
| `Client.Display.Sync` | core.go:546-564 | the callback is registered when its request is written, and in no table if that fails, which it does exactly if it is not marshalled, the context is closed or the write falls short |
| `Client.Display.FindGlobal` | client.go:844-854 | some announced global of the interface, or there is none |
| `Client.GlobalDecodes` | client.go:713-720 | the decoders read every accepted wl_registry.global as the grammar does |
| `Client.RegistrySignatures` | client.go:701-709 | the kinds the registry's events are validated with are those its decoders are called for |
| `Client.Display.RegistryEvent` | client.go:713-741 | an accepted event announces or removes exactly the global its values name; any other opcode does nothing |
| `Client.Display.Bind` | client.go:778-817 | a foreign proxy, a reserved ID or one in use is refused, and nothing else, with tables and wire untouched, though a proxy without ID keeps the one it was given; success means registered, version recorded and bind written, and leaves the tables consistent if and only if the ID was outstanding; failure, exactly when the send fails, leaves the proxy in no table |
| `Client.Display.BindNegotiated` | client.go:762-775 | what is bound is announced, at min(announced, supported); refused without a supported version or a usable global, with nothing touched, and otherwise it ends as the bind does; consistent exactly as `Bind` is |
| `Dispatching.OthersAreHarmless` | client.go:533-537 | no code outside the library breaks the invariants, touches a private callback, or disturbs one that can be waited for |
| `Dispatching.OthersCanExhaust` | client.go:213-215 | other code can use up the client's IDs |
| `Dispatching.OthersExactlyRivals` | client.go:675-682 | other code can leave a callback's ID empty before its done event if and only if a half-registered proxy has that ID too |
| `Dispatching.EarlyDeleteMakesRival` | client.go:640-661 | a run in which a delete_id that is not on time gives a callback such a rival |
| `Dispatching.Dispatcher.constructor` | client.go:77-97 | starts with the initial tables and nothing dispatched |
| `Dispatching.Dispatcher.RegisterEventSignature` | client.go:621-626 | changes the signature of that event for objects that declare none, and of nothing else |
| `Dispatching.Dispatcher.DeclaredSignatures` | client.go:564-579 | an object that declares its events is bound by what it declares; registered signatures serve only the others |
| `Dispatching.Dispatcher.LookUp` | client.go:560-586 | what tables and signatures say about a frame: acceptance by the grammar, the descriptor count, whether it is for a zombie |
| `Dispatching.Dispatcher.PrepareFrame` | client.go:550-612 | outcome, remaining queue and closed descriptors are those of the function the schedules are proved about, and the queue loses only its front |
| `Dispatching.Dispatcher.Sort` | client.go:550-612 | from tables, grammar and queue: refused with the error of the first check that fails, assigned the counted descriptors if none does |
| `Dispatching.Dispatcher.Place` | client.go:586-598 | the same; a frame that is not refused takes exactly as many descriptors as its signature counts, off the front of the queue |
| `Dispatching.Dispatcher.Deliver` | client.go:523-541 | a handler runs exactly if its object is live and still the same at the second look; an event for a zombie changes nothing; the done event of a callback without rival removes it, anything else leaves callbacks alone |
| `Dispatching.ErrorRoundTrip` | client.go:635-638 | what the compositor encodes as an error is an accepted event that says just that |
| `Dispatching.ErrorDecodes` | client.go:635-638 | the decoders read every accepted error event as the grammar does, null strings and odd padding included |
| `Dispatching.Dispatcher.HandleDisplayEvent` | client.go:629-666 | every accepted error comes back as what its values say, a malformed one as a protocol error; a delete_id succeeds if and only if it is well formed and its ID may be retired, with its effect on tables and allocator |
| `Dispatching.Dispatcher.DispatchFrame` | client.go:513-542 | which frames succeed, the error of each that does not, and whose handler runs follow from tables, grammar and queue; it takes as many descriptors as its signature counts; all that leave the queue are closed at its end, refused or not; a zombie's frame changes nothing else; it moves a callback only on its done event |
| `Dispatching.Dispatcher.Fail` | client.go:412-426 | a protocol error and a lost connection close every queued descriptor, any other error keeps them |
| `Dispatching.Dispatcher.Dispatch` | client.go:388-407 | on a closed display nothing but that error; otherwise it fails as `nextFrame` does, or takes the next frame of the stream, which succeeds or fails as tables, grammar and queue decide |
| `Dispatching.Dispatcher.StreamAligned` | client.go:586-598 | over successive calls, frame i of the byte stream got its own slice of the descriptors that arrived, however both were cut into reads |
| `Dispatching.Dispatcher.AllAccountedFor` | client.go:412-426 | over successive calls, failed ones included, the descriptors closed and those still queued are all that ever arrived, in order |
| `Dispatching.Dispatcher.BarrierExactlyWithoutRival` | client.go:675-682 | for a callback of this dispatcher, other code can never empty its ID if and only if it has no rival |
| `Dispatching.Dispatcher.Turn` | client.go:675-682 | while the callback has no rival the loop ends exactly on its done event, or at once when it has no ID, and otherwise it still has none; a failure is that of `Dispatch` |
| `Dispatching.Dispatcher.Roundtrip` | client.go:670-683 | if nobody is still to be registered under the ID it is given, then when it returns all frames up to the first done event of the callback, and no further, were dispatched once and in stream order, against every compositor; without an ID the first frame ends it; it stops short only unsent or by a failed `Dispatch` |
| `Pipeline.FramedIsSent` | client.go:437-463 | whatever has arrived of a stream of messages frames to a prefix of them |
| `Pipeline.WholePipeline` | client.go:240-342 | every framed message has the object and opcode sent, passes validation under its signature, and all its arguments, if any, decode to what was meant |
| `Pipeline.ReceiveAll` | client.go:437-463 | successive `nextFrame` calls return the messages sent, in order, up to an error; all of them if the reads that bring them have no fault |

## Left out

- Sockets, environment lookup, `Connect`: the reader is any sequence of chunks, descriptors and errors, the writer any sequence of outcomes.
- `CreateAnonymousFile`, `MapMemory`, `ShmPool`: system calls and an offset counter, which would add only easy members.
- `sync.Pool`, reuse of buffers and events: performance only. The scratch buffer of a read is part of the reader.
- `Fixed` to and from float64: a fixed-point number is its 32-bit word.
- Error texts and wrapping: errors are values of a datatype, one per kind.
- `BindID`, `UnregisterID`, `RunTill`, registry handlers, `wl` aliases: thin. `UnregisterID` is also what the theorems about proxies and callbacks exclude.
- Unguarded `SendRequest` on IDs of the caller's choosing: only as `Bind` and `Sync` use it.
- Server-range IDs in the lifecycle runs: objects created by the compositor are not part of the model.
- `Control.ParseFDs`: a rights payload that is not a whole number of words, which the kernel does not produce, is the outcome `Panics`.
- `Control.WalkDoneMeans`: for buffers below 2^32 bytes, so that a control length fits one word.
- `Control.WalkMalformedMeans`: the same.
- `Codec.LockStep`: for bodies below 2^32 bytes; a frame has at most 65527.
- `Codec.BodyRoundTrip`: the same.
- `Objects.LifecycleInvariant`: runs in which a proxy gets one ID, is registered once and is used afterwards; delete_id is one step, since it holds the ID lock and the zombie it drops belongs to nobody else.
- `Versions.InheritedVersion`: counts objects by creation, so a proxy bound a second time is a second object.
- `Client.Display.Request`: one call at a time; interleavings are the subject of `Objects` and `Sending`. A boxed argument is given by the typed one it stands for.
- `Dispatching.Dispatcher.Dispatch`: handlers do not take descriptors here and `Close` does not run in the middle of a call; in `Descriptors` both happen.
- `Dispatching.Dispatcher.Roundtrip`: is given a bound on the number of frames, since a silent compositor can keep it waiting for ever; the result `Waiting` stands for going on.
