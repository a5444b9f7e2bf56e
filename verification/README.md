# FIDL wire format and compiler core

A Dafny model of the parts of FIDL that have to agree with each other: the struct
layout compiler, the Go encoder and decoder, the Go router and async waiter, the
C++ serializer, encoder, validator and decoder, and the name and value resolution
and the lexer of the compiler front end. Each part is modelled as the code does
it, branch by branch, and the agreements between the parts are proved for all
inputs, all runs or all reachable states.

## Modules

- Struct layout: `Layout` (first fit into holes), `Versions` (sizes and version
  table), `StructCompiler` (the loops over field objects), `PythonLayout` (byte
  layout and the relayout by the Python runtime), `LayoutCursor` and
  `LayoutEncoder` (the encoder against the compiler's offsets).
- Go codec: `Wire`, `Cursor` (positions and the capacity guard), `Codec` (the
  stack machine as functions), `CodecFrame` (what writing keeps),
  `CodecRoundTrip`, `CodecClear` (types that always decode), `CodecLaws` (decoding
  arbitrary bytes), `Message`, `MessageLaws`, and the classes `GoEncoder`,
  `GoDecoder`, which are proved against the machine.
- Go to C++: `Interop` (what Go encodes is the encoded form of C++), `InteropTypes`
  (and C++ accepts and reads it).
- Go concurrency: `Waiter` (the worker's slices), `WaiterProtocol` (callers,
  worker and response channels as a step relation), `WaiterLiveness`, `Router`,
  `RouterRuns`, `RouterResults` (who is told what), `RouterShutdown`.
- C++ bindings: `CppValues`, `CppImage` (what it means that a value lies in
  memory), `CppSerialize`, `CppFault` (the error it reports), `CppEncode`,
  `CppValidate`, `CppSound`, `CppVerdict` (the error of the validator), `CppVisit`
  (what decoding goes through), `CppRewrite`, `CppDecode`, `CppRead` (the value that a
  message stands for), `CppDeserialize`, `CppArrival`, `CppAccept`, `CppTransfer`.
- Front end: `Resolve`, `Scopes`, `Utf8`, `Tokens` (the tokens of a text as a
  function of it), `TokenLaws`, `TokenEnds`, `TokenMatch` (longest match),
  `Lexer`.

## What the code does that one might not expect

- The capacity guard of the Go codec aligns to an item size that is 9 for an
  8-byte item behind a pending bool. It refuses such an item at the end of its
  block, in the upper half of a 16-byte line. `WritePointer` aligns before the
  guard and `ReadPointer` does not, so a struct of a bool and a string encodes and
  does not decode (`CodecRoundTrip.DecoderRefusesEncodedStruct`). `RoundTrip` gives
  the exact condition, `CodecClear` one on the declared types.
- A router that is closed with a request without response in its queue sends on a
  channel that does not exist and never answers what is queued behind it, although
  its comment promises that all requests are answered
  (`RouterShutdown.CloseLosesRequest`, `RouterShutdown.LostForever`).
  `RouterShutdown.AnsweredExactly` says of each run when the promise is kept.
- The async waiter sends responses on channels that its callers supply, and does not
  ask for a buffer. On a full one its worker stands still, and with it every other
  call (`WaiterLiveness.BlockedRun`); `WaiterLiveness.HaltsExactly` says when this
  can happen.
- A response with an unknown request id blocks the router's worker for good; it is
  the program point `Stuck`, and all safety statements include it.
- A lookup from inside a type misses the objects of a module that has the type's
  name (`Scopes.ModuleHidesNames`); `Scopes.FlatExactly` gives the exact condition.
- The storage size of a C++ bool array is rounded in 32 bits, so for counts above
  2^32 - 8 the claimed range may be smaller than the elements
  (`CppSound.WrappedCountIsAccepted`); `CppSound.ClaimsHoldElements` says exactly
  when it is.
- Inside a multi-line comment a star takes the next rune with it, also when that is
  another star. So `/***/` is not recognised as closed while `/**/` is: the first
  star and slash end the comment exactly if the stars there, not counting the one of
  the opening, are odd in number (`TokenEnds.FirstCloseEnds`).
- A union with a bool member leaves the Go encoder's cursor inside the 16 bytes that
  the compiler gave it, so a following field of less than a word is written there
  (`LayoutCursor.BehindBoolUnion`).

## Model

| member | source | states |
|---|---|---|
| `Layout.RoundUp` | compiler/src/fidl/compiler/core/computed_data.go:45-47 | an offset plus its padding is the least multiple of the alignment that is not below it |
| `Layout.PackIsChain` | compiler/src/fidl/compiler/core/computed_data.go:65-102 | after every field, also one put into a hole, each slot starts where its predecessor ends, rounded up to its own alignment, or is the next bit of the same byte |
| `Layout.PackWellFormed` | compiler/src/fidl/compiler/core/computed_data.go:65-102 | fields are aligned and pairwise disjoint, and the bools of a byte fill it from bit 0 without gaps |
| `Layout.PackNames` | compiler/src/fidl/compiler/core/computed_data.go:65-102 | the packing holds every field once, with its own kind |
| `Layout.AppendStable` | compiler/src/fidl/compiler/core/computed_data.go:65-102 | appending fields never moves an earlier one |
| `Layout.TruncatedPack` | compiler/src/fidl/compiler/core/computed_data.go:65-102 | the packing cut down to the first n fields is the packing of those fields |
| `Layout.FirstFitOptimal` | compiler/src/fidl/compiler/core/computed_data.go:65-120 | each field has the lexicographically least (offset, bit) that meets its alignment and is free of all lower ordinals |
| `StructCompiler.MojomStruct.ComputeFieldOffsets` | compiler/src/fidl/compiler/core/computed_data.go:65-102 | sets offset and bit of every field object to the first-fit slot |
| `StructCompiler.MojomStruct.PlaceField` | compiler/src/fidl/compiler/core/computed_data.go:68-100 | one round of the field loop: into the first hole that fits, otherwise behind the last field |
| `StructCompiler.MojomStruct.FindHole` | compiler/src/fidl/compiler/core/computed_data.go:80-95 | the position the search of the packing list stops at |
| `StructCompiler.MojomStruct.ComputeTentativeFieldOffset` | compiler/src/fidl/compiler/core/computed_data.go:110-120 | the tentative offset and bit behind a field |
| `StructCompiler.MojomStruct.ComputeVersionInfo` | compiler/src/fidl/compiler/core/computed_data.go:211-269 | the version table, or the first attribute error |
| `Versions.PayloadSizeIsLastEnd` | compiler/src/fidl/compiler/core/computed_data.go:277-281 | the size so far, taken from the fields seen so far, is the end of the packing list rounded up |
| `Versions.PayloadSizeBounds` | compiler/src/fidl/compiler/core/computed_data.go:277-281 | the byte size is a multiple of 8, covers every field, and is at most 8 plus the sum of the sizes each rounded up to 8 |
| `Versions.VersionTable` | compiler/src/fidl/compiler/core/computed_data.go:211-269 | the table exists if and only if the version attributes are legal; it starts at 0, increases strictly, ends with all fields, and each entry has the fields of its version |
| `Versions.VersionErrorExactly` | compiler/src/fidl/compiler/core/computed_data.go:216-253 | without a table the error is that of the first offending field: ill formed, else below an earlier one, else too late for its type |
| `Versions.VersionEntryIsTruncation` | compiler/src/fidl/compiler/core/computed_data.go:211-281 | each entry, field count and byte size, is what the compiler gives for the struct truncated to that version |
| `Versions.FieldsOfVersion` | compiler/src/fidl/compiler/core/computed_data.go:211-269 | a field exists in a version exactly if it is among the fields of the entry that governs the version |
| `PythonLayout.GetByteLayout` | compiler/legacy_generators/pylib/mojom/generate/pack.py:107-133 | all indexing is in range and the assertion cannot fire: each byte lists the fields that start in it and is marked as padding exactly when no field covers it |
| `PythonLayout.PackSorted` | compiler/legacy_generators/pylib/mojom/generate/pack.py:76-133 | the packing is sorted by offset and bit, so visiting slots in order is visiting bytes in order |
| `PythonLayout.GetFieldGroups` | compiler/legacy_generators/generators/fidl_python_generator.py:214-219 | the groups built from the byte layout are the packing cut into runs, one group per byte |
| `PythonLayout.FilterGroupUp` | compiler/legacy_generators/pylib/mojo_bindings/descriptor.py:684-790 | filtering the groups by version gives the groups of the truncated packing |
| `PythonLayout.GetStruct` | compiler/legacy_generators/pylib/mojo_bindings/serialization.py:209-223 | the running position gives each group its relaid offset, and the end of the last one |
| `PythonLayout.NeededPaddingForAlignment` | compiler/legacy_generators/pylib/mojo_bindings/serialization.py:191-195 | position plus padding is the least aligned position |
| `PythonLayout.RelayoutPack` | compiler/legacy_generators/pylib/mojo_bindings/serialization.py:204-223 | laying the groups out again, without being told an offset, gives the compiler's offsets, bits and byte size |
| `PythonLayout.VersionRelayout` | compiler/legacy_generators/pylib/mojo_bindings/serialization.py:122-134 | filtered by any version the relayout gives the original offsets and bits and the byte size of the governing table entry |
| `LayoutEncoder.EncoderFindsLayout` | go/src/fidl/bindings/encoder.go:247-373 | the encoder, run over the fields of a struct in packing order, leaves each value in the bytes and the bit that the compiler computed for it |
| `LayoutEncoder.FieldsAreValues` | go/src/fidl/bindings/encoder.go:247-405 | without unions, this run is the one of the codec |
| `LayoutCursor.UnionPast` | go/src/fidl/bindings/encoder.go:202-222 | the cursor is behind the 16 bytes of a union if and only if its member is not a bool |
| `LayoutEncoder.EncoderAcceptsLayout` | go/src/fidl/bindings/encoder.go:80-92 | in a block of the compiler's size, a field is written if and only if it can be stored at all and is not the wasteful 8-byte case, which a pointer that aligns first never is |
| `LayoutEncoder.SizeWordIsNumBytes` | go/src/fidl/bindings/encoder.go:179-184 | in a struct whose fields the compiler laid out, the size word of the header and the bytes claimed are the byte size of the last entry of the version table |
| `LayoutCursor.BehindBoolUnion` | go/src/fidl/bindings/encoder.go:217-222 | a field behind a union with a bool member is written where the compiler put it if and only if it is aligned to a word |
| `Cursor.AlignIsRoundUp` | go/src/fidl/bindings/util.go:11-15 | aligning by a bitwise or with the alignment minus one is rounding up, for the alignments 1, 2, 4, 8 |
| `Cursor.GuardExact` | go/src/fidl/bindings/encoder.go:80-92 | with a limit of whole words, the guard accepts an item if and only if its aligned bytes fit and it is not the wasteful case; in particular what it accepts stays in the block |
| `Cursor.GuardBit` | go/src/fidl/bindings/encoder.go:80-92 | the guard accepts a bool if and only if its bit is in the block |
| `Cursor.GuardRejectsLegalItem` | go/src/fidl/bindings/encoder.go:80-92 | concrete state in which the guard refuses an 8-byte item that fits |
| `CodecFrame.ObjectKeeps` | go/src/fidl/bindings/encoder.go:161-405 | encoding an object only appends: earlier bytes of other blocks stay, unwritten bits stay zero, the cursor only moves forward |
| `CodecFrame.WriteUintKeeps` | go/src/fidl/bindings/encoder.go:265-328 | an accepted integer write touches only unwritten bytes of its own block |
| `CodecFrame.WriteBoolKeeps` | go/src/fidl/bindings/encoder.go:247-258 | an accepted bool write touches only one unwritten bit of its own block |
| `CodecFrame.StartSound` | go/src/fidl/bindings/encoder.go:116-129 | opening a block keeps every open block sound |
| `CodecFrame.WriteUintSound` | go/src/fidl/bindings/encoder.go:265-328 | an integer write keeps every open block sound |
| `CodecFrame.WriteBoolSound` | go/src/fidl/bindings/encoder.go:247-258 | a bool write keeps every open block sound |
| `CodecRoundTrip.ValueReadsBack` | go/src/fidl/bindings/decoder.go:219-411 | one value, at any place of any encoding, reads back as itself; success exactly if its items are clear |
| `CodecRoundTrip.ObjectReadsBack` | go/src/fidl/bindings/decoder.go:96-217 | an object behind its header reads back as itself, with everything it points to |
| `CodecRoundTrip.RoundTrip` | go/src/fidl/bindings/decoder.go:96-411 | for every script tree, what decodes equals what was encoded, handles included; with whole-word struct sizes decoding succeeds if and only if no 8-byte item meets the wasteful case |
| `CodecClear.AlwaysDecodes` | go/src/fidl/bindings/decoder.go:96-411 | when the declared types alone never put an 8-byte field in the wasteful place, decoding succeeds and gives back every value encoded |
| `CodecClear.NothingPending` | go/src/fidl/bindings/decoder.go:286-303 | in particular when no bool is pending in front of an 8-byte field |
| `CodecClear.FlatDecodesExactly` | go/src/fidl/bindings/decoder.go:286-303 | a struct without objects behind it decodes if and only if its declaration has no wasteful field |
| `CodecRoundTrip.DecoderRefusesEncodedStruct` | go/src/fidl/bindings/decoder.go:339-363 | a struct of a bool and a string that the encoder accepts and the decoder refuses |
| `CodecLaws.ObjectLaws` | go/src/fidl/bindings/decoder.go:41-216 | on arbitrary bytes: an object that decodes has its type, its blocks lie one after the other at whole words, each inside the input and with the header its type asks for, and its handles are those at strictly increasing indices of the table |
| `CodecLaws.ValueLaws` | go/src/fidl/bindings/decoder.go:219-411 | the same for one value |
| `CodecLaws.HandleLaws` | go/src/fidl/bindings/decoder.go:365-379 | on arbitrary bytes: a handle is read at an index not below all that were used before, which are then used up |
| `Interop.ObjectImaged` | go/src/fidl/bindings/encoder.go:161-405 | whatever the Go encoder writes for arrays and maps of any nesting is byte for byte what the C++ bindings call the encoded form of the same value, of the size they compute, with the handles in the same order |
| `Interop.BitsImaged` | go/src/fidl/bindings/encoder.go:247-258 | in particular every bool is in the bit where C++ looks for it |
| `Interop.PodsImaged` | go/src/fidl/bindings/encoder.go:265-328 | and every integer in its bytes |
| `Interop.HandlesImaged` | go/src/fidl/bindings/encoder.go:380-387 | and every handle stands as its index |
| `InteropTypes.GoToCpp` | cpp/bindings/internal/array_internal.h:422-462 | the C++ validator accepts every message of arrays and maps that the Go encoder wrote; it stands for the value that was encoded, and all its handles are taken |
| `InteropTypes.ObjectFine` | cpp/bindings/internal/array_serialization.h:494-527 | what the Go encoder accepts is legal for C++: lengths of fixed arrays, and nulls and invalid handles only where allowed |
| `Message.HeaderEncodes` | go/src/fidl/bindings/message.go:80-94 | a message header always encodes, to the size its version has |
| `Message.HeaderParses` | go/src/fidl/bindings/message.go:96-138 | parsing gives the header back if and only if its flags are 0, 1 or 2; with flags 0 it carries no request id |
| `Message.MessageRoundTrip` | go/src/fidl/bindings/message.go:181-205 | header and payload round-trip through ParseMessage, with the same payload slice |
| `MessageLaws.HeaderExactly` | go/src/fidl/bindings/message.go:96-138 | on arbitrary bytes: parsing gives the header if and only if its size, version and flags go together, with its words read off the bytes |
| `MessageLaws.MessageExactly` | go/src/fidl/bindings/message.go:181-205 | on arbitrary bytes: a message parses if and only if its header does, and the payload is what follows |
| `GoEncoder.Encoder.constructor` | go/src/fidl/bindings/encoder.go:140-148 | an empty encoder |
| `GoEncoder.Encoder.ClaimData` | go/src/fidl/bindings/encoder.go:96-108 | claimed bytes are zero, earlier ones kept, and the bytes copied by growth never exceed the buffer |
| `GoEncoder.Encoder.PushState` | go/src/fidl/bindings/encoder.go:116-129 | claims whole words and opens a block over them |
| `GoEncoder.Encoder.StartBlock` | go/src/fidl/bindings/encoder.go:194-200 | opens a block and writes its header |
| `GoEncoder.Encoder.StartArray` | go/src/fidl/bindings/encoder.go:161-166 | refines the machine step |
| `GoEncoder.Encoder.StartMap` | go/src/fidl/bindings/encoder.go:171-175 | refines the machine step |
| `GoEncoder.Encoder.StartStruct` | go/src/fidl/bindings/encoder.go:179-184 | refines the machine step |
| `GoEncoder.Encoder.WriteUint` | go/src/fidl/bindings/encoder.go:265-328 | refines the machine step; a refused write changes nothing |
| `GoEncoder.Encoder.WriteBool` | go/src/fidl/bindings/encoder.go:247-258 | refines the machine step; a refused write changes nothing |
| `GoEncoder.Encoder.WritePointer` | go/src/fidl/bindings/encoder.go:368-373 | refines the machine step: aligns, then writes the distance to the end of the buffer |
| `GoEncoder.Encoder.WriteHandle` | go/src/fidl/bindings/encoder.go:380-387 | refines the machine step: the handle goes to the table, its index to the bytes |
| `GoEncoder.Encoder.WriteString` | go/src/fidl/bindings/encoder.go:356-364 | the bytes of a string as an array of 8-bit elements |
| `GoEncoder.Encoder.Finish` | go/src/fidl/bindings/encoder.go:226-235 | closes a block, if all elements of an array were written |
| `GoEncoder.Encoder.Data` | go/src/fidl/bindings/encoder.go:239-244 | bytes and handles, only when all blocks are closed |
| `GoDecoder.Decoder.constructor` | go/src/fidl/bindings/decoder.go:36-38 | cursors at the start of the input |
| `GoDecoder.Decoder.ClaimData` | go/src/fidl/bindings/decoder.go:41-47 | moves the end over claimed bytes, or refuses |
| `GoDecoder.Decoder.ReadUint` | go/src/fidl/bindings/decoder.go:236-303 | refines the machine step |
| `GoDecoder.Decoder.ReadBool` | go/src/fidl/bindings/decoder.go:219-227 | refines the machine step |
| `GoDecoder.Decoder.ReadPointer` | go/src/fidl/bindings/decoder.go:339-362 | refines the machine step, with all its range and order checks |
| `GoDecoder.Decoder.ReadHandle` | go/src/fidl/bindings/decoder.go:365-379 | refines the machine step; by `CodecLaws.HandleLaws` each handle index is read at most once, in order |
| `GoDecoder.Decoder.ReadDataHeader` | go/src/fidl/bindings/decoder.go:193-204 | refines the machine step |
| `GoDecoder.Decoder.PushState` | go/src/fidl/bindings/decoder.go:66-83 | opens a block over the claimed bytes |
| `GoDecoder.Decoder.StartArray` | go/src/fidl/bindings/decoder.go:96-111 | opens an array whose size covers its elements |
| `GoDecoder.Decoder.StartMap` | go/src/fidl/bindings/decoder.go:116-130 | opens a block with the one map header |
| `GoDecoder.Decoder.StartStruct` | go/src/fidl/bindings/decoder.go:136-150 | opens a struct block |
| `GoDecoder.Decoder.ReadString` | go/src/fidl/bindings/decoder.go:318-335 | refines decoding an array of 8-bit elements |
| `GoDecoder.Decoder.Finish` | go/src/fidl/bindings/decoder.go:207-216 | closes a block, if all elements of an array were read |
| `Waiter.AsyncWaiterWorker.constructor` | go/src/fidl/bindings/async_waiter.go:207-228 | only the waking event is listed |
| `Waiter.AsyncWaiterWorker.RemoveHandle` | go/src/fidl/bindings/async_waiter.go:91-101 | swap-removal keeps the three slices together and removes exactly one pending id |
| `Waiter.AsyncWaiterWorker.SendWaitResponseAndRemove` | go/src/fidl/bindings/async_waiter.go:105-111 | answers one wait on its own channel and forgets it; issued ids stay exactly pending plus answered, each answered once |
| `Waiter.AsyncWaiterWorker.RespondToSatisfiedWaits` | go/src/fidl/bindings/async_waiter.go:115-125 | ends having answered a wait if and only if some signal is both pending and waited for, each with what was pending on it; index 0 stays the waking event |
| `Waiter.AsyncWaiterWorker.AddWait` | go/src/fidl/bindings/async_waiter.go:129-139 | the new wait gets the next id and becomes pending |
| `Waiter.AsyncWaiterWorker.CancelWait` | go/src/fidl/bindings/async_waiter.go:140-154 | a pending wait is answered as canceled, any other id is ignored |
| `WaiterProtocol.NoLostWakeup` | go/src/fidl/bindings/async_waiter.go:129-184 | over all interleavings: while the worker is blocked and something is queued, the signal is set or some caller is between its push and its signal |
| `WaiterProtocol.IdsAreHandedOver` | go/src/fidl/bindings/async_waiter.go:249-259 | no two calls get the same id, and the worker never blocks handing one over |
| `WaiterProtocol.WorkerMoves` | go/src/fidl/bindings/async_waiter.go:103-184 | the worker blocks nowhere but in WaitMany and on a full response channel |
| `WaiterProtocol.NoDeadlock` | go/src/fidl/bindings/async_waiter.go:240-264 | as long as a call has not returned and the worker is not stuck on a full response channel, a caller or the worker can step |
| `WaiterLiveness.EveryCallReturns` | go/src/fidl/bindings/async_waiter.go:129-264 | without new calls only a bounded number of steps is possible, and at the end every call has returned and both queues are empty, or the worker is stuck |
| `WaiterLiveness.HaltsExactly` | go/src/fidl/bindings/async_waiter.go:105-111 | without readers and new calls the worker can get stuck if and only if more responses are due on some channel than it has room for |
| `WaiterLiveness.CarefulNeverStuck` | go/src/fidl/bindings/async_waiter.go:105-111 | the worker never gets stuck when every wait is started with room for its response next to all that are due |
| `WaiterLiveness.StuckForever` | go/src/fidl/bindings/async_waiter.go:105-111 | a stuck worker answers nobody until somebody reads |
| `WaiterLiveness.BlockedRun` | go/src/fidl/bindings/async_waiter.go:105-111 | a concrete run: a wait on an unbuffered channel that nobody reads, and another wait that never returns |
| `Router.AccountsStep` | go/src/fidl/bindings/router.go:51-245 | every step of callers, worker and drainer keeps each response-expecting request in exactly one place |
| `Router.WritePlaces` | go/src/fidl/bindings/router.go:106-115 | registering a responder moves the request out of the worker's hand, and overwrites nobody |
| `Router.ReplyPlaces` | go/src/fidl/bindings/router.go:51-85 | a reply moves its request from the table to the answered ones |
| `Router.StopPlaces` | go/src/fidl/bindings/router.go:191-223 | stopping and draining move requests to the answered ones |
| `RouterRuns.RunInv` | go/src/fidl/bindings/router.go:51-245 | every state of every run satisfies the invariant |
| `RouterRuns.Conservation` | go/src/fidl/bindings/router.go:51-245 | each response-expecting request is in exactly one of: on its way, queue, a hand, the table under its own id, answered; at most one result, and a reply only under the id it was sent with |
| `RouterResults.ResultsExactly` | go/src/fidl/bindings/router.go:51-245 | over every sequence of steps: a request has a reply as its result if and only if a message with its id was read while it was registered, an error if and only if it was turned away with the id 0, at a closed handle, by the stopping loop or by the drainer, and no other results |
| `RouterResults.StepResults` | go/src/fidl/bindings/router.go:51-245 | the same for one step: who is told what |
| `RouterRuns.ResponsesNeverBlock` | go/src/fidl/bindings/router.go:82-83 | no send on a response channel of capacity 1 ever blocks |
| `RouterRuns.NoSendAfterClose` | go/src/fidl/bindings/router.go:211-222 | nothing is sent on the request channel after it is closed |
| `RouterRuns.WaitsWhenNeeded` | go/src/fidl/bindings/router.go:98-125 | back at the select, a wait is outstanding if and only if a responder is pending, and there are never two |
| `RouterShutdown.ShutdownProgress` | go/src/fidl/bindings/router.go:191-223 | no deadlock while shutting down |
| `RouterShutdown.ShutdownAnswersEveryone` | go/src/fidl/bindings/router.go:191-245 | a shutdown takes a bounded number of steps; unless the drainer was lost, all calls come back and every response channel got exactly one result |
| `RouterShutdown.NeverLost` | go/src/fidl/bindings/router.go:207-211 | the drainer is not lost if all requests expect a response |
| `RouterShutdown.LostForever` | go/src/fidl/bindings/router.go:207-211 | behind a lost drainer, what is queued stays queued in every continuation, without a result |
| `RouterShutdown.CloseLosesRequest` | go/src/fidl/bindings/router.go:207-211 | a concrete run in which a queued request never gets its result |
| `RouterShutdown.AnsweredExactly` | go/src/fidl/bindings/router.go:191-245 | a run that came to rest has answered everyone if and only if no response-expecting request came behind a one-way one among those queued when the loop returned or sent later, and no caller is stuck on the full queue |
| `RouterShutdown.LateIsDrained` | go/src/fidl/bindings/router.go:191-245 | the drainer takes these requests in their order and stops at a one-way one |
| `CppSerialize.GetSerializedSize` | cpp/bindings/internal/array_serialization.h:301-309 | the computed size is the size of the serialized object, for every nesting |
| `CppSerialize.GetArraySize` | cpp/bindings/internal/array_serialization.h:69-71 | the same for arrays, added up element by element |
| `CppSerialize.GetMapSize` | cpp/bindings/internal/map_serialization.h:103-130 | the same for maps, from base sizes and items |
| `CppSerialize.GetStringSize` | cpp/bindings/internal/string_serialization.cc:11-15 | the size of a string, null included, is the size of the array of its bytes |
| `CppSerialize.FixedBuffer.Allocate` | cpp/bindings/internal/fixed_buffer.cc:25-39 | whole words from the cursor on; fails exactly for an empty request or too little room |
| `CppSerialize.New` | cpp/bindings/internal/array_internal.h:412-420 | with room for the object the allocation succeeds, and the header is written |
| `CppSerialize.SerializeBits` | cpp/bindings/internal/array_serialization.h:124-140 | every bool is in its bit |
| `CppSerialize.SerializeHandles` | cpp/bindings/internal/array_serialization.h:164-188 | handles in order, or the error for a missing one |
| `CppSerialize.SerializeElement` | cpp/bindings/internal/array_serialization.h:312-336 | serializes what one element points to and sets the pointer, or reports the first error |
| `CppSerialize.SerializeMember` | cpp/bindings/internal/map_serialization.h:160-192 | sets a map's pointer to the array that is then serialized right there |
| `CppSerialize.SerializeObject` | cpp/bindings/internal/array_serialization.h:494-527 | the error is the first one the value deserves; without one the value lies at the old cursor, and exactly its size was handed out |
| `CppFault.CheckIsFirstFault` | cpp/bindings/internal/array_serialization.h:312-336 | the error of serialization is what is wrong at the first place of the value, in the order of the pointers that lead there, and there is none exactly if no place has anything wrong |
| `CppEncode.EncodeHandle` | cpp/bindings/internal/bindings_serialization.cc:54-61 | the handle moves to the end of the vector, its index takes its place |
| `CppEncode.EncodeHandles` | cpp/bindings/internal/array_internal.cc:54-60 | all handles of an array, in order |
| `CppEncode.EncodeSlot` | cpp/bindings/internal/bindings_serialization.h:61-65 | what is behind the pointer first, then the pointer becomes an offset |
| `CppEncode.EncodeObject` | cpp/bindings/internal/array_internal.h:274-279 | memory with pointers becomes the encoded form of the same value; the vector grows by the value's handles in order; nothing else changes |
| `CppEncode.DecodeHandle` | cpp/bindings/internal/bindings_serialization.cc:67-75 | the handle moves out of the vector, which keeps a hole |
| `CppDecode.DecodeHandles` | cpp/bindings/internal/array_internal.cc:63-69 | on any accepted handle array: each word gets the handle it stood for, these leave the vector, nothing else changes |
| `CppDecode.DecodeSlot` | cpp/bindings/internal/bindings_serialization.h:69-73 | on any accepted pointer: the offset becomes a pointer, then what is behind it is decoded |
| `CppDecode.DecodeElements` | cpp/bindings/internal/array_internal.h:281-286 | the same for all pointers of an array |
| `CppDecode.DecodeMap` | cpp/bindings/internal/map_data_internal.h:137-140 | the same for a map |
| `CppDecode.DecodeObject` | cpp/bindings/internal/bindings_serialization.h:69-73 | on any accepted message, in place: exactly the slots and words that validation visited are rewritten, with the pointers and handles that the message had in them as it came, and exactly its handles leave the vector |
| `CppDeserialize.DeserializeObject` | cpp/bindings/internal/array_serialization.h:529-536 | on any accepted message: reads the value that the message stands for, and leaves memory as it was but for zero in every handle word |
| `CppDeserialize.DeserializeMap` | cpp/bindings/internal/map_serialization.h:194-211 | the same for a map |
| `CppRead.ReadTyped` | cpp/bindings/internal/array_internal.h:422-462 | an accepted message stands for a value of its type, with the right lengths and nulls and invalid handles only where they are allowed |
| `CppRead.WholeObject` | cpp/bindings/internal/array_internal.h:422-462 | header and elements of an accepted object lie in its claimed bytes |
| `CppDeserialize.DeserializeHandles` | cpp/bindings/internal/array_serialization.h:190-196 | reads the handles and leaves zero behind |
| `CppArrival.ReadsBack` | cpp/bindings/internal/bindings_serialization.h:69-73 | an encoded message stands for the value that was encoded |
| `CppArrival.ValueArrives` | cpp/bindings/internal/bindings_serialization.h:69-73 | decoded at its new address, an encoded value lies in memory as before it was encoded |
| `CppArrival.TakesAll` | cpp/bindings/internal/bindings_serialization.cc:67-75 | decoding takes every handle of an encoded value |
| `CppAccept.Accepts` | cpp/bindings/internal/array_internal.h:422-462 | every encoded value that serialization accepted is accepted, claiming no more than its bytes and handles |
| `CppAccept.AcceptsMap` | cpp/bindings/internal/map_data_internal.h:60-125 | the same for maps |
| `CppAccept.AcceptsSlot` | cpp/bindings/internal/array_internal.h:288-314 | the same for one pointer |
| `CppSound.ValidatorSound` | cpp/bindings/internal/bounds_checker.cc:40-77 | on arbitrary bytes: visited objects begin at multiples of 8 and lie one after the other inside the payload, every pointer slot and handle word visited lies in one of them, handle indices strictly increase |
| `CppSound.ClaimsHoldElements` | cpp/bindings/internal/array_internal.h:144-153 | in an accepted message a claimed range holds its object if and only if it is not a bool array whose count wrapped around with too few bytes |
| `CppSound.WrappedCountIsAccepted` | cpp/bindings/internal/array_internal.h:144-153 | the header of 2^32 - 1 bools alone is accepted with 8 bytes |
| `CppSound.Sound` | cpp/bindings/internal/array_internal.h:422-462 | whatever the bytes, validating an object keeps claims, slots and handles in order |
| `CppVerdict.VerdictExactly` | cpp/bindings/internal/array_internal.h:422-462 | on arbitrary bytes: validation succeeds if and only if every object, pointer, handle word and map on the walk through the message is legal, and otherwise reports the fault of the first one that is not |
| `CppVerdict.MisalignedExactly` | cpp/bindings/internal/array_internal.h:428-431 | the verdict is a misaligned object if and only if the first illegal thing on the walk is an object that does not begin at a multiple of 8 |
| `CppVisit.VisitsSame` | cpp/bindings/internal/array_internal.h:281-286 | on arbitrary bytes that validation accepts, the slots, words and handle indices that decoding goes through are those that validation visited, in the same order |
| `CppVisit.DecodingIsSafe` | cpp/bindings/internal/bindings_serialization.h:69-73 | on arbitrary accepted bytes every slot and word that decoding rewrites lies in a claimed range and overlaps no other, and no handle index is taken twice |
| `CppTransfer.BoundsChecker.constructor` | cpp/bindings/internal/bounds_checker.cc:15-36 | limits of a fresh checker |
| `CppTransfer.BoundsChecker.InRange` | cpp/bindings/internal/bounds_checker.cc:67-77 | range check with wrap-around |
| `CppTransfer.BoundsChecker.TryClaimMemory` | cpp/bindings/internal/bounds_checker.cc:40-49 | claims exactly valid ranges |
| `CppTransfer.BoundsChecker.TryClaimHandle` | cpp/bindings/internal/bounds_checker.cc:51-65 | claims exactly invalid handles and unclaimed indices |
| `CppTransfer.ValidatePointer` | cpp/bindings/internal/validation_util.cc:16-24 | refines the validation of one pointer |
| `CppTransfer.ValidateObject` | cpp/bindings/internal/array_internal.h:422-462 | the running validator is the specified one |
| `CppTransfer.ValidateMapObject` | cpp/bindings/internal/map_data_internal.h:60-125 | the same for maps |
| `CppTransfer.Transfer` | cpp/bindings/internal/array_serialization.h:292-345 | size, serialize, encode, validate, decode, deserialize: an error exactly as deserved, otherwise no byte unused, accepted, the equal value back, every handle transferred once |
| `CppTransfer.Send` | cpp/bindings/internal/map_serialization.h:144-192 | the sending half |
| `CppTransfer.Receive` | cpp/bindings/internal/map_serialization.h:194-211 | on any bytes: a refused message stays as it came; an accepted one gives the value it stands for, whose handles, and no others, have left vector and memory, where nothing else but pointers changed |
| `Resolve.Descriptor.constructor` | compiler/src/fidl/compiler/core/mojom_descriptor.go:315-328 | all references unresolved |
| `Resolve.Descriptor.ResolveValueRef` | compiler/src/fidl/compiler/core/mojom_descriptor.go:581-650 | a reference takes over what its declaration has by now; values are never lost or changed |
| `Resolve.Descriptor.ResolveValueReferences` | compiler/src/fidl/compiler/core/mojom_descriptor.go:503-525 | one pass; if it resolves nothing new the state is a fixpoint |
| `Resolve.Descriptor.Resolve` | compiler/src/fidl/compiler/core/mojom_descriptor.go:419-476 | the loop ends, with a reference resolved to a value if and only if its chain of constants ends in that value, where a declaration goes before a special float and that before a built-in name; the rest is reported |
| `Resolve.UnresolvedExactly` | compiler/src/fidl/compiler/core/mojom_descriptor.go:419-476 | a chain ends in no value if and only if it leads to an undefined name or to a cycle |
| `Resolve.Reported` | compiler/src/fidl/compiler/core/mojom_descriptor.go:461-474 | a reported reference is undefined, or used through one that is unresolved |
| `Resolve.EndsOnce` | compiler/src/fidl/compiler/core/mojom_descriptor.go:623-640 | a chain ends in at most one value |
| `Scopes.DottedInjective` | compiler/src/fidl/compiler/core/scopes.go:100-105 | dotted names are equal exactly if the paths are |
| `Scopes.Descriptor.GetAbstractModuleScope` | compiler/src/fidl/compiler/core/mojom_descriptor.go:338-345 | one abstract module per name, made with all its parents, existing scopes and tables untouched |
| `Scopes.Descriptor.NewLexicalScope` | compiler/src/fidl/compiler/core/scopes.go:129-190 | kind and full name of a new lexical scope |
| `Scopes.Descriptor.RegisterObjectWithNamePrefix` | compiler/src/fidl/compiler/core/scopes.go:272-307 | succeeds exactly if the growing name is free all the way out, and then enters it everywhere |
| `Scopes.Descriptor.Register` | compiler/src/fidl/compiler/core/scopes.go:327-360 | succeeds if and only if no object has the full name; tables stay right and complete |
| `Scopes.NamesDistinct` | compiler/src/fidl/compiler/core/scopes.go:272-307 | no two registered objects share a full name |
| `Scopes.Descriptor.RegisterType` | compiler/src/fidl/compiler/core/user_defined_types.go:156-171 | a type is registered if and only if no object has its full name |
| `Scopes.TypesDistinct` | compiler/src/fidl/compiler/core/user_defined_types.go:156-171 | no two registered types share a full name |
| `Scopes.EntryExactly` | compiler/src/fidl/compiler/core/scopes.go:272-307 | a scope's table has a name exactly if the object of that full name is declared in the scope or inside it |
| `Scopes.FlatExactly` | compiler/src/fidl/compiler/core/scopes.go:415-448 | a lookup returns the object whose full name is the longest enclosing scope name plus the name if and only if that object is declared inside an enclosing scope of that name, or there is none |
| `Scopes.LookupIsFlat` | compiler/src/fidl/compiler/core/scopes.go:415-448 | so every lookup does when all types are registered and no module has the name of a type |
| `Scopes.ModuleHidesNames` | compiler/src/fidl/compiler/core/scopes.go:415-448 | a concrete descriptor, all types registered, where a module has the name of a type and the lookup misses |
| `Utf8.PositionStep` | compiler/src/fidl/compiler/lexer/lexer.go:119-136 | moving rune by rune agrees with counting runes, bytes, lines and columns from the beginning |
| `Utf8.DecodesEncoded` | compiler/src/fidl/compiler/lexer/lexer.go:119-136 | a rune that UTF-8 encodes decodes to itself, whatever follows |
| `Utf8.DecodedIsEncoded` | compiler/src/fidl/compiler/lexer/lexer.go:119-136 | what decodes is the encoding of a rune, or one byte with which no encoded rune begins |
| `Lexer.Lexer.Consume` | compiler/src/fidl/compiler/lexer/lexer.go:119-136 | one rune further, position still as counted |
| `Lexer.Lexer.EmitToken` | compiler/src/fidl/compiler/lexer/lexer.go:97-107 | emits the text since the token began, at its counted position; if it is the next token of the source, the stream goes on behind it |
| `Lexer.Lexer.LexRootState` | compiler/src/fidl/compiler/lexer/lexer.go:175-202 | to the state of the token that begins here, to the end, or the error for a rune that begins none |
| `Lexer.Lexer.LexSkipState` | compiler/src/fidl/compiler/lexer/lexer.go:210-220 | the blanks of the source, with a token for exactly the empty lines |
| `Lexer.Lexer.LexNameState` | compiler/src/fidl/compiler/lexer/lexer.go:312-333 | the longest identifier, as a keyword or a name |
| `Lexer.Lexer.LexOrdinalState` | compiler/src/fidl/compiler/lexer/lexer.go:343-354 | an ordinal with all its digits |
| `Lexer.Lexer.LexDecState` | compiler/src/fidl/compiler/lexer/lexer.go:372-388 | all the digits, then the fraction or exponent if one follows |
| `Lexer.Lexer.LexNumberStartWithZeroState` | compiler/src/fidl/compiler/lexer/lexer.go:391-410 | zero, then what its next rune calls for |
| `Lexer.Lexer.LexHexNumberState` | compiler/src/fidl/compiler/lexer/lexer.go:413-424 | a hexadecimal number with all its digits |
| `Lexer.Lexer.LexFractionPartState` | compiler/src/fidl/compiler/lexer/lexer.go:428-443 | the digits behind the point, then the exponent if one follows |
| `Lexer.Lexer.LexExponentPartState` | compiler/src/fidl/compiler/lexer/lexer.go:446-461 | sign and all digits of the exponent |
| `Lexer.Lexer.LexStringState` | compiler/src/fidl/compiler/lexer/lexer.go:469-494 | the string literal, or the error, ends where the scan of the source says |
| `Lexer.Lexer.LexSingleLineCommentState` | compiler/src/fidl/compiler/lexer/lexer.go:518-528 | a comment to the end of the line |
| `Lexer.Lexer.LexMultiLineCommentState` | compiler/src/fidl/compiler/lexer/lexer.go:531-544 | inside a comment, its end is still the one of the source |
| `Lexer.Lexer.LexPossibleEndOfCommentState` | compiler/src/fidl/compiler/lexer/lexer.go:548-564 | the comment ends at its slash, or goes on |
| `Lexer.Lexer.Step` | compiler/src/fidl/compiler/lexer/lexer.go:158-169 | in every state, what was emitted and what is to come are the tokens of the source; the machine makes progress |
| `Lexer.Lexer.Run` | compiler/src/fidl/compiler/lexer/lexer.go:158-169 | the machine stops with exactly the tokens of the source |
| `Lexer.Tokenize` | compiler/src/fidl/compiler/lexer/lexer.go:40-45 | the tokens of the source; with the blanks they tile it, to its end or to the end of the error; positions are as counted, and every token but string literals and multi-line comments is the longest that could be there |
| `TokenLaws.StreamLaws` | compiler/src/fidl/compiler/lexer/lexer.go:97-169 | tokens and blanks tile the source, every token is at its counted position and has the shape of its kind, and only the last can be an error |
| `TokenLaws.TokenShape` | compiler/src/fidl/compiler/lexer/lexer.go:223-564 | every token has the text of its kind: the literal spelling of keywords and marks, the digits of numbers, the parts of floats, the ends of strings and comments |
| `TokenMatch.LongestMatch` | compiler/src/fidl/compiler/lexer/lexer.go:175-461 | wherever no string literal or multi-line comment begins: if any text there has the shape of a token, the longest such text is the token, with its kind; otherwise the error for an illegal rune |
| `TokenMatch.StreamLongest` | compiler/src/fidl/compiler/lexer/lexer.go:158-169 | so for every token of a source |
| `TokenMatch.KindOnce` | compiler/src/fidl/compiler/lexer/lexer.go:175-461 | no text has the shape of two kinds |
| `TokenMatch.StreamOrdered` | compiler/src/fidl/compiler/lexer/lexer.go:97-169 | the tokens of a source follow each other without overlapping |
| `TokenMatch.EmptyLinesExactly` | compiler/src/fidl/compiler/lexer/lexer.go:210-220 | outside the other tokens there is one for an empty line at exactly the line breaks that begin the source or follow another line break |
| `TokenEnds.CommentEndsExactly` | compiler/src/fidl/compiler/lexer/lexer.go:531-564 | a comment ends at the first star and slash that end a run of stars of odd length, the opening star not counted |
| `TokenEnds.FirstCloseEnds` | compiler/src/fidl/compiler/lexer/lexer.go:531-564 | the first star and slash end the comment if and only if the stars there are odd in number |
| `TokenEnds.CommentMissesClose` | compiler/src/fidl/compiler/lexer/lexer.go:531-564 | three stars between two slashes are an unterminated comment, two are a comment |
| `TokenEnds.StringEndsExactly` | compiler/src/fidl/compiler/lexer/lexer.go:469-494 | a string literal ends at the first quote with an even number of backslashes before it, if no such line break comes first |

## Left out

- Unions in the Go round trip: written and read by the generated code through extra
  header calls; `LayoutEncoder` has them for writing.
- LayoutEncoder.EncoderFindsLayout: unions with a bool member are not among its
  fields, because what follows them can be misplaced (`LayoutCursor.BehindBoolUnion`).
- Interfaces, null pointers and invalid handles have no method in the Go classes;
  the machine in `Codec` models them, and the round trip covers them.
- GoEncoder.Encoder.WriteHandle: the result is stated for fewer than 2^32 - 1
  handles, because the index is cast to 32 bits.
- GoEncoder.Encoder.WriteString: states strings whose block size fits 32 bits.
- GoEncoder.Encoder.WritePointer: a refused write leaves the alignment behind, as
  the code does, and promises nothing more about the state.
- Interop.ObjectImaged: structs, unions and interfaces are not among the shared types.
- InteropTypes.GoToCpp: the same; addresses and sizes do not wrap around, and there are
  fewer than 2^31 handles, each below 2^32.
- Sizes of 2^32 bytes and more in the Go codec are failures of the machine; the code
  would truncate them. A Go panic on an index out of range is a failure too.
- Router and async waiter as running goroutines: the router is a step relation over
  values, not an object; kernel channels and signals are abstract steps; request ids
  are unique, as its callers must ensure.
- Waiter.AsyncWaiterWorker.RespondToSatisfiedWaits: the pending signals that WaitMany reports
  are part of the items, and sending on a response channel is a log entry.
- Waiter.AsyncWaiterWorker.SendWaitResponseAndRemove: the send is a log entry here; that it can
  block is in `WaiterProtocol` and `WaiterLiveness`.
- Waiter.AsyncWaiterWorker.CancelWait: the same.
- CppTransfer.Receive: not stated for accepted messages with a bool array whose count
  wrapped around, whose elements the code would look for behind the claimed bytes.
- CppDeserialize.DeserializeObject: the same. Values are read from the model's memory,
  so moving and dropping C++ objects is not captured.
- CppSerialize.New: needs a buffer with room for the object, because the code does not
  look at a failed allocation.
- CppSerialize.SerializeObject: needs a buffer with room for the computed size and
  sizes below 2^32; the code dereferences null otherwise. On an error the partly
  written object is not described.
- Ownership of handles in the C++ source value: a value is not changed by being
  serialized, while the code releases its handles.
- CppTransfer.Transfer: addresses stay below 2^64 and there are fewer than 2^31
  handles.
- C++ unions, structs, interfaces in arrays, and the generated Validate functions.
- Resolve.Descriptor.Resolve: no validation error after resolution; type references
  are resolved in one pass without a fixpoint and are not modelled.
- Scopes.Descriptor.Register: after a duplicate the tables keep the entries made so
  far, as in the code, and nothing is promised about them; the compiler stops there.
- Resolve.Descriptor.ResolveValueRef: the declaration that a reference leads to is
  given; the error for a name that is no value is not modelled.
- Lookups that accept only some kinds of objects.
- Lexer.Tokenize: the token channel is a sequence; the filter that drops comments and
  empty lines is not modelled.
- Scopes as linked objects: scopes are rows of a table that name their parent by
  index, and resolved references are rows too.
- Floats are bit patterns; signed integers are their two's complement patterns.
- The copy of the Go codec under compiler/src/fidl/bindings, the Rust, Dart and
  Python codecs, the C++ connector and router, comment attachment, the code
  generators, the parser, and map key sorting.
