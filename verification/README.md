# A verified model of the Zenoh client

The repository is a Zenoh 1.0 client in pure Go (wire version 0x09). This project
models its hard logic in Dafny and proves what that logic is for. The command is
`dafny verify dfyconfig.toml`.

The modules build on one another:

- **Codec and wire messages** (`Buffer`, `Vle`, `Extensions`, `WireTypes`,
  `NetworkMessages`, `MessageCodec`, `TransportMessages`). Each message has an encoding
  function and a reference parser; the imperative encoders and decoders are proved equal
  to them, every network message is shown to be self-delimiting, and `WireGoldens` and
  `WireLayouts` pin the byte layout.
- **Outbound and inbound transport** (`SequenceNumbers`, `Lanes`, `LanePacking`,
  `Batching`, `OutboundWriter`, `WriterPromises`, `Reassembly`, `FragmentLoss`,
  `InboundReader`, `BatchParsing`, `BatchEndings`, `WireNumbers`, `EndToEnd`). The writer, batcher, reassembler and reader are classes
  whose methods are proved against functions on their state. The main theorem,
  `EndToEnd.EndToEnd`, says that the receiver dispatches exactly what was sent, each
  lane in order, and `EndToEnd.Transfer` says it of the objects.
- **Key expressions** (`KeySets`, `KeyCovers`, `KeyText`, `KeyCanon`, `KeyIntersect`,
  `KeyInclude`, `KeyWithin`). Patterns denote sets of keys (sequences of literal
  chunks). The loops over strings are proved against that meaning.
- **Two-party protocols** (`Handshake`, `HandshakeOutcomes`, `PeerLinks`).
- **Registries and state machines** (`Matching`, `MatchingHistory`, `QueryCompletion`,
  `QueryAnswers`, `Lifecycle`, `LifecycleAdmission`). Every interleaving of the atomic
  steps is considered.
- **Reply consolidation** (`Consolidation`).

Conventions. Bytes are integers below 256 and bit operations are written as arithmetic;
64-bit and 32-bit wrap-around is explicit where the code relies on it. SHAKE128 is an
arbitrary function, the random cookie and the ZIDs are arbitrary inputs.

Where the code and its comments differ, the model follows the code:

- `internal/keyexpr/keyexpr.go:50-52` promises that set equality is string equality.
  That needs the empty chunk sequence in the sets: over non-empty keys `**` and `*/**`
  coincide (`KeyCovers.SameNonEmptyKeys`).
- `internal/keyexpr/include.go:3-5` promises key-set inclusion. The answer is always
  right when positive. `KeyWithin.IncludedExactly` decides inclusion for any pair, and
  `KeyWithin.ScanErrsExactly` says for which pairs the answer is right; it is right for
  all partners exactly under the conditions of `KeyInclude.CompleteForLeft` and
  `KeyInclude.CompleteForRight`.
- `internal/transport/batcher.go:27-29` says that without QoS everything is routed to
  the Data lane. `internal/session/writer.go:162-165` does not do that, so the peer sees
  several counters on one lane: the first FRAMEs of two priorities carry the same number
  (`WireNumbers.SharedNumber`). `WireNumbers.WireNumbersExactly` says when the numbers
  are gapless all the same. Every message still arrives, each sending lane in order
  (`EndToEnd.EndToEnd`), but the receiver's lanes are the sender's only if nothing was
  sent on a lane of another priority (`EndToEnd.EndToEndByLane`).
- `internal/transport/reassembler.go:81-90` opens a new reassembly at the first fragment
  after a reset, also in the middle of a message; hence a completed body is a contiguous
  run of fragments (`Reassembly.CompletedBody`) but not always a whole message
  (`FragmentLoss.RestTakenForAMessage`, `FragmentLoss.LostEndSpoilsNext`). On an idle
  lane a message comes out if and only if none of its fragments is missing and it is
  within the cap (`FragmentLoss.LossyMessage`).
- `internal/session/initial_sn.go:15-26` asks for 8, 16, 32 or 64 bits; its callers pass
  7, 14, 28 or 63 (`internal/wire/resolution.go:38-50`), which is what the model uses.
- `internal/transport/fragmenter.go:21-33` describes the body limit as exclusive of the
  overhead and a sequence number of up to ten bytes; the code subtracts the overhead
  from that limit, and nine bytes suffice.
- An undeclaration with a second WireExpr extension does not survive a round trip
  (`internal/wire/declare.go:293-333`, `NetworkMessages.SecondKeyExtWins`);
  `NetworkMessages.DeclRoundTrip` gives the exact condition.

## Model

| member | source | states |
|---|---|---|
| `Vle.EncodeZ64` | internal/codec/vle.go:30-42 | the encode loop appends exactly the nine-byte-capped encoding of the value and nothing else |
| `Vle.DecodeVle` | internal/codec/vle.go:54-82 | the decode loop returns what the reference parser says about the unread bytes, with the cursor after the last group, or its error |
| `Vle.DecodeVleBelow` | internal/codec/vle.go:88-125 | the narrow decoders are the general one with a byte budget and a value limit |
| `Vle.Z64RoundTrip` | internal/codec/vle.go:30-85 | decoding an encoding in front of any suffix gives the value back and leaves the suffix, for every 64-bit value |
| `Vle.NarrowDecoders` | internal/codec/vle.go:88-125 | the z8, z16 and z32 decoders accept an encoding exactly when the value fits and report overflow otherwise |
| `Vle.PrefixFree` | internal/codec/vle.go:30-82 | no encoding is a prefix of the encoding of another value |
| `Vle.SizeIsLength` | internal/codec/vle.go:127-139 | the computed size is the length of the encoding, between 1 and 9 |
| `Extensions.HeaderRoundTrip` | internal/codec/header.go:37-60 | header packing loses nothing of a five-bit id and the three flags |
| `Extensions.PrefixedRoundTrip` | internal/codec/primitives.go:17-106 | length-prefixed bytes read back in front of any suffix at every width |
| `Extensions.EncodePrefixed` | internal/codec/primitives.go:17-60 | fails exactly on a length beyond the width and appends nothing then |
| `Extensions.ReadPrefixed` | internal/codec/primitives.go:63-106 | agrees with the reference parser, errors included |
| `Extensions.ExtRoundTrip` | internal/codec/ext.go:127-178 | one extension reads back in front of any suffix, up to its four-bit id |
| `Extensions.ExtsRoundTrip` | internal/codec/ext.go:181-206 | a non-empty chain reads back in front of any suffix, with the More flags recomputed |
| `Extensions.EncodeExtension` | internal/codec/ext.go:127-143 | appends the encoding of one extension, and fails exactly on a reserved encoding or an oversized body |
| `Extensions.EncodeExtensions` | internal/codec/ext.go:198-206 | appends the chain with recomputed More flags, and fails exactly when a member cannot be encoded |
| `Extensions.ReadExtensions` | internal/codec/ext.go:181-195 | the loop over the chain agrees with the reference parser |
| `WireTypes.QoSRoundTrip` | internal/wire/qos.go:60-83 | the packed QoS byte reads back |
| `WireTypes.TsRoundTrip` | internal/wire/timestamp.go:22-47 | an optional timestamp reads back in front of any suffix |
| `WireTypes.EncRoundTrip` | internal/wire/encoding.go:25-57 | an optional encoding (31-bit id, schema bit and schema) reads back in front of any suffix |
| `WireTypes.ExprRoundTrip` | internal/wire/wireexpr.go:28-54 | a wire expression reads back in front of any suffix, given the two header flags derived from it |
| `NetworkMessages.PushRoundTrip` | internal/wire/data.go:57-170 | PUT and DEL bodies read back in front of any suffix |
| `NetworkMessages.QueryRoundTrip` | internal/wire/request.go:133-185 | a query body reads back in front of any suffix |
| `NetworkMessages.AnswerRoundTrip` | internal/wire/response.go:101-207 | REPLY (over PUT or DEL) and ERR bodies read back in front of any suffix |
| `NetworkMessages.OptionsRoundTrip` | internal/wire/interest.go:69-169 | the options byte gives back the filter and the derived R, N and M flags |
| `NetworkMessages.DeclRoundTrip` | internal/wire/declare.go:83-406 | every DECLARE sub-message reads back in front of any suffix if and only if an undeclaration carries no second WireExpr extension |
| `NetworkMessages.SelfDelimiting` | internal/wire/declare.go:38-81 | PUSH, REQUEST, RESPONSE, RESPONSE_FINAL, DECLARE and INTEREST in front of any suffix decode to themselves as they travel and leave exactly the suffix, if and only if the message is unambiguous in that sense |
| `MessageCodec.WriteMessage` | internal/wire/request.go:73-94 | the imperative encoders append exactly the encoding and fail exactly on messages without one |
| `MessageCodec.ReadMessage` | internal/session/dispatch.go:22-54 | the imperative decoders of the six kinds of message agree with the reference parsers on every input, errors and remaining bytes included |
| `NetworkMessages.SecondKeyExtWins` | internal/wire/declare.go:293-333 | an undeclaration that carries a second WireExpr extension reads back as one for that second expression |
| `MessageCodec.WriteDecl` | internal/wire/declare.go:117-396 | all five kinds of sub-message encoder append exactly the encoding, the mandatory WireExpr extension first |
| `MessageCodec.BuildOptions` | internal/wire/interest.go:69-100 | the options byte built bit by bit is the packed one |
| `MessageCodec.CollectKeyExts` | internal/wire/declare.go:293-333 | the loop that picks the WireExpr extension out of an undeclaration keeps all others in order |
| `TransportMessages.FrameRoundTrip` | internal/wire/frame.go:37-74 | a FRAME header reads back and leaves the body |
| `TransportMessages.FragmentRoundTrip` | internal/wire/fragment.go:32-67 | a FRAGMENT reads back with the rest of the batch as its body |
| `TransportMessages.KeepAliveRoundTrip` | internal/wire/keepalive.go:15-39 | a KEEPALIVE reads back and leaves any suffix |
| `TransportMessages.CloseRoundTrip` | internal/wire/close.go:24-53 | a CLOSE with any scope, reason and extensions reads back and leaves any suffix |
| `TransportMessages.InitFieldsRoundTrip` | internal/wire/init.go:39-118 | INIT fields read back in front of any suffix, the cookie only with the Ack flag |
| `TransportMessages.OpenFieldsRoundTrip` | internal/wire/open.go:31-82 | OPEN fields read back in front of any suffix, the cookie only without the Ack flag |
| `TransportMessages.WriteFrame` | internal/wire/frame.go:37-52 | appends exactly the FRAME header and fails exactly on an extension without encoding |
| `TransportMessages.WriteInit` | internal/wire/init.go:39-69 | appends exactly the encoding and fails exactly on an invalid ZID, role, cookie or extension |
| `TransportMessages.ReadOpen` | internal/wire/open.go:54-82 | agrees with the reference parser on every input |
| `TransportMessages.LaneOfExts` | internal/transport/reassembler.go:21-26 | the receiver reads off the attached QoS extension the lane of the sender, or Data when none is attached |
| `WireGoldens.ShortVle` | internal/codec/vle.go:11-42 | the bytes of the short encodings that the repository fixes |
| `WireGoldens.NinthByteIsRaw` | internal/codec/vle.go:11-42 | from 2^56 on an encoding has nine bytes, the ninth holding the top eight bits unchanged |
| `WireGoldens.InitSynBytes` | internal/wire/init.go:15-26 | an INIT SYN with size information and the QoS extension, byte by byte |
| `WireGoldens.SmallMessages` | internal/wire/interest.go:69-79 | CLOSE, an empty KEEPALIVE and a Final INTEREST, byte by byte |
| `WireGoldens.KeyExtensionBytes` | internal/wire/declare.go:335-357 | the WireExpr extension is flags, scope and the bare suffix |
| `WireGoldens.Headers` | internal/codec/header.go:37-49 | the flag positions of headers and of the QoS value |
| `WireGoldens.ResolutionWidths` | internal/wire/resolution.go:38-60 | the four codes stand for 7, 14, 28 and 63 bits, and what the default resolution admits |
| `WireGoldens.NoMask` | internal/transport/batcher.go:52-79 | without a mask numbers wrap at 64 bits only |
| `WireGoldens.Constants` | internal/wire/ids.go:8-75 | the protocol version, the CLOSE reasons, the Data priority and the bytes of a QoS extension |
| `WireLayouts.ExtensionBytes` | internal/codec/ext.go:127-143 | header byte and body of an extension, for any id, flags and value |
| `WireLayouts.FrameBytes` | internal/wire/frame.go:37-52 | id, flags and field order of a FRAME, all fields variable |
| `WireLayouts.FragmentBytes` | internal/wire/fragment.go:32-50 | the same for a FRAGMENT |
| `WireLayouts.OpenBytes` | internal/wire/open.go:31-52 | the same for an OPEN, whose SYN alone carries the cookie |
| `WireLayouts.PushBytes` | internal/wire/push.go:34-54 | the same for a PUSH |
| `WireLayouts.PutBytes` | internal/wire/data.go:57-82 | the same for a PUT body |
| `WireLayouts.RequestBytes` | internal/wire/request.go:73-94 | the same for a REQUEST |
| `WireLayouts.QueryBytes` | internal/wire/request.go:133-155 | the same for a QUERY body |
| `WireLayouts.ResponseBytes` | internal/wire/response.go:29-48 | the same for a RESPONSE |
| `WireLayouts.ReplyBytes` | internal/wire/response.go:101-120 | the same for a REPLY body |
| `WireLayouts.DeclareBytes` | internal/wire/declare.go:38-60 | the same for a DECLARE |
| `WireLayouts.DeclBytes` | internal/wire/declare.go:117-396 | ids and field order of all DECLARE sub-messages; an undeclaration puts its key extension first |
| `WireLayouts.InterestBytes` | internal/wire/interest.go:69-118 | the same for an INTEREST, whose options byte is left out in Final mode |
| `SequenceNumbers.AndOfOnes` | internal/transport/batcher.go:252 | masking with n one bits is the remainder modulo 2^n |
| `SequenceNumbers.NextIsModular` | internal/transport/fragmenter.go:64 | the masked successor counts modulo 2^n, also where the 64-bit addition wraps |
| `SequenceNumbers.NthIsModular` | internal/transport/batcher.go:252 | the k-th number of a lane is (seed + k) modulo 2^n |
| `Lanes.HeaderBudget` | internal/transport/fragmenter.go:31-33 | header, sequence number and QoS extension never take more than 12 of the 16 reserved bytes |
| `Lanes.EnqueueKeepsForm` | internal/transport/batcher.go:109-144 | after any enqueue an open FRAME carries the counter of its lane in its header, and no emitted batch exceeds the batch size |
| `Lanes.EnqueueSpends` | internal/transport/batcher.go:109-256 | an enqueue spends one number per emitted batch, in order, and leaves the lane at the number after the last |
| `Batching.Batcher.constructor` | internal/transport/batcher.go:52-79 | a fresh batcher is idle at its seeds on all sixteen lanes, with the zero mask read as all ones |
| `Batching.Batcher.LaneFor` | internal/transport/batcher.go:258-273 | creates a lane at its seed on first use and changes no lane state |
| `Batching.Batcher.OpenFrame` | internal/transport/batcher.go:221-240 | writes the FRAME start for the current number into the lane |
| `Batching.Batcher.FlushLane` | internal/transport/batcher.go:244-256 | hands a non-empty FRAME to the sink, resets the lane and spends its number even when the write fails |
| `Batching.Batcher.FragmentLane` | internal/transport/fragmenter.go:43-67 | the fragmentation loop emits the specified FRAGMENTs in order and leaves the next number, or a prefix of them when a write fails |
| `LanePacking.EnqueuePacks` | internal/transport/batcher.go:109-144 | on any well-formed lane a small express message goes out at once, alone, under its own number and after what was pending; any other small message joins the open FRAME if it fits and otherwise turns the page; an oversized one goes out in pieces, or is refused when the batch size leaves no room for pieces |
| `LanePacking.FragmentsArePieces` | internal/transport/fragmenter.go:43-67 | the i-th FRAGMENT of a message carries the i-th stretch of full size under the i-th number, all but the last full and marked More |
| `Batching.Batcher.Enqueue` | internal/transport/batcher.go:109-144 | an invalid priority has no effect; otherwise lane and wire change as specified and as `EnqueuePacks` says (an express message leaves nothing behind), every other lane is untouched, or a failing write leaves a proper prefix on the wire |
| `Batching.Batcher.FlushAll` | internal/transport/batcher.go:187-202 | the nested loops flush all lanes in array order and stop at the first failing write |
| `Reassembly.Reassembler.Push` | internal/transport/reassembler.go:74-107 | the in-place update agrees with the step function on the lane of the fragment and leaves the other lanes |
| `Reassembly.LanesAreIndependent` | internal/transport/reassembler.go:74-107 | the state of a lane depends only on the fragments of that lane, whatever is interleaved |
| `Reassembly.CompletedBody` | internal/transport/reassembler.go:74-107 | every body handed out is the concatenation of fragments of one lane with consecutive wrapped numbers, all but the last marked More, within the cap |
| `Reassembly.Recovery` | internal/transport/reassembler.go:74-107 | when each lane carries messages fragment after fragment within the cap, all are recovered in order and nothing is dropped, whatever the interleaving of lanes |
| `FragmentLoss.WholeMessage` | internal/transport/reassembler.go:74-107 | a message whose fragments all arrive on an idle lane comes out if and only if it is within the cap |
| `FragmentLoss.RecoveryIsExact` | internal/transport/reassembler.go:74-107 | when a lane carries messages fragment after fragment, all of them come out if and only if all are within the cap |
| `FragmentLoss.LossyMessage` | internal/transport/reassembler.go:74-107 | when some of its (non-empty) fragments arrive in order on an idle lane, the message comes out if and only if none is missing and it is within the cap |
| `FragmentLoss.RestTakenForAMessage` | internal/transport/reassembler.go:81-90 | a message that loses its first of three fragments comes out as the body of the other two |
| `FragmentLoss.LostEndSpoilsNext` | internal/transport/reassembler.go:81-107 | a message that loses its last fragment makes the next one come out without its first fragment |
| `FragmentLoss.OversizedTailComesOut` | internal/transport/reassembler.go:81-107 | what follows the fragment that exceeds the cap passes for a message of its own |
| `FragmentLoss.Verdict` | internal/transport/reassembler.go:74-107 | a fragment is a gap exactly when the lane is collecting and it is not the successor of the last one, too large exactly when it would be taken but for the cap; either way the lane is idle again |
| `InboundReader.Inbound.Dispatch` | internal/session/dispatch.go:20-62 | one message, with what its kind does to the log; OAM takes the rest of the batch, any other id is an error |
| `InboundReader.Inbound.DispatchFrameMessages` | internal/session/reader.go:165-191 | dispatches the network messages up to the end or the first byte that heads none, which stays unread; the guard against a dispatcher that reads nothing never fires |
| `InboundReader.Inbound.DispatchFrameBody` | internal/session/reader.go:197-213 | dispatches everything in a reassembled body, up to the first error |
| `InboundReader.Inbound.ReadTransport` | internal/session/reader.go:101-156 | one transport message: the state, the log and the cursor change as specified |
| `InboundReader.Inbound.ProcessBatch` | internal/session/reader.go:94-159 | the loop over a batch computes the reference run, and records the reason of a CLOSE |
| `InboundReader.Inbound.Run` | internal/session/reader.go:54-90 | the loop over batches stops at the first that fails or closes |
| `BatchParsing.BodyMessagesParse` | internal/session/reader.go:197-213 | a body made of encoded messages yields exactly those messages |
| `BatchParsing.TransportBoundary` | internal/wire/ids.go:56-63 | after a FRAME body the next transport header is never taken for a network message |
| `BatchParsing.BatchParses` | internal/session/reader.go:94-191 | a batch of FRAMEs with any messages and KEEPALIVEs in any order, optionally closed by one FRAGMENT, dispatches exactly the messages of all FRAMEs, each under its own lane |
| `BatchEndings.CloseEndsBatch` | internal/session/reader.go:106-114 | at a CLOSE, whatever its scope and extensions, everything before it has been dispatched and the reader stops for its reason, whatever follows in the batch |
| `BatchEndings.CloseEndsReading` | internal/session/reader.go:44-114 | and no later batch is looked at |
| `BatchEndings.ReadUntilClose` | internal/session/reader.go:44-114 | the same for the object, which records the reason |
| `BatchEndings.UnknownEndsBatch` | internal/session/reader.go:149-156 | a message of any other kind ends the link with an error, after what came before it |
| `BatchEndings.MalformedEndsBatch` | internal/session/reader.go:96-130 | so does a message of a known kind that cannot be decoded |
| `BatchEndings.ReadingGoesOn` | internal/session/reader.go:44-90 | the reader takes the next batch exactly when the last one has left it running |
| `BatchEndings.ErrorEndsBatch` | internal/session/reader.go:165-191 | an undecodable message in a FRAME ends the link with its error, after what came before it |
| `BatchEndings.OamEndsBatch` | internal/session/dispatch.go:55-57 | an OAM takes the rest of the batch and is no error |
| `BatchEndings.FragmentKeepsRunning` | internal/session/reader.go:126-141 | a fragment that is turned away dispatches nothing and leaves the reader running |
| `BatchEndings.FragmentCompletes` | internal/session/reader.go:126-146 | a completed body dispatches what is in it, up to an undecodable message, which is an error of the link |
| `OutboundWriter.Writer.HandleItem` | internal/session/writer.go:162-174 | a message goes to the batcher, a finished batch follows everything still being packed, an empty item does nothing |
| `OutboundWriter.Writer.Drain` | internal/session/writer.go:102-160 | handles what is queued and flushes; after a failure items are dropped without touching the link |
| `OutboundWriter.Writer.Loop` | internal/session/writer.go:45-97 | without a failing write the wire holds exactly the planned batches and the deferred flush; otherwise a prefix of the plan |
| `OutboundWriter.RefusalIsFinal` | internal/session/writer.go:66-81 | after a refused item nothing more is done |
| `OutboundWriter.BurstIsFlushed` | internal/session/writer.go:102-160 | a wake-up that is not cut short leaves no FRAME open |
| `WriterPromises.RawOvertakesNothing` | internal/session/writer.go:166-170 | a finished batch goes out last, after every FRAME that was still open |
| `WriterPromises.MessageIsPacked` | internal/session/writer.go:162-165 | a message goes to its own lane as `EnqueuePacks` says and touches no other |
| `WriterPromises.GivesUpExactly` | internal/session/writer.go:66-81 | without a failing write the writer gives up exactly when it is handed a message without a lane, or one too long for a batch size that leaves no room for pieces |
| `WriterPromises.FlushIsOrdered` | internal/transport/batcher.go:187-202 | a flush emits at most one batch a lane, by priority and within one best-effort first |
| `EndToEnd.FragmentsReceived` | internal/transport/fragmenter.go:43-67 | the FRAGMENTs of a message, received from any point on, dispatch what is inside and leave the lane idle |
| `EndToEnd.EnqueueDelivers` | internal/transport/batcher.go:109-144 | what one enqueue emits makes any idle receiver dispatch a front part of the pending messages and the new one; the rest stays pending |
| `EndToEnd.ItemInStep` | internal/session/writer.go:162-174 | every item keeps sender and receiver in step: on each lane, dispatched plus pending is what was sent |
| `EndToEnd.EndToEnd` | internal/session/writer.go:45-174 | whatever is sent in whatever bursts over whatever lanes, with or without QoS, the receiver dispatches exactly the messages sent, those of each sending lane in order and under the lane the receiver sees, reports no error and holds no half-collected message |
| `EndToEnd.EndToEndByLane` | internal/session/writer.go:45-174 | each lane of the receiver holds exactly what was sent on that lane if and only if nothing was sent on a lane that the receiver sees as another one; with QoS it always does |
| `EndToEnd.ByLaneIffOwn` | internal/transport/batcher.go:27-29 | the same for any dispatch log that keeps each sending lane in order |
| `EndToEnd.Transfer` | internal/session/reader.go:44-213 | both statements for the writer, batcher, link, reader and reassembler objects |
| `WireNumbers.RunStaysOrderly` | internal/transport/batcher.go:109-256 | over any run, with or without QoS, each batch carries the number of the lane that emitted it: its seed, next, next of next, ... without gap or repetition, and every batch fits |
| `WireNumbers.WireNumbersAreModular` | internal/transport/batcher.go:109-256 | with QoS and a mask of n ones the i-th batch that the peer reads on a lane carries (seed + i) modulo 2^n |
| `WireNumbers.WireNumbersExactly` | internal/transport/batcher.go:221-256 | from a common seed, the numbers that the peer reads on a lane are gapless if and only if each batch comes after a multiple of 2^n batches of other sending lanes; within 2^n batches, if and only if a single lane has sent; the first batch of every sending lane carries the seed |
| `WireNumbers.SharedNumber` | internal/transport/batcher.go:221-240 | without QoS the first FRAMEs of any two priorities carry the same lane and the same number |
| `WireNumbers.IdleFlush` | internal/transport/batcher.go:187-202 | a flush without an open FRAME emits nothing and spends no number |
| `KeySets.MatchesConcat` | internal/keyexpr/join.go:11-16 | the keys of a concatenation are the concatenations of keys |
| `KeyCovers.CanonicalFormsAreUnique` | internal/keyexpr/keyexpr.go:50-52 | two canonical chunk sequences match the same keys, the empty one included, if and only if they are equal |
| `KeyCovers.SameNonEmptyKeys` | internal/keyexpr/keyexpr.go:50-52 | over non-empty keys alone, `**` and `*/**` are the only two canonical forms that coincide |
| `KeyCovers.CoversTransitive` | internal/keyexpr/include.go:17-61 | covering is transitive, through any middle expression |
| `KeyText.JoinOfSplit` | internal/keyexpr/keyexpr.go:69 | splitting at slashes and joining gives the string back |
| `KeyText.Validate` | internal/keyexpr/keyexpr.go:54-89 | accepts exactly the canonical strings, and every complaint is justified |
| `KeyCanon.Canonize` | internal/keyexpr/keyexpr.go:98-130 | the nested loops compute the canonical rewriting |
| `KeyCanon.Settle` | internal/keyexpr/keyexpr.go:108-122 | the inner loop ends and normalises the tail after an append |
| `KeyCanon.CompactKeepsKeys` | internal/keyexpr/keyexpr.go:98-130 | the rewriting keeps the set of matched chunk sequences |
| `KeyCanon.CompactShape` | internal/keyexpr/keyexpr.go:98-130 | no `**` is followed by a wildcard in the result, and it is made of legal chunks exactly when the input is |
| `KeyCanon.AutocanonizeIsExact` | internal/keyexpr/keyexpr.go:36-42 | succeeds exactly when there is a non-empty chunk and all non-empty chunks are legal literals or wildcards; the result is valid with the same keys |
| `KeyCanon.ValidIsUnchanged` | internal/keyexpr/keyexpr.go:33-42 | a valid string is its own canonical form |
| `KeyCanon.AutocanonizeIsIdempotent` | internal/keyexpr/keyexpr.go:33-42 | canonizing twice is canonizing once |
| `KeyCanon.EqualKeysAreEqualStrings` | internal/keyexpr/keyexpr.go:50-52 | for valid strings, equal key sets and equal strings are the same |
| `KeyCanon.AutocanonizeDecidesEquality` | internal/keyexpr/keyexpr.go:36-52 | two strings denote the same keys, however written, if and only if they canonize to the same string |
| `KeyCanon.JoinConcatenates` | internal/keyexpr/join.go:11-16 | a join succeeds exactly when the suffix is made of legal chunks, and its keys are the concatenations |
| `KeyCanon.Autocanonize` | internal/keyexpr/keyexpr.go:36-42 | the method returns what the specification says |
| `KeyIntersect.ChunkIntersect` | internal/keyexpr/intersect.go:19-62 | the loop with its recursive calls ends and says exactly whether the two rests share a key |
| `KeyIntersect.FastPath` | internal/keyexpr/intersect.go:8-13 | without wildcards, sharing a key is being the same string |
| `KeyIntersect.Intersects` | internal/keyexpr/intersect.go:7-15 | true if and only if some concrete, non-empty key matches both |
| `KeyIntersect.MeetCommutes` | internal/keyexpr/intersect.go:7-62 | intersection is symmetric |
| `KeyInclude.LtrIncludes` | internal/keyexpr/include.go:17-52 | the loop with its recursive calls decides whether the left side covers the right side read as a word |
| `KeyInclude.CoversIsSound` | internal/keyexpr/include.go:3-15 | a covered expression has no key outside the covering one |
| `KeyInclude.CoversIsExact` | internal/keyexpr/include.go:3-61 | the answer is right in both directions unless `*` precedes `**` on the left and a `**` on the right is not a trailing one |
| `KeyInclude.CompleteForLeft` | internal/keyexpr/include.go:38-42 | the answer is right for every right side if and only if the left side has no `*` before a `**` |
| `KeyInclude.CompleteForRight` | internal/keyexpr/include.go:38-42 | the answer is right for every left side if and only if the right side has `**` at most at its end, after another chunk |
| `KeyInclude.IncludesMisses` | internal/keyexpr/include.go:38-42 | `*/**` contains every key of `**/a`, yet the scan says no |
| `KeyWithin.IncludedExactly` | internal/keyexpr/include.go:3-15 | for any pair, key-set inclusion holds if and only if the left side absorbs the right one: a run of k `*` with a `**` takes any stretch with at least k chunks other than `**`; the one exception, as keys are not empty, is `*/**` over `**` |
| `KeyWithin.ScanErrsExactly` | internal/keyexpr/include.go:17-52 | the answer for a pair is right if and only if inclusion by that recursion implies covering |
| `KeyWithin.FoilTells` | internal/keyexpr/include.go:3-15 | one key of the right side, built from the pair, is matched by the left side only if the left side absorbs the right one |
| `KeyInclude.CoversAntisymmetric` | internal/keyexpr/include.go:10-15 | mutual inclusion is equality |
| `KeyInclude.IncludesMeansIntersects` | internal/keyexpr/include.go:10-15 | inclusion implies intersection |
| `KeyInclude.Includes` | internal/keyexpr/include.go:10-15 | decides covering; a positive answer is always right, a negative one under the condition above |
| `PeerLinks.BothSidesAgree` | zenoh/session_peer.go:417-427 | both ends come to the same verdict about a link, and to opposite verdicts about the two directions |
| `PeerLinks.WinnerStays` | zenoh/session_peer.go:364-415 | in every interleaving of completions, installations, teardowns, lost links and session shutdowns the link with the smaller initiator goes down only if it is lost; until then it is never rejected, and held from its installation on |
| `PeerLinks.PeersConverge` | zenoh/session_peer.go:356-415 | unless the winner is lost, both registries agree on it, and where both links completed the other one has been closed |
| `PeerLinks.InstalledForGood` | internal/session/session.go:137-147 | whatever follows, a late teardown of the other link included, the installed winner stays until it is lost |
| `PeerLinks.PeerSession.StartRuntimeForPeer` | zenoh/session_peer.go:364-415 | check, closing and registration as one locked step, with the current runtime; the registered link is returned, a canonical one always wins, and a closed session closes the link and installs nothing |
| `PeerLinks.PeerSession.UninstallRuntime` | zenoh/session.go:185-191 | removes the entry, and the current runtime, only if it still is the ended one |
| `PeerLinks.SmallerInitiatorWins` | zenoh/session_peer.go:417-427 | the winner is the link whose initiator is smaller at the first differing byte |
| `PeerLinks.LoneLinkStays` | zenoh/session_peer.go:374-405 | a link without a competitor is kept in either direction until it is lost |
| `PeerLinks.DeadEntriesGo` | internal/session/session.go:137-147 | an entry that names a link that is down has its teardown still to come, which removes it |
| `PeerLinks.UninstalledIsGone` | internal/session/session.go:137-147 | after its teardown a link is named by no entry, and no other entry has changed |
| `Handshake.MinResolutionByField` | internal/wire/resolution.go:71-80 | the negotiated width, and with it the mask, is the smaller one field by field |
| `Handshake.InitialSnFits` | internal/session/initial_sn.go:15-26 | the initial number is the hash modulo 2^bits and within the mask |
| `Handshake.HandshakeAgreement` | internal/session/handshake.go:68-182 | when both sides finish they hold the same batch size (the minimum), resolution (per-field minimum) and QoS flag, and crossed ZIDs, roles, leases and initial numbers within the mask |
| `Handshake.OnlyTheLinkCanFail` | internal/session/handshake_responder.go:52-168 | between two proper sides nothing but a failing read or write makes the handshake fail; the raised-resolution rejection never fires, and with full delivery either side succeeds if and only if both can write their two messages |
| `Handshake.HandshakeCompletes` | internal/session/handshake.go:56-67 | for any two proper configurations with different ZIDs there is such an exchange |
| `Handshake.NoSessionWithSelf` | internal/session/handshake_responder.go:72-75 | a peer that reaches itself gets no session on either side, and the responder answers CLOSE if it can still write |
| `Handshake.DoHandshake` | internal/session/handshake.go:68-182 | the initiator method writes, reads and returns what the exchange specifies, on any inbound bytes and whichever write fails |
| `Handshake.DoHandshakeResponder` | internal/session/handshake_responder.go:52-168 | the responder method likewise |
| `HandshakeOutcomes.InitiatorOutcome` | internal/session/handshake.go:96-182 | for any encodable INIT and OPEN of any peer: the initiator succeeds exactly on an INIT ACK of our version from another node that raises nothing, followed by an OPEN ACK; every field of the session follows from them, a lease in seconds being taken times 1000 |
| `HandshakeOutcomes.ResponderOutcome` | internal/session/handshake_responder.go:64-168 | the responder succeeds exactly on an INIT SYN of our version from another node followed by an OPEN SYN that returns the cookie; the session likewise |
| `HandshakeOutcomes.InitiatorRejects` | internal/session/handshake.go:96-130 | the error for every other INIT, and the CLOSE written to itself and against a raised resolution |
| `HandshakeOutcomes.ResponderRejects` | internal/session/handshake_responder.go:64-75 | the error and the CLOSE for every other INIT |
| `HandshakeOutcomes.ForgedCookie` | internal/session/handshake_responder.go:127-130 | any other cookie is answered with a CLOSE and no session |
| `HandshakeOutcomes.InitiatorIsCareful` | internal/session/handshake.go:96-130 | whatever bytes arrive, a session is with another node of our version and nothing in it is above the offer |
| `HandshakeOutcomes.ResponderIsCareful` | internal/session/handshake_responder.go:64-130 | whatever bytes arrive, a session is with another node of our version that returned the cookie, at the lower of the two offers |
| `HandshakeOutcomes.CloseEndsHandshake` | internal/session/handshake.go:209-237 | a CLOSE in place of the awaited INIT ends either role with its reason |
| `HandshakeOutcomes.FaultyConfig` | internal/session/handshake.go:69-77 | without a valid ZID, a batch size or a lease nothing is read or written |
| `Matching.DeclarationsAreAlive` | internal/session/matching.go:227-272 | in every reachable state the set of an entry holds exactly the (peer, id) pairs with an intersecting declaration since registration or reset and no later undeclaration of the same kind |
| `Matching.RegistryStaysTruthful` | internal/session/matching.go:164-312 | the count equals the size of the set, after the snapshot every listener was last told whether it is positive, and notices alternate strictly within an epoch |
| `Matching.Registry.ApplyMatchingDelta` | internal/session/matching.go:227-272 | the loop over entries, with the real intersection test, performs one step of the model |
| `Matching.Registry.TellAll` | internal/session/matching.go:267-270 | the loop over listeners tells each of them once |
| `Matching.Registry.OnSnapshotDone` | internal/session/matching.go:278-297 | marks the snapshot as done; the first completion tells every listener the status once, a repeated one nobody; afterwards the status is the last thing each has heard |
| `MatchingHistory.SnapshotsAreReported` | internal/session/matching.go:278-312 | over any history an entry counts as done if and only if its snapshot was reported since the last registration and the last reset, and its epoch is the number of first reports |
| `MatchingHistory.ListenersKnow` | internal/session/matching.go:164-312 | from then on every listener was last told whether a declaration is alive |
| `MatchingHistory.ReportIsHeard` | internal/session/matching.go:278-297 | right after a report every listener has been told |
| `MatchingHistory.EntriesAreRegistered` | internal/session/matching.go:116-149 | an entry exists if and only if it was registered and not unregistered since, and is about what it was registered for |
| `MatchingHistory.ListenersAreAttached` | internal/session/matching.go:164-192 | the listeners are exactly those attached since registration and not detached since, under the running 32-bit identifier |
| `MatchingHistory.NewcomerHears` | internal/session/matching.go:164-179 | a new listener hears the status at once if the snapshot is done and otherwise nothing |
| `MatchingHistory.OneNoticeAtATime` | internal/session/matching.go:227-312 | no event tells a listener twice, and nothing told is taken back |
| `MatchingHistory.SilentBeforeSnapshot` | internal/session/matching.go:252-266 | before the snapshot nobody is told anything |
| `Matching.Registry.ResetMatching` | internal/session/matching.go:303-312 | clears counts, sets and flags and keeps the listeners |
| `Matching.Registry.AttachMatchingListener` | internal/session/matching.go:164-179 | an attached listener hears the current state at once if the snapshot is done |
| `Matching.Registry.RegisterMatching` | internal/session/matching.go:116-126 | a new entry starts empty, before its snapshot, and replaces an old one |
| `Matching.Registry.UnregisterMatching` | internal/session/matching.go:131-149 | drops the entry and returns the listeners whose removal hooks are due |
| `Matching.Registry.DetachMatchingListener` | internal/session/matching.go:183-192 | removes one listener and nothing else |
| `Matching.Registry.GetMatchingStatus` | internal/session/matching.go:199-208 | reports whether any declaration is alive |
| `QueryCompletion.ExactlyOneFinal` | internal/session/queryable.go:34-39 | in every interleaving a request has exactly one final as soon as its last share is settled and none before, and no answer follows it |
| `QueryCompletion.NeverStuck` | zenoh/queryable.go:71-81 | a request without its final always has a step that brings it nearer, whatever was dropped |
| `QueryCompletion.StepsUseUpWork` | zenoh/queryable.go:118-157 | every step other than a reply uses up work, so the final is reached |
| `QueryCompletion.FinalArrivesLast` | zenoh/query.go:78-101 | replies and finals share the reliable Data lane with any other traffic; they are among what the peer dispatches, in the same order, and the final of a request after its replies |
| `QueryCompletion.Queryables.OnRequest` | internal/session/dispatch.go:64-101 | the query ends up queued at exactly the matching queryables with room; if there is none, be it for an unknown or unparsable key, no match or full queues, one final is sent at once and nothing else |
| `QueryCompletion.Queryables.Intersecting` | internal/session/queryable.go:100-112 | the loop collects exactly the queryables whose expression shares a key with the request |
| `QueryCompletion.Queryables.Deliveries` | internal/session/queryable.go:113-119 | exactly the matches with room get the query queued, exactly the others drop it and settle their share |
| `QueryCompletion.Queryables.RunQueryHandler` | zenoh/queryable.go:118-143 | sends the replies in order and, if nothing else is open, the final; then nothing |
| `QueryAnswers.RepliesAreAnswers` | zenoh/query.go:78-101 | in every interleaving the answers sent for a query are its replies, in order |
| `QueryAnswers.SentUnderItsRequest` | zenoh/query.go:78-101 | every answer and every final carries the identifier of the request it belongs to |
| `Lifecycle.ClosedForGood` | internal/session/session.go:217-228 | Closed is never left, in either mode, under any interleaving of reads and swaps |
| `Lifecycle.OneRuntime` | internal/session/run.go:146-186 | in single-runtime mode successful Runs exceed successful EnterReconnectings by one exactly while Active, or Active when closed, and else by none |
| `Lifecycle.HandshakesAreNotShared` | internal/session/run.go:120-144 | every runtime had a handshake of its own and every handshake a dial |
| `Lifecycle.OnlyCloseInterrupts` | internal/session/run.go:133-139 | between its two swaps a BeginHandshake is alone; only Close can make the second one fail |
| `Lifecycle.SharedSession.Advance` | internal/session/run.go:120-186 | each access of a running call to the cell, by load or compare-and-swap, performs exactly one step of the model |
| `Lifecycle.SharedSession.CompareAndSwap` | internal/session/state.go:46-50 | the swap succeeds exactly when the cell still holds what was seen |
| `Lifecycle.CloseCloses` | internal/session/session.go:217-228 | once the shutdown loop is through, the session is closed |
| `Lifecycle.CloseReturnsClosed` | internal/session/session.go:217-228 | any Close that has returned, the first or a later one, has left the session closed |
| `LifecycleAdmission.Alone` | internal/session/run.go:120-186 | an undisturbed call from any state, in either mode: it returns, succeeds exactly from the states that admit it, leads to the state it should, and changes nothing when refused |
| `LifecycleAdmission.ReconnectsForEver` | internal/session/run.go:108-158 | handshake, runtime and reconnect follow one another any number of times |
| `Consolidation.TranslateMonotonic` | zenoh/get.go:345-361 | a reply passes unless its timestamp is not above all earlier ones of its key |
| `Consolidation.TranslateLatest` | zenoh/get.go:388-449 | all errors in arrival order, then for each key, in order of first arrival, its winner |
| `Consolidation.LatestIsUnique` | zenoh/get.go:388-449 | that fixes the output |
| `Consolidation.WinnerIsUnique` | zenoh/get.go:398-420 | a key has at most one winner |
| `Consolidation.AllStampedWinner` | zenoh/get.go:383-387 | all stamped: the earliest of the greatest timestamps |
| `Consolidation.NoneStampedWinner` | zenoh/get.go:383-387 | none stamped: the last |
| `Consolidation.LastUnstampedDecides` | zenoh/get.go:410-417 | mixed: the winner is that of the replies from the last unstamped one on |
| `Consolidation.KeysInArrivalOrder` | zenoh/get.go:418-419 | keys come out in the order in which they first arrived |
| `Consolidation.BudgetLimit` | zenoh/get.go:290-313 | forwards the first n replies |
| `Consolidation.Translate` | zenoh/get.go:208-211 | whatever the mode, a budget caps what the caller sees |

## Left out

- Sockets, dialers, listeners, scouting, timers, keepalive cadence, the lease watchdog, logging and panic recovery: input and output, wall-clock behaviour.
- The multicast runtime, its peer table and its per-lane JOIN numbers beyond the batcher's seeds: the reader duplicates the unicast one.
- Network OAM inside a FRAME swallows the rest of the batch by design; the model does so too, and the batch and end-to-end theorems are about messages other than OAM.
- CLOSE and other finished batches among the sent items, apart from KEEPALIVE: the end-to-end theorem leaves them out because the reader stops there.
- Batching.Batcher.Enqueue: the mutex is not modelled; the writer loop is the only caller.
- Extensions.EncodeExtensions: the source overwrites the More flags in the caller's slice; the model appends the recomputed flags and leaves the argument alone.
- Extension bodies are one variant per encoding, so a value set beside an unrelated encoding cannot be expressed.
- Reassembly.Reassembler.Push: lane states are values of a map rather than separate objects, and buffers are sequences; aliasing of the returned slice is not captured.
- InboundReader.Inbound.Run: the closing channel and read errors end the stream of batches; a batch that has been read is always processed to its end.
- OutboundWriter.Writer.Loop: a wake-up takes what is queued at that moment as one burst; which burst an item falls into is arbitrary.
- Handshake.DoHandshake: a read fails only when no batch is left, and a link that has failed a write takes no more. The reassembly cap of the configuration plays no part.
- PeerLinks.WinnerStays: one link in each direction between two peers; dialling again after a loss is not an event of the model.
- PeerLinks.PeerSession.StartRuntimeForPeer: the replay of declarations to the new peer, whose failure is only logged, is left out.
- Matching.Registry.AttachMatchingListener: listener identifiers wrap at 32 bits as in the source; delivery callbacks are recorded, not called, and removal hooks are returned to the caller.
- QueryCompletion.Queryables.OnRequest: alias resolution is an argument; the number of registered queryables is below 2^32 because their identifiers are 32-bit words; replies sent by a handler's leftovers after it returned are not events of the model.
- QueryCompletion.FinalArrivesLast: one link; the fan-out of a reply over several links is one queue per link.
- Lifecycle: the user-close channel and the goroutine wiring of Run are not modelled; a thread's calls are its successive events.
- Consolidation.TranslateLatest: cancellation of the context, which ends the output early, is not modelled.
- Config parsing, locators, the encoding name catalogue, error codes, backoff, identifier allocators, ring and FIFO handlers, stream framing, SCOUT, HELLO and JOIN: they would only add easy members.
- Entity replay on reconnect, inbound token tracking and alias tables shared across peers: the code gives no clean global guarantee there.
